/**
 * The sender's outbound bookkeeping: field updates held back on unresolved
 * objects (one OutgoingIndex.UnresolvedIndex for replicated and one for
 * handover properties), updates held until this worker gains authority,
 * reliable RPCs waiting to be retried, unreliable RPCs packed per player
 * controller, RPCs waiting for their target's entity, the retry decision
 * for the worker entity, and the access-control lists of a new entity.
 *
 * Everything the sender hands to the worker connection is appended to the
 * connection's log of messages; the engine's package map, object liveness
 * and authority view become parameters.
 */
module SpatialSender {
  import opened Constants
  import opened OutgoingIndex
  import ComponentFactory

  type ComponentUpdate = ComponentFactory.ComponentUpdate

  // ---------------------------------------------------------------------
  // Values the sender queues and sends.

  /** An unreliable RPC waiting to be packed into its controller's endpoint update. */
  datatype PendingUnreliableRPC = PendingUnreliableRPC(offset: nat, index: FieldId, data: Bytes, entity: EntityId)

  /** An RPC waiting for an object to get an entity; `target` is the object it is called on. */
  datatype PendingRPC = PendingRPC(target: ObjectId, functionId: nat, parameters: Bytes)

  /** What the sender hands to the worker connection. */
  datatype Message =
    | UpdateMessage(entity: EntityId, update: ComponentUpdate)
    | PackedRPCsMessage(entity: EntityId, componentId: ComponentId, rpcs: seq<PendingUnreliableRPC>)
    | RetryCommand(entity: EntityId, offset: nat, rpc: RetryRPC)
    | RPCResent(params: PendingRPC)
    | ComponentsResent(pair: Pair, isHandover: bool, handles: seq<Handle>)

  /** The worker connection: everything sent through it, in order. */
  class Connection {
    var sent: seq<Message>

    constructor()
      ensures sent == []
    {
      sent := [];
    }
  }

  /**
   * A reliable RPC whose command timed out. It is shared with the receiver,
   * which keeps it while the command is in flight, so the attempt count is
   * updated in place.
   */
  class RetryRPC {
    const target: ObjectId
    const functionId: nat
    const componentId: ComponentId
    const rpcIndex: FieldId
    const payload: Bytes
    const retryIndex: int
    var attempts: nat

    /** The first attempt has already been made when a retry is created. */
    constructor(target: ObjectId, functionId: nat, componentId: ComponentId, rpcIndex: FieldId, payload: Bytes, retryIndex: int)
      ensures this.target == target && this.functionId == functionId && this.componentId == componentId
      ensures this.rpcIndex == rpcIndex && this.payload == payload && this.retryIndex == retryIndex
      ensures attempts == 1
    {
      this.target := target;
      this.functionId := functionId;
      this.componentId := componentId;
      this.rpcIndex := rpcIndex;
      this.payload := payload;
      this.retryIndex := retryIndex;
      attempts := 1;
    }
  }

  /** The entity of a reference; the null and unresolved references carry entity 0. */
  function RefEntity(r: ObjectRef): EntityId {
    if r.Ref? then r.entity else 0
  }

  /** The offset of a reference; 0 for the null and unresolved references. */
  function RefOffset(r: ObjectRef): nat {
    if r.Ref? then r.offset else 0
  }

  // ---------------------------------------------------------------------
  // Component updates and the authority queue.

  /** The component an update is addressed to. */
  function UpdateComponentId(u: ComponentUpdate): ComponentId {
    match u
    case FieldsUpdate(id, _, _) => id
    case InterestUpdate(_) => INTEREST_COMPONENT_ID
  }

  /**
   * The updates this worker has authority over (`authorized`), or those it
   * has not, in their original order.
   */
  function Select(us: seq<ComponentUpdate>, authoritative: set<ComponentId>, authorized: bool): (r: seq<ComponentUpdate>)
    ensures |r| <= |us|
  {
    if us == [] then []
    else
      var u := us[|us| - 1];
      Select(us[..|us| - 1], authoritative, authorized)
        + (if (UpdateComponentId(u) in authoritative) == authorized then [u] else [])
  }

  /**
   * Every update is either sent or queued, once: the sent ones are exactly
   * those with authority, the queued ones exactly the others.
   */
  lemma {:induction false} SelectPartition(us: seq<ComponentUpdate>, authoritative: set<ComponentId>)
    ensures multiset(Select(us, authoritative, true)) + multiset(Select(us, authoritative, false)) == multiset(us)
    ensures forall u :: u in Select(us, authoritative, true) <==> u in us && UpdateComponentId(u) in authoritative
    ensures forall u :: u in Select(us, authoritative, false) <==> u in us && UpdateComponentId(u) !in authoritative
  {
    if us != [] {
      var init := us[..|us| - 1];
      SelectPartition(init, authoritative);
      assert us == init + [us[|us| - 1]];
    }
  }

  /** The messages that send `us` to `entity`, one per update, in order. */
  function UpdateMessages(entity: EntityId, us: seq<ComponentUpdate>): (r: seq<Message>)
    ensures |r| == |us|
  {
    if us == [] then [] else UpdateMessages(entity, us[..|us| - 1]) + [UpdateMessage(entity, us[|us| - 1])]
  }

  lemma SelectStep(us: seq<ComponentUpdate>, i: nat, authoritative: set<ComponentId>, authorized: bool)
    requires i < |us|
    ensures (UpdateComponentId(us[i]) in authoritative) == authorized ==>
      Select(us[..i + 1], authoritative, authorized) == Select(us[..i], authoritative, authorized) + [us[i]]
    ensures (UpdateComponentId(us[i]) in authoritative) != authorized ==>
      Select(us[..i + 1], authoritative, authorized) == Select(us[..i], authoritative, authorized)
  {
    assert us[..i + 1][..i] == us[..i];
  }

  lemma UpdateMessagesAppend(entity: EntityId, us: seq<ComponentUpdate>, u: ComponentUpdate)
    ensures UpdateMessages(entity, us + [u]) == UpdateMessages(entity, us) + [UpdateMessage(entity, u)]
  {
    assert (us + [u])[..|us|] == us;
  }

  /** The updates queued for an entity. */
  function Queued(q: map<EntityId, seq<ComponentUpdate>>, entity: EntityId): seq<ComponentUpdate> {
    if entity in q then q[entity] else []
  }

  /** The queue after `held` was appended to the entity's list; no entry is made for nothing. */
  function Withhold(q: map<EntityId, seq<ComponentUpdate>>, entity: EntityId, held: seq<ComponentUpdate>): (r: map<EntityId, seq<ComponentUpdate>>)
    ensures Queued(r, entity) == Queued(q, entity) + held
    ensures forall e :: e != entity ==> (e in r <==> e in q) && Queued(r, e) == Queued(q, e)
    ensures entity in r <==> entity in q || held != []
  {
    if held == [] then q else q[entity := Queued(q, entity) + held]
  }

  lemma WithholdAppend(q: map<EntityId, seq<ComponentUpdate>>, entity: EntityId, held: seq<ComponentUpdate>, u: ComponentUpdate)
    ensures Withhold(q, entity, held + [u]) == Withhold(q, entity, held)[entity := Queued(Withhold(q, entity, held), entity) + [u]]
  {
    if held == [] {
      assert held + [u] == [u];
    } else {
      var w := Withhold(q, entity, held);
      assert Queued(q, entity) + (held + [u]) == Queued(w, entity) + [u];
    }
  }

  /** An update sent with authority extends the sent log by its message and leaves the held-back list alone. */
  lemma SendStep(entity: EntityId, us: seq<ComponentUpdate>, i: nat, authoritative: set<ComponentId>,
                 sent0: seq<Message>, sent: seq<Message>)
    requires i < |us| && UpdateComponentId(us[i]) in authoritative
    requires sent == sent0 + UpdateMessages(entity, Select(us[..i], authoritative, true))
    ensures sent + [UpdateMessage(entity, us[i])] == sent0 + UpdateMessages(entity, Select(us[..i + 1], authoritative, true))
    ensures Select(us[..i + 1], authoritative, false) == Select(us[..i], authoritative, false)
  {
    SelectStep(us, i, authoritative, true);
    SelectStep(us, i, authoritative, false);
    UpdateMessagesAppend(entity, Select(us[..i], authoritative, true), us[i]);
  }

  /** An update without authority is appended to the entity's queue and is not sent. */
  lemma WithholdStep(entity: EntityId, us: seq<ComponentUpdate>, i: nat, authoritative: set<ComponentId>,
                     q0: map<EntityId, seq<ComponentUpdate>>, q: map<EntityId, seq<ComponentUpdate>>)
    requires i < |us| && UpdateComponentId(us[i]) !in authoritative
    requires q == Withhold(q0, entity, Select(us[..i], authoritative, false))
    ensures q[entity := Queued(q, entity) + [us[i]]] == Withhold(q0, entity, Select(us[..i + 1], authoritative, false))
    ensures Select(us[..i + 1], authoritative, true) == Select(us[..i], authoritative, true)
  {
    SelectStep(us, i, authoritative, true);
    SelectStep(us, i, authoritative, false);
    WithholdAppend(q0, entity, Select(us[..i], authoritative, false), us[i]);
  }

  // ---------------------------------------------------------------------
  // Change lists of held-back fields.

  /** The handles a change list resets: all of them, except 0 in a replicated list, where 0 ends a list. */
  function Touched(handles: seq<Handle>, skipZero: bool): set<Handle> {
    set h | h in handles && (h > 0 || !skipZero)
  }

  /**
   * The replicated change list that re-sends `hs` on pair p: each handle,
   * followed by two zero handles when it is a dynamic array, and a final
   * zero that ends the list.
   */
  function RepChangeList(p: Pair, hs: seq<Handle>, isDynamicArray: (Pair, Handle) -> bool): seq<Handle> {
    ExpandArrays(p, hs, isDynamicArray) + [0]
  }

  function ExpandArrays(p: Pair, hs: seq<Handle>, isDynamicArray: (Pair, Handle) -> bool): seq<Handle> {
    if hs == [] then []
    else
      var h := hs[|hs| - 1];
      ExpandArrays(p, hs[..|hs| - 1], isDynamicArray) + [h] + (if isDynamicArray(p, h) then [0, 0] else [])
  }

  /** The handles of a change list that are not 0. */
  function NonZero(s: seq<Handle>): (r: seq<Handle>)
    ensures forall h :: h in r <==> h in s && h > 0
  {
    if s == [] then [] else NonZero(s[..|s| - 1]) + (if s[|s| - 1] > 0 then [s[|s| - 1]] else [])
  }

  lemma {:induction false} NonZeroAppend(a: seq<Handle>, b: seq<Handle>)
    ensures NonZero(a + b) == NonZero(a) + NonZero(b)
    decreases |b|
  {
    if b == [] {
      assert a + b == a;
    } else {
      var b' := b[..|b| - 1];
      NonZeroAppend(a, b');
      assert (a + b)[..|a + b| - 1] == a + b';
      assert NonZero(b) == NonZero(b') + (if b[|b| - 1] > 0 then [b[|b| - 1]] else []);
    }
  }

  /**
   * Reading a re-sent replicated change list up to its terminating zero
   * gives back exactly the resolved handles, in order: the zeros added
   * for dynamic arrays and the terminator carry no handle.
   */
  lemma {:induction false} RepChangeListHandles(p: Pair, hs: seq<Handle>, isDynamicArray: (Pair, Handle) -> bool)
    requires forall k :: 0 <= k < |hs| ==> hs[k] > 0
    ensures NonZero(RepChangeList(p, hs, isDynamicArray)) == hs
    ensures RepChangeList(p, hs, isDynamicArray)[|RepChangeList(p, hs, isDynamicArray)| - 1] == 0
  {
    ExpandHandles(p, hs, isDynamicArray);
    NonZeroAppend(ExpandArrays(p, hs, isDynamicArray), [0]);
    assert NonZero([0]) == [];
  }

  lemma {:induction false} ExpandHandles(p: Pair, hs: seq<Handle>, isDynamicArray: (Pair, Handle) -> bool)
    requires forall k :: 0 <= k < |hs| ==> hs[k] > 0
    ensures NonZero(ExpandArrays(p, hs, isDynamicArray)) == hs
  {
    if hs != [] {
      var init := hs[..|hs| - 1];
      var h := hs[|hs| - 1];
      var zeros: seq<Handle> := if isDynamicArray(p, h) then [0, 0] else [];
      var a := ExpandArrays(p, init, isDynamicArray);
      assert ExpandArrays(p, hs, isDynamicArray) == (a + [h]) + zeros;
      ExpandHandles(p, init, isDynamicArray);
      NonZeroAppend(a + [h], zeros);
      NonZeroAppend(a, [h]);
      assert NonZero(zeros) == [] by {
        if zeros != [] {
          assert zeros[..1] == [0];
          assert zeros[..1][..0] == [];
        }
      }
      assert NonZero([h]) == [h] by {
        assert [h][..0] == [];
      }
      assert hs == init + [h];
    }
  }

  /** The handle list re-sent for one resolved pair. */
  function ChangeList(r: Resend, isHandover: bool, isDynamicArray: (Pair, Handle) -> bool): seq<Handle> {
    if isHandover then r.handles else RepChangeList(r.pair, r.handles, isDynamicArray)
  }

  /** One re-send per resolved pair, in order. */
  function ResendMessages(rs: seq<Resend>, isHandover: bool, isDynamicArray: (Pair, Handle) -> bool): (r: seq<Message>)
    ensures |r| == |rs|
    ensures forall k :: 0 <= k < |rs| ==> r[k] == ComponentsResent(rs[k].pair, isHandover, ChangeList(rs[k], isHandover, isDynamicArray))
  {
    if rs == [] then []
    else
      var last := rs[|rs| - 1];
      ResendMessages(rs[..|rs| - 1], isHandover, isDynamicArray) + [ComponentsResent(last.pair, isHandover, ChangeList(last, isHandover, isDynamicArray))]
  }

  /** The handles re-sent after a resolution were pending before it, so none is 0 when no pending handle was. */
  lemma ResolvedHandlesPositive(x: Index, o: ObjectId, live: set<Pair>, resends: seq<Resend>)
    requires Backward(x) && forall p, h :: Has(x.prop, p, h) ==> h > 0
    requires ResendsFor(x, o, live, ReachedPairs(x, o), resends)
    ensures forall k, h :: 0 <= k < |resends| && h in resends[k].handles ==> h > 0
  {
    forall k, h | 0 <= k < |resends| && h in resends[k].handles
      ensures h > 0
    {
      assert ResolvesHandle(x, o, live, resends[k].pair, h);
    }
  }

  // ---------------------------------------------------------------------
  // Reliable RPC retries.

  /** The retry is sent: its target still exists and has a resolved reference. */
  predicate Retries(r: RetryRPC, alive: set<ObjectId>, refOf: ObjectId -> ObjectRef) {
    r.target in alive && refOf(r.target) != UnresolvedRef
  }

  /** The commands a retry pass sends, in pass order; dropped retries send nothing. */
  function RetryMessages(rs: seq<RetryRPC>, alive: set<ObjectId>, refOf: ObjectId -> ObjectRef): (r: seq<Message>)
    ensures forall k :: 0 <= k < |r| ==> r[k].RetryCommand? && r[k].rpc in rs && Retries(r[k].rpc, alive, refOf)
    ensures |r| <= |rs|
  {
    if rs == [] then []
    else
      var x := rs[|rs| - 1];
      RetryMessages(rs[..|rs| - 1], alive, refOf)
        + (if Retries(x, alive, refOf) then [RetryCommand(RefEntity(refOf(x.target)), RefOffset(refOf(x.target)), x)] else [])
  }

  predicate SortedByRetryIndex(rs: seq<RetryRPC>) {
    forall a, b :: 0 <= a < b < |rs| ==> rs[a].retryIndex <= rs[b].retryIndex
  }

  /** Places x in the sorted list after the entries whose index is not larger. */
  function InsertByRetryIndex(x: RetryRPC, rs: seq<RetryRPC>): (r: seq<RetryRPC>)
    requires SortedByRetryIndex(rs)
    ensures SortedByRetryIndex(r)
    ensures multiset(r) == multiset(rs) + multiset{x}
  {
    if rs == [] then [x]
    else if x.retryIndex < rs[0].retryIndex then [x] + rs
    else
      var tail := InsertByRetryIndex(x, rs[1..]);
      assert rs == [rs[0]] + rs[1..];
      InsertedAfterHead(x, rs, tail);
      [rs[0]] + tail
  }

  /** Every element of the insertion into the rest of a sorted list is at least its head. */
  lemma InsertedAfterHead(x: RetryRPC, rs: seq<RetryRPC>, tail: seq<RetryRPC>)
    requires SortedByRetryIndex(rs) && rs != [] && rs[0].retryIndex <= x.retryIndex
    requires multiset(tail) == multiset(rs[1..]) + multiset{x}
    ensures forall k :: 0 <= k < |tail| ==> rs[0].retryIndex <= tail[k].retryIndex
  {
    forall k | 0 <= k < |tail|
      ensures rs[0].retryIndex <= tail[k].retryIndex
    {
      assert tail[k] in multiset(rs[1..]) + multiset{x};
      if tail[k] != x {
        var j :| 0 <= j < |rs[1..]| && rs[1..][j] == tail[k];
        assert rs[j + 1] == tail[k];
      }
    }
  }

  /** The retry list in ascending RetryIndex order: a sorted permutation. */
  function SortByRetryIndex(rs: seq<RetryRPC>): (r: seq<RetryRPC>)
    ensures SortedByRetryIndex(r)
    ensures multiset(r) == multiset(rs)
  {
    if rs == [] then []
    else
      assert rs == [rs[0]] + rs[1..];
      InsertByRetryIndex(rs[0], SortByRetryIndex(rs[1..]))
  }

  /** A pass over a sorted list sends its commands in ascending RetryIndex order. */
  lemma {:induction false} RetryMessagesOrdered(rs: seq<RetryRPC>, alive: set<ObjectId>, refOf: ObjectId -> ObjectRef)
    requires SortedByRetryIndex(rs)
    ensures forall a, b :: 0 <= a < b < |RetryMessages(rs, alive, refOf)| ==>
      RetryMessages(rs, alive, refOf)[a].rpc.retryIndex <= RetryMessages(rs, alive, refOf)[b].rpc.retryIndex
  {
    if rs != [] {
      var init := rs[..|rs| - 1];
      var x := rs[|rs| - 1];
      RetryMessagesOrdered(init, alive, refOf);
      var m := RetryMessages(init, alive, refOf);
      forall k | 0 <= k < |m|
        ensures m[k].rpc.retryIndex <= x.retryIndex
      {
        var j :| 0 <= j < |init| && init[j] == m[k].rpc;
      }
    }
  }

  // ---------------------------------------------------------------------
  // Packed unreliable RPCs.

  /** The packed RPCs keep one list per controller entity; `order` lists the entities in insertion order. */
  ghost predicate KeyOrder(m: map<EntityId, seq<PendingUnreliableRPC>>, order: seq<EntityId>) {
    (forall e :: e in m <==> e in order)
    && (forall a, b :: 0 <= a < b < |order| ==> order[a] != order[b])
    && |order| == |m|
  }

  function PendingFor(m: map<EntityId, seq<PendingUnreliableRPC>>, e: EntityId): seq<PendingUnreliableRPC> {
    if e in m then m[e] else []
  }

  /** The lists after rpc was appended to the list of controller entity e. */
  function AddUnreliable(m: map<EntityId, seq<PendingUnreliableRPC>>, e: EntityId, rpc: PendingUnreliableRPC): map<EntityId, seq<PendingUnreliableRPC>> {
    m[e := PendingFor(m, e) + [rpc]]
  }

  function AddUnreliableOrder(m: map<EntityId, seq<PendingUnreliableRPC>>, order: seq<EntityId>, e: EntityId): seq<EntityId> {
    if e in m then order else order + [e]
  }

  /** Adding keeps one key per entity: the controller's list ends with the new RPC, every other list is unchanged. */
  lemma AddUnreliableKeepsOrder(m: map<EntityId, seq<PendingUnreliableRPC>>, order: seq<EntityId>, e: EntityId, rpc: PendingUnreliableRPC)
    requires KeyOrder(m, order)
    ensures KeyOrder(AddUnreliable(m, e, rpc), AddUnreliableOrder(m, order, e))
    ensures PendingFor(AddUnreliable(m, e, rpc), e) == PendingFor(m, e) + [rpc]
    ensures forall e' :: e' != e ==> PendingFor(AddUnreliable(m, e, rpc), e') == PendingFor(m, e')
  {
    var order' := AddUnreliableOrder(m, order, e);
    if e !in m {
      forall a, b | 0 <= a < b < |order'| ensures order'[a] != order'[b] {
        if b == |order| {
          assert order'[a] == order[a] && order'[b] == e;
          assert order[a] in order;
        }
      }
    }
  }

  function PackedComponent(isServer: bool): ComponentId {
    if isServer then SERVER_RPC_ENDPOINT_COMPONENT_ID else CLIENT_RPC_ENDPOINT_COMPONENT_ID
  }

  /** One endpoint update per entity of `order`, holding that entity's RPCs. */
  function PackedMessages(order: seq<EntityId>, m: map<EntityId, seq<PendingUnreliableRPC>>, componentId: ComponentId): (r: seq<Message>)
    ensures |r| == |order|
    ensures forall k :: 0 <= k < |order| ==> r[k] == PackedRPCsMessage(order[k], componentId, PendingFor(m, order[k]))
  {
    if order == [] then []
    else
      var e := order[|order| - 1];
      PackedMessages(order[..|order| - 1], m, componentId) + [PackedRPCsMessage(e, componentId, PendingFor(m, e))]
  }

  /**
   * A flush sends exactly one endpoint update to each controller entity
   * with pending RPCs, holding its RPCs in the order they were added, and
   * nothing to any other entity.
   */
  lemma {:induction false} PackedMessagesExact(m: map<EntityId, seq<PendingUnreliableRPC>>, order: seq<EntityId>, componentId: ComponentId)
    requires KeyOrder(m, order)
    ensures forall k :: 0 <= k < |PackedMessages(order, m, componentId)| ==> PackedMessages(order, m, componentId)[k].entity in m
    ensures forall e :: e in m ==>
      exists k :: 0 <= k < |PackedMessages(order, m, componentId)| && PackedMessages(order, m, componentId)[k] == PackedRPCsMessage(e, componentId, m[e])
    ensures forall a, b :: 0 <= a < b < |PackedMessages(order, m, componentId)| ==>
      PackedMessages(order, m, componentId)[a].entity != PackedMessages(order, m, componentId)[b].entity
  {
    var r := PackedMessages(order, m, componentId);
    forall e | e in m
      ensures exists k :: 0 <= k < |r| && r[k] == PackedRPCsMessage(e, componentId, m[e])
    {
      var k :| 0 <= k < |order| && order[k] == e;
      assert r[k] == PackedRPCsMessage(e, componentId, m[e]);
    }
  }

  /** The serialised parameters of an RPC and the objects the serialiser could not resolve, in the order met. */
  datatype SerializedRPC = SerializedRPC(data: Bytes, unresolved: seq<ObjectId>)

  /** What owns the net connection of an entity's actor. */
  datatype ConnectionOwner = NoConnection | NotAController | Controller(obj: ObjectId)

  /** The position of the first object of `objs` that still exists, |objs| if none does. */
  function FirstAliveIndex(objs: seq<ObjectId>, alive: set<ObjectId>): (k: nat)
    ensures k <= |objs| && (k < |objs| ==> objs[k] in alive)
    ensures forall j :: 0 <= j < k ==> objs[j] !in alive
  {
    if objs == [] then 0
    else if objs[0] in alive then 0
    else 1 + FirstAliveIndex(objs[1..], alive)
  }

  /** The first object of `objs` that still exists. */
  function FirstAlive(objs: seq<ObjectId>, alive: set<ObjectId>): (r: Option<ObjectId>)
    ensures r.None? <==> forall k :: 0 <= k < |objs| ==> objs[k] !in alive
    ensures r.Some? ==>
      exists k :: 0 <= k < |objs| && objs[k] == r.value && r.value in alive && forall j :: 0 <= j < k ==> objs[j] !in alive
  {
    var k := FirstAliveIndex(objs, alive);
    if k < |objs| then Some(objs[k]) else None
  }

  // ---------------------------------------------------------------------
  // RPCs waiting for an object's entity.

  function RPCsFor(m: map<ObjectId, seq<PendingRPC>>, o: ObjectId): seq<PendingRPC> {
    if o in m then m[o] else []
  }

  /** The RPCs of `rs` that are sent once their dependency resolves: those whose target still exists, in order. */
  function ResentRPCs(rs: seq<PendingRPC>, alive: set<ObjectId>): (r: seq<Message>)
    ensures |r| <= |rs|
  {
    if rs == [] then []
    else
      var q := rs[|rs| - 1];
      ResentRPCs(rs[..|rs| - 1], alive) + (if q.target in alive then [RPCResent(q)] else [])
  }

  /** Exactly the queued RPCs whose target still exists are sent. */
  lemma {:induction false} ResentRPCsExact(rs: seq<PendingRPC>, alive: set<ObjectId>)
    ensures forall k :: 0 <= k < |ResentRPCs(rs, alive)| ==> ResentRPCs(rs, alive)[k].RPCResent?
    ensures forall q :: RPCResent(q) in ResentRPCs(rs, alive) <==> q in rs && q.target in alive
  {
    if rs != [] {
      var init := rs[..|rs| - 1];
      ResentRPCsExact(init, alive);
      assert rs == init + [rs[|rs| - 1]];
    }
  }

  /**
   * An RPC queued on an unresolved object is sent after the RPCs queued
   * on it before, when that object resolves, unless its target is gone.
   */
  lemma {:induction false} QueuedRPCResentLast(m: map<ObjectId, seq<PendingRPC>>, o: ObjectId, q: PendingRPC, alive: set<ObjectId>)
    requires q.target in alive
    ensures ResentRPCs(RPCsFor(m[o := RPCsFor(m, o) + [q]], o), alive) == ResentRPCs(RPCsFor(m, o), alive) + [RPCResent(q)]
  {
    var rs := RPCsFor(m, o) + [q];
    assert RPCsFor(m[o := rs], o) == rs;
    assert rs[..|rs| - 1] == RPCsFor(m, o);
  }

  // ---------------------------------------------------------------------
  // Retrying the creation of the worker entity.

  datatype StatusCode = StatusSuccess | StatusTimeout | StatusFailure(code: nat)

  datatype RetryDecision = Stop | RetryWith(attempt: nat)

  /**
   * The response to creation request number `attemptCounter`: only a
   * timeout is retried, with the next number, and not after the last
   * allowed attempt.
   */
  function OnCreateWorkerEntityResponse(status: StatusCode, attemptCounter: nat): (d: RetryDecision)
    ensures d.RetryWith? <==> status == StatusTimeout && attemptCounter != MAX_NUMBER_COMMAND_ATTEMPTS
    ensures d.RetryWith? ==> d.attempt == attemptCounter + 1
  {
    if status == StatusSuccess then Stop
    else if status != StatusTimeout then Stop
    else if attemptCounter == MAX_NUMBER_COMMAND_ATTEMPTS then Stop
    else RetryWith(attemptCounter + 1)
  }

  /** The number of creation requests made, from request `counter` on, when the responses arrive as listed. */
  function RequestCount(responses: seq<StatusCode>, counter: nat): nat
    decreases |responses|
  {
    if responses == [] then 1
    else
      match OnCreateWorkerEntityResponse(responses[0], counter)
      case Stop => 1
      case RetryWith(next) => 1 + RequestCount(responses[1..], next)
  }

  /** Starting from an attempt within the limit, at most MAX_NUMBER_COMMAND_ATTEMPTS requests are made in all. */
  lemma {:induction false} RequestsBounded(responses: seq<StatusCode>, counter: nat)
    requires 1 <= counter <= MAX_NUMBER_COMMAND_ATTEMPTS
    ensures RequestCount(responses, counter) <= MAX_NUMBER_COMMAND_ATTEMPTS - counter + 1
    decreases |responses|
  {
    if responses != [] {
      var d := OnCreateWorkerEntityResponse(responses[0], counter);
      if d.RetryWith? {
        RequestsBounded(responses[1..], d.attempt);
      }
    }
  }

  // ---------------------------------------------------------------------
  // Access control of a new entity.

  /** A conjunction of worker attributes. */
  type WorkerAttributeSet = seq<string>

  /** A disjunction of attribute sets. */
  type WorkerRequirementSet = seq<WorkerAttributeSet>

  /** The attribute set of every client worker (SpatialConstants.h is not part of this model). */
  const UNREAL_CLIENT_ATTRIBUTE_SET: WorkerAttributeSet := ["UnrealClient"]

  /** A static subobject of the actor's class, and whether the actor instance has it. */
  datatype Subobject = Subobject(components: SchemaComponents, present: bool)

  /** One requirement per server worker type, in order. */
  function ServerSets(types: seq<string>): (r: WorkerRequirementSet)
    ensures forall s :: s in r <==> exists t :: t in types && s == [t]
  {
    if types == [] then []
    else
      var init := types[..|types| - 1];
      assert forall t :: t in types <==> t in init || t == types[|types| - 1] by {
        assert types == init + [types[|types| - 1]];
      }
      ServerSets(init) + [[types[|types| - 1]]]
  }

  /** The well-known components that get a write requirement, besides the class's own. */
  function WellKnownIds(hasCreationRPCs: bool, isPlayerController: bool, shipping: bool): set<ComponentId> {
    {POSITION_COMPONENT_ID, INTEREST_COMPONENT_ID, SPAWN_DATA_COMPONENT_ID, ENTITY_ACL_COMPONENT_ID,
     SERVER_RPC_ENDPOINT_COMPONENT_ID, NETMULTICAST_RPCS_COMPONENT_ID, CLIENT_RPC_ENDPOINT_COMPONENT_ID}
    + (if hasCreationRPCs then {RPCS_ON_ENTITY_CREATION_ID} else {})
    + (if isPlayerController && !shipping then {DEBUG_METRICS_COMPONENT_ID} else {})
    + (if isPlayerController then {HEARTBEAT_COMPONENT_ID} else {})
  }

  /** Who may write a well-known component: the owning client for its endpoint and heartbeat, any server for metrics, else the authoritative worker type. */
  function WellKnownAcl(id: ComponentId, workerType: string, ownerAttribute: string, servers: seq<string>): WorkerRequirementSet {
    if id == CLIENT_RPC_ENDPOINT_COMPONENT_ID || id == HEARTBEAT_COMPONENT_ID then [[ownerAttribute]]
    else if id == DEBUG_METRICS_COMPONENT_ID then ServerSets(servers)
    else [[workerType]]
  }

  /** The valid schema component ids of the class and of its subobjects that the actor has. */
  function SchemaIds(info: SchemaComponents, subobjects: seq<Subobject>): set<ComponentId> {
    (set id | id in info.ValidIds()) + SubobjectIds(subobjects)
  }

  function SubobjectIds(subobjects: seq<Subobject>): set<ComponentId> {
    if subobjects == [] then {}
    else
      var s := subobjects[|subobjects| - 1];
      SubobjectIds(subobjects[..|subobjects| - 1]) + (if s.present then set id | id in s.components.ValidIds() else {})
  }

  /**
   * Adds the valid ids of one schema component table with requirement
   * `auth`, type by type; a later write replaces an earlier one, as
   * TMap::Add does.
   */
  method AddSchemaComponents(acl0: map<ComponentId, WorkerRequirementSet>, components: SchemaComponents, auth: WorkerRequirementSet)
    returns (acl: map<ComponentId, WorkerRequirementSet>)
    ensures forall id :: id in acl <==> id in acl0 || id in components.ValidIds()
    ensures forall id :: id in components.ValidIds() ==> acl[id] == auth
    ensures forall id :: id in acl0 && id !in components.ValidIds() ==> acl[id] == acl0[id]
  {
    acl := acl0;
    var i := 0;
    while i < |SCHEMA_TYPES|
      invariant 0 <= i <= |SCHEMA_TYPES|
      invariant forall id :: id in acl <==> id in acl0 || (id != INVALID_COMPONENT_ID && exists j :: 0 <= j < i && components.Get(SCHEMA_TYPES[j]) == id)
      invariant forall j :: 0 <= j < i && components.Get(SCHEMA_TYPES[j]) != INVALID_COMPONENT_ID ==> acl[components.Get(SCHEMA_TYPES[j])] == auth
      invariant forall id :: id in acl0 && !(id != INVALID_COMPONENT_ID && exists j :: 0 <= j < i && components.Get(SCHEMA_TYPES[j]) == id) ==> acl[id] == acl0[id]
    {
      var id := components.Get(SCHEMA_TYPES[i]);
      if id != INVALID_COMPONENT_ID {
        acl := acl[id := auth];
      }
      i := i + 1;
    }
    forall t: SchemaComponentType
      ensures exists j :: 0 <= j < |SCHEMA_TYPES| && components.Get(SCHEMA_TYPES[j]) == components.Get(t)
    {
      match t
      case TypeData => assert SCHEMA_TYPES[0] == t;
      case TypeOwnerOnly => assert SCHEMA_TYPES[1] == t;
      case TypeHandover => assert SCHEMA_TYPES[2] == t;
    }
  }

  /** The requirement sets naming every server worker type, alone and with any client or the owning client. */
  method ServerRequirements(servers: seq<string>, ownerAttribute: string)
    returns (anyServer: WorkerRequirementSet, anyServerOrClient: WorkerRequirementSet, anyServerOrOwningClient: WorkerRequirementSet)
    ensures anyServer == ServerSets(servers)
    ensures anyServerOrClient == [UNREAL_CLIENT_ATTRIBUTE_SET] + ServerSets(servers)
    ensures anyServerOrOwningClient == [[ownerAttribute]] + ServerSets(servers)
  {
    anyServer := [];
    anyServerOrClient := [UNREAL_CLIENT_ATTRIBUTE_SET];
    anyServerOrOwningClient := [[ownerAttribute]];
    var i := 0;
    while i < |servers|
      invariant 0 <= i <= |servers|
      invariant anyServer == ServerSets(servers[..i])
      invariant anyServerOrClient == [UNREAL_CLIENT_ATTRIBUTE_SET] + anyServer
      invariant anyServerOrOwningClient == [[ownerAttribute]] + anyServer
    {
      assert servers[..i + 1][..i] == servers[..i];
      anyServer := anyServer + [[servers[i]]];
      anyServerOrClient := anyServerOrClient + [[servers[i]]];
      anyServerOrOwningClient := anyServerOrOwningClient + [[servers[i]]];
      i := i + 1;
    }
    assert servers[..i] == servers;
  }

  /** The write requirements of the well-known components; `anyServer` names every server worker type. */
  method WellKnownWriteAcl(workerType: string, ownerAttribute: string, anyServer: WorkerRequirementSet,
                           isPlayerController: bool, hasCreationRPCs: bool, shipping: bool)
    returns (writeAcl: map<ComponentId, WorkerRequirementSet>)
    ensures forall id :: id in writeAcl <==> id in WellKnownIds(hasCreationRPCs, isPlayerController, shipping)
    ensures forall servers :: anyServer == ServerSets(servers) ==>
      forall id :: id in writeAcl ==> writeAcl[id] == WellKnownAcl(id, workerType, ownerAttribute, servers)
  {
    var auth: WorkerRequirementSet := [[workerType]];
    var owningClientOnly: WorkerRequirementSet := [[ownerAttribute]];
    writeAcl := map[
      POSITION_COMPONENT_ID := auth, INTEREST_COMPONENT_ID := auth, SPAWN_DATA_COMPONENT_ID := auth,
      ENTITY_ACL_COMPONENT_ID := auth, SERVER_RPC_ENDPOINT_COMPONENT_ID := auth,
      NETMULTICAST_RPCS_COMPONENT_ID := auth, CLIENT_RPC_ENDPOINT_COMPONENT_ID := owningClientOnly];
    if hasCreationRPCs {
      writeAcl := writeAcl[RPCS_ON_ENTITY_CREATION_ID := auth];
    }
    if isPlayerController {
      if !shipping {
        writeAcl := writeAcl[DEBUG_METRICS_COMPONENT_ID := anyServer];
      }
      writeAcl := writeAcl[HEARTBEAT_COMPONENT_ID := owningClientOnly];
    }
  }

  /**
   * The read and write requirements of a new entity. Any server may read
   * it; a client may too unless the class is server-only, and a player
   * controller only by its owning client. The authoritative worker type
   * writes the well-known components and every schema component of the
   * class and of its present subobjects; the owning client writes the
   * client endpoint and a controller's heartbeat, any server a
   * controller's metrics outside shipping builds.
   */
  method CreateEntityAcl(servers: seq<string>, ownerAttribute: string, workerType: string,
                         serverOnly: bool, isPlayerController: bool, hasCreationRPCs: bool, shipping: bool,
                         info: SchemaComponents, subobjects: seq<Subobject>)
    returns (readAcl: WorkerRequirementSet, writeAcl: map<ComponentId, WorkerRequirementSet>)
    ensures forall s :: s in readAcl <==>
      (exists t :: t in servers && s == [t])
      || (!serverOnly && isPlayerController && s == [ownerAttribute])
      || (!serverOnly && !isPlayerController && s == UNREAL_CLIENT_ATTRIBUTE_SET)
    ensures forall id :: id in writeAcl <==> id in WellKnownIds(hasCreationRPCs, isPlayerController, shipping) || id in SchemaIds(info, subobjects)
    ensures forall id :: id in SchemaIds(info, subobjects) ==> writeAcl[id] == [[workerType]]
    ensures forall id :: id in writeAcl && id !in SchemaIds(info, subobjects) ==> writeAcl[id] == WellKnownAcl(id, workerType, ownerAttribute, servers)
  {
    var anyServer, anyServerOrClient, anyServerOrOwningClient := ServerRequirements(servers, ownerAttribute);
    if serverOnly {
      readAcl := anyServer;
    } else if isPlayerController {
      readAcl := anyServerOrOwningClient;
    } else {
      readAcl := anyServerOrClient;
    }

    var auth: WorkerRequirementSet := [[workerType]];
    writeAcl := WellKnownWriteAcl(workerType, ownerAttribute, anyServer, isPlayerController, hasCreationRPCs, shipping);
    writeAcl := AddSchemaComponents(writeAcl, info, auth);
    writeAcl := AddSubobjectComponents(writeAcl, subobjects, auth);
  }

  /** Adds the schema components of every subobject the actor has, with requirement `auth`. */
  method AddSubobjectComponents(acl0: map<ComponentId, WorkerRequirementSet>, subobjects: seq<Subobject>, auth: WorkerRequirementSet)
    returns (acl: map<ComponentId, WorkerRequirementSet>)
    ensures forall id :: id in acl <==> id in acl0 || id in SubobjectIds(subobjects)
    ensures forall id :: id in SubobjectIds(subobjects) ==> acl[id] == auth
    ensures forall id :: id in acl0 && id !in SubobjectIds(subobjects) ==> acl[id] == acl0[id]
  {
    acl := acl0;
    var k := 0;
    while k < |subobjects|
      invariant 0 <= k <= |subobjects|
      invariant forall id :: id in acl <==> id in acl0 || id in SubobjectIds(subobjects[..k])
      invariant forall id :: id in SubobjectIds(subobjects[..k]) ==> acl[id] == auth
      invariant forall id :: id in acl0 && id !in SubobjectIds(subobjects[..k]) ==> acl[id] == acl0[id]
    {
      ghost var before := SubobjectIds(subobjects[..k]);
      assert subobjects[..k + 1][..k] == subobjects[..k];
      if subobjects[k].present {
        acl := AddSchemaComponents(acl, subobjects[k].components, auth);
        assert SubobjectIds(subobjects[..k + 1]) == before + set id | id in subobjects[k].components.ValidIds();
      } else {
        assert SubobjectIds(subobjects[..k + 1]) == before;
      }
      k := k + 1;
    }
    assert subobjects[..k] == subobjects;
  }

  // ---------------------------------------------------------------------
  // Applying a change list to one index.

  /**
   * For each handle of the change list (0 excepted in a replicated list),
   * forgets its held-back update and, when the new encoding left objects
   * unresolved, holds it back again on exactly those objects.
   */
  method ApplyChanges(index: UnresolvedIndex, p: Pair, handles: seq<Handle>, skipZero: bool, unresolved: map<Handle, set<ObjectId>>)
    requires index.Valid() && p !in index.dead
    modifies index
    ensures index.Valid() && index.dead == old(index.dead)
    ensures forall p', h' :: index.IsPending(p', h') <==>
      if p' == p && h' in Touched(handles, skipZero) then h' in unresolved else old(index.IsPending(p', h'))
    ensures forall p', h' :: index.IsPending(p', h') ==>
      index.Waiting(p', h') == if p' == p && h' in Touched(handles, skipZero) then unresolved[h'] else old(index.Waiting(p', h'))
  {
    var i := 0;
    ghost var touched: set<Handle> := {};
    while i < |handles|
      invariant 0 <= i <= |handles|
      invariant touched == Touched(handles[..i], skipZero)
      invariant index.Valid() && index.dead == old(index.dead)
      invariant forall p', h' :: index.IsPending(p', h') <==>
        if p' == p && h' in touched then h' in unresolved else old(index.IsPending(p', h'))
      invariant forall p', h' :: index.IsPending(p', h') ==>
        index.Waiting(p', h') == if p' == p && h' in touched then unresolved[h'] else old(index.Waiting(p', h'))
    {
      var h := handles[i];
      assert Touched(handles[..i + 1], skipZero) == touched + (if h > 0 || !skipZero then {h} else {}) by {
        assert handles[..i + 1] == handles[..i] + [h];
      }
      if h > 0 || !skipZero {
        ApplyChange(index, p, h, unresolved);
        touched := touched + {h};
      }
      i := i + 1;
    }
    assert handles[..i] == handles;
  }

  /** One handle of ApplyChanges: forget its held-back update, then hold it back again if it is still unresolved. */
  method ApplyChange(index: UnresolvedIndex, p: Pair, h: Handle, unresolved: map<Handle, set<ObjectId>>)
    requires index.Valid() && p !in index.dead
    modifies index
    ensures index.Valid() && index.dead == old(index.dead)
    ensures forall p', h' :: index.IsPending(p', h') <==>
      if p' == p && h' == h then h in unresolved else old(index.IsPending(p', h'))
    ensures forall p', h' :: index.IsPending(p', h') ==>
      index.Waiting(p', h') == if p' == p && h' == h then unresolved[h] else old(index.Waiting(p', h'))
  {
    index.ResetOutgoingUpdate(p, h);
    if h in unresolved {
      index.QueueOutgoingUpdate(p, h, unresolved[h]);
    }
  }

  // ---------------------------------------------------------------------
  // The sender.

  class Sender {
    const rep: UnresolvedIndex
    const handover: UnresolvedIndex
    const connection: Connection
    var updatesQueuedUntilAuthority: map<EntityId, seq<ComponentUpdate>>
    var retryRPCs: seq<RetryRPC>
    var unreliableRPCs: map<EntityId, seq<PendingUnreliableRPC>>
    var unreliableOrder: seq<EntityId>
    var outgoingRPCs: map<ObjectId, seq<PendingRPC>>

    /** Both indices are consistent, replicated handles are never 0, and each controller has one RPC list. */
    ghost predicate Valid()
      reads this, rep, handover
    {
      rep != handover && rep.Valid() && handover.Valid()
      && (forall p, h :: rep.IsPending(p, h) ==> h > 0)
      && KeyOrder(unreliableRPCs, unreliableOrder)
    }

    constructor()
      ensures Valid() && fresh(rep) && fresh(handover) && fresh(connection)
      ensures connection.sent == [] && updatesQueuedUntilAuthority == map[] && retryRPCs == []
      ensures unreliableRPCs == map[] && outgoingRPCs == map[]
    {
      rep := new UnresolvedIndex();
      handover := new UnresolvedIndex();
      connection := new Connection();
      updatesQueuedUntilAuthority := map[];
      retryRPCs := [];
      unreliableRPCs := map[];
      unreliableOrder := [];
      outgoingRPCs := map[];
    }

    /**
     * Sends the updates the component factory built for the object of
     * pair p on `entity`. Each changed replicated handle (0 ends a list and
     * is skipped) and each changed handover handle first forgets its
     * held-back update, then is held back again on the objects its new
     * encoding could not resolve. An update for a component this worker
     * is not authoritative over is queued for the entity; the others are
     * sent, in order.
     */
    method SendComponentUpdates(p: Pair, entity: EntityId, updates: seq<ComponentUpdate>,
                                repChanged: Option<seq<Handle>>, handoverChanged: Option<seq<Handle>>,
                                repUnresolved: map<Handle, set<ObjectId>>, handoverUnresolved: map<Handle, set<ObjectId>>,
                                authoritative: set<ComponentId>)
      requires Valid() && p !in rep.dead && p !in handover.dead
      modifies rep, handover, connection, this`updatesQueuedUntilAuthority
      ensures Valid() && rep.dead == old(rep.dead) && handover.dead == old(handover.dead)
      ensures repChanged.Some? ==> forall p', h' :: rep.IsPending(p', h') <==>
        if p' == p && h' in Touched(repChanged.value, true) then h' in repUnresolved else old(rep.IsPending(p', h'))
      ensures repChanged.Some? ==> forall p', h' :: rep.IsPending(p', h') ==>
        rep.Waiting(p', h') == if p' == p && h' in Touched(repChanged.value, true) then repUnresolved[h'] else old(rep.Waiting(p', h'))
      ensures repChanged.None? ==> rep.Model() == old(rep.Model())
      ensures handoverChanged.Some? ==> forall p', h' :: handover.IsPending(p', h') <==>
        if p' == p && h' in Touched(handoverChanged.value, false) then h' in handoverUnresolved else old(handover.IsPending(p', h'))
      ensures handoverChanged.Some? ==> forall p', h' :: handover.IsPending(p', h') ==>
        handover.Waiting(p', h') == if p' == p && h' in Touched(handoverChanged.value, false) then handoverUnresolved[h'] else old(handover.Waiting(p', h'))
      ensures handoverChanged.None? ==> handover.Model() == old(handover.Model())
      ensures connection.sent == old(connection.sent) + UpdateMessages(entity, Select(updates, authoritative, true))
      ensures updatesQueuedUntilAuthority == Withhold(old(updatesQueuedUntilAuthority), entity, Select(updates, authoritative, false))
    {
      if repChanged.Some? {
        ApplyChanges(rep, p, repChanged.value, true, repUnresolved);
      }
      if handoverChanged.Some? {
        ApplyChanges(handover, p, handoverChanged.value, false, handoverUnresolved);
      }
      var sent, queued := DispatchUpdates(entity, updates, authoritative, connection.sent, updatesQueuedUntilAuthority);
      connection.sent := sent;
      updatesQueuedUntilAuthority := queued;
    }

    /** The loop over the built updates: send with authority, queue without. */
    static method DispatchUpdates(entity: EntityId, updates: seq<ComponentUpdate>, authoritative: set<ComponentId>,
                                  sent0: seq<Message>, queued0: map<EntityId, seq<ComponentUpdate>>)
      returns (sent: seq<Message>, queued: map<EntityId, seq<ComponentUpdate>>)
      ensures sent == sent0 + UpdateMessages(entity, Select(updates, authoritative, true))
      ensures queued == Withhold(queued0, entity, Select(updates, authoritative, false))
    {
      sent, queued := sent0, queued0;
      var i := 0;
      while i < |updates|
        invariant 0 <= i <= |updates|
        invariant sent == sent0 + UpdateMessages(entity, Select(updates[..i], authoritative, true))
        invariant queued == Withhold(queued0, entity, Select(updates[..i], authoritative, false))
      {
        var u := updates[i];
        if UpdateComponentId(u) in authoritative {
          SendStep(entity, updates, i, authoritative, sent0, sent);
          sent := sent + [UpdateMessage(entity, u)];
        } else {
          WithholdStep(entity, updates, i, authoritative, queued0, queued);
          queued := queued[entity := Queued(queued, entity) + [u]];
        }
        i := i + 1;
      }
      assert updates[..i] == updates;
    }

    /** Sends the updates queued for `entity`, in the order they were queued, and forgets them. */
    method ProcessUpdatesQueuedUntilAuthority(entity: EntityId)
      modifies connection, this`updatesQueuedUntilAuthority
      ensures connection.sent == old(connection.sent) + UpdateMessages(entity, Queued(old(updatesQueuedUntilAuthority), entity))
      ensures updatesQueuedUntilAuthority == old(updatesQueuedUntilAuthority) - {entity}
    {
      if entity in updatesQueuedUntilAuthority {
        var us := updatesQueuedUntilAuthority[entity];
        var i := 0;
        while i < |us|
          invariant 0 <= i <= |us|
          invariant connection.sent == old(connection.sent) + UpdateMessages(entity, us[..i])
          modifies connection
        {
          assert us[..i + 1][..i] == us[..i];
          connection.sent := connection.sent + [UpdateMessage(entity, us[i])];
          i := i + 1;
        }
        assert us[..i] == us;
        updatesQueuedUntilAuthority := updatesQueuedUntilAuthority - {entity};
      }
    }

    /**
     * Resolves object o in the replicated or the handover index and
     * re-sends, per live pair, the handles whose updates no longer wait for
     * anything: a replicated list marks dynamic arrays with two zero
     * handles and ends with a zero.
     */
    method ResolveOutgoingOperations(o: ObjectId, isHandover: bool, live: set<Pair>, isDynamicArray: (Pair, Handle) -> bool)
      returns (resends: seq<Resend>)
      requires Valid()
      modifies rep, handover, connection
      ensures Valid()
      ensures isHandover ==> ResolvedFrom(old(handover.Model()), handover.Model(), o, live) && rep.Model() == old(rep.Model())
      ensures isHandover ==> ResendsFor(old(handover.Model()), o, live, ReachedPairs(old(handover.Model()), o), resends)
      ensures !isHandover ==> ResolvedFrom(old(rep.Model()), rep.Model(), o, live) && handover.Model() == old(handover.Model())
      ensures !isHandover ==> ResendsFor(old(rep.Model()), o, live, ReachedPairs(old(rep.Model()), o), resends)
      ensures !isHandover ==> forall k, h :: 0 <= k < |resends| && h in resends[k].handles ==> h > 0
      ensures connection.sent == old(connection.sent) + ResendMessages(resends, isHandover, isDynamicArray)
    {
      if isHandover {
        resends := handover.ResolveOutgoingOperations(o, live);
      } else {
        ghost var x := rep.Model();
        assert Backward(x);
        assert forall p, h :: Has(x.prop, p, h) ==> h > 0 by {
          assert forall p, h :: Has(x.prop, p, h) ==> rep.IsPending(p, h);
        }
        resends := rep.ResolveOutgoingOperations(o, live);
        ResolvedHandlesPositive(x, o, live, resends);
      }
      SendResends(resends, isHandover, isDynamicArray);
    }

    /** Sends one re-send per resolved pair, in order. */
    method SendResends(resends: seq<Resend>, isHandover: bool, isDynamicArray: (Pair, Handle) -> bool)
      modifies connection
      ensures connection.sent == old(connection.sent) + ResendMessages(resends, isHandover, isDynamicArray)
    {
      var i := 0;
      while i < |resends|
        invariant 0 <= i <= |resends|
        invariant connection.sent == old(connection.sent) + ResendMessages(resends[..i], isHandover, isDynamicArray)
      {
        assert resends[..i + 1][..i] == resends[..i];
        var handles := resends[i].handles;
        if !isHandover {
          handles := BuildRepChangeList(resends[i].pair, resends[i].handles, isDynamicArray);
        }
        connection.sent := connection.sent + [ComponentsResent(resends[i].pair, isHandover, handles)];
        i := i + 1;
      }
      assert resends[..i] == resends;
    }

    /** Builds the replicated change list of one resolved pair. */
    static method BuildRepChangeList(p: Pair, hs: seq<Handle>, isDynamicArray: (Pair, Handle) -> bool) returns (list: seq<Handle>)
      ensures list == RepChangeList(p, hs, isDynamicArray)
    {
      list := [];
      var i := 0;
      while i < |hs|
        invariant 0 <= i <= |hs|
        invariant list == ExpandArrays(p, hs[..i], isDynamicArray)
      {
        assert hs[..i + 1][..i] == hs[..i];
        list := list + [hs[i]];
        if isDynamicArray(p, hs[i]) {
          list := list + [0, 0];
        }
        i := i + 1;
      }
      assert hs[..i] == hs;
      list := list + [0];
    }

    /** Adds a timed-out reliable RPC to the retry list. */
    method EnqueueRetryRPC(rpc: RetryRPC)
      modifies this`retryRPCs
      ensures retryRPCs == old(retryRPCs) + [rpc]
    {
      retryRPCs := retryRPCs + [rpc];
    }

    /**
     * Retries one reliable RPC: it is dropped when its target is gone or
     * has no resolved reference; otherwise its command is sent to the
     * target's entity and its attempt count goes up by one.
     */
    method RetryReliableRPC(rpc: RetryRPC, alive: set<ObjectId>, refOf: ObjectId -> ObjectRef)
      modifies connection, rpc
      ensures connection.sent == old(connection.sent) + RetryMessages([rpc], alive, refOf)
      ensures rpc.attempts == old(rpc.attempts) + (if Retries(rpc, alive, refOf) then 1 else 0)
    {
      assert [rpc][..0] == [];
      if rpc.target !in alive {
        return;
      }
      var ref := refOf(rpc.target);
      if ref == UnresolvedRef {
        return;
      }
      connection.sent := connection.sent + [RetryCommand(RefEntity(ref), RefOffset(ref), rpc)];
      rpc.attempts := rpc.attempts + 1;
    }

    /**
     * Retries every RPC of the list in ascending RetryIndex order and
     * empties the list. An RPC listed n times is retried n times.
     */
    method FlushRetryRPCs(alive: set<ObjectId>, refOf: ObjectId -> ObjectRef)
      modifies connection, this`retryRPCs, set r | r in retryRPCs
      ensures retryRPCs == []
      ensures connection.sent == old(connection.sent) + RetryMessages(SortByRetryIndex(old(retryRPCs)), alive, refOf)
      ensures forall r :: r in old(retryRPCs) ==>
        r.attempts == old(r.attempts) + (if Retries(r, alive, refOf) then multiset(old(retryRPCs))[r] else 0)
    {
      var sorted := SortByRetryIndex(retryRPCs);
      assert forall r :: r in sorted <==> r in retryRPCs by {
        assert forall r :: r in sorted <==> r in multiset(sorted);
      }
      RetryInOrder(sorted, alive, refOf);
      retryRPCs := [];
    }

    /** Retries the listed RPCs one after the other. */
    method RetryInOrder(rs: seq<RetryRPC>, alive: set<ObjectId>, refOf: ObjectId -> ObjectRef)
      modifies connection, set r | r in rs
      ensures connection.sent == old(connection.sent) + RetryMessages(rs, alive, refOf)
      ensures forall r :: r in rs ==>
        r.attempts == old(r.attempts) + (if Retries(r, alive, refOf) then multiset(rs)[r] else 0)
    {
      var i := 0;
      while i < |rs|
        invariant 0 <= i <= |rs|
        invariant connection.sent == old(connection.sent) + RetryMessages(rs[..i], alive, refOf)
        invariant forall r :: r in rs ==>
          r.attempts == old(r.attempts) + (if Retries(r, alive, refOf) then multiset(rs[..i])[r] else 0)
      {
        var x := rs[i];
        assert rs[..i + 1] == rs[..i] + [x];
        assert multiset(rs[..i + 1]) == multiset(rs[..i]) + multiset{x};
        RetryReliableRPC(x, alive, refOf);
        assert RetryMessages(rs[..i + 1], alive, refOf) == RetryMessages(rs[..i], alive, refOf) + RetryMessages([x], alive, refOf) by {
          assert rs[..i + 1][..i] == rs[..i];
          assert [x][..0] == [];
        }
        i := i + 1;
      }
      assert rs[..i] == rs;
    }

    /**
     * Packs an unreliable RPC on `target` for the player controller that
     * owns the target's connection. It reports the object to wait for when
     * the target, the controller or an object in the parameters has no
     * resolved reference yet, and drops the RPC, reporting nothing, when
     * the target has no connection or the connection's owner is not a
     * player controller.
     */
    method AddPendingUnreliableRPC(target: ObjectId, rpcIndex: FieldId, payload: SerializedRPC,
                                   refOf: ObjectId -> ObjectRef, ownerOf: EntityId -> ConnectionOwner, alive: set<ObjectId>)
      returns (unresolvedObject: Option<ObjectId>)
      requires KeyOrder(unreliableRPCs, unreliableOrder)
      modifies this`unreliableRPCs, this`unreliableOrder
      ensures KeyOrder(unreliableRPCs, unreliableOrder)
      ensures refOf(target) == UnresolvedRef ==> unresolvedObject == Some(target)
      ensures refOf(target) != UnresolvedRef && !ownerOf(RefEntity(refOf(target))).Controller? ==> unresolvedObject.None?
      ensures refOf(target) != UnresolvedRef && ownerOf(RefEntity(refOf(target))).Controller? ==>
        var controller := ownerOf(RefEntity(refOf(target))).obj;
        if refOf(controller) == UnresolvedRef then unresolvedObject == Some(controller)
        else unresolvedObject == FirstAlive(payload.unresolved, alive)
      ensures unresolvedObject.None? && refOf(target) != UnresolvedRef && ownerOf(RefEntity(refOf(target))).Controller? ==>
        var e := RefEntity(refOf(ownerOf(RefEntity(refOf(target))).obj));
        var rpc := PendingUnreliableRPC(RefOffset(refOf(target)), rpcIndex, payload.data, RefEntity(refOf(target)));
        unreliableRPCs == AddUnreliable(old(unreliableRPCs), e, rpc)
        && unreliableOrder == AddUnreliableOrder(old(unreliableRPCs), old(unreliableOrder), e)
      ensures !(unresolvedObject.None? && refOf(target) != UnresolvedRef && ownerOf(RefEntity(refOf(target))).Controller?) ==>
        unreliableRPCs == old(unreliableRPCs) && unreliableOrder == old(unreliableOrder)
    {
      var targetRef := refOf(target);
      if targetRef == UnresolvedRef {
        return Some(target);
      }
      var owner := ownerOf(RefEntity(targetRef));
      if !owner.Controller? {
        return None;
      }
      var controllerRef := refOf(owner.obj);
      if controllerRef == UnresolvedRef {
        return Some(owner.obj);
      }
      unresolvedObject := FirstAlive(payload.unresolved, alive);
      if unresolvedObject.Some? {
        return;
      }
      var rpc := PendingUnreliableRPC(RefOffset(targetRef), rpcIndex, payload.data, RefEntity(targetRef));
      var e := RefEntity(controllerRef);
      AddUnreliableKeepsOrder(unreliableRPCs, unreliableOrder, e, rpc);
      unreliableOrder := AddUnreliableOrder(unreliableRPCs, unreliableOrder, e);
      unreliableRPCs := AddUnreliable(unreliableRPCs, e, rpc);
    }

    /**
     * Sends one endpoint update per controller entity with packed RPCs,
     * holding its RPCs in the order they were added, then forgets them all.
     * Nothing is sent when nothing is packed.
     */
    method FlushPackedUnreliableRPCs(isServer: bool)
      requires KeyOrder(unreliableRPCs, unreliableOrder)
      modifies connection, this`unreliableRPCs, this`unreliableOrder
      ensures KeyOrder(unreliableRPCs, unreliableOrder) && unreliableRPCs == map[]
      ensures connection.sent == old(connection.sent) + PackedMessages(old(unreliableOrder), old(unreliableRPCs), PackedComponent(isServer))
      ensures old(unreliableRPCs) == map[] ==> connection.sent == old(connection.sent)
    {
      if |unreliableRPCs| == 0 {
        return;
      }
      var componentId := PackedComponent(isServer);
      var i := 0;
      while i < |unreliableOrder|
        invariant 0 <= i <= |unreliableOrder|
        invariant connection.sent == old(connection.sent) + PackedMessages(unreliableOrder[..i], unreliableRPCs, componentId)
        modifies connection
      {
        assert unreliableOrder[..i + 1][..i] == unreliableOrder[..i];
        var e := unreliableOrder[i];
        connection.sent := connection.sent + [PackedRPCsMessage(e, componentId, unreliableRPCs[e])];
        i := i + 1;
      }
      assert unreliableOrder[..i] == unreliableOrder;
      unreliableRPCs := map[];
      unreliableOrder := [];
    }

    /** Holds an RPC until object o has an entity, after those already waiting on it. */
    method QueueOutgoingRPC(o: ObjectId, params: PendingRPC)
      modifies this`outgoingRPCs
      ensures outgoingRPCs == old(outgoingRPCs)[o := RPCsFor(old(outgoingRPCs), o) + [params]]
    {
      outgoingRPCs := outgoingRPCs[o := RPCsFor(outgoingRPCs, o) + [params]];
    }

    /** Sends the RPCs that waited for o whose target still exists, in the order queued, and forgets them all. */
    method ResolveOutgoingRPCs(o: ObjectId, alive: set<ObjectId>)
      modifies connection, this`outgoingRPCs
      ensures connection.sent == old(connection.sent) + ResentRPCs(RPCsFor(old(outgoingRPCs), o), alive)
      ensures outgoingRPCs == old(outgoingRPCs) - {o}
    {
      if o in outgoingRPCs {
        var rs := outgoingRPCs[o];
        var i := 0;
        while i < |rs|
          invariant 0 <= i <= |rs|
          invariant connection.sent == old(connection.sent) + ResentRPCs(rs[..i], alive)
          modifies connection
        {
          assert rs[..i + 1][..i] == rs[..i];
          if rs[i].target in alive {
            connection.sent := connection.sent + [RPCResent(rs[i])];
          }
          i := i + 1;
        }
        assert rs[..i] == rs;
        outgoingRPCs := outgoingRPCs - {o};
      }
    }
  }
}
