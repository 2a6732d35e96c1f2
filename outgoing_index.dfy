/**
 * The sender's index of property updates held back because they refer to
 * objects that have no entity yet.
 *
 * Each pending (channel, object) pair and property handle owns one shared
 * waiting set of objects. The property index maps pair -> handle -> set; the
 * reverse index maps object -> pair -> handle -> the same set. Shared sets
 * live in an arena (`entries`) and both indices hold arena ids, so removing
 * a resolved object from a set is seen through both indices, as with the
 * source's shared pointers. One instance is kept for replicated properties
 * and one for handover properties.
 *
 * Pairs whose channel or object has been destroyed are recorded in the
 * ghost set `dead`: resolution skips them, so the reverse index is only kept
 * complete for live pairs.
 */
module OutgoingIndex {
  import opened Constants

  type ChannelId = nat
  type Handle = nat
  type EntryId = nat

  /** A dependent actor channel and the object replicated through it. */
  datatype Pair = Pair(channel: ChannelId, obj: ObjectId)

  type HandleMap = map<Handle, EntryId>
  type PairMap = map<Pair, HandleMap>
  type ObjectMap = map<ObjectId, PairMap>

  // ---------------------------------------------------------------------
  // Nested-map helpers.

  predicate Has(m: PairMap, p: Pair, h: Handle) {
    p in m && h in m[p]
  }

  predicate Has3(m: ObjectMap, o: ObjectId, p: Pair, h: Handle) {
    o in m && Has(m[o], p, h)
  }

  /** No pair is kept with an empty handle map. */
  predicate Pruned(m: PairMap) {
    forall p :: p in m ==> m[p] != map[]
  }

  predicate ReversePruned(m: ObjectMap) {
    forall o :: o in m ==> m[o] != map[] && Pruned(m[o])
  }

  /** FindOrAdd(p).Add(h, e). */
  function Put(m: PairMap, p: Pair, h: Handle, e: EntryId): (r: PairMap)
    ensures forall p', h' :: Has(r, p', h') <==> Has(m, p', h') || (p' == p && h' == h)
    ensures Has(r, p, h) && r[p][h] == e
    ensures forall p', h' :: Has(m, p', h') && !(p' == p && h' == h) ==> Has(r, p', h') && r[p'][h'] == m[p'][h']
    ensures Pruned(m) ==> Pruned(r)
  {
    var inner := (if p in m then m[p] else map[])[h := e];
    assert h in inner;
    m[p := inner]
  }

  /** Removes h under p and drops p once its handle map is empty. */
  function Drop(m: PairMap, p: Pair, h: Handle): (r: PairMap)
    ensures forall p', h' :: Has(r, p', h') <==> Has(m, p', h') && !(p' == p && h' == h)
    ensures forall p', h' :: Has(r, p', h') ==> Has(m, p', h') && r[p'][h'] == m[p'][h']
    ensures Pruned(m) ==> Pruned(r)
  {
    if p !in m then m
    else
      var inner := m[p] - {h};
      assert forall h' :: h' in inner <==> h' in m[p] && h' != h;
      if inner == map[] then m - {p} else m[p := inner]
  }

  function PutReverse(m: ObjectMap, o: ObjectId, p: Pair, h: Handle, e: EntryId): (r: ObjectMap)
    ensures forall o', p', h' :: Has3(r, o', p', h') <==> Has3(m, o', p', h') || (o' == o && p' == p && h' == h)
    ensures Has3(r, o, p, h) && r[o][p][h] == e
    ensures forall o', p', h' :: Has3(m, o', p', h') && !(o' == o && p' == p && h' == h) ==> Has3(r, o', p', h') && r[o'][p'][h'] == m[o'][p'][h']
    ensures ReversePruned(m) ==> ReversePruned(r)
  {
    m[o := Put(if o in m then m[o] else map[], p, h, e)]
  }

  /** Removes h under o and p, pruning the emptied maps on the way out. */
  function DropReverse(m: ObjectMap, o: ObjectId, p: Pair, h: Handle): (r: ObjectMap)
    ensures forall o', p', h' :: Has3(r, o', p', h') <==> Has3(m, o', p', h') && !(o' == o && p' == p && h' == h)
    ensures forall o', p', h' :: Has3(r, o', p', h') ==> Has3(m, o', p', h') && r[o'][p'][h'] == m[o'][p'][h']
    ensures ReversePruned(m) ==> ReversePruned(r)
  {
    if o !in m then m
    else
      var inner := Drop(m[o], p, h);
      if inner == map[] then m - {o} else m[o := inner]
  }

  // ---------------------------------------------------------------------
  // The index as a value, and its consistency invariant.

  datatype Slot = Slot(pair: Pair, handle: Handle)

  /** A snapshot of the index; `owner` and `dead` are bookkeeping of the model. */
  datatype Index = Index(
    entries: map<EntryId, set<ObjectId>>,
    prop: PairMap,
    obj: ObjectMap,
    owner: map<EntryId, Slot>,
    dead: set<Pair>,
    next: EntryId)

  /** The objects the update of handle h on pair p waits for; empty when none is pending. */
  function WaitingOf(x: Index, p: Pair, h: Handle): set<ObjectId> {
    if Has(x.prop, p, h) && x.prop[p][h] in x.entries then x.entries[x.prop[p][h]] else {}
  }

  /** Arena ids are fresh below `next`. */
  ghost predicate Fresh(x: Index) {
    (forall e :: e in x.entries ==> e < x.next)
    && (forall e :: e in x.owner ==> e < x.next)
  }

  /** Each pending (pair, handle) has its own set in the arena. */
  ghost predicate Owned(x: Index) {
    forall p, h :: Has(x.prop, p, h) ==> x.prop[p][h] in x.entries && x.prop[p][h] in x.owner && x.owner[x.prop[p][h]] == Slot(p, h)
  }

  /** Every object in a live pair's set has a reverse entry for that (pair, handle) naming the same set. */
  ghost predicate Forward(x: Index) {
    forall p, h, o :: Has(x.prop, p, h) && p !in x.dead && o in WaitingOf(x, p, h) ==>
      Has3(x.obj, o, p, h) && x.obj[o][p][h] == x.prop[p][h]
  }

  /** Every reverse entry names the set of the property index that contains its object. */
  ghost predicate Backward(x: Index) {
    forall o, p, h :: Has3(x.obj, o, p, h) ==>
      Has(x.prop, p, h) && x.obj[o][p][h] == x.prop[p][h] && o in WaitingOf(x, p, h)
  }

  /** Both indices are pruned and the four conditions above hold. */
  ghost predicate IndexValid(x: Index) {
    Pruned(x.prop) && ReversePruned(x.obj) && Fresh(x) && Owned(x) && Forward(x) && Backward(x)
  }

  function EmptyIndex(): (x: Index)
    ensures IndexValid(x)
  {
    Index(map[], map[], map[], map[], {}, 0)
  }


  // ---------------------------------------------------------------------
  // Queue.

  /** y is x after queuing `objs` as the waiting set of handle h on pair p. */
  ghost predicate QueuedFrom(x: Index, y: Index, p: Pair, h: Handle, objs: set<ObjectId>) {
    y.entries == x.entries[x.next := objs]
    && y.owner == x.owner[x.next := Slot(p, h)]
    && y.next == x.next + 1
    && y.dead == x.dead
    && y.prop == Put(x.prop, p, h, x.next)
    && (forall o, p', h' :: Has3(y.obj, o, p', h') <==> Has3(x.obj, o, p', h') || (o in objs && p' == p && h' == h))
    && (forall o, p', h' :: Has3(y.obj, o, p', h') ==> y.obj[o][p'][h'] == if p' == p && h' == h then x.next else x.obj[o][p'][h'])
    && ReversePruned(y.obj)
  }

  /** x with the new set of (p, h) registered, before the reverse index is touched. */
  ghost function Registered(x: Index, p: Pair, h: Handle, objs: set<ObjectId>): Index {
    x.(entries := x.entries[x.next := objs], owner := x.owner[x.next := Slot(p, h)], next := x.next + 1,
       prop := Put(x.prop, p, h, x.next))
  }

  /** Queue loop state: the objects of `objs` not in `rest` have their reverse entry for (p, h). */
  ghost predicate Queuing(x: Index, p: Pair, h: Handle, objs: set<ObjectId>, rest: set<ObjectId>, obj: ObjectMap) {
    rest <= objs && ReversePruned(obj)
    && (forall o, p', h' :: Has3(obj, o, p', h') <==> Has3(x.obj, o, p', h') || (o in objs && o !in rest && p' == p && h' == h))
    && (forall o, p', h' :: Has3(obj, o, p', h') ==> obj[o][p'][h'] == if p' == p && h' == h then x.next else x.obj[o][p'][h'])
  }

  lemma QueueStep(x: Index, p: Pair, h: Handle, objs: set<ObjectId>, rest: set<ObjectId>, obj: ObjectMap, o: ObjectId)
    requires Backward(x) && !Has(x.prop, p, h)
    requires o in rest && Queuing(x, p, h, objs, rest, obj)
    ensures Queuing(x, p, h, objs, rest - {o}, PutReverse(obj, o, p, h, x.next))
  {
    // No reverse entry for this handle exists yet.
    assert !Has3(obj, o, p, h);
  }

  lemma QueueDone(x: Index, p: Pair, h: Handle, objs: set<ObjectId>, obj: ObjectMap)
    requires Queuing(x, p, h, objs, {}, obj)
    ensures QueuedFrom(x, Registered(x, p, h, objs).(obj := obj), p, h, objs)
  {
  }

  /** The arena slot handed out by a queue is new, so every older set keeps its contents. */
  lemma QueueKeepsWaiting(x: Index, y: Index, p: Pair, h: Handle, objs: set<ObjectId>)
    requires Fresh(x) && Owned(x) && !Has(x.prop, p, h) && QueuedFrom(x, y, p, h, objs)
    ensures WaitingOf(y, p, h) == objs
    ensures forall p', h' :: Has(y.prop, p', h') <==> Has(x.prop, p', h') || (p' == p && h' == h)
    ensures forall p', h' :: Has(x.prop, p', h') ==> WaitingOf(y, p', h') == WaitingOf(x, p', h')
    ensures Owned(y)
  {
    forall p', h' | Has(x.prop, p', h') ensures WaitingOf(y, p', h') == WaitingOf(x, p', h') {
      assert x.prop[p'][h'] != x.next;
    }
    forall p', h' | Has(y.prop, p', h')
      ensures y.prop[p'][h'] in y.entries && y.prop[p'][h'] in y.owner && y.owner[y.prop[p'][h']] == Slot(p', h')
    {
      if !(p' == p && h' == h) {
        assert x.prop[p'][h'] != x.next;
      }
    }
  }

  lemma QueueKeepsForward(x: Index, y: Index, p: Pair, h: Handle, objs: set<ObjectId>)
    requires Forward(x) && QueuedFrom(x, y, p, h, objs)
    requires forall p', h' :: Has(x.prop, p', h') ==> WaitingOf(y, p', h') == WaitingOf(x, p', h')
    requires WaitingOf(y, p, h) == objs
    ensures Forward(y)
  {
    forall p', h', o | Has(y.prop, p', h') && p' !in y.dead && o in WaitingOf(y, p', h')
      ensures Has3(y.obj, o, p', h') && y.obj[o][p'][h'] == y.prop[p'][h']
    {
      if !(p' == p && h' == h) {
        assert WaitingOf(y, p', h') == WaitingOf(x, p', h');
      }
    }
  }

  lemma QueueKeepsBackward(x: Index, y: Index, p: Pair, h: Handle, objs: set<ObjectId>)
    requires Backward(x) && QueuedFrom(x, y, p, h, objs)
    requires forall p', h' :: Has(x.prop, p', h') ==> WaitingOf(y, p', h') == WaitingOf(x, p', h')
    requires WaitingOf(y, p, h) == objs
    ensures Backward(y)
  {
    forall o, p', h' | Has3(y.obj, o, p', h')
      ensures Has(y.prop, p', h') && y.obj[o][p'][h'] == y.prop[p'][h'] && o in WaitingOf(y, p', h')
    {
      if !(p' == p && h' == h) {
        assert Has3(x.obj, o, p', h');
        assert WaitingOf(y, p', h') == WaitingOf(x, p', h');
      }
    }
  }

  /** Queuing keeps the index consistent, makes (p, h) wait on exactly `objs` and leaves every other set alone. */
  lemma QueuePreservesValid(x: Index, y: Index, p: Pair, h: Handle, objs: set<ObjectId>)
    requires IndexValid(x) && p !in x.dead && !Has(x.prop, p, h)
    requires QueuedFrom(x, y, p, h, objs)
    ensures IndexValid(y)
    ensures WaitingOf(y, p, h) == objs
    ensures forall p', h' :: Has(y.prop, p', h') <==> Has(x.prop, p', h') || (p' == p && h' == h)
    ensures forall p', h' :: Has(x.prop, p', h') ==> WaitingOf(y, p', h') == WaitingOf(x, p', h')
  {
    QueueKeepsWaiting(x, y, p, h, objs);
    QueueKeepsForward(x, y, p, h, objs);
    QueueKeepsBackward(x, y, p, h, objs);
  }
  // ---------------------------------------------------------------------
  // Reset.

  /** y is x after the pending update of handle h on pair p is forgotten. */
  ghost predicate ResetFrom(x: Index, y: Index, p: Pair, h: Handle) {
    y.entries == x.entries && y.owner == x.owner && y.next == x.next && y.dead == x.dead
    && y.prop == Drop(x.prop, p, h)
    && (forall o, p', h' :: Has3(y.obj, o, p', h') <==> Has3(x.obj, o, p', h') && !(p' == p && h' == h))
    && (forall o, p', h' :: Has3(y.obj, o, p', h') ==> y.obj[o][p'][h'] == x.obj[o][p'][h'])
    && ReversePruned(y.obj)
  }

  /** A reset leaves the waiting set of every handle still pending as it was. */
  lemma ResetKeepsWaiting(x: Index, y: Index, p: Pair, h: Handle)
    requires ResetFrom(x, y, p, h)
    ensures forall p', h' :: Has(y.prop, p', h') ==> WaitingOf(y, p', h') == WaitingOf(x, p', h')
  {
    forall p', h' | Has(y.prop, p', h') ensures WaitingOf(y, p', h') == WaitingOf(x, p', h') {
      assert Has(x.prop, p', h') && y.prop[p'][h'] == x.prop[p'][h'];
    }
  }

  lemma ResetKeepsForward(x: Index, y: Index, p: Pair, h: Handle)
    requires Forward(x) && ResetFrom(x, y, p, h)
    ensures Forward(y)
  {
    ResetKeepsWaiting(x, y, p, h);
    forall p', h', o | Has(y.prop, p', h') && p' !in y.dead && o in WaitingOf(y, p', h')
      ensures Has3(y.obj, o, p', h') && y.obj[o][p'][h'] == y.prop[p'][h']
    {
      assert Has3(x.obj, o, p', h');
    }
  }

  lemma ResetKeepsBackward(x: Index, y: Index, p: Pair, h: Handle)
    requires Backward(x) && ResetFrom(x, y, p, h)
    ensures Backward(y)
  {
    ResetKeepsWaiting(x, y, p, h);
    forall o, p', h' | Has3(y.obj, o, p', h')
      ensures Has(y.prop, p', h') && y.obj[o][p'][h'] == y.prop[p'][h'] && o in WaitingOf(y, p', h')
    {
      assert Has3(x.obj, o, p', h');
    }
  }

  /** Resetting keeps the index consistent and leaves every other pending set alone. */
  lemma ResetPreservesValid(x: Index, y: Index, p: Pair, h: Handle)
    requires IndexValid(x)
    requires ResetFrom(x, y, p, h)
    ensures IndexValid(y)
    ensures forall p', h' :: Has(y.prop, p', h') <==> Has(x.prop, p', h') && !(p' == p && h' == h)
    ensures forall p', h' :: Has(y.prop, p', h') ==> WaitingOf(y, p', h') == WaitingOf(x, p', h')
  {
    ResetKeepsWaiting(x, y, p, h);
    ResetKeepsForward(x, y, p, h);
    ResetKeepsBackward(x, y, p, h);
  }

  /**
   * Loop state of a reset: the reverse entries of (p, h) for the objects of
   * `waiting` no longer in `rest` are gone, nothing else changed.
   */
  ghost predicate Resetting(x: Index, p: Pair, h: Handle, waiting: set<ObjectId>, rest: set<ObjectId>, obj: ObjectMap) {
    rest <= waiting && ReversePruned(obj)
    && (forall o, p', h' :: Has3(obj, o, p', h') <==> Has3(x.obj, o, p', h') && !(o in waiting && o !in rest && p' == p && h' == h))
    && (forall o, p', h' :: Has3(obj, o, p', h') ==> obj[o][p'][h'] == x.obj[o][p'][h'])
  }

  /** One step of the reset loop: the reverse entry it removes exists (the lookup is checked). */
  lemma ResetStep(x: Index, p: Pair, h: Handle, rest: set<ObjectId>, obj: ObjectMap, o: ObjectId)
    requires Forward(x) && p !in x.dead
    requires Resetting(x, p, h, WaitingOf(x, p, h), rest, obj) && o in rest
    ensures Has3(obj, o, p, h)
    ensures Resetting(x, p, h, WaitingOf(x, p, h), rest - {o}, DropReverse(obj, o, p, h))
  {
    assert Has3(x.obj, o, p, h);
  }

  /** When the loop ends every reverse entry of (p, h) is gone, which with the property entry dropped is a reset. */
  lemma ResetDone(x: Index, p: Pair, h: Handle, obj: ObjectMap)
    requires Backward(x)
    requires Resetting(x, p, h, WaitingOf(x, p, h), {}, obj)
    ensures ResetFrom(x, x.(prop := Drop(x.prop, p, h), obj := obj), p, h)
  {
    forall o | Has3(x.obj, o, p, h) ensures o in WaitingOf(x, p, h) {
    }
  }

  // ---------------------------------------------------------------------
  // Resolve.

  /** Resolving o re-sends handle h of live pair p: o was the last object its update waited for. */
  predicate ResolvesHandle(x: Index, o: ObjectId, live: set<Pair>, p: Pair, h: Handle) {
    p in live && Has3(x.obj, o, p, h) && WaitingOf(x, p, h) <= {o}
  }

  /** Arena entry e is the set of a live pair reached through o's reverse entries, and one of the pairs in `done`. */
  predicate TouchedIn(x: Index, o: ObjectId, live: set<Pair>, e: EntryId, done: set<Pair>) {
    e in x.owner && x.owner[e].pair in done && x.owner[e].pair in live
    && Has3(x.obj, o, x.owner[e].pair, x.owner[e].handle) && x.obj[o][x.owner[e].pair][x.owner[e].handle] == e
  }

  /** The arena after o left the sets of the live (pair, handle)s of the pairs in `done` reached through o. */
  ghost function RemovedFrom(x: Index, o: ObjectId, live: set<Pair>, done: set<Pair>): map<EntryId, set<ObjectId>> {
    map e | e in x.entries :: if TouchedIn(x, o, live, e, done) then x.entries[e] - {o} else x.entries[e]
  }

  /** The same, where also o left the sets of the handles `dh` of pair p. */
  ghost function RemovedWithin(x: Index, o: ObjectId, live: set<Pair>, done: set<Pair>, p: Pair, dh: set<Handle>): map<EntryId, set<ObjectId>> {
    map e | e in x.entries ::
      if TouchedIn(x, o, live, e, done) || (TouchedIn(x, o, live, e, {p}) && x.owner[e].handle in dh) then x.entries[e] - {o} else x.entries[e]
  }

  /** The pairs of `done` whose channel or object is gone. */
  function DeadIn(done: set<Pair>, live: set<Pair>): set<Pair> {
    set p | p in done && p !in live
  }

  /** The pairs reached through o. */
  function ReachedPairs(x: Index, o: ObjectId): set<Pair> {
    if o in x.obj then x.obj[o].Keys else {}
  }

  /** y is x after object o was resolved. */
  ghost predicate ResolvedFrom(x: Index, y: Index, o: ObjectId, live: set<Pair>) {
    y.obj == x.obj - {o} && y.owner == x.owner && y.next == x.next
    && y.dead == x.dead + DeadIn(ReachedPairs(x, o), live)
    && y.entries == RemovedFrom(x, o, live, ReachedPairs(x, o))
    && Pruned(y.prop)
    && (forall p, h :: Has(y.prop, p, h) <==> Has(x.prop, p, h) && !ResolvesHandle(x, o, live, p, h))
    && (forall p, h :: Has(y.prop, p, h) ==> y.prop[p][h] == x.prop[p][h])
  }

  /** Each pending set of y lost o exactly when it belongs to a live pair that had a reverse entry for o in x. */
  ghost predicate LostObject(x: Index, y: Index, o: ObjectId, live: set<Pair>) {
    forall p, h :: Has(y.prop, p, h) ==>
      WaitingOf(y, p, h) == if p in live && Has3(x.obj, o, p, h) then WaitingOf(x, p, h) - {o} else WaitingOf(x, p, h)
  }

  lemma ResolveWaiting(x: Index, y: Index, o: ObjectId, live: set<Pair>)
    requires Owned(x) && Backward(x) && ResolvedFrom(x, y, o, live)
    ensures LostObject(x, y, o, live)
  {
    forall p, h | Has(y.prop, p, h)
      ensures WaitingOf(y, p, h) == if p in live && Has3(x.obj, o, p, h) then WaitingOf(x, p, h) - {o} else WaitingOf(x, p, h)
    {
      var e := x.prop[p][h];
      assert x.owner[e] == Slot(p, h);
      if p in live && Has3(x.obj, o, p, h) {
        assert TouchedIn(x, o, live, e, ReachedPairs(x, o));
      }
    }
  }

  lemma ResolveKeepsForward(x: Index, y: Index, o: ObjectId, live: set<Pair>)
    requires Forward(x) && ResolvedFrom(x, y, o, live) && LostObject(x, y, o, live)
    ensures Forward(y)
  {
    forall p, h, o' | Has(y.prop, p, h) && p !in y.dead && o' in WaitingOf(y, p, h)
      ensures Has3(y.obj, o', p, h) && y.obj[o'][p][h] == y.prop[p][h]
    {
      assert o' in WaitingOf(x, p, h);
      assert Has3(x.obj, o', p, h);
      if o' == o {
        assert false;
      }
    }
  }

  lemma ResolveKeepsBackward(x: Index, y: Index, o: ObjectId, live: set<Pair>)
    requires Backward(x) && ResolvedFrom(x, y, o, live) && LostObject(x, y, o, live)
    ensures Backward(y)
  {
    forall o', p, h | Has3(y.obj, o', p, h)
      ensures Has(y.prop, p, h) && y.obj[o'][p][h] == y.prop[p][h] && o' in WaitingOf(y, p, h)
    {
      assert Has3(x.obj, o', p, h) && o' != o;
      assert o' in WaitingOf(x, p, h);
      assert !ResolvesHandle(x, o, live, p, h);
    }
  }

  /**
   * Resolving keeps the index consistent: live pairs no longer wait for o,
   * sets of skipped (now dead) pairs and of pairs not reached are unchanged.
   */
  lemma ResolvePreservesValid(x: Index, y: Index, o: ObjectId, live: set<Pair>)
    requires IndexValid(x)
    requires ResolvedFrom(x, y, o, live)
    ensures IndexValid(y)
    ensures LostObject(x, y, o, live)
  {
    ResolveWaiting(x, y, o, live);
    ResolveKeepsForward(x, y, o, live);
    ResolveKeepsBackward(x, y, o, live);
  }

  /** The handles to re-send for one pair after a resolution. */
  datatype Resend = Resend(pair: Pair, handles: seq<Handle>)

  predicate Distinct(hs: seq<Handle>) {
    forall a, b :: 0 <= a < b < |hs| ==> hs[a] != hs[b]
  }

  /** Loop state of a resolution: the handles of the pairs in `done` have been processed. */
  ghost predicate Progress(x: Index, o: ObjectId, live: set<Pair>, done: set<Pair>, entries: map<EntryId, set<ObjectId>>, prop: PairMap) {
    entries == RemovedFrom(x, o, live, done)
    && Pruned(prop)
    && (forall p, h :: Has(prop, p, h) <==> Has(x.prop, p, h) && !(p in done && ResolvesHandle(x, o, live, p, h)))
    && (forall p, h :: Has(prop, p, h) ==> prop[p][h] == x.prop[p][h])
  }

  /** Loop state inside pair p, property part: also the resolving handles of p in `dh` left the index. */
  ghost predicate PropProgress(x: Index, o: ObjectId, live: set<Pair>, done: set<Pair>, p: Pair, dh: set<Handle>, prop: PairMap) {
    Pruned(prop)
    && (forall p', h :: Has(prop, p', h) <==>
          Has(x.prop, p', h) && !((p' in done || (p' == p && h in dh)) && ResolvesHandle(x, o, live, p', h)))
    && (forall p', h :: Has(prop, p', h) ==> prop[p'][h] == x.prop[p'][h])
  }

  /** Loop state inside pair p: also the handles of p in `dh` have been processed. */
  ghost predicate HandleProgress(x: Index, o: ObjectId, live: set<Pair>, done: set<Pair>, p: Pair, dh: set<Handle>,
                                 entries: map<EntryId, set<ObjectId>>, prop: PairMap) {
    entries == RemovedWithin(x, o, live, done, p, dh) && PropProgress(x, o, live, done, p, dh, prop)
  }

  /** The handles of p collected so far: distinct, and exactly the processed ones that resolve. */
  ghost predicate ResolvedList(x: Index, o: ObjectId, live: set<Pair>, p: Pair, dh: set<Handle>, resolved: seq<Handle>) {
    Distinct(resolved) && forall h :: h in resolved <==> h in dh && ResolvesHandle(x, o, live, p, h)
  }

  /** The resends so far: one per pair of `done` with a resolving handle, listing exactly those handles. */
  ghost predicate ResendsFor(x: Index, o: ObjectId, live: set<Pair>, done: set<Pair>, resends: seq<Resend>) {
    (forall k :: 0 <= k < |resends| ==>
       resends[k].pair in done && resends[k].pair in live && |resends[k].handles| > 0 && Distinct(resends[k].handles)
       && (forall h :: h in resends[k].handles <==> ResolvesHandle(x, o, live, resends[k].pair, h)))
    && (forall a, b :: 0 <= a < b < |resends| ==> resends[a].pair != resends[b].pair)
    && (forall p, h :: p in done && ResolvesHandle(x, o, live, p, h) ==> exists k :: 0 <= k < |resends| && resends[k].pair == p)
  }

  lemma HandlesBegin(x: Index, o: ObjectId, live: set<Pair>, done: set<Pair>, p: Pair, entries: map<EntryId, set<ObjectId>>, prop: PairMap)
    requires Progress(x, o, live, done, entries, prop)
    ensures HandleProgress(x, o, live, done, p, {}, entries, prop)
  {
    assert RemovedFrom(x, o, live, done) == RemovedWithin(x, o, live, done, p, {});
  }

  /**
   * One handle of the inner loop: its set is the one the property index
   * names, still untouched; removing o empties it exactly when the handle
   * resolves, and then the property entry exists (the lookup is checked).
   */
  lemma HandleSet(x: Index, o: ObjectId, live: set<Pair>, done: set<Pair>, p: Pair, dh: set<Handle>, h: Handle,
                  entries: map<EntryId, set<ObjectId>>, prop: PairMap)
    requires Owned(x) && Backward(x) && Has3(x.obj, o, p, h) && p in live && p !in done && h !in dh
    requires HandleProgress(x, o, live, done, p, dh, entries, prop)
    ensures x.obj[o][p][h] in x.owner && x.owner[x.obj[o][p][h]] == Slot(p, h)
    ensures x.obj[o][p][h] in entries && entries[x.obj[o][p][h]] == WaitingOf(x, p, h)
    ensures WaitingOf(x, p, h) - {o} == {} <==> ResolvesHandle(x, o, live, p, h)
    ensures ResolvesHandle(x, o, live, p, h) ==> Has(prop, p, h)
  {
    var e := x.obj[o][p][h];
    assert x.prop[p][h] == e && x.owner[e] == Slot(p, h);
    assert !TouchedIn(x, o, live, e, done);
  }

  lemma HandleStepEntries(x: Index, o: ObjectId, live: set<Pair>, done: set<Pair>, p: Pair, dh: set<Handle>, h: Handle,
                          entries: map<EntryId, set<ObjectId>>)
    requires Has3(x.obj, o, p, h) && p in live && p !in done && h !in dh
    requires x.obj[o][p][h] in x.owner && x.owner[x.obj[o][p][h]] == Slot(p, h)
    requires entries == RemovedWithin(x, o, live, done, p, dh) && x.obj[o][p][h] in entries
    ensures var e := x.obj[o][p][h];
      entries[e := entries[e] - {o}] == RemovedWithin(x, o, live, done, p, dh + {h})
  {
    var e := x.obj[o][p][h];
    assert TouchedIn(x, o, live, e, {p}) && !TouchedIn(x, o, live, e, done);
    var entries' := entries[e := entries[e] - {o}];
    var target := RemovedWithin(x, o, live, done, p, dh + {h});
    forall e' | e' in entries'
      ensures entries'[e'] == target[e']
    {
      if e' != e && TouchedIn(x, o, live, e', {p}) {
        assert x.owner[e'].handle != h;
      }
    }
  }

  lemma HandleStepProp(x: Index, o: ObjectId, live: set<Pair>, done: set<Pair>, p: Pair, dh: set<Handle>, h: Handle, prop: PairMap)
    requires p !in done && h !in dh
    requires PropProgress(x, o, live, done, p, dh, prop)
    ensures PropProgress(x, o, live, done, p, dh + {h}, if ResolvesHandle(x, o, live, p, h) then Drop(prop, p, h) else prop)
  {
  }

  lemma HandleStepList(x: Index, o: ObjectId, live: set<Pair>, p: Pair, dh: set<Handle>, h: Handle, resolved: seq<Handle>)
    requires h !in dh && ResolvedList(x, o, live, p, dh, resolved)
    ensures ResolvedList(x, o, live, p, dh + {h}, if ResolvesHandle(x, o, live, p, h) then resolved + [h] else resolved)
  {
  }

  /** After the last handle of p the inner state is the outer state with p done. */
  lemma HandlesEnd(x: Index, o: ObjectId, live: set<Pair>, done: set<Pair>, p: Pair, entries: map<EntryId, set<ObjectId>>, prop: PairMap)
    requires o in x.obj && p in x.obj[o]
    requires HandleProgress(x, o, live, done, p, x.obj[o][p].Keys, entries, prop)
    ensures Progress(x, o, live, done + {p}, entries, prop)
  {
    forall e | e in x.entries
      ensures TouchedIn(x, o, live, e, done + {p}) <==>
        TouchedIn(x, o, live, e, done) || (TouchedIn(x, o, live, e, {p}) && x.owner[e].handle in x.obj[o][p].Keys)
    {
    }
    assert RemovedWithin(x, o, live, done, p, x.obj[o][p].Keys) == RemovedFrom(x, o, live, done + {p});
  }

  /** A live pair done: its resolving handles, if any, become one resend. */
  lemma ResolveLivePair(x: Index, o: ObjectId, live: set<Pair>, done: set<Pair>, p: Pair, resolved: seq<Handle>, resends: seq<Resend>)
    requires o in x.obj && p in x.obj[o] && p in live && p !in done
    requires ResendsFor(x, o, live, done, resends) && ResolvedList(x, o, live, p, x.obj[o][p].Keys, resolved)
    ensures ResendsFor(x, o, live, done + {p}, if |resolved| > 0 then resends + [Resend(p, resolved)] else resends)
  {
    var rs := if |resolved| > 0 then resends + [Resend(p, resolved)] else resends;
    forall p', h | p' in done + {p} && ResolvesHandle(x, o, live, p', h)
      ensures exists k :: 0 <= k < |rs| && rs[k].pair == p'
    {
      if p' == p {
        assert h in resolved;
        assert rs[|rs| - 1].pair == p;
      } else {
        var k :| 0 <= k < |resends| && resends[k].pair == p';
        assert rs[k] == resends[k];
      }
    }
  }

  /** A dead pair done: it is skipped and recorded as dead. */
  lemma ResolveDeadPair(x: Index, o: ObjectId, live: set<Pair>, done: set<Pair>, p: Pair,
                        entries: map<EntryId, set<ObjectId>>, prop: PairMap, resends: seq<Resend>)
    requires p !in live
    requires Progress(x, o, live, done, entries, prop) && ResendsFor(x, o, live, done, resends)
    ensures Progress(x, o, live, done + {p}, entries, prop) && ResendsFor(x, o, live, done + {p}, resends)
  {
    forall e | e in x.entries ensures TouchedIn(x, o, live, e, done + {p}) == TouchedIn(x, o, live, e, done) {
    }
    assert RemovedFrom(x, o, live, done + {p}) == RemovedFrom(x, o, live, done);
  }

  /** Before the first pair nothing is done. */
  lemma ResolveBegin(x: Index, o: ObjectId, live: set<Pair>)
    requires Pruned(x.prop)
    ensures Progress(x, o, live, {}, x.entries, x.prop)
  {
    assert RemovedFrom(x, o, live, {}) == x.entries;
  }

  /** Once every reached pair is done, the state is the resolution of o. */
  lemma ResolveDone(x: Index, y: Index, o: ObjectId, live: set<Pair>)
    requires IndexValid(x)
    requires y.obj == x.obj - {o} && y.owner == x.owner && y.next == x.next
    requires y.dead == x.dead + DeadIn(ReachedPairs(x, o), live)
    requires Progress(x, o, live, ReachedPairs(x, o), y.entries, y.prop)
    ensures ResolvedFrom(x, y, o, live) && IndexValid(y) && LostObject(x, y, o, live)
  {
    forall p, h | ResolvesHandle(x, o, live, p, h) ensures p in ReachedPairs(x, o) {
    }
    ResolvePreservesValid(x, y, o, live);
  }

  // ---------------------------------------------------------------------
  // The index as the sender holds it.

  class UnresolvedIndex {
    var entries: map<EntryId, set<ObjectId>>
    var propertyToUnresolved: PairMap
    var objectToUnresolved: ObjectMap
    var nextEntry: EntryId
    ghost var owner: map<EntryId, Slot>
    ghost var dead: set<Pair>

    ghost function Model(): Index
      reads this
    {
      Index(entries, propertyToUnresolved, objectToUnresolved, owner, dead, nextEntry)
    }

    ghost predicate Valid()
      reads this
    {
      IndexValid(Model())
    }

    /** Handle h of pair p has an update waiting. */
    predicate IsPending(p: Pair, h: Handle)
      reads this
    {
      Has(propertyToUnresolved, p, h)
    }

    /** The objects that update waits for. */
    function Waiting(p: Pair, h: Handle): set<ObjectId>
      reads this
    {
      if Has(propertyToUnresolved, p, h) && propertyToUnresolved[p][h] in entries then entries[propertyToUnresolved[p][h]] else {}
    }

    constructor()
      ensures Valid()
      ensures propertyToUnresolved == map[] && objectToUnresolved == map[]
    {
      entries := map[];
      propertyToUnresolved := map[];
      objectToUnresolved := map[];
      nextEntry := 0;
      owner := map[];
      dead := {};
    }

    /**
     * Records that the update of handle h on pair p waits for `unresolved`,
     * in the property index and, for each of those objects, in the reverse
     * index. Every caller resets the handle first, so it is not pending.
     */
    method QueueOutgoingUpdate(p: Pair, h: Handle, unresolved: set<ObjectId>)
      requires Valid() && p !in dead && !IsPending(p, h)
      modifies this
      ensures Valid() && dead == old(dead)
      ensures QueuedFrom(old(Model()), Model(), p, h, unresolved)
      ensures forall p', h' :: IsPending(p', h') <==> old(IsPending(p', h')) || (p' == p && h' == h)
      ensures Waiting(p, h) == unresolved
      ensures forall p', h' :: old(IsPending(p', h')) ==> Waiting(p', h') == old(Waiting(p', h'))
    {
      ghost var x := Model();
      var e := nextEntry;
      nextEntry := nextEntry + 1;
      entries := entries[e := unresolved];
      owner := owner[e := Slot(p, h)];
      propertyToUnresolved := Put(propertyToUnresolved, p, h, e);
      var rest := unresolved;
      while rest != {}
        invariant Queuing(x, p, h, unresolved, rest, objectToUnresolved)
        invariant Model().(obj := x.obj) == Registered(x, p, h, unresolved)
        decreases rest
      {
        var o :| o in rest;
        QueueStep(x, p, h, unresolved, rest, objectToUnresolved, o);
        objectToUnresolved := PutReverse(objectToUnresolved, o, p, h, e);
        rest := rest - {o};
      }
      QueueDone(x, p, h, unresolved, objectToUnresolved);
      QueuePreservesValid(x, Model(), p, h, unresolved);
    }

    /**
     * Forgets the pending update of handle h on pair p: its reverse entries
     * and its property entry are removed and emptied maps pruned. Nothing
     * changes when that update is not pending.
     */
    method ResetOutgoingUpdate(p: Pair, h: Handle)
      requires Valid() && p !in dead
      modifies this
      ensures Valid() && dead == old(dead)
      ensures old(IsPending(p, h)) ==> ResetFrom(old(Model()), Model(), p, h)
      ensures !old(IsPending(p, h)) ==> Model() == old(Model())
      ensures forall p', h' :: IsPending(p', h') <==> old(IsPending(p', h')) && !(p' == p && h' == h)
      ensures forall p', h' :: IsPending(p', h') ==> Waiting(p', h') == old(Waiting(p', h'))
    {
      ghost var x := Model();
      if p !in propertyToUnresolved {
        return;
      }
      var handleMap := propertyToUnresolved[p];
      if h !in handleMap {
        return;
      }
      var e := handleMap[h];
      var waiting := entries[e];
      assert waiting == WaitingOf(x, p, h);
      assert Resetting(x, p, h, waiting, waiting, objectToUnresolved);
      DropReverseEntries(x, p, h, waiting);
      ResetDone(x, p, h, objectToUnresolved);
      propertyToUnresolved := Drop(propertyToUnresolved, p, h);
      ResetPreservesValid(x, Model(), p, h);
    }

    /** The reset loop: drops the reverse entry of (p, h) under every object its update waits for. */
    method DropReverseEntries(ghost x: Index, p: Pair, h: Handle, waiting: set<ObjectId>)
      requires Forward(x) && p !in x.dead && waiting == WaitingOf(x, p, h)
      requires Resetting(x, p, h, waiting, waiting, objectToUnresolved)
      modifies this`objectToUnresolved
      ensures Resetting(x, p, h, waiting, {}, objectToUnresolved)
    {
      var rest := waiting;
      while rest != {}
        invariant Resetting(x, p, h, waiting, rest, objectToUnresolved)
        decreases rest
      {
        var o :| o in rest;
        ResetStep(x, p, h, rest, objectToUnresolved, o);
        objectToUnresolved := DropReverse(objectToUnresolved, o, p, h);
        rest := rest - {o};
      }
    }

    /**
     * Removes o from the waiting sets of the handles of the live pairs that
     * wait on it, each in place, once per (pair, handle); a handle whose set
     * becomes empty leaves the property index and is re-sent with the other
     * such handles of its pair. Pairs whose channel or object is gone are
     * skipped. Finally o leaves the reverse index.
     */
    method ResolveOutgoingOperations(o: ObjectId, live: set<Pair>) returns (resends: seq<Resend>)
      requires Valid()
      modifies this
      ensures Valid()
      ensures ResolvedFrom(old(Model()), Model(), o, live)
      ensures o !in objectToUnresolved
      ensures LostObject(old(Model()), Model(), o, live)
      ensures ResendsFor(old(Model()), o, live, ReachedPairs(old(Model()), o), resends)
      ensures forall p, h :: ResolvesHandle(old(Model()), o, live, p, h) ==> exists k :: 0 <= k < |resends| && resends[k].pair == p
    {
      ghost var x := Model();
      if o !in objectToUnresolved {
        resends := [];
        ResolveDone(x, x, o, live);
        return;
      }
      ResolveBegin(x, o, live);
      entries, propertyToUnresolved, resends := ResolvePairs(x, o, live, objectToUnresolved[o], entries, propertyToUnresolved);
      // Skipped pairs are remembered as dead.
      dead := dead + DeadIn(ReachedPairs(x, o), live);
      objectToUnresolved := objectToUnresolved - {o};
      ResolveDone(x, Model(), o, live);
    }

    /** The outer loop of the resolution: the pairs that wait on o, live ones handle by handle, dead ones skipped. */
    static method ResolvePairs(ghost x: Index, o: ObjectId, live: set<Pair>, pairMap: PairMap,
                               entries0: map<EntryId, set<ObjectId>>, prop0: PairMap)
      returns (entries: map<EntryId, set<ObjectId>>, prop: PairMap, resends: seq<Resend>)
      requires Owned(x) && Backward(x) && o in x.obj && pairMap == x.obj[o]
      requires Progress(x, o, live, {}, entries0, prop0)
      ensures Progress(x, o, live, ReachedPairs(x, o), entries, prop)
      ensures ResendsFor(x, o, live, ReachedPairs(x, o), resends)
    {
      entries, prop, resends := entries0, prop0, [];
      var pairs := pairMap.Keys;
      ghost var done: set<Pair> := {};
      while pairs != {}
        invariant pairs + done == pairMap.Keys && pairs !! done
        invariant Progress(x, o, live, done, entries, prop)
        invariant ResendsFor(x, o, live, done, resends)
        decreases pairs
      {
        var p :| p in pairs;
        pairs := pairs - {p};
        if p in live {
          HandlesBegin(x, o, live, done, p, entries, prop);
          var resolved;
          entries, prop, resolved := ResolveHandles(x, o, p, pairMap[p], live, done, entries, prop);
          ResolveLivePair(x, o, live, done, p, resolved, resends);
          if |resolved| > 0 {
            resends := resends + [Resend(p, resolved)];
          }
        } else {
          // The pair's channel or object is gone: skipped.
          ResolveDeadPair(x, o, live, done, p, entries, prop, resends);
        }
        done := done + {p};
      }
    }

    /** The inner loop of the resolution: the handles of one live pair that wait on o. */
    static method ResolveHandles(ghost x: Index, o: ObjectId, p: Pair, handleMap: HandleMap, live: set<Pair>, ghost done: set<Pair>,
                                 entries0: map<EntryId, set<ObjectId>>, prop0: PairMap)
      returns (entries: map<EntryId, set<ObjectId>>, prop: PairMap, resolved: seq<Handle>)
      requires Owned(x) && Backward(x) && o in x.obj && p in x.obj[o] && handleMap == x.obj[o][p] && p in live && p !in done
      requires HandleProgress(x, o, live, done, p, {}, entries0, prop0)
      ensures Progress(x, o, live, done + {p}, entries, prop)
      ensures ResolvedList(x, o, live, p, handleMap.Keys, resolved)
    {
      entries, prop, resolved := entries0, prop0, [];
      var rest := handleMap.Keys;
      ghost var doneHandles: set<Handle> := {};
      while rest != {}
        invariant rest + doneHandles == handleMap.Keys && rest !! doneHandles
        invariant HandleProgress(x, o, live, done, p, doneHandles, entries, prop)
        invariant ResolvedList(x, o, live, p, doneHandles, resolved)
        decreases rest
      {
        var h :| h in rest;
        rest := rest - {h};
        entries, prop, resolved := ResolveHandle(x, o, p, handleMap, live, done, doneHandles, h, entries, prop, resolved);
        doneHandles := doneHandles + {h};
      }
      HandlesEnd(x, o, live, done, p, entries, prop);
    }

    /** One handle of the inner loop: o leaves its set; an emptied set leaves the property index and the handle is listed. */
    static method ResolveHandle(ghost x: Index, o: ObjectId, p: Pair, handleMap: HandleMap, live: set<Pair>, ghost done: set<Pair>,
                                ghost dh: set<Handle>, h: Handle,
                                entries0: map<EntryId, set<ObjectId>>, prop0: PairMap, resolved0: seq<Handle>)
      returns (entries: map<EntryId, set<ObjectId>>, prop: PairMap, resolved: seq<Handle>)
      requires Owned(x) && Backward(x) && o in x.obj && p in x.obj[o] && handleMap == x.obj[o][p] && p in live && p !in done
      requires h in handleMap && h !in dh
      requires HandleProgress(x, o, live, done, p, dh, entries0, prop0)
      requires ResolvedList(x, o, live, p, dh, resolved0)
      ensures HandleProgress(x, o, live, done, p, dh + {h}, entries, prop)
      ensures ResolvedList(x, o, live, p, dh + {h}, resolved)
    {
      var e := handleMap[h];
      HandleSet(x, o, live, done, p, dh, h, entries0, prop0);
      HandleStepEntries(x, o, live, done, p, dh, h, entries0);
      HandleStepProp(x, o, live, done, p, dh, h, prop0);
      HandleStepList(x, o, live, p, dh, h, resolved0);
      entries, prop, resolved := entries0[e := entries0[e] - {o}], prop0, resolved0;
      if entries[e] == {} {
        // The property entry exists (the lookup is checked).
        assert Has(prop, p, h);
        resolved := resolved + [h];
        prop := Drop(prop, p, h);
      }
    }
  }
}
