/**
 * Turns an object's changed replicated (or handover) properties into the
 * field writes of a component data or component update.
 *
 * A property is seen as a `Value`; the schema object being filled is the
 * sequence of `FieldWrite`s made to it. Objects referenced by a property are
 * resolved through `ObjectEnv`, which stands for the object flags and the
 * package map's lookups. Struct payloads are opaque bytes produced by a
 * serialiser that also reports the objects it could not resolve.
 */
module ComponentFactory {
  import opened Constants
  import opened Interest
  import InterestFactory

  // ---------------------------------------------------------------------
  // Property values and field writes.

  /** An integer property of one of the engine's eight integer types. */
  datatype IntValue =
    | Int8(i: int) | Int16(i: int) | Int32(i: int) | Int64(i: int)
    | UInt8(i: int) | UInt16(i: int) | UInt32(i: int) | UInt64(i: int)
  {
    /** Size in bytes. */
    function Width(): nat {
      match this
      case Int8(_) => 1 case UInt8(_) => 1
      case Int16(_) => 2 case UInt16(_) => 2
      case Int32(_) => 4 case UInt32(_) => 4
      case Int64(_) => 8 case UInt64(_) => 8
    }

    predicate Signed() {
      Int8? || Int16? || Int32? || Int64?
    }

    /** The value fits its type. */
    predicate InRange() {
      match this
      case Int8(x) => -0x80 <= x < 0x80
      case Int16(x) => -0x8000 <= x < 0x8000
      case Int32(x) => -0x8000_0000 <= x < 0x8000_0000
      case Int64(x) => -0x8000_0000_0000_0000 <= x < 0x8000_0000_0000_0000
      case UInt8(x) => 0 <= x < 0x100
      case UInt16(x) => 0 <= x < 0x1_0000
      case UInt32(x) => 0 <= x < 0x1_0000_0000
      case UInt64(x) => 0 <= x < 0x1_0000_0000_0000_0000
    }
  }

  /** What a struct's serialiser produced: its bytes, whether it succeeded, the objects it could not resolve. */
  datatype StructPayload = StructPayload(bytes: Bytes, serializeSucceeded: bool, unresolved: set<ObjectId>)

  datatype Value =
    | StructV(payload: StructPayload)
    | BoolV(b: bool)
    | FloatV(f: real)
    | DoubleV(d: real)
    | IntegerV(n: IntValue)
    | ObjectV(obj: Option<ObjectId>, alwaysInterested: bool)
    | NameV(s: string)
    | StrV(s: string)
    | TextV(s: string)
    | ArrayV(elements: seq<Value>)
    | EnumV(elementSize: nat, underlying: IntValue)
    | DelegateV
    | MulticastDelegateV
    | InterfaceV

  /** Every integer fits its type, and an enum's size is that of its underlying integer. */
  predicate WellTyped(v: Value)
    decreases v
  {
    match v
    case IntegerV(n) => n.InRange()
    case EnumV(size, n) => n.InRange() && size == n.Width()
    case ArrayV(es) => forall k :: 0 <= k < |es| ==> WellTyped(es[k])
    case _ => true
  }

  datatype FieldWrite =
    | WriteBool(field: FieldId, b: bool)
    | WriteFloat(field: FieldId, f: real)
    | WriteDouble(field: FieldId, d: real)
    | WriteInt32(field: FieldId, i: int)
    | WriteInt64(field: FieldId, i: int)
    | WriteUint32(field: FieldId, i: int)
    | WriteUint64(field: FieldId, i: int)
    | WriteObjectRef(field: FieldId, ref: ObjectRef)
    | WriteString(field: FieldId, s: string)
    | WriteBytes(field: FieldId, bytes: Bytes)

  // ---------------------------------------------------------------------
  // Object references.

  /**
   * The object flags and package-map lookups AddProperty consults:
   * `hasValidNetGUID` is whether a valid NetGUID is known or could be
   * assigned (for an object supported for networking), `refFromNetGUID` the
   * reference for the object's NetGUID, and `refAfterStableResolve` the
   * reference after a stably named object is registered again.
   */
  datatype ObjectEnv = ObjectEnv(
    isPendingKill: ObjectId -> bool,
    isSupportedForNetworking: ObjectId -> bool,
    isFullNameStableForNetworking: ObjectId -> bool,
    hasValidNetGUID: ObjectId -> bool,
    refFromNetGUID: ObjectId -> ObjectRef,
    refAfterStableResolve: ObjectId -> ObjectRef)

  datatype Resolution = Resolution(ref: ObjectRef, unresolved: set<ObjectId>)

  /** The reference written for an object property, and the object if it must wait. */
  function ResolveObject(o: Option<ObjectId>, env: ObjectEnv): (r: Resolution)
    ensures r.unresolved <= (if o.Some? then {o.value} else {})
    ensures r.unresolved != {} ==> r.ref == NullRef
  {
    if o.None? || env.isPendingKill(o.value) then Resolution(NullRef, {})
    else
      var x := o.value;
      var guidValid := env.isSupportedForNetworking(x) && env.hasValidNetGUID(x);
      var ref := if guidValid || (env.isSupportedForNetworking(x) && !env.isFullNameStableForNetworking(x))
                 then env.refFromNetGUID(x) else NullRef;
      if ref != UnresolvedRef then Resolution(ref, {})
      else if env.isFullNameStableForNetworking(x) then Resolution(env.refAfterStableResolve(x), {})
      else Resolution(NullRef, {x})
  }

  // ---------------------------------------------------------------------
  // AddProperty.

  /**
   * What encoding one property produced: the writes, the objects it waits
   * on, the field ids to report as cleared, and whether an always-interested
   * object property was met.
   */
  datatype Encoded = Encoded(writes: seq<FieldWrite>, unresolved: set<ObjectId>, cleared: seq<FieldId>, interestDirty: bool)

  const NOTHING: Encoded := Encoded([], {}, [], false)

  function Single(w: FieldWrite): Encoded {
    Encoded([w], {}, [], false)
  }

  function Join(a: Encoded, b: Encoded): Encoded {
    Encoded(a.writes + b.writes, a.unresolved + b.unresolved, a.cleared + b.cleared, a.interestDirty || b.interestDirty)
  }

  /** The encodings of an array's elements, one after the other. */
  function JoinAll(parts: seq<Encoded>): Encoded {
    if |parts| == 0 then NOTHING else Join(parts[0], JoinAll(parts[1..]))
  }

  /** Integers are widened: signed to int32 or int64, unsigned to uint32 or uint64. */
  function AddInteger(id: FieldId, n: IntValue): FieldWrite {
    match n
    case Int8(x) => WriteInt32(id, x)
    case Int16(x) => WriteInt32(id, x)
    case Int32(x) => WriteInt32(id, x)
    case Int64(x) => WriteInt64(id, x)
    case UInt8(x) => WriteUint32(id, x)
    case UInt16(x) => WriteUint32(id, x)
    case UInt32(x) => WriteUint32(id, x)
    case UInt64(x) => WriteUint64(id, x)
  }

  /** The value of an integer read as unsigned 64 bits and then truncated to 32 bits. */
  function AsUint32(n: IntValue): int {
    n.i % 0x1_0000_0000
  }

  /** Encodes property value `v` into field `id`; `clearedSupplied` says whether a cleared-id list was passed. */
  function AddProperty(id: FieldId, v: Value, clearedSupplied: bool, env: ObjectEnv): Encoded
    decreases v
  {
    match v
    case StructV(p) =>
      if p.serializeSucceeded then Encoded([WriteBytes(id, p.bytes)], p.unresolved, [], false)
      else Encoded([], p.unresolved, [], false)
    case BoolV(b) => Single(WriteBool(id, b))
    case FloatV(f) => Single(WriteFloat(id, f))
    case DoubleV(d) => Single(WriteDouble(id, d))
    case IntegerV(n) => Single(AddInteger(id, n))
    case ObjectV(o, always) =>
      var r := ResolveObject(o, env);
      Encoded([WriteObjectRef(id, r.ref)], r.unresolved, [], always)
    case NameV(s) => Single(WriteString(id, s))
    case StrV(s) => Single(WriteString(id, s))
    case TextV(s) => Single(WriteString(id, s))
    case ArrayV(es) =>
      var joined := JoinAll(seq(|es|, k requires 0 <= k < |es| => AddProperty(id, es[k], clearedSupplied, env)));
      if |es| == 0 && clearedSupplied then joined.(cleared := joined.cleared + [id]) else joined
    case EnumV(size, n) =>
      if size < 4 then Single(WriteUint32(id, AsUint32(n))) else Single(AddInteger(id, n))
    case DelegateV => NOTHING
    case MulticastDelegateV => NOTHING
    case InterfaceV => NOTHING
  }

  /** Every object a value mentions, including those its struct serialiser reported. */
  function ObjectsOf(v: Value): set<ObjectId>
    decreases v
  {
    match v
    case StructV(p) => p.unresolved
    case ObjectV(o, _) => if o.Some? then {o.value} else {}
    case ArrayV(es) => set k, x | 0 <= k < |es| && x in ObjectsOf(es[k]) :: x
    case _ => {}
  }

  /** What holds of every part holds of their join. */
  lemma {:induction false} JoinAllFacts(parts: seq<Encoded>, id: FieldId, objs: set<ObjectId>)
    requires forall k :: 0 <= k < |parts| ==> (forall w :: w in parts[k].writes ==> w.field == id)
    requires forall k :: 0 <= k < |parts| ==> (forall c :: c in parts[k].cleared ==> c == id)
    requires forall k :: 0 <= k < |parts| ==> parts[k].unresolved <= objs
    ensures forall w :: w in JoinAll(parts).writes ==> w.field == id
    ensures forall c :: c in JoinAll(parts).cleared ==> c == id
    ensures JoinAll(parts).unresolved <= objs
    ensures JoinAll(parts).interestDirty <==> exists k :: 0 <= k < |parts| && parts[k].interestDirty
    ensures |JoinAll(parts).cleared| > 0 ==> exists k :: 0 <= k < |parts| && |parts[k].cleared| > 0
  {
    if |parts| > 0 {
      JoinAllFacts(parts[1..], id, objs);
      if exists k :: 0 <= k < |parts| && parts[k].interestDirty {
        var k :| 0 <= k < |parts| && parts[k].interestDirty;
        if k > 0 { assert parts[1..][k - 1] == parts[k]; }
      }
      if exists k :: 0 <= k < |parts[1..]| && parts[1..][k].interestDirty {
        var k :| 0 <= k < |parts[1..]| && parts[1..][k].interestDirty;
        assert parts[k + 1] == parts[1..][k];
      }
      if exists k :: 0 <= k < |parts[1..]| && |parts[1..][k].cleared| > 0 {
        var k :| 0 <= k < |parts[1..]| && |parts[1..][k].cleared| > 0;
        assert parts[k + 1] == parts[1..][k];
      }
    }
  }

  /**
   * Every write and every cleared id of a property lands on its own field
   * id; cleared ids appear only when a cleared list was supplied; the
   * objects it waits on are among those it mentions.
   */
  lemma {:induction false} AddPropertyStaysOnField(id: FieldId, v: Value, clearedSupplied: bool, env: ObjectEnv)
    ensures forall w :: w in AddProperty(id, v, clearedSupplied, env).writes ==> w.field == id
    ensures forall c :: c in AddProperty(id, v, clearedSupplied, env).cleared ==> c == id
    ensures !clearedSupplied ==> AddProperty(id, v, clearedSupplied, env).cleared == []
    ensures AddProperty(id, v, clearedSupplied, env).unresolved <= ObjectsOf(v)
    decreases v
  {
    match v
    case ArrayV(es) =>
      var parts := seq(|es|, k requires 0 <= k < |es| => AddProperty(id, es[k], clearedSupplied, env));
      forall k | 0 <= k < |es|
        ensures (forall w :: w in parts[k].writes ==> w.field == id)
        ensures (forall c :: c in parts[k].cleared ==> c == id)
        ensures !clearedSupplied ==> parts[k].cleared == []
        ensures parts[k].unresolved <= ObjectsOf(v)
      {
        AddPropertyStaysOnField(id, es[k], clearedSupplied, env);
        assert forall x :: x in ObjectsOf(es[k]) ==> x in ObjectsOf(v);
      }
      JoinAllFacts(parts, id, ObjectsOf(v));
    case _ =>
  }

  /** An array's interest flag is set iff some element's is. */
  lemma {:induction false} ArrayInterestDirty(id: FieldId, es: seq<Value>, clearedSupplied: bool, env: ObjectEnv)
    ensures AddProperty(id, ArrayV(es), clearedSupplied, env).interestDirty <==>
      exists k :: 0 <= k < |es| && AddProperty(id, es[k], clearedSupplied, env).interestDirty
  {
    var parts := seq(|es|, k requires 0 <= k < |es| => AddProperty(id, es[k], clearedSupplied, env));
    forall k | 0 <= k < |es| ensures (forall w :: w in parts[k].writes ==> w.field == id) && (forall c :: c in parts[k].cleared ==> c == id) {
      AddPropertyStaysOnField(id, es[k], clearedSupplied, env);
    }
    var objs := set k, x | 0 <= k < |parts| && x in parts[k].unresolved :: x;
    forall k | 0 <= k < |parts| ensures parts[k].unresolved <= objs {
      forall x | x in parts[k].unresolved ensures x in objs { }
    }
    JoinAllFacts(parts, id, objs);
    if exists k :: 0 <= k < |es| && AddProperty(id, es[k], clearedSupplied, env).interestDirty {
      var k :| 0 <= k < |es| && AddProperty(id, es[k], clearedSupplied, env).interestDirty;
      assert parts[k].interestDirty;
    }
  }

  /** An empty array writes nothing and is reported as cleared exactly when a cleared list is supplied. */
  lemma {:induction false} EmptyArrayIsCleared(id: FieldId, clearedSupplied: bool, env: ObjectEnv)
    ensures AddProperty(id, ArrayV([]), clearedSupplied, env).writes == []
    ensures AddProperty(id, ArrayV([]), clearedSupplied, env).cleared == (if clearedSupplied then [id] else [])
    ensures AddProperty(id, ArrayV([]), clearedSupplied, env).unresolved == {}
  {
    assert seq(0, k requires 0 <= k < 0 => AddProperty(id, ArrayV([]), clearedSupplied, env)) == [];
  }

  /** A non-empty array writes each element under the same field id, first element first. */
  lemma {:induction false} ArrayElementsInOrder(id: FieldId, es: seq<Value>, clearedSupplied: bool, env: ObjectEnv)
    requires |es| > 0
    ensures AddProperty(id, ArrayV(es), clearedSupplied, env).writes ==
      AddProperty(id, es[0], clearedSupplied, env).writes + AddProperty(id, ArrayV(es[1..]), clearedSupplied, env).writes
  {
    var parts := seq(|es|, k requires 0 <= k < |es| => AddProperty(id, es[k], clearedSupplied, env));
    var rest := seq(|es[1..]|, k requires 0 <= k < |es[1..]| => AddProperty(id, es[1..][k], clearedSupplied, env));
    assert parts[1..] == rest;
  }

  /**
   * Object references: a null or pending-kill object is written as the null
   * reference; an object whose reference is still unresolved and that is not
   * stably named is written as null and reported as unresolved; the interest
   * flag is the property's always-interested flag.
   */
  lemma {:induction false} ObjectReferenceEncoding(id: FieldId, o: Option<ObjectId>, always: bool, clearedSupplied: bool, env: ObjectEnv)
    ensures AddProperty(id, ObjectV(o, always), clearedSupplied, env).interestDirty == always
    ensures (o.None? || env.isPendingKill(o.value)) ==>
      AddProperty(id, ObjectV(o, always), clearedSupplied, env) == Encoded([WriteObjectRef(id, NullRef)], {}, [], always)
    ensures (o.Some? && !env.isPendingKill(o.value) && !env.isFullNameStableForNetworking(o.value)
             && env.isSupportedForNetworking(o.value) && env.refFromNetGUID(o.value) == UnresolvedRef) ==>
      AddProperty(id, ObjectV(o, always), clearedSupplied, env) == Encoded([WriteObjectRef(id, NullRef)], {o.value}, [], always)
    ensures AddProperty(id, ObjectV(o, always), clearedSupplied, env).unresolved != {} ==>
      AddProperty(id, ObjectV(o, always), clearedSupplied, env).writes == [WriteObjectRef(id, NullRef)]
  {
  }

  // ---------------------------------------------------------------------
  // Reading a field back (the receiving side's decoding, as a reference).

  /** The integer of type `n` that write `w` carries, if `w` has the wire type `n` widens to. */
  function ReadInteger(n: IntValue, w: FieldWrite): Option<IntValue> {
    var kindMatches :=
      if n.Int8? || n.Int16? || n.Int32? then w.WriteInt32?
      else if n.Int64? then w.WriteInt64?
      else if n.UInt64? then w.WriteUint64?
      else w.WriteUint32?;
    if !kindMatches then None
    else
      var r := n.(i := w.i);
      if r.InRange() then Some(r) else None
  }

  /** Widening loses nothing: every in-range integer reads back as itself. */
  lemma {:induction false} IntegerRoundTrip(id: FieldId, n: IntValue, clearedSupplied: bool, env: ObjectEnv)
    requires n.InRange()
    ensures AddProperty(id, IntegerV(n), clearedSupplied, env).writes == [AddInteger(id, n)]
    ensures ReadInteger(n, AddInteger(id, n)) == Some(n)
    ensures AddInteger(id, n).WriteInt32? || AddInteger(id, n).WriteUint32? ==> -0x8000_0000 <= AddInteger(id, n).i < 0x1_0000_0000
  {
  }

  /** The narrow-enum value of type `n` that a uint32 write carries. */
  function ReadNarrowEnum(n: IntValue, w: FieldWrite): Option<IntValue>
    requires n.Width() < 4
  {
    if !w.WriteUint32? then None
    else
      var m := if n.Width() == 1 then 0x100 else 0x1_0000;
      var t := w.i % m;
      Some(n.(i := if n.Signed() && t >= m / 2 then t - m else t))
  }

  /**
   * An enum narrower than 4 bytes is written as one uint32 holding its
   * value modulo 2^32, and its value reads back from it unchanged.
   */
  lemma {:induction false} NarrowEnumRoundTrip(id: FieldId, n: IntValue, clearedSupplied: bool, env: ObjectEnv)
    requires n.InRange() && n.Width() < 4
    ensures AddProperty(id, EnumV(n.Width(), n), clearedSupplied, env).writes == [WriteUint32(id, AsUint32(n))]
    ensures 0 <= AsUint32(n) < 0x1_0000_0000
    ensures ReadNarrowEnum(n, WriteUint32(id, AsUint32(n))) == Some(n)
  {
    var x := n.i;
    if x >= 0 {
      assert AsUint32(n) == x;
    } else {
      assert AsUint32(n) == x + 0x1_0000_0000;
      if n.Width() == 1 {
        assert (x + 0x1_0000_0000) % 0x100 == x + 0x100;
      } else {
        assert (x + 0x1_0000_0000) % 0x1_0000 == x + 0x1_0000;
      }
    }
  }

  /** An enum of 4 bytes or more is written as its underlying integer. */
  lemma {:induction false} WideEnumAsUnderlying(id: FieldId, n: IntValue, clearedSupplied: bool, env: ObjectEnv)
    requires n.Width() >= 4
    ensures AddProperty(id, EnumV(n.Width(), n), clearedSupplied, env) == AddProperty(id, IntegerV(n), clearedSupplied, env)
  {
  }

  // ---------------------------------------------------------------------
  // Filling a schema object.

  /** The content of a changed field: a property, or a fast-array delta already serialised. */
  datatype FieldContent =
    | PropertyContent(value: Value)
    | FastArrayContent(bytes: Bytes, unresolved: set<ObjectId>)

  /** One top-level replicated field the changelist visits: its handle, its property group and its content. */
  datatype ChangedField = ChangedField(handle: FieldId, group: SchemaComponentType, content: FieldContent)

  /** A field to encode: its handle and its content. */
  datatype Field = Field(handle: FieldId, content: FieldContent)

  function EncodeField(f: Field, clearedSupplied: bool, env: ObjectEnv): Encoded {
    match f.content
    case PropertyContent(v) => AddProperty(f.handle, v, clearedSupplied, env)
    case FastArrayContent(b, u) => Encoded([WriteBytes(f.handle, b)], u, [], false)
  }

  lemma {:induction false} EncodeFieldStaysOnField(f: Field, clearedSupplied: bool, env: ObjectEnv)
    ensures forall w :: w in EncodeField(f, clearedSupplied, env).writes ==> w.field == f.handle
    ensures !clearedSupplied ==> EncodeField(f, clearedSupplied, env).cleared == []
  {
    if f.content.PropertyContent? {
      AddPropertyStaysOnField(f.handle, f.content.value, clearedSupplied, env);
    }
  }

  /** Removes every write to field `h` from the schema object. */
  function ClearField(ws: seq<FieldWrite>, h: FieldId): (r: seq<FieldWrite>)
    ensures forall w :: w in r <==> w in ws && w.field != h
  {
    if |ws| == 0 then []
    else (if ws[0].field == h then [] else [ws[0]]) + ClearField(ws[1..], h)
  }

  /** The schema object, cleared list, wrote flag, pending map and interest flag while a fill runs. */
  datatype FillState = FillState(
    writes: seq<FieldWrite>,
    cleared: seq<FieldId>,
    wrote: bool,
    pending: map<FieldId, set<ObjectId>>,
    interestDirty: bool)

  /** A field's handle and what encoding its content produced. */
  datatype Encoding = Encoding(handle: FieldId, encoded: Encoded)

  function EncodeFields(fs: seq<Field>, clearedSupplied: bool, env: ObjectEnv): seq<Encoding> {
    seq(|fs|, k requires 0 <= k < |fs| => Encoding(fs[k].handle, EncodeField(fs[k], clearedSupplied, env)))
  }

  /**
   * The effect of encoding one field: a field with no unresolved objects
   * marks the object as written; otherwise its objects are recorded as
   * pending and, outside initial data, its writes are taken out again.
   */
  function Step(s: FillState, x: Encoding, isInitialData: bool): FillState {
    var e := x.encoded;
    var ws := s.writes + e.writes;
    var s1 := s.(cleared := s.cleared + e.cleared, interestDirty := s.interestDirty || e.interestDirty);
    if e.unresolved == {} then s1.(writes := ws, wrote := true)
    else s1.(writes := if isInitialData then ws else ClearField(ws, x.handle), pending := s.pending[x.handle := e.unresolved])
  }

  /** Encoding the fields one after the other. */
  function Fill(s: FillState, es: seq<Encoding>, isInitialData: bool): FillState {
    if |es| == 0 then s else Step(Fill(s, es[..|es| - 1], isInitialData), es[|es| - 1], isInitialData)
  }

  /** The changed fields that belong to property group `g`, in changelist order. */
  function GroupFields(changes: seq<ChangedField>, g: SchemaComponentType): seq<Field> {
    if |changes| == 0 then []
    else
      var last := changes[|changes| - 1];
      GroupFields(changes[..|changes| - 1], g) + (if last.group == g then [Field(last.handle, last.content)] else [])
  }

  /** Exactly the changes of group `g` are kept. */
  lemma {:induction false} GroupFieldsExact(changes: seq<ChangedField>, g: SchemaComponentType)
    ensures forall f :: f in GroupFields(changes, g) <==> exists k :: 0 <= k < |changes| && changes[k].group == g && f == Field(changes[k].handle, changes[k].content)
  {
    if |changes| > 0 {
      var init := changes[..|changes| - 1];
      GroupFieldsExact(init, g);
      forall f
        ensures f in GroupFields(changes, g) <==> exists k :: 0 <= k < |changes| && changes[k].group == g && f == Field(changes[k].handle, changes[k].content)
      {
        if exists k :: 0 <= k < |changes| && changes[k].group == g && f == Field(changes[k].handle, changes[k].content) {
          var k :| 0 <= k < |changes| && changes[k].group == g && f == Field(changes[k].handle, changes[k].content);
          if k < |init| { assert init[k] == changes[k]; }
        }
        if exists k :: 0 <= k < |init| && init[k].group == g && f == Field(init[k].handle, init[k].content) {
          var k :| 0 <= k < |init| && init[k].group == g && f == Field(init[k].handle, init[k].content);
          assert changes[k] == init[k];
        }
      }
    }
  }

  /** Each handover handle is 1-based and within the class's handover properties. */
  predicate ValidHandoverHandles(handles: seq<FieldId>, properties: seq<Value>) {
    forall k :: 0 <= k < |handles| ==> 1 <= handles[k] <= |properties|
  }

  /** The handover fields: each changed handle with the property it indexes. */
  function HandoverFields(handles: seq<FieldId>, properties: seq<Value>): seq<Field>
    requires ValidHandoverHandles(handles, properties)
  {
    seq(|handles|, k requires 0 <= k < |handles| => Field(handles[k], PropertyContent(properties[handles[k] - 1])))
  }

  predicate DistinctHandles(es: seq<Encoding>) {
    forall a, b :: 0 <= a < b < |es| ==> es[a].handle != es[b].handle
  }

  /** Every encoding writes only its own field. */
  predicate OnOwnField(es: seq<Encoding>) {
    forall k, w :: 0 <= k < |es| && w in es[k].encoded.writes ==> w.field == es[k].handle
  }

  lemma {:induction false} EncodeFieldsAppend(fs: seq<Field>, f: Field, clearedSupplied: bool, env: ObjectEnv)
    ensures EncodeFields(fs + [f], clearedSupplied, env) == EncodeFields(fs, clearedSupplied, env) + [Encoding(f.handle, EncodeField(f, clearedSupplied, env))]
  {
    var l := EncodeFields(fs + [f], clearedSupplied, env);
    var r := EncodeFields(fs, clearedSupplied, env) + [Encoding(f.handle, EncodeField(f, clearedSupplied, env))];
    forall k | 0 <= k < |fs| ensures l[k] == r[k] {
      assert (fs + [f])[k] == fs[k];
    }
  }

  /** Encoded fields write only their own field, and report nothing as cleared without a cleared list. */
  lemma {:induction false} EncodeFieldsOnOwnField(fs: seq<Field>, clearedSupplied: bool, env: ObjectEnv)
    ensures OnOwnField(EncodeFields(fs, clearedSupplied, env))
    ensures !clearedSupplied ==> forall k :: 0 <= k < |fs| ==> EncodeFields(fs, clearedSupplied, env)[k].encoded.cleared == []
  {
    forall k | 0 <= k < |fs|
      ensures forall w :: w in EncodeField(fs[k], clearedSupplied, env).writes ==> w.field == fs[k].handle
      ensures !clearedSupplied ==> EncodeField(fs[k], clearedSupplied, env).cleared == []
    {
      EncodeFieldStaysOnField(fs[k], clearedSupplied, env);
    }
  }

  /** A fill wrote something iff some processed field had no unresolved objects. */
  lemma {:induction false} FillWroteIff(s: FillState, es: seq<Encoding>, isInitialData: bool)
    ensures Fill(s, es, isInitialData).wrote <==>
      s.wrote || exists k :: 0 <= k < |es| && es[k].encoded.unresolved == {}
  {
    if |es| > 0 {
      var init := es[..|es| - 1];
      FillWroteIff(s, init, isInitialData);
      if exists k :: 0 <= k < |init| && init[k].encoded.unresolved == {} {
        var k :| 0 <= k < |init| && init[k].encoded.unresolved == {};
        assert es[k] == init[k];
      }
      if exists k :: 0 <= k < |es| && es[k].encoded.unresolved == {} {
        var k :| 0 <= k < |es| && es[k].encoded.unresolved == {};
        if k < |init| { assert init[k] == es[k]; }
      }
    }
  }

  /** The interest flag ends set iff it was set or some processed field met an always-interested object property. */
  lemma {:induction false} FillInterestIff(s: FillState, es: seq<Encoding>, isInitialData: bool)
    ensures Fill(s, es, isInitialData).interestDirty <==>
      s.interestDirty || exists k :: 0 <= k < |es| && es[k].encoded.interestDirty
  {
    if |es| > 0 {
      var init := es[..|es| - 1];
      FillInterestIff(s, init, isInitialData);
      if exists k :: 0 <= k < |init| && init[k].encoded.interestDirty {
        var k :| 0 <= k < |init| && init[k].encoded.interestDirty;
        assert es[k] == init[k];
      }
      if exists k :: 0 <= k < |es| && es[k].encoded.interestDirty {
        var k :| 0 <= k < |es| && es[k].encoded.interestDirty;
        if k < |init| { assert init[k] == es[k]; }
      }
    }
  }

  /**
   * A handle ends up in the pending map iff it was there or some field with
   * that handle had unresolved objects; with distinct handles, such a field's
   * entry is exactly its unresolved set.
   */
  lemma {:induction false} FillPendingExact(s: FillState, es: seq<Encoding>, isInitialData: bool)
    ensures forall h :: h in Fill(s, es, isInitialData).pending <==>
      h in s.pending || exists k :: 0 <= k < |es| && es[k].handle == h && es[k].encoded.unresolved != {}
    ensures DistinctHandles(es) ==> forall k :: 0 <= k < |es| && es[k].encoded.unresolved != {} ==>
      Fill(s, es, isInitialData).pending[es[k].handle] == es[k].encoded.unresolved
  {
    if |es| > 0 {
      var init := es[..|es| - 1];
      var last := es[|es| - 1];
      FillPendingExact(s, init, isInitialData);
      var r := Fill(s, es, isInitialData);
      forall h
        ensures h in r.pending <==> h in s.pending || exists k :: 0 <= k < |es| && es[k].handle == h && es[k].encoded.unresolved != {}
      {
        if exists k :: 0 <= k < |es| && es[k].handle == h && es[k].encoded.unresolved != {} {
          var k :| 0 <= k < |es| && es[k].handle == h && es[k].encoded.unresolved != {};
          if k < |init| { assert init[k] == es[k]; }
        }
        if exists k :: 0 <= k < |init| && init[k].handle == h && init[k].encoded.unresolved != {} {
          var k :| 0 <= k < |init| && init[k].handle == h && init[k].encoded.unresolved != {};
          assert es[k] == init[k];
        }
      }
      if DistinctHandles(es) {
        assert DistinctHandles(init) by {
          forall a, b | 0 <= a < b < |init| ensures init[a].handle != init[b].handle {
            assert init[a] == es[a] && init[b] == es[b];
          }
        }
        forall k | 0 <= k < |es| && es[k].encoded.unresolved != {}
          ensures r.pending[es[k].handle] == es[k].encoded.unresolved
        {
          if k < |init| {
            assert init[k] == es[k];
            assert es[k].handle != last.handle;
          }
        }
      }
    }
  }

  /**
   * In a delta update (not initial data), with distinct handles, no write
   * remains for a field that had unresolved objects, provided none was there
   * before the fill.
   */
  lemma {:induction false} DeltaClearsUnresolvedFields(s: FillState, es: seq<Encoding>)
    requires DistinctHandles(es) && OnOwnField(es)
    requires forall w, k :: w in s.writes && 0 <= k < |es| ==> w.field != es[k].handle
    ensures forall k, w :: (0 <= k < |es| && es[k].encoded.unresolved != {} && w in Fill(s, es, false).writes) ==>
      w.field != es[k].handle
  {
    if |es| > 0 {
      var init := es[..|es| - 1];
      var last := es[|es| - 1];
      assert DistinctHandles(init) by {
        forall a, b | 0 <= a < b < |init| ensures init[a].handle != init[b].handle {
          assert init[a] == es[a] && init[b] == es[b];
        }
      }
      assert OnOwnField(init) by {
        forall k, w | 0 <= k < |init| && w in init[k].encoded.writes ensures w.field == init[k].handle {
          assert init[k] == es[k];
        }
      }
      forall w, k | w in s.writes && 0 <= k < |init| ensures w.field != init[k].handle {
        assert init[k] == es[k];
      }
      DeltaClearsUnresolvedFields(s, init);
      var prev := Fill(s, init, false);
      forall k, w | 0 <= k < |es| && es[k].encoded.unresolved != {} && w in Fill(s, es, false).writes
        ensures w.field != es[k].handle
      {
        if k < |init| {
          assert init[k] == es[k];
          assert es[k].handle != last.handle;
          assert w in prev.writes || w in last.encoded.writes;
        }
      }
    }
  }

  /** Initial data keeps every field's writes, and with no cleared ids reported none are added. */
  lemma {:induction false} InitialDataKeepsAllWrites(s: FillState, es: seq<Encoding>)
    requires forall k :: 0 <= k < |es| ==> es[k].encoded.cleared == []
    ensures forall k, w :: 0 <= k < |es| && w in es[k].encoded.writes ==> w in Fill(s, es, true).writes
    ensures forall w :: w in s.writes ==> w in Fill(s, es, true).writes
    ensures Fill(s, es, true).cleared == s.cleared
  {
    if |es| > 0 {
      var init := es[..|es| - 1];
      forall k | 0 <= k < |init| ensures init[k].encoded.cleared == [] {
        assert init[k] == es[k];
      }
      InitialDataKeepsAllWrites(s, init);
      forall k, w | 0 <= k < |es| && w in es[k].encoded.writes
        ensures w in Fill(s, es, true).writes
      {
        if k < |init| { assert init[k] == es[k]; }
      }
    }
  }

  // ---------------------------------------------------------------------
  // The factory.

  /** A component data: the id and the fields written into it. */
  datatype ComponentData = ComponentData(componentId: ComponentId, writes: seq<FieldWrite>)

  /** A component update: the id, the fields written, and the fields reported as cleared. */
  datatype ComponentUpdate =
    | FieldsUpdate(componentId: ComponentId, writes: seq<FieldWrite>, cleared: seq<FieldId>)
    | InterestUpdate(interest: InterestMap)

  /** The factory state a sequence of fills threads through. */
  datatype FactoryState = FactoryState(rep: map<FieldId, set<ObjectId>>, handover: map<FieldId, set<ObjectId>>, interestDirty: bool)

  /** One change of the replicated fill loop: a change of group `g` adds its encoding, any other change nothing. */
  lemma RepFieldsStep(changes: seq<ChangedField>, i: nat, g: SchemaComponentType, clearedSupplied: bool, env: ObjectEnv)
    requires i < |changes|
    ensures changes[i].group == g ==>
      EncodeFields(GroupFields(changes[..i + 1], g), clearedSupplied, env)
      == EncodeFields(GroupFields(changes[..i], g), clearedSupplied, env)
         + [Encoding(changes[i].handle, EncodeField(Field(changes[i].handle, changes[i].content), clearedSupplied, env))]
    ensures changes[i].group != g ==>
      EncodeFields(GroupFields(changes[..i + 1], g), clearedSupplied, env) == EncodeFields(GroupFields(changes[..i], g), clearedSupplied, env)
  {
    assert changes[..i + 1][..i] == changes[..i];
    var c := changes[i];
    var before := GroupFields(changes[..i], g);
    if c.group == g {
      assert GroupFields(changes[..i + 1], g) == before + [Field(c.handle, c.content)];
      EncodeFieldsAppend(before, Field(c.handle, c.content), clearedSupplied, env);
    } else {
      assert GroupFields(changes[..i + 1], g) == before;
    }
  }

  /** Encoding one more field is one more Step. */
  lemma HandoverEncodingAt(handles: seq<FieldId>, properties: seq<Value>, clearedSupplied: bool, env: ObjectEnv, i: nat)
    requires ValidHandoverHandles(handles, properties) && i < |handles|
    ensures EncodeFields(HandoverFields(handles, properties), clearedSupplied, env)[i]
      == Encoding(handles[i], AddProperty(handles[i], properties[handles[i] - 1], clearedSupplied, env))
  {
  }

  lemma FillAppend(s: FillState, es: seq<Encoding>, x: Encoding, isInitialData: bool)
    ensures Fill(s, es + [x], isInitialData) == Step(Fill(s, es, isInitialData), x, isInitialData)
  {
    assert (es + [x])[..|es|] == es;
  }

  function RepFill(st: FactoryState, changes: seq<ChangedField>, g: SchemaComponentType, isInitialData: bool, clearedSupplied: bool, env: ObjectEnv): FillState {
    Fill(FillState([], [], false, st.rep, st.interestDirty), EncodeFields(GroupFields(changes, g), clearedSupplied, env), isInitialData)
  }

  function HandoverFill(st: FactoryState, handles: seq<FieldId>, properties: seq<Value>, isInitialData: bool, clearedSupplied: bool, env: ObjectEnv): FillState
    requires ValidHandoverHandles(handles, properties)
  {
    Fill(FillState([], [], false, st.handover, st.interestDirty), EncodeFields(HandoverFields(handles, properties), clearedSupplied, env), isInitialData)
  }

  /** The delta update for one replicated group, if it wrote something, and the state after it. */
  function RepUpdate(st: FactoryState, id: ComponentId, changes: seq<ChangedField>, g: SchemaComponentType, env: ObjectEnv): (seq<ComponentUpdate>, FactoryState) {
    var r := RepFill(st, changes, g, false, true, env);
    (if r.wrote then [FieldsUpdate(id, r.writes, r.cleared)] else [], st.(rep := r.pending, interestDirty := r.interestDirty))
  }

  function HandoverUpdate(st: FactoryState, id: ComponentId, handles: seq<FieldId>, properties: seq<Value>, env: ObjectEnv): (seq<ComponentUpdate>, FactoryState)
    requires ValidHandoverHandles(handles, properties)
  {
    var r := HandoverFill(st, handles, properties, false, true, env);
    (if r.wrote then [FieldsUpdate(id, r.writes, r.cleared)] else [], st.(handover := r.pending, interestDirty := r.interestDirty))
  }

  /** The initial data of one replicated group, if the class has that component, and the state after it. */
  function RepDataStage(st: FactoryState, id: ComponentId, changes: seq<ChangedField>, g: SchemaComponentType, env: ObjectEnv): (seq<ComponentData>, FactoryState) {
    if id == INVALID_COMPONENT_ID then ([], st)
    else
      var r := RepFill(st, changes, g, true, false, env);
      ([ComponentData(id, r.writes)], st.(rep := r.pending, interestDirty := r.interestDirty))
  }

  /** The initial handover data, if the class has a handover component, and the state after it. */
  function HandoverDataStage(st: FactoryState, id: ComponentId, handles: seq<FieldId>, properties: seq<Value>, env: ObjectEnv): (seq<ComponentData>, FactoryState)
    requires ValidHandoverHandles(handles, properties)
  {
    if id == INVALID_COMPONENT_ID then ([], st)
    else
      var r := HandoverFill(st, handles, properties, true, false, env);
      ([ComponentData(id, r.writes)], st.(handover := r.pending, interestDirty := r.interestDirty))
  }

  /** The initial data of every component of the class, Data, OwnerOnly then Handover, threading the state. */
  function ComponentDatas(st: FactoryState, info: SchemaComponents, changes: seq<ChangedField>, handles: seq<FieldId>, properties: seq<Value>, env: ObjectEnv): (seq<ComponentData>, FactoryState)
    requires ValidHandoverHandles(handles, properties)
  {
    var data := RepDataStage(st, info.data, changes, TypeData, env);
    var owner := RepDataStage(data.1, info.ownerOnly, changes, TypeOwnerOnly, env);
    var hand := HandoverDataStage(owner.1, info.handover, handles, properties, env);
    (data.0 + owner.0 + hand.0, hand.1)
  }

  /**
   * There is one initial data per valid component id of the class, in the
   * order Data, OwnerOnly, Handover; the Data component's holds every write
   * of its group, and a group whose component is absent leaves its pending
   * map untouched.
   */
  lemma ComponentDatasExact(st: FactoryState, info: SchemaComponents, changes: seq<ChangedField>, handles: seq<FieldId>, properties: seq<Value>, env: ObjectEnv)
    requires ValidHandoverHandles(handles, properties)
    ensures var r := ComponentDatas(st, info, changes, handles, properties, env);
      |r.0| == |info.ValidIds()| && forall k :: 0 <= k < |r.0| ==> r.0[k].componentId == info.ValidIds()[k]
    ensures info.data != INVALID_COMPONENT_ID ==>
      ComponentDatas(st, info, changes, handles, properties, env).0[0] == ComponentData(info.data, RepFill(st, changes, TypeData, true, false, env).writes)
    ensures info.data == INVALID_COMPONENT_ID && info.ownerOnly == INVALID_COMPONENT_ID ==>
      ComponentDatas(st, info, changes, handles, properties, env).1.rep == st.rep
    ensures info.handover == INVALID_COMPONENT_ID ==>
      ComponentDatas(st, info, changes, handles, properties, env).1.handover == st.handover
  {
  }

  /** The replicated stage for component `id`: skipped when there are no changes or no such component. */
  function RepStage(st: FactoryState, id: ComponentId, rep: Option<seq<ChangedField>>, g: SchemaComponentType, env: ObjectEnv): (seq<ComponentUpdate>, FactoryState) {
    if rep.Some? && id != INVALID_COMPONENT_ID then RepUpdate(st, id, rep.value, g, env) else ([], st)
  }

  /** The handover stage: skipped when there are no changes or no handover component. */
  function HandoverStage(st: FactoryState, id: ComponentId, handover: Option<seq<FieldId>>, properties: seq<Value>, env: ObjectEnv): (seq<ComponentUpdate>, FactoryState)
    requires handover.Some? ==> ValidHandoverHandles(handover.value, properties)
  {
    if handover.Some? && id != INVALID_COMPONENT_ID then HandoverUpdate(st, id, handover.value, properties, env) else ([], st)
  }

  /** What CreateComponentUpdates yields, and the factory state after it. */
  function ComponentUpdates(st: FactoryState, isActor: bool, info: SchemaComponents,
                            rep: Option<seq<ChangedField>>, handover: Option<seq<FieldId>>, properties: seq<Value>,
                            interest: InterestFactory.Factory, env: ObjectEnv): (seq<ComponentUpdate>, FactoryState)
    requires handover.Some? ==> ValidHandoverHandles(handover.value, properties)
  {
    var data := RepStage(st, info.data, rep, TypeData, env);
    var owner := RepStage(data.1, info.ownerOnly, rep, TypeOwnerOnly, env);
    var hand := HandoverStage(owner.1, info.handover, handover, properties, env);
    var interestUpdates := if isActor && hand.1.interestDirty then [InterestUpdate(InterestFactory.CreateInterest(interest))] else [];
    (data.0 + owner.0 + hand.0 + interestUpdates, hand.1)
  }

  /** What an update says about its place in the order: the component it fills, or interest. */
  datatype UpdateTag = FieldsTag(id: ComponentId) | InterestTag

  function Tags(us: seq<ComponentUpdate>): (r: seq<UpdateTag>)
    ensures |r| == |us|
    ensures forall k :: 0 <= k < |us| ==> (r[k] == InterestTag <==> us[k].InterestUpdate?)
  {
    seq(|us|, k requires 0 <= k < |us| => if us[k].FieldsUpdate? then FieldsTag(us[k].componentId) else InterestTag)
  }

  lemma TagsAppend(a: seq<ComponentUpdate>, b: seq<ComponentUpdate>)
    ensures Tags(a + b) == Tags(a) + Tags(b)
  {
    assert forall k :: 0 <= k < |a| ==> (a + b)[k] == a[k];
    assert forall k :: |a| <= k < |a| + |b| ==> (a + b)[k] == b[k - |a|];
  }

  /** The tag the fill of component `id` contributes: one update iff the fill wrote something. */
  function FillTag(ok: bool, id: ComponentId): seq<UpdateTag> {
    if ok then [FieldsTag(id)] else []
  }

  /** A replicated group's stage runs (changes given, valid component id) and its fill writes something. */
  predicate RepStageWrote(st: FactoryState, id: ComponentId, rep: Option<seq<ChangedField>>, g: SchemaComponentType, env: ObjectEnv) {
    rep.Some? && id != INVALID_COMPONENT_ID && RepFill(st, rep.value, g, false, true, env).wrote
  }

  /** The handover stage runs (changes given, valid component id) and its fill writes something. */
  predicate HandoverStageWrote(st: FactoryState, id: ComponentId, handover: Option<seq<FieldId>>, properties: seq<Value>, env: ObjectEnv)
    requires handover.Some? ==> ValidHandoverHandles(handover.value, properties)
  {
    handover.Some? && id != INVALID_COMPONENT_ID && HandoverFill(st, handover.value, properties, false, true, env).wrote
  }

  lemma RepStageTag(st: FactoryState, id: ComponentId, rep: Option<seq<ChangedField>>, g: SchemaComponentType, env: ObjectEnv)
    ensures Tags(RepStage(st, id, rep, g, env).0) == FillTag(RepStageWrote(st, id, rep, g, env), id)
  {
  }

  lemma HandoverStageTag(st: FactoryState, id: ComponentId, handover: Option<seq<FieldId>>, properties: seq<Value>, env: ObjectEnv)
    requires handover.Some? ==> ValidHandoverHandles(handover.value, properties)
    ensures Tags(HandoverStage(st, id, handover, properties, env).0) == FillTag(HandoverStageWrote(st, id, handover, properties, env), id)
  {
  }

  /**
   * The updates come in the order Data, OwnerOnly, Handover, each present
   * iff its component id is valid, its change state was given and its fill
   * wrote something; an Interest update comes last iff the object is an
   * actor and interest is dirty after the fills.
   */
  lemma {:induction false} ComponentUpdatesOrder(st: FactoryState, isActor: bool, info: SchemaComponents,
                              rep: Option<seq<ChangedField>>, handover: Option<seq<FieldId>>, properties: seq<Value>,
                              interest: InterestFactory.Factory, env: ObjectEnv)
    requires handover.Some? ==> ValidHandoverHandles(handover.value, properties)
    ensures var r := ComponentUpdates(st, isActor, info, rep, handover, properties, interest, env);
      var st1 := RepStage(st, info.data, rep, TypeData, env).1;
      var st2 := RepStage(st1, info.ownerOnly, rep, TypeOwnerOnly, env).1;
      Tags(r.0) == FillTag(RepStageWrote(st, info.data, rep, TypeData, env), info.data)
                   + FillTag(RepStageWrote(st1, info.ownerOnly, rep, TypeOwnerOnly, env), info.ownerOnly)
                   + FillTag(HandoverStageWrote(st2, info.handover, handover, properties, env), info.handover)
                   + (if isActor && r.1.interestDirty then [InterestTag] else [])
  {
    var data := RepStage(st, info.data, rep, TypeData, env);
    var owner := RepStage(data.1, info.ownerOnly, rep, TypeOwnerOnly, env);
    var hand := HandoverStage(owner.1, info.handover, handover, properties, env);
    var interestUpdates := if isActor && hand.1.interestDirty then [InterestUpdate(InterestFactory.CreateInterest(interest))] else [];
    RepStageTag(st, info.data, rep, TypeData, env);
    RepStageTag(data.1, info.ownerOnly, rep, TypeOwnerOnly, env);
    HandoverStageTag(owner.1, info.handover, handover, properties, env);
    TagsAppend(data.0, owner.0);
    TagsAppend(data.0 + owner.0, hand.0);
    TagsAppend(data.0 + owner.0 + hand.0, interestUpdates);
  }

  /** The Interest update, when there is one, is the last update and carries the object's interest. */
  lemma InterestUpdateLast(st: FactoryState, isActor: bool, info: SchemaComponents,
                           rep: Option<seq<ChangedField>>, handover: Option<seq<FieldId>>, properties: seq<Value>,
                           interest: InterestFactory.Factory, env: ObjectEnv)
    requires handover.Some? ==> ValidHandoverHandles(handover.value, properties)
    ensures var r := ComponentUpdates(st, isActor, info, rep, handover, properties, interest, env);
      isActor && r.1.interestDirty ==> |r.0| > 0 && r.0[|r.0| - 1] == InterestUpdate(InterestFactory.CreateInterest(interest))
  {
  }

  class Factory {
    const env: ObjectEnv
    var pendingRepUnresolved: map<FieldId, set<ObjectId>>
    var pendingHandoverUnresolved: map<FieldId, set<ObjectId>>
    var interestHasChanged: bool

    /** The factory fills the caller's pending maps and interest flag. */
    constructor(env: ObjectEnv, repUnresolved: map<FieldId, set<ObjectId>>, handoverUnresolved: map<FieldId, set<ObjectId>>, interestDirty: bool)
      ensures this.env == env
      ensures pendingRepUnresolved == repUnresolved && pendingHandoverUnresolved == handoverUnresolved
      ensures interestHasChanged == interestDirty
    {
      this.env := env;
      pendingRepUnresolved := repUnresolved;
      pendingHandoverUnresolved := handoverUnresolved;
      interestHasChanged := interestDirty;
    }

    ghost function State(): FactoryState
      reads this
    {
      FactoryState(pendingRepUnresolved, pendingHandoverUnresolved, interestHasChanged)
    }

    /** Encodes the changed fields of property group `g`. */
    method FillSchemaObject(changes: seq<ChangedField>, g: SchemaComponentType, isInitialData: bool, clearedSupplied: bool)
      returns (writes: seq<FieldWrite>, cleared: seq<FieldId>, wrote: bool)
      modifies this
      ensures var r := RepFill(old(State()), changes, g, isInitialData, clearedSupplied, env);
        writes == r.writes && cleared == r.cleared && wrote == r.wrote
        && pendingRepUnresolved == r.pending && interestHasChanged == r.interestDirty
      ensures pendingHandoverUnresolved == old(pendingHandoverUnresolved)
    {
      ghost var s0 := FillState([], [], false, pendingRepUnresolved, interestHasChanged);
      writes, cleared, wrote := [], [], false;
      var i := 0;
      ghost var es: seq<Encoding> := [];
      while i < |changes|
        invariant 0 <= i <= |changes|
        invariant es == EncodeFields(GroupFields(changes[..i], g), clearedSupplied, env)
        invariant FillState(writes, cleared, wrote, pendingRepUnresolved, interestHasChanged) == Fill(s0, es, isInitialData)
        invariant pendingHandoverUnresolved == old(pendingHandoverUnresolved)
      {
        var c := changes[i];
        RepFieldsStep(changes, i, g, clearedSupplied, env);
        if c.group == g {
          var e := EncodeField(Field(c.handle, c.content), clearedSupplied, env);
          FillAppend(s0, es, Encoding(c.handle, e), isInitialData);
          writes := writes + e.writes;
          cleared := cleared + e.cleared;
          interestHasChanged := interestHasChanged || e.interestDirty;
          if e.unresolved == {} {
            wrote := true;
          } else {
            if !isInitialData {
              writes := ClearField(writes, c.handle);
            }
            pendingRepUnresolved := pendingRepUnresolved[c.handle := e.unresolved];
          }
          es := es + [Encoding(c.handle, e)];
        }
        i := i + 1;
      }
      assert changes[..i] == changes;
    }

    /** Encodes the changed handover fields; every handle must index a handover property. */
    method FillHandoverSchemaObject(handles: seq<FieldId>, properties: seq<Value>, isInitialData: bool, clearedSupplied: bool)
      returns (writes: seq<FieldWrite>, cleared: seq<FieldId>, wrote: bool)
      requires ValidHandoverHandles(handles, properties)
      modifies this
      ensures var r := HandoverFill(old(State()), handles, properties, isInitialData, clearedSupplied, env);
        writes == r.writes && cleared == r.cleared && wrote == r.wrote
        && pendingHandoverUnresolved == r.pending && interestHasChanged == r.interestDirty
      ensures pendingRepUnresolved == old(pendingRepUnresolved)
    {
      ghost var s0 := FillState([], [], false, pendingHandoverUnresolved, interestHasChanged);
      ghost var es := EncodeFields(HandoverFields(handles, properties), clearedSupplied, env);
      writes, cleared, wrote := [], [], false;
      var i := 0;
      ghost var done: seq<Encoding> := [];
      while i < |handles|
        invariant 0 <= i <= |handles|
        invariant done == es[..i]
        invariant FillState(writes, cleared, wrote, pendingHandoverUnresolved, interestHasChanged) == Fill(s0, done, isInitialData)
        invariant pendingRepUnresolved == old(pendingRepUnresolved)
      {
        var h := handles[i];
        var e := AddProperty(h, properties[h - 1], clearedSupplied, env);
        HandoverEncodingAt(handles, properties, clearedSupplied, env, i);
        assert es[..i + 1] == es[..i] + [es[i]];
        FillAppend(s0, done, Encoding(h, e), isInitialData);
        writes := writes + e.writes;
        cleared := cleared + e.cleared;
        interestHasChanged := interestHasChanged || e.interestDirty;
        if e.unresolved == {} {
          wrote := true;
        } else {
          if !isInitialData {
            writes := ClearField(writes, h);
          }
          pendingHandoverUnresolved := pendingHandoverUnresolved[h := e.unresolved];
        }
        done := done + [Encoding(h, e)];
        i := i + 1;
      }
      assert es[..i] == es;
    }

    /** Initial data for one replicated group: every field kept, no cleared list. */
    method CreateComponentData(id: ComponentId, changes: seq<ChangedField>, g: SchemaComponentType) returns (data: ComponentData)
      modifies this
      ensures var r := RepFill(old(State()), changes, g, true, false, env);
        data == ComponentData(id, r.writes) && pendingRepUnresolved == r.pending && interestHasChanged == r.interestDirty
      ensures pendingHandoverUnresolved == old(pendingHandoverUnresolved)
    {
      var writes, _, _ := FillSchemaObject(changes, g, true, false);
      data := ComponentData(id, writes);
    }

    /** Initial handover data: every field kept, no cleared list. */
    method CreateHandoverComponentData(id: ComponentId, handles: seq<FieldId>, properties: seq<Value>) returns (data: ComponentData)
      requires ValidHandoverHandles(handles, properties)
      modifies this
      ensures var r := HandoverFill(old(State()), handles, properties, true, false, env);
        data == ComponentData(id, r.writes) && pendingHandoverUnresolved == r.pending && interestHasChanged == r.interestDirty
      ensures pendingRepUnresolved == old(pendingRepUnresolved)
    {
      var writes, _, _ := FillHandoverSchemaObject(handles, properties, true, false);
      data := ComponentData(id, writes);
    }

    /** The initial data of every schema component the class has, in the order Data, OwnerOnly, Handover. */
    method CreateComponentDatas(info: SchemaComponents, changes: seq<ChangedField>, handles: seq<FieldId>, properties: seq<Value>)
      returns (datas: seq<ComponentData>)
      requires ValidHandoverHandles(handles, properties)
      modifies this
      ensures (datas, State()) == ComponentDatas(old(State()), info, changes, handles, properties, env)
      ensures |datas| == |info.ValidIds()|
      ensures forall k :: 0 <= k < |datas| ==> datas[k].componentId == info.ValidIds()[k]
    {
      ghost var st0 := State();
      ComponentDatasExact(st0, info, changes, handles, properties, env);
      datas := [];
      if info.data != INVALID_COMPONENT_ID {
        var d := CreateComponentData(info.data, changes, TypeData);
        datas := datas + [d];
      }
      ghost var data := RepDataStage(st0, info.data, changes, TypeData, env);
      assert datas == data.0 && State() == FactoryState(data.1.rep, data.1.handover, data.1.interestDirty);
      if info.ownerOnly != INVALID_COMPONENT_ID {
        var d := CreateComponentData(info.ownerOnly, changes, TypeOwnerOnly);
        datas := datas + [d];
      }
      ghost var owner := RepDataStage(data.1, info.ownerOnly, changes, TypeOwnerOnly, env);
      assert datas == data.0 + owner.0 && State() == FactoryState(owner.1.rep, owner.1.handover, owner.1.interestDirty);
      if info.handover != INVALID_COMPONENT_ID {
        var d := CreateHandoverComponentData(info.handover, handles, properties);
        datas := datas + [d];
      }
      ghost var hand := HandoverDataStage(owner.1, info.handover, handles, properties, env);
      assert datas == data.0 + owner.0 + hand.0 && State() == FactoryState(hand.1.rep, hand.1.handover, hand.1.interestDirty);
    }

    /** A delta update for one replicated group, with a cleared list; `wrote` says whether to send it. */
    method CreateComponentUpdate(id: ComponentId, changes: seq<ChangedField>, g: SchemaComponentType) returns (update: ComponentUpdate, wrote: bool)
      modifies this
      ensures var r := RepFill(old(State()), changes, g, false, true, env);
        update == FieldsUpdate(id, r.writes, r.cleared) && wrote == r.wrote
        && pendingRepUnresolved == r.pending && interestHasChanged == r.interestDirty
      ensures pendingHandoverUnresolved == old(pendingHandoverUnresolved)
    {
      var writes, cleared, w := FillSchemaObject(changes, g, false, true);
      update := FieldsUpdate(id, writes, cleared);
      wrote := w;
    }

    /** A delta handover update, with a cleared list; `wrote` says whether to send it. */
    method CreateHandoverComponentUpdate(id: ComponentId, handles: seq<FieldId>, properties: seq<Value>) returns (update: ComponentUpdate, wrote: bool)
      requires ValidHandoverHandles(handles, properties)
      modifies this
      ensures var r := HandoverFill(old(State()), handles, properties, false, true, env);
        update == FieldsUpdate(id, r.writes, r.cleared) && wrote == r.wrote
        && pendingHandoverUnresolved == r.pending && interestHasChanged == r.interestDirty
      ensures pendingRepUnresolved == old(pendingRepUnresolved)
    {
      var writes, cleared, w := FillHandoverSchemaObject(handles, properties, false, true);
      update := FieldsUpdate(id, writes, cleared);
      wrote := w;
    }

    /** The updates to send for an object's changes; see ComponentUpdatesOrder for their order. */
    method CreateComponentUpdates(isActor: bool, info: SchemaComponents,
                                  rep: Option<seq<ChangedField>>, handover: Option<seq<FieldId>>, properties: seq<Value>,
                                  interest: InterestFactory.Factory)
      returns (updates: seq<ComponentUpdate>)
      requires handover.Some? ==> ValidHandoverHandles(handover.value, properties)
      modifies this
      ensures (updates, State()) == ComponentUpdates(old(State()), isActor, info, rep, handover, properties, interest, env)
    {
      ghost var st0 := State();
      var dataUpdates := RepStageUpdates(info.data, rep, TypeData);
      var ownerUpdates := RepStageUpdates(info.ownerOnly, rep, TypeOwnerOnly);
      var handoverUpdates := HandoverStageUpdates(info.handover, handover, properties);
      updates := dataUpdates + ownerUpdates + handoverUpdates;
      if isActor && interestHasChanged {
        updates := updates + [InterestUpdate(InterestFactory.CreateInterest(interest))];
      }
      ghost var spec := ComponentUpdates(st0, isActor, info, rep, handover, properties, interest, env);
      assert spec.1 == State();
      assert updates == spec.0;
    }

    /** One replicated group's stage of CreateComponentUpdates. */
    method RepStageUpdates(id: ComponentId, rep: Option<seq<ChangedField>>, g: SchemaComponentType) returns (updates: seq<ComponentUpdate>)
      modifies this
      ensures (updates, State()) == RepStage(old(State()), id, rep, g, env)
    {
      updates := [];
      if rep.Some? && id != INVALID_COMPONENT_ID {
        var u, wrote := CreateComponentUpdate(id, rep.value, g);
        if wrote {
          updates := [u];
        }
      }
    }

    /** The handover stage of CreateComponentUpdates. */
    method HandoverStageUpdates(id: ComponentId, handover: Option<seq<FieldId>>, properties: seq<Value>) returns (updates: seq<ComponentUpdate>)
      requires handover.Some? ==> ValidHandoverHandles(handover.value, properties)
      modifies this
      ensures (updates, State()) == HandoverStage(old(State()), id, handover, properties, env)
    {
      updates := [];
      if handover.Some? && id != INVALID_COMPONENT_ID {
        var u, wrote := CreateHandoverComponentUpdate(id, handover.value, properties);
        if wrote {
          updates := [u];
        }
      }
    }
  }
}
