/**
 * Builds the Interest component of an actor's entity: which other entities
 * the workers holding it should see.
 *
 * The actor is seen through `ActorView`: whether it has a net connection,
 * the checkout radius of each of its actor-interest components, its
 * always-interested fields (an object field or an array of objects), and,
 * for a connected actor, the levels its client has made visible. The
 * package map's object-to-reference lookup is the function `refOf`.
 */
module InterestFactory {
  import opened Constants
  import opened Interest
  import SchemaDatabase

  datatype InterestField =
    | ObjectField(value: Option<ObjectId>)
    | ArrayField(elements: seq<Option<ObjectId>>)

  datatype ActorView = ActorView(
    hasNetConnection: bool,
    checkoutRadii: seq<real>,
    interestFields: seq<InterestField>,
    clientVisibleLevels: seq<string>)

  datatype Factory = Factory(
    usingQBI: bool,
    actor: ActorView,
    refOf: ObjectId -> ObjectRef,
    db: SchemaDatabase.Database,
    removePIEPrefix: string -> string)

  // ---------------------------------------------------------------------
  // Actor-interest radius: a running maximum.

  function Max(a: real, b: real): real {
    if a < b then b else a
  }

  /** The running maximum of radius/100 over the components, starting at 0. */
  function CheckoutRadius(radii: seq<real>): real {
    if |radii| == 0 then 0.0
    else Max(CheckoutRadius(radii[..|radii| - 1]), radii[|radii| - 1] / 100.0)
  }

  predicate NonNegative(radii: seq<real>) {
    forall i :: 0 <= i < |radii| ==> radii[i] >= 0.0
  }

  /** The checkout radius is the largest radius/100, or 0 when there is no component. */
  lemma {:induction false} CheckoutRadiusIsMaximum(radii: seq<real>)
    requires NonNegative(radii)
    ensures CheckoutRadius(radii) >= 0.0
    ensures forall i :: 0 <= i < |radii| ==> CheckoutRadius(radii) >= radii[i] / 100.0
    ensures |radii| == 0 ==> CheckoutRadius(radii) == 0.0
    ensures |radii| > 0 ==> exists i :: 0 <= i < |radii| && CheckoutRadius(radii) == radii[i] / 100.0
  {
    if |radii| > 0 {
      var init := radii[..|radii| - 1];
      assert forall i :: 0 <= i < |init| ==> init[i] == radii[i];
      CheckoutRadiusIsMaximum(init);
      var last := |radii| - 1;
      if CheckoutRadius(init) < radii[last] / 100.0 {
        assert CheckoutRadius(radii) == radii[last] / 100.0;
      } else if |init| == 0 {
        assert CheckoutRadius(radii) == radii[last] / 100.0;
      } else {
        var i :| 0 <= i < |init| && CheckoutRadius(init) == init[i] / 100.0;
        assert CheckoutRadius(radii) == radii[i] / 100.0;
      }
    }
  }

  /** The actor-interest constraint: a relative cylinder of the checkout radius. */
  function ActorInterestConstraint(radii: seq<real>): QueryConstraint {
    RelativeCylinder(CheckoutRadius(radii))
  }

  /** Computes the actor-interest constraint with the source's running-maximum loop. */
  method CreateActorInterestConstraint(radii: seq<real>) returns (c: QueryConstraint)
    requires NonNegative(radii)
    ensures c == ActorInterestConstraint(radii)
    ensures c.RelativeCylinder? && c.relativeCylinderRadius >= 0.0
  {
    var radius := 0.0;
    var i := 0;
    while i < |radii|
      invariant 0 <= i <= |radii|
      invariant radius == CheckoutRadius(radii[..i])
      invariant radius >= 0.0
    {
      assert radii[..i + 1][..i] == radii[..i];
      radius := Max(radius, radii[i] / 100.0);
      i := i + 1;
    }
    assert radii[..i] == radii;
    c := RelativeCylinder(radius);
  }

  // ---------------------------------------------------------------------
  // Always-interested objects.

  /** Object `o` is present and the package map gives it a valid reference to entity `e`. */
  predicate RefersTo(o: Option<ObjectId>, refOf: ObjectId -> ObjectRef, e: EntityId) {
    o.Some? && refOf(o.value).IsValid() && refOf(o.value).entity == e
  }

  /** Appends an entity-id constraint for `o` when it is non-null and its reference is valid. */
  function AddObjectToConstraint(children: seq<QueryConstraint>, o: Option<ObjectId>, refOf: ObjectId -> ObjectRef): (r: seq<QueryConstraint>)
    ensures |r| == |children| + (if o.Some? && refOf(o.value).IsValid() then 1 else 0)
    ensures r[..|children|] == children
    ensures forall c :: c in r[|children|..] <==> exists e :: c == EntityIdConstraint(e) && RefersTo(o, refOf, e)
  {
    if o.None? then children
    else
      var ref := refOf(o.value);
      if !ref.IsValid() then children
      else children + [EntityIdConstraint(ref.entity)]
  }

  /** The array-field loop: each element in order. */
  function AddObjects(children: seq<QueryConstraint>, elements: seq<Option<ObjectId>>, refOf: ObjectId -> ObjectRef): seq<QueryConstraint> {
    if |elements| == 0 then children
    else AddObjectToConstraint(AddObjects(children, elements[..|elements| - 1], refOf), elements[|elements| - 1], refOf)
  }

  function AddField(children: seq<QueryConstraint>, f: InterestField, refOf: ObjectId -> ObjectRef): seq<QueryConstraint> {
    match f
    case ObjectField(o) => AddObjectToConstraint(children, o, refOf)
    case ArrayField(es) => AddObjects(children, es, refOf)
  }

  /** The field loop: each always-interested field in order. */
  function AddFields(children: seq<QueryConstraint>, fields: seq<InterestField>, refOf: ObjectId -> ObjectRef): seq<QueryConstraint> {
    if |fields| == 0 then children
    else AddField(AddFields(children, fields[..|fields| - 1], refOf), fields[|fields| - 1], refOf)
  }

  function AlwaysInterestedConstraint(fields: seq<InterestField>, refOf: ObjectId -> ObjectRef): QueryConstraint {
    Or(AddFields([], fields, refOf))
  }

  /** Field `f` holds, directly or as an array element, an object referring to `e`. */
  predicate FieldRefersTo(f: InterestField, refOf: ObjectId -> ObjectRef, e: EntityId) {
    match f
    case ObjectField(o) => RefersTo(o, refOf, e)
    case ArrayField(es) => exists j :: 0 <= j < |es| && RefersTo(es[j], refOf, e)
  }

  lemma {:induction false} AddObjectsExact(children: seq<QueryConstraint>, es: seq<Option<ObjectId>>, refOf: ObjectId -> ObjectRef)
    ensures forall c :: c in AddObjects(children, es, refOf) <==>
      c in children || exists e, j :: c == EntityIdConstraint(e) && 0 <= j < |es| && RefersTo(es[j], refOf, e)
  {
    if |es| > 0 {
      var init := es[..|es| - 1];
      var last := es[|es| - 1];
      AddObjectsExact(children, init, refOf);
      var prev := AddObjects(children, init, refOf);
      var r := AddObjectToConstraint(prev, last, refOf);
      assert r == prev + r[|prev|..];
      forall c
        ensures c in r <==> c in children || exists e, j :: c == EntityIdConstraint(e) && 0 <= j < |es| && RefersTo(es[j], refOf, e)
      {
        if exists e, j :: c == EntityIdConstraint(e) && 0 <= j < |es| && RefersTo(es[j], refOf, e) {
          var e, j :| c == EntityIdConstraint(e) && 0 <= j < |es| && RefersTo(es[j], refOf, e);
          if j < |init| {
            assert init[j] == es[j];
          } else {
            assert c in r[|prev|..];
          }
        }
        if c in prev && !(c in children) {
          var e, j :| c == EntityIdConstraint(e) && 0 <= j < |init| && RefersTo(init[j], refOf, e);
          assert es[j] == init[j];
        }
        if c in r[|prev|..] {
          var e :| c == EntityIdConstraint(e) && RefersTo(last, refOf, e);
          assert es[|es| - 1] == last;
        }
      }
    }
  }

  lemma {:induction false} AddFieldsExact(children: seq<QueryConstraint>, fields: seq<InterestField>, refOf: ObjectId -> ObjectRef)
    ensures forall c :: c in AddFields(children, fields, refOf) <==>
      c in children || exists e, i :: c == EntityIdConstraint(e) && 0 <= i < |fields| && FieldRefersTo(fields[i], refOf, e)
  {
    if |fields| > 0 {
      var init := fields[..|fields| - 1];
      var last := fields[|fields| - 1];
      AddFieldsExact(children, init, refOf);
      var prev := AddFields(children, init, refOf);
      var r := AddField(prev, last, refOf);
      forall c
        ensures c in r <==> c in prev || exists e :: c == EntityIdConstraint(e) && FieldRefersTo(last, refOf, e)
      {
        match last
        case ObjectField(o) =>
          assert r == prev + r[|prev|..];
        case ArrayField(es) =>
          AddObjectsExact(prev, es, refOf);
          if exists e :: c == EntityIdConstraint(e) && FieldRefersTo(last, refOf, e) {
            var e :| c == EntityIdConstraint(e) && FieldRefersTo(last, refOf, e);
            var j :| 0 <= j < |es| && RefersTo(es[j], refOf, e);
          }
      }
      forall c
        ensures c in r <==> c in children || exists e, i :: c == EntityIdConstraint(e) && 0 <= i < |fields| && FieldRefersTo(fields[i], refOf, e)
      {
        if exists e, i :: c == EntityIdConstraint(e) && 0 <= i < |fields| && FieldRefersTo(fields[i], refOf, e) {
          var e, i :| c == EntityIdConstraint(e) && 0 <= i < |fields| && FieldRefersTo(fields[i], refOf, e);
          if i < |init| { assert init[i] == fields[i]; } else { assert fields[i] == last; }
        }
        if c in prev && !(c in children) {
          var e, i :| c == EntityIdConstraint(e) && 0 <= i < |init| && FieldRefersTo(init[i], refOf, e);
          assert fields[i] == init[i];
        }
        if exists e :: c == EntityIdConstraint(e) && FieldRefersTo(last, refOf, e) {
          var e :| c == EntityIdConstraint(e) && FieldRefersTo(last, refOf, e);
          assert fields[|fields| - 1] == last;
        }
      }
    }
  }

  /**
   * The always-interested Or holds only entity-id constraints, and holds one
   * for entity `e` iff some field or array element is a non-null object whose
   * reference is valid and names `e`.
   */
  lemma {:induction false} AlwaysInterestedExact(fields: seq<InterestField>, refOf: ObjectId -> ObjectRef)
    ensures forall c :: c in AlwaysInterestedConstraint(fields, refOf).orChildren ==> c.EntityIdConstraint?
    ensures forall e :: EntityIdConstraint(e) in AlwaysInterestedConstraint(fields, refOf).orChildren <==>
      exists i :: 0 <= i < |fields| && FieldRefersTo(fields[i], refOf, e)
  {
    AddFieldsExact([], fields, refOf);
  }

  /** Computes the always-interested constraint with the source's nested field/element loops. */
  method CreateAlwaysInterestedConstraint(fields: seq<InterestField>, refOf: ObjectId -> ObjectRef) returns (c: QueryConstraint)
    ensures c == AlwaysInterestedConstraint(fields, refOf)
  {
    var children: seq<QueryConstraint> := [];
    var i := 0;
    while i < |fields|
      invariant 0 <= i <= |fields|
      invariant children == AddFields([], fields[..i], refOf)
    {
      assert fields[..i + 1][..i] == fields[..i];
      match fields[i] {
        case ObjectField(o) =>
          children := AddObjectToConstraint(children, o, refOf);
        case ArrayField(es) =>
          ghost var before := children;
          var j := 0;
          while j < |es|
            invariant 0 <= j <= |es|
            invariant children == AddObjects(before, es[..j], refOf)
          {
            assert es[..j + 1][..j] == es[..j];
            children := AddObjectToConstraint(children, es[j], refOf);
            j := j + 1;
          }
          assert es[..j] == es;
      }
      i := i + 1;
    }
    assert fields[..i] == fields;
    c := Or(children);
  }

  // ---------------------------------------------------------------------
  // Level constraints.

  /** Appends a component constraint for `level` when the schema database knows its id. */
  function AddLevel(children: seq<QueryConstraint>, level: string, db: SchemaDatabase.Database, strip: string -> string): seq<QueryConstraint> {
    var id := db.GetComponentIdFromLevelPath(level, strip);
    if id != INVALID_COMPONENT_ID then children + [ComponentConstraint(id)] else children
  }

  function AddLevels(children: seq<QueryConstraint>, levels: seq<string>, db: SchemaDatabase.Database, strip: string -> string): (r: seq<QueryConstraint>)
    ensures |r| >= |children| && r[..|children|] == children
  {
    if |levels| == 0 then children
    else AddLevel(AddLevels(children, levels[..|levels| - 1], db, strip), levels[|levels| - 1], db, strip)
  }

  function LevelConstraint(levels: seq<string>, db: SchemaDatabase.Database, strip: string -> string): QueryConstraint {
    Or(AddLevels([ComponentConstraint(NOT_STREAMED_COMPONENT_ID)], levels, db, strip))
  }

  /** Level `l`'s id as the schema database reports it is `id`, and it is known. */
  predicate KnownLevel(l: string, db: SchemaDatabase.Database, strip: string -> string, id: ComponentId) {
    id != INVALID_COMPONENT_ID && db.GetComponentIdFromLevelPath(l, strip) == id
  }

  lemma {:induction false} AddLevelsExact(children: seq<QueryConstraint>, levels: seq<string>, db: SchemaDatabase.Database, strip: string -> string)
    ensures AddLevels(children, levels, db, strip)[..|children|] == children
    ensures forall c :: c in AddLevels(children, levels, db, strip) <==>
      c in children || exists id, k :: c == ComponentConstraint(id) && 0 <= k < |levels| && KnownLevel(levels[k], db, strip, id)
  {
    if |levels| > 0 {
      var init := levels[..|levels| - 1];
      var last := levels[|levels| - 1];
      AddLevelsExact(children, init, db, strip);
      var prev := AddLevels(children, init, db, strip);
      forall c
        ensures c in AddLevels(children, levels, db, strip) <==>
          c in children || exists id, k :: c == ComponentConstraint(id) && 0 <= k < |levels| && KnownLevel(levels[k], db, strip, id)
      {
        if exists id, k :: c == ComponentConstraint(id) && 0 <= k < |levels| && KnownLevel(levels[k], db, strip, id) {
          var id, k :| c == ComponentConstraint(id) && 0 <= k < |levels| && KnownLevel(levels[k], db, strip, id);
          if k < |init| { assert init[k] == levels[k]; }
        }
        if c in prev && !(c in children) {
          var id, k :| c == ComponentConstraint(id) && 0 <= k < |init| && KnownLevel(init[k], db, strip, id);
          assert levels[k] == init[k];
        }
      }
    }
  }

  /**
   * The level constraint is an Or whose first child is the not-streamed
   * component, and which holds a component constraint for id `id` (other
   * than that one) iff some visible level has the known id `id`.
   */
  lemma {:induction false} LevelConstraintExact(levels: seq<string>, db: SchemaDatabase.Database, strip: string -> string)
    ensures var cs := LevelConstraint(levels, db, strip).orChildren;
      |cs| >= 1 && cs[0] == ComponentConstraint(NOT_STREAMED_COMPONENT_ID)
    ensures forall c :: c in LevelConstraint(levels, db, strip).orChildren ==> c.ComponentConstraint?
    ensures forall id :: id != NOT_STREAMED_COMPONENT_ID ==>
      (ComponentConstraint(id) in LevelConstraint(levels, db, strip).orChildren <==>
       exists k :: 0 <= k < |levels| && KnownLevel(levels[k], db, strip, id))
  {
    AddLevelsExact([ComponentConstraint(NOT_STREAMED_COMPONENT_ID)], levels, db, strip);
  }

  /** Computes the level constraint with the source's loop over visible levels. */
  method CreateLevelConstraints(levels: seq<string>, db: SchemaDatabase.Database, strip: string -> string) returns (c: QueryConstraint)
    ensures c == LevelConstraint(levels, db, strip)
  {
    var children := [ComponentConstraint(NOT_STREAMED_COMPONENT_ID)];
    var i := 0;
    while i < |levels|
      invariant 0 <= i <= |levels|
      invariant children == AddLevels([ComponentConstraint(NOT_STREAMED_COMPONENT_ID)], levels[..i], db, strip)
    {
      assert levels[..i + 1][..i] == levels[..i];
      var id := db.GetComponentIdFromLevelPath(levels[i], strip);
      if id != INVALID_COMPONENT_ID {
        children := children + [ComponentConstraint(id)];
      }
      i := i + 1;
    }
    assert levels[..i] == levels;
    c := Or(children);
  }

  // ---------------------------------------------------------------------
  // Combining the constraints into an Interest.

  /** The Or of whichever of the actor-interest and always-interested constraints are valid. */
  function SystemDefinedConstraints(f: Factory): QueryConstraint {
    Or(FilterValid([ActorInterestConstraint(f.actor.checkoutRadii), AlwaysInterestedConstraint(f.actor.interestFields, f.refOf)]))
  }

  /** No user-defined constraint is produced: always the empty constraint. */
  function UserDefinedConstraints(): (c: QueryConstraint)
    ensures !IsValid(c)
  {
    Unset
  }

  /** The Or of whichever of the system- and user-defined constraints are valid. */
  function DefinedConstraints(f: Factory): QueryConstraint {
    Or(FilterValid([SystemDefinedConstraints(f), UserDefinedConstraints()]))
  }

  /** Server interest: one full-snapshot query on the defined constraint, under the position component. */
  function CreateActorInterest(f: Factory): (r: InterestMap)
    ensures r.Keys <= {POSITION_COMPONENT_ID}
    ensures POSITION_COMPONENT_ID in r <==> IsValid(DefinedConstraints(f))
    ensures POSITION_COMPONENT_ID in r ==> r[POSITION_COMPONENT_ID] == [FullSnapshotQuery(DefinedConstraints(f))]
  {
    var defined := DefinedConstraints(f);
    if !IsValid(defined) then map[]
    else map[POSITION_COMPONENT_ID := [FullSnapshotQuery(defined)]]
  }

  /** The client's constraint: the And of whichever of the defined and level constraints are valid. */
  function ClientConstraint(f: Factory): QueryConstraint {
    And(FilterValid([DefinedConstraints(f), LevelConstraint(f.actor.clientVisibleLevels, f.db, f.removePIEPrefix)]))
  }

  /**
   * Interest of an actor owned by a connection: the server query under the
   * position component when the defined constraint is valid, and the client
   * query under the client RPC endpoint when the client constraint is valid.
   */
  function CreatePlayerOwnedActorInterest(f: Factory): (r: InterestMap)
    requires f.actor.hasNetConnection
    ensures r.Keys <= {POSITION_COMPONENT_ID, CLIENT_RPC_ENDPOINT_COMPONENT_ID}
    ensures POSITION_COMPONENT_ID in r <==> IsValid(DefinedConstraints(f))
    ensures CLIENT_RPC_ENDPOINT_COMPONENT_ID in r <==> IsValid(ClientConstraint(f))
    ensures POSITION_COMPONENT_ID in r ==> r[POSITION_COMPONENT_ID] == [FullSnapshotQuery(DefinedConstraints(f))]
    ensures CLIENT_RPC_ENDPOINT_COMPONENT_ID in r ==> r[CLIENT_RPC_ENDPOINT_COMPONENT_ID] == [FullSnapshotQuery(ClientConstraint(f))]
  {
    var defined := DefinedConstraints(f);
    var client := ClientConstraint(f);
    var server: InterestMap := if IsValid(defined) then map[POSITION_COMPONENT_ID := [FullSnapshotQuery(defined)]] else map[];
    if IsValid(client) then server[CLIENT_RPC_ENDPOINT_COMPONENT_ID := [FullSnapshotQuery(client)]] else server
  }

  /** The entity's Interest: empty without query-based interest, else by ownership. */
  function CreateInterest(f: Factory): (r: InterestMap)
    ensures !f.usingQBI ==> r == map[]
    ensures f.usingQBI && f.actor.hasNetConnection ==> r == CreatePlayerOwnedActorInterest(f)
    ensures f.usingQBI && !f.actor.hasNetConnection ==> r == CreateActorInterest(f)
  {
    if !f.usingQBI then map[]
    else if f.actor.hasNetConnection then CreatePlayerOwnedActorInterest(f)
    else CreateActorInterest(f)
  }

  // ---------------------------------------------------------------------
  // What the combination guarantees.

  /**
   * The system-defined constraint always holds the actor-interest cylinder
   * first, so the defined constraint is always valid and is the Or of
   * exactly the system-defined constraint; both trees are well formed.
   */
  lemma {:induction false} DefinedConstraintsAlwaysValid(f: Factory)
    ensures IsValid(SystemDefinedConstraints(f)) && WellFormed(SystemDefinedConstraints(f))
    ensures SystemDefinedConstraints(f).orChildren[0] == ActorInterestConstraint(f.actor.checkoutRadii)
    ensures DefinedConstraints(f) == Or([SystemDefinedConstraints(f)])
    ensures IsValid(DefinedConstraints(f)) && WellFormed(DefinedConstraints(f))
  {
    var cyl := ActorInterestConstraint(f.actor.checkoutRadii);
    var always := AlwaysInterestedConstraint(f.actor.interestFields, f.refOf);
    AlwaysInterestedExact(f.actor.interestFields, f.refOf);
    forall i | 0 <= i < |always.orChildren|
      ensures IsValid(always.orChildren[i]) && WellFormed(always.orChildren[i])
    {
      assert always.orChildren[i] in always.orChildren;
    }
    assert FilterValid([cyl, always]) == [cyl] + FilterValid([always]);
    var sys := SystemDefinedConstraints(f);
    assert sys.orChildren[0] == cyl;
    assert IsValid(sys);
    assert FilterValid([sys, UserDefinedConstraints()]) == [sys];
  }

  /** The level constraint is always valid and well formed. */
  lemma {:induction false} LevelConstraintValid(levels: seq<string>, db: SchemaDatabase.Database, strip: string -> string)
    ensures IsValid(LevelConstraint(levels, db, strip)) && WellFormed(LevelConstraint(levels, db, strip))
  {
    LevelConstraintExact(levels, db, strip);
    var cs := LevelConstraint(levels, db, strip).orChildren;
    assert IsValid(cs[0]);
    forall i | 0 <= i < |cs|
      ensures IsValid(cs[i]) && WellFormed(cs[i])
    {
      assert cs[i] in cs;
    }
  }

  /**
   * With query-based interest on, an unowned actor's Interest is exactly
   * one full-snapshot query on the defined constraint under the position
   * component; an owned actor's Interest adds one under the client RPC
   * endpoint whose constraint is the And of the defined and the level
   * constraints. Every constraint produced is well formed.
   */
  lemma {:induction false} InterestShape(f: Factory)
    requires f.usingQBI
    ensures !f.actor.hasNetConnection ==>
      CreateInterest(f) == map[POSITION_COMPONENT_ID := [FullSnapshotQuery(DefinedConstraints(f))]]
    ensures f.actor.hasNetConnection ==>
      CreateInterest(f) == map[POSITION_COMPONENT_ID := [FullSnapshotQuery(DefinedConstraints(f))],
                               CLIENT_RPC_ENDPOINT_COMPONENT_ID := [FullSnapshotQuery(And([DefinedConstraints(f), LevelConstraint(f.actor.clientVisibleLevels, f.db, f.removePIEPrefix)]))]]
    ensures forall k :: k in CreateInterest(f) ==> WellFormed(CreateInterest(f)[k][0].constraint)
  {
    DefinedConstraintsAlwaysValid(f);
    ClientConstraintShape(f);
    if f.actor.hasNetConnection {
      assert CreateInterest(f) == CreatePlayerOwnedActorInterest(f);
    } else {
      assert CreateInterest(f) == CreateActorInterest(f);
    }
  }

  /** With both parts valid, the client constraint is the And of the defined and the level constraints. */
  lemma ClientConstraintShape(f: Factory)
    ensures ClientConstraint(f) == And([DefinedConstraints(f), LevelConstraint(f.actor.clientVisibleLevels, f.db, f.removePIEPrefix)])
    ensures IsValid(ClientConstraint(f)) && WellFormed(ClientConstraint(f))
  {
    DefinedConstraintsAlwaysValid(f);
    LevelConstraintValid(f.actor.clientVisibleLevels, f.db, f.removePIEPrefix);
    AndOfValidPair(DefinedConstraints(f), LevelConstraint(f.actor.clientVisibleLevels, f.db, f.removePIEPrefix));
  }

  lemma AndOfValidPair(a: QueryConstraint, b: QueryConstraint)
    requires IsValid(a) && WellFormed(a) && IsValid(b) && WellFormed(b)
    ensures And(FilterValid([a, b])) == And([a, b])
    ensures IsValid(And([a, b])) && WellFormed(And([a, b]))
  {
    assert FilterValid([b]) == [b];
    assert FilterValid([a, b]) == [a, b];
    assert IsValid(And([a, b]).andChildren[0]);
  }
}
