/**
 * User-authored interest: an actor component holding a constraint
 * description and an update rate, turned into a schema query.
 *
 * Classes are named by an id; `ClassUniverse` stands for the engine's class
 * registry (every loaded class in iteration order, the subclass relation and
 * each class's path name).
 */
module ActorInterestQueryComponent {
  import opened Constants
  import opened Interest
  import SchemaDatabase

  type ClassId = nat

  datatype ClassUniverse = ClassUniverse(
    classes: seq<ClassId>,
    isChildOf: (ClassId, ClassId) -> bool,
    pathName: ClassId -> string)

  /** The constraint descriptions a designer can place in the component. */
  datatype UserConstraint =
    | RelativeCylinderConstraint(radius: int)
    | ActorTypeConstraint(actorType: ClassId)
    | AndConstraint(constraints: seq<UserConstraint>)

  /** A radius in centimetres as a distance in metres. */
  function CentimetresToMetres(radius: int): real {
    radius as real / 100.0
  }

  /** Class `cls` derives from `actorType` and its schema component is `id`. */
  predicate Yields(cls: ClassId, actorType: ClassId, u: ClassUniverse, db: SchemaDatabase.Database, id: ComponentId) {
    u.isChildOf(cls, actorType) && db.GetComponentIdForClass(u.pathName(cls)) == id
  }

  /** Some class of a non-empty list yields `id` iff its head does or some class of its tail does. */
  lemma YieldsSplit(classes: seq<ClassId>, actorType: ClassId, u: ClassUniverse, db: SchemaDatabase.Database)
    requires |classes| > 0
    ensures forall id :: (exists k :: 0 <= k < |classes| && Yields(classes[k], actorType, u, db, id)) <==>
      Yields(classes[0], actorType, u, db, id) || exists k :: 0 <= k < |classes[1..]| && Yields(classes[1..][k], actorType, u, db, id)
  {
    var tail := classes[1..];
    forall id
      ensures (exists k :: 0 <= k < |classes| && Yields(classes[k], actorType, u, db, id)) <==>
        Yields(classes[0], actorType, u, db, id) || exists k :: 0 <= k < |tail| && Yields(tail[k], actorType, u, db, id)
    {
      if exists k :: 0 <= k < |classes| && Yields(classes[k], actorType, u, db, id) {
        var k :| 0 <= k < |classes| && Yields(classes[k], actorType, u, db, id);
        if k > 0 { assert tail[k - 1] == classes[k]; }
      }
      if exists k :: 0 <= k < |tail| && Yields(tail[k], actorType, u, db, id) {
        var k :| 0 <= k < |tail| && Yields(tail[k], actorType, u, db, id);
        assert classes[k + 1] == tail[k];
      }
    }
  }

  /**
   * The children of an actor-type constraint: at most one per class, each a
   * component constraint with a valid id, and a component id appears exactly
   * when some loaded subclass of `actorType` has it as its schema component.
   */
  function ActorTypeChildren(classes: seq<ClassId>, actorType: ClassId, u: ClassUniverse, db: SchemaDatabase.Database): (cs: seq<QueryConstraint>)
    ensures |cs| <= |classes|
    ensures forall c :: c in cs ==> c.ComponentConstraint? && c.componentId != INVALID_COMPONENT_ID
    ensures forall id :: ComponentConstraint(id) in cs <==>
      id != INVALID_COMPONENT_ID && exists k :: 0 <= k < |classes| && Yields(classes[k], actorType, u, db, id)
  {
    if |classes| == 0 then []
    else
      var rest := ActorTypeChildren(classes[1..], actorType, u, db);
      var id := db.GetComponentIdForClass(u.pathName(classes[0]));
      YieldsSplit(classes, actorType, u, db);
      if u.isChildOf(classes[0], actorType) && id != INVALID_COMPONENT_ID then [ComponentConstraint(id)] + rest else rest
  }

  /** The schema constraint a user constraint description stands for. */
  function CreateConstraint(c: UserConstraint, u: ClassUniverse, db: SchemaDatabase.Database): (r: QueryConstraint)
    ensures c.RelativeCylinderConstraint? ==> r.RelativeCylinder? && r.relativeCylinderRadius * 100.0 == c.radius as real
    ensures c.ActorTypeConstraint? ==> r.Or?
    ensures c.AndConstraint? ==> r.And? && |r.andChildren| == |c.constraints|
    decreases c
  {
    match c
    case RelativeCylinderConstraint(radius) => RelativeCylinder(CentimetresToMetres(radius))
    case ActorTypeConstraint(t) => Or(ActorTypeChildren(u.classes, t, u, db))
    case AndConstraint(children) =>
      And(seq(|children|, i requires 0 <= i < |children| => CreateConstraint(children[i], u, db)))
  }

  /** Every child of an And description becomes, in order, the constraint of that child. */
  lemma {:induction false} AndConstraintChildren(children: seq<UserConstraint>, u: ClassUniverse, db: SchemaDatabase.Database)
    ensures var r := CreateConstraint(AndConstraint(children), u, db);
      forall i :: 0 <= i < |children| ==> r.andChildren[i] == CreateConstraint(children[i], u, db)
  {
  }

  /** The actor component: a constraint description and the rate of updates it asks for. */
  datatype QueryComponent = QueryComponent(constraint: UserConstraint, updatesPerSecond: real)

  /** A newly constructed component asks for zero updates per second. */
  function NewQueryComponent(constraint: UserConstraint): (q: QueryComponent)
    ensures q.updatesPerSecond == 0.0 && q.constraint == constraint
  {
    QueryComponent(constraint, 0.0)
  }

  /** The query a component contributes: its constraint, a full snapshot, at its update rate. */
  function CreateQuery(q: QueryComponent, u: ClassUniverse, db: SchemaDatabase.Database): (r: Query)
    ensures r.frequency == Some(q.updatesPerSecond)
    ensures r.fullSnapshotResult == Some(true)
    ensures r.constraint == CreateConstraint(q.constraint, u, db)
  {
    Query(CreateConstraint(q.constraint, u, db), Some(true), Some(q.updatesPerSecond))
  }
}
