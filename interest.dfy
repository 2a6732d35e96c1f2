/**
 * The interest algebra: query constraints, queries and the per-component
 * interest map an entity carries.
 *
 * A constraint node holds exactly one kind of predicate (a tagged union).
 * `Unset` is the default-constructed node with nothing populated; an And or
 * Or node with no children is equally empty.
 */
module Interest {
  import opened Constants

  datatype Coordinates = Coordinates(x: real, y: real, z: real)
  datatype EdgeLength = EdgeLength(x: real, y: real, z: real)

  datatype QueryConstraint =
    | Unset
    | Sphere(center: Coordinates, sphereRadius: real)
    | Cylinder(center: Coordinates, cylinderRadius: real)
    | Box(center: Coordinates, edgeLength: EdgeLength)
    | RelativeSphere(relativeSphereRadius: real)
    | RelativeCylinder(relativeCylinderRadius: real)
    | RelativeBox(relativeEdgeLength: EdgeLength)
    | EntityIdConstraint(entityId: EntityId)
    | ComponentConstraint(componentId: ComponentId)
    | And(andChildren: seq<QueryConstraint>)
    | Or(orChildren: seq<QueryConstraint>)

  /** A leaf predicate: populated and not a combinator. */
  predicate IsLeaf(c: QueryConstraint) {
    !c.Unset? && !c.And? && !c.Or?
  }

  /** A constraint is valid iff it is a leaf, or an And/Or with at least one valid child. */
  predicate IsValid(c: QueryConstraint)
    decreases c
  {
    match c
    case Unset => false
    case And(cs) => exists i :: 0 <= i < |cs| && IsValid(cs[i])
    case Or(cs) => exists i :: 0 <= i < |cs| && IsValid(cs[i])
    case _ => true
  }

  /** The one-level check: some variant of this node is populated. */
  predicate IsPopulated(c: QueryConstraint) {
    match c
    case Unset => false
    case And(cs) => |cs| > 0
    case Or(cs) => |cs| > 0
    case _ => true
  }

  /** Every And/Or node in the tree holds only valid children. */
  predicate WellFormed(c: QueryConstraint)
    decreases c
  {
    match c
    case And(cs) => forall i :: 0 <= i < |cs| ==> IsValid(cs[i]) && WellFormed(cs[i])
    case Or(cs) => forall i :: 0 <= i < |cs| ==> IsValid(cs[i]) && WellFormed(cs[i])
    case _ => true
  }

  /** On well-formed trees the recursive validity and the one-level check agree. */
  lemma ValidIffPopulated(c: QueryConstraint)
    requires WellFormed(c)
    ensures IsValid(c) <==> IsPopulated(c)
  {
    match c
    case And(cs) =>
      if |cs| > 0 { assert IsValid(cs[0]); }
    case Or(cs) =>
      if |cs| > 0 { assert IsValid(cs[0]); }
    case _ =>
  }

  /** The children of `cs` that are valid, in their original order. */
  function FilterValid(cs: seq<QueryConstraint>): (r: seq<QueryConstraint>)
    ensures |r| <= |cs|
    ensures forall c :: c in r <==> c in cs && IsValid(c)
  {
    if |cs| == 0 then []
    else (if IsValid(cs[0]) then [cs[0]] else []) + FilterValid(cs[1..])
  }

  /** Filtering keeps some valid child exactly when there was one. */
  lemma {:induction false} FilterValidKeepsSome(cs: seq<QueryConstraint>)
    ensures (exists j :: 0 <= j < |FilterValid(cs)| && IsValid(FilterValid(cs)[j])) <==> exists i :: 0 <= i < |cs| && IsValid(cs[i])
  {
    var r := FilterValid(cs);
    forall j | 0 <= j < |r| ensures IsValid(r[j]) && exists i :: 0 <= i < |cs| && cs[i] == r[j] {
      assert r[j] in r;
    }
    if exists i :: 0 <= i < |cs| && IsValid(cs[i]) {
      var i :| 0 <= i < |cs| && IsValid(cs[i]);
      assert cs[i] in cs;
      var j :| 0 <= j < |r| && r[j] == cs[i];
      assert IsValid(r[j]);
    }
  }

  /** Combining with Or or And after filtering is valid iff some input was valid. */
  lemma {:induction false} FilterValidCombinator(cs: seq<QueryConstraint>)
    ensures IsValid(Or(FilterValid(cs))) <==> exists i :: 0 <= i < |cs| && IsValid(cs[i])
    ensures IsValid(And(FilterValid(cs))) <==> exists i :: 0 <= i < |cs| && IsValid(cs[i])
  {
    FilterValidKeepsSome(cs);
  }

  datatype Query = Query(constraint: QueryConstraint, fullSnapshotResult: Option<bool>, frequency: Option<real>)

  /** The queries registered for one component. */
  type ComponentInterest = seq<Query>

  /** Component id -> the queries a worker authoritative over it receives. */
  type InterestMap = map<ComponentId, ComponentInterest>

  /** The query an interest factory emits: full snapshot, no frequency. */
  function FullSnapshotQuery(c: QueryConstraint): Query {
    Query(c, Some(true), None)
  }
}
