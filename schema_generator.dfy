/**
 * The bookkeeping of the schema generator: the unique schema name of each
 * class, the validation of the names a class's schema would use, the
 * component ids of streaming levels, the component-id-to-class-path map
 * saved with the schema database, and clearing or loading that database.
 * File writing, the schema compiler and the engine's class and asset
 * queries are outside this module; their results arrive as parameters.
 */
module SchemaGenerator {
  import opened Constants
  import SchemaDatabase

  // ---------------------------------------------------------------------
  // Names.

  predicate IsDigit(c: char) {
    '0' <= c <= '9'
  }

  /** A schema name is usable unless it is empty or starts with a digit. */
  function CheckSchemaNameValidity(name: string): (valid: bool)
    ensures !valid <==> name == [] || IsDigit(name[0])
  {
    |name| > 0 && !IsDigit(name[0])
  }

  function DigitChar(d: nat): (c: char)
    requires d < 10
    ensures IsDigit(c)
  {
    ('0' as int + d) as char
  }

  /** The decimal rendering of n, as printf's %d writes it. */
  function Decimal(n: nat): (s: string)
    ensures |s| >= 1 && IsDigit(s[0])
    ensures forall k :: 0 <= k < |s| ==> IsDigit(s[k])
  {
    if n < 10 then [DigitChar(n)] else Decimal(n / 10) + [DigitChar(n % 10)]
  }

  /** Distinct numbers are rendered differently. */
  lemma {:induction false} DecimalInjective(a: nat, b: nat)
    requires Decimal(a) == Decimal(b)
    ensures a == b
  {
    if a >= 10 && b >= 10 {
      var sa, sb := Decimal(a), Decimal(b);
      assert sa[|sa| - 1] == DigitChar(a % 10) && sb[|sb| - 1] == DigitChar(b % 10);
      assert Decimal(a / 10) == sa[..|sa| - 1] == sb[..|sb| - 1] == Decimal(b / 10);
      DecimalInjective(a / 10, b / 10);
    }
  }

  /** The name a colliding class gets: its schema name followed by a number. */
  function Suffixed(base: string, k: nat): string {
    base + Decimal(k)
  }

  lemma SuffixedInjective(base: string, a: nat, b: nat)
    requires Suffixed(base, a) == Suffixed(base, b)
    ensures a == b
  {
    assert Suffixed(base, a)[|base|..] == Decimal(a);
    assert Suffixed(base, b)[|base|..] == Decimal(b);
    DecimalInjective(a, b);
  }

  /** Adding a number keeps a valid name valid and cannot repair an invalid one. */
  lemma SuffixKeepsValidity(base: string, k: nat)
    ensures CheckSchemaNameValidity(Suffixed(base, k)) == CheckSchemaNameValidity(base)
  {
    if base != [] {
      assert Suffixed(base, k)[0] == base[0];
    }
  }

  /**
   * The name a new class gets: its schema name when that is free, otherwise
   * the schema name followed by the smallest k >= 1 that gives a free name.
   */
  ghost predicate IsFreeName(base: string, taken: set<string>, name: string) {
    name !in taken
    && (name == base
        || (base in taken
            && exists k :: k >= 1 && name == Suffixed(base, k) && forall j :: 1 <= j < k ==> Suffixed(base, j) in taken))
  }

  /** At most one name meets that description. */
  lemma FreeNameUnique(base: string, taken: set<string>, a: string, b: string)
    requires IsFreeName(base, taken, a) && IsFreeName(base, taken, b)
    ensures a == b
  {
    if a != base && b != base {
      var ka: nat :| ka >= 1 && a == Suffixed(base, ka) && forall j :: 1 <= j < ka ==> Suffixed(base, j) in taken;
      var kb: nat :| kb >= 1 && b == Suffixed(base, kb) && forall j :: 1 <= j < kb ==> Suffixed(base, j) in taken;
      assert ka < kb ==> Suffixed(base, ka) in taken;
      assert kb < ka ==> Suffixed(base, kb) in taken;
    }
  }

  /** The taken names that are `base` followed by a number of at least s. */
  ghost function TakenFrom(base: string, taken: set<string>, s: nat): set<string> {
    set n | n in taken && exists j :: j >= s && n == Suffixed(base, j)
  }

  lemma TakenFromShrinks(base: string, taken: set<string>, s: nat)
    requires Suffixed(base, s) in taken
    ensures |TakenFrom(base, taken, s + 1)| < |TakenFrom(base, taken, s)|
  {
    var n := Suffixed(base, s);
    assert n in TakenFrom(base, taken, s);
    if n in TakenFrom(base, taken, s + 1) {
      var j :| j >= s + 1 && n == Suffixed(base, j);
      SuffixedInjective(base, s, j);
    }
    var small, big := TakenFrom(base, taken, s + 1), TakenFrom(base, taken, s);
    assert small <= big - {n};
    SubsetCardinality(small, big - {n});
  }

  lemma {:induction false} SubsetCardinality<T>(a: set<T>, b: set<T>)
    requires a <= b
    ensures |a| <= |b|
    decreases |b|
  {
    if a != {} {
      var x :| x in a;
      SubsetCardinality(a - {x}, b - {x});
    }
  }

  /** The suffix search of ValidateIdentifierNames: tries `base`, then base1, base2, ... */
  method FindFreeName(base: string, taken: map<string, string>) returns (name: string)
    ensures IsFreeName(base, taken.Keys, name)
  {
    name := base;
    var suffix: nat := 0;
    while name in taken
      invariant suffix == 0 ==> name == base
      invariant suffix >= 1 ==> name == Suffixed(base, suffix) && base in taken
      invariant forall j :: 1 <= j < suffix ==> Suffixed(base, j) in taken
      decreases |TakenFrom(base, taken.Keys, if suffix == 0 then 1 else suffix)|, if suffix == 0 then 1 else 0
    {
      if suffix >= 1 {
        TakenFromShrinks(base, taken.Keys, suffix);
      }
      suffix := suffix + 1;
      name := Suffixed(base, suffix);
    }
  }

  // ---------------------------------------------------------------------
  // Names inside one class's schema.

  /** Every name of the group is valid and no two are equal. */
  predicate GroupNamesOk(names: seq<string>) {
    (forall k :: 0 <= k < |names| ==> CheckSchemaNameValidity(names[k]))
    && (forall a, b :: 0 <= a < b < |names| ==> names[a] != names[b])
  }

  lemma GroupNamesOkStep(names: seq<string>, i: nat)
    requires i < |names|
    ensures GroupNamesOk(names[..i + 1]) <==>
      GroupNamesOk(names[..i]) && CheckSchemaNameValidity(names[i]) && names[i] !in names[..i]
  {
    var pre, cur := names[..i], names[..i + 1];
    assert cur == pre + [names[i]];
    if names[i] in pre {
      var a :| 0 <= a < |pre| && pre[a] == names[i];
      assert cur[a] == cur[i];
    }
  }

  /**
   * The check of one name group: each name must be valid and new; a
   * repeated name fails the check and the first holder of the name stays
   * recorded. `kept` maps each name to the position of that first holder.
   */
  method CheckGroupNames(names: seq<string>, success0: bool) returns (success: bool, kept: map<string, nat>)
    ensures success <==> success0 && GroupNamesOk(names)
    ensures forall n :: n in kept <==> n in names
    ensures forall n :: n in kept ==> kept[n] < |names| && names[kept[n]] == n && forall j :: 0 <= j < kept[n] ==> names[j] != n
  {
    success := success0;
    kept := map[];
    var i := 0;
    while i < |names|
      invariant 0 <= i <= |names|
      invariant success <==> success0 && GroupNamesOk(names[..i])
      invariant forall n :: n in kept <==> n in names[..i]
      invariant forall n :: n in kept ==> kept[n] < i && names[kept[n]] == n && forall j :: 0 <= j < kept[n] ==> names[j] != n
    {
      var n := names[i];
      GroupNamesOkStep(names, i);
      assert names[..i + 1] == names[..i] + [n];
      if !CheckSchemaNameValidity(n) {
        success := false;
      }
      if n in kept {
        success := false;
      } else {
        kept := kept[n := i];
      }
      i := i + 1;
    }
    assert names[..i] == names;
  }

  predicate AllGroupsOk(groups: seq<seq<string>>) {
    forall g :: 0 <= g < |groups| ==> GroupNamesOk(groups[g])
  }

  /** Checks each group on its own: the same name may appear in two groups. */
  method CheckGroups(groups: seq<seq<string>>, success0: bool) returns (success: bool)
    ensures success <==> success0 && AllGroupsOk(groups)
  {
    success := success0;
    var g := 0;
    while g < |groups|
      invariant 0 <= g <= |groups|
      invariant success <==> success0 && AllGroupsOk(groups[..g])
    {
      assert groups[..g + 1] == groups[..g] + [groups[g]];
      var kept;
      success, kept := CheckGroupNames(groups[g], success);
      g := g + 1;
    }
    assert groups[..g] == groups;
  }

  /**
   * The schema names a class's schema would use, already converted from
   * the engine's names: one list per replicated property group, the
   * handover properties, one list per RPC group, and the subobjects.
   */
  datatype IdentifierNames = IdentifierNames(
    repGroups: seq<seq<string>>,
    handover: seq<string>,
    rpcGroups: seq<seq<string>>,
    subobjects: seq<string>)

  predicate NamesOk(info: IdentifierNames) {
    AllGroupsOk(info.repGroups) && GroupNamesOk(info.handover) && AllGroupsOk(info.rpcGroups) && GroupNamesOk(info.subobjects)
  }

  /** Clears `success0` when any group has an invalid or a repeated name; it never sets it. */
  method CheckIdentifierNameValidity(info: IdentifierNames, success0: bool) returns (success: bool)
    ensures success <==> success0 && NamesOk(info)
  {
    var handoverNames, subobjectNames;
    success := CheckGroups(info.repGroups, success0);
    success, handoverNames := CheckGroupNames(info.handover, success);
    success := CheckGroups(info.rpcGroups, success);
    success, subobjectNames := CheckGroupNames(info.subobjects, success);
  }

  // ---------------------------------------------------------------------
  // Generator state.

  /** One entry of a potential name collision: a class and the name it got. */
  datatype Collision = Collision(classPath: string, generatedName: string)

  /** A class to generate schema for. */
  datatype ClassInfo = ClassInfo(className: string, classPath: string, names: IdentifierNames)

  /** The generated schema of an actor class: its components and those of its static subobjects. */
  datatype ActorSchemaData = ActorSchemaData(
    generatedSchemaName: string,
    schemaComponents: SchemaComponents,
    subobjectData: map<nat, SchemaDatabase.SubobjectSchemaData>)

  /** The generated schema of a subobject class: one component table per dynamic instance slot. */
  datatype SubobjectClassSchema = SubobjectClassSchema(
    generatedSchemaName: string,
    dynamicSubobjectComponents: seq<SchemaComponents>)

  /** What the schema database file holds, as far as the generator reloads it. */
  datatype SavedSchema = SavedSchema(
    actorClassPathToSchema: map<string, ActorSchemaData>,
    subobjectClassPathToSchema: map<string, SubobjectClassSchema>,
    levelComponentIds: set<ComponentId>,
    levelPathToComponentId: map<string, ComponentId>,
    nextAvailableComponentId: ComponentId)

  /** Actor classes recorded while the next id is still the first generated one. */
  predicate IsOldFormat(actors: map<string, ActorSchemaData>, next: ComponentId) {
    |actors| > 0 && next == STARTING_GENERATED_COMPONENT_ID
  }

  /** The outcome of looking for the schema database asset. */
  datatype DatabaseFile =
    | Missing
    | ReadOnly
    | Unloadable
    | Loaded(saved: SavedSchema)

  /** The collisions recorded under a name. */
  function Recorded(m: map<string, set<Collision>>, name: string): set<Collision> {
    if name in m then m[name] else {}
  }

  /** The id a map lookup with a zero default gives, as TMap::FindRef does for integers. */
  function FindRef(m: map<string, ComponentId>, key: string): ComponentId {
    if key in m then m[key] else 0
  }

  /** Hands out component ids, counting up from where the last generation stopped. */
  class IdGenerator {
    var nextId: ComponentId

    constructor(start: ComponentId)
      ensures nextId == start
    {
      nextId := start;
    }

    method Next() returns (id: ComponentId)
      modifies this
      ensures id == old(nextId) && nextId == old(nextId) + 1
    {
      id := nextId;
      nextId := nextId + 1;
    }

    function Peek(): ComponentId
      reads this
    {
      nextId
    }
  }

  // ---------------------------------------------------------------------
  // Streaming levels.

  /** The streaming levels that share one asset name, with their package paths. */
  datatype LevelGroup = LevelGroup(name: string, paths: seq<string>)

  /** A level component to write: its name and the level's path. */
  datatype LevelEntry = LevelEntry(name: string, path: string)

  /** A level component as written to the sublevel schema. */
  datatype LevelComponent = LevelComponent(name: string, id: ComponentId)

  /** A lone level keeps its name; n levels sharing one are numbered 0 to n - 1. */
  function GroupEntries(g: LevelGroup): seq<LevelEntry>
    requires |g.paths| >= 1
  {
    if |g.paths| > 1 then seq(|g.paths|, i requires 0 <= i < |g.paths| => LevelEntry(Suffixed(g.name, i), g.paths[i]))
    else [LevelEntry(g.name, g.paths[0])]
  }

  /** The level components of all groups, group by group. */
  function LevelEntries(groups: seq<LevelGroup>): seq<LevelEntry>
    requires forall g :: g in groups ==> |g.paths| >= 1
  {
    if groups == [] then []
    else LevelEntries(groups[..|groups| - 1]) + GroupEntries(groups[|groups| - 1])
  }

  /** The components written for one group have pairwise different names. */
  lemma GroupEntryNamesDistinct(g: LevelGroup)
    requires |g.paths| >= 1
    ensures forall a, b :: 0 <= a < b < |GroupEntries(g)| ==> GroupEntries(g)[a].name != GroupEntries(g)[b].name
  {
    forall a, b | 0 <= a < b < |GroupEntries(g)|
      ensures GroupEntries(g)[a].name != GroupEntries(g)[b].name
    {
      if GroupEntries(g)[a].name == GroupEntries(g)[b].name {
        SuffixedInjective(g.name, a, b);
      }
    }
  }

  /**
   * How a run of level-id assignments changed the level maps: ids already
   * assigned stay, paths outside `touched` are unchanged, every newly
   * assigned id was drawn from the generator during the run, no two paths
   * got the same new id, and exactly the drawn ids were added to the id
   * set.
   */
  ghost predicate Extends(m0: map<string, ComponentId>, m: map<string, ComponentId>, n0: ComponentId, n: ComponentId,
                          ids0: set<ComponentId>, ids: set<ComponentId>, touched: set<string>) {
    n0 <= n
    && (forall p :: FindRef(m0, p) != 0 ==> FindRef(m, p) == FindRef(m0, p))
    && (forall p :: FindRef(m0, p) == 0 && FindRef(m, p) != 0 ==> n0 <= FindRef(m, p) < n)
    && (forall p, q :: p != q && FindRef(m0, p) == 0 && FindRef(m0, q) == 0 && FindRef(m, p) != 0 ==> FindRef(m, p) != FindRef(m, q))
    && (forall p :: p !in touched ==> (p in m <==> p in m0) && FindRef(m, p) == FindRef(m0, p))
    && (forall id :: id in ids <==> id in ids0 || n0 <= id < n)
  }

  lemma ExtendsRefl(m: map<string, ComponentId>, n: ComponentId, ids: set<ComponentId>)
    ensures Extends(m, m, n, n, ids, ids, {})
  {
  }

  lemma ExtendsTrans(m0: map<string, ComponentId>, m1: map<string, ComponentId>, m2: map<string, ComponentId>,
                     n0: ComponentId, n1: ComponentId, n2: ComponentId,
                     ids0: set<ComponentId>, ids1: set<ComponentId>, ids2: set<ComponentId>, t1: set<string>, t2: set<string>)
    requires Extends(m0, m1, n0, n1, ids0, ids1, t1) && Extends(m1, m2, n1, n2, ids1, ids2, t2)
    ensures Extends(m0, m2, n0, n2, ids0, ids2, t1 + t2)
  {
    forall p, q | p != q && FindRef(m0, p) == 0 && FindRef(m0, q) == 0 && FindRef(m2, p) != 0
      ensures FindRef(m2, p) != FindRef(m2, q)
    {
      if FindRef(m1, p) != 0 && FindRef(m1, q) != 0 {
        assert FindRef(m1, p) != FindRef(m1, q);
      }
    }
  }

  lemma ExtendsWiden(m0: map<string, ComponentId>, m: map<string, ComponentId>, n0: ComponentId, n: ComponentId,
                     ids0: set<ComponentId>, ids: set<ComponentId>, touched: set<string>, wider: set<string>)
    requires Extends(m0, m, n0, n, ids0, ids, touched) && touched <= wider
    ensures Extends(m0, m, n0, n, ids0, ids, wider)
  {
  }

  /** The paths of all levels in the groups. */
  function AllPaths(groups: seq<LevelGroup>): set<string> {
    set g, p | g in groups && p in g.paths :: p
  }

  // ---------------------------------------------------------------------
  // Component id to class path.

  /** The ids of a component table, INVALID_COMPONENT_ID included when a type has none. */
  function Ids(sc: SchemaComponents): set<ComponentId> {
    {sc.data, sc.ownerOnly, sc.handover}
  }

  /** Adding a component table's ids for a class path, every type in turn; a later add replaces an earlier one. */
  function AddComponents(m: map<ComponentId, string>, sc: SchemaComponents, path: string): (r: map<ComponentId, string>)
    ensures forall id :: id in r <==> id in m || id in Ids(sc)
    ensures forall id :: id in r ==> r[id] == (if id in Ids(sc) then path else m[id])
    ensures forall t :: sc.Get(t) in Ids(sc)
  {
    m[sc.Get(TypeData) := path][sc.Get(TypeOwnerOnly) := path][sc.Get(TypeHandover) := path]
  }

  /** The class path `p` claims `id` through the actor class `path` or one of its static subobjects. */
  ghost predicate ClaimedByActor(path: string, data: ActorSchemaData, p: string, id: ComponentId) {
    (p == path && id in Ids(data.schemaComponents))
    || exists i :: i in data.subobjectData && data.subobjectData[i].classPath == p && id in Ids(data.subobjectData[i].schemaComponents)
  }

  /** The subobject class `path` claims `id` for one of its dynamic instance slots. */
  ghost predicate ClaimedByDynamic(path: string, data: SubobjectClassSchema, p: string, id: ComponentId) {
    p == path && exists j :: 0 <= j < |data.dynamicSubobjectComponents| && id in Ids(data.dynamicSubobjectComponents[j])
  }

  /** Some actor class among `aKeys` or subobject class among `sKeys` gives `p` the id `id`. */
  ghost predicate ClaimedBy(actors: map<string, ActorSchemaData>, subobjects: map<string, SubobjectClassSchema>,
                            aKeys: set<string>, sKeys: set<string>, p: string, id: ComponentId) {
    (exists a :: a in aKeys && a in actors && ClaimedByActor(a, actors[a], p, id))
    || (exists k :: k in sKeys && k in subobjects && ClaimedByDynamic(k, subobjects[k], p, id))
  }

  lemma ClaimedByAddActor(actors: map<string, ActorSchemaData>, subobjects: map<string, SubobjectClassSchema>,
                          aKeys: set<string>, sKeys: set<string>, a: string)
    requires a in actors
    ensures forall p, id :: ClaimedBy(actors, subobjects, aKeys + {a}, sKeys, p, id) ==>
      ClaimedBy(actors, subobjects, aKeys, sKeys, p, id) || ClaimedByActor(a, actors[a], p, id)
    ensures forall p, id :: ClaimedBy(actors, subobjects, aKeys, sKeys, p, id) ==> ClaimedBy(actors, subobjects, aKeys + {a}, sKeys, p, id)
    ensures forall p, id :: ClaimedByActor(a, actors[a], p, id) ==> ClaimedBy(actors, subobjects, aKeys + {a}, sKeys, p, id)
  {
  }

  lemma ClaimedByAddSubobject(actors: map<string, ActorSchemaData>, subobjects: map<string, SubobjectClassSchema>,
                              aKeys: set<string>, sKeys: set<string>, k: string)
    requires k in subobjects
    ensures forall p, id :: ClaimedBy(actors, subobjects, aKeys, sKeys + {k}, p, id) ==>
      ClaimedBy(actors, subobjects, aKeys, sKeys, p, id) || ClaimedByDynamic(k, subobjects[k], p, id)
    ensures forall p, id :: ClaimedBy(actors, subobjects, aKeys, sKeys, p, id) ==> ClaimedBy(actors, subobjects, aKeys, sKeys + {k}, p, id)
    ensures forall p, id :: ClaimedByDynamic(k, subobjects[k], p, id) ==> ClaimedBy(actors, subobjects, aKeys, sKeys + {k}, p, id)
  {
  }

  class Generator {
    var actorClassPathToSchema: map<string, ActorSchemaData>
    var subobjectClassPathToSchema: map<string, SubobjectClassSchema>
    var nextAvailableComponentId: ComponentId
    var levelPathToComponentId: map<string, ComponentId>
    var levelComponentIds: set<ComponentId>
    var classPathToSchemaName: map<string, string>
    var schemaNameToClassPath: map<string, string>
    var potentialSchemaNameCollisions: map<string, set<Collision>>

    /** The two name maps are inverse to each other. */
    ghost predicate NamesInverse()
      reads this
    {
      (forall c :: c in classPathToSchemaName ==>
         classPathToSchemaName[c] in schemaNameToClassPath && schemaNameToClassPath[classPathToSchemaName[c]] == c)
      && (forall n :: n in schemaNameToClassPath ==>
         schemaNameToClassPath[n] in classPathToSchemaName && classPathToSchemaName[schemaNameToClassPath[n]] == n)
    }

    /** The state of the editor module when it is loaded: every map empty and the counter zero. */
    constructor()
      ensures actorClassPathToSchema == map[] && subobjectClassPathToSchema == map[] && nextAvailableComponentId == 0
      ensures levelPathToComponentId == map[] && levelComponentIds == {}
      ensures classPathToSchemaName == map[] && schemaNameToClassPath == map[] && potentialSchemaNameCollisions == map[]
      ensures NamesInverse()
    {
      actorClassPathToSchema := map[];
      subobjectClassPathToSchema := map[];
      nextAvailableComponentId := 0;
      levelPathToComponentId := map[];
      levelComponentIds := {};
      classPathToSchemaName := map[];
      schemaNameToClassPath := map[];
      potentialSchemaNameCollisions := map[];
    }

    /** Records that `classPath`, which got `generatedName`, wanted or got the name `desired`. */
    method AddPotentialNameCollision(desired: string, classPath: string, generatedName: string)
      modifies this`potentialSchemaNameCollisions
      ensures potentialSchemaNameCollisions ==
        old(potentialSchemaNameCollisions)[desired := Recorded(old(potentialSchemaNameCollisions), desired) + {Collision(classPath, generatedName)}]
    {
      potentialSchemaNameCollisions := potentialSchemaNameCollisions[desired := Recorded(potentialSchemaNameCollisions, desired) + {Collision(classPath, generatedName)}];
    }

    /**
     * The first loop of ValidateIdentifierNames, for one class: reports
     * whether its schema name is valid and, unless its class path already
     * has a name, gives it the first free name and records the collisions:
     * under the desired name when the class did not get it, and always
     * under the name it got.
     */
    method AssignSchemaName(c: ClassInfo, toSchemaName: string -> string) returns (valid: bool)
      modifies this`classPathToSchemaName, this`schemaNameToClassPath, this`potentialSchemaNameCollisions
      ensures valid == CheckSchemaNameValidity(toSchemaName(c.className))
      ensures c.classPath in old(classPathToSchemaName) ==>
        classPathToSchemaName == old(classPathToSchemaName) && schemaNameToClassPath == old(schemaNameToClassPath)
        && potentialSchemaNameCollisions == old(potentialSchemaNameCollisions)
      ensures c.classPath in classPathToSchemaName
      ensures c.classPath !in old(classPathToSchemaName) ==>
        var desired, name := toSchemaName(c.className), classPathToSchemaName[c.classPath];
        IsFreeName(desired, old(schemaNameToClassPath).Keys, name)
        && classPathToSchemaName == old(classPathToSchemaName)[c.classPath := name]
        && schemaNameToClassPath == old(schemaNameToClassPath)[name := c.classPath]
        && Recorded(potentialSchemaNameCollisions, name) == Recorded(old(potentialSchemaNameCollisions), name) + {Collision(c.classPath, name)}
        && (desired != name ==>
              Recorded(potentialSchemaNameCollisions, desired) == Recorded(old(potentialSchemaNameCollisions), desired) + {Collision(c.classPath, name)})
        && (forall n :: n != desired && n != name ==>
              (n in potentialSchemaNameCollisions <==> n in old(potentialSchemaNameCollisions))
              && Recorded(potentialSchemaNameCollisions, n) == Recorded(old(potentialSchemaNameCollisions), n))
      ensures old(NamesInverse()) ==> NamesInverse()
    {
      var desired := toSchemaName(c.className);
      valid := CheckSchemaNameValidity(desired);
      if c.classPath in classPathToSchemaName {
        return;
      }
      var name := FindFreeName(desired, schemaNameToClassPath);
      classPathToSchemaName := classPathToSchemaName[c.classPath := name];
      schemaNameToClassPath := schemaNameToClassPath[name := c.classPath];
      if desired != name {
        AddPotentialNameCollision(desired, c.classPath, name);
      }
      AddPotentialNameCollision(name, c.classPath, name);
    }

    /**
     * Gives every class a unique schema name, keeping the names class paths
     * already have, and checks the names of every class and of what each
     * class's schema contains. It fails when any of those is invalid or
     * repeated; `warned` holds the names with more than one recorded
     * claimant, for which a warning is logged.
     */
    method ValidateIdentifierNames(types: seq<ClassInfo>, toSchemaName: string -> string) returns (success: bool, warned: set<string>)
      modifies this`classPathToSchemaName, this`schemaNameToClassPath, this`potentialSchemaNameCollisions
      ensures success <==> forall i :: 0 <= i < |types| ==>
        CheckSchemaNameValidity(toSchemaName(types[i].className)) && NamesOk(types[i].names)
      ensures forall c :: c in old(classPathToSchemaName) ==> c in classPathToSchemaName && classPathToSchemaName[c] == old(classPathToSchemaName)[c]
      ensures forall i :: 0 <= i < |types| ==> types[i].classPath in classPathToSchemaName
      ensures forall c :: c in classPathToSchemaName ==> c in old(classPathToSchemaName) || exists i :: 0 <= i < |types| && types[i].classPath == c
      ensures forall n :: n in warned <==> n in potentialSchemaNameCollisions && |potentialSchemaNameCollisions[n]| > 1
      ensures old(NamesInverse()) ==> NamesInverse()
    {
      var namesValid := AssignSchemaNames(types, toSchemaName);
      success := namesValid;
      warned := set n | n in potentialSchemaNameCollisions && |potentialSchemaNameCollisions[n]| > 1;
      var j := 0;
      while j < |types|
        invariant 0 <= j <= |types|
        invariant success <==> namesValid && forall k :: 0 <= k < j ==> NamesOk(types[k].names)
        modifies {}
      {
        success := CheckIdentifierNameValidity(types[j].names, success);
        j := j + 1;
      }
    }

    /** The naming loop of ValidateIdentifierNames; `valid` says whether every class's schema name is valid. */
    method AssignSchemaNames(types: seq<ClassInfo>, toSchemaName: string -> string) returns (valid: bool)
      modifies this`classPathToSchemaName, this`schemaNameToClassPath, this`potentialSchemaNameCollisions
      ensures valid <==> forall i :: 0 <= i < |types| ==> CheckSchemaNameValidity(toSchemaName(types[i].className))
      ensures forall c :: c in old(classPathToSchemaName) ==> c in classPathToSchemaName && classPathToSchemaName[c] == old(classPathToSchemaName)[c]
      ensures forall i :: 0 <= i < |types| ==> types[i].classPath in classPathToSchemaName
      ensures forall c :: c in classPathToSchemaName ==> c in old(classPathToSchemaName) || exists i :: 0 <= i < |types| && types[i].classPath == c
      ensures old(NamesInverse()) ==> NamesInverse()
    {
      valid := true;
      var i := 0;
      while i < |types|
        invariant 0 <= i <= |types|
        invariant valid <==> forall k :: 0 <= k < i ==> CheckSchemaNameValidity(toSchemaName(types[k].className))
        invariant forall c :: c in old(classPathToSchemaName) ==> c in classPathToSchemaName && classPathToSchemaName[c] == old(classPathToSchemaName)[c]
        invariant forall k :: 0 <= k < i ==> types[k].classPath in classPathToSchemaName
        invariant forall c :: c in classPathToSchemaName ==> c in old(classPathToSchemaName) || exists k :: 0 <= k < i && types[k].classPath == c
        invariant old(NamesInverse()) ==> NamesInverse()
      {
        var ok := AssignSchemaName(types[i], toSchemaName);
        if !ok {
          valid := false;
        }
        i := i + 1;
      }
    }

    /**
     * Re-registers the name a class path got in an earlier generation and
     * records it as a collision, as for a new class; an empty name is
     * ignored. The maps stay inverse when neither the path nor the name was
     * registered.
     */
    method ResolveClassPathToSchemaName(classPath: string, schemaName: string, assetName: string -> string, toSchemaName: string -> string)
      modifies this`classPathToSchemaName, this`schemaNameToClassPath, this`potentialSchemaNameCollisions
      ensures schemaName == [] ==>
        classPathToSchemaName == old(classPathToSchemaName) && schemaNameToClassPath == old(schemaNameToClassPath)
        && potentialSchemaNameCollisions == old(potentialSchemaNameCollisions)
      ensures schemaName != [] ==>
        classPathToSchemaName == old(classPathToSchemaName)[classPath := schemaName]
        && schemaNameToClassPath == old(schemaNameToClassPath)[schemaName := classPath]
        && Collision(classPath, schemaName) in Recorded(potentialSchemaNameCollisions, schemaName)
        && Collision(classPath, schemaName) in Recorded(potentialSchemaNameCollisions, toSchemaName(assetName(classPath)))
      ensures old(NamesInverse()) && classPath !in old(classPathToSchemaName) && schemaName !in old(schemaNameToClassPath) ==> NamesInverse()
    {
      if schemaName == [] {
        return;
      }
      classPathToSchemaName := classPathToSchemaName[classPath := schemaName];
      schemaNameToClassPath := schemaNameToClassPath[schemaName := classPath];
      var desired := toSchemaName(assetName(classPath));
      if desired != schemaName {
        AddPotentialNameCollision(desired, classPath, schemaName);
      }
      AddPotentialNameCollision(schemaName, classPath, schemaName);
    }

    /**
     * The id of one level path: the one it already has, or else the next
     * id of the generator, recorded for the path and in the set of level
     * ids. A path mapped to 0 counts as unmapped.
     */
    method AssignLevelId(path: string, gen: IdGenerator) returns (id: ComponentId)
      requires gen.nextId != INVALID_COMPONENT_ID
      modifies this`levelPathToComponentId, this`levelComponentIds, gen
      ensures id != INVALID_COMPONENT_ID && id == FindRef(levelPathToComponentId, path)
      ensures FindRef(old(levelPathToComponentId), path) != 0 ==>
        id == old(levelPathToComponentId)[path] && levelPathToComponentId == old(levelPathToComponentId)
        && levelComponentIds == old(levelComponentIds) && gen.nextId == old(gen.nextId)
      ensures FindRef(old(levelPathToComponentId), path) == 0 ==>
        id == old(gen.nextId) && levelPathToComponentId == old(levelPathToComponentId)[path := id]
        && levelComponentIds == old(levelComponentIds) + {id}
      ensures Extends(old(levelPathToComponentId), levelPathToComponentId, old(gen.nextId), gen.nextId,
                      old(levelComponentIds), levelComponentIds, {path})
    {
      id := FindRef(levelPathToComponentId, path);
      if id == 0 {
        ghost var n0 := gen.nextId;
        id := gen.Next();
        levelPathToComponentId := levelPathToComponentId[path := id];
        levelComponentIds := levelComponentIds + {id};
      }
    }

    /** The level components of one group, with their ids. */
    method AssignGroupIds(g: LevelGroup, gen: IdGenerator) returns (emitted: seq<LevelComponent>)
      requires |g.paths| >= 1 && gen.nextId != INVALID_COMPONENT_ID
      modifies this`levelPathToComponentId, this`levelComponentIds, gen
      ensures gen.nextId != INVALID_COMPONENT_ID
      ensures |emitted| == |GroupEntries(g)|
      ensures forall k :: 0 <= k < |emitted| ==>
        emitted[k].name == GroupEntries(g)[k].name && emitted[k].id == FindRef(levelPathToComponentId, GroupEntries(g)[k].path)
        && emitted[k].id != INVALID_COMPONENT_ID
      ensures Extends(old(levelPathToComponentId), levelPathToComponentId, old(gen.nextId), gen.nextId,
                      old(levelComponentIds), levelComponentIds, set p | p in g.paths)
    {
      if |g.paths| > 1 {
        ExtendsRefl(levelPathToComponentId, gen.nextId, levelComponentIds);
        ghost var touched: set<string> := {};
        emitted := [];
        var i := 0;
        while i < |g.paths|
          invariant 0 <= i <= |g.paths| && |emitted| == i && gen.nextId != INVALID_COMPONENT_ID
          invariant forall k :: 0 <= k < i ==>
            emitted[k] == LevelComponent(Suffixed(g.name, k), FindRef(levelPathToComponentId, g.paths[k])) && emitted[k].id != INVALID_COMPONENT_ID
          invariant touched <= set p | p in g.paths
          invariant Extends(old(levelPathToComponentId), levelPathToComponentId, old(gen.nextId), gen.nextId,
                            old(levelComponentIds), levelComponentIds, touched)
        {
          ghost var m1, n1, ids1 := levelPathToComponentId, gen.nextId, levelComponentIds;
          var id := AssignLevelId(g.paths[i], gen);
          ExtendsTrans(old(levelPathToComponentId), m1, levelPathToComponentId, old(gen.nextId), n1, gen.nextId,
                       old(levelComponentIds), ids1, levelComponentIds, touched, {g.paths[i]});
          touched := touched + {g.paths[i]};
          emitted := emitted + [LevelComponent(Suffixed(g.name, i), id)];
          i := i + 1;
        }
        ExtendsWiden(old(levelPathToComponentId), levelPathToComponentId, old(gen.nextId), gen.nextId,
                     old(levelComponentIds), levelComponentIds, touched, set p | p in g.paths);
      } else {
        var id := AssignLevelId(g.paths[0], gen);
        ExtendsWiden(old(levelPathToComponentId), levelPathToComponentId, old(gen.nextId), gen.nextId,
                     old(levelComponentIds), levelComponentIds, {g.paths[0]}, set p | p in g.paths);
        emitted := [LevelComponent(g.name, id)];
      }
    }

    /**
     * Gives every streaming level a component id: a level keeps the id it
     * has, an unmapped one gets the generator's next id, recorded for its
     * path and in the level id set. Returns the components written to the
     * sublevel schema, group by group.
     */
    method GenerateSchemaForSublevels(groups: seq<LevelGroup>, gen: IdGenerator) returns (emitted: seq<LevelComponent>)
      requires forall g :: g in groups ==> |g.paths| >= 1
      requires gen.nextId != INVALID_COMPONENT_ID
      modifies this`levelPathToComponentId, this`levelComponentIds, gen
      ensures |emitted| == |LevelEntries(groups)|
      ensures forall k :: 0 <= k < |emitted| ==>
        emitted[k].name == LevelEntries(groups)[k].name && emitted[k].id == FindRef(levelPathToComponentId, LevelEntries(groups)[k].path)
        && emitted[k].id != INVALID_COMPONENT_ID
      ensures Extends(old(levelPathToComponentId), levelPathToComponentId, old(gen.nextId), gen.nextId,
                      old(levelComponentIds), levelComponentIds, AllPaths(groups))
    {
      emitted := [];
      ExtendsRefl(levelPathToComponentId, gen.nextId, levelComponentIds);
      ghost var touched: set<string> := {};
      var gi := 0;
      while gi < |groups|
        invariant 0 <= gi <= |groups| && gen.nextId != INVALID_COMPONENT_ID
        invariant |emitted| == |LevelEntries(groups[..gi])|
        invariant forall k :: 0 <= k < |emitted| ==>
          emitted[k].name == LevelEntries(groups[..gi])[k].name
          && emitted[k].id == FindRef(levelPathToComponentId, LevelEntries(groups[..gi])[k].path) && emitted[k].id != INVALID_COMPONENT_ID
        invariant touched <= AllPaths(groups)
        invariant Extends(old(levelPathToComponentId), levelPathToComponentId, old(gen.nextId), gen.nextId,
                          old(levelComponentIds), levelComponentIds, touched)
      {
        var g := groups[gi];
        assert groups[..gi + 1][..gi] == groups[..gi] && groups[..gi + 1][gi] == g;
        ghost var m1, n1, ids1 := levelPathToComponentId, gen.nextId, levelComponentIds;
        var more := AssignGroupIds(g, gen);
        ExtendsTrans(old(levelPathToComponentId), m1, levelPathToComponentId, old(gen.nextId), n1, gen.nextId,
                     old(levelComponentIds), ids1, levelComponentIds, touched, set p | p in g.paths);
        touched := touched + set p | p in g.paths;
        emitted := emitted + more;
        gi := gi + 1;
      }
      assert groups[..gi] == groups;
      ExtendsWiden(old(levelPathToComponentId), levelPathToComponentId, old(gen.nextId), gen.nextId,
                   old(levelComponentIds), levelComponentIds, touched, AllPaths(groups));
    }

    /** Adds the ids of an actor class and of its static subobjects, the subobjects in any order. */
    static method AddActorIds(m: map<ComponentId, string>, path: string, data: ActorSchemaData) returns (r: map<ComponentId, string>)
      ensures forall id :: id in m ==> id in r
      ensures forall p, id :: ClaimedByActor(path, data, p, id) ==> id in r
      ensures forall id :: id in r ==> (id in m && r[id] == m[id]) || ClaimedByActor(path, data, r[id], id)
    {
      r := AddComponents(m, data.schemaComponents, path);
      var todo := data.subobjectData.Keys;
      ghost var done: set<nat> := {};
      while todo != {}
        invariant todo + done == data.subobjectData.Keys
        invariant forall id :: id in m ==> id in r
        invariant forall id :: id in Ids(data.schemaComponents) ==> id in r
        invariant forall i, id :: i in done && id in Ids(data.subobjectData[i].schemaComponents) ==> id in r
        invariant forall id :: id in r ==> (id in m && r[id] == m[id]) || ClaimedByActor(path, data, r[id], id)
        decreases |todo|
      {
        var i :| i in todo;
        var sub := data.subobjectData[i];
        r := AddComponents(r, sub.schemaComponents, sub.classPath);
        todo := todo - {i};
        done := done + {i};
      }
    }

    /** Adds the ids of every dynamic instance slot of a subobject class. */
    static method AddDynamicIds(m: map<ComponentId, string>, path: string, data: SubobjectClassSchema) returns (r: map<ComponentId, string>)
      ensures forall id :: id in m ==> id in r
      ensures forall p, id :: ClaimedByDynamic(path, data, p, id) ==> id in r
      ensures forall id :: id in r ==> (id in m && r[id] == m[id]) || ClaimedByDynamic(path, data, r[id], id)
    {
      r := m;
      var slots := data.dynamicSubobjectComponents;
      for j := 0 to |slots|
        invariant forall id :: id in m ==> id in r
        invariant forall j', id :: 0 <= j' < j && id in Ids(slots[j']) ==> id in r
        invariant forall id :: id in r ==> (id in m && r[id] == m[id]) || ClaimedByDynamic(path, data, r[id], id)
      {
        r := AddComponents(r, slots[j], path);
      }
    }

    /** Adds the ids of every actor class, in any order. */
    static method AddAllActorIds(actors: map<string, ActorSchemaData>, subobjects: map<string, SubobjectClassSchema>)
      returns (r: map<ComponentId, string>)
      ensures forall p, id :: ClaimedBy(actors, subobjects, actors.Keys, {}, p, id) ==> id in r
      ensures forall id :: id in r ==> ClaimedBy(actors, subobjects, actors.Keys, {}, r[id], id)
    {
      r := map[];
      var todo := actors.Keys;
      ghost var done: set<string> := {};
      while todo != {}
        invariant todo + done == actors.Keys && todo !! done
        invariant forall p, id :: ClaimedBy(actors, subobjects, done, {}, p, id) ==> id in r
        invariant forall id :: id in r ==> ClaimedBy(actors, subobjects, done, {}, r[id], id)
        decreases |todo|
      {
        var a :| a in todo;
        r := AddActorIds(r, a, actors[a]);
        ClaimedByAddActor(actors, subobjects, done, {}, a);
        todo := todo - {a};
        done := done + {a};
      }
    }

    /** Adds the ids of every subobject class's dynamic slots, in any order, to those of the actor classes. */
    static method AddAllDynamicIds(m: map<ComponentId, string>, actors: map<string, ActorSchemaData>,
                                   subobjects: map<string, SubobjectClassSchema>)
      returns (r: map<ComponentId, string>)
      requires forall p, id :: ClaimedBy(actors, subobjects, actors.Keys, {}, p, id) ==> id in m
      requires forall id :: id in m ==> ClaimedBy(actors, subobjects, actors.Keys, {}, m[id], id)
      ensures forall p, id :: ClaimedBy(actors, subobjects, actors.Keys, subobjects.Keys, p, id) ==> id in r
      ensures forall id :: id in r ==> ClaimedBy(actors, subobjects, actors.Keys, subobjects.Keys, r[id], id)
    {
      r := m;
      var todo := subobjects.Keys;
      ghost var done: set<string> := {};
      while todo != {}
        invariant todo + done == subobjects.Keys && todo !! done
        invariant forall p, id :: ClaimedBy(actors, subobjects, actors.Keys, done, p, id) ==> id in r
        invariant forall id :: id in r ==> ClaimedBy(actors, subobjects, actors.Keys, done, r[id], id)
        decreases |todo|
      {
        var k :| k in todo;
        r := AddDynamicIds(r, k, subobjects[k]);
        ClaimedByAddSubobject(actors, subobjects, actors.Keys, done, k);
        todo := todo - {k};
        done := done + {k};
      }
    }

    /**
     * The class path behind every generated component id: the ids of all
     * actor classes, their static subobjects and the dynamic subobject
     * slots, each mapped to a class path that claims it, with the invalid
     * id taken out.
     */
    method CreateComponentIdToClassPathMap() returns (r: map<ComponentId, string>)
      ensures INVALID_COMPONENT_ID !in r
      ensures forall p, id ::
        (id != INVALID_COMPONENT_ID
         && ClaimedBy(actorClassPathToSchema, subobjectClassPathToSchema, actorClassPathToSchema.Keys, subobjectClassPathToSchema.Keys, p, id))
        ==> id in r
      ensures forall id :: id in r ==>
        ClaimedBy(actorClassPathToSchema, subobjectClassPathToSchema, actorClassPathToSchema.Keys, subobjectClassPathToSchema.Keys, r[id], id)
    {
      var fromActors := AddAllActorIds(actorClassPathToSchema, subobjectClassPathToSchema);
      r := AddAllDynamicIds(fromActors, actorClassPathToSchema, subobjectClassPathToSchema);
      r := r - {INVALID_COMPONENT_ID};
    }

    /** Forgets all generated schema; numbering starts over at STARTING_GENERATED_COMPONENT_ID. */
    method ClearGeneratedSchema()
      modifies this`actorClassPathToSchema, this`subobjectClassPathToSchema, this`levelComponentIds,
               this`levelPathToComponentId, this`nextAvailableComponentId
      ensures actorClassPathToSchema == map[] && subobjectClassPathToSchema == map[]
      ensures levelComponentIds == {} && levelPathToComponentId == map[]
      ensures nextAvailableComponentId == STARTING_GENERATED_COMPONENT_ID
    {
      actorClassPathToSchema := map[];
      subobjectClassPathToSchema := map[];
      levelComponentIds := {};
      levelPathToComponentId := map[];
      nextAvailableComponentId := STARTING_GENERATED_COMPONENT_ID;
    }

    /** A database written before id generation was made non-destructive: classes, but numbering at the start. */
    predicate IsOldDatabase()
      reads this
    {
      IsOldFormat(actorClassPathToSchema, nextAvailableComponentId)
    }

    /**
     * Loads the schema database, if there is one, as the starting point of
     * generation. A read-only or unloadable database fails and changes
     * nothing; a missing one, or one from before non-destructive id
     * generation, starts from empty.
     */
    method TryLoadExistingSchemaDatabase(file: DatabaseFile) returns (ok: bool)
      modifies this`actorClassPathToSchema, this`subobjectClassPathToSchema, this`levelComponentIds,
               this`levelPathToComponentId, this`nextAvailableComponentId
      ensures ok <==> !(file.ReadOnly? || file.Unloadable?)
      ensures !ok ==> unchanged(this)
      ensures ok ==> !IsOldDatabase()
      ensures file.Loaded? && !IsOldFormat(file.saved.actorClassPathToSchema, file.saved.nextAvailableComponentId) ==>
        actorClassPathToSchema == file.saved.actorClassPathToSchema && subobjectClassPathToSchema == file.saved.subobjectClassPathToSchema
        && levelComponentIds == file.saved.levelComponentIds && levelPathToComponentId == file.saved.levelPathToComponentId
        && nextAvailableComponentId == file.saved.nextAvailableComponentId
      ensures file.Missing? || (file.Loaded? && IsOldFormat(file.saved.actorClassPathToSchema, file.saved.nextAvailableComponentId)) ==>
        actorClassPathToSchema == map[] && subobjectClassPathToSchema == map[] && levelComponentIds == {}
        && levelPathToComponentId == map[] && nextAvailableComponentId == STARTING_GENERATED_COMPONENT_ID
    {
      match file
      case Missing =>
        ClearGeneratedSchema();
        ok := true;
      case ReadOnly =>
        ok := false;
      case Unloadable =>
        ok := false;
      case Loaded(saved) =>
        actorClassPathToSchema := saved.actorClassPathToSchema;
        subobjectClassPathToSchema := saved.subobjectClassPathToSchema;
        levelComponentIds := saved.levelComponentIds;
        levelPathToComponentId := saved.levelPathToComponentId;
        nextAvailableComponentId := saved.nextAvailableComponentId;
        if IsOldDatabase() {
          ClearGeneratedSchema();
        }
        ok := true;
    }
  }
}
