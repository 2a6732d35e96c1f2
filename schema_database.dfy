/**
 * The schema database asset: which component ids the generated schema gave
 * each class and each streaming level. Its lookups are const and fall back
 * to INVALID_COMPONENT_ID.
 */
module SchemaDatabase {
  import opened Constants

  datatype SubobjectSchemaData = SubobjectSchemaData(classPath: string, name: string, schemaComponents: SchemaComponents)

  datatype SchemaData = SchemaData(schemaComponents: SchemaComponents, subobjectData: map<nat, SubobjectSchemaData>)

  datatype Database = Database(
    classPathToSchema: map<string, SchemaData>,
    levelPathToComponentId: map<string, ComponentId>,
    levelComponentIds: set<ComponentId>,
    nextAvailableComponentId: ComponentId)
  {
    /**
     * The id of the streaming-level component for `levelPath`, after the
     * play-in-editor prefix is removed (`removePIEPrefix` stands for the
     * engine's UWorld::RemovePIEPrefix).
     */
    function GetComponentIdFromLevelPath(levelPath: string, removePIEPrefix: string -> string): (id: ComponentId)
      ensures removePIEPrefix(levelPath) in levelPathToComponentId ==> id == levelPathToComponentId[removePIEPrefix(levelPath)]
      ensures removePIEPrefix(levelPath) !in levelPathToComponentId ==> id == INVALID_COMPONENT_ID
    {
      var clean := removePIEPrefix(levelPath);
      if clean in levelPathToComponentId then levelPathToComponentId[clean] else INVALID_COMPONENT_ID
    }

    /** The SCHEMA_Data component id of the class at `classPath`. */
    function GetComponentIdForClass(classPath: string): (id: ComponentId)
      ensures classPath in classPathToSchema ==> id == classPathToSchema[classPath].schemaComponents.Get(TypeData)
      ensures classPath !in classPathToSchema ==> id == INVALID_COMPONENT_ID
    {
      if classPath in classPathToSchema then classPathToSchema[classPath].schemaComponents.data else INVALID_COMPONENT_ID
    }

    /** Records `id` as the component of the level at `path`, as the schema generator does. */
    function WithLevel(path: string, id: ComponentId): Database {
      this.(levelPathToComponentId := levelPathToComponentId[path := id],
            levelComponentIds := levelComponentIds + {id})
    }
  }

  /** A freshly constructed database. */
  function NewDatabase(): (db: Database)
    ensures db.nextAvailableComponentId == STARTING_GENERATED_COMPONENT_ID
    ensures db.classPathToSchema == map[] && db.levelPathToComponentId == map[] && db.levelComponentIds == {}
  {
    Database(map[], map[], {}, STARTING_GENERATED_COMPONENT_ID)
  }

  /** A default-constructed schema entry has every component id INVALID_COMPONENT_ID. */
  function NewSchemaData(): (d: SchemaData)
    ensures forall t :: d.schemaComponents.Get(t) == INVALID_COMPONENT_ID
    ensures d.subobjectData == map[]
  {
    SchemaData(ZERO_SCHEMA_COMPONENTS, map[])
  }

  /** Nothing is known to a fresh database: every lookup answers INVALID_COMPONENT_ID. */
  lemma {:induction false} FreshDatabaseLookups(levelPath: string, classPath: string, removePIEPrefix: string -> string)
    ensures NewDatabase().GetComponentIdFromLevelPath(levelPath, removePIEPrefix) == INVALID_COMPONENT_ID
    ensures NewDatabase().GetComponentIdForClass(classPath) == INVALID_COMPONENT_ID
  {
  }

  /**
   * A level recorded under its clean path is found again by any path that
   * cleans to it; other level lookups and the class lookups are unaffected.
   */
  lemma {:induction false} LevelLookupAfterRecord(db: Database, path: string, id: ComponentId, query: string, classPath: string, removePIEPrefix: string -> string)
    ensures removePIEPrefix(query) == path ==>
      db.WithLevel(path, id).GetComponentIdFromLevelPath(query, removePIEPrefix) == id
    ensures removePIEPrefix(query) != path ==>
      db.WithLevel(path, id).GetComponentIdFromLevelPath(query, removePIEPrefix) == db.GetComponentIdFromLevelPath(query, removePIEPrefix)
    ensures db.WithLevel(path, id).GetComponentIdForClass(classPath) == db.GetComponentIdForClass(classPath)
    ensures id in db.WithLevel(path, id).levelComponentIds
  {
  }

  /** A valid id returned by either lookup is one the database stores. */
  lemma {:induction false} LookupsReturnStoredIds(db: Database, levelPath: string, classPath: string, removePIEPrefix: string -> string)
    ensures var id := db.GetComponentIdFromLevelPath(levelPath, removePIEPrefix);
      id != INVALID_COMPONENT_ID ==> id in db.levelPathToComponentId.Values
    ensures var id := db.GetComponentIdForClass(classPath);
      id != INVALID_COMPONENT_ID ==> exists p :: p in db.classPathToSchema && db.classPathToSchema[p].schemaComponents.data == id
  {
    var id := db.GetComponentIdFromLevelPath(levelPath, removePIEPrefix);
    if id != INVALID_COMPONENT_ID {
      assert db.levelPathToComponentId[removePIEPrefix(levelPath)] == id;
    }
  }
}
