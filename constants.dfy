/**
 * Well-known component ids, limits and the small value types shared by the
 * sender, the component factory, interest construction and schema
 * generation.
 *
 * SpatialConstants.h is not part of this model. The numeric values below are
 * the GDK's well-known ids; no proof depends on them other than that they
 * are pairwise distinct and that INVALID_COMPONENT_ID is 0 (the value every
 * zero-initialised SchemaComponents array holds).
 */
module Constants {

  type ComponentId = nat
  type EntityId = int
  type FieldId = nat

  /** Identity of an engine object (an actor, a subobject, an RPC target). */
  type ObjectId = nat

  const INVALID_COMPONENT_ID: ComponentId := 0

  const ENTITY_ACL_COMPONENT_ID: ComponentId := 50
  const POSITION_COMPONENT_ID: ComponentId := 54
  const INTEREST_COMPONENT_ID: ComponentId := 58
  const SPAWN_DATA_COMPONENT_ID: ComponentId := 9999
  const HEARTBEAT_COMPONENT_ID: ComponentId := 9991
  const CLIENT_RPC_ENDPOINT_COMPONENT_ID: ComponentId := 9990
  const SERVER_RPC_ENDPOINT_COMPONENT_ID: ComponentId := 9989
  const NETMULTICAST_RPCS_COMPONENT_ID: ComponentId := 9987
  const NOT_STREAMED_COMPONENT_ID: ComponentId := 9986
  const RPCS_ON_ENTITY_CREATION_ID: ComponentId := 9985
  const DEBUG_METRICS_COMPONENT_ID: ComponentId := 9984

  const STARTING_GENERATED_COMPONENT_ID: ComponentId := 10000

  const MAX_NUMBER_COMMAND_ATTEMPTS: nat := 5

  datatype Option<T> = None | Some(value: T)

  newtype Byte = x: int | 0 <= x < 256

  /** Serialised payload bytes, kept opaque. */
  type Bytes = seq<Byte>

  /**
   * A reference to a replicated object as the package map reports it: the
   * null reference, the "not yet resolvable" marker, or an entity id with
   * the object's offset inside that entity.
   */
  datatype ObjectRef =
    | NullRef
    | UnresolvedRef
    | Ref(entity: EntityId, offset: nat)
  {
    /** Neither null nor unresolved. */
    predicate IsValid() {
      Ref?
    }
  }

  /** The three schema components a class can own, in iteration order. */
  datatype SchemaComponentType = TypeData | TypeOwnerOnly | TypeHandover

  const SCHEMA_TYPES: seq<SchemaComponentType> := [TypeData, TypeOwnerOnly, TypeHandover]

  /** A per-type component id table, as a class info or schema entry holds it. */
  datatype SchemaComponents = SchemaComponents(data: ComponentId, ownerOnly: ComponentId, handover: ComponentId)
  {
    function Get(t: SchemaComponentType): ComponentId {
      match t
      case TypeData => data
      case TypeOwnerOnly => ownerOnly
      case TypeHandover => handover
    }

    /** The ids of this table that are not INVALID_COMPONENT_ID, in type order. */
    function ValidIds(): (ids: seq<ComponentId>)
      ensures forall id :: id in ids <==> (id != INVALID_COMPONENT_ID && exists t :: Get(t) == id)
    {
      var ids := (if data != INVALID_COMPONENT_ID then [data] else [])
        + (if ownerOnly != INVALID_COMPONENT_ID then [ownerOnly] else [])
        + (if handover != INVALID_COMPONENT_ID then [handover] else []);
      assert forall t :: Get(t) in [data, ownerOnly, handover];
      assert data == Get(TypeData) && ownerOnly == Get(TypeOwnerOnly) && handover == Get(TypeHandover);
      ids
    }
  }

  /** A zero-initialised table: every type holds INVALID_COMPONENT_ID. */
  const ZERO_SCHEMA_COMPONENTS: SchemaComponents := SchemaComponents(0, 0, 0)
}
