# SpatialOS GDK for Unreal: outbound replication core

This project models the outbound replication path of the SpatialOS GDK for Unreal. It covers the part that turns an engine object's changes into SpatialOS component data, interest queries and RPCs. It also covers the editor bookkeeping that gives classes and streaming levels their schema names and component ids. The model is written in Dafny, and every contract below is proved.

Modules, in the order the source layers them:

- `Constants` (constants.dfy): well-known component ids, the schema component triple of a class (Data, OwnerOnly, Handover) and object references.
- `SchemaDatabase` (schema_database.dfy): the schema database's lookups and its default state.
- `Interest` (interest.dfy): the query-constraint tree, queries and what makes a constraint valid.
- `ActorInterestQueryComponent` (actor_interest_query_component.dfy): user-authored constraints (relative cylinder, actor type, and) turned into query constraints, and the query they make.
- `InterestFactory` (interest_factory.dfy): the interest of an actor.
  - Pure construction is written as functions.
  - The accumulating loops (running maximum, always-interested references, level constraints) are methods proved equal to fold functions.
- `ComponentFactory` (component_factory.dfy): property encoding and the component data and updates built from a changelist.
  - `AddProperty` is a recursive encoder over a small value type.
  - The fill loops are methods of a `Factory` class that updates the caller's pending maps and interest flag.
  - Each of those methods is proved equal to a fold over field encodings.
- `OutgoingIndex` (outgoing_index.dfy): the two-way index of updates held back on unresolved objects.
  - Shared waiting sets live in an arena.
  - Both maps hold arena ids, so removing an object from a set is seen through both.
- `SpatialSender` (spatial_sender.dfy): the sender's own state.
  - the authority queue;
  - reliable-RPC retries;
  - packed unreliable RPCs;
  - RPCs waiting for their target;
  - the worker-entity creation retry decision;
  - a new entity's access-control lists.

  Every message handed to the worker connection is appended to a log in a `Connection` object.
- `SchemaGenerator` (schema_generator.dfy): unique schema names, name validation, sublevel component ids, the component-id-to-class-path map, and clearing and loading the schema database.

Where a header declares something different from its implementation file, the model follows the implementation file:

- SpatialSender.h declares `SendRPC` returning bool and a `ResolveOutgoingRPCs` without arguments.
- SpatialSender.cpp and InterestFactory.cpp name the interest map type differently.

## Model

| member | source | states |
|---|---|---|
| SchemaDatabase.Database.GetComponentIdFromLevelPath | SpatialGDK/Source/SpatialGDK/Public/Utils/SchemaDatabase.h:46-54 | After the PIE prefix is stripped, a known level path gives its stored id and an unknown one gives INVALID_COMPONENT_ID. |
| SchemaDatabase.Database.GetComponentIdForClass | SpatialGDK/Source/SpatialGDK/Public/Utils/SchemaDatabase.h:62-70 | A known class path gives the Data component id of its schema entry; an unknown one gives INVALID_COMPONENT_ID. |
| SchemaDatabase.NewDatabase | SpatialGDK/Source/SpatialGDK/Public/Utils/SchemaDatabase.h:44 | A fresh database has every map empty and the counter at STARTING_GENERATED_COMPONENT_ID. |
| SchemaDatabase.NewSchemaData | SpatialGDK/Source/SpatialGDK/Public/Utils/SchemaDatabase.h:26-35 | A fresh schema entry has all three component ids zero-initialised (INVALID) and no subobjects. |
| SchemaDatabase.FreshDatabaseLookups | SpatialGDK/Source/SpatialGDK/Public/Utils/SchemaDatabase.h:44-70 | Both lookups on a fresh database give INVALID_COMPONENT_ID for every key. |
| SchemaDatabase.LevelLookupAfterRecord | SpatialGDK/Source/SpatialGDK/Public/Utils/SchemaDatabase.h:46-54 | After a level path is recorded, a query for it gives the new id and every other query is unaffected. The class lookup is unaffected too, and the id joins the level id set. |
| SchemaDatabase.LookupsReturnStoredIds | SpatialGDK/Source/SpatialGDK/Public/Utils/SchemaDatabase.h:46-70 | Both lookups are read-only and never invent an id: the result is INVALID or a value stored in the database. |
| Interest.ValidIffPopulated | SpatialGDK/Source/SpatialGDK/Private/Utils/InterestFactory.cpp:96-119 | On trees whose and/or children are all valid, which is every tree the factory builds, the recursive validity coincides with "a leaf is set or the and/or list is non-empty". |
| Interest.FilterValid | SpatialGDK/Source/SpatialGDK/Private/Utils/InterestFactory.cpp:136-145 | Keeps exactly the valid sub-constraints, and never more of them than it was given. |
| Interest.FilterValidKeepsSome | SpatialGDK/Source/SpatialGDK/Private/Utils/InterestFactory.cpp:136-145 | The filtered list has a valid member iff the original has one. |
| Interest.FilterValidCombinator | SpatialGDK/Source/SpatialGDK/Private/Utils/InterestFactory.cpp:130-168 | An OR or AND built from the valid sub-constraints is valid iff some sub-constraint is. |
| ActorInterestQueryComponent.CreateConstraint | SpatialGDK/Source/SpatialGDK/Private/Components/ActorInterestQueryComponent.cpp:8-47 | A relative cylinder's radius is given in metres, so the radius times 100 is the centimetre value. An actor-type constraint is an OR. An AND has exactly one child per nested constraint. |
| ActorInterestQueryComponent.ActorTypeChildren | SpatialGDK/Source/SpatialGDK/Private/Components/ActorInterestQueryComponent.cpp:14-37 | At most one child per class in the universe; each child is a component constraint with a valid id, and a component id appears iff some class that is a child of the actor type has that Data component id. |
| ActorInterestQueryComponent.AndConstraintChildren | SpatialGDK/Source/SpatialGDK/Private/Components/ActorInterestQueryComponent.cpp:39-47 | The AND's i-th child is the constraint made from the i-th nested constraint, with no validity filtering. |
| ActorInterestQueryComponent.NewQueryComponent | SpatialGDK/Source/SpatialGDK/Private/Components/ActorInterestQueryComponent.cpp:49-53 | A new query component has zero updates per second and keeps its constraint. |
| ActorInterestQueryComponent.CreateQuery | SpatialGDK/Source/SpatialGDK/Private/Components/ActorInterestQueryComponent.cpp:55-66 | The query has frequency = updates per second, full snapshot results, and the component's constraint. |
| InterestFactory.CheckoutRadiusIsMaximum | SpatialGDK/Source/SpatialGDK/Private/Utils/InterestFactory.cpp:175-190 | With non-negative radii, the checkout radius is at least radius/100 of every component and equals one of them. It is 0 when there are none and never negative. |
| InterestFactory.CreateActorInterestConstraint | SpatialGDK/Source/SpatialGDK/Private/Utils/InterestFactory.cpp:175-190 | The running-maximum loop yields the relative cylinder of the checkout radius, which is non-negative. |
| InterestFactory.AddObjectToConstraint | SpatialGDK/Source/SpatialGDK/Private/Utils/InterestFactory.cpp:220-239 | Keeps the existing children and appends one entity-id constraint exactly when the object is non-null and has a valid reference. |
| InterestFactory.AddObjectsExact | SpatialGDK/Source/SpatialGDK/Private/Utils/InterestFactory.cpp:203-210 | Scanning an array's elements adds exactly the entity constraints of its non-null, validly referenced elements. |
| InterestFactory.AddFieldsExact | SpatialGDK/Source/SpatialGDK/Private/Utils/InterestFactory.cpp:192-218 | Scanning all always-interested fields adds exactly the entity constraints that some field refers to. |
| InterestFactory.AlwaysInterestedExact | SpatialGDK/Source/SpatialGDK/Private/Utils/InterestFactory.cpp:192-218 | The always-interested OR holds only entity-id constraints: an entity appears iff some object or array-element field refers to it validly. Null and invalid references are skipped. |
| InterestFactory.CreateAlwaysInterestedConstraint | SpatialGDK/Source/SpatialGDK/Private/Utils/InterestFactory.cpp:192-218 | The nested scanning loops build exactly the always-interested OR. |
| InterestFactory.AddLevels | SpatialGDK/Source/SpatialGDK/Private/Utils/InterestFactory.cpp:254-271 | Adding levels keeps the constraints already present as a prefix. |
| InterestFactory.AddLevelsExact | SpatialGDK/Source/SpatialGDK/Private/Utils/InterestFactory.cpp:254-271 | A constraint is present iff it was there already or it is the component constraint of a visible level whose id is known. |
| InterestFactory.LevelConstraintExact | SpatialGDK/Source/SpatialGDK/Private/Utils/InterestFactory.cpp:241-274 | The level OR starts with NOT_STREAMED_COMPONENT_ID and holds only component constraints. Any other id appears iff some visible level maps to it; unknown levels are skipped. |
| InterestFactory.CreateLevelConstraints | SpatialGDK/Source/SpatialGDK/Private/Utils/InterestFactory.cpp:241-274 | The appending loop builds exactly the level OR. |
| InterestFactory.UserDefinedConstraints | SpatialGDK/Source/SpatialGDK/Private/Utils/InterestFactory.cpp:170-173 | The user-defined constraint is empty and therefore invalid. |
| InterestFactory.DefinedConstraintsAlwaysValid | SpatialGDK/Source/SpatialGDK/Private/Utils/InterestFactory.cpp:130-168 | The system-defined OR always holds the actor's checkout cylinder first and is valid. The defined OR is exactly that one system-defined constraint, since the user part is never valid, and it is valid too. |
| InterestFactory.LevelConstraintValid | SpatialGDK/Source/SpatialGDK/Private/Utils/InterestFactory.cpp:241-274 | The level constraint is always valid, because of its NOT_STREAMED entry. |
| InterestFactory.CreateActorInterest | SpatialGDK/Source/SpatialGDK/Private/Utils/InterestFactory.cpp:55-79 | Only POSITION_COMPONENT_ID can be a key. It is present iff the defined constraint is valid, and then holds exactly one full-snapshot query of it. |
| InterestFactory.CreatePlayerOwnedActorInterest | SpatialGDK/Source/SpatialGDK/Private/Utils/InterestFactory.cpp:81-128 | The server query goes under POSITION iff the defined constraint is valid. The client query, whose constraint is the AND of whichever of the defined and level constraints are valid, goes under CLIENT_RPC_ENDPOINT iff that AND is valid. No other key is used. |
| InterestFactory.CreateInterest | SpatialGDK/Source/SpatialGDK/Private/Utils/InterestFactory.cpp:38-53 | With query-based interest off the interest is empty. Otherwise an actor with a net connection gets the player-owned interest and any other actor gets actor interest. |
| InterestFactory.ClientConstraintShape | SpatialGDK/Source/SpatialGDK/Private/Utils/InterestFactory.cpp:93-106 | The client constraint is always the AND of the defined and level constraints, and it is valid. |
| InterestFactory.AndOfValidPair | SpatialGDK/Source/SpatialGDK/Private/Utils/InterestFactory.cpp:98-106 | When both constraints are valid, filtering keeps both, and their AND is valid. |
| InterestFactory.InterestShape | SpatialGDK/Source/SpatialGDK/Private/Utils/InterestFactory.cpp:38-128 | With query-based interest on, an actor without a connection gets one POSITION query. A player-owned actor gets both the POSITION and the CLIENT_RPC_ENDPOINT queries. Every query constraint is well formed. |
| ComponentFactory.ResolveObject | SpatialGDK/Source/SpatialGDK/Private/Utils/ComponentFactory.cpp:218-274 | An object reference waits only on the object itself, and a reference that waits is written as the null reference. |
| ComponentFactory.AddPropertyStaysOnField | SpatialGDK/Source/SpatialGDK/Private/Utils/ComponentFactory.cpp:138-320 | Every write and cleared id of a property is on its own field id. Nothing is reported cleared without a cleared list. The objects waited on are among those the value mentions. |
| ComponentFactory.JoinAllFacts | SpatialGDK/Source/SpatialGDK/Private/Utils/ComponentFactory.cpp:288-300 | Joined element encodings stay on the field and wait only on the objects mentioned. They set the interest flag iff some element did, and report a clear only if some element did. |
| ComponentFactory.ArrayInterestDirty | SpatialGDK/Source/SpatialGDK/Private/Utils/ComponentFactory.cpp:288-300 | An array sets the interest flag iff one of its elements does. |
| ComponentFactory.EmptyArrayIsCleared | SpatialGDK/Source/SpatialGDK/Private/Utils/ComponentFactory.cpp:288-300 | An empty array writes nothing, waits on nothing, and is reported as cleared exactly when a cleared list is supplied. |
| ComponentFactory.ArrayElementsInOrder | SpatialGDK/Source/SpatialGDK/Private/Utils/ComponentFactory.cpp:288-300 | A non-empty array's writes are its elements' writes under the same field id, first element first. |
| ComponentFactory.ObjectReferenceEncoding | SpatialGDK/Source/SpatialGDK/Private/Utils/ComponentFactory.cpp:218-274 | A null or pending-kill object is written as the null reference. An unresolvable object that is not stably named is written as null and reported unresolved. The interest flag is the property's always-interested flag. |
| ComponentFactory.IntegerRoundTrip | SpatialGDK/Source/SpatialGDK/Private/Utils/ComponentFactory.cpp:184-215 | Integers are widened (8/16/32-bit signed to int32, byte/uint16/uint32 to uint32, 64-bit unchanged), and every in-range value reads back unchanged from its write. |
| ComponentFactory.NarrowEnumRoundTrip | SpatialGDK/Source/SpatialGDK/Private/Utils/ComponentFactory.cpp:301-311 | An enum narrower than 4 bytes is one uint32 write of its value modulo 2^32, and it reads back unchanged. |
| ComponentFactory.WideEnumAsUnderlying | SpatialGDK/Source/SpatialGDK/Private/Utils/ComponentFactory.cpp:301-311 | An enum of 4 bytes or more is encoded exactly as its underlying integer. |
| ComponentFactory.EncodeFieldStaysOnField | SpatialGDK/Source/SpatialGDK/Private/Utils/ComponentFactory.cpp:52-72 | A changed field, property or fast-array delta, writes only under its handle and clears nothing without a cleared list. |
| ComponentFactory.ClearField | SpatialGDK/Source/SpatialGDK/Private/Utils/ComponentFactory.cpp:80-85 | Clearing a field removes exactly the writes to that field. |
| ComponentFactory.GroupFieldsExact | SpatialGDK/Source/SpatialGDK/Private/Utils/ComponentFactory.cpp:40-46 | Exactly the changes whose parent condition maps to the requested group are encoded. |
| ComponentFactory.EncodeFieldsOnOwnField | SpatialGDK/Source/SpatialGDK/Private/Utils/ComponentFactory.cpp:40-100 | Every encoded field writes only its own handle, and without a cleared list reports nothing cleared. |
| ComponentFactory.FillWroteIff | SpatialGDK/Source/SpatialGDK/Private/Utils/ComponentFactory.cpp:74-121 | A fill reports that it wrote something iff some processed field had no unresolved objects. |
| ComponentFactory.FillInterestIff | SpatialGDK/Source/SpatialGDK/Private/Utils/ComponentFactory.cpp:218-274 | The interest flag ends set iff it was set or some processed field met an always-interested object property. |
| ComponentFactory.FillPendingExact | SpatialGDK/Source/SpatialGDK/Private/Utils/ComponentFactory.cpp:74-132 | A handle is in the pending map iff it was there before or some field with that handle had unresolved objects. With distinct handles, its entry is exactly that field's unresolved set. |
| ComponentFactory.DeltaClearsUnresolvedFields | SpatialGDK/Source/SpatialGDK/Private/Utils/ComponentFactory.cpp:78-86 | In a delta update no write remains for a field with unresolved objects. |
| ComponentFactory.InitialDataKeepsAllWrites | SpatialGDK/Source/SpatialGDK/Private/Utils/ComponentFactory.cpp:78-86 | Initial data keeps every field's writes, including fields with unresolved objects, and adds no cleared ids. |
| ComponentFactory.Tags | SpatialGDK/Source/SpatialGDK/Private/Utils/ComponentFactory.cpp:377-425 | Each update is tagged by position, and a tag is Interest iff its update is the interest update. |
| ComponentFactory.RepStageTag | SpatialGDK/Source/SpatialGDK/Private/Utils/ComponentFactory.cpp:381-402 | A replicated group's stage adds one update iff its change state is given, its component id is valid and its fill wrote something. |
| ComponentFactory.HandoverStageTag | SpatialGDK/Source/SpatialGDK/Private/Utils/ComponentFactory.cpp:404-415 | The handover stage adds one update iff its change state is given, the id is valid and the fill wrote something. |
| ComponentFactory.ComponentUpdatesOrder | SpatialGDK/Source/SpatialGDK/Private/Utils/ComponentFactory.cpp:377-425 | The updates come in the order Data, OwnerOnly, Handover, each present iff its stage wrote. An Interest update is appended iff the object is an actor and interest is dirty after the fills. |
| ComponentFactory.InterestUpdateLast | SpatialGDK/Source/SpatialGDK/Private/Utils/ComponentFactory.cpp:417-422 | The Interest update, when present, is last and carries the object's interest. |
| ComponentFactory.Factory.FillSchemaObject | SpatialGDK/Source/SpatialGDK/Private/Utils/ComponentFactory.cpp:31-102 | The loop over the changelist leaves exactly the fold of field steps: schema object, cleared ids, wrote flag, pending map and interest flag. The handover pending map is untouched. |
| ComponentFactory.Factory.FillHandoverSchemaObject | SpatialGDK/Source/SpatialGDK/Private/Utils/ComponentFactory.cpp:104-136 | The same for handover handles, which must satisfy 1 <= h <= the number of handover properties. The replicated pending map is untouched. |
| ComponentFactory.Factory.CreateComponentData | SpatialGDK/Source/SpatialGDK/Private/Utils/ComponentFactory.cpp:344-356 | Initial data: every field kept and no cleared list. |
| ComponentFactory.Factory.CreateHandoverComponentData | SpatialGDK/Source/SpatialGDK/Private/Utils/ComponentFactory.cpp:367-375 | Initial handover data: every field kept and no cleared list. |
| ComponentFactory.Factory.CreateComponentDatas | SpatialGDK/Source/SpatialGDK/Private/Utils/ComponentFactory.cpp:322-342 | The datas and the new pending maps and interest flag are those of the Data, OwnerOnly and Handover initial-data fills chained in that order, each stage present only when its component id is valid; one data per valid component id, in that order. |
| ComponentFactory.ComponentDatasExact | SpatialGDK/Source/SpatialGDK/Private/Utils/ComponentFactory.cpp:322-342 | One data per valid component id of the class, in order; the Data component's data holds every write of the Data group's fill; an absent Data and OwnerOnly component leaves the replicated pending map untouched, and an absent Handover component the handover one. |
| ComponentFactory.Factory.CreateComponentUpdate | SpatialGDK/Source/SpatialGDK/Private/Utils/ComponentFactory.cpp:427-450 | A delta update with a cleared list, and whether it wrote anything. |
| ComponentFactory.Factory.CreateHandoverComponentUpdate | SpatialGDK/Source/SpatialGDK/Private/Utils/ComponentFactory.cpp:452-477 | A handover delta update with a cleared list, and whether it wrote anything. |
| ComponentFactory.Factory.CreateComponentUpdates | SpatialGDK/Source/SpatialGDK/Private/Utils/ComponentFactory.cpp:377-425 | The updates and new factory state are exactly ComponentUpdates of the old state, whose order ComponentUpdatesOrder states. |
| OutgoingIndex.Put | SpatialGDK/Source/SpatialGDK/Private/Interop/SpatialSender.cpp:904-912 | Storing a handle's entry adds exactly that (pair, handle) and keeps every other entry. It replaces an earlier entry for the handle and keeps the map pruned. |
| OutgoingIndex.Drop | SpatialGDK/Source/SpatialGDK/Private/Interop/SpatialSender.cpp:883-887 | Dropping removes exactly that (pair, handle), prunes an emptied inner map and keeps the rest. |
| OutgoingIndex.PutReverse | SpatialGDK/Source/SpatialGDK/Private/Interop/SpatialSender.cpp:914-922 | Adds exactly the reverse entry object -> pair -> handle and keeps every other entry. |
| OutgoingIndex.DropReverse | SpatialGDK/Source/SpatialGDK/Private/Interop/SpatialSender.cpp:867-881 | Removes exactly that reverse entry, prunes emptied inner maps and keeps the rest. |
| OutgoingIndex.EmptyIndex | SpatialGDK/Source/SpatialGDK/Public/Interop/SpatialSender.h:152-156 | The empty index satisfies the consistency invariant between the two maps. |
| OutgoingIndex.QueuePreservesValid | SpatialGDK/Source/SpatialGDK/Private/Interop/SpatialSender.cpp:890-928 | Queuing keeps both maps consistent (the FindChecked and check of the source hold). The new handle waits on exactly the given set, and every other pending handle keeps its set. |
| OutgoingIndex.ResetPreservesValid | SpatialGDK/Source/SpatialGDK/Private/Interop/SpatialSender.cpp:834-888 | Resetting keeps both maps consistent, removes exactly that handle, and leaves every other waiting set unchanged. |
| OutgoingIndex.ResolvePreservesValid | SpatialGDK/Source/SpatialGDK/Private/Interop/SpatialSender.cpp:1122-1193 | Resolution keeps both maps consistent. The object leaves every waiting set of a live pair it was in, and all other sets are unchanged. |
| OutgoingIndex.UnresolvedIndex.constructor | SpatialGDK/Source/SpatialGDK/Public/Interop/SpatialSender.h:152-156 | A new index is empty and consistent. |
| OutgoingIndex.UnresolvedIndex.QueueOutgoingUpdate | SpatialGDK/Source/SpatialGDK/Private/Interop/SpatialSender.cpp:890-928 | Stores one waiting set under pair -> handle, and under object -> pair -> handle for each object in it. The handle becomes pending with exactly that set, and other handles are unchanged. |
| OutgoingIndex.UnresolvedIndex.ResetOutgoingUpdate | SpatialGDK/Source/SpatialGDK/Private/Interop/SpatialSender.cpp:834-888 | Removes the handle from both maps with pruning. It is a no-op when the pair or handle is not pending, and other handles keep their sets. |
| OutgoingIndex.UnresolvedIndex.ResolveOutgoingOperations | SpatialGDK/Source/SpatialGDK/Private/Interop/SpatialSender.cpp:1122-1193 | For each live pair reached through the object, removes the object from its waiting sets and deletes the handles whose set became empty. It returns those handles per pair, and every pair with a resolved handle is among the resends. The object's reverse key is removed, and dead pairs are skipped. |
| SpatialSender.RetryRPC.constructor | SpatialGDK/Source/SpatialGDK/Private/Interop/SpatialSender.cpp:61-70 | A new retry record keeps its arguments and starts with one attempt. |
| SpatialSender.Select | SpatialGDK/Source/SpatialGDK/Private/Interop/SpatialSender.cpp:445-460 | The updates for components on one side of the authority test, in order. |
| SpatialSender.SelectPartition | SpatialGDK/Source/SpatialGDK/Private/Interop/SpatialSender.cpp:445-462 | The sent and the queued updates together are a permutation of the updates. An update is sent iff this worker is authoritative over its component. |
| SpatialSender.Withhold | SpatialGDK/Source/SpatialGDK/Private/Interop/SpatialSender.cpp:447-456 | Withheld updates are appended to the entity's queue, and every other entity's queue is unchanged. |
| SpatialSender.NonZeroAppend | SpatialGDK/Source/SpatialGDK/Private/Interop/SpatialSender.cpp:418-421 | Skipping the 0 terminators of a handle list distributes over concatenation. |
| SpatialSender.RepChangeListHandles | SpatialGDK/Source/SpatialGDK/Private/Interop/SpatialSender.cpp:1158-1186 | The change list rebuilt for resent handles ends in 0, and its non-zero entries are exactly the resent handles, in order. |
| SpatialSender.ExpandHandles | SpatialGDK/Source/SpatialGDK/Private/Interop/SpatialSender.cpp:1158-1165 | Wrapping dynamic-array handles in their array markers leaves the non-zero handles unchanged. |
| SpatialSender.ResendMessages | SpatialGDK/Source/SpatialGDK/Private/Interop/SpatialSender.cpp:1176-1189 | One resend message per resolved pair, carrying that pair's change list. |
| SpatialSender.ResolvedHandlesPositive | SpatialGDK/Source/SpatialGDK/Private/Interop/SpatialSender.cpp:1176-1187 | Every handle resent after resolution is non-zero, so the rebuilt change list is well formed. |
| SpatialSender.RetryMessages | SpatialGDK/Source/SpatialGDK/Private/Interop/SpatialSender.cpp:762-787 | Only RPCs whose target is alive and resolved produce a retry command, one each. |
| SpatialSender.InsertByRetryIndex | SpatialGDK/Source/SpatialGDK/Private/Interop/SpatialSender.cpp:753-754 | Inserting keeps the list sorted by retry index and adds exactly the one RPC. |
| SpatialSender.SortByRetryIndex | SpatialGDK/Source/SpatialGDK/Private/Interop/SpatialSender.cpp:753-754 | The retry list is sorted by retry index and is a permutation of the original. |
| SpatialSender.RetryMessagesOrdered | SpatialGDK/Source/SpatialGDK/Private/Interop/SpatialSender.cpp:751-761 | Retries from a sorted list are issued in ascending retry index. |
| SpatialSender.AddUnreliableKeepsOrder | SpatialGDK/Source/SpatialGDK/Private/Interop/SpatialSender.cpp:1099-1105 | Adding a packed RPC appends it to its entity's list, keeps other lists, and keeps the first-insertion order of entities in step with the keys. |
| SpatialSender.PackedMessages | SpatialGDK/Source/SpatialGDK/Private/Interop/SpatialSender.cpp:476-511 | One packed update per entity in order, carrying that entity's pending RPCs. |
| SpatialSender.PackedMessagesExact | SpatialGDK/Source/SpatialGDK/Private/Interop/SpatialSender.cpp:476-511 | Flushing emits exactly one update per controller entity with pending RPCs. It carries that entity's RPCs in insertion order, and no entity gets two updates. |
| SpatialSender.FirstAliveIndex | SpatialGDK/Source/SpatialGDK/Private/Interop/SpatialSender.cpp:1087-1095 | The index of the first live object, or the length when none is alive. |
| SpatialSender.FirstAlive | SpatialGDK/Source/SpatialGDK/Private/Interop/SpatialSender.cpp:1087-1095 | The unresolved object reported is the first live one, and there is none iff no object is alive. |
| SpatialSender.ResentRPCs | SpatialGDK/Source/SpatialGDK/Private/Interop/SpatialSender.cpp:1195-1218 | Resending never produces more messages than the queued RPCs. |
| SpatialSender.ResentRPCsExact | SpatialGDK/Source/SpatialGDK/Private/Interop/SpatialSender.cpp:1195-1218 | An RPC queued on the object is resent iff its target is still alive. |
| SpatialSender.QueuedRPCResentLast | SpatialGDK/Source/SpatialGDK/Private/Interop/SpatialSender.cpp:930-936 | An RPC queued after the others on an object is resent after them. |
| SpatialSender.OnCreateWorkerEntityResponse | SpatialGDK/Source/SpatialGDK/Private/Interop/SpatialSender.cpp:368-399 | The decision is to retry iff the response is a timeout and the counter is not MAX_NUMBER_COMMAND_ATTEMPTS, and a retry uses counter + 1. |
| SpatialSender.RequestsBounded | SpatialGDK/Source/SpatialGDK/Private/Interop/SpatialSender.cpp:336-399 | Starting from any counter in 1..MAX, at most MAX - counter + 1 requests are ever sent, whatever the responses. |
| SpatialSender.ServerSets | SpatialGDK/Source/SpatialGDK/Private/Interop/SpatialSender.cpp:106-113 | One single-attribute set per server worker type. |
| SpatialSender.ServerRequirements | SpatialGDK/Source/SpatialGDK/Private/Interop/SpatialSender.cpp:98-113 | The any-server set is one set per server type. The any-server-or-client and any-server-or-owning-client sets add the client set and the owner set, respectively. |
| SpatialSender.WellKnownWriteAcl | SpatialGDK/Source/SpatialGDK/Private/Interop/SpatialSender.cpp:133-157 | The write ACL has exactly the well-known ids. The creation-RPC component is included only with pending creation RPCs, heartbeat only for player controllers, and metrics only outside shipping builds. Each id has the set the source gives it. |
| SpatialSender.AddSchemaComponents | SpatialGDK/Source/SpatialGDK/Private/Interop/SpatialSender.cpp:159-168 | Every valid schema component of the class gets the authoritative set, and other entries are unchanged. |
| SpatialSender.AddSubobjectComponents | SpatialGDK/Source/SpatialGDK/Private/Interop/SpatialSender.cpp:170-191 | Every valid schema component of each present subobject gets the authoritative set. Absent subobjects add nothing, and other entries are unchanged. |
| SpatialSender.CreateEntityAcl | SpatialGDK/Source/SpatialGDK/Private/Interop/SpatialSender.cpp:96-191 | The read ACL is servers only for server-only classes, servers and the owner for player controllers, and servers and clients otherwise. The write ACL has exactly the well-known ids and the schema ids. Schema ids go to the class's worker type, and well-known ids get their own sets. |
| SpatialSender.ApplyChanges | SpatialGDK/Source/SpatialGDK/Private/Interop/SpatialSender.cpp:416-443 | Each changed handle, skipping 0 terminators for replicated lists, is reset and then held back again iff its new encoding has unresolved objects. The index stays consistent. |
| SpatialSender.Sender.constructor | SpatialGDK/Source/SpatialGDK/Public/Interop/SpatialSender.h:152-170 | A new sender has empty queues, an empty message log and two consistent, separate indices. |
| SpatialSender.Sender.SendComponentUpdates | SpatialGDK/Source/SpatialGDK/Private/Interop/SpatialSender.cpp:403-463 | Both indices end as ApplyChanges leaves them. The updates for authoritative components are sent in order, and the others are appended to the entity's authority queue. |
| SpatialSender.Sender.ProcessUpdatesQueuedUntilAuthority | SpatialGDK/Source/SpatialGDK/Private/Interop/SpatialSender.cpp:464-475 | Sends the entity's queue in enqueue order and deletes it. No other queue changes. |
| SpatialSender.Sender.ResolveOutgoingOperations | SpatialGDK/Source/SpatialGDK/Private/Interop/SpatialSender.cpp:1122-1193 | Resolves the object in the chosen index and leaves the other untouched. It then sends one resend per live pair with resolved handles, with positive handles for replicated properties. |
| SpatialSender.Sender.EnqueueRetryRPC | SpatialGDK/Source/SpatialGDK/Private/Interop/SpatialSender.cpp:746-750 | Appends the RPC to the retry list. |
| SpatialSender.Sender.RetryReliableRPC | SpatialGDK/Source/SpatialGDK/Private/Interop/SpatialSender.cpp:762-787 | Drops the RPC if its target is gone or unresolved. Otherwise it sends a retry command and increments the attempt count. |
| SpatialSender.Sender.FlushRetryRPCs | SpatialGDK/Source/SpatialGDK/Private/Interop/SpatialSender.cpp:751-761 | Retries in ascending retry index and leaves the retry list empty. Each retried RPC gains one attempt. |
| SpatialSender.Sender.AddPendingUnreliableRPC | SpatialGDK/Source/SpatialGDK/Private/Interop/SpatialSender.cpp:1047-1107 | An unresolved target is reported. An RPC whose entity has a controller owner is appended to that entity's pending list. Otherwise nothing changes. |
| SpatialSender.Sender.FlushPackedUnreliableRPCs | SpatialGDK/Source/SpatialGDK/Private/Interop/SpatialSender.cpp:476-511 | Sends the packed messages of every entity in first-insertion order, then empties the map. It is a no-op on an empty map. |
| SpatialSender.Sender.QueueOutgoingRPC | SpatialGDK/Source/SpatialGDK/Private/Interop/SpatialSender.cpp:930-936 | Appends the RPC to the queue of the unresolved object. |
| SpatialSender.Sender.ResolveOutgoingRPCs | SpatialGDK/Source/SpatialGDK/Private/Interop/SpatialSender.cpp:1195-1218 | Resends, in order, the queued RPCs whose targets are alive, then removes the object's queue. |
| SchemaGenerator.CheckSchemaNameValidity | SpatialGDK/Source/SpatialGDKEditor/Private/SchemaGenerator/SpatialGDKEditorSchemaGenerator.cpp:84-99 | A name is invalid iff it is empty or starts with a digit. |
| SchemaGenerator.Decimal | SpatialGDK/Source/SpatialGDKEditor/Private/SchemaGenerator/SpatialGDKEditorSchemaGenerator.cpp:232-239 | The decimal form of a suffix is non-empty and all digits. |
| SchemaGenerator.DecimalInjective | SpatialGDK/Source/SpatialGDKEditor/Private/SchemaGenerator/SpatialGDKEditorSchemaGenerator.cpp:232-239 | Distinct suffixes print differently. |
| SchemaGenerator.SuffixedInjective | SpatialGDK/Source/SpatialGDKEditor/Private/SchemaGenerator/SpatialGDKEditorSchemaGenerator.cpp:232-239 | The base name with distinct suffixes gives distinct names. |
| SchemaGenerator.SuffixKeepsValidity | SpatialGDK/Source/SpatialGDKEditor/Private/SchemaGenerator/SpatialGDKEditorSchemaGenerator.cpp:232-239 | Appending a suffix never changes whether a name is valid. |
| SchemaGenerator.FreeNameUnique | SpatialGDK/Source/SpatialGDKEditor/Private/SchemaGenerator/SpatialGDKEditorSchemaGenerator.cpp:232-239 | The first free name is unique: the base name if untaken, otherwise the base name with the smallest free suffix k >= 1. |
| SchemaGenerator.TakenFromShrinks | SpatialGDK/Source/SpatialGDKEditor/Private/SchemaGenerator/SpatialGDKEditorSchemaGenerator.cpp:232-239 | Each taken suffix skipped leaves fewer taken names ahead, so the search ends. |
| SchemaGenerator.FindFreeName | SpatialGDK/Source/SpatialGDKEditor/Private/SchemaGenerator/SpatialGDKEditorSchemaGenerator.cpp:232-239 | The suffix-search loop returns the first free name. |
| SchemaGenerator.CheckGroupNames | SpatialGDK/Source/SpatialGDKEditor/Private/SchemaGenerator/SpatialGDKEditorSchemaGenerator.cpp:105-127 | Fails iff a name is invalid or repeated within the group. Each name is kept at its first occurrence. |
| SchemaGenerator.CheckGroups | SpatialGDK/Source/SpatialGDKEditor/Private/SchemaGenerator/SpatialGDKEditorSchemaGenerator.cpp:101-205 | Fails iff some group has an invalid or repeated name. |
| SchemaGenerator.CheckIdentifierNameValidity | SpatialGDK/Source/SpatialGDKEditor/Private/SchemaGenerator/SpatialGDKEditorSchemaGenerator.cpp:101-205 | Success stays true iff every replicated group, the handover set, every RPC group and the subobjects have valid, distinct names. |
| SchemaGenerator.IdGenerator.Next | SpatialGDK/Source/SpatialGDKEditor/Private/SchemaGenerator/SpatialGDKEditorSchemaGenerator.cpp:330-332 | Returns the current counter and advances it by one. |
| SchemaGenerator.GroupEntryNamesDistinct | SpatialGDK/Source/SpatialGDKEditor/Private/SchemaGenerator/SpatialGDKEditorSchemaGenerator.cpp:318-350 | The names emitted for levels sharing one name (Name0 ... Name(n-1)) are pairwise distinct. |
| SchemaGenerator.ExtendsTrans | SpatialGDK/Source/SpatialGDKEditor/Private/SchemaGenerator/SpatialGDKEditorSchemaGenerator.cpp:318-350 | Two id assignments in a row are one assignment: kept ids stay, and new ids are fresh, distinct and from the counter's range. |
| SchemaGenerator.AddComponents | SpatialGDK/Source/SpatialGDKEditor/Private/SchemaGenerator/SpatialGDKEditorSchemaGenerator.cpp:371-374 | Maps each of a class's component ids to its path and keeps other entries. |
| SchemaGenerator.Generator.constructor | SpatialGDK/Source/SpatialGDKEditor/Private/SchemaGenerator/SpatialGDKEditorSchemaGenerator.cpp:42-54 | The editor's globals start empty with the counter at zero, and the name maps are inverse. |
| SchemaGenerator.Generator.AddPotentialNameCollision | SpatialGDK/Source/SpatialGDKEditor/Private/SchemaGenerator/SpatialGDKEditorSchemaGenerator.cpp:59-62 | Adds the collision to the set recorded under the desired name. |
| SchemaGenerator.Generator.AssignSchemaName | SpatialGDK/Source/SpatialGDKEditor/Private/SchemaGenerator/SpatialGDKEditorSchemaGenerator.cpp:212-246 | A mapped class path keeps its name. A new one gets the first free name in both directions, and collisions are recorded under the desired name when it differs and always under the assigned name. The name maps stay inverse. |
| SchemaGenerator.Generator.AssignSchemaNames | SpatialGDK/Source/SpatialGDKEditor/Private/SchemaGenerator/SpatialGDKEditorSchemaGenerator.cpp:212-246 | Every class ends with a name, existing names are kept and no other path is added. The result is whether every class name is valid, and the name maps stay inverse. |
| SchemaGenerator.Generator.ValidateIdentifierNames | SpatialGDK/Source/SpatialGDKEditor/Private/SchemaGenerator/SpatialGDKEditorSchemaGenerator.cpp:207-264 | Succeeds iff every class name and every identifier inside each class is valid and unique. Warnings are issued for exactly the names with more than one recorded claimant. |
| SchemaGenerator.Generator.ResolveClassPathToSchemaName | SpatialGDK/Source/SpatialGDKEditor/Private/SchemaGenerator/SpatialGDKEditorSchemaGenerator.cpp:595-612 | An empty name is ignored. Otherwise both maps record the pair and the collisions are recorded as for a new class. |
| SchemaGenerator.Generator.AssignLevelId | SpatialGDK/Source/SpatialGDKEditor/Private/SchemaGenerator/SpatialGDKEditorSchemaGenerator.cpp:327-333 | A path with an id keeps it. An unmapped path (lookup 0) gets the generator's next id, recorded in the path map and the level id set. |
| SchemaGenerator.Generator.AssignGroupIds | SpatialGDK/Source/SpatialGDKEditor/Private/SchemaGenerator/SpatialGDKEditorSchemaGenerator.cpp:318-337 | Emits one component per path of a level name, with the group's names and the paths' final ids. Ids assigned are fresh and distinct. |
| SchemaGenerator.Generator.GenerateSchemaForSublevels | SpatialGDK/Source/SpatialGDKEditor/Private/SchemaGenerator/SpatialGDKEditorSchemaGenerator.cpp:288-352 | Emits every level entry with its name and its final non-zero id. Existing ids are kept, and new ids are fresh, distinct, from the counter's range and only for the levels given. |
| SchemaGenerator.Generator.AddActorIds | SpatialGDK/Source/SpatialGDKEditor/Private/SchemaGenerator/SpatialGDKEditorSchemaGenerator.cpp:369-383 | Adds every component id an actor class and its subobjects claim, mapped to its class path. Other entries are kept. |
| SchemaGenerator.Generator.AddDynamicIds | SpatialGDK/Source/SpatialGDKEditor/Private/SchemaGenerator/SpatialGDKEditorSchemaGenerator.cpp:385-394 | Adds every component id of each dynamic-subobject slot of a class, mapped to its class path. |
| SchemaGenerator.Generator.AddAllActorIds | SpatialGDK/Source/SpatialGDKEditor/Private/SchemaGenerator/SpatialGDKEditorSchemaGenerator.cpp:369-383 | After all actor classes, an id is present iff some actor claims it, and it maps to a claimant. |
| SchemaGenerator.Generator.AddAllDynamicIds | SpatialGDK/Source/SpatialGDKEditor/Private/SchemaGenerator/SpatialGDKEditorSchemaGenerator.cpp:385-394 | After all subobject classes as well, an id is present iff some class claims it, and it maps to a claimant. |
| SchemaGenerator.Generator.CreateComponentIdToClassPathMap | SpatialGDK/Source/SpatialGDKEditor/Private/SchemaGenerator/SpatialGDKEditorSchemaGenerator.cpp:365-398 | The map never has the INVALID key. Every other claimed id is present and maps to a class that claims it. |
| SchemaGenerator.Generator.ClearGeneratedSchema | SpatialGDK/Source/SpatialGDKEditor/Private/SchemaGenerator/SpatialGDKEditorSchemaGenerator.cpp:530-540 | Empties the schema and level maps and resets the counter to STARTING_GENERATED_COMPONENT_ID. |
| SchemaGenerator.Generator.TryLoadExistingSchemaDatabase | SpatialGDK/Source/SpatialGDKEditor/Private/SchemaGenerator/SpatialGDKEditorSchemaGenerator.cpp:542-587 | Fails, changing nothing, iff the file is read-only or cannot be loaded. A missing file, or a loaded old-format database (non-empty actor map with the starting counter), clears the schema. Any other loaded database becomes the state. After success the state is never old-format. |

## Left out

- Transport and SDK calls are not executed. Sends are appended to the `Connection` log as messages. Component payloads are opaque bytes, and struct and fast-array serialisation results are parameters.
- The package map, object liveness, stable naming and authority are parameters: a reference function, an "alive" set and an authoritative-id set.
- SpatialSender.Sender.SendComponentUpdates: takes the component factory's output (updates, changed handles and unresolved sets) as parameters rather than calling the factory. Position and interest side updates, and the metrics tracking, are not modelled.
- OutgoingIndex.UnresolvedIndex.QueueOutgoingUpdate: requires that the handle is not already pending. SendComponentUpdates resets the handle just before queuing (SpatialSender.cpp:421-426 and 435-440). CreateEntity queues without a reset, for the actor (SpatialSender.cpp:260-268) and for each subobject (SpatialSender.cpp:298-306); it meets the requirement only because a newly created entity's channel has nothing pending yet. Queuing over a pending handle in the source replaces its property entry but keeps the old set's reverse entries, and the model does not cover that case.
- SpatialSender.Sender.ResolveOutgoingOperations: the nested SendComponentUpdates call for each resolved pair is logged as one resend message with the rebuilt change list. It is not executed.
- SendRPC, CreateEntity's component-data assembly, CreateServerWorkerEntity's entity construction, UpdateEntityACLs and UpdateInterestComponent are left out. These are SDK and component construction; only the ACL maps and the retry decision are modelled.
- Timers and back-off: the retry delay, SetTimer and GetCommandRetryWaitTimeSeconds are left out. Only the attempt counter and the retry/stop decision are modelled.
- SpatialSender.SortByRetryIndex: an insertion sort stands for the source's TArray::Sort. The order among RPCs with equal retry index is not modelled, since the source's sort is not stable.
- SpatialSender.Sender.FlushPackedUnreliableRPCs: entities are flushed in first-insertion order, which stands for TMap iteration order.
- TMap and TSet iteration order elsewhere is modelled as an arbitrary choice. This affects the order of resends in resolution and of ids in the class-path map. Contracts state sets, not orders, there.
- Radii are reals, not IEEE floats, so rounding in `/100` is not modelled.
- Interest.h (QueryConstraint::IsValid) is not part of this model. Validity is defined recursively: a leaf is set, or an and/or has a valid child. Interest.ValidIffPopulated shows that this coincides with the shallow check on every tree the factory builds.
- User constraint classes other than the relative cylinder, actor type and and constraint have no CreateConstraint body in the source and are not modelled.
- InterestFactory.h declares CreateCheckoutRadiusConstraint and CreateActorQueries without bodies, so the model has no per-type checkout radius and no singleton constraints.
- SpatialConstants.h and ComponentIdGenerator.h are not part of this model.
  - Well-known ids take the GDK's values, and only their distinctness is used.
  - The id generator is a counter that returns its value and advances.
- SchemaGenerator.Generator.GenerateSchemaForSublevels: requires a non-zero counter, because a zero id would read as "unmapped". The editor always starts its counter at STARTING_GENERATED_COMPONENT_ID or a loaded value.
- SchemaGenerator.Generator.AssignLevelId: requires a non-zero counter for the same reason.
- Schema-name conversion (UnrealNameToSchemaName, SchemaFieldName and the asset-name lookup) is a parameter function, and the identifiers inside a class arrive as lists of names per group.
- Collision messages are recorded as (class path, generated name) values rather than formatted strings.
- ResetUsedNames, GenerateSchemaFromClasses, SpatialGDKGenerateSchema's orchestration and all schema-generator file I/O are left out. That I/O is WriteToFile, CopyWellKnownSchemaFiles, DeleteGeneratedSchemaFiles, SaveSchemaDatabase and RunSchemaCompiler. Asset-registry level queries become a list of level groups passed in.
- SchemaGenerator.Generator.TryLoadExistingSchemaDatabase: the file is a value (read-only, unloadable, missing or loaded with its saved state). Deleting generated files and the log message on an old database are not modelled.
- The schema database fields the generator writes follow the generator source. SchemaDatabase.h's field list differs from what the generator writes, so SchemaDatabase models the header's lookups and the generator keeps its own maps.
- Debug visualisation, editor UI, build files and the metrics component are left out.
