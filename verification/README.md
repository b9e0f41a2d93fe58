# eccy runtime core in Dafny

A model of the deterministic bookkeeping at the heart of the eccy
entity-component-system runtime, with proofs of its properties. The
runtime keeps entities (plain ids), components (objects of registered
classes, stored per entity and summarised in a 32-bit mask per entity),
resources (one instance per class) and systems (classes whose `run` is
called once per tick, in an order derived from their `runAfter`
declarations). Queries attached to systems keep result sets up to date as
components are added and removed.

Everything is modelled as immutable state and pure transitions:

- `ComponentMask` (`mask.dfy`): the mask as a `bv32`; JavaScript's `1 << id`
  takes the shift count modulo 32, and the model does the same.
- `Ids` (`ids.dfy`): the id counter that starts at -1 and pre-increments.
- `Registries` (`registry.dfy`): class-to-id and id-to-metadata maps.
- `Scopes` (`scope.dfy`): dynamically scoped state.
- `ComponentStore` (`store.dfy`): the component manager. Every mutation
  returns the new store and the list of handler notifications it causes,
  in the order the handlers were registered; handlers are identified by
  the index of the query that owns them.
- `EntityQueries` (`entityquery.dfy`): the entity query builder, the
  membership test, static queries (re-test on add/remove of a selected
  component) and reactive queries (collect the watched components that
  fired for an entity, show the entity once all have).
- `Resources` (`resources.dfy`): resource instances and the per-query
  accessed/modified flags.
- `Commands` (`commands.dfy`): the command buffer a system writes to.
- `Worlds` (`world.dfy`): the world; a store mutation's notifications are
  delivered to the world's queries before the mutation returns; applying
  the command buffer.
- `Systems` (`systems.dfy`): system configuration, the ordering pass and
  the run-once clearing.
- `Executors` (`executor.dfy`): one tick of `update`, with each system's
  `run` given as a parameter that yields the calls it makes.
- `Engines` (`engine.dfy`): the engine builder's duplicate checks and log
  level.
- `ScanQueries` (`scanquery.dfy`): the older scan-based query over
  `EntityData`, with its filters and selectors.

Errors are `Result` failures (`Wrappers`), one constructor per error class
of the source.

## Model

| member | source | states |
|---|---|---|
| Ids.NewProvider | src/engine/id.ts:7-8 | a new provider is in its valid state (counter -1, nothing issued) |
| Ids.Next | src/engine/id.ts:10-13 | the returned id is one more than the previous one, and the provider now records it as the last issued |
| Ids.FirstIdIsZero | src/engine/id.ts:8-12 | the first id handed out is 0, and a new provider has issued no id |
| Ids.NextIsFresh | src/engine/id.ts:10-13 | `next` never returns an id issued before; afterwards the issued ids are the old ones plus the new one |
| Ids.TakeIds | src/engine/id.ts:10-13 | n calls to `next` return n consecutive, strictly increasing ids, none issued before and all issued after |
| ComponentMask.Set | src/helpers/component-mask.ts:15-21 | `includes(id)` afterwards equals `enabled`; every id in a different bit position keeps its membership |
| ComponentMask.With | src/helpers/component-mask.ts:23-28 | every listed id is included afterwards, no id is lost, and the member set grows by exactly the listed positions |
| ComponentMask.IncludesAll | src/helpers/component-mask.ts:48-50 | holds exactly when the other mask's members are a subset of this mask's |
| ComponentMask.IncludesSome | src/helpers/component-mask.ts:59-61 | holds exactly when the two member sets intersect |
| ComponentMask.ExcludesAll | src/helpers/component-mask.ts:70-72 | holds exactly when the two member sets are disjoint |
| ComponentMask.IncludesIffMember | src/helpers/component-mask.ts:37-39 | `includes(id)` holds exactly when the bit of id modulo 32 is set |
| ComponentMask.IncludesAfterSet | src/helpers/component-mask.ts:15-39 | for ids below 32, `set(id, b)` makes `includes(id)` equal b and leaves every other id as it was |
| ComponentMask.SetOnIsMonotone | src/helpers/component-mask.ts:17 | setting a bit never clears another |
| ComponentMask.SetTwice | src/helpers/component-mask.ts:15-21 | setting a bit to the value it already has changes nothing |
| ComponentMask.SetMembers | src/helpers/component-mask.ts:15-21 | `set` adds or removes exactly the position `id % 32` in the member set |
| ComponentMask.FreshIncludesNothing | src/helpers/component-mask.ts:7-39 | a new mask includes no id and has no members |
| ComponentMask.EmptyIncludedByAll | src/helpers/component-mask.ts:48-72 | the empty mask is included by every mask, intersects none and is excluded by all |
| ComponentMask.ExcludesAllIsNotIncludesSome | src/helpers/component-mask.ts:59-72 | `excludesAll` is exactly the negation of `includesSome` |
| ComponentMask.ShiftWrapsAround | src/helpers/component-mask.ts:17-19 | ids 32 apart share a bit: setting id+32 includes id, and clearing id+32 clears id |
| Registries.EmptyRegistry | src/decorators/registry.ts:5-6 | a new registry maps no class and no id |
| Registries.Register | src/decorators/registry.ts:13-16 | afterwards the class resolves to the id and the id to the metadata; every other class and id resolves as before |
| Registries.LookupId | src/decorators/registry.ts:27-33 | fails with `NotRegistered` exactly for a class never registered (id 0 counts as registered); otherwise gives its id |
| Registries.Get | src/decorators/registry.ts:35-37 | the metadata of a known id, nothing for an unknown one |
| Registries.LookupIds | src/system/commands.ts:81 | resolving a list succeeds exactly when every class is registered, giving their ids in order; a failure names an unregistered class |
| Registries.Lookup | src/decorators/registry.ts:18-25 | succeeds exactly when the class has an id that has metadata; fails with `NotRegistered` otherwise |
| Registries.RegisterThenLookup | src/decorators/registry.ts:13-37 | after `register(id, c, m)`, `lookupId(c)` is id, `get(id)` is m and `lookup(c)` is m |
| Registries.ReRegisterOverwrites | src/decorators/registry.ts:13-16 | registering a class again replaces its id |
| Registries.RegisterKeepsOthers | src/decorators/registry.ts:13-16 | a class that resolved before a registration still resolves after it |
| Scopes.EmptyScope | src/helpers/scope.ts:19-22 | a new scope holds the empty marker, so `get` fails with `OutOfScope` |
| Scopes.Get | src/helpers/scope.ts:53-59 | fails exactly when no state is bound; otherwise yields the bound state |
| Scopes.RunWith | src/helpers/scope.ts:37-46 | on normal return the scope is back to what it was before the call |
| Scopes.RunWithBindsState | src/helpers/scope.ts:37-46 | inside `runWith(s, fn)`, `get` yields s, and `runWith` returns what fn returns |
| Scopes.GetOutsideFails | src/helpers/scope.ts:53-67 | `get` fails outside every `runWith`, also after one has returned |
| Scopes.NestingRestoresOuter | src/helpers/scope.ts:38-43 | a nested `runWith` shadows the outer state and restores it on return |
| ComponentStore.EmptyStore | src/component/manager.ts:10-23 | a new store is consistent and has no mask for any entity |
| ComponentStore.Notify | src/component/manager.ts:83-107 | one notification per registered handler, in registration order, each about the given entity and component |
| ComponentStore.TryGet | src/component/manager.ts:25-27 | the stored value when there is one, otherwise nothing; never fails |
| ComponentStore.Get | src/component/manager.ts:29-37 | agrees with `tryGet` when a value is stored, and fails with `MissingComponent(e, c)` otherwise |
| ComponentStore.GetMask | src/component/manager.ts:39-47 | the entity's mask, or `MissingEntity(e)` when the entity has none yet |
| ComponentStore.EnsureArrays | src/component/manager.ts:49-57 | afterwards the entity has a mask (empty if it was new); existing masks, data and handlers are kept |
| ComponentStore.Add | src/component/manager.ts:59-68 | the value is stored, the entity's mask includes the component, and exactly the component's add handlers are notified |
| ComponentStore.Remove | src/component/manager.ts:70-77 | no value is stored, the mask excludes the component, and the remove handlers are notified even when nothing was stored |
| ComponentStore.Change | src/component/manager.ts:83-87 | a change leaves the store as it is and calls every change handler of the component once, in registration order, with the entity and component |
| ComponentStore.Register | src/component/manager.ts:79-101 | the handler is registered for that kind and component once (a repeat adds nothing); no other handler list, value or mask changes |
| ComponentStore.EnsureArraysKeepsConsistent | src/component/manager.ts:49-57 | creating a mask keeps "mask bit set iff a value is stored" |
| ComponentStore.AddKeepsConsistent | src/component/manager.ts:59-68 | `add` keeps "mask bit set iff a value is stored", for ids the mask can tell apart |
| ComponentStore.RemoveKeepsConsistent | src/component/manager.ts:70-77 | `remove` keeps the same invariant |
| ComponentStore.RegisterKeepsConsistent | src/component/manager.ts:79-101 | registering a handler keeps the invariant |
| ComponentStore.AddFrame | src/component/manager.ts:59-68 | `add` on (e, c) leaves every other slot, every other entity's mask and the handlers unchanged |
| ComponentStore.RemoveFrame | src/component/manager.ts:73-74 | `remove` on (e, c) leaves every other slot, every other entity's mask and the handlers unchanged |
| ComponentStore.AddSetsOnlyItsBit | src/component/manager.ts:65 | the entity's member set gains exactly the component's position |
| ComponentStore.RemoveClearsOnlyItsBit | src/component/manager.ts:74 | the entity's member set loses exactly the component's position |
| ComponentStore.GetAfterAddAndRemove | src/component/manager.ts:29-77 | `get` succeeds with the added value after `add`, and fails with `MissingComponent` after `remove` |
| ComponentStore.RemoveIsIdempotent | src/component/manager.ts:70-77 | removing twice leaves the store removing once leaves, and notifies the same handlers again |
| ComponentStore.NotificationsTargetRegistered | src/component/manager.ts:93-107 | every notification goes to a handler registered for that component and kind, and each such handler is notified |
| ComponentStore.RegisterOnlyAffectsItsComponent | src/component/manager.ts:89-97 | a handler registered for one component hears nothing about another |
| ComponentStore.MaskCreatedByFirstTouch | src/component/manager.ts:39-57 | an entity has no mask until its first `add` or `remove`; a first `remove` creates an empty one |
| EntityQueries.NewBuilder | src/query/entity.ts:158-168 | a new builder is well formed and requires and forbids nothing |
| EntityQueries.AddUnique | src/query/entity.ts:176 | set insertion in insertion order: the element is present afterwards, appended only if it was absent |
| EntityQueries.FinaliseCurrent | src/query/entity.ts:170-189 | the selected component's column is appended; it becomes required only when neither optional nor reactive; it is recorded as queried, and as watched with its flags when reactive |
| EntityQueries.SelectIdAsWritten | src/query/entity.ts:192-195 | the id column is appended at once, while the selected component stays pending |
| EntityQueries.SelectId | src/query/entity.ts:192-195 | corrected: the pending component's column comes first, then the id column |
| EntityQueries.Select | src/query/entity.ts:197-201 | fails exactly for an unregistered class; otherwise finalises the previous component and selects the new one with no modifiers |
| EntityQueries.HasAll | src/query/entity.ts:203-209 | fails exactly when a class is unregistered; otherwise the includes mask gains exactly the listed ids and nothing else changes |
| EntityQueries.HasSome | src/query/entity.ts:211-219 | one more group, holding exactly the listed ids, after the existing ones |
| EntityQueries.HasNone | src/query/entity.ts:221-227 | the excludes mask gains exactly the listed ids; nothing else changes |
| EntityQueries.Modify | src/query/entity.ts:230-279 | fails with `NoCurrentComponent` exactly when nothing is selected; otherwise sets only the named flag of the selected component, and `writable` sets none |
| EntityQueries.Build | src/query/entity.ts:282-304 | the query is reactive exactly when a finalised component is watched; it starts with no rows, and carries the builder's masks, groups and columns |
| EntityQueries.Count | src/query/entity.ts:338-340 | the number of entities with a row |
| EntityQueries.GetRow | src/query/entity.ts:360-362 | the entity's row when it has one, nothing otherwise |
| EntityQueries.MeetsEveryGroup | src/query/entity.ts:390 | holds exactly when the mask intersects every group |
| EntityQueries.TestMasks | src/query/entity.ts:385-391 | fails with `MissingEntity` for an entity without a mask; otherwise holds exactly when the mask includes all required, none forbidden and some of every group |
| EntityQueries.Extract | src/query/entity.ts:364-371 | builds a row exactly when every mandatory component is stored; the row has one cell per column, in column order |
| EntityQueries.ExtractOne | src/query/entity.ts:138-149 | an optional column reads with `tryGet`, a mandatory one with `get`, which fails with `MissingComponent` |
| EntityQueries.AddEntity | src/query/entity.ts:364-372 | succeeds exactly when the row can be extracted, and then stores or replaces the entity's row |
| EntityQueries.RemoveEntity | src/query/entity.ts:374-376 | the entity has no row afterwards; every other row is unchanged |
| EntityQueries.OnStaticEvent | src/query/entity.ts:418-424 | fails exactly for an entity without a mask or a passing entity whose row cannot be extracted; otherwise the entity has a row afterwards exactly when it passes the mask test, and other rows are unchanged |
| EntityQueries.UpdatePendingAndTryAdd | src/query/entity.ts:471-487 | fails exactly for an entity without a mask or one the event completes whose row cannot be extracted; a non-matching entity changes nothing; a matching one has the component recorded as fired, and once every watched component has fired its record is dropped and its row is the extracted one |
| EntityQueries.Handle | src/query/entity.ts:411-469 | fails exactly when the entity has no mask or the event inserts it and its row cannot be extracted; an inserting event (a passing entity for a static query, a completing event for a reactive one) sets the extracted row, a non-inserting one removes the row of a static query and leaves a reactive query's rows alone; the shape is kept |
| EntityQueries.HandleEvents | src/query/entity.ts:471-487 | a reactive query that hears a series of events for one entity stays reactive with the same shape |
| EntityQueries.HandleEventsAppend | src/query/entity.ts:471-487 | hearing one more event is handling it after the ones before |
| EntityQueries.ReactiveAccumulates | src/query/entity.ts:476-486 | while the watched set is incomplete, events for a matching entity never fail, add no row and record exactly the components heard so far |
| EntityQueries.ReactiveShowsOnceAllFired | src/query/entity.ts:476-482 | the event that completes the watched set adds the extracted row and drops the entity's record |
| EntityQueries.BeforeSystem | src/query/entity.ts:356 | an entity query's `beforeSystem` leaves its rows and pending records as they are |
| EntityQueries.AfterSystem | src/query/entity.ts:489-491 | a static query is unchanged; a reactive one has no rows and keeps its watchers and pending records |
| EntityQueries.AfterSystemKeepsPending | src/query/entity.ts:489-491 | a reactive query's `afterSystem` keeps the pending records and leaves a count of 0; `beforeSystem` changes nothing |
| EntityQueries.Subscribe | src/query/entity.ts:411-456 | building a query registers only its own handler and changes no value or mask |
| EntityQueries.SubscribeStatic | src/query/entity.ts:411-415 | a static query registers only for the selected components, and never for change events |
| EntityQueries.StaticSubscribesSelected | src/query/entity.ts:411-415 | a static query's handler is registered for add and remove of every selected component |
| EntityQueries.SubscribeKeeps | src/query/entity.ts:411-415 | later registrations never drop an existing one |
| EntityQueries.SubscribeReactive | src/query/entity.ts:446-456 | a reactive query registers only for watched components |
| EntityQueries.SubscribeWatched | src/query/entity.ts:447-455 | one watched component gets the add, remove and change registrations its flags ask for, and no others |
| EntityQueries.ReactiveSubscribesByFlag | src/query/entity.ts:446-456 | a reactive query is registered for an event kind on a watched component exactly when that component's flag asks for it |
| EntityQueries.ReactiveSubscribeKeeps | src/query/entity.ts:446-456 | registrations never drop an existing handler, and never add an unwanted one |
| EntityQueries.FinaliseKeepsWellFormed | src/query/entity.ts:170-189 | finalising keeps every mandatory column either required by the includes mask or watched |
| EntityQueries.SelectKeepsWellFormed | src/query/entity.ts:192-201 | `select` and the corrected `selectId` keep the builder invariant |
| EntityQueries.FiltersKeepWellFormed | src/query/entity.ts:203-279 | `hasAll`, `hasSome`, `hasNone` and the modifiers keep the builder invariant |
| EntityQueries.StaticBuildRequiresColumns | src/query/entity.ts:282-304 | a static query built from a well-formed builder requires every mandatory column in its includes mask |
| EntityQueries.StaticRowExtractionSucceeds | src/query/entity.ts:364-391 | in a consistent store, an entity passing such a query's mask test always yields a row |
| EntityQueries.StaticMembershipFollowsMasks | src/query/entity.ts:418-424 | after an add/remove event a static query shows the entity exactly when its mask matches, and `count` is the number of rows |
| EntityQueries.StaticListensOnlyToSelected | src/query/entity.ts:411-415 | add/remove of a component used only in `hasAll`/`hasSome`/`hasNone` never reaches a static query |
| EntityQueries.ReactiveIgnoresNonMatching | src/query/entity.ts:471-474 | an entity failing the mask test leaves a reactive query exactly as it was |
| EntityQueries.ReactiveInsertsOnlyWhenAllFired | src/query/entity.ts:476-487 | a reactive query adds a row only for an entity matching its masks whose watched components have all fired, and then drops its pending record |
| EntityQueries.RemovedColumnFailsExtraction | src/query/entity.ts:471-487 | a mandatory column watched for removal cannot be read once the removal completes the row: the event fails with `MissingComponent` |
| EntityQueries.ExtractFailsAtFirstMissing | src/query/entity.ts:366-369 | a failed row names a mandatory component the entity does not have |
| EntityQueries.SelectIdColumnOrder | src/query/entity.ts:192-201 | `select(A).selectId()` gives the id column before A's as written, and after it as corrected |
| Resources.NewState | src/resource/manager.ts:14-29 | exactly one instance per class, built by the class's constructor; no queries |
| Resources.Get | src/resource/manager.ts:31-38 | the class's one instance, or `MissingResource` for a class never added |
| Resources.NewQueryBuilder | src/query/resource.ts:21-24 | a new builder is not writable |
| Resources.MakeWritable | src/query/resource.ts:26-29 | `writable()` makes the query writable and keeps its class |
| Resources.BuildQuery | src/query/resource.ts:69-74 | fails with `MissingResource` for an unknown class; otherwise a new query with both flags down, filed under its class, holding the instance `get` returns |
| Resources.QueryGet | src/query/resource.ts:76-79 | returns the query's instance and marks that query accessed; its other fields, every other query, the instances and the filing are unchanged |
| Resources.BeforeSystem | src/query/resource.ts:81-83 | the query is no longer marked accessed; its other fields, every other query, the instances and the filing are unchanged |
| Resources.AfterSystem | src/query/resource.ts:85-91 | the query's own modified flag is down; another query is flagged exactly when it was already, or it is filed under the class of this query and this query is writable and was read; nothing else changes |
| Resources.MarkModified | src/resource/manager.ts:45-49 | exactly the queries filed under the class are flagged modified; nothing else changes |
| Resources.BuildQueryKeepsValid | src/resource/manager.ts:40-43 | filing a new query keeps "every filed query exists and reads its class, and every query is filed" |
| Resources.NewIndexNotFiled | src/resource/manager.ts:40-43 | no class lists a query that does not exist yet |
| Resources.SameFilingKeepsValid | src/resource/manager.ts:40-49 | an update that keeps the filing and every query's class keeps the invariant |
| Resources.RunOperationsKeepValid | src/query/resource.ts:76-95 | `get`, `beforeSystem`, `markModified` and `afterSystem` keep the invariant |
| Resources.AfterSystemFlagsReaders | src/query/resource.ts:85-91 | afterwards the query's own flag is down; another query on the class is flagged exactly when it was already or this query is writable and was read; no other state changes |
| Resources.MarkModifiedIsIdempotent | src/resource/manager.ts:45-49 | marking twice is marking once |
| Resources.WriterModificationSeenOnce | src/query/resource.ts:81-91 | a writer that reads the resource makes a reader on the same class see `isModified` during its next run, and the flag is down after that run |
| Resources.ReadOnlyFlagsNobody | src/query/resource.ts:85-91 | a read-only query's `afterSystem` changes only its own flag, which goes down |
| Commands.NewCommands | src/system/commands.ts:50-53 | a new buffer has no handles |
| Commands.Entity | src/system/commands.ts:61-65 | a new, empty handle is appended for the id, even if the id already has one; earlier handles are unchanged |
| Commands.Push | src/system/commands.ts:71 | the command is appended to that handle's list; every other handle is unchanged |
| Commands.Add | src/system/commands.ts:75-78 | the handle's pending list gains one add command at its end, carrying the components as given and unresolved; the handle's entity and every other handle are unchanged |
| Commands.Remove | src/system/commands.ts:80-84 | fails exactly when a class is unregistered; otherwise queues one remove command with the resolved ids in order |
| Commands.Despawn | src/system/commands.ts:86-88 | the handle's pending list gains one despawn command for its entity at its end; every other handle is unchanged |
| Commands.Spawn | src/system/commands.ts:55-59 | allocates the next entity id at once, appends one handle for it holding one add command with all the components, and returns the id |
| Commands.FlattenAppend | src/engine/world.ts:41-44 | flattening two buffers in a row is flattening their concatenation |
| Commands.Flatten | src/engine/world.ts:41-44 | every command queued on any handle is run by `applyPending`, and it runs no command that was not queued |
| Commands.SpawnQueuesItsComponents | src/system/commands.ts:55-59 | spawning adds exactly one command, the add of its components, at the end of the buffer |
| Worlds.NewWorld | src/engine/world.ts:23-28 | no entity has a mask or an issued id; the world is valid and has no queries |
| Worlds.CreateEmptyEntity | src/engine/world.ts:33-35 | returns an id never issued before and records it; nothing else changes, and since only issued ids ever carry a mask, the new entity has none |
| Worlds.Dispatch | src/component/manager.ts:93-107 | delivers notifications in order; queries keep their shape, and a query no notification addresses is unchanged |
| Worlds.DispatchOne | src/component/manager.ts:94-96 | delivering one notification is running the addressed query's handler and storing its result, or failing with its error |
| Worlds.DispatchStaticFollowsMasks | src/query/entity.ts:418-424 | a static query that hears about an entity one or more times ends up showing it exactly when it passes the query's masks |
| Worlds.DispatchReactiveRecords | src/query/entity.ts:476-487 | a reactive query that hears about (e, c) for a matching entity ends up showing e or having c recorded as fired |
| Worlds.DispatchReactiveShows | src/query/entity.ts:471-487 | a reactive query never loses a row while events are delivered, and an event that completes its watched components for the entity makes it show the entity |
| Worlds.DispatchStaticSucceeds | src/query/entity.ts:364-424 | in a consistent store, events about an entity with a mask never fail when every query they reach is a static query whose mandatory columns are required |
| Worlds.NotifyReaches | src/component/manager.ts:93-97 | the queries a mutation notifies are exactly the handlers registered for it |
| Worlds.DispatchNotifyHeard | src/component/manager.ts:93-107 | after one mutation's notifications, unsubscribed queries are unchanged, subscribed static queries follow the masks, and subscribed reactive queries show or record the entity |
| Worlds.HandlersNameQueries | src/component/manager.ts:79-101 | in a well-formed world every registered handler names an existing query |
| Worlds.NotifiedHandlersInRange | src/component/manager.ts:93-107 | notifications go only to queries the world holds |
| Worlds.SameHandlersInRange | src/component/manager.ts:79-101 | with the same handler table and no fewer queries, every handler stays in range |
| Worlds.AddComponent | src/component/manager.ts:59-68 | the store is the one `add` gives; only queries change besides it; handlers stay in range; each query subscribed to additions of the component is updated as `QueriesHeard` says and every other query is unchanged |
| Worlds.RemoveComponent | src/component/manager.ts:70-77 | the store is the one `remove` gives; only queries change besides it; each query subscribed to removals of the component is updated as `QueriesHeard` says and every other query is unchanged |
| Worlds.ChangeComponent | src/component/manager.ts:83-87 | a change leaves the store alone; each query subscribed to changes of the component is updated as `QueriesHeard` says and every other query is unchanged |
| Worlds.AddComponentSucceeds | src/component/manager.ts:59-68 | in a consistent store, adding a component below 32 never fails when every subscribed query is a ready static query; the store stays consistent and each such query shows the entity exactly when it passes the masks |
| Worlds.AddComponentShowsCompleted | src/component/manager.ts:59-68 | adding the component that completes what a subscribed reactive query watches makes that query show the entity |
| Worlds.RemoveComponentSucceeds | src/component/manager.ts:70-77 | the same for removing: it never fails, the store stays consistent, and the subscribed static queries follow the masks |
| Worlds.AddQuery | src/query/entity.ts:400-457 | a built query is appended and subscribed under its index; values, masks, ids and resources are untouched |
| Worlds.AddOne | src/system/commands.ts:104-105 | the component's class is looked up when the command runs; on success the value is stored under its id and no other slot changes |
| Worlds.AddAll | src/system/commands.ts:102-107 | adds the components in order; other entities are untouched and the entity loses no component |
| Worlds.AddAllStoresEach | src/system/commands.ts:103-106 | after a successful add command, every listed component's class is registered and a value of it is stored on the entity |
| Worlds.RemoveOne | src/system/commands.ts:117 | removes one component; no other slot changes |
| Worlds.RemoveAll | src/system/commands.ts:115-119 | removes the ids in order: none of them is stored afterwards, other entities are untouched and nothing is added |
| Worlds.Execute | src/system/commands.ts:102-127 | a command changes only its own entity's components; despawn fails because `removeAll` does not exist |
| Worlds.ExecuteAll | src/engine/world.ts:41-56 | commands run in order, stopping at the first failure; an entity no command is about is untouched |
| Worlds.ExecuteAllAppend | src/engine/world.ts:41-56 | running two command lists in a row is running their concatenation |
| Worlds.ApplyPendingAsWritten | src/engine/world.ts:40-59 | as written: the world is unchanged and the buffer is emptied |
| Worlds.ApplyPending | src/engine/world.ts:40-59 | corrected: succeeds exactly when every queued command runs, in issue order; the world is the result and the buffer is emptied |
| Worlds.ApplyPendingDropsSpawn | src/engine/world.ts:44-54 | a spawned component never reaches the store as written, and does with the commands executed |
| Worlds.ApplyPendingOnlyTouchesCommandedEntities | src/engine/world.ts:41-56 | applying a buffer leaves every entity without a handle untouched |
| Worlds.AddAllKeepsMasksIssued | src/component/manager.ts:59-68 | adding components to an issued entity keeps every masked entity an issued one |
| Worlds.RemoveAllKeepsMasksIssued | src/component/manager.ts:70-77 | removing components from an issued entity keeps every masked entity an issued one |
| Worlds.ExecuteAllKeepsMasksIssued | src/engine/world.ts:41-56 | running commands whose entities are all issued keeps every masked entity an issued one |
| Worlds.ApplyPendingKeepsValid | src/engine/world.ts:40-59 | applying a buffer whose handles carry issued ids keeps the world valid, including that only issued ids carry a mask |
| Worlds.FlattenFiled | src/system/commands.ts:71-88 | a buffer whose handles are for other entities holds no command about the entity |
| Systems.GetConfig | src/system/config.ts:29-34 | the stored configuration, or not run-once with no dependencies |
| Systems.Decorate | src/system/config.ts:20-27 | the given fields override the stored ones; other fields and other classes keep theirs |
| Systems.PlaceDeps | src/system/manager.ts:27-38 | on success the placed prefix is kept and systems only leave the remaining set; a failure names one of the dependencies |
| Systems.Visit | src/system/manager.ts:26-40 | on success the system comes last, after the kept prefix, and is recorded as reached |
| Systems.OrderFrom | src/system/manager.ts:25-41 | the pass over the remaining systems only appends to the order placed so far |
| Systems.OrderAsWritten | src/system/manager.ts:21-41 | as written: on success exactly the input systems are placed and every system the loop reached comes after its dependencies; a failure names a system and one of its dependencies |
| Systems.Order | src/system/manager.ts:21-41 | corrected (placed systems recorded): on success exactly the input systems are placed and every system the loop reached comes after its dependencies; a failure names a system and one of its dependencies |
| Systems.PlaceDepsPlacesAll | src/system/manager.ts:27-38 | after the dependency loop every dependency is placed, and only systems that were remaining were moved |
| Systems.PrecedesExtend | src/system/manager.ts:36-40 | appending to the order keeps every precedence |
| Systems.PrecedesKept | src/system/manager.ts:36-40 | extending the order keeps every dependency before its dependent |
| Systems.VisitKeepsInvariant | src/system/manager.ts:25-41 | one iteration keeps the ordering invariant |
| Systems.OrderFromKeepsInvariant | src/system/manager.ts:25-41 | the whole pass keeps the ordering invariant |
| Systems.OrderPlacesDependenciesFirst | src/system/manager.ts:25-41 | on success exactly the input systems are placed, and every system the loop reached comes after each of its dependencies |
| Systems.OrderFailureNamesADependency | src/system/manager.ts:32-34 | a failure names an engine system and one of its declared dependencies |
| Systems.AppendFresh | src/system/manager.ts:36-40 | appending a system not yet placed keeps the order free of repeats |
| Systems.PlaceDepsRecordedKeepsDistinct | src/system/manager.ts:27-38 | with placed systems recorded, the dependency loop never places a system twice |
| Systems.VisitRecordedKeepsDistinct | src/system/manager.ts:25-41 | with placed systems recorded, one iteration keeps the order free of repeats |
| Systems.OrderFromRecordedKeepsDistinct | src/system/manager.ts:25-41 | with placed systems recorded, the whole pass keeps the order free of repeats |
| Systems.OrderRunsEachSystemOnce | src/system/manager.ts:21-41 | corrected: with placed systems recorded, every system is placed exactly once |
| Systems.VisitWithoutDependencies | src/system/manager.ts:26-40 | a system without dependencies is placed at once |
| Systems.VisitPlacedDependency | src/system/manager.ts:28-30 | a dependency already recorded as placed is skipped |
| Systems.VisitPullsDependency | src/system/manager.ts:32-37 | a remaining dependency is taken from the set and placed before its dependent |
| Systems.VisitMissingDependency | src/system/manager.ts:32-34 | a dependency neither placed nor remaining fails with `MissingSystemDependency` |
| Systems.DependencyListedFirstIsPlacedTwice | src/system/manager.ts:25-41 | as written: with A added before B and B after A, A is placed twice |
| Systems.DependencyListedFirstIsPlacedOnce | src/system/manager.ts:21-30 | corrected: the same systems give the order A, B |
| Systems.SecondDependentFails | src/system/manager.ts:21-37 | as written: B then C, both after A, with A added last, fails on C |
| Systems.SecondDependentIsPlaced | src/system/manager.ts:21-30 | corrected: the same systems give A, B, C |
| Systems.PulledDependencyIsNotChecked | src/system/manager.ts:32-37 | a pulled-forward dependency is placed without placing its own dependencies first |
| Systems.NewManager | src/system/manager.ts:13-46 | the manager holds the computed order and has not cleared run-once systems |
| Systems.KeepRepeating | src/system/manager.ts:72-75 | every system kept is not run-once, and none is invented |
| Systems.KeepRepeatingMembers | src/system/manager.ts:72-75 | keeps exactly the systems that are not run-once, with the default configuration counting as not run-once |
| Systems.KeepRepeatingAppend | src/system/manager.ts:72-75 | filtering keeps the relative order of the kept systems |
| Systems.KeepRepeatingCounts | src/system/manager.ts:72-75 | a repeating system keeps its number of occurrences and a run-once system has none left |
| Systems.ClearRunOnce | src/system/manager.ts:67-78 | the first call keeps exactly the systems that are not run-once, in order and with their multiplicities, and marks the manager cleared; later calls change nothing |
| Systems.ClearRunOnceIsIdempotent | src/system/manager.ts:67-78 | clearing twice is clearing once |
| Executors.QueriesOf | src/system/queries.ts:20-27 | the queries attached to a system, none for a class nothing was attached to |
| Executors.Hook | src/query/resource.ts:81-91 | a hook changes neither the store, the ids nor the number of queries |
| Executors.Hooks | src/engine/executor.ts:55-63 | running a system's hooks in turn changes neither the store, the ids nor the number of queries |
| Executors.BeforeHooksResetAccess | src/query/resource.ts:81-83 | after the `beforeSystem` hooks none of the system's resource queries counts as accessed |
| Executors.BeforeHooksKeepReset | src/query/resource.ts:81-83 | further `beforeSystem` hooks keep a query reset |
| Executors.HookFacts | src/query/resource.ts:81-91 | one hook keeps the resource queries and their filing, and `beforeSystem` only lowers its own query's access flag |
| Executors.AfterHookFlags | src/query/resource.ts:85-91 | an `afterSystem` hook never lowers another query's modified flag, and raises it for a query on the class of a writer that was read |
| Executors.HooksKeepQueries | src/engine/executor.ts:55-63 | a system's hooks keep the resource queries and their filing; `beforeSystem` leaves queries outside the system alone |
| Executors.AfterHooksKeepFlag | src/engine/executor.ts:61-63 | a query flagged modified stays flagged through the `afterSystem` hooks of a system it does not belong to |
| Executors.AfterHooksFlagReaders | src/engine/executor.ts:61-63 | a writable query of the system that was read flags every query outside the system filed under its class |
| Executors.AfterHooksQuiet | src/engine/executor.ts:61-63 | when none of the system's resource queries was read, its `afterSystem` hooks leave every query outside the system as it was |
| Executors.Prepare | src/engine/executor.ts:55-57 | the world a system's `run` sees has the same store and ids, and none of the system's resource queries marked accessed |
| Executors.Perform | src/system/commands.ts:55-88 | a call during `run` never touches the store; only a `remove` of an unregistered class fails; resource queries only gain access flags, and a read marks its query accessed while any other call leaves the resources alone |
| Executors.PerformAll | src/engine/executor.ts:59 | a whole `run` leaves the store alone and keeps the buffer well filed; every resource query it reads is marked accessed, and a run that reads none leaves the resources alone |
| Executors.RunSystem | src/engine/executor.ts:53-65 | one system's turn ends with an empty buffer and a world ready for the next turn; with the source's `applyPending` the store is unchanged |
| Executors.RunSystemFlagsReaders | src/engine/executor.ts:55-63 | when the system reads a writable resource query of its own during `run`, by the end of its turn every query outside it on that class is flagged modified |
| Executors.RunSystemWithoutReadsFlagsNobody | src/engine/executor.ts:55-63 | because the `beforeSystem` hooks run first, a system that reads no resource leaves every resource query outside it as it was, whatever an earlier run read |
| Executors.HooksKeepShape | src/engine/executor.ts:55-63 | the query hooks change only the rows of entity queries, never their kind, masks or records |
| Executors.RunSystemShowsOwnSpawn | src/engine/executor.ts:59-65 | because the `afterSystem` hooks run before `applyPending`, an entity a system spawns with a component that a reactive query watches alone still shows in that query at the end of the system's turn |
| Executors.RunAll | src/engine/executor.ts:52-66 | a tick over n systems shows 4n steps; with the source's `applyPending` the store is unchanged |
| Executors.Update | src/engine/executor.ts:49-69 | after the systems' turns the run-once systems are cleared |
| Executors.RanSystems | src/engine/executor.ts:59 | the systems a trace shows running |
| Executors.RunAllUnfold | src/engine/executor.ts:52-66 | a tick is the first system's turn followed by the tick over the rest |
| Executors.TurnKeepsHookOrder | src/engine/executor.ts:55-65 | putting one turn in front keeps the hook order |
| Executors.TickFollowsHookOrder | src/engine/executor.ts:52-66 | the trace shows, for each system in the manager's order, its before-hooks, run, after-hooks and apply |
| Executors.RunsOfHookOrder | src/engine/executor.ts:52-66 | in a trace in hook order, the runs are exactly the systems, in order |
| Executors.EachSystemRunsOnce | src/engine/executor.ts:52-59 | each system of the order runs once per tick, in order |
| Executors.SecondSystemStartsWithEmptyBuffer | src/engine/executor.ts:50-65 | the next system starts with the buffer emptied |
| Executors.RunOnceSystemsRunOnlyInFirstTick | src/engine/executor.ts:68 | the second tick runs exactly the systems that are not run-once |
| Executors.TickAsWrittenKeepsStore | src/engine/world.ts:44-54 | with the source's `applyPending`, a tick never changes a stored component |
| Engines.Rank | src/logger.ts:8-38 | the levels rank from Trace (0) to Error (4) |
| Engines.RaisingMinimumHidesMore | src/logger.ts:89-92 | a message printed under a higher minimum level is printed under a lower one, and an error is printed under any minimum |
| Engines.DefaultLevelShowsWarningsAndErrors | src/engine/engine.ts:27 | with the engine's default minimum level, exactly warning and error messages are printed |
| Engines.NewEngine | src/engine/engine.ts:24-27 | nothing added, log level Warning |
| Engines.AddSystems | src/engine/engine.ts:38-48 | adds the classes in order up to the first one present; that one fails with `DuplicateSystem`, and the classes before it stay added |
| Engines.AddSystemsStopsAtFirstDuplicate | src/engine/engine.ts:39-44 | the classes added are exactly those before the first already present or repeated |
| Engines.AddSystemsSucceedsIffFresh | src/engine/engine.ts:38-48 | a call succeeds exactly when none of its classes is present or repeated, and then adds them all in order |
| Engines.AddSystemsKeepsValid | src/engine/engine.ts:38-48 | no system class is held twice |
| Engines.AppendKeepsDistinct | src/engine/engine.ts:40-44 | appending a class not present keeps the collection free of repeats |
| Engines.ShiftSeenBefore | src/engine/engine.ts:39-44 | after adding the first class, "present already" for the rest means the same as for the whole call |
| Engines.AddSystemsInTwoCalls | src/engine/engine.ts:38-48 | two successful calls add what one call with both lists adds |
| Engines.AddResource | src/engine/engine.ts:77-84 | fails with `DuplicateResource` exactly when the class is present; otherwise appends it, keeping the collection free of repeats |
| Engines.SetLogLevel | src/engine/engine.ts:96-99 | replaces the level and nothing else |
| Engines.ResourceAddedOnlyOnce | src/engine/engine.ts:77-84 | a second registration of the same resource fails |
| Engines.SystemTwiceInOneCall | src/engine/engine.ts:38-48 | a class twice in one call is added once, then fails |
| ScanQueries.NewFilter | src/query/filter.ts:16-18 | the id is resolved at construction; an unregistered class fails with `NotRegistered` |
| ScanQueries.NewSelector | src/query/selector.ts:15-17 | the id is resolved at construction; an unregistered class fails with `NotRegistered` |
| ScanQueries.Not | src/query/query.ts:21-23 | builds a filter rejecting the component |
| ScanQueries.OptionalOf | src/query/query.ts:12-14 | builds an optional selector |
| ScanQueries.Passes | src/query/filter.ts:34-46 | a basic filter passes exactly when the mask includes the component; a without filter exactly when it does not |
| ScanQueries.WithoutNegatesHas | src/query/filter.ts:34-46 | for the same component the two filters disagree on every entity |
| ScanQueries.SelectCell | src/query/selector.ts:33-45 | the stored data when present; otherwise the ignore marker for a basic selector and undefined for an optional one |
| ScanQueries.NewQuery | src/query/query.ts:63-65 | a new query has no selectors and no filters |
| ScanQueries.ToSelectors | src/query/query.ts:68-74 | every argument converted in order; fails when one fails |
| ScanQueries.ToFilters | src/query/query.ts:79-85 | every argument converted in order; fails when one fails |
| ScanQueries.Select | src/query/query.ts:67-76 | appends the selectors in order after the existing ones, wrapping bare classes as basic selectors; fails for an unregistered class |
| ScanQueries.Where | src/query/query.ts:78-88 | appends the filters in order after the existing ones, wrapping bare classes as basic filters |
| ScanQueries.PassesAll | src/query/query.ts:92 | holds exactly when every filter passes |
| ScanQueries.RowOf | src/query/query.ts:97 | the entity id, then one cell per selector in order |
| ScanQueries.ExecuteAsWritten | src/query/query.ts:90-99 | as written: never more rows than entities, ignore cells included |
| ScanQueries.Execute | src/query/query.ts:90-99 | corrected: no row holds the ignore marker |
| ScanQueries.NoIgnoreWhenSelected | src/query/selector.ts:33-45 | an entity with every required component yields no ignore cell |
| ScanQueries.ExecuteAsWrittenAppend | src/query/query.ts:91 | scanning two entity lists in a row yields the rows of each, in order |
| ScanQueries.ExecuteAsWrittenOne | src/query/query.ts:91-97 | one entity yields a row exactly when every filter passes; the row is its id and its selections |
| ScanQueries.RowsHaveOneCellPerSelector | src/query/query.ts:97 | every row is the id followed by one cell per selector |
| ScanQueries.ExecuteAppend | src/query/query.ts:91 | the corrected scan over two lists yields the rows of each, in order |
| ScanQueries.ExecuteOne | src/query/query.ts:90-99 | corrected: one entity yields a row exactly when it passes every filter and has every required component |
| ScanQueries.MissingComponentStillYielded | src/query/query.ts:97 | as written an entity lacking a selected component is yielded with an ignore cell; corrected, it is skipped |

## Left out

- Logging (`src/logger.ts`) is console output only; only the level ranking and the minimum-level filter are modelled.
- The scheduler and `ExecutorImpl.start`: wall-clock time, async waiting and floating-point frame rate.
- The deep proxy that reports changes to component objects: a change is the explicit event `ComponentStore.Change`, delivered by `Worlds.ChangeComponent`.
- Reflect metadata: each system's `runOnce`/`runAfter` sits in an explicit table (`Systems.ConfigTable`), and its attached queries in `Executors.QueryTable`.
- The component decorator (`src/decorators/component.ts`): it is `IdProvider.next` followed by `Registry.register`, both modelled.
- `src/scoped.ts`, `src/system/system.ts`, `src/engine/runtime.ts` and `Engine.finalise` wiring are not part of this model; a system's `run` is a parameter that yields the calls it makes (`Executors.Body`).
- Type-level builder generics have no runtime behaviour.
- Scopes.RunWith: only the normal return is modelled; when `fn` throws, the source does not restore the outer state.
- Exceptions are `Failure` results that end the operation, and the state changes made before a throw are dropped with them. The one place where they matter to a caller, the classes a failing `system(...)` call added before the duplicate, is modelled by `Engines.AddSystems`.
- ComponentMask.IncludesAfterSet: the one-bit-changes guarantee is stated for ids below 32; for larger ids the wrap-around itself is stated by `ComponentMask.ShiftWrapsAround`.
- ComponentStore.AddKeepsConsistent: stated for ids below 32 only, because larger ids share mask bits and the invariant does not hold for them.
- ComponentStore.RemoveKeepsConsistent: stated for ids below 32 only, for the same reason.
- Component contents are opaque (`ComponentData`); only their class matters.
- A static query is not populated from the entities that exist when it is built, as in the source; queries are built before any entity exists in the runtime.
- Worlds.Execute: despawn is the error `RemoveAllMissing`, because the component manager defines no `removeAll` and the source would throw.
- Reads of entity query rows by a system body (`get`, iteration) are not actions: they change no state.
- Executors.Hook: a handle that names no query is ignored rather than failing; the source's handles are always real queries.
- EntityQueries.RemovedColumnFailsExtraction: states that the event fails, not which error the store reports.
- Executors.RunAll: states the number of steps and the store; the order of the steps is stated by `Executors.TickFollowsHookOrder`.
- Executors.TickFollowsHookOrder: the trace is a fixed label sequence per system turn, so it states the order of the steps but not what each step does to the state; what the order means for the state is stated by `Executors.RunSystemFlagsReaders`, `Executors.RunSystemWithoutReadsFlagsNobody` and `Executors.RunSystemShowsOwnSpawn`.
- Executors.RunSystem: its contract states the buffer, readiness and the as-written store; the effect of the hooks around `run` is stated by `Executors.RunSystemFlagsReaders` and `Executors.RunSystemWithoutReadsFlagsNobody`, that the after-hooks run before the commands are applied by `Executors.RunSystemShowsOwnSpawn`, and the commands applied by `Worlds.ApplyPending`.
- Worlds.Dispatch: its contract frames the untouched queries; what a touched query ends up holding is stated by `Worlds.DispatchStaticFollowsMasks`, `Worlds.DispatchReactiveRecords` and `Worlds.DispatchNotifyHeard`.
- EntityQueries.HandleEvents: its contract keeps the shape only; what the events record and add is stated by `EntityQueries.ReactiveAccumulates` and `EntityQueries.ReactiveShowsOnceAllFired`.
- ScanQueries.ExecuteAsWritten: its contract bounds the number of rows; their contents are stated by `ScanQueries.ExecuteAsWrittenOne` and `ScanQueries.ExecuteAsWrittenAppend`.

## Findings

| source | as written | input that shows it | evidently intended | confidence | as-written member | corrected member |
|---|---|---|---|---|---|---|
| src/engine/world.ts:44-54 | `applyPending` looks for `add` and `remove` properties, which the command objects of src/system/commands.ts:96-128 do not have, so no command ever runs and the buffer is just emptied | a system calls `spawn(c)` for a registered component class: after the tick the new entity has no component | every queued command's `execute` runs, in issue order, then the buffer is emptied | not executed | Worlds.ApplyPendingAsWritten (shown by Worlds.ApplyPendingDropsSpawn) | Worlds.ApplyPending |
| src/query/entity.ts:192-195 | `selectId()` pushes the id column before the pending selected component is finalised, so the component's column lands after the id | `select(A).selectId().query()` gives rows `[id, a]` | rows `[a, id]`, the order the method's result type declares | not executed | EntityQueries.SelectIdAsWritten (shown by EntityQueries.SelectIdColumnOrder) | EntityQueries.SelectId |
| src/system/manager.ts:21-37 | the `added` set is checked but never filled, so a dependency that is placed is neither skipped later nor known as placed | systems added as A, B with B running after A gives the order A, A, B; systems B, C, A with B and C both after A fail with `MissingSystemDependency(C, A)` | each system placed once: A, B and A, B, C | not executed | Systems.OrderAsWritten (shown by Systems.DependencyListedFirstIsPlacedTwice and Systems.SecondDependentFails) | Systems.Order (Systems.OrderRunsEachSystemOnce, Systems.DependencyListedFirstIsPlacedOnce, Systems.SecondDependentIsPlaced) |
| src/query/query.ts:97 | `execute` yields every entity that passes the filters, even when a basic selector returned the `SELECT_IGNORE` marker (src/query/selector.ts:6,24-25) | a query selecting C over an entity without C yields `[id, SELECT_IGNORE]` | entities without a selected component are excluded, as src/query/query.ts:33 documents | not executed | ScanQueries.ExecuteAsWritten (shown by ScanQueries.MissingComponentStillYielded) | ScanQueries.Execute (ScanQueries.ExecuteOne) |
