# A verified model of the necs entity-component system

necs is a header-only C++ entity-component system. Entities are ids, and each entity belongs to one *archetype*: a fixed, duplicate-free list of component types. There are two engine revisions, each in one header.

**`necs.hpp`, the main engine:**

- **Filter.** Type-level archetype filters, written as compile-time recursion over type lists.
- **Entity directory (`Entities`).** It holds:
  - per-id info: archetype, pool index, lifecycle state and id lock (`EntityInfo::id_locked`, which keeps a killed id off the reuse stack);
  - a LIFO stack of reusable ids;
  - a reusable update buffer;
  - one counter per lifecycle state.
- **Column pool (`Pool`).** One vector per component plus an id vector, with a live count `m_end` and a capacity `m_total`.
- **Archetype storage (`Storage`).** A living pool and a sleeping pool, plus three guarded appliers: kill, snooze and wake.
- **Registry.**
  - It creates entities.
  - It queues lifecycle tasks and runs them at `update`, through `apply`.
  - It answers the lookups `info`, `view`, `get` and `find`.
  - It trims pools and gates listener callbacks.
- **Query.** It keeps one pool iterator per matching storage, for each of the two pools. It walks them as one flattened sequence and skips empty pools.

**`ecs.hpp`, the second revision:**

- The same filters.
- One storage per archetype, whose first column is the entity id. It supports `create`, `remove`, `trim` and `clear`.
- A bounds-checked `Chunk::get`.
- `InitQueryData` and a `QueryIterator` over chunks.
- A listener with open/close gating.

**Modelling conventions:**

- **Values.** Components are numbers (`Common.Component`) and component payloads are integers (`Common.Value`). An archetype is a `seq<Component>`.
- **Folds.** Every fold over an archetype's components becomes a loop over its columns.
- **Exceptions and `std::optional`.** Exceptions become the `Result` datatype, with one `Error` constructor per kind of throw site. `std::optional` becomes `Option`.
- **Callbacks.** A listener callback is modelled by the event it is handed. A registry's callbacks are modelled by a set of subscribed channels plus the log of delivered events.
- **Entity updates.** The per-entity `update` closure stored in the directory is a direct call of `Registry.Apply` on the entity's recorded archetype.

**Structure:**

- Each imperative class has a value-level specification:
  - `PoolSpec` for pools;
  - `Storages` for storages;
  - `Entities` for the directory;
  - `RegistryModel` for the registry;
  - `EcsStorages` for the ecs storage.
- The class methods (`Pools.Pool`, `Storages.Storage`, `Entities.Directory`, `Registries.Registry`, `Queries.Query`, `EcsStorages.Storage`, `EcsQueries.QueryIterator`, `EcsListeners.Listener`) are proved to move the object from a state S to the specification function applied to S.
- The properties are lemmas about those functions.

**The registry invariant (`RegistryModel.Valid`) has four parts:**

- The per-state counters equal the number of ids in each state.
- The dead stack holds distinct, DEAD, unlocked ids.
- The update buffer holds, once each, exactly the pending entities.
- Non-DEAD entities and live pool slots correspond one to one. Each entity sits at the slot its info names, in the pool its state selects. Each live slot holds an entity whose info points back at it.

Every registry operation keeps this invariant.

## Model

| member | source | states |
|---|---|---|
| Filter.HasType | necs.hpp:84-96 | has_type is true exactly when the type occurs in the list |
| Filter.HasAllTypes | necs.hpp:99-100 | has_all_types holds exactly when every listed type is in the archetype |
| Filter.HasAnyType | necs.hpp:102-103 | has_any_type holds exactly when some listed type is in the archetype |
| Filter.Concat | necs.hpp:31-41 | tuple_type_cat: an element is in the result exactly when it is in one of the lists |
| Filter.UniqueTypes | ecs.hpp:40-62 | unique_types never lengthens its input (its members and order are stated by the two lemmas below) |
| Filter.UniqueTypesMembers | ecs.hpp:40-62 | unique_types yields a duplicate-free list with exactly the elements of its input |
| Filter.UniqueTypesKeepsLastOccurrenceOrder | ecs.hpp:46-62 | unique_types keeps each component at its last occurrence: survivors appear in the order of their last occurrences |
| Filter.MergeTypesMembers | ecs.hpp:64-79 | merge_types is duplicate-free, and a component is in it exactly when one of the merged lists has it |
| Filter.MergeTypes | ecs.hpp:64-79 | merge_types is duplicate-free and holds exactly the components of the concatenated lists |
| Filter.UniqueTypesIdentity | ecs.hpp:399-402 | merge_types of a list is the list itself exactly when no component repeats (the Storage static check) |
| Filter.IndexOfDistinct | necs.hpp:733-737 | in a duplicate-free archetype, std::get finds the j-th component's column at position j |
| Filter.MatchFrom | necs.hpp:141-182 | match_index yields strictly increasing positions, and a position is in it exactly when its archetype has every With and no Without component; the result is empty exactly when nothing matches |
| Filter.Matches | necs.hpp:167-169 | the per-archetype test holds exactly when every With component is in the archetype and no Without component is |
| Filter.Match | necs.hpp:141-198 | Filter::Match yields strictly increasing archetype positions, exactly those of the archetypes that pass the test |
| Filter.ExclusionRejects | necs.hpp:165-169 | a component both required and excluded makes the match empty |
| Entities.OrdinalInjective | necs.hpp:270-281 | the six states have six distinct counter slots |
| Entities.Resolved | necs.hpp:1398-1403 | apply maps a pending state to a different, non-pending state (AWAKE→LIVE, KILLED→DEAD, SNOOZED→SLEEPING) |
| Entities.TaskStates | necs.hpp:424-436 | each task requires a stable, non-DEAD state and yields a pending state in the same pool |
| Entities.SumCountsIsTotal | necs.hpp:364 | the six per-state counts add up to the number of allocated ids |
| Entities.CountersMove | necs.hpp:1407-1408 | moving one unit from the old state's counter to the new one keeps the counters exact when one entry changes state |
| Entities.DeadStackAfter | necs.hpp:1378-1383 | pushing an id that just became DEAD and is not locked keeps the dead stack distinct, DEAD and unlocked |
| Entities.CreateSpec | necs.hpp:373-392 | with a dead stack, create returns its top and pops it without growing data; otherwise it returns the old size and grows data by one; the new entry is LIVE, and no other entry or the buffer changes |
| Entities.CreatePreserves | necs.hpp:373-392 | create keeps counters exact, the dead stack valid and the queue exact; the new id is not left on the dead stack |
| Entities.QueueSpec | necs.hpp:420-453 | queue changes nothing unless the state equals the required one; then the entity takes the resulting state, and the buffer's live prefix gains exactly the id at to_update_end |
| Entities.ExecuteSpec | necs.hpp:462-484 | execute makes the same guarded state change as queue, without touching the buffer or the dead stack |
| Entities.TaskKeepsCounters | necs.hpp:449-450 | the matched -1/+1 of a task keeps every counter exact |
| Entities.QueueWritesSlot | necs.hpp:438-447 | a successful queue writes the id at slot to_update_end, grows the buffer by one only when to_update_end equals its size, and keeps every other slot |
| Entities.QueuePreserves | necs.hpp:420-453 | queue keeps the directory invariant; a queued entity joins the pending set |
| Entities.PendingIgnoresTasks | necs.hpp:438 | queue and execute leave a pending or DEAD entity and the directory unchanged |
| Entities.QueueTwice | necs.hpp:420-453 | queueing the same task twice equals queueing it once |
| Entities.Directory.constructor | necs.hpp:357-364 | an empty directory with zeroed counters satisfies the invariant |
| Entities.Directory.Rewrite | necs.hpp:1365-1408 | apply's directory writes: entries, dead stack and counters take their new values, nothing else changes |
| Entities.Directory.Create | necs.hpp:373-392 | follows CreateSpec |
| Entities.Directory.Queue | necs.hpp:420-453 | follows QueueSpec; reports success exactly when the required state matched (when the callback fires) |
| Entities.Directory.Execute | necs.hpp:462-484 | follows ExecuteSpec; reports success exactly when the required state matched |
| PoolSpec.PushColumns | necs.hpp:739-743 | every column gains the record's value at its end |
| PoolSpec.PutColumns | necs.hpp:745-749 | every column's slot k is overwritten with the record's value |
| PoolSpec.SwapColumns | necs.hpp:759-764 | every column has slots i and j swapped |
| PoolSpec.TruncateColumns | necs.hpp:751-757 | every column is cut back to its first n slots |
| PoolSpec.Swap | necs.hpp:763 | std::swap exchanges two slots and keeps every other one |
| PoolSpec.SwapRemove | necs.hpp:843-850 | swap-removal keeps every survivor in its slot, except the last one, which fills the hole |
| PoolSpec.SwapRemoveMultiset | necs.hpp:843-850 | swap-removal loses exactly the removed element |
| PoolSpec.EmptyPool | necs.hpp:728-731 | a new pool is well formed with count and capacity 0 |
| PoolSpec.Add | necs.hpp:778-793 | add grows every column and the capacity only when count equals capacity, and otherwise overwrites slot count; it always increments count, appends the id to the live ids, and leaves earlier live slots untouched |
| PoolSpec.Remove | necs.hpp:843-854 | remove swaps slot i with slot count-1 in every column and in the ids, then decrements count; the id now at i was the last live id; the live-id multiset loses exactly the removed id; other live rows are kept |
| PoolSpec.SwapRows | necs.hpp:847 | the per-column swap exchanges two whole records and keeps every other record |
| PoolSpec.Trim | necs.hpp:795-806 | trim (corrected) leaves capacity equal to count and keeps the live ids and live rows |
| PoolSpec.TrimAsWritten | necs.hpp:795-806 | the source's trim keeps the count and the live ids and cuts the id vector to the count, while the capacity may stay above it |
| PoolSpec.TrimAsWrittenLosesCapacity | necs.hpp:751-757 | with at least one component the source's trim is the corrected one; with none, it leaves count below capacity while the id vector has only count entries |
| PoolSpec.Get | necs.hpp:813-826 | get at any slot k returns, for each requested component in request order, the value in slot k of the record at the position that component has in the archetype |
| PoolSpec.Clone | necs.hpp:837-841 | clone of a whole archetype is exactly the stored row |
| PoolSpec.AddThenGet | necs.hpp:778-826 | reading back the slot just added yields the added id and the added record's requested values |
| PoolSpec.Extractions | necs.hpp:673-676 | iterating a pool from slot f yields count-f extractions |
| PoolSpec.ExtractionsAt | necs.hpp:673-682 | the j-th extraction from slot f is slot f+j's id and requested values |
| Pools.Pool.constructor | necs.hpp:726-731 | a new pool is empty and well formed |
| Pools.Pool.Add | necs.hpp:778-793 | follows PoolSpec.Add and stays well formed |
| Pools.Pool.Remove | necs.hpp:843-854 | follows PoolSpec.Remove; returns the id now in slot i, which was the last live id |
| Pools.Pool.Trim | necs.hpp:795-806 | follows the corrected PoolSpec.Trim |
| Storages.OutOfBounds | necs.hpp:907 | the appliers' guard (total 0, count below 1, or index at or past count) is exactly "index is not a live slot" on a well-formed pool |
| Storages.KillRecord | necs.hpp:905-915 | kill shrinks the living pool by one and leaves the sleeping pool alone |
| Storages.SnoozeRecord | necs.hpp:917-929 | snooze shrinks living by one, grows sleeping by one, and the new sleeping slot holds the snoozed id |
| Storages.WakeRecord | necs.hpp:931-943 | wake shrinks sleeping by one, grows living by one, and the new living slot holds the woken id |
| Storages.KillLosesOne | necs.hpp:905-915 | kill loses exactly the killed id from the storage and leaves the sleeping pool alone |
| Storages.SnoozeMovesRecord | necs.hpp:917-929 | snooze appends the living id and its whole record as the last sleeping slot, shrinks living by one and keeps the storage's ids |
| Storages.WakeMovesRecord | necs.hpp:931-943 | wake appends the sleeping id and its record as the last living slot, shrinks sleeping by one and keeps the storage's ids |
| Storages.Storage.constructor | necs.hpp:881-884 | both pools start empty |
| Storages.Storage.ApplyKill | necs.hpp:905-915 | throws exactly when the guard holds and changes nothing; otherwise it follows KillRecord and returns the id that filled the slot |
| Storages.Storage.ApplySnooze | necs.hpp:917-929 | throws exactly when the guard holds and changes nothing; otherwise clone-then-remove as SnoozeRecord |
| Storages.Storage.ApplyWake | necs.hpp:931-943 | throws exactly when the guard on the sleeping pool holds; otherwise clone-then-remove as WakeRecord |
| RegistryModel.Deliver | necs.hpp:524-527 | calls in turn: the log only grows, and an event is appended exactly when its listener is ready |
| RegistryModel.DataEvents | necs.hpp:1349-1359 | on_update emits DataUpdated for the archetype, then one per component in order |
| RegistryModel.Fresh | necs.hpp:1331-1334 | a new registry has one pair of empty pools per archetype |
| RegistryModel.FreshValid | necs.hpp:1331-1334 | a new registry satisfies the invariant |
| RegistryModel.ApplyModel | necs.hpp:1393-1396 | a non-pending entity is left alone (the default branch returns) |
| RegistryModel.ApplyResolves | necs.hpp:1362-1415 | apply resolves the pending state and changes no other state, lock or archetype; the dead stack grows by the id exactly when a KILLED entity is not locked |
| RegistryModel.ApplyRepoints | necs.hpp:1369-1391 | the swapped-in entity's index becomes the vacated slot; a snoozed or woken entity's index is count-1 of its new pool |
| RegistryModel.ApplyFrame | necs.hpp:1362-1391 | apply touches only its storage and the two rewritten entries; the source pool is swap-removed at the entity's index |
| RegistryModel.TransferConsistent | necs.hpp:1362-1391 | moving one entity out of its slot (and possibly into the other pool) keeps the entity/slot bijection |
| RegistryModel.ApplyIsTransfer | necs.hpp:1362-1391 | apply is such a transfer: into the other pool for snooze and wake, out of the storage for kill |
| RegistryModel.ApplyConsistent | necs.hpp:1362-1415 | apply keeps the entity/slot bijection |
| RegistryModel.ApplyCounters | necs.hpp:1407-1408 | apply keeps the counters exact |
| RegistryModel.ApplyDeadStack | necs.hpp:1378-1383 | apply keeps the dead stack valid |
| RegistryModel.ApplyPending | necs.hpp:1362-1415 | apply removes exactly the applied id from the pending set |
| RegistryModel.ApplyKeepsCore | necs.hpp:1362-1415 | one apply keeps bijection, counters and dead stack, removes the id from the pending set and leaves the buffer alone |
| RegistryModel.ApplyAdvances | necs.hpp:398-403 | applying buffer position i moves the invariant on to position i+1 |
| RegistryModel.ApplyLogGrows | necs.hpp:1410-1414 | apply only appends to the event log |
| RegistryModel.UpdateFrom | necs.hpp:396-406 | update leaves to_update_end at 0, keeping the buffer and the number of ids |
| RegistryModel.UpdateValid | necs.hpp:396-406 | update ends in a valid registry with no pending entity and only appends to the log |
| RegistryModel.UpdateResolvesAll | necs.hpp:396-406 | after update every pending entity has its resolved state and every other entity keeps its state |
| RegistryModel.UpdateReleases | necs.hpp:396-406 | update pushes onto the dead stack exactly the queued ids that were KILLED and not locked, in queue order |
| RegistryModel.EmitOne | necs.hpp:1937 | an event is logged exactly when callbacks run and its listener is ready |
| RegistryModel.QueueModel | necs.hpp:1933-1941 | queue moves no memory and keeps the number of ids; from a state other than the required one it changes nothing; otherwise the entity takes the pending state |
| RegistryModel.QueueValid | necs.hpp:1933-1941 | queue keeps the registry valid and moves no memory; the entity takes the pending state exactly when its state was the required one, and only then is EntityUpdated delivered |
| RegistryModel.ExecuteValid | necs.hpp:1952-1955 | execute keeps the registry valid; an entity in the required state ends DEAD, SLEEPING or LIVE for KILL, SNOOZE or WAKE; other entities keep their states |
| RegistryModel.ExecuteModel | necs.hpp:1952-1955 | execute from a state other than the required one changes nothing (the guard of Entities::execute at necs.hpp:477) |
| RegistryModel.QueueThenUpdate | necs.hpp:1919-1941 | with an empty buffer, update after a successful queue is exactly one apply of that id |
| RegistryModel.ExecuteIsQueueThenUpdate | necs.hpp:1919-1955 | with an empty buffer, execute and queue-then-update leave the same storages, entries, dead stack and counters |
| RegistryModel.ApplyIgnoresBuffer | necs.hpp:1362-1415 | apply's memory and directory effects do not depend on the buffer or the log |
| RegistryModel.ReusableUnheld | necs.hpp:373-392 | the id create hands out (the dead-stack top, or a fresh one) is held by no live slot |
| RegistryModel.CreateModel | necs.hpp:1767-1811 | create keeps the archetypes and the number of storages; the new id is allocated and its info is LIVE, of the archetype, at the living count before the add, locked as requested; the living pool grows by one |
| RegistryModel.CreateValid | necs.hpp:1767-1811 | create keeps the registry valid; the new LIVE entity's index is the living count before the add; its record is in that slot; it is not queued; EntityCreated then the data events are emitted |
| RegistryModel.CreateAddsOne | necs.hpp:1767-1781 | create adds one LIVE entity to its archetype's living pool and changes no other pool |
| RegistryModel.PopulateValid | necs.hpp:1823-1829 | populate keeps the registry valid |
| RegistryModel.PopulateModel | necs.hpp:1823-1829 | populate keeps the archetypes and the number of storages and grows the archetype's living pool by exactly count |
| RegistryModel.PopulateAdds | necs.hpp:1823-1829 | populate adds exactly count LIVE entities, all to the archetype's living pool, and no other pool changes |
| RegistryModel.TrimValid | necs.hpp:1871-1876 | trim keeps the registry valid and every live id in place; both pools end with capacity equal to count |
| RegistryModel.TrimModel | necs.hpp:1871-1876 | trim changes neither directory nor archetypes nor any other storage, and leaves both of the archetype's pools with capacity equal to their old count |
| RegistryModel.CountOf | necs.hpp:1522-1525 | count(state) is the number of ids in that state |
| RegistryModel.CountsAddUpToTotal | necs.hpp:1510-1525 | the six counts add up to total() |
| RegistryModel.InfoOf | necs.hpp:1573-1582 | info throws InvalidEntityId exactly for an unallocated id and otherwise returns that id's entry |
| RegistryModel.CreateThenInfo | necs.hpp:1573-1582 | info of a freshly created id reports it LIVE, of its archetype, at the living slot the add filled, with the requested lock |
| RegistryModel.QueueThenInfo | necs.hpp:1573-1582 | info after a successful queue reports the task's pending state |
| RegistryModel.ViewOf | necs.hpp:1648-1660 | view throws exactly for an unallocated id; it returns nothing for a DEAD entity or one of another archetype; otherwise it returns the components of the slot holding the entity in the pool its state selects |
| RegistryModel.GetOf | necs.hpp:1674-1690 | get fails exactly for an unallocated id, an entity of another archetype or a DEAD entity; otherwise it returns one value per requested component |
| RegistryModel.GetAgreesWithView | necs.hpp:1674-1692 | get succeeds exactly when view finds something, with the same values; it throws wrong-archetype before DEAD, exactly in those cases |
| RegistryModel.FindOf | necs.hpp:1705-1736 | find throws exactly when some storage matches and the id is unallocated; it yields a value exactly when the entity is non-DEAD and its archetype has the components |
| RegistryModel.FindAgreesWithView | necs.hpp:1705-1736 | find answers as view on the entity's own archetype |
| RegistryModel.CreateThenView | necs.hpp:1767-1811 | viewing a freshly created entity returns the created record's requested values |
| Registries.Registry.constructor | necs.hpp:1331-1334 | a new registry is valid and is Fresh(archetypes) |
| Registries.Registry.MakeStorages | necs.hpp:946-954 | one empty storage per archetype, each at its own position |
| Registries.Registry.Call | necs.hpp:1913-1916 | appends the event exactly when its listener is ready |
| Registries.Registry.Notify | necs.hpp:1349-1359 | a batch of calls in order follows Deliver |
| Registries.Registry.Subscribe | necs.hpp:1889-1892 | the channel becomes ready and nothing else changes |
| Registries.Registry.Unsubscribe | necs.hpp:1900-1903 | the channel stops being ready and nothing else changes |
| Registries.Registry.SetCallbacks | necs.hpp:1446 | sets run_callbacks and nothing else |
| Registries.Registry.ApplyStorage | necs.hpp:1369-1391 | dispatches on the pending state to the matching applier of the entity's storage; only that storage changes |
| Registries.Registry.Apply | necs.hpp:1362-1415 | follows ApplyModel |
| Registries.Registry.Commit | necs.hpp:1362-1415 | applier, directory writes and events, as computed before the write |
| Registries.Registry.Update | necs.hpp:1919-1922 | follows UpdateFrom and keeps the registry valid |
| Registries.Registry.UpdateOne | necs.hpp:398-403 | one round of the update loop applies buffer slot i |
| Registries.Registry.UpdateDone | necs.hpp:405 | to_update_end returns to 0 |
| Registries.Registry.Create | necs.hpp:1767-1811 | follows CreateModel and keeps the registry valid |
| Registries.Registry.AddRecord | necs.hpp:1779-1808 | the living pool takes the record and the creation events are delivered |
| Registries.Registry.Populate | necs.hpp:1823-1829 | follows PopulateModel: count creates |
| Registries.Registry.Trim | necs.hpp:1871-1876 | follows TrimModel and keeps the registry valid |
| Registries.Registry.Queue | necs.hpp:1933-1941 | follows QueueModel and keeps the registry valid |
| Registries.Registry.Execute | necs.hpp:1952-1955 | follows ExecuteModel and keeps the registry valid |
| Queries.Reset | necs.hpp:644-648 | reset puts the cursor at 0 on the same pool |
| Queries.Deref | necs.hpp:673-676 | operator* is the extraction at the cursor: the slot's id and requested values |
| Queries.Remaining | necs.hpp:1107-1110 | nothing remains exactly when the query is at its end position |
| Queries.FirstNonEmpty | necs.hpp:1021-1039 | the first position at or after from with a non-empty pool (all skipped pools empty), or the end |
| Queries.ResetBetween | necs.hpp:1028 | resets the cursors in a range and keeps every pool reference |
| Queries.AllIgnoresCursors | necs.hpp:1028 | resetting cursors does not change the flattened sequence |
| Queries.AllSkipsEmpty | necs.hpp:1030-1033 | empty pools contribute nothing to the flattened sequence |
| Queries.AllSkipsOne | necs.hpp:658-661 | one empty pool contributes nothing |
| Queries.RemainingAtStart | necs.hpp:1130-1141 | an iterator reset on a non-empty pool yields its whole pool then the rest |
| Queries.RemainingStep | necs.hpp:678-682 | stepping a cursor drops the head of what remains |
| Queries.DoneYieldsNothing | necs.hpp:651-655 | a done iterator yields nothing more |
| Queries.MatchedHaveFor | necs.hpp:1436 | every storage matched over For ∪ With / Without holds every For component |
| Queries.StepWithin | necs.hpp:1119-1128 | operator++ on a not-yet-done iterator drops exactly the head of what remains |
| Queries.StepPastDone | necs.hpp:1119-1128 | operator++ that finishes an iterator advances, and drops exactly the head of what remains |
| Queries.AdvancePastDone | necs.hpp:1021-1039 | advancing past a done iterator reaches the next non-empty pool (or the end); what remains is every later pool |
| Queries.Query.constructor | necs.hpp:1060-1079 | one fresh iterator per matched storage for each pool; the query walks the living pools from 0 |
| Queries.Query.Make | necs.hpp:1071-1075 | throws RedundantQuery exactly when no storage matches For ∪ With without Without; otherwise the query holds the matches in order |
| Queries.Query.Advance | necs.hpp:1021-1039 | the cursor moves to the first non-empty pool after it (or the end), resetting each iterator it reaches |
| Queries.Query.Begin | necs.hpp:1130-1141 | after begin, what remains is the whole flattened sequence of every pool, in order |
| Queries.Query.Read | necs.hpp:1112-1117 | operator* returns the head of what remains |
| Queries.Query.Next | necs.hpp:1119-1128 | operator++ drops exactly the head of what remains |
| Queries.Query.End | necs.hpp:1143-1148 | end is the position where nothing remains |
| Queries.Query.TogglePool | necs.hpp:1100-1104 | selects the living or sleeping list and resets the position to 0 without touching iterators |
| Queries.Query.Traverse | necs.hpp:1107-1148 | a range-for over the query yields every live slot of every matched pool, pool after pool, each in slot order |
| EcsStorages.StorageArchetypeDistinct | ecs.hpp:399-402 | the Storage static checks hold exactly when the first type is Id and no component repeats |
| EcsStorages.EmptyStorage | ecs.hpp:404-406 | a new storage is well formed with end and total 0 |
| EcsStorages.Created | ecs.hpp:454-467 | create pushes to every pool and grows total when end equals total, otherwise overwrites row end; end always grows by one and earlier rows are kept |
| EcsStorages.Removed | ecs.hpp:441-452 | remove swaps row index with end-1 in every pool (Id included) and decrements end; the live ids lose exactly the removed id; other rows are kept |
| EcsStorages.Remove | ecs.hpp:441-452 | throws exactly when index ≥ end; otherwise returns the Id-column value now at index (the old last id) |
| EcsStorages.Trimmed | ecs.hpp:469-476 | trim cuts every pool to end and sets total to end; with no spare rows it changes nothing |
| EcsStorages.Cleared | ecs.hpp:478-483 | clear empties every pool and sets end and total to 0 |
| EcsStorages.TrimIdempotent | ecs.hpp:469-476 | trimming twice equals trimming once |
| EcsStorages.CreateThenRemove | ecs.hpp:441-467 | removing the row just created restores the live ids and rows and returns the new id |
| EcsStorages.ClearThenCreate | ecs.hpp:454-483 | after clear, create makes a single fresh row 0 holding the entity |
| EcsStorages.Item | ecs.hpp:427-433 | a chunk holds the storage's end and the requested columns, in request order |
| EcsStorages.Get | ecs.hpp:332-342 | Chunk::get throws exactly when index ≥ end; otherwise returns each requested column's element at index |
| EcsStorages.CreateThenGet | ecs.hpp:332-342 | reading the just-created row through a chunk returns the entity's requested values; the next row is out of bounds |
| EcsStorages.Column.Push | ecs.hpp:283-286 | appends one element |
| EcsStorages.Column.Insert | ecs.hpp:289-292 | overwrites the element at index |
| EcsStorages.Column.Erase | ecs.hpp:295-298 | drops every element from start on |
| EcsStorages.Column.Swap | ecs.hpp:301-304 | swaps two elements |
| EcsStorages.Column.Clear | ecs.hpp:307-310 | empties the vector |
| EcsStorages.Storage.constructor | ecs.hpp:396-410 | a storage over a checked archetype starts empty |
| EcsStorages.Storage.Create | ecs.hpp:454-467 | follows Created |
| EcsStorages.Storage.PushAll | ecs.hpp:458 | push on every pool |
| EcsStorages.Storage.InsertAll | ecs.hpp:463 | insert at end on every pool |
| EcsStorages.Storage.Remove | ecs.hpp:441-452 | throws exactly when index ≥ end, with nothing changed; otherwise follows Removed and returns the id now at index |
| EcsStorages.Storage.SwapAll | ecs.hpp:448 | swap on every pool |
| EcsStorages.Storage.Trim | ecs.hpp:469-476 | follows Trimmed |
| EcsStorages.Storage.Clear | ecs.hpp:478-483 | follows Cleared |
| EcsQueries.InitQueryData | ecs.hpp:565-597 | selects storage i exactly when it has every For and With component and no Without component, in increasing order; an empty selection throws |
| EcsQueries.SelectedHoldFor | ecs.hpp:575-586 | every selected storage has every For component, so its chunk can be taken |
| EcsQueries.Chunks | ecs.hpp:580-586 | one chunk per selected storage, which sees the storage's current end |
| EcsQueries.NextFilled | ecs.hpp:502-517 | advance stops at the first later chunk with end ≠ 0, or at the number of chunks; every chunk skipped has end 0 |
| EcsQueries.BeginPosition | ecs.hpp:548-556 | begin starts at chunk 0 with entity 0 and skips past empty leading chunks |
| EcsQueries.NextPosition | ecs.hpp:539-546 | operator++ increments the entity cursor; at the chunk's end it advances the storage cursor without resetting the entity cursor |
| EcsQueries.Deref | ecs.hpp:534-537 | operator* fails exactly when the entity cursor is at or past the chunk's end |
| EcsQueries.WalksStorage | ecs.hpp:539-546 | within one chunk, operator++ visits its rows in order |
| EcsQueries.EntityCursorCarriesOver | ecs.hpp:502-517 | leaving a chunk of n rows moves to the next non-empty chunk with the entity cursor still at n |
| EcsQueries.SecondChunkUnread | ecs.hpp:539-546 | with chunks of 2 and 1 rows, two increments after begin reach chunk 1 at row 2, where reading fails |
| EcsQueries.FirstChunkReadable | ecs.hpp:548-556 | every row of the first non-empty chunk is reached in order and reads successfully |
| EcsQueries.StepsReachEnd | ecs.hpp:502-546 | from any cursor, once the budget (chunks not yet left plus the entity cursor's distance below the largest end) of operator++ calls has run, the storage cursor is at the end |
| EcsQueries.RangeForEnds | ecs.hpp:539-556 | from begin, (number of chunks + largest chunk end) operator++ calls always put the storage cursor at the end |
| EcsQueries.QueryIterator.Make | ecs.hpp:520-527 | the constructor throws exactly when the data is empty; otherwise both cursors start at 0 |
| EcsQueries.QueryIterator.Init | ecs.hpp:520-527 | stores the selected storages with both cursors at 0 |
| EcsQueries.QueryIterator.Query | ecs.hpp:602-632 | Query<For, With, Without> throws exactly when InitQueryData does; otherwise an iterator over its selection |
| EcsQueries.QueryIterator.Advance | ecs.hpp:502-517 | follows NextFilled and leaves the entity cursor alone |
| EcsQueries.QueryIterator.Begin | ecs.hpp:548-556 | follows BeginPosition |
| EcsQueries.QueryIterator.Next | ecs.hpp:539-546 | follows NextPosition |
| EcsQueries.QueryIterator.Read | ecs.hpp:534-537 | follows Deref |
| EcsQueries.QueryIterator.End | ecs.hpp:558-562 | sets the storage cursor to the number of chunks |
| EcsQueries.QueryIterator.Differs | ecs.hpp:529-532 | iterators differ exactly when their storage cursors differ; the entity cursor takes no part |
| EcsQueries.QueryIterator.DiffersFromEnd | ecs.hpp:529-562 | against an iterator after end(), an iterator differs exactly while its storage cursor is below the number of chunks, whatever its entity cursor holds |
| EcsQueries.QueryIterator.RangeForStops | ecs.hpp:529-562 | after begin and at least (number of chunks + largest chunk end) operator++ calls, the iterator no longer differs from end(), so a range-for over it stops |
| EcsListeners.Step | ecs.hpp:649-667 | subscribe sets both flags; close and open change nothing before subscribe and otherwise set readiness |
| EcsListeners.Run | ecs.hpp:649-667 | after any sequence of operations ending in subscribe, both flags are set |
| EcsListeners.RunAppend | ecs.hpp:649-667 | running two operation sequences one after the other is running their concatenation |
| EcsListeners.NoDeliveryBeforeSubscribe | ecs.hpp:659-671 | without a subscribe, close and open change nothing and nothing is delivered |
| EcsListeners.ReadyOnlyWhenInitialized | ecs.hpp:655-666 | readiness implies initialisation after any sequence of operations |
| EcsListeners.StaysInitialized | ecs.hpp:659-666 | close and open never clear m_initialized |
| EcsListeners.AfterSubscribeLastWins | ecs.hpp:659-666 | after a subscribe, the last close or open decides readiness |
| EcsListeners.Listener.constructor | ecs.hpp:644-646 | starts unsubscribed with nothing delivered |
| EcsListeners.Listener.Subscribe | ecs.hpp:649-657 | follows Step(Subscribe) |
| EcsListeners.Listener.Close | ecs.hpp:659-662 | follows Step(Close) |
| EcsListeners.Listener.Open | ecs.hpp:664-667 | follows Step(Open) |
| EcsListeners.Listener.Call | ecs.hpp:669-672 | the event is delivered exactly when the listener is ready |

## Left out

- **Console output.** The `Debugger` (necs.hpp:1155-1312) and the `std::cout` before the `info` throw only print.
- **`EntityRef` and type erasure.** `EntityRef`, `std::any` and the `data.ref`/`data.update` closures (necs.hpp:299-345, 1781-1802) are left out. `update` is direct dispatch to `Registries.Registry.Apply` on the recorded archetype, and `ref` is covered by `RegistryModel.ViewOf`.
- **Listener callbacks.** Callback bodies and re-entrancy are not modelled, for example queueing from inside an event during `update`. A callback is only the record that it received an event.
- **`for_each`** (necs.hpp:1847-1867) is not modelled. It invokes user code once per live slot of each matched pool, the same order `Queries.Query.Traverse` proves.
- **Threads.** `Query::iter(index)` and `iter_count` (necs.hpp:1085-1097) exist to spread iteration across threads. Concurrency is out of scope.
- **Range-for over `Query`** copies the `Query`, but the copy's `m_data` still refers to the original's iterator lists (necs.hpp:1019), so the walk is the original's. `Queries.Query.Traverse` models that walk.
- **Other Query members.** The default `Query()` constructor leaves an unusable query and is not modelled. Neither is `Registry::query` (necs.hpp:1627-1635), which only calls `toggle_pool` and returns.
- **Trivial accessors** are not modelled separately, because they are direct field reads: `is_type`, `is_dead`, `is_state`, `is_empty`, `pool_total`, `pool_count`, `ids`, `singleton`, `Pool::ids/total/count`, `Storage::get/iter/pool` and `Registry::iter`.
- **Singletons** are user data held in a tuple and are not modelled.
- **Components are values, and references become copies.** Component payloads are integers. The source hands out component references (`Data<Cs&...>`) from `Pool::get` (necs.hpp:813-826), `Iterator::operator*` (necs.hpp:673-676), `Query::operator*` (necs.hpp:1112-1117) and `Registry::view`, `get` and `find` (necs.hpp:1648-1736), and callers write components in place through them. The model returns copies of the values, so writes through those references are not modelled. `EntityInfo.type` is the archetype's position in the registry rather than a `std::type_index`.
- **Components are numbers, so `const` is invisible.** The ecs.hpp `has_type` compares types after `std::remove_const_t` (ecs.hpp:83-100), while the necs.hpp one compares them as written (necs.hpp:84-103), so in necs.hpp `const C` and `C` are different components. Both are modelled by the same membership test on component numbers, which cannot express that difference.
- **Counter initialisation.** `counter` is not explicitly initialised in the source (necs.hpp:364). `Entities.Directory.constructor` starts all six counts at zero.
- **ecs Listener flags.** `m_ready` and `m_initialized` are not initialised in ecs.hpp (ecs.hpp:644-645), so reading either before `subscribe` is undefined. The model starts both flags false (`EcsListeners.Unsubscribed`).
- **ecs `static_assert(sizeof(Match{}) > 0)`** (ecs.hpp:576) cannot fire, because an empty `index_sequence` still has size 1. The runtime throw at ecs.hpp:591-594 is the check the model keeps.
- **ecs `end()`.** `QueryIterator::end()` also reads `m_data[m_data.size()]` (ecs.hpp:561), one past the end, which is undefined behaviour. `EcsQueries.QueryIterator.End` sets only the storage cursor.
- **ecs traversal is modelled as written.** `advance` never resets the entity cursor, so no full cross-storage traversal is claimed for the ecs revision. `EcsQueries.EntityCursorCarriesOver` and `EcsQueries.SecondChunkUnread` show what happens instead. `EcsQueries.FirstChunkReadable` is the part that does work.
- **Other ecs code.** `StorageIterator`, `Storage::iter`, the `Entities` and `Archetypes` structs and `InitListeners` of ecs.hpp are not modelled; none of the modelled operations depends on them. The commented-out `Uniques` and `Registry` of ecs.hpp (ecs.hpp:704-986) are dead code.
- **ecs chunks as values.** A Chunk holds references to a storage in the source. `EcsQueries.Chunks` rebuilds the chunks from the current storage states, which gives the same reads.
- **Registry frame conditions.** These `Registries.Registry` methods are proved against `RegistryModel` functions on an abstract `World`: Create, Queue, Execute, Update, Trim, Populate, Subscribe, Unsubscribe and Apply. The properties are stated as lemmas there.
- **Queries.Query** receives the storages' current states as a parameter. It does not hold references to the pools as the source's iterators do.
- Registries.Registry.Queue: requires the id to be allocated, because `Entities::queue` indexes `data[id]` without a check (necs.hpp:422), which is undefined behaviour for an unallocated id.
- Registries.Registry.Execute: requires the id to be allocated, because `Entities::execute` indexes `data[id]` without a check (necs.hpp:464).
- Entities.Directory.Queue: requires the id to be allocated, for the same unchecked `data[id]` (necs.hpp:422).
- Entities.Directory.Execute: requires the id to be allocated, for the same unchecked `data[id]` (necs.hpp:464).
- Registries.Registry.constructor: the source constructor also builds every declared `Query` through `match` and `Query(storages)` (necs.hpp:1428-1443), and that throws when a query matches no storage (necs.hpp:1071-1075). The model registry holds no queries, so its constructor never fails. A query is built on its own by `Queries.Query.Make`, whose error case is that throw. `RegistryModel.Fresh` likewise models only the storages and directory the members default-construct (necs.hpp:1331-1334).

## Findings

| source | as written | input that shows it | evidently intended | confidence | as-written member | corrected member |
|---|---|---|---|---|---|---|
| necs.hpp:751-757, 795-806 | `Pool::trim` resets `m_total` only inside `erase<C>`, once per component; for an archetype with no components the fold is empty, so `m_ids` is truncated but `m_total` is not | a zero-component pool with one scratch slot: `m_end = 0`, `m_total = 1`, one id; after trim `m_ids` is empty but `m_total` is still 1, so the next `add` takes the overwrite branch and writes `m_ids[0]` out of range | trim leaves `m_total == m_end` for every archetype | not executed | PoolSpec.TrimAsWrittenLosesCapacity | PoolSpec.Trim |
