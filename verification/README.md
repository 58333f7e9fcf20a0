# ImSplash: verified model of its storage and operation core

This Dafny project models the parts of the ImSplash repository in which real
algorithms live, most of them in the Realm object store and RealmSwift that it
carries under `Pods`, and proves properties of them for all inputs, all runs or
all reachable states. The command to verify it is
`dafny verify dfyconfig.toml`.

## What is modelled

**Recursive upsert** (`Object::create`, `set_property_value`, `ValueUpdater`,
`List::assign`). `Store.dfy` has schemas, boxed input values, and the tables of
one Realm with a log of every write. `Upsert.dfy` gives each operation as a
function from one state to the next, also for the calls that throw half-way.
`Groups.dfy` is the same operations in place, on a class whose methods are proved
to leave exactly the state, and return exactly the outcome, of those functions.
On this base:

- `Refinement.dfy`: `UpdateModified` refines `UpdateAll`.
- `Success.dfy`, `Leaving.dfy`: when a create succeeds, by schema and value alone,
  and which rows it cannot touch.
- `ReadBack.dfy`, `Idempotence.dfy`, `Plans.dfy`: what was put in can be read
  back under any policy, what becomes of every other cell, and that a second upsert
  changes nothing. `Idempotence.dfy` works with any
  coherent plan of which value lands on which row, default values included;
  `Plans.dfy` computes the plan from the value and the defaults it draws in, so
  that two checks on that computation are left. `RepeatedUpserts.dfy` shows what
  happens when one of them fails, and `Clashes.dfy` that a value which gives one
  key two clashing contents is held by no database.
- `Keys.dfy`: which key a create uses, primary keys over whole runs, and lookup by
  key.
- `FlatCreate.dfy`, `RowReuse.dfy`, `ListLog.dfy`, `Writes.dfy`: every cell after a
  flat create and when such a create succeeds, every cell after an assignment of
  unkeyed objects, every write of an in-place assignment of primitives, and that the
  other policies write what they are given in any case.
- `ForceCreates.dfy`, `Results.dfy`: under `ForceCreate` nothing that exists is
  touched and everything put in can be read back; so what a batch update through
  a snapshot leaves, for any property and any value. `Occurrences.dfy` and
  `BatchKeys.dfy` say exactly when such an update succeeds.

The accessor context is the C++ reference context: it hands the policy and the
current row to `Object::create`, and an omitted current row means not found.
The Cocoa context (`RLMAccessor.mm` lines 715-754) ignores the current row it is
given, so with it unkeyed objects are never updated in place; that variant is
not modelled.

**Chunked index set.** `Ranges.dfy` has sorted ranges, counting, and the laws of
`shift` and `unshift`. `Chunks.dfy` has chunks and the three kinds of iteration;
`ChunkedVector.dfy` and `Builders.dfy` the mutable vector and its builder, each
operation specified on the flat sequence of ranges while all chunk summaries
stay right; `RangeEdits.dfy`, `RangeCount.dfy`, `IndexMerge.dfy`,
`ShiftedAdd.dfy`, `IndexWalks.dfy` and `IndexMerging.dfy` what the edits do to
sorted ranges; `IndexSets.dfy` the class, with each operation specified by its
members.

**Change sets.** `CollectionChanges.dfy` and `ChangeMoves.dfy` say where a change
set takes each element, moves included, and prove that merging two is applying
one after the other. `MergeMoves.dfy` has the steps of the merge,
`ChangeBuilders.dfy` the class. `RowMatches.dfy`, `RowDiffs.dfy`, `RowPairs.dfy`,
`UnsortedMoves.dfy`, `KeptBlocks.dfy` and `Calculations.dfy` are `calculate`: the
change set between two sequences of rows, by matching blocks or, for rows in table
order, by the quick loop, that it leads from the one to the other, and what it
leaves in place.

**Smaller state machines.** `ListEdits.dfy` (range edits of a RealmSwift
`List`), `Timestamps.dfy` (timestamp and date), `Operations.dfy` (cancellation
through a dependency graph), `Transactions.dfy` (`Realm.write`) and
`Observation.dfy` (the chain of observers of one row).

## Where the code does less than it promises

- `IndexSet::count` (`index_set.cpp` lines 290-302): when the count starts inside
  a chunk and ends within the first range of the next chunk, the part in that
  range is dropped. The header promises the number of indices in the given
  range. `Count` has the exact condition, `MiscountExample` an input; `unshift`
  always counts from zero and is not affected. `MiscountReached` gets there by
  additions alone. When the end lies before the
  start within one range the subtraction wraps around in the source and is
  negative here, which the condition covers.
- `ChunkedRangeVectorBuilder::push_back` (line 244) gives a chunk it opens beyond
  the reserved ones the count 1 whatever the length of its first range. Only
  `add_shifted_by` pushes whole ranges (line 414); `AddShiftedBy` says exactly
  when its counts go wrong, and `OverrunExample` is an input.
- `IndexSet::remove` with an empty span strictly inside a range splits the range
  into two that touch, which `verify()` asserts against; `Remove` has the exact
  condition.
- `Results::set_property_value` passes `ForceCreate` (`results.hpp` line 356), so
  a value that holds an object with a primary key anywhere, or draws one in by a
  default, can be set on one row only: on the second it throws, after the first
  has been written. `BatchSucceeds` is the exact condition, `BatchKeyedLink` and
  `BatchKeyedFlat` spell it out for links, and `BatchStopsHalfWay` is an input.
- `calculate_moves_unsorted` (`collection_change_builder.cpp` lines 551-558) takes
  a row to be in place when the counts fit, although rows after it may have been
  before it. The change set is then wrong, which line 860 asserts against in debug
  builds. `UnsortedCarries` has the exact condition and a sufficient one on the
  input (rows moved to the front only), `BehindExample` an input.
- `find_longest_matches` compares the end of a match in the old rows with the end
  of the new window (line 700). Blocks behind it can be passed over, so the change
  set can be larger than need be; it is right all the same (`Calculate`), and on the
  outermost window nothing is passed over (`NothingBehind`).
- `RLMTimestampForNSDate` (line 156) subtracts the epoch shift in its lower clamp
  where it would have to add it. Timestamps within twice the shift of the
  smallest one do not survive the round trip; `RoundTrip` has the exact set.
- `UpdateModified` and `UpdateAll` can differ for a value that nests its own key
  (`SelfNestingDiffers`).
- Upserting a value that gives one key two clashing contents never settles: every
  run writes (`UpsertNeverSettles`), and the second can take away a link the value
  asks for, and which the first had set (`RepeatDestroysLink`).
- `completeOperation` called before the start lets an operation run `main` while
  it counts as finished (`CompletedTooEarly`).
- `list[a..<b] = list[c..<d]` reads the slice after the range is removed
  (`OwnSliceKept`).

## Model

| member | source | states |
|---|---|---|
| Refinement.UpdateModifiedRefinesUpdateAll | ImSplash/Pods/Realm/include/object_accessor.hpp:190-305 | For every database, type and value: if linked types are keyed and no key recurs inside its own subtree, `create` under both policies has the same outcome and, when it succeeds, identical tables, and `UpdateModified` overwrites a slot only with something different |
| Refinement.SetPropertyRefines | ImSplash/Pods/Realm/include/object_accessor.hpp:103-142 | The same for setting one property of an existing row, when the value does not reach the row itself |
| Refinement.SelfNestingDiffers | ImSplash/Pods/Realm/include/object_accessor.hpp:82-90 | A concrete value that nests its own key, on which the two policies end with different links, because line 85 reads the old link before the nested create |
| Idempotence.CreateStores | ImSplash/Pods/Realm/include/object_accessor.hpp:190-305 | After `create` under any policy the row it returns holds the value at every depth (`Stored`), links and lists of unkeyed objects included, for any plan of rows and values that is coherent |
| Idempotence.CreateExact | ImSplash/Pods/Realm/include/object_accessor.hpp:190-305 | Every cell of every table after `create` under any policy: each row visited holds what the value, or in a new row a default, supplies, its other columns are as they were or empty, the row returned and all new rows are among those visited, and no other cell has changed |
| Idempotence.SetResult | ImSplash/Pods/Realm/include/object_accessor.hpp:103-142 | The same for setting one property of an existing row to any value under any policy |
| Idempotence.UpsertIsIdempotent | ImSplash/Pods/Realm/include/object_accessor.hpp:190-305 | A second `create` of the same value (on the same row for an unkeyed type) returns the identical state: no slot written, no row added, nothing logged |
| Plans.ComputedPlanOk | ImSplash/Pods/Realm/include/object_accessor.hpp:207-297 | The plan computed from the value and the defaults it draws in is a plan as soon as all these defaults are expanded and no key and no unkeyed row receives two different contents |
| Plans.CreateResult | ImSplash/Pods/Realm/include/object_accessor.hpp:190-305 | `CreateExact` and read-back for every schema and policy, under these two conditions on what the value reaches |
| Plans.UpsertTwice | ImSplash/Pods/Realm/include/object_accessor.hpp:190-305 | Read-back and idempotence under `UpdateModified` for every schema, under the same conditions |
| Success.CreateSucceeds | ImSplash/Pods/Realm/include/object_accessor.hpp:190-305 | In every state and under every policy `create` succeeds for a value that is ready: every key well formed, every field and default fitting its column, every required column supplied, every managed row there; under `UpdateModified` with lists that nothing nested in them reaches, under `ForceCreate` without keyed objects |
| Success.CreateNeeds | ImSplash/Pods/Realm/include/object_accessor.hpp:190-305 | No `create` succeeds otherwise, but for what an object that may be in an old row can leave out |
| Success.CreateSucceedsIff | ImSplash/Pods/Realm/include/object_accessor.hpp:190-305 | Under `UpdateAll` and `ForceCreate` a value without keyed objects can be created if and only if it is ready, given its managed rows |
| Success.SetSucceeds | ImSplash/Pods/Realm/include/object_accessor.hpp:103-142 | Setting a property of any row to a ready value succeeds in every state, also when it creates objects on the way |
| Success.SetSucceedsIff | ImSplash/Pods/Realm/include/object_accessor.hpp:103-142 | The exact condition for that without keyed objects |
| Leaving.CreateLeaves | ImSplash/Pods/Realm/include/object_accessor.hpp:190-305 | A row that no object of the value or of its defaults can land on keeps every cell, under any policy and whether or not the call succeeds |
| Plans.AlwaysExpanded | ImSplash/Pods/Realm/include/object_accessor.hpp:287-290 | Defaults that hold no objects are always expanded, which leaves the condition on contents alone |
| Clashes.ConflictIsNeverStored | ImSplash/Pods/Realm/include/object_accessor.hpp:82-90 | For any schema and value: if the value supplies two objects with one key whose contents clash (a different scalar, null against a link, links to different keys, lists of different length or with clashing elements), no database holds it on any row |
| Clashes.UpsertNeverSettles | ImSplash/Pods/Realm/include/object_accessor.hpp:190-305 | Upserting such a value that succeeds writes something every time, in every state: it never becomes a call that changes nothing |
| RepeatedUpserts.CircleNeverSettles | ImSplash/Pods/Realm/include/object_accessor.hpp:82-90 | The value that names one key twice with two contents is an instance: it contradicts itself, so no upsert of it leaves the log alone |
| RepeatedUpserts.RepeatDestroysLink | ImSplash/Pods/Realm/include/object_accessor.hpp:82-90 | Such a value on an empty table: both upserts succeed, the first leaves 1 linked to 2 linked to 1, the second takes the link of 1 away; its plan is not coherent |
| ReadBack.UnchangedIffStored | ImSplash/Pods/Realm/include/object_accessor.hpp:82-98 | `create` under `UpdateModified` leaves the state and the log alone if and only if the row already holds the value, an independent predicate on the tables |
| Keys.KeysStayDistinct | ImSplash/Pods/Realm/include/object_accessor.hpp:204-258 | From an empty Realm, after any sequence of `create` and `set_property_value` calls, failed ones included, keys are distinct in each table, and every row keeps its key and is what a lookup of it finds |
| Keys.CreateKey | ImSplash/Pods/Realm/include/object_accessor.hpp:207-215 | After a successful `create` the row has the key given by the value; without one the default; without either null; a null key only in a nullable column |
| Keys.KeyRefused | ImSplash/Pods/Realm/include/object_accessor.hpp:207-215 | Which key is refused, by field, default, type and nullability, with which error, and that nothing is written then |
| Keys.KeyAccepted | ImSplash/Pods/Realm/include/object_accessor.hpp:207-258 | With any other key there is a row, unless `ForceCreate` meets the key |
| Keys.CreateThenGet | ImSplash/Pods/Realm/include/object_accessor.hpp:316-350 | After a successful `create`, `get_for_primary_key` with the key as the value, or else the default, gave it finds the row returned, and every key that resolved before resolves to the same row |
| Keys.GetExact | ImSplash/Pods/Realm/include/object_accessor.hpp:316-350 | A lookup finds the first row with the key named, and nothing if and only if no row has it; which input is refused, and how |
| Keys.ForceCreateIffNew | ImSplash/Pods/Realm/include/object_accessor.hpp:244-257 | `ForceCreate` is refused, with nothing written, exactly when the key is taken |
| FlatCreate.CreateFlat | ImSplash/Pods/Realm/include/object_accessor.hpp:190-305 | On a flat type under any policy: which row is used or added, and the final content of every cell of every table (input, else default on a new row, else empty or unchanged) |
| FlatCreate.CreateFlatSucceeds | ImSplash/Pods/Realm/include/object_accessor.hpp:204-297 | `create` on a flat type succeeds if and only if the value is an object, its key is well formed and, under `ForceCreate`, free, and every column fits its type, may be null or may be missing |
| FlatCreate.AssignFlat | ImSplash/Pods/Realm/include/list.hpp:250-282 | For scalar lists of any old and new length, both branches of `assign` leave exactly the new sequence and touch no other cell |
| ListLog.AssignWritesWhatDiffers | ImSplash/Pods/Realm/include/list.hpp:236-275 | Assigning a list of primitives in place adds to the log exactly the writes of `Edits`, each with the list before and after it, and their number is the number of shared positions that differ plus that of elements added or removed |
| Writes.CreateWrites | ImSplash/Pods/Realm/include/object_accessor.hpp:92-142 | Under `UpdateAll` and `ForceCreate` every column given but empty lists is written, whether or not it holds the value already |
| Upsert.TrimExact | ImSplash/Pods/Realm/include/list.hpp:272-274 | The trailing remove loop ends with the list cut to the new length |
| RowReuse.AssignReusesRows | ImSplash/Pods/Realm/include/list.hpp:236-274 | Assigning n flat unkeyed objects under `UpdateModified` to a list of sz distinct rows adds exactly max(0, n - sz) rows, keeps the row of each old position, leaves each row with its own element, and changes nothing else |
| RowReuse.AssignAddsRows | ImSplash/Pods/Realm/include/list.hpp:276-281 | Under the other policies it adds exactly n rows, the list is those rows in order, each holds its own element or its defaults, and every other old cell is kept |
| ForceCreates.ForceStores | ImSplash/Pods/Realm/include/object_accessor.hpp:190-305 | After a successful `ForceCreate` of any value the row holds it at every depth, and every object in it lies in a row that was not there before |
| ForceCreates.ForceKeepsAll | ImSplash/Pods/Realm/include/object_accessor.hpp:190-305 | `ForceCreate`, successful or not, changes no cell that was there before |
| Results.BatchSetExact | ImSplash/Pods/Realm/include/results.hpp:353-358 | For any table, filter, property and value: after a batch update that succeeds exactly the rows that matched at entry hold the value, at every depth, no other cell that was there has changed, and each of these rows has objects of its own, created anew |
| Results.BatchSetScalars | ImSplash/Pods/Realm/include/results.hpp:353-358 | For primitives and lists of them every cell of every table afterwards, and no row is added |
| Results.BatchKeyedLink | ImSplash/Pods/Realm/include/results.hpp:353-358 | With a link to an object that has a primary key the batch succeeds if and only if nothing matches, or one row matches and the object can be created; on two rows the first is set and the second throws, because line 356 passes `ForceCreate` |
| Results.BatchKeyedFlat | ImSplash/Pods/Realm/include/results.hpp:353-358 | The same with the exact condition for a flat target: at most one match, a well-formed free key, and columns that fit |
| BatchKeys.BatchSucceeds | ImSplash/Pods/Realm/include/results.hpp:353-358 | For any table, filter, property and value the batch succeeds if and only if nothing matches, or the value can be set on the first row and either that is the only one or neither the value nor a default it draws in holds an object with a primary key; otherwise the first row is set and the second throws |
| BatchKeys.CreateTakes | ImSplash/Pods/Realm/include/object_accessor.hpp:190-305 | After a successful `ForceCreate` the key of every keyed object in the value, at any depth and in defaults, is taken |
| BatchKeys.CreateAgain | ImSplash/Pods/Realm/include/object_accessor.hpp:190-305 | A value without keyed objects that could be created once can be created again in any later state |
| Results.BatchStopsHalfWay | ImSplash/Pods/Realm/include/results.hpp:353-358 | A database, and any filter that matches both of its rows, on which the batch throws after setting the first |
| Results.Results.SetPropertyValue | ImSplash/Pods/Realm/include/results.hpp:337-359 | The snapshot loop over the tables in place ends in the state `BatchSet` describes, and refuses a primary key |
| Groups.Group.Create | ImSplash/Pods/Realm/include/object_accessor.hpp:190-305 | In place: tables, log and outcome are those of the specification function, also when the call fails half-way |
| Groups.Group.GetOrCreateRow | ImSplash/Pods/Realm/include/object_accessor.hpp:197-271 | The row for a value in place: lookup by key, the current row, or a new row |
| Groups.Group.Populate | ImSplash/Pods/Realm/include/object_accessor.hpp:277-297 | The loop over the properties in place |
| Groups.Group.SetPropertyValue | ImSplash/Pods/Realm/include/object_accessor.hpp:44-57 | Setting one property in place; a primary key is refused |
| Groups.Group.SetProperty | ImSplash/Pods/Realm/include/object_accessor.hpp:103-142 | Null, array, link and scalar branches in place |
| Groups.Group.UpdateLink | ImSplash/Pods/Realm/include/object_accessor.hpp:82-90 | The link branch in place: the old link is read before the nested create |
| Groups.Group.UpdateScalar | ImSplash/Pods/Realm/include/object_accessor.hpp:92-99 | The scalar branch in place |
| Groups.Group.Unbox | ImSplash/Pods/Realm/include/impl/object_accessor_impl.hpp:180-191 | Unboxing a value for a slot: managed objects as they are, other values through `create` with the policy and the current row |
| Groups.Group.Assign | ImSplash/Pods/Realm/include/list.hpp:250-282 | `List::assign` in place, with its early returns and both branches |
| Groups.Group.AssignInPlace | ImSplash/Pods/Realm/include/list.hpp:260-275 | The in-place branch: set or add each element, then remove the rest |
| Groups.Group.SetIfDifferent | ImSplash/Pods/Realm/include/list.hpp:237-246 | One position in place, with the old row as the current row of the nested create |
| Groups.Group.FindFirst | ImSplash/Pods/Realm/include/object_accessor.hpp:334-350 | The first row with a key, found in place |
| Ranges.CountIsCardinality | ImSplash/Pods/Realm/include/index_set.hpp:144-145 | Counting over ranges gives the cardinality of the set of members in the interval |
| Ranges.ShiftExact | ImSplash/Pods/Realm/include/index_set.hpp:183-186 | `shift(i)` is not in the set, is at least i, and `unshift` takes it back to i |
| Ranges.ShiftInverse | ImSplash/Pods/Realm/include/index_set.hpp:183-186 | `shift(unshift(j))` is j for every j outside the set |
| Ranges.ShiftMonotone | ImSplash/Pods/Realm/include/index_set.hpp:183-184 | `shift` is strictly increasing |
| Ranges.UnshiftMonotone | ImSplash/Pods/Realm/include/index_set.hpp:185-186 | `unshift` is increasing, strictly from an index outside the set on |
| Ranges.NewPositionBijective | ImSplash/Pods/Realm/include/collection_notifications.hpp:62-76 | `insertions.shift(deletions.unshift(m))` is a strictly increasing bijection from the surviving old positions to the new positions that are not insertions |
| Chunks.PrevNext | ImSplash/Pods/Realm/include/index_set.hpp:277-305 | `--` undoes `++` and `++` undoes `--` at every position, across chunk borders and from end |
| Chunks.PlaceInjective | ImSplash/Pods/Realm/include/index_set.hpp:263-268 | Iterators compare equal exactly when they stand on the same range |
| Chunks.Traverse | ImSplash/Pods/Realm/include/index_set.hpp:108-113 | `++` from begin to end yields the concatenation of all chunks |
| Chunks.TraverseIndices | ImSplash/Pods/Realm/include/index_set.hpp:192-219 | Stepping the index iterator until it equals end stops and yields every member once in ascending order, although its equality ignores the offset |
| Chunks.IndicesExact | ImSplash/Pods/Realm/include/index_set.hpp:191-219 | The list of single indices is strictly ascending and has exactly the members |
| Chunks.ChunkedRangeVectorIterator.Advance | ImSplash/Pods/Realm/include/index_set.hpp:277-284 | `++` in place |
| Chunks.ChunkedRangeVectorIterator.Retreat | ImSplash/Pods/Realm/include/index_set.hpp:294-305 | `--` in place |
| Chunks.IndexIterator.Advance | ImSplash/Pods/Realm/include/index_set.hpp:199-207 | One step drops exactly the first of the indices still to come |
| ChunkedVector.ChunkedRangeVector.PushBack | ImSplash/Pods/Realm/Realm/ObjectStore/src/index_set.cpp:72-86 | Appends to the flat sequence and keeps all chunk summaries right |
| ChunkedVector.ChunkedRangeVector.Insert | ImSplash/Pods/Realm/Realm/ObjectStore/src/index_set.cpp:88-104 | Inserts before a position in the flat sequence, splitting a full chunk, and returns an iterator to the new range |
| ChunkedVector.ChunkedRangeVector.EnsureSpace | ImSplash/Pods/Realm/Realm/ObjectStore/src/index_set.cpp:106-142 | Splits a full chunk: same flat sequence, same place, room for one more |
| ChunkedVector.ChunkedRangeVector.Erase | ImSplash/Pods/Realm/Realm/ObjectStore/src/index_set.cpp:144-170 | Removes one range, and its chunk if it was the last, and returns an iterator to the next |
| ChunkedVector.ChunkedRangeVector.Set | ImSplash/Pods/Realm/Realm/ObjectStore/src/index_set.cpp:31-43 | Replaces one range and updates the summary of its chunk |
| Builders.ChunkedRangeVectorBuilder.PushRange | ImSplash/Pods/Realm/Realm/ObjectStore/src/index_set.cpp:224-252 | Appends or joins; the chunk counts stay right if and only if, when all chunks are full, none is left in reserve and the range does not join the last one, the range has length one (line 244 sets the count to 1) |
| Builders.ChunkedRangeVectorBuilder.Finalize | ImSplash/Pods/Realm/Realm/ObjectStore/src/index_set.cpp:254-264 | The chunks hold the pushed ranges, and their summaries are right if and only if the counts were |
| IndexSets.IndexSet.Contains | ImSplash/Pods/Realm/Realm/ObjectStore/src/index_set.cpp:273-277 | True exactly for members |
| IndexSets.IndexSet.FindFrom | ImSplash/Pods/Realm/Realm/ObjectStore/src/index_set.cpp:328-344 | The first range that ends after the index |
| IndexSets.IndexSet.Count | ImSplash/Pods/Realm/Realm/ObjectStore/src/index_set.cpp:279-321 | Equals the number of members in the interval if and only if not `Miscounts`: the walk starts inside a chunk and ends inside or at the end of the first range of the next one, which is then left out, or it runs backwards within one range |
| RangeCount.MiscountExample | ImSplash/Pods/Realm/Realm/ObjectStore/src/index_set.cpp:290-302 | A well-formed set with eight members in an interval of which `count` returns three |
| IndexSets.MiscountReached | ImSplash/Pods/Realm/Realm/ObjectStore/src/index_set.cpp:279-321 | A sequence of additions to an empty set after which `count` returns 255 of 256 |
| RangeCount.NeverFromZero | ImSplash/Pods/Realm/Realm/ObjectStore/src/index_set.cpp:667-671 | A count from zero, as `unshift` uses it, never misses anything |
| IndexSets.IndexSet.Add | ImSplash/Pods/Realm/Realm/ObjectStore/src/index_set.cpp:346-349 | The index becomes a member, ranges that touch are joined, nothing else changes |
| IndexSets.IndexSet.DoAdd | ImSplash/Pods/Realm/Realm/ObjectStore/src/index_set.cpp:678-706 | All four ways of adding an index at its place, with the position returned |
| IndexSets.IndexSet.AddSet | ImSplash/Pods/Realm/Realm/ObjectStore/src/index_set.cpp:351-357 | Union |
| IndexSets.IndexSet.AddShifted | ImSplash/Pods/Realm/Realm/ObjectStore/src/index_set.cpp:359-373 | Adds and returns `shift(index)`, which was not a member |
| IndexSets.IndexSet.SetLength | ImSplash/Pods/Realm/Realm/ObjectStore/src/index_set.cpp:422-428 | The members are 0 up to the length |
| IndexSets.IndexSet.InsertAt | ImSplash/Pods/Realm/Realm/ObjectStore/src/index_set.cpp:430-454 | Members from the index on move up, and the new ones are members |
| IndexSets.IndexSet.ShiftForInsertAt | ImSplash/Pods/Realm/Realm/ObjectStore/src/index_set.cpp:487-506 | Members from the index on move up, and the gap is free |
| IndexSets.IndexSet.EraseAt | ImSplash/Pods/Realm/Realm/ObjectStore/src/index_set.cpp:535-540 | The index goes and later members move down |
| IndexSets.IndexSet.EraseOrUnshift | ImSplash/Pods/Realm/Realm/ObjectStore/src/index_set.cpp:573-595 | npos exactly for a member, otherwise `unshift(index)`; members move down either way |
| IndexSets.IndexSet.Remove | ImSplash/Pods/Realm/Realm/ObjectStore/src/index_set.cpp:641-644 | Removes exactly the span; the set stays well formed if and only if the span is not empty or lies strictly inside no range |
| IndexSets.IndexSet.DoRemove | ImSplash/Pods/Realm/Realm/ObjectStore/src/index_set.cpp:617-639 | Splitting, erasing and trimming ranges until no member of the span is left, with the same condition |
| RangeEdits.EmptySpanTouches | ImSplash/Pods/Realm/Realm/ObjectStore/src/index_set.cpp:617-639 | What the split step leaves of a range around an empty span: two ranges that touch, which `verify` forbids |
| IndexSets.IndexSet.RemoveSet | ImSplash/Pods/Realm/Realm/ObjectStore/src/index_set.cpp:646-654 | Set difference |
| IndexSets.IndexSet.InsertAtSet | ImSplash/Pods/Realm/Realm/ObjectStore/src/index_set.cpp:456-485 | The merge: positions become members and each old member keeps its rank among the free indices |
| IndexSets.IndexSet.EraseAtSet | ImSplash/Pods/Realm/Realm/ObjectStore/src/index_set.cpp:542-571 | The merge: y is a member afterwards exactly if `positions.shift(y)` was one |
| IndexSets.IndexSet.ShiftForInsertAtSet | ImSplash/Pods/Realm/Realm/ObjectStore/src/index_set.cpp:508-533 | The merge: old members keep their rank among the free indices and the positions stay free |
| IndexSets.IndexSet.AddShiftedBy | ImSplash/Pods/Realm/Realm/ObjectStore/src/index_set.cpp:375-420 | An index is added exactly if it is no member and the value it came from is there and outside `shifted_by`; the ranges are those of `AddAll`, and the chunk counts are right if and only if no old range longer than one, behind all added indices, comes to start a chunk beyond the reserved ones |
| ShiftedAdd.TargetsMeaning | ImSplash/Pods/Realm/Realm/ObjectStore/src/index_set.cpp:395-412 | The indices the loop adds are exactly those whose value, counted back through both sets, is there and not skipped |
| ShiftedAdd.OverrunExample | ImSplash/Pods/Realm/Realm/ObjectStore/src/index_set.cpp:414-415 | A set of one long range to which 256 separate indices below it are added: the counts go wrong |
| IndexMerge.EraseUndoesInsert | ImSplash/Pods/Realm/include/index_set.hpp:165-174 | Erasing the positions just inserted restores the set, range by range |
| CollectionChanges.MergeIsComposition | ImSplash/Pods/Realm/Realm/ObjectStore/src/impl/collection_change_builder.cpp:41-140 | Merging two change sets without moves is applying one after the other: the same elements survive, each ends where both put it, and insertions and modifications are those of the second and those of the first moved along |
| CollectionChanges.SameRank | ImSplash/Pods/Realm/Realm/ObjectStore/src/impl/collection_change_builder.cpp:41-140 | The k-th survivor of the merged changes goes to the k-th place that is not an insertion, through both change sets |
| ChangeMoves.MovesCompose | ImSplash/Pods/Realm/Realm/ObjectStore/src/impl/collection_change_builder.cpp:41-140 | With moves too, each element goes where both change sets take it in turn, and every move of the result leaves a deletion for an insertion, all of them different |
| ChangeBuilders.CollectionChangeBuilder.Merge | ImSplash/Pods/Realm/Realm/ObjectStore/src/impl/collection_change_builder.cpp:41-140 | In place, moves and clean-up included: an element goes to n afterwards if and only if both change sets take it there in turn; a modified element stays modified wherever it goes, unless it was new and is moved; no stale move is left; without moves the three sets are those of the merged change set; only the chunk counts of the deletions can be wrong, exactly when `add_shifted_by` overruns |
| ChangeBuilders.CollectionChangeBuilder.UpdateOldMoves | ImSplash/Pods/Realm/Realm/ObjectStore/src/impl/collection_change_builder.cpp:65-93 | The old moves end where the new changes take their rows, or go with them, and the new moves used up for that are gone |
| ChangeMoves.StaleMoves | ImSplash/Pods/Realm/Realm/ObjectStore/src/impl/collection_change_builder.cpp:142-154 | Taking a stale move out together with its deletion and its insertion changes for no element where it goes |
| ChangeMoves.StaysReal | ImSplash/Pods/Realm/Realm/ObjectStore/src/impl/collection_change_builder.cpp:142-154 | Taking a stale move out makes no other move stale |
| ChangeBuilders.CollectionChangeBuilder.CleanUpStaleMoves | ImSplash/Pods/Realm/Realm/ObjectStore/src/impl/collection_change_builder.cpp:142-154 | The clean-up changes for no element where it goes and leaves no stale move |
| ChangeBuilders.CollectionChangeBuilder.Insert | ImSplash/Pods/Realm/Realm/ObjectStore/src/impl/collection_change_builder.cpp:195-227 | Inserting elements is merging a change set of one insertion, for the three sets and for the moves |
| ChangeBuilders.CollectionChangeBuilder.Erase | ImSplash/Pods/Realm/Realm/ObjectStore/src/impl/collection_change_builder.cpp:229-245 | Erasing an element is merging a change set of one deletion, whether or not the element had been inserted; a move to it goes, the others shift |
| ChangeBuilders.CollectionChangeBuilder.MoveTo | ImSplash/Pods/Realm/Realm/ObjectStore/src/impl/collection_change_builder.cpp:264-309 | Moving an element: every element goes where the changes so far and then the move take it, an existing move is carried on, and a modified element stays modified |
| ChangeBuilders.CollectionChangeBuilder.Modify | ImSplash/Pods/Realm/Realm/ObjectStore/src/impl/collection_change_builder.cpp:174-183 | Modifying an element is merging a change set of one modification |
| RowMatches.LongestCommonSubsequenceCalculator.FindLongestMatch | ImSplash/Pods/Realm/Realm/ObjectStore/src/impl/collection_change_builder.cpp:615-685 | The dynamic program finds a common block of the two windows, and none is longer |
| RowMatches.LongestCommonSubsequenceCalculator.FindLongestMatches | ImSplash/Pods/Realm/Realm/ObjectStore/src/impl/collection_change_builder.cpp:687-702 | The blocks added are none if the windows have no row in common, and else a longest common block with the blocks of the windows before and, if line 700 lets it be searched, behind it around it; each lies behind the one before on both sides |
| RowMatches.LongestFound | ImSplash/Pods/Realm/Realm/ObjectStore/src/impl/collection_change_builder.cpp:692-701 | Among the blocks found in a window is one as long as its longest common block |
| RowMatches.NothingBefore | ImSplash/Pods/Realm/Realm/ObjectStore/src/impl/collection_change_builder.cpp:696-697 | No row in common is left in the window before the first block found |
| RowMatches.NothingBehind | ImSplash/Pods/Realm/Realm/ObjectStore/src/impl/collection_change_builder.cpp:700-701 | No row in common is left behind the last block found, if the old side of the window does not end later than the new one |
| RowDiffs.AlignedCarries | ImSplash/Pods/Realm/Realm/ObjectStore/src/impl/collection_change_builder.cpp:848-862 | If the positions left free on both sides hold the same rows in the same order, the change set carries the old sequence onto the new one |
| RowDiffs.CalculateMovesSorted | ImSplash/Pods/Realm/Realm/ObjectStore/src/impl/collection_change_builder.cpp:705-754 | Exactly the rows behind the first difference and outside the blocks become deletions and insertions; those left hold the same rows in the same order on both sides |
| KeptBlocks.LongestStays | ImSplash/Pods/Realm/Realm/ObjectStore/src/impl/collection_change_builder.cpp:740-753 | For every common block behind the first difference of the rows in both, as many rows stay together, neither deleted nor inserted |
| UnsortedMoves.CalculateMovesUnsorted | ImSplash/Pods/Realm/Realm/ObjectStore/src/impl/collection_change_builder.cpp:526-566 | Which rows the loop keeps in place, as a predicate on each row and what was kept before it, and the deletions, insertions and moves it makes of the others |
| UnsortedMoves.UnsortedCarries | ImSplash/Pods/Realm/Realm/ObjectStore/src/impl/collection_change_builder.cpp:515-566 | The change set carries the old sequence onto the new one whenever rows moved to the front only; if no row comes twice, exactly when the rows kept stay in order |
| UnsortedMoves.KeptIfAhead | ImSplash/Pods/Realm/Realm/ObjectStore/src/impl/collection_change_builder.cpp:534-565 | If rows moved to the front only, a row is found to have moved exactly if a row that is behind it now was before it |
| UnsortedMoves.MovesRight | ImSplash/Pods/Realm/Realm/ObjectStore/src/impl/collection_change_builder.cpp:561-565 | Each move found is from a deletion to an insertion of the same row, and no row has two |
| Calculations.Calculate | ImSplash/Pods/Realm/Realm/ObjectStore/src/impl/collection_change_builder.cpp:758-865 | The change set carries the old rows onto the new ones: each survivor lands on its own row and all other places are insertions; always for sorted results, and for results in table order under the condition of `UnsortedCarries`; for sorted results exactly the matched rows are left in place, and equal sequences give no deletions and no insertions; no row is left over on both sides, and modified are exactly the rows in both that have changed |
| RowPairs.FoundOnce | ImSplash/Pods/Realm/Realm/ObjectStore/src/impl/collection_change_builder.cpp:802-822 | If no row comes twice, the rows in both are all new rows that were there before |
| Calculations.TableOrderForward | ImSplash/Pods/Realm/Realm/ObjectStore/src/impl/results_notifier.cpp:135-146 | With the insertions of the table as candidates, as the notifier passes them, the condition holds if every move in the table goes to the front of the rows it passes |
| Calculations.BehindExample | ImSplash/Pods/Realm/Realm/ObjectStore/src/impl/collection_change_builder.cpp:551-558 | Two sequences in table order, two rows moved behind a third: the change set calculated does not lead from the one to the other |
| IndexMerge.EraseUndoesInsertOne | ImSplash/Pods/Realm/include/index_set.hpp:164-173 | The same for one index, whether or not the inserted index was a member |
| IndexMerge.SortedUnique | ImSplash/Pods/Realm/Realm/ObjectStore/src/index_set.cpp:172-196 | Two well-formed sets with the same members have the same ranges |
| IndexSets.IndexSet.Shift | ImSplash/Pods/Realm/Realm/ObjectStore/src/index_set.cpp:656-665 | The loop computes `shift` as specified |
| IndexSets.IndexSet.Unshift | ImSplash/Pods/Realm/Realm/ObjectStore/src/index_set.cpp:667-671 | Computes `unshift` exactly, despite the fault in `count` |
| ListEdits.List.ReplaceSubrange | ImSplash/Pods/RealmSwift/RealmSwift/List.swift:503-512 | When it succeeds, the reversed inserts give prefix + new + suffix; otherwise the exact state it stops in |
| ListEdits.List.ReplaceSubrangeInOrder | ImSplash/Pods/RealmSwift/RealmSwift/List.swift:667-671 | The second form: same result, same failures |
| ListEdits.List.RemoveSubrange | ImSplash/Pods/RealmSwift/RealmSwift/List.swift:612-617 | Repeated removal at the lower bound cuts out the range |
| ListEdits.List.InsertContentsOf | ImSplash/Pods/RealmSwift/RealmSwift/List.swift:599-605 | Inserts the whole sequence at the index; fails exactly for a non-empty sequence at a bad index |
| ListEdits.List.RemoveFirst | ImSplash/Pods/RealmSwift/RealmSwift/List.swift:566-575 | Equals removing the leading subrange; refused exactly outside 0 to count |
| ListEdits.List.RemoveLast | ImSplash/Pods/RealmSwift/RealmSwift/List.swift:583-592 | Equals removing the trailing subrange; refused exactly outside 0 to count |
| ListEdits.SpliceInverse | ImSplash/Pods/RealmSwift/RealmSwift/List.swift:599-617 | Inserting and then removing the span restores the list, and a replaced range can be put back |
| ListEdits.ReplaceWithOwnSlice | ImSplash/Pods/RealmSwift/RealmSwift/List.swift:551-557 | Assigning a slice of the list itself: the slice is read after the removal |
| ListEdits.OwnSliceKept | ImSplash/Pods/RealmSwift/RealmSwift/List.swift:503-512 | For distinct elements that gives the intended splice if and only if nothing is removed or the slice ends before the removed range |
| Timestamps.ForDate | ImSplash/Pods/Realm/include/RLMUtil.hpp:146-169 | Normalised for every date; in range the whole nanoseconds of the date, at the clamps the extreme values; int64 and int32 never overflow |
| Timestamps.ToDate | ImSplash/Pods/Realm/include/RLMUtil.hpp:139-145 | The date is nil exactly for a null timestamp |
| Timestamps.RoundTrip | ImSplash/Pods/Realm/include/RLMUtil.hpp:139-169 | A normalised timestamp comes back if and only if it lies inside both clamps or is the value of its clamp |
| Timestamps.Monotone | ImSplash/Pods/Realm/include/RLMUtil.hpp:146-169 | An earlier date never gives a lexicographically later timestamp, across both clamps |
| Timestamps.WithinANanosecond | ImSplash/Pods/Realm/include/RLMUtil.hpp:146-169 | The date that comes back is less than a nanosecond away, on the side of the reference date |
| Timestamps.OrderIsTotal | ImSplash/Pods/Realm/include/RLMUtil.hpp:163-168 | Normalised timestamps are ordered, and equal, exactly as their nanoseconds are |
| Operations.CancellationSpreadsInEveryRun | ImSplash/ImSplash/Classes/Common/Operations/ConcurrentOperation.swift:21-46 | In every run, if an operation was cancelled when it finished, every transitive dependent that has started is cancelled and finished without having run `main` |
| Operations.CancellationSpreads | ImSplash/ImSplash/Classes/Common/Operations/ConcurrentOperation.swift:70-75 | The same for any state that satisfies the invariant, along a dependency chain of any length |
| Operations.RunSafe | ImSplash/ImSplash/Classes/Common/Operations/ConcurrentOperation.swift:33-46 | Over every run no operation is executing and finished at once, and finishing, cancelling and running are never taken back |
| Operations.CompletedTooEarly | ImSplash/ImSplash/Classes/Common/Operations/ConcurrentOperation.swift:33-36 | A bare `completeOperation` before the start breaks this, exactly if neither the operation nor a dependency is cancelled |
| Operations.StartRunsMain | ImSplash/ImSplash/Classes/Common/Operations/ConcurrentOperation.swift:21-31 | Started in its turn, an operation runs `main`, and is executing and not cancelled then, if and only if neither it nor a direct dependency is cancelled |
| Operations.CancelledOnlyBy | ImSplash/ImSplash/Classes/Common/Operations/ConcurrentOperation.swift:21-46 | In a run from idle an operation is cancelled only if an event cancelled it or an operation it depends on, directly or not |
| Operations.UndisturbedRuns | ImSplash/ImSplash/Classes/Common/Operations/ConcurrentOperation.swift:21-46 | In a run without such events every operation that has started has run `main` |
| Operations.ConcurrentOperation.Start | ImSplash/ImSplash/Classes/Common/Operations/ConcurrentOperation.swift:21-31 | `start` in place, with the loop over the dependencies; its effect on each field |
| Operations.ConcurrentOperation.HasCancelledDependency | ImSplash/ImSplash/Classes/Common/Operations/ConcurrentOperation.swift:70-75 | True exactly if a direct dependency is cancelled |
| Operations.ConcurrentOperation.CompleteWithError | ImSplash/ImSplash/Classes/Common/Operations/ConcurrentOperation.swift:38-46 | Stores the error, cancels and completes |
| Operations.Perform | ImSplash/ImSplash/Classes/Common/Operations/ConcurrentOperation.swift:21-46 | Calls on the objects carry out the steps of the state machine |
| Transactions.Realm.Write | ImSplash/Pods/RealmSwift/RealmSwift/Realm.swift:212-223 | For every block and ending: closed afterwards unless the last commit fails; a throw leaves the state of the last commit; a return leaves every write committed that was not cancelled; an error ends the block exactly at the first commit that fails uncaught |
| Transactions.Realm.Run | ImSplash/Pods/RealmSwift/RealmSwift/Realm.swift:215-217 | What a block of writes, commits, cancels and re-begins leaves, up to its end, its first error or a crash |
| Transactions.WriteAll | ImSplash/Pods/RealmSwift/RealmSwift/Realm.swift:212-223 | A block of writes alone is committed as a whole or not at all, and the transaction stays open exactly if the commit fails |
| Observation.ObservationInfo.ForEach | ImSplash/Pods/Realm/include/RLMObservation.hpp:115-130 | From any info of a chain: the infos before it backwards, then it and those after it |
| Observation.VisitsOnce | ImSplash/Pods/Realm/include/RLMObservation.hpp:115-130 | That order has every info of the chain exactly once, wherever it starts |
| Observation.InsertBehind | ImSplash/Pods/Realm/Realm/RLMObservation.mm:146-150 | The pointer updates put a new info behind the head and keep the chain linked both ways |
| Observation.ObservedObjects.SetRow | ImSplash/Pods/Realm/Realm/RLMObservation.mm:140-155 | One chain per row: joins the chain of the row behind its head or starts a new one, and leaves the others alone |

## Left out

- Migration mode and the sync branches of `create`: rows are added with a plain empty row and a unique key. The `Skip` policy, which never creates, is not modelled either.
- Refinement.UpdateModifiedRefinesUpdateAll: is proved under conditions on schema and value that are sufficient; values that nest a key and still agree by coincidence are not characterised.
- Success.CreateSucceeds: for an object with a primary key it is enough, but not needed, that all required columns are supplied; exactly what is needed depends on which keys exist by the time it is reached, and `CreateNeeds` states what is needed in any case.
- Idempotence.CreateExact: asks for a coherent plan, so for a value that gives one key two contents only `ReadBack.UnchangedIffStored`, `Leaving.CreateLeaves` and the success conditions apply.
- Idempotence.UpsertIsIdempotent: asks for a coherent plan; values that conflict with themselves in ways that happen to cancel out are not characterised, though ReadBack.UnchangedIffStored says for every state exactly when a call changes nothing.
- `SameList` boxes the very list that is assigned to; in a batch update the source compares with one list per row, so a list taken from one of the rows is modelled as its elements.
- Default values that are objects may expand only `depth` levels deep, for every depth; the source recurses without limit. Nesting of the input value itself is unlimited.
- A null assigned to an array of nullable elements, whose effect is inside the database core. `remove_all` on an empty list is taken to be no write.
- Comparison is reflexive: NaN, which `UpdateModified` would rewrite every time, is not a value of the model. Bool, Float, Double, Data and Date values are only copied and compared, so they share one kind of value.
- The class of a managed object handed in as a link is not checked, and managed objects are assumed to belong to the same Realm.
- Key-value observing hooks, reference counting and threads. Every operation is one atomic step.
- `size_t` is unbounded here.
- Iterator invalidation: an iterator is a pair of positions, so what a stale pointer would do is not captured.
- IndexSets.IndexSet.RemoveSet: excludes removing a set from itself, where the source walks over the chunks it is erasing and its iterators become invalid.
- ChangeBuilders.CollectionChangeBuilder.Merge: if there are moves and `add_shifted_by` overruns, the clean-up would count with wrong chunk counts; that case is excluded, by the condition that `AddShiftedBy` shows to be exact. Per-column modifications, which are merged the way `modifications` is, are left out.
- ChangeBuilders.CollectionChangeBuilder.Insert: without the move mapping that `move_over`, `swap` and `subsume` keep for tables, and without its caller's option not to track moves; these three operations are not modelled.
- ChangeBuilders.CollectionChangeBuilder.Modify: without the modification per column.
- Calculations.Calculate: of `std::sort` only that the result is sorted and a permutation. Which of two equally long blocks is taken depends on counts of modified rows, which is modelled but enters no theorem; that the change set is the smallest one is not claimed.
- Timestamps.ForDate: over ideal reals, so the rounding of a double is not modelled; NaN and nil are.
- Operations: the step from `isExecuting = true` to completion inside `start` is atomic, so the moment in which a cancelled operation shows both flags is not visible. The theorem is about the cancelled flag at the time of finishing, so it does not depend on whether Foundation ignores a later cancel. `main` of the subclasses, with its network request, is an event.
- Transactions: a commit fails or not as a parameter, and leaves the transaction open when it fails; the Objective-C exceptions of misplaced calls end the run.
- Observation.ObservationInfo.ForEach: the callback is recorded but has no effect on the chain, and removal of an info by its destructor is not modelled.
- View controllers, networking, JSON decoding, image loading, configuration and enum conversions: wiring or easy members.
