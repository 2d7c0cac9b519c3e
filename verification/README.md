# The Realm object accessors, modelled and verified

A Dafny model of the parts of the vendored Realm object store whose algorithms are
written out in headers, and proofs of what they promise:

* the **upsert engine** — `Object::create`, `Object::set_property_value`,
  `List::assign`, `Results::set_property_value` and the lookups and reads beside
  them: a recursive writer that takes a tree of values, finds rows by primary key or
  adds them, fills in defaults and writes everything or only what differs;
* the **iterators of `IndexSet`** over ranges kept in chunks;
* the conversion between **dates and timestamps**;
* the walk over the doubly linked chain of **observers** of a row.

`dafny verify dfyconfig.toml` checks the whole project.

## How it is laid out

| file | contents |
|---|---|
| `PropertyTypes.dfy` | the property type byte and its operators |
| `Values.dfy`, `Schemas.dfy`, `Stores.dfy` | value trees, object schemas, tables and the log of writes |
| `Terms.dfy` | what a tree asks for, in terms of the tree and the schema alone |
| `Upsert.dfy` | the engine as functions on tables, in the branches and order of the source |
| `Accessors.dfy` | the engine as a class that updates its tables in place; each method is proved to do what its function says |
| `Monitor.dfy`, `Soundness.dfy` | a judge that replays a log event by event, and the engine against it |
| `Runs.dfy` | whole runs: keys, lookups, notifications |
| `Footprints.dfy`, `Effects.dfy` | which rows a tree reaches; what a call makes of them and what it leaves alone |
| `Acceptance.dfy` | which trees are accepted, told from the tree and the tables before anything is written |
| `Guards.dfy` | what the public calls refuse, and which row or cell they act on when they do not |
| `Layouts.dfy` | every object of a tree is a row of its own, and no other row is added |
| `Idempotence.dfy`, `Refinement.dfy` | a second upsert writes nothing; the diff form against the full form |
| `Reads.dfy`, `ListDiffs.dfy` | read after write; which writes the two forms make on a list |
| `FlatWrites.dfy`, `FlatLogs.dfy` | values that create no object: the tables and the log they leave, exactly; duplicate keys in a migration |
| `Interrupted.dfy` | what a call that throws leaves behind |
| `Results.dfy`, `Batches.dfy`, `BatchAnswers.dfy` | batch updates, of plain values and of object trees; when they return |
| `IndexSets.dfy`, `Timestamps.dfy`, `Observation.dfy` | the three smaller components |

Reading order: `Upsert`, then `Terms` and `Effects.Reflects` (what a tree makes of a row, cell by
cell, as a statement about the tables before and after), then the theorems.

## What the model assumes

* Tables only grow while the engine runs, so a row is named by its index. A property's
  column is its position in the schema.
* Calls the headers make into code that is not shown are given the behaviour their
  documentation states: `find_first` answers the first matching row, `add_empty_row`
  appends a row of nulls, zeros and empty lists, `set_unique` is called only for a key
  that no row holds (`SetUnique` demands it and `Locate` proves it).
* The accessor context follows the reference context in `object_accessor_impl.hpp`:
  values that do not fit the type asked for throw. Values and defaults are data, so
  unboxing the same value twice gives the same scalar, and a scalar equals itself (no
  NaN).
* `do_update_value` reads the cell with `Table::get<T>`, whose body is not in the
  headers. What it answers for a null cell rests on the comment at lines 427-433 of
  `core/realm/table.hpp`: a default value, but for the types that can hold a null
  themselves. The default is taken to be that of `get_int` and `get_bool`, zero and
  false (lines 2262-2268 and 2290-2296); floats answer a reserved NaN (lines
  2313-2328), and this and the nulls of strings, binaries and timestamps equal no
  value.
* Computed properties (backlinks) come after the persisted ones in `props`; `create`
  loops over the persisted ones only.
* A null for a list of optional values meets the null branch before the array branch;
  a list column rejects it, which the model has as the exception `NotNullable`.

## Where the code and its promises part

* **A value is lost in the diff form.** `do_update_value` skips the write when the typed
  read of the cell equals the new value, and a null integer reads as 0, a null boolean
  as false. Setting 0 or false over null with `update_only_diff` therefore leaves null,
  even in a row that `create` has just added. `Reads.ZeroIsLost` is the smallest case,
  `Reads.ScalarReadAfterWrite` the exact condition for one cell and
  `Refinement.DiffRefinesFull` for whole trees, in both directions.
* **A batch over a live collection can miss objects.** The size is taken once and the
  objects are asked for by position, so a write that takes its object out of the
  collection makes the loop pass over the next one and end with an index that is out of
  range: `BatchAnswers.ShrinkingBatch`. `Results.SetAllFlat` and `Batches.SetAllCovers`
  hold for collections that the writes leave in place.
* **A refused value is not without effect.** Replacing a list in the full form clears it
  first, so a value that is no list leaves it empty, and a list with one wrong element
  leaves the elements before it; the properties written before stay written and an added
  row stays. `Interrupted` says exactly what is left.
* **Early dates are clamped too soon.** The lower guard subtracts the epoch offset where
  the seconds have it added, so dates less than twice the offset above the smallest
  representable second become the smallest timestamp. `Timestamps.EarlyDateIsClamped`
  is a case, `Timestamps.RoundTrip` says exactly which timestamps survive the way to a
  date and back.
* **`IndexIterator::operator==` ignores the offset.** Two iterators within one range are
  equal wherever they stand in it: `IndexSets.EqualButApart` is a case,
  `IndexSets.IndexIterator.Equals` states both what it compares and what it would take
  to compare places. Loops up to `end()` are not
  affected (`IndexSets.Visit`).

## Model

| member | source | states |
|---|---|---|
| PropertyTypes.OperatorsReadTheRecord | Project/Pods/Realm/include/property.hpp:100-156 | the flag operators on the byte answer the questions about base type, nullability and array for every combination of them, and no two types share a byte |
| PropertyTypes.MasksAgreeOffArrays | Project/Pods/Realm/include/object_accessor.hpp:111-183 | the getter's switch finds the base type of every property, the setter's exactly that of the properties that are not arrays |
| PropertyTypes.BytesThatAreTypes | Project/Pods/Realm/include/property.hpp:40-59 | a byte encodes a property type exactly when the getter's switch has a case for it |
| Monitor.AcceptedLogsAreSafe | Project/Pods/Realm/include/object_accessor.hpp:50-54 | any log without a forbidden write leaves well-formed tables with distinct keys and changes no key of an old row |
| Soundness.CreateSound | Project/Pods/Realm/include/object_accessor.hpp:197-311 | whatever tree it is given and however it ends, create logs only permitted writes that lead to the tables it leaves, and closes its brackets when it returns |
| Soundness.SetPropertySound | Project/Pods/Realm/include/object_accessor.hpp:76-148 | the same for setting one property that is not a primary key |
| Soundness.AssignSound | Project/Pods/Realm/include/list.hpp:249-283 | the same for replacing a list inside its owner's bracket, in both forms |
| Runs.KeysAreSafe | Project/Pods/Realm/include/object_accessor.hpp:210-264 | outside a migration any run of calls, nested creates and exceptions included, keeps keys pairwise distinct in each table and never changes or removes the key of a row |
| Runs.LookupIsExact | Project/Pods/Realm/include/object_accessor.hpp:322-356 | for every value that a key of the class can be, null where the key is nullable, a lookup answers the first row that holds it, outside a migration the only one, and a detached object exactly when none does; it throws exactly at the other values and for a class without a key |
| Runs.CreatedIsFound | Project/Pods/Realm/include/object_accessor.hpp:211-248 | the row a create answered is the row its key leads to, after any later run |
| Runs.NoTransaction | Project/Pods/Realm/include/object_accessor.hpp:47-47 | outside a transaction no call answers and no run of calls changes a table or the log |
| Runs.WritesAreBracketed | Project/Pods/Realm/include/object_accessor.hpp:80-147 | in any run every cell or list write lies in the change bracket of its own row and property, and a run of normal returns leaves no bracket open |
| Acceptance.FaultsDecide | Project/Pods/Realm/include/object_accessor.hpp:197-311 | before anything is written the tree and the tables tell whether create returns: it does if and only if no key or value in the tree is missing, of the wrong type, misplaced or taken, and an exception names one of these faults |
| Acceptance.KeyIsAsked | Project/Pods/Realm/include/object_accessor.hpp:213-222 | the key that create looks for is the given value, else the default, else null where the key is nullable, and it throws where there is none of these |
| Guards.SetterGuards | Project/Pods/Realm/include/object_accessor.hpp:43-54 | the setter refuses a row that is not there, a write outside a transaction, an unknown property and a primary key outside a migration, in this order, and has written nothing then |
| Guards.SetterWrites | Project/Pods/Realm/include/object_accessor.hpp:56-84 | otherwise it writes the cell of the row and property asked for, which then describes the value, and returns exactly when the value has no fault |
| Guards.SetterWritesFlat | Project/Pods/Realm/include/object_accessor.hpp:56-84 | a value that creates no object changes that one cell and no other, in migrations and for primary keys too |
| Guards.TakenKey | Project/Pods/Realm/include/object_accessor.hpp:222-263 | for a key that a row holds, create without try_update throws outside a migration and writes nothing; with it that row is updated and answered |
| Guards.FreeKey | Project/Pods/Realm/include/object_accessor.hpp:224-249 | for a key that no row holds one row is added with it and answered, whatever try_update says |
| Guards.NoKey | Project/Pods/Realm/include/object_accessor.hpp:265-277 | without a key the current row is reused in the diff form, and otherwise a row is added |
| Guards.BadKey | Project/Pods/Realm/include/object_accessor.hpp:215-222 | a tree that gives the key nothing, or a value of the wrong type, is refused before anything is written |
| Guards.BatchGuards | Project/Pods/Realm/include/results.hpp:337-346 | the batch refuses a write outside a transaction, an unknown property and a primary key outside a migration, whatever the collection holds |
| Effects.CreateEffect | Project/Pods/Realm/include/object_accessor.hpp:197-311 | for a tree that repeats no key and reaches no keyless row twice: no row outside the reached ones changes even if the call throws, and on return the row and all nested rows hold the given value, else the default, else the fresh value if added, else what they held; a nested object without a key is the row that was there to compare with, else a new one |
| Effects.LocateEffect | Project/Pods/Realm/include/object_accessor.hpp:203-277 | the row found or added has the tree's key, is fresh exactly when it was not in the table, and nothing else changed |
| Effects.PopulateEffect | Project/Pods/Realm/include/object_accessor.hpp:279-303 | a given value is written, a default exactly on an added row whose property is given nothing, a property with neither stays as it was, which an added row allows only where the property is nullable or a list or the tree is an array; every other column of the row is left alone |
| Effects.SetPropertyEffect | Project/Pods/Realm/include/object_accessor.hpp:76-148 | after a normal return the cell describes the value, whatever its kind, and which row a nested object is; only the cell and the rows the value reaches changed |
| Effects.WriteNullEffect | Project/Pods/Realm/include/object_accessor.hpp:85-98 | the cell or link is null afterwards; leaving out the write of a defaulted null link is sound because a defaulted cell is fresh |
| Effects.WriteScalarEffect | Project/Pods/Realm/include/object_accessor.hpp:66-73 | the cell holds the value, except that the diff form keeps a null that already reads as it |
| Effects.WriteLinkEffect | Project/Pods/Realm/include/object_accessor.hpp:112-120 | the link points at a row that the nested value describes: that of its key, without one the row linked before in the diff form, else a new one; rows the value does not reach are unchanged |
| Effects.AssignEffect | Project/Pods/Realm/include/list.hpp:249-283 | in both forms the list holds exactly the unboxed elements in order, and the nested rows are as their trees say: elements without a key keep the old element's row where they are compared with one and get new rows, in ascending order, where they are added |
| Effects.ElementEffect | Project/Pods/Realm/include/list.hpp:236-246 | one element changes one position of the list, compared with the old one, whose row an object without a key keeps, or added as a new row |
| Effects.TrimEffect | Project/Pods/Realm/include/list.hpp:272-275 | the trimming loop ends, throws nothing and leaves the first elements |
| Layouts.EachObjectItsOwnRow | Project/Pods/Realm/include/object_accessor.hpp:197-311 | after a normal return the objects of the tree, nested ones and list elements included, are pairwise different rows, and the rows without a key that the call added are exactly those of the tree's objects |
| Idempotence.SecondUpsertIsQuiet | Project/Pods/Realm/include/object_accessor.hpp:197-311 | a second diff upsert answers the same row, changes no table and logs nothing but notifications and clearing of empty lists |
| Refinement.DiffRefinesFull | Project/Pods/Realm/include/object_accessor.hpp:66-148 | where every linked class has a key and the tree repeats none, the diff and the full form answer or throw alike, and after an answer their tables are the same but for nulls that the diff form kept where the full form holds the value they read as; they are the same if and only if no null cell is given that value |
| Reads.ReadAfterWrite | Project/Pods/Realm/include/object_accessor.hpp:150-184 | after a set in either form, of a given value or a default, the getter answers the value set, for null, scalars, links and lists, but for a scalar the diff form loses |
| Reads.GetterReadsTheCell | Project/Pods/Realm/include/object_accessor.hpp:150-184 | on well-formed tables the getter throws only for a row that is not there, and answers null, the scalar, the linked row or the list that the cell holds |
| Reads.GetterTellsApart | Project/Pods/Realm/include/object_accessor.hpp:157-183 | two states of a cell that is neither a list nor mixed read alike if and only if they are the same |
| Reads.FreshRowReads | Project/Pods/Realm/include/core/realm/table.hpp:2079-2084 | an added row reads as nulls, zeros, empty values and empty lists |
| Reads.ScalarReadAfterWrite | Project/Pods/Realm/include/object_accessor.hpp:66-73 | a scalar set in either form is read back if and only if it was not a diff write of the value that the null cell already read as |
| Reads.ZeroIsLost | Project/Pods/Realm/include/core/realm/table.hpp:2262-2268 | the concrete case: zero given to an optional integer of a new object is lost in the diff form and kept in the full form |
| ListDiffs.DiffAssignIsExact | Project/Pods/Realm/include/list.hpp:260-276 | where no element is to be created, scalars or managed objects, the diff form leaves the given elements and its log is exactly a set at each differing shared position, max(0, n - old) additions and max(0, old - n) removals at the end |
| ListDiffs.ShiftingCostsMore | Project/Pods/Realm/include/list.hpp:236-246 | the comparison is by position, so this is not always the shortest way: a case where one removal would do |
| ListDiffs.FullAssignReplaces | Project/Pods/Realm/include/list.hpp:277-282 | the full form leaves the same elements by clearing the list and adding every one, in order |
| FlatWrites.FlatSet | Project/Pods/Realm/include/object_accessor.hpp:76-148 | setting a value that creates no object, in either form, given or default, changes its one cell and nothing else in any table |
| FlatWrites.FlatSetDecides | Project/Pods/Realm/include/object_accessor.hpp:76-148 | setting such a value returns exactly when nothing is wrong with it, in a migration or not |
| FlatWrites.DuplicateIsAdded | Project/Pods/Realm/include/object_accessor.hpp:249-303 | in a migration a create for a key that some row holds never throws at the key: it adds a second row with the given values, its key among them, else the defaults, changes nothing else, and throws exactly when a value has a fault |
| FlatLogs.FlatSetLog | Project/Pods/Realm/include/object_accessor.hpp:76-148 | setting such a value logs one bracket around exactly one write, marked as default where it is one, and in the diff form around none where the cell would not change; a refused scalar or link leaves the bracket open and nothing written |
| FlatLogs.FlatCreate | Project/Pods/Realm/include/object_accessor.hpp:279-303 | the log of a create of such a tree is the brackets of its due properties in the order of the columns, and the tables are those it fills |
| Interrupted.SetStops | Project/Pods/Realm/include/list.hpp:249-283 | a refused value leaves its cell as it was, but for a list: the full form has cleared it and the elements before the refused one are written |
| Interrupted.CreateStops | Project/Pods/Realm/include/object_accessor.hpp:283-303 | a create that throws does so at the first property with a fault, leaves the row it added and the properties before, and changes no other cell |
| Interrupted.AddedRowStays | Project/Pods/Realm/include/object_accessor.hpp:224-249 | whatever the tree and however create ends, the row it added for a free key stays, with the key |
| Interrupted.NestedStays | Project/Pods/Realm/include/object_accessor.hpp:112-120 | a nested object that is refused leaves what it had written |
| Interrupted.BatchStops | Project/Pods/Realm/include/results.hpp:349-353 | a refused plain value leaves the first object of the collection as the setter would, and no other object is written |
| Results.SetAllFlat | Project/Pods/Realm/include/results.hpp:334-354 | for a value that creates no object, in a migration or not: every object in the collection at the call holds it afterwards and no other cell changed |
| BatchAnswers.SetAllDecides | Project/Pods/Realm/include/results.hpp:334-354 | a batch of any tree returns if and only if nothing is wrong with the value for any object of the collection, judged by the tables at the call: a key that the first write creates stops no later one |
| BatchAnswers.SetAllFlatDecides | Project/Pods/Realm/include/results.hpp:334-354 | the same for values that create no object, in a migration or not |
| BatchAnswers.SetAllFlatLog | Project/Pods/Realm/include/results.hpp:349-353 | such a batch logs one bracket for each object, in the order of the collection |
| BatchAnswers.ShrinkingBatch | Project/Pods/Realm/include/results.hpp:349-352 | a case: two objects that the write takes out of the collection; the first is written, the second passed over, and the batch ends with an index out of range |
| Batches.ObjectAgain | Project/Pods/Realm/include/object_accessor.hpp:279-303 | a tree written a second time finds its keyed objects, and they are still what the first write and the second together make of it; objects without a key are new each time and the earlier ones stay |
| Batches.SetAllCovers | Project/Pods/Realm/include/results.hpp:334-354 | for any tree that repeats no key and names no object of the collection: every object in the collection at the call holds the value as if it alone had been written, and nothing changed but that column of them and the rows the tree names |
| Batches.SetAllShares | Project/Pods/Realm/include/results.hpp:349-353 | the whole collection links to the one row with the tree's key, or, without a key, each object to a row of its own |
| Accessors.Realm.AddEmptyRow | Project/Pods/Realm/include/core/realm/table.hpp:2079-2084 | appends a fresh row, answers its index and leaves the rows before it alone |
| Accessors.Realm.SetUnique | Project/Pods/Realm/include/core/realm/table.hpp:485-501 | called for a key no other row holds, it makes the row the only one that holds it |
| Accessors.Realm.FindFirst | Project/Pods/Realm/include/object_accessor.hpp:347-355 | the first row whose key column holds the key |
| Accessors.Realm.Write | Project/Pods/Realm/include/object_accessor.hpp:80-147 | one write to one cell or list, logged with the notifications |
| Accessors.Realm.GetForPrimaryKey | Project/Pods/Realm/include/object_accessor.hpp:322-356 | the lookup in place: the first row with the key, a detached object exactly when there is none, an exception at any other value |
| Accessors.Realm.Locate | Project/Pods/Realm/include/object_accessor.hpp:203-277 | the head of create in place: found, duplicate, migration, current row or added row |
| Accessors.Realm.Create | Project/Pods/Realm/include/object_accessor.hpp:197-311 | create in place: tables, log and answer or exception are those of the function that the theorems are about; a taken key is refused or its row answered, a free key gets the next row, and nothing happens outside a transaction; good tables stay good and only grow |
| Accessors.Realm.Populate | Project/Pods/Realm/include/object_accessor.hpp:283-303 | the loop over the persisted properties |
| Accessors.Realm.SetPropertyValue | Project/Pods/Realm/include/object_accessor.hpp:43-57 | the public setter: its guards in order, and else the cell of this row and property holds the value and nothing else changes but the rows it reaches; good tables stay good |
| Accessors.Realm.SetPropertyImpl | Project/Pods/Realm/include/object_accessor.hpp:76-148 | the setter's branches in place: null, array, link, scalar, each in full and diff form |
| Accessors.Realm.UnboxRow | Project/Pods/Realm/include/impl/object_accessor_impl.hpp:179-191 | a managed object is its row, anything else is created |
| Accessors.Realm.UnboxItem | Project/Pods/Realm/include/property.hpp:158-174 | the element type decides between a row and a scalar, optional where the type is nullable |
| Accessors.Realm.Assign | Project/Pods/Realm/include/list.hpp:249-283 | same list, null, diff and full replacement in place |
| Accessors.Realm.AssignDiff | Project/Pods/Realm/include/list.hpp:260-276 | the comparing loop and the trimming loop |
| Accessors.Realm.AssignFull | Project/Pods/Realm/include/list.hpp:277-282 | the clearing and adding loop |
| Accessors.Realm.SetIfDifferent | Project/Pods/Realm/include/list.hpp:236-246 | one comparison and at most one set, against the current row |
| Accessors.Realm.Add | Project/Pods/Realm/include/list.hpp:193-197 | an added element is created in full form whatever the form of the call |
| Accessors.Realm.SetAll | Project/Pods/Realm/include/results.hpp:334-354 | the batch loop over a live collection, with the size taken once; outside a transaction it is refused and nothing changes; good tables stay good |
| IndexSets.SamePlace | Project/Pods/Realm/include/index_set.hpp:263-275 | two iterator places are the same pointers exactly when they are the same position in the concatenation of all chunks |
| IndexSets.RangeIterator.Begin | Project/Pods/Realm/include/index_set.hpp:108-108 | position zero, which is the end for an empty set |
| IndexSets.RangeIterator.AtEnd | Project/Pods/Realm/include/index_set.hpp:109-109 | the position after the last range |
| IndexSets.RangeIterator.Get | Project/Pods/Realm/include/index_set.hpp:47-48 | the range at that position of the concatenation |
| IndexSets.RangeIterator.Equals | Project/Pods/Realm/include/index_set.hpp:263-275 | true exactly for equal positions |
| IndexSets.RangeIterator.NextChunk | Project/Pods/Realm/include/index_set.hpp:315-320 | the position just after the current chunk |
| IndexSets.RangeIterator.Increment | Project/Pods/Realm/include/index_set.hpp:277-284 | one position further, chunk boundary or not |
| IndexSets.RangeIterator.Decrement | Project/Pods/Realm/include/index_set.hpp:294-305 | one position back, also over a chunk boundary and from the end |
| IndexSets.RangeIterator.ThereAndBack | Project/Pods/Realm/include/index_set.hpp:277-305 | an increment and a decrement restore the very same pointers |
| IndexSets.RangeIterator.BackAndThere | Project/Pods/Realm/include/index_set.hpp:277-305 | a decrement and an increment restore them too, from the end as well |
| IndexSets.IndexIterator.Get | Project/Pods/Realm/include/index_set.hpp:195-195 | the member of the set with that rank |
| IndexSets.IndexIterator.Increment | Project/Pods/Realm/include/index_set.hpp:199-207 | exactly one member further |
| IndexSets.IndexIterator.Equals | Project/Pods/Realm/include/index_set.hpp:196-196 | equal exactly within one range, which is equality of places only together with equal offsets |
| IndexSets.EqualButApart | Project/Pods/Realm/include/index_set.hpp:196-196 | a case: an iterator and its increment compare equal and stand on different members |
| IndexSets.MembersAscend | Project/Pods/Realm/include/index_set.hpp:191-219 | the members come in strictly ascending order, so each comes once |
| IndexSets.MembersAreContained | Project/Pods/Realm/include/index_set.hpp:141-142 | a number is among the members exactly when some range contains it |
| IndexSets.MembersCount | Project/Pods/Realm/include/index_set.hpp:191-219 | there are as many members as the ranges are long together |
| IndexSets.Visit | Project/Pods/Realm/include/index_set.hpp:221-235 | the loop from begin to end ends and sees every member in that order |
| Timestamps.TimestampFor | Project/Pods/Realm/include/RLMUtil.hpp:144-167 | cast, carry and clamps compute the canonical timestamp of the date cut to the nanosecond |
| Timestamps.DatesAreCanonical | Project/Pods/Realm/include/RLMUtil.hpp:151-166 | for every date the parts fit their types, never have opposite signs, and unclamped results are less than a nanosecond off, towards the reference date |
| Timestamps.FixedPoints | Project/Pods/Realm/include/RLMUtil.hpp:151-155 | the reference date, and from which dates on exactly the two clamp values are answered |
| Timestamps.DatesKeepTheirOrder | Project/Pods/Realm/include/RLMUtil.hpp:144-167 | later dates never become earlier timestamps, across both clamps and the carry |
| Timestamps.RoundTrip | Project/Pods/Realm/include/RLMUtil.hpp:137-167 | a timestamp survives conversion to a date and back if and only if it is null, lies between the two guards or is a clamp value |
| Timestamps.EarlyDateIsClamped | Project/Pods/Realm/include/RLMUtil.hpp:154-155 | a case: a representable timestamp whose date is clamped on the way back |
| Observation.Info.ForEach | Project/Pods/Realm/include/RLMObservation.hpp:115-130 | from any node of a chain the walk ends, having called the previous nodes outwards and then the node and those after it |
| Observation.NodesDistinct | Project/Pods/Realm/include/RLMObservation.hpp:93-94 | a well-formed chain holds no node twice, so one call per position is one call per node |
| Observation.CallOrder | Project/Pods/Realm/include/RLMObservation.hpp:122-129 | which observer the i-th call goes to |
| Observation.EachExactlyOnce | Project/Pods/Realm/include/RLMObservation.hpp:115-130 | every observer of the chain is called exactly once, wherever the walk starts |

## Left out

- Effects.CreateEffect: stated outside migrations and for trees whose targets do not repeat; with a repeated key a later part of the tree overwrites an earlier one. What a migration may do besides is FlatWrites.DuplicateIsAdded.
- Effects.LocateEffect: outside migrations, like every statement about targets; with duplicate keys a key no longer names a row.
- Effects.PopulateEffect: outside migrations, for the same reason.
- Effects.SetPropertyEffect: outside migrations, for the same reason.
- FlatWrites.DuplicateIsAdded: for values that create no object; while keys may repeat, a key in a nested tree names no one row.
- Acceptance.FaultsDecide: outside migrations, for trees that repeat no key and reach no keyless row twice, and in which the managed objects and lists exist; a migration is covered for values that create no object, by FlatWrites.DuplicateIsAdded.
- Guards.SetterWrites: the same; Guards.SetterWritesFlat has neither restriction.
- BatchAnswers.SetAllDecides: the same, and for collections that the writes leave in place; BatchAnswers.ShrinkingBatch is a case of what happens otherwise.
- Interrupted.CreateStops: for trees whose values create no object; of nested trees that throw the frame in Effects.CreateEffect, Interrupted.NestedStays and Interrupted.AddedRowStays are stated.
- FlatLogs.FlatCreate: for trees whose values create no object; what the logs of other trees keep is Soundness.CreateSound and Runs.WritesAreBracketed.
- Refinement.DiffRefinesFull: stated where linked classes have primary keys; without them the diff form reuses the current row and the full form adds one, by design.
- Batches.SetAllCovers: outside migrations, and for trees that name no object of the collection; one that does may overwrite what the batch has written, unless it gives no value for the column.
- Timestamps.RoundTrip: exact arithmetic; rounding of doubles and NaN dates are not modelled.
- Schemas.DefaultOk: defaults that are themselves objects to be created; a default may be null, a scalar, a managed object or a list of these.
- Accessors.Realm.SetUnique: the merging of rows for a key that another row holds; the core does it out of sight and `create` never asks for it.
- Accessors.Realm.UnboxRow: managed objects of another class or with an index out of range are rejected here; the reference context answers their row and leaves the check to the core.
- The width of integers: the engine only stores and compares them.
- Lists given by another managed list: only assigning a list to itself is modelled, anything that is not an array throws as in the reference context.
- The synchronisation branches of `create`, partial realms, and `get_for_primary_key` on a missing table.
- Realm transactions, notifiers, schemas and migrations beyond the flag that a migration is running.
- The mutators of `IndexSet` and the cached counts of its chunks: they are only declared in the headers.
- Observer callbacks that change the chain, object lifetimes and threads.
- The user interface, networking and database wrappers of the repository: declarations without bodies.
