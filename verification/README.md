# tqos-dynamic-agenda in Dafny

A model of the two tuple-space engines of `tqos-dynamic-agenda`, with proofs.

**SemiSpace** (`org.semispace`) is a tuple space of leased tuples. Its parts:

- A tuple (`Tuple`) is a property map. The map mirrors the tuple's id and tag and may carry a priority and the list of agents that have read it.
- The registry (`TupleCollection`) files the tuples in one bucket (`TupleCollectionById`) per tag. It hands out ids from a global sequence and now and then prunes empty buckets.
- `SemiSpace` writes tuples under a lease. Reads and takes scan a bucket first-fit with a template, and the scan evicts expired tuples on its way. Reading or taking waits in a loop until a deadline. The class also renews and cancels leases, harvests whatever has expired, and keeps statistics counters.

**The dynamic agenda** (`org.topicquests.tuplespace`) has named channels. Each channel (`TupleSpaceImpl`) is a `TreeSet` of tuples (`TupleImpl`) in priority order, highest first. The other parts:

- A template (`TemplateImpl`) compiles its fields into a tree of logic elements (`LogicElementImpl`). A stored tuple matches the template when that tree holds of it.
- `addValue` raises the priority of the first matching tuple. `decayAll` shifts every priority in every channel.
- `ConstraintImpl`, `ConstraintFactory` and `SortedList` are small helpers.

Modules, one file each:

| file | module | models |
|---|---|---|
| `values.dfy` | `Values` | property maps (`Fields`), their values (a Java `Long` and a Java `Integer` kept apart), Java exceptions as `Result`/`Outcome`, shared map objects (`FieldMap`), Java `int` wrap-around |
| `semi_tuple.dfy` | `SemiTuple` | `Tuple`: the stored value `Entry`, and the Java object with its setters |
| `semi_bucket.dfy` | `SemiBucket` | one tag's bucket: its value `Bucket` and the class `TupleCollectionById` |
| `semi_store.dfy` | `SemiStore` | the registry: its value `Store`, its operations as functions, the class `TupleCollection` |
| `semi_match.dfy` | `SemiMatch` | `hasSubSet` as `Match`, and the first-fit, evicting bucket scan as `Scan` |
| `semi_scan.dfy` | `SemiScan` | statistics, the registry after one scan, the timeout loop as a function of the clock readings |
| `semi_space.dfy` | `Space` | the class `SemiSpace` |
| `agenda_logic.dfy` | `AgendaLogic` | the logic-element tree, its interpreter `Eval`, the class `LogicElement` |
| `agenda_constraint.dfy` | `AgendaConstraint` | `ConstraintImpl` and the recycling pool of `ConstraintFactory` |
| `agenda_tuple.dfy` | `AgendaTuple` | the value `TupleData`, the classes `TupleImpl` and `TemplateImpl`, ordering, `toString`, compiled templates |
| `agenda_space.dfy` | `AgendaSpace` | a channel's sorted set and the class `TupleSpace` |
| `agenda.dfy` | `Agenda` | `addValue`, `decayAll` and the class `DynamicAgenda` |
| `agenda_scenario.dfy` | `AgendaScenario` | the scenario of `ThirdTest` |
| `sorted_list.dfy` | `SortedLists` | `SortedList` |

A Java object whose fields change in place is a Dafny `class`. Its methods are proved against pure functions that describe the new state. A stored tuple is a value: an `Entry` in SemiSpace, a `TupleData` in the agenda. The registry and each channel hold such values.

An exception is an `Err` or `Fail` value naming the exception's class. The model covers these exceptions:
- usage, object and internal exceptions;
- `ClassCastException`;
- `NullPointerException`;
- the agenda's missing-match `RuntimeException`;
- `IndexOutOfBoundsException`;
- `ConcurrentModificationException`.

Inputs the model takes as parameters:
- **Clock.** SemiSpace's clock (`admin.calculateTime()`) is a parameter: one reading `now` per scan, and for the timeout loop a trace `clock` of readings that never go back and that reaches the deadline.
- **Iteration order.** The order in which Java iterates a hash map is a parameter, a sequence `keys` that enumerates the map's keys. Within a bucket, the order is kept as a sequence of ids. Overwriting an id keeps its place and removing an id keeps the order of the rest. Adding a new id may rehash the map, so the order after an add is a parameter `ord`: any sequence that lists the new key set once each.
- **Other threads.** What other threads do while `read` waits is a parameter, the set `others` that the second attempt sees.

`TupleSpaceImpl` does not declare the `internalRemove` that `DynamicAgenda` calls (`DynamicAgenda.java:90`, `:104`). The model takes it to be `TreeSet.remove`: it removes the stored tuple that compares equal.

Where the code and its comments disagree, the model follows the code. For example, NOT in `LogicElementImpl` is not a negation, and `compile` keeps no tree. Three places where the code is evidently not what was intended are listed under "## Findings". Each has both an as-written model and a corrected one.

## Model

| member | source | states |
|---|---|---|
| `SemiTuple.IdOf` | src/java/org/semispace/Tuple.java:64-72 | `getId`: the id field unless it is -1; then the map's `id` entry, -1 when that is null, a cast failure for anything else, an `Integer` included |
| `SemiTuple.Stamped` | src/java/org/semispace/Tuple.java:79-85 | after `setId` and `setTag` the map holds the id and the tag, and every other entry is unchanged |
| `SemiTuple.WithAgentName` | src/java/org/semispace/Tuple.java:159-169 | `addAgentName` on a map: succeeds exactly when the entry is null or a list; the name is appended to the list (duplicates and null included); nothing else changes |
| `SemiTuple.PriorityOf` | src/java/org/semispace/Tuple.java:154-157 | `getPriority`: the `Long`, null when absent, a cast failure for any other value, an `Integer` included |
| `SemiTuple.PriorityRoundTrip` | src/java/org/semispace/Tuple.java:148-157 | reading back a priority that was set gives it back, null included |
| `SemiTuple.Tuple.WithLease` | src/java/org/semispace/Tuple.java:79-85 | the tuple shares the caller's map, which is stamped with id and tag |
| `SemiTuple.Tuple.Create` | src/java/org/semispace/Tuple.java:87-91 | a fresh map holding just the id and the tag; lease never ends |
| `SemiTuple.Tuple.WithProps` | src/java/org/semispace/Tuple.java:93-97 | the caller's map, stamped with id and tag; lease never ends |
| `SemiTuple.Tuple.SetId` | src/java/org/semispace/Tuple.java:74-77 | the field and the map entry both change, and `getId` then answers the new id |
| `SemiTuple.Tuple.SetTag` | src/java/org/semispace/Tuple.java:127-131 | the field and the map's `tag` entry change, nothing else |
| `SemiTuple.Tuple.Set` | src/java/org/semispace/Tuple.java:133-138 | one map entry is stored and reads back |
| `SemiTuple.Tuple.SetPriority` | src/java/org/semispace/Tuple.java:148-151 | the priority entry is stored and `getPriority` reads it back |
| `SemiTuple.Tuple.SetLiveUntil` | src/java/org/semispace/Tuple.java:123-125 | only the lease expiry changes |
| `SemiTuple.Tuple.AddAgentName` | src/java/org/semispace/Tuple.java:159-169 | the map becomes `WithAgentName` of the old map, or the call fails its cast and the map is untouched |
| `SemiTuple.Tuple.Snapshot` | src/java/org/semispace/Tuple.java:58-62 | the stored value carries the key, the tag and the lease of the object |
| `SemiTuple.ConstructedMirrors` | src/java/org/semispace/Tuple.java:79-97 | after every constructor `getId` answers the id and the map's tag entry is the tag |
| `SemiBucket.Listing` | src/java/org/semispace/TupleCollectionById.java:85-95 | the iterator yields every stored tuple exactly once, and nothing else |
| `SemiBucket.RemovedEffect` | src/java/org/semispace/TupleCollectionById.java:57-60 | removal keeps the bucket valid, drops exactly the id, and shrinks the bucket by one exactly when the id was present |
| `SemiBucket.AddedEffect` | src/java/org/semispace/TupleCollectionById.java:70-79 | adding keeps the bucket valid and files the tuple under its id; the bucket grows only for a new id; the order after a new id is `ord` whenever `ord` lists the new keys |
| `SemiBucket.TupleCollectionById.constructor` | src/java/org/semispace/TupleCollectionById.java:44-45 | an empty bucket that nobody waits on |
| `SemiBucket.TupleCollectionById.Size` | src/java/org/semispace/TupleCollectionById.java:47-49 | the number of distinct ids stored |
| `SemiBucket.TupleCollectionById.CreateNewCollection` | src/java/org/semispace/TupleCollectionById.java:51-55 | a fresh bucket holding exactly the holder; fails only when the holder's id fails its cast |
| `SemiBucket.TupleCollectionById.RemoveHolderById` | src/java/org/semispace/TupleCollectionById.java:57-60 | returns what `findById` would have found, which is then gone; the size drops by one exactly when it was found |
| `SemiBucket.TupleCollectionById.FindById` | src/java/org/semispace/TupleCollectionById.java:65-68 | found exactly when stored under that id, and the tuple found has that id |
| `SemiBucket.TupleCollectionById.AddHolder` | src/java/org/semispace/TupleCollectionById.java:70-79 | a duplicate id overwrites the old tuple in its place and then raises the internal exception; a new id is added, and the iteration order becomes the given `ord` |
| `SemiBucket.TupleCollectionById.ToArray` | src/java/org/semispace/TupleCollectionById.java:81-83 | exactly the stored tuples, in the bucket's iteration order (the `ord` of the last add, kept by overwrites and removals) |
| `SemiBucket.TupleCollectionById.WaitHolder` | src/java/org/semispace/TupleCollectionById.java:97-109 | waits exactly when the bucket is empty, and the waiting flag is clear afterwards |
| `SemiStore.PruneKeepsTuples` | src/java/org/semispace/TupleCollection.java:97-108 | pruning loses no tuple; only empty buckets that nobody waits on go |
| `SemiStore.RemoveByIdEffect` | src/java/org/semispace/TupleCollection.java:73-91 | removal takes out exactly the one tuple asked for, even when pruning runs; the size drops by one exactly when the tuple was there |
| `SemiStore.RemoveByIdWellFormed` | src/java/org/semispace/TupleCollection.java:73-91 | removal keeps every bucket valid and holding only tuples of its own tag |
| `SemiStore.RemoveAllEffect` | src/java/org/semispace/SemiSpace.java:401-408 | cancelling a list of distinct stored ids removes exactly those ids and shrinks the registry by their number |
| `SemiStore.TupleCollection.constructor` | src/java/org/semispace/TupleCollection.java:56-58 | no buckets, and the sequence at 0 |
| `SemiStore.TupleCollection.Next` | src/java/org/semispace/TupleCollection.java:64-71 | the bucket of the tag, null exactly when the tag has none |
| `SemiStore.TupleCollection.RemoveHolderById` | src/java/org/semispace/TupleCollection.java:73-91 | returns the tuple stored under that tag and id, and leaves the registry that `RemoveById` describes |
| `SemiStore.TupleCollection.RemoveEmptyHeads` | src/java/org/semispace/TupleCollection.java:97-108 | the registry becomes its pruned version |
| `SemiStore.TupleCollection.EmptyHeads` | src/java/org/semispace/TupleCollection.java:98-104 | collects exactly the tags whose bucket is empty and unwaited |
| `SemiStore.TupleCollection.FindById` | src/java/org/semispace/TupleCollection.java:110-122 | found exactly when the tag's bucket holds that id; the tuple carries the id and the tag |
| `SemiStore.TupleCollection.AddHolder` | src/java/org/semispace/TupleCollection.java:127-146 | null raises the usage exception and a null tag the object exception; otherwise the tuple is filed in its tag's bucket, which is created when new |
| `SemiStore.TupleCollection.AddNew` | src/java/org/semispace/TupleCollection.java:227-238 | the sequence always advances; the map's own `Long` id wins over the sequence; any other non-null id, an `Integer` included, fails its cast; the map is stamped and the tuple filed, with every error path stated |
| `SemiStore.TupleCollection.IncrementReturnNextId` | src/java/org/semispace/TupleCollection.java:240-242 | each call returns the next value of the sequence |
| `SemiStore.TupleCollection.Size` | src/java/org/semispace/TupleCollection.java:151-167 | the total number of stored tuples |
| `SemiStore.TupleCollection.RetrieveGroupNames` | src/java/org/semispace/TupleCollection.java:169-178 | every tag exactly once |
| `SemiStore.TupleCollection.ReadHolderWithId` | src/java/org/semispace/TupleCollection.java:180-190 | a tuple with that id from some bucket; null exactly when no bucket holds the id |
| `SemiStore.TupleCollection.FindAllHolderIds` | src/java/org/semispace/TupleCollection.java:197-213 | one id per stored tuple; every stored id is listed, and only stored ids |
| `SemiStore.TupleCollection.AppendIds` | src/java/org/semispace/TupleCollection.java:204-206 | appends one id per tuple of the array, in order |
| `SemiStore.TupleCollection.Update` | src/java/org/semispace/SemiSpace.java:515-516 | a stored tuple changed in place (agent stamp, renewed lease) is seen by the registry |
| `SemiStore.TupleCollection.WaitHolder` | src/java/org/semispace/TupleCollection.java:244-257 | the tag gets a bucket (created empty when needed), which is then waited on |
| `SemiStore.WaitedKeepsTuples` | src/java/org/semispace/TupleCollection.java:244-257 | waiting loses no tuple, leaves the tag with a bucket, and touches no other tag |
| `SemiStore.WaitedEffect` | src/java/org/semispace/TupleCollection.java:244-257 | waiting keeps the registry well formed and its size unchanged |
| `SemiStore.InsertedEffect` | src/java/org/semispace/TupleCollection.java:127-146 | adding changes only the lookup of that tag and id, which then gives the tuple |
| `SemiStore.InsertedWellFormed` | src/java/org/semispace/TupleCollection.java:127-146 | adding a tuple of the bucket's own tag keeps the registry well formed |
| `SemiStore.InsertedTotal` | src/java/org/semispace/TupleCollection.java:127-146 | a new id grows the registry by one; a known id replaces its tuple |
| `SemiStore.UpdatedEffect` | src/java/org/semispace/SemiSpace.java:515-516 | writing back a stored tuple changes only its own lookup and keeps the size |
| `SemiStore.Listed` | src/java/org/semispace/SemiSpace.java:383-385 | the scan walks exactly the tuples of the tag's bucket, each id once |
| `SemiMatch.AgentOf` | src/java/org/semispace/SemiSpace.java:479 | the template's agent name cast to String: a string, null, or a cast failure |
| `SemiMatch.SeenBy` | src/java/org/semispace/SemiSpace.java:483-494 | the tuple records the agent exactly when its entry is an equal string or a list that contains the name |
| `SemiMatch.Normal` | src/java/org/semispace/SemiSpace.java:471-506 | the template after a call: `id` gone for good, `agentName` back only if it was a string, all else kept |
| `SemiMatch.MatchSeenFails` | src/java/org/semispace/SemiSpace.java:483-499 | a read by an agent the tuple already records is refused before any field is compared |
| `SemiMatch.MatchVerdict` | src/java/org/semispace/SemiSpace.java:500-503 | without an exception, a match means: not already seen, and every other template entry is in the tuple with an equal value (a `Long` never equals an `Integer`) |
| `SemiMatch.MatchErrors` | src/java/org/semispace/SemiSpace.java:479-516 | exactly three cast failures are possible, and an exception leaves the tuple untouched |
| `SemiMatch.MatchStamps` | src/java/org/semispace/SemiSpace.java:508-517 | a match appends the agent name (null too, takes too) and changes no other entry; no other outcome touches the tuple |
| `SemiMatch.MatchTemplate` | src/java/org/semispace/SemiSpace.java:471-506 | every call loses `id`; after a successful cast the template is `Normal(template)` |
| `SemiMatch.MatchNormal` | src/java/org/semispace/SemiSpace.java:504-506 | matching against the template a call leaves behind is matching against the original, so the next loop iteration is unaffected |
| `SemiMatch.MatchesAgree` | src/java/org/semispace/SemiSpace.java:386-398 | the same holds for every tuple the scan goes on to compare |
| `SemiMatch.ExpiredIds` | src/java/org/semispace/SemiSpace.java:391-394 | exactly the ids of the expired tuples |
| `SemiMatch.ExpiredIdsDistinct` | src/java/org/semispace/SemiSpace.java:391-394 | with distinct ids in the bucket, the eviction list has no duplicates |
| `SemiMatch.ScanMisses` | src/java/org/semispace/SemiSpace.java:384-399 | a scan that finds nothing evicts every expired tuple and no live tuple matched; an exception evicts nothing |
| `SemiMatch.ScanFinds` | src/java/org/semispace/SemiSpace.java:384-399 | a scan that finds a tuple finds the first live match, stamped, and evicts exactly the expired tuples before it |
| `SemiMatch.ScanEvictsListed` | src/java/org/semispace/SemiSpace.java:384-399 | the evicted ids are distinct ids of the bucket, and never the found tuple's |
| `SemiMatch.ScanKeepsTag` | src/java/org/semispace/SemiSpace.java:330-359 | a scan never changes the template's tag, so reading it once before the loop is sound |
| `SemiScan.Counted` | src/java/org/semispace/SemiSpace.java:425-437 | a completed scan adds one to exactly one of read, take, missed read and missed take |
| `SemiScan.ScanFoundStored` | src/java/org/semispace/SemiSpace.java:395-398 | the found tuple is stored in the bucket under its id, and is not on the eviction list |
| `SemiScan.ScanEvictsStored` | src/java/org/semispace/SemiSpace.java:401-408 | every eviction names a distinct stored tuple |
| `SemiScan.ScanStoreMissed` | src/java/org/semispace/SemiSpace.java:384-441 | a scan that finds nothing removes exactly the expired tuples it passed |
| `SemiScan.FoundWrittenBack` | src/java/org/semispace/SemiSpace.java:395-408 | the stamped tuple is written back and the expired ones before it are removed; the registry shrinks by the evictions |
| `SemiScan.ScanStoreFound` | src/java/org/semispace/SemiSpace.java:401-418 | and on a take the found tuple is removed too |
| `SemiScan.ScanStoreKeeps` | src/java/org/semispace/SemiSpace.java:372-442 | a scan keeps the registry well formed and never adds a tuple |
| `SemiScan.Attempt` | src/java/org/semispace/SemiSpace.java:337-358 | one attempt scans at its clock reading, keeps the registry well formed and never grows it, and an exception leaves it as it was |
| `SemiScan.Attempts` | src/java/org/semispace/SemiSpace.java:337-359 | the loop keeps the registry well formed and never makes it grow |
| `SemiScan.AttemptsEnd` | src/java/org/semispace/SemiSpace.java:347-359 | the loop stops at the first tuple found, the first exception, or the first reading at the deadline, and at no earlier attempt |
| `SemiScan.AttemptsStats` | src/java/org/semispace/SemiSpace.java:339-354 | every attempt is counted once, and its blocking gauge is restored unless the attempt threw |
| `SemiScan.AfterAttempt` | src/java/org/semispace/SemiSpace.java:339-354 | an attempt raises the gauge; unless it throws, it counts one outcome and lowers the gauge again |
| `SemiScan.AttemptsOnce` | src/java/org/semispace/SemiSpace.java:326-359 | with a timeout of zero or less the loop makes exactly one attempt and never waits |
| `Space.SemiSpace.constructor` | src/java/org/semispace/SemiSpace.java:108-118 | an empty registry, no listeners, zeroed counters |
| `Space.SemiSpace.HasSubSet` | src/java/org/semispace/SemiSpace.java:467-519 | the verdict, the stamped tuple and the template left behind are those of `Match` |
| `Space.SemiSpace.FindLeaseForTemplate` | src/java/org/semispace/SemiSpace.java:372-442 | a null tag raises the object exception and a non-string tag a cast failure, both changing nothing; otherwise the result is that of `Scan`, the registry becomes `ScanStore` and one outcome is counted |
| `Space.SemiSpace.FindOrWaitLeaseForTemplate` | src/java/org/semispace/SemiSpace.java:330-361 | result, registry, template and counters are those of the timeout loop `Lease` at the given clock readings |
| `Space.SemiSpace.ScanBucket` | src/java/org/semispace/SemiSpace.java:383-399 | the bucket's scan, with the found tuple written back stamped |
| `Space.SemiSpace.ScanListing` | src/java/org/semispace/SemiSpace.java:385-398 | the iterator loop computes `Scan` |
| `Space.SemiSpace.EvictAll` | src/java/org/semispace/SemiSpace.java:401-408 | the eviction loop cancels the listed ids in order |
| `Space.SemiSpace.CancelElement` | src/java/org/semispace/SemiSpace.java:958-980 | true exactly when the tuple was stored; it is then removed |
| `Space.SemiSpace.Read` | src/java/org/semispace/SemiSpace.java:307-321 | a null template reads nothing; otherwise the timeout loop, as a read |
| `Space.SemiSpace.Take` | src/java/org/semispace/SemiSpace.java:523-532 | the same, as a take |
| `Space.SemiSpace.ReadIfExists` | src/java/org/semispace/SemiSpace.java:364-366 | a read with timeout 0 |
| `Space.SemiSpace.TakeIfExists` | src/java/org/semispace/SemiSpace.java:535-537 | a take with timeout 0 |
| `Space.SemiSpace.WriteToElements` | src/java/org/semispace/SemiSpace.java:263-285 | a tuple with lease `now + leaseTimeMs` is filed and the write counted; every failure path is stated (null map, an id that is not a `Long`, null tag, duplicate id) |
| `Space.SemiSpace.RenewElement` | src/java/org/semispace/SemiSpace.java:985-996 | true exactly when the tuple is stored, whose lease then ends at `now + duration` |
| `Space.SemiSpace.CancelListener` | src/java/org/semispace/SemiSpace.java:931-941 | true exactly when the listener was registered; it is removed and counted out |
| `Space.SemiSpace.RenewListener` | src/java/org/semispace/SemiSpace.java:943-953 | true exactly when the listener is registered; its lease then ends at `now + duration` |
| `Space.SemiSpace.NumberOfSpaceElements` | src/java/org/semispace/SemiSpace.java:874-878 | the number of stored tuples |
| `Space.SemiSpace.Harvest` | src/java/org/semispace/SemiSpace.java:832-868 | exactly the expired listeners and expired tuples are gone; everything live is untouched; the registry becomes `Harvested`: each bucket keeps its live tuples in their iteration order, and emptied buckets are pruned only when the sequence is at a multiple of 5000 |
| `Space.SemiSpace.GatherExpired` | src/java/org/semispace/SemiSpace.java:842-864 | collects every expired tuple of the listed tags, and only expired stored ones |
| `Space.SemiSpace.CancelExpired` | src/java/org/semispace/SemiSpace.java:865-867 | cancelling them removes every expired tuple and nothing else; the registry is `Cancelled` over the gathered list, which is `Harvested` whatever the order of that list |
| `Space.SemiSpace.HarvestListeners` | src/java/org/semispace/SemiSpace.java:834-839 | keeps exactly the listeners whose lease has not run out, and counts out the others |
| `Space.SemiSpace.ExpiredOf` | src/java/org/semispace/SemiSpace.java:846-850 | exactly the expired tuples of a bucket |
| `Space.CancelledEffect` | src/java/org/semispace/SemiSpace.java:865-867 | cancelling a list of tuples removes exactly the ones it names |
| `Space.CancelledCut` | src/java/org/semispace/TupleCollection.java:69-86 | cancelling stored tuples one by one, in any order, cuts them out of their buckets (the rest keep their order) and prunes empty buckets exactly when the period has come and a removal emptied a bucket |
| `Space.CancelledHarvested` | src/java/org/semispace/SemiSpace.java:832-868 | cancelling exactly the lapsed tuples, in any order, leaves `Harvested` |
| `Space.SettledStep` | src/java/org/semispace/TupleCollection.java:69-86 | one more removal of a stored id keeps the registry cut and settled |
| `AgendaLogic.Eval` | src/java/org/topicquests/tuplespace/impl/LogicElementImpl.java:56-67 | only OR, AND, NOT and EQUALS are interpreted (any other type is false), and the only exception is a null dereference |
| `AgendaLogic.EvalOr` | src/java/org/topicquests/tuplespace/impl/LogicElementImpl.java:74-86 | can only fail with a null dereference |
| `AgendaLogic.EvalAnd` | src/java/org/topicquests/tuplespace/impl/LogicElementImpl.java:92-104 | can only fail with a null dereference |
| `AgendaLogic.EvalNot` | src/java/org/topicquests/tuplespace/impl/LogicElementImpl.java:127-139 | can only fail with a null dereference |
| `AgendaLogic.EvalEquals` | src/java/org/topicquests/tuplespace/impl/LogicElementImpl.java:114-121 | throws exactly when the field name is null or the tuple's value is null; otherwise true exactly when that value equals the literal (a `Long` never equals an `Integer`) |
| `AgendaLogic.AndMeaning` | src/java/org/topicquests/tuplespace/impl/LogicElementImpl.java:92-104 | AND is true exactly when every operand is true; otherwise it is the first operand that is not true |
| `AgendaLogic.OrMeaning` | src/java/org/topicquests/tuplespace/impl/LogicElementImpl.java:74-86 | OR is false exactly when every operand is false; otherwise it is the first operand that is not false |
| `AgendaLogic.NotMeaning` | src/java/org/topicquests/tuplespace/impl/LogicElementImpl.java:127-139 | NOT is true at the first false operand and also when all operands are true; it is false only with no operands |
| `AgendaLogic.LogicElement.constructor` | src/java/org/topicquests/tuplespace/impl/LogicElementImpl.java:24-38 | untyped, no operands, null literal and field name |
| `AgendaLogic.LogicElement.IsOrType` | src/java/org/topicquests/tuplespace/impl/LogicElementImpl.java:42 | only the type changes |
| `AgendaLogic.LogicElement.IsAndType` | src/java/org/topicquests/tuplespace/impl/LogicElementImpl.java:43 | only the type changes |
| `AgendaLogic.LogicElement.IsNotType` | src/java/org/topicquests/tuplespace/impl/LogicElementImpl.java:44 | only the type changes |
| `AgendaLogic.LogicElement.IsEqualsType` | src/java/org/topicquests/tuplespace/impl/LogicElementImpl.java:45 | only the type changes |
| `AgendaLogic.LogicElement.IsLiteralType` | src/java/org/topicquests/tuplespace/impl/LogicElementImpl.java:46 | only the type changes |
| `AgendaLogic.LogicElement.IsFetchType` | src/java/org/topicquests/tuplespace/impl/LogicElementImpl.java:47 | only the type changes |
| `AgendaLogic.LogicElement.Evaluate` | src/java/org/topicquests/tuplespace/impl/LogicElementImpl.java:56-67 | the element's verdict, with its meaning stated per type |
| `AgendaLogic.LogicElement.AddElement` | src/java/org/topicquests/tuplespace/impl/LogicElementImpl.java:147-149 | one operand appended |
| `AgendaLogic.LogicElement.ClearElements` | src/java/org/topicquests/tuplespace/impl/LogicElementImpl.java:154-157 | operands and literal dropped; type and field name kept |
| `AgendaLogic.LogicElement.SetLiteral` | src/java/org/topicquests/tuplespace/impl/LogicElementImpl.java:162-164 | the literal is stored and reads back |
| `AgendaLogic.LogicElement.IsLiteral` | src/java/org/topicquests/tuplespace/impl/LogicElementImpl.java:176 | true exactly for the LITERAL type |
| `AgendaLogic.LogicElement.SetFieldName` | src/java/org/topicquests/tuplespace/impl/LogicElementImpl.java:181-183 | the field name is stored and reads back |
| `AgendaConstraint.ConstraintImpl.constructor` | src/java/org/topicquests/tuplespace/impl/ConstraintImpl.java:24-30 | an empty sentence and no tree |
| `AgendaConstraint.ConstraintImpl.Eval` | src/java/org/topicquests/tuplespace/impl/ConstraintImpl.java:37-43 | false while no tree is set; otherwise it can only fail with a null dereference |
| `AgendaConstraint.ConstraintImpl.ClearConstraints` | src/java/org/topicquests/tuplespace/impl/ConstraintImpl.java:46-49 | afterwards the constraint rejects every tuple |
| `AgendaConstraint.ConstraintImpl.SetConstraints` | src/java/org/topicquests/tuplespace/impl/ConstraintImpl.java:56-59 | the sentence is stored, and the verdict on every tuple stays as it was |
| `AgendaConstraint.ConstraintImpl.CompileSentence` | src/java/org/topicquests/tuplespace/impl/ConstraintImpl.java:72-75 | changes nothing |
| `AgendaConstraint.ConstraintImpl.SetConstraint` | src/java/org/topicquests/tuplespace/impl/ConstraintImpl.java:65-67 | from now on the verdict is the tree's |
| `AgendaConstraint.ConstraintPool.constructor` | src/java/org/topicquests/tuplespace/api/ConstraintFactory.java:20 | an empty pool |
| `AgendaConstraint.ConstraintPool.RecycleConstraint` | src/java/org/topicquests/tuplespace/api/ConstraintFactory.java:40-43 | the constraint is cleared (rejecting every tuple) and pushed on top |
| `AgendaTuple.SetOvercounts` | src/java/org/topicquests/tuplespace/impl/TupleImpl.java:221-226 | overwriting a field keeps the keys but still adds one to `numFields()`; the map part is idempotent |
| `AgendaTuple.Match` | src/java/org/topicquests/tuplespace/impl/TupleImpl.java:240-249 | with no constraint the answer is false, or a cast failure while printing the tuple; with a constraint it can only fail with a null dereference |
| `AgendaTuple.CompareToAsWritten` | src/java/org/topicquests/tuplespace/impl/TupleImpl.java:302-307 | the 32-bit result; it is the true difference whenever the difference fits |
| `AgendaTuple.CompareToOverflows` | src/java/org/topicquests/tuplespace/impl/TupleImpl.java:302-307 | priorities 2147483647 and -1 each compare below the other |
| `AgendaTuple.Compare` | src/java/org/topicquests/tuplespace/impl/TupleImpl.java:302-307 | negative, zero or positive exactly when this priority is higher, equal or lower |
| `AgendaTuple.CompareIsOrder` | src/java/org/topicquests/tuplespace/impl/TupleImpl.java:302-307 | the intended comparison is antisymmetric and transitive |
| `AgendaTuple.CompareToAgrees` | src/java/org/topicquests/tuplespace/impl/TupleImpl.java:302-307 | wherever the subtraction does not wrap, the code agrees with the intended order |
| `AgendaTuple.Decimal` | src/java/org/topicquests/tuplespace/impl/TupleImpl.java:298 | `Integer.toString` of a non-negative priority: non-empty decimal digits with no leading zero |
| `AgendaTuple.DecimalRoundTrip` | src/java/org/topicquests/tuplespace/impl/TupleImpl.java:297-298 | the printed priority reads back as the priority |
| `AgendaTuple.ValueText` | src/java/org/topicquests/tuplespace/impl/TupleImpl.java:294 | the `(String)` cast fails exactly on values that are neither strings nor null |
| `AgendaTuple.FieldBlocks` | src/java/org/topicquests/tuplespace/impl/TupleImpl.java:287-296 | the field loop fails exactly when some value is not printable, and then with a cast failure; otherwise it writes four lines per key |
| `AgendaTuple.FieldBlocksLayout` | src/java/org/topicquests/tuplespace/impl/TupleImpl.java:287-296 | one four-line `<field>` block per key, in iteration order, holding the key and its printed value |
| `AgendaTuple.HeadLayout` | src/java/org/topicquests/tuplespace/impl/TupleImpl.java:277-286 | the head shows `<id>`, `<space>` and `<do>` exactly when set and with their values, `<group>` always with the tag, `<partialMatch/>` exactly when the flag is set, each at most once and in that order |
| `AgendaTuple.ToXml` | src/java/org/topicquests/tuplespace/impl/TupleImpl.java:276-301 | fails exactly when some field is not printable; otherwise, between `<tuple>` and `</tuple>`, the head lines, the field blocks and the priority element (written only for priorities above -1) |
| `AgendaTuple.TupleImpl.constructor` | src/java/org/topicquests/tuplespace/impl/TupleImpl.java:193-196 | a fresh empty map and the defaults |
| `AgendaTuple.TupleImpl.WithFields` | src/java/org/topicquests/tuplespace/impl/TupleImpl.java:198-201 | shares the caller's map; the counter starts at 0 whatever the map holds |
| `AgendaTuple.TupleImpl.Copy` | src/java/org/topicquests/tuplespace/impl/TupleImpl.java:203-215 | a new tuple over a new map with equal entries, the counter reset to the number of keys, creation time and command dropped |
| `AgendaTuple.TupleImpl.Set` | src/java/org/topicquests/tuplespace/impl/TupleImpl.java:221-226 | the entry is stored in the shared map, reads back, and the counter moves on |
| `AgendaTuple.TupleImpl.Matches` | src/java/org/topicquests/tuplespace/impl/TupleImpl.java:240-249 | an uncompiled template matches nothing |
| `AgendaTuple.TupleImpl.SetPriority` | src/java/org/topicquests/tuplespace/impl/TupleImpl.java:254-256 | only the priority changes, and it reads back |
| `AgendaTuple.TupleImpl.SetTag` | src/java/org/topicquests/tuplespace/impl/TupleImpl.java:261-263 | only the tag changes |
| `AgendaTuple.TupleImpl.SetRequestId` | src/java/org/topicquests/tuplespace/impl/TupleImpl.java:185-187 | only the request id changes |
| `AgendaTuple.TupleImpl.CompareTo` | src/java/org/topicquests/tuplespace/impl/TupleImpl.java:302-307 | negative exactly for a higher priority, wherever the subtraction does not wrap |
| `AgendaTuple.TupleImpl.ToString` | src/java/org/topicquests/tuplespace/impl/TupleImpl.java:276-301 | fails exactly when a field is not printable; otherwise the tuple's head lines, one field block per key and the priority line, between `<tuple>` and `</tuple>` |
| `AgendaTuple.Compiled` | src/java/org/topicquests/tuplespace/impl/TemplateImpl.java:37-56 | an AND root with one EQUALS operand per template key, in iteration order, naming the key and holding its value |
| `AgendaTuple.EqualsOperands` | src/java/org/topicquests/tuplespace/impl/TemplateImpl.java:44-53 | one EQUALS element per key |
| `AgendaTuple.CompiledMeaning` | src/java/org/topicquests/tuplespace/impl/TemplateImpl.java:37-56 | the tree holds exactly when every template field is present, non-null and equal in the tuple; it throws only when a template field is missing or null in the tuple; whatever the key order, it is `containsAll` when every field is readable |
| `AgendaTuple.TemplateImpl.constructor` | src/java/org/topicquests/tuplespace/impl/TemplateImpl.java:22-24 | tag "template", a fresh empty map, no constraint |
| `AgendaTuple.TemplateImpl.WithFields` | src/java/org/topicquests/tuplespace/impl/TemplateImpl.java:26-28 | the caller's map, no constraint |
| `AgendaTuple.TemplateImpl.Compile` | src/java/org/topicquests/tuplespace/impl/TemplateImpl.java:37-56 | as written: the tree is built and then dropped, and the constraint stays what it was |
| `AgendaTuple.TemplateImpl.CompileStored` | src/java/org/topicquests/tuplespace/impl/TemplateImpl.java:37-56 | as intended: the tree becomes the constraint |
| `AgendaTuple.TemplateImpl.SetRequestId` | src/java/org/topicquests/tuplespace/impl/TupleImpl.java:185-187 | only the request id changes |
| `AgendaTuple.UncompiledMatchesNothing` | src/java/org/topicquests/tuplespace/impl/TupleImpl.java:240-249 | a template without a constraint matches no tuple at all |
| `AgendaSpace.AddedEffect` | src/java/org/topicquests/tuplespace/impl/TupleSpaceImpl.java:142-154 | `TreeSet.add` keeps the set sorted; a tuple whose priority is taken is not added; any other tuple is added exactly once |
| `AgendaSpace.RemovedEffect` | src/java/org/topicquests/tuplespace/DynamicAgenda.java:104 | removal drops the tuple of that priority, if stored, keeps the rest and keeps the order |
| `AgendaSpace.Inspect` | src/java/org/topicquests/tuplespace/impl/TupleSpaceImpl.java:235-238 | printing tuple and template fails on a non-string field; otherwise the verdict is `matches` |
| `AgendaSpace.FindFrom` | src/java/org/topicquests/tuplespace/impl/TupleSpaceImpl.java:232-245 | the first match in order, null exactly when none matches, or the first exception before a match |
| `AgendaSpace.MatchAttempt` | src/java/org/topicquests/tuplespace/impl/TupleSpaceImpl.java:229-250 | a copy of the first match, carrying the request id; the original is removed or stamped; null or an exception leaves the set unchanged; order and printability kept |
| `AgendaSpace.ReadAttempt` | src/java/org/topicquests/tuplespace/impl/TupleSpaceImpl.java:181-201 | the first attempt's answer unless it is null; then exactly one more attempt, on what other threads left |
| `AgendaSpace.StampedUpTo` | src/java/org/topicquests/tuplespace/impl/TupleSpaceImpl.java:256-264 | the matches are marked with the request id, and nothing else changes |
| `AgendaSpace.Gathered` | src/java/org/topicquests/tuplespace/impl/TupleSpaceImpl.java:251-268 | fails exactly when some evaluation throws; otherwise copies of exactly the matches, in order |
| `AgendaSpace.TupleSpace.constructor` | src/java/org/topicquests/tuplespace/impl/TupleSpaceImpl.java:116-119 | an empty set under the name |
| `AgendaSpace.TupleSpace.Tuples` | src/java/org/topicquests/tuplespace/impl/TupleSpaceImpl.java:124-127 | the stored tuples in iteration order |
| `AgendaSpace.TupleSpace.Insert` | src/java/org/topicquests/tuplespace/impl/TupleSpaceImpl.java:142-154 | a tuple that does not print fails its cast and changes nothing; otherwise the set becomes `Added`, sorted |
| `AgendaSpace.TupleSpace.InternalRemove` | src/java/org/topicquests/tuplespace/DynamicAgenda.java:90 | true exactly when a tuple of that priority was stored; it is removed |
| `AgendaSpace.TupleSpace.GetMatch` | src/java/org/topicquests/tuplespace/impl/TupleSpaceImpl.java:229-250 | the loop computes `MatchAttempt` |
| `AgendaSpace.TupleSpace.GetMatches` | src/java/org/topicquests/tuplespace/impl/TupleSpaceImpl.java:251-268 | the loop computes `Gathered`; marks made before an exception stay |
| `AgendaSpace.TupleSpace.Collect` | src/java/org/topicquests/tuplespace/impl/TupleSpaceImpl.java:207-211 | the result of `getMatches`, and the marks it leaves, with or without an exception |
| `AgendaSpace.TupleSpace.NoWaitRead` | src/java/org/topicquests/tuplespace/impl/TupleSpaceImpl.java:217-222 | one non-destructive attempt |
| `AgendaSpace.TupleSpace.Take` | src/java/org/topicquests/tuplespace/impl/TupleSpaceImpl.java:161-179 | one destructive attempt; the failed wait makes the retry see the same set |
| `AgendaSpace.TupleSpace.Read` | src/java/org/topicquests/tuplespace/impl/TupleSpaceImpl.java:181-201 | `ReadAttempt`: at most two attempts |
| `Agenda.Bumped` | src/java/org/topicquests/tuplespace/DynamicAgenda.java:91-93 | only the priority changes, with 32-bit wrap-around; the exact sum when it fits |
| `Agenda.MovedEffect` | src/java/org/topicquests/tuplespace/DynamicAgenda.java:104-110 | the tuple leaves and its bumped version arrives, unless its new priority is taken, in which case it is lost; the set stays sorted |
| `Agenda.AddValueEffect` | src/java/org/topicquests/tuplespace/DynamicAgenda.java:100-113 | the only failures are cast, null dereference and missing match |
| `Agenda.AddValueMeaning` | src/java/org/topicquests/tuplespace/DynamicAgenda.java:100-113 | moves the first match of the set it read; fails with missing match exactly when neither read finds one (and the template prints); a failure changes nothing; stays sorted |
| `Agenda.DecayFirst` | src/java/org/topicquests/tuplespace/DynamicAgenda.java:87-95 | as written, fails exactly for channels with two or more tuples |
| `Agenda.DecayFirstSkipsTheRest` | src/java/org/topicquests/tuplespace/DynamicAgenda.java:87-95 | as written, only the first tuple moves; every other tuple keeps its old priority |
| `Agenda.DecayAllAsWrittenExample` | src/java/org/topicquests/tuplespace/DynamicAgenda.java:80-97 | channel {30, 20} decayed by 1 fails, leaving 29 and an undecayed 20 |
| `Agenda.DecayedShiftsAll` | src/java/org/topicquests/tuplespace/DynamicAgenda.java:80-97 | as intended (empty the channel, then re-insert every decayed tuple), every tuple moves by `howMuch` and the order is kept; requires that no new priority leaves the `int` range |
| `Agenda.DynamicAgenda.constructor` | src/java/org/topicquests/tuplespace/DynamicAgenda.java:26-28 | no channels |
| `Agenda.DynamicAgenda.CreateChannel` | src/java/org/topicquests/tuplespace/DynamicAgenda.java:31-33 | a fresh empty channel under the name, replacing any there was |
| `Agenda.DynamicAgenda.GetChannel` | src/java/org/topicquests/tuplespace/DynamicAgenda.java:36-38 | the channel of that name; null exactly for an unknown name |
| `Agenda.DynamicAgenda.NewTuple` | src/java/org/topicquests/tuplespace/DynamicAgenda.java:41-43 | a fresh tuple tagged with the channel name |
| `Agenda.DynamicAgenda.NewTupleWith` | src/java/org/topicquests/tuplespace/DynamicAgenda.java:46-48 | a fresh tuple over the caller's map |
| `Agenda.DynamicAgenda.NewTemplate` | src/java/org/topicquests/tuplespace/DynamicAgenda.java:75-77 | an empty template with no constraint |
| `Agenda.DynamicAgenda.Put` | src/java/org/topicquests/tuplespace/DynamicAgenda.java:51-54 | an unknown channel is a null dereference; otherwise `insert` on that channel alone |
| `Agenda.DynamicAgenda.Read` | src/java/org/topicquests/tuplespace/DynamicAgenda.java:57-60 | an unknown channel is a null dereference; otherwise `read` on that channel alone |
| `Agenda.DynamicAgenda.Take` | src/java/org/topicquests/tuplespace/DynamicAgenda.java:63-66 | an unknown channel is a null dereference; otherwise `take` on that channel alone |
| `Agenda.DynamicAgenda.ListTuples` | src/java/org/topicquests/tuplespace/DynamicAgenda.java:69-72 | the channel's tuples, highest priority first; null dereference for an unknown channel |
| `Agenda.DynamicAgenda.AddValue` | src/java/org/topicquests/tuplespace/DynamicAgenda.java:100-113 | the channel becomes `AddValueEffect`; no other channel changes |
| `Agenda.DynamicAgenda.DecayChannelAsWritten` | src/java/org/topicquests/tuplespace/DynamicAgenda.java:87-95 | one channel as written ends as `DecayFirst` says |
| `Agenda.DynamicAgenda.DecayChannelOf` | src/java/org/topicquests/tuplespace/DynamicAgenda.java:87-95 | one pass of the channel loop: the chosen channel ends as `DecayFirst` says and no other channel changes |
| `Agenda.DynamicAgenda.DecayAllAsWritten` | src/java/org/topicquests/tuplespace/DynamicAgenda.java:80-97 | as written, the call throws only if some channel holds two or more tuples; each channel is left either unvisited or as `DecayFirst` says |
| `Agenda.DynamicAgenda.DecayEachAsWritten` | src/java/org/topicquests/tuplespace/DynamicAgenda.java:83-96 | the channel loop stops at the first exception |
| `Agenda.DynamicAgenda.DecayChannel` | src/java/org/topicquests/tuplespace/DynamicAgenda.java:87-95 | as intended, the channel becomes `Decayed` |
| `Agenda.DynamicAgenda.DecayAll` | src/java/org/topicquests/tuplespace/DynamicAgenda.java:80-97 | as intended, every channel becomes `Decayed` |
| `AgendaScenario.PopulatedOrder` | src/test/org/topicquests/tuplespace/test/ThirdTest.java:44-66 | after the three puts the channel reads 30, 20, 10 |
| `AgendaScenario.ThirdTestIntended` | src/test/org/topicquests/tuplespace/test/ThirdTest.java:27-35 | with the tree kept, the 20 tuple moves to 35 and the channel reads 35, 30, 10, as in the recorded output |
| `AgendaScenario.ThirdTestAsWritten` | src/test/org/topicquests/tuplespace/test/ThirdTest.java:33-35 | as written, `addValue` throws the missing-match exception |
| `SortedLists.InsertionPoint` | src/java/org/topicquests/tuplespace/util/SortedList.java:37-44 | the first position whose item the new item compares at most 0 to |
| `SortedLists.InsertedShape` | src/java/org/topicquests/tuplespace/util/SortedList.java:36-46 | `add` inserts exactly the item at the insertion point; the old items keep their order |
| `SortedLists.InsertedMultiset` | src/java/org/topicquests/tuplespace/util/SortedList.java:36-46 | the new contents are the old ones plus the item |
| `SortedLists.InsertedAheadOfEquals` | src/java/org/topicquests/tuplespace/util/SortedList.java:40 | the item goes ahead of every item of equal priority |
| `SortedLists.InsertedSorted` | src/java/org/topicquests/tuplespace/util/SortedList.java:36-46 | `add` keeps the list sorted |
| `SortedLists.SortedList.constructor` | src/java/org/topicquests/tuplespace/util/SortedList.java:17 | an empty list |
| `SortedLists.SortedList.Size` | src/java/org/topicquests/tuplespace/util/SortedList.java:22-24 | the number of items |
| `SortedLists.SortedList.Get` | src/java/org/topicquests/tuplespace/util/SortedList.java:29-31 | the i-th item, or the bounds exception exactly when i is out of range |
| `SortedLists.SortedList.Add` | src/java/org/topicquests/tuplespace/util/SortedList.java:36-46 | the walk and insert give `Inserted`, and the list grows by one |
| `SortedLists.SortedList.Put` | src/java/org/topicquests/tuplespace/util/SortedList.java:48-50 | the same as `add` |

## Left out

- Concurrency: locks, `synchronized`, `notify`/`notifyAll`, the admin thread pool and interrupts. Each operation runs alone. A wait is instantaneous, and what other threads do during it is a parameter (`others`) or is not modelled.
- Aliasing: a tuple the registry or a channel returns is a value, not the stored object itself. Callers that change a returned object therefore do not change the store here. The one in-place change the source relies on, the agent stamp on a found tuple, is written back explicitly (`SemiStore.TupleCollection.Update`).
- The registry holds each tag's bucket as a value. The sharing of a bucket object between the registry and a running iterator is not modelled.
- SemiSpace events: `notify`, `notifyListeners`, `distributeEvent`, event and lease objects, and the admin object. Listener registration (`notify`) is not modelled. Listeners are id and lease pairs that can be cancelled, renewed and harvested.
- `SemiSpace.write` and `writeInternally` only hand `writeToElements` to the thread pool; only `writeToElements` is modelled.
- `SemiSpace.readHolderById` and `findAllHolderIds` are one-line delegations to the registry's `readHolderWithId` and `findAllHolderIds`, which are modelled.
- The statistics getters (`numberOfRead` …) only read counters, which the model keeps in `stats`.
- Reflection and serialisation are not modelled: `getPropertiesForObject`, `processTemplate`, `retrievePropertiesFromObject`, JSON, XML. A template's properties are its `searchMap`.
- The check in `hasSubSet` for a null template is not modelled, because no modelled caller passes one.
- `TupleCollection.toString` and `retrieveContainer` are left out. So is the singleton: the registry is one object per `SemiSpace`.
- `TupleCollectionByPriority`, `SemiSpaceAdmin`, `ScheduledSemiSpaceHarvester` and `ListenerHolder` beyond its id and lease are not part of this model.
- `org/semispace/api/ITupleFields.java` is not part of this model. Its keys are taken to be `id`, `tag`, `priority` and `agentName`.
- Logging and `System.out` output are left out. Where building a log line can throw (the `(String)` casts in `TupleImpl.toString`), that exception is modelled.
- Java `long` ids and leases are unbounded integers. Agenda priorities are Java `int` with explicit wrap-around (`Values.Wrap32`).
- Logic elements hold their operands as values, so an operand changed after it was added does not affect its parent.
- `TemplateImpl` inherits all of `TupleImpl`. The model keeps only its tag, request id, field map and constraint.
- `AgendaTuple.TupleImpl` fields `id`, `created`, `command`, `space` and `allowPartialMatch` are kept but have no setters in the model. Their plain setters and getters are left out.
- `ConstraintFactory.create` is commented out in the source.
- `AgendaSpace.TupleSpace.Read`: requires `waitTime > 0`. With 0, Java's `wait` has no bound. With a negative time, the wait throws, the exception is swallowed and the loop retries until a match appears. A terminating model can state neither.
- `Agenda.DynamicAgenda.Read`: requires `waitTime > 0`, for the same reason, since it hands the time to the channel's `read`.
- `Space.SemiSpace.FindOrWaitLeaseForTemplate`: requires a clock trace that reaches the deadline, so the loop ends. A clock that never reaches it is not modelled.
- `Space.SemiSpace.FindOrWaitLeaseForTemplate`: the wait on the bucket is instantaneous and leaves the registry as it was. A tuple written by another thread during the wait is not modelled, so after a miss only the deadline ends the loop; the same holds for `SemiScan.Attempts` and `SemiScan.Lease`.
- `SemiMatch.Scan`: one clock reading `now` serves the whole scan, and one serves the whole harvest (`Space.SemiSpace.Harvest`). Java reads `admin.calculateTime()` again for every tuple (SemiSpace.java:391, 835, 847), so a tuple whose lease ends during the scan is not modelled.
- `AgendaTuple.TupleImpl.Set`: stores a null value. A tuple made with `new TupleImpl(tag)` keeps its fields in a `ConcurrentHashMap`, whose `put` throws `NullPointerException` on null; only copies, which use a `HashMap`, accept it. The kind of map is not modelled.
- `AgendaSpace.AddedEffect`: a channel's order uses the corrected comparison `AgendaTuple.Compare`, not the wrapping `compareTo`. `AgendaTuple.CompareToAgrees` shows the two agree when no difference of priorities overflows; channels holding priorities whose difference overflows are not modelled.
- `AgendaSpace.TupleSpace.Insert`: uses the corrected comparison, as for `AgendaSpace.AddedEffect`.
- `SortedLists.InsertionPoint`: uses the corrected comparison, as for `AgendaSpace.AddedEffect`.
- `Agenda.DynamicAgenda.AddValue`: the channel name is a string and is never null. In Java, a null name makes `channels.get(null)` on the `ConcurrentHashMap` throw `NullPointerException`, whereas `IDynamicAgenda.addValue`'s comment (api/IDynamicAgenda.java:86-91) says a null name runs on all channels. Neither behaviour is modelled.
- `AgendaLogic.LogicElement.AddElement`: operands are logic elements. Java's `addElement(Object)` accepts any object, and `evalOR` and `evalAND` then throw `ClassCastException` on one that is not an `ILogicElement` (LogicElementImpl.java:80, 98). That exception is not modelled, so `AgendaLogic.Eval` throws only a null dereference.
- `SortedLists.SortedList`: specialised to agenda tuples (`TupleData`); the Java class is generic over any `Comparable`.
- `Space.SemiSpace.FindLeaseForTemplate`: the retry branch after a failed take-cancel is never taken. Nothing can remove the tuple between the scan and the cancel while the operation runs alone.
- `SemiStore.RemoveAllEffect`: states the shrink by the number of ids only when every id is stored and the ids are distinct, which is how the scan calls it.

## Findings

| source | as written | input that shows it | evidently intended | confidence | as-written member | corrected member |
|---|---|---|---|---|---|---|
| src/java/org/topicquests/tuplespace/impl/TemplateImpl.java:37-56 | `compile()` builds the AND tree in a local variable and never stores it, so `getConstraint()` stays null and `matches` is false for every tuple | `ThirdTest`: tuples at 10, 20, 30; a template with fields fieldA=foo, fieldB=bar, fieldC=bah is compiled, then `addValue("TestChannel", tx, 15)` throws "Add Value missing tuple match" | the tree becomes the template's constraint: the 20 tuple is found and moved to 35, and the channel reads 35, 30, 10, as the test's recorded output shows (ThirdTest.java:231-298) | not executed | `AgendaScenario.ThirdTestAsWritten` | `AgendaScenario.ThirdTestIntended` |
| src/java/org/topicquests/tuplespace/impl/TupleImpl.java:302-307 | `compareTo` returns `other - this` in 32-bit arithmetic, which wraps when priorities are far apart | priorities 2147483647 and -1 (the default): each compares below the other, so the `TreeSet` order is not a total order | a descending-priority comparison that is a total order | not executed | `AgendaTuple.CompareToOverflows` | `AgendaTuple.CompareIsOrder` |
| src/java/org/topicquests/tuplespace/DynamicAgenda.java:80-97 | `decayAll` walks each channel with the `TreeSet`'s own fail-fast iterator while removing from and inserting into that set | a channel holding tuples at 30 and 20, `decayAll(-1)`: the 30 tuple moves to 29, then the iterator's next step throws `ConcurrentModificationException`, the 20 tuple is never decayed and later channels are not visited | every tuple of every channel moves by `howMuch`: each channel is emptied, then every decayed tuple is inserted again | not executed | `Agenda.DecayFirstSkipsTheRest` | `Agenda.DecayedShiftsAll` |
