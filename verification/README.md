# Verified models of the fuzzing runtime and its PHP engine

This project models six parts of the repository in Dafny and proves what they are for:

1. **The parallel test scheduler** of `run-tests.php`: a master that batches tests, parks those whose conflict keys are
   taken, and sends batches to workers. `Scheduler` gives the bookkeeping as a transition system over messages,
   `SchedulerSafety` its invariant, `SchedulerRuns` safety and progress over every run, `SchedulerOrder` the order in
   which tests with one key run, `SchedulerPairs` and `SchedulerOvertaking` which pairs of conflict lists keep their
   order, and `MasterProcess` the program that updates the bookkeeping in place.
2. **The thread-safe resource manager** of TSRM: `Tsrm` gives the steps a thread takes while it holds the mutex,
   `TsrmTable` and `TsrmBlocks` what each step keeps true of the table and of every block, `TsrmRuns` every interleaving
   of steps of any number of threads, `TsrmEffects` what each step changes and what it leaves alone, and `TsrmProcess`
   the program over linked entries on the heap.
3. **The bounded-probe hash map** of the coverage extension: `HashTable` relates slots to a finite map, `HashGrowth`
   says what a put does to the slots when the table grows, `HashLoss` shows tables that lose entries,
   `HashInstance` one of them with the program's own hash, `BoundedHashMap` is the mutable table, and `Crc` its
   checksum loop.
4. **Module ordering and startup** of the engine: `ModuleStartup`.
5. **The coverage extension's data**: `Redqueen` and `RedqueenFiles` (the feedback file, written in C and read in
   Python), `CoverageStore` and `CoverageProcess` (trace list, line-table cache, reports), and `Levenshtein`.
6. **The recursive printers and MurmurHash3**: `PrinterText` (a printer without marks), `PrinterProcess` (the printers
   that set and clear marks on shared containers), `PrinterShown` (what the output shows, place by place),
   `PrinterCycles` (when recursion is reported), and `Murmur`.

Where the source updates objects, so does the model: a class with those fields, whose methods are proved against a
function on values, about which the general statements are proved as lemmas.

`dafny verify dfyconfig.toml` checks everything.

## Findings

- **Order under several conflict keys.** The comment at `php-7.4-patched/run-tests.php:1394-1396` says that popping from
  the reversed list preserves the order of tests with a common conflict key. It does not in general. Of two tests in an
  unshuffled list the earlier one is sent first on every run exactly when neither conflicts with "all" and the earlier
  one lists no key but the first key of the later one (`SchedulerOvertaking.OrderKeptExactly`). For two tests that
  share a key K this says that the earlier one lists only K and the later one lists K first
  (`SchedulerOvertaking.SharedKeyOrder`). For every other pair of conflict lists a list of tests and a run are given on
  which the later test is sent first: for instance `A` and then `B, A`, or `A, B` and then `A`, or `A, B` twice.
- **Batch size.** The loop condition at line 1554 is `<=`. A batch is what comes first, in pop order, of the stacked
  tests without an owned key, up to `$batchSize` + 1 of them (`SchedulerOrder.BatchIs`); it exceeds `$batchSize`
  exactly when there are that many (`SchedulerOrder.BatchBounded`).
- **Fast ids.** When the reserved space does not suffice, `ts_allocate_fast_id` answers 0 and yet has used up an id, for
  which no type is recorded. If the id falls into the part of the table of types that startup zeroed, it reads as a type
  without size, constructor and destructor: every run goes on, the threads lack a cell for it until the next id is handed
  out, and then have a block for it (`TsrmRuns.OneCellPerId`, `TsrmRuns.LostIdsGetCells`). The table's invariant survives
  the call exactly when the space suffices or the id falls into that part (`TsrmTable.AllocateFastIdKeeps`). Rounding a
  size up to 16 wraps around for the 15 largest sizes (`TsrmRuns.AlignedSizeCovers`).
- **Failing growth.** A put that finds a slot succeeds without growing, and only then without an allocation
  (`HashGrowth.AtOnceExactly`). Otherwise the table is doubled. With fewer than eight entries one doubling suffices
  (`HashGrowth.FewSucceed`); a put that succeeds with some memory needs an exact amount of it
  (`HashGrowth.MemoryNeeded`). A doubling that fails loses entries exactly when there are any, there was memory for the
  larger table and its size does not overflow (`HashGrowth.LostExactly`). It can fail with any amount of memory. Take a
  table of m slots, m at least 16, and keys whose hash words without the highest bit lie close behind a multiple of 2m:
  eight that hash to slot m - 8 and then seven that hash to the last slot fill the table's last eight and first seven
  slots. Moving them in slot order puts the seven first, where the eighth of the others needs to go, at every size. So a
  ninth key that hashes to slot m - 8 cannot be added, and of the fifteen entries fourteen are gone
  (`HashLoss.FourteenLost`). The program's hash has such keys: `HashInstance.ProgramLoses` gives sixteen of five bytes
  for tables of 8192 slots, which is what `pcov-patched/pcov.c:1010-1016` asks for.
- **Mangled names.** Reading a mangled property name back returns both parts exactly when class and property name are
  not empty and hold no NUL (`PrinterText.UnmangleMangled`). The name of an anonymous class holds a NUL: then the
  property name still reads back, and the class only up to the NUL (`PrinterText.AnonymousClass`).
- **Empty reports.** A coverage report is empty when nothing was traced since the last report or clearing, and also when
  no wanted file is registered; in no other case (`CoverageStore.ReportEmpty`).

## Model

| member | source | states |
|---|---|---|
| SchedulerRuns.ExactlyOnePlace | php-7.4-patched/run-tests.php:1498-1582 | In every reachable state the copies of a test on the stack, parked, sequential, running and finished add up to the copies listed: no test is lost, invented or duplicated. |
| SchedulerRuns.AllTestsRunOnExit | php-7.4-patched/run-tests.php:1498-1582 | When the loop condition fails, the tests finished are exactly the tests listed, as a multiset. |
| SchedulerRuns.ParkedOnOwnedKey | php-7.4-patched/run-tests.php:1530-1570 | A non-empty waiting list for a key means some busy worker runs a test with that key, the parked tests have it, and `testsInProgress` is the number of busy workers. |
| SchedulerRuns.NeverStuck | php-7.4-patched/run-tests.php:1498-1582 | While the loop condition holds, some live worker has a message to send. |
| SchedulerRuns.LastWorkerDismissedLast | php-7.4-patched/run-tests.php:1576-1581 | A reachable state without workers has run every test. |
| SchedulerRuns.HandleUsesPotential | php-7.4-patched/run-tests.php:1527-1582 | Every message reduces the number of tests not yet sent plus live workers. |
| SchedulerRuns.MessagesBounded | php-7.4-patched/run-tests.php:1527-1582 | A run handles at most one `ready` or `tests_finished` message per test and per worker. |
| SchedulerRuns.MutualExclusion | php-7.4-patched/run-tests.php:1530-1570 | On every run two workers never run tests that share a conflict key. |
| SchedulerRuns.OwnershipKept | php-7.4-patched/run-tests.php:1530-1570 | A message from one worker neither takes nor gives up a key another worker owns. |
| SchedulerRuns.AllRunsAlone | php-7.4-patched/run-tests.php:1384-1389 | While a test runs that lists the conflict key "all", its worker is the only one alive. |
| SchedulerRuns.ReachableKeeps | php-7.4-patched/run-tests.php:1498-1582 | The invariant holds in every reachable state, and the tests known are those listed. |
| SchedulerRuns.HandleKeeps | php-7.4-patched/run-tests.php:1527-1582 | Every enabled message keeps the invariant and the multiset of all tests. |
| SchedulerSafety.ReleaseClaims | php-7.4-patched/run-tests.php:1530-1540 | After a batch exactly the keys its worker owned are free. |
| SchedulerSafety.ReleaseWaiting | php-7.4-patched/run-tests.php:1530-1540 | Exactly the tests parked on those keys stop waiting. |
| SchedulerSafety.FinishKeeps | php-7.4-patched/run-tests.php:1528-1540 | Finishing a batch keeps the invariant and every test. |
| SchedulerSafety.BuildConserves | php-7.4-patched/run-tests.php:1554-1562 | Building a batch moves tests between stack, waiting lists and batch without losing any. |
| SchedulerSafety.BuildTakesUnblocked | php-7.4-patched/run-tests.php:1554-1562 | No test of a batch has a key that was owned, and the batch is empty only when the stack is. |
| SchedulerSafety.ClaimFilesExactly | php-7.4-patched/run-tests.php:1563-1568 | After claiming, the sender owns every key of its batch and all other claims are as before. |
| SchedulerSafety.DispatchKeeps | php-7.4-patched/run-tests.php:1545-1582 | Answering `ready` keeps the invariant and every test. |
| SchedulerOrder.SingleKeyOrderKept | php-7.4-patched/run-tests.php:1394-1397 | Without shuffling, tests with the same single key are sent in list order on every run, and on exit have finished in that order. |
| SchedulerOrder.RunKeepsLine | php-7.4-patched/run-tests.php:1530-1562 | The tests sent for a key, followed by those waiting for it and those on the stack in pop order, are the same sequence all through a run. |
| SchedulerPairs.CoveredOrderKept | php-7.4-patched/run-tests.php:1530-1562 | If neither test conflicts with "all" and the earlier one has no key but the first key of the later one, the earlier one is sent first on every run of every unshuffled list with any number of workers. |
| SchedulerPairs.LaterIsParked | php-7.4-patched/run-tests.php:1555-1560 | While the earlier test waits for its key, the later one, popped, is parked behind it. |
| SchedulerOvertaking.SharedKeyOvertaken | php-7.4-patched/run-tests.php:1394-1397 | For every pair of conflict lists that fails the condition there is a list and a run on which the later test is sent first. |
| SchedulerOvertaking.OrderKeptExactly | php-7.4-patched/run-tests.php:1394-1397 | The earlier of two tests is sent first on every run exactly when neither conflicts with "all" and it has no key but the first key of the later one. |
| SchedulerOvertaking.SharedKeyOrder | php-7.4-patched/run-tests.php:1394-1397 | The same for two tests that share a key: the earlier one has only that key and the later one lists it first. |
| SchedulerOvertaking.OvertakesOnReturn | php-7.4-patched/run-tests.php:1530-1540 | Different first keys: both are given up by one worker, and the later test comes to lie on top of the stack. |
| SchedulerOvertaking.OvertakesCrosswise | php-7.4-patched/run-tests.php:1554-1562 | The same first key and another one of the earlier test: returned, the earlier test has to line up behind the later one. |
| SchedulerOvertaking.AllIsEarly | php-7.4-patched/run-tests.php:1547-1550 | With one worker the tests that conflict with "all" are popped first and in reverse. |
| SchedulerOrder.BatchIs | php-7.4-patched/run-tests.php:1554-1562 | A batch is the first `batchSize` + 1, in pop order, of the stacked tests without an owned key. |
| SchedulerOrder.SentIs | php-7.4-patched/run-tests.php:1545-1582 | A ready worker is sent the first 33 stacked tests, 5 when shuffling, of whose keys nobody owns one, in pop order; the only worker left also the tests set aside; without such a test it is dismissed. |
| SchedulerOrder.BatchBounded | php-7.4-patched/run-tests.php:1554-1562 | A batch has at most `batchSize` + 1 tests, and more than `batchSize` exactly when more stacked tests than that have no owned key. |
| SchedulerOrder.BatchTakesTop | php-7.4-patched/run-tests.php:1554-1562 | When the tests on top have no owned key the batch is the top of the stack, in pop order, and nothing is parked. |
| MasterProcess.Master.constructor | php-7.4-patched/run-tests.php:1366-1402 | Partitioning, reversing or shuffling, and spawning give an initial state of the transition system. |
| MasterProcess.Master.Partition | php-7.4-patched/run-tests.php:1366-1392 | The loop splits the list into the tests that list the conflict key "all" and the others, each in list order. |
| MasterProcess.Master.ReleaseClaims | php-7.4-patched/run-tests.php:1530-1540 | Removing claims while iterating over a snapshot of them releases what the specification releases. |
| MasterProcess.Master.ReturnWaiting | php-7.4-patched/run-tests.php:1534-1537 | The tests parked on a key go back on the stack in reverse, so they are popped in the order they were parked. |
| MasterProcess.Master.BuildBatch | php-7.4-patched/run-tests.php:1552-1562 | The nested loops build the batch, the stack and the waiting lists the specification builds. |
| MasterProcess.Master.ClaimBatch | php-7.4-patched/run-tests.php:1563-1568 | The nested loops record the claims the specification records. |
| MasterProcess.Master.HandleReady | php-7.4-patched/run-tests.php:1545-1582 | The whole `ready` case refines the specified step. |
| MasterProcess.Master.HandleMessage | php-7.4-patched/run-tests.php:1527-1582 | Each message, with the fall-through, refines the specified step. |
| MasterProcess.Master.RunTests | php-7.4-patched/run-tests.php:1498-1582 | The main loop ends whichever live worker is heard next, and then every test has been run. |
| TsrmRuns.StepKeeps | php-7.4-patched/TSRM/TSRM.c:294-637 | Whichever thread takes a locked step, the invariant holds when the mutex is free again. |
| TsrmRuns.ReachableKeeps | php-7.4-patched/TSRM/TSRM.c:294-637 | The invariant holds after any interleaving. |
| TsrmRuns.GuardedIsPossible | php-7.4-patched/TSRM/TSRM.c:294-637 | From startup on every interleaving is a run if only each fast id has space or falls into the zeroed part of the table of types, and each id freed was handed out; the invariant is not assumed. |
| TsrmRuns.OneEntryPerThread | php-7.4-patched/TSRM/TSRM.c:435-495 | Every entry is in the chain its thread hashes to and no thread has two. |
| TsrmRuns.OneCellPerId | php-7.4-patched/TSRM/TSRM.c:265-330 | Every entry has a cell for each id handed out; a cell is NULL exactly when its id is done, points into the entry exactly for a fast id, and is shared with no other entry. Only for an id used up without space may the cell be missing yet. |
| TsrmRuns.LostIdsGetCells | php-7.4-patched/TSRM/TSRM.c:265-292 | When the next id is handed out every entry gets the cells it lacked, and a new entry lacks none: an id used up without space then has a block of no size in every thread. |
| TsrmRuns.FastRangesDisjoint | php-7.4-patched/TSRM/TSRM.c:342-388 | Fast resources lie in disjoint 16-aligned ranges between the entry header and the end of the reserved area. |
| TsrmRuns.AlignedSizeCovers | php-7.4-patched/TSRM/TSRM.h:58-62 | The aligned size covers the size asked for exactly when rounding up does not wrap around. |
| TsrmRuns.SecondFetchFinds | php-7.4-patched/TSRM/TSRM.c:469-482 | The recursive call finds the entry just created, whatever other threads did between releasing and retaking the mutex. |
| TsrmRuns.StepKeepsEntry | php-7.4-patched/TSRM/TSRM.c:294-637 | Only the end of a thread takes its entry away. |
| TsrmRuns.LinkedBlocksAlive | php-7.4-patched/TSRM/TSRM.c:391-432 | A block in a table cell was allocated and constructed once for that cell's id and nothing else was done to it. |
| TsrmRuns.BlockLife | php-7.4-patched/TSRM/TSRM.c:560-637 | Every block ever made is either in a cell or was destructed and freed once, as its type says. |
| TsrmRuns.ShutdownLeaksNothing | php-7.4-patched/TSRM/TSRM.c:189-252 | After shutdown every block's whole history is one construction, one destruction if its type has a destructor, and one free unless it is fast. |
| TsrmEffects.AllocateIdChanges | php-7.4-patched/TSRM/TSRM.c:294-330 | The new id is the next one, its type is recorded as given, and every entry gets what it lacked up to it: a block allocated once, and constructed if the type says so. |
| TsrmEffects.AllocateFastIdChanges | php-7.4-patched/TSRM/TSRM.c:342-388 | The same for a fast id, whose blocks lie behind the 32 bytes of the header and the space used before; without space an id is used up and nothing else changes. |
| TsrmEffects.AddTypeSpares | php-7.4-patched/TSRM/TSRM.c:265-292 | Nothing happens to any other block. |
| TsrmEffects.FetchChanges | php-7.4-patched/TSRM/TSRM.c:391-432 | A thread without an entry gets one at the end of its chain, with NULL for each id that is done and a block allocated and constructed once for each other. |
| TsrmEffects.FetchAgain | php-7.4-patched/TSRM/TSRM.c:464-489 | For a thread with an entry nothing changes. |
| TsrmEffects.FetchSpares | php-7.4-patched/TSRM/TSRM.c:391-432 | Nothing happens to the blocks of other threads. |
| TsrmEffects.EndThreadChanges | php-7.4-patched/TSRM/TSRM.c:560-602 | The entry of the thread is gone and all others stay in order. |
| TsrmEffects.EndThreadDisposes | php-7.4-patched/TSRM/TSRM.c:576-585 | Each block of the thread is destructed if its type has a destructor, and then freed unless it is a fast one. |
| TsrmEffects.EndThreadSpares | php-7.4-patched/TSRM/TSRM.c:576-585 | Nothing happens to any other block. |
| TsrmEffects.EndThreadOrder | php-7.4-patched/TSRM/TSRM.c:576-585 | All destructors run before anything is freed. |
| TsrmEffects.FreeIdChanges | php-7.4-patched/TSRM/TSRM.c:605-637 | The id is done and NULL in every entry; no other type, entry or cell changes. |
| TsrmEffects.FreeIdDisposes | php-7.4-patched/TSRM/TSRM.c:615-631 | Each thread's block for the id is destructed if its type has a destructor, and then freed unless it is a fast one. |
| TsrmEffects.FreeIdSpares | php-7.4-patched/TSRM/TSRM.c:615-631 | Nothing happens to any other block. |
| TsrmTable.AllocateIdKeeps | php-7.4-patched/TSRM/TSRM.c:294-330 | Allocating an id and enlarging every entry keeps the invariant. |
| TsrmTable.AllocateFastIdKeeps | php-7.4-patched/TSRM/TSRM.c:342-388 | Allocating a fast id keeps the invariant exactly when the reserved space suffices or the id falls into the zeroed part of the table of types. |
| TsrmTable.LoseIdKeeps | php-7.4-patched/TSRM/TSRM.c:353-359 | Using up an id without recording a type keeps the invariant exactly when its place in the table was zeroed by startup. |
| TsrmTable.AttachKeeps | php-7.4-patched/TSRM/TSRM.c:391-432 | Creating an entry for a thread without one keeps the invariant; with one nothing changes. |
| TsrmTable.FreeThreadKeeps | php-7.4-patched/TSRM/TSRM.c:560-602 | Ending a thread keeps the invariant. |
| TsrmTable.FreeIdKeeps | php-7.4-patched/TSRM/TSRM.c:605-637 | Freeing an id that was handed out, also a second time, keeps the invariant. |
| TsrmTable.ShutdownEnds | php-7.4-patched/TSRM/TSRM.c:189-252 | After shutdown no cell holds a block and every block made is accounted for. |
| TsrmBlocks.ThreadEndHistories | php-7.4-patched/TSRM/TSRM.c:576-585 | Running all destructors and then freeing does to each block what disposing of the cells one by one would, although destructors of done ids are called on NULL. |
| TsrmProcess.ResourceManager.constructor | php-7.4-patched/TSRM/TSRM.c:334-338 | Startup and one reservation give the initial state. |
| TsrmProcess.ResourceManager.FillStorage | php-7.4-patched/TSRM/TSRM.c:273-288 | The inner loop makes the missing blocks of one entry. |
| TsrmProcess.ResourceManager.WalkChain | php-7.4-patched/TSRM/TSRM.c:270-290 | Following `next` visits every entry of one chain once. |
| TsrmProcess.ResourceManager.WalkTable | php-7.4-patched/TSRM/TSRM.c:269-291 | The walk over all chains refines the operation on the whole table. |
| TsrmProcess.ResourceManager.RecordType | php-7.4-patched/TSRM/TSRM.c:306-325 | Recording a type and updating the active threads refines the specified step. |
| TsrmProcess.ResourceManager.AllocateId | php-7.4-patched/TSRM/TSRM.c:296-330 | Returns the new id, counted from 1, and refines the specified step. |
| TsrmProcess.ResourceManager.AllocateFastId | php-7.4-patched/TSRM/TSRM.c:342-388 | Returns id and offset, or 0 and 0 without space, and refines the specified step on both branches. |
| TsrmProcess.ResourceManager.ClearStorage | php-7.4-patched/TSRM/TSRM.c:619-627 | Disposes of one cell of one entry if it holds a block. |
| TsrmProcess.ResourceManager.FreeId | php-7.4-patched/TSRM/TSRM.c:605-637 | Freeing an id refines the specified step. |
| TsrmProcess.ResourceManager.ShutdownStorage | php-7.4-patched/TSRM/TSRM.c:212-221 | Disposes of all blocks of one entry. |
| TsrmProcess.ResourceManager.Shutdown | php-7.4-patched/TSRM/TSRM.c:205-228 | Shutdown by the main thread does to the blocks what the specification says and leaves no table. |
| TsrmProcess.ResourceManager.Lookup | php-7.4-patched/TSRM/TSRM.c:572-600 | Walking a chain finds the thread's entry and the one before it, or the last entry. |
| TsrmProcess.ResourceManager.NewEntry | php-7.4-patched/TSRM/TSRM.c:391-425 | A new entry gets a block for every id that is not done. |
| TsrmProcess.ResourceManager.Link | php-7.4-patched/TSRM/TSRM.c:466-488 | Writing through the bucket or the last `next` appends the entry to its chain and changes no other. |
| TsrmProcess.ResourceManager.Attach | php-7.4-patched/TSRM/TSRM.c:464-489 | The locked part of fetching a resource refines the specified step. |
| TsrmProcess.ResourceManager.Unlink | php-7.4-patched/TSRM/TSRM.c:587-591 | Removing an entry from the front, middle or end of its chain keeps the others linked in order. |
| TsrmProcess.ResourceManager.EndStorage | php-7.4-patched/TSRM/TSRM.c:576-585 | First all destructors, then all frees, NULL cells included. |
| TsrmProcess.ResourceManager.FreeThread | php-7.4-patched/TSRM/TSRM.c:560-602 | Ending the current thread refines the specified step. |
| HashTable.FoundByProbing | pcov-patched/hashmap.h:260-281 | A key is in the map exactly when one of the eight slots from its hash holds it, for tables of any size, although removal leaves no tombstone. |
| HashTable.ContentsPut | pcov-patched/hashmap.h:245-255 | Writing a slot is a map update. |
| HashTable.ContentsRemove | pcov-patched/hashmap.h:295-299 | Blanking a slot removes its key from the map and nothing else. |
| HashTable.ContentsSize | pcov-patched/hashmap.h:391-393 | The number of slots in use is the number of keys. |
| HashTable.EmptiedSubMap | pcov-patched/hashmap.h:358-384 | Slots emptied up to some slot stand for a sub-map. |
| HashTable.OneBitIsPowerOfTwo | pcov-patched/hashmap.h:220 | The bit test on a 32-bit word accepts exactly the words whose number is a power of two. |
| BoundedHashMap.HashMap.Create | pcov-patched/hashmap.h:215-232 | Creation succeeds exactly for a power of two, which is what the bit test accepts, when there is memory; all slots are then blank. |
| BoundedHashMap.HashMap.Locate | pcov-patched/hashmap.h:265-277 | The probe loop finds a key exactly when it is in the map. |
| BoundedHashMap.HashMap.Get | pcov-patched/hashmap.h:260-281 | Lookup returns the value, or null without one. |
| BoundedHashMap.HashMap.Remove | pcov-patched/hashmap.h:283-309 | Removal deletes the key and says whether it was there. |
| BoundedHashMap.HashMap.RemoveAndReturnKey | pcov-patched/hashmap.h:311-341 | The same, returning the stored key. |
| BoundedHashMap.HashMap.NumEntries | pcov-patched/hashmap.h:391-393 | The size is the cardinality of the map. |
| BoundedHashMap.HashMap.ProbeForKey | pcov-patched/hashmap.h:507-524 | The first probe finds the slot of a stored key, or tells whether the window is full. |
| BoundedHashMap.HashMap.ProbeForFree | pcov-patched/hashmap.h:526-539 | The second probe finds the first free slot of a window that has one. |
| BoundedHashMap.HashMap.FindSlot | pcov-patched/hashmap.h:496-542 | The two probes return the key's slot if it is stored, else the first free slot of its window; they fail exactly on a full table or a full window. |
| BoundedHashMap.HashMap.Put | pcov-patched/hashmap.h:234-258 | With a slot for the key it succeeds and the table stays; in every case result, slots and memory left are the specified ones. Success updates the map; failure leaves a sub-map, which is the whole map exactly when no larger table could be made. |
| BoundedHashMap.HashMap.Rehash | pcov-patched/hashmap.h:557-582 | Result, slots and memory left are the specified ones. Success keeps the map and at least doubles the table; failure leaves the old slots emptied up to some slot. |
| BoundedHashMap.HashMap.MoveSlot | pcov-patched/hashmap.h:544-553 | One entry is moved to the new table exactly when the put there succeeds, and is cleared in the old one; otherwise it stays. |
| BoundedHashMap.HashMap.MoveIfUsed | pcov-patched/hashmap.h:367-382 | One iteration over the old slots, with the early exit. |
| HashGrowth.AtOnceExactly | pcov-patched/hashmap.h:234-258 | A put succeeds without an allocation exactly when there is a slot for the key. |
| HashGrowth.MoreMemoryPuts | pcov-patched/hashmap.h:234-258 | A put that succeeds does the same with more memory, and leaves that much more. |
| HashGrowth.MemoryNeeded | pcov-patched/hashmap.h:234-258 | A put that succeeds uses an exact amount of memory: with any other amount it succeeds exactly when that is at least as much, makes the same table and leaves the rest. |
| HashGrowth.FewSucceed | pcov-patched/hashmap.h:234-258 | With fewer than eight entries, one allocation and a doubled size that does not overflow a put succeeds, whatever the keys and the hash. |
| HashGrowth.LostExactly | pcov-patched/hashmap.h:557-582 | A failing rehash loses entries exactly when there are any, there was memory for the larger table and its size does not overflow. |
| HashGrowth.Doubled | pcov-patched/hashmap.h:558-567 | Doubling gives a size for a table exactly when it does not overflow. |
| HashLoss.FourteenLost | pcov-patched/hashmap.h:544-582 | In a table of any size m from 16 on, filled with fifteen keys whose hash words are congruent to m - 1 and m - 8 behind a multiple of 2m, the put of one more fails with any memory; with none nothing is lost, with some one of fifteen entries is left. |
| HashLoss.TableIsFilled | pcov-patched/hashmap.h:234-258 | Fifteen puts into a blank table make that table, without an allocation. |
| HashLoss.TableWellFormed | pcov-patched/hashmap.h:496-542 | That table is well-formed: every key is where it is found. |
| HashLoss.LastNeverFits | pcov-patched/hashmap.h:557-582 | However often the larger table is doubled, the last of the fifteen entries finds no slot in it. |
| HashLoss.HashModHalf | pcov-patched/hashmap.h:488 | The highest bit of a hash word does not matter for the slot, in a table of any size. |
| HashInstance.MixedWords | pcov-patched/hashmap.h:475-486 | Two words whose numbers differ by 7 up to the highest bit are results of the mix, each of several checksums. |
| HashInstance.KeysAreUnlucky | pcov-patched/hashmap.h:470-488 | Sixteen different keys of five bytes have these hash words: checksum, mix and multiplication are the program's. |
| HashInstance.ProgramLoses | pcov-patched/hashmap.h:544-582 | From a blank table of 8192 slots, with the program's hash: fifteen puts succeed without an allocation and leave a well-formed table; the sixteenth fails with any memory, and with some leaves one entry. |
| Crc.Crc32Helper | pcov-patched/hashmap.h:395-468 | For every byte string the table loop returns the bit-at-a-time checksum. |
| Crc.TableIsByteStep | pcov-patched/hashmap.h:404-459 | Each of the 256 table words is eight bit steps of its index. |
| Crc.ByteStepLinear | pcov-patched/hashmap.h:461-465 | A byte step commutes with exclusive or. |
| Crc.TableStep | pcov-patched/hashmap.h:461-465 | One table lookup is eight bit steps of the checksum combined with the byte. |
| ModuleStartup.RankExists | php-7.4-patched/Zend/zend_API.c:1879-1911 | Modules of which no set depends on itself can be ranked so that every dependency falls; the sort's termination measure. |
| ModuleStartup.SortModules | php-7.4-patched/Zend/zend_API.c:1879-1911 | The in-place sort ends, permutes the modules, and puts no module that is still to be started before one it depends on. |
| ModuleStartup.SortedHasNoKnot | php-7.4-patched/Zend/zend_API.c:1879-1911 | A sorted order exists only without circular dependencies, so the requirement of the sort is necessary. |
| ModuleStartup.SortWithin | php-7.4-patched/Zend/zend_API.c:1887-1910 | The same loop given up after some passes, for any dependencies: if it ends the modules are in order, so with circular dependencies it ends within no number of passes. |
| ModuleStartup.TryAgain | php-7.4-patched/Zend/zend_API.c:1888-1909 | One pass over a module's dependencies either swaps to the cursor a module it depends on or settles the cursor. |
| ModuleStartup.FindLater | php-7.4-patched/Zend/zend_API.c:1891-1907 | The nested scan finds a later module that the one at the cursor depends on, if there is one. |
| ModuleStartup.Registry.StartModule | php-7.4-patched/Zend/zend_API.c:1813-1868 | A module is started exactly when every module it transitively requires is registered. |
| ModuleStartup.Registry.StartModules | php-7.4-patched/Zend/zend_API.c:1983-1988 | The pass keeps exactly those modules and starts exactly what it keeps. |
| ModuleStartup.StartupModules | php-7.4-patched/Zend/zend_API.c:1983-1988 | Sorting and then starting: the survivors are determined by the registered modules alone, not by their first order. |
| ModuleStartup.RequirementsComeFirst | php-7.4-patched/Zend/zend_API.c:1813-1877 | What a surviving module requires stands before it and survives too. |
| ModuleStartup.DoomedStep | php-7.4-patched/Zend/zend_API.c:1823-1846 | A module is doomed exactly when a required module is missing or doomed. |
| ModuleStartup.SameMembersDoomed | php-7.4-patched/Zend/zend_API.c:1983-1988 | Reordering the registry dooms no other modules. |
| ModuleStartup.LowerIdentifies | php-7.4-patched/Zend/zend_API.c:1831-1835 | Two names count as the same exactly when they agree letter by letter up to the case of A to Z. |
| ModuleStartup.DependsOnIs | php-7.4-patched/Zend/zend_API.c:1891-1899 | A module is ordered after exactly those whose name it lists as required or optional, in any case of letters. |
| ModuleStartup.DoomedIffChain | php-7.4-patched/Zend/zend_API.c:1823-1846 | A module is not started exactly when a chain of requirements leads from it to a name that no module has, in any case of letters. |
| Redqueen.WrittenReadsBack | fuzzer/misc.py:277-338 | Reading a whole file yields every record written, in order. |
| Redqueen.PrefixReadsWholeRecords | fuzzer/misc.py:277-338 | Reading any byte prefix of a written file yields exactly the records wholly inside it. |
| Redqueen.WholeRecordsFit | fuzzer/misc.py:277-338 | That number of records is the largest whose encoding fits into the prefix. |
| Redqueen.ReadWritten | fuzzer/misc.py:289-309 | A record read from the start of its encoding comes back whole, whatever follows. |
| Redqueen.ReadCut | fuzzer/misc.py:270-275 | A record cut anywhere is recognised as cut. |
| Redqueen.CacheMakesNoDifference | fuzzer/misc.py:313-334 | With the cache the results are those of reversing every pattern anew: equal lists of keys and pairs, equal multisets of strings. |
| Redqueen.SingleWritten | pcov-patched/pcov.c:419-428 | A string within 1000 bytes is written as its kind, 0 or 1, its length low byte first, and its bytes; longer ones are not. |
| Redqueen.PairWritten | pcov-patched/pcov.c:772-813 | Two strings within 1000 bytes together are written as their kind, 2 or 3, and each with its length; longer ones are not. |
| Redqueen.SingleAdds | fuzzer/misc.py:290-298 | A string adds itself to the strings, and to the keys if it has kind 1. |
| Redqueen.UnmatchedAdds | fuzzer/misc.py:299-312 | Two strings of kind 2 add both strings and the pair. |
| Redqueen.PatternAdds | fuzzer/misc.py:310-334 | Two strings of kind 3 add both, and what reversing the pattern gives: to the matches, to the strings, and paired with the subject; a pattern that was reversed is remembered. |
| Redqueen.UnknownKindFails | fuzzer/misc.py:289-335 | Any other kind fails an assertion. |
| Redqueen.HugeLengthReadsEmpty | fuzzer/misc.py:291-295 | A length from 0x8000 on reads as an empty string, and what follows as a record. |
| Redqueen.AbsorbAddsOwn | fuzzer/misc.py:290-334 | Each record adds its own contribution only, whatever is cached. |
| Redqueen.PrefixYields | fuzzer/misc.py:277-338 | What the reader returns for any prefix, in terms of the records alone. |
| RedqueenFiles.Writer.DumpRedqueenPayload | pcov-patched/pcov.c:419-428 | The buffer code appends the encoding of a string of at most 1000 bytes and nothing for a longer one. |
| RedqueenFiles.Writer.Redqueen | pcov-patched/pcov.c:815-820 | The same, only when the mode is on. |
| RedqueenFiles.Writer.FillPair | pcov-patched/pcov.c:774-788 | The offsets computed into the 1024-byte buffer lay the two strings out without gap or overlap. |
| RedqueenFiles.Writer.DumpPair | pcov-patched/pcov.c:772-813 | Both writers of two strings append the encoding of the pair when the mode is on and the pair is within the limit. |
| RedqueenFiles.Writer.DumpPayload | pcov-patched/pcov.c:340-377 | Appends the buffer's first bytes to the file. |
| RedqueenFiles.Reader.ReadBytes | fuzzer/misc.py:270-275 | Reads exactly the bytes asked for, or fails without moving. |
| RedqueenFiles.Reader.ReadString | fuzzer/misc.py:300-304 | Reads a sized string, with the length taken as signed. |
| RedqueenFiles.AddPattern | fuzzer/misc.py:313-334 | The cached and uncached branches refine the specified step. |
| RedqueenFiles.ParseRedqueenFile | fuzzer/misc.py:277-338 | The loop refines the specified parser on every input, malformed ones included. |
| CoverageStore.TracedSinceClear | pcov-patched/pcov.c:1479-1506 | A hit is kept exactly when it was executed while tracing was on and nothing was cleared since. |
| CoverageStore.PendingSinceShown | pcov-patched/pcov.c:1425-1429 | A report is due exactly when something was traced since the last report or clearing. |
| CoverageStore.EnabledIsSwitchedOn | pcov-patched/pcov.c:1456-1477 | Tracing is on exactly when it was started again after every stop. |
| CoverageStore.FilesAreRegistered | pcov-patched/pcov.c:1352-1354 | A file is registered exactly when it was compiled and files were not cleared since. |
| CoverageStore.ReportedFiles | pcov-patched/pcov.c:1403-1452 | A report shows a file exactly when it is due, the file is registered, and all files or this one are asked for. |
| CoverageStore.ReportedLines | pcov-patched/pcov.c:1338-1394 | A reported file is listed with exactly the lines its code had at the first report, due then, that showed it since files were last cleared. |
| CoverageStore.ReportEmpty | pcov-patched/pcov.c:1403-1452 | A report is empty exactly when nothing was traced since the last look or no registered file is asked for. |
| CoverageStore.CoveredIffTraced | pcov-patched/pcov.c:1258-1273 | In any other report a line is marked covered exactly when that file and line were traced since the last clearing. |
| CoverageStore.SameLinesLater | pcov-patched/pcov.c:1338-1394 | Later reports list the same lines of a file, whatever is traced and reported in between, until the files are cleared. |
| CoverageStore.LinesStaySettled | pcov-patched/pcov.c:1338-1394 | The first examination settles a file's lines. |
| CoverageStore.ExaminedAreFiles | pcov-patched/pcov.c:1352-1354 | Only registered files have cached lines. |
| CoverageStore.SecondReportEmpty | pcov-patched/pcov.c:1425-1427 | A report straight after a report or clearing is empty. |
| CoverageProcess.Collector.Trace | pcov-patched/pcov.c:672-680 | Appending through the pointer keeps the list, in order, equal to the hits of the run. |
| CoverageProcess.Collector.DiscoverFile | pcov-patched/pcov.c:1338-1394 | Adds a private copy of the cached table, examining and caching first if needed; the cache is not shared with the result. |
| CoverageProcess.Collector.GatherNamed | pcov-patched/pcov.c:1432-1441 | The loop over a filter skips what is not a string and discovers the rest. |
| CoverageProcess.Collector.GatherAll | pcov-patched/pcov.c:1443-1448 | The loop over the registered files discovers them all. |
| CoverageProcess.Collector.ReportHits | pcov-patched/pcov.c:1258-1273 | Following the list marks exactly the listed lines that were hit. |
| CoverageProcess.Collector.Collect | pcov-patched/pcov.c:1403-1452 | The returned tables are new objects whose marks are the report of the run; the cached tables keep no mark; an unknown type changes nothing. |
| CoverageProcess.Collector.Clear | pcov-patched/pcov.c:1479-1506 | Clearing drops the trace list, and the files with their tables if asked. |
| CoverageProcess.Collector.CompileFile | pcov-patched/pcov.c:929-937 | A compiled file is registered once. |
| Levenshtein.Levenshtein | pcov-patched/pcov.c:686-705 | The single-column loop returns the recursively defined distance for all strings. |
| Levenshtein.NextColumn | pcov-patched/pcov.c:697-702 | One pass with `lastdiag` turns a column of the distance table into the next one in place. |
| Levenshtein.DistanceIsLeast | pcov-patched/pcov.c:686-705 | That distance is attained by a series of single-character edits, and no series is shorter. |
| Levenshtein.DistanceSymmetric | pcov-patched/pcov.c:686-705 | The distance is symmetric. |
| Levenshtein.DistanceZeroIffEqual | pcov-patched/pcov.c:686-705 | It is zero exactly for equal strings. |
| Levenshtein.DistanceTriangle | pcov-patched/pcov.c:686-705 | It obeys the triangle inequality. |
| Levenshtein.DistanceBounded | pcov-patched/pcov.c:689-692 | It lies between the difference of the lengths and the longer length, so unsigned arithmetic does not wrap. |
| PrinterProcess.Printer.PrintValue | php-7.4-patched/Zend/zend.c:434-493 | On any graph, cyclic or not, the printer ends, appends what the pure printer writes for the marked containers as ancestors, and restores every mark. |
| PrinterProcess.Printer.PrintContainer | php-7.4-patched/Zend/zend.c:437-472 | The same for an array or object: the notice exactly for a marked one, only the header for an object without properties. |
| PrinterProcess.Printer.PrintRows | php-7.4-patched/Zend/zend.c:297-326 | The loop over the entries prints them in order. |
| PrinterProcess.Printer.FlatValue | php-7.4-patched/Zend/zend.c:385-431 | The flat printer refines its pure form and restores every mark. |
| PrinterProcess.Printer.FlatContainer | php-7.4-patched/Zend/zend.c:388-422 | A container met again leaves its parenthesis open; an object without properties closes it. |
| PrinterProcess.Printer.FlatHash | php-7.4-patched/Zend/zend.c:336-356 | The loop separates entries with commas. |
| PrinterCycles.NoticesPrinted | php-7.4-patched/Zend/zend.c:434-493 | The output holds one notice for each time a container on the path is met again, and nothing else depends on the notice. |
| PrinterCycles.RecursionIffWalkReturns | php-7.4-patched/Zend/zend.c:440-463 | A container is met again exactly when a walk from the value through containers comes back to the path or to itself. |
| PrinterCycles.NoticeIffCycle | php-7.4-patched/Zend/zend.c:434-493 | Printed with no mark set, a value shows the notice exactly when a walk from it visits a container twice; shared but acyclic containers are printed in full. |
| PrinterCycles.FlatNoticesPrinted | php-7.4-patched/Zend/zend.c:385-431 | The flat output holds one notice for each container met again and closes every parenthesis but theirs. |
| PrinterCycles.FlatNoticeIffCycle | php-7.4-patched/Zend/zend.c:385-431 | The flat output shows the notice exactly when a walk visits a container twice, and closes all parentheses exactly when none does. |
| PrinterShown.LeafShown | php-7.4-patched/Zend/zend.c:476-493 | A string is printed as it is, an integer as the digits that read back to it without leading zeros, a reference as what it refers to. |
| PrinterShown.MetShown | php-7.4-patched/Zend/zend.c:437-466 | A container met again is printed as its heading and " *RECURSION*", an object without properties as its heading. |
| PrinterShown.ContainerShown | php-7.4-patched/Zend/zend.c:285-327 | Any other array or object is printed as its heading, a bracket, one row per entry in order, and a bracket: blanks, key, " => ", the text of the value eight blanks further in, new line. |
| PrinterShown.ConstantShown | php-7.4-patched/Zend/zend.c:437-449 | The same for an immutable array. |
| PrinterShown.IndexShown | php-7.4-patched/Zend/zend.c:317-319 | An integer key is printed as the signed word it is, and by the flat printer as an unsigned one. |
| PrinterShown.NameShown | php-7.4-patched/Zend/zend.c:302-316 | A string key is printed as it is, in an object too unless it starts with a NUL. |
| PrinterShown.PropertyShown | php-7.4-patched/Zend/zend.c:302-314 | A private property is printed with its class and ":private", a protected one with ":protected". |
| PrinterShown.FlatLeafShown | php-7.4-patched/Zend/zend.c:423-431 | The flat printer prints strings, integers and references alike. |
| PrinterShown.FlatMetShown | php-7.4-patched/Zend/zend.c:388-420 | It prints a container met again as heading and " *RECURSION*", and an object without properties as heading and parenthesis. |
| PrinterShown.FlatContainerShown | php-7.4-patched/Zend/zend.c:336-356 | Any other container is printed as heading, the entries in order with commas between them, and a parenthesis. |
| PrinterShown.FlatConstantShown | php-7.4-patched/Zend/zend.c:388-402 | The same for an immutable array. |
| PrinterText.UnmangleMangled | php-7.4-patched/Zend/zend_compile.c:1231-1274 | A mangled name reads back whole exactly when class and property name are not empty and hold no NUL. |
| PrinterText.AnonymousClass | php-7.4-patched/Zend/zend_compile.c:1258-1273 | With a class name that holds a NUL and a source position, any property name reads back, with the class up to the NUL. |
| PrinterText.NoClass | php-7.4-patched/Zend/zend_compile.c:1231-1258 | A name comes back whole and without a class exactly when it does not start with a NUL, is too short, or has no second NUL behind a class and before its last character. |
| PrinterText.ClassHasNoNul | php-7.4-patched/Zend/zend_compile.c:1250-1258 | A class that is read is not empty and ends before the first NUL. |
| PrinterText.UnmangleIs | php-7.4-patched/Zend/zend_compile.c:1258-1273 | In general the class comes back with what follows the first NUL of the name. |
| Murmur.MurmurHash3_x86_32 | pcov-patched/murmur3.h:99-152 | The block loop, the tail and the finalization compute the hash as a composition of invertible steps. |
| Murmur.KnownTailHashes | pcov-patched/murmur3.h:99-152 | The hashes of five keys of up to three bytes are the published ones. |
| Murmur.KnownLongHash | pcov-patched/murmur3.h:99-152 | The hash of the thirteen bytes "Hello, world!" for seed 1234 is 0xFAF6CDB3. |
| Murmur.OneBlockNoCollision | pcov-patched/murmur3.h:99-152 | For every seed, keys of equal length that differ in exactly one aligned block have different hashes. |
| Murmur.TailNoCollision | pcov-patched/murmur3.h:126-144 | For every seed, keys of equal length that differ only after the last block have different hashes. |
| Murmur.MixBlockInjective | pcov-patched/murmur3.h:118-120 | Mixing a block is injective. |
| Murmur.AddBlockCancels | pcov-patched/murmur3.h:122-124 | Adding a mixed block to the state loses nothing but their exclusive or. |
| Murmur.Fmix32Injective | pcov-patched/murmur3.h:73-82 | The finalization is injective. |
| Murmur.BodyDiffers | pcov-patched/murmur3.h:114-125 | A difference in one block survives all equal blocks after it. |
| Murmur.EntriesDistinct | pcov-patched/pcov.c:580-584 | Different 32-bit numbers have different hashes. |
| Murmur.FilledHasNoDuplicates | pcov-patched/pcov.c:580-584 | The filled table of 4096 short hashes has no duplicates. |
| Murmur.FirstEntryNotZero | pcov-patched/pcov.c:581 | The first entry is not zero, so testing it tells a filled table from an untouched one. |
| Murmur.ShortHash.Fill | pcov-patched/pcov.c:580-584 | After the call the table holds the hash of every index; a filled table is left as it is. |
| Murmur.KnownShortHashes | pcov-patched/pcov.c:574-602 | 0xFFF is looked up as the hash of its bytes, 0x1000 stands for itself, and each step halves. |
| Murmur.ShortHash.Combine | pcov-patched/pcov.c:574-602 | Arguments below 0x1000 are looked up, larger ones stand for themselves, and each step halves the sum without carry. |

## Left out

- Scheduler: sockets, process spawning, `stream_select`, message framing and reassembly, `test_result` messages and error exits; messages are steps, a worker answers every batch once, and there is at least one worker.
- Scheduler: reading conflict keys from the files; they are a function of the test. Test names are non-empty and not "0", as popping demands.
- Resource manager: reads of the storage outside the mutex, thread-local fast paths, and unlinked interpreter contexts.
- Resource manager: `malloc` and `realloc` are taken to succeed, and the space for fast resources is reserved once, before any thread has an entry.
- Resource manager: thread begin and end handlers, and shutdown called from another thread or twice, which returns at once.
- TsrmRuns.StepKeeps: says nothing after a fast id without space whose place in the table of types startup did not zero: from then on the program reads a type that was never written, or memory behind the table.
- TsrmProcess.ResourceManager.Shutdown: models the release of entries by null cells and an empty table; the freeing of the entries themselves is not recorded.
- Hash map: memory is a number of allocations that still succeed, after which all fail.
- Hash map: outside `HashInstance` the mixing of the checksum into a hash word is any function from keys to 32-bit words; pointer lifetime of keys (keys are values); `hashmap_iterate`, `hashmap_destroy`.
- Modules: startup functions and globals constructors, taken to succeed; warnings; request handlers. With circular dependencies the sort does not end (`ModuleStartup.SortWithin`), and no order would do.
- Modules: names are compared in lower case over the letters A to Z only.
- RedqueenFiles.Writer.DumpPair: lengths are unbounded numbers; the sum of the two C ints that is compared with the limit (`pcov-patched/pcov.c:777` and `799`) is taken not to overflow.
- Feedback file: the hypercall that carries the bytes, file naming, and the limit on time; reversing a pattern is an oracle that fails or always gives the same answer.
- Coverage: building control-flow graphs to find a file's lines, which are given when a file is examined; file names, `realpath`, the bitmap, and the set that records which lines were seen. The extension is taken to be enabled.
- Coverage: which files are wanted, by directory and exclusion pattern; a compiled file here is one that is wanted.
- Coverage: an inclusive collection is given a filter, as the original dereferences it.
- Coverage: arena memory; nodes dropped by clearing are simply no longer linked.
- Printers: immutable arrays hold only scalars and immutable arrays, and references do not hold references, as the engine guarantees; conversions of other scalars to strings are given.
- Printers: undefined and indirect slots (the entries are the live ones), notices for malformed property names, and property tables built for printing and released after it.
- MurmurHash3: the 128-bit forms, which repeat the argument at larger size. Blocks are read low byte first.
- Murmur.ShortHash.Combine: its result is not injective, as each step drops a bit; only the table is.
- The mutation engine, HTML parsing, plotting and launch scripts, and the evaluation.
