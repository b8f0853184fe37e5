/** Whole runs of the resource manager: any interleaving of steps of any threads, then shutdown. */
module TsrmRuns {
  import opened Collections
  import opened Tsrm
  import opened TsrmBlocks
  import opened TsrmTable

  /** What one thread does while it holds the mutex. Resource ids are counted from 1. */
  datatype Step =
    | Allocate(size: nat, ctor: bool, dtor: bool)
    | AllocateFast(size: nat, ctor: bool, dtor: bool)
    | Fetch(thread: Thread)
    | EndThread(thread: Thread)
    | FreeResource(id: nat)

  /** After `tsrm_startup` and one `tsrm_reserve`. */
  function Startup(tableSize: nat, expected: nat, reserved: nat): State
    requires tableSize > 0 && reserved < SIZE_LIMIT
  {
    State(seq(tableSize, i => []), [], 0, 0, AlignedSize(reserved), expected, {}, Heap(0, []))
  }

  /** What the caller has to see to: there is space for a fast resource, or at least a zeroed place in the table of types,
      and an id that is freed was handed out. */
  predicate Guard(s: State, step: Step) {
    match step
    case AllocateFast(size, _, _) =>
      size < SIZE_LIMIT && (s.reservedPos <= s.reservedSize && s.idCount >= s.zeroed ==> FastFits(s, size))
    case FreeResource(id) => 1 <= id <= s.idCount && id - 1 !in s.lost
    case _ => true
  }

  ghost predicate Can(s: State, step: Step) {
    Inv(s) && Guard(s, step)
  }

  ghost function Do(s: State, step: Step): State
    requires Can(s, step)
  {
    match step
    case Allocate(size, ctor, dtor) => AllocateId(s, size, ctor, dtor)
    case AllocateFast(size, ctor, dtor) => AllocateFastId(s, size, ctor, dtor)
    case Fetch(thread) => Attach(s, thread)
    case EndThread(thread) => FreeThreadKeeps(s, thread); FreeThread(s, thread)
    case FreeResource(id) => FreeId(s, id - 1)
  }

  lemma StartupKeeps(tableSize: nat, expected: nat, reserved: nat)
    requires tableSize > 0 && reserved < SIZE_LIMIT
    ensures Inv(Startup(tableSize, expected, reserved))
    ensures var s := Startup(tableSize, expected, reserved);
      && |s.chains| == tableSize && (forall chain :: chain in s.chains ==> chain == [])
      && s.types == [] && s.idCount == 0 && s.lost == {} && s.zeroed == expected && s.heap == Heap(0, [])
      && s.reservedPos == 0 && s.reservedSize % 16 == 0
      && (reserved <= SIZE_LIMIT - 16 ==> reserved <= s.reservedSize < reserved + 16)
  {
    if reserved <= SIZE_LIMIT - 16 {
      AlignedSizeCovers(reserved);
    }
    var s := Startup(tableSize, expected, reserved);
    assert Members(s.chains) == {};
    assert forall c :: History([], c) == [];
  }

  /** Whoever takes a step, the invariant holds whenever the mutex is free. */
  lemma StepKeeps(s: State, step: Step)
    requires Can(s, step)
    ensures Inv(Do(s, step))
  {
    match step
    case Allocate(size, ctor, dtor) => AllocateIdKeeps(s, size, ctor, dtor);
    case AllocateFast(size, ctor, dtor) => AllocateFastIdKeeps(s, size, ctor, dtor);
    case Fetch(thread) => AttachKeeps(s, thread);
    case EndThread(thread) => FreeThreadKeeps(s, thread);
    case FreeResource(id) => FreeIdKeeps(s, id - 1);
  }

  ghost predicate Possible(s: State, steps: seq<Step>)
    decreases |steps|
  {
    steps != [] ==> Can(s, steps[0]) && Possible(Do(s, steps[0]), steps[1..])
  }

  ghost function Run(s: State, steps: seq<Step>): State
    requires Possible(s, steps)
    decreases |steps|
  {
    if steps == [] then s else Run(Do(s, steps[0]), steps[1..])
  }

  lemma {:induction false} RunKeeps(s: State, steps: seq<Step>)
    requires Inv(s) && Possible(s, steps)
    ensures Inv(Run(s, steps))
    decreases |steps|
  {
    if steps != [] {
      StepKeeps(s, steps[0]);
      RunKeeps(Do(s, steps[0]), steps[1..]);
    }
  }

  /** Every step meets its guard in the state it is taken in. */
  ghost predicate Guarded(s: State, steps: seq<Step>)
    decreases |steps|
  {
    steps != [] ==> Guard(s, steps[0]) && (Can(s, steps[0]) ==> Guarded(Do(s, steps[0]), steps[1..]))
  }

  /** The guards are all that is asked of a run: the invariant never stands in the way of a step. */
  lemma {:induction false} GuardsSuffice(s: State, steps: seq<Step>)
    requires Inv(s) && Guarded(s, steps)
    ensures Possible(s, steps)
    decreases |steps|
  {
    hide Inv, Do;
    if steps != [] {
      StepKeeps(s, steps[0]);
      GuardsSuffice(Do(s, steps[0]), steps[1..]);
    }
  }

  /** Every interleaving of guarded steps from startup on is a run. */
  lemma GuardedIsPossible(tableSize: nat, expected: nat, reserved: nat, steps: seq<Step>)
    requires tableSize > 0 && reserved < SIZE_LIMIT && Guarded(Startup(tableSize, expected, reserved), steps)
    ensures Possible(Startup(tableSize, expected, reserved), steps)
    ensures Reachable(Run(Startup(tableSize, expected, reserved), steps))
  {
    hide Inv, Guarded, Possible, Run;
    StartupKeeps(tableSize, expected, reserved);
    GuardsSuffice(Startup(tableSize, expected, reserved), steps);
    assert RunsTo(Startup(tableSize, expected, reserved), steps, Run(Startup(tableSize, expected, reserved), steps));
  }

  ghost predicate Reachable(r: State) {
    exists tableSize: nat, expected: nat, reserved: nat, steps :: tableSize > 0 && reserved < SIZE_LIMIT
      && RunsTo(Startup(tableSize, expected, reserved), steps, r)
  }

  ghost predicate RunsTo(s: State, steps: seq<Step>, r: State) {
    Possible(s, steps) && Run(s, steps) == r
  }

  lemma ReachableKeeps(r: State)
    requires Reachable(r)
    ensures Inv(r)
  {
    var tableSize: nat, expected: nat, reserved: nat, steps :| tableSize > 0 && reserved < SIZE_LIMIT
      && RunsTo(Startup(tableSize, expected, reserved), steps, r);
    StartupKeeps(tableSize, expected, reserved);
    RunKeeps(Startup(tableSize, expected, reserved), steps);
  }

  // ---------------------------------------------------------------- the table

  ghost predicate At(s: State, i: int, k: int, e: Entry) {
    0 <= i < |s.chains| && 0 <= k < |s.chains[i]| && s.chains[i][k] == e
  }

  /** Every entry is in the chain its thread hashes to, and a thread has at most one. */
  lemma OneEntryPerThread(s: State, i: int, k: int, e: Entry, a: int, b: int, f: Entry)
    requires Reachable(s) && At(s, i, k, e) && At(s, a, b, f)
    ensures i == e.thread % |s.chains|
    ensures e.thread == f.thread ==> i == a && k == b
  {
    ReachableKeeps(s);
    assert s.chains[i][k].thread % |s.chains| == i;
    if e.thread == f.thread {
      PlacesDiffer(s.chains, i, k, a, b);
    }
  }

  /** Every entry has one cell per id handed out; it is null exactly when the id is done, and no block is shared. For a
      lost id the cell may be missing yet; otherwise it holds a block of its own. */
  lemma OneCellPerId(s: State, i: int, k: int, e: Entry, j: int)
    requires Reachable(s) && At(s, i, k, e) && 0 <= j < s.idCount
    ensures |e.storage| <= s.idCount == |s.types| && (j >= |e.storage| ==> j in s.lost)
    ensures j < |e.storage| ==>
      && (e.storage[j] == Null <==> s.types[j].done)
      && (j in s.lost ==> e.storage[j].Block?)
      && (!s.types[j].done ==> (e.storage[j].Fast? <==> s.types[j].fastOffset != 0))
      && (!s.types[j].done ==> forall a, b, f :: At(s, a, b, f) && f != e ==> e.storage[j] !in f.storage)
  {
    ReachableKeeps(s);
    AllSoundAt(s.chains, s.types, s.lost, i, k);
    InMembers(s.chains, i, k);
    assert j < |e.storage| ==> RightKind(e.storage[j], e.base, j, s.types[j]) || s.types[j].done;
    forall a, b, f | At(s, a, b, f) && f != e && j < |e.storage| && !s.types[j].done
      ensures e.storage[j] !in f.storage
    {
      InMembers(s.chains, a, b);
      assert e.storage[j] in e.storage;
    }
  }

  /** The next id that is handed out, and the first fetch by a thread, give the missing cells: no lost id stays without one.
      Its block is one of no size, without constructor and destructor. */
  lemma LostIdsGetCells(s: State, step: Step, i: int, k: int, e: Entry)
    requires Reachable(s) && Can(s, step) && At(Do(s, step), i, k, e)
    requires match step
      case Allocate(_, _, _) => true
      case AllocateFast(size, _, _) => FastFits(s, size)
      case Fetch(thread) => e.thread == thread && !HasEntry(s, thread)
      case _ => false
    ensures var r := Do(s, step);
      && |e.storage| == r.idCount && r.lost == s.lost
      && forall j :: j in r.lost ==> j < r.idCount && e.storage[j].Block? && r.types[j] == UNTYPED
  {
    StepKeeps(s, step);
    var r := Do(s, step);
    hide Tracked, Placed, FastSound, AllSound, EntrySound, AllocateFastId, Attach, OnTable;
    match step {
      case Allocate(size, ctor, dtor) =>
        AllocateIdKeeps(s, size, ctor, dtor);
        AllSoundAt(r.chains, r.types, {}, i, k);
      case AllocateFast(size, ctor, dtor) =>
        FastIdKeeps(s, size, ctor, dtor);
        AllSoundAt(r.chains, r.types, {}, i, k);
      case Fetch(thread) =>
        NewEntryComplete(s, thread, i, k, e);
    }
    CompleteCells(e, r.types, r.lost);
  }

  lemma NewEntryComplete(s: State, thread: Thread, i: int, k: int, e: Entry)
    requires Inv(s) && !HasEntry(s, thread) && At(Attach(s, thread), i, k, e) && e.thread == thread
    ensures EntrySound(e, s.types, {}) && Attach(s, thread).types == s.types && Attach(s, thread).lost == s.lost
  {
    hide Tracked, FastSound, EntrySound, AllSound;
    var h, f := AttachNew(s, thread);
    assert i == HashOf(thread, |s.chains|) by {
      AttachKeeps(s, thread);
    }
    assert forall l :: 0 <= l < |s.chains[i]| ==> s.chains[i][l].thread != thread;
  }

  lemma CompleteCells(e: Entry, types: seq<ResourceType>, lost: set<nat>)
    requires EntrySound(e, types, {}) && LostSound(types, lost)
    ensures |e.storage| == |types| && forall j :: j in lost ==> j < |types| && e.storage[j].Block? && types[j] == UNTYPED
  {
    Complete(e, types, lost);
  }

  /** Fast resources lie in disjoint 16-aligned ranges between the entry header and the end of the entry. */
  lemma FastRangesDisjoint(s: State, j: int, k: int)
    requires Reachable(s) && 0 <= j < |s.types| && 0 <= k < |s.types| && j != k
    requires s.types[j].fastOffset != 0 && s.types[k].fastOffset != 0
    ensures var t, u := s.types[j], s.types[k];
      && t.fastOffset % 16 == 0 && ENTRY_SIZE <= t.fastOffset
      && t.fastOffset + t.size <= ENTRY_SIZE + s.reservedSize
      && (t.fastOffset + t.size <= u.fastOffset || u.fastOffset + u.size <= t.fastOffset)
  {
    ReachableKeeps(s);
  }

  /** The range kept for a fast resource covers the size asked for, unless rounding up wraps around. */
  lemma AlignedSizeCovers(size: nat)
    requires size < SIZE_LIMIT
    ensures size <= AlignedSize(size) <==> size <= SIZE_LIMIT - 16
    ensures size <= SIZE_LIMIT - 16 ==> AlignedSize(size) < size + 16 && AlignedSize(size) % 16 == 0
    ensures size > SIZE_LIMIT - 16 ==> AlignedSize(size) == 0
  {
    if size > SIZE_LIMIT - 16 {
      assert size + 15 == SIZE_LIMIT + (size + 15 - SIZE_LIMIT);
      assert (size + 15) % SIZE_LIMIT == size + 15 - SIZE_LIMIT;
    }
  }

  // ---------------------------------------------------------------- fetching a resource twice

  ghost predicate HasEntry(s: State, thread: Thread) {
    |s.chains| > 0 && Find(s.chains[HashOf(thread, |s.chains|)], thread).Some?
  }

  lemma HasEntryIff(s: State, thread: Thread)
    requires |s.chains| > 0
    ensures HasEntry(s, thread) <==> exists e :: e in s.chains[HashOf(thread, |s.chains|)] && e.thread == thread
  {
  }

  lemma SameThreadsHasEntry(s: State, r: State, thread: Thread)
    requires |s.chains| > 0 && HasEntry(s, thread) && SameThreads(s.chains, r.chains)
    ensures HasEntry(r, thread)
  {
    var i := HashOf(thread, |s.chains|);
    var k := Find(s.chains[i], thread).value;
    assert r.chains[i][k].thread == thread;
    assert r.chains[i][k] in r.chains[i];
  }

  lemma OnAllKeepsEntry(s: State, r: State, thread: Thread, types: seq<ResourceType>, op: Op)
    requires |s.chains| > 0 && HasEntry(s, thread) && Applicable(op, types)
    requires r.chains == OnTable(s.heap, s.chains, types, op, |s.chains|).1
    ensures HasEntry(r, thread)
  {
    OnTableDone(s.heap, s.chains, types, op, |s.chains|);
    TableDoneSameThreads(op, s.chains, r.chains, types, |s.chains|);
    SameThreadsHasEntry(s, r, thread);
  }

  lemma AppendKeepsEntry(s: State, r: State, thread: Thread, i: nat, e: Entry)
    requires HasEntry(s, thread) && i < |s.chains| && r.chains == s.chains[i := s.chains[i] + [e]]
    ensures HasEntry(r, thread)
  {
    HasEntryIff(s, thread);
    var a := HashOf(thread, |s.chains|);
    var f :| f in s.chains[a] && f.thread == thread;
    assert f in r.chains[a];
    HasEntryIff(r, thread);
  }

  lemma DropKeepsEntry(s: State, r: State, thread: Thread, i: nat, k: nat)
    requires HasEntry(s, thread) && i < |s.chains| && k < |s.chains[i]| && s.chains[i][k].thread != thread
    requires r.chains == Drop(s.chains, i, k)
    ensures HasEntry(r, thread)
  {
    var a := HashOf(thread, |s.chains|);
    var c := Find(s.chains[a], thread).value;
    var b := if a == i && c > k then c - 1 else c;
    assert r.chains[a][b] == s.chains[a][c];
    assert r.chains[a][b] in r.chains[a];
    HasEntryIff(r, thread);
  }

  lemma AddTypeKeepsEntry(s: State, t: ResourceType, thread: Thread)
    requires |s.chains| > 0 && s.idCount == |s.types| && HasEntry(s, thread)
    ensures HasEntry(AddType(s, t), thread)
  {
    OnAllKeepsEntry(s, AddType(s, t), thread, s.types + [t], Fill(s.idCount + 1));
  }

  lemma FastIdKeepsEntry(s: State, size: nat, ctor: bool, dtor: bool, thread: Thread)
    requires size < SIZE_LIMIT && s.reservedPos <= s.reservedSize && |s.chains| > 0 && s.idCount == |s.types|
    requires HasEntry(s, thread)
    ensures HasEntry(AllocateFastId(s, size, ctor, dtor), thread)
  {
    hide AddType;
    if FastFits(s, size) {
      var t := ResourceType(AlignedSize(size), ctor, dtor, ENTRY_SIZE + s.reservedPos, false);
      AddTypeKeepsEntry(s.(reservedPos := s.reservedPos + AlignedSize(size)), t, thread);
    }
  }

  lemma FreeIdKeepsEntry(s: State, id: nat, thread: Thread)
    requires |s.chains| > 0 && id < |s.types| && HasEntry(s, thread)
    ensures HasEntry(FreeId(s, id), thread)
  {
    OnAllKeepsEntry(s, FreeId(s, id), thread, s.types, Clear(id));
  }

  /** No step but the end of a thread takes its entry away. */
  lemma StepKeepsEntry(s: State, step: Step, thread: Thread)
    requires Can(s, step) && HasEntry(s, thread) && step != EndThread(thread)
    ensures HasEntry(Do(s, step), thread)
  {
    assert s.reservedPos <= s.reservedSize && |s.chains| > 0 && s.idCount == |s.types|;
    hide Inv, AllocateFastId, FreeId, FreeThread, Attach, AddType, HasEntry, FastFits;
    match step
    case Allocate(size, ctor, dtor) => AddTypeKeepsEntry(s, ResourceType(size, ctor, dtor, 0, false), thread);
    case AllocateFast(size, ctor, dtor) => FastIdKeepsEntry(s, size, ctor, dtor, thread);
    case Fetch(other) => FetchKeepsEntry(s, other, thread);
    case EndThread(other) =>
      FreeThreadKeeps(s, other);
      EndKeepsEntry(s, other, thread);
    case FreeResource(id) => FreeIdKeepsEntry(s, id - 1, thread);
  }

  lemma FetchKeepsEntry(s: State, other: Thread, thread: Thread)
    requires Inv(s) && HasEntry(s, thread)
    ensures HasEntry(Attach(s, other), thread)
  {
    hide Tracked;
    var i := HashOf(other, |s.chains|);
    if Find(s.chains[i], other).None? {
      var h, e := AttachNew(s, other);
      AppendKeepsEntry(s, Attach(s, other), thread, i, e);
    }
  }

  lemma EndKeepsEntry(s: State, other: Thread, thread: Thread)
    requires Inv(s) && HasEntry(s, thread) && other != thread && FreeThread.requires(s, other)
    ensures HasEntry(FreeThread(s, other), thread)
  {
    hide Tracked;
    var i := HashOf(other, |s.chains|);
    if k :| Find(s.chains[i], other) == Some(k) {
      DropKeepsEntry(s, FreeThread(s, other), thread, i, k);
    }
  }

  lemma {:induction false} RunKeepsEntry(s: State, steps: seq<Step>, thread: Thread)
    requires Inv(s) && Possible(s, steps) && HasEntry(s, thread) && EndThread(thread) !in steps
    ensures HasEntry(Run(s, steps), thread)
    decreases |steps|
  {
    if steps != [] {
      StepKeeps(s, steps[0]);
      StepKeepsEntry(s, steps[0], thread);
      RunKeepsEntry(Do(s, steps[0]), steps[1..], thread);
    }
  }

  lemma AttachedHasEntry(s: State, thread: Thread)
    requires Inv(s)
    ensures HasEntry(Attach(s, thread), thread)
  {
    var i := HashOf(thread, |s.chains|);
    if Find(s.chains[i], thread).None? {
      var h, e := AttachNew(s, thread);
      var r := Attach(s, thread);
      assert e in r.chains[i];
      HasEntryIff(r, thread);
    }
  }

  /** After making an entry the lock is given up and the fetch starts again. Whatever other threads do in
      between, it then finds the entry and changes nothing. */
  lemma SecondFetchFinds(s: State, thread: Thread, between: seq<Step>)
    requires Inv(s) && Possible(Attach(s, thread), between) && EndThread(thread) !in between
    ensures var r := Run(Attach(s, thread), between); Inv(r) && HasEntry(r, thread) && Attach(r, thread) == r
  {
    AttachKeeps(s, thread);
    AttachedHasEntry(s, thread);
    RunKeepsEntry(Attach(s, thread), between, thread);
    RunKeeps(Attach(s, thread), between);
  }

  // ---------------------------------------------------------------- the life of a block

  /** A block in a cell of the table was made once, for the id of the cell, and nothing else was done to it. */
  lemma LinkedBlocksAlive(s: State, i: int, k: int, e: Entry, j: int)
    requires Reachable(s) && At(s, i, k, e) && 0 <= j < |e.storage| && e.storage[j] != Null
    ensures j < |s.types|
    ensures var c := e.storage[j];
      History(s.heap.log, c) == [Alloc(j, c)] + (if s.types[j].ctor then [Ctor(c)] else [])
  {
    ReachableKeeps(s);
    InMembers(s.chains, i, k);
    assert CellAlive(s.heap, s.types, e, j);
  }

  /** Over any run: a block was never made, or is in a cell, or was made and then destructed and freed once
      each as its type says, in that order. Nothing ever happens twice and nothing after the end. */
  lemma BlockLife(s: State, c: Cell)
    requires Reachable(s) && c != Null
    ensures || History(s.heap.log, c) == []
            || (exists i, k, e :: At(s, i, k, e) && c in e.storage)
            || (exists id :: 0 <= id < |s.types| && DisposedOf(History(s.heap.log, c), s.types[id], id, c))
  {
    hide Reachable, History, DisposedOf, Birth, Death, Placed, AllSound, FastSound;
    ReachableKeeps(s);
    if Holds(Members(s.chains), c) {
      var e :| e in Members(s.chains) && c in e.storage;
      var i, k :| 0 <= i < |s.chains| && 0 <= k < |s.chains[i]| && s.chains[i][k] == e;
      assert At(s, i, k, e);
    } else if Ended(s.heap, s.types, c) {
      EndedIs(s.heap, s.types, c);
    }
  }

  lemma EndedIs(h: Heap, types: seq<ResourceType>, c: Cell)
    requires Ended(h, types, c)
    ensures exists id :: 0 <= id < |types| && DisposedOf(History(h.log, c), types[id], id, c)
  {
    hide History;
    var id :| 0 <= id < |types| && History(h.log, c) == Birth(types[id], id, c) + Death(types[id], c);
    assert DisposedOf(History(h.log, c), types[id], id, c);
  }

  /** Allocated, constructed, destructed and freed, as its type says, each once. */
  predicate DisposedOf(history: seq<Event>, t: ResourceType, id: nat, c: Cell) {
    history == [Alloc(id, c)] + (if t.ctor then [Ctor(c)] else [])
               + (if t.dtor then [Dtor(c)] else []) + (if t.fastOffset == 0 then [Free(c)] else [])
  }

  /** When shutdown completes, every block that was ever made has been destructed once if its type has a
      destructor, and freed exactly once if it is not a fast one. */
  lemma ShutdownLeaksNothing(s: State, c: Cell)
    requires Reachable(s) && c != Null
    ensures var log := Shutdown(s).heap.log;
      || History(log, c) == []
      || (exists id :: 0 <= id < |s.types| && DisposedOf(History(log, c), s.types[id], id, c))
  {
    hide Reachable, History, DisposedOf, Placed, AllSound, FastSound, Shutdown;
    ReachableKeeps(s);
    ShutdownEnds(s);
    var h := Shutdown(s).heap;
    assert !Holds({}, c);
    if Ended(h, s.types, c) {
      EndedIs(h, s.types, c);
    }
  }
}
