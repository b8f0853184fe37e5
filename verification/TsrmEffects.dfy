/** What each step does, told by places of the table and by whole histories of blocks. */
module TsrmEffects {
  import opened Collections
  import opened Tsrm
  import opened TsrmBlocks
  import opened TsrmTable
  import opened TsrmRuns

  /** The same threads at the same places. */
  ghost predicate SamePlaces(s: State, r: State) {
    |r.chains| == |s.chains| && forall i :: 0 <= i < |s.chains| ==> |r.chains[i]| == |s.chains[i]|
  }

  // ---------------------------------------------------------------- blocks an operation does not touch

  ghost predicate Untouched(op: Op, e: Entry, f: Entry, c: Cell) {
    match op
    case Fill(_) => |e.storage| <= |f.storage| && c !in f.storage[|e.storage|..]
    case Clear(j) => j < |e.storage| ==> e.storage[j] != c
    case ClearAll => false
  }

  lemma {:induction false} FillSpares(h: Heap, e: Entry, types: seq<ResourceType>, upto: nat, skip: bool, c: Cell)
    requires upto <= |types| && c != Null
    ensures var f := FillEntry(h, e, types, upto, skip).1;
      && e.storage <= f.storage
      && (c !in f.storage[|e.storage|..] ==> History(FillEntry(h, e, types, upto, skip).0.log, c) == History(h.log, c))
    decreases upto - |e.storage|
  {
    hide History, Birth, FillEntry;
    var j := |e.storage|;
    if j < upto {
      var h1, e1 := FillStep(h, e, types, upto, skip, c);
      FillSpares(h1, e1, types, upto, skip, c);
      var f := FillEntry(h1, e1, types, upto, skip).1;
      assert f.storage[j..] == [f.storage[j]] + f.storage[j + 1..];
    } else {
      FillEnds(h, e, types, upto, skip);
    }
  }

  lemma FillEnds(h: Heap, e: Entry, types: seq<ResourceType>, upto: nat, skip: bool)
    requires upto <= |types| && upto <= |e.storage|
    ensures FillEntry(h, e, types, upto, skip) == (h, e)
  {
  }

  lemma FillStep(h: Heap, e: Entry, types: seq<ResourceType>, upto: nat, skip: bool, c: Cell) returns (h1: Heap, e1: Entry)
    requires |e.storage| < upto <= |types|
    ensures FillEntry(h, e, types, upto, skip) == FillEntry(h1, e1, types, upto, skip)
    ensures |e1.storage| == |e.storage| + 1 && e.storage <= e1.storage
    ensures c != e1.storage[|e.storage|] ==> History(h1.log, c) == History(h.log, c)
  {
    hide History, Birth;
    var j := |e.storage|;
    var skipped := skip && types[j].done;
    var cell := if skipped then Null else NewCell(h, e.base, j, types[j]);
    h1, e1 := if skipped then h else MakeCell(h, e.base, j, types[j]), e.(storage := e.storage + [cell]);
    if !skipped && c != cell {
      MakeSpares(h, e.base, j, types[j], c);
    }
  }

  lemma MakeSpares(h: Heap, base: nat, id: nat, t: ResourceType, c: Cell)
    requires c != NewCell(h, base, id, t)
    ensures History(MakeCell(h, base, id, t).log, c) == History(h.log, c)
  {
    HistoryAfter(h.log, Birth(t, id, NewCell(h, base, id, t)), NewCell(h, base, id, t), c);
  }

  lemma ApplySpares(h: Heap, e: Entry, types: seq<ResourceType>, op: Op, c: Cell)
    requires Applicable(op, types) && c != Null && Untouched(op, e, Apply(h, e, types, op).1, c)
    ensures History(Apply(h, e, types, op).0.log, c) == History(h.log, c)
  {
    match op
    case Fill(upto) => FillSpares(h, e, types, upto, false, c);
    case Clear(j) =>
      if j < |e.storage| && e.storage[j] != Null {
        ClearedCell(h, e, types, j, c);
      }
  }

  lemma {:induction false} ChainSpares(h: Heap, chain: seq<Entry>, types: seq<ResourceType>, op: Op, n: nat, c: Cell)
    requires Applicable(op, types) && n <= |chain| && c != Null
    requires forall k :: 0 <= k < n ==> Untouched(op, chain[k], OnChain(h, chain, types, op, n).1[k], c)
    ensures History(OnChain(h, chain, types, op, n).0.log, c) == History(h.log, c)
  {
    hide History, Apply, Untouched;
    if n > 0 {
      var (h1, chain1) := OnChain(h, chain, types, op, n - 1);
      OnChainDone(h, chain, types, op, n - 1);
      assert forall k :: 0 <= k < n - 1 ==> OnChain(h, chain, types, op, n).1[k] == chain1[k];
      ChainSpares(h, chain, types, op, n - 1, c);
      ApplySpares(h1, chain1[n - 1], types, op, c);
    }
  }

  lemma {:induction false} TableSpares(h: Heap, chains: seq<seq<Entry>>, types: seq<ResourceType>, op: Op, n: nat, c: Cell)
    requires Applicable(op, types) && n <= |chains| && c != Null
    requires var after := OnTable(h, chains, types, op, n).1; forall i, k ::
      0 <= i < n && 0 <= k < |chains[i]| && k < |after[i]| ==> Untouched(op, chains[i][k], after[i][k], c)
    ensures History(OnTable(h, chains, types, op, n).0.log, c) == History(h.log, c)
  {
    hide History, OnChain, Untouched, Done;
    if n > 0 {
      var (h1, chains1) := OnTable(h, chains, types, op, n - 1);
      OnTableDone(h, chains, types, op, n - 1);
      assert chains1[n - 1] == chains[n - 1];
      var after := OnTable(h, chains, types, op, n).1;
      assert forall i :: 0 <= i < n - 1 ==> after[i] == chains1[i];
      TableSpares(h, chains, types, op, n - 1, c);
      OnChainDone(h1, chains1[n - 1], types, op, |chains[n - 1]|);
      ChainSpares(h1, chains1[n - 1], types, op, |chains[n - 1]|, c);
    }
  }

  // ---------------------------------------------------------------- freeing an id

  /** The id is done, and every thread has NULL for it; nothing else in the table changes. */
  lemma FreeIdChanges(s: State, id: nat)
    requires Inv(s) && id < |s.types| && id !in s.lost
    ensures var r := FreeId(s, id);
      && r == s.(types := s.types[id := s.types[id].(done := true)], chains := r.chains, heap := r.heap)
      && SamePlaces(s, r)
      && forall i, k, e :: At(s, i, k, e) ==>
          id < |e.storage| && At(r, i, k, e.(storage := e.storage[id := Null]))
    ensures Do(s, FreeResource(id + 1)) == FreeId(s, id)
  {
    hide Tracked, Placed, FastSound;
    OnTableDone(s.heap, s.chains, s.types, Clear(id), |s.chains|);
    var r := FreeId(s, id);
    assert SamePlaces(s, r) by {
      TableDoneSameThreads(Clear(id), s.chains, r.chains, s.types, |s.chains|);
    }
    forall i, k, e | At(s, i, k, e)
      ensures id < |e.storage| && At(r, i, k, e.(storage := e.storage[id := Null]))
    {
      AllSoundAt(s.chains, s.types, s.lost, i, k);
      DoneAt(Clear(id), s.chains, r.chains, s.types, i, k);
    }
  }

  lemma {:induction false} ChainClears(h: Heap, chain: seq<Entry>, types: seq<ResourceType>, id: nat, n: nat, k: nat, c: Cell)
    requires id < |types| && k < n <= |chain| && c != Null
    requires id < |chain[k].storage| && chain[k].storage[id] == c
    requires forall m :: 0 <= m < |chain| && m != k ==> Untouched(Clear(id), chain[m], chain[m], c)
    ensures History(OnChain(h, chain, types, Clear(id), n).0.log, c) == History(h.log, c) + Death(types[id], c)
  {
    hide History, Death;
    var (h1, chain1) := OnChain(h, chain, types, Clear(id), n - 1);
    OnChainDone(h, chain, types, Clear(id), n - 1);
    assert chain1[n - 1] == chain[n - 1];
    if k < n - 1 {
      ChainClears(h, chain, types, id, n - 1, k, c);
      ApplySpares(h1, chain1[n - 1], types, Clear(id), c);
    } else {
      ChainSpares(h, chain, types, Clear(id), n - 1, c);
      ClearedCell(h1, chain1[n - 1], types, id, c);
    }
  }

  lemma {:induction false} TableClears(h: Heap, chains: seq<seq<Entry>>, types: seq<ResourceType>, id: nat, n: nat,
                                       i: nat, k: nat, c: Cell)
    requires id < |types| && i < n <= |chains| && k < |chains[i]| && c != Null
    requires id < |chains[i][k].storage| && chains[i][k].storage[id] == c
    requires forall a, b :: 0 <= a < |chains| && 0 <= b < |chains[a]| && (a != i || b != k) ==>
      Untouched(Clear(id), chains[a][b], chains[a][b], c)
    ensures History(OnTable(h, chains, types, Clear(id), n).0.log, c) == History(h.log, c) + Death(types[id], c)
  {
    hide History, Death, OnChain, Done;
    var (h1, chains1) := OnTable(h, chains, types, Clear(id), n - 1);
    OnTableDone(h, chains, types, Clear(id), n - 1);
    assert chains1[n - 1] == chains[n - 1];
    if i < n - 1 {
      TableClears(h, chains, types, id, n - 1, i, k, c);
      ChainSpares(h1, chains1[n - 1], types, Clear(id), |chains[n - 1]|, c);
    } else {
      TableSpares(h, chains, types, Clear(id), n - 1, c);
      ChainClears(h1, chains1[n - 1], types, id, |chains[n - 1]|, k, c);
    }
  }

  /** The block of each thread is destructed if its type has a destructor, and freed unless it is a fast one. */
  lemma FreeIdDisposes(s: State, id: nat, i: int, k: int, e: Entry)
    requires Inv(s) && id < |s.types| && id !in s.lost && At(s, i, k, e)
    requires id < |e.storage| && e.storage[id] != Null
    ensures var c, t := e.storage[id], s.types[id];
      History(FreeId(s, id).heap.log, c)
      == History(s.heap.log, c) + (if t.dtor then [Dtor(c)] else []) + (if t.fastOffset == 0 then [Free(c)] else [])
  {
    var c := e.storage[id];
    hide Placed, FastSound, AllSound, History;
    forall a, b | 0 <= a < |s.chains| && 0 <= b < |s.chains[a]| && (a != i || b != k)
      ensures Untouched(Clear(id), s.chains[a][b], s.chains[a][b], c)
    {
      NotSharedElsewhere(s, i, k, a, b, c);
    }
    TableClears(s.heap, s.chains, s.types, id, |s.chains|, i, k, c);
  }

  lemma NotSharedElsewhere(s: State, i: nat, k: nat, a: nat, b: nat, c: Cell)
    requires Inv(s) && i < |s.chains| && k < |s.chains[i]| && a < |s.chains| && b < |s.chains[a]| && (a != i || b != k)
    requires c != Null && c in s.chains[i][k].storage
    ensures c !in s.chains[a][b].storage
  {
    InMembers(s.chains, i, k);
    InMembers(s.chains, a, b);
    if s.chains[i][k] == s.chains[a][b] {
      PlacesDiffer(s.chains, i, k, a, b);
    }
  }

  /** All other blocks are left alone. */
  lemma FreeIdSpares(s: State, id: nat, c: Cell)
    requires Inv(s) && id < |s.types| && c != Null
    requires forall i, k, e :: At(s, i, k, e) && id < |e.storage| ==> e.storage[id] != c
    ensures History(FreeId(s, id).heap.log, c) == History(s.heap.log, c)
  {
    hide Inv, History;
    forall i, k | 0 <= i < |s.chains| && 0 <= k < |s.chains[i]|
      ensures forall f :: Untouched(Clear(id), s.chains[i][k], f, c)
    {
      assert At(s, i, k, s.chains[i][k]);
    }
    TableSpares(s.heap, s.chains, s.types, Clear(id), |s.chains|, c);
  }

  // ---------------------------------------------------------------- the end of a thread

  /** The entry of the thread is gone and the others keep their order. */
  lemma EndThreadChanges(s: State, i: int, k: int, e: Entry)
    requires Inv(s) && At(s, i, k, e) && FreeThread.requires(s, e.thread)
    ensures var r := FreeThread(s, e.thread);
      && r == s.(chains := s.chains[i := s.chains[i][..k] + s.chains[i][k + 1..]], heap := r.heap)
      && forall a, b, f :: At(r, a, b, f) ==> f.thread != e.thread
    ensures Do(s, EndThread(e.thread)) == FreeThread(s, e.thread)
  {
    hide Tracked, AllSound, FastSound, Placed;
    FindsEntry(s, i, k, e);
    var r := FreeThread(s, e.thread);
    forall a, b, f | At(r, a, b, f)
      ensures f.thread != e.thread
    {
      DropAt(s.chains, i, k, a, b);
      var c := if a == i && b >= k then b + 1 else b;
      if s.chains[a][c].thread == e.thread {
        PlacesDiffer(s.chains, i, k, a, c);
      }
    }
  }

  lemma FindsEntry(s: State, i: int, k: int, e: Entry)
    requires Placed(s.chains) && At(s, i, k, e)
    ensures i == HashOf(e.thread, |s.chains|) && Find(s.chains[i], e.thread) == Some(k)
  {
    assert s.chains[i][k].thread % |s.chains| == i;
    var f := Find(s.chains[i], e.thread);
    assert s.chains[i][k] in s.chains[i];
  }

  lemma EndHistory(s: State, i: int, k: int, e: Entry, c: Cell)
    requires Inv(s) && At(s, i, k, e) && FreeThread.requires(s, e.thread)
    ensures |e.storage| <= |s.types|
    ensures var n := |e.storage|;
      History(FreeThread(s, e.thread).heap.log, c)
      == History(s.heap.log, c) + History(Dtors(e.storage, s.types, n), c) + History(Frees(e.storage, s.types, n), c)
  {
    hide Tracked, AllSound, FastSound, History, Dtors, Frees;
    FindsEntry(s, i, k, e);
    var n := |e.storage|;
    var d, f := Dtors(e.storage, s.types, n), Frees(e.storage, s.types, n);
    HistoryAppend(s.heap.log + d, f, c);
    HistoryAppend(s.heap.log, d, c);
  }

  /** Each block of the thread is destructed and freed once, as its type says. */
  lemma EndThreadDisposes(s: State, i: int, k: int, e: Entry, j: nat)
    requires Inv(s) && At(s, i, k, e) && FreeThread.requires(s, e.thread)
    requires j < |e.storage| && e.storage[j] != Null && |e.storage| <= |s.types|
    ensures var c, t := e.storage[j], s.types[j];
      History(FreeThread(s, e.thread).heap.log, c)
      == History(s.heap.log, c) + (if t.dtor then [Dtor(c)] else []) + (if t.fastOffset == 0 then [Free(c)] else [])
  {
    var c, n := e.storage[j], |e.storage|;
    EndHistory(s, i, k, e, c);
    InMembers(s.chains, i, k);
    AliveCellsDiffer(s.heap, s.types, Members(s.chains), e);
    DtorsOf(e.storage, s.types, n, c, j);
    FreesOf(e.storage, s.types, n, c, j);
  }

  lemma EndThreadSpares(s: State, i: int, k: int, e: Entry, c: Cell)
    requires Inv(s) && At(s, i, k, e) && FreeThread.requires(s, e.thread) && c !in e.storage
    ensures History(FreeThread(s, e.thread).heap.log, c) == History(s.heap.log, c)
  {
    var n := |e.storage|;
    EndHistory(s, i, k, e, c);
    EndOfOthers(e.storage, s.types, n);
    HistoryOfOthers(Dtors(e.storage, s.types, n), c);
    HistoryOfOthers(Frees(e.storage, s.types, n), c);
  }

  /** All destructors run before anything is freed. */
  lemma EndThreadOrder(s: State, i: int, k: int, e: Entry) returns (d: seq<Event>, f: seq<Event>)
    requires Inv(s) && At(s, i, k, e) && FreeThread.requires(s, e.thread)
    ensures FreeThread(s, e.thread).heap.log == s.heap.log + d + f
    ensures (forall ev :: ev in d ==> ev.Dtor?) && (forall ev :: ev in f ==> ev.Free?)
  {
    hide Tracked, AllSound, FastSound, Dtors, Frees;
    FindsEntry(s, i, k, e);
    var n := |e.storage|;
    d, f := Dtors(e.storage, s.types, n), Frees(e.storage, s.types, n);
    KindsOfEnd(e.storage, s.types, n);
  }

  lemma {:induction false} KindsOfEnd(storage: seq<Cell>, types: seq<ResourceType>, n: nat)
    requires n <= |storage| <= |types|
    ensures (forall ev :: ev in Dtors(storage, types, n) ==> ev.Dtor?)
    ensures (forall ev :: ev in Frees(storage, types, n) ==> ev.Free?)
  {
    if n > 0 {
      KindsOfEnd(storage, types, n - 1);
    }
  }

  /** Without an entry nothing happens. */
  lemma EndOfNobody(s: State, thread: Thread)
    requires Inv(s) && FreeThread.requires(s, thread) && forall i, k, e :: At(s, i, k, e) ==> e.thread != thread
    ensures FreeThread(s, thread) == s
  {
    hide Tracked, AllSound, FastSound;
    var i := HashOf(thread, |s.chains|);
    assert forall k :: 0 <= k < |s.chains[i]| ==> At(s, i, k, s.chains[i][k]);
  }

  // ---------------------------------------------------------------- a new id

  /** A block in a cell was allocated for its id, and constructed if its type has a constructor; nothing else happened to
      it. */
  lemma MadeOnce(s: State, i: int, k: int, e: Entry, j: nat)
    requires Inv(s) && At(s, i, k, e) && j < |e.storage| && e.storage[j] != Null
    ensures j < |s.types|
    ensures var c := e.storage[j];
      History(s.heap.log, c) == [Alloc(j, c)] + (if s.types[j].ctor then [Ctor(c)] else [])
  {
    InMembers(s.chains, i, k);
    assert CellAlive(s.heap, s.types, e, j);
  }

  /** What recording a type does to one entry: it keeps its cells and gets those it lacks. */
  ghost predicate Extended(r: State, e: Entry, f: Entry) {
    && f == e.(storage := f.storage) && e.storage <= f.storage && |f.storage| == r.idCount == |r.types|
    && forall j :: |e.storage| <= j < |f.storage| ==>
        && (if r.types[j].fastOffset != 0 then f.storage[j] == Fast(e.base, j, r.types[j].fastOffset)
            else f.storage[j].Block?)
        && History(r.heap.log, f.storage[j])
           == [Alloc(j, f.storage[j])] + (if r.types[j].ctor then [Ctor(f.storage[j])] else [])
  }

  lemma AddTypeChanges(s: State, t: ResourceType)
    requires Inv(s) && Inv(AddType(s, t)) && !t.done
    ensures var r := AddType(s, t);
      && r == s.(idCount := s.idCount + 1, types := s.types + [t], chains := r.chains, heap := r.heap)
      && SamePlaces(s, r)
      && forall i, k, e :: At(s, i, k, e) ==> Extended(r, e, r.chains[i][k])
  {
    hide Tracked, Placed, FastSound, History, Done;
    var op, types := Fill(s.idCount + 1), s.types + [t];
    var r := AddType(s, t);
    OnTableDone(s.heap, s.chains, types, op, |s.chains|);
    assert SamePlaces(s, r) by {
      TableDoneSameThreads(op, s.chains, r.chains, types, |s.chains|);
    }
    forall i, k, e | At(s, i, k, e)
      ensures Extended(r, e, r.chains[i][k])
    {
      AllSoundAt(s.chains, s.types, s.lost, i, k);
      DoneAt(op, s.chains, r.chains, types, i, k);
      ExtendedAt(s, r, i, k, e, types);
    }
  }

  lemma ExtendedAt(s: State, r: State, i: int, k: int, e: Entry, types: seq<ResourceType>)
    requires Inv(r) && r.types == types && r.idCount == |types| && 0 <= i < |r.chains| && 0 <= k < |r.chains[i]|
    requires |e.storage| <= |types| && Done(Fill(|types|), e, r.chains[i][k], types)
    ensures Extended(r, e, r.chains[i][k])
  {
    hide Tracked, Placed, FastSound, History, AllSound;
    var f := r.chains[i][k];
    forall j | |e.storage| <= j < |f.storage|
      ensures History(r.heap.log, f.storage[j])
        == [Alloc(j, f.storage[j])] + (if r.types[j].ctor then [Ctor(f.storage[j])] else [])
    {
      assert RightKind(f.storage[j], e.base, j, types[j]);
      MadeOnce(r, i, k, f, j);
    }
  }

  /** The new id is the next one and its type is recorded. Every thread gets a new block for it, allocated and
      constructed. */
  lemma AllocateIdChanges(s: State, size: nat, ctor: bool, dtor: bool)
    requires Inv(s)
    ensures var r := AllocateId(s, size, ctor, dtor);
      && r == s.(idCount := s.idCount + 1, types := s.types + [ResourceType(size, ctor, dtor, 0, false)],
                 chains := r.chains, heap := r.heap)
      && SamePlaces(s, r)
      && forall i, k, e :: At(s, i, k, e) ==> Extended(r, e, r.chains[i][k])
    ensures Do(s, Allocate(size, ctor, dtor)) == AllocateId(s, size, ctor, dtor)
  {
    hide Inv, AddType, Extended;
    AllocateIdKeeps(s, size, ctor, dtor);
    AddTypeChanges(s, ResourceType(size, ctor, dtor, 0, false));
  }

  /** With space the same for a fast id, whose blocks lie in the entries behind the header of 32 bytes and what was handed
      out of the reserved area; without space an id is used up and nothing else changes. */
  lemma AllocateFastIdChanges(s: State, size: nat, ctor: bool, dtor: bool)
    requires Inv(s) && size < SIZE_LIMIT
    ensures var r, aligned := AllocateFastId(s, size, ctor, dtor), AlignedSize(size);
      if aligned <= s.reservedSize - s.reservedPos then
        && r == s.(idCount := s.idCount + 1, reservedPos := s.reservedPos + aligned,
                   types := s.types + [ResourceType(aligned, ctor, dtor, 32 + s.reservedPos, false)],
                   chains := r.chains, heap := r.heap)
        && SamePlaces(s, r)
        && forall i, k, e :: At(s, i, k, e) ==> Extended(r, e, r.chains[i][k])
      else
        && r == s.(idCount := s.idCount + 1, types := r.types, lost := r.lost)
        && r.types == (if s.idCount < s.zeroed then s.types + [ResourceType(0, false, false, 0, false)] else s.types)
        && r.lost == (if s.idCount < s.zeroed then s.lost + {s.idCount} else s.lost)
    ensures Can(s, AllocateFast(size, ctor, dtor)) ==>
      Do(s, AllocateFast(size, ctor, dtor)) == AllocateFastId(s, size, ctor, dtor)
  {
    if FastFits(s, size) {
      var s1 := s.(reservedPos := s.reservedPos + AlignedSize(size));
      var t := ResourceType(AlignedSize(size), ctor, dtor, 32 + s.reservedPos, false);
      FastIdIs(s, size, ctor, dtor);
      FastIdKeeps(s, size, ctor, dtor);
      FastSoundMore(s.types, s.reservedPos, s.reservedSize, t);
      hide AddType, Extended, Tracked, Placed, FastSound, AllSound, AllocateFastId;
      AddTypeChanges(s1, t);
      assert forall i, k, e :: At(s, i, k, e) ==> At(s1, i, k, e);
    }
  }

  /** Blocks that are in no new cell are left alone. */
  lemma AddTypeSpares(s: State, t: ResourceType, c: Cell)
    requires Inv(s) && c != Null
    requires var r := AddType(s, t); forall i, k, e :: At(s, i, k, e) && k < |r.chains[i]| ==>
      var f := r.chains[i][k]; |e.storage| <= |f.storage| && c !in f.storage[|e.storage|..]
    ensures History(AddType(s, t).heap.log, c) == History(s.heap.log, c)
  {
    var op, types := Fill(s.idCount + 1), s.types + [t];
    var after := OnTable(s.heap, s.chains, types, op, |s.chains|).1;
    assert after == AddType(s, t).chains;
    hide History, Inv, OnTable;
    forall i, k | 0 <= i < |s.chains| && 0 <= k < |s.chains[i]| && k < |after[i]|
      ensures Untouched(op, s.chains[i][k], after[i][k], c)
    {
      assert At(s, i, k, s.chains[i][k]);
    }
    TableSpares(s.heap, s.chains, types, op, |s.chains|, c);
  }

  // ---------------------------------------------------------------- a new entry

  /** A thread without an entry gets one at the end of its chain, with a new block, allocated and constructed, for every id
      that is not done. */
  lemma FetchChanges(s: State, thread: Thread) returns (e: Entry)
    requires Inv(s) && forall i, k, f :: At(s, i, k, f) ==> f.thread != thread
    ensures var r, i := Attach(s, thread), thread % |s.chains|;
      && r == s.(chains := s.chains[i := s.chains[i] + [e]], heap := r.heap)
      && e.thread == thread && |e.storage| == s.idCount
      && forall j :: 0 <= j < s.idCount ==>
          if s.types[j].done then e.storage[j] == Null
          else
            && (if s.types[j].fastOffset != 0 then e.storage[j] == Fast(e.base, j, s.types[j].fastOffset)
                else e.storage[j].Block?)
            && History(r.heap.log, e.storage[j])
               == [Alloc(j, e.storage[j])] + (if s.types[j].ctor then [Ctor(e.storage[j])] else [])
    ensures Do(s, Fetch(thread)) == Attach(s, thread)
  {
    hide Tracked, Placed, FastSound, History;
    var i := thread % |s.chains|;
    assert forall k :: 0 <= k < |s.chains[i]| ==> At(s, i, k, s.chains[i][k]);
    var h, f := AttachNew(s, thread);
    e := f;
    Complete(e, s.types, s.lost);
    AttachKeeps(s, thread);
    var r := Attach(s, thread);
    forall j: nat | j < s.idCount && !s.types[j].done
      ensures History(r.heap.log, e.storage[j])
        == [Alloc(j, e.storage[j])] + (if s.types[j].ctor then [Ctor(e.storage[j])] else [])
    {
      assert At(r, i, |s.chains[i]|, e);
      MadeOnce(r, i, |s.chains[i]|, e, j);
    }
  }

  /** A thread with an entry keeps it, and nothing happens. */
  lemma FetchAgain(s: State, i: int, k: int, e: Entry)
    requires Inv(s) && At(s, i, k, e)
    ensures Attach(s, e.thread) == s
  {
    hide Tracked, AllSound, FastSound;
    FindsEntry(s, i, k, e);
  }

  lemma FetchSpares(s: State, thread: Thread, c: Cell)
    requires Inv(s) && c != Null
    requires forall i, k, e :: At(Attach(s, thread), i, k, e) && c in e.storage ==> At(s, i, k, e)
    ensures History(Attach(s, thread).heap.log, c) == History(s.heap.log, c)
  {
    hide Tracked, Placed, FastSound, History, AllSound;
    var i := HashOf(thread, |s.chains|);
    if Find(s.chains[i], thread).None? {
      var h0, e0 := Heap(s.heap.next + 1, s.heap.log), Entry(s.heap.next, thread, []);
      FillSpares(h0, e0, s.types, s.idCount, true, c);
      var f := FillEntry(h0, e0, s.types, s.idCount, true).1;
      assert At(Attach(s, thread), i, |s.chains[i]|, f);
      assert f.storage[0..] == f.storage;
    }
  }
}
