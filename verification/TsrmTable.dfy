/** What every step keeps true of the table, whatever threads take the steps and in whatever order. */
module TsrmTable {
  import opened Collections
  import opened Tsrm
  import opened TsrmBlocks

  // ---------------------------------------------------------------- the invariant

  /** Every entry is in the chain of its thread, and no thread has two. */
  ghost predicate Placed(chains: seq<seq<Entry>>) {
    && (forall i, k :: 0 <= i < |chains| && 0 <= k < |chains[i]| ==> chains[i][k].thread % |chains| == i)
    && (forall i, k, l :: 0 <= i < |chains| && 0 <= k < l < |chains[i]| ==> chains[i][k].thread != chains[i][l].thread)
  }

  ghost function Members(chains: seq<seq<Entry>>): set<Entry> {
    set i, k | 0 <= i < |chains| && 0 <= k < |chains[i]| :: chains[i][k]
  }

  /** The cell a live id has in an entry. */
  ghost predicate RightKind(c: Cell, base: nat, j: nat, t: ResourceType) {
    if t.fastOffset != 0 then c == Fast(base, j, t.fastOffset) else c.Block?
  }

  /** One cell per id: null exactly when the id is done. Only for lost ids may a cell be missing yet. */
  ghost predicate EntrySound(e: Entry, types: seq<ResourceType>, lost: set<nat>) {
    && |e.storage| <= |types|
    && (forall j: nat :: |e.storage| <= j < |types| ==> j in lost)
    && CellsRight(e, types)
  }

  ghost predicate CellsRight(e: Entry, types: seq<ResourceType>)
    requires |e.storage| <= |types|
  {
    forall j :: 0 <= j < |e.storage| ==>
      if types[j].done then e.storage[j] == Null else RightKind(e.storage[j], e.base, j, types[j])
  }

  /** A lost id has the type of a zeroed place, and is not done. */
  ghost predicate LostSound(types: seq<ResourceType>, lost: set<nat>) {
    forall j :: j in lost ==> j < |types| && types[j] == UNTYPED
  }

  /** Fast resources occupy disjoint aligned ranges of the reserved area, which follows the entry header. */
  ghost predicate FastSound(types: seq<ResourceType>, pos: nat, size: nat) {
    && pos <= size && pos % 16 == 0
    && (forall j :: 0 <= j < |types| && types[j].fastOffset != 0 ==>
          types[j].fastOffset % 16 == 0 && ENTRY_SIZE <= types[j].fastOffset
          && types[j].fastOffset + types[j].size <= ENTRY_SIZE + pos)
    && (forall j, k :: 0 <= j < k < |types| && types[j].fastOffset != 0 && types[k].fastOffset != 0 ==>
          types[j].fastOffset + types[j].size <= types[k].fastOffset)
  }

  ghost predicate AllSound(chains: seq<seq<Entry>>, types: seq<ResourceType>, lost: set<nat>) {
    forall i, k :: 0 <= i < |chains| && 0 <= k < |chains[i]| ==> EntrySound(chains[i][k], types, lost)
  }

  ghost predicate Inv(s: State) {
    && |s.chains| > 0 && s.idCount == |s.types|
    && Placed(s.chains)
    && AllSound(s.chains, s.types, s.lost) && LostSound(s.types, s.lost)
    && FastSound(s.types, s.reservedPos, s.reservedSize)
    && Tracked(s.heap, s.types, Members(s.chains))
  }

  // ---------------------------------------------------------------- what an operation makes of an entry

  ghost predicate Done(op: Op, e: Entry, f: Entry, types: seq<ResourceType>) {
    && f == e.(storage := f.storage)
    && match op
       case Fill(upto) =>
         && |f.storage| == (if |e.storage| < upto then upto else |e.storage|) && e.storage <= f.storage
         && (forall j :: |e.storage| <= j < |f.storage| && j < |types| ==> RightKind(f.storage[j], e.base, j, types[j]))
       case Clear(j) => f.storage == if j < |e.storage| then e.storage[j := Null] else e.storage
       case ClearAll =>
         && |f.storage| == |e.storage|
         && (|e.storage| <= |types| ==> forall j :: 0 <= j < |e.storage| ==> f.storage[j] == Null)
  }

  lemma {:induction false} FillDone(h: Heap, e: Entry, types: seq<ResourceType>, upto: nat)
    requires upto <= |types|
    ensures Done(Fill(upto), e, FillEntry(h, e, types, upto, false).1, types)
    decreases upto - |e.storage|
  {
    var j := |e.storage|;
    if j < upto {
      FillDone(MakeCell(h, e.base, j, types[j]),
               e.(storage := e.storage + [NewCell(h, e.base, j, types[j])]), types, upto);
    }
  }

  lemma ApplyDone(h: Heap, e: Entry, types: seq<ResourceType>, op: Op)
    requires Applicable(op, types)
    ensures Done(op, e, Apply(h, e, types, op).1, types)
  {
    match op
    case Fill(upto) => FillDone(h, e, types, upto);
    case Clear(j) =>
    case ClearAll => ClearCellsShape(h, e, types, if |e.storage| <= |types| then |e.storage| else |types|);
  }

  ghost predicate ReadyFor(op: Op, e: Entry, types: seq<ResourceType>) {
    op.ClearAll? ==> NullIfDone(e, types)
  }

  lemma ApplyTracked(h: Heap, es: set<Entry>, e: Entry, types: seq<ResourceType>, op: Op)
    requires Applicable(op, types) && Tracked(h, types, es) && e in es && ReadyFor(op, e, types)
    ensures var (h', e') := Apply(h, e, types, op); Tracked(h', types, Replace(es, e, e'))
  {
    match op
    case Fill(upto) => FillTracked(h, types, es, e, upto, false);
    case Clear(j) => ClearTracked(h, types, es, e, j);
    case ClearAll => ClearCellsTracked(h, types, es, e, if |e.storage| <= |types| then |e.storage| else |types|);
  }

  // ---------------------------------------------------------------- an operation on all entries

  ghost predicate SameThreads(chains: seq<seq<Entry>>, other: seq<seq<Entry>>) {
    && |chains| == |other|
    && (forall i :: 0 <= i < |chains| ==> |chains[i]| == |other[i]|)
    && (forall i, k :: 0 <= i < |chains| && 0 <= k < |chains[i]| ==> chains[i][k].thread == other[i][k].thread)
  }

  lemma SameThreadsPlaced(chains: seq<seq<Entry>>, other: seq<seq<Entry>>)
    requires Placed(chains) && SameThreads(chains, other)
    ensures Placed(other)
  {
    forall i, k | 0 <= i < |other| && 0 <= k < |other[i]|
      ensures other[i][k].thread % |other| == i
    {
      assert chains[i][k].thread % |chains| == i;
    }
    forall i, k, l | 0 <= i < |other| && 0 <= k < l < |other[i]|
      ensures other[i][k].thread != other[i][l].thread
    {
      assert chains[i][k].thread != chains[i][l].thread;
    }
  }

  lemma InMembers(chains: seq<seq<Entry>>, i: nat, k: nat)
    requires i < |chains| && k < |chains[i]|
    ensures chains[i][k] in Members(chains)
  {
  }

  /** Entries at different places belong to different threads. */
  lemma PlacesDiffer(chains: seq<seq<Entry>>, i: nat, k: nat, a: nat, b: nat)
    requires Placed(chains) && i < |chains| && k < |chains[i]| && a < |chains| && b < |chains[a]|
    requires chains[i][k].thread == chains[a][b].thread
    ensures i == a && k == b
  {
    assert chains[i][k].thread % |chains| == i && chains[a][b].thread % |chains| == a;
  }

  lemma MembersReplace(chains: seq<seq<Entry>>, i: nat, k: nat, f: Entry)
    requires Placed(chains) && i < |chains| && k < |chains[i]| && f.thread == chains[i][k].thread
    ensures Members(chains[i := chains[i][k := f]]) == Replace(Members(chains), chains[i][k], f)
  {
    var e := chains[i][k];
    var other := chains[i := chains[i][k := f]];
    forall a, b | 0 <= a < |other| && 0 <= b < |other[a]|
      ensures other[a][b] in Replace(Members(chains), e, f)
    {
      if !(a == i && b == k) {
        assert other[a][b] == chains[a][b];
        InMembers(chains, a, b);
        if chains[a][b] == e {
          PlacesDiffer(chains, i, k, a, b);
        }
      }
    }
    forall x | x in Replace(Members(chains), e, f)
      ensures x in Members(other)
    {
      if x == f {
        assert other[i][k] == f;
      } else {
        var a, b :| 0 <= a < |chains| && 0 <= b < |chains[a]| && chains[a][b] == x;
        assert other[a][b] == x;
      }
    }
  }

  /** `op` was done to the first `n` entries and the others are as they were. */
  ghost predicate DoneOn(op: Op, before: seq<Entry>, after: seq<Entry>, types: seq<ResourceType>, n: nat) {
    && |before| == |after|
    && forall k :: 0 <= k < |before| ==> if k < n then Done(op, before[k], after[k], types) else after[k] == before[k]
  }

  lemma {:induction false} OnChainDone(h: Heap, chain: seq<Entry>, types: seq<ResourceType>, op: Op, n: nat)
    requires Applicable(op, types) && n <= |chain|
    ensures DoneOn(op, chain, OnChain(h, chain, types, op, n).1, types, n)
  {
    if n > 0 {
      OnChainDone(h, chain, types, op, n - 1);
      var (h1, chain1) := OnChain(h, chain, types, op, n - 1);
      ApplyDone(h1, chain1[n - 1], types, op);
    }
  }

  ghost predicate DoneOnAll(op: Op, before: seq<seq<Entry>>, after: seq<seq<Entry>>, types: seq<ResourceType>, n: nat) {
    && |before| == |after|
    && forall i :: 0 <= i < |before| ==>
        if i < n then DoneOn(op, before[i], after[i], types, |before[i]|) else after[i] == before[i]
  }

  lemma {:induction false} OnTableDone(h: Heap, chains: seq<seq<Entry>>, types: seq<ResourceType>, op: Op, n: nat)
    requires Applicable(op, types) && n <= |chains|
    ensures DoneOnAll(op, chains, OnTable(h, chains, types, op, n).1, types, n)
  {
    if n > 0 {
      OnTableDone(h, chains, types, op, n - 1);
      var (h1, chains1) := OnTable(h, chains, types, op, n - 1);
      OnChainDone(h1, chains1[n - 1], types, op, |chains1[n - 1]|);
    }
  }

  lemma ChainDoneSameThreads(op: Op, chains: seq<seq<Entry>>, i: nat, after: seq<Entry>, types: seq<ResourceType>, n: nat)
    requires i < |chains| && DoneOn(op, chains[i], after, types, n)
    ensures SameThreads(chains, chains[i := after])
  {
    forall a, k | 0 <= a < |chains| && 0 <= k < |chains[a]|
      ensures chains[a][k].thread == chains[i := after][a][k].thread
    {
      if a == i && k < n {
        assert Done(op, chains[i][k], after[k], types);
      }
    }
  }

  lemma TableDoneSameThreads(op: Op, chains: seq<seq<Entry>>, after: seq<seq<Entry>>, types: seq<ResourceType>, n: nat)
    requires DoneOnAll(op, chains, after, types, n)
    ensures SameThreads(chains, after)
  {
    forall a, k | 0 <= a < |chains| && 0 <= k < |chains[a]|
      ensures chains[a][k].thread == after[a][k].thread
    {
      if a < n {
        assert DoneOn(op, chains[a], after[a], types, |chains[a]|);
        assert Done(op, chains[a][k], after[a][k], types);
      }
    }
  }

  /** One more entry of chain `i`, seen on the whole table. */
  lemma OneEntryTracked(h: Heap, chains: seq<seq<Entry>>, types: seq<ResourceType>, op: Op, i: nat, k: nat)
    requires Applicable(op, types) && i < |chains| && k < |chains[i]|
    requires Placed(chains) && Tracked(h, types, Members(chains)) && ReadyFor(op, chains[i][k], types)
    ensures var (h', f) := Apply(h, chains[i][k], types, op);
      Tracked(h', types, Members(chains[i := chains[i][k := f]]))
  {
    var e := chains[i][k];
    InMembers(chains, i, k);
    ApplyTracked(h, Members(chains), e, types, op);
    ApplyDone(h, e, types, op);
    MembersReplace(chains, i, k, Apply(h, e, types, op).1);
  }

  lemma {:induction false} OnChainTracked(h: Heap, chains: seq<seq<Entry>>, types: seq<ResourceType>, op: Op,
                                          i: nat, n: nat)
    requires Applicable(op, types) && i < |chains| && n <= |chains[i]|
    requires Placed(chains) && Tracked(h, types, Members(chains))
    requires forall k :: 0 <= k < |chains[i]| ==> ReadyFor(op, chains[i][k], types)
    ensures var (h', chain) := OnChain(h, chains[i], types, op, n); Tracked(h', types, Members(chains[i := chain]))
  {
    hide Tracked;
    if n == 0 {
      assert chains[i := chains[i]] == chains;
    } else {
      OnChainTracked(h, chains, types, op, i, n - 1);
      var (h1, chain) := OnChain(h, chains[i], types, op, n - 1);
      var chains1 := chains[i := chain];
      assert Placed(chains1) && chain[n - 1] == chains[i][n - 1] by {
        OnChainDone(h, chains[i], types, op, n - 1);
        ChainDoneSameThreads(op, chains, i, chain, types, n - 1);
        SameThreadsPlaced(chains, chains1);
      }
      OneEntryTracked(h1, chains1, types, op, i, n - 1);
      var f := Apply(h1, chain[n - 1], types, op).1;
      assert chains1[i := chains1[i][n - 1 := f]] == chains[i := chain[n - 1 := f]];
    }
  }

  lemma {:induction false} OnTableTracked(h: Heap, chains: seq<seq<Entry>>, types: seq<ResourceType>, op: Op, n: nat)
    requires Applicable(op, types) && n <= |chains|
    requires Placed(chains) && Tracked(h, types, Members(chains))
    requires forall i, k :: 0 <= i < |chains| && 0 <= k < |chains[i]| ==> ReadyFor(op, chains[i][k], types)
    ensures var (h', chains') := OnTable(h, chains, types, op, n); Tracked(h', types, Members(chains'))
  {
    hide Tracked, Placed, Members, OnChain;
    if n > 0 {
      OnTableTracked(h, chains, types, op, n - 1);
      var (h1, chains1) := OnTable(h, chains, types, op, n - 1);
      OnTableDone(h, chains, types, op, n - 1);
      TableDoneSameThreads(op, chains, chains1, types, n - 1);
      SameThreadsPlaced(chains, chains1);
      OnChainTracked(h1, chains1, types, op, n - 1, |chains1[n - 1]|);
    }
  }

  lemma OnTableKeeps(h: Heap, chains: seq<seq<Entry>>, types: seq<ResourceType>, op: Op)
    requires Applicable(op, types)
    requires Placed(chains) && Tracked(h, types, Members(chains))
    requires forall i, k :: 0 <= i < |chains| && 0 <= k < |chains[i]| ==> ReadyFor(op, chains[i][k], types)
    ensures var (h', chains') := OnTable(h, chains, types, op, |chains|);
      Placed(chains') && Tracked(h', types, Members(chains')) && DoneOnAll(op, chains, chains', types, |chains|)
  {
    var chains' := OnTable(h, chains, types, op, |chains|).1;
    OnTableTracked(h, chains, types, op, |chains|);
    OnTableDone(h, chains, types, op, |chains|);
    TableDoneSameThreads(op, chains, chains', types, |chains|);
    SameThreadsPlaced(chains, chains');
  }

  lemma DoneAt(op: Op, before: seq<seq<Entry>>, after: seq<seq<Entry>>, types: seq<ResourceType>, i: nat, k: nat)
    requires DoneOnAll(op, before, after, types, |before|) && i < |after| && k < |after[i]|
    ensures |before| == |after| && k < |before[i]| && Done(op, before[i][k], after[i][k], types)
  {
    assert DoneOn(op, before[i], after[i], types, |before[i]|);
  }

  // ---------------------------------------------------------------- the steps keep the invariant

  lemma AllSoundAt(chains: seq<seq<Entry>>, types: seq<ResourceType>, lost: set<nat>, i: nat, k: nat)
    requires AllSound(chains, types, lost) && i < |chains| && k < |chains[i]|
    ensures EntrySound(chains[i][k], types, lost)
  {
  }

  /** Filling an entry up gives it the cells it lacks, those of lost ids included. */
  lemma FilledSound(e: Entry, f: Entry, types: seq<ResourceType>, t: ResourceType, lost: set<nat>)
    requires EntrySound(e, types, lost) && LostSound(types, lost) && !t.done
    requires Done(Fill(|types| + 1), e, f, types + [t])
    ensures EntrySound(f, types + [t], {})
  {
    var more := types + [t];
    forall j | 0 <= j < |f.storage|
      ensures if more[j].done then f.storage[j] == Null else RightKind(f.storage[j], f.base, j, more[j])
    {
      assert j < |types| ==> more[j] == types[j];
      if j < |e.storage| {
        assert f.storage[j] == e.storage[j];
      } else if j < |types| {
        assert j in lost;
      }
    }
  }

  /** Where no id is lost no cell is missing. */
  lemma Complete(e: Entry, types: seq<ResourceType>, lost: set<nat>)
    requires EntrySound(e, types, {})
    ensures |e.storage| == |types| && EntrySound(e, types, lost)
  {
    var none: set<nat> := {};
    assert |e.storage| < |types| ==> |e.storage| in none;
  }

  lemma CompleteIsSound(chains: seq<seq<Entry>>, types: seq<ResourceType>, lost: set<nat>)
    requires AllSound(chains, types, {})
    ensures AllSound(chains, types, lost)
  {
    forall i, k | 0 <= i < |chains| && 0 <= k < |chains[i]|
      ensures EntrySound(chains[i][k], types, lost)
    {
      AllSoundAt(chains, types, {}, i, k);
      Complete(chains[i][k], types, lost);
    }
  }

  /** The next id also gives the entries the cells they lacked. */
  lemma AddTypeKeeps(s: State, t: ResourceType)
    requires Inv(s) && !t.done
    requires FastSound(s.types + [t], s.reservedPos, s.reservedSize)
    ensures Inv(AddType(s, t)) && AllSound(AddType(s, t).chains, s.types + [t], {})
  {
    hide Tracked, Placed, FastSound, Done, EntrySound, AllSound;
    var types := s.types + [t];
    var op := Fill(s.idCount + 1);
    TypesTracked(s.heap, s.types, types, Members(s.chains));
    OnTableKeeps(s.heap, s.chains, types, op);
    var r := AddType(s, t);
    forall i, k | 0 <= i < |r.chains| && 0 <= k < |r.chains[i]|
      ensures EntrySound(r.chains[i][k], types, {})
    {
      DoneAt(op, s.chains, r.chains, types, i, k);
      AllSoundAt(s.chains, s.types, s.lost, i, k);
      FilledSound(s.chains[i][k], r.chains[i][k], s.types, t, s.lost);
    }
    SoundEverywhere(r.chains, types, {});
    CompleteIsSound(r.chains, types, s.lost);
  }

  lemma SoundEverywhere(chains: seq<seq<Entry>>, types: seq<ResourceType>, lost: set<nat>)
    requires forall i, k :: 0 <= i < |chains| && 0 <= k < |chains[i]| ==> EntrySound(chains[i][k], types, lost)
    ensures AllSound(chains, types, lost)
  {
  }

  lemma AllocateIdKeeps(s: State, size: nat, ctor: bool, dtor: bool)
    requires Inv(s)
    ensures var r := AllocateId(s, size, ctor, dtor); Inv(r) && AllSound(r.chains, r.types, {})
  {
    AddTypeKeeps(s, ResourceType(size, ctor, dtor, 0, false));
  }

  /** An id can be used up without a type as long as its place in the table is a zeroed one. */
  lemma LoseIdKeeps(s: State)
    requires Inv(s)
    ensures Inv(LoseId(s)) <==> s.idCount < s.zeroed
  {
    if s.idCount < s.zeroed {
      var r := LoseId(s);
      TypesTracked(s.heap, s.types, r.types, Members(s.chains));
      hide Tracked, Placed;
      forall i, k | 0 <= i < |r.chains| && 0 <= k < |r.chains[i]|
        ensures EntrySound(r.chains[i][k], r.types, r.lost)
      {
        AllSoundAt(s.chains, s.types, s.lost, i, k);
      }
    }
  }

  /** The invariant survives allocating a fast id exactly when the reserved space suffices, or the id falls into the
      zeroed part of the table of types. */
  lemma AllocateFastIdKeeps(s: State, size: nat, ctor: bool, dtor: bool)
    requires Inv(s) && size < SIZE_LIMIT
    ensures Inv(AllocateFastId(s, size, ctor, dtor)) <==> FastFits(s, size) || s.idCount < s.zeroed
  {
    if !FastFits(s, size) {
      LoseIdKeeps(s);
    } else {
      FastIdKeeps(s, size, ctor, dtor);
    }
  }

  lemma FastIdKeeps(s: State, size: nat, ctor: bool, dtor: bool)
    requires Inv(s) && size < SIZE_LIMIT && FastFits(s, size)
    ensures var r := AllocateFastId(s, size, ctor, dtor); Inv(r) && AllSound(r.chains, r.types, {}) && r.lost == s.lost
  {
    var t := ResourceType(AlignedSize(size), ctor, dtor, ENTRY_SIZE + s.reservedPos, false);
    var s1 := s.(reservedPos := s.reservedPos + AlignedSize(size));
    FastSoundMore(s.types, s.reservedPos, s.reservedSize, t);
    FastSoundOneMore(s.types, s.reservedPos, s.reservedSize, t);
    FastIdIs(s, size, ctor, dtor);
    hide FastSound, Placed, AllSound, Tracked, AllocateFastId, LostSound, OnTable;
    AddTypeKeeps(s1, t);
  }

  lemma FastIdIs(s: State, size: nat, ctor: bool, dtor: bool)
    requires Inv(s) && size < SIZE_LIMIT && FastFits(s, size)
    ensures AllocateFastId(s, size, ctor, dtor)
      == AddType(s.(reservedPos := s.reservedPos + AlignedSize(size)),
                 ResourceType(AlignedSize(size), ctor, dtor, ENTRY_SIZE + s.reservedPos, false))
  {
    hide AddType, Placed, AllSound, Tracked;
  }

  /** The next range of the reserved area lies behind all others. */
  lemma FastSoundOneMore(types: seq<ResourceType>, pos: nat, size: nat, t: ResourceType)
    requires FastSound(types, pos, size) && t.size % 16 == 0 && pos + t.size <= size && t.fastOffset == ENTRY_SIZE + pos
    ensures FastSound(types + [t], pos + t.size, size)
  {
  }

  lemma FastSoundMore(types: seq<ResourceType>, pos: nat, size: nat, t: ResourceType)
    requires FastSound(types, pos, size) && t.size % 16 == 0 && pos + t.size <= size
    ensures FastSound(types, pos + t.size, size)
  {
  }

  lemma FreeIdKeeps(s: State, id: nat)
    requires Inv(s) && id < |s.types| && id !in s.lost
    ensures Inv(FreeId(s, id))
  {
    OnTableKeeps(s.heap, s.chains, s.types, Clear(id));
    var r := FreeId(s, id);
    TypesTracked(r.heap, s.types, r.types, Members(r.chains));
    forall i, k | 0 <= i < |r.chains| && 0 <= k < |r.chains[i]|
      ensures EntrySound(r.chains[i][k], r.types, s.lost)
    {
      DoneAt(Clear(id), s.chains, r.chains, s.types, i, k);
      AllSoundAt(s.chains, s.types, s.lost, i, k);
    }
  }

  lemma {:induction false} FillNewSound(h: Heap, e: Entry, types: seq<ResourceType>)
    requires |e.storage| <= |types|
    requires CellsRight(e, types)
    ensures var f := FillEntry(h, e, types, |types|, true).1;
      EntrySound(f, types, {}) && f.thread == e.thread && f.base == e.base
    decreases |types| - |e.storage|
  {
    var j := |e.storage|;
    if j < |types| {
      if types[j].done {
        FillNewSound(h, e.(storage := e.storage + [Null]), types);
      } else {
        FillNewSound(MakeCell(h, e.base, j, types[j]),
                     e.(storage := e.storage + [NewCell(h, e.base, j, types[j])]), types);
      }
    }
  }

  lemma MembersAppend(chains: seq<seq<Entry>>, i: nat, e: Entry)
    requires i < |chains|
    ensures Members(chains[i := chains[i] + [e]]) == Members(chains) + {e}
  {
    var other: seq<seq<Entry>> := chains[i := chains[i] + [e]];
    assert other[i][|chains[i]|] == e;
    forall a, b | 0 <= a < |chains| && 0 <= b < |chains[a]|
      ensures chains[a][b] in Members(other)
    {
      assert other[a][b] == chains[a][b];
    }
    forall a, b | 0 <= a < |other| && 0 <= b < |other[a]|
      ensures other[a][b] in Members(chains) + {e}
    {
      if b < |chains[a]| {
        assert other[a][b] == chains[a][b];
      }
    }
  }

  lemma AppendPlaced(chains: seq<seq<Entry>>, i: nat, e: Entry)
    requires Placed(chains) && i < |chains| && e.thread % |chains| == i
    requires forall f :: f in chains[i] ==> f.thread != e.thread
    ensures Placed(chains[i := chains[i] + [e]])
  {
    var other: seq<seq<Entry>> := chains[i := chains[i] + [e]];
    forall a, k, l | 0 <= a < |other| && 0 <= k < l < |other[a]|
      ensures other[a][k].thread != other[a][l].thread
    {
      assert k < |chains[a]| && other[a][k] == chains[a][k];
    }
  }

  /** The entry a thread gets when it has none. */
  lemma AttachNew(s: State, thread: Thread) returns (h: Heap, e: Entry)
    requires Inv(s) && Find(s.chains[HashOf(thread, |s.chains|)], thread).None?
    ensures Attach(s, thread) == (var i := HashOf(thread, |s.chains|);
      s.(heap := h, chains := s.chains[i := s.chains[i] + [e]]))
    ensures EntrySound(e, s.types, {}) && e.thread == thread
    ensures Tracked(h, s.types, Members(s.chains) + {e})
  {
    var e0 := Entry(s.heap.next, thread, []);
    var h0 := Heap(s.heap.next + 1, s.heap.log);
    var filled := FillEntry(h0, e0, s.types, s.idCount, true);
    h, e := filled.0, filled.1;
    FillNewSound(h0, e0, s.types);
    AttachTracked(s.heap, s.types, Members(s.chains), thread);
  }

  lemma AttachTracked(h: Heap, types: seq<ResourceType>, es: set<Entry>, thread: Thread)
    requires Tracked(h, types, es)
    ensures var (h', e) := FillEntry(Heap(h.next + 1, h.log), Entry(h.next, thread, []), types, |types|, true);
      Tracked(h', types, es + {e})
  {
    var e0 := Entry(h.next, thread, []);
    var h0 := Heap(h.next + 1, h.log);
    NewEntryTracked(h, types, es, thread);
    FillTracked(h0, types, es + {e0}, e0, |types|, true);
    assert e0 !in es;
    var e := FillEntry(h0, e0, types, |types|, true).1;
    assert Replace(es + {e0}, e0, e) == es + {e};
  }

  lemma AttachKeeps(s: State, thread: Thread)
    requires Inv(s)
    ensures Inv(Attach(s, thread))
  {
    var i := HashOf(thread, |s.chains|);
    if Find(s.chains[i], thread).None? {
      var h, e := AttachNew(s, thread);
      MembersAppend(s.chains, i, e);
      AppendPlaced(s.chains, i, e);
      AppendSound(s.chains, s.types, s.lost, i, e);
    }
  }

  lemma AppendSound(chains: seq<seq<Entry>>, types: seq<ResourceType>, lost: set<nat>, i: nat, e: Entry)
    requires AllSound(chains, types, lost) && i < |chains| && EntrySound(e, types, {})
    ensures AllSound(chains[i := chains[i] + [e]], types, lost)
  {
    var other: seq<seq<Entry>> := chains[i := chains[i] + [e]];
    forall a, b | 0 <= a < |other| && 0 <= b < |other[a]|
      ensures EntrySound(other[a][b], types, lost)
    {
      if b < |chains[a]| {
        AllSoundAt(chains, types, lost, a, b);
        assert other[a][b] == chains[a][b];
      } else {
        Complete(e, types, lost);
      }
    }
  }

  function Drop(chains: seq<seq<Entry>>, i: nat, k: nat): seq<seq<Entry>>
    requires i < |chains| && k < |chains[i]|
  {
    chains[i := chains[i][..k] + chains[i][k + 1..]]
  }

  /** Where the entries are that stay. */
  lemma DropAt(chains: seq<seq<Entry>>, i: nat, k: nat, a: nat, b: nat)
    requires i < |chains| && k < |chains[i]| && a < |chains| && b < |Drop(chains, i, k)[a]|
    ensures var c := if a == i && b >= k then b + 1 else b;
      c < |chains[a]| && Drop(chains, i, k)[a][b] == chains[a][c] && !(a == i && c == k)
  {
  }

  lemma DropPlaced(chains: seq<seq<Entry>>, i: nat, k: nat)
    requires Placed(chains) && i < |chains| && k < |chains[i]|
    ensures Placed(Drop(chains, i, k))
  {
    var other: seq<seq<Entry>> := Drop(chains, i, k);
    forall a, b: nat | 0 <= a < |other| && b < |other[a]|
      ensures other[a][b].thread % |other| == a
    {
      DropAt(chains, i, k, a, b);
    }
    forall a, b: nat, c: nat | 0 <= a < |other| && b < c < |other[a]|
      ensures other[a][b].thread != other[a][c].thread
    {
      DropAt(chains, i, k, a, b);
      DropAt(chains, i, k, a, c);
    }
  }

  lemma DropMembers(chains: seq<seq<Entry>>, i: nat, k: nat)
    requires Placed(chains) && i < |chains| && k < |chains[i]|
    ensures Members(Drop(chains, i, k)) == Members(chains) - {chains[i][k]}
  {
    var other: seq<seq<Entry>> := Drop(chains, i, k);
    forall a: nat, b: nat | a < |other| && b < |other[a]|
      ensures other[a][b] in Members(chains) - {chains[i][k]}
    {
      DropAt(chains, i, k, a, b);
      var c := if a == i && b >= k then b + 1 else b;
      InMembers(chains, a, c);
      if chains[a][c].thread == chains[i][k].thread {
        PlacesDiffer(chains, i, k, a, c);
      }
    }
    forall x | x in Members(chains) - {chains[i][k]}
      ensures x in Members(other)
    {
      var a, c :| 0 <= a < |chains| && 0 <= c < |chains[a]| && chains[a][c] == x;
      var b := if a == i && c > k then c - 1 else c;
      assert other[a][b] == x;
    }
  }

  lemma DropSound(chains: seq<seq<Entry>>, types: seq<ResourceType>, lost: set<nat>, i: nat, k: nat)
    requires AllSound(chains, types, lost) && i < |chains| && k < |chains[i]|
    ensures AllSound(Drop(chains, i, k), types, lost)
  {
    var other: seq<seq<Entry>> := Drop(chains, i, k);
    forall a: nat, b: nat | a < |other| && b < |other[a]|
      ensures EntrySound(other[a][b], types, lost)
    {
      DropAt(chains, i, k, a, b);
      AllSoundAt(chains, types, lost, a, if a == i && b >= k then b + 1 else b);
    }
  }

  lemma SoundIsNullIfDone(e: Entry, types: seq<ResourceType>, lost: set<nat>)
    ensures EntrySound(e, types, lost) ==> |e.storage| <= |types| && NullIfDone(e, types)
  {
  }

  lemma FreeThreadKeeps(s: State, thread: Thread)
    requires Inv(s)
    ensures FreeThread.requires(s, thread) && Inv(FreeThread(s, thread))
  {
    forall i, k | 0 <= i < |s.chains| && 0 <= k < |s.chains[i]|
      ensures |s.chains[i][k].storage| <= |s.types|
    {
      AllSoundAt(s.chains, s.types, s.lost, i, k);
    }
    var i := HashOf(thread, |s.chains|);
    hide Tracked, Placed, AllSound, FastSound, HashOf, EntrySound, Dtors, Frees, Members;
    if k :| Find(s.chains[i], thread) == Some(k) {
      SoundIsNullIfDone(s.chains[i][k], s.types, s.lost);
      AllSoundAt(s.chains, s.types, s.lost, i, k);
      InMembers(s.chains, i, k);
      ThreadEndTracked(s.heap, s.types, Members(s.chains), s.chains[i][k]);
      DropMembers(s.chains, i, k);
      DropPlaced(s.chains, i, k);
      DropSound(s.chains, s.types, s.lost, i, k);
    }
  }

  /** After shutdown no cell is left, so every block that was ever made has been disposed of. */
  lemma ShutdownEnds(s: State)
    requires Inv(s)
    ensures Tracked(Shutdown(s).heap, s.types, {})
  {
    forall i, k | 0 <= i < |s.chains| && 0 <= k < |s.chains[i]|
      ensures ReadyFor(ClearAll, s.chains[i][k], s.types)
    {
      AllSoundAt(s.chains, s.types, s.lost, i, k);
    }
    OnTableKeeps(s.heap, s.chains, s.types, ClearAll);
    var (h, chains) := OnTable(s.heap, s.chains, s.types, ClearAll, |s.chains|);
    forall e | e in Members(chains)
      ensures forall c :: c in e.storage ==> c == Null
    {
      var i, k :| 0 <= i < |chains| && 0 <= k < |chains[i]| && chains[i][k] == e;
      DoneAt(ClearAll, s.chains, chains, s.types, i, k);
      AllSoundAt(s.chains, s.types, s.lost, i, k);
    }
    RemoveAllTracked(h, s.types, Members(chains));
  }

  lemma RemoveAllTracked(h: Heap, types: seq<ResourceType>, es: set<Entry>)
    requires Tracked(h, types, es) && forall e :: e in es ==> forall c :: c in e.storage ==> c == Null
    ensures Tracked(h, types, {})
  {
    assert forall c :: c != Null ==> !Holds(es, c);
  }
}
