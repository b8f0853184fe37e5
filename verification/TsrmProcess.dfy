/** The resource manager as it is: entries on the heap, linked into chains, changed in place. */
module TsrmProcess {
  import opened Collections
  import opened Tsrm

  class TlsEntry {
    const base: nat
    const threadId: Thread
    var storage: seq<Cell>
    var count: nat
    var next: TlsEntry?

    constructor (base: nat, threadId: Thread, count: nat)
      ensures View() == Entry(base, threadId, []) && next == null && this.count == count
    {
      this.base, this.threadId, this.count := base, threadId, count;
      storage, next := [], null;
    }

    ghost function View(): Entry
      reads this`storage
    {
      Entry(base, threadId, storage)
    }
  }

  ghost function Views(chain: seq<TlsEntry>): (r: seq<Entry>)
    reads chain`storage
    ensures |r| == |chain| && forall k :: 0 <= k < |chain| ==> r[k] == chain[k].View()
    decreases |chain|
  {
    if chain == [] then [] else Views(chain[..|chain| - 1]) + [chain[|chain| - 1].View()]
  }

  class ResourceManager {
    var table: array<TlsEntry?>
    var types: seq<ResourceType>
    var idCount: nat
    var reservedPos: nat
    var reservedSize: nat
    const zeroed: nat                     // the types the table was made with room for
    var heap: Heap                        // the allocator
    ghost var chains: seq<seq<TlsEntry>>
    ghost var lost: set<nat>              // the ids used up without being handed out

    ghost function Nodes(): set<TlsEntry>
      reads this`chains
    {
      set i, k | 0 <= i < |chains| && 0 <= k < |chains[i]| :: chains[i][k]
    }

    static ghost predicate Linked(chain: seq<TlsEntry>, first: TlsEntry?)
      reads chain`next
    {
      && first == (if chain == [] then null else chain[0])
      && (forall k {:trigger chain[k].next} :: 0 <= k < |chain| - 1 ==> chain[k].next == chain[k + 1])
      && (chain != [] ==> chain[|chain| - 1].next == null)
    }

    static ghost predicate Apart(chain: seq<TlsEntry>) {
      forall k, l :: 0 <= k < l < |chain| ==> chain[k] != chain[l]
    }

    static ghost predicate AllApart(chains: seq<seq<TlsEntry>>) {
      && (forall i :: 0 <= i < |chains| ==> Apart(chains[i]))
      && (forall i, j, e :: 0 <= i < |chains| && 0 <= j < |chains| && i != j && e in chains[i] ==> e !in chains[j])
    }

    /** The buckets start the chains, the entries link them, and no entry is linked twice. */
    ghost predicate Shape()
      reads this`chains, this`table, table, Nodes()`next
    {
      && |chains| == table.Length > 0
      && (forall i :: 0 <= i < |chains| ==> Linked(chains[i], table[i]))
      && AllApart(chains)
    }

    /** `count` is the length of the storage. */
    static ghost predicate Counted(chain: seq<TlsEntry>)
      reads chain`storage, chain`count
    {
      forall k :: 0 <= k < |chain| ==> chain[k].count == |chain[k].storage|
    }

    ghost predicate AllCounted()
      reads this`chains, Nodes()`storage, Nodes()`count
    {
      forall i :: 0 <= i < |chains| ==> Counted(chains[i])
    }

    ghost function AllViews(n: nat): (r: seq<seq<Entry>>)
      requires n <= |chains|
      reads this`chains, Nodes()`storage
      ensures |r| == n && forall i :: 0 <= i < n ==> r[i] == Views(chains[i])
    {
      if n == 0 then [] else AllViews(n - 1) + [Views(chains[n - 1])]
    }

    ghost function Abs(): State
      reads this, Nodes()`storage
    {
      State(AllViews(|chains|), types, idCount, reservedPos, reservedSize, zeroed, lost, heap)
    }

    /** Gives an entry the blocks it lacks, up to `idCount`; only a new entry skips the ids that are done. */
    method FillStorage(p: TlsEntry, skipDone: bool)
      requires idCount <= |types| && p.count == |p.storage|
      modifies `heap, p`storage, p`count
      ensures (heap, p.View()) == FillEntry(old(heap), old(p.View()), types, idCount, skipDone)
      ensures p.count == |p.storage|
    {
      while p.count < idCount
        invariant p.count == |p.storage|
        invariant FillEntry(heap, p.View(), types, idCount, skipDone)
          == FillEntry(old(heap), old(p.View()), types, idCount, skipDone)
      {
        var j := p.count;
        if skipDone && types[j].done {
          p.storage := p.storage + [Null];
        } else if types[j].fastOffset != 0 {
          var cell := Fast(p.base, j, types[j].fastOffset);
          p.storage := p.storage + [cell];
          heap := heap.(log := heap.log + Birth(types[j], j, cell));
        } else {
          var cell := Block(heap.next);
          p.storage := p.storage + [cell];
          heap := Heap(heap.next + 1, heap.log + Birth(types[j], j, cell));
        }
        p.count := j + 1;
      }
    }

    /** Disposes of cell `j` of an entry, if it has a block there. */
    method ClearStorage(p: TlsEntry, j: nat)
      requires j < |types| && p.count == |p.storage|
      modifies `heap, p`storage
      ensures (heap, p.View()) == ClearCell(old(heap), old(p.View()), types, j)
    {
      if p.count > j && p.storage[j] != Null {
        if types[j].dtor {
          heap := heap.(log := heap.log + [Dtor(p.storage[j])]);
        }
        if types[j].fastOffset == 0 {
          heap := heap.(log := heap.log + [Free(p.storage[j])]);
        }
        assert heap.log == old(heap).log + Death(types[j], p.storage[j]);
        p.storage := p.storage[j := Null];
      }
    }

    /** Disposes of all blocks of an entry. */
    method ShutdownStorage(p: TlsEntry)
      requires p.count == |p.storage| <= |types|
      modifies `heap, p`storage
      ensures (heap, p.View()) == ClearCells(old(heap), old(p.View()), types, p.count) && p.count == |p.storage|
    {
      for j := 0 to p.count
        invariant |p.storage| == p.count
        invariant (heap, p.View()) == ClearCells(old(heap), old(p.View()), types, j)
      {
        if p.storage[j] != Null {
          ghost var log := heap.log;
          if !types[j].done && types[j].dtor {
            heap := heap.(log := heap.log + [Dtor(p.storage[j])]);
          }
          if types[j].fastOffset == 0 {
            heap := heap.(log := heap.log + [Free(p.storage[j])]);
          }
          ghost var t := types[j].(dtor := types[j].dtor && !types[j].done);
          assert heap.log == log + Death(t, p.storage[j]);
          p.storage := p.storage[j := Null];
        }
      }
    }

    method OnEntry(p: TlsEntry, op: Op)
      requires Applicable(op, types) && idCount <= |types| && p.count == |p.storage|
      requires (op.Fill? ==> op.upto == idCount) && (op.ClearAll? ==> p.count <= |types|)
      modifies `heap, p`storage, p`count
      ensures (heap, p.View()) == Apply(old(heap), old(p.View()), types, op) && p.count == |p.storage|
    {
      match op {
        case Fill(_) => FillStorage(p, false);
        case Clear(j) => ClearStorage(p, j);
        case ClearAll => ShutdownStorage(p);
      }
    }

    ghost predicate TypesKnown(op: Op, chain: seq<Entry>)
      reads this`types
    {
      op.ClearAll? ==> forall k :: 0 <= k < |chain| ==> |chain[k].storage| <= |types|
    }

    /** Does `op` to every entry of a chain. */
    method WalkChain(first: TlsEntry?, op: Op, ghost chain: seq<TlsEntry>)
      requires Linked(chain, first) && Apart(chain) && Counted(chain)
      requires Applicable(op, types) && idCount <= |types| && (op.Fill? ==> op.upto == idCount)
      requires TypesKnown(op, Views(chain))
      modifies `heap, chain`storage, chain`count
      ensures Counted(chain)
      ensures (heap, Views(chain)) == OnChain(old(heap), old(Views(chain)), types, op, |chain|)
    {
      hide Apply, Applicable, OnChain, Views, Counted, Apart, TypesKnown;
      ghost var before := Views(chain);
      OnNobody(heap, before, types, op);
      ghost var k := 0;
      var p := first;
      while p != null
        invariant k <= |chain| && p == (if k < |chain| then chain[k] else null)
        invariant Linked(chain, first) && Counted(chain)
        invariant Views(chain)[k..] == before[k..]
        invariant (heap, Views(chain)) == OnChain(old(heap), before, types, op, k)
        decreases |chain| - k
      {
        var next := VisitEntry(p, op, before, chain, first, k, old(heap));
        p := next;
        k := k + 1;
      }
    }

    static lemma OnNobody(h: Heap, chain: seq<Entry>, types: seq<ResourceType>, op: Op)
      requires Applicable(op, types)
      ensures OnChain(h, chain, types, op, 0) == (h, chain)
    {
    }

    static lemma OnChainStep(h0: Heap, before: seq<Entry>, types: seq<ResourceType>, op: Op, k: nat,
                             h: Heap, views: seq<Entry>, h': Heap, e: Entry)
      requires Applicable(op, types) && k < |before| && (h, views) == OnChain(h0, before, types, op, k)
      requires (h', e) == Apply(h, views[k], types, op)
      ensures (h', views[k := e]) == OnChain(h0, before, types, op, k + 1)
    {
    }

    /** One iteration of that walk. */
    method VisitEntry(p: TlsEntry, op: Op, ghost before: seq<Entry>, ghost chain: seq<TlsEntry>,
                      ghost first: TlsEntry?, ghost k: nat, ghost h0: Heap) returns (next: TlsEntry?)
      requires Linked(chain, first) && Apart(chain) && Counted(chain)
      requires Applicable(op, types) && idCount <= |types| && (op.Fill? ==> op.upto == idCount)
      requires k < |chain| && p == chain[k] && |before| == |chain|
      requires Views(chain)[k..] == before[k..] && TypesKnown(op, before)
      requires (heap, Views(chain)) == OnChain(h0, before, types, op, k)
      modifies `heap, p`storage, p`count
      ensures Counted(chain) && Views(chain)[k + 1..] == before[k + 1..]
      ensures (heap, Views(chain)) == OnChain(h0, before, types, op, k + 1)
      ensures next == if k + 1 < |chain| then chain[k + 1] else null
    {
      hide Apply, Applicable, OnChain;
      ghost var h, views := heap, Views(chain);
      assert p.View() == views[k] == views[k..][0] == before[k];
      next := p.next;
      OnEntry(p, op);
      assert Views(chain) == views[k := p.View()];
      OnChainStep(h0, before, types, op, k, h, views, heap, p.View());
      assert Views(chain)[k + 1..] == views[k..][1..] == before[k + 1..];
    }

    lemma AllApartAt(i: nat)
      requires Shape() && i < |chains|
      ensures Apart(chains[i])
    {
    }

    /** The chains are apart, so walking one leaves the entries of the others alone. */
    lemma ChainsApart(i: nat, j: nat)
      requires Shape() && i < |chains| && j < |chains| && i != j
      ensures forall k :: 0 <= k < |chains[j]| ==> chains[j][k] !in chains[i]
    {
    }

    static lemma AppendApart(chains: seq<seq<TlsEntry>>, i: nat, e: TlsEntry)
      requires AllApart(chains) && i < |chains| && forall j :: 0 <= j < |chains| ==> e !in chains[j]
      ensures AllApart(chains[i := chains[i] + [e]])
    {
    }

    static function Without(chain: seq<TlsEntry>, k: nat): (r: seq<TlsEntry>)
      requires k < |chain|
      ensures |r| == |chain| - 1
      ensures forall l :: 0 <= l < |r| ==> r[l] == if l < k then chain[l] else chain[l + 1]
    {
      chain[..k] + chain[k + 1..]
    }

    static lemma DropApart(chains: seq<seq<TlsEntry>>, i: nat, k: nat)
      requires AllApart(chains) && i < |chains| && k < |chains[i]|
      ensures AllApart(chains[i := Without(chains[i], k)])
    {
      var after := Without(chains[i], k);
      assert forall e :: e in after ==> e in chains[i];
      assert Apart(chains[i]);
      assert Apart(after);
    }

    /** Walks chain `i` and nothing else. */
    method WalkOne(i: nat, op: Op)
      requires Shape() && AllCounted() && i < table.Length && Applicable(op, types) && idCount <= |types|
      requires (op.Fill? ==> op.upto == idCount) && TypesKnown(op, Views(chains[i]))
      modifies `heap, chains[i]`storage, chains[i]`count
      ensures AllCounted()
      ensures (heap, Views(chains[i])) == OnChain(old(heap), old(Views(chains[i])), types, op, |chains[i]|)
      ensures AllViews(|chains|) == old(AllViews(|chains|))[i := Views(chains[i])]
    {
      hide OnChain, Applicable, Linked, Views, AllViews, AllApart, TypesKnown;
      assert Apart(chains[i]) by { AllApartAt(i); }
      WalkChain(table[i], op, chains[i]);
      forall j | 0 <= j < |chains| && j != i
        ensures Counted(chains[j]) && Views(chains[j]) == old(Views(chains[j]))
      {
        ChainsApart(i, j);
        assert forall k :: 0 <= k < |chains[j]| ==> chains[j][k].View() == old(chains[j][k].View());
      }
    }

    static lemma NothingVisited(h: Heap, chains: seq<seq<Entry>>, types: seq<ResourceType>, op: Op)
      requires Applicable(op, types)
      ensures OnTable(h, chains, types, op, 0) == (h, chains)
    {
    }

    static lemma OnTableStep(h0: Heap, before: seq<seq<Entry>>, types: seq<ResourceType>, op: Op, i: nat,
                             h: Heap, views: seq<seq<Entry>>, h': Heap, chain: seq<Entry>)
      requires Applicable(op, types) && i < |before| && (h, views) == OnTable(h0, before, types, op, i)
      requires (h', chain) == OnChain(h, views[i], types, op, |views[i]|)
      ensures (h', views[i := chain]) == OnTable(h0, before, types, op, i + 1)
    {
    }

    lemma InNodes(i: nat)
      requires i < |chains|
      ensures forall e :: e in chains[i] ==> e in Nodes()
    {
    }

    /** Does `op` to every entry of the table. */
    method WalkTable(op: Op)
      requires Shape() && AllCounted() && Applicable(op, types) && idCount <= |types|
      requires op.Fill? ==> op.upto == idCount
      requires forall i :: 0 <= i < |chains| ==> TypesKnown(op, Views(chains[i]))
      modifies `heap, Nodes()`storage, Nodes()`count
      ensures AllCounted()
      ensures (heap, AllViews(|chains|)) == OnTable(old(heap), old(AllViews(|chains|)), types, op, |chains|)
    {
      hide OnChain, OnTable, Views, AllViews, Linked, Counted, AllApart;
      ghost var before := AllViews(|chains|);
      NothingVisited(heap, before, types, op);
      for i := 0 to table.Length
        invariant AllCounted()
        invariant forall j :: i <= j < |chains| ==> Views(chains[j]) == before[j]
        invariant (heap, AllViews(|chains|)) == OnTable(old(heap), before, types, op, i)
      {
        ghost var h, views := heap, AllViews(|chains|);
        InNodes(i);
        WalkOne(i, op);
        OnTableStep(old(heap), before, types, op, i, h, views, heap, Views(chains[i]));
        assert forall j :: i < j < |chains| ==> Views(chains[j]) == views[j];
      }
    }

    /** Records the type of a new id and gives every thread its block. */
    method RecordType(t: ResourceType)
      requires Shape() && AllCounted() && idCount == |types|
      modifies `idCount, `types, `heap, Nodes()`storage, Nodes()`count
      ensures AllCounted() && Abs() == AddType(old(Abs()), t)
    {
      hide OnTable, Views, AllViews, Linked, Counted, AllApart;
      idCount := idCount + 1;
      types := types + [t];
      WalkTable(Fill(idCount));
    }

    // -------------------------------------------------------------- the locked regions

    /** Hands out the next id; ids are counted from 1. */
    method AllocateId(size: nat, ctor: bool, dtor: bool) returns (rsrcId: nat)
      requires Shape() && AllCounted() && idCount == |types|
      modifies `idCount, `types, `heap, Nodes()`storage, Nodes()`count
      ensures AllCounted() && Abs() == Tsrm.AllocateId(old(Abs()), size, ctor, dtor) && rsrcId == idCount
    {
      hide AddType, AllCounted, AllViews;
      RecordType(ResourceType(size, ctor, dtor, 0, false));
      rsrcId := idCount;
    }

    /** Without space in the reserved area the answer is 0, yet an id has been used up. */
    method AllocateFastId(size: nat, ctor: bool, dtor: bool) returns (rsrcId: nat, offset: nat)
      requires Shape() && AllCounted() && idCount == |types|
      requires size < SIZE_LIMIT && reservedPos <= reservedSize
      modifies `idCount, `types, `lost, `heap, `reservedPos, Nodes()`storage, Nodes()`count
      ensures AllCounted() && Abs() == Tsrm.AllocateFastId(old(Abs()), size, ctor, dtor)
      ensures if FastFits(old(Abs()), size) then rsrcId == idCount && offset == ENTRY_SIZE + old(reservedPos)
              else rsrcId == 0 && offset == 0
    {
      hide AddType, AllCounted, AllViews, AlignedSize, Shape, Nodes;
      var aligned := AlignedSize(size);
      if reservedSize - reservedPos < aligned {
        if idCount < zeroed {
          types := types + [UNTYPED];       // what the place in the table reads as
          lost := lost + {idCount};
        }
        idCount := idCount + 1;
        return 0, 0;
      }
      offset := ENTRY_SIZE + reservedPos;
      reservedPos := reservedPos + aligned;
      assert Abs() == old(Abs()).(reservedPos := old(reservedPos) + aligned);
      RecordType(ResourceType(aligned, ctor, dtor, offset, false));
      rsrcId := idCount;
    }

    method FreeId(id: nat)
      requires Shape() && AllCounted() && 1 <= id <= idCount == |types|
      modifies `types, `heap, Nodes()`storage, Nodes()`count
      ensures AllCounted() && Abs() == Tsrm.FreeId(old(Abs()), id - 1)
    {
      hide OnTable, Views, AllViews, Linked, Counted, AllApart;
      WalkTable(Clear(id - 1));
      types := types[id - 1 := types[id - 1].(done := true)];
    }

    /** Shutdown by the main thread. */
    method Shutdown()
      requires Shape() && AllCounted() && idCount == |types|
      requires forall i :: 0 <= i < |chains| ==> TypesKnown(ClearAll, Views(chains[i]))
      modifies this, Nodes()`storage, Nodes()`count
      ensures heap == Tsrm.Shutdown(old(Abs())).heap && table.Length == 0
    {
      hide OnTable, Views, AllViews, Linked, Counted, AllApart;
      WalkTable(ClearAll);
      table := new TlsEntry?[0];
      chains := [];
    }

    /** The entry of `thread` on a chain, and the entry before it; without one, the last entry. */
    method Lookup(first: TlsEntry?, thread: Thread, ghost chain: seq<TlsEntry>)
      returns (p: TlsEntry?, last: TlsEntry?, ghost k: nat)
      requires Linked(chain, first)
      ensures k <= |chain|
      ensures p == (if k < |chain| then chain[k] else null) && last == (if k > 0 then chain[k - 1] else null)
      ensures Find(Views(chain), thread) == if p != null then Some(k) else None
      ensures p != null ==> p.threadId == thread
    {
      p, last, k := first, null, 0;
      while p != null && p.threadId != thread
        invariant k <= |chain|
        invariant p == (if k < |chain| then chain[k] else null) && last == (if k > 0 then chain[k - 1] else null)
        invariant forall l :: 0 <= l < k ==> chain[l].threadId != thread
        decreases |chain| - k
      {
        assert chain[k].next == if k + 1 < |chain| then chain[k + 1] else null;
        last := p;
        p := p.next;
        k := k + 1;
      }
      FindFirst(Views(chain), thread, k);
    }

    static lemma {:induction false} FindFirst(chain: seq<Entry>, thread: Thread, k: nat)
      requires k <= |chain| && (forall l :: 0 <= l < k ==> chain[l].thread != thread)
      requires k < |chain| ==> chain[k].thread == thread
      ensures Find(chain, thread) == if k < |chain| then Some(k) else None
    {
      if k > 0 {
        FindFirst(chain[1..], thread, k - 1);
      }
    }

    /** A new entry with a block for every id that is not done. */
    method NewEntry(thread: Thread) returns (e: TlsEntry)
      requires idCount == |types|
      modifies `heap
      ensures fresh(e) && e.next == null && e.count == |e.storage|
      ensures (heap, e.View()) == FillEntry(Heap(old(heap).next + 1, old(heap).log), Entry(old(heap).next, thread, []),
                                            types, idCount, true)
    {
      e := new TlsEntry(heap.next, thread, 0);
      heap := heap.(next := heap.next + 1);
      FillStorage(e, true);
    }

    /** Hangs a new entry at the end of chain `i`. */
    method Link(i: nat, last: TlsEntry?, e: TlsEntry)
      requires Shape() && AllCounted() && i < table.Length && e !in Nodes() && e.next == null && e.count == |e.storage|
      requires last == if chains[i] == [] then null else chains[i][|chains[i]| - 1]
      modifies `chains, table, chains[i]`next
      ensures Shape() && AllCounted() && chains == old(chains)[i := old(chains)[i] + [e]]
      ensures AllViews(|chains|) == old(AllViews(|chains|))[i := old(Views(chains[i])) + [e.View()]]
    {
      hide AllApart, Views, AllViews;
      ViewsAppend(chains[i], e);
      assert AllApart(chains[i := chains[i] + [e]]) by {
        forall j | 0 <= j < |chains|
          ensures e !in chains[j]
        {
          InNodes(j);
        }
        AppendApart(chains, i, e);
      }
      if last == null {
        table[i] := e;
      } else {
        LastApart(i, |chains[i]| - 1);
        last.next := e;
      }
      chains := chains[i := chains[i] + [e]];
    }

    /** Entry `k` of chain `i` is nowhere else. */
    lemma LastApart(i: nat, k: nat)
      requires AllApart(chains) && i < |chains| && k < |chains[i]|
      ensures forall l :: 0 <= l < |chains[i]| && l != k ==> chains[i][l] != chains[i][k]
      ensures forall j :: 0 <= j < |chains| && j != i ==> chains[i][k] !in chains[j]
    {
      assert Apart(chains[i]);
    }

    lemma AbsIs(i: nat)
      requires i < |chains|
      ensures Abs().chains[i] == Views(chains[i])
    {
    }

    /** The locked region of fetching a resource for `thread`: makes and links an entry if there is none. */
    method Attach(thread: Thread)
      requires Shape() && AllCounted() && idCount == |types|
      modifies `heap, `chains, table, Nodes()`next
      ensures Shape() && AllCounted() && Abs() == Tsrm.Attach(old(Abs()), thread)
    {
      hide Views, Linked, FillEntry, Counted, AllViews, Find, AllApart, HashOf;
      var i := HashOf(thread, table.Length);
      ghost var chain := chains[i];
      AbsIs(i);
      var p, last, k := Lookup(table[i], thread, chain);
      if p == null {
        var e := NewEntry(thread);
        InNodes(i);
        Link(i, last, e);
      }
    }

    static lemma ViewsAppend(chain: seq<TlsEntry>, e: TlsEntry)
      ensures Views(chain + [e]) == Views(chain) + [e.View()]
    {
      hide Views;
    }

    /** Links the entry before entry `k` of chain `i`, or the bucket, to the entry after it. */
    method Bypass(i: nat, last: TlsEntry?, p: TlsEntry, ghost k: nat)
      requires Shape() && i < table.Length && k < |chains[i]| && p == chains[i][k]
      requires last == if k > 0 then chains[i][k - 1] else null
      modifies table, chains[i]`next
      ensures Linked(Without(chains[i], k), table[i])
      ensures forall j :: 0 <= j < |chains| && j != i ==> Linked(chains[j], table[j])
    {
      hide AllApart;
      assert Linked(chains[i], table[i]);
      if last != null {
        LastApart(i, k - 1);
        last.next := p.next;
      } else {
        table[i] := p.next;
      }
    }

    /** Takes entry `k` out of chain `i`. */
    method Unlink(i: nat, last: TlsEntry?, p: TlsEntry, ghost k: nat)
      requires Shape() && AllCounted() && i < table.Length && k < |chains[i]| && p == chains[i][k]
      requires last == if k > 0 then chains[i][k - 1] else null
      modifies `chains, table, chains[i]`next
      ensures Shape() && AllCounted() && chains == old(chains)[i := Without(old(chains)[i], k)]
      ensures AllViews(|chains|) == old(AllViews(|chains|))[i := old(Views(chains[i]))[..k] + old(Views(chains[i]))[k + 1..]]
    {
      hide AllApart, Linked, Views, AllViews;
      ViewsDrop(chains[i], k);
      DropApart(chains, i, k);
      assert Counted(Without(chains[i], k)) by { assert Counted(chains[i]); }
      Bypass(i, last, p, k);
      chains := chains[i := Without(chains[i], k)];
    }

    /** The end of the current thread: all destructors, then all blocks, then the entry. */
    method FreeThread(thread: Thread)
      requires Shape() && AllCounted() && Tsrm.FreeThread.requires(Abs(), thread)
      modifies `heap, `chains, table, Nodes()`next
      ensures Shape() && AllCounted() && Abs() == Tsrm.FreeThread(old(Abs()), thread)
    {
      hide Views, Linked, AllViews, Find, AllApart;
      var i := HashOf(thread, table.Length);
      ghost var chain := chains[i];
      AbsIs(i);
      var p, last, k := Lookup(table[i], thread, chain);
      if p != null {
        assert p.View() == Abs().chains[i][k];
        InNodes(i);
        EndStorage(p);
        Unlink(i, last, p, k);
      }
    }

    static lemma ViewsDrop(chain: seq<TlsEntry>, k: nat)
      requires k < |chain|
      ensures Views(Without(chain, k)) == Views(chain)[..k] + Views(chain)[k + 1..]
    {
      hide Views;
      var less, views := Views(Without(chain, k)), Views(chain);
      forall l | 0 <= l < |less|
        ensures less[l] == if l < k then views[l] else views[l + 1]
      {
        assert less[l] == Without(chain, k)[l].View();
      }
      DropIs(views, less, k);
    }

    static lemma DropIs(s: seq<Entry>, r: seq<Entry>, k: nat)
      requires k < |s| && |r| == |s| - 1
      requires forall l :: 0 <= l < k ==> r[l] == s[l]
      requires forall l :: k <= l < |r| ==> r[l] == s[l + 1]
      ensures r == s[..k] + s[k + 1..]
    {
    }

    /** Runs the destructors of an entry and then frees its blocks, without looking for null cells. */
    method EndStorage(p: TlsEntry)
      requires p.count == |p.storage| <= |types|
      modifies `heap
      ensures heap == old(heap).(log := old(heap).log + Dtors(p.storage, types, p.count) + Frees(p.storage, types, p.count))
    {
      for j := 0 to p.count
        invariant heap == old(heap).(log := old(heap).log + Dtors(p.storage, types, j))
      {
        if types[j].dtor {
          heap := heap.(log := heap.log + [Dtor(p.storage[j])]);
        }
      }
      ghost var log := heap.log;
      for j := 0 to p.count
        invariant heap == old(heap).(log := log + Frees(p.storage, types, j))
      {
        if types[j].fastOffset == 0 {
          heap := heap.(log := heap.log + [Free(p.storage[j])]);
        }
      }
    }

    /** `tsrm_startup`, then one `tsrm_reserve`. */
    constructor (tableSize: nat, expected: nat, reserved: nat)
      requires tableSize > 0 && reserved < SIZE_LIMIT
      ensures Shape() && AllCounted()
      ensures Abs() == State(seq(tableSize, i => []), [], 0, 0, AlignedSize(reserved), expected, {}, Heap(0, []))
    {
      table := new TlsEntry?[tableSize](i => null);
      chains := seq(tableSize, i => []);
      types, idCount := [], 0;
      reservedPos, reservedSize := 0, AlignedSize(reserved);
      zeroed, lost := expected, {};
      heap := Heap(0, []);
    }
  }
}