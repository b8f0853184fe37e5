/** The thread safe resource manager: one table entry per thread, reached by hash chains, with one cell
    per resource id. Each step is a region executed while holding the one mutex. */
module Tsrm {
  import opened Collections

  type Thread = nat

  /** A cell of an entry. Blocks from the allocator are named by a number never used again; a fast block
      is a part of its entry, named by the entry and the resource id. */
  datatype Cell = Null | Block(address: nat) | Fast(entry: nat, id: nat, offset: nat)

  datatype ResourceType = ResourceType(size: nat, ctor: bool, dtor: bool, fastOffset: nat, done: bool)

  datatype Entry = Entry(base: nat, thread: Thread, storage: seq<Cell>)

  datatype Event = Alloc(id: nat, cell: Cell) | Ctor(cell: Cell) | Dtor(cell: Cell) | Free(cell: Cell)

  /** The allocator's next name, and everything done to blocks so far. */
  datatype Heap = Heap(next: nat, log: seq<Event>)

  /** The table of types is made zeroed, with room for the first `zeroed` ids; `lost` are the ids that were used up without
      being handed out. */
  datatype State = State(
    chains: seq<seq<Entry>>,
    types: seq<ResourceType>,
    idCount: nat,
    reservedPos: nat,
    reservedSize: nat,
    zeroed: nat,
    lost: set<nat>,
    heap: Heap)

  // ---------------------------------------------------------------- sizes and hashing

  const SIZE_LIMIT: nat := 0x1_0000_0000_0000_0000   // sizes are 64-bit

  /** `size` rounded up to a multiple of 16, wrapping as 64-bit arithmetic does. */
  function AlignedSize(size: nat): (r: nat)
    requires size < SIZE_LIMIT
    ensures r % 16 == 0 && r < SIZE_LIMIT
  {
    (size + 15) % SIZE_LIMIT / 16 * 16
  }

  /** The aligned size of the entry header: two pointers, a thread number and a count. */
  const ENTRY_SIZE: nat := 32

  function HashOf(thread: Thread, tableSize: nat): (r: nat)
    requires tableSize > 0
    ensures r < tableSize
  {
    thread % tableSize
  }

  // ---------------------------------------------------------------- cells

  /** What happens to a block when it is made. */
  function Birth(t: ResourceType, id: nat, cell: Cell): (r: seq<Event>)
    ensures r != [] && r[0] == Alloc(id, cell)
  {
    [Alloc(id, cell)] + (if t.ctor then [Ctor(cell)] else [])
  }

  /** What happens to a block when it is disposed of. */
  function Death(t: ResourceType, cell: Cell): seq<Event> {
    (if t.dtor then [Dtor(cell)] else []) + (if t.fastOffset == 0 then [Free(cell)] else [])
  }

  function NewCell(h: Heap, base: nat, id: nat, t: ResourceType): Cell {
    if t.fastOffset != 0 then Fast(base, id, t.fastOffset) else Block(h.next)
  }

  function MakeCell(h: Heap, base: nat, id: nat, t: ResourceType): Heap {
    Heap(if t.fastOffset != 0 then h.next else h.next + 1, h.log + Birth(t, id, NewCell(h, base, id, t)))
  }

  // ---------------------------------------------------------------- one entry

  /** Fills the cells up to `upto`. A new thread gets no block for an id that is done. */
  function FillEntry(h: Heap, e: Entry, types: seq<ResourceType>, upto: nat, skipDone: bool): (Heap, Entry)
    requires upto <= |types|
    decreases upto - |e.storage|
  {
    var j := |e.storage|;
    if j >= upto then (h, e)
    else if skipDone && types[j].done then
      FillEntry(h, e.(storage := e.storage + [Null]), types, upto, skipDone)
    else
      FillEntry(MakeCell(h, e.base, j, types[j]),
                e.(storage := e.storage + [NewCell(h, e.base, j, types[j])]), types, upto, skipDone)
  }

  function ClearCell(h: Heap, e: Entry, types: seq<ResourceType>, j: nat): (Heap, Entry)
    requires j < |types|
  {
    if j < |e.storage| && e.storage[j] != Null then
      (h.(log := h.log + Death(types[j], e.storage[j])), e.(storage := e.storage[j := Null]))
    else (h, e)
  }

  /** Shutdown runs no destructor of an id that is done; the cell is then gone with its entry. */
  function ShutdownCell(h: Heap, e: Entry, types: seq<ResourceType>, j: nat): (Heap, Entry)
    requires j < |types|
  {
    if j < |e.storage| && e.storage[j] != Null then
      (h.(log := h.log + Death(types[j].(dtor := types[j].dtor && !types[j].done), e.storage[j])),
       e.(storage := e.storage[j := Null]))
    else (h, e)
  }

  /** Shutdown disposes of the first `n` cells one after the other. */
  function ClearCells(h: Heap, e: Entry, types: seq<ResourceType>, n: nat): (Heap, Entry)
    requires n <= |types|
  {
    if n == 0 then (h, e) else
    var (h1, e1) := ClearCells(h, e, types, n - 1);
    ShutdownCell(h1, e1, types, n - 1)
  }

  /** When a thread ends all destructors run first, without looking at whether a cell is null. */
  function Dtors(storage: seq<Cell>, types: seq<ResourceType>, n: nat): seq<Event>
    requires n <= |storage| <= |types|
  {
    if n == 0 then []
    else if types[n - 1].dtor then Dtors(storage, types, n - 1) + [Dtor(storage[n - 1])]
    else Dtors(storage, types, n - 1)
  }

  function Frees(storage: seq<Cell>, types: seq<ResourceType>, n: nat): seq<Event>
    requires n <= |storage| <= |types|
  {
    if n == 0 then []
    else if types[n - 1].fastOffset == 0 then Frees(storage, types, n - 1) + [Free(storage[n - 1])]
    else Frees(storage, types, n - 1)
  }

  // ---------------------------------------------------------------- the whole table

  datatype Op = Fill(upto: nat) | Clear(id: nat) | ClearAll

  function Apply(h: Heap, e: Entry, types: seq<ResourceType>, op: Op): (Heap, Entry)
    requires (op.Fill? ==> op.upto <= |types|) && (op.Clear? ==> op.id < |types|)
  {
    match op
    case Fill(upto) => FillEntry(h, e, types, upto, false)
    case Clear(j) => ClearCell(h, e, types, j)
    case ClearAll => ClearCells(h, e, types, if |e.storage| <= |types| then |e.storage| else |types|)
  }

  predicate Applicable(op: Op, types: seq<ResourceType>) {
    (op.Fill? ==> op.upto <= |types|) && (op.Clear? ==> op.id < |types|)
  }

  /** `op` on the first `n` entries of a chain. */
  function OnChain(h: Heap, chain: seq<Entry>, types: seq<ResourceType>, op: Op, n: nat): (r: (Heap, seq<Entry>))
    requires Applicable(op, types) && n <= |chain|
    ensures |r.1| == |chain|
  {
    if n == 0 then (h, chain) else
    var (h1, chain1) := OnChain(h, chain, types, op, n - 1);
    var (h2, e) := Apply(h1, chain1[n - 1], types, op);
    (h2, chain1[n - 1 := e])
  }

  /** `op` on every entry of the first `n` chains. */
  function OnTable(h: Heap, chains: seq<seq<Entry>>, types: seq<ResourceType>, op: Op, n: nat)
    : (r: (Heap, seq<seq<Entry>>))
    requires Applicable(op, types) && n <= |chains|
    ensures |r.1| == |chains|
  {
    if n == 0 then (h, chains) else
    var (h1, chains1) := OnTable(h, chains, types, op, n - 1);
    var (h2, chain) := OnChain(h1, chains1[n - 1], types, op, |chains1[n - 1]|);
    (h2, chains1[n - 1 := chain])
  }

  // ---------------------------------------------------------------- the steps

  /** Records the type of a new id and gives every thread its block. */
  function AddType(s: State, t: ResourceType): State
    requires s.idCount == |s.types|
  {
    var types := s.types + [t];
    var (h, chains) := OnTable(s.heap, s.chains, types, Fill(s.idCount + 1), |s.chains|);
    s.(types := types, idCount := s.idCount + 1, heap := h, chains := chains)
  }

  function AllocateId(s: State, size: nat, ctor: bool, dtor: bool): State
    requires s.idCount == |s.types|
  {
    AddType(s, ResourceType(size, ctor, dtor, 0, false))
  }

  predicate FastFits(s: State, size: nat)
    requires size < SIZE_LIMIT && s.reservedPos <= s.reservedSize
  {
    AlignedSize(size) <= s.reservedSize - s.reservedPos
  }

  /** What a zeroed place in the table of types reads as. */
  const UNTYPED := ResourceType(0, false, false, 0, false)

  /** An id is used up and no type is recorded for it. Beyond the zeroed places the table then holds none for it. */
  function LoseId(s: State): State {
    if s.idCount < s.zeroed then
      s.(idCount := s.idCount + 1, types := s.types + [UNTYPED], lost := s.lost + {s.idCount})
    else s.(idCount := s.idCount + 1)
  }

  /** The id is used up even when the reserved space does not suffice. */
  function AllocateFastId(s: State, size: nat, ctor: bool, dtor: bool): State
    requires size < SIZE_LIMIT && s.reservedPos <= s.reservedSize && s.idCount == |s.types|
  {
    if !FastFits(s, size) then LoseId(s) else
    var s1 := s.(reservedPos := s.reservedPos + AlignedSize(size));
    AddType(s1, ResourceType(AlignedSize(size), ctor, dtor, ENTRY_SIZE + s.reservedPos, false))
  }

  /** The index of the entry of `thread` in a chain. */
  function Find(chain: seq<Entry>, thread: Thread): (r: Option<nat>)
    ensures r.Some? ==> r.value < |chain| && chain[r.value].thread == thread
    ensures r.None? ==> forall e :: e in chain ==> e.thread != thread
  {
    if chain == [] then None
    else if chain[0].thread == thread then Some(0)
    else match Find(chain[1..], thread)
      case None => None
      case Some(k) => Some(k + 1)
  }

  /** The locked region of fetching a resource: a thread without an entry gets one, at the end of its chain. */
  function Attach(s: State, thread: Thread): State
    requires |s.chains| > 0 && s.idCount <= |s.types|
  {
    var i := HashOf(thread, |s.chains|);
    if Find(s.chains[i], thread).Some? then s else
    var (h, e) := FillEntry(Heap(s.heap.next + 1, s.heap.log), Entry(s.heap.next, thread, []), s.types, s.idCount, true);
    s.(heap := h, chains := s.chains[i := s.chains[i] + [e]])
  }

  function FreeThread(s: State, thread: Thread): State
    requires |s.chains| > 0
    requires forall i, k :: 0 <= i < |s.chains| && 0 <= k < |s.chains[i]| ==> |s.chains[i][k].storage| <= |s.types|
  {
    var i := HashOf(thread, |s.chains|);
    match Find(s.chains[i], thread)
    case None => s
    case Some(k) =>
      var storage := s.chains[i][k].storage;
      var log := s.heap.log + Dtors(storage, s.types, |storage|) + Frees(storage, s.types, |storage|);
      s.(heap := s.heap.(log := log), chains := s.chains[i := s.chains[i][..k] + s.chains[i][k + 1..]])
  }

  function FreeId(s: State, id: nat): State
    requires id < |s.types|
  {
    var (h, chains) := OnTable(s.heap, s.chains, s.types, Clear(id), |s.chains|);
    s.(heap := h, chains := chains, types := s.types[id := s.types[id].(done := true)])
  }

  /** Shutdown by the main thread: every block is disposed of and the table is gone. */
  function Shutdown(s: State): State {
    var (h, chains) := OnTable(s.heap, s.chains, s.types, ClearAll, |s.chains|);
    s.(heap := h, chains := [])
  }

  // ---------------------------------------------------------------- what was done to one block

  function About(cell: Cell): Event -> bool {
    (e: Event) => e.cell == cell
  }

  function History(log: seq<Event>, cell: Cell): seq<Event> {
    Filter(log, About(cell))
  }
}
