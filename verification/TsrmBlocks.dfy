/** What was done to each block: the cells hold exactly the blocks made and not yet disposed of. */
module TsrmBlocks {
  import opened Collections
  import opened Tsrm

  // ---------------------------------------------------------------- the invariant

  ghost predicate Holds(es: set<Entry>, cell: Cell) {
    exists e :: e in es && cell in e.storage
  }

  /** A block in a cell was made for that cell's id, once, and nothing else was done to it. */
  ghost predicate CellAlive(h: Heap, types: seq<ResourceType>, e: Entry, j: int)
    requires 0 <= j < |e.storage|
  {
    e.storage[j] != Null ==>
      j < |types| && History(h.log, e.storage[j]) == Birth(types[j], j, e.storage[j])
  }

  ghost predicate CellsAlive(h: Heap, types: seq<ResourceType>, es: set<Entry>) {
    forall e, j :: e in es && 0 <= j < |e.storage| ==> CellAlive(h, types, e, j)
  }

  ghost predicate NoSharing(es: set<Entry>) {
    && (forall e, f :: e in es && f in es && e.base == f.base ==> e == f)
    && (forall e, f, c :: e in es && f in es && c != Null && c in e.storage && c in f.storage ==> e == f)
  }

  /** A block that was made and that no cell holds was disposed of as its type says, once. */
  ghost predicate Ended(h: Heap, types: seq<ResourceType>, c: Cell) {
    exists id :: 0 <= id < |types| && History(h.log, c) == Birth(types[id], id, c) + Death(types[id], c)
  }

  ghost predicate Accounted(h: Heap, types: seq<ResourceType>, es: set<Entry>) {
    forall c :: c != Null ==> History(h.log, c) == [] || Holds(es, c) || Ended(h, types, c)
  }

  ghost predicate NamesKnown(h: Heap, es: set<Entry>) {
    && (forall ev :: ev in h.log ==>
          (ev.cell.Block? ==> ev.cell.address < h.next) && (ev.cell.Fast? ==> ev.cell.entry < h.next))
    && (forall e :: e in es ==> e.base < h.next)
    && (forall e, ev :: e in es && ev in h.log && ev.cell.Fast? && ev.cell.entry == e.base ==> ev.cell.id < |e.storage|)
  }

  ghost predicate Tracked(h: Heap, types: seq<ResourceType>, es: set<Entry>) {
    CellsAlive(h, types, es) && NoSharing(es) && Accounted(h, types, es) && NamesKnown(h, es)
  }

  // ---------------------------------------------------------------- histories

  lemma HistoryAppend(log: seq<Event>, more: seq<Event>, c: Cell)
    ensures History(log + more, c) == History(log, c) + History(more, c)
  {
    FilterAppend(log, more, About(c));
  }

  lemma HistoryOfOthers(events: seq<Event>, c: Cell)
    requires forall ev :: ev in events ==> ev.cell != c
    ensures History(events, c) == []
  {
    FilterNothing(events, About(c));
  }

  lemma {:induction false} HistoryOfOwn(events: seq<Event>, c: Cell)
    requires forall ev :: ev in events ==> ev.cell == c
    ensures History(events, c) == events
  {
    if events != [] {
      HistoryOfOwn(events[1..], c);
    }
  }

  /** Appending events of one block changes the history of that block only. */
  lemma HistoryAfter(log: seq<Event>, events: seq<Event>, c: Cell, d: Cell)
    requires forall ev :: ev in events ==> ev.cell == c
    ensures History(log + events, d) == if d == c then History(log, d) + events else History(log, d)
  {
    HistoryAppend(log, events, d);
    if d == c {
      HistoryOfOwn(events, c);
    } else {
      HistoryOfOthers(events, d);
    }
  }

  lemma HistoryNonEmpty(log: seq<Event>, c: Cell)
    requires History(log, c) != []
    ensures exists ev :: ev in log && ev.cell == c
  {
    assert History(log, c)[0] in History(log, c);
  }

  // ---------------------------------------------------------------- a new cell

  function Replace(es: set<Entry>, e: Entry, f: Entry): set<Entry> {
    es - {e} + {f}
  }

  lemma NewCellIsFresh(h: Heap, es: set<Entry>, e: Entry, t: ResourceType)
    requires NamesKnown(h, es) && e in es
    ensures History(h.log, NewCell(h, e.base, |e.storage|, t)) == []
  {
    HistoryOfOthers(h.log, NewCell(h, e.base, |e.storage|, t));
  }

  lemma HeldWasMade(h: Heap, types: seq<ResourceType>, es: set<Entry>, e: Entry, j: nat)
    requires CellsAlive(h, types, es) && e in es && j < |e.storage| && e.storage[j] != Null
    ensures History(h.log, e.storage[j]) != []
  {
    assert CellAlive(h, types, e, j);
  }

  lemma NewCellIsNowhere(h: Heap, types: seq<ResourceType>, es: set<Entry>, c: Cell)
    requires CellsAlive(h, types, es) && c != Null && History(h.log, c) == []
    ensures !Holds(es, c)
  {
    forall e, j: nat | e in es && j < |e.storage|
      ensures e.storage[j] != c
    {
      if e.storage[j] != Null {
        HeldWasMade(h, types, es, e, j);
      }
    }
  }

  lemma GrowCellsAlive(h: Heap, types: seq<ResourceType>, es: set<Entry>, e: Entry)
    requires Tracked(h, types, es) && e in es && |e.storage| < |types|
    ensures var j := |e.storage|; var c := NewCell(h, e.base, j, types[j]);
      CellsAlive(MakeCell(h, e.base, j, types[j]), types, Replace(es, e, e.(storage := e.storage + [c])))
  {
    var j := |e.storage|;
    var c := NewCell(h, e.base, j, types[j]);
    var h' := MakeCell(h, e.base, j, types[j]);
    var es' := Replace(es, e, e.(storage := e.storage + [c]));
    NewCellIsFresh(h, es, e, types[j]);
    NewCellIsNowhere(h, types, es, c);
    hide History, NewCell, Accounted, NamesKnown, NoSharing, CellAlive, Birth;
    forall f, k | f in es' && 0 <= k < |f.storage|
      ensures CellAlive(h', types, f, k)
    {
      var g := if f in es then f else e;
      if k < |g.storage| {
        assert CellAlive(h, types, g, k) && g.storage[k] in g.storage;
        StaysAlive(h, types, g, f, k, j, c);
      } else {
        NewCellAlive(h, types, f, j, c);
      }
    }
  }

  lemma StaysAlive(h: Heap, types: seq<ResourceType>, g: Entry, f: Entry, k: nat, j: nat, c: Cell)
    requires k < |g.storage| && k < |f.storage| && f.storage[k] == g.storage[k] != c && j < |types|
    requires CellAlive(h, types, g, k)
    ensures CellAlive(Heap(h.next, h.log + Birth(types[j], j, c)), types, f, k)
    ensures CellAlive(Heap(h.next + 1, h.log + Birth(types[j], j, c)), types, f, k)
  {
    HistoryAfter(h.log, Birth(types[j], j, c), c, f.storage[k]);
    hide History, Birth;
  }

  lemma NewCellAlive(h: Heap, types: seq<ResourceType>, f: Entry, j: nat, c: Cell)
    requires j < |f.storage| && f.storage[j] == c && j < |types| && History(h.log, c) == []
    ensures CellAlive(Heap(h.next, h.log + Birth(types[j], j, c)), types, f, j)
    ensures CellAlive(Heap(h.next + 1, h.log + Birth(types[j], j, c)), types, f, j)
  {
    HistoryAfter(h.log, Birth(types[j], j, c), c, c);
    hide History, Birth;
  }

  lemma GrowAccounted(h: Heap, types: seq<ResourceType>, es: set<Entry>, e: Entry)
    requires Accounted(h, types, es) && e in es && |e.storage| < |types|
    ensures var j := |e.storage|; var c := NewCell(h, e.base, j, types[j]);
      Accounted(MakeCell(h, e.base, j, types[j]), types, Replace(es, e, e.(storage := e.storage + [c])))
  {
    var j := |e.storage|;
    var c := NewCell(h, e.base, j, types[j]);
    var h' := MakeCell(h, e.base, j, types[j]);
    var f := e.(storage := e.storage + [c]);
    var es' := Replace(es, e, f);
    forall d | d != Null
      ensures History(h'.log, d) == [] || Holds(es', d) || Ended(h', types, d)
    {
      HistoryAfter(h.log, Birth(types[j], j, c), c, d);
      if d == c {
        assert f in es' && c in f.storage;
      } else if Holds(es, d) {
        var g :| g in es && d in g.storage;
        assert (if g == e then f else g) in es';
      } else if Ended(h, types, d) {
        var id :| 0 <= id < |types| && History(h.log, d) == Birth(types[id], id, d) + Death(types[id], d);
        assert Ended(h', types, d);
      }
    }
  }

  /** Making the block of the next cell of an entry. */
  lemma GrowTracked(h: Heap, types: seq<ResourceType>, es: set<Entry>, e: Entry)
    requires Tracked(h, types, es) && e in es && |e.storage| < |types|
    ensures var j := |e.storage|; var c := NewCell(h, e.base, j, types[j]);
      Tracked(MakeCell(h, e.base, j, types[j]), types, Replace(es, e, e.(storage := e.storage + [c])))
  {
    GrowCellsAlive(h, types, es, e);
    GrowAccounted(h, types, es, e);
    NewCellIsFresh(h, es, e, types[|e.storage|]);
    NewCellIsNowhere(h, types, es, NewCell(h, e.base, |e.storage|, types[|e.storage|]));
  }

  /** A cell left null. */
  lemma SkipTracked(h: Heap, types: seq<ResourceType>, es: set<Entry>, e: Entry)
    requires Tracked(h, types, es) && e in es
    ensures Tracked(h, types, Replace(es, e, e.(storage := e.storage + [Null])))
  {
    var f := e.(storage := e.storage + [Null]);
    var es' := Replace(es, e, f);
    forall c | Holds(es, c)
      ensures Holds(es', c)
    {
      var g :| g in es && c in g.storage;
      assert (if g == e then f else g) in es';
    }
    forall g, k | g in es' && 0 <= k < |g.storage|
      ensures CellAlive(h, types, g, k)
    {
      assert g in es || (k < |e.storage| ==> CellAlive(h, types, e, k));
    }
  }

  lemma {:induction false} FillTracked(h: Heap, types: seq<ResourceType>, es: set<Entry>, e: Entry, upto: nat, skip: bool)
    requires Tracked(h, types, es) && e in es && upto <= |types|
    ensures var (h', e') := FillEntry(h, e, types, upto, skip); Tracked(h', types, Replace(es, e, e'))
    decreases upto - |e.storage|
  {
    var j := |e.storage|;
    if j >= upto {
      assert Replace(es, e, e) == es;
    } else {
      var skipped := skip && types[j].done;
      var h1 := if skipped then h else MakeCell(h, e.base, j, types[j]);
      var c := if skipped then Null else NewCell(h, e.base, j, types[j]);
      var e1 := e.(storage := e.storage + [c]);
      if skipped {
        SkipTracked(h, types, es, e);
      } else {
        GrowTracked(h, types, es, e);
      }
      FillTracked(h1, types, Replace(es, e, e1), e1, upto, skip);
      ReplaceTwice(es, e, e1, FillEntry(h1, e1, types, upto, skip).1);
    }
  }

  /** While an entry changes, its base tells it from the others. */
  lemma ReplaceTwice(es: set<Entry>, e: Entry, f: Entry, g: Entry)
    requires e in es && NoSharing(es) && e.base == f.base
    ensures Replace(Replace(es, e, f), f, g) == Replace(es, e, g)
  {
  }

  // ---------------------------------------------------------------- disposing of a cell

  lemma DeathIsAboutIt(t: ResourceType, c: Cell)
    ensures forall ev :: ev in Death(t, c) ==> ev.cell == c
  {
  }

  lemma ClearCellsAlive(h: Heap, types: seq<ResourceType>, es: set<Entry>, e: Entry, j: nat)
    requires Tracked(h, types, es) && e in es && j < |e.storage| && j < |types| && e.storage[j] != Null
    ensures CellsAlive(h.(log := h.log + Death(types[j], e.storage[j])), types,
                       Replace(es, e, e.(storage := e.storage[j := Null])))
  {
    var c := e.storage[j];
    var h' := h.(log := h.log + Death(types[j], c));
    var f := e.(storage := e.storage[j := Null]);
    forall g, k | g in Replace(es, e, f) && 0 <= k < |g.storage|
      ensures CellAlive(h', types, g, k)
    {
      if g.storage[k] != Null {
        var g0 := if g in es then g else e;
        assert CellAlive(h, types, g0, k);
        assert CellAlive(h, types, e, j);
        assert g0.storage[k] in g0.storage && c in e.storage;
        HistoryAfter(h.log, Death(types[j], c), c, g.storage[k]);
      }
    }
  }

  lemma ClearAccounted(h: Heap, types: seq<ResourceType>, es: set<Entry>, e: Entry, j: nat)
    requires Accounted(h, types, es) && e in es && j < |e.storage| && j < |types| && e.storage[j] != Null
    requires CellAlive(h, types, e, j)
    ensures Accounted(h.(log := h.log + Death(types[j], e.storage[j])), types,
                      Replace(es, e, e.(storage := e.storage[j := Null])))
  {
    var c := e.storage[j];
    var h' := h.(log := h.log + Death(types[j], c));
    var f := e.(storage := e.storage[j := Null]);
    var es' := Replace(es, e, f);
    forall d | d != Null
      ensures History(h'.log, d) == [] || Holds(es', d) || Ended(h', types, d)
    {
      HistoryAfter(h.log, Death(types[j], c), c, d);
      if d != c && Holds(es, d) {
        var g :| g in es && d in g.storage;
        if g == e {
          var k :| 0 <= k < |e.storage| && e.storage[k] == d;
          assert f.storage[k] == d;
        }
        assert (if g == e then f else g) in es';
      } else if d != c && Ended(h, types, d) {
        var id :| 0 <= id < |types| && History(h.log, d) == Birth(types[id], id, d) + Death(types[id], d);
      }
    }
  }

  lemma ClearNames(h: Heap, types: seq<ResourceType>, es: set<Entry>, e: Entry, j: nat)
    requires Tracked(h, types, es) && e in es && j < |e.storage| && j < |types| && e.storage[j] != Null
    ensures var es' := Replace(es, e, e.(storage := e.storage[j := Null]));
      NoSharing(es') && NamesKnown(h.(log := h.log + Death(types[j], e.storage[j])), es')
  {
    HeldWasMade(h, types, es, e, j);
    HistoryNonEmpty(h.log, e.storage[j]);
    DeathIsAboutIt(types[j], e.storage[j]);
    hide History, Death, CellsAlive, Accounted;
    var f := e.(storage := e.storage[j := Null]);
    assert forall c :: c != Null && c in f.storage ==> c in e.storage;
  }

  lemma ClearTracked(h: Heap, types: seq<ResourceType>, es: set<Entry>, e: Entry, j: nat)
    requires Tracked(h, types, es) && e in es && j < |types|
    ensures var (h', e') := ClearCell(h, e, types, j); Tracked(h', types, Replace(es, e, e'))
  {
    if j < |e.storage| && e.storage[j] != Null {
      ClearCellsAlive(h, types, es, e, j);
      assert CellAlive(h, types, e, j);
      ClearAccounted(h, types, es, e, j);
      ClearNames(h, types, es, e, j);
    } else {
      assert Replace(es, e, e) == es;
    }
  }

  /** No cell of a done id holds a block. */
  ghost predicate NullIfDone(e: Entry, types: seq<ResourceType>) {
    forall j :: 0 <= j < |e.storage| && j < |types| && types[j].done ==> e.storage[j] == Null
  }

  lemma {:induction false} ClearCellsShape(h: Heap, e: Entry, types: seq<ResourceType>, n: nat)
    requires n <= |types|
    ensures var e' := ClearCells(h, e, types, n).1;
      && e' == e.(storage := e'.storage) && |e'.storage| == |e.storage|
      && (forall j :: 0 <= j < |e.storage| ==> e'.storage[j] == if j < n then Null else e.storage[j])
  {
    if n > 0 {
      ClearCellsShape(h, e, types, n - 1);
    }
  }

  lemma ClearCellsStep(h: Heap, e: Entry, types: seq<ResourceType>, n: nat)
    requires 0 < n <= |types| && NullIfDone(e, types)
    ensures var (h1, e1) := ClearCells(h, e, types, n - 1);
      ClearCells(h, e, types, n) == ClearCell(h1, e1, types, n - 1)
  {
    var (h1, e1) := ClearCells(h, e, types, n - 1);
    var t := types[n - 1];
    ClearCellsShape(h, e, types, n - 1);
    assert ClearCells(h, e, types, n) == ShutdownCell(h1, e1, types, n - 1);
    if n - 1 < |e1.storage| && e1.storage[n - 1] != Null {
      assert t.(dtor := t.dtor && !t.done) == t;
    }
  }

  lemma {:induction false} ClearCellsTracked(h: Heap, types: seq<ResourceType>, es: set<Entry>, e: Entry, n: nat)
    requires Tracked(h, types, es) && e in es && n <= |types| && NullIfDone(e, types)
    ensures var (h', e') := ClearCells(h, e, types, n); Tracked(h', types, Replace(es, e, e'))
  {
    if n == 0 {
      assert Replace(es, e, e) == es;
    } else {
      ClearCellsTracked(h, types, es, e, n - 1);
      var (h1, e1) := ClearCells(h, e, types, n - 1);
      ClearTracked(h1, types, Replace(es, e, e1), e1, n - 1);
      ClearCellsStep(h, e, types, n);
      ClearCellsShape(h, e, types, n - 1);
      ReplaceTwice(es, e, e1, ClearCell(h1, e1, types, n - 1).1);
    }
  }

  // ---------------------------------------------------------------- the end of a thread

  /** Two logs that did the same to every block. */
  ghost predicate SameHistories(log: seq<Event>, other: seq<Event>) {
    forall c :: c != Null ==> History(log, c) == History(other, c)
  }

  lemma SameHistoriesTracked(h: Heap, other: seq<Event>, types: seq<ResourceType>, es: set<Entry>)
    requires Tracked(h, types, es) && SameHistories(h.log, other)
    ensures Tracked(h.(log := other), types, es)
  {
    forall ev | ev in other && ev.cell != Null
      ensures exists ev' :: ev' in h.log && ev'.cell == ev.cell
    {
      InHistory(other, ev);
      HistoryNonEmpty(h.log, ev.cell);
    }
    forall e, j | e in es && 0 <= j < |e.storage|
      ensures CellAlive(h.(log := other), types, e, j)
    {
      assert CellAlive(h, types, e, j);
    }
    forall c | c != Null && Ended(h, types, c)
      ensures Ended(h.(log := other), types, c)
    {
      var id :| 0 <= id < |types| && History(h.log, c) == Birth(types[id], id, c) + Death(types[id], c);
      assert History(other, c) == Birth(types[id], id, c) + Death(types[id], c);
    }
  }

  lemma {:induction false} InHistory(log: seq<Event>, ev: Event)
    requires ev in log
    ensures ev in History(log, ev.cell)
  {
    if log[0] != ev {
      InHistory(log[1..], ev);
    }
  }

  ghost predicate CellsDiffer(storage: seq<Cell>) {
    forall j, k :: 0 <= j < k < |storage| && storage[j] != Null ==> storage[j] != storage[k]
  }

  lemma HistorySnoc(log: seq<Event>, ev: Event, c: Cell)
    ensures History(log + [ev], c) == History(log, c) + (if ev.cell == c then [ev] else [])
  {
    FilterSnoc(log, ev, About(c));
  }

  lemma DtorsOfStep(storage: seq<Cell>, types: seq<ResourceType>, n: nat, c: Cell)
    requires 0 < n <= |storage| <= |types|
    ensures History(Dtors(storage, types, n), c)
      == if types[n - 1].dtor && storage[n - 1] == c then History(Dtors(storage, types, n - 1), c) + [Dtor(c)]
         else History(Dtors(storage, types, n - 1), c)
  {
    HistorySnoc(Dtors(storage, types, n - 1), Dtor(storage[n - 1]), c);
  }

  lemma {:induction false} DtorsOf(storage: seq<Cell>, types: seq<ResourceType>, n: nat, c: Cell, j: nat)
    requires n <= |storage| <= |types| && CellsDiffer(storage) && c != Null
    requires j < |storage| && storage[j] == c
    ensures History(Dtors(storage, types, n), c) == if j < n && types[j].dtor then [Dtor(c)] else []
  {
    if n > 0 {
      DtorsOf(storage, types, n - 1, c, j);
      DtorsOfStep(storage, types, n, c);
      assert storage[n - 1] == c <==> j == n - 1;
    }
  }

  lemma FreesOfStep(storage: seq<Cell>, types: seq<ResourceType>, n: nat, c: Cell)
    requires 0 < n <= |storage| <= |types|
    ensures History(Frees(storage, types, n), c)
      == if types[n - 1].fastOffset == 0 && storage[n - 1] == c then History(Frees(storage, types, n - 1), c) + [Free(c)]
         else History(Frees(storage, types, n - 1), c)
  {
    HistorySnoc(Frees(storage, types, n - 1), Free(storage[n - 1]), c);
  }

  lemma NoHistory(c: Cell)
    ensures History([], c) == []
  {
  }

  lemma {:induction false} FreesOf(storage: seq<Cell>, types: seq<ResourceType>, n: nat, c: Cell, j: nat)
    requires n <= |storage| <= |types| && CellsDiffer(storage) && c != Null
    requires j < |storage| && storage[j] == c
    ensures History(Frees(storage, types, n), c) == if j < n && types[j].fastOffset == 0 then [Free(c)] else []
  {
    hide History;
    if n == 0 {
      NoHistory(c);
    } else {
      FreesOf(storage, types, n - 1, c, j);
      FreesOfStep(storage, types, n, c);
      assert storage[n - 1] == c <==> j == n - 1;
    }
  }

  lemma {:induction false} EndOfOthers(storage: seq<Cell>, types: seq<ResourceType>, n: nat)
    requires n <= |storage| <= |types|
    ensures forall ev :: ev in Dtors(storage, types, n) || ev in Frees(storage, types, n) ==> ev.cell in storage
  {
    if n > 0 {
      EndOfOthers(storage, types, n - 1);
    }
  }

  lemma ClearedCell(h: Heap, e: Entry, types: seq<ResourceType>, j: nat, c: Cell)
    requires j < |e.storage| && j < |types| && c != Null
    ensures History(ClearCell(h, e, types, j).0.log, c)
      == if e.storage[j] == c then History(h.log, c) + Death(types[j], c) else History(h.log, c)
  {
    HistoryAfter(h.log, Death(types[j], e.storage[j]), e.storage[j], c);
  }

  lemma ClearedOnce(h: Heap, e: Entry, types: seq<ResourceType>, n: nat, c: Cell)
    requires 0 < n <= |e.storage| <= |types| && NullIfDone(e, types) && c != Null
    ensures History(ClearCells(h, e, types, n).0.log, c)
      == if e.storage[n - 1] == c then History(ClearCells(h, e, types, n - 1).0.log, c) + Death(types[n - 1], c)
         else History(ClearCells(h, e, types, n - 1).0.log, c)
  {
    var (h1, e1) := ClearCells(h, e, types, n - 1);
    var (h2, e2) := ClearCells(h, e, types, n);
    assert |e1.storage| == |e.storage| && e1.storage[n - 1] == e.storage[n - 1] by {
      ClearCellsShape(h, e, types, n - 1);
    }
    assert h2 == ClearCell(h1, e1, types, n - 1).0 by {
      ClearCellsStep(h, e, types, n);
    }
    ClearedCell(h1, e1, types, n - 1, c);
  }

  lemma {:induction false} ClearCellsOf(h: Heap, e: Entry, types: seq<ResourceType>, n: nat, c: Cell, j: nat)
    requires n <= |e.storage| <= |types| && CellsDiffer(e.storage) && NullIfDone(e, types) && c != Null
    requires j < |e.storage| && e.storage[j] == c
    ensures History(ClearCells(h, e, types, n).0.log, c)
      == if j < n then History(h.log, c) + Death(types[j], c) else History(h.log, c)
  {
    hide ClearCells, History, Death, NullIfDone;
    if n == 0 {
      NothingCleared(h, e, types);
    } else {
      ClearCellsOf(h, e, types, n - 1, c, j);
      ClearedOnce(h, e, types, n, c);
      assert e.storage[n - 1] == c <==> j == n - 1;
    }
  }

  lemma NothingCleared(h: Heap, e: Entry, types: seq<ResourceType>)
    ensures ClearCells(h, e, types, 0) == (h, e)
  {
  }

  lemma {:induction false} ClearCellsOfOthers(h: Heap, e: Entry, types: seq<ResourceType>, n: nat, c: Cell)
    requires n <= |e.storage| <= |types| && NullIfDone(e, types) && c !in e.storage && c != Null
    ensures History(ClearCells(h, e, types, n).0.log, c) == History(h.log, c)
  {
    if n > 0 {
      ClearCellsOfOthers(h, e, types, n - 1, c);
      ClearedOnce(h, e, types, n, c);
    }
  }

  lemma ThreadEndHistory(h: Heap, e: Entry, types: seq<ResourceType>, c: Cell)
    requires |e.storage| <= |types| && CellsDiffer(e.storage) && NullIfDone(e, types) && c != Null
    ensures var n := |e.storage|;
      History(ClearCells(h, e, types, n).0.log, c)
      == History(h.log, c) + (History(Dtors(e.storage, types, n), c) + History(Frees(e.storage, types, n), c))
  {
    var n := |e.storage|;
    if c in e.storage {
      var j :| 0 <= j < n && e.storage[j] == c;
      DtorsOf(e.storage, types, n, c, j);
      FreesOf(e.storage, types, n, c, j);
      ClearCellsOf(h, e, types, n, c, j);
    } else {
      EndOfOthers(e.storage, types, n);
      HistoryOfOthers(Dtors(e.storage, types, n), c);
      HistoryOfOthers(Frees(e.storage, types, n), c);
      ClearCellsOfOthers(h, e, types, n, c);
    }
  }

  /** Running all destructors and then freeing does to each block what disposing of the cells one by one does. */
  lemma ThreadEndHistories(h: Heap, e: Entry, types: seq<ResourceType>)
    requires |e.storage| <= |types| && CellsDiffer(e.storage) && NullIfDone(e, types)
    ensures var n := |e.storage|;
      SameHistories(ClearCells(h, e, types, n).0.log, h.log + Dtors(e.storage, types, n) + Frees(e.storage, types, n))
  {
    var n := |e.storage|;
    var d, f := Dtors(e.storage, types, n), Frees(e.storage, types, n);
    forall c | c != Null
      ensures History(ClearCells(h, e, types, n).0.log, c) == History(h.log + d + f, c)
    {
      HistoryAppend(h.log, d + f, c);
      HistoryAppend(d, f, c);
      ThreadEndHistory(h, e, types, c);
      assert h.log + d + f == h.log + (d + f);
    }
  }

  lemma AliveCellsDiffer(h: Heap, types: seq<ResourceType>, es: set<Entry>, e: Entry)
    requires CellsAlive(h, types, es) && e in es
    ensures CellsDiffer(e.storage)
  {
    forall j, k | 0 <= j < k < |e.storage| && e.storage[j] != Null
      ensures e.storage[j] != e.storage[k]
    {
      assert CellAlive(h, types, e, j) && CellAlive(h, types, e, k);
    }
  }

  /** An entry without blocks can go. */
  lemma RemoveTracked(h: Heap, types: seq<ResourceType>, es: set<Entry>, e: Entry)
    requires Tracked(h, types, es) && forall c :: c in e.storage ==> c == Null
    ensures Tracked(h, types, es - {e})
  {
    forall c | c != Null && Holds(es, c)
      ensures Holds(es - {e}, c)
    {
      var g :| g in es && c in g.storage;
      assert g in es - {e};
    }
  }

  lemma ThreadEndTracked(h: Heap, types: seq<ResourceType>, es: set<Entry>, e: Entry)
    requires Tracked(h, types, es) && e in es && |e.storage| <= |types| && NullIfDone(e, types)
    ensures var n := |e.storage|;
      Tracked(h.(log := h.log + Dtors(e.storage, types, n) + Frees(e.storage, types, n)), types, es - {e})
  {
    var n := |e.storage|;
    var (h', e') := ClearCells(h, e, types, n);
    ClearCellsTracked(h, types, es, e, n);
    ClearCellsShape(h, e, types, n);
    RemoveTracked(h', types, Replace(es, e, e'), e');
    RemoveReplaced(h, es, e, e');
    AliveCellsDiffer(h, types, es, e);
    ThreadEndHistories(h, e, types);
    ClearCellsNext(h, e, types, n);
    SameHistoriesTracked(h', h.log + Dtors(e.storage, types, n) + Frees(e.storage, types, n), types, es - {e});
  }

  lemma {:induction false} ClearCellsNext(h: Heap, e: Entry, types: seq<ResourceType>, n: nat)
    requires n <= |types|
    ensures ClearCells(h, e, types, n).0.next == h.next
  {
    if n > 0 {
      ClearCellsNext(h, e, types, n - 1);
    }
  }

  lemma RemoveReplaced(h: Heap, es: set<Entry>, e: Entry, f: Entry)
    requires NoSharing(es) && e in es && e.base == f.base
    ensures Replace(es, e, f) - {f} == es - {e}
  {
  }

  // ---------------------------------------------------------------- new entries and new types

  lemma NewEntryTracked(h: Heap, types: seq<ResourceType>, es: set<Entry>, thread: Thread)
    requires Tracked(h, types, es)
    ensures Tracked(h.(next := h.next + 1), types, es + {Entry(h.next, thread, [])})
  {
    var h' := h.(next := h.next + 1);
    var e0 := Entry(h.next, thread, []);
    forall e, j | e in es + {e0} && 0 <= j < |e.storage|
      ensures CellAlive(h', types, e, j)
    {
      assert CellAlive(h, types, e, j);
    }
    forall c | c != Null
      ensures History(h'.log, c) == [] || Holds(es + {e0}, c) || Ended(h', types, c)
    {
      if Holds(es, c) {
        var g :| g in es && c in g.storage;
        assert g in es + {e0};
      } else if Ended(h, types, c) {
        var id :| 0 <= id < |types| && History(h.log, c) == Birth(types[id], id, c) + Death(types[id], c);
        assert History(h'.log, c) == Birth(types[id], id, c) + Death(types[id], c);
      }
    }
  }

  /** More types, and types that are done, change nothing for the blocks there are. */
  lemma TypesTracked(h: Heap, types: seq<ResourceType>, more: seq<ResourceType>, es: set<Entry>)
    requires Tracked(h, types, es) && |types| <= |more|
    requires forall j :: 0 <= j < |types| ==> more[j] == types[j].(done := more[j].done)
    ensures Tracked(h, more, es)
  {
    assert forall j, c :: 0 <= j < |types| ==>
      Birth(more[j], j, c) == Birth(types[j], j, c) && Death(more[j], c) == Death(types[j], c);
    forall e, j | e in es && 0 <= j < |e.storage|
      ensures CellAlive(h, more, e, j)
    {
      assert CellAlive(h, types, e, j);
    }
    forall c | c != Null && Ended(h, types, c)
      ensures Ended(h, more, c)
    {
      var id :| 0 <= id < |types| && History(h.log, c) == Birth(types[id], id, c) + Death(types[id], c);
      assert History(h.log, c) == Birth(more[id], id, c) + Death(more[id], c);
    }
  }
}
