/** When the nested and the flat printer report recursion: exactly when some walk through the containers comes back. */
module PrinterCycles {
  import opened Collections
  import opened PrinterText

  /** How many times a container on the path is met again. */
  ghost function Cuts(v: Value, path: set<Table>, w: World): nat
    requires Closed(w) && In(v, w)
    reads w.tables`entries, w.cells`value
    decreases |w.tables - path|, Level(v), v
  {
    match v
    case Scalar(_) => 0
    case Long(_) => 0
    case Constant(entries) =>
      LiteralsAreIn(entries, w);
      RowCuts(entries, true, path, w)
    case Ref(cell) => Cuts(cell.value, path, w)
    case Container(t) =>
      if t in path then 1
      else if t.entries.None? then 0
      else
        OneFewer(w.tables, path, t);
        RowCuts(t.entries.value, false, path + {t}, w)
  }

  ghost function RowCuts(entries: seq<Entry>, literal: bool, path: set<Table>, w: World): nat
    requires Closed(w) && AllIn(entries, w) && (literal ==> AllLiteral(entries))
    reads w.tables`entries, w.cells`value
    decreases |w.tables - path|, if literal then 0 else 2, entries
  {
    if entries == [] then 0
    else
      var n := |entries| - 1;
      assert literal ==> Literal(entries[n].value);
      assert entries[n] decreases to entries[n].value;
      RowCuts(entries[..n], literal, path, w) + Cuts(entries[n].value, path, w)
  }

  // ---------------------------------------------------------------- each cut prints one notice

  /** The output holds one notice for each cut, and nothing else depends on the notice. */
  lemma {:induction false} NoticesPrinted(v: Value, indent: nat, path: set<Table>, w: World)
    requires Closed(w) && In(v, w)
    ensures |Text(v, indent, path, w, NOTICE)| == |Text(v, indent, path, w, "")| + |NOTICE| * Cuts(v, path, w)
    ensures Cuts(v, path, w) == 0 ==> Text(v, indent, path, w, NOTICE) == Text(v, indent, path, w, "")
    decreases |w.tables - path|, Level(v), v, 1
  {
    match v {
      case Scalar(_) =>
      case Long(_) =>
      case Constant(entries) =>
        LiteralsAreIn(entries, w);
        RowNotices(entries, indent + INDENT, false, true, path, w);
      case Ref(cell) =>
        NoticesPrinted(cell.value, indent, path, w);
      case Container(t) =>
        if t !in path && t.entries.Some? {
          OneFewer(w.tables, path, t);
          RowNotices(t.entries.value, indent + INDENT, t.className.Some?, false, path + {t}, w);
        }
    }
  }

  lemma {:induction false} RowNotices(entries: seq<Entry>, indent: nat, isObject: bool, literal: bool, path: set<Table>,
                                      w: World)
    requires Closed(w) && AllIn(entries, w) && (literal ==> AllLiteral(entries))
    ensures (|RowsText(entries, indent, isObject, literal, path, w, NOTICE)|
             == |RowsText(entries, indent, isObject, literal, path, w, "")| + |NOTICE| * RowCuts(entries, literal, path, w))
    ensures RowCuts(entries, literal, path, w) == 0 ==>
              (RowsText(entries, indent, isObject, literal, path, w, NOTICE)
               == RowsText(entries, indent, isObject, literal, path, w, ""))
    decreases |w.tables - path|, if literal then 0 else 2, entries
  {
    hide Text, KeyText, Spaces, Cuts, Closed, In;
    if entries != [] {
      var n := |entries| - 1;
      Distribute(|NOTICE|, RowCuts(entries[..n], literal, path, w), Cuts(entries[n].value, path, w));
      RowNotices(entries[..n], indent, isObject, literal, path, w);
      assert literal ==> Literal(entries[n].value);
      assert entries[n] decreases to entries[n].value;
      NoticesPrinted(entries[n].value, indent + INDENT, path, w);
    }
  }

  lemma Distribute(n: nat, a: nat, b: nat)
    ensures n * (a + b) == n * a + n * b
  {
  }

  // ---------------------------------------------------------------- the flat printer

  /** How many parentheses are opened: one for each container and immutable array come to. */
  ghost function Opens(v: Value, path: set<Table>, w: World): nat
    requires Closed(w) && In(v, w)
    reads w.tables`entries, w.cells`value
    decreases |w.tables - path|, Level(v), v
  {
    match v
    case Scalar(_) => 0
    case Long(_) => 0
    case Constant(entries) =>
      LiteralsAreIn(entries, w);
      1 + RowOpens(entries, true, path, w)
    case Ref(cell) => Opens(cell.value, path, w)
    case Container(t) =>
      if t in path || t.entries.None? then 1
      else
        OneFewer(w.tables, path, t);
        1 + RowOpens(t.entries.value, false, path + {t}, w)
  }

  ghost function RowOpens(entries: seq<Entry>, literal: bool, path: set<Table>, w: World): nat
    requires Closed(w) && AllIn(entries, w) && (literal ==> AllLiteral(entries))
    reads w.tables`entries, w.cells`value
    decreases |w.tables - path|, if literal then 0 else 2, entries
  {
    if entries == [] then 0
    else
      var n := |entries| - 1;
      assert literal ==> Literal(entries[n].value);
      assert entries[n] decreases to entries[n].value;
      RowOpens(entries[..n], literal, path, w) + Opens(entries[n].value, path, w)
  }

  /** The flat output holds one notice for each cut, and closes every parenthesis but those. */
  lemma {:induction false} FlatNoticesPrinted(v: Value, path: set<Table>, w: World, notice: string)
    requires Closed(w) && In(v, w)
    ensures Cuts(v, path, w) <= Opens(v, path, w)
    ensures (|FlatText(v, path, w, notice, CLOSE)|
             == |FlatText(v, path, w, "", "")| + |notice| * Cuts(v, path, w) + (Opens(v, path, w) - Cuts(v, path, w)))
    ensures Cuts(v, path, w) == 0 ==> FlatText(v, path, w, notice, CLOSE) == FlatText(v, path, w, "", CLOSE)
    decreases |w.tables - path|, Level(v), v, 1
  {
    hide FlatRows, RowCuts, RowOpens, Decimal;
    match v {
      case Scalar(_) =>
      case Long(_) =>
      case Constant(entries) =>
        LiteralsAreIn(entries, w);
        FlatRowNotices(entries, true, path, w, notice);
      case Ref(cell) =>
        FlatNoticesPrinted(cell.value, path, w, notice);
      case Container(t) =>
        if t !in path && t.entries.Some? {
          OneFewer(w.tables, path, t);
          FlatRowNotices(t.entries.value, false, path + {t}, w, notice);
        }
    }
  }

  lemma {:induction false} FlatRowNotices(entries: seq<Entry>, literal: bool, path: set<Table>, w: World, notice: string)
    requires Closed(w) && AllIn(entries, w) && (literal ==> AllLiteral(entries))
    ensures RowCuts(entries, literal, path, w) <= RowOpens(entries, literal, path, w)
    ensures (|FlatRows(entries, literal, path, w, notice, CLOSE)|
             == |FlatRows(entries, literal, path, w, "", "")| + |notice| * RowCuts(entries, literal, path, w)
                + (RowOpens(entries, literal, path, w) - RowCuts(entries, literal, path, w)))
    ensures RowCuts(entries, literal, path, w) == 0 ==>
              FlatRows(entries, literal, path, w, notice, CLOSE) == FlatRows(entries, literal, path, w, "", CLOSE)
    decreases |w.tables - path|, if literal then 0 else 2, entries
  {
    hide FlatText, FlatKeyText, Cuts, Opens, Closed, In;
    if entries != [] {
      var n := |entries| - 1;
      Distribute(|notice|, RowCuts(entries[..n], literal, path, w), Cuts(entries[n].value, path, w));
      FlatRowNotices(entries[..n], literal, path, w, notice);
      assert literal ==> Literal(entries[n].value);
      assert entries[n] decreases to entries[n].value;
      FlatNoticesPrinted(entries[n].value, path, w, notice);
    }
  }

  // ---------------------------------------------------------------- walks

  /** The container a value leads to, if any. */
  ghost function Held(v: Value, w: World): set<Table>
    reads w.cells`value
  {
    match v
    case Container(t) => {t}
    case Ref(cell) => if cell in w.cells && cell.value.Container? then {cell.value.table} else {}
    case _ => {}
  }

  ghost predicate Edge(t: Table, u: Table, w: World)
    reads w.tables`entries, w.cells`value
  {
    t in w.tables && t.entries.Some? && exists i :: 0 <= i < |t.entries.value| && u in Held(t.entries.value[i].value, w)
  }

  ghost predicate Walk(walk: seq<Table>, w: World)
    reads w.tables`entries, w.cells`value
  {
    walk != [] && forall i :: 0 <= i < |walk| - 1 ==> Edge(walk[i], walk[i + 1], w)
  }

  /** The walk ends on the path or where it has been before. */
  ghost predicate Returns(walk: seq<Table>, path: set<Table>)
    requires walk != []
  {
    walk[|walk| - 1] in path || walk[|walk| - 1] in walk[..|walk| - 1]
  }

  lemma {:induction false} LiteralsNotCut(v: Value, path: set<Table>, w: World)
    requires Closed(w) && Literal(v)
    ensures In(v, w) && Cuts(v, path, w) == 0
    decreases v, 1
  {
    if v.Constant? {
      LiteralsAreIn(v.entries, w);
      LiteralRowsNotCut(v.entries, path, w);
    }
  }

  lemma {:induction false} LiteralRowsNotCut(entries: seq<Entry>, path: set<Table>, w: World)
    requires Closed(w) && AllIn(entries, w) && AllLiteral(entries)
    ensures RowCuts(entries, true, path, w) == 0
    decreases entries
  {
    if entries != [] {
      var n := |entries| - 1;
      LiteralRowsNotCut(entries[..n], path, w);
      assert entries[n] decreases to entries[n].value;
      LiteralsNotCut(entries[n].value, path, w);
    }
  }

  lemma {:induction false} SomeRowCut(entries: seq<Entry>, path: set<Table>, w: World) returns (i: nat)
    requires Closed(w) && AllIn(entries, w) && RowCuts(entries, false, path, w) > 0
    ensures i < |entries| && Cuts(entries[i].value, path, w) > 0
    decreases |entries|
  {
    var n := |entries| - 1;
    if Cuts(entries[n].value, path, w) > 0 {
      i := n;
    } else {
      i := SomeRowCut(entries[..n], path, w);
    }
  }

  lemma {:induction false} RowCutCounts(entries: seq<Entry>, i: nat, path: set<Table>, w: World)
    requires Closed(w) && AllIn(entries, w) && i < |entries| && Cuts(entries[i].value, path, w) > 0
    ensures RowCuts(entries, false, path, w) > 0
    decreases |entries|
  {
    var n := |entries| - 1;
    if i < n {
      RowCutCounts(entries[..n], i, path, w);
    }
  }

  lemma {:induction false} CutHasWalk(v: Value, path: set<Table>, w: World) returns (walk: seq<Table>)
    requires Closed(w) && In(v, w) && Cuts(v, path, w) > 0
    ensures Walk(walk, w) && walk[0] in Held(v, w) && Returns(walk, path)
    decreases |w.tables - path|, Level(v)
  {
    match v {
      case Constant(_) =>
        LiteralsNotCut(v, path, w);
      case Ref(cell) =>
        walk := CutHasWalk(cell.value, path, w);
      case Container(t) =>
        if t in path {
          walk := [t];
        } else {
          OneFewer(w.tables, path, t);
          var i := SomeRowCut(t.entries.value, path + {t}, w);
          var rest := CutHasWalk(t.entries.value[i].value, path + {t}, w);
          walk := [t] + rest;
          assert Edge(t, rest[0], w);
          StepBack(t, rest, path);
        }
    }
  }

  lemma StepBack(t: Table, rest: seq<Table>, path: set<Table>)
    requires rest != [] && Returns(rest, path + {t})
    ensures Returns([t] + rest, path)
  {
    var walk, n := [t] + rest, |rest|;
    assert walk[..n] == [t] + rest[..n - 1];
  }

  lemma StepOn(walk: seq<Table>, path: set<Table>)
    requires |walk| > 1 && Returns(walk, path)
    ensures Returns(walk[1..], path + {walk[0]})
  {
    var n := |walk| - 1;
    assert walk[..n] == [walk[0]] + walk[1..][..n - 1];
  }

  lemma RestWalks(walk: seq<Table>, w: World)
    requires Walk(walk, w) && |walk| > 1
    ensures Walk(walk[1..], w)
  {
    var rest := walk[1..];
    forall k | 0 <= k < |rest| - 1
      ensures Edge(rest[k], rest[k + 1], w)
    {
      var j := k + 1;
      assert rest[k] == walk[j] && rest[k + 1] == walk[j + 1];
    }
  }

  lemma {:induction false} WalkCuts(v: Value, path: set<Table>, w: World, walk: seq<Table>)
    requires Closed(w) && In(v, w)
    requires Walk(walk, w) && walk[0] in Held(v, w) && Returns(walk, path)
    ensures Cuts(v, path, w) > 0
    decreases |walk|, Level(v)
  {
    if v.Ref? {
      WalkCuts(v.cell.value, path, w, walk);
    } else {
      var t := v.table;
      if t !in path {
        assert |walk| > 1;
        assert Edge(walk[0], walk[1], w);
        var i :| 0 <= i < |t.entries.value| && walk[1] in Held(t.entries.value[i].value, w);
        StepOn(walk, path);
        RestWalks(walk, w);
        WalkCuts(t.entries.value[i].value, path + {t}, w, walk[1..]);
        OneFewer(w.tables, path, t);
        RowCutCounts(t.entries.value, i, path + {t}, w);
      }
    }
  }

  /** Recursion is reported exactly when a walk from the value comes back to a container on the path or on the walk. */
  lemma RecursionIffWalkReturns(v: Value, path: set<Table>, w: World)
    requires Closed(w) && In(v, w)
    ensures Cuts(v, path, w) > 0 <==> exists walk :: Walk(walk, w) && walk[0] in Held(v, w) && Returns(walk, path)
  {
    if Cuts(v, path, w) > 0 {
      var walk := CutHasWalk(v, path, w);
    }
    if walk :| Walk(walk, w) && walk[0] in Held(v, w) && Returns(walk, path) {
      WalkCuts(v, path, w, walk);
    }
  }

  /** Printed from an unmarked state, a value shows the notice exactly when a walk from it visits a container twice. */
  lemma NoticeIffCycle(v: Value, indent: nat, w: World)
    requires Closed(w) && In(v, w)
    ensures (Text(v, indent, {}, w, NOTICE) != Text(v, indent, {}, w, "")
             <==> exists walk :: Walk(walk, w) && walk[0] in Held(v, w) && walk[|walk| - 1] in walk[..|walk| - 1])
  {
    hide Text, Cuts, Closed, In, Walk, Held;
    NoticesPrinted(v, indent, {}, w);
    RecursionIffWalkReturns(v, {}, w);
    assert forall walk :: walk != [] ==> (Returns(walk, {}) <==> walk[|walk| - 1] in walk[..|walk| - 1]);
  }

  /** Printed flat from an unmarked state: a walk that visits a container twice is what makes the notice appear and what
      keeps parentheses open. */
  lemma FlatNoticeIffCycle(v: Value, w: World)
    requires Closed(w) && In(v, w)
    ensures (FlatText(v, {}, w, NOTICE, CLOSE) != FlatText(v, {}, w, "", CLOSE)
             <==> exists walk :: Walk(walk, w) && walk[0] in Held(v, w) && walk[|walk| - 1] in walk[..|walk| - 1])
    ensures (|FlatText(v, {}, w, NOTICE, CLOSE)| == |FlatText(v, {}, w, "", "")| + Opens(v, {}, w)
             <==> !exists walk :: Walk(walk, w) && walk[0] in Held(v, w) && walk[|walk| - 1] in walk[..|walk| - 1])
  {
    hide FlatText, Cuts, Opens, Closed, In, Walk, Held;
    FlatNoticesPrinted(v, {}, w, NOTICE);
    FlatNoticesPrinted(v, {}, w, "");
    RecursionIffWalkReturns(v, {}, w);
    assert forall walk :: walk != [] ==> (Returns(walk, {}) <==> walk[|walk| - 1] in walk[..|walk| - 1]);
  }
}
