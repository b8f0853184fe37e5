/** The recursive printers as they run: marks set and cleared on shared containers, text appended to a buffer. */
module PrinterProcess {
  import opened Collections
  import opened PrinterText

  /** The containers that carry a mark. */
  ghost function Marked(w: World): set<Table>
    reads w.tables`mark
  {
    set t | t in w.tables && t.mark
  }

  lemma HashPieces(before: string, spaces: string, rows: string)
    ensures (before + spaces + "(\n" + rows + spaces + ")\n"
             == before + (spaces + "(\n" + rows + spaces + ")\n"))
  {
  }

  lemma RowPieces(before: string, spaces: string, key: string)
    ensures before + spaces + ("[" + key + "] => ") == before + (spaces + "[" + key + "] => ")
  {
  }

  class Printer {
    var buf: string

    constructor ()
      ensures buf == ""
    {
      buf := "";
    }

    method Append(s: string)
      modifies this
      ensures buf == old(buf) + s
    {
      buf := buf + s;
    }

    method AppendSpaces(indent: nat)
      modifies this
      ensures buf == old(buf) + Spaces(indent)
    {
      for i := 0 to indent
        invariant buf == old(buf) + Spaces(i)
      {
        buf := buf + " ";
        assert Spaces(i + 1) == Spaces(i) + " ";
      }
    }

    /** Appends what the pure printer writes when its ancestors are the marked containers; the marks end as they were. */
    method PrintValue(v: Value, indent: nat, ghost w: World)
      requires Closed(w) && In(v, w)
      modifies this, w.tables`mark
      ensures buf == old(buf) + Text(v, indent, old(Marked(w)), w, NOTICE)
      ensures forall t :: t in w.tables ==> t.mark == old(t.mark)
      decreases |w.tables - Marked(w)|, Level(v), v, 1
    {
      hide Decimal, HashText;
      match v {
        case Scalar(text) =>
          Append(text);
        case Long(n) =>
          Append(Decimal(n));
        case Constant(entries) =>
          PrintConstant(entries, indent, w);
        case Ref(cell) =>
          PrintValue(cell.value, indent, w);
        case Container(t) =>
          PrintContainer(t, indent, w);
      }
    }

    method PrintConstant(entries: seq<Entry>, indent: nat, ghost w: World)
      requires Closed(w) && AllLiteral(entries)
      modifies this, w.tables`mark
      ensures buf == old(buf) + Text(Constant(entries), indent, old(Marked(w)), w, NOTICE)
      ensures forall t :: t in w.tables ==> t.mark == old(t.mark)
      decreases |w.tables - Marked(w)|, 0, Constant(entries), 0
    {
      hide Text, HashText, Closed;
      ConstantText(entries, indent, Marked(w), w, NOTICE);
      Append("Array\n");
      PrintHash(entries, indent, false, true, w);
    }

    method PrintContainer(t: Table, indent: nat, ghost w: World)
      requires Closed(w) && t in w.tables
      modifies this, w.tables`mark
      ensures buf == old(buf) + Text(Container(t), indent, old(Marked(w)), w, NOTICE)
      ensures forall u :: u in w.tables ==> u.mark == old(u.mark)
      decreases |w.tables - Marked(w)|, 0, Container(t), 0
    {
      hide Text, HashText, Header, Closed, AllIn;
      ghost var path := Marked(w);
      ContainerText(t, indent, path, w, NOTICE);
      Append(Header(t.className));
      if t.mark {
        Append(NOTICE);
        return;
      }
      if t.entries.None? {
        return;
      }
      EntriesIn(t, w);
      PrintMarked(t, indent, w);
    }

    method PrintMarked(t: Table, indent: nat, ghost w: World)
      requires Closed(w) && t in w.tables && !t.mark && t.entries.Some? && AllIn(t.entries.value, w)
      modifies this, w.tables`mark
      ensures (buf == old(buf)
                      + HashText(t.entries.value, indent, t.className.Some?, false, old(Marked(w)) + {t}, w, NOTICE))
      ensures forall u :: u in w.tables ==> u.mark == old(u.mark)
      decreases |w.tables - Marked(w)|, 0, Container(t), -1
    {
      hide HashText, Closed, AllIn;
      ghost var path := Marked(w);
      OneFewer(w.tables, path, t);
      t.mark := true;
      assert Marked(w) == path + {t};
      PrintHash(t.entries.value, indent, t.className.Some?, false, w);
      t.mark := false;
    }

    method PrintHash(entries: seq<Entry>, indent: nat, isObject: bool, ghost literal: bool, ghost w: World)
      requires Closed(w) && AllIn(entries, w) && (literal ==> AllLiteral(entries))
      modifies this, w.tables`mark
      ensures buf == old(buf) + HashText(entries, indent, isObject, literal, old(Marked(w)), w, NOTICE)
      ensures forall t :: t in w.tables ==> t.mark == old(t.mark)
      decreases |w.tables - Marked(w)|, if literal then 0 else 2, entries, 2
    {
      hide RowsText, Spaces, Closed, AllIn;
      HashPieces(buf, Spaces(indent), RowsText(entries, indent + INDENT, isObject, literal, Marked(w), w, NOTICE));
      AppendSpaces(indent);
      Append("(\n");
      PrintRows(entries, indent + INDENT, isObject, literal, w);
      AppendSpaces(indent);
      Append(")\n");
    }

    method PrintRows(entries: seq<Entry>, indent: nat, isObject: bool, ghost literal: bool, ghost w: World)
      requires Closed(w) && AllIn(entries, w) && (literal ==> AllLiteral(entries))
      modifies this, w.tables`mark
      ensures buf == old(buf) + RowsText(entries, indent, isObject, literal, old(Marked(w)), w, NOTICE)
      ensures forall t :: t in w.tables ==> t.mark == old(t.mark)
      decreases |w.tables - Marked(w)|, if literal then 0 else 2, entries, 1
    {
      hide RowsText, Spaces, KeyText, Text, Closed, In, Literal;
      NoRows(indent, isObject, literal, Marked(w), w, NOTICE);
      for i := 0 to |entries|
        invariant buf == old(buf) + RowsText(entries[..i], indent, isObject, literal, old(Marked(w)), w, NOTICE)
        invariant forall t :: t in w.tables ==> t.mark == old(t.mark)
      {
        assert Marked(w) == old(Marked(w));
        RowsStep(entries, i, indent, isObject, literal, Marked(w), w, NOTICE);
        PrintRow(entries, i, indent, isObject, literal, w);
      }
      assert entries[..|entries|] == entries;
    }

    method PrintRow(entries: seq<Entry>, i: nat, indent: nat, isObject: bool, ghost literal: bool, ghost w: World)
      requires i < |entries|
      requires Closed(w) && AllIn(entries, w) && (literal ==> AllLiteral(entries))
      modifies this, w.tables`mark
      ensures (buf == old(buf) + (Spaces(indent) + "[" + KeyText(entries[i].key, isObject) + "] => ")
                      + Text(entries[i].value, indent + INDENT, old(Marked(w)), w, NOTICE) + "\n")
      ensures forall t :: t in w.tables ==> t.mark == old(t.mark)
      decreases |w.tables - Marked(w)|, if literal then 0 else 2, entries, 0
    {
      hide Spaces, Decimal, KeyText, Text;
      AppendSpaces(indent);
      Append("[" + KeyText(entries[i].key, isObject) + "] => ");
      assert literal ==> Literal(entries[i].value);
      assert entries[i] decreases to entries[i].value;
      RowPieces(old(buf), Spaces(indent), KeyText(entries[i].key, isObject));
      PrintValue(entries[i].value, indent + INDENT, w);
      Append("\n");
    }

    // the flat printer

    method FlatValue(v: Value, ghost w: World)
      requires Closed(w) && In(v, w)
      modifies this, w.tables`mark
      ensures buf == old(buf) + FlatText(v, old(Marked(w)), w, NOTICE, CLOSE)
      ensures forall t :: t in w.tables ==> t.mark == old(t.mark)
      decreases |w.tables - Marked(w)|, Level(v), v, 1
    {
      hide Decimal, FlatRows;
      match v {
        case Scalar(text) =>
          Append(text);
        case Long(n) =>
          Append(Decimal(n));
        case Constant(entries) =>
          FlatConstant(entries, w);
        case Ref(cell) =>
          FlatValue(cell.value, w);
        case Container(t) =>
          FlatContainer(t, w);
      }
    }

    method FlatConstant(entries: seq<Entry>, ghost w: World)
      requires Closed(w) && AllLiteral(entries)
      modifies this, w.tables`mark
      ensures buf == old(buf) + FlatText(Constant(entries), old(Marked(w)), w, NOTICE, CLOSE)
      ensures forall t :: t in w.tables ==> t.mark == old(t.mark)
      decreases |w.tables - Marked(w)|, 0, Constant(entries), 0
    {
      hide FlatText, FlatRows, Closed;
      FlatConstantText(entries, Marked(w), w, NOTICE, CLOSE);
      Append("Array (");
      FlatHash(entries, true, w);
      Append(CLOSE);
    }

    method FlatContainer(t: Table, ghost w: World)
      requires Closed(w) && t in w.tables
      modifies this, w.tables`mark
      ensures buf == old(buf) + FlatText(Container(t), old(Marked(w)), w, NOTICE, CLOSE)
      ensures forall u :: u in w.tables ==> u.mark == old(u.mark)
      decreases |w.tables - Marked(w)|, 0, Container(t), 0
    {
      hide FlatText, FlatRows, FlatHeader, Closed, AllIn;
      ghost var path := Marked(w);
      FlatContainerText(t, path, w, NOTICE, CLOSE);
      Append(FlatHeader(t.className));
      if t.mark {
        Append(NOTICE);
        return;
      }
      if t.entries.Some? {
        EntriesIn(t, w);
        FlatMarked(t, w);
      }
      Append(CLOSE);
    }

    method FlatMarked(t: Table, ghost w: World)
      requires Closed(w) && t in w.tables && !t.mark && t.entries.Some? && AllIn(t.entries.value, w)
      modifies this, w.tables`mark
      ensures buf == old(buf) + FlatRows(t.entries.value, false, old(Marked(w)) + {t}, w, NOTICE, CLOSE)
      ensures forall u :: u in w.tables ==> u.mark == old(u.mark)
      decreases |w.tables - Marked(w)|, 0, Container(t), -1
    {
      hide FlatRows, Closed, AllIn;
      ghost var path := Marked(w);
      OneFewer(w.tables, path, t);
      t.mark := true;
      assert Marked(w) == path + {t};
      FlatHash(t.entries.value, false, w);
      t.mark := false;
    }

    method FlatHash(entries: seq<Entry>, ghost literal: bool, ghost w: World)
      requires Closed(w) && AllIn(entries, w) && (literal ==> AllLiteral(entries))
      modifies this, w.tables`mark
      ensures buf == old(buf) + FlatRows(entries, literal, old(Marked(w)), w, NOTICE, CLOSE)
      ensures forall t :: t in w.tables ==> t.mark == old(t.mark)
      decreases |w.tables - Marked(w)|, if literal then 0 else 2, entries, 1
    {
      hide FlatRows, FlatKeyText, FlatText, Closed, In, Literal;
      NoFlatRows(literal, Marked(w), w, NOTICE, CLOSE);
      for i := 0 to |entries|
        invariant buf == old(buf) + FlatRows(entries[..i], literal, old(Marked(w)), w, NOTICE, CLOSE)
        invariant forall t :: t in w.tables ==> t.mark == old(t.mark)
      {
        assert Marked(w) == old(Marked(w));
        FlatRowsStep(entries, i, literal, Marked(w), w, NOTICE, CLOSE);
        FlatRow(entries, i, literal, w);
      }
      assert entries[..|entries|] == entries;
    }

    method FlatRow(entries: seq<Entry>, i: nat, ghost literal: bool, ghost w: World)
      requires i < |entries|
      requires Closed(w) && AllIn(entries, w) && (literal ==> AllLiteral(entries))
      modifies this, w.tables`mark
      ensures (buf == old(buf) + (if i > 0 then "," else "") + ("[" + FlatKeyText(entries[i].key) + "] => ")
                      + FlatText(entries[i].value, old(Marked(w)), w, NOTICE, CLOSE))
      ensures forall t :: t in w.tables ==> t.mark == old(t.mark)
      decreases |w.tables - Marked(w)|, if literal then 0 else 2, entries, 0
    {
      hide FlatKeyText, FlatText;
      if i > 0 {
        Append(",");
      }
      Append("[" + FlatKeyText(entries[i].key) + "] => ");
      assert literal ==> Literal(entries[i].value);
      assert entries[i] decreases to entries[i].value;
      FlatValue(entries[i].value, w);
    }
  }
}
