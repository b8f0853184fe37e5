/** What the recursive printers show, place by place: every leaf, key, blank and bracket of the output. */
module PrinterShown {
  import opened Collections
  import opened PrinterText

  // ---------------------------------------------------------------- numbers

  predicate AllDigits(s: string) {
    forall i :: 0 <= i < |s| ==> '0' <= s[i] <= '9'
  }

  function ReadDigits(s: string): nat
    requires AllDigits(s)
  {
    if s == "" then 0
    else 10 * ReadDigits(s[..|s| - 1]) + (s[|s| - 1] as int - '0' as int)
  }

  /** The digits of a number, without leading zeros. */
  predicate Shows(s: string, n: nat) {
    s != "" && AllDigits(s) && (|s| > 1 ==> s[0] != '0') && ReadDigits(s) == n
  }

  predicate ShowsSigned(s: string, n: int) {
    if n < 0 then s != "" && s[0] == '-' && Shows(s[1..], -n) else Shows(s, n)
  }

  lemma DigitShows(n: nat)
    requires n < 10
    ensures Shows(["0123456789"[n]], n) && (n > 0 ==> "0123456789"[n] != '0')
  {
    var s := ["0123456789"[n]];
    assert s[..0] == "";
  }

  lemma {:induction false} DigitsShow(n: nat)
    ensures Shows(Digits(n), n) && (n > 0 ==> Digits(n)[0] != '0')
  {
    if n < 10 {
      DigitShows(n);
    } else {
      DigitsShow(n / 10);
      DigitShows(n % 10);
      var front, last := Digits(n / 10), "0123456789"[n % 10];
      assert Digits(n) == front + [last];
      assert (front + [last])[..|front|] == front;
      assert last as int - '0' as int == n % 10 by {
        assert ReadDigits([last]) == 10 * ReadDigits([last][..0]) + (last as int - '0' as int);
      }
    }
  }

  lemma DecimalShows(n: int)
    ensures ShowsSigned(Decimal(n), n)
  {
    hide Digits, Shows;
    if n < 0 {
      DigitsShow(-n);
      assert Decimal(n)[1..] == Digits(-n);
    } else {
      DigitsShow(n);
    }
  }

  // ---------------------------------------------------------------- keys

  /** An integer key is shown as a signed word by the nested printer and as an unsigned one by the flat printer. */
  lemma IndexShown(n: Word64, isObject: bool)
    ensures ShowsSigned(KeyText(Index(n), isObject), if n < 0x8000_0000_0000_0000 then n else n - 0x1_0000_0000_0000_0000)
    ensures Shows(FlatKeyText(Index(n)), n)
  {
    hide Decimal, Shows;
    DecimalShows(Signed(n));
    DecimalShows(n);
  }

  /** A string key is shown as it is, also by the nested printer for an object unless it starts with a NUL. */
  lemma NameShown(name: string, isObject: bool)
    ensures FlatKeyText(Name(name)) == name
    ensures !isObject || name == "" || name[0] != '\0' ==> KeyText(Name(name), isObject) == name
  {
    assert name + "" == name;
  }

  /** A private property is shown with its class, a protected one with the word. */
  lemma PropertyShown(className: string, name: string)
    requires className != "" && '\0' !in className && name != "" && '\0' !in name
    ensures KeyText(Name("\0" + className + "\0" + name), true)
      == if className[0] == '*' then name + ":protected" else name + ":" + className + ":private"
  {
    hide Unmangle, Mangle;
    UnmangleMangled(className, name);
    assert Mangle(className, name) == "\0" + className + "\0" + name by { MangleIs(className, name); }
    assert className[..1] == [className[0]];
    assert name + (":" + className + ":private") == name + ":" + className + ":private";
  }

  lemma MangleIs(className: string, name: string)
    ensures Mangle(className, name) == "\0" + className + "\0" + name
  {
  }

  // ---------------------------------------------------------------- the nested printer

  /** A string is shown as it is, an integer by its digits, and a reference as what it refers to. */
  lemma LeafShown(v: Value, indent: nat, path: set<Table>, w: World, notice: string)
    requires Closed(w) && In(v, w)
    ensures v.Scalar? ==> Text(v, indent, path, w, notice) == v.text
    ensures v.Long? ==> ShowsSigned(Text(v, indent, path, w, notice), v.n)
    ensures v.Ref? ==> Text(v, indent, path, w, notice) == Text(v.cell.value, indent, path, w, notice)
  {
    if v.Long? {
      DecimalShows(v.n);
    }
  }

  /** A container met again is shown as its heading and the notice, an object without properties as its heading. */
  lemma MetShown(t: Table, indent: nat, path: set<Table>, w: World)
    requires Closed(w) && t in w.tables && (t in path || t.entries.None?)
    ensures var heading := if t.className.None? then "Array\n" else t.className.value + " Object\n";
      Text(Container(t), indent, path, w, NOTICE) == heading + if t in path then " *RECURSION*" else ""
  {
  }

  /** What stands between two places of a text. */
  predicate Between(text: string, i: nat, j: nat, what: string) {
    i <= j <= |text| && text[i..j] == what
  }

  lemma BetweenInside(before: string, s: string, after: string, i: nat, j: nat, what: string)
    requires Between(s, i, j, what)
    ensures Between(before + s + after, |before| + i, |before| + j, what)
  {
  }

  lemma BetweenLonger(s: string, after: string, i: nat, j: nat, what: string)
    requires Between(s, i, j, what)
    ensures Between(s + after, i, j, what)
  {
  }

  lemma BetweenLast(s: string, what: string)
    ensures Between(s + what, |s|, |s + what|, what)
  {
  }

  /** The row of an entry: blanks, the key, the text of its value four blanks further in, and a new line. */
  ghost function Row(e: Entry, indent: nat, isObject: bool, path: set<Table>, w: World, notice: string): string
    requires Closed(w) && In(e.value, w)
    reads w.tables`entries, w.cells`value
  {
    Spaces(indent) + "[" + KeyText(e.key, isObject) + "] => " + Text(e.value, indent + 4, path, w, notice) + "\n"
  }

  /** One row per entry, in order. */
  ghost predicate RowsAt(text: string, at: seq<nat>, entries: seq<Entry>, indent: nat, isObject: bool, path: set<Table>,
                         w: World, notice: string)
    requires Closed(w) && AllIn(entries, w)
    reads w.tables`entries, w.cells`value
  {
    && |at| == |entries| + 1 && at[0] <= |text| && at[|entries|] <= |text|
    && forall i :: 0 <= i < |entries| ==>
        Between(text, at[i], at[i + 1], Row(entries[i], indent, isObject, path, w, notice))
  }

  lemma NextRow(entries: seq<Entry>, indent: nat, isObject: bool, literal: bool, path: set<Table>, w: World,
                notice: string)
    requires Closed(w) && AllIn(entries, w) && (literal ==> AllLiteral(entries)) && entries != []
    ensures var n := |entries| - 1;
      RowsText(entries, indent, isObject, literal, path, w, notice)
      == RowsText(entries[..n], indent, isObject, literal, path, w, notice)
         + Row(entries[n], indent, isObject, path, w, notice)
  {
    hide Spaces, KeyText, Text, Closed, Literal, In;
    var n := |entries| - 1;
    RowsStep(entries, n, indent, isObject, literal, path, w, notice);
    assert entries[..n + 1] == entries;
    RowPieces(RowsText(entries[..n], indent, isObject, literal, path, w, notice), Spaces(indent),
              KeyText(entries[n].key, isObject), Text(entries[n].value, indent + INDENT, path, w, notice));
  }

  lemma {:induction false} RowsShown(entries: seq<Entry>, indent: nat, isObject: bool, literal: bool, path: set<Table>,
                                     w: World, notice: string) returns (at: seq<nat>)
    requires Closed(w) && AllIn(entries, w) && (literal ==> AllLiteral(entries))
    ensures var rows := RowsText(entries, indent, isObject, literal, path, w, notice);
      RowsAt(rows, at, entries, indent, isObject, path, w, notice) && at[0] == 0 && at[|entries|] == |rows|
    decreases |entries|
  {
    hide Row, RowsText, Closed, Literal, In, Between;
    var rows := RowsText(entries, indent, isObject, literal, path, w, notice);
    if entries == [] {
      NoRows(indent, isObject, literal, path, w, notice);
      at := [0];
    } else {
      var n := |entries| - 1;
      var front := RowsShown(entries[..n], indent, isObject, literal, path, w, notice);
      NextRow(entries, indent, isObject, literal, path, w, notice);
      var before, row := RowsText(entries[..n], indent, isObject, literal, path, w, notice),
        Row(entries[n], indent, isObject, path, w, notice);
      at := front + [|rows|];
      BetweenLast(before, row);
      forall i | 0 <= i < n
        ensures Between(rows, at[i], at[i + 1], Row(entries[i], indent, isObject, path, w, notice))
      {
        assert entries[..n][i] == entries[i];
        BetweenLonger(before, row, front[i], front[i + 1], Row(entries[i], indent, isObject, path, w, notice));
      }
    }
  }

  lemma RowPieces(before: string, blanks: string, key: string, text: string)
    ensures before + (blanks + "[" + key + "] => ") + text + "\n"
      == before + (blanks + "[" + key + "] => " + text + "\n")
  {
  }

  /** Rows inside a text stay where they are, shifted by what stands before them. */
  lemma RowsInside(rows: string, at: seq<nat>, entries: seq<Entry>, indent: nat, isObject: bool, path: set<Table>, w: World,
                   notice: string, before: string, after: string) returns (shifted: seq<nat>)
    requires Closed(w) && AllIn(entries, w) && RowsAt(rows, at, entries, indent, isObject, path, w, notice)
    ensures RowsAt(before + rows + after, shifted, entries, indent, isObject, path, w, notice)
    ensures shifted[0] == |before| + at[0] && shifted[|entries|] == |before| + at[|entries|]
  {
    hide Row, Closed, In, Between;
    shifted := seq(|at|, i requires 0 <= i < |at| => |before| + at[i]);
    forall i | 0 <= i < |entries|
      ensures Between(before + rows + after, shifted[i], shifted[i + 1], Row(entries[i], indent, isObject, path, w, notice))
    {
      BetweenInside(before, rows, after, at[i], at[i + 1], Row(entries[i], indent, isObject, path, w, notice));
    }
  }

  /** The output for entries: a bracket, the rows, a bracket. */
  ghost predicate Shown(text: string, at: seq<nat>, heading: string, entries: seq<Entry>, indent: nat, isObject: bool,
                        path: set<Table>, w: World, notice: string)
    requires Closed(w) && AllIn(entries, w)
    reads w.tables`entries, w.cells`value
  {
    && RowsAt(text, at, entries, indent + 4, isObject, path, w, notice)
    && text[..at[0]] == heading + Spaces(indent) + "(\n"
    && text[at[|entries|]..] == Spaces(indent) + ")\n"
  }

  lemma HashShown(heading: string, entries: seq<Entry>, indent: nat, isObject: bool, literal: bool, path: set<Table>, w: World,
                  notice: string) returns (at: seq<nat>)
    requires Closed(w) && AllIn(entries, w) && (literal ==> AllLiteral(entries))
    ensures Shown(heading + HashText(entries, indent, isObject, literal, path, w, notice), at, heading, entries, indent,
                  isObject, path, w, notice)
  {
    hide Spaces, RowsText, Closed, AllIn, Literal, KeyText, Text;
    var rows := RowsText(entries, indent + INDENT, isObject, literal, path, w, notice);
    var inner := RowsShown(entries, indent + INDENT, isObject, literal, path, w, notice);
    var before, after := heading + Spaces(indent) + "(\n", Spaces(indent) + ")\n";
    at := RowsInside(rows, inner, entries, indent + INDENT, isObject, path, w, notice, before, after);
    hide RowsAt;
    var text := heading + HashText(entries, indent, isObject, literal, path, w, notice);
    assert text == before + rows + after by {
      HashPieces(heading, Spaces(indent), rows);
    }
    Ends(before, rows, after);
  }

  lemma HashPieces(heading: string, blanks: string, rows: string)
    ensures heading + (blanks + "(\n" + rows + blanks + ")\n") == heading + blanks + "(\n" + rows + (blanks + ")\n")
  {
  }

  lemma Ends(before: string, rows: string, after: string)
    ensures (before + rows + after)[..|before|] == before && (before + rows + after)[|before| + |rows|..] == after
  {
  }

  /** An array or object that is not being printed already: heading, bracket, one row for each entry in order with four more
      blanks and the text of its value with eight, bracket. */
  lemma ContainerShown(t: Table, indent: nat, path: set<Table>, w: World, notice: string) returns (at: seq<nat>)
    requires Closed(w) && t in w.tables && t !in path && t.entries.Some?
    ensures AllIn(t.entries.value, w)
    ensures var heading := if t.className.None? then "Array\n" else t.className.value + " Object\n";
      Shown(Text(Container(t), indent, path, w, notice), at, heading, t.entries.value, indent, t.className.Some?, path + {t},
            w, notice)
  {
    hide Shown, HashText, Closed, AllIn, Text;
    EntriesIn(t, w);
    ContainerText(t, indent, path, w, notice);
    at := HashShown(Header(t.className), t.entries.value, indent, t.className.Some?, false, path + {t}, w, notice);
  }

  lemma ConstantShown(entries: seq<Entry>, indent: nat, path: set<Table>, w: World, notice: string) returns (at: seq<nat>)
    requires Closed(w) && AllLiteral(entries)
    ensures AllIn(entries, w)
    ensures Shown(Text(Constant(entries), indent, path, w, notice), at, "Array\n", entries, indent, false, path, w, notice)
  {
    hide Shown, HashText, Closed, AllIn, Text, Literal;
    ConstantText(entries, indent, path, w, notice);
    at := HashShown("Array\n", entries, indent, false, true, path, w, notice);
  }

  // ---------------------------------------------------------------- the flat printer

  lemma FlatLeafShown(v: Value, path: set<Table>, w: World, notice: string, close: string)
    requires Closed(w) && In(v, w)
    ensures v.Scalar? ==> FlatText(v, path, w, notice, close) == v.text
    ensures v.Long? ==> ShowsSigned(FlatText(v, path, w, notice, close), v.n)
    ensures v.Ref? ==> FlatText(v, path, w, notice, close) == FlatText(v.cell.value, path, w, notice, close)
  {
    if v.Long? {
      DecimalShows(v.n);
    }
  }

  /** A container met again leaves its parenthesis open, an object without properties closes it. */
  lemma FlatMetShown(t: Table, path: set<Table>, w: World)
    requires Closed(w) && t in w.tables && (t in path || t.entries.None?)
    ensures var heading := if t.className.None? then "Array (" else t.className.value + " Object (";
      FlatText(Container(t), path, w, NOTICE, CLOSE) == heading + if t in path then " *RECURSION*" else ")"
  {
  }

  ghost function FlatRow(e: Entry, first: bool, path: set<Table>, w: World, notice: string, close: string): string
    requires Closed(w) && In(e.value, w)
    reads w.tables`entries, w.cells`value
  {
    (if first then "" else ",") + "[" + FlatKeyText(e.key) + "] => " + FlatText(e.value, path, w, notice, close)
  }

  ghost predicate FlatAt(text: string, at: seq<nat>, heading: string, entries: seq<Entry>, path: set<Table>, w: World,
                         notice: string, close: string)
    requires Closed(w) && AllIn(entries, w)
    reads w.tables`entries, w.cells`value
  {
    && |at| == |entries| + 1 && at[0] <= |text| && at[|entries|] <= |text|
    && (forall i :: 0 <= i < |entries| ==>
         Between(text, at[i], at[i + 1], FlatRow(entries[i], i == 0, path, w, notice, close)))
    && text[..at[0]] == heading && text[at[|entries|]..] == close
  }

  lemma {:induction false} FlatRowsShown(heading: string, entries: seq<Entry>, literal: bool, path: set<Table>, w: World,
                                         notice: string, close: string) returns (at: seq<nat>)
    requires Closed(w) && AllIn(entries, w) && (literal ==> AllLiteral(entries))
    ensures var text := heading + FlatRows(entries, literal, path, w, notice, close);
      && |at| == |entries| + 1 && at[0] == |heading| && at[|entries|] == |text|
      && forall i :: 0 <= i < |entries| ==>
          Between(text, at[i], at[i + 1], FlatRow(entries[i], i == 0, path, w, notice, close))
    decreases |entries|
  {
    hide FlatRow, FlatRows, Closed, Literal, In, Between;
    var text := heading + FlatRows(entries, literal, path, w, notice, close);
    if entries == [] {
      NoFlatRows(literal, path, w, notice, close);
      at := [|heading|];
    } else {
      var n := |entries| - 1;
      var front := FlatRowsShown(heading, entries[..n], literal, path, w, notice, close);
      NextFlatRow(heading, entries, literal, path, w, notice, close);
      var before, row := heading + FlatRows(entries[..n], literal, path, w, notice, close),
        FlatRow(entries[n], n == 0, path, w, notice, close);
      at := front + [|text|];
      BetweenLast(before, row);
      forall i | 0 <= i < n
        ensures Between(text, at[i], at[i + 1], FlatRow(entries[i], i == 0, path, w, notice, close))
      {
        assert entries[..n][i] == entries[i];
        BetweenLonger(before, row, front[i], front[i + 1], FlatRow(entries[i], i == 0, path, w, notice, close));
      }
    }
  }

  lemma NextFlatRow(heading: string, entries: seq<Entry>, literal: bool, path: set<Table>, w: World, notice: string,
                    close: string)
    requires Closed(w) && AllIn(entries, w) && (literal ==> AllLiteral(entries)) && entries != []
    ensures var n := |entries| - 1;
      heading + FlatRows(entries, literal, path, w, notice, close)
      == heading + FlatRows(entries[..n], literal, path, w, notice, close)
         + FlatRow(entries[n], n == 0, path, w, notice, close)
  {
    hide FlatKeyText, FlatText, Closed, Literal, In;
    var n := |entries| - 1;
    FlatRowsStep(entries, n, literal, path, w, notice, close);
    assert entries[..n + 1] == entries;
    FlatPieces(heading, FlatRows(entries[..n], literal, path, w, notice, close), if n > 0 then "," else "",
               FlatKeyText(entries[n].key), FlatText(entries[n].value, path, w, notice, close));
  }

  lemma FlatPieces(heading: string, rows: string, comma: string, key: string, text: string)
    ensures heading + (rows + comma + ("[" + key + "] => ") + text) == heading + rows + (comma + "[" + key + "] => " + text)
  {
  }

  lemma FlatClosed(text: string, at: seq<nat>, heading: string, entries: seq<Entry>, path: set<Table>, w: World,
                   notice: string, close: string)
    requires Closed(w) && AllIn(entries, w) && |at| == |entries| + 1 && at[0] == |heading| && at[|entries|] == |text|
    requires heading <= text
    requires forall i :: 0 <= i < |entries| ==>
      Between(text, at[i], at[i + 1], FlatRow(entries[i], i == 0, path, w, notice, close))
    ensures FlatAt(text + close, at, heading, entries, path, w, notice, close)
  {
    hide FlatRow, Closed, In, Between;
    forall i | 0 <= i < |entries|
      ensures Between(text + close, at[i], at[i + 1], FlatRow(entries[i], i == 0, path, w, notice, close))
    {
      BetweenLonger(text, close, at[i], at[i + 1], FlatRow(entries[i], i == 0, path, w, notice, close));
    }
    assert (text + close)[..|heading|] == heading && (text + close)[|text|..] == close;
  }

  /** The same for the flat printer: commas between the entries and no blanks. */
  lemma FlatContainerShown(t: Table, path: set<Table>, w: World, notice: string, close: string) returns (at: seq<nat>)
    requires Closed(w) && t in w.tables && t !in path && t.entries.Some?
    ensures AllIn(t.entries.value, w)
    ensures var heading := if t.className.None? then "Array (" else t.className.value + " Object (";
      FlatAt(FlatText(Container(t), path, w, notice, close), at, heading, t.entries.value, path + {t}, w, notice, close)
  {
    hide FlatAt, FlatRows, Closed, AllIn, FlatText;
    EntriesIn(t, w);
    FlatContainerText(t, path, w, notice, close);
    var heading, rows := FlatHeader(t.className), FlatRows(t.entries.value, false, path + {t}, w, notice, close);
    assert heading + rows + close == heading + (rows + close);
    at := FlatRowsShown(heading, t.entries.value, false, path + {t}, w, notice, close);
    FlatClosed(heading + rows, at, heading, t.entries.value, path + {t}, w, notice, close);
  }

  lemma FlatConstantShown(entries: seq<Entry>, path: set<Table>, w: World, notice: string, close: string)
    returns (at: seq<nat>)
    requires Closed(w) && AllLiteral(entries)
    ensures AllIn(entries, w)
    ensures FlatAt(FlatText(Constant(entries), path, w, notice, close), at, "Array (", entries, path, w, notice, close)
  {
    hide FlatAt, FlatRows, Closed, AllIn, FlatText, Literal;
    FlatConstantText(entries, path, w, notice, close);
    at := FlatRowsShown("Array (", entries, true, path, w, notice, close);
    FlatClosed("Array (" + FlatRows(entries, true, path, w, notice, close), at, "Array (", entries, path, w, notice, close);
  }
}
