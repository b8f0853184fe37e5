/** What the recursive printers write, told without marks: a pure printer that carries the set of its ancestors. */
module PrinterText {
  import opened Collections

  const INDENT: nat := 4
  const NOTICE := " *RECURSION*"
  const CLOSE := ")"

  /** Integer keys are unsigned words. */
  type Word64 = n: int | 0 <= n < 0x1_0000_0000_0000_0000

  datatype Key = Name(name: string) | Index(n: Word64)

  datatype Entry = Entry(key: Key, value: Value)

  /** `Scalar` stands for every value that is printed as its string conversion; `Constant` is an immutable array. */
  datatype Value =
    | Scalar(text: string)
    | Long(n: int)
    | Constant(entries: seq<Entry>)
    | Container(table: Table)
    | Ref(cell: Cell)

  /** An array, or an object with its class name. An object may have no property table. */
  class Table {
    const className: Option<string>
    var entries: Option<seq<Entry>>
    var mark: bool

    constructor (className: Option<string>, entries: Option<seq<Entry>>)
      ensures this.className == className && this.entries == entries && !mark
    {
      this.className, this.entries, mark := className, entries, false;
    }
  }

  class Cell {
    var value: Value

    constructor (value: Value)
      ensures this.value == value
    {
      this.value := value;
    }
  }

  // ---------------------------------------------------------------- the graph

  datatype World = World(tables: set<Table>, cells: set<Cell>)

  /** Immutable arrays hold only scalars and immutable arrays. */
  predicate Literal(v: Value) {
    v.Scalar? || v.Long? || (v.Constant? && forall i :: 0 <= i < |v.entries| ==> Literal(v.entries[i].value))
  }

  ghost predicate In(v: Value, w: World) {
    match v
    case Container(table) => table in w.tables
    case Ref(cell) => cell in w.cells
    case _ => Literal(v)
  }

  ghost predicate AllIn(entries: seq<Entry>, w: World) {
    forall i :: 0 <= i < |entries| ==> In(entries[i].value, w)
  }

  predicate AllLiteral(entries: seq<Entry>) {
    forall i :: 0 <= i < |entries| ==> Literal(entries[i].value)
  }

  /** Every value leads into the world, arrays have entries, and references do not hold references. */
  ghost predicate Closed(w: World)
    reads w.tables`entries, w.cells`value
  {
    && (forall t :: t in w.tables ==> t.className.None? ==> t.entries.Some?)
    && (forall t :: t in w.tables ==> t.entries.Some? ==> AllIn(t.entries.value, w))
    && (forall c :: c in w.cells ==> In(c.value, w) && !c.value.Ref?)
  }

  lemma LiteralsAreIn(entries: seq<Entry>, w: World)
    requires AllLiteral(entries)
    ensures AllIn(entries, w)
  {
    forall i | 0 <= i < |entries|
      ensures In(entries[i].value, w)
    {
      assert Literal(entries[i].value);
    }
  }

  function Level(v: Value): nat {
    if v.Ref? then 1 else 0
  }

  lemma OneFewer(tables: set<Table>, path: set<Table>, t: Table)
    requires t in tables && t !in path
    ensures |tables - (path + {t})| < |tables - path|
  {
    assert tables - path == (tables - (path + {t})) + {t};
  }

  // ---------------------------------------------------------------- keys

  function Digits(n: nat): string {
    if n < 10 then ["0123456789"[n]] else Digits(n / 10) + ["0123456789"[n % 10]]
  }

  function Decimal(n: int): string {
    if n < 0 then "-" + Digits(-n) else Digits(n)
  }

  /** The nested printer shows an integer key as a signed number. */
  function Signed(n: Word64): int {
    if n < 0x8000_0000_0000_0000 then n else n - 0x1_0000_0000_0000_0000
  }

  /** The length of the string that starts at `from`: up to a NUL, at most `max`. */
  function NulTerminated(s: string, from: nat, max: nat): (n: nat)
    requires from + max <= |s|
    ensures n <= max && (n < max ==> s[from + n] == '\0')
    ensures forall i :: from <= i < from + n ==> s[i] != '\0'
    decreases max
  {
    if max == 0 || s[from] == '\0' then 0 else 1 + NulTerminated(s, from + 1, max - 1)
  }

  datatype Property = Property(className: Option<string>, name: string)

  /** A private or protected property's key carries its class between two NULs. */
  function Unmangle(name: string): Property {
    if name == "" || name[0] != '\0' then Property(None, name)
    else if |name| < 3 || name[1] == '\0' then Property(None, name)
    else
      var classLen := NulTerminated(name, 1, |name| - 2);
      if classLen >= |name| - 2 || name[classLen + 1] != '\0' then Property(None, name) else Split(name, classLen)
  }

  /** The class of an anonymous class's key is followed by one more NUL and a source position, which are skipped. */
  function Split(name: string, classLen: nat): Property
    requires classLen + 2 < |name|
  {
    var srcLen := NulTerminated(name, classLen + 2, |name| - classLen - 2);
    var skip := if classLen + srcLen + 2 != |name| then classLen + srcLen + 1 else classLen;
    Property(Some(name[1..classLen + 1]), name[skip + 2..])
  }

  function Mangle(className: string, name: string): string {
    "\0" + className + "\0" + name
  }

  lemma NulTerminatedIs(s: string, from: nat, max: nat, n: nat)
    requires from + max <= |s| && n <= max && (n == max || s[from + n] == '\0')
    requires forall i :: from <= i < from + n ==> s[i] != '\0'
    ensures NulTerminated(s, from, max) == n
  {
    var m := NulTerminated(s, from, max);
    assert m < max ==> s[from + m] == '\0';
  }

  lemma MangleParts(className: string, name: string)
    ensures var s, n := Mangle(className, name), |className|;
            && |s| == n + 2 + |name| && s[0] == '\0' && s[n + 1] == '\0'
            && s[1..n + 1] == className && s[n + 2..] == name
            && (forall i {:trigger s[i]} :: 1 <= i < n + 1 ==> s[i] == className[i - 1])
            && (forall i {:trigger s[i]} :: n + 2 <= i < |s| ==> s[i] == name[i - n - 2])
  {
  }

  lemma ClassPart(className: string, name: string)
    requires '\0' !in className
    ensures NulTerminated(Mangle(className, name), 1, |className| + |name|) == |className|
  {
    hide Mangle, NulTerminated;
    MangleParts(className, name);
    NulTerminatedIs(Mangle(className, name), 1, |className| + |name|, |className|);
  }

  lemma NamePart(className: string, name: string)
    ensures |Mangle(className, name)| == |className| + 2 + |name|
    ensures (NulTerminated(Mangle(className, name), |className| + 2, |name|) == NulTerminated(name, 0, |name|))
  {
    hide Mangle, NulTerminated;
    MangleParts(className, name);
    var s, n, m := Mangle(className, name), |className| + 2, NulTerminated(name, 0, |name|);
    forall i | n <= i < n + m
      ensures s[i] != '\0'
    {
      assert s[i] == name[i - n];
    }
    NulTerminatedIs(s, n, |name|, m);
  }

  lemma MangledIsSplit(className: string, name: string)
    requires className != "" && '\0' !in className && name != ""
    ensures |Mangle(className, name)| == |className| + 2 + |name|
    ensures Unmangle(Mangle(className, name)) == Split(Mangle(className, name), |className|)
  {
    hide Mangle, NulTerminated, Split;
    MangleParts(className, name);
    ClassPart(className, name);
    assert Mangle(className, name)[1] == className[0];
  }

  lemma SplitIs(s: string, className: string, name: string)
    requires s == Mangle(className, name)
    ensures |s| == |className| + 2 + |name|
    ensures name != "" ==> Split(s, |className|) == Property(Some(className), AfterNul(name))
  {
    hide Mangle, NulTerminated;
    NamePart(className, name);
    MangleParts(className, name);
    var n, m := |className|, NulTerminated(name, 0, |name|);
    if m < |name| {
      assert s[n + m + 3..] == s[n + 2..][m + 1..];
    }
  }

  function AfterNul(name: string): string {
    var m := NulTerminated(name, 0, |name|);
    if m < |name| then name[m + 1..] else name
  }

  /** What comes back: the class, and what follows the first NUL in the name or else the whole name. */
  lemma UnmangleIs(className: string, name: string)
    requires className != "" && '\0' !in className && name != ""
    ensures Unmangle(Mangle(className, name)) == Property(Some(className), AfterNul(name))
  {
    hide Mangle, Split, AfterNul, Unmangle;
    MangledIsSplit(className, name);
    SplitIs(Mangle(className, name), className, name);
  }

  lemma UnmangleEmpty(className: string)
    requires className != "" && '\0' !in className
    ensures Unmangle(Mangle(className, "")).className == None
  {
    hide Mangle, NulTerminated;
    MangleParts(className, "");
    ClassPart(className, "");
    assert Mangle(className, "")[1] == className[0];
  }

  /** A class that comes back is not empty and ends before the first NUL. */
  lemma ClassHasNoNul(s: string)
    ensures var c := Unmangle(s).className; c.Some? ==> c.value != "" && '\0' !in c.value
  {
    var c := Unmangle(s).className;
    if c.Some? {
      var n := NulTerminated(s, 1, |s| - 2);
      assert n > 0;
      assert c.value == s[1..n + 1];
    }
  }

  /** A mangled name reads back whole exactly when class and property name are not empty and hold no NUL. */
  lemma UnmangleMangled(className: string, name: string)
    ensures (Unmangle(Mangle(className, name)) == Property(Some(className), name)
             <==> className != "" && '\0' !in className && name != "" && '\0' !in name)
  {
    hide Unmangle, Mangle, NulTerminated;
    if className == "" || '\0' in className {
      ClassHasNoNul(Mangle(className, name));
    } else if name == "" {
      UnmangleEmpty(className);
    } else {
      UnmangleIs(className, name);
      var m := NulTerminated(name, 0, |name|);
      assert m < |name| ==> name[m] in name && |name[m + 1..]| < |name|;
    }
  }

  /** A name has no class, and is shown whole, exactly when it does not start with a NUL, or is too short, or has no class
      between that NUL and another one before its last character. */
  lemma NoClass(name: string)
    ensures Unmangle(name).className.None?
      <==> name == "" || name[0] != '\0' || |name| < 3 || name[1] == '\0' || '\0' !in name[1..|name| - 1]
    ensures Unmangle(name).className.None? ==> Unmangle(name).name == name
  {
    hide NulTerminated;
    if |name| >= 3 && name[0] == '\0' && name[1] != '\0' {
      var m := NulTerminated(name, 1, |name| - 2);
      var inner := name[1..|name| - 1];
      assert forall i :: 0 <= i < |inner| ==> inner[i] == name[1 + i];
      assert m < |name| - 2 ==> inner[m] == '\0';
    }
  }

  /** The name of an anonymous class holds a NUL and a source position: then any property name reads back, with the
      class up to the NUL. */
  lemma AnonymousClass(className: string, position: string, name: string)
    requires className != "" && '\0' !in className && '\0' !in position
    ensures Unmangle(Mangle(className + "\0" + position, name)) == Property(Some(className), name)
  {
    hide Unmangle, NulTerminated;
    var rest := position + "\0" + name;
    assert Mangle(className + "\0" + position, name) == Mangle(className, rest);
    UnmangleIs(className, rest);
    NulTerminatedIs(rest, 0, |rest|, |position|);
    assert rest[|position| + 1..] == name;
  }

  function PropertyText(name: string): string {
    var property := Unmangle(name);
    property.name
    + match property.className
      case None => ""
      case Some(className) => if className[..1] == "*" then ":protected" else ":" + className + ":private"
  }

  function KeyText(key: Key, isObject: bool): string {
    match key
    case Index(n) => Decimal(Signed(n))
    case Name(name) => if isObject then PropertyText(name) else name
  }

  function FlatKeyText(key: Key): string {
    match key
    case Index(n) => Decimal(n)
    case Name(name) => name
  }

  function Spaces(n: nat): (r: string)
    ensures |r| == n && forall i :: 0 <= i < n ==> r[i] == ' '
  {
    seq(n, _ => ' ')
  }

  // ---------------------------------------------------------------- the nested printer

  function Header(className: Option<string>): string {
    match className
    case None => "Array\n"
    case Some(name) => name + " Object\n"
  }

  /** `path` holds the containers being printed, `notice` is what stands for one of them met again. */
  ghost function Text(v: Value, indent: nat, path: set<Table>, w: World, notice: string): string
    requires Closed(w) && In(v, w)
    reads w.tables`entries, w.cells`value
    decreases |w.tables - path|, Level(v), v
  {
    match v
    case Scalar(text) => text
    case Long(n) => Decimal(n)
    case Constant(entries) =>
      LiteralsAreIn(entries, w);
      Header(None) + HashText(entries, indent, false, true, path, w, notice)
    case Ref(cell) => Text(cell.value, indent, path, w, notice)
    case Container(t) =>
      Header(t.className)
      + if t in path then notice
        else if t.entries.None? then ""
        else
          OneFewer(w.tables, path, t);
          HashText(t.entries.value, indent, t.className.Some?, false, path + {t}, w, notice)
  }

  ghost function HashText(entries: seq<Entry>, indent: nat, isObject: bool, literal: bool, path: set<Table>, w: World,
                          notice: string): string
    requires Closed(w) && AllIn(entries, w) && (literal ==> AllLiteral(entries))
    reads w.tables`entries, w.cells`value
    decreases |w.tables - path|, if literal then 0 else 2, entries, 1
  {
    Spaces(indent) + "(\n" + RowsText(entries, indent + INDENT, isObject, literal, path, w, notice) + Spaces(indent) + ")\n"
  }

  ghost function RowsText(entries: seq<Entry>, indent: nat, isObject: bool, literal: bool, path: set<Table>, w: World,
                          notice: string): string
    requires Closed(w) && AllIn(entries, w) && (literal ==> AllLiteral(entries))
    reads w.tables`entries, w.cells`value
    decreases |w.tables - path|, if literal then 0 else 2, entries, 0
  {
    if entries == [] then ""
    else
      var n := |entries| - 1;
      assert literal ==> Literal(entries[n].value);
      assert entries[n] decreases to entries[n].value;
      RowsText(entries[..n], indent, isObject, literal, path, w, notice)
      + (Spaces(indent) + "[" + KeyText(entries[n].key, isObject) + "] => ")
      + Text(entries[n].value, indent + INDENT, path, w, notice) + "\n"
  }

  lemma ContainerText(t: Table, indent: nat, path: set<Table>, w: World, notice: string)
    requires Closed(w) && t in w.tables
    ensures (Text(Container(t), indent, path, w, notice)
             == Header(t.className)
                + if t in path then notice
                  else if t.entries.None? then ""
                  else HashText(t.entries.value, indent, t.className.Some?, false, path + {t}, w, notice))
  {
    hide Header, HashText;
  }

  lemma EntriesIn(t: Table, w: World)
    requires Closed(w) && t in w.tables && t.entries.Some?
    ensures AllIn(t.entries.value, w)
  {
    hide AllIn;
  }

  lemma NoRows(indent: nat, isObject: bool, literal: bool, path: set<Table>, w: World, notice: string)
    requires Closed(w)
    ensures RowsText([], indent, isObject, literal, path, w, notice) == ""
  {
  }

  lemma {:induction false} RowsStep(entries: seq<Entry>, i: nat, indent: nat, isObject: bool, literal: bool,
                                    path: set<Table>, w: World, notice: string)
    requires Closed(w) && AllIn(entries, w) && (literal ==> AllLiteral(entries)) && i < |entries|
    ensures (RowsText(entries[..i + 1], indent, isObject, literal, path, w, notice)
             == RowsText(entries[..i], indent, isObject, literal, path, w, notice)
                + (Spaces(indent) + "[" + KeyText(entries[i].key, isObject) + "] => ")
                + Text(entries[i].value, indent + INDENT, path, w, notice) + "\n")
  {
    hide Spaces, KeyText, Text, Closed, Literal, In;
    assert entries[..i + 1][..i] == entries[..i];
  }

  lemma ConstantText(entries: seq<Entry>, indent: nat, path: set<Table>, w: World, notice: string)
    requires Closed(w) && AllLiteral(entries)
    ensures AllIn(entries, w)
    ensures (Text(Constant(entries), indent, path, w, notice)
             == "Array\n" + HashText(entries, indent, false, true, path, w, notice))
  {
    hide HashText;
    LiteralsAreIn(entries, w);
  }

  // ---------------------------------------------------------------- the flat printer

  function FlatHeader(className: Option<string>): string {
    match className
    case None => "Array ("
    case Some(name) => name + " Object ("
  }

  /** A container met again leaves its parenthesis open; `close` is what closes one. */
  ghost function FlatText(v: Value, path: set<Table>, w: World, notice: string, close: string): string
    requires Closed(w) && In(v, w)
    reads w.tables`entries, w.cells`value
    decreases |w.tables - path|, Level(v), v
  {
    match v
    case Scalar(text) => text
    case Long(n) => Decimal(n)
    case Constant(entries) =>
      LiteralsAreIn(entries, w);
      FlatHeader(None) + FlatRows(entries, true, path, w, notice, close) + close
    case Ref(cell) => FlatText(cell.value, path, w, notice, close)
    case Container(t) =>
      FlatHeader(t.className)
      + if t in path then notice
        else if t.entries.None? then close
        else
          OneFewer(w.tables, path, t);
          FlatRows(t.entries.value, false, path + {t}, w, notice, close) + close
  }

  ghost function FlatRows(entries: seq<Entry>, literal: bool, path: set<Table>, w: World, notice: string, close: string): string
    requires Closed(w) && AllIn(entries, w) && (literal ==> AllLiteral(entries))
    reads w.tables`entries, w.cells`value
    decreases |w.tables - path|, if literal then 0 else 2, entries
  {
    if entries == [] then ""
    else
      var n := |entries| - 1;
      assert literal ==> Literal(entries[n].value);
      assert entries[n] decreases to entries[n].value;
      FlatRows(entries[..n], literal, path, w, notice, close)
      + (if n > 0 then "," else "") + ("[" + FlatKeyText(entries[n].key) + "] => ")
      + FlatText(entries[n].value, path, w, notice, close)
  }

  lemma FlatContainerText(t: Table, path: set<Table>, w: World, notice: string, close: string)
    requires Closed(w) && t in w.tables
    ensures (FlatText(Container(t), path, w, notice, close)
             == FlatHeader(t.className)
                + if t in path then notice
                  else if t.entries.None? then close
                  else FlatRows(t.entries.value, false, path + {t}, w, notice, close) + close)
  {
    hide FlatHeader, FlatRows;
  }

  lemma FlatConstantText(entries: seq<Entry>, path: set<Table>, w: World, notice: string, close: string)
    requires Closed(w) && AllLiteral(entries)
    ensures AllIn(entries, w)
    ensures FlatText(Constant(entries), path, w, notice, close) == "Array (" + FlatRows(entries, true, path, w, notice, close) + close
  {
    hide FlatRows;
    LiteralsAreIn(entries, w);
  }

  lemma NoFlatRows(literal: bool, path: set<Table>, w: World, notice: string, close: string)
    requires Closed(w)
    ensures FlatRows([], literal, path, w, notice, close) == ""
  {
  }

  lemma {:induction false} FlatRowsStep(entries: seq<Entry>, i: nat, literal: bool, path: set<Table>, w: World,
                                        notice: string, close: string)
    requires Closed(w) && AllIn(entries, w) && (literal ==> AllLiteral(entries)) && i < |entries|
    ensures (FlatRows(entries[..i + 1], literal, path, w, notice, close)
             == FlatRows(entries[..i], literal, path, w, notice, close)
                + (if i > 0 then "," else "") + ("[" + FlatKeyText(entries[i].key) + "] => ")
                + FlatText(entries[i].value, path, w, notice, close))
  {
    hide FlatKeyText, FlatText, Closed, Literal, In;
    assert entries[..i + 1][..i] == entries[..i];
  }
}
