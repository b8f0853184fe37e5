/** The trace list of the coverage extension, its cache of line tables, and what a report says after any run. */
module CoverageStore {
  type File = string
  type Line = nat

  const FILTER_ALL := 0
  const FILTER_INCLUDE := 1
  const UNCOVERED := -1
  const COVERED := 1

  datatype Hit = Hit(file: File, line: Line)

  datatype FilterValue = Name(file: File) | NotAString

  /** What happens to the store. `code` gives the lines found in a file should it be examined during the call. */
  datatype Event =
    | Started
    | Stopped
    | Compiled(file: File)
    | Executed(hit: Hit)
    | Collected(kind: int, filter: seq<FilterValue>, code: File -> set<Line>)
    | Cleared(files: bool)

  // ---------------------------------------------------------------- what a run has left behind

  ghost function Enabled(run: seq<Event>): bool {
    if run == [] then true
    else
      match run[|run| - 1]
      case Started => true
      case Stopped => false
      case _ => Enabled(run[..|run| - 1])
  }

  ghost function Traces(run: seq<Event>): seq<Hit> {
    if run == [] then []
    else
      var before := run[..|run| - 1];
      match run[|run| - 1]
      case Executed(hit) => if Enabled(before) then Traces(before) + [hit] else Traces(before)
      case Cleared(_) => []
      case _ => Traces(before)
  }

  /** Something was traced that no report has shown yet. */
  ghost function Pending(run: seq<Event>): bool {
    if run == [] then false
    else
      var before := run[..|run| - 1];
      match run[|run| - 1]
      case Executed(hit) => Enabled(before) || Pending(before)
      case Collected(_, _, _) => false
      case Cleared(_) => false
      case _ => Pending(before)
  }

  ghost function Files(run: seq<Event>): seq<File> {
    if run == [] then []
    else
      var before := run[..|run| - 1];
      match run[|run| - 1]
      case Compiled(file) => if file in Files(before) then Files(before) else Files(before) + [file]
      case Cleared(files) => if files then [] else Files(before)
      case _ => Files(before)
  }

  ghost function Wanted(kind: int, filter: seq<FilterValue>, files: seq<File>): set<File> {
    set f | f in files && (kind == FILTER_ALL || Name(f) in filter)
  }

  /** The lines known of each examined file. */
  ghost function Lines(run: seq<Event>): map<File, set<Line>> {
    if run == [] then map[]
    else
      var before := run[..|run| - 1];
      match run[|run| - 1]
      case Collected(kind, filter, code) =>
        if Pending(before) then Examined(Lines(before), Wanted(kind, filter, Files(before)), code) else Lines(before)
      case Cleared(files) => if files then map[] else Lines(before)
      case _ => Lines(before)
  }

  ghost function Examined(lines: map<File, set<Line>>, names: set<File>, code: File -> set<Line>): map<File, set<Line>> {
    map f | f in lines.Keys + names :: if f in lines then lines[f] else code(f)
  }

  function Uncovered(lines: set<Line>): map<Line, int> {
    map l | l in lines :: UNCOVERED
  }

  ghost function Marked(marks: map<Line, int>, file: File, hits: seq<Hit>): map<Line, int> {
    map l | l in marks :: if Hit(file, l) in hits then COVERED else marks[l]
  }

  // ---------------------------------------------------------------- the same, told by positions in the run

  /** Whoever stopped tracing, somebody started it again. */
  ghost predicate SwitchedOn(run: seq<Event>) {
    forall i :: 0 <= i < |run| && run[i].Stopped? ==> exists j :: i < j < |run| && run[j].Started?
  }

  ghost predicate TracedAt(run: seq<Event>, i: nat, hit: Hit) {
    i < |run| && run[i] == Executed(hit) && SwitchedOn(run[..i])
  }

  ghost predicate ClearedAfter(run: seq<Event>, i: nat) {
    exists j :: i < j < |run| && run[j].Cleared?
  }

  ghost predicate ShownAfter(run: seq<Event>, i: nat) {
    exists j :: i < j < |run| && (run[j].Cleared? || run[j].Collected?)
  }

  ghost predicate FilesClearedAfter(run: seq<Event>, i: nat) {
    exists j :: i < j < |run| && run[j] == Cleared(true)
  }

  /** The file was compiled and its registration was not cleared since. */
  ghost predicate IsRegistered(run: seq<Event>, file: File) {
    exists i: nat :: i < |run| && run[i] == Compiled(file) && !FilesClearedAfter(run, i)
  }

  /** Something was traced since the last report or clearing. */
  ghost predicate Due(run: seq<Event>) {
    exists i: nat, hit :: TracedAt(run, i, hit) && !ShownAfter(run, i)
  }

  /** All files are asked for, or this one is named. */
  ghost predicate AsksFor(kind: int, filter: seq<FilterValue>, file: File) {
    kind == 0 || exists i :: 0 <= i < |filter| && filter[i] == Name(file)
  }

  /** The event at `i` is a report, due then, that shows the file. */
  ghost predicate ShowsFile(run: seq<Event>, i: nat, file: File) {
    && i < |run| && run[i].Collected? && Due(run[..i]) && IsRegistered(run[..i], file)
    && AsksFor(run[i].kind, run[i].filter, file)
  }

  /** The first such report since files were last cleared. */
  ghost predicate ShowsFirst(run: seq<Event>, i: nat, file: File) {
    && ShowsFile(run, i, file) && !FilesClearedAfter(run, i)
    && forall j: nat :: j < i && ShowsFile(run, j, file) ==> FilesClearedAfter(run, j)
  }

  lemma {:induction false} EnabledIsSwitchedOn(run: seq<Event>)
    ensures Enabled(run) <==> SwitchedOn(run)
  {
    if run != [] {
      var before, n := run[..|run| - 1], |run| - 1;
      EnabledIsSwitchedOn(before);
      if run[n].Started? {
        forall i | 0 <= i < |run| && run[i].Stopped?
          ensures exists j :: i < j < |run| && run[j].Started?
        {
          assert i < n;
        }
      } else if !run[n].Stopped? {
        StillSwitchedOn(run);
      }
    }
  }

  lemma StillSwitchedOn(run: seq<Event>)
    requires run != [] && !run[|run| - 1].Started? && !run[|run| - 1].Stopped?
    ensures SwitchedOn(run) <==> SwitchedOn(run[..|run| - 1])
  {
    var before := run[..|run| - 1];
    forall i | 0 <= i < |before| && before[i].Stopped?
      ensures (exists j :: i < j < |run| && run[j].Started?) <==> (exists j :: i < j < |before| && before[j].Started?)
    {
      assert forall j :: 0 <= j < |before| ==> run[j] == before[j];
      if j :| i < j < |before| && before[j].Started? {
        assert run[j].Started?;
      }
      if j :| i < j < |run| && run[j].Started? {
        assert before[j].Started?;
      }
    }
    if SwitchedOn(run) {
      forall i | 0 <= i < |before| && before[i].Stopped?
        ensures exists j :: i < j < |before| && before[j].Started?
      {
        assert run[i].Stopped?;
      }
    }
    if SwitchedOn(before) {
      forall i | 0 <= i < |run| && run[i].Stopped?
        ensures exists j :: i < j < |run| && run[j].Started?
      {
        assert before[i].Stopped?;
      }
    }
  }

  lemma FrontOfFront(run: seq<Event>, i: nat)
    requires i < |run|
    ensures run[..|run| - 1][..i] == run[..i]
  {
  }

  lemma FrontTracedAt(run: seq<Event>, i: nat, hit: Hit)
    requires run != []
    ensures i < |run| - 1 ==> (TracedAt(run, i, hit) <==> TracedAt(run[..|run| - 1], i, hit))
  {
    if i < |run| - 1 {
      FrontOfFront(run, i);
    }
  }

  lemma FrontClearedAfter(run: seq<Event>, i: nat)
    requires i < |run| - 1
    ensures ClearedAfter(run, i) <==> run[|run| - 1].Cleared? || ClearedAfter(run[..|run| - 1], i)
  {
    var before := run[..|run| - 1];
    if j: int :| i < j < |before| && before[j].Cleared? {
      assert run[j].Cleared?;
    }
    if j: int :| i < j < |run| && run[j].Cleared? {
      assert j < |before| ==> before[j].Cleared?;
    }
  }

  lemma FrontShownAfter(run: seq<Event>, i: nat)
    requires i < |run| - 1
    ensures (ShownAfter(run, i)
             <==> run[|run| - 1].Cleared? || run[|run| - 1].Collected? || ShownAfter(run[..|run| - 1], i))
  {
    var before := run[..|run| - 1];
    if j: int :| i < j < |before| && (before[j].Cleared? || before[j].Collected?) {
      assert run[j] == before[j];
    }
    if j: int :| i < j < |run| && (run[j].Cleared? || run[j].Collected?) {
      assert j < |before| ==> before[j] == run[j];
    }
  }

  /** A hit is kept exactly when it was executed while tracing was on and nothing was cleared since. */
  lemma {:induction false} TracedSinceClear(run: seq<Event>, hit: Hit)
    ensures hit in Traces(run) <==> exists i: nat :: TracedAt(run, i, hit) && !ClearedAfter(run, i)
  {
    if run != [] {
      var before, n := run[..|run| - 1], |run| - 1;
      TracedSinceClear(before, hit);
      EnabledIsSwitchedOn(before);
      assert run[..n] == before;
      assert !ClearedAfter(run, n);
      if i: nat :| TracedAt(before, i, hit) && !ClearedAfter(before, i) {
        FrontTracedAt(run, i, hit);
        FrontClearedAfter(run, i);
        assert TracedAt(run, i, hit);
      }
      if i: nat :| TracedAt(run, i, hit) && !ClearedAfter(run, i) {
        if i < n {
          FrontTracedAt(run, i, hit);
          FrontClearedAfter(run, i);
        }
      }
      assert TracedAt(run, n, hit) <==> run[n] == Executed(hit) && SwitchedOn(before);
    }
  }

  /** A report is due exactly when something was traced since the last report or clearing. */
  lemma {:induction false} PendingSinceShown(run: seq<Event>)
    ensures Pending(run) <==> Due(run)
  {
    if run != [] {
      var before, n := run[..|run| - 1], |run| - 1;
      PendingSinceShown(before);
      EnabledIsSwitchedOn(before);
      assert run[..n] == before;
      assert !ShownAfter(run, n);
      if i: nat, hit :| TracedAt(before, i, hit) && !ShownAfter(before, i) {
        FrontTracedAt(run, i, hit);
        FrontShownAfter(run, i);
        assert TracedAt(run, i, hit);
      }
      if i: nat, hit :| TracedAt(run, i, hit) && !ShownAfter(run, i) {
        if i < n {
          FrontTracedAt(run, i, hit);
          FrontShownAfter(run, i);
        }
      }
      if run[n].Executed? && Enabled(before) {
        assert TracedAt(run, n, run[n].hit);
      }
    }
  }

  lemma FrontFilesCleared(run: seq<Event>, i: nat)
    requires i < |run| - 1
    ensures FilesClearedAfter(run, i) <==> run[|run| - 1] == Cleared(true) || FilesClearedAfter(run[..|run| - 1], i)
  {
    var before := run[..|run| - 1];
    if j: int :| i < j < |before| && before[j] == Cleared(true) {
      assert run[j] == before[j];
    }
    if j: int :| i < j < |run| && run[j] == Cleared(true) {
      assert j < |before| ==> before[j] == run[j];
    }
  }

  /** A file is registered exactly when it was compiled and files were not cleared since. */
  lemma {:induction false} FilesAreRegistered(run: seq<Event>, file: File)
    ensures file in Files(run) <==> IsRegistered(run, file)
  {
    if run != [] {
      var before, n := run[..|run| - 1], |run| - 1;
      FilesAreRegistered(before, file);
      assert !FilesClearedAfter(run, n);
      if i: nat :| i < n && before[i] == Compiled(file) && !FilesClearedAfter(before, i) {
        FrontFilesCleared(run, i);
        assert run[i] == Compiled(file);
      }
      if i: nat :| i < |run| && run[i] == Compiled(file) && !FilesClearedAfter(run, i) {
        if i < n {
          FrontFilesCleared(run, i);
          assert before[i] == Compiled(file);
        }
      }
    }
  }

  lemma WantedAre(kind: int, filter: seq<FilterValue>, run: seq<Event>, file: File)
    ensures file in Wanted(kind, filter, Files(run)) <==> AsksFor(kind, filter, file) && IsRegistered(run, file)
  {
    FilesAreRegistered(run, file);
  }

  lemma FrontShowsFile(run: seq<Event>, i: nat, file: File)
    requires i < |run| - 1
    ensures ShowsFile(run, i, file) <==> ShowsFile(run[..|run| - 1], i, file)
  {
    FrontOfFront(run, i);
  }

  /** One of the reports that show a file since files were last cleared is the first one. */
  lemma {:induction false} SomeFirst(run: seq<Event>, j: nat, file: File) returns (i: nat)
    requires ShowsFile(run, j, file) && !FilesClearedAfter(run, j)
    ensures ShowsFirst(run, i, file)
    decreases j
  {
    hide ShowsFile, FilesClearedAfter;
    if k: nat :| k < j && ShowsFile(run, k, file) && !FilesClearedAfter(run, k) {
      i := SomeFirst(run, k, file);
    } else {
      i := j;
    }
  }

  lemma FrontShowsFirst(run: seq<Event>, i: nat, file: File)
    requires i < |run| - 1 && run[|run| - 1] != Cleared(true)
    ensures ShowsFirst(run, i, file) <==> ShowsFirst(run[..|run| - 1], i, file)
  {
    hide ShowsFile, FilesClearedAfter;
    var before := run[..|run| - 1];
    FrontShowsFile(run, i, file);
    FrontFilesCleared(run, i);
    forall j: nat | j < i
      ensures (ShowsFile(run, j, file) ==> FilesClearedAfter(run, j))
        <==> (ShowsFile(before, j, file) ==> FilesClearedAfter(before, j))
    {
      FrontShowsFile(run, j, file);
      FrontFilesCleared(run, j);
    }
  }

  /** The last event is a report that shows the file. */
  lemma ShowsFileNow(run: seq<Event>, file: File)
    requires run != [] && run[|run| - 1].Collected?
    ensures var before, e := run[..|run| - 1], run[|run| - 1];
      && (ShowsFile(run, |run| - 1, file) <==> Pending(before) && file in Wanted(e.kind, e.filter, Files(before)))
      && !FilesClearedAfter(run, |run| - 1)
  {
    var before, e := run[..|run| - 1], run[|run| - 1];
    PendingSinceShown(before);
    WantedAre(e.kind, e.filter, before, file);
  }

  ghost predicate LinesFrom(run: seq<Event>, i: nat, file: File) {
    ShowsFirst(run, i, file) && file in Lines(run) && Lines(run)[file] == run[i].code(file)
  }

  /** The lines of a file are those its code had at the first report that showed it since files were cleared. */
  lemma {:induction false} LinesAreFirstShown(run: seq<Event>, file: File)
    ensures file in Lines(run) ==> exists i: nat :: LinesFrom(run, i, file)
    ensures file !in Lines(run) ==> forall i: nat :: !ShowsFirst(run, i, file)
  {
    hide ShowsFirst, ShowsFile, FilesClearedAfter, Pending, Wanted, Files;
    if run == [] {
      NothingShown(run, file);
    } else {
      var before, e := run[..|run| - 1], run[|run| - 1];
      LinesAreFirstShown(before, file);
      if e == Cleared(true) {
        NothingShown(run, file);
      } else if file in Lines(before) {
        var i: nat :| LinesFrom(before, i, file);
        FirstIsShown(before, i, file);
        ShownIsEarlier(before, i, file);
        FrontShowsFirst(run, i, file);
        assert LinesFrom(run, i, file);
      } else {
        ShownNow(run, before, file);
      }
    }
  }

  lemma FirstIsShown(run: seq<Event>, i: nat, file: File)
    requires ShowsFirst(run, i, file)
    ensures ShowsFile(run, i, file)
  {
  }

  lemma ShownIsEarlier(run: seq<Event>, i: nat, file: File)
    requires ShowsFile(run, i, file)
    ensures i < |run| && run[i].Collected?
  {
  }

  lemma NothingShown(run: seq<Event>, file: File)
    requires run == [] || run[|run| - 1] == Cleared(true)
    ensures forall i: nat :: !ShowsFirst(run, i, file)
  {
    hide ShowsFile;
    forall i: nat
      ensures !ShowsFirst(run, i, file)
    {
      if ShowsFile(run, i, file) {
        ShownIsEarlier(run, i, file);
        assert FilesClearedAfter(run, i);
      }
    }
  }

  /** Without a report that showed the file before, the last event settles it. */
  lemma ShownNow(run: seq<Event>, before: seq<Event>, file: File)
    requires run != [] && run[|run| - 1] != Cleared(true) && before == run[..|run| - 1]
    requires (forall i: nat :: !ShowsFirst(before, i, file)) && file !in Lines(before)
    ensures file in Lines(run) ==> LinesFrom(run, |run| - 1, file)
    ensures file !in Lines(run) ==> forall i: nat :: !ShowsFirst(run, i, file)
  {
    hide ShowsFile, FilesClearedAfter, Pending, Wanted, Files;
    var n := |run| - 1;
    forall i: nat | i < n
      ensures ShowsFile(run, i, file) ==> FilesClearedAfter(run, i)
    {
      FrontShowsFile(run, i, file);
      FrontFilesCleared(run, i);
      if ShowsFile(before, i, file) && !FilesClearedAfter(before, i) {
        var k := SomeFirst(before, i, file);
      }
    }
    if run[n].Collected? {
      ShowsFileNow(run, file);
    }
    if file !in Lines(run) {
      forall i: nat
        ensures !ShowsFirst(run, i, file)
      {
        if ShowsFile(run, i, file) {
          ShownIsEarlier(run, i, file);
        }
      }
    }
  }

  /** Only registered files are ever examined. */
  lemma {:induction false} ExaminedAreFiles(run: seq<Event>)
    ensures forall f :: f in Lines(run) ==> f in Files(run)
  {
    if run != [] {
      ExaminedAreFiles(run[..|run| - 1]);
    }
  }

  /** A file's lines are settled by the first report that names it, until the files are cleared. */
  lemma {:induction false} LinesStaySettled(run: seq<Event>, more: seq<Event>, file: File)
    requires file in Lines(run)
    requires forall e :: e in more ==> e != Cleared(true)
    ensures file in Lines(run + more) && Lines(run + more)[file] == Lines(run)[file]
  {
    if more == [] {
      assert run + more == run;
    } else {
      var front := more[..|more| - 1];
      assert (run + more)[..|run + more| - 1] == run + front;
      assert forall e :: e in front ==> e in more;
      LinesStaySettled(run, front, file);
      assert more[|more| - 1] in more;
    }
  }

  // ---------------------------------------------------------------- what a report says

  ghost function Report(run: seq<Event>, kind: int, filter: seq<FilterValue>, code: File -> set<Line>)
    : map<File, map<Line, int>>
  {
    if !Pending(run) then map[]
    else
      var wanted := Wanted(kind, filter, Files(run));
      MarkedTables(wanted, Examined(Lines(run), wanted, code), Traces(run))
  }

  ghost function MarkedTables(names: set<File>, lines: map<File, set<Line>>, hits: seq<Hit>): map<File, map<Line, int>>
    requires names <= lines.Keys
  {
    map f | f in names :: Marked(Uncovered(lines[f]), f, hits)
  }

  /** A report shows the files that are asked for and registered, if it is due at all. */
  lemma ReportedFiles(run: seq<Event>, kind: int, filter: seq<FilterValue>, code: File -> set<Line>, file: File)
    ensures file in Report(run, kind, filter, code)
      <==> Due(run) && AsksFor(kind, filter, file) && IsRegistered(run, file)
  {
    PendingSinceShown(run);
    WantedAre(kind, filter, run, file);
  }

  /** A report is empty exactly when nothing was traced since the last look, or no registered file is asked for. */
  lemma ReportEmpty(run: seq<Event>, kind: int, filter: seq<FilterValue>, code: File -> set<Line>)
    ensures (Report(run, kind, filter, code) == map[]
             <==> (forall i: nat, hit :: TracedAt(run, i, hit) ==> ShownAfter(run, i))
                  || (forall file :: IsRegistered(run, file) ==> !AsksFor(kind, filter, file)))
  {
    hide Report, TracedAt, ShownAfter, IsRegistered, AsksFor;
    var report := Report(run, kind, filter, code);
    forall file
      ensures file in report <==> Due(run) && AsksFor(kind, filter, file) && IsRegistered(run, file)
    {
      ReportedFiles(run, kind, filter, code, file);
    }
    assert report == map[] <==> forall file :: file !in report;
  }

  /** A file in a report is listed with the lines its code had at the first report, due then, that showed the file since
      files were last cleared; that may be this report. */
  lemma ReportedLines(run: seq<Event>, kind: int, filter: seq<FilterValue>, code: File -> set<Line>, file: File)
    requires file in Report(run, kind, filter, code)
    ensures var now := run + [Collected(kind, filter, code)];
      exists i: nat :: ShowsFirst(now, i, file) && Report(run, kind, filter, code)[file].Keys == now[i].code(file)
  {
    hide ShowsFirst, Pending, Wanted, Files;
    var now := run + [Collected(kind, filter, code)];
    assert now[..|now| - 1] == run;
    LinesAreFirstShown(now, file);
    var i: nat :| LinesFrom(now, i, file);
    assert Marked(Uncovered(Lines(now)[file]), file, Traces(run)).Keys == Lines(now)[file];
    FirstIsShown(now, i, file);
    ShownIsEarlier(now, i, file);
  }

  /** In a report that is not empty a line counts as covered exactly when it was traced since the last clearing. */
  lemma CoveredIffTraced(run: seq<Event>, kind: int, filter: seq<FilterValue>, code: File -> set<Line>,
                         file: File, line: Line)
    requires var report := Report(run, kind, filter, code); file in report && line in report[file]
    ensures var mark := Report(run, kind, filter, code)[file][line];
            && (mark == 1 || mark == -1)
            && (mark == 1 <==> exists i: nat :: TracedAt(run, i, Hit(file, line)) && !ClearedAfter(run, i))
  {
    TracedSinceClear(run, Hit(file, line));
  }

  /** The lines of a report do not depend on what was traced: another report would list the same ones. */
  lemma SameLinesLater(run: seq<Event>, kind: int, filter: seq<FilterValue>, code: File -> set<Line>,
                       more: seq<Event>, later: int, other: seq<FilterValue>, code': File -> set<Line>, file: File)
    requires forall e :: e in more ==> e != Cleared(true)
    requires file in Report(run, kind, filter, code)
    requires file in Report(run + [Collected(kind, filter, code)] + more, later, other, code')
    ensures (Report(run, kind, filter, code)[file].Keys
             == Report(run + [Collected(kind, filter, code)] + more, later, other, code')[file].Keys)
  {
    var mid := run + [Collected(kind, filter, code)];
    assert mid[..|mid| - 1] == run;
    assert Lines(mid) == Examined(Lines(run), Wanted(kind, filter, Files(run)), code);
    LinesStaySettled(mid, more, file);
    var lines := Lines(mid)[file];
    assert Marked(Uncovered(lines), file, Traces(run)).Keys == lines;
    assert Marked(Uncovered(lines), file, Traces(mid + more)).Keys == lines;
  }

  /** Straight after a report there is nothing to tell. */
  lemma SecondReportEmpty(run: seq<Event>, first: Event, kind: int, filter: seq<FilterValue>, code: File -> set<Line>)
    requires first.Collected? || first.Cleared?
    ensures Report(run + [first], kind, filter, code) == map[]
  {
    assert (run + [first])[..|run|] == run;
  }
}
