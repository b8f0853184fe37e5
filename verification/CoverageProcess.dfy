/** The trace list and the line tables as objects: nodes linked through an appending pointer, tables that may alias. */
module CoverageProcess {
  import opened CoverageStore

  class Node {
    const hit: Hit
    var next: Node?

    constructor (hit: Hit)
      ensures this.hit == hit && next == null
    {
      this.hit := hit;
      next := null;
    }
  }

  /** A line table: one mark for each line. */
  class LineTable {
    var marks: map<Line, int>

    constructor (lines: set<Line>)
      ensures marks == Uncovered(lines)
    {
      marks := Uncovered(lines);
    }

    constructor Duplicate(other: LineTable)
      ensures marks == other.marks
    {
      marks := other.marks;
    }
  }

  datatype Outcome = WrongType | Report(tables: map<File, LineTable>)

  ghost function Hits(nodes: seq<Node>): seq<Hit> {
    seq(|nodes|, i requires 0 <= i < |nodes| => nodes[i].hit)
  }

  ghost function FilesOf(hits: seq<Hit>): set<File> {
    set hit | hit in hits :: hit.file
  }

  lemma OneMoreHit(nodes: seq<Node>, node: Node)
    ensures Hits(nodes + [node]) == Hits(nodes) + [node.hit]
    ensures FilesOf(Hits(nodes + [node])) == FilesOf(Hits(nodes)) + {node.hit.file}
  {
    var hits := Hits(nodes + [node]);
    assert hits == Hits(nodes) + [node.hit];
    assert hits[|nodes|] == node.hit;
    assert forall h :: h in Hits(nodes) ==> h in hits;
  }

  ghost predicate Linked(nodes: seq<Node>)
    reads nodes
  {
    && (forall i, j :: 0 <= i < j < |nodes| ==> nodes[i] != nodes[j])
    && (forall i :: 0 <= i < |nodes| - 1 ==> nodes[i].next == nodes[i + 1])
    && (nodes != [] ==> nodes[|nodes| - 1].next == null)
  }

  /** The tables of a report: one each, none shared with another file or with the cache. */
  ghost predicate Separate(tables: map<File, LineTable>, cache: map<File, LineTable>) {
    && (forall f, g :: f in tables && g in tables && f != g ==> tables[f] != tables[g])
    && (forall f, g :: f in tables && g in cache ==> tables[f] != cache[g])
  }

  lemma SeparateOne(tables: map<File, LineTable>, cache: map<File, LineTable>,
                    tables': map<File, LineTable>, cache': map<File, LineTable>, file: File)
    requires Separate(tables, cache)
    requires tables' == tables || (file in tables' && tables' == tables[file := tables'[file]]
                                   && (forall f :: f in tables ==> tables[f] != tables'[file])
                                   && forall f :: f in cache' ==> cache'[f] != tables'[file])
    requires cache' == cache || (file in cache' && cache' == cache[file := cache'[file]]
                                 && forall f :: f in tables ==> tables[f] != cache'[file])
    ensures Separate(tables', cache')
  {
  }

  ghost function Examine(lines: map<File, set<Line>>, file: File, files: seq<File>, code: File -> set<Line>)
    : map<File, set<Line>>
  {
    if file in lines || file !in files then lines else lines[file := code(file)]
  }

  lemma ExamineOne(lines: map<File, set<Line>>, file: File, files: seq<File>, code: File -> set<Line>)
    ensures var now := Examine(lines, file, files, code);
            && (forall f :: f in now ==> f in lines || f == file)
            && (forall f :: f in lines ==> f in now && now[f] == lines[f])
  {
  }

  ghost function ExamineAll(lines: map<File, set<Line>>, names: seq<File>, files: seq<File>, code: File -> set<Line>)
    : map<File, set<Line>>
  {
    if names == [] then lines
    else Examine(ExamineAll(lines, names[..|names| - 1], files, code), names[|names| - 1], files, code)
  }

  ghost function Registered(names: seq<File>, files: seq<File>): set<File> {
    set f | f in names && f in files
  }

  lemma {:induction false} ExamineAllIs(lines: map<File, set<Line>>, names: seq<File>, files: seq<File>,
                                        code: File -> set<Line>)
    requires forall f :: f in lines ==> f in files
    ensures ExamineAll(lines, names, files, code) == Examined(lines, Registered(names, files), code)
  {
    if names != [] {
      var front := names[..|names| - 1];
      ExamineAllIs(lines, front, files, code);
      assert forall f :: f in names <==> f in front || f == names[|names| - 1];
    } else {
      assert Examined(lines, Registered(names, files), code) == lines;
    }
  }

  function Names(filter: seq<FilterValue>): (names: seq<File>)
    ensures forall f :: f in names <==> Name(f) in filter
  {
    if filter == [] then []
    else
      var front := Names(filter[..|filter| - 1]);
      match filter[|filter| - 1]
      case Name(file) => front + [file]
      case NotAString => front
  }

  lemma AfterExecuted(run: seq<Event>, hit: Hit)
    ensures var now := run + [Executed(hit)];
            && Enabled(now) == Enabled(run) && Files(now) == Files(run) && Lines(now) == Lines(run)
            && Traces(now) == (if Enabled(run) then Traces(run) + [hit] else Traces(run))
            && Pending(now) == (Enabled(run) || Pending(run))
  {
    assert (run + [Executed(hit)])[..|run|] == run;
  }

  lemma AfterCollected(run: seq<Event>, kind: int, filter: seq<FilterValue>, code: File -> set<Line>)
    ensures var now := run + [Collected(kind, filter, code)];
            && Enabled(now) == Enabled(run) && Files(now) == Files(run) && Traces(now) == Traces(run) && !Pending(now)
            && Lines(now) == if Pending(run) then Examined(Lines(run), Wanted(kind, filter, Files(run)), code)
                             else Lines(run)
  {
    assert (run + [Collected(kind, filter, code)])[..|run|] == run;
  }

  lemma NothingMarked(tables: map<File, LineTable>)
    ensures forall f :: f in tables ==> Marked(tables[f].marks, f, Hits([])) == tables[f].marks
  {
  }

  lemma MarkedTwice(marks: map<Line, int>, file: File, hits: seq<Hit>, hit: Hit)
    ensures Marked(Marked(marks, file, hits), file, [hit]) == Marked(marks, file, hits + [hit])
  {
  }

  ghost function MarksOf(tables: map<File, LineTable>): map<File, map<Line, int>>
    reads tables.Values
  {
    map f | f in tables :: tables[f].marks
  }

  ghost predicate UncoveredIn(tables: map<File, LineTable>, lines: map<File, set<Line>>)
    reads tables.Values
  {
    forall f :: f in tables ==> f in lines && tables[f].marks == Uncovered(lines[f])
  }

  lemma NothingNamed(lines: map<File, set<Line>>, files: seq<File>, code: File -> set<Line>)
    ensures Names([]) == [] && ExamineAll(lines, [], files, code) == lines
  {
  }

  lemma NothingSeparate(cache: map<File, LineTable>)
    ensures Separate(map[], cache)
  {
  }

  lemma NamesStep(filter: seq<FilterValue>, i: nat)
    requires i < |filter|
    ensures Names(filter[..i + 1]) == Names(filter[..i]) + if filter[i].Name? then [filter[i].file] else []
  {
    assert filter[..i + 1][..i] == filter[..i];
  }

  lemma ExamineStep(lines: map<File, set<Line>>, names: seq<File>, file: File, files: seq<File>, code: File -> set<Line>)
    ensures ExamineAll(lines, names + [file], files, code)
      == Examine(ExamineAll(lines, names, files, code), file, files, code)
  {
    hide Examine;
    assert (names + [file])[..|names|] == names;
  }

  lemma UncoveredOne(tables: map<File, LineTable>, lines: map<File, set<Line>>,
                     result: map<File, LineTable>, now: map<File, set<Line>>, file: File)
    requires UncoveredIn(tables, lines)
    requires forall f :: f in lines ==> f in now && now[f] == lines[f]
    requires result == tables || (file in result && result == tables[file := result[file]]
                                  && file in now && result[file].marks == Uncovered(now[file]))
    ensures UncoveredIn(result, now)
  {
    hide Uncovered;
  }

  class Collector {
    var enabled: bool
    var start: Node?
    /** The node whose `next` field the appending pointer addresses. */
    var next: Node?
    /** What `next` was at the last report. */
    var last: Node?
    var waiting: set<File>
    var files: seq<File>
    var discovered: map<File, LineTable>
    ghost var nodes: seq<Node>
    ghost var run: seq<Event>

    ghost predicate ListValid()
      reads `start, `next, `last, `nodes, nodes
    {
      && Linked(nodes)
      && start == (if nodes == [] then null else nodes[0])
      && next == (if nodes == [] then null else nodes[|nodes| - 1])
      && (last == null || last in nodes)
    }

    ghost predicate CacheIs(lines: map<File, set<Line>>)
      reads `discovered, discovered.Values
    {
      && discovered.Keys == lines.Keys
      && forall f :: f in discovered ==> discovered[f].marks == Uncovered(lines[f])
    }

    ghost predicate Valid()
      reads this, nodes, discovered.Values
    {
      && ListValid()
      && Hits(nodes) == Traces(run)
      && enabled == Enabled(run)
      && (next != last <==> Pending(run))
      && waiting == FilesOf(Traces(run))
      && files == Files(run)
      && CacheIs(Lines(run))
    }

    constructor ()
      ensures Valid() && run == []
    {
      enabled := true;
      start, next, last := null, null, null;
      waiting, files, discovered := {}, [], map[];
      nodes, run := [], [];
    }

    /** Start or stop tracing. */
    method Switch(on: bool)
      requires Valid()
      modifies `enabled, `run
      ensures Valid() && run == old(run) + [if on then Started else Stopped]
    {
      enabled := on;
      run := run + [if on then Started else Stopped];
      assert run[..|run| - 1] == old(run);
    }

    method CompileFile(file: File)
      requires Valid()
      modifies `files, `run
      ensures Valid() && run == old(run) + [Compiled(file)]
    {
      if file !in files {
        files := files + [file];
      }
      run := run + [Compiled(file)];
      assert run[..|run| - 1] == old(run);
    }

    method Append(hit: Hit)
      requires ListValid()
      modifies `start, `next, `nodes, nodes
      ensures ListValid() && next != null && next != last && fresh(next)
      ensures nodes == old(nodes) + [next] && next.hit == hit
    {
      var coverage := new Node(hit);
      if start == null {
        start := coverage;
      } else {
        next.next := coverage;
      }
      next := coverage;
      nodes := nodes + [coverage];
    }

    method Trace(hit: Hit)
      requires Valid()
      modifies `start, `next, `nodes, `waiting, `run, nodes
      ensures Valid() && run == old(run) + [Executed(hit)]
    {
      hide Uncovered, Enabled, Traces, Pending, Files, Lines, Hits, FilesOf, Linked;
      AfterExecuted(run, hit);
      if enabled {
        waiting := waiting + {hit.file};
        Append(hit);
        OneMoreHit(old(nodes), next);
      }
      run := run + [Executed(hit)];
    }

    method Clear(andFiles: bool)
      requires Valid()
      modifies `files, `discovered, `start, `next, `last, `waiting, `nodes, `run
      ensures Valid() && run == old(run) + [Cleared(andFiles)]
    {
      if andFiles {
        files, discovered := [], map[];
      }
      start, last, next := null, null, null;
      waiting, nodes := {}, [];
      run := run + [Cleared(andFiles)];
      assert run[..|run| - 1] == old(run);
    }

    /** Adds a private copy of the file's table to the result, examining the file first if that was never done. */
    method DiscoverFile(file: File, code: File -> set<Line>, tables: map<File, LineTable>,
                        ghost lines: map<File, set<Line>>)
      returns (result: map<File, LineTable>)
      requires CacheIs(lines)
      modifies `discovered
      ensures CacheIs(Examine(lines, file, files, code))
      ensures discovered == old(discovered) || (file in discovered && fresh(discovered[file])
                                                && discovered == old(discovered)[file := discovered[file]])
      ensures (if file !in discovered then result == tables
               else file in result && fresh(result[file]) && result == tables[file := result[file]]
                    && result[file].marks == discovered[file].marks
                    && forall f :: f in discovered ==> discovered[f] != result[file])
      decreases file !in discovered
    {
      if file in discovered {
        var uncached := new LineTable.Duplicate(discovered[file]);
        return tables[file := uncached];
      }
      if file !in files {
        return tables;
      }
      var found := new LineTable(code(file));
      discovered := discovered[file := found];
      result := DiscoverFile(file, code, tables, Examine(lines, file, files, code));
    }

    /** The tables found so far for the names handled so far. */
    ghost predicate Gathered(tables: map<File, LineTable>, names: seq<File>, lines: map<File, set<Line>>)
      reads tables.Values, `discovered
    {
      && (forall f :: f in tables <==> f in names && f in lines)
      && UncoveredIn(tables, lines)
      && Separate(tables, discovered)
    }

    method GatherOne(file: File, code: File -> set<Line>, tables: map<File, LineTable>,
                     ghost names: seq<File>, ghost lines: map<File, set<Line>>)
      returns (result: map<File, LineTable>)
      requires CacheIs(lines) && Gathered(tables, names, lines)
      modifies `discovered
      ensures CacheIs(Examine(lines, file, files, code))
      ensures Gathered(result, names + [file], Examine(lines, file, files, code))
      ensures forall f :: f in result ==> (f in tables && result[f] == tables[f]) || fresh(result[f])
    {
      hide Uncovered, Examine, Separate;
      ExamineOne(lines, file, files, code);
      result := DiscoverFile(file, code, tables, lines);
      SeparateOne(tables, old(discovered), result, discovered, file);
      UncoveredOne(tables, lines, result, Examine(lines, file, files, code), file);
    }

    method GatherAll(code: File -> set<Line>, ghost lines: map<File, set<Line>>) returns (tables: map<File, LineTable>)
      requires CacheIs(lines)
      modifies `discovered
      ensures CacheIs(ExamineAll(lines, files, files, code))
      ensures Gathered(tables, files, ExamineAll(lines, files, files, code))
      ensures forall f :: f in tables ==> fresh(tables[f])
    {
      hide Uncovered, Examine;
      tables := map[];
      for i := 0 to |files|
        invariant CacheIs(ExamineAll(lines, files[..i], files, code))
        invariant Gathered(tables, files[..i], ExamineAll(lines, files[..i], files, code))
        invariant forall f :: f in tables ==> fresh(tables[f])
      {
        assert files[..i + 1] == files[..i] + [files[i]];
        tables := GatherOne(files[i], code, tables, files[..i], ExamineAll(lines, files[..i], files, code));
      }
      assert files[..|files|] == files;
    }

    method GatherNamed(filter: seq<FilterValue>, code: File -> set<Line>, ghost lines: map<File, set<Line>>)
      returns (tables: map<File, LineTable>)
      requires CacheIs(lines)
      modifies `discovered
      ensures CacheIs(ExamineAll(lines, Names(filter), files, code))
      ensures Gathered(tables, Names(filter), ExamineAll(lines, Names(filter), files, code))
      ensures forall f :: f in tables ==> fresh(tables[f])
    {
      hide Uncovered, Examine, Names, ExamineAll, Separate;
      NothingNamed(lines, files, code);
      assert Separate(map[], discovered) by { NothingSeparate(discovered); }
      tables := map[];
      assert filter[..0] == [];
      for i := 0 to |filter|
        invariant CacheIs(ExamineAll(lines, Names(filter[..i]), files, code))
        invariant Gathered(tables, Names(filter[..i]), ExamineAll(lines, Names(filter[..i]), files, code))
        invariant forall f :: f in tables ==> fresh(tables[f])
      {
        ghost var names := Names(filter[..i]);
        NamesStep(filter, i);
        if filter[i].Name? {
          ExamineStep(lines, names, filter[i].file, files, code);
          tables := GatherOne(filter[i].file, code, tables, names, ExamineAll(lines, names, files, code));
        } else {
          assert names + [] == names;
        }
      }
      assert filter[..|filter|] == filter;
    }

    method MarkHit(tables: map<File, LineTable>, hit: Hit)
      requires forall f, g :: f in tables && g in tables && f != g ==> tables[f] != tables[g]
      modifies tables.Values
      ensures forall f :: f in tables ==> tables[f].marks == Marked(old(tables[f].marks), f, [hit])
    {
      if hit.file in tables {
        var table := tables[hit.file];
        if hit.line in table.marks {
          table.marks := table.marks[hit.line := COVERED];
        }
      }
    }

    method ReportHits(tables: map<File, LineTable>)
      requires ListValid()
      requires forall f, g :: f in tables && g in tables && f != g ==> tables[f] != tables[g]
      modifies tables.Values
      ensures forall f :: f in tables ==> tables[f].marks == Marked(old(tables[f].marks), f, Hits(nodes))
    {
      hide Marked, Hits, FilesOf;
      var coverage := start;
      NothingMarked(tables);
      ghost var i: nat := 0;
      while coverage != null
        invariant ListValid() && i <= |nodes|
        invariant if i < |nodes| then coverage == nodes[i] else coverage == null
        invariant forall f :: f in tables ==> tables[f].marks == Marked(old(tables[f].marks), f, Hits(nodes[..i]))
        decreases |nodes| - i
      {
        label L:
        MarkHit(tables, coverage.hit);
        assert nodes[..i + 1] == nodes[..i] + [coverage];
        OneMoreHit(nodes[..i], coverage);
        forall f | f in tables
          ensures tables[f].marks == Marked(old(tables[f].marks), f, Hits(nodes[..i + 1]))
        {
          MarkedTwice(old(tables[f].marks), f, Hits(nodes[..i]), coverage.hit);
        }
        assert nodes[i] == coverage && Linked(nodes);
        i := i + 1;
        coverage := coverage.next;
      }
      assert nodes[..|nodes|] == nodes;
    }

    /** Unmarked tables for the wanted files. */
    method Gather(kind: int, filter: seq<FilterValue>, code: File -> set<Line>, ghost lines: map<File, set<Line>>)
      returns (tables: map<File, LineTable>)
      requires CacheIs(lines) && forall f :: f in lines ==> f in files
      requires kind == FILTER_ALL || kind == FILTER_INCLUDE
      modifies `discovered
      ensures CacheIs(Examined(lines, Wanted(kind, filter, files), code))
      ensures tables.Keys == Wanted(kind, filter, files)
      ensures UncoveredIn(tables, Examined(lines, Wanted(kind, filter, files), code))
      ensures Separate(tables, discovered) && forall f :: f in tables ==> fresh(tables[f])
    {
      hide Uncovered, ExamineAll;
      if kind == FILTER_INCLUDE {
        tables := GatherNamed(filter, code, lines);
        ExamineAllIs(lines, Names(filter), files, code);
        assert Registered(Names(filter), files) == Wanted(kind, filter, files);
      } else {
        tables := GatherAll(code, lines);
        ExamineAllIs(lines, files, files, code);
        assert Registered(files, files) == Wanted(kind, filter, files);
      }
    }

    method FilledIn(kind: int, filter: seq<FilterValue>, code: File -> set<Line>, ghost lines: map<File, set<Line>>)
      returns (tables: map<File, LineTable>)
      requires ListValid() && CacheIs(lines) && forall f :: f in lines ==> f in files
      requires kind == FILTER_ALL || kind == FILTER_INCLUDE
      modifies `discovered
      ensures var wanted := Wanted(kind, filter, files);
              var found := Examined(lines, wanted, code);
              CacheIs(found) && MarksOf(tables) == MarkedTables(wanted, found, Hits(nodes))
      ensures Separate(tables, discovered) && forall f :: f in tables ==> fresh(tables[f])
    {
      hide Uncovered, Marked, Examined, Wanted, Linked, Hits;
      tables := Gather(kind, filter, code, lines);
      ReportHits(tables);
    }

    /** The tables are new objects, and their marks are what the run says. */
    method Collect(kind: int, filter: seq<FilterValue>, code: File -> set<Line>) returns (r: Outcome)
      requires Valid()
      modifies `last, `discovered, `run
      ensures Valid()
      ensures r.WrongType? <==> kind != 0 && kind != 1
      ensures r.WrongType? ==> run == old(run) && last == old(last) && discovered == old(discovered)
      ensures r.Report? ==> run == old(run) + [Collected(kind, filter, code)]
      ensures r.Report? ==> Separate(r.tables, discovered) && forall f :: f in r.tables ==> fresh(r.tables[f])
      ensures r.Report? ==> MarksOf(r.tables) == CoverageStore.Report(old(run), kind, filter, code)
    {
      hide Uncovered, Marked, Examined, Wanted, Enabled, Traces, Pending, Files, Lines, Linked, Hits, FilesOf;
      if kind != FILTER_ALL && kind != FILTER_INCLUDE {
        return WrongType;
      }
      AfterCollected(run, kind, filter, code);
      run := run + [Collected(kind, filter, code)];
      if last == next {
        return Report(map[]);
      }
      last := next;
      ExaminedAreFiles(old(run));
      var tables := FilledIn(kind, filter, code, Lines(old(run)));
      r := Report(tables);
    }
  }
}
