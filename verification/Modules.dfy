/** Ordering the registered modules by their dependencies, and starting them in that order. */
module ModuleStartup {
  datatype DepKind = RequiredDep | ConflictsDep | OptionalDep
  datatype Dep = Dep(name: string, kind: DepKind)

  class ModuleEntry {
    const name: string
    const deps: seq<Dep>
    var started: bool

    constructor (name: string, deps: seq<Dep>)
      ensures this.name == name && this.deps == deps && !started
    {
      this.name, this.deps, started := name, deps, false;
    }
  }

  function LowerChar(c: char): char {
    if 'A' <= c <= 'Z' then ((c as int) + 32) as char else c
  }

  /** Names are compared without regard to case. */
  function Lower(name: string): string {
    if name == "" then "" else [LowerChar(name[0])] + Lower(name[1..])
  }

  /** The same letter, or an upper-case one and its lower-case form. */
  predicate SameLetter(a: char, b: char) {
    a == b || ('A' <= a <= 'Z' && b as int == a as int + 32) || ('A' <= b <= 'Z' && a as int == b as int + 32)
  }

  ghost predicate SameLetters(s: string, t: string) {
    |s| == |t| && forall i :: 0 <= i < |s| ==> SameLetter(s[i], t[i])
  }

  lemma LowerLetter(a: char, b: char)
    ensures LowerChar(a) == LowerChar(b) <==> SameLetter(a, b)
  {
  }

  /** Two names have the same lower-case form exactly when they agree letter by letter up to the case of A to Z. */
  lemma {:induction false} LowerIdentifies(s: string, t: string)
    ensures Lower(s) == Lower(t) <==> SameLetters(s, t)
  {
    if s == "" || t == "" {
      LowerEmpty(s);
      LowerEmpty(t);
    } else {
      LowerIdentifies(s[1..], t[1..]);
      LowerLetter(s[0], t[0]);
      LowerSplits(s, t);
      if SameLetters(s[1..], t[1..]) && SameLetter(s[0], t[0]) {
        assert forall i :: 0 < i < |s| ==> s[i] == s[1..][i - 1] && t[i] == t[1..][i - 1];
      }
    }
  }

  lemma LowerEmpty(s: string)
    ensures Lower(s) == "" <==> s == ""
  {
  }

  lemma LowerSplits(s: string, t: string)
    requires s != "" && t != ""
    ensures Lower(s) == Lower(t) <==> LowerChar(s[0]) == LowerChar(t[0]) && Lower(s[1..]) == Lower(t[1..])
  {
    assert Lower(s)[1..] == Lower(s[1..]) && Lower(t)[1..] == Lower(t[1..]);
  }

  predicate Names(d: Dep, m: ModuleEntry) {
    Lower(d.name) == Lower(m.name)
  }

  /** `m` must come after `r`. */
  ghost predicate DependsOn(m: ModuleEntry, r: ModuleEntry) {
    exists d :: d in m.deps && d.kind != ConflictsDep && Names(d, r)
  }

  ghost predicate NamesDistinct(modules: seq<ModuleEntry>) {
    forall i, j :: 0 <= i < j < |modules| ==> Lower(modules[i].name) != Lower(modules[j].name)
  }

  // ---------------------------------------------------------------- knots and ranks

  ghost predicate Blocked(m: ModuleEntry, others: set<ModuleEntry>)
    reads m
  {
    !m.started && exists r :: r in others && r != m && DependsOn(m, r)
  }

  /** Modules not yet started of which each depends on another one of them. */
  ghost predicate Knot(knot: set<ModuleEntry>)
    reads knot
  {
    && knot != {}
    && forall m :: m in knot ==> Blocked(m, knot)
  }

  ghost predicate NoKnot(modules: set<ModuleEntry>)
    reads modules
  {
    forall knot: set<ModuleEntry> :: knot <= modules ==> !Knot(knot)
  }

  /** A rank falls along every dependency of a module not yet started. */
  ghost predicate Ranked(modules: set<ModuleEntry>, rank: map<ModuleEntry, nat>)
    reads modules
  {
    && modules <= rank.Keys
    && forall m, r :: m in modules && r in modules && !m.started && m != r && DependsOn(m, r) ==> rank[r] < rank[m]
  }

  lemma {:induction false} RankExists(modules: set<ModuleEntry>) returns (rank: map<ModuleEntry, nat>)
    requires NoKnot(modules)
    ensures Ranked(modules, rank) && rank.Keys == modules
    decreases modules
  {
    if modules == {} {
      rank := map[];
    } else {
      var m := First(modules);
      var rest := RankExists(modules - {m});
      rank := (map r | r in rest :: rest[r] + 1)[m := 0];
      assert rank.Keys == modules;
    }
  }

  /** Without a knot some module is started or depends on no other. */
  lemma First(modules: set<ModuleEntry>) returns (m: ModuleEntry)
    requires NoKnot(modules) && modules != {}
    ensures m in modules && !Blocked(m, modules)
  {
    assert !Knot(modules);
    m :| m in modules && !Blocked(m, modules);
  }

  // ---------------------------------------------------------------- the sort

  /** No module that is still to be started comes before one it depends on. */
  ghost predicate Sorted(modules: seq<ModuleEntry>)
    reads modules
  {
    forall i, j :: 0 <= i < j < |modules| && !modules[i].started ==> !DependsOn(modules[i], modules[j])
  }

  /** The order can be met at all only without knots, so with a knot the sort does not end. */
  lemma SortedHasNoKnot(modules: seq<ModuleEntry>)
    requires NamesDistinct(modules) && Sorted(modules)
    ensures NoKnot(set m | m in modules)
  {
    forall knot: set<ModuleEntry> | knot <= (set m | m in modules) && knot != {}
      ensures !Knot(knot)
    {
      var m :| m in knot;
      assert m in modules;
      var i := Earliest(modules, knot, 0);
      EarliestNotBlocked(modules, knot, i);
    }
  }

  lemma EarliestNotBlocked(modules: seq<ModuleEntry>, knot: set<ModuleEntry>, i: nat)
    requires Sorted(modules) && i < |modules| && (forall m :: m in knot ==> m in modules)
    requires forall j :: 0 <= j < i ==> modules[j] !in knot
    ensures !Blocked(modules[i], knot)
  {
    forall r | r in knot && r != modules[i] && !modules[i].started
      ensures !DependsOn(modules[i], r)
    {
      var j :| 0 <= j < |modules| && modules[j] == r;
      assert i < j;
    }
  }

  lemma {:induction false} Earliest(modules: seq<ModuleEntry>, some: set<ModuleEntry>, from: nat) returns (i: nat)
    requires exists j :: from <= j < |modules| && modules[j] in some
    ensures from <= i < |modules| && modules[i] in some && forall j :: from <= j < i ==> modules[j] !in some
    decreases |modules| - from
  {
    if modules[from] in some {
      i := from;
    } else {
      i := Earliest(modules, some, from + 1);
    }
  }

  /** The first later module that the module at `b1` depends on, scanning its dependencies in order. */
  method FindLater(modules: array<ModuleEntry>, b1: nat) returns (found: bool, b2: nat)
    requires b1 < modules.Length
    ensures found ==> b1 < b2 < modules.Length && DependsOn(modules[b1], modules[b2])
    ensures !found ==> forall j :: b1 < j < modules.Length ==> !DependsOn(modules[b1], modules[..][j])
  {
    var m := modules[b1];
    for dep := 0 to |m.deps|
      invariant forall d, j :: 0 <= d < dep && m.deps[d].kind != ConflictsDep && b1 < j < modules.Length ==>
        !Names(m.deps[d], modules[j])
    {
      if m.deps[dep].kind == RequiredDep || m.deps[dep].kind == OptionalDep {
        b2 := b1 + 1;
        while b2 < modules.Length
          invariant b1 < b2 <= modules.Length
          invariant forall j :: b1 < j < b2 ==> !Names(m.deps[dep], modules[j])
        {
          if Names(m.deps[dep], modules[b2]) {
            return true, b2;
          }
          b2 := b2 + 1;
        }
      }
    }
    found, b2 := false, b1;
  }

  /** Sorts in place: while the module at `b1` depends on a later one, the two change places. */
  method SortModules(modules: array<ModuleEntry>)
    requires NamesDistinct(modules[..]) && NoKnot(set m | m in modules[..])
    modifies modules
    ensures multiset(modules[..]) == multiset(old(modules[..]))
    ensures NamesDistinct(modules[..]) && Sorted(modules[..])
  {
    hide DependsOn, NamesDistinct, NoKnot, Ranked, Height;
    ghost var all := set m | m in modules[..];
    ghost var rank := RankExists(all);
    var b1 := 0;
    while b1 < modules.Length
      invariant b1 <= modules.Length
      invariant multiset(modules[..]) == multiset(old(modules[..])) && NamesDistinct(modules[..])
      invariant Ranked(all, rank) && forall m :: m in modules[..] ==> m in all
      invariant SortedUpTo(modules[..], b1)
      decreases modules.Length - b1, if b1 < modules.Length then Height(modules[b1], rank) else 0
    {
      ghost var before := modules[..];
      var again := TryAgain(modules, b1);
      SameMembers(before, modules[..]);
      if again {
        assert before[b1] in before && modules[b1] in modules[..];
        HeightFalls(before[b1], modules[b1], all, rank);
      } else {
        b1 := b1 + 1;
      }
    }
  }

  lemma SameMembers(a: seq<ModuleEntry>, b: seq<ModuleEntry>)
    requires multiset(a) == multiset(b)
    ensures forall m :: m in a <==> m in b
  {
    assert forall m :: m in a <==> m in multiset(a);
    assert forall m :: m in b <==> m in multiset(b);
  }

  /** The same loop given up after some passes, for any dependencies: should it end, the modules are in order. So with a
      knot it does not end, however many passes are made. */
  method SortWithin(modules: array<ModuleEntry>, passes: nat) returns (ended: bool)
    requires NamesDistinct(modules[..])
    modifies modules
    ensures multiset(modules[..]) == multiset(old(modules[..])) && NamesDistinct(modules[..])
    ensures ended ==> Sorted(modules[..])
    ensures !NoKnot(set m | m in modules[..]) ==> !ended
  {
    hide DependsOn, NamesDistinct, NoKnot;
    var b1, pass := 0, 0;
    while b1 < modules.Length && pass < passes
      invariant b1 <= modules.Length
      invariant multiset(modules[..]) == multiset(old(modules[..])) && NamesDistinct(modules[..])
      invariant SortedUpTo(modules[..], b1)
      decreases passes - pass
    {
      var again := TryAgain(modules, b1);
      if !again {
        b1 := b1 + 1;
      }
      pass := pass + 1;
    }
    ended := b1 == modules.Length;
    if ended {
      SortedHasNoKnot(modules[..]);
    }
  }

  ghost predicate SortedUpTo(modules: seq<ModuleEntry>, n: nat)
    reads modules
  {
    forall i, j :: 0 <= i < n && i < j < |modules| && !modules[i].started ==> !DependsOn(modules[i], modules[j])
  }

  /** One pass over the dependencies of the module at `b1`; after a change of places, with a module that it depends
      on, it starts over. */
  method TryAgain(modules: array<ModuleEntry>, b1: nat) returns (again: bool)
    requires b1 < modules.Length && NamesDistinct(modules[..]) && SortedUpTo(modules[..], b1)
    modifies modules
    ensures multiset(modules[..]) == multiset(old(modules[..])) && NamesDistinct(modules[..])
    ensures SortedUpTo(modules[..], if again then b1 else b1 + 1)
    ensures again ==> Unmet(old(modules[b1]), modules[b1])
  {
    hide DependsOn, SortedUpTo;
    again := false;
    var b2 := b1;
    if !modules[b1].started {
      again, b2 := FindLater(modules, b1);
    }
    if again {
      DifferentNames(modules[..], b1, b2);
      SwapKeepsPrefix(modules[..], b1, b2);
      hide NamesDistinct;
      Swap(modules, b1, b2);
    } else {
      SortedOneMore(modules[..], b1);
    }
  }

  /** A module still to be started depends on another one. */
  ghost predicate Unmet(m: ModuleEntry, r: ModuleEntry)
    reads m
  {
    !m.started && DependsOn(m, r) && Lower(m.name) != Lower(r.name)
  }

  lemma DifferentNames(modules: seq<ModuleEntry>, i: nat, j: nat)
    requires NamesDistinct(modules) && i < j < |modules|
    ensures Lower(modules[i].name) != Lower(modules[j].name)
  {
  }

  lemma HeightFalls(m: ModuleEntry, r: ModuleEntry, all: set<ModuleEntry>, rank: map<ModuleEntry, nat>)
    requires m in all && r in all && Ranked(all, rank) && Unmet(m, r)
    ensures Height(r, rank) < Height(m, rank)
  {
  }

  lemma SortedOneMore(modules: seq<ModuleEntry>, b1: nat)
    requires b1 < |modules| && SortedUpTo(modules, b1)
    requires modules[b1].started || forall j :: b1 < j < |modules| ==> !DependsOn(modules[b1], modules[j])
    ensures SortedUpTo(modules, b1 + 1)
  {
  }

  lemma SwapKeepsPrefix(before: seq<ModuleEntry>, b1: nat, b2: nat)
    requires b1 < b2 < |before| && SortedUpTo(before, b1)
    ensures SortedUpTo(before[b1 := before[b2]][b2 := before[b1]], b1)
  {
  }

  ghost function Height(m: ModuleEntry, rank: map<ModuleEntry, nat>): nat
    reads m
  {
    if m.started || m !in rank then 0 else rank[m] + 1
  }

  method Swap(modules: array<ModuleEntry>, b1: nat, b2: nat)
    requires b1 < b2 < modules.Length && NamesDistinct(modules[..])
    modifies modules
    ensures modules[..] == old(modules[..])[b1 := old(modules[b2])][b2 := old(modules[b1])]
    ensures multiset(modules[..]) == multiset(old(modules[..])) && NamesDistinct(modules[..])
  {
    SwapDistinct(modules[..], b1, b2);
    SwapMembers(modules[..], b1, b2);
    hide NamesDistinct;
    var tmp := modules[b1];
    modules[b1] := modules[b2];
    modules[b2] := tmp;
    assert modules[..] == old(modules[..])[b1 := old(modules[b2])][b2 := old(modules[b1])];
  }

  lemma SwapDistinct(s: seq<ModuleEntry>, b1: nat, b2: nat)
    requires b1 < b2 < |s| && NamesDistinct(s)
    ensures NamesDistinct(s[b1 := s[b2]][b2 := s[b1]])
  {
  }

  lemma SwapMembers(s: seq<ModuleEntry>, b1: nat, b2: nat)
    requires b1 < b2 < |s|
    ensures multiset(s[b1 := s[b2]][b2 := s[b1]]) == multiset(s)
  {
  }

  // ---------------------------------------------------------------- which modules can be started

  ghost predicate Requires(m: ModuleEntry, r: ModuleEntry) {
    exists d :: d in m.deps && d.kind == RequiredDep && Names(d, r)
  }

  /** A required module is not registered. */
  ghost predicate Misses(modules: seq<ModuleEntry>, m: ModuleEntry) {
    exists d :: d in m.deps && d.kind == RequiredDep && forall r :: r in modules ==> !Names(d, r)
  }

  /** A chain of at most `n` requirements leads to a module that misses one; `up` are running already. */
  ghost predicate DoomedWithin(modules: seq<ModuleEntry>, up: set<ModuleEntry>, m: ModuleEntry, n: nat) {
    m !in up && (Misses(modules, m) ||
      (n > 0 && exists r :: r in modules && Requires(m, r) && DoomedWithin(modules, up, r, n - 1)))
  }

  /** Some module that `m` requires, directly or through others, is not registered. */
  ghost predicate Doomed(modules: seq<ModuleEntry>, up: set<ModuleEntry>, m: ModuleEntry) {
    exists n: nat :: DoomedWithin(modules, up, m, n)
  }

  /** `m` is doomed itself or requires another module that is. */
  ghost predicate DoomedNow(modules: seq<ModuleEntry>, up: set<ModuleEntry>, m: ModuleEntry) {
    m !in up && (Misses(modules, m) ||
      exists r :: r in modules && r != m && Requires(m, r) && Doomed(modules, up, r))
  }

  lemma {:induction false} DoomedChain(modules: seq<ModuleEntry>, up: set<ModuleEntry>, m: ModuleEntry, n: nat)
    requires DoomedWithin(modules, up, m, n)
    ensures DoomedNow(modules, up, m)
  {
    if !Misses(modules, m) {
      var r :| r in modules && Requires(m, r) && DoomedWithin(modules, up, r, n - 1);
      if r == m {
        DoomedChain(modules, up, m, n - 1);
      }
    }
  }

  lemma DoomedStep(modules: seq<ModuleEntry>, up: set<ModuleEntry>, m: ModuleEntry)
    ensures Doomed(modules, up, m) <==> DoomedNow(modules, up, m)
  {
    if Doomed(modules, up, m) {
      var n: nat :| DoomedWithin(modules, up, m, n);
      DoomedChain(modules, up, m, n);
    }
    if DoomedNow(modules, up, m) {
      if Misses(modules, m) {
        assert DoomedWithin(modules, up, m, 0);
      } else {
        var r :| r in modules && r != m && Requires(m, r) && Doomed(modules, up, r);
        var n: nat :| DoomedWithin(modules, up, r, n);
        assert DoomedWithin(modules, up, m, n + 1);
      }
    }
  }

  // ---------------------------------------------------------------- the same, told by names and chains

  /** `m` lists a dependency of that kind on a module of that name. */
  ghost predicate Lists(m: ModuleEntry, kind: DepKind, name: string) {
    exists d :: d in m.deps && d.kind == kind && SameLetters(d.name, name)
  }

  /** A module comes after those it requires and those it names as optional, and not after those it conflicts with. */
  lemma DependsOnIs(m: ModuleEntry, r: ModuleEntry)
    ensures DependsOn(m, r) <==> Lists(m, RequiredDep, r.name) || Lists(m, OptionalDep, r.name)
  {
    forall d | d in m.deps
      ensures Names(d, r) <==> SameLetters(d.name, r.name)
    {
      LowerIdentifies(d.name, r.name);
    }
  }

  /** Each module of the chain is registered and not running, and requires the next one; what the last one requires is
      not registered under any spelling. */
  ghost predicate BrokenChain(modules: seq<ModuleEntry>, up: set<ModuleEntry>, chain: seq<ModuleEntry>) {
    && chain != [] && (forall i :: 0 <= i < |chain| ==> chain[i] !in up)
    && (forall i :: 1 <= i < |chain| ==> chain[i] in modules && Lists(chain[i - 1], RequiredDep, chain[i].name))
    && exists d :: d in chain[|chain| - 1].deps && d.kind == RequiredDep
                   && forall r :: r in modules ==> !SameLetters(d.name, r.name)
  }

  lemma RequiresIs(m: ModuleEntry, r: ModuleEntry)
    ensures Requires(m, r) <==> Lists(m, RequiredDep, r.name)
  {
    forall d | d in m.deps
      ensures Names(d, r) <==> SameLetters(d.name, r.name)
    {
      LowerIdentifies(d.name, r.name);
    }
  }

  lemma MissesIs(modules: seq<ModuleEntry>, up: set<ModuleEntry>, m: ModuleEntry)
    ensures m !in up && Misses(modules, m) <==> BrokenChain(modules, up, [m])
  {
    forall d, r: ModuleEntry | d in m.deps && r in modules
      ensures Names(d, r) <==> SameLetters(d.name, r.name)
    {
      LowerIdentifies(d.name, r.name);
    }
  }

  lemma {:induction false} DoomedHasChain(modules: seq<ModuleEntry>, up: set<ModuleEntry>, m: ModuleEntry, n: nat)
    returns (chain: seq<ModuleEntry>)
    requires DoomedWithin(modules, up, m, n)
    ensures BrokenChain(modules, up, chain) && chain[0] == m
  {
    hide SameLetters, Lists;
    if Misses(modules, m) {
      MissesIs(modules, up, m);
      chain := [m];
    } else {
      var r :| r in modules && Requires(m, r) && DoomedWithin(modules, up, r, n - 1);
      var rest := DoomedHasChain(modules, up, r, n - 1);
      RequiresIs(m, r);
      chain := [m] + rest;
    }
  }

  lemma {:induction false} ChainDooms(modules: seq<ModuleEntry>, up: set<ModuleEntry>, chain: seq<ModuleEntry>)
    requires BrokenChain(modules, up, chain)
    ensures DoomedWithin(modules, up, chain[0], |chain| - 1)
  {
    hide SameLetters, Lists, Misses, Requires;
    if |chain| == 1 {
      assert chain == [chain[0]];
      MissesIs(modules, up, chain[0]);
    } else {
      var rest := chain[1..];
      assert forall i :: 1 <= i < |rest| ==> rest[i] == chain[i + 1] && rest[i - 1] == chain[i];
      ChainDooms(modules, up, rest);
      RequiresIs(chain[0], chain[1]);
    }
  }

  /** A module cannot be started exactly when a chain of requirements leads from it to a name that is not registered. */
  lemma DoomedIffChain(modules: seq<ModuleEntry>, up: set<ModuleEntry>, m: ModuleEntry)
    ensures Doomed(modules, up, m) <==> exists chain :: BrokenChain(modules, up, chain) && chain[0] == m
  {
    if n: nat :| DoomedWithin(modules, up, m, n) {
      var chain := DoomedHasChain(modules, up, m, n);
    }
    if chain :| BrokenChain(modules, up, chain) && chain[0] == m {
      ChainDooms(modules, up, chain);
    }
  }

  // ---------------------------------------------------------------- starting them

  /** The order established by the sort, when `up` were running. */
  ghost predicate InOrder(modules: seq<ModuleEntry>, up: set<ModuleEntry>) {
    forall i, j :: 0 <= i < j < |modules| && modules[i] !in up ==> !DependsOn(modules[i], modules[j])
  }

  /** A module that `modules[n]` requires is not registered after it. */
  lemma RequiredIsEarlier(modules: seq<ModuleEntry>, up: set<ModuleEntry>, n: nat, d: Dep, j: nat)
    requires InOrder(modules, up) && n < |modules| && modules[n] !in up
    requires d in modules[n].deps && d.kind == RequiredDep && j < |modules| && Names(d, modules[j])
    ensures j <= n
  {
    var r := modules[j];
    assert DependsOn(modules[n], r);
  }

  /** The registry: buckets in order, of which some have been emptied. */
  class Registry {
    const modules: array<ModuleEntry>
    const present: array<bool>

    constructor (modules: array<ModuleEntry>)
      ensures this.modules == modules && fresh(present) && present.Length == modules.Length
      ensures forall i :: 0 <= i < present.Length ==> present[i]
    {
      this.modules := modules;
      present := new bool[modules.Length](i => true);
    }

    /** The first `n` modules have been started or removed, the others are as they were. */
    ghost predicate Halfway(up: set<ModuleEntry>, n: nat)
      reads modules, present, modules[..]
      requires present.Length == modules.Length
    {
      && (forall j :: 0 <= j < n && j < modules.Length ==>
            (present[j] <==> !Doomed(modules[..], up, modules[j])) && (modules[j].started <==> present[j]))
      && (forall j :: n <= j < modules.Length ==> present[j] && (modules[j].started <==> modules[j] in up))
    }

    method Find(d: Dep) returns (found: bool, i: nat)
      requires present.Length == modules.Length
      ensures found ==> i < modules.Length && present[i] && Names(d, modules[i])
      ensures !found ==> forall j :: 0 <= j < modules.Length && present[j] ==> !Names(d, modules[j])
    {
      i := 0;
      while i < modules.Length
        invariant i <= modules.Length
        invariant forall j :: 0 <= j < i && present[j] ==> !Names(d, modules[j])
      {
        if present[i] && Names(d, modules[i]) {
          return true, i;
        }
        i := i + 1;
      }
      found := false;
    }

    /** Whether one requirement of the module being started is met. */
    method RequirementMet(d: Dep, ghost up: set<ModuleEntry>, ghost n: nat) returns (met: bool)
      requires present.Length == modules.Length && InOrder(modules[..], up)
      requires n < modules.Length && d in modules[n].deps && d.kind == RequiredDep && modules[n] !in up
      requires modules[n].started && present[n]
      requires forall j :: 0 <= j < n ==>
        (present[j] <==> !Doomed(modules[..], up, modules[j])) && (modules[j].started <==> present[j])
      ensures met <==> exists r :: r in modules[..] && Names(d, r) && (r == modules[n] || !Doomed(modules[..], up, r))
    {
      hide Doomed, InOrder;
      var found, i := Find(d);
      met := found && modules[i].started;
      if found {
        RequiredIsEarlier(modules[..], up, n, d, i);
        assert modules[i] in modules[..];
      }
      forall r | r in modules[..] && Names(d, r) && (r == modules[n] || !Doomed(modules[..], up, r))
        ensures met
      {
        var j :| 0 <= j < modules.Length && modules[..][j] == r;
        RequiredIsEarlier(modules[..], up, n, d, j);
      }
    }

    /** Starts the module in bucket `n`, unless a required module is not running. */
    method StartModule(n: nat, ghost up: set<ModuleEntry>) returns (ok: bool)
      requires present.Length == modules.Length && NamesDistinct(modules[..]) && InOrder(modules[..], up)
      requires n < modules.Length && Halfway(up, n)
      modifies modules[n]
      ensures ok <==> !Doomed(modules[..], up, modules[n])
      ensures modules[n].started == ok
      ensures present[..] == old(present[..])
    {
      hide Doomed, InOrder;
      var m := modules[n];
      if m.started {
        RunningIsNotDoomed(modules[..], up, m);
        return true;
      }
      m.started := true;
      OthersAsTheyWere(n);
      DoomedStep(modules[..], up, m);
      for d := 0 to |m.deps|
        invariant modules[n].started
        invariant forall e :: 0 <= e < d && m.deps[e].kind == RequiredDep ==> Met(modules[..], up, m, m.deps[e])
      {
        if m.deps[d].kind == RequiredDep {
          var met := RequirementMet(m.deps[d], up, n);
          if !met {
            UnmetIsDoomed(modules[..], up, m, m.deps[d]);
            m.started := false;
            return false;
          }
        }
      }
      AllMetIsNotDoomed(modules[..], up, m);
      ok := true;
    }

    lemma OthersAsTheyWere(n: nat)
      requires NamesDistinct(modules[..]) && n < modules.Length
      ensures forall j :: 0 <= j < modules.Length && j != n ==> modules[j] != modules[n]
    {
      forall j | 0 <= j < modules.Length && j != n
        ensures modules[j] != modules[n]
      {
        assert Lower(modules[..][j].name) != Lower(modules[..][n].name);
      }
    }

    /** The pass over the sorted registry: each module is started or removed. What is left are exactly the
        modules whose requirements are all registered, directly and through others, and they run. */
    method StartModules(ghost up: set<ModuleEntry>)
      requires present.Length == modules.Length && NamesDistinct(modules[..]) && InOrder(modules[..], up)
      requires Halfway(up, 0)
      modifies present, modules[..]
      ensures forall j :: 0 <= j < modules.Length ==>
        (present[j] <==> !Doomed(modules[..], up, modules[j])) && (modules[j].started <==> present[j])
    {
      hide Doomed, InOrder;
      for n := 0 to modules.Length
        invariant Halfway(up, n)
      {
        OthersAsTheyWere(n);
        assert modules[n] in modules[..];
        var ok := StartModule(n, up);
        if !ok {
          present[n] := false;
        }
      }
    }
  }

  ghost predicate Met(modules: seq<ModuleEntry>, up: set<ModuleEntry>, m: ModuleEntry, d: Dep) {
    exists r :: r in modules && Names(d, r) && (r == m || !Doomed(modules, up, r))
  }

  lemma RunningIsNotDoomed(modules: seq<ModuleEntry>, up: set<ModuleEntry>, m: ModuleEntry)
    requires m in up
    ensures !Doomed(modules, up, m)
  {
  }

  lemma SameName(modules: seq<ModuleEntry>, d: Dep, r: ModuleEntry, s: ModuleEntry)
    requires NamesDistinct(modules) && r in modules && s in modules && Names(d, r) && Names(d, s)
    ensures r == s
  {
  }

  lemma UnmetIsDoomed(modules: seq<ModuleEntry>, up: set<ModuleEntry>, m: ModuleEntry, d: Dep)
    requires m !in up && d in m.deps && d.kind == RequiredDep && !Met(modules, up, m, d)
    ensures Doomed(modules, up, m)
  {
    hide Doomed;
    DoomedStep(modules, up, m);
    if r :| r in modules && Names(d, r) {
      assert Requires(m, r);
      assert r != m && Doomed(modules, up, r);
    } else {
      assert Misses(modules, m);
    }
  }

  lemma AllMetIsNotDoomed(modules: seq<ModuleEntry>, up: set<ModuleEntry>, m: ModuleEntry)
    requires NamesDistinct(modules)
    requires forall e :: 0 <= e < |m.deps| && m.deps[e].kind == RequiredDep ==> Met(modules, up, m, m.deps[e])
    ensures !Doomed(modules, up, m)
  {
    hide Doomed;
    DoomedStep(modules, up, m);
    forall d | d in m.deps && d.kind == RequiredDep
      ensures Met(modules, up, m, d)
    {
      var e :| 0 <= e < |m.deps| && m.deps[e] == d;
    }
    forall r | r in modules && r != m && Requires(m, r)
      ensures !Doomed(modules, up, r)
    {
      var d :| d in m.deps && d.kind == RequiredDep && Names(d, r);
      var s :| s in modules && Names(d, s) && (s == m || !Doomed(modules, up, s));
      SameName(modules, d, r, s);
    }
  }

  lemma {:induction false} SameMembersSameDoom(a: seq<ModuleEntry>, b: seq<ModuleEntry>, up: set<ModuleEntry>,
                                               m: ModuleEntry, n: nat)
    requires forall r :: r in a <==> r in b
    requires DoomedWithin(a, up, m, n)
    ensures DoomedWithin(b, up, m, n)
  {
    assert Misses(a, m) ==> Misses(b, m);
    if !Misses(a, m) {
      var r :| r in a && Requires(m, r) && DoomedWithin(a, up, r, n - 1);
      SameMembersSameDoom(a, b, up, r, n - 1);
    }
  }

  lemma SameMembersDoomed(a: seq<ModuleEntry>, b: seq<ModuleEntry>, up: set<ModuleEntry>, m: ModuleEntry)
    requires multiset(a) == multiset(b)
    ensures Doomed(a, up, m) <==> Doomed(b, up, m)
  {
    assert forall r :: r in a <==> r in multiset(a);
    assert forall r :: r in b <==> r in multiset(b);
    if n: nat :| DoomedWithin(a, up, m, n) {
      SameMembersSameDoom(a, b, up, m, n);
    }
    if n: nat :| DoomedWithin(b, up, m, n) {
      SameMembersSameDoom(b, a, up, m, n);
    }
  }

  /** What a module that can be started requires stands before it and can be started too. */
  lemma RequirementsComeFirst(modules: seq<ModuleEntry>, up: set<ModuleEntry>, j: nat, d: Dep)
    requires NamesDistinct(modules) && InOrder(modules, up)
    requires j < |modules| && modules[j] !in up && !Doomed(modules, up, modules[j])
    requires d in modules[j].deps && d.kind == RequiredDep
    ensures exists i :: 0 <= i <= j && Names(d, modules[i]) && !Doomed(modules, up, modules[i])
  {
    hide Doomed;
    var m := modules[j];
    DoomedStep(modules, up, m);
    assert !Misses(modules, m);
    var r :| r in modules && Names(d, r);
    var i :| 0 <= i < |modules| && modules[i] == r;
    RequiredIsEarlier(modules, up, j, d, i);
    assert r != m ==> Requires(m, r);
  }

  /** Startup: whatever the order of registration, exactly the modules are left and running that were running
      or whose requirements are all registered, and the order of the rest respects every dependency. */
  method StartupModules(modules: array<ModuleEntry>) returns (registry: Registry)
    requires NamesDistinct(modules[..]) && NoKnot(set m | m in modules[..])
    modifies modules, modules[..]
    ensures registry.modules == modules && registry.present.Length == modules.Length
    ensures multiset(modules[..]) == multiset(old(modules[..]))
    ensures InOrder(modules[..], old(set m | m in modules[..] && m.started))
    ensures forall j :: 0 <= j < modules.Length ==>
      (modules[j].started <==> registry.present[j])
      && (registry.present[j] <==> !Doomed(old(modules[..]), old(set m | m in modules[..] && m.started), modules[j]))
  {
    hide Doomed, NoKnot, DependsOn;
    ghost var up := set m | m in modules[..] && m.started;
    ghost var before := modules[..];
    SortModules(modules);
    forall m | m in modules[..]
      ensures m in before
    {
      assert m in multiset(modules[..]);
    }
    assert forall j :: 0 <= j < modules.Length ==> modules[j] in modules[..];
    registry := new Registry(modules);
    registry.StartModules(up);
    forall j | 0 <= j < modules.Length
      ensures Doomed(modules[..], up, modules[j]) <==> Doomed(before, up, modules[j])
    {
      SameMembersDoomed(modules[..], before, up, modules[j]);
    }
  }
}
