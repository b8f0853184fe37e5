/** The other half: for every other pair of conflict lists there is a list of tests and a run on which the later test
    is sent first. */
module SchedulerOvertaking {
  import opened Collections
  import opened Scheduler
  import opened SchedulerSafety
  import opened SchedulerRuns
  import opened SchedulerOrder
  import opened SchedulerPairs

  // ---------------------------------------------------------------- lists of tests

  function Name(i: nat): (name: Test)
    ensures |name| == i + 1 && name[0] == 'a'
  {
    if i == 0 then "a" else Name(i - 1) + "a"
  }

  function Names(from: nat, n: nat): (names: seq<Test>)
    ensures |names| == n && forall i :: 0 <= i < n ==> |names[i]| == from + i + 1
  {
    if n == 0 then [] else Names(from, n - 1) + [Name(from + n - 1)]
  }

  /** The four tests that have keys. */
  function Keys(c: Test, cs: seq<Key>, d: Test, ds: seq<Key>, t: Test, a: seq<Key>, u: Test, b: seq<Key>): Conflicts {
    (x: Test) => if x == c then cs else if x == d then ds else if x == t then a else if x == u then b else []
  }

  ghost predicate NoKeys(files: seq<Test>, conf: Conflicts) {
    forall t :: t in files ==> conf(t) == []
  }

  ghost predicate NoneIsAll(tests: seq<Test>, conf: Conflicts) {
    forall t :: t in tests ==> !IsAll(conf, t)
  }

  function Start(stack: seq<Test>, sequential: seq<Test>, workers: set<Worker>): State {
    State(stack, sequential, [], map[], 0, workers, map[], [])
  }

  lemma {:induction false} FilterEverything<T>(s: seq<T>, p: T -> bool)
    requires forall t :: t in s ==> p(t)
    ensures Filter(s, p) == s
  {
    if s != [] {
      FilterEverything(s[1..], p);
    }
  }

  lemma StartsThere(tests: seq<Test>, conf: Conflicts, workers: set<Worker>)
    requires NoneIsAll(tests, conf) && workers != {}
    ensures Initial(Start(Reverse(tests), [], workers), tests, workers, conf, false)
  {
    FilterEverything(tests, (t: Test) => !IsAll(conf, t));
    FilterNothing(tests, (t: Test) => IsAll(conf, t));
  }

  // ---------------------------------------------------------------- single steps

  ghost predicate Goes(s: State, m: Message, r: State, batch: seq<Test>, conf: Conflicts) {
    Enabled(s, m) && Handle(s, m, conf, false) == r && Batch(s, m, conf, false) == batch
  }

  lemma Chain(s: State, m: Message, r: State, batch: seq<Test>, ms: seq<Message>, conf: Conflicts)
    requires Goes(s, m, r, batch, conf) && Possible(r, ms, conf, false)
    ensures Possible(s, [m] + ms, conf, false)
    ensures SentIn(s, [m] + ms, conf, false) == batch + SentIn(r, ms, conf, false)
  {
    hide Handle, Batch;
    assert ([m] + ms)[1..] == ms;
  }

  lemma NoMessages(s: State, conf: Conflicts)
    ensures Possible(s, [], conf, false) && SentIn(s, [], conf, false) == []
  {
  }

  lemma DispatchBuilt(s: State, i: Worker, b: Built, conf: Conflicts)
    requires s.sequentialTests == []
    requires b == Build(Built(s.testFiles, s.waitingTests, []), s.activeConflicts, conf, 32)
    ensures Dispatch(s, i, conf, false) == if b.files != [] then Send(s, b, i, conf) else Dismiss(s, b, i)
  {
    hide Build, ClaimFiles;
  }

  lemma ReadySends(s: State, i: Worker, b: Built, conf: Conflicts)
    requires s.sequentialTests == [] && i in s.workerProcs && i !in s.running && b.files != []
    requires b == Build(Built(s.testFiles, s.waitingTests, []), s.activeConflicts, conf, 32)
    ensures Goes(s, Ready(i), Send(s, b, i, conf), b.files, conf)
  {
    hide Build, ClaimFiles, Dispatch;
    DispatchBuilt(s, i, b, conf);
  }

  lemma ReadyDismisses(s: State, i: Worker, b: Built, conf: Conflicts)
    requires s.sequentialTests == [] && i in s.workerProcs && i !in s.running && b.files == []
    requires b == Build(Built(s.testFiles, s.waitingTests, []), s.activeConflicts, conf, 32)
    ensures Goes(s, Ready(i), Dismiss(s, b, i), [], conf)
  {
    hide Build, ClaimFiles, Dispatch;
    DispatchBuilt(s, i, b, conf);
  }

  lemma FinishedSends(s: State, i: Worker, f: State, b: Built, conf: Conflicts)
    requires i in s.workerProcs && i in s.running && f == Finish(s, i) && f.sequentialTests == [] && b.files != []
    requires b == Build(Built(f.testFiles, f.waitingTests, []), f.activeConflicts, conf, 32)
    ensures Goes(s, TestsFinished(i), Send(f, b, i, conf), b.files, conf)
  {
    hide Build, ClaimFiles, Dispatch, Finish;
    DispatchBuilt(f, i, b, conf);
  }

  lemma FinishedDismisses(s: State, i: Worker, f: State, b: Built, conf: Conflicts)
    requires i in s.workerProcs && i in s.running && f == Finish(s, i) && f.sequentialTests == [] && b.files == []
    requires f.running == s.running - {i}
    requires b == Build(Built(f.testFiles, f.waitingTests, []), f.activeConflicts, conf, 32)
    ensures Goes(s, TestsFinished(i), Dismiss(f, b, i), [], conf)
  {
    hide Build, ClaimFiles, Dispatch, Finish;
    DispatchBuilt(f, i, b, conf);
  }

  // ---------------------------------------------------------------- what single steps compute

  lemma {:induction false} NobodyBlocks(keys: seq<Key>)
    ensures Blocker(keys, []).None?
  {
    if keys != [] {
      NobodyBlocks(keys[1..]);
    }
  }

  /** The first owned key among some of which only `key` is owned. */
  lemma {:induction false} OnlyOneBlocks(keys: seq<Key>, key: Key, w: Worker)
    requires key in keys
    ensures Blocker(keys, [Claim(key, w)]) == Some(key)
  {
    if keys[0] != key {
      OnlyOneBlocks(keys[1..], key, w);
    }
  }

  lemma {:induction false} ClaimNothing(claims: seq<Claim>, files: seq<Test>, i: Worker, conf: Conflicts)
    requires NoKeys(files, conf)
    ensures ClaimFiles(claims, files, i, conf) == claims
  {
    if files != [] {
      ClaimNothing(claims, files[..|files| - 1], i, conf);
    }
  }

  /** A batch of which only the last test has keys. */
  lemma ClaimLast(claims: seq<Claim>, files: seq<Test>, c: Test, i: Worker, conf: Conflicts)
    requires NoKeys(files, conf)
    ensures ClaimFiles(claims, files + [c], i, conf) == ClaimKeys(claims, conf(c), i)
  {
    hide ClaimKeys;
    assert (files + [c])[..|files|] == files;
    ClaimNothing(claims, files, i, conf);
  }

  lemma ClaimOne(key: Key, i: Worker)
    ensures ClaimKeys([], [key], i) == [Claim(key, i)]
  {
    assert [key][..0] == [];
  }

  lemma ClaimAnother(key: Key, i: Worker, other: Key, j: Worker)
    requires key != other
    ensures ClaimKeys([Claim(key, i)], [other], j) == [Claim(key, i), Claim(other, j)]
  {
    assert [other][..0] == [];
    assert Assign([Claim(key, i)], other, j) == [Claim(key, i)] + Assign([], other, j);
  }

  lemma ClaimTwo(key: Key, other: Key, i: Worker)
    requires key != other
    ensures ClaimKeys([], [key, other], i) == [Claim(key, i), Claim(other, i)]
  {
    assert [key, other][..1] == [key];
    ClaimOne(key, i);
    ClaimAnother(key, i, other, i);
    assert ClaimKeys([Claim(key, i)], [other], i) == Assign([Claim(key, i)], other, i) by {
      assert [other][..0] == [];
    }
  }

  lemma ReverseTwo(t: Test, u: Test)
    ensures Reverse([t, u]) == [u, t]
  {
    assert [t, u][1..] == [u];
  }

  lemma ReverseOne(t: Test)
    ensures Reverse([t]) == [t]
  {
  }

  /** Two tests on the stack and no key owned: both are sent, the upper one first. */
  lemma BuildTwo(t: Test, u: Test, conf: Conflicts)
    ensures Build(Built([t, u], map[], []), [], conf, 32) == Built([], map[], [u, t])
  {
    hide Build;
    NobodyBlocks(conf(t));
    NobodyBlocks(conf(u));
    BuildTakes([t, u], map[], [], [], conf, 32);
    assert [t, u][..1] == [t] && [] + [u] == [u];
    BuildTakes([t], map[], [u], [], conf, 32);
    assert [t][..0] == [] && [u] + [t] == [u, t];
    BuildEnds([], map[], [u, t], [], conf, 32);
  }

  /** A full batch taken off the stack. */
  lemma BuildFull(rest: seq<Test>, top: seq<Test>, waiting: map<Key, seq<Test>>, claims: seq<Claim>, conf: Conflicts)
    requires |top| == 33 && forall t :: t in top ==> Blocker(conf(t), claims).None?
    ensures Build(Built(rest + Reverse(top), waiting, []), claims, conf, 32) == Built(rest, waiting, top)
  {
    hide Build, Reverse;
    var stack := rest + Reverse(top);
    assert stack[|stack| - 33..] == Reverse(top) && stack[..|stack| - 33] == rest;
    ReverseSameElements(top);
    assert forall t :: t in Reverse(top) ==> t in multiset(top);
    BatchTakesTop(stack, waiting, [], claims, conf, 32, 33);
    ReverseInvolutive(top);
  }

  // ---------------------------------------------------------------- runs that end with the later test first

  /** `u` is sent and `t` was not sent before it. */
  lemma NotPreceded(before: seq<Test>, t: Test, u: Test, after: seq<Test>)
    requires t !in before
    ensures !Precedes(before + ([u] + after), t, u)
  {
    var sent := before + ([u] + after);
    assert sent[|before|] == u && sent[..|before|] == before;
  }

  lemma Refutes(a: seq<Key>, b: seq<Key>, conf: Conflicts, tests: seq<Test>, p: nat, q: nat,
                workers: set<Worker>, s: State, ms: seq<Message>)
    requires ListedRun(a, b, conf, tests, p, q, workers, s, ms)
    requires !Precedes(SentIn(s, ms, conf, false), tests[p], tests[q])
    ensures !OrderKept(a, b)
  {
  }

  /** The same for a list in which no test conflicts with everything. */
  lemma Overtaken(a: seq<Key>, b: seq<Key>, conf: Conflicts, tests: seq<Test>, p: nat, q: nat, workers: set<Worker>,
                  ms: seq<Message>, before: seq<Test>, after: seq<Test>)
    requires Distinct(tests) && p < q < |tests| && conf(tests[p]) == a && conf(tests[q]) == b
    requires NoneIsAll(tests, conf) && workers != {}
    requires Possible(Start(Reverse(tests), [], workers), ms, conf, false)
    requires SentIn(Start(Reverse(tests), [], workers), ms, conf, false) == before + ([tests[q]] + after)
    requires tests[p] !in before
    ensures !OrderKept(a, b)
  {
    hide Reverse, SentIn, Possible, Initial, NoneIsAll, Distinct, Precedes;
    StartsThere(tests, conf, workers);
    NotPreceded(before, tests[p], tests[q], after);
    Refutes(a, b, conf, tests, p, q, workers, Start(Reverse(tests), [], workers), ms);
  }

  /** One batch of fillers and a test that claims some keys, then two tests. */
  ghost predicate OneBatchFirst(tests: seq<Test>, fillers: seq<Test>, c: Test, t: Test, u: Test) {
    tests == fillers + [c] + [t, u] && Distinct(tests) && |fillers| == 32
  }

  lemma OneBatchNames() returns (tests: seq<Test>, fillers: seq<Test>, c: Test, t: Test, u: Test)
    ensures OneBatchFirst(tests, fillers, c, t, u)
  {
    tests := Names(0, 35);
    fillers, c, t, u := tests[..32], tests[32], tests[33], tests[34];
  }

  /** The first batch leaves the two tests on the stack. */
  lemma FirstBatchGoes(tests: seq<Test>, fillers: seq<Test>, c: Test, t: Test, u: Test, conf: Conflicts,
                       workers: set<Worker>)
    returns (s: State, r: State)
    requires OneBatchFirst(tests, fillers, c, t, u) && NoKeys(fillers, conf) && 1 in workers
    ensures s == Start(Reverse(tests), [], workers)
    ensures r == s.(testFiles := [u, t], activeConflicts := ClaimKeys([], conf(c), 1), testsInProgress := 1,
                    running := map[1 := fillers + [c]])
    ensures Goes(s, Ready(1), r, fillers + [c], conf)
  {
    hide Reverse, Build, ClaimKeys;
    var top := fillers + [c];
    s := Start(Reverse(tests), [], workers);
    ReverseAppend(top, [t, u]);
    ReverseTwo(t, u);
    forall x | x in top
      ensures Blocker(conf(x), []).None?
    {
      NobodyBlocks(conf(x));
    }
    BuildFull([u, t], top, map[], [], conf);
    ReadySends(s, 1, Built([u, t], map[], top), conf);
    ClaimLast([], fillers, c, 1, conf);
    r := Send(s, Built([u, t], map[], top), 1, conf);
  }

  /** The later test has no key: it passes while the earlier one waits. */
  lemma PassesWithoutKeys(a: seq<Key>)
    requires a != [] && ALL !in a
    ensures !OrderKept(a, [])
  {
    var tests, fillers, c, t, u := OneBatchNames();
    var conf := Keys(c, [a[0]], c, [], t, a, u, []);
    ConfOfOneBatch(tests, fillers, c, [a[0]], t, a, u, []);
    var s, s1 := FirstBatchGoes(tests, fillers, c, t, u, conf, {1, 2});
    ClaimOne(a[0], 1);
    var claims := [Claim(a[0], 1)];
    var b2 := Built([], map[a[0] := [t]], [u]);
    assert Build(Built([u, t], map[], []), claims, conf, 32) == b2 by {
      PassBuilt(t, u, a[0], claims, conf);
    }
    ReadySends(s1, 2, b2, conf);
    var s2 := Send(s1, b2, 2, conf);
    NoMessages(s2, conf);
    Chain(s1, Ready(2), s2, [u], [], conf);
    Chain(s, Ready(1), s1, fillers + [c], [Ready(2)], conf);
    Overtaken(a, [], conf, tests, 33, 34, {1, 2}, [Ready(1)] + [Ready(2)], fillers + [c], []);
  }

  lemma ConfOfOneBatch(tests: seq<Test>, fillers: seq<Test>, c: Test, cs: seq<Key>, t: Test, a: seq<Key>,
                       u: Test, b: seq<Key>)
    requires OneBatchFirst(tests, fillers, c, t, u) && ALL !in cs && ALL !in a && ALL !in b
    ensures var conf := Keys(c, cs, c, [], t, a, u, b);
      && conf(c) == cs && conf(t) == a && conf(u) == b && NoKeys(fillers, conf) && NoneIsAll(tests, conf)
      && tests[33] == t && tests[34] == u && t !in fillers + [c] && u !in fillers + [c] && t != u
  {
    assert tests[32] == c && tests[33] == t && tests[34] == u;
    assert forall i :: 0 <= i < 32 ==> tests[i] == fillers[i];
  }

  lemma ParkFirst(waiting: map<Key, seq<Test>>, key: Key, t: Test)
    requires key !in waiting
    ensures Park(waiting, key, t) == waiting[key := [t]]
  {
    var nobody: seq<Test> := [];
    assert nobody + [t] == [t];
  }

  lemma PassBuilt(t: Test, u: Test, key: Key, claims: seq<Claim>, conf: Conflicts)
    requires claims == [Claim(key, 1)] && conf(t) != [] && conf(t)[0] == key && conf(u) == []
    ensures Build(Built([u, t], map[], []), claims, conf, 32) == Built([], map[key := [t]], [u])
  {
    hide Build;
    BuildParks([u, t], map[], [], claims, conf, 32, key);
    assert [u, t][..1] == [u];
    ParkFirst(map[], key, t);
    BuildTakes([u], map[key := [t]], [], claims, conf, 32);
    assert [u][..0] == [] && [] + [u] == [u];
    BuildEnds([], map[key := [t]], [u], claims, conf, 32);
  }

  /** Both first keys are taken by one worker, the earlier test's first: when they are given up in that order the later
      test comes to lie on top. */
  lemma OvertakesOnReturn(a: seq<Key>, b: seq<Key>)
    requires a != [] && b != [] && a[0] != b[0] && ALL !in a && ALL !in b
    ensures !OrderKept(a, b)
  {
    var tests, fillers, c, t, u := OneBatchNames();
    var conf := Keys(c, [a[0], b[0]], c, [], t, a, u, b);
    ConfOfOneBatch(tests, fillers, c, [a[0], b[0]], t, a, u, b);
    hide Reverse, SentIn, Possible, Keys, NoKeys, NoneIsAll, Distinct, OrderKept, Goes;
    var s, s1 := FirstBatchGoes(tests, fillers, c, t, u, conf, {1, 2});
    ClaimTwo(a[0], b[0], 1);
    var ms := ReturnRun(s1, t, u, a[0], b[0], conf);
    Chain(s, Ready(1), s1, fillers + [c], ms, conf);
    assert [u, t] == [u] + [t];
    Overtaken(a, b, conf, tests, 33, 34, {1, 2}, [Ready(1)] + ms, fillers + [c], [t]);
  }

  lemma ReturnRun(s: State, t: Test, u: Test, x: Key, y: Key, conf: Conflicts) returns (ms: seq<Message>)
    requires x != y && conf(t) != [] && conf(t)[0] == x && conf(u) != [] && conf(u)[0] == y
    requires s.testFiles == [u, t] && s.waitingTests == map[] && s.activeConflicts == [Claim(x, 1), Claim(y, 1)]
    requires s.sequentialTests == [] && s.workerProcs == {1, 2} && s.running.Keys == {1}
    ensures Possible(s, ms, conf, false) && SentIn(s, ms, conf, false) == [u, t]
  {
    hide Build, Finish, SentIn, Possible, ClaimFiles;
    BothParked(t, u, x, y, conf);
    var b2 := Built([], map[x := [t], y := [u]], []);
    ReadyDismisses(s, 2, b2, conf);
    var s2 := Dismiss(s, b2, 2);
    var f := BothReturn(s2, t, u, x, y);
    BuildTwo(t, u, conf);
    var b3 := Built([], map[], [u, t]);
    FinishedSends(s2, 1, f, b3, conf);
    var s3 := Send(f, b3, 1, conf);
    NoMessages(s3, conf);
    hide Goes;
    Chain(s2, TestsFinished(1), s3, [u, t], [], conf);
    ms := [Ready(2)] + ([TestsFinished(1)] + []);
    Chain(s, Ready(2), s2, [], [TestsFinished(1)] + [], conf);
  }

  lemma BothParked(t: Test, u: Test, x: Key, y: Key, conf: Conflicts)
    requires x != y && conf(t) != [] && conf(t)[0] == x && conf(u) != [] && conf(u)[0] == y
    ensures Build(Built([u, t], map[], []), [Claim(x, 1), Claim(y, 1)], conf, 32)
      == Built([], map[x := [t], y := [u]], [])
  {
    var claims := [Claim(x, 1), Claim(y, 1)];
    var one, both := map[x := [t]], map[x := [t], y := [u]];
    assert Blocker(conf(t), claims) == Some(x) && Blocker(conf(u), claims) == Some(y);
    TwoStacked(t, u);
    ParkFirst(map[], x, t);
    ParkFirst(one, y, u);
    assert map[][x := [t]] == one && one[y := [u]] == both;
    hide Build, Blocker, Park;
    BuildParks([u, t], map[], [], claims, conf, 32, x);
    BuildParks([u], one, [], claims, conf, 32, y);
    BuildEnds([], both, [], claims, conf, 32);
  }

  lemma TwoStacked(t: Test, u: Test)
    ensures [u, t][..1] == [u] && [u][..0] == []
  {
  }

  /** Giving up `x` and then `y` puts `u` on top of `t`. */
  lemma BothReturn(s: State, t: Test, u: Test, x: Key, y: Key) returns (f: State)
    requires x != y && s.activeConflicts == [Claim(x, 1), Claim(y, 1)] && 1 in s.running && s.testFiles == []
    requires s.waitingTests == map[x := [t], y := [u]]
    ensures f == Finish(s, 1) && f.testFiles == [t, u] && f.waitingTests == map[] && f.activeConflicts == []
    ensures f.workerProcs == s.workerProcs && f.sequentialTests == s.sequentialTests && f.running == s.running - {1}
  {
    hide Loose, ReleaseUpTo;
    var s0 := s.(testsInProgress := s.testsInProgress - 1, running := s.running - {1},
                 finished := s.finished + s.running[1]);
    f := Finish(s, 1);
    assert f == ReleaseUpTo(s0, 1, 2);
    BothGivenUp(s0, t, u, x, y);
    ReleaseLoose(s0, 1, 2);
  }

  lemma BothGivenUp(s: State, t: Test, u: Test, x: Key, y: Key)
    requires x != y && s.activeConflicts == [Claim(x, 1), Claim(y, 1)] && s.testFiles == []
    requires s.waitingTests == map[x := [t], y := [u]]
    ensures var r := ReleaseUpTo(s, 1, 2); r.testFiles == [t, u] && r.waitingTests == map[] && r.activeConflicts == []
  {
    hide ReleaseUpTo;
    ReleaseNone(s, 1);
    ReleaseStep(s, 1, 1, x, t);
    assert ReleaseUpTo(s, 1, 1).waitingTests == map[y := [u]];
    ReleaseStep(s, 1, 2, y, u);
    assert [t] + [u] == [t, u];
  }

  lemma ReleaseNone(s: State, i: Worker)
    ensures ReleaseUpTo(s, i, 0) == s.(activeConflicts := [])
  {
  }

  /** Giving up a key that one test waits for. */
  lemma ReleaseStep(s: State, i: Worker, n: nat, key: Key, t: Test)
    requires 0 < n <= |s.activeConflicts| && s.activeConflicts[n - 1] == Claim(key, i)
    requires var r := ReleaseUpTo(s, i, n - 1); key in r.waitingTests && r.waitingTests[key] == [t]
    ensures var r := ReleaseUpTo(s, i, n - 1); var q := ReleaseUpTo(s, i, n);
      && q.testFiles == r.testFiles + [t] && q.waitingTests == r.waitingTests - {key}
      && q.activeConflicts == r.activeConflicts && (r.testFiles == [] ==> q.testFiles == [t])
  {
    ReverseOne(t);
    hide Reverse;
  }

  // ---------------------------------------------------------------- the same first key, and another one

  /** Two batches, with the earlier test between them and the later one at the end. */
  ghost predicate TwoBatchesFirst(tests: seq<Test>, one: seq<Test>, c: Test, t: Test, two: seq<Test>, d: Test, u: Test) {
    && tests == one + [c] + ([t] + (two + [d] + [u])) && Distinct(tests) && |one| == 32 && |two| == 32
  }

  lemma TwoBatchNames() returns (tests: seq<Test>, one: seq<Test>, c: Test, t: Test, two: seq<Test>, d: Test, u: Test)
    ensures TwoBatchesFirst(tests, one, c, t, two, d, u)
  {
    hide Names;
    tests := Names(0, 68);
    one, c, t, two, d, u := tests[..32], tests[32], tests[33], tests[34..66], tests[66], tests[67];
    SplitTests(tests);
    assert Distinct(tests) by {
      assert forall i :: 0 <= i < 68 ==> |tests[i]| == i + 1;
    }
  }

  lemma SplitTests(tests: seq<Test>)
    requires |tests| == 68
    ensures tests == tests[..32] + [tests[32]] + ([tests[33]] + (tests[34..66] + [tests[66]] + [tests[67]]))
  {
    var rest := tests[34..66] + [tests[66]] + [tests[67]];
    assert rest == tests[34..];
    assert [tests[33]] + rest == tests[33..];
    assert tests[..32] + [tests[32]] == tests[..33];
    assert tests[..33] + tests[33..] == tests;
  }

  lemma ConfOfTwoBatches(tests: seq<Test>, one: seq<Test>, c: Test, cs: seq<Key>, t: Test, a: seq<Key>,
                         two: seq<Test>, d: Test, ds: seq<Key>, u: Test, b: seq<Key>)
    requires TwoBatchesFirst(tests, one, c, t, two, d, u)
    requires ALL !in cs && ALL !in ds && ALL !in a && ALL !in b
    ensures var conf := Keys(c, cs, d, ds, t, a, u, b);
      && conf(c) == cs && conf(d) == ds && conf(t) == a && conf(u) == b
      && NoKeys(one, conf) && NoKeys(two, conf) && NoneIsAll(tests, conf)
    ensures tests[33] == t && tests[67] == u && t !in one + [c] && t !in two + [d] && t != u
  {
    assert tests[32] == c && tests[33] == t && tests[66] == d && tests[67] == u;
    assert forall i :: 0 <= i < 32 ==> tests[i] == one[i];
    assert forall i :: 0 <= i < 32 ==> tests[34 + i] == two[i];
  }

  /** Somebody owns `key` alone and gives it up. */
  lemma FirstReturns(s: State, i: Worker, key: Key, rest: seq<Claim>, files: seq<Test>) returns (f: State)
    requires s.activeConflicts == [Claim(key, i)] + rest && |rest| <= 1 && i in s.running && s.testFiles == []
    requires (forall c :: c in rest ==> c.worker != i) && key in s.waitingTests && s.waitingTests[key] == files
    ensures f == Finish(s, i) && f.testFiles == Reverse(files) && f.waitingTests == s.waitingTests - {key}
    ensures f.activeConflicts == rest
    ensures f.workerProcs == s.workerProcs && f.sequentialTests == s.sequentialTests && f.running == s.running - {i}
  {
    f := Finish(s, i);
    var s0 := s.(testsInProgress := s.testsInProgress - 1, running := s.running - {i},
                 finished := s.finished + s.running[i]);
    ReleaseLoose(s0, i, |s.activeConflicts|);
    hide Reverse;
    var r1 := ReleaseUpTo(s0, i, 1);
    assert r1.testFiles == [] + Reverse(files) && r1.waitingTests == s.waitingTests - {key} && r1.activeConflicts == [] by {
      assert ReleaseUpTo(s0, i, 0) == s0.(activeConflicts := []);
    }
  }

  /** The earlier test waits for the other key while the later one comes to wait for the common first key; then the
      earlier one has to line up behind it. */
  lemma CrossRun(s: State, t: Test, u: Test, two: seq<Test>, d: Test, first: Key, other: Key, conf: Conflicts)
    returns (ms: seq<Message>)
    requires first != other && conf(t) != [] && conf(t)[0] == first && other in conf(t)
    requires conf(u) != [] && conf(u)[0] == first && conf(d) == [first] && NoKeys(two, conf) && |two| == 32
    requires s.testFiles == [u] + Reverse(two + [d]) + [t] && s.waitingTests == map[]
    requires s.activeConflicts == [Claim(other, 1)] && s.sequentialTests == []
    requires s.workerProcs == {1, 2, 3} && s.running.Keys == {1}
    ensures Possible(s, ms, conf, false) && SentIn(s, ms, conf, false) == two + [d] + [u, t]
  {
    hide Build, Finish, SentIn, Possible, ClaimFiles, Reverse, ClaimKeys, NoKeys;
    var b2 := Built([u], map[other := [t]], two + [d]);
    ParkThenFull(t, u, two, d, first, other, conf);
    ReadySends(s, 2, b2, conf);
    var s2 := Send(s, b2, 2, conf);
    ClaimLast(s.activeConflicts, two, d, 2, conf);
    ClaimAnother(other, 1, first, 2);
    var b3 := Built([], map[other := [t], first := [u]], []);
    ParkOnFirst(u, [Claim(other, 1), Claim(first, 2)], map[other := [t]], first, conf);
    assert map[other := [t]][first := [u]] == map[other := [t], first := [u]];
    ReadyDismisses(s2, 3, b3, conf);
    var s3 := Dismiss(s2, b3, 3);
    var rest := CrossReturns(s3, t, u, first, other, conf);
    hide Goes;
    Chain(s2, Ready(3), s3, [], rest, conf);
    Chain(s, Ready(2), s2, two + [d], [Ready(3)] + rest, conf);
    ms := [Ready(2)] + ([Ready(3)] + rest);
    var none: seq<Test> := [];
    assert none + [u, t] == [u, t];
  }

  lemma CrossReturns(s: State, t: Test, u: Test, first: Key, other: Key, conf: Conflicts) returns (ms: seq<Message>)
    requires first != other && conf(t) != [] && conf(t)[0] == first
    requires s.testFiles == [] && s.waitingTests == map[other := [t], first := [u]]
    requires s.activeConflicts == [Claim(other, 1), Claim(first, 2)] && s.sequentialTests == []
    requires s.workerProcs == {1, 2} && s.running.Keys == {1, 2}
    ensures Possible(s, ms, conf, false) && SentIn(s, ms, conf, false) == [u, t]
  {
    hide Build, Finish, SentIn, Possible, ClaimFiles, Reverse;
    assert s.activeConflicts == [Claim(other, 1)] + [Claim(first, 2)];
    var f := FirstReturns(s, 1, other, [Claim(first, 2)], [t]);
    ReverseOne(t);
    assert f.waitingTests == map[first := [u]];
    var b4 := Built([], map[first := [u, t]], []);
    ParkBehind(t, u, [Claim(first, 2)], first, conf);
    FinishedDismisses(s, 1, f, b4, conf);
    var s4 := Dismiss(f, b4, 1);
    assert s4.activeConflicts == [Claim(first, 2)] + [];
    var g := FirstReturns(s4, 2, first, [], [u, t]);
    ReverseTwo(u, t);
    assert g.waitingTests == map[];
    BuildTwo(t, u, conf);
    var b5 := Built([], map[], [u, t]);
    FinishedSends(s4, 2, g, b5, conf);
    var s5 := Send(g, b5, 2, conf);
    NoMessages(s5, conf);
    hide Goes;
    Chain(s4, TestsFinished(2), s5, [u, t], [], conf);
    ms := [TestsFinished(1)] + ([TestsFinished(2)] + []);
    Chain(s, TestsFinished(1), s4, [], [TestsFinished(2)] + [], conf);
  }

  lemma ParkThenFull(t: Test, u: Test, two: seq<Test>, d: Test, first: Key, other: Key, conf: Conflicts)
    requires first != other && other in conf(t) && conf(d) == [first] && NoKeys(two, conf) && |two| == 32
    ensures Build(Built([u] + Reverse(two + [d]) + [t], map[], []), [Claim(other, 1)], conf, 32)
      == Built([u], map[other := [t]], two + [d])
  {
    var claims := [Claim(other, 1)];
    var stack := [u] + Reverse(two + [d]) + [t];
    OnlyOneBlocks(conf(t), other, 1);
    assert Blocker(conf(d), claims).None?;
    hide Build, Reverse, Blocker;
    BuildParks(stack, map[], [], claims, conf, 32, other);
    ParkFirst(map[], other, t);
    assert stack[..|stack| - 1] == [u] + Reverse(two + [d]);
    forall x | x in two + [d]
      ensures Blocker(conf(x), claims).None?
    {
      NoKeysNoBlocker(claims);
    }
    BuildFull([u], two + [d], map[other := [t]], claims, conf);
  }

  lemma NoKeysNoBlocker(claims: seq<Claim>)
    ensures Blocker([], claims).None?
  {
  }

  lemma ParkOnFirst(u: Test, claims: seq<Claim>, waiting: map<Key, seq<Test>>, first: Key, conf: Conflicts)
    requires conf(u) != [] && conf(u)[0] == first && OwnerOf(claims, first).Some? && first !in waiting
    ensures Build(Built([u], waiting, []), claims, conf, 32) == Built([], waiting[first := [u]], [])
  {
    hide Build;
    BuildParks([u], waiting, [], claims, conf, 32, first);
    assert [u][..0] == [];
    ParkFirst(waiting, first, u);
    BuildEnds([], waiting[first := [u]], [], claims, conf, 32);
  }

  lemma ParkBehind(t: Test, u: Test, claims: seq<Claim>, first: Key, conf: Conflicts)
    requires conf(t) != [] && conf(t)[0] == first && OwnerOf(claims, first).Some?
    ensures Build(Built([t], map[first := [u]], []), claims, conf, 32) == Built([], map[first := [u, t]], [])
  {
    hide Build;
    BuildParks([t], map[first := [u]], [], claims, conf, 32, first);
    assert [t][..0] == [] && [u] + [t] == [u, t];
    assert map[first := [u]][first := [u, t]] == map[first := [u, t]];
    BuildEnds([], map[first := [u, t]], [], claims, conf, 32);
  }

  /** The stack of such a list. */
  lemma ReverseOfTwoBatches(top: seq<Test>, t: Test, next: seq<Test>, u: Test)
    ensures Reverse(top + ([t] + (next + [u]))) == [u] + Reverse(next) + [t] + Reverse(top)
  {
    ReverseAppend(top, [t] + (next + [u]));
    ReverseAppend([t], next + [u]);
    ReverseAppend(next, [u]);
    ReverseOne(t);
    ReverseOne(u);
  }

  lemma OvertakesCrosswise(a: seq<Key>, b: seq<Key>, other: Key)
    requires a != [] && b != [] && a[0] == b[0] && other in a && other != a[0] && ALL !in a && ALL !in b
    ensures !OrderKept(a, b)
  {
    var tests, one, c, t, two, d, u := TwoBatchNames();
    var conf := Keys(c, [other], d, [a[0]], t, a, u, b);
    ConfOfTwoBatches(tests, one, c, [other], t, a, two, d, [a[0]], u, b);
    hide Reverse, SentIn, Possible, Keys, NoKeys, NoneIsAll, Distinct, OrderKept, Goes;
    var s := Start(Reverse(tests), [], {1, 2, 3});
    var s1 := FirstOfTwo(s, tests, one, c, t, two + [d], u, other, conf);
    var ms := CrossRun(s1, t, u, two, d, a[0], other, conf);
    Chain(s, Ready(1), s1, one + [c], ms, conf);
    assert one + [c] + (two + [d] + [u, t]) == one + [c] + (two + [d]) + ([u] + [t]);
    Overtaken(a, b, conf, tests, 33, 67, {1, 2, 3}, [Ready(1)] + ms, one + [c] + (two + [d]), [t]);
  }

  lemma FirstOfTwo(s: State, tests: seq<Test>, one: seq<Test>, c: Test, t: Test, next: seq<Test>, u: Test, other: Key,
                   conf: Conflicts)
    returns (r: State)
    requires tests == one + [c] + ([t] + (next + [u])) && |one| == 32 && NoKeys(one, conf) && conf(c) == [other]
    requires s == Start(Reverse(tests), [], {1, 2, 3})
    ensures r == s.(testFiles := [u] + Reverse(next) + [t], activeConflicts := [Claim(other, 1)], testsInProgress := 1,
                    running := map[1 := one + [c]])
    ensures Goes(s, Ready(1), r, one + [c], conf)
  {
    hide Reverse, Build, ClaimKeys;
    var top := one + [c];
    ReverseOfTwoBatches(top, t, next, u);
    forall x | x in top
      ensures Blocker(conf(x), []).None?
    {
      NobodyBlocks(conf(x));
    }
    var rest := [u] + Reverse(next) + [t];
    BuildFull(rest, top, map[], [], conf);
    ReadySends(s, 1, Built(rest, map[], top), conf);
    ClaimLast([], one, c, 1, conf);
    ClaimOne(other, 1);
    r := Send(s, Built(rest, map[], top), 1, conf);
  }

  // ---------------------------------------------------------------- tests that conflict with everything

  lemma TwoNames() returns (t: Test, u: Test)
    ensures t != u
  {
    t, u := Name(0), Name(1);
  }

  lemma TwoTestsApart(t: Test, u: Test, conf: Conflicts)
    ensures Ordinary([t, u], conf)
      == (if IsAll(conf, t) then [] else [t]) + (if IsAll(conf, u) then [] else [u])
    ensures Sequential([t, u], conf)
      == (if IsAll(conf, t) then [t] else []) + (if IsAll(conf, u) then [u] else [])
  {
    hide IsAll;
    assert [t, u] == [t] + [u];
    FilterSnoc([t], u, (x: Test) => !IsAll(conf, x));
    FilterSnoc([t], u, (x: Test) => IsAll(conf, x));
    assert [t][1..] == [];
  }

  /** Such a test has to wait until one worker is left. */
  lemma AllIsLate(a: seq<Key>, b: seq<Key>)
    requires ALL in a && ALL !in b
    ensures !OrderKept(a, b)
  {
    var t, u := TwoNames();
    var conf := Keys(t, a, t, a, t, a, u, b);
    var tests := [t, u];
    var s := Start([u], [t], {1, 2});
    TwoTestsApart(t, u, conf);
    ReverseOne(u);
    assert Initial(s, tests, {1, 2}, conf, false);
    var b1 := Built([], map[], [u]);
    assert Build(Built([u], map[], []), [], conf, 32) == b1 by {
      NobodyBlocks(conf(u));
      BuildTakes([u], map[], [], [], conf, 32);
      assert [u][..0] == [] && [] + [u] == [u];
      BuildEnds([], map[], [u], [], conf, 32);
    }
    var r := Send(s, b1, 1, conf);
    assert Goes(s, Ready(1), r, [u], conf) by {
      hide Build, ClaimFiles;
      assert |{1, 2}| == 2;
    }
    NoMessages(r, conf);
    Chain(s, Ready(1), r, [u], [], conf);
    NotPreceded([], t, u, []);
    assert SentIn(s, [Ready(1)] + [], conf, false) == [] + ([u] + []);
    Refutes(a, b, conf, tests, 0, 1, {1, 2}, s, [Ready(1)] + []);
  }

  /** One worker, and nothing but `t` and `u` to be run. */
  lemma OnlyWorkerSends(s: State, t: Test, u: Test, conf: Conflicts) returns (r: State)
    requires s.workerProcs == {1} && s.running == map[] && s.waitingTests == map[] && s.activeConflicts == []
    requires s.testFiles + s.sequentialTests == [t, u] && s.sequentialTests != []
    ensures Goes(s, Ready(1), r, [u, t], conf)
  {
    var m := s.(testFiles := [t, u], sequentialTests := []);
    assert MergeSequential(s) == m by {
      assert |{1}| == 1;
    }
    BuildTwo(t, u, conf);
    r := Send(m, Built([], map[], [u, t]), 1, conf);
    hide Build, ClaimFiles, MergeSequential;
  }

  lemma OnlyWorkerStarts(t: Test, u: Test, conf: Conflicts) returns (s: State)
    requires IsAll(conf, u)
    ensures Initial(s, [t, u], {1}, conf, false)
    ensures s.workerProcs == {1} && s.running == map[] && s.waitingTests == map[] && s.activeConflicts == []
    ensures s.testFiles + s.sequentialTests == [t, u] && s.sequentialTests != []
  {
    TwoTestsApart(t, u, conf);
    ReverseOne(t);
    hide IsAll, Ordinary, Sequential;
    var none: seq<Test> := [];
    assert none + [u] == [u] && none + [t, u] == [t, u] && [t] + none == [t] && [t] + [u] == [t, u];
    if IsAll(conf, t) {
      s := Start([], [t, u], {1});
    } else {
      s := Start([t], [u], {1});
    }
  }

  /** With one worker such tests are put on top of the stack, and are popped first and in reverse. */
  lemma AllIsEarly(a: seq<Key>, b: seq<Key>)
    requires ALL in b
    ensures !OrderKept(a, b)
  {
    var t, u := TwoNames();
    var conf := Keys(t, a, t, a, t, a, u, b);
    assert conf(t) == a && conf(u) == b;
    hide Keys, Initial, Goes, SentIn, Possible, Precedes;
    var s := OnlyWorkerStarts(t, u, conf);
    var r := OnlyWorkerSends(s, t, u, conf);
    NoMessages(r, conf);
    Chain(s, Ready(1), r, [u, t], [], conf);
    NotPreceded([], t, u, [t]);
    assert SentIn(s, [Ready(1)] + [], conf, false) == [] + ([u] + [t]);
    Refutes(a, b, conf, [t, u], 0, 1, {1}, s, [Ready(1)] + []);
  }

  // ---------------------------------------------------------------- the exact condition

  /** Whenever the condition fails some run sends the later test first. */
  lemma SharedKeyOvertaken(a: seq<Key>, b: seq<Key>)
    requires !FirstKeyCovers(a, b)
    ensures !OrderKept(a, b)
  {
    hide OrderKept;
    if ALL in b {
      AllIsEarly(a, b);
    } else if ALL in a {
      AllIsLate(a, b);
    } else if b == [] {
      PassesWithoutKeys(a);
    } else if a[0] != b[0] {
      OvertakesOnReturn(a, b);
    } else {
      var other :| other in a && other != b[0];
      OvertakesCrosswise(a, b, other);
    }
  }

  /** An earlier test is sent before a later one on every run of every unshuffled list exactly when neither conflicts
      with everything and the earlier one has no key but the first one of the later test. */
  lemma OrderKeptExactly(a: seq<Key>, b: seq<Key>)
    ensures OrderKept(a, b) <==> "all" !in a && "all" !in b && forall k :: k in a ==> b != [] && b[0] == k
  {
    hide OrderKept;
    if FirstKeyCovers(a, b) {
      CoveredOrderKept(a, b);
    } else {
      SharedKeyOvertaken(a, b);
    }
  }

  /** For two tests that share a key: the earlier one has only that key, and the later one lists it first. */
  lemma SharedKeyOrder(a: seq<Key>, b: seq<Key>, key: Key)
    requires key in a && key in b
    ensures OrderKept(a, b) <==> "all" !in a && "all" !in b && b[0] == key && forall k :: k in a ==> k == key
  {
    hide OrderKept;
    OrderKeptExactly(a, b);
  }
}
