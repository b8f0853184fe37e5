/** Which pairs of conflict lists keep their order: what an earlier and a later test must list so that the
    earlier one is sent first on every run. */
module SchedulerPairs {
  import opened Collections
  import opened Scheduler
  import opened SchedulerSafety
  import opened SchedulerRuns
  import opened SchedulerOrder

  // ---------------------------------------------------------------- what is sent on a run, in order

  /** What the answer to a message sends to its worker. */
  ghost function Batch(s: State, m: Message, conf: Conflicts, shuffle: bool): seq<Test>
    requires Enabled(s, m)
  {
    var r := Handle(s, m, conf, shuffle);
    if m.worker in r.running then r.running[m.worker] else []
  }

  ghost function SentIn(s: State, ms: seq<Message>, conf: Conflicts, shuffle: bool): seq<Test>
    requires Possible(s, ms, conf, shuffle)
    decreases |ms|
  {
    if ms == [] then []
    else Batch(s, ms[0], conf, shuffle) + SentIn(Handle(s, ms[0], conf, shuffle), ms[1..], conf, shuffle)
  }

  predicate Distinct(tests: seq<Test>) {
    forall i, j :: 0 <= i < j < |tests| ==> tests[i] != tests[j]
  }

  /** Wherever `u` is sent, `t` was sent before. */
  ghost predicate Precedes(sent: seq<Test>, t: Test, u: Test) {
    forall j :: 0 <= j < |sent| && sent[j] == u ==> t in sent[..j]
  }

  /** A run on an unshuffled list in which a test with the conflict keys `a` comes before one with the keys `b`. */
  ghost predicate ListedRun(a: seq<Key>, b: seq<Key>, conf: Conflicts, tests: seq<Test>, p: nat, q: nat,
                            workers: set<Worker>, s: State, ms: seq<Message>) {
    && Distinct(tests) && p < q < |tests| && conf(tests[p]) == a && conf(tests[q]) == b
    && Initial(s, tests, workers, conf, false) && Possible(s, ms, conf, false)
  }

  /** Whatever the list, the number of workers and the order of their messages, the earlier test is sent first. */
  ghost predicate OrderKept(a: seq<Key>, b: seq<Key>) {
    forall conf, tests, p: nat, q: nat, workers, s, ms :: ListedRun(a, b, conf, tests, p, q, workers, s, ms) ==>
      Precedes(SentIn(s, ms, conf, false), tests[p], tests[q])
  }

  /** Neither conflicts with everything, and the earlier test has no key but the first one of the later test. */
  predicate FirstKeyCovers(a: seq<Key>, b: seq<Key>) {
    ALL !in a && ALL !in b && forall k :: k in a ==> b != [] && b[0] == k
  }

  lemma PrecedesFirst(x: seq<Test>, y: seq<Test>, t: Test, u: Test)
    requires t in x && Precedes(x, t, u)
    ensures Precedes(x + y, t, u)
  {
    forall j | 0 <= j < |x + y| && (x + y)[j] == u
      ensures t in (x + y)[..j]
    {
      if j < |x| {
        assert (x + y)[..j] == x[..j];
      } else {
        assert (x + y)[..j] == x + y[..j - |x|];
      }
    }
  }

  lemma PrecedesLater(x: seq<Test>, y: seq<Test>, t: Test, u: Test)
    requires u !in x && Precedes(y, t, u)
    ensures Precedes(x + y, t, u)
  {
    forall j | 0 <= j < |x + y| && (x + y)[j] == u
      ensures t in (x + y)[..j]
    {
      assert j >= |x|;
      assert (x + y)[..j] == x + y[..j - |x|];
    }
  }

  // ---------------------------------------------------------------- while neither is sent, one stands behind the other

  function Pair(t: Test, u: Test): Test -> bool {
    (x: Test) => x == t || x == u
  }

  /** `t` and `u` are still to be sent: `t` comes first, and neither waits for another key. */
  ghost predicate Ahead(stack: seq<Test>, waiting: map<Key, seq<Test>>, key: Key, t: Test, u: Test) {
    QueueOf(stack, waiting, key, Pair(t, u)) == [t, u] && WaitOnlyFor(waiting, key, Pair(t, u))
  }

  /** The same condition, with the key made explicit. */
  predicate Covered(conf: Conflicts, t: Test, u: Test, key: Key) {
    && ALL !in conf(t) && ALL !in conf(u) && t != u
    && (forall k :: k in conf(t) ==> k == key && conf(u) != [] && conf(u)[0] == key)
  }

  lemma BehindWho(waiting: seq<Test>, rest: seq<Test>, t: Test, u: Test)
    requires t != u && waiting + ([u] + rest) == [t, u]
    ensures waiting == [t]
  {
    var all := waiting + ([u] + rest);
    assert all[0] == t && all[|waiting|] == u;
  }

  /** Popped before `t`, `u` is parked behind it: its first key is the key `t` waits for. */
  lemma LaterIsParked(b: Built, claims: seq<Claim>, conf: Conflicts, key: Key, t: Test, u: Test)
    requires b.testFiles != [] && b.testFiles[|b.testFiles| - 1] == u && Covered(conf, t, u, key)
    requires WaitingSound(b.waitingTests, claims, conf) && Ahead(b.testFiles, b.waitingTests, key, t, u)
    ensures Blocker(conf(u), claims) == Some(key)
  {
    var waiting := Filter(WaitingFor(b.waitingTests, key), Pair(t, u));
    FilterPop(b.testFiles, Pair(t, u));
    hide Filter, Reverse;
    BehindWho(waiting, Filter(Reverse(b.testFiles[..|b.testFiles| - 1]), Pair(t, u)), t, u);
    assert t in waiting;
    assert t in b.waitingTests[key] && key in conf(t);
  }

  /** One iteration of the loop that builds a batch takes `t`, or leaves `u` behind `t`. */
  lemma BuildStepPair(b: Built, claims: seq<Claim>, conf: Conflicts, key: Key, t: Test, u: Test)
    requires b.testFiles != [] && Covered(conf, t, u, key)
    requires WaitingSound(b.waitingTests, claims, conf) && Ahead(b.testFiles, b.waitingTests, key, t, u)
    ensures var r := BuildStep(b, claims, conf); var file := b.testFiles[|b.testFiles| - 1];
      || r.files == b.files + [t]
      || (Ahead(r.testFiles, r.waitingTests, key, t, u)
          && (r.files == b.files || (r.files == b.files + [file] && file != t && file != u)))
  {
    var p, n := Pair(t, u), |b.testFiles| - 1;
    var file := b.testFiles[n];
    if file == u {
      LaterIsParked(b, claims, conf, key, t, u);
    }
    hide QueueOf, WaitingSound;
    match Blocker(conf(file), claims) {
      case Some(k) =>
        ParkPair(b, k, conf, key, t, u);
      case None =>
        if file != t {
          TakeOther(b.testFiles, b.waitingTests, key, p);
        }
    }
  }

  lemma ParkPair(b: Built, k: Key, conf: Conflicts, key: Key, t: Test, u: Test)
    requires b.testFiles != [] && Ahead(b.testFiles, b.waitingTests, key, t, u)
    requires Pair(t, u)(b.testFiles[|b.testFiles| - 1]) ==> k == key
    ensures var n := |b.testFiles| - 1;
      Ahead(b.testFiles[..n], Park(b.waitingTests, k, b.testFiles[n]), key, t, u)
  {
    hide QueueOf;
    ParkKeepsQueue(b.testFiles, b.waitingTests, k, key, Pair(t, u));
  }

  lemma TakeOther(stack: seq<Test>, waiting: map<Key, seq<Test>>, key: Key, p: Test -> bool)
    requires stack != [] && !p(stack[|stack| - 1])
    ensures QueueOf(stack[..|stack| - 1], waiting, key, p) == QueueOf(stack, waiting, key, p)
  {
    hide Filter, Reverse;
    PopQueue(stack, waiting, key, p);
  }

  /** A batch holds `t` before any `u`, or neither. */
  lemma {:induction false} BuildPair(b: Built, claims: seq<Claim>, conf: Conflicts, size: nat, key: Key, t: Test, u: Test)
    requires Covered(conf, t, u, key) && t !in b.files && u !in b.files && |b.files| <= size + 1
    requires WaitingSound(b.waitingTests, claims, conf) && Ahead(b.testFiles, b.waitingTests, key, t, u)
    ensures var r := Build(b, claims, conf, size);
      || (t in r.files && Precedes(r.files, t, u))
      || (t !in r.files && u !in r.files && Ahead(r.testFiles, r.waitingTests, key, t, u))
    decreases |b.testFiles|
  {
    hide Ahead, Covered;
    if |b.files| <= size && b.testFiles != [] {
      var c := BuildStep(b, claims, conf);
      BuildStepPair(b, claims, conf, key, t, u);
      assert WaitingSound(c.waitingTests, claims, conf);
      if c.files == b.files + [t] {
        CoveredDiffer(conf, t, u, key);
        BatchBounded(c, claims, conf, size);
        TakenFirst(b.files, Build(c, claims, conf, size).files, t, u);
      } else {
        BuildPair(c, claims, conf, size, key, t, u);
      }
    }
  }

  lemma CoveredDiffer(conf: Conflicts, t: Test, u: Test, key: Key)
    requires Covered(conf, t, u, key)
    ensures t != u
  {
  }

  lemma TakenFirst(before: seq<Test>, files: seq<Test>, t: Test, u: Test)
    requires t != u && u !in before && before + [t] <= files
    ensures t in files && Precedes(files, t, u)
  {
    assert files[|before|] == t;
    assert forall k :: 0 <= k < |before| ==> files[k] == before[k];
    forall j | |before| < j < |files| && files[j] == u
      ensures t in files[..j]
    {
      assert files[..j][|before|] == t;
    }
  }

  lemma FinishPair(s: State, i: Worker, conf: Conflicts, key: Key, t: Test, u: Test)
    requires i in s.running && Ahead(s.testFiles, s.waitingTests, key, t, u)
    ensures Ahead(Finish(s, i).testFiles, Finish(s, i).waitingTests, key, t, u)
  {
    hide QueueOf, Finish;
    FinishKeepsQueue(s, i, key, Pair(t, u));
    FinishWaiting(s, i);
    var waiting := Finish(s, i).waitingTests;
    forall k, x | k in waiting && k != key && x in waiting[k]
      ensures !Pair(t, u)(x)
    {
      assert x in s.waitingTests[k];
    }
  }

  lemma FinishWaiting(s: State, i: Worker)
    requires i in s.running
    ensures forall k :: k in Finish(s, i).waitingTests ==>
      k in s.waitingTests && Finish(s, i).waitingTests[k] == s.waitingTests[k]
  {
    ReleaseWaiting(s.(testsInProgress := s.testsInProgress - 1, running := s.running - {i},
                      finished := s.finished + s.running[i]), i, |s.activeConflicts|);
  }

  lemma MergePair(s: State, conf: Conflicts, key: Key, t: Test, u: Test)
    requires Covered(conf, t, u, key) && (forall x :: x in s.sequentialTests ==> IsAll(conf, x))
    requires Ahead(s.testFiles, s.waitingTests, key, t, u)
    ensures Ahead(MergeSequential(s).testFiles, MergeSequential(s).waitingTests, key, t, u)
  {
    hide Filter, Reverse;
    NoneOnTop(s.testFiles, s.sequentialTests, Pair(t, u));
  }

  lemma DispatchPair(s: State, i: Worker, conf: Conflicts, shuffle: bool, key: Key, t: Test, u: Test)
    requires Inv(s, conf) && i in s.workerProcs && i !in s.running && Covered(conf, t, u, key)
    requires Ahead(s.testFiles, s.waitingTests, key, t, u)
    ensures var r := Dispatch(s, i, conf, shuffle); var batch := if i in r.running then r.running[i] else [];
      || (t in batch && Precedes(batch, t, u))
      || (t !in batch && u !in batch && Ahead(r.testFiles, r.waitingTests, key, t, u))
  {
    hide Dispatch, Build, Ahead, Covered, ClaimsExact, WaitingSound, Collected, Loose, Everything, Precedes;
    MergePair(s, conf, key, t, u);
    var m, b := DispatchIs(s, i, conf, shuffle);
    BuildPair(Built(m.testFiles, m.waitingTests, []), m.activeConflicts, conf, BatchSize(shuffle), key, t, u);
  }

  lemma HandlePair(s: State, m: Message, conf: Conflicts, shuffle: bool, key: Key, t: Test, u: Test)
    requires Inv(s, conf) && Enabled(s, m) && Covered(conf, t, u, key)
    requires Ahead(s.testFiles, s.waitingTests, key, t, u)
    ensures var r := Handle(s, m, conf, shuffle); var batch := Batch(s, m, conf, shuffle);
      || (t in batch && Precedes(batch, t, u))
      || (t !in batch && u !in batch && Ahead(r.testFiles, r.waitingTests, key, t, u))
  {
    hide Dispatch, Finish, Ahead, Covered, Inv, Everything, Precedes;
    if m.TestsFinished? {
      FinishKeeps(s, m.worker, conf);
      FinishPair(s, m.worker, conf, key, t, u);
      DispatchPair(Finish(s, m.worker), m.worker, conf, shuffle, key, t, u);
    } else {
      DispatchPair(s, m.worker, conf, shuffle, key, t, u);
    }
  }

  lemma {:induction false} RunPair(s: State, ms: seq<Message>, conf: Conflicts, shuffle: bool, key: Key, t: Test, u: Test)
    requires Inv(s, conf) && Possible(s, ms, conf, shuffle) && Covered(conf, t, u, key)
    requires Ahead(s.testFiles, s.waitingTests, key, t, u)
    ensures Precedes(SentIn(s, ms, conf, shuffle), t, u)
    decreases |ms|
  {
    hide Ahead, Covered, Inv, Handle, Batch;
    if ms != [] {
      var r := Handle(s, ms[0], conf, shuffle);
      var batch, rest := Batch(s, ms[0], conf, shuffle), SentIn(r, ms[1..], conf, shuffle);
      HandlePair(s, ms[0], conf, shuffle, key, t, u);
      HandleKeeps(s, ms[0], conf, shuffle);
      if t in batch {
        PrecedesFirst(batch, rest, t, u);
      } else {
        RunPair(r, ms[1..], conf, shuffle, key, t, u);
        PrecedesLater(batch, rest, t, u);
      }
    }
  }

  lemma SplitInFive(tests: seq<Test>, p: nat, q: nat)
    requires p < q < |tests|
    ensures tests == tests[..p] + [tests[p]] + tests[p + 1..q] + [tests[q]] + tests[q + 1..]
  {
  }

  lemma FilterFive(x: seq<Test>, t: Test, y: seq<Test>, u: Test, z: seq<Test>)
    requires t !in x && t !in y && t !in z && u !in x && u !in y && u !in z
    ensures Filter(x + [t] + y + [u] + z, Pair(t, u)) == [t, u]
  {
    var f := Pair(t, u);
    FilterNothing(x, f);
    FilterNothing(y, f);
    FilterNothing(z, f);
    hide Filter;
    FilterSnoc(x, t, f);
    FilterAppend(x + [t], y, f);
    FilterSnoc(x + [t] + y, u, f);
    FilterAppend(x + [t] + y + [u], z, f);
  }

  lemma PairOfList(tests: seq<Test>, p: nat, q: nat)
    requires Distinct(tests) && p < q < |tests|
    ensures Filter(tests, Pair(tests[p], tests[q])) == [tests[p], tests[q]]
  {
    hide Filter, Pair;
    SplitInFive(tests, p, q);
    FilterFive(tests[..p], tests[p], tests[p + 1..q], tests[q], tests[q + 1..]);
  }

  lemma InitialPair(a: seq<Key>, b: seq<Key>, conf: Conflicts, tests: seq<Test>, p: nat, q: nat,
                    workers: set<Worker>, s: State, key: Key)
    requires Distinct(tests) && p < q < |tests| && Covered(conf, tests[p], tests[q], key)
    requires Initial(s, tests, workers, conf, false)
    ensures Ahead(s.testFiles, s.waitingTests, key, tests[p], tests[q])
  {
    var f := Pair(tests[p], tests[q]);
    ReverseInvolutive(Ordinary(tests, conf));
    FilterTwice(tests, f, (t: Test) => !IsAll(conf, t));
    PairOfList(tests, p, q);
    hide Filter, Reverse;
    NobodyWaits(s.waitingTests, key, f);
  }

  /** The condition suffices: on every run the earlier test is sent first. */
  lemma CoveredOrderKept(a: seq<Key>, b: seq<Key>)
    requires FirstKeyCovers(a, b)
    ensures OrderKept(a, b)
  {
    var key := if b == [] then ALL else b[0];
    forall conf, tests, p: nat, q: nat, workers, s, ms | ListedRun(a, b, conf, tests, p, q, workers, s, ms)
      ensures Precedes(SentIn(s, ms, conf, false), tests[p], tests[q])
    {
      assert Covered(conf, tests[p], tests[q], key);
      InitialKeeps(s, tests, workers, conf, false);
      InitialPair(a, b, conf, tests, p, q, workers, s, key);
      RunPair(s, ms, conf, false, key, tests[p], tests[q]);
    }
  }
}
