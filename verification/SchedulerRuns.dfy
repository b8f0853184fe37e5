/** Safety and progress of the master over whole runs: any tests, any workers, any message order. */
module SchedulerRuns {
  import opened Collections
  import opened Scheduler
  import opened SchedulerSafety

  // ---------------------------------------------------------------- the invariant holds in every reachable state

  lemma {:induction false} FilterSplits<T>(s: seq<T>, p: T -> bool, q: T -> bool)
    requires forall t :: t in s ==> (p(t) <==> !q(t))
    ensures multiset(Filter(s, p)) + multiset(Filter(s, q)) == multiset(s)
  {
    if s != [] {
      FilterSplits(s[1..], p, q);
      assert s == [s[0]] + s[1..];
    }
  }

  lemma InitialConserves(s: State, tests: seq<Test>, workers: set<Worker>, conf: Conflicts, shuffle: bool)
    requires Initial(s, tests, workers, conf, shuffle)
    ensures Everything(s) == multiset(tests)
    ensures forall t :: t in Loose(s) + Gather(s.running) ==> !IsAll(conf, t)
  {
    hide Filter, Reverse, IsAll;
    var ordinary := Ordinary(tests, conf);
    FilterSplits(tests, (t: Test) => !IsAll(conf, t), (t: Test) => IsAll(conf, t));
    ReverseSameElements(ordinary);
    assert multiset(s.testFiles) == multiset(ordinary);
    assert forall t :: t in multiset(s.testFiles) ==> t in ordinary;
  }

  lemma InitialKeeps(s: State, tests: seq<Test>, workers: set<Worker>, conf: Conflicts, shuffle: bool)
    requires Initial(s, tests, workers, conf, shuffle)
    ensures Inv(s, conf)
  {
    InitialConserves(s, tests, workers, conf, shuffle);
    assert AllRunAlone(s, conf);
  }

  lemma HandleKeeps(s: State, m: Message, conf: Conflicts, shuffle: bool)
    requires Inv(s, conf) && Enabled(s, m)
    ensures Inv(Handle(s, m, conf, shuffle), conf)
    ensures Everything(Handle(s, m, conf, shuffle)) == Everything(s)
  {
    if m.TestsFinished? {
      FinishKeeps(s, m.worker, conf);
      DispatchKeeps(Finish(s, m.worker), m.worker, conf, shuffle);
    } else {
      DispatchKeeps(s, m.worker, conf, shuffle);
    }
  }

  lemma {:induction false} RunKeeps(s: State, ms: seq<Message>, conf: Conflicts, shuffle: bool)
    requires Inv(s, conf) && Possible(s, ms, conf, shuffle)
    ensures Inv(Run(s, ms, conf, shuffle), conf)
    ensures Everything(Run(s, ms, conf, shuffle)) == Everything(s)
    decreases |ms|
  {
    if ms != [] {
      HandleKeeps(s, ms[0], conf, shuffle);
      RunKeeps(Handle(s, ms[0], conf, shuffle), ms[1..], conf, shuffle);
    }
  }

  ghost predicate RunsTo(s: State, ms: seq<Message>, r: State, conf: Conflicts, shuffle: bool) {
    Possible(s, ms, conf, shuffle) && Run(s, ms, conf, shuffle) == r
  }

  /** The states some run of the master reaches. */
  ghost predicate Reachable(r: State, tests: seq<Test>, workers: set<Worker>, conf: Conflicts, shuffle: bool) {
    exists s, ms :: Initial(s, tests, workers, conf, shuffle) && RunsTo(s, ms, r, conf, shuffle)
  }

  lemma ReachableKeeps(r: State, tests: seq<Test>, workers: set<Worker>, conf: Conflicts, shuffle: bool)
    requires Reachable(r, tests, workers, conf, shuffle)
    ensures Inv(r, conf) && Everything(r) == multiset(tests)
  {
    var s, ms :| Initial(s, tests, workers, conf, shuffle) && RunsTo(s, ms, r, conf, shuffle);
    InitialConserves(s, tests, workers, conf, shuffle);
    InitialKeeps(s, tests, workers, conf, shuffle);
    RunKeeps(s, ms, conf, shuffle);
  }

  // ---------------------------------------------------------------- nothing is lost, everything is run

  /** No test is ever lost, invented or duplicated: with distinct tests each is in exactly one place. */
  lemma ExactlyOnePlace(r: State, tests: seq<Test>, workers: set<Worker>, conf: Conflicts, shuffle: bool, t: Test)
    requires Reachable(r, tests, workers, conf, shuffle)
    ensures multiset(tests)[t] == multiset(r.testFiles)[t] + Gather(r.waitingTests)[t]
      + multiset(r.sequentialTests)[t] + Gather(r.running)[t] + multiset(r.finished)[t]
  {
    ReachableKeeps(r, tests, workers, conf, shuffle);
  }

  /** Whoever is parked is parked on a key of its own that a busy worker owns. */
  lemma ParkedOnOwnedKey(r: State, tests: seq<Test>, workers: set<Worker>, conf: Conflicts, shuffle: bool, k: Key)
    requires Reachable(r, tests, workers, conf, shuffle) && k in r.waitingTests
    ensures exists w :: w in r.running && Touches(r.running[w], conf, k)
    ensures forall t :: t in r.waitingTests[k] ==> k in conf(t)
    ensures r.testsInProgress == |r.running| > 0
  {
    ReachableKeeps(r, tests, workers, conf, shuffle);
    var w := OwnerOf(r.activeConflicts, k).value;
    assert Claim(k, w) in r.activeConflicts;
    assert w in r.running.Keys;
  }

  lemma NothingLeft(r: State, conf: Conflicts)
    requires Inv(r, conf) && !MoreToDo(r)
    ensures multiset(r.finished) == Everything(r)
  {
    assert r.running == map[];
    NoClaimsNobodyWaits(r, conf);
  }

  /** When the main loop ends, every test has been run exactly as often as it was listed. */
  lemma AllTestsRunOnExit(r: State, tests: seq<Test>, workers: set<Worker>, conf: Conflicts, shuffle: bool)
    requires Reachable(r, tests, workers, conf, shuffle) && !MoreToDo(r)
    ensures multiset(r.finished) == multiset(tests)
  {
    ReachableKeeps(r, tests, workers, conf, shuffle);
    NothingLeft(r, conf);
  }

  lemma SomebodyIsAlive(r: State, conf: Conflicts)
    requires Inv(r, conf) && MoreToDo(r)
    ensures r.workerProcs != {}
  {
    assert r.workerProcs == {} ==> r.running.Keys == {};
  }

  /** While the loop condition holds some live worker has a message to send. */
  lemma NeverStuck(r: State, tests: seq<Test>, workers: set<Worker>, conf: Conflicts, shuffle: bool)
    requires Reachable(r, tests, workers, conf, shuffle) && MoreToDo(r)
    ensures exists m :: Enabled(r, m)
  {
    ReachableKeeps(r, tests, workers, conf, shuffle);
    SomebodyIsAlive(r, conf);
    var w :| w in r.workerProcs;
    assert Enabled(r, if w in r.running then TestsFinished(w) else Ready(w));
  }

  /** The last worker is terminated only when every test has been run. */
  lemma LastWorkerDismissedLast(r: State, tests: seq<Test>, workers: set<Worker>, conf: Conflicts, shuffle: bool)
    requires Reachable(r, tests, workers, conf, shuffle) && r.workerProcs == {}
    ensures multiset(r.finished) == multiset(tests)
  {
    ReachableKeeps(r, tests, workers, conf, shuffle);
    assert r.running == map[];
  }

  // ---------------------------------------------------------------- the number of messages

  /** Tests not yet sent to a worker, plus live workers. */
  ghost function Potential(s: State): nat {
    |Loose(s)| + |s.sequentialTests| + |s.workerProcs|
  }

  lemma FinishKeepsPotential(s: State, i: Worker)
    requires i in s.running
    ensures Potential(Finish(s, i)) == Potential(s)
  {
    ReleaseLoose(s.(testsInProgress := s.testsInProgress - 1, running := s.running - {i},
                    finished := s.finished + s.running[i]), i, |s.activeConflicts|);
  }

  lemma DispatchUsesPotential(s: State, i: Worker, conf: Conflicts, shuffle: bool)
    requires Inv(s, conf) && i in s.workerProcs && i !in s.running
    ensures Potential(Dispatch(s, i, conf, shuffle)) < Potential(s)
  {
    hide Inv, Build, ClaimFiles, Everything;
    var m, b := DispatchIs(s, i, conf, shuffle);
    hide Dispatch;
    MergeKeepsPotential(s);
    hide MergeSequential;
    var r := Dispatch(s, i, conf, shuffle);
    assert Held(b) == Loose(r) + multiset(b.files);
    assert |Loose(r)| + |b.files| == |Loose(m)|;
    assert b.files == [] ==> |r.workerProcs| == |m.workerProcs| - 1;
  }

  lemma MergeKeepsPotential(s: State)
    ensures Potential(MergeSequential(s)) == Potential(s) && MergeSequential(s).workerProcs == s.workerProcs
  {
    var m := MergeSequential(s);
    if m != s {
      assert Loose(m) == Loose(s) + multiset(s.sequentialTests);
    }
  }

  lemma HandleUsesPotential(s: State, m: Message, conf: Conflicts, shuffle: bool)
    requires Inv(s, conf) && Enabled(s, m)
    ensures Potential(Handle(s, m, conf, shuffle)) < Potential(s)
  {
    if m.TestsFinished? {
      FinishKeeps(s, m.worker, conf);
      FinishKeepsPotential(s, m.worker);
      DispatchUsesPotential(Finish(s, m.worker), m.worker, conf, shuffle);
    } else {
      DispatchUsesPotential(s, m.worker, conf, shuffle);
    }
  }

  lemma {:induction false} RunUsesPotential(s: State, ms: seq<Message>, conf: Conflicts, shuffle: bool)
    requires Inv(s, conf) && Possible(s, ms, conf, shuffle)
    ensures |ms| <= Potential(s)
    decreases |ms|
  {
    if ms != [] {
      HandleKeeps(s, ms[0], conf, shuffle);
      HandleUsesPotential(s, ms[0], conf, shuffle);
      RunUsesPotential(Handle(s, ms[0], conf, shuffle), ms[1..], conf, shuffle);
    }
  }

  /** At most one `ready` or `tests_finished` message is handled per test and per worker. */
  lemma MessagesBounded(s: State, ms: seq<Message>, tests: seq<Test>, workers: set<Worker>,
                        conf: Conflicts, shuffle: bool)
    requires Initial(s, tests, workers, conf, shuffle) && Possible(s, ms, conf, shuffle)
    ensures |ms| <= |tests| + |workers|
  {
    InitialConserves(s, tests, workers, conf, shuffle);
    InitialKeeps(s, tests, workers, conf, shuffle);
    RunUsesPotential(s, ms, conf, shuffle);
    assert Everything(s) == Loose(s) + multiset(s.sequentialTests);
  }

  // ---------------------------------------------------------------- mutual exclusion

  lemma OwnsWhatItRuns(r: State, conf: Conflicts, w: Worker, t: Test, k: Key)
    requires ClaimsExact(r, conf) && w in r.running && t in r.running[w] && k in conf(t)
    ensures OwnerOf(r.activeConflicts, k) == Some(w)
  {
    assert Claim(k, w) in r.activeConflicts;
    assert Claim(k, OwnerOf(r.activeConflicts, k).value) in r.activeConflicts;
  }

  /** Two workers never run tests that share a conflict key. */
  lemma MutualExclusion(r: State, tests: seq<Test>, workers: set<Worker>, conf: Conflicts, shuffle: bool,
                        v: Worker, w: Worker, t: Test, u: Test)
    requires Reachable(r, tests, workers, conf, shuffle)
    requires v in r.running && w in r.running && v != w && t in r.running[v] && u in r.running[w]
    ensures forall k :: k in conf(t) ==> k !in conf(u)
  {
    ReachableKeeps(r, tests, workers, conf, shuffle);
    forall k | k in conf(t)
      ensures k !in conf(u)
    {
      OwnsWhatItRuns(r, conf, v, t, k);
      if k in conf(u) {
        OwnsWhatItRuns(r, conf, w, u, k);
      }
    }
  }

  /** While a test that conflicts with everything runs, no other worker is alive. */
  lemma AllRunsAlone(r: State, tests: seq<Test>, workers: set<Worker>, conf: Conflicts, shuffle: bool,
                     w: Worker, t: Test)
    requires Reachable(r, tests, workers, conf, shuffle)
    requires w in r.running && t in r.running[w] && "all" in conf(t)
    ensures r.workerProcs == {w}
  {
    ReachableKeeps(r, tests, workers, conf, shuffle);
    GatherMember(r.running, t);
    assert t in Loose(r) + Gather(r.running);
    assert w in r.running.Keys;
    assert |r.workerProcs - {w}| == |r.workerProcs| - 1;
    assert r.workerProcs - {w} == {};
  }

  lemma DispatchOnlyChanges(s: State, i: Worker, conf: Conflicts, shuffle: bool)
    ensures Dispatch(s, i, conf, shuffle).running - {i} == s.running - {i}
  {
  }

  lemma OthersKeepRunning(s: State, m: Message, conf: Conflicts, shuffle: bool)
    requires Inv(s, conf) && Enabled(s, m)
    ensures Handle(s, m, conf, shuffle).running - {m.worker} == s.running - {m.worker}
  {
    if m.TestsFinished? {
      FinishKeeps(s, m.worker, conf);
      DispatchOnlyChanges(Finish(s, m.worker), m.worker, conf, shuffle);
    } else {
      DispatchOnlyChanges(s, m.worker, conf, shuffle);
    }
  }

  lemma SameBatchSameClaims(s: State, r: State, i: Worker, c: Claim, conf: Conflicts)
    requires ClaimsExact(s, conf) && ClaimsExact(r, conf)
    requires c.worker != i && s.running - {i} == r.running - {i}
    ensures c in s.activeConflicts <==> c in r.activeConflicts
  {
    var w := c.worker;
    assert w in s.running <==> w in s.running - {i};
    assert w in r.running <==> w in r.running - {i};
    assert w in s.running ==> (s.running - {i})[w] == (r.running - {i})[w];
  }

  /** A message from one worker neither takes nor gives up a key that another worker owns. */
  lemma OwnershipKept(s: State, m: Message, conf: Conflicts, shuffle: bool, c: Claim)
    requires Inv(s, conf) && Enabled(s, m) && c.worker != m.worker
    ensures c in s.activeConflicts <==> c in Handle(s, m, conf, shuffle).activeConflicts
  {
    var r := Handle(s, m, conf, shuffle);
    assert ClaimsExact(r, conf) by { HandleKeeps(s, m, conf, shuffle); }
    OthersKeepRunning(s, m, conf, shuffle);
    SameBatchSameClaims(s, r, m.worker, c, conf);
  }
}
