/** The master as the program that updates its bookkeeping in place, refining the transition system. */
module MasterProcess {
  import opened Collections
  import opened Scheduler
  import opened SchedulerSafety
  import opened SchedulerRuns

  function WorkerIds(n: nat): (r: set<Worker>)
    ensures |r| == n && forall w :: w in r ==> 1 <= w <= n
  {
    if n == 0 then {} else WorkerIds(n - 1) + {n}
  }

  lemma NoWorkers()
    ensures WorkerIds(0) == {}
  {
  }

  lemma OneMoreWorker(n: nat)
    requires n > 0
    ensures WorkerIds(n) == WorkerIds(n - 1) + {n}
  {
  }

  class Master {
    const conf: Conflicts
    const shuffle: bool
    var testFiles: seq<Test>
    var sequentialTests: seq<Test>
    var activeConflicts: seq<Claim>
    var waitingTests: map<Key, seq<Test>>
    var testsInProgress: int
    var workerProcs: set<Worker>
    var running: map<Worker, seq<Test>>
    ghost var finished: seq<Test>

    ghost function Abs(): State
      reads this
    {
      State(testFiles, sequentialTests, activeConflicts, waitingTests, testsInProgress, workerProcs, running, finished)
    }

    /** `shuffled` is what shuffling makes of the remaining tests. */
    constructor (tests: seq<Test>, workers: nat, conf: Conflicts, shuffle: bool, shuffled: seq<Test>)
      requires workers > 0
      requires shuffle ==> multiset(shuffled) == multiset(Ordinary(tests, conf))
      ensures this.conf == conf && this.shuffle == shuffle
      ensures Initial(Abs(), tests, WorkerIds(workers), conf, shuffle)
    {
      this.conf := conf;
      this.shuffle := shuffle;
      activeConflicts, waitingTests, testsInProgress := [], map[], 0;
      running, finished := map[], [];
      var remaining, sequential := Partition(tests, conf);
      sequentialTests := sequential;
      testFiles := if shuffle then shuffled else Reverse(remaining);
      var procs := SpawnWorkers(workers);
      workerProcs := procs;
    }

    static method SpawnWorkers(workers: nat) returns (procs: set<Worker>)
      ensures procs == WorkerIds(workers)
    {
      hide WorkerIds;
      procs := {};
      NoWorkers();
      for i := 1 to workers + 1
        invariant procs == WorkerIds(i - 1)
      {
        OneMoreWorker(i);
        procs := procs + {i};
      }
    }

    static lemma NobodyListed(conf: Conflicts)
      ensures Ordinary([], conf) == [] && Sequential([], conf) == []
    {
    }

    static lemma SetAside(tests: seq<Test>, conf: Conflicts)
      ensures Ordinary(tests, conf) == Filter(tests, (t: Test) => "all" !in conf(t))
      ensures Sequential(tests, conf) == Filter(tests, (t: Test) => "all" in conf(t))
    {
      hide Filter;
      FilterSame(tests, (t: Test) => !IsAll(conf, t), (t: Test) => "all" !in conf(t));
      FilterSame(tests, (t: Test) => IsAll(conf, t), (t: Test) => "all" in conf(t));
    }

    static method Partition(tests: seq<Test>, conf: Conflicts) returns (remaining: seq<Test>, sequential: seq<Test>)
      ensures remaining == Ordinary(tests, conf) && sequential == Sequential(tests, conf)
      ensures remaining == Filter(tests, (t: Test) => "all" !in conf(t))
      ensures sequential == Filter(tests, (t: Test) => "all" in conf(t))
    {
      SetAside(tests, conf);
      hide Filter, IsAll;
      assert tests[..0] == [];
      NobodyListed(conf);
      remaining, sequential := [], [];
      for n := 0 to |tests|
        invariant remaining == Ordinary(tests[..n], conf) && sequential == Sequential(tests[..n], conf)
      {
        FilterSnoc(tests[..n], tests[n], (t: Test) => !IsAll(conf, t));
        FilterSnoc(tests[..n], tests[n], (t: Test) => IsAll(conf, t));
        assert tests[..n + 1] == tests[..n] + [tests[n]];
        if IsAll(conf, tests[n]) {
          sequential := sequential + [tests[n]];
        } else {
          remaining := remaining + [tests[n]];
        }
      }
      assert tests[..|tests|] == tests;
    }

    method ReleaseClaims(i: Worker)
      requires OneOwnerPerKey(activeConflicts)
      modifies this
      ensures Abs() == Release(old(Abs()), i)
    {
      hide Halfway, ReleaseUpTo, Release, Reverse, Unset;
      ghost var s := Abs();
      var claims := activeConflicts;
      HalfwayEnds(s, i);
      for n := 0 to |claims|
        invariant Abs() == Halfway(s, i, n)
      {
        HalfwayStep(s, i, n);
        if claims[n].worker == i {
          activeConflicts := Unset(activeConflicts, claims[n].key);
          if claims[n].key in waitingTests {
            ReturnWaiting(claims[n].key);
          }
        }
      }
    }

    /** Between two iterations of that loop: the claims not yet looked at are still there. */
    static function Halfway(s: State, i: Worker, n: nat): State
      requires n <= |s.activeConflicts|
    {
      var r := ReleaseUpTo(s, i, n);
      r.(activeConflicts := r.activeConflicts + s.activeConflicts[n..])
    }

    static lemma HalfwayEnds(s: State, i: Worker)
      ensures Halfway(s, i, 0) == s && Halfway(s, i, |s.activeConflicts|) == Release(s, i)
    {
      var n := |s.activeConflicts|;
      assert s.activeConflicts[0..] == s.activeConflicts && s.activeConflicts[n..] == [];
      assert [] + s.activeConflicts == s.activeConflicts;
      var r := ReleaseUpTo(s, i, n);
      assert r.activeConflicts + [] == r.activeConflicts;
    }

    static lemma HalfwayStep(s: State, i: Worker, n: nat)
      requires n < |s.activeConflicts| && OneOwnerPerKey(s.activeConflicts)
      ensures var h := Halfway(s, i, n); var c := s.activeConflicts[n];
        Halfway(s, i, n + 1) ==
          if c.worker != i then h
          else if c.key in h.waitingTests then
            h.(activeConflicts := Unset(h.activeConflicts, c.key), waitingTests := h.waitingTests - {c.key},
               testFiles := h.testFiles + Reverse(h.waitingTests[c.key]))
          else h.(activeConflicts := Unset(h.activeConflicts, c.key))
    {
      var kept := ReleaseUpTo(s, i, n).activeConflicts;
      var c := s.activeConflicts[n];
      var rest := s.activeConflicts[n + 1..];
      SchedulerSafety.ReleaseClaims(s, i, n);
      UnsetInPlace(kept, c, rest);
      assert s.activeConflicts[n..] == [c] + rest;
      assert kept + s.activeConflicts[n..] == kept + [c] + rest;
    }

    static lemma ReverseSnoc(w: seq<Test>, t: Test)
      ensures Reverse(w + [t]) == [t] + Reverse(w)
    {
      ReverseAppend(w, [t]);
      assert Reverse([t]) == [t];
    }

    method ReturnWaiting(key: Key)
      requires key in waitingTests
      modifies `testFiles, `waitingTests
      ensures testFiles == old(testFiles) + Reverse(old(waitingTests)[key])
      ensures waitingTests == old(waitingTests) - {key}
    {
      while waitingTests[key] != []
        invariant key in waitingTests && waitingTests - {key} == old(waitingTests) - {key}
        invariant testFiles + Reverse(waitingTests[key]) == old(testFiles) + Reverse(old(waitingTests)[key])
        decreases |waitingTests[key]|
      {
        hide Reverse;
        var w := waitingTests[key];
        var test := w[|w| - 1];
        ReverseSnoc(w[..|w| - 1], test);
        assert w[..|w| - 1] + [test] == w;
        waitingTests := waitingTests[key := w[..|w| - 1]];
        testFiles := testFiles + [test];
        assert testFiles + Reverse(w[..|w| - 1]) == testFiles[..|testFiles| - 1] + Reverse(w);
      }
      waitingTests := waitingTests - {key};
    }

    method BuildBatch() returns (files: seq<Test>)
      modifies `testFiles, `waitingTests
      ensures Built(testFiles, waitingTests, files)
        == Build(Built(old(testFiles), old(waitingTests), []), activeConflicts, conf, BatchSize(shuffle))
    {
      files := [];
      var batchSize := if shuffle then 4 else 32;
      while |files| <= batchSize && testFiles != []
        invariant Build(Built(testFiles, waitingTests, files), activeConflicts, conf, batchSize)
          == Build(Built(old(testFiles), old(waitingTests), []), activeConflicts, conf, batchSize)
        decreases |testFiles|
      {
        var file := testFiles[|testFiles| - 1];
        testFiles := testFiles[..|testFiles| - 1];
        var keys := conf(file);
        var k := 0;
        while k < |keys| && OwnerOf(activeConflicts, keys[k]).None?
          invariant k <= |keys| && Blocker(keys, activeConflicts) == Blocker(keys[k..], activeConflicts)
        {
          k := k + 1;
        }
        if k < |keys| {
          waitingTests := Park(waitingTests, keys[k], file);
        } else {
          files := files + [file];
        }
      }
    }

    method ClaimBatch(files: seq<Test>, i: Worker)
      modifies `activeConflicts
      ensures activeConflicts == ClaimFiles(old(activeConflicts), files, i, conf)
    {
      for n := 0 to |files|
        invariant activeConflicts == ClaimFiles(old(activeConflicts), files[..n], i, conf)
      {
        var keys := conf(files[n]);
        ghost var before := activeConflicts;
        for k := 0 to |keys|
          invariant activeConflicts == ClaimKeys(before, keys[..k], i)
        {
          activeConflicts := Assign(activeConflicts, keys[k], i);
          assert keys[..k + 1][..k] == keys[..k];
        }
        assert keys[..|keys|] == keys;
        assert files[..n + 1][..n] == files[..n];
      }
      assert files[..|files|] == files;
    }

    method HandleReady(i: Worker)
      modifies this
      ensures Abs() == Dispatch(old(Abs()), i, conf, shuffle)
    {
      hide Build, ClaimFiles;
      if |workerProcs| == 1 && sequentialTests != [] {
        testFiles := testFiles + sequentialTests;
        sequentialTests := [];
      }
      assert Abs() == MergeSequential(old(Abs()));
      var files := BuildBatch();
      if files != [] {
        ClaimBatch(files, i);
        testsInProgress := testsInProgress + 1;
        running := running[i := files];
      } else {
        workerProcs := workerProcs - {i};
      }
    }

    method HandleMessage(m: Message)
      requires Enabled(Abs(), m) && OneOwnerPerKey(activeConflicts)
      modifies this
      ensures Abs() == Handle(old(Abs()), m, conf, shuffle)
    {
      if m.TestsFinished? {
        testsInProgress := testsInProgress - 1;
        finished := finished + running[m.worker];
        running := running - {m.worker};
        ReleaseClaims(m.worker);
        assert Abs() == Finish(old(Abs()), m.worker);
      }
      HandleReady(m.worker);
    }

    /** The main loop, whichever live worker is heard next: it ends, and then every test has been run. */
    method RunTests(ghost tests: seq<Test>, ghost workers: set<Worker>)
      requires Initial(Abs(), tests, workers, conf, shuffle)
      modifies this
      ensures multiset(finished) == multiset(tests)
    {
      InitialConserves(Abs(), tests, workers, conf, shuffle);
      InitialKeeps(Abs(), tests, workers, conf, shuffle);
      while testFiles != [] || sequentialTests != [] || testsInProgress > 0
        invariant Inv(Abs(), conf) && Everything(Abs()) == multiset(tests)
        decreases Potential(Abs())
      {
        SomebodyIsAlive(Abs(), conf);
        ghost var s := Abs();
        var i :| i in workerProcs;
        var m := if i in running then TestsFinished(i) else Ready(i);
        HandleMessage(m);
        HandleKeeps(s, m, conf, shuffle);
        HandleUsesPotential(s, m, conf, shuffle);
      }
      NothingLeft(Abs(), conf);
    }
  }
}
