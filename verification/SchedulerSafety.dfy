/** What every message keeps true of the master: no test is lost or duplicated, conflict keys are
    mutually exclusive, tests that conflict with everything run alone, and somebody is always working. */
module SchedulerSafety {
  import opened Collections
  import opened Scheduler

  // ---------------------------------------------------------------- the invariant

  ghost function Loose(s: State): multiset<Test> {
    multiset(s.testFiles) + Gather(s.waitingTests)
  }

  /** All tests the master knows of, wherever they are. */
  ghost function Everything(s: State): multiset<Test> {
    Loose(s) + multiset(s.sequentialTests) + Gather(s.running) + multiset(s.finished)
  }

  ghost predicate Touches(files: seq<Test>, conf: Conflicts, key: Key) {
    exists t :: t in files && key in conf(t)
  }

  /** The keys owned are exactly the keys of the tests being run, each owned by who runs them. */
  ghost predicate ClaimsExact(s: State, conf: Conflicts) {
    && OneOwnerPerKey(s.activeConflicts)
    && forall c :: c in s.activeConflicts <==> c.worker in s.running && Touches(s.running[c.worker], conf, c.key)
  }

  /** Whoever waits, waits for one of its own keys, and somebody owns that key. */
  ghost predicate WaitingSound(waiting: map<Key, seq<Test>>, claims: seq<Claim>, conf: Conflicts) {
    forall k :: k in waiting ==>
      waiting[k] != [] && OwnerOf(claims, k).Some? && forall t :: t in waiting[k] ==> k in conf(t)
  }

  ghost predicate WorkersSound(s: State) {
    && s.running.Keys <= s.workerProcs
    && s.testsInProgress == |s.running|
    && forall w :: w in s.running ==> s.running[w] != []
  }

  /** Until one worker is left, the tests that conflict with everything stay in their own list. */
  ghost predicate AllRunAlone(s: State, conf: Conflicts) {
    && (forall t :: t in s.sequentialTests ==> IsAll(conf, t))
    && (|s.workerProcs| > 1 ==> forall t :: t in Loose(s) + Gather(s.running) ==> !IsAll(conf, t))
  }

  ghost predicate NobodyLeftBehind(s: State) {
    s.workerProcs == {} ==> s.testFiles == [] && s.sequentialTests == [] && s.waitingTests == map[]
  }

  ghost predicate Inv(s: State, conf: Conflicts) {
    && ClaimsExact(s, conf)
    && WaitingSound(s.waitingTests, s.activeConflicts, conf)
    && WorkersSound(s)
    && AllRunAlone(s, conf)
    && NobodyLeftBehind(s)
  }

  // ---------------------------------------------------------------- giving up the claims of a worker

  lemma {:induction false} ReleaseLoose(s: State, i: Worker, n: nat)
    requires n <= |s.activeConflicts|
    ensures var r := ReleaseUpTo(s, i, n);
      && Loose(r) == Loose(s)
      && r == s.(testFiles := r.testFiles, waitingTests := r.waitingTests, activeConflicts := r.activeConflicts)
  {
    if n > 0 {
      ReleaseLoose(s, i, n - 1);
      var r := ReleaseUpTo(s, i, n - 1);
      var c := s.activeConflicts[n - 1];
      if c.worker == i && c.key in r.waitingTests {
        GatherRemove(r.waitingTests, c.key);
        ReverseSameElements(r.waitingTests[c.key]);
      }
    }
  }

  /** Exactly the claims of `i` are given up. */
  lemma {:induction false} ReleaseClaims(s: State, i: Worker, n: nat)
    requires n <= |s.activeConflicts| && OneOwnerPerKey(s.activeConflicts)
    ensures var r := ReleaseUpTo(s, i, n).activeConflicts;
      OneOwnerPerKey(r) && forall c :: c in r <==> c in s.activeConflicts[..n] && c.worker != i
  {
    if n > 0 {
      ReleaseClaims(s, i, n - 1);
      assert s.activeConflicts[..n] == s.activeConflicts[..n - 1] + [s.activeConflicts[n - 1]];
    }
  }

  /** Exactly those who waited for a key of `i` stop waiting. */
  lemma {:induction false} ReleaseWaiting(s: State, i: Worker, n: nat)
    requires n <= |s.activeConflicts|
    ensures var r := ReleaseUpTo(s, i, n).waitingTests;
      && (forall k :: k in r <==> k in s.waitingTests && Claim(k, i) !in s.activeConflicts[..n])
      && (forall k :: k in r ==> r[k] == s.waitingTests[k])
  {
    if n > 0 {
      ReleaseWaiting(s, i, n - 1);
      assert s.activeConflicts[..n] == s.activeConflicts[..n - 1] + [s.activeConflicts[n - 1]];
    }
  }

  /** What finishing a batch changes. */
  lemma FinishIs(s: State, i: Worker)
    requires OneOwnerPerKey(s.activeConflicts) && i in s.running
    ensures var r := Finish(s, i);
      && r == s.(testsInProgress := s.testsInProgress - 1, running := s.running - {i},
                 finished := s.finished + s.running[i], testFiles := r.testFiles, waitingTests := r.waitingTests,
                 activeConflicts := r.activeConflicts)
      && Loose(r) == Loose(s)
      && OneOwnerPerKey(r.activeConflicts)
      && (forall c :: c in r.activeConflicts <==> c in s.activeConflicts && c.worker != i)
  {
    hide Loose;
    var s0 := s.(testsInProgress := s.testsInProgress - 1, running := s.running - {i},
                 finished := s.finished + s.running[i]);
    var n := |s.activeConflicts|;
    assert s.activeConflicts[..n] == s.activeConflicts;
    ReleaseLoose(s0, i, n);
    ReleaseClaims(s0, i, n);
    LooseOnly(s, s0);
  }

  lemma LooseOnly(s: State, r: State)
    requires s.testFiles == r.testFiles && s.waitingTests == r.waitingTests
    ensures Loose(s) == Loose(r)
  {
  }

  lemma FinishConserves(s: State, i: Worker)
    requires OneOwnerPerKey(s.activeConflicts) && i in s.running
    ensures var r := Finish(s, i);
      && Everything(r) == Everything(s)
      && Loose(r) + Gather(r.running) <= Loose(s) + Gather(s.running)
  {
    hide Finish, Loose;
    FinishIs(s, i);
    GatherRemove(s.running, i);
  }

  lemma FinishClaimsExact(s: State, i: Worker, conf: Conflicts)
    requires ClaimsExact(s, conf) && i in s.running
    ensures ClaimsExact(Finish(s, i), conf)
  {
    hide Finish, Loose, Touches;
    FinishIs(s, i);
  }

  lemma FinishWaitingSound(s: State, i: Worker, conf: Conflicts)
    requires OneOwnerPerKey(s.activeConflicts) && i in s.running
    requires WaitingSound(s.waitingTests, s.activeConflicts, conf)
    ensures WaitingSound(Finish(s, i).waitingTests, Finish(s, i).activeConflicts, conf)
  {
    hide Loose;
    var n := |s.activeConflicts|;
    ReleaseWaiting(s.(testsInProgress := s.testsInProgress - 1, running := s.running - {i},
                      finished := s.finished + s.running[i]), i, n);
    assert s.activeConflicts[..n] == s.activeConflicts;
    FinishIs(s, i);
    var r := Finish(s, i);
    hide Finish;
    forall k | k in r.waitingTests
      ensures k in s.waitingTests && r.waitingTests[k] == s.waitingTests[k] && OwnerOf(r.activeConflicts, k).Some?
    {
      assert Claim(k, OwnerOf(s.activeConflicts, k).value) in r.activeConflicts;
    }
  }

  lemma FinishKeeps(s: State, i: Worker, conf: Conflicts)
    requires Inv(s, conf) && i in s.running
    ensures var r := Finish(s, i);
      Inv(r, conf) && r.running == s.running - {i} && r.workerProcs == s.workerProcs && Everything(r) == Everything(s)
  {
    hide Finish, Loose, ClaimsExact, WaitingSound, Everything;
    assert ClaimsExact(Finish(s, i), conf) && OneOwnerPerKey(s.activeConflicts) by {
      ExactClaimsOneOwner(s, conf);
      FinishClaimsExact(s, i, conf);
    }
    FinishIs(s, i);
    FinishWaitingSound(s, i, conf);
    FinishConserves(s, i);
  }

  lemma ExactClaimsOneOwner(s: State, conf: Conflicts)
    requires ClaimsExact(s, conf)
    ensures OneOwnerPerKey(s.activeConflicts)
  {
  }

  // ---------------------------------------------------------------- building a batch

  lemma ParkGathers(waiting: map<Key, seq<Test>>, key: Key, file: Test)
    ensures Gather(Park(waiting, key, file)) == Gather(waiting) + multiset{file}
  {
    GatherUpdate(waiting, key, Park(waiting, key, file)[key]);
    if key in waiting {
      GatherRemove(waiting, key);
    } else {
      assert waiting - {key} == waiting;
    }
  }

  /** The next state of the batch-building loop. */
  function BuildStep(b: Built, claims: seq<Claim>, conf: Conflicts): Built
    requires b.testFiles != []
  {
    var n := |b.testFiles| - 1;
    match Blocker(conf(b.testFiles[n]), claims)
    case Some(key) => Built(b.testFiles[..n], Park(b.waitingTests, key, b.testFiles[n]), b.files)
    case None => Built(b.testFiles[..n], b.waitingTests, b.files + [b.testFiles[n]])
  }

  ghost function Held(b: Built): multiset<Test> {
    multiset(b.testFiles) + Gather(b.waitingTests) + multiset(b.files)
  }

  lemma {:induction false} BuildConserves(b: Built, claims: seq<Claim>, conf: Conflicts, size: nat)
    ensures Held(Build(b, claims, conf, size)) == Held(b)
    decreases |b.testFiles|
  {
    if |b.files| <= size && b.testFiles != [] {
      var n := |b.testFiles| - 1;
      assert b.testFiles == b.testFiles[..n] + [b.testFiles[n]];
      var key := Blocker(conf(b.testFiles[n]), claims);
      if key.Some? {
        ParkGathers(b.waitingTests, key.value, b.testFiles[n]);
      }
      BuildConserves(BuildStep(b, claims, conf), claims, conf, size);
    }
  }

  lemma {:induction false} BuildWaitingSound(b: Built, claims: seq<Claim>, conf: Conflicts, size: nat)
    requires WaitingSound(b.waitingTests, claims, conf)
    ensures WaitingSound(Build(b, claims, conf, size).waitingTests, claims, conf)
    decreases |b.testFiles|
  {
    if |b.files| <= size && b.testFiles != [] {
      BuildWaitingSound(BuildStep(b, claims, conf), claims, conf, size);
    }
  }

  /** No test of the batch touches a key that was owned, and only an empty stack gives an empty batch. */
  lemma {:induction false} BuildTakesUnblocked(b: Built, claims: seq<Claim>, conf: Conflicts, size: nat)
    requires forall t :: t in b.files ==> forall k :: k in conf(t) ==> OwnerOf(claims, k).None?
    ensures var r := Build(b, claims, conf, size);
      && (forall t :: t in r.files ==> forall k :: k in conf(t) ==> OwnerOf(claims, k).None?)
      && (r.files == [] ==> r.testFiles == [])
    decreases |b.testFiles|
  {
    if |b.files| <= size && b.testFiles != [] {
      BuildTakesUnblocked(BuildStep(b, claims, conf), claims, conf, size);
    }
  }

  lemma {:induction false} ClaimKeysExactly(claims: seq<Claim>, keys: seq<Key>, i: Worker)
    requires OneOwnerPerKey(claims)
    ensures OneOwnerPerKey(ClaimKeys(claims, keys, i))
    ensures forall c :: c in ClaimKeys(claims, keys, i) <==>
      (if c.key in keys then c.worker == i else c in claims)
  {
    if keys != [] {
      var n := |keys| - 1;
      ClaimKeysExactly(claims, keys[..n], i);
      AssignKeepsOneOwner(ClaimKeys(claims, keys[..n], i), keys[n], i);
      assert keys == keys[..n] + [keys[n]];
    }
  }

  lemma {:induction false} ClaimFilesExactly(claims: seq<Claim>, files: seq<Test>, i: Worker, conf: Conflicts)
    requires OneOwnerPerKey(claims)
    ensures OneOwnerPerKey(ClaimFiles(claims, files, i, conf))
    ensures forall c :: c in ClaimFiles(claims, files, i, conf) <==>
      (if Touches(files, conf, c.key) then c.worker == i else c in claims)
  {
    if files != [] {
      var n := |files| - 1;
      ClaimFilesExactly(claims, files[..n], i, conf);
      ClaimKeysExactly(ClaimFiles(claims, files[..n], i, conf), conf(files[n]), i);
      assert files == files[..n] + [files[n]];
      assert forall k :: Touches(files, conf, k) <==> Touches(files[..n], conf, k) || k in conf(files[n]);
    }
  }

  lemma NoClaimsNobodyWaits(s: State, conf: Conflicts)
    requires ClaimsExact(s, conf) && WaitingSound(s.waitingTests, s.activeConflicts, conf) && s.running == map[]
    ensures s.activeConflicts == [] && s.waitingTests == map[]
  {
    EmptyIffNoMember(s.activeConflicts);
    assert forall k :: k !in s.waitingTests;
  }

  lemma MergeKeeps(s: State, conf: Conflicts)
    requires Inv(s, conf)
    ensures Inv(MergeSequential(s), conf) && Everything(MergeSequential(s)) == Everything(s)
  {
  }

  lemma SoleWorkerIsIdle(s: State, i: Worker)
    requires s.running.Keys <= s.workerProcs && i in s.workerProcs && i !in s.running && |s.workerProcs| == 1
    ensures s.workerProcs == {i} && s.running == map[]
  {
    assert |s.workerProcs - {i}| == 0;
    assert s.running.Keys == {};
  }

  /** The state and batch on which the batch-building loop ends. */
  ghost predicate Collected(m: State, b: Built, conf: Conflicts) {
    && Held(b) == Loose(m)
    && WaitingSound(b.waitingTests, m.activeConflicts, conf)
    && (forall t :: t in b.files ==> forall k :: k in conf(t) ==> OwnerOf(m.activeConflicts, k).None?)
    && (b.files == [] ==> b.testFiles == [])
  }

  function Send(m: State, b: Built, i: Worker, conf: Conflicts): State {
    m.(testFiles := b.testFiles, waitingTests := b.waitingTests,
       activeConflicts := ClaimFiles(m.activeConflicts, b.files, i, conf),
       testsInProgress := m.testsInProgress + 1,
       running := m.running[i := b.files])
  }

  function Dismiss(m: State, b: Built, i: Worker): State {
    m.(testFiles := b.testFiles, waitingTests := b.waitingTests, workerProcs := m.workerProcs - {i})
  }

  lemma DispatchIs(s: State, i: Worker, conf: Conflicts, shuffle: bool) returns (m: State, b: Built)
    requires Inv(s, conf)
    ensures m == MergeSequential(s) && Inv(m, conf) && Everything(m) == Everything(s)
    ensures Collected(m, b, conf)
    ensures b == Build(Built(m.testFiles, m.waitingTests, []), m.activeConflicts, conf, BatchSize(shuffle))
    ensures Dispatch(s, i, conf, shuffle) == if b.files != [] then Send(m, b, i, conf) else Dismiss(m, b, i)
  {
    MergeKeeps(s, conf);
    m := MergeSequential(s);
    var b0 := Built(m.testFiles, m.waitingTests, []);
    b := Build(b0, m.activeConflicts, conf, BatchSize(shuffle));
    BuildConserves(b0, m.activeConflicts, conf, BatchSize(shuffle));
    BuildWaitingSound(b0, m.activeConflicts, conf, BatchSize(shuffle));
    BuildTakesUnblocked(b0, m.activeConflicts, conf, BatchSize(shuffle));
  }

  lemma DismissKeeps(m: State, b: Built, i: Worker, conf: Conflicts)
    requires Inv(m, conf) && Collected(m, b, conf) && b.files == []
    requires i in m.workerProcs && i !in m.running && (|m.workerProcs| == 1 ==> m.sequentialTests == [])
    ensures Inv(Dismiss(m, b, i), conf) && Everything(Dismiss(m, b, i)) == Everything(m)
  {
    var r := Dismiss(m, b, i);
    assert |r.workerProcs| == |m.workerProcs| - 1;
    if |m.workerProcs| == 1 {
      SoleWorkerIsIdle(m, i);
      NoClaimsNobodyWaits(m, conf);
      NoClaimsNobodyWaits(r, conf);
    }
  }

  lemma ClaimsExactAfterSend(m: State, b: Built, i: Worker, conf: Conflicts)
    requires ClaimsExact(m, conf) && Collected(m, b, conf) && i !in m.running
    ensures ClaimsExact(Send(m, b, i, conf), conf)
    ensures forall c :: c in m.activeConflicts ==> c in Send(m, b, i, conf).activeConflicts
  {
    ClaimFilesExactly(m.activeConflicts, b.files, i, conf);
    assert forall c :: c in m.activeConflicts ==> !Touches(b.files, conf, c.key);
  }

  lemma WaitingSoundMoreClaims(waiting: map<Key, seq<Test>>, claims: seq<Claim>, more: seq<Claim>, conf: Conflicts)
    requires WaitingSound(waiting, claims, conf) && forall c :: c in claims ==> c in more
    ensures WaitingSound(waiting, more, conf)
  {
    forall k | k in waiting
      ensures OwnerOf(more, k).Some?
    {
      assert Claim(k, OwnerOf(claims, k).value) in more;
    }
  }

  lemma Regroup<T>(a: multiset<T>, b: multiset<T>, c: multiset<T>, d: multiset<T>, e: multiset<T>)
    ensures (a + b) + c + d + e == a + c + (b + d) + e
    ensures (a + b) + d == a + (b + d)
  {
  }

  lemma SendConserves(m: State, b: Built, i: Worker, conf: Conflicts)
    requires Collected(m, b, conf) && i !in m.running
    ensures var r := Send(m, b, i, conf);
      && Everything(r) == Everything(m)
      && Loose(r) + Gather(r.running) == Loose(m) + Gather(m.running)
  {
    GatherUpdate(m.running, i, b.files);
    assert m.running - {i} == m.running;
    var r := Send(m, b, i, conf);
    Regroup(Loose(r), multiset(b.files), multiset(m.sequentialTests), Gather(m.running), multiset(m.finished));
  }

  lemma SendKeepsWorkers(m: State, b: Built, i: Worker, conf: Conflicts)
    requires WorkersSound(m) && i in m.workerProcs && i !in m.running && b.files != []
    ensures WorkersSound(Send(m, b, i, conf))
  {
    assert m.running[i := b.files].Keys == m.running.Keys + {i};
  }

  lemma SendKeeps(m: State, b: Built, i: Worker, conf: Conflicts)
    requires Inv(m, conf) && Collected(m, b, conf) && i in m.workerProcs && i !in m.running && b.files != []
    ensures Inv(Send(m, b, i, conf), conf)
  {
    var r := Send(m, b, i, conf);
    ClaimsExactAfterSend(m, b, i, conf);
    WaitingSoundMoreClaims(b.waitingTests, m.activeConflicts, r.activeConflicts, conf);
    SendKeepsWorkers(m, b, i, conf);
    assert AllRunAlone(r, conf) by { SendConserves(m, b, i, conf); }
  }

  lemma DispatchKeeps(s: State, i: Worker, conf: Conflicts, shuffle: bool)
    requires Inv(s, conf) && i in s.workerProcs && i !in s.running
    ensures Inv(Dispatch(s, i, conf, shuffle), conf)
    ensures Everything(Dispatch(s, i, conf, shuffle)) == Everything(s)
  {
    var m, b := DispatchIs(s, i, conf, shuffle);
    if b.files == [] {
      DismissKeeps(m, b, i, conf);
    } else {
      SendKeeps(m, b, i, conf);
      SendConserves(m, b, i, conf);
    }
  }
}
