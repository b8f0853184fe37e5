/** In which order tests that share a conflict key are run. */
module SchedulerOrder {
  import opened Collections
  import opened Scheduler
  import opened SchedulerSafety
  import opened SchedulerRuns

  /** The tests whose one conflict key is `key`. */
  function OnlyKey(conf: Conflicts, key: Key): Test -> bool {
    (t: Test) => key in conf(t) && forall k :: k in conf(t) ==> k == key
  }

  function WaitingFor(waiting: map<Key, seq<Test>>, key: Key): seq<Test> {
    if key in waiting then waiting[key] else []
  }

  function InFlight(s: State, key: Key): seq<Test> {
    var w := OwnerOf(s.activeConflicts, key);
    if w.Some? && w.value in s.running then s.running[w.value] else []
  }

  /** The tests with the one key `key` that were sent to a worker, in the order sent. */
  function Sent(s: State, key: Key, conf: Conflicts): seq<Test> {
    Filter(s.finished, OnlyKey(conf, key)) + Filter(InFlight(s, key), OnlyKey(conf, key))
  }

  /** The tests satisfying `p` that wait for `key` or are on the stack, in the order they would be popped. */
  function QueueOf(stack: seq<Test>, waiting: map<Key, seq<Test>>, key: Key, p: Test -> bool): seq<Test> {
    Filter(WaitingFor(waiting, key), p) + Filter(Reverse(stack), p)
  }

  /** Those with the one key `key` that are still to be sent. */
  function Queue(stack: seq<Test>, waiting: map<Key, seq<Test>>, key: Key, conf: Conflicts): seq<Test> {
    QueueOf(stack, waiting, key, OnlyKey(conf, key))
  }

  function Line(s: State, key: Key, conf: Conflicts): seq<Test> {
    Sent(s, key, conf) + Queue(s.testFiles, s.waitingTests, key, conf)
  }

  // ---------------------------------------------------------------- tests_finished keeps the line

  /** Who satisfies `p` waits for no other key than `key`. */
  ghost predicate WaitOnlyFor(waiting: map<Key, seq<Test>>, key: Key, p: Test -> bool) {
    forall k, t :: k in waiting && k != key && t in waiting[k] ==> !p(t)
  }

  lemma UnparkKeepsQueue(stack: seq<Test>, waiting: map<Key, seq<Test>>, k: Key, key: Key, p: Test -> bool)
    requires k in waiting && WaitOnlyFor(waiting, key, p)
    ensures QueueOf(stack + Reverse(waiting[k]), waiting - {k}, key, p) == QueueOf(stack, waiting, key, p)
  {
    hide Reverse, Filter;
    FilterReverseAppend(stack, Reverse(waiting[k]), p);
    ReverseInvolutive(waiting[k]);
    if k == key {
      NobodyWaits(waiting - {k}, key, p);
    } else {
      FilterNothing(waiting[k], p);
    }
  }

  lemma NobodyWaits(waiting: map<Key, seq<Test>>, key: Key, p: Test -> bool)
    requires key !in waiting
    ensures Filter(WaitingFor(waiting, key), p) == []
  {
  }

  lemma {:induction false} ReleaseKeepsQueue(s: State, i: Worker, n: nat, key: Key, p: Test -> bool)
    requires n <= |s.activeConflicts| && WaitOnlyFor(s.waitingTests, key, p)
    ensures var r := ReleaseUpTo(s, i, n);
      QueueOf(r.testFiles, r.waitingTests, key, p) == QueueOf(s.testFiles, s.waitingTests, key, p)
  {
    hide QueueOf;
    if n > 0 {
      ReleaseKeepsQueue(s, i, n - 1, key, p);
      ReleaseWaiting(s, i, n - 1);
      var r := ReleaseUpTo(s, i, n - 1);
      var c := s.activeConflicts[n - 1];
      if c.worker == i && c.key in r.waitingTests {
        UnparkKeepsQueue(r.testFiles, r.waitingTests, c.key, key, p);
      }
    }
  }

  lemma OwnerIffClaim(claims: seq<Claim>, key: Key, w: Worker)
    requires OneOwnerPerKey(claims)
    ensures OwnerOf(claims, key) == Some(w) <==> Claim(key, w) in claims
  {
  }

  /** The released keys are owned by nobody, the others by who owned them. */
  lemma OwnerAfterRelease(before: seq<Claim>, after: seq<Claim>, i: Worker, key: Key)
    requires OneOwnerPerKey(before) && OneOwnerPerKey(after)
    requires forall c :: c in after <==> c in before && c.worker != i
    ensures OwnerOf(after, key) == if OwnerOf(before, key) == Some(i) then None else OwnerOf(before, key)
  {
    var w := OwnerOf(before, key);
    if w.Some? {
      OwnerIffClaim(before, key, w.value);
      OwnerIffClaim(after, key, w.value);
    }
    if OwnerOf(after, key).Some? {
      OwnerIffClaim(before, key, OwnerOf(after, key).value);
    }
  }

  lemma NotOwnedNotRun(s: State, w: Worker, key: Key, conf: Conflicts)
    requires ClaimsExact(s, conf) && w in s.running && OwnerOf(s.activeConflicts, key) != Some(w)
    ensures Filter(s.running[w], OnlyKey(conf, key)) == []
  {
    OwnerIffClaim(s.activeConflicts, key, w);
    assert !Touches(s.running[w], conf, key);
    FilterNothing(s.running[w], OnlyKey(conf, key));
  }

  lemma FinishKeepsSent(s: State, i: Worker, key: Key, conf: Conflicts)
    requires ClaimsExact(s, conf) && i in s.running
    ensures Sent(Finish(s, i), key, conf) == Sent(s, key, conf)
  {
    hide Filter, Finish, Loose, Touches;
    var r := Finish(s, i);
    var p := OnlyKey(conf, key);
    FinishIs(s, i);
    NobodyInFlight(p);
    OwnerAfterRelease(s.activeConflicts, r.activeConflicts, i, key);
    FilterAppend(s.finished, s.running[i], p);
    if OwnerOf(s.activeConflicts, key) == Some(i) {
      assert InFlight(s, key) == s.running[i] && InFlight(r, key) == [];
    } else {
      NotOwnedNotRun(s, i, key, conf);
      assert InFlight(s, key) == InFlight(r, key);
      assert Filter(r.finished, p) == Filter(s.finished, p);
    }
  }

  lemma FinishKeepsLine(s: State, i: Worker, key: Key, conf: Conflicts)
    requires Inv(s, conf) && i in s.running
    ensures Line(Finish(s, i), key, conf) == Line(s, key, conf)
  {
    FinishKeepsSent(s, i, key, conf);
    OnlyKeyWaitsForIt(s.waitingTests, s.activeConflicts, key, conf);
    FinishKeepsQueue(s, i, key, OnlyKey(conf, key));
  }

  lemma OnlyKeyWaitsForIt(waiting: map<Key, seq<Test>>, claims: seq<Claim>, key: Key, conf: Conflicts)
    requires WaitingSound(waiting, claims, conf)
    ensures WaitOnlyFor(waiting, key, OnlyKey(conf, key))
  {
  }

  lemma FinishKeepsQueue(s: State, i: Worker, key: Key, p: Test -> bool)
    requires i in s.running && WaitOnlyFor(s.waitingTests, key, p)
    ensures QueueOf(Finish(s, i).testFiles, Finish(s, i).waitingTests, key, p)
      == QueueOf(s.testFiles, s.waitingTests, key, p)
  {
    hide QueueOf;
    ReleaseKeepsQueue(s.(testsInProgress := s.testsInProgress - 1, running := s.running - {i},
                         finished := s.finished + s.running[i]), i, |s.activeConflicts|, key, p);
  }

  // ---------------------------------------------------------------- building and sending a batch keeps the line

  lemma MergeKeepsLine(s: State, key: Key, conf: Conflicts)
    requires forall t :: t in s.sequentialTests ==> IsAll(conf, t)
    requires key != ALL
    ensures Line(MergeSequential(s), key, conf) == Line(s, key, conf)
  {
    var r := MergeSequential(s);
    assert Sent(r, key, conf) == Sent(s, key, conf);
    NoneOnTop(s.testFiles, s.sequentialTests, OnlyKey(conf, key));
  }

  lemma NoneOnTop(stack: seq<Test>, top: seq<Test>, p: Test -> bool)
    requires forall t :: t in top ==> !p(t)
    ensures Filter(Reverse(stack + top), p) == Filter(Reverse(stack), p)
  {
    hide Reverse, Filter;
    FilterReverseAppend(stack, top, p);
    ReverseSameElements(top);
    assert forall t :: t in Reverse(top) ==> t in multiset(top);
    FilterNothing(Reverse(top), p);
  }

  function BatchAndQueue(b: Built, key: Key, conf: Conflicts): seq<Test> {
    Filter(b.files, OnlyKey(conf, key)) + Queue(b.testFiles, b.waitingTests, key, conf)
  }

  /** Before and after an iteration: the batch has the tests with this one key, or they are parked. */
  ghost predicate BuildingWell(b: Built, claims: seq<Claim>, key: Key, conf: Conflicts) {
    && WaitingSound(b.waitingTests, claims, conf)
    && (OwnerOf(claims, key).Some? ==> Filter(b.files, OnlyKey(conf, key)) == [])
  }

  lemma ParkKeepsQueue(stack: seq<Test>, waiting: map<Key, seq<Test>>, k: Key, key: Key, p: Test -> bool)
    requires stack != [] && (p(stack[|stack| - 1]) ==> k == key)
    ensures var n := |stack| - 1;
      QueueOf(stack[..n], Park(waiting, k, stack[n]), key, p) == QueueOf(stack, waiting, key, p)
  {
    hide Reverse, Filter;
    var n := |stack| - 1;
    var one := if p(stack[n]) then [stack[n]] else [];
    FilterPop(stack, p);
    assert Filter(WaitingFor(Park(waiting, k, stack[n]), key), p) == Filter(WaitingFor(waiting, key), p) + one by {
      FilterSnoc(WaitingFor(waiting, k), stack[n], p);
    }
    Associative(Filter(WaitingFor(waiting, key), p), one, Filter(Reverse(stack[..n]), p));
  }

  lemma PopQueue(stack: seq<Test>, waiting: map<Key, seq<Test>>, key: Key, p: Test -> bool)
    requires stack != [] && (p(stack[|stack| - 1]) ==> key !in waiting)
    ensures var n := |stack| - 1;
      QueueOf(stack, waiting, key, p) == (if p(stack[n]) then [stack[n]] else []) + QueueOf(stack[..n], waiting, key, p)
  {
    hide Reverse, Filter;
    if p(stack[|stack| - 1]) {
      NobodyWaits(waiting, key, p);
    }
    FilterPop(stack, p);
    Associative(Filter(WaitingFor(waiting, key), p), if p(stack[|stack| - 1]) then [stack[|stack| - 1]] else [],
                Filter(Reverse(stack[..|stack| - 1]), p));
  }

  lemma TakeKeepsQueue(b: Built, claims: seq<Claim>, key: Key, conf: Conflicts)
    requires BuildingWell(b, claims, key, conf) && b.testFiles != []
    requires Blocker(conf(b.testFiles[|b.testFiles| - 1]), claims).None?
    ensures BuildingWell(BuildStep(b, claims, conf), claims, key, conf)
    ensures BatchAndQueue(BuildStep(b, claims, conf), key, conf) == BatchAndQueue(b, key, conf)
  {
    var p := OnlyKey(conf, key);
    var n := |b.testFiles| - 1;
    var one := if p(b.testFiles[n]) then [b.testFiles[n]] else [];
    PopQueue(b.testFiles, b.waitingTests, key, p);
    FilterSnoc(b.files, b.testFiles[n], p);
    Associative(Filter(b.files, p), one, Queue(b.testFiles[..n], b.waitingTests, key, conf));
  }

  lemma BuildStepKeeps(b: Built, claims: seq<Claim>, key: Key, conf: Conflicts)
    requires BuildingWell(b, claims, key, conf) && b.testFiles != []
    ensures BuildingWell(BuildStep(b, claims, conf), claims, key, conf)
    ensures BatchAndQueue(BuildStep(b, claims, conf), key, conf) == BatchAndQueue(b, key, conf)
  {
    hide Filter, QueueOf;
    match Blocker(conf(b.testFiles[|b.testFiles| - 1]), claims)
    case Some(k) =>
      ParkKeepsQueue(b.testFiles, b.waitingTests, k, key, OnlyKey(conf, key));
    case None =>
      TakeKeepsQueue(b, claims, key, conf);
  }

  lemma {:induction false} BuildKeepsLine(b: Built, claims: seq<Claim>, key: Key, conf: Conflicts, size: nat)
    requires BuildingWell(b, claims, key, conf)
    ensures var r := Build(b, claims, conf, size);
      BuildingWell(r, claims, key, conf) && BatchAndQueue(r, key, conf) == BatchAndQueue(b, key, conf)
    decreases |b.testFiles|
  {
    if |b.files| <= size && b.testFiles != [] {
      BuildStepKeeps(b, claims, key, conf);
      BuildKeepsLine(BuildStep(b, claims, conf), claims, key, conf, size);
    }
  }

  lemma OwnerAfterSend(m: State, b: Built, i: Worker, key: Key, conf: Conflicts)
    requires ClaimsExact(m, conf) && Collected(m, b, conf) && i !in m.running
    ensures OwnerOf(Send(m, b, i, conf).activeConflicts, key)
      == if Touches(b.files, conf, key) then Some(i) else OwnerOf(m.activeConflicts, key)
    ensures Touches(b.files, conf, key) ==> OwnerOf(m.activeConflicts, key).None?
    ensures OwnerOf(m.activeConflicts, key) != Some(i)
  {
    var after := Send(m, b, i, conf).activeConflicts;
    ClaimFilesExactly(m.activeConflicts, b.files, i, conf);
    var w := OwnerOf(m.activeConflicts, key);
    if Touches(b.files, conf, key) {
      OwnerIffClaim(after, key, i);
    } else if w.Some? {
      OwnerIffClaim(after, key, w.value);
    } else {
      assert forall v :: Claim(key, v) in after ==> Claim(key, v) in m.activeConflicts;
    }
  }

  lemma SendKeepsSent(m: State, b: Built, i: Worker, key: Key, conf: Conflicts)
    requires ClaimsExact(m, conf) && Collected(m, b, conf) && i !in m.running
    requires OwnerOf(m.activeConflicts, key).Some? ==> Filter(b.files, OnlyKey(conf, key)) == []
    ensures Sent(Send(m, b, i, conf), key, conf) == Sent(m, key, conf) + Filter(b.files, OnlyKey(conf, key))
  {
    hide Filter, ClaimsExact, Collected, Touches, ClaimFiles;
    OwnerAfterSend(m, b, i, key, conf);
    NobodyInFlight(OnlyKey(conf, key));
    if Touches(b.files, conf, key) {
      assert InFlight(m, key) == [] && InFlight(Send(m, b, i, conf), key) == b.files;
    } else {
      NotTouchedNothing(b.files, conf, key);
      assert InFlight(Send(m, b, i, conf), key) == InFlight(m, key);
    }
  }

  lemma NobodyInFlight(p: Test -> bool)
    ensures Filter<Test>([], p) == []
  {
  }

  lemma NotTouchedNothing(files: seq<Test>, conf: Conflicts, key: Key)
    requires !Touches(files, conf, key)
    ensures Filter(files, OnlyKey(conf, key)) == []
  {
    FilterNothing(files, OnlyKey(conf, key));
  }

  lemma SendKeepsLine(m: State, b: Built, i: Worker, key: Key, conf: Conflicts)
    requires ClaimsExact(m, conf) && Collected(m, b, conf) && i !in m.running
    requires BuildingWell(b, m.activeConflicts, key, conf)
    requires BatchAndQueue(b, key, conf) == Queue(m.testFiles, m.waitingTests, key, conf)
    ensures Line(Send(m, b, i, conf), key, conf) == Line(m, key, conf)
  {
    SendKeepsSent(m, b, i, key, conf);
    Associative(Sent(m, key, conf), Filter(b.files, OnlyKey(conf, key)),
                Queue(b.testFiles, b.waitingTests, key, conf));
  }

  lemma Associative<T>(a: seq<T>, b: seq<T>, c: seq<T>)
    ensures (a + b) + c == a + (b + c)
  {
  }

  lemma EmptyBatch(stack: seq<Test>, waiting: map<Key, seq<Test>>, key: Key, conf: Conflicts)
    ensures BatchAndQueue(Built(stack, waiting, []), key, conf) == Queue(stack, waiting, key, conf)
  {
    hide Queue;
    FilterNothing<Test>([], OnlyKey(conf, key));
  }

  lemma DispatchKeepsLine(s: State, i: Worker, key: Key, conf: Conflicts, shuffle: bool)
    requires Inv(s, conf) && i in s.workerProcs && i !in s.running && key != ALL
    ensures Line(Dispatch(s, i, conf, shuffle), key, conf) == Line(s, key, conf)
  {
    hide Dispatch, Build, Queue, Sent, BatchAndQueue, ClaimsExact, WaitingSound, Collected, Loose;
    MergeKeepsLine(s, key, conf);
    var m, b := DispatchIs(s, i, conf, shuffle);
    var b0 := Built(m.testFiles, m.waitingTests, []);
    EmptyBatch(m.testFiles, m.waitingTests, key, conf);
    NothingBuilt(b0, m.activeConflicts, key, conf);
    BuildKeepsLine(b0, m.activeConflicts, key, conf, BatchSize(shuffle));
    if b.files != [] {
      SendKeepsLine(m, b, i, key, conf);
    } else {
      EmptyBatch(b.testFiles, b.waitingTests, key, conf);
      SameSent(m, Dismiss(m, b, i), key, conf);
    }
  }

  lemma NothingBuilt(b: Built, claims: seq<Claim>, key: Key, conf: Conflicts)
    requires b.files == [] && WaitingSound(b.waitingTests, claims, conf)
    ensures BuildingWell(b, claims, key, conf)
  {
    hide WaitingSound;
    FilterNothing<Test>([], OnlyKey(conf, key));
  }

  lemma SameSent(s: State, r: State, key: Key, conf: Conflicts)
    requires s.finished == r.finished && s.activeConflicts == r.activeConflicts && s.running == r.running
    ensures Sent(s, key, conf) == Sent(r, key, conf)
  {
    hide Filter;
  }

  lemma {:induction false} RunKeepsLine(s: State, ms: seq<Message>, key: Key, conf: Conflicts, shuffle: bool)
    requires Inv(s, conf) && Possible(s, ms, conf, shuffle) && key != ALL
    ensures Line(Run(s, ms, conf, shuffle), key, conf) == Line(s, key, conf)
    decreases |ms|
  {
    if ms != [] {
      var m := ms[0];
      HandleKeeps(s, m, conf, shuffle);
      if m.TestsFinished? {
        FinishKeeps(s, m.worker, conf);
        FinishKeepsLine(s, m.worker, key, conf);
        DispatchKeepsLine(Finish(s, m.worker), m.worker, key, conf, shuffle);
      } else {
        DispatchKeepsLine(s, m.worker, key, conf, shuffle);
      }
      RunKeepsLine(Handle(s, m, conf, shuffle), ms[1..], key, conf, shuffle);
    }
  }

  // ---------------------------------------------------------------- the order of tests with one key

  lemma {:induction false} FilterTwice<T>(s: seq<T>, p: T -> bool, q: T -> bool)
    requires forall t :: t in s && p(t) ==> q(t)
    ensures Filter(Filter(s, q), p) == Filter(s, p)
  {
    if s != [] {
      FilterTwice(s[1..], p, q);
      FilterAppend(if q(s[0]) then [s[0]] else [], Filter(s[1..], q), p);
    }
  }

  /** Without shuffling, the tests whose one conflict key is `key` are run in the order they were listed,
      whatever is parked and returned in between. */
  lemma SingleKeyOrderKept(r: State, tests: seq<Test>, workers: set<Worker>, conf: Conflicts, key: Key)
    requires Reachable(r, tests, workers, conf, false) && key != "all"
    ensures Sent(r, key, conf) <= Filter(tests, OnlyKey(conf, key))
    ensures !MoreToDo(r) ==> Filter(r.finished, OnlyKey(conf, key)) == Filter(tests, OnlyKey(conf, key))
  {
    hide Filter, Inv, Run, MoreToDo, Line, Sent;
    var s, ms :| Initial(s, tests, workers, conf, false) && RunsTo(s, ms, r, conf, false);
    InitialKeeps(s, tests, workers, conf, false);
    RunKeepsLine(s, ms, key, conf, false);
    InitialLine(s, tests, workers, conf, key);
    SentOfLine(r, key, conf);
    if !MoreToDo(r) {
      ReachableKeeps(r, tests, workers, conf, false);
      LineAtTheEnd(r, key, conf);
    }
  }

  lemma InitialLine(s: State, tests: seq<Test>, workers: set<Worker>, conf: Conflicts, key: Key)
    requires Initial(s, tests, workers, conf, false) && key != ALL
    ensures Line(s, key, conf) == Filter(tests, OnlyKey(conf, key))
  {
    hide Filter, Reverse;
    var p := OnlyKey(conf, key);
    ReverseInvolutive(Ordinary(tests, conf));
    FilterTwice(tests, p, (t: Test) => !IsAll(conf, t));
    NobodyInFlight(p);
    assert Line(s, key, conf) == [] + [] + ([] + Filter(Ordinary(tests, conf), p));
  }

  lemma SentOfLine(r: State, key: Key, conf: Conflicts)
    ensures Sent(r, key, conf) <= Line(r, key, conf)
  {
    hide Sent, Queue;
  }

  lemma LineAtTheEnd(r: State, key: Key, conf: Conflicts)
    requires Inv(r, conf) && !MoreToDo(r)
    ensures Line(r, key, conf) == Filter(r.finished, OnlyKey(conf, key))
  {
    hide Filter;
    assert r.running == map[];
    NoClaimsNobodyWaits(r, conf);
    NobodyInFlight(OnlyKey(conf, key));
    assert Reverse(r.testFiles) == [];
  }

  // ---------------------------------------------------------------- batches, and tests with several keys

  /** The tests without a key that somebody owns. */
  function Unblocked(claims: seq<Claim>, conf: Conflicts): Test -> bool {
    (t: Test) => Blocker(conf(t), claims).None?
  }

  /** A batch is what comes first, in pop order, of the stacked tests without an owned key: one more than the
      batch size if there are that many. */
  lemma {:induction false} BatchIs(b: Built, claims: seq<Claim>, conf: Conflicts, size: nat)
    requires |b.files| <= size + 1
    ensures var f := Filter(Reverse(b.testFiles), Unblocked(claims, conf)); var room := size + 1 - |b.files|;
      Build(b, claims, conf, size).files == b.files + f[..if |f| < room then |f| else room]
    decreases |b.testFiles|
  {
    hide Filter, Reverse;
    if b.testFiles == [] {
      NothingStacked(b.testFiles, Unblocked(claims, conf));
    } else if |b.files| <= size {
      BatchIs(BuildStep(b, claims, conf), claims, conf, size);
      FilterPop(b.testFiles, Unblocked(claims, conf));
    }
  }

  lemma NothingStacked(stack: seq<Test>, p: Test -> bool)
    requires stack == []
    ensures Filter(Reverse(stack), p) == []
  {
  }

  /** A batch holds more than the batch size exactly when more stacked tests than that have no owned key, and then
      it holds one more. */
  lemma BatchBounded(b: Built, claims: seq<Claim>, conf: Conflicts, size: nat)
    requires |b.files| <= size + 1
    ensures var r := Build(b, claims, conf, size); var f := Filter(Reverse(b.testFiles), Unblocked(claims, conf));
      && b.files <= r.files && |r.files| <= size + 1
      && (|r.files| > size <==> |b.files| + |f| > size)
  {
    hide Filter, Reverse, Build;
    BatchIs(b, claims, conf, size);
  }

  /** The tests without a key that anybody owns. */
  function Free(claims: seq<Claim>, conf: Conflicts): Test -> bool {
    (t: Test) => forall c :: c in claims ==> c.key !in conf(t)
  }

  lemma FreeIsUnblocked(claims: seq<Claim>, conf: Conflicts, t: Test)
    ensures Free(claims, conf)(t) <==> Unblocked(claims, conf)(t)
  {
    var b := Blocker(conf(t), claims);
    if b.Some? {
      assert Claim(b.value, OwnerOf(claims, b.value).value) in claims;
    }
  }

  /** What a worker that is ready gets: the first 33 tests, or 5 when shuffling, of those stacked that are free, in the order
      they are popped. The only worker left also gets at the tests that were set aside. Without a test it is dismissed. */
  lemma SentIs(s: State, i: Worker, conf: Conflicts, shuffle: bool)
    ensures var r := Dispatch(s, i, conf, shuffle);
      var stack := s.testFiles + if |s.workerProcs| == 1 then s.sequentialTests else [];
      var f := Filter(Reverse(stack), Free(s.activeConflicts, conf));
      var most := if shuffle then 5 else 33;
      if f == [] then r.running == s.running && r.workerProcs == s.workerProcs - {i}
      else r.running == s.running[i := f[..if |f| < most then |f| else most]] && r.workerProcs == s.workerProcs
  {
    hide Filter, Reverse, Build, ClaimFiles, Free, Unblocked;
    var m := MergeSequential(s);
    var stack := s.testFiles + if |s.workerProcs| == 1 then s.sequentialTests else [];
    assert m.testFiles == stack;
    forall t | t in Reverse(stack)
      ensures Free(s.activeConflicts, conf)(t) == Unblocked(s.activeConflicts, conf)(t)
    {
      FreeIsUnblocked(s.activeConflicts, conf, t);
    }
    FilterSame(Reverse(stack), Free(s.activeConflicts, conf), Unblocked(s.activeConflicts, conf));
    var b0 := Built(m.testFiles, m.waitingTests, []);
    BatchIs(b0, m.activeConflicts, conf, BatchSize(shuffle));
    var f := Filter(Reverse(stack), Free(s.activeConflicts, conf));
    var files := Build(b0, m.activeConflicts, conf, BatchSize(shuffle)).files;
    var most := if shuffle then 5 else 33;
    assert files == f[..if |f| < most then |f| else most];
  }

  lemma PopReversed(stack: seq<Test>, files: seq<Test>, n: nat)
    requires 0 < n <= |stack|
    ensures var m := |stack|;
      && stack[..m - 1][..m - n] == stack[..m - n]
      && files + Reverse(stack[m - n..]) == files + [stack[m - 1]] + Reverse(stack[..m - 1][m - n..])
  {
    var m := |stack|;
    assert stack[m - n..] == stack[..m - 1][m - n..] + [stack[m - 1]];
    ReverseAppend(stack[..m - 1][m - n..], [stack[m - 1]]);
    assert Reverse([stack[m - 1]]) == [stack[m - 1]];
  }

  /** A test on top without an owned key goes into the batch. */
  lemma BuildTakes(stack: seq<Test>, waiting: map<Key, seq<Test>>, files: seq<Test>, claims: seq<Claim>,
                   conf: Conflicts, size: nat)
    requires stack != [] && |files| <= size && Unblocked(claims, conf)(stack[|stack| - 1])
    ensures var n := |stack| - 1;
      Build(Built(stack, waiting, files), claims, conf, size)
      == Build(Built(stack[..n], waiting, files + [stack[n]]), claims, conf, size)
  {
  }

  /** A test on top with an owned key is parked on the first of them. */
  lemma BuildParks(stack: seq<Test>, waiting: map<Key, seq<Test>>, files: seq<Test>, claims: seq<Claim>,
                   conf: Conflicts, size: nat, key: Key)
    requires stack != [] && |files| <= size && Blocker(conf(stack[|stack| - 1]), claims) == Some(key)
    ensures var n := |stack| - 1;
      Build(Built(stack, waiting, files), claims, conf, size)
      == Build(Built(stack[..n], Park(waiting, key, stack[n]), files), claims, conf, size)
  {
  }

  lemma BuildEnds(stack: seq<Test>, waiting: map<Key, seq<Test>>, files: seq<Test>, claims: seq<Claim>,
                  conf: Conflicts, size: nat)
    requires stack == [] || |files| > size
    ensures Build(Built(stack, waiting, files), claims, conf, size) == Built(stack, waiting, files)
  {
  }

  /** When the tests on top have no owned key, the batch is the top of the stack, and the rest stays. */
  lemma {:induction false} BatchTakesTop(stack: seq<Test>, waiting: map<Key, seq<Test>>, files: seq<Test>,
                                         claims: seq<Claim>, conf: Conflicts, size: nat, n: nat)
    requires n <= |stack| && |files| + n == size + 1
    requires forall t :: t in stack[|stack| - n..] ==> Unblocked(claims, conf)(t)
    ensures Build(Built(stack, waiting, files), claims, conf, size)
      == Built(stack[..|stack| - n], waiting, files + Reverse(stack[|stack| - n..]))
    decreases n
  {
    hide Build, Unblocked;
    var m := |stack|;
    if n == 0 {
      BuildEnds(stack, waiting, files, claims, conf, size);
      assert stack[..m - n] == stack;
      assert stack[m - n..] == [] && files + Reverse(stack[m - n..]) == files;
    } else {
      assert stack[m - n..] == stack[..m - 1][m - n..] + [stack[m - 1]];
      BuildTakes(stack, waiting, files, claims, conf, size);
      BatchTakesTop(stack[..m - 1], waiting, files + [stack[m - 1]], claims, conf, size, n - 1);
      PopReversed(stack, files, n);
    }
  }
}
