/** The master of the parallel test runner: one message from a worker is one step. The state is the
    master's bookkeeping plus, for each worker, the batch it was last sent. */
module Scheduler {
  import opened Collections

  /** A test file name. Both popping loops of the master stop at a falsy value, so the two falsy
      strings are not test names. */
  type Test = t: string | t != "" && t != "0" witness "a"
  type Key = string
  type Worker = nat
  /** The conflict keys of a test, in the order they are listed. */
  type Conflicts = Test -> seq<Key>

  /** One entry of the insertion-ordered map from conflict key to owning worker. */
  datatype Claim = Claim(key: Key, worker: Worker)

  datatype Message = Ready(worker: Worker) | TestsFinished(worker: Worker)

  datatype State = State(
    testFiles: seq<Test>,               // a stack: the last element is popped first
    sequentialTests: seq<Test>,
    activeConflicts: seq<Claim>,
    waitingTests: map<Key, seq<Test>>,
    testsInProgress: int,
    workerProcs: set<Worker>,
    running: map<Worker, seq<Test>>,    // what each busy worker was sent
    finished: seq<Test>)                // what the workers have reported, in order

  const ALL: Key := "all"

  function BatchSize(shuffle: bool): nat {
    if shuffle then 4 else 32
  }

  // ---------------------------------------------------------------- the insertion-ordered claim map

  function OwnerOf(claims: seq<Claim>, key: Key): (r: Option<Worker>)
    ensures r.Some? ==> Claim(key, r.value) in claims
    ensures r.None? ==> forall c :: c in claims ==> c.key != key
  {
    if claims == [] then None
    else if claims[0].key == key then Some(claims[0].worker)
    else OwnerOf(claims[1..], key)
  }

  function Assign(claims: seq<Claim>, key: Key, worker: Worker): seq<Claim> {
    if claims == [] then [Claim(key, worker)]
    else if claims[0].key == key then [Claim(key, worker)] + claims[1..]
    else [claims[0]] + Assign(claims[1..], key, worker)
  }

  function Unset(claims: seq<Claim>, key: Key): seq<Claim> {
    if claims == [] then []
    else if claims[0].key == key then claims[1..]
    else [claims[0]] + Unset(claims[1..], key)
  }

  ghost predicate OneOwnerPerKey(claims: seq<Claim>) {
    forall i, j :: 0 <= i < j < |claims| ==> claims[i].key != claims[j].key
  }

  lemma {:induction false} AssignKeepsOneOwner(claims: seq<Claim>, key: Key, worker: Worker)
    requires OneOwnerPerKey(claims)
    ensures OneOwnerPerKey(Assign(claims, key, worker))
    ensures forall c :: c in Assign(claims, key, worker) <==>
      c == Claim(key, worker) || (c in claims && c.key != key)
  {
    if claims != [] && claims[0].key != key {
      assert forall c :: c in claims <==> c == claims[0] || c in claims[1..];
      AssignKeepsOneOwner(claims[1..], key, worker);
      var rest := Assign(claims[1..], key, worker);
      assert forall c :: c in rest ==> c.key != claims[0].key;
    }
  }

  lemma {:induction false} UnsetInPlace(before: seq<Claim>, c: Claim, after: seq<Claim>)
    requires forall b :: b in before ==> b.key != c.key
    ensures Unset(before + [c] + after, c.key) == before + after
  {
    var all := before + [c] + after;
    if before == [] {
      assert all[1..] == after;
    } else {
      assert all[0] == before[0];
      assert all[1..] == before[1..] + [c] + after;
      UnsetInPlace(before[1..], c, after);
    }
  }

  // ---------------------------------------------------------------- one message

  function Park(waiting: map<Key, seq<Test>>, key: Key, test: Test): map<Key, seq<Test>> {
    waiting[key := (if key in waiting then waiting[key] else []) + [test]]
  }

  /** The first `n` iterations of the loop that gives up the claims of worker `i`. In the result
      `activeConflicts` holds the claims among those `n` that are kept. */
  function ReleaseUpTo(s: State, i: Worker, n: nat): State
    requires n <= |s.activeConflicts|
  {
    if n == 0 then s.(activeConflicts := []) else
    var r := ReleaseUpTo(s, i, n - 1);
    var c := s.activeConflicts[n - 1];
    if c.worker != i then r.(activeConflicts := r.activeConflicts + [c])
    else if c.key in r.waitingTests then
      r.(testFiles := r.testFiles + Reverse(r.waitingTests[c.key]), waitingTests := r.waitingTests - {c.key})
    else r
  }

  function Release(s: State, i: Worker): State {
    ReleaseUpTo(s, i, |s.activeConflicts|)
  }

  /** The first listed conflict key of a test that somebody owns. */
  function Blocker(keys: seq<Key>, claims: seq<Claim>): (r: Option<Key>)
    ensures r.Some? ==> r.value in keys && OwnerOf(claims, r.value).Some?
    ensures r.None? ==> forall k :: k in keys ==> OwnerOf(claims, k).None?
  {
    if keys == [] then None
    else if OwnerOf(claims, keys[0]).Some? then Some(keys[0])
    else Blocker(keys[1..], claims)
  }

  datatype Built = Built(testFiles: seq<Test>, waitingTests: map<Key, seq<Test>>, files: seq<Test>)

  /** The batch-building loop, from any intermediate point. */
  function Build(b: Built, claims: seq<Claim>, conf: Conflicts, batchSize: nat): Built
    decreases |b.testFiles|
  {
    if |b.files| > batchSize || b.testFiles == [] then b else
    var n := |b.testFiles| - 1;
    var file := b.testFiles[n];
    match Blocker(conf(file), claims)
    case Some(key) => Build(Built(b.testFiles[..n], Park(b.waitingTests, key, file), b.files), claims, conf, batchSize)
    case None => Build(Built(b.testFiles[..n], b.waitingTests, b.files + [file]), claims, conf, batchSize)
  }

  function ClaimKeys(claims: seq<Claim>, keys: seq<Key>, i: Worker): seq<Claim> {
    if keys == [] then claims
    else Assign(ClaimKeys(claims, keys[..|keys| - 1], i), keys[|keys| - 1], i)
  }

  function ClaimFiles(claims: seq<Claim>, files: seq<Test>, i: Worker, conf: Conflicts): seq<Claim> {
    if files == [] then claims
    else ClaimKeys(ClaimFiles(claims, files[..|files| - 1], i, conf), conf(files[|files| - 1]), i)
  }

  /** What the `tests_finished` case does before it falls through. */
  function Finish(s: State, i: Worker): State
    requires i in s.running
  {
    Release(s.(testsInProgress := s.testsInProgress - 1,
               running := s.running - {i},
               finished := s.finished + s.running[i]), i)
  }

  function MergeSequential(s: State): State {
    if |s.workerProcs| == 1 && s.sequentialTests != [] then
      s.(testFiles := s.testFiles + s.sequentialTests, sequentialTests := [])
    else s
  }

  /** What the `ready` case does: send worker `i` a batch, or terminate it. */
  function Dispatch(s: State, i: Worker, conf: Conflicts, shuffle: bool): State {
    var s := MergeSequential(s);
    var b := Build(Built(s.testFiles, s.waitingTests, []), s.activeConflicts, conf, BatchSize(shuffle));
    var s := s.(testFiles := b.testFiles, waitingTests := b.waitingTests);
    if b.files != [] then
      s.(activeConflicts := ClaimFiles(s.activeConflicts, b.files, i, conf),
         testsInProgress := s.testsInProgress + 1,
         running := s.running[i := b.files])
    else s.(workerProcs := s.workerProcs - {i})
  }

  /** A worker sends `ready` once, before it is sent anything, and `tests_finished` after each batch. */
  predicate Enabled(s: State, m: Message) {
    m.worker in s.workerProcs && (m.TestsFinished? <==> m.worker in s.running)
  }

  function Handle(s: State, m: Message, conf: Conflicts, shuffle: bool): State
    requires Enabled(s, m)
  {
    Dispatch(if m.TestsFinished? then Finish(s, m.worker) else s, m.worker, conf, shuffle)
  }

  /** The condition of the main loop. */
  predicate MoreToDo(s: State) {
    s.testFiles != [] || s.sequentialTests != [] || s.testsInProgress > 0
  }

  predicate IsAll(conf: Conflicts, t: Test) {
    ALL in conf(t)
  }

  function Ordinary(tests: seq<Test>, conf: Conflicts): seq<Test> {
    Filter(tests, (t: Test) => !IsAll(conf, t))
  }

  function Sequential(tests: seq<Test>, conf: Conflicts): seq<Test> {
    Filter(tests, (t: Test) => IsAll(conf, t))
  }

  /** The state when the main loop is entered. `order` is the reversed list of the remaining tests, or
      any permutation of it when shuffling. */
  predicate Initial(s: State, tests: seq<Test>, workers: set<Worker>, conf: Conflicts, shuffle: bool) {
    && workers != {}
    && (if shuffle then multiset(s.testFiles) == multiset(Ordinary(tests, conf))
        else s.testFiles == Reverse(Ordinary(tests, conf)))
    && s.sequentialTests == Sequential(tests, conf)
    && s.activeConflicts == [] && s.waitingTests == map[] && s.testsInProgress == 0
    && s.workerProcs == workers && s.running == map[] && s.finished == []
  }

  /** Any sequence of messages, each one possible when it arrives. */
  predicate Possible(s: State, ms: seq<Message>, conf: Conflicts, shuffle: bool)
    decreases |ms|
  {
    ms != [] ==> Enabled(s, ms[0]) && Possible(Handle(s, ms[0], conf, shuffle), ms[1..], conf, shuffle)
  }

  function Run(s: State, ms: seq<Message>, conf: Conflicts, shuffle: bool): State
    requires Possible(s, ms, conf, shuffle)
    decreases |ms|
  {
    if ms == [] then s else Run(Handle(s, ms[0], conf, shuffle), ms[1..], conf, shuffle)
  }
}
