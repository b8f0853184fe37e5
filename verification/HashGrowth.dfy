/** What a put does to the slots of a table, growing included: when it succeeds, why it fails, and what is then lost. */
module HashGrowth {
  import opened Collections
  import opened HashTable

  // ---------------------------------------------------------------- the slot for a key

  /** From the `i`-th probed slot on, the first that holds the key. */
  function FirstHeld(slots: seq<Slot>, start: nat, key: Key, i: nat): (r: Option<nat>)
    requires slots != [] && i <= MAX_CHAIN_LENGTH
    ensures r.Some? ==> r.value < |slots| && Holds(slots, r.value, key)
    decreases MAX_CHAIN_LENGTH - i
  {
    if i == MAX_CHAIN_LENGTH then None
    else if Holds(slots, Probe(start, i, |slots|), key) then Some(Probe(start, i, |slots|))
    else FirstHeld(slots, start, key, i + 1)
  }

  /** From the `i`-th probed slot on, the first that is free. */
  function FirstFree(slots: seq<Slot>, start: nat, i: nat): (r: Option<nat>)
    requires slots != [] && i <= MAX_CHAIN_LENGTH
    ensures r.Some? ==> r.value < |slots| && !slots[r.value].inUse
    decreases MAX_CHAIN_LENGTH - i
  {
    if i == MAX_CHAIN_LENGTH then None
    else if !slots[Probe(start, i, |slots|)].inUse then Some(Probe(start, i, |slots|))
    else FirstFree(slots, start, i + 1)
  }

  /** Where a key goes without growing: never in a full table, even if it is there. */
  function SlotFor(slots: seq<Slot>, hash: Hash, key: Key): (r: Option<nat>)
    requires slots != []
    ensures r.Some? ==> r.value < |slots|
  {
    var start := hash(key) % |slots|;
    if InUse(slots) >= |slots| then None
    else if FirstHeld(slots, start, key, 0).Some? then FirstHeld(slots, start, key, 0)
    else FirstFree(slots, start, 0)
  }

  // ---------------------------------------------------------------- put, rehash and move

  datatype Outcome = Done | NoMemory | TooLarge

  /** The slots afterwards, and how many allocations are left. */
  datatype Grown = Grown(outcome: Outcome, slots: seq<Slot>, memory: nat)

  /** A size for which there is a table. */
  predicate TableSize(n: nat) {
    0 < n < WORD && PowerOfTwo(n)
  }

  function Blanks(n: nat): seq<Slot> {
    seq(n, _ => BLANK)
  }

  /** `memory` is the number of allocations that still succeed. */
  function PutSlots(slots: seq<Slot>, hash: Hash, key: Key, value: Pointer, memory: nat): (r: Grown)
    requires TableSize(|slots|)
    ensures TableSize(|r.slots|) && |slots| <= |r.slots| && r.memory <= memory
    ensures r.outcome.NoMemory? ==> r.memory == 0
    decreases WORD - |slots|, 0, 1
  {
    match SlotFor(slots, hash, key)
    case Some(i) => Grown(Done, slots[i := Slot(key, true, value)], memory)
    case None =>
      var r := RehashSlots(slots, hash, memory);
      if r.outcome.Done? then PutSlots(r.slots, hash, key, value, r.memory) else r
  }

  function RehashSlots(slots: seq<Slot>, hash: Hash, memory: nat): (r: Grown)
    requires TableSize(|slots|)
    ensures TableSize(|r.slots|)
    ensures if r.outcome.Done? then 2 * |slots| <= |r.slots| && r.memory < memory
            else |r.slots| == |slots| && r.memory <= memory
    ensures r.outcome.NoMemory? ==> r.memory == 0
    decreases WORD - |slots|, 0, 0
  {
    var newSize := 2 * |slots| % WORD;
    if !TableSize(newSize) then Grown(TooLarge, slots, memory)
    else if memory == 0 then Grown(NoMemory, slots, memory)
    else
      Doubled(|slots|);
      MoveSlots(slots, 0, Blanks(newSize), hash, memory - 1)
  }

  /** Moves the entries from slot `i` on to the table `target`; what is moved is cleared. */
  function MoveSlots(slots: seq<Slot>, i: nat, target: seq<Slot>, hash: Hash, memory: nat): (r: Grown)
    requires TableSize(|slots|) && i <= |slots| < |target| && TableSize(|target|)
    ensures TableSize(|r.slots|) && r.memory <= memory
    ensures if r.outcome.Done? then |target| <= |r.slots| else |r.slots| == |slots|
    ensures r.outcome.NoMemory? ==> r.memory == 0
    decreases WORD - |target|, 1, |slots| - i
  {
    if i == |slots| then Grown(Done, target, memory)
    else if !slots[i].inUse then MoveSlots(slots, i + 1, target, hash, memory)
    else
      var p := PutSlots(target, hash, slots[i].key, slots[i].data, memory);
      if p.outcome.Done? then MoveSlots(slots[i := BLANK], i + 1, p.slots, hash, p.memory)
      else Grown(p.outcome, slots, p.memory)
  }

  /** Doubling overflows exactly at the largest power of two, and then creation fails. */
  lemma Doubled(n: nat)
    requires PowerOfTwo(n) && n < WORD
    ensures PowerOfTwo(2 * n % WORD) <==> 2 * n < WORD
    ensures 2 * n < WORD ==> 2 * n % WORD == 2 * n
    ensures 2 * n >= WORD ==> 2 * n == WORD
  {
    HighBitIsPower();
    if n > WORD / 2 {
      PowersApart(WORD / 2, n);
    } else if n < WORD / 2 {
      PowersApart(n, WORD / 2);
      Twofold(n);
    }
  }

  lemma {:induction false} PowersApart(a: nat, b: nat)
    requires PowerOfTwo(a) && PowerOfTwo(b) && a < b
    ensures 2 * a <= b
  {
    if a > 1 {
      PowersApart(a / 2, b / 2);
    }
  }

  lemma PutStores(slots: seq<Slot>, hash: Hash, key: Key, value: Pointer, memory: nat)
    requires TableSize(|slots|) && SlotFor(slots, hash, key).Some?
    ensures PutSlots(slots, hash, key, value, memory)
      == Grown(Done, slots[SlotFor(slots, hash, key).value := Slot(key, true, value)], memory)
  {
    hide RehashSlots, SlotFor;
  }

  lemma PutGrows(slots: seq<Slot>, hash: Hash, key: Key, value: Pointer, memory: nat)
    requires TableSize(|slots|) && SlotFor(slots, hash, key).None?
    ensures var r := RehashSlots(slots, hash, memory);
      PutSlots(slots, hash, key, value, memory)
      == if r.outcome.Done? then PutSlots(r.slots, hash, key, value, r.memory) else r
  {
    hide RehashSlots, SlotFor;
  }

  lemma MoveStep(slots: seq<Slot>, i: nat, target: seq<Slot>, hash: Hash, memory: nat)
    requires TableSize(|slots|) && i < |slots| < |target| && TableSize(|target|)
    ensures var p := PutSlots(target, hash, slots[i].key, slots[i].data, memory);
      MoveSlots(slots, i, target, hash, memory)
      == if !slots[i].inUse then MoveSlots(slots, i + 1, target, hash, memory)
         else if p.outcome.Done? then MoveSlots(slots[i := BLANK], i + 1, p.slots, hash, p.memory)
         else Grown(p.outcome, slots, p.memory)
  {
    hide PutSlots;
  }

  lemma MoveEnds(slots: seq<Slot>, target: seq<Slot>, hash: Hash, memory: nat)
    requires TableSize(|slots|) && |slots| < |target| && TableSize(|target|)
    ensures MoveSlots(slots, |slots|, target, hash, memory) == Grown(Done, target, memory)
  {
  }

  // ---------------------------------------------------------------- success

  /** A put succeeds without an allocation exactly when there is a slot for the key. */
  lemma AtOnceExactly(slots: seq<Slot>, hash: Hash, key: Key, value: Pointer, memory: nat)
    requires TableSize(|slots|)
    ensures var r := PutSlots(slots, hash, key, value, memory);
      r.outcome.Done? && r.memory == memory <==> SlotFor(slots, hash, key).Some?
  {
    hide PutSlots, RehashSlots, SlotFor;
    if SlotFor(slots, hash, key).Some? {
      PutStores(slots, hash, key, value, memory);
    } else {
      PutGrows(slots, hash, key, value, memory);
    }
  }

  /** What succeeds with some memory succeeds in the same way with more. */
  lemma {:induction false} MoreMemoryPuts(slots: seq<Slot>, hash: Hash, key: Key, value: Pointer, memory: nat, spare: nat)
    requires TableSize(|slots|)
    requires PutSlots(slots, hash, key, value, memory).outcome.Done?
    ensures var r := PutSlots(slots, hash, key, value, memory);
      PutSlots(slots, hash, key, value, memory + spare) == r.(memory := r.memory + spare)
    decreases WORD - |slots|, 0, 1
  {
    hide PutSlots, RehashSlots, SlotFor;
    if SlotFor(slots, hash, key).Some? {
      PutStores(slots, hash, key, value, memory);
      PutStores(slots, hash, key, value, memory + spare);
    } else {
      PutGrows(slots, hash, key, value, memory);
      PutGrows(slots, hash, key, value, memory + spare);
      MoreMemoryRehashes(slots, hash, memory, spare);
      var r := RehashSlots(slots, hash, memory);
      MoreMemoryPuts(r.slots, hash, key, value, r.memory, spare);
    }
  }

  lemma {:induction false} MoreMemoryRehashes(slots: seq<Slot>, hash: Hash, memory: nat, spare: nat)
    requires TableSize(|slots|) && RehashSlots(slots, hash, memory).outcome.Done?
    ensures var r := RehashSlots(slots, hash, memory);
      RehashSlots(slots, hash, memory + spare) == r.(memory := r.memory + spare)
    decreases WORD - |slots|, 0, 0
  {
    hide MoveSlots, PowerOfTwo;
    Doubled(|slots|);
    MoreMemoryMoves(slots, 0, Blanks(2 * |slots|), hash, memory - 1, spare);
  }

  lemma {:induction false} MoreMemoryMoves(slots: seq<Slot>, i: nat, target: seq<Slot>, hash: Hash, memory: nat, spare: nat)
    requires TableSize(|slots|) && i <= |slots| < |target| && TableSize(|target|)
    requires MoveSlots(slots, i, target, hash, memory).outcome.Done?
    ensures var r := MoveSlots(slots, i, target, hash, memory);
      MoveSlots(slots, i, target, hash, memory + spare) == r.(memory := r.memory + spare)
    decreases WORD - |target|, 1, |slots| - i
  {
    hide MoveSlots, PutSlots, PowerOfTwo;
    if i == |slots| {
      MoveEnds(slots, target, hash, memory);
      MoveEnds(slots, target, hash, memory + spare);
    } else {
      MoveStep(slots, i, target, hash, memory);
      MoveStep(slots, i, target, hash, memory + spare);
      if slots[i].inUse {
        MoreMemoryPuts(target, hash, slots[i].key, slots[i].data, memory, spare);
        var p := PutSlots(target, hash, slots[i].key, slots[i].data, memory);
        MoreMemoryMoves(slots[i := BLANK], i + 1, p.slots, hash, p.memory, spare);
      } else {
        MoreMemoryMoves(slots, i + 1, target, hash, memory, spare);
      }
    }
  }

  /** What succeeds and leaves memory succeeds in the same way without it. */
  lemma {:induction false} LessMemoryPuts(slots: seq<Slot>, hash: Hash, key: Key, value: Pointer, memory: nat, spare: nat)
    requires TableSize(|slots|)
    requires var r := PutSlots(slots, hash, key, value, memory + spare); r.outcome.Done? && r.memory >= spare
    ensures var r := PutSlots(slots, hash, key, value, memory + spare);
      PutSlots(slots, hash, key, value, memory) == r.(memory := r.memory - spare)
    decreases WORD - |slots|, 0, 1
  {
    hide PutSlots, RehashSlots, SlotFor;
    if SlotFor(slots, hash, key).Some? {
      PutStores(slots, hash, key, value, memory);
      PutStores(slots, hash, key, value, memory + spare);
    } else {
      PutGrows(slots, hash, key, value, memory);
      PutGrows(slots, hash, key, value, memory + spare);
      LessMemoryRehashes(slots, hash, memory, spare);
      var r := RehashSlots(slots, hash, memory + spare);
      LessMemoryPuts(r.slots, hash, key, value, r.memory - spare, spare);
    }
  }

  lemma {:induction false} LessMemoryRehashes(slots: seq<Slot>, hash: Hash, memory: nat, spare: nat)
    requires TableSize(|slots|)
    requires var r := RehashSlots(slots, hash, memory + spare); r.outcome.Done? && r.memory >= spare
    ensures var r := RehashSlots(slots, hash, memory + spare);
      RehashSlots(slots, hash, memory) == r.(memory := r.memory - spare)
    decreases WORD - |slots|, 0, 0
  {
    hide MoveSlots, PowerOfTwo;
    Doubled(|slots|);
    LessMemoryMoves(slots, 0, Blanks(2 * |slots|), hash, memory - 1, spare);
  }

  lemma {:induction false} LessMemoryMoves(slots: seq<Slot>, i: nat, target: seq<Slot>, hash: Hash, memory: nat, spare: nat)
    requires TableSize(|slots|) && i <= |slots| < |target| && TableSize(|target|)
    requires var r := MoveSlots(slots, i, target, hash, memory + spare); r.outcome.Done? && r.memory >= spare
    ensures var r := MoveSlots(slots, i, target, hash, memory + spare);
      MoveSlots(slots, i, target, hash, memory) == r.(memory := r.memory - spare)
    decreases WORD - |target|, 1, |slots| - i
  {
    hide MoveSlots, PutSlots, PowerOfTwo;
    if i == |slots| {
      MoveEnds(slots, target, hash, memory);
      MoveEnds(slots, target, hash, memory + spare);
    } else {
      MoveStep(slots, i, target, hash, memory);
      MoveStep(slots, i, target, hash, memory + spare);
      if slots[i].inUse {
        LessMemoryPuts(target, hash, slots[i].key, slots[i].data, memory, spare);
        var p := PutSlots(target, hash, slots[i].key, slots[i].data, memory + spare);
        LessMemoryMoves(slots[i := BLANK], i + 1, p.slots, hash, p.memory - spare, spare);
      } else {
        LessMemoryMoves(slots, i + 1, target, hash, memory, spare);
      }
    }
  }

  /** A put that succeeds with some memory succeeds with `other` memory exactly when that is at least what was used; it
      then leaves the rest and makes the same table. */
  lemma MemoryNeeded(slots: seq<Slot>, hash: Hash, key: Key, value: Pointer, memory: nat, other: nat)
    requires TableSize(|slots|) && PutSlots(slots, hash, key, value, memory).outcome.Done?
    ensures var r := PutSlots(slots, hash, key, value, memory);
      var needed := memory - r.memory;
      && (PutSlots(slots, hash, key, value, other).outcome.Done? <==> other >= needed)
      && (other >= needed ==> PutSlots(slots, hash, key, value, other) == r.(memory := other - needed))
  {
    hide PutSlots;
    var r := PutSlots(slots, hash, key, value, memory);
    if other >= memory {
      MoreMemoryPuts(slots, hash, key, value, memory, other - memory);
    } else {
      var spare: nat := memory - other;
      if spare <= r.memory {
        LessMemoryPuts(slots, hash, key, value, other, spare);
      } else if PutSlots(slots, hash, key, value, other).outcome.Done? {
        MoreMemoryPuts(slots, hash, key, value, other, spare);
      }
    }
  }

  // ---------------------------------------------------------------- few entries

  lemma ProbesDiffer(start: nat, i: nat, j: nat, n: nat)
    requires i < j < i + n
    ensures Probe(start, i, n) != Probe(start, j, n)
  {
    var a, b := start + i, start + j;
    assert a == a / n * n + a % n && b == b / n * n + b % n;
    Difference(b / n, a / n, n);
    MultipleIsFar(b / n - a / n, n);
  }

  lemma Difference(p: int, q: int, n: int)
    ensures p * n - q * n == (p - q) * n
  {
  }

  /** Probed slots are different ones: as many as are in use are counted. */
  lemma {:induction false} ProbedAreCounted(slots: seq<Slot>, start: nat, k: nat)
    requires slots != [] && k <= |slots|
    requires forall i: nat :: i < k ==> slots[Probe(start, i, |slots|)].inUse
    ensures InUse(slots) >= k
    decreases k
  {
    hide InUse, Probe;
    if k > 0 {
      var p := Probe(start, k - 1, |slots|);
      InUseUpdate(slots, p, BLANK);
      forall i: nat | i < k - 1
        ensures Probe(start, i, |slots|) != p
      {
        ProbesDiffer(start, i, k - 1, |slots|);
      }
      ProbedAreCounted(slots[p := BLANK], start, k - 1);
    }
  }

  lemma {:induction false} NoFreeSlot(slots: seq<Slot>, start: nat, i: nat)
    requires slots != [] && i <= MAX_CHAIN_LENGTH && FirstFree(slots, start, i).None?
    ensures forall j: nat :: i <= j < MAX_CHAIN_LENGTH ==> slots[Probe(start, j, |slots|)].inUse
    decreases MAX_CHAIN_LENGTH - i
  {
    hide Probe;
    if i < MAX_CHAIN_LENGTH {
      NoFreeSlot(slots, start, i + 1);
    }
  }

  /** With fewer than eight entries any table that is not full has a slot for any key. */
  lemma FewHaveRoom(slots: seq<Slot>, hash: Hash, key: Key)
    requires slots != [] && InUse(slots) < MAX_CHAIN_LENGTH && InUse(slots) < |slots|
    ensures SlotFor(slots, hash, key).Some?
  {
    hide InUse, FirstHeld, FirstFree, Probe;
    var start := hash(key) % |slots|;
    if FirstFree(slots, start, 0).None? {
      NoFreeSlot(slots, start, 0);
      ProbedAreCounted(slots, start, if |slots| < MAX_CHAIN_LENGTH then |slots| else MAX_CHAIN_LENGTH);
    }
  }

  /** One put into a table with room for it: at most one more entry. */
  lemma FewPuts(slots: seq<Slot>, hash: Hash, key: Key, value: Pointer, memory: nat)
    requires TableSize(|slots|) && InUse(slots) < MAX_CHAIN_LENGTH && InUse(slots) < |slots|
    ensures var r := PutSlots(slots, hash, key, value, memory);
      r.outcome.Done? && |r.slots| == |slots| && r.memory == memory && InUse(r.slots) <= InUse(slots) + 1
  {
    hide PutSlots, SlotFor, InUse, PowerOfTwo;
    FewHaveRoom(slots, hash, key);
    PutStores(slots, hash, key, value, memory);
    InUseUpdate(slots, SlotFor(slots, hash, key).value, Slot(key, true, value));
  }

  /** Moving few entries needs no further memory. */
  lemma {:induction false} FewMove(slots: seq<Slot>, i: nat, target: seq<Slot>, hash: Hash, memory: nat)
    requires TableSize(|slots|) && i <= |slots| < |target| && TableSize(|target|)
    requires InUse(target) + InUse(slots) < MAX_CHAIN_LENGTH && InUse(target) + InUse(slots) < |target|
    ensures var r := MoveSlots(slots, i, target, hash, memory);
      r.outcome.Done? && |r.slots| == |target| && r.memory == memory && InUse(r.slots) <= InUse(target) + InUse(slots)
    decreases |slots| - i
  {
    hide MoveSlots, PutSlots, InUse, PowerOfTwo;
    if i == |slots| {
      MoveEnds(slots, target, hash, memory);
    } else {
      MoveStep(slots, i, target, hash, memory);
      if slots[i].inUse {
        InUseUpdate(slots, i, BLANK);
        FewPuts(target, hash, slots[i].key, slots[i].data, memory);
        FewMove(slots[i := BLANK], i + 1, PutSlots(target, hash, slots[i].key, slots[i].data, memory).slots, hash, memory);
      } else {
        FewMove(slots, i + 1, target, hash, memory);
      }
    }
  }

  /** With fewer than eight entries, memory for one larger table and a size for it, a put succeeds, whatever the hash. */
  lemma FewSucceed(slots: seq<Slot>, hash: Hash, key: Key, value: Pointer, memory: nat)
    requires TableSize(|slots|) && InUse(slots) < MAX_CHAIN_LENGTH && memory >= 1 && 2 * |slots| < WORD
    ensures var r := PutSlots(slots, hash, key, value, memory); r.outcome.Done? && r.memory >= memory - 1
  {
    hide PutSlots, MoveSlots, SlotFor, InUse, PowerOfTwo;
    if SlotFor(slots, hash, key).Some? {
      PutStores(slots, hash, key, value, memory);
    } else {
      PutGrows(slots, hash, key, value, memory);
      Doubled(|slots|);
      var blanks := Blanks(2 * |slots|);
      NobodyIn(blanks);
      FewMove(slots, 0, blanks, hash, memory - 1);
      FewPuts(RehashSlots(slots, hash, memory).slots, hash, key, value, memory - 1);
    }
  }

  // ---------------------------------------------------------------- loss

  /** Where a failing move stops: the slots from `i` on are emptied up to there. */
  lemma {:induction false} MoveStops(slots: seq<Slot>, i: nat, target: seq<Slot>, hash: Hash, memory: nat) returns (k: nat)
    requires TableSize(|slots|) && i <= |slots| < |target| && TableSize(|target|)
    requires !MoveSlots(slots, i, target, hash, memory).outcome.Done?
    ensures var r := MoveSlots(slots, i, target, hash, memory).slots;
      && |r| == |slots| && i <= k < |slots|
      && (forall p :: i <= p < k ==> !r[p].inUse)
      && (forall p :: 0 <= p < i || k <= p < |slots| ==> r[p] == slots[p])
    ensures i < |slots| && slots[i].inUse && SlotFor(target, hash, slots[i].key).Some? ==> k > i
    decreases |slots| - i
  {
    hide MoveSlots, PutSlots, TableSize, SlotFor;
    if i == |slots| {
      MoveEnds(slots, target, hash, memory);
      k := i;
    } else {
      MoveStep(slots, i, target, hash, memory);
      if !slots[i].inUse {
        k := MoveStops(slots, i + 1, target, hash, memory);
      } else {
        var p := PutSlots(target, hash, slots[i].key, slots[i].data, memory);
        if SlotFor(target, hash, slots[i].key).Some? {
          PutStores(target, hash, slots[i].key, slots[i].data, memory);
        }
        if p.outcome.Done? {
          k := MoveStops(slots[i := BLANK], i + 1, p.slots, hash, p.memory);
        } else {
          k := i;
        }
      }
    }
  }

  lemma {:induction false} FirstEntry(slots: seq<Slot>, i: nat) returns (j: nat)
    requires i <= |slots|
    ensures i <= j <= |slots| && (forall p :: i <= p < j ==> !slots[p].inUse) && (j < |slots| ==> slots[j].inUse)
    decreases |slots| - i
  {
    j := i;
    if i < |slots| && !slots[i].inUse {
      j := FirstEntry(slots, i + 1);
    }
  }

  lemma {:induction false} MoveSkips(slots: seq<Slot>, i: nat, j: nat, target: seq<Slot>, hash: Hash, memory: nat)
    requires TableSize(|slots|) && i <= j <= |slots| < |target| && TableSize(|target|)
    requires forall p :: i <= p < j ==> !slots[p].inUse
    ensures MoveSlots(slots, i, target, hash, memory) == MoveSlots(slots, j, target, hash, memory)
    decreases j - i
  {
    hide MoveSlots, PutSlots, TableSize;
    if i < j {
      MoveStep(slots, i, target, hash, memory);
      MoveSkips(slots, i + 1, j, target, hash, memory);
    }
  }

  lemma {:induction false} NobodyIn(slots: seq<Slot>)
    ensures (forall p :: 0 <= p < |slots| ==> !slots[p].inUse) <==> InUse(slots) == 0
  {
    if slots != [] {
      var n := |slots| - 1;
      NobodyIn(slots[..n]);
      assert forall p :: 0 <= p < n ==> slots[..n][p] == slots[p];
      if InUse(slots) == 0 {
        assert !slots[n].inUse;
      }
    }
  }

  /** An empty table has a slot for any key. */
  lemma BlanksHaveRoom(n: nat, hash: Hash, key: Key)
    requires n > 0
    ensures SlotFor(Blanks(n), hash, key).Some?
  {
    var blanks := Blanks(n);
    assert forall p :: 0 <= p < n ==> !blanks[p].inUse;
    NobodyIn(blanks);
    assert !blanks[Probe(hash(key) % n, 0, n)].inUse;
  }

  /** A rehash that fails loses entries exactly when there are any, the larger table has a size and there was memory for
      it: then the first entry had been moved already. */
  lemma LostExactly(slots: seq<Slot>, hash: Hash, memory: nat)
    requires TableSize(|slots|) && KeysUnique(slots) && !RehashSlots(slots, hash, memory).outcome.Done?
    ensures var r := RehashSlots(slots, hash, memory);
      Contents(r.slots) == Contents(slots) <==> InUse(slots) == 0 || memory == 0 || 2 * |slots| == WORD
  {
    hide PowerOfTwo, MoveSlots, SlotFor, KeysUnique, Contents, InUse;
    Doubled(|slots|);
    NobodyIn(slots);
    if memory > 0 && 2 * |slots| < WORD {
      FirstIsLost(slots, Blanks(2 * |slots|), hash, memory - 1);
    }
  }

  lemma FirstIsLost(slots: seq<Slot>, target: seq<Slot>, hash: Hash, memory: nat)
    requires TableSize(|slots|) && |slots| < |target| && TableSize(|target|) && target == Blanks(|target|)
    requires KeysUnique(slots) && !MoveSlots(slots, 0, target, hash, memory).outcome.Done?
    ensures Contents(MoveSlots(slots, 0, target, hash, memory).slots) != Contents(slots)
    ensures exists p :: 0 <= p < |slots| && slots[p].inUse
  {
    hide MoveSlots, SlotFor, Contents;
    var j := FirstEntry(slots, 0);
    MoveSkips(slots, 0, j, target, hash, memory);
    if j == |slots| {
      MoveEnds(slots, target, hash, memory);
    } else {
      BlanksHaveRoom(|target|, hash, slots[j].key);
      var k := MoveStops(slots, j, target, hash, memory);
      var r := MoveSlots(slots, j, target, hash, memory).slots;
      ContentsKeys(slots, slots[j].key);
      ContentsKeys(r, slots[j].key);
      assert Stores(slots, slots[j].key);
      assert !Stores(r, slots[j].key);
    }
  }

  /** The table on which growing stopped, and the memory left for it. */
  function LastTable(slots: seq<Slot>, hash: Hash, key: Key, memory: nat): (r: (seq<Slot>, nat))
    requires TableSize(|slots|)
    ensures TableSize(|r.0|)
    decreases WORD - |slots|
  {
    var r := RehashSlots(slots, hash, memory);
    if SlotFor(slots, hash, key).Some? || !r.outcome.Done? then (slots, memory)
    else LastTable(r.slots, hash, key, r.memory)
  }

  lemma LastStep(slots: seq<Slot>, hash: Hash, key: Key, memory: nat)
    requires TableSize(|slots|) && SlotFor(slots, hash, key).None?
    ensures var r := RehashSlots(slots, hash, memory);
      LastTable(slots, hash, key, memory)
      == if r.outcome.Done? then LastTable(r.slots, hash, key, r.memory) else (slots, memory)
  {
    hide RehashSlots, SlotFor;
  }

  /** A table without a slot for some key is not empty. */
  lemma {:induction false} NoSlotSomebodyIn(slots: seq<Slot>, hash: Hash, key: Key)
    requires slots != [] && SlotFor(slots, hash, key).None?
    ensures InUse(slots) > 0
  {
    NobodyIn(slots);
    assert !slots[Probe(hash(key) % |slots|, 0, |slots|)].inUse ==> FirstFree(slots, hash(key) % |slots|, 0).Some?;
  }
}
