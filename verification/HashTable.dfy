/** The slots of the bounded-probe hash table and the finite map they stand for. */
module HashTable {
  type Key = seq<bv8>
  /** A pointer; 0 is the null pointer. */
  type Pointer = nat
  /** Any function from keys to 32-bit words. */
  type Hash = Key -> nat

  datatype Slot = Slot(key: Key, inUse: bool, data: Pointer)

  const BLANK := Slot([], false, 0)
  const MAX_CHAIN_LENGTH: nat := 8
  const WORD: nat := 0x1_0000_0000

  predicate PowerOfTwo(n: nat) {
    n == 1 || (n > 0 && n % 2 == 0 && PowerOfTwo(n / 2))
  }

  lemma Twofold(n: nat)
    requires PowerOfTwo(n)
    ensures PowerOfTwo(2 * n)
  {
    assert 2 * n / 2 == n;
  }

  lemma Sixteenfold(n: nat)
    requires PowerOfTwo(n)
    ensures PowerOfTwo(16 * n)
  {
    hide PowerOfTwo;
    Twofold(n);
    Twofold(2 * n);
    Twofold(4 * n);
    Twofold(8 * n);
  }

  lemma HighBitIsPower()
    ensures PowerOfTwo(0x8000_0000)
  {
    assert PowerOfTwo(8);
    Sixteenfold(8);
    Sixteenfold(0x80);
    Sixteenfold(0x800);
    Sixteenfold(0x8000);
    Sixteenfold(0x8_0000);
    Sixteenfold(0x80_0000);
    Sixteenfold(0x800_0000);
  }

  /** The test the program makes on the 32-bit word. */
  predicate OneBit(x: bv32) {
    x != 0 && x & (x - 1) == 0
  }

  predicate LowBit(x: bv32) {
    x & 1 == 1
  }

  function Half(x: bv32): bv32 {
    x >> 1
  }

  /** The number a word stands for. */
  function Value(x: bv32): nat
    decreases x
  {
    if x == 0 then 0 else 2 * Value(Half(x)) + if LowBit(x) then 1 else 0
  }

  lemma OneBitHalves(x: bv32)
    ensures OneBit(x) <==> x == 1 || (x != 0 && !LowBit(x) && OneBit(Half(x)))
  {
  }

  lemma HalfOfOne(x: bv32)
    ensures Half(x) < x <==> x != 0
    ensures x == 1 <==> x != 0 && LowBit(x) && Half(x) == 0
  {
  }

  /** The bit test accepts exactly the powers of two. */
  lemma {:induction false} OneBitIsPowerOfTwo(x: bv32)
    ensures OneBit(x) <==> PowerOfTwo(Value(x))
    decreases x
  {
    hide OneBit, LowBit, Half;
    OneBitHalves(x);
    HalfOfOne(x);
    if x != 0 {
      OneBitIsPowerOfTwo(Half(x));
      ValueOfHalf(x);
    } else {
      ZeroHasNoBit();
    }
  }

  lemma ZeroHasNoBit()
    ensures !OneBit(0) && !PowerOfTwo(Value(0))
  {
  }

  lemma ValueOfHalf(x: bv32)
    requires x != 0
    ensures Value(x) == 2 * Value(Half(x)) + if LowBit(x) then 1 else 0
    ensures Value(Half(x)) == 0 <==> Half(x) == 0
  {
    hide Half, LowBit;
    NotZero(Half(x));
  }

  lemma {:induction false} NotZero(x: bv32)
    ensures Value(x) == 0 <==> x == 0
    decreases x
  {
    hide Half, LowBit;
    HalfOfOne(x);
    SomeBit(x);
    if x != 0 && !LowBit(x) {
      NotZero(Half(x));
    }
  }

  lemma SomeBit(x: bv32)
    ensures x != 0 && !LowBit(x) ==> Half(x) != 0
  {
  }

  // ---------------------------------------------------------------- the map of a table

  /** The map a sequence of slots stands for. */
  function Contents(slots: seq<Slot>): map<Key, Pointer> {
    if slots == [] then map[] else
    var n := |slots| - 1;
    if slots[n].inUse then Contents(slots[..n])[slots[n].key := slots[n].data] else Contents(slots[..n])
  }

  function InUse(slots: seq<Slot>): (r: nat)
    ensures r <= |slots|
  {
    if slots == [] then 0 else
    var n := |slots| - 1;
    InUse(slots[..n]) + if slots[n].inUse then 1 else 0
  }

  /** No two slots in use hold the same key. */
  ghost predicate KeysUnique(slots: seq<Slot>) {
    forall i, j :: 0 <= i < j < |slots| && slots[i].inUse && slots[j].inUse ==> slots[i].key != slots[j].key
  }

  ghost predicate Stores(slots: seq<Slot>, key: Key) {
    exists i :: 0 <= i < |slots| && slots[i].inUse && slots[i].key == key
  }

  lemma {:induction false} ContentsKeys(slots: seq<Slot>, key: Key)
    ensures key in Contents(slots) <==> Stores(slots, key)
  {
    if slots != [] {
      var n := |slots| - 1;
      ContentsKeys(slots[..n], key);
      if Stores(slots[..n], key) {
        var i :| 0 <= i < n && slots[..n][i].inUse && slots[..n][i].key == key;
        assert slots[i].inUse;
      }
      if Stores(slots, key) && !Stores(slots[..n], key) {
        var i :| 0 <= i < |slots| && slots[i].inUse && slots[i].key == key;
        assert i < n ==> slots[..n][i] == slots[i];
      }
    }
  }

  lemma {:induction false} ContentsAt(slots: seq<Slot>, i: nat)
    requires KeysUnique(slots) && i < |slots| && slots[i].inUse
    ensures slots[i].key in Contents(slots) && Contents(slots)[slots[i].key] == slots[i].data
  {
    var n := |slots| - 1;
    if i < n {
      ContentsAt(slots[..n], i);
      assert slots[..n][i] == slots[i];
    }
  }

  /** The table counts its entries right: as many as the map has keys. */
  lemma {:induction false} ContentsSize(slots: seq<Slot>)
    requires KeysUnique(slots)
    ensures |Contents(slots)| == InUse(slots)
  {
    if slots != [] {
      var n := |slots| - 1;
      ContentsSize(slots[..n]);
      if slots[n].inUse {
        ContentsKeys(slots[..n], slots[n].key);
        assert Contents(slots).Keys == Contents(slots[..n]).Keys + {slots[n].key};
      }
    }
  }

  lemma {:induction false} InUseUpdate(slots: seq<Slot>, i: nat, s: Slot)
    requires i < |slots|
    ensures InUse(slots[i := s]) == InUse(slots) - (if slots[i].inUse then 1 else 0) + (if s.inUse then 1 else 0)
  {
    var n := |slots| - 1;
    if i < n {
      assert slots[i := s][..n] == slots[..n][i := s];
      InUseUpdate(slots[..n], i, s);
    } else {
      assert slots[i := s][..n] == slots[..n];
    }
  }

  /** Writing a key that no other slot holds: the map gains or changes that key. */
  lemma ContentsPut(slots: seq<Slot>, i: nat, s: Slot)
    requires KeysUnique(slots) && i < |slots| && s.inUse
    requires forall j :: 0 <= j < |slots| && j != i && slots[j].inUse ==> slots[j].key != s.key
    requires slots[i].inUse ==> slots[i].key == s.key
    ensures KeysUnique(slots[i := s])
    ensures Contents(slots[i := s]) == Contents(slots)[s.key := s.data]
  {
    var after := slots[i := s];
    ContentsAt(after, i);
    forall k
      ensures k in Contents(after) <==> k in Contents(slots)[s.key := s.data]
      ensures k in Contents(after) ==> Contents(after)[k] == Contents(slots)[s.key := s.data][k]
    {
      SameKey(slots, after, i, k);
    }
  }

  lemma SameKey(slots: seq<Slot>, after: seq<Slot>, i: nat, k: Key)
    requires KeysUnique(slots) && KeysUnique(after) && i < |slots| && |after| == |slots| && after == slots[i := after[i]]
    requires slots[i].inUse && after[i].inUse ==> slots[i].key == after[i].key
    ensures !(after[i].inUse && after[i].key == k) && !(slots[i].inUse && slots[i].key == k) ==>
      (k in Contents(after) <==> k in Contents(slots)) && (k in Contents(after) ==> Contents(after)[k] == Contents(slots)[k])
    ensures after[i].inUse && after[i].key == k ==> k in Contents(after) && Contents(after)[k] == after[i].data
    ensures slots[i].inUse && slots[i].key == k && !after[i].inUse ==> k !in Contents(after)
  {
    ContentsKeys(slots, k);
    ContentsKeys(after, k);
    if after[i].inUse && after[i].key == k {
      ContentsAt(after, i);
    } else if j :| 0 <= j < |slots| && j != i && slots[j].inUse && slots[j].key == k {
      ContentsAt(slots, j);
      assert after[j] == slots[j];
      ContentsAt(after, j);
    }
  }

  /** Blanking a slot: the map loses the key it held. */
  lemma ContentsRemove(slots: seq<Slot>, i: nat, s: Slot)
    requires KeysUnique(slots) && i < |slots| && slots[i].inUse && !s.inUse
    ensures KeysUnique(slots[i := s])
    ensures Contents(slots[i := s]) == Contents(slots) - {slots[i].key}
  {
    var after := slots[i := s];
    var less := Contents(slots) - {slots[i].key};
    ContentsAt(slots, i);
    forall k
      ensures k in Contents(after) <==> k in less
      ensures k in Contents(after) ==> Contents(after)[k] == less[k]
    {
      SameKey(slots, after, i, k);
    }
  }

  ghost predicate SubMap(m: map<Key, Pointer>, n: map<Key, Pointer>) {
    forall k :: k in m ==> k in n && m[k] == n[k]
  }

  /** What is left when a table is emptied up to slot `k`. */
  ghost predicate EmptiedUpTo(before: seq<Slot>, after: seq<Slot>, k: nat) {
    && |before| == |after|
    && (forall p :: 0 <= p < k && p < |after| ==> !after[p].inUse)
    && (forall p :: k <= p < |after| ==> after[p] == before[p])
  }

  lemma EmptiedSubMap(before: seq<Slot>, after: seq<Slot>, k: nat)
    requires KeysUnique(before) && KeysUnique(after) && EmptiedUpTo(before, after, k)
    ensures SubMap(Contents(after), Contents(before))
  {
    forall key | key in Contents(after)
      ensures key in Contents(before) && Contents(after)[key] == Contents(before)[key]
    {
      ContentsKeys(after, key);
      var p :| 0 <= p < |after| && after[p].inUse && after[p].key == key;
      ContentsAt(after, p);
      ContentsAt(before, p);
    }
  }

  // ---------------------------------------------------------------- the probe window

  /** The `i`-th slot probed from `start`. */
  function Probe(start: nat, i: nat, n: nat): (p: nat)
    requires n > 0
    ensures p < n
  {
    (start + i) % n
  }

  lemma RemainderIs(a: nat, q: nat, r: nat, n: nat)
    requires r < n && a == q * n + r
    ensures a % n == r
  {
    var d := a / n - q;
    assert a == a / n * n + a % n;
    assert d * n == r - a % n;
    MultipleIsFar(d, n);
  }

  lemma MultipleIsFar(d: int, n: int)
    requires n >= 0
    ensures (d >= 1 ==> d * n >= n) && (d <= -1 ==> d * n <= -n)
  {
  }

  lemma NextRemainder(x: nat, q: nat, r: nat, n: nat)
    requires r < n && x == q * n + r
    ensures (r + 1) % n == (x + 1) % n
  {
    if r + 1 < n {
      RemainderIs(x + 1, q, r + 1, n);
      RemainderIs(r + 1, 0, r + 1, n);
    } else {
      assert (q + 1) * n == q * n + n;
      RemainderIs(x + 1, q + 1, 0, n);
    }
  }

  lemma ProbeNext(start: nat, i: nat, n: nat)
    requires n > 0
    ensures (Probe(start, i, n) + 1) % n == Probe(start, i + 1, n)
  {
    NextRemainder(start + i, (start + i) / n, (start + i) % n, n);
  }

  lemma ProbeStart(start: nat, n: nat)
    requires start < n
    ensures Probe(start, 0, n) == start
  {
    RemainderIs(start, 0, start, n);
  }

  ghost predicate InWindow(start: nat, n: nat, p: nat)
    requires n > 0
  {
    exists i: nat :: i < MAX_CHAIN_LENGTH && Probe(start, i, n) == p
  }

  /** Every key lies within the probe window of its hash: no tombstones are needed. */
  ghost predicate KeysInWindow(slots: seq<Slot>, hash: Hash) {
    forall p :: 0 <= p < |slots| && slots[p].inUse ==> InWindow(hash(slots[p].key) % |slots|, |slots|, p)
  }

  ghost predicate WellFormed(slots: seq<Slot>, hash: Hash) {
    slots != [] && KeysUnique(slots) && KeysInWindow(slots, hash)
  }

  /** A key is in the map exactly when one of the eight probed slots holds it. */
  lemma FoundByProbing(slots: seq<Slot>, hash: Hash, key: Key)
    requires WellFormed(slots, hash)
    ensures key in Contents(slots) <==>
      exists i: nat :: i < MAX_CHAIN_LENGTH && Holds(slots, Probe(hash(key) % |slots|, i, |slots|), key)
  {
    ContentsKeys(slots, key);
    if Stores(slots, key) {
      var p :| 0 <= p < |slots| && slots[p].inUse && slots[p].key == key;
      assert InWindow(hash(key) % |slots|, |slots|, p);
      var i: nat :| i < MAX_CHAIN_LENGTH && Probe(hash(key) % |slots|, i, |slots|) == p;
      assert Holds(slots, Probe(hash(key) % |slots|, i, |slots|), key);
    }
  }

  predicate Holds(slots: seq<Slot>, p: nat, key: Key)
    requires p < |slots|
  {
    slots[p].inUse && slots[p].key == key
  }
}
