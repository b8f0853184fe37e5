/** Tables of any size from sixteen slots on that lose fourteen of their fifteen entries to a put, however much memory
    there is. */
module HashLoss {
  import opened Collections
  import opened HashGrowth
  import opened HashTable

  const HALF: nat := 0x8000_0000
  /** The value of every entry: any pointer would do. */
  const VALUE: Pointer := 1

  /** The slot a key hashes to in a table of `m` slots. */
  function Offset(m: nat, i: nat): nat
    requires m >= 16
  {
    if i < 7 then m - 1 else m - 8
  }

  /** Sixteen keys whose hash words, up to the highest bit, lie close behind a multiple of twice the size `m` of a table:
      the first seven hash to its last slot, the others seven slots before. */
  ghost predicate Unlucky(keys: seq<Key>, hash: Hash, m: nat, base: nat) {
    && m >= 16 && TableSize(m)
    && |keys| == 16 && (forall i, j :: 0 <= i < j < 16 ==> keys[i] != keys[j])
    && base % (2 * m) == 0 && base + 2 * m <= HALF
    && forall i :: 0 <= i < 16 ==> hash(keys[i]) % HALF == base + Offset(m, i)
  }

  function Used(key: Key): Slot {
    Slot(key, true, VALUE)
  }

  /** The first `b` of the last eight keys in the last eight slots, and the first `a` keys in the first slots. */
  function Filled(keys: seq<Key>, m: nat, a: nat, b: nat): (r: seq<Slot>)
    requires |keys| == 16 && m >= 16 && a <= 7 && b <= 8
    ensures |r| == m
  {
    seq(m, p requires 0 <= p < m =>
      if m - 8 <= p < m - 8 + b then Used(keys[p - m + 16]) else if p < a then Used(keys[p]) else BLANK)
  }

  /** The last eight slots and the first seven are taken: every key is in but the one numbered 7. */
  function Table(keys: seq<Key>, m: nat): (r: seq<Slot>)
    requires |keys| == 16 && m >= 16
    ensures |r| == m
  {
    Filled(keys, m, 7, 8)
  }

  /** Where the last eight keys hash to in a table of `n` slots; the first seven hash seven slots behind it. */
  function Window(m: nat, base: nat, n: nat): nat
    requires n > 0 && m >= 16
  {
    base % n + (m - 8)
  }

  /** In a larger table the first `a` of the first seven keys come to lie from slot `s + 7` on, and the first `b` of the
      last eight from slot `s` on. */
  function Spread(keys: seq<Key>, n: nat, s: nat, a: nat, b: nat): (r: seq<Slot>)
    requires |keys| == 16 && a <= 7 && b <= 7
    ensures |r| == n
  {
    seq(n, p requires 0 <= p < n =>
      if s <= p < s + b then Used(keys[8 + (p - s)])
      else if s + 7 <= p < s + 7 + a then Used(keys[p - s - 7])
      else BLANK)
  }

  // ---------------------------------------------------------------- where the keys hash to

  lemma {:induction false} PowersDivide(a: nat, b: nat) returns (q: nat)
    requires PowerOfTwo(a) && PowerOfTwo(b) && a <= b
    ensures b == q * a
  {
    if a == 1 {
      q := b;
    } else {
      q := PowersDivide(a / 2, b / 2);
      assert b == 2 * (q * (a / 2)) == q * (2 * (a / 2));
    }
  }

  lemma Nested(a: int, b: int, q: int, e: int, f: int, n: int)
    requires b == e * n + f
    ensures a * (q * n) + b == (a * q + e) * n + f
  {
    Associates(a, q, n);
    Distributes(a * q, e, n);
  }

  lemma Associates(a: int, b: int, c: int)
    ensures a * (b * c) == a * b * c
  {
  }

  lemma Distributes(a: int, b: int, c: int)
    ensures (a + b) * c == a * c + b * c
  {
  }

  lemma Quotient(a: nat, n: nat)
    requires n > 0
    ensures a == a / n * n + a % n
  {
  }

  lemma Remainder(h: nat, d: nat, r: nat, q: nat, n: nat)
    requires n > 0 && h == d * (q * n) + r
    ensures h % n == r % n
  {
    Quotient(r, n);
    Nested(d, r, q, r / n, r % n, n);
    RemainderIs(h, d * q + r / n, r % n, n);
  }

  /** The highest bit of the hash word does not matter: no table is larger than half of the words. */
  lemma HashModHalf(h: nat, n: nat)
    requires TableSize(n)
    ensures h % n == (h % HALF) % n
  {
    HighBitIsPower();
    if n > HALF {
      PowersApart(HALF, n);
    }
    var q := PowersDivide(n, HALF);
    Remainder(h, h / HALF, h % HALF, q, n);
  }

  /** The remainder of a multiple of `k` by a larger size leaves room for `k` slots. */
  lemma Start(base: nat, k: nat, n: nat)
    requires PowerOfTwo(k) && base % k == 0 && PowerOfTwo(n) && k <= n
    ensures base % n + k <= n
  {
    var q := PowersDivide(k, n);
    Quotient(base, n);
    Quotient(base, k);
    Associates(base / n, q, k);
    RoomBehind(base / k, base / n * q, q, k, base % n);
  }

  lemma RoomBehind(u: int, p: int, q: int, k: int, s: int)
    requires u * k == p * k + s && 0 <= s < q * k && k > 0
    ensures s + k <= q * k
  {
    Distributes(u - p, p, k);
    Distributes(u - p, q - (u - p), k);
    MultipleIsFar(q - (u - p), k);
  }

  lemma TwiceIsSize(m: nat)
    requires TableSize(m) && 2 * m <= HALF
    ensures TableSize(2 * m)
  {
    Twofold(m);
  }

  lemma Behind(base: nat, d: nat, n: nat)
    requires n > 0 && base % n + d < n
    ensures (base + d) % n == base % n + d
  {
    RemainderIs(base + d, base / n, base % n + d, n);
  }

  lemma HashAt(keys: seq<Key>, hash: Hash, m: nat, base: nat, n: nat, i: nat)
    requires Unlucky(keys, hash, m, base) && TableSize(n) && n >= 2 * m && i < 16
    ensures base % n + 2 * m <= n && hash(keys[i]) % n == base % n + Offset(m, i)
  {
    hide PowerOfTwo;
    TwiceIsSize(m);
    Start(base, 2 * m, n);
    HashModHalf(hash(keys[i]), n);
    Behind(base, Offset(m, i), n);
  }

  lemma HashAtFirst(keys: seq<Key>, hash: Hash, m: nat, base: nat, i: nat)
    requires Unlucky(keys, hash, m, base) && i < 16
    ensures hash(keys[i]) % m == Offset(m, i)
  {
    hide PowerOfTwo;
    HashModHalf(hash(keys[i]), m);
    Quotient(base, 2 * m);
    Associates(base / (2 * m), 2, m);
    RemainderIs(base + Offset(m, i), base / (2 * m) * 2, Offset(m, i), m);
  }

  // ---------------------------------------------------------------- probing such tables

  lemma NearProbe(start: nat, i: nat, n: nat)
    requires start + i < n
    ensures Probe(start, i, n) == start + i
  {
    RemainderIs(start + i, 0, start + i, n);
  }

  lemma {:induction false} NotHeld(slots: seq<Slot>, start: nat, key: Key, i: nat)
    requires slots != [] && i <= MAX_CHAIN_LENGTH
    requires forall j: nat :: i <= j < MAX_CHAIN_LENGTH ==> !Holds(slots, Probe(start, j, |slots|), key)
    ensures FirstHeld(slots, start, key, i) == None
    decreases MAX_CHAIN_LENGTH - i
  {
    hide Probe;
    if i < MAX_CHAIN_LENGTH {
      NotHeld(slots, start, key, i + 1);
    }
  }

  lemma {:induction false} FreeAt(slots: seq<Slot>, start: nat, i: nat, j: nat)
    requires slots != [] && i <= j < MAX_CHAIN_LENGTH && !slots[Probe(start, j, |slots|)].inUse
    requires forall k: nat :: i <= k < j ==> slots[Probe(start, k, |slots|)].inUse
    ensures FirstFree(slots, start, i) == Some(Probe(start, j, |slots|))
    decreases j - i
  {
    hide Probe;
    if i < j {
      FreeAt(slots, start, i + 1, j);
    }
  }

  lemma {:induction false} NoneFree(slots: seq<Slot>, start: nat, i: nat)
    requires slots != [] && i <= MAX_CHAIN_LENGTH
    requires forall j: nat :: i <= j < MAX_CHAIN_LENGTH ==> slots[Probe(start, j, |slots|)].inUse
    ensures FirstFree(slots, start, i) == None
    decreases MAX_CHAIN_LENGTH - i
  {
    hide Probe;
    if i < MAX_CHAIN_LENGTH {
      NoneFree(slots, start, i + 1);
    }
  }

  lemma {:induction false} NotFull(slots: seq<Slot>, p: nat)
    requires p < |slots| && !slots[p].inUse
    ensures InUse(slots) < |slots|
  {
    var n := |slots| - 1;
    if p < n {
      NotFull(slots[..n], p);
    }
  }

  /** A key that is not stored goes to the first free slot of its window. */
  lemma GoesTo(slots: seq<Slot>, hash: Hash, key: Key, start: nat, j: nat)
    requires slots != [] && hash(key) % |slots| == start && j < MAX_CHAIN_LENGTH
    requires forall i: nat :: i < MAX_CHAIN_LENGTH ==> !Holds(slots, Probe(start, i, |slots|), key)
    requires forall i: nat :: i < j ==> slots[Probe(start, i, |slots|)].inUse
    requires !slots[Probe(start, j, |slots|)].inUse
    ensures SlotFor(slots, hash, key) == Some(Probe(start, j, |slots|))
  {
    hide FirstHeld, FirstFree, InUse;
    NotFull(slots, Probe(start, j, |slots|));
    NotHeld(slots, start, key, 0);
    FreeAt(slots, start, 0, j);
  }

  lemma GoesNowhere(slots: seq<Slot>, hash: Hash, key: Key, start: nat)
    requires slots != [] && hash(key) % |slots| == start && start + MAX_CHAIN_LENGTH <= |slots|
    requires forall p :: start <= p < start + MAX_CHAIN_LENGTH ==> slots[p].inUse && !Holds(slots, p, key)
    ensures SlotFor(slots, hash, key) == None
  {
    hide FirstHeld, FirstFree, InUse;
    forall i: nat | i < MAX_CHAIN_LENGTH
      ensures Probe(start, i, |slots|) == start + i
    {
      NearProbe(start, i, |slots|);
    }
    NotHeld(slots, start, key, 0);
    NoneFree(slots, start, 0);
  }

  /** The same for a window that does not reach the end of the table. */
  lemma GoesNear(slots: seq<Slot>, hash: Hash, key: Key, start: nat, j: nat)
    requires slots != [] && hash(key) % |slots| == start && start + MAX_CHAIN_LENGTH <= |slots| && j < MAX_CHAIN_LENGTH
    requires forall p :: start <= p < start + MAX_CHAIN_LENGTH ==> !Holds(slots, p, key)
    requires (forall p :: start <= p < start + j ==> slots[p].inUse) && !slots[start + j].inUse
    ensures SlotFor(slots, hash, key) == Some(start + j)
  {
    hide SlotFor;
    forall i: nat | i < MAX_CHAIN_LENGTH
      ensures Probe(start, i, |slots|) == start + i
    {
      NearProbe(start, i, |slots|);
    }
    GoesTo(slots, hash, key, start, j);
  }

  // ---------------------------------------------------------------- filling the table

  /** Puts the keys one after another. */
  function PutAll(slots: seq<Slot>, hash: Hash, keys: seq<Key>, memory: nat): (r: Grown)
    requires TableSize(|slots|)
    ensures TableSize(|r.slots|)
    decreases |keys|
  {
    if keys == [] then Grown(Done, slots, memory) else
    var r := PutSlots(slots, hash, keys[0], VALUE, memory);
    if r.outcome.Done? then PutAll(r.slots, hash, keys[1..], r.memory) else r
  }

  lemma FillEarly(keys: seq<Key>, hash: Hash, m: nat, base: nat, b: nat, memory: nat)
    requires Unlucky(keys, hash, m, base) && b < 8
    ensures PutSlots(Filled(keys, m, 0, b), hash, keys[8 + b], VALUE, memory)
      == Grown(Done, Filled(keys, m, 0, b + 1), memory)
  {
    hide PutSlots, SlotFor, PowerOfTwo;
    var slots, key := Filled(keys, m, 0, b), keys[8 + b];
    HashAtFirst(keys, hash, m, base, 8 + b);
    forall p | m - 8 <= p < m
      ensures p < m - 8 + b ==> slots[p].inUse
      ensures !Holds(slots, p, key)
    {
      if p < m - 8 + b {
        assert slots[p] == Used(keys[p - m + 16]) && keys[p - m + 16] != key;
      }
    }
    GoesNear(slots, hash, key, m - 8, b);
    PutStores(slots, hash, key, VALUE, memory);
    assert slots[m - 8 + b := Used(key)] == Filled(keys, m, 0, b + 1);
  }

  /** The slots probed from the last one on: it, and then the first ones. */
  lemma ProbeAround(i: nat, m: nat)
    requires i < MAX_CHAIN_LENGTH && m >= 16
    ensures Probe(m - 1, i, m) == if i == 0 then m - 1 else i - 1
  {
    if i == 0 {
      ProbeStart(m - 1, m);
    } else {
      RemainderIs(m - 1 + i, 1, i - 1, m);
    }
  }

  lemma FillLate(keys: seq<Key>, hash: Hash, m: nat, base: nat, a: nat, memory: nat)
    requires Unlucky(keys, hash, m, base) && a < 7
    ensures PutSlots(Filled(keys, m, a, 8), hash, keys[a], VALUE, memory)
      == Grown(Done, Filled(keys, m, a + 1, 8), memory)
  {
    hide PutSlots, SlotFor, PowerOfTwo, Probe;
    var slots, key, last := Filled(keys, m, a, 8), keys[a], m - 1;
    HashAtFirst(keys, hash, m, base, a);
    forall i: nat | i < MAX_CHAIN_LENGTH
      ensures Probe(last, i, m) == if i == 0 then last else i - 1
      ensures i < a + 1 ==> slots[Probe(last, i, m)].inUse
      ensures !Holds(slots, Probe(last, i, m), key)
    {
      ProbeAround(i, m);
      if i == 0 {
        assert slots[last] == Used(keys[15]) && keys[15] != key;
      } else if i - 1 < a {
        assert slots[i - 1] == Used(keys[i - 1]) && keys[i - 1] != key;
      }
    }
    GoesTo(slots, hash, key, last, a + 1);
    PutStores(slots, hash, key, VALUE, memory);
    assert slots[a := Used(key)] == Filled(keys, m, a + 1, 8);
  }

  lemma {:induction false} FillsEarly(keys: seq<Key>, hash: Hash, m: nat, base: nat, b: nat, memory: nat)
    requires Unlucky(keys, hash, m, base) && b <= 8
    ensures PutAll(Filled(keys, m, 0, b), hash, keys[8 + b..] + keys[..7], memory) == Grown(Done, Table(keys, m), memory)
    decreases 8 - b
  {
    hide PutSlots, Filled, PowerOfTwo;
    if b < 8 {
      FillEarly(keys, hash, m, base, b, memory);
      FillsEarly(keys, hash, m, base, b + 1, memory);
      assert (keys[8 + b..] + keys[..7])[1..] == keys[8 + (b + 1)..] + keys[..7];
    } else {
      FillsLate(keys, hash, m, base, 0, memory);
      assert keys[8 + b..] + keys[..7] == keys[0..7];
    }
  }

  lemma {:induction false} FillsLate(keys: seq<Key>, hash: Hash, m: nat, base: nat, a: nat, memory: nat)
    requires Unlucky(keys, hash, m, base) && a <= 7
    ensures PutAll(Filled(keys, m, a, 8), hash, keys[a..7], memory) == Grown(Done, Table(keys, m), memory)
    decreases 7 - a
  {
    hide PutSlots, Filled, PowerOfTwo;
    if a < 7 {
      FillLate(keys, hash, m, base, a, memory);
      FillsLate(keys, hash, m, base, a + 1, memory);
      assert keys[a..7][1..] == keys[a + 1..7];
    }
  }

  /** Fifteen puts into a blank table make the table, without an allocation. */
  lemma TableIsFilled(keys: seq<Key>, hash: Hash, m: nat, base: nat, memory: nat)
    requires Unlucky(keys, hash, m, base)
    ensures PutAll(Blanks(m), hash, keys[8..] + keys[..7], memory) == Grown(Done, Table(keys, m), memory)
  {
    hide PutAll;
    assert Filled(keys, m, 0, 0) == Blanks(m);
    FillsEarly(keys, hash, m, base, 0, memory);
  }

  // ---------------------------------------------------------------- filling larger tables

  lemma PutLate(keys: seq<Key>, hash: Hash, m: nat, base: nat, n: nat, a: nat, b: nat, memory: nat)
    requires Unlucky(keys, hash, m, base) && n >= 2 * m && TableSize(n) && a < 7 && b <= 7
    ensures var s := Window(m, base, n);
      PutSlots(Spread(keys, n, s, a, b), hash, keys[a], VALUE, memory) == Grown(Done, Spread(keys, n, s, a + 1, b), memory)
  {
    hide PutSlots, SlotFor, PowerOfTwo;
    var s, key := Window(m, base, n), keys[a];
    var slots := Spread(keys, n, s, a, b);
    HashAt(keys, hash, m, base, n, a);
    forall p | s + 7 <= p < s + 15
      ensures slots[p].inUse <==> p < s + 7 + a
      ensures !Holds(slots, p, key)
    {
      if p < s + 7 + a {
        assert slots[p] == Used(keys[p - s - 7]) && keys[p - s - 7] != key;
      }
    }
    GoesNear(slots, hash, key, s + 7, a);
    PutStores(slots, hash, key, VALUE, memory);
    assert slots[s + 7 + a := Used(key)] == Spread(keys, n, s, a + 1, b);
  }

  lemma PutEarly(keys: seq<Key>, hash: Hash, m: nat, base: nat, n: nat, a: nat, b: nat, memory: nat)
    requires Unlucky(keys, hash, m, base) && n >= 2 * m && TableSize(n) && a <= 7 && b < 7
    ensures var s := Window(m, base, n);
      PutSlots(Spread(keys, n, s, a, b), hash, keys[8 + b], VALUE, memory)
      == Grown(Done, Spread(keys, n, s, a, b + 1), memory)
  {
    hide PutSlots, SlotFor, PowerOfTwo;
    var s, key := Window(m, base, n), keys[8 + b];
    var slots := Spread(keys, n, s, a, b);
    HashAt(keys, hash, m, base, n, 8 + b);
    forall p | s <= p < s + 8
      ensures p < s + b ==> slots[p].inUse
      ensures !Holds(slots, p, key)
    {
      if p < s + b {
        assert slots[p] == Used(keys[8 + (p - s)]) && keys[8 + (p - s)] != key;
      } else if p == s + 7 && a > 0 {
        assert slots[p] == Used(keys[0]) && keys[0] != key;
      }
    }
    GoesNear(slots, hash, key, s, b);
    PutStores(slots, hash, key, VALUE, memory);
    assert slots[s + b := Used(key)] == Spread(keys, n, s, a, b + 1);
  }

  /** The last key finds its window full: its last slot has gone to the first key. */
  lemma LastHasNoSlot(keys: seq<Key>, hash: Hash, m: nat, base: nat, n: nat)
    requires Unlucky(keys, hash, m, base) && n >= 2 * m && TableSize(n)
    ensures SlotFor(Spread(keys, n, Window(m, base, n), 7, 7), hash, keys[15]) == None
  {
    hide SlotFor, PowerOfTwo;
    HashAt(keys, hash, m, base, n, 15);
    var s := Window(m, base, n);
    var slots := Spread(keys, n, s, 7, 7);
    forall p | s <= p < s + 8
      ensures slots[p].inUse && !Holds(slots, p, keys[15])
    {
      var k := if p < s + 7 then 8 + (p - s) else 0;
      assert slots[p] == Used(keys[k]) && keys[k] != keys[15];
    }
    GoesNowhere(slots, hash, keys[15], s);
  }

  lemma NothingSpread(keys: seq<Key>, n: nat, s: nat)
    requires |keys| == 16
    ensures Spread(keys, n, s, 0, 0) == Blanks(n)
  {
  }

  /** Seven slots from `i` on hold the first seven keys: they are moved in order. */
  lemma {:induction false} MoveLate(slots: seq<Slot>, i: nat, keys: seq<Key>, hash: Hash, m: nat, base: nat, n: nat,
                                    a: nat, b: nat, memory: nat) returns (rest: seq<Slot>)
    requires Unlucky(keys, hash, m, base) && a <= 7 && b <= 7
    requires TableSize(|slots|) && |slots| < n && TableSize(n) && n >= 2 * m
    requires i + (7 - a) <= |slots| && forall p :: i <= p < i + (7 - a) ==> slots[p] == Used(keys[a + (p - i)])
    ensures |rest| == |slots| && (forall p :: 0 <= p < |slots| ==>
              rest[p] == if i <= p < i + (7 - a) then BLANK else slots[p])
    ensures MoveSlots(slots, i, Spread(keys, n, Window(m, base, n), a, b), hash, memory)
      == MoveSlots(rest, i + (7 - a), Spread(keys, n, Window(m, base, n), 7, b), hash, memory)
    decreases 7 - a
  {
    hide MoveSlots, PutSlots, Spread, TableSize;
    rest := slots;
    if a < 7 {
      MoveStep(slots, i, Spread(keys, n, Window(m, base, n), a, b), hash, memory);
      PutLate(keys, hash, m, base, n, a, b, memory);
      rest := MoveLate(slots[i := BLANK], i + 1, keys, hash, m, base, n, a + 1, b, memory);
    }
  }

  /** The same for the first seven of the last eight keys. */
  lemma {:induction false} MoveEarly(slots: seq<Slot>, i: nat, keys: seq<Key>, hash: Hash, m: nat, base: nat, n: nat,
                                     a: nat, b: nat, memory: nat) returns (rest: seq<Slot>)
    requires Unlucky(keys, hash, m, base) && a <= 7 && b <= 7
    requires TableSize(|slots|) && |slots| < n && TableSize(n) && n >= 2 * m
    requires i + (7 - b) <= |slots| && forall p :: i <= p < i + (7 - b) ==> slots[p] == Used(keys[8 + b + (p - i)])
    ensures |rest| == |slots| && (forall p :: 0 <= p < |slots| ==>
              rest[p] == if i <= p < i + (7 - b) then BLANK else slots[p])
    ensures MoveSlots(slots, i, Spread(keys, n, Window(m, base, n), a, b), hash, memory)
      == MoveSlots(rest, i + (7 - b), Spread(keys, n, Window(m, base, n), a, 7), hash, memory)
    decreases 7 - b
  {
    hide MoveSlots, PutSlots, Spread, TableSize;
    rest := slots;
    if b < 7 {
      MoveStep(slots, i, Spread(keys, n, Window(m, base, n), a, b), hash, memory);
      PutEarly(keys, hash, m, base, n, a, b, memory);
      rest := MoveEarly(slots[i := BLANK], i + 1, keys, hash, m, base, n, a, b + 1, memory);
    }
  }

  // ---------------------------------------------------------------- growing does not help

  /** Doubling such a table only copies it. */
  lemma SpreadGrows(keys: seq<Key>, hash: Hash, m: nat, base: nat, n: nat, memory: nat)
    requires Unlucky(keys, hash, m, base) && n >= 2 * m && TableSize(n) && 2 * n < WORD && memory > 0
    ensures RehashSlots(Spread(keys, n, Window(m, base, n), 7, 7), hash, memory)
      == Grown(Done, Spread(keys, 2 * n, Window(m, base, 2 * n), 7, 7), memory - 1)
  {
    hide MoveSlots, PutSlots, PowerOfTwo;
    var s, t := Window(m, base, n), Window(m, base, 2 * n);
    var slots := Spread(keys, n, s, 7, 7);
    HashAt(keys, hash, m, base, n, 0);
    HashGrowth.Doubled(n);
    NothingSpread(keys, 2 * n, t);
    MoveSkips(slots, 0, s, Blanks(2 * n), hash, memory - 1);
    var s1 := MoveEarly(slots, s, keys, hash, m, base, 2 * n, 0, 0, memory - 1);
    var s2 := MoveLate(s1, s + 7, keys, hash, m, base, 2 * n, 0, 7, memory - 1);
    MoveSkips(s2, s + 14, n, Spread(keys, 2 * n, t, 7, 7), hash, memory - 1);
    MoveEnds(s2, Spread(keys, 2 * n, t, 7, 7), hash, memory - 1);
  }

  /** However often it doubles, the last key finds no slot, until no larger table can be made. */
  lemma {:induction false} LastNeverFits(keys: seq<Key>, hash: Hash, m: nat, base: nat, n: nat, memory: nat)
    requires Unlucky(keys, hash, m, base) && n >= 2 * m && TableSize(n)
    ensures !PutSlots(Spread(keys, n, Window(m, base, n), 7, 7), hash, keys[15], VALUE, memory).outcome.Done?
    decreases WORD - n
  {
    hide PutSlots, MoveSlots, SlotFor, Spread, PowerOfTwo;
    var slots := Spread(keys, n, Window(m, base, n), 7, 7);
    LastHasNoSlot(keys, hash, m, base, n);
    PutGrows(slots, hash, keys[15], VALUE, memory);
    HashGrowth.Doubled(n);
    if memory > 0 && 2 * n < WORD {
      SpreadGrows(keys, hash, m, base, n, memory);
      LastNeverFits(keys, hash, m, base, 2 * n, memory - 1);
    }
  }

  // ---------------------------------------------------------------- the put of the sixteenth key

  /** The number of the key in a slot that is taken. */
  function KeyIn(m: nat, p: nat): nat
    requires m >= 16 && p < m
  {
    if p >= m - 8 then p - m + 16 else p
  }

  lemma TableAt(keys: seq<Key>, m: nat, p: nat)
    requires |keys| == 16 && m >= 16 && p < m
    ensures Table(keys, m)[p].inUse <==> p < 7 || p >= m - 8
    ensures Table(keys, m)[p].inUse ==> Table(keys, m)[p].key == keys[KeyIn(m, p)]
  {
    assert p >= m - 8 ==> Filled(keys, m, 7, 8)[p] == Used(keys[p - m + 16]);
  }

  lemma SlotInWindow(keys: seq<Key>, hash: Hash, m: nat, base: nat, p: nat)
    requires Unlucky(keys, hash, m, base) && (p < 7 || m - 8 <= p < m)
    ensures InWindow(hash(keys[KeyIn(m, p)]) % m, m, p)
  {
    hide PowerOfTwo, InWindow;
    HashAtFirst(keys, hash, m, base, KeyIn(m, p));
    if p < 7 {
      InLastWindow(m, p);
    } else {
      InNearWindow(m - 8, m, p);
    }
  }

  /** Nothing is wrong with the table before: every key is found. */
  lemma TableWellFormed(keys: seq<Key>, hash: Hash, m: nat, base: nat)
    requires Unlucky(keys, hash, m, base)
    ensures WellFormed(Table(keys, m), hash)
  {
    hide PowerOfTwo, InWindow, Table;
    var slots := Table(keys, m);
    forall p | 0 <= p < m && slots[p].inUse
      ensures InWindow(hash(slots[p].key) % m, m, p)
    {
      TableAt(keys, m, p);
      SlotInWindow(keys, hash, m, base, p);
    }
    forall i, j | 0 <= i < j < m && slots[i].inUse && slots[j].inUse
      ensures slots[i].key != slots[j].key
    {
      TableAt(keys, m, i);
      TableAt(keys, m, j);
      assert KeyIn(m, i) != KeyIn(m, j);
    }
  }

  lemma InLastWindow(m: nat, p: nat)
    requires m >= 16 && p < 7
    ensures InWindow(m - 1, m, p)
  {
    ProbeAround(p + 1, m);
  }

  lemma InNearWindow(start: nat, m: nat, p: nat)
    requires start <= p < start + MAX_CHAIN_LENGTH <= m
    ensures InWindow(start, m, p)
  {
    NearProbe(start, p - start, m);
  }

  /** Without memory the put fails and nothing is lost. With any amount of memory it fails as well, and of fifteen
      entries one is left. */
  lemma FourteenLost(keys: seq<Key>, hash: Hash, m: nat, base: nat, value: Pointer, memory: nat)
    requires Unlucky(keys, hash, m, base)
    ensures InUse(Table(keys, m)) == 15
    ensures var r := PutSlots(Table(keys, m), hash, keys[7], value, memory);
      && !r.outcome.Done?
      && (if memory == 0 then r.slots == Table(keys, m) else r.slots == Blanks(m - 1) + [Used(keys[15])])
  {
    hide PutSlots, MoveSlots, SlotFor, PowerOfTwo, InUse;
    var slots := Table(keys, m);
    FifteenIn(keys, m);
    SixteenthHasNoSlot(keys, hash, m, base);
    PutGrows(slots, hash, keys[7], value, memory);
    TwiceIsSize(m);
    HashGrowth.Doubled(m);
    if memory > 0 {
      MoveFails(keys, hash, m, base, memory - 1);
    }
  }

  lemma SixteenthHasNoSlot(keys: seq<Key>, hash: Hash, m: nat, base: nat)
    requires Unlucky(keys, hash, m, base)
    ensures SlotFor(Table(keys, m), hash, keys[7]) == None
  {
    hide SlotFor, PowerOfTwo;
    var slots := Table(keys, m);
    HashAtFirst(keys, hash, m, base, 7);
    forall p | m - 8 <= p < m
      ensures slots[p].inUse && !Holds(slots, p, keys[7])
    {
      assert slots[p] == Used(keys[p - m + 16]) && keys[p - m + 16] != keys[7];
    }
    GoesNowhere(slots, hash, keys[7], m - 8);
  }

  /** Moved in slot order, the first seven keys arrive before the last eight, and the last of these finds no slot. */
  lemma MoveFails(keys: seq<Key>, hash: Hash, m: nat, base: nat, memory: nat)
    requires Unlucky(keys, hash, m, base) && TableSize(2 * m)
    ensures var r := MoveSlots(Table(keys, m), 0, Blanks(2 * m), hash, memory);
      !r.outcome.Done? && r.slots == Blanks(m - 1) + [Used(keys[15])]
  {
    hide PutSlots, MoveSlots, SlotFor, Spread, PowerOfTwo, Window, Table;
    var slots, s := Table(keys, m), Window(m, base, 2 * m);
    TableIs(keys, m);
    NothingSpread(keys, 2 * m, s);
    var s1 := MoveLate(slots, 0, keys, hash, m, base, 2 * m, 0, 0, memory);
    MoveSkips(s1, 7, m - 8, Spread(keys, 2 * m, s, 7, 0), hash, memory);
    var s2 := MoveEarly(s1, m - 8, keys, hash, m, base, 2 * m, 7, 0, memory);
    OneIsLeft(s2, keys[15]);
    LastStays(s2, keys, hash, m, base, memory);
  }

  lemma TableIs(keys: seq<Key>, m: nat)
    requires |keys| == 16 && m >= 16
    ensures forall p :: 0 <= p < 7 ==> Table(keys, m)[p] == Used(keys[p])
    ensures forall p :: 7 <= p < m - 8 ==> Table(keys, m)[p] == BLANK
    ensures forall p :: m - 8 <= p < m ==> Table(keys, m)[p] == Used(keys[8 + (p - (m - 8))])
  {
  }

  lemma OneIsLeft(slots: seq<Slot>, key: Key)
    requires slots != [] && slots[|slots| - 1] == Used(key)
    requires forall p :: 0 <= p < |slots| - 1 ==> slots[p] == BLANK
    ensures slots == Blanks(|slots| - 1) + [Used(key)]
  {
  }

  /** The move stops at the last of the eight keys. */
  lemma LastStays(slots: seq<Slot>, keys: seq<Key>, hash: Hash, m: nat, base: nat, memory: nat)
    requires Unlucky(keys, hash, m, base) && TableSize(2 * m)
    requires slots == Blanks(m - 1) + [Used(keys[15])]
    ensures var r := MoveSlots(slots, m - 1, Spread(keys, 2 * m, Window(m, base, 2 * m), 7, 7), hash, memory);
      !r.outcome.Done? && r.slots == slots
  {
    hide PutSlots, MoveSlots, SlotFor, Spread, PowerOfTwo, Window;
    assert slots[m - 1] == Used(keys[15]);
    MoveStep(slots, m - 1, Spread(keys, 2 * m, Window(m, base, 2 * m), 7, 7), hash, memory);
    LastNeverFits(keys, hash, m, base, 2 * m, memory);
  }

  lemma FifteenIn(keys: seq<Key>, m: nat)
    requires |keys| == 16 && m >= 16
    ensures InUse(Table(keys, m)) == 15
  {
    hide InUse, Table;
    var slots := Table(keys, m);
    forall p: nat | p < m
      ensures slots[p].inUse <==> p < 7 || p >= m - 8
    {
      TableAt(keys, m, p);
    }
    var a, b, c := slots[..7], slots[7..m - 8], slots[m - 8..];
    AllIn(a);
    NobodyIn(b);
    AllIn(c);
    InUseAppend(a, b);
    InUseAppend(a + b, c);
    assert a + b + c == slots;
  }

  lemma {:induction false} AllIn(slots: seq<Slot>)
    requires forall p :: 0 <= p < |slots| ==> slots[p].inUse
    ensures InUse(slots) == |slots|
  {
    if slots != [] {
      AllIn(slots[..|slots| - 1]);
    }
  }

  lemma {:induction false} InUseAppend(a: seq<Slot>, b: seq<Slot>)
    ensures InUse(a + b) == InUse(a) + InUse(b)
  {
    if b == [] {
      assert a + b == a;
    } else {
      var n := |b| - 1;
      InUseAppend(a, b[..n]);
      assert (a + b)[..|a| + n] == a + b[..n];
    }
  }
}
