/** The record format of the feedback file: what the writers in the guest emit and what the reader makes of it. */
module Redqueen {
  import opened Collections

  type Byte = b: int | 0 <= b < 256
  type Bytes = seq<Byte>

  const STRING: Byte := 0
  const ARRAY_KEY: Byte := 1
  const UNMATCHED: Byte := 2
  const PREG_MATCH: Byte := 3
  const LIMIT: nat := 1000

  datatype Record = Single(kind: Byte, content: Bytes) | Pair(kind: Byte, first: Bytes, second: Bytes)

  /** The records the writers emit. */
  predicate Emittable(r: Record) {
    match r
    case Single(kind, content) => (kind == STRING || kind == ARRAY_KEY) && |content| <= LIMIT
    case Pair(kind, first, second) => (kind == UNMATCHED || kind == PREG_MATCH) && |first| + |second| <= LIMIT
  }

  // ---------------------------------------------------------------- the format

  /** A 16-bit length, low byte first. */
  function LengthBytes(n: nat): Bytes
    requires n < 0x1_0000
  {
    [n % 256, n / 256]
  }

  function Sized(s: Bytes): Bytes
    requires |s| < 0x1_0000
  {
    LengthBytes(|s|) + s
  }

  function Encode(r: Record): (e: Bytes)
    requires Emittable(r)
    ensures e != []
  {
    match r
    case Single(kind, content) => [kind] + Sized(content)
    case Pair(kind, first, second) => [kind] + Sized(first) + Sized(second)
  }

  function EncodeAll(rs: seq<Record>): Bytes
    requires forall r :: r in rs ==> Emittable(r)
  {
    if rs == [] then [] else Encode(rs[0]) + EncodeAll(rs[1..])
  }

  // ---------------------------------------------------------------- reading one record

  /** The reader takes lengths as signed. */
  function SignedLength(lo: Byte, hi: Byte): int {
    var n := lo + 256 * hi;
    if n < 0x8000 then n else n - 0x1_0000
  }

  datatype Text = Text(content: Bytes, taken: nat) | Cut

  /** A string and the number of bytes it took, unless the data ends before it does. */
  function ReadSized(data: Bytes): (r: Text)
    ensures r.Text? ==> 2 <= r.taken <= |data|
  {
    if |data| < 2 then Cut else
    var n := SignedLength(data[0], data[1]);
    if n <= 0 then Text([], 2)
    else if |data| < 2 + n then Cut
    else Text(data[2..2 + n], 2 + n)
  }

  datatype Read = Complete(record: Record, taken: nat) | Truncated | UnknownKind

  function ReadSingle(kind: Byte, data: Bytes): (r: Read)
    ensures r.Complete? ==> 0 < r.taken <= |data| + 1
  {
    var s := ReadSized(data);
    if s.Cut? then Truncated else Complete(Single(kind, s.content), 1 + s.taken)
  }

  function ReadPair(kind: Byte, data: Bytes): (r: Read)
    ensures r.Complete? ==> 0 < r.taken <= |data| + 1
  {
    var s := ReadSized(data);
    if s.Cut? then Truncated else
    var t := ReadSized(data[s.taken..]);
    if t.Cut? then Truncated else Complete(Pair(kind, s.content, t.content), 1 + s.taken + t.taken)
  }

  function ReadRecord(data: Bytes): (r: Read)
    requires data != []
    ensures r.Complete? ==> 0 < r.taken <= |data|
  {
    var kind := data[0];
    if kind == STRING || kind == ARRAY_KEY then ReadSingle(kind, data[1..])
    else if kind == UNMATCHED || kind == PREG_MATCH then ReadPair(kind, data[1..])
    else UnknownKind
  }

  // ---------------------------------------------------------------- what the reader collects

  /** What reversing a pattern gives: a shortest match and some more; nothing if it cannot be reversed. */
  datatype Reversal = Reversal(shortest: Bytes, more: seq<Bytes>)
  type Oracle = Bytes -> Option<Reversal>

  datatype Collected = Collected(
    strings: seq<Bytes>,
    keyStrings: seq<Bytes>,
    unmatched: seq<(Bytes, Bytes)>,
    pregMatches: seq<Bytes>,
    cache: map<Bytes, seq<Bytes>>)

  function WithEach(cmp: Bytes, rs: seq<Bytes>): seq<(Bytes, Bytes)> {
    if rs == [] then [] else WithEach(cmp, rs[..|rs| - 1]) + [(cmp, rs[|rs| - 1])]
  }

  function Absorb(c: Collected, r: Record, oracle: Oracle): Collected {
    match r
    case Single(kind, content) =>
      c.(strings := c.strings + [content],
         keyStrings := if kind == ARRAY_KEY then c.keyStrings + [content] else c.keyStrings)
    case Pair(kind, first, second) =>
      var c := c.(strings := c.strings + [first, second]);
      if kind == UNMATCHED then c.(unmatched := c.unmatched + [(first, second)])
      else AbsorbPattern(c, first, second, oracle)
  }

  /** The first time a pattern is seen its reversal is computed and remembered, unless it fails. */
  function AbsorbPattern(c: Collected, regexp: Bytes, cmp: Bytes, oracle: Oracle): Collected {
    if regexp in c.cache then
      var known := c.cache[regexp];
      c.(pregMatches := c.pregMatches + known, strings := c.strings + known,
         unmatched := c.unmatched + WithEach(cmp, known))
    else match oracle(regexp)
      case None => c
      case Some(Reversal(shortest, more)) =>
        var known := more + [shortest];
        Collected(c.strings + [shortest] + more, c.keyStrings, c.unmatched + WithEach(cmp, known),
                  c.pregMatches + [shortest] + more, c.cache[regexp := known])
  }

  datatype Outcome = Parsed(collected: Collected) | AssertionFailed

  function Parse(c: Collected, data: Bytes, oracle: Oracle): Outcome
    decreases |data|
  {
    if data == [] then Parsed(c)
    else match ReadRecord(data)
      case Truncated => Parsed(c)
      case UnknownKind => AssertionFailed
      case Complete(r, n) => Parse(Absorb(c, r, oracle), data[n..], oracle)
  }

  const NOTHING := Collected([], [], [], [], map[])

  function AbsorbAll(c: Collected, rs: seq<Record>, oracle: Oracle): Collected
    decreases |rs|
  {
    if rs == [] then c else AbsorbAll(Absorb(c, rs[0], oracle), rs[1..], oracle)
  }

  // ---------------------------------------------------------------- the format and the collection, told by bytes

  /** A string within 1000 bytes is written as its kind, 0 or for an array key 1, its length low byte first, and its
      bytes. */
  lemma SingleWritten(kind: Byte, s: Bytes)
    ensures Emittable(Single(kind, s)) <==> (kind == 0 || kind == 1) && |s| <= 1000
    ensures Emittable(Single(kind, s)) ==> Encode(Single(kind, s)) == [kind, |s| % 256, |s| / 256] + s
  {
  }

  /** Two strings within 1000 bytes together are written as their kind, 2 or for a pattern 3, and each string with its
      length before it. */
  lemma PairWritten(kind: Byte, s: Bytes, t: Bytes)
    ensures Emittable(Pair(kind, s, t)) <==> (kind == 2 || kind == 3) && |s| + |t| <= 1000
    ensures Emittable(Pair(kind, s, t)) ==>
      Encode(Pair(kind, s, t)) == [kind, |s| % 256, |s| / 256] + s + [|t| % 256, |t| / 256] + t
  {
  }

  /** A file with another kind where a record should start fails an assertion. */
  lemma UnknownKindFails(c: Collected, data: Bytes, oracle: Oracle)
    requires data != [] && data[0] > 3
    ensures Parse(c, data, oracle) == AssertionFailed
  {
  }

  /** A length of 0x8000 or more reads as negative, and the string as empty: the bytes after it are taken for a record. */
  lemma HugeLengthReadsEmpty(kind: Byte, lo: Byte, hi: Byte, rest: Bytes)
    requires (kind == 0 || kind == 1) && hi >= 0x80
    ensures ReadRecord([kind, lo, hi] + rest) == Complete(Single(kind, []), 3)
  {
    assert ([kind, lo, hi] + rest)[1..] == [lo, hi] + rest;
  }

  /** What one string adds: itself, and to the keys if it is an array key. */
  lemma SingleAdds(c: Collected, kind: Byte, s: Bytes, oracle: Oracle)
    requires kind == 0 || kind == 1
    ensures Absorb(c, Single(kind, s), oracle)
      == c.(strings := c.strings + [s], keyStrings := c.keyStrings + if kind == 1 then [s] else [])
  {
    assert c.keyStrings + [] == c.keyStrings;
  }

  /** What two strings add: both, and the pair if it is an unmatched one. */
  lemma UnmatchedAdds(c: Collected, s: Bytes, t: Bytes, oracle: Oracle)
    ensures Absorb(c, Pair(2, s, t), oracle)
      == c.(strings := c.strings + [s, t], unmatched := c.unmatched + [(s, t)])
  {
  }

  ghost predicate PairsWith(pairs: seq<(Bytes, Bytes)>, t: Bytes, matches: seq<Bytes>) {
    |pairs| == |matches| && forall i :: 0 <= i < |pairs| ==> pairs[i] == (t, matches[i])
  }

  lemma {:induction false} WithEachIs(t: Bytes, matches: seq<Bytes>)
    ensures PairsWith(WithEach(t, matches), t, matches)
  {
    if matches != [] {
      WithEachIs(t, matches[..|matches| - 1]);
    }
  }

  /** What a pattern and its subject add: both; and each string the reversed pattern gives, once to the matches, once to the
      strings, and paired with the subject, the shortest one last. A pattern that could be reversed is remembered. */
  lemma PatternAdds(c: Collected, s: Bytes, t: Bytes, oracle: Oracle) returns (pairs: seq<(Bytes, Bytes)>)
    requires CacheTrue(c, oracle)
    ensures var d := Absorb(c, Pair(3, s, t), oracle);
      var given := match oracle(s) case None => [] case Some(r) => r.more + [r.shortest];
      && d.cache == (if given == [] then c.cache else c.cache[s := given])
      && PairsWith(pairs, t, given) && d.unmatched == c.unmatched + pairs && d.keyStrings == c.keyStrings
      && multiset(d.pregMatches) == multiset(c.pregMatches) + multiset(given)
      && multiset(d.strings) == multiset(c.strings) + multiset{s, t} + multiset(given)
  {
    var given := match oracle(s) case None => [] case Some(r) => r.more + [r.shortest];
    pairs := WithEach(t, given);
    WithEachIs(t, given);
    if s in c.cache {
      assert c.cache[s := given] == c.cache;
    }
    PatternAddsOwn(c.(strings := c.strings + [s, t]), s, t, oracle);
    assert given != [] ==> multiset(given) == Reversed(Pair(3, s, t), oracle);
    if oracle(s).None? {
      assert c.unmatched + [] == c.unmatched;
    }
  }

  // ---------------------------------------------------------------- reading back what was written

  lemma ReadSizedWritten(s: Bytes, rest: Bytes)
    requires |s| <= LIMIT
    ensures ReadSized(Sized(s) + rest) == Text(s, |Sized(s)|)
  {
    var data := Sized(s) + rest;
    assert data[0] == |s| % 256 && data[1] == |s| / 256;
    assert data[2..2 + |s|] == s;
  }

  lemma ReadSizedCut(s: Bytes, p: nat)
    requires |s| <= LIMIT && p < |Sized(s)|
    ensures ReadSized(Sized(s)[..p]) == Cut
  {
    if p >= 2 {
      assert Sized(s)[..p][0] == |s| % 256 && Sized(s)[..p][1] == |s| / 256;
    }
  }

  lemma ReadPairWritten(kind: Byte, first: Bytes, second: Bytes, rest: Bytes)
    requires |first| + |second| <= LIMIT
    ensures ReadPair(kind, Sized(first) + Sized(second) + rest)
      == Complete(Pair(kind, first, second), 1 + |Sized(first)| + |Sized(second)|)
  {
    hide ReadSized, Sized;
    var data := Sized(first) + Sized(second) + rest;
    assert data == Sized(first) + (Sized(second) + rest);
    ReadSizedWritten(first, Sized(second) + rest);
    assert data[|Sized(first)|..] == Sized(second) + rest;
    ReadSizedWritten(second, rest);
  }

  lemma ReadPairCut(kind: Byte, first: Bytes, second: Bytes, p: nat)
    requires |first| + |second| <= LIMIT && p < |Sized(first) + Sized(second)|
    ensures ReadPair(kind, (Sized(first) + Sized(second))[..p]) == Truncated
  {
    hide ReadSized, Sized;
    var data := (Sized(first) + Sized(second))[..p];
    var n := |Sized(first)|;
    if p < n {
      assert data == Sized(first)[..p];
      ReadSizedCut(first, p);
    } else {
      var cut := Sized(second)[..p - n];
      assert data == Sized(first) + cut;
      ReadSizedWritten(first, cut);
      assert data[n..] == cut;
      ReadSizedCut(second, p - n);
    }
  }

  lemma ReadWritten(r: Record, rest: Bytes)
    requires Emittable(r)
    ensures ReadRecord(Encode(r) + rest) == Complete(r, |Encode(r)|)
  {
    hide ReadSized, Sized;
    var data := Encode(r) + rest;
    match r
    case Single(kind, content) =>
      assert data[1..] == Sized(content) + rest;
      ReadSizedWritten(content, rest);
    case Pair(kind, first, second) =>
      assert data[1..] == Sized(first) + Sized(second) + rest;
      ReadPairWritten(kind, first, second, rest);
  }

  lemma ReadCut(r: Record, p: nat)
    requires Emittable(r) && 0 < p < |Encode(r)|
    ensures ReadRecord(Encode(r)[..p]) == Truncated
  {
    hide ReadSized, Sized, ReadPair;
    var data := Encode(r)[..p];
    match r
    case Single(kind, content) =>
      assert data[1..] == Sized(content)[..p - 1];
      ReadSizedCut(content, p - 1);
    case Pair(kind, first, second) =>
      assert data[1..] == (Sized(first) + Sized(second))[..p - 1];
      ReadPairCut(kind, first, second, p - 1);
  }

  /** How many records lie wholly in the first `p` bytes. */
  function WholeRecords(rs: seq<Record>, p: nat): (k: nat)
    requires forall r :: r in rs ==> Emittable(r)
    ensures k <= |rs|
  {
    if rs == [] || p < |Encode(rs[0])| then 0 else 1 + WholeRecords(rs[1..], p - |Encode(rs[0])|)
  }

  /** That number is the largest for which the encoding fits. */
  lemma {:induction false} WholeRecordsFit(rs: seq<Record>, p: nat, k: nat)
    requires (forall r :: r in rs ==> Emittable(r)) && k <= |rs|
    ensures k <= WholeRecords(rs, p) <==> |EncodeAll(rs[..k])| <= p
  {
    hide Encode, Emittable, EncodeAll;
    if k == 0 {
      EncodeNone(rs[..k]);
    } else {
      EncodeTake(rs, k);
      if p >= |Encode(rs[0])| {
        WholeRecordsFit(rs[1..], p - |Encode(rs[0])|, k - 1);
      }
    }
  }

  lemma EncodeNone(rs: seq<Record>)
    requires rs == []
    ensures EncodeAll(rs) == []
  {
  }

  lemma EncodeTake(rs: seq<Record>, k: nat)
    requires (forall r :: r in rs ==> Emittable(r)) && 0 < k <= |rs|
    ensures |EncodeAll(rs[..k])| == |Encode(rs[0])| + |EncodeAll(rs[1..][..k - 1])|
  {
    hide Encode, Emittable;
    assert rs[..k][1..] == rs[1..][..k - 1];
  }

  /** Reading any prefix of what was written yields exactly the records wholly inside it. */
  lemma {:induction false} PrefixReadsWholeRecords(c: Collected, rs: seq<Record>, p: nat, oracle: Oracle)
    requires (forall r :: r in rs ==> Emittable(r)) && p <= |EncodeAll(rs)|
    ensures Parse(c, EncodeAll(rs)[..p], oracle) == Parsed(AbsorbAll(c, rs[..WholeRecords(rs, p)], oracle))
    decreases |rs|
  {
    hide ReadRecord, Encode, Absorb;
    var data := EncodeAll(rs)[..p];
    if rs != [] && p > 0 {
      var e := Encode(rs[0]);
      if p < |e| {
        assert data == e[..p];
        ReadCut(rs[0], p);
      } else {
        var rest := EncodeAll(rs[1..])[..p - |e|];
        assert data == e + rest;
        ReadWritten(rs[0], rest);
        assert data[|e|..] == rest;
        PrefixReadsWholeRecords(Absorb(c, rs[0], oracle), rs[1..], p - |e|, oracle);
        var k := WholeRecords(rs, p);
        assert rs[..k][1..] == rs[1..][..k - 1];
      }
    }
  }

  /** Reading the whole file yields every record written. */
  lemma WrittenReadsBack(rs: seq<Record>, oracle: Oracle)
    requires forall r :: r in rs ==> Emittable(r)
    ensures Parse(NOTHING, EncodeAll(rs), oracle) == Parsed(AbsorbAll(NOTHING, rs, oracle))
  {
    hide Parse, AbsorbAll, EncodeAll, Emittable, WholeRecords;
    var all := EncodeAll(rs);
    PrefixReadsWholeRecords(NOTHING, rs, |all|, oracle);
    assert all[..|all|] == all && rs[..|rs|] == rs;
    WholeRecordsFit(rs, |all|, |rs|);
  }

  // ---------------------------------------------------------------- the cache makes no difference

  /** What each record contributes when every pattern is reversed anew. */
  function KeysOf(rs: seq<Record>): seq<Bytes> {
    if rs == [] then []
    else KeysIn(rs[0]) + KeysOf(rs[1..])
  }

  function KeysIn(r: Record): seq<Bytes> {
    if r.Single? && r.kind == ARRAY_KEY then [r.content] else []
  }

  function UnmatchedIn(r: Record, oracle: Oracle): seq<(Bytes, Bytes)> {
    if r.Single? then []
    else if r.kind == UNMATCHED then [(r.first, r.second)]
    else match oracle(r.first)
      case None => []
      case Some(rev) => WithEach(r.second, rev.more + [rev.shortest])
  }

  function UnmatchedOf(rs: seq<Record>, oracle: Oracle): seq<(Bytes, Bytes)> {
    if rs == [] then [] else UnmatchedIn(rs[0], oracle) + UnmatchedOf(rs[1..], oracle)
  }

  function Reversed(r: Record, oracle: Oracle): multiset<Bytes> {
    if r.Single? || r.kind == UNMATCHED then multiset{} else
    match oracle(r.first)
    case None => multiset{}
    case Some(rev) => multiset(rev.more) + multiset{rev.shortest}
  }

  function PatternsOf(rs: seq<Record>, oracle: Oracle): multiset<Bytes> {
    if rs == [] then multiset{} else Reversed(rs[0], oracle) + PatternsOf(rs[1..], oracle)
  }

  function OwnStrings(r: Record): multiset<Bytes> {
    if r.Single? then multiset{r.content} else multiset{r.first, r.second}
  }

  function StringsOf(rs: seq<Record>, oracle: Oracle): multiset<Bytes> {
    if rs == [] then multiset{} else OwnStrings(rs[0]) + Reversed(rs[0], oracle) + StringsOf(rs[1..], oracle)
  }

  /** The cache holds what the oracle answers. */
  ghost predicate CacheTrue(c: Collected, oracle: Oracle) {
    forall k :: k in c.cache ==>
      oracle(k).Some? && c.cache[k] == oracle(k).value.more + [oracle(k).value.shortest]
  }

  lemma PatternAddsOwn(c: Collected, regexp: Bytes, cmp: Bytes, oracle: Oracle)
    requires CacheTrue(c, oracle)
    ensures var d := AbsorbPattern(c, regexp, cmp, oracle); var r := Pair(PREG_MATCH, regexp, cmp);
      && CacheTrue(d, oracle) && d.keyStrings == c.keyStrings
      && d.unmatched == c.unmatched + UnmatchedIn(r, oracle)
      && multiset(d.pregMatches) == multiset(c.pregMatches) + Reversed(r, oracle)
      && multiset(d.strings) == multiset(c.strings) + Reversed(r, oracle)
  {
    hide WithEach;
    if oracle(regexp).Some? {
      var rev := oracle(regexp).value;
      SameBag(c.pregMatches, rev);
      SameBag(c.strings, rev);
    }
  }

  /** Fresh and remembered reversals come in a different order, but are the same strings. */
  lemma SameBag(before: seq<Bytes>, rev: Reversal)
    ensures multiset(before + [rev.shortest] + rev.more) == multiset(before) + (multiset(rev.more) + multiset{rev.shortest})
    ensures multiset(before + (rev.more + [rev.shortest])) == multiset(before) + (multiset(rev.more) + multiset{rev.shortest})
  {
  }

  lemma AbsorbAddsOwn(c: Collected, r: Record, oracle: Oracle)
    requires CacheTrue(c, oracle) && Emittable(r)
    ensures var d := Absorb(c, r, oracle);
      && CacheTrue(d, oracle)
      && d.keyStrings == c.keyStrings + KeysIn(r)
      && d.unmatched == c.unmatched + UnmatchedIn(r, oracle)
      && multiset(d.pregMatches) == multiset(c.pregMatches) + Reversed(r, oracle)
      && multiset(d.strings) == multiset(c.strings) + OwnStrings(r) + Reversed(r, oracle)
  {
    hide AbsorbPattern, WithEach;
    if r.Pair? && r.kind != UNMATCHED {
      PatternAddsOwn(c.(strings := c.strings + [r.first, r.second]), r.first, r.second, oracle);
    }
  }

  lemma {:induction false} KeysAdd(c: Collected, rs: seq<Record>, oracle: Oracle)
    requires CacheTrue(c, oracle) && forall r :: r in rs ==> Emittable(r)
    ensures AbsorbAll(c, rs, oracle).keyStrings == c.keyStrings + KeysOf(rs)
    decreases |rs|
  {
    hide Absorb, KeysIn, UnmatchedIn, Reversed, OwnStrings, CacheTrue, Emittable;
    if rs != [] {
      AbsorbAddsOwn(c, rs[0], oracle);
      KeysAdd(Absorb(c, rs[0], oracle), rs[1..], oracle);
    }
  }

  lemma {:induction false} UnmatchedAdd(c: Collected, rs: seq<Record>, oracle: Oracle)
    requires CacheTrue(c, oracle) && forall r :: r in rs ==> Emittable(r)
    ensures AbsorbAll(c, rs, oracle).unmatched == c.unmatched + UnmatchedOf(rs, oracle)
    decreases |rs|
  {
    hide Absorb, KeysIn, UnmatchedIn, Reversed, OwnStrings, CacheTrue, Emittable;
    if rs != [] {
      AbsorbAddsOwn(c, rs[0], oracle);
      UnmatchedAdd(Absorb(c, rs[0], oracle), rs[1..], oracle);
    }
  }

  lemma {:induction false} PatternsAdd(c: Collected, rs: seq<Record>, oracle: Oracle)
    requires CacheTrue(c, oracle) && forall r :: r in rs ==> Emittable(r)
    ensures multiset(AbsorbAll(c, rs, oracle).pregMatches) == multiset(c.pregMatches) + PatternsOf(rs, oracle)
    decreases |rs|
  {
    hide Absorb, KeysIn, UnmatchedIn, Reversed, OwnStrings, CacheTrue, Emittable;
    if rs != [] {
      AbsorbAddsOwn(c, rs[0], oracle);
      PatternsAdd(Absorb(c, rs[0], oracle), rs[1..], oracle);
    }
  }

  lemma {:induction false} StringsAdd(c: Collected, rs: seq<Record>, oracle: Oracle)
    requires CacheTrue(c, oracle) && forall r :: r in rs ==> Emittable(r)
    ensures multiset(AbsorbAll(c, rs, oracle).strings) == multiset(c.strings) + StringsOf(rs, oracle)
    decreases |rs|
  {
    hide Absorb, KeysIn, UnmatchedIn, Reversed, OwnStrings, CacheTrue, Emittable;
    if rs != [] {
      AbsorbAddsOwn(c, rs[0], oracle);
      StringsAdd(Absorb(c, rs[0], oracle), rs[1..], oracle);
    }
  }

  /** With an oracle that answers the same question the same way, the reader collects what it would collect
      without its cache: keys and unmatched pairs in order, strings and pattern matches as multisets. */
  lemma CacheMakesNoDifference(rs: seq<Record>, oracle: Oracle)
    requires forall r :: r in rs ==> Emittable(r)
    ensures var d := AbsorbAll(NOTHING, rs, oracle);
      && d.keyStrings == KeysOf(rs) && d.unmatched == UnmatchedOf(rs, oracle)
      && multiset(d.pregMatches) == PatternsOf(rs, oracle) && multiset(d.strings) == StringsOf(rs, oracle)
  {
    KeysAdd(NOTHING, rs, oracle);
    UnmatchedAdd(NOTHING, rs, oracle);
    PatternsAdd(NOTHING, rs, oracle);
    StringsAdd(NOTHING, rs, oracle);
  }

  /** What the reader returns for any prefix of a written file, in terms of the records alone. */
  lemma PrefixYields(rs: seq<Record>, p: nat, oracle: Oracle)
    requires (forall r :: r in rs ==> Emittable(r)) && p <= |EncodeAll(rs)|
    ensures var whole := rs[..WholeRecords(rs, p)]; var out := Parse(NOTHING, EncodeAll(rs)[..p], oracle);
      && out.Parsed?
      && out.collected.keyStrings == KeysOf(whole) && out.collected.unmatched == UnmatchedOf(whole, oracle)
      && multiset(out.collected.pregMatches) == PatternsOf(whole, oracle)
      && multiset(out.collected.strings) == StringsOf(whole, oracle)
  {
    hide Parse, Emittable, AbsorbAll, KeysOf, UnmatchedOf, PatternsOf, StringsOf;
    PrefixReadsWholeRecords(NOTHING, rs, p, oracle);
    CacheMakesNoDifference(rs[..WholeRecords(rs, p)], oracle);
  }
}
