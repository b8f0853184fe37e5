/** The writers, which fill a fixed buffer and append it to the feedback file, and the reader, which walks
    over the file: both keep to the record format. */
module RedqueenFiles {
  import opened Collections
  import opened Redqueen

  /** The guest side. */
  class Writer {
    var redqueenModeEnabled: bool
    var file: Bytes

    constructor (enabled: bool)
      ensures redqueenModeEnabled == enabled && file == []
    {
      redqueenModeEnabled, file := enabled, [];
    }

    method DumpPayload(buf: array<Byte>, len: nat)
      requires len <= buf.Length
      modifies `file
      ensures file == old(file) + buf[..len]
    {
      if len == 0 {
        return;
      }
      file := file + buf[..len];
    }

    static method Put16(buf: array<Byte>, at: nat, n: nat)
      requires at + 2 <= buf.Length && n < 0x1_0000
      modifies buf
      ensures buf[..] == old(buf[..at]) + LengthBytes(n) + old(buf[at + 2..])
    {
      buf[at] := n % 256;
      buf[at + 1] := n / 256;
    }

    static method CopyTo(buf: array<Byte>, at: nat, s: Bytes)
      requires at + |s| <= buf.Length
      modifies buf
      ensures buf[..] == old(buf[..at]) + s + old(buf[at + |s|..])
    {
      ghost var was := buf[..];
      for i := 0 to |s|
        invariant forall k :: 0 <= k < i ==> buf[at + k] == s[k]
        invariant forall k :: 0 <= k < at || at + i <= k < buf.Length ==> buf[k] == was[k]
      {
        buf[at + i] := s[i];
      }
      Copied(buf[..], was, at, s);
    }

    static lemma Copied(data: Bytes, was: Bytes, at: nat, s: Bytes)
      requires |data| == |was| && at + |s| <= |was|
      requires forall k :: 0 <= k < |s| ==> data[at + k] == s[k]
      requires forall k :: 0 <= k < at || at + |s| <= k < |was| ==> data[k] == was[k]
      ensures data == was[..at] + s + was[at + |s|..]
    {
    }

    /** A record of one string; longer ones than the limit are dropped. */
    method DumpRedqueenPayload(s: Bytes, kind: Byte)
      requires kind == STRING || kind == ARRAY_KEY
      modifies `file
      ensures file == old(file) + if |s| > LIMIT then [] else Encode(Single(kind, s))
    {
      if |s| > LIMIT {
        return;
      }
      var buf := new Byte[1024](i => 0);
      buf[0] := kind;
      Put16(buf, 1, |s|);
      CopyTo(buf, 3, s);
      assert buf[..3 + |s|] == Encode(Single(kind, s));
      DumpPayload(buf, 3 + |s|);
    }

    method Redqueen(s: Bytes, kind: Byte)
      requires kind == STRING || kind == ARRAY_KEY
      modifies `file
      ensures file == old(file) + if redqueenModeEnabled && |s| <= LIMIT then Encode(Single(kind, s)) else []
    {
      if redqueenModeEnabled {
        DumpRedqueenPayload(s, kind);
      }
    }

    static method FillPair(buf: array<Byte>, kind: Byte, s1: Bytes, s2: Bytes)
      requires buf.Length == 1024 && |s1| + |s2| <= LIMIT
      modifies buf
      ensures buf[..3 + |s1| + 2 + |s2|] == [kind] + Sized(s1) + Sized(s2)
    {
      hide LengthBytes;
      LengthIsTwo(|s1|);
      LengthIsTwo(|s2|);
      buf[0] := kind;
      assert buf[..1] == [kind];
      Put16(buf, 1, |s1|);
      Filled(buf[..], [kind], LengthBytes(|s1|));
      CopyTo(buf, 3, s1);
      Filled(buf[..], [kind] + LengthBytes(|s1|), s1);
      Put16(buf, 3 + |s1|, |s2|);
      Filled(buf[..], [kind] + LengthBytes(|s1|) + s1, LengthBytes(|s2|));
      CopyTo(buf, 3 + |s1| + 2, s2);
      Filled(buf[..], [kind] + LengthBytes(|s1|) + s1 + LengthBytes(|s2|), s2);
      Regroup([kind], LengthBytes(|s1|), s1, LengthBytes(|s2|), s2);
    }

    static lemma LengthIsTwo(n: nat)
      requires n < 0x1_0000
      ensures |LengthBytes(n)| == 2
    {
    }

    /** What was there and what was added are the new beginning. */
    static lemma Filled(data: Bytes, before: Bytes, added: Bytes)
      requires |before| + |added| <= |data| && data[..|before|] == before
      requires data[|before|..|before| + |added|] == added
      ensures data[..|before| + |added|] == before + added
    {
    }

    static lemma Regroup(kind: Bytes, n1: Bytes, s1: Bytes, n2: Bytes, s2: Bytes)
      ensures kind + n1 + s1 + n2 + s2 == kind + (n1 + s1) + (n2 + s2)
    {
    }

    /** A record of two strings: an unmatched string with its counterpart, or a pattern with its subject. */
    method DumpPair(kind: Byte, s1: Bytes, s2: Bytes)
      requires kind == UNMATCHED || kind == PREG_MATCH
      modifies `file
      ensures file == old(file) + if redqueenModeEnabled && |s1| + |s2| <= LIMIT then Encode(Pair(kind, s1, s2)) else []
    {
      hide Sized;
      if redqueenModeEnabled {
        var buf := new Byte[1024](i => 0);
        if |s1| + |s2| > LIMIT {
          return;
        }
        FillPair(buf, kind, s1, s2);
        DumpPayload(buf, 3 + |s1| + 2 + |s2|);
      }
    }
  }

  /** The host side: a file and the position in it. */
  class Reader {
    const data: Bytes
    var pos: nat

    constructor (data: Bytes)
      ensures this.data == data && pos == 0
    {
      this.data, pos := data, 0;
    }

    /** The next bytes; asking beyond the end moves nothing. */
    method ReadBytes(len: nat) returns (r: Option<Bytes>)
      modifies this
      ensures if old(pos) + len > |data| then r.None? && pos == old(pos)
              else r == Some(data[old(pos)..old(pos) + len]) && pos == old(pos) + len
    {
      if pos + len > |data| {
        return None;
      }
      r := Some(data[pos..pos + len]);
      pos := pos + len;
    }

    method ReadString() returns (r: Option<Bytes>)
      requires pos <= |data|
      modifies this
      ensures var t := ReadSized(data[old(pos)..]);
        if t.Cut? then r.None? else r == Some(t.content) && pos == old(pos) + t.taken <= |data|
    {
      var rest := data[pos..];
      var header := ReadBytes(2);
      if header.None? {
        return None;
      }
      assert header.value == rest[..2];
      var length := SignedLength(header.value[0], header.value[1]);
      if length > 0 {
        r := ReadBytes(length);
        assert r.Some? ==> r.value == rest[2..2 + length];
      } else {
        r := Some([]);
      }
    }
  }

  /** What a pattern record adds: remembered reversals, or new ones that are remembered. */
  method AddPattern(c: Collected, regexp: Bytes, cmp: Bytes, oracle: Oracle) returns (d: Collected)
    ensures d == AbsorbPattern(c, regexp, cmp, oracle)
  {
    var pregMatches, strings, unmatched, cache := c.pregMatches, c.strings, c.unmatched, c.cache;
    if regexp in cache {
      pregMatches := pregMatches + cache[regexp];
      strings := strings + cache[regexp];
    } else {
      var reversal := oracle(regexp);
      if reversal.None? {
        return c;
      }
      var Reversal(shortest, more) := reversal.value;
      pregMatches := pregMatches + [shortest] + more;
      strings := strings + [shortest] + more;
      cache := cache[regexp := more + [shortest]];
    }
    var known := cache[regexp];
    for i := 0 to |known|
      invariant unmatched == c.unmatched + WithEach(cmp, known[..i])
    {
      unmatched := unmatched + [(cmp, known[i])];
      assert known[..i + 1][..i] == known[..i];
    }
    assert known[..|known|] == known;
    d := Collected(strings, c.keyStrings, unmatched, pregMatches, cache);
  }

  method ReadSingleRecord(f: Reader, sType: Byte, c: Collected, oracle: Oracle) returns (complete: bool, d: Collected)
    requires f.pos <= |f.data| && (sType == STRING || sType == ARRAY_KEY)
    modifies f
    ensures var r := ReadSingle(sType, f.data[old(f.pos)..]);
      if r.Complete? then complete && d == Absorb(c, r.record, oracle) && f.pos == old(f.pos) + r.taken - 1
      else r == Truncated && !complete && d == c
  {
    hide ReadSized;
    var content := f.ReadString();
    if content.None? {
      return false, c;
    }
    d := c.(strings := c.strings + [content.value]);
    if sType == ARRAY_KEY {
      d := d.(keyStrings := d.keyStrings + [content.value]);
    }
    complete := true;
  }

  method ReadPairRecord(f: Reader, sType: Byte, c: Collected, oracle: Oracle) returns (complete: bool, d: Collected)
    requires f.pos <= |f.data| && (sType == UNMATCHED || sType == PREG_MATCH)
    modifies f
    ensures var r := ReadPair(sType, f.data[old(f.pos)..]);
      if r.Complete? then complete && d == Absorb(c, r.record, oracle) && f.pos == old(f.pos) + r.taken - 1
      else r == Truncated && !complete && d == c
  {
    hide ReadSized, AbsorbPattern;
    ghost var rest := f.data[f.pos..];
    var str1 := f.ReadString();
    if str1.None? {
      return false, c;
    }
    assert f.data[f.pos..] == rest[ReadSized(rest).taken..];
    var str2 := f.ReadString();
    if str2.None? {
      return false, c;
    }
    d := c.(strings := c.strings + [str1.value, str2.value]);
    if sType == UNMATCHED {
      d := d.(unmatched := d.unmatched + [(str1.value, str2.value)]);
    } else {
      d := AddPattern(d, str1.value, str2.value, oracle);
    }
    complete := true;
  }

  /** Reads a whole file. Data that ends within a record ends the loop; an unknown kind fails an assertion. */
  method ParseRedqueenFile(data: Bytes, oracle: Oracle) returns (r: Outcome)
    ensures r == Parse(NOTHING, data, oracle)
  {
    hide Absorb, ReadSingle, ReadPair;
    var f := new Reader(data);
    var c := NOTHING;
    assert data[0..] == data;
    while f.pos < |data|
      invariant fresh(f) && f.data == data && f.pos <= |data|
      invariant Parse(c, data[f.pos..], oracle) == Parse(NOTHING, data, oracle)
      decreases |data| - f.pos
    {
      ghost var rest := data[f.pos..];
      var kind := f.ReadBytes(1);
      var sType := kind.value[0];
      assert sType == rest[0] && data[f.pos..] == rest[1..];
      var complete;
      if sType == STRING || sType == ARRAY_KEY {
        complete, c := ReadSingleRecord(f, sType, c, oracle);
      } else if sType == UNMATCHED || sType == PREG_MATCH {
        complete, c := ReadPairRecord(f, sType, c, oracle);
      } else {
        return AssertionFailed;
      }
      if !complete {
        return Parsed(c);
      }
      assert data[f.pos..] == rest[ReadRecord(rest).taken..];
    }
    r := Parsed(c);
  }
}
