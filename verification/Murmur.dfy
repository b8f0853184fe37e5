/** The 32-bit MurmurHash3: every mixing step can be undone, so keys that differ in one place never collide. */
module Murmur {
  type Byte = bv8

  // ---------------------------------------------------------------- the mixing steps

  function Rotl32(x: bv32, r: bv6): bv32
    requires 0 < r < 32
  {
    (x << r) | (x >> (32 - r))
  }

  // Each step has a name so that the proofs need not look into its bits.

  function MulC1(x: bv32): bv32 {
    x * 0xcc9e2d51
  }

  function MulC2(x: bv32): bv32 {
    x * 0x1b873593
  }

  function Rotl15(x: bv32): bv32 {
    Rotl32(x, 15)
  }

  function Rotl13(x: bv32): bv32 {
    Rotl32(x, 13)
  }

  function FiveTimesPlus(x: bv32): bv32 {
    x * 5 + 0xe6546b64
  }

  function Fold16(x: bv32): bv32 {
    x ^ (x >> 16)
  }

  function Fold13(x: bv32): bv32 {
    x ^ (x >> 13)
  }

  function MulF1(x: bv32): bv32 {
    x * 0x85ebca6b
  }

  function MulF2(x: bv32): bv32 {
    x * 0xc2b2ae35
  }

  function MixBlock(k: bv32): bv32 {
    MulC2(Rotl15(MulC1(k)))
  }

  function AddBlock(h: bv32, mixed: bv32): bv32 {
    FiveTimesPlus(Rotl13(Xor(h, mixed)))
  }

  function Fmix32(h: bv32): bv32 {
    Fold16(MulF2(Fold13(MulF1(Fold16(h)))))
  }

  function Xor(a: bv32, b: bv32): bv32 {
    a ^ b
  }

  /** A block of four bytes, low byte first. */
  function Block(data: seq<Byte>, i: nat): bv32
    requires 4 * i + 4 <= |data|
  {
    Word(data[4 * i], data[4 * i + 1], data[4 * i + 2], data[4 * i + 3])
  }

  function Word(b0: Byte, b1: Byte, b2: Byte, b3: Byte): bv32 {
    (b0 as bv32) | ((b1 as bv32) << 8) | ((b2 as bv32) << 16) | ((b3 as bv32) << 24)
  }

  function Shifted(b: Byte, n: bv6): bv32
    requires n < 32
  {
    (b as bv32) << n
  }

  /** The bytes after the last whole block. */
  function TailWord(tail: seq<Byte>): bv32
    requires |tail| < 4
  {
    var k0 := 0;
    var k2 := if |tail| == 3 then Xor(k0, Shifted(tail[2], 16)) else k0;
    var k1 := if |tail| >= 2 then Xor(k2, Shifted(tail[1], 8)) else k2;
    if |tail| >= 1 then Xor(k1, Shifted(tail[0], 0)) else k1
  }

  // ---------------------------------------------------------------- the hash

  /** The state after the first `n` blocks. */
  function Body(data: seq<Byte>, n: nat, seed: bv32): bv32
    requires 4 * n <= |data|
  {
    if n == 0 then seed else AddBlock(Body(data, n - 1, seed), MixBlock(Block(data, n - 1)))
  }

  function Tail(data: seq<Byte>): (t: seq<Byte>)
    ensures |t| < 4
  {
    data[|data| / 4 * 4..]
  }

  function WithTail(h: bv32, tail: seq<Byte>): bv32
    requires |tail| < 4
  {
    if tail == [] then h else Xor(h, MixBlock(TailWord(tail)))
  }

  function LengthWord(n: nat): bv32 {
    (n % 0x1_0000_0000) as bv32
  }

  function Hash(data: seq<Byte>, seed: bv32): bv32 {
    Fmix32(Xor(WithTail(Body(data, |data| / 4, seed), Tail(data)), LengthWord(|data|)))
  }

  method MurmurHash3_x86_32(data: seq<Byte>, seed: bv32) returns (out: bv32)
    ensures out == Hash(data, seed)
  {
    hide MixBlock, AddBlock, Fmix32, Xor, Block, TailWord;
    var nblocks := |data| / 4;
    var h1 := seed;
    for i := 0 to nblocks
      invariant h1 == Body(data, i, seed)
    {
      h1 := AddBlock(h1, MixBlock(Block(data, i)));
    }
    var tail := data[nblocks * 4..];
    if |tail| > 0 {
      h1 := Xor(h1, MixBlock(TailWord(tail)));
    }
    h1 := Xor(h1, LengthWord(|data|));
    out := Fmix32(h1);
  }

  // ---------------------------------------------------------------- known hashes

  /** The hashes of the empty key and of keys that are all tail. */
  lemma KnownTailHashes()
    ensures Hash([], 0) == 0 && Hash([], 1) == 0x514E_28B7
    ensures Hash([0x21], 0) == 0x7266_1CF4 && Hash([0x21, 0x43], 0) == 0xA0F7_B07A
    ensures Hash([0x21, 0x43, 0x65], 0) == 0x7E4A_8634
  {
    hide Hash, LengthWord, WithTail, Fmix32, Xor;
    TailOnly([], 0);
    TailOnly([], 1);
    TailOnly([0x21], 0);
    TailOnly([0x21, 0x43], 0);
    TailOnly([0x21, 0x43, 0x65], 0);
    KnownLengths();
    KnownTails();
    KnownEnds();
  }

  lemma TailOnly(key: seq<Byte>, seed: bv32)
    requires |key| < 4
    ensures Hash(key, seed) == Fmix32(Xor(WithTail(seed, key), LengthWord(|key|)))
  {
    hide LengthWord, WithTail, Fmix32, Xor;
    assert Tail(key) == key;
  }

  lemma SmallLength(n: nat)
    requires n < 0x1_0000_0000
    ensures LengthWord(n) == n as bv32
  {
  }

  lemma KnownLengths()
    ensures LengthWord(0) == 0 && LengthWord(1) == 1 && LengthWord(2) == 2 && LengthWord(3) == 3
    ensures LengthWord(4) == 4 && LengthWord(13) == 13
  {
    hide LengthWord;
    SmallLength(0);
    SmallLength(1);
    SmallLength(2);
    SmallLength(3);
    SmallLength(4);
    SmallLength(13);
  }

  lemma KnownTails()
    ensures WithTail(0, []) == 0 && WithTail(1, []) == 1
    ensures WithTail(0, [0x21]) == 0xAC5E_5123 && WithTail(0, [0x21, 0x43]) == 0xEC90_0B60
    ensures WithTail(0, [0x21, 0x43, 0x65]) == 0x17A6_636E
  {
  }

  lemma KnownEnds()
    ensures Fmix32(Xor(0, 0)) == 0 && Fmix32(Xor(1, 0)) == 0x514E_28B7
    ensures Fmix32(Xor(0xAC5E_5123, 1)) == 0x7266_1CF4 && Fmix32(Xor(0xEC90_0B60, 2)) == 0xA0F7_B07A
    ensures Fmix32(Xor(0x17A6_636E, 3)) == 0x7E4A_8634
  {
  }

  /** The hash of "Hello, world!", which has three blocks and a tail. */
  lemma KnownLongHash()
    ensures Hash([0x48, 0x65, 0x6C, 0x6C, 0x6F, 0x2C, 0x20,
                  0x77, 0x6F, 0x72, 0x6C, 0x64, 0x21], 1234) == 0xFAF6_CDB3
  {
    hide AddBlock, MixBlock, Word, LengthWord, WithTail, Fmix32, Xor;
    var data := [0x48, 0x65, 0x6C, 0x6C, 0x6F, 0x2C, 0x20,
                 0x77, 0x6F, 0x72, 0x6C, 0x64, 0x21];
    KnownSteps();
    KnownLengths();
    KnownEnd13();
    assert Body(data, 1, 1234) == AddBlock(Body(data, 0, 1234), MixBlock(Block(data, 0)));
    assert Body(data, 2, 1234) == AddBlock(Body(data, 1, 1234), MixBlock(Block(data, 1)));
    assert Body(data, 3, 1234) == AddBlock(Body(data, 2, 1234), MixBlock(Block(data, 2)));
    assert Tail(data) == [0x21];
  }

  lemma KnownSteps()
    ensures AddBlock(1234, MixBlock(Word(0x48, 0x65, 0x6C, 0x6C))) == 0xCE5F_2C36
    ensures AddBlock(0xCE5F_2C36, MixBlock(Word(0x6F, 0x2C, 0x20, 0x77))) == 0xCAB5_BB8F
    ensures AddBlock(0xCAB5_BB8F, MixBlock(Word(0x6F, 0x72, 0x6C, 0x64))) == 0xA2FC_E949
  {
  }

  lemma KnownEnd13()
    ensures WithTail(0xA2FC_E949, [0x21]) == 0x0EA2_B86A && Fmix32(Xor(0x0EA2_B86A, 13)) == 0xFAF6_CDB3
  {
  }

  // ---------------------------------------------------------------- undoing the steps

  function UndoMulC1(x: bv32): bv32 {
    x * 0xdee13bb1
  }

  lemma MulC1Bits(x: bv32)
    ensures UndoMulC1(x * 0xcc9e2d51) == x
  {
    hide MulC1;
  }

  lemma MulC1Undone(x: bv32)
    ensures UndoMulC1(MulC1(x)) == x
  {
    hide UndoMulC1;
    MulC1Bits(x);
  }

  function UndoMulC2(x: bv32): bv32 {
    x * 0x56ed309b
  }

  lemma MulC2Bits(x: bv32)
    ensures UndoMulC2(x * 0x1b873593) == x
  {
    hide MulC2;
  }

  lemma MulC2Undone(x: bv32)
    ensures UndoMulC2(MulC2(x)) == x
  {
    hide UndoMulC2;
    MulC2Bits(x);
  }

  function UndoRotl15(x: bv32): bv32 {
    Rotl32(x, 17)
  }

  lemma Rotl15Undone(x: bv32)
    ensures UndoRotl15(Rotl15(x)) == x
  {
  }

  function UndoRotl13(x: bv32): bv32 {
    Rotl32(x, 19)
  }

  lemma Rotl13Undone(x: bv32)
    ensures UndoRotl13(Rotl13(x)) == x
  {
  }

  function UndoFiveTimesPlus(x: bv32): bv32 {
    (x - 0xe6546b64) * 0xcccccccd
  }

  lemma FiveTimesPlusBits(x: bv32)
    ensures UndoFiveTimesPlus(x * 5 + 0xe6546b64) == x
  {
    hide FiveTimesPlus;
  }

  lemma FiveTimesPlusUndone(x: bv32)
    ensures UndoFiveTimesPlus(FiveTimesPlus(x)) == x
  {
    hide UndoFiveTimesPlus;
    FiveTimesPlusBits(x);
  }

  function UndoFold16(x: bv32): bv32 {
    x ^ (x >> 16)
  }

  lemma Fold16Bits(x: bv32)
    ensures UndoFold16(x ^ (x >> 16)) == x
  {
    hide Fold16;
  }

  lemma Fold16Undone(x: bv32)
    ensures UndoFold16(Fold16(x)) == x
  {
    hide UndoFold16;
    Fold16Bits(x);
  }

  function UndoFold13(x: bv32): bv32 {
    x ^ (x >> 13) ^ (x >> 26)
  }

  lemma Fold13Bits(x: bv32)
    ensures UndoFold13(x ^ (x >> 13)) == x
  {
    hide Fold13;
  }

  lemma Fold13Undone(x: bv32)
    ensures UndoFold13(Fold13(x)) == x
  {
    hide UndoFold13;
    Fold13Bits(x);
  }

  function UndoMulF1(x: bv32): bv32 {
    x * 0xa5cb9243
  }

  lemma MulF1Bits(x: bv32)
    ensures UndoMulF1(x * 0x85ebca6b) == x
  {
    hide MulF1;
  }

  lemma MulF1Undone(x: bv32)
    ensures UndoMulF1(MulF1(x)) == x
  {
    hide UndoMulF1;
    MulF1Bits(x);
  }

  function UndoMulF2(x: bv32): bv32 {
    x * 0x7ed1b41d
  }

  lemma MulF2Bits(x: bv32)
    ensures UndoMulF2(x * 0xc2b2ae35) == x
  {
    hide MulF2;
  }

  lemma MulF2Undone(x: bv32)
    ensures UndoMulF2(MulF2(x)) == x
  {
    hide UndoMulF2;
    MulF2Bits(x);
  }

  lemma XorUndone(a: bv32, b: bv32)
    ensures Xor(Xor(a, b), b) == a
  {
  }

  lemma XorUndoneFirst(a: bv32, b: bv32)
    ensures Xor(a, Xor(a, b)) == b
  {
  }

  lemma MixBlockInjective(k: bv32, l: bv32)
    requires MixBlock(k) == MixBlock(l)
    ensures k == l
  {
    hide MulC1, MulC2, Rotl15;
    MulC2Undone(Rotl15(MulC1(k)));
    MulC2Undone(Rotl15(MulC1(l)));
    Rotl15Undone(MulC1(k));
    Rotl15Undone(MulC1(l));
    MulC1Undone(k);
    MulC1Undone(l);
  }

  lemma AddBlockCancels(h: bv32, m: bv32, g: bv32, n: bv32)
    requires AddBlock(h, m) == AddBlock(g, n)
    ensures Xor(h, m) == Xor(g, n)
  {
    hide Xor, Rotl13, FiveTimesPlus;
    FiveTimesPlusUndone(Rotl13(Xor(h, m)));
    FiveTimesPlusUndone(Rotl13(Xor(g, n)));
    Rotl13Undone(Xor(h, m));
    Rotl13Undone(Xor(g, n));
  }

  lemma Fmix32Injective(h: bv32, g: bv32)
    requires Fmix32(h) == Fmix32(g)
    ensures h == g
  {
    hide Fold16, Fold13, MulF1, MulF2;
    var h1, g1 := Fold16(h), Fold16(g);
    Fold16Undone(MulF2(Fold13(MulF1(h1))));
    Fold16Undone(MulF2(Fold13(MulF1(g1))));
    MulF2Undone(Fold13(MulF1(h1)));
    MulF2Undone(Fold13(MulF1(g1)));
    Fold13Undone(MulF1(h1));
    Fold13Undone(MulF1(g1));
    MulF1Undone(h1);
    MulF1Undone(g1);
    Fold16Undone(h);
    Fold16Undone(g);
  }

  /** The same second operand can be cancelled, and the same first one. */
  lemma XorCancels(a: bv32, b: bv32, x: bv32)
    ensures Xor(a, x) == Xor(b, x) ==> a == b
    ensures Xor(x, a) == Xor(x, b) ==> a == b
  {
    hide Xor;
    XorUndone(a, x);
    XorUndone(b, x);
    XorUndoneFirst(x, a);
    XorUndoneFirst(x, b);
  }

  // ---------------------------------------------------------------- different bytes, different words

  lemma BlockBytes(a: seq<Byte>, b: seq<Byte>, i: nat)
    requires 4 * i + 4 <= |a| && |a| == |b| && Block(a, i) == Block(b, i)
    ensures a[4 * i..4 * i + 4] == b[4 * i..4 * i + 4]
  {
    hide Word;
    var p := 4 * i;
    WordBytes(a[p], a[p + 1], a[p + 2], a[p + 3], b[p], b[p + 1], b[p + 2], b[p + 3]);
  }

  lemma WordBytes(a0: Byte, a1: Byte, a2: Byte, a3: Byte, b0: Byte, b1: Byte, b2: Byte, b3: Byte)
    requires Word(a0, a1, a2, a3) == Word(b0, b1, b2, b3)
    ensures a0 == b0 && a1 == b1 && a2 == b2 && a3 == b3
  {
  }

  lemma SameBytesSameBlock(a: seq<Byte>, b: seq<Byte>, i: nat)
    requires 4 * i + 4 <= |a| && |a| == |b| && a[4 * i..4 * i + 4] == b[4 * i..4 * i + 4]
    ensures Block(a, i) == Block(b, i)
  {
    hide Word;
    var s, t := a[4 * i..4 * i + 4], b[4 * i..4 * i + 4];
    assert s[0] == t[0] && s[1] == t[1] && s[2] == t[2] && s[3] == t[3];
  }

  lemma TailBytes(s: seq<Byte>, t: seq<Byte>)
    requires |s| == |t| < 4 && TailWord(s) == TailWord(t)
    ensures s == t
  {
    hide Xor, Shifted;
    if |s| == 1 {
      OneByte(s[0], t[0]);
    } else if |s| == 2 {
      TwoBytes(s[0], s[1], t[0], t[1]);
    } else if |s| == 3 {
      ThreeBytes(s[0], s[1], s[2], t[0], t[1], t[2]);
    }
  }

  lemma OneByte(a0: Byte, b0: Byte)
    requires Xor(0, Shifted(a0, 0)) == Xor(0, Shifted(b0, 0))
    ensures a0 == b0
  {
  }

  lemma TwoBytes(a0: Byte, a1: Byte, b0: Byte, b1: Byte)
    requires Xor(Xor(0, Shifted(a1, 8)), Shifted(a0, 0)) == Xor(Xor(0, Shifted(b1, 8)), Shifted(b0, 0))
    ensures a0 == b0 && a1 == b1
  {
  }

  lemma ThreeBytes(a0: Byte, a1: Byte, a2: Byte, b0: Byte, b1: Byte, b2: Byte)
    requires Xor(Xor(Xor(0, Shifted(a2, 16)), Shifted(a1, 8)), Shifted(a0, 0))
      == Xor(Xor(Xor(0, Shifted(b2, 16)), Shifted(b1, 8)), Shifted(b0, 0))
    ensures a0 == b0 && a1 == b1 && a2 == b2
  {
  }

  // ---------------------------------------------------------------- keys that differ in one place

  predicate SameBlocks(a: seq<Byte>, b: seq<Byte>, lo: nat, hi: nat)
    requires 4 * hi <= |a| && |a| == |b|
  {
    forall i {:trigger Block(a, i)} {:trigger Block(b, i)} :: lo <= i < hi ==> Block(a, i) == Block(b, i)
  }

  lemma {:induction false} SameBlocksSameBody(a: seq<Byte>, b: seq<Byte>, n: nat, seed: bv32)
    requires 4 * n <= |a| && |a| == |b| && SameBlocks(a, b, 0, n)
    ensures Body(a, n, seed) == Body(b, n, seed)
  {
    hide Block, AddBlock, MixBlock;
    if n > 0 {
      SameBlocksSameBody(a, b, n - 1, seed);
    }
  }

  /** A difference in block `i` survives the equal blocks after it. */
  lemma {:induction false} BodyDiffers(a: seq<Byte>, b: seq<Byte>, i: nat, n: nat, seed: bv32)
    requires i < n && 4 * n <= |a| && |a| == |b| && Block(a, i) != Block(b, i)
    requires SameBlocks(a, b, 0, i) && SameBlocks(a, b, i + 1, n)
    ensures Body(a, n, seed) != Body(b, n, seed)
    decreases n
  {
    hide Block, AddBlock, MixBlock, Xor;
    var h, g := Body(a, n - 1, seed), Body(b, n - 1, seed);
    var k, l := MixBlock(Block(a, n - 1)), MixBlock(Block(b, n - 1));
    if i == n - 1 {
      SameBlocksSameBody(a, b, i, seed);
      if AddBlock(h, k) == AddBlock(g, l) {
        AddBlockCancels(h, k, g, l);
        XorCancels(k, l, h);
        MixBlockInjective(Block(a, i), Block(b, i));
      }
    } else {
      BodyDiffers(a, b, i, n - 1, seed);
      if AddBlock(h, k) == AddBlock(g, l) {
        AddBlockCancels(h, k, g, l);
        XorCancels(h, g, k);
      }
    }
  }

  lemma FinishDiffers(a: seq<Byte>, b: seq<Byte>, seed: bv32)
    requires |a| == |b|
    requires WithTail(Body(a, |a| / 4, seed), Tail(a)) != WithTail(Body(b, |b| / 4, seed), Tail(b))
    ensures Hash(a, seed) != Hash(b, seed)
  {
    hide Body, WithTail, Fmix32, Xor, LengthWord;
    var h := WithTail(Body(a, |a| / 4, seed), Tail(a));
    var g := WithTail(Body(b, |b| / 4, seed), Tail(b));
    var x, y := Xor(h, LengthWord(|a|)), Xor(g, LengthWord(|b|));
    if Fmix32(x) == Fmix32(y) {
      Fmix32Injective(x, y);
      XorCancels(h, g, LengthWord(|a|));
    }
  }

  /** Keys of equal length that differ in exactly one aligned block of four bytes have different hashes. */
  lemma OneBlockNoCollision(a: seq<Byte>, b: seq<Byte>, i: nat, seed: bv32)
    requires |a| == |b| && 4 * i + 4 <= |a|
    requires a[..4 * i] == b[..4 * i] && a[4 * i + 4..] == b[4 * i + 4..]
    requires a[4 * i..4 * i + 4] != b[4 * i..4 * i + 4]
    ensures Hash(a, seed) != Hash(b, seed)
  {
    hide Block, Body, WithTail, Hash;
    var n := |a| / 4;
    if Block(a, i) == Block(b, i) {
      BlockBytes(a, b, i);
    }
    forall j | 0 <= j < n && j != i
      ensures Block(a, j) == Block(b, j)
    {
      OtherBytesSame(a, b, i, j);
      SameBytesSameBlock(a, b, j);
    }
    BodyDiffers(a, b, i, n, seed);
    assert Tail(a) == Tail(b) by {
      assert Tail(a) == a[4 * i + 4..][n * 4 - 4 * i - 4..];
      assert Tail(b) == b[4 * i + 4..][n * 4 - 4 * i - 4..];
    }
    SameTailDiffers(Body(a, n, seed), Body(b, n, seed), Tail(a));
    FinishDiffers(a, b, seed);
  }

  lemma OtherBytesSame(a: seq<Byte>, b: seq<Byte>, i: nat, j: nat)
    requires |a| == |b| && 4 * i + 4 <= |a| && 4 * j + 4 <= |a| && j != i
    requires a[..4 * i] == b[..4 * i] && a[4 * i + 4..] == b[4 * i + 4..]
    ensures a[4 * j..4 * j + 4] == b[4 * j..4 * j + 4]
  {
    if j < i {
      assert a[4 * j..4 * j + 4] == a[..4 * i][4 * j..4 * j + 4];
      assert b[4 * j..4 * j + 4] == b[..4 * i][4 * j..4 * j + 4];
    } else {
      var d := 4 * j - 4 * i - 4;
      assert a[4 * j..4 * j + 4] == a[4 * i + 4..][d..d + 4];
      assert b[4 * j..4 * j + 4] == b[4 * i + 4..][d..d + 4];
    }
  }

  lemma SameTailDiffers(h: bv32, g: bv32, tail: seq<Byte>)
    requires h != g && |tail| < 4
    ensures WithTail(h, tail) != WithTail(g, tail)
  {
    hide Xor, MixBlock, TailWord;
    if tail != [] {
      XorCancels(h, g, MixBlock(TailWord(tail)));
    }
  }

  /** Keys of equal length that differ only in the bytes after the last block have different hashes. */
  lemma TailNoCollision(a: seq<Byte>, b: seq<Byte>, seed: bv32)
    requires |a| == |b| && a != b && a[..|a| / 4 * 4] == b[..|a| / 4 * 4]
    ensures Hash(a, seed) != Hash(b, seed)
  {
    hide Block, Body, WithTail, Hash;
    var n := |a| / 4;
    assert Tail(a) != Tail(b) by {
      assert a == a[..n * 4] + Tail(a) && b == b[..n * 4] + Tail(b);
    }
    forall j | 0 <= j < n
      ensures Block(a, j) == Block(b, j)
    {
      assert a[4 * j..4 * j + 4] == a[..n * 4][4 * j..4 * j + 4];
      assert b[4 * j..4 * j + 4] == b[..n * 4][4 * j..4 * j + 4];
      SameBytesSameBlock(a, b, j);
    }
    SameBlocksSameBody(a, b, n, seed);
    OtherTailDiffers(Body(a, n, seed), Tail(a), Tail(b));
    FinishDiffers(a, b, seed);
  }

  lemma OtherTailDiffers(h: bv32, s: seq<Byte>, t: seq<Byte>)
    requires |s| == |t| < 4 && s != t
    ensures WithTail(h, s) != WithTail(h, t)
  {
    hide Xor, MixBlock, TailWord;
    if WithTail(h, s) == WithTail(h, t) {
      XorCancels(MixBlock(TailWord(s)), MixBlock(TailWord(t)), h);
      MixBlockInjective(TailWord(s), TailWord(t));
      TailBytes(s, t);
    }
  }

  // ---------------------------------------------------------------- the table of short hashes

  type Uint32 = n: int | 0 <= n < 0x1_0000_0000

  const TABLE_SIZE: nat := 0x1000

  /** The bytes of a 32-bit number as they lie in memory, low byte first. */
  function KeyBytes(n: Uint32): (key: seq<Byte>)
    ensures |key| == 4
  {
    var n1 := Shift8(n);
    var n2 := Shift8(n1);
    [LowByte(n), LowByte(n1), LowByte(n2), LowByte(Shift8(n2))]
  }

  function Half(n: Uint32): Uint32 {
    n / 2
  }

  predicate Odd(n: Uint32) {
    n % 2 == 1
  }

  function Shift4(n: Uint32): Uint32 {
    Half(Half(Half(Half(n))))
  }

  function Shift8(n: Uint32): Uint32 {
    Shift4(Shift4(n))
  }

  /** The low eight bits of a number, as a machine byte. */
  function LowByte(n: Uint32): Byte {
    var m := Shift4(n);
    BitsByte(Odd(n), Odd(Half(n)), Odd(Half(Half(n))), Odd(Half(Half(Half(n)))),
             Odd(m), Odd(Half(m)), Odd(Half(Half(m))), Odd(Half(Half(Half(m)))))
  }

  function BitsByte(b0: bool, b1: bool, b2: bool, b3: bool, b4: bool, b5: bool, b6: bool, b7: bool): Byte {
    (if b0 then 1 else 0) | (if b1 then 2 else 0) | (if b2 then 4 else 0) | (if b3 then 8 else 0)
    | (if b4 then 16 else 0) | (if b5 then 32 else 0) | (if b6 then 64 else 0) | (if b7 then 128 else 0)
  }

  lemma BitsByteInjective(b0: bool, b1: bool, b2: bool, b3: bool, b4: bool, b5: bool, b6: bool, b7: bool,
                          c0: bool, c1: bool, c2: bool, c3: bool, c4: bool, c5: bool, c6: bool, c7: bool)
    requires BitsByte(b0, b1, b2, b3, b4, b5, b6, b7) == BitsByte(c0, c1, c2, c3, c4, c5, c6, c7)
    ensures b0 == c0 && b1 == c1 && b2 == c2 && b3 == c3 && b4 == c4 && b5 == c5 && b6 == c6 && b7 == c7
  {
  }

  lemma HalfTold(n: Uint32, m: Uint32)
    requires Odd(n) == Odd(m) && Half(n) == Half(m)
    ensures n == m
  {
  }

  lemma Shift4Told(n: Uint32, m: Uint32)
    requires Odd(n) == Odd(m) && Odd(Half(n)) == Odd(Half(m)) && Odd(Half(Half(n))) == Odd(Half(Half(m)))
    requires Odd(Half(Half(Half(n)))) == Odd(Half(Half(Half(m)))) && Shift4(n) == Shift4(m)
    ensures n == m
  {
    hide Odd, Half;
    HalfTold(Half(Half(Half(n))), Half(Half(Half(m))));
    HalfTold(Half(Half(n)), Half(Half(m)));
    HalfTold(Half(n), Half(m));
    HalfTold(n, m);
  }

  lemma LowByteTold(n: Uint32, m: Uint32)
    requires LowByte(n) == LowByte(m) && Shift8(n) == Shift8(m)
    ensures n == m
  {
    hide BitsByte, Odd, Half, Shift4;
    var p, q := Shift4(n), Shift4(m);
    BitsByteInjective(Odd(n), Odd(Half(n)), Odd(Half(Half(n))), Odd(Half(Half(Half(n)))),
                      Odd(p), Odd(Half(p)), Odd(Half(Half(p))), Odd(Half(Half(Half(p)))),
                      Odd(m), Odd(Half(m)), Odd(Half(Half(m))), Odd(Half(Half(Half(m)))),
                      Odd(q), Odd(Half(q)), Odd(Half(Half(q))), Odd(Half(Half(Half(q)))));
    Shift4Told(p, q);
    Shift4Told(n, m);
  }

  lemma Shift4Shrinks(n: Uint32)
    ensures 16 * Shift4(n) <= n
  {
  }

  lemma Shift8Shrinks(n: Uint32)
    ensures 256 * Shift8(n) <= n
  {
    hide Shift4;
    Shift4Shrinks(n);
    Shift4Shrinks(Shift4(n));
  }

  /** Only four bytes: nothing is left after them. */
  lemma NothingLeft(n: Uint32)
    ensures Shift8(Shift8(Shift8(Shift8(n)))) == 0
  {
    hide Shift8;
    Shift8Shrinks(n);
    Shift8Shrinks(Shift8(n));
    Shift8Shrinks(Shift8(Shift8(n)));
    Shift8Shrinks(Shift8(Shift8(Shift8(n))));
  }

  lemma KeyBytesInjective(n: Uint32, m: Uint32)
    requires KeyBytes(n) == KeyBytes(m)
    ensures n == m
  {
    hide LowByte, Shift8;
    var s, t := KeyBytes(n), KeyBytes(m);
    assert s[0] == t[0] && s[1] == t[1] && s[2] == t[2] && s[3] == t[3];
    var n1, m1 := Shift8(n), Shift8(m);
    var n2, m2 := Shift8(n1), Shift8(m1);
    NothingLeft(n);
    NothingLeft(m);
    LowByteTold(Shift8(n2), Shift8(m2));
    LowByteTold(n2, m2);
    LowByteTold(n1, m1);
    LowByteTold(n, m);
  }

  function Entry(n: Uint32): bv32 {
    Hash(KeyBytes(n), 0)
  }

  lemma EntryIsHash(n: Uint32)
    ensures Hash(KeyBytes(n), 0) == Entry(n)
  {
    hide Hash, KeyBytes;
  }

  /** No two numbers share an entry. */
  lemma EntriesDistinct(n: Uint32, m: Uint32)
    requires n != m
    ensures Entry(n) != Entry(m)
  {
    hide KeyBytes, Hash;
    var s, t := KeyBytes(n), KeyBytes(m);
    if s == t {
      KeyBytesInjective(n, m);
    }
    assert s[0..4] == s && t[0..4] == t;
    OneBlockNoCollision(s, t, 0, 0);
  }

  /** The first entry is not zero, so a filled table is recognised by it. */
  lemma FirstEntryNotZero()
    ensures Entry(0) != 0
  {
    hide Fmix32, KeyBytes, Block, MixBlock, AddBlock, Xor, LengthWord;
    var key := KeyBytes(0);
    ZeroBlock();
    assert Body(key, 1, 0) == AddBlock(Body(key, 0, 0), MixBlock(Block(key, 0)));
    assert Tail(key) == [];
    NotZeroBeforeFmix();
    FmixZero();
    if Entry(0) == 0 {
      Fmix32Injective(Xor(AddBlock(0, 0), LengthWord(4)), 0);
    }
  }

  lemma ZeroBlock()
    ensures MixBlock(Block(KeyBytes(0), 0)) == 0
  {
    hide MixBlock, Word;
    assert KeyBytes(0) == [0, 0, 0, 0];
    ZeroWord();
    MixZero();
  }

  lemma ZeroWord()
    ensures Word(0, 0, 0, 0) == 0
  {
  }

  lemma MixZero()
    ensures MixBlock(0) == 0
  {
  }

  lemma NotZeroBeforeFmix()
    ensures Xor(AddBlock(0, 0), LengthWord(4)) != 0
  {
  }

  lemma FmixZero()
    ensures Fmix32(0) == 0
  {
  }

  predicate Filled(words: seq<bv32>) {
    |words| == TABLE_SIZE && forall n: nat :: n < TABLE_SIZE ==> words[n] == Entry(n)
  }

  lemma FilledHasNoDuplicates(words: seq<bv32>, n: nat, m: nat)
    requires Filled(words) && n < m < TABLE_SIZE
    ensures words[n] != words[m]
  {
    hide Entry;
    EntriesDistinct(n, m);
  }

  /** A number below 0x1000 is looked up, a larger one stands for itself. */
  function Spread(v: Uint32): bv32 {
    if v < TABLE_SIZE then Entry(v) else v as bv32
  }

  function Step(hash: bv32, v: bv32): bv32 {
    Xor(hash, v) >> 1
  }

  ghost function Folded(args: seq<Uint32>): bv32 {
    if args == [] then 0 else Step(Folded(args[..|args| - 1]), Spread(args[|args| - 1]))
  }

  lemma KnownEntries()
    ensures Entry(1) == 0xFBF1_402A && Entry(0xFFF) == 0xE0E2_E71E
  {
    hide KeyBytes, AddBlock, MixBlock, Word, LengthWord, WithTail, Fmix32, Xor;
    KnownKeys();
    KnownBlocks();
    KnownLengths();
    assert Hash([1, 0, 0, 0], 0) == 0xFBF1_402A by {
      assert Body([1, 0, 0, 0], 1, 0) == AddBlock(Body([1, 0, 0, 0], 0, 0), MixBlock(Block([1, 0, 0, 0], 0)));
      NoTail([1, 0, 0, 0], 0x26CF_0576);
    }
    assert Hash([0xFF, 0x0F, 0, 0], 0) == 0xE0E2_E71E by {
      var key := [0xFF, 0x0F, 0, 0];
      assert Body(key, 1, 0) == AddBlock(Body(key, 0, 0), MixBlock(Block(key, 0)));
      NoTail([0xFF, 0x0F, 0, 0], 0xF105_4D31);
    }
  }

  lemma KnownKeys()
    ensures KeyBytes(1) == [1, 0, 0, 0] && KeyBytes(0xFFF) == [0xFF, 0x0F, 0, 0]
  {
    hide Shift8, LowByte;
    KnownShifts();
    KnownLowBytes();
  }

  lemma KnownShifts()
    ensures Shift8(1) == 0 && Shift8(0) == 0 && Shift8(0xFFF) == 0xF && Shift8(0xF) == 0
  {
  }

  lemma KnownLowBytes()
    ensures LowByte(1) == 1 && LowByte(0) == 0 && LowByte(0xFFF) == 0xFF && LowByte(0xF) == 0xF
  {
    hide BitsByte;
    assert LowByte(0) == BitsByte(false, false, false, false, false, false, false, false);
    assert LowByte(1) == BitsByte(true, false, false, false, false, false, false, false);
    assert LowByte(0xF) == BitsByte(true, true, true, true, false, false, false, false);
    assert LowByte(0xFFF) == BitsByte(true, true, true, true, true, true, true, true);
    KnownBytes();
  }

  lemma KnownBytes()
    ensures BitsByte(false, false, false, false, false, false, false, false) == 0
    ensures BitsByte(true, false, false, false, false, false, false, false) == 1
    ensures BitsByte(true, true, true, true, false, false, false, false) == 0xF
    ensures BitsByte(true, true, true, true, true, true, true, true) == 0xFF
  {
  }

  lemma KnownBlocks()
    ensures AddBlock(0, MixBlock(Word(1, 0, 0, 0))) == 0x26CF_0576 && Fmix32(Xor(0x26CF_0576, 4)) == 0xFBF1_402A
    ensures AddBlock(0, MixBlock(Word(0xFF, 0x0F, 0, 0))) == 0xF105_4D31 && Fmix32(Xor(0xF105_4D31, 4)) == 0xE0E2_E71E
  {
  }

  lemma NoTail(key: seq<Byte>, h: bv32)
    requires |key| == 4
    ensures WithTail(h, Tail(key)) == h
  {
  }

  /** A number up to 0xFFF is looked up, by the hash of its four bytes; a larger one is taken as it is; each result is
      halved. */
  lemma KnownShortHashes()
    ensures Folded([0xFFF]) == 0x7071_738F && Folded([0x1000]) == 0x800 && Folded([1, 0xFFF]) == 0x4E8D_2385
  {
    hide Entry, Step, Spread;
    KnownEntries();
    KnownSpreads();
    KnownHalves();
    FoldedOne(0xFFF);
    FoldedOne(0x1000);
    FoldedOne(1);
    FoldedTwo(1, 0xFFF);
  }

  lemma FoldedOne(v: Uint32)
    ensures Folded([v]) == Step(0, Spread(v))
  {
    hide Step, Spread;
    assert [v][..0] == [];
  }

  lemma FoldedTwo(v: Uint32, w: Uint32)
    ensures Folded([v, w]) == Step(Folded([v]), Spread(w))
  {
    hide Step, Spread;
    assert [v, w][..1] == [v];
  }

  lemma KnownSpreads()
    ensures Spread(1) == Entry(1) && Spread(0xFFF) == Entry(0xFFF) && Spread(0x1000) == 0x1000
  {
    hide Entry;
  }

  lemma KnownHalves()
    ensures Step(0, 0xE0E2_E71E) == 0x7071_738F && Step(0, 0x1000) == 0x800
    ensures Step(0, 0xFBF1_402A) == 0x7DF8_A015 && Step(0x7DF8_A015, 0xE0E2_E71E) == 0x4E8D_2385
  {
  }

  class ShortHash {
    const table: array<bv32>

    /** Either untouched, all zero, or filled. */
    ghost predicate Valid()
      reads table
    {
      table.Length == TABLE_SIZE && (Filled(table[..]) || table[0] == 0)
    }

    constructor ()
      ensures Valid() && fresh(table)
    {
      table := new bv32[TABLE_SIZE](_ => 0);
    }

    method Fill()
      requires Valid()
      modifies table
      ensures Valid() && Filled(table[..])
      ensures old(Filled(table[..])) ==> table[..] == old(table[..])
    {
      hide Entry, KeyBytes, Hash;
      FirstEntryNotZero();
      if table[0] == 0 {
        for i := 0 to TABLE_SIZE
          invariant forall n: nat :: n < i ==> table[n] == Entry(n)
        {
          table[i] := MurmurHash3_x86_32(KeyBytes(i), 0);
          EntryIsHash(i);
        }
      }
    }

    method Combine(args: seq<Uint32>) returns (hash: bv32)
      requires Valid()
      modifies table
      ensures Valid() && Filled(table[..])
      ensures hash == Folded(args)
    {
      hide Entry, Step;
      Fill();
      hash := 0;
      for i := 0 to |args|
        invariant Filled(table[..])
        invariant hash == Folded(args[..i])
      {
        var v := args[i];
        var word := if v < TABLE_SIZE then table[v] else v as bv32;
        assert args[..i + 1][..i] == args[..i];
        hash := Step(hash, word);
      }
      assert args[..|args|] == args;
    }
  }
}
