/** Sixteen keys of five bytes that the program's own hash makes unlucky in a table of the size the program asks for: the
    loss is one of the program. */
module HashInstance {
  import opened Collections
  import opened HashGrowth
  import opened HashLoss
  import opened HashTable

  import Crc

  /** Robert Jenkins' mix of the checksum, and Knuth's multiplication. */
  function Mix(checksum: bv32): bv32 {
    var a := checksum + (checksum << 12);
    var b := a ^ (a >> 22);
    var c := b + (b << 4);
    var d := c ^ (c >> 9);
    var e := d + (d << 10);
    var f := e ^ (e >> 2);
    var g := f + (f << 7);
    var h := g ^ (g >> 12);
    (h >> 3) * 2654435761
  }

  /** The hash word of the program, before its remainder by the size of the table. */
  function HashWord(key: Key): nat {
    Value(Mix(Crc.Crc32(key)))
  }

  const LATE: bv32 := 0x8002_5FFF
  const EARLY: bv32 := 0x2_5FF8
  const BASE: nat := 0x2_4000
  /** The size of every table the program makes at its start. */
  const SIZE: nat := 8192

  function UnluckyKey(i: nat): Key {
    match i
    case 0 => [0x20, 0x7D, 0x39, 0x5B, 0x3D]
    case 1 => [0x23, 0x56, 0x6D, 0x39, 0x2C]
    case 2 => [0x2C, 0x72, 0x51, 0x2A, 0x72]
    case 3 => [0x2F, 0x47, 0x3A, 0x2D, 0x7B]
    case 4 => [0x3B, 0x7D, 0x3E, 0x5E, 0x3E]
    case 5 => [0x3F, 0x46, 0x30, 0x4A, 0x46]
    case 6 => [0x41, 0x48, 0x42, 0x24, 0x24]
    case 7 => [0x25, 0x29, 0x30, 0x34, 0x3E]
    case 8 => [0x2B, 0x29, 0x71, 0x49, 0x64]
    case 9 => [0x2D, 0x78, 0x30, 0x55, 0x7B]
    case 10 => [0x50, 0x38, 0x70, 0x5D, 0x7A]
    case 11 => [0x54, 0x40, 0x56, 0x7B, 0x71]
    case 12 => [0x57, 0x4D, 0x4C, 0x2F, 0x61]
    case 13 => [0x58, 0x69, 0x70, 0x3C, 0x3F]
    case 14 => [0x5B, 0x64, 0x6A, 0x68, 0x2F]
    case _ => [0x5E, 0x38, 0x31, 0x20, 0x20]
  }

  function UnluckyKeys(): seq<Key> {
    seq(16, i requires 0 <= i < 16 => UnluckyKey(i))
  }

  // ---------------------------------------------------------------- numbers of words

  function LastBit(x: bv32): nat {
    if LowBit(x) then 1 else 0
  }

  lemma ZeroHalves()
    ensures Half(0) == 0 && !LowBit(0)
  {
  }

  lemma ValueHalves(x: bv32)
    ensures Value(x) == 2 * Value(Half(x)) + LastBit(x)
  {
    hide Half, LowBit;
    ZeroHalves();
  }

  lemma ValueNibble(x: bv32)
    ensures var a := Half(x); var b := Half(a); var c := Half(b);
      Value(x) == 16 * Value(Half(c)) + 8 * LastBit(c) + 4 * LastBit(b) + 2 * LastBit(a) + LastBit(x)
  {
    hide Half, LastBit, Value;
    ValueHalves(x);
    ValueHalves(Half(x));
    ValueHalves(Half(Half(x)));
    ValueHalves(Half(Half(Half(x))));
  }

  lemma ZeroValue()
    ensures Value(0) == 0
  {
  }

  lemma ValueOfWords()
    ensures Value(LATE) == 0x8002_5FFF && Value(EARLY) == 0x2_5FF8
  {
    hide Value;
    ZeroValue();
    ValueNibble(0x8);
    ValueNibble(0x80);
    ValueNibble(0x800);
    ValueNibble(0x8002);
    ValueNibble(0x8_0025);
    ValueNibble(0x80_025F);
    ValueNibble(0x800_25FF);
    ValueNibble(0x8002_5FFF);
    ValueNibble(0x2);
    ValueNibble(0x25);
    ValueNibble(0x25F);
    ValueNibble(0x25FF);
    ValueNibble(0x2_5FF8);
  }

  // ---------------------------------------------------------------- their checksums

  function Step(c: bv32, b: Crc.Byte): bv32 {
    Crc.ByteStep(Crc.Xor(c, b as bv32))
  }

  lemma FiveBytes(a: Crc.Byte, b: Crc.Byte, c: Crc.Byte, d: Crc.Byte, e: Crc.Byte)
    ensures Crc.Crc32([a, b, c, d, e]) == Step(Step(Step(Step(Step(0, a), b), c), d), e)
  {
    hide Crc.ByteStep, Crc.Xor;
    assert [a, b, c, d, e][..4] == [a, b, c, d];
    assert [a, b, c, d][..3] == [a, b, c];
    assert [a, b, c][..2] == [a, b];
    assert [a, b][..1] == [a];
    assert Crc.Crc32([a]) == Step(0, a);
    assert Crc.Crc32([a, b]) == Step(Step(0, a), b);
    assert Crc.Crc32([a, b, c]) == Step(Step(Step(0, a), b), c);
  }

  lemma Checksum0()
    ensures Crc.Crc32([0x20, 0x7D, 0x39, 0x5B, 0x3D]) == 0x3470_C448
  {
    FiveBytes(0x20, 0x7D, 0x39, 0x5B, 0x3D);
  }

  lemma Checksum1()
    ensures Crc.Crc32([0x23, 0x56, 0x6D, 0x39, 0x2C]) == 0x53F5_8225
  {
    FiveBytes(0x23, 0x56, 0x6D, 0x39, 0x2C);
  }

  lemma Checksum2()
    ensures Crc.Crc32([0x2C, 0x72, 0x51, 0x2A, 0x72]) == 0x53F5_8225
  {
    FiveBytes(0x2C, 0x72, 0x51, 0x2A, 0x72);
  }

  lemma Checksum3()
    ensures Crc.Crc32([0x2F, 0x47, 0x3A, 0x2D, 0x7B]) == 0x7561_9BDE
  {
    FiveBytes(0x2F, 0x47, 0x3A, 0x2D, 0x7B);
  }

  lemma Checksum4()
    ensures Crc.Crc32([0x3B, 0x7D, 0x3E, 0x5E, 0x3E]) == 0x0C8E_70C8
  {
    FiveBytes(0x3B, 0x7D, 0x3E, 0x5E, 0x3E);
  }

  lemma Checksum5()
    ensures Crc.Crc32([0x3F, 0x46, 0x30, 0x4A, 0x46]) == 0x2502_D55C
  {
    FiveBytes(0x3F, 0x46, 0x30, 0x4A, 0x46);
  }

  lemma Checksum6()
    ensures Crc.Crc32([0x41, 0x48, 0x42, 0x24, 0x24]) == 0x0C8E_70C8
  {
    FiveBytes(0x41, 0x48, 0x42, 0x24, 0x24);
  }

  lemma Checksum7()
    ensures Crc.Crc32([0x25, 0x29, 0x30, 0x34, 0x3E]) == 0x3C61_BAC9
  {
    FiveBytes(0x25, 0x29, 0x30, 0x34, 0x3E);
  }

  lemma Checksum8()
    ensures Crc.Crc32([0x2B, 0x29, 0x71, 0x49, 0x64]) == 0x4EE7_DE68
  {
    FiveBytes(0x2B, 0x29, 0x71, 0x49, 0x64);
  }

  lemma Checksum9()
    ensures Crc.Crc32([0x2D, 0x78, 0x30, 0x55, 0x7B]) == 0x8135_41EB
  {
    FiveBytes(0x2D, 0x78, 0x30, 0x55, 0x7B);
  }

  lemma Checksum10()
    ensures Crc.Crc32([0x50, 0x38, 0x70, 0x5D, 0x7A]) == 0x3C61_BAC9
  {
    FiveBytes(0x50, 0x38, 0x70, 0x5D, 0x7A);
  }

  lemma Checksum11()
    ensures Crc.Crc32([0x54, 0x40, 0x56, 0x7B, 0x71]) == 0x00BF_89C6
  {
    FiveBytes(0x54, 0x40, 0x56, 0x7B, 0x71);
  }

  lemma Checksum12()
    ensures Crc.Crc32([0x57, 0x4D, 0x4C, 0x2F, 0x61]) == 0x8135_41EB
  {
    FiveBytes(0x57, 0x4D, 0x4C, 0x2F, 0x61);
  }

  lemma Checksum13()
    ensures Crc.Crc32([0x58, 0x69, 0x70, 0x3C, 0x3F]) == 0x8135_41EB
  {
    FiveBytes(0x58, 0x69, 0x70, 0x3C, 0x3F);
  }

  lemma Checksum14()
    ensures Crc.Crc32([0x5B, 0x64, 0x6A, 0x68, 0x2F]) == 0x00BF_89C6
  {
    FiveBytes(0x5B, 0x64, 0x6A, 0x68, 0x2F);
  }

  lemma Checksum15()
    ensures Crc.Crc32([0x5E, 0x38, 0x31, 0x20, 0x20]) == 0x4EE7_DE68
  {
    FiveBytes(0x5E, 0x38, 0x31, 0x20, 0x20);
  }

  /** Both words are results of the mix, each of several checksums. */
  lemma MixedWords()
    ensures Mix(0x0C8E_70C8) == LATE && Mix(0x2502_D55C) == LATE && Mix(0x3470_C448) == LATE
    ensures Mix(0x53F5_8225) == LATE && Mix(0x7561_9BDE) == LATE
    ensures Mix(0x00BF_89C6) == EARLY && Mix(0x3C61_BAC9) == EARLY && Mix(0x4EE7_DE68) == EARLY && Mix(0x8135_41EB) == EARLY
  {
  }

  lemma WordOf(i: nat)
    requires i < 16
    ensures HashWord(UnluckyKey(i)) == BASE + Offset(SIZE, i) + if i < 7 then HALF else 0
  {
    hide Crc.Crc32, Mix, Value;
    MixedWords();
    ValueOfWords();
    match i
    case 0 => Checksum0();
    case 1 => Checksum1();
    case 2 => Checksum2();
    case 3 => Checksum3();
    case 4 => Checksum4();
    case 5 => Checksum5();
    case 6 => Checksum6();
    case 7 => Checksum7();
    case 8 => Checksum8();
    case 9 => Checksum9();
    case 10 => Checksum10();
    case 11 => Checksum11();
    case 12 => Checksum12();
    case 13 => Checksum13();
    case 14 => Checksum14();
    case _ => Checksum15();
  }

  /** The key numbered `i`, found by its first byte. */
  function Number(b: bv8): nat {
    match b
    case 0x20 => 0
    case 0x23 => 1
    case 0x2C => 2
    case 0x2F => 3
    case 0x3B => 4
    case 0x3F => 5
    case 0x41 => 6
    case 0x25 => 7
    case 0x2B => 8
    case 0x2D => 9
    case 0x50 => 10
    case 0x54 => 11
    case 0x57 => 12
    case 0x58 => 13
    case 0x5B => 14
    case _ => 15
  }

  lemma NumberOf(i: nat)
    requires i < 16
    ensures Number(UnluckyKey(i)[0]) == i
  {
  }

  /** The program's hash meets the condition on these keys. */
  lemma KeysAreUnlucky()
    ensures Unlucky(UnluckyKeys(), HashWord, SIZE, BASE)
  {
    hide UnluckyKey, HashWord, Number, PowerOfTwo;
    SizeIsSize();
    var keys := UnluckyKeys();
    forall i | 0 <= i < 16
      ensures HashWord(keys[i]) % HALF == BASE + Offset(SIZE, i)
    {
      WordOf(i);
    }
    forall i, j | 0 <= i < j < 16
      ensures keys[i] != keys[j]
    {
      NumberOf(i);
      NumberOf(j);
    }
  }

  lemma SizeIsSize()
    ensures TableSize(SIZE)
  {
    assert PowerOfTwo(8);
    Sixteenfold(8);
    Sixteenfold(0x80);
    Twofold(0x800);
    Twofold(0x1000);
  }

  /** With the program's hash, fifteen keys go into a new table, every one is found, and the put of one more fails. With
      memory for at least one larger table it leaves one of the fifteen. */
  lemma ProgramLoses(memory: nat, value: Pointer)
    ensures TableSize(SIZE)
    ensures var keys := UnluckyKeys();
      var full := PutAll(Blanks(SIZE), HashWord, keys[8..] + keys[..7], memory);
      var r := PutSlots(full.slots, HashWord, keys[7], value, memory);
      && full.outcome.Done? && full.memory == memory && |full.slots| == SIZE && InUse(full.slots) == 15
      && WellFormed(full.slots, HashWord)
      && !r.outcome.Done?
      && (if memory == 0 then r.slots == full.slots else r.slots == Blanks(SIZE - 1) + [Used(keys[15])])
  {
    hide PutAll, PutSlots, HashWord, UnluckyKey, PowerOfTwo, WellFormed, InUse, Table;
    var keys := UnluckyKeys();
    KeysAreUnlucky();
    TableIsFilled(keys, HashWord, SIZE, BASE, memory);
    TableWellFormed(keys, HashWord, SIZE, BASE);
    FourteenLost(keys, HashWord, SIZE, BASE, value, memory);
  }
}
