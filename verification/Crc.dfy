/** The checksum that the hash map hashes with: the table form against one bit at a time. */
module Crc {
  type Byte = bv8

  /** One bit, with the CRC32C polynomial 0x11EDC6F41 of section 12.1 of RFC 3720, reflected. */
  function BitStep(c: bv32): bv32 {
    if c & 1 == 1 then (c >> 1) ^ 0x82F63B78 else c >> 1
  }

  function ByteStep(c: bv32): bv32 {
    BitStep(BitStep(BitStep(BitStep(BitStep(BitStep(BitStep(BitStep(c))))))))
  }

  // The word operations have names so that most proofs need not look into their bits.

  function Xor(a: bv32, b: bv32): bv32 {
    a ^ b
  }

  function Shift8(c: bv32): bv32 {
    c >> 8
  }

  /** The table index: the low byte of the checksum combined with the next byte. */
  function Index(c: bv32, b: Byte): Byte {
    ((c & 0xFF) as Byte) ^ b
  }

  /** The checksum one bit at a time: initial value 0 and no final inversion. */
  function Crc32(s: seq<Byte>): bv32 {
    if s == [] then 0 else ByteStep(Xor(Crc32(s[..|s| - 1]), s[|s| - 1] as bv32))
  }

  // ---------------------------------------------------------------- the table

  /** The table of 256 words, eight to a row. */
  function Row(k: bv8): seq<bv32> {
    if k < 16 then LowRow(k) else HighRow(k)
  }

  function LowRow(k: bv8): seq<bv32> {
    match k
    case 0 => [0x00000000, 0xF26B8303, 0xE13B70F7, 0x1350F3F4, 0xC79A971F, 0x35F1141C, 0x26A1E7E8, 0xD4CA64EB]
    case 1 => [0x8AD958CF, 0x78B2DBCC, 0x6BE22838, 0x9989AB3B, 0x4D43CFD0, 0xBF284CD3, 0xAC78BF27, 0x5E133C24]
    case 2 => [0x105EC76F, 0xE235446C, 0xF165B798, 0x030E349B, 0xD7C45070, 0x25AFD373, 0x36FF2087, 0xC494A384]
    case 3 => [0x9A879FA0, 0x68EC1CA3, 0x7BBCEF57, 0x89D76C54, 0x5D1D08BF, 0xAF768BBC, 0xBC267848, 0x4E4DFB4B]
    case 4 => [0x20BD8EDE, 0xD2D60DDD, 0xC186FE29, 0x33ED7D2A, 0xE72719C1, 0x154C9AC2, 0x061C6936, 0xF477EA35]
    case 5 => [0xAA64D611, 0x580F5512, 0x4B5FA6E6, 0xB93425E5, 0x6DFE410E, 0x9F95C20D, 0x8CC531F9, 0x7EAEB2FA]
    case 6 => [0x30E349B1, 0xC288CAB2, 0xD1D83946, 0x23B3BA45, 0xF779DEAE, 0x05125DAD, 0x1642AE59, 0xE4292D5A]
    case 7 => [0xBA3A117E, 0x4851927D, 0x5B016189, 0xA96AE28A, 0x7DA08661, 0x8FCB0562, 0x9C9BF696, 0x6EF07595]
    case 8 => [0x417B1DBC, 0xB3109EBF, 0xA0406D4B, 0x522BEE48, 0x86E18AA3, 0x748A09A0, 0x67DAFA54, 0x95B17957]
    case 9 => [0xCBA24573, 0x39C9C670, 0x2A993584, 0xD8F2B687, 0x0C38D26C, 0xFE53516F, 0xED03A29B, 0x1F682198]
    case 10 => [0x5125DAD3, 0xA34E59D0, 0xB01EAA24, 0x42752927, 0x96BF4DCC, 0x64D4CECF, 0x77843D3B, 0x85EFBE38]
    case 11 => [0xDBFC821C, 0x2997011F, 0x3AC7F2EB, 0xC8AC71E8, 0x1C661503, 0xEE0D9600, 0xFD5D65F4, 0x0F36E6F7]
    case 12 => [0x61C69362, 0x93AD1061, 0x80FDE395, 0x72966096, 0xA65C047D, 0x5437877E, 0x4767748A, 0xB50CF789]
    case 13 => [0xEB1FCBAD, 0x197448AE, 0x0A24BB5A, 0xF84F3859, 0x2C855CB2, 0xDEEEDFB1, 0xCDBE2C45, 0x3FD5AF46]
    case 14 => [0x7198540D, 0x83F3D70E, 0x90A324FA, 0x62C8A7F9, 0xB602C312, 0x44694011, 0x5739B3E5, 0xA55230E6]
    case _ => [0xFB410CC2, 0x092A8FC1, 0x1A7A7C35, 0xE811FF36, 0x3CDB9BDD, 0xCEB018DE, 0xDDE0EB2A, 0x2F8B6829]
  }

  function HighRow(k: bv8): seq<bv32> {
    match k
    case 16 => [0x82F63B78, 0x709DB87B, 0x63CD4B8F, 0x91A6C88C, 0x456CAC67, 0xB7072F64, 0xA457DC90, 0x563C5F93]
    case 17 => [0x082F63B7, 0xFA44E0B4, 0xE9141340, 0x1B7F9043, 0xCFB5F4A8, 0x3DDE77AB, 0x2E8E845F, 0xDCE5075C]
    case 18 => [0x92A8FC17, 0x60C37F14, 0x73938CE0, 0x81F80FE3, 0x55326B08, 0xA759E80B, 0xB4091BFF, 0x466298FC]
    case 19 => [0x1871A4D8, 0xEA1A27DB, 0xF94AD42F, 0x0B21572C, 0xDFEB33C7, 0x2D80B0C4, 0x3ED04330, 0xCCBBC033]
    case 20 => [0xA24BB5A6, 0x502036A5, 0x4370C551, 0xB11B4652, 0x65D122B9, 0x97BAA1BA, 0x84EA524E, 0x7681D14D]
    case 21 => [0x2892ED69, 0xDAF96E6A, 0xC9A99D9E, 0x3BC21E9D, 0xEF087A76, 0x1D63F975, 0x0E330A81, 0xFC588982]
    case 22 => [0xB21572C9, 0x407EF1CA, 0x532E023E, 0xA145813D, 0x758FE5D6, 0x87E466D5, 0x94B49521, 0x66DF1622]
    case 23 => [0x38CC2A06, 0xCAA7A905, 0xD9F75AF1, 0x2B9CD9F2, 0xFF56BD19, 0x0D3D3E1A, 0x1E6DCDEE, 0xEC064EED]
    case 24 => [0xC38D26C4, 0x31E6A5C7, 0x22B65633, 0xD0DDD530, 0x0417B1DB, 0xF67C32D8, 0xE52CC12C, 0x1747422F]
    case 25 => [0x49547E0B, 0xBB3FFD08, 0xA86F0EFC, 0x5A048DFF, 0x8ECEE914, 0x7CA56A17, 0x6FF599E3, 0x9D9E1AE0]
    case 26 => [0xD3D3E1AB, 0x21B862A8, 0x32E8915C, 0xC083125F, 0x144976B4, 0xE622F5B7, 0xF5720643, 0x07198540]
    case 27 => [0x590AB964, 0xAB613A67, 0xB831C993, 0x4A5A4A90, 0x9E902E7B, 0x6CFBAD78, 0x7FAB5E8C, 0x8DC0DD8F]
    case 28 => [0xE330A81A, 0x115B2B19, 0x020BD8ED, 0xF0605BEE, 0x24AA3F05, 0xD6C1BC06, 0xC5914FF2, 0x37FACCF1]
    case 29 => [0x69E9F0D5, 0x9B8273D6, 0x88D28022, 0x7AB90321, 0xAE7367CA, 0x5C18E4C9, 0x4F48173D, 0xBD23943E]
    case 30 => [0xF36E6F75, 0x0105EC76, 0x12551F82, 0xE03E9C81, 0x34F4F86A, 0xC69F7B69, 0xD5CF889D, 0x27A40B9E]
    case _ => [0x79B737BA, 0x8BDCB4B9, 0x988C474D, 0x6AE7C44E, 0xBE2DA0A5, 0x4C4623A6, 0x5F16D052, 0xAD7D5351]
  }

  function InRow(row: seq<bv32>, j: bv8): bv32
    requires |row| == 8
  {
    match j
    case 0 => row[0]
    case 1 => row[1]
    case 2 => row[2]
    case 3 => row[3]
    case 4 => row[4]
    case 5 => row[5]
    case 6 => row[6]
    case _ => row[7]
  }

  function Table(b: Byte): bv32 {
    InRow(Row(b >> 3), b & 7)
  }

  /** Eight words are what one byte step makes of `base` and the seven values after it. */
  predicate RowFrom(t: seq<bv32>, base: bv32) {
    && |t| == 8
    && t[0] == ByteStep(base) && t[1] == ByteStep(base + 1) && t[2] == ByteStep(base + 2)
    && t[3] == ByteStep(base + 3) && t[4] == ByteStep(base + 4) && t[5] == ByteStep(base + 5)
    && t[6] == ByteStep(base + 6) && t[7] == ByteStep(base + 7)
  }

  lemma Rows0(k: bv8)
    requires k < 8
    ensures RowFrom(Row(k), (k as bv32) << 3)
  {
    if k == 0 {
    } else if k == 1 {
    } else if k == 2 {
    } else if k == 3 {
    } else if k == 4 {
    } else if k == 5 {
    } else if k == 6 {
    } else if k == 7 {
    }
  }

  lemma Rows1(k: bv8)
    requires 8 <= k < 16
    ensures RowFrom(Row(k), (k as bv32) << 3)
  {
    if k == 8 {
    } else if k == 9 {
    } else if k == 10 {
    } else if k == 11 {
    } else if k == 12 {
    } else if k == 13 {
    } else if k == 14 {
    } else if k == 15 {
    }
  }

  lemma Rows2(k: bv8)
    requires 16 <= k < 24
    ensures RowFrom(Row(k), (k as bv32) << 3)
  {
    if k == 16 {
    } else if k == 17 {
    } else if k == 18 {
    } else if k == 19 {
    } else if k == 20 {
    } else if k == 21 {
    } else if k == 22 {
    } else if k == 23 {
    }
  }

  lemma Rows3(k: bv8)
    requires 24 <= k < 32
    ensures RowFrom(Row(k), (k as bv32) << 3)
  {
    if k == 24 {
    } else if k == 25 {
    } else if k == 26 {
    } else if k == 27 {
    } else if k == 28 {
    } else if k == 29 {
    } else if k == 30 {
    } else if k == 31 {
    }
  }

  /** Entry `b` of the table is eight bit steps of `b`. */
  lemma TableIsByteStep(b: Byte)
    ensures Table(b) == ByteStep(b as bv32)
  {
    hide ByteStep, Row;
    var k := b >> 3;
    if k < 8 {
      Rows0(k);
    } else if k < 16 {
      Rows1(k);
    } else if k < 24 {
      Rows2(k);
    } else {
      Rows3(k);
    }
    InRowFrom(Row(k), b);
  }

  lemma InRowFrom(row: seq<bv32>, b: Byte)
    requires RowFrom(row, ((b >> 3) as bv32) << 3)
    ensures InRow(row, b & 7) == ByteStep(b as bv32)
  {
    hide ByteStep;
  }

  // ---------------------------------------------------------------- a byte at a time

  lemma OddOdd(a: bv32, b: bv32)
    requires a & 1 == 1 && b & 1 == 1
    ensures BitStep(a ^ b) == BitStep(a) ^ BitStep(b)
  {
  }

  lemma OddEven(a: bv32, b: bv32)
    requires a & 1 == 1 && b & 1 != 1
    ensures BitStep(a ^ b) == BitStep(a) ^ BitStep(b)
  {
  }

  lemma EvenOdd(a: bv32, b: bv32)
    requires a & 1 != 1 && b & 1 == 1
    ensures BitStep(a ^ b) == BitStep(a) ^ BitStep(b)
  {
  }

  lemma EvenEven(a: bv32, b: bv32)
    requires a & 1 != 1 && b & 1 != 1
    ensures BitStep(a ^ b) == BitStep(a) ^ BitStep(b)
  {
  }

  lemma BitStepLinear(a: bv32, b: bv32)
    ensures BitStep(Xor(a, b)) == Xor(BitStep(a), BitStep(b))
  {
    hide BitStep;
    if a & 1 == 1 {
      if b & 1 == 1 {
        OddOdd(a, b);
      } else {
        OddEven(a, b);
      }
    } else if b & 1 == 1 {
      EvenOdd(a, b);
    } else {
      EvenEven(a, b);
    }
  }

  /** The bit step is linear, so eight of them are. */
  lemma ByteStepLinear(a: bv32, b: bv32)
    ensures ByteStep(Xor(a, b)) == Xor(ByteStep(a), ByteStep(b))
  {
    hide BitStep, Xor;
    BitStepLinear(a, b);
    var a1, b1 := BitStep(a), BitStep(b);
    BitStepLinear(a1, b1);
    var a2, b2 := BitStep(a1), BitStep(b1);
    BitStepLinear(a2, b2);
    var a3, b3 := BitStep(a2), BitStep(b2);
    BitStepLinear(a3, b3);
    var a4, b4 := BitStep(a3), BitStep(b3);
    BitStepLinear(a4, b4);
    var a5, b5 := BitStep(a4), BitStep(b4);
    BitStepLinear(a5, b5);
    var a6, b6 := BitStep(a5), BitStep(b5);
    BitStepLinear(a6, b6);
    BitStepLinear(BitStep(a6), BitStep(b6));
  }

  /** Zero bits are shifted out unchanged. */
  lemma ZeroByteShifts(c: bv32)
    requires c & 0xFF == 0
    ensures ByteStep(c) == Shift8(c)
  {
    ZeroBitShifts(c);
    ZeroBitShifts(c >> 1);
    ZeroBitShifts(c >> 2);
    ZeroBitShifts(c >> 3);
    ZeroBitShifts(c >> 4);
    ZeroBitShifts(c >> 5);
    ZeroBitShifts(c >> 6);
    ZeroBitShifts(c >> 7);
  }

  lemma ZeroBitShifts(c: bv32)
    requires c & 1 == 0
    ensures BitStep(c) == c >> 1
  {
  }

  /** One byte by the table is one byte step. */
  lemma TableStep(c: bv32, b: Byte)
    ensures Xor(Table(Index(c, b)), Shift8(c)) == ByteStep(Xor(c, b as bv32))
  {
    hide Table, ByteStep, Xor, Index, Shift8;
    var high := SplitLow(c, b);
    TableIsByteStep(Index(c, b));
    ZeroByteShifts(high);
    ByteStepLinear(Index(c, b) as bv32, high);
  }

  lemma SplitLow(c: bv32, b: Byte) returns (high: bv32)
    ensures Xor(Index(c, b) as bv32, high) == Xor(c, b as bv32)
    ensures high & 0xFF == 0 && Shift8(high) == Shift8(c)
  {
    high := c & 0xFFFF_FF00;
  }

  /** The loop over the bytes with the table lookup. */
  method Crc32Helper(s: seq<Byte>) returns (crc32val: bv32)
    ensures crc32val == Crc32(s)
  {
    hide Table, ByteStep, Xor, Index, Shift8;
    crc32val := 0;
    for i := 0 to |s|
      invariant crc32val == Crc32(s[..i])
    {
      TableStep(crc32val, s[i]);
      assert s[..i + 1][..i] == s[..i];
      crc32val := Xor(Table(Index(crc32val, s[i])), Shift8(crc32val));
    }
    assert s[..|s|] == s;
  }
}
