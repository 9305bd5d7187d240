/**
 The checksum of src/crc32.c: a table-driven CRC-32 whose bounds check keeps it from ever using the
 last table entry.

 `StdReg` is the independent definition it is compared with: the bit-by-bit register of section 8 of
 RFC 1952, one shift and one conditional XOR with the polynomial per bit.
 */
module Crc32 {

  /** The checksum register, an `unsigned int`. */
  datatype Reg = Reg(bits: bv32)

  const CRC32_ARRAY_SIZE: bv32 := 255

  // ---------- The table ----------

  function Pick(k: bv32, v0: bv32, v1: bv32, v2: bv32, v3: bv32, v4: bv32, v5: bv32, v6: bv32, v7: bv32,
                v8: bv32, v9: bv32, va: bv32, vb: bv32, vc: bv32, vd: bv32, ve: bv32, vf: bv32): bv32 {
    match k
    case 0 => v0 case 1 => v1 case 2 => v2 case 3 => v3
    case 4 => v4 case 5 => v5 case 6 => v6 case 7 => v7
    case 8 => v8 case 9 => v9 case 10 => va case 11 => vb
    case 12 => vc case 13 => vd case 14 => ve case _ => vf
  }

  /** The 256 table entries, sixteen to a case. */
  function CrcTab(idx: Reg): Reg
    requires idx.bits <= 0xFF
  {
    Reg(Entry(idx.bits))
  }

  function Entry(idx: bv32): bv32
    requires idx <= 0xFF
  {
    var k := idx & 0xF;
    match idx >> 4
    case 0 =>
      Pick(k, 0x00000000, 0x77073096, 0xee0e612c, 0x990951ba,
           0x076dc419, 0x706af48f, 0xe963a535, 0x9e6495a3,
           0x0edb8832, 0x79dcb8a4, 0xe0d5e91e, 0x97d2d988,
           0x09b64c2b, 0x7eb17cbd, 0xe7b82d07, 0x90bf1d91)
    case 1 =>
      Pick(k, 0x1db71064, 0x6ab020f2, 0xf3b97148, 0x84be41de,
           0x1adad47d, 0x6ddde4eb, 0xf4d4b551, 0x83d385c7,
           0x136c9856, 0x646ba8c0, 0xfd62f97a, 0x8a65c9ec,
           0x14015c4f, 0x63066cd9, 0xfa0f3d63, 0x8d080df5)
    case 2 =>
      Pick(k, 0x3b6e20c8, 0x4c69105e, 0xd56041e4, 0xa2677172,
           0x3c03e4d1, 0x4b04d447, 0xd20d85fd, 0xa50ab56b,
           0x35b5a8fa, 0x42b2986c, 0xdbbbc9d6, 0xacbcf940,
           0x32d86ce3, 0x45df5c75, 0xdcd60dcf, 0xabd13d59)
    case 3 =>
      Pick(k, 0x26d930ac, 0x51de003a, 0xc8d75180, 0xbfd06116,
           0x21b4f4b5, 0x56b3c423, 0xcfba9599, 0xb8bda50f,
           0x2802b89e, 0x5f058808, 0xc60cd9b2, 0xb10be924,
           0x2f6f7c87, 0x58684c11, 0xc1611dab, 0xb6662d3d)
    case 4 =>
      Pick(k, 0x76dc4190, 0x01db7106, 0x98d220bc, 0xefd5102a,
           0x71b18589, 0x06b6b51f, 0x9fbfe4a5, 0xe8b8d433,
           0x7807c9a2, 0x0f00f934, 0x9609a88e, 0xe10e9818,
           0x7f6a0dbb, 0x086d3d2d, 0x91646c97, 0xe6635c01)
    case 5 =>
      Pick(k, 0x6b6b51f4, 0x1c6c6162, 0x856530d8, 0xf262004e,
           0x6c0695ed, 0x1b01a57b, 0x8208f4c1, 0xf50fc457,
           0x65b0d9c6, 0x12b7e950, 0x8bbeb8ea, 0xfcb9887c,
           0x62dd1ddf, 0x15da2d49, 0x8cd37cf3, 0xfbd44c65)
    case 6 =>
      Pick(k, 0x4db26158, 0x3ab551ce, 0xa3bc0074, 0xd4bb30e2,
           0x4adfa541, 0x3dd895d7, 0xa4d1c46d, 0xd3d6f4fb,
           0x4369e96a, 0x346ed9fc, 0xad678846, 0xda60b8d0,
           0x44042d73, 0x33031de5, 0xaa0a4c5f, 0xdd0d7cc9)
    case 7 =>
      Pick(k, 0x5005713c, 0x270241aa, 0xbe0b1010, 0xc90c2086,
           0x5768b525, 0x206f85b3, 0xb966d409, 0xce61e49f,
           0x5edef90e, 0x29d9c998, 0xb0d09822, 0xc7d7a8b4,
           0x59b33d17, 0x2eb40d81, 0xb7bd5c3b, 0xc0ba6cad)
    case 8 =>
      Pick(k, 0xedb88320, 0x9abfb3b6, 0x03b6e20c, 0x74b1d29a,
           0xead54739, 0x9dd277af, 0x04db2615, 0x73dc1683,
           0xe3630b12, 0x94643b84, 0x0d6d6a3e, 0x7a6a5aa8,
           0xe40ecf0b, 0x9309ff9d, 0x0a00ae27, 0x7d079eb1)
    case 9 =>
      Pick(k, 0xf00f9344, 0x8708a3d2, 0x1e01f268, 0x6906c2fe,
           0xf762575d, 0x806567cb, 0x196c3671, 0x6e6b06e7,
           0xfed41b76, 0x89d32be0, 0x10da7a5a, 0x67dd4acc,
           0xf9b9df6f, 0x8ebeeff9, 0x17b7be43, 0x60b08ed5)
    case 10 =>
      Pick(k, 0xd6d6a3e8, 0xa1d1937e, 0x38d8c2c4, 0x4fdff252,
           0xd1bb67f1, 0xa6bc5767, 0x3fb506dd, 0x48b2364b,
           0xd80d2bda, 0xaf0a1b4c, 0x36034af6, 0x41047a60,
           0xdf60efc3, 0xa867df55, 0x316e8eef, 0x4669be79)
    case 11 =>
      Pick(k, 0xcb61b38c, 0xbc66831a, 0x256fd2a0, 0x5268e236,
           0xcc0c7795, 0xbb0b4703, 0x220216b9, 0x5505262f,
           0xc5ba3bbe, 0xb2bd0b28, 0x2bb45a92, 0x5cb36a04,
           0xc2d7ffa7, 0xb5d0cf31, 0x2cd99e8b, 0x5bdeae1d)
    case 12 =>
      Pick(k, 0x9b64c2b0, 0xec63f226, 0x756aa39c, 0x026d930a,
           0x9c0906a9, 0xeb0e363f, 0x72076785, 0x05005713,
           0x95bf4a82, 0xe2b87a14, 0x7bb12bae, 0x0cb61b38,
           0x92d28e9b, 0xe5d5be0d, 0x7cdcefb7, 0x0bdbdf21)
    case 13 =>
      Pick(k, 0x86d3d2d4, 0xf1d4e242, 0x68ddb3f8, 0x1fda836e,
           0x81be16cd, 0xf6b9265b, 0x6fb077e1, 0x18b74777,
           0x88085ae6, 0xff0f6a70, 0x66063bca, 0x11010b5c,
           0x8f659eff, 0xf862ae69, 0x616bffd3, 0x166ccf45)
    case 14 =>
      Pick(k, 0xa00ae278, 0xd70dd2ee, 0x4e048354, 0x3903b3c2,
           0xa7672661, 0xd06016f7, 0x4969474d, 0x3e6e77db,
           0xaed16a4a, 0xd9d65adc, 0x40df0b66, 0x37d83bf0,
           0xa9bcae53, 0xdebb9ec5, 0x47b2cf7f, 0x30b5ffe9)
    case _ =>
      Pick(k, 0xbdbdf21c, 0xcabac28a, 0x53b39330, 0x24b4a3a6,
           0xbad03605, 0xcdd70693, 0x54de5729, 0x23d967bf,
           0xb3667a2e, 0xc4614ab8, 0x5d681b02, 0x2a6f2b94,
           0xb40bbe37, 0xc30c8ea1, 0x5a05df1b, 0x2d02ef8d)
  }

  // ---------- Register operations ----------

  function Xor(x: Reg, y: Reg): Reg {
    Reg(x.bits ^ y.bits)
  }

  function Flip(r: Reg): Reg {
    Reg(r.bits ^ 0xFFFF_FFFF)
  }

  function Byte(b: bv8): Reg {
    Reg(b as bv32)
  }

  function Low(x: Reg): (r: Reg)
    ensures r.bits <= 0xFF
  {
    Reg(x.bits & 0xFF)
  }

  function Shr8(x: Reg): (r: Reg)
    ensures r.bits <= 0x00FF_FFFF
  {
    Reg(x.bits >> 8)
  }

  function Shl1(x: Reg): Reg {
    Reg(x.bits << 1)
  }

  function Shl2(x: Reg): Reg {
    Reg(x.bits << 2)
  }

  function Shl4(x: Reg): Reg {
    Reg(x.bits << 4)
  }

  function Shl8(x: Reg): Reg {
    Reg(x.bits << 8)
  }

  // ---------- The code ----------

  function Index(r: Reg, b: bv8): (idx: Reg)
    ensures idx.bits <= 0xFF
  {
    Low(Xor(r, Byte(b)))
  }

  /** One byte of the code's loop: an index of 255 leaves the register as it is. */
  function TableStep(crc: Reg, b: bv8): Reg {
    var idx := Index(crc, b);
    if idx.bits < CRC32_ARRAY_SIZE then Xor(CrcTab(idx), Shr8(crc)) else crc
  }

  function TableReg(crc: Reg, data: seq<bv8>): Reg
    decreases |data|
  {
    if data == [] then crc else TableReg(TableStep(crc, data[0]), data[1..])
  }

  function Crc(crc: Reg, data: seq<bv8>): Reg {
    Flip(TableReg(Flip(crc), data))
  }

  /** Of a null buffer the checksum is 0, whatever the incoming value. */
  method PclCrc32(crc0: Reg, buf: array?<bv8>, theSize: nat) returns (rval: Reg)
    requires buf != null ==> theSize <= buf.Length
    ensures buf == null ==> rval == Reg(0)
    ensures buf != null ==> rval == Crc(crc0, buf[..theSize])
  {
    hide CrcTab;
    var crc := Flip(crc0);
    rval := Reg(0);
    if buf != null {
      ghost var data := buf[..theSize];
      var p := 0;
      while p < theSize
        invariant 0 <= p <= theSize
        invariant TableReg(crc, data[p..]) == TableReg(Flip(crc0), data)
      {
        assert data[p..][0] == buf[p] && data[p..][1..] == data[p + 1..];
        ghost var before := crc;
        var idx := Index(crc, buf[p]);
        p := p + 1;
        if idx.bits < CRC32_ARRAY_SIZE {
          crc := Xor(CrcTab(idx), Shr8(crc));
        }
        assert crc == TableStep(before, data[p - 1]);
      }
      rval := Flip(crc);
    }
  }

  // ---------- The standard ----------

  const POLYNOMIAL := Reg(0xEDB8_8320)

  function Half(x: Reg): Reg {
    Reg(x.bits >> 1)
  }

  predicate Odd(x: Reg) {
    x.bits & 1 == 1
  }

  function BitStep(r: Reg): Reg {
    if Odd(r) then Xor(Half(r), POLYNOMIAL) else Half(r)
  }

  function Step8(r: Reg): Reg {
    BitStep(BitStep(BitStep(BitStep(BitStep(BitStep(BitStep(BitStep(r))))))))
  }

  function StdStep(r: Reg, b: bv8): Reg {
    Step8(Xor(r, Byte(b)))
  }

  function StdReg(r: Reg, data: seq<bv8>): Reg
    decreases |data|
  {
    if data == [] then r else StdReg(StdStep(r, data[0]), data[1..])
  }

  function StdCrc(crc: Reg, data: seq<bv8>): Reg {
    Flip(StdReg(Flip(crc), data))
  }

  // ---------- Exclusive or and shifts ----------

  lemma XorAssoc(x: Reg, y: Reg, z: Reg)
    ensures Xor(x, Xor(y, z)) == Xor(Xor(x, y), z) && Xor(x, y) == Xor(y, x)
  {
  }

  lemma XorSelf(x: Reg, p: Reg)
    ensures Xor(Xor(x, p), p) == x
  {
  }

  lemma XorCancel(r: Reg, s: Reg, b: Reg)
    requires Xor(r, b) == Xor(s, b)
    ensures r == s
  {
    hide Xor;
    XorSelf(r, b);
    XorSelf(s, b);
  }

  lemma FlipTwice(x: Reg)
    ensures Flip(Flip(x)) == x
  {
  }

  lemma HalfXor(x: Reg, y: Reg)
    ensures Half(Xor(x, y)) == Xor(Half(x), Half(y)) && (Odd(Xor(x, y)) <==> Odd(x) != Odd(y))
  {
  }

  /** A register is its low byte and the three bytes above. */
  lemma SplitRegister(r: Reg)
    ensures r == Xor(Low(r), Shl8(Shr8(r)))
  {
  }

  lemma ByteIsLow(r: Reg, b: bv8)
    ensures Shr8(Xor(r, Byte(b))) == Shr8(r)
  {
  }

  lemma ShiftOneTwo(z: Reg)
    ensures Shl2(z) == Shl1(Shl1(z))
  {
  }

  lemma ShiftTwoFour(z: Reg)
    ensures Shl4(z) == Shl2(Shl2(z))
  {
  }

  lemma ShiftFourEight(z: Reg)
    ensures Shl8(z) == Shl4(Shl4(z))
  {
  }

  // ---------- Linearity of the register ----------

  lemma BitLinear(x: Reg, y: Reg)
    ensures BitStep(Xor(x, y)) == Xor(BitStep(x), BitStep(y))
  {
    hide Xor, Half, Odd;
    HalfXor(x, y);
    var a, b, p := Half(x), Half(y), POLYNOMIAL;
    XorAssoc(a, b, p);
    XorAssoc(a, p, b);
    XorAssoc(Xor(a, p), b, p);
    XorAssoc(b, p, a);
    XorAssoc(b, a, p);
    XorSelf(Xor(a, b), p);
  }

  lemma Linear(x: Reg, y: Reg)
    ensures Step8(Xor(x, y)) == Xor(Step8(x), Step8(y))
  {
    hide BitStep, Xor;
    var a1, b1 := BitStep(x), BitStep(y);
    var a2, b2 := BitStep(a1), BitStep(b1);
    var a3, b3 := BitStep(a2), BitStep(b2);
    var a4, b4 := BitStep(a3), BitStep(b3);
    var a5, b5 := BitStep(a4), BitStep(b4);
    var a6, b6 := BitStep(a5), BitStep(b5);
    var a7, b7 := BitStep(a6), BitStep(b6);
    BitLinear(x, y);
    BitLinear(a1, b1);
    BitLinear(a2, b2);
    BitLinear(a3, b3);
    BitLinear(a4, b4);
    BitLinear(a5, b5);
    BitLinear(a6, b6);
    BitLinear(a7, b7);
  }

  lemma BitShift(x: Reg)
    requires x.bits <= 0x7FFF_FFFF
    ensures BitStep(Shl1(x)) == x
    ensures x.bits <= 0x3FFF_FFFF ==> Shl1(x).bits <= 0x7FFF_FFFF
  {
  }

  lemma TwoShift(x: Reg)
    requires x.bits <= 0x3FFF_FFFF
    ensures BitStep(BitStep(Shl2(x))) == x
    ensures x.bits <= 0x0FFF_FFFF ==> Shl2(x).bits <= 0x3FFF_FFFF
  {
    ShiftOneTwo(x);
    BitShift(x);
    assert x.bits <= 0x0FFF_FFFF ==> Shl2(x).bits <= 0x3FFF_FFFF;
    hide BitStep, Shl1, Shl2;
    BitShift(Shl1(x));
  }

  lemma FourShift(x: Reg)
    requires x.bits <= 0x0FFF_FFFF
    ensures BitStep(BitStep(BitStep(BitStep(Shl4(x))))) == x
    ensures x.bits <= 0x00FF_FFFF ==> Shl4(x).bits <= 0x0FFF_FFFF
  {
    assert x.bits <= 0x00FF_FFFF ==> Shl4(x).bits <= 0x0FFF_FFFF;
    hide BitStep, Shl2, Shl4;
    ShiftTwoFour(x);
    TwoShift(x);
    TwoShift(Shl2(x));
  }

  /** Eight steps bring the upper three bytes down unchanged. */
  lemma Shift8(z: Reg)
    requires z.bits <= 0x00FF_FFFF
    ensures Step8(Shl8(z)) == z
  {
    hide BitStep, Shl4, Shl8;
    ShiftFourEight(z);
    FourShift(z);
    FourShift(Shl4(z));
  }

  lemma BitInjective(x: Reg, y: Reg)
    requires BitStep(x) == BitStep(y)
    ensures x == y
  {
  }

  lemma Step8Injective(x: Reg, y: Reg)
    requires Step8(x) == Step8(y)
    ensures x == y
  {
    hide BitStep;
    var x1, y1 := BitStep(x), BitStep(y);
    var x2, y2 := BitStep(x1), BitStep(y1);
    var x3, y3 := BitStep(x2), BitStep(y2);
    var x4, y4 := BitStep(x3), BitStep(y3);
    var x5, y5 := BitStep(x4), BitStep(y4);
    var x6, y6 := BitStep(x5), BitStep(y5);
    var x7, y7 := BitStep(x6), BitStep(y6);
    BitInjective(x7, y7);
    BitInjective(x6, y6);
    BitInjective(x5, y5);
    BitInjective(x4, y4);
    BitInjective(x3, y3);
    BitInjective(x2, y2);
    BitInjective(x1, y1);
    BitInjective(x, y);
  }

  // ---------- The table holds the standard's values ----------

  lemma TableRow0A(i: bv32)
    requires 0 <= i < 4
    ensures CrcTab(Reg(i)) == Step8(Reg(i))
  {
  }

  lemma TableRow0B(i: bv32)
    requires 4 <= i < 8
    ensures CrcTab(Reg(i)) == Step8(Reg(i))
  {
  }

  lemma TableRow0C(i: bv32)
    requires 8 <= i < 12
    ensures CrcTab(Reg(i)) == Step8(Reg(i))
  {
  }

  lemma TableRow0D(i: bv32)
    requires 12 <= i < 16
    ensures CrcTab(Reg(i)) == Step8(Reg(i))
  {
  }

  lemma TableRow1(i: bv32)
    requires i >> 4 == 0x1
    ensures CrcTab(Reg(i)) == Step8(Reg(i))
  {
  }

  lemma TableRow2(i: bv32)
    requires i >> 4 == 0x2
    ensures CrcTab(Reg(i)) == Step8(Reg(i))
  {
  }

  lemma TableRow3(i: bv32)
    requires i >> 4 == 0x3
    ensures CrcTab(Reg(i)) == Step8(Reg(i))
  {
  }

  lemma TableRow4(i: bv32)
    requires i >> 4 == 0x4
    ensures CrcTab(Reg(i)) == Step8(Reg(i))
  {
  }

  lemma TableRow5(i: bv32)
    requires i >> 4 == 0x5
    ensures CrcTab(Reg(i)) == Step8(Reg(i))
  {
  }

  lemma TableRow6(i: bv32)
    requires i >> 4 == 0x6
    ensures CrcTab(Reg(i)) == Step8(Reg(i))
  {
  }

  lemma TableRow7(i: bv32)
    requires i >> 4 == 0x7
    ensures CrcTab(Reg(i)) == Step8(Reg(i))
  {
  }

  lemma TableRow8(i: bv32)
    requires i >> 4 == 0x8
    ensures CrcTab(Reg(i)) == Step8(Reg(i))
  {
  }

  lemma TableRow9(i: bv32)
    requires i >> 4 == 0x9
    ensures CrcTab(Reg(i)) == Step8(Reg(i))
  {
  }

  lemma TableRowA(i: bv32)
    requires i >> 4 == 0xA
    ensures CrcTab(Reg(i)) == Step8(Reg(i))
  {
  }

  lemma TableRowB(i: bv32)
    requires i >> 4 == 0xB
    ensures CrcTab(Reg(i)) == Step8(Reg(i))
  {
  }

  lemma TableRowC(i: bv32)
    requires i >> 4 == 0xC
    ensures CrcTab(Reg(i)) == Step8(Reg(i))
  {
  }

  lemma TableRowD(i: bv32)
    requires i >> 4 == 0xD
    ensures CrcTab(Reg(i)) == Step8(Reg(i))
  {
  }

  lemma TableRowE(i: bv32)
    requires i >> 4 == 0xE
    ensures CrcTab(Reg(i)) == Step8(Reg(i))
  {
  }

  lemma TableRowF(i: bv32)
    requires i >> 4 == 0xF
    ensures CrcTab(Reg(i)) == Step8(Reg(i))
  {
  }

  lemma TableOk(idx: Reg)
    requires idx.bits <= 0xFF
    ensures CrcTab(idx) == Step8(idx)
  {
    hide CrcTab, Step8;
    var i := idx.bits;
    var h := i >> 4;
    assert h <= 0xF;
    if
    case h == 0x0 && i < 4 => TableRow0A(i);
    case h == 0x0 && 4 <= i < 8 => TableRow0B(i);
    case h == 0x0 && 8 <= i < 12 => TableRow0C(i);
    case h == 0x0 && 12 <= i => TableRow0D(i);
    case h == 0x1 => TableRow1(i);
    case h == 0x2 => TableRow2(i);
    case h == 0x3 => TableRow3(i);
    case h == 0x4 => TableRow4(i);
    case h == 0x5 => TableRow5(i);
    case h == 0x6 => TableRow6(i);
    case h == 0x7 => TableRow7(i);
    case h == 0x8 => TableRow8(i);
    case h == 0x9 => TableRow9(i);
    case h == 0xA => TableRowA(i);
    case h == 0xB => TableRowB(i);
    case h == 0xC => TableRowC(i);
    case h == 0xD => TableRowD(i);
    case h == 0xE => TableRowE(i);
    case h == 0xF => TableRowF(i);
  }

  /** Looking the low byte up in the full table is the standard's byte step. */
  lemma StepStandard(r: Reg, b: bv8)
    ensures Xor(CrcTab(Index(r, b)), Shr8(r)) == StdStep(r, b)
  {
    hide CrcTab, Step8, Xor, Byte, Low, Shr8, Shl8;
    var x := Xor(r, Byte(b));
    SplitRegister(x);
    ByteIsLow(r, b);
    TableOk(Low(x));
    Linear(Low(x), Shl8(Shr8(x)));
    Shift8(Shr8(x));
  }

  /** The one register that the standard's step at index 255 would leave unchanged, too. */
  const FIXED: Reg := Reg(0x2D2F_C04D)

  lemma FixedPoint(r: Reg)
    ensures Xor(Reg(0x2D02_EF8D), Shr8(r)) == r <==> r == FIXED
  {
    if Xor(Reg(0x2D02_EF8D), Shr8(r)) == r {
      assert r.bits >> 24 == 0x2D;
      assert (r.bits >> 16) & 0xFF == 0x2F;
      assert (r.bits >> 8) & 0xFF == 0xC0;
    }
  }

  lemma LastEntry()
    ensures CrcTab(Reg(0xFF)) == Reg(0x2D02_EF8D)
  {
  }

  lemma BelowLast(i: Reg)
    requires i.bits <= 0xFF
    ensures i.bits < CRC32_ARRAY_SIZE <==> i != Reg(0xFF)
  {
  }

  /** Exactly when a byte step of the code is a step of the standard. */
  lemma StepAgrees(r: Reg, b: bv8)
    ensures TableStep(r, b) == StdStep(r, b) <==> Index(r, b) != Reg(0xFF) || r == FIXED
  {
    hide CrcTab, StdStep, Index, Xor, Shr8;
    StepStandard(r, b);
    BelowLast(Index(r, b));
    LastEntry();
    FixedPoint(r);
  }

  lemma StepSkips(r: Reg, b: bv8)
    requires Index(r, b) == Reg(0xFF)
    ensures TableStep(r, b) == r
  {
    hide CrcTab, Index, Xor, Shr8;
    BelowLast(Index(r, b));
  }

  // ---------- Whole buffers ----------

  /** No byte of `data` makes the code select entry 255. */
  ghost predicate Avoids(r: Reg, data: seq<bv8>)
    decreases |data|
  {
    data != [] ==> Index(r, data[0]) != Reg(0xFF) && Avoids(TableStep(r, data[0]), data[1..])
  }

  lemma {:induction false} RegAgrees(r: Reg, data: seq<bv8>)
    requires Avoids(r, data)
    ensures TableReg(r, data) == StdReg(r, data)
    decreases |data|
  {
    hide TableStep, StdStep, Index;
    if data != [] {
      StepAgrees(r, data[0]);
      RegAgrees(TableStep(r, data[0]), data[1..]);
    }
  }

  /** The checksum is the standard's for every buffer that never selects entry 255. */
  lemma CrcAgrees(crc: Reg, data: seq<bv8>)
    requires Avoids(Flip(crc), data)
    ensures Crc(crc, data) == StdCrc(crc, data)
  {
    hide Flip;
    RegAgrees(Flip(crc), data);
  }

  lemma {:induction false} StdRegInjective(r: Reg, s: Reg, data: seq<bv8>)
    requires StdReg(r, data) == StdReg(s, data)
    ensures r == s
    decreases |data|
  {
    hide Step8, Xor, Byte;
    if data != [] {
      var b := Byte(data[0]);
      StdRegInjective(StdStep(r, data[0]), StdStep(s, data[0]), data[1..]);
      Step8Injective(Xor(r, b), Xor(s, b));
      XorCancel(r, s, b);
    }
  }

  lemma {:induction false} TableRegConcat(r: Reg, a: seq<bv8>, b: seq<bv8>)
    ensures TableReg(r, a + b) == TableReg(TableReg(r, a), b)
    decreases |a|
  {
    hide TableStep;
    if a == [] {
      assert a + b == b;
    } else {
      assert (a + b)[1..] == a[1..] + b;
      TableRegConcat(TableStep(r, a[0]), a[1..], b);
    }
  }

  lemma {:induction false} StdRegConcat(r: Reg, a: seq<bv8>, b: seq<bv8>)
    ensures StdReg(r, a + b) == StdReg(StdReg(r, a), b)
    decreases |a|
  {
    hide StdStep;
    if a == [] {
      assert a + b == b;
    } else {
      assert (a + b)[1..] == a[1..] + b;
      StdRegConcat(StdStep(r, a[0]), a[1..], b);
    }
  }

  /** Feeding the checksum of `a` into the checksum of `b` is the checksum of the two put together. */
  lemma CrcConcat(crc: Reg, a: seq<bv8>, b: seq<bv8>)
    ensures Crc(Crc(crc, a), b) == Crc(crc, a + b)
  {
    hide Flip, TableReg;
    TableRegConcat(Flip(crc), a, b);
    FlipTwice(TableReg(Flip(crc), a));
  }

  /**
   A buffer that selects entry 255 exactly once, at `b`, gets the standard's checksum only if the
   register happened to be the fixed one there.
   */
  lemma SingleSelection(crc: Reg, a: seq<bv8>, b: bv8, c: seq<bv8>)
    requires var r := TableReg(Flip(crc), a); Avoids(Flip(crc), a) && Index(r, b) == Reg(0xFF) && Avoids(r, c)
    ensures Crc(crc, a + [b] + c) == StdCrc(crc, a + [b] + c) <==> TableReg(Flip(crc), a) == FIXED
  {
    hide Flip, TableStep, StdStep, Index;
    var r0 := Flip(crc);
    var r := TableReg(r0, a);
    RegAgrees(r0, a);
    assert a + [b] + c == a + ([b] + c);
    TableRegConcat(r0, a, [b] + c);
    StdRegConcat(r0, a, [b] + c);
    assert ([b] + c)[1..] == c;
    StepSkips(r, b);
    StepAgrees(r, b);
    RegAgrees(r, c);
    var s := StdStep(r, b);
    if StdReg(r, c) == StdReg(s, c) {
      StdRegInjective(r, s, c);
    }
    FlipTwice(StdReg(r, c));
    FlipTwice(StdReg(s, c));
  }

  function Zeros(n: nat): seq<bv8> {
    seq(n, _ => 0)
  }

  /** All buffers of zero bytes, of every length, share the checksum 0: each byte selects entry 255. */
  lemma ZeroBuffers(n: nat)
    ensures Crc(Reg(0), Zeros(n)) == Reg(0)
  {
    ZeroRegister(n);
  }

  lemma {:induction false} ZeroRegister(n: nat)
    ensures TableReg(Reg(0xFFFF_FFFF), Zeros(n)) == Reg(0xFFFF_FFFF)
  {
    hide CrcTab;
    if n > 0 {
      assert Zeros(n)[1..] == Zeros(n - 1) && Zeros(n)[0] == 0;
      assert Index(Reg(0xFFFF_FFFF), 0) == Reg(0xFF);
      StepSkips(Reg(0xFFFF_FFFF), 0);
      ZeroRegister(n - 1);
    }
  }

  /** A concrete buffer on which the code leaves the standard: a single zero byte. */
  lemma OneZeroByte()
    ensures Crc(Reg(0), [0]) == Reg(0) && StdCrc(Reg(0), [0]) == Reg(0xD202_EF8D)
  {
    hide CrcTab, StdStep;
    var r := Reg(0xFFFF_FFFF);
    assert Index(r, 0) == Reg(0xFF);
    StepSkips(r, 0);
    StepStandard(r, 0);
    LastEntry();
    assert StdReg(r, [0]) == StdReg(StdStep(r, 0), []);
    assert TableReg(r, [0]) == TableReg(TableStep(r, 0), []);
  }

  // ---------- Bursts ----------

  function StepN(n: nat, x: Reg): Reg {
    if n == 0 then x else StepN(n - 1, Step8(x))
  }

  /** The bytes as a little-endian word. */
  function Word(bytes: seq<bv8>): Reg {
    if bytes == [] then Reg(0) else Xor(Byte(bytes[0]), Shl8(Word(bytes[1..])))
  }

  lemma ByteAbove(b: bv8, w: Reg)
    ensures w.bits <= 0xFF ==> Xor(Byte(b), Shl8(w)).bits <= 0xFFFF
    ensures w.bits <= 0xFFFF ==> Xor(Byte(b), Shl8(w)).bits <= 0x00FF_FFFF
    ensures w == Reg(0) ==> Xor(Byte(b), Shl8(w)).bits <= 0xFF
  {
  }

  lemma WordRange(bytes: seq<bv8>)
    requires |bytes| <= 3
    ensures Word(bytes).bits <= 0x00FF_FFFF
    ensures |bytes| <= 2 ==> Word(bytes).bits <= 0xFFFF
    ensures |bytes| <= 1 ==> Word(bytes).bits <= 0xFF
  {
    if bytes != [] {
      WordRange(bytes[1..]);
      ByteAbove(bytes[0], Word(bytes[1..]));
    }
  }

  lemma {:induction false} WordInjective(a: seq<bv8>, b: seq<bv8>)
    requires |a| == |b| <= 4 && Word(a) == Word(b)
    ensures a == b
    decreases |a|
  {
    if a != [] {
      var x, y := Word(a[1..]), Word(b[1..]);
      WordRange(a[1..]);
      WordRange(b[1..]);
      SameLowByte(a[0], x, b[0], y);
      WordInjective(a[1..], b[1..]);
      assert a == [a[0]] + a[1..] && b == [b[0]] + b[1..];
    }
  }

  lemma ByteBelow(a: bv8, x: Reg)
    requires x.bits <= 0x00FF_FFFF
    ensures Low(Xor(Byte(a), Shl8(x))) == Byte(a) && Shr8(Xor(Byte(a), Shl8(x))) == x
  {
  }

  lemma ByteInjective(a: bv8, b: bv8)
    requires Byte(a) == Byte(b)
    ensures a == b
  {
  }

  lemma SameLowByte(a: bv8, x: Reg, b: bv8, y: Reg)
    requires x.bits <= 0x00FF_FFFF && y.bits <= 0x00FF_FFFF
    requires Xor(Byte(a), Shl8(x)) == Xor(Byte(b), Shl8(y))
    ensures a == b && x == y
  {
    hide Xor, Byte, Shl8, Low, Shr8;
    ByteBelow(a, x);
    ByteBelow(b, y);
    ByteInjective(a, b);
  }

  /** Up to four byte steps act on the register XOR the bytes as a word. */
  lemma {:induction false} WindowStep(r: Reg, bytes: seq<bv8>)
    requires |bytes| <= 4
    ensures StdReg(r, bytes) == StepN(|bytes|, Xor(r, Word(bytes)))
    decreases |bytes|
  {
    hide Step8;
    if bytes == [] {
      assert r.bits ^ 0 == r.bits;
    } else {
      var b, w := Byte(bytes[0]), Word(bytes[1..]);
      WordRange(bytes[1..]);
      WindowStep(StdStep(r, bytes[0]), bytes[1..]);
      Linear(Xor(r, b), Shl8(w));
      Shift8(w);
      XorAssoc(r, b, Shl8(w));
    }
  }

  lemma {:induction false} StepNInjective(n: nat, x: Reg, y: Reg)
    requires StepN(n, x) == StepN(n, y)
    ensures x == y
  {
    hide Step8;
    if n > 0 {
      StepNInjective(n - 1, Step8(x), Step8(y));
      Step8Injective(x, y);
    }
  }

  /** Two buffers that differ, but only inside one window of four consecutive bytes. */
  ghost predicate DifferInWindow(a: seq<bv8>, b: seq<bv8>, i: nat) {
    && |a| == |b| && a != b
    && forall k | 0 <= k < |a| && !(i <= k < i + 4) :: a[k] == b[k]
  }

  /** Different words fed into one register give different registers. */
  lemma WindowDiffers(s: Reg, w: seq<bv8>, v: seq<bv8>)
    requires |w| == |v| <= 4 && StdReg(s, w) == StdReg(s, v)
    ensures w == v
  {
    hide StdReg, StepN, Xor;
    WindowStep(s, w);
    WindowStep(s, v);
    StepNInjective(|w|, Xor(s, Word(w)), Xor(s, Word(v)));
    XorAssoc(s, Word(w), s);
    XorAssoc(s, Word(v), s);
    XorCancel(Word(w), Word(v), s);
    WordInjective(w, v);
  }

  /** The standard's register tells such buffers apart. */
  lemma BurstRegister(r: Reg, a: seq<bv8>, b: seq<bv8>, i: nat)
    requires DifferInWindow(a, b, i)
    ensures StdReg(r, a) != StdReg(r, b)
  {
    hide StdReg;
    var n := |a|;
    var lo := if i < n then i else n;
    var hi := if i + 4 < n then i + 4 else n;
    var w, v, rest := a[lo..hi], b[lo..hi], a[hi..];
    assert a[..lo] == b[..lo] && rest == b[hi..];
    assert a == a[..lo] + (w + rest) && b == a[..lo] + (v + rest);
    var s := StdReg(r, a[..lo]);
    StdRegConcat(r, a[..lo], w + rest);
    StdRegConcat(r, a[..lo], v + rest);
    StdRegConcat(s, w, rest);
    StdRegConcat(s, v, rest);
    if StdReg(r, a) == StdReg(r, b) {
      StdRegInjective(StdReg(s, w), StdReg(s, v), rest);
      WindowDiffers(s, w, v);
    }
  }

  /** The code's checksum detects every error burst of up to 32 bits unless entry 255 is selected. */
  lemma BurstDetected(crc: Reg, a: seq<bv8>, b: seq<bv8>, i: nat)
    requires DifferInWindow(a, b, i)
    ensures Avoids(Flip(crc), a) && Avoids(Flip(crc), b) ==> Crc(crc, a) != Crc(crc, b)
  {
    hide Flip;
    var r := Flip(crc);
    BurstRegister(r, a, b, i);
    if Avoids(r, a) && Avoids(r, b) {
      RegAgrees(r, a);
      RegAgrees(r, b);
      FlipTwice(StdReg(r, a));
      FlipTwice(StdReg(r, b));
    }
  }

  // ---------- Agreement with the standard, exactly ----------

  /** What the register misses when a byte that selects entry 255 leaves it as it is. */
  function Missed(r: Reg): Reg {
    Xor(r, Xor(Reg(0x2D02_EF8D), Shr8(r)))
  }

  /** The misses of a buffer, each carried on by the bytes that follow it. */
  function Deviation(r: Reg, data: seq<bv8>): Reg
    decreases |data|
  {
    if data == [] then Reg(0)
    else
      var later := Deviation(TableStep(r, data[0]), data[1..]);
      if Index(r, data[0]) == Reg(0xFF) then Xor(StepN(|data| - 1, Missed(r)), later) else later
  }

  lemma XorZero(x: Reg, y: Reg)
    ensures Xor(x, y) == Reg(0) <==> x == y
  {
  }

  lemma XorBack(x: Reg, y: Reg)
    ensures Xor(x, Xor(x, y)) == y
  {
  }

  lemma StdStepLinear(r: Reg, d: Reg, b: bv8)
    ensures StdStep(Xor(r, d), b) == Xor(StdStep(r, b), Step8(d))
  {
    hide Xor, Step8, Byte;
    XorAssoc(r, d, Byte(b));
    XorAssoc(r, Byte(b), d);
    XorAssoc(d, Byte(b), r);
    Linear(Xor(r, Byte(b)), d);
  }

  /** A difference in the register runs through the rest of a buffer independently of its bytes. */
  lemma {:induction false} StdRegLinear(r: Reg, d: Reg, data: seq<bv8>)
    ensures StdReg(Xor(r, d), data) == Xor(StdReg(r, data), StepN(|data|, d))
    decreases |data|
  {
    hide Xor, Step8, StdStep;
    if data != [] {
      StdStepLinear(r, d, data[0]);
      StdRegLinear(StdStep(r, data[0]), Step8(d), data[1..]);
    }
  }

  /** The code's register differs from the standard's by exactly the deviation. */
  lemma {:induction false} DeviationIs(r: Reg, data: seq<bv8>)
    ensures Xor(TableReg(r, data), StdReg(r, data)) == Deviation(r, data)
    decreases |data|
  {
    hide Xor, TableStep, StdStep, Index, CrcTab, Shr8, StepN;
    if data == [] {
      XorZero(r, r);
    } else {
      var b, rest := data[0], data[1..];
      DeviationIs(TableStep(r, b), rest);
      if Index(r, b) == Reg(0xFF) {
        StepSkips(r, b);
        StepStandard(r, b);
        LastEntry();
        XorBack(r, StdStep(r, b));
        StdRegLinear(r, Missed(r), rest);
        XorAssoc(TableReg(r, rest), StdReg(r, rest), StepN(|rest|, Missed(r)));
        XorAssoc(Xor(TableReg(r, rest), StdReg(r, rest)), StepN(|rest|, Missed(r)), Reg(0));
      } else {
        StepAgrees(r, b);
      }
    }
  }

  /** For every buffer: the checksum is the standard's exactly if the deviations cancel out. */
  lemma AgreesIff(crc: Reg, data: seq<bv8>)
    ensures Crc(crc, data) == StdCrc(crc, data) <==> Deviation(Flip(crc), data) == Reg(0)
  {
    hide Xor, Flip, Deviation, TableReg, StdReg;
    var r := Flip(crc);
    DeviationIs(r, data);
    XorZero(TableReg(r, data), StdReg(r, data));
    FlipTwice(TableReg(r, data));
    FlipTwice(StdReg(r, data));
  }

  /** Every byte that selects entry 255 does so at the fixed point. */
  ghost predicate Harmless(r: Reg, data: seq<bv8>)
    decreases |data|
  {
    data != [] ==> (Index(r, data[0]) != Reg(0xFF) || r == FIXED) && Harmless(TableStep(r, data[0]), data[1..])
  }

  lemma {:induction false} HarmlessAgrees(r: Reg, data: seq<bv8>, n: nat)
    requires Harmless(r, data) && n <= |data|
    ensures TableReg(r, data[..n]) == StdReg(r, data[..n])
    decreases |data|
  {
    hide TableStep, StdStep, Index;
    if n > 0 {
      StepAgrees(r, data[0]);
      HarmlessAgrees(TableStep(r, data[0]), data[1..], n - 1);
      assert data[..n][1..] == data[1..][..n - 1];
    }
  }

  lemma {:induction false} PrefixesHarmless(r: Reg, data: seq<bv8>)
    requires forall n: nat | n <= |data| :: TableReg(r, data[..n]) == StdReg(r, data[..n])
    ensures Harmless(r, data)
    decreases |data|
  {
    hide TableStep, StdStep, Index;
    if data != [] {
      assert TableReg(r, data[..1]) == TableStep(r, data[0]) && StdReg(r, data[..1]) == StdStep(r, data[0]) by {
        assert data[..1][1..] == [];
      }
      assert TableReg(r, data[..1]) == StdReg(r, data[..1]);
      StepAgrees(r, data[0]);
      var r' := TableStep(r, data[0]);
      forall n: nat | n <= |data[1..]|
        ensures TableReg(r', data[1..][..n]) == StdReg(r', data[1..][..n])
      {
        assert data[..n + 1][1..] == data[1..][..n];
        assert TableReg(r, data[..n + 1]) == StdReg(r, data[..n + 1]);
      }
      PrefixesHarmless(r', data[1..]);
    }
  }

  /**
   Byte by byte: the checksum of every first part of a buffer is the standard's exactly if each byte
   avoids entry 255 or meets the fixed point.
   */
  lemma PrefixIff(crc: Reg, data: seq<bv8>)
    ensures Harmless(Flip(crc), data) <==>
      forall n: nat | n <= |data| :: Crc(crc, data[..n]) == StdCrc(crc, data[..n])
  {
    hide Flip, Harmless, TableReg, StdReg;
    var r := Flip(crc);
    forall n: nat | n <= |data|
      ensures Crc(crc, data[..n]) == StdCrc(crc, data[..n]) <==> TableReg(r, data[..n]) == StdReg(r, data[..n])
    {
      FlipTwice(TableReg(r, data[..n]));
      FlipTwice(StdReg(r, data[..n]));
    }
    if Harmless(r, data) {
      forall n: nat | n <= |data|
        ensures TableReg(r, data[..n]) == StdReg(r, data[..n])
      {
        HarmlessAgrees(r, data, n);
      }
    } else if forall n: nat | n <= |data| :: Crc(crc, data[..n]) == StdCrc(crc, data[..n]) {
      assert forall n: nat | n <= |data| :: TableReg(r, data[..n]) == StdReg(r, data[..n]);
      PrefixesHarmless(r, data);
    }
  }

  lemma OneByte(r: Reg, t: Reg, b: bv8, rest: seq<bv8>)
    ensures TableReg(r, [b] + rest) == TableReg(TableStep(r, b), rest)
    ensures StdReg(t, [b] + rest) == StdReg(StdStep(t, b), rest)
  {
    assert ([b] + rest)[1..] == rest;
  }

  const CANCELLING: seq<bv8> := [0x00] + ([0x90] + ([0x2B] + ([0xAA] + ([0x7C] + ([0xCD] + [])))))

  /** Two bytes of this buffer leave the standard, and the second makes good for the first. */
  lemma Cancelling()
    ensures Crc(Reg(0), CANCELLING) == StdCrc(Reg(0), CANCELLING) && !Harmless(Flip(Reg(0)), CANCELLING)
  {
    var r := Reg(0xFFFF_FFFF);
    assert Flip(Reg(0)) == r && Index(r, 0) == Reg(0xFF) && r != FIXED;
    CancellingCode();
    CancellingStandard();
    CancellingRest();
    hide TableStep, StdStep, Index, Flip;
    assert TableReg(Reg(0x5AB8_0132), []) == StdReg(Reg(0x5AB8_0132), []);
    assert CANCELLING[0] == 0;
    hide TableReg, StdReg;
    OneByte(r, r, 0x00, [0x90] + ([0x2B] + ([0xAA] + ([0x7C] + ([0xCD] + [])))));
    OneByte(r, Reg(0x2DFD_1072), 0x90, [0x2B] + ([0xAA] + ([0x7C] + ([0xCD] + []))));
    OneByte(Reg(0xDDF2_8336), Reg(0x4E29_7E44), 0x2B, [0xAA] + ([0x7C] + ([0xCD] + [])));
    OneByte(Reg(0x63DB_9E5A), Reg(0xDD43_55B7), 0xAA, [0x7C] + ([0xCD] + []));
    OneByte(Reg(0xBDDE_2982), Reg(0x63DB_2F8C), 0x7C, [0xCD] + []);
    OneByte(Reg(0x5AB8_0132), Reg(0xBDDE_2933), 0xCD, []);
  }

  lemma CancellingCode()
    ensures TableStep(Reg(0xFFFF_FFFF), 0x00) == Reg(0xFFFF_FFFF) && TableStep(Reg(0xFFFF_FFFF), 0x90) == Reg(0xDDF2_8336)
    ensures TableStep(Reg(0xDDF2_8336), 0x2B) == Reg(0x63DB_9E5A) && TableStep(Reg(0x63DB_9E5A), 0xAA) == Reg(0xBDDE_2982)
    ensures TableStep(Reg(0xBDDE_2982), 0x7C) == Reg(0x5AB8_0132) && TableStep(Reg(0x5AB8_0132), 0xCD) == Reg(0x5AB8_0132)
  {
  }

  lemma CancellingStandard()
    ensures StdStep(Reg(0xFFFF_FFFF), 0x00) == Reg(0x2DFD_1072)
    ensures StdStep(Reg(0x2DFD_1072), 0x90) == Reg(0x4E29_7E44)
    ensures StdStep(Reg(0x4E29_7E44), 0x2B) == Reg(0xDD43_55B7)
  {
    hide StdStep;
    StepStandard(Reg(0xFFFF_FFFF), 0x00);
    StepStandard(Reg(0x2DFD_1072), 0x90);
    StepStandard(Reg(0x4E29_7E44), 0x2B);
  }

  lemma CancellingRest()
    ensures StdStep(Reg(0xDD43_55B7), 0xAA) == Reg(0x63DB_2F8C)
    ensures StdStep(Reg(0x63DB_2F8C), 0x7C) == Reg(0xBDDE_2933)
    ensures StdStep(Reg(0xBDDE_2933), 0xCD) == Reg(0x5AB8_0132)
  {
    hide StdStep;
    StepStandard(Reg(0xDD43_55B7), 0xAA);
    StepStandard(Reg(0x63DB_2F8C), 0x7C);
    StepStandard(Reg(0xBDDE_2933), 0xCD);
  }
}
