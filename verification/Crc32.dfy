/** CRC-32 on 32-bit words: the operations of the table-driven function, the laws they obey,
    and the result that the function computes the bit-by-bit definition. */
module Crc32 {
  import opened LinearSteps
  import opened SliceByEight

  /** One bit through the register; the constant is the reflected polynomial. */
  function BitStep(c: bv32): bv32 {
    if c & 1 == 1 then (c >> 1) ^ 0xEDB8_8320 else c >> 1
  }

  function Xor(a: bv32, b: bv32): bv32 { a ^ b }
  function Not(a: bv32): bv32 { !a }
  function Widen(b: bv8): bv32 { b as bv32 }
  function ByteA(x: bv32): bv32 { x & 0xFF }
  function ByteB(x: bv32): bv32 { (x >> 8) & 0xFF }
  function ByteC(x: bv32): bv32 { (x >> 16) & 0xFF }
  function ByteD(x: bv32): bv32 { x >> 24 }
  function Shift8(x: bv32): bv32 { x >> 8 }

  /** A little-endian word in memory. */
  function Load(b0: bv8, b1: bv8, b2: bv8, b3: bv8): bv32 {
    (b0 as bv32) | ((b1 as bv32) << 8) | ((b2 as bv32) << 16) | ((b3 as bv32) << 24)
  }

  function CrcOps(): Ops<bv32, bv8> {
    Ops(BitStep, Xor, Not, Widen, ByteA, ByteB, ByteC, ByteD, Shift8, Load)
  }

  function Rest1(x: bv32): bv32 { x & 0xFFFF_FF00 }
  function Rest2(x: bv32): bv32 { (x >> 8) & 0x00FF_FF00 }
  function Rest3(x: bv32): bv32 { (x >> 16) & 0x0000_FF00 }

  function CrcRests(): Rests<bv32> { Rests(Rest1, Rest2, Rest3) }

  // ------------------------------------------------------------ exclusive or

  lemma ShiftXor(a: bv32, b: bv32)
    ensures (a ^ b) >> 1 == (a >> 1) ^ (b >> 1)
  {
  }

  lemma LowXor(a: bv32, b: bv32)
    ensures ((a ^ b) & 1 == 1) <==> ((a & 1 == 1) != (b & 1 == 1))
  {
  }

  lemma XorCancel(a: bv32, b: bv32, p: bv32)
    ensures (a ^ p) ^ (b ^ p) == a ^ b
    ensures (a ^ p) ^ b == (a ^ b) ^ p
    ensures a ^ (b ^ p) == (a ^ b) ^ p
  {
  }

  lemma XorAssociates(x: bv32, y: bv32, z: bv32)
    ensures (x ^ y) ^ z == x ^ (y ^ z)
  {
  }

  lemma XorCommutes(x: bv32, y: bv32)
    ensures x ^ y == y ^ x
  {
  }

  lemma BitLinear(a: bv32, b: bv32)
    ensures BitStep(Xor(a, b)) == Xor(BitStep(a), BitStep(b))
  {
    ShiftXor(a, b);
    LowXor(a, b);
    XorCancel(a >> 1, b >> 1, 0xEDB8_8320);
  }

  lemma XorLaws()
    ensures Linear(BitStep, Xor) && Associative(Xor) && Commutative(Xor)
  {
    forall x: bv32, y: bv32 ensures BitStep(Xor(x, y)) == Xor(BitStep(x), BitStep(y)) { BitLinear(x, y); }
    XorAssociative();
    forall x: bv32, y: bv32 ensures Xor(x, y) == Xor(y, x) { XorCommutes(x, y); }
  }

  lemma XorAssociative()
    ensures Associative(Xor)
  {
    forall x: bv32, y: bv32, z: bv32 ensures Xor(Xor(x, y), z) == Xor(x, Xor(y, z)) { XorAssociates(x, y, z); }
  }

  // ------------------------------------------------------------ bytes of a word

  lemma SplitFirst(x: bv32)
    ensures (x & 0xFF) ^ (x & 0xFFFF_FF00) == x
    ensures (x & 0xFFFF_FF00) >> 8 == x >> 8
  {
  }

  lemma SplitSecond(x: bv32)
    ensures x >> 8 == ((x >> 8) & 0xFF) ^ ((x >> 8) & 0x00FF_FF00)
  {
  }

  lemma SplitThird(x: bv32)
    ensures ((x >> 8) & 0x00FF_FF00) >> 8 == ((x >> 16) & 0xFF) ^ ((x >> 16) & 0x0000_FF00)
    ensures ((x >> 16) & 0x0000_FF00) >> 8 == x >> 24
  {
  }

  lemma LowClear(x: bv32)
    ensures (x & 0xFFFF_FF00) & 0xFF == 0
    ensures ((x >> 8) & 0x00FF_FF00) & 0xFF == 0 && ((x >> 16) & 0x0000_FF00) & 0xFF == 0
  {
  }

  lemma SplitLawA()
    ensures SplitsA(CrcOps(), CrcRests())
  {
    forall x: bv32 ensures Xor(ByteA(x), Rest1(x)) == x && Shift8(Rest1(x)) == Shift8(x) { SplitFirst(x); }
  }

  lemma SplitLawB()
    ensures SplitsB(CrcOps(), CrcRests())
  {
    forall x: bv32 ensures Shift8(x) == Xor(ByteB(x), Rest2(x)) { SplitSecond(x); }
  }

  lemma SplitLawC()
    ensures SplitsC(CrcOps(), CrcRests())
  {
    forall x: bv32 ensures Shift8(Rest2(x)) == Xor(ByteC(x), Rest3(x)) && Shift8(Rest3(x)) == ByteD(x) {
      SplitThird(x);
    }
  }

  /** `d` is the even number `c` shifted down by one bit. */
  predicate Half(d: bv32, c: bv32) { c & 1 == 0 && d == c >> 1 }

  lemma HalfStep(d: bv32, c: bv32)
    requires Half(d, c)
    ensures BitStep(c) == d
  {
  }

  lemma Halves(c: bv32)
    requires c & 0xFF == 0
    ensures Half(c >> 1, c) && Half(c >> 2, c >> 1) && Half(c >> 3, c >> 2) && Half(c >> 4, c >> 3)
    ensures Half(c >> 5, c >> 4) && Half(c >> 6, c >> 5) && Half(c >> 7, c >> 6) && Half(c >> 8, c >> 7)
  {
  }

  lemma EightHalves(c0: bv32, c1: bv32, c2: bv32, c3: bv32, c4: bv32, c5: bv32, c6: bv32, c7: bv32, c8: bv32)
    requires Half(c1, c0) && Half(c2, c1) && Half(c3, c2) && Half(c4, c3)
    requires Half(c5, c4) && Half(c6, c5) && Half(c7, c6) && Half(c8, c7)
    ensures Iter(BitStep, 8, c0) == c8
  {
    HalfStep(c1, c0);
    HalfStep(c2, c1);
    HalfStep(c3, c2);
    HalfStep(c4, c3);
    HalfStep(c5, c4);
    HalfStep(c6, c5);
    HalfStep(c7, c6);
    HalfStep(c8, c7);
    IterEight(BitStep, c0, c1, c2, c3, c4, c5, c6, c7, c8);
  }

  /** Bits above the lowest byte move down unchanged. */
  lemma HighByte(c: bv32)
    requires c & 0xFF == 0
    ensures Iter(BitStep, 8, c) == Shift8(c)
  {
    Halves(c);
    EightHalves(c, c >> 1, c >> 2, c >> 3, c >> 4, c >> 5, c >> 6, c >> 7, c >> 8);
  }

  lemma MoveLaws()
    ensures MovesDown(CrcOps(), CrcRests())
  {
    forall x: bv32
      ensures Iter(BitStep, 8, Rest1(x)) == Shift8(Rest1(x))
      ensures Iter(BitStep, 8, Rest2(x)) == Shift8(Rest2(x))
      ensures Iter(BitStep, 8, Rest3(x)) == Shift8(Rest3(x))
    {
      LowClear(x);
      HighByte(Rest1(x));
      HighByte(Rest2(x));
      HighByte(Rest3(x));
    }
  }

  lemma LoadBytes(b0: bv8, b1: bv8, b2: bv8, b3: bv8)
    ensures var w := Load(b0, b1, b2, b3);
      ByteA(w) == Widen(b0) && ByteB(w) == Widen(b1) && ByteC(w) == Widen(b2) && ByteD(w) == Widen(b3)
  {
  }

  lemma EnterBits(c: bv32, b: bv8)
    ensures (c ^ (b as bv32)) >> 8 == c >> 8
    ensures (c ^ (b as bv32)) & 0xFF == (b as bv32) ^ (c & 0xFF)
  {
  }

  lemma ByteLaws()
    ensures LoadsBytes(CrcOps()) && EntersLow(CrcOps())
  {
    forall a: bv8, b: bv8, c: bv8, d: bv8
      ensures var w := Load(a, b, c, d);
        ByteA(w) == Widen(a) && ByteB(w) == Widen(b) && ByteC(w) == Widen(c) && ByteD(w) == Widen(d)
    {
      LoadBytes(a, b, c, d);
    }
    forall c: bv32, b: bv8
      ensures Shift8(Xor(c, Widen(b))) == Shift8(c) && ByteA(Xor(c, Widen(b))) == Xor(Widen(b), ByteA(c))
    {
      EnterBits(c, b);
    }
  }

  lemma NotNot(x: bv32)
    ensures Not(Not(x)) == x
  {
  }

  lemma CrcLaws()
    ensures Laws(CrcOps(), CrcRests())
  {
    XorLaws();
    SplitLawA();
    SplitLawB();
    SplitLawC();
    MoveLaws();
    ByteLaws();
  }

  // ------------------------------------------------------------ the function

  /** The CRC of `data`, bit by bit, that continues one of `seed`; 0 starts afresh. */
  function BitwiseCrc(data: seq<bv8>, seed: bv32): bv32 { Bitwise(CrcOps(), data, seed) }

  // ------------------------------------------------------------ the plain definition

  /** Bits through the register, by the reflected polynomial of RFC 1952. */
  function PlainBits(c: bv32, n: nat): bv32
    decreases n
  {
    if n == 0 then c else PlainBits(if c & 1 == 1 then (c >> 1) ^ 0xEDB8_8320 else c >> 1, n - 1)
  }

  function PlainBytes(c: bv32, data: seq<bv8>): bv32
    decreases |data|
  {
    if data == [] then c else PlainBytes(PlainBits(c ^ (data[0] as bv32), 8), data[1..])
  }

  /** The checksum: the register is complemented before and after. */
  function PlainCrc(data: seq<bv8>, seed: bv32): bv32 {
    PlainBytes(seed ^ 0xFFFF_FFFF, data) ^ 0xFFFF_FFFF
  }

  lemma {:induction false} BitsArePlain(c: bv32, n: nat)
    ensures Iter(BitStep, n, c) == PlainBits(c, n)
    decreases n
  {
    if n > 0 { BitsArePlain(BitStep(c), n - 1); }
  }

  lemma {:induction false} BytesArePlain(c: bv32, data: seq<bv8>)
    ensures Register(CrcOps(), c, data) == PlainBytes(c, data)
    decreases |data|
  {
    if data != [] {
      RegisterHead(c, data);
      BytesArePlain(PlainBits(c ^ (data[0] as bv32), 8), data[1..]);
    }
  }

  lemma RegisterHead(c: bv32, data: seq<bv8>)
    requires data != []
    ensures Register(CrcOps(), c, data) == Register(CrcOps(), PlainBits(c ^ (data[0] as bv32), 8), data[1..])
  {
    BitsArePlain(c ^ (data[0] as bv32), 8);
  }

  lemma NotIsXor(x: bv32)
    ensures Not(x) == x ^ 0xFFFF_FFFF
  {
  }

  /** The definition over abstract operations is the plain one. */
  lemma CrcIsPlain(data: seq<bv8>, seed: bv32)
    ensures BitwiseCrc(data, seed) == PlainCrc(data, seed)
  {
    NotIsXor(seed);
    BytesArePlain(Not(seed), data);
    NotIsXor(PlainBytes(Not(seed), data));
  }

  /** The CRC of a buffer at address `addr`, by table look-ups. */
  method Crc32(buf: seq<bv8>, addr: nat, seed: bv32) returns (r: bv32)
    ensures r == BitwiseCrc(buf, seed) == PlainCrc(buf, seed)
  {
    CrcIsPlain(buf, seed);
    CrcLaws();
    LawsAdvance(CrcOps(), CrcRests());
    r := Checksum(CrcOps(), buf, addr, seed);
  }

  /** The entry for byte 0x80 of the first table is the polynomial itself. */
  lemma PolynomialInTable()
    ensures Table(CrcOps(), 0, 0x80) == 0xEDB8_8320
  {
    assert BitStep(0x80) == 0x40 && BitStep(0x40) == 0x20 && BitStep(0x20) == 0x10 && BitStep(0x10) == 0x08;
    assert BitStep(0x08) == 0x04 && BitStep(0x04) == 0x02 && BitStep(0x02) == 0x01 && BitStep(0x01) == 0xEDB8_8320;
    IterEight(BitStep, 0x80, 0x40, 0x20, 0x10, 0x08, 0x04, 0x02, 0x01, 0xEDB8_8320);
  }

  /** The CRC of a stream is the same however the stream is cut into chunks. */
  lemma CrcChained(a: seq<bv8>, b: seq<bv8>, seed: bv32)
    ensures BitwiseCrc(a + b, seed) == BitwiseCrc(b, BitwiseCrc(a, seed))
  {
    NotNot(Register(CrcOps(), Not(seed), a));
    Chained(CrcOps(), a, b, seed);
  }

  // ------------------------------------------------------------ a check value

  /** One byte through the register. */
  lemma ByteIs(c0: bv32, c1: bv32, c2: bv32, c3: bv32, c4: bv32, c5: bv32, c6: bv32, c7: bv32, c8: bv32)
    requires BitStep(c0) == c1 && BitStep(c1) == c2 && BitStep(c2) == c3 && BitStep(c3) == c4
    requires BitStep(c4) == c5 && BitStep(c5) == c6 && BitStep(c6) == c7 && BitStep(c7) == c8
    ensures PlainBits(c0, 8) == c8
  {
    IterEight(BitStep, c0, c1, c2, c3, c4, c5, c6, c7, c8);
    BitsArePlain(c0, 8);
  }

  lemma FirstIs(c: bv32, data: seq<bv8>, next: bv32)
    requires data != [] && PlainBits(c ^ (data[0] as bv32), 8) == next
    ensures PlainBytes(c, data) == PlainBytes(next, data[1..])
  {
  }

  lemma Digit1(rest: seq<bv8>)
    ensures PlainBytes(0xFFFF_FFFF, [0x31] + rest) == PlainBytes(0x7C23_1048, rest)
  {
    ByteIs(0xFFFF_FFCE, 0x7FFF_FFE7, 0xD247_7CD3, 0x849B_3D49, 0xAFF5_1D84,
      0x57FA_8EC2, 0x2BFD_4761, 0xF846_2090, 0x7C23_1048);
    FirstIs(0xFFFF_FFFF, [0x31] + rest, 0x7C23_1048);
    assert ([0x31] + rest)[1..] == rest;
  }

  lemma Digit2(rest: seq<bv8>)
    ensures PlainBytes(0x7C23_1048, [0x32] + rest) == PlainBytes(0xB0AC_BB32, rest)
  {
    ByteIs(0x7C23_107A, 0x3E11_883D, 0xF2B0_473E, 0x7958_239F, 0xD114_92EF,
      0x8532_CA57, 0xAF21_E60B, 0xBA28_7025, 0xB0AC_BB32);
    FirstIs(0x7C23_1048, [0x32] + rest, 0xB0AC_BB32);
    assert ([0x32] + rest)[1..] == rest;
  }

  lemma Digit3(rest: seq<bv8>)
    ensures PlainBytes(0xB0AC_BB32, [0x33] + rest) == PlainBytes(0x77B7_9C2D, rest)
  {
    ByteIs(0xB0AC_BB01, 0xB5EE_DEA0, 0x5AF7_6F50, 0x2D7B_B7A8, 0x16BD_DBD4,
      0x0B5E_EDEA, 0x05AF_76F5, 0xEF6F_385A, 0x77B7_9C2D);
    FirstIs(0xB0AC_BB32, [0x33] + rest, 0x77B7_9C2D);
    assert ([0x33] + rest)[1..] == rest;
  }

  lemma Digit4(rest: seq<bv8>)
    ensures PlainBytes(0x77B7_9C2D, [0x34] + rest) == PlainBytes(0x641C_1F5C, rest)
  {
    ByteIs(0x77B7_9C19, 0xD663_4D2C, 0x6B31_A696, 0x3598_D34B, 0xF774_EA85,
      0x9602_F662, 0x4B01_7B31, 0xC838_3EB8, 0x641C_1F5C);
    FirstIs(0x77B7_9C2D, [0x34] + rest, 0x641C_1F5C);
    assert ([0x34] + rest)[1..] == rest;
  }

  lemma Digit5(rest: seq<bv8>)
    ensures PlainBytes(0x641C_1F5C, [0x35] + rest) == PlainBytes(0x340A_C5E3, rest)
  {
    ByteIs(0x641C_1F69, 0xDFB6_8C94, 0x6FDB_464A, 0x37ED_A325, 0xF64E_52B2,
      0x7B27_2959, 0xD02B_178C, 0x6815_8BC6, 0x340A_C5E3);
    FirstIs(0x641C_1F5C, [0x35] + rest, 0x340A_C5E3);
    assert ([0x35] + rest)[1..] == rest;
  }

  lemma Digit6(rest: seq<bv8>)
    ensures PlainBytes(0x340A_C5E3, [0x36] + rest) == PlainBytes(0xF68D_2C9E, rest)
  {
    ByteIs(0x340A_C5D5, 0xF7BD_E1CA, 0x7BDE_F0E5, 0xD057_FB52, 0x682B_FDA9,
      0xD9AD_7DF4, 0x6CD6_BEFA, 0x366B_5F7D, 0xF68D_2C9E);
    FirstIs(0x340A_C5E3, [0x36] + rest, 0xF68D_2C9E);
    assert ([0x36] + rest)[1..] == rest;
  }

  lemma Digit7(rest: seq<bv8>)
    ensures PlainBytes(0xF68D_2C9E, [0x37] + rest) == PlainBytes(0xAFFC_9660, rest)
  {
    ByteIs(0xF68D_2CA9, 0x96FE_1574, 0x4B7F_0ABA, 0x25BF_855D, 0xFF67_418E,
      0x7FB3_A0C7, 0xD261_5343, 0x8488_2A81, 0xAFFC_9660);
    FirstIs(0xF68D_2C9E, [0x37] + rest, 0xAFFC_9660);
    assert ([0x37] + rest)[1..] == rest;
  }

  lemma Digit8(rest: seq<bv8>)
    ensures PlainBytes(0xAFFC_9660, [0x38] + rest) == PlainBytes(0x651F_2550, rest)
  {
    ByteIs(0xAFFC_9658, 0x57FE_4B2C, 0x2BFF_2596, 0x15FF_92CB, 0xE747_4A45,
      0x9E1B_2602, 0x4F0D_9301, 0xCA3E_4AA0, 0x651F_2550);
    FirstIs(0xAFFC_9660, [0x38] + rest, 0x651F_2550);
    assert ([0x38] + rest)[1..] == rest;
  }

  lemma Digit9(rest: seq<bv8>)
    ensures PlainBytes(0x651F_2550, [0x39] + rest) == PlainBytes(0x340B_C6D9, rest)
  {
    ByteIs(0x651F_2569, 0xDF37_1194, 0x6F9B_88CA, 0x37CD_C465, 0xF65E_6112,
      0x7B2F_3089, 0xD02F_1B64, 0x6817_8DB2, 0x340B_C6D9);
    FirstIs(0x651F_2550, [0x39] + rest, 0x340B_C6D9);
    assert ([0x39] + rest)[1..] == rest;
  }

  /** The checksum of the nine digits "123456789". */
  lemma CheckValue()
    ensures PlainCrc([0x31, 0x32, 0x33, 0x34, 0x35, 0x36, 0x37, 0x38, 0x39], 0) == 0xCBF4_3926
  {
    Digits();
    DigitsValue();
  }

  lemma Digits()
    ensures [0x31] + ([0x32] + ([0x33] + ([0x34] + ([0x35] + ([0x36] + ([0x37] + ([0x38] + ([0x39] + []))))))))
      == [0x31, 0x32, 0x33, 0x34, 0x35, 0x36, 0x37, 0x38, 0x39 as bv8]
  {
  }

  lemma DigitsValue()
    ensures
      PlainCrc([0x31] + ([0x32] + ([0x33] + ([0x34] + ([0x35] + ([0x36] + ([0x37] + ([0x38] + ([0x39] + [])))))))), 0)
      == 0xCBF4_3926
  {
    var d9: seq<bv8> := [];
    var d8 := [0x39] + d9;
    Digit9(d9);
    var d7 := [0x38] + d8;
    Digit8(d8);
    var d6 := [0x37] + d7;
    Digit7(d7);
    var d5 := [0x36] + d6;
    Digit6(d6);
    var d4 := [0x35] + d5;
    Digit5(d5);
    var d3 := [0x34] + d4;
    Digit4(d4);
    var d2 := [0x33] + d3;
    Digit3(d3);
    var d1 := [0x32] + d2;
    Digit2(d2);
    var d0 := [0x31] + d1;
    Digit1(d1);
    assert (0 as bv32) ^ 0xFFFF_FFFF == 0xFFFF_FFFF;
    assert PlainBytes(0x340B_C6D9, d9) == 0x340B_C6D9;
    assert (0x340B_C6D9 as bv32) ^ 0xFFFF_FFFF == 0xCBF4_3926;
  }
}
