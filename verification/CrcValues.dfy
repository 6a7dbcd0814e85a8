/** The two checksums by value: the empty message, one byte more, and the residue of a message with its
    own CRC-32 appended. */
module CrcValues {
  import opened Words
  import opened Crc
  import opened CrcCode

  // ----- one more byte ------------------------------------------------------------------------

  /** Eight shifts of a 32-bit register. */
  function EightShifts32(crc: u32): u32 {
    Shift32(Shift32(Shift32(Shift32(Shift32(Shift32(Shift32(Shift32(crc))))))))
  }

  function EightShifts16(crc: u16): u16 {
    Shift16(Shift16(Shift16(Shift16(Shift16(Shift16(Shift16(Shift16(crc))))))))
  }

  lemma ShiftsAreSteps32(crc: u32)
    ensures LsbBits(EightShifts32(crc), 32) == Steps(POLY32, LsbBits(crc, 32), 8)
  {
    hide LsbBits, Shift32, Step;
    var a := Shift32(crc); var b := Shift32(a); var c := Shift32(b); var d := Shift32(c);
    var e := Shift32(d); var f := Shift32(e); var g := Shift32(f);
    Shift32IsStep(crc); Shift32IsStep(a); Shift32IsStep(b); Shift32IsStep(c);
    Shift32IsStep(d); Shift32IsStep(e); Shift32IsStep(f); Shift32IsStep(g);
    EightSteps(POLY32, LsbBits(crc, 32));
  }

  lemma ShiftsAreSteps16(crc: u16)
    ensures MsbBits(EightShifts16(crc), 16) == Steps(POLY16, MsbBits(crc, 16), 8)
  {
    hide MsbBits, Shift16, Step;
    var a := Shift16(crc); var b := Shift16(a); var c := Shift16(b); var d := Shift16(c);
    var e := Shift16(d); var f := Shift16(e); var g := Shift16(f);
    Shift16IsStep(crc); Shift16IsStep(a); Shift16IsStep(b); Shift16IsStep(c);
    Shift16IsStep(d); Shift16IsStep(e); Shift16IsStep(f); Shift16IsStep(g);
    EightSteps(POLY16, MsbBits(crc, 16));
  }

  lemma EightSteps(poly: Bits, c: Bits)
    requires |c| == |poly| > 0
    ensures Steps(poly, c, 8)
         == Step(poly, Step(poly, Step(poly, Step(poly, Step(poly, Step(poly, Step(poly, Step(poly, c))))))))
  {
    hide Step;
  }

  /** The CRC-32 of the empty message is zero, and one more byte changes it as follows: complement, take
      the byte into the low end, shift eight times, complement. */
  lemma Crc32Grows(m: seq<u8>, b: u8)
    ensures Crc32([]) == 0
    ensures Xor(0xFFFF_FFFF - Crc32(m), b) < WORD
    ensures Crc32(m + [b]) == 0xFFFF_FFFF - EightShifts32(Xor(0xFFFF_FFFF - Crc32(m), b))
  {
    hide LsbBits, LsbValue, Xor, EightShifts32, Feed, XorIn, Step, Steps;
    Registers32([]);
    Registers32(m);
    Registers32(m + [b]);
    var r := 0xFFFF_FFFF - Crc32(m);
    ByteIn32(r, b);
    ShiftsAreSteps32(Xor(r, b));
    FeedByte(POLY32, Ones(32), LsbStream(m), LsbBits(b, 8));
    assert (m + [b])[..|m|] == m;
    LsbStreamSnoc(m + [b], |m|);
    assert (m + [b])[..|m| + 1] == m + [b];
    Pow2Of32();
    LsbValueOfBits(EightShifts32(Xor(r, b)), 32);
    LsbOnes(32);
    LsbValueOfBits(0xFFFF_FFFF, 32);
    FeedNothing(POLY32, Ones(32));
  }

  /** The register behind a CRC-32 is its complement. */
  lemma Registers32(m: seq<u8>)
    ensures LsbBits(0xFFFF_FFFF - Crc32(m), 32) == Register32(m)
    ensures 0xFFFF_FFFF - Crc32(m) == LsbValue(Register32(m))
  {
    hide LsbBits, LsbValue, Feed;
    Pow2Of32();
    LsbComplement(Register32(m));
    LsbBitsOfValue(Register32(m));
  }

  /** That of CRC-16 starts with all ones, and takes a byte into its high end. */
  lemma Crc16Grows(m: seq<u8>, b: u8)
    ensures Crc16([]) == 0xFFFF
    ensures Xor(Crc16(m), 0x100 * b) < 0x1_0000
    ensures Crc16(m + [b]) == EightShifts16(Xor(Crc16(m), 0x100 * b))
  {
    hide MsbBits, MsbValue, Xor, EightShifts16, Feed, XorIn, Step, Steps;
    MsbBitsOfValue(Register16(m));
    ByteIn16(Crc16(m), b);
    ShiftsAreSteps16(Xor(Crc16(m), 0x100 * b));
    FeedByte(POLY16, Ones(16), MsbStream(m), MsbBits(b, 8));
    assert (m + [b])[..|m|] == m;
    MsbStreamSnoc(m + [b], |m|);
    assert (m + [b])[..|m| + 1] == m + [b];
    Pow2Of16();
    MsbValueOfBits(EightShifts16(Xor(Crc16(m), 0x100 * b)), 16);
    MsbOnes(16);
    MsbValueOfBits(0xFFFF, 16);
    FeedNothing(POLY16, Ones(16));
  }

  // ----- the residue --------------------------------------------------------------------------

  lemma Le32Stream(v: u32)
    ensures LsbStream(Le32(v)) == LsbBits(v, 32)
  {
    hide LsbBits;
    var a, b, c := v / 0x100, v / 0x1_0000, v / 0x100_0000;
    Bytes(v);
    Pow2Of8();
    LsbBitsSplit(v % 0x100, a, 8, 24);
    LsbBitsSplit(a % 0x100, b, 8, 16);
    LsbBitsSplit(b % 0x100, c, 8, 8);
    var s := Le32(v);
    assert LsbStream(s[3..]) == LsbBits(s[3], 8);
    assert LsbStream(s[2..]) == LsbBits(s[2], 8) + LsbStream(s[3..]);
    assert LsbStream(s[1..]) == LsbBits(s[1], 8) + LsbStream(s[2..]);
    assert LsbStream(s) == LsbBits(s[0], 8) + LsbStream(s[1..]);
  }

  lemma Bytes(v: u32)
    ensures v == v % 0x100 + 0x100 * (v / 0x100)
    ensures v / 0x100 == v / 0x100 % 0x100 + 0x100 * (v / 0x1_0000)
    ensures v / 0x1_0000 == v / 0x1_0000 % 0x100 + 0x100 * (v / 0x100_0000)
  {
  }

  /** A register fed the complement of its own contents ends where it always ends. */
  lemma FeedComplement(poly: Bits, r: Bits)
    requires |r| == |poly| > 0
    ensures Feed(poly, r, Not(r)) == Steps(poly, Ones(|poly|), |poly|)
  {
    hide Feed, Steps;
    FeedIsXorThenShift(poly, r, Not(r));
    assert XorIn(r, Not(r)) == Ones(|r|);
  }

  lemma ResidueRegister(m: seq<u8>)
    ensures Register32(m + Le32(Crc32(m))) == Steps(POLY32, Ones(32), 32)
  {
    hide Feed, Steps, LsbBits, LsbValue, Not, LsbStream;
    var r := Register32(m);
    LsbStreamConcat(m, Le32(Crc32(m)));
    Le32Stream(Crc32(m));
    LsbBitsOfValue(Not(r));
    FeedConcat(POLY32, Ones(32), LsbStream(m), Not(r));
    FeedComplement(POLY32, r);
  }

  /** A message followed by its own CRC-32, low byte first, always has the same CRC-32. */
  lemma ResidueIsFixed(m: seq<u8>)
    ensures Crc32(m + Le32(Crc32(m))) == 0x2144_DF1C
  {
    hide Feed, Steps, LsbBits, LsbValue, Not, LsbStream, Crc32;
    ResidueRegister(m);
    ResidueRegister([]);
    Crc32Grows([], 0);
    assert [] + Le32(0) == [0, 0, 0, 0];
    SameRegister(m + Le32(Crc32(m)), [0, 0, 0, 0]);
    FourZeros();
  }

  lemma SameRegister(m: seq<u8>, n: seq<u8>)
    requires Register32(m) == Register32(n)
    ensures Crc32(m) == Crc32(n)
  {
  }

  // ----- four zero bytes ----------------------------------------------------------------------

  lemma XorBit(a: nat, x: nat, c: nat, y: nat)
    requires x < 2 && y < 2
    ensures Xor(2 * a + x, 2 * c + y) == 2 * Xor(a, c) + (if x == y then 0 else 1)
  {
  }

  /** Exclusive OR of two hexadecimal digits. */
  function Digit(a: nat, b: nat): nat {
    (if a / 8 % 2 == b / 8 % 2 then 0 else 8) + (if a / 4 % 2 == b / 4 % 2 then 0 else 4)
    + (if a / 2 % 2 == b / 2 % 2 then 0 else 2) + (if a % 2 == b % 2 then 0 else 1)
  }

  lemma FourBits(x: nat) returns (p: nat, q: nat, r: nat, s: nat)
    requires x < 16
    ensures x == 8 * p + 4 * q + 2 * r + s && p < 2 && q < 2 && r < 2 && s < 2
    ensures x / 8 % 2 == p && x / 4 % 2 == q && x / 2 % 2 == r && x % 2 == s
  {
    p, q, r, s := x / 8 % 2, x / 4 % 2, x / 2 % 2, x % 2;
  }

  lemma XorDigit(a: nat, b: nat, c: nat, d: nat)
    requires b < 16 && d < 16
    ensures Xor(16 * a + b, 16 * c + d) == 16 * Xor(a, c) + Digit(b, d)
  {
    hide Xor;
    var p, q, r, s := FourBits(b);
    var t, u, v, w := FourBits(d);
    XorBit(a, p, c, t);
    XorBit(2 * a + p, q, 2 * c + t, u);
    XorBit(4 * a + 2 * p + q, r, 4 * c + 2 * t + u, v);
    XorBit(8 * a + 4 * p + 2 * q + r, s, 8 * c + 4 * t + 2 * u + v, w);
  }

  lemma XorNothing(a: nat)
    ensures Xor(a, 0) == a && Xor(0, 0) == 0
  {
  }

  /** Exclusive OR with the generator, digit by digit. */
  lemma XorGenerator(a: nat, b: nat, c: nat, d: nat, e: nat, f: nat, g: nat, h: nat)
    requires a < 16 && b < 16 && c < 16 && d < 16 && e < 16 && f < 16 && g < 16 && h < 16
    ensures Xor(Hex(a, b, c, d, e, f, g, h), 0xEDB8_8320)
         == Hex(Digit(a, 0xE), Digit(b, 0xD), Digit(c, 0xB), Digit(d, 8), Digit(e, 8), Digit(f, 3), Digit(g, 2), Digit(h, 0))
  {
    hide Xor, Digit;
    var ab := 16 * a + b;
    var abc := 16 * ab + c;
    var abcd := 16 * abc + d;
    var abcde := 16 * abcd + e;
    var abcdef := 16 * abcde + f;
    XorNothing(0);
    XorDigit(0, a, 0, 0xE);
    XorDigit(a, b, 0xE, 0xD);
    XorDigit(ab, c, 0xED, 0xB);
    XorDigit(abc, d, 0xEDB, 8);
    XorDigit(abcd, e, 0xEDB8, 8);
    XorDigit(abcde, f, 0xE_DB88, 3);
    XorDigit(abcdef, g, 0xED_B883, 2);
    XorDigit(16 * abcdef + g, h, 0xEDB_8832, 0);
  }

  function Hex(a: nat, b: nat, c: nat, d: nat, e: nat, f: nat, g: nat, h: nat): nat {
    16 * (16 * (16 * (16 * (16 * (16 * (16 * a + b) + c) + d) + e) + f) + g) + h
  }

  lemma WithZero()
    ensures Digit(0x0, 0x0) == 0x0 && Digit(0x1, 0x0) == 0x1 && Digit(0x3, 0x0) == 0x3 && Digit(0x5, 0x0) == 0x5
         && Digit(0x6, 0x0) == 0x6 && Digit(0x7, 0x0) == 0x7 && Digit(0x8, 0x0) == 0x8 && Digit(0xA, 0x0) == 0xA
         && Digit(0xC, 0x0) == 0xC && Digit(0xE, 0x0) == 0xE && Digit(0xF, 0x0) == 0xF
  {
  }

  lemma WithTwo()
    ensures Digit(0x1, 0x2) == 0x3 && Digit(0x2, 0x2) == 0x0 && Digit(0x6, 0x2) == 0x4 && Digit(0x7, 0x2) == 0x5
         && Digit(0x9, 0x2) == 0xB && Digit(0xA, 0x2) == 0x8 && Digit(0xC, 0x2) == 0xE && Digit(0xE, 0x2) == 0xC
         && Digit(0xF, 0x2) == 0xD
  {
  }

  lemma WithThree()
    ensures Digit(0x2, 0x3) == 0x1 && Digit(0x3, 0x3) == 0x0 && Digit(0x4, 0x3) == 0x7 && Digit(0x6, 0x3) == 0x5
         && Digit(0x8, 0x3) == 0xB && Digit(0xC, 0x3) == 0xF && Digit(0xD, 0x3) == 0xE && Digit(0xE, 0x3) == 0xD
         && Digit(0xF, 0x3) == 0xC
  {
  }

  lemma WithEight()
    ensures Digit(0x0, 0x8) == 0x8 && Digit(0x1, 0x8) == 0x9 && Digit(0x3, 0x8) == 0xB && Digit(0x4, 0x8) == 0xC
         && Digit(0x5, 0x8) == 0xD && Digit(0x6, 0x8) == 0xE && Digit(0x8, 0x8) == 0x0 && Digit(0x9, 0x8) == 0x1
         && Digit(0xA, 0x8) == 0x2 && Digit(0xB, 0x8) == 0x3 && Digit(0xC, 0x8) == 0x4 && Digit(0xD, 0x8) == 0x5
         && Digit(0xE, 0x8) == 0x6 && Digit(0xF, 0x8) == 0x7
  {
  }

  lemma WithB()
    ensures Digit(0x0, 0xB) == 0xB && Digit(0x2, 0xB) == 0x9 && Digit(0x4, 0xB) == 0xF && Digit(0x5, 0xB) == 0xE
         && Digit(0x6, 0xB) == 0xD && Digit(0x7, 0xB) == 0xC && Digit(0x8, 0xB) == 0x3 && Digit(0x9, 0xB) == 0x2
         && Digit(0xB, 0xB) == 0x0 && Digit(0xD, 0xB) == 0x6 && Digit(0xF, 0xB) == 0x4
  {
  }

  lemma WithD()
    ensures Digit(0x0, 0xD) == 0xD && Digit(0x1, 0xD) == 0xC && Digit(0x2, 0xD) == 0xF && Digit(0x3, 0xD) == 0xE
         && Digit(0x8, 0xD) == 0x5 && Digit(0x9, 0xD) == 0x4 && Digit(0xA, 0xD) == 0x7 && Digit(0xB, 0xD) == 0x6
         && Digit(0xC, 0xD) == 0x1 && Digit(0xF, 0xD) == 0x2
  {
  }

  lemma WithE()
    ensures Digit(0x0, 0xE) == 0xE && Digit(0x1, 0xE) == 0xF && Digit(0x2, 0xE) == 0xC && Digit(0x3, 0xE) == 0xD
         && Digit(0x4, 0xE) == 0xA && Digit(0x5, 0xE) == 0xB && Digit(0x6, 0xE) == 0x8 && Digit(0x7, 0xE) == 0x9
  {
  }

  lemma Even(v: nat)
    requires 2 * v < WORD
    ensures Shift32(2 * v) == v
  {
    hide Xor;
    XorNothing(v);
  }

  lemma Odd(a: nat, b: nat, c: nat, d: nat, e: nat, f: nat, g: nat, h: nat)
    requires a < 8 && b < 16 && c < 16 && d < 16 && e < 16 && f < 16 && g < 16 && h < 16
    ensures Shift32(2 * Hex(a, b, c, d, e, f, g, h) + 1)
         == Hex(Digit(a, 0xE), Digit(b, 0xD), Digit(c, 0xB), Digit(d, 8), Digit(e, 8), Digit(f, 3), Digit(g, 2), Digit(h, 0))
  {
    hide Xor, Digit;
    XorGenerator(a, b, c, d, e, f, g, h);
  }

  lemma ZeroByte1()
    ensures EightShifts32(0xFFFF_FFFF) == 0x2DFD_1072
  {
    hide Xor, Digit;
    WithZero();
    WithTwo();
    WithThree();
    WithEight();
    WithB();
    WithD();
    WithE();
    Odd(0x7, 0xF, 0xF, 0xF, 0xF, 0xF, 0xF, 0xF);
    Odd(0x4, 0x9, 0x2, 0x3, 0xB, 0xE, 0x6, 0xF);
    Odd(0x5, 0x2, 0x4, 0xD, 0x9, 0xE, 0xA, 0x7);
    Odd(0x5, 0xF, 0xF, 0xA, 0x8, 0xE, 0xC, 0x3);
    Odd(0x5, 0x9, 0x2, 0x1, 0x0, 0x6, 0xF, 0x1);
    Odd(0x5, 0xA, 0x4, 0xC, 0xC, 0x2, 0xE, 0x8);
    Even(0x5BFA_20E4);
    Even(0x2DFD_1072);
  }

  lemma ZeroByte2()
    ensures EightShifts32(0x2DFD_1072) == 0xBE26_ED00
  {
    hide Xor, Digit;
    WithZero();
    WithTwo();
    WithThree();
    WithEight();
    WithB();
    WithD();
    WithE();
    Even(0x16FE_8839);
    Odd(0x0, 0xB, 0x7, 0xF, 0x4, 0x4, 0x1, 0xC);
    Even(0x7363_E39E);
    Even(0x39B1_F1CF);
    Odd(0x1, 0xC, 0xD, 0x8, 0xF, 0x8, 0xE, 0x7);
    Odd(0x7, 0x8, 0xB, 0x0, 0x3, 0xD, 0xE, 0x3);
    Odd(0x4, 0xA, 0x8, 0x4, 0x5, 0xF, 0x6, 0x1);
    Odd(0x5, 0x3, 0x9, 0xE, 0x6, 0xE, 0x2, 0x0);
  }

  lemma ZeroByte3()
    ensures EightShifts32(0xBE26_ED00) == 0xBE_26ED
  {
    hide Xor, Digit;
    Even(0x5F13_7680);
    Even(0x2F89_BB40);
    Even(0x17C4_DDA0);
    Even(0xBE2_6ED0);
    Even(0x5F1_3768);
    Even(0x2F8_9BB4);
    Even(0x17C_4DDA);
    Even(0xBE_26ED);
  }

  lemma ZeroByte4()
    ensures EightShifts32(0xBE_26ED) == 0xDEBB_20E3
  {
    hide Xor, Digit;
    WithZero();
    WithTwo();
    WithThree();
    WithEight();
    WithB();
    WithD();
    WithE();
    Odd(0x0, 0x0, 0x5, 0xF, 0x1, 0x3, 0x7, 0x6);
    Even(0x76F3_C82B);
    Odd(0x3, 0xB, 0x7, 0x9, 0xE, 0x4, 0x1, 0x5);
    Odd(0x6, 0xB, 0x6, 0x0, 0xB, 0x3, 0x9, 0xA);
    Even(0x436C_185D);
    Odd(0x2, 0x1, 0xB, 0x6, 0x0, 0xC, 0x2, 0xE);
    Even(0x6607_4787);
    Odd(0x3, 0x3, 0x0, 0x3, 0xA, 0x3, 0xC, 0x3);
  }

  lemma FourZeros()
    ensures Crc32([0, 0, 0, 0]) == 0x2144_DF1C
  {
    hide Crc32, Xor, EightShifts32;
    var z: seq<u8> := [0];
    Crc32Grows([], 0);
    Crc32Grows(z, 0);
    Crc32Grows(z + z, 0);
    Crc32Grows(z + z + z, 0);
    assert [] + z == z && z + z + z + z == [0, 0, 0, 0];
    XorNothing(0xFFFF_FFFF); XorNothing(0x2DFD_1072); XorNothing(0xBE26_ED00); XorNothing(0xBE_26ED);
    ZeroByte1(); ZeroByte2(); ZeroByte3(); ZeroByte4();
  }

  // ----- CRC-16 of a zero byte ----------------------------------------------------------------

  lemma Low(crc: u16)
    requires crc < 0x8000
    ensures Shift16(crc) == 2 * crc
  {
    hide Xor;
  }

  /** A register whose top bit is set, by the digits that remain when it is shifted out. */
  lemma High(a: nat, b: nat, c: nat, d: nat)
    requires a < 16 && b < 16 && c < 16 && d < 16 && d % 2 == 0
    ensures var shifted := 16 * (16 * (16 * a + b) + c) + d;
      Shift16((shifted + 0x1_0000) / 2) == 16 * (16 * (16 * Digit(a, 1) + Digit(b, 0)) + Digit(c, 2)) + Digit(d, 1)
  {
    hide Xor, Digit;
    var ab := 16 * (16 + a) + b;
    var abc := 16 * ab + c;
    XorNothing(1);
    XorDigit(1, a, 0, 1);
    XorDigit(16 + a, b, 1, 0);
    XorDigit(ab, c, 0x10, 2);
    XorDigit(abc, d, 0x102, 1);
    DigitBound(a, 1); DigitBound(b, 0); DigitBound(c, 2); DigitBound(d, 1);
  }

  lemma DigitBound(a: nat, b: nat)
    ensures Digit(a, b) < 16
  {
  }

  lemma SmallDigits()
    ensures Digit(0xE, 0) == 0xE && Digit(0xF, 0) == 0xF && Digit(0x1, 1) == 0x0 && Digit(0x9, 1) == 0x8
         && Digit(0xD, 1) == 0xC && Digit(0xE, 1) == 0xF && Digit(0xF, 1) == 0xE && Digit(0x3, 2) == 0x1
         && Digit(0xB, 2) == 0x9 && Digit(0xF, 2) == 0xD
  {
  }

  /** The generator and the start value of CRC-16 in one number. */
  lemma Crc16OfZero()
    ensures Crc16([0]) == 0xE1F0
  {
    hide Crc16, Xor, Digit, Shift16;
    Crc16Grows([], 0);
    assert [] + [0] == [0];
    XorNothing(0xFFFF);
    SmallDigits();
    High(0xF, 0xF, 0xF, 0xE);
    High(0xD, 0xF, 0xB, 0xE);
    High(0x9, 0xF, 0x3, 0xE);
    High(0x1, 0xE, 0x3, 0xE);
    Low(0xE1F);
    Low(0x1C3E);
    Low(0x387C);
    Low(0x70F8);
  }
}
