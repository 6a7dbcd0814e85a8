/** The source's CRC loops, on machine words: shifts, masks and generator constants. */
module CrcCode {
  import opened Words
  import opened Crc

  /** Bitwise exclusive OR of two non-negative integers, low bit first. */
  function Xor(a: nat, b: nat): nat {
    if a == 0 && b == 0 then 0
    else 2 * Xor(a / 2, b / 2) + (if a % 2 == b % 2 then 0 else 1)
  }

  lemma {:induction false} XorFits(a: nat, b: nat, n: nat)
    requires a < Pow2(n) && b < Pow2(n)
    ensures Xor(a, b) < Pow2(n)
    decreases n
  {
    if n > 0 {
      XorFits(a / 2, b / 2, n - 1);
    }
  }

  lemma XorHalves(a: nat, b: nat)
    ensures Xor(a, b) / 2 == Xor(a / 2, b / 2)
    ensures Xor(a, b) % 2 == 1 <==> a % 2 != b % 2
  {
  }

  lemma {:induction false} MsbXor(a: nat, b: nat, n: nat)
    ensures MsbBits(Xor(a, b), n) == XorBits(MsbBits(a, n), MsbBits(b, n))
    decreases n
  {
    hide Xor;
    if n > 0 {
      XorHalves(a, b);
      MsbXor(a / 2, b / 2, n - 1);
    }
  }

  lemma {:induction false} LsbXor(a: nat, b: nat, n: nat)
    ensures LsbBits(Xor(a, b), n) == XorBits(LsbBits(a, n), LsbBits(b, n))
    decreases n
  {
    hide Xor;
    if n > 0 {
      XorHalves(a, b);
      LsbXor(a / 2, b / 2, n - 1);
    }
  }

  // ----- most significant bit first -----------------------------------------------------------

  /** The bits of a half-word are those of its high byte followed by those of its low byte. */
  lemma {:induction false} MsbBitsSplit(hi: nat, lo: nat, n: nat, m: nat)
    requires lo < Pow2(m)
    ensures MsbBits(hi * Pow2(m) + lo, n + m) == MsbBits(hi, n) + MsbBits(lo, m)
    decreases m
  {
    if m > 0 {
      var v, h := hi * Pow2(m) + lo, hi * Pow2(m - 1);
      Doubled(hi, Pow2(m - 1));
      Halves(v, h, lo);
      MsbBitsSplit(hi, lo / 2, n, m - 1);
      assert MsbBits(v, n + m) == MsbBits(v / 2, n + m - 1) + [v % 2 == 1];
    }
  }

  lemma Doubled(a: nat, p: nat)
    ensures a * (2 * p) == 2 * (a * p)
  {
  }

  lemma Halves(v: nat, h: nat, lo: nat)
    requires v == 2 * h + lo
    ensures v / 2 == h + lo / 2 && v % 2 == lo % 2
  {
  }

  /** A carry out of n bits does not appear among them: the truncation to 16 bits. */
  lemma {:induction false} MsbCarry(v: nat, n: nat)
    ensures MsbBits(v + Pow2(n), n) == MsbBits(v, n)
    decreases n
  {
    if n > 0 {
      MsbCarry(v / 2, n - 1);
      assert (v + Pow2(n)) / 2 == v / 2 + Pow2(n - 1);
    }
  }

  lemma {:induction false} MsbTail(v: nat, n: nat)
    requires n > 0
    ensures MsbBits(v, n)[1..] == MsbBits(v, n - 1)
    decreases n
  {
    if n > 1 {
      MsbTail(v / 2, n - 1);
    }
  }

  lemma {:induction false} MsbTop(v: nat, n: nat)
    requires n > 0 && v < Pow2(n)
    ensures MsbBits(v, n)[0] <==> v >= Pow2(n - 1)
    decreases n
  {
    if n > 1 {
      MsbTop(v / 2, n - 1);
    }
  }

  lemma {:induction false} MsbOnes(n: nat)
    ensures MsbBits(Pow2(n) - 1, n) == Ones(n)
    decreases n
  {
    if n > 0 {
      MsbOnes(n - 1);
      assert (Pow2(n) - 1) / 2 == Pow2(n - 1) - 1;
    }
  }

  lemma {:induction false} MsbZeros(n: nat)
    ensures MsbBits(0, n) == Zeros(n)
    decreases n
  {
    if n > 0 {
      MsbZeros(n - 1);
    }
  }

  lemma MsbUnfold(v: nat, n: nat)
    requires n > 0
    ensures MsbBits(v, n) == MsbBits(v / 2, n - 1) + [v % 2 == 1]
  {
  }

  lemma MsbFour(v: nat, a: nat, b: nat, c: nat)
    requires a == v / 2 && b == a / 2 && c == b / 2
    ensures MsbBits(v, 4) == [c % 2 == 1, b % 2 == 1, a % 2 == 1, v % 2 == 1]
  {
    hide MsbBits;
    MsbUnfold(v, 4); MsbUnfold(a, 3); MsbUnfold(b, 2); MsbUnfold(c, 1);
    assert MsbBits(c / 2, 0) == [];
  }

  lemma MsbDigit(hi: nat, lo: nat, n: nat)
    requires lo < 16
    ensures MsbBits(16 * hi + lo, n + 4) == MsbBits(hi, n) + MsbBits(lo, 4)
  {
    assert Pow2(4) == 16;
    MsbBitsSplit(hi, lo, n, 4);
  }

  lemma Generator16()
    ensures MsbBits(0x1021, 16) == POLY16
  {
    hide MsbBits;
    MsbFour(1, 0, 0, 0);
    MsbFour(0, 0, 0, 0);
    MsbFour(2, 1, 0, 0);
    MsbDigit(0x102, 1, 12);
    MsbDigit(0x10, 2, 8);
    MsbDigit(0x1, 0, 4);
  }

  // ----- least significant bit first ----------------------------------------------------------

  lemma {:induction false} LsbZeros(n: nat)
    ensures LsbBits(0, n) == Zeros(n)
    decreases n
  {
    if n > 0 {
      LsbZeros(n - 1);
    }
  }

  lemma {:induction false} LsbPadded(v: nat, m: nat, n: nat)
    requires v < Pow2(m)
    ensures LsbBits(v, m + n) == LsbBits(v, m) + Zeros(n)
    decreases m
  {
    if m == 0 {
      LsbZeros(n);
    } else {
      LsbPadded(v / 2, m - 1, n);
    }
  }

  lemma {:induction false} LsbOnes(n: nat)
    ensures LsbBits(Pow2(n) - 1, n) == Ones(n)
    decreases n
  {
    if n > 0 {
      LsbOnes(n - 1);
      assert (Pow2(n) - 1) / 2 == Pow2(n - 1) - 1;
    }
  }

  lemma {:induction false} LsbComplement(b: Bits)
    ensures LsbValue(Not(b)) == Pow2(|b|) - 1 - LsbValue(b)
  {
    if b != [] {
      LsbComplement(b[1..]);
      assert Not(b)[1..] == Not(b[1..]);
    }
  }

  lemma {:induction false} LsbBitsSplit(lo: nat, hi: nat, m: nat, n: nat)
    requires lo < Pow2(m)
    ensures LsbBits(lo + Pow2(m) * hi, m + n) == LsbBits(lo, m) + LsbBits(hi, n)
    decreases m
  {
    if m > 0 {
      var v, h := lo + Pow2(m) * hi, Pow2(m - 1) * hi;
      assert Pow2(m) * hi == 2 * h;
      Halves(v, h, lo);
      LsbBitsSplit(lo / 2, hi, m - 1, n);
    }
  }

  lemma LsbUnfold(v: nat, n: nat)
    requires n > 0
    ensures LsbBits(v, n) == [v % 2 == 1] + LsbBits(v / 2, n - 1)
  {
  }

  lemma LsbFour(v: nat, a: nat, b: nat, c: nat)
    requires a == v / 2 && b == a / 2 && c == b / 2
    ensures LsbBits(v, 4) == [v % 2 == 1, a % 2 == 1, b % 2 == 1, c % 2 == 1]
  {
    hide LsbBits;
    LsbUnfold(v, 4); LsbUnfold(a, 3); LsbUnfold(b, 2); LsbUnfold(c, 1);
    assert LsbBits(c / 2, 0) == [];
  }

  lemma LsbDigit(lo: nat, hi: nat, n: nat)
    requires lo < 16
    ensures LsbBits(lo + 16 * hi, 4 + n) == LsbBits(lo, 4) + LsbBits(hi, n)
  {
    assert Pow2(4) == 16;
    LsbBitsSplit(lo, hi, 4, n);
  }

  lemma LsbDigits(a: nat, b: nat, c: nat, d: nat)
    requires a < 16 && b < 16 && c < 16 && d < 16
    ensures LsbBits(a + 16 * b + 256 * c + 4096 * d, 16)
         == LsbBits(a, 4) + LsbBits(b, 4) + LsbBits(c, 4) + LsbBits(d, 4)
  {
    hide LsbBits;
    LsbDigit(a, b + 16 * c + 256 * d, 12);
    LsbDigit(b, c + 16 * d, 8);
    LsbDigit(c, d, 4);
  }

  lemma LowDigits()
    ensures LsbBits(0x8320, 16) == [false, false, false, false, false, true, false, false,
                                    true, true, false, false, false, false, false, true]
  {
    hide LsbBits;
    LsbFour(0x0, 0, 0, 0); LsbFour(0x2, 1, 0, 0); LsbFour(0x3, 1, 0, 0); LsbFour(0x8, 4, 2, 1);
    LsbDigits(0x0, 0x2, 0x3, 0x8);
  }

  lemma HighDigits()
    ensures LsbBits(0xEDB8, 16) == [false, false, false, true, true, true, false, true,
                                    true, false, true, true, false, true, true, true]
  {
    hide LsbBits;
    LsbFour(0x8, 4, 2, 1); LsbFour(0xB, 5, 2, 1); LsbFour(0xD, 6, 3, 1); LsbFour(0xE, 7, 3, 1);
    LsbDigits(0x8, 0xB, 0xD, 0xE);
  }

  lemma Generator32()
    ensures LsbBits(0xEDB8_8320, 32) == POLY32
  {
    hide LsbBits;
    Pow2Of16();
    LsbBitsSplit(0x8320, 0xEDB8, 16, 16);
    LowDigits();
    HighDigits();
  }

  // ----- one shift ----------------------------------------------------------------------------

  /** Shifts left, takes in the generator if the top bit was set, and keeps 16 bits. */
  function Shift16(crc: u16): u16 {
    (if crc >= 0x8000 then Xor(2 * crc, 0x1021) else 2 * crc) % 0x1_0000
  }

  /** Shifts right, and takes in the reflected generator if the low bit was set. */
  function Shift32(crc: u32): u32 {
    Pow2Of32();
    XorFits(crc / 2, if crc % 2 == 1 then 0xEDB8_8320 else 0, 32);
    Xor(crc / 2, if crc % 2 == 1 then 0xEDB8_8320 else 0)
  }

  /** Exclusive OR with the generator or with nothing, and a zero shifted in at the end. */
  lemma StepIsXor(poly: Bits, c: Bits)
    requires |c| == |poly| > 0
    ensures Step(poly, c) == XorBits(c[1..] + [false], if c[0] then poly else Zeros(|c|))
  {
  }

  lemma Truncated16(v: nat)
    requires v < 0x2_0000
    ensures MsbBits(v % 0x1_0000, 16) == MsbBits(v, 16)
  {
    hide MsbBits;
    Pow2Of16();
    if v >= 0x1_0000 {
      MsbCarry(v - 0x1_0000, 16);
    }
  }

  lemma Shift16IsStep(crc: u16)
    ensures MsbBits(Shift16(crc), 16) == Step(POLY16, MsbBits(crc, 16))
  {
    hide MsbBits, Xor;
    var bits := MsbBits(crc, 16);
    Pow2Of16();
    assert Pow2(16) == 2 * Pow2(15);
    MsbTop(crc, 16);
    StepIsXor(POLY16, bits);
    MsbUnfold(2 * crc, 16);
    MsbTail(crc, 16);
    Generator16();
    Truncated16(2 * crc);
    if crc >= 0x8000 {
      XorFits(2 * crc, 0x1021, 17);
      Truncated16(Xor(2 * crc, 0x1021));
      MsbXor(2 * crc, 0x1021, 16);
    } else {
      XorZeros(bits[1..] + [false]);
    }
  }

  lemma XorZeros(x: Bits)
    ensures XorBits(x, Zeros(|x|)) == x
  {
  }

  lemma Shift32IsStep(crc: u32)
    ensures LsbBits(Shift32(crc), 32) == Step(POLY32, LsbBits(crc, 32))
  {
    hide LsbBits, Xor;
    var bits := LsbBits(crc, 32);
    Pow2Of32();
    StepIsXor(POLY32, bits);
    LsbUnfold(crc, 32);
    LsbPadded(crc / 2, 31, 1);
    Generator32();
    LsbZeros(32);
    LsbXor(crc / 2, if crc % 2 == 1 then 0xEDB8_8320 else 0, 32);
  }

  // ----- the loops ----------------------------------------------------------------------------

  /** The message byte meets the end of the register that leaves first. */
  lemma ByteIn16(crc: u16, b: u8)
    ensures Xor(crc, 0x100 * b) < 0x1_0000
    ensures MsbBits(Xor(crc, 0x100 * b), 16) == XorIn(MsbBits(crc, 16), MsbBits(b, 8))
  {
    hide MsbBits, Xor;
    Pow2Of16();
    XorFits(crc, 0x100 * b, 16);
    MsbXor(crc, 0x100 * b, 16);
    Pow2Of8();
    MsbBitsSplit(b, 0, 8, 8);
    MsbZeros(8);
  }

  lemma ByteIn32(crc: u32, b: u8)
    ensures Xor(crc, b) < WORD
    ensures LsbBits(Xor(crc, b), 32) == XorIn(LsbBits(crc, 32), LsbBits(b, 8))
  {
    hide LsbBits, Xor;
    Pow2Of32();
    XorFits(crc, b, 32);
    LsbXor(crc, b, 32);
    Pow2Of8();
    LsbPadded(b, 8, 24);
  }

  lemma FeedNothing(poly: Bits, c: Bits)
    requires |c| == |poly| > 0
    ensures Feed(poly, c, []) == c
  {
  }

  /** The nested loops of calculateCrc16 compute the remainder of the bit-serial division. */
  method CalculateCrc16(data: seq<u8>) returns (crc: u16)
    ensures crc == Crc16(data)
  {
    hide MsbBits, Xor, Shift16, Feed, Step, XorIn;
    Pow2Of16();
    MsbOnes(16);
    crc := 0xFFFF;
    FeedNothing(POLY16, Ones(16));
    for i := 0 to |data|
      invariant MsbBits(crc, 16) == Feed(POLY16, Ones(16), MsbStream(data[..i]))
    {
      FeedByte(POLY16, Ones(16), MsbStream(data[..i]), MsbBits(data[i], 8));
      MsbStreamSnoc(data, i);
      ByteIn16(crc, data[i]);
      crc := Xor(crc, 0x100 * data[i] as int);
      ghost var start := MsbBits(crc, 16);
      for bit := 0 to 8
        invariant MsbBits(crc, 16) == Steps(POLY16, start, bit)
      {
        Shift16IsStep(crc);
        StepsSnoc(POLY16, start, bit);
        crc := Shift16(crc);
      }
    }
    assert data[..|data|] == data;
    MsbValueOfBits(crc, 16);
  }

  /** Those of calculateCrc32 do the same for the reflected register. */
  method CalculateCrc32(data: seq<u8>) returns (crc: u32)
    ensures crc == Crc32(data)
  {
    hide LsbBits, Xor, Shift32, Feed, Step, XorIn;
    Pow2Of32();
    LsbOnes(32);
    crc := 0xFFFF_FFFF;
    FeedNothing(POLY32, Ones(32));
    for i := 0 to |data|
      invariant LsbBits(crc, 32) == Feed(POLY32, Ones(32), LsbStream(data[..i]))
    {
      FeedByte(POLY32, Ones(32), LsbStream(data[..i]), LsbBits(data[i], 8));
      LsbStreamSnoc(data, i);
      ByteIn32(crc, data[i]);
      crc := Xor(crc, data[i]);
      ghost var start := LsbBits(crc, 32);
      for bit := 0 to 8
        invariant LsbBits(crc, 32) == Steps(POLY32, start, bit)
      {
        Shift32IsStep(crc);
        StepsSnoc(POLY32, start, bit);
        crc := Shift32(crc);
      }
    }
    assert data[..|data|] == data;
    LsbComplement(LsbBits(crc, 32));
    LsbValueOfBits(crc, 32);
    crc := 0xFFFF_FFFF - crc;
  }
}
