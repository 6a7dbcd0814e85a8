/** CRC-16/CCITT-FALSE and the reflected CRC-32, as bit registers.

    A register is written in the order in which its bits leave it: most significant first for
    CRC-16 (which shifts left), least significant first for CRC-32 (which shifts right).  In that
    order both algorithms are the same one, so the theory is proved once, for every generator
    polynomial with a nonzero last coefficient. */
module Crc {
  import opened Words

  type Bits = seq<bool>

  /** Generators 0x1021 (most significant bit first) and 0xEDB88320 (least significant first). */
  const POLY16: Bits := [
    false, false, false, true, false, false, false, false,
    false, false, true, false, false, false, false, true]

  const POLY32: Bits := [
    false, false, false, false, false, true, false, false,
    true, true, false, false, false, false, false, true,
    false, false, false, true, true, true, false, true,
    true, false, true, true, false, true, true, true]

  function Ones(n: nat): (r: Bits)
    ensures |r| == n
  {
    seq(n, i => true)
  }

  function Zeros(n: nat): (r: Bits)
    ensures |r| == n
  {
    seq(n, i => false)
  }

  /** The most significant bit of an n-bit value first. */
  function MsbBits(v: nat, n: nat): (r: Bits)
    ensures |r| == n
    decreases n
  {
    if n == 0 then [] else MsbBits(v / 2, n - 1) + [v % 2 == 1]
  }

  function LsbBits(v: nat, n: nat): (r: Bits)
    ensures |r| == n
    decreases n
  {
    if n == 0 then [] else [v % 2 == 1] + LsbBits(v / 2, n - 1)
  }

  function MsbValue(b: Bits): (v: nat)
    ensures v < Pow2(|b|)
  {
    if b == [] then 0 else 2 * MsbValue(b[..|b| - 1]) + (if b[|b| - 1] then 1 else 0)
  }

  function LsbValue(b: Bits): (v: nat)
    ensures v < Pow2(|b|)
  {
    if b == [] then 0 else (if b[0] then 1 else 0) + 2 * LsbValue(b[1..])
  }

  function Not(b: Bits): (r: Bits)
    ensures |r| == |b|
  {
    seq(|b|, i requires 0 <= i < |b| => !b[i])
  }

  // ----- one register, any polynomial ---------------------------------------------------------

  /** One shift of the register: the outgoing bit selects the generator. */
  function Step(poly: Bits, c: Bits): (r: Bits)
    requires |c| == |poly| > 0
    ensures |r| == |c|
  {
    seq(|c|, i requires 0 <= i < |c| =>
      (i + 1 < |c| && c[i + 1]) != (c[0] && poly[i]))
  }

  function Steps(poly: Bits, c: Bits, n: nat): (r: Bits)
    requires |c| == |poly| > 0
    ensures |r| == |c|
    decreases n
  {
    if n == 0 then c else Steps(poly, Step(poly, c), n - 1)
  }

  /** XOR of message bits into the end of the register that leaves first. */
  function XorIn(c: Bits, x: Bits): (r: Bits)
    requires |x| <= |c|
    ensures |r| == |c|
  {
    seq(|c|, i requires 0 <= i < |c| => c[i] != (i < |x| && x[i]))
  }

  /** The textbook bit-serial division: each message bit meets the outgoing register bit. */
  function Feed(poly: Bits, c: Bits, x: Bits): (r: Bits)
    requires |c| == |poly| > 0
    ensures |r| == |c|
    decreases |x|
  {
    if x == [] then c else Feed(poly, Step(poly, XorIn(c, x[..1])), x[1..])
  }

  lemma {:induction false} FeedConcat(poly: Bits, c: Bits, x: Bits, y: Bits)
    requires |c| == |poly| > 0
    ensures Feed(poly, c, x + y) == Feed(poly, Feed(poly, c, x), y)
    decreases |x|
  {
    if x == [] {
      assert x + y == y;
    } else {
      assert (x + y)[1..] == x[1..] + y;
      assert (x + y)[..1] == x[..1];
      FeedConcat(poly, Step(poly, XorIn(c, x[..1])), x[1..], y);
    }
  }

  /** Feeding up to a register's width of bits one at a time is XORing them in at once and then
      shifting: the form the source's byte loop has. */
  lemma {:induction false} FeedIsXorThenShift(poly: Bits, c: Bits, x: Bits)
    requires |x| <= |c| == |poly| && |c| > 0
    ensures Feed(poly, c, x) == Steps(poly, XorIn(c, x), |x|)
    decreases |x|
  {
    if x == [] {
      assert XorIn(c, x) == c;
    } else {
      var c' := Step(poly, XorIn(c, x[..1]));
      FeedIsXorThenShift(poly, c', x[1..]);
      assert XorIn(c', x[1..]) == Step(poly, XorIn(c, x));
    }
  }

  lemma StepInjective(poly: Bits, c: Bits, d: Bits)
    requires |c| == |d| == |poly| > 0 && poly[|poly| - 1]
    requires Step(poly, c) == Step(poly, d)
    ensures c == d
  {
    var s, t, n := Step(poly, c), Step(poly, d), |c|;
    assert s[n - 1] == c[0] && t[n - 1] == d[0];
    forall i | 0 <= i < n
      ensures c[i] == d[i]
    {
      if i > 0 {
        assert s[i - 1] == t[i - 1];
      }
    }
  }

  lemma {:induction false} StepsInjective(poly: Bits, c: Bits, d: Bits, n: nat)
    requires |c| == |d| == |poly| > 0 && poly[|poly| - 1]
    requires Steps(poly, c, n) == Steps(poly, d, n)
    ensures c == d
    decreases n
  {
    if n > 0 {
      StepsInjective(poly, Step(poly, c), Step(poly, d), n - 1);
      StepInjective(poly, c, d);
    }
  }

  /** Once two registers differ, equal input never brings them together again. */
  lemma {:induction false} FeedInjective(poly: Bits, c: Bits, d: Bits, z: Bits)
    requires |c| == |d| == |poly| > 0 && poly[|poly| - 1]
    requires Feed(poly, c, z) == Feed(poly, d, z)
    ensures c == d
    decreases |z|
  {
    if z != [] {
      var b := z[..1];
      FeedInjective(poly, Step(poly, XorIn(c, b)), Step(poly, XorIn(d, b)), z[1..]);
      StepInjective(poly, XorIn(c, b), XorIn(d, b));
      XorInCancels(c, d, b, b);
    }
  }

  lemma XorInCancels(c: Bits, d: Bits, x: Bits, y: Bits)
    requires |x| == |y| <= |c| == |d|
    requires XorIn(c, x) == XorIn(d, y)
    ensures x == y ==> c == d
    ensures c == d ==> x == y
  {
    forall i | 0 <= i < |c|
      ensures (c[i] != (i < |x| && x[i])) == (d[i] != (i < |y| && y[i]))
    {
      assert XorIn(c, x)[i] == XorIn(d, y)[i];
    }
    if c == d {
      forall i | 0 <= i < |x|
        ensures x[i] == y[i]
      {
        assert c[i] == d[i];
      }
    }
  }

  /** Two different blocks no wider than the register drive it into different states. */
  lemma FeedSeparates(poly: Bits, s: Bits, x: Bits, y: Bits)
    requires |s| == |poly| > 0 && poly[|poly| - 1]
    requires |x| == |y| <= |poly| && x != y
    ensures Feed(poly, s, x) != Feed(poly, s, y)
  {
    FeedIsXorThenShift(poly, s, x);
    FeedIsXorThenShift(poly, s, y);
    if Feed(poly, s, x) == Feed(poly, s, y) {
      StepsInjective(poly, XorIn(s, x), XorIn(s, y), |x|);
      XorInCancels(s, s, x, y);
    }
  }

  /** Every change confined to a window no wider than the register changes the remainder:
      whatever surrounds the window and however long the message is. */
  lemma BurstChangesRemainder(poly: Bits, c: Bits, before: Bits, x: Bits, y: Bits, after: Bits)
    requires |c| == |poly| > 0 && poly[|poly| - 1]
    requires |x| == |y| <= |poly| && x != y
    ensures Feed(poly, c, before + x + after) != Feed(poly, c, before + y + after)
  {
    var s := Feed(poly, c, before);
    FeedThrough(poly, c, before, x, after);
    FeedThrough(poly, c, before, y, after);
    FeedSeparates(poly, s, x, y);
    FeedKeepsApart(poly, Feed(poly, s, x), Feed(poly, s, y), after);
  }

  lemma FeedKeepsApart(poly: Bits, c: Bits, d: Bits, z: Bits)
    requires |c| == |d| == |poly| > 0 && poly[|poly| - 1] && c != d
    ensures Feed(poly, c, z) != Feed(poly, d, z)
  {
    if Feed(poly, c, z) == Feed(poly, d, z) {
      FeedInjective(poly, c, d, z);
    }
  }

  lemma FeedThrough(poly: Bits, c: Bits, a: Bits, x: Bits, b: Bits)
    requires |c| == |poly| > 0
    ensures Feed(poly, c, a + x + b) == Feed(poly, Feed(poly, Feed(poly, c, a), x), b)
  {
    FeedConcat(poly, c, a + x, b);
    FeedConcat(poly, c, a, x);
  }

  function XorBits(x: Bits, y: Bits): (r: Bits)
    requires |x| == |y|
    ensures |r| == |x|
  {
    seq(|x|, i requires 0 <= i < |x| => x[i] != y[i])
  }

  /** The bound is sharp: one bit more, and changing a bit together with the generator behind it goes
      unnoticed, for every generator, at every place in every message. */
  lemma GeneratorGoesUnnoticed(poly: Bits, c: Bits, before: Bits, b: bool, x: Bits, after: Bits)
    requires |c| == |poly| == |x| > 0
    ensures Feed(poly, c, before + ([b] + x) + after) == Feed(poly, c, before + ([!b] + XorBits(x, poly)) + after)
  {
    var s := Feed(poly, c, before);
    FeedThrough(poly, c, before, [b] + x, after);
    FeedThrough(poly, c, before, [!b] + XorBits(x, poly), after);
    GeneratorCancels(poly, s, b, x);
  }

  lemma GeneratorCancels(poly: Bits, c: Bits, b: bool, x: Bits)
    requires |c| == |poly| == |x| > 0
    ensures Feed(poly, c, [b] + x) == Feed(poly, c, [!b] + XorBits(x, poly))
  {
    hide XorIn, Step, XorBits, Feed, Steps;
    var y := XorBits(x, poly);
    var s, t := Feed(poly, c, [b]), Feed(poly, c, [!b]);
    FeedConcat(poly, c, [b], x);
    FeedConcat(poly, c, [!b], y);
    FeedIsXorThenShift(poly, s, x);
    FeedIsXorThenShift(poly, t, y);
    FeedBit(poly, c, b);
    FeedBit(poly, c, !b);
    FlippedStep(poly, c, b, x);
  }

  lemma FeedBit(poly: Bits, c: Bits, b: bool)
    requires |c| == |poly| > 0
    ensures Feed(poly, c, [b]) == Step(poly, XorIn(c, [b]))
  {
    assert [b][..1] == [b];
  }

  lemma FlippedStep(poly: Bits, c: Bits, b: bool, x: Bits)
    requires |c| == |poly| == |x| > 0
    ensures XorIn(Step(poly, XorIn(c, [b])), x) == XorIn(Step(poly, XorIn(c, [!b])), XorBits(x, poly))
  {
  }

  lemma {:induction false} StepsOfZero(poly: Bits, n: nat)
    requires |poly| > 0
    ensures Steps(poly, Zeros(|poly|), n) == Zeros(|poly|)
    decreases n
  {
    if n > 0 {
      assert Step(poly, Zeros(|poly|)) == Zeros(|poly|);
      StepsOfZero(poly, n - 1);
    }
  }

  /** A register fed its own contents empties itself: the zero residue of an appended CRC. */
  lemma FeedOwnRegister(poly: Bits, c: Bits)
    requires |c| == |poly| > 0
    ensures Feed(poly, c, c) == Zeros(|poly|)
  {
    FeedIsXorThenShift(poly, c, c);
    assert XorIn(c, c) == Zeros(|c|);
    StepsOfZero(poly, |c|);
  }

  // ----- bits of values and of byte strings ---------------------------------------------------

  lemma {:induction false} MsbValueOfBits(v: nat, n: nat)
    requires v < Pow2(n)
    ensures MsbValue(MsbBits(v, n)) == v
    decreases n
  {
    if n > 0 {
      MsbValueOfBits(v / 2, n - 1);
      assert MsbBits(v, n)[..n - 1] == MsbBits(v / 2, n - 1);
    }
  }

  lemma {:induction false} LsbValueOfBits(v: nat, n: nat)
    requires v < Pow2(n)
    ensures LsbValue(LsbBits(v, n)) == v
    decreases n
  {
    if n > 0 {
      LsbValueOfBits(v / 2, n - 1);
      assert LsbBits(v, n)[1..] == LsbBits(v / 2, n - 1);
    }
  }

  lemma {:induction false} MsbBitsOfValue(b: Bits)
    ensures MsbBits(MsbValue(b), |b|) == b
  {
    if b != [] {
      MsbBitsOfValue(b[..|b| - 1]);
    }
  }

  lemma {:induction false} LsbBitsOfValue(b: Bits)
    ensures LsbBits(LsbValue(b), |b|) == b
  {
    if b != [] {
      LsbBitsOfValue(b[1..]);
    }
  }

  /** Bit string of a byte string, most significant bit of each byte first. */
  function MsbStream(m: seq<u8>): (r: Bits)
    ensures |r| == 8 * |m|
  {
    if m == [] then [] else MsbBits(m[0], 8) + MsbStream(m[1..])
  }

  function LsbStream(m: seq<u8>): (r: Bits)
    ensures |r| == 8 * |m|
  {
    if m == [] then [] else LsbBits(m[0], 8) + LsbStream(m[1..])
  }

  lemma {:induction false} MsbStreamConcat(m: seq<u8>, n: seq<u8>)
    ensures MsbStream(m + n) == MsbStream(m) + MsbStream(n)
  {
    if m == [] {
      assert m + n == n;
    } else {
      assert (m + n)[1..] == m[1..] + n;
      MsbStreamConcat(m[1..], n);
    }
  }

  lemma {:induction false} LsbStreamConcat(m: seq<u8>, n: seq<u8>)
    ensures LsbStream(m + n) == LsbStream(m) + LsbStream(n)
  {
    if m == [] {
      assert m + n == n;
    } else {
      assert (m + n)[1..] == m[1..] + n;
      LsbStreamConcat(m[1..], n);
    }
  }

  lemma {:induction false} MsbStreamInjective(m: seq<u8>, n: seq<u8>)
    requires |m| == |n| && MsbStream(m) == MsbStream(n)
    ensures m == n
  {
    if m != [] {
      assert MsbBits(m[0], 8) == MsbStream(m)[..8] == MsbStream(n)[..8] == MsbBits(n[0], 8);
      assert MsbStream(m[1..]) == MsbStream(m)[8..] == MsbStream(n)[8..] == MsbStream(n[1..]);
      Pow2Of8();
      MsbValueOfBits(m[0], 8);
      MsbValueOfBits(n[0], 8);
      MsbStreamInjective(m[1..], n[1..]);
    }
  }

  lemma {:induction false} LsbStreamInjective(m: seq<u8>, n: seq<u8>)
    requires |m| == |n| && LsbStream(m) == LsbStream(n)
    ensures m == n
  {
    if m != [] {
      assert LsbBits(m[0], 8) == LsbStream(m)[..8] == LsbStream(n)[..8] == LsbBits(n[0], 8);
      assert LsbStream(m[1..]) == LsbStream(m)[8..] == LsbStream(n)[8..] == LsbStream(n[1..]);
      Pow2Of8();
      LsbValueOfBits(m[0], 8);
      LsbValueOfBits(n[0], 8);
      LsbStreamInjective(m[1..], n[1..]);
    }
  }

  lemma Pow2Of8()
    ensures Pow2(8) == 0x100
  {
    assert Pow2(2) == 4;
    assert Pow2(4) == 16;
    assert Pow2(6) == 64;
  }

  lemma Pow2Of16()
    ensures Pow2(16) == 0x1_0000
  {
    Pow2Of8();
    Pow2Sum(8, 8);
  }

  lemma Pow2Of32()
    ensures Pow2(32) == 0x1_0000_0000
  {
    Pow2Of16();
    Pow2Sum(16, 16);
  }

  lemma {:induction false} Pow2Sum(a: nat, b: nat)
    ensures Pow2(a + b) == Pow2(a) * Pow2(b)
  {
    if a > 0 {
      Pow2Sum(a - 1, b);
    }
  }

  // ----- the two checksums --------------------------------------------------------------------

  /** Register of CRC-16 after a message: start value 0xFFFF, bytes most significant bit first. */
  function Register16(m: seq<u8>): (r: Bits)
    ensures |r| == 16
  {
    Feed(POLY16, Ones(16), MsbStream(m))
  }

  function Crc16(m: seq<u8>): u16 {
    Pow2Of16();
    MsbValue(Register16(m))
  }

  /** Register of CRC-32 after a message: start value 0xFFFFFFFF, bytes least significant first. */
  function Register32(m: seq<u8>): (r: Bits)
    ensures |r| == 32
  {
    Feed(POLY32, Ones(32), LsbStream(m))
  }

  function Crc32(m: seq<u8>): u32 {
    Pow2Of32();
    LsbValue(Not(Register32(m)))
  }

  lemma Poly16Odd()
    ensures POLY16[15]
  {
  }

  lemma Poly32Odd()
    ensures POLY32[31]
  {
  }

  ghost predicate AgreeOutside(x: Bits, y: Bits, k: nat, n: nat) {
    && |x| == |y|
    && k + n <= |x|
    && x[..k] == y[..k]
    && x[k + n..] == y[k + n..]
  }

  /** Two different bit strings that agree outside a window of at most `w` bits. */
  ghost predicate DifferWithin(x: Bits, y: Bits, w: nat) {
    && |x| == |y|
    && x != y
    && exists k: nat, n: nat :: AgreeOutside(x, y, k, n) && n <= w
  }

  lemma WindowChangesRemainder(poly: Bits, c: Bits, x: Bits, y: Bits)
    requires |c| == |poly| > 0 && poly[|poly| - 1]
    requires DifferWithin(x, y, |poly|)
    ensures Feed(poly, c, x) != Feed(poly, c, y)
  {
    var k: nat, w: nat :| AgreeOutside(x, y, k, w) && w <= |poly|;
    var u, v := x[k..k + w], y[k..k + w];
    assert x == x[..k] + u + x[k + w..];
    assert y == x[..k] + v + x[k + w..];
    BurstChangesRemainder(poly, c, x[..k], u, v, x[k + w..]);
  }

  /** Error detection of CRC-16: every burst of at most 16 bits, at any bit position, in a message
      of any length.  A change of one byte, or of two adjacent ones, is such a burst. */
  lemma Crc16DetectsBursts(m: seq<u8>, n: seq<u8>)
    requires DifferWithin(MsbStream(m), MsbStream(n), 16)
    ensures Crc16(m) != Crc16(n)
  {
    Poly16Odd();
    WindowChangesRemainder(POLY16, Ones(16), MsbStream(m), MsbStream(n));
    MsbBitsOfValue(Register16(m));
    MsbBitsOfValue(Register16(n));
  }

  /** Error detection of CRC-32: every burst of at most 32 bits. */
  lemma Crc32DetectsBursts(m: seq<u8>, n: seq<u8>)
    requires DifferWithin(LsbStream(m), LsbStream(n), 32)
    ensures Crc32(m) != Crc32(n)
  {
    Poly32Odd();
    WindowChangesRemainder(POLY32, Ones(32), LsbStream(m), LsbStream(n));
    var r, s := Register32(m), Register32(n);
    LsbBitsOfValue(Not(r));
    LsbBitsOfValue(Not(s));
    if Not(r) == Not(s) {
      NotInjective(r, s);
    }
  }

  lemma NotInjective(r: Bits, s: Bits)
    requires |r| == |s| && Not(r) == Not(s)
    ensures r == s
  {
    assert forall i | 0 <= i < |r| :: r[i] == !Not(r)[i] && s[i] == !Not(s)[i];
  }

  /** Byte-level reading of the two theorems: replacing adjacent bytes by others is a burst of
      eight times as many bits, in either bit order. */
  lemma ByteWindowIsBurst(a: seq<u8>, x: seq<u8>, y: seq<u8>, b: seq<u8>)
    requires |x| == |y| && x != y
    ensures DifferWithin(MsbStream(a + x + b), MsbStream(a + y + b), 8 * |x|)
    ensures DifferWithin(LsbStream(a + x + b), LsbStream(a + y + b), 8 * |x|)
  {
    assert MsbStream(x) != MsbStream(y) by {
      if MsbStream(x) == MsbStream(y) { MsbStreamInjective(x, y); }
    }
    assert LsbStream(x) != LsbStream(y) by {
      if LsbStream(x) == LsbStream(y) { LsbStreamInjective(x, y); }
    }
    MsbStreamConcat(a + x, b); MsbStreamConcat(a, x);
    MsbStreamConcat(a + y, b); MsbStreamConcat(a, y);
    SpliceDiffers(MsbStream(a), MsbStream(x), MsbStream(y), MsbStream(b));
    LsbStreamConcat(a + x, b); LsbStreamConcat(a, x);
    LsbStreamConcat(a + y, b); LsbStreamConcat(a, y);
    SpliceDiffers(LsbStream(a), LsbStream(x), LsbStream(y), LsbStream(b));
  }

  lemma SpliceDiffers(a: Bits, x: Bits, y: Bits, b: Bits)
    requires |x| == |y| && x != y
    ensures DifferWithin(a + x + b, a + y + b, |x|)
  {
    var s, t, k, n := a + x + b, a + y + b, |a|, |x|;
    assert s[k..k + n] == x && t[k..k + n] == y;
    assert s[..k] == a == t[..k];
    assert s[k + n..] == b == t[k + n..];
    assert AgreeOutside(s, t, k, n);
  }

  // ----- byte by byte --------------------------------------------------------------

  lemma {:induction false} StepsSnoc(poly: Bits, c: Bits, n: nat)
    requires |c| == |poly| > 0
    ensures Steps(poly, c, n + 1) == Step(poly, Steps(poly, c, n))
    decreases n
  {
    if n > 0 {
      StepsSnoc(poly, Step(poly, c), n - 1);
    }
  }

  lemma FeedByte(poly: Bits, c: Bits, before: Bits, byte: Bits)
    requires |c| == |poly| >= 8 && |byte| == 8
    ensures Feed(poly, c, before + byte) == Steps(poly, XorIn(Feed(poly, c, before), byte), 8)
  {
    FeedConcat(poly, c, before, byte);
    FeedIsXorThenShift(poly, Feed(poly, c, before), byte);
  }

  lemma MsbStreamSnoc(m: seq<u8>, i: nat)
    requires i < |m|
    ensures MsbStream(m[..i + 1]) == MsbStream(m[..i]) + MsbBits(m[i], 8)
  {
    assert m[..i + 1] == m[..i] + [m[i]];
    MsbStreamConcat(m[..i], [m[i]]);
    assert MsbStream([m[i]]) == MsbBits(m[i], 8);
  }

  lemma LsbStreamSnoc(m: seq<u8>, i: nat)
    requires i < |m|
    ensures LsbStream(m[..i + 1]) == LsbStream(m[..i]) + LsbBits(m[i], 8)
  {
    assert m[..i + 1] == m[..i] + [m[i]];
    LsbStreamConcat(m[..i], [m[i]]);
    assert LsbStream([m[i]]) == LsbBits(m[i], 8);
  }
}
