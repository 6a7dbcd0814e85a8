/** Machine integers as the source uses them: unsigned bytes, half-words and words,
    stored little-endian in flash, on the UART and in packages. */
module Words {

  type u8 = x: int | 0 <= x < 0x100
  type u16 = x: int | 0 <= x < 0x1_0000
  type u32 = x: int | 0 <= x < 0x1_0000_0000

  datatype Option<T> = None | Some(value: T)

  const WORD: int := 0x1_0000_0000

  /** Unsigned 32-bit addition: wraps at 2^32. */
  function Add32(a: u32, b: int): u32 {
    (a + b) % WORD
  }

  function Le16(v: u16): (s: seq<u8>)
    ensures |s| == 2
  {
    [v % 0x100, v / 0x100]
  }

  function Le32(v: u32): (s: seq<u8>)
    ensures |s| == 4
  {
    [v % 0x100, v / 0x100 % 0x100, v / 0x1_0000 % 0x100, v / 0x100_0000]
  }

  function Load16(s: seq<u8>, at: nat): u16
    requires at + 2 <= |s|
  {
    s[at] as int + 0x100 * s[at + 1] as int
  }

  function Load32(s: seq<u8>, at: nat): u32
    requires at + 4 <= |s|
  {
    s[at] as int + 0x100 * s[at + 1] as int + 0x1_0000 * s[at + 2] as int + 0x100_0000 * s[at + 3] as int
  }

  /** A stored word loads back unchanged. */
  lemma Load32Le32(v: u32)
    ensures Load32(Le32(v), 0) == v
  {
    var a, b, c := v / 0x100, v / 0x1_0000, v / 0x100_0000;
    assert v == 0x100 * a + v % 0x100;
    assert a == 0x100 * b + a % 0x100;
    assert b == 0x100 * c + b % 0x100;
  }

  /** Loading looks only at the bytes of the field, wherever they lie. */
  lemma Load32Slice(s: seq<u8>, at: nat)
    requires at + 4 <= |s|
    ensures Load32(s, at) == Load32(s[at..at + 4], 0)
  {
  }

  /** Bitwise AND of two non-negative integers, low bit first. */
  function And(a: nat, b: nat): (r: nat)
    ensures r <= a && r <= b
  {
    if a == 0 || b == 0 then 0
    else 2 * And(a / 2, b / 2) + (if a % 2 == 1 && b % 2 == 1 then 1 else 0)
  }

  function Pow2(n: nat): (p: nat)
    ensures p > 0
  {
    if n == 0 then 1 else 2 * Pow2(n - 1)
  }

  /** An all-ones word is the identity of AND on words of its width. */
  lemma {:induction false} AndOnes(n: nat, d: nat)
    requires d < Pow2(n)
    ensures And(Pow2(n) - 1, d) == d
  {
    if n != 0 && d != 0 {
      AndOnes(n - 1, d / 2);
      assert (Pow2(n) - 1) / 2 == Pow2(n - 1) - 1;
    }
  }

  lemma {:induction false} AndSelf(d: nat)
    ensures And(d, d) == d
  {
    if d != 0 {
      AndSelf(d / 2);
    }
  }

  /** ANDing clears bits and sets none. */
  lemma {:induction false} AndBelow(a: nat, d: nat)
    ensures And(And(a, d), a) == And(a, d)
  {
    if a != 0 && d != 0 {
      AndBelow(a / 2, d / 2);
    }
  }

  /** A bit that is missing stays missing: whoever has all bits of `m` and only bits of `x` finds the
      bits of `m` in `x`. */
  lemma {:induction false} AndWithin(y: nat, x: nat, m: nat)
    requires And(y, x) == y && And(y, m) == m
    ensures And(x, m) == m
    decreases m
  {
    if m != 0 {
      AndWithin(y / 2, x / 2, m / 2);
    }
  }
}
