/**
 The half-word digits in which src/gcc/qdivrem.c computes, on a machine with 32-bit longs:
 base 2^16, most significant digit first.
 */
module Digits {
  const B: int := 0x1_0000

  type Digit = d: int | 0 <= d < 0x1_0000
  type Long = x: int | 0 <= x < 0x1_0000_0000
  type Quad = x: int | 0 <= x < 0x1_0000_0000_0000_0000

  /** Unsigned long arithmetic wraps around. */
  function Wrap(x: int): Long {
    x % 0x1_0000_0000
  }

  /** HHALF, LHALF and COMBINE of src/gcc/quad.h; the bits combined do not overlap. */
  function HHalf(x: Long): Digit {
    x / B
  }

  function LHalf(x: Long): Digit {
    x % B
  }

  function Combine(a: Digit, b: Digit): Long {
    a * B + b
  }

  function Pow(k: nat): (r: nat)
    ensures r > 0
  {
    if k == 0 then 1 else B * Pow(k - 1)
  }

  /** The number that a row of digits stands for. */
  function Val(s: seq<Digit>): nat {
    if s == [] then 0 else s[0] * Pow(|s| - 1) + Val(s[1..])
  }

  lemma MulMono(a: int, b: int, c: int)
    requires a <= b && c >= 0
    ensures a * c <= b * c
  {
  }

  lemma MulCancel(a: int, b: int, c: int)
    requires a * c < b * c && c >= 0
    ensures a < b
  {
    if b <= a { MulMono(b, a, c); }
  }

  lemma Distribute(x: int, p: int, r: int, w: int)
    ensures (x * p + r) * w == x * (p * w) + r * w
  {
    assert (x * p) * w == x * (p * w);
  }

  lemma TimesSum(q: int, y: int, p: int, v: int)
    ensures q * (y * p + v) == (y * q) * p + q * v
  {
    assert q * (y * p) == (y * q) * p;
  }

  lemma DifferenceTimes(x: int, a: int, t: int, p: int)
    ensures (x - a - t) * p == x * p - a * p - t * p
  {
  }

  lemma {:induction false} PowAdd(a: nat, b: nat)
    ensures Pow(a + b) == Pow(a) * Pow(b)
  {
    if a > 0 {
      PowAdd(a - 1, b);
      assert B * (Pow(a - 1) * Pow(b)) == (B * Pow(a - 1)) * Pow(b);
    }
  }

  lemma {:induction false} ValBound(s: seq<Digit>)
    ensures Val(s) < Pow(|s|)
  {
    if s != [] {
      ValBound(s[1..]);
      MulMono(s[0], B - 1, Pow(|s| - 1));
    }
  }

  lemma {:induction false} ValConcat(a: seq<Digit>, b: seq<Digit>)
    ensures Val(a + b) == Val(a) * Pow(|b|) + Val(b)
  {
    if a == [] {
      assert a + b == b;
    } else {
      ValConcat(a[1..], b);
      assert (a + b)[1..] == a[1..] + b;
      PowAdd(|a| - 1, |b|);
      Distribute(a[0], Pow(|a| - 1), Val(a[1..]), Pow(|b|));
    }
  }

  lemma ValSnoc(s: seq<Digit>, x: Digit)
    ensures Val(s + [x]) == Val(s) * B + x
  {
    ValConcat(s, [x]);
    assert Pow(1) == B * Pow(0) && [x][1..] == [];
  }

  lemma {:induction false} ValZeros(s: seq<Digit>)
    requires forall i :: 0 <= i < |s| ==> s[i] == 0
    ensures Val(s) == 0
  {
    if s != [] {
      ValZeros(s[1..]);
    }
  }

  /** Zero digits in front do not count. */
  lemma ValLeadingZeros(a: seq<Digit>, b: seq<Digit>)
    requires forall i :: 0 <= i < |a| ==> a[i] == 0
    ensures Val(a + b) == Val(b)
  {
    ValConcat(a, b);
    ValZeros(a);
  }

  /** Splitting one digit off the end of a part of a row. */
  lemma ValBack(s: seq<Digit>, lo: nat, hi: nat)
    requires lo < hi <= |s|
    ensures Val(s[lo..hi]) == Val(s[lo..hi - 1]) * B + s[hi - 1]
  {
    assert s[lo..hi] == s[lo..hi - 1] + [s[hi - 1]];
    ValSnoc(s[lo..hi - 1], s[hi - 1]);
  }

  /** Powers of two below the base, as shift counts. */
  function Pow2(d: nat): (r: nat)
    ensures r > 0
  {
    if d == 0 then 1 else 2 * Pow2(d - 1)
  }

  lemma {:induction false} Pow2Split(d: nat, e: nat)
    ensures Pow2(d) * Pow2(e) == Pow2(d + e)
  {
    if d > 0 {
      Pow2Split(d - 1, e);
      assert 2 * Pow2(d - 1) * Pow2(e) == 2 * (Pow2(d - 1) * Pow2(e));
    }
  }

  lemma Pow2Base(d: nat)
    requires d <= 16
    ensures Pow2(d) * Pow2(16 - d) == B
  {
    Pow2Split(d, 16 - d);
    assert Pow2(16) == 2 * 2 * 2 * 2 * Pow2(12);
    assert Pow2(12) == 2 * 2 * 2 * 2 * Pow2(8);
    assert Pow2(8) == 2 * 2 * 2 * 2 * Pow2(4);
    assert Pow2(4) == 2 * 2 * 2 * 2 * Pow2(0);
  }
}
