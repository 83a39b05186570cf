/**
 __qdivrem of src/gcc/qdivrem.c: unsigned 64-bit division by Knuth's Algorithm D.
 Digit rows live in arrays; an offset stands for a pointer into one.
 */
module LongDivision {
  import opened Digits

  // ----------------------------------------------------- D3: the trial digit

  /** The test of D3 decides whether the trial digit is too big for three digits over two. */
  lemma TestIsExact(qhat: int, rhat: int, v1: int, v2: int, head: int, uj2: int)
    requires qhat * v1 + rhat == head
    ensures qhat * (v1 * B + v2) - (head * B + uj2) == v2 * qhat - (rhat * B + uj2)
  {
    assert qhat * (v1 * B + v2) == qhat * v1 * B + v2 * qhat;
  }

  lemma QuotientOf(a: int, b: int) returns (q: int, r: int)
    requires a >= 0 && b > 0
    ensures q == a / b && r == a % b && q * b + r == a && 0 <= r < b && 0 <= q
  {
    q, r := a / b, a % b;
  }

  /** The first trial digit is not too small: one more would exceed the three digits. */
  lemma FirstGuess(q: int, r: int, head: int, uj2: Digit, v1: Digit, v2: Digit)
    requires v1 > 0 && q >= 0 && q * v1 + r == head && 0 <= r < v1 && 0 <= head < v1 * B
    ensures q < B
    ensures head * B + uj2 < (q + 1) * (v1 * B + v2)
  {
    if q >= B {
      MulMono(B, q, v1);
    }
    assert (q + 1) * v1 == q * v1 + v1;
    TestIsExact(q + 1, r - v1, v1, v2, head, uj2);
    MulMono(0, v2, q + 1);
  }

  lemma SmallProduct(v2: Digit, q: Digit)
    ensures v2 * q < B * B
  {
    MulMono(v2, B - 1, q);
  }

  /**
   The trial digit is the exact quotient of the first three digits by the first two of the divisor, or
   the largest digit if that is smaller.
   */
  method TrialDigit(uj0: Digit, uj1: Digit, uj2: Digit, v1: Digit, v2: Digit) returns (qhat: Digit)
    requires uj0 <= v1 && v1 > 0
    ensures qhat * (v1 * B + v2) <= (uj0 * B + uj1) * B + uj2
    ensures qhat == B - 1 || (uj0 * B + uj1) * B + uj2 < (qhat + 1) * (v1 * B + v2)
  {
    ghost var head := uj0 * B + uj1;
    ghost var u3 := head * B + uj2;
    ghost var vv := v1 * B + v2;
    var rhat: int;
    if uj0 == v1 {
      qhat := B - 1;
      rhat := uj1 + v1;
    } else {
      var nn := Combine(uj0, uj1);
      ghost var q, r := QuotientOf(nn, v1);
      FirstGuess(q, r, nn, uj2, v1, v2);
      qhat := nn / v1;
      rhat := nn % v1;
    }
    while rhat < B && v2 * qhat > rhat * B + uj2
      invariant qhat * v1 + rhat == head && 0 <= rhat
      invariant qhat == B - 1 || u3 < (qhat + 1) * vv
      decreases qhat
    {
      TestIsExact(qhat, rhat, v1, v2, head, uj2);
      Down(qhat, v1, v2);
      qhat := qhat - 1;
      rhat := rhat + v1;
    }
    TestIsExact(qhat, rhat, v1, v2, head, uj2);
    SmallProduct(v2, qhat);
  }

  lemma Down(qhat: int, v1: int, v2: int)
    requires v2 * qhat > 0
    ensures qhat != 0 && (qhat - 1) * v1 == qhat * v1 - v1
  {
  }

  // ------------------------------------------- D4: multiply and subtract

  /** The digit and the borrow that wrap-around arithmetic leaves of a difference. */
  lemma BorrowOf(x: int)
    requires -(B - 1) * B <= x < B
    ensures var t := Wrap(x);
            && (B - HHalf(t)) % B < B
            && x == LHalf(t) - ((B - HHalf(t)) % B) * B
            && (HHalf(t) != 0 <==> x < 0)
  {
  }

  lemma DifferenceBound(x: Digit, y: Digit, qhat: Digit, t: Digit)
    ensures -(B - 1) * B <= x - y * qhat - t < B
    ensures y * qhat < B * B
  {
    MulMono(y, B - 1, qhat);
    MulMono(0, y, qhat);
  }

  /** One place of the multiplication and subtraction; the product fits an unsigned long. */
  method SubtractPlace(u: array<Digit>, at: nat, y: Digit, qhat: Digit, t: Digit) returns (borrow: Digit)
    requires at < u.Length
    modifies u
    ensures u[..] == old(u[..])[at := u[at]]
    ensures old(u[at]) - y * qhat - t == u[at] - borrow * B
  {
    DifferenceBound(u[at], y, qhat, t);
    BorrowOf(u[at] - y * qhat - t);
    var x := Wrap(u[at] - y * qhat - t);
    u[at] := LHalf(x);
    borrow := (B - HHalf(x)) % B;
  }

  lemma NoDigits()
    ensures Val([]) == 0 && Pow(0) == 1
  {
  }

  lemma PlaceOfDifference(x: int, y: int, r: int, q: int, t: int, t': int, p: int, ws: int, vs: int, rs: int,
                          w: int, v: int, now: int, pp: int)
    requires ws - q * vs == rs - t * p
    requires x - y * q - t == r - t' * B
    requires w == x * p + ws && v == y * p + vs && now == r * p + rs && pp == B * p
    ensures w - q * v == now - t' * pp
  {
    TimesSum(q, y, p, vs);
    DifferenceTimes(x, y * q, t, p);
    DifferenceTimes(r, t' * B, 0, p);
    assert (t' * B) * p == t' * (B * p);
  }

  /** The running difference after one more place. */
  lemma DifferenceGrows(w: seq<Digit>, v: seq<Digit>, r: seq<Digit>, qhat: int, t: int, t': int)
    requires |w| == |v| == |r| > 0
    requires Val(w[1..]) - qhat * Val(v[1..]) == Val(r[1..]) - t * Pow(|w| - 1)
    requires w[0] - v[0] * qhat - t == r[0] - t' * B
    ensures Val(w) - qhat * Val(v) == Val(r) - t' * Pow(|w|)
  {
    PlaceOfDifference(w[0], v[0], r[0], qhat, t, t', Pow(|w| - 1), Val(w[1..]), Val(v[1..]), Val(r[1..]),
                      Val(w), Val(v), Val(r), Pow(|w|));
  }

  /**
   Subtracts qhat times the divisor from n + 1 digits of the dividend.  The digits end as the difference
   modulo a power of the base; the result tells whether it was negative.
   */
  method MultiplySubtract(u: array<Digit>, o: nat, v: array<Digit>, vo: nat, n: nat, qhat: Digit) returns (borrow: bool)
    requires u != v && o + n < u.Length && vo + n <= v.Length
    modifies u
    ensures forall k :: 0 <= k < u.Length && !(o <= k <= o + n) ==> u[k] == old(u[k])
    ensures Val(u[o..o + n + 1]) ==
            old(Val(u[o..o + n + 1])) - qhat * Val(v[vo..vo + n]) + if borrow then Pow(n + 1) else 0
  {
    hide Val, Pow;
    NoDigits();
    ghost var was := u[..];
    var t: Digit := 0;
    var i := n;
    assert was[o + n + 1..o + n + 1] == [] && v[vo + n..vo + n] == [];
    while i > 0
      invariant 0 <= i <= n
      invariant forall k :: 0 <= k < u.Length && !(o + i < k <= o + n) ==> u[k] == was[k]
      invariant Val(was[o + i + 1..o + n + 1]) - qhat * Val(v[vo + i..vo + n])
             == Val(u[o + i + 1..o + n + 1]) - t * Pow(n - i)
    {
      ghost var now, t0 := u[..], t;
      t := SubtractPlace(u, o + i, v[vo + i - 1], qhat, t);
      i := i - 1;
      ghost var w, d, r := was[o + i + 1..o + n + 1], v[vo + i..vo + n], u[o + i + 1..o + n + 1];
      assert w[1..] == was[o + i + 2..o + n + 1] && r[1..] == now[o + i + 2..o + n + 1];
      assert d[1..] == v[vo + i + 1..vo + n];
      DifferenceGrows(w, d, r, qhat, t0, t);
    }
    ghost var now, t0 := u[..], t;
    t := SubtractPlace(u, o, 0, qhat, t);
    ghost var w, d, r := was[o..o + n + 1], v[vo..vo + n], u[o..o + n + 1];
    assert w[1..] == was[o + 1..o + n + 1] && r[1..] == now[o + 1..o + n + 1];
    ValLeadingZeros([0], d);
    assert ([0] + d)[1..] == d;
    DifferenceGrows(w, [0] + d, r, qhat, t0, t);
    borrow := t != 0;
  }

  // -------------------------------------------------------- D6: add back

  lemma PlaceOfSum(x: int, y: int, r: int, t: int, t': int, p: int, ws: int, vs: int, rs: int,
                   w: int, v: int, now: int, pp: int)
    requires ws + vs == rs + t * p
    requires x + y + t == r + t' * B
    requires w == x * p + ws && v == y * p + vs && now == r * p + rs && pp == B * p
    ensures w + v == now + t' * pp
  {
    DifferenceTimes(x, -y, -t, p);
    DifferenceTimes(r, -t' * B, 0, p);
    assert (t' * B) * p == t' * (B * p);
  }

  lemma SumGrows(w: seq<Digit>, v: seq<Digit>, r: seq<Digit>, t: int, t': int)
    requires |w| == |v| == |r| > 0
    requires Val(w[1..]) + Val(v[1..]) == Val(r[1..]) + t * Pow(|w| - 1)
    requires w[0] + v[0] + t == r[0] + t' * B
    ensures Val(w) + Val(v) == Val(r) + t' * Pow(|w|)
  {
    PlaceOfSum(w[0], v[0], r[0], t, t', Pow(|w| - 1), Val(w[1..]), Val(v[1..]), Val(r[1..]),
               Val(w), Val(v), Val(r), Pow(|w|));
  }

  /** One place of the addition. */
  method AddPlace(u: array<Digit>, at: nat, y: Digit, t: Digit) returns (carry: Digit)
    requires at < u.Length && t <= 1
    modifies u
    ensures u[..] == old(u[..])[at := u[at]]
    ensures old(u[at]) + y + t == u[at] + carry * B && carry <= 1
  {
    var x: Long := t + u[at] + y;
    u[at] := LHalf(x);
    carry := HHalf(x);
  }

  /** Adds the divisor to n + 1 digits of the dividend, dropping the carry out of them. */
  method AddBack(u: array<Digit>, o: nat, v: array<Digit>, vo: nat, n: nat) returns (ghost carry: int)
    requires u != v && o + n < u.Length && vo + n <= v.Length
    modifies u
    ensures forall k :: 0 <= k < u.Length && !(o <= k <= o + n) ==> u[k] == old(u[k])
    ensures 0 <= carry <= 1
    ensures Val(u[o..o + n + 1]) == old(Val(u[o..o + n + 1])) + Val(v[vo..vo + n]) - carry * Pow(n + 1)
  {
    hide Val, Pow;
    NoDigits();
    ghost var was := u[..];
    var t: Digit := 0;
    var i := n;
    assert was[o + n + 1..o + n + 1] == [] && v[vo + n..vo + n] == [];
    while i > 0
      invariant 0 <= i <= n && t <= 1
      invariant forall k :: 0 <= k < u.Length && !(o + i < k <= o + n) ==> u[k] == was[k]
      invariant Val(was[o + i + 1..o + n + 1]) + Val(v[vo + i..vo + n]) == Val(u[o + i + 1..o + n + 1]) + t * Pow(n - i)
    {
      ghost var now, t0 := u[..], t;
      t := AddPlace(u, o + i, v[vo + i - 1], t);
      i := i - 1;
      ghost var w, d, r := was[o + i + 1..o + n + 1], v[vo + i..vo + n], u[o + i + 1..o + n + 1];
      assert w[1..] == was[o + i + 2..o + n + 1] && r[1..] == now[o + i + 2..o + n + 1];
      assert d[1..] == v[vo + i + 1..vo + n];
      SumGrows(w, d, r, t0, t);
    }
    ghost var now, t0 := u[..], t;
    t := AddPlace(u, o, 0, t);
    carry := t;
    ghost var w, d, r := was[o..o + n + 1], v[vo..vo + n], u[o..o + n + 1];
    assert w[1..] == was[o + 1..o + n + 1] && r[1..] == now[o + 1..o + n + 1];
    ValLeadingZeros([0], d);
    assert ([0] + d)[1..] == d;
    SumGrows(w, [0] + d, r, t0, carry);
  }

  // ------------------------------------------- D3 to D6: one quotient digit

  lemma TwoDigits(s: seq<Digit>)
    requires |s| >= 2
    ensures Val(s) == (s[0] * B + s[1]) * Pow(|s| - 2) + Val(s[2..])
  {
    hide Val, Pow;
    NoDigits();
    assert s[..2] + s[2..] == s;
    ValConcat(s[..2], s[2..]);
    ValSnoc(s[..1], s[1]);
    ValSnoc([], s[0]);
    assert s[..2] == s[..1] + [s[1]] && s[..1] == [] + [s[0]];
  }

  lemma ThreeDigits(s: seq<Digit>)
    requires |s| >= 3
    ensures Val(s) == ((s[0] * B + s[1]) * B + s[2]) * Pow(|s| - 3) + Val(s[3..])
  {
    hide Val, Pow;
    NoDigits();
    assert s[..3] + s[3..] == s;
    ValConcat(s[..3], s[3..]);
    ValSnoc(s[..2], s[2]);
    ValSnoc(s[..1], s[1]);
    ValSnoc([], s[0]);
    assert s[..3] == s[..2] + [s[2]] && s[..2] == s[..1] + [s[1]] && s[..1] == [] + [s[0]];
  }

  /** The trial digit is the quotient digit or one more. */
  lemma TrialIsClose(w: int, v: int, u3: int, vd: int, p: int, wr: int, vr: int, qhat: int)
    requires w == u3 * p + wr && 0 <= wr < p
    requires v == vd * p + vr && 0 <= vr < p && vd >= B
    requires 0 <= qhat < B && qhat * vd <= u3 && (qhat == B - 1 || u3 < (qhat + 1) * vd)
    requires w < v * B
    ensures qhat * v <= w + v
    ensures w < (qhat + 1) * v
  {
    TimesSum(qhat, vd, p, vr);
    MulMono(qhat * vd, u3, p);
    assert (vd * qhat) * p == (qhat * vd) * p;
    MulMono(qhat, B, vr);
    MulMono(vr, p, B);
    MulMono(B, vd, p);
    if qhat < B - 1 {
      MulMono(u3 + 1, (qhat + 1) * vd, p);
      TimesSum(qhat + 1, vd, p, vr);
      assert (vd * (qhat + 1)) * p == ((qhat + 1) * vd) * p;
      MulMono(0, vr, qhat + 1);
    }
  }

  /** The head of the dividend does not exceed that of the divisor. */
  lemma HeadBound(u: seq<Digit>, v: seq<Digit>)
    requires |u| == |v| + 1 && |v| > 0 && Val(u) < Val(v) * B
    ensures u[0] <= v[0]
  {
    ValBound(v[1..]);
    var p := Pow(|v| - 1);
    Distribute(v[0], p, p, B);
    MulMono(Val(v), v[0] * p + p, B);
    Distribute(v[0], 1, 1, B * p);
    assert v[0] * (p * B) == v[0] * (B * p);
    MulCancel(u[0], v[0] as int + 1, B * p);
  }

  /** Without a borrow the difference is the remainder. */
  lemma NotTooBig(w: int, v: int, qhat: int, one: int, borrow: bool, r: int)
    requires qhat * v <= w + v && w < (qhat + 1) * v && 0 <= w && 0 <= v < one
    requires 0 <= r < one && r == w - qhat * v + if borrow then one else 0
    ensures borrow <==> w < qhat * v
    ensures borrow ==> qhat > 0
    ensures !borrow ==> r < v
  {
    DifferenceTimes(qhat, -1, 0, v);
    if qhat <= 0 {
      MulMono(qhat, 0, v);
    }
  }

  /** After a borrow the trial digit was one too big, and adding the divisor back gives the remainder. */
  lemma OneTooBig(w: int, v: int, qhat: int, one: int, carry: int, r1: int, r2: int)
    requires w < qhat * v <= w + v && v < one
    requires r1 == w - qhat * v + one
    requires 0 <= carry <= 1 && 0 <= r2 < one && r2 == r1 + v - carry * one
    ensures (qhat - 1) * v + r2 == w && r2 < v
  {
    DifferenceTimes(qhat, 1, 0, v);
    assert carry * one == if carry == 0 then 0 else one;
  }

  /**
   One quotient digit: the n + 1 digits at o are divided by the n digits at vo, whose first is at least
   half the base, and hold the remainder afterwards.
   */
  method DivideDigit(u: array<Digit>, o: nat, v: array<Digit>, vo: nat, n: nat) returns (q: Digit)
    requires u != v && o + n < u.Length && vo + n <= v.Length && n >= 2
    requires v[vo] >= B / 2
    requires Val(u[o..o + n + 1]) < Val(v[vo..vo + n]) * B
    modifies u
    ensures forall k :: 0 <= k < u.Length && !(o <= k <= o + n) ==> u[k] == old(u[k])
    ensures q * Val(v[vo..vo + n]) + Val(u[o..o + n + 1]) == old(Val(u[o..o + n + 1]))
    ensures Val(u[o..o + n + 1]) < Val(v[vo..vo + n])
  {
    hide Val, Pow;
    ghost var us, vs := u[o..o + n + 1], v[vo..vo + n];
    ghost var w, d := Val(us), Val(vs);
    HeadBound(us, vs);
    ThreeDigits(us);
    TwoDigits(vs);
    ValBound(us[3..]);
    ValBound(vs[2..]);
    ValBound(vs);
    PowGrows(n);

    var qhat := TrialDigit(u[o], u[o + 1], u[o + 2], v[vo], v[vo + 1]);
    TrialIsClose(w, d, (us[0] * B + us[1]) * B + us[2], vs[0] * B + vs[1], Pow(n - 2),
                 Val(us[3..]), Val(vs[2..]), qhat);
    var borrow := MultiplySubtract(u, o, v, vo, n, qhat);
    ghost var r1 := Val(u[o..o + n + 1]);
    ValBound(u[o..o + n + 1]);
    NotTooBig(w, d, qhat, Pow(n + 1), borrow, r1);
    if borrow {
      qhat := qhat - 1;
      ghost var carry := AddBack(u, o, v, vo, n);
      ValBound(u[o..o + n + 1]);
      OneTooBig(w, d, qhat + 1, Pow(n + 1), carry, r1, Val(u[o..o + n + 1]));
    }
    q := qhat;
  }

  lemma PowGrows(n: nat)
    ensures Pow(n) <= Pow(n + 1)
  {
  }

  // ------------------------------------------------------------- shifts

  /** x >> sh. */
  function Shr(x: Digit, sh: nat): Digit {
    Halves(x, sh);
    x / Pow2(sh)
  }

  /** The low sh bits of x. */
  function LowBits(x: Digit, sh: nat): nat {
    x % Pow2(sh)
  }

  lemma Halves(x: Digit, sh: nat)
    ensures 0 <= x / Pow2(sh) <= x && 0 <= x % Pow2(sh) < Pow2(sh)
    ensures (x / Pow2(sh)) * Pow2(sh) + x % Pow2(sh) == x
  {
    var q, r := QuotientOf(x, Pow2(sh));
    if q > x { MulMono(x as int + 1, q, Pow2(sh)); MulMono(1, Pow2(sh), x as int + 1); }
  }

  lemma Remainder(a: int, q: int, r: int)
    requires a == q * B + r && 0 <= r < B
    ensures a % B == r && a / B == q
  {
  }

  /** Shifting x = q * e + r left by log2(c), where c * e is the base. */
  lemma ShiftedParts(x: int, c: int, e: int, q: int, r: int)
    requires c * e == B && c > 0 && e > 0 && x == q * e + r && 0 <= r < e && 0 <= x < B
    ensures q < c && (x * c) % B == r * c <= B - c && x * c == q * B + r * c
  {
    Distribute(q, e, r, c);
    assert e * c == c * e;
    MulMono(r, e - 1, c);
    MulMono(0, r, c);
    DifferenceTimes(e, 1, 0, c);
    Remainder(x * c, q, r * c);
    MulCancel(q, c, e);
  }

  /** LHALF(x << sh): the high bits of x are lost, and the sh low places are free. */
  lemma ShiftedOut(x: Digit, sh: nat)
    requires sh <= 16
    ensures Shr(x, 16 - sh) < Pow2(sh)
    ensures (x * Pow2(sh)) % B == LowBits(x, 16 - sh) * Pow2(sh) <= B - Pow2(sh)
    ensures x * Pow2(sh) == Shr(x, 16 - sh) * B + LowBits(x, 16 - sh) * Pow2(sh)
  {
    hide Pow2;
    Pow2Base(sh);
    Halves(x, 16 - sh);
    ShiftedParts(x, Pow2(sh), Pow2(16 - sh), Shr(x, 16 - sh), LowBits(x, 16 - sh));
  }

  /** One digit of __shl: the parts that | combines do not overlap. */
  function ShlDigit(x: Digit, y: Digit, sh: nat): (r: Digit)
    requires sh <= 16
    ensures r == LowBits(x, 16 - sh) * Pow2(sh) + Shr(y, 16 - sh)
  {
    ShiftedOut(x, sh);
    ShiftedOut(y, sh);
    (x * Pow2(sh)) % B + Shr(y, 16 - sh)
  }

  /** The shifted digits so far, with what the next digit shifts into them. */
  lemma ShiftGrows(p: int, n: int, x: int, hi: int, low: int, c: int, y: int, p': int, n': int)
    requires n == p * c + hi && x * c == hi * B + low && p' == p * B + x && n' == n * B + low + y
    ensures n' == p' * c + y
  {
    Distribute(p, B, x, c);
    assert p * (B * c) == (p * c) * B;
  }

  /** __shl: nothing falls out on the left if the first digit has room. */
  method ShiftLeft(p: array<Digit>, o: nat, len: nat, sh: nat)
    requires o + len < p.Length && sh <= 16
    requires p[o] * Pow2(sh) < B
    modifies p
    ensures forall k :: 0 <= k < p.Length && !(o <= k <= o + len) ==> p[k] == old(p[k])
    ensures Val(p[o..o + len + 1]) == old(Val(p[o..o + len + 1])) * Pow2(sh)
  {
    hide Val, Pow2, Shr, LowBits;
    NoDigits();
    ghost var was := p[..];
    assert was[o..o] == [] && p[o..o] == [];
    ShiftedOut(was[o], sh);
    var i := 0;
    while i < len
      invariant 0 <= i <= len
      invariant forall k :: 0 <= k < p.Length && !(o <= k < o + i) ==> p[k] == was[k]
      invariant Val(p[o..o + i]) == Val(was[o..o + i]) * Pow2(sh) + Shr(was[o + i], 16 - sh)
    {
      ghost var now := p[..];
      p[o + i] := ShlDigit(p[o + i], p[o + i + 1], sh);
      ShlStep(was, now, p[..], o, i, sh, Shr(was[o + i + 1], 16 - sh));
      assert p[..][o..o + i + 1] == p[o..o + i + 1] && now[o..o + i] == was[o..o + i][..0] + now[o..o + i];
      i := i + 1;
    }
    ghost var now := p[..];
    ShiftedOut(p[o + len], sh);
    p[o + len] := (p[o + len] * Pow2(sh)) % B;
    ShlStep(was, now, p[..], o, len, sh, 0);
    assert p[..][o..o + len + 1] == p[o..o + len + 1];
  }

  lemma ShlStep(was: seq<Digit>, now: seq<Digit>, next: seq<Digit>, o: nat, i: nat, sh: nat, y: int)
    requires |was| == |now| == |next| && o + i < |was| && sh <= 16
    requires next == now[o + i := next[o + i]]
    requires Val(now[o..o + i]) == Val(was[o..o + i]) * Pow2(sh) + Shr(was[o + i], 16 - sh)
    requires next[o + i] == LowBits(was[o + i], 16 - sh) * Pow2(sh) + y
    ensures Val(next[o..o + i + 1]) == Val(was[o..o + i + 1]) * Pow2(sh) + y
  {
    hide Val, Pow2, Shr, LowBits;
    ShiftedOut(was[o + i], sh);
    ValBack(was, o, o + i + 1);
    ValBack(next, o, o + i + 1);
    assert next[o..o + i] == now[o..o + i];
    ShiftGrows(Val(was[o..o + i]), Val(now[o..o + i]), was[o + i],
               Shr(was[o + i], 16 - sh), LowBits(was[o + i], 16 - sh) * Pow2(sh),
               Pow2(sh), y, Val(was[o..o + i + 1]), Val(next[o..o + i + 1]));
  }

  /** One digit of the final right shift: the parts that | combines do not overlap. */
  method ShrPlace(u: array<Digit>, at: nat, sh: nat)
    requires 0 < at < u.Length && sh <= 16
    modifies u
    ensures u[..] == old(u[..])[at := u[at]]
    ensures u[at] == Shr(old(u[at]), sh) + LowBits(old(u[at - 1]), sh) * Pow2(16 - sh)
  {
    ShiftedOut(u[at - 1], 16 - sh);
    ShiftedOut(u[at], 16 - sh);
    u[at] := Shr(u[at], sh) + (u[at - 1] * Pow2(16 - sh)) % B;
  }

  lemma Carried(hi: int, a: int, e: int, c: int, p: int)
    requires e * c == B
    ensures (hi + a * e) * c == hi * c + a * B
    ensures ((hi + a * e) * p) * c == (hi * c) * p + a * (B * p)
  {
    Distribute(a, e, hi, c);
    Distribute(a, B, hi * c, p);
    Swap3(hi + a * e, p, c);
  }

  lemma Swap3(x: int, p: int, c: int)
    ensures (x * p) * c == (x * c) * p
  {
  }

  /** The shifted digits so far, with the bits that the digit before shifts into them. */
  lemma UnshiftGrows(x: int, hi: int, lo: int, a: int, p: int, n: int, s: int, low: int, c: int, e: int,
                     now: int, was: int, top: int)
    requires e * c == B && x == hi * c + lo
    requires n * c + low == lo * p + s
    requires now == (hi + a * e) * p + n && was == x * p + s && top == B * p
    ensures now * c + low == a * top + was
  {
    Carried(hi, a, e, c, p);
    DifferenceTimes((hi + a * e) * p, -n, 0, c);
    DifferenceTimes(hi * c, -lo, 0, p);
  }

  lemma ShrStep(w: seq<Digit>, r: seq<Digit>, p: Digit, low: int, sh: nat)
    requires |w| == |r| > 0 && sh <= 16
    requires Val(r[1..]) * Pow2(sh) + low == LowBits(w[0], sh) * Pow(|w| - 1) + Val(w[1..])
    requires r[0] == Shr(w[0], sh) + LowBits(p, sh) * Pow2(16 - sh)
    ensures Val(r) * Pow2(sh) + low == LowBits(p, sh) * Pow(|w|) + Val(w)
  {
    Pow2Base(16 - sh);
    Halves(w[0], sh);
    UnshiftGrows(w[0], Shr(w[0], sh), LowBits(w[0], sh), LowBits(p, sh), Pow(|w| - 1), Val(r[1..]), Val(w[1..]), low,
                 Pow2(sh), Pow2(16 - sh), Val(r), Val(w), Pow(|w|));
  }

  lemma LowBitsBound(x: Digit, sh: nat)
    ensures 0 <= LowBits(x, sh) < Pow2(sh) && LowBits(0, sh) == 0
  {
  }

  /** The digits of a row that starts with zero, shifted right: the bits that fall out are the rest. */
  method ShiftRight(u: array<Digit>, o: nat, len: nat, sh: nat) returns (ghost low: int)
    requires o + len < u.Length && sh <= 16
    requires u[o] == 0
    modifies u
    ensures forall k :: 0 <= k < u.Length && !(o <= k <= o + len) ==> u[k] == old(u[k])
    ensures u[o] == 0 && 0 <= low < Pow2(sh)
    ensures Val(u[o + 1..o + len + 1]) * Pow2(sh) + low == old(Val(u[o + 1..o + len + 1]))
  {
    hide Val, Pow, Pow2, Shr, LowBits;
    NoDigits();
    ghost var was := u[..];
    low := LowBits(was[o + len], sh);
    LowBitsBound(was[o + len], sh);
    assert was[o + len + 1..o + len + 1] == [] && u[o + len + 1..o + len + 1] == [];
    var i := len;
    while i > 0
      invariant 0 <= i <= len
      invariant forall k :: 0 <= k < u.Length && !(o + i < k <= o + len) ==> u[k] == was[k]
      invariant Val(u[o + i + 1..o + len + 1]) * Pow2(sh) + low ==
                LowBits(was[o + i], sh) * Pow(len - i) + Val(was[o + i + 1..o + len + 1])
    {
      ghost var now := u[..];
      ShrPlace(u, o + i, sh);
      ghost var w, r := was[o + i..o + len + 1], u[o + i..o + len + 1];
      assert w[1..] == was[o + i + 1..o + len + 1] && r[1..] == now[o + i + 1..o + len + 1];
      ShrStep(w, r, was[o + i - 1], low, sh);
      i := i - 1;
    }
    u[o] := 0;
  }

  // ------------------------------------------------------ one-digit divisor

  function Join(h: Long, l: Long): Quad {
    h * 0x1_0000_0000 + l
  }

  /** The four digits of a quad. */
  lemma FourDigits(a: Digit, b: Digit, c: Digit, d: Digit)
    ensures Val([a, b, c, d]) == ((a * B + b) * B + c) * B + d == Join(Combine(a, b), Combine(c, d))
  {
    assert [a, b, c, d] == [a, b, c] + [d] && [a, b, c] == [a, b] + [c] && [a, b] == [a] + [b] && [a] == [] + [a];
    ValSnoc([], a);
    ValSnoc([a], b);
    ValSnoc([a, b], c);
    ValSnoc([a, b, c], d);
  }

  lemma ShortStep(x: int, t: int, q: int, r: int, u: Digit, q': int, r': int)
    requires x == q * t + r && r * B + u == q' * t + r'
    ensures x * B + u == (q * B + q') * t + r'
  {
    assert x * B == q * t * B + r * B;
    Distribute(q, B, q', t);
    assert q * t * B == q * (B * t);
  }

  /** One place: the remainder so far and the next digit, over the divisor. */
  method ShortDigit(r: Digit, u: Digit, t: Digit) returns (q: Digit, r': Digit)
    requires r < t
    ensures r * B + u == q * t + r' && r' < t
  {
    var rbj := Combine(r, u);
    ghost var g, h := QuotientOf(rbj, t);
    MulMono(r, t as int - 1, B);
    MulCancel(g, B, t);
    q := rbj / t;
    r' := rbj % t;
  }

  /** Division by one digit, unrolled. */
  method ShortDivide(u1: Digit, u2: Digit, u3: Digit, u4: Digit, t: Digit) returns (q: Quad, r: Quad)
    requires t != 0
    ensures q * t + r == ((u1 * B + u2) * B + u3) * B + u4 && r < t
  {
    var q1, r1 := ShortDigit(0, u1, t);
    var q2, r2 := ShortDigit(r1, u2, t);
    var q3, r3 := ShortDigit(r2, u3, t);
    var q4, r4 := ShortDigit(r3, u4, t);
    ShortStep(u1, t, q1, r1, u2, q2, r2);
    ShortStep(u1 * B + u2, t, q1 * B + q2, r2, u3, q3, r3);
    ShortStep((u1 * B + u2) * B + u3, t, (q1 * B + q2) * B + q3, r3, u4, q4, r4);
    q := Join(Combine(q1, q2), Combine(q3, q4));
    r := r4;
  }

  // --------------------------------------------------- D2 to D7: the loop

  /** The first digits of a row are below the divisor times the base when the whole row is small enough. */
  lemma HeadFits(w: int, v: int, p: int, tail: int)
    requires w * p + tail < v * (B * p) && tail >= 0 && p > 0
    ensures w < v * B
  {
    assert v * (B * p) == (v * B) * p;
    MulCancel(w, v * B, p);
  }

  /** The quotient digits so far, after one more. */
  lemma QuotientGrows(q: int, v: int, p: int, d: int, x: int, y: int)
    requires x == d * (v * p) + y
    ensures q * v * (B * p) + x == (q * B + d) * v * p + y
  {
    var vp := v * p;
    Regroup(q, v, p);
    assert (q * B + d) * v * p == (q * B + d) * vp;
    Distribute(q, B, d, vp);
  }

  lemma Regroup(q: int, v: int, p: int)
    ensures q * v * (B * p) == q * (B * (v * p))
  {
  }

  lemma PlaceTaken(w: int, tail: int, d: int, v: int, w': int, p: int)
    requires d * v + w' == w && 0 <= w' < v && 0 <= tail < p
    ensures w * p + tail == d * (v * p) + (w' * p + tail)
    ensures w' * p + tail < v * p
  {
    DifferenceTimes(d * v, -w', 0, p);
    MulMono(w', v - 1, p);
    DifferenceTimes(v, 1, 0, p);
    assert d * v * p == d * (v * p);
  }

  lemma Row(s: seq<Digit>, lo: nat, mid: nat, hi: nat)
    requires lo <= mid <= hi <= |s|
    ensures Val(s[lo..hi]) == Val(s[lo..mid]) * Pow(hi - mid) + Val(s[mid..hi])
    ensures 0 <= Val(s[mid..hi]) < Pow(hi - mid)
  {
    hide Val, Pow;
    assert s[lo..hi] == s[lo..mid] + s[mid..hi];
    ValConcat(s[lo..mid], s[mid..hi]);
    ValBound(s[mid..hi]);
  }

  /** A remainder below an n-digit number leaves the place before it empty. */
  lemma FirstIsZero(s: seq<Digit>, n: nat)
    requires |s| == n + 1 && Val(s) < Pow(n)
    ensures s[0] == 0 && Val(s[1..]) == Val(s)
  {
    if s[0] > 0 {
      MulMono(1, s[0], Pow(n));
    }
  }

  /** One quotient digit, of a row that goes on after the digits divided. */
  method DividePlace(u: array<Digit>, o: nat, v: array<Digit>, vo: nat, n: nat, ghost end: nat) returns (digit: Digit)
    requires u != v && o + n < end <= u.Length && vo + n <= v.Length && n >= 2
    requires v[vo] >= B / 2
    requires Val(u[o..end]) < Val(v[vo..vo + n]) * Pow(end - o - n)
    modifies u
    ensures forall k :: 0 <= k < u.Length && !(o <= k <= o + n) ==> u[k] == old(u[k])
    ensures u[o] == 0
    ensures var part := Val(v[vo..vo + n]) * Pow(end - o - n - 1);
            && old(Val(u[o..end])) == digit * part + Val(u[o + 1..end])
            && Val(u[o + 1..end]) < part
  {
    hide Val, Pow;
    ghost var us, d, p := u[..], Val(v[vo..vo + n]), Pow(end - o - n - 1);
    ghost var w, tail := Val(us[o..o + n + 1]), Val(us[o + n + 1..end]);
    PowNext(end - o - n - 1);
    ValBound(v[vo..vo + n]);
    Row(us, o, o + n + 1, end);
    assert us[o..end] == u[o..end] && us[o..o + n + 1] == u[o..o + n + 1];
    HeadFits(w, d, p, tail);
    digit := DivideDigit(u, o, v, vo, n);
    ghost var now := u[..];
    FirstIsZero(now[o..o + n + 1], n);
    assert now[o..o + n + 1][1..] == now[o + 1..o + n + 1] && now[o..o + n + 1] == u[o..o + n + 1];
    assert now[o + n + 1..end] == us[o + n + 1..end];
    Row(now, o + 1, o + n + 1, end);
    assert now[o + 1..end] == u[o + 1..end];
    PlaceTaken(w, tail, digit, d, Val(now[o..o + n + 1]), p);
  }

  /** All quotient digits: m + 1 of them, from m + n + 1 digits of the dividend. */
  method DivideRow(u: array<Digit>, uo: nat, v: array<Digit>, vo: nat, q: array<Digit>, qo: nat, m: nat, n: nat)
    requires u != v && u != q && v != q
    requires uo + m + n < u.Length && vo + n <= v.Length && qo + m < q.Length && n >= 2
    requires v[vo] >= B / 2
    requires Val(u[uo..uo + m + n + 1]) < Val(v[vo..vo + n]) * Pow(m + 1)
    modifies u, q
    ensures forall k :: 0 <= k < u.Length && !(uo <= k <= uo + m + n) ==> u[k] == old(u[k])
    ensures forall k :: 0 <= k < q.Length && !(qo <= k <= qo + m) ==> q[k] == old(q[k])
    ensures forall k :: uo <= k <= uo + m ==> u[k] == 0
    ensures old(Val(u[uo..uo + m + n + 1])) ==
            Val(q[qo..qo + m + 1]) * Val(v[vo..vo + n]) + Val(u[uo + m + 1..uo + m + n + 1])
    ensures Val(u[uo + m + 1..uo + m + n + 1]) < Val(v[vo..vo + n])
  {
    hide Val, Pow;
    NoDigits();
    ghost var total, d, qs := Val(u[uo..uo + m + n + 1]), Val(v[vo..vo + n]), q[..];
    assert q[qo..qo] == [];
    var j := 0;
    while j <= m
      invariant 0 <= j <= m + 1
      invariant forall k :: 0 <= k < u.Length && !(uo <= k <= uo + m + n) ==> u[k] == old(u[k])
      invariant forall k :: 0 <= k < q.Length && !(qo <= k < qo + j) ==> q[k] == qs[k]
      invariant forall k :: uo <= k < uo + j ==> u[k] == 0
      invariant total == Val(q[qo..qo + j]) * d * Pow(m + 1 - j) + Val(u[uo + j..uo + m + n + 1])
      invariant Val(u[uo + j..uo + m + n + 1]) < d * Pow(m + 1 - j)
    {
      ghost var was, x := q[..], Val(u[uo + j..uo + m + n + 1]);
      PowNext(m - j);
      var digit := DividePlace(u, uo + j, v, vo, n, uo + m + n + 1);
      QuotientGrows(Val(q[qo..qo + j]), d, Pow(m - j), digit, x, Val(u[uo + j + 1..uo + m + n + 1]));
      q[qo + j] := digit;
      ValBack(q[..], qo, qo + j + 1);
      assert q[..][qo..qo + j + 1] == q[qo..qo + j + 1] && q[qo..qo + j] == was[qo..qo + j];
      j := j + 1;
    }
  }

  lemma PowNext(k: nat)
    ensures Pow(k + 1) == B * Pow(k)
  {
  }

  // --------------------------------------------------------- the whole

  /** Breaks a quad into digits, in places 1 to 4. */
  method Break(x: Quad, a: array<Digit>)
    requires a.Length == 5
    modifies a
    ensures a[0] == old(a[0]) && Val(a[1..5]) == x
  {
    hide Val;
    var h: Long, l: Long := x / 0x1_0000_0000, x % 0x1_0000_0000;
    a[1], a[2], a[3], a[4] := HHalf(h), LHalf(h), HHalf(l), LHalf(l);
    FourDigits(a[1], a[2], a[3], a[4]);
    assert a[1..5] == [a[1], a[2], a[3], a[4]];
  }

  /** The quad in places 1 to 4. */
  method Make(a: array<Digit>) returns (x: Quad)
    requires a.Length == 5
    ensures x == Val(a[1..5])
  {
    hide Val;
    FourDigits(a[1], a[2], a[3], a[4]);
    assert a[1..5] == [a[1], a[2], a[3], a[4]];
    x := Join(Combine(a[1], a[2]), Combine(a[3], a[4]));
  }

  /** D1: how far the first digit of the divisor must be shifted to be at least half the base. */
  method ShiftCount(v1: Digit) returns (d: nat)
    requires v1 > 0
    ensures d < 16 && B / 2 <= v1 * Pow2(d) < B
  {
    d := 0;
    var t: int := v1;
    assert Pow2(0) == 1;
    while t < B / 2
      invariant 0 < t < B && t == v1 * Pow2(d) && Pow2(d) <= t && d < 16
      decreases B - t
    {
      assert v1 * Pow2(d + 1) == 2 * (v1 * Pow2(d));
      Pow2Small(d + 1);
      t := t * 2;
      d := d + 1;
    }
  }

  lemma Pow2Small(d: nat)
    requires d <= 16
    ensures d == 16 ==> Pow2(d) == B
  {
    Pow2Base(d);
  }

  /** Leading zeros of a row of digits: what is left has the same value. */
  lemma Skip(s: seq<Digit>, lo: nat, mid: nat, hi: nat)
    requires lo <= mid <= hi <= |s|
    requires forall k :: lo <= k < mid ==> s[k] == 0
    ensures Val(s[mid..hi]) == Val(s[lo..hi])
  {
    assert s[lo..hi] == s[lo..mid] + s[mid..hi];
    ValLeadingZeros(s[lo..mid], s[mid..hi]);
  }

  lemma AtLeast(s: seq<Digit>)
    requires s != [] && s[0] > 0
    ensures Pow(|s| - 1) <= Val(s)
  {
    MulMono(1, s[0], Pow(|s| - 1));
  }

  lemma PowMono(a: nat, b: nat)
    requires a <= b
    ensures Pow(a) <= Pow(b)
    decreases b
  {
    if a < b { PowMono(a, b - 1); }
  }

  /** A dividend that is not smaller than an n-digit divisor has n digits. */
  lemma Enough(u: seq<Digit>, v: seq<Digit>)
    requires v != [] && v[0] > 0 && Val(v) <= Val(u)
    ensures |v| <= |u|
  {
    AtLeast(v);
    ValBound(u);
    if |u| < |v| { PowMono(|u|, |v| - 1); }
  }

  /** The shifted dividend is small enough for m + 1 quotient digits. */
  lemma QuotientFits(u: seq<Digit>, v: seq<Digit>, c: int)
    requires v != [] && v[0] > 0 && |v| <= |u| && c > 0
    ensures Val(u) * c < Val(v) * c * Pow(|u| - |v| + 1)
  {
    AtLeast(v);
    ValBound(u);
    PowAdd(|v| - 1, |u| - |v| + 1);
    var p := Pow(|u| - |v| + 1);
    MulMono(Pow(|v| - 1), Val(v), p);
    DifferenceTimes(Val(v) * p, Val(u) + 1, 0, c);
    MulMono(1, Val(v) * p - Val(u), c);
    DifferenceTimes(Val(v) * p, Val(u), 0, c);
    Swap3(Val(v), p, c);
  }

  /** Undoing the normalization. */
  lemma Unshifted(u: int, v: int, q: int, rest: int, r: int, low: int, c: int)
    requires c > 0 && v > 0 && u * c == q * (v * c) + rest && 0 <= rest < v * c
    requires r * c + low == rest && 0 <= low < c
    ensures q * v + r == u && 0 <= r < v
  {
    Distribute(q, v, r, c);
    var e := u - (q * v + r);
    DifferenceTimes(u, q * v + r, 0, c);
    assert e * c == low;
    MulCancel(e, 1, c);
    MulCancel(-1, e, c);
    MulCancel(r, v, c);
    MulCancel(-1, r, c);
  }

  /** D1: both rows shifted left until the first digit of the divisor is at least half the base. */
  method Normalize(u: array<Digit>, uo: nat, ulen: nat, v: array<Digit>, vo: nat, n: nat) returns (d: nat)
    requires u != v && uo + ulen < u.Length && vo + n <= v.Length && n > 0
    requires u[uo] == 0 && v[vo] > 0
    modifies u, v
    ensures d < 16 && v[vo] >= B / 2
    ensures forall k :: 0 <= k < u.Length && !(uo <= k <= uo + ulen) ==> u[k] == old(u[k])
    ensures Val(u[uo..uo + ulen + 1]) == old(Val(u[uo..uo + ulen + 1])) * Pow2(d)
    ensures Val(v[vo..vo + n]) == old(Val(v[vo..vo + n])) * Pow2(d)
  {
    hide Val, Pow;
    d := ShiftCount(v[vo]);
    if d > 0 {
      ghost var was := v[vo..vo + n];
      ShiftLeft(u, uo, ulen, d);
      ShiftLeft(v, vo, n - 1, d);
      assert v[vo..vo + n - 1 + 1] == v[vo..vo + n];
      FirstIsLarge(was, v[vo..vo + n], Pow2(d));
    } else {
      assert Pow2(0) == 1;
    }
  }

  lemma FirstIsLarge(was: seq<Digit>, now: seq<Digit>, c: int)
    requires |was| == |now| > 0 && Val(now) == Val(was) * c && c > 0
    requires was[0] * c >= B / 2
    ensures now[0] >= B / 2
  {
    ValBound(now[1..]);
    HeadIsLarge(was[0], Val(was[1..]), now[0], Val(now[1..]), Pow(|was| - 1), c, Val(was), Val(now));
  }

  lemma HeadIsLarge(x: int, xs: int, y: int, ys: int, p: int, c: int, was: int, now: int)
    requires was == x * p + xs && now == y * p + ys && now == was * c
    requires xs >= 0 && 0 <= ys < p && c > 0 && x * c >= B / 2
    ensures y >= B / 2
  {
    Distribute(x, p, xs, c);
    assert x * (p * c) == (x * c) * p;
    MulMono(0, xs, c);
    MulMono(B / 2, x * c, p);
    DifferenceTimes(y, -1, 0, p);
    MulCancel(B / 2, y + 1, p);
  }

  /** Undoes the normalization on the remainder. */
  method ShiftBack(u: array<Digit>, o: nat, len: nat, d: nat) returns (ghost low: int)
    requires o + len < u.Length && len > 0 && d < 16 && u[o] == 0
    modifies u
    ensures forall k :: 0 <= k < u.Length && !(o <= k <= o + len) ==> u[k] == old(u[k])
    ensures u[o] == 0 && 0 <= low < Pow2(d)
    ensures Val(u[o + 1..o + len + 1]) * Pow2(d) + low == old(Val(u[o + 1..o + len + 1]))
  {
    hide Val, Pow, Pow2;
    low := 0;
    if d > 0 {
      low := ShiftRight(u, o, len, d);
    } else {
      NoShift();
    }
  }

  /** Program D: divisors of at least two digits.  The rows end at place 4. */
  method LongDivide(u: array<Digit>, uo: nat, v: array<Digit>, vo: nat, q: array<Digit>, m: nat, n: nat)
    requires u != v && u != q && v != q && u.Length == v.Length == q.Length == 5
    requires n >= 2 && vo + n == 5 && uo + m + n == 4
    requires u[uo] == 0 && v[vo] > 0
    requires forall k :: 1 <= k < 4 - m ==> q[k] == 0
    requires forall k :: 1 <= k <= uo ==> u[k] == 0
    modifies u, v, q
    ensures Val(q[1..5]) * old(Val(v[vo..5])) + Val(u[1..5]) == old(Val(u[uo..5]))
    ensures Val(u[1..5]) < old(Val(v[vo..5]))
  {
    hide Val, Pow, Pow2;
    ghost var us, vs := u[uo + 1..5], v[vo..5];
    ghost var uq, vq := Val(u[uo..5]), Val(vs);
    Skip(u[..], uo, uo + 1, 5);
    assert u[..][uo..5] == u[uo..5] && u[..][uo + 1..5] == us;
    var d := Normalize(u, uo, m + n, v, vo, n);
    ghost var c := Pow2(d);
    assert uo + m + n + 1 == 5 && vo + n == 5;
    QuotientFits(us, vs, c);
    DivideRow(u, uo, v, vo, q, 4 - m, m, n);
    ghost var rest := Val(u[uo + m + 1..5]);
    ghost var low := ShiftBack(u, uo + m, n, d);
    ghost var r := Val(u[uo + m + 1..5]);
    Unshifted(uq, vq, Val(q[4 - m..5]), rest, r, low, c);
    Skip(u[..], 1, uo + m + 1, 5);
    assert u[..][1..5] == u[1..5] && u[..][uo + m + 1..5] == u[uo + m + 1..5];
    Skip(q[..], 1, 4 - m, 5);
    assert q[..][1..5] == q[1..5] && q[..][4 - m..5] == q[4 - m..5];
  }

  lemma NoShift()
    ensures Pow2(0) == 1
  {
  }

  /** The first digit of the divisor, and the number of its digits. */
  method DivisorLength(v: array<Digit>) returns (vo: nat, n: nat)
    requires v.Length == 5 && Val(v[1..5]) != 0
    ensures 1 <= n && vo + n == 5 && v[vo] > 0 && vo > 0
    ensures Val(v[vo..5]) == Val(v[1..5])
  {
    hide Val;
    NoDigits();
    n, vo := 4, 1;
    while v[vo] == 0
      invariant 1 <= n && 1 <= vo && vo + n == 5 && Val(v[vo..5]) == Val(v[1..5])
      decreases n
    {
      Skip(v[..], vo, vo + 1, 5);
      assert v[..][vo..5] == v[vo..5] && v[..][vo + 1..5] == v[vo + 1..5];
      assert v[vo + 1..5] != [];
      n := n - 1;
      vo := vo + 1;
    }
  }

  /** How many quotient digits the dividend gives over n digits, and the place before its first digit. */
  method QuotientLength(u: array<Digit>, ghost vs: seq<Digit>, n: nat) returns (uo: nat, m: nat)
    requires u.Length == 5 && u[0] == 0
    requires |vs| == n && 2 <= n <= 4 && vs[0] > 0 && Val(vs) <= Val(u[1..5])
    ensures uo + m + n == 4
    ensures forall k :: 0 <= k <= uo ==> u[k] == 0
    ensures Val(u[uo..5]) == Val(u[1..5])
  {
    hide Val;
    m, uo := 4 - n, 0;
    while u[uo + 1] == 0
      invariant 0 <= m && uo + m + n == 4 && Val(u[uo + 1..5]) == Val(u[1..5])
      invariant forall k :: 0 <= k <= uo ==> u[k] == 0
      decreases m
    {
      Skip(u[..], uo + 1, uo + 2, 5);
      assert u[..][uo + 1..5] == u[uo + 1..5] && u[..][uo + 2..5] == u[uo + 2..5];
      Enough(u[uo + 2..5], vs);
      m := m - 1;
      uo := uo + 1;
    }
    Skip(u[..], uo, uo + 1, 5);
    assert u[..][uo..5] == u[uo..5] && u[..][uo + 1..5] == u[uo + 1..5];
  }

  /** The leading quotient digits that the loop does not compute. */
  method Clear(q: array<Digit>, k: nat)
    requires k <= q.Length
    modifies q
    ensures forall i :: 0 <= i < k ==> q[i] == 0
  {
    var i := k;
    while i > 0
      invariant 0 <= i <= k
      invariant forall j :: i <= j < k ==> q[j] == 0
    {
      i := i - 1;
      q[i] := 0;
    }
  }

  /** __qdivrem; a zero divisor traps. */
  method QDivRem(uq: Quad, vq: Quad) returns (quotient: Quad, rem: Quad)
    requires vq != 0
    ensures quotient * vq + rem == uq && rem < vq
  {
    hide Val, Pow;
    if uq < vq {
      return 0, uq;
    }
    var u, v, q := new Digit[5], new Digit[5], new Digit[5];
    u[0] := 0;
    Break(uq, u);
    Break(vq, v);
    NoDigits();
    var vo, n := DivisorLength(v);
    if n == 1 {
      OneDigit(v[4]);
      assert v[4..5] == [v[4]];
      FourDigits(u[1], u[2], u[3], u[4]);
      assert u[1..5] == [u[1], u[2], u[3], u[4]];
      quotient, rem := ShortDivide(u[1], u[2], u[3], u[4], v[4]);
      return;
    }
    var uo, m := QuotientLength(u, v[vo..5], n);
    Clear(q, 4 - m);
    LongDivide(u, uo, v, vo, q, m, n);
    rem := Make(u);
    quotient := Make(q);
  }

  lemma OneDigit(x: Digit)
    ensures Val([x]) == x
  {
    ValSnoc([], x);
    assert [] + [x] == [x];
  }
}
