/**
 Signed 64-bit division and remainder on two's complement words, over __qdivrem:
 src/gcc/divdi3.c, src/gcc/moddi3.c and their unsigned counterparts.
 */
module SignedDivision {
  import opened Digits
  import opened LongDivision

  type SQuad = x: int | -0x8000_0000_0000_0000 <= x < 0x8000_0000_0000_0000

  const WORD: int := 0x1_0000_0000_0000_0000
  const MIN: SQuad := -0x8000_0000_0000_0000

  /** The cast to u_quad_t. */
  function Unsigned(a: SQuad): Quad {
    a % WORD
  }

  /** The conversion back to quad_t. */
  function Signed(u: Quad): SQuad {
    if u < 0x8000_0000_0000_0000 then u else u - WORD
  }

  /** Unary minus on u_quad_t. */
  function Negated(u: Quad): Quad {
    (-(u as int)) % WORD
  }

  /** Sign stripping and sign giving wrap around to the right words. */
  lemma Negation(a: SQuad, u: Quad)
    ensures a < 0 ==> Negated(Unsigned(a)) == -(a as int)
    ensures u <= 0x8000_0000_0000_0000 ==> Signed(Negated(u)) == -(u as int)
    ensures u < 0x8000_0000_0000_0000 ==> Signed(u) == u
    ensures u == 0x8000_0000_0000_0000 ==> Signed(u) == MIN
  {
  }

  function Abs(a: int): nat {
    if a < 0 then -a else a
  }

  /** q and r are the quotient rounded toward zero and the remainder that goes with it. */
  predicate Truncates(a: int, b: int, q: int, r: int) {
    a == q * b + r && Abs(r) < Abs(b) && (r == 0 || (r < 0 <==> a < 0))
  }

  /** Such a quotient and remainder are unique. */
  lemma TruncatesUnique(a: int, b: int, q: int, r: int, q': int, r': int)
    requires b != 0 && Truncates(a, b, q, r) && Truncates(a, b, q', r')
    ensures q == q' && r == r'
  {
    DifferenceTimes(q, q', 0, b);
    var d := q - q';
    assert d * b == r' - r;
    if d != 0 {
      Further(d, b);
    }
  }

  /** A non-zero multiple of b is at least as far from zero as b. */
  lemma Further(d: int, b: int)
    requires d != 0
    ensures Abs(d * b) >= Abs(b)
  {
    var s: int, t: int := Abs(d), Abs(b);
    MulMono(1, s, t);
    assert d * b == s * t || d * b == -(s * t);
  }

  /** The signs of a truncating division. */
  lemma SignsOfDivision(a: int, b: int, ua: int, ub: int, uq: int, ur: int)
    requires ua == Abs(a) && ub == Abs(b) && uq >= 0 && ur >= 0 && uq * ub + ur == ua && ur < ub
    ensures Truncates(a, b, if (a < 0) != (b < 0) then -uq else uq, if a < 0 then -ur else ur)
    ensures uq <= ua
  {
    assert (-uq) * b == -(uq * b) && uq * (-b) == -(uq * b);
    MulMono(1, ub, uq);
  }

  /** The largest quotient of all needs both operands extreme. */
  lemma OnlyOverflow(a: SQuad, b: SQuad, uq: nat)
    requires b != 0 && uq * Abs(b) <= Abs(a)
    requires uq >= 0x8000_0000_0000_0000 && (a < 0) == (b < 0)
    ensures a == MIN && b == -1 && uq == 0x8000_0000_0000_0000
  {
    MulMono(1, Abs(b), uq);
    if Abs(b) >= 2 { MulMono(2, Abs(b), uq); }
  }

  /** What the signs make of the unsigned quotient is the quotient, unless it wraps around. */
  lemma Quotient(a: SQuad, b: SQuad, q: int, uq: int, ur: int)
    requires b != 0 && uq >= 0 && ur >= 0
    requires Truncates(a, b, if (a < 0) != (b < 0) then -uq else uq, if a < 0 then -ur else ur)
    requires uq < 0x8000_0000_0000_0000 || (a < 0) != (b < 0) ==> q == if (a < 0) != (b < 0) then -uq else uq
    requires uq >= 0x8000_0000_0000_0000 && (a < 0) == (b < 0) ==> a == MIN && b == -1 && q == MIN
    ensures !(a == MIN && b == -1) ==> Truncates(a, b, q, a - q * b)
    ensures a == MIN && b == -1 ==> q == MIN
  {
  }

  lemma RestFits(a: int, b: int, q: int, r: int)
    requires Truncates(a, b, q, r)
    ensures Abs(r) < Abs(b) && (r == 0 || (r < 0 <==> a < 0))
    ensures exists q :: Truncates(a, b, q, r)
  {
  }

  /** __udivdi3. */
  method UDivDi3(a: Quad, b: Quad) returns (q: Quad)
    requires b != 0
    ensures q == a / b
  {
    var rem;
    q, rem := QDivRem(a, b);
    DivisionIs(a, b, q, rem);
  }

  /** __umoddi3. */
  method UModDi3(a: Quad, b: Quad) returns (r: Quad)
    requires b != 0
    ensures r == a % b
  {
    var q;
    q, r := QDivRem(a, b);
    DivisionIs(a, b, q, r);
  }

  lemma DivisionIs(a: int, b: int, q: int, r: int)
    requires b > 0 && a == q * b + r && 0 <= r < b
    ensures a / b == q && a % b == r
  {
    var e := a / b - q;
    assert a == b * (a / b) + a % b;
    DifferenceTimes(a / b, q, 0, b);
    assert e * b == r - a % b;
    if e != 0 { Further(e, b); }
  }

  /**
   __divdi3: the quotient rounded toward zero, for all operands but one pair.  The
   quotient of the least number by -1 wraps around to the least number.
   */
  method DivDi3(a: SQuad, b: SQuad) returns (q: SQuad)
    requires b != 0
    ensures !(a == MIN && b == -1) ==> Truncates(a, b, q, a - q * b)
    ensures a == MIN && b == -1 ==> q == MIN
  {
    hide Unsigned, Negated, Signed, Truncates;
    Negation(a, 0);
    Negation(b, 0);
    var ua: Quad, ub: Quad, neg: bool;
    if a < 0 {
      ua, neg := Negated(Unsigned(a)), true;
    } else {
      ua, neg := a, false;
    }
    if b < 0 {
      ub, neg := Negated(Unsigned(b)), !neg;
    } else {
      ub := b;
    }
    var uq, ur := QDivRem(ua, ub);
    SignsOfDivision(a, b, ua, ub, uq, ur);
    Negation(0, uq);
    if !neg && uq >= 0x8000_0000_0000_0000 {
      OnlyOverflow(a, b, uq);
    }
    q := Signed(if neg then Negated(uq) else uq);
    Quotient(a, b, q, uq, ur);
  }

  /** __moddi3: the remainder that goes with the quotient rounded toward zero, for all operands. */
  method ModDi3(a: SQuad, b: SQuad) returns (r: SQuad)
    requires b != 0
    ensures Abs(r) < Abs(b) && (r == 0 || (r < 0 <==> a < 0))
    ensures exists q :: Truncates(a, b, q, r)
  {
    hide Unsigned, Negated, Signed, Truncates;
    Negation(a, 0);
    Negation(b, 0);
    var ua: Quad, ub: Quad, neg: bool;
    if a < 0 {
      ua, neg := Negated(Unsigned(a)), true;
    } else {
      ua, neg := a, false;
    }
    if b < 0 {
      ub := Negated(Unsigned(b));
    } else {
      ub := b;
    }
    var uq, ur := QDivRem(ua, ub);
    ghost var sq: int := if (a < 0) != (b < 0) then -(uq as int) else uq;
    SignsOfDivision(a, b, ua, ub, uq, ur);
    RestFits(a, b, sq, if a < 0 then -(ur as int) else ur);
    Negation(0, ur);
    r := Signed(if neg then Negated(ur) else ur);
  }

  lemma Agree(a: SQuad, b: SQuad, q: int, r: int)
    requires b != 0 && exists q' :: Truncates(a, b, q', r)
    requires if a == MIN && b == -1 then q == MIN else Truncates(a, b, q, a - q * b)
    ensures a == MIN && b == -1 ==> r == 0
    ensures !(a == MIN && b == -1) ==> a == q * b + r
  {
    var q' :| Truncates(a, b, q', r);
    if !(a == MIN && b == -1) {
      TruncatesUnique(a, b, q, a - q * b, q', r);
    }
  }

  /** The two agree on every pair of operands on which the quotient does not overflow. */
  method DivMod(a: SQuad, b: SQuad) returns (q: SQuad, r: SQuad)
    requires b != 0
    ensures !(a == MIN && b == -1) ==> Truncates(a, b, q, r)
    ensures a == MIN && b == -1 ==> q == MIN && r == 0
    ensures (a - (q * b + r)) % WORD == 0
  {
    q := DivDi3(a, b);
    r := ModDi3(a, b);
    Agree(a, b, q, r);
  }
}
