/**
 Move-to-front lists: the order in which the buffer list, and the reference
 model of recency, are kept.
 */
module Recency {

  ghost predicate NoDup<T(!new)>(s: seq<T>) {
    forall p, q :: 0 <= p < q < |s| ==> s[p] != s[q]
  }

  /** The sequence without the first occurrence of an element. */
  function Remove<T(==,!new)>(s: seq<T>, x: T): (r: seq<T>)
    ensures |r| == if x in s then |s| - 1 else |s|
    ensures forall y :: y in r ==> y in s
    ensures forall y :: y in s && y != x ==> y in r
  {
    if s == [] then []
    else if s[0] == x then s[1..]
    else
      var r := [s[0]] + Remove(s[1..], x);
      assert forall y :: y in s ==> y == s[0] || y in s[1..];
      r
  }

  /** The element becomes the first; the others keep their relative order. */
  function MoveToFront<T(==,!new)>(s: seq<T>, x: T): (r: seq<T>)
    ensures forall y :: y in r <==> y in s || y == x
    ensures |r| == if x in s then |s| else |s| + 1
  {
    [x] + Remove(s, x)
  }

  lemma {:induction false} RemoveAt<T(!new)>(s: seq<T>, p: nat)
    requires NoDup(s) && p < |s|
    ensures Remove(s, s[p]) == s[..p] + s[p + 1..]
  {
    if p > 0 {
      assert s[0] != s[p];
      RemoveAt(s[1..], p - 1);
      assert s[1..][..p - 1] == s[1..p];
      assert s[..p] == [s[0]] + s[1..p];
      assert s[1..][p..] == s[p + 1..];
    }
  }

  lemma {:induction false} RemoveAbsent<T(!new)>(s: seq<T>, x: T)
    requires x !in s
    ensures Remove(s, x) == s
  {
    if s != [] {
      RemoveAbsent(s[1..], x);
    }
  }

  lemma {:induction false} RemoveKeepsNoDup<T(!new)>(s: seq<T>, x: T)
    requires NoDup(s)
    ensures NoDup(Remove(s, x))
    ensures x !in Remove(s, x)
  {
    if x in s {
      var p :| 0 <= p < |s| && s[p] == x;
      RemoveAt(s, p);
    } else {
      RemoveAbsent(s, x);
    }
  }

  lemma MoveToFrontKeepsNoDup<T(!new)>(s: seq<T>, x: T)
    requires NoDup(s)
    ensures NoDup(MoveToFront(s, x))
  {
    RemoveKeepsNoDup(s, x);
  }

  /** The elements before position p move back by one place; the others stay. */
  lemma MoveToFrontAt<T(!new)>(s: seq<T>, p: nat)
    requires NoDup(s) && p < |s|
    ensures var r := MoveToFront(s, s[p]);
            && |r| == |s| && r[0] == s[p]
            && (forall q :: 1 <= q <= p ==> r[q] == s[q - 1])
            && (forall q :: p < q < |s| ==> r[q] == s[q])
  {
    hide Remove;
    RemoveAt(s, p);
    var r := MoveToFront(s, s[p]);
    assert r == [s[p]] + (s[..p] + s[p + 1..]);
    assert r[1..] == s[..p] + s[p + 1..];
  }
}
