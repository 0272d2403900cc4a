/** How often a value occurs in a sequence, as Python's `list.count` reports it. */
module Counting {
  function Count<T(==)>(s: seq<T>, x: T): nat {
    if |s| == 0 then 0 else (if s[0] == x then 1 else 0) + Count(s[1..], x)
  }

  lemma CountCons<T>(y: T, rest: seq<T>, x: T)
    ensures Count([y] + rest, x) == (if y == x then 1 else 0) + Count(rest, x)
  {
    assert ([y] + rest)[1..] == rest;
  }

  lemma {:induction false} CountAppend<T>(a: seq<T>, b: seq<T>, x: T)
    ensures Count(a + b, x) == Count(a, x) + Count(b, x)
  {
    if |a| == 0 {
      assert a + b == b;
    } else {
      assert a + b == [a[0]] + (a[1..] + b);
      CountCons(a[0], a[1..] + b, x);
      CountAppend(a[1..], b, x);
    }
  }

  /** The count is the value's multiplicity among the elements. */
  lemma {:induction false} CountIsMultiplicity<T>(s: seq<T>, x: T)
    ensures Count(s, x) == multiset(s)[x]
  {
    if |s| > 0 {
      CountIsMultiplicity(s[1..], x);
      assert s == [s[0]] + s[1..];
    }
  }

  /** A value the sequence does not hold is counted zero times. */
  lemma {:induction false} CountAbsent<T>(s: seq<T>, x: T)
    requires forall j :: 0 <= j < |s| ==> s[j] != x
    ensures Count(s, x) == 0
  {
    if |s| > 0 {
      CountAbsent(s[1..], x);
    }
  }
}
