/**
 * The median of a 3x3 window, as cv2.medianBlur with aperture 3 takes it:
 * the fifth smallest of the nine values.
 */
module Median {

  predicate Ascending(s: seq<real>)
  {
    forall i, j :: 0 <= i < j < |s| ==> s[i] <= s[j]
  }

  /** Put x in front of the first value it does not exceed. */
  function InsertReal(x: real, s: seq<real>): (r: seq<real>)
    ensures multiset(r) == multiset(s) + multiset{x}
    decreases |s|
  {
    if |s| == 0 || x <= s[0] then [x] + s
    else
      assert s == [s[0]] + s[1..];
      [s[0]] + InsertReal(x, s[1..])
  }

  /** Inserting above a bound keeps every value above it. */
  lemma {:induction false} InsertBounded(x: real, s: seq<real>, bound: real)
    requires bound <= x
    requires forall i :: 0 <= i < |s| ==> bound <= s[i]
    ensures forall i :: 0 <= i < |InsertReal(x, s)| ==> bound <= InsertReal(x, s)[i]
    decreases |s|
  {
    if |s| > 0 && x > s[0] {
      InsertBounded(x, s[1..], bound);
    }
  }

  /** A list stays ascending when a value at most all of it goes in front. */
  lemma ConsAscending(x: real, s: seq<real>)
    requires Ascending(s)
    requires forall i :: 0 <= i < |s| ==> x <= s[i]
    ensures Ascending([x] + s)
  {
    var r := [x] + s;
    forall i, j | 0 <= i < j < |r|
      ensures r[i] <= r[j]
    {
      assert r[j] == s[j - 1];
      if i > 0 {
        assert r[i] == s[i - 1];
      }
    }
  }

  lemma {:induction false} InsertAscending(x: real, s: seq<real>)
    requires Ascending(s)
    ensures Ascending(InsertReal(x, s))
    decreases |s|
  {
    if |s| == 0 || x <= s[0] {
      ConsAscending(x, s);
    } else {
      var tail := s[1..];
      InsertAscending(x, tail);
      InsertBounded(x, tail, s[0]);
      ConsAscending(s[0], InsertReal(x, tail));
    }
  }

  function SortReals(s: seq<real>): (r: seq<real>)
    ensures Ascending(r)
    ensures multiset(r) == multiset(s)
    decreases |s|
  {
    if |s| == 0 then []
    else
      assert s == [s[0]] + s[1..];
      InsertAscending(s[0], SortReals(s[1..]));
      InsertReal(s[0], SortReals(s[1..]))
  }

  /** Number of values at most m. */
  function CountAtMost(s: seq<real>, m: real): (n: nat)
    ensures n <= |s|
  {
    if |s| == 0 then 0 else (if s[0] <= m then 1 else 0) + CountAtMost(s[1..], m)
  }

  /** Number of values at least m. */
  function CountAtLeast(s: seq<real>, m: real): (n: nat)
    ensures n <= |s|
  {
    if |s| == 0 then 0 else (if s[0] >= m then 1 else 0) + CountAtLeast(s[1..], m)
  }

  lemma {:induction false} CountsAppend(a: seq<real>, b: seq<real>, m: real)
    ensures CountAtMost(a + b, m) == CountAtMost(a, m) + CountAtMost(b, m)
    ensures CountAtLeast(a + b, m) == CountAtLeast(a, m) + CountAtLeast(b, m)
    decreases |a|
  {
    if |a| == 0 {
      assert a + b == b;
    } else {
      assert (a + b)[0] == a[0];
      assert (a + b)[1..] == a[1..] + b;
      CountsAppend(a[1..], b, m);
    }
  }

  /** Removing position i from b. */
  function Without(b: seq<real>, i: nat): (r: seq<real>)
    requires i < |b|
    ensures |r| == |b| - 1
    ensures multiset(r) == multiset(b) - multiset{b[i]}
  {
    assert b == b[..i] + [b[i]] + b[i + 1..];
    b[..i] + b[i + 1..]
  }

  lemma CountsWithout(b: seq<real>, i: nat, m: real)
    requires i < |b|
    ensures CountAtMost(b, m) == (if b[i] <= m then 1 else 0) + CountAtMost(Without(b, i), m)
    ensures CountAtLeast(b, m) == (if b[i] >= m then 1 else 0) + CountAtLeast(Without(b, i), m)
  {
    var x := b[i];
    assert b == b[..i] + ([x] + b[i + 1..]);
    CountsAppend(b[..i], [x] + b[i + 1..], m);
    CountsAppend([x], b[i + 1..], m);
    CountsAppend(b[..i], b[i + 1..], m);
  }

  /** Both counts depend only on the multiset of values. */
  lemma {:induction false} CountsPermutation(a: seq<real>, b: seq<real>, m: real)
    requires multiset(a) == multiset(b)
    ensures CountAtMost(a, m) == CountAtMost(b, m)
    ensures CountAtLeast(a, m) == CountAtLeast(b, m)
    decreases |a|
  {
    if |a| == 0 {
      assert |b| == |multiset(b)| == 0;
    } else {
      var x := a[0];
      assert x in multiset(b);
      var i :| 0 <= i < |b| && b[i] == x;
      assert a == [x] + a[1..];
      assert multiset(a[1..]) == multiset(a) - multiset{x};
      CountsPermutation(a[1..], Without(b, i), m);
      CountsWithout(b, i, m);
    }
  }

  lemma {:induction false} CountsOfAscending(s: seq<real>, k: nat)
    requires Ascending(s) && k < |s|
    ensures CountAtMost(s, s[k]) >= k + 1
    ensures CountAtLeast(s, s[k]) >= |s| - k
  {
    assert s == s[..k + 1] + s[k + 1..];
    assert s == s[..k] + s[k..];
    CountsAppend(s[..k + 1], s[k + 1..], s[k]);
    CountsAppend(s[..k], s[k..], s[k]);
    AllAtMost(s[..k + 1], s[k]);
    AllAtLeast(s[k..], s[k]);
  }

  lemma {:induction false} AllAtMost(s: seq<real>, m: real)
    requires forall i :: 0 <= i < |s| ==> s[i] <= m
    ensures CountAtMost(s, m) == |s|
    decreases |s|
  {
    if |s| > 0 {
      AllAtMost(s[1..], m);
    }
  }

  lemma {:induction false} AllAtLeast(s: seq<real>, m: real)
    requires forall i :: 0 <= i < |s| ==> s[i] >= m
    ensures CountAtLeast(s, m) == |s|
    decreases |s|
  {
    if |s| > 0 {
      AllAtLeast(s[1..], m);
    }
  }

  /**
   * The median of nine values: one of them, with at least five values at
   * most it and at least five at least it.
   */
  function MedianOf9(s: seq<real>): (m: real)
    requires |s| == 9
    ensures m in s
    ensures CountAtMost(s, m) >= 5 && CountAtLeast(s, m) >= 5
  {
    var sorted := SortReals(s);
    assert |sorted| == |multiset(sorted)| == 9;
    assert sorted[4] in multiset(s);
    CountsOfAscending(sorted, 4);
    CountsPermutation(sorted, s, sorted[4]);
    sorted[4]
  }

  /** Only one value has the median's two rank properties, so they define it. */
  lemma MedianUnique(s: seq<real>, v: real)
    requires |s| == 9 && CountAtMost(s, v) >= 5 && CountAtLeast(s, v) >= 5
    ensures v == MedianOf9(s)
  {
    var m := MedianOf9(s);
    if v < m {
      CountsSplit(s, v, m);
    } else if m < v {
      CountsSplit(s, m, v);
    }
  }

  /** Below two distinct values a and b the counts "at most a" and "at least b" cannot overlap. */
  lemma {:induction false} CountsSplit(s: seq<real>, a: real, b: real)
    requires a < b
    ensures CountAtMost(s, a) + CountAtLeast(s, b) <= |s|
    decreases |s|
  {
    if |s| > 0 {
      CountsSplit(s[1..], a, b);
    }
  }

  /** The median lies between the smallest and the largest value. */
  lemma MedianBetween(s: seq<real>, lo: real, hi: real)
    requires |s| == 9 && forall i :: 0 <= i < 9 ==> lo <= s[i] <= hi
    ensures lo <= MedianOf9(s) <= hi
  {
  }

  /** Nine equal values have that value as median. */
  lemma MedianConstant(s: seq<real>, v: real)
    requires |s| == 9 && forall i :: 0 <= i < 9 ==> s[i] == v
    ensures MedianOf9(s) == v
  {
  }
}
