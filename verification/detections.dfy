/**
 * One detected change region, its severity tier, and the stable sort that
 * orders detections by confidence, highest first.
 */
module Detections {
  import opened Regions

  datatype Severity = Low | Medium | High | Critical

  /** Position of a tier on the scale Low < Medium < High < Critical. */
  function Rank(s: Severity): nat
  {
    match s
    case Low => 0
    case Medium => 1
    case High => 2
    case Critical => 3
  }

  /** The four-tier table on a region's mean index change; each boundary belongs to the more severe tier. */
  function SeverityOf(avgChange: real): (s: Severity)
    ensures s == Critical <==> avgChange <= -0.5
    ensures s == High <==> -0.5 < avgChange <= -0.4
    ensures s == Medium <==> -0.4 < avgChange <= -0.3
    ensures s == Low <==> -0.3 < avgChange
  {
    if avgChange <= -0.5 then Critical
    else if avgChange <= -0.4 then High
    else if avgChange <= -0.3 then Medium
    else Low
  }

  /** A larger drop is never judged less severe. */
  lemma SeverityMonotone(a: real, b: real)
    requires a <= b
    ensures Rank(SeverityOf(b)) <= Rank(SeverityOf(a))
  {
  }

  datatype Detection = Detection(
    id: nat,
    box: Box,
    areaPixels: nat,
    confidence: real,
    avgChange: real,
    severity: Severity)

  predicate NonIncreasing(ds: seq<Detection>)
  {
    forall i, j :: 0 <= i < j < |ds| ==> ds[i].confidence >= ds[j].confidence
  }

  /** Put d in front of the first detection it is at least as confident as. */
  function Insert(d: Detection, ds: seq<Detection>): (r: seq<Detection>)
    ensures multiset(r) == multiset(ds) + multiset{d}
    decreases |ds|
  {
    if |ds| == 0 || d.confidence >= ds[0].confidence then [d] + ds
    else
      assert ds == [ds[0]] + ds[1..];
      [ds[0]] + Insert(d, ds[1..])
  }

  /** Inserting below a bound keeps every confidence below it. */
  lemma {:induction false} InsertBounded(d: Detection, ds: seq<Detection>, bound: real)
    requires d.confidence <= bound
    requires forall i :: 0 <= i < |ds| ==> ds[i].confidence <= bound
    ensures forall i :: 0 <= i < |Insert(d, ds)| ==> Insert(d, ds)[i].confidence <= bound
    decreases |ds|
  {
    if |ds| > 0 && d.confidence < ds[0].confidence {
      InsertBounded(d, ds[1..], bound);
    }
  }

  /** A list stays non-increasing when something at least as confident as all of it goes in front. */
  lemma ConsNonIncreasing(x: Detection, ds: seq<Detection>)
    requires NonIncreasing(ds)
    requires forall i :: 0 <= i < |ds| ==> ds[i].confidence <= x.confidence
    ensures NonIncreasing([x] + ds)
  {
    var r := [x] + ds;
    forall i, j | 0 <= i < j < |r|
      ensures r[i].confidence >= r[j].confidence
    {
      assert r[j] == ds[j - 1];
      if i > 0 {
        assert r[i] == ds[i - 1];
      }
    }
  }

  lemma {:induction false} InsertSorted(d: Detection, ds: seq<Detection>)
    requires NonIncreasing(ds)
    ensures NonIncreasing(Insert(d, ds))
    decreases |ds|
  {
    if |ds| == 0 || d.confidence >= ds[0].confidence {
      ConsNonIncreasing(d, ds);
    } else {
      var tail := ds[1..];
      InsertSorted(d, tail);
      InsertBounded(d, tail, ds[0].confidence);
      ConsNonIncreasing(ds[0], Insert(d, tail));
    }
  }

  /**
   * list.sort(key=confidence, reverse=True): a stable insertion sort, so
   * detections of equal confidence keep their input order.
   */
  function SortByConfidence(ds: seq<Detection>): (r: seq<Detection>)
    ensures NonIncreasing(r)
    ensures multiset(r) == multiset(ds)
    decreases |ds|
  {
    if |ds| == 0 then []
    else
      assert ds == [ds[0]] + ds[1..];
      InsertSorted(ds[0], SortByConfidence(ds[1..]));
      Insert(ds[0], SortByConfidence(ds[1..]))
  }

  /** Sorting neither adds nor drops a detection. */
  lemma SortSameElements(ds: seq<Detection>)
    ensures forall d :: d in SortByConfidence(ds) <==> d in ds
  {
    var r := SortByConfidence(ds);
    forall d
      ensures d in r <==> d in ds
    {
      assert d in r <==> d in multiset(r);
      assert d in ds <==> d in multiset(ds);
    }
  }

  /** a comes before b in the sorted list: more confident, or equally confident with the smaller id. */
  predicate Before(a: Detection, b: Detection)
  {
    a.confidence > b.confidence || (a.confidence == b.confidence && a.id < b.id)
  }

  predicate StrictlyOrdered(ds: seq<Detection>)
  {
    forall i, j :: 0 <= i < j < |ds| ==> Before(ds[i], ds[j])
  }

  predicate IdsIncreasing(ds: seq<Detection>)
  {
    forall i, j :: 0 <= i < j < |ds| ==> ds[i].id < ds[j].id
  }

  lemma {:induction false} InsertOrdered(d: Detection, ds: seq<Detection>)
    requires StrictlyOrdered(ds)
    requires forall x :: x in ds ==> d.id < x.id
    ensures StrictlyOrdered(Insert(d, ds))
    decreases |ds|
  {
    var r := Insert(d, ds);
    if |ds| == 0 || d.confidence >= ds[0].confidence {
      forall j | 0 < j < |r|
        ensures Before(r[0], r[j])
      {
        assert r[j] == ds[j - 1];
        assert ds[0].confidence >= ds[j - 1].confidence;
      }
    } else {
      InsertOrdered(d, ds[1..]);
      HeadBeforeInserted(d, ds);
      ConsOrdered(ds[0], Insert(d, ds[1..]));
    }
  }

  /** The head of an ordered list comes before everything inserted behind it. */
  lemma HeadBeforeInserted(d: Detection, ds: seq<Detection>)
    requires |ds| > 0 && d.confidence < ds[0].confidence && StrictlyOrdered(ds)
    ensures forall x :: x in Insert(d, ds[1..]) ==> Before(ds[0], x)
  {
    var rest := Insert(d, ds[1..]);
    forall x | x in rest
      ensures Before(ds[0], x)
    {
      assert x in multiset(rest);
      if x != d {
        var j :| 0 <= j < |ds[1..]| && ds[1..][j] == x;
        assert x == ds[j + 1];
      }
    }
  }

  /** An ordered list behind a head that precedes all of it is ordered. */
  lemma ConsOrdered(h: Detection, rest: seq<Detection>)
    requires StrictlyOrdered(rest)
    requires forall x :: x in rest ==> Before(h, x)
    ensures StrictlyOrdered([h] + rest)
  {
    var r := [h] + rest;
    forall i, j | 0 <= i < j < |r|
      ensures Before(r[i], r[j])
    {
      if i == 0 {
        assert r[j] == rest[j - 1];
        assert r[j] in rest;
      } else {
        assert r[i] == rest[i - 1] && r[j] == rest[j - 1];
      }
    }
  }

  /**
   * Stability: when the input is in increasing id order (labels visited
   * 1..n), equal confidences end up in increasing id order.
   */
  lemma {:induction false} SortStable(ds: seq<Detection>)
    requires IdsIncreasing(ds)
    ensures StrictlyOrdered(SortByConfidence(ds))
    decreases |ds|
  {
    if |ds| > 0 {
      var tail := ds[1..];
      assert IdsIncreasing(tail);
      SortStable(tail);
      var sorted := SortByConfidence(tail);
      forall x | x in sorted
        ensures ds[0].id < x.id
      {
        assert x in multiset(sorted);
        assert x in tail;
        var j :| 0 <= j < |tail| && tail[j] == x;
        assert x == ds[j + 1];
      }
      InsertOrdered(ds[0], sorted);
    }
  }

  /** A sorted list holds no two detections with the same id when the input held none. */
  lemma SortKeepsIdsDistinct(ds: seq<Detection>)
    requires IdsIncreasing(ds)
    ensures forall i, j :: 0 <= i < j < |SortByConfidence(ds)| ==> SortByConfidence(ds)[i].id != SortByConfidence(ds)[j].id
  {
    var r := SortByConfidence(ds);
    forall i, j | 0 <= i < j < |r|
      ensures r[i].id != r[j].id
    {
      assert r[i] in multiset(ds) && r[j] in multiset(ds);
      var a :| 0 <= a < |ds| && ds[a] == r[i];
      var b :| 0 <= b < |ds| && ds[b] == r[j];
      if a == b {
        assert r[i] == r[j];
        MultisetTwice(r, i, j);
        assert multiset(ds)[r[i]] >= 2;
        OnceInIncreasing(ds, a);
        assert false;
      }
    }
  }

  lemma MultisetTwice(r: seq<Detection>, i: nat, j: nat)
    requires i < j < |r| && r[i] == r[j]
    ensures multiset(r)[r[i]] >= 2
  {
    assert r == r[..i] + [r[i]] + r[i + 1..j] + [r[j]] + r[j + 1..];
  }

  lemma {:induction false} OnceInIncreasing(ds: seq<Detection>, a: nat)
    requires IdsIncreasing(ds) && a < |ds|
    ensures multiset(ds)[ds[a]] == 1
  {
    var x := ds[a];
    assert ds == ds[..a] + [x] + ds[a + 1..];
    assert x !in ds[..a] by {
      forall i | 0 <= i < a
        ensures ds[..a][i] != x
      {
        assert ds[i].id < x.id;
      }
    }
    assert x !in ds[a + 1..] by {
      forall i | a + 1 <= i < |ds|
        ensures ds[i] != x
      {
        assert ds[i].id > x.id;
      }
    }
  }
}
