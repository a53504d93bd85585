/**
 * What the change detector reads off one labelled region: its pixel count,
 * the sum of a value raster over it, and its inclusive bounding box.
 */
module Regions {
  import opened Grids

  /** Inclusive pixel bounding box. */
  datatype Box = Box(minRow: int, maxRow: int, minCol: int, maxCol: int)

  /** Label k occurs somewhere in the raster. */
  predicate Occurs(labels: seq<seq<nat>>, k: nat)
  {
    exists r :: 0 <= r < |labels| && k in labels[r]
  }

  /** Number of pixels labelled k: np.sum(labeled_mask == k). */
  function Area(labels: seq<seq<nat>>, k: nat): (n: nat)
    ensures n <= Size(labels)
    ensures n == |Cells(labels, k)|
  {
    CountGridCells(labels, k);
    CountGrid(labels, k)
  }

  /** A label has pixels exactly when it occurs. */
  lemma AreaPositive(labels: seq<seq<nat>>, k: nat)
    ensures Area(labels, k) > 0 <==> Occurs(labels, k)
  {
    CountGridZero(labels, k);
  }

  function SumRow(lab: seq<nat>, vals: seq<real>, k: nat): real
    requires |lab| == |vals|
  {
    if |lab| == 0 then 0.0 else (if lab[0] == k then vals[0] else 0.0) + SumRow(lab[1..], vals[1..], k)
  }

  /** Sum of vals over the pixels labelled k. */
  function SumOver(labels: seq<seq<nat>>, vals: seq<seq<real>>, k: nat): real
    requires SameShape(labels, vals)
  {
    if |labels| == 0 then 0.0 else SumRow(labels[0], vals[0], k) + SumOver(labels[1..], vals[1..], k)
  }

  /** The sum over region k of the constant v. */
  function ConstRow(lab: seq<nat>, k: nat, v: real): real
  {
    if |lab| == 0 then 0.0 else (if lab[0] == k then v else 0.0) + ConstRow(lab[1..], k, v)
  }

  function ConstOver(labels: seq<seq<nat>>, k: nat, v: real): real
  {
    if |labels| == 0 then 0.0 else ConstRow(labels[0], k, v) + ConstOver(labels[1..], k, v)
  }

  /** n copies of v added up. */
  function Scale(n: nat, v: real): real
  {
    (n as real) * v
  }

  lemma AddScaled(a: nat, b: nat, v: real)
    ensures Scale(a, v) + Scale(b, v) == Scale(a + b, v)
  {
    assert (a as real + b as real) * v == (a as real) * v + (b as real) * v;
  }

  lemma {:induction false} ConstRowIs(lab: seq<nat>, k: nat, v: real)
    ensures ConstRow(lab, k, v) == Scale(CountIn(lab, k), v)
  {
    if |lab| > 0 {
      ConstRowIs(lab[1..], k, v);
      AddScaled(if lab[0] == k then 1 else 0, CountIn(lab[1..], k), v);
    }
  }

  lemma {:induction false} ConstOverIs(labels: seq<seq<nat>>, k: nat, v: real)
    ensures ConstOver(labels, k, v) == Scale(CountGrid(labels, k), v)
  {
    if |labels| > 0 {
      ConstRowIs(labels[0], k, v);
      ConstOverIs(labels[1..], k, v);
      AddScaled(CountIn(labels[0], k), CountGrid(labels[1..], k), v);
    }
  }

  /** Dividing both sides of n * x <= s <= n * y by a positive count n. */
  lemma DivideBounds(s: real, n: nat, x: real, y: real)
    requires n > 0 && Scale(n, x) <= s <= Scale(n, y)
    ensures x <= s / (n as real) <= y
  {
    var a := n as real;
    var q := s / a;
    assert q * a == s;
    assert (q - x) * a == s - a * x;
    assert (y - q) * a == a * y - s;
  }

  lemma {:induction false} SumRowBounds(lab: seq<nat>, vals: seq<real>, k: nat, lo: real, hi: real)
    requires |lab| == |vals|
    requires forall i :: 0 <= i < |lab| && lab[i] == k ==> lo <= vals[i] <= hi
    ensures ConstRow(lab, k, lo) <= SumRow(lab, vals, k) <= ConstRow(lab, k, hi)
  {
    if |lab| > 0 {
      SumRowBounds(lab[1..], vals[1..], k, lo, hi);
    }
  }

  lemma {:induction false} SumOverConstBounds(labels: seq<seq<nat>>, vals: seq<seq<real>>, k: nat, lo: real, hi: real)
    requires SameShape(labels, vals)
    requires forall r, c :: 0 <= r < |labels| && 0 <= c < |labels[r]| && labels[r][c] == k ==> lo <= vals[r][c] <= hi
    ensures ConstOver(labels, k, lo) <= SumOver(labels, vals, k) <= ConstOver(labels, k, hi)
  {
    if |labels| > 0 {
      SumRowBounds(labels[0], vals[0], k, lo, hi);
      assert SameShape(labels[1..], vals[1..]);
      SumOverConstBounds(labels[1..], vals[1..], k, lo, hi);
    }
  }

  /**
   * When every pixel of region k has a value in [lo, hi], the region's sum lies
   * between area * lo and area * hi.
   */
  lemma SumOverBounds(labels: seq<seq<nat>>, vals: seq<seq<real>>, k: nat, lo: real, hi: real)
    requires SameShape(labels, vals)
    requires forall r, c :: 0 <= r < |labels| && 0 <= c < |labels[r]| && labels[r][c] == k ==> lo <= vals[r][c] <= hi
    ensures Scale(Area(labels, k), lo) <= SumOver(labels, vals, k) <= Scale(Area(labels, k), hi)
  {
    SumOverConstBounds(labels, vals, k, lo, hi);
    ConstOverIs(labels, k, lo);
    ConstOverIs(labels, k, hi);
  }

  /** Mean of vals over region k (np.mean over the region's pixels). */
  function Mean(labels: seq<seq<nat>>, vals: seq<seq<real>>, k: nat): (m: real)
    requires SameShape(labels, vals) && Occurs(labels, k)
    ensures m * (Area(labels, k) as real) == SumOver(labels, vals, k)
  {
    AreaPositive(labels, k);
    SumOver(labels, vals, k) / (Area(labels, k) as real)
  }

  /** The mean of a region lies between the least and greatest value on it. */
  lemma MeanBounds(labels: seq<seq<nat>>, vals: seq<seq<real>>, k: nat, lo: real, hi: real)
    requires SameShape(labels, vals) && Occurs(labels, k)
    requires forall r, c :: 0 <= r < |labels| && 0 <= c < |labels[r]| && labels[r][c] == k ==> lo <= vals[r][c] <= hi
    ensures lo <= Mean(labels, vals, k) <= hi
  {
    var n := Area(labels, k);
    AreaPositive(labels, k);
    SumOverBounds(labels, vals, k, lo, hi);
    DivideBounds(SumOver(labels, vals, k), n, lo, hi);
    assert Mean(labels, vals, k) == SumOver(labels, vals, k) / (n as real);
  }

  predicate LabelIn(labels: seq<seq<nat>>, r: int, c: int, k: nat)
  {
    0 <= r < |labels| && 0 <= c < |labels[r]| && labels[r][c] == k
  }

  /** Column c holds label k in some row. */
  predicate ColumnHas(labels: seq<seq<nat>>, c: int, k: nat)
  {
    exists r | 0 <= r < |labels| :: LabelIn(labels, r, c, k)
  }

  function FirstRow(labels: seq<seq<nat>>, k: nat, from: nat): (r: nat)
    requires exists r :: from <= r < |labels| && k in labels[r]
    ensures from <= r < |labels| && k in labels[r]
    ensures forall r' :: from <= r' < r ==> k !in labels[r']
    decreases |labels| - from
  {
    if k in labels[from] then from else FirstRow(labels, k, from + 1)
  }

  function LastRow(labels: seq<seq<nat>>, k: nat, upto: nat): (r: nat)
    requires upto <= |labels|
    requires exists r :: 0 <= r < upto && k in labels[r]
    ensures r < upto && k in labels[r]
    ensures forall r' :: r < r' < upto ==> k !in labels[r']
    decreases upto
  {
    if k in labels[upto - 1] then upto - 1 else LastRow(labels, k, upto - 1)
  }

  function FirstCol(labels: seq<seq<nat>>, k: nat, from: nat, w: nat): (c: nat)
    requires exists c :: from <= c < w && ColumnHas(labels, c, k)
    ensures from <= c < w && ColumnHas(labels, c, k)
    ensures forall c' :: from <= c' < c ==> !ColumnHas(labels, c', k)
    decreases w - from
  {
    if ColumnHas(labels, from, k) then from else FirstCol(labels, k, from + 1, w)
  }

  function LastCol(labels: seq<seq<nat>>, k: nat, upto: nat): (c: nat)
    requires exists c :: 0 <= c < upto && ColumnHas(labels, c, k)
    ensures c < upto && ColumnHas(labels, c, k)
    ensures forall c' :: c < c' < upto ==> !ColumnHas(labels, c', k)
    decreases upto
  {
    if ColumnHas(labels, upto - 1, k) then upto - 1 else LastCol(labels, k, upto - 1)
  }

  /** The box encloses every pixel labelled k. */
  ghost predicate Encloses(labels: seq<seq<nat>>, k: nat, b: Box)
  {
    forall r, c :: LabelIn(labels, r, c, k) ==> b.minRow <= r <= b.maxRow && b.minCol <= c <= b.maxCol
  }

  /**
   * min/max of the row and column indices of region k (np.where followed by
   * np.min and np.max): the smallest box that encloses it.
   */
  function BoundingBox(labels: seq<seq<nat>>, k: nat, w: nat): (b: Box)
    requires IsGrid(labels, |labels|, w) && Occurs(labels, k)
    ensures 0 <= b.minRow <= b.maxRow < |labels|
    ensures 0 <= b.minCol <= b.maxCol < w
    ensures Encloses(labels, k, b)
    ensures k in labels[b.minRow] && k in labels[b.maxRow]
    ensures ColumnHas(labels, b.minCol, k) && ColumnHas(labels, b.maxCol, k)
  {
    var r :| 0 <= r < |labels| && k in labels[r];
    var c :| 0 <= c < |labels[r]| && labels[r][c] == k;
    assert ColumnHas(labels, c, k) by { assert LabelIn(labels, r, c, k); }
    var top := FirstRow(labels, k, 0);
    var bottom := LastRow(labels, k, |labels|);
    var left := FirstCol(labels, k, 0, w);
    var right := LastCol(labels, k, w);
    var b := Box(top, bottom, left, right);
    assert Encloses(labels, k, b) by {
      forall r', c' | LabelIn(labels, r', c', k)
        ensures top <= r' <= bottom && left <= c' <= right
      {
        assert k in labels[r'];
        assert ColumnHas(labels, c', k);
      }
    }
    b
  }

  lemma {:induction false} CountInWindow(s: seq<nat>, k: nat, a: int, b: int)
    requires 0 <= a
    requires forall i :: 0 <= i < |s| && s[i] == k ==> a <= i <= b
    ensures CountIn(s, k) <= if b < a then 0 else b - a + 1
  {
    CountInZero(s, k);
    if b < a {
      assert k !in s;
    } else if |s| > 0 {
      var t := s[1..];
      assert forall i :: 0 <= i < |t| && t[i] == k ==> a - 1 <= i <= b - 1 by {
        forall i | 0 <= i < |t| && t[i] == k
          ensures a - 1 <= i <= b - 1
        {
          assert s[i + 1] == k;
        }
      }
      if a > 0 {
        CountInWindow(t, k, a - 1, b - 1);
      } else {
        CountInWindow(t, k, 0, b - 1);
      }
    }
  }

  lemma {:induction false} CountGridWindow(g: seq<seq<nat>>, k: nat, r0: int, r1: int, c0: nat, c1: int)
    requires 0 <= r0 && c0 <= c1 + 1
    requires forall r, c :: LabelIn(g, r, c, k) ==> r0 <= r <= r1 && c0 <= c <= c1
    ensures CountGrid(g, k) <= (if r1 < r0 then 0 else r1 - r0 + 1) * (c1 - c0 + 1)
  {
    var w := c1 - c0 + 1;
    if r1 < r0 {
      EmptyWindow(g, k, r0, r1, c0, c1);
    } else if |g| > 0 {
      var t := g[1..];
      WindowBelowFirstRow(g, k, r0, r1, c0, c1);
      FirstRowWindow(g, k, r0, r1, c0, c1);
      if r0 > 0 {
        CountGridWindow(t, k, r0 - 1, r1 - 1, c0, c1);
      } else {
        CountGridWindow(t, k, 0, r1 - 1, c0, c1);
        assert (r1 + 1) * w == w + r1 * w;
      }
    }
  }

  /** An empty row window holds no cell labelled k. */
  lemma EmptyWindow(g: seq<seq<nat>>, k: nat, r0: int, r1: int, c0: nat, c1: int)
    requires r1 < r0
    requires forall r, c :: LabelIn(g, r, c, k) ==> r0 <= r <= r1 && c0 <= c <= c1
    ensures CountGrid(g, k) == 0
  {
    CountGridZero(g, k);
    forall r | 0 <= r < |g|
      ensures k !in g[r]
    {
      forall c | 0 <= c < |g[r]|
        ensures g[r][c] != k
      {
        assert LabelIn(g, r, c, k) ==> r0 <= r <= r1;
      }
    }
  }

  /** Dropping the first row moves the window up by one row. */
  lemma WindowBelowFirstRow(g: seq<seq<nat>>, k: nat, r0: int, r1: int, c0: nat, c1: int)
    requires |g| > 0
    requires forall r, c :: LabelIn(g, r, c, k) ==> r0 <= r <= r1 && c0 <= c <= c1
    ensures forall r, c :: LabelIn(g[1..], r, c, k) ==> r0 - 1 <= r <= r1 - 1 && c0 <= c <= c1
  {
    var t := g[1..];
    forall r, c | LabelIn(t, r, c, k)
      ensures r0 - 1 <= r <= r1 - 1 && c0 <= c <= c1
    {
      assert LabelIn(g, r + 1, c, k);
    }
  }

  /** The first row holds at most one window width of k, and none when the window starts lower. */
  lemma FirstRowWindow(g: seq<seq<nat>>, k: nat, r0: int, r1: int, c0: nat, c1: int)
    requires |g| > 0 && 0 <= r0 && c0 <= c1 + 1
    requires forall r, c :: LabelIn(g, r, c, k) ==> r0 <= r <= r1 && c0 <= c <= c1
    ensures CountIn(g[0], k) <= (if r0 == 0 then c1 - c0 + 1 else 0)
  {
    forall i | 0 <= i < |g[0]| && g[0][i] == k
      ensures r0 == 0 && c0 <= i <= c1
    {
      assert LabelIn(g, 0, i, k);
    }
    CountInWindow(g[0], k, c0, c1);
    if r0 > 0 {
      CountInZero(g[0], k);
      assert k !in g[0];
    }
  }

  /** A region has no more pixels than its bounding box has cells. */
  lemma AreaWithinBox(labels: seq<seq<nat>>, k: nat, w: nat)
    requires IsGrid(labels, |labels|, w) && Occurs(labels, k)
    ensures var b := BoundingBox(labels, k, w);
      Area(labels, k) <= (b.maxRow - b.minRow + 1) * (b.maxCol - b.minCol + 1)
  {
    var b := BoundingBox(labels, k, w);
    CountGridWindow(labels, k, b.minRow, b.maxRow, b.minCol, b.maxCol);
  }
}
