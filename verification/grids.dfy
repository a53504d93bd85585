/**
 * Rasters as nested sequences, indexed [row][col] the way numpy indexes a
 * 2-D array, with the counting and clipping helpers the pipeline shares.
 */
module Grids {

  /** A pixel position, row first. */
  datatype Pixel = Pixel(row: int, col: int)

  /** g is an h x w raster; numpy 2-D arrays are always rectangular. */
  predicate IsGrid<T>(g: seq<seq<T>>, h: nat, w: nat)
  {
    |g| == h && forall r :: 0 <= r < h ==> |g[r]| == w
  }

  /** The width of a raster, read off its first row (0 when it has no rows). */
  function Width<T>(g: seq<seq<T>>): nat
  {
    if |g| == 0 then 0 else |g[0]|
  }

  predicate Rectangular<T>(g: seq<seq<T>>)
  {
    IsGrid(g, |g|, Width(g))
  }

  predicate SameShape<S, T>(a: seq<seq<S>>, b: seq<seq<T>>)
  {
    |a| == |b| && forall r :: 0 <= r < |a| ==> |a[r]| == |b[r]|
  }

  predicate InBounds<T>(g: seq<seq<T>>, p: Pixel)
  {
    0 <= p.row < |g| && 0 <= p.col < |g[p.row]|
  }

  /** numpy.clip on one value. */
  function Clip(x: real, lo: real, hi: real): (r: real)
    requires lo <= hi
    ensures lo <= r <= hi
    ensures lo <= x <= hi ==> r == x
    ensures x < lo ==> r == lo
    ensures hi < x ==> r == hi
  {
    if x < lo then lo else if hi < x then hi else x
  }

  /** A product with a positive factor is non-positive only when the other factor is. */
  lemma NonPositiveFactor(x: real, t: real)
    requires t > 0.0 && x * t <= 0.0
    ensures x <= 0.0
  {
  }

  /** Number of cells of a raster (numpy's `size`). */
  function Size<T>(g: seq<seq<T>>): nat
  {
    if |g| == 0 then 0 else |g[0]| + Size(g[1..])
  }

  lemma {:induction false} SizeOfGrid<T>(g: seq<seq<T>>, h: nat, w: nat)
    requires IsGrid(g, h, w)
    ensures Size(g) == h * w
    decreases h
  {
    if h > 0 {
      assert IsGrid(g[1..], h - 1, w);
      SizeOfGrid(g[1..], h - 1, w);
      assert h * w == w + (h - 1) * w;
    }
  }

  /** Occurrences of v in one row. */
  function CountIn<T(==)>(s: seq<T>, v: T): (n: nat)
    ensures n <= |s|
  {
    if |s| == 0 then 0 else (if s[0] == v then 1 else 0) + CountIn(s[1..], v)
  }

  /** A value is counted zero times exactly when it does not occur. */
  lemma {:induction false} CountInZero<T>(s: seq<T>, v: T)
    ensures CountIn(s, v) == 0 <==> v !in s
  {
    if |s| > 0 {
      CountInZero(s[1..], v);
      assert v in s <==> s[0] == v || v in s[1..];
    }
  }

  lemma {:induction false} CountInAppend<T>(a: seq<T>, b: seq<T>, v: T)
    ensures CountIn(a + b, v) == CountIn(a, v) + CountIn(b, v)
  {
    if |a| > 0 {
      assert (a + b)[1..] == a[1..] + b;
      CountInAppend(a[1..], b, v);
    } else {
      assert a + b == b;
    }
  }

  lemma {:induction false} CountInAll<T>(s: seq<T>, v: T)
    requires forall i :: 0 <= i < |s| ==> s[i] == v
    ensures CountIn(s, v) == |s|
  {
    if |s| > 0 {
      CountInAll(s[1..], v);
    }
  }

  /** Occurrences of v over a whole raster; np.sum of a 0/1 mask is CountGrid(mask, true). */
  function CountGrid<T(==)>(g: seq<seq<T>>, v: T): (n: nat)
    ensures n <= Size(g)
  {
    if |g| == 0 then 0 else CountIn(g[0], v) + CountGrid(g[1..], v)
  }

  lemma {:induction false} CountGridZero<T>(g: seq<seq<T>>, v: T)
    ensures CountGrid(g, v) == 0 <==> forall r :: 0 <= r < |g| ==> v !in g[r]
  {
    if |g| > 0 {
      CountInZero(g[0], v);
      CountGridZero(g[1..], v);
      assert forall r :: 1 <= r < |g| ==> g[1..][r - 1] == g[r];
    }
  }

  /** The cells of g holding v, as positions. */
  function Cells<T(==)>(g: seq<seq<T>>, v: T): set<Pixel>
  {
    set r, c | 0 <= r < |g| && 0 <= c < |g[r]| && g[r][c] == v :: Pixel(r, c)
  }

  /** The cells of row s, placed at row r, holding v. */
  function RowCells<T(==)>(r: int, s: seq<T>, v: T): set<Pixel>
  {
    set c | 0 <= c < |s| && s[c] == v :: Pixel(r, c)
  }

  /** CountIn counts exactly the positions of a row that hold the value. */
  lemma {:induction false} CountInRowCells<T>(r: int, s: seq<T>, v: T)
    ensures CountIn(s, v) == |RowCells(r, s, v)|
    decreases |s|
  {
    if |s| == 0 {
      assert RowCells(r, s, v) == {};
    } else {
      var n := |s| - 1;
      assert s == s[..n] + [s[n]];
      CountInAppend(s[..n], [s[n]], v);
      CountInRowCells(r, s[..n], v);
      if s[n] == v {
        assert RowCells(r, s, v) == RowCells(r, s[..n], v) + {Pixel(r, n)};
        assert Pixel(r, n) !in RowCells(r, s[..n], v);
      } else {
        assert RowCells(r, s, v) == RowCells(r, s[..n], v);
      }
    }
  }

  lemma {:induction false} CountGridAppend<T>(a: seq<seq<T>>, b: seq<seq<T>>, v: T)
    ensures CountGrid(a + b, v) == CountGrid(a, v) + CountGrid(b, v)
  {
    if |a| > 0 {
      assert (a + b)[1..] == a[1..] + b;
      CountGridAppend(a[1..], b, v);
    } else {
      assert a + b == b;
    }
  }

  /** CountGrid counts exactly the cells of the raster that hold the value. */
  lemma {:induction false} CountGridCells<T>(g: seq<seq<T>>, v: T)
    ensures CountGrid(g, v) == |Cells(g, v)|
    decreases |g|
  {
    if |g| == 0 {
      assert Cells(g, v) == {};
    } else {
      var n := |g| - 1;
      var front := g[..n];
      assert g == front + [g[n]];
      CountGridAppend(front, [g[n]], v);
      assert CountGrid([g[n]], v) == CountIn(g[n], v);
      CountGridCells(front, v);
      CountInRowCells(n, g[n], v);
      var last := RowCells(n, g[n], v);
      assert Cells(g, v) == Cells(front, v) + last;
      assert Cells(front, v) * last == {} by {
        forall p | p in last ensures p !in Cells(front, v) {
          assert p.row == n;
        }
      }
    }
  }

  lemma {:induction false} CountGridAll<T>(g: seq<seq<T>>, v: T)
    requires forall r, c :: 0 <= r < |g| && 0 <= c < |g[r]| ==> g[r][c] == v
    ensures CountGrid(g, v) == Size(g)
  {
    if |g| > 0 {
      CountInAll(g[0], v);
      CountGridAll(g[1..], v);
    }
  }
}
