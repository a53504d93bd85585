/**
 * Binary morphology with a 3x3 all-ones structuring element, as OpenCV's
 * morphologyEx applies it with its default border value: a neighbour that
 * falls outside the image takes no part in the decision.
 */
module Morphology {
  import opened Grids

  /** (r2, c2) lies in the 3x3 window centred on (r, c). */
  predicate Near(r: int, c: int, r2: int, c2: int)
  {
    r - 1 <= r2 <= r + 1 && c - 1 <= c2 <= c + 1
  }

  predicate Within(m: seq<seq<bool>>, r: int, c: int)
  {
    0 <= r < |m| && 0 <= c < |m[r]|
  }

  /** Some in-image cell of the window around (r, c) is set. */
  predicate AnyNear(m: seq<seq<bool>>, r: int, c: int)
  {
    exists r2, c2 | r - 1 <= r2 <= r + 1 && c - 1 <= c2 <= c + 1 && Within(m, r2, c2) :: m[r2][c2]
  }

  /** Every in-image cell of the window around (r, c) is set. */
  predicate AllNear(m: seq<seq<bool>>, r: int, c: int)
  {
    forall r2, c2 | r - 1 <= r2 <= r + 1 && c - 1 <= c2 <= c + 1 && Within(m, r2, c2) :: m[r2][c2]
  }

  function Dilate(m: seq<seq<bool>>): (d: seq<seq<bool>>)
    ensures SameShape(d, m)
    ensures forall r, c :: Within(m, r, c) ==> (d[r][c] <==> AnyNear(m, r, c))
  {
    seq(|m|, r requires 0 <= r < |m| => seq(|m[r]|, c requires 0 <= c < |m[r]| => AnyNear(m, r, c)))
  }

  function Erode(m: seq<seq<bool>>): (e: seq<seq<bool>>)
    ensures SameShape(e, m)
    ensures forall r, c :: Within(m, r, c) ==> (e[r][c] <==> AllNear(m, r, c))
  {
    seq(|m|, r requires 0 <= r < |m| => seq(|m[r]|, c requires 0 <= c < |m[r]| => AllNear(m, r, c)))
  }

  /** MORPH_CLOSE: dilate, then erode. */
  function Close(m: seq<seq<bool>>): (k: seq<seq<bool>>)
    ensures SameShape(k, m)
  {
    Erode(Dilate(m))
  }

  /** MORPH_OPEN: erode, then dilate. */
  function Open(m: seq<seq<bool>>): (o: seq<seq<bool>>)
    ensures SameShape(o, m)
  {
    Dilate(Erode(m))
  }

  /** The cleanup the change detector applies to its raw mask: close, then open. */
  function Clean(m: seq<seq<bool>>): (k: seq<seq<bool>>)
    ensures SameShape(k, m)
  {
    Open(Close(m))
  }

  function Negate(m: seq<seq<bool>>): (n: seq<seq<bool>>)
    ensures SameShape(n, m)
    ensures forall r, c :: Within(m, r, c) ==> n[r][c] == !m[r][c]
  {
    seq(|m|, r requires 0 <= r < |m| => seq(|m[r]|, c requires 0 <= c < |m[r]| => !m[r][c]))
  }

  ghost predicate Subset(a: seq<seq<bool>>, b: seq<seq<bool>>)
    requires SameShape(a, b)
  {
    forall r, c :: Within(a, r, c) && a[r][c] ==> b[r][c]
  }

  ghost predicate AllFalse(m: seq<seq<bool>>)
  {
    forall r, c :: Within(m, r, c) ==> !m[r][c]
  }

  ghost predicate AllTrue(m: seq<seq<bool>>)
  {
    forall r, c :: Within(m, r, c) ==> m[r][c]
  }

  /** Erosion only removes pixels: every cell is part of its own window. */
  lemma ErodeShrinks(m: seq<seq<bool>>)
    ensures Subset(Erode(m), m)
  {
    var e := Erode(m);
    forall r, c | Within(e, r, c) && e[r][c]
      ensures m[r][c]
    {
      assert AllNear(m, r, c);
      assert Near(r, c, r, c);
    }
  }

  /** Dilation only adds pixels. */
  lemma DilateGrows(m: seq<seq<bool>>)
    ensures Subset(m, Dilate(m))
  {
    forall r, c | Within(m, r, c) && m[r][c]
      ensures Dilate(m)[r][c]
    {
      assert Near(r, c, r, c);
    }
  }

  /** Erosion is dual to dilation: eroding m is dilating its complement, complemented. */
  lemma {:induction false} ErodeDualDilate(m: seq<seq<bool>>)
    ensures Erode(m) == Negate(Dilate(Negate(m)))
  {
    var a := Erode(m);
    var b := Negate(Dilate(Negate(m)));
    var n := Negate(m);
    forall r | 0 <= r < |m|
      ensures a[r] == b[r]
    {
      forall c | 0 <= c < |m[r]|
        ensures a[r][c] == b[r][c]
      {
        if a[r][c] {
          forall r2, c2 | Near(r, c, r2, c2) && Within(n, r2, c2)
            ensures !n[r2][c2]
          {
            assert m[r2][c2];
          }
          assert !AnyNear(n, r, c);
        } else {
          assert !AllNear(m, r, c);
          var r2, c2 :| Near(r, c, r2, c2) && Within(m, r2, c2) && !m[r2][c2];
          assert n[r2][c2];
          assert AnyNear(n, r, c);
        }
      }
    }
  }

  /**
   * Closing never removes a pixel: a set pixel dilates every window that
   * contains it, so erosion keeps it.
   */
  lemma CloseExtensive(m: seq<seq<bool>>)
    ensures Subset(m, Close(m))
  {
    var d := Dilate(m);
    forall r, c | Within(m, r, c) && m[r][c]
      ensures Close(m)[r][c]
    {
      forall r2, c2 | Near(r, c, r2, c2) && Within(d, r2, c2)
        ensures d[r2][c2]
      {
        assert Near(r2, c2, r, c);
      }
      assert AllNear(d, r, c);
    }
  }

  /**
   * Opening never adds a pixel: a pixel survives only inside some window
   * that was entirely set.
   */
  lemma OpenAntiExtensive(m: seq<seq<bool>>)
    ensures Subset(Open(m), m)
  {
    var e := Erode(m);
    forall r, c | Within(m, r, c) && Dilate(e)[r][c]
      ensures m[r][c]
    {
      OpenedPixel(m, e, r, c);
    }
  }

  lemma OpenedPixel(m: seq<seq<bool>>, e: seq<seq<bool>>, r: int, c: int)
    requires e == Erode(m) && Within(m, r, c) && AnyNear(e, r, c)
    ensures m[r][c]
  {
    var r2, c2 :| r - 1 <= r2 <= r + 1 && c - 1 <= c2 <= c + 1 && Within(e, r2, c2) && e[r2][c2];
    assert Within(m, r2, c2);
    assert AllNear(m, r2, c2);
    assert r2 - 1 <= r <= r2 + 1 && c2 - 1 <= c <= c2 + 1;
  }

  /** An empty mask stays empty through both cleanup steps. */
  lemma CleanKeepsEmpty(m: seq<seq<bool>>)
    requires AllFalse(m)
    ensures AllFalse(Clean(m))
  {
    CloseExtensive(m);
    var k := Close(m);
    var d := Dilate(m);
    forall r, c | Within(d, r, c)
      ensures !d[r][c]
    {
      forall r2, c2 | Near(r, c, r2, c2) && Within(m, r2, c2)
        ensures !m[r2][c2]
      {
      }
    }
    ErodeShrinks(d);
    assert AllFalse(k);
    OpenAntiExtensive(k);
  }

  /** A fully set mask stays fully set through both cleanup steps. */
  lemma CleanKeepsFull(m: seq<seq<bool>>)
    requires AllTrue(m)
    ensures AllTrue(Clean(m))
  {
    CloseExtensive(m);
    var k := Close(m);
    var e := Erode(k);
    forall r, c | Within(e, r, c)
      ensures e[r][c]
    {
    }
    DilateGrows(e);
  }
}
