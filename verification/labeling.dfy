/**
 * Connected-component labelling of a binary mask, the way scipy's
 * ndimage.label numbers regions when it is given no structuring element:
 * the default element is the cross, so two pixels touch when they share an
 * edge (4-connectivity), and regions are numbered 1, 2, ... in the raster
 * order of their first pixel. Each region is found by flood fill: a set of
 * pixels grows by its lit 4-neighbours until it stops changing.
 */
module Labeling {
  import opened Grids

  /** Two pixels share an edge. */
  predicate Adjacent(p: Pixel, q: Pixel)
  {
    || (p.row == q.row && (p.col == q.col + 1 || q.col == p.col + 1))
    || (p.col == q.col && (p.row == q.row + 1 || q.row == p.row + 1))
  }

  /** p lies inside the mask and is set. */
  predicate Lit(mask: seq<seq<bool>>, p: Pixel)
  {
    0 <= p.row < |mask| && 0 <= p.col < |mask[p.row]| && mask[p.row][p.col]
  }

  function LitPixels(mask: seq<seq<bool>>): (s: set<Pixel>)
    ensures forall p :: p in s <==> Lit(mask, p)
  {
    set r, c | 0 <= r < |mask| && 0 <= c < |mask[r]| && mask[r][c] :: Pixel(r, c)
  }

  /** One flood-fill step: add every lit pixel that touches the region. */
  function Grow(mask: seq<seq<bool>>, region: set<Pixel>): (g: set<Pixel>)
    ensures forall q :: q in g <==> q in region || (Lit(mask, q) && exists p :: p in region && Adjacent(p, q))
  {
    region + set q | q in LitPixels(mask) && (exists p | p in region :: Adjacent(p, q))
  }

  /** No lit pixel touches the region from outside. */
  ghost predicate Closed(mask: seq<seq<bool>>, region: set<Pixel>)
  {
    forall p, q :: p in region && Adjacent(p, q) && Lit(mask, q) ==> q in region
  }

  /** Grow until nothing changes. */
  function Fill(mask: seq<seq<bool>>, region: set<Pixel>): (c: set<Pixel>)
    requires region <= LitPixels(mask)
    ensures region <= c <= LitPixels(mask)
    ensures Closed(mask, c)
    decreases LitPixels(mask) - region
  {
    var g := Grow(mask, region);
    if g == region then region
    else
      assert LitPixels(mask) - g < LitPixels(mask) - region by {
        var x :| x in g && x !in region;
        assert x in LitPixels(mask) - region;
      }
      Fill(mask, g)
  }

  /** A walk through lit pixels, each step to an edge neighbour. */
  ghost predicate IsPath(mask: seq<seq<bool>>, path: seq<Pixel>)
  {
    && |path| > 0
    && (forall i :: 0 <= i < |path| ==> Lit(mask, path[i]))
    && (forall i :: 0 < i < |path| ==> Adjacent(path[i - 1], path[i]))
  }

  /** q can be reached from p through lit pixels: p and q lie in one 4-connected region. */
  ghost predicate Linked(mask: seq<seq<bool>>, p: Pixel, q: Pixel)
  {
    exists path :: IsPath(mask, path) && path[0] == p && path[|path| - 1] == q
  }

  lemma LinkedRefl(mask: seq<seq<bool>>, p: Pixel)
    requires Lit(mask, p)
    ensures Linked(mask, p, p)
  {
    assert IsPath(mask, [p]);
  }

  lemma LinkedStep(mask: seq<seq<bool>>, s: Pixel, p: Pixel, q: Pixel)
    requires Linked(mask, s, p) && Adjacent(p, q) && Lit(mask, q)
    ensures Linked(mask, s, q)
  {
    var path :| IsPath(mask, path) && path[0] == s && path[|path| - 1] == p;
    var path' := path + [q];
    assert IsPath(mask, path');
  }

  lemma LinkedSymmetric(mask: seq<seq<bool>>, p: Pixel, q: Pixel)
    requires Linked(mask, p, q)
    ensures Linked(mask, q, p)
  {
    var path :| IsPath(mask, path) && path[0] == p && path[|path| - 1] == q;
    PathReversed(mask, path);
  }

  lemma {:induction false} PathReversed(mask: seq<seq<bool>>, path: seq<Pixel>)
    requires IsPath(mask, path)
    ensures Linked(mask, path[|path| - 1], path[0])
    decreases |path|
  {
    var n := |path|;
    if n == 1 {
      LinkedRefl(mask, path[0]);
    } else {
      var front := path[..n - 1];
      assert IsPath(mask, front);
      PathReversed(mask, front);
      assert IsPath(mask, [path[n - 1], path[n - 2]]);
      LinkedTransitive(mask, path[n - 1], path[n - 2], path[0]);
    }
  }

  lemma LinkedTransitive(mask: seq<seq<bool>>, p: Pixel, q: Pixel, x: Pixel)
    requires Linked(mask, p, q) && Linked(mask, q, x)
    ensures Linked(mask, p, x)
  {
    var a :| IsPath(mask, a) && a[0] == p && a[|a| - 1] == q;
    var b :| IsPath(mask, b) && b[0] == q && b[|b| - 1] == x;
    var ab := a + b[1..];
    assert forall i :: |a| <= i < |ab| ==> ab[i] == b[i - |a| + 1];
    assert IsPath(mask, ab);
  }

  /** A closed region that holds the start of a walk holds the whole walk. */
  lemma {:induction false} ClosedHoldsPath(mask: seq<seq<bool>>, region: set<Pixel>, path: seq<Pixel>)
    requires Closed(mask, region) && IsPath(mask, path) && path[0] in region
    ensures forall i :: 0 <= i < |path| ==> path[i] in region
    decreases |path|
  {
    if |path| > 1 {
      var front := path[..|path| - 1];
      assert IsPath(mask, front);
      ClosedHoldsPath(mask, region, front);
      assert path[|path| - 2] in region;
    }
  }

  lemma {:induction false} FillLinked(mask: seq<seq<bool>>, region: set<Pixel>, s: Pixel)
    requires region <= LitPixels(mask)
    requires forall x :: x in region ==> Linked(mask, s, x)
    ensures forall x :: x in Fill(mask, region) ==> Linked(mask, s, x)
    decreases LitPixels(mask) - region
  {
    var g := Grow(mask, region);
    forall x | x in g
      ensures Linked(mask, s, x)
    {
      if x !in region {
        var p :| p in region && Adjacent(p, x);
        LinkedStep(mask, s, p, x);
      }
    }
    if g != region {
      assert LitPixels(mask) - g < LitPixels(mask) - region by {
        var x :| x in g && x !in region;
        assert x in LitPixels(mask) - region;
      }
      FillLinked(mask, g, s);
    }
  }

  lemma ComponentExact(mask: seq<seq<bool>>, s: Pixel, c: set<Pixel>)
    requires Lit(mask, s) && c == Fill(mask, {s})
    ensures forall q :: q in c <==> Linked(mask, s, q)
  {
    LinkedRefl(mask, s);
    FillLinked(mask, {s}, s);
    forall q | Linked(mask, s, q)
      ensures q in c
    {
      var path :| IsPath(mask, path) && path[0] == s && path[|path| - 1] == q;
      ClosedHoldsPath(mask, c, path);
    }
  }

  /**
   * The 4-connected region of a lit pixel s: it holds s, is closed under
   * lit edge neighbours, and is exactly the set of pixels reachable from s.
   */
  function Component(mask: seq<seq<bool>>, s: Pixel): (c: set<Pixel>)
    requires Lit(mask, s)
    ensures s in c
    ensures forall q :: q in c ==> Lit(mask, q)
    ensures Closed(mask, c)
    ensures forall q :: q in c <==> Linked(mask, s, q)
  {
    var c := Fill(mask, {s});
    ComponentExact(mask, s, c);
    c
  }

  /** The labelled raster (0 = background) and the number of regions; seeds[k-1] is the first pixel of region k. */
  datatype Labelling = Labelling(labels: seq<seq<nat>>, count: nat, seeds: seq<Pixel>)

  /** The label at p, 0 outside the raster. */
  function LabelAt(labels: seq<seq<nat>>, p: Pixel): nat
  {
    if 0 <= p.row < |labels| && 0 <= p.col < |labels[p.row]| then labels[p.row][p.col] else 0
  }

  /** Raster order: row by row, left to right. */
  predicate Precedes(p: Pixel, q: Pixel)
  {
    p.row < q.row || (p.row == q.row && p.col < q.col)
  }

  /** Edge neighbours that are both lit carry the same label. */
  ghost predicate LabelsClosed(mask: seq<seq<bool>>, labels: seq<seq<nat>>)
  {
    forall p, q :: Adjacent(p, q) && Lit(mask, q) && LabelAt(labels, p) != 0 ==> LabelAt(labels, q) == LabelAt(labels, p)
  }

  ghost predicate LabelsBounded(st: Labelling)
  {
    forall p :: LabelAt(st.labels, p) <= st.count
  }

  ghost predicate LabelsOnMask(mask: seq<seq<bool>>, labels: seq<seq<nat>>)
  {
    forall p :: LabelAt(labels, p) != 0 ==> Lit(mask, p)
  }

  /** Seed k-1 is a lit pixel labelled k; seeds come in raster order, all before next. */
  ghost predicate SeedsValid(mask: seq<seq<bool>>, st: Labelling, next: Pixel)
  {
    && |st.seeds| == st.count
    && (forall k :: 0 <= k < |st.seeds| ==>
          Lit(mask, st.seeds[k]) && LabelAt(st.labels, st.seeds[k]) == k + 1 && Precedes(st.seeds[k], next))
    && (forall k :: 0 < k < |st.seeds| ==> Precedes(st.seeds[k - 1], st.seeds[k]))
  }

  /** Every labelled pixel is reachable from its region's seed and does not come before it. */
  ghost predicate SeededRegions(mask: seq<seq<bool>>, st: Labelling)
  {
    forall p :: 0 < LabelAt(st.labels, p) <= |st.seeds| ==>
      Linked(mask, st.seeds[LabelAt(st.labels, p) - 1], p) && !Precedes(p, st.seeds[LabelAt(st.labels, p) - 1])
  }

  /** Every lit pixel before next has been labelled. */
  ghost predicate ScannedBefore(mask: seq<seq<bool>>, labels: seq<seq<nat>>, next: Pixel)
  {
    forall p :: Lit(mask, p) && Precedes(p, next) ==> LabelAt(labels, p) != 0
  }

  /** The state of the scan just before it visits next. */
  ghost predicate Partial(mask: seq<seq<bool>>, st: Labelling, next: Pixel)
  {
    && SameShape(st.labels, mask)
    && LabelsBounded(st)
    && LabelsOnMask(mask, st.labels)
    && SeedsValid(mask, st, next)
    && LabelsClosed(mask, st.labels)
    && SeededRegions(mask, st)
    && ScannedBefore(mask, st.labels, next)
  }

  /** Write label k onto every pixel of region. */
  function Paint(labels: seq<seq<nat>>, region: set<Pixel>, k: nat): (out: seq<seq<nat>>)
    ensures SameShape(out, labels)
    ensures forall p :: LabelAt(out, p) == if p in region && 0 <= p.row < |labels| && 0 <= p.col < |labels[p.row]| then k else LabelAt(labels, p)
  {
    seq(|labels|, r requires 0 <= r < |labels| =>
      seq(|labels[r]|, c requires 0 <= c < |labels[r]| => if Pixel(r, c) in region then k else labels[r][c]))
  }

  function Zeros(h: nat, w: nat): (z: seq<seq<nat>>)
    ensures IsGrid(z, h, w)
    ensures forall p :: LabelAt(z, p) == 0
  {
    seq(h, r => seq(w, c => 0))
  }

  /** A walk that starts on an unlabelled pixel never meets a labelled one, since labels are closed. */
  lemma {:induction false} PathUnlabelled(mask: seq<seq<bool>>, labels: seq<seq<nat>>, path: seq<Pixel>)
    requires LabelsClosed(mask, labels) && IsPath(mask, path) && LabelAt(labels, path[0]) == 0
    ensures forall i :: 0 <= i < |path| ==> LabelAt(labels, path[i]) == 0
    decreases |path|
  {
    var n := |path|;
    if n > 1 {
      var front := path[..n - 1];
      assert IsPath(mask, front);
      PathUnlabelled(mask, labels, front);
      assert LabelAt(labels, path[n - 2]) == 0;
      assert Adjacent(path[n - 1], path[n - 2]);
    }
  }

  lemma RegionUnlabelled(mask: seq<seq<bool>>, labels: seq<seq<nat>>, s: Pixel, region: set<Pixel>)
    requires Lit(mask, s) && region == Component(mask, s)
    requires LabelsClosed(mask, labels) && LabelAt(labels, s) == 0
    ensures forall q :: q in region ==> LabelAt(labels, q) == 0
  {
    forall q | q in region
      ensures LabelAt(labels, q) == 0
    {
      var path :| IsPath(mask, path) && path[0] == s && path[|path| - 1] == q;
      PathUnlabelled(mask, labels, path);
    }
  }

  /** What the scan knows about the region it is about to paint. */
  ghost predicate FreshRegion(mask: seq<seq<bool>>, labels: seq<seq<nat>>, s: Pixel, region: set<Pixel>)
  {
    && s in region
    && (forall q :: q in region ==> Lit(mask, q) && LabelAt(labels, q) == 0 && !Precedes(q, s))
  }

  /** Painting a region of lit pixels relabels exactly that region. */
  lemma PaintRegion(mask: seq<seq<bool>>, labels: seq<seq<nat>>, region: set<Pixel>, k: nat)
    requires SameShape(labels, mask)
    requires forall q :: q in region ==> Lit(mask, q)
    ensures forall p :: LabelAt(Paint(labels, region, k), p) == if p in region then k else LabelAt(labels, p)
  {
  }

  lemma RegionFresh(mask: seq<seq<bool>>, st: Labelling, s: Pixel)
    requires LabelsClosed(mask, st.labels) && ScannedBefore(mask, st.labels, s)
    requires Lit(mask, s) && LabelAt(st.labels, s) == 0
    ensures FreshRegion(mask, st.labels, s, Component(mask, s))
  {
    var region := Component(mask, s);
    RegionUnlabelled(mask, st.labels, s, region);
    assert forall q :: q in region ==> !Precedes(q, s);
  }

  lemma PaintKeepsShape(mask: seq<seq<bool>>, st: Labelling, s: Pixel, region: set<Pixel>, labels: seq<seq<nat>>)
    requires SameShape(st.labels, mask) && LabelsBounded(st) && LabelsOnMask(mask, st.labels)
    requires ScannedBefore(mask, st.labels, s)
    requires FreshRegion(mask, st.labels, s, region)
    requires labels == Paint(st.labels, region, st.count + 1)
    ensures SameShape(labels, mask)
    ensures LabelsBounded(Labelling(labels, st.count + 1, st.seeds + [s]))
    ensures LabelsOnMask(mask, labels)
    ensures ScannedBefore(mask, labels, Pixel(s.row, s.col + 1))
  {
    PaintRegion(mask, st.labels, region, st.count + 1);
    forall p | Lit(mask, p) && Precedes(p, Pixel(s.row, s.col + 1))
      ensures LabelAt(labels, p) != 0
    {
      if !Precedes(p, s) {
        assert p == s;
      }
    }
  }

  lemma PaintKeepsSeeds(mask: seq<seq<bool>>, st: Labelling, s: Pixel, region: set<Pixel>, st': Labelling)
    requires SameShape(st.labels, mask) && SeedsValid(mask, st, s)
    requires FreshRegion(mask, st.labels, s, region)
    requires st' == Labelling(Paint(st.labels, region, st.count + 1), st.count + 1, st.seeds + [s])
    ensures SeedsValid(mask, st', Pixel(s.row, s.col + 1))
  {
    PaintRegion(mask, st.labels, region, st.count + 1);
    var next := Pixel(s.row, s.col + 1);
    forall j | 0 <= j < |st'.seeds|
      ensures Lit(mask, st'.seeds[j]) && LabelAt(st'.labels, st'.seeds[j]) == j + 1 && Precedes(st'.seeds[j], next)
    {
      if j < st.count {
        assert st'.seeds[j] == st.seeds[j];
        assert LabelAt(st.labels, st.seeds[j]) == j + 1;
        assert st.seeds[j] !in region;
      } else {
        assert st'.seeds[j] == s;
      }
    }
    forall j | 0 < j < |st'.seeds|
      ensures Precedes(st'.seeds[j - 1], st'.seeds[j])
    {
      if j < st.count {
        assert st'.seeds[j - 1] == st.seeds[j - 1] && st'.seeds[j] == st.seeds[j];
      } else {
        assert st'.seeds[j - 1] == st.seeds[j - 1] && st'.seeds[j] == s;
      }
    }
  }

  lemma PaintKeepsClosed(mask: seq<seq<bool>>, st: Labelling, s: Pixel, region: set<Pixel>, labels: seq<seq<nat>>)
    requires SameShape(st.labels, mask) && LabelsClosed(mask, st.labels)
    requires FreshRegion(mask, st.labels, s, region) && Closed(mask, region)
    requires labels == Paint(st.labels, region, st.count + 1)
    ensures LabelsClosed(mask, labels)
  {
    PaintRegion(mask, st.labels, region, st.count + 1);
    forall p, q | Adjacent(p, q) && Lit(mask, q) && LabelAt(labels, p) != 0
      ensures LabelAt(labels, q) == LabelAt(labels, p)
    {
      if p in region {
        if LabelAt(st.labels, q) == 0 {
          assert q in region;
        } else {
          assert false;
        }
      } else if q in region {
        assert false;
      }
    }
  }

  lemma PaintKeepsSeeded(mask: seq<seq<bool>>, st: Labelling, s: Pixel, region: set<Pixel>, st': Labelling)
    requires SameShape(st.labels, mask) && SeededRegions(mask, st)
    requires LabelsBounded(st) && |st.seeds| == st.count
    requires FreshRegion(mask, st.labels, s, region)
    requires forall q :: q in region ==> Linked(mask, s, q)
    requires st' == Labelling(Paint(st.labels, region, st.count + 1), st.count + 1, st.seeds + [s])
    ensures SeededRegions(mask, st')
  {
    PaintRegion(mask, st.labels, region, st.count + 1);
    forall p | 0 < LabelAt(st'.labels, p) <= |st'.seeds|
      ensures Linked(mask, st'.seeds[LabelAt(st'.labels, p) - 1], p) && !Precedes(p, st'.seeds[LabelAt(st'.labels, p) - 1])
    {
      if p in region {
        assert LabelAt(st'.labels, p) == st.count + 1;
        assert st'.seeds[st.count] == s;
        assert Linked(mask, s, p) && !Precedes(p, s);
      } else {
        var k := LabelAt(st.labels, p);
        assert LabelAt(st'.labels, p) == k;
        assert 0 < k <= |st.seeds|;
        assert st'.seeds[k - 1] == st.seeds[k - 1];
        assert Linked(mask, st.seeds[k - 1], p) && !Precedes(p, st.seeds[k - 1]);
      }
    }
  }

  /** Visiting an unlabelled lit pixel: flood its region with the next label. */
  lemma PaintStep(mask: seq<seq<bool>>, st: Labelling, s: Pixel)
    requires Partial(mask, st, s) && Lit(mask, s) && LabelAt(st.labels, s) == 0
    ensures Partial(mask, Labelling(Paint(st.labels, Component(mask, s), st.count + 1), st.count + 1, st.seeds + [s]),
                    Pixel(s.row, s.col + 1))
  {
    var region := Component(mask, s);
    var st' := Labelling(Paint(st.labels, region, st.count + 1), st.count + 1, st.seeds + [s]);
    RegionFresh(mask, st, s);
    PaintKeepsShape(mask, st, s, region, st'.labels);
    PaintKeepsSeeds(mask, st, s, region, st');
    PaintKeepsClosed(mask, st, s, region, st'.labels);
    PaintKeepsSeeded(mask, st, s, region, st');
  }

  /** Visiting a pixel that is background or already labelled changes nothing. */
  lemma SkipStep(mask: seq<seq<bool>>, st: Labelling, s: Pixel)
    requires Partial(mask, st, s) && (!Lit(mask, s) || LabelAt(st.labels, s) != 0)
    ensures Partial(mask, st, Pixel(s.row, s.col + 1))
  {
    var next := Pixel(s.row, s.col + 1);
    assert SeedsValid(mask, st, next) by {
      forall k | 0 <= k < |st.seeds|
        ensures Precedes(st.seeds[k], next)
      {
        assert Precedes(st.seeds[k], s);
      }
    }
    assert ScannedBefore(mask, st.labels, next) by {
      forall p | Lit(mask, p) && Precedes(p, next)
        ensures LabelAt(st.labels, p) != 0
      {
        if p != s {
          assert Precedes(p, s);
        }
      }
    }
  }

  /** The end of a row is the start of the next one. */
  lemma RowDone(mask: seq<seq<bool>>, st: Labelling, r: nat)
    requires Rectangular(mask) && r < |mask| && Partial(mask, st, Pixel(r, Width(mask)))
    ensures Partial(mask, st, Pixel(r + 1, 0))
  {
    forall p | Lit(mask, p) && Precedes(p, Pixel(r + 1, 0))
      ensures Precedes(p, Pixel(r, Width(mask)))
    {
    }
  }

  /** Visit pixel (r, c): start a new region there if it is lit and not yet labelled. */
  function Visit(mask: seq<seq<bool>>, st: Labelling, r: nat, c: nat): (out: Labelling)
    requires r < |mask| && c < |mask[r]|
    requires Partial(mask, st, Pixel(r, c))
    ensures Partial(mask, out, Pixel(r, c + 1))
  {
    var s := Pixel(r, c);
    if Lit(mask, s) && LabelAt(st.labels, s) == 0 then
      PaintStep(mask, st, s);
      Labelling(Paint(st.labels, Component(mask, s), st.count + 1), st.count + 1, st.seeds + [s])
    else
      SkipStep(mask, st, s);
      st
  }

  function Scan(mask: seq<seq<bool>>, st: Labelling, r: nat, c: nat): (out: Labelling)
    requires Rectangular(mask)
    requires r <= |mask| && c <= Width(mask) && (r == |mask| ==> c == 0)
    requires Partial(mask, st, Pixel(r, c))
    ensures Partial(mask, out, Pixel(|mask|, 0))
    decreases |mask| - r, Width(mask) - c
  {
    if r == |mask| then st
    else if c == Width(mask) then
      RowDone(mask, st, r);
      Scan(mask, st, r + 1, 0)
    else
      Scan(mask, Visit(mask, st, r, c), r, c + 1)
  }

  /**
   * out is a labelling of mask as ndimage.label produces it: every lit pixel
   * carries the label of its 4-connected region, background stays 0, and
   * regions are numbered 1..count in the raster order of their first pixel
   * (its seed), each pixel linked to and not before its region's seed.
   */
  ghost predicate Labelled(mask: seq<seq<bool>>, out: Labelling)
  {
    && IsGrid(out.labels, |mask|, Width(mask))
    && |out.seeds| == out.count
    && (forall p :: LabelAt(out.labels, p) != 0 <==> Lit(mask, p))
    && (forall p :: LabelAt(out.labels, p) <= out.count)
    && (forall k :: 0 <= k < out.count ==> Lit(mask, out.seeds[k]) && LabelAt(out.labels, out.seeds[k]) == k + 1)
    && (forall k :: 0 < k < out.count ==> Precedes(out.seeds[k - 1], out.seeds[k]))
    && LabelsClosed(mask, out.labels)
    && (forall p :: LabelAt(out.labels, p) != 0 ==>
         Linked(mask, out.seeds[LabelAt(out.labels, p) - 1], p) && !Precedes(p, out.seeds[LabelAt(out.labels, p) - 1]))
  }

  /**
   * ndimage.label with its default structuring element: every lit pixel gets
   * the label of its 4-connected region, background stays 0, and regions are
   * numbered 1..count in the raster order of their first pixel (its seed).
   */
  function Label(mask: seq<seq<bool>>): (out: Labelling)
    requires Rectangular(mask)
    ensures Labelled(mask, out)
  {
    var init := Labelling(Zeros(|mask|, Width(mask)), 0, []);
    StartPartial(mask, init);
    var out := Scan(mask, init, 0, 0);
    FinishedScan(mask, out);
    out
  }

  /** Before the scan nothing is labelled and no region is seeded. */
  lemma StartPartial(mask: seq<seq<bool>>, init: Labelling)
    requires Rectangular(mask) && init == Labelling(Zeros(|mask|, Width(mask)), 0, [])
    ensures Partial(mask, init, Pixel(0, 0))
  {
  }

  /** After the last row every lit pixel has been visited. */
  lemma FinishedScan(mask: seq<seq<bool>>, out: Labelling)
    requires Rectangular(mask) && Partial(mask, out, Pixel(|mask|, 0))
    ensures Labelled(mask, out)
  {
    assert forall p :: Lit(mask, p) ==> Precedes(p, Pixel(|mask|, 0));
  }

  /** Along a walk through lit pixels the label never changes. */
  lemma {:induction false} PathKeepsLabel(mask: seq<seq<bool>>, labels: seq<seq<nat>>, path: seq<Pixel>)
    requires LabelsClosed(mask, labels) && IsPath(mask, path) && LabelAt(labels, path[0]) != 0
    ensures LabelAt(labels, path[|path| - 1]) == LabelAt(labels, path[0])
    decreases |path|
  {
    var n := |path|;
    if n > 1 {
      var front := path[..n - 1];
      assert IsPath(mask, front);
      PathKeepsLabel(mask, labels, front);
      assert Adjacent(path[n - 2], path[n - 1]);
    }
  }

  lemma SameLabelLinked(mask: seq<seq<bool>>, st: Labelling, p: Pixel, q: Pixel)
    requires |st.seeds| == st.count
    requires forall x :: LabelAt(st.labels, x) <= st.count
    requires forall x :: LabelAt(st.labels, x) != 0 ==> Linked(mask, st.seeds[LabelAt(st.labels, x) - 1], x)
    requires LabelAt(st.labels, p) != 0 && LabelAt(st.labels, p) == LabelAt(st.labels, q)
    ensures Linked(mask, p, q)
  {
    var seed := st.seeds[LabelAt(st.labels, p) - 1];
    LinkedSymmetric(mask, seed, p);
    LinkedTransitive(mask, p, seed, q);
  }

  /** Two lit pixels get the same label exactly when they lie in one 4-connected region. */
  lemma SameLabelIffLinked(mask: seq<seq<bool>>, p: Pixel, q: Pixel)
    requires Rectangular(mask) && Lit(mask, p) && Lit(mask, q)
    ensures LabelAt(Label(mask).labels, p) == LabelAt(Label(mask).labels, q) <==> Linked(mask, p, q)
  {
    var out := Label(mask);
    assert Labelled(mask, out);
    assert LabelAt(out.labels, p) != 0;
    if LabelAt(out.labels, p) == LabelAt(out.labels, q) {
      SameLabelLinked(mask, out, p, q);
    }
    if Linked(mask, p, q) {
      var path :| IsPath(mask, path) && path[0] == p && path[|path| - 1] == q;
      assert LabelsClosed(mask, out.labels);
      PathKeepsLabel(mask, out.labels, path);
    }
  }
}
