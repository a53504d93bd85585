/**
 * The change detector: difference two index rasters, threshold the
 * difference, clean the mask with a closing and an opening, label its
 * 4-connected regions, and turn every region that is large and confident
 * enough into a detection.
 */
module ChangeDetection {
  import opened Results
  import opened Grids
  import opened Morphology
  import opened Labeling
  import opened Regions
  import opened Detections

  /** Detector settings; the defaults are -0.3, 100 and 0.6. */
  datatype Config = Config(changeThreshold: real, minArea: int, confidenceThreshold: real)

  const DefaultConfig := Config(-0.3, 100, 0.6)

  datatype DetectError = ShapeMismatch | EmptyRaster

  datatype ChangeResult = ChangeResult(
    changeMask: seq<seq<bool>>,
    difference: seq<seq<real>>,
    detections: seq<Detection>,
    totalChangedPixels: nat,
    changePercentage: real)

  function Abs(x: real): (a: real)
    ensures a >= 0.0 && (a == x || a == -x)
  {
    if x < 0.0 then -x else x
  }

  /** Pixelwise later-minus-earlier index. */
  function Difference(t0: seq<seq<real>>, t1: seq<seq<real>>): (d: seq<seq<real>>)
    requires SameShape(t0, t1)
    ensures SameShape(d, t0)
    ensures forall r, c :: 0 <= r < |t0| && 0 <= c < |t0[r]| ==> t0[r][c] + d[r][c] == t1[r][c]
  {
    seq(|t0|, r requires 0 <= r < |t0| =>
      seq(|t0[r]|, c requires 0 <= c < |t0[r]| => t1[r][c] - t0[r][c]))
  }

  /** A pixel counts as changed when its difference is strictly below the threshold. */
  function RawMask(d: seq<seq<real>>, threshold: real): (m: seq<seq<bool>>)
    ensures SameShape(m, d)
    ensures forall r, c :: 0 <= r < |d| && 0 <= c < |d[r]| ==> (m[r][c] <==> d[r][c] < threshold)
  {
    seq(|d|, r requires 0 <= r < |d| =>
      seq(|d[r]|, c requires 0 <= c < |d[r]| => d[r][c] < threshold))
  }

  /**
   * The magnitude of a region's mean change relative to the threshold's,
   * capped at 1.
   */
  function Confidence(avg: real, threshold: real): (c: real)
    requires threshold != 0.0
    ensures 0.0 <= c <= 1.0
    ensures c == 1.0 <==> Abs(avg) >= Abs(threshold)
    ensures c < 1.0 ==> c * Abs(threshold) == Abs(avg)
  {
    var ratio := Abs(avg) / Abs(threshold);
    RatioFacts(Abs(avg), Abs(threshold));
    if ratio < 1.0 then ratio else 1.0
  }

  lemma RatioFacts(x: real, t: real)
    requires x >= 0.0 && t > 0.0
    ensures (x / t) * t == x
    ensures x / t >= 0.0
    ensures x / t < 1.0 <==> x < t
  {
    var q := x / t;
    assert q * t == x;
    NegativeIffProduct(q, t);
    assert (q - 1.0) * t == x - t;
    NegativeIffProduct(q - 1.0, t);
  }

  /** Multiplying by a positive factor keeps the sign. */
  lemma NegativeIffProduct(a: real, t: real)
    requires t > 0.0
    ensures a < 0.0 <==> a * t < 0.0
  {
    if a < 0.0 {
      assert (0.0 - a) * t > 0.0;
    } else {
      assert a * t >= 0.0;
    }
  }

  /** A larger mean change never lowers the confidence. */
  lemma ConfidenceMonotone(a: real, b: real, threshold: real)
    requires threshold != 0.0 && Abs(a) <= Abs(b)
    ensures Confidence(a, threshold) <= Confidence(b, threshold)
  {
    var t := Abs(threshold);
    RatioFacts(Abs(a), t);
    RatioFacts(Abs(b), t);
    var qa := Abs(a) / t;
    var qb := Abs(b) / t;
    assert (qa - qb) * t == Abs(a) - Abs(b) <= 0.0;
    NonPositiveFactor(qa - qb, t);
  }

  /** The raster shapes the detector works on: label raster and difference raster agree, labels 1..count all occur. */
  predicate WellLabelled(labels: seq<seq<nat>>, diff: seq<seq<real>>, w: nat, count: nat)
  {
    && IsGrid(labels, |labels|, w)
    && SameShape(labels, diff)
    && forall k :: 1 <= k <= count ==> Occurs(labels, k)
  }

  /**
   * Region k is kept: at least minArea pixels and at least the confidence
   * threshold. Since confidence never exceeds 1, a threshold above 1 keeps
   * nothing; a large enough region whose mean change reaches the change
   * threshold has full confidence and is kept whenever the threshold is at
   * most 1.
   */
  predicate Kept(cfg: Config, labels: seq<seq<nat>>, diff: seq<seq<real>>, k: nat): (kept: bool)
    requires cfg.changeThreshold != 0.0 && SameShape(labels, diff) && Occurs(labels, k)
    ensures kept ==> Area(labels, k) >= cfg.minArea && cfg.confidenceThreshold <= 1.0
    ensures (Area(labels, k) >= cfg.minArea && cfg.confidenceThreshold <= 1.0
      && Abs(Mean(labels, diff, k)) >= Abs(cfg.changeThreshold)) ==> kept
  {
    Area(labels, k) >= cfg.minArea
    && Confidence(Mean(labels, diff, k), cfg.changeThreshold) >= cfg.confidenceThreshold
  }

  /** The detection reported for region k. */
  function Describe(cfg: Config, labels: seq<seq<nat>>, diff: seq<seq<real>>, w: nat, k: nat): (d: Detection)
    requires cfg.changeThreshold != 0.0 && IsGrid(labels, |labels|, w) && SameShape(labels, diff) && Occurs(labels, k)
    ensures d.id == k
  {
    var avg := Mean(labels, diff, k);
    Detection(k, BoundingBox(labels, k, w), Area(labels, k), Confidence(avg, cfg.changeThreshold), avg, SeverityOf(avg))
  }

  /**
   * d faithfully reports region d.id: its pixel count, a mean that times the
   * pixel count gives the sum of the difference over the region, the
   * confidence and severity of that mean, and the tight bounding box; and it
   * passes both filters.
   */
  ghost predicate Reports(cfg: Config, labels: seq<seq<nat>>, diff: seq<seq<real>>, w: nat, d: Detection)
    requires cfg.changeThreshold != 0.0 && IsGrid(labels, |labels|, w) && SameShape(labels, diff)
  {
    && Occurs(labels, d.id)
    && d.areaPixels == Area(labels, d.id) >= cfg.minArea
    && Scale(d.areaPixels, d.avgChange) == SumOver(labels, diff, d.id)
    && d.confidence == Confidence(d.avgChange, cfg.changeThreshold) >= cfg.confidenceThreshold
    && d.severity == SeverityOf(d.avgChange)
    && d.box == BoundingBox(labels, d.id, w)
  }

  /** The loop over labels from..count, before the sort. */
  function Collect(cfg: Config, labels: seq<seq<nat>>, diff: seq<seq<real>>, w: nat, from: nat, count: nat): (ds: seq<Detection>)
    requires cfg.changeThreshold != 0.0 && WellLabelled(labels, diff, w, count) && 1 <= from
    ensures forall i :: 0 <= i < |ds| ==> from <= ds[i].id <= count
    ensures IdsIncreasing(ds)
    decreases count + 1 - from
  {
    if from > count then []
    else
      var rest := Collect(cfg, labels, diff, w, from + 1, count);
      if Kept(cfg, labels, diff, from) then [Describe(cfg, labels, diff, w, from)] + rest
      else rest
  }

  /** Everything collected is the description of a kept region. */
  lemma {:induction false} CollectSound(cfg: Config, labels: seq<seq<nat>>, diff: seq<seq<real>>, w: nat, from: nat, count: nat)
    requires cfg.changeThreshold != 0.0 && WellLabelled(labels, diff, w, count) && 1 <= from
    ensures forall d :: d in Collect(cfg, labels, diff, w, from, count) ==>
      Occurs(labels, d.id) && Kept(cfg, labels, diff, d.id) && d == Describe(cfg, labels, diff, w, d.id)
    decreases count + 1 - from
  {
    if from <= count {
      CollectSound(cfg, labels, diff, w, from + 1, count);
    }
  }

  /** Every kept region in from..count is collected. */
  lemma {:induction false} CollectComplete(cfg: Config, labels: seq<seq<nat>>, diff: seq<seq<real>>, w: nat, from: nat, count: nat, k: nat)
    requires cfg.changeThreshold != 0.0 && WellLabelled(labels, diff, w, count) && 1 <= from <= k <= count
    requires Kept(cfg, labels, diff, k)
    ensures Describe(cfg, labels, diff, w, k) in Collect(cfg, labels, diff, w, from, count)
    decreases count + 1 - from
  {
    if from < k {
      CollectComplete(cfg, labels, diff, w, from + 1, count, k);
    }
  }

  /** A kept region's description reports it faithfully. */
  lemma DescribeReports(cfg: Config, labels: seq<seq<nat>>, diff: seq<seq<real>>, w: nat, k: nat)
    requires cfg.changeThreshold != 0.0 && IsGrid(labels, |labels|, w) && SameShape(labels, diff) && Occurs(labels, k)
    requires Kept(cfg, labels, diff, k)
    ensures Reports(cfg, labels, diff, w, Describe(cfg, labels, diff, w, k))
  {
    var d := Describe(cfg, labels, diff, w, k);
    var avg := Mean(labels, diff, k);
    assert d.id == k && d.avgChange == avg && d.areaPixels == Area(labels, k);
    assert Scale(d.areaPixels, d.avgChange) == SumOver(labels, diff, d.id);
    assert d.confidence == Confidence(d.avgChange, cfg.changeThreshold);
  }

  /**
   * _extract_detections: the kept regions, most confident first, equal
   * confidences in label order.
   */
  function Extract(cfg: Config, labels: seq<seq<nat>>, diff: seq<seq<real>>, w: nat, count: nat): (ds: seq<Detection>)
    requires cfg.changeThreshold != 0.0 && WellLabelled(labels, diff, w, count)
    ensures StrictlyOrdered(ds)
    ensures forall i, j :: 0 <= i < j < |ds| ==> ds[i].id != ds[j].id
    ensures forall d :: d in ds ==> 1 <= d.id <= count && Reports(cfg, labels, diff, w, d)
    ensures forall k :: 1 <= k <= count ==> (Kept(cfg, labels, diff, k) <==> exists d :: d in ds && d.id == k)
  {
    var collected := Collect(cfg, labels, diff, w, 1, count);
    var ds := SortByConfidence(collected);
    SortStable(collected);
    SortKeepsIdsDistinct(collected);
    SortSameElements(collected);
    CollectedSound(cfg, labels, diff, w, count);
    CollectedComplete(cfg, labels, diff, w, count);
    ds
  }

  lemma CollectedSound(cfg: Config, labels: seq<seq<nat>>, diff: seq<seq<real>>, w: nat, count: nat)
    requires cfg.changeThreshold != 0.0 && WellLabelled(labels, diff, w, count)
    ensures forall d :: d in Collect(cfg, labels, diff, w, 1, count) ==> 1 <= d.id <= count && Reports(cfg, labels, diff, w, d)
  {
    var collected := Collect(cfg, labels, diff, w, 1, count);
    CollectSound(cfg, labels, diff, w, 1, count);
    forall d | d in collected
      ensures 1 <= d.id <= count && Reports(cfg, labels, diff, w, d)
    {
      var i :| 0 <= i < |collected| && collected[i] == d;
      DescribeReports(cfg, labels, diff, w, d.id);
    }
  }

  lemma CollectedComplete(cfg: Config, labels: seq<seq<nat>>, diff: seq<seq<real>>, w: nat, count: nat)
    requires cfg.changeThreshold != 0.0 && WellLabelled(labels, diff, w, count)
    ensures forall k :: 1 <= k <= count ==>
      (Kept(cfg, labels, diff, k) <==> exists d :: d in Collect(cfg, labels, diff, w, 1, count) && d.id == k)
  {
    var collected := Collect(cfg, labels, diff, w, 1, count);
    CollectSound(cfg, labels, diff, w, 1, count);
    forall k | 1 <= k <= count
      ensures Kept(cfg, labels, diff, k) <==> exists d :: d in collected && d.id == k
    {
      if Kept(cfg, labels, diff, k) {
        CollectComplete(cfg, labels, diff, w, 1, count, k);
        assert Describe(cfg, labels, diff, w, k) in collected;
      }
    }
  }

  /** p is the share changed/size expressed in percent. */
  predicate IsPercentage(p: real, changed: nat, size: nat)
  {
    p * (size as real) == 100.0 * (changed as real)
  }

  /** Percentage of changed pixels over the whole raster. */
  function Percentage(changed: nat, size: nat): (p: real)
    requires 0 < size && changed <= size
    ensures 0.0 <= p <= 100.0
    ensures IsPercentage(p, changed, size)
  {
    (changed as real / size as real) * 100.0
  }

  /** The labels of a mask occur, 1..count, because each has a seed pixel. */
  lemma LabelsOccur(mask: seq<seq<bool>>)
    requires Rectangular(mask)
    ensures forall k :: 1 <= k <= Label(mask).count ==> Occurs(Label(mask).labels, k)
  {
    var out := Label(mask);
    forall k | 1 <= k <= out.count
      ensures Occurs(out.labels, k)
    {
      var s := out.seeds[k - 1];
      assert LabelAt(out.labels, s) == k;
      assert out.labels[s.row][s.col] == k;
    }
  }

  lemma ShapeCarries<S, T>(a: seq<seq<S>>, b: seq<seq<T>>)
    requires Rectangular(b) && SameShape(a, b)
    ensures Rectangular(a) && Width(a) == Width(b)
  {
  }

  /** Two rasters the detector can compare: same shape, at least one pixel. */
  predicate Accepted(t0: seq<seq<real>>, t1: seq<seq<real>>)
  {
    Rectangular(t0) && Rectangular(t1) && SameShape(t0, t1) && |t0| > 0 && Width(t0) > 0
  }

  /** d reports (in the sense of Reports) one of the regions that labelling mask yields. */
  ghost predicate ReportsRegionOf(cfg: Config, diff: seq<seq<real>>, mask: seq<seq<bool>>, d: Detection)
    requires cfg.changeThreshold != 0.0
  {
    && Rectangular(mask)
    && var lab := Label(mask);
    && 1 <= d.id <= lab.count
    && IsGrid(lab.labels, |lab.labels|, Width(diff))
    && SameShape(lab.labels, diff)
    && Reports(cfg, lab.labels, diff, Width(diff), d)
  }

  /** Region k of the labelling of mask passes both filters. */
  ghost predicate KeptRegionOf(cfg: Config, diff: seq<seq<real>>, mask: seq<seq<bool>>, k: nat)
    requires cfg.changeThreshold != 0.0
  {
    && Rectangular(mask)
    && var lab := Label(mask);
    && SameShape(lab.labels, diff)
    && Occurs(lab.labels, k)
    && Kept(cfg, lab.labels, diff, k)
  }

  /** Label the cleaned mask of a difference raster and extract its detections. */
  function DetectionsOf(cfg: Config, diff: seq<seq<real>>, mask: seq<seq<bool>>): (ds: seq<Detection>)
    requires cfg.changeThreshold != 0.0 && Rectangular(diff) && SameShape(mask, diff)
    ensures Rectangular(mask)
    ensures forall d :: d in ds ==> ReportsRegionOf(cfg, diff, mask, d)
    ensures forall k :: 1 <= k <= Label(mask).count ==>
      (KeptRegionOf(cfg, diff, mask, k) <==> exists d :: d in ds && d.id == k)
    ensures StrictlyOrdered(ds)
    ensures forall i, j :: 0 <= i < j < |ds| ==> ds[i].id != ds[j].id
    ensures forall d :: d in ds ==>
      && d.areaPixels >= cfg.minArea && cfg.confidenceThreshold <= d.confidence <= 1.0
      && d.confidence == Confidence(d.avgChange, cfg.changeThreshold) && d.severity == SeverityOf(d.avgChange)
      && 0 <= d.box.minRow <= d.box.maxRow < |diff| && 0 <= d.box.minCol <= d.box.maxCol < Width(diff)
  {
    ShapeCarries(mask, diff);
    var lab := Label(mask);
    LabelsOccur(mask);
    var ds := Extract(cfg, lab.labels, diff, Width(diff), lab.count);
    RegionsOfMask(cfg, diff, mask, ds);
    ds
  }

  /** Extract's guarantees about the label raster, restated about the mask it was labelled from. */
  lemma RegionsOfMask(cfg: Config, diff: seq<seq<real>>, mask: seq<seq<bool>>, ds: seq<Detection>)
    requires cfg.changeThreshold != 0.0 && Rectangular(mask) && Width(mask) == Width(diff)
    requires WellLabelled(Label(mask).labels, diff, Width(diff), Label(mask).count)
    requires forall d :: d in ds ==>
      1 <= d.id <= Label(mask).count && Reports(cfg, Label(mask).labels, diff, Width(diff), d)
    requires forall k :: 1 <= k <= Label(mask).count ==>
      (Kept(cfg, Label(mask).labels, diff, k) <==> exists d :: d in ds && d.id == k)
    ensures forall d :: d in ds ==> ReportsRegionOf(cfg, diff, mask, d)
    ensures forall k :: 1 <= k <= Label(mask).count ==>
      (KeptRegionOf(cfg, diff, mask, k) <==> exists d :: d in ds && d.id == k)
  {
    var lab := Label(mask);
    forall d | d in ds
      ensures ReportsRegionOf(cfg, diff, mask, d)
    {
      assert 1 <= d.id <= lab.count && Reports(cfg, lab.labels, diff, Width(diff), d);
    }
    forall k | 1 <= k <= lab.count
      ensures KeptRegionOf(cfg, diff, mask, k) <==> exists d :: d in ds && d.id == k
    {
      assert Occurs(lab.labels, k);
    }
  }

  /** detect_changes on two index rasters of one area. */
  function DetectChanges(cfg: Config, t0: seq<seq<real>>, t1: seq<seq<real>>): (res: Result<ChangeResult, DetectError>)
    requires cfg.changeThreshold != 0.0
    ensures res.Ok? <==> Accepted(t0, t1)
    ensures res.Err? && !(SameShape(t0, t1) && Rectangular(t0) && Rectangular(t1)) ==> res.error == ShapeMismatch
    ensures res.Ok? ==>
      var out := res.value;
      && SameShape(out.difference, t0)
      && (forall r, c :: 0 <= r < |t0| && 0 <= c < |t0[r]| ==> t0[r][c] + out.difference[r][c] == t1[r][c])
      && out.changeMask == Clean(RawMask(out.difference, cfg.changeThreshold))
      && out.detections == DetectionsOf(cfg, out.difference, out.changeMask)
      && out.totalChangedPixels == CountGrid(out.changeMask, true) <= Size(t0)
      && 0.0 <= out.changePercentage <= 100.0
      && IsPercentage(out.changePercentage, out.totalChangedPixels, Size(t0))
  {
    if !(Rectangular(t0) && Rectangular(t1) && SameShape(t0, t1)) then Err(ShapeMismatch)
    else if |t0| == 0 || Width(t0) == 0 then Err(EmptyRaster)
    else
      var diff := Difference(t0, t1);
      var mask := Clean(RawMask(diff, cfg.changeThreshold));
      ShapeCarries(diff, t0);
      var total := CountGrid(mask, true);
      SameSize(mask, t0);
      Ok(ChangeResult(mask, diff, DetectionsOf(cfg, diff, mask), total, Percentage(total, Size(t0))))
  }

  lemma SameSize<S, T>(a: seq<seq<S>>, b: seq<seq<T>>)
    requires Rectangular(b) && SameShape(a, b) && |b| > 0 && Width(b) > 0
    ensures Size(a) == Size(b) > 0
  {
    SizeOfGrid(a, |b|, Width(b));
    SizeOfGrid(b, |b|, Width(b));
  }

  lemma QuietMaskEmpty(diff: seq<seq<real>>, threshold: real)
    requires forall r, c :: 0 <= r < |diff| && 0 <= c < |diff[r]| ==> diff[r][c] >= threshold
    ensures AllFalse(Clean(RawMask(diff, threshold)))
  {
    var raw := RawMask(diff, threshold);
    assert AllFalse(raw);
    CleanKeepsEmpty(raw);
  }

  lemma EmptyMaskNothing(mask: seq<seq<bool>>)
    requires Rectangular(mask) && AllFalse(mask)
    ensures Label(mask).count == 0
    ensures CountGrid(mask, true) == 0
  {
    CountGridZero(mask, true);
    forall r | 0 <= r < |mask|
      ensures true !in mask[r]
    {
      forall c | 0 <= c < |mask[r]|
        ensures !mask[r][c]
      {
        assert Within(mask, r, c);
      }
    }
    var lab := Label(mask);
    assert lab.count > 0 ==> Lit(mask, lab.seeds[0]);
  }

  lemma NoRegionsNoDetections(cfg: Config, diff: seq<seq<real>>, mask: seq<seq<bool>>)
    requires cfg.changeThreshold != 0.0 && Rectangular(diff) && SameShape(mask, diff)
    requires Rectangular(mask) && Label(mask).count == 0
    ensures DetectionsOf(cfg, diff, mask) == []
  {
    var lab := Label(mask);
    assert Collect(cfg, lab.labels, diff, Width(diff), 1, 0) == [];
  }

  /** With no pixel dropping below the threshold, nothing is reported and nothing counts as changed. */
  lemma NoChangeNoDetections(cfg: Config, t0: seq<seq<real>>, t1: seq<seq<real>>)
    requires cfg.changeThreshold != 0.0 && Accepted(t0, t1)
    requires forall r, c :: 0 <= r < |t0| && 0 <= c < |t0[r]| ==> t1[r][c] - t0[r][c] >= cfg.changeThreshold
    ensures DetectChanges(cfg, t0, t1).Ok?
    ensures DetectChanges(cfg, t0, t1).value.detections == []
    ensures DetectChanges(cfg, t0, t1).value.totalChangedPixels == 0
    ensures DetectChanges(cfg, t0, t1).value.changePercentage == 0.0
  {
    var res := DetectChanges(cfg, t0, t1);
    var out := res.value;
    var diff := out.difference;
    forall r, c | 0 <= r < |diff| && 0 <= c < |diff[r]|
      ensures diff[r][c] >= cfg.changeThreshold
    {
      assert t0[r][c] + diff[r][c] == t1[r][c];
    }
    QuietMaskEmpty(diff, cfg.changeThreshold);
    ShapeCarries(diff, t0);
    ShapeCarries(out.changeMask, diff);
    EmptyMaskNothing(out.changeMask);
    NoRegionsNoDetections(cfg, diff, out.changeMask);
    SameSize(out.changeMask, t0);
    NoShareIsZero(out.changePercentage, Size(t0));
  }

  lemma NoShareIsZero(p: real, size: nat)
    requires size > 0 && IsPercentage(p, 0, size)
    ensures p == 0.0
  {
  }
}
