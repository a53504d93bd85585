/**
 * The pure logic of the HTTP layer: the coordinate validator, the
 * bounding-box checks that open the analysis endpoint, the analysis
 * pipeline with the satellite fetch as an input, and the summary counts.
 */
module Endpoints {
  import opened Results
  import opened Detections
  import opened ChangeDetection
  import opened Projection
  import opened Ndvi

  /** Kilometres per degree, used for both axes. */
  const KmPerDegree: real := 111.32

  /** Largest area the validator accepts, in square kilometres. */
  const MaxAreaKm2: real := 10000.0

  /** Confidence above which a detection counts as high-confidence (strictly). */
  const HighConfidence: real := 0.8

  datatype CoordError = LonOrder | LatOrder | LonRange | LatRange | AreaTooLarge(areaKm2: real)

  datatype ValidationFailure = WrongCount | Invalid(errors: seq<CoordError>)

  /** Fixed position of each error kind in the error list. */
  function ErrorRank(e: CoordError): nat
  {
    match e
    case LonOrder => 0
    case LatOrder => 1
    case LonRange => 2
    case LatRange => 3
    case AreaTooLarge(_) => 4
  }

  predicate InRankOrder(errs: seq<CoordError>)
  {
    forall i, j :: 0 <= i < j < |errs| ==> ErrorRank(errs[i]) < ErrorRank(errs[j])
  }

  predicate LonInRange(x: real)
  {
    -180.0 <= x <= 180.0
  }

  predicate LatInRange(y: real)
  {
    -90.0 <= y <= 90.0
  }

  /** Approximate area of the rectangle, in square kilometres. */
  function AreaKm2(area: GeoBox): (a: real)
    ensures a >= 0.0
  {
    Abs((area.maxLon - area.minLon) * (area.maxLat - area.minLat)) * KmPerDegree * KmPerDegree
  }

  /** Every error in errs has a rank in [lo, hi). */
  predicate RanksIn(errs: seq<CoordError>, lo: nat, hi: nat)
  {
    forall i :: 0 <= i < |errs| ==> lo <= ErrorRank(errs[i]) < hi
  }

  /** What one check appends to the error list: its error when it fails, nothing otherwise. */
  function ErrorIf(failed: bool, e: CoordError): (r: seq<CoordError>)
    ensures forall x :: x in r <==> failed && x == e
  {
    if failed then [e] else []
  }

  lemma ErrorIfRanked(failed: bool, e: CoordError)
    ensures InRankOrder(ErrorIf(failed, e)) && RanksIn(ErrorIf(failed, e), ErrorRank(e), ErrorRank(e) + 1)
  {
  }

  /** Appending a list of later-ranked errors keeps the list in rank order. */
  lemma OrderedJoin(a: seq<CoordError>, b: seq<CoordError>, lo: nat, mid: nat, hi: nat)
    requires lo <= mid <= hi
    requires InRankOrder(a) && InRankOrder(b) && RanksIn(a, lo, mid) && RanksIn(b, mid, hi)
    ensures InRankOrder(a + b) && RanksIn(a + b, lo, hi)
  {
    var ab := a + b;
    forall i | 0 <= i < |ab|
      ensures lo <= ErrorRank(ab[i]) < hi
    {
      if i < |a| { assert ab[i] == a[i]; } else { assert ab[i] == b[i - |a|]; }
    }
    forall i, j | 0 <= i < j < |ab|
      ensures ErrorRank(ab[i]) < ErrorRank(ab[j])
    {
      if j < |a| {
        assert ab[i] == a[i] && ab[j] == a[j];
      } else if i >= |a| {
        assert ab[i] == b[i - |a|] && ab[j] == b[j - |a|];
      } else {
        assert ab[i] == a[i] && ab[j] == b[j - |a|];
      }
    }
  }

  /** The four ordering and range checks, in the order the validator makes them. */
  function ShapeErrors(area: GeoBox): (errs: seq<CoordError>)
    ensures LonOrder in errs <==> area.minLon >= area.maxLon
    ensures LatOrder in errs <==> area.minLat >= area.maxLat
    ensures LonRange in errs <==> !(LonInRange(area.minLon) && LonInRange(area.maxLon))
    ensures LatRange in errs <==> !(LatInRange(area.minLat) && LatInRange(area.maxLat))
  {
    ErrorIf(area.minLon >= area.maxLon, LonOrder)
    + ErrorIf(area.minLat >= area.maxLat, LatOrder)
    + ErrorIf(!(LonInRange(area.minLon) && LonInRange(area.maxLon)), LonRange)
    + ErrorIf(!(LatInRange(area.minLat) && LatInRange(area.maxLat)), LatRange)
  }

  /** The four checks report in the fixed order, each at most once. */
  lemma ShapeErrorsRanked(area: GeoBox)
    ensures InRankOrder(ShapeErrors(area)) && RanksIn(ShapeErrors(area), 0, 4)
  {
    FlagsRanked(
      area.minLon >= area.maxLon,
      area.minLat >= area.maxLat,
      !(LonInRange(area.minLon) && LonInRange(area.maxLon)),
      !(LatInRange(area.minLat) && LatInRange(area.maxLat)));
  }

  /** Whichever of the four checks fail, their errors come out in rank order. */
  lemma FlagsRanked(lonOrder: bool, latOrder: bool, lonRange: bool, latRange: bool)
    ensures
      var errs := ErrorIf(lonOrder, LonOrder) + ErrorIf(latOrder, LatOrder)
        + ErrorIf(lonRange, LonRange) + ErrorIf(latRange, LatRange);
      InRankOrder(errs) && RanksIn(errs, 0, 4)
  {
    ErrorIfRanked(lonOrder, LonOrder);
    ErrorIfRanked(latOrder, LatOrder);
    ErrorIfRanked(lonRange, LonRange);
    ErrorIfRanked(latRange, LatRange);
    JoinFour(ErrorIf(lonOrder, LonOrder), ErrorIf(latOrder, LatOrder), ErrorIf(lonRange, LonRange), ErrorIf(latRange, LatRange));
  }

  /** Four lists holding ranks 0, 1, 2 and 3 respectively, in order, concatenate in rank order. */
  lemma JoinFour(e1: seq<CoordError>, e2: seq<CoordError>, e3: seq<CoordError>, e4: seq<CoordError>)
    requires InRankOrder(e1) && InRankOrder(e2) && InRankOrder(e3) && InRankOrder(e4)
    requires RanksIn(e1, 0, 1) && RanksIn(e2, 1, 2) && RanksIn(e3, 2, 3) && RanksIn(e4, 3, 4)
    ensures InRankOrder(e1 + e2 + e3 + e4) && RanksIn(e1 + e2 + e3 + e4, 0, 4)
  {
    OrderedJoin(e1, e2, 0, 1, 2);
    OrderedJoin(e1 + e2, e3, 0, 2, 3);
    OrderedJoin(e1 + e2 + e3, e4, 0, 3, 4);
  }

  /** No ordering or range error is an area error. */
  lemma NoAreaErrorAmongShape(errs: seq<CoordError>, b: real)
    requires RanksIn(errs, 0, 4)
    ensures AreaTooLarge(b) !in errs
  {
  }

  /** The checks of the validator for a rectangle of area a, each adding its error when it fails. */
  function ErrorsFor(area: GeoBox, a: real): (errs: seq<CoordError>)
    ensures InRankOrder(errs)
    ensures LonOrder in errs <==> area.minLon >= area.maxLon
    ensures LatOrder in errs <==> area.minLat >= area.maxLat
    ensures LonRange in errs <==> !(LonInRange(area.minLon) && LonInRange(area.maxLon))
    ensures LatRange in errs <==> !(LatInRange(area.minLat) && LatInRange(area.maxLat))
    ensures AreaTooLarge(a) in errs <==> a > MaxAreaKm2
    ensures forall b :: AreaTooLarge(b) in errs ==> b == a
  {
    var shape := ShapeErrors(area);
    var last := ErrorIf(a > MaxAreaKm2, AreaTooLarge(a));
    ShapeErrorsRanked(area);
    ErrorIfRanked(a > MaxAreaKm2, AreaTooLarge(a));
    OrderedJoin(shape, last, 0, 4, 5);
    forall b
      ensures AreaTooLarge(b) !in shape
    {
      NoAreaErrorAmongShape(shape, b);
    }
    shape + last
  }

  /** Every check of the validator on the rectangle's own area. */
  function CoordinateErrors(area: GeoBox): (errs: seq<CoordError>)
    ensures InRankOrder(errs)
    ensures LonOrder in errs <==> area.minLon >= area.maxLon
    ensures LatOrder in errs <==> area.minLat >= area.maxLat
    ensures LonRange in errs <==> !(LonInRange(area.minLon) && LonInRange(area.maxLon))
    ensures LatRange in errs <==> !(LatInRange(area.minLat) && LatInRange(area.maxLat))
    ensures AreaTooLarge(AreaKm2(area)) in errs <==> AreaKm2(area) > MaxAreaKm2
    ensures forall b :: AreaTooLarge(b) in errs ==> b == AreaKm2(area)
  {
    ErrorsFor(area, AreaKm2(area))
  }

  /** All five checks pass. */
  predicate Acceptable(area: GeoBox)
  {
    && area.minLon < area.maxLon
    && area.minLat < area.maxLat
    && LonInRange(area.minLon) && LonInRange(area.maxLon)
    && LatInRange(area.minLat) && LatInRange(area.maxLat)
    && AreaKm2(area) <= MaxAreaKm2
  }

  /** The error list is empty exactly when every check passes. */
  lemma NoErrorsIffAcceptable(area: GeoBox)
    ensures CoordinateErrors(area) == [] <==> Acceptable(area)
  {
    var errs := CoordinateErrors(area);
    if errs != [] {
      var e := errs[0];
      assert e in errs;
      match e
      case LonOrder =>
      case LatOrder =>
      case LonRange =>
      case LatRange =>
      case AreaTooLarge(a) =>
        assert e.areaKm2 == AreaKm2(area);
    }
  }

  /** The list [min_lon, min_lat, max_lon, max_lat] as a rectangle. */
  function BoxOf(coords: seq<real>): (area: GeoBox)
    requires |coords| == 4
    ensures [area.minLon, area.minLat, area.maxLon, area.maxLat] == coords
  {
    GeoBox(coords[0], coords[1], coords[2], coords[3])
  }

  /**
   * validate_coordinates: a list of the wrong length is rejected before
   * any other check; otherwise all errors are collected and the area is
   * returned when there are none.
   */
  function ValidateCoordinates(coords: seq<real>): (res: Result<real, ValidationFailure>)
    ensures |coords| != 4 ==> res == Err(WrongCount)
    ensures |coords| == 4 ==> (res.Ok? <==> Acceptable(BoxOf(coords)))
    ensures res.Ok? ==> res.value == AreaKm2(BoxOf(coords)) <= MaxAreaKm2
    ensures |coords| == 4 && res.Err? ==> res.error == Invalid(CoordinateErrors(BoxOf(coords))) && res.error.errors != []
  {
    if |coords| != 4 then Err(WrongCount)
    else
      var area := BoxOf(coords);
      var errs := CoordinateErrors(area);
      NoErrorsIffAcceptable(area);
      if errs != [] then Err(Invalid(errs)) else Ok(AreaKm2(area))
  }

  /** The rejections of the analysis endpoint, one per HTTP failure it raises. */
  datatype AnalyzeError = BadOrder | BadLongitude | BadLatitude | FetchFailed | Internal

  /**
   * The checks at the top of analyze_deforestation, first failure wins:
   * ordering, then longitude range, then latitude range. The area limit is
   * not applied here.
   */
  function CheckRequestBox(area: GeoBox): (res: Result<GeoBox, AnalyzeError>)
    ensures res.Ok? <==>
      area.minLon < area.maxLon && area.minLat < area.maxLat
      && LonInRange(area.minLon) && LonInRange(area.maxLon)
      && LatInRange(area.minLat) && LatInRange(area.maxLat)
    ensures res.Ok? ==> res.value == area
    ensures res == Err(BadOrder) <==> area.minLon >= area.maxLon || area.minLat >= area.maxLat
    ensures res == Err(BadLongitude) <==>
      area.minLon < area.maxLon && area.minLat < area.maxLat && !(LonInRange(area.minLon) && LonInRange(area.maxLon))
    ensures res == Err(BadLatitude) <==>
      area.minLon < area.maxLon && area.minLat < area.maxLat && LonInRange(area.minLon) && LonInRange(area.maxLon)
      && !(LatInRange(area.minLat) && LatInRange(area.maxLat))
  {
    if area.minLon >= area.maxLon || area.minLat >= area.maxLat then Err(BadOrder)
    else if !(LonInRange(area.minLon) && LonInRange(area.maxLon)) then Err(BadLongitude)
    else if !(LatInRange(area.minLat) && LatInRange(area.maxLat)) then Err(BadLatitude)
    else Ok(area)
  }

  /** The endpoint accepts a box exactly when the validator finds no error other than a too-large area. */
  lemma RequestCheckMatchesValidator(area: GeoBox)
    ensures CheckRequestBox(area).Ok? <==>
      forall x :: x in CoordinateErrors(area) ==> x.AreaTooLarge?
  {
    var errs := CoordinateErrors(area);
    if !CheckRequestBox(area).Ok? {
      if area.minLon >= area.maxLon {
        assert LonOrder in errs;
      } else if area.minLat >= area.maxLat {
        assert LatOrder in errs;
      } else if !(LonInRange(area.minLon) && LonInRange(area.maxLon)) {
        assert LonRange in errs;
      } else {
        assert LatRange in errs;
      }
    }
  }

  /** Number of detections with confidence strictly above 0.8. */
  function CountHighConfidence(ls: seq<Located>): (n: nat)
    ensures n <= |ls|
  {
    if |ls| == 0 then 0
    else (if ls[0].detection.confidence > HighConfidence then 1 else 0) + CountHighConfidence(ls[1..])
  }

  /** Number of Critical detections. */
  function CountCritical(ls: seq<Located>): (n: nat)
    ensures n <= |ls|
  {
    if |ls| == 0 then 0
    else (if ls[0].detection.severity == Critical then 1 else 0) + CountCritical(ls[1..])
  }

  lemma {:induction false} HighConfidenceCountZero(ls: seq<Located>)
    ensures CountHighConfidence(ls) == 0 <==> forall i :: 0 <= i < |ls| ==> ls[i].detection.confidence <= HighConfidence
  {
    if |ls| > 0 {
      HighConfidenceCountZero(ls[1..]);
      assert forall i :: 1 <= i < |ls| ==> ls[1..][i - 1] == ls[i];
    }
  }

  lemma {:induction false} CriticalCountZero(ls: seq<Located>)
    ensures CountCritical(ls) == 0 <==> forall i :: 0 <= i < |ls| ==> ls[i].detection.severity != Critical
  {
    if |ls| > 0 {
      CriticalCountZero(ls[1..]);
      assert forall i :: 1 <= i < |ls| ==> ls[1..][i - 1] == ls[i];
    }
  }

  lemma {:induction false} HighConfidenceAppend(a: seq<Located>, b: seq<Located>)
    ensures CountHighConfidence(a + b) == CountHighConfidence(a) + CountHighConfidence(b)
  {
    if |a| > 0 {
      assert (a + b)[1..] == a[1..] + b;
      HighConfidenceAppend(a[1..], b);
    } else {
      assert a + b == b;
    }
  }

  /** The high-confidence count is the number of positions whose confidence exceeds 0.8. */
  lemma {:induction false} HighConfidenceIndices(ls: seq<Located>)
    ensures CountHighConfidence(ls) == |set i | 0 <= i < |ls| && ls[i].detection.confidence > HighConfidence|
    decreases |ls|
  {
    if |ls| > 0 {
      var n := |ls| - 1;
      var front := ls[..n];
      assert ls == front + [ls[n]];
      HighConfidenceAppend(front, [ls[n]]);
      HighConfidenceIndices(front);
      var before := set i | 0 <= i < |front| && front[i].detection.confidence > HighConfidence;
      if ls[n].detection.confidence > HighConfidence {
        assert (set i | 0 <= i < |ls| && ls[i].detection.confidence > HighConfidence) == before + {n};
        assert n !in before;
      } else {
        assert (set i | 0 <= i < |ls| && ls[i].detection.confidence > HighConfidence) == before;
      }
    }
  }

  lemma {:induction false} CriticalAppend(a: seq<Located>, b: seq<Located>)
    ensures CountCritical(a + b) == CountCritical(a) + CountCritical(b)
  {
    if |a| > 0 {
      assert (a + b)[1..] == a[1..] + b;
      CriticalAppend(a[1..], b);
    } else {
      assert a + b == b;
    }
  }

  /** The Critical count is the number of positions whose severity is Critical. */
  lemma {:induction false} CriticalIndices(ls: seq<Located>)
    ensures CountCritical(ls) == |set i | 0 <= i < |ls| && ls[i].detection.severity == Critical|
    decreases |ls|
  {
    if |ls| > 0 {
      var n := |ls| - 1;
      var front := ls[..n];
      assert ls == front + [ls[n]];
      CriticalAppend(front, [ls[n]]);
      CriticalIndices(front);
      var before := set i | 0 <= i < |front| && front[i].detection.severity == Critical;
      if ls[n].detection.severity == Critical {
        assert (set i | 0 <= i < |ls| && ls[i].detection.severity == Critical) == before + {n};
        assert n !in before;
      } else {
        assert (set i | 0 <= i < |ls| && ls[i].detection.severity == Critical) == before;
      }
    }
  }

  /** When every Critical detection is high-confidence, there are at most as many Critical detections as high-confidence ones. */
  lemma {:induction false} CriticalWithinHigh(ls: seq<Located>)
    requires forall i :: 0 <= i < |ls| && ls[i].detection.severity == Critical ==> ls[i].detection.confidence > HighConfidence
    ensures CountCritical(ls) <= CountHighConfidence(ls)
  {
    if |ls| > 0 {
      assert forall i :: 1 <= i < |ls[1..]| ==> ls[1..][i] == ls[i + 1];
      CriticalWithinHigh(ls[1..]);
    }
  }

  /**
   * With a threshold of magnitude at most 0.5, a Critical mean change
   * (at most -0.5) reaches full confidence.
   */
  lemma CriticalIsConfident(avg: real, threshold: real)
    requires threshold != 0.0 && Abs(threshold) <= 0.5
    requires SeverityOf(avg) == Critical
    ensures Confidence(avg, threshold) == 1.0
  {
  }

  datatype Fetched = Fetched(t0: Image, t1: Image)

  datatype Summary = Summary(
    totalDetections: nat,
    totalChangedPixels: nat,
    changePercentage: real,
    highConfidenceDetections: nat,
    criticalDetections: nat,
    areaAnalyzedKm2: real)

  datatype Analysis = Analysis(detections: seq<Located>, summary: Summary)

  function SummaryOf(ls: seq<Located>, changed: nat, percentage: real, area: GeoBox): (s: Summary)
    ensures s.totalDetections == |ls|
    ensures s.highConfidenceDetections == |set i | 0 <= i < |ls| && ls[i].detection.confidence > HighConfidence|
    ensures s.criticalDetections == |set i | 0 <= i < |ls| && ls[i].detection.severity == Critical|
    ensures s.highConfidenceDetections <= s.totalDetections && s.criticalDetections <= s.totalDetections
    ensures s.totalChangedPixels == changed && s.changePercentage == percentage
    ensures s.areaAnalyzedKm2 == AreaKm2(area) >= 0.0
  {
    HighConfidenceIndices(ls);
    CriticalIndices(ls);
    Summary(|ls|, changed, percentage, CountHighConfidence(ls), CountCritical(ls), AreaKm2(area))
  }

  /** An image the pipeline can index: at least one pixel, with red and NIR bands. */
  predicate Indexable(img: Image)
  {
    img.height > 0 && img.width > 0 && img.bands >= 2
  }

  /** Index rasters of both dates; any failure here is an internal error. */
  function IndexRasters(f: Fetched): (res: Result<(seq<seq<real>>, seq<seq<real>>), AnalyzeError>)
    requires f.t0.Valid() && f.t1.Valid()
    ensures res.Ok? <==> Indexable(f.t0) && Indexable(f.t1)
    ensures res.Err? ==> res.error == Internal
    ensures res.Ok? ==>
      && Grids.IsGrid(res.value.0, f.t0.height, f.t0.width) && Grids.IsGrid(res.value.1, f.t1.height, f.t1.width)
      && res.value.0 == CalculateNdvi(Preprocess(f.t0).value).value
      && res.value.1 == CalculateNdvi(Preprocess(f.t1).value).value
  {
    var p0 := Preprocess(f.t0);
    var p1 := Preprocess(f.t1);
    if p0.Err? || p1.Err? then Err(Internal)
    else
      var n0 := CalculateNdvi(p0.value);
      var n1 := CalculateNdvi(p1.value);
      if n0.Err? || n1.Err? then Err(Internal) else Ok((n0.value, n1.value))
  }

  /**
   * The summary agrees with the reported list and the requested area, and
   * every reported detection passed both filters with its confidence and
   * severity derived from its mean change.
   */
  predicate Consistent(cfg: Config, area: GeoBox, a: Analysis)
    requires cfg.changeThreshold != 0.0
  {
    var s := a.summary;
    var ls := a.detections;
    && s.totalDetections == |ls|
    && s.highConfidenceDetections == CountHighConfidence(ls)
    && s.criticalDetections == CountCritical(ls)
    && s.areaAnalyzedKm2 == AreaKm2(area)
    && 0.0 <= s.changePercentage <= 100.0
    && forall i :: 0 <= i < |ls| ==> Vetted(cfg, ls[i].detection)
  }

  /** d passed both filters, with its confidence and severity derived from its mean change. */
  predicate Vetted(cfg: Config, d: Detection)
    requires cfg.changeThreshold != 0.0
  {
    && cfg.confidenceThreshold <= d.confidence <= 1.0
    && d.areaPixels >= cfg.minArea
    && d.confidence == Confidence(d.avgChange, cfg.changeThreshold)
    && d.severity == SeverityOf(d.avgChange)
  }

  /** Projecting vetted detections and summarising them gives a consistent analysis. */
  lemma ProjectedConsistent(cfg: Config, area: GeoBox, out: ChangeResult, ls: seq<Located>)
    requires cfg.changeThreshold != 0.0 && 0.0 <= out.changePercentage <= 100.0
    requires forall d :: d in out.detections ==> Vetted(cfg, d)
    requires |ls| == |out.detections| && forall i :: 0 <= i < |ls| ==> ls[i].detection == out.detections[i]
    ensures Consistent(cfg, area, Analysis(ls, SummaryOf(ls, out.totalChangedPixels, out.changePercentage, area)))
  {
    forall i | 0 <= i < |ls|
      ensures Vetted(cfg, ls[i].detection)
    {
      assert out.detections[i] in out.detections;
    }
  }

  /** Detection, projection and summary on the two index rasters. */
  function FromRasters(cfg: Config, area: GeoBox, n0: seq<seq<real>>, n1: seq<seq<real>>): (res: Result<Analysis, AnalyzeError>)
    requires cfg.changeThreshold != 0.0
    ensures res.Ok? <==> Accepted(n0, n1)
    ensures res.Err? ==> res.error == Internal
    ensures res.Ok? ==>
      && DetectChanges(cfg, n0, n1).Ok?
      && var out := DetectChanges(cfg, n0, n1).value;
      && Project(out.detections, area, |n0|, Grids.Width(n0)).Ok?
      && res.value.detections == Project(out.detections, area, |n0|, Grids.Width(n0)).value
      && res.value.summary.totalChangedPixels == out.totalChangedPixels
      && res.value.summary.changePercentage == out.changePercentage
    ensures res.Ok? ==> Consistent(cfg, area, res.value)
  {
    var change := DetectChanges(cfg, n0, n1);
    if change.Err? then Err(Internal)
    else
      var out := change.value;
      var located := Project(out.detections, area, |n0|, Grids.Width(n0));
      if located.Err? then Err(Internal)
      else
        var ls := located.value;
        assert forall d :: d in out.detections ==> Vetted(cfg, d);
        ProjectedConsistent(cfg, area, out, ls);
        Ok(Analysis(ls, SummaryOf(ls, out.totalChangedPixels, out.changePercentage, area)))
  }

  /** Two fetched images the pipeline can analyse: both indexable, of the same height and width. */
  predicate Usable(f: Fetched)
  {
    Indexable(f.t0) && Indexable(f.t1) && f.t0.height == f.t1.height && f.t0.width == f.t1.width
  }

  /** Index rasters of the given sizes are accepted by the detector exactly when the sizes agree. */
  lemma AcceptedIffSameSize(n0: seq<seq<real>>, n1: seq<seq<real>>, h0: nat, w0: nat, h1: nat, w1: nat)
    requires Grids.IsGrid(n0, h0, w0) && Grids.IsGrid(n1, h1, w1) && h0 > 0 && w0 > 0 && h1 > 0 && w1 > 0
    ensures Accepted(n0, n1) <==> h0 == h1 && w0 == w1
  {
    if h0 == h1 && w0 == w1 {
      assert Grids.SameShape(n0, n1);
    }
  }

  /**
   * analyze_deforestation with the fetch outcome passed in: check the box,
   * then use the fetched images, preprocess, index, detect, project, and
   * summarise.
   */
  function Analyze(cfg: Config, area: GeoBox, fetch: Result<Fetched, string>): (res: Result<Analysis, AnalyzeError>)
    requires cfg.changeThreshold != 0.0
    requires fetch.Ok? ==> fetch.value.t0.Valid() && fetch.value.t1.Valid()
    ensures CheckRequestBox(area).Err? ==> res == Err(CheckRequestBox(area).error)
    ensures CheckRequestBox(area).Ok? && fetch.Err? ==> res == Err(FetchFailed)
    ensures res.Ok? <==> CheckRequestBox(area).Ok? && fetch.Ok? && Usable(fetch.value)
    ensures res.Ok? ==>
      && IndexRasters(fetch.value).Ok?
      && var (n0, n1) := IndexRasters(fetch.value).value;
      && DetectChanges(cfg, n0, n1).Ok?
      && Project(DetectChanges(cfg, n0, n1).value.detections, area, |n0|, Grids.Width(n0)).Ok?
      && res.value.detections == Project(DetectChanges(cfg, n0, n1).value.detections, area, |n0|, Grids.Width(n0)).value
      && res.value.summary.totalChangedPixels == DetectChanges(cfg, n0, n1).value.totalChangedPixels
      && res.value.summary.changePercentage == DetectChanges(cfg, n0, n1).value.changePercentage
    ensures CheckRequestBox(area).Ok? && fetch.Ok? && !Usable(fetch.value) ==> res == Err(Internal)
    ensures res.Ok? ==> CheckRequestBox(area).Ok? && fetch.Ok? && Consistent(cfg, area, res.value)
  {
    var checked := CheckRequestBox(area);
    if checked.Err? then Err(checked.error)
    else if fetch.Err? then Err(FetchFailed)
    else
      var rasters := IndexRasters(fetch.value);
      if rasters.Err? then Err(Internal)
      else
        AcceptedIffSameSize(rasters.value.0, rasters.value.1,
          fetch.value.t0.height, fetch.value.t0.width, fetch.value.t1.height, fetch.value.t1.width);
        FromRasters(cfg, area, rasters.value.0, rasters.value.1)
  }

  /** A rejected box is rejected the same way whatever the fetch would have returned. */
  lemma BadBoxIgnoresFetch(cfg: Config, area: GeoBox, f1: Result<Fetched, string>, f2: Result<Fetched, string>)
    requires cfg.changeThreshold != 0.0
    requires f1.Ok? ==> f1.value.t0.Valid() && f1.value.t1.Valid()
    requires f2.Ok? ==> f2.value.t0.Valid() && f2.value.t1.Valid()
    requires CheckRequestBox(area).Err?
    ensures Analyze(cfg, area, f1) == Analyze(cfg, area, f2)
    ensures Analyze(cfg, area, f1).Err? && Analyze(cfg, area, f1).error != FetchFailed
  {
  }

  /** Under the default settings every Critical detection is also counted as high-confidence. */
  lemma DefaultCriticalAreHighConfidence(area: GeoBox, fetch: Result<Fetched, string>)
    requires fetch.Ok? ==> fetch.value.t0.Valid() && fetch.value.t1.Valid()
    requires Analyze(DefaultConfig, area, fetch).Ok?
    ensures
      var s := Analyze(DefaultConfig, area, fetch).value.summary;
      s.criticalDetections <= s.highConfidenceDetections
  {
    DefaultSummaryCriticalWithinHigh(area, Analyze(DefaultConfig, area, fetch).value);
  }

  lemma DefaultSummaryCriticalWithinHigh(area: GeoBox, a: Analysis)
    requires Consistent(DefaultConfig, area, a)
    ensures a.summary.criticalDetections <= a.summary.highConfidenceDetections
  {
    var ls := a.detections;
    forall i | 0 <= i < |ls| && ls[i].detection.severity == Critical
      ensures ls[i].detection.confidence > HighConfidence
    {
      assert Vetted(DefaultConfig, ls[i].detection);
      CriticalIsConfident(ls[i].detection.avgChange, DefaultConfig.changeThreshold);
    }
    CriticalWithinHigh(ls);
  }
}
