/**
 * convert_pixel_to_coordinates: map each detection's pixel box onto the
 * requested longitude/latitude rectangle. Row 0 is the northern edge, so
 * rows count southwards from the maximum latitude.
 */
module Projection {
  import opened Results
  import opened Regions
  import opened Detections

  /** The requested area, in the order [min_lon, min_lat, max_lon, max_lat]. */
  datatype GeoBox = GeoBox(minLon: real, minLat: real, maxLon: real, maxLat: real)

  datatype Center = Center(latitude: real, longitude: real)

  /** A detection together with its geographic box and centre. */
  datatype Located = Located(detection: Detection, geo: GeoBox, center: Center)

  datatype ProjectError = ZeroDimension

  /** Degrees of longitude per pixel column. */
  function LonStep(area: GeoBox, width: nat): (s: real)
    requires width > 0
    ensures s * (width as real) == area.maxLon - area.minLon
    ensures area.minLon <= area.maxLon ==> s >= 0.0
  {
    (area.maxLon - area.minLon) / (width as real)
  }

  /** Degrees of latitude per pixel row. */
  function LatStep(area: GeoBox, height: nat): (s: real)
    requires height > 0
    ensures s * (height as real) == area.maxLat - area.minLat
    ensures area.minLat <= area.maxLat ==> s >= 0.0
  {
    (area.maxLat - area.minLat) / (height as real)
  }

  /**
   * Geographic box of one pixel box: the western and eastern edges lie
   * minCol and maxCol column steps east of the area's western edge, the
   * northern and southern edges minRow and maxRow row steps south of its
   * northern edge.
   */
  function GeoOf(b: Box, area: GeoBox, height: nat, width: nat): (g: GeoBox)
    requires height > 0 && width > 0
    ensures g.minLon == area.minLon + (b.minCol as real) * LonStep(area, width)
    ensures g.maxLon == area.minLon + (b.maxCol as real) * LonStep(area, width)
    ensures g.maxLat == area.maxLat - (b.minRow as real) * LatStep(area, height)
    ensures g.minLat == area.maxLat - (b.maxRow as real) * LatStep(area, height)
  {
    GeoBox(
      area.minLon + (b.minCol as real) * LonStep(area, width),
      area.maxLat - (b.maxRow as real) * LatStep(area, height),
      area.minLon + (b.maxCol as real) * LonStep(area, width),
      area.maxLat - (b.minRow as real) * LatStep(area, height))
  }

  /**
   * Each edge of a projected box sits at the fraction of the area's extent
   * that its pixel index is of the image's size.
   */
  lemma GeoOfFractions(b: Box, area: GeoBox, height: nat, width: nat)
    requires height > 0 && width > 0
    ensures
      var g := GeoOf(b, area, height, width);
      && (g.minLon - area.minLon) * (width as real) == (b.minCol as real) * (area.maxLon - area.minLon)
      && (g.maxLon - area.minLon) * (width as real) == (b.maxCol as real) * (area.maxLon - area.minLon)
      && (area.maxLat - g.maxLat) * (height as real) == (b.minRow as real) * (area.maxLat - area.minLat)
      && (area.maxLat - g.minLat) * (height as real) == (b.maxRow as real) * (area.maxLat - area.minLat)
  {
    var sx := LonStep(area, width);
    var sy := LatStep(area, height);
    ProductShift(b.minCol as real, sx, width as real);
    ProductShift(b.maxCol as real, sx, width as real);
    ProductShift(b.minRow as real, sy, height as real);
    ProductShift(b.maxRow as real, sy, height as real);
  }

  lemma ProductShift(i: real, s: real, n: real)
    ensures (i * s) * n == i * (s * n)
  {
  }

  /** Centre of a geographic box. */
  function CenterOf(g: GeoBox): (c: Center)
    ensures g.minLat <= g.maxLat ==> g.minLat <= c.latitude <= g.maxLat
    ensures g.minLon <= g.maxLon ==> g.minLon <= c.longitude <= g.maxLon
    ensures c.latitude - g.minLat == g.maxLat - c.latitude
    ensures c.longitude - g.minLon == g.maxLon - c.longitude
  {
    Center((g.minLat + g.maxLat) / 2.0, (g.minLon + g.maxLon) / 2.0)
  }

  function Locate(d: Detection, area: GeoBox, height: nat, width: nat): (l: Located)
    requires height > 0 && width > 0
    ensures l.detection == d
    ensures l.center == CenterOf(l.geo)
  {
    var g := GeoOf(d.box, area, height, width);
    Located(d, g, CenterOf(g))
  }

  /**
   * The whole conversion. The per-pixel steps are computed before the loop,
   * so a zero image dimension fails even for an empty list.
   */
  function Project(ds: seq<Detection>, area: GeoBox, height: nat, width: nat): (res: Result<seq<Located>, ProjectError>)
    ensures res.Ok? <==> height > 0 && width > 0
    ensures res.Ok? ==> |res.value| == |ds|
    ensures res.Ok? ==> forall i :: 0 <= i < |ds| ==>
      res.value[i].detection == ds[i] && res.value[i].geo == GeoOf(ds[i].box, area, height, width)
      && res.value[i].center == CenterOf(res.value[i].geo)
  {
    if height == 0 || width == 0 then Err(ZeroDimension)
    else Ok(seq(|ds|, i requires 0 <= i < |ds| => Locate(ds[i], area, height, width)))
  }

  /** Pixel index back from a coordinate: the inverse of origin + index * step. */
  function IndexOf(x: real, origin: real, step: real): real
    requires step != 0.0
  {
    (x - origin) / step
  }

  lemma StepInverse(i: int, origin: real, step: real)
    requires step != 0.0
    ensures IndexOf(origin + (i as real) * step, origin, step) == i as real
    ensures IndexOf(origin - (i as real) * step, origin, -step) == i as real
  {
  }

  /**
   * Over a non-degenerate area the pixel box can be read back from the
   * geographic box: columns from the western edge, rows from the northern.
   */
  lemma ProjectionInvertible(b: Box, area: GeoBox, height: nat, width: nat)
    requires height > 0 && width > 0
    requires area.minLon != area.maxLon && area.minLat != area.maxLat
    ensures LonStep(area, width) != 0.0 && LatStep(area, height) != 0.0
    ensures IndexOf(GeoOf(b, area, height, width).minLon, area.minLon, LonStep(area, width)) == b.minCol as real
    ensures IndexOf(GeoOf(b, area, height, width).maxLon, area.minLon, LonStep(area, width)) == b.maxCol as real
    ensures IndexOf(GeoOf(b, area, height, width).maxLat, area.maxLat, -LatStep(area, height)) == b.minRow as real
    ensures IndexOf(GeoOf(b, area, height, width).minLat, area.maxLat, -LatStep(area, height)) == b.maxRow as real
  {
    var sx := LonStep(area, width);
    var sy := LatStep(area, height);
    assert sx * (width as real) == area.maxLon - area.minLon;
    assert sy * (height as real) == area.maxLat - area.minLat;
    StepInverse(b.minCol, area.minLon, sx);
    StepInverse(b.maxCol, area.minLon, sx);
    StepInverse(b.minRow, area.maxLat, sy);
    StepInverse(b.maxRow, area.maxLat, sy);
  }

  /** The top-left pixel starts at the north-west corner of the area. */
  lemma OriginIsNorthWest(area: GeoBox, height: nat, width: nat)
    requires height > 0 && width > 0
    ensures GeoOf(Box(0, 0, 0, 0), area, height, width).minLon == area.minLon
    ensures GeoOf(Box(0, 0, 0, 0), area, height, width).maxLat == area.maxLat
  {
  }

  lemma MulMono(i: int, j: int, s: real)
    requires i <= j && s >= 0.0
    ensures (i as real) * s <= (j as real) * s
  {
    assert (j as real) * s - (i as real) * s == ((j - i) as real) * s;
  }

  lemma ScaleWithin(i: int, n: nat, lo: real, hi: real)
    requires 0 <= i < n && lo <= hi
    ensures lo <= lo + (i as real) * ((hi - lo) / (n as real)) <= hi - (hi - lo) / (n as real)
  {
    var s := (hi - lo) / (n as real);
    assert s >= 0.0;
    assert s * (n as real) == hi - lo;
    MulMono(i, n - 1, s);
    MulMono(0, i, s);
    assert ((n - 1) as real) * s == s * (n as real) - s;
  }

  /** Along one axis: indices lo <= hi inside 0..n-1 land between the origin and the far edge less one step. */
  lemma AxisInside(i: int, j: int, n: nat, lo: real, hi: real, s: real)
    requires 0 <= i <= j < n && lo <= hi && s == (hi - lo) / (n as real)
    ensures lo <= lo + (i as real) * s <= lo + (j as real) * s <= hi - s
  {
    ScaleWithin(i, n, lo, hi);
    ScaleWithin(j, n, lo, hi);
    MulMono(i, j, s);
  }

  /**
   * A box inside the image lands inside the area, with west <= east and
   * south <= north; its far edges stop one pixel step short of the area's
   * eastern and southern edges, because the maximum indices are inclusive.
   */
  lemma ProjectInside(b: Box, area: GeoBox, height: nat, width: nat)
    requires 0 <= b.minRow <= b.maxRow < height && 0 <= b.minCol <= b.maxCol < width
    requires area.minLon <= area.maxLon && area.minLat <= area.maxLat
    ensures
      var g := GeoOf(b, area, height, width);
      && area.minLon <= g.minLon <= g.maxLon <= area.maxLon - LonStep(area, width)
      && area.minLat + LatStep(area, height) <= g.minLat <= g.maxLat <= area.maxLat
  {
    LonInside(b, area, height, width);
    LatInside(b, area, height, width);
  }

  lemma LonInside(b: Box, area: GeoBox, height: nat, width: nat)
    requires height > 0 && 0 <= b.minCol <= b.maxCol < width && area.minLon <= area.maxLon
    ensures
      var g := GeoOf(b, area, height, width);
      area.minLon <= g.minLon <= g.maxLon <= area.maxLon - LonStep(area, width)
  {
    var g := GeoOf(b, area, height, width);
    var sx := LonStep(area, width);
    var west := area.minLon + (b.minCol as real) * sx;
    var east := area.minLon + (b.maxCol as real) * sx;
    AxisInside(b.minCol, b.maxCol, width, area.minLon, area.maxLon, sx);
    assert area.minLon <= west <= east <= area.maxLon - sx;
    assert g.minLon == west && g.maxLon == east;
  }

  lemma LatInside(b: Box, area: GeoBox, height: nat, width: nat)
    requires width > 0 && 0 <= b.minRow <= b.maxRow < height && area.minLat <= area.maxLat
    ensures
      var g := GeoOf(b, area, height, width);
      area.minLat + LatStep(area, height) <= g.minLat <= g.maxLat <= area.maxLat
  {
    var sy := LatStep(area, height);
    var top := (b.minRow as real) * sy;
    var bottom := (b.maxRow as real) * sy;
    AxisInside(b.minRow, b.maxRow, height, area.minLat, area.maxLat, sy);
    Flip(area.minLat, area.maxLat, sy, top, bottom);
  }

  /** Offsets measured down from the top edge, read from the bottom edge. */
  lemma Flip(lo: real, hi: real, step: real, top: real, bottom: real)
    requires lo <= lo + top <= lo + bottom <= hi - step
    ensures lo + step <= hi - bottom <= hi - top <= hi
  {
  }

  /** The box covering the whole image misses the last step in both directions. */
  lemma FullImageStopsShort(area: GeoBox, height: nat, width: nat)
    requires height > 0 && width > 0
    ensures
      var g := GeoOf(Box(0, height - 1, 0, width - 1), area, height, width);
      && g.minLon == area.minLon && g.maxLat == area.maxLat
      && g.maxLon == area.maxLon - LonStep(area, width)
      && g.minLat == area.minLat + LatStep(area, height)
  {
    var sx := LonStep(area, width);
    var sy := LatStep(area, height);
    assert sx * (width as real) == area.maxLon - area.minLon;
    assert sy * (height as real) == area.maxLat - area.minLat;
    assert ((width - 1) as real) * sx == sx * (width as real) - sx;
    assert ((height - 1) as real) * sy == sy * (height as real) - sy;
  }
}
