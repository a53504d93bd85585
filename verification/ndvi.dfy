/**
 * The NDVI processor: the vegetation index from the red and near-infrared
 * bands, the scaling and 3x3 median that precede it, the true-colour
 * composite and the byte normalisation of an index raster.
 */
module Ndvi {
  import opened Results
  import opened Grids
  import opened Median

  /** A height x width x bands image; px[r][c][b] is band b at pixel (r, c). Bands: red, NIR, blue, green. */
  datatype Image = Image(height: nat, width: nat, bands: nat, px: seq<seq<seq<real>>>)
  {
    predicate Valid()
    {
      && |px| == height
      && (forall r :: 0 <= r < height ==> |px[r]| == width)
      && (forall r, c :: 0 <= r < height && 0 <= c < width ==> |px[r][c]| == bands)
    }
  }

  datatype NdviError = MissingBand | EmptyImage

  const RedBand := 0
  const NirBand := 1
  const BlueBand := 2
  const GreenBand := 3

  /** Denominator stand-in when red + NIR is exactly zero. */
  const ZeroDenominator: real := 0.0001

  /** One band as a raster. */
  function Band(img: Image, b: nat): (g: seq<seq<real>>)
    requires img.Valid() && b < img.bands
    ensures IsGrid(g, img.height, img.width)
    ensures forall r, c :: 0 <= r < img.height && 0 <= c < img.width ==> g[r][c] == img.px[r][c][b]
  {
    seq(img.height, r requires 0 <= r < img.height =>
      seq(img.width, c requires 0 <= c < img.width => img.px[r][c][b]))
  }

  /** NDVI of one pixel, clipped to [-1, 1]. */
  function NdviPixel(red: real, nir: real): (v: real)
    ensures -1.0 <= v <= 1.0
    ensures red + nir != 0.0 ==> v == Clip((nir - red) / (nir + red), -1.0, 1.0)
    ensures red + nir == 0.0 ==> v == Clip((nir - red) / ZeroDenominator, -1.0, 1.0)
  {
    var den := if red + nir == 0.0 then ZeroDenominator else red + nir;
    Clip((nir - red) / den, -1.0, 1.0)
  }

  /** Exchanging red and NIR negates the index. */
  lemma NdviSwapNegates(red: real, nir: real)
    ensures NdviPixel(nir, red) == -NdviPixel(red, nir)
  {
    var den := if red + nir == 0.0 then ZeroDenominator else red + nir;
    assert (red - nir) / den == -((nir - red) / den);
  }

  /** A pixel dark in both bands has index 0 rather than a division by zero. */
  lemma NdviOfDarkPixel()
    ensures NdviPixel(0.0, 0.0) == 0.0
  {
  }

  /** With non-negative reflectances and a positive sum the ratio is already in range, so the clip changes nothing. */
  lemma NdviUnclipped(red: real, nir: real)
    requires red >= 0.0 && nir >= 0.0 && red + nir > 0.0
    ensures NdviPixel(red, nir) * (red + nir) == nir - red
  {
    var t := red + nir;
    var q := (nir - red) / t;
    assert q * t == nir - red;
    assert (q - 1.0) * t == nir - red - t <= 0.0;
    NonPositiveFactor(q - 1.0, t);
    assert (-1.0 - q) * t == red - nir - t <= 0.0;
    NonPositiveFactor(-1.0 - q, t);
  }

  /** calculate_ndvi: fails when the red or NIR band is missing. */
  function CalculateNdvi(img: Image): (res: Result<seq<seq<real>>, NdviError>)
    requires img.Valid()
    ensures res.Ok? <==> img.bands >= 2
    ensures res.Ok? ==> IsGrid(res.value, img.height, img.width)
    ensures res.Ok? ==> forall r, c :: 0 <= r < img.height && 0 <= c < img.width ==>
      -1.0 <= res.value[r][c] <= 1.0 && res.value[r][c] == NdviPixel(img.px[r][c][RedBand], img.px[r][c][NirBand])
  {
    if img.bands < 2 then Err(MissingBand)
    else Ok(seq(img.height, r requires 0 <= r < img.height =>
      seq(img.width, c requires 0 <= c < img.width => NdviPixel(img.px[r][c][RedBand], img.px[r][c][NirBand]))))
  }

  /** Images that agree on red and NIR have the same index raster. */
  lemma NdviUsesRedAndNir(a: Image, b: Image)
    requires a.Valid() && b.Valid() && a.height == b.height && a.width == b.width
    requires a.bands >= 2 && b.bands >= 2
    requires forall r, c :: 0 <= r < a.height && 0 <= c < a.width ==>
      a.px[r][c][RedBand] == b.px[r][c][RedBand] && a.px[r][c][NirBand] == b.px[r][c][NirBand]
    ensures CalculateNdvi(a) == CalculateNdvi(b)
  {
    var x := CalculateNdvi(a).value;
    var y := CalculateNdvi(b).value;
    forall r | 0 <= r < a.height
      ensures x[r] == y[r]
    {
      assert forall c :: 0 <= c < a.width ==> x[r][c] == y[r][c];
    }
    assert x == y;
  }

  /** Some value of the image exceeds 1: image_data.max() > 1. */
  predicate AnyAboveOne(img: Image): (above: bool)
    requires img.Valid()
    ensures !above <==> forall r, c, b :: 0 <= r < img.height && 0 <= c < img.width && 0 <= b < img.bands ==>
      img.px[r][c][b] <= 1.0
  {
    exists r, c, b :: 0 <= r < img.height && 0 <= c < img.width && 0 <= b < img.bands && img.px[r][c][b] > 1.0
  }

  /** Divide every value by 10000, the Sentinel-2 reflectance scale. */
  function Rescale(img: Image): (out: Image)
    requires img.Valid()
    ensures out.Valid() && out.height == img.height && out.width == img.width && out.bands == img.bands
    ensures forall r, c, b :: 0 <= r < img.height && 0 <= c < img.width && 0 <= b < img.bands ==>
      out.px[r][c][b] * 10000.0 == img.px[r][c][b]
  {
    Image(img.height, img.width, img.bands,
      seq(img.height, r requires 0 <= r < img.height =>
        seq(img.width, c requires 0 <= c < img.width =>
          seq(img.bands, b requires 0 <= b < img.bands => img.px[r][c][b] / 10000.0))))
  }

  /** Replicated border: an out-of-range index reads the nearest edge. */
  function ClampIndex(i: int, n: nat): (j: nat)
    requires n > 0
    ensures j < n
    ensures 0 <= i < n ==> j == i
  {
    if i < 0 then 0 else if i >= n then n - 1 else i
  }

  /** The nine values of the 3x3 window around (r, c), border replicated. */
  function Window(g: seq<seq<real>>, h: nat, w: nat, r: nat, c: nat): (s: seq<real>)
    requires IsGrid(g, h, w) && r < h && c < w
    ensures |s| == 9
    ensures forall i :: 0 <= i < 9 ==> s[i] == g[ClampIndex(r - 1 + i / 3, h)][ClampIndex(c - 1 + i % 3, w)]
  {
    seq(9, i requires 0 <= i < 9 => g[ClampIndex(r - 1 + i / 3, h)][ClampIndex(c - 1 + i % 3, w)])
  }

  /** cv2.medianBlur with aperture 3 on one band. */
  function MedianFilter(g: seq<seq<real>>, h: nat, w: nat): (f: seq<seq<real>>)
    requires IsGrid(g, h, w)
    ensures IsGrid(f, h, w)
    ensures forall r, c :: 0 <= r < h && 0 <= c < w ==>
      f[r][c] in Window(g, h, w, r, c)
      && CountAtMost(Window(g, h, w, r, c), f[r][c]) >= 5
      && CountAtLeast(Window(g, h, w, r, c), f[r][c]) >= 5
  {
    seq(h, r requires 0 <= r < h => seq(w, c requires 0 <= c < w => MedianOf9(Window(g, h, w, r, c))))
  }

  /** A constant band passes through the median unchanged. */
  lemma MedianFilterConstant(g: seq<seq<real>>, h: nat, w: nat, v: real)
    requires IsGrid(g, h, w)
    requires forall r, c :: 0 <= r < h && 0 <= c < w ==> g[r][c] == v
    ensures forall r, c :: 0 <= r < h && 0 <= c < w ==> MedianFilter(g, h, w)[r][c] == v
  {
    forall r, c | 0 <= r < h && 0 <= c < w
      ensures MedianFilter(g, h, w)[r][c] == v
    {
      var s := Window(g, h, w, r, c);
      MedianConstant(s, v);
    }
  }

  /** Filtered values stay within the range of the band's values. */
  lemma MedianFilterRange(g: seq<seq<real>>, h: nat, w: nat, lo: real, hi: real)
    requires IsGrid(g, h, w)
    requires forall r, c :: 0 <= r < h && 0 <= c < w ==> lo <= g[r][c] <= hi
    ensures forall r, c :: 0 <= r < h && 0 <= c < w ==> lo <= MedianFilter(g, h, w)[r][c] <= hi
  {
    forall r, c | 0 <= r < h && 0 <= c < w
      ensures lo <= MedianFilter(g, h, w)[r][c] <= hi
    {
      var s := Window(g, h, w, r, c);
      MedianBetween(s, lo, hi);
    }
  }

  /** The image the median runs on: rescaled exactly when some value exceeds 1. */
  function ScaleStep(img: Image): (out: Image)
    requires img.Valid()
    ensures out.Valid() && out.height == img.height && out.width == img.width && out.bands == img.bands
    ensures AnyAboveOne(img) ==> forall r, c, b :: 0 <= r < img.height && 0 <= c < img.width && 0 <= b < img.bands ==>
      out.px[r][c][b] * 10000.0 == img.px[r][c][b]
    ensures !AnyAboveOne(img) ==> out == img
  {
    if AnyAboveOne(img) then Rescale(img) else img
  }

  /**
   * preprocess_image: scale, then a 3x3 median on each band separately.
   * max() of an empty image raises, modelled as EmptyImage.
   */
  function Preprocess(img: Image): (res: Result<Image, NdviError>)
    requires img.Valid()
    ensures res.Ok? <==> img.height > 0 && img.width > 0 && img.bands > 0
    ensures res.Ok? ==>
      && res.value.Valid()
      && res.value.height == img.height && res.value.width == img.width && res.value.bands == img.bands
      && forall b :: 0 <= b < img.bands ==>
           Band(res.value, b) == MedianFilter(Band(ScaleStep(img), b), img.height, img.width)
  {
    if img.height == 0 || img.width == 0 || img.bands == 0 then Err(EmptyImage)
    else
      var s := ScaleStep(img);
      var out := Image(img.height, img.width, img.bands,
        seq(img.height, r requires 0 <= r < img.height =>
          seq(img.width, c requires 0 <= c < img.width =>
            seq(img.bands, b requires 0 <= b < img.bands =>
              MedianFilter(Band(s, b), img.height, img.width)[r][c]))));
      assert forall b :: 0 <= b < img.bands ==>
        Band(out, b) == MedianFilter(Band(s, b), img.height, img.width) by {
        forall b | 0 <= b < img.bands
          ensures Band(out, b) == MedianFilter(Band(s, b), img.height, img.width)
        {
          var x := Band(out, b);
          var y := MedianFilter(Band(s, b), img.height, img.width);
          assert forall r :: 0 <= r < img.height ==> x[r] == y[r];
        }
      }
      Ok(out)
  }

  /** One byte of the true-colour composite: scale to 0..255, clip, truncate. */
  function ToByte(v: real): (n: nat)
    ensures n <= 255
    ensures v * 255.0 <= 0.0 ==> n == 0
    ensures 1.0 <= v ==> n == 255
    ensures 0.0 <= v * 255.0 <= 255.0 ==> n as real <= v * 255.0 < n as real + 1.0
  {
    Clip(v * 255.0, 0.0, 255.0).Floor
  }

  /** Output channel k reads band ChannelBand(k): red, green, blue. */
  function ChannelBand(k: nat): (b: nat)
    requires k < 3
    ensures b == [RedBand, GreenBand, BlueBand][k]
  {
    if k == 0 then RedBand else if k == 1 then GreenBand else BlueBand
  }

  /** create_rgb_image: fails when the green band (index 3) is missing. */
  function CreateRgb(img: Image): (res: Result<seq<seq<seq<nat>>>, NdviError>)
    requires img.Valid()
    ensures res.Ok? <==> img.bands >= 4
    ensures res.Ok? ==> IsGrid(res.value, img.height, img.width)
    ensures res.Ok? ==> forall r, c :: 0 <= r < img.height && 0 <= c < img.width ==>
      res.value[r][c] == [ToByte(img.px[r][c][RedBand]), ToByte(img.px[r][c][GreenBand]), ToByte(img.px[r][c][BlueBand])]
  {
    if img.bands < 4 then Err(MissingBand)
    else Ok(seq(img.height, r requires 0 <= r < img.height =>
      seq(img.width, c requires 0 <= c < img.width =>
        seq(3, k requires 0 <= k < 3 => ToByte(img.px[r][c][ChannelBand(k)])))))
  }

  /** The byte the colour map is looked up with: (v + 1) * 127.5, truncated. */
  function NormalizeNdvi(v: real): (n: nat)
    requires -1.0 <= v <= 1.0
    ensures n <= 255
    ensures n as real <= (v + 1.0) * 127.5 < n as real + 1.0
    ensures v == -1.0 ==> n == 0
    ensures v == 1.0 ==> n == 255
  {
    ((v + 1.0) * 127.5).Floor
  }

  /** A higher index never maps to a lower byte. */
  lemma NormalizeMonotone(a: real, b: real)
    requires -1.0 <= a <= b <= 1.0
    ensures NormalizeNdvi(a) <= NormalizeNdvi(b)
  {
  }

  /** The whole raster, for an index raster in [-1, 1]. */
  function NormalizeRaster(g: seq<seq<real>>): (out: seq<seq<nat>>)
    requires forall r, c :: 0 <= r < |g| && 0 <= c < |g[r]| ==> -1.0 <= g[r][c] <= 1.0
    ensures SameShape(out, g)
    ensures forall r, c :: 0 <= r < |g| && 0 <= c < |g[r]| ==>
      out[r][c] <= 255 && out[r][c] as real <= (g[r][c] + 1.0) * 127.5 < out[r][c] as real + 1.0
  {
    seq(|g|, r requires 0 <= r < |g| => seq(|g[r]|, c requires 0 <= c < |g[r]| => NormalizeNdvi(g[r][c])))
  }
}
