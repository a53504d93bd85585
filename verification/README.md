# CarbonEye deforestation core, modelled in Dafny

CarbonEye flags likely deforestation. It compares two satellite images of one
rectangle of the Earth, taken some days apart, through their vegetation index
(NDVI). This project models the three Python files where that happens:

- `backend/app/ml/ndvi_processor.py` turns a multi-band image into an NDVI
  raster. It rescales raw reflectances, applies a 3x3 median filter to every
  band and computes `(NIR - Red) / (NIR + Red)` with a guarded denominator,
  clipped to [-1, 1]. It also builds the RGB preview and the 0..255 NDVI
  scaling.
- `backend/app/ml/change_detector.py` differences two NDVI rasters and
  thresholds the difference. It cleans the mask with a 3x3 closing and then a
  3x3 opening. It then labels the mask's 4-connected regions and reports every
  region that is large and confident enough: its bounding box, pixel count,
  mean change, confidence and severity. Reports are most confident first, and
  pixel boxes are projected onto the requested longitude/latitude rectangle.
- `backend/app/api/endpoints.py` holds the logic of the HTTP layer:
  - the coordinate validator, which collects every error;
  - the first-failure-wins checks at the top of the analysis endpoint;
  - the analysis pipeline, with the satellite fetch as an input;
  - the summary counts.

Rasters are rectangular `seq<seq<_>>` of exact `real`s. Python and numpy
failures become `Result` errors: a missing band, an empty image, mismatched
shapes, a zero image dimension. HTTP failures become the `AnalyzeError` and
`ValidationFailure` datatypes.

The modules follow the program's structure:

| file | module | what |
|---|---|---|
| results.dfy | Results | `Result` datatype |
| grids.dfy | Grids | raster shapes, clipping, counting |
| morphology.dfy | Morphology | 3x3 dilation, erosion, closing, opening |
| labeling.dfy | Labeling | 4-connected component labelling (ndimage.label) |
| regions.dfy | Regions | per-label area, sum, mean and bounding box |
| detections.dfy | Detections | severity bands, detection records, stable confidence sort |
| change_detector.dfy | ChangeDetection | detect_changes and _extract_detections |
| projection.dfy | Projection | convert_pixel_to_coordinates |
| median.dfy | Median | median of a 3x3 window |
| ndvi.dfy | Ndvi | the NDVI processor |
| endpoints.dfy | Endpoints | validator, request checks, pipeline and summary |

The settings in `backend/app/core/config.py` (-0.3, 100, 0.6) equal the
detector's defaults. Both are `ChangeDetection.DefaultConfig`.

Three details of the code that the model keeps:

- The NDVI denominator is replaced by 0.0001 when it is zero (`backend/app/ml/ndvi_processor.py:25-26`).
- Labelling uses ndimage's default 4-connectivity.
- Projecting the whole image stops one pixel step short of the east and south edges (`Projection.FullImageStopsShort`), because the maximum pixel indices are inclusive.

## Model

| member | source | states |
|---|---|---|
| Grids.Clip | backend/app/ml/ndvi_processor.py:32 | the result lies in [lo, hi]; it equals the input when the input is in range, else the nearer bound |
| Grids.CountGrid | backend/app/ml/change_detector.py:46 | the number of cells equal to a value is at most the raster's size (exact value: Grids.CountGridCells) |
| Grids.CountInRowCells | backend/app/ml/change_detector.py:46 | a row's count of a value is the number of its positions holding that value |
| Grids.CountGridCells | backend/app/ml/change_detector.py:46 | the raster count of a value is the number of (row, col) cells holding it, the set `np.sum` of a 0/1 mask counts |
| Morphology.Dilate | backend/app/ml/change_detector.py:30-31 | same shape; a pixel is set exactly when some in-image pixel of its 3x3 neighbourhood is set |
| Morphology.Erode | backend/app/ml/change_detector.py:30-32 | same shape; a pixel stays set exactly when every in-image pixel of its 3x3 neighbourhood is set |
| Morphology.Close | backend/app/ml/change_detector.py:31 | closing keeps the mask's shape |
| Morphology.Open | backend/app/ml/change_detector.py:32 | opening keeps the mask's shape |
| Morphology.Clean | backend/app/ml/change_detector.py:30-32 | closing then opening keeps the mask's shape |
| Morphology.ErodeShrinks | backend/app/ml/change_detector.py:30-32 | erosion never sets a pixel that was clear |
| Morphology.DilateGrows | backend/app/ml/change_detector.py:30-32 | dilation never clears a set pixel |
| Morphology.ErodeDualDilate | backend/app/ml/change_detector.py:30-32 | erosion is the complement of dilating the complement |
| Morphology.CloseExtensive | backend/app/ml/change_detector.py:31 | closing only adds pixels: every changed pixel survives the closing |
| Morphology.OpenAntiExtensive | backend/app/ml/change_detector.py:32 | opening only removes pixels |
| Morphology.OpenedPixel | backend/app/ml/change_detector.py:32 | a pixel near a surviving eroded pixel was set in the mask before the opening |
| Morphology.CleanKeepsEmpty | backend/app/ml/change_detector.py:30-32 | cleaning an empty mask leaves it empty |
| Morphology.CleanKeepsFull | backend/app/ml/change_detector.py:30-32 | cleaning a full mask leaves it full |
| Labeling.LitPixels | backend/app/ml/change_detector.py:35 | exactly the set pixels of the mask |
| Labeling.Grow | backend/app/ml/change_detector.py:35 | a region plus exactly the lit edge-neighbours of its pixels |
| Labeling.Fill | backend/app/ml/change_detector.py:35 | the flood fill contains the start region, stays on lit pixels and is closed under lit edge-neighbours |
| Labeling.FillLinked | backend/app/ml/change_detector.py:35 | flooding from pixels reachable from s reaches only pixels reachable from s |
| Labeling.ComponentExact | backend/app/ml/change_detector.py:35 | the flood fill from a lit pixel is exactly the set of pixels reachable from it by 4-connected lit steps |
| Labeling.Component | backend/app/ml/change_detector.py:35 | the region of a lit seed contains it, is lit and closed, and is exactly the pixels linked to the seed |
| Labeling.LinkedSymmetric | backend/app/ml/change_detector.py:35 | 4-connectivity is symmetric |
| Labeling.LinkedTransitive | backend/app/ml/change_detector.py:35 | 4-connectivity is transitive |
| Labeling.PaintStep | backend/app/ml/change_detector.py:35 | painting the region of a new seed with the next label keeps every scan invariant, one pixel further on |
| Labeling.SkipStep | backend/app/ml/change_detector.py:35 | skipping a background or already labelled pixel keeps every scan invariant |
| Labeling.Visit | backend/app/ml/change_detector.py:35 | one raster-order step of the labelling keeps the scan invariant |
| Labeling.Scan | backend/app/ml/change_detector.py:35 | the raster scan ends with every lit pixel labelled and the invariant intact |
| Labeling.Label | backend/app/ml/change_detector.py:35 | lit pixels get exactly the labels 1..count and background stays 0; labels are closed under 4-adjacency; each label has a seed pixel, seeds come in raster order, and each pixel is reachable from, and not before, its seed |
| Labeling.FinishedScan | backend/app/ml/change_detector.py:35 | a finished scan is a complete labelling |
| Labeling.PathKeepsLabel | backend/app/ml/change_detector.py:35 | a lit path never changes label |
| Labeling.SameLabelIffLinked | backend/app/ml/change_detector.py:35 | two lit pixels share a label exactly when they are 4-connected |
| Regions.Area | backend/app/ml/change_detector.py:66-67 | a component's pixel count is the number of cells labelled with its label, at most the raster's size |
| Regions.AreaPositive | backend/app/ml/change_detector.py:64-67 | a label has a positive pixel count exactly when it occurs |
| Regions.SumOverBounds | backend/app/ml/change_detector.py:79 | a region's sum lies between area x lower bound and area x upper bound |
| Regions.Mean | backend/app/ml/change_detector.py:79-80 | the mean times the region's pixel count is the sum of the difference over the region |
| Regions.MeanBounds | backend/app/ml/change_detector.py:79-80 | the mean lies between any bounds of the region's values |
| Regions.FirstRow | backend/app/ml/change_detector.py:74-75 | the first row at or after from that holds the label |
| Regions.LastRow | backend/app/ml/change_detector.py:74-75 | the last row before upto that holds the label |
| Regions.FirstCol | backend/app/ml/change_detector.py:74-76 | the first column at or after from that holds the label |
| Regions.LastCol | backend/app/ml/change_detector.py:74-76 | the last column before upto that holds the label |
| Regions.BoundingBox | backend/app/ml/change_detector.py:74-76 | the box lies inside the image, encloses every pixel of the label, and each of its four edges touches one |
| Regions.AreaWithinBox | backend/app/ml/change_detector.py:67-76 | a region's pixel count is at most its bounding box's area |
| Detections.SeverityOf | backend/app/ml/change_detector.py:115-122 | Critical at or below -0.5, High in (-0.5, -0.4], Medium in (-0.4, -0.3], Low above -0.3, each an iff |
| Detections.SeverityMonotone | backend/app/ml/change_detector.py:115-122 | a smaller mean change never gets a lower severity |
| Detections.Insert | backend/app/ml/change_detector.py:101 | inserting adds exactly the one detection (multiset) |
| Detections.InsertSorted | backend/app/ml/change_detector.py:101 | insertion keeps confidences non-increasing |
| Detections.SortByConfidence | backend/app/ml/change_detector.py:101 | the result is a permutation of the input with confidences non-increasing |
| Detections.SortSameElements | backend/app/ml/change_detector.py:101 | sorting neither adds nor drops a detection |
| Detections.InsertOrdered | backend/app/ml/change_detector.py:101 | inserting a detection with a smaller id than all others keeps the (confidence desc, id asc) order |
| Detections.SortStable | backend/app/ml/change_detector.py:101 | the sort is stable: from a list in label order, ties in confidence stay in label order |
| Detections.SortKeepsIdsDistinct | backend/app/ml/change_detector.py:101 | the sorted list repeats no id |
| ChangeDetection.Difference | backend/app/ml/change_detector.py:24 | same shape, and earlier + difference == later at every pixel |
| ChangeDetection.RawMask | backend/app/ml/change_detector.py:27 | a pixel is marked exactly when its difference is strictly below the threshold |
| ChangeDetection.Confidence | backend/app/ml/change_detector.py:81 | in [0, 1]; exactly 1 when the mean's magnitude reaches the threshold's; otherwise confidence x threshold magnitude == mean magnitude |
| ChangeDetection.ConfidenceMonotone | backend/app/ml/change_detector.py:81 | a larger mean magnitude never lowers the confidence |
| ChangeDetection.Kept | backend/app/ml/change_detector.py:70-84 | a kept region has at least minArea pixels and a threshold of at most 1; a large enough region whose mean reaches the change threshold is kept whenever the threshold is at most 1 |
| ChangeDetection.Describe | backend/app/ml/change_detector.py:85-97 | the detection of region k carries id k |
| ChangeDetection.Collect | backend/app/ml/change_detector.py:64-98 | the loop's detections have ids in from..count, in increasing order |
| ChangeDetection.CollectSound | backend/app/ml/change_detector.py:64-98 | everything collected describes a region that occurs and passes both filters |
| ChangeDetection.CollectComplete | backend/app/ml/change_detector.py:64-98 | every region that passes both filters is collected |
| ChangeDetection.DescribeReports | backend/app/ml/change_detector.py:73-97 | a kept region's detection reports its pixel count, mean, confidence, severity and tight bounding box |
| ChangeDetection.CollectedSound | backend/app/ml/change_detector.py:62-98 | each collected detection has an id in 1..count and reports its region faithfully |
| ChangeDetection.CollectedComplete | backend/app/ml/change_detector.py:62-98 | a label in 1..count is kept exactly when some collected detection carries its id |
| ChangeDetection.Extract | backend/app/ml/change_detector.py:50-103 | sorted by confidence desc then id asc, no id twice; every entry reports a kept region, and every kept region has an entry |
| ChangeDetection.Percentage | backend/app/ml/change_detector.py:47 | in [0, 100], and percentage x size == 100 x changed |
| ChangeDetection.LabelsOccur | backend/app/ml/change_detector.py:35-39 | every label 1..count of the cleaned mask occurs in the label raster |
| ChangeDetection.DetectionsOf | backend/app/ml/change_detector.py:35-40 | every detection reports (pixel count, mean, confidence, severity, tight box) a region of the labelled mask that passes both filters, and every such region is reported; ordered by confidence, distinct ids, boxes inside the image |
| ChangeDetection.DetectChanges | backend/app/ml/change_detector.py:12-48 | succeeds exactly on same-shaped non-empty rasters; the mask is the cleaned thresholded difference; the changed-pixel total is the mask's count; the percentage is that total's share of the raster |
| ChangeDetection.QuietMaskEmpty | backend/app/ml/change_detector.py:27-32 | no pixel below the threshold gives an empty cleaned mask |
| ChangeDetection.EmptyMaskNothing | backend/app/ml/change_detector.py:35-46 | an empty mask has no regions and no changed pixels |
| ChangeDetection.NoRegionsNoDetections | backend/app/ml/change_detector.py:62-103 | no regions gives no detections |
| ChangeDetection.NoChangeNoDetections | backend/app/ml/change_detector.py:24-47 | when no pixel's NDVI falls by more than the threshold, detection succeeds with no detections, no changed pixels and 0 percent |
| ChangeDetection.NoShareIsZero | backend/app/ml/change_detector.py:47 | zero changed pixels is zero percent |
| Projection.LonStep | backend/app/ml/change_detector.py:140 | the column step times the width spans the area's longitudes; non-negative over an ordered area |
| Projection.LatStep | backend/app/ml/change_detector.py:141 | the row step times the height spans the area's latitudes; non-negative over an ordered area |
| Projection.GeoOf | backend/app/ml/change_detector.py:147-152 | west and east edges lie minCol and maxCol column steps east of the area's west edge; north and south edges minRow and maxRow row steps south of its north edge |
| Projection.GeoOfFractions | backend/app/ml/change_detector.py:140-152 | each projected edge sits at the fraction of the area's extent that its pixel index is of the image's size |
| Projection.CenterOf | backend/app/ml/change_detector.py:155-160 | the centre is equidistant from both edges on each axis and lies between them |
| Projection.Locate | backend/app/ml/change_detector.py:143-160 | keeps the detection; the centre is that of its geographic box |
| Projection.Project | backend/app/ml/change_detector.py:136-162 | fails exactly on a zero image dimension; otherwise one entry per detection, same order, with the projected box and its centre |
| Projection.ProjectionInvertible | backend/app/ml/change_detector.py:140-152 | over a non-degenerate area the pixel box is recovered from the geographic box (columns from the west edge, rows from the north edge) |
| Projection.OriginIsNorthWest | backend/app/ml/change_detector.py:148-151 | pixel (0, 0) starts at the area's north-west corner |
| Projection.ProjectInside | backend/app/ml/change_detector.py:140-152 | a box inside the image projects inside the area with west <= east and south <= north, stopping one pixel step short of the east and south edges |
| Projection.LonInside | backend/app/ml/change_detector.py:148-149 | the longitude half of ProjectInside |
| Projection.LatInside | backend/app/ml/change_detector.py:150-151 | the latitude half of ProjectInside, with rows flipped |
| Projection.FullImageStopsShort | backend/app/ml/change_detector.py:140-152 | the box of the whole image projects to the area less one pixel step on the east and south sides |
| Median.SortReals | backend/app/ml/ndvi_processor.py:52-53 | ascending permutation of the input |
| Median.CountsPermutation | backend/app/ml/ndvi_processor.py:52-53 | rank counts do not depend on the order of the window |
| Median.MedianOf9 | backend/app/ml/ndvi_processor.py:52-53 | the median is a window value with at least five values <= it and at least five >= it |
| Median.MedianUnique | backend/app/ml/ndvi_processor.py:52-53 | any value with that rank property is the median |
| Median.MedianBetween | backend/app/ml/ndvi_processor.py:52-53 | the median stays within any bounds of the window |
| Median.MedianConstant | backend/app/ml/ndvi_processor.py:52-53 | a constant window has that constant as median |
| Ndvi.Band | backend/app/ml/ndvi_processor.py:21-22 | the raster of one band of the image |
| Ndvi.NdviPixel | backend/app/ml/ndvi_processor.py:25-32 | in [-1, 1]; the clipped ratio (NIR - Red) / (NIR + Red), with 0.0001 as denominator when the sum is zero |
| Ndvi.NdviSwapNegates | backend/app/ml/ndvi_processor.py:29 | swapping Red and NIR negates the index |
| Ndvi.NdviOfDarkPixel | backend/app/ml/ndvi_processor.py:25-26 | a pixel with zero Red and NIR has index 0 |
| Ndvi.NdviUnclipped | backend/app/ml/ndvi_processor.py:29-32 | for non-negative reflectances the clip does nothing: index x (NIR + Red) == NIR - Red |
| Ndvi.CalculateNdvi | backend/app/ml/ndvi_processor.py:9-34 | fails exactly when there are fewer than two bands; otherwise every pixel is the NDVI of its Red and NIR values |
| Ndvi.NdviUsesRedAndNir | backend/app/ml/ndvi_processor.py:20-22 | images that agree on Red and NIR have the same NDVI |
| Ndvi.Rescale | backend/app/ml/ndvi_processor.py:48 | every value is divided by 10000 |
| Ndvi.ScaleStep | backend/app/ml/ndvi_processor.py:47-48 | divides by 10000 exactly when some value exceeds 1, else leaves the image alone |
| Ndvi.ClampIndex | backend/app/ml/ndvi_processor.py:52-53 | a replicated-border index lies in range and equals the index when that is already in range |
| Ndvi.Window | backend/app/ml/ndvi_processor.py:52-53 | the nine values of the 3x3 window around a pixel, border replicated |
| Ndvi.MedianFilter | backend/app/ml/ndvi_processor.py:52-53 | every output pixel is a value of its window with at least five window values <= it and five >= it |
| Ndvi.MedianFilterConstant | backend/app/ml/ndvi_processor.py:52-53 | a constant band is left unchanged |
| Ndvi.MedianFilterRange | backend/app/ml/ndvi_processor.py:52-53 | filtering never leaves the range of the input band |
| Ndvi.Preprocess | backend/app/ml/ndvi_processor.py:36-56 | fails exactly on an empty image; otherwise each band is the median-filtered band of the conditionally rescaled image |
| Ndvi.ToByte | backend/app/ml/ndvi_processor.py:76 | value x 255 clipped to 0..255 and truncated |
| Ndvi.AnyAboveOne | backend/app/ml/ndvi_processor.py:47 | the rescaling test fails exactly when no value of the image exceeds 1 |
| Ndvi.ChannelBand | backend/app/ml/ndvi_processor.py:68-73 | the RGB channels read bands 0, 3 and 2 |
| Ndvi.CreateRgb | backend/app/ml/ndvi_processor.py:58-78 | fails exactly when there are fewer than four bands; otherwise each pixel is the bytes of its Red, Green and Blue bands |
| Ndvi.NormalizeNdvi | backend/app/ml/ndvi_processor.py:91 | (v + 1) x 127.5 truncated: -1 maps to 0, 1 to 255 |
| Ndvi.NormalizeMonotone | backend/app/ml/ndvi_processor.py:91 | the scaling never reverses the order of two indices |
| Ndvi.NormalizeRaster | backend/app/ml/ndvi_processor.py:91 | every pixel of an index raster is scaled and truncated to a byte |
| Endpoints.AreaKm2 | backend/app/api/endpoints.py:225 | the area estimate is never negative |
| Endpoints.ErrorIf | backend/app/api/endpoints.py:212-222 | a failed check contributes exactly its error, a passed one nothing |
| Endpoints.ShapeErrors | backend/app/api/endpoints.py:212-222 | each ordering or range error is present exactly when its check fails |
| Endpoints.ShapeErrorsRanked | backend/app/api/endpoints.py:212-222 | the four errors come in the order the checks run, each at most once |
| Endpoints.ErrorsFor | backend/app/api/endpoints.py:210-228 | all five errors, each present exactly when its check fails, in check order; the area error carries the computed area |
| Endpoints.CoordinateErrors | backend/app/api/endpoints.py:208-228 | the same, for the rectangle's own area |
| Endpoints.NoErrorsIffAcceptable | backend/app/api/endpoints.py:230-237 | no errors exactly when all five checks pass |
| Endpoints.BoxOf | backend/app/api/endpoints.py:208 | the list unpacks as [min_lon, min_lat, max_lon, max_lat] |
| Endpoints.ValidateCoordinates | backend/app/api/endpoints.py:198-237 | a wrong-length list fails first; otherwise success exactly when every check passes, returning the area, and failure carries the full non-empty error list |
| Endpoints.CheckRequestBox | backend/app/api/endpoints.py:80-98 | first failure wins: ordering, then longitude, then latitude, each an iff; no area limit |
| Endpoints.RequestCheckMatchesValidator | backend/app/api/endpoints.py:80-98 | the endpoint accepts a box exactly when the validator's only complaint, if any, is the area |
| Endpoints.CountHighConfidence | backend/app/api/endpoints.py:148 | at most the number of detections (exact value: Endpoints.HighConfidenceIndices) |
| Endpoints.HighConfidenceIndices | backend/app/api/endpoints.py:148 | the count is the number of list positions whose confidence exceeds 0.8 |
| Endpoints.HighConfidenceCountZero | backend/app/api/endpoints.py:148 | the count is zero exactly when no confidence exceeds 0.8 |
| Endpoints.CountCritical | backend/app/api/endpoints.py:149 | at most the number of detections (exact value: Endpoints.CriticalIndices) |
| Endpoints.CriticalIndices | backend/app/api/endpoints.py:149 | the count is the number of list positions whose severity is Critical |
| Endpoints.CriticalCountZero | backend/app/api/endpoints.py:149 | the count is zero exactly when no detection is Critical |
| Endpoints.CriticalWithinHigh | backend/app/api/endpoints.py:148-149 | when every Critical detection is high-confidence, the Critical count is at most the high-confidence count |
| Endpoints.CriticalIsConfident | backend/app/ml/change_detector.py:81-116 | with a threshold of magnitude at most 0.5, a Critical mean has confidence 1 |
| Endpoints.SummaryOf | backend/app/api/endpoints.py:144-153 | total detections is the list's length; the high-confidence and Critical counts are the numbers of positions with confidence above 0.8 and with Critical severity; changed pixels and percentage are passed through; the area is the rectangle's estimate |
| Endpoints.IndexRasters | backend/app/api/endpoints.py:113-119 | succeeds exactly when both images have a pixel and at least two bands; then each raster is the index of the preprocessed image, of that image's height and width |
| Endpoints.AcceptedIffSameSize | backend/app/api/endpoints.py:118-122 | two non-empty index rasters are accepted by the detector exactly when their heights and widths agree |
| Endpoints.FromRasters | backend/app/api/endpoints.py:121-155 | succeeds exactly when the detector accepts the rasters; the detections are the detector's, projected onto the area with the first raster's shape; changed pixels and percentage are the detector's; the summary is consistent and every detection passed both filters |
| Endpoints.Analyze | backend/app/api/endpoints.py:76-167 | a bad box is rejected with its own error before fetching; a failed fetch gives FetchFailed; succeeds exactly when the box passes, the fetch succeeds and both images are non-empty, have two bands and agree in size; the detections are the projected detector output; changed pixels and percentage are the detector's; an unusable fetch is Internal; the result is consistent |
| Endpoints.BadBoxIgnoresFetch | backend/app/api/endpoints.py:79-111 | a rejected box gets the same box error whatever the fetch returns |
| Endpoints.DefaultCriticalAreHighConfidence | backend/app/api/endpoints.py:144-153 | under the configured thresholds the Critical count never exceeds the high-confidence count |

## Left out

- The satellite fetch (`satellite_fetcher.py`, network and credentials) is not part of this model. `Endpoints.Analyze` takes its outcome as a parameter.
- The `/health` and `/config` endpoints, FastAPI routing, dependency injection, status codes, message strings, timestamps and logging are plain I/O.
- The JavaScript servers, the frontend and the date utilities are not part of this model.
- The pydantic length rule on the analysis request (exactly four floats) is not modelled. `Endpoints.Analyze` takes the rectangle already unpacked.
- Python float, numpy `float32` and `uint8` arithmetic is not modelled. Values are exact reals, so rounding error and NaN/inf propagation do not arise.
- `round(…, 2)` in the validator result and the summary is omitted. The model keeps the unrounded value.
- `applyColorMap` (the colour table) in `enhance_ndvi_visualization` is a foreign lookup table. Only the 0..255 scaling before it is modelled.
- The unused `MinMaxScaler` and `DBSCAN` imports are not modelled.
- In-place mutation is not modelled: `convert_pixel_to_coordinates` writing into the detection dicts, and `preprocess_image` writing into its argument. Both are modelled as returning new values.
- ChangeDetection.Confidence: requires a non-zero threshold, because Python would produce inf or nan there. The configured threshold is -0.3.
- ChangeDetection.DetectChanges: numpy broadcasting of differently shaped rasters is modelled as a `ShapeMismatch` error, and an empty raster as `EmptyRaster`. In Python these would be a broadcast result, or a cv2 error in the morphology step.
- Ndvi.NormalizeNdvi: requires an index in [-1, 1]. A float-to-`uint8` cast outside 0..255 is platform dependent, and `CalculateNdvi` never produces such a value.
- Ndvi.MedianFilter: states the rank property of cv2's 3x3 median with a replicated border. cv2's own float32 code path is not modelled.
- Labeling.Label: `ndimage.label` is library code. It is modelled by its documented result: 4-connectivity, labels numbered in the raster order of each region's first pixel. Its own algorithm is not modelled.
