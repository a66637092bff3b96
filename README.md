# QGIS python tools: closest geometry, label placement, point sums, raster clip

A Dafny model of the computational core of a collection of QGIS Processing algorithms and
expression functions:

- **Closest geometry** (`ClosestGeometry`): for every input point, scan the features of a second
  layer, prune candidates whose bounding box is not closer than the best distance so far,
  measure the rest exactly, and emit one line feature from the point to the closest point found,
  carrying the point's id, a candidate id and the distance. Cancellation and the Python
  locals that can be read before they are assigned are part of the model.
- **Label placement expressions** (`Placement`, `Expressions`, `LabelsExpressions`): find the
  first part of the neighbouring feature that intersects a feature (or the whole neighbour when
  none does), take the closest point on it to the feature's centroid, and derive either a sector code from the azimuth or a point pushed outward
  along the centroid-to-border line.
- **Sum points to neighbouring polygons** (`SumPoints`): in an editing session, optionally zero a
  field of every polygon, then for each point select the polygons containing it, replace that
  selection by the polygons touching or overlapping them, add the point's value to the field of
  each polygon in this second selection (a containing polygon gets the value only if it is also
  in it), and commit once.
- **Clip raster by layer** (`RasterClip`): assemble the `gdalwarp` command line from the
  parameters, check the clipping layer's CRS, and the table of output data types.

QGIS geometry operations (bounding-box distance, closest point, azimuth, line extension,
intersection, parts, centroid, reprojection) and the GDAL helpers are parameters of the model:
records of functions (`Qgis.Library`, `RasterClip.GdalUtils`) about which nothing is assumed,
except that a lemma may require the bounding-box distance to be a lower bound of the exact
distance. Coordinates and distances are reals. Cancellation is an oracle `canceled(i, j)`: the
answer of the `j`-th `isCanceled()` query for input point `i`.

The imperative parts keep their form: the closest-geometry loops are methods over a `Sink`
class, proved against recursive specification functions (`Inner`, `Process`); the part search
is a loop with an early exit; the point sum mutates a `PolygonLayer` class with an edit buffer,
a selection and a commit; the argument list is built by successive appends and specified by a
decoder that reads it back.

## Model

| member | source | states |
|---|---|---|
| ClosestGeometry.ShapeFor | collections/python_tools/processing/ClosestGeometryAlgorithm.py:129-142 | polygon and multipolygon layers are checked as polygons, line and multiline layers as line strings, point and multipoint layers as points (each an if-and-only-if) |
| ClosestGeometry.SearchFor | collections/python_tools/processing/ClosestGeometryAlgorithm.py:75-81 | candidates are reprojected exactly when the WKT strings of the two layers' CRS differ; the shape follows the closest layer's geometry type |
| ClosestGeometry.Visit | collections/python_tools/processing/ClosestGeometryAlgorithm.py:114-154 | one candidate: the result feature is created and the candidate bound; the minimum never increases; it changes only when the box distance and then the exact distance are strictly below it, and then equals the exact distance and the line runs from the point to the candidate's closest point; otherwise the line is kept |
| ClosestGeometry.Inner | collections/python_tools/processing/ClosestGeometryAlgorithm.py:109-154 | the inner loop from candidate `j` never increases the minimum, never unbinds the result feature, the candidate or the line, and leaves the line unchanged when the minimum is unchanged |
| ClosestGeometry.VisitAgrees | collections/python_tools/processing/ClosestGeometryAlgorithm.py:125-127 | when the box distance is at most the exact distance, skipping the exact measurement on a box test that fails changes nothing |
| ClosestGeometry.PruningIsSafe | collections/python_tools/processing/ClosestGeometryAlgorithm.py:125-154 | with box distances as lower bounds, the pruned inner loop ends in the same state as a loop that measures every candidate |
| ClosestGeometry.ExhaustiveFindsMinimum | collections/python_tools/processing/ClosestGeometryAlgorithm.py:109-154 | without cancellation, the measuring loop ends with the minimum of the starting value and every remaining candidate's exact distance |
| ClosestGeometry.ExhaustiveWinner | collections/python_tools/processing/ClosestGeometryAlgorithm.py:148-154 | the line belongs to the first candidate at the final minimum (every earlier one is strictly farther), or is unchanged when no candidate improved |
| ClosestGeometry.SearchFindsClosest | collections/python_tools/processing/ClosestGeometryAlgorithm.py:107-154 | starting from the float maximum and with box lower bounds, the minimum is the smallest exact distance over all candidates (the float maximum when there are none), and below the maximum the line goes to the first candidate attaining it |
| ClosestGeometry.MinExactIsLowerBound | collections/python_tools/processing/ClosestGeometryAlgorithm.py:107 | the minimum over the candidates is at most the float maximum and at most each candidate's exact distance |
| ClosestGeometry.LastIsLastIterated | collections/python_tools/processing/ClosestGeometryAlgorithm.py:109 | without cancellation the bound candidate after the loop is the layer's last feature, not the winner |
| ClosestGeometry.CreatedAfterIteration | collections/python_tools/processing/ClosestGeometryAlgorithm.py:111-114 | once one candidate passes the cancel check, the result feature exists |
| ClosestGeometry.Emit | collections/python_tools/processing/ClosestGeometryAlgorithm.py:156-167 | a row is produced exactly when the candidate, the result feature and the line are bound; it carries that line, the point's id, the last bound candidate's id and the minimum |
| ClosestGeometry.Process | collections/python_tools/processing/ClosestGeometryAlgorithm.py:105-167 | the outer loop emits at most one row per remaining input point, and exactly one per point when no unassigned local is read |
| ClosestGeometry.OneRowPerPoint | collections/python_tools/processing/ClosestGeometryAlgorithm.py:105-167 | a run that ends normally adds exactly one row per input point, cancelled or not; a run that raises adds fewer |
| ClosestGeometry.RowsFollowPoints | collections/python_tools/processing/ClosestGeometryAlgorithm.py:105-165 | row `k` carries input point `k`'s id; without cancellation and with box lower bounds its distance is that point's minimum exact distance, independent of earlier points, its candidate id is the last candidate's, and when that minimum is below the float maximum its line runs from the point to the closest point of the first candidate at the minimum |
| ClosestGeometry.StaleLineReused | collections/python_tools/processing/ClosestGeometryAlgorithm.py:107-165 | a point for which no candidate beats the float maximum (in particular one whose loop is cancelled at once) still gets a row, carrying the line left by an earlier point and distance equal to the float maximum |
| ClosestGeometry.NoErrorOnceBound | collections/python_tools/processing/ClosestGeometryAlgorithm.py:156-158 | once the candidate, result feature and line have been bound, no later point raises |
| ClosestGeometry.CompleteRun | collections/python_tools/processing/ClosestGeometryAlgorithm.py:105-167 | when the first point's loop is not cancelled, its box distances are lower bounds of the exact distances, and some candidate is closer than the float maximum, the run raises nothing and emits one row per point |
| ClosestGeometry.ScanCandidates | collections/python_tools/processing/ClosestGeometryAlgorithm.py:107-154 | the inner loop, with its break on cancellation, ends in the state `Inner` specifies from `smallest_distance = FloatMax` |
| ClosestGeometry.Sink.AddFeature | collections/python_tools/processing/ClosestGeometryAlgorithm.py:167 | appends the row to the sink |
| ClosestGeometry.ProcessAlgorithm | collections/python_tools/processing/ClosestGeometryAlgorithm.py:62-167 | a missing input or closest layer raises the invalid-source error for that parameter and adds nothing; otherwise the sink receives exactly the rows, and the error, that `Process` specifies |
| ClosestGeometry.ProcessPoints | collections/python_tools/processing/ClosestGeometryAlgorithm.py:105-167 | the outer loop over the input points appends to the sink exactly the rows `Process` specifies from the first point on, and stops with its error |
| Placement.FirstIntersecting | collections/python_tools/processing/expressions.py:17-23 | the first part from `k` on that intersects the feature (none before it does), or `None` exactly when no part does |
| Placement.PartOrWhole | collections/python_tools/processing/expressions.py:17-23 | the measured geometry is the first intersecting part, or the whole neighbour when no part intersects |
| Placement.MeasuredGeometry | collections/python_tools/processing/expressions.py:17-23 | the `for ... else` loop with `break` yields `PartOrWhole` |
| Placement.ClosestBorderPoint | collections/python_tools/processing/expressions.py:16-26 | the closest point to the centroid is taken on the first part of the neighbour that intersects the feature, or on the whole neighbour when no part does (the same code is at labels_expressions.py:16-27) |
| Placement.SectorOf | collections/python_tools/processing/expressions.py:28-39 | 7 exactly on [-180, -135), 3 exactly on [-135, -45), 1 exactly on every other azimuth; never 5 and never the initial 0 |
| Expressions.AnglePointOutsidePolygon | collections/python_tools/processing/expressions.py:6-39 | the centroid when the bounding-box query finds no neighbour; otherwise the sector of the azimuth from the centroid to the closest point on the measured part; never 5 or 0 |
| Expressions.PointOutsidePolygon | collections/python_tools/processing/expressions.py:43-67 | the centroid without a neighbour; otherwise the end vertex of the centroid-to-closest-point line extended by 0 at its start and `offset` at its end |
| LabelsExpressions.PointOnBorder | collections/python_tools/python_expressions/labels_expressions.py:7-28 | `(False, centroid, None)` without a neighbour; otherwise `True`, the closest point on the measured part and the centroid; found exactly when an origin is returned |
| LabelsExpressions.AzimuthPointCoveringOutsidePolygon | collections/python_tools/python_expressions/labels_expressions.py:32-47 | as written: fails exactly when there is no neighbour (the azimuth is read from `None`); otherwise the sector of the azimuth; never returns 4 or 5 |
| LabelsExpressions.AzimuthPointCoveringOutsidePolygonIntended | collections/python_tools/python_expressions/labels_expressions.py:32-47 | corrected: 4 exactly when there is no neighbour; otherwise the sector of the azimuth |
| LabelsExpressions.PointOutsideCoveringPolygon | collections/python_tools/python_expressions/labels_expressions.py:51-59 | as written: fails exactly when there is no neighbour (the centroid comes back as a geometry, which has no `x()`); otherwise the end vertex of the origin-to-closest line extended by 0 at its start and `offset` at its end |
| LabelsExpressions.PointOutsideCoveringPolygonIntended | collections/python_tools/python_expressions/labels_expressions.py:51-59 | corrected: without a neighbour, a point at the centroid's coordinates; otherwise the end vertex of the extended origin-to-closest line |
| SumPoints.Selected | collections/python_tools/processing/SumPointsValueToNeighboringPolygons.py:95-117 | the polygons selected for a point are polygons of the layer |
| SumPoints.FinalTable | collections/python_tools/processing/SumPointsValueToNeighboringPolygons.py:89-123 | the same polygons and fields; only the summed field changes, to its starting value plus the values of all points whose selection included the polygon |
| SumPoints.ReplayIsFinalTable | collections/python_tools/processing/SumPointsValueToNeighboringPolygons.py:89-123 | adding each point's value to its selection, point after point, yields `FinalTable` |
| SumPoints.ReplayEntry | collections/python_tools/processing/SumPointsValueToNeighboringPolygons.py:89-123 | after the points are processed, a polygon keeps its row except that its summed field grows by the values of the points that selected it |
| SumPoints.ReplayKeys | collections/python_tools/processing/SumPointsValueToNeighboringPolygons.py:89-123 | processing points neither adds nor removes polygons |
| SumPoints.NeverSelectedKeepsBase | collections/python_tools/processing/SumPointsValueToNeighboringPolygons.py:119-123 | a polygon that no point selects receives nothing |
| SumPoints.AccumulatedSplits | collections/python_tools/processing/SumPointsValueToNeighboringPolygons.py:89-123 | what a polygon receives from two runs of points is the sum of what it receives from each |
| SumPoints.PointLayer.SelectById | collections/python_tools/processing/SumPointsValueToNeighboringPolygons.py:91 | the point layer's selection becomes that single feature |
| SumPoints.PolygonLayer.constructor | collections/python_tools/processing/SumPointsValueToNeighboringPolygons.py:76 | a layer not in editing mode, with nothing selected, holding the given table |
| SumPoints.PolygonLayer.StartEditing | collections/python_tools/processing/SumPointsValueToNeighboringPolygons.py:76 | editing begins; table, buffer and selection are unchanged |
| SumPoints.PolygonLayer.ChangeAttributeValue | collections/python_tools/processing/SumPointsValueToNeighboringPolygons.py:121-123 | succeeds exactly in editing mode for an existing feature and field, and then changes that one value in the edit buffer only |
| SumPoints.PolygonLayer.SelectByLocation | collections/python_tools/processing/SumPointsValueToNeighboringPolygons.py:95-117 | the selection becomes the found features of this layer; nothing else changes |
| SumPoints.PolygonLayer.CommitChanges | collections/python_tools/processing/SumPointsValueToNeighboringPolygons.py:127 | the edit buffer becomes the stored table and editing ends |
| SumPoints.ZeroField | collections/python_tools/processing/SumPointsValueToNeighboringPolygons.py:80-85 | every polygon's field is set to 0 in the edit buffer and nothing else changes |
| SumPoints.AddToSelection | collections/python_tools/processing/SumPointsValueToNeighboringPolygons.py:119-123 | each selected polygon's field grows by the point's value; nothing else changes |
| SumPoints.ProcessPoint | collections/python_tools/processing/SumPointsValueToNeighboringPolygons.py:91-123 | one point: the point layer selects that point, the polygon layer selects `Selected` for it, and each selected polygon gains the point's value |
| SumPoints.ProcessPoints | collections/python_tools/processing/SumPointsValueToNeighboringPolygons.py:89-123 | the point loop leaves the edit buffer equal to replaying the points in order and the selections of the last point, without committing |
| SumPoints.ProcessAlgorithm | collections/python_tools/processing/SumPointsValueToNeighboringPolygons.py:71-127 | the committed table is `FinalTable` over the (optionally zeroed) table; one commit; the selections left are those of the last point |
| RasterClip.CreationOptions | collections/python_tools/processing/RasterClipShape.py:162-163 | an empty options text contributes no creation options |
| RasterClip.Expected | collections/python_tools/processing/RasterClipShape.py:125-170 | the source projection is present exactly when overriding a valid CRS, the nodata value exactly when given, the output type exactly for a non-zero index and never the "Use Input Layer Data Type" label, the extra parameters exactly when neither `None` nor empty; source and output close the list |
| RasterClip.OptionalRoundTrip | collections/python_tools/processing/RasterClipShape.py:146-157 | an optional flagged argument reads back as the value it carries, or as absent |
| RasterClip.TailRoundTrip | collections/python_tools/processing/RasterClipShape.py:159-170 | the arguments from `-of` on read back as format, creation options, extra parameters, source and output |
| RasterClip.ArgumentsDecode | collections/python_tools/processing/RasterClipShape.py:138-170 | the list begins with the five cutline arguments, ends with source and output, and decodes to `Expected` |
| RasterClip.ArgumentList | collections/python_tools/processing/RasterClipShape.py:138-170 | the appended list begins `-cutline, path, -cl, layer, -crop_to_cutline`, ends with the input source then the output path, and decodes to exactly the settings `Expected` names |
| RasterClip.GetConsoleCommands | collections/python_tools/processing/RasterClipShape.py:114-172 | a missing input raster raises "Invalid input layer" naming the `INPUT` entry or `INPUT`; otherwise `["gdalwarp", escapeAndJoin(args)]` for an argument list decoding to `Expected` |
| RasterClip.CheckParameterValues | collections/python_tools/processing/RasterClipShape.py:102-112 | an invalid clipping-layer CRS gives `(False, "Vector layer CRS must be valid.")`; a valid one gives the inherited verdict; without a clipping layer the CRS cannot be read |

## Left out

- Layer and parameter lookup (`parameterAs…`, `mapLayersByName(...)[0]`, the bounding-box feature request) is replaced by its result: an `Option` for a layer that may be missing, the first neighbour found or `None`. An empty `mapLayersByName` result (an `IndexError`) is not modelled.
- QGIS geometry and GDAL helpers are uninterpreted functions over reals; floating-point rounding, `sqrt` in the line extension, and CRS transformation arithmetic are not modelled.
- Only the bounding-box lower-bound assumption is stated about the geometry functions, and only as a `requires` of the lemmas that need it.
- ClosestGeometry.ProcessAlgorithm: a closest layer whose geometry type is none of the six handled (for example a 3D type) is excluded by a precondition: the layer's type does not change during a run and lines 129-142 are three independent tests, so `geom_to_check` is never assigned, and the source raises `UnboundLocalError` at line 146 the first time a candidate passes the box test at line 127.
- Rebuilding a multi-part geometry from WKT into a single-part class (lines 131-142) is the library function `fromWkt`; what QGIS does with such WKT is not modelled.
- Attribute reading by field name, output field lookup, `NULL` attribute values and non-numeric attribute types are not modelled; point values and polygon fields are reals.
- Progress reporting (`setProgress`), sink creation, `setOutputValue`, parameter registration (`initAlgorithm`, `name`, `displayName`, `group`, `tr`) and the returned output dictionaries are not modelled.
- SumPoints: the two `native:selectbylocation` runs are oracles over feature ids (`containing`, `touching`); `getSelectedFeatures()` is taken to visit the selected polygons in the layer's feature order; a failing `commitChanges` is not modelled.
- SumPoints.PolygonLayer.ChangeAttributeValue: the edit buffer is a full copy of the table; QGIS's separate change log and undo stack are not modelled.
- RasterClip: `os.path.splitext` and `driverForExtension` are one function of the output path; Python's float-to-text formatting of the nodata value is the function `formatDouble`.
- RasterClip.ArgumentList: the data-type index is required to lie within the table, as the enum parameter guarantees.
- RasterClip.Decode reads the list back given the number of creation options, so it does not recover that count from the list itself.
- IEEE special values are not modelled: a NaN azimuth fails every test of the sector chain, so the source then returns 0 (the chain's totality and "never 0" hold over reals only), and a NaN distance is never taken by the strict tests at ClosestGeometryAlgorithm.py:127 and 150.
- LabelsExpressions.AzimuthPointCoveringOutsidePolygon: its "never 4" holds over reals only; with a neighbour and a NaN azimuth every test of the chain fails and the source returns the initial 4 (labels_expressions.py:35).
- ClosestGeometry.RowsFollowPoints: output fields are taken to be distinct; when both id fields share a name, `QgsFields.append` keeps only the first (lines 92-93) and line 162 overwrites the point id with the candidate id, which the model does not capture.
- ClosestGeometry.ProcessAlgorithm: a reprojection that raises `QgsCsException` (line 123) is not modelled; `transform` is total.
- ClosestGeometry.ProcessAlgorithm: input points are taken to be single points with a geometry (`asPoint` is total); for a null or multi-part point geometry, which a point layer (line 41) admits, `asPoint()` raises at line 125 and the run stops, while the model emits a row.
- SumPoints.ProcessAlgorithm: a `startEditing()` that fails on a layer that cannot be edited (line 76) is not modelled; the source then changes nothing, while the model always edits.
- The initial `return_value = 0` and the branches returning 5 in the sector chains are modelled as written; their unreachability is proved, not corrected.

## Findings

| source | as written | input that shows it | evidently intended | confidence | as-written member | corrected member |
|---|---|---|---|---|---|---|
| collections/python_tools/python_expressions/labels_expressions.py:33-35 | `origin_point.azimuth(closest_point)` is evaluated before `intersecting` is tested, and `point_on_border` returns `origin_point = None` when no neighbour is found | a feature whose bounding box meets no feature of the named layer: `None.azimuth` raises, so the default 4 is never returned | compute the azimuth only when a neighbour was found, returning 4 otherwise | high; not executed | LabelsExpressions.AzimuthPointCoveringOutsidePolygon | LabelsExpressions.AzimuthPointCoveringOutsidePolygonIntended |
| collections/python_tools/python_expressions/labels_expressions.py:53-55 | without a neighbour, `closest_point` is the value `point_on_border` returns at line 15, `geometry.centroid()`, a `QgsGeometry`; line 54 calls `closest_point.x()` on it | a feature whose bounding box meets no feature of the named layer: `QgsGeometry` has no `x()`, so the call raises `AttributeError` | return a point at the centroid's coordinates | high; not executed | LabelsExpressions.PointOutsideCoveringPolygon | LabelsExpressions.PointOutsideCoveringPolygonIntended |
