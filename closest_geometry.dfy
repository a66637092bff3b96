/**
 * The "Closest Geometry" processing algorithm: for every feature of an input point layer,
 * find the closest feature of a second layer, and write one row holding a line from the point
 * to the closest point found, the two identifiers and the distance.
 *
 * Candidates are pruned by the distance to their bounding box: the exact closest point is
 * computed only when that distance beats the running minimum. Under the assumption that the
 * bounding-box distance is a lower bound of the exact distance, `PruningIsSafe` shows the
 * pruned loop computes exactly what the loop without the box test computes, and
 * `ExhaustiveFindsMinimum` / `ExhaustiveWinner` say what that is.
 */
module ClosestGeometry {
  import opened Wrappers
  import opened Qgis

  /** `sys.float_info.max`, the value `smallest_distance` starts from for every input point. */
  const FloatMax: real := 179769313486231570814527423731704356798070567525844996598917476803157260780028538760589558632766878171540458953514382464234321326889464182768467546703537516986049910576551282076245490090389328944075868508455133942304583236903222948165808559332123348274797826204144723168738177180919299881250404026184124858368.0

  /** `closest_layer.wkbType()`, as far as the algorithm distinguishes it. */
  datatype WkbType = WkbPoint | WkbMultiPoint | WkbLineString | WkbMultiLineString
                   | WkbPolygon | WkbMultiPolygon | WkbOther

  /** A feature: its geometry and the value of the identifier field chosen for its layer. */
  datatype Feature<G> = Feature(geometry: G, id: AttrValue)

  /** A feature source: the WKT of its CRS, its geometry type and its features in iteration order. */
  datatype Layer<G> = Layer(crsWkt: string, kind: WkbType, features: seq<Feature<G>>)

  /** One row written to the sink. */
  datatype Row = Row(line: Segment, pointId: AttrValue, closestId: AttrValue, distance: real)

  /** Why a run stops: an invalid source parameter, or a Python local read before assignment. */
  datatype Error = InvalidSource(parameter: string) | Unbound(variable: string)

  /** The rows written and, when the run stopped with an exception, that exception. */
  datatype Run = Run(rows: seq<Row>, error: Option<Error>)

  /**
   * The variables the loops update: `smallest_distance`, `geom`, the candidate bound last
   * (`closest_geom_feature`, which is `None` while no candidate was ever bound) and whether
   * `result_feature` was ever created. All but `smallest` carry over from one input point to the next.
   */
  datatype Scan<G> = Scan(smallest: real, geom: Option<Segment>, last: Option<Feature<G>>, created: bool)

  /** What stays fixed during a run: the library, the class `geom_to_check` gets, and whether to reproject. */
  datatype Search<!G> = Search(lib: Library<G>, shape: Shape, reproject: bool)

  /** The class of `geom_to_check` for each of the six handled layer types. */
  function ShapeFor(kind: WkbType): (s: Shape)
    requires kind != WkbOther
    ensures s == PolygonShape <==> kind == WkbPolygon || kind == WkbMultiPolygon
    ensures s == LineStringShape <==> kind == WkbLineString || kind == WkbMultiLineString
    ensures s == PointShape <==> kind == WkbPoint || kind == WkbMultiPoint
  {
    match kind
    case WkbPolygon | WkbMultiPolygon => PolygonShape
    case WkbLineString | WkbMultiLineString => LineStringShape
    case WkbPoint | WkbMultiPoint => PointShape
  }

  /** A candidate's geometry, reprojected into the input points' CRS when the CRSs differ. */
  function CandidateGeometry<G>(s: Search<G>, c: Feature<G>): G
  {
    if s.reproject then s.lib.transform(c.geometry) else c.geometry
  }

  /** The distance from `p` to the candidate's bounding box. */
  function BoxDistance<G>(s: Search<G>, p: Point, c: Feature<G>): real
  {
    s.lib.bboxDistance(CandidateGeometry(s, c), p)
  }

  /** The closest point of the candidate's geometry (rebuilt as `geom_to_check`) to `p`. */
  function ClosestOn<G>(s: Search<G>, p: Point, c: Feature<G>): Point
  {
    s.lib.closestPoint(s.lib.fromWkt(s.shape, CandidateGeometry(s, c)), p)
  }

  /** The exact distance from `p` to the candidate. */
  function ExactDistance<G>(s: Search<G>, p: Point, c: Feature<G>): real
  {
    s.lib.distance(p, ClosestOn(s, p, c))
  }

  /** The assumption pruning rests on: no candidate's box is farther from `p` than the candidate itself. */
  ghost predicate BoxIsLowerBound<G>(s: Search<G>, p: Point, cands: seq<Feature<G>>)
  {
    forall c :: c in cands ==> BoxDistance(s, p, c) <= ExactDistance(s, p, c)
  }

  /** No `isCanceled()` query for input point `i` answers true from candidate `j` on. */
  ghost predicate NotCanceled(canceled: (nat, nat) -> bool, i: nat, j: nat, n: nat)
  {
    forall k :: j <= k < n ==> !canceled(i, k)
  }

  function Min(a: real, b: real): real
  {
    if a <= b then a else b
  }

  /** The exact distance to the closest candidate, or `FloatMax` when there is none. */
  function MinExact<G>(s: Search<G>, p: Point, cands: seq<Feature<G>>): real
  {
    if cands == [] then FloatMax else Min(ExactDistance(s, p, cands[0]), MinExact(s, p, cands[1..]))
  }

  /**
   * One iteration of the inner loop that got past the cancellation test: the candidate is
   * bound, a result feature is created, and the exact distance is computed only when the
   * bounding-box distance is strictly below the running minimum; the minimum and the line
   * are replaced only on a strictly smaller exact distance.
   */
  function Visit<G>(s: Search<G>, p: Point, st: Scan<G>, c: Feature<G>): (r: Scan<G>)
    ensures r.last == Some(c) && r.created
    ensures r.smallest <= st.smallest
    ensures r.smallest != st.smallest ==>
              BoxDistance(s, p, c) < st.smallest && r.smallest == ExactDistance(s, p, c)
              && r.geom == Some(Segment(p, ClosestOn(s, p, c)))
    ensures r.smallest == st.smallest ==> r.geom == st.geom
    ensures BoxDistance(s, p, c) < st.smallest && ExactDistance(s, p, c) < st.smallest ==>
              r.smallest == ExactDistance(s, p, c)
  {
    var seen := st.(last := Some(c), created := true);
    if BoxDistance(s, p, c) < st.smallest then
      var cp := ClosestOn(s, p, c);
      var d := s.lib.distance(p, cp);
      if d < st.smallest then seen.(smallest := d, geom := Some(Segment(p, cp))) else seen
    else
      seen
  }

  /** The same iteration without the bounding-box test: the reference the pruning is compared with. */
  function VisitExhaustive<G>(s: Search<G>, p: Point, st: Scan<G>, c: Feature<G>): Scan<G>
  {
    var seen := st.(last := Some(c), created := true);
    var cp := ClosestOn(s, p, c);
    var d := s.lib.distance(p, cp);
    if d < st.smallest then seen.(smallest := d, geom := Some(Segment(p, cp))) else seen
  }

  /**
   * The inner loop for input point `i` from candidate `j` on: a candidate is bound, and when
   * `isCanceled()` answers true the loop stops with that candidate bound and nothing else changed.
   */
  function Inner<G>(s: Search<G>, p: Point, cands: seq<Feature<G>>, canceled: (nat, nat) -> bool,
                    i: nat, j: nat, st: Scan<G>): (r: Scan<G>)
    requires j <= |cands|
    ensures r.smallest <= st.smallest
    ensures st.created ==> r.created
    ensures st.last.Some? ==> r.last.Some?
    ensures st.geom.Some? ==> r.geom.Some?
    ensures r.smallest == st.smallest ==> r.geom == st.geom
    decreases |cands| - j
  {
    if j == |cands| then st
    else if canceled(i, j) then st.(last := Some(cands[j]))
    else Inner(s, p, cands, canceled, i, j + 1, Visit(s, p, st, cands[j]))
  }

  /** `Inner` with `VisitExhaustive` in place of `Visit`. */
  function InnerExhaustive<G>(s: Search<G>, p: Point, cands: seq<Feature<G>>, canceled: (nat, nat) -> bool,
                              i: nat, j: nat, st: Scan<G>): Scan<G>
    requires j <= |cands|
    decreases |cands| - j
  {
    if j == |cands| then st
    else if canceled(i, j) then st.(last := Some(cands[j]))
    else InnerExhaustive(s, p, cands, canceled, i, j + 1, VisitExhaustive(s, p, st, cands[j]))
  }

  /** When the box distance bounds the exact distance, one pruned iteration is one exhaustive iteration. */
  lemma VisitAgrees<G>(s: Search<G>, p: Point, st: Scan<G>, c: Feature<G>)
    requires BoxDistance(s, p, c) <= ExactDistance(s, p, c)
    ensures Visit(s, p, st, c) == VisitExhaustive(s, p, st, c)
  {
  }

  /**
   * Pruning is safe: whatever `isCanceled()` answers, the pruned inner loop ends in exactly the
   * state the loop without the bounding-box test ends in.
   */
  lemma {:induction false} PruningIsSafe<G>(s: Search<G>, p: Point, cands: seq<Feature<G>>,
                                            canceled: (nat, nat) -> bool, i: nat, j: nat, st: Scan<G>)
    requires j <= |cands|
    requires BoxIsLowerBound(s, p, cands)
    ensures Inner(s, p, cands, canceled, i, j, st) == InnerExhaustive(s, p, cands, canceled, i, j, st)
    decreases |cands| - j
  {
    if j < |cands| && !canceled(i, j) {
      assert cands[j] in cands;
      VisitAgrees(s, p, st, cands[j]);
      PruningIsSafe(s, p, cands, canceled, i, j + 1, Visit(s, p, st, cands[j]));
    }
  }

  /**
   * Without cancellation the loop without pruning ends with the smaller of its starting
   * minimum and the minimum exact distance over the remaining candidates.
   */
  lemma {:induction false} ExhaustiveFindsMinimum<G>(s: Search<G>, p: Point, cands: seq<Feature<G>>,
                                                     canceled: (nat, nat) -> bool, i: nat, j: nat, st: Scan<G>)
    requires j <= |cands|
    requires st.smallest <= FloatMax
    requires NotCanceled(canceled, i, j, |cands|)
    ensures InnerExhaustive(s, p, cands, canceled, i, j, st).smallest == Min(st.smallest, MinExact(s, p, cands[j..]))
    decreases |cands| - j
  {
    if j < |cands| {
      var next := VisitExhaustive(s, p, st, cands[j]);
      ExhaustiveFindsMinimum(s, p, cands, canceled, i, j + 1, next);
      assert cands[j..][1..] == cands[j + 1..];
    }
  }

  /**
   * Without cancellation the loop without pruning either keeps its starting minimum and line,
   * or ends with the exact distance of some candidate `k` and the line to that candidate's closest
   * point, every earlier candidate being strictly farther (ties keep the earlier candidate).
   */
  lemma {:induction false} ExhaustiveWinner<G>(s: Search<G>, p: Point, cands: seq<Feature<G>>,
                                               canceled: (nat, nat) -> bool, i: nat, j: nat, st: Scan<G>)
    requires j <= |cands|
    requires NotCanceled(canceled, i, j, |cands|)
    ensures var r := InnerExhaustive(s, p, cands, canceled, i, j, st);
      (r.smallest == st.smallest && r.geom == st.geom)
      || (exists k :: j <= k < |cands| && r.smallest == ExactDistance(s, p, cands[k]) < st.smallest
                      && r.geom == Some(Segment(p, ClosestOn(s, p, cands[k])))
                      && forall m :: j <= m < k ==> ExactDistance(s, p, cands[m]) > r.smallest)
    decreases |cands| - j
  {
    if j < |cands| {
      var next := VisitExhaustive(s, p, st, cands[j]);
      var r := InnerExhaustive(s, p, cands, canceled, i, j + 1, next);
      ExhaustiveWinner(s, p, cands, canceled, i, j + 1, next);
      if !(r.smallest == next.smallest && r.geom == next.geom) {
        var k :| j + 1 <= k < |cands| && r.smallest == ExactDistance(s, p, cands[k]) < next.smallest
                 && r.geom == Some(Segment(p, ClosestOn(s, p, cands[k])))
                 && forall m :: j + 1 <= m < k ==> ExactDistance(s, p, cands[m]) > r.smallest;
        assert ExactDistance(s, p, cands[j]) > r.smallest;
      } else if next.smallest != st.smallest {
        assert r.smallest == ExactDistance(s, p, cands[j]);
      }
    }
  }

  /**
   * The inner loop for one input point, run from `smallest_distance = FloatMax` without
   * cancellation: the minimum is the minimum exact distance over all candidates (`FloatMax` if
   * there are none), and when a candidate beat `FloatMax` the line runs from the point to the
   * closest point of the first candidate at that minimum.
   */
  lemma SearchFindsClosest<G>(s: Search<G>, p: Point, cands: seq<Feature<G>>,
                              canceled: (nat, nat) -> bool, i: nat, st: Scan<G>)
    requires BoxIsLowerBound(s, p, cands)
    requires NotCanceled(canceled, i, 0, |cands|)
    ensures var r := Inner(s, p, cands, canceled, i, 0, st.(smallest := FloatMax));
      && r.smallest == MinExact(s, p, cands)
      && (forall c :: c in cands ==> r.smallest <= ExactDistance(s, p, c))
      && (r.smallest < FloatMax ==>
            exists k :: 0 <= k < |cands| && r.smallest == ExactDistance(s, p, cands[k])
                        && r.geom == Some(Segment(p, ClosestOn(s, p, cands[k])))
                        && forall m :: 0 <= m < k ==> ExactDistance(s, p, cands[m]) > r.smallest)
  {
    var st0 := st.(smallest := FloatMax);
    PruningIsSafe(s, p, cands, canceled, i, 0, st0);
    ExhaustiveFindsMinimum(s, p, cands, canceled, i, 0, st0);
    ExhaustiveWinner(s, p, cands, canceled, i, 0, st0);
    assert cands[0..] == cands;
    MinExactIsLowerBound(s, p, cands);
  }

  /** `MinExact` is at most every candidate's exact distance. */
  lemma {:induction false} MinExactIsLowerBound<G>(s: Search<G>, p: Point, cands: seq<Feature<G>>)
    ensures MinExact(s, p, cands) <= FloatMax
    ensures forall c :: c in cands ==> MinExact(s, p, cands) <= ExactDistance(s, p, c)
  {
    if cands != [] {
      MinExactIsLowerBound(s, p, cands[1..]);
      forall c | c in cands ensures MinExact(s, p, cands) <= ExactDistance(s, p, c) {
        if c != cands[0] {
          assert c in cands[1..];
        }
      }
    }
  }

  /**
   * Without cancellation the candidate left bound after the inner loop is the last candidate
   * iterated, whichever candidate set the minimum.
   */
  lemma {:induction false} LastIsLastIterated<G>(s: Search<G>, p: Point, cands: seq<Feature<G>>,
                                                 canceled: (nat, nat) -> bool, i: nat, j: nat, st: Scan<G>)
    requires j < |cands|
    requires NotCanceled(canceled, i, j, |cands|)
    ensures Inner(s, p, cands, canceled, i, j, st).last == Some(cands[|cands| - 1])
    decreases |cands| - j
  {
    if j + 1 < |cands| {
      LastIsLastIterated(s, p, cands, canceled, i, j + 1, Visit(s, p, st, cands[j]));
    }
  }

  /**
   * Lines 156-167 after the inner loop: reading `closest_geom_count`, `result_feature` or `geom`
   * before any assignment raises; otherwise the row gets the line, the point's id, the id of
   * the candidate bound last and the minimum.
   */
  function Emit<G>(pt: Feature<G>, r: Scan<G>): (out: Result<Row, Error>)
    ensures out.Success? <==> r.last.Some? && r.created && r.geom.Some?
    ensures out.Success? ==> out.value.pointId == pt.id && out.value.closestId == r.last.value.id
                             && out.value.line == r.geom.value && out.value.distance == r.smallest
  {
    if r.last.None? then Failure(Unbound("closest_geom_count"))
    else if !r.created then Failure(Unbound("result_feature"))
    else if r.geom.None? then Failure(Unbound("geom"))
    else Success(Row(r.geom.value, pt.id, r.last.value.id, r.smallest))
  }

  /**
   * The outer loop from input point `i` on, with `st` the state left by the previous point: at
   * most one row per remaining point, and exactly one each when no local is read unassigned.
   */
  function Process<G>(s: Search<G>, points: seq<Feature<G>>, cands: seq<Feature<G>>,
                      canceled: (nat, nat) -> bool, i: nat, st: Scan<G>): (run: Run)
    requires i <= |points|
    ensures |run.rows| <= |points| - i
    ensures run.error.None? ==> |run.rows| == |points| - i
    decreases |points| - i
  {
    if i == |points| then Run([], None)
    else
      var p := s.lib.asPoint(points[i].geometry);
      var r := Inner(s, p, cands, canceled, i, 0, st.(smallest := FloatMax));
      match Emit(points[i], r)
      case Failure(e) => Run([], Some(e))
      case Success(row) =>
        var rest := Process(s, points, cands, canceled, i + 1, r);
        Run([row] + rest.rows, rest.error)
  }

  /**
   * Exactly one row per input point when the run completes, cancelled or not; fewer rows
   * than points when it stops with an exception.
   */
  lemma {:induction false} OneRowPerPoint<G>(s: Search<G>, points: seq<Feature<G>>, cands: seq<Feature<G>>,
                                             canceled: (nat, nat) -> bool, i: nat, st: Scan<G>)
    requires i <= |points|
    ensures var run := Process(s, points, cands, canceled, i, st);
      (run.error.None? ==> |run.rows| == |points| - i) && (run.error.Some? ==> |run.rows| < |points| - i)
    decreases |points| - i
  {
    if i < |points| {
      var p := s.lib.asPoint(points[i].geometry);
      var r := Inner(s, p, cands, canceled, i, 0, st.(smallest := FloatMax));
      if Emit(points[i], r).Success? {
        OneRowPerPoint(s, points, cands, canceled, i + 1, r);
      }
    }
  }

  /**
   * `line` runs from `p` to the closest point of the first candidate whose exact distance is the
   * minimum; every earlier candidate is strictly farther.
   */
  ghost predicate LineToFirstAtMinimum<G>(s: Search<G>, p: Point, cands: seq<Feature<G>>, line: Segment)
  {
    exists w :: 0 <= w < |cands| && ExactDistance(s, p, cands[w]) == MinExact(s, p, cands)
                && line == Segment(p, ClosestOn(s, p, cands[w]))
                && forall m :: 0 <= m < w ==> ExactDistance(s, p, cands[m]) > MinExact(s, p, cands)
  }

  /**
   * Row `k` carries the id of input point `i + k`; without cancellation its distance is the
   * minimum exact distance from that point, whatever earlier points found, its candidate id is
   * that of the last candidate of the layer, and, when some candidate is closer than `FloatMax`,
   * its line runs from the point to the closest point of the first candidate at the minimum.
   */
  lemma {:induction false} RowsFollowPoints<G>(s: Search<G>, points: seq<Feature<G>>, cands: seq<Feature<G>>,
                                               canceled: (nat, nat) -> bool, i: nat, st: Scan<G>)
    requires i <= |points|
    ensures var run := Process(s, points, cands, canceled, i, st);
      && |run.rows| <= |points| - i
      && forall k :: 0 <= k < |run.rows| ==>
           && run.rows[k].pointId == points[i + k].id
           && (var p := s.lib.asPoint(points[i + k].geometry);
               NotCanceled(canceled, i + k, 0, |cands|) && BoxIsLowerBound(s, p, cands) ==>
                 && run.rows[k].distance == MinExact(s, p, cands)
                 && (cands != [] ==> run.rows[k].closestId == cands[|cands| - 1].id)
                 && (MinExact(s, p, cands) < FloatMax ==>
                       LineToFirstAtMinimum(s, p, cands, run.rows[k].line)))
    decreases |points| - i
  {
    if i < |points| {
      var p := s.lib.asPoint(points[i].geometry);
      var st0 := st.(smallest := FloatMax);
      var r := Inner(s, p, cands, canceled, i, 0, st0);
      if Emit(points[i], r).Success? {
        RowsFollowPoints(s, points, cands, canceled, i + 1, r);
        var run := Process(s, points, cands, canceled, i, st);
        var rest := Process(s, points, cands, canceled, i + 1, r);
        assert run.rows == [Emit(points[i], r).value] + rest.rows;
        if NotCanceled(canceled, i, 0, |cands|) && BoxIsLowerBound(s, p, cands) {
          SearchFindsClosest(s, p, cands, canceled, i, st);
          if cands != [] {
            LastIsLastIterated(s, p, cands, canceled, i, 0, st0);
          }
        }
        forall k | 0 <= k < |run.rows|
          ensures run.rows[k].pointId == points[i + k].id
          ensures var q := s.lib.asPoint(points[i + k].geometry);
            NotCanceled(canceled, i + k, 0, |cands|) && BoxIsLowerBound(s, q, cands) ==>
              && run.rows[k].distance == MinExact(s, q, cands)
              && (cands != [] ==> run.rows[k].closestId == cands[|cands| - 1].id)
              && (MinExact(s, q, cands) < FloatMax ==>
                    LineToFirstAtMinimum(s, q, cands, run.rows[k].line))
        {
          if k > 0 {
            assert run.rows[k] == rest.rows[k - 1];
            assert i + k == (i + 1) + (k - 1);
          } else if NotCanceled(canceled, i, 0, |cands|) && BoxIsLowerBound(s, p, cands) && MinExact(s, p, cands) < FloatMax {
            assert run.rows[0].line == r.geom.value;
          }
        }
      }
    }
  }

  /** Once a candidate, a result feature and a line have been bound, no later point raises. */
  lemma {:induction false} NoErrorOnceBound<G>(s: Search<G>, points: seq<Feature<G>>, cands: seq<Feature<G>>,
                                               canceled: (nat, nat) -> bool, i: nat, st: Scan<G>)
    requires i <= |points|
    requires st.last.Some? && st.created && st.geom.Some?
    ensures Process(s, points, cands, canceled, i, st).error == None
    decreases |points| - i
  {
    if i < |points| {
      var p := s.lib.asPoint(points[i].geometry);
      var r := Inner(s, p, cands, canceled, i, 0, st.(smallest := FloatMax));
      NoErrorOnceBound(s, points, cands, canceled, i + 1, r);
    }
  }

  /**
   * A run completes, with one row per input point, when the first point is not cancelled and
   * some candidate is closer to it than `FloatMax`.
   */
  lemma CompleteRun<G>(s: Search<G>, points: seq<Feature<G>>, cands: seq<Feature<G>>,
                       canceled: (nat, nat) -> bool, st: Scan<G>)
    requires |points| > 0
    requires NotCanceled(canceled, 0, 0, |cands|)
    requires BoxIsLowerBound(s, s.lib.asPoint(points[0].geometry), cands)
    requires MinExact(s, s.lib.asPoint(points[0].geometry), cands) < FloatMax
    ensures Process(s, points, cands, canceled, 0, st).error == None
    ensures |Process(s, points, cands, canceled, 0, st).rows| == |points|
  {
    var p := s.lib.asPoint(points[0].geometry);
    var st0 := st.(smallest := FloatMax);
    var r := Inner(s, p, cands, canceled, 0, 0, st0);
    SearchFindsClosest(s, p, cands, canceled, 0, st);
    assert cands != [];
    LastIsLastIterated(s, p, cands, canceled, 0, 0, st0);
    CreatedAfterIteration(s, p, cands, canceled, 0, 0, st0);
    NoErrorOnceBound(s, points, cands, canceled, 1, r);
    OneRowPerPoint(s, points, cands, canceled, 0, st);
  }

  /**
   * A point for which no candidate beats `FloatMax` (its loop is cancelled at once, or no
   * candidate is closer) still gets a row: it carries the line left by an earlier point, with
   * distance `FloatMax`.
   */
  lemma StaleLineReused<G>(s: Search<G>, points: seq<Feature<G>>, cands: seq<Feature<G>>,
                           canceled: (nat, nat) -> bool, i: nat, st: Scan<G>)
    requires i < |points|
    requires st.last.Some? && st.created && st.geom.Some?
    ensures var r := Inner(s, s.lib.asPoint(points[i].geometry), cands, canceled, i, 0, st.(smallest := FloatMax));
            var run := Process(s, points, cands, canceled, i, st);
            r.smallest == FloatMax ==>
              run.rows != [] && run.rows[0].line == st.geom.value && run.rows[0].distance == FloatMax
    ensures canceled(i, 0) ==>
              Inner(s, s.lib.asPoint(points[i].geometry), cands, canceled, i, 0, st.(smallest := FloatMax)).smallest == FloatMax
  {
  }

  /** Without cancellation, an inner loop over at least one candidate creates a result feature. */
  lemma {:induction false} CreatedAfterIteration<G>(s: Search<G>, p: Point, cands: seq<Feature<G>>,
                                                    canceled: (nat, nat) -> bool, i: nat, j: nat, st: Scan<G>)
    requires j < |cands|
    requires NotCanceled(canceled, i, j, |cands|)
    ensures Inner(s, p, cands, canceled, i, j, st).created
  {
    assert !canceled(i, j) && Visit(s, p, st, cands[j]).created;
  }

  /** The sink rows are appended to. */
  class Sink {
    var rows: seq<Row>

    constructor ()
      ensures rows == []
    {
      rows := [];
    }

    method AddFeature(row: Row)
      modifies this
      ensures rows == old(rows) + [row]
    {
      rows := rows + [row];
    }
  }

  /**
   * The inner loop for one input point (lines 107-154): `smallest_distance` is reset to
   * `FloatMax`, then the candidates are visited in order until one `isCanceled()` answers true.
   */
  method ScanCandidates<G>(s: Search<G>, p: Point, cands: seq<Feature<G>>, canceled: (nat, nat) -> bool,
                           i: nat, carried: Scan<G>) returns (r: Scan<G>)
    ensures r == Inner(s, p, cands, canceled, i, 0, carried.(smallest := FloatMax))
  {
    r := carried.(smallest := FloatMax);
    var j := 0;
    while j < |cands|
      invariant 0 <= j <= |cands|
      invariant Inner(s, p, cands, canceled, i, j, r) == Inner(s, p, cands, canceled, i, 0, carried.(smallest := FloatMax))
    {
      var c := cands[j];
      if canceled(i, j) {
        r := r.(last := Some(c));
        break;
      }
      r := r.(last := Some(c), created := true);
      var g := if s.reproject then s.lib.transform(c.geometry) else c.geometry;
      var distanceBox := s.lib.bboxDistance(g, p);
      if distanceBox < r.smallest {
        var closest := s.lib.closestPoint(s.lib.fromWkt(s.shape, g), p);
        var distance := s.lib.distance(p, closest);
        if distance < r.smallest {
          r := r.(smallest := distance, geom := Some(Segment(p, closest)));
        }
      }
      j := j + 1;
    }
  }

  /** The search a run uses: reprojection only when the two layers' CRS WKT strings differ. */
  function SearchFor<G>(lib: Library<G>, inputPoints: Layer<G>, closestLayer: Layer<G>): (s: Search<G>)
    requires closestLayer.kind != WkbOther
    ensures s.reproject <==> inputPoints.crsWkt != closestLayer.crsWkt
    ensures s.shape == ShapeFor(closestLayer.kind) && s.lib == lib
  {
    Search(lib, ShapeFor(closestLayer.kind), inputPoints.crsWkt != closestLayer.crsWkt)
  }

  /** The state before the first input point: nothing bound yet. */
  function Unassigned<G>(): Scan<G>
  {
    Scan(FloatMax, None, None, false)
  }

  /**
   * `processAlgorithm`: a missing source raises; otherwise one row per input point is appended
   * to the sink until the points are exhausted or a Python local is read unassigned.
   */
  method ProcessAlgorithm<G>(lib: Library<G>, inputPoints: Option<Layer<G>>, closestLayer: Option<Layer<G>>,
                             canceled: (nat, nat) -> bool, sink: Sink) returns (error: Option<Error>)
    requires closestLayer.Some? ==> closestLayer.value.kind != WkbOther
    modifies sink
    ensures inputPoints.None? ==> error == Some(InvalidSource("INPUTPOINTS")) && sink.rows == old(sink.rows)
    ensures inputPoints.Some? && closestLayer.None? ==>
              error == Some(InvalidSource("CLOSESTGEOM")) && sink.rows == old(sink.rows)
    ensures inputPoints.Some? && closestLayer.Some? ==>
              var run := Process(SearchFor(lib, inputPoints.value, closestLayer.value), inputPoints.value.features,
                                 closestLayer.value.features, canceled, 0, Unassigned());
              sink.rows == old(sink.rows) + run.rows && error == run.error
  {
    if inputPoints.None? {
      return Some(InvalidSource("INPUTPOINTS"));
    }
    if closestLayer.None? {
      return Some(InvalidSource("CLOSESTGEOM"));
    }
    error := ProcessPoints(SearchFor(lib, inputPoints.value, closestLayer.value), inputPoints.value.features,
                           closestLayer.value.features, canceled, sink);
  }

  /**
   * The loop over the input points (lines 105-167): each point's row is appended to the sink,
   * until the points are exhausted or a Python local is read unassigned.
   */
  method ProcessPoints<G>(s: Search<G>, points: seq<Feature<G>>, cands: seq<Feature<G>>,
                          canceled: (nat, nat) -> bool, sink: Sink) returns (error: Option<Error>)
    modifies sink
    ensures var run := Process(s, points, cands, canceled, 0, Unassigned());
            sink.rows == old(sink.rows) + run.rows && error == run.error
  {
    ghost var total := Process(s, points, cands, canceled, 0, Unassigned());
    var st: Scan<G> := Unassigned();
    var i := 0;
    while i < |points|
      invariant 0 <= i <= |points|
      invariant sink.rows + Process(s, points, cands, canceled, i, st).rows == old(sink.rows) + total.rows
      invariant Process(s, points, cands, canceled, i, st).error == total.error
    {
      var p := s.lib.asPoint(points[i].geometry);
      st := ScanCandidates(s, p, cands, canceled, i, st);
      var row := Emit(points[i], st);
      if row.Failure? {
        return Some(row.error);
      }
      ghost var rest := Process(s, points, cands, canceled, i + 1, st);
      sink.AddFeature(row.value);
      assert sink.rows + rest.rows == old(sink.rows) + total.rows;
      i := i + 1;
    }
    return None;
  }
}
