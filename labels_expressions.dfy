/**
 * The label-placement functions `point_on_border`, `azimuth_point_covering_outside_polygon`
 * and `point_outside_covering_polygon`.
 *
 * `neighbour` is the geometry of the feature the neighbouring layer yields first for the
 * feature's bounding box, or `None` when it yields none.
 */
module LabelsExpressions {
  import opened Wrappers
  import opened Qgis
  import opened Placement

  /**
   * The triple `point_on_border` returns: found, the point, and the origin (`None` when not found).
   * When not found, the source returns the centroid as a geometry rather than a point; `closest`
   * then holds the centroid's coordinates.
   */
  datatype Border = Border(intersecting: bool, closest: Point, origin: Option<Point>)

  /** The default sector code `azimuth_point_covering_outside_polygon` starts from. */
  const NoNeighbourSector := 4

  /**
   * `point_on_border`: `(False, centroid, None)` without a neighbour; otherwise `True`, the
   * closest point on the measured part of the neighbour, and the centroid it was measured from.
   */
  method PointOnBorder<G>(lib: Library<G>, geometry: G, neighbour: Option<G>) returns (b: Border)
    ensures neighbour.None? ==> b == Border(false, lib.centroid(geometry), None)
    ensures neighbour.Some? ==>
              b == Border(true, ClosestBorderPoint(lib, neighbour.value, geometry), Some(lib.centroid(geometry)))
    ensures b.intersecting <==> b.origin.Some?
  {
    if neighbour.None? {
      return Border(false, lib.centroid(geometry), None);
    }
    var measured := MeasuredGeometry(lib, neighbour.value, geometry);
    var origin := lib.centroid(geometry);
    var closest := lib.closestPoint(measured, origin);
    b := Border(true, closest, Some(origin));
  }

  /**
   * `azimuth_point_covering_outside_polygon` as written: the azimuth is read from `origin_point`
   * before `intersecting` is tested, so without a neighbour the call fails on `None`; with one,
   * the result is the sector of the azimuth. The default 4 is therefore never returned.
   */
  method AzimuthPointCoveringOutsidePolygon<G>(lib: Library<G>, geometry: G, neighbour: Option<G>)
    returns (r: Result<int, string>)
    ensures r.Failure? <==> neighbour.None?
    ensures neighbour.Some? ==>
              r == Success(SectorOf(lib.azimuth(lib.centroid(geometry), ClosestBorderPoint(lib, neighbour.value, geometry))))
    ensures r != Success(NoNeighbourSector) && r != Success(5)
  {
    var border := PointOnBorder(lib, geometry, neighbour);
    if border.origin.None? {
      return Failure("'NoneType' object has no attribute 'azimuth'");
    }
    var azimuth := lib.azimuth(border.origin.value, border.closest);
    var code := NoNeighbourSector;
    if border.intersecting {
      code := SectorOf(azimuth);
    }
    r := Success(code);
  }

  /**
   * The evident intent of `azimuth_point_covering_outside_polygon`: the azimuth is taken only when
   * a neighbour was found, and 4 marks the feature without one.
   */
  method AzimuthPointCoveringOutsidePolygonIntended<G>(lib: Library<G>, geometry: G, neighbour: Option<G>)
    returns (code: int)
    ensures code == NoNeighbourSector <==> neighbour.None?
    ensures neighbour.Some? ==>
              code == SectorOf(lib.azimuth(lib.centroid(geometry), ClosestBorderPoint(lib, neighbour.value, geometry)))
  {
    var border := PointOnBorder(lib, geometry, neighbour);
    code := NoNeighbourSector;
    if border.intersecting {
      code := SectorOf(lib.azimuth(border.origin.value, border.closest));
    }
  }

  /**
   * `point_outside_covering_polygon` as written: without a neighbour, `point_on_border` hands back
   * the centroid as a geometry (`geometry.centroid()`, not a point), and reading its coordinates
   * with `x()` fails; with one, the end vertex of the origin-to-closest-point line after extending
   * its end by `offset` and its start by 0.
   */
  method PointOutsideCoveringPolygon<G>(lib: Library<G>, geometry: G, neighbour: Option<G>, offset: real)
    returns (r: Result<Point, string>)
    ensures r.Failure? <==> neighbour.None?
    ensures neighbour.Some? ==>
              r == Success(lib.extendLine(Segment(lib.centroid(geometry), ClosestBorderPoint(lib, neighbour.value, geometry)), 0.0, offset).end)
  {
    var border := PointOnBorder(lib, geometry, neighbour);
    if !border.intersecting {
      return Failure("'QgsGeometry' object has no attribute 'x'");
    }
    var line := lib.extendLine(Segment(border.origin.value, border.closest), 0.0, offset);
    r := Success(line.end);
  }

  /**
   * The evident intent of `point_outside_covering_polygon`: without a neighbour, a point at the
   * centroid's coordinates; otherwise the end vertex of the extended origin-to-closest-point line.
   */
  method PointOutsideCoveringPolygonIntended<G>(lib: Library<G>, geometry: G, neighbour: Option<G>, offset: real)
    returns (p: Point)
    ensures neighbour.None? ==> p == lib.centroid(geometry)
    ensures neighbour.Some? ==>
              p == lib.extendLine(Segment(lib.centroid(geometry), ClosestBorderPoint(lib, neighbour.value, geometry)), 0.0, offset).end
  {
    var border := PointOnBorder(lib, geometry, neighbour);
    if !border.intersecting {
      return Point(border.closest.x, border.closest.y);
    }
    var line := lib.extendLine(Segment(border.origin.value, border.closest), 0.0, offset);
    p := line.end;
  }
}
