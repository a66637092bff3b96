/**
 * The label expression functions `angle_point_outside_polygon` and `point_outside_polygon`.
 *
 * `neighbour` is the geometry of the feature the neighbouring layer yields first for the
 * feature's bounding box, or `None` when it yields none.
 */
module Expressions {
  import opened Wrappers
  import opened Qgis
  import opened Placement

  /** What `angle_point_outside_polygon` returns: the centroid geometry, or a sector code. */
  datatype LabelValue = CentroidGeometry(point: Point) | SectorCode(code: int)

  /**
   * `angle_point_outside_polygon`: the centroid when there is no neighbour; otherwise the sector
   * of the azimuth from the centroid to the closest point on the measured part of the neighbour.
   */
  method AnglePointOutsidePolygon<G>(lib: Library<G>, geometry: G, neighbour: Option<G>) returns (r: LabelValue)
    ensures neighbour.None? ==> r == CentroidGeometry(lib.centroid(geometry))
    ensures neighbour.Some? ==>
              r == SectorCode(SectorOf(lib.azimuth(lib.centroid(geometry), ClosestBorderPoint(lib, neighbour.value, geometry))))
    ensures r != SectorCode(5) && r != SectorCode(0)
  {
    if neighbour.None? {
      return CentroidGeometry(lib.centroid(geometry));
    }
    var measured := MeasuredGeometry(lib, neighbour.value, geometry);
    var origin := lib.centroid(geometry);
    var closest := lib.closestPoint(measured, origin);
    var azimuth := lib.azimuth(origin, closest);
    r := SectorCode(SectorOf(azimuth));
  }

  /**
   * `point_outside_polygon`: the centroid when there is no neighbour; otherwise the end vertex
   * of the centroid-to-closest-point line after extending its end by `offset` and its start by 0.
   */
  method PointOutsidePolygon<G>(lib: Library<G>, geometry: G, neighbour: Option<G>, offset: real) returns (p: Point)
    ensures neighbour.None? ==> p == lib.centroid(geometry)
    ensures neighbour.Some? ==>
              p == lib.extendLine(Segment(lib.centroid(geometry), ClosestBorderPoint(lib, neighbour.value, geometry)), 0.0, offset).end
  {
    if neighbour.None? {
      return lib.centroid(geometry);
    }
    var measured := MeasuredGeometry(lib, neighbour.value, geometry);
    var origin := lib.centroid(geometry);
    var closest := lib.closestPoint(measured, origin);
    var line := lib.extendLine(Segment(origin, closest), 0.0, offset);
    p := line.end;
  }
}
