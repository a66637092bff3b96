/**
 * The part of the QGIS API that the algorithms and expression functions call.
 *
 * Geometry objects stay abstract (a type parameter `G` in every module that uses them);
 * the floating-point computational geometry QGIS performs on them is represented by the
 * total functions collected in `Library`, about which nothing is assumed unless a member
 * says so in its `requires` clause.
 */
module Qgis {

  /** A 2D point (`QgsPoint` / `QgsPointXY`); coordinates are modelled as reals. */
  datatype Point = Point(x: real, y: real)

  /** A two-vertex line string (`QgsLineString([start, end])`). */
  datatype Segment = Segment(start: Point, end: Point)

  /** The class `geom_to_check` is built as from WKT (ClosestGeometryAlgorithm). */
  datatype Shape = PolygonShape | LineStringShape | PointShape

  /** An attribute value read from a feature. */
  datatype AttrValue = Null | Int(i: int) | Double(d: real) | Text(s: string)

  /**
   * The geometry operations of QGIS, one field per library call.
   * - bboxDistance(g, p):   g.boundingBox().distance(p)
   * - closestPoint(g, p):   QgsGeometryUtils.closestPoint(g, p)
   * - distance(a, b):       a.distance(b)
   * - fromWkt(shape, g):    a fresh geometry of class `shape` filled from g.asWkt()
   * - transform(g):         g after transform() into the input points' CRS
   * - asPoint(g):           g.asPoint() for a point geometry
   * - parts(g):             the parts of g, in the order g.parts() yields them
   * - intersects(a, b):     a.intersects(b)
   * - centroid(g):          g.centroid() as a point
   * - azimuth(a, b):        a.azimuth(b), in degrees
   * - extendLine(l, s, e):  l.extendLine(s, e), the line extended by s at its start and e at its end
   */
  datatype Library<!G> = Library(
    bboxDistance: (G, Point) -> real,
    closestPoint: (G, Point) -> Point,
    distance: (Point, Point) -> real,
    fromWkt: (Shape, G) -> G,
    transform: G -> G,
    asPoint: G -> Point,
    parts: G -> seq<G>,
    intersects: (G, G) -> bool,
    centroid: G -> Point,
    azimuth: (Point, Point) -> real,
    extendLine: (Segment, real, real) -> Segment
  )
}
