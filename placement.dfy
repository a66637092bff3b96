/**
 * The two pieces shared by the label-placement expression functions: the search for the part of
 * the neighbouring geometry that intersects the feature, and the azimuth-to-sector chain.
 */
module Placement {
  import opened Wrappers
  import opened Qgis

  /** The index of the first part, from `k` on, that intersects `geometry`; `None` when none does. */
  function FirstIntersecting<G>(lib: Library<G>, parts: seq<G>, geometry: G, k: nat): (r: Option<nat>)
    requires k <= |parts|
    ensures r.Some? ==> k <= r.value < |parts| && lib.intersects(parts[r.value], geometry)
    ensures r.Some? ==> forall m :: k <= m < r.value ==> !lib.intersects(parts[m], geometry)
    ensures r.None? <==> forall m :: k <= m < |parts| ==> !lib.intersects(parts[m], geometry)
    decreases |parts| - k
  {
    if k == |parts| then None
    else if lib.intersects(parts[k], geometry) then Some(k)
    else FirstIntersecting(lib, parts, geometry, k + 1)
  }

  /**
   * The geometry the closest point is taken on: the first part of `neighbour` that intersects
   * `geometry`, or the whole of `neighbour` when no part does.
   */
  function PartOrWhole<G>(lib: Library<G>, neighbour: G, geometry: G): (r: G)
    ensures (exists k :: 0 <= k < |lib.parts(neighbour)| && r == lib.parts(neighbour)[k]
                         && lib.intersects(lib.parts(neighbour)[k], geometry)
                         && forall m :: 0 <= m < k ==> !lib.intersects(lib.parts(neighbour)[m], geometry))
            || ((forall m :: 0 <= m < |lib.parts(neighbour)| ==> !lib.intersects(lib.parts(neighbour)[m], geometry))
                && r == neighbour)
  {
    var parts := lib.parts(neighbour);
    match FirstIntersecting(lib, parts, geometry, 0)
    case Some(k) => parts[k]
    case None => neighbour
  }

  /**
   * The `for ... else` loop over `intersecting_geom.parts()`: stop at the first part that
   * intersects the feature's geometry, otherwise fall back to the neighbour's whole geometry.
   */
  method MeasuredGeometry<G>(lib: Library<G>, neighbour: G, geometry: G) returns (measured: G)
    ensures measured == PartOrWhole(lib, neighbour, geometry)
  {
    var parts := lib.parts(neighbour);
    var k := 0;
    while k < |parts|
      invariant 0 <= k <= |parts|
      invariant FirstIntersecting(lib, parts, geometry, k) == FirstIntersecting(lib, parts, geometry, 0)
    {
      var g := parts[k];
      if lib.intersects(g, geometry) {
        return g;
      }
      k := k + 1;
    }
    measured := neighbour;
  }

  /**
   * The closest point of the measured geometry to the feature's centroid: measured on the first
   * part of `neighbour` that intersects `geometry`, or on the whole of `neighbour` when none does.
   */
  function ClosestBorderPoint<G>(lib: Library<G>, neighbour: G, geometry: G): (r: Point)
    ensures var parts := lib.parts(neighbour);
            (exists k :: 0 <= k < |parts| && lib.intersects(parts[k], geometry)
                         && (forall m :: 0 <= m < k ==> !lib.intersects(parts[m], geometry))
                         && r == lib.closestPoint(parts[k], lib.centroid(geometry)))
            || ((forall m :: 0 <= m < |parts| ==> !lib.intersects(parts[m], geometry))
                && r == lib.closestPoint(neighbour, lib.centroid(geometry)))
  {
    lib.closestPoint(PartOrWhole(lib, neighbour, geometry), lib.centroid(geometry))
  }

  /**
   * The azimuth-to-sector `if/elif` chain, branch for branch. Its third test,
   * `azimuth >= -45 or azimuth < 45`, holds for every azimuth, so the branches after it are never
   * taken, 5 is never returned, and the initial 0 is never returned either.
   */
  function SectorOf(azimuth: real): (r: int)
    ensures r == 7 <==> -180.0 <= azimuth < -135.0
    ensures r == 3 <==> -135.0 <= azimuth < -45.0
    ensures r == 1 <==> azimuth < -180.0 || -45.0 <= azimuth
    ensures r != 5 && r != 0
  {
    if azimuth >= -180.0 && azimuth < -135.0 then 7
    else if azimuth >= -135.0 && azimuth < -45.0 then 3
    else if azimuth >= -45.0 || azimuth < 45.0 then 1
    else if azimuth >= 45.0 && azimuth < 135.0 then 5
    else if azimuth >= 135.0 && azimuth < 225.0 then 7
    else 0
  }
}
