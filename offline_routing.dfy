/**
 * `calculateOfflineRoute` of `lib/offlineRouting.js`: with no obstacles, the straight line from
 * the start to the end point; with obstacles, nothing (the obstacle-avoiding search is not
 * written, so the function returns `undefined`).
 */
module OfflineRouting {
  import opened Util
  import opened Geo

  /** An obstacle drawn on the map, as a list of its corner points. */
  type Polygon = seq<Pair>

  const LineString: string := "LineString"

  /**
   * `calculateOfflineRoute(startPoint, endPoint, obstacles)` with points in `[lat, lng]` order.
   * `distanceTo(a, b)` stands for Leaflet's `L.latLng(a).distanceTo(L.latLng(b))`, in metres.
   */
  function CalculateOfflineRoute(start: Pair, end: Pair, distanceTo: (Pair, Pair) -> real,
                                 obstacles: seq<Polygon> := []): (r: Option<Route>)
    ensures r.Some? <==> obstacles == []
    ensures r.Some? ==>
              && r.value.geometry.kind == LineString
              && |r.value.geometry.coordinates| == 2
              && Swap(r.value.geometry.coordinates[0]) == start
              && Swap(r.value.geometry.coordinates[1]) == end
              && r.value.distance == distanceTo(start, end)
              && r.value.duration.None?
  {
    if |obstacles| == 0 then
      Some(Route(Geometry(LineString, [Swap(start), Swap(end)]), distanceTo(start, end), None))
    else
      None
  }

  /**
   * The offline route back is the route there with its coordinates reversed, and, for a
   * symmetric distance, of the same length.
   */
  lemma RouteBackIsReversed(start: Pair, end: Pair, distanceTo: (Pair, Pair) -> real)
    requires distanceTo(start, end) == distanceTo(end, start)
    ensures var there, back := CalculateOfflineRoute(start, end, distanceTo), CalculateOfflineRoute(end, start, distanceTo);
      && there.Some? && back.Some?
      && back.value.geometry.coordinates == [there.value.geometry.coordinates[1], there.value.geometry.coordinates[0]]
      && back.value.distance == there.value.distance
  {
  }
}
