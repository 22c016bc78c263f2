/** Coordinates and routes as the routing modules exchange them. */
module Geo {
  import opened Util

  /** A two-element JavaScript array of numbers, `[first, second]`. */
  datatype Pair = Pair(first: real, second: real)

  /** A GeoJSON geometry: its `type` and its list of `coordinates`. */
  datatype Geometry = Geometry(kind: string, coordinates: seq<Pair>)

  /** `{ geometry, distance, duration }`; `duration` is `None` where the route carries `null`. */
  datatype Route = Route(geometry: Geometry, distance: real, duration: Option<real>)

  /** `[p[1], p[0]]`: between Leaflet's `[lat, lng]` order and GeoJSON's `[lng, lat]` order. */
  function Swap(p: Pair): (r: Pair)
    ensures r.first == p.second && r.second == p.first
  {
    Pair(p.second, p.first)
  }
}
