/**
  Shared vocabulary of the route matching backend: an optional value, the
  coordinate pairs the trips store, and the great-circle distance primitive.
 */
module Wrappers {

  /** An optional value: a missing request field, a failed lookup, a skipped candidate. */
  datatype Option<+T> = None | Some(value: T)
}

module Geo {

  /** A two-element coordinate array as the backend stores it; `.0` is index 0
      and `.1` is index 1. Route points are stored latitude-first, trip
      locations longitude-first, so the meaning of each slot depends on the field. */
  type Coord = (real, real)

  /** An ordered polyline of latitude-first points. */
  type Route = seq<Coord>

  /** JavaScript truthiness of a number: zero is falsy. */
  predicate Present(x: real)
  {
    x != 0.0
  }

  /** What the matching engine relies on of the haversine distance
      (backend/src/utils/route.matching.js:3-12): it is never negative, and it is
      zero between a point and itself (the formula gives a = 0 there, so atan2(0, 1) = 0). */
  ghost predicate IsDistance(f: (real, real, real, real) -> real)
  {
    && (forall lat1, lon1, lat2, lon2 :: f(lat1, lon1, lat2, lon2) >= 0.0)
    && (forall lat, lon :: f(lat, lon, lat, lon) == 0.0)
  }

  /** The haversine distance in kilometres, arguments (lat1, lon1, lat2, lon2),
      abstracted to the two facts above; any such function may stand for it. */
  type Distance = f: (real, real, real, real) -> real | IsDistance(f)
    witness (lat1: real, lon1: real, lat2: real, lon2: real) => 0.0

  /** The component-wise midpoint of two points. */
  function Midpoint(a: Coord, b: Coord): Coord
  {
    ((a.0 + b.0) / 2.0, (a.1 + b.1) / 2.0)
  }
}
