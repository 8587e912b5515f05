/**
  Pickup/drop-off deviation of a candidate from the subject trip
  (backend/src/utils/route.matching.js:52-68).
 */
module RouteDeviation {
  import opened Geo
  import opened Trips

  /** Distance between two trips' pickup points, reading latitude from index 1
      and longitude from index 0 of the longitude-first locations. */
  function PickupGapKm(dist: Distance, current: Trip, candidate: Trip): (gap: real)
    ensures gap >= 0.0
    ensures current.pickupLocation == candidate.pickupLocation ==> gap == 0.0
  {
    dist(Lat(current.pickupLocation), Lng(current.pickupLocation),
         Lat(candidate.pickupLocation), Lng(candidate.pickupLocation))
  }

  /** Distance between two trips' drop-off points, read the same way. */
  function DropGapKm(dist: Distance, current: Trip, candidate: Trip): (gap: real)
    ensures gap >= 0.0
    ensures current.dropoffLocation == candidate.dropoffLocation ==> gap == 0.0
  {
    dist(Lat(current.dropoffLocation), Lng(current.dropoffLocation),
         Lat(candidate.dropoffLocation), Lng(candidate.dropoffLocation))
  }

  /** Extra travel to the candidate's endpoints as a percentage of the current
      trip's length in km; maximal (100) when that length is not positive. */
  function Deviation(dist: Distance, current: Trip, candidate: Trip): (d: real)
    ensures d >= 0.0
    ensures current.totalDistance / 1000.0 <= 0.0 ==> d == 100.0
  {
    var additionalDistance := PickupGapKm(dist, current, candidate) + DropGapKm(dist, current, candidate);
    var originalDistance := current.totalDistance / 1000.0;
    if originalDistance > 0.0 then additionalDistance / originalDistance * 100.0 else 100.0
  }

  /** For a route of positive length, the deviation is within a limit exactly
      when the two endpoint gaps together are within that share of the route. */
  lemma DeviationWithinLimit(dist: Distance, current: Trip, candidate: Trip, limit: real)
    requires current.totalDistance > 0.0
    ensures Deviation(dist, current, candidate) <= limit
        <==> PickupGapKm(dist, current, candidate) + DropGapKm(dist, current, candidate)
             <= limit / 100.0 * (current.totalDistance / 1000.0)
  {
    var a := PickupGapKm(dist, current, candidate) + DropGapKm(dist, current, candidate);
    var o := current.totalDistance / 1000.0;
    assert a / o * 100.0 * o == a * 100.0;
    assert limit / 100.0 * o * 100.0 == limit * o;
  }

  /** A candidate with the same pickup and drop-off points deviates by 0 from a
      route of positive length. */
  lemma SameEndpointsNoDeviation(dist: Distance, current: Trip, candidate: Trip)
    requires current.totalDistance > 0.0
    requires candidate.pickupLocation == current.pickupLocation
    requires candidate.dropoffLocation == current.dropoffLocation
    ensures Deviation(dist, current, candidate) == 0.0
  {
  }
}
