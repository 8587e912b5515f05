/**
  The persisted trip record and the match record the pipeline emits.
 */
module Trips {
  import opened Geo

  /** A persisted trip (backend/src/models/trip.model.js). `departureTime` is the
      instant in milliseconds, `totalDistance` the route length in metres. */
  datatype Trip = Trip(
    tripId: string,
    userId: string,
    userName: string,
    riderId: string,
    departureTime: int,
    pickupLocation: Coord,
    dropoffLocation: Coord,
    routePolyline: string,
    routeCoordinates: Route,
    totalDistance: real,
    pickupAddress: string,
    dropAddress: string)

  /** Latitude of a stored location: index 1 of a longitude-first pair. */
  function Lat(location: Coord): real
  {
    location.1
  }

  /** Longitude of a stored location: index 0 of a longitude-first pair. */
  function Lng(location: Coord): real
  {
    location.0
  }

  /** The ranking key of an emitted match. */
  function MatchKey(m: MatchResult): real
  {
    m.matchPercentage
  }

  /** One ranked candidate as emitted by the matching pipeline. */
  datatype MatchResult = MatchResult(
    tripId: string,
    userId: string,
    userName: string,
    pickupAddress: string,
    dropAddress: string,
    departureTime: int,
    matchPercentage: real,
    overlapPercentage: real,
    routeDeviationPercentage: real,
    additionalDistanceKm: real,
    timeDifferenceMinutes: int,
    pickupDistanceKm: real,
    dropDistanceKm: real,
    routeCoordinates: Route)
}
