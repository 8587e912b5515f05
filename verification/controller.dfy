/**
  Identifier allocation, request validation and record construction of the
  trip controller (backend/src/controllers/trip.controller.js), and getMatches. The store
  is a sequence of trips; the route resolver, the polyline decoder, date
  parsing and the random token stream are parameters.
 */
module TripController {
  import opened Wrappers
  import opened Geo
  import opened Trips
  import opened RouteDeviation
  import opened Matching
  import opened Ranking

  /** Digits of `toString(36)`. */
  const TokenAlphabet: string := "0123456789abcdefghijklmnopqrstuvwxyz"

  /** What `Math.random().toString(36).substring(2, 10)` can yield: at most
      eight base-36 digits. */
  predicate IsToken(s: string)
  {
    |s| <= 8 && forall i :: 0 <= i < |s| ==> s[i] in TokenAlphabet
  }

  /** The identifiers present in the store. */
  function TripIds(store: seq<Trip>): set<string>
  {
    set t | t in store :: t.tripId
  }

  /** No two stored trips share an identifier. */
  ghost predicate UniqueIds(store: seq<Trip>)
  {
    forall i, j :: 0 <= i < j < |store| ==> store[i].tripId != store[j].tripId
  }

  /** `Trip.findOne({ tripId })`: the first stored trip with that identifier. */
  function FindTrip(store: seq<Trip>, tripId: string): (r: Option<Trip>)
    ensures r.None? <==> tripId !in TripIds(store)
    ensures r.Some? ==> r.value in store && r.value.tripId == tripId
  {
    if |store| == 0 then None
    else if store[0].tripId == tripId then Some(store[0])
    else
      assert TripIds(store) == {store[0].tripId} + TripIds(store[1..]) by {
        assert store == [store[0]] + store[1..];
      }
      FindTrip(store[1..], tripId)
  }

  /** generateUniqueTripId: draws tokens until the store has no trip with the
      drawn one. `draws` is the stream of tokens the random source produces;
      `probes` counts the lookups made. The source loops without bound, so when
      every draw is taken the model reports None. */
  method GenerateUniqueTripId(store: seq<Trip>, draws: seq<string>) returns (tripId: Option<string>, probes: nat)
    requires forall i :: 0 <= i < |draws| ==> IsToken(draws[i])
    ensures probes <= |draws|
    ensures forall i :: 0 <= i < probes - 1 ==> draws[i] in TripIds(store)
    ensures tripId.Some? ==> && 0 < probes
                             && tripId.value == draws[probes - 1]
                             && tripId.value !in TripIds(store)
                             && IsToken(tripId.value)
    ensures tripId.None? ==> probes == |draws| && forall i :: 0 <= i < |draws| ==> draws[i] in TripIds(store)
  {
    tripId := None;
    probes := 0;
    var isUnique := false;
    while !isUnique && probes < |draws|
      invariant probes <= |draws|
      invariant forall i :: 0 <= i < (if isUnique then probes - 1 else probes) ==> draws[i] in TripIds(store)
      invariant isUnique ==> 0 < probes && tripId == Some(draws[probes - 1]) && draws[probes - 1] !in TripIds(store)
      decreases |draws| - probes, !isUnique
    {
      var token := draws[probes];
      tripId := Some(token);
      var existingTrip := FindTrip(store, token);
      probes := probes + 1;
      if existingTrip.None? {
        isUnique := true;
      }
    }
    if !isUnique {
      tripId := None;
    }
  }

  /** The request body of createTrip; a field the client left out is None. */
  datatype TripRequest = TripRequest(
    pickupLat: Option<real>,
    pickupLng: Option<real>,
    dropLat: Option<real>,
    dropLng: Option<real>,
    departureTime: Option<string>,
    userId: Option<string>,
    userName: Option<string>)

  predicate TruthyNumber(v: Option<real>)
  {
    v.Some? && Present(v.value)
  }

  predicate TruthyString(v: Option<string>)
  {
    v.Some? && v.value != ""
  }

  /** All seven fields are truthy; a coordinate of exactly 0 is rejected. */
  predicate HasRequiredFields(req: TripRequest)
  {
    && TruthyNumber(req.pickupLat)
    && TruthyNumber(req.pickupLng)
    && TruthyNumber(req.dropLat)
    && TruthyNumber(req.dropLng)
    && TruthyString(req.departureTime)
    && TruthyString(req.userId)
    && TruthyString(req.userName)
  }

  /** What the route resolver returns: encoded polyline, length in metres, addresses. */
  datatype RouteData = RouteData(polyline: string, distance: real, pickupAddress: string, dropAddress: string)

  /** A resolver call that throws is None. Arguments: pickup lat, lng, drop lat, lng. */
  type Resolver = (real, real, real, real) -> Option<RouteData>

  /** The collaborator calls createTrip makes, in order. */
  datatype Effect = ResolveRoute | ProbeTripId(token: string) | SaveTrip(tripId: string)

  /** createTrip's outcome: 400, 201 with the trip, 500, or still drawing tokens. */
  datatype CreateResponse = BadRequest | Created(trip: Trip) | ServerError | Unfinished

  /** The record createTrip stores: locations longitude-first, the rider is the
      requesting user, the geometry is the decoded polyline point by point. */
  function NewTrip(req: TripRequest, tripId: string, departure: int, route: RouteData, decoded: Route): Trip
    requires HasRequiredFields(req)
  {
    Trip(
      tripId := tripId,
      userId := req.userId.value,
      userName := req.userName.value,
      riderId := req.userId.value,
      departureTime := departure,
      pickupLocation := (req.pickupLng.value, req.pickupLat.value),
      dropoffLocation := (req.dropLng.value, req.dropLat.value),
      routePolyline := route.polyline,
      routeCoordinates := seq(|decoded|, i requires 0 <= i < |decoded| => (decoded[i].0, decoded[i].1)),
      totalDistance := route.distance,
      pickupAddress := route.pickupAddress,
      dropAddress := route.dropAddress)
  }

  /** createTrip. Rejects an incomplete request before any collaborator call;
      otherwise resolves the route, allocates a fresh identifier and appends
      the new trip to the store, keeping identifiers unique. */
  method CreateTrip(
    req: TripRequest, resolve: Resolver, decode: string -> Route, toInstant: string -> int,
    store: seq<Trip>, draws: seq<string>)
    returns (resp: CreateResponse, store': seq<Trip>, effects: seq<Effect>)
    requires forall i :: 0 <= i < |draws| ==> IsToken(draws[i])
    ensures resp == BadRequest <==> !HasRequiredFields(req)
    ensures resp == BadRequest ==> effects == []
    ensures resp == ServerError <==>
      HasRequiredFields(req) && resolve(req.pickupLat.value, req.pickupLng.value, req.dropLat.value, req.dropLng.value).None?
    ensures resp == Unfinished <==>
      && HasRequiredFields(req)
      && resolve(req.pickupLat.value, req.pickupLng.value, req.dropLat.value, req.dropLng.value).Some?
      && forall i :: 0 <= i < |draws| ==> draws[i] in TripIds(store)
    ensures resp.Created? ==> store' == store + [resp.trip]
    ensures !resp.Created? ==> store' == store
    ensures resp.Created? ==>
      && HasRequiredFields(req)
      && var route := resolve(req.pickupLat.value, req.pickupLng.value, req.dropLat.value, req.dropLng.value);
         var t := resp.trip;
      && route.Some?
      && t.tripId !in TripIds(store)
      && IsToken(t.tripId)
      && t.userId == req.userId.value
      && t.riderId == t.userId
      && t.userName == req.userName.value
      && t.departureTime == toInstant(req.departureTime.value)
      && t.pickupLocation == (req.pickupLng.value, req.pickupLat.value)
      && t.dropoffLocation == (req.dropLng.value, req.dropLat.value)
      && t.routePolyline == route.value.polyline
      && |t.routeCoordinates| == |decode(route.value.polyline)|
      && (forall i :: 0 <= i < |t.routeCoordinates| ==> t.routeCoordinates[i] == decode(route.value.polyline)[i])
      && t.totalDistance == route.value.distance
      && t.pickupAddress == route.value.pickupAddress
      && t.dropAddress == route.value.dropAddress
      && |effects| >= 2
      && effects[0] == ResolveRoute
      && effects[|effects| - 1] == SaveTrip(t.tripId)
    ensures UniqueIds(store) ==> UniqueIds(store')
  {
    if !HasRequiredFields(req) {
      return BadRequest, store, [];
    }
    effects := [ResolveRoute];
    var routeData := resolve(req.pickupLat.value, req.pickupLng.value, req.dropLat.value, req.dropLng.value);
    if routeData.None? {
      return ServerError, store, effects;
    }
    var tripId, probes := GenerateUniqueTripId(store, draws);
    effects := effects + seq(probes, i requires 0 <= i < probes <= |draws| => ProbeTripId(draws[i]));
    if tripId.None? {
      return Unfinished, store, effects;
    }
    var decoded := decode(routeData.value.polyline);
    var trip := NewTrip(req, tripId.value, toInstant(req.departureTime.value), routeData.value, decoded);
    store' := store + [trip];
    effects := effects + [SaveTrip(trip.tripId)];
    resp := Created(trip);
    forall i | 0 <= i < |store|
      ensures store[i].tripId != trip.tripId
    {
      assert store[i] in store;
    }
  }

  /** The engine reads index 1 of a stored location as latitude, so on two
      created trips it measures between the requested (lat, lng) points. */
  lemma StoredLocationsReadBack(
    dist: Distance, a: TripRequest, b: TripRequest, idA: string, idB: string, depA: int, depB: int,
    routeA: RouteData, routeB: RouteData, decodedA: Route, decodedB: Route)
    requires HasRequiredFields(a) && HasRequiredFields(b)
    ensures PickupGapKm(dist, NewTrip(a, idA, depA, routeA, decodedA), NewTrip(b, idB, depB, routeB, decodedB))
         == dist(a.pickupLat.value, a.pickupLng.value, b.pickupLat.value, b.pickupLng.value)
    ensures DropGapKm(dist, NewTrip(a, idA, depA, routeA, decodedA), NewTrip(b, idB, depB, routeB, decodedB))
         == dist(a.dropLat.value, a.dropLng.value, b.dropLat.value, b.dropLng.value)
  {
  }

  /** The candidate query: every stored trip other than the subject's own
      identifier and the subject user's trips, in store order. */
  function CandidatePool(store: seq<Trip>, subject: Trip): (pool: seq<Trip>)
    ensures forall t :: t in pool <==> t in store && t.tripId != subject.tripId && t.userId != subject.userId
  {
    if |store| == 0 then []
    else
      (if store[0].tripId != subject.tripId && store[0].userId != subject.userId then [store[0]] else [])
      + CandidatePool(store[1..], subject)
  }

  datatype TripSummary = TripSummary(pickupAddress: string, dropAddress: string, departureTime: int)

  /** getMatches' outcome: 404, or the subject summary with its ranked matches. */
  datatype MatchesResponse =
    | NotFound
    | Found(tripId: string, trip: TripSummary, totalMatches: int, matches: seq<MatchResult>)

  /** getMatches: 404 for an unknown identifier; otherwise the ranked matches
      of the subject against the candidate query, and their count. */
  function GetMatches(dist: Distance, store: seq<Trip>, tripId: string): (r: MatchesResponse)
    ensures r.NotFound? <==> tripId !in TripIds(store)
    ensures r.Found? ==> r.tripId == tripId && r.totalMatches == |r.matches| && Descending(MatchKey, r.matches)
  {
    match FindTrip(store, tripId)
    case None => NotFound
    case Some(current) =>
      var matches := FindMatches(dist, current, CandidatePool(store, current));
      Found(tripId, TripSummary(current.pickupAddress, current.dropAddress, current.departureTime), |matches|, matches)
  }

  /** Through the candidate query, no match is the subject trip itself or
      another trip of the same user. */
  lemma NoSelfMatches(dist: Distance, store: seq<Trip>, tripId: string, e: MatchResult)
    requires GetMatches(dist, store, tripId).Found?
    requires e in GetMatches(dist, store, tripId).matches
    ensures e.tripId != tripId
    ensures e.userId != FindTrip(store, tripId).value.userId
  {
    var current := FindTrip(store, tripId).value;
    var pool := CandidatePool(store, current);
    EmittedMatchesPassFilters(dist, current, pool, e);
    var c :| c in pool && e == BuildMatch(dist, current, c);
  }
}
