# Route matching and ranking, modelled in Dafny

This project models the core of a ride-sharing backend. A trip request has a pickup, a drop-off, a departure time and a route polyline. For one subject trip, the engine finds the other trips whose routes substantially overlap and ranks them.

The model covers:

- **Overlap** (`RouteOverlap`). For each segment of the subject's route, the engine checks whether some segment midpoint of the candidate's route lies within 1.0 km of its own midpoint. The result is the share of the subject's length that has such a neighbour. Segments with a zero coordinate are skipped, because JavaScript treats 0 as a missing value.
- **Deviation** (`RouteDeviation`). The pickup gap plus the drop-off gap, as a percentage of the subject's route length in km. When that length is not positive the deviation is 100.
- **Score and rounding** (`Scoring`). `overlap*0.5 + max(0, 15-dev)*2 + max(0, 30-time)*1.5`. It is rounded to two decimals and capped at 100 to give the match percentage.
- **Ranking** (`Ranking`). A stable sort by descending match percentage.
- **Pipeline** (`Matching`). `findMatches` filters candidates by time gap (at most 30 min), overlap (at least 5) and deviation (at most 15), builds one record per survivor, and sorts the records.
- **Controller** (`TripController`). Covers three operations:
  - identifier allocation: draw a random token until it is absent from the store;
  - `createTrip`: field validation, then building the record. Locations are stored longitude-first and route points latitude-first;
  - `getMatches`: a 404 for an unknown trip id, otherwise the candidate query, the pipeline and the match count.

The haversine distance is the type `Geo.Distance`. It is any function of `(lat1, lon1, lat2, lon2)` that is never negative and is zero between a point and itself. Every result is proved for all such functions. The trip store is a `seq<Trip>`. The route resolver, polyline decoder, date parser and random token stream are all parameters.

`findMatches` does not itself re-check `tripId`/`userId`; that exclusion exists only in the query at backend/src/utils/route.matching.js:79-82. The model follows the code:

- `TripController.CandidatePool` models the query.
- `Matching.OwnerNotRechecked` shows that the pipeline's filters ignore the owner.
- `TripController.NoSelfMatches` proves that no match is the subject trip itself or another trip of the same user, as long as the matches go through the query.

## Model

| member | source | states |
|---|---|---|
| RouteOverlap.TotalLength | backend/src/utils/route.matching.js:21-26 | the accumulated route-1 length over any prefix of its segments is non-negative |
| RouteOverlap.OverlapLength | backend/src/utils/route.matching.js:18-47 | loop invariant: 0 <= overlapping length <= total route-1 length, for every prefix of segments |
| RouteOverlap.OverlapPercent | backend/src/utils/route.matching.js:14-50 | the overlap percentage always lies in [0, 100], and is 0 when route 1's usable length is 0 |
| RouteOverlap.SegmentHasOverlap | backend/src/utils/route.matching.js:27-43 | the inner scan with its early break finds an overlap exactly when some usable route-2 segment midpoint is within 1.0 km; the break does not change the answer |
| RouteOverlap.CalculateRouteOverlap | backend/src/utils/route.matching.js:14-50 | the imperative double loop with `continue` and `break` computes exactly the reference overlap percentage |
| RouteOverlap.UncappedRatioAtMost100 | backend/src/utils/route.matching.js:48-49 | the ratio is already at most 100 before `Math.min`, so the cap never changes the result |
| RouteOverlap.ZeroCoordinateRoute2NoOverlap | backend/src/utils/route.matching.js:28-31 | a route-2 segment with a zero coordinate never makes a route-1 segment overlap: if every route-2 segment has one, the overlap is 0 |
| RouteOverlap.ZeroCoordinateRoute1NoOverlap | backend/src/utils/route.matching.js:21-26 | a route-1 segment with a zero coordinate adds to neither total: if every route-1 segment has one, the overlap is 0 whatever route 2 is |
| RouteOverlap.ShortRouteNoOverlap | backend/src/utils/route.matching.js:15-17 | an empty or single-point route on either side yields 0 |
| RouteOverlap.SelfOverlapLength | backend/src/utils/route.matching.js:21-46 | against itself every usable segment of a route overlaps (its midpoint is at distance 0), so overlapping length equals total length |
| RouteOverlap.SelfOverlapIsFull | backend/src/utils/route.matching.js:21-49 | a route of positive usable length overlaps itself exactly 100% |
| RouteDeviation.PickupGapKm | backend/src/utils/route.matching.js:53-58 | pickup gap, reading latitude from index 1 and longitude from index 0, is non-negative and 0 for identical pickups |
| RouteDeviation.DropGapKm | backend/src/utils/route.matching.js:59-64 | drop-off gap read the same way, non-negative and 0 for identical drop-offs |
| RouteDeviation.Deviation | backend/src/utils/route.matching.js:65-67 | the deviation is non-negative and exactly 100 when total_distance / 1000 <= 0 |
| RouteDeviation.DeviationWithinLimit | backend/src/utils/route.matching.js:65-67 | for a route of positive length, deviation <= limit iff pickup gap + drop gap <= limit% of the route length in km (both directions) |
| RouteDeviation.SameEndpointsNoDeviation | backend/src/utils/route.matching.js:52-68 | a candidate with the subject's own pickup and drop-off has deviation 0 |
| Scoring.DeviationBonus | backend/src/utils/route.matching.js:72 | the deviation term is at least 0, vanishes from 15% on and is at most 30 |
| Scoring.TimeBonus | backend/src/utils/route.matching.js:73 | the time term is at least 0, vanishes from 30 minutes on and is at most 45 |
| Scoring.MatchScore | backend/src/utils/route.matching.js:70-75 | the score is at least overlap * 0.5, and equals it once both bonuses are spent |
| Scoring.ScoreNonIncreasingInDeviation | backend/src/utils/route.matching.js:70-75 | a larger deviation never raises the score |
| Scoring.ScoreNonIncreasingInTime | backend/src/utils/route.matching.js:70-75 | a larger time gap never raises the score |
| Scoring.ScoreNonDecreasingInOverlap | backend/src/utils/route.matching.js:70-75 | a larger overlap never lowers the score |
| Scoring.ScoreRange | backend/src/utils/route.matching.js:70-75 | for inputs in range the score lies in [0, 125] |
| Scoring.Round2 | backend/src/utils/route.matching.js:124-126 | `Math.round(x*100)/100` is within half a hundredth of x |
| Scoring.RoundToInt | backend/src/utils/route.matching.js:127 | `Math.round(x)` is within one half of x |
| Scoring.Round2Monotone | backend/src/utils/route.matching.js:123 | two-decimal rounding preserves order |
| Scoring.MatchPercentage | backend/src/utils/route.matching.js:123 | match_percentage is at most 100, equals 100 when the score reaches 100, and is otherwise the score within 0.005 |
| Scoring.MatchPercentageMonotone | backend/src/utils/route.matching.js:123 | rounding and capping preserve the order of scores |
| Ranking.Insert | backend/src/utils/route.matching.js:133 | insertion adds exactly the new entry: the multiset grows by it and the length by one |
| Ranking.DescendingPairwise | backend/src/utils/route.matching.js:133 | adjacent entries in non-increasing order imply any earlier entry's key is at least any later one's |
| Ranking.InsertDescending | backend/src/utils/route.matching.js:133 | inserting into a descending sequence keeps it descending |
| Ranking.SortDescending | backend/src/utils/route.matching.js:133 | the sorted matches are a permutation of the input, and each entry's match_percentage is at least the next one's |
| Ranking.InsertKeepsKeyOrder | backend/src/utils/route.matching.js:133 | the inserted entry lands after every entry of equal percentage, leaving their order unchanged |
| Ranking.SortIsStable | backend/src/utils/route.matching.js:133 | entries of equal match_percentage keep their input order, as with the stable `Array.prototype.sort` |
| Matching.TimeDiffMinutes | backend/src/utils/route.matching.js:91-93 | the time gap in minutes is non-negative, and zero exactly for equal departure instants |
| Matching.TimeDiffSymmetric | backend/src/utils/route.matching.js:91-93 | the time gap does not depend on which trip is the subject |
| Matching.BuildMatch | backend/src/utils/route.matching.js:114-131 | an emitted record's match_percentage is at most 100 and its rounded minutes are non-negative |
| Matching.Evaluate | backend/src/utils/route.matching.js:87-115 | the short-circuiting loop body emits a record exactly when the candidate passes all four filters, and then emits that candidate's record |
| Matching.Survivors | backend/src/utils/route.matching.js:87-101 | a candidate survives iff it is in the pool and passes all four filters |
| Matching.Collect | backend/src/utils/route.matching.js:83-132 | the loop emits at most one record per pool candidate |
| Matching.CollectIsFilterThenMap | backend/src/utils/route.matching.js:87-132 | the loop's output is exactly the record of each surviving candidate, in pool order |
| Matching.FindMatches | backend/src/utils/route.matching.js:84-133 | no results for a subject without geometry; otherwise a permutation of the survivors' records, in non-increasing match_percentage order |
| Matching.EmittedMatchesPassFilters | backend/src/utils/route.matching.js:88-123 | every emitted entry is the record of a pool candidate with non-empty geometry, time gap <= 30, overlap >= 5, deviation <= 15, and its percentage is at most 100 |
| Matching.PassingCandidatesEmitted | backend/src/utils/route.matching.js:87-116 | every pool candidate passing all filters is emitted |
| Matching.MatchCount | backend/src/utils/route.matching.js:87-133 | the number of results equals the number of surviving candidates |
| Matching.TiesKeepPoolOrder | backend/src/utils/route.matching.js:133 | results of equal match_percentage appear in candidate-pool order |
| Matching.PassingMatchPercentageAtLeast | backend/src/utils/route.matching.js:99-123 | a surviving candidate's match_percentage lies in [2.5, 100] |
| Matching.OwnerNotRechecked | backend/src/utils/route.matching.js:87-101 | the pipeline's filters do not depend on the candidate's userId |
| TripController.FindTrip | backend/src/controllers/trip.controller.js:65-68 | the lookup finds nothing exactly when no stored trip has the id, and otherwise returns a stored trip with that id |
| TripController.GenerateUniqueTripId | backend/src/controllers/trip.controller.js:6-17 | the returned token is the first drawn token absent from the store, so it never duplicates a stored id; every earlier draw was taken |
| TripController.CreateTrip | backend/src/controllers/trip.controller.js:19-59 | rejects with 400 before any collaborator call iff a field is falsy (including a 0 coordinate); a 500 iff the resolver fails; `Unfinished` iff every drawn token is taken; on success riderId = userId, locations are [lng, lat], the addresses and distance come from the resolver, route points are the decoded polyline point by point, the id is fresh, and store ids stay unique |
| TripController.StoredLocationsReadBack | backend/src/controllers/trip.controller.js:39-40 | the longitude-first storage and the engine reading index 1 as latitude compose: the gaps between two created trips are distances between the requested (lat, lng) points |
| TripController.CandidatePool | backend/src/utils/route.matching.js:79-82 | the candidate query keeps exactly the stored trips with a different tripId and a different userId |
| TripController.GetMatches | backend/src/controllers/trip.controller.js:61-92 | 404 iff no trip has the id; otherwise total_matches equals the number of returned matches, which are in descending order |
| TripController.NoSelfMatches | backend/src/controllers/trip.controller.js:65-75 | no returned match is the subject trip or another trip of the subject's user |

## Left out

- The haversine formula (backend/src/utils/route.matching.js:3-12) is floating-point trigonometry. Only non-negativity and zero self-distance are modelled, as the constraint of `Geo.Distance`. Symmetry is not assumed, and nothing needs it.
- Floating point in general: arithmetic is exact over `real`. `Math.round` is modelled as `floor(x + 0.5)`, and NaN is not modelled. A NaN coordinate or an invalid date is falsy or poisons comparisons in JavaScript; neither is represented.
- Mongo persistence (`Trip.find`, `Trip.findOne`, `save`) is modelled as a sequence of trips in store order. Schema validation on save and save failures are out, and so is the database's own uniqueness constraint.
- The race between the existence probe and the insert is not modelled, because the model is sequential.
- TripController.GenerateUniqueTripId: the source loops until it finds a fresh token, without bound. The model reads a finite stream of drawn tokens and returns None when every draw is taken. `createTrip` then reports `Unfinished`, where the source would keep looping.
- The Google Directions client (backend/src/utils/getroutedetails.js) is a `Resolver` parameter whose failure is None.
- Polyline decoding is a `decode` parameter. It is assumed total: a decoder that throws is not modelled.
- `new Date(departure_time)` is a `toInstant` parameter.
- The thrown-error-to-500 path of getMatches and findMatches is not modelled: the model has no failing collaborators there.
- Express routing, HTTP framing beyond the status distinctions above, async/await, the React front end and process bootstrap are out of scope.
- The `coordinates` alias that getMatches adds to the subject before matching is out: the engine never reads it.
