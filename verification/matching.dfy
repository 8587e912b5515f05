/**
  The filter/score/sort body of findMatches
  (backend/src/utils/route.matching.js:83-133): one result per candidate that
  passes the time, overlap and deviation thresholds, ranked by match percentage.
 */
module Matching {
  import opened Wrappers
  import opened Geo
  import opened Trips
  import opened RouteOverlap
  import opened RouteDeviation
  import opened Scoring
  import opened Ranking

  const MaxTimeDiffMinutes: real := 30.0
  const MinOverlapPercentage: real := 5.0
  const MaxDeviationPercentage: real := 15.0

  /** |t1 - t2| converted from milliseconds to minutes. */
  function TimeDiffMinutes(t1: int, t2: int): (minutes: real)
    ensures minutes >= 0.0
    ensures minutes == 0.0 <==> t1 == t2
  {
    (if t1 >= t2 then t1 - t2 else t2 - t1) as real / (1000.0 * 60.0)
  }

  lemma TimeDiffSymmetric(t1: int, t2: int)
    ensures TimeDiffMinutes(t1, t2) == TimeDiffMinutes(t2, t1)
  {
  }

  /** The conjunction of the pipeline's filters for one candidate. */
  predicate Passes(dist: Distance, subject: Trip, candidate: Trip)
  {
    && |candidate.routeCoordinates| > 0
    && TimeDiffMinutes(subject.departureTime, candidate.departureTime) <= MaxTimeDiffMinutes
    && OverlapPercent(dist, subject.routeCoordinates, candidate.routeCoordinates) >= MinOverlapPercentage
    && Deviation(dist, subject, candidate) <= MaxDeviationPercentage
  }

  /** The record pushed for a surviving candidate. */
  function BuildMatch(dist: Distance, subject: Trip, candidate: Trip): (m: MatchResult)
    ensures m.matchPercentage <= 100.0
    ensures m.timeDifferenceMinutes >= 0
  {
    var timeDiff := TimeDiffMinutes(subject.departureTime, candidate.departureTime);
    var overlap := OverlapPercent(dist, subject.routeCoordinates, candidate.routeCoordinates);
    var deviation := Deviation(dist, subject, candidate);
    var pickupDistance := PickupGapKm(dist, subject, candidate);
    var dropDistance := DropGapKm(dist, subject, candidate);
    var score := MatchScore(overlap, deviation, timeDiff);
    MatchResult(
      tripId := candidate.tripId,
      userId := candidate.userId,
      userName := candidate.userName,
      pickupAddress := candidate.pickupAddress,
      dropAddress := candidate.dropAddress,
      departureTime := candidate.departureTime,
      matchPercentage := MatchPercentage(score),
      overlapPercentage := Round2(overlap),
      routeDeviationPercentage := Round2(deviation),
      additionalDistanceKm := Round2(pickupDistance + dropDistance),
      timeDifferenceMinutes := RoundToInt(timeDiff),
      pickupDistanceKm := Round2(pickupDistance),
      dropDistanceKm := Round2(dropDistance),
      routeCoordinates := candidate.routeCoordinates)
  }

  /** One iteration of the candidate loop, short-circuiting in the source's
      order: empty geometry, time gap, overlap, deviation. */
  function Evaluate(dist: Distance, subject: Trip, candidate: Trip): (r: Option<MatchResult>)
    ensures r.Some? <==> Passes(dist, subject, candidate)
    ensures r.Some? ==> r.value == BuildMatch(dist, subject, candidate)
  {
    if |candidate.routeCoordinates| == 0 then None
    else
      var timeDiff := TimeDiffMinutes(subject.departureTime, candidate.departureTime);
      if timeDiff > MaxTimeDiffMinutes then None
      else
        var overlap := OverlapPercent(dist, subject.routeCoordinates, candidate.routeCoordinates);
        if overlap < MinOverlapPercentage then None
        else
          var deviation := Deviation(dist, subject, candidate);
          if deviation > MaxDeviationPercentage then None
          else Some(BuildMatch(dist, subject, candidate))
  }

  /** The `matches` array the loop builds, in candidate-pool order. */
  function Collect(dist: Distance, subject: Trip, pool: seq<Trip>): (r: seq<MatchResult>)
    ensures |r| <= |pool|
  {
    if |pool| == 0 then []
    else
      match Evaluate(dist, subject, pool[0])
      case Some(m) => [m] + Collect(dist, subject, pool[1..])
      case None => Collect(dist, subject, pool[1..])
  }

  /** Reference definition: the candidates that pass every filter, in pool order. */
  function Survivors(dist: Distance, subject: Trip, pool: seq<Trip>): (r: seq<Trip>)
    ensures forall c :: c in r <==> c in pool && Passes(dist, subject, c)
  {
    if |pool| == 0 then []
    else (if Passes(dist, subject, pool[0]) then [pool[0]] else []) + Survivors(dist, subject, pool[1..])
  }

  /** Reference definition: the record of each given candidate, in order. */
  function BuildAll(dist: Distance, subject: Trip, candidates: seq<Trip>): seq<MatchResult>
  {
    seq(|candidates|, i requires 0 <= i < |candidates| => BuildMatch(dist, subject, candidates[i]))
  }

  /** The loop is a filter followed by a map: one record per surviving
      candidate, in pool order. */
  lemma {:induction false} CollectIsFilterThenMap(dist: Distance, subject: Trip, pool: seq<Trip>)
    ensures Collect(dist, subject, pool) == BuildAll(dist, subject, Survivors(dist, subject, pool))
  {
    if |pool| > 0 {
      var head, tail := pool[0], pool[1..];
      CollectIsFilterThenMap(dist, subject, tail);
      var rest := Survivors(dist, subject, tail);
      if Passes(dist, subject, head) {
        assert Collect(dist, subject, pool) == [BuildMatch(dist, subject, head)] + Collect(dist, subject, tail);
        assert Survivors(dist, subject, pool) == [head] + rest;
        BuildAllCons(dist, subject, head, rest);
      } else {
        assert Collect(dist, subject, pool) == Collect(dist, subject, tail);
        assert Survivors(dist, subject, pool) == rest;
      }
    }
  }

  lemma BuildAllCons(dist: Distance, subject: Trip, c: Trip, cs: seq<Trip>)
    ensures BuildAll(dist, subject, [c] + cs) == [BuildMatch(dist, subject, c)] + BuildAll(dist, subject, cs)
  {
  }

  /** findMatches: nothing for a subject without geometry; otherwise the
      records of the surviving candidates, ranked by descending percentage. */
  function FindMatches(dist: Distance, subject: Trip, pool: seq<Trip>): (r: seq<MatchResult>)
    ensures |subject.routeCoordinates| == 0 ==> r == []
    ensures |subject.routeCoordinates| > 0
        ==> multiset(r) == multiset(BuildAll(dist, subject, Survivors(dist, subject, pool)))
    ensures Descending(MatchKey, r)
  {
    if |subject.routeCoordinates| == 0 then []
    else
      CollectIsFilterThenMap(dist, subject, pool);
      SortDescending(MatchKey, Collect(dist, subject, pool))
  }

  /** Soundness: every emitted entry is the record of a pool candidate that
      passes every threshold, and its percentage is at most 100. */
  lemma EmittedMatchesPassFilters(dist: Distance, subject: Trip, pool: seq<Trip>, e: MatchResult)
    requires e in FindMatches(dist, subject, pool)
    ensures e.matchPercentage <= 100.0
    ensures exists c :: (
      && c in pool
      && e == BuildMatch(dist, subject, c)
      && |c.routeCoordinates| > 0
      && TimeDiffMinutes(subject.departureTime, c.departureTime) <= 30.0
      && OverlapPercent(dist, subject.routeCoordinates, c.routeCoordinates) >= 5.0
      && Deviation(dist, subject, c) <= 15.0)
  {
    var survivors := Survivors(dist, subject, pool);
    assert e in multiset(FindMatches(dist, subject, pool));
    assert e in BuildAll(dist, subject, survivors);
    var i :| 0 <= i < |survivors| && BuildAll(dist, subject, survivors)[i] == e;
    assert survivors[i] in survivors;
  }

  /** Completeness: every passing candidate's record is emitted. */
  lemma PassingCandidatesEmitted(dist: Distance, subject: Trip, pool: seq<Trip>, c: Trip)
    requires |subject.routeCoordinates| > 0
    requires c in pool && Passes(dist, subject, c)
    ensures BuildMatch(dist, subject, c) in FindMatches(dist, subject, pool)
  {
    var survivors := Survivors(dist, subject, pool);
    var i :| 0 <= i < |survivors| && survivors[i] == c;
    assert BuildAll(dist, subject, survivors)[i] == BuildMatch(dist, subject, c);
    assert BuildMatch(dist, subject, c) in multiset(BuildAll(dist, subject, survivors));
  }

  /** Exactly one entry per surviving candidate. */
  lemma MatchCount(dist: Distance, subject: Trip, pool: seq<Trip>)
    requires |subject.routeCoordinates| > 0
    ensures |FindMatches(dist, subject, pool)| == |Survivors(dist, subject, pool)|
  {
    var r := FindMatches(dist, subject, pool);
    assert |multiset(r)| == |multiset(BuildAll(dist, subject, Survivors(dist, subject, pool)))|;
  }

  /** Entries with equal match percentage keep their candidate-pool order. */
  lemma TiesKeepPoolOrder(dist: Distance, subject: Trip, pool: seq<Trip>, k: real)
    requires |subject.routeCoordinates| > 0
    ensures WithKey(MatchKey, FindMatches(dist, subject, pool), k)
         == WithKey(MatchKey, BuildAll(dist, subject, Survivors(dist, subject, pool)), k)
  {
    CollectIsFilterThenMap(dist, subject, pool);
    SortIsStable(MatchKey, Collect(dist, subject, pool), k);
  }

  /** An emitted entry's percentage is at least 2.5: a passing candidate has
      overlap of at least 5, worth 2.5 points on its own. */
  lemma PassingMatchPercentageAtLeast(dist: Distance, subject: Trip, c: Trip)
    requires Passes(dist, subject, c)
    ensures 2.5 <= BuildMatch(dist, subject, c).matchPercentage <= 100.0
  {
    var timeDiff := TimeDiffMinutes(subject.departureTime, c.departureTime);
    var overlap := OverlapPercent(dist, subject.routeCoordinates, c.routeCoordinates);
    var deviation := Deviation(dist, subject, c);
    var score := MatchScore(overlap, deviation, timeDiff);
    MatchPercentageMonotone(2.5, score);
    assert (2.5 * 100.0 + 0.5).Floor == 250;
  }

  /** The engine does not look at the candidate's owner: a candidate passes or
      fails independently of its userId, so the exclusion of the subject's own
      trips rests on the candidate query alone. */
  lemma OwnerNotRechecked(dist: Distance, subject: Trip, c: Trip)
    ensures Passes(dist, subject, c) <==> Passes(dist, subject, c.(userId := subject.userId))
  {
  }
}
