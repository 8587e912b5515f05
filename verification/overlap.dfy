/**
  Segment-midpoint route overlap (backend/src/utils/route.matching.js:14-50).
  A reference definition by recursion over route 1's segments, the loop the
  source runs, and the properties the matching pipeline relies on.
 */
module RouteOverlap {
  import opened Geo

  /** Two segment midpoints closer than this (in km) count as overlapping. */
  const ProximityThresholdKm: real := 1.0

  /** Number of segments the source's loop visits: one fewer than the points,
      none for an empty route. */
  function SegmentCount(r: Route): nat
  {
    if |r| == 0 then 0 else |r| - 1
  }

  /** A segment all four of whose coordinates are truthy; any other segment is skipped. */
  predicate Usable(r: Route, i: nat)
    requires i < SegmentCount(r)
  {
    Present(r[i].0) && Present(r[i].1) && Present(r[i + 1].0) && Present(r[i + 1].1)
  }

  function SegmentLength(dist: Distance, r: Route, i: nat): real
    requires i < SegmentCount(r)
  {
    dist(r[i].0, r[i].1, r[i + 1].0, r[i + 1].1)
  }

  /** Segment j of route 2 is usable and its midpoint lies within the proximity
      threshold of the midpoint of segment i of route 1. */
  predicate Near(dist: Distance, r1: Route, i: nat, r2: Route, j: nat)
    requires i < SegmentCount(r1) && j < SegmentCount(r2)
  {
    && Usable(r2, j)
    && var m1 := Midpoint(r1[i], r1[i + 1]);
       var m2 := Midpoint(r2[j], r2[j + 1]);
       dist(m1.0, m1.1, m2.0, m2.1) <= ProximityThresholdKm
  }

  /** Segment i of route 1 runs close to route 2. */
  predicate Overlaps(dist: Distance, r1: Route, i: nat, r2: Route)
    requires i < SegmentCount(r1)
  {
    exists j: nat :: j < SegmentCount(r2) && Near(dist, r1, i, r2, j)
  }

  /** Summed length of the usable segments among the first k of route r. */
  function TotalLength(dist: Distance, r: Route, k: nat): (total: real)
    requires k <= SegmentCount(r)
    ensures total >= 0.0
  {
    if k == 0 then 0.0
    else TotalLength(dist, r, k - 1) + (if Usable(r, k - 1) then SegmentLength(dist, r, k - 1) else 0.0)
  }

  /** Summed length of the usable segments among the first k of route 1 that
      overlap route 2; never more than their total length. */
  function OverlapLength(dist: Distance, r1: Route, r2: Route, k: nat): (overlap: real)
    requires k <= SegmentCount(r1)
    ensures 0.0 <= overlap <= TotalLength(dist, r1, k)
  {
    if k == 0 then 0.0
    else
      OverlapLength(dist, r1, r2, k - 1)
      + (if Usable(r1, k - 1) && Overlaps(dist, r1, k - 1, r2) then SegmentLength(dist, r1, k - 1) else 0.0)
  }

  function Min(a: real, b: real): real
  {
    if a <= b then a else b
  }

  /** Percentage of route 1's usable length that runs close to route 2. */
  function OverlapPercent(dist: Distance, r1: Route, r2: Route): (p: real)
    ensures 0.0 <= p <= 100.0
    ensures TotalLength(dist, r1, SegmentCount(r1)) == 0.0 ==> p == 0.0
  {
    if |r1| == 0 || |r2| == 0 then 0.0
    else
      var total := TotalLength(dist, r1, SegmentCount(r1));
      var overlap := OverlapLength(dist, r1, r2, SegmentCount(r1));
      Min(if total > 0.0 then overlap / total * 100.0 else 0.0, 100.0)
  }

  /** The inner loop of the source: scans route 2 and stops at the first
      segment whose midpoint is near; the early exit does not change the answer. */
  method SegmentHasOverlap(dist: Distance, r1: Route, i: nat, r2: Route) returns (found: bool)
    requires i < SegmentCount(r1)
    ensures found <==> Overlaps(dist, r1, i, r2)
  {
    found := false;
    var j := 0;
    while j < |r2| - 1
      invariant j <= SegmentCount(r2)
      invariant forall j': nat :: j' < j ==> !Near(dist, r1, i, r2, j')
    {
      var (lat3, lng3) := r2[j];
      var (lat4, lng4) := r2[j + 1];
      if !Present(lat3) || !Present(lng3) || !Present(lat4) || !Present(lng4) {
        j := j + 1;
        continue;
      }
      var (lat1, lng1) := r1[i];
      var (lat2, lng2) := r1[i + 1];
      var distanceBetweenSegments := dist((lat1 + lat2) / 2.0, (lng1 + lng2) / 2.0, (lat3 + lat4) / 2.0, (lng3 + lng4) / 2.0);
      if distanceBetweenSegments <= ProximityThresholdKm {
        assert Near(dist, r1, i, r2, j);
        found := true;
        break;
      }
      j := j + 1;
    }
  }

  /** The source's calculateRouteOverlap: equal to the reference definition. */
  method CalculateRouteOverlap(dist: Distance, route1: Route, route2: Route) returns (percentage: real)
    ensures percentage == OverlapPercent(dist, route1, route2)
  {
    if |route1| == 0 || |route2| == 0 {
      return 0.0;
    }
    var totalOverlapDistance := 0.0;
    var totalRoute1Distance := 0.0;
    var i := 0;
    while i < |route1| - 1
      invariant i <= SegmentCount(route1)
      invariant totalRoute1Distance == TotalLength(dist, route1, i)
      invariant totalOverlapDistance == OverlapLength(dist, route1, route2, i)
      invariant 0.0 <= totalOverlapDistance <= totalRoute1Distance
    {
      var (lat1, lng1) := route1[i];
      var (lat2, lng2) := route1[i + 1];
      if !Present(lat1) || !Present(lng1) || !Present(lat2) || !Present(lng2) {
        i := i + 1;
        continue;
      }
      var segmentDistance := dist(lat1, lng1, lat2, lng2);
      totalRoute1Distance := totalRoute1Distance + segmentDistance;
      var segmentHasOverlap := SegmentHasOverlap(dist, route1, i, route2);
      if segmentHasOverlap {
        totalOverlapDistance := totalOverlapDistance + segmentDistance;
      }
      i := i + 1;
    }
    percentage := if totalRoute1Distance > 0.0 then totalOverlapDistance / totalRoute1Distance * 100.0 else 0.0;
    percentage := Min(percentage, 100.0);
  }

  /** The cap at 100 never binds: the overlap ratio is at most 100 on its own. */
  lemma UncappedRatioAtMost100(dist: Distance, r1: Route, r2: Route)
    requires |r1| > 0 && |r2| > 0
    requires TotalLength(dist, r1, SegmentCount(r1)) > 0.0
    ensures OverlapLength(dist, r1, r2, SegmentCount(r1)) / TotalLength(dist, r1, SegmentCount(r1)) * 100.0 <= 100.0
    ensures OverlapPercent(dist, r1, r2)
         == OverlapLength(dist, r1, r2, SegmentCount(r1)) / TotalLength(dist, r1, SegmentCount(r1)) * 100.0
  {
    var total := TotalLength(dist, r1, SegmentCount(r1));
    var overlap := OverlapLength(dist, r1, r2, SegmentCount(r1));
    RatioAtMostOne(overlap, total);
  }

  /** 0 <= a <= b with b > 0 gives a / b in [0, 1], and exactly 1 when a == b. */
  lemma RatioAtMostOne(a: real, b: real)
    requires 0.0 <= a <= b && b > 0.0
    ensures 0.0 <= a / b <= 1.0
    ensures a == b ==> a / b == 1.0
  {
    assert a / b * b == a;
  }

  /** When route 2 has no usable segment, no prefix of route 1 overlaps it. */
  lemma {:induction false} NoUsableSegmentNoOverlapLength(dist: Distance, r1: Route, r2: Route, k: nat)
    requires k <= SegmentCount(r1)
    requires forall j: nat :: j < SegmentCount(r2) ==> !Usable(r2, j)
    ensures OverlapLength(dist, r1, r2, k) == 0.0
  {
    if k > 0 {
      NoUsableSegmentNoOverlapLength(dist, r1, r2, k - 1);
    }
  }

  /** A route-2 segment with a zero coordinate never makes a route-1 segment
      overlap: a route 2 made only of such segments yields 0. */
  lemma ZeroCoordinateRoute2NoOverlap(dist: Distance, r1: Route, r2: Route)
    requires forall j: nat :: j < SegmentCount(r2) ==> !Usable(r2, j)
    ensures OverlapPercent(dist, r1, r2) == 0.0
  {
    NoUsableSegmentNoOverlapLength(dist, r1, r2, SegmentCount(r1));
  }

  /** With no usable segment in route 1 the accumulated length stays 0. */
  lemma {:induction false} NoUsableSegmentNoLength(dist: Distance, r: Route, k: nat)
    requires k <= SegmentCount(r)
    requires forall i: nat :: i < SegmentCount(r) ==> !Usable(r, i)
    ensures TotalLength(dist, r, k) == 0.0
  {
    if k > 0 {
      NoUsableSegmentNoLength(dist, r, k - 1);
    }
  }

  /** A route-1 segment with a zero coordinate adds to neither total: a route 1
      made only of such segments yields 0 whatever route 2 is. */
  lemma ZeroCoordinateRoute1NoOverlap(dist: Distance, r1: Route, r2: Route)
    requires forall i: nat :: i < SegmentCount(r1) ==> !Usable(r1, i)
    ensures OverlapPercent(dist, r1, r2) == 0.0
  {
    NoUsableSegmentNoLength(dist, r1, SegmentCount(r1));
  }

  /** Routes with fewer than two points have no segment, so their overlap is 0. */
  lemma ShortRouteNoOverlap(dist: Distance, r1: Route, r2: Route)
    requires |r1| < 2 || |r2| < 2
    ensures OverlapPercent(dist, r1, r2) == 0.0
  {
    if |r2| < 2 {
      ZeroCoordinateRoute2NoOverlap(dist, r1, r2);
    }
  }

  /** Against itself, every usable segment is near its own midpoint. */
  lemma {:induction false} SelfOverlapLength(dist: Distance, r: Route, k: nat)
    requires k <= SegmentCount(r)
    ensures OverlapLength(dist, r, r, k) == TotalLength(dist, r, k)
  {
    if k > 0 {
      SelfOverlapLength(dist, r, k - 1);
      if Usable(r, k - 1) {
        var m := Midpoint(r[k - 1], r[k]);
        assert dist(m.0, m.1, m.0, m.1) == 0.0;
        assert Near(dist, r, k - 1, r, k - 1);
      }
    }
  }

  /** Self-overlap: a route of positive usable length overlaps itself 100%. */
  lemma SelfOverlapIsFull(dist: Distance, r: Route)
    requires TotalLength(dist, r, SegmentCount(r)) > 0.0
    ensures OverlapPercent(dist, r, r) == 100.0
  {
    var n := SegmentCount(r);
    SelfOverlapLength(dist, r, n);
    var total := TotalLength(dist, r, n);
    var overlap := OverlapLength(dist, r, r, n);
    assert n != 0;
    assert overlap == total;
    RatioAtMostOne(overlap, total);
  }
}
