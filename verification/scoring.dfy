/**
  The linear match score (backend/src/utils/route.matching.js:70-75) and the
  rounding applied to emitted fields (lines 123-127).
 */
module Scoring {

  function Max(a: real, b: real): real
  {
    if a >= b then a else b
  }

  /** Bonus for a small deviation: tapers linearly to 0 at 15%. */
  function DeviationBonus(deviation: real): (b: real)
    ensures 0.0 <= b
    ensures deviation >= 15.0 ==> b == 0.0
    ensures deviation >= 0.0 ==> b <= 30.0
  {
    Max(0.0, 15.0 - deviation) * 2.0
  }

  /** Bonus for a close departure: tapers linearly to 0 at 30 minutes. */
  function TimeBonus(timeDiff: real): (b: real)
    ensures 0.0 <= b
    ensures timeDiff >= 30.0 ==> b == 0.0
    ensures timeDiff >= 0.0 ==> b <= 45.0
  {
    Max(0.0, 30.0 - timeDiff) * 1.5
  }

  /** The composite score: half the overlap plus the two tapering bonuses. It is
      never below the overlap share, and equals it once both bonuses are spent. */
  function MatchScore(overlapPercentage: real, routeDeviation: real, timeDiff: real): (score: real)
    ensures score >= overlapPercentage * 0.5
    ensures routeDeviation >= 15.0 && timeDiff >= 30.0 ==> score == overlapPercentage * 0.5
  {
    overlapPercentage * 0.5 + DeviationBonus(routeDeviation) + TimeBonus(timeDiff)
  }

  lemma ScoreNonIncreasingInDeviation(overlap: real, dev1: real, dev2: real, timeDiff: real)
    requires dev1 <= dev2
    ensures MatchScore(overlap, dev2, timeDiff) <= MatchScore(overlap, dev1, timeDiff)
  {
  }

  lemma ScoreNonIncreasingInTime(overlap: real, deviation: real, time1: real, time2: real)
    requires time1 <= time2
    ensures MatchScore(overlap, deviation, time2) <= MatchScore(overlap, deviation, time1)
  {
  }

  lemma ScoreNonDecreasingInOverlap(overlap1: real, overlap2: real, deviation: real, timeDiff: real)
    requires overlap1 <= overlap2
    ensures MatchScore(overlap1, deviation, timeDiff) <= MatchScore(overlap2, deviation, timeDiff)
  {
  }

  /** For inputs in their natural ranges the score lies between the overlap
      share and 50 + 30 + 45. */
  lemma ScoreRange(overlap: real, deviation: real, timeDiff: real)
    requires 0.0 <= overlap <= 100.0 && deviation >= 0.0 && timeDiff >= 0.0
    ensures 0.0 <= MatchScore(overlap, deviation, timeDiff) <= 125.0
  {
  }

  /** Math.round(x * 100) / 100: nearest multiple of 0.01, halves rounded up. */
  function Round2(x: real): (r: real)
    ensures x - 0.005 < r <= x + 0.005
  {
    (x * 100.0 + 0.5).Floor as real / 100.0
  }

  /** Math.round(x): nearest integer, halves rounded up. */
  function RoundToInt(x: real): (n: int)
    ensures x - 0.5 < n as real <= x + 0.5
  {
    (x + 0.5).Floor
  }

  lemma Round2Monotone(x: real, y: real)
    requires x <= y
    ensures Round2(x) <= Round2(y)
  {
    var a := (x * 100.0 + 0.5).Floor;
    var b := (y * 100.0 + 0.5).Floor;
    assert a as real <= y * 100.0 + 0.5;
    assert a <= b;
  }

  /** The displayed match percentage: the rounded score capped at 100. */
  function MatchPercentage(score: real): (p: real)
    ensures p <= 100.0
    ensures score >= 100.0 ==> p == 100.0
    ensures score < 99.995 ==> score - 0.005 < p <= score + 0.005
  {
    var rounded := Round2(score);
    if rounded <= 100.0 then rounded else 100.0
  }

  /** Rounding and capping keep the order of scores (weakly). */
  lemma MatchPercentageMonotone(score1: real, score2: real)
    requires score1 <= score2
    ensures MatchPercentage(score1) <= MatchPercentage(score2)
  {
    Round2Monotone(score1, score2);
  }
}
