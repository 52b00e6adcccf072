/**
 `estimate_rank` of app.py: a linear map from a roster's points to its
 approximate place among all rosters that respect the cap.
 */
module RankEstimate {
  import opened Results

  /** Fewest points of any roster within the cap. */
  const MinPoints: real := 25.0
  /** Most points of any roster within the cap. */
  const MaxPoints: real := 1749.0
  /** Number of rosters within the cap. */
  const TotalCombinations: int := 297307

  /** Python raises `ZeroDivisionError` when the points range is empty. */
  datatype RankError = ZeroPointsRange

  /** Python's `int()` on a float: rounds toward zero, not down. */
  function Trunc(x: real): (r: int)
    ensures x >= 0.0 ==> 0 <= r && r as real <= x < r as real + 1.0
    ensures x < 0.0 ==> r <= 0 && r as real - 1.0 < x <= r as real
  {
    if x >= 0.0 then x.Floor else -((-x).Floor)
  }

  /**
   The estimated 1-based rank of a roster scoring `points`: the share of the
   points range that lies above it, scaled to the number of rosters, truncated,
   plus one.
   */
  function EstimateRank(points: real, minPoints: real, maxPoints: real, total: int): (r: Result<int, RankError>)
    ensures r.Failure? <==> maxPoints == minPoints
  {
    var range := maxPoints - minPoints;
    if range == 0.0 then Failure(ZeroPointsRange)
    else Success(Trunc(Share(points, minPoints, maxPoints, total)) + 1)
  }

  /** How many rosters the linear model places above `points`, before truncation. */
  function Share(points: real, minPoints: real, maxPoints: real, total: int): real
    requires maxPoints != minPoints
  {
    (maxPoints - points) / (maxPoints - minPoints) * total as real
  }

  /** The best observed score is rank 1. */
  lemma RankAtMaximum()
    ensures EstimateRank(MaxPoints, MinPoints, MaxPoints, TotalCombinations) == Success(1)
  {
    assert (MaxPoints - MaxPoints) / (MaxPoints - MinPoints) * TotalCombinations as real == 0.0;
  }

  /** The worst observed score lands one past the number of rosters. */
  lemma RankAtMinimum()
    ensures EstimateRank(MinPoints, MinPoints, MaxPoints, TotalCombinations) == Success(TotalCombinations + 1)
  {
    assert (MaxPoints - MinPoints) / (MaxPoints - MinPoints) == 1.0;
  }

  /** Rounding toward zero keeps order. */
  lemma TruncMonotone(x: real, y: real)
    requires x <= y
    ensures Trunc(x) <= Trunc(y)
  {
    if x < 0.0 && y >= 0.0 {
    } else if x >= 0.0 {
      assert x.Floor <= y.Floor;
    } else {
      assert (-y).Floor <= (-x).Floor;
    }
  }

  /** Dividing by a positive number and scaling by a non-negative one keeps order. */
  lemma ScaleMonotone(a: real, b: real, range: real, total: real)
    requires a <= b && range > 0.0 && total >= 0.0
    ensures a / range * total <= b / range * total
  {
    var qa := a / range;
    var qb := b / range;
    assert qa * range == a && qb * range == b;
    assert (qb - qa) * range == b - a;
    assert qa <= qb;
    assert (qb - qa) * total >= 0.0;
  }

  /** More points never give a larger rank number. */
  lemma EstimateRankMonotone(p1: real, p2: real, minPoints: real, maxPoints: real, total: int)
    requires minPoints < maxPoints && total >= 0 && p1 <= p2
    ensures EstimateRank(p2, minPoints, maxPoints, total).value <= EstimateRank(p1, minPoints, maxPoints, total).value
  {
    ShareMonotone(p1, p2, minPoints, maxPoints, total);
    TruncMonotone(Share(p2, minPoints, maxPoints, total), Share(p1, minPoints, maxPoints, total));
  }

  /** The share above a score shrinks as the score grows. */
  lemma ShareMonotone(p1: real, p2: real, minPoints: real, maxPoints: real, total: int)
    requires minPoints < maxPoints && total >= 0 && p1 <= p2
    ensures Share(p2, minPoints, maxPoints, total) <= Share(p1, minPoints, maxPoints, total)
  {
    ScaleMonotone(maxPoints - p2, maxPoints - p1, maxPoints - minPoints, total as real);
  }

  /** Scores inside the observed range get a rank between 1 and one past the total. */
  lemma EstimateRankBounds(points: real, minPoints: real, maxPoints: real, total: int)
    requires minPoints < maxPoints && total >= 0 && minPoints <= points <= maxPoints
    ensures 1 <= EstimateRank(points, minPoints, maxPoints, total).value <= total + 1
  {
    var range := maxPoints - minPoints;
    var q := (maxPoints - points) / range;
    assert q * range == maxPoints - points;
    assert 0.0 <= q <= 1.0;
    assert (1.0 - q) * total as real >= 0.0;
    var x := q * total as real;
    assert 0.0 <= x <= total as real;
    assert x == Share(points, minPoints, maxPoints, total);
    assert Trunc(x) as real <= x;
  }

  /**
   Above the best observed score the result rounds toward zero: 1750 points
   give -171, where rounding down would give -172.
   */
  lemma RankAboveMaximumTruncates()
    ensures EstimateRank(1750.0, MinPoints, MaxPoints, TotalCombinations) == Success(-171)
    ensures ((MaxPoints - 1750.0) / (MaxPoints - MinPoints) * TotalCombinations as real).Floor + 1 == -172
  {
    var x := (MaxPoints - 1750.0) / (MaxPoints - MinPoints) * TotalCombinations as real;
    assert x == -297307.0 / 1724.0;
    assert -173.0 < x < -172.0;
  }
}
