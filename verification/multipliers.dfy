/** The four piecewise weights of the surrender index, over exact reals. */
module Multipliers {
  import opened Wrappers
  import opened Features

  /** `x` multiplied by itself `n` times. */
  function Pow(x: real, n: nat): real
  {
    if n == 0 then 1.0 else x * Pow(x, n - 1)
  }

  lemma {:induction false} PowAtLeastOne(x: real, n: nat)
    requires x >= 1.0
    ensures Pow(x, n) >= 1.0
  {
    if n > 0 {
      PowAtLeastOne(x, n - 1);
      assert x * Pow(x, n - 1) >= Pow(x, n - 1) by {
        assert (x - 1.0) * Pow(x, n - 1) >= 0.0;
      }
    }
  }

  /** Field-position weight: 1 up to the 40, then 10% more per yard up to
      midfield, then 20% more per yard beyond it. */
  function YardLineMultiplier(pos: int): (m: real)
    ensures m >= 1.0
    ensures pos <= 40 ==> m == 1.0
  {
    if pos <= 40 then 1.0
    else if pos <= 50 then
      PowAtLeastOne(1.1, pos - 40);
      Pow(1.1, pos - 40)
    else
      PowAtLeastOne(1.1, 10);
      PowAtLeastOne(1.2, pos - 50);
      ProductAtLeastOne(Pow(1.1, 10), Pow(1.2, pos - 50));
      Pow(1.1, 10) * Pow(1.2, pos - 50)
  }

  lemma ProductAtLeastOne(a: real, b: real)
    requires a >= 1.0 && b >= 1.0
    ensures a * b >= 1.0
  {
    assert a * b - 1.0 == (a - 1.0) * b + (b - 1.0);
    assert (a - 1.0) * b >= 0.0;
  }

  /** The weight computed the way the script does it: one multiplication per yard. */
  method YardLineMultiplierLoops(pos: int) returns (m: real)
    ensures m == YardLineMultiplier(pos)
  {
    m := 1.0;
    if pos <= 40 {
      return 1.0;
    } else if pos >= 41 && pos <= 50 {
      var i := 0;
      while i < pos - 40
        invariant 0 <= i <= pos - 40
        invariant m == Pow(1.1, i)
      {
        m := m * 1.1;
        i := i + 1;
      }
    } else if pos > 50 {
      var i := 0;
      while i < 10
        invariant 0 <= i <= 10
        invariant m == Pow(1.1, i)
      {
        m := m * 1.1;
        i := i + 1;
      }
      var j := 0;
      while j < pos - 50
        invariant 0 <= j <= pos - 50
        invariant m == Pow(1.1, 10) * Pow(1.2, j)
      {
        m := m * 1.2;
        j := j + 1;
      }
    }
  }

  /** Each yard past the 40 raises the weight by 10% up to midfield (where
      both rules meet at 1.1^10) and by 20% beyond it. */
  lemma YardLineStep(pos: int)
    ensures pos < 40 ==> YardLineMultiplier(pos + 1) == YardLineMultiplier(pos)
    ensures 40 <= pos < 50 ==> YardLineMultiplier(pos + 1) == YardLineMultiplier(pos) * 1.1
    ensures pos >= 50 ==> YardLineMultiplier(pos + 1) == YardLineMultiplier(pos) * 1.2
    ensures YardLineMultiplier(50) == Pow(1.1, 10) * Pow(1.2, 0)
  {
    if pos >= 50 {
      assert Pow(1.2, pos + 1 - 50) == 1.2 * Pow(1.2, pos - 50);
    }
  }

  /** Moving the ball forward never lowers the weight. */
  lemma {:induction false} YardLineMonotone(p: int, q: int)
    requires p <= q
    ensures YardLineMultiplier(p) <= YardLineMultiplier(q)
    decreases q - p
  {
    if p < q {
      YardLineMonotone(p, q - 1);
      YardLineStep(q - 1);
      var m := YardLineMultiplier(q - 1);
      assert m >= 1.0;
      assert m <= m * 1.1 && m <= m * 1.2;
    }
  }

  /** Distance-to-go weight: 1 for 1 yard or less, then 0.8, 0.6, 0.4 and 0.2
      for 2-3, 4-6, 7-9 and 10 or more yards. */
  function FirstDownDistanceMultiplier(distance: int): (m: real)
    ensures 0.2 <= m <= 1.0
    ensures distance <= 1 ==> m == 1.0
    ensures distance >= 10 ==> m == 0.2
  {
    if distance <= 1 then 1.0
    else if distance == 2 || distance == 3 then 0.8
    else if 4 <= distance <= 6 then 0.6
    else if 7 <= distance <= 9 then 0.4
    else 0.2
  }

  /** How many of the discount thresholds 2, 4, 7 and 10 yards `distance` reaches. */
  function DiscountSteps(distance: int): (k: nat)
    ensures k <= 4
  {
    (if distance >= 2 then 1 else 0) + (if distance >= 4 then 1 else 0) +
    (if distance >= 7 then 1 else 0) + (if distance >= 10 then 1 else 0)
  }

  /** Every threshold reached takes another 20% off the weight. */
  lemma FirstDownDistanceDiscount(distance: int)
    ensures FirstDownDistanceMultiplier(distance) == 1.0 - 0.2 * DiscountSteps(distance) as real
  {
  }

  /** A longer distance to go never raises the weight. */
  lemma FirstDownDistanceNonIncreasing(d: int, e: int)
    requires d <= e
    ensures FirstDownDistanceMultiplier(e) <= FirstDownDistanceMultiplier(d)
  {
    FirstDownDistanceDiscount(d);
    FirstDownDistanceDiscount(e);
  }

  /** Score weight: 1 when leading, 2 when tied, 4 when trailing by up to 8
      points, 3 when trailing by more. */
  function ScoreDifferentialMultiplier(diff: int): (m: int)
    ensures 1 <= m <= 4
    ensures m == 1 <==> diff > 0
    ensures m == 2 <==> diff == 0
  {
    if diff > 0 then 1
    else if diff == 0 then 2
    else if diff < -8 then 3
    else 4
  }

  /** The number of scores, of at most 8 points each (a touchdown and a
      two-point conversion), a team trailing by `-diff` points needs to catch up. */
  function ScoresBehind(diff: int): nat
  {
    if diff >= 0 then 0 else (-diff + 7) / 8
  }

  /** Trailing by one score weighs 4, by two or more weighs 3: -8 is one score, -9 is two. */
  lemma ScoreDifferentialByScoresBehind(diff: int)
    ensures ScoreDifferentialMultiplier(diff)
         == if diff > 0 then 1 else if diff == 0 then 2 else if ScoresBehind(diff) == 1 then 4 else 3
  {
    if diff < 0 {
      assert ScoresBehind(diff) >= 1;
      assert ScoresBehind(diff) == 1 <==> -8 <= diff;
    }
  }

  /** The clock weight for `t` seconds: (t / 1000)^3 + 1. */
  function ClockGrowth(t: int): (m: real)
    ensures t >= 0 ==> m >= 1.0
  {
    var x := (t as real) * 0.001;
    CubeNonNegative(x);
    x * x * x + 1.0
  }

  lemma CubeNonNegative(x: real)
    ensures x >= 0.0 ==> x * x * x >= 0.0
  {
    if x >= 0.0 {
      assert x * x >= 0.0;
    }
  }

  lemma ProductMonotone(a: real, b: real, c: real)
    requires 0.0 <= a <= b && c >= 0.0
    ensures a * c <= b * c
  {
    assert b * c - a * c == (b - a) * c;
  }

  lemma ProductStrict(a: real, b: real, c: real)
    requires 0.0 <= a < b && c > 0.0
    ensures a * c < b * c
  {
    assert b * c - a * c == (b - a) * c;
  }

  lemma CubeStrictlyIncreasing(x: real, y: real)
    requires 0.0 <= x < y
    ensures x * x * x < y * y * y
  {
    ProductMonotone(x, y, x);
    ProductStrict(x, y, y);
    assert y * x == x * y;
    calc {
      x * x;
      <= x * y;
      < y * y;
    }
    var xx := x * x;
    var yy := y * y;
    ProductMonotone(x, y, xx);
    ProductStrict(xx, yy, y);
    calc {
      x * x * x;
      == x * xx;
      <= y * xx;
      == xx * y;
      < yy * y;
      == y * y * y;
    }
  }

  /** More seconds, larger weight. */
  lemma ClockGrowthIncreasing(t1: int, t2: int)
    requires 0 <= t1 < t2
    ensures ClockGrowth(t1) < ClockGrowth(t2)
  {
    CubeStrictlyIncreasing((t1 as real) * 0.001, (t2 as real) * 0.001);
  }

  /** The seconds the clock weight is computed from: the clock reading in the
      third quarter, the reading plus 900 in the fourth. */
  function ClockSeconds(quarter: int, secondsOnClock: nat): int
  {
    if quarter == 4 then secondsOnClock + 15 * 60 else secondsOnClock
  }

  /** Clock weight: 1 outside the third and fourth quarters (overtime included),
      otherwise the growth curve of the clock reading; only then is the clock parsed. */
  function ClockMultiplier(quarter: int, clock: string): (r: Result<real>)
    ensures quarter != 3 && quarter != 4 ==> r == Ok(1.0)
    ensures quarter == 3 || quarter == 4 ==>
              (r.Ok? <==> Seconds(clock).Ok?) &&
              (r.Ok? ==> r.value == ClockGrowth(ClockSeconds(quarter, Seconds(clock).value)))
    ensures r.Ok? ==> r.value >= 1.0
  {
    if quarter == 3 then
      var t :- Seconds(clock);
      Ok(ClockGrowth(t))
    else if quarter == 4 then
      var t :- Seconds(clock);
      Ok(ClockGrowth(t + 15 * 60))
    else
      Ok(1.0)
  }

  /** The reading is time REMAINING in the quarter, so within the third or the
      fourth quarter a play with less time left gets a smaller weight. */
  lemma ClockWeightFallsAsQuarterRuns(quarter: int, earlier: string, later: string)
    requires quarter == 3 || quarter == 4
    requires Seconds(earlier).Ok? && Seconds(later).Ok?
    requires Seconds(later).value < Seconds(earlier).value
    ensures ClockMultiplier(quarter, later).value < ClockMultiplier(quarter, earlier).value
  {
    ClockGrowthIncreasing(ClockSeconds(quarter, Seconds(later).value),
                          ClockSeconds(quarter, Seconds(earlier).value));
  }

  /** Any fourth-quarter weight is at least any third-quarter weight read off
      a clock of at most 15 minutes. */
  lemma FourthQuarterOutweighsThird(third: string, fourth: string)
    requires Seconds(third).Ok? && Seconds(third).value <= 15 * 60
    requires Seconds(fourth).Ok?
    ensures ClockMultiplier(3, third).value <= ClockMultiplier(4, fourth).value
  {
    var t3 := Seconds(third).value;
    var t4 := Seconds(fourth).value + 15 * 60;
    if t3 < t4 {
      ClockGrowthIncreasing(t3, t4);
    }
  }
}
