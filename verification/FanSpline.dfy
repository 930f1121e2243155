/**
 The monotone spline table behind a fan curve: secants, the in-place Fritsch-Carlson limiter,
 the 41-cell sampling and the quantisation to EC fan levels. Exact reals stand for floats.
 */
module FanSpline {
  import opened FanSplineMath

  datatype Point = Point(temp: real, speed: real)

  const MIN_TEMP: real := 30.0
  const MAX_TEMP: real := 70.0
  const TABLE_SIZE: nat := 41
  const MAX_POINTS: nat := 10
  const MIN_POINTS: nat := 2
  const FULL_SPEED: nat := 8
  const MIN_WIDTH: real := 0.0001
  const FLAT: real := 0.00001

  function Clamp(x: real, lo: real, hi: real): real {
    if x < lo then lo else if x > hi then hi else x
  }

  function Abs(x: real): real {
    if x < 0.0 then -x else x
  }

  // ------------------------------------------------------------------ slopes

  function Width(points: seq<Point>, i: nat): (h: real)
    requires i + 1 < |points|
    ensures h > 0.0
  {
    var h := points[i + 1].temp - points[i].temp;
    if h <= MIN_WIDTH then MIN_WIDTH else h
  }

  function Secant(points: seq<Point>, i: nat): real
    requires i + 1 < |points|
  {
    (points[i + 1].speed - points[i].speed) / Width(points, i)
  }

  function Widths(points: seq<Point>): seq<real>
    requires |points| >= 1
  {
    seq(|points| - 1, i requires 0 <= i < |points| - 1 => Width(points, i))
  }

  function Secants(points: seq<Point>): seq<real>
    requires |points| >= 1
  {
    seq(|points| - 1, i requires 0 <= i < |points| - 1 => Secant(points, i))
  }

  /** One-sided secants at the ends, the mean of the two neighbours inside. */
  function InitialSlope(delta: seq<real>, i: nat): real
    requires |delta| >= 1 && i <= |delta|
  {
    if i == 0 then delta[0]
    else if i == |delta| then delta[|delta| - 1]
    else 0.5 * (delta[i - 1] + delta[i])
  }

  function InitialSlopes(delta: seq<real>): seq<real>
    requires |delta| >= 1
  {
    seq(|delta| + 1, i requires 0 <= i <= |delta| => InitialSlope(delta, i))
  }

  /** The rescaling factor 3/sqrt(hyp), or anything at most as large: only these bounds are used. */
  ghost predicate LimiterScale(tau: real -> real) {
    forall hyp: real :: hyp > 9.0 ==> 0.0 < tau(hyp) <= 1.0 && tau(hyp) * tau(hyp) * hyp <= 9.0
  }

  /** The exact factor 3/sqrt(hyp): the positive root of t*t*hyp == 9. */
  ghost predicate ExactScale(tau: real -> real) {
    forall hyp: real :: hyp > 9.0 ==> tau(hyp) > 0.0 && tau(hyp) * tau(hyp) * hyp == 9.0
  }

  /** The exact factor meets the bounds. */
  lemma ExactScaleQualifies(tau: real -> real)
    requires ExactScale(tau)
    ensures LimiterScale(tau)
  {
  }

  /** The squared length of the pair of slope ratios. */
  function Hyp(d: real, a: real, b: real): real
    requires d != 0.0
  {
    (a / d) * (a / d) + (b / d) * (b / d)
  }

  /** One iteration of the limiter on an interval of secant d with end slopes a and b. */
  function LimitStep(d: real, a: real, b: real, tau: real -> real): (real, real) {
    if Abs(d) < FLAT then (0.0, 0.0)
    else
      var alpha, beta, hyp := a / d, b / d, Hyp(d, a, b);
      if hyp > 9.0 then (tau(hyp) * alpha * d, tau(hyp) * beta * d)
      else (if alpha < 0.0 then 0.0 else a, if beta < 0.0 then 0.0 else b)
  }

  /** The slopes after a step has visited the first k intervals, left to right and in place. */
  function LimitPass(delta: seq<real>, m: seq<real>, step: (real, real, real) -> (real, real), k: nat): (r: seq<real>)
    requires k <= |delta| && |m| == |delta| + 1
    ensures |r| == |m|
  {
    if k == 0 then m
    else
      var p := LimitPass(delta, m, step, k - 1);
      var (x, y) := step(delta[k - 1], p[k - 1], p[k]);
      p[k - 1 := x][k := y]
  }

  function Limiter(tau: real -> real): (real, real, real) -> (real, real) {
    (d, a, b) => LimitStep(d, a, b, tau)
  }

  function Slopes(points: seq<Point>, tau: real -> real): (m: seq<real>)
    requires |points| >= 2
    ensures |m| == |points|
  {
    var delta := Secants(points);
    LimitPass(delta, InitialSlopes(delta), Limiter(tau), |delta|)
  }

  /** What the limiter is for: both slopes flat on a flat interval, inside the disc otherwise. */
  ghost predicate Limited(d: real, a: real, b: real) {
    && a >= 0.0 && b >= 0.0
    && (Abs(d) < FLAT ==> a == 0.0 && b == 0.0)
    && (Abs(d) >= FLAT ==> Hyp(d, a, b) <= 9.0)
  }

  lemma LimitStepLimits(d: real, a: real, b: real, tau: real -> real)
    requires LimiterScale(tau) && d >= 0.0 && a >= 0.0 && b >= 0.0
    ensures var (x, y) := LimitStep(d, a, b, tau);
            Limited(d, x, y) && 0.0 <= x && x <= a && 0.0 <= y && y <= b
  {
    if Abs(d) >= FLAT && Hyp(d, a, b) > 9.0 {
      var alpha, beta, t := a / d, b / d, tau(Hyp(d, a, b));
      ScaledStep(d, a, b, alpha, beta, t, tau);
      ScaledSlope(d, a, alpha, t);
      ScaledSlope(d, b, beta, t);
      ScaledDisc(alpha, beta, t);
    } else if Abs(d) >= FLAT {
      assert a / d >= 0.0 && b / d >= 0.0;
    }
  }

  /** Rescaling a slope by t in (0, 1] rescales its ratio and shrinks it. */
  lemma ScaledSlope(d: real, a: real, alpha: real, t: real)
    requires d > 0.0 && a >= 0.0 && alpha == a / d && 0.0 < t <= 1.0
    ensures t * alpha * d / d == t * alpha && 0.0 <= t * alpha * d <= a
  {
    assert alpha * d == a;
    assert t * alpha * d == t * a;
  }

  lemma ScaledDisc(alpha: real, beta: real, t: real)
    ensures (t * alpha) * (t * alpha) + (t * beta) * (t * beta) == t * t * (alpha * alpha + beta * beta)
  {
  }

  lemma ScaledStep(d: real, a: real, b: real, alpha: real, beta: real, t: real, tau: real -> real)
    requires Abs(d) >= FLAT && Hyp(d, a, b) > 9.0 && alpha == a / d && beta == b / d && t == tau(Hyp(d, a, b))
    ensures LimitStep(d, a, b, tau).0 == t * alpha * d && LimitStep(d, a, b, tau).1 == t * beta * d
  {
  }

  /** Shrinking the right slope of a limited interval keeps it limited. */
  lemma LimitedShrinksRight(d: real, a: real, b: real, b': real)
    requires d >= 0.0 && Limited(d, a, b) && 0.0 <= b' <= b
    ensures Limited(d, a, b')
  {
    if d >= FLAT {
      var beta, beta' := b / d, b' / d;
      assert 0.0 <= beta' <= beta by { assert beta - beta' == (b - b') / d; }
      MulMonotone(beta', beta', beta);
      MulMonotone(beta, beta', beta);
    }
  }

  /** A step that never raises a slope, and an interval property that survives shrinking the right slope. */
  ghost predicate Shrinking(step: (real, real, real) -> (real, real), ok: (real, real, real) -> bool) {
    && (forall d: real, a: real, b: real :: d >= 0.0 && a >= 0.0 && b >= 0.0 ==>
        var (x, y) := step(d, a, b); 0.0 <= x && x <= a && 0.0 <= y && y <= b && ok(d, x, y))
    && (forall d: real, a: real, b: real, c: real {:trigger ok(d, a, b), ok(d, a, c)} ::
        d >= 0.0 && ok(d, a, b) && 0.0 <= c && c <= b ==> ok(d, a, c))
  }

  /**
   One left-to-right pass of a shrinking step establishes the property on every interval it has
   visited, although each step also overwrites the right slope of the interval before it.
   */
  lemma {:induction false} OnePassSuffices(delta: seq<real>, m: seq<real>,
      step: (real, real, real) -> (real, real), ok: (real, real, real) -> bool, k: nat)
    requires Shrinking(step, ok) && k <= |delta| && |m| == |delta| + 1
    requires forall i :: 0 <= i < |delta| ==> delta[i] >= 0.0
    requires forall i :: 0 <= i < |m| ==> m[i] >= 0.0
    ensures forall i :: 0 <= i < |m| ==>
        0.0 <= LimitPass(delta, m, step, k)[i] && LimitPass(delta, m, step, k)[i] <= m[i]
    ensures forall i :: 0 <= i < k ==>
        ok(delta[i], LimitPass(delta, m, step, k)[i], LimitPass(delta, m, step, k)[i + 1])
  {
    if k > 0 {
      OnePassSuffices(delta, m, step, ok, k - 1);
      var p, r := LimitPass(delta, m, step, k - 1), LimitPass(delta, m, step, k);
      var (x, y) := step(delta[k - 1], p[k - 1], p[k]);
      assert r == p[k - 1 := x][k := y];
      forall i | 0 <= i < k ensures ok(delta[i], r[i], r[i + 1]) {
        assert i < k - 1 ==> ok(delta[i], p[i], p[i + 1]);
      }
    }
  }

  ghost function LimitedProperty(): (real, real, real) -> bool {
    (d, a, b) => Limited(d, a, b)
  }

  lemma LimiterShrinks(tau: real -> real)
    requires LimiterScale(tau)
    ensures Shrinking(Limiter(tau), LimitedProperty())
  {
    var step, ok := Limiter(tau), LimitedProperty();
    forall d: real, a: real, b: real | d >= 0.0 && a >= 0.0 && b >= 0.0
      ensures var (x, y) := step(d, a, b); 0.0 <= x && x <= a && 0.0 <= y && y <= b && ok(d, x, y)
    {
      LimitStepLimits(d, a, b, tau);
    }
    forall d: real, a: real, b: real, c: real | d >= 0.0 && ok(d, a, b) && 0.0 <= c && c <= b
      ensures ok(d, a, c)
    {
      LimitedShrinksRight(d, a, b, c);
    }
  }

  /**
   For a secant of either sign: the step leaves slopes that do not oppose the secant exactly when
   neither slope opposed it before or the pair was inside the disc. Otherwise the rescaling
   brings back the opposing slope that had just been cleared.
   */
  lemma LimitStepKeepsDirection(d: real, a: real, b: real, tau: real -> real)
    requires LimiterScale(tau) && Abs(d) >= FLAT
    ensures var (x, y) := LimitStep(d, a, b, tau);
            var alpha, beta := a / d, b / d;
            (x / d >= 0.0 && y / d >= 0.0) <==> ((alpha >= 0.0 && beta >= 0.0) || Hyp(d, a, b) <= 9.0)
  {
  }

  // ------------------------------------------------------------------ sampling

  /** The last interval whose left control point is at or below the temperature, else the first. */
  function Segment(points: seq<Point>, n: nat, temp: real): (s: nat)
    requires n < |points|
    ensures s < n || s == 0
  {
    if n == 0 then 0 else if temp >= points[n - 1].temp then n - 1 else Segment(points, n - 1, temp)
  }

  function CellTemp(t: nat): real {
    MIN_TEMP + t as real
  }

  /** Where a temperature falls inside an interval, as a fraction. */
  function Fraction(points: seq<Point>, s: nat, temp: real): (u: real)
    requires s + 1 < |points|
    ensures 0.0 <= u <= 1.0
  {
    Clamp((temp - points[s].temp) / Width(points, s), 0.0, 1.0)
  }

  function SegmentValue(points: seq<Point>, m: seq<real>, s: nat, u: real): real
    requires s + 1 < |points| == |m|
  {
    var h := Width(points, s);
    Hermite(points[s].speed, points[s + 1].speed, h * m[s], h * m[s + 1], u)
  }

  function Cell(points: seq<Point>, m: seq<real>, t: nat): real
    requires 2 <= |points| == |m|
  {
    var s := Segment(points, |points| - 1, CellTemp(t));
    Clamp(SegmentValue(points, m, s, Fraction(points, s, CellTemp(t))), 0.0, 100.0)
  }

  /** The percent table; the last cell is the ceiling whatever the curve says. */
  function TablePct(points: seq<Point>, tau: real -> real, t: nat): real
    requires |points| >= 2
  {
    if t == TABLE_SIZE - 1 then 100.0 else Cell(points, Slopes(points, tau), t)
  }

  function LevelOf(pct: real, allowFanStop: bool): nat {
    if pct <= 0.0 then (if allowFanStop then 0 else 1)
    else if pct >= 90.0 then FULL_SPEED
    else if pct < 15.0 then 1
    else if pct < 30.0 then 2
    else if pct < 45.0 then 3
    else if pct < 60.0 then 4
    else if pct < 75.0 then 5
    else 6
  }

  function TableLevel(points: seq<Point>, tau: real -> real, allowFanStop: bool, t: nat): nat
    requires |points| >= 2
  {
    if t == TABLE_SIZE - 1 then FULL_SPEED else LevelOf(TablePct(points, tau, t), allowFanStop)
  }

  function PctTable(points: seq<Point>, tau: real -> real): seq<real>
    requires |points| >= 2
  {
    seq(TABLE_SIZE, t requires 0 <= t < TABLE_SIZE => TablePct(points, tau, t))
  }

  function LevelTable(points: seq<Point>, tau: real -> real, allowFanStop: bool): seq<nat>
    requires |points| >= 2
  {
    seq(TABLE_SIZE, t requires 0 <= t < TABLE_SIZE => TableLevel(points, tau, allowFanStop, t))
  }

  // ------------------------------------------------------------------ a falling then rising curve

  const DIPPING: seq<Point> := [Point(30.0, 100.0), Point(34.0, 16.0), Point(70.0, 100.0)]

  lemma DippingSecants()
    ensures |Secants(DIPPING)| == 2 && Secants(DIPPING)[0] == -21.0 && Secants(DIPPING)[1] == 7.0 / 3.0
    ensures InitialSlopes(Secants(DIPPING)) == [-21.0, -28.0 / 3.0, 7.0 / 3.0]
  {
    assert Width(DIPPING, 0) == 4.0 && Width(DIPPING, 1) == 36.0;
  }

  /** The second iteration clears the falling slope and then brings it back with the ratio it kept. */
  lemma DippingSlopes(tau: real -> real)
    requires ExactScale(tau)
    ensures var m := Slopes(DIPPING, tau); m[1] < -6.0 && m[2] > 0.0
  {
    var delta, start := Secants(DIPPING), InitialSlopes(Secants(DIPPING));
    DippingSecants();
    assert LimitPass(delta, start, Limiter(tau), 0) == start;
    assert Hyp(-21.0, -21.0, -28.0 / 3.0) <= 9.0;
    assert LimitPass(delta, start, Limiter(tau), 1) == start;
    var d, t := 7.0 / 3.0, tau(17.0);
    assert Hyp(d, -28.0 / 3.0, d) == 17.0;
    assert t > 0.7 by { ScaleOf17(t); }
    ScaledStep(d, -28.0 / 3.0, d, -4.0, 1.0, t, tau);
  }

  lemma ScaleOf17(t: real)
    requires t > 0.0 && t * t * 17.0 == 9.0
    ensures t > 0.7
  {
    if t <= 0.7 {
      MulMonotone(t, t, 0.7);
    }
  }

  lemma DippingCells(m: seq<real>)
    requires |m| == 3 && m[1] < -6.0 && m[2] > 0.0
    ensures Cell(DIPPING, m, 4) == 16.0 && Cell(DIPPING, m, 5) < 15.0
  {
    assert Segment(DIPPING, 2, 34.0) == 1 && Segment(DIPPING, 2, 35.0) == 1;
    assert Fraction(DIPPING, 1, 34.0) == 0.0 && Fraction(DIPPING, 1, 35.0) == 1.0 / 36.0;
    DippingValue(m[1], m[2]);
  }

  lemma DippingValue(m1: real, m2: real)
    requires m1 < -6.0 && m2 > 0.0
    ensures Hermite(16.0, 100.0, 36.0 * m1, 36.0 * m2, 1.0 / 36.0) < 15.0
  {
    var u := 1.0 / 36.0;
    var c2, c3 := 252.0 - 72.0 * m1 - 36.0 * m2, -168.0 + 36.0 * m1 + 36.0 * m2;
    assert u * (36.0 * m1 + u * (c2 + u * c3)) == m1 + c2 / 1296.0 + c3 / 46656.0;
  }

  /**
   Inside the interval that rises from 16 percent at 34 degrees to 100 percent at 70 the table falls
   below both control speeds, and the fan slows from 34 to 35 degrees.
   */
  lemma StaleRatioSlowsFan(tau: real -> real, allowFanStop: bool)
    requires ExactScale(tau)
    ensures TablePct(DIPPING, tau, 4) == DIPPING[1].speed && TablePct(DIPPING, tau, 5) < DIPPING[1].speed
    ensures TableLevel(DIPPING, tau, allowFanStop, 5) < TableLevel(DIPPING, tau, allowFanStop, 4)
  {
    DippingSlopes(tau);
    DippingCells(Slopes(DIPPING, tau));
  }

  // ------------------------------------------------------------------ monotonicity

  ghost predicate SpeedsRise(points: seq<Point>) {
    forall i :: 0 < i < |points| ==> points[i - 1].speed <= points[i].speed
  }

  lemma SpeedsRiseTransitive(points: seq<Point>, i: nat, j: nat)
    requires SpeedsRise(points) && i <= j < |points|
    ensures points[i].speed <= points[j].speed
    decreases j - i
  {
    if i < j { SpeedsRiseTransitive(points, i, j - 1); }
  }

  lemma SlopesLimited(points: seq<Point>, tau: real -> real, s: nat)
    requires LimiterScale(tau) && SpeedsRise(points) && s + 1 < |points|
    ensures Secant(points, s) >= 0.0
    ensures var m := Slopes(points, tau); Limited(Secant(points, s), m[s], m[s + 1])
  {
    var delta := Secants(points);
    forall i | 0 <= i < |delta| ensures delta[i] >= 0.0 {
      assert points[i].speed <= points[i + 1].speed;
    }
    LimiterShrinks(tau);
    OnePassSuffices(delta, InitialSlopes(delta), Limiter(tau), LimitedProperty(), |delta|);
  }

  /** A limited interval is monotone in the fraction and hits both control speeds. */
  lemma SegmentValueMonotone(points: seq<Point>, m: seq<real>, s: nat, u: real, v: real)
    requires s + 1 < |points| == |m|
    requires Secant(points, s) >= 0.0 && Limited(Secant(points, s), m[s], m[s + 1])
    requires 0.0 <= u && u <= v && v <= 1.0
    ensures points[s].speed <= SegmentValue(points, m, s, u) <= SegmentValue(points, m, s, v) <= points[s + 1].speed
  {
    LimitedChain(points[s].speed, points[s + 1].speed, Width(points, s), Secant(points, s), m[s], m[s + 1],
                 Width(points, s) * m[s], Width(points, s) * m[s + 1], u, v);
  }

  lemma LimitedChain(y0: real, y1: real, h: real, d: real, a: real, b: real, g0: real, g1: real, u: real, v: real)
    requires h > 0.0 && d >= 0.0 && d == (y1 - y0) / h && Limited(d, a, b) && g0 == h * a && g1 == h * b
    requires 0.0 <= u && u <= v && v <= 1.0
    ensures y0 <= Hermite(y0, y1, g0, g1, u)
    ensures Hermite(y0, y1, g0, g1, u) <= Hermite(y0, y1, g0, g1, v)
    ensures Hermite(y0, y1, g0, g1, v) <= y1
  {
    var alpha, beta := if d >= FLAT then a / d else 0.0, if d >= FLAT then b / d else 0.0;
    assert 0.0 <= y1 - y0 == h * d by { MulNonNegative(h, d); }
    RatioOfSlope(h, d, a, alpha);
    RatioOfSlope(h, d, b, beta);
    RatiosInDisc(d, a, b, alpha, beta);
    SegmentChain(y0, y1, g0, g1, alpha, beta, u, v);
  }

  lemma RatiosInDisc(d: real, a: real, b: real, alpha: real, beta: real)
    requires d >= 0.0 && Limited(d, a, b)
    requires alpha == (if d >= FLAT then a / d else 0.0) && beta == (if d >= FLAT then b / d else 0.0)
    ensures alpha >= 0.0 && beta >= 0.0 && alpha * alpha + beta * beta <= 9.0
  {
  }

  lemma RatioOfSlope(h: real, d: real, a: real, alpha: real)
    requires if d >= FLAT then alpha == a / d else a == 0.0 && alpha == 0.0
    ensures alpha * (h * d) == h * a
  {
  }

  lemma {:induction false} SegmentAdvances(points: seq<Point>, n: nat, t1: real, t2: real)
    requires n < |points| && t1 <= t2
    ensures Segment(points, n, t1) <= Segment(points, n, t2)
  {
    if n > 0 && t2 < points[n - 1].temp { SegmentAdvances(points, n - 1, t1, t2); }
  }

  lemma FractionAdvances(points: seq<Point>, s: nat, t1: real, t2: real)
    requires s + 1 < |points| && t1 <= t2
    ensures Fraction(points, s, t1) <= Fraction(points, s, t2)
  {
  }

  /** Non-decreasing control speeds give a non-decreasing 41-cell percent table. */
  lemma PctTableMonotone(points: seq<Point>, tau: real -> real, t1: nat, t2: nat)
    requires LimiterScale(tau) && SpeedsRise(points) && |points| >= 2
    requires t1 <= t2 < TABLE_SIZE
    ensures TablePct(points, tau, t1) <= TablePct(points, tau, t2)
  {
    if t2 < TABLE_SIZE - 1 {
      var m, n, x1, x2 := Slopes(points, tau), |points| - 1, CellTemp(t1), CellTemp(t2);
      var s1, s2 := Segment(points, n, x1), Segment(points, n, x2);
      var u1, u2 := Fraction(points, s1, x1), Fraction(points, s2, x2);
      SegmentAdvances(points, n, x1, x2);
      SlopesLimited(points, tau, s1);
      SlopesLimited(points, tau, s2);
      if s1 == s2 {
        FractionAdvances(points, s1, x1, x2);
        SegmentValueMonotone(points, m, s1, u1, u2);
      } else {
        SegmentValueMonotone(points, m, s1, u1, u1);
        SegmentValueMonotone(points, m, s2, u2, u2);
        SpeedsRiseTransitive(points, s1 + 1, s2);
      }
    }
  }

  ghost predicate TempsSorted(points: seq<Point>) {
    forall i, j :: 0 <= i < j < |points| ==> points[i].temp <= points[j].temp
  }

  /** On sorted temperatures that span the range, the chosen interval brackets the cell. */
  lemma {:induction false} SegmentBrackets(points: seq<Point>, n: nat, temp: real)
    requires 0 < n < |points| && TempsSorted(points) && points[0].temp <= temp <= points[n].temp
    ensures var s := Segment(points, n, temp); points[s].temp <= temp <= points[s + 1].temp
  {
    if temp < points[n - 1].temp { SegmentBrackets(points, n - 1, temp); }
  }

  /** Every sampled cell lies between the two control speeds that bracket its temperature. */
  lemma CellBetweenNeighbours(points: seq<Point>, tau: real -> real, t: nat)
    requires LimiterScale(tau) && SpeedsRise(points) && TempsSorted(points) && |points| >= 2
    requires forall i :: 0 <= i < |points| ==> 0.0 <= points[i].speed <= 100.0
    requires points[0].temp <= MIN_TEMP && points[|points| - 1].temp >= MAX_TEMP && t < TABLE_SIZE - 1
    ensures var s := Segment(points, |points| - 1, CellTemp(t));
            && points[s].temp <= CellTemp(t) <= points[s + 1].temp
            && points[s].speed <= TablePct(points, tau, t) <= points[s + 1].speed
  {
    var x, n := CellTemp(t), |points| - 1;
    SegmentBrackets(points, n, x);
    var s := Segment(points, n, x);
    SlopesLimited(points, tau, s);
    SegmentValueMonotone(points, Slopes(points, tau), s, Fraction(points, s, x), Fraction(points, s, x));
  }

  lemma LevelOfMonotone(p: real, q: real, allowFanStop: bool)
    requires p <= q
    ensures LevelOf(p, allowFanStop) <= LevelOf(q, allowFanStop) <= FULL_SPEED
  {
  }

  /** The level table is non-decreasing as well and ends at full speed. */
  lemma LevelTableMonotone(points: seq<Point>, tau: real -> real, allowFanStop: bool, t1: nat, t2: nat)
    requires LimiterScale(tau) && SpeedsRise(points) && |points| >= 2
    requires t1 <= t2 < TABLE_SIZE
    ensures TableLevel(points, tau, allowFanStop, t1) <= TableLevel(points, tau, allowFanStop, t2)
    ensures TableLevel(points, tau, allowFanStop, TABLE_SIZE - 1) == FULL_SPEED
  {
    PctTableMonotone(points, tau, t1, t2);
    LevelOfMonotone(TablePct(points, tau, t1), TablePct(points, tau, t2), allowFanStop);
  }

  // ------------------------------------------------------------------ the loops

  /** The interval widths, their secants and the unlimited slopes, filled left to right. */
  method ComputeIntervals(points: seq<Point>) returns (h: array<real>, delta: array<real>, m: array<real>)
    requires MIN_POINTS <= |points|
    ensures fresh(h) && fresh(delta) && fresh(m) && h != delta && h != m && delta != m
    ensures h[..] == Widths(points) && delta[..] == Secants(points) && m[..] == InitialSlopes(Secants(points))
  {
    var n := |points| - 1;
    h, delta := new real[n], new real[n];
    for i := 0 to n
      invariant forall k :: 0 <= k < i ==> h[k] == Width(points, k) && delta[k] == Secant(points, k)
    {
      h[i] := points[i + 1].temp - points[i].temp;
      if h[i] <= MIN_WIDTH { h[i] := MIN_WIDTH; }
      delta[i] := (points[i + 1].speed - points[i].speed) / h[i];
    }
    assert h[..] == Widths(points) && delta[..] == Secants(points);
    m := AverageSlopes(delta);
  }

  method AverageSlopes(delta: array<real>) returns (m: array<real>)
    requires delta.Length >= 1
    ensures fresh(m) && m[..] == InitialSlopes(delta[..])
  {
    var n := delta.Length;
    m := new real[n + 1];
    m[0] := delta[0];
    m[n] := delta[n - 1];
    for i := 1 to n
      invariant m[0] == delta[0] && m[n] == delta[n - 1]
      invariant forall k :: 0 <= k < i ==> m[k] == InitialSlope(delta[..], k)
    {
      m[i] := 0.5 * (delta[i - 1] + delta[i]);
    }
    assert m[..] == InitialSlopes(delta[..]);
  }

  /** The limiter loop, overwriting the slope array in place. */
  method LimitSlopes(delta: array<real>, m: array<real>, tau: real -> real)
    requires delta != m && m.Length == delta.Length + 1
    modifies m
    ensures m[..] == LimitPass(delta[..], old(m[..]), Limiter(tau), delta.Length)
  {
    for i := 0 to delta.Length
      invariant m[..] == LimitPass(delta[..], old(m[..]), Limiter(tau), i)
    {
      LimitInterval(delta[i], m, i, tau);
    }
  }

  method LimitInterval(d: real, m: array<real>, i: nat, tau: real -> real)
    requires i + 1 < m.Length
    modifies m
    ensures var (x, y) := LimitStep(d, old(m[i]), old(m[i + 1]), tau);
            m[..] == old(m[..])[i := x][i + 1 := y]
  {
    if Abs(d) < FLAT {
      m[i] := 0.0;
      m[i + 1] := 0.0;
    } else {
      var a, b := m[i], m[i + 1];
      var alpha, beta := a / d, b / d;
      if alpha < 0.0 { m[i] := 0.0; }
      if beta < 0.0 { m[i + 1] := 0.0; }
      var hyp := Hyp(d, a, b);
      if hyp > 9.0 {
        var t := tau(hyp);
        m[i] := t * alpha * d;
        m[i + 1] := t * beta * d;
        ScaledStep(d, a, b, alpha, beta, t, tau);
      }
    }
  }

  // ------------------------------------------------------------------ evaluation

  /** The square and cubic coefficients of an interval, from its control speeds, width and end slopes. */
  function SquareTerm(y0: real, y1: real, h: real, m0: real, m1: real): real {
    -3.0 * y0 + 3.0 * y1 - 2.0 * h * m0 - h * m1
  }

  function CubicTerm(y0: real, y1: real, h: real, m0: real, m1: real): real {
    2.0 * y0 - 2.0 * y1 + h * m0 + h * m1
  }

  function C1(points: seq<Point>, m: seq<real>, i: nat): real
    requires i + 1 < |points| == |m|
  {
    Width(points, i) * m[i]
  }

  function C2(points: seq<Point>, m: seq<real>, i: nat): real
    requires i + 1 < |points| == |m|
  {
    SquareTerm(points[i].speed, points[i + 1].speed, Width(points, i), m[i], m[i + 1])
  }

  function C3(points: seq<Point>, m: seq<real>, i: nat): real
    requires i + 1 < |points| == |m|
  {
    CubicTerm(points[i].speed, points[i + 1].speed, Width(points, i), m[i], m[i + 1])
  }

  /** The coefficients kept per interval describe the Hermite segment. */
  lemma CoefficientsDescribeSegment(points: seq<Point>, m: seq<real>, s: nat, u: real)
    requires s + 1 < |points| == |m|
    ensures Horner(points[s].speed, C1(points, m, s), C2(points, m, s), C3(points, m, s), u)
        == SegmentValue(points, m, s, u)
  {
  }

  /** The four coefficients of interval i. */
  ghost predicate CoefficientsAt(points: seq<Point>, m: seq<real>, i: nat, k0: real, k1: real, k2: real, k3: real)
    requires i + 1 < |points| == |m|
  {
    k0 == points[i].speed && k1 == C1(points, m, i) && k2 == C2(points, m, i) && k3 == C3(points, m, i)
  }

  ghost predicate CoefficientsOf(points: seq<Point>, m: seq<real>,
                                 c0: seq<real>, c1: seq<real>, c2: seq<real>, c3: seq<real>)
    requires 2 <= |points| == |m|
  {
    && |c0| == |c1| == |c2| == |c3| == |points| - 1
    && forall i :: 0 <= i < |points| - 1 ==> CoefficientsAt(points, m, i, c0[i], c1[i], c2[i], c3[i])
  }

  method ComputeCoefficients(points: seq<Point>, h: array<real>, m: array<real>)
    returns (c0: array<real>, c1: array<real>, c2: array<real>, c3: array<real>)
    requires MIN_POINTS <= |points| == m.Length && h[..] == Widths(points)
    ensures fresh(c0) && fresh(c1) && fresh(c2) && fresh(c3)
    ensures CoefficientsOf(points, m[..], c0[..], c1[..], c2[..], c3[..])
  {
    var n := |points| - 1;
    ghost var slopes := m[..];
    c0, c1 := new real[n], new real[n];
    c2, c3 := new real[n], new real[n];
    for i := 0 to n
      invariant h[..] == Widths(points) && m[..] == slopes
      invariant forall k :: 0 <= k < i ==> CoefficientsAt(points, slopes, k, c0[k], c1[k], c2[k], c3[k])
    {
      var y0, y1, hi, m0, m1 := points[i].speed, points[i + 1].speed, h[i], m[i], m[i + 1];
      assert hi == h[..][i] == Width(points, i) && m0 == slopes[i] && m1 == slopes[i + 1];
      c0[i] := y0;
      c1[i] := hi * m0;
      c2[i] := SquareTerm(y0, y1, hi, m0, m1);
      c3[i] := CubicTerm(y0, y1, hi, m0, m1);
      assert CoefficientsAt(points, slopes, i, c0[i], c1[i], c2[i], c3[i]);
    }
  }

  /** One lane: interval search, fraction and Horner evaluation, before the clamp to [0, 100]. */
  method LocateCell(points: seq<Point>, temp: real, h: array<real>) returns (seg: nat, u: real)
    requires MIN_POINTS <= |points| && h[..] == Widths(points)
    ensures seg == Segment(points, |points| - 1, temp) && u == Fraction(points, seg, temp)
  {
    seg := 0;
    for i := 0 to |points| - 1
      invariant seg == Segment(points, i, temp)
    {
      if temp >= points[i].temp { seg := i; }
    }
    assert h[..][seg] == Width(points, seg);
    u := Clamp((temp - points[seg].temp) / h[seg], 0.0, 1.0);
  }

  method EvalCell(points: seq<Point>, ghost m: seq<real>, h: array<real>,
                  c0: array<real>, c1: array<real>, c2: array<real>, c3: array<real>, t: nat) returns (pct: real)
    requires MIN_POINTS <= |points| == |m| && h[..] == Widths(points)
    requires CoefficientsOf(points, m, c0[..], c1[..], c2[..], c3[..])
    ensures pct == Cell(points, m, t)
  {
    var seg, u := LocateCell(points, MIN_TEMP + t as real, h);
    assert CoefficientsAt(points, m, seg, c0[..][seg], c1[..][seg], c2[..][seg], c3[..][seg]);
    CoefficientsDescribeSegment(points, m, seg, u);
    pct := Clamp(Horner(c0[seg], c1[seg], c2[seg], c3[seg], u), 0.0, 100.0);
  }

  /** The portable evaluator: one cell at a time. */
  method EvalSplineScalar(points: seq<Point>, ghost m: seq<real>, h: array<real>,
                          c0: array<real>, c1: array<real>, c2: array<real>, c3: array<real>, raw: array<real>)
    requires MIN_POINTS <= |points| == |m| && h[..] == Widths(points)
    requires CoefficientsOf(points, m, c0[..], c1[..], c2[..], c3[..])
    requires raw.Length >= TABLE_SIZE - 1 && raw !in {h, c0, c1, c2, c3}
    modifies raw
    ensures forall t :: 0 <= t < TABLE_SIZE - 1 ==> raw[t] == Cell(points, m, t)
  {
    for t := 0 to TABLE_SIZE - 1
      invariant h[..] == Widths(points) && CoefficientsOf(points, m, c0[..], c1[..], c2[..], c3[..])
      invariant forall k :: 0 <= k < t ==> raw[k] == Cell(points, m, k)
    {
      raw[t] := EvalCell(points, m, h, c0, c1, c2, c3, t);
    }
  }

  /** The vector evaluator: five blocks of eight lanes, gathered, evaluated by nested multiply-adds, then clamped. */
  method EvalSplineBlocks(points: seq<Point>, ghost m: seq<real>, h: array<real>,
                          c0: array<real>, c1: array<real>, c2: array<real>, c3: array<real>, raw: array<real>)
    requires MIN_POINTS <= |points| == |m| && h[..] == Widths(points)
    requires CoefficientsOf(points, m, c0[..], c1[..], c2[..], c3[..])
    requires raw.Length >= TABLE_SIZE - 1 && raw !in {h, c0, c1, c2, c3}
    modifies raw
    ensures forall t :: 0 <= t < TABLE_SIZE - 1 ==> raw[t] == Cell(points, m, t)
  {
    for block := 0 to 5
      invariant h[..] == Widths(points) && CoefficientsOf(points, m, c0[..], c1[..], c2[..], c3[..])
      invariant forall k :: 0 <= k < 8 * block ==> raw[k] == Cell(points, m, k)
    {
      var lanes := EvalLanes(points, m, h, c0, c1, c2, c3, block);
      forall k | 0 <= k < 8 { raw[block * 8 + k] := lanes[k]; }
      forall t | 8 * block <= t < 8 * block + 8 ensures raw[t] == Cell(points, m, t) {
        assert t == block * 8 + (t - 8 * block);
      }
    }
  }

  /** The segment and fraction of each lane of a block. */
  ghost predicate LanesLocated(points: seq<Point>, vSeg: seq<nat>, vu: seq<real>, block: nat)
    requires |points| >= MIN_POINTS
  {
    && |vSeg| == |vu| == 8
    && forall j :: 0 <= j < 8 ==>
         vSeg[j] == Segment(points, |points| - 1, CellTemp(block * 8 + j))
             && vu[j] == Fraction(points, vSeg[j], CellTemp(block * 8 + j))
  }

  method LocateLanes(points: seq<Point>, h: array<real>, block: nat) returns (vSeg: array<nat>, vu: array<real>)
    requires MIN_POINTS <= |points| && h[..] == Widths(points)
    ensures fresh(vSeg) && fresh(vu) && LanesLocated(points, vSeg[..], vu[..], block)
  {
    vSeg, vu := new nat[8], new real[8];
    for k := 0 to 8
      invariant forall j :: 0 <= j < k ==>
        vSeg[j] == Segment(points, |points| - 1, CellTemp(block * 8 + j))
            && vu[j] == Fraction(points, vSeg[j], CellTemp(block * 8 + j))
    {
      var seg, u := LocateCell(points, MIN_TEMP + (block * 8) as real + k as real, h);
      vSeg[k], vu[k] := seg, u;
    }
  }

  method EvalLanes(points: seq<Point>, ghost m: seq<real>, h: array<real>,
                   c0: array<real>, c1: array<real>, c2: array<real>, c3: array<real>, block: nat)
    returns (lanes: array<real>)
    requires MIN_POINTS <= |points| == |m| && h[..] == Widths(points)
    requires CoefficientsOf(points, m, c0[..], c1[..], c2[..], c3[..])
    ensures fresh(lanes) && lanes.Length == 8
    ensures forall k :: 0 <= k < 8 ==> lanes[k] == Cell(points, m, block * 8 + k)
  {
    var vSeg, vu := LocateLanes(points, h, block);
    ghost var segs, us := vSeg[..], vu[..];
    lanes := new real[8];
    for k := 0 to 8
      invariant vSeg[..] == segs && vu[..] == us
      invariant forall j :: 0 <= j < k ==> lanes[j] == Cell(points, m, block * 8 + j)
    {
      assert vSeg[k] == segs[k] && vu[k] == us[k];
      lanes[k] := EvalLane(points, m, c0, c1, c2, c3, vSeg[k], vu[k]);
    }
  }

  method EvalLane(points: seq<Point>, ghost m: seq<real>,
                  c0: array<real>, c1: array<real>, c2: array<real>, c3: array<real>, seg: nat, u: real)
    returns (res: real)
    requires MIN_POINTS <= |points| == |m| && seg + 1 < |points|
    requires CoefficientsOf(points, m, c0[..], c1[..], c2[..], c3[..])
    ensures res == Clamp(SegmentValue(points, m, seg, u), 0.0, 100.0)
  {
    assert CoefficientsAt(points, m, seg, c0[..][seg], c1[..][seg], c2[..][seg], c3[..][seg]);
    CoefficientsDescribeSegment(points, m, seg, u);
    res := EvalNested(c0[seg], c1[seg], c2[seg], c3[seg], u);
  }

  /** The three multiply-adds of a lane and its clamp. */
  method EvalNested(k0: real, k1: real, k2: real, k3: real, u: real) returns (res: real)
    ensures res == Clamp(Horner(k0, k1, k2, k3, u), 0.0, 100.0)
  {
    res := MulAdd(u, k3, k2);
    res := MulAdd(u, res, k1);
    res := MulAdd(u, res, k0);
    NestedMultiplyAdds(k0, k1, k2, k3, u);
    if res < 0.0 { res := 0.0; }
    if res > 100.0 { res := 100.0; }
  }

  /** Widths, limited slopes, coefficients, either evaluator, the ceiling. */
  method SampleSpline(points: seq<Point>, vectorised: bool, tau: real -> real) returns (raw: array<real>)
    requires MIN_POINTS <= |points|
    ensures fresh(raw) && raw.Length >= TABLE_SIZE
    ensures forall k :: 0 <= k < TABLE_SIZE ==> raw[k] == TablePct(points, tau, k)
  {
    var h, delta, m := ComputeIntervals(points);
    LimitSlopes(delta, m, tau);
    ghost var slopes := m[..];
    assert slopes == Slopes(points, tau);
    var c0, c1, c2, c3 := ComputeCoefficients(points, h, m);
    raw := new real[TABLE_SIZE + 7];
    if vectorised {
      EvalSplineBlocks(points, slopes, h, c0, c1, c2, c3, raw);
    } else {
      EvalSplineScalar(points, slopes, h, c0, c1, c2, c3, raw);
    }
    raw[TABLE_SIZE - 1] := 100.0;
  }

  /** The whole lookup: the sampled spline and its quantised levels. */
  method ComputeSplineLookup(points: seq<Point>, outLevels: array<nat>, outPcts: array<real>,
                             allowFanStop: bool, vectorised: bool, tau: real -> real) returns (ok: bool)
    requires outLevels.Length >= TABLE_SIZE && outPcts.Length >= TABLE_SIZE
    modifies outLevels, outPcts
    ensures ok <==> MIN_POINTS <= |points| <= MAX_POINTS
    ensures ok ==> outPcts[..TABLE_SIZE] == PctTable(points, tau)
    ensures ok ==> outLevels[..TABLE_SIZE] == LevelTable(points, tau, allowFanStop)
    ensures ok ==>
        outPcts[TABLE_SIZE..] == old(outPcts[TABLE_SIZE..]) && outLevels[TABLE_SIZE..] == old(outLevels[TABLE_SIZE..])
    ensures !ok ==> outPcts[..] == old(outPcts[..]) && outLevels[..] == old(outLevels[..])
  {
    if |points| < MIN_POINTS || |points| > MAX_POINTS { return false; }
    var raw := SampleSpline(points, vectorised, tau);
    for t := 0 to TABLE_SIZE
      invariant forall k :: 0 <= k < TABLE_SIZE ==> raw[k] == TablePct(points, tau, k)
      invariant forall k :: 0 <= k < t ==> outPcts[k] == raw[k] && outLevels[k] == LevelOf(raw[k], allowFanStop)
      invariant outPcts[TABLE_SIZE..] == old(outPcts[TABLE_SIZE..])
          && outLevels[TABLE_SIZE..] == old(outLevels[TABLE_SIZE..])
    {
      outPcts[t] := raw[t];
      outLevels[t] := LevelOf(raw[t], allowFanStop);
    }
    outLevels[TABLE_SIZE - 1] := FULL_SPEED;
    return true;
  }
}
