/**
 Where a fan curve may dip. The limiter keeps the slope ratios it computed before it cleared an
 opposing slope, so on a curve that changes direction an interval can run against its own control
 points. For any control points: an interval follows its direction exactly when no neighbour runs
 the other way more steeply than it does, or the slopes the pass found there were inside the disc.
 */
module FanDips {
  import opened FanSplineMath
  import opened FanSpline

  // ------------------------------------------------------------------ what following means

  ghost predicate Rises(points: seq<Point>, m: seq<real>, s: nat)
    requires s + 1 < |points| == |m|
  {
    forall u: real, v: real :: 0.0 <= u && u <= v && v <= 1.0 ==>
      SegmentValue(points, m, s, u) <= SegmentValue(points, m, s, v)
  }

  ghost predicate Falls(points: seq<Point>, m: seq<real>, s: nat)
    requires s + 1 < |points| == |m|
  {
    forall u: real, v: real :: 0.0 <= u && u <= v && v <= 1.0 ==>
      SegmentValue(points, m, s, u) >= SegmentValue(points, m, s, v)
  }

  /** The interval nowhere runs against its two control points. */
  ghost predicate Follows(points: seq<Point>, m: seq<real>, s: nat)
    requires s + 1 < |points| == |m|
  {
    if Secant(points, s) >= 0.0 then Rises(points, m, s) else Falls(points, m, s)
  }

  /** A secant e runs against d, and more steeply. */
  predicate Outruns(e: real, d: real) {
    if d >= 0.0 then e < -d else e > -d
  }

  /** A neighbouring interval runs the other way more steeply. */
  predicate Opposed(points: seq<Point>, s: nat)
    requires s + 1 < |points|
  {
    || (s > 0 && Outruns(Secant(points, s - 1), Secant(points, s)))
    || (s + 2 < |points| && Outruns(Secant(points, s + 1), Secant(points, s)))
  }

  /** The slopes as the pass finds them when it comes to interval s. */
  function Found(points: seq<Point>, tau: real -> real, s: nat): (p: seq<real>)
    requires s + 1 < |points|
    ensures |p| == |points|
  {
    LimitPass(Secants(points), InitialSlopes(Secants(points)), Limiter(tau), s)
  }

  /** The interval is flat, or no neighbour opposes it, or nothing is rescaled there. */
  predicate Unspoiled(points: seq<Point>, tau: real -> real, s: nat)
    requires s + 1 < |points|
  {
    var d, p := Secant(points, s), Found(points, tau, s);
    Abs(d) < FLAT || !Opposed(points, s) || Hyp(d, p[s], p[s + 1]) <= 9.0
  }

  // ------------------------------------------------------------------ which slopes an interval ends with

  lemma {:induction false} Untouched(delta: seq<real>, m: seq<real>, step: (real, real, real) -> (real, real),
                                     k: nat, i: nat)
    requires k <= |delta| && |m| == |delta| + 1 && k < i < |m|
    ensures LimitPass(delta, m, step, k)[i] == m[i]
    decreases k
  {
    if k > 0 {
      Untouched(delta, m, step, k - 1, i);
    }
  }

  /** Later steps leave a slope alone once both its intervals are behind. */
  lemma {:induction false} Final(delta: seq<real>, m: seq<real>, step: (real, real, real) -> (real, real),
                                 k: nat, i: nat)
    requires k <= |delta| && |m| == |delta| + 1 && i < k
    ensures LimitPass(delta, m, step, k)[i] == LimitPass(delta, m, step, i + 1)[i]
    decreases k
  {
    if i + 1 < k {
      Final(delta, m, step, k - 1, i);
    }
  }

  lemma OneStep(delta: seq<real>, m: seq<real>, step: (real, real, real) -> (real, real), k: nat)
    requires k < |delta| && |m| == |delta| + 1
    ensures var p, r := LimitPass(delta, m, step, k), LimitPass(delta, m, step, k + 1);
            r[k] == step(delta[k], p[k], p[k + 1]).0 && r[k + 1] == step(delta[k], p[k], p[k + 1]).1
  {
  }

  /** The left slope of an interval ends as its own step leaves it. */
  lemma LeftEnds(delta: seq<real>, m: seq<real>, step: (real, real, real) -> (real, real), s: nat)
    requires s < |delta| && |m| == |delta| + 1
    ensures var p := LimitPass(delta, m, step, s);
            LimitPass(delta, m, step, |delta|)[s] == step(delta[s], p[s], p[s + 1]).0
  {
    OneStep(delta, m, step, s);
    Final(delta, m, step, |delta|, s);
  }

  /** The right slope has also been through the next step. */
  lemma RightEnds(delta: seq<real>, m: seq<real>, step: (real, real, real) -> (real, real), s: nat)
    requires s < |delta| && |m| == |delta| + 1
    ensures var p := LimitPass(delta, m, step, s);
            var y := step(delta[s], p[s], p[s + 1]).1;
            LimitPass(delta, m, step, |delta|)[s + 1]
            == if s + 1 < |delta| then step(delta[s + 1], y, m[s + 2]).0 else y
  {
    OneStep(delta, m, step, s);
    if s + 1 < |delta| {
      LeftEnds(delta, m, step, s + 1);
      Untouched(delta, m, step, s + 1, s + 2);
    }
  }

  lemma FinalSlopes(points: seq<Point>, tau: real -> real, s: nat)
    requires s + 1 < |points|
    ensures var m, p := Slopes(points, tau), Found(points, tau, s);
            var step := LimitStep(Secant(points, s), p[s], p[s + 1], tau);
            && m[s] == step.0
            && m[s + 1] == if s + 2 < |points| then
                             LimitStep(Secant(points, s + 1), step.1, InitialSlope(Secants(points), s + 2), tau).0
                           else step.1
  {
    var delta := Secants(points);
    LeftEnds(delta, InitialSlopes(delta), Limiter(tau), s);
    RightEnds(delta, InitialSlopes(delta), Limiter(tau), s);
  }

  // ------------------------------------------------------------------ signs

  lemma RatioSign(d: real, a: real)
    requires d != 0.0
    ensures d > 0.0 ==> (a / d >= 0.0 <==> a >= 0.0)
    ensures d < 0.0 ==> (a / d >= 0.0 <==> a <= 0.0)
  {
  }

  lemma ScaledSign(t: real, d: real, a: real)
    requires d != 0.0 && 0.0 < t <= 1.0
    ensures t * (a / d) * d == t * a
    ensures a >= 0.0 ==> 0.0 <= t * a <= a
    ensures a < 0.0 ==> t * a < 0.0
  {
    assert (a / d) * d == a;
  }

  /** What a step makes of either slope, case by case. */
  lemma StepIs(d: real, a: real, b: real, tau: real -> real)
    requires LimiterScale(tau) && Abs(d) >= FLAT
    ensures var (x, y), t := LimitStep(d, a, b, tau), tau(Hyp(d, a, b));
            && (Hyp(d, a, b) > 9.0 ==> 0.0 < t <= 1.0 && x == t * a && y == t * b)
            && (Hyp(d, a, b) <= 9.0 ==>
                  x == (if a / d < 0.0 then 0.0 else a) && y == (if b / d < 0.0 then 0.0 else b))
  {
    if Hyp(d, a, b) > 9.0 {
      var t := tau(Hyp(d, a, b));
      ScaledStep(d, a, b, a / d, b / d, t, tau);
      ScaledSign(t, d, a);
      ScaledSign(t, d, b);
    }
  }

  /** A non-negative slope stays so and does not grow, whatever the interval. */
  lemma StepShrinks(d: real, a: real, b: real, tau: real -> real)
    requires LimiterScale(tau)
    ensures var (x, y) := LimitStep(d, a, b, tau);
            && (a >= 0.0 ==> 0.0 <= x && x <= a)
            && (b >= 0.0 ==> 0.0 <= y && y <= b)
  {
    if Abs(d) >= FLAT {
      StepIs(d, a, b, tau);
      if Hyp(d, a, b) > 9.0 {
        ScaledSign(tau(Hyp(d, a, b)), d, a);
        ScaledSign(tau(Hyp(d, a, b)), d, b);
      }
    }
  }

  /** On a falling interval a negative slope stays negative. */
  lemma StepKeepsNegative(d: real, a: real, b: real, tau: real -> real)
    requires LimiterScale(tau) && d <= -FLAT
    ensures var (x, y) := LimitStep(d, a, b, tau); (a < 0.0 ==> x < 0.0) && (b < 0.0 ==> y < 0.0)
  {
    StepIs(d, a, b, tau);
    RatioSign(d, a);
    RatioSign(d, b);
    if Hyp(d, a, b) > 9.0 {
      ScaledSign(tau(Hyp(d, a, b)), d, a);
      ScaledSign(tau(Hyp(d, a, b)), d, b);
    }
  }

  /** The pass finds the left slope against a rising interval exactly if the interval before falls more steeply. */
  lemma FoundLeftSign(points: seq<Point>, tau: real -> real, s: nat)
    requires LimiterScale(tau) && s + 1 < |points| && Secant(points, s) >= FLAT
    ensures Found(points, tau, s)[s] < 0.0 <==> s > 0 && Outruns(Secant(points, s - 1), Secant(points, s))
  {
    var delta := Secants(points);
    var start, step := InitialSlopes(delta), Limiter(tau);
    if s > 0 {
      var q := LimitPass(delta, start, step, s - 1);
      Untouched(delta, start, step, s - 1, s);
      OneStep(delta, start, step, s - 1);
      assert start[s] == 0.5 * (delta[s - 1] + delta[s]);
      if delta[s - 1] < -delta[s] {
        StepKeepsNegative(delta[s - 1], q[s - 1], start[s], tau);
      } else {
        StepShrinks(delta[s - 1], q[s - 1], start[s], tau);
      }
    }
  }

  /** The right slope is still the mean of two secants, or the last secant. */
  lemma FoundRightSign(points: seq<Point>, tau: real -> real, s: nat)
    requires s + 1 < |points| && Secant(points, s) >= FLAT
    ensures Found(points, tau, s)[s + 1] < 0.0
            <==> s + 2 < |points| && Outruns(Secant(points, s + 1), Secant(points, s))
  {
    var delta := Secants(points);
    Untouched(delta, InitialSlopes(delta), Limiter(tau), s, s + 1);
  }

  lemma FoundSigns(points: seq<Point>, tau: real -> real, s: nat)
    requires LimiterScale(tau) && s + 1 < |points| && Secant(points, s) >= FLAT
    ensures var p := Found(points, tau, s);
            && (p[s] < 0.0 <==> s > 0 && Outruns(Secant(points, s - 1), Secant(points, s)))
            && (p[s + 1] < 0.0 <==> s + 2 < |points| && Outruns(Secant(points, s + 1), Secant(points, s)))
  {
    FoundLeftSign(points, tau, s);
    FoundRightSign(points, tau, s);
  }

  // ------------------------------------------------------------------ a negative end slope dips

  lemma StepSize(g: real, k: real, e: real)
    requires g > 0.0 && k >= 0.0 && e == g / (k + g)
    ensures 0.0 < e <= 1.0 && e * k < g
  {
    assert e * (k + g) == g;
    assert e > 0.0;
    assert e * g > 0.0;
  }

  lemma PartOf(e: real, b: real)
    requires 0.0 < e <= 1.0
    ensures e * b <= Abs(b)
  {
    if b >= 0.0 {
      MulMonotone(b, e, 1.0);
    } else {
      MulMonotone(e, b, 0.0);
    }
  }

  /** A step so small that the higher terms stay below g. */
  lemma SmallStep(g: real, a: real, b: real) returns (e: real)
    requires g > 0.0
    ensures 0.0 < e <= 1.0 && e * (a + e * b) < g
  {
    var k := Abs(a) + Abs(b);
    e := g / (k + g);
    StepSize(g, k, e);
    PartOf(e, b);
    MulMonotone(e, a + e * b, k);
  }

  lemma MeanSlopeAtStart(c1: real, c2: real, c3: real, e: real)
    ensures MeanSlope(c1, c2, c3, 0.0, e) == c1 + e * (c2 + e * c3)
  {
  }

  lemma MeanSlopeAtEnd(c1: real, c2: real, c3: real, e: real, u: real)
    requires u == 1.0 - e
    ensures MeanSlope(c1, c2, c3, u, 1.0) == c1 + 2.0 * c2 + 3.0 * c3 + e * ((-c2 - 3.0 * c3) + e * c3)
  {
  }

  lemma EndSlopeIs(y0: real, y1: real, g0: real, g1: real)
    ensures g0 + 2.0 * (-3.0 * y0 + 3.0 * y1 - 2.0 * g0 - g1) + 3.0 * (2.0 * y0 - 2.0 * y1 + g0 + g1) == g1
  {
  }

  lemma StartDips(y0: real, y1: real, g0: real, g1: real) returns (e: real)
    requires g0 < 0.0
    ensures 0.0 <= e <= 1.0 && Hermite(y0, y1, g0, g1, e) < Hermite(y0, y1, g0, g1, 0.0)
  {
    var c2, c3 := -3.0 * y0 + 3.0 * y1 - 2.0 * g0 - g1, 2.0 * y0 - 2.0 * y1 + g0 + g1;
    e := SmallStep(-g0, c2, c3);
    MeanSlopeAtStart(g0, c2, c3, e);
    FallsWithMeanSlope(y0, g0, c2, c3, 0.0, e);
  }

  lemma EndDips(y0: real, y1: real, g0: real, g1: real) returns (u: real)
    requires g1 < 0.0
    ensures 0.0 <= u <= 1.0 && Hermite(y0, y1, g0, g1, 1.0) < Hermite(y0, y1, g0, g1, u)
  {
    var c2, c3 := -3.0 * y0 + 3.0 * y1 - 2.0 * g0 - g1, 2.0 * y0 - 2.0 * y1 + g0 + g1;
    var e := SmallStep(-g1, -c2 - 3.0 * c3, c3);
    u := 1.0 - e;
    MeanSlopeAtEnd(g0, c2, c3, e, u);
    EndSlopeIs(y0, y1, g0, g1);
    FallsWithMeanSlope(y0, g0, c2, c3, u, 1.0);
  }

  lemma FallsWithMeanSlope(c0: real, c1: real, c2: real, c3: real, u: real, v: real)
    requires u < v && MeanSlope(c1, c2, c3, u, v) < 0.0
    ensures Horner(c0, c1, c2, c3, v) < Horner(c0, c1, c2, c3, u)
  {
    HornerRise(c0, c1, c2, c3, u, v);
    assert (v - u) * MeanSlope(c1, c2, c3, u, v) < 0.0;
  }

  lemma ScaledNegative(h: real, a: real)
    requires h > 0.0 && a < 0.0
    ensures h * a < 0.0
  {
  }

  /** An interval that ends with a slope below zero falls somewhere. */
  lemma NegativeSlopeFalls(points: seq<Point>, m: seq<real>, s: nat)
    requires s + 1 < |points| == |m| && (m[s] < 0.0 || m[s + 1] < 0.0)
    ensures !Rises(points, m, s)
  {
    var h := Width(points, s);
    var y0, y1 := points[s].speed, points[s + 1].speed;
    if m[s] < 0.0 {
      ScaledNegative(h, m[s]);
      var e := StartDips(y0, y1, h * m[s], h * m[s + 1]);
      assert SegmentValue(points, m, s, e) < SegmentValue(points, m, s, 0.0);
    } else {
      ScaledNegative(h, m[s + 1]);
      var u := EndDips(y0, y1, h * m[s], h * m[s + 1]);
      assert SegmentValue(points, m, s, 1.0) < SegmentValue(points, m, s, u);
    }
  }

  // ------------------------------------------------------------------ rising intervals

  /** Where nothing is spoiled the step leaves limited slopes. */
  lemma UnspoiledStep(d: real, a: real, b: real, tau: real -> real)
    requires LimiterScale(tau) && d >= FLAT && ((a >= 0.0 && b >= 0.0) || Hyp(d, a, b) <= 9.0)
    ensures var (x, y) := LimitStep(d, a, b, tau); Limited(d, x, y)
  {
    if a >= 0.0 && b >= 0.0 {
      LimitStepLimits(d, a, b, tau);
    } else {
      StepIs(d, a, b, tau);
      RatioSign(d, a);
      RatioSign(d, b);
      ClearedDisc(d, a, b);
    }
  }

  lemma ClearedDisc(d: real, a: real, b: real)
    requires d != 0.0 && Hyp(d, a, b) <= 9.0
    ensures Hyp(d, 0.0, b) <= 9.0 && Hyp(d, a, 0.0) <= 9.0 && Hyp(d, 0.0, 0.0) <= 9.0
  {
    SquareNonNegative(a / d);
    SquareNonNegative(b / d);
    assert 0.0 / d == 0.0;
  }

  /** Limited slopes make an interval rise. */
  lemma LimitedRises(points: seq<Point>, m: seq<real>, s: nat)
    requires s + 1 < |points| == |m| && Secant(points, s) >= 0.0 && Limited(Secant(points, s), m[s], m[s + 1])
    ensures Rises(points, m, s)
  {
    forall u: real, v: real | 0.0 <= u && u <= v && v <= 1.0
      ensures SegmentValue(points, m, s, u) <= SegmentValue(points, m, s, v)
    {
      SegmentValueMonotone(points, m, s, u, v);
    }
  }

  lemma UnspoiledRises(points: seq<Point>, tau: real -> real, s: nat)
    requires LimiterScale(tau) && s + 1 < |points| && Secant(points, s) >= 0.0 && Unspoiled(points, tau, s)
    ensures var m := Slopes(points, tau); Limited(Secant(points, s), m[s], m[s + 1])
  {
    var d, p, m := Secant(points, s), Found(points, tau, s), Slopes(points, tau);
    var (x, y) := LimitStep(d, p[s], p[s + 1], tau);
    FinalSlopes(points, tau, s);
    if d >= FLAT {
      FoundSigns(points, tau, s);
      UnspoiledStep(d, p[s], p[s + 1], tau);
    }
    assert Limited(d, x, y);
    if s + 2 < |points| {
      StepShrinks(Secant(points, s + 1), y, InitialSlope(Secants(points), s + 2), tau);
    }
    LimitedShrinksRight(d, x, y, m[s + 1]);
  }

  /** Where something is, one of the final slopes runs against the interval. */
  lemma SpoiledFalls(points: seq<Point>, tau: real -> real, s: nat)
    requires LimiterScale(tau) && s + 1 < |points| && Secant(points, s) >= 0.0 && !Unspoiled(points, tau, s)
    ensures var m := Slopes(points, tau); m[s] < 0.0 || m[s + 1] < 0.0
  {
    var d, p := Secant(points, s), Found(points, tau, s);
    var (x, y) := LimitStep(d, p[s], p[s + 1], tau);
    FinalSlopes(points, tau, s);
    FoundSigns(points, tau, s);
    SpoiledStep(d, p[s], p[s + 1], tau);
    if x >= 0.0 {
      StepShrinks(d, p[s], p[s + 1], tau);
      StepKeepsNegative(Secant(points, s + 1), y, InitialSlope(Secants(points), s + 2), tau);
    }
  }

  lemma SpoiledStep(d: real, a: real, b: real, tau: real -> real)
    requires LimiterScale(tau) && d >= FLAT && (a < 0.0 || b < 0.0) && Hyp(d, a, b) > 9.0
    ensures var (x, y) := LimitStep(d, a, b, tau); x < 0.0 || y < 0.0
  {
    var (x, y) := LimitStep(d, a, b, tau);
    LimitStepKeepsDirection(d, a, b, tau);
    RatioSign(d, a);
    RatioSign(d, b);
    RatioSign(d, x);
    RatioSign(d, y);
  }

  lemma RisesExactlyWhen(points: seq<Point>, tau: real -> real, s: nat)
    requires LimiterScale(tau) && s + 1 < |points| && Secant(points, s) >= 0.0
    ensures Rises(points, Slopes(points, tau), s) <==> Unspoiled(points, tau, s)
  {
    if Unspoiled(points, tau, s) {
      UnspoiledRises(points, tau, s);
      LimitedRises(points, Slopes(points, tau), s);
    } else {
      SpoiledFalls(points, tau, s);
      NegativeSlopeFalls(points, Slopes(points, tau), s);
    }
  }

  // ------------------------------------------------------------------ falling intervals, by reflection

  function Mirror(points: seq<Point>): (r: seq<Point>)
    ensures |r| == |points|
  {
    seq(|points|, i requires 0 <= i < |points| => Point(points[i].temp, -points[i].speed))
  }

  function Negated(m: seq<real>): (r: seq<real>)
    ensures |r| == |m| && forall i :: 0 <= i < |m| ==> r[i] == -m[i]
  {
    seq(|m|, i requires 0 <= i < |m| => -m[i])
  }

  lemma QuotientMirrors(a: real, d: real)
    requires d != 0.0
    ensures (-a) / d == -(a / d) && (-a) / (-d) == a / d
  {
    var q := a / d;
    assert q * d == a;
    assert (-q) * d == -a && q * (-d) == -a;
  }

  lemma HypMirrors(d: real, a: real, b: real)
    requires d != 0.0
    ensures Hyp(-d, -a, -b) == Hyp(d, a, b)
  {
    QuotientMirrors(a, d);
    QuotientMirrors(b, d);
  }

  lemma ProductMirrors(k: real, d: real)
    ensures k * (-d) == -(k * d)
  {
  }

  lemma UnscaledMirrors(d: real, a: real, b: real, tau: real -> real)
    requires Abs(d) >= FLAT && Hyp(d, a, b) <= 9.0 && Hyp(-d, -a, -b) <= 9.0
    requires (-a) / (-d) == a / d && (-b) / (-d) == b / d
    ensures OddAt(Limiter(tau), d, a, b)
  {
  }

  /** Reversing the secant and both slopes reverses what a step makes of them. */
  ghost predicate OddAt(step: (real, real, real) -> (real, real), d: real, a: real, b: real) {
    step(-d, -a, -b).0 == -step(d, a, b).0 && step(-d, -a, -b).1 == -step(d, a, b).1
  }

  lemma StepMirrors(d: real, a: real, b: real, tau: real -> real)
    ensures OddAt(Limiter(tau), d, a, b)
  {
    if Abs(d) >= FLAT {
      QuotientMirrors(a, d);
      QuotientMirrors(b, d);
      HypMirrors(d, a, b);
      var alpha, beta, hyp := a / d, b / d, Hyp(d, a, b);
      if hyp > 9.0 {
        ScaledStep(d, a, b, alpha, beta, tau(hyp), tau);
        ScaledStep(-d, -a, -b, alpha, beta, tau(hyp), tau);
        ProductMirrors(tau(hyp) * alpha, d);
        ProductMirrors(tau(hyp) * beta, d);
      } else {
        UnscaledMirrors(d, a, b, tau);
      }
    }
  }

  lemma NegatedUpdate(p: seq<real>, k: nat, x: real, y: real)
    requires 0 < k < |p|
    ensures Negated(p)[k - 1 := -x][k := -y] == Negated(p[k - 1 := x][k := y])
  {
  }

  lemma {:induction false} PassMirrors(delta: seq<real>, m: seq<real>, step: (real, real, real) -> (real, real), k: nat)
    requires k <= |delta| && |m| == |delta| + 1 && forall d, a, b :: OddAt(step, d, a, b)
    ensures LimitPass(Negated(delta), Negated(m), step, k) == Negated(LimitPass(delta, m, step, k))
    decreases k
  {
    if k > 0 {
      PassMirrors(delta, m, step, k - 1);
      var p := LimitPass(delta, m, step, k - 1);
      assert OddAt(step, delta[k - 1], p[k - 1], p[k]);
      var next := step(delta[k - 1], p[k - 1], p[k]);
      NegatedUpdate(p, k, next.0, next.1);
    }
  }

  lemma SecantsMirror(points: seq<Point>)
    requires |points| >= 2
    ensures Secants(Mirror(points)) == Negated(Secants(points))
    ensures InitialSlopes(Secants(Mirror(points))) == Negated(InitialSlopes(Secants(points)))
  {
    forall i | 0 <= i < |points| - 1
      ensures Secants(Mirror(points))[i] == -Secants(points)[i]
    {
      QuotientMirrors(points[i + 1].speed - points[i].speed, Width(points, i));
    }
  }

  lemma SlopesMirror(points: seq<Point>, tau: real -> real, s: nat)
    requires s + 1 < |points|
    ensures Secant(Mirror(points), s) == -Secant(points, s)
    ensures Found(Mirror(points), tau, s) == Negated(Found(points, tau, s))
    ensures Slopes(Mirror(points), tau) == Negated(Slopes(points, tau))
  {
    var delta := Secants(points);
    SecantsMirror(points);
    assert Secants(Mirror(points))[s] == -delta[s];
    forall d, a, b
      ensures OddAt(Limiter(tau), d, a, b)
    {
      StepMirrors(d, a, b, tau);
    }
    PassMirrors(delta, InitialSlopes(delta), Limiter(tau), s);
    PassMirrors(delta, InitialSlopes(delta), Limiter(tau), |delta|);
  }

  lemma HermiteMirrors(y0: real, y1: real, g0: real, g1: real, u: real)
    ensures Hermite(-y0, -y1, -g0, -g1, u) == -Hermite(y0, y1, g0, g1, u)
  {
  }

  lemma ValueMirrors(points: seq<Point>, m: seq<real>, s: nat, u: real)
    requires s + 1 < |points| == |m|
    ensures SegmentValue(Mirror(points), Negated(m), s, u) == -SegmentValue(points, m, s, u)
  {
    var h := Width(points, s);
    ProductMirrors(h, m[s]);
    ProductMirrors(h, m[s + 1]);
    HermiteMirrors(points[s].speed, points[s + 1].speed, h * m[s], h * m[s + 1], u);
  }

  lemma RiseMirrors(points: seq<Point>, m: seq<real>, s: nat)
    requires s + 1 < |points| == |m|
    ensures Rises(Mirror(points), Negated(m), s) <==> Falls(points, m, s)
  {
    var r, n := Mirror(points), Negated(m);
    if Rises(r, n, s) {
      forall u: real, v: real | 0.0 <= u && u <= v && v <= 1.0
        ensures SegmentValue(points, m, s, u) >= SegmentValue(points, m, s, v)
      {
        ValueMirrors(points, m, s, u);
        ValueMirrors(points, m, s, v);
        assert SegmentValue(r, n, s, u) <= SegmentValue(r, n, s, v);
      }
    }
    if Falls(points, m, s) {
      forall u: real, v: real | 0.0 <= u && u <= v && v <= 1.0
        ensures SegmentValue(r, n, s, u) <= SegmentValue(r, n, s, v)
      {
        ValueMirrors(points, m, s, u);
        ValueMirrors(points, m, s, v);
        assert SegmentValue(points, m, s, u) >= SegmentValue(points, m, s, v);
      }
    }
  }

  lemma OpposedMirrors(points: seq<Point>, s: nat)
    requires s + 1 < |points| && Secant(points, s) != 0.0
    ensures Opposed(Mirror(points), s) <==> Opposed(points, s)
  {
    var r := Mirror(points);
    SecantsMirror(points);
    assert Secants(r)[s] == -Secants(points)[s];
    if s > 0 {
      assert Secants(r)[s - 1] == -Secants(points)[s - 1];
    }
    if s + 2 < |points| {
      assert Secants(r)[s + 1] == -Secants(points)[s + 1];
    }
  }

  lemma UnspoiledMirrors(points: seq<Point>, tau: real -> real, s: nat)
    requires s + 1 < |points| && Secant(points, s) != 0.0
    ensures Unspoiled(Mirror(points), tau, s) <==> Unspoiled(points, tau, s)
  {
    var d, p := Secant(points, s), Found(points, tau, s);
    OpposedMirrors(points, s);
    SlopesMirror(points, tau, s);
    HypMirrors(d, p[s], p[s + 1]);
  }

  /**
   An interval of any curve follows the direction of its control points exactly when it is flat, or
   no neighbour runs the other way more steeply, or the slopes found there were inside the disc.
   */
  lemma FollowsExactlyWhen(points: seq<Point>, tau: real -> real, s: nat)
    requires LimiterScale(tau) && s + 1 < |points|
    ensures Follows(points, Slopes(points, tau), s) <==> Unspoiled(points, tau, s)
  {
    if Secant(points, s) >= 0.0 {
      RisesExactlyWhen(points, tau, s);
    } else {
      SlopesMirror(points, tau, s);
      UnspoiledMirrors(points, tau, s);
      RisesExactlyWhen(Mirror(points), tau, s);
      RiseMirrors(points, Slopes(points, tau), s);
    }
  }

  // ------------------------------------------------------------------ the table

  /** The interval a cell is sampled from. */
  function IntervalOf(points: seq<Point>, t: nat): (s: nat)
    requires |points| >= 2
    ensures s + 1 < |points|
  {
    Segment(points, |points| - 1, CellTemp(t))
  }

  lemma FollowedValue(points: seq<Point>, m: seq<real>, s: nat, u: real)
    requires s + 1 < |points| == |m| && Follows(points, m, s) && 0.0 <= u <= 1.0
    ensures Secant(points, s) >= 0.0 ==> points[s].speed <= SegmentValue(points, m, s, u) <= points[s + 1].speed
    ensures Secant(points, s) < 0.0 ==> points[s + 1].speed <= SegmentValue(points, m, s, u) <= points[s].speed
  {
    var h := Width(points, s);
    SegmentEnds(points[s].speed, points[s + 1].speed, h * m[s], h * m[s + 1]);
    assert SegmentValue(points, m, s, 0.0) == points[s].speed && SegmentValue(points, m, s, 1.0) == points[s + 1].speed;
    if Secant(points, s) >= 0.0 {
      assert SegmentValue(points, m, s, 0.0) <= SegmentValue(points, m, s, u) <= SegmentValue(points, m, s, 1.0);
    } else {
      assert SegmentValue(points, m, s, 0.0) >= SegmentValue(points, m, s, u) >= SegmentValue(points, m, s, 1.0);
    }
  }

  /** Two cells of one such interval follow its direction, and each lies between its control speeds. */
  lemma CellsFollow(points: seq<Point>, tau: real -> real, t1: nat, t2: nat)
    requires LimiterScale(tau) && |points| >= 2 && t1 <= t2 < TABLE_SIZE - 1
    requires IntervalOf(points, t1) == IntervalOf(points, t2) && Unspoiled(points, tau, IntervalOf(points, t1))
    requires forall i :: 0 <= i < |points| ==> 0.0 <= points[i].speed <= 100.0
    ensures var s := IntervalOf(points, t1);
            var y0, y1 := points[s].speed, points[s + 1].speed;
            var c1, c2 := TablePct(points, tau, t1), TablePct(points, tau, t2);
            && (Secant(points, s) >= 0.0 ==> y0 <= c1 <= c2 <= y1)
            && (Secant(points, s) < 0.0 ==> y1 <= c2 <= c1 <= y0)
  {
    var s, m := IntervalOf(points, t1), Slopes(points, tau);
    var u, v := Fraction(points, s, CellTemp(t1)), Fraction(points, s, CellTemp(t2));
    FollowsExactlyWhen(points, tau, s);
    FractionAdvances(points, s, CellTemp(t1), CellTemp(t2));
    FollowedValue(points, m, s, u);
    FollowedValue(points, m, s, v);
    if Secant(points, s) >= 0.0 {
      assert SegmentValue(points, m, s, u) <= SegmentValue(points, m, s, v);
    } else {
      assert SegmentValue(points, m, s, u) >= SegmentValue(points, m, s, v);
    }
  }

  /** A curve that never turns more steeply than it came follows its control points everywhere. */
  lemma GentleCurveFollows(points: seq<Point>, tau: real -> real)
    requires LimiterScale(tau) && |points| >= 2
    requires forall s :: 0 <= s < |points| - 1 ==> !Opposed(points, s)
    ensures forall s :: 0 <= s < |points| - 1 ==> Follows(points, Slopes(points, tau), s)
  {
    forall s | 0 <= s < |points| - 1
      ensures Follows(points, Slopes(points, tau), s)
    {
      FollowsExactlyWhen(points, tau, s);
    }
  }
}
