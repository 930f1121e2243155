/** Exact-real facts about one cubic Hermite segment, free of any table or array. */
module FanSplineMath {

  /** The segment polynomial in Horner form, as the evaluators compute it. */
  function Horner(c0: real, c1: real, c2: real, c3: real, u: real): real {
    c0 + u * (c1 + u * (c2 + u * c3))
  }

  /** One fused multiply-add, without its rounding. */
  function MulAdd(a: real, b: real, c: real): real {
    a * b + c
  }

  lemma NestedMultiplyAdds(c0: real, c1: real, c2: real, c3: real, u: real)
    ensures MulAdd(u, MulAdd(u, MulAdd(u, c3, c2), c1), c0) == Horner(c0, c1, c2, c3, u)
  {
  }

  /** The Hermite segment from y0 to y1 whose end slopes (per unit of u) are g0 and g1. */
  function Hermite(y0: real, y1: real, g0: real, g1: real, u: real): real {
    Horner(y0, g0, -3.0 * y0 + 3.0 * y1 - 2.0 * g0 - g1, 2.0 * y0 - 2.0 * y1 + g0 + g1, u)
  }

  /** The derivative of the segment divided by its rise, in terms of the two slope ratios. */
  function Shape(alpha: real, beta: real, u: real): real {
    alpha * (1.0 - u) * (1.0 - u) + 2.0 * (3.0 - alpha - beta) * (u * (1.0 - u)) + beta * u * u
  }

  lemma MulNonNegative(a: real, b: real)
    requires (a >= 0.0 && b >= 0.0) || (a <= 0.0 && b <= 0.0)
    ensures a * b >= 0.0
  {
  }

  lemma SquareNonNegative(a: real)
    ensures a * a >= 0.0
  {
  }

  lemma SmallSquare(s: real)
    requires s * s <= 18.0
    ensures s <= 9.0
  {
  }

  lemma ZeroFactor(a: real, b: real)
    requires a == 0.0
    ensures a * b == 0.0
  {
  }

  lemma MulMonotone(k: real, a: real, b: real)
    requires k >= 0.0 && a <= b
    ensures k * a <= k * b
  {
  }

  /** The Fritsch-Carlson disc is inside the region where the excess slope is dominated. */
  lemma ExcessSlopeBound(alpha: real, beta: real)
    requires alpha >= 0.0 && beta >= 0.0
    requires alpha * alpha + beta * beta <= 9.0
    requires alpha + beta >= 3.0
    ensures (alpha + beta - 3.0) * (alpha + beta - 3.0) <= alpha * beta
  {
    var s := alpha + beta;
    var p := alpha * beta;
    assert s * s == alpha * alpha + beta * beta + 2.0 * p;
    SquareNonNegative(alpha - beta);
    assert (alpha - beta) * (alpha - beta) == alpha * alpha + beta * beta - 2.0 * p;
    assert 2.0 * p <= 9.0;
    assert s * s <= 18.0;
    SmallSquare(s);
    MulNonNegative(s - 3.0, 9.0 - s);
    assert (s - 3.0) * (9.0 - s) == 12.0 * s - s * s - 27.0;
    assert (s - 3.0) * (s - 3.0) == s * s - 6.0 * s + 9.0;
  }

  lemma ShapeNonNegative(alpha: real, beta: real, u: real)
    requires alpha >= 0.0 && beta >= 0.0
    requires alpha * alpha + beta * beta <= 9.0
    requires 0.0 <= u <= 1.0
    ensures Shape(alpha, beta, u) >= 0.0
  {
    var k := alpha + beta - 3.0;
    if k > 0.0 { ExcessSlopeBound(alpha, beta); }
    QuadraticFormNonNegative(alpha, beta, k, 1.0 - u, u);
    ShapeExpand(alpha, beta, u);
  }

  lemma QuadraticFormNonNegative(alpha: real, beta: real, k: real, x: real, y: real)
    requires alpha >= 0.0 && beta >= 0.0 && x >= 0.0 && y >= 0.0
    requires k <= 0.0 || k * k <= alpha * beta
    ensures alpha * (x * x) - 2.0 * k * (x * y) + beta * (y * y) >= 0.0
  {
    if k <= 0.0 {
      SquareNonNegative(x); SquareNonNegative(y); MulNonNegative(x, y);
      MulNonNegative(alpha, x * x); MulNonNegative(beta, y * y); MulNonNegative(-2.0 * k, x * y);
    } else {
      CompletedSquare(alpha, beta, k, x, y);
    }
  }

  lemma ShapeExpand(alpha: real, beta: real, u: real)
    ensures var x, k := 1.0 - u, alpha + beta - 3.0;
            Shape(alpha, beta, u) == alpha * (x * x) - 2.0 * k * (x * u) + beta * (u * u)
  {
  }

  lemma CompletedSquare(alpha: real, beta: real, k: real, x: real, y: real)
    requires alpha >= 0.0 && beta >= 0.0 && k > 0.0 && k * k <= alpha * beta
    ensures alpha * (x * x) - 2.0 * k * (x * y) + beta * (y * y) >= 0.0
  {
    var e := alpha * (x * x) - 2.0 * k * (x * y) + beta * (y * y);
    if alpha == 0.0 { ZeroFactor(alpha, beta); assert k * k <= 0.0; }
    var sq := alpha * x - k * y;
    assert alpha * e == sq * sq + (alpha * beta - k * k) * (y * y) by {
      assert sq * sq == alpha * alpha * (x * x) - 2.0 * alpha * k * (x * y) + k * k * (y * y);
    }
    SquareNonNegative(sq); SquareNonNegative(y);
    MulNonNegative(alpha * beta - k * k, y * y);
    if e < 0.0 { assert alpha * e < 0.0; }
  }

  /** The mean of Shape over [u, v], in closed form. */
  function MeanShape(alpha: real, beta: real, u: real, v: real): real {
    alpha + (3.0 - 2.0 * alpha - beta) * (u + v) + (alpha + beta - 2.0) * (u * u + u * v + v * v)
  }

  /** Simpson's rule is exact for the quadratic Shape. */
  lemma SimpsonIdentity(alpha: real, beta: real, u: real, v: real)
    ensures 6.0 * MeanShape(alpha, beta, u, v)
            == Shape(alpha, beta, u) + 4.0 * Shape(alpha, beta, (u + v) / 2.0) + Shape(alpha, beta, v)
  {
  }

  lemma MeanShapeNonNegative(alpha: real, beta: real, u: real, v: real)
    requires alpha >= 0.0 && beta >= 0.0 && alpha * alpha + beta * beta <= 9.0
    requires 0.0 <= u && u <= v && v <= 1.0
    ensures MeanShape(alpha, beta, u, v) >= 0.0
  {
    ShapeNonNegative(alpha, beta, u);
    ShapeNonNegative(alpha, beta, (u + v) / 2.0);
    ShapeNonNegative(alpha, beta, v);
    SimpsonIdentity(alpha, beta, u, v);
  }

  /** The mean slope of a cubic over [u, v]. */
  function MeanSlope(c1: real, c2: real, c3: real, u: real, v: real): real {
    c1 + c2 * (u + v) + c3 * (u * u + u * v + v * v)
  }

  lemma HornerRise(c0: real, c1: real, c2: real, c3: real, u: real, v: real)
    ensures Horner(c0, c1, c2, c3, v) - Horner(c0, c1, c2, c3, u) == (v - u) * MeanSlope(c1, c2, c3, u, v)
  {
  }

  lemma RisesWithMeanSlope(c0: real, c1: real, c2: real, c3: real, u: real, v: real)
    requires u <= v && MeanSlope(c1, c2, c3, u, v) >= 0.0
    ensures Horner(c0, c1, c2, c3, u) <= Horner(c0, c1, c2, c3, v)
  {
    var rise := Horner(c0, c1, c2, c3, v) - Horner(c0, c1, c2, c3, u);
    assert rise >= 0.0 by {
      HornerRise(c0, c1, c2, c3, u, v);
      MulNonNegative(v - u, MeanSlope(c1, c2, c3, u, v));
    }
  }

  lemma MeanSlopeScales(rise: real, alpha: real, beta: real, u: real, v: real)
    ensures MeanSlope(alpha * rise, (3.0 - 2.0 * alpha - beta) * rise, (alpha + beta - 2.0) * rise, u, v)
            == rise * MeanShape(alpha, beta, u, v)
  {
  }

  lemma MeanSlopeNonNegative(y0: real, y1: real, g0: real, g1: real, alpha: real, beta: real, u: real, v: real)
    requires alpha >= 0.0 && beta >= 0.0 && alpha * alpha + beta * beta <= 9.0
    requires y0 <= y1 && g0 == alpha * (y1 - y0) && g1 == beta * (y1 - y0)
    requires 0.0 <= u && u <= v && v <= 1.0
    ensures MeanSlope(g0, -3.0 * y0 + 3.0 * y1 - 2.0 * g0 - g1, 2.0 * y0 - 2.0 * y1 + g0 + g1, u, v) >= 0.0
  {
    var rise := y1 - y0;
    MeanShapeNonNegative(alpha, beta, u, v);
    MulNonNegative(rise, MeanShape(alpha, beta, u, v));
    MeanSlopeScales(rise, alpha, beta, u, v);
    assert -3.0 * y0 + 3.0 * y1 - 2.0 * g0 - g1 == (3.0 - 2.0 * alpha - beta) * rise;
    assert 2.0 * y0 - 2.0 * y1 + g0 + g1 == (alpha + beta - 2.0) * rise;
  }

  /** A segment with limited slopes rises between any two abscissas in [0, 1]. */
  lemma SegmentMonotone(y0: real, y1: real, g0: real, g1: real, alpha: real, beta: real, u: real, v: real)
    requires alpha >= 0.0 && beta >= 0.0 && alpha * alpha + beta * beta <= 9.0
    requires y0 <= y1 && g0 == alpha * (y1 - y0) && g1 == beta * (y1 - y0)
    requires 0.0 <= u && u <= v && v <= 1.0
    ensures Hermite(y0, y1, g0, g1, u) <= Hermite(y0, y1, g0, g1, v)
  {
    MeanSlopeNonNegative(y0, y1, g0, g1, alpha, beta, u, v);
    RisesWithMeanSlope(y0, g0, -3.0 * y0 + 3.0 * y1 - 2.0 * g0 - g1, 2.0 * y0 - 2.0 * y1 + g0 + g1, u, v);
  }

  /** Three abscissas at once, ends included. */
  lemma SegmentChain(y0: real, y1: real, g0: real, g1: real, alpha: real, beta: real, u: real, v: real)
    requires alpha >= 0.0 && beta >= 0.0 && alpha * alpha + beta * beta <= 9.0
    requires y0 <= y1 && g0 == alpha * (y1 - y0) && g1 == beta * (y1 - y0)
    requires 0.0 <= u && u <= v && v <= 1.0
    ensures y0 <= Hermite(y0, y1, g0, g1, u)
    ensures Hermite(y0, y1, g0, g1, u) <= Hermite(y0, y1, g0, g1, v)
    ensures Hermite(y0, y1, g0, g1, v) <= y1
  {
    SegmentMonotone(y0, y1, g0, g1, alpha, beta, 0.0, u);
    SegmentMonotone(y0, y1, g0, g1, alpha, beta, u, v);
    SegmentMonotone(y0, y1, g0, g1, alpha, beta, v, 1.0);
    SegmentEnds(y0, y1, g0, g1);
  }

  lemma SegmentEnds(y0: real, y1: real, g0: real, g1: real)
    ensures Hermite(y0, y1, g0, g1, 0.0) == y0
    ensures Hermite(y0, y1, g0, g1, 1.0) == y1
  {
  }
}
