/** The Brent search for the scene colour temperature, over the reals. */
module Brent {
  import opened Options

  const MIN_CCT: real := 1500.0
  const MAX_CCT: real := 10000.0
  const START_CCT: real := 0.5 * (MIN_CCT + MAX_CCT)
  const GOLDEN_STEP: real := 0.3819660112501051
  const TOLERANCE: real := 0.00001

  function Abs(x: real): real { if x < 0.0 then -x else x }

  function Tolerance(best: real): (t: real)
    ensures t > 0.0
  {
    TOLERANCE * Abs(best) + TOLERANCE
  }

  /** The magnitude with the sign of `sign`; a zero has the sign the caller says. */
  function CopySign(magnitude: real, sign: real, negativeZero: bool): real
  {
    if sign > 0.0 || (sign == 0.0 && !negativeZero) then magnitude else -magnitude
  }

  /** f falls strictly up to m and rises strictly after it. */
  ghost predicate StrictlyUnimodal(f: real -> real, m: real)
  {
    && MIN_CCT <= m <= MAX_CCT
    && (forall x, y :: MIN_CCT <= x < y <= m ==> f(x) > f(y))
    && (forall x, y :: m <= x < y <= MAX_CCT ==> f(x) < f(y))
  }

  /** A step whose trial stays two tolerances inside the bracket, or a bare
      tolerance towards a side that is more than two tolerances away. */
  ghost predicate Safe(lower: real, best: real, upper: real, tolerance: real, step: real)
  {
    || (step == tolerance && best + 2.0 * tolerance < upper)
    || (step == -tolerance && lower < best - 2.0 * tolerance)
    || lower + 2.0 * tolerance <= best + step <= upper - 2.0 * tolerance
  }

  lemma QuotientBetween(n: real, d: real, lo: real, hi: real)
    requires d > 0.0
    ensures d * lo < n < d * hi <==> lo < n / d < hi
  {
    var q := n / d;
    assert q * d == n;
    assert (q - lo) * d == n - d * lo && (hi - q) * d == d * hi - n;
    Positive(q - lo, d);
    Positive(hi - q, d);
  }

  lemma Positive(p: real, d: real)
    requires d > 0.0
    ensures p * d > 0.0 <==> p > 0.0
  {
  }

  lemma QuotientBelow(n: real, d: real, bound: real)
    requires d > 0.0
    ensures Abs(n) < Abs(0.5 * d * bound) <==> Abs(n / d) < 0.5 * Abs(bound)
  {
    var h := 0.5 * Abs(bound);
    assert Abs(0.5 * d * bound) == d * h by {
      assert 0.5 * d * bound == d * (0.5 * bound);
      Positive(bound, d);
    }
    assert d * -h == -(d * h);
    QuotientBetween(n, d, -h, h);
  }

  /** The comparisons that let a quotient be used, made without dividing. */
  predicate Usable(n: real, d: real, lo: real, hi: real, oldStep: real)
  {
    !(Abs(n) >= Abs(0.5 * d * oldStep) || n <= d * lo || n >= d * hi)
  }

  /** A quotient is usable exactly when it is less than half the step before last and strictly between the bounds. */
  lemma UsableQuotient(n: real, d: real, lo: real, hi: real, oldStep: real)
    requires d > 0.0
    ensures Usable(n, d, lo, hi, oldStep) <==> Abs(n / d) < 0.5 * Abs(oldStep) && lo < n / d < hi
  {
    QuotientBetween(n, d, lo, hi);
    QuotientBelow(n, d, oldStep);
  }

  predicate IsSmall(lower: real, best: real, upper: real, tolerance: real)
  {
    Abs(best - 0.5 * (lower + upper)) <= 2.0 * tolerance - 0.5 * (upper - lower)
  }

  lemma SmallExactly(lower: real, best: real, upper: real, tolerance: real)
    ensures IsSmall(lower, best, upper, tolerance) <==>
      best - lower <= 2.0 * tolerance && upper - best <= 2.0 * tolerance
  {
  }

  /** A step whose trial would come within two tolerances of an end becomes a bare tolerance. */
  function KeptOff(lower: real, best: real, upper: real, tolerance: real, midpoint: real, step: real): (kept: real)
    requires lower < best < upper && tolerance > 0.0 && midpoint == 0.5 * (lower + upper)
    requires best - lower > 2.0 * tolerance || upper - best > 2.0 * tolerance
    ensures Safe(lower, best, upper, tolerance, kept) && (kept == step || Abs(kept) == tolerance)
  {
    var trial := best + step;
    if trial - lower < 2.0 * tolerance || upper - trial < 2.0 * tolerance
    then CopySign(tolerance, midpoint - best, false) else step
  }

  // The parabola through (x, fx), (w, fw) and (v, fv): its vertex is Numerator / Denominator away from x.

  function Numerator(x: real, w: real, v: real, fx: real, fw: real, fv: real): real
  {
    var a := (x - w) * (fx - fv);
    var b := (x - v) * (fx - fw);
    -((x - v) * b - (x - w) * a)
  }

  function Denominator(x: real, w: real, v: real, fx: real, fw: real, fv: real): real
  {
    2.0 * ((x - v) * (fx - fw) - (x - w) * (fx - fv))
  }

  function Parabola(p: real, q: real, r: real, x: real): real
  {
    p * x * x + q * x + r
  }

  function Derivative(p: real, q: real, x: real): real
  {
    2.0 * p * x + q
  }

  /** The step goes to the stationary point of every parabola through the three points. */
  lemma StepToStationaryPoint(p: real, q: real, r: real, x: real, w: real, v: real, fx: real, fw: real, fv: real,
                              n: real, d: real)
    requires fx == Parabola(p, q, r, x) && fw == Parabola(p, q, r, w) && fv == Parabola(p, q, r, v)
    requires n == Numerator(x, w, v, fx, fw, fv) && d == Denominator(x, w, v, fx, fw, fv) && d != 0.0
    ensures 2.0 * p * (x + n / d) + q == 0.0
  {
    var k := Factor(x, w, v);
    assert d == 2.0 * k * p && n == -(k * (2.0 * p * x + q)) by {
      VertexForms(p, q, r, x, w, v);
    }
    Cancel(k, p, x, q, n, d);
  }

  ghost function Factor(x: real, w: real, v: real): real
  {
    (x - v) * (x - w) * (w - v)
  }

  /** Both terms of the step share the factor that vanishes when two of the points coincide. */
  lemma VertexForms(p: real, q: real, r: real, x: real, w: real, v: real)
    ensures var k := Factor(x, w, v);
            var fx, fw, fv := Parabola(p, q, r, x), Parabola(p, q, r, w), Parabola(p, q, r, v);
            && Denominator(x, w, v, fx, fw, fv) == 2.0 * k * p
            && Numerator(x, w, v, fx, fw, fv) == -(k * (2.0 * p * x + q))
  {
    var fx, fw, fv := Parabola(p, q, r, x), Parabola(p, q, r, w), Parabola(p, q, r, v);
    Slope(p, q, r, x, w);
    Slope(p, q, r, x, v);
    var slopeW, slopeV := p * (x + w) + q, p * (x + v) + q;
    Factored(x - w, x - v, slopeW, slopeV, fx - fw, fx - fv);
    SlopeDifferences(p, q, x, w, v);
    var area := (x - v) * (x - w);
    assert area * (p * (w - v)) == area * (w - v) * p;
    assert area * ((w - v) * (2.0 * p * x + q)) == area * (w - v) * (2.0 * p * x + q);
  }

  lemma Factored(dw: real, dv: real, slopeW: real, slopeV: real, fw: real, fv: real)
    requires fw == dw * slopeW && fv == dv * slopeV
    ensures 2.0 * (dv * fw - dw * fv) == 2.0 * (dv * dw * (slopeW - slopeV))
    ensures -(dv * (dv * fw) - dw * (dw * fv)) == -(dv * dw * (dv * slopeW - dw * slopeV))
  {
  }

  lemma SlopeDifferences(p: real, q: real, x: real, w: real, v: real)
    ensures (p * (x + w) + q) - (p * (x + v) + q) == p * (w - v)
    ensures (x - v) * (p * (x + w) + q) - (x - w) * (p * (x + v) + q) == (w - v) * (2.0 * p * x + q)
  {
  }

  lemma Slope(p: real, q: real, r: real, x: real, y: real)
    ensures Parabola(p, q, r, x) - Parabola(p, q, r, y) == (x - y) * (p * (x + y) + q)
  {
  }

  lemma Cancel(k: real, p: real, x: real, q: real, n: real, d: real)
    requires d != 0.0 && d == 2.0 * k * p && n == -(k * (2.0 * p * x + q))
    ensures 2.0 * p * (x + n / d) + q == 0.0
  {
    var s := n / d;
    assert s * d == n;
    assert k * (2.0 * p * s) == s * d;
    assert k * (2.0 * p * (x + s) + q) == 0.0;
    assert k != 0.0;
  }

  /** A step shorter than the tolerance is stretched to it. */
  function Stretched(step: real, tolerance: real, negativeZero: bool): real
  {
    if Abs(step) >= tolerance then step else CopySign(tolerance, step, negativeZero)
  }

  /** Whatever step was chosen, the trial made from it is a new point strictly inside the bracket. */
  lemma TrialInside(lower: real, best: real, upper: real, tolerance: real, step: real, negativeZero: bool)
    requires lower < best < upper && tolerance > 0.0
    requires best - lower > 2.0 * tolerance || upper - best > 2.0 * tolerance
    requires Safe(lower, best, upper, tolerance, step) ||
             step == GOLDEN_STEP * (if best < 0.5 * (lower + upper) then upper - best else lower - best)
    ensures lower < best + Stretched(step, tolerance, negativeZero) < upper &&
      Stretched(step, tolerance, negativeZero) != 0.0
  {
  }

  /** The points tried are all different and none is better than the best; the best is the
      only one inside the bracket, whose ends were tried or are the ends of the search interval. */
  ghost predicate Bracketed(f: real -> real, best: real, lower: real, upper: real, evaluated: seq<real>)
  {
    && MIN_CCT <= lower < best < upper <= MAX_CCT && best in evaluated
    && evaluated[0] == START_CCT && Different(evaluated)
    && (forall x :: x in evaluated ==> MIN_CCT < x < MAX_CCT && f(best) <= f(x))
    && (forall x :: x in evaluated ==> x == best || x <= lower || upper <= x)
    && (lower == MIN_CCT || lower in evaluated) && (upper == MAX_CCT || upper in evaluated)
  }

  ghost predicate Different(points: seq<real>)
  {
    forall i, j :: 0 <= i < j < |points| ==> points[i] != points[j]
  }

  lemma DifferentSnoc(points: seq<real>, x: real)
    requires Different(points) && x !in points
    ensures Different(points + [x])
  {
  }

  /** A new point inside the bracket becomes the best, with the old best as an end, or an end itself. */
  lemma StillBracketed(f: real -> real, best: real, lower: real, upper: real, evaluated: seq<real>, trial: real)
    requires Bracketed(f, best, lower, upper, evaluated) && lower < trial < upper && trial != best
    ensures f(trial) <= f(best) ==>
      Bracketed(f, trial, if trial < best then lower else best, if trial < best then best else upper,
                evaluated + [trial])
    ensures f(trial) > f(best) ==>
      Bracketed(f, best, if trial < best then trial else lower, if trial < best then upper else trial,
                evaluated + [trial])
  {
    DifferentSnoc(evaluated, trial);
    assert forall x :: x in evaluated + [trial] <==> x in evaluated || x == trial;
  }

  /** Beside the best point, the search keeps the second and the third best of the points it
      has tried, as soon as it has tried so many. */
  ghost predicate RunnersUp(f: real -> real, best: real, previous: real, previous2: real, evaluated: seq<real>)
  {
    && previous in evaluated && previous2 in evaluated
    && (|evaluated| == 1 ==> previous == previous2 == best)
    && (|evaluated| == 2 ==> previous2 == best || previous2 == previous)
    && (|evaluated| >= 2 ==> previous != best && forall x :: x in evaluated ==> x == best || f(previous) <= f(x))
    && (|evaluated| >= 3 ==>
          && previous2 != best && previous2 != previous
          && forall x :: x in evaluated ==> x == best || x == previous || f(previous2) <= f(x))
  }

  lemma RunnersUpAfterAccept(f: real -> real, best: real, previous: real, previous2: real, evaluated: seq<real>,
                             trial: real)
    requires RunnersUp(f, best, previous, previous2, evaluated) && best in evaluated && trial !in evaluated
    requires (forall x :: x in evaluated ==> f(best) <= f(x)) && f(trial) <= f(best)
    ensures RunnersUp(f, trial, best, previous, evaluated + [trial])
  {
    assert forall x :: x in evaluated + [trial] <==> x in evaluated || x == trial;
  }

  lemma RunnersUpAfterReject(f: real -> real, best: real, previous: real, previous2: real, evaluated: seq<real>,
                             trial: real)
    requires RunnersUp(f, best, previous, previous2, evaluated) && best in evaluated && trial !in evaluated
    requires (forall x :: x in evaluated ==> f(best) <= f(x)) && f(trial) > f(best)
    ensures if f(trial) <= f(previous) || previous == best then RunnersUp(f, best, trial, previous, evaluated + [trial])
            else if f(trial) <= f(previous2) || previous2 == best || previous2 == previous
            then RunnersUp(f, best, previous, trial, evaluated + [trial])
            else RunnersUp(f, best, previous, previous2, evaluated + [trial])
  {
    assert forall x :: x in evaluated + [trial] <==> x in evaluated || x == trial;
  }

  /** A point between the second best and the best is at least as near to the best. */
  ghost predicate Near(best: real, previous: real, point: real)
  {
    previous < point < best ==> best - point <= point - previous
  }

  // ---------------------------------------------------------------- the vertex is a minimum

  /** The parabola through three points falls on the side of the lower one: comparing two of
      its values tells the sign of its slope between them. */
  lemma SlopeSign(p: real, q: real, r: real, x: real, y: real)
    requires x < y
    ensures Parabola(p, q, r, x) <= Parabola(p, q, r, y) <==> p * (x + y) + q >= 0.0
  {
    Slope(p, q, r, x, y);
    var g := p * (x + y) + q;
    assert (y - x) * g == -((x - y) * g);
    assert g >= 0.0 ==> (y - x) * g >= 0.0;
    assert g < 0.0 ==> (y - x) * -g > 0.0;
  }

  /** A positive denominator means that the parabola opens upwards exactly when the factor is positive. */
  lemma OpensUpwards(p: real, k: real, d: real)
    requires d == 2.0 * k * p && d > 0.0
    ensures p > 0.0 <==> k > 0.0
    ensures p < 0.0 <==> k < 0.0
  {
    assert k > 0.0 && p < 0.0 ==> k * -p > 0.0;
    assert k < 0.0 && p > 0.0 ==> -k * p > 0.0;
  }

  /** The signs of the factor: positive for three of the six orders of the points. */
  lemma FactorSign(x: real, w: real, v: real)
    requires x != w && x != v && w != v
    ensures Factor(x, w, v) > 0.0 <==> v < w < x || w < x < v || x < v < w
    ensures Factor(x, w, v) != 0.0
  {
    ProductSign(x - v, x - w);
    ProductSign((x - v) * (x - w), w - v);
  }

  lemma ProductSign(a: real, b: real)
    requires a != 0.0 && b != 0.0
    ensures a * b != 0.0 && (a * b > 0.0 <==> (a > 0.0 <==> b > 0.0))
  {
    assert a > 0.0 && b < 0.0 ==> a * -b > 0.0;
    assert a < 0.0 && b > 0.0 ==> -a * b > 0.0;
    assert a < 0.0 && b < 0.0 ==> -a * -b > 0.0;
  }

  /** A parabola that opens upwards has its minimum where its slope is zero. */
  lemma StationaryIsMinimum(p: real, q: real, r: real, s: real, t: real)
    requires p > 0.0 && 2.0 * p * s + q == 0.0
    ensures Parabola(p, q, r, s) <= Parabola(p, q, r, t)
  {
    Slope(p, q, r, t, s);
    var u := t - s;
    assert p * (t + s) + q == p * u;
    assert u * (p * u) == p * (u * u);
    assert u * u >= 0.0;
  }

  /** The stationary point of a parabola that opens downwards is not before the middle of two points that rise. */
  lemma MaximumIsBeyond(p: real, q: real, r: real, w: real, v: real, s: real)
    requires p < 0.0 && w < v && Parabola(p, q, r, w) <= Parabola(p, q, r, v) && 2.0 * p * s + q == 0.0
    ensures s > w
  {
    SlopeSign(p, q, r, w, v);
    var u := w + v - 2.0 * s;
    assert p * u >= 0.0;
    assert u > 0.0 ==> -p * u > 0.0;
  }

  /** A point no higher than the points on both sides of it is not on a parabola that opens downwards. */
  lemma LowMiddle(p: real, q: real, r: real, v: real, x: real, w: real)
    requires v < x < w && Parabola(p, q, r, x) <= Parabola(p, q, r, v) && Parabola(p, q, r, x) <= Parabola(p, q, r, w)
    ensures p >= 0.0
  {
    SlopeSign(p, q, r, x, w);
    Slope(p, q, r, x, v);
    var g := p * (x + v) + q;
    assert g > 0.0 ==> (x - v) * g > 0.0;
    assert p * (w - v) >= 0.0;
    assert p < 0.0 ==> -p * (w - v) > 0.0;
  }

  /** The vertex of a parabola that opens downwards is not above the middle of two points that do not fall. */
  lemma MaximumIsBelow(p: real, q: real, r: real, w: real, x: real, s: real)
    requires p < 0.0 && w < x && Parabola(p, q, r, x) <= Parabola(p, q, r, w) && 2.0 * p * s + q == 0.0
    ensures 2.0 * s <= w + x
  {
    Slope(p, q, r, x, w);
    var g, u := p * (x + w) + q, w + x - 2.0 * s;
    assert g > 0.0 ==> (x - w) * g > 0.0;
    assert p * u == g;
    assert u < 0.0 ==> -p * -u > 0.0;
  }

  /** The vertex of a parabola that opens upwards is at least as near to the lower of two points. */
  lemma NearerVertex(p: real, q: real, r: real, w: real, x: real, s: real)
    requires p > 0.0 && w < x && Parabola(p, q, r, x) <= Parabola(p, q, r, w) && 2.0 * p * s + q == 0.0
    ensures x - s <= s - w
  {
    Slope(p, q, r, x, w);
    var g, u := p * (x + w) + q, w + x - 2.0 * s;
    assert g > 0.0 ==> (x - w) * g > 0.0;
    assert p * u == g;
    assert u > 0.0 ==> p * u > 0.0;
  }

  /** Among the recorded points, the runners-up lie outside the bracket, the second best no higher than the third. */
  lemma ThreePoints(f: real -> real, x: real, w: real, v: real, lower: real, upper: real, evaluated: seq<real>)
    requires Tracked(f, x, w, v, lower, upper, evaluated) && x != w && x != v && w != v
    ensures f(x) <= f(w) <= f(v) && (x < w ==> upper <= w) && (v < x ==> v <= lower) && (w < v ==> Near(x, w, v))
  {
  }

  /** The parabola to whose vertex a usable step leads opens upwards. */
  lemma UsableOpensUpwards(f: real -> real, x: real, w: real, v: real, lower: real, upper: real, evaluated: seq<real>,
                           p: real, q: real, r: real, d: real, s: real)
    requires Tracked(f, x, w, v, lower, upper, evaluated)
    requires f(x) == Parabola(p, q, r, x) && f(w) == Parabola(p, q, r, w) && f(v) == Parabola(p, q, r, v)
    requires d == 2.0 * Factor(x, w, v) * p && d > 0.0 && 2.0 * p * s + q == 0.0 && lower < s < upper
    ensures p > 0.0
  {
    NoTwoCoincide(x, w, v, p, d);
    ThreePoints(f, x, w, v, lower, upper, evaluated);
    FactorDecides(x, w, v, p, d);
    UpwardsAlways(p, q, r, x, w, v, lower, upper, s);
  }

  /** With a positive denominator the order of the points decides how the parabola opens. */
  lemma FactorDecides(x: real, w: real, v: real, p: real, d: real)
    requires d == 2.0 * Factor(x, w, v) * p && d > 0.0 && x != w && x != v && w != v
    ensures p > 0.0 <==> v < w < x || w < x < v || x < v < w
  {
    OpensUpwards(p, Factor(x, w, v), d);
    FactorSign(x, w, v);
  }

  lemma NoTwoCoincide(x: real, w: real, v: real, p: real, d: real)
    requires d == 2.0 * Factor(x, w, v) * p && d > 0.0
    ensures x != w && x != v && w != v && p != 0.0
  {
    assert x == w || x == v || w == v ==> Factor(x, w, v) == 0.0;
  }

  /** Three orders of the points make the factor positive; in each of the others the vertex of
      a parabola that opens downwards is outside the bracket, or there is no such parabola. */
  lemma UpwardsAlways(p: real, q: real, r: real, x: real, w: real, v: real, lower: real, upper: real, s: real)
    requires x != w && x != v && w != v && p != 0.0 && 2.0 * p * s + q == 0.0 && lower < s < upper
    requires p > 0.0 <==> v < w < x || w < x < v || x < v < w
    requires Parabola(p, q, r, x) <= Parabola(p, q, r, w) <= Parabola(p, q, r, v)
    requires (x < w ==> upper <= w) && (v < x ==> v <= lower) && (w < v ==> Near(x, w, v))
    ensures p > 0.0
  {
    if v < x < w {
      LowMiddle(p, q, r, v, x, w);
    } else if x < w < v && p < 0.0 {
      MaximumIsBeyond(p, q, r, w, v, s);
    } else if w < v < x && p < 0.0 {
      MaximumIsBelow(p, q, r, w, x, s);
    }
  }

  /** In every state of the search a usable vertex is the minimum of the parabola through the
      recorded points. */
  lemma UsableVertexIsMinimum(f: real -> real, x: real, w: real, v: real, lower: real, upper: real,
                              evaluated: seq<real>, p: real, q: real, r: real, n: real, d: real, oldStep: real)
    requires Tracked(f, x, w, v, lower, upper, evaluated)
    requires f(x) == Parabola(p, q, r, x) && f(w) == Parabola(p, q, r, w) && f(v) == Parabola(p, q, r, v)
    requires n == Numerator(x, w, v, f(x), f(w), f(v)) && d == Denominator(x, w, v, f(x), f(w), f(v))
    requires d > 0.0 && Usable(n, d, lower - x, upper - x, oldStep)
    ensures p > 0.0 && Derivative(p, q, x + n / d) == 0.0
    ensures forall t :: Parabola(p, q, r, x + n / d) <= Parabola(p, q, r, t)
  {
    var s := x + n / d;
    VertexForms(p, q, r, x, w, v);
    StepToStationaryPoint(p, q, r, x, w, v, f(x), f(w), f(v), n, d);
    UsableQuotient(n, d, lower - x, upper - x, oldStep);
    UsableOpensUpwards(f, x, w, v, lower, upper, evaluated, p, q, r, d, s);
    forall t ensures Parabola(p, q, r, s) <= Parabola(p, q, r, t) {
      StationaryIsMinimum(p, q, r, s, t);
    }
  }

  /** Through any three different points there is a parabola. */
  lemma Through(x: real, w: real, v: real, fx: real, fw: real, fv: real) returns (p: real, q: real, r: real)
    requires x != w && x != v && w != v
    ensures Parabola(p, q, r, x) == fx && Parabola(p, q, r, w) == fw && Parabola(p, q, r, v) == fv
  {
    var a, b := (fx - fw) / (x - w), (fx - fv) / (x - v);
    assert a * (x - w) == fx - fw && b * (x - v) == fx - fv;
    p := (a - b) / (w - v);
    assert p * (w - v) == a - b;
    q := a - p * (x + w);
    r := fx - p * x * x - q * x;
    Slope(p, q, r, x, w);
    Slope(p, q, r, x, v);
    assert p * (x + v) + q == a - p * (w - v);
  }

  /** A denominator other than zero tells the points apart. */
  lemma PointsDiffer(f: real -> real, x: real, w: real, v: real)
    requires Denominator(x, w, v, f(x), f(w), f(v)) != 0.0
    ensures x != w && x != v && w != v
  {
  }

  /** A usable vertex between the second best point and the best is at least as near to the best. */
  lemma VertexIsNear(f: real -> real, x: real, w: real, v: real, lower: real, upper: real, evaluated: seq<real>,
                     n: real, d: real, oldStep: real)
    requires Tracked(f, x, w, v, lower, upper, evaluated)
    requires n == Numerator(x, w, v, f(x), f(w), f(v)) && d == Denominator(x, w, v, f(x), f(w), f(v))
    requires d > 0.0 && Usable(n, d, lower - x, upper - x, oldStep)
    ensures Near(x, w, x + n / d)
  {
    PointsDiffer(f, x, w, v);
    var p, q, r := Through(x, w, v, f(x), f(w), f(v));
    UsableVertexIsMinimum(f, x, w, v, lower, upper, evaluated, p, q, r, n, d, oldStep);
    ThreePoints(f, x, w, v, lower, upper, evaluated);
    MinimumIsNear(p, q, r, x, w, f(x), f(w), x + n / d);
  }

  lemma MinimumIsNear(p: real, q: real, r: real, x: real, w: real, fx: real, fw: real, s: real)
    requires Parabola(p, q, r, x) == fx <= fw == Parabola(p, q, r, w) && p > 0.0 && Derivative(p, q, s) == 0.0
    ensures Near(x, w, s)
  {
    if w < x {
      NearerVertex(p, q, r, w, x, s);
    }
  }

  /** Both step rules try a point that is near: the golden section, a bare tolerance, or a near vertex. */
  lemma TrialIsNear(lower: real, best: real, upper: real, previous: real, tolerance: real, vertex: real, step: real,
                    negativeZero: bool)
    requires lower < best < upper && tolerance > 0.0
    requires best - lower > 2.0 * tolerance || upper - best > 2.0 * tolerance
    requires previous < best ==> previous <= lower
    requires var midpoint := 0.5 * (lower + upper);
      || (step == KeptOff(lower, best, upper, tolerance, midpoint, vertex) && Near(best, previous, best + vertex))
      || step == GOLDEN_STEP * (if best < midpoint then upper - best else lower - best)
    ensures Near(best, previous, best + Stretched(step, tolerance, negativeZero))
  {
  }

  ghost predicate IsError(f: real -> real, x: real, e: real) { e == f(x) }

  /** What the recorded points are among all the points tried. */
  ghost predicate Tracked(f: real -> real, best: real, previous: real, previous2: real, lower: real, upper: real,
                          evaluated: seq<real>)
  {
    && Bracketed(f, best, lower, upper, evaluated)
    && RunnersUp(f, best, previous, previous2, evaluated)
    && Near(best, previous, previous2)
  }

  lemma TrackedAfterAccept(f: real -> real, best: real, previous: real, previous2: real, lower: real, upper: real,
                           evaluated: seq<real>, trial: real)
    requires Tracked(f, best, previous, previous2, lower, upper, evaluated)
    requires lower < trial < upper && trial != best && f(trial) <= f(best)
    ensures Tracked(f, trial, best, previous, if trial < best then lower else best,
                    if trial < best then best else upper,
                    evaluated + [trial])
  {
    StillBracketed(f, best, lower, upper, evaluated, trial);
    RunnersUpAfterAccept(f, best, previous, previous2, evaluated, trial);
  }

  lemma TrackedAfterReject(f: real -> real, best: real, previous: real, previous2: real, lower: real, upper: real,
                           evaluated: seq<real>, trial: real)
    requires Tracked(f, best, previous, previous2, lower, upper, evaluated)
    requires lower < trial < upper && trial != best && f(trial) > f(best) && Near(best, previous, trial)
    ensures var lower', upper' := if trial < best then trial else lower, if trial < best then upper else trial;
      if f(trial) <= f(previous) || previous == best
      then Tracked(f, best, trial, previous, lower', upper', evaluated + [trial])
      else if f(trial) <= f(previous2) || previous2 == best || previous2 == previous
      then Tracked(f, best, previous, trial, lower', upper', evaluated + [trial])
      else Tracked(f, best, previous, previous2, lower', upper', evaluated + [trial])
  {
    StillBracketed(f, best, lower, upper, evaluated, trial);
    RunnersUpAfterReject(f, best, previous, previous2, evaluated, trial);
  }

  // ---------------------------------------------------------------- a turn, from outside

  /** What a search remembers between two turns, apart from the errors of its points. */
  datatype Snapshot = Snapshot(lower: real, best: real, upper: real, previous: real, previous2: real, step: real,
                               previousStep: real)

  /** How near two points may come. */
  function Resolution(s: Snapshot): (t: real)
    ensures t > 0.0
  {
    0.00001 * (Abs(s.best) + 1.0)
  }

  /** Both ends of the bracket are within two tolerances of the best point. */
  predicate Narrow(s: Snapshot)
  {
    s.best - s.lower <= 2.0 * Resolution(s) && s.upper - s.best <= 2.0 * Resolution(s)
  }

  /** The larger side of the bracket, as a step from the best point; the lower side when they are equal. */
  function LargerSide(s: Snapshot): (side: real)
    ensures s.lower < s.best < s.upper ==> Abs(side) >= s.upper - s.best && Abs(side) >= s.best - s.lower
  {
    if s.upper - s.best > s.best - s.lower then s.upper - s.best else s.lower - s.best
  }

  /** The step n / d is defined, comes after a step longer than a tolerance, is less than half of that one, and
      stays inside the bracket. */
  ghost predicate QuotientUsed(s: Snapshot, n: real, d: real, toVertex: real)
  {
    && Abs(s.previousStep) > Resolution(s) && d > 0.0 && toVertex * d == n
    && Abs(toVertex) < 0.5 * Abs(s.previousStep) && s.lower < s.best + toVertex < s.upper
  }

  ghost predicate GoldenUsed(s: Snapshot, n: real, d: real)
  {
    forall toVertex :: !QuotientUsed(s, n, d, toVertex)
  }

  /** At least two tolerances from both ends. */
  predicate Clear(s: Snapshot, x: real)
  {
    x - s.lower >= 2.0 * Resolution(s) && s.upper - x >= 2.0 * Resolution(s)
  }

  /** Which step is recorded: the golden section of the larger side, the step to the vertex, or, for a vertex too
      near an end, one tolerance towards the middle of the bracket. */
  ghost predicate StepRule(s: Snapshot, n: real, d: real, step: real)
  {
    && (GoldenUsed(s, n, d) ==> step == 0.3819660112501051 * LargerSide(s))
    && forall toVertex :: QuotientUsed(s, n, d, toVertex) ==>
         step == if Clear(s, s.best + toVertex) then toVertex
                 else if 2.0 * s.best <= s.lower + s.upper then Resolution(s)
                 else -Resolution(s)
  }

  /** Which point is tried. Where the golden section of the larger side is at least a tolerance, the point that
      divides that side so. Where the vertex is used, at least a tolerance away and clear of the ends, the vertex.
      Otherwise the point one tolerance away: towards the larger side, or in the direction of the vertex, or, for a
      vertex too near an end, towards the middle. */
  ghost predicate TrialRule(s: Snapshot, n: real, d: real, negativeZero: bool, trial: real)
  {
    var t := Resolution(s);
    && (GoldenUsed(s, n, d) ==>
          var golden := 0.3819660112501051 * LargerSide(s);
          trial == s.best + if Abs(golden) >= t then golden else if LargerSide(s) > 0.0 then t else -t)
    && forall toVertex :: QuotientUsed(s, n, d, toVertex) ==>
         trial == s.best +
           if !Clear(s, s.best + toVertex) then (if 2.0 * s.best <= s.lower + s.upper then t else -t)
           else if Abs(toVertex) >= t then toVertex
           else if toVertex > 0.0 || (toVertex == 0.0 && !negativeZero) then t else -t
  }

  /** What is recorded and tried next, when the vertex is n / d away. */
  ghost predicate Chosen(s: Snapshot, n: real, d: real, negativeZero: bool, step: real, previousStep: real, trial: real)
  {
    && !Narrow(s) && StepRule(s, n, d, step) && TrialRule(s, n, d, negativeZero, trial)
    && previousStep == if GoldenUsed(s, n, d) then LargerSide(s) else s.step
  }

  /** What one tried point changes: a better one becomes the best and the old best an end of the bracket; a worse
      one becomes an end, and a runner-up if it is better than one. */
  ghost predicate Moves(f: real -> real, s: Snapshot, trial: real, s': Snapshot)
  {
    if f(trial) <= f(s.best) then
      && s'.best == trial && s'.previous == s.best && s'.previous2 == s.previous
      && s'.lower == (if trial < s.best then s.lower else s.best)
      && s'.upper == (if trial < s.best then s.best else s.upper)
    else
      && s'.best == s.best
      && s'.lower == (if trial < s.best then trial else s.lower)
      && s'.upper == (if trial < s.best then s.upper else trial)
      && if f(trial) <= f(s.previous) || s.previous == s.best then s'.previous == trial && s'.previous2 == s.previous
         else
           s'.previous == s.previous &&
           s'.previous2 == if f(trial) <= f(s.previous2) || s.previous2 == s.best || s.previous2 == s.previous
                           then trial else s.previous2
  }

  /** One turn of the search for the minimum of f: the vertex is that of the parabola through the three points. */
  ghost predicate Turn(f: real -> real, s: Snapshot, negativeZero: bool, trial: real, s': Snapshot)
  {
    && Chosen(s, Numerator(s.best, s.previous, s.previous2, f(s.best), f(s.previous), f(s.previous2)),
              Denominator(s.best, s.previous, s.previous2, f(s.best), f(s.previous), f(s.previous2)),
              negativeZero, s'.step, s'.previousStep, trial)
    && Moves(f, s, trial, s')
  }

  ghost predicate TermsOf(f: real -> real, s: Snapshot, n: real, d: real)
  {
    && n == Numerator(s.best, s.previous, s.previous2, f(s.best), f(s.previous), f(s.previous2))
    && d == Denominator(s.best, s.previous, s.previous2, f(s.best), f(s.previous), f(s.previous2))
  }

  lemma OneQuotient(s: Snapshot, n: real, d: real, a: real, b: real)
    requires QuotientUsed(s, n, d, a) && b * d == n
    ensures a == b
  {
    SameQuotient(a, b, d, n);
  }

  lemma SameQuotient(a: real, b: real, d: real, n: real)
    requires d > 0.0 && a * d == n && b * d == n
    ensures a == b
  {
    assert a == a * d / d && b == b * d / d;
  }

  lemma OneChoice(s: Snapshot, n: real, d: real, negativeZero: bool, step: real, last: real, x: real, step': real,
                  last': real, y: real)
    requires Chosen(s, n, d, negativeZero, step, last, x) && Chosen(s, n, d, negativeZero, step', last', y)
    ensures step == step' && last == last' && x == y
  {
  }

  /** A turn is decided by the state before it. */
  lemma OneTurn(f: real -> real, s: Snapshot, negativeZero: bool, x: real, a: Snapshot, y: real, b: Snapshot)
    requires Turn(f, s, negativeZero, x, a) && Turn(f, s, negativeZero, y, b)
    ensures x == y && a == b
  {
    OneChoice(s, Numerator(s.best, s.previous, s.previous2, f(s.best), f(s.previous), f(s.previous2)),
              Denominator(s.best, s.previous, s.previous2, f(s.best), f(s.previous), f(s.previous2)),
              negativeZero, a.step, a.previousStep, x, b.step, b.previousStep, y);
  }

  // ---------------------------------------------------------------- how the step is computed

  lemma ResolutionIsTolerance(s: Snapshot)
    ensures Resolution(s) == Tolerance(s.best)
    ensures Narrow(s) <==> IsSmall(s.lower, s.best, s.upper, Tolerance(s.best))
  {
    SmallExactly(s.lower, s.best, s.upper, Tolerance(s.best));
  }

  /** The comparisons, made without dividing, that let the vertex be used. */
  predicate VertexTaken(s: Snapshot, n: real, d: real)
  {
    Abs(s.previousStep) > Tolerance(s.best) && d > 0.0 &&
    Usable(n, d, s.lower - s.best, s.upper - s.best, s.previousStep)
  }

  function Interval(s: Snapshot): real
  {
    if s.best < 0.5 * (s.lower + s.upper) then s.upper - s.best else s.lower - s.best
  }

  /** The step the search takes next: to the vertex, kept off the ends, when the step before
      last was longer than the tolerance and the vertex can be used; otherwise the golden
      section of the larger side. */
  function Planned(s: Snapshot, n: real, d: real): (next: real)
    requires s.lower < s.best < s.upper && !IsSmall(s.lower, s.best, s.upper, Tolerance(s.best))
  {
    SmallExactly(s.lower, s.best, s.upper, Tolerance(s.best));
    if VertexTaken(s, n, d) then KeptOff(s.lower, s.best, s.upper, Tolerance(s.best), 0.5 * (s.lower + s.upper), n / d)
    else GOLDEN_STEP * Interval(s)
  }

  lemma TakenIsUsed(s: Snapshot, n: real, d: real)
    ensures if VertexTaken(s, n, d) then QuotientUsed(s, n, d, n / d) else GoldenUsed(s, n, d)
  {
    ResolutionIsTolerance(s);
    if d > 0.0 {
      UsableQuotient(n, d, s.lower - s.best, s.upper - s.best, s.previousStep);
      forall toVertex | QuotientUsed(s, n, d, toVertex) ensures toVertex == n / d {
        OneQuotient(s, n, d, toVertex, n / d);
      }
    }
  }

  lemma GoldenRule(s: Snapshot, n: real, d: real, negativeZero: bool, step: real)
    requires GoldenUsed(s, n, d) && s.lower < s.best < s.upper && !Narrow(s) && step == GOLDEN_STEP * Interval(s)
    ensures Chosen(s, n, d, negativeZero, step, Interval(s),
                   s.best + Stretched(step, Tolerance(s.best), negativeZero))
  {
    ResolutionIsTolerance(s);
  }

  lemma VertexRule(s: Snapshot, n: real, d: real, negativeZero: bool, toVertex: real, step: real)
    requires QuotientUsed(s, n, d, toVertex) && s.lower < s.best < s.upper
    requires !Narrow(s) && (s.best - s.lower > 2.0 * Tolerance(s.best) || s.upper - s.best > 2.0 * Tolerance(s.best))
    requires step == KeptOff(s.lower, s.best, s.upper, Tolerance(s.best), 0.5 * (s.lower + s.upper), toVertex)
    ensures Chosen(s, n, d, negativeZero, step, s.step, s.best + Stretched(step, Tolerance(s.best), negativeZero))
  {
    ResolutionIsTolerance(s);
    forall other | QuotientUsed(s, n, d, other) ensures other == toVertex {
      OneQuotient(s, n, d, other, toVertex);
    }
  }

  /** What is planned follows the rules. */
  lemma PlanFollowsRules(s: Snapshot, n: real, d: real, negativeZero: bool, step: real, last: real, trial: real)
    requires s.lower < s.best < s.upper && !IsSmall(s.lower, s.best, s.upper, Tolerance(s.best))
    requires step == Planned(s, n, d) && last == (if VertexTaken(s, n, d) then s.step else Interval(s))
    requires trial == s.best + Stretched(step, Tolerance(s.best), negativeZero)
    ensures Chosen(s, n, d, negativeZero, step, last, trial)
  {
    ResolutionIsTolerance(s);
    SmallExactly(s.lower, s.best, s.upper, Tolerance(s.best));
    TakenIsUsed(s, n, d);
    if VertexTaken(s, n, d) {
      VertexRule(s, n, d, negativeZero, n / d, step);
    } else {
      GoldenRule(s, n, d, negativeZero, step);
    }
  }

  lemma PlanIsTurn(f: real -> real, s: Snapshot, n: real, d: real, negativeZero: bool, trial: real, ready: Snapshot,
                   s': Snapshot)
    requires s.lower < s.best < s.upper && !IsSmall(s.lower, s.best, s.upper, Tolerance(s.best))
    requires TermsOf(f, s, n, d) && Moves(f, ready, trial, s') && s'.step == Planned(s, n, d)
    requires s'.previousStep == if VertexTaken(s, n, d) then s.step else Interval(s)
    requires ready == s.(step := s'.step, previousStep := s'.previousStep)
    requires trial == s.best + Stretched(s'.step, Tolerance(s.best), negativeZero)
    ensures Turn(f, s, negativeZero, trial, s')
  {
    PlanFollowsRules(s, n, d, negativeZero, s'.step, s'.previousStep, trial);
    MovesIgnoreSteps(f, s, ready, trial, s');
    ChosenIsTurn(f, s, n, d, negativeZero, trial, s');
  }

  lemma ChosenIsTurn(f: real -> real, s: Snapshot, n: real, d: real, negativeZero: bool, trial: real, s': Snapshot)
    requires TermsOf(f, s, n, d) && Chosen(s, n, d, negativeZero, s'.step, s'.previousStep, trial)
    requires Moves(f, s, trial, s')
    ensures Turn(f, s, negativeZero, trial, s')
  {
  }

  lemma MovesIgnoreSteps(f: real -> real, s: Snapshot, ready: Snapshot, trial: real, s': Snapshot)
    requires Moves(f, ready, trial, s') && ready == s.(step := ready.step, previousStep := ready.previousStep)
    ensures Moves(f, s, trial, s')
  {
  }

  /** Whatever is planned, the trial is a new point inside the bracket, and one between the second best point and the
      best is nearer to the best. */
  lemma PlanIsNear(f: real -> real, s: Snapshot, evaluated: seq<real>, n: real, d: real, negativeZero: bool)
    requires Tracked(f, s.best, s.previous, s.previous2, s.lower, s.upper, evaluated) && TermsOf(f, s, n, d)
    requires !IsSmall(s.lower, s.best, s.upper, Tolerance(s.best))
    ensures var step := Stretched(Planned(s, n, d), Tolerance(s.best), negativeZero);
      && s.lower < s.best + step < s.upper && step != 0.0
      && Near(s.best, s.previous, s.best + step)
  {
    SmallExactly(s.lower, s.best, s.upper, Tolerance(s.best));
    if VertexTaken(s, n, d) {
      VertexIsNear(f, s.best, s.previous, s.previous2, s.lower, s.upper, evaluated, n, d, s.previousStep);
    }
    var vertex := if d > 0.0 then n / d else 0.0;
    PlanInside(s, n, d, vertex, negativeZero);
  }

  lemma PlanInside(s: Snapshot, n: real, d: real, vertex: real, negativeZero: bool)
    requires s.lower < s.best < s.upper && !IsSmall(s.lower, s.best, s.upper, Tolerance(s.best))
    requires s.previous < s.best ==> s.previous <= s.lower
    requires d > 0.0 ==> vertex == n / d
    requires VertexTaken(s, n, d) ==> Near(s.best, s.previous, s.best + vertex)
    ensures var step := Stretched(Planned(s, n, d), Tolerance(s.best), negativeZero);
      && s.lower < s.best + step < s.upper && step != 0.0
      && Near(s.best, s.previous, s.best + step)
  {
    SmallExactly(s.lower, s.best, s.upper, Tolerance(s.best));
    TrialInside(s.lower, s.best, s.upper, Tolerance(s.best), Planned(s, n, d), negativeZero);
    TrialIsNear(s.lower, s.best, s.upper, s.previous, Tolerance(s.best), vertex, Planned(s, n, d), negativeZero);
  }

  /** The search state. `error` is the function searched; `evaluated` lists every point tried. */
  class BrentSearch {
    const error: real -> real
    var lower: real
    var upper: real
    var best: real
    var previous: real
    var previous2: real
    var bestError: real
    var previousError: real
    var previous2Error: real
    var step: real
    var previousStep: real
    ghost var evaluated: seq<real>

    /** The best point is strictly inside the bracket, the recorded errors are those of
        the recorded points, every point tried was inside the search interval, no point
        tried was better, and the other two recorded points are the runners-up, the third
        best nearer to the best if it is between the other two. */
    ghost predicate Valid()
      reads this`lower, this`upper, this`best, this`previous, this`previous2
      reads this`bestError, this`previousError, this`previous2Error, this`evaluated
    {
      && MIN_CCT <= lower < best < upper <= MAX_CCT
      && IsError(error, best, bestError) && IsError(error, previous, previousError) &&
        IsError(error, previous2, previous2Error)
      && Tracked(error, best, previous, previous2, lower, upper, evaluated)
    }

    /** The state as a value. */
    ghost function Snap(): Snapshot
      reads this
    {
      Snapshot(lower, best, upper, previous, previous2, step, previousStep)
    }

    constructor (f: real -> real)
      ensures Valid() && error == f
      ensures lower == MIN_CCT && upper == MAX_CCT && evaluated == [best]
      ensures Snap() == Snapshot(1500.0, 5750.0, 10000.0, 5750.0, 5750.0, 0.0, 0.0)
    {
      var middle := START_CCT;
      error, lower, upper := f, MIN_CCT, MAX_CCT;
      best, previous, previous2 := middle, middle, middle;
      bestError, previousError, previous2Error := f(middle), f(middle), f(middle);
      step, previousStep := 0.0, 0.0;
      evaluated := [middle];
    }

    function IntervalStep(midpoint: real): real
      reads this
    {
      if best < midpoint then upper - best else lower - best
    }

    /** Both ends of the bracket are within twice the tolerance of the best point. */
    predicate SmallEnough()
      reads this
    {
      IsSmall(lower, best, upper, Tolerance(best))
    }

    /** The two terms of the step to the vertex of the parabola through the three recorded points. */
    function VertexTerms(): (real, real)
      reads this
    {
      (Numerator(best, previous, previous2, bestError, previousError, previous2Error),
       Denominator(best, previous, previous2, bestError, previousError, previous2Error))
    }

    /** The denominator is positive, the vertex is inside the bracket, and the step to it is less
        than half the step before last. It is then the minimum of the parabola; see
        UsableVertexIsMinimum. */
    predicate VertexUsable()
      reads this
    {
      var (n, d) := VertexTerms();
      d > 0.0 && Usable(n, d, lower - best, upper - best, previousStep)
    }

    method ParabolicStep(midpoint: real, tolerance: real) returns (trialStep: Option<real>)
      requires Valid() && midpoint == 0.5 * (lower + upper) && tolerance > 0.0
      requires best - lower > 2.0 * tolerance || upper - best > 2.0 * tolerance
      modifies this`previousStep
      ensures trialStep.Some? <==> old(VertexUsable())
      ensures var (n, d) := old(VertexTerms());
        && previousStep == (if d <= 0.0 then old(previousStep) else step)
        && (trialStep.Some? ==> trialStep.value == KeptOff(lower, best, upper, tolerance, midpoint, n / d))
    {
      var numerator := Numerator(best, previous, previous2, bestError, previousError, previous2Error);
      var denominator := Denominator(best, previous, previous2, bestError, previousError, previous2Error);
      if denominator <= 0.0 {
        return None;
      }
      var oldStep := previousStep;
      previousStep := step;
      if !Usable(numerator, denominator, lower - best, upper - best, oldStep) {
        return None;
      }
      trialStep := Some(KeptOff(lower, best, upper, tolerance, midpoint, numerator / denominator));
    }

    /** The next step, and the one it will be compared with: the last one, or the larger side. */
    method NextStep(midpoint: real, tolerance: real) returns (next: real)
      requires Valid() && !SmallEnough() && midpoint == 0.5 * (lower + upper) && tolerance == Tolerance(best)
      modifies this`previousStep
      ensures var s, (n, d) := old(Snap()), old(VertexTerms());
        && next == Planned(s, n, d)
        && previousStep == if VertexTaken(s, n, d) then s.step else Interval(s)
    {
      ghost var s, terms := Snap(), VertexTerms();
      SmallExactly(lower, best, upper, tolerance);
      if Abs(previousStep) > tolerance {
        var parabola := ParabolicStep(midpoint, tolerance);
        if parabola.Some? {
          assert VertexTaken(s, terms.0, terms.1);
          return parabola.value;
        }
      }
      assert !VertexTaken(s, terms.0, terms.1);
      previousStep := IntervalStep(midpoint);
      next := GOLDEN_STEP * previousStep;
    }

    /** In every valid state a usable vertex is the minimum of the parabola through the recorded points. */
    lemma VertexIsMinimum(p: real, q: real, r: real)
      requires Valid() && VertexUsable()
      requires bestError == Parabola(p, q, r, best) && previousError == Parabola(p, q, r, previous)
      requires previous2Error == Parabola(p, q, r, previous2)
      ensures var (n, d) := VertexTerms();
        d > 0.0 && forall t :: Parabola(p, q, r, best + n / d) <= Parabola(p, q, r, t)
    {
      var (n, d) := VertexTerms();
      UsableVertexIsMinimum(error, best, previous, previous2, lower, upper, evaluated, p, q, r, n, d, previousStep);
    }

    /** The point to try next. */
    method ChooseTrial(negativeZero: bool) returns (trial: real)
      requires Valid() && !SmallEnough()
      modifies this`step, this`previousStep
      ensures var s, (n, d) := old(Snap()), old(VertexTerms());
        && step == Planned(s, n, d) && previousStep == (if VertexTaken(s, n, d) then s.step else Interval(s))
        && trial == s.best + Stretched(step, Tolerance(s.best), negativeZero)
      ensures lower < trial < upper && trial != best && Near(best, previous, trial)
    {
      ghost var s, terms := Snap(), VertexTerms();
      PlanIsNear(error, s, evaluated, terms.0, terms.1, negativeZero);
      var midpoint := 0.5 * (lower + upper);
      var tolerance := Tolerance(best);
      step := NextStep(midpoint, tolerance);
      trial := best + Stretched(step, tolerance, negativeZero);
    }

    method AcceptTrial(trial: real, trialError: real)
      requires Valid() && lower < trial < upper && trial != best && IsError(error, trial, trialError) &&
        trialError <= bestError
      modifies this
      ensures Valid() && best == trial && evaluated == old(evaluated) + [trial]
      ensures previous == old(best) && previous2 == old(previous) && step == old(step) &&
        previousStep == old(previousStep)
      ensures if trial < old(best) then lower == old(lower) && upper == old(best)
              else lower == old(best) && upper == old(upper)
    {
      TrackedAfterAccept(error, best, previous, previous2, lower, upper, evaluated, trial);
      evaluated := evaluated + [trial];
      ShiftToBest(trial, trialError);
    }

    /** The trial becomes the best point and the others move down. */
    method ShiftToBest(trial: real, trialError: real)
      modifies this`lower, this`upper, this`best, this`previous, this`previous2
      modifies this`bestError, this`previousError, this`previous2Error
      ensures best == trial && previous == old(best) && previous2 == old(previous)
      ensures bestError == trialError && previousError == old(bestError) && previous2Error == old(previousError)
      ensures lower == if trial < old(best) then old(lower) else old(best)
      ensures upper == if trial < old(best) then old(best) else old(upper)
    {
      if trial < best {
        upper := best;
      } else {
        lower := best;
      }
      previous2, previous2Error := previous, previousError;
      previous, previousError := best, bestError;
      best, bestError := trial, trialError;
    }

    method RejectTrial(trial: real, trialError: real)
      requires Valid() && lower < trial < upper && trial != best && IsError(error, trial, trialError) &&
        trialError > bestError && Near(best, previous, trial)
      modifies this
      ensures Valid() && best == old(best) && evaluated == old(evaluated) + [trial]
      ensures step == old(step) && previousStep == old(previousStep)
      ensures if trialError <= old(previousError) || old(previous) == best
              then previous == trial && previous2 == old(previous)
              else previous == old(previous) &&
                   previous2 == if trialError <= old(previous2Error) || old(previous2) == best ||
                     old(previous2) == old(previous)
                                then trial else old(previous2)
      ensures if trial < best then lower == trial && upper == old(upper)
              else lower == old(lower) && upper == trial
    {
      TrackedAfterReject(error, best, previous, previous2, lower, upper, evaluated, trial);
      evaluated := evaluated + [trial];
      ShiftBelowBest(trial, trialError);
    }

    /** The trial becomes an end of the bracket, and a runner-up if it is better than one. */
    method ShiftBelowBest(trial: real, trialError: real)
      modifies this`lower, this`upper, this`previous, this`previous2, this`previousError, this`previous2Error
      ensures lower == if trial < best then trial else old(lower)
      ensures upper == if trial < best then old(upper) else trial
      ensures if trialError <= old(previousError) || old(previous) == best
              then previous == trial && previousError == trialError &&
                   previous2 == old(previous) && previous2Error == old(previousError)
              else previous == old(previous) && previousError == old(previousError) &&
                   if trialError <= old(previous2Error) || old(previous2) == best || old(previous2) == old(previous)
                   then previous2 == trial && previous2Error == trialError
                   else previous2 == old(previous2) && previous2Error == old(previous2Error)
    {
      if trial < best {
        lower := trial;
      } else {
        upper := trial;
      }
      if trialError <= previousError || previous == best {
        previous2, previous2Error := previous, previousError;
        previous, previousError := trial, trialError;
        return;
      }
      if trialError <= previous2Error || previous2 == best || previous2 == previous {
        previous2, previous2Error := trial, trialError;
      }
    }

    /** One turn of the loop: unless the bracket is small enough to stop, one new point
        strictly inside it is tried, and the bracket shrinks around the minimiser. */
    method Iterate(negativeZero: bool) returns (stop: bool, ghost trial: real)
      requires Valid()
      modifies this
      ensures Valid()
      ensures stop ==> lower == old(lower) && upper == old(upper) && best == old(best) && evaluated == old(evaluated)
      ensures stop ==> best - lower <= 2.0 * Tolerance(best) && upper - best <= 2.0 * Tolerance(best)
      ensures !stop ==> upper - lower < old(upper - lower) && old(lower) <= lower && upper <= old(upper)
      ensures stop <==> old(SmallEnough())
      ensures stop ==> Snap() == old(Snap()) && Narrow(Snap())
      ensures !stop ==> Turn(error, old(Snap()), negativeZero, trial, Snap())
      ensures !stop ==> old(lower) < trial < old(upper) && trial != old(best) && evaluated == old(evaluated) + [trial]
      ensures forall m :: StrictlyUnimodal(error, m) && old(lower) <= m <= old(upper) ==> lower <= m <= upper
    {
      SmallExactly(lower, best, upper, Tolerance(best));
      ResolutionIsTolerance(Snap());
      if SmallEnough() {
        return true, best;
      }
      var next := Advance(negativeZero);
      return false, next;
    }

    /** Choose a point and try it. */
    method Advance(negativeZero: bool) returns (trial: real)
      requires Valid() && !SmallEnough()
      modifies this
      ensures Valid() && Turn(error, old(Snap()), negativeZero, trial, Snap())
      ensures upper - lower < old(upper - lower) && old(lower) <= lower && upper <= old(upper)
      ensures old(lower) < trial < old(upper) && trial != old(best) && evaluated == old(evaluated) + [trial]
      ensures forall m :: StrictlyUnimodal(error, m) && old(lower) <= m <= old(upper) ==> lower <= m <= upper
    {
      ghost var before, terms := Snap(), VertexTerms();
      assert TermsOf(error, before, terms.0, terms.1);
      trial := ChooseTrial(negativeZero);
      ghost var ready := Snap();
      Try(trial);
      PlanIsTurn(error, before, terms.0, terms.1, negativeZero, trial, ready, Snap());
    }

    /** Evaluate one new point inside the bracket and shrink the bracket accordingly. */
    method Try(trial: real)
      requires Valid() && lower < trial < upper && trial != best && Near(best, previous, trial)
      modifies this
      ensures Valid() && evaluated == old(evaluated) + [trial]
      ensures step == old(step) && previousStep == old(previousStep) && Moves(error, old(Snap()), trial, Snap())
      ensures upper - lower < old(upper - lower) && old(lower) <= lower && upper <= old(upper)
      ensures forall m :: StrictlyUnimodal(error, m) && old(lower) <= m <= old(upper) ==> lower <= m <= upper
    {
      var trialError := error(trial);
      ghost var lower0, upper0, best0 := lower, upper, best;
      forall m | StrictlyUnimodal(error, m) ensures Sided(error, m, best0, trial) {
        MinimiserStays(error, m, best0, trial);
      }
      if trialError <= bestError {
        AcceptTrial(trial, trialError);
      } else {
        RejectTrial(trial, trialError);
      }
    }
  }

  /** The minimiser is on the same side of the worse of two points as the better one. */
  ghost predicate Sided(f: real -> real, m: real, x: real, y: real)
  {
    && (x < y && f(x) <= f(y) ==> m <= y) && (x < y && f(y) <= f(x) ==> x <= m)
    && (y < x && f(y) <= f(x) ==> m <= x) && (y < x && f(x) <= f(y) ==> y <= m)
  }

  /** Comparing two points of a strictly unimodal function tells on which side of the worse one its minimiser lies. */
  lemma MinimiserStays(f: real -> real, m: real, x: real, y: real)
    requires StrictlyUnimodal(f, m) && MIN_CCT <= x <= MAX_CCT && MIN_CCT <= y <= MAX_CCT
    ensures Sided(f, m, x, y)
  {
  }

  /** How a search ended: its bracket, whether it stopped before the last turn, the points it tried and the states
      it went through. */
  datatype Ending = Ending(lower: real, upper: real, early: bool, evaluated: seq<real>, states: seq<Snapshot>)

  /** The turns of a search, from its first state: after the starting point, one point tried each. */
  ghost predicate Turns(f: real -> real, negativeZero: nat -> bool, points: seq<real>, states: seq<Snapshot>)
  {
    && |states| == |points| > 0 && points[0] == 5750.0
    && states[0] == Snapshot(1500.0, 5750.0, 10000.0, 5750.0, 5750.0, 0.0, 0.0)
    && forall i :: 0 < i < |states| ==> Turn(f, states[i - 1], negativeZero(i - 1), points[i], states[i])
  }

  ghost predicate Ends(f: real -> real, negativeZero: nat -> bool, best: real, e: Ending)
  {
    && Bracketed(f, best, e.lower, e.upper, e.evaluated)
    && Turns(f, negativeZero, e.evaluated, e.states) && best == e.states[|e.states| - 1].best
    && |e.evaluated| <= 81 && (if e.early then Narrow(e.states[|e.states| - 1]) else |e.evaluated| == 81)
    && (forall m :: StrictlyUnimodal(f, m) ==> e.lower <= m <= e.upper)
    && (e.early ==> best - e.lower <= 2.0 * Tolerance(best) && e.upper - best <= 2.0 * Tolerance(best))
  }

  lemma TurnsSnoc(f: real -> real, negativeZero: nat -> bool, points: seq<real>, states: seq<Snapshot>, x: real,
                  s: Snapshot)
    requires Turns(f, negativeZero, points, states)
    requires Turn(f, states[|states| - 1], negativeZero(|states| - 1), x, s)
    ensures Turns(f, negativeZero, points + [x], states + [s])
  {
    var longer := states + [s];
    forall i | 0 < i < |longer| ensures Turn(f, longer[i - 1], negativeZero(i - 1), (points + [x])[i], longer[i]) {
      assert i < |states| ==>
        longer[i - 1] == states[i - 1] && longer[i] == states[i] && (points + [x])[i] == points[i];
    }
  }

  /** What a search keeps between its turns. */
  ghost predicate Going(f: real -> real, negativeZero: nat -> bool, search: BrentSearch, states: seq<Snapshot>, i: nat)
    reads search
  {
    && search.Valid() && search.error == f && |search.evaluated| == i + 1
    && Turns(f, negativeZero, search.evaluated, states) && states[i] == search.Snap()
    && forall m :: StrictlyUnimodal(f, m) ==> search.lower <= m <= search.upper
  }

  /** One turn, or none when the bracket is narrow. */
  method TakeTurn(f: real -> real, negativeZero: nat -> bool, search: BrentSearch, ghost states: seq<Snapshot>, i: nat)
    returns (stop: bool, ghost states': seq<Snapshot>)
    requires Going(f, negativeZero, search, states, i)
    modifies search
    ensures Going(f, negativeZero, search, states', if stop then i else i + 1)
    ensures stop ==> Narrow(search.Snap())
  {
    ghost var before := search.evaluated;
    ghost var trial;
    stop, trial := search.Iterate(negativeZero(i));
    states' := states;
    if !stop {
      TurnsSnoc(f, negativeZero, before, states, trial, search.Snap());
      states' := states + [search.Snap()];
    }
  }

  lemma GoingEnds(f: real -> real, negativeZero: nat -> bool, search: BrentSearch, states: seq<Snapshot>, i: nat,
                  early: bool)
    requires Going(f, negativeZero, search, states, i) && i <= 80
    requires if early then Narrow(search.Snap()) else i == 80
    ensures exists e :: Ends(f, negativeZero, search.best, e)
  {
    ResolutionIsTolerance(search.Snap());
    assert Ends(f, negativeZero, search.best,
                Ending(search.lower, search.upper, early, search.evaluated, states));
  }

  /** The whole search: at most 80 turns. */
  method EstimateSceneCct(f: real -> real, negativeZero: nat -> bool) returns (best: real)
    ensures exists e :: Ends(f, negativeZero, best, e)
  {
    var search := new BrentSearch(f);
    ghost var states := [search.Snap()];
    for i := 0 to 80
      invariant Going(f, negativeZero, search, states, i)
    {
      var stop;
      stop, states := TakeTurn(f, negativeZero, search, states, i);
      if stop {
        GoingEnds(f, negativeZero, search, states, i, true);
        return search.best;
      }
    }
    GoingEnds(f, negativeZero, search, states, 80, false);
    return search.best;
  }

  /** After an early stop the answer is within twice the tolerance of a strictly unimodal minimiser. */
  lemma EarlyAnswerIsClose(f: real -> real, negativeZero: nat -> bool, best: real, e: Ending, m: real)
    requires Ends(f, negativeZero, best, e) && e.early && StrictlyUnimodal(f, m)
    ensures Abs(best - m) <= 2.0 * Tolerance(best)
  {
  }

  lemma {:induction false} SameTurns(f: real -> real, negativeZero: nat -> bool, a: Ending, b: Ending, k: nat)
    requires Turns(f, negativeZero, a.evaluated, a.states) && Turns(f, negativeZero, b.evaluated, b.states)
    requires k < |a.states| && k < |b.states|
    ensures a.states[k] == b.states[k]
  {
    if k > 0 {
      SameTurns(f, negativeZero, a, b, k - 1);
      OneTurn(f, a.states[k - 1], negativeZero(k - 1), a.evaluated[k], a.states[k], b.evaluated[k], b.states[k]);
    }
  }

  /** The function and the signs of its zero steps decide the answer. */
  lemma OneAnswer(f: real -> real, negativeZero: nat -> bool, x: real, a: Ending, y: real, b: Ending)
    requires Ends(f, negativeZero, x, a) && Ends(f, negativeZero, y, b)
    ensures x == y
  {
    var k := (if |a.states| <= |b.states| then |a.states| else |b.states|) - 1;
    SameTurns(f, negativeZero, a, b, k);
    if |a.states| < |b.states| {
      TurnIsNotNarrow(f, negativeZero, b, k + 1);
    } else if |b.states| < |a.states| {
      TurnIsNotNarrow(f, negativeZero, a, k + 1);
    }
  }

  lemma TurnIsNotNarrow(f: real -> real, negativeZero: nat -> bool, e: Ending, i: nat)
    requires Turns(f, negativeZero, e.evaluated, e.states) && 0 < i < |e.states|
    ensures !Narrow(e.states[i - 1])
  {
    assert Turn(f, e.states[i - 1], negativeZero(i - 1), e.evaluated[i], e.states[i]);
  }
}
