/** Interpolation between two numbers. */
module Reals {
  function Lerp(a: real, b: real, t: real): real { a + (b - a) * t }

  lemma LerpBetween(a: real, b: real, t: real, lo: real, hi: real)
    requires lo <= a <= hi && lo <= b <= hi && 0.0 <= t <= 1.0
    ensures lo <= Lerp(a, b, t) <= hi
  {
    if a <= b {
      NonNegative(b - a, t);
      NonNegative(b - a, 1.0 - t);
    } else {
      NonNegative(a - b, t);
      NonNegative(a - b, 1.0 - t);
    }
  }

  lemma NonNegative(p: real, q: real)
    requires p >= 0.0 && q >= 0.0
    ensures p * q >= 0.0
  {
  }
}
