/** Python's numeric built-ins the scoring formulas share, over exact reals. */
module Numbers {

  /** `max(lo, min(hi, x))`. */
  function Clamp(x: real, lo: real, hi: real): (r: real)
    requires lo <= hi
    ensures lo <= r <= hi
    ensures lo <= x <= hi ==> r == x
    ensures x < lo ==> r == lo
    ensures x > hi ==> r == hi
  {
    if x < lo then lo else if x > hi then hi else x
  }

  /** Clamping keeps the order of its arguments. */
  lemma ClampMonotone(x: real, y: real, lo: real, hi: real)
    requires lo <= hi && x <= y
    ensures Clamp(x, lo, hi) <= Clamp(y, lo, hi)
  {
  }

  /** Python's `sum` over a list of numbers. */
  function Sum(xs: seq<real>): real
    decreases |xs|
  {
    if |xs| == 0 then 0.0 else xs[0] + Sum(xs[1..])
  }

  /** A count over a positive total, as a fraction: within [0, 1], positive exactly when the count is, 1 exactly when it is the total. */
  lemma FractionBounds(n: nat, d: nat)
    requires 0 < d && n <= d
    ensures 0.0 <= n as real / d as real <= 1.0
    ensures n as real / d as real > 0.0 <==> n > 0
    ensures n as real / d as real == 1.0 <==> n == d
  {
    var q := n as real / d as real;
    assert q * d as real == n as real;
  }

  /** A sum of zeros is zero. */
  lemma {:induction false} SumZeros(xs: seq<real>)
    requires forall k :: 0 <= k < |xs| ==> xs[k] == 0.0
    ensures Sum(xs) == 0.0
    decreases |xs|
  {
    if |xs| > 0 {
      assert forall k :: 0 <= k < |xs[1..]| ==> xs[1..][k] == xs[k + 1];
      SumZeros(xs[1..]);
    }
  }
}
