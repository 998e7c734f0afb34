/** JavaScript's `Math.round` and the two rounding idioms built on it: the
    whole-number percentage of the dashboard and the two-decimal
    `Math.round(x * 100) / 100` of the fee-plan form. */
module Numbers {

  /** `Math.round(x)`: the nearest integer, a half rounded up. */
  function Round(x: real): (r: int)
    ensures r as real - 0.5 <= x < r as real + 0.5
  {
    (x + 0.5).Floor
  }

  lemma RoundMonotone(x: real, y: real)
    requires x <= y
    ensures Round(x) <= Round(y)
  {
  }

  lemma RoundOfInt(n: int)
    ensures Round(n as real) == n
  {
  }

  /** `Math.round(x * 100) / 100`: within half a cent of `x`. */
  function Round2(x: real): (r: real)
    ensures r - 0.005 <= x < r + 0.005
  {
    Round(x * 100.0) as real / 100.0
  }

  /** Rounding to two decimals keeps the order and leaves whole hundredths
      alone, so values in 0..100 stay in 0..100. */
  lemma Round2Bounds(x: real, lo: int, hi: int)
    requires lo as real <= x <= hi as real
    ensures lo as real <= Round2(x) <= hi as real
  {
    RoundMonotone(lo as real * 100.0, x * 100.0);
    RoundMonotone(x * 100.0, hi as real * 100.0);
    RoundOfInt(lo * 100);
    RoundOfInt(hi * 100);
  }

  /** `Math.max(0, x)`. */
  function Max0(x: real): (r: real)
    ensures r >= 0.0 && r >= x
    ensures r == x || r == 0.0
  {
    if x > 0.0 then x else 0.0
  }

  /** A share of a positive whole lies in 0..1. */
  lemma ShareInUnit(a: real, b: real)
    requires b > 0.0 && 0.0 <= a <= b
    ensures 0.0 <= a / b <= 1.0
  {
    var q := a / b;
    assert q * b == a;
  }

  /** `a * p / 100`: `p` percent of `a`. */
  function PercentOfAmount(a: real, p: real): real {
    a * p / 100.0
  }

  /** A percentage in 0..100 of a non-negative amount lies within it. */
  lemma PercentageWithin(a: real, p: real)
    requires a >= 0.0 && 0.0 <= p <= 100.0
    ensures 0.0 <= PercentOfAmount(a, p) <= a
  {
    assert a * p <= a * 100.0;
    assert a * p >= 0.0;
  }

  /** A larger part is never a smaller percentage of the same total. */
  lemma PercentMonotone(a: nat, b: nat, total: nat)
    requires a <= b
    ensures Percent(a, total) <= Percent(b, total)
  {
    if total > 0 {
      var t := total as real;
      assert a as real / t <= b as real / t;
      RoundMonotone(a as real / t * 100.0, b as real / t * 100.0);
    }
  }

  /** `total > 0 ? Math.round((part / total) * 100) : 0`. */
  function Percent(part: nat, total: nat): (r: int)
    ensures total == 0 ==> r == 0
    ensures total > 0 ==> r as real - 0.5 <= part as real / total as real * 100.0 < r as real + 0.5
    ensures part <= total ==> 0 <= r <= 100
  {
    if total > 0 then
      var q := part as real / total as real;
      var x := q * 100.0;
      if part <= total then
        ShareInUnit(part as real, total as real);
        assert 0.0 <= x <= 100.0;
        RoundMonotone(0.0, x);
        RoundMonotone(x, 100.0);
        Round(x)
      else Round(x)
    else 0
  }
}
