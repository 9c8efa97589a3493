/** Exact integer versions of the rounding JavaScript applies to ratios:
    `Math.round(n / d)` and `(n / d).toFixed(1)`. Floating-point representation
    artefacts are not modelled. */
module JsMath {

  import opened Common

  /** JavaScript's `Math.round` of a quotient with a positive divisor: the integer nearest to n/d,
      halves rounded up (towards +infinity, as `Math.round` does for negative
      values too). Dafny's `/` with a positive divisor is floor division, so this
      is floor(n/d + 1/2). */
  function RoundRatio(n: int, d: int): (r: int)
    requires d > 0
    ensures d * (2 * r - 1) <= 2 * n < d * (2 * r + 1)
  {
    var q := (2 * n + d) / (2 * d);
    DivBounds(2 * n + d, 2 * d);
    q
  }

  /** `Math.round` of a ratio scaled by 100: the ratio as a whole percentage. */
  function Percent(n: int, d: int): (p: int)
    requires d > 0
    ensures d * (2 * p - 1) <= 200 * n < d * (2 * p + 1)
  {
    RoundRatio(100 * n, d)
  }

  /** `Number.prototype.toFixed` with one decimal, read as a count of tenths: the magnitude is rounded
      half up and the sign put back, so halves round away from zero. */
  function TenthsToFixed(n: int, d: int): (t: int)
    requires d > 0
    ensures n >= 0 ==> t >= 0 && d * (2 * t - 1) <= 20 * n < d * (2 * t + 1)
    ensures n < 0 ==> t <= 0 && d * (-2 * t - 1) <= -20 * n < d * (-2 * t + 1)
  {
    if n >= 0 then RoundRatio(10 * n, d) else -RoundRatio(-10 * n, d)
  }

  /** A score over a question count as a rounded percentage, with no guard
      against a zero count: dividing by 0 gives an infinity or NaN, and so does
      an undefined or NaN score, while a `null` score divides as 0. */
  function UnguardedPercent(score: JsNumber, maxScore: nat): (p: JsNumber)
    ensures p.Finite? <==> !score.NotFinite? && maxScore > 0
    ensures p.Finite? && score.Finite? ==> p.value == Percent(score.value, maxScore)
    ensures p.Finite? && score.Null? ==> p.value == 0
  {
    if score.NotFinite? || maxScore == 0 then NotFinite
    else if score.Null? then Finite(Percent(0, maxScore))
    else Finite(Percent(score.value, maxScore))
  }

  lemma DivBounds(a: int, b: int)
    requires b > 0
    ensures b * (a / b) <= a < b * (a / b) + b
  {
  }

  /** A rounded ratio of a part to its whole is a percentage between 0 and 100. */
  lemma {:induction false} PercentBounds(n: int, d: int)
    requires d > 0 && 0 <= n <= d
    ensures 0 <= Percent(n, d) <= 100
  {
    var p := Percent(n, d);
    if p < 0 {
      assert d * (2 * p + 1) <= d * (-1) by { MulMono(d, 2 * p + 1, -1); }
    }
    if p > 100 {
      assert d * (2 * p - 1) >= d * 201 by { MulMono(d, 201, 2 * p - 1); }
    }
  }

  /** The part equal to the whole is exactly 100 percent; no part is 0 percent. */
  lemma {:induction false} PercentEnds(d: int)
    requires d > 0
    ensures Percent(d, d) == 100 && Percent(0, d) == 0
  {
    var p := Percent(d, d);
    if p < 100 { MulMono(d, 2 * p + 1, 199); }
    if p > 100 { MulMono(d, 201, 2 * p - 1); }
    var z := Percent(0, d);
    if z < 0 { MulMono(d, 2 * z + 1, -1); }
    if z > 0 { MulMono(d, 1, 2 * z - 1); }
  }

  /** A larger part never rounds to a smaller percentage. */
  lemma {:induction false} PercentMonotone(n: int, m: int, d: int)
    requires d > 0 && n <= m
    ensures Percent(n, d) <= Percent(m, d)
  {
    var p, q := Percent(n, d), Percent(m, d);
    if p > q {
      MulMono(d, 2 * q + 1, 2 * p - 1);
    }
  }

  /** A whole multiple of the divisor rounds to itself. */
  lemma {:induction false} RoundExact(k: int, d: int)
    requires d > 0
    ensures RoundRatio(d * k, d) == k
  {
    var r := RoundRatio(d * k, d);
    if r > k { MulMono(d, 2 * k + 1, 2 * r - 1); }
    if r < k { MulMono(d, 2 * r + 1, 2 * k); }
  }

  /** An average of parts between 0 and `m` rounds, in hundredths, to between
      0 and 100 * m. */
  lemma {:induction false} PercentScaledBounds(t: int, n: int, m: int)
    requires n > 0 && 0 <= t <= m * n
    ensures 0 <= Percent(t, n) <= 100 * m
  {
    PercentMonotone(0, t, n);
    PercentMonotone(t, m * n, n);
    PercentEnds(n);
    assert 100 * (m * n) == n * (100 * m);
    RoundExact(100 * m, n);
  }

  lemma MulMono(d: int, a: int, b: int)
    requires d > 0 && a <= b
    ensures d * a <= d * b
  {
  }
}
