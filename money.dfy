/** Monetary amounts in whole cents, the two-decimal rounding of quotients, and the
    half-cent tolerance band the settlement step uses. */
module Money {

  /** An amount of money in cents. Every amount the engine stores has been rounded to
      two decimals, so whole cents represent it exactly. */
  type Cents = int

  /** `round(num / den, 2)` for an amount `num` in cents: the whole number of cents
      nearest to `num / den`, halves rounded up. */
  function DivRound(num: int, den: int): int
    requires den > 0
  {
    (2 * num + den) / (2 * den)
  }

  /** The rounded quotient is within half a unit of the exact quotient (exclusive on
      one side), which makes it the nearest whole number of cents. */
  lemma DivRoundNearest(num: int, den: int)
    requires den > 0
    ensures -den <= 2 * (num - DivRound(num, den) * den) < den
  {
    var q := DivRound(num, den);
    assert q * (2 * den) <= 2 * num + den < q * (2 * den) + 2 * den;
  }

  /** Multiplication distributes over a difference. */
  lemma Distribute(n: int, k: int, c: int)
    ensures (n - k) * c == c * n - k * c
  {
  }

  /** An amount is "above the tolerance" when it exceeds 0.005, that is half a cent. */
  predicate AboveTolerance(c: Cents) {
    2 * c > 1
  }

  /** An amount is "below the negative tolerance" when it is under -0.005. */
  predicate BelowTolerance(c: Cents) {
    2 * c < -1
  }

  function Min(a: Cents, b: Cents): (m: Cents)
    ensures m <= a && m <= b && (m == a || m == b)
  {
    if a <= b then a else b
  }
}
