/**
 The few facts about division by an unknown divisor that the other modules need.
 */
module Division {

  lemma {:induction false} MulLess(a: nat, b: nat, period: int)
    requires a < b && period > 0
    ensures a * period + period <= b * period
  {
    if a + 1 < b {
      MulLess(a, b - 1, period);
    }
    assert b * period == (b - 1) * period + period;
  }

  lemma MultipleHasNoRemainder(k: nat, period: int)
    requires period > 0
    ensures (k * period) % period == 0
  {
    DivisionIsUnique(k * period, period, k, 0);
  }

  lemma DivisionIsUnique(x: int, period: int, q: nat, r: int)
    requires 0 <= r < period && x == q * period + r
    ensures x / period == q && x % period == r
  {
    var d, m := x / period, x % period;
    assert x == period * d + m;
    assert period * d == d * period;
    assert 0 <= q * period;
    assert d >= 0;
    if d < q {
      MulLess(d, q, period);
    } else if q < d {
      MulLess(q, d, period);
    }
  }

  lemma MultipleDivides(k: nat, period: int)
    requires period > 0
    ensures (k * period) % period == 0 && (k * period) / period == k
  {
    DivisionIsUnique(k * period, period, k, 0);
  }
}
