/**
 Renewal of an expired client: a while loop that adds whole periods to the old expiry. The Xray
 service stops at the first value that is not below the clock (web/service/inbound.go), the tunnel
 services at the first value above it (web/service/awg_service.go, web/service/wg_service.go).
 */
module Renewal {
  import opened Division

  const DAY_MS := 86400000
  const MAX_INT64 := 0x7FFF_FFFF_FFFF_FFFF

  /** The number of periods after which `expiry` is no longer below `bound`. */
  function Periods(expiry: int, period: int, bound: int): (k: nat)
    requires period > 0
  {
    if expiry >= bound then 0 else (bound - expiry + period - 1) / period
  }

  /** The expiry after the Xray loop, in closed form. */
  function NextExpiry(expiry: int, days: int, now: int): int
    requires days > 0
  {
    expiry + Periods(expiry, days * DAY_MS, now) * (days * DAY_MS)
  }

  /** The expiry after the tunnel loop, in closed form. */
  function NextPeerExpiry(expiry: int, days: int, now: int): int
    requires days > 0
  {
    expiry + Periods(expiry, days * DAY_MS, now + 1) * (days * DAY_MS)
  }

  lemma CeilingDivision(gap: int, period: int)
    requires gap > 0 && period > 0
    ensures var k := (gap + period - 1) / period; k >= 1 && gap <= k * period < gap + period
  {
    var total := gap + period - 1;
    var k := total / period;
    assert total == period * k + total % period;
    assert k != 0;
  }

  /** Only one count of periods ends in a given window of one period. */
  lemma {:induction false} OneCountPerWindow(a: nat, b: nat, gap: int, period: int)
    requires period > 0
    requires gap <= a * period < gap + period && gap <= b * period < gap + period
    ensures a == b
  {
    if a < b {
      MulLess(a, b, period);
    } else if b < a {
      MulLess(b, a, period);
    }
  }

  /** The closed form is the least reachable value that is not below the bound. */
  lemma LeastAtLeast(expiry: int, period: int, bound: int)
    requires period > 0
    ensures var r := expiry + Periods(expiry, period, bound) * period;
            && r >= bound
            && (expiry < bound ==> r < bound + period)
            && forall k: nat :: expiry + k * period >= bound ==> r <= expiry + k * period
  {
    var n := Periods(expiry, period, bound);
    if expiry < bound {
      CeilingDivision(bound - expiry, period);
    }
    forall k: nat | expiry + k * period >= bound ensures n * period <= k * period {
      if k < n {
        MulLess(k, n, period);
      } else if n < k {
        MulLess(n, k, period);
      }
    }
  }

  lemma PeriodsStep(expiry: int, period: int, bound: int)
    requires period > 0 && expiry < bound
    ensures Periods(expiry, period, bound) == 1 + Periods(expiry + period, period, bound)
  {
    var n, m := Periods(expiry, period, bound), Periods(expiry + period, period, bound);
    LeastAtLeast(expiry, period, bound);
    LeastAtLeast(expiry + period, period, bound);
    assert (m + 1) * period == m * period + period;
    OneCountPerWindow(n, m + 1, bound - expiry, period);
  }

  /** A client due at `now` keeps its day boundary, and its next expiry lies within one period. */
  lemma NextExpiryIsLeast(expiry: int, days: int, now: int)
    requires days > 0 && expiry <= now
    ensures var r := NextExpiry(expiry, days, now);
            now <= r < now + days * DAY_MS && (r - expiry) % (days * DAY_MS) == 0
    ensures forall k: nat :: expiry + k * (days * DAY_MS) >= now ==>
              NextExpiry(expiry, days, now) <= expiry + k * (days * DAY_MS)
  {
    var period := days * DAY_MS;
    LeastAtLeast(expiry, period, now);
    MultipleHasNoRemainder(Periods(expiry, period, now), period);
  }

  lemma NextPeerExpiryIsLeast(expiry: int, days: int, now: int)
    requires days > 0 && expiry <= now
    ensures var r := NextPeerExpiry(expiry, days, now);
            now < r <= now + days * DAY_MS && (r - expiry) % (days * DAY_MS) == 0
    ensures forall k: nat :: expiry + k * (days * DAY_MS) > now ==>
              NextPeerExpiry(expiry, days, now) <= expiry + k * (days * DAY_MS)
  {
    var period := days * DAY_MS;
    LeastAtLeast(expiry, period, now + 1);
    MultipleHasNoRemainder(Periods(expiry, period, now + 1), period);
  }

  /** The two loops differ exactly when the clock falls on a renewal boundary: then the Xray loop
      returns an expiry that has already passed. */
  lemma XrayRenewalExpiresAtOnce(expiry: int, days: int, now: int)
    requires days > 0 && expiry <= now
    ensures NextExpiry(expiry, days, now) <= now <==> (now - expiry) % (days * DAY_MS) == 0
  {
    var period := days * DAY_MS;
    NextExpiryIsLeast(expiry, days, now);
    var r := NextExpiry(expiry, days, now);
    if (now - expiry) % period == 0 {
      var k := (now - expiry) / period;
      assert now - expiry == k * period;
      assert expiry + k * period >= now;
    }
  }

  /** The old expiry and one period past the clock both fit in 64 bits. */
  predicate Fits(expiry: int, days: int, now: int) {
    expiry <= MAX_INT64 && now + days * DAY_MS <= MAX_INT64
  }

  /** The Xray loop. No value it computes exceeds the last one, which stays below now + period, so
      the 64-bit sum cannot wrap while that fits. */
  method RenewXray(expiry: int, days: int, now: int) returns (newExpiry: int)
    requires days > 0
    ensures newExpiry == NextExpiry(expiry, days, now)
    ensures Fits(expiry, days, now) ==> newExpiry <= MAX_INT64
  {
    newExpiry := expiry;
    while newExpiry < now
      invariant Fits(expiry, days, now) ==> newExpiry <= MAX_INT64
      invariant newExpiry + Periods(newExpiry, days * DAY_MS, now) * (days * DAY_MS) == NextExpiry(expiry, days, now)
      decreases now - newExpiry
    {
      PeriodsStep(newExpiry, days * DAY_MS, now);
      newExpiry := newExpiry + days * DAY_MS;
    }
  }

  /** The tunnel loop. */
  method RenewPeer(expiry: int, days: int, now: int) returns (newExpiry: int)
    requires days > 0
    ensures newExpiry == NextPeerExpiry(expiry, days, now)
    ensures Fits(expiry, days, now) ==> newExpiry <= MAX_INT64
  {
    newExpiry := expiry;
    while newExpiry <= now
      invariant Fits(expiry, days, now) ==> newExpiry <= MAX_INT64
      invariant newExpiry + Periods(newExpiry, days * DAY_MS, now + 1) * (days * DAY_MS)
                  == NextPeerExpiry(expiry, days, now)
      decreases now - newExpiry
    {
      PeriodsStep(newExpiry, days * DAY_MS, now + 1);
      newExpiry := newExpiry + days * DAY_MS;
    }
  }
}
