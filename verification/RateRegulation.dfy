/**
 RateRegulator: accepts items up to a rate. The time of the next item moves by whole microseconds, and is computed again
 from the start once per about a second. Times are in microseconds, with exact real arithmetic for floating point.
 */
module RateRegulation {

  /** Truncation of a positive number. */
  function Truncate(x: real): int
    requires x >= 0.0
  {
    x.Floor
  }

  /** One second is as many periods as the rate. */
  predicate IsPeriod(period: real, maxRate: real) {
    period * maxRate == 1000000.0
  }

  function Max(a: real, b: real): real {
    if a < b then b else a
  }

  /** The most that the quick updates can be late: one microsecond each. */
  function Slack(maxRate: real): real
    requires maxRate > 0.0
  {
    Max(1.0, Truncate(maxRate) as real)
  }

  /** The time of the next item, `quick` updates after a full one. */
  function NextAfter(period: real, n: nat, quick: nat): int
    requires quick <= n && period > 0.0
  {
    if quick == 0 then Truncate(Periods(n, period)) else NextAfter(period, n - 1, quick - 1) + Truncate(period)
  }

  function Periods(n: nat, period: real): (r: real)
    requires period > 0.0
    ensures r >= 0.0
  {
    TimesPositive(n as real, period);
    n as real * period
  }

  lemma TimesPositive(a: real, b: real)
    requires a >= 0.0 && b >= 0.0
    ensures a * b >= 0.0
  {
  }

  lemma OneMorePeriod(n: nat, period: real)
    requires period > 0.0
    ensures Periods(n + 1, period) == Periods(n, period) + period
  {
    assert (n + 1) as real == n as real + 1.0;
  }

  lemma {:induction false} QuickUpdatesAreLate(period: real, n: nat, quick: nat)
    requires quick <= n && period > 0.0
    ensures Periods(n, period) - (quick + 1) as real < NextAfter(period, n, quick) as real <= Periods(n, period)
  {
    if quick > 0 {
      QuickUpdatesAreLate(period, n - 1, quick - 1);
      OneMorePeriod(n - 1, period);
    }
  }

  class RateRegulator {
    var maxRate: real
    var nolimit: bool
    var period: real
    var tperiod: int
    var tnextFullRefreshInterval: int
    var nItemsAccepted: nat
    var t0: real
    var tnext: real
    var tnextCount: int
    ghost var lastAccepted: real   // when the latest item was accepted

    ghost predicate Valid()
      reads this
    {
      && (nolimit <==> maxRate <= 0.0)
      && (!nolimit ==>
            && period > 0.0 && IsPeriod(period, maxRate) && tperiod == Truncate(period)
            && tnextFullRefreshInterval == Truncate(maxRate)
            && 1 <= tnextCount && tnextCount - 1 <= nItemsAccepted && tnextCount as real <= Slack(maxRate)
            && tnext == t0 + NextAfter(period, nItemsAccepted, tnextCount - 1) as real
            && (nItemsAccepted > 0 ==> Periods(nItemsAccepted - 1, period) - Slack(maxRate) < lastAccepted - t0))
    }

    constructor (maxRate: real, now: real)
      ensures Valid() && this.maxRate == maxRate && t0 == now && nItemsAccepted == 0
    {
      this.maxRate, nolimit, period, tperiod, tnextFullRefreshInterval := maxRate, true, 0.0, 0, 0;
      if maxRate > 0.0 {
        nolimit := false;
        period := 1000000.0 / maxRate;
        tperiod := Truncate(1000000.0 / maxRate);
        tnextFullRefreshInterval := Truncate(maxRate);
      }
      nItemsAccepted, t0, tnext, tnextCount, lastAccepted := 0, now, now, 1, now;
    }

    method UpdateTimeNext()
      requires !nolimit && maxRate > 0.0 && period > 0.0 && tperiod == Truncate(period)
               && tnextFullRefreshInterval == Truncate(maxRate)
      requires 1 <= tnextCount <= nItemsAccepted && tnextCount as real <= Slack(maxRate)
      requires tnext == t0 + NextAfter(period, nItemsAccepted - 1, tnextCount - 1) as real
      modifies this`tnext, this`tnextCount
      ensures 1 <= tnextCount && tnextCount - 1 <= nItemsAccepted && tnextCount as real <= Slack(maxRate)
      ensures tnext == t0 + NextAfter(period, nItemsAccepted, tnextCount - 1) as real
      ensures tnextCount == if old(tnextCount) >= tnextFullRefreshInterval then 1 else old(tnextCount) + 1
    {
      if tnextCount >= tnextFullRefreshInterval {
        tnext := t0 + Truncate(Periods(nItemsAccepted, period)) as real;
        tnextCount := 1;
      } else {
        tnext := tnext + tperiod as real;
        tnextCount := tnextCount + 1;
      }
    }

    /**
     An item is surely accepted when as many periods have passed as items, and surely refused when this is still far.
     */
    method Next(now: real) returns (accepted: bool)
      requires Valid()
      modifies this
      ensures Valid() && maxRate == old(maxRate) && t0 == old(t0) && period == old(period)
      ensures nolimit ==> accepted && nItemsAccepted == old(nItemsAccepted)
      ensures !nolimit ==> nItemsAccepted == old(nItemsAccepted) + if accepted then 1 else 0
      ensures !nolimit ==> (accepted <==> now >= old(tnext))
      ensures !nolimit && now - t0 >= Periods(old(nItemsAccepted), period) ==> accepted
      ensures !nolimit && now - t0 <= Periods(old(nItemsAccepted), period) - Slack(maxRate) ==> !accepted
      ensures !nolimit && accepted ==> lastAccepted == now
      ensures !accepted ==> unchanged(this)
    {
      if nolimit {
        return true;
      }
      hide NextAfter, Periods, Truncate, IsPeriod, Slack;
      QuickUpdatesAreLate(period, nItemsAccepted, tnextCount - 1);
      if now < tnext {
        return false;
      }
      nItemsAccepted := nItemsAccepted + 1;
      lastAccepted := now;
      UpdateTimeNext();
      return true;
    }
  }

  /** Times and counts are compared by the rate: so many items a second, times being in microseconds. */
  lemma Scaled(n: nat, period: real, maxRate: real, t: real, slack: real)
    requires period > 0.0 && maxRate > 0.0 && IsPeriod(period, maxRate)
    requires Periods(n, period) - slack < t <= Periods(n, period)
    ensures n as real * 1000000.0 - slack * maxRate < t * maxRate <= n as real * 1000000.0
  {
    var p := Periods(n, period);
    assert p * maxRate == n as real * 1000000.0 by {
      assert (n as real * period) * maxRate == n as real * (period * maxRate);
    }
    TimesPositive(p - t, maxRate);
    assert (p - t) * maxRate == p * maxRate - t * maxRate;
    assert (slack - (p - t)) * maxRate > 0.0;
    assert (slack - (p - t)) * maxRate == slack * maxRate - (p - t) * maxRate;
  }

  /** How early the next time may be, in microseconds. */
  function SlackTime(maxRate: real): real {
    if maxRate < 1.0 then 1.0 else maxRate
  }

  /**
   At this time since the start, the rate allows n items and not much less: the slack is of as many microseconds as
   items in a second.
   */
  predicate IsOnTime(n: nat, maxRate: real, time: real) {
    n as real * 1000000.0 - SlackTime(maxRate) * maxRate < time * maxRate <= n as real * 1000000.0
  }

  lemma OnTime(n: nat, period: real, maxRate: real, time: real)
    requires period > 0.0 && maxRate > 0.0 && IsPeriod(period, maxRate)
    requires Periods(n, period) - SlackTime(maxRate) < time <= Periods(n, period)
    ensures IsOnTime(n, maxRate, time)
  {
    hide IsPeriod, Periods;
    Scaled(n, period, maxRate, time, SlackTime(maxRate));
  }

  lemma NextIsOnTime(period: real, maxRate: real, n: nat, quick: nat)
    requires quick <= n && period > 0.0 && maxRate > 0.0 && IsPeriod(period, maxRate)
    requires (quick + 1) as real <= Slack(maxRate)
    ensures IsOnTime(n, maxRate, NextAfter(period, n, quick) as real)
  {
    assert Slack(maxRate) <= SlackTime(maxRate);
    hide NextAfter, Periods, IsPeriod, IsOnTime, Slack, SlackTime;
    QuickUpdatesAreLate(period, n, quick);
    OnTime(n, period, maxRate, NextAfter(period, n, quick) as real);
  }

  /** The time of the next item never drifts away from the rate, in any run. */
  lemma DriftBound(r: RateRegulator)
    requires r.Valid() && !r.nolimit
    ensures IsOnTime(r.nItemsAccepted, r.maxRate, r.tnext - r.t0)
  {
    hide NextAfter, IsPeriod, Periods, IsOnTime, Slack;
    NextIsOnTime(r.period, r.maxRate, r.nItemsAccepted, r.tnextCount - 1);
  }

  lemma TimesMonotone(a: real, b: real, c: real)
    requires a <= b && c >= 0.0
    ensures a * c <= b * c
  {
    TimesPositive(b - a, c);
    assert (b - a) * c == b * c - a * c;
  }

  /** The items accepted up to a time, in any run, are the rate times the time elapsed and the slack, and one more. */
  lemma RateBound(r: RateRegulator, time: real)
    requires r.Valid() && !r.nolimit && r.t0 <= time && r.lastAccepted <= time
    ensures (r.nItemsAccepted - 1) as real * 1000000.0 <= (time - r.t0 + SlackTime(r.maxRate)) * r.maxRate
  {
    var n, slack := r.nItemsAccepted, SlackTime(r.maxRate);
    assert Slack(r.maxRate) <= slack;
    TimesPositive(time - r.t0 + slack, r.maxRate);
    if n > 0 {
      hide NextAfter, Truncate, Slack, SlackTime, IsPeriod, Periods;
      var p := Periods(n - 1, r.period);
      Scaled(n - 1, r.period, r.maxRate, p, 1.0);
      TimesMonotone(p, time - r.t0 + slack, r.maxRate);
    }
  }
}
