/**
 Timeframes from heartbeat orbits, in 32-bit arithmetic, and the check that no page holds orbits of two timeframes.
 */
module Timeframes {
  import opened Rdh
  import opened Arithmetic
  import opened DataBlocks

  /** A difference or a sum of 32-bit words. */
  function Wrap(x: int): (r: nat)
    ensures r < TWO_TO_32
  {
    x % TWO_TO_32
  }

  /** The timeframe of an orbit, counted from the first orbit seen. */
  function TimeframeOf(first: nat, period: nat, orbit: nat): (tfId: nat)
    requires period > 0
    ensures tfId > UNDEFINED_TIMEFRAME
  {
    1 + Wrap(orbit - first) / period
  }

  /** The orbits which a page header announces for its timeframe. */
  datatype OrbitRange = OrbitRange(first: nat, last: nat)

  function Start(first: nat, period: nat, tfId: nat): (r: nat)
    requires tfId > 0
    ensures r < TWO_TO_32
  {
    Wrap(first + (tfId - 1) * period)
  }

  function RangeOf(first: nat, period: nat, tfId: nat, orbitOffset: nat): OrbitRange
    requires tfId > 0
  {
    var hbOrbitMin := Start(first, period, tfId);
    OrbitRange(Wrap(hbOrbitMin - orbitOffset), Wrap(Wrap(hbOrbitMin + period - 1) - orbitOffset))
  }

  /** The test made on each header of a page; the range may go over the end of the 32-bit orbit counter. */
  predicate IsOutOfRange(orbit: nat, r: OrbitRange) {
    || (r.first < r.last && (orbit < r.first || orbit > r.last))
    || (r.first > r.last && (orbit < r.first && orbit > r.last))
  }

  /** The orbit is in the timeframe. */
  predicate IsInTimeframe(orbit: nat, first: nat, period: nat, tfId: nat, orbitOffset: nat)
    requires period > 0
  {
    TimeframeOf(first, period, Wrap(orbit + orbitOffset)) == tfId
  }

  ghost predicate TestIsExact(first: nat, period: nat, tfId: nat, orbitOffset: nat)
    requires period > 0 && tfId > 0
  {
    forall orbit: nat :: orbit < TWO_TO_32 ==>
      (!IsOutOfRange(orbit, RangeOf(first, period, tfId, orbitOffset)) <==>
       IsInTimeframe(orbit, first, period, tfId, orbitOffset))
  }

  lemma WrapSum(a: int, b: int)
    ensures Wrap(Wrap(a) + b) == Wrap(a + b)
  {
  }

  lemma WrapDifference(a: int, b: int)
    ensures Wrap(a - Wrap(b)) == Wrap(a - b)
  {
  }

  lemma EndsOfRange(min: nat, period: nat, orbitOffset: nat)
    ensures Wrap(Wrap(min) - orbitOffset) == Wrap(min - orbitOffset)
    ensures Wrap(Wrap(Wrap(min) + period - 1) - orbitOffset) == Wrap(Wrap(min - orbitOffset) + period - 1)
  {
    hide Wrap;
    WrapSum(min, 0 - orbitOffset);
    WrapSum(min, period - 1);
    WrapSum(min + period - 1, 0 - orbitOffset);
    WrapSum(min - orbitOffset, period - 1);
  }

  lemma RangeEnds(first: nat, period: nat, tfId: nat, orbitOffset: nat)
    requires tfId > 0
    ensures var r, start := RangeOf(first, period, tfId, orbitOffset), (tfId - 1) * period;
            r.first == Wrap(first + start - orbitOffset) && r.last == Wrap(r.first + period - 1)
  {
    hide Wrap;
    EndsOfRange(first + (tfId - 1) * period, period, orbitOffset);
  }

  /** For a period of two orbits or more, the test measures the distance from the start of the range. */
  lemma TestIsDistance(orbit: nat, f: nat, period: nat)
    requires orbit < TWO_TO_32 && f < TWO_TO_32 && 2 <= period < TWO_TO_32
    ensures IsOutOfRange(orbit, OrbitRange(f, Wrap(f + period - 1))) <==> Wrap(orbit - f) >= period
  {
  }

  /** The distance seen from the first orbit of the run. */
  lemma DistanceFromFirst(orbit: nat, first: nat, start: nat, orbitOffset: nat)
    ensures Wrap(orbit - Wrap(first + start - orbitOffset)) == Wrap(Wrap(Wrap(orbit + orbitOffset) - first) - start)
  {
    WrapDifference(orbit, first + start - orbitOffset);
    WrapSum(orbit + orbitOffset, 0 - first);
    WrapSum(orbit + orbitOffset - first, 0 - start);
  }

  lemma RangeIsDistance(orbit: nat, first: nat, period: nat, tfId: nat, orbitOffset: nat)
    requires orbit < TWO_TO_32 && 2 <= period < TWO_TO_32 && tfId > 0
    ensures IsOutOfRange(orbit, RangeOf(first, period, tfId, orbitOffset)) <==>
            Wrap(Wrap(Wrap(orbit + orbitOffset) - first) - (tfId - 1) * period) >= period
  {
    hide Wrap, RangeOf, IsOutOfRange;
    var start, r := (tfId - 1) * period, RangeOf(first, period, tfId, orbitOffset);
    RangeEnds(first, period, tfId, orbitOffset);
    assert r == OrbitRange(r.first, r.last);
    TestIsDistance(orbit, Wrap(first + start - orbitOffset), period);
    DistanceFromFirst(orbit, first, start, orbitOffset);
  }

  /** In the full timeframes, being in one is being at less than a period from its start. */
  lemma InFullTimeframe(d: nat, period: nat, q: nat)
    requires d < TWO_TO_32 && period > 0 && (q + 1) * period <= TWO_TO_32
    ensures d / period == q <==> Wrap(d - q * period) < period
  {
    var start := q * period;
    assert (q + 1) * period == start + period;
    assert d == period * (d / period) + d % period;
    if start <= d < start + period {
      DivModUnique(d, period, q, d - start);
    }
  }

  /**
   A last timeframe which the end of the orbit counter cuts is not recognized: its range goes on with orbits of the
   first timeframe.
   */
  lemma CutTimeframe(first: nat, period: nat, tfId: nat, orbitOffset: nat) returns (orbit: nat)
    requires 2 <= period < TWO_TO_32 && tfId > 0 && (tfId - 1) * period < TWO_TO_32 < tfId * period
    ensures orbit < TWO_TO_32 && !IsOutOfRange(orbit, RangeOf(first, period, tfId, orbitOffset))
    ensures !IsInTimeframe(orbit, first, period, tfId, orbitOffset)
  {
    orbit := Wrap(first - orbitOffset);
    RangeIsDistance(orbit, first, period, tfId, orbitOffset);
    FirstOrbit(first, orbitOffset);
    BeforeFirst((tfId - 1) * period, period, tfId);
    DivModUnique(0, period, 0, 0);
  }

  lemma BeforeFirst(start: nat, period: nat, tfId: nat)
    requires tfId > 0 && start == (tfId - 1) * period && start < TWO_TO_32 < tfId * period && period < TWO_TO_32
    ensures Wrap(0 - start) < period && tfId > 1
  {
    assert tfId * period == start + period;
  }

  lemma FirstOrbit(first: nat, orbitOffset: nat)
    ensures Wrap(Wrap(Wrap(first - orbitOffset) + orbitOffset) - first) == 0
  {
    WrapSum(first - orbitOffset, orbitOffset);
    WrapSum(first, 0 - first);
  }

  /** With a period of one orbit, the two ends are the same and nothing is refused. */
  lemma OneOrbitTimeframe(first: nat, tfId: nat, orbitOffset: nat) returns (orbit: nat)
    requires tfId > 0
    ensures orbit < TWO_TO_32 && !IsOutOfRange(orbit, RangeOf(first, 1, tfId, orbitOffset))
    ensures !IsInTimeframe(orbit, first, 1, tfId, orbitOffset)
  {
    RangeEnds(first, 1, tfId, orbitOffset);
    orbit := Wrap(first + (tfId - 1) + 1 - orbitOffset);
    WrapSum(first + tfId - orbitOffset, orbitOffset);
    WrapSum(first + tfId, 0 - first);
    var d := Wrap(Wrap(orbit + orbitOffset) - first);
    DivModUnique(d, 1, d, 0);
  }

  /**
   The test finds out the timeframe of every orbit exactly when the timeframe has two orbits or more and is not cut.
   */
  lemma WhenTestIsExact(first: nat, period: nat, tfId: nat, orbitOffset: nat)
    requires 0 < period < TWO_TO_32 && tfId > 0 && (tfId - 1) * period < TWO_TO_32
    ensures TestIsExact(first, period, tfId, orbitOffset) <==> period >= 2 && tfId * period <= TWO_TO_32
  {
    if period == 1 {
      var _ := OneOrbitTimeframe(first, tfId, orbitOffset);
    } else if tfId * period > TWO_TO_32 {
      var _ := CutTimeframe(first, period, tfId, orbitOffset);
    } else {
      forall orbit: nat | orbit < TWO_TO_32
        ensures !IsOutOfRange(orbit, RangeOf(first, period, tfId, orbitOffset)) <==>
                  IsInTimeframe(orbit, first, period, tfId, orbitOffset)
      {
        RangeIsDistance(orbit, first, period, tfId, orbitOffset);
        InFullTimeframe(Wrap(Wrap(orbit + orbitOffset) - first), period, tfId - 1);
      }
    }
  }

  /** Periods which divide the range of the orbit counter, such as 32 and 128, and no others, have no cut timeframe. */
  lemma NoCutTimeframe(period: nat)
    requires 0 < period < TWO_TO_32
    ensures (forall tfId: nat :: tfId > 0 && (tfId - 1) * period < TWO_TO_32 ==> tfId * period <= TWO_TO_32) <==>
              TWO_TO_32 % period == 0
  {
    var q := TWO_TO_32 / period;
    assert TWO_TO_32 == period * q + TWO_TO_32 % period;
    if TWO_TO_32 % period != 0 {
      var tfId := q + 1;
      assert tfId * period == q * period + period;
    } else {
      forall tfId: nat | tfId > 0 && (tfId - 1) * period < TWO_TO_32
        ensures tfId * period <= TWO_TO_32
      {
        MulMonotone(q, tfId - 1, period);
        MulMonotone(tfId, q, period);
      }
    }
  }

  lemma StartIsBefore(first: nat, period: nat, orbit: nat)
    requires period > 0
    ensures (TimeframeOf(first, period, orbit) - 1) * period < TWO_TO_32
  {
    var d := Wrap(orbit - first);
    assert d == period * (d / period) + d % period;
  }

  /** From the first to the last orbit of a range, going over the end of the counter if need be. */
  predicate IsBetween(orbit: nat, min: nat, max: nat) {
    Wrap(orbit - min) <= Wrap(max - min)
  }

  /** The orbits of a timeframe are those between its ends, if it is not cut. */
  ghost predicate AreEnds(first: nat, period: nat, tfId: nat, min: nat, max: nat)
    requires period > 0
  {
    forall orbit: nat :: orbit < TWO_TO_32 ==>
        (IsBetween(orbit, min, max) <==> IsInTimeframe(orbit, first, period, tfId, 0))
  }

  lemma FromStart(orbit: nat, first: nat, start: nat)
    ensures Wrap(orbit - Wrap(first + start)) == Wrap(Wrap(orbit - first) - start)
  {
    hide Wrap;
    WrapDifference(orbit, first + start);
    WrapSum(orbit - first, 0 - start);
    assert orbit - (first + start) == orbit - first + (0 - start);
  }

  lemma DistanceInRange(orbit: nat, first: nat, period: nat, tfId: nat)
    requires tfId > 0 && 0 < period < TWO_TO_32
    ensures var min := Start(first, period, tfId);
            IsBetween(orbit, min, Wrap(min + period - 1)) <==> Wrap(Wrap(orbit - first) - (tfId - 1) * period) < period
  {
    hide Wrap;
    FromStart(orbit, first, (tfId - 1) * period);
    LastFromFirst(Start(first, period, tfId), period);
  }

  lemma LastFromFirst(min: nat, period: nat)
    requires min < TWO_TO_32 && 0 < period < TWO_TO_32
    ensures Wrap(Wrap(min + period - 1) - min) == period - 1
  {
  }

  lemma TimeframeOfSmall(orbit: nat, first: nat, period: nat)
    requires orbit < TWO_TO_32 && period > 0
    ensures TimeframeOf(first, period, Wrap(orbit + 0)) == 1 + Wrap(orbit - first) / period
  {
  }

  lemma RangeIsTimeframe(first: nat, period: nat, tfId: nat)
    requires tfId > 0 && 0 < period < TWO_TO_32 && tfId * period <= TWO_TO_32
    ensures var min := Start(first, period, tfId); AreEnds(first, period, tfId, min, Wrap(min + period - 1))
  {
    hide Wrap, TimeframeOf, Start;
    var min := Start(first, period, tfId);
    forall orbit: nat | orbit < TWO_TO_32
      ensures IsBetween(orbit, min, Wrap(min + period - 1)) <==> IsInTimeframe(orbit, first, period, tfId, 0)
    {
      DistanceInRange(orbit, first, period, tfId);
      InFullTimeframe(Wrap(orbit - first), period, tfId - 1);
      TimeframeOfSmall(orbit, first, period);
    }
  }

  /** The timeframe of an orbit at some distance from the first one. */
  lemma TimeframeAt(first: nat, period: nat, distance: nat)
    requires 0 < period
    ensures TimeframeOf(first, period, Wrap(Wrap(first + distance) + 0)) == 1 + Wrap(distance) / period
  {
    hide Wrap;
    WrapSum(first + distance, 0);
    WrapSum(first + distance, 0 - first);
    assert first + distance + (0 - first) == distance;
  }

  lemma WrapSmall(x: nat)
    ensures x < TWO_TO_32 ==> Wrap(x) == x
  {
  }

  /** The first orbit of a range is in the timeframe, even if it is cut; the last one only if it is not. */
  lemma EndsInTimeframe(first: nat, period: nat, tfId: nat)
    requires tfId > 0 && 0 < period < TWO_TO_32 && (tfId - 1) * period < TWO_TO_32
    ensures var min := Start(first, period, tfId);
            && IsInTimeframe(min, first, period, tfId, 0)
            && (IsInTimeframe(Wrap(min + period - 1), first, period, tfId, 0) <==> tfId * period <= TWO_TO_32)
  {
    hide Wrap, TimeframeOf;
    var q, e, start := tfId - 1, period - 1, (tfId - 1) * period;
    assert tfId * period == start + period;
    WrapSum(first + start, e);
    TimeframeAt(first, period, start);
    TimeframeAt(first, period, start + e);
    WrapSmall(start);
    WrapSmall(start + e);
    DivModUnique(start, period, q, 0);
    DivModUnique(start + e, period, q, e);
    if tfId * period > TWO_TO_32 {
      BeyondEnd(start + e, period, q);
    }
  }

  lemma BeyondEnd(distance: nat, period: nat, q: nat)
    requires 0 < period < TWO_TO_32 && distance == q * period + period - 1 && q * period < TWO_TO_32 <= distance
    ensures Wrap(distance) / period != q
  {
    assert q > 0;
    var d := Wrap(distance);
    assert d == distance - TWO_TO_32 < period;
    DivModUnique(d, period, 0, d);
  }

  /** The part of a page header which is about its timeframe. */
  datatype PageTag = PageTag(timeframeId: nat, orbits: OrbitRange, orbitOffset: nat)

  /** The equipment counts timeframes from the first orbit that it sees. */
  class ReadoutEquipment {
    const timeframePeriodOrbits: nat
    var isDefinedFirstTimeframeHbOrbitBegin: bool
    var firstTimeframeHbOrbitBegin: nat

    constructor (period: nat)
      requires 0 < period < TWO_TO_32
      ensures Valid() && timeframePeriodOrbits == period && !isDefinedFirstTimeframeHbOrbitBegin
    {
      timeframePeriodOrbits, isDefinedFirstTimeframeHbOrbitBegin, firstTimeframeHbOrbitBegin := period, false, 0;
    }

    ghost predicate Valid()
      reads this
    {
      0 < timeframePeriodOrbits < TWO_TO_32 && firstTimeframeHbOrbitBegin < TWO_TO_32
    }

    method GetTimeframeFromOrbit(hbOrbit: nat) returns (tfId: nat)
      requires Valid() && hbOrbit < TWO_TO_32
      modifies this
      ensures Valid() && isDefinedFirstTimeframeHbOrbitBegin
      ensures firstTimeframeHbOrbitBegin == if old(isDefinedFirstTimeframeHbOrbitBegin)
              then old(firstTimeframeHbOrbitBegin) else hbOrbit
      ensures tfId == TimeframeOf(firstTimeframeHbOrbitBegin, timeframePeriodOrbits, hbOrbit)
      ensures !old(isDefinedFirstTimeframeHbOrbitBegin) ==> tfId == 1
    {
      if !isDefinedFirstTimeframeHbOrbitBegin {
        firstTimeframeHbOrbitBegin := hbOrbit;
        isDefinedFirstTimeframeHbOrbitBegin := true;
        DivModUnique(0, timeframePeriodOrbits, 0, 0);
      }
      return 1 + Wrap(hbOrbit - firstTimeframeHbOrbitBegin) / timeframePeriodOrbits;
    }

    /** The ends of a timeframe: its orbits are those between them, as long as it is not cut. */
    method GetTimeframeOrbitRange(tfId: nat) returns (hbOrbitMin: nat, hbOrbitMax: nat)
      requires Valid()
      ensures var first, period := firstTimeframeHbOrbitBegin, timeframePeriodOrbits;
              tfId != UNDEFINED_TIMEFRAME && isDefinedFirstTimeframeHbOrbitBegin && (tfId - 1) * period < TWO_TO_32 ==>
                && IsInTimeframe(hbOrbitMin, first, period, tfId, 0)
                && (IsInTimeframe(hbOrbitMax, first, period, tfId, 0) <==> tfId * period <= TWO_TO_32)
                && (tfId * period <= TWO_TO_32 ==> AreEnds(first, period, tfId, hbOrbitMin, hbOrbitMax))
      ensures tfId == UNDEFINED_TIMEFRAME || !isDefinedFirstTimeframeHbOrbitBegin ==> hbOrbitMin == hbOrbitMax == 0
      ensures tfId != UNDEFINED_TIMEFRAME && isDefinedFirstTimeframeHbOrbitBegin ==>
                && hbOrbitMin == Start(firstTimeframeHbOrbitBegin, timeframePeriodOrbits, tfId)
                && hbOrbitMax == Wrap(hbOrbitMin + timeframePeriodOrbits - 1)
    {
      hbOrbitMin, hbOrbitMax := 0, 0;
      if tfId == UNDEFINED_TIMEFRAME || !isDefinedFirstTimeframeHbOrbitBegin {
        return;
      }
      hbOrbitMin := Start(firstTimeframeHbOrbitBegin, timeframePeriodOrbits, tfId);
      hbOrbitMax := Wrap(hbOrbitMin + timeframePeriodOrbits - 1);
      if (tfId - 1) * timeframePeriodOrbits < TWO_TO_32 {
        EndsInTimeframe(firstTimeframeHbOrbitBegin, timeframePeriodOrbits, tfId);
        if tfId * timeframePeriodOrbits <= TWO_TO_32 {
          RangeIsTimeframe(firstTimeframeHbOrbitBegin, timeframePeriodOrbits, tfId);
        }
      }
    }

    /** The timeframe of a page is the one of its first header. */
    method TagDatablock(orbit: nat, orbitOffset: nat) returns (tag: PageTag)
      requires Valid() && orbit < TWO_TO_32
      modifies this
      ensures Valid() && isDefinedFirstTimeframeHbOrbitBegin
      ensures old(isDefinedFirstTimeframeHbOrbitBegin) ==> firstTimeframeHbOrbitBegin == old(firstTimeframeHbOrbitBegin)
      ensures IsInTimeframe(orbit, firstTimeframeHbOrbitBegin, timeframePeriodOrbits, tag.timeframeId, orbitOffset)
      ensures tag.orbits == RangeOf(firstTimeframeHbOrbitBegin, timeframePeriodOrbits, tag.timeframeId, orbitOffset)
      ensures tag.timeframeId > 0 && (tag.timeframeId - 1) * timeframePeriodOrbits < TWO_TO_32
              && tag.orbitOffset == orbitOffset
    {
      hide Wrap, TimeframeOf, Start;
      var hbOrbit := Wrap(orbit + orbitOffset);
      var tfId := GetTimeframeFromOrbit(hbOrbit);
      var min, max := GetTimeframeOrbitRange(tfId);
      tag := PageTag(tfId, OrbitRange(Wrap(min - orbitOffset), Wrap(max - orbitOffset)), orbitOffset);
      StartIsBefore(firstTimeframeHbOrbitBegin, timeframePeriodOrbits, hbOrbit);
    }

    /** Headers of a page are checked until one is out of the range of the page. */
    method CheckOverlap(orbits: seq<nat>, tag: PageTag) returns (n: nat)
      requires forall i :: 0 <= i < |orbits| ==> orbits[i] < TWO_TO_32
      ensures n <= |orbits| && (forall i :: 0 <= i < n ==> !IsOutOfRange(orbits[i], tag.orbits))
      ensures n < |orbits| ==> IsOutOfRange(orbits[n], tag.orbits)
    {
      n := 0;
      while n < |orbits|
        invariant n <= |orbits| && forall i :: 0 <= i < n ==> !IsOutOfRange(orbits[i], tag.orbits)
      {
        var f, l := tag.orbits.first, tag.orbits.last;
        if (f < l && (orbits[n] < f || orbits[n] > l)) || (f > l && (orbits[n] < f && orbits[n] > l)) {
          break;
        }
        n := n + 1;
      }
    }

    /**
     With a period which divides the range of the orbit counter, a page is checked up to the first header of another
     timeframe.
     */
    method CheckPage(orbits: seq<nat>, orbitOffset: nat) returns (tag: PageTag, n: nat)
      requires Valid() && orbits != [] && forall i :: 0 <= i < |orbits| ==> orbits[i] < TWO_TO_32
      requires timeframePeriodOrbits >= 2 && TWO_TO_32 % timeframePeriodOrbits == 0
      modifies this
      ensures Valid() && n <= |orbits|
      ensures forall i :: 0 <= i < n ==> IsInTimeframe(orbits[i], firstTimeframeHbOrbitBegin, timeframePeriodOrbits,
                                                       tag.timeframeId, orbitOffset)
      ensures n < |orbits| ==> !IsInTimeframe(orbits[n], firstTimeframeHbOrbitBegin, timeframePeriodOrbits,
                                              tag.timeframeId, orbitOffset)
      ensures IsInTimeframe(orbits[0], firstTimeframeHbOrbitBegin, timeframePeriodOrbits, tag.timeframeId, orbitOffset)
    {
      tag := TagDatablock(orbits[0], orbitOffset);
      n := CheckOverlap(orbits, tag);
      NoCutTimeframe(timeframePeriodOrbits);
      WhenTestIsExact(firstTimeframeHbOrbitBegin, timeframePeriodOrbits, tag.timeframeId, orbitOffset);
    }
  }
}
