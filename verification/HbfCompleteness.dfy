/** First pass of DDformatMessage: a single scan of the headers counts the incomplete heartbeat frames. */
module HbfCompleteness {
  import opened Rdh
  import opened Runs
  import opened Packets

  /** What the check reads in one header. */
  datatype Head = Head(orbit: nat, pagesCounter: nat, stopBit: nat)

  function HeadAt(d: Bytes, off: nat): Head
    requires Fits(d, off)
  {
    Head(HeartbeatOrbit(d, off), PagesCounter(d, off), StopBit(d, off))
  }

  /** Where the scan goes on: a null offset to the next packet ends the page. */
  function Advance(d: Bytes, off: nat): (r: nat)
    requires Fits(d, off)
    ensures r > off
  {
    if OffsetNextPacket(d, off) == 0 then |d| else off + OffsetNextPacket(d, off)
  }

  function HeadsFrom(d: Bytes, off: nat): seq<Head>
    decreases |d| - off
  {
    if !Fits(d, off) then [] else [HeadAt(d, off)] + HeadsFrom(d, Advance(d, off))
  }

  /** All the headers of a list of pages, in order. */
  function Heads(pages: seq<Bytes>): seq<Head> {
    if pages == [] then [] else Heads(pages[..|pages| - 1]) + HeadsFrom(pages[|pages| - 1], 0)
  }

  predicate SameHbf(a: Head, b: Head) {
    a.orbit == b.orbit
  }

  function StopBits(run: seq<Head>): nat {
    if run == [] then 0 else StopBits(run[..|run| - 1]) + Last(run).stopBit
  }

  predicate Consecutive(run: seq<Head>) {
    forall j :: 0 < j < |run| ==> run[j].pagesCounter == run[j - 1].pagesCounter + 1
  }

  /** Packets are counted without a jump, and exactly one stop bit is set, on the last one. */
  predicate IsComplete(run: seq<Head>) {
    run != [] && Consecutive(run) && StopBits(run) == 1 && Last(run).stopBit == 1
  }

  function CountIncomplete(runs: seq<seq<Head>>): nat {
    if runs == [] then 0 else CountIncomplete(runs[..|runs| - 1]) + if IsComplete(Last(runs)) then 0 else 1
  }

  lemma NextHead(d: Bytes, off: nat, seen: seq<Head>)
    requires Fits(d, off)
    ensures seen + HeadsFrom(d, off) == (seen + [HeadAt(d, off)]) + HeadsFrom(d, Advance(d, off))
  {
  }

  lemma OpensRun(heads: seq<Head>, h: Head)
    requires heads == [] || Last(heads).orbit != h.orbit
    ensures RunsOf(SameHbf, heads + [h]) == RunsOf(SameHbf, heads) + [[h]]
    ensures StopBits([h]) == h.stopBit && Consecutive([h])
  {
    RunsOfSnoc(SameHbf, heads, h);
    assert [h][..0] == [];
  }

  lemma ExtendsRun(heads: seq<Head>, h: Head)
    requires heads != [] && Last(heads).orbit == h.orbit
    ensures var runs, run := RunsOf(SameHbf, heads), Last(RunsOf(SameHbf, heads));
            && RunsOf(SameHbf, heads + [h]) == runs[..|runs| - 1] + [run + [h]]
            && StopBits(run + [h]) == StopBits(run) + h.stopBit
            && (Consecutive(run + [h]) <==> Consecutive(run) && h.pagesCounter == Last(heads).pagesCounter + 1)
  {
    var run := Last(RunsOf(SameHbf, heads));
    RunsOfSnoc(SameHbf, heads, h);
    assert (run + [h])[..|run|] == run;
    ConsecutiveSnoc(run, h);
  }

  lemma ConsecutiveSnoc(run: seq<Head>, h: Head)
    requires run != []
    ensures Consecutive(run + [h]) <==> Consecutive(run) && h.pagesCounter == Last(run).pagesCounter + 1
  {
    var longer := run + [h];
    if Consecutive(longer) {
      assert longer[|run|].pagesCounter == longer[|run| - 1].pagesCounter + 1;
      forall j | 0 < j < |run|
        ensures run[j].pagesCounter == run[j - 1].pagesCounter + 1
      {
        assert longer[j].pagesCounter == longer[j - 1].pagesCounter + 1;
      }
    }
  }

  class HbfChecker {
    const checkIncomplete: bool
    var lastHBid: nat
    var HBFpagescounterLast: nat
    var HBFstop: nat
    var HBFstopLast: nat
    var HBFisOk: bool
    var HBFisFirst: bool
    var HBFincomplete: nat

    constructor (checkIncomplete: bool)
      ensures this.checkIncomplete == checkIncomplete && Tracks([])
    {
      this.checkIncomplete := checkIncomplete;
      lastHBid := NO_ORBIT;
      HBFpagescounterLast, HBFstop, HBFstopLast := 0, 0, 0;
      HBFisOk, HBFisFirst, HBFincomplete := true, true, 0;
    }

    /** The counters describe the last run of the headers read so far; the runs before it are accounted for. */
    ghost predicate Tracks(heads: seq<Head>)
      reads this
    {
      var runs := RunsOf(SameHbf, heads);
      if heads == [] || !checkIncomplete then
        && HBFincomplete == 0 && HBFisFirst && HBFisOk && HBFstop == 0
        && (heads != [] ==> lastHBid == Last(heads).orbit)
      else
        && lastHBid == Last(heads).orbit && !HBFisFirst
        && HBFincomplete == CountIncomplete(runs[..|runs| - 1])
        && HBFisOk == Consecutive(Last(runs)) && HBFstop == StopBits(Last(runs))
        && HBFpagescounterLast == Last(heads).pagesCounter && HBFstopLast == Last(heads).stopBit
    }

    /** Finalises the frame seen last, if any, and resets the counters. */
    method CheckLastHB(ghost heads: seq<Head>)
      requires Tracks(heads)
      modifies this`HBFincomplete, this`HBFisOk, this`HBFisFirst, this`HBFstop
      ensures HBFisFirst && HBFisOk && HBFstop == 0
      ensures HBFincomplete == if checkIncomplete then CountIncomplete(RunsOf(SameHbf, heads)) else 0
    {
      if !checkIncomplete || HBFisFirst {
        return;
      }
      if HBFstop != 1 {
        HBFisOk := false;
      }
      if HBFstopLast != 1 {
        HBFisOk := false;
      }
      if !HBFisOk {
        HBFincomplete := HBFincomplete + 1;
      }
      HBFstop, HBFisOk, HBFisFirst := 0, true, true;
    }

    method CheckHead(h: Head, ghost heads: seq<Head>)
      requires Tracks(heads)
      modifies this
      ensures Tracks(heads + [h])
    {
      hide IsComplete, Consecutive, StopBits, RunsOf;
      if heads == [] || h.orbit != lastHBid {
        OpensRun(heads, h);
      } else {
        ExtendsRun(heads, h);
      }
      if h.orbit != lastHBid {
        CheckLastHB(heads);
        lastHBid := h.orbit;
      }
      if checkIncomplete {
        if HBFisFirst {
          HBFisFirst := false;
        } else {
          if h.pagesCounter != HBFpagescounterLast + 1 {
            HBFisOk := false;
          }
        }
        HBFpagescounterLast := h.pagesCounter;
        HBFstop := HBFstop + h.stopBit;
        HBFstopLast := h.stopBit;
      }
    }

    method CheckPage(d: Bytes, ghost heads: seq<Head>)
      requires Tracks(heads)
      modifies this
      ensures Tracks(heads + HeadsFrom(d, 0))
    {
      var offset: nat := 0;
      ghost var all, seen, at := heads + HeadsFrom(d, 0), heads, 0;
      while offset + RDH_SIZE <= |d|
        invariant Tracks(seen) && at == offset
        invariant all == seen + HeadsFrom(d, at)
        decreases |d| - offset
      {
        var h := HeadAt(d, offset);
        CheckHead(h, seen);
        NextHead(d, offset, seen);
        seen, at := seen + [h], Advance(d, offset);
        var offsetNextPacket := OffsetNextPacket(d, offset);
        if offsetNextPacket == 0 {
          break;
        }
        offset := offset + offsetNextPacket;
      }
      assert all == seen;
    }

    /**
     The number of incomplete frames, those that go across pages included; nothing is counted when the check is off.
     */
    method CheckPages(pages: seq<Bytes>) returns (incomplete: nat)
      requires Tracks([])
      modifies this
      ensures incomplete == if checkIncomplete then CountIncomplete(RunsOf(SameHbf, Heads(pages))) else 0
    {
      for p := 0 to |pages|
        invariant Tracks(Heads(pages[..p]))
      {
        CheckPage(pages[p], Heads(pages[..p]));
        assert pages[..p + 1][..p] == pages[..p];
      }
      assert pages[..|pages|] == pages;
      CheckLastHB(Heads(pages));
      incomplete := HBFincomplete;
    }
  }

  /** The count is about the frames one would cut by hand: any cut of the headers in maximal runs of equal orbit. */
  lemma IncompleteRuns(pages: seq<Bytes>, runs: seq<seq<Head>>)
    requires IsMaximalRuns(SameHbf, Heads(pages), runs)
    ensures CountIncomplete(RunsOf(SameHbf, Heads(pages))) == |set i | 0 <= i < |runs| && !IsComplete(runs[i])|
  {
    MaximalRunsAreUnique(SameHbf, Heads(pages), runs);
    CountIsCardinality(runs);
  }

  /** Packet by packet: the page counter goes up by one, and the stop bit is set in the last packet and in no other. */
  lemma WhenComplete(run: seq<Head>)
    ensures IsComplete(run) <==>
            run != [] && forall j :: 0 <= j < |run| ==>
              run[j].pagesCounter == run[0].pagesCounter + j && run[j].stopBit == if j == |run| - 1 then 1 else 0
  {
    if run != [] {
      var n := |run| - 1;
      StopBitsAreClear(run[..n]);
      assert StopBits(run) == StopBits(run[..n]) + run[n].stopBit;
      if Consecutive(run) {
        forall j | 0 <= j < |run|
          ensures run[j].pagesCounter == run[0].pagesCounter + j
        {
          CountsUp(run, j);
        }
      }
      if IsComplete(run) {
        forall j | 0 <= j < n
          ensures run[j].stopBit == 0
        {
          assert run[..n][j] == run[j];
        }
      }
    }
  }

  lemma {:induction false} CountsUp(run: seq<Head>, j: nat)
    requires Consecutive(run) && j < |run|
    ensures run[j].pagesCounter == run[0].pagesCounter + j
  {
    if j > 0 { CountsUp(run, j - 1); }
  }

  lemma {:induction false} StopBitsAreClear(run: seq<Head>)
    ensures StopBits(run) == 0 <==> forall j :: 0 <= j < |run| ==> run[j].stopBit == 0
  {
    if run != [] {
      var n := |run| - 1;
      StopBitsAreClear(run[..n]);
      assert forall j :: 0 <= j < n ==> run[..n][j] == run[j];
    }
  }

  /** The headers of packets which fill a page are all read, in order. */
  lemma {:induction false} HeadsArePackets(d: Bytes, off: nat)
    requires Tiled(d, off)
    ensures |HeadsFrom(d, off)| == |PacketsFrom(d, off)|
    ensures forall k :: 0 <= k < |HeadsFrom(d, off)| ==>
              var h, p := HeadsFrom(d, off)[k], PacketsFrom(d, off)[k];
              && Fits(p, 0) && h.orbit == HeartbeatOrbit(p, 0) && h.pagesCounter == PagesCounter(p, 0)
              && h.stopBit == StopBit(p, 0)
    decreases |d| - off
  {
    if off < |d| {
      TiledFits(d, off);
      var after := off + OffsetNextPacket(d, off);
      HeadsArePackets(d, after);
      HeaderOfSlice(d, off, after);
      assert HeadsFrom(d, off) == [HeadAt(d, off)] + HeadsFrom(d, after);
      assert PacketsFrom(d, off) == [d[off..after]] + PacketsFrom(d, after);
    }
  }

  lemma {:induction false} CountIsCardinality(runs: seq<seq<Head>>)
    ensures CountIncomplete(runs) == |set i | 0 <= i < |runs| && !IsComplete(runs[i])|
  {
    if runs != [] {
      var n := |runs| - 1;
      CountIsCardinality(runs[..n]);
      var before := set i | 0 <= i < n && !IsComplete(runs[..n][i]);
      var all := set i | 0 <= i < |runs| && !IsComplete(runs[i]);
      assert all == before + if IsComplete(runs[n]) then {} else {n};
    }
  }
}
