/** DataBlockAggregator: merges the slices of all inputs, one timeframe after the other. */
module Aggregator {
  import opened Arithmetic
  import opened Sequences
  import opened Runs
  import opened DataBlocks
  import opened Slicer
  import opened StfBuffer

  const MAX_LOOP: nat := 1024

  datatype CallbackResult = Ok | Idle | Error

  predicate IsPlain(blocks: seq<DataBlock>) {
    forall k :: 0 <= k < |blocks| ==> !blocks[k].flagEndOfTimeframe
  }

  /** A timeframe is complete when it was not updated for a while, or on a flush. */
  predicate IsDue(stf: Stf, now: real, timeout: real, flush: bool) {
    now - stf.updateTime >= timeout || flush
  }

  /** The timeframes to send now: the oldest ones, up to the first which is not complete. */
  function DueCount(held: seq<Stf>, now: real, timeout: real, flush: bool): (n: nat)
    ensures n <= |held|
    ensures forall i :: 0 <= i < n ==> IsDue(held[i], now, timeout, flush)
    ensures n < |held| ==> !IsDue(held[n], now, timeout, flush)
  {
    if held == [] || !IsDue(held[0], now, timeout, flush) then 0 else 1 + DueCount(held[1..], now, timeout, flush)
  }

  /** When an input is served, as they are served in turn starting from one of them. */
  function Rank(i: nat, first: nat, n: nat): (k: nat)
    requires i < n && first < n
    ensures k < n
  {
    if i >= first then i - first else i + n - first
  }

  lemma RankOfNext(k: nat, first: nat, n: nat)
    requires k < n && first < n
    ensures var i := (k + first) % n;
            i < n && Rank(i, first, n) == k && forall j :: 0 <= j < n && Rank(j, first, n) == k ==> j == i
  {
    if k + first >= n {
      DivModUnique(k + first, n, 1, k + first - n);
    } else {
      DivModUnique(k + first, n, 0, k + first);
    }
  }

  /** The input to start from in the next round. */
  function NextInput(i: nat, n: nat): nat {
    if i + 1 < n then i + 1 else 0
  }

  lemma NextIsModulo(i: nat, n: nat)
    requires i < n && n > 1
    ensures (i + 1) % n == NextInput(i, n)
  {
    if i + 1 < n { DivModUnique(i + 1, n, 0, i + 1); } else { DivModUnique(n, n, 1, 0); }
  }

  /** What a round leaves in an input. */
  function Rest(input: seq<DataBlock>): seq<DataBlock> {
    input[Min(MAX_LOOP, |input|)..]
  }

  /** The content of a FIFO after pushes of which the result is ignored. */
  function Bounded(items: seq<DataSet>, size: nat): seq<DataSet> {
    items[..Min(|items|, size)]
  }

  /** The effect of such pushes on the output, and whether one of them failed. */
  ghost predicate Pushed(was: seq<DataSet>, lost: bool, sent: seq<DataSet>, output: seq<DataSet>, overflowed: bool,
                         size: nat) {
    && output == Bounded(was + sent, size)
    && overflowed == (lost || |was| + |sent| > size)
  }

  lemma PushedTwice(was: seq<DataSet>, lost: bool, a: seq<DataSet>, b: seq<DataSet>, output: seq<DataSet>,
                    output': seq<DataSet>, overflowed: bool, overflowed': bool, size: nat)
    requires |was| <= size && Pushed(was, lost, a, output, overflowed, size)
             && Pushed(output, overflowed, b, output', overflowed', size)
    ensures b != [] ==> Pushed(was, lost, a + b, output', overflowed', size)
  {
  }

  /** What the output took, seen as the slices it comes from: as many as it has room for. */
  ghost predicate TookSlices(was: seq<DataSet>, slices: seq<DataSet>, output: seq<DataSet>, size: nat) {
    var n := |output| - |was|;
    && was <= output && 0 <= n <= |slices| && |output| == Min(|was| + |slices|, size)
    && HaveBlocksOf(output[|was|..], slices[..n])
  }

  lemma PushedSlices(was: seq<DataSet>, lost: bool, stfs: seq<Stf>, output: seq<DataSet>, overflowed: bool, size: nat)
    requires |was| <= size && Pushed(was, lost, Stream(stfs), output, overflowed, size)
    ensures TookSlices(was, SlicesIn(stfs), output, size)
  {
    hide Stream, SlicesIn;
    StreamHasBlocks(stfs);
    var sent := Stream(stfs);
    assert output[|was|..] == sent[..|output| - |was|];
  }

  lemma NothingSent(output: seq<DataSet>, overflowed: bool, size: nat)
    requires |output| <= size
    ensures Pushed(output, overflowed, Stream([]), output, overflowed, size)
  {
  }

  lemma SplitAt(held: seq<Stf>, n: nat, emitted0: seq<Stf>)
    requires n < |held|
    ensures held[n..][1..] == held[n + 1..] && (emitted0 + held[..n]) + [held[n]] == emitted0 + held[..n + 1]
  {
  }

  /** One round of the loop over the timeframes held. */
  lemma SendStep(held: seq<Stf>, n: nat, was: seq<DataSet>, lost: bool, output: seq<DataSet>, output': seq<DataSet>,
                 overflowed: bool, overflowed': bool, size: nat)
    requires n < |held| && |was| <= size && Marked(Data(held[n].sstf)) != []
    requires Pushed(was, lost, Stream(held[..n]), output, overflowed, size)
    requires Pushed(output, overflowed, Marked(Data(held[n].sstf)), output', overflowed', size)
    ensures Pushed(was, lost, Stream(held[..n + 1]), output', overflowed', size)
  {
    hide Pushed, Stream, Marked, Data;
    PushedTwice(was, lost, Stream(held[..n]), Marked(Data(held[n].sstf)), output, output', overflowed, overflowed',
                size);
    assert held[..n + 1] == held[..n] + [held[n]];
    StreamSnoc(held[..n], held[n]);
  }

  lemma {:induction false} DueCountIs(held: seq<Stf>, n: nat, now: real, timeout: real, flush: bool)
    requires n <= |held| && (forall i :: 0 <= i < n ==> IsDue(held[i], now, timeout, flush))
    requires n < |held| ==> !IsDue(held[n], now, timeout, flush)
    ensures DueCount(held, now, timeout, flush) == n
  {
    if n > 0 { DueCountIs(held[1..], n - 1, now, timeout, flush); }
  }

  /**
   The timeframes which are sent now, the first n of those held, are those of which the latest slice is old enough, or
   all of them on a flush, up to the first which is not.
   */
  lemma OldTimeframesAreSent(held: seq<Stf>, now: real, timeout: real, flush: bool)
    requires StfsOk(held)
    ensures var n := DueCount(held, now, timeout, flush);
            && n <= |held| && (forall i :: 0 <= i < |held| ==> held[i].sstf != [])
            && (forall i :: 0 <= i < n ==> flush || now - Last(held[i].sstf).updateTime >= timeout)
            && (n < |held| ==> !flush && now - Last(held[n].sstf).updateTime < timeout)
  {
    forall i | 0 <= i < |held|
      ensures held[i].sstf != [] && held[i].updateTime == Last(held[i].sstf).updateTime
    {
      assert StfOk(held[i]);
    }
  }

  lemma {:induction false} SelectedWereThere(s: Source, blocks: seq<DataBlock>)
    requires IsPlain(blocks)
    ensures IsPlain(Select(s, blocks))
  {
    if blocks != [] { SelectedWereThere(s, blocks[..|blocks| - 1]); }
  }

  lemma {:induction false} PlainPieces(s: Source, out: seq<DataSet>, slice: DataSet)
    requires slice in out && slice != [] && SourceOf(slice[0]) == s && IsPlain(Flatten(SlicesOf(s, out)))
    ensures IsPlain(slice)
  {
    var init := out[..|out| - 1];
    var before := SlicesOf(s, init);
    if Last(out) != [] && SourceOf(Last(out)[0]) == s {
      FlattenSnoc(before, Last(out));
      var all := Flatten(before) + Last(out);
      assert forall k :: 0 <= k < |Flatten(before)| ==> Flatten(before)[k] == all[k];
      assert forall k :: 0 <= k < |Last(out)| ==> Last(out)[k] == all[|Flatten(before)| + k];
    } else {
      assert SlicesOf(s, out) == before;
    }
    if slice != Last(out) {
      assert IsPlain(Flatten(before));
      PlainPieces(s, init, slice);
    }
  }

  lemma PrefixIsPlain(a: seq<DataBlock>, b: seq<DataBlock>)
    requires IsPlain(a + b)
    ensures IsPlain(a)
  {
    forall k | 0 <= k < |a|
      ensures !a[k].flagEndOfTimeframe
    {
      assert (a + b)[k] == a[k];
    }
  }

  lemma SliceIsPlain(s: Source, delivered: seq<DataSet>, rest: seq<DataSet>, slice: DataSet)
    requires IsPlain(Flatten(SlicesOf(s, delivered) + rest)) && slice in delivered && slice != []
             && SourceOf(slice[0]) == s
    ensures IsPlain(slice)
  {
    FlattenAppend(SlicesOf(s, delivered), rest);
    PrefixIsPlain(Flatten(SlicesOf(s, delivered)), Flatten(rest));
    PlainPieces(s, delivered, slice);
  }

  lemma PlainSliceOf(slice: DataSet)
    requires IsSlice(slice) && IsPlain(slice)
    ensures IsPlainSlice(slice[0].timeframeId, slice)
  {
    forall k | 0 <= k < |slice|
      ensures slice[k].timeframeId == slice[0].timeframeId
    {
      SliceHasOneTimeframe(slice, k);
    }
  }

  lemma Reassociate(a: seq<DataSet>, b: seq<DataSet>, c: seq<DataSet>)
    ensures a + b + c == a + (b + c)
  {
  }

  /** The slices given out hold blocks which came in. */
  lemma DeliveredIsPlain(slicer: DataBlockSlicer, slice: DataSet)
    requires slicer.Valid() && IsPlain(slicer.accepted) && slice in slicer.delivered
    ensures slice != [] && IsPlainSlice(slice[0].timeframeId, slice)
  {
    hide AllTracked, PartialsOk, Select, Flatten, IsSlice, IsPlainSlice, SlicesOf;
    assert IsSlice(slice) && slice != [] by { DeliveredIsSlice(slicer, slice); }
    var s := SourceOf(slice[0]);
    SourceIsPreserved(slicer, s);
    SelectedWereThere(s, slicer.accepted);
    var waiting, partial := SlicesOf(s, slicer.slices), NonEmpty(PartialOf(s, slicer.partialSlices));
    Reassociate(SlicesOf(s, slicer.delivered), waiting, partial);
    SliceIsPlain(s, slicer.delivered, waiting + partial, slice);
    PlainSliceOf(slice);
  }

  lemma DeliveredIsSlice(slicer: DataBlockSlicer, slice: DataSet)
    requires slicer.Valid() && slice in slicer.delivered
    ensures IsSlice(slice) && slice != []
  {
    hide AllTracked, PartialsOk;
  }

  /** No slice was added to or opened; some may have been given out. */
  predicate OnlyCleared(was: seq<PartialSlice>, now: seq<PartialSlice>) {
    |now| == |was| && forall k :: 0 <= k < |now| ==> now[k] == was[k] || now[k] == was[k].(dataSet := [])
  }

  /** All slices being built were updated after the given time. */
  predicate AreFresh(partials: seq<PartialSlice>, timestamp: real) {
    forall k :: 0 <= k < |partials| ==> partials[k].dataSet == [] || partials[k].lastUpdateTime > timestamp
  }

  /** The slices of the sources given up were not updated since the given time. */
  ghost predicate WereOld(cut: set<Source>, cut0: set<Source>, partials: seq<PartialSlice>, timestamp: real) {
    forall s :: s in cut && s !in cut0 ==> Lookup(s, partials).lastUpdateTime <= timestamp
  }

  /** Slices which blocks were added to were updated now. */
  ghost predicate UpdatedNow(was: seq<PartialSlice>, partials: seq<PartialSlice>, now: real) {
    forall s :: Lookup(s, partials) == Lookup(s, was) || Lookup(s, partials).lastUpdateTime == now
  }

  method PlainSlice(slicer: DataBlockSlicer, includeIncomplete: bool) returns (slice: DataSet)
    requires slicer.Valid() && IsPlain(slicer.accepted)
    modifies slicer
    ensures slicer.Valid() && slicer.accepted == old(slicer.accepted)
    ensures old(slicer.slices) != [] ==> slice == old(slicer.slices)[0]
    ensures slice == [] <==>
            old(slicer.slices) == []
            && (includeIncomplete ==> NothingPending(old(slicer.partialSlices)))
    ensures slice == [] ==> unchanged(slicer)
    ensures OnlyCleared(old(slicer.partialSlices), slicer.partialSlices)
    ensures !includeIncomplete ==> slicer.partialSlices == old(slicer.partialSlices) && slicer.cut == old(slicer.cut)
    ensures slice != [] ==>
            slicer.delivered == old(slicer.delivered) + [slice]
            && IsPlainSlice(slice[0].timeframeId, slice)
  {
    slice := slicer.GetSlice(includeIncomplete);
    if slice != [] {
      assert slice in slicer.delivered by { assert Last(slicer.delivered) == slice; }
      DeliveredIsPlain(slicer, slice);
    }
  }

  lemma BlockUpdates(partials: seq<PartialSlice>, b: DataBlock, now: real)
    requires Slicer.IsSorted(partials)
    ensures var p := PartialSlice(SourceOf(b), b.timeframeId, now, SliceWith(PartialOf(SourceOf(b), partials), b));
            UpdatedNow(partials, Put(partials, p), now)
  {
    var p := PartialSlice(SourceOf(b), b.timeframeId, now, SliceWith(PartialOf(SourceOf(b), partials), b));
    forall s
      ensures Lookup(s, Put(partials, p)) == Lookup(s, partials) || Lookup(s, Put(partials, p)).lastUpdateTime == now
    {
      PutLookup(partials, p, s);
    }
  }

  lemma GivenUpAreOld(slicer: DataBlockSlicer, timestamp: real)
    requires slicer.Valid()
    ensures WereOld(slicer.cut + ExpiredSources(slicer.partialSlices, timestamp), slicer.cut, slicer.partialSlices,
                    timestamp)
  {
    forall s | s in ExpiredSources(slicer.partialSlices, timestamp)
      ensures Lookup(s, slicer.partialSlices).lastUpdateTime <= timestamp
    {
      ExpiredAreOld(slicer.partialSlices, timestamp, s);
    }
  }

  class DataBlockAggregator {
    const cfgSliceTimeout: real
    const cfgStfTimeout: real
    const enableStfBuilding: bool
    const outputSize: nat
    const slicers: seq<DataBlockSlicer>
    var inputs: seq<seq<DataBlock>>
    var output: seq<DataSet>
    var stfBuffer: seq<Stf>          // ordered by timeframe
    var lastTimeframeId: nat
    var nextIndex: nat
    var doFlush: bool
    ghost var retrieved: seq<Retrieved>   // every slice taken from the slicers
    ghost var late: seq<DataSet>          // the ones discarded
    ghost var emitted: seq<Stf>           // every timeframe sent
    ghost var forwarded: seq<DataSet>     // every data set which the output took
    ghost var overflowed: bool            // whether the output ever refused one

    constructor (slicers: seq<DataBlockSlicer>, inputs: seq<seq<DataBlock>>, outputSize: nat,
                 enableStfBuilding: bool, cfgSliceTimeout: real, cfgStfTimeout: real)
      requires |inputs| == |slicers| && forall i, j :: 0 <= i < j < |slicers| ==> slicers[i] != slicers[j]
      requires forall i :: 0 <= i < |slicers| ==>
                 slicers[i].Valid() && slicers[i].accepted == [] && slicers[i].delivered == []
      requires forall i :: 0 <= i < |inputs| ==> IsPlain(inputs[i])
      ensures Valid() && this.slicers == slicers && this.inputs == inputs && this.outputSize == outputSize
      ensures this.enableStfBuilding == enableStfBuilding && this.cfgSliceTimeout == cfgSliceTimeout
              && this.cfgStfTimeout == cfgStfTimeout
      ensures output == [] && stfBuffer == [] && lastTimeframeId == 0 && !doFlush && retrieved == [] && emitted == []
              && !overflowed
    {
      this.slicers, this.inputs, this.outputSize := slicers, inputs, outputSize;
      this.enableStfBuilding, this.cfgSliceTimeout, this.cfgStfTimeout := enableStfBuilding, cfgSliceTimeout,
          cfgStfTimeout;
      output, stfBuffer, lastTimeframeId, nextIndex, doFlush := [], [], 0, 0, false;
      retrieved, late, emitted, forwarded, overflowed := [], [], [], [], false;
    }

    ghost predicate SlicersOk()
      reads this`inputs, this`retrieved, slicers
    {
      && |inputs| == |slicers|
      && (forall i, j :: 0 <= i < j < |slicers| ==> slicers[i] != slicers[j])
      && (forall i :: 0 <= i < |slicers| ==> InputOk(i))
    }

    ghost predicate InputOk(i: nat)
      requires i < |slicers| == |inputs|
      reads this`inputs, this`retrieved, slicers[i]
    {
      && slicers[i].Valid() && IsPlain(slicers[i].accepted) && IsPlain(inputs[i])
      && FromInput(i, retrieved) == slicers[i].delivered
    }

    /** What was sent, is held and was discarded are the given slices. */
    ghost predicate OutputOk(slices: seq<DataSet>)
      reads this`emitted, this`stfBuffer, this`late, this`lastTimeframeId, this`overflowed, this`forwarded
    {
      if enableStfBuilding then
        && Accounted(slices, emitted, stfBuffer, late, lastTimeframeId)
        && (!overflowed ==> forwarded == Stream(emitted))
      else
        stfBuffer == [] && !overflowed && forwarded == slices
    }

    ghost predicate Valid()
      reads this, slicers
    {
      SlicersOk() && OutputOk(Slices(retrieved)) && |output| <= outputSize && (inputs != [] ==> nextIndex < |inputs|)
    }

    /** A page comes in. */
    method Receive(i: nat, b: DataBlock)
      requires Valid() && i < |inputs| && !b.flagEndOfTimeframe
      modifies this`inputs
      ensures Valid() && inputs == old(inputs)[i := old(inputs)[i] + [b]]
    {
      inputs := inputs[i := inputs[i] + [b]];
      assert old(InputOk(i));
      forall k | 0 <= k < |slicers|
        ensures InputOk(k)
      {
        assert old(InputOk(k));
      }
    }

    /** Slices and timeframes which are not complete are to be sent too, until nothing is left. */
    method Flush()
      requires Valid()
      modifies this`doFlush
      ensures Valid() && doFlush
    {
      doFlush := true;
    }

    /** The next consumer takes a data set. */
    method Pop() returns (d: DataSet)
      requires Valid() && output != []
      modifies this`output
      ensures Valid() && [d] + output == old(output)
    {
      d := output[0];
      output := output[1..];
    }

    /** Takes the next block of an input. */
    method TakeBlock(i: nat, now: real) returns (ok: bool)
      requires Valid() && i < |inputs| && inputs[i] != []
      modifies this`inputs, slicers[i]
      ensures Valid() && inputs == old(inputs)[i := old(inputs)[i][1..]]
      ensures ok <==> IsAccepted(old(inputs)[i][0])
      ensures slicers[i].accepted == old(slicers[i].accepted) + if ok then [old(inputs)[i][0]] else []
      ensures slicers[i].cut == old(slicers[i].cut)
              && UpdatedNow(old(slicers[i].partialSlices), slicers[i].partialSlices, now)
    {
      assert InputOk(i);
      var b := inputs[i][0];
      if IsAccepted(b) { BlockUpdates(slicers[i].partialSlices, b, now); }
      var r := slicers[i].AppendBlock(b, now);
      inputs := inputs[i := inputs[i][1..]];
      forall k | 0 <= k < |slicers|
        ensures InputOk(k)
      {
        assert old(InputOk(k));
        if k != i { assert slicers[k] != slicers[i]; }
      }
      return r > 0;
    }

    /** The blocks of an input up to the n-th one were taken, and all of them but that one accepted. */
    twostate predicate IsLost(i: nat, n: nat)
      requires i < |old(inputs)| && i < |slicers|
      reads this`inputs, slicers
    {
      && n < |old(inputs)[i]| && !IsAccepted(old(inputs)[i][n]) && inputs == old(inputs)[i := old(inputs)[i][n + 1..]]
      && slicers[i].accepted == old(slicers[i].accepted) + old(inputs)[i][..n]
    }

    /** First loop on an input: at most MAX_LOOP blocks go to its slicer. */
    method FillSlicer(i: nat, now: real) returns (ok: bool, nBlocksIn: nat)
      requires Valid() && i < |inputs|
      modifies this`inputs, slicers[i]
      ensures Valid()
      ensures ok <==> forall k :: 0 <= k < Min(MAX_LOOP, |old(inputs)[i]|) ==> IsAccepted(old(inputs)[i][k])
      ensures ok ==>
                var n := Min(MAX_LOOP, |old(inputs)[i]|);
                && inputs == old(inputs)[i := old(inputs)[i][n..]]
                && slicers[i].accepted == old(slicers[i].accepted) + old(inputs)[i][..n]
                && nBlocksIn == n
      ensures !ok ==> IsLost(i, nBlocksIn)
      ensures slicers[i].cut == old(slicers[i].cut)
              && UpdatedNow(old(slicers[i].partialSlices), slicers[i].partialSlices, now)
    {
      ghost var given := inputs[i];
      var j := 0;
      while j < MAX_LOOP && inputs[i] != []
        invariant j <= Min(MAX_LOOP, |given|)
        invariant Valid() && inputs == old(inputs)[i := given[j..]]
        invariant slicers[i].accepted == old(slicers[i].accepted) + given[..j]
        invariant forall k :: 0 <= k < j ==> IsAccepted(given[k])
        invariant slicers[i].cut == old(slicers[i].cut)
                  && UpdatedNow(old(slicers[i].partialSlices), slicers[i].partialSlices, now)
      {
        ok := TakeBlock(i, now);
        if !ok {
          return false, j;
        }
        j := j + 1;
      }
      return true, j;
    }

    /** Takes a slice from the slicer of an input. */
    method FetchSlice(i: nat, includeIncomplete: bool) returns (slice: DataSet)
      requires SlicersOk() && i < |inputs|
      modifies this`retrieved, slicers[i]
      ensures SlicersOk() && slicers[i].accepted == old(slicers[i].accepted)
      ensures old(slicers[i].slices) != [] ==> slice == old(slicers[i].slices)[0]
      ensures slice == [] <==>
              old(slicers[i].slices) == []
              && (includeIncomplete ==> NothingPending(old(slicers[i].partialSlices)))
      ensures slice == [] ==> unchanged(slicers[i])
      ensures OnlyCleared(old(slicers[i].partialSlices), slicers[i].partialSlices)
      ensures !includeIncomplete ==> slicers[i].cut == old(slicers[i].cut)
      ensures slice != [] ==> IsPlainSlice(slice[0].timeframeId, slice)
      ensures slice == [] ==> retrieved == old(retrieved)
      ensures slice != [] ==>
              retrieved == old(retrieved) + [Retrieved(i, slice)]
              && Slices(retrieved) == Slices(old(retrieved)) + [slice]
    {
      hide DataBlockSlicer.Valid, IsPlain, IsPlainSlice, FromInput, Slices, NothingPending;
      assert InputOk(i);
      slice := PlainSlice(slicers[i], includeIncomplete);
      if slice != [] {
        RetrievedSnoc(retrieved, Retrieved(i, slice), i);
        retrieved := retrieved + [Retrieved(i, slice)];
      }
      forall k | 0 <= k < |slicers| && k != i
        ensures InputOk(k)
      {
        assert old(InputOk(k)) && slicers[k] != slicers[i];
        if slice != [] { RetrievedSnoc(old(retrieved), Retrieved(i, slice), k); }
      }
      assert InputOk(i);
    }

    /** Holds a slice for its timeframe, discards it when that has gone, or sends it as it is. */
    method KeepSlice(ghost slices: seq<DataSet>, slice: DataSet, now: real)
      requires OutputOk(slices) && |output| < outputSize && slice != [] && IsPlainSlice(slice[0].timeframeId, slice)
      modifies this`late, this`stfBuffer, this`output, this`forwarded
      ensures OutputOk(slices + [slice]) && |output| <= outputSize
      ensures Kept(slice, now, old(late), old(stfBuffer), old(output))
    {
      if enableStfBuilding {
        var tfId := slice[0].timeframeId;
        if tfId <= lastTimeframeId {
          DiscardKeeps(slices, emitted, stfBuffer, late, lastTimeframeId, slice);
          late := late + [slice];
        } else {
          HoldKeeps(slices, emitted, stfBuffer, late, lastTimeframeId, tfId, Sstf(slice, now));
          stfBuffer := AddSstf(stfBuffer, tfId, Sstf(slice, now));
        }
      } else {
        output := output + [slice];
        forwarded := forwarded + [slice];
      }
    }

    /** Where a slice went. */
    ghost predicate Kept(slice: DataSet, now: real, late0: seq<DataSet>, stfBuffer0: seq<Stf>, output0: seq<DataSet>)
      requires slice != []
      reads this
    {
      if !enableStfBuilding then
        late == late0 && stfBuffer == stfBuffer0 && output == output0 + [slice]
      else if slice[0].timeframeId <= lastTimeframeId then
        late == late0 + [slice] && stfBuffer == stfBuffer0 && output == output0
      else
        late == late0 && stfBuffer == AddSstf(stfBuffer0, slice[0].timeframeId, Sstf(slice, now)) && output == output0
    }

    /** Second loop on an input: at most MAX_LOOP slices are taken, as long as there is room in the output. */
    method RetrieveSlices(i: nat, now: real, executeFlush: bool) returns (full: bool, nSlicesOut: nat)
      requires Valid() && i < |inputs|
      modifies this`retrieved, this`late, this`stfBuffer, this`output, this`forwarded, slicers[i]
      ensures Valid() && slicers[i].accepted == old(slicers[i].accepted)
      ensures old(retrieved) <= retrieved
      ensures forall k :: |old(retrieved)| <= k < |retrieved| ==> retrieved[k].input == i
      ensures full ==> |output| == outputSize
      ensures |retrieved| == |old(retrieved)| + nSlicesOut
      ensures !full ==> nSlicesOut == MAX_LOOP || IsDrained(i, executeFlush)
      ensures OnlyCleared(old(slicers[i].partialSlices), slicers[i].partialSlices)
      ensures !executeFlush ==> slicers[i].cut == old(slicers[i].cut)
    {
      hide OutputOk, InputOk, Kept;
      for j := 0 to MAX_LOOP
        invariant Valid() && slicers[i].accepted == old(slicers[i].accepted)
        invariant old(retrieved) <= retrieved && |retrieved| == |old(retrieved)| + j
        invariant forall k :: |old(retrieved)| <= k < |retrieved| ==> retrieved[k].input == i
        invariant OnlyCleared(old(slicers[i].partialSlices), slicers[i].partialSlices)
        invariant !executeFlush ==> slicers[i].cut == old(slicers[i].cut)
      {
        if |output| >= outputSize {
          return true, j;
        }
        ghost var slices := Slices(retrieved);
        var slice := FetchSlice(i, executeFlush && inputs[i] == []);
        if slice == [] {
          assert IsDrained(i, executeFlush);
          return false, j;
        }
        KeepSlice(slices, slice, now);
      }
      return false, MAX_LOOP;
    }

    ghost predicate IsDrained(i: nat, executeFlush: bool)
      requires i < |slicers| == |inputs|
      reads this`inputs, slicers[i]
    {
      && slicers[i].slices == []
      && (executeFlush && inputs[i] == [] ==> NothingPending(slicers[i].partialSlices))
    }

    /** Pushes in the output, whether or not there is room. */
    method PushOutput(d: DataSet)
      requires |output| <= outputSize
      modifies this`output, this`forwarded, this`overflowed
      ensures |output| <= outputSize && Pushed(old(output), old(overflowed), [d], output, overflowed, outputSize)
      ensures !overflowed ==> forwarded == old(forwarded) + [d]
    {
      if |output| < outputSize {
        output := output + [d];
        forwarded := forwarded + [d];
      } else {
        overflowed := true;
      }
    }

    /** Sends the data sets of a timeframe, the last block of the last one marked. */
    method SendStf(stf: Stf)
      requires |output| <= outputSize && StfOk(stf)
      modifies this`output, this`forwarded, this`overflowed
      ensures var sent := Marked(Data(stf.sstf));
              && |output| <= outputSize && Pushed(old(output), old(overflowed), sent, output, overflowed, outputSize)
              && (!overflowed ==> forwarded == old(forwarded) + sent)
    {
      ghost var sent := Marked(Data(stf.sstf));
      for ix := 0 to |stf.sstf|
        invariant |output| <= outputSize && Pushed(old(output), old(overflowed), sent[..ix], output, overflowed,
                                                   outputSize)
        invariant !overflowed ==> forwarded == old(forwarded) + sent[..ix]
      {
        var data := stf.sstf[ix].data;
        assert IsPlainSlice(stf.tfId, data);
        if ix + 1 == |stf.sstf| {
          data := MarkEnd(data);
        }
        ghost var output0, overflowed0 := output, overflowed;
        PushOutput(data);
        PushedTwice(old(output), old(overflowed), sent[..ix], [data], output0, output, overflowed0, overflowed,
                    outputSize);
        assert sent[..ix] + [data] == sent[..ix + 1];
      }
      assert sent[..|stf.sstf|] == sent;
    }

    /** Sends the first timeframe held. */
    method SendFirst(ghost slices: seq<DataSet>)
      requires OutputOk(slices) && enableStfBuilding && |output| <= outputSize && stfBuffer != []
      modifies this`output, this`forwarded, this`overflowed, this`stfBuffer, this`emitted, this`lastTimeframeId
      ensures OutputOk(slices) && |output| <= outputSize
      ensures stfBuffer == old(stfBuffer)[1..] && emitted == old(emitted) + [old(stfBuffer)[0]]
      ensures Pushed(old(output), old(overflowed), Marked(Data(old(stfBuffer)[0].sstf)), output, overflowed, outputSize)
      ensures Marked(Data(old(stfBuffer)[0].sstf)) != []
    {
      hide Accounted;
      var stf := stfBuffer[0];
      EmitKeeps(slices, emitted, stfBuffer, late, lastTimeframeId);
      StreamSnoc(emitted, stf);
      SendStf(stf);
      lastTimeframeId := stf.tfId;
      emitted := emitted + [stf];
      stfBuffer := stfBuffer[1..];
    }

    /** The loop over the timeframes held, after n rounds. */
    ghost predicate SentUpTo(n: nat, held: seq<Stf>, emitted0: seq<Stf>, output0: seq<DataSet>, overflowed0: bool)
      requires n <= |held|
      reads this
    {
      && stfBuffer == held[n..] && emitted == emitted0 + held[..n]
      && |output| <= outputSize && Pushed(output0, overflowed0, Stream(held[..n]), output, overflowed, outputSize)
    }

    /** A round of the loop. */
    method SendNext(ghost slices: seq<DataSet>, ghost n: nat, ghost held: seq<Stf>, ghost emitted0: seq<Stf>,
                    ghost output0: seq<DataSet>, ghost overflowed0: bool)
      requires OutputOk(slices) && enableStfBuilding && n < |held| && |output0| <= outputSize
      requires SentUpTo(n, held, emitted0, output0, overflowed0)
      modifies this`output, this`forwarded, this`overflowed, this`stfBuffer, this`emitted, this`lastTimeframeId
      ensures OutputOk(slices)
      ensures SentUpTo(n + 1, held, emitted0, output0, overflowed0)
    {
      assert stfBuffer[0] == held[n];
      SplitAt(held, n, emitted0);
      SendFirst(slices);
      SendStep(held, n, output0, overflowed0, old(output), output, old(overflowed), overflowed, outputSize);
    }

    /** Sends the oldest timeframes, up to the first which is not complete. */
    method BuildStfs(now: real, executeFlush: bool)
      requires OutputOk(Slices(retrieved)) && enableStfBuilding && |output| <= outputSize
      modifies this`output, this`forwarded, this`overflowed, this`stfBuffer, this`emitted, this`lastTimeframeId
      ensures OutputOk(Slices(retrieved)) && |output| <= outputSize
      ensures SentUpTo(DueCount(old(stfBuffer), now, cfgStfTimeout, executeFlush), old(stfBuffer), old(emitted),
                       old(output), old(overflowed))
      ensures var due := old(stfBuffer)[..DueCount(old(stfBuffer), now, cfgStfTimeout, executeFlush)];
              TookSlices(old(output), SlicesIn(due), output, outputSize)
    {
      hide OutputOk, Stream, Pushed, IsDue, SlicesIn, TookSlices;
      ghost var held := stfBuffer;
      ghost var n := 0;
      NothingSent(output, overflowed, outputSize);
      assert held[..0] == [] && held[0..] == held;
      while stfBuffer != [] && IsDue(stfBuffer[0], now, cfgStfTimeout, executeFlush)
        invariant n <= |held| && SentUpTo(n, held, old(emitted), old(output), old(overflowed))
        invariant forall i :: 0 <= i < n ==> IsDue(held[i], now, cfgStfTimeout, executeFlush)
        invariant OutputOk(Slices(retrieved))
        decreases |stfBuffer|
      {
        SendNext(Slices(retrieved), n, held, old(emitted), old(output), old(overflowed));
        n := n + 1;
      }
      DueCountIs(held, n, now, cfgStfTimeout, executeFlush);
      PushedSlices(old(output), old(overflowed), held[..n], output, overflowed, outputSize);
    }

    /** One round of the loop over the inputs. */
    method ExecuteInput(i: nat, now: real, executeFlush: bool)
      returns (r: CallbackResult, nBlocksIn: nat, nSlicesOut: nat)
      requires Valid() && i < |inputs|
      modifies this`inputs, this`retrieved, this`late, this`stfBuffer, this`output, this`forwarded, slicers[i]
      ensures Valid() && old(retrieved) <= retrieved
      ensures r == Error <==> exists k :: 0 <= k < Min(MAX_LOOP, |old(inputs)[i]|) && !IsAccepted(old(inputs)[i][k])
      ensures r != Error ==>
                && nBlocksIn == Min(MAX_LOOP, |old(inputs)[i]|)
                && inputs == old(inputs)[i := old(inputs)[i][nBlocksIn..]]
                && slicers[i].accepted == old(slicers[i].accepted) + old(inputs)[i][..nBlocksIn]
      ensures r == Error ==> IsLost(i, nBlocksIn)
      ensures r == Idle ==> |output| == outputSize
      ensures r == Ok ==>
              |retrieved| == |old(retrieved)| + nSlicesOut
              && (nSlicesOut == MAX_LOOP || IsDrained(i, executeFlush))
      // slices not updated for the time configured are given up, and only these, but on a flush
      ensures r != Error && cfgSliceTimeout != 0.0 ==> AreFresh(slicers[i].partialSlices, now - cfgSliceTimeout)
      ensures r != Error && !executeFlush && cfgSliceTimeout == 0.0 ==> slicers[i].cut == old(slicers[i].cut)
      ensures r != Error && !executeFlush && cfgSliceTimeout > 0.0 ==>
                WereOld(slicers[i].cut, old(slicers[i].cut), old(slicers[i].partialSlices), now - cfgSliceTimeout)
    {
      nSlicesOut := 0;
      var ok;
      ok, nBlocksIn := FillSlicer(i, now);
      if !ok {
        return Error, nBlocksIn, 0;
      }
      if cfgSliceTimeout != 0.0 {
        TimeoutSlices(i, now - cfgSliceTimeout);
      }
      var full;
      full, nSlicesOut := RetrieveSlices(i, now, executeFlush);
      return if full then Idle else Ok, nBlocksIn, nSlicesOut;
    }

    method TimeoutSlices(i: nat, timestamp: real)
      requires SlicersOk() && i < |inputs|
      modifies slicers[i]
      ensures SlicersOk() && slicers[i].accepted == old(slicers[i].accepted)
      ensures slicers[i].slices == old(slicers[i].slices) + Expired(old(slicers[i].partialSlices), timestamp)
      ensures AreFresh(slicers[i].partialSlices, timestamp)
      ensures WereOld(slicers[i].cut, old(slicers[i].cut), old(slicers[i].partialSlices), timestamp)
    {
      assert InputOk(i);
      GivenUpAreOld(slicers[i], timestamp);
      var _ := slicers[i].CompleteSliceOnTimeout(timestamp);
      forall k | 0 <= k < |slicers| && k != i
        ensures InputOk(k)
      {
        assert old(InputOk(k)) && slicers[k] != slicers[i];
      }
      assert InputOk(i);
    }

    /** No block is lost between the inputs and the slicers. */
    twostate predicate BlocksKept()
      requires |inputs| == |old(inputs)| == |slicers|
      reads this, slicers
    {
      forall i :: 0 <= i < |slicers| ==> slicers[i].accepted + inputs[i] == old(slicers[i].accepted) + old(inputs)[i]
    }

    /** One block is lost, and no other. */
    twostate predicate BlocksKeptBut(i: nat, b: DataBlock)
      requires |inputs| == |old(inputs)| == |slicers|
      reads this, slicers
    {
      && i < |slicers| && !IsAccepted(b) && b in old(inputs)[i]
      && forall j :: 0 <= j < |slicers| ==>
           slicers[j].accepted + (if j == i then [b] else []) + inputs[j] == old(slicers[j].accepted) + old(inputs)[j]
    }

    /** The inputs served in the first rounds have given what they had, up to the maximum; the others nothing. */
    ghost predicate ServedUpTo(k: nat, first: nat, inputs0: seq<seq<DataBlock>>)
      requires inputs != [] ==> first < |inputs|
      reads this`inputs
    {
      && |inputs| == |inputs0|
      && forall i :: 0 <= i < |inputs| ==> inputs[i] == if Rank(i, first, |inputs|) < k then Rest(inputs0[i])
         else inputs0[i]
    }

    /** If nothing was found, these inputs are empty. */
    ghost predicate IdleUpTo(k: nat, first: nat, executeFlush: bool)
      requires |inputs| == |slicers| && (inputs != [] ==> first < |inputs|)
      reads this`inputs, slicers
    {
      forall i :: 0 <= i < |inputs| && Rank(i, first, |inputs|) < k ==> inputs[i] == [] && IsDrained(i, executeFlush)
    }

    /** An input is served; nothing changes for the others. */
    method ServeInput(i: nat, now: real, executeFlush: bool)
      returns (r: CallbackResult, nBlocksIn: nat, nSlicesOut: nat)
      requires Valid() && i < |inputs|
      modifies this`inputs, this`retrieved, this`late, this`stfBuffer, this`output, this`forwarded, slicers
      ensures Valid() && old(retrieved) <= retrieved
      ensures r != Error ==> BlocksKept() && inputs == old(inputs)[i := Rest(old(inputs)[i])]
      ensures r == Error ==> exists b :: BlocksKeptBut(i, b)
      ensures r == Idle ==> |output| == outputSize
      ensures r == Ok && nBlocksIn == 0 && nSlicesOut == 0 ==> inputs[i] == [] && IsDrained(i, executeFlush)
      ensures r == Ok ==> forall j :: 0 <= j < |slicers| && j != i && old(IsDrained(j, executeFlush)) ==>
                IsDrained(j, executeFlush)
    {
      hide InputOk, OutputOk;
      ghost var given := inputs[i];
      r, nBlocksIn, nSlicesOut := ExecuteInput(i, now, executeFlush);
      assert forall j :: 0 <= j < |slicers| && j != i ==> slicers[j] != slicers[i];
      if r == Error {
        assert given == given[..nBlocksIn] + [given[nBlocksIn]] + given[nBlocksIn + 1..];
        assert BlocksKeptBut(i, given[nBlocksIn]);
      }
    }

    /** A round of the loop over the inputs: the next one is served. */
    method ServeNext(k: nat, now: real, executeFlush: bool, ghost inputs0: seq<seq<DataBlock>>)
      returns (r: CallbackResult, nBlocksIn: nat, nSlicesOut: nat)
      requires Valid() && k < |inputs| && ServedUpTo(k, nextIndex, inputs0)
      modifies this`inputs, this`retrieved, this`late, this`stfBuffer, this`output, this`forwarded, slicers
      ensures Valid() && old(retrieved) <= retrieved
      ensures r != Error ==> BlocksKept() && ServedUpTo(k + 1, nextIndex, inputs0)
      ensures r == Error ==> exists i: nat, b :: BlocksKeptBut(i, b)
      ensures r == Idle ==> |output| == outputSize
      ensures r == Ok && nBlocksIn == 0 && nSlicesOut == 0 && old(IdleUpTo(k, nextIndex, executeFlush)) ==>
                IdleUpTo(k + 1, nextIndex, executeFlush)
    {
      hide InputOk, OutputOk, IsDrained, BlocksKept, BlocksKeptBut;
      var i := (k + nextIndex) % |inputs|;
      RankOfNext(k, nextIndex, |inputs|);
      assert inputs[i] == inputs0[i];
      r, nBlocksIn, nSlicesOut := ServeInput(i, now, executeFlush);
    }

    /** The loop over the inputs. */
    method ExecuteInputs(now: real, executeFlush: bool) returns (r: CallbackResult, nBlocksIn: nat, nSlicesOut: nat)
      requires Valid()
      modifies this`inputs, this`retrieved, this`late, this`stfBuffer, this`output, this`forwarded, slicers
      ensures Valid() && old(retrieved) <= retrieved
      ensures r != Error ==> BlocksKept()
      ensures r == Error ==> exists i: nat, b :: BlocksKeptBut(i, b)
      ensures r == Idle ==> |output| == outputSize
      ensures r == Ok ==>
              ServedUpTo(|inputs|, nextIndex, old(inputs))
              && (nBlocksIn == 0 && nSlicesOut == 0 ==> IdleUpTo(|inputs|, nextIndex, executeFlush))
    {
      nBlocksIn, nSlicesOut := 0, 0;
      for ix := 0 to |inputs|
        invariant Valid() && old(retrieved) <= retrieved && |inputs| == |old(inputs)|
        invariant BlocksKept() && ServedUpTo(ix, nextIndex, old(inputs))
        invariant nBlocksIn == 0 && nSlicesOut == 0 ==> IdleUpTo(ix, nextIndex, executeFlush)
      {
        var n, m;
        label Before:
        r, n, m := ServeNext(ix, now, executeFlush, old(inputs));
        if r == Error {
          ghost var i: nat, b :| BlocksKeptBut@Before(i, b);
          assert BlocksKeptBut(i, b);
        }
        if r != Ok {
          return r, 0, 0;
        }
        nBlocksIn, nSlicesOut := nBlocksIn + n, nSlicesOut + m;
      }
      return Ok, nBlocksIn, nSlicesOut;
    }

    /** What comes after the loop over the inputs. */
    method FinishBuffers(now: real, executeFlush: bool, isIdle: bool) returns (r: CallbackResult)
      requires OutputOk(Slices(retrieved)) && |output| <= outputSize && (inputs != [] ==> nextIndex < |inputs|)
      modifies this`nextIndex, this`doFlush, this`output, this`forwarded, this`overflowed, this`stfBuffer, this`emitted,
               this`lastTimeframeId
      ensures OutputOk(Slices(retrieved)) && |output| <= outputSize && old(emitted) <= emitted
      ensures r == if isIdle then Idle else Ok
      ensures inputs != [] ==> nextIndex == NextInput(old(nextIndex), |inputs|) < |inputs|
      ensures enableStfBuilding ==>
                SentUpTo(DueCount(old(stfBuffer), now, cfgStfTimeout, executeFlush), old(stfBuffer), old(emitted),
                         old(output), old(overflowed))
      ensures doFlush == (old(doFlush) && !(isIdle && executeFlush && stfBuffer == []))
    {
      hide OutputOk;
      if |inputs| > 1 {
        NextIsModulo(nextIndex, |inputs|);
        nextIndex := (nextIndex + 1) % |inputs|;
      }
      if enableStfBuilding {
        BuildStfs(now, executeFlush);
      }
      if isIdle {
        if executeFlush && stfBuffer == [] {
          doFlush := false;
        }
        return Idle;
      }
      return Ok;
    }

    method FinishRound(now: real, executeFlush: bool, isIdle: bool) returns (r: CallbackResult)
      requires Valid() && (isIdle ==> IdleUpTo(|inputs|, nextIndex, executeFlush))
      modifies this`nextIndex, this`doFlush, this`output, this`forwarded, this`overflowed, this`stfBuffer, this`emitted,
               this`lastTimeframeId
      ensures Valid() && old(emitted) <= emitted
      ensures r == if isIdle then Idle else Ok
      ensures inputs != [] ==> nextIndex == NextInput(old(nextIndex), |inputs|)
      ensures enableStfBuilding ==>
                SentUpTo(DueCount(old(stfBuffer), now, cfgStfTimeout, executeFlush), old(stfBuffer), old(emitted),
                         old(output), old(overflowed))
      ensures doFlush == (old(doFlush) && !(isIdle && executeFlush && stfBuffer == []))
      ensures isIdle && executeFlush && stfBuffer == [] ==> IsFlushed()
    {
      hide OutputOk, InputOk, IsDrained, SentUpTo, NextInput;
      r := FinishBuffers(now, executeFlush, isIdle);
    }

    /** A round of the aggregator thread. */
    method ExecuteCallback(now: real) returns (r: CallbackResult)
      requires Valid()
      modifies this, slicers
      ensures Valid() && old(retrieved) <= retrieved && old(emitted) <= emitted
      ensures old(|output|) == outputSize ==> r == Idle && unchanged(this) && unchanged(slicers)
      // no block is lost, but the first one with a wrong link
      ensures r != Error ==> BlocksKept()
      ensures r == Error ==> exists i: nat, b :: BlocksKeptBut(i, b)
      // all inputs are served, and no timeframe which is complete is left, when there was room in the output
      ensures r == Ok || (r == Idle && |output| < outputSize) ==>
                && (forall i :: 0 <= i < |slicers| ==> inputs[i] == Rest(old(inputs)[i]))
                && (enableStfBuilding && stfBuffer != [] ==> !IsDue(stfBuffer[0], now, cfgStfTimeout, old(doFlush)))
      // the flush is over only when nothing is left anywhere
      ensures doFlush != old(doFlush) ==> old(doFlush) && IsFlushed()
    {
      hide OutputOk, InputOk, IsDrained, Rest, IdleUpTo, Slices, BlocksKeptBut, Stream, Pushed, IsDue;
      if |output| >= outputSize {
        return Idle;
      }
      var executeFlush := doFlush;
      var nBlocksIn, nSlicesOut;
      r, nBlocksIn, nSlicesOut := ExecuteInputs(now, executeFlush);
      if r != Ok {
        return;
      }
      r := FinishRound(now, executeFlush, nBlocksIn == 0 && nSlicesOut == 0);
    }

    /** No block is left in the inputs, in the slicers or in the timeframes held. */
    ghost predicate IsFlushed()
      requires |inputs| == |slicers|
      reads this, slicers
    {
      && stfBuffer == []
      && (forall i :: 0 <= i < |slicers| ==> inputs[i] == [] && IsDrained(i, true))
    }
  }

  // ----- what comes out of a run -----

  /**
   Timeframes are sent in strictly increasing order, all data sets of one in a row, and the only block marked as the end
   of a timeframe is its last one; provided that the output had room.
   */
  lemma TimeframesAreSentInOrder(a: DataBlockAggregator)
    requires a.Valid() && a.enableStfBuilding
    ensures !a.overflowed ==> a.forwarded == Stream(a.emitted)
    ensures forall i, j :: 0 <= i < j < |a.emitted| ==> a.emitted[i].tfId < a.emitted[j].tfId
    ensures forall i :: 0 <= i < |a.emitted| ==>
                          0 < a.emitted[i].tfId <= a.lastTimeframeId
                              && IsMarkedTimeframe(a.emitted[i].tfId, Marked(Data(a.emitted[i].sstf)))
    ensures forall i :: 0 <= i < |a.stfBuffer| ==> a.stfBuffer[i].tfId > a.lastTimeframeId
  {
    forall i | 0 <= i < |a.emitted|
      ensures IsMarkedTimeframe(a.emitted[i].tfId, Marked(Data(a.emitted[i].sstf)))
    {
      MarkedOnce(a.emitted[i]);
    }
  }

  /**
   No block of a timeframe sent is lost, repeated, changed or moved: data set by data set, the blocks which the output
   took are those of the slices held for these timeframes, whatever the end flags, as long as it had room.
   */
  lemma SlicesAreSentWhole(a: DataBlockAggregator)
    requires a.Valid() && a.enableStfBuilding && !a.overflowed
    ensures HaveBlocksOf(a.forwarded, SlicesIn(a.emitted))
  {
    StreamHasBlocks(a.emitted);
  }

  /**
   Each slice taken from a slicer is sent, held or discarded, once, and these of a timeframe in the order they were
   taken.
   */
  lemma SlicesAreAccountedFor(a: DataBlockAggregator, tfId: nat)
    requires a.Valid() && a.enableStfBuilding
    ensures OfTimeframe(tfId, Slices(a.retrieved)) ==
            DataOf(tfId, a.emitted) + DataOf(tfId, a.stfBuffer) + OfTimeframe(tfId, a.late)
    ensures tfId > a.lastTimeframeId ==> OfTimeframe(tfId, Slices(a.retrieved)) == DataOf(tfId, a.stfBuffer)
    ensures tfId <= a.lastTimeframeId ==> DataOf(tfId, a.stfBuffer) == []
  {
    assert StfBuffer.Tracked(tfId, Slices(a.retrieved), a.emitted, a.stfBuffer, a.late);
    if tfId > a.lastTimeframeId {
      NothingOf(tfId, a.late);
      NoneOf(tfId, a.emitted);
    } else {
      NoDataBelow(tfId, a.stfBuffer);
    }
  }

  lemma {:induction false} NoneOf(tfId: nat, stfs: seq<Stf>)
    requires forall i :: 0 <= i < |stfs| ==> stfs[i].tfId != tfId
    ensures DataOf(tfId, stfs) == []
  {
    if stfs != [] { NoneOf(tfId, stfs[1..]); }
  }

  /** After a flush, every block accepted is in a slice which was sent, or discarded with its timeframe. */
  lemma FlushLeavesNothing(a: DataBlockAggregator, i: nat, s: Source, tfId: nat)
    requires a.Valid() && a.enableStfBuilding && a.IsFlushed() && i < |a.slicers|
    ensures Flatten(SlicesOf(s, FromInput(i, a.retrieved))) == Select(s, a.slicers[i].accepted)
    ensures OfTimeframe(tfId, Slices(a.retrieved)) == DataOf(tfId, a.emitted) + OfTimeframe(tfId, a.late)
  {
    hide OfTimeframe, DataOf, Flatten, Select, SlicesOf, Accounted;
    assert a.InputOk(i) && a.IsDrained(i, true);
    DrainedSource(a.slicers[i], s);
    SlicesAreAccountedFor(a, tfId);
    NoDataBelow(tfId, []);
    assert DataOf(tfId, a.emitted) + [] == DataOf(tfId, a.emitted);
  }

  lemma DrainedSource(slicer: DataBlockSlicer, s: Source)
    requires slicer.Valid() && slicer.slices == [] && NothingPending(slicer.partialSlices)
    ensures Flatten(SlicesOf(s, slicer.delivered)) == Select(s, slicer.accepted)
  {
    hide AllTracked, PartialsOk, Flatten, Select, SlicesOf;
    SourceIsPreserved(slicer, s);
    NoSlices(s);
    NothingIsPending(slicer.partialSlices, s);
    assert SlicesOf(s, slicer.delivered) + [] + [] == SlicesOf(s, slicer.delivered);
  }

  lemma NoSlices(s: Source)
    ensures SlicesOf(s, []) == []
  {
  }

  lemma {:induction false} NothingIsPending(partials: seq<PartialSlice>, s: Source)
    requires forall k :: 0 <= k < |partials| ==> partials[k].dataSet == []
    ensures PartialOf(s, partials) == []
  {
    if partials != [] { NothingIsPending(partials[1..], s); }
  }
}
