/**
 The timeframes which the aggregator collects before it sends them: what is held, what is given out, what comes too
 late.
 */
module StfBuffer {
  import opened Runs
  import opened DataBlocks

  /** A slice held for a timeframe. */
  datatype Sstf = Sstf(data: DataSet, updateTime: real)

  datatype Stf = Stf(tfId: nat, sstf: seq<Sstf>, updateTime: real)

  /** A slice taken from the slicer of an input. */
  datatype Retrieved = Retrieved(input: nat, slice: DataSet)

  predicate IsSorted(stfs: seq<Stf>) {
    forall i, j :: 0 <= i < j < |stfs| ==> stfs[i].tfId < stfs[j].tfId
  }

  /** The map entry of the timeframe gets one more slice, and is created at its place when there is none. */
  function AddSstf(stfs: seq<Stf>, tfId: nat, s: Sstf): seq<Stf> {
    if stfs == [] || tfId < stfs[0].tfId then [Stf(tfId, [s], s.updateTime)] + stfs
    else if stfs[0].tfId == tfId then [Stf(tfId, stfs[0].sstf + [s], s.updateTime)] + stfs[1..]
    else [stfs[0]] + AddSstf(stfs[1..], tfId, s)
  }

  function Data(sstf: seq<Sstf>): (r: seq<DataSet>)
    ensures |r| == |sstf| && forall k :: 0 <= k < |r| ==> r[k] == sstf[k].data
  {
    if sstf == [] then [] else Data(sstf[..|sstf| - 1]) + [Last(sstf).data]
  }

  /** The slices held for a timeframe, in order. */
  function DataOf(tfId: nat, stfs: seq<Stf>): seq<DataSet> {
    if stfs == [] then []
    else (if stfs[0].tfId == tfId then Data(stfs[0].sstf) else []) + DataOf(tfId, stfs[1..])
  }

  predicate IsOf(tfId: nat, slice: DataSet) {
    slice != [] && slice[0].timeframeId == tfId
  }

  function OfTimeframe(tfId: nat, slices: seq<DataSet>): seq<DataSet> {
    if slices == [] then []
    else OfTimeframe(tfId, slices[..|slices| - 1]) + if IsOf(tfId, Last(slices)) then [Last(slices)] else []
  }

  function Slices(retrieved: seq<Retrieved>): seq<DataSet> {
    if retrieved == [] then [] else Slices(retrieved[..|retrieved| - 1]) + [Last(retrieved).slice]
  }

  /** The slices taken from one input, in order. */
  function FromInput(input: nat, retrieved: seq<Retrieved>): seq<DataSet> {
    if retrieved == [] then []
    else FromInput(input, retrieved[..|retrieved| - 1]) + if Last(retrieved).input == input then [Last(retrieved).slice]
         else []
  }

  lemma RetrievedSnoc(retrieved: seq<Retrieved>, x: Retrieved, input: nat)
    ensures Slices(retrieved + [x]) == Slices(retrieved) + [x.slice]
    ensures x.input == input ==> FromInput(input, retrieved + [x]) == FromInput(input, retrieved) + [x.slice]
    ensures x.input != input ==> FromInput(input, retrieved + [x]) == FromInput(input, retrieved)
  {
    assert (retrieved + [x])[..|retrieved|] == retrieved;
  }

  // ----- what is sent -----

  function MarkEnd(d: DataSet): DataSet {
    if d == [] then [] else d[..|d| - 1] + [Last(d).(flagEndOfTimeframe := true)]
  }

  /** The data sets of a timeframe as they are sent, the last block of the last one marked. */
  function Marked(data: seq<DataSet>): seq<DataSet> {
    if data == [] then [] else data[..|data| - 1] + [MarkEnd(Last(data))]
  }

  function Stream(stfs: seq<Stf>): seq<DataSet> {
    if stfs == [] then [] else Stream(stfs[..|stfs| - 1]) + Marked(Data(Last(stfs).sstf))
  }

  /** A slice of one timeframe, not marked. */
  ghost predicate IsPlainSlice(tfId: nat, d: DataSet) {
    d != [] && forall k :: 0 <= k < |d| ==> d[k].timeframeId == tfId && !d[k].flagEndOfTimeframe
  }

  /** Slices of one timeframe, which is as old as the latest of them. */
  ghost predicate StfOk(stf: Stf) {
    && stf.sstf != [] && stf.updateTime == Last(stf.sstf).updateTime
    && forall k :: 0 <= k < |stf.sstf| ==> IsPlainSlice(stf.tfId, stf.sstf[k].data)
  }

  ghost predicate StfsOk(stfs: seq<Stf>) {
    IsSorted(stfs) && forall i :: 0 <= i < |stfs| ==> StfOk(stfs[i])
  }

  /** Data sets of one timeframe in a row, of which the very last block is marked, and no other. */
  ghost predicate IsMarkedTimeframe(tfId: nat, sent: seq<DataSet>) {
    && sent != []
    && (forall i :: 0 <= i < |sent| ==> sent[i] != [])
    && (forall i, k :: 0 <= i < |sent| && 0 <= k < |sent[i]| ==>
          && sent[i][k].timeframeId == tfId
          && (sent[i][k].flagEndOfTimeframe <==> i == |sent| - 1 && k == |sent[i]| - 1))
  }

  lemma MarkedOnce(stf: Stf)
    requires StfOk(stf)
    ensures IsMarkedTimeframe(stf.tfId, Marked(Data(stf.sstf)))
  {
    var data := Data(stf.sstf);
    var sent: seq<DataSet> := Marked(data);
    forall i | 0 <= i < |sent|
      ensures sent[i] != []
      ensures forall k :: 0 <= k < |sent[i]| ==>
                          && sent[i][k].timeframeId == stf.tfId
                          && (sent[i][k].flagEndOfTimeframe <==> i == |sent| - 1 && k == |sent[i]| - 1)
    {
      assert IsPlainSlice(stf.tfId, stf.sstf[i].data);
    }
  }

  /** The slices of all timeframes, in order. */
  function SlicesIn(stfs: seq<Stf>): seq<DataSet> {
    if stfs == [] then [] else SlicesIn(stfs[..|stfs| - 1]) + Data(Last(stfs).sstf)
  }

  /** The same blocks in the same order, whatever their end flags. */
  predicate HasBlocksOf(sent: DataSet, slice: DataSet) {
    && |sent| == |slice|
    && forall k :: 0 <= k < |sent| ==> sent[k].(flagEndOfTimeframe := false) == slice[k].(flagEndOfTimeframe := false)
  }

  predicate HaveBlocksOf(sent: seq<DataSet>, slices: seq<DataSet>) {
    |sent| == |slices| && forall i :: 0 <= i < |sent| ==> HasBlocksOf(sent[i], slices[i])
  }

  /** Sending changes flags only: every slice goes out whole, one data set each. */
  lemma {:induction false} StreamHasBlocks(stfs: seq<Stf>)
    ensures HaveBlocksOf(Stream(stfs), SlicesIn(stfs))
  {
    if stfs != [] {
      StreamHasBlocks(stfs[..|stfs| - 1]);
      MarkedHasBlocks(Data(Last(stfs).sstf));
    }
  }

  lemma MarkedHasBlocks(data: seq<DataSet>)
    ensures HaveBlocksOf(Marked(data), data)
  {
  }

  // ----- the account of each timeframe -----

  /**
   For a timeframe, the slices taken from the slicers are the ones sent, then the ones held, then the ones discarded
   because the timeframe had gone.
   */
  ghost predicate Tracked(tfId: nat, slices: seq<DataSet>, emitted: seq<Stf>, held: seq<Stf>, late: seq<DataSet>) {
    OfTimeframe(tfId, slices) == DataOf(tfId, emitted) + DataOf(tfId, held) + OfTimeframe(tfId, late)
  }

  /** The last timeframe sent is above the ones sent before and the ones discarded, and below the ones held. */
  ghost predicate IsLastSent(last: nat, emitted: seq<Stf>, held: seq<Stf>, late: seq<DataSet>) {
    && last == (if emitted == [] then 0 else Last(emitted).tfId)
    && (forall i :: 0 <= i < |emitted| ==> 0 < emitted[i].tfId <= last)
    && (forall i :: 0 <= i < |held| ==> held[i].tfId > last)
    && (forall i :: 0 <= i < |late| ==> late[i] != [] && late[i][0].timeframeId <= last)
  }

  ghost predicate Accounted(slices: seq<DataSet>, emitted: seq<Stf>, held: seq<Stf>, late: seq<DataSet>, last: nat) {
    && StfsOk(emitted) && StfsOk(held) && IsLastSent(last, emitted, held, late)
    && (forall tfId :: Tracked(tfId, slices, emitted, held, late))
  }

  lemma OfTimeframeSnoc(tfId: nat, slices: seq<DataSet>, d: DataSet)
    ensures IsOf(tfId, d) ==> OfTimeframe(tfId, slices + [d]) == OfTimeframe(tfId, slices) + [d]
    ensures !IsOf(tfId, d) ==> OfTimeframe(tfId, slices + [d]) == OfTimeframe(tfId, slices)
  {
    assert (slices + [d])[..|slices|] == slices;
  }

  lemma {:induction false} NothingOf(tfId: nat, slices: seq<DataSet>)
    requires forall i :: 0 <= i < |slices| ==> !IsOf(tfId, slices[i])
    ensures OfTimeframe(tfId, slices) == []
  {
    if slices != [] { NothingOf(tfId, slices[..|slices| - 1]); }
  }

  lemma {:induction false} DataOfAppend(tfId: nat, a: seq<Stf>, b: seq<Stf>)
    ensures DataOf(tfId, a + b) == DataOf(tfId, a) + DataOf(tfId, b)
  {
    if a == [] {
      assert a + b == b;
    } else {
      assert (a + b)[1..] == a[1..] + b;
      DataOfAppend(tfId, a[1..], b);
    }
  }

  lemma {:induction false} NoDataBelow(tfId: nat, stfs: seq<Stf>)
    requires forall i :: 0 <= i < |stfs| ==> stfs[i].tfId > tfId
    ensures DataOf(tfId, stfs) == []
  {
    if stfs != [] { NoDataBelow(tfId, stfs[1..]); }
  }

  lemma {:induction false} AddData(stfs: seq<Stf>, tfId: nat, s: Sstf, tf: nat)
    requires IsSorted(stfs)
    ensures DataOf(tf, AddSstf(stfs, tfId, s)) == DataOf(tf, stfs) + if tf == tfId then [s.data] else []
  {
    if stfs == [] || tfId < stfs[0].tfId {
      if tf == tfId { NoDataBelow(tf, stfs); }
      assert AddSstf(stfs, tfId, s)[1..] == stfs;
    } else if stfs[0].tfId == tfId {
      if tf == tfId { NoDataBelow(tf, stfs[1..]); }
      assert AddSstf(stfs, tfId, s)[1..] == stfs[1..];
      assert (stfs[0].sstf + [s])[..|stfs[0].sstf|] == stfs[0].sstf;
    } else {
      AddData(stfs[1..], tfId, s, tf);
      assert AddSstf(stfs, tfId, s)[1..] == AddSstf(stfs[1..], tfId, s);
    }
  }

  lemma {:induction false} AddKeepsOk(stfs: seq<Stf>, tfId: nat, s: Sstf)
    requires StfsOk(stfs) && IsPlainSlice(tfId, s.data)
    ensures StfsOk(AddSstf(stfs, tfId, s))
    ensures forall x :: x in AddSstf(stfs, tfId, s) ==> x.tfId == tfId || x in stfs
    ensures forall x :: x in AddSstf(stfs, tfId, s) && x.tfId == tfId ==> Last(x.sstf) == s
  {
    if stfs == [] || tfId < stfs[0].tfId {
      assert StfOk(Stf(tfId, [s], s.updateTime));
    } else if stfs[0].tfId == tfId {
      assert StfOk(Stf(tfId, stfs[0].sstf + [s], s.updateTime));
    } else {
      AddKeepsOk(stfs[1..], tfId, s);
      var tail := AddSstf(stfs[1..], tfId, s);
      forall j | 0 <= j < |tail|
        ensures stfs[0].tfId < tail[j].tfId
      {
        assert tail[j] in tail;
      }
    }
  }

  lemma HoldTracked(slices: seq<DataSet>, emitted: seq<Stf>, held: seq<Stf>, late: seq<DataSet>, last: nat, tfId: nat,
                    s: Sstf, tf: nat)
    requires IsSorted(held) && Tracked(tf, slices, emitted, held, late) && IsOf(tfId, s.data)
    requires tfId > last && forall i :: 0 <= i < |late| ==> late[i] != [] && late[i][0].timeframeId <= last
    ensures Tracked(tf, slices + [s.data], emitted, AddSstf(held, tfId, s), late)
  {
    hide DataOf, OfTimeframe;
    OfTimeframeSnoc(tf, slices, s.data);
    AddData(held, tfId, s, tf);
    if tf == tfId { NothingOf(tf, late); }
  }

  /** A slice of a timeframe not sent yet is held. */
  lemma HoldKeeps(slices: seq<DataSet>, emitted: seq<Stf>, held: seq<Stf>, late: seq<DataSet>, last: nat, tfId: nat,
                  s: Sstf)
    requires Accounted(slices, emitted, held, late, last) && IsPlainSlice(tfId, s.data) && tfId > last
    ensures Accounted(slices + [s.data], emitted, AddSstf(held, tfId, s), late, last)
  {
    var held' := AddSstf(held, tfId, s);
    AddKeepsOk(held, tfId, s);
    forall i | 0 <= i < |held'|
      ensures held'[i].tfId > last
    {
      assert held'[i] in held';
    }
    forall tf
      ensures Tracked(tf, slices + [s.data], emitted, held', late)
    {
      HoldTracked(slices, emitted, held, late, last, tfId, s, tf);
    }
  }

  /** A slice of a timeframe which may have been sent is discarded. */
  lemma DiscardKeeps(slices: seq<DataSet>, emitted: seq<Stf>, held: seq<Stf>, late: seq<DataSet>, last: nat, d: DataSet)
    requires Accounted(slices, emitted, held, late, last) && d != [] && d[0].timeframeId <= last
    ensures Accounted(slices + [d], emitted, held, late + [d], last)
  {
    forall tf
      ensures Tracked(tf, slices + [d], emitted, held, late + [d])
    {
      assert Tracked(tf, slices, emitted, held, late);
      OfTimeframeSnoc(tf, slices, d);
      OfTimeframeSnoc(tf, late, d);
    }
  }

  lemma EmitTracked(slices: seq<DataSet>, emitted: seq<Stf>, held: seq<Stf>, late: seq<DataSet>, tf: nat)
    requires Tracked(tf, slices, emitted, held, late) && held != []
    ensures Tracked(tf, slices, emitted + [held[0]], held[1..], late)
  {
    hide DataOf, OfTimeframe;
    DataOfAppend(tf, emitted, [held[0]]);
    FirstOf(tf, held);
  }

  lemma FirstOf(tf: nat, held: seq<Stf>)
    requires held != []
    ensures DataOf(tf, held) == DataOf(tf, [held[0]]) + DataOf(tf, held[1..])
  {
    DataOfAppend(tf, [held[0]], held[1..]);
    assert [held[0]] + held[1..] == held;
  }

  /** The first timeframe held is sent. */
  lemma EmitKeeps(slices: seq<DataSet>, emitted: seq<Stf>, held: seq<Stf>, late: seq<DataSet>, last: nat)
    requires Accounted(slices, emitted, held, late, last) && held != []
    ensures Accounted(slices, emitted + [held[0]], held[1..], late, held[0].tfId) && StfOk(held[0])
  {
    forall tf
      ensures Tracked(tf, slices, emitted + [held[0]], held[1..], late)
    {
      EmitTracked(slices, emitted, held, late, tf);
    }
  }

  lemma StreamSnoc(stfs: seq<Stf>, stf: Stf)
    ensures Stream(stfs + [stf]) == Stream(stfs) + Marked(Data(stf.sstf))
  {
    assert (stfs + [stf])[..|stfs|] == stfs;
  }
}
