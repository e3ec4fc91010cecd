/**
 processForDataDistribution: the data sets of a timeframe are buffered together, and given to one of the formatting
 threads. Each attempt to give a timeframe to a thread may find its FIFO full.
 */
module TimeframeDispatch {
  import opened Sequences
  import opened Runs
  import opened DataBlocks
  import opened Options
  import opened StfBuffer
  import opened WorkerProtocol

  datatype Dispatcher = Dispatcher(buffer: Option<seq<DataSet>>, tfId: nat, dispatched: seq<seq<DataSet>>)

  const START: Dispatcher := Dispatcher(None, UNDEFINED_TIMEFRAME, [])

  /** Whether the first and the second attempt of a call, if any, find the FIFO full. */
  datatype Fullness = Fullness(first: bool, second: bool)

  /** Gives the current timeframe to a thread; it stays where it is when there is no room. */
  function PushCurrent(d: Dispatcher, full: bool): Dispatcher {
    if d.buffer.None? || full then d
    else d.(buffer := None, dispatched := d.dispatched + [d.buffer.value])
  }

  /** A new timeframe takes the place of the one which could not be given. */
  function Open(d: Dispatcher, tfId: nat, full: bool): Dispatcher {
    if tfId == d.tfId then d else PushCurrent(d, full).(buffer := Some([]), tfId := tfId)
  }

  predicate IsMixed(bc: DataSet)
    requires bc != []
  {
    bc[0].timeframeId != Last(bc).timeframeId
  }

  /** Whether the data set is refused. */
  predicate IsRefused(d: Dispatcher, bc: DataSet, full: Fullness) {
    bc != [] && (IsMixed(bc) || Open(d, bc[0].timeframeId, full.first).buffer.None?)
  }

  function Process(d: Dispatcher, bc: DataSet, full: Fullness): Dispatcher {
    if bc == [] || IsMixed(bc) then d
    else
      var open := Open(d, bc[0].timeframeId, full.first);
      if open.buffer.None? then open
      else
        var added := open.(buffer := Some(open.buffer.value + [bc]));
        if Last(bc).flagEndOfTimeframe then PushCurrent(added, full.second) else added
  }

  function Feed(data: seq<DataSet>, full: seq<Fullness>): Dispatcher
    requires |full| == |data|
  {
    if data == [] then START
    else Process(Feed(data[..|data| - 1], full[..|data| - 1]), Last(data), Last(full))
  }

  predicate NeverRefused(data: seq<DataSet>, full: seq<Fullness>)
    requires |full| == |data|
  {
    data == [] ||
    (var n := |data| - 1;
     NeverRefused(data[..n], full[..n]) && !IsRefused(Feed(data[..n], full[..n]), data[n], full[n]))
  }

  /** No FIFO was full. */
  predicate IsClean(full: seq<Fullness>) {
    full == [] || (IsClean(full[..|full| - 1]) && !Last(full).first && !Last(full).second)
  }

  /** Complete timeframes one after the other. */
  ghost predicate IsStfStream(tfs: seq<nat>, groups: seq<seq<DataSet>>) {
    && |tfs| == |groups|
    && (forall k :: 0 <= k < |groups| ==> tfs[k] > UNDEFINED_TIMEFRAME && IsMarkedTimeframe(tfs[k], groups[k]))
    && (forall i, j :: 0 <= i < j < |tfs| ==> tfs[i] < tfs[j])
  }

  /** Some of the timeframes before m, whole, each at most once and in order. */
  ghost predicate IsSelection(groups: seq<seq<DataSet>>, m: nat, sel: seq<nat>, out: seq<seq<DataSet>>) {
    && |sel| == |out|
    && (forall i :: 0 <= i < |sel| ==> sel[i] < m <= |groups| && out[i] == groups[sel[i]])
    && (forall i, j :: 0 <= i < j < |sel| ==> sel[i] < sel[j])
  }

  /** After m timeframes and a part of the next one. */
  ghost predicate Inv(d: Dispatcher, tfs: seq<nat>, groups: seq<seq<DataSet>>, m: nat, part: seq<DataSet>,
                      sel: seq<nat>, clean: bool) {
    && m <= |groups| == |tfs| && IsSelection(groups, m, sel, d.dispatched)
    && (part != [] ==>
        m < |groups| && |part| < |groups[m]| && part <= groups[m] && d.buffer == Some(part)
        && d.tfId == tfs[m])
    && (part == [] ==> d.tfId == (if m == 0 then UNDEFINED_TIMEFRAME else tfs[m - 1]))
    && (part == [] && d.buffer.Some? ==>
        m > 0 && d.buffer.value == groups[m - 1]
        && IsSelection(groups, m - 1, sel, d.dispatched) && !clean)
    && (part == [] && d.buffer.None? && m > 0 ==> m - 1 in sel)
    && (clean ==> d.dispatched == groups[..m])
  }

  /**
   What a data set of the m-th timeframe changes: when it is the first one, the timeframe before is given, if it was not
   and there is room; when it is the last one, so is its own.
   */
  ghost predicate IsChosen(sel: seq<nat>, sel': seq<nat>, m: nat, opens: bool, closes: bool, full: Fullness) {
    && (forall k: nat :: k < m ==> (k in sel' <==> k in sel || (opens && k == m - 1 && !full.first)))
    && (closes ==> (m in sel' <==> !full.second))
  }

  /** The timeframe opens: the one before it was given, is given now, or is dropped. */
  lemma OpenKeeps(d: Dispatcher, tfs: seq<nat>, groups: seq<seq<DataSet>>, m: nat, sel: seq<nat>, clean: bool,
                  full: bool) returns (sel': seq<nat>)
    requires Inv(d, tfs, groups, m, [], sel, clean) && IsStfStream(tfs, groups) && m < |groups|
    ensures var open := Open(d, tfs[m], full);
            && open.buffer == Some([]) && open.tfId == tfs[m] && IsSelection(groups, m, sel', open.dispatched)
            && (clean ==> open.dispatched == groups[..m])
    ensures IsChosen(sel, sel', m, true, false, Fullness(full, true))
  {
    hide IsMarkedTimeframe, IsSelection;
    sel' := sel;
    SelectMore(groups, m - 1, m, sel, d.dispatched);
    if d.buffer.Some? {
      SelectNext(groups, m - 1, sel, d.dispatched);
      if !full { sel' := sel + [m - 1]; }
    }
  }

  lemma SelectNext(groups: seq<seq<DataSet>>, m: nat, sel: seq<nat>, out: seq<seq<DataSet>>)
    requires m < |groups| && IsSelection(groups, m, sel, out)
    ensures IsSelection(groups, m + 1, sel + [m], out + [groups[m]])
  {
  }

  lemma SelectMore(groups: seq<seq<DataSet>>, k: int, m: nat, sel: seq<nat>, out: seq<seq<DataSet>>)
    requires m <= |groups| && k <= m
    ensures k >= 0 && IsSelection(groups, k, sel, out) ==> IsSelection(groups, m, sel, out)
  {
  }

  /** The end of the timeframe: it is given, or stays for one more attempt. */
  lemma CloseKeeps(d: Dispatcher, tfs: seq<nat>, groups: seq<seq<DataSet>>, m: nat, sel: seq<nat>, clean: bool,
                   full: bool) returns (sel': seq<nat>)
    requires |tfs| == |groups| && m < |groups| && IsSelection(groups, m, sel, d.dispatched)
    requires d.buffer == Some(groups[m]) && d.tfId == tfs[m] && (clean ==> d.dispatched == groups[..m])
    ensures Inv(PushCurrent(d, full), tfs, groups, m + 1, [], sel', clean && !full)
    ensures sel' == if full then sel else sel + [m]
  {
    hide IsSelection;
    SelectNext(groups, m, sel, d.dispatched);
    SelectMore(groups, m, m + 1, sel, d.dispatched);
    sel' := if !full then sel + [m] else sel;
    assert groups[..m + 1] == groups[..m] + [groups[m]];
  }

  lemma ProcessKeeps(d: Dispatcher, tfs: seq<nat>, groups: seq<seq<DataSet>>, m: nat, part: seq<DataSet>, sel: seq<nat>,
                     clean: bool, full: Fullness)
    returns (sel': seq<nat>)
    requires Inv(d, tfs, groups, m, part, sel, clean) && IsStfStream(tfs, groups) && m < |groups|
    ensures |part| < |groups[m]|
    ensures var bc := groups[m][|part|];
            var d', clean' := Process(d, bc, full), clean && !full.first && !full.second;
            && !IsRefused(d, bc, full)
            && (|part| + 1 < |groups[m]| ==> Inv(d', tfs, groups, m, part + [bc], sel', clean'))
            && (|part| + 1 == |groups[m]| ==> Inv(d', tfs, groups, m + 1, [], sel', clean'))
            && IsChosen(sel, sel', m, part == [], |part| + 1 == |groups[m]|, full)
  {
    assert IsMarkedTimeframe(tfs[m], groups[m]);
    var bc := groups[m][|part|];
    assert bc[0].timeframeId == tfs[m] && Last(bc).timeframeId == tfs[m];
    assert Last(bc).flagEndOfTimeframe <==> |part| == |groups[m]| - 1;
    sel' := sel;
    if part == [] {
      sel' := OpenKeeps(d, tfs, groups, m, sel, clean, full.first);
    }
    var open := Open(d, tfs[m], full.first);
    assert open.buffer == Some(part) && IsSelection(groups, m, sel', open.dispatched);
    var added := open.(buffer := Some(part + [bc]));
    if |part| + 1 == |groups[m]| {
      assert part + [bc] == groups[m];
      sel' := CloseKeeps(added, tfs, groups, m, sel', clean, full.second);
    }
  }

  /** How many data sets there are up to the end of a timeframe. */
  function EndOf(groups: seq<seq<DataSet>>, k: nat): nat
    requires k < |groups|
  {
    |Flatten(groups[..k + 1])|
  }

  /** There was room for the timeframe when its last data set came, or else when the next timeframe opened. */
  predicate HadRoom(groups: seq<seq<DataSet>>, full: seq<Fullness>, k: nat)
    requires k < |groups|
  {
    var e := EndOf(groups, k);
    0 < e <= |full| && (!full[e - 1].second || (e < |full| && !full[e].first))
  }

  ghost predicate IsGiven(groups: seq<seq<DataSet>>, full: seq<Fullness>, m: nat, sel: seq<nat>)
    requires m <= |groups|
  {
    forall k: nat :: k < m ==> (k in sel <==> HadRoom(groups, full, k))
  }

  lemma {:induction false} EndsFollow(groups: seq<seq<DataSet>>, k: nat, m: nat)
    requires k < m <= |groups| && forall i :: 0 <= i < |groups| ==> groups[i] != []
    ensures 0 < EndOf(groups, k) <= |Flatten(groups[..m])|
    ensures EndOf(groups, k) == |Flatten(groups[..m])| ==> k == m - 1
  {
    assert groups[..m] == groups[..m - 1] + [groups[m - 1]];
    FlattenSnoc(groups[..m - 1], groups[m - 1]);
    if k < m - 1 { EndsFollow(groups, k, m - 1); }
  }

  /** One data set more, which is the next one of the m-th timeframe. */
  lemma GivenNext(groups: seq<seq<DataSet>>, full: seq<Fullness>, m: nat, part: seq<DataSet>, sel: seq<nat>,
                  sel': seq<nat>)
    requires (forall i :: 0 <= i < |groups| ==> groups[i] != []) && full != [] && m < |groups| && |part| < |groups[m]|
    requires |full| - 1 == |Flatten(groups[..m])| + |part| && IsGiven(groups, full[..|full| - 1], m, sel)
    requires IsChosen(sel, sel', m, part == [], |part| + 1 == |groups[m]|, full[|full| - 1])
    ensures IsGiven(groups, full, m, sel')
    ensures |part| + 1 == |groups[m]| ==> IsGiven(groups, full, m + 1, sel')
  {
    hide Flatten;
    var n := |full| - 1;
    forall k: nat | k < m
      ensures k in sel' <==> HadRoom(groups, full, k)
    {
      EndsFollow(groups, k, m);
    }
    if |part| + 1 == |groups[m]| {
      assert groups[..m + 1] == groups[..m] + [groups[m]];
      FlattenSnoc(groups[..m], groups[m]);
      assert EndOf(groups, m) == n + 1;
    }
  }

  /**
   A stream of complete timeframes, whatever the state of the FIFOs and wherever it is looked at: no data set is
   refused, in particular there is always a buffer for it; what was given to the threads is some of the timeframes
   received so far, each whole, at most once, and in order: those for which a FIFO had room at one of two attempts, and
   no other.
   */
  lemma {:induction false} WholeTimeframesAreDispatched(tfs: seq<nat>, groups: seq<seq<DataSet>>, data: seq<DataSet>,
                                                        full: seq<Fullness>)
    returns (m: nat, part: seq<DataSet>, sel: seq<nat>)
    requires IsStfStream(tfs, groups) && |full| == |data| && data <= Flatten(groups)
    ensures NeverRefused(data, full)
    ensures m <= |groups| && data == Flatten(groups[..m]) + part && (part != [] ==> m < |groups| && part <= groups[m])
    ensures Inv(Feed(data, full), tfs, groups, m, part, sel, IsClean(full)) && IsGiven(groups, full, m, sel)
    decreases |data|
  {
    hide IsMarkedTimeframe, IsSelection, Flatten, Process, IsRefused;
    if data == [] {
      m, part, sel := 0, [], [];
      assert groups[..0] == [];
      NothingSelected(groups);
    } else {
      GroupsAreNotEmpty(tfs, groups);
      var n := |data| - 1;
      m, part, sel := WholeTimeframesAreDispatched(tfs, groups, data[..n], full[..n]);
      NextOfStream(groups, data, m, part);
      var sel' := ProcessKeeps(Feed(data[..n], full[..n]), tfs, groups, m, part, sel, IsClean(full[..n]), full[n]);
      GivenNext(groups, full, m, part, sel, sel');
      sel := sel';
      m, part := Advance(groups, m, part, data);
    }
  }

  lemma NothingSelected(groups: seq<seq<DataSet>>)
    ensures IsSelection(groups, 0, [], []) && Flatten(groups[..0]) == []
  {
  }

  lemma GroupsAreNotEmpty(tfs: seq<nat>, groups: seq<seq<DataSet>>)
    requires IsStfStream(tfs, groups)
    ensures forall k :: 0 <= k < |groups| ==> groups[k] != []
  {
  }

  lemma Advance(groups: seq<seq<DataSet>>, m: nat, part: seq<DataSet>, data: seq<DataSet>)
    returns (m': nat, part': seq<DataSet>)
    requires m < |groups| && |part| < |groups[m]| && part <= groups[m] && data != []
    requires data[..|data| - 1] == Flatten(groups[..m]) + part && Last(data) == groups[m][|part|]
    ensures var last := |part| + 1 == |groups[m]|;
            if last then m' == m + 1 && part' == []
               else m' == m && part' == part + [groups[m][|part|]] && part' <= groups[m]
    ensures data == Flatten(groups[..m']) + part'
  {
    m', part' := m, part + [groups[m][|part|]];
    assert data == data[..|data| - 1] + [Last(data)];
    if |part| + 1 == |groups[m]| {
      assert groups[..m + 1] == groups[..m] + [groups[m]];
      FlattenSnoc(groups[..m], groups[m]);
      assert part' == groups[m];
      m', part' := m + 1, [];
    }
  }

  lemma NextOfStream(groups: seq<seq<DataSet>>, data: seq<DataSet>, m: nat, part: seq<DataSet>)
    requires data != [] && data <= Flatten(groups) && m <= |groups|
    requires data[..|data| - 1] == Flatten(groups[..m]) + part
             && (part != [] ==> m < |groups| && |part| < |groups[m]| && part <= groups[m])
    requires forall k :: 0 <= k < |groups| ==> groups[k] != []
    ensures m < |groups| && |part| < |groups[m]| && Last(data) == groups[m][|part|]
  {
    hide Flatten;
    var n := |data| - 1;
    assert groups[..|groups|] == groups;
    if m < |groups| {
      assert groups == groups[..m + 1] + groups[m + 1..];
      assert groups[..m + 1] == groups[..m] + [groups[m]];
      FlattenSnoc(groups[..m], groups[m]);
      FlattenAppend(groups[..m + 1], groups[m + 1..]);
      assert Flatten(groups)[n] == groups[m][|part|];
    }
  }

  /** With room in the FIFOs, a stream of complete timeframes is given to the threads as it is. */
  lemma AllTimeframesAreDispatched(tfs: seq<nat>, groups: seq<seq<DataSet>>, full: seq<Fullness>)
    requires IsStfStream(tfs, groups) && |full| == |Flatten(groups)| && IsClean(full)
    ensures Feed(Flatten(groups), full).dispatched == groups && Feed(Flatten(groups), full).buffer.None?
  {
    hide Feed, IsMarkedTimeframe, IsSelection, Flatten;
    var data := Flatten(groups);
    var m, part, sel := WholeTimeframesAreDispatched(tfs, groups, data, full);
    assert groups[..|groups|] == groups;
    LengthUpTo(groups, m);
    GroupsAreNotEmpty(tfs, groups);
  }

  lemma LengthUpTo(groups: seq<seq<DataSet>>, m: nat)
    ensures m < |groups| ==> |Flatten(groups)| >= |Flatten(groups[..m])| + |groups[m]|
  {
    if m < |groups| {
      assert groups == groups[..m + 1] + groups[m + 1..];
      assert groups[..m + 1] == groups[..m] + [groups[m]];
      FlattenSnoc(groups[..m], groups[m]);
      FlattenAppend(groups[..m + 1], groups[m + 1..]);
    }
  }

  predicate IsFull(threads: State<DataSet>)
    requires threads.ixWrite < |threads.workers|
  {
    |threads.workers[threads.ixWrite].input| >= threads.capacity
  }

  /** The threads after an attempt to give them the current timeframe. */
  function ThreadsAfterPush(d: Dispatcher, threads: State<DataSet>): (r: State<DataSet>)
    requires threads.ixWrite < |threads.workers|
    ensures r.ixWrite < |r.workers|
  {
    if d.buffer.None? then threads else Dispatch(threads, d.buffer.value)
  }

  /** The threads after a call: they get the timeframe before, when a new one opens, and this one when it ends. */
  function ThreadsAfter(d: Dispatcher, threads: State<DataSet>, bc: DataSet, full: Fullness): (r: State<DataSet>)
    requires threads.ixWrite < |threads.workers|
    ensures r.ixWrite < |r.workers|
  {
    if bc == [] || IsMixed(bc) then threads
    else
      var first := if bc[0].timeframeId == d.tfId then threads else ThreadsAfterPush(d, threads);
      var open := Open(d, bc[0].timeframeId, full.first);
      if open.buffer.None? || !Last(bc).flagEndOfTimeframe then first
      else ThreadsAfterPush(open.(buffer := Some(open.buffer.value + [bc])), first)
  }

  class TimeframeDispatcher {
    var currentTimeframeBuffer: Option<seq<DataSet>>
    var currentTimeframeId: nat
    var threads: State<DataSet>
    var totalPushError: nat

    constructor (threads: State<DataSet>)
      requires threads.dispatched == []
      ensures Value() == START && this.threads == threads && totalPushError == 0
    {
      currentTimeframeBuffer, currentTimeframeId, this.threads, totalPushError := None, UNDEFINED_TIMEFRAME, threads, 0;
    }

    ghost function Value(): Dispatcher
      reads this
    {
      Dispatcher(currentTimeframeBuffer, currentTimeframeId, threads.dispatched)
    }

    method PushCurrentTimeframe() returns (r: int)
      requires threads.ixWrite < |threads.workers|
      modifies this
      ensures Value() == PushCurrent(old(Value()), IsFull(old(threads)))
      ensures threads == ThreadsAfterPush(old(Value()), old(threads))
      ensures r == if old(currentTimeframeBuffer).Some? && IsFull(old(threads)) then -1 else 0
      ensures totalPushError == old(totalPushError) - r && threads.ixWrite < |threads.workers|
    {
      if currentTimeframeBuffer.None? {
        return 0;
      }
      var full := IsFull(threads);
      threads := Dispatch(threads, currentTimeframeBuffer.value);
      if full {
        totalPushError := totalPushError + 1;
        return -1;
      }
      currentTimeframeBuffer := None;
      return 0;
    }

    /** The effect on the threads is at most two steps of their protocol. */
    method ProcessForDataDistribution(bc: Option<DataSet>) returns (r: int, ghost full: Fullness)
      requires threads.ixWrite < |threads.workers|
      modifies this
      ensures full.first == IsFull(old(threads))
      ensures bc.None? ==> r == 0 && unchanged(this)
      ensures bc.Some? ==> Value() == Process(old(Value()), bc.value, full)
      ensures bc.Some? ==> threads == ThreadsAfter(old(Value()), old(threads), bc.value, full)
      ensures bc.Some? ==> (r == -1 <==> IsRefused(old(Value()), bc.value, full)) && (r == 0 || r == -1)
      ensures r == -1 ==> totalPushError > old(totalPushError)
      ensures r == 0 && bc.Some? && bc.value != [] ==>
                var isNew := bc.value[0].timeframeId != old(currentTimeframeId);
                totalPushError == old(totalPushError)
                  + (if isNew && old(currentTimeframeBuffer).Some? && full.first then 1 else 0)
                  + (if Last(bc.value).flagEndOfTimeframe && full.second then 1 else 0)
      ensures threads.ixWrite < |threads.workers|
    {
      full := Fullness(IsFull(threads), false);
      if bc.None? {
        return 0, full;
      }
      if |bc.value| == 0 {
        return 0, full;
      }
      var b1, b2 := bc.value[0], bc.value[|bc.value| - 1];
      if b1.timeframeId != b2.timeframeId {
        totalPushError := totalPushError + 1;
        return -1, full;
      }
      if b1.timeframeId != currentTimeframeId {
        var _ := PushCurrentTimeframe();
        currentTimeframeBuffer := Some([]);
        currentTimeframeId := b1.timeframeId;
      }
      if currentTimeframeBuffer.None? {
        totalPushError := totalPushError + 1;
        return -1, full;
      }
      currentTimeframeBuffer := Some(currentTimeframeBuffer.value + [bc.value]);
      full := full.(second := IsFull(threads));
      if b2.flagEndOfTimeframe {
        var _ := PushCurrentTimeframe();
      }
      return 0, full;
    }
  }
}
