/** From the aggregator to the receiver: no timeframe is mixed with another one, or seen without its end. */
module EndToEnd {
  import opened Rdh
  import opened Sequences
  import opened Runs
  import opened DataBlocks
  import opened StfBuffer
  import opened Aggregator
  import opened TimeframeDispatch
  import opened DDMessage
  import WorkerProtocol

  /** What the sender gets from a thread for a timeframe. */
  type Item = WorkerProtocol.Output<DataSet>

  // ----- the check of the receiver -----

  /** The timeframe changes while the last message did not end it. */
  predicate IsWarning(last: SubTimeframe, stf: SubTimeframe) {
    stf.timeframeId != last.timeframeId && last.timeframeId != UNDEFINED_TIMEFRAME && !last.lastTFMessage
  }

  function CountWarnings(headers: seq<SubTimeframe>): nat {
    if |headers| < 2 then 0
    else
      var n := |headers| - 1;
      CountWarnings(headers[..n]) + if IsWarning(headers[n - 1], headers[n]) then 1 else 0
  }

  /**
   The loop over the messages received; in the source the timeframe and the flag of the last message are two variables.
   */
  method CheckMessages(headers: seq<SubTimeframe>) returns (warnings: nat)
    ensures warnings == CountWarnings(headers)
  {
    var lastTFid, flagLastTFMessage := UNDEFINED_TIMEFRAME, false;
    warnings := 0;
    for i := 0 to |headers|
      invariant warnings == CountWarnings(headers[..i])
      invariant if i == 0 then lastTFid == UNDEFINED_TIMEFRAME
                else lastTFid == headers[i - 1].timeframeId && flagLastTFMessage == headers[i - 1].lastTFMessage
    {
      var stf := headers[i];
      assert headers[..i + 1][..i] == headers[..i];
      if stf.timeframeId != lastTFid {
        if lastTFid != UNDEFINED_TIMEFRAME {
          if !flagLastTFMessage {
            warnings := warnings + 1;
          }
        }
        lastTFid := stf.timeframeId;
      }
      flagLastTFMessage := stf.lastTFMessage;
    }
    assert headers[..|headers|] == headers;
  }

  /** Headers of one timeframe behind others: only the first of them can be a warning. */
  lemma {:induction false} CountSameTimeframe(before: seq<SubTimeframe>, id: nat, hs: seq<SubTimeframe>)
    requires hs != [] && forall i :: 0 <= i < |hs| ==> hs[i].timeframeId == id
    ensures CountWarnings(before + hs) == CountWarnings(before) + if before != [] && IsWarning(Last(before), hs[0])
            then 1 else 0
  {
    var n := |hs| - 1;
    var all := before + hs;
    assert all[..|all| - 1] == before + hs[..n];
    if n == 0 {
      assert before + hs[..0] == before;
    } else {
      CountSameTimeframe(before, id, hs[..n]);
      assert all[|all| - 2] == hs[n - 1] && all[|all| - 1] == hs[n];
    }
  }

  // ----- what the sender has sent -----

  function Headers(sets: seq<DataSet>): (hs: seq<SubTimeframe>)
    ensures |hs| == |sets| && forall i :: 0 <= i < |hs| ==> hs[i] == HeaderOf(sets[i])
  {
    seq(|sets|, i requires 0 <= i < |sets| => HeaderOf(sets[i]))
  }

  predicate IsSent(item: Item) {
    item.Messages? && item.list != []
  }

  /** The data sets of which a message was sent, in the order of the messages. */
  function SentSets(items: seq<Item>): seq<DataSet> {
    if items == [] then []
    else SentSets(items[..|items| - 1]) + if IsSent(Last(items)) then Last(items).list else []
  }

  lemma HeaderInTimeframe(tf: nat, group: seq<DataSet>, i: nat)
    requires IsMarkedTimeframe(tf, group) && i < |group|
    ensures HeaderOf(group[i]).timeframeId == tf % TWO_TO_32
    ensures HeaderOf(group[i]).lastTFMessage <==> i == |group| - 1
  {
    var d := group[i];
    assert d[0].timeframeId == tf;
    assert d[|d| - 1].flagEndOfTimeframe <==> i == |group| - 1;
  }

  /** An element of a subsequence comes from the whole, and only the last one can come from its end. */
  lemma {:induction false} WhereItComesFrom<D>(xs: seq<D>, ys: seq<D>, j: nat) returns (i: nat)
    requires WorkerProtocol.IsSubsequence(xs, ys) && j < |xs|
    ensures i < |ys| && ys[i] == xs[j] && (j < |xs| - 1 ==> i < |ys| - 1)
    decreases |ys|
  {
    if xs[0] == ys[0] && WorkerProtocol.IsSubsequence(xs[1..], ys[1..]) {
      if j == 0 {
        i := 0;
      } else {
        i := WhereItComesFrom(xs[1..], ys[1..], j - 1);
        i := i + 1;
      }
    } else {
      i := WhereItComesFrom(xs, ys[1..], j);
      i := i + 1;
    }
  }

  /**
   Messages sent of a timeframe have its identifier, and the last of them has the flag exactly when its end was sent.
   */
  lemma HeadersOfPart(tf: nat, group: seq<DataSet>, list: seq<DataSet>)
    requires IsMarkedTimeframe(tf, group) && WorkerProtocol.IsSubsequence(list, group) && list != []
    ensures group != [] && forall i :: 0 <= i < |list| ==> Headers(list)[i].timeframeId == tf % TWO_TO_32
    ensures Last(Headers(list)).lastTFMessage <==> Last(group) in list
  {
    hide IsMarkedTimeframe, HeaderOf;
    forall j | 0 <= j < |list|
      ensures Headers(list)[j].timeframeId == tf % TWO_TO_32
      ensures j < |list| - 1 ==> !Headers(list)[j].lastTFMessage
      ensures group != []
    {
      var i := WhereItComesFrom(list, group, j);
      HeaderInTimeframe(tf, group, i);
    }
    var i := WhereItComesFrom(list, group, |list| - 1);
    HeaderInTimeframe(tf, group, i);
    HeaderInTimeframe(tf, group, |group| - 1);
    if Last(group) in list {
      var j :| 0 <= j < |list| && list[j] == Last(group);
    }
  }

  // ----- when the end of a timeframe is lost -----

  /** Timeframes with their identifiers, and an item sent for each of the first ones. */
  ghost predicate AreResults(tfs: seq<nat>, groups: seq<seq<DataSet>>, items: seq<Item>) {
    && |items| <= |groups| == |tfs|
    && (forall k :: 0 <= k < |groups| ==> IsMarkedTimeframe(tfs[k], groups[k]))
    && (forall k :: 0 <= k < |items| ==> WorkerProtocol.ResultOf(groups[k], items[k]))
  }

  /** Timeframe k is the one of which messages were sent before those of timeframe l. */
  predicate IsNext(items: seq<Item>, k: nat, l: nat) {
    k < l < |items| && IsSent(items[k]) && IsSent(items[l]) && forall m :: k < m < l ==> !IsSent(items[m])
  }

  /** The end of timeframe k was not sent, and with 32 bits the receiver can tell it from timeframe l. */
  predicate EndIsMissing(tfs: seq<nat>, groups: seq<seq<DataSet>>, items: seq<Item>, k: nat, l: nat)
    requires k < |items| && l < |items| && |items| <= |groups| == |tfs| && items[k].Messages?
  {
    && groups[k] != [] && Last(groups[k]) !in items[k].list
    && tfs[k] % TWO_TO_32 != tfs[l] % TWO_TO_32 && tfs[k] % TWO_TO_32 != UNDEFINED_TIMEFRAME
  }

  predicate FollowsMissingEnd(tfs: seq<nat>, groups: seq<seq<DataSet>>, items: seq<Item>, l: nat)
    requires |items| <= |groups| == |tfs|
  {
    exists k :: 0 <= k < l && IsNext(items, k, l) && EndIsMissing(tfs, groups, items, k, l)
  }

  /** The timeframes sent after one of which the end was not sent. */
  function MissingEnds(tfs: seq<nat>, groups: seq<seq<DataSet>>, items: seq<Item>, n: nat): set<nat>
    requires |items| <= |groups| == |tfs|
  {
    set l | 0 <= l < n && FollowsMissingEnd(tfs, groups, items, l)
  }

  /** The timeframe of the latest message, if there is one. */
  ghost predicate IsLatest(items: seq<Item>, n: nat, k: nat) {
    k < n <= |items| && IsSent(items[k]) && forall m :: k < m < n ==> !IsSent(items[m])
  }

  /** The headers received of the first n timeframes. */
  function Received(items: seq<Item>, n: nat): seq<SubTimeframe>
    requires n <= |items|
  {
    Headers(SentSets(items[..n]))
  }

  lemma ReceivedNext(items: seq<Item>, n: nat)
    requires n < |items|
    ensures Received(items, n + 1) == Received(items, n) + if IsSent(items[n]) then Headers(items[n].list) else []
  {
    assert items[..n + 1][..n] == items[..n];
  }

  /** The latest header received is of timeframe k, and has the flag if the end of it was sent. */
  ghost predicate RemembersOf(tfs: seq<nat>, groups: seq<seq<DataSet>>, items: seq<Item>, n: nat, k: nat)
    requires |items| <= |groups| == |tfs| && n <= |items| && Received(items, n) != []
  {
    var last := Last(Received(items, n));
    && IsLatest(items, n, k) && groups[k] != []
    && last.timeframeId == tfs[k] % TWO_TO_32 && (last.lastTFMessage <==> Last(groups[k]) in items[k].list)
  }

  /** What the receiver remembers of the first n timeframes is the latest message. */
  ghost predicate Remembers(tfs: seq<nat>, groups: seq<seq<DataSet>>, items: seq<Item>, n: nat)
    requires |items| <= |groups| == |tfs| && n <= |items|
  {
    if Received(items, n) == [] then forall m :: 0 <= m < n ==> !IsSent(items[m])
    else exists k: nat :: RemembersOf(tfs, groups, items, n, k)
  }

  lemma FollowsLatest(tfs: seq<nat>, groups: seq<seq<DataSet>>, items: seq<Item>, k: nat, l: nat)
    requires |items| <= |groups| == |tfs| && l < |items| && IsLatest(items, l, k) && IsSent(items[l])
    ensures FollowsMissingEnd(tfs, groups, items, l) <==> EndIsMissing(tfs, groups, items, k, l)
  {
    assert IsNext(items, k, l);
    forall j | 0 <= j < l && IsNext(items, j, l)
      ensures j == k
    {
    }
  }

  /** Messages of one timeframe more. */
  lemma CountSent(tfs: seq<nat>, groups: seq<seq<DataSet>>, items: seq<Item>, n: nat)
    requires AreResults(tfs, groups, items) && n < |items| && Remembers(tfs, groups, items, n) && IsSent(items[n])
    ensures Remembers(tfs, groups, items, n + 1)
    ensures CountWarnings(Received(items, n + 1)) ==
            CountWarnings(Received(items, n)) + if FollowsMissingEnd(tfs, groups, items, n) then 1 else 0
  {
    hide IsMarkedTimeframe, CountWarnings, FollowsMissingEnd, Received;
    var before, list := Received(items, n), items[n].list;
    ReceivedNext(items, n);
    HeadersOfPart(tfs[n], groups[n], list);
    CountSameTimeframe(before, tfs[n] % TWO_TO_32, Headers(list));
    assert Last(Received(items, n + 1)) == Last(Headers(list));
    assert RemembersOf(tfs, groups, items, n + 1, n);
    if before != [] {
      var k: nat :| RemembersOf(tfs, groups, items, n, k);
      FollowsLatest(tfs, groups, items, k, n);
    } else {
      NothingBefore(tfs, groups, items, n);
    }
  }

  /** No message of the next timeframe. */
  lemma CountNotSent(tfs: seq<nat>, groups: seq<seq<DataSet>>, items: seq<Item>, n: nat)
    requires |items| <= |groups| == |tfs| && n < |items| && Remembers(tfs, groups, items, n) && !IsSent(items[n])
    ensures Remembers(tfs, groups, items, n + 1) && Received(items, n + 1) == Received(items, n)
    ensures !FollowsMissingEnd(tfs, groups, items, n)
  {
    hide Received;
    ReceivedNext(items, n);
    assert Received(items, n) + [] == Received(items, n);
    if Received(items, n) != [] {
      var k: nat :| RemembersOf(tfs, groups, items, n, k);
      assert RemembersOf(tfs, groups, items, n + 1, k);
    }
  }

  lemma NothingBefore(tfs: seq<nat>, groups: seq<seq<DataSet>>, items: seq<Item>, n: nat)
    requires |items| <= |groups| == |tfs| && n < |items| && forall m :: 0 <= m < n ==> !IsSent(items[m])
    ensures !FollowsMissingEnd(tfs, groups, items, n)
  {
  }

  lemma MissingEndsNext(tfs: seq<nat>, groups: seq<seq<DataSet>>, items: seq<Item>, n: nat)
    requires |items| <= |groups| == |tfs|
    ensures |MissingEnds(tfs, groups, items, n + 1)|
         == |MissingEnds(tfs, groups, items, n)| + if FollowsMissingEnd(tfs, groups, items, n) then 1 else 0
  {
    hide FollowsMissingEnd;
    var some, all := MissingEnds(tfs, groups, items, n), MissingEnds(tfs, groups, items, n + 1);
    assert all == some + if FollowsMissingEnd(tfs, groups, items, n) then {n} else {};
  }

  lemma NothingReceived(tfs: seq<nat>, groups: seq<seq<DataSet>>, items: seq<Item>)
    requires |items| <= |groups| == |tfs|
    ensures CountWarnings(Received(items, 0)) == 0 && Remembers(tfs, groups, items, 0)
  {
    assert items[..0] == [];
  }

  lemma {:induction false} CountMissingEnds(tfs: seq<nat>, groups: seq<seq<DataSet>>, items: seq<Item>, n: nat)
    requires AreResults(tfs, groups, items) && n <= |items|
    ensures CountWarnings(Received(items, n)) == |MissingEnds(tfs, groups, items, n)|
            && Remembers(tfs, groups, items, n)
  {
    hide FollowsMissingEnd, IsMarkedTimeframe, CountWarnings, SentSets, Remembers;
    if n == 0 {
      NothingReceived(tfs, groups, items);
      assert MissingEnds(tfs, groups, items, 0) == {};
    } else {
      CountMissingEnds(tfs, groups, items, n - 1);
      if IsSent(items[n - 1]) {
        CountSent(tfs, groups, items, n - 1);
      } else {
        CountNotSent(tfs, groups, items, n - 1);
      }
      MissingEndsNext(tfs, groups, items, n - 1);
    }
  }

  /** The receiver warns exactly once for each timeframe sent after one of which the end was not sent. */
  lemma WarningsAreMissingEnds(tfs: seq<nat>, groups: seq<seq<DataSet>>, items: seq<Item>)
    requires AreResults(tfs, groups, items)
    ensures CountWarnings(Headers(SentSets(items))) == |MissingEnds(tfs, groups, items, |items|)|
  {
    CountMissingEnds(tfs, groups, items, |items|);
    assert items[..|items|] == items;
  }

  // ----- the stream of the aggregator -----

  function TfIds(stfs: seq<Stf>): (r: seq<nat>)
    ensures |r| == |stfs| && forall i :: 0 <= i < |r| ==> r[i] == stfs[i].tfId
  {
    seq(|stfs|, i requires 0 <= i < |stfs| => stfs[i].tfId)
  }

  function Groups(stfs: seq<Stf>): seq<seq<DataSet>> {
    seq(|stfs|, i requires 0 <= i < |stfs| => Marked(Data(stfs[i].sstf)))
  }

  lemma {:induction false} StreamIsGroups(stfs: seq<Stf>)
    ensures Stream(stfs) == Flatten(Groups(stfs))
  {
    hide Marked, Data;
    if stfs != [] {
      var n := |stfs| - 1;
      StreamIsGroups(stfs[..n]);
      assert Groups(stfs) == Groups(stfs[..n]) + [Marked(Data(stfs[n].sstf))];
      FlattenSnoc(Groups(stfs[..n]), Marked(Data(stfs[n].sstf)));
    }
  }

  lemma GroupsAreStream(stfs: seq<Stf>)
    requires StfsOk(stfs) && forall i :: 0 <= i < |stfs| ==> stfs[i].tfId > 0
    ensures IsStfStream(TfIds(stfs), Groups(stfs))
  {
    var tfs, groups := TfIds(stfs), Groups(stfs);
    forall k | 0 <= k < |groups|
      ensures IsMarkedTimeframe(tfs[k], groups[k])
    {
      MarkedOnce(stfs[k]);
    }
  }

  lemma AggregatorStream(a: DataBlockAggregator)
    requires a.Valid() && a.enableStfBuilding && !a.overflowed
    ensures IsStfStream(TfIds(a.emitted), Groups(a.emitted)) && a.forwarded == Flatten(Groups(a.emitted))
  {
    assert a.OutputOk(Slices(a.retrieved));
    GroupsAreStream(a.emitted);
    StreamIsGroups(a.emitted);
  }

  /** The identifiers of the timeframes selected. */
  function Selected(tfs: seq<nat>, sel: seq<nat>): (r: seq<nat>)
    requires forall k :: 0 <= k < |sel| ==> sel[k] < |tfs|
    ensures |r| == |sel| && forall k :: 0 <= k < |r| ==> r[k] == tfs[sel[k]]
  {
    seq(|sel|, k requires 0 <= k < |sel| => tfs[sel[k]])
  }

  lemma AreResultsOfSelection(
      tfs: seq<nat>, groups: seq<seq<DataSet>>, m: nat, sel: seq<nat>, out: seq<seq<DataSet>>, items: seq<Item>)
    requires IsStfStream(tfs, groups) && IsSelection(groups, m, sel, out) && |items| <= |out|
    requires forall k :: 0 <= k < |items| ==> WorkerProtocol.ResultOf(out[k], items[k])
    ensures AreResults(Selected(tfs, sel), out, items)
  {
    hide IsMarkedTimeframe;
  }

  /**
   Any run of the aggregator in which its output had room, seen after any number of data sets; any state of the FIFOs at
   each attempt to give a timeframe to a thread; any interleaving of the threads and the sender; and any data set which
   could not be formatted. No data set is refused for lack of a buffer, each timeframe given to a thread is whole, is
   given once and in order, and the receiver warns exactly once for each timeframe after one of which the end was not
   sent.
   */
  lemma WarningsOfRun(a: DataBlockAggregator, n: nat, full: seq<Fullness>, run: seq<WorkerProtocol.State<DataSet>>,
                      t: nat)
    returns (sel: seq<nat>)
    requires a.Valid() && a.enableStfBuilding && !a.overflowed && n <= |a.forwarded| && |full| == n
    requires WorkerProtocol.IsRun(run) && t < |run| && run[t].dispatched == Feed(a.forwarded[..n], full).dispatched
    ensures NeverRefused(a.forwarded[..n], full)
    ensures IsSelection(Groups(a.emitted), |a.emitted|, sel, run[t].dispatched)
    ensures var tfs, items := Selected(TfIds(a.emitted), sel), run[t].sent;
            && AreResults(tfs, run[t].dispatched, items)
            && CountWarnings(Headers(SentSets(items))) == |MissingEnds(tfs, run[t].dispatched, items, |items|)|
  {
    hide Feed, Groups, TfIds, Selected, AreResults, DataBlockAggregator.Valid, WorkerProtocol.IsRun, MissingEnds,
         Headers;
    AggregatorStream(a);
    var tfs, groups := TfIds(a.emitted), Groups(a.emitted);
    var m, part;
    m, part, sel := WholeTimeframesAreDispatched(tfs, groups, a.forwarded[..n], full);
    WorkerProtocol.SentInDispatchOrder(run, t);
    AreResultsOfSelection(tfs, groups, m, sel, run[t].dispatched, run[t].sent);
    WarningsAreMissingEnds(Selected(tfs, sel), run[t].dispatched, run[t].sent);
  }

  /** No message of a timeframe is missing, unless they all are. */
  ghost predicate NothingFailed(items: seq<Item>, dispatched: seq<seq<DataSet>>) {
    forall k :: 0 <= k < |items| && k < |dispatched| && items[k].Messages? ==> |items[k].list| == |dispatched[k]|
  }

  lemma {:induction false} SubsequenceOfSameLength<D>(xs: seq<D>, ys: seq<D>)
    requires WorkerProtocol.IsSubsequence(xs, ys)
    ensures |xs| <= |ys| && (|xs| == |ys| ==> xs == ys)
    decreases |ys|
  {
    if xs != [] {
      if xs[0] == ys[0] && WorkerProtocol.IsSubsequence(xs[1..], ys[1..]) {
        SubsequenceOfSameLength(xs[1..], ys[1..]);
        assert xs == [xs[0]] + xs[1..] && ys == [ys[0]] + ys[1..];
      } else {
        SubsequenceOfSameLength(xs, ys[1..]);
      }
    }
  }

  lemma NoEndIsMissing(tfs: seq<nat>, groups: seq<seq<DataSet>>, items: seq<Item>)
    requires AreResults(tfs, groups, items) && NothingFailed(items, groups)
    ensures MissingEnds(tfs, groups, items, |items|) == {}
  {
    forall k | 0 <= k < |items| && IsSent(items[k])
      ensures items[k].list == groups[k]
    {
      assert WorkerProtocol.ResultOf(groups[k], items[k]);
      SubsequenceOfSameLength(items[k].list, groups[k]);
    }
  }

  /**
   In the same runs, with any timeframes dropped as a whole on the way, but no single message of one: the receiver never
   sees a timeframe change before the flag of its end.
   */
  lemma NoTimeframeWithoutEnd(a: DataBlockAggregator, n: nat, full: seq<Fullness>,
                              run: seq<WorkerProtocol.State<DataSet>>, t: nat)
    returns (sel: seq<nat>)
    requires a.Valid() && a.enableStfBuilding && !a.overflowed && n <= |a.forwarded| && |full| == n
    requires WorkerProtocol.IsRun(run) && t < |run| && run[t].dispatched == Feed(a.forwarded[..n], full).dispatched
    requires NothingFailed(run[t].sent, run[t].dispatched)
    ensures NeverRefused(a.forwarded[..n], full)
    ensures IsSelection(Groups(a.emitted), |a.emitted|, sel, run[t].dispatched)
    ensures CountWarnings(Headers(SentSets(run[t].sent))) == 0
  {
    hide IsMarkedTimeframe, Feed, CountWarnings;
    sel := WarningsOfRun(a, n, full, run, t);
    NoEndIsMissing(Selected(TfIds(a.emitted), sel), run[t].dispatched, run[t].sent);
  }

  // ----- a run in which the receiver warns -----

  /** One thread with nothing to do. */
  predicate IsIdle(s: WorkerProtocol.State<DataSet>) {
    s.capacity > 0 && s.workers == [WorkerProtocol.Worker([], WorkerProtocol.Top(0), [])] && s.ixRead == s.ixWrite == 0
  }

  /** A timeframe goes through the thread, and messages are made for some of its data sets. */
  lemma OneTimeframe(s: WorkerProtocol.State<DataSet>, tf: seq<DataSet>, made: seq<bool>)
    returns (run: seq<WorkerProtocol.State<DataSet>>)
    requires IsIdle(s) && tf != [] && |made| == |tf|
    ensures run != [] && WorkerProtocol.Step(s, run[0]) && forall k :: 0 < k < |run| ==>
              WorkerProtocol.Step(run[k - 1], run[k])
    ensures var end := Last(run);
            && IsIdle(end) && end.dispatched == s.dispatched + [tf]
            && end.sent == s.sent + [WorkerProtocol.Messages(WorkerProtocol.Made(tf, made))]
  {
    var s1 := WorkerProtocol.Dispatch(s, tf);
    var s2 := s1.(workers := s1.workers[0 := WorkerProtocol.LoopStart(s1.workers[0], s.capacity)]);
    var s3 := s2.(workers := s2.workers[0 := WorkerProtocol.Take(s2.workers[0])]);
    var s4 := WorkerProtocol.FinishStep(s3, 0, made);
    var s5 := WorkerProtocol.Send(s4);
    assert WorkerProtocol.Step(s, s1);
    assert WorkerProtocol.LoopStep(s1, s2, 0) && WorkerProtocol.Step(s1, s2);
    assert WorkerProtocol.LoopStep(s2, s3, 0) && WorkerProtocol.Step(s2, s3);
    assert WorkerProtocol.FormatStep(s3, s4, 0) && WorkerProtocol.Step(s3, s4);
    assert WorkerProtocol.Step(s4, s5);
    assert s5.workers == [s5.workers[0]] && s5.workers[0] == s.workers[0];
    run := [s1, s2, s3, s4, s5];
  }

  /** Two timeframes one after the other, the last data set of the first one not formatted. */
  lemma TwoTimeframes(one: seq<DataSet>, other: seq<DataSet>) returns (run: seq<WorkerProtocol.State<DataSet>>)
    requires one != [] && other != []
    ensures run != [] && WorkerProtocol.IsRun(run) && Last(run).dispatched == [one, other]
    ensures Last(run).sent == [WorkerProtocol.Messages(one[..|one| - 1]), WorkerProtocol.Messages(other)]
  {
    hide WorkerProtocol.Step, WorkerProtocol.Made;
    var idle: WorkerProtocol.Worker<DataSet> := WorkerProtocol.Worker([], WorkerProtocol.Top(0), []);
    var start := WorkerProtocol.State(1, [idle], 0, 0, [], [], map[], []);
    var n := |one| - 1;
    var butLast, all := seq(|one|, j => j != n), seq(|other|, _ => true);
    AllButLastMade(one, butLast);
    WorkerProtocol.AllMade(other, all);
    var a := OneTimeframe(start, one, butLast);
    var b := OneTimeframe(Last(a), other, all);
    run := [start] + a + b;
  }

  lemma {:induction false} AllButLastMade(tf: seq<DataSet>, made: seq<bool>)
    requires tf != [] && |made| == |tf| && forall j :: 0 <= j < |made| ==> made[j] == (j != |made| - 1)
    ensures WorkerProtocol.Made(tf, made) == tf[..|tf| - 1]
  {
    if |tf| > 1 {
      AllButLastMade(tf[1..], made[1..]);
      assert tf[..|tf| - 1] == [tf[0]] + tf[1..][..|tf[1..]| - 1];
    } else {
      assert WorkerProtocol.Made(tf[1..], made[1..]) == [];
    }
  }

  /** The last data set of a timeframe could not be formatted, and another timeframe follows: the receiver warns. */
  lemma ReceiverCanWarn(first: nat, one: seq<DataSet>, second: nat, other: seq<DataSet>)
    returns (run: seq<WorkerProtocol.State<DataSet>>)
    requires IsMarkedTimeframe(first, one) && IsMarkedTimeframe(second, other) && |one| > 1
    requires 0 < first < second < TWO_TO_32
    ensures WorkerProtocol.IsRun(run) && Last(run).dispatched == [one, other]
    ensures Last(run).sent == [WorkerProtocol.Messages(one[..|one| - 1]), WorkerProtocol.Messages(other)]
    ensures CountWarnings(Headers(SentSets(Last(run).sent))) == 1
  {
    hide IsMarkedTimeframe, CountWarnings, WorkerProtocol.IsRun, AreResults, MissingEnds, SentSets;
    LastIsOnce(first, one);
    LastIsOnce(second, other);
    InitIsSubsequence(one);
    run := TwoTimeframes(one, other);
    OneMissingEnd(first, one, second, other);
    WarningsAreMissingEnds([first, second], [one, other], Last(run).sent);
  }

  lemma LastIsOnce(tf: nat, group: seq<DataSet>)
    requires IsMarkedTimeframe(tf, group)
    ensures group != [] && Last(group) !in group[..|group| - 1]
  {
    var n := |group| - 1;
    assert Last(group[n]).flagEndOfTimeframe;
    forall i | 0 <= i < n
      ensures group[i] != group[n]
    {
      assert !Last(group[i]).flagEndOfTimeframe;
    }
  }

  lemma OneMissingEnd(first: nat, one: seq<DataSet>, second: nat, other: seq<DataSet>)
    requires IsMarkedTimeframe(first, one) && IsMarkedTimeframe(second, other) && |one| > 1
             && 0 < first < second < TWO_TO_32
    ensures var items := [WorkerProtocol.Messages(one[..|one| - 1]), WorkerProtocol.Messages(other)];
            AreResults([first, second], [one, other], items)
                && MissingEnds([first, second], [one, other], items, 2) == {1}
  {
    hide IsMarkedTimeframe;
    var items := [WorkerProtocol.Messages(one[..|one| - 1]), WorkerProtocol.Messages(other)];
    LastIsOnce(first, one);
    LastIsOnce(second, other);
    InitIsSubsequence(one);
    AllIsSubsequence(other);
    assert IsNext(items, 0, 1) && EndIsMissing([first, second], [one, other], items, 0, 1);
    assert FollowsMissingEnd([first, second], [one, other], items, 1);
  }

  lemma {:induction false} AllIsSubsequence<D>(xs: seq<D>)
    ensures WorkerProtocol.IsSubsequence(xs, xs)
  {
    if xs != [] { AllIsSubsequence(xs[1..]); }
  }

  lemma {:induction false} InitIsSubsequence<D>(xs: seq<D>)
    requires xs != []
    ensures WorkerProtocol.IsSubsequence(xs[..|xs| - 1], xs)
  {
    if |xs| > 1 {
      InitIsSubsequence(xs[1..]);
      assert xs[..|xs| - 1][1..] == xs[1..][..|xs[1..]| - 1];
    }
  }
}
