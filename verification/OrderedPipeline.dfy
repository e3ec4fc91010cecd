/**
 ConsumerDataProcessor with ensurePageOrder: pages are tagged, dealt to processing threads, and collected in the order
 of the tags kept in a FIFO.
 */
module OrderedPipeline {
  import opened Arithmetic
  import opened Options
  import opened Sequences

  /** A page and the pipelineId in its header. */
  datatype Page<+D> = Page(id: nat, data: D)

  datatype Thread<+D, +R> = Thread(inputFifo: seq<Page<D>>, inProcess: Option<Page<D>>, outputFifo: seq<Page<R>>)

  /** `accepted` are the data of the pages pushed with success, `owner` the thread each was given to. */
  datatype State<D, R> = State(
    fifoSize: nat,
    threads: seq<Thread<D, R>>,
    idFifo: seq<nat>,
    accepted: seq<D>,
    owner: seq<nat>,
    forwarded: seq<Page<R>>)

  const FIRST_ID: nat := 1000000000000

  function CurrentId<D, R>(s: State<D, R>): nat {
    FIRST_ID + |s.accepted|
  }

  function IdFifoSize<D, R>(s: State<D, R>): nat {
    |s.threads| * s.fifoSize * 2
  }

  // ----- steps -----

  predicate CanAccept<D, R>(s: State<D, R>, i: nat) {
    i < |s.threads| && |s.idFifo| < IdFifoSize(s) && |s.threads[i].inputFifo| < s.fifoSize
  }

  /** The page is pushed to a thread and tagged; the tag is lost if its FIFO happens to be full. */
  function Accept<D, R>(s: State<D, R>, i: nat, data: D): State<D, R>
    requires i < |s.threads|
  {
    var t := s.threads[i];
    s.(threads := s.threads[i := t.(inputFifo := t.inputFifo + [Page(CurrentId(s), data)])],
       idFifo := if |s.idFifo| < IdFifoSize(s) then s.idFifo + [CurrentId(s)] else s.idFifo,
       accepted := s.accepted + [data],
       owner := s.owner + [i])
  }

  predicate CanStart<D, R>(s: State<D, R>, i: nat) {
    i < |s.threads| && s.threads[i].inProcess.None? && |s.threads[i].outputFifo| < s.fifoSize
        && s.threads[i].inputFifo != []
  }

  /** A thread takes a page once it saw a free slot for the result. */
  function Start<D, R>(s: State<D, R>, i: nat): State<D, R>
    requires CanStart(s, i)
  {
    var t := s.threads[i];
    s.(threads := s.threads[i := t.(inputFifo := t.inputFifo[1..], inProcess := Some(t.inputFifo[0]))])
  }

  predicate CanFinish<D, R>(s: State<D, R>, i: nat) {
    i < |s.threads| && s.threads[i].inProcess.Some?
  }

  /** processBlock() returns, with or without a result, which keeps the tag. A result which finds no slot is lost. */
  function Finish<D, R>(s: State<D, R>, i: nat, process: D -> Option<R>): State<D, R>
    requires CanFinish(s, i)
  {
    var t := s.threads[i];
    var p, result := t.inProcess.value, process(t.inProcess.value.data);
    var output := if result.Some? && |t.outputFifo| < s.fifoSize then t.outputFifo + [Page(p.id, result.value)]
        else t.outputFifo;
    s.(threads := s.threads[i := t.(inProcess := None, outputFifo := output)])
  }

  predicate CanCollect<D, R>(s: State<D, R>, i: nat) {
    i < |s.threads| && s.idFifo != [] && s.threads[i].outputFifo != [] && s.threads[i].outputFifo[0].id == s.idFifo[0]
  }

  function Collect<D, R>(s: State<D, R>, i: nat): State<D, R>
    requires CanCollect(s, i)
  {
    var t := s.threads[i];
    s.(threads := s.threads[i := t.(outputFifo := t.outputFifo[1..])],
       idFifo := s.idFifo[1..],
       forwarded := s.forwarded + [t.outputFifo[0]])
  }

  ghost predicate Step<D(!new), R>(s: State<D, R>, s': State<D, R>, process: D -> Option<R>) {
    exists i: nat ::
      || (CanAccept(s, i) && exists data :: s' == Accept(s, i, data))
      || (CanStart(s, i) && s' == Start(s, i))
      || (CanFinish(s, i) && s' == Finish(s, i, process))
      || (CanCollect(s, i) && s' == Collect(s, i))
  }

  predicate Initial<D(==), R(==)>(s: State<D, R>) {
    && |s.threads| > 0 && s.fifoSize > 0
    && (forall i :: 0 <= i < |s.threads| ==> s.threads[i] == Thread([], None, []))
    && s.idFifo == [] && s.accepted == [] && s.owner == [] && s.forwarded == []
  }

  // ----- invariant -----

  function Ids<D>(pages: seq<Page<D>>): seq<nat> {
    seq(|pages|, i requires 0 <= i < |pages| => pages[i].id)
  }

  function InHand<D>(p: Option<Page<D>>): seq<Page<D>> {
    if p.None? then [] else [p.value]
  }

  /** The tags in a thread, those that come out first in front. */
  function Lane<D, R>(t: Thread<D, R>): seq<nat> {
    Ids(t.outputFifo) + Ids(InHand(t.inProcess)) + Ids(t.inputFifo)
  }

  predicate Increasing(ids: seq<nat>) {
    forall j, k :: 0 <= j < k < |ids| ==> ids[j] < ids[k]
  }

  /** Tags of pages given to thread i, in order, from page number `first` on. */
  ghost predicate TagsOk(ids: seq<nat>, first: nat, owner: seq<nat>, i: nat) {
    && Increasing(ids)
    && (forall id :: id in ids ==> FIRST_ID + first <= id < FIRST_ID + |owner| && owner[id - FIRST_ID] == i)
  }

  ghost predicate InputsOk<D>(pages: seq<Page<D>>, accepted: seq<D>) {
    forall p :: p in pages ==> FIRST_ID <= p.id < FIRST_ID + |accepted| && p.data == accepted[p.id - FIRST_ID]
  }

  ghost predicate OutputsOk<D, R>(pages: seq<Page<R>>, accepted: seq<D>, process: D -> Option<R>) {
    forall p :: p in pages ==>
        FIRST_ID <= p.id < FIRST_ID + |accepted|
        && process(accepted[p.id - FIRST_ID]) == Some(p.data)
  }

  ghost predicate ThreadOk<D, R>(s: State<D, R>, i: nat, process: D -> Option<R>)
    requires i < |s.threads|
  {
    var t := s.threads[i];
    && TagsOk(Lane(t), |s.forwarded|, s.owner, i)
    && InputsOk(t.inputFifo, s.accepted) && InputsOk(InHand(t.inProcess), s.accepted)
    && OutputsOk(t.outputFifo, s.accepted, process)
    && |t.outputFifo| <= s.fifoSize
    && (t.inProcess.Some? ==> |t.outputFifo| < s.fifoSize)
  }

  /**
   The tags waited for are those of the pages not forwarded yet, and what was forwarded is what came of the pages, in
   order.
   */
  ghost predicate OrderOk<D, R>(s: State<D, R>, process: D -> Option<R>) {
    && |s.owner| == |s.accepted|
    && |s.forwarded| + |s.idFifo| == |s.accepted| && |s.idFifo| <= IdFifoSize(s)
    && (forall j :: 0 <= j < |s.idFifo| ==> s.idFifo[j] == FIRST_ID + |s.forwarded| + j)
    && (forall k :: 0 <= k < |s.forwarded| ==>
        s.forwarded[k].id == FIRST_ID + k && process(s.accepted[k]) == Some(s.forwarded[k].data))
  }

  ghost predicate Inv<D, R>(s: State<D, R>, process: D -> Option<R>) {
    && s.fifoSize > 0 && OrderOk(s, process)
    && (forall i :: 0 <= i < |s.threads| ==> ThreadOk(s, i, process))
  }

  /** No page is lost: each one not forwarded yet is in the lane of its thread. */
  ghost predicate NothingLost<D, R>(s: State<D, R>) {
    forall k :: |s.forwarded| <= k < |s.owner| ==>
        s.owner[k] < |s.threads| && FIRST_ID + k in Lane(s.threads[s.owner[k]])
  }

  lemma OwnerGrows(ids: seq<nat>, first: nat, owner: seq<nat>, i: nat, j: nat)
    requires TagsOk(ids, first, owner, i) && first <= |owner|
    ensures TagsOk(ids, first, owner + [j], i)
    ensures i == j ==> TagsOk(ids + [FIRST_ID + |owner|], first, owner + [j], i)
  {
    assert forall k :: 0 <= k < |ids| ==> ids[k] in ids;
  }

  lemma AcceptedGrows<D, R>(t: Thread<D, R>, accepted: seq<D>, data: D, process: D -> Option<R>)
    requires InputsOk(t.inputFifo, accepted) && InputsOk(InHand(t.inProcess), accepted)
             && OutputsOk(t.outputFifo, accepted, process)
    ensures InputsOk(t.inputFifo, accepted + [data]) && InputsOk(InHand(t.inProcess), accepted + [data])
    ensures OutputsOk(t.outputFifo, accepted + [data], process)
    ensures InputsOk(t.inputFifo + [Page(FIRST_ID + |accepted|, data)], accepted + [data])
  {
  }

  lemma LaneAccept<D, R>(t: Thread<D, R>, p: Page<D>)
    ensures Lane(t.(inputFifo := t.inputFifo + [p])) == Lane(t) + [p.id]
  {
  }

  lemma AcceptKeepsThread<D, R>(s: State<D, R>, i: nat, data: D, process: D -> Option<R>, j: nat)
    requires Inv(s, process) && CanAccept(s, i) && j < |s.threads|
    ensures ThreadOk(Accept(s, i, data), j, process)
  {
    hide TagsOk, InputsOk, OutputsOk, Lane;
    assert ThreadOk(s, j, process);
    OwnerGrows(Lane(s.threads[j]), |s.forwarded|, s.owner, j, i);
    AcceptedGrows(s.threads[j], s.accepted, data, process);
    LaneAccept(s.threads[j], Page(CurrentId(s), data));
  }

  lemma AcceptKeeps<D, R>(s: State<D, R>, i: nat, data: D, process: D -> Option<R>)
    requires Inv(s, process) && CanAccept(s, i)
    ensures Inv(Accept(s, i, data), process)
  {
    forall j | 0 <= j < |s.threads|
      ensures ThreadOk(Accept(s, i, data), j, process)
    {
      AcceptKeepsThread(s, i, data, process, j);
    }
  }

  lemma AcceptLosesNothing<D, R>(s: State<D, R>, i: nat, data: D, process: D -> Option<R>)
    requires Inv(s, process) && CanAccept(s, i) && NothingLost(s)
    ensures NothingLost(Accept(s, i, data))
  {
    LaneAccept(s.threads[i], Page(CurrentId(s), data));
  }

  /** A change inside one thread, all else being equal. */
  function SetThread<D, R>(s: State<D, R>, i: nat, t: Thread<D, R>): State<D, R>
    requires i < |s.threads|
  {
    s.(threads := s.threads[i := t])
  }

  lemma SetThreadKeeps<D, R>(s: State<D, R>, i: nat, t: Thread<D, R>, process: D -> Option<R>)
    requires Inv(s, process) && i < |s.threads| && ThreadOk(SetThread(s, i, t), i, process)
    ensures Inv(SetThread(s, i, t), process)
  {
    forall j | 0 <= j < |s.threads|
      ensures ThreadOk(SetThread(s, i, t), j, process)
    {
      assert ThreadOk(s, j, process);
    }
  }

  lemma LaneStart<D, R>(t: Thread<D, R>)
    requires t.inProcess.None? && t.inputFifo != []
    ensures Lane(t.(inputFifo := t.inputFifo[1..], inProcess := Some(t.inputFifo[0]))) == Lane(t)
  {
    assert t.inputFifo == [t.inputFifo[0]] + t.inputFifo[1..];
  }

  lemma StartKeeps<D, R>(s: State<D, R>, i: nat, process: D -> Option<R>)
    requires Inv(s, process) && CanStart(s, i)
    ensures Inv(Start(s, i), process)
    ensures NothingLost(s) ==> NothingLost(Start(s, i))
  {
    assert ThreadOk(s, i, process);
    LaneStart(s.threads[i]);
    SetThreadKeeps(s, i, Start(s, i).threads[i], process);
  }

  lemma LaneFinish<D, R>(t: Thread<D, R>, result: Option<R>)
    requires t.inProcess.Some?
    ensures Lane(t) == Ids(t.outputFifo) + [t.inProcess.value.id] + Ids(t.inputFifo)
    ensures Lane(t.(inProcess := None)) == Ids(t.outputFifo) + Ids(t.inputFifo)
    ensures result.Some? ==>
              Lane(t.(inProcess := None, outputFifo := t.outputFifo + [Page(t.inProcess.value.id, result.value)])) ==
                  Lane(t)
  {
  }

  lemma SkipOne(a: seq<nat>, x: nat, b: seq<nat>, first: nat, owner: seq<nat>, i: nat)
    requires TagsOk(a + [x] + b, first, owner, i)
    ensures TagsOk(a + b, first, owner, i)
  {
    var all, less := a + [x] + b, a + b;
    assert forall k :: 0 <= k < |less| ==> less[k] == all[if k < |a| then k else k + 1];
    assert forall k :: 0 <= k < |less| ==> less[k] in all;
  }

  lemma ResultIsOk<D, R>(t: Thread<D, R>, result: R, accepted: seq<D>, process: D -> Option<R>)
    requires t.inProcess.Some? && InputsOk(InHand(t.inProcess), accepted) && OutputsOk(t.outputFifo, accepted, process)
    requires process(t.inProcess.value.data) == Some(result)
    ensures OutputsOk(t.outputFifo + [Page(t.inProcess.value.id, result)], accepted, process)
  {
    assert t.inProcess.value in InHand(t.inProcess);
  }

  lemma NothingInHand<D>(accepted: seq<D>)
    ensures InputsOk(InHand(None), accepted)
  {
  }

  lemma FinishKeeps<D, R>(s: State<D, R>, i: nat, process: D -> Option<R>)
    requires Inv(s, process) && CanFinish(s, i)
    ensures Inv(Finish(s, i, process), process)
  {
    hide TagsOk, InputsOk, OutputsOk, Lane, OrderOk;
    var t := s.threads[i];
    var p, result := t.inProcess.value, process(t.inProcess.value.data);
    assert ThreadOk(s, i, process);
    LaneFinish(t, result);
    NothingInHand(s.accepted);
    if result.None? {
      SkipOne(Ids(t.outputFifo), p.id, Ids(t.inputFifo), |s.forwarded|, s.owner, i);
    } else {
      ResultIsOk(t, result.value, s.accepted, process);
    }
    SetThreadKeeps(s, i, Finish(s, i, process).threads[i], process);
  }

  lemma FinishLosesNothing<D, R>(s: State<D, R>, i: nat, process: D -> Option<R>)
    requires Inv(s, process) && CanFinish(s, i) && NothingLost(s) && process(s.threads[i].inProcess.value.data).Some?
    ensures NothingLost(Finish(s, i, process))
  {
    assert ThreadOk(s, i, process);
    LaneFinish(s.threads[i], process(s.threads[i].inProcess.value.data));
  }

  lemma LaneCollect<D, R>(t: Thread<D, R>)
    requires t.outputFifo != []
    ensures Lane(t) != [] && Lane(t)[0] == t.outputFifo[0].id
    ensures Lane(t.(outputFifo := t.outputFifo[1..])) == Lane(t)[1..]
  {
  }

  lemma NextFirst(ids: seq<nat>, first: nat, owner: seq<nat>, i: nat)
    requires TagsOk(ids, first, owner, i) && first < |owner|
    ensures ids != [] && ids[0] == FIRST_ID + first ==> owner[first] == i && TagsOk(ids[1..], first + 1, owner, i)
    ensures owner[first] != i ==> TagsOk(ids, first + 1, owner, i)
  {
    if ids != [] && ids[0] == FIRST_ID + first {
      assert ids[0] in ids;
      assert forall id :: id in ids[1..] ==> id in ids && id > ids[0];
    }
    if owner[first] != i {
      assert FIRST_ID + first !in ids;
    }
  }

  lemma CollectKeeps<D, R>(s: State<D, R>, i: nat, process: D -> Option<R>)
    requires Inv(s, process) && CanCollect(s, i)
    ensures Inv(Collect(s, i), process)
  {
    var s', t := Collect(s, i), s.threads[i];
    LaneCollect(t);
    assert ThreadOk(s, i, process) && t.outputFifo[0] in t.outputFifo;
    NextFirst(Lane(t), |s.forwarded|, s.owner, i);
    forall j | 0 <= j < |s.threads|
      ensures ThreadOk(s', j, process)
    {
      hide TagsOk, InputsOk, OutputsOk, Lane;
      assert ThreadOk(s, j, process);
      NextFirst(Lane(s.threads[j]), |s.forwarded|, s.owner, j);
      OthersAreOk(t.outputFifo, s.accepted, process);
    }
  }

  lemma OthersAreOk<D, R>(pages: seq<Page<R>>, accepted: seq<D>, process: D -> Option<R>)
    requires pages != [] && OutputsOk(pages, accepted, process)
    ensures OutputsOk(pages[1..], accepted, process)
  {
  }

  lemma CollectLosesNothing<D, R>(s: State<D, R>, i: nat, process: D -> Option<R>)
    requires Inv(s, process) && CanCollect(s, i) && NothingLost(s)
    ensures NothingLost(Collect(s, i))
  {
    var t := s.threads[i];
    LaneCollect(t);
    assert Lane(t) == [s.idFifo[0]] + Lane(t)[1..];
  }

  lemma StepKeeps<D(!new), R>(s: State<D, R>, s': State<D, R>, process: D -> Option<R>)
    requires Inv(s, process) && Step(s, s', process)
    ensures Inv(s', process)
    ensures NothingLost(s) && (forall d :: process(d).Some?) ==> NothingLost(s')
  {
    var i: nat :|
      || (CanAccept(s, i) && exists data :: s' == Accept(s, i, data))
      || (CanStart(s, i) && s' == Start(s, i))
      || (CanFinish(s, i) && s' == Finish(s, i, process))
      || (CanCollect(s, i) && s' == Collect(s, i));
    if CanStart(s, i) && s' == Start(s, i) {
      StartKeeps(s, i, process);
    } else if CanFinish(s, i) && s' == Finish(s, i, process) {
      FinishKeeps(s, i, process);
      if NothingLost(s) && process(s.threads[i].inProcess.value.data).Some? { FinishLosesNothing(s, i, process); }
    } else if CanCollect(s, i) && s' == Collect(s, i) {
      CollectKeeps(s, i, process);
      if NothingLost(s) { CollectLosesNothing(s, i, process); }
    } else {
      var data :| s' == Accept(s, i, data);
      AcceptKeeps(s, i, data, process);
      if NothingLost(s) { AcceptLosesNothing(s, i, data, process); }
    }
  }

  ghost predicate IsRun<D(!new), R(!new)>(run: seq<State<D, R>>, process: D -> Option<R>) {
    && run != [] && Initial(run[0])
    && (forall k :: 0 < k < |run| ==> Step(run[k - 1], run[k], process))
  }

  lemma {:induction false} RunInvariant<D(!new), R(!new)>(run: seq<State<D, R>>, process: D -> Option<R>, t: nat)
    requires IsRun(run, process) && t < |run|
    ensures Inv(run[t], process)
    ensures (forall d :: process(d).Some?) ==> NothingLost(run[t])
  {
    if t == 0 {
      forall i | 0 <= i < |run[0].threads|
        ensures ThreadOk(run[0], i, process)
      {
        assert Lane(run[0].threads[i]) == [];
      }
    } else {
      RunInvariant(run, process, t - 1);
      StepKeeps(run[t - 1], run[t], process);
    }
  }

  /**
   In every interleaving, what was forwarded is what came of the first pages accepted, in the order they were accepted.
   */
  lemma ForwardedInOrder<D(!new), R(!new)>(run: seq<State<D, R>>, process: D -> Option<R>, t: nat)
    requires IsRun(run, process) && t < |run|
    ensures var s := run[t];
            && |s.forwarded| <= |s.accepted|
            && forall k :: 0 <= k < |s.forwarded| ==>
                 s.forwarded[k].id == FIRST_ID + k && process(s.accepted[k]) == Some(s.forwarded[k].data)
  {
    RunInvariant(run, process, t);
  }

  /**
   Every accepted page has its tag in the FIFO until it is forwarded: the push of the tag, which is not checked, never
   fails.
   */
  lemma TagsAreNeverLost<D(!new), R(!new)>(run: seq<State<D, R>>, process: D -> Option<R>, t: nat)
    requires IsRun(run, process) && t < |run|
    ensures |run[t].idFifo| == |run[t].accepted| - |run[t].forwarded|
    ensures forall j :: 0 <= j < |run[t].idFifo| ==> run[t].idFifo[j] == FIRST_ID + |run[t].forwarded| + j
  {
    RunInvariant(run, process, t);
  }

  // ----- room for the tags -----

  predicate HasRoom<D, R>(threads: seq<Thread<D, R>>, fifoSize: nat, i: nat) {
    i < |threads| && |threads[i].inputFifo| < fifoSize
  }

  function PagesIn<D, R>(t: Thread<D, R>): nat {
    |t.inputFifo| + (if t.inProcess.Some? then 1 else 0) + |t.outputFifo|
  }

  function AllPagesIn<D, R>(threads: seq<Thread<D, R>>): nat {
    Sum(threads, (t: Thread<D, R>) => PagesIn(t))
  }

  predicate IsInBounds<D, R>(t: Thread<D, R>, fifoSize: nat) {
    |t.inputFifo| <= fifoSize && |t.outputFifo| + (if t.inProcess.Some? then 1 else 0) <= fifoSize
  }

  /** There is a tag for each page in the threads, and no FIFO is overfull. */
  ghost predicate Counted<D, R>(s: State<D, R>) {
    && |s.idFifo| == AllPagesIn(s.threads)
    && (forall i :: 0 <= i < |s.threads| ==> IsInBounds(s.threads[i], s.fifoSize))
  }

  lemma ThreadIsCounted<D, R>(s: State<D, R>, s': State<D, R>, i: nat, t: Thread<D, R>)
    requires Counted(s) && i < |s.threads| && s'.threads == s.threads[i := t] && s'.fifoSize == s.fifoSize
    requires IsInBounds(t, s.fifoSize) && |s'.idFifo| - |s.idFifo| == PagesIn(t) - PagesIn(s.threads[i])
    ensures Counted(s')
  {
    SumUpdate(s.threads, i, t, (t: Thread<D, R>) => PagesIn(t));
  }

  lemma StepKeepsCount<D(!new), R>(s: State<D, R>, s': State<D, R>, process: D -> Option<R>)
    requires Counted(s) && Step(s, s', process) && forall d :: process(d).Some?
    ensures Counted(s')
  {
    hide AllPagesIn;
    var i: nat :|
      || (CanAccept(s, i) && exists data :: s' == Accept(s, i, data))
      || (CanStart(s, i) && s' == Start(s, i))
      || (CanFinish(s, i) && s' == Finish(s, i, process))
      || (CanCollect(s, i) && s' == Collect(s, i));
    assert IsInBounds(s.threads[i], s.fifoSize);
    if CanFinish(s, i) && s' == Finish(s, i, process) {
      assert process(s.threads[i].inProcess.value.data).Some?;
    }
    ThreadIsCounted(s, s', i, s'.threads[i]);
  }

  lemma {:induction false} NothingCounted<D, R>(threads: seq<Thread<D, R>>)
    requires forall i :: 0 <= i < |threads| ==> threads[i] == Thread([], None, [])
    ensures AllPagesIn(threads) == 0
  {
    if threads != [] { NothingCounted(threads[1..]); }
  }

  lemma {:induction false} RunIsCounted<D(!new), R(!new)>(run: seq<State<D, R>>, process: D -> Option<R>, t: nat)
    requires IsRun(run, process) && t < |run| && forall d :: process(d).Some?
    ensures Counted(run[t])
  {
    if t == 0 {
      NothingCounted(run[0].threads);
    } else {
      RunIsCounted(run, process, t - 1);
      StepKeepsCount(run[t - 1], run[t], process);
    }
  }

  lemma {:induction false} PagesAreBounded<D, R>(threads: seq<Thread<D, R>>, fifoSize: nat)
    requires forall i :: 0 <= i < |threads| ==> PagesIn(threads[i]) <= 2 * fifoSize
    ensures AllPagesIn(threads) <= |threads| * fifoSize * 2
    ensures (exists i :: 0 <= i < |threads| && PagesIn(threads[i]) < 2 * fifoSize) ==>
              AllPagesIn(threads) < |threads| * fifoSize * 2
  {
    if threads != [] {
      PagesAreBounded(threads[1..], fifoSize);
      assert |threads| * fifoSize * 2 == |threads[1..]| * fifoSize * 2 + 2 * fifoSize;
      if i :| 1 <= i < |threads| && PagesIn(threads[i]) < 2 * fifoSize {
        assert threads[1..][i - 1] == threads[i];
      }
    }
  }

  /** A thread with room for a page is room for its tag too. */
  lemma RoomForTag<D, R>(s: State<D, R>, i: nat)
    requires Counted(s) && HasRoom(s.threads, s.fifoSize, i)
    ensures |s.idFifo| < |s.threads| * s.fifoSize * 2
  {
    forall k | 0 <= k < |s.threads|
      ensures PagesIn(s.threads[k]) <= 2 * s.fifoSize
    {
      assert IsInBounds(s.threads[k], s.fifoSize);
    }
    assert PagesIn(s.threads[i]) < 2 * s.fifoSize;
    PagesAreBounded(s.threads, s.fifoSize);
  }

  /** When every page gives a result, no page is refused for its tag: a thread takes it if and only if it has room. */
  lemma AcceptedWithRoom<D(!new), R(!new)>(run: seq<State<D, R>>, process: D -> Option<R>, t: nat, i: nat)
    requires IsRun(run, process) && t < |run| && forall d :: process(d).Some?
    ensures |run[t].idFifo| == AllPagesIn(run[t].threads)
    ensures CanAccept(run[t], i) <==> i < |run[t].threads| && |run[t].threads[i].inputFifo| < run[t].fifoSize
  {
    RunIsCounted(run, process, t);
    if HasRoom(run[t].threads, run[t].fifoSize, i) { RoomForTag(run[t], i); }
  }

  // ----- progress -----

  function WorkOf<D, R>(t: Thread<D, R>): nat {
    3 * |t.inputFifo| + (if t.inProcess.Some? then 2 else 0) + |t.outputFifo|
  }

  function Work<D, R>(threads: seq<Thread<D, R>>): nat {
    Sum(threads, (t: Thread<D, R>) => WorkOf(t))
  }

  lemma WorkUpdate<D, R>(threads: seq<Thread<D, R>>, i: nat, t: Thread<D, R>)
    requires i < |threads|
    ensures Work(threads[i := t]) == Work(threads) - WorkOf(threads[i]) + WorkOf(t)
  {
    SumUpdate(threads, i, t, (t: Thread<D, R>) => WorkOf(t));
  }

  /** Each step other than accepting a page uses up work, so that between two pages the pipeline drains. */
  lemma StepsUseUpWork<D(!new), R>(s: State<D, R>, s': State<D, R>, process: D -> Option<R>)
    requires Step(s, s', process) && s'.accepted == s.accepted
    ensures Work(s'.threads) < Work(s.threads)
  {
    var i: nat :|
      || (CanAccept(s, i) && exists data :: s' == Accept(s, i, data))
      || (CanStart(s, i) && s' == Start(s, i))
      || (CanFinish(s, i) && s' == Finish(s, i, process))
      || (CanCollect(s, i) && s' == Collect(s, i));
    if CanStart(s, i) && s' == Start(s, i) {
      WorkUpdate(s.threads, i, s'.threads[i]);
    } else if CanFinish(s, i) && s' == Finish(s, i, process) {
      WorkUpdate(s.threads, i, s'.threads[i]);
    } else if CanCollect(s, i) && s' == Collect(s, i) {
      WorkUpdate(s.threads, i, s'.threads[i]);
    }
  }

  /** No deadlock: the oldest page not forwarded yet is in front in its thread, and can go one step further. */
  lemma OldestPageCanMove<D(!new), R>(s: State<D, R>, process: D -> Option<R>) returns (i: nat)
    requires Inv(s, process) && NothingLost(s) && |s.forwarded| < |s.accepted|
    ensures i < |s.threads| && Lane(s.threads[i]) != [] && Lane(s.threads[i])[0] == FIRST_ID + |s.forwarded|
    ensures CanStart(s, i) || CanFinish(s, i) || CanCollect(s, i)
  {
    var oldest := |s.forwarded|;
    i := s.owner[oldest];
    var lane := Lane(s.threads[i]);
    assert ThreadOk(s, i, process);
    assert lane[0] in lane;
    assert s.idFifo[0] == FIRST_ID + oldest;
    var t := s.threads[i];
    if t.outputFifo == [] && t.inProcess.None? {
      assert Lane(t) == Ids(t.inputFifo);
    }
  }

  /**
   The collector can only go on with the oldest page if processBlock() gave a result for it: a missing result blocks all
   the pages behind.
   */
  lemma CollectNeedsResult<D, R>(s: State<D, R>, process: D -> Option<R>, i: nat)
    requires Inv(s, process) && CanCollect(s, i)
    ensures |s.forwarded| < |s.accepted|
    ensures process(s.accepted[|s.forwarded|]) == Some(s.threads[i].outputFifo[0].data)
  {
    assert ThreadOk(s, i, process);
    assert s.threads[i].outputFifo[0] in s.threads[i].outputFifo;
    assert s.idFifo[0] == FIRST_ID + |s.forwarded|;
  }

  // ----- the methods of the consumer, each one step of the above -----

  class ConsumerDataProcessor<D, R> {
    const fifoSize: nat
    var threadPool: seq<Thread<D, R>>
    var threadIndex: nat         // last thread a page was given to
    var threadIx: nat            // where the collector starts looking
    var idFifo: seq<nat>
    var currentId: nat
    var forwarded: seq<Page<R>>  // pages given to the next consumer
    var dropBlocks: nat
    ghost var accepted: seq<D>
    ghost var owner: seq<nat>

    ghost function View(): State<D, R>
      reads this
    {
      State(fifoSize, threadPool, idFifo, accepted, owner, forwarded)
    }

    ghost predicate Valid()
      reads this
    {
      currentId == CurrentId(View()) && (threadPool != [] ==> threadIndex < |threadPool|)
    }

    constructor (numberOfThreads: nat, fifoSize: nat)
      ensures Valid() && (numberOfThreads > 0 && fifoSize > 0 ==> Initial(View()))
      ensures |threadPool| == numberOfThreads && this.fifoSize == fifoSize
    {
      this.fifoSize := fifoSize;
      threadPool := seq(numberOfThreads, i => Thread([], None, []));
      threadIndex, threadIx, idFifo, currentId, forwarded, dropBlocks := 0, 0, [], FIRST_ID, [], 0;
      accepted, owner := [], [];
    }

    /** Pushes the page to the next thread in turn that has room. */
    method GiveToThread(page: Page<D>) returns (found: bool)
      requires threadPool != [] ==> threadIndex < |threadPool|
      modifies this`threadPool, this`threadIndex
      ensures found <==> exists i :: HasRoom(old(threadPool), fifoSize, i)
      ensures found ==>
              threadIndex < |old(threadPool)|
              && IsFirstWithRoom(old(threadPool), fifoSize, old(threadIndex), threadIndex)
      ensures found ==> var t := old(threadPool)[threadIndex];
                        threadPool == old(threadPool)[threadIndex := t.(inputFifo := t.inputFifo + [page])]
      ensures !found ==> threadPool == old(threadPool) && threadIndex == old(threadIndex)
    {
      var n := |threadPool|;
      ghost var last := threadIndex;
      for i := 0 to n
        invariant threadPool == old(threadPool) && threadIndex == if i == 0 then last else InTurn(last, i - 1, n)
        invariant forall j :: 0 <= j < i ==> !HasRoom(threadPool, fifoSize, InTurn(last, j, n))
      {
        threadIndex := threadIndex + 1;
        if threadIndex == n {
          threadIndex := 0;
        }
        var t := threadPool[threadIndex];
        if |t.inputFifo| < fifoSize {
          FirstWithRoom(threadPool, fifoSize, last, i);
          threadPool := threadPool[threadIndex := t.(inputFifo := t.inputFifo + [page])];
          return true;
        }
      }
      AllHaveTheirTurn(threadPool, fifoSize, last);
      found := false;
    }

    /**
     Gives the page to the next thread in turn that has room; drops it only if none has, or if the tag could not be
     kept.
     */
    method PushData(data: D) returns (ok: bool)
      requires Valid()
      modifies this
      ensures Valid()
      ensures ok <==> exists i :: CanAccept(old(View()), i)
      ensures ok <==> |old(idFifo)| < |old(threadPool)| * fifoSize * 2
                      && exists i :: HasRoom(old(threadPool), fifoSize, i)
      ensures Counted(old(View())) ==> (ok <==> exists i :: HasRoom(old(threadPool), fifoSize, i))
      ensures ok ==>
              threadIndex < |old(threadPool)|
              && IsFirstWithRoom(old(threadPool), fifoSize, old(threadIndex), threadIndex)
      ensures ok ==> View() == Accept(old(View()), threadIndex, data) && dropBlocks == old(dropBlocks)
      ensures !ok ==> View() == old(View()) && threadIndex == old(threadIndex) && dropBlocks == old(dropBlocks) + 1
    {
      if Counted(View()) {
        forall i | HasRoom(threadPool, fifoSize, i)
          ensures |idFifo| < |threadPool| * fifoSize * 2
        {
          RoomForTag(View(), i);
        }
      }
      if |idFifo| >= |threadPool| * fifoSize * 2 {
        dropBlocks := dropBlocks + 1;
        return false;
      }
      assert forall i :: CanAccept(View(), i) <==> HasRoom(threadPool, fifoSize, i);
      ok := GiveToThread(Page(currentId, data));
      if !ok {
        dropBlocks := dropBlocks + 1;
        return;
      }
      var newId := currentId;
      currentId := currentId + 1;
      idFifo := idFifo + [newId];
      accepted, owner := accepted + [data], owner + [threadIndex];
    }

    /** A thread takes a page if it can store the result. */
    method ThreadTake(i: nat) returns (active: bool)
      requires Valid() && i < |threadPool| && threadPool[i].inProcess.None?
      modifies this`threadPool
      ensures Valid() && (active <==> CanStart(old(View()), i))
      ensures active <==> |old(threadPool)[i].outputFifo| < fifoSize && old(threadPool)[i].inputFifo != []
      ensures View() == if active then Start(old(View()), i) else old(View())
    {
      var t := threadPool[i];
      active := false;
      if |t.outputFifo| < fifoSize {
        if t.inputFifo != [] {
          threadPool := threadPool[i := t.(inputFifo := t.inputFifo[1..], inProcess := Some(t.inputFifo[0]))];
          active := true;
        }
      }
    }

    method ThreadFinish(i: nat, process: D -> Option<R>)
      requires Valid() && i < |threadPool| && threadPool[i].inProcess.Some?
      modifies this`threadPool
      ensures Valid() && View() == Finish(old(View()), i, process)
    {
      var t := threadPool[i];
      var result := process(t.inProcess.value.data);
      if result.Some? && |t.outputFifo| < fifoSize {
        t := t.(outputFifo := t.outputFifo + [Page(t.inProcess.value.id, result.value)]);
      }
      threadPool := threadPool[i := t.(inProcess := None)];
    }

    predicate IsReady(ix: nat, nextId: nat)
      reads this
    {
      ix < |threadPool| && threadPool[ix].outputFifo != [] && threadPool[ix].outputFifo[0].id == nextId
    }

    /** Looks at the front of every output FIFO, starting where the last page was found. */
    method FindReady(nextId: nat) returns (found: bool, ix: nat)
      ensures found ==> IsReady(ix, nextId)
      ensures !found ==> forall k :: !IsReady(k, nextId)
    {
      var n := |threadPool|;
      for i := 0 to n
        invariant forall k: nat :: k < i && k < n ==> !IsReady(Visited(k, threadIx, n), nextId)
      {
        ix := Visited(i, threadIx, n);
        if IsReady(ix, nextId) {
          return true, ix;
        }
      }
      forall k: nat | k < n
        ensures !IsReady(k, nextId)
      {
        var i := EveryThreadIsVisited(k, n, threadIx);
      }
      found, ix := false, 0;
    }

    /** One round of the collector: forwards the next page of the order if some thread has it ready, and only then. */
    method LoopOutput() returns (active: bool)
      requires Valid()
      modifies this
      ensures Valid() && (active <==> exists i :: CanCollect(old(View()), i))
      ensures active <==> old(idFifo) != [] && exists i :: IsDone(old(threadPool), i, old(idFifo)[0])
      ensures active ==> exists i :: CanCollect(old(View()), i) && View() == Collect(old(View()), i)
      ensures !active ==> View() == old(View())
    {
      active := false;
      assert forall i :: CanCollect(View(), i) <==> idFifo != [] && IsDone(threadPool, i, idFifo[0]);
      if idFifo == [] {
        return;
      }
      var found, ix := FindReady(idFifo[0]);
      if found {
        assert CanCollect(View(), ix);
        var t := threadPool[ix];
        idFifo := idFifo[1..];
        threadPool := threadPool[ix := t.(outputFifo := t.outputFifo[1..])];
        forwarded := forwarded + [t.outputFifo[0]];
        threadIx := threadIx + 1;
        active := true;
        assert View() == Collect(old(View()), ix);
      } else {
        assert forall k :: CanCollect(View(), k) ==> IsReady(k, idFifo[0]);
      }
    }
  }

  /** The thread which is tried after k others, behind the one that got the last page. */
  function InTurn(last: nat, k: nat, n: nat): (ix: nat)
    requires last < n && k < n
    ensures ix < n
  {
    if last + 1 + k < n then last + 1 + k else last + 1 + k - n
  }

  /** The thread has room, and those tried before it have not. */
  ghost predicate IsFirstWithRoom<D, R>(threads: seq<Thread<D, R>>, fifoSize: nat, last: nat, ix: nat)
    requires last < |threads|
  {
    exists k :: 0 <= k < |threads| && ix == InTurn(last, k, |threads|) && HasRoom(threads, fifoSize, ix) &&
                (forall j :: 0 <= j < k ==> !HasRoom(threads, fifoSize, InTurn(last, j, |threads|)))
  }

  lemma FirstWithRoom<D, R>(threads: seq<Thread<D, R>>, fifoSize: nat, last: nat, k: nat)
    requires last < |threads| && k < |threads| && HasRoom(threads, fifoSize, InTurn(last, k, |threads|))
    requires forall j :: 0 <= j < k ==> !HasRoom(threads, fifoSize, InTurn(last, j, |threads|))
    ensures IsFirstWithRoom(threads, fifoSize, last, InTurn(last, k, |threads|))
  {
  }

  lemma AllHaveTheirTurn<D, R>(threads: seq<Thread<D, R>>, fifoSize: nat, last: nat)
    requires threads != [] ==> last < |threads|
    requires forall j :: 0 <= j < |threads| ==> !HasRoom(threads, fifoSize, InTurn(last, j, |threads|))
    ensures forall i :: !HasRoom(threads, fifoSize, i)
  {
    var n := |threads|;
    forall i: nat | i < n
      ensures !HasRoom(threads, fifoSize, i)
    {
      var j := if i > last then i - last - 1 else i + n - last - 1;
      assert InTurn(last, j, n) == i;
    }
  }

  /** The page with this tag is the next one in the output of the thread. */
  predicate IsDone<D, R>(threads: seq<Thread<D, R>>, i: nat, tag: nat) {
    i < |threads| && threads[i].outputFifo != [] && threads[i].outputFifo[0].id == tag
  }

  function Visited(i: nat, start: nat, n: nat): (ix: nat)
    requires n > 0
    ensures ix < n
  {
    (i + start) % n
  }

  lemma EveryThreadIsVisited(k: nat, n: nat, start: nat) returns (i: nat)
    requires k < n
    ensures i < n && Visited(i, start, n) == k
  {
    var q, r := start / n, start % n;
    i := if k >= r then k - r else k + n - r;
    var m := if k >= r then q else q + 1;
    assert i + start == m * n + k;
    DivModUnique(i + start, n, m, k);
  }
}
