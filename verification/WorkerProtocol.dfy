/**
 The dispatcher, the formatting threads and the sender of ConsumerFMQchannel. Timeframes are dealt round-robin to the
 threads, each of which has an input and an output FIFO, and the sender reads the output FIFOs round-robin. Nothing but
 counting keeps the timeframes in order: a thread must push out exactly one item for each item it takes in, with a
 filler if need be.
 */
module WorkerProtocol {
  import opened Sequences

  /** What a thread makes of a timeframe: the messages of the data sets that could be formatted, or an empty filler. */
  datatype Output<D> = Filler | Messages(list: seq<D>)

  /**
   Where a thread is in its loop. Top: at the loop start, owing `pushCount` items. SlotSeen: it saw a free slot in its
   output FIFO. Formatting: it has taken a timeframe.
   */
  datatype Phase<D> = Top(pushCount: nat) | SlotSeen | Formatting(tf: seq<D>)

  datatype Worker<D> = Worker(input: seq<seq<D>>, phase: Phase<D>, output: seq<Output<D>>)

  /** What came of formatting a timeframe: no list could be allocated for it, or messages for some of its data sets. */
  datatype Outcome = GaveUp | Formatted(made: seq<bool>)

  /**
   `dispatched` are the timeframes pushed with success and `owner` the threads they were given to, `outcomes` what came
   of those formatted, by number, and `sent` the items the sender popped.
   */
  datatype State<D> = State(
    capacity: nat,
    workers: seq<Worker<D>>,
    ixWrite: nat,
    ixRead: nat,
    dispatched: seq<seq<D>>,
    owner: seq<nat>,
    outcomes: map<nat, Outcome>,
    sent: seq<Output<D>>)

  function Next(ix: nat, n: nat): nat {
    if ix + 1 == n then 0 else ix + 1
  }

  /** `xs` is `ys` with some elements left out. */
  ghost predicate IsSubsequence<D>(xs: seq<D>, ys: seq<D>) {
    if xs == [] then true
    else ys != [] && ((xs[0] == ys[0] && IsSubsequence(xs[1..], ys[1..])) || IsSubsequence(xs, ys[1..]))
  }

  /** The data sets for which a message was made, in order. */
  function Made<D>(tf: seq<D>, made: seq<bool>): seq<D>
    requires |made| == |tf|
  {
    if tf == [] then [] else (if made[0] then [tf[0]] else []) + Made(tf[1..], made[1..])
  }

  function CountMade(made: seq<bool>): nat {
    if made == [] then 0 else (if made[0] then 1 else 0) + CountMade(made[1..])
  }

  /** Each of these data sets is there, at its place, and no other. */
  lemma {:induction false} MadeAt<D>(tf: seq<D>, made: seq<bool>, i: nat)
    requires |made| == |tf|
    ensures |Made(tf, made)| == CountMade(made)
    ensures i < |tf| && made[i] ==>
            CountMade(made[..i]) < CountMade(made)
            && Made(tf, made)[CountMade(made[..i])] == tf[i]
  {
    if tf != [] {
      MadeAt(tf[1..], made[1..], if i > 0 then i - 1 else 0);
      if 0 < i < |tf| {
        assert made[..i][1..] == made[1..][..i - 1];
      }
    }
  }

  lemma {:induction false} AllMade<D>(tf: seq<D>, made: seq<bool>)
    requires |made| == |tf| && forall i :: 0 <= i < |made| ==> made[i]
    ensures Made(tf, made) == tf
  {
    if tf != [] {
      AllMade(tf[1..], made[1..]);
      assert tf == [tf[0]] + tf[1..];
    }
  }

  lemma {:induction false} MadeIsSubsequence<D>(tf: seq<D>, made: seq<bool>)
    requires |made| == |tf|
    ensures IsSubsequence(Made(tf, made), tf)
  {
    if tf != [] {
      MadeIsSubsequence(tf[1..], made[1..]);
      if made[0] {
        assert Made(tf, made)[1..] == Made(tf[1..], made[1..]);
      } else {
        assert Made(tf, made) == Made(tf[1..], made[1..]);
      }
    }
  }

  /** An item that a thread may push for a timeframe. */
  ghost predicate ResultOf<D>(tf: seq<D>, item: Output<D>) {
    item.Messages? ==> IsSubsequence(item.list, tf)
  }

  // ----- steps -----

  /** Push a timeframe to the next thread, or drop it when the FIFO is full. */
  function Dispatch<D>(s: State<D>, tf: seq<D>): State<D>
    requires s.ixWrite < |s.workers|
  {
    var w := s.workers[s.ixWrite];
    if |w.input| >= s.capacity then s
    else s.(workers := s.workers[s.ixWrite := w.(input := w.input + [tf])],
            ixWrite := Next(s.ixWrite, |s.workers|),
            dispatched := s.dispatched + [tf],
            owner := s.owner + [s.ixWrite])
  }

  /**
   A thread at the loop start first pays what it owes, without checking the push, then looks for a free output slot.
   */
  function LoopStart<D>(w: Worker<D>, capacity: nat): Worker<D>
    requires w.phase.Top?
  {
    if w.phase.pushCount > 0 then
      w.(phase := Top(w.phase.pushCount - 1), output := if |w.output| < capacity then w.output + [Filler] else w.output)
    else if |w.output| >= capacity then w
    else w.(phase := SlotSeen)
  }

  /** Take a timeframe if there is one. An empty one is not formatted: the thread then owes an item. */
  function Take<D>(w: Worker<D>): Worker<D>
    requires w.phase.SlotSeen?
  {
    if w.input == [] then w.(phase := Top(0))
    else if w.input[0] == [] then w.(input := w.input[1..], phase := Top(1))
    else w.(input := w.input[1..], phase := Formatting(w.input[0]))
  }

  /** Push the messages that could be made; when that fails the thread still owes an item. */
  function Finish<D>(w: Worker<D>, capacity: nat, list: seq<D>): Worker<D>
    requires w.phase.Formatting?
  {
    if |w.output| < capacity then w.(phase := Top(0), output := w.output + [Messages(list)])
    else w.(phase := Top(1))
  }

  /** No list could be allocated: nothing is pushed, the thread owes an item. */
  function GiveUp<D>(w: Worker<D>): Worker<D>
    requires w.phase.Formatting?
  {
    w.(phase := Top(1))
  }

  /** The number of the k-th timeframe of a thread, of those from number `first` on. */
  function NumberAt(first: nat, n: nat, k: nat): nat
    decreases k
  {
    if k == 0 then first else NumberAt(first + n, n, k - 1)
  }

  /** The number of the next timeframe that thread i sees, when the one at `ix` sees number `count`. */
  function Turn(i: nat, ix: nat, count: nat, n: nat): nat
    requires ix < n && i < n
  {
    count + if i >= ix then i - ix else i + n - ix
  }

  /** The number of the timeframe which a thread is formatting: it comes after those in its output FIFO. */
  function InWork<D>(s: State<D>, i: nat): nat
    requires i < |s.workers| && s.ixRead < |s.workers|
  {
    NumberAt(Turn(i, s.ixRead, |s.sent|, |s.workers|), |s.workers|, |s.workers[i].output|)
  }

  /** A thread looks for something to do. */
  ghost predicate LoopStep<D>(s: State<D>, s': State<D>, i: nat)
    requires i < |s.workers|
  {
    var w := s.workers[i];
    || (w.phase.Top? && s' == s.(workers := s.workers[i := LoopStart(w, s.capacity)]))
    || (w.phase.SlotSeen? && s' == s.(workers := s.workers[i := Take(w)]))
  }

  /** A thread is done with a timeframe, of which some data sets could be formatted. */
  function FinishStep<D>(s: State<D>, i: nat, made: seq<bool>): State<D>
    requires i < |s.workers| && s.ixRead < |s.workers|
    requires s.workers[i].phase.Formatting? && |made| == |s.workers[i].phase.tf|
  {
    var w := s.workers[i];
    s.(workers := s.workers[i := Finish(w, s.capacity, Made(w.phase.tf, made))],
       outcomes := s.outcomes[InWork(s, i) := Formatted(made)])
  }

  function GiveUpStep<D>(s: State<D>, i: nat): State<D>
    requires i < |s.workers| && s.ixRead < |s.workers| && s.workers[i].phase.Formatting?
  {
    s.(workers := s.workers[i := GiveUp(s.workers[i])], outcomes := s.outcomes[InWork(s, i) := GaveUp])
  }

  ghost predicate FormatStep<D>(s: State<D>, s': State<D>, i: nat)
    requires i < |s.workers| && s.ixRead < |s.workers|
  {
    && s.workers[i].phase.Formatting?
    && (s' == GiveUpStep(s, i)
        || exists made :: |made| == |s.workers[i].phase.tf| && s' == FinishStep(s, i, made))
  }

  /** The sender takes the next item, if there is one, from the thread whose turn it is. */
  function Send<D>(s: State<D>): State<D>
    requires s.ixRead < |s.workers|
  {
    var w := s.workers[s.ixRead];
    if w.output == [] then s
    else s.(workers := s.workers[s.ixRead := w.(output := w.output[1..])],
            ixRead := Next(s.ixRead, |s.workers|),
            sent := s.sent + [w.output[0]])
  }

  ghost predicate Step<D(!new)>(s: State<D>, s': State<D>) {
    && s.ixWrite < |s.workers| && s.ixRead < |s.workers|
    && ( || (exists tf :: s' == Dispatch(s, tf))
         || (exists i :: 0 <= i < |s.workers| && (LoopStep(s, s', i) || FormatStep(s, s', i)))
         || s' == Send(s))
  }

  predicate Initial<D(==)>(s: State<D>) {
    && |s.workers| > 0 && s.capacity > 0
    && (forall i :: 0 <= i < |s.workers| ==> s.workers[i] == Worker([], Top(0), []))
    && s.ixWrite == 0 && s.ixRead == 0 && s.dispatched == [] && s.owner == [] && s.outcomes == map[] && s.sent == []
  }

  // ----- invariant -----

  /** A place in a thread's pipeline: an item on its way out, or a timeframe on its way in. */
  datatype Slot<D> = Done(item: Output<D>) | Owed | Pending(tf: seq<D>)

  /** What is known of the timeframes, by number. */
  datatype Book<D> = Book(dispatched: seq<seq<D>>, owner: seq<nat>, outcomes: map<nat, Outcome>)

  function BookOf<D>(s: State<D>): Book<D> {
    Book(s.dispatched, s.owner, s.outcomes)
  }

  /** An empty timeframe gives a filler, another one what came of it: a filler only if the thread gave it up. */
  ghost predicate ItemFor<D>(b: Book<D>, k: nat, item: Output<D>)
    requires k < |b.dispatched|
  {
    var tf := b.dispatched[k];
    if tf == [] then item == Filler && k !in b.outcomes
    else
      && k in b.outcomes
      && match b.outcomes[k]
         case GaveUp => item == Filler
         case Formatted(made) => |made| == |tf| && item == Messages(Made(tf, made))
  }

  ghost predicate SlotFor<D>(b: Book<D>, i: nat, k: nat, slot: Slot<D>) {
    && k < |b.dispatched| == |b.owner| && b.owner[k] == i
    && match slot
       case Done(item) => ItemFor(b, k, item)
       case Owed => ItemFor(b, k, Filler)
       case Pending(tf) => tf == b.dispatched[k] && k !in b.outcomes
  }

  function InHand<D>(phase: Phase<D>): seq<Slot<D>> {
    match phase
    case Top(pushCount) => if pushCount == 0 then [] else [Owed]
    case SlotSeen => []
    case Formatting(tf) => [Pending(tf)]
  }

  function Outs<D>(items: seq<Output<D>>): seq<Slot<D>> {
    seq(|items|, i requires 0 <= i < |items| => Done(items[i]))
  }

  function Ins<D>(tfs: seq<seq<D>>): seq<Slot<D>> {
    seq(|tfs|, i requires 0 <= i < |tfs| => Pending(tfs[i]))
  }

  function Pipeline<D>(w: Worker<D>): seq<Slot<D>> {
    Outs(w.output) + InHand(w.phase) + Ins(w.input)
  }

  /**
   The pipeline of thread i holds the timeframes number first, first + n, ... and the next one it gets will be number
   `end`.
   */
  ghost predicate Holds<D>(b: Book<D>, i: nat, n: nat, first: nat, end: nat, pipeline: seq<Slot<D>>)
    decreases |pipeline|
  {
    if pipeline == [] then first == end
    else SlotFor(b, i, first, pipeline[0]) && Holds(b, i, n, first + n, end, pipeline[1..])
  }

  ghost predicate WorkerOk<D>(s: State<D>, i: nat)
    requires i < |s.workers| && s.ixRead < |s.workers| && s.ixWrite < |s.workers|
  {
    var n, w := |s.workers|, s.workers[i];
    && Holds(BookOf(s), i, n, Turn(i, s.ixRead, |s.sent|, n), Turn(i, s.ixWrite, |s.dispatched|, n), Pipeline(w))
    && (w.phase.Top? ==> w.phase.pushCount <= 1)
    && |w.output| <= s.capacity
    && (w.phase != Top(0) ==> |w.output| < s.capacity)
    && (w.phase.Formatting? ==> w.phase.tf != [])
  }

  ghost predicate BookOk<D>(s: State<D>) {
    && |s.owner| == |s.dispatched| && (forall k :: k in s.outcomes ==> k < |s.dispatched|)
    && |s.sent| <= |s.dispatched| && (forall k :: 0 <= k < |s.sent| ==> ItemFor(BookOf(s), k, s.sent[k]))
  }

  ghost predicate Inv<D>(s: State<D>) {
    && s.capacity > 0 && s.ixRead < |s.workers| && s.ixWrite < |s.workers|
    && (forall i :: 0 <= i < |s.workers| ==> WorkerOk(s, i))
    && BookOk(s)
  }

  /** One timeframe more. */
  lemma {:induction false} HoldsMore<D>(b: Book<D>, tf: seq<D>, j: nat, i: nat, n: nat, first: nat, end: nat,
                                        pipeline: seq<Slot<D>>)
    requires Holds(b, i, n, first, end, pipeline) && |b.owner| == |b.dispatched|
    ensures Holds(b.(dispatched := b.dispatched + [tf], owner := b.owner + [j]), i, n, first, end, pipeline)
    decreases |pipeline|
  {
    if pipeline != [] { HoldsMore(b, tf, j, i, n, first + n, end, pipeline[1..]); }
  }

  lemma {:induction false} HoldsNext<D>(b: Book<D>, i: nat, n: nat, first: nat, end: nat, pipeline: seq<Slot<D>>,
                                        slot: Slot<D>)
    requires Holds(b, i, n, first, end, pipeline) && SlotFor(b, i, end, slot)
    ensures Holds(b, i, n, first, end + n, pipeline + [slot])
    decreases |pipeline|
  {
    if pipeline != [] {
      HoldsNext(b, i, n, first + n, end, pipeline[1..], slot);
      assert (pipeline + [slot])[1..] == pipeline[1..] + [slot];
    }
  }

  /** The outcome of a timeframe does not matter for those behind it, or of other threads. */
  lemma {:induction false} HoldsElsewhere<D>(b: Book<D>, m: nat, o: Outcome, i: nat, n: nat, first: nat, end: nat,
                                             pipeline: seq<Slot<D>>)
    requires Holds(b, i, n, first, end, pipeline) && n > 0
    requires m < first || (m < |b.owner| && b.owner[m] != i)
    ensures Holds(b.(outcomes := b.outcomes[m := o]), i, n, first, end, pipeline)
    decreases |pipeline|
  {
    if pipeline != [] { HoldsElsewhere(b, m, o, i, n, first + n, end, pipeline[1..]); }
  }

  lemma {:induction false} NumberIsAfter(first: nat, n: nat, k: nat)
    ensures NumberAt(first, n, k) >= first && (k > 0 && n > 0 ==> NumberAt(first, n, k) > first)
    decreases k
  {
    if k > 0 { NumberIsAfter(first + n, n, k - 1); }
  }

  lemma {:induction false} SlotAt<D>(b: Book<D>, i: nat, n: nat, first: nat, end: nat, before: seq<Slot<D>>,
                                     slot: Slot<D>, after: seq<Slot<D>>)
    requires Holds(b, i, n, first, end, before + [slot] + after)
    ensures SlotFor(b, i, NumberAt(first, n, |before|), slot)
    decreases |before|
  {
    if before != [] {
      assert (before + [slot] + after)[1..] == before[1..] + [slot] + after;
      SlotAt(b, i, n, first + n, end, before[1..], slot, after);
    }
  }

  /** Working on a timeframe changes neither its number nor that of the others. */
  lemma {:induction false} HoldsReplaced<D>(b: Book<D>, i: nat, n: nat, first: nat, end: nat, before: seq<Slot<D>>,
                                            slot: Slot<D>, slot': Slot<D>, after: seq<Slot<D>>)
    requires Holds(b, i, n, first, end, before + [slot] + after)
    requires SlotFor(b, i, NumberAt(first, n, |before|), slot')
    ensures Holds(b, i, n, first, end, before + [slot'] + after)
    decreases |before|
  {
    if before == [] {
      assert (before + [slot] + after)[1..] == after == (before + [slot'] + after)[1..];
    } else {
      assert (before + [slot] + after)[1..] == before[1..] + [slot] + after;
      assert (before + [slot'] + after)[1..] == before[1..] + [slot'] + after;
      HoldsReplaced(b, i, n, first + n, end, before[1..], slot, slot', after);
    }
  }

  /** The outcome of a timeframe is noted. */
  lemma {:induction false} HoldsFinished<D>(b: Book<D>, o: Outcome, i: nat, n: nat, first: nat, end: nat,
                                            before: seq<Slot<D>>, slot: Slot<D>, slot': Slot<D>, after: seq<Slot<D>>)
    requires Holds(b, i, n, first, end, before + [slot] + after) && n > 0
    requires var m := NumberAt(first, n, |before|); SlotFor(b.(outcomes := b.outcomes[m := o]), i, m, slot')
    ensures var m := NumberAt(first, n, |before|);
            Holds(b.(outcomes := b.outcomes[m := o]), i, n, first, end, before + [slot'] + after)
    decreases |before|
  {
    var m := NumberAt(first, n, |before|);
    if before == [] {
      assert (before + [slot] + after)[1..] == after == (before + [slot'] + after)[1..];
      HoldsElsewhere(b, m, o, i, n, first + n, end, after);
    } else {
      assert (before + [slot] + after)[1..] == before[1..] + [slot] + after;
      assert (before + [slot'] + after)[1..] == before[1..] + [slot'] + after;
      NumberIsAfter(first, n, |before|);
      HoldsFinished(b, o, i, n, first + n, end, before[1..], slot, slot', after);
    }
  }

  lemma PipelineParts<D>(w: Worker<D>)
    ensures w.output != [] ==> Pipeline(w) != [] && Pipeline(w)[0] == Done(w.output[0])
    ensures w.output != [] ==> Pipeline(w.(output := w.output[1..])) == Pipeline(w)[1..]
  {
  }

  lemma PushIsPending<D>(w: Worker<D>, tf: seq<D>)
    ensures Pipeline(w.(input := w.input + [tf])) == Pipeline(w) + [Pending(tf)]
  {
  }

  lemma DispatchKeeps<D>(s: State<D>, tf: seq<D>)
    requires Inv(s)
    ensures Inv(Dispatch(s, tf))
  {
    hide Holds, Pipeline;
    var s', n, w := Dispatch(s, tf), |s.workers|, s.workers[s.ixWrite];
    if s' == s { return; }
    PushIsPending(w, tf);
    forall i | 0 <= i < n
      ensures WorkerOk(s', i)
    {
      assert WorkerOk(s, i);
      var first, end := Turn(i, s.ixRead, |s.sent|, n), Turn(i, s.ixWrite, |s.dispatched|, n);
      HoldsMore(BookOf(s), tf, s.ixWrite, i, n, first, end, Pipeline(s.workers[i]));
      if i == s.ixWrite {
        HoldsNext(BookOf(s'), i, n, first, end, Pipeline(w), Pending(tf));
      }
    }
  }

  lemma FirstSlot<D>(b: Book<D>, i: nat, n: nat, first: nat, end: nat, pipeline: seq<Slot<D>>)
    requires Holds(b, i, n, first, end, pipeline) && pipeline != []
    ensures SlotFor(b, i, first, pipeline[0]) && Holds(b, i, n, first + n, end, pipeline[1..])
  {
  }

  lemma SendKeeps<D>(s: State<D>)
    requires Inv(s)
    ensures Inv(Send(s))
  {
    hide Holds, Pipeline, ItemFor;
    var s', n, w := Send(s), |s.workers|, s.workers[s.ixRead];
    assert WorkerOk(s, s.ixRead);
    if w.output == [] { return; }
    PipelineParts(w);
    FirstSlot(BookOf(s), s.ixRead, n, |s.sent|, Turn(s.ixRead, s.ixWrite, |s.dispatched|, n), Pipeline(w));
    forall i | 0 <= i < n
      ensures WorkerOk(s', i)
    {
      assert WorkerOk(s, i);
    }
  }

  lemma LoopStartKeeps<D>(s: State<D>, i: nat)
    requires Inv(s) && i < |s.workers| && s.workers[i].phase.Top?
    ensures Inv(s.(workers := s.workers[i := LoopStart(s.workers[i], s.capacity)]))
  {
    hide Holds;
    var w := s.workers[i];
    var w' := LoopStart(w, s.capacity);
    assert WorkerOk(s, i);
    if w.phase.pushCount > 0 {
      assert InHand(w.phase) == [Owed];
      ReplacedIn(s, i, Outs(w.output), Owed, Done(Filler), Ins(w.input));
      assert Pipeline(w') == Outs(w.output) + [Done(Filler)] + Ins(w.input);
    } else {
      assert Pipeline(w') == Pipeline(w);
    }
    OtherWorkersKeep(s, i, w');
  }

  lemma TakeKeeps<D>(s: State<D>, i: nat)
    requires Inv(s) && i < |s.workers| && s.workers[i].phase.SlotSeen?
    ensures Inv(s.(workers := s.workers[i := Take(s.workers[i])]))
  {
    hide Holds;
    var w := s.workers[i];
    var w' := Take(w);
    assert WorkerOk(s, i);
    if w.input == [] {
      assert Pipeline(w') == Pipeline(w);
    } else {
      assert Ins(w.input) == [Pending(w.input[0])] + Ins(w.input[1..]);
      assert Pipeline(w) == Outs(w.output) + [Pending(w.input[0])] + Ins(w'.input);
      if w.input[0] == [] {
        ReplacedIn(s, i, Outs(w.output), Pending(w.input[0]), Owed, Ins(w'.input));
        assert Pipeline(w') == Outs(w.output) + [Owed] + Ins(w'.input);
      } else {
        assert Pipeline(w') == Pipeline(w);
      }
    }
    OtherWorkersKeep(s, i, w');
  }

  /** An empty timeframe, or an item owed, becomes a filler. */
  lemma ReplacedIn<D>(s: State<D>, i: nat, before: seq<Slot<D>>, slot: Slot<D>, slot': Slot<D>, after: seq<Slot<D>>)
    requires i < |s.workers| && s.ixRead < |s.workers| && s.ixWrite < |s.workers|
    requires WorkerOk(s, i) && Pipeline(s.workers[i]) == before + [slot] + after
    requires (slot == Owed && slot' == Done(Filler)) || (slot == Pending([]) && slot' == Owed)
    ensures var n := |s.workers|;
            Holds(BookOf(s), i, n, Turn(i, s.ixRead, |s.sent|, n), Turn(i, s.ixWrite, |s.dispatched|, n),
                  before + [slot'] + after)
  {
    hide Holds;
    var n := |s.workers|;
    var first, end := Turn(i, s.ixRead, |s.sent|, n), Turn(i, s.ixWrite, |s.dispatched|, n);
    SlotAt(BookOf(s), i, n, first, end, before, slot, after);
    HoldsReplaced(BookOf(s), i, n, first, end, before, slot, slot', after);
  }

  lemma OtherWorkersKeep<D>(s: State<D>, i: nat, w': Worker<D>)
    requires Inv(s) && i < |s.workers|
    requires WorkerOk(s.(workers := s.workers[i := w']), i)
    ensures Inv(s.(workers := s.workers[i := w']))
  {
    var s' := s.(workers := s.workers[i := w']);
    forall j | 0 <= j < |s.workers|
      ensures WorkerOk(s', j)
    {
      assert WorkerOk(s, j);
    }
  }

  /** The place in the pipeline of the timeframe which a thread is formatting. */
  lemma InWorkIsPending<D>(s: State<D>, i: nat)
    requires Inv(s) && i < |s.workers| && s.workers[i].phase.Formatting?
    ensures var m, tf := InWork(s, i), s.workers[i].phase.tf;
            && |s.sent| <= m < |s.dispatched| && s.owner[m] == i && s.dispatched[m] == tf != [] && m !in s.outcomes
    ensures var w := s.workers[i]; Pipeline(w) == Outs(w.output) + [Pending(w.phase.tf)] + Ins(w.input)
  {
    hide Holds;
    var w, n := s.workers[i], |s.workers|;
    assert WorkerOk(s, i);
    assert Pipeline(w) == Outs(w.output) + [Pending(w.phase.tf)] + Ins(w.input);
    var first := Turn(i, s.ixRead, |s.sent|, n);
    SlotAt(BookOf(s), i, n, first, Turn(i, s.ixWrite, |s.dispatched|, n), Outs(w.output), Pending(w.phase.tf),
           Ins(w.input));
    NumberIsAfter(first, n, |w.output|);
  }

  /** A thread is done with a timeframe, with this outcome and this in its place. */
  lemma FormatKeeps<D>(s: State<D>, i: nat, w': Worker<D>, o: Outcome, slot: Slot<D>)
    requires Inv(s) && i < |s.workers| && s.workers[i].phase.Formatting?
    requires w'.phase.Top? && w'.phase.pushCount <= 1 && |w'.output| <= s.capacity
             && (w'.phase != Top(0) ==> |w'.output| < s.capacity)
    requires Pipeline(w') == Outs(s.workers[i].output) + [slot] + Ins(s.workers[i].input)
    requires SlotFor(BookOf(s).(outcomes := s.outcomes[InWork(s, i) := o]), i, InWork(s, i), slot)
    ensures Inv(s.(workers := s.workers[i := w'], outcomes := s.outcomes[InWork(s, i) := o]))
  {
    hide Holds, Pipeline;
    var s' := s.(workers := s.workers[i := w'], outcomes := s.outcomes[InWork(s, i) := o]);
    var n, w, m := |s.workers|, s.workers[i], InWork(s, i);
    InWorkIsPending(s, i);
    forall j | 0 <= j < n
      ensures WorkerOk(s', j)
    {
      assert WorkerOk(s, j);
      var first, end := Turn(j, s.ixRead, |s.sent|, n), Turn(j, s.ixWrite, |s.dispatched|, n);
      if j == i {
        HoldsFinished(BookOf(s), o, i, n, first, end, Outs(w.output), Pending(w.phase.tf), slot, Ins(w.input));
      } else {
        HoldsElsewhere(BookOf(s), m, o, j, n, first, end, Pipeline(s.workers[j]));
      }
    }
  }

  lemma FinishKeeps<D>(s: State<D>, i: nat, made: seq<bool>)
    requires Inv(s) && i < |s.workers| && s.workers[i].phase.Formatting? && |made| == |s.workers[i].phase.tf|
    ensures Inv(FinishStep(s, i, made))
  {
    hide Holds;
    var w, list := s.workers[i], Made(s.workers[i].phase.tf, made);
    var w' := Finish(w, s.capacity, list);
    assert WorkerOk(s, i);
    InWorkIsPending(s, i);
    assert Pipeline(w') == Outs(w.output) + [Done(Messages(list))] + Ins(w.input);
    FormatKeeps(s, i, w', Formatted(made), Done(Messages(list)));
  }

  lemma GiveUpKeeps<D>(s: State<D>, i: nat)
    requires Inv(s) && i < |s.workers| && s.workers[i].phase.Formatting?
    ensures Inv(GiveUpStep(s, i))
  {
    hide Holds;
    var w, w' := s.workers[i], GiveUp(s.workers[i]);
    assert WorkerOk(s, i);
    InWorkIsPending(s, i);
    assert Pipeline(w') == Outs(w.output) + [Owed] + Ins(w.input);
    FormatKeeps(s, i, w', GaveUp, Owed);
  }

  lemma StepKeeps<D(!new)>(s: State<D>, s': State<D>)
    requires Inv(s) && Step(s, s')
    ensures Inv(s')
  {
    hide Inv;
    if tf :| s' == Dispatch(s, tf) {
      DispatchKeeps(s, tf);
    } else if s' == Send(s) {
      SendKeeps(s);
    } else {
      var i :| 0 <= i < |s.workers| && (LoopStep(s, s', i) || FormatStep(s, s', i));
      match s.workers[i].phase {
        case Top(_) => LoopStartKeeps(s, i);
        case SlotSeen => TakeKeeps(s, i);
        case Formatting(tf) =>
          if made :| |made| == |tf| && s' == FinishStep(s, i, made) {
            FinishKeeps(s, i, made);
          } else {
            GiveUpKeeps(s, i);
          }
      }
    }
  }

  lemma InitialHolds<D>(s: State<D>)
    requires Initial(s)
    ensures Inv(s)
  {
    forall i | 0 <= i < |s.workers|
      ensures WorkerOk(s, i)
    {
      assert Pipeline(s.workers[i]) == [];
    }
  }

  ghost predicate IsRun<D(!new)>(run: seq<State<D>>) {
    && run != [] && Initial(run[0])
    && (forall k :: 0 < k < |run| ==> Step(run[k - 1], run[k]))
  }

  lemma {:induction false} RunInvariant<D(!new)>(run: seq<State<D>>, k: nat)
    requires IsRun(run) && k < |run|
    ensures Inv(run[k])
  {
    if k == 0 {
      InitialHolds(run[0]);
    } else {
      RunInvariant(run, k - 1);
      StepKeeps(run[k - 1], run[k]);
    }
  }

  /**
   In every interleaving, the k-th item which the sender pops is the result of the k-th timeframe dispatched: a filler
   for an empty timeframe and for one which its thread gave up, and otherwise the messages which could be made, one for
   each data set formatted, in order.
   */
  lemma SentInDispatchOrder<D(!new)>(run: seq<State<D>>, t: nat)
    requires IsRun(run) && t < |run|
    ensures |run[t].sent| <= |run[t].dispatched|
    ensures forall k :: 0 <= k < |run[t].sent| ==>
              var tf, item, outcomes := run[t].dispatched[k], run[t].sent[k], run[t].outcomes;
              && ResultOf(tf, item)
              && (tf == [] ==> item == Filler)
              && (tf != [] ==> k in outcomes && (item == Filler <==> outcomes[k] == GaveUp))
              && (tf != [] && outcomes[k].Formatted? ==>
                    |outcomes[k].made| == |tf| && item == Messages(Made(tf, outcomes[k].made)))
  {
    RunInvariant(run, t);
    forall k | 0 <= k < |run[t].sent|
      ensures ItemFor(BookOf(run[t]), k, run[t].sent[k]) && ResultOf(run[t].dispatched[k], run[t].sent[k])
    {
      assert ItemFor(BookOf(run[t]), k, run[t].sent[k]);
      var tf := run[t].dispatched[k];
      if tf != [] && run[t].outcomes[k].Formatted? { MadeIsSubsequence(tf, run[t].outcomes[k].made); }
    }
  }

  lemma OutcomeOfFormat<D(!new)>(s: State<D>, s': State<D>, i: nat, k: nat)
    requires Inv(s) && i < |s.workers| && FormatStep(s, s', i)
    ensures k in s.outcomes ==> k in s'.outcomes && s'.outcomes[k] == s.outcomes[k]
    ensures k in s'.outcomes && k !in s.outcomes ==>
              && k < |s.dispatched| && s.workers[i].phase == Formatting(s.dispatched[k])
              && (s'.outcomes[k] == GaveUp ==> s' == GiveUpStep(s, i))
  {
    hide Inv, Step, WorkerOk, ItemFor, Holds, Pipeline, LoopStart, Take, Finish, GiveUp;
    InWorkIsPending(s, i);
  }

  /** An outcome is noted where the thread gives up, or is done, and nowhere else; and it stays. */
  lemma OutcomesAreSteps<D(!new)>(s: State<D>, s': State<D>, k: nat)
    requires Inv(s) && Step(s, s')
    ensures k in s.outcomes ==> k in s'.outcomes && s'.outcomes[k] == s.outcomes[k]
    ensures k in s'.outcomes && k !in s.outcomes ==>
              k < |s.dispatched| &&
              exists i :: 0 <= i < |s.workers| && s.workers[i].phase == Formatting(s.dispatched[k]) &&
                          (s'.outcomes[k] == GaveUp ==> s' == GiveUpStep(s, i))
  {
    hide WorkerOk, ItemFor, Holds, Pipeline, LoopStart, Take, Finish, GiveUp;
    if tf :| s' == Dispatch(s, tf) {
    } else if s' == Send(s) {
    } else {
      var i :| 0 <= i < |s.workers| && (LoopStep(s, s', i) || FormatStep(s, s', i));
      if FormatStep(s, s', i) { OutcomeOfFormat(s, s', i, k); }
    }
  }

  ghost predicate GivesUp<D>(s: State<D>, s': State<D>) {
    && s.ixRead < |s.workers|
    && exists i :: 0 <= i < |s.workers| && s.workers[i].phase.Formatting? && s' == GiveUpStep(s, i)
  }

  lemma {:induction false} NeverGivenUp<D(!new)>(run: seq<State<D>>, t: nat)
    requires IsRun(run) && t < |run| && forall j :: 0 < j <= t ==> !GivesUp(run[j - 1], run[j])
    ensures forall k :: k in run[t].outcomes ==> run[t].outcomes[k] != GaveUp
  {
    if t > 0 {
      NeverGivenUp(run, t - 1);
      RunInvariant(run, t - 1);
      forall k | k in run[t].outcomes
        ensures run[t].outcomes[k] != GaveUp
      {
        OutcomesAreSteps(run[t - 1], run[t], k);
      }
    }
  }

  /** Threads which never give up send fillers for empty timeframes only. */
  lemma FillersAreGivenUp<D(!new)>(run: seq<State<D>>, t: nat, k: nat)
    requires IsRun(run) && t < |run| && k < |run[t].sent| && forall j :: 0 < j <= t ==> !GivesUp(run[j - 1], run[j])
    ensures k < |run[t].dispatched| && (run[t].sent[k] == Filler <==> run[t].dispatched[k] == [])
  {
    SentInDispatchOrder(run, t);
    NeverGivenUp(run, t);
  }

  /** When no thread ever gives up and all data sets can be formatted, every timeframe is sent complete. */
  lemma AllIsSent<D(!new)>(run: seq<State<D>>, t: nat, k: nat)
    requires IsRun(run) && t < |run| && k < |run[t].sent|
    requires forall m :: m in run[t].outcomes ==>
               var o := run[t].outcomes[m]; o.Formatted? && forall j :: 0 <= j < |o.made| ==> o.made[j]
    ensures k < |run[t].dispatched|
    ensures run[t].sent[k] == if run[t].dispatched[k] == [] then Filler else Messages(run[t].dispatched[k])
  {
    SentInDispatchOrder(run, t);
    var tf := run[t].dispatched[k];
    if tf != [] { AllMade(tf, run[t].outcomes[k].made); }
  }

  /** A thread owes one item at most, and whatever it pushes, filler or not, finds the slot it saw free. */
  lemma PushesNeverFail<D(!new)>(run: seq<State<D>>, t: nat, i: nat)
    requires IsRun(run) && t < |run| && i < |run[t].workers|
    ensures var w := run[t].workers[i];
            && (w.phase.Top? ==> w.phase.pushCount <= 1)
            && (w.phase.Formatting? || (w.phase.Top? && w.phase.pushCount > 0) ==> |w.output| < run[t].capacity)
  {
    RunInvariant(run, t);
    assert WorkerOk(run[t], i);
  }

  // ----- progress -----

  /** What is left to do in a thread: an upper bound on the steps before everything in it has been sent. */
  function WorkOf<D>(w: Worker<D>): nat {
    5 * |w.input| + |w.output| + match w.phase {
      case Top(pushCount) => if pushCount > 0 then 3 else if w.input != [] then 1 else 0
      case SlotSeen => 0
      case Formatting(_) => 4
    }
  }

  function Work<D>(workers: seq<Worker<D>>): nat {
    Sum(workers, (w: Worker<D>) => WorkOf(w))
  }

  lemma WorkUpdate<D>(workers: seq<Worker<D>>, i: nat, w': Worker<D>)
    requires i < |workers|
    ensures Work(workers[i := w']) == Work(workers) - WorkOf(workers[i]) + WorkOf(w')
  {
    SumUpdate(workers, i, w', (w: Worker<D>) => WorkOf(w));
  }

  lemma SendWork<D>(w: Worker<D>)
    requires w.output != []
    ensures WorkOf(w.(output := w.output[1..])) < WorkOf(w)
  {
  }

  lemma LoopWork<D>(w: Worker<D>, capacity: nat)
    requires w.phase.Top? ==> w.phase.pushCount <= 1
    ensures w.phase.Top? ==> WorkOf(LoopStart(w, capacity)) <= WorkOf(w)
    ensures w.phase.SlotSeen? ==> WorkOf(Take(w)) <= WorkOf(w)
    ensures w.phase.Formatting? ==> WorkOf(GiveUp(w)) < WorkOf(w)
    ensures w.phase.Formatting? ==> forall list :: WorkOf(Finish(w, capacity, list)) < WorkOf(w)
  {
  }

  /** Only dispatching adds work. */
  lemma WorkNeverGrows<D(!new)>(s: State<D>, s': State<D>)
    requires Inv(s) && Step(s, s') && s'.dispatched == s.dispatched
    ensures Work(s'.workers) <= Work(s.workers)
  {
    hide WorkOf, Holds, Pipeline;
    if tf :| s' == Dispatch(s, tf) {
      assert s'.workers == s.workers;
    } else if s' == Send(s) {
      var w := s.workers[s.ixRead];
      if w.output != [] {
        SendWork(w);
        WorkUpdate(s.workers, s.ixRead, w.(output := w.output[1..]));
      }
    } else {
      var i :| 0 <= i < |s.workers| && (LoopStep(s, s', i) || FormatStep(s, s', i));
      assert WorkerOk(s, i);
      LoopWork(s.workers[i], s.capacity);
      WorkUpdate(s.workers, i, s'.workers[i]);
    }
  }

  /**
   No thread waits for another: one which has something to do, and room for the result, can do it. One which formats a
   timeframe can send all its messages.
   */
  lemma EveryThreadCanWork<D(!new)>(s: State<D>, i: nat) returns (s': State<D>)
    requires Inv(s) && i < |s.workers|
    requires var w := s.workers[i]; w.input != [] || w.phase.Formatting? || (w.phase.Top? && w.phase.pushCount > 0)
    requires |s.workers[i].output| < s.capacity
    ensures Step(s, s') && s'.dispatched == s.dispatched && Work(s'.workers) < Work(s.workers)
    ensures s.workers[i].phase.Formatting? ==>
              s'.workers[i].output == s.workers[i].output + [Messages(s.workers[i].phase.tf)]
  {
    var w := s.workers[i];
    assert WorkerOk(s, i);
    if w.phase.Formatting? {
      var made := seq(|w.phase.tf|, _ => true);
      AllMade(w.phase.tf, made);
      s' := FinishStep(s, i, made);
      LoopWork(w, s.capacity);
      assert FormatStep(s, s', i);
    } else {
      s' := s.(workers := s.workers[i := if w.phase.Top? then LoopStart(w, s.capacity) else Take(w)]);
      assert LoopStep(s, s', i);
    }
    WorkUpdate(s.workers, i, s'.workers[i]);
  }

  /** No deadlock: while a dispatched timeframe was not sent, some step gets work done. */
  lemma SomeoneCanWork<D(!new)>(s: State<D>) returns (s': State<D>)
    requires Inv(s) && |s.sent| < |s.dispatched|
    ensures Step(s, s') && s'.dispatched == s.dispatched && Work(s'.workers) < Work(s.workers)
  {
    var i := s.ixRead;
    var w := s.workers[i];
    assert WorkerOk(s, i);
    if w.output != [] {
      s' := Send(s);
      WorkUpdate(s.workers, i, w.(output := w.output[1..]));
    } else {
      assert Pipeline(w) == InHand(w.phase) + Ins(w.input);
      s' := EveryThreadCanWork(s, i);
    }
  }
}
