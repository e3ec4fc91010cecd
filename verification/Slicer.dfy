/** DataBlockSlicer: groups the blocks of one equipment in slices, one data source and one timeframe each. */
module Slicer {
  import opened Sequences
  import opened Runs
  import opened DataBlocks

  const MAX_LINKS: nat := 32

  datatype Source = Source(equipmentId: nat, linkId: nat)

  /** The order of the map of partial slices. */
  predicate Before(a: Source, b: Source) {
    if a.equipmentId != b.equipmentId then a.equipmentId < b.equipmentId else a.linkId < b.linkId
  }

  function SourceOf(b: DataBlock): Source {
    Source(b.equipmentId, b.linkId)
  }

  /** The slice being built for a source; an empty data set stands for none. */
  datatype PartialSlice = PartialSlice(source: Source, tfId: nat, lastUpdateTime: real, dataSet: DataSet)

  predicate IsAccepted(b: DataBlock) {
    b.linkId == UNDEFINED_LINK || b.linkId < MAX_LINKS
  }

  /** Two blocks of a source in a row go in the same slice; blocks without timeframe are never grouped. */
  predicate SameSlice(a: DataBlock, b: DataBlock) {
    a.timeframeId == b.timeframeId && b.timeframeId != UNDEFINED_TIMEFRAME
  }

  ghost predicate IsSlice(s: DataSet) {
    && s != [] && IsRun(SameSlice, s)
    && (forall b :: b in s ==> SourceOf(b) == SourceOf(s[0]))
  }

  /** The blocks of one source, in order. */
  function Select(source: Source, blocks: seq<DataBlock>): seq<DataBlock> {
    if blocks == [] then []
    else Select(source, blocks[..|blocks| - 1]) + if SourceOf(Last(blocks)) == source then [Last(blocks)] else []
  }

  /** The slices of one source, in order. */
  function SlicesOf(source: Source, slices: seq<DataSet>): seq<DataSet> {
    if slices == [] then []
    else SlicesOf(source, slices[..|slices| - 1]) + if Last(slices) != [] && SourceOf(Last(slices)[0]) == source
         then [Last(slices)] else []
  }

  /** The map entry of a source, as accessing it creates it. */
  function Lookup(source: Source, partials: seq<PartialSlice>): PartialSlice {
    if partials == [] then PartialSlice(source, UNDEFINED_TIMEFRAME, 0.0, [])
    else if partials[0].source == source then partials[0]
    else Lookup(source, partials[1..])
  }

  /** The slice being built for a source. */
  function PartialOf(source: Source, partials: seq<PartialSlice>): DataSet {
    Lookup(source, partials).dataSet
  }

  function NonEmpty(s: DataSet): seq<DataSet> {
    if s == [] then [] else [s]
  }

  predicate IsSorted(partials: seq<PartialSlice>) {
    forall i, j :: 0 <= i < j < |partials| ==> Before(partials[i].source, partials[j].source)
  }

  ghost predicate PartialOk(p: PartialSlice) {
    p.dataSet != [] ==>
        IsSlice(p.dataSet) && SourceOf(p.dataSet[0]) == p.source
        && Last(p.dataSet).timeframeId == p.tfId
  }

  /** The map entry of a source is replaced, or inserted at its place. */
  function Put(partials: seq<PartialSlice>, p: PartialSlice): seq<PartialSlice> {
    if partials == [] || Before(p.source, partials[0].source) then [p] + partials
    else if partials[0].source == p.source then [p] + partials[1..]
    else [partials[0]] + Put(partials[1..], p)
  }

  function Clear(partials: seq<PartialSlice>, i: nat): seq<PartialSlice>
    requires i < |partials|
  {
    partials[i := partials[i].(dataSet := [])]
  }

  predicate IsExpired(p: PartialSlice, timestamp: real) {
    p.dataSet != [] && p.lastUpdateTime <= timestamp
  }

  /** The slices which completeSliceOnTimeout gives up waiting for, */
  function Expired(partials: seq<PartialSlice>, timestamp: real): seq<DataSet> {
    if partials == [] then []
    else
      Expired(partials[..|partials| - 1], timestamp) +
      (if IsExpired(Last(partials), timestamp) then [Last(partials).dataSet] else [])
  }

  /** what is left to build, */
  function Remaining(partials: seq<PartialSlice>, timestamp: real): (r: seq<PartialSlice>)
    ensures |r| == |partials|
  {
    if partials == [] then []
    else
      Remaining(partials[..|partials| - 1], timestamp) +
      [if IsExpired(Last(partials), timestamp) then Last(partials).(dataSet := []) else Last(partials)]
  }

  /** and the sources concerned. */
  ghost function ExpiredSources(partials: seq<PartialSlice>, timestamp: real): set<Source> {
    if partials == [] then {}
    else
      ExpiredSources(partials[..|partials| - 1], timestamp) +
      (if IsExpired(Last(partials), timestamp) then {Last(partials).source} else {})
  }

  /** The map half way through the loop of completeSliceOnTimeout. */
  ghost function TimedOutUpTo(partials: seq<PartialSlice>, timestamp: real, i: nat): (r: seq<PartialSlice>)
    requires i <= |partials|
    ensures |r| == |partials|
    ensures i == 0 ==> r == partials
    ensures i == |partials| ==> r == Remaining(partials, timestamp)
    ensures i < |partials| ==> r[i] == partials[i]
  {
    assert partials[..|partials|] == partials;
    Remaining(partials[..i], timestamp) + partials[i..]
  }

  /** The first source with a slice being built. */
  function FirstPending(partials: seq<PartialSlice>): (k: nat)
    ensures k <= |partials|
    ensures k < |partials| ==> partials[k].dataSet != []
    ensures forall i :: 0 <= i < k ==> partials[i].dataSet == []
  {
    if partials == [] || partials[0].dataSet != [] then 0 else 1 + FirstPending(partials[1..])
  }

  predicate NothingPending(partials: seq<PartialSlice>) {
    FirstPending(partials) == |partials|
  }

  ghost predicate PartialsOk(partials: seq<PartialSlice>) {
    IsSorted(partials) && forall i :: 0 <= i < |partials| ==> PartialOk(partials[i])
  }

  ghost function AllSlicesOf(s: Source, out: seq<DataSet>, partials: seq<PartialSlice>): seq<DataSet> {
    SlicesOf(s, out) + NonEmpty(PartialOf(s, partials))
  }

  /**
   For a source, the slices which came out and the one being built are the blocks which came in, in order; and they are
   the maximal runs of these blocks if no slice was given up before it was complete.
   */
  ghost predicate Tracked(s: Source, out: seq<DataSet>, partials: seq<PartialSlice>, accepted: seq<DataBlock>,
                          cut: set<Source>) {
    && Flatten(AllSlicesOf(s, out, partials)) == Select(s, accepted)
    && (s !in cut ==> AllSlicesOf(s, out, partials) == RunsOf(SameSlice, Select(s, accepted)))
    && (s !in cut && PartialOf(s, partials) == [] ==> Select(s, accepted) == [])
  }

  ghost predicate AllTracked(out: seq<DataSet>, partials: seq<PartialSlice>, accepted: seq<DataBlock>,
                             cut: set<Source>) {
    forall s :: Tracked(s, out, partials, accepted, cut)
  }

  // ----- the map of partial slices -----

  lemma {:induction false} PutLookup(partials: seq<PartialSlice>, p: PartialSlice, s: Source)
    requires IsSorted(partials)
    ensures PartialOf(s, Put(partials, p)) == if s == p.source then p.dataSet else PartialOf(s, partials)
    ensures s == p.source ==> Lookup(s, Put(partials, p)) == p
    ensures s != p.source ==> Lookup(s, Put(partials, p)) == Lookup(s, partials)
  {
    if partials == [] || Before(p.source, partials[0].source) {
      if s == p.source { AbsentBelow(partials, s); }
    } else if partials[0].source != p.source {
      PutLookup(partials[1..], p, s);
    }
  }

  lemma {:induction false} AbsentBelow(partials: seq<PartialSlice>, s: Source)
    requires IsSorted(partials) && (partials != [] ==> Before(s, partials[0].source))
    ensures PartialOf(s, partials) == []
  {
    if |partials| > 1 {
      assert Before(partials[0].source, partials[1].source);
    }
    if partials != [] { AbsentBelow(partials[1..], s); }
  }

  lemma {:induction false} PutKeepsPartialsOk(partials: seq<PartialSlice>, p: PartialSlice)
    requires PartialsOk(partials) && PartialOk(p)
    ensures PartialsOk(Put(partials, p))
    ensures forall x :: x in Put(partials, p) ==> x == p || x in partials
  {
    var r := Put(partials, p);
    if partials == [] || Before(p.source, partials[0].source) {
    } else if partials[0].source == p.source {
    } else {
      PutKeepsPartialsOk(partials[1..], p);
      var tail := Put(partials[1..], p);
      forall j | 0 <= j < |tail|
        ensures Before(partials[0].source, tail[j].source)
      {
        assert tail[j] in tail;
      }
    }
  }

  lemma {:induction false} LookupAt(partials: seq<PartialSlice>, i: nat)
    requires IsSorted(partials) && i < |partials|
    ensures PartialOf(partials[i].source, partials) == partials[i].dataSet
  {
    if i > 0 {
      assert Before(partials[0].source, partials[i].source);
      LookupAt(partials[1..], i - 1);
    }
  }

  lemma {:induction false} LookupEntry(partials: seq<PartialSlice>, i: nat)
    requires IsSorted(partials) && i < |partials|
    ensures Lookup(partials[i].source, partials) == partials[i]
  {
    if i > 0 {
      assert Before(partials[0].source, partials[i].source);
      LookupEntry(partials[1..], i - 1);
    }
  }

  lemma {:induction false} RemainingAt(partials: seq<PartialSlice>, timestamp: real, k: nat)
    requires k < |partials|
    ensures Remaining(partials, timestamp)[k] ==
            if partials[k].dataSet != [] && partials[k].lastUpdateTime <= timestamp then partials[k].(dataSet := [])
            else partials[k]
  {
    if k < |partials| - 1 { RemainingAt(partials[..|partials| - 1], timestamp, k); }
  }

  /** Only slices which were not updated since the given time are given up. */
  lemma {:induction false} ExpiredAreOld(partials: seq<PartialSlice>, timestamp: real, s: Source)
    requires IsSorted(partials) && s in ExpiredSources(partials, timestamp)
    ensures Lookup(s, partials).dataSet != [] && Lookup(s, partials).lastUpdateTime <= timestamp
  {
    var i := OneIsExpired(partials, timestamp, s);
    LookupEntry(partials, i);
  }

  lemma {:induction false} OneIsExpired(partials: seq<PartialSlice>, timestamp: real, s: Source) returns (i: nat)
    requires s in ExpiredSources(partials, timestamp)
    ensures i < |partials| && partials[i].source == s
    ensures partials[i].dataSet != [] && partials[i].lastUpdateTime <= timestamp
  {
    var n := |partials| - 1;
    if partials[n].source == s && IsExpired(partials[n], timestamp) {
      i := n;
    } else {
      i := OneIsExpired(partials[..n], timestamp, s);
    }
  }

  lemma {:induction false} ClearLookup(partials: seq<PartialSlice>, i: nat, s: Source)
    requires IsSorted(partials) && i < |partials|
    ensures PartialOf(s, Clear(partials, i)) == if s == partials[i].source then [] else PartialOf(s, partials)
  {
    if i > 0 {
      assert Before(partials[0].source, partials[i].source);
      assert Clear(partials, i)[1..] == Clear(partials[1..], i - 1);
      ClearLookup(partials[1..], i - 1, s);
    } else if s == partials[0].source {
    } else {
      assert Clear(partials, 0)[1..] == partials[1..];
    }
  }

  lemma {:induction false} LookupOk(partials: seq<PartialSlice>, s: Source)
    requires forall i :: 0 <= i < |partials| ==> PartialOk(partials[i])
    ensures Lookup(s, partials).source == s && PartialOk(Lookup(s, partials))
  {
    if partials != [] && partials[0].source != s { LookupOk(partials[1..], s); }
  }

  // ----- the sequences of slices -----

  lemma SlicesOfSnoc(s: Source, out: seq<DataSet>, slice: DataSet)
    requires slice != []
    ensures SourceOf(slice[0]) == s ==> SlicesOf(s, out + [slice]) == SlicesOf(s, out) + [slice]
    ensures SourceOf(slice[0]) != s ==> SlicesOf(s, out + [slice]) == SlicesOf(s, out)
  {
    assert (out + [slice])[..|out|] == out;
  }

  lemma SelectSnoc(s: Source, blocks: seq<DataBlock>, b: DataBlock)
    ensures SourceOf(b) == s ==> Select(s, blocks + [b]) == Select(s, blocks) + [b]
    ensures SourceOf(b) != s ==> Select(s, blocks + [b]) == Select(s, blocks)
  {
    assert (blocks + [b])[..|blocks|] == blocks;
  }

  lemma EntryIsOk(p: PartialSlice, b: DataBlock, timestamp: real)
    requires PartialOk(p) && p.source == SourceOf(b)
    ensures PartialOk(PartialSlice(SourceOf(b), b.timeframeId, timestamp, SliceWith(p.dataSet, b)))
    ensures p.dataSet != [] ==> (SameSlice(Last(p.dataSet), b) <==>
                                 p.tfId == b.timeframeId && b.timeframeId != UNDEFINED_TIMEFRAME)
  {
  }

  /** Giving up a partial slice: it goes out as it is. */
  lemma CutKeeps(s: Source, out: seq<DataSet>, partials: seq<PartialSlice>, accepted: seq<DataBlock>, cut: set<Source>,
                 i: nat)
    requires PartialsOk(partials) && i < |partials| && partials[i].dataSet != []
    requires Tracked(s, out, partials, accepted, cut)
    ensures Tracked(s, out + [partials[i].dataSet], Clear(partials, i), accepted, cut + {partials[i].source})
  {
    hide Flatten, SlicesOf, PartialOf, Clear;
    var slice := partials[i].dataSet;
    var rest := Clear(partials, i);
    assert SourceOf(slice[0]) == partials[i].source by { assert PartialOk(partials[i]); }
    SlicesOfSnoc(s, out, slice);
    ClearLookup(partials, i, s);
    LookupAt(partials, i);
    if s == partials[i].source {
      assert NonEmpty(PartialOf(s, partials)) == [slice] && NonEmpty(PartialOf(s, rest)) == [];
    }
    assert AllSlicesOf(s, out + [slice], rest) == AllSlicesOf(s, out, partials);
  }

  ghost function OutAfter(out: seq<DataSet>, cur: DataSet, b: DataBlock): seq<DataSet> {
    if cur != [] && !SameSlice(Last(cur), b) then out + [cur] else out
  }

  /** The slice in which a block goes, given the one being built. */
  function SliceWith(cur: DataSet, b: DataBlock): DataSet {
    if cur != [] && SameSlice(Last(cur), b) then cur + [b] else [b]
  }

  /** A block of the source goes on, or opens a slice, as in the maximal runs. */
  lemma AppendToSource(out: seq<DataSet>, cur: DataSet, b: DataBlock)
    requires NoEmptyRun(SlicesOf(SourceOf(b), out)) && (cur != [] ==> SourceOf(cur[0]) == SourceOf(b))
    ensures var s := SourceOf(b);
            var was, now := SlicesOf(s, out) + NonEmpty(cur), SlicesOf(s, OutAfter(out, cur, b)) + [SliceWith(cur, b)];
            && NoEmptyRun(was)
            && Flatten(now) == Flatten(was) + [b]
            && (cur != [] || was == [] ==> now == AddToRuns(SameSlice, was, b))
  {
    var s := SourceOf(b);
    var before := SlicesOf(s, out);
    if cur == [] {
      FlattenSnoc(before, [b]);
      assert before + NonEmpty(cur) == before;
    } else if SameSlice(Last(cur), b) {
      FlattenSnoc(before, cur);
      FlattenSnoc(before, cur + [b]);
      assert (before + [cur])[..|before|] == before;
    } else {
      SlicesOfSnoc(s, out, cur);
      FlattenSnoc(before + [cur], [b]);
    }
  }

  lemma {:induction false} SlicesAreNotEmpty(s: Source, out: seq<DataSet>)
    ensures NoEmptyRun(SlicesOf(s, out))
  {
    if out != [] { SlicesAreNotEmpty(s, out[..|out| - 1]); }
  }

  lemma AppendKeeps(s: Source, out: seq<DataSet>, partials: seq<PartialSlice>, accepted: seq<DataBlock>,
                    cut: set<Source>, b: DataBlock, timestamp: real)
    requires PartialsOk(partials) && Tracked(s, out, partials, accepted, cut)
    ensures var cur := PartialOf(SourceOf(b), partials);
            var p := PartialSlice(SourceOf(b), b.timeframeId, timestamp, SliceWith(cur, b));
            Tracked(s, OutAfter(out, cur, b), Put(partials, p), accepted + [b], cut)
  {
    hide Flatten, Select, RunsOf, SlicesOf, Put, Lookup, AddToRuns, IsSlice;
    var cur := PartialOf(SourceOf(b), partials);
    var p := PartialSlice(SourceOf(b), b.timeframeId, timestamp, SliceWith(cur, b));
    PutLookup(partials, p, s);
    SelectSnoc(s, accepted, b);
    LookupOk(partials, SourceOf(b));
    if s == SourceOf(b) {
      SlicesAreNotEmpty(s, out);
      AppendToSource(out, cur, b);
      RunsOfSnoc(SameSlice, Select(s, accepted), b);
    } else if cur != [] {
      SlicesOfSnoc(s, out, cur);
    }
  }

  lemma AppendKeepsAll(out: seq<DataSet>, partials: seq<PartialSlice>, accepted: seq<DataBlock>, cut: set<Source>,
                       b: DataBlock, p: PartialSlice)
    requires PartialsOk(partials) && AllTracked(out, partials, accepted, cut)
    requires p.source == SourceOf(b) && p.tfId == b.timeframeId
             && p.dataSet == SliceWith(PartialOf(SourceOf(b), partials), b)
    ensures AllTracked(OutAfter(out, PartialOf(SourceOf(b), partials), b), Put(partials, p), accepted + [b], cut)
  {
    forall s
      ensures Tracked(s, OutAfter(out, PartialOf(SourceOf(b), partials), b), Put(partials, p), accepted + [b], cut)
    {
      AppendKeeps(s, out, partials, accepted, cut, b, p.lastUpdateTime);
    }
  }

  lemma CutKeepsAll(out: seq<DataSet>, partials: seq<PartialSlice>, accepted: seq<DataBlock>, cut: set<Source>, i: nat)
    requires PartialsOk(partials) && i < |partials| && partials[i].dataSet != []
    requires AllTracked(out, partials, accepted, cut)
    ensures AllTracked(out + [partials[i].dataSet], Clear(partials, i), accepted, cut + {partials[i].source})
    ensures PartialsOk(Clear(partials, i)) && IsSlice(partials[i].dataSet)
  {
    assert PartialOk(partials[i]);
    forall s
      ensures Tracked(s, out + [partials[i].dataSet], Clear(partials, i), accepted, cut + {partials[i].source})
    {
      CutKeeps(s, out, partials, accepted, cut, i);
    }
  }

  /** One step of completeSliceOnTimeout. */
  lemma TimeoutStep(partials: seq<PartialSlice>, timestamp: real, i: nat)
    requires i < |partials|
    ensures var was := TimedOutUpTo(partials, timestamp, i);
            TimedOutUpTo(partials, timestamp, i + 1) == if IsExpired(partials[i], timestamp) then Clear(was, i) else was
    ensures var was := Expired(partials[..i], timestamp);
            Expired(partials[..i + 1], timestamp) == if IsExpired(partials[i], timestamp)
                then was + [partials[i].dataSet] else was
    ensures var was := ExpiredSources(partials[..i], timestamp);
            ExpiredSources(partials[..i + 1], timestamp) == if IsExpired(partials[i], timestamp)
                then was + {partials[i].source} else was
  {
    var next := partials[..i + 1];
    assert next[..i] == partials[..i] && Last(next) == partials[i];
  }

  class DataBlockSlicer {
    var partialSlices: seq<PartialSlice>   // ordered by source
    var slices: seq<DataSet>               // complete, oldest first
    ghost var accepted: seq<DataBlock>     // every block taken in
    ghost var delivered: seq<DataSet>      // every slice given out
    ghost var cut: set<Source>             // sources of which a slice was given up before it was complete

    constructor ()
      ensures Valid() && partialSlices == [] && slices == [] && accepted == [] && delivered == [] && cut == {}
    {
      partialSlices, slices, accepted, delivered, cut := [], [], [], [], {};
    }

    ghost predicate Valid()
      reads this
    {
      && PartialsOk(partialSlices)
      && (forall i :: 0 <= i < |slices| ==> IsSlice(slices[i]))
      && (forall i :: 0 <= i < |delivered| ==> IsSlice(delivered[i]))
      && AllTracked(delivered + slices, partialSlices, accepted, cut)
    }

    method AppendBlock(block: DataBlock, timestamp: real) returns (r: int)
      requires Valid()
      modifies this
      ensures Valid() && delivered == old(delivered) && cut == old(cut)
      ensures !IsAccepted(block) ==>
              r == -1 && slices == old(slices) && partialSlices == old(partialSlices)
              && accepted == old(accepted)
      ensures r == -1 <==> block.linkId != UNDEFINED_LINK && block.linkId >= MAX_LINKS
      ensures IsAccepted(block) ==>
                var cur := PartialOf(SourceOf(block), old(partialSlices));
                && r == |SliceWith(cur, block)|
                && slices == OutAfter(old(slices), cur, block)
                && partialSlices == Put(old(partialSlices),
                                        PartialSlice(SourceOf(block), block.timeframeId, timestamp,
                                                     SliceWith(cur, block)))
                && accepted == old(accepted) + [block]
    {
      hide AllTracked, IsSlice;
      var source := SourceOf(block);
      if source.linkId != UNDEFINED_LINK {
        if source.linkId >= MAX_LINKS {
          return -1;
        }
      }
      var s := Lookup(source, partialSlices);
      LookupOk(partialSlices, source);
      var current := s.dataSet;
      EntryIsOk(s, block, timestamp);
      ghost var out := OutAfter(delivered + slices, current, block);
      if current != [] {
        if s.tfId != block.timeframeId || block.timeframeId == UNDEFINED_TIMEFRAME {
          assert delivered + (slices + [current]) == (delivered + slices) + [current];
          slices := slices + [current];
          current := [];
        }
      }
      current := current + [block];
      assert current == SliceWith(s.dataSet, block);
      var entry := PartialSlice(source, block.timeframeId, timestamp, current);
      PutKeepsPartialsOk(partialSlices, entry);
      AppendKeepsAll(old(delivered + slices), partialSlices, accepted, cut, block, entry);
      assert delivered + slices == out;
      partialSlices := Put(partialSlices, entry);
      accepted := accepted + [block];
      return |current|;
    }

    method GetSlice(includeIncomplete: bool) returns (slice: DataSet)
      requires Valid()
      modifies this
      ensures Valid() && accepted == old(accepted)
      ensures delivered == if slice == [] then old(delivered) else old(delivered) + [slice]
      ensures slice != [] ==> IsSlice(slice)
      ensures old(slices) != [] ==>
                slice == old(slices)[0] && slices == old(slices)[1..] && partialSlices == old(partialSlices)
                    && cut == old(cut)
      ensures old(slices) == [] && !includeIncomplete ==> slice == [] && unchanged(this)
      ensures old(slices) == [] && includeIncomplete ==>
                var k := FirstPending(old(partialSlices));
                && slices == []
                && if k == |old(partialSlices)| then slice == [] && unchanged(this)
                   else
                     && slice == old(partialSlices)[k].dataSet
                     && partialSlices == Clear(old(partialSlices), k)
                     && cut == old(cut) + {old(partialSlices)[k].source}
    {
      slice := [];
      if slices == [] {
        if includeIncomplete {
          var i := 0;
          while i < |partialSlices| && partialSlices[i].dataSet == []
            invariant i <= |partialSlices|
            invariant FirstPending(partialSlices) == i + FirstPending(partialSlices[i..])
          {
            assert partialSlices[i..][1..] == partialSlices[i + 1..];
            i := i + 1;
          }
          if i < |partialSlices| {
            slice := partialSlices[i].dataSet;
            assert delivered + slices == delivered;
            CutKeepsAll(delivered, partialSlices, accepted, cut, i);
            cut := cut + {partialSlices[i].source};
            partialSlices := Clear(partialSlices, i);
            delivered := delivered + [slice];
            assert delivered + slices == delivered;
          }
        }
      } else {
        slice := slices[0];
        assert delivered + slices == (delivered + [slice]) + slices[1..];
        slices := slices[1..];
        delivered := delivered + [slice];
      }
    }

    method CompleteSliceOnTimeout(timestamp: real) returns (nFlushed: nat)
      requires Valid()
      modifies this
      ensures Valid() && accepted == old(accepted) && delivered == old(delivered)
      ensures nFlushed == |Expired(old(partialSlices), timestamp)|
      ensures slices == old(slices) + Expired(old(partialSlices), timestamp)
      ensures partialSlices == Remaining(old(partialSlices), timestamp)
      ensures forall k :: 0 <= k < |partialSlices| ==>
                var p := old(partialSlices)[k];
                partialSlices[k] == if p.dataSet != [] && p.lastUpdateTime <= timestamp then p.(dataSet := []) else p
      ensures cut == old(cut) + ExpiredSources(old(partialSlices), timestamp)
    {
      nFlushed := 0;
      ghost var was := partialSlices;
      assert was[..0] == [] && was[..|was|] == was;
      for i := 0 to |partialSlices|
        invariant Valid() && accepted == old(accepted) && delivered == old(delivered)
        invariant TimedOut(was, old(slices), old(cut), timestamp, i)
        invariant |slices| == old(|slices|) + nFlushed
      {
        var flushed := CompleteIfExpired(was, old(slices), old(cut), timestamp, i);
        if flushed { nFlushed := nFlushed + 1; }
      }
      forall k | 0 <= k < |was|
        ensures partialSlices[k] == if was[k].dataSet != [] && was[k].lastUpdateTime <= timestamp
                                    then was[k].(dataSet := []) else was[k]
      {
        RemainingAt(was, timestamp, k);
      }
    }

    ghost predicate TimedOut(was: seq<PartialSlice>, slices0: seq<DataSet>, cut0: set<Source>, timestamp: real, i: nat)
      requires i <= |was|
      reads this
    {
      && partialSlices == TimedOutUpTo(was, timestamp, i)
      && slices == slices0 + Expired(was[..i], timestamp)
      && cut == cut0 + ExpiredSources(was[..i], timestamp)
    }

    /** The body of the loop of completeSliceOnTimeout. */
    method CompleteIfExpired(ghost was: seq<PartialSlice>, ghost slices0: seq<DataSet>, ghost cut0: set<Source>,
                             timestamp: real, i: nat)
      returns (flushed: bool)
      requires Valid() && i < |partialSlices| == |was| && TimedOut(was, slices0, cut0, timestamp, i)
      modifies this
      ensures Valid() && accepted == old(accepted) && delivered == old(delivered)
      ensures TimedOut(was, slices0, cut0, timestamp, i + 1)
      ensures |slices| == old(|slices|) + if flushed then 1 else 0
    {
      flushed := false;
      TimeoutStep(was, timestamp, i);
      if partialSlices[i].dataSet != [] {
        if partialSlices[i].lastUpdateTime <= timestamp {
          MoveToSlices(i);
          flushed := true;
        }
      }
    }

    method MoveToSlices(i: nat)
      requires Valid() && i < |partialSlices| && partialSlices[i].dataSet != []
      modifies this
      ensures Valid() && accepted == old(accepted) && delivered == old(delivered)
      ensures slices == old(slices) + [old(partialSlices)[i].dataSet]
      ensures partialSlices == Clear(old(partialSlices), i)
      ensures cut == old(cut) + {old(partialSlices)[i].source}
    {
      var slice := partialSlices[i].dataSet;
      CutKeepsAll(delivered + slices, partialSlices, accepted, cut, i);
      cut := cut + {partialSlices[i].source};
      assert delivered + (slices + [slice]) == (delivered + slices) + [slice];
      slices := slices + [slice];
      partialSlices := Clear(partialSlices, i);
    }
  }

  // ----- what the slices of a run are -----

  lemma {:induction false} SlicesOfAppend(s: Source, a: seq<DataSet>, b: seq<DataSet>)
    ensures SlicesOf(s, a + b) == SlicesOf(s, a) + SlicesOf(s, b)
  {
    if b == [] {
      assert a + b == a;
    } else {
      var init := b[..|b| - 1];
      assert (a + b)[..|a + b| - 1] == a + init && Last(a + b) == Last(b);
      SlicesOfAppend(s, a, init);
    }
  }

  /**
   Over any sequence of calls from the creation of the slicer: per source, the slices given out, the ones waiting and
   the one being built hold the accepted blocks, each once and in order. They are the maximal runs of blocks of one
   timeframe, unless a slice of the source was given up on a timeout or a flush.
   */
  lemma SourceIsPreserved(slicer: DataBlockSlicer, s: Source)
    requires slicer.Valid()
    ensures var all := SlicesOf(s, slicer.delivered) + SlicesOf(s, slicer.slices) +
            NonEmpty(PartialOf(s, slicer.partialSlices));
            && Flatten(all) == Select(s, slicer.accepted)
            && (s !in slicer.cut ==> IsMaximalRuns(SameSlice, Select(s, slicer.accepted), all))
  {
    assert Tracked(s, slicer.delivered + slicer.slices, slicer.partialSlices, slicer.accepted, slicer.cut);
    SlicesOfAppend(s, slicer.delivered, slicer.slices);
    RunsOfAreMaximal(SameSlice, Select(s, slicer.accepted));
  }

  /** A slice has one source and one timeframe, and a single block if the timeframe is undefined. */
  lemma {:induction false} SliceHasOneTimeframe(slice: DataSet, i: nat)
    requires IsSlice(slice) && i < |slice|
    ensures slice[i].timeframeId == slice[0].timeframeId
    ensures slice[i].equipmentId == slice[0].equipmentId && slice[i].linkId == slice[0].linkId
    ensures slice[0].timeframeId == UNDEFINED_TIMEFRAME ==> |slice| == 1
  {
    assert slice[i] in slice;
    if i > 0 { SliceHasOneTimeframe(slice, i - 1); }
    if |slice| > 1 { assert SameSlice(slice[0], slice[1]); }
  }
}
