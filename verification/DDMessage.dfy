/** One data set becomes one data-distribution message: a subtimeframe header and a part per heartbeat frame. */
module DDMessage {
  import opened Rdh
  import opened Sequences
  import opened DataBlocks
  import opened HeartbeatFrames
  import opened PackedCopy
  import opened Options
  import opened HbfFormatter
  import Runs
  import HbfCompleteness

  /** sizeof(SubTimeframe) */
  const STF_HEADER_SIZE: nat := 32

  datatype SubTimeframe = SubTimeframe(timeframeId: nat, equipmentId: nat, linkId: nat, lastTFMessage: bool)

  datatype DDMessage = DDMessage(
    header: SubTimeframe,
    headerBlock: Region,
    parts: seq<Part>,
    subTimeframeTotalSize: nat,
    subTimeframeFMQSize: nat,
    subTimeframeMemorySize: nat)

  /** Identifiers come from the first block; the 64-bit timeframe id is stored in 32 bits. */
  function HeaderOf(blocks: DataSet): SubTimeframe {
    var last := exists i :: 0 <= i < |blocks| && blocks[i].flagEndOfTimeframe;
    if blocks == [] then SubTimeframe(0, UNDEFINED_EQUIPMENT, UNDEFINED_LINK, last)
    else SubTimeframe(blocks[0].timeframeId % TWO_TO_32, blocks[0].equipmentId, blocks[0].linkId, last)
  }

  ghost function Incomplete(blocks: DataSet): nat {
    HbfCompleteness.CountIncomplete(Runs.RunsOf(HbfCompleteness.SameHbf, HbfCompleteness.Heads(Payloads(blocks))))
  }

  lemma {:induction false} MemoryIsSum(blocks: DataSet)
    ensures MemoryOf(blocks) == Sum(blocks, (b: DataBlock) => b.bufferSize)
  {
    if blocks != [] {
      var n := |blocks| - 1;
      MemoryIsSum(blocks[..n]);
      SumSnoc(blocks[..n], blocks[n], (b: DataBlock) => b.bufferSize);
      assert blocks[..n] + [blocks[n]] == blocks;
    }
  }

  /** First pass: fills the header and adds up payload and memory. */
  method FirstPass(blocks: DataSet) returns (header: SubTimeframe, dataSize: nat, memorySize: nat)
    ensures header == HeaderOf(blocks) && dataSize == |Flatten(Payloads(blocks))| && memorySize == MemoryOf(blocks)
    ensures blocks != [] ==>
              && header.timeframeId == blocks[0].timeframeId % TWO_TO_32 && header.equipmentId == blocks[0].equipmentId
              && header.linkId == blocks[0].linkId
    ensures header.lastTFMessage <==> exists b :: b in blocks && b.flagEndOfTimeframe
    ensures memorySize == Sum(blocks, (b: DataBlock) => b.bufferSize)
  {
    MemoryIsSum(blocks);
    header, dataSize, memorySize := SubTimeframe(0, UNDEFINED_EQUIPMENT, UNDEFINED_LINK, false), 0, 0;
    for i := 0 to |blocks|
      invariant header == HeaderOf(blocks[..i]) && dataSize == |Flatten(Payloads(blocks[..i]))|
                && memorySize == MemoryOf(blocks[..i])
    {
      var b := blocks[i];
      assert Payloads(blocks[..i + 1]) == Payloads(blocks[..i]) + [b.payload];
      FlattenSnoc(Payloads(blocks[..i]), b.payload);
      HeaderSnoc(blocks[..i], b);
      assert blocks[..i + 1] == blocks[..i] + [b];
      assert blocks[..i + 1][..i] == blocks[..i];
      memorySize := memorySize + b.bufferSize;
      dataSize := dataSize + |b.payload|;
      if b.flagEndOfTimeframe {
        header := header.(lastTFMessage := true);
      }
      if i == 0 {
        header := header.(timeframeId := b.timeframeId % TWO_TO_32, equipmentId := b.equipmentId, linkId := b.linkId);
      }
    }
    assert blocks[..|blocks|] == blocks;
  }

  lemma HeaderSnoc(blocks: DataSet, b: DataBlock)
    ensures HeaderOf(blocks + [b]).lastTFMessage <==> HeaderOf(blocks).lastTFMessage || b.flagEndOfTimeframe
  {
    var all := blocks + [b];
    assert all[|blocks|] == b;
    assert forall i :: 0 <= i < |blocks| ==> all[i] == blocks[i];
  }

  datatype Outcome = Message(message: DDMessage) | NoHeaderPage | Dropped | NoCopyPage

  /** What is left when the frames of a data set which lie in several pages are copied, once the header has a page. */
  ghost function RoomForCopies(blocks: DataSet, pageSize: nat, packed: bool, pages: nat): Option<Room> {
    RoomAfter(Payloads(blocks), Frames(Chunks(Payloads(blocks))), pageSize, packed, Room(pages, 0))
  }

  lemma SuffixIsApart(a: seq<Region>, b: seq<Region>)
    requires AreApart(a + b)
    ensures AreApart(b)
  {
    forall i, j | 0 <= i < j < |b|
      ensures Disjoint(b[i], b[j])
    {
      assert (a + b)[|a| + i] == b[i] && (a + b)[|a| + j] == b[j];
    }
  }

  /** Second pass: the parts behind the header. The page open for copies is closed when there are no more of them. */
  method SecondPass(blocks: DataSet, copies: CopyAllocator)
    returns (ok: bool, parts: seq<Part>, fmqSize: nat, memorySize: nat)
    requires copies.Valid() && copies.copyBlockBuffer == null && copies.pageSize > 0
    modifies copies
    ensures copies.Valid() && copies.copyBlockBuffer == null && old(copies.given) <= copies.given
    ensures AreKept(old(copies.memory), copies.memory, old(copies.given))
    ensures ok <==> RoomForCopies(blocks, copies.pageSize, copies.packed, |old(copies.pool)|).Some?
    ensures ok ==>
            copies.given == old(copies.given) + Blocks(parts) && CopiesAreApart(parts)
            && |copies.pool| <= |old(copies.pool)|
    ensures ok && copies.packed ==> ArePacked(Blocks(parts), copies.pageSize)
    ensures ok ==> PartsInPages(Payloads(blocks), copies.memory, parts)
    ensures ok ==> PartsBytes(Payloads(blocks), copies.memory, parts) == Frames(Chunks(Payloads(blocks)))
    ensures ok ==>
            fmqSize == |Flatten(Payloads(blocks))|
            && memorySize == PagesSize(copies.pageSize, |old(copies.pool)| - |copies.pool|)
  {
    hide Frames, Chunks, RoomAfter, PagesSize, Blocks, PartsBytes, PartsInPages, Flatten, Payloads, CopiesAreApart,
         AreKept;
    hide CopyAllocator.Valid, ParentBlock.Valid, PiecesFollow;
    var f := new HbfFormatter(Payloads(blocks), copies);
    ok := f.Format();
    parts, fmqSize, memorySize := f.parts, f.fmqSize, f.memorySize;
    copies.ClosePage();
  }

  /**
   Formats one data set. A message holds exactly the data set's heartbeat frames behind its header, and the sizes of its
   parts add up to the size announced. No message is made exactly when no page is left for the header, when incomplete
   frames are to be dropped and there are some, or when there is no room to copy the frames which lie in several pages.
   The blocks of the message are apart from each other and from all those given before, none of which is written over.
   */
  method DDFormatMessage(blocks: DataSet, checkIncomplete: bool, dropIncomplete: bool, copies: CopyAllocator)
    returns (r: Outcome)
    requires copies.Valid() && copies.copyBlockBuffer == null
    modifies copies
    ensures copies.Valid() && copies.copyBlockBuffer == null && old(copies.given) <= copies.given
    ensures AreKept(old(copies.memory), copies.memory, old(copies.given))
    ensures r.NoHeaderPage? <==> copies.pageSize < STF_HEADER_SIZE || old(copies.pool) == []
    ensures r.Dropped? <==> !r.NoHeaderPage? && dropIncomplete && Incomplete(blocks) > 0
    ensures r.NoCopyPage? <==> !r.NoHeaderPage? && !r.Dropped? &&
                               RoomForCopies(blocks, copies.pageSize, copies.packed, |old(copies.pool)| - 1).None?
    ensures r.Message? ==> var m, pages := r.message, Payloads(blocks);
                           && m.header == HeaderOf(blocks)
                           && PartsInPages(pages, copies.memory, m.parts)
                              && PartsBytes(pages, copies.memory, m.parts) == Frames(Chunks(pages))
                           && m.subTimeframeFMQSize == m.subTimeframeTotalSize
                           && m.subTimeframeTotalSize ==
                              STF_HEADER_SIZE + |Flatten(PartsBytes(pages, copies.memory, m.parts))|
    ensures r.Message? ==> var m := r.message;
                           && copies.given == old(copies.given) + ([m.headerBlock] + Blocks(m.parts))
                           && AreApart([m.headerBlock] + Blocks(m.parts)) && CopiesAreApart(m.parts)
                           && (copies.packed ==> ArePacked(Blocks(m.parts), copies.pageSize))
                           && |copies.pool| <= |old(copies.pool)|
                           && m.subTimeframeMemorySize ==
                              MemoryOf(blocks) + PagesSize(copies.pageSize, |old(copies.pool)| - |copies.pool|)
  {
    hide Frames, Chunks, RoomAfter, PagesSize, Blocks, PartsBytes, PartsInPages, Flatten, Payloads, CopiesAreApart;
    hide CopyAllocator.Valid, ParentBlock.Valid, AreKept, AreApart, MemoryOf, HeaderOf;
    if copies.pageSize < STF_HEADER_SIZE {
      copies.NothingWritten();
      return NoHeaderPage;
    }
    copies.NothingWritten();
    var headerBlock := copies.TakeBlock(STF_HEADER_SIZE);
    if headerBlock.None? {
      return NoHeaderPage;
    }
    var header, dataSize, memorySize := FirstPass(blocks);
    var checker := new HbfCompleteness.HbfChecker(checkIncomplete || dropIncomplete);
    var incomplete := checker.CheckPages(Payloads(blocks));
    if incomplete > 0 && dropIncomplete {
      return Dropped;
    }
    ghost var withHeader := copies.memory;
    var ok, parts, fmqSize, repackSize := SecondPass(blocks, copies);
    KeptTwice(old(copies.memory), withHeader, copies.memory, old(copies.given),
              old(copies.given) + [headerBlock.value]);
    if !ok {
      return NoCopyPage;
    }
    MessageIsHbfSplit(Payloads(blocks), copies.memory, parts);
    OnePageMore(copies.pageSize, |old(copies.pool)| - 1 - |copies.pool|);
    copies.GivenAreApart();
    assert copies.given == old(copies.given) + ([headerBlock.value] + Blocks(parts));
    SuffixIsApart(old(copies.given), [headerBlock.value] + Blocks(parts));
    r := Message(DDMessage(header, headerBlock.value, parts, STF_HEADER_SIZE + dataSize, STF_HEADER_SIZE + fmqSize,
                           memorySize + copies.pageSize + repackSize));
  }
}
