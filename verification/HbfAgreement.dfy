/** For pages made of valid packets, sender and receiver cut the same heartbeat frames, whatever the page boundaries. */
module HbfAgreement {
  import opened Rdh
  import opened Sequences
  import opened Packets
  import opened HeartbeatFrames
  import opened Runs
  import opened PackedCopy
  import HbfFormatter
  import StfDecoder

  ghost predicate AllTiled(pages: seq<Bytes>) {
    forall i :: 0 <= i < |pages| ==> Tiled(pages[i], 0)
  }

  function PacketChunks(ps: seq<Bytes>): seq<Chunk>
    requires forall i :: 0 <= i < |ps| ==> Fits(ps[i], 0)
  {
    seq(|ps|, i requires 0 <= i < |ps| => Chunk(HeartbeatOrbit(ps[i], 0), ps[i]))
  }

  lemma PacketChunksCons(p: Bytes, ps: seq<Bytes>)
    requires Fits(p, 0) && ArePackets(ps)
    ensures PacketChunks([p] + ps) == [Chunk(HeartbeatOrbit(p, 0), p)] + PacketChunks(ps)
  {
  }

  lemma {:induction false} ChunksOfTiledPage(d: Bytes, off: nat, carry: nat)
    requires Tiled(d, off)
    ensures ArePackets(PacketsFrom(d, off)) && off <= |d|
    ensures ChunksFrom(d, off, carry) == PacketChunks(PacketsFrom(d, off))
    decreases |d| - off
  {
    PacketsTile(d, off);
    if off < |d| {
      TiledFits(d, off);
      var after := off + OffsetNextPacket(d, off);
      ChunksOfTiledPage(d, after, HeartbeatOrbit(d, off));
      HeaderOfSlice(d, off, after);
      assert NextOffset(d, off) == after;
      PacketChunksCons(d[off..after], PacketsFrom(d, after));
    }
  }

  /** What follows the packets of a page: too few bytes for a header, or a header after which there is no other. */
  predicate IsRest(rest: Bytes) {
    rest != [] && (Fits(rest, 0) ==> OffsetNextPacket(rest, 0) == 0 || OffsetNextPacket(rest, 0) >= |rest|)
  }

  lemma HeaderInPage(t: Bytes, rest: Bytes, off: nat, carry: nat)
    requires Tiled(t, off) && off < |t| && rest != []
    ensures NextOffset(t + rest, off) == NextOffset(t, off) && Tiled(t, NextOffset(t, off))
    ensures OrbitAt(t + rest, off, carry) == OrbitAt(t, off, carry)
  {
    var d := t + rest;
    TiledFits(t, off);
    HeaderOfSlice(d, off, |t|);
    HeaderOfSlice(t, off, |t|);
    assert d[off..|t|] == t[off..|t|];
  }

  lemma OrbitBehind(c: Chunk, more: seq<Chunk>)
    ensures LastOrbit([c] + more) == if more == [] then c.orbit else LastOrbit(more)
  {
  }

  lemma LastChunk(t: Bytes, rest: Bytes, carry: nat)
    requires IsRest(rest)
    ensures ChunksFrom(t + rest, |t|, carry) == [Chunk(if Fits(rest, 0) then HeartbeatOrbit(rest, 0) else carry, rest)]
  {
    var d, off := t + rest, |t|;
    assert d[off..|d|] == rest;
    if Fits(rest, 0) { HeaderOfSlice(d, off, |d|); }
    assert NextOffset(d, off) == |d| && OrbitAt(d, off, carry) == OrbitAt(rest, 0, carry);
    assert ChunksFrom(d, |d|, OrbitAt(d, off, carry)) == [];
  }

  /**
   A page of packets with something behind them: what is left of it is one more chunk. It has the orbit of its own
   header, or, if there is no room for one, it goes on with the orbit before it.
   */
  lemma {:induction false} RestOfPage(t: Bytes, rest: Bytes, off: nat, carry: nat)
    requires Tiled(t, off) && off <= |t| && IsRest(rest)
    ensures var cs := ChunksFrom(t, off, carry);
            var before := if cs == [] then carry else LastOrbit(cs);
            ChunksFrom(t + rest, off, carry) ==
              cs + [Chunk(if Fits(rest, 0) then HeartbeatOrbit(rest, 0) else before, rest)]
    decreases |t| - off
  {
    var d := t + rest;
    if off == |t| {
      LastChunk(t, rest, carry);
    } else {
      hide Tiled, NextOffset, OrbitAt, IsRest, HeartbeatOrbit;
      HeaderInPage(t, rest, off, carry);
      var after, orbit := NextOffset(t, off), OrbitAt(t, off, carry);
      var c, more := Chunk(orbit, t[off..after]), ChunksFrom(t, after, orbit);
      assert d[off..after] == t[off..after];
      assert ChunksFrom(t, off, carry) == [c] + more && ChunksFrom(d, off, carry) == [c] + ChunksFrom(d, after, orbit);
      hide ChunksFrom, LastOrbit;
      OrbitBehind(c, more);
      RestOfPage(t, rest, after, orbit);
    }
  }

  lemma PacketChunksAppend(a: seq<Bytes>, b: seq<Bytes>)
    requires ArePackets(a) && ArePackets(b)
    ensures ArePackets(a + b) && PacketChunks(a + b) == PacketChunks(a) + PacketChunks(b)
  {
  }

  /** The chunks of tiled pages are their packets. */
  lemma {:induction false} ChunksArePackets(pages: seq<Bytes>)
    requires AllTiled(pages)
    ensures ArePackets(StreamPackets(pages)) && Chunks(pages) == PacketChunks(StreamPackets(pages))
  {
    hide Tiled, PacketsFrom, ChunksFrom, IsValid, OffsetNextPacket, HeartbeatOrbit, Flatten;
    StreamPacketsTile(pages);
    if pages != [] {
      var init, d := pages[..|pages| - 1], pages[|pages| - 1];
      ChunksArePackets(init);
      ChunksOfTiledPage(d, 0, LastOrbit(Chunks(init)));
      PacketChunksAppend(StreamPackets(init), PacketsFrom(d, 0));
    }
  }

  /** Moving page boundaries changes no frame. */
  lemma FramesIgnorePageCuts(pages: seq<Bytes>, others: seq<Bytes>)
    requires AllTiled(pages) && AllTiled(others) && Flatten(pages) == Flatten(others)
    ensures Frames(Chunks(pages)) == Frames(Chunks(others))
  {
    PacketsOfPages(pages);
    PacketsOfPages(others);
    ChunksArePackets(pages);
    ChunksArePackets(others);
  }

  /** The packets of a list of pages are those of the pages glued together. */
  lemma PacketsOfPages(pages: seq<Bytes>)
    requires AllTiled(pages)
    ensures Tiled(Flatten(pages), 0) && PacketsFrom(Flatten(pages), 0) == StreamPackets(pages)
  {
    StreamPacketsTile(pages);
    PacketsOfFlatten([], StreamPackets(pages), Flatten(pages));
  }

  /** Each frame is again an exact succession of packets: those of its run. */
  lemma {:induction false} RunIsTiled(run: seq<Chunk>, ps: seq<Bytes>)
    requires ArePackets(ps) && run == PacketChunks(ps)
    ensures BytesOf(run) == Flatten(ps) && Tiled(BytesOf(run), 0) && PacketsFrom(BytesOf(run), 0) == ps
  {
    BytesOfPackets(ps);
    PacketsOfFlatten([], ps, Flatten(ps));
  }

  lemma {:induction false} BytesOfPackets(ps: seq<Bytes>)
    requires ArePackets(ps)
    ensures BytesOf(PacketChunks(ps)) == Flatten(ps)
  {
    if ps != [] {
      BytesOfPackets(ps[..|ps| - 1]);
      assert PacketChunks(ps)[..|ps| - 1] == PacketChunks(ps[..|ps| - 1]);
    }
  }

  lemma LastRun(runs: seq<seq<Chunk>>, ps: seq<Bytes>, n: nat, cut: int)
    requires ArePackets(ps) && Flatten(runs) == PacketChunks(ps)
    requires n == |runs| - 1 && cut == |ps| - |runs[n]|
    ensures 0 <= cut
    ensures Flatten(runs[..n]) == PacketChunks(ps[..cut]) && runs[n] == PacketChunks(ps[cut..])
  {
    assert |Flatten(runs)| == |Flatten(runs[..n])| + |runs[n]|;
    assert PacketChunks(ps)[..cut] == PacketChunks(ps[..cut]);
    assert PacketChunks(ps)[cut..] == PacketChunks(ps[cut..]);
  }

  lemma LastRunBytes(runs: seq<seq<Chunk>>)
    requires runs != []
    ensures RunsBytes(runs) == RunsBytes(runs[..|runs| - 1]) + [BytesOf(runs[|runs| - 1])]
  {
  }

  lemma {:induction false} RunsAreTiled(runs: seq<seq<Chunk>>, ps: seq<Bytes>)
    requires ArePackets(ps) && Flatten(runs) == PacketChunks(ps)
    ensures AllTiled(RunsBytes(runs)) && StreamPackets(RunsBytes(runs)) == ps
    decreases |runs|
  {
    hide IsPacket, HasPacket, BytesOf;
    if runs != [] {
      var n := |runs| - 1;
      var cut := |ps| - |runs[n]|;
      LastRun(runs, ps, n, cut);
      RunsAreTiled(runs[..n], ps[..cut]);
      RunIsTiled(runs[n], ps[cut..]);
      StreamPacketsSnoc(RunsBytes(runs[..n]), BytesOf(runs[n]));
      LastRunBytes(runs);
      assert ps == ps[..cut] + ps[cut..];
    }
  }

  lemma StreamPacketsSnoc(pages: seq<Bytes>, d: Bytes)
    requires AllTiled(pages) && Tiled(d, 0)
    ensures AllTiled(pages + [d]) && StreamPackets(pages + [d]) == StreamPackets(pages) + PacketsFrom(d, 0)
  {
    assert (pages + [d])[..|pages|] == pages;
  }

  /** A message that was split once is split the same way again: frames are a fixed point of the cut. */
  lemma SplitIsStable(pages: seq<Bytes>)
    requires AllTiled(pages)
    ensures AllTiled(Frames(Chunks(pages)))
    ensures Frames(Chunks(Frames(Chunks(pages)))) == Frames(Chunks(pages))
  {
    ChunksArePackets(pages);
    var runs := RunsOf(SameOrbit, Chunks(pages));
    RunsOfAreMaximal(SameOrbit, Chunks(pages));
    FramesAreRuns(Chunks(pages));
    RunsAreTiled(runs, StreamPackets(pages));
    ChunksArePackets(RunsBytes(runs));
  }

  /**
   The frames sent by the formatter and those decoded from the raw pages are the same byte strings: the packets
   grouped in maximal runs of equal heartbeat orbit. The two sides may even have cut the stream in different pages.
   */
  lemma SenderAndReceiverAgree(
      pages: seq<Bytes>, memory: Memory, parts: seq<HbfFormatter.Part>, received: seq<Bytes>,
          hbf: seq<seq<StfDecoder.Slice>>, runs: seq<seq<Chunk>>)
    requires AllTiled(pages) && AllTiled(received) && Flatten(pages) == Flatten(received)
    requires HbfFormatter.PartsInPages(pages, memory, parts)
             && HbfFormatter.PartsBytes(pages, memory, parts) == Frames(Chunks(pages))
    requires StfDecoder.AllStart(received, hbf) && StfDecoder.HbfBytes(received, hbf) == Frames(Chunks(received))
    requires ArePackets(StreamPackets(pages)) && IsMaximalRuns(SameOrbit, PacketChunks(StreamPackets(pages)), runs)
    ensures HbfFormatter.PartsBytes(pages, memory, parts) == StfDecoder.HbfBytes(received, hbf) == RunsBytes(runs)
  {
    FramesIgnorePageCuts(pages, received);
    ChunksArePackets(pages);
    FramesAreMaximalRuns(Chunks(pages), runs);
  }
}
