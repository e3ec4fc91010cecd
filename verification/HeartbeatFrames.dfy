/** What it means to cut a list of data pages in heartbeat frames (HBF), independently of who does it. */
module HeartbeatFrames {
  import opened Rdh
  import opened Sequences
  import opened Runs

  /** A stretch of page bytes belonging to one heartbeat orbit: a packet, or the bytes left at the end of a page. */
  datatype Chunk = Chunk(orbit: nat, bytes: Bytes)

  /** Where the bytes that go with the header at `off` end: the next header, or else the end of the page. */
  function NextOffset(d: Bytes, off: nat): (r: nat)
    requires off < |d|
    ensures off < r <= |d|
  {
    if !Fits(d, off) || OffsetNextPacket(d, off) == 0 || off + OffsetNextPacket(d, off) >= |d| then |d|
    else off + OffsetNextPacket(d, off)
  }

  function OrbitAt(d: Bytes, off: nat, carry: nat): nat {
    if Fits(d, off) then HeartbeatOrbit(d, off) else carry
  }

  /**
   Follows offsetNextPacket from `off` to the end of the page. Bytes which no header covers continue orbit `carry`.
   */
  function ChunksFrom(d: Bytes, off: nat, carry: nat): seq<Chunk>
    requires off <= |d|
    decreases |d| - off
  {
    if off == |d| then []
    else [Chunk(OrbitAt(d, off, carry), d[off..NextOffset(d, off)])] +
         ChunksFrom(d, NextOffset(d, off), OrbitAt(d, off, carry))
  }

  function LastOrbit(cs: seq<Chunk>): nat {
    if cs == [] then NO_ORBIT else cs[|cs| - 1].orbit
  }

  /** The chunks of a list of pages, in order. */
  function Chunks(pages: seq<Bytes>): seq<Chunk> {
    if pages == [] then []
    else
      var before := Chunks(pages[..|pages| - 1]);
      before + ChunksFrom(pages[|pages| - 1], 0, LastOrbit(before))
  }

  function BytesOf(cs: seq<Chunk>): Bytes {
    if cs == [] then [] else BytesOf(cs[..|cs| - 1]) + cs[|cs| - 1].bytes
  }

  predicate NoEmptyChunk(cs: seq<Chunk>) {
    forall i :: 0 <= i < |cs| ==> cs[i].bytes != []
  }

  predicate SameOrbit(a: Chunk, b: Chunk) {
    a.orbit == b.orbit
  }

  function RunsBytes(runs: seq<seq<Chunk>>): seq<Bytes> {
    seq(|runs|, i requires 0 <= i < |runs| => BytesOf(runs[i]))
  }

  /** One byte string per heartbeat frame. */
  function Frames(cs: seq<Chunk>): seq<Bytes> {
    if cs == [] then []
    else
      var c, before := cs[|cs| - 1], cs[..|cs| - 1];
      var fs := Frames(before);
      if fs == [] || LastOrbit(before) != c.orbit then fs + [c.bytes]
      else fs[..|fs| - 1] + [fs[|fs| - 1] + c.bytes]
  }

  lemma {:induction false} FramesNonEmpty(cs: seq<Chunk>)
    ensures (Frames(cs) == []) == (cs == [])
  {
    if cs != [] { FramesNonEmpty(cs[..|cs| - 1]); }
  }

  lemma FramesSnoc(cs: seq<Chunk>, c: Chunk)
    ensures Frames(cs + [c]) ==
            if cs == [] then [c.bytes]
            else if LastOrbit(cs) != c.orbit then Frames(cs) + [c.bytes]
            else Frames(cs)[..|Frames(cs)| - 1] + [Frames(cs)[|Frames(cs)| - 1] + c.bytes]
    ensures cs != [] ==> Frames(cs) != []
  {
    assert (cs + [c])[..|cs|] == cs;
    FramesNonEmpty(cs);
  }

  /** A frame holds the bytes of one maximal run of equal orbit. */
  lemma {:induction false} FramesAreRuns(cs: seq<Chunk>)
    ensures Frames(cs) == RunsBytes(RunsOf(SameOrbit, cs))
  {
    if cs != [] {
      var c, before := cs[|cs| - 1], cs[..|cs| - 1];
      FramesAreRuns(before);
      AddedBytes(RunsOf(SameOrbit, before), c);
    }
  }

  lemma AddedBytes(runs: seq<seq<Chunk>>, c: Chunk)
    requires NoEmptyRun(runs)
    ensures RunsBytes(AddToRuns(SameOrbit, runs, c)) ==
            if Continues(SameOrbit, runs, c) then RunsBytes(runs)[..|runs| - 1] +
               [RunsBytes(runs)[|runs| - 1] + c.bytes]
            else RunsBytes(runs) + [c.bytes]
  {
    if Continues(SameOrbit, runs, c) {
      assert (Last(runs) + [c])[..|Last(runs)|] == Last(runs);
    } else {
      BytesOfSingle(c);
    }
  }

  /** Frames() is the only answer: it is the bytes of any cut in maximal runs. */
  lemma FramesAreMaximalRuns(cs: seq<Chunk>, runs: seq<seq<Chunk>>)
    requires IsMaximalRuns(SameOrbit, cs, runs)
    ensures Frames(cs) == RunsBytes(runs)
  {
    FramesAreRuns(cs);
    MaximalRunsAreUnique(SameOrbit, cs, runs);
  }

  lemma ConsumeChunk(d: Bytes, offset: nat, consumed: seq<Chunk>, c: Chunk)
    requires Fits(d, offset) && c == Chunk(HeartbeatOrbit(d, offset), d[offset..NextOffset(d, offset)])
    ensures consumed + ChunksFrom(d, offset, LastOrbit(consumed)) ==
            (consumed + [c]) + ChunksFrom(d, NextOffset(d, offset), c.orbit)
    ensures LastOrbit(consumed + [c]) == c.orbit
    ensures NoEmptyChunk(consumed) ==> NoEmptyChunk(consumed + [c])
  {
  }

  lemma ChunksSnoc(pages: seq<Bytes>, d: Bytes)
    ensures Chunks(pages + [d]) == Chunks(pages) + ChunksFrom(d, 0, LastOrbit(Chunks(pages)))
  {
    assert (pages + [d])[..|pages|] == pages;
  }

  lemma {:induction false} BytesOfAppend(a: seq<Chunk>, b: seq<Chunk>)
    ensures BytesOf(a + b) == BytesOf(a) + BytesOf(b)
  {
    if b == [] {
      assert a + b == a;
    } else {
      var init := b[..|b| - 1];
      assert (a + b)[..|a + b| - 1] == a + init && (a + b)[|a + b| - 1] == b[|b| - 1];
      BytesOfAppend(a, init);
    }
  }

  lemma {:induction false} ChunksFromBytes(d: Bytes, off: nat, carry: nat)
    requires off <= |d|
    ensures BytesOf(ChunksFrom(d, off, carry)) == d[off..]
    ensures NoEmptyChunk(ChunksFrom(d, off, carry))
    decreases |d| - off
  {
    if off < |d| {
      var after, orbit := NextOffset(d, off), OrbitAt(d, off, carry);
      ChunksFromBytes(d, after, orbit);
      ConsChunk(Chunk(orbit, d[off..after]), ChunksFrom(d, after, orbit));
      assert d[off..] == d[off..after] + d[after..];
    }
  }

  lemma ConsChunk(head: Chunk, rest: seq<Chunk>)
    ensures BytesOf([head] + rest) == head.bytes + BytesOf(rest)
    ensures head.bytes != [] && NoEmptyChunk(rest) ==> NoEmptyChunk([head] + rest)
  {
    BytesOfAppend([head], rest);
    BytesOfSingle(head);
  }

  lemma BytesOfSingle(c: Chunk)
    ensures BytesOf([c]) == c.bytes
  {
    assert [c][..0] == [];
  }

  /** Cutting in frames conserves the payload byte for byte and yields no empty frame, for any pages whatsoever. */
  lemma {:induction false} ChunksConserveBytes(pages: seq<Bytes>)
    ensures BytesOf(Chunks(pages)) == Flatten(pages)
    ensures NoEmptyChunk(Chunks(pages))
  {
    if pages != [] {
      var before := Chunks(pages[..|pages| - 1]);
      var d := pages[|pages| - 1];
      ChunksConserveBytes(pages[..|pages| - 1]);
      ChunksFromBytes(d, 0, LastOrbit(before));
      BytesOfAppend(before, ChunksFrom(d, 0, LastOrbit(before)));
    }
  }

  lemma GrowLast(fs: seq<Bytes>, x: Bytes)
    requires fs != []
    ensures Flatten(fs[..|fs| - 1] + [fs[|fs| - 1] + x]) == Flatten(fs) + x
  {
    FlattenSnoc(fs[..|fs| - 1], fs[|fs| - 1] + x);
  }

  lemma {:induction false} FramesConserveBytes(cs: seq<Chunk>)
    requires NoEmptyChunk(cs)
    ensures Flatten(Frames(cs)) == BytesOf(cs)
    ensures forall i :: 0 <= i < |Frames(cs)| ==> Frames(cs)[i] != []
  {
    if cs != [] {
      var c, before := cs[|cs| - 1], cs[..|cs| - 1];
      assert cs == before + [c];
      FramesConserveBytes(before);
      FramesSnoc(before, c);
      var fs := Frames(before);
      FlattenSnoc(fs, c.bytes);
      if fs != [] { GrowLast(fs, c.bytes); }
    }
  }
}
