/** Pages and files which are an exact succession of valid packets. */
module Packets {
  import opened Rdh
  import opened Sequences

  /** A packet: a valid header which announces the packet's own length. */
  predicate IsPacket(p: Bytes) {
    Fits(p, 0) && IsValid(p, 0) && OffsetNextPacket(p, 0) == |p|
  }

  ghost predicate ArePackets(ps: seq<Bytes>) {
    forall i :: 0 <= i < |ps| ==> IsPacket(ps[i])
  }

  /** A valid header with a non-zero offset to the next packet lies at `off`. */
  predicate HasPacket(d: Bytes, off: nat) {
    Fits(d, off) && IsValid(d, off) && OffsetNextPacket(d, off) != 0
  }

  /** The packets fill the bytes from `off` on exactly. */
  predicate Tiled(d: Bytes, off: nat)
    decreases |d| - off
  {
    off == |d| || (off < |d| && HasPacket(d, off) && Tiled(d, off + OffsetNextPacket(d, off)))
  }

  lemma TiledFits(d: Bytes, off: nat)
    requires Tiled(d, off)
    ensures off <= |d|
    ensures off < |d| ==> off + OffsetNextPacket(d, off) <= |d|
  {
  }

  function PacketsFrom(d: Bytes, off: nat): seq<Bytes>
    requires Tiled(d, off)
    decreases |d| - off
  {
    if off == |d| then [] else
      TiledFits(d, off);
      [d[off..off + OffsetNextPacket(d, off)]] + PacketsFrom(d, off + OffsetNextPacket(d, off))
  }

  /** Header fields read in a page are those read in the packet cut out of it. */
  lemma HeaderOfSlice(d: Bytes, off: nat, end: nat)
    requires Fits(d, off) && off + RDH_SIZE <= end <= |d|
    ensures Fits(d[off..end], 0)
    ensures HeartbeatOrbit(d[off..end], 0) == HeartbeatOrbit(d, off)
    ensures OffsetNextPacket(d[off..end], 0) == OffsetNextPacket(d, off)
    ensures IsValid(d[off..end], 0) == IsValid(d, off)
    ensures LinkId(d[off..end], 0) == LinkId(d, off)
    ensures CruId(d[off..end], 0) == CruId(d, off) && EndPointId(d[off..end], 0) == EndPointId(d, off)
    ensures HeaderSize(d[off..end], 0) == HeaderSize(d, off) && MemorySize(d[off..end], 0) == MemorySize(d, off)
    ensures TriggerType(d[off..end], 0) == TriggerType(d, off)
    ensures PagesCounter(d[off..end], 0) == PagesCounter(d, off) && StopBit(d[off..end], 0) == StopBit(d, off)
  {
  }

  lemma PacketOfSlice(d: Bytes, off: nat)
    requires HasPacket(d, off) && off + OffsetNextPacket(d, off) <= |d|
    ensures IsPacket(d[off..off + OffsetNextPacket(d, off)])
  {
    HeaderOfSlice(d, off, off + OffsetNextPacket(d, off));
  }

  lemma FlattenCons(p: Bytes, rest: seq<Bytes>)
    ensures Flatten([p] + rest) == p + Flatten(rest)
  {
    FlattenAppend([p], rest);
    FlattenSnoc([], p);
    assert [] + [p] == [p];
  }

  lemma {:induction false} PacketsTile(d: Bytes, off: nat)
    requires Tiled(d, off)
    ensures off <= |d| && ArePackets(PacketsFrom(d, off)) && Flatten(PacketsFrom(d, off)) == d[off..]
    decreases |d| - off
  {
    if off < |d| {
      TiledFits(d, off);
      var after := off + OffsetNextPacket(d, off);
      PacketsTile(d, after);
      HeaderOfSlice(d, off, after);
      FlattenCons(d[off..after], PacketsFrom(d, after));
    }
  }

  lemma PacketAt(head: Bytes, p: Bytes, tail: Bytes)
    requires IsPacket(p)
    ensures var d := (head + p) + tail;
            && HasPacket(d, |head|) && OffsetNextPacket(d, |head|) == |p|
            && d[|head|..|head| + |p|] == p
  {
    var d := (head + p) + tail;
    assert d[|head|..|head| + |p|] == p;
    HeaderOfSlice(d, |head|, |head| + |p|);
  }

  lemma PacketsStep(d: Bytes, off: nat, p: Bytes, rest: seq<Bytes>)
    requires HasPacket(d, off) && OffsetNextPacket(d, off) == |p| && off + |p| <= |d| && d[off..off + |p|] == p
    requires Tiled(d, off + |p|) && PacketsFrom(d, off + |p|) == rest
    ensures Tiled(d, off) && PacketsFrom(d, off) == [p] + rest
  {
  }

  /** A succession of packets tiles its concatenation, wherever it starts, and is found again. */
  lemma {:induction false} PacketsOfFlatten(head: Bytes, ps: seq<Bytes>, d: Bytes)
    requires ArePackets(ps) && d == head + Flatten(ps)
    ensures Tiled(d, |head|) && PacketsFrom(d, |head|) == ps
    decreases |ps|
  {
    hide HasPacket, IsPacket;
    if ps == [] {
      assert d == head;
    } else {
      var p, rest := ps[0], ps[1..];
      assert d == (head + p) + Flatten(rest) by {
        assert ps == [p] + rest;
        FlattenCons(p, rest);
      }
      PacketAt(head, p, Flatten(rest));
      PacketsOfFlatten(head + p, rest, d);
      PacketsStep(d, |head|, p, rest);
    }
  }

  /** All the packets of a list of pages, in order. */
  ghost function StreamPackets(pages: seq<Bytes>): seq<Bytes>
    requires forall i :: 0 <= i < |pages| ==> Tiled(pages[i], 0)
  {
    if pages == [] then [] else StreamPackets(pages[..|pages| - 1]) + PacketsFrom(pages[|pages| - 1], 0)
  }

  lemma {:induction false} StreamPacketsTile(pages: seq<Bytes>)
    requires forall i :: 0 <= i < |pages| ==> Tiled(pages[i], 0)
    ensures ArePackets(StreamPackets(pages)) && Flatten(StreamPackets(pages)) == Flatten(pages)
  {
    if pages != [] {
      var init, last := pages[..|pages| - 1], pages[|pages| - 1];
      StreamPacketsTile(init);
      PacketsTile(last, 0);
      FlattenAppend(StreamPackets(init), PacketsFrom(last, 0));
    }
  }
}
