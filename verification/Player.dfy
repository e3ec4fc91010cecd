/**
 ReadoutEquipmentPlayer in autoChunk mode: a file of packets is cut in pages of one source and one timeframe each, and
 possibly replayed in loops with orbits which go on from the end of the previous loop.
 */
module Player {
  import opened Rdh
  import opened Arithmetic
  import opened Sequences
  import opened Packets
  import opened DataBlocks
  import opened Timeframes
  import opened Options

  /** What makes the player change page. */
  datatype PacketHeader = PacketHeader(timeframeId: nat, linkId: nat, equipmentId: nat)

  const NO_PACKET: PacketHeader := PacketHeader(UNDEFINED_TIMEFRAME, UNDEFINED_LINK, UNDEFINED_EQUIPMENT)

  datatype Block = Block(data: Bytes, header: PacketHeader, orbitOffset: nat)

  // ----- orbits written in a page -----

  function WithOrbit(d: Bytes, off: nat, orbit: nat): (r: Bytes)
    requires Fits(d, off) && orbit < TWO_TO_32
    ensures |r| == |d|
  {
    d[..off + 20] + WordBytes(orbit) + d[off + 24..]
  }

  lemma SameWord(a: Bytes, i: nat, b: Bytes, j: nat)
    requires i + 4 <= |a| && j + 4 <= |b| && a[i..i + 4] == b[j..j + 4]
    ensures U32(a, i) == U32(b, j)
  {
    var w := a[i..i + 4];
    assert w[0] == a[i] && w[1] == a[i + 1] && w[2] == a[i + 2] && w[3] == a[i + 3];
    assert w[0] == b[j] && w[1] == b[j + 1] && w[2] == b[j + 2] && w[3] == b[j + 3];
  }

  lemma OrbitIsWritten(d: Bytes, off: nat, orbit: nat)
    requires Fits(d, off) && orbit < TWO_TO_32
    ensures HeartbeatOrbit(WithOrbit(d, off, orbit), off) == orbit
  {
    var r := WithOrbit(d, off, orbit);
    assert r[off + 20..off + 24] == WordBytes(orbit)[0..4];
    SameWord(r, off + 20, WordBytes(orbit), 0);
  }

  /** A packet with its orbit moved. */
  function Shifted(p: Bytes, offset: nat): (r: Bytes)
    requires Fits(p, 0)
    ensures |r| == |p|
  {
    WithOrbit(p, 0, Wrap(HeartbeatOrbit(p, 0) + offset))
  }

  /** Only the orbit changes in a packet. */
  lemma ShiftedPacket(p: Bytes, offset: nat)
    requires IsPacket(p)
    ensures var r := Shifted(p, offset);
            && IsPacket(r) && HeartbeatOrbit(r, 0) == Wrap(HeartbeatOrbit(p, 0) + offset)
            && (forall k :: 0 <= k < |p| && !(20 <= k < 24) ==> r[k] == p[k])
  {
    OrbitIsWritten(p, 0, Wrap(HeartbeatOrbit(p, 0) + offset));
  }

  /** How packets are replayed: the new orbits are written in the packets, or left to the page header. */
  datatype Replay = Replay(updateOrbits: bool, first: nat, period: nat, offset: nat)

  function Replayed(p: Bytes, r: Replay): (q: Bytes)
    requires Fits(p, 0)
    ensures |q| == |p|
  {
    if r.updateOrbits then Shifted(p, r.offset) else p
  }

  function ReplayAll(ps: seq<Bytes>, r: Replay): seq<Bytes>
    requires forall i :: 0 <= i < |ps| ==> Fits(ps[i], 0)
  {
    if ps == [] then [] else ReplayAll(ps[..|ps| - 1], r) + [Replayed(ps[|ps| - 1], r)]
  }

  function HeaderAt(d: Bytes, off: nat, r: Replay): PacketHeader
    requires Fits(d, off) && r.period > 0
  {
    PacketHeader(TimeframeOf(r.first, r.period, Wrap(HeartbeatOrbit(d, off) + r.offset)), LinkId(d, off),
                 CruId(d, off) * 10 + EndPointId(d, off))
  }

  // ----- scanning a page -----

  /** Whole packets of one header, as they are in the file and as they are replayed. */
  ghost predicate IsChunk(ps: seq<Bytes>, source: Bytes, data: Bytes, h: PacketHeader, r: Replay) {
    && r.period > 0 && ArePackets(ps)
    && Flatten(ps) == source && Flatten(ReplayAll(ps, r)) == data
    && (forall i :: 0 <= i < |ps| ==> HeaderAt(ps[i], 0, r) == h)
  }

  /** The page holds such packets up to an offset, and the data of the file after it. */
  ghost predicate Scanned(input: Bytes, page: Bytes, off: nat, ps: seq<Bytes>, h: PacketHeader, r: Replay) {
    && |page| == |input| && off <= |page|
    && IsChunk(ps, input[..off], page[..off], h, r) && page[off..] == input[off..]
  }

  /** No whole packet of the same header follows. */
  ghost predicate IsComplete(input: Bytes, off: nat, h: PacketHeader, r: Replay)
    requires r.period > 0
  {
    Fits(input, off) ==>
      && IsValid(input, off)
      && (HeaderAt(input, off, r) != h || OffsetNextPacket(input, off) == 0
          || off + OffsetNextPacket(input, off) > |input|)
  }

  predicate WholePacket(d: Bytes, off: nat) {
    HasPacket(d, off) && off + OffsetNextPacket(d, off) <= |d|
  }

  /** After some packets of the page comes an invalid header, or none of them is whole. */
  ghost predicate CannotStart(input: Bytes, ps: seq<Bytes>) {
    var at := |Flatten(ps)|;
    && ArePackets(ps) && at <= |input| && Flatten(ps) == input[..at]
    && ((Fits(input, at) && !IsValid(input, at)) || (at == 0 && !WholePacket(input, 0)))
  }

  lemma SameRest(a: Bytes, b: Bytes, off: nat)
    requires |a| == |b| && off <= |a| && a[off..] == b[off..] && Fits(a, off)
    ensures forall k :: off <= k < |a| ==> a[k] == b[k]
    ensures IsValid(a, off) == IsValid(b, off) && OffsetNextPacket(a, off) == OffsetNextPacket(b, off)
    ensures HeartbeatOrbit(a, off) == HeartbeatOrbit(b, off)
    ensures LinkId(a, off) == LinkId(b, off) && CruId(a, off) == CruId(b, off)
            && EndPointId(a, off) == EndPointId(b, off)
  {
    forall k | off <= k < |a|
      ensures a[k] == b[k]
    {
      assert a[off..][k - off] == b[off..][k - off];
    }
  }

  lemma ReplayAllSnoc(ps: seq<Bytes>, p: Bytes, r: Replay)
    requires ArePackets(ps) && IsPacket(p)
    ensures ArePackets(ps + [p]) && Flatten(ReplayAll(ps + [p], r)) == Flatten(ReplayAll(ps, r)) + Replayed(p, r)
  {
    assert (ps + [p])[..|ps|] == ps;
    FlattenSnoc(ReplayAll(ps, r), Replayed(p, r));
  }

  /** The page after the header at an offset was processed. */
  function Edited(page: Bytes, off: nat, r: Replay): (q: Bytes)
    requires Fits(page, off)
    ensures |q| == |page|
  {
    if r.updateOrbits then WithOrbit(page, off, Wrap(HeartbeatOrbit(page, off) + r.offset)) else page
  }

  /** Whether it was updated or not, the header and the page header together give the orbit of the replay. */
  lemma EditedHeader(page: Bytes, off: nat, r: Replay)
    requires Fits(page, off) && r.period > 0 && r.offset < TWO_TO_32
    ensures var q, blockOffset := Edited(page, off, r), if r.updateOrbits then 0 else r.offset;
            && Wrap(HeartbeatOrbit(q, off) + blockOffset) == Wrap(HeartbeatOrbit(page, off) + r.offset)
            && HeaderAt(page, off, r) == PacketHeader(
                 TimeframeOf(r.first, r.period, Wrap(HeartbeatOrbit(q, off) + blockOffset)), LinkId(q, off),
                     CruId(q, off) * 10 + EndPointId(q, off))
  {
    hide TimeframeOf, Wrap;
    var orbit := HeartbeatOrbit(page, off) + r.offset;
    if r.updateOrbits {
      OrbitIsWritten(page, off, Wrap(orbit));
    }
    WrapSum(orbit, 0);
  }

  lemma EditedStart(page: Bytes, off: nat, r: Replay)
    requires Fits(page, off)
    ensures Edited(page, off, r)[..off] == page[..off]
  {
  }

  lemma EditedPacket(page: Bytes, off: nat, size: nat, r: Replay)
    requires Fits(page, off) && RDH_SIZE <= size && off + size <= |page|
    ensures var q := Edited(page, off, r);
            && q[..off] == page[..off] && q[off..off + size] == Replayed(page[off..off + size], r)
               && q[off + size..] == page[off + size..]
  {
    HeaderOfSlice(page, off, off + size);
    hide HeartbeatOrbit;
    if r.updateOrbits {
      ReplacedBytes(page, off, size, WordBytes(Wrap(HeartbeatOrbit(page, off) + r.offset)));
    }
  }

  lemma ReplacedBytes(page: Bytes, off: nat, size: nat, x: Bytes)
    requires RDH_SIZE <= size && off + size <= |page| && |x| == 4
    ensures var q, p := page[..off + 20] + x + page[off + 24..], page[off..off + size];
            && q[..off] == page[..off] && q[off..off + size] == p[..0 + 20] + x + p[0 + 24..]
               && q[off + size..] == page[off + size..]
  {
    var q, p := page[..off + 20] + x + page[off + 24..], page[off..off + size];
    assert p[..20] == page[off..off + 20] && p[24..] == page[off + 24..off + size];
    assert q[off..off + size] == page[off..off + 20] + x + page[off + 24..off + size];
  }

  lemma PacketOfPage(d: Bytes, off: nat, r: Replay)
    requires HasPacket(d, off) && off + OffsetNextPacket(d, off) <= |d| && r.period > 0
    ensures var p := d[off..off + OffsetNextPacket(d, off)];
            IsPacket(p) && HeaderAt(p, 0, r) == HeaderAt(d, off, r)
  {
    HeaderOfSlice(d, off, off + OffsetNextPacket(d, off));
  }

  /** One more packet of the page. */
  lemma ScanStep(input: Bytes, page: Bytes, off: nat, ps: seq<Bytes>, h: PacketHeader, r: Replay)
    requires Scanned(input, page, off, ps, h, r) && HasPacket(input, off)
             && off + OffsetNextPacket(input, off) <= |input|
    requires HeaderAt(input, off, r) == h && Fits(page, off)
    ensures var after := off + OffsetNextPacket(input, off);
            Scanned(input, Edited(page, off, r), after, ps + [input[off..after]], h, r)
  {
    var size := OffsetNextPacket(input, off);
    var after := off + size;
    var p, q := input[off..after], Edited(page, off, r);
    PacketOfPage(input, off, r);
    EditedPacket(page, off, size, r);
    ReplayAllSnoc(ps, p, r);
    FlattenSnoc(ps, p);
    Slices(input, page, q, off, after);
  }

  lemma StopsHere(input: Bytes, page: Bytes, off: nat, ps: seq<Bytes>, h: PacketHeader, r: Replay)
    requires off <= |input| && if off == 0 then ps == [] else Scanned(input, page, off, ps, h, r)
    requires (Fits(input, off) && !IsValid(input, off)) || (off == 0 && !WholePacket(input, 0))
    ensures CannotStart(input, ps)
  {
  }

  lemma ScanStart(input: Bytes, h: PacketHeader, r: Replay)
    requires r.period > 0
    ensures Scanned(input, input, 0, [], h, r)
  {
  }

  lemma Slices(input: Bytes, page: Bytes, q: Bytes, off: nat, after: nat)
    requires |input| == |page| == |q| && off <= after <= |page|
    requires page[off..] == input[off..] && q[..off] == page[..off] && q[after..] == page[after..]
    ensures page[off..after] == input[off..after] && q[after..] == input[after..]
    ensures q[..after] == page[..off] + q[off..after] && input[..after] == input[..off] + input[off..after]
  {
    assert page[off..after] == page[off..][..after - off] && input[off..after] == input[off..][..after - off];
    assert page[after..] == page[off..][after - off..] && input[after..] == input[off..][after - off..];
  }

  /** The rest of the page is read in the buffer as it is in the file. */
  lemma ReadInPage(input: Bytes, page: Bytes, off: nat, ps: seq<Bytes>, h: PacketHeader, r: Replay)
    requires Scanned(input, page, off, ps, h, r) && Fits(page, off)
    ensures IsValid(page, off) == IsValid(input, off) && OffsetNextPacket(page, off) == OffsetNextPacket(input, off)
    ensures HeaderAt(page, off, r) == HeaderAt(input, off, r)
  {
    SameRest(input, page, off);
  }

  /** All pages one after the other. */
  function Datas(blocks: seq<Block>): seq<Bytes> {
    if blocks == [] then [] else Datas(blocks[..|blocks| - 1]) + [blocks[|blocks| - 1].data]
  }

  /** After some packets of an exact file, another packet follows. */
  lemma {:induction false} TiledAfter(d: Bytes, ps: seq<Bytes>)
    requires Tiled(d, 0) && ArePackets(ps) && |Flatten(ps)| <= |d| && Flatten(ps) == d[..|Flatten(ps)|]
    ensures Tiled(d, |Flatten(ps)|)
  {
    if ps != [] {
      var init, p := ps[..|ps| - 1], ps[|ps| - 1];
      var n := |Flatten(init)|;
      assert Flatten(init) == d[..n] by { assert d[..n] == d[..|Flatten(ps)|][..n]; }
      TiledAfter(d, init);
      assert d[n..n + |p|] == p by { assert d[n..n + |p|] == d[..|Flatten(ps)|][n..]; }
      HeaderOfSlice(d, n, n + |p|);
    }
  }

  lemma SentSnoc(sent: seq<Bytes>, blocks: seq<Block>, ps: seq<Bytes>, block: Block, source: Bytes, h: PacketHeader,
                 r: Replay)
    requires ArePackets(sent) && IsChunk(ps, source, block.data, h, r)
             && Flatten(Datas(blocks)) == Flatten(ReplayAll(sent, r))
    ensures ArePackets(sent + ps) && Flatten(sent + ps) == Flatten(sent) + source
    ensures Flatten(Datas(blocks + [block])) == Flatten(ReplayAll(sent + ps, r))
    ensures ps != [] ==> HeaderAt((sent + ps)[|sent + ps| - 1], 0, r) == h
  {
    hide Flatten, Replayed, IsValid, OffsetNextPacket;
    FlattenAppend(sent, ps);
    ReplayAllAppend(sent, ps, r);
    FlattenAppend(ReplayAll(sent, r), ReplayAll(ps, r));
    assert (blocks + [block])[..|blocks|] == blocks;
    FlattenSnoc(Datas(blocks), block.data);
  }

  lemma FilePrefix(file: Bytes, start: nat, input: Bytes, n: nat)
    requires start + |input| <= |file| && input == file[start..start + |input|] && n <= |input|
    ensures file[..start + n] == file[..start] + input[..n]
  {
    assert input[..n] == file[start..start + n];
  }

  lemma NothingReplayed(r: Replay)
    ensures Flatten(Datas([])) == Flatten(ReplayAll([], r))
  {
  }

  lemma {:induction false} ReplayAllAppend(a: seq<Bytes>, b: seq<Bytes>, r: Replay)
    requires ArePackets(a) && ArePackets(b)
    ensures ArePackets(a + b) && ReplayAll(a + b, r) == ReplayAll(a, r) + ReplayAll(b, r)
  {
    if b == [] {
      assert a + b == a;
    } else {
      assert (a + b)[..|a + b| - 1] == a + b[..|b| - 1];
      ReplayAllAppend(a, b[..|b| - 1], r);
    }
  }

  /** A file of valid packets, each of which fits in a page. */
  ghost predicate IsPlayable(file: Bytes, bytesPerPage: nat) {
    Tiled(file, 0) && forall off: nat :: off < |file| && Tiled(file, off) ==>
          OffsetNextPacket(file, off) <= bytesPerPage
  }

  lemma FitsInPage(file: Bytes, start: nat, input: Bytes, at: nat)
    requires start + |input| <= |file| && input == file[start..start + |input|] && at <= |input|
    ensures Fits(input, at) ==>
              && IsValid(input, at) == IsValid(file, start + at)
              && OffsetNextPacket(input, at) == OffsetNextPacket(file, start + at)
  {
    if Fits(input, at) {
      assert forall k :: 0 <= k < |input| ==> input[k] == file[start + k];
    }
  }

  lemma OnBoundary(file: Bytes, sent: seq<Bytes>, start: nat, input: Bytes, ps: seq<Bytes>, at: nat)
    requires Tiled(file, 0) && ArePackets(sent) && start + |input| <= |file| && Flatten(sent) == file[..start]
    requires input == file[start..start + |input|] && ArePackets(ps) && at <= |input| && Flatten(ps) == input[..at]
    ensures Tiled(file, start + at)
  {
    hide IsPacket, Tiled, Flatten;
    FilePrefix(file, start, input, at);
    FlattenAppend(sent, ps);
    TiledAfter(file, sent + ps);
  }

  lemma NoPackets()
    ensures ArePackets([])
  {
  }

  lemma PacketSize(d: Bytes, off: nat)
    ensures HasPacket(d, off) ==> OffsetNextPacket(d, off) >= RDH_SIZE
  {
  }

  lemma GoesOnInFile(file: Bytes, sent: seq<Bytes>, start: nat, input: Bytes, ps: seq<Bytes>, bytesPerPage: nat)
    requires IsPlayable(file, bytesPerPage) && ArePackets(sent) && start < |file| && Flatten(sent) == file[..start]
    requires input == file[start..if start + bytesPerPage <= |file| then start + bytesPerPage else |file|]
    ensures !CannotStart(input, ps)
  {
    hide ArePackets, IsValid, OffsetNextPacket;
    var none: seq<Bytes> := [];
    assert Flatten(none) == input[..0] && ArePackets(none) by { NoPackets(); }
    OnBoundary(file, sent, start, input, none, 0);
    TiledFits(file, start);
    PacketSize(file, start);
    FitsInPage(file, start, input, 0);
    if CannotStart(input, ps) {
      var at := |Flatten(ps)|;
      OnBoundary(file, sent, start, input, ps, at);
      FitsInPage(file, start, input, at);
    }
  }

  // ----- pages are not cut sooner than needed -----

  /** Two pages in a row: the first packet of the second one is of another header, or does not fit in the first one. */
  predicate IsCut(b: Block, c: Block, bytesPerPage: nat) {
    Fits(c.data, 0) && (b.header != c.header || |b.data| + OffsetNextPacket(c.data, 0) > bytesPerPage)
  }

  predicate AreCut(blocks: seq<Block>, bytesPerPage: nat) {
    && (forall k :: 0 <= k < |blocks| ==> 0 < |blocks[k].data| <= bytesPerPage)
    && (forall k :: 0 < k < |blocks| ==> IsCut(blocks[k - 1], blocks[k], bytesPerPage))
  }

  /** What comes next in the file does not go in the last page. */
  predicate IsCutAt(file: Bytes, at: nat, blocks: seq<Block>, bytesPerPage: nat, r: Replay)
    requires r.period > 0
  {
    blocks != [] && at < |file| ==>
      Fits(file, at) && (blocks[|blocks| - 1].header != HeaderAt(file, at, r)
                         || |blocks[|blocks| - 1].data| + OffsetNextPacket(file, at) > bytesPerPage)
  }

  lemma SameHeader(file: Bytes, start: nat, input: Bytes, at: nat, r: Replay)
    requires start + |input| <= |file| && input == file[start..start + |input|] && Fits(input, at) && r.period > 0
    ensures HeaderAt(input, at, r) == HeaderAt(file, start + at, r)
    ensures OffsetNextPacket(input, at) == OffsetNextPacket(file, start + at)
  {
    assert forall k :: 0 <= k < |input| ==> input[k] == file[start + k];
  }

  lemma FirstPacket(ps: seq<Bytes>, source: Bytes, data: Bytes, h: PacketHeader, r: Replay)
    requires IsChunk(ps, source, data, h, r) && data != []
    ensures Fits(source, 0) && HeaderAt(source, 0, r) == h
    ensures Fits(data, 0) && OffsetNextPacket(data, 0) == OffsetNextPacket(source, 0)
  {
    var p, one, rest := ps[0], ps[..1], ps[1..];
    assert one == [p] && ps == one + rest && IsPacket(p);
    FlattenCons(p, rest);
    SameHeader(source, 0, p, 0, r);
    ReplayAllAppend(one, rest, r);
    assert ReplayAll(one, r) == [Replayed(p, r)] by { assert one[..0] == []; }
    FlattenCons(Replayed(p, r), ReplayAll(rest, r));
    ShiftedPacket(p, r.offset);
    SameHeader(data, 0, Replayed(p, r), 0, r);
  }

  lemma EndOfPage(file: Bytes, start: nat, input: Bytes, n: nat, h: PacketHeader, r: Replay, bytesPerPage: nat)
    requires r.period > 0 && start < |file| && n <= |input| && IsComplete(input, n, h, r)
    requires input == file[start..if start + bytesPerPage <= |file| then start + bytesPerPage else |file|]
    requires start + n < |file| && Tiled(file, start + n)
    ensures Fits(file, start + n)
            && (HeaderAt(file, start + n, r) != h || n + OffsetNextPacket(file, start + n) > bytesPerPage)
  {
    TiledFits(file, start + n);
    PacketSize(file, start + n);
    if Fits(input, n) {
      SameHeader(file, start, input, n, r);
    }
  }

  lemma PageIsCut(file: Bytes, start: nat, input: Bytes, blocks: seq<Block>, block: Block, ps: seq<Bytes>,
                  bytesPerPage: nat, r: Replay)
    requires r.period > 0 && start < |file| && 0 < |block.data| <= |input|
    requires input == file[start..if start + bytesPerPage <= |file| then start + bytesPerPage else |file|]
    requires IsChunk(ps, input[..|block.data|], block.data, block.header, r)
    requires IsComplete(input, |block.data|, block.header, r)
    requires start + |block.data| < |file| ==> Tiled(file, start + |block.data|)
    requires AreCut(blocks, bytesPerPage) && IsCutAt(file, start, blocks, bytesPerPage, r)
    ensures AreCut(blocks + [block], bytesPerPage)
    ensures IsCutAt(file, start + |block.data|, blocks + [block], bytesPerPage, r)
  {
    var n := |block.data|;
    FirstPacket(ps, input[..n], block.data, block.header, r);
    assert input[..n] == file[start..start + n];
    SameHeader(file, start, input[..n], 0, r);
    hide HeaderAt, IsChunk, Tiled, IsComplete, OffsetNextPacket;
    if start + n < |file| { EndOfPage(file, start, input, n, block.header, r, bytesPerPage); }
  }

  // ----- orbits of the loops -----

  function LastOrbit(file: Bytes): nat
    requires Fits(file, 0)
  {
    if Tiled(file, 0) then
      PacketsTile(file, 0);
      var ps := PacketsFrom(file, 0);
      HeartbeatOrbit(ps[|ps| - 1], 0)
    else 0
  }

  /**
   The offset put on orbits in the k-th replay: it comes from the timeframe of the last packet of the replay before.
   */
  function OffsetOfLoop(first: nat, period: nat, lastOrbit: nat, k: nat): (offset: nat)
    requires period > 0
    ensures offset < TWO_TO_32
  {
    if k == 0 then 0
    else Wrap(TimeframeOf(first, period, Wrap(lastOrbit + OffsetOfLoop(first, period, lastOrbit, k - 1))) * period)
  }

  /** Moving orbits by whole timeframes moves the timeframe, exactly as long as the orbit counter does not go round. */
  lemma MovedTimeframe(first: nat, period: nat, orbit: nat, n: nat)
    requires 0 < period < TWO_TO_32
    ensures var d, offset := Wrap(orbit - first), n * period;
            TimeframeOf(first, period, Wrap(orbit + Wrap(offset))) == TimeframeOf(first, period, orbit) + n <==>
                  d + offset < TWO_TO_32
  {
    hide Wrap;
    OrbitMoves(first, orbit, n * period);
    MovedDistance(Wrap(orbit - first), period, n);
  }

  lemma MovedDistance(d: nat, period: nat, n: nat)
    requires 0 < period < TWO_TO_32
    ensures Wrap(d + n * period) / period == d / period + n <==> d + n * period < TWO_TO_32
  {
    QuotientAndRemainder(d, period);
    MovedQuotient(d, period, d / period, d % period, n);
  }

  lemma OrbitMoves(first: nat, orbit: nat, offset: nat)
    ensures Wrap(Wrap(orbit + Wrap(offset)) - first) == Wrap(Wrap(orbit - first) + offset)
  {
    hide Wrap;
    WrapSum(offset, orbit);
    WrapSum(orbit + offset, 0 - first);
    WrapSum(orbit - first, offset);
  }

  lemma QuotientAndRemainder(d: nat, period: nat)
    requires period > 0
    ensures d == period * (d / period) + d % period && d % period < period
  {
  }

  lemma MovedQuotient(d: nat, period: nat, q: nat, e: nat, n: nat)
    requires 0 < period < TWO_TO_32 && e < period && d == period * q + e
    ensures Wrap(d + n * period) / period == q + n <==> d + n * period < TWO_TO_32
  {
    Distribute(period, q, n);
    WrappedQuotient(d + n * period, period, q + n, e);
  }

  lemma Distribute(a: nat, b: nat, c: nat)
    ensures a * (b + c) == a * b + c * a
  {
  }

  lemma WrappedQuotient(x: nat, period: nat, s: nat, e: nat)
    requires 0 < period < TWO_TO_32 && e < period && x == period * s + e
    ensures Wrap(x) / period == s <==> x < TWO_TO_32
  {
    if x < TWO_TO_32 {
      DivModUnique(x, period, s, e);
    } else {
      WrapBelow(x);
      QuotientBelow(Wrap(x), period, s);
    }
  }

  lemma WrapBelow(x: int)
    requires x >= TWO_TO_32
    ensures Wrap(x) <= x - TWO_TO_32
  {
  }

  lemma QuotientBelow(r: nat, period: nat, s: nat)
    requires period > 0 && r < period * s
    ensures r / period != s
  {
    assert r == period * (r / period) + r % period;
  }

  /**
   As long as the orbit counter does not go round in the loops before, the offset is so many times the length of the
   file.
   */
  lemma {:induction false} OffsetIsLoops(first: nat, period: nat, lastOrbit: nat, k: nat)
    requires 0 < period < TWO_TO_32
    requires var length := TimeframeOf(first, period, lastOrbit);
             k > 0 ==> Wrap(lastOrbit - first) + ((k - 1) * length) * period < TWO_TO_32
    ensures OffsetOfLoop(first, period, lastOrbit, k) == Wrap((k * TimeframeOf(first, period, lastOrbit)) * period)
  {
    hide Wrap;
    var length := TimeframeOf(first, period, lastOrbit);
    if k > 0 {
      Shorter(k, length, period);
      OffsetIsLoops(first, period, lastOrbit, k - 1);
      MovedTimeframe(first, period, lastOrbit, (k - 1) * length);
      assert length + (k - 1) * length == k * length;
    } else {
      assert (k * length) * period == 0;
      NoOffset();
    }
  }

  lemma NoOffset()
    ensures Wrap(0) == 0
  {
  }

  lemma Shorter(k: nat, length: nat, period: nat)
    ensures k > 1 ==> ((k - 2) * length) * period <= ((k - 1) * length) * period
  {
    if k > 1 {
      assert (k - 1) * length == (k - 2) * length + length;
      MulMonotone((k - 2) * length, (k - 1) * length, period);
    }
  }

  /**
   In the k-th replay, a packet has its timeframe of the first replay plus k times the timeframe of the last packet,
   exactly as long as its moved orbit fits in 32 bits. This is the number of timeframes of the file if no earlier packet
   has a later timeframe than the last one; otherwise replays overlap.
   */
  lemma LoopsFollowEachOther(first: nat, period: nat, lastOrbit: nat, k: nat, orbit: nat)
    requires 0 < period < TWO_TO_32
    requires var length := TimeframeOf(first, period, lastOrbit);
             k > 0 ==> Wrap(lastOrbit - first) + ((k - 1) * length) * period < TWO_TO_32
    ensures var length := TimeframeOf(first, period, lastOrbit);
            var moved := TimeframeOf(first, period, Wrap(orbit + OffsetOfLoop(first, period, lastOrbit, k)));
            moved == TimeframeOf(first, period, orbit) + k * length <==>
                  Wrap(orbit - first) + (k * length) * period < TWO_TO_32
  {
    OffsetIsLoops(first, period, lastOrbit, k);
    MovedTimeframe(first, period, orbit, k * TimeframeOf(first, period, lastOrbit));
  }

  /** The first timeframe of a replay comes right after the last timeframe of the replay before. */
  lemma NoGapBetweenLoops(first: nat, period: nat, lastOrbit: nat, k: nat)
    requires first < TWO_TO_32 && 0 < period < TWO_TO_32 && k > 0
    requires Wrap(lastOrbit - first) + ((k - 1) * TimeframeOf(first, period, lastOrbit)) * period < TWO_TO_32
    requires (k * TimeframeOf(first, period, lastOrbit)) * period < TWO_TO_32
    ensures TimeframeOf(first, period, Wrap(first + OffsetOfLoop(first, period, lastOrbit, k)))
         == TimeframeOf(first, period, Wrap(lastOrbit + OffsetOfLoop(first, period, lastOrbit, k - 1))) + 1
  {
    var length := TimeframeOf(first, period, lastOrbit);
    LoopsFollowEachOther(first, period, lastOrbit, k, first);
    DivModUnique(0, period, 0, 0);
    Shorter(k, length, period);
    LoopsFollowEachOther(first, period, lastOrbit, k - 1, lastOrbit);
    assert length + (k - 1) * length == k * length;
  }

  class ReadoutEquipmentPlayer {
    const file: Bytes
    const bytesPerPage: nat
    const autoChunkLoop: int
    const cfgUpdateOrbits: bool
    const equipment: ReadoutEquipment
    var fpOk: bool
    var fileOffset: nat
    var loopCount: nat
    var lastPacketHeader: PacketHeader
    var orbitOffset: nat
    ghost var sent: seq<Bytes>       // packets sent in this loop
    ghost var blocks: seq<Block>     // and the pages which hold them

    /** An empty file is refused. */
    constructor (file: Bytes, bytesPerPage: nat, autoChunkLoop: int, cfgUpdateOrbits: bool, equipment: ReadoutEquipment)
      requires file != [] && bytesPerPage > 0 && equipment.Valid() && !equipment.isDefinedFirstTimeframeHbOrbitBegin
      ensures Ready() && fpOk && fileOffset == 0 && loopCount == 0 && orbitOffset == 0 && sent == [] && blocks == []
      ensures this.file == file && this.bytesPerPage == bytesPerPage && this.autoChunkLoop == autoChunkLoop
      ensures this.cfgUpdateOrbits == cfgUpdateOrbits && this.equipment == equipment && lastPacketHeader == NO_PACKET
    {
      this.file, this.bytesPerPage, this.autoChunkLoop := file, bytesPerPage, autoChunkLoop;
      this.cfgUpdateOrbits, this.equipment := cfgUpdateOrbits, equipment;
      fpOk, fileOffset, loopCount, lastPacketHeader, orbitOffset := true, 0, 0, NO_PACKET, 0;
      sent, blocks := [], [];
    }

    ghost predicate Ready()
      reads this, equipment
    {
      && equipment.Valid() && orbitOffset < TWO_TO_32 && fileOffset <= |file| && bytesPerPage > 0
      && (if equipment.isDefinedFirstTimeframeHbOrbitBegin
          then Fits(file, 0) && equipment.firstTimeframeHbOrbitBegin == HeartbeatOrbit(file, 0)
          else fileOffset == 0 && orbitOffset == 0)
    }

    /** How packets are replayed in this loop: timeframes are counted from the first packet of the file. */
    ghost function Now(): Replay
      requires Fits(file, 0)
      reads this, equipment
    {
      Replay(cfgUpdateOrbits, HeartbeatOrbit(file, 0), equipment.timeframePeriodOrbits, orbitOffset)
    }

    method IncrementHbOrbit(page: array<Byte>, pageOffset: nat)
      requires Fits(page[..], pageOffset)
      modifies page
      ensures page[..] == WithOrbit(old(page[..]), pageOffset,
                                    Wrap(HeartbeatOrbit(old(page[..]), pageOffset) + orbitOffset))
    {
      var bytes := WordBytes(Wrap(HeartbeatOrbit(page[..], pageOffset) + orbitOffset));
      page[pageOffset + 20], page[pageOffset + 21] := bytes[0], bytes[1];
      page[pageOffset + 22], page[pageOffset + 23] := bytes[2], bytes[3];
    }

    method ReadHeader(d: Bytes, off: nat, blockOffset: nat) returns (h: PacketHeader)
      requires Ready() && Fits(d, off) && Fits(file, 0)
      requires !equipment.isDefinedFirstTimeframeHbOrbitBegin ==>
                 Wrap(HeartbeatOrbit(d, off) + blockOffset) == HeartbeatOrbit(file, 0)
      modifies equipment
      ensures equipment.Valid() && equipment.isDefinedFirstTimeframeHbOrbitBegin
      ensures equipment.firstTimeframeHbOrbitBegin == HeartbeatOrbit(file, 0)
      ensures h == PacketHeader(
                     TimeframeOf(HeartbeatOrbit(file, 0), equipment.timeframePeriodOrbits,
                                 Wrap(HeartbeatOrbit(d, off) + blockOffset)),
                     LinkId(d, off), CruId(d, off) * 10 + EndPointId(d, off))
    {
      var tfId := equipment.GetTimeframeFromOrbit(Wrap(HeartbeatOrbit(d, off) + blockOffset));
      h := PacketHeader(tfId, LinkId(d, off), CruId(d, off) * 10 + EndPointId(d, off));
    }

    /** Reads a header of the page, after it was updated. */
    method ScanHeader(page: array<Byte>, pageOffset: nat, blockOffset: nat) returns (h: PacketHeader)
      requires Ready() && Fits(page[..], pageOffset) && Fits(file, 0)
               && blockOffset == if cfgUpdateOrbits then 0 else orbitOffset
      requires !equipment.isDefinedFirstTimeframeHbOrbitBegin ==>
                 Wrap(HeartbeatOrbit(page[..], pageOffset) + orbitOffset) == HeartbeatOrbit(file, 0)
      modifies page, equipment
      ensures equipment.Valid() && equipment.isDefinedFirstTimeframeHbOrbitBegin
      ensures equipment.firstTimeframeHbOrbitBegin == HeartbeatOrbit(file, 0)
      ensures page[..] == Edited(old(page[..]), pageOffset, Now())
      ensures h == HeaderAt(old(page[..]), pageOffset, Now())
    {
      ghost var was, r := page[..], Now();
      EditedHeader(was, pageOffset, r);
      if cfgUpdateOrbits {
        IncrementHbOrbit(page, pageOffset);
      }
      var now := page[..];
      assert now == Edited(was, pageOffset, r);
      h := ReadHeader(now, pageOffset, blockOffset);
    }

    /** The page holds a chunk of the file, of which the packets up to an offset were scanned. */
    ghost predicate InScan(input: Bytes, page: Bytes, off: nat, ps: seq<Bytes>, h: PacketHeader)
      reads this, equipment
    {
      && Ready() && fileOffset + |input| <= |file| && input == file[fileOffset..fileOffset + |input|]
      && |page| == |input| && off <= |input|
      && (off == 0 ==> page == input && ps == [])
      && (off > 0 ==>
            && equipment.isDefinedFirstTimeframeHbOrbitBegin && Scanned(input, page, off, ps, h, Now())
            && ps != [])
    }

    /** A header may be read where the scan is. */
    lemma MayRead(input: Bytes, page: Bytes, off: nat, ps: seq<Bytes>, h: PacketHeader)
      requires InScan(input, page, off, ps, h) && Fits(input, off)
      ensures Fits(file, 0)
      ensures IsValid(page, off) == IsValid(input, off) && OffsetNextPacket(page, off) == OffsetNextPacket(input, off)
      ensures HeaderAt(page, off, Now()) == HeaderAt(input, off, Now())
      ensures !equipment.isDefinedFirstTimeframeHbOrbitBegin ==>
                Wrap(HeartbeatOrbit(page, off) + orbitOffset) == HeartbeatOrbit(file, 0)
    {
      if off > 0 {
        ReadInPage(input, page, off, ps, h, Now());
      } else if !equipment.isDefinedFirstTimeframeHbOrbitBegin {
        assert input[20..24] == file[20..24];
        SameWord(input, 20, file, 20);
      }
    }

    /** The scan goes on after a packet of the same header. */
    lemma GoesOn(input: Bytes, was: Bytes, now: Bytes, off: nat, size: nat, ps: seq<Bytes>, h: PacketHeader)
      requires Ready() && equipment.isDefinedFirstTimeframeHbOrbitBegin
      requires fileOffset + |input| <= |file| && input == file[fileOffset..fileOffset + |input|]
      requires if off == 0 then was == input && ps == [] else Scanned(input, was, off, ps, h, Now())
      requires HasPacket(input, off) && size == OffsetNextPacket(input, off) && off + size <= |input|
               && HeaderAt(input, off, Now()) == h
      requires Fits(was, off) && now == Edited(was, off, Now())
      ensures InScan(input, now, off + size, ps + [input[off..off + size]], h)
    {
      hide Edited, IsChunk, HeaderAt;
      if off == 0 { ScanStart(input, h, Now()); }
      ScanStep(input, was, off, ps, h, Now());
    }

    /** Reads the next header; if its packet is whole and of the same page, the scan may go on after it. */
    method ReadPacket(page: array<Byte>, pageOffset: nat, blockOffset: nat, ghost header: PacketHeader,
                      ghost input: Bytes, ghost ps: seq<Bytes>)
      returns (isOk: bool, size: nat, current: PacketHeader)
      requires InScan(input, page[..], pageOffset, ps, header) && Fits(input, pageOffset)
      requires blockOffset == if cfgUpdateOrbits then 0 else orbitOffset
      modifies page, equipment
      ensures Ready() && Fits(file, 0) && (isOk <==> IsValid(input, pageOffset))
      ensures page[..][..pageOffset] == old(page[..])[..pageOffset]
      ensures isOk ==>
                && equipment.isDefinedFirstTimeframeHbOrbitBegin
                && size == OffsetNextPacket(input, pageOffset) && current == HeaderAt(input, pageOffset, Now())
      ensures isOk && size != 0 && pageOffset + size <= |input| && (pageOffset > 0 ==> current == header) ==>
                InScan(input, page[..], pageOffset + size, ps + [input[pageOffset..pageOffset + size]], current)
    {
      hide Edited, Scanned;
      MayRead(input, page[..], pageOffset, ps, header);
      isOk, size, current := IsValid(page[..], pageOffset), 0, NO_PACKET;
      if isOk {
        ghost var was := page[..];
        size := OffsetNextPacket(page[..], pageOffset);
        current := ScanHeader(page, pageOffset, blockOffset);
        EditedStart(was, pageOffset, Now());
        if size != 0 && pageOffset + size <= |input| && (pageOffset > 0 ==> current == header) {
          GoesOn(input, was, page[..], pageOffset, size, ps, current);
        }
      }
    }

    /** Scans the page to find its end: the first packet which is not whole or not of the same header. */
    method ScanPage(page: array<Byte>, blockOffset: nat, ghost input: Bytes)
      returns (pageOffset: nat, isOk: bool, header: PacketHeader, ghost ps: seq<Bytes>)
      requires page[..] == input && input != [] && InScan(input, input, 0, [], lastPacketHeader)
      requires blockOffset == if cfgUpdateOrbits then 0 else orbitOffset
      modifies page, equipment, this`lastPacketHeader
      ensures Ready() && pageOffset <= |input| == page.Length
      ensures isOk <==> !(Fits(input, pageOffset) && !IsValid(input, pageOffset))
      ensures isOk && pageOffset > 0 ==>
                && equipment.isDefinedFirstTimeframeHbOrbitBegin && Fits(file, 0) && ps != []
                && IsChunk(ps, input[..pageOffset], page[..][..pageOffset], header, Now())
                && IsComplete(input, pageOffset, header, Now())
      ensures !isOk || pageOffset == 0 ==> CannotStart(input, ps)
      ensures pageOffset == |input| ==> lastPacketHeader == header
    {
      hide IsChunk, HeaderAt, CannotStart;
      pageOffset, isOk, header, ps := 0, true, lastPacketHeader, [];
      while pageOffset < page.Length
        invariant isOk && pageOffset <= |input| == page.Length
        invariant InScan(input, page[..], pageOffset, ps, header) && lastPacketHeader == header
        decreases page.Length - pageOffset
      {
        if pageOffset + RDH_SIZE > page.Length {
          if pageOffset == 0 { StopsHere(input, page[..], 0, ps, header, Replay(true, 0, 1, 0)); }
          break;
        }
        ghost var was := page[..];
        var size, current;
        isOk, size, current := ReadPacket(page, pageOffset, blockOffset, header, input, ps);
        var changePage := pageOffset != 0 && current != lastPacketHeader;
        lastPacketHeader := current;
        if !isOk || changePage || size == 0 || pageOffset + size > page.Length {
          if !isOk || pageOffset == 0 { StopsHere(input, was, pageOffset, ps, header, Now()); }
          break;
        }
        ps := ps + [input[pageOffset..pageOffset + size]];
        pageOffset, header := pageOffset + size, current;
      }
    }

    /** The pages of this loop hold the packets of the file up to the offset, replayed. */
    ghost predicate Valid()
      reads this, equipment
    {
      && Ready() && ArePackets(sent) && Flatten(sent) == file[..fileOffset]
      && (sent != [] ==> Fits(file, 0) && Flatten(Datas(blocks)) == Flatten(ReplayAll(sent, Now())))
      && (sent == [] ==> blocks == [])
      && (fileOffset == |file| ==> sent != [] && lastPacketHeader == HeaderAt(sent[|sent| - 1], 0, Now()))
    }

    predicate IsLastLoop()
      reads this
    {
      autoChunkLoop == 0 || loopCount + 1 + autoChunkLoop == 0
    }

    /** At the end of the file: stops, or goes back to the start with orbits which follow the last timeframe. */
    method Rewind()
      requires Valid() && fileOffset == |file|
      modifies this
      ensures Valid()
      ensures old(IsLastLoop()) ==>
              !fpOk && fileOffset == old(fileOffset) && loopCount == old(loopCount)
              && orbitOffset == old(orbitOffset)
      ensures old(IsLastLoop()) ==> sent == old(sent) && blocks == old(blocks)
      ensures !old(IsLastLoop()) ==>
                && fpOk == old(fpOk) && fileOffset == 0 && loopCount == old(loopCount) + 1 && sent == [] && blocks == []
                && orbitOffset == Wrap(old(lastPacketHeader).timeframeId * equipment.timeframePeriodOrbits)
      ensures lastPacketHeader == old(lastPacketHeader)
    {
      if IsLastLoop() {
        fpOk := false;
      } else {
        assert equipment.isDefinedFirstTimeframeHbOrbitBegin;
        loopCount := loopCount + 1;
        fileOffset := 0;
        orbitOffset := Wrap(lastPacketHeader.timeframeId * equipment.timeframePeriodOrbits);
        sent, blocks := [], [];
      }
    }

    /** The chunk of the file which is read in a page. */
    ghost function Input(): Bytes
      requires fileOffset <= |file|
      reads this
    {
      file[fileOffset..if fileOffset + bytesPerPage <= |file| then fileOffset + bytesPerPage else |file|]
    }

    /**
     The block is the longest succession of packets of one header which fits in a page, and goes on after the previous
     block.
     */
    ghost predicate IsNextBlock(block: Block, ps: seq<Bytes>, input: Bytes)
      reads this, equipment
    {
      && equipment.Valid() && Fits(file, 0) && 0 < |block.data| <= |input|
      && IsChunk(ps, input[..|block.data|], block.data, block.header, Now())
      && IsComplete(input, |block.data|, block.header, Now())
      && block.orbitOffset == if cfgUpdateOrbits then 0 else orbitOffset
    }

    method AddBlock(block: Block, ghost ps: seq<Bytes>, ghost input: Bytes)
      requires Valid() && fileOffset < |file| && input == Input() && equipment.isDefinedFirstTimeframeHbOrbitBegin
      requires IsNextBlock(block, ps, input) && ps != []
               && (|block.data| == |input| ==> lastPacketHeader == block.header)
      modifies this`fileOffset, this`sent, this`blocks
      ensures Valid() && fileOffset == old(fileOffset) + |block.data| && sent == old(sent) + ps
              && blocks == old(blocks) + [block]
    {
      hide IsChunk, HeaderAt, IsComplete, ReplayAll, Datas, Flatten, ArePackets;
      NothingReplayed(Now());
      SentSnoc(sent, blocks, ps, block, input[..|block.data|], block.header, Now());
      FilePrefix(file, fileOffset, input, |block.data|);
      fileOffset := fileOffset + |block.data|;
      sent, blocks := sent + ps, blocks + [block];
    }

    method FillPage() returns (block: Option<Block>, ghost ps: seq<Bytes>)
      requires Valid() && fpOk && fileOffset < |file|
      modifies this, equipment
      ensures block.Some? ==> Valid() && fpOk && IsNextBlock(block.value, ps, old(Input()))
      ensures block.Some? ==>
              fileOffset == old(fileOffset) + |block.value.data| && sent == old(sent) + ps
              && blocks == old(blocks) + [block.value]
      ensures block.None? ==> !fpOk && CannotStart(old(Input()), ps)
      ensures loopCount == old(loopCount) && orbitOffset == old(orbitOffset)
    {
      hide IsChunk, HeaderAt, IsComplete, CannotStart, ReplayAll, Datas, Flatten, ArePackets;
      ghost var input := Input();
      var start := fileOffset;
      var nBytes := if start + bytesPerPage <= |file| then bytesPerPage else |file| - start;
      var page := new Byte[nBytes](i requires 0 <= i < nBytes => file[start + i]);
      assert page[..] == input;
      var blockOffset := if cfgUpdateOrbits then 0 else orbitOffset;
      var pageOffset, isOk, header;
      pageOffset, isOk, header, ps := ScanPage(page, blockOffset, input);
      if !isOk || pageOffset == 0 {
        fpOk := false;
        return None, ps;
      }
      var b := Block(page[..][..pageOffset], header, blockOffset);
      AddBlock(b, ps, input);
      return Some(b), ps;
    }

    /** What a call can find: nothing to do any more, the end of the file, or data to send. */
    method GetNextBlock() returns (block: Option<Block>, ghost ps: seq<Bytes>)
      requires Valid()
      modifies this, equipment
      ensures !old(fpOk) ==> block.None? && !fpOk && Valid()
      ensures old(fpOk) && old(fileOffset) == |file| ==> block.None? && Valid() && fpOk == !old(IsLastLoop())
      ensures old(fpOk) && old(fileOffset) == |file| && !old(IsLastLoop()) ==>
                && fileOffset == 0 && loopCount == old(loopCount) + 1
                && orbitOffset == Wrap(old(lastPacketHeader).timeframeId * equipment.timeframePeriodOrbits)
      ensures old(fpOk) && old(fileOffset) < |file| ==>
                && (block.Some? ==>
                    Valid() && fpOk && IsNextBlock(block.value, ps, old(Input()))
                    && fileOffset == old(fileOffset) + |block.value.data|)
                && (block.Some? ==> sent == old(sent) + ps && blocks == old(blocks) + [block.value])
                && (block.None? ==> !fpOk && CannotStart(old(Input()), ps))
                && loopCount == old(loopCount) && orbitOffset == old(orbitOffset)
    {
      ps := [];
      if !fpOk {
        return None, ps;
      }
      if fileOffset == |file| {
        Rewind();
        return None, ps;
      }
      block, ps := FillPage();
    }

    /** One page of a replay. */
    method ReplayPage()
      requires Valid() && IsPlayable(file, bytesPerPage) && fpOk && fileOffset < |file| && Fits(file, 0)
      requires AreCut(blocks, bytesPerPage) && IsCutAt(file, fileOffset, blocks, bytesPerPage, Now())
      modifies this, equipment
      ensures Valid() && fpOk && old(fileOffset) < fileOffset
      ensures loopCount == old(loopCount) && orbitOffset == old(orbitOffset)
      ensures AreCut(blocks, bytesPerPage) && IsCutAt(file, fileOffset, blocks, bytesPerPage, Now())
    {
      hide AreCut, IsCutAt, IsChunk, IsComplete, HeaderAt, Datas, ReplayAll, Flatten, ArePackets, CannotStart;
      ghost var start, input, was := fileOffset, Input(), blocks;
      NeverRefused();
      var block, ps := GetNextBlock();
      TiledAfter(file, sent);
      PageIsCut(file, start, input, was, block.value, ps, bytesPerPage, Now());
    }

    /**
     One replay of a file of packets which fit in pages: it ends, and the pages hold the whole file once, replayed.
     */
    method ReplayOnce()
      requires Valid() && IsPlayable(file, bytesPerPage) && fpOk && fileOffset == 0
      modifies this, equipment
      ensures Valid() && fpOk && fileOffset == |file| && sent == PacketsFrom(file, 0)
      ensures Flatten(Datas(blocks)) == Flatten(ReplayAll(PacketsFrom(file, 0), Now()))
      ensures AreCut(blocks, bytesPerPage)
      ensures loopCount == old(loopCount) && orbitOffset == old(orbitOffset)
    {
      hide AreCut, IsCutAt, HeaderAt, Datas, ReplayAll;
      NoPagesYet(Now());
      while fileOffset < |file|
        invariant Valid() && fpOk && loopCount == old(loopCount) && orbitOffset == old(orbitOffset)
        invariant AreCut(blocks, bytesPerPage) && Fits(file, 0)
        invariant IsCutAt(file, fileOffset, blocks, bytesPerPage, Now())
        decreases |file| - fileOffset
      {
        ReplayPage();
      }
      PacketsOfFlatten([], sent, file);
    }

    lemma NoPagesYet(r: Replay)
      requires Valid() && fileOffset == 0 && r.period > 0
      ensures blocks == [] && AreCut(blocks, bytesPerPage) && IsCutAt(file, 0, blocks, bytesPerPage, r)
    {
    }

    /** A file of packets which fit in pages is never refused. */
    lemma NeverRefused()
      requires Valid() && IsPlayable(file, bytesPerPage) && fileOffset < |file|
      ensures forall ps :: !CannotStart(Input(), ps)
    {
      hide ReplayAll, Datas, Now, HeaderAt;
      forall ps
        ensures !CannotStart(Input(), ps)
      {
        if CannotStart(Input(), ps) { GoesOnInFile(file, sent, fileOffset, Input(), ps, bytesPerPage); }
      }
    }

    /** The offset is the one of this loop. */
    ghost predicate InLoop()
      requires Fits(file, 0) && equipment.Valid()
      reads this, equipment
    {
      orbitOffset == OffsetOfLoop(HeartbeatOrbit(file, 0), equipment.timeframePeriodOrbits, LastOrbit(file), loopCount)
    }

    /** At the end of the file: the offset of the next loop, or the end of the replay. */
    method EndLoop()
      requires Valid() && fpOk && Fits(file, 0) && fileOffset == |file| && Tiled(file, 0)
               && sent == PacketsFrom(file, 0) && InLoop()
      modifies this, equipment
      ensures Valid() && InLoop()
      ensures if old(IsLastLoop()) then !fpOk && loopCount == old(loopCount)
              else fpOk && fileOffset == 0 && loopCount == old(loopCount) + 1
      ensures !fpOk ==> sent == old(sent) && blocks == old(blocks) && Now() == old(Now())
    {
      hide ReplayAll, Datas, Flatten, ArePackets;
      Rewind();
    }

    /** The number of replays configured, out of the first n ones: a file may be replayed without end. */
    function Replays(n: nat): nat {
      if autoChunkLoop > 0 then n else Min(n, if autoChunkLoop == 0 then 1 else -autoChunkLoop)
    }

    /** The blocks hold the file once, with the orbits of the k-th replay. */
    ghost predicate IsReplay(blocks: seq<Block>, k: nat)
      requires Fits(file, 0) && Tiled(file, 0) && equipment.Valid()
      reads equipment
    {
      PacketsTile(file, 0);
      var period := equipment.timeframePeriodOrbits;
      var offset := OffsetOfLoop(HeartbeatOrbit(file, 0), period, LastOrbit(file), k);
      Flatten(Datas(blocks)) == Flatten(ReplayAll(PacketsFrom(file, 0),
                                                  Replay(cfgUpdateOrbits, HeartbeatOrbit(file, 0), period, offset)))
    }

    /** The first n replays in loops, or as many as configured, each with the orbits which follow the previous one. */
    method ReplayFile(n: nat) returns (ghost replays: seq<seq<Block>>)
      requires Valid() && IsPlayable(file, bytesPerPage) && fpOk && fileOffset == 0 && loopCount == 0
               && orbitOffset == 0
      requires Fits(file, 0)
      modifies this, equipment
      ensures Valid() && |replays| == Replays(n) && forall k :: 0 <= k < |replays| ==> IsReplay(replays[k], k)
      ensures fpOk <==> autoChunkLoop > 0 || n < -autoChunkLoop || n == 0
    {
      hide ReplayAll, Datas, Flatten, ArePackets, HeaderAt, LastOrbit, PacketsFrom, OffsetOfLoop;
      replays := [];
      InFirstLoop();
      var i := 0;
      while fpOk && i < n
        invariant Valid() && InLoop() && (fpOk ==> fileOffset == 0 && loopCount == i)
        invariant |replays| == i <= n && forall k :: 0 <= k < i ==> IsReplay(replays[k], k)
        invariant if fpOk then i == 0 || autoChunkLoop > 0 || i < -autoChunkLoop
                  else i > 0 && (i == -autoChunkLoop || (i == 1 && autoChunkLoop == 0))
      {
        ReplayOnce();
        replays := replays + [blocks];
        EndLoop();
        i := i + 1;
      }
    }

    lemma InFirstLoop()
      requires Fits(file, 0) && equipment.Valid() && loopCount == 0 && orbitOffset == 0
      ensures InLoop()
    {
    }
  }
}
