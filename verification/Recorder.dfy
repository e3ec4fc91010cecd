/**
 ConsumerFileRecorder with dropEmptyHBFrames: packets are written one by one, except the pairs of packets which open and
 close an empty heartbeat frame. A packet which may open one is kept aside until the next packet of the link is seen.
 */
module Recorder {
  import opened Rdh
  import opened Sequences
  import opened Packets
  import opened Options

  /** Two words have a bit in common. */
  predicate Overlaps(a: nat, b: nat) {
    a != 0 && b != 0 && ((a % 2 == 1 && b % 2 == 1) || Overlaps(a / 2, b / 2))
  }

  predicate IsEmptyPacket(p: Bytes, mask: nat) {
    Fits(p, 0) && HeaderSize(p, 0) == MemorySize(p, 0) && !Overlaps(TriggerType(p, 0), mask)
  }

  predicate IsEmptyHBstart(p: Bytes, mask: nat) {
    IsEmptyPacket(p, mask) && PagesCounter(p, 0) == 0
  }

  predicate IsEmptyHBstop(p: Bytes, mask: nat) {
    IsEmptyPacket(p, mask) && StopBit(p, 0) != 0
  }

  /** What should be recorded: the packets without the pairs of an empty start and an empty stop in a row. */
  function Filtered(ps: seq<Bytes>, mask: nat): seq<Bytes> {
    if ps == [] then []
    else if |ps| >= 2 && IsEmptyHBstart(ps[0], mask) && IsEmptyHBstop(ps[1], mask) then Filtered(ps[2..], mask)
    else [ps[0]] + Filtered(ps[1..], mask)
  }

  // ----- what is dropped -----

  ghost predicate HasBit(word: nat, n: nat) {
    if n == 0 then word % 2 == 1 else HasBit(word / 2, n - 1)
  }

  lemma {:induction false} NoBits(n: nat)
    ensures !HasBit(0, n)
  {
    if n > 0 {
      NoBits(n - 1);
    }
  }

  lemma {:induction false} OverlapsHasBit(a: nat, b: nat) returns (n: nat)
    requires Overlaps(a, b)
    ensures HasBit(a, n) && HasBit(b, n)
  {
    if a % 2 == 1 && b % 2 == 1 {
      n := 0;
    } else {
      n := OverlapsHasBit(a / 2, b / 2);
      n := n + 1;
    }
  }

  lemma {:induction false} BitOverlaps(a: nat, b: nat, n: nat)
    requires HasBit(a, n) && HasBit(b, n)
    ensures Overlaps(a, b)
  {
    NoBits(n);
    if n > 0 {
      BitOverlaps(a / 2, b / 2, n - 1);
    }
  }

  /** The packet has a payload, or one of its trigger bits is in the mask. */
  ghost predicate IsEssential(p: Bytes, mask: nat) {
    Fits(p, 0) && (MemorySize(p, 0) != HeaderSize(p, 0)
                   || exists n: nat :: HasBit(TriggerType(p, 0), n) && HasBit(mask, n))
  }

  lemma EssentialIsKept(p: Bytes, mask: nat)
    requires Fits(p, 0)
    ensures IsEmptyPacket(p, mask) <==> !IsEssential(p, mask)
  {
    if Overlaps(TriggerType(p, 0), mask) {
      var n := OverlapsHasBit(TriggerType(p, 0), mask);
    } else if n: nat :| HasBit(TriggerType(p, 0), n) && HasBit(mask, n) {
      BitOverlaps(TriggerType(p, 0), mask, n);
    }
  }

  ghost function Essential(ps: seq<Bytes>, mask: nat): seq<Bytes> {
    if ps == [] then []
    else (if IsEssential(ps[0], mask) then [ps[0]] else []) + Essential(ps[1..], mask)
  }

  /** Packets with a payload, and packets with a trigger of the mask, are all recorded and keep their order. */
  lemma {:induction false} NothingEssentialIsDropped(ps: seq<Bytes>, mask: nat)
    ensures Essential(Filtered(ps, mask), mask) == Essential(ps, mask)
  {
    if ps == [] {
    } else if |ps| >= 2 && IsEmptyHBstart(ps[0], mask) && IsEmptyHBstop(ps[1], mask) {
      EssentialIsKept(ps[0], mask);
      EssentialIsKept(ps[1], mask);
      assert ps[1..][0] == ps[1] && ps[1..][1..] == ps[2..];
      NothingEssentialIsDropped(ps[2..], mask);
    } else {
      NothingEssentialIsDropped(ps[1..], mask);
      assert ([ps[0]] + Filtered(ps[1..], mask))[1..] == Filtered(ps[1..], mask);
    }
  }

  /** The packets open and close an empty heartbeat frame. */
  ghost predicate IsEmptyFrame(start: Bytes, stop: Bytes, mask: nat) {
    && Fits(start, 0) && Fits(stop, 0) && !IsEssential(start, mask) && !IsEssential(stop, mask)
    && PagesCounter(start, 0) == 0 && StopBit(stop, 0) != 0
  }

  ghost predicate HasNoEmptyFrame(ps: seq<Bytes>, mask: nat) {
    forall k :: 0 < k < |ps| ==> !IsEmptyFrame(ps[k - 1], ps[k], mask)
  }

  lemma EmptyFrameIsPair(start: Bytes, stop: Bytes, mask: nat)
    ensures IsEmptyFrame(start, stop, mask) <==> IsEmptyHBstart(start, mask) && IsEmptyHBstop(stop, mask)
  {
    if Fits(start, 0) { EssentialIsKept(start, mask); }
    if Fits(stop, 0) { EssentialIsKept(stop, mask); }
  }

  lemma NoEmptyFrameBehind(ps: seq<Bytes>, mask: nat)
    requires ps != [] && HasNoEmptyFrame(ps, mask)
    ensures HasNoEmptyFrame(ps[1..], mask)
    ensures |ps| >= 2 ==> !(IsEmptyHBstart(ps[0], mask) && IsEmptyHBstop(ps[1], mask))
  {
    forall k | 0 < k < |ps[1..]|
      ensures !IsEmptyFrame(ps[1..][k - 1], ps[1..][k], mask)
    {
      assert ps[1..][k] == ps[k + 1];
    }
    if |ps| >= 2 { EmptyFrameIsPair(ps[0], ps[1], mask); }
  }

  /** Up to the first empty frame, everything is recorded; the frame is not, and what follows it is on its own. */
  lemma {:induction false} FirstEmptyFrame(ps: seq<Bytes>, start: Bytes, stop: Bytes, rest: seq<Bytes>, mask: nat)
    requires HasNoEmptyFrame(ps + [start], mask) && IsEmptyFrame(start, stop, mask)
    ensures Filtered(ps + [start, stop] + rest, mask) == ps + Filtered(rest, mask)
    decreases |ps|
  {
    var all := ps + [start, stop] + rest;
    if ps == [] {
      assert all == [start, stop] + rest;
      EmptyFrameIsPair(start, stop, mask);
      assert all[2..] == rest;
    } else {
      NoEmptyFrameBehind(ps + [start], mask);
      assert (ps + [start])[1..] == ps[1..] + [start];
      FirstEmptyFrame(ps[1..], start, stop, rest, mask);
      assert all[1..] == ps[1..] + [start, stop] + rest && all[1] == (ps + [start])[1];
      assert [ps[0]] + (ps[1..] + Filtered(rest, mask)) == ps + Filtered(rest, mask);
    }
  }

  /** Without an empty frame, everything is recorded. */
  lemma {:induction false} NothingIsDropped(ps: seq<Bytes>, mask: nat)
    requires HasNoEmptyFrame(ps, mask)
    ensures Filtered(ps, mask) == ps
  {
    if ps != [] {
      NoEmptyFrameBehind(ps, mask);
      NothingIsDropped(ps[1..], mask);
    }
  }

  // ----- one packet at a time -----

  /** What was written for a link, and the packet kept aside. */
  datatype LinkState = LinkState(out: seq<Bytes>, held: Option<Bytes>)

  function Items(held: Option<Bytes>): seq<Bytes> {
    if held.Some? then [held.value] else []
  }

  function Next(s: LinkState, p: Bytes, mask: nat): LinkState {
    if s.held.Some? && IsEmptyHBstop(p, mask) then LinkState(s.out, None)
    else
      var out := s.out + Items(s.held);
      if IsEmptyHBstart(p, mask) then LinkState(out, Some(p)) else LinkState(out + [p], None)
  }

  function After(s: LinkState, ps: seq<Bytes>, mask: nat): LinkState
    decreases |ps|
  {
    if ps == [] then s else After(Next(s, ps[0], mask), ps[1..], mask)
  }

  predicate HoldsStart(s: LinkState, mask: nat) {
    s.held.Some? ==> IsEmptyHBstart(s.held.value, mask)
  }

  lemma FilterStep(s: LinkState, p: Bytes, rest: seq<Bytes>, mask: nat)
    requires HoldsStart(s, mask)
    ensures HoldsStart(Next(s, p, mask), mask)
    ensures var s' := Next(s, p, mask);
            s.out + Filtered(Items(s.held) + ([p] + rest), mask) == s'.out + Filtered(Items(s'.held) + rest, mask)
  {
    var all := Items(s.held) + ([p] + rest);
    assert Items(None) + rest == rest && ([p] + rest)[1..] == rest;
    if s.held.Some? {
      assert all[1..] == [p] + rest && all[2..] == rest;
    } else {
      assert all == [p] + rest;
    }
  }

  /** The look-ahead of one packet computes the filter. */
  lemma {:induction false} AfterIsFiltered(s: LinkState, ps: seq<Bytes>, mask: nat)
    requires HoldsStart(s, mask)
    ensures var s' := After(s, ps, mask);
            s'.out + Items(s'.held) == s.out + Filtered(Items(s.held) + ps, mask)
    decreases |ps|
  {
    if ps == [] {
      assert Items(s.held) + ps == Items(s.held);
    } else {
      FilterStep(s, ps[0], ps[1..], mask);
      assert [ps[0]] + ps[1..] == ps;
      AfterIsFiltered(Next(s, ps[0], mask), ps[1..], mask);
    }
  }

  lemma AfterCons(s: LinkState, p: Bytes, rest: seq<Bytes>, mask: nat)
    ensures After(s, [p] + rest, mask) == After(Next(s, p, mask), rest, mask)
  {
    assert ([p] + rest)[1..] == rest;
  }

  lemma {:induction false} AfterAppend(s: LinkState, a: seq<Bytes>, b: seq<Bytes>, mask: nat)
    ensures After(s, a + b, mask) == After(After(s, a, mask), b, mask)
    decreases |a|
  {
    if a == [] {
      assert a + b == b;
    } else {
      assert (a + b)[1..] == a[1..] + b;
      AfterAppend(Next(s, a[0], mask), a[1..], b, mask);
    }
  }

  // ----- a page -----

  /** Every header up to the end of the page, or up to the first invalid one, is in the page, and so is its packet. */
  predicate Scannable(d: Bytes, off: nat)
    decreases |d| - off
  {
    off == |d| ||
    (Fits(d, off) &&
     (IsValid(d, off) ==>
        && OffsetNextPacket(d, off) != 0 && off + OffsetNextPacket(d, off) <= |d|
        && Scannable(d, off + OffsetNextPacket(d, off))))
  }

  /** The packets before the first invalid header. */
  function PacketsUpTo(d: Bytes, off: nat): seq<Bytes>
    requires Scannable(d, off)
    decreases |d| - off
  {
    if off == |d| || !IsValid(d, off) then []
    else
      var after := off + OffsetNextPacket(d, off);
      [d[off..after]] + PacketsUpTo(d, after)
  }

  predicate EndsInvalid(d: Bytes, off: nat)
    requires Scannable(d, off)
    decreases |d| - off
  {
    off != |d| && (!IsValid(d, off) || EndsInvalid(d, off + OffsetNextPacket(d, off)))
  }

  lemma {:induction false} TiledIsScannable(d: Bytes, off: nat)
    requires Tiled(d, off)
    ensures Scannable(d, off) && PacketsUpTo(d, off) == PacketsFrom(d, off) && !EndsInvalid(d, off)
    decreases |d| - off
  {
    if off < |d| {
      TiledFits(d, off);
      TiledIsScannable(d, off + OffsetNextPacket(d, off));
    }
  }

  /** The packets of a page are its bytes up to `end`, which is the end of the page or the first invalid header. */
  lemma {:induction false} PacketsEnd(d: Bytes, off: nat) returns (end: nat)
    requires Scannable(d, off)
    ensures off <= end <= |d| && Flatten(PacketsUpTo(d, off)) == d[off..end]
    ensures end == |d| || (Fits(d, end) && !IsValid(d, end))
    ensures EndsInvalid(d, off) <==> end < |d|
    ensures ArePackets(PacketsUpTo(d, off))
    decreases |d| - off
  {
    end := off;
    if off < |d| && IsValid(d, off) {
      var after := off + OffsetNextPacket(d, off);
      end := PacketsEnd(d, after);
      assert d[off..after] + d[after..end] == d[off..end];
      PacketOfSlice(d, off);
      FlattenCons(d[off..after], PacketsUpTo(d, after));
    }
  }

  /** A packet kept aside is either a reference in the page being scanned, or a copy. */
  datatype Address = PageRef(offset: nat) | PrivateCopy(bytes: Bytes)

  datatype Packet = Packet(isEmptyHBStart: bool, address: Option<Address>, size: nat)

  const CLEARED: Packet := Packet(false, None, 0)

  /** A packet written to the file of a link. */
  datatype Write = Write(linkId: nat, bytes: Bytes)

  datatype Page = Page(linkId: nat, data: Bytes)

  predicate PacketOk(p: Packet, d: Bytes, mask: nat) {
    && p.isEmptyHBStart == p.address.Some?
    && (p.address.Some? ==>
          && (if p.address.value.PageRef? then p.address.value.offset + p.size <= |d|
              else |p.address.value.bytes| == p.size)
          && IsEmptyHBstart(Content(p, d).value, mask))
  }

  function Content(p: Packet, d: Bytes): Option<Bytes>
    requires p.address.Some? && p.address.value.PageRef? ==> p.address.value.offset + p.size <= |d|
  {
    if p.address.None? then None
    else if p.address.value.PageRef? then Some(d[p.address.value.offset..p.address.value.offset + p.size])
    else Some(p.address.value.bytes)
  }

  lemma {:induction false} HeldIsLast(s: LinkState, ps: seq<Bytes>, mask: nat)
    requires HoldsStart(s, mask)
    ensures var held, all := After(s, ps, mask).held, Items(s.held) + ps;
            && (held.Some? ==> all != [] && held == Some(all[|all| - 1]) && IsEmptyHBstart(held.value, mask))
            && (held.None? && all != [] && IsEmptyHBstart(all[|all| - 1], mask) ==> IsEmptyHBstop(all[|all| - 1], mask))
    decreases |ps|
  {
    if ps != [] {
      var next := Next(s, ps[0], mask);
      HeldIsLast(next, ps[1..], mask);
      if |ps| > 1 { assert (Items(next.held) + ps[1..])[|Items(next.held) + ps[1..]| - 1] == ps[|ps| - 1]; }
    }
  }

  function WrittenFor(linkId: nat, writes: seq<Write>): seq<Bytes> {
    if writes == [] then []
    else
      var w := writes[|writes| - 1];
      WrittenFor(linkId, writes[..|writes| - 1]) + if w.linkId == linkId then [w.bytes] else []
  }

  /** The effect of a page on its link; an invalid header makes the packet kept aside go away. */
  function AfterPage(s: LinkState, d: Bytes, mask: nat): LinkState
    requires Scannable(d, 0)
  {
    var s' := After(s, PacketsUpTo(d, 0), mask);
    if EndsInvalid(d, 0) then s'.(held := None) else s'
  }

  /**
   A page with an invalid header is recorded as far as the header, except for the packet kept aside there, which is
   lost: at most the last packet, and surely so when it opens an empty frame and does not close one.
   */
  lemma InvalidHeaderLosesOne(s: LinkState, d: Bytes, mask: nat) returns (lost: seq<Bytes>)
    requires HoldsStart(s, mask) && Scannable(d, 0) && EndsInvalid(d, 0)
    ensures AfterPage(s, d, mask).held.None?
    ensures var all := Items(s.held) + PacketsUpTo(d, 0);
            && AfterPage(s, d, mask).out + lost == s.out + Filtered(all, mask)
            && (lost != [] ==> all != [] && lost == [all[|all| - 1]] && IsEmptyHBstart(lost[0], mask))
            && (all != [] && IsEmptyHBstart(all[|all| - 1], mask) && !IsEmptyHBstop(all[|all| - 1], mask) ==>
                lost != [])
  {
    var ps := PacketsUpTo(d, 0);
    lost := Items(After(s, ps, mask).held);
    AfterIsFiltered(s, ps, mask);
    HeldIsLast(s, ps, mask);
  }

  predicate AreScannable(history: seq<Page>) {
    forall k :: 0 <= k < |history| ==> Scannable(history[k].data, 0)
  }

  function AfterPages(linkId: nat, history: seq<Page>, mask: nat): LinkState
    requires AreScannable(history)
  {
    if history == [] then LinkState([], None)
    else
      var s := AfterPages(linkId, history[..|history| - 1], mask);
      var page := history[|history| - 1];
      if page.linkId == linkId then AfterPage(s, page.data, mask) else s
  }

  lemma AfterOnePage(l: nat, history: seq<Page>, page: Page, mask: nat)
    requires AreScannable(history) && Scannable(page.data, 0)
    ensures AreScannable(history + [page])
    ensures var s := AfterPages(l, history, mask);
            AfterPages(l, history + [page], mask) == if page.linkId == l then AfterPage(s, page.data, mask) else s
  {
    assert (history + [page])[..|history|] == history;
  }

  function HeldLinks(packets: map<nat, Packet>): set<nat> {
    set l | l in packets && packets[l].isEmptyHBStart
  }

  lemma HeldUpdate(packets: map<nat, Packet>, l: nat, p: Packet)
    ensures |HeldLinks(packets[l := p])| + (if l in packets && packets[l].isEmptyHBStart then 1 else 0)
         == |HeldLinks(packets)| + if p.isEmptyHBStart then 1 else 0
  {
    var rest := HeldLinks(packets) - {l};
    assert HeldLinks(packets) == if l in packets && packets[l].isEmptyHBStart then rest + {l} else rest;
    assert HeldLinks(packets[l := p]) == if p.isEmptyHBStart then rest + {l} else rest;
  }

  lemma NextPacket(d: Bytes, off: nat)
    requires Scannable(d, off) && off < |d| && IsValid(d, off)
    ensures var after := off + OffsetNextPacket(d, off);
            && off < after <= |d| && Scannable(d, after) && EndsInvalid(d, off) == EndsInvalid(d, after)
            && PacketsUpTo(d, off) == [d[off..after]] + PacketsUpTo(d, after)
  {
  }

  /** What is left of a page, seen from the state of its link. */
  ghost predicate Remains(d: Bytes, off: nat, s: LinkState, end: LinkState, mask: nat) {
    && off <= |d| && Scannable(d, off)
    && end == After(s, PacketsUpTo(d, off), mask)
  }

  lemma RemainsNext(d: Bytes, off: nat, s: LinkState, end: LinkState, mask: nat)
    requires off < |d| && Remains(d, off, s, end, mask) && IsValid(d, off)
    ensures var after := off + OffsetNextPacket(d, off);
            && off < after <= |d| && Remains(d, after, Next(s, d[off..after], mask), end, mask)
            && EndsInvalid(d, off) == EndsInvalid(d, after) && |PacketsUpTo(d, off)| == 1 + |PacketsUpTo(d, after)|
  {
    var after := off + OffsetNextPacket(d, off);
    NextPacket(d, off);
    AfterCons(s, d[off..after], PacketsUpTo(d, after), mask);
  }

  lemma RemainsNothing(d: Bytes, off: nat, s: LinkState, end: LinkState, mask: nat)
    requires Remains(d, off, s, end, mask) && (off == |d| || !IsValid(d, off))
    ensures end == s && PacketsUpTo(d, off) == [] && (EndsInvalid(d, off) <==> off < |d|)
  {
  }

  function Of(linkId: nat, outs: map<nat, seq<Bytes>>): seq<Bytes> {
    if linkId in outs then outs[linkId] else []
  }

  ghost predicate OnlyLink(linkId: nat, was: map<nat, seq<Bytes>>, now: map<nat, seq<Bytes>>) {
    forall l {:trigger Of(l, now)} :: l != linkId ==> Of(l, now) == Of(l, was)
  }

  class ConsumerFileRecorder {
    const mask: nat
    var perLinkPreviousPacket: map<nat, Packet>
    var file: seq<Write>
    var packetsRecorded: nat
    var emptyPacketsDropped: nat
    var invalidRDH: nat
    ghost var history: seq<Page>   // every page received
    ghost var outs: map<nat, seq<Bytes>>   // the packets written, link by link
    ghost var seen: nat            // packets in the pages
    ghost var lost: nat            // packets kept aside when an invalid header was found

    constructor (mask: nat)
      ensures Valid() && history == [] && this.mask == mask
    {
      this.mask := mask;
      perLinkPreviousPacket, file, packetsRecorded, emptyPacketsDropped, invalidRDH := map[], [], 0, 0, 0;
      history, outs, seen, lost := [], map[], 0, 0;
    }

    function Previous(linkId: nat): Packet
      reads this
    {
      if linkId in perLinkPreviousPacket then perLinkPreviousPacket[linkId] else CLEARED
    }

    /** The state of a link, while a page is scanned or between two pages. */
    ghost function StateOf(linkId: nat, d: Bytes): LinkState
      requires PacketOk(Previous(linkId), d, mask)
      reads this
    {
      LinkState(Of(linkId, outs), Content(Previous(linkId), d))
    }

    ghost function Counted(linkId: nat): nat
      reads this
    {
      packetsRecorded + emptyPacketsDropped + if Previous(linkId).isEmptyHBStart then 1 else 0
    }

    /** The packet kept aside, if any, is not a reference in a page. */
    ghost predicate IsPrivate(l: nat)
      reads this
    {
      PacketOk(Previous(l), [], mask) && (Previous(l).address.Some? ==> Previous(l).address.value.PrivateCopy?)
    }

    ghost predicate LinkOk(l: nat)
      requires AreScannable(history)
      reads this
    {
      IsPrivate(l) && StateOf(l, []) == AfterPages(l, history, mask)
    }

    ghost predicate FileOk()
      reads this
    {
      && packetsRecorded == |file|
      && forall l {:trigger WrittenFor(l, file)} :: WrittenFor(l, file) == Of(l, outs)
    }

    ghost predicate Valid()
      reads this
    {
      && AreScannable(history)
      && (forall l :: LinkOk(l))
      && FileOk()
      && packetsRecorded + emptyPacketsDropped + |HeldLinks(perLinkPreviousPacket)| + lost == seen
    }

    method WriteToFile(linkId: nat, bytes: Bytes)
      requires FileOk()
      modifies this`file, this`packetsRecorded, this`outs
      ensures FileOk() && file == old(file) + [Write(linkId, bytes)] && packetsRecorded == old(packetsRecorded) + 1
      ensures outs == old(outs)[linkId := Of(linkId, old(outs)) + [bytes]]
    {
      file := file + [Write(linkId, bytes)];
      packetsRecorded := packetsRecorded + 1;
      outs := outs[linkId := Of(linkId, outs) + [bytes]];
      assert file[..|file| - 1] == old(file);
    }

    /** One packet of a page. */
    method RecordPacket(linkId: nat, data: Bytes, pageOffset: nat, size: nat)
      requires pageOffset + size <= |data| && PacketOk(Previous(linkId), data, mask) && FileOk()
      modifies this`perLinkPreviousPacket, this`file, this`outs, this`packetsRecorded, this`emptyPacketsDropped
      ensures PacketOk(Previous(linkId), data, mask) && FileOk()
      ensures StateOf(linkId, data) == Next(old(StateOf(linkId, data)), data[pageOffset..pageOffset + size], mask)
      ensures pageOffset + size == |data| && Previous(linkId).address.Some? ==>
                Previous(linkId).address.value.PrivateCopy?
      ensures Counted(linkId) == old(Counted(linkId)) + 1
      ensures perLinkPreviousPacket == old(perLinkPreviousPacket)[linkId := Previous(linkId)]
      ensures OnlyLink(linkId, old(outs), outs)
    {
      var packet := data[pageOffset..pageOffset + size];
      var previous := Previous(linkId);
      if previous.isEmptyHBStart && IsEmptyHBstop(packet, mask) {
        perLinkPreviousPacket := perLinkPreviousPacket[linkId := CLEARED];
        emptyPacketsDropped := emptyPacketsDropped + 2;
        return;
      }
      if previous.address.Some? {
        WriteToFile(linkId, Content(previous, data).value);
        previous := CLEARED;
      }
      if IsEmptyHBstart(packet, mask) {
        var address := if pageOffset + size < |data| then PageRef(pageOffset) else PrivateCopy(packet);
        previous := Packet(true, Some(address), size);
      } else {
        WriteToFile(linkId, packet);
      }
      perLinkPreviousPacket := perLinkPreviousPacket[linkId := previous];
    }

    /** A round of the loop over the packets of a page. */
    method RecordNext(linkId: nat, data: Bytes, pageOffset: nat, ghost end: LinkState) returns (next: nat)
      requires PacketOk(Previous(linkId), data, mask) && FileOk()
      requires Remains(data, pageOffset, StateOf(linkId, data), end, mask) && pageOffset < |data|
               && IsValid(data, pageOffset)
      modifies this`perLinkPreviousPacket, this`file, this`outs, this`packetsRecorded, this`emptyPacketsDropped
      ensures PacketOk(Previous(linkId), data, mask) && FileOk()
      ensures pageOffset < next <= |data| && Remains(data, next, StateOf(linkId, data), end, mask)
      ensures EndsInvalid(data, pageOffset) == EndsInvalid(data, next)
      ensures Counted(linkId) + |PacketsUpTo(data, next)| == old(Counted(linkId)) + |PacketsUpTo(data, pageOffset)|
      ensures next == |data| && Previous(linkId).address.Some? ==> Previous(linkId).address.value.PrivateCopy?
      ensures perLinkPreviousPacket == old(perLinkPreviousPacket)[linkId := Previous(linkId)]
      ensures OnlyLink(linkId, old(outs), outs)
    {
      hide After, Next, PacketsUpTo, EndsInvalid, OffsetNextPacket;
      RemainsNext(data, pageOffset, StateOf(linkId, data), end, mask);
      next := pageOffset + OffsetNextPacket(data, pageOffset);
      RecordPacket(linkId, data, pageOffset, OffsetNextPacket(data, pageOffset));
    }

    /** The loop over the packets of a page. */
    method RecordPackets(linkId: nat, data: Bytes)
      requires Scannable(data, 0) && IsPrivate(linkId) && FileOk()
      modifies this`perLinkPreviousPacket, this`file, this`outs, this`packetsRecorded, this`emptyPacketsDropped,
               this`invalidRDH, this`lost
      ensures IsPrivate(linkId) && FileOk()
      ensures StateOf(linkId, []) == AfterPage(old(StateOf(linkId, [])), data, mask)
      ensures Counted(linkId) + lost == old(Counted(linkId) + lost) + |PacketsUpTo(data, 0)|
      ensures invalidRDH == old(invalidRDH) + if EndsInvalid(data, 0) then 1 else 0
      ensures perLinkPreviousPacket == old(perLinkPreviousPacket)[linkId := Previous(linkId)]
      ensures OnlyLink(linkId, old(outs), outs)
    {
      perLinkPreviousPacket := perLinkPreviousPacket[linkId := Previous(linkId)];
      ghost var end := After(StateOf(linkId, []), PacketsUpTo(data, 0), mask);
      var pageOffset := 0;
      while pageOffset < |data| && IsValid(data, pageOffset)
        invariant PacketOk(Previous(linkId), data, mask) && FileOk()
        invariant Remains(data, pageOffset, StateOf(linkId, data), end, mask)
                  && EndsInvalid(data, 0) == EndsInvalid(data, pageOffset)
        invariant Counted(linkId) + |PacketsUpTo(data, pageOffset)| == old(Counted(linkId)) + |PacketsUpTo(data, 0)|
        invariant perLinkPreviousPacket == old(perLinkPreviousPacket)[linkId := Previous(linkId)]
        invariant pageOffset == 0 || pageOffset == |data| ==>
                    (Previous(linkId).address.Some? ==> Previous(linkId).address.value.PrivateCopy?)
        invariant OnlyLink(linkId, old(outs), outs)
        invariant invalidRDH == old(invalidRDH) && lost == old(lost)
        decreases |data| - pageOffset
      {
        pageOffset := RecordNext(linkId, data, pageOffset, end);
      }
      RemainsNothing(data, pageOffset, StateOf(linkId, data), end, mask);
      if pageOffset < |data| {
        DropPrevious(linkId);
      }
    }

    /** The first invalid header ends the page, and the packet kept aside goes away. */
    method DropPrevious(linkId: nat)
      modifies this`perLinkPreviousPacket, this`invalidRDH, this`lost
      ensures perLinkPreviousPacket == old(perLinkPreviousPacket)[linkId := CLEARED]
      ensures invalidRDH == old(invalidRDH) + 1 && Counted(linkId) + lost == old(Counted(linkId) + lost)
    {
      invalidRDH := invalidRDH + 1;
      lost := lost + if Previous(linkId).isEmptyHBStart then 1 else 0;
      perLinkPreviousPacket := perLinkPreviousPacket[linkId := CLEARED];
    }

    /** A page received from an equipment; after it, the page can be released. */
    method PushData(linkId: nat, data: Bytes)
      requires Valid() && Scannable(data, 0)
      modifies this
      ensures Valid() && history == old(history) + [Page(linkId, data)] && seen == old(seen) + |PacketsUpTo(data, 0)|
      ensures invalidRDH == old(invalidRDH) + if EndsInvalid(data, 0) then 1 else 0
    {
      hide PacketsUpTo, EndsInvalid, Of, AfterPages;
      assert LinkOk(linkId);
      RecordPackets(linkId, data);
      HeldUpdate(old(perLinkPreviousPacket), linkId, Previous(linkId));
      ghost var was := history;
      history := history + [Page(linkId, data)];
      seen := seen + |PacketsUpTo(data, 0)|;
      forall l
        ensures LinkOk(l)
      {
        AfterOnePage(l, was, Page(linkId, data), mask);
        assert old(LinkOk(l));
        if l != linkId { assert Of(l, outs) == old(Of(l, outs)); }
      }
    }
  }

  // ----- what is recorded -----

  /** The packets of a link, over all its pages. */
  function PacketsOf(linkId: nat, history: seq<Page>): seq<Bytes>
    requires AreScannable(history)
  {
    if history == [] then []
    else
      var page := history[|history| - 1];
      PacketsOf(linkId, history[..|history| - 1]) + if page.linkId == linkId then PacketsUpTo(page.data, 0) else []
  }

  /** No page of the link has an invalid header. */
  predicate IsSound(linkId: nat, history: seq<Page>)
    requires AreScannable(history)
  {
    forall k :: 0 <= k < |history| && history[k].linkId == linkId ==> !EndsInvalid(history[k].data, 0)
  }

  lemma {:induction false} AfterPagesIsAfter(linkId: nat, history: seq<Page>, mask: nat)
    requires AreScannable(history) && IsSound(linkId, history)
    ensures AfterPages(linkId, history, mask) == After(LinkState([], None), PacketsOf(linkId, history), mask)
  {
    if history != [] {
      var n := |history| - 1;
      AfterPagesIsAfter(linkId, history[..n], mask);
      if history[n].linkId == linkId {
        AfterAppend(LinkState([], None), PacketsOf(linkId, history[..n]), PacketsUpTo(history[n].data, 0), mask);
      } else {
        assert PacketsOf(linkId, history) == PacketsOf(linkId, history[..n]);
      }
    }
  }

  /**
   Written and kept aside are the packets of the link without the empty pairs, whatever happens on the other links.
   */
  lemma RecordedIsFiltered(r: ConsumerFileRecorder, linkId: nat)
    requires r.Valid() && IsSound(linkId, r.history)
    ensures r.IsPrivate(linkId)
    ensures WrittenFor(linkId, r.file) + Items(Content(r.Previous(linkId), [])) ==
            Filtered(PacketsOf(linkId, r.history), r.mask)
  {
    assert r.LinkOk(linkId);
    assert WrittenFor(linkId, r.file) == Of(linkId, r.outs);
    AfterPagesIsAfter(linkId, r.history, r.mask);
    var s := LinkState([], None);
    var ps := PacketsOf(linkId, r.history);
    AfterIsFiltered(s, ps, r.mask);
    assert Items(s.held) + ps == ps && s.out + Filtered(ps, r.mask) == Filtered(ps, r.mask);
  }

  /** All data of a link, in a row. */
  function DataOf(linkId: nat, history: seq<Page>): Bytes {
    if history == [] then []
    else
      var page := history[|history| - 1];
      DataOf(linkId, history[..|history| - 1]) + if page.linkId == linkId then page.data else []
  }

  ghost predicate AreTiled(history: seq<Page>) {
    forall k :: 0 <= k < |history| ==> Tiled(history[k].data, 0)
  }

  lemma TiledPage(d: Bytes)
    requires Tiled(d, 0)
    ensures Scannable(d, 0) && !EndsInvalid(d, 0) && ArePackets(PacketsUpTo(d, 0)) && Flatten(PacketsUpTo(d, 0)) == d
  {
    TiledIsScannable(d, 0);
    PacketsTile(d, 0);
  }

  lemma {:induction false} PacketsOfTiled(linkId: nat, history: seq<Page>)
    requires AreTiled(history)
    ensures AreScannable(history) && IsSound(linkId, history)
    ensures ArePackets(PacketsOf(linkId, history)) && Flatten(PacketsOf(linkId, history)) == DataOf(linkId, history)
  {
    forall k | 0 <= k < |history|
      ensures Scannable(history[k].data, 0) && !EndsInvalid(history[k].data, 0)
    {
      TiledPage(history[k].data);
    }
    if history != [] {
      var page := history[|history| - 1];
      PacketsOfTiled(linkId, history[..|history| - 1]);
      TiledPage(page.data);
      FlattenAppend(PacketsOf(linkId, history[..|history| - 1]), PacketsUpTo(page.data, 0));
      if page.linkId != linkId {
        assert PacketsOf(linkId, history) == PacketsOf(linkId, history[..|history| - 1]);
      }
    }
  }

  /**
   Two runs which get the same data on a link, cut in pages differently and mixed differently with other links, record
   the same and keep the same packet aside.
   */
  lemma PageCutsDoNotMatter(r1: ConsumerFileRecorder, r2: ConsumerFileRecorder, linkId: nat)
    requires r1.Valid() && r2.Valid() && r1.mask == r2.mask && AreTiled(r1.history) && AreTiled(r2.history)
    requires DataOf(linkId, r1.history) == DataOf(linkId, r2.history)
    ensures WrittenFor(linkId, r1.file) == WrittenFor(linkId, r2.file)
    ensures r1.IsPrivate(linkId) && r2.IsPrivate(linkId)
    ensures Content(r1.Previous(linkId), []) == Content(r2.Previous(linkId), [])
  {
    PacketsOfTiled(linkId, r1.history);
    PacketsOfTiled(linkId, r2.history);
    var ps1, ps2 := PacketsOf(linkId, r1.history), PacketsOf(linkId, r2.history);
    PacketsOfFlatten([], ps1, DataOf(linkId, r1.history));
    PacketsOfFlatten([], ps2, DataOf(linkId, r2.history));
    AfterPagesIsAfter(linkId, r1.history, r1.mask);
    AfterPagesIsAfter(linkId, r2.history, r2.mask);
    assert r1.LinkOk(linkId) && r2.LinkOk(linkId);
    assert WrittenFor(linkId, r1.file) == Of(linkId, r1.outs) && WrittenFor(linkId, r2.file) == Of(linkId, r2.outs);
  }
}
