/**
 Receiver side: splits raw superpages in heartbeat frames (ReadoutStfDecoder), and agrees with the sender's formatter.
 */
module StfDecoder {
  import opened Rdh
  import opened HeartbeatFrames
  import opened Packets

  /** `size` bytes from offset `start` of a received page. The size adds up announced packet lengths. */
  datatype Slice = Slice(page: nat, start: nat, size: nat)

  /** Every header from `off` on is accepted: nothing makes the decoder throw. */
  predicate Decodable(d: Bytes, off: nat)
    decreases |d| - off
  {
    off >= |d| || (HasPacket(d, off) && Decodable(d, off + OffsetNextPacket(d, off)))
  }

  ghost predicate SliceInPages(pages: seq<Bytes>, s: Slice) {
    s.page < |pages| && s.start + s.size <= |pages[s.page]|
  }

  ghost predicate SlicesInPages(pages: seq<Bytes>, ss: seq<Slice>) {
    forall s :: s in ss ==> SliceInPages(pages, s)
  }

  /** The bytes of a slice that do belong to the page. */
  ghost function SliceBytes(pages: seq<Bytes>, s: Slice): Bytes
    requires s.page < |pages| && s.start <= |pages[s.page]|
  {
    var d := pages[s.page];
    d[s.start..if s.start + s.size <= |d| then s.start + s.size else |d|]
  }

  ghost predicate Starts(pages: seq<Bytes>, ss: seq<Slice>) {
    forall i :: 0 <= i < |ss| ==> ss[i].page < |pages| && ss[i].start <= |pages[ss[i].page]|
  }

  ghost function SlicesBytes(pages: seq<Bytes>, ss: seq<Slice>): Bytes
    requires Starts(pages, ss)
  {
    if ss == [] then [] else SlicesBytes(pages, ss[..|ss| - 1]) + SliceBytes(pages, ss[|ss| - 1])
  }

  ghost predicate AllStart(pages: seq<Bytes>, hbf: seq<seq<Slice>>) {
    forall i :: 0 <= i < |hbf| ==> Starts(pages, hbf[i])
  }

  /** The decoded frames: each is the copy, or the single piece, made of its slices. */
  ghost function HbfBytes(pages: seq<Bytes>, hbf: seq<seq<Slice>>): seq<Bytes>
    requires AllStart(pages, hbf)
  {
    seq(|hbf|, i requires 0 <= i < |hbf| => SlicesBytes(pages, hbf[i]))
  }

  class StfDecoder {
    const pages: seq<Bytes>        // the message parts behind the header
    var hbf: seq<seq<Slice>>       // completed frames; several slices mean a copy
    var pendingHbf: seq<Slice>     // completed contiguous parts of the current frame
    var lastPart: Slice            // last chunk of the current frame; nothing when its size is 0
    var nPartsReused: nat
    var nPartsRepacked: nat

    constructor (pages: seq<Bytes>)
      ensures this.pages == pages && hbf == [] && pendingHbf == [] && lastPart.size == 0
      ensures nPartsReused == 0 && nPartsRepacked == 0
    {
      this.pages := pages;
      hbf, pendingHbf, lastPart, nPartsReused, nPartsRepacked := [], [], Slice(0, 0, 0), 0, 0;
    }

    ghost predicate Valid()
      reads this
    {
      && AllStart(pages, hbf) && Starts(pages, pendingHbf)
      && (lastPart.size != 0 ==> lastPart.page < |pages| && lastPart.start <= |pages[lastPart.page]|)
    }

    /** No part reaches beyond the page it was received in. */
    ghost predicate InPages()
      reads this
    {
      && (forall i :: 0 <= i < |hbf| ==> SlicesInPages(pages, hbf[i]))
      && SlicesInPages(pages, pendingHbf)
      && (lastPart.size != 0 ==> SliceInPages(pages, lastPart))
    }

    ghost function Open(): Bytes
      requires Valid()
      reads this
    {
      SlicesBytes(pages, pendingHbf) + if lastPart.size == 0 then [] else SliceBytes(pages, lastPart)
    }

    /** What was decoded from the chunks read so far. */
    ghost predicate Tracks(consumed: seq<Chunk>)
      reads this
    {
      && Valid()
      && if consumed == [] then hbf == [] && pendingHbf == [] && lastPart.size == 0
         else Frames(consumed) == HbfBytes(pages, hbf) + [Open()] && (pendingHbf != [] || lastPart.size != 0)
    }

    /** Moves the last chunk, if any, to the parts of the current frame. */
    method MoveLastPart()
      requires Valid()
      modifies this`pendingHbf, this`lastPart
      ensures Valid() && lastPart.size == 0 && Open() == old(Open()) && InPages() == old(InPages())
      ensures pendingHbf == old(pendingHbf) + if old(lastPart).size != 0 then [old(lastPart)] else []
    {
      ghost var before, last := pendingHbf, lastPart;
      if lastPart.size != 0 {
        pendingHbf := pendingHbf + [lastPart];
        assert pendingHbf[..|before|] == before && last in pendingHbf;
      }
      lastPart := Slice(0, 0, 0);
      assert SlicesInPages(pages, pendingHbf) <==>
               SlicesInPages(pages, before) && (last.size != 0 ==> SliceInPages(pages, last));
    }

    /** Completes the current frame: used as is when it is a single piece, copied otherwise. */
    method CompleteHbf()
      requires Valid() && lastPart.size == 0
      modifies this
      ensures Valid() && lastPart.size == 0 && pendingHbf == [] && InPages() == old(InPages())
      ensures hbf == old(hbf) + if old(pendingHbf) == [] then [] else [old(pendingHbf)]
      ensures nPartsReused == old(nPartsReused) + if |old(pendingHbf)| == 1 then 1 else 0
      ensures nPartsRepacked == old(nPartsRepacked) + if |old(pendingHbf)| > 1 then |old(pendingHbf)| else 0
    {
      if |pendingHbf| == 1 {
        nPartsReused := nPartsReused + 1;
      } else {
        nPartsRepacked := nPartsRepacked + |pendingHbf|;
      }
      ghost var done, frame := hbf, pendingHbf;
      if |pendingHbf| > 0 {
        hbf := hbf + [pendingHbf];
        assert hbf[|done|] == frame;
        assert forall i :: 0 <= i < |done| ==> hbf[i] == done[i];
      }
      pendingHbf := [];
    }

    method PendingHbfCollect(isLast: bool)
      requires Valid()
      modifies this
      ensures Valid() && lastPart.size == 0 && InPages() == old(InPages())
      ensures !isLast ==> hbf == old(hbf) && Open() == old(Open())
      ensures !isLast ==> pendingHbf == old(pendingHbf) + if old(lastPart).size != 0 then [old(lastPart)] else []
      ensures isLast ==> pendingHbf == []
      ensures isLast && old(pendingHbf) == [] && old(lastPart).size == 0 ==> hbf == old(hbf)
      ensures isLast && (old(pendingHbf) != [] || old(lastPart).size != 0) ==>
                HbfBytes(pages, hbf) == HbfBytes(pages, old(hbf)) + [old(Open())]
    {
      MoveLastPart();
      if isLast {
        assert SlicesBytes(pages, pendingHbf) == Open();
        CompleteHbf();
      }
    }

    /** Decodes one page from its start. */
    method DecodePage(p: nat, ghost before: seq<Chunk>, lastHbOrbit: nat, undefined: bool)
      returns (ok: bool, newOrbit: nat, newUndefined: bool)
      requires p < |pages| && Tracks(before) && lastPart.size == 0
      requires undefined <==> before == []
      requires !undefined ==> lastHbOrbit == LastOrbit(before)
      modifies this
      ensures ok <==> Decodable(pages[p], 0)
      ensures ok ==> (InPages() <==> old(InPages()) && Tiled(pages[p], 0))
      ensures ok ==> Tracks(before + ChunksFrom(pages[p], 0, LastOrbit(before))) && lastPart.size == 0
      ensures ok ==> (newUndefined <==> before + ChunksFrom(pages[p], 0, LastOrbit(before)) == [])
      ensures ok && !newUndefined ==> newOrbit == LastOrbit(before + ChunksFrom(pages[p], 0, LastOrbit(before)))
    {
      hide HeartbeatOrbit, Frames;
      var d := pages[p];
      newOrbit, newUndefined := lastHbOrbit, undefined;
      var pageOffset: nat := 0;
      ghost var all := before + ChunksFrom(d, 0, LastOrbit(before));
      ghost var consumed, done: nat := before, 0;
      while pageOffset < |d|
        invariant done == if pageOffset <= |d| then pageOffset else |d|
        invariant Tracks(consumed) && Decodable(d, 0) == Decodable(d, pageOffset) && Tiled(d, 0) == Tiled(d, pageOffset)
        invariant InPages() <==> old(InPages()) && pageOffset <= |d|
        invariant all == consumed + ChunksFrom(d, done, LastOrbit(consumed))
        invariant newUndefined <==> consumed == []
        invariant !newUndefined ==> newOrbit == LastOrbit(consumed)
        invariant lastPart.size != 0 ==> lastPart.page == p && lastPart.start + lastPart.size == pageOffset
        invariant lastPart.size == 0 ==> pageOffset == 0
        decreases |d| - done
      {
        if !HasPacket(d, pageOffset) {
          return false, newOrbit, newUndefined;
        }
        ghost var c := Chunk(HeartbeatOrbit(d, pageOffset), d[pageOffset..NextOffset(d, pageOffset)]);
        ReadPacket(p, pageOffset, newUndefined || newOrbit != HeartbeatOrbit(d, pageOffset), consumed, c);
        ConsumeChunk(d, pageOffset, consumed, c);
        NextPacket(d, pageOffset);
        consumed, done := consumed + [c], NextOffset(d, pageOffset);
        newUndefined, newOrbit := false, HeartbeatOrbit(d, pageOffset);
        pageOffset := pageOffset + OffsetNextPacket(d, pageOffset);
      }
      assert all == consumed;
      PendingHbfCollect(false);
      ok := true;
    }

    lemma NextPacket(d: Bytes, off: nat)
      requires HasPacket(d, off)
      ensures Decodable(d, off) == Decodable(d, off + OffsetNextPacket(d, off))
      ensures Tiled(d, off) == Tiled(d, off + OffsetNextPacket(d, off))
    {
    }

    /** One packet either opens a new frame or extends the last part. */
    method ReadPacket(p: nat, pageOffset: nat, isNewHbf: bool, ghost consumed: seq<Chunk>, ghost c: Chunk)
      requires Tracks(consumed) && p < |pages| && Fits(pages[p], pageOffset)
               && OffsetNextPacket(pages[p], pageOffset) != 0
      requires c == Chunk(HeartbeatOrbit(pages[p], pageOffset), pages[p][pageOffset..NextOffset(pages[p], pageOffset)])
      requires isNewHbf <==> consumed == [] || LastOrbit(consumed) != c.orbit
      requires lastPart.size != 0 ==> lastPart.page == p && lastPart.start + lastPart.size == pageOffset
      modifies this
      ensures Tracks(consumed + [c])
      ensures InPages() <==> old(InPages()) && pageOffset + OffsetNextPacket(pages[p], pageOffset) <= |pages[p]|
      ensures lastPart.size != 0 && lastPart.page == p
      ensures lastPart.start + lastPart.size == pageOffset + OffsetNextPacket(pages[p], pageOffset)
    {
      hide HeartbeatOrbit, LastOrbit, OffsetNextPacket;
      if isNewHbf {
        PendingHbfCollect(true);
        lastPart := Slice(p, pageOffset, OffsetNextPacket(pages[p], pageOffset));
        OpenedFrame(consumed, c);
      } else {
        ExtendLastPart(p, pageOffset, c);
        ExtendedFrame(consumed, c, old(Open()));
      }
    }

    method ExtendLastPart(p: nat, pageOffset: nat, ghost c: Chunk)
      requires Valid() && p < |pages| && Fits(pages[p], pageOffset) && OffsetNextPacket(pages[p], pageOffset) != 0
      requires c.bytes == pages[p][pageOffset..NextOffset(pages[p], pageOffset)]
      requires lastPart.size != 0 ==> lastPart.page == p && lastPart.start + lastPart.size == pageOffset
      modifies this`lastPart
      ensures Valid() && Open() == old(Open()) + c.bytes
      ensures InPages() <==> old(InPages()) && pageOffset + OffsetNextPacket(pages[p], pageOffset) <= |pages[p]|
      ensures lastPart.page == p && lastPart.size == old(lastPart.size) + OffsetNextPacket(pages[p], pageOffset)
      ensures lastPart.start + lastPart.size == pageOffset + OffsetNextPacket(pages[p], pageOffset)
    {
      ghost var before := if lastPart.size == 0 then [] else SliceBytes(pages, lastPart);
      if lastPart.size == 0 {
        lastPart := Slice(p, pageOffset, 0);
      }
      lastPart := lastPart.(size := lastPart.size + OffsetNextPacket(pages[p], pageOffset));
      assert SliceBytes(pages, lastPart) == before + c.bytes;
    }

    lemma OpenedFrame(consumed: seq<Chunk>, c: Chunk)
      requires Valid() && pendingHbf == [] && lastPart.size != 0 && SliceBytes(pages, lastPart) == c.bytes
      requires HbfBytes(pages, hbf) == Frames(consumed)
      requires consumed == [] || LastOrbit(consumed) != c.orbit
      ensures Tracks(consumed + [c])
    {
      FramesSnoc(consumed, c);
      assert Open() == c.bytes;
    }

    lemma ExtendedFrame(consumed: seq<Chunk>, c: Chunk, open: Bytes)
      requires Valid() && lastPart.size != 0 && Open() == open + c.bytes
      requires consumed != [] && Frames(consumed) == HbfBytes(pages, hbf) + [open] && LastOrbit(consumed) == c.orbit
      ensures Tracks(consumed + [c])
    {
      FramesSnoc(consumed, c);
    }

    method DecodeNextPage(p: nat, lastHbOrbit: nat, undefined: bool)
      returns (ok: bool, newOrbit: nat, newUndefined: bool)
      requires p < |pages| && Tracks(Chunks(pages[..p])) && lastPart.size == 0
      requires undefined <==> Chunks(pages[..p]) == []
      requires !undefined ==> lastHbOrbit == LastOrbit(Chunks(pages[..p]))
      modifies this
      ensures ok <==> Decodable(pages[p], 0)
      ensures ok ==> (InPages() <==> old(InPages()) && Tiled(pages[p], 0))
      ensures ok ==> Tracks(Chunks(pages[..p + 1])) && lastPart.size == 0
      ensures ok ==> (newUndefined <==> Chunks(pages[..p + 1]) == [])
      ensures ok && !newUndefined ==> newOrbit == LastOrbit(Chunks(pages[..p + 1]))
    {
      hide Decodable, Tiled, ChunksFrom, Frames, HbfBytes, LastOrbit;
      assert pages[..p + 1] == pages[..p] + [pages[p]];
      ChunksSnoc(pages[..p], pages[p]);
      ok, newOrbit, newUndefined := DecodePage(p, Chunks(pages[..p]), lastHbOrbit, undefined);
    }

    lemma NothingRead()
      requires hbf == [] && pendingHbf == [] && lastPart.size == 0
      ensures Tracks(Chunks(pages[..0])) && Chunks(pages[..0]) == [] && InPages()
    {
    }

    /** The end of the last page ends the last frame. */
    method CompleteLast(ghost consumed: seq<Chunk>)
      requires Tracks(consumed) && lastPart.size == 0
      modifies this
      ensures Valid() && HbfBytes(pages, hbf) == Frames(consumed) && InPages() == old(InPages())
    {
      PendingHbfCollect(true);
    }

    /** Splits all the pages; fails exactly when some page has a header the decoder refuses. */
    method Decode() returns (ok: bool)
      requires hbf == [] && pendingHbf == [] && lastPart.size == 0
      modifies this
      ensures ok <==> forall p :: 0 <= p < |pages| ==> Decodable(pages[p], 0)
      ensures ok ==> Valid() && HbfBytes(pages, hbf) == Frames(Chunks(pages))
      ensures ok ==> (InPages() <==> forall p :: 0 <= p < |pages| ==> Tiled(pages[p], 0))
    {
      hide Decodable, Tiled, ChunksFrom, Frames, HbfBytes, LastOrbit, Tracks, InPages, Valid;
      NothingRead();
      var lastHbOrbit, undefined := 0, true;
      for p := 0 to |pages|
        invariant Tracks(Chunks(pages[..p])) && lastPart.size == 0
        invariant undefined <==> Chunks(pages[..p]) == []
        invariant !undefined ==> lastHbOrbit == LastOrbit(Chunks(pages[..p]))
        invariant forall q :: 0 <= q < p ==> Decodable(pages[q], 0)
        invariant InPages() <==> forall q :: 0 <= q < p ==> Tiled(pages[q], 0)
      {
        ok, lastHbOrbit, undefined := DecodeNextPage(p, lastHbOrbit, undefined);
        if !ok {
          return;
        }
      }
      assert pages[..|pages|] == pages;
      CompleteLast(Chunks(pages));
      ok := true;
    }
  }
}
