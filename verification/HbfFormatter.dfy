/** Body of a data-distribution message: one message part per heartbeat frame (second pass of DDformatMessage). */
module HbfFormatter {
  import opened Rdh
  import opened Sequences
  import opened HeartbeatFrames
  import opened Runs
  import opened PackedCopy
  import opened Options

  /** A piece of a page waiting for the rest of its heartbeat frame. */
  datatype PendingFrame = PendingFrame(page: nat, start: nat, length: nat, orbit: nat)

  /** A message part: bytes of an input page sent in place, or a copy in a block of the output pool. */
  datatype Part = InPlace(page: nat, start: nat, length: nat) | Repacked(block: Region)

  ghost predicate FrameInPages(pages: seq<Bytes>, f: PendingFrame) {
    f.page < |pages| && f.length > 0 && f.start + f.length <= |pages[f.page]|
  }

  ghost predicate PartInPages(pages: seq<Bytes>, memory: Memory, p: Part) {
    match p
    case InPlace(page, start, length) => page < |pages| && start + length <= |pages[page]|
    case Repacked(block) => IsIn(memory, block)
  }

  ghost predicate FramesInPages(pages: seq<Bytes>, fs: seq<PendingFrame>) {
    forall i :: 0 <= i < |fs| ==> FrameInPages(pages, fs[i])
  }

  ghost predicate PartsInPages(pages: seq<Bytes>, memory: Memory, ps: seq<Part>) {
    forall i :: 0 <= i < |ps| ==> PartInPages(pages, memory, ps[i])
  }

  ghost function FrameBytes(pages: seq<Bytes>, f: PendingFrame): Bytes
    requires FrameInPages(pages, f)
  {
    pages[f.page][f.start..f.start + f.length]
  }

  ghost function FramesBytes(pages: seq<Bytes>, fs: seq<PendingFrame>): Bytes
    requires FramesInPages(pages, fs)
  {
    if fs == [] then [] else FramesBytes(pages, fs[..|fs| - 1]) + FrameBytes(pages, fs[|fs| - 1])
  }

  /** The bytes of a part: those of a copy are what the memory of the pool holds. */
  ghost function PartBytes(pages: seq<Bytes>, memory: Memory, p: Part): Bytes
    requires PartInPages(pages, memory, p)
  {
    match p
    case InPlace(page, start, length) => pages[page][start..start + length]
    case Repacked(block) => Read(memory, block)
  }

  ghost function PartsBytes(pages: seq<Bytes>, memory: Memory, ps: seq<Part>): seq<Bytes>
    requires PartsInPages(pages, memory, ps)
  {
    seq(|ps|, i requires 0 <= i < |ps| => PartBytes(pages, memory, ps[i]))
  }

  function TotalLength(fs: seq<PendingFrame>): nat {
    if fs == [] then 0 else TotalLength(fs[..|fs| - 1]) + fs[|fs| - 1].length
  }

  /** The blocks in which parts were copied, in the order of the parts. */
  function Blocks(parts: seq<Part>): seq<Region> {
    if parts == [] then []
    else Blocks(parts[..|parts| - 1]) + if parts[|parts| - 1].Repacked? then [parts[|parts| - 1].block] else []
  }

  function PagesSize(pageSize: nat, pages: nat): nat {
    pageSize * pages
  }

  lemma OnePageMore(pageSize: nat, pages: nat)
    ensures PagesSize(pageSize, pages + 1) == PagesSize(pageSize, pages) + pageSize
  {
  }

  // ----- when copies are needed, and when they can be made -----

  /** The offset of a page in the concatenation of all pages. */
  function PageStart(pages: seq<Bytes>, p: nat): nat
    requires p <= |pages|
  {
    |Flatten(pages[..p])|
  }

  /** One page ends, and another one starts, inside the last frame. */
  ghost predicate IsSplit(pages: seq<Bytes>, frames: seq<Bytes>)
    requires frames != []
  {
    exists p :: 0 <= p <= |pages| && |Flatten(frames[..|frames| - 1])| < PageStart(pages, p) < |Flatten(frames)|
  }

  /**
   What is left when all frames which lie in several pages are copied, one after the other, if there is room for them.
   */
  ghost function RoomAfter(pages: seq<Bytes>, frames: seq<Bytes>, pageSize: nat, packed: bool,
                           room: Room): Option<Room> {
    if frames == [] then Some(room)
    else
      var before := RoomAfter(pages, frames[..|frames| - 1], pageSize, packed, room);
      if before.None? || !IsSplit(pages, frames) then before
      else RoomAfterCopy(pageSize, packed, before.value, |frames[|frames| - 1]|)
  }

  lemma RoomAfterNext(pages: seq<Bytes>, frames: seq<Bytes>, frame: Bytes, pageSize: nat, packed: bool, room: Room)
    ensures RoomAfter(pages, frames + [frame], pageSize, packed, room) ==
            var before := RoomAfter(pages, frames, pageSize, packed, room);
            if before.None? || !IsSplit(pages, frames + [frame]) then before
            else RoomAfterCopy(pageSize, packed, before.value, |frame|)
  {
    assert (frames + [frame])[..|frames|] == frames;
  }

  /** Without room for some frames there is none for more of them. */
  lemma {:induction false} NoRoomForMore(pages: seq<Bytes>, frames: seq<Bytes>, n: nat, pageSize: nat, packed: bool,
                                         room: Room)
    requires n <= |frames| && RoomAfter(pages, frames[..n], pageSize, packed, room).None?
    ensures RoomAfter(pages, frames, pageSize, packed, room).None?
    decreases |frames|
  {
    if n == |frames| {
      assert frames[..n] == frames;
    } else {
      assert frames[..|frames| - 1][..n] == frames[..n];
      NoRoomForMore(pages, frames[..|frames| - 1], n, pageSize, packed, room);
    }
  }

  /** The sizes of the frames which lie in several pages. */
  ghost function SplitSizes(pages: seq<Bytes>, frames: seq<Bytes>): seq<nat> {
    if frames == [] then []
    else SplitSizes(pages, frames[..|frames| - 1]) +
         if IsSplit(pages, frames) then [|frames[|frames| - 1]|] else []
  }

  /** A place in one of n pages, in the same page as the place before it or in the next one. */
  ghost predicate IsPlace(last: Option<Region>, place: Region, size: nat, pageSize: nat, n: nat) {
    && IsPlaced(last, place, pageSize) && place.length == size
    && place.start + size <= pageSize && place.page < n
    && if last.None? then place.page == 0 else place.page == last.value.page || place.page == last.value.page + 1
  }

  /** Places for packed copies of these sizes, inside n pages numbered in the order in which they are taken. */
  ghost predicate ArePlaces(places: seq<Region>, sizes: seq<nat>, pageSize: nat, n: nat) {
    |places| == |sizes| &&
    forall i :: 0 <= i < |places| ==> IsPlace(Before(places, i), places[i], sizes[i], pageSize, n)
  }

  /** What is left behind the last place. */
  function RoomBehind(last: Option<Region>, pageSize: nat, n: nat): Room
    requires last.Some? ==> last.value.start + last.value.length <= pageSize && last.value.page < n
  {
    if last.None? then Room(n, 0) else Room(n - 1 - last.value.page, pageSize - last.value.start - last.value.length)
  }

  lemma LastIsPlace(places: seq<Region>, sizes: seq<nat>, pageSize: nat, n: nat)
    requires ArePlaces(places, sizes, pageSize, n)
    ensures var last := Before(places, |places|);
            last.Some? ==> last.value.start + last.value.length <= pageSize && last.value.page < n
  {
    if places != [] {
      var k := |places| - 1;
      assert IsPlace(Before(places, k), places[k], sizes[k], pageSize, n);
    }
  }

  /** A copy can be made exactly when there is a place for it, and leaves what is behind this place. */
  lemma NextPlace(last: Option<Region>, size: nat, pageSize: nat, n: nat) returns (place: Region)
    requires last.Some? ==> last.value.start + last.value.length <= pageSize && last.value.page < n
    ensures var after := RoomAfterCopy(pageSize, true, RoomBehind(last, pageSize, n), size);
            after.Some? ==>
                IsPlace(last, place, size, pageSize, n)
                && after.value == RoomBehind(Some(place), pageSize, n)
    ensures forall other :: IsPlace(last, other, size, pageSize, n) ==>
              RoomAfterCopy(pageSize, true, RoomBehind(last, pageSize, n), size) ==
              Some(RoomBehind(Some(other), pageSize, n))
  {
    place := if last.Some? && last.value.start + last.value.length + DATABLOCK_SIZE + size <= pageSize
             then Region(last.value.page, last.value.start + last.value.length + DATABLOCK_SIZE, size)
             else Region(if last.Some? then last.value.page + 1 else 0, DATABLOCK_SIZE, size);
  }

  lemma PlaceIsAdded(places: seq<Region>, sizes: seq<nat>, place: Region, size: nat, pageSize: nat, n: nat)
    requires |places| == |sizes|
    ensures ArePlaces(places + [place], sizes + [size], pageSize, n) <==>
            ArePlaces(places, sizes, pageSize, n) && IsPlace(Before(places, |places|), place, size, pageSize, n)
  {
    hide IsPlace;
    var all, allSizes := places + [place], sizes + [size];
    assert forall i :: 0 <= i < |places| ==>
             Before(all, i) == Before(places, i) && all[i] == places[i] && allSizes[i] == sizes[i];
    assert Before(all, |places|) == Before(places, |places|) && all[|places|] == place && allSizes[|places|] == size;
  }

  /** Packed copies can be made when there are places for them. */
  lemma {:induction false} PlacesAreRoom(pages: seq<Bytes>, frames: seq<Bytes>, pageSize: nat, n: nat,
                                         places: seq<Region>)
    requires ArePlaces(places, SplitSizes(pages, frames), pageSize, n)
    ensures var last := Before(places, |places|);
            && (last.Some? ==> last.value.start + last.value.length <= pageSize && last.value.page < n)
            && RoomAfter(pages, frames, pageSize, true, Room(n, 0)) == Some(RoomBehind(last, pageSize, n))
  {
    hide ArePlaces, RoomAfterCopy, IsSplit, IsPlace;
    LastIsPlace(places, SplitSizes(pages, frames), pageSize, n);
    SameLength(places, SplitSizes(pages, frames), pageSize, n);
    if frames != [] {
      var init := frames[..|frames| - 1];
      if IsSplit(pages, frames) {
        var k := |places| - 1;
        assert places == places[..k] + [places[k]];
        PlaceIsAdded(places[..k], SplitSizes(pages, init), places[k], |frames[|frames| - 1]|, pageSize, n);
        PlacesAreRoom(pages, init, pageSize, n, places[..k]);
        var _ := NextPlace(Before(places[..k], k), |frames[|frames| - 1]|, pageSize, n);
      } else {
        assert SplitSizes(pages, frames) == SplitSizes(pages, init);
        PlacesAreRoom(pages, init, pageSize, n, places);
      }
    }
  }

  lemma SameLength(places: seq<Region>, sizes: seq<nat>, pageSize: nat, n: nat)
    requires ArePlaces(places, sizes, pageSize, n)
    ensures |places| == |sizes|
  {
  }

  lemma NoPlaces(pageSize: nat, n: nat)
    ensures ArePlaces([], [], pageSize, n)
  {
  }

  /** And only then. */
  lemma {:induction false} RoomHasPlaces(pages: seq<Bytes>, frames: seq<Bytes>, pageSize: nat, n: nat)
    returns (places: seq<Region>)
    requires RoomAfter(pages, frames, pageSize, true, Room(n, 0)).Some?
    ensures ArePlaces(places, SplitSizes(pages, frames), pageSize, n)
  {
    hide ArePlaces, RoomAfterCopy, IsSplit, IsPlace;
    if frames == [] {
      places := [];
      NoPlaces(pageSize, n);
    } else {
      var init := frames[..|frames| - 1];
      places := RoomHasPlaces(pages, init, pageSize, n);
      if IsSplit(pages, frames) {
        var size := |frames[|frames| - 1]|;
        LastIsPlace(places, SplitSizes(pages, init), pageSize, n);
        PlacesAreRoom(pages, init, pageSize, n, places);
        SameLength(places, SplitSizes(pages, init), pageSize, n);
        var place := NextPlace(Before(places, |places|), size, pageSize, n);
        PlaceIsAdded(places, SplitSizes(pages, init), place, size, pageSize, n);
        places := places + [place];
      } else {
        assert SplitSizes(pages, frames) == SplitSizes(pages, init);
      }
    }
  }

  /**
   Copies can be made exactly when there is a place for each of them: when packed, one behind the other with a header in
   front of each, in as many pages as there are; and otherwise when each has a page of its own.
   */
  lemma CopiesNeedPlaces(pages: seq<Bytes>, frames: seq<Bytes>, pageSize: nat, n: nat)
    ensures var sizes := SplitSizes(pages, frames);
            && (RoomAfter(pages, frames, pageSize, true, Room(n, 0)).Some? <==>
                exists places :: ArePlaces(places, sizes, pageSize, n))
            && (RoomAfter(pages, frames, pageSize, false, Room(n, 0)).Some? <==>
                |sizes| <= n && forall i :: 0 <= i < |sizes| ==> sizes[i] <= pageSize)
  {
    var sizes := SplitSizes(pages, frames);
    if RoomAfter(pages, frames, pageSize, true, Room(n, 0)).Some? {
      var places := RoomHasPlaces(pages, frames, pageSize, n);
    }
    if places :| ArePlaces(places, sizes, pageSize, n) {
      PlacesAreRoom(pages, frames, pageSize, n, places);
    }
    PagesOfTheirOwn(pages, frames, pageSize, n);
  }

  lemma {:induction false} PagesOfTheirOwn(pages: seq<Bytes>, frames: seq<Bytes>, pageSize: nat, n: nat)
    ensures var sizes, room := SplitSizes(pages, frames), RoomAfter(pages, frames, pageSize, false, Room(n, 0));
            && (room.Some? <==> |sizes| <= n && forall i :: 0 <= i < |sizes| ==> sizes[i] <= pageSize)
            && (room.Some? ==> room.value == Room(n - |sizes|, 0))
  {
    hide IsSplit;
    if frames != [] {
      var init := frames[..|frames| - 1];
      PagesOfTheirOwn(pages, init, pageSize, n);
      var before, sizes := SplitSizes(pages, init), SplitSizes(pages, frames);
      assert forall i :: 0 <= i < |before| ==> before[i] == sizes[i];
      if IsSplit(pages, frames) { assert sizes[|before|] == |frames[|frames| - 1]|; }
    }
  }

  function PackedSize(sizes: seq<nat>): nat {
    if sizes == [] then 0 else PackedSize(sizes[..|sizes| - 1]) + sizes[|sizes| - 1] + DATABLOCK_SIZE
  }

  /** One page is enough for copies which, each with its header, add up to no more than a page. */
  lemma {:induction false} OnePageIsEnough(pages: seq<Bytes>, frames: seq<Bytes>, pageSize: nat, n: nat)
    requires n > 0 && PackedSize(SplitSizes(pages, frames)) <= pageSize
    ensures RoomAfter(pages, frames, pageSize, true, Room(n, 0)) ==
            Some(if SplitSizes(pages, frames) == [] then Room(n, 0)
                 else Room(n - 1, pageSize - PackedSize(SplitSizes(pages, frames))))
  {
    hide IsSplit;
    if frames != [] {
      var init := frames[..|frames| - 1];
      var sizes := SplitSizes(pages, frames);
      assert sizes != SplitSizes(pages, init) ==> sizes[..|sizes| - 1] == SplitSizes(pages, init);
      OnePageIsEnough(pages, init, pageSize, n);
    }
  }

  /** There is room whenever there are as many free pages as frames, and each of these would fit in a page. */
  lemma {:induction false} PagesAreEnough(pages: seq<Bytes>, frames: seq<Bytes>, pageSize: nat, packed: bool,
                                          room: Room)
    requires |frames| <= room.pages
    requires forall i :: 0 <= i < |frames| ==> |frames[i]| + (if packed then DATABLOCK_SIZE else 0) <= pageSize
    ensures RoomAfter(pages, frames, pageSize, packed, room).Some?
    ensures RoomAfter(pages, frames, pageSize, packed, room).value.pages >= room.pages - |frames|
  {
    if frames != [] {
      PagesAreEnough(pages, frames[..|frames| - 1], pageSize, packed, room);
    }
  }

  lemma PageStartGrows(pages: seq<Bytes>, p: nat, q: nat)
    requires p <= q <= |pages|
    ensures PageStart(pages, p) <= PageStart(pages, q)
    ensures p < q ==> PageStart(pages, p) + |pages[p]| <= PageStart(pages, q)
    decreases q
  {
    if p < q {
      assert pages[..q][..q - 1] == pages[..q - 1];
      PageStartGrows(pages, p, q - 1);
    }
  }

  /** A frame in one piece is not split. */
  lemma OnePieceIsNotSplit(pages: seq<Bytes>, frames: seq<Bytes>, f: PendingFrame)
    requires FrameInPages(pages, f) && frames != []
    requires PageStart(pages, f.page) + f.start == |Flatten(frames[..|frames| - 1])|
             && |frames[|frames| - 1]| == f.length
    ensures !IsSplit(pages, frames)
  {
    forall p | 0 <= p <= |pages|
      ensures PageStart(pages, p) <= PageStart(pages, f.page) || PageStart(pages, p) >= |Flatten(frames)|
    {
      if p <= f.page { PageStartGrows(pages, p, f.page); } else { PageStartGrows(pages, f.page, p); }
    }
  }

  /** The pieces are of different pages and follow each other from some place in the concatenation of the pages. */
  ghost predicate PiecesFollow(pages: seq<Bytes>, fs: seq<PendingFrame>, from: nat)
    requires FramesInPages(pages, fs)
  {
    fs == [] ||
    (var n := |fs| - 1;
     && PiecesFollow(pages, fs[..n], from)
     && PageStart(pages, fs[n].page) + fs[n].start == from + TotalLength(fs[..n])
     && (n > 0 ==> fs[n - 1].page < fs[n].page))
  }

  lemma PieceIsAdded(pages: seq<Bytes>, fs: seq<PendingFrame>, f: PendingFrame, from: nat)
    requires FramesInPages(pages, fs) && PiecesFollow(pages, fs, from) && FrameInPages(pages, f)
    requires PageStart(pages, f.page) + f.start == from + TotalLength(fs) && (fs != [] ==> fs[|fs| - 1].page < f.page)
    ensures FramesInPages(pages, fs + [f]) && PiecesFollow(pages, fs + [f], from)
    ensures FramesBytes(pages, fs + [f]) == FramesBytes(pages, fs) + FrameBytes(pages, f)
    ensures TotalLength(fs + [f]) == TotalLength(fs) + f.length
  {
    hide PageStart;
    assert (fs + [f])[..|fs|] == fs;
  }

  /** A frame in several pieces is split, where the last of them starts. */
  lemma PiecesAreSplit(pages: seq<Bytes>, frames: seq<Bytes>, fs: seq<PendingFrame>)
    requires FramesInPages(pages, fs) && |fs| > 1 && frames != []
    requires PiecesFollow(pages, fs, |Flatten(frames[..|frames| - 1])|) && |frames[|frames| - 1]| == TotalLength(fs)
    ensures IsSplit(pages, frames)
  {
    hide PageStart;
    var n := |fs| - 1;
    assert fs[..n][n - 1] == fs[n - 1];
    PageStartGrows(pages, fs[n - 1].page, fs[n].page);
    assert |Flatten(frames[..|frames| - 1])| < PageStart(pages, fs[n].page) < |Flatten(frames)|;
  }

  lemma OnePiece(pages: seq<Bytes>, memory: Memory, fs: seq<PendingFrame>)
    requires FramesInPages(pages, fs) && |fs| == 1
    ensures var part := InPlace(fs[0].page, fs[0].start, fs[0].length);
            PartInPages(pages, memory, part) && PartBytes(pages, memory, part) == FramesBytes(pages, fs)
    ensures TotalLength(fs) == fs[0].length == |FramesBytes(pages, fs)|
  {
    assert fs[..0] == [];
  }

  lemma NextPiece(pages: seq<Bytes>, fs: seq<PendingFrame>, i: nat)
    requires FramesInPages(pages, fs) && i < |fs|
    ensures TotalLength(fs[..i + 1]) == TotalLength(fs[..i]) + fs[i].length <= TotalLength(fs)
    ensures fs[i].page < |pages| && fs[i].start + fs[i].length <= |pages[fs[i].page]|
    ensures FramesInPages(pages, fs[..i]) && FramesInPages(pages, fs[..i + 1])
            && FramesBytes(pages, fs[..i + 1]) ==
               FramesBytes(pages, fs[..i]) + pages[fs[i].page][fs[i].start..fs[i].start + fs[i].length]
  {
    assert fs[..i + 1][..i] == fs[..i];
    TotalGrows(fs, i + 1);
  }

  lemma {:induction false} TotalGrows(fs: seq<PendingFrame>, n: nat)
    requires n <= |fs|
    ensures TotalLength(fs[..n]) <= TotalLength(fs)
    decreases |fs|
  {
    if n == |fs| {
      assert fs[..n] == fs;
    } else {
      assert fs[..|fs| - 1][..n] == fs[..n];
      TotalGrows(fs[..|fs| - 1], n);
    }
  }

  // ----- what was sent stays as it is -----

  lemma {:induction false} BlockOfPart(parts: seq<Part>, i: nat)
    requires i < |parts| && parts[i].Repacked?
    ensures parts[i].block in Blocks(parts)
  {
    if i < |parts| - 1 {
      BlockOfPart(parts[..|parts| - 1], i);
    }
  }

  lemma PartsAreKept(pages: seq<Bytes>, memory: Memory, after: Memory, parts: seq<Part>, given: seq<Region>)
    requires PartsInPages(pages, memory, parts) && AreKept(memory, after, given)
    requires forall b :: b in Blocks(parts) ==> b in given
    ensures PartsInPages(pages, after, parts) && PartsBytes(pages, after, parts) == PartsBytes(pages, memory, parts)
  {
    forall i | 0 <= i < |parts|
      ensures PartInPages(pages, after, parts[i])
              && PartBytes(pages, after, parts[i]) == PartBytes(pages, memory, parts[i])
    {
      if parts[i].Repacked? { BlockOfPart(parts, i); }
    }
  }

  lemma PartIsAdded(pages: seq<Bytes>, memory: Memory, parts: seq<Part>, part: Part)
    requires PartsInPages(pages, memory, parts) && PartInPages(pages, memory, part)
    ensures PartsInPages(pages, memory, parts + [part])
    ensures var sent, bytes := PartsBytes(pages, memory, parts), PartBytes(pages, memory, part);
            && PartsBytes(pages, memory, parts + [part]) == sent + [bytes]
            && |Flatten(sent + [bytes])| == |Flatten(sent)| + |bytes|
    ensures Blocks(parts + [part]) == Blocks(parts) + if part.Repacked? then [part.block] else []
  {
    hide IsIn;
    assert (parts + [part])[..|parts|] == parts;
    FlattenSnoc(PartsBytes(pages, memory, parts), PartBytes(pages, memory, part));
  }

  /** No copy overlaps another one. */
  ghost predicate CopiesAreApart(parts: seq<Part>) {
    forall i, j :: 0 <= i < j < |parts| && parts[i].Repacked? && parts[j].Repacked? ==>
        Disjoint(parts[i].block, parts[j].block)
  }

  lemma {:induction false} BlocksAreApart(parts: seq<Part>, base: seq<Region>)
    requires AreApart(base + Blocks(parts))
    ensures CopiesAreApart(parts)
  {
    if parts != [] {
      var n := |parts| - 1;
      var given, before := base + Blocks(parts), base + Blocks(parts[..n]);
      assert before <= given;
      BlocksAreApart(parts[..n], base);
      forall i | 0 <= i < n && parts[i].Repacked? && parts[n].Repacked?
        ensures Disjoint(parts[i].block, parts[n].block)
      {
        assert given == before + [parts[n].block];
        BlockOfPart(parts[..n], i);
        var k :| 0 <= k < |Blocks(parts[..n])| && Blocks(parts[..n])[k] == parts[i].block;
        assert given[|base| + k] == parts[i].block && given[|before|] == parts[n].block;
      }
    }
  }

  class HbfFormatter {
    const pages: seq<Bytes>          // payloads of the data set
    const copies: CopyAllocator
    var parts: seq<Part>             // messagesToSend, after the header
    var pendingFrames: seq<PendingFrame>
    var fmqSize: nat                 // bytes in `parts`
    var memorySize: nat              // pages taken for copies
    // What there was at the start: blocks given before, their memory, and the room for copies.
    ghost const base: seq<Region>
    ghost const memory: Memory
    ghost const room: Room

    /** What holds even when a copy could not be made: blocks given before are as they were. */
    ghost predicate Sound()
      reads copies, copies.copyBlockBuffer
    {
      copies.Valid() && copies.memory.Keys == memory.Keys && AreKept(memory, copies.memory, base)
          && base <= copies.given
    }

    ghost predicate Valid()
      reads this, copies, copies.copyBlockBuffer
    {
      && Sound()
      && FramesInPages(pages, pendingFrames)
      && PartsInPages(pages, copies.memory, parts)
      && fmqSize == |Flatten(Sent())|
      && PiecesFollow(pages, pendingFrames, fmqSize)
      && copies.given == base + Blocks(parts)
      && RoomFor(Sent()) == Some(copies.RoomNow())
      && (room.left < copies.pageSize ==> copies.RoomNow().left < copies.pageSize)
      && (copies.packed ==> IsPacking())
      && |copies.pool| <= room.pages && memorySize == PagesSize(copies.pageSize, room.pages - |copies.pool|)
    }

    /** The copies made so far are packed, and the next one comes behind the last. */
    ghost predicate IsPacking()
      reads this`parts, copies`copyBlockBuffer, copies`given, copies.copyBlockBuffer
    {
      ArePacked(Blocks(parts), copies.pageSize) && copies.IsOpenBehind(LastCopy())
    }

    ghost function LastCopy(): Option<Region>
      reads this`parts
    {
      Before(Blocks(parts), |Blocks(parts)|)
    }

    /** The bytes of the parts. */
    ghost function Sent(): seq<Bytes>
      reads this`parts, copies`memory
      requires PartsInPages(pages, copies.memory, parts)
    {
      PartsBytes(pages, copies.memory, parts)
    }

    /** What is left of the room at the start when some frames are sent. */
    ghost function RoomFor(frames: seq<Bytes>): Option<Room> {
      RoomAfter(pages, frames, copies.pageSize, copies.packed, room)
    }

    /** Where the pages were read to, and that all the rest is pending. */
    ghost predicate IsAt(p: nat, offset: nat)
      reads this
    {
      && p < |pages| && PageStart(pages, p) + offset == fmqSize + TotalLength(pendingFrames)
      && (pendingFrames != [] ==> pendingFrames[|pendingFrames| - 1].page < p)
    }

    constructor (pages: seq<Bytes>, copies: CopyAllocator)
      requires copies.Valid() && copies.copyBlockBuffer == null
      ensures Valid() && this.pages == pages && this.copies == copies
      ensures base == copies.given && memory == copies.memory && room == copies.RoomNow()
      ensures parts == [] && pendingFrames == []
    {
      this.pages, this.copies := pages, copies;
      parts, pendingFrames, fmqSize, memorySize := [], [], 0, 0;
      base, memory, room := copies.given, copies.memory, copies.RoomNow();
    }

    method PendingFramesAppend(page: nat, start: nat, length: nat, orbit: nat)
      requires Valid() && FrameInPages(pages, PendingFrame(page, start, length, orbit)) && IsAt(page, start)
      modifies this`pendingFrames
      ensures Valid()
      ensures pendingFrames == old(pendingFrames) + [PendingFrame(page, start, length, orbit)]
      ensures FramesBytes(pages, pendingFrames) ==
              FramesBytes(pages, old(pendingFrames)) + pages[page][start..start + length]
      ensures TotalLength(pendingFrames) == TotalLength(old(pendingFrames)) + length
    {
      hide PiecesFollow, FramesInPages, PartsInPages, PartsBytes, FramesBytes, TotalLength, AreKept, RoomAfter,
           PageStart;
      PieceIsAdded(pages, pendingFrames, PendingFrame(page, start, length, orbit), fmqSize);
      pendingFrames := pendingFrames + [PendingFrame(page, start, length, orbit)];
    }

    /** The first pieces of the pending frame are at the start of the block. */
    ghost predicate CopiedUpTo(block: Region, i: nat, newIx: nat)
      requires FramesInPages(pages, pendingFrames) && i <= |pendingFrames|
      reads this`pendingFrames, copies`memory
    {
      && IsIn(copies.memory, block) && newIx <= block.length && newIx == TotalLength(pendingFrames[..i])
      && Read(copies.memory, block)[..newIx] == FramesBytes(pages, pendingFrames[..i])
    }

    method CopyPiece(block: Region, i: nat, newIx: nat) returns (next: nat)
      requires FramesInPages(pages, pendingFrames) && i < |pendingFrames| && CopiedUpTo(block, i, newIx)
      requires copies.Valid() && copies.given != [] && block == copies.given[|copies.given| - 1]
               && block.length == TotalLength(pendingFrames)
      modifies copies`memory
      ensures copies.Valid() && copies.memory.Keys == old(copies.memory.Keys) && CopiedUpTo(block, i + 1, next)
      ensures AreKept(old(copies.memory), copies.memory, copies.given[..|copies.given| - 1])
    {
      assert block in copies.given;
      hide Read, ParentBlock.Valid, AreKept, FramesBytes, TotalLength, FramesInPages;
      var f := pendingFrames[i];
      NextPiece(pages, pendingFrames, i);
      copies.CopyToLast(block, newIx, pages[f.page][f.start..f.start + f.length]);
      next := newIx + f.length;
    }

    /** Copies the pending frames to a block, one behind the other. */
    method CopyPendingFrames(block: Region)
      requires FramesInPages(pages, pendingFrames) && copies.Valid()
      requires copies.given != [] && block == copies.given[|copies.given| - 1]
               && block.length == TotalLength(pendingFrames)
      modifies copies`memory
      ensures copies.Valid() && copies.memory.Keys == old(copies.memory.Keys)
      ensures Read(copies.memory, block) == FramesBytes(pages, pendingFrames)
      ensures AreKept(old(copies.memory), copies.memory, copies.given[..|copies.given| - 1])
    {
      assert block in copies.given && IsIn(copies.memory, block);
      copies.NothingWritten();
      ghost var others := copies.given[..|copies.given| - 1];
      assert AreKept(copies.memory, copies.memory, others);
      assert pendingFrames[..|pendingFrames|] == pendingFrames;
      hide CopyAllocator.Valid, ParentBlock.Valid, AreKept;
      var newIx := 0;
      for i := 0 to |pendingFrames|
        invariant copies.Valid() && copies.memory.Keys == old(copies.memory.Keys)
        invariant CopiedUpTo(block, i, newIx) && AreKept(old(copies.memory), copies.memory, others)
      {
        ghost var between := copies.memory;
        newIx := CopyPiece(block, i, newIx);
        KeptTwice(old(copies.memory), between, copies.memory, others, others);
      }
    }

    /** Whether the pending frame is one which needs a copy. */
    lemma RoomForPending()
      requires Valid() && pendingFrames != []
      ensures var frames := Sent() + [FramesBytes(pages, pendingFrames)];
              RoomFor(frames) == if |pendingFrames| == 1 then Some(copies.RoomNow())
                                 else RoomAfterCopy(copies.pageSize, copies.packed, copies.RoomNow(),
                                                    TotalLength(pendingFrames))
    {
      hide PageStart, AreKept, IsSplit, RoomAfter, RoomAfterCopy;
      var frames := Sent() + [FramesBytes(pages, pendingFrames)];
      assert frames[..|frames| - 1] == Sent();
      TotalIsSize(pages, pendingFrames);
      RoomAfterNext(pages, Sent(), FramesBytes(pages, pendingFrames), copies.pageSize, copies.packed, room);
      if |pendingFrames| == 1 {
        assert pendingFrames[..0] == [];
        OnePieceIsNotSplit(pages, frames, pendingFrames[0]);
      } else {
        PiecesAreSplit(pages, frames, pendingFrames);
      }
    }

    /** Queues a part which holds the pending frames. */
    method AddPart(part: Part, length: nat)
      requires PartsInPages(pages, copies.memory, parts) && PartInPages(pages, copies.memory, part)
      requires fmqSize == |Flatten(Sent())| && length == |PartBytes(pages, copies.memory, part)|
      modifies this`parts, this`fmqSize, this`pendingFrames
      ensures PartsInPages(pages, copies.memory, parts) && fmqSize == |Flatten(Sent())| == old(fmqSize) + length
      ensures Sent() == old(Sent()) + [PartBytes(pages, copies.memory, part)] && parts == old(parts) + [part]
      ensures Blocks(parts) == Blocks(old(parts)) + if part.Repacked? then [part.block] else []
      ensures pendingFrames == [] && FramesInPages(pages, pendingFrames) && PiecesFollow(pages, pendingFrames, fmqSize)
    {
      hide PartsInPages, PartsBytes, PartBytes, PartInPages, Flatten, Blocks;
      PartIsAdded(pages, copies.memory, parts, part);
      parts := parts + [part];
      fmqSize := fmqSize + length;
      pendingFrames := [];
    }

    /** Sends a single pending frame in place, without copy. */
    method SendInPlace()
      requires Valid() && |pendingFrames| == 1
      modifies this
      ensures Valid() && pendingFrames == [] && |parts| == |old(parts)| + 1 && parts[|old(parts)|].InPlace?
      ensures Sent() == old(Sent()) + [FramesBytes(pages, old(pendingFrames))]
      ensures fmqSize == old(fmqSize) + TotalLength(old(pendingFrames))
    {
      hide CopyAllocator.Valid, ParentBlock.Valid, PageStart, AreKept, IsSplit, RoomAfter, PartsInPages, PartsBytes,
           Flatten, IsIn, Read, PagesSize, Blocks, PiecesFollow, FramesInPages, FramesBytes, TotalLength, PartInPages,
           PartBytes;
      var f := pendingFrames[0];
      RoomForPending();
      OnePiece(pages, copies.memory, pendingFrames);
      AddPart(InPlace(f.page, f.start, f.length), f.length);
      assert Blocks(parts) == Blocks(old(parts));
    }

    method PendingSize() returns (totalSize: nat)
      ensures totalSize == TotalLength(pendingFrames)
    {
      totalSize := 0;
      for i := 0 to |pendingFrames|
        invariant totalSize == TotalLength(pendingFrames[..i])
      {
        totalSize := totalSize + pendingFrames[i].length;
        assert pendingFrames[..i + 1][..i] == pendingFrames[..i];
      }
      assert pendingFrames[..|pendingFrames|] == pendingFrames;
    }

    /** Finds a block and copies the pending frames to it. Neither changes the bytes of a part sent before. */
    method MakeCopy(size: nat) returns (block: Option<Region>, isNewBlock: bool)
      requires Valid() && size == TotalLength(pendingFrames) <= copies.pageSize
      modifies copies, copies.copyBlockBuffer
      ensures Sound() && copies.KeepsBuffer()
      ensures var after := RoomAfterCopy(copies.pageSize, copies.packed, old(copies.RoomNow()), size);
              (block.Some? <==> after.Some?) && (block.Some? ==> copies.RoomNow() == after.value)
      ensures block.Some? ==> |copies.pool| == |old(copies.pool)| - if isNewBlock then 1 else 0
      ensures copies.given == old(copies.given) + if block.Some? then [block.value] else []
      ensures block.Some? ==>
              IsIn(copies.memory, block.value)
              && Read(copies.memory, block.value) == FramesBytes(pages, pendingFrames) && block.value.length == size
      ensures PartsInPages(pages, copies.memory, parts) && Sent() == old(Sent())
      ensures copies.packed && block.Some? ==>
                IsPlaced(LastCopy(), block.value, copies.pageSize) && copies.IsOpenBehind(block)
    {
      hide IsIn, Read, AreKept, PartsInPages, PartsBytes, RoomAfter, PiecesFollow, Flatten, RoomAfterCopy, FramesBytes;
      block, isNewBlock := copies.GetCopyBlock(size, LastCopy());
      ghost var between := copies.memory;
      if block.Some? {
        CopyPendingFrames(block.value);
        assert copies.given[..|copies.given| - 1] == old(copies.given);
        KeptTwice(old(copies.memory), between, copies.memory, old(copies.given), old(copies.given));
      }
      KeptTwice(memory, old(copies.memory), copies.memory, base, old(copies.given));
      PartsAreKept(pages, old(copies.memory), copies.memory, parts, old(copies.given));
    }

    /** Copies several pending frames to a block of their own, apart from all blocks given before. */
    method SendRepacked() returns (ok: bool)
      requires Valid() && |pendingFrames| > 1
      modifies this, copies, copies.copyBlockBuffer
      ensures Sound() && copies.KeepsBuffer()
      ensures ok <==> RoomAfterCopy(copies.pageSize, copies.packed, old(copies.RoomNow()),
                                    TotalLength(old(pendingFrames))).Some?
      ensures !ok ==> parts == old(parts) && pendingFrames == old(pendingFrames)
      ensures ok ==> Valid() && pendingFrames == [] && |parts| == |old(parts)| + 1 && parts[|old(parts)|].Repacked?
      ensures ok ==> Sent() == old(Sent()) + [FramesBytes(pages, old(pendingFrames))]
      ensures ok ==> fmqSize == old(fmqSize) + TotalLength(old(pendingFrames))
    {
      hide PageStart, AreKept, IsSplit, RoomAfter, PartsInPages, PartsBytes, Flatten, FramesBytes, TotalLength, IsIn,
           Read, RoomAfterCopy, PagesSize, Blocks, PiecesFollow, FramesInPages, CopyAllocator.Valid, ParentBlock.Valid;
      var totalSize := PendingSize();
      CopyUsesRoom(copies.pageSize, copies.packed, copies.RoomNow(), totalSize);
      if copies.pageSize < totalSize {
        return false;
      }
      RoomForPending();
      var block, isNewBlock := MakeCopy(totalSize);
      if block.None? {
        return false;
      }
      OnePageMore(copies.pageSize, room.pages - |old(copies.pool)|);
      if isNewBlock {
        memorySize := memorySize + copies.pageSize;
      }
      if copies.packed { PackedSnoc(Blocks(parts), block.value, copies.pageSize); }
      AddPart(Repacked(block.value), totalSize);
      ok := true;
    }

    /**
     Turns the pending frames in one message part: in place when there is a single one, repacked otherwise.
     Fails exactly when a copy is needed and there is no room for it.
     */
    method PendingFramesCollect() returns (ok: bool)
      requires Valid()
      modifies this, copies, copies.copyBlockBuffer
      ensures Sound() && copies.KeepsBuffer()
      ensures pendingFrames == if ok then [] else old(pendingFrames)
      ensures ok <==> |old(pendingFrames)| <= 1 ||
                      RoomAfterCopy(copies.pageSize, copies.packed, old(copies.RoomNow()),
                                    TotalLength(old(pendingFrames))).Some?
      ensures !ok ==> parts == old(parts) && RoomFor(old(Sent()) + [FramesBytes(pages, old(pendingFrames))]).None?
      ensures ok ==> Valid() && fmqSize == old(fmqSize) + TotalLength(old(pendingFrames))
      ensures ok && old(pendingFrames) == [] ==> parts == old(parts) && Sent() == old(Sent())
      ensures ok && old(pendingFrames) != [] ==>
        && |parts| == |old(parts)| + 1
        && Sent() == old(Sent()) + [FramesBytes(pages, old(pendingFrames))]
        && (parts[|old(parts)|].InPlace? <==> |old(pendingFrames)| == 1)
    {
      hide CopyAllocator.Valid, ParentBlock.Valid, RoomAfter, RoomAfterCopy, PiecesFollow, Read, IsIn, AreKept,
           PartsBytes, Flatten;
      ok := true;
      if |pendingFrames| == 1 {
        SendInPlace();
      } else if |pendingFrames| > 1 {
        RoomForPending();
        ok := SendRepacked();
      }
    }

    /** The chunks read so far, seen through the parts already cut, the pending frames and the open stretch `tail`. */
    ghost predicate Tracks(consumed: seq<Chunk>, tail: Bytes)
      reads this, copies
    {
      && FramesInPages(pages, pendingFrames)
      && PartsInPages(pages, copies.memory, parts)
      && if consumed == [] then parts == [] && pendingFrames == [] && tail == []
         else Frames(consumed) == Sent() + [FramesBytes(pages, pendingFrames) + tail]
    }

    /** Sends everything read so far: `consumed` has no open frame any more. */
    ghost predicate Closed(consumed: seq<Chunk>)
      reads this, copies
    {
      pendingFrames == [] && PartsInPages(pages, copies.memory, parts) && Sent() == Frames(consumed)
    }

    /** There is no room for some frames before the last one, so that reading on cannot help. */
    ghost predicate NoRoomBefore(cs: seq<Chunk>) {
      cs != [] && Frames(cs) != [] && RoomFor(Frames(cs)[..|Frames(cs)| - 1]).None?
    }

    lemma NoRoomReadingOn(consumed: seq<Chunk>, rest: seq<Chunk>)
      requires NoRoomBefore(consumed)
      ensures NoRoomBefore(consumed + rest) && RoomFor(Frames(consumed + rest)).None?
    {
      hide RoomAfter, Frames;
      var some, all := Frames(consumed), Frames(consumed + rest);
      FramesGrow(consumed, rest);
      assert all[..|all| - 1][..|some| - 1] == some[..|some| - 1];
      NoRoomForMore(pages, all[..|all| - 1], |some| - 1, copies.pageSize, copies.packed, room);
      NoRoomForMore(pages, all, |all| - 1, copies.pageSize, copies.packed, room);
    }

    /** A chunk of the same orbit extends the open frame. */
    lemma ExtendFrame(consumed: seq<Chunk>, tail: Bytes, c: Chunk)
      requires Tracks(consumed, tail) && LastOrbit(consumed) == c.orbit
      ensures Tracks(consumed + [c], tail + c.bytes)
    {
      FramesSnoc(consumed, c);
      var sent, pending := Sent(), FramesBytes(pages, pendingFrames);
      assert pending + (tail + c.bytes) == (pending + tail) + c.bytes;
      if consumed == [] {
        assert sent == [] && pending + tail == [] && (pending + tail) + c.bytes == c.bytes;
      } else {
        assert Frames(consumed)[..|Frames(consumed)| - 1] == sent;
      }
      assert Frames(consumed + [c]) == sent + [(pending + tail) + c.bytes];
    }

    /** A chunk of another orbit opens a frame. */
    lemma OpenFrame(consumed: seq<Chunk>, c: Chunk)
      requires Closed(consumed) && (consumed == [] || LastOrbit(consumed) != c.orbit)
      ensures Tracks(consumed + [c], c.bytes)
    {
      FramesSnoc(consumed, c);
      assert FramesBytes(pages, pendingFrames) + c.bytes == c.bytes;
    }

    /** A chunk of another orbit comes when the frame in front of it cannot be sent. */
    lemma NoRoomForFrame(consumed: seq<Chunk>, c: Chunk)
      requires consumed != [] && LastOrbit(consumed) != c.orbit && RoomFor(Frames(consumed)).None?
      ensures NoRoomBefore(consumed + [c])
    {
      FramesSnoc(consumed, c);
      assert Frames(consumed + [c])[..|Frames(consumed)|] == Frames(consumed);
    }

    method ClosePending(ghost consumed: seq<Chunk>) returns (ok: bool)
      requires Valid() && Tracks(consumed, []) && NoEmptyChunk(consumed)
      modifies this, copies, copies.copyBlockBuffer
      ensures Sound() && copies.KeepsBuffer()
      ensures ok ==> Valid() && Closed(consumed) && fmqSize == old(fmqSize) + TotalLength(old(pendingFrames))
      ensures !ok ==> consumed != [] && RoomFor(Frames(consumed)).None?
    {
      hide CopyAllocator.Valid, ParentBlock.Valid, RoomAfter, RoomAfterCopy, PiecesFollow, Read, IsIn, AreKept, Flatten;
      if consumed != [] {
        PendingIsLastFrame(consumed);
      }
      ok := PendingFramesCollect();
    }

    lemma PendingIsLastFrame(consumed: seq<Chunk>)
      requires Tracks(consumed, []) && NoEmptyChunk(consumed) && consumed != []
      ensures pendingFrames != [] && Frames(consumed) == Sent() + [FramesBytes(pages, pendingFrames)]
    {
      FramesConserveBytes(consumed);
      var pending := FramesBytes(pages, pendingFrames);
      assert pending + [] == pending;
      assert Frames(consumed)[|parts|] == pending;
    }

    /** Keeps a piece of a page for later, as the frame it belongs to may go on. */
    method KeepPiece(p: nat, start: nat, end: nat, orbit: nat, ghost consumed: seq<Chunk>)
      requires Valid() && IsAt(p, start) && start <= end <= |pages[p]| && Tracks(consumed, pages[p][start..end])
      modifies this`pendingFrames
      ensures Valid() && Tracks(consumed, [])
      ensures PageStart(pages, p) + end == fmqSize + TotalLength(pendingFrames)
      ensures pendingFrames != [] ==> pendingFrames[|pendingFrames| - 1].page <= p
    {
      hide CopyAllocator.Valid, ParentBlock.Valid, RoomAfter, RoomAfterCopy, PiecesFollow, Read, IsIn, AreKept,
           PartsBytes, Flatten, PageStart;
      ghost var pending, piece := FramesBytes(pages, pendingFrames), pages[p][start..end];
      if start < end {
        PendingFramesAppend(p, start, end - start, orbit);
      }
      assert FramesBytes(pages, pendingFrames) + [] == pending + piece;
    }

    /** Sends the frame which ends at `end`. */
    method CloseFrame(p: nat, start: nat, end: nat, orbit: nat, ghost consumed: seq<Chunk>) returns (ok: bool)
      requires Valid() && IsAt(p, start) && start <= end <= |pages[p]| && Tracks(consumed, pages[p][start..end])
      requires NoEmptyChunk(consumed)
      modifies this, copies, copies.copyBlockBuffer
      ensures Sound() && copies.KeepsBuffer()
      ensures ok ==> Valid() && Closed(consumed) && IsAt(p, end)
      ensures !ok ==> consumed != [] && RoomFor(Frames(consumed)).None?
    {
      hide CopyAllocator.Valid, ParentBlock.Valid, RoomAfter, RoomAfterCopy, PiecesFollow, Read, IsIn, AreKept,
           PartsBytes, Flatten, PageStart;
      KeepPiece(p, start, end, orbit, consumed);
      ok := ClosePending(consumed);
    }

    /**
     Handles the header at `offset`: a change of orbit closes the frame which started at HBstart and opens another.
     */
    method ReadHeader(p: nat, HBstart: nat, offset: nat, lastHBid: nat, ghost consumed: seq<Chunk>, ghost c: Chunk)
      returns (ok: bool, newHBstart: nat, newLastHBid: nat)
      requires Valid() && IsAt(p, HBstart) && HBstart <= offset && Fits(pages[p], offset) && NoEmptyChunk(consumed)
      requires Tracks(consumed, pages[p][HBstart..offset]) && lastHBid == LastOrbit(consumed)
      requires c == Chunk(HeartbeatOrbit(pages[p], offset), pages[p][offset..NextOffset(pages[p], offset)])
      modifies this, copies, copies.copyBlockBuffer
      ensures Sound() && copies.KeepsBuffer()
      ensures ok ==> Valid() && IsAt(p, newHBstart) && newHBstart <= offset && newLastHBid == c.orbit
      ensures ok ==> Tracks(consumed + [c], pages[p][newHBstart..NextOffset(pages[p], offset)])
      ensures !ok ==> NoRoomBefore(consumed + [c])
    {
      hide CopyAllocator.Valid, ParentBlock.Valid, RoomAfter, RoomAfterCopy, PiecesFollow, Read, IsIn, AreKept,
           PartsBytes, Flatten, PageStart;
      hide HeartbeatOrbit, OffsetNextPacket, Frames, FramesBytes, PartsInPages, FramesInPages, PagesSize, TotalLength;
      ok, newHBstart, newLastHBid := true, HBstart, lastHBid;
      var orbit := HeartbeatOrbit(pages[p], offset);
      if orbit != lastHBid {
        ok := CloseFrame(p, HBstart, offset, lastHBid, consumed);
        if !ok {
          NoRoomForFrame(consumed, c);
          return;
        }
        newHBstart, newLastHBid := offset, orbit;
        OpenFrame(consumed, c);
      } else {
        ExtendFrame(consumed, pages[p][HBstart..offset], c);
        assert pages[p][HBstart..offset] + c.bytes == pages[p][HBstart..NextOffset(pages[p], offset)];
      }
    }

    /** Scans one page; its last piece stays pending. */
    method FormatPage(p: nat, ghost before: seq<Chunk>, lastHBid: nat) returns (ok: bool, newLastHBid: nat)
      requires Valid() && IsAt(p, 0) && Tracks(before, []) && lastHBid == LastOrbit(before)
      requires NoEmptyChunk(before)
      modifies this, copies, copies.copyBlockBuffer
      ensures Sound() && copies.KeepsBuffer()
      ensures var all := before + ChunksFrom(pages[p], 0, LastOrbit(before));
              if ok then Valid() && Tracks(all, []) && newLastHBid == LastOrbit(all) else NoRoomBefore(all)
      ensures ok ==> PageStart(pages, p) + |pages[p]| == fmqSize + TotalLength(pendingFrames)
      ensures ok && pendingFrames != [] ==> pendingFrames[|pendingFrames| - 1].page <= p
    {
      hide HeartbeatOrbit, ChunksFrom, Frames, OrbitAt, LastOrbit;
      hide CopyAllocator.Valid, ParentBlock.Valid, RoomAfter, RoomAfterCopy, PiecesFollow, Read, IsIn, AreKept,
           PartsBytes, Flatten, PageStart;
      var d := pages[p];
      newLastHBid := lastHBid;
      var HBstart: nat, offset: nat := 0, 0;
      ghost var all := before + ChunksFrom(d, 0, LastOrbit(before));
      ghost var consumed, done: nat := before, 0;
      while offset + RDH_SIZE <= |d|
        invariant Valid() && IsAt(p, HBstart) && HBstart <= done <= |d| && offset >= done
                  && (offset > done ==> done == |d|)
        invariant copies.KeepsBuffer()
        invariant all == consumed + ChunksFrom(d, done, LastOrbit(consumed)) && NoEmptyChunk(consumed)
        invariant Tracks(consumed, d[HBstart..done]) && newLastHBid == LastOrbit(consumed)
        decreases |d| - done
      {
        ghost var c := Chunk(HeartbeatOrbit(d, offset), d[offset..NextOffset(d, offset)]);
        ok, HBstart, newLastHBid := ReadHeader(p, HBstart, offset, newLastHBid, consumed, c);
        ConsumeChunk(d, offset, consumed, c);
        consumed, done := consumed + [c], NextOffset(d, offset);
        if !ok {
          NoRoomReadingOn(consumed, ChunksFrom(d, done, LastOrbit(consumed)));
          return;
        }
        var offsetNextPacket := OffsetNextPacket(d, offset);
        if offsetNextPacket == 0 {
          break;
        }
        offset := offset + offsetNextPacket;
      }
      ReadTrailingBytes(p, HBstart, done, consumed, all);
      KeepPiece(p, HBstart, |d|, newLastHBid, all);
      ok := true;
    }

    /** Bytes behind the last header go with the open frame. */
    lemma ReadTrailingBytes(p: nat, HBstart: nat, done: nat, consumed: seq<Chunk>, all: seq<Chunk>)
      requires p < |pages| && HBstart <= done <= |pages[p]| && !Fits(pages[p], done)
      requires Tracks(consumed, pages[p][HBstart..done])
      requires all == consumed + ChunksFrom(pages[p], done, LastOrbit(consumed))
      ensures Tracks(all, pages[p][HBstart..|pages[p]|]) && LastOrbit(all) == LastOrbit(consumed)
    {
      var d := pages[p];
      if done < |d| {
        var c := Chunk(LastOrbit(consumed), d[done..]);
        assert d[done..|d|] == d[done..];
        assert ChunksFrom(d, done, LastOrbit(consumed)) == [c];
        ExtendFrame(consumed, d[HBstart..done], c);
        assert d[HBstart..done] + c.bytes == d[HBstart..|d|];
      } else {
        assert all == consumed;
      }
    }

    method FormatNextPage(p: nat, lastHBid: nat) returns (ok: bool, newLastHBid: nat)
      requires Valid() && IsAt(p, 0) && Tracks(Chunks(pages[..p]), []) && lastHBid == LastOrbit(Chunks(pages[..p]))
      modifies this, copies, copies.copyBlockBuffer
      ensures Sound() && copies.KeepsBuffer()
      ensures ok ==> Valid() && Tracks(Chunks(pages[..p + 1]), []) && newLastHBid == LastOrbit(Chunks(pages[..p + 1]))
      ensures ok && p + 1 < |pages| ==> IsAt(p + 1, 0)
      ensures !ok ==> RoomFor(Frames(Chunks(pages))).None?
    {
      hide ChunksFrom, Frames, LastOrbit, NoEmptyChunk;
      hide CopyAllocator.Valid, ParentBlock.Valid, RoomAfter, RoomAfterCopy, PiecesFollow, Read, IsIn, AreKept,
           PartsBytes;
      ChunksConserveBytes(pages[..p]);
      ok, newLastHBid := FormatPage(p, Chunks(pages[..p]), lastHBid);
      assert pages[..p + 1] == pages[..p] + [pages[p]];
      ChunksSnoc(pages[..p], pages[p]);
      FlattenSnoc(pages[..p], pages[p]);
      if !ok {
        NoRoomLater(p + 1);
      }
    }

    lemma NoRoomLater(p: nat)
      requires p <= |pages| && NoRoomBefore(Chunks(pages[..p]))
      ensures RoomFor(Frames(Chunks(pages))).None?
      decreases |pages| - p
    {
      hide RoomAfter, Frames, Flatten, Chunks, ChunksFrom;
      if p == |pages| {
        assert pages[..p] == pages;
        NoRoomReadingOn(Chunks(pages), []);
        assert Chunks(pages) + [] == Chunks(pages);
      } else {
        assert pages[..p + 1] == pages[..p] + [pages[p]];
        ChunksSnoc(pages[..p], pages[p]);
        NoRoomReadingOn(Chunks(pages[..p]), ChunksFrom(pages[p], 0, LastOrbit(Chunks(pages[..p]))));
        NoRoomLater(p + 1);
      }
    }

    /** Reads all the pages, then purges the pending frames. */
    method FormatPages() returns (ok: bool)
      requires Valid() && parts == [] && pendingFrames == []
      modifies this, copies, copies.copyBlockBuffer
      ensures Sound()
      ensures ok ==> Valid() && Closed(Chunks(pages))
      ensures !ok ==> RoomFor(Frames(Chunks(pages))).None?
    {
      hide ChunksFrom, Frames, LastOrbit, NoEmptyChunk;
      hide CopyAllocator.Valid, ParentBlock.Valid, RoomAfter, RoomAfterCopy, PiecesFollow, Read, IsIn, AreKept;
      var lastHBid := NO_ORBIT;
      assert Chunks(pages[..0]) == [];
      NoChunksYet();
      for p := 0 to |pages|
        invariant Valid() && Tracks(Chunks(pages[..p]), []) && lastHBid == LastOrbit(Chunks(pages[..p]))
        invariant p < |pages| ==> IsAt(p, 0)
        invariant copies.KeepsBuffer()
      {
        ok, lastHBid := FormatNextPage(p, lastHBid);
        if !ok {
          return;
        }
      }
      assert pages[..|pages|] == pages;
      ChunksConserveBytes(pages);
      ok := ClosePending(Chunks(pages));
    }

    lemma NoChunksYet()
      ensures LastOrbit([]) == NO_ORBIT
    {
    }

    /**
     The body of a data-distribution message: one part per heartbeat frame across page boundaries. On error the message
     is emptied; that happens exactly when there is no room to copy the frames which lie in several pages. The copies
     hold the frames in the end: no copy is written over by a later one, nor are blocks which were given before.
     */
    method Format() returns (ok: bool)
      requires Valid() && parts == [] && pendingFrames == []
      modifies this, copies, copies.copyBlockBuffer
      ensures Sound() && pendingFrames == []
      ensures ok <==> RoomFor(Frames(Chunks(pages))).Some?
      ensures ok ==> Valid() && Sent() == Frames(Chunks(pages)) && fmqSize == |Flatten(pages)|
      ensures ok ==> CopiesAreApart(parts) && (copies.packed ==> ArePacked(Blocks(parts), copies.pageSize))
      ensures !ok ==> parts == []
    {
      hide ChunksFrom, Frames, LastOrbit, NoEmptyChunk, Chunks;
      hide ParentBlock.Valid, RoomAfter, RoomAfterCopy, PiecesFollow, Read, IsIn, AreKept;
      ok := FormatPages();
      if ok {
        ChunksConserveBytes(pages);
        FramesConserveBytes(Chunks(pages));
        BlocksAreApart(parts, base);
      } else {
        parts, pendingFrames := [], [];
      }
    }
  }

  /** What a formatted message holds, whatever the pages: the payload cut at the changes of orbit, and nothing else. */
  lemma MessageIsHbfSplit(pages: seq<Bytes>, memory: Memory, parts: seq<Part>)
    requires PartsInPages(pages, memory, parts) && PartsBytes(pages, memory, parts) == Frames(Chunks(pages))
    ensures Flatten(PartsBytes(pages, memory, parts)) == Flatten(pages)
    ensures forall i :: 0 <= i < |parts| ==> PartBytes(pages, memory, parts[i]) != []
    ensures forall runs :: IsMaximalRuns(SameOrbit, Chunks(pages), runs) ==>
              PartsBytes(pages, memory, parts) == RunsBytes(runs)
  {
    ChunksConserveBytes(pages);
    FramesConserveBytes(Chunks(pages));
    forall i | 0 <= i < |parts|
      ensures PartBytes(pages, memory, parts[i]) != []
    {
      assert PartBytes(pages, memory, parts[i]) == Frames(Chunks(pages))[i];
    }
    forall runs | IsMaximalRuns(SameOrbit, Chunks(pages), runs)
      ensures PartsBytes(pages, memory, parts) == RunsBytes(runs)
    {
      FramesAreMaximalRuns(Chunks(pages), runs);
    }
  }

  /** Reading on adds to the last frame, and other frames. */
  lemma {:induction false} FramesGrow(a: seq<Chunk>, b: seq<Chunk>)
    requires a != []
    ensures 0 < |Frames(a)| <= |Frames(a + b)| && Frames(a + b)[..|Frames(a)| - 1] == Frames(a)[..|Frames(a)| - 1]
  {
    FramesNonEmpty(a);
    if b == [] {
      assert a + b == a;
    } else {
      var init, c := b[..|b| - 1], b[|b| - 1];
      assert a + b == (a + init) + [c];
      FramesGrow(a, init);
      FramesSnoc(a + init, c);
    }
  }

  lemma {:induction false} TotalIsSize(pages: seq<Bytes>, fs: seq<PendingFrame>)
    requires FramesInPages(pages, fs)
    ensures TotalLength(fs) == |FramesBytes(pages, fs)|
  {
    if fs != [] {
      TotalIsSize(pages, fs[..|fs| - 1]);
      assert |FrameBytes(pages, fs[|fs| - 1])| == fs[|fs| - 1].length;
    }
  }
}
