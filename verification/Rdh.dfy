/** The Raw Data Header (RDHv6) at the front of every packet, decoded from the bytes of a data page. */
module Rdh {

  type Byte = x: int | 0 <= x < 0x100
  type Bytes = seq<Byte>

  /** sizeof(o2::Header::RAWDataHeader) */
  const RDH_SIZE: nat := 64
  const MAX_LINK_ID: nat := 31
  const TWO_TO_16: nat := 0x1_0000
  const TWO_TO_32: nat := 0x1_0000_0000

  /** The value -1 of the unsigned orbit variable, before any header was read. */
  const NO_ORBIT: nat := 0xFFFF_FFFF

  /** A little-endian 16-bit word. */
  function U16(d: Bytes, i: nat): (r: nat)
    requires i + 2 <= |d|
    ensures r < TWO_TO_16
  {
    d[i] as int + 0x100 * d[i + 1] as int
  }

  /** A little-endian 32-bit word. */
  function U32(d: Bytes, i: nat): (r: nat)
    requires i + 4 <= |d|
    ensures r < TWO_TO_32
  {
    U16(d, i) + TWO_TO_16 * U16(d, i + 2)
  }

  /** True iff a whole header fits in the page at the given offset. */
  predicate Fits(d: Bytes, off: nat) {
    off + RDH_SIZE <= |d|
  }

  function Version(d: Bytes, off: nat): nat requires Fits(d, off) { d[off] }
  function HeaderSize(d: Bytes, off: nat): nat requires Fits(d, off) { d[off + 1] }
  function OffsetNextPacket(d: Bytes, off: nat): nat requires Fits(d, off) { U16(d, off + 8) }
  function MemorySize(d: Bytes, off: nat): nat requires Fits(d, off) { U16(d, off + 10) }
  function LinkId(d: Bytes, off: nat): nat requires Fits(d, off) { d[off + 12] }
  function CruId(d: Bytes, off: nat): nat requires Fits(d, off) { U16(d, off + 14) % 0x1000 }
  function EndPointId(d: Bytes, off: nat): nat requires Fits(d, off) { U16(d, off + 14) / 0x1000 }
  function HeartbeatOrbit(d: Bytes, off: nat): (r: nat)
    requires Fits(d, off)
    ensures r < TWO_TO_32
  {
    U32(d, off + 20)
  }
  function TriggerType(d: Bytes, off: nat): nat requires Fits(d, off) { U32(d, off + 32) }
  function PagesCounter(d: Bytes, off: nat): nat requires Fits(d, off) { U16(d, off + 36) }
  function StopBit(d: Bytes, off: nat): nat requires Fits(d, off) { d[off + 38] }

  /** RdhHandle::validateRdh finds no error. */
  predicate IsValid(d: Bytes, off: nat)
    requires Fits(d, off)
  {
    && Version(d, off) in {5, 6, 7}
    && HeaderSize(d, off) == RDH_SIZE
    && LinkId(d, off) <= MAX_LINK_ID
    && (OffsetNextPacket(d, off) == 0 || OffsetNextPacket(d, off) >= RDH_SIZE)
  }

  // ----- the layout -----

  type Word = x: int | 0 <= x < TWO_TO_32

  /** The fields of a header, in the order of its sixteen 32-bit words; reserved bits are left out. */
  datatype Header = Header(version: nat, headerSize: nat, feeId: nat, priorityBit: nat, systemId: nat,
                           offsetNextPacket: nat, memorySize: nat, linkId: nat, packetCounter: nat, cruId: nat,
                           dpwId: nat, triggerBC: nat, heartbeatOrbit: nat, triggerType: nat, pagesCounter: nat,
                           stopBit: nat, detectorField: nat, par: nat)
  {
    /** Each field fits in its bits. */
    predicate IsSized() {
      && version < 0x100 && headerSize < 0x100 && feeId < TWO_TO_16 && priorityBit < 0x100 && systemId < 0x100
      && offsetNextPacket < TWO_TO_16 && memorySize < TWO_TO_16 && linkId < 0x100 && packetCounter < 0x100
      && cruId < 0x1000 && dpwId < 0x10 && triggerBC < 0x1000 && heartbeatOrbit < TWO_TO_32
      && triggerType < TWO_TO_32 && pagesCounter < TWO_TO_16 && stopBit < 0x100 && detectorField < TWO_TO_32
      && par < TWO_TO_16
    }

    function Words(): seq<Word>
      requires IsSized()
    {
      [version + 0x100 * headerSize + TWO_TO_16 * feeId,
       priorityBit + 0x100 * systemId,
       offsetNextPacket + TWO_TO_16 * memorySize,
       linkId + 0x100 * packetCounter + TWO_TO_16 * (cruId + 0x1000 * dpwId),
       triggerBC, heartbeatOrbit, 0, 0,
       triggerType, pagesCounter + TWO_TO_16 * stopBit, 0, 0,
       detectorField, par, 0, 0]
    }
  }

  /** The four bytes of a little-endian word. */
  function WordBytes(w: Word): (r: Bytes)
    ensures |r| == 4 && U32(r, 0) == w
  {
    var low, high := w % TWO_TO_16, w / TWO_TO_16;
    [low % 0x100, low / 0x100, high % 0x100, high / 0x100]
  }

  function Encoded(ws: seq<Word>): (r: Bytes)
    ensures |r| == 4 * |ws|
  {
    if ws == [] then [] else WordBytes(ws[0]) + Encoded(ws[1..])
  }

  lemma {:induction false} WordAt(ws: seq<Word>, k: nat)
    requires k < |ws|
    ensures Encoded(ws)[4 * k..4 * k + 4] == WordBytes(ws[k])
  {
    if k == 0 {
      assert Encoded(ws)[..4] == WordBytes(ws[0]);
    } else {
      WordAt(ws[1..], k - 1);
      assert Encoded(ws)[4..] == Encoded(ws[1..]);
      assert Encoded(ws)[4..][4 * (k - 1)..4 * (k - 1) + 4] == Encoded(ws)[4 * k..4 * k + 4];
    }
  }

  /** The halves of a word are the only ones. */
  lemma Halves(a: nat, b: nat, low: nat, high: nat)
    requires a + TWO_TO_16 * b == low + TWO_TO_16 * high && a < TWO_TO_16 && low < TWO_TO_16
    ensures a == low && b == high
  {
  }

  lemma SliceOfSlice(d: Bytes, off: nat, size: nat, at: nat)
    requires off + size <= |d| && at + 4 <= size
    ensures d[off..off + size][at..at + 4] == d[off + at..off + at + 4]
  {
    var a, b := d[off..off + size][at..at + 4], d[off + at..off + at + 4];
    assert a[0] == b[0] && a[1] == b[1] && a[2] == b[2] && a[3] == b[3];
  }

  lemma SameHalves(d: Bytes, i: nat, b: Bytes)
    requires i + 4 <= |d| && d[i..i + 4] == b
    ensures U16(d, i) == U16(b, 0) && U16(d, i + 2) == U16(b, 2)
  {
    assert d[i] == b[0] && d[i + 1] == b[1] && d[i + 2] == b[2] && d[i + 3] == b[3];
  }

  /** The two halves of a word are read back. */
  lemma HalfWords(ws: seq<Word>, d: Bytes, off: nat, k: nat, low: nat, high: nat)
    requires k < |ws| && off + 4 * |ws| <= |d| && d[off..off + 4 * |ws|] == Encoded(ws)
    requires ws[k] == low + TWO_TO_16 * high && low < TWO_TO_16
    ensures U16(d, off + 4 * k) == low && U16(d, off + 4 * k + 2) == high
  {
    hide WordBytes, U16, Encoded;
    WordAt(ws, k);
    var b := WordBytes(ws[k]);
    SliceOfSlice(d, off, 4 * |ws|, 4 * k);
    SameHalves(d, off + 4 * k, b);
    Halves(U16(b, 0), U16(b, 2), low, high);
  }

  /** Wherever a header lies, its fields are read back. */
  lemma FieldsAreRead(h: Header, d: Bytes, off: nat)
    requires h.IsSized() && Fits(d, off) && d[off..off + 64] == Encoded(h.Words())
    ensures Version(d, off) == h.version && HeaderSize(d, off) == h.headerSize
    ensures OffsetNextPacket(d, off) == h.offsetNextPacket && MemorySize(d, off) == h.memorySize
    ensures LinkId(d, off) == h.linkId && CruId(d, off) == h.cruId && EndPointId(d, off) == h.dpwId
    ensures HeartbeatOrbit(d, off) == h.heartbeatOrbit && TriggerType(d, off) == h.triggerType
    ensures PagesCounter(d, off) == h.pagesCounter && StopBit(d, off) == h.stopBit
    ensures IsValid(d, off) <==> 5 <= h.version <= 7 && h.headerSize == 64 && h.linkId < 32
                                 && !(0 < h.offsetNextPacket < 64)
  {
    hide Encoded;
    var ws := h.Words();
    var orbit, trigger := h.heartbeatOrbit, h.triggerType;
    HalfWords(ws, d, off, 0, h.version + 0x100 * h.headerSize, h.feeId);
    HalfWords(ws, d, off, 2, h.offsetNextPacket, h.memorySize);
    HalfWords(ws, d, off, 3, h.linkId + 0x100 * h.packetCounter, h.cruId + 0x1000 * h.dpwId);
    HalfWords(ws, d, off, 5, orbit % TWO_TO_16, orbit / TWO_TO_16);
    HalfWords(ws, d, off, 8, trigger % TWO_TO_16, trigger / TWO_TO_16);
    HalfWords(ws, d, off, 9, h.pagesCounter, h.stopBit);
  }
}
