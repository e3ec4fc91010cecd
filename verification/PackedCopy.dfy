/** Sub-allocation of the blocks in which heartbeat frames spanning several pages are repacked. */
module PackedCopy {
  import opened Rdh
  import opened Options

  /** sizeof(DataBlock): the header written in front of every child block (LP64). */
  const DATABLOCK_SIZE: nat := 216

  /** `length` payload bytes at offset `start` of a pool page. */
  datatype Region = Region(page: nat, start: nat, length: nat)

  predicate Disjoint(a: Region, b: Region) {
    a.page != b.page || a.start + a.length <= b.start || b.start + b.length <= a.start
  }

  predicate AreApart(regions: seq<Region>) {
    forall i, j :: 0 <= i < j < |regions| ==> Disjoint(regions[i], regions[j])
  }

  /** The contents of the pool pages. */
  type Memory = map<nat, Bytes>

  predicate IsIn(m: Memory, r: Region) {
    r.page in m && r.start + r.length <= |m[r.page]|
  }

  function Read(m: Memory, r: Region): (bytes: Bytes)
    requires IsIn(m, r)
    ensures |bytes| == r.length
  {
    m[r.page][r.start..r.start + r.length]
  }

  function Written(m: Memory, r: Region, bytes: Bytes): Memory
    requires IsIn(m, r) && |bytes| == r.length
  {
    m[r.page := m[r.page][..r.start] + bytes + m[r.page][r.start + r.length..]]
  }

  /** None of the regions was written over. */
  ghost predicate AreKept(m: Memory, after: Memory, regions: seq<Region>) {
    forall g :: g in regions ==> IsIn(m, g) && IsIn(after, g) && Read(after, g) == Read(m, g)
  }

  lemma KeptTwice(m: Memory, between: Memory, after: Memory, regions: seq<Region>, more: seq<Region>)
    requires AreKept(m, between, regions) && AreKept(between, after, more) && regions <= more
    ensures AreKept(m, after, regions)
  {
    assert forall g :: g in regions ==> g in more;
  }

  lemma SameSlice(a: Bytes, b: Bytes, lo: nat, hi: nat, i: nat, j: nat)
    requires lo <= i <= j <= hi <= |a| == |b| && a[lo..hi] == b[lo..hi]
    ensures a[i..j] == b[i..j]
  {
    forall k | i <= k < j
      ensures a[k] == b[k]
    {
      assert a[lo..hi][k - lo] == b[lo..hi][k - lo];
    }
  }

  lemma WriteKeepsOthers(m: Memory, r: Region, bytes: Bytes, regions: seq<Region>)
    requires IsIn(m, r) && |bytes| == r.length
    requires forall g :: g in regions ==> IsIn(m, g) && Disjoint(g, r)
    ensures Read(Written(m, r, bytes), r) == bytes && AreKept(m, Written(m, r, bytes), regions)
    ensures forall p :: p in m ==> |Written(m, r, bytes)[p]| == |m[p]|
  {
    var after := Written(m, r, bytes);
    forall g | g in regions
      ensures IsIn(after, g) && Read(after, g) == Read(m, g)
    {
      if g.page == r.page && g.start + g.length <= r.start {
        assert after[g.page][..r.start] == m[g.page][..r.start];
        SameSlice(after[g.page], m[g.page], 0, r.start, g.start, g.start + g.length);
      } else if g.page == r.page {
        var end := r.start + r.length;
        assert after[g.page][end..] == m[g.page][end..];
        SameSlice(after[g.page], m[g.page], end, |m[g.page]|, g.start, g.start + g.length);
      }
    }
  }

  /** Writing in the middle of a block leaves what is in front of it in the block, and all other blocks. */
  lemma WriteInBlock(m: Memory, block: Region, at: nat, bytes: Bytes, others: seq<Region>)
    requires IsIn(m, block) && at + |bytes| <= block.length
    requires forall g :: g in others ==> IsIn(m, g) && Disjoint(g, block)
    ensures var after := Written(m, Region(block.page, block.start + at, |bytes|), bytes);
            && after.Keys == m.Keys && (forall p :: p in m ==> |after[p]| == |m[p]|) && AreKept(m, after, others)
            && IsIn(after, block) && Read(after, block)[..at + |bytes|] == Read(m, block)[..at] + bytes
  {
    var r := Region(block.page, block.start + at, |bytes|);
    WriteKeepsOthers(m, r, bytes, others);
    var front := Region(block.page, block.start, at);
    WriteKeepsOthers(m, r, bytes, [front]);
    var after := Written(m, r, bytes);
    assert front in [front];
    ReadInTwo(after, block, at, |bytes|);
    ReadInTwo(m, block, at, |bytes|);
  }

  lemma ReadInTwo(m: Memory, block: Region, at: nat, length: nat)
    requires IsIn(m, block) && at + length <= block.length
    ensures var front, r := Region(block.page, block.start, at), Region(block.page, block.start + at, length);
            && IsIn(m, front) && IsIn(m, r)
            && Read(m, block)[..at + length] == Read(m, front) + Read(m, r) && Read(m, block)[..at] == Read(m, front)
  {
    var d, start := m[block.page], block.start;
    assert Read(m, block)[..at + length] == d[start..start + at + length];
    assert Read(m, block)[..at] == d[start..start + at];
    assert d[start..start + at + length] == d[start..start + at] + d[start + at..start + at + length];
  }

  /** What a copy can be put in: the free pages, and what is left in the page open for copies. */
  datatype Room = Room(pages: nat, left: nat)

  /** The room left by a copy, or nothing when it cannot be made. */
  function RoomAfterCopy(pageSize: nat, packed: bool, room: Room, size: nat): Option<Room> {
    if packed && size + DATABLOCK_SIZE <= room.left then Some(room.(left := room.left - size - DATABLOCK_SIZE))
    else if room.pages == 0 || pageSize < size + (if packed then DATABLOCK_SIZE else 0) then None
    else Some(Room(room.pages - 1, if packed then pageSize - size - DATABLOCK_SIZE else room.left))
  }

  /**
   The place of a copy: behind the copy before it, with its header in front, as long as it fits in the same page, and
   else at the top of another page.
   */
  predicate IsPlaced(last: Option<Region>, block: Region, pageSize: nat) {
    if last.Some? && last.value.start + last.value.length + DATABLOCK_SIZE + block.length <= pageSize then
      block.page == last.value.page && block.start == last.value.start + last.value.length + DATABLOCK_SIZE
    else
      block.start == DATABLOCK_SIZE && (last.Some? ==> block.page != last.value.page)
  }

  function Before(blocks: seq<Region>, i: nat): Option<Region>
    requires i <= |blocks|
  {
    if i == 0 then None else Some(blocks[i - 1])
  }

  /** Copies one behind the other, a new page being taken only when the one before has no room. */
  predicate ArePacked(blocks: seq<Region>, pageSize: nat) {
    forall i :: 0 <= i < |blocks| ==> IsPlaced(Before(blocks, i), blocks[i], pageSize)
  }

  lemma PackedSnoc(blocks: seq<Region>, block: Region, pageSize: nat)
    requires ArePacked(blocks, pageSize) && IsPlaced(Before(blocks, |blocks|), block, pageSize)
    ensures ArePacked(blocks + [block], pageSize)
  {
    hide IsPlaced;
    var all := blocks + [block];
    forall i | 0 <= i < |all|
      ensures IsPlaced(Before(all, i), all[i], pageSize)
    {
      assert Before(all, i) == Before(blocks, i);
    }
  }

  lemma CopyUsesRoom(pageSize: nat, packed: bool, room: Room, size: nat)
    requires room.left <= pageSize
    ensures var after := RoomAfterCopy(pageSize, packed, room, size);
            after.Some? ==>
                size <= pageSize && after.value.pages <= room.pages
                && (room.left < pageSize ==> after.value.left < pageSize)
  {
  }

  /** Bytes taken in the parent by a child of the given payload size. */
  function ChildSize(needed: nat, roundUp: nat): nat {
    var size := needed + DATABLOCK_SIZE;
    if roundUp != 0 && size % roundUp != 0 then size + roundUp - size % roundUp else size
  }

  /** A pool page from which child blocks are carved. */
  class ParentBlock {
    const page: nat
    const dataSize: nat
    var dataBufferUsed: nat
    ghost var children: seq<Region>  // payloads handed out so far

    ghost predicate Valid()
      reads this
    {
      && dataBufferUsed <= dataSize
      && (forall c :: c in children ==>
          c.page == page && DATABLOCK_SIZE <= c.start
          && c.start + c.length <= dataBufferUsed)
      && (forall i, j :: 0 <= i < j < |children| ==>
          children[i].start + children[i].length + DATABLOCK_SIZE <= children[j].start)
    }

    constructor (page: nat, dataSize: nat)
      ensures Valid() && this.page == page && this.dataSize == dataSize && dataBufferUsed == 0 && children == []
    {
      this.page, this.dataSize, dataBufferUsed, children := page, dataSize, 0, [];
    }

    /** A child is given exactly when it fits behind the previous ones; its own header lies in front of its payload. */
    method GetChildBlock(needed: nat, roundUp: nat) returns (child: Option<Region>)
      requires Valid()
      modifies this
      ensures Valid()
      ensures child.Some? <==> ChildSize(needed, roundUp) <= dataSize - old(dataBufferUsed)
      ensures child.None? ==> children == old(children) && dataBufferUsed == old(dataBufferUsed)
      ensures child.Some? ==>
                && child.value == Region(page, old(dataBufferUsed) + DATABLOCK_SIZE, needed)
                && children == old(children) + [child.value]
                && dataBufferUsed == old(dataBufferUsed) + ChildSize(needed, roundUp)
    {
      var bufferSize := needed + DATABLOCK_SIZE;
      if roundUp != 0 {
        var r := bufferSize % roundUp;
        if r != 0 {
          bufferSize := bufferSize + roundUp - r;
        }
      }
      if bufferSize > dataSize - dataBufferUsed {
        return None;
      }
      child := Some(Region(page, dataBufferUsed + DATABLOCK_SIZE, needed));
      dataBufferUsed := dataBufferUsed + bufferSize;
      children := children + [child.value];
    }
  }

  /** The pages from which copies are made while one subtimeframe is formatted, one of them kept open for copies. */
  class CopyAllocator {
    const pageSize: nat      // memoryPoolPageSize
    const packed: bool       // enablePackedCopy
    var pool: seq<nat>       // free pages
    var memory: Memory
    var copyBlockBuffer: ParentBlock?
    var pagesTaken: nat      // nPagesUsedForRepack
    ghost var given: seq<Region>  // every region handed out

    ghost predicate Valid()
      reads this, copyBlockBuffer
    {
      && (copyBlockBuffer != null ==>
            && copyBlockBuffer.Valid() && copyBlockBuffer.dataSize == pageSize
            && copyBlockBuffer.page !in pool && copyBlockBuffer.page in memory
            && (forall g :: g in given && g.page == copyBlockBuffer.page ==> g in copyBlockBuffer.children))
      && (forall p :: p in memory ==> |memory[p]| == pageSize)
      && (forall p :: p in pool ==> p in memory)
      && (forall g :: g in given ==> g.page !in pool && IsIn(memory, g))
      && (forall i, j :: 0 <= i < j < |pool| ==> pool[i] != pool[j])
      && AreApart(given)
    }

    ghost function RoomNow(): Room
      reads this, copyBlockBuffer
      requires Valid()
    {
      Room(|pool|, if copyBlockBuffer == null then 0 else pageSize - copyBlockBuffer.dataBufferUsed)
    }

    /** The open page ends behind the given block, if any. */
    ghost predicate IsOpenBehind(last: Option<Region>)
      reads this`copyBlockBuffer, this`given, copyBlockBuffer
    {
      match last
      case None => copyBlockBuffer == null
      case Some(b) =>
        && b in given && copyBlockBuffer != null && copyBlockBuffer.page == b.page
        && copyBlockBuffer.dataBufferUsed == b.start + b.length
    }

    lemma LastIsTaken(last: Option<Region>)
      requires Valid() && IsOpenBehind(last)
      ensures last.Some? ==> last.value.page !in pool && last.value.start >= DATABLOCK_SIZE
    {
    }

    /** The page open for copies is still the same, or one newly opened. */
    twostate predicate KeepsBuffer()
      reads this`copyBlockBuffer
    {
      copyBlockBuffer == null || copyBlockBuffer == old(copyBlockBuffer) || fresh(copyBlockBuffer)
    }

    constructor (pageSize: nat, packed: bool, memory: Memory, pool: seq<nat>)
      requires forall i, j :: 0 <= i < j < |pool| ==> pool[i] != pool[j]
      requires forall p :: p in memory ==> |memory[p]| == pageSize
      requires forall p :: p in pool ==> p in memory
      ensures Valid() && this.pageSize == pageSize && this.packed == packed && this.pool == pool
              && this.memory == memory
      ensures copyBlockBuffer == null && given == [] && pagesTaken == 0
    {
      this.pageSize, this.packed, this.memory, this.pool := pageSize, packed, memory, pool;
      copyBlockBuffer, given, pagesTaken := null, [], 0;
    }

    /** A page of its own for a block. */
    method TakeBlock(size: nat) returns (block: Option<Region>)
      requires Valid() && size <= pageSize
      modifies this`pool, this`given
      ensures Valid()
      ensures pool == if old(pool) == [] then [] else old(pool)[1..]
      ensures block == if old(pool) == [] then None else Some(Region(old(pool)[0], 0, size))
      ensures given == old(given) + if block.Some? then [block.value] else []
    {
      if pool == [] { return None; }
      block := Some(Region(pool[0], 0, size));
      pool := pool[1..];
      given := given + [block.value];
    }

    /** Opens a fresh page for copies, if the pool can supply one. */
    method OpenPage()
      requires Valid() && copyBlockBuffer == null
      modifies this`pool, this`copyBlockBuffer, this`pagesTaken
      ensures Valid()
      ensures copyBlockBuffer != null <==> old(pool) != []
      ensures copyBlockBuffer != null ==> fresh(copyBlockBuffer) && copyBlockBuffer.dataBufferUsed == 0
      ensures copyBlockBuffer != null ==> copyBlockBuffer.page == old(pool)[0]
      ensures pool == if old(pool) == [] then [] else old(pool)[1..]
      ensures pagesTaken == old(pagesTaken) + 1
    {
      if pool != [] {
        copyBlockBuffer := new ParentBlock(pool[0], pageSize);
        pool := pool[1..];
      }
      pagesTaken := pagesTaken + 1;
    }

    /** Closes the page open for copies: blocks carved out of it keep it, but without any it goes back to the pool. */
    method ClosePage()
      requires Valid()
      modifies this`pool, this`copyBlockBuffer
      ensures Valid() && copyBlockBuffer == null
      ensures pool == old(pool) +
              if old(copyBlockBuffer != null && copyBlockBuffer.dataBufferUsed == 0) then [old(copyBlockBuffer.page)]
                 else []
    {
      if copyBlockBuffer != null && copyBlockBuffer.dataBufferUsed == 0 {
        pool := pool + [copyBlockBuffer.page];
      }
      copyBlockBuffer := null;
    }

    /** Carves a block out of the open page, and writes a header in front of it; without room the page is closed. */
    method SubAllocate(size: nat) returns (block: Option<Region>)
      requires Valid() && copyBlockBuffer != null
      modifies this`pool, this`memory, this`copyBlockBuffer, this`given, copyBlockBuffer
      ensures Valid() && memory.Keys == old(memory.Keys) && AreKept(old(memory), memory, old(given))
      ensures block.Some? <==> size + DATABLOCK_SIZE <= old(RoomNow()).left
      ensures block.None? ==> memory == old(memory)
      ensures block.Some? ==>
        && copyBlockBuffer == old(copyBlockBuffer) && pool == old(pool) && block.value.length == size
        && copyBlockBuffer.dataBufferUsed == old(copyBlockBuffer.dataBufferUsed) + size + DATABLOCK_SIZE
        && block.value.page == copyBlockBuffer.page
        && block.value.start == old(copyBlockBuffer.dataBufferUsed) + DATABLOCK_SIZE
      ensures block.None? ==> copyBlockBuffer == null
      ensures block.None? ==> pool == old(pool) + if old(copyBlockBuffer.dataBufferUsed) == 0
              then [old(copyBlockBuffer.page)] else []
      ensures given == old(given) + if block.Some? then [block.value] else []
    {
      hide Read, Written;
      block := copyBlockBuffer.GetChildBlock(size, 0);
      if block.None? {
        ClosePage();
      } else {
        var header := DefaultHeader();
        var front := Region(block.value.page, block.value.start - DATABLOCK_SIZE, DATABLOCK_SIZE);
        memory := WriteTo(front, header);
        given := given + [block.value];
      }
    }

    /** The memory with some bytes written behind or in front of all blocks. */
    method WriteTo(r: Region, bytes: Bytes) returns (after: Memory)
      requires (forall g :: g in given ==> IsIn(memory, g) && Disjoint(g, r)) && IsIn(memory, r) && |bytes| == r.length
      ensures after.Keys == memory.Keys && (forall p :: p in memory ==> |after[p]| == |memory[p]|)
      ensures IsIn(after, r) && Read(after, r) == bytes && AreKept(memory, after, given)
    {
      WriteKeepsOthers(memory, r, bytes, given);
      after := Written(memory, r, bytes);
    }

    /** The header of a child block, whatever it holds. */
    method DefaultHeader() returns (header: Bytes)
      ensures |header| == DATABLOCK_SIZE
    {
      assert |seq(DATABLOCK_SIZE, _ => 0 as Byte)| == DATABLOCK_SIZE;
      header :| |header| == DATABLOCK_SIZE;
    }

    /** memcpy to the latest block: the blocks given before keep their bytes. */
    method CopyToLast(block: Region, at: nat, bytes: Bytes)
      requires Valid() && given != [] && block == given[|given| - 1] && at + |bytes| <= block.length
      modifies this`memory
      ensures Valid() && memory.Keys == old(memory.Keys)
      ensures AreKept(old(memory), memory, given[..|given| - 1])
      ensures Read(memory, block)[..at + |bytes|] == old(Read(memory, block))[..at] + bytes
    {
      hide Read, Written;
      WriteInBlock(memory, block, at, bytes, given[..|given| - 1]);
      memory := Written(memory, Region(block.page, block.start + at, |bytes|), bytes);
    }

    lemma GivenAreApart()
      requires Valid()
      ensures AreApart(given)
    {
    }

    lemma NothingWritten()
      requires Valid()
      ensures AreKept(memory, memory, given)
    {
    }

    /** Whatever is open or free, three rounds are enough to carve out a block when that is possible. */
    method GetPackedBlock(size: nat, ghost last: Option<Region>) returns (block: Option<Region>, isNewBlock: bool)
      requires Valid() && packed && IsOpenBehind(last)
      modifies this, copyBlockBuffer
      ensures Valid() && memory.Keys == old(memory.Keys) && AreKept(old(memory), memory, old(given))
      ensures KeepsBuffer()
      ensures given == old(given) + if block.Some? then [block.value] else []
      ensures var after := RoomAfterCopy(pageSize, packed, old(RoomNow()), size);
              && (block.Some? <==> after.Some?)
              && (block.Some? ==> block.value.length == size && RoomNow() == after.value)
      ensures block.Some? ==> if isNewBlock then old(pool) != [] && pool == old(pool)[1..] else pool == old(pool)
      ensures |pool| >= |old(pool)| - 1
      ensures block.Some? ==> IsPlaced(last, block.value, pageSize) && IsOpenBehind(block)
    {
      hide Valid, Read, IsIn, AreKept;
      NothingWritten();
      LastIsTaken(last);
      block, isNewBlock := None, false;
      ghost var big := pageSize < size + DATABLOCK_SIZE;
      for i := 0 to 3
        invariant Valid() && memory.Keys == old(memory.Keys) && memory == old(memory) && given == old(given)
                  && block.None?
        invariant KeepsBuffer()
        invariant i == 0 ==>
                  copyBlockBuffer == old(copyBlockBuffer) && pool == old(pool) && RoomNow() == old(RoomNow())
                  && !isNewBlock
        invariant i >= 1 ==> size + DATABLOCK_SIZE > old(RoomNow()).left
        invariant i >= 1 && copyBlockBuffer != null ==>
                    fresh(copyBlockBuffer) && copyBlockBuffer.dataBufferUsed == 0 && isNewBlock
        invariant i >= 1 ==> |pool| + (if copyBlockBuffer == null then 0 else 1) >= |old(pool)|
        invariant 1 <= i && !big ==> pool == if copyBlockBuffer == null || old(pool) == [] then old(pool)
                  else old(pool)[1..]
        invariant 1 <= i && !big && copyBlockBuffer != null ==> old(pool) != [] && copyBlockBuffer.page == old(pool)[0]
        invariant (i == 1 && old(copyBlockBuffer) == null) || i == 2 ==> !big && copyBlockBuffer == null ==>
                    old(pool) == []
        invariant i == 3 && !big ==> copyBlockBuffer == null && old(pool) == []
      {
        if copyBlockBuffer == null {
          OpenPage();
          isNewBlock := true;
          continue;
        }
        block := SubAllocate(size);
        if block.Some? {
          return;
        }
      }
    }

    /**
     Finds room for a copy of `size` bytes, in the open page, or else in a page newly taken: RoomAfterCopy() says when
     there is, and what is left. At most one page is taken, and no block given before is written over. With packed
     copies the block comes behind the last one if the page has room for it.
     */
    method GetCopyBlock(size: nat, ghost last: Option<Region>) returns (block: Option<Region>, isNewBlock: bool)
      requires Valid() && size <= pageSize && (packed ==> IsOpenBehind(last))
      modifies this, copyBlockBuffer
      ensures Valid() && memory.Keys == old(memory.Keys) && AreKept(old(memory), memory, old(given))
      ensures KeepsBuffer()
      ensures given == old(given) + if block.Some? then [block.value] else []
      ensures var after := RoomAfterCopy(pageSize, packed, old(RoomNow()), size);
              && (block.Some? <==> after.Some?)
              && (block.Some? ==> block.value.length == size && RoomNow() == after.value)
      ensures block.Some? ==> if isNewBlock then old(pool) != [] && pool == old(pool)[1..] else pool == old(pool)
      ensures |pool| >= |old(pool)| - 1
      ensures packed && block.Some? ==> IsPlaced(last, block.value, pageSize) && IsOpenBehind(block)
      ensures !packed ==> block == if old(pool) == [] then None else Some(Region(old(pool)[0], 0, size))
    {
      if packed {
        block, isNewBlock := GetPackedBlock(size, last);
      } else {
        block := TakeBlock(size);
        isNewBlock, pagesTaken := true, pagesTaken + 1;
      }
    }
  }
}
