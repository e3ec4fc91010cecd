/** MemoryBankManager: pools take blocks one after the other in large memory banks. Sizes are 64-bit words. */
module BankManager {
  import opened Arithmetic
  import opened Options
  import opened PagesPool
  import opened Rdh

  const TWO_TO_64: nat := 0x1_0000_0000_0000_0000
  const TWO_TO_31: nat := 0x8000_0000

  datatype MemoryRange = MemoryRange(offset: nat, size: nat)

  datatype Bank = Bank(name: string, baseAddress: nat, size: nat, rangesInUse: seq<MemoryRange>)

  /** The pool made from a range of a bank. */
  datatype Pool = Pool(bank: nat, range: nat, layout: Layout)

  datatype Outcome = NoPool | BadAlloc | NewPool(pool: Pool)

  function Size64(x: int): (r: nat)
    ensures r < TWO_TO_64
  {
    x % TWO_TO_64
  }

  /** The conversion of a size to a 32-bit signed integer. */
  function Int32(x: nat): int {
    var low := x % TWO_TO_32;
    if low >= TWO_TO_31 then low - TWO_TO_32 else low
  }

  function Alignment(blockAlign: nat, systemPageSize: nat): nat {
    if Int32(blockAlign) < systemPageSize then systemPageSize else blockAlign
  }

  /** Bytes lost to start at an aligned address. */
  function AlignmentLoss(address: nat, align: nat): (loss: nat)
    requires align > 0
    ensures loss < align
  {
    var bytesExcess := address % align;
    if bytesExcess != 0 then align - bytesExcess else 0
  }

  lemma Aligned(address: nat, align: nat)
    requires align > 0
    ensures (address + AlignmentLoss(address, align)) % align == 0
  {
    var e := address % align;
    assert address == align * (address / align) + e;
    if e != 0 {
      assert align * (address / align + 1) == align * (address / align) + align;
      DivModUnique(address + align - e, align, address / align + 1, 0);
    }
  }

  /** The first byte after the ranges in use. */
  function MaxEnd(ranges: seq<MemoryRange>): nat {
    if ranges == [] then 0
    else
      var r := ranges[|ranges| - 1];
      var before, end := MaxEnd(ranges[..|ranges| - 1]), Size64(r.offset + r.size);
      if end > before then end else before
  }

  /** Blocks are aligned as asked for, at least on system pages. */
  lemma AlignmentIsMost(blockAlign: nat, systemPageSize: nat)
    requires blockAlign < TWO_TO_31
    ensures Alignment(blockAlign, systemPageSize) == if blockAlign > systemPageSize then blockAlign else systemPageSize
  {
  }

  /** Ranges one after the other in a bank. */
  predicate AreInOrder(ranges: seq<MemoryRange>, size: nat) {
    && (forall i, j :: 0 <= i < j < |ranges| ==> ranges[i].offset + ranges[i].size <= ranges[j].offset)
    && (forall i :: 0 <= i < |ranges| ==> ranges[i].offset + ranges[i].size <= size)
  }

  lemma {:induction false} EndIsAfterAll(ranges: seq<MemoryRange>, size: nat)
    requires AreInOrder(ranges, size) && size < TWO_TO_64
    ensures forall i :: 0 <= i < |ranges| ==> ranges[i].offset + ranges[i].size <= MaxEnd(ranges)
    ensures MaxEnd(ranges) <= size
    ensures MaxEnd(ranges) == if ranges == [] then 0 else ranges[|ranges| - 1].offset + ranges[|ranges| - 1].size
  {
    if ranges != [] { EndIsAfterAll(ranges[..|ranges| - 1], size); }
  }

  predicate IsInRange(l: Layout, base: nat, r: MemoryRange) {
    forall i: nat :: i < l.numberOfPages ==>
        base + r.offset <= PageAddress(l, i)
        && PageAddress(l, i) + l.pageSize <= base + r.offset + r.size
  }

  // ----- one block -----

  /** What is asked from a bank is far from the end of 64-bit sizes. */
  predicate IsReasonable(bank: Bank, pageSize: nat, pageNumber: nat, firstPageOffset: nat, align: nat) {
    bank.baseAddress + bank.size + pageSize * (pageNumber + 1) + firstPageOffset + align < TWO_TO_64
  }

  function BlockLoss(bank: Bank, align: nat): nat
    requires align > 0
  {
    AlignmentLoss(bank.baseAddress + MaxEnd(bank.rangesInUse), align)
  }

  /** The range reserved for a pool: its size does not count what is lost before it. */
  function Reserved(bank: Bank, pageSize: nat, pageNumber: nat, align: nat): MemoryRange
    requires align > 0
  {
    var loss := BlockLoss(bank, align);
    MemoryRange(Size64(MaxEnd(bank.rangesInUse) + loss), Size64(Size64(pageSize * (pageNumber + 1)) - loss))
  }

  /**
   In a bank whose ranges are in order, the block is in the bank, behind them and aligned, exactly when the alignment
   does not lose more than the block; if it does, the size reserved wraps around.
   */
  lemma BlockIsSound(bank: Bank, pageSize: nat, pageNumber: nat, firstPageOffset: nat, align: nat)
    requires align > 0 && AreInOrder(bank.rangesInUse, bank.size)
             && IsReasonable(bank, pageSize, pageNumber, firstPageOffset, align)
    requires MaxEnd(bank.rangesInUse) + pageSize * (pageNumber + 1) <= bank.size
    ensures var r := Reserved(bank, pageSize, pageNumber, align);
            && (bank.baseAddress + r.offset) % align == 0
            && (AreInOrder(bank.rangesInUse + [r], bank.size) <==>
                BlockLoss(bank, align) <= pageSize * (pageNumber + 1))
  {
    hide Reserved, MaxEnd, Size64, AlignmentLoss;
    EndIsAfterAll(bank.rangesInUse, bank.size);
    Aligned(bank.baseAddress + MaxEnd(bank.rangesInUse), align);
    ReservedSizes(bank, pageSize, pageNumber, firstPageOffset, align);
    var ranges, r := bank.rangesInUse, Reserved(bank, pageSize, pageNumber, align);
    assert (ranges + [r])[|ranges|] == r;
  }

  /** An example: two pages of 1 kB, in a bank 4 kB after a multiple of 1 MB, aligned on 1 MB. */
  lemma AlignmentCanLoseTheBlock()
    ensures var bank := Bank("bank", 0x1000, 0x20_0000, []);
            && MaxEnd(bank.rangesInUse) + 0x400 * 2 <= bank.size
            && !AreInOrder(bank.rangesInUse + [Reserved(bank, 0x400, 1, 0x10_0000)], bank.size)
  {
    var bank := Bank("bank", 0x1000, 0x20_0000, []);
    var r := Reserved(bank, 0x400, 1, 0x10_0000);
    assert BlockLoss(bank, 0x10_0000) == 0xF_F000;
    assert r.size > bank.size;
    assert (bank.rangesInUse + [r])[0] == r;
  }

  lemma ReservedSizes(bank: Bank, pageSize: nat, pageNumber: nat, firstPageOffset: nat, align: nat)
    requires align > 0 && MaxEnd(bank.rangesInUse) <= bank.size
             && IsReasonable(bank, pageSize, pageNumber, firstPageOffset, align)
    ensures var r, loss, size := Reserved(bank, pageSize, pageNumber, align), BlockLoss(bank, align),
            pageSize * (pageNumber + 1);
            && r.offset == MaxEnd(bank.rangesInUse) + loss
            && r.size == if loss <= size then size - loss else size - loss + TWO_TO_64
  {
    hide MaxEnd, AlignmentLoss;
    WrappedSizes(MaxEnd(bank.rangesInUse), BlockLoss(bank, align), pageSize * (pageNumber + 1));
  }

  lemma WrappedSizes(end: nat, loss: nat, size: nat)
    requires end + loss < TWO_TO_64 && size < TWO_TO_64
    ensures Size64(end + loss) == end + loss
    ensures Size64(Size64(size) - loss) == if loss <= size then size - loss else size - loss + TWO_TO_64
  {
  }

  // ----- pools -----

  /** The pools of a manager are each in a range of their own. */
  ghost predicate PoolsOk(banks: seq<Bank>, pools: seq<Pool>) {
    && (forall p :: 0 <= p < |pools| ==>
          && pools[p].bank < |banks| && pools[p].range < |banks[pools[p].bank].rangesInUse|
             && pools[p].layout.pageSize > 0
          && IsInRange(pools[p].layout, banks[pools[p].bank].baseAddress,
                       banks[pools[p].bank].rangesInUse[pools[p].range]))
    && (forall p, q :: 0 <= p < q < |pools| ==> pools[p].bank != pools[q].bank || pools[p].range != pools[q].range)
  }

  ghost predicate BanksOk(banks: seq<Bank>) {
    && (forall b :: 0 <= b < |banks| ==> AreInOrder(banks[b].rangesInUse, banks[b].size))
    && (forall b, c :: 0 <= b < c < |banks| ==>
          banks[b].baseAddress + banks[b].size <= banks[c].baseAddress
              || banks[c].baseAddress + banks[c].size <= banks[b].baseAddress)
  }

  /** No two pages of the pools overlap, in one pool or in two, and all are in their bank. */
  lemma PagesAreDisjoint(banks: seq<Bank>, pools: seq<Pool>, p: nat, i: nat, q: nat, j: nat)
    requires BanksOk(banks) && PoolsOk(banks, pools) && p < |pools| && q < |pools| && (p != q || i != j)
    requires i < pools[p].layout.numberOfPages && j < pools[q].layout.numberOfPages
    ensures var a, b := PageAddress(pools[p].layout, i), PageAddress(pools[q].layout, j);
            a + pools[p].layout.pageSize <= b || b + pools[q].layout.pageSize <= a
    ensures var a, bank := PageAddress(pools[p].layout, i), banks[pools[p].bank];
            bank.baseAddress <= a && a + pools[p].layout.pageSize <= bank.baseAddress + bank.size
  {
    var l := pools[p].layout;
    if p == q {
      if i < j { PagesFollow(l, i, j); } else { PagesFollow(l, j, i); }
    }
  }

  /**
   With a range which is sound, the pool made from it is in the range; it has the pages asked for when the losses fit in
   one page.
   */
  lemma PoolOfRange(pageSize: nat, n: nat, base: nat, r: MemoryRange, firstPageOffset: nat, loss: nat)
    requires r.size + loss == pageSize * (n + 1)
             && LayoutOf(pageSize, n, base + r.offset, r.size, firstPageOffset).Some?
    ensures var l := LayoutOf(pageSize, n, base + r.offset, r.size, firstPageOffset).value;
            && IsInRange(l, base, r) && l.pageSize == pageSize > 0
            && l.first == base + r.offset + firstPageOffset
            && (l.numberOfPages == n <==> loss + firstPageOffset <= pageSize)
            && l.numberOfPages <= n && loss + firstPageOffset + pageSize * l.numberOfPages <= pageSize * (n + 1)
            && (l.numberOfPages < n ==> loss + firstPageOffset + pageSize * (l.numberOfPages + 1) > pageSize * (n + 1))
  {
    var l := LayoutOf(pageSize, n, base + r.offset, r.size, firstPageOffset).value;
    CountIsMost(pageSize, n, base + r.offset, r.size, firstPageOffset);
    assert pageSize * (n + 1) == pageSize * n + pageSize;
    forall i: nat | i < l.numberOfPages
      ensures base + r.offset <= PageAddress(l, i) && PageAddress(l, i) + l.pageSize <= base + r.offset + r.size
    {
      PagesAreInBlock(pageSize, n, base + r.offset, r.size, firstPageOffset, i);
    }
  }

  /** What is asked for a pool. */
  datatype Request = Request(pageSize: nat, pageNumber: nat, firstPageOffset: nat, align: nat)

  /** What comes of a request in a bank: the outcome, the banks and the pools. */
  function Served(q: Request, ix: nat, banks: seq<Bank>, pools: seq<Pool>): (Outcome, seq<Bank>, seq<Pool>)
    requires q.align > 0 && ix < |banks|
  {
    var bank := banks[ix];
    var range := Reserved(bank, q.pageSize, q.pageNumber, q.align);
    var layout := LayoutOf(q.pageSize, q.pageNumber, bank.baseAddress + range.offset, range.size, q.firstPageOffset);
    if Size64(range.offset + range.size) > bank.size then (BadAlloc, banks, pools)
    else
      var banks' := banks[ix := bank.(rangesInUse := bank.rangesInUse + [range])];
      if layout.None? then (NoPool, banks', pools)
      else
        var pool := Pool(ix, |bank.rangesInUse|, layout.value);
        (NewPool(pool), banks', pools + [pool])
  }

  /**
   What a request should get, when the alignment does not lose more than the block: the bank must have room for one page
   more than asked for, the range is the first aligned place behind the others, and the pool has as many of the pages
   asked for as fit in it behind the first page offset.
   */
  ghost predicate IsServed(q: Request, ix: nat, banks: seq<Bank>, pools: seq<Pool>, r: Outcome, banks': seq<Bank>,
                           pools': seq<Pool>)
    requires q.align > 0 && ix < |banks|
  {
    var bank, size, loss := banks[ix], q.pageSize * (q.pageNumber + 1), BlockLoss(banks[ix], q.align);
    var end := MaxEnd(bank.rangesInUse);
    if end + size > bank.size then r == BadAlloc && banks' == banks && pools' == pools
    else
      && loss <= size
      && banks' == banks[ix := bank.(rangesInUse := bank.rangesInUse + [MemoryRange(end + loss, size - loss)])]
      && if q.pageSize == 0 || q.pageNumber == 0 || loss + q.firstPageOffset >= size then
           r == NoPool && pools' == pools
         else
           && r.NewPool? && pools' == pools + [r.pool]
           && r.pool.bank == ix && r.pool.range == |bank.rangesInUse|
           && r.pool.layout.first == bank.baseAddress + end + loss + q.firstPageOffset
           && r.pool.layout.pageSize == q.pageSize
           && var c := r.pool.layout.numberOfPages;
              && c <= q.pageNumber && loss + q.firstPageOffset + q.pageSize * c <= size
              && (c < q.pageNumber ==> loss + q.firstPageOffset + q.pageSize * (c + 1) > size)
  }

  lemma RangeIsAdded(banks: seq<Bank>, ix: nat, range: MemoryRange, banks': seq<Bank>)
    requires BanksOk(banks) && ix < |banks| && banks' ==
             banks[ix := banks[ix].(rangesInUse := banks[ix].rangesInUse + [range])]
    ensures BanksOk(banks') <==> AreInOrder(banks[ix].rangesInUse + [range], banks[ix].size)
  {
    var bank' := banks[ix].(rangesInUse := banks[ix].rangesInUse + [range]);
    assert banks'[ix] == bank';
    assert forall b :: 0 <= b < |banks| && b != ix ==> banks'[b] == banks[b];
    assert forall b :: 0 <= b < |banks| ==>
           banks'[b].baseAddress == banks[b].baseAddress
           && banks'[b].size == banks[b].size;
  }

  lemma OldPoolsKeep(banks: seq<Bank>, pools: seq<Pool>, ix: nat, range: MemoryRange, banks': seq<Bank>)
    requires PoolsOk(banks, pools) && ix < |banks|
             && banks' == banks[ix := banks[ix].(rangesInUse := banks[ix].rangesInUse + [range])]
    ensures PoolsOk(banks', pools)
    ensures forall p :: 0 <= p < |pools| && pools[p].bank == ix ==> pools[p].range < |banks[ix].rangesInUse|
  {
  }

  lemma PoolIsAdded(banks: seq<Bank>, pools: seq<Pool>, pool: Pool)
    requires PoolsOk(banks, pools) && pool.bank < |banks| && pool.range < |banks[pool.bank].rangesInUse|
             && pool.layout.pageSize > 0
    requires forall p :: 0 <= p < |pools| && pools[p].bank == pool.bank ==> pools[p].range < pool.range
    requires IsInRange(pool.layout, banks[pool.bank].baseAddress, banks[pool.bank].rangesInUse[pool.range])
    ensures PoolsOk(banks, pools + [pool])
  {
  }

  /** The refusals: in 64-bit arithmetic the sum comes out right even when the size of the range does not. */
  lemma RefusedMeansFull(bank: Bank, q: Request)
    requires q.align > 0 && AreInOrder(bank.rangesInUse, bank.size)
    requires IsReasonable(bank, q.pageSize, q.pageNumber, q.firstPageOffset, q.align)
    ensures var range := Reserved(bank, q.pageSize, q.pageNumber, q.align);
            Size64(range.offset + range.size) > bank.size <==>
                  MaxEnd(bank.rangesInUse) + q.pageSize * (q.pageNumber + 1) > bank.size
  {
    hide MaxEnd, AlignmentLoss, Size64;
    EndIsAfterAll(bank.rangesInUse, bank.size);
    WrappedSum(MaxEnd(bank.rangesInUse), BlockLoss(bank, q.align), q.pageSize * (q.pageNumber + 1));
  }

  lemma WrappedSum(end: nat, loss: nat, size: nat)
    requires end + size < TWO_TO_64 && end + loss < TWO_TO_64
    ensures Size64(Size64(end + loss) + Size64(Size64(size) - loss)) == end + size
  {
  }

  /**
   A request which the bank can take keeps all pages apart and in their bank exactly when the alignment does not lose
   more than the block. The pool then starts at an aligned address, and it has the pages asked for exactly when the
   alignment and the first offset together lose no more than one page.
   */
  lemma WhenServedIsSound(q: Request, ix: nat, banks: seq<Bank>, pools: seq<Pool>)
    requires BanksOk(banks) && PoolsOk(banks, pools) && q.align > 0 && ix < |banks|
    requires IsReasonable(banks[ix], q.pageSize, q.pageNumber, q.firstPageOffset, q.align)
    ensures var r := Served(q, ix, banks, pools).0;
            r == BadAlloc <==> MaxEnd(banks[ix].rangesInUse) + q.pageSize * (q.pageNumber + 1) > banks[ix].size
    ensures var (r, banks', pools') := Served(q, ix, banks, pools);
            BanksOk(banks') && PoolsOk(banks', pools') <==>
            r == BadAlloc || BlockLoss(banks[ix], q.align) <= q.pageSize * (q.pageNumber + 1)
    ensures var r := Served(q, ix, banks, pools).0;
            r.NewPool? && BlockLoss(banks[ix], q.align) <= q.pageSize * (q.pageNumber + 1) ==>
              && r.pool.layout.first >= q.firstPageOffset && (r.pool.layout.first - q.firstPageOffset) % q.align == 0
              && (r.pool.layout.numberOfPages == q.pageNumber <==>
                  BlockLoss(banks[ix], q.align) + q.firstPageOffset <= q.pageSize)
    ensures var (r, banks', pools') := Served(q, ix, banks, pools);
            BlockLoss(banks[ix], q.align) <= q.pageSize * (q.pageNumber + 1) ==>
              IsServed(q, ix, banks, pools, r, banks', pools')
  {
    hide LayoutOf, Reserved, MaxEnd, AreInOrder, Size64, PoolsOk, BanksOk, IsReasonable, BlockLoss;
    var (r, banks', pools') := Served(q, ix, banks, pools);
    var bank, size := banks[ix], q.pageSize * (q.pageNumber + 1);
    BankIsOk(banks, ix);
    EndIsAfterAll(bank.rangesInUse, bank.size) by { SizeIsReasonable(bank, q); }
    RefusedMeansFull(bank, q);
    if r != BadAlloc {
      var range, loss := Reserved(bank, q.pageSize, q.pageNumber, q.align), BlockLoss(bank, q.align);
      BlockIsSound(bank, q.pageSize, q.pageNumber, q.firstPageOffset, q.align);
      RangeIsAdded(banks, ix, range, banks');
      OldPoolsKeep(banks, pools, ix, range, banks');
      if loss <= size {
        ReservedSizes(bank, q.pageSize, q.pageNumber, q.firstPageOffset, q.align);
        WhenPoolIsMade(q.pageSize, q.pageNumber, bank.baseAddress + range.offset, range.size, q.firstPageOffset);
      }
      if loss <= size && r.NewPool? {
        PoolOfRange(q.pageSize, q.pageNumber, bank.baseAddress, range, q.firstPageOffset, loss);
        PoolIsAdded(banks', pools, r.pool);
      }
    }
  }

  lemma SizeIsReasonable(bank: Bank, q: Request)
    requires IsReasonable(bank, q.pageSize, q.pageNumber, q.firstPageOffset, q.align)
    ensures bank.size < TWO_TO_64
  {
  }

  lemma BankIsOk(banks: seq<Bank>, ix: nat)
    requires BanksOk(banks) && ix < |banks|
    ensures AreInOrder(banks[ix].rangesInUse, banks[ix].size)
  {
  }

  lemma NothingLost(size: nat)
    ensures Size64(Size64(size) - 0) == Size64(size)
  {
  }

  class MemoryBankManager {
    const systemPageSize: nat
    var banks: seq<Bank>
    ghost var pools: seq<Pool>   // every pool created

    ghost predicate Valid()
      reads this
    {
      0 < systemPageSize < TWO_TO_31 && BanksOk(banks) && PoolsOk(banks, pools)
    }

    constructor (systemPageSize: nat)
      requires 0 < systemPageSize < TWO_TO_31
      ensures Valid() && banks == [] && pools == [] && this.systemPageSize == systemPageSize
    {
      this.systemPageSize, banks, pools := systemPageSize, [], [];
    }

    /** Banks are different pieces of memory. */
    method AddBank(name: string, baseAddress: nat, size: nat)
      requires Valid()
      requires forall b :: 0 <= b < |banks| ==>
                 banks[b].baseAddress + banks[b].size <= baseAddress || baseAddress + size <= banks[b].baseAddress
      modifies this`banks
      ensures Valid() && banks == old(banks) + [Bank(name, baseAddress, size, [])]
    {
      banks := banks + [Bank(name, baseAddress, size, [])];
    }

    /** The bank of a name, or the first one for an empty name. */
    method FindBank(bankName: string) returns (ix: Option<nat>)
      ensures ix.Some? ==> ix.value < |banks| && (bankName == [] ==> ix.value == 0)
      ensures ix.Some? && bankName != [] ==> banks[ix.value].name == bankName && forall b :: 0 <= b < ix.value ==>
                banks[b].name != bankName
      ensures ix.None? ==> banks == [] || (bankName != [] && forall b :: 0 <= b < |banks| ==> banks[b].name != bankName)
    {
      if |banks| == 0 {
        return None;
      }
      if |bankName| > 0 {
        for i := 0 to |banks|
          invariant forall b :: 0 <= b < i ==> banks[b].name != bankName
        {
          if banks[i].name == bankName {
            return Some(i);
          }
        }
        return None;
      }
      return Some(0);
    }

    /** The first offset after the ranges in use. */
    method FirstFree(ranges: seq<MemoryRange>) returns (offset: nat)
      ensures offset == MaxEnd(ranges)
    {
      offset := 0;
      for i := 0 to |ranges|
        invariant offset == MaxEnd(ranges[..i])
      {
        assert ranges[..i + 1][..i] == ranges[..i];
        var maxOffset := Size64(ranges[i].offset + ranges[i].size);
        if maxOffset > offset {
          offset := maxOffset;
        }
      }
      assert ranges[..|ranges|] == ranges;
    }

    /** The range to reserve, aligned. */
    method ReserveRange(bank: Bank, pageSize: nat, pageNumber: nat, align: nat) returns (r: MemoryRange)
      requires align > 0
      ensures r == Reserved(bank, pageSize, pageNumber, align)
    {
      hide MaxEnd, Size64;
      var blockSize := Size64(pageSize * (pageNumber + 1));
      var offset := FirstFree(bank.rangesInUse);
      var bytesExcess := (bank.baseAddress + offset) % align;
      if bytesExcess != 0 {
        var alignOffset := align - bytesExcess;
        offset := offset + alignOffset;
        blockSize := Size64(blockSize - alignOffset);
      } else {
        NothingLost(pageSize * (pageNumber + 1));
      }
      return MemoryRange(Size64(offset), blockSize);
    }

    /**
     A pool of pages in a bank. There is none when the bank is not found, and memory is refused when the bank has not
     enough left. When the pool refuses its parameters the range stays reserved.
     */
    method GetPagedPool(pageSize: nat, pageNumber: nat, bankName: string, firstPageOffset: nat, blockAlign: nat)
      returns (r: Outcome, ghost ix: Option<nat>)
      requires Valid()
      modifies this
      ensures ix.None? ==>
              r == NoPool && unchanged(this)
              && (banks == [] || (bankName != [] && forall b :: 0 <= b < |banks| ==> banks[b].name != bankName))
      ensures ix.Some? ==>
              ix.value < |old(banks)|
              && if bankName == [] then ix.value == 0
                 else
                   && old(banks)[ix.value].name == bankName
                   && forall b :: 0 <= b < ix.value ==> old(banks)[b].name != bankName
      ensures var q := Request(pageSize, pageNumber, firstPageOffset, Alignment(blockAlign, systemPageSize));
              ix.Some? ==>
                && (r, banks, pools) == Served(q, ix.value, old(banks), old(pools))
                && (IsReasonable(old(banks)[ix.value], pageSize, pageNumber, firstPageOffset, q.align) ==>
                      (Valid() <==>
                       r == BadAlloc
                       || BlockLoss(old(banks)[ix.value], q.align) <= pageSize * (pageNumber + 1)))
                && (IsReasonable(old(banks)[ix.value], pageSize, pageNumber, firstPageOffset, q.align)
                    && BlockLoss(old(banks)[ix.value], q.align) <= pageSize * (pageNumber + 1) ==>
                      IsServed(q, ix.value, old(banks), old(pools), r, banks, pools))
    {
      hide IsInRange, AreInOrder;
      ghost var banks0, pools0 := banks, pools;
      var found := FindBank(bankName);
      ix := found;
      if found.None? {
        return NoPool, ix;
      }
      var align := Alignment(blockAlign, systemPageSize);
      r := Serve(Request(pageSize, pageNumber, firstPageOffset, align), found.value);
      if IsReasonable(banks0[ix.value], pageSize, pageNumber, firstPageOffset, align) {
        WhenServedIsSound(Request(pageSize, pageNumber, firstPageOffset, align), ix.value, banks0, pools0);
      }
    }

    method Serve(q: Request, ix: nat) returns (r: Outcome)
      requires q.align > 0 && ix < |banks|
      modifies this
      ensures (r, banks, pools) == Served(q, ix, old(banks), old(pools))
    {
      hide LayoutOf, Reserved;
      var bank := banks[ix];
      var range := ReserveRange(bank, q.pageSize, q.pageNumber, q.align);
      if Size64(range.offset + range.size) > bank.size {
        return BadAlloc;
      }
      banks := banks[ix := bank.(rangesInUse := bank.rangesInUse + [range])];
      var layout := LayoutOf(q.pageSize, q.pageNumber, bank.baseAddress + range.offset, range.size, q.firstPageOffset);
      if layout.None? {
        return NoPool;
      }
      r := NewPool(Pool(ix, |bank.rangesInUse|, layout.value));
      pools := pools + [r.pool];
    }
  }
}
