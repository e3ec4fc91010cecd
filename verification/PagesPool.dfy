/** MemoryPagesPool: the pages cut in a block of memory, and the FIFO of those which are free. */
module PagesPool {
  import opened Arithmetic
  import opened Options

  /** Addresses of the pages of a pool. */
  datatype Layout = Layout(first: nat, pageSize: nat, numberOfPages: nat)

  function PageAddress(l: Layout, i: nat): nat {
    l.first + i * l.pageSize
  }

  ghost predicate IsPage(l: Layout, address: nat) {
    exists i: nat :: i < l.numberOfPages && address == PageAddress(l, i)
  }

  /** The layout which the pool makes of a block, if it accepts its parameters. */
  function LayoutOf(pageSize: nat, numberOfPages: nat, base: nat, baseSize: nat, firstPageOffset: nat): Option<Layout> {
    if firstPageOffset >= baseSize || baseSize == 0 || numberOfPages == 0 || pageSize == 0 then None
    else
      var fitting := if pageSize * numberOfPages + firstPageOffset > baseSize
          then (baseSize - firstPageOffset) / pageSize else numberOfPages;
      Some(Layout(base + firstPageOffset, pageSize, fitting))
  }

  /** A pool can be made of any block which goes on behind the first page offset, even if it has to have less pages. */
  lemma WhenPoolIsMade(pageSize: nat, n: nat, base: nat, baseSize: nat, firstPageOffset: nat)
    ensures LayoutOf(pageSize, n, base, baseSize, firstPageOffset).Some? <==>
            pageSize > 0 && n > 0 && firstPageOffset < baseSize
    ensures var l := LayoutOf(pageSize, n, base, baseSize, firstPageOffset);
            l.Some? ==> l.value.pageSize == pageSize && l.value.first == base + firstPageOffset
  {
  }

  lemma PagesFollow(l: Layout, i: nat, j: nat)
    requires l.pageSize > 0 && i < j
    ensures PageAddress(l, i) + l.pageSize <= PageAddress(l, j)
  {
    MulMonotone(i + 1, j, l.pageSize);
    assert (i + 1) * l.pageSize == i * l.pageSize + l.pageSize;
  }

  /** The pages lie in the block, behind the offset asked for. */
  lemma PagesAreInBlock(pageSize: nat, n: nat, base: nat, baseSize: nat, firstPageOffset: nat, i: nat)
    requires var l := LayoutOf(pageSize, n, base, baseSize, firstPageOffset);
             l.Some? && i < l.value.numberOfPages
    ensures var a := PageAddress(LayoutOf(pageSize, n, base, baseSize, firstPageOffset).value, i);
            base + firstPageOffset <= a && a + pageSize <= base + baseSize
  {
    var l := LayoutOf(pageSize, n, base, baseSize, firstPageOffset).value;
    assert (i + 1) * pageSize == i * pageSize + pageSize;
    MulMonotone(i + 1, l.numberOfPages, pageSize);
    var room := baseSize - firstPageOffset;
    assert l.numberOfPages * pageSize <= room by {
      if l.numberOfPages != n { QuotientFits(room, pageSize); }
    }
  }

  lemma QuotientFits(room: nat, pageSize: nat)
    requires pageSize > 0
    ensures (room / pageSize) * pageSize <= room < (room / pageSize + 1) * pageSize
  {
    assert room == pageSize * (room / pageSize) + room % pageSize;
    assert (room / pageSize + 1) * pageSize == (room / pageSize) * pageSize + pageSize;
  }

  /** No page more would fit: the count is the one asked for, or the most which the block allows. */
  lemma CountIsMost(pageSize: nat, n: nat, base: nat, baseSize: nat, firstPageOffset: nat)
    requires LayoutOf(pageSize, n, base, baseSize, firstPageOffset).Some?
    ensures var c := LayoutOf(pageSize, n, base, baseSize, firstPageOffset).value.numberOfPages;
            && c <= n
            && (c == n <==> pageSize * n + firstPageOffset <= baseSize)
            && pageSize * c + firstPageOffset <= baseSize
            && (c < n ==> pageSize * (c + 1) + firstPageOffset > baseSize)
  {
    var room := baseSize - firstPageOffset;
    if pageSize * n + firstPageOffset > baseSize {
      var c := room / pageSize;
      QuotientFits(room, pageSize);
      if c >= n { MulMonotone(n, c, pageSize); }
    }
  }

  lemma IndexOfPage(l: Layout, i: nat)
    requires l.pageSize > 0
    ensures (PageAddress(l, i) - l.first) / l.pageSize == i && (PageAddress(l, i) - l.first) % l.pageSize == 0
  {
    DivModUnique(i * l.pageSize, l.pageSize, i, 0);
  }

  lemma PageOfIndex(l: Layout, address: nat)
    requires l.pageSize > 0 && l.first <= address && (address - l.first) % l.pageSize == 0
    ensures address == PageAddress(l, (address - l.first) / l.pageSize)
  {
    var d := address - l.first;
    assert d == l.pageSize * (d / l.pageSize) + d % l.pageSize;
  }

  /** The range check and the remainder find out the addresses of pages, and only these. */
  lemma ValidMeansPage(l: Layout, address: nat)
    requires l.pageSize > 0 && l.numberOfPages > 0
    ensures IsPage(l, address) <==>
            PageAddress(l, 0) <= address <= PageAddress(l, l.numberOfPages - 1) && (address - l.first) % l.pageSize == 0
  {
    if IsPage(l, address) {
      var i: nat :| i < l.numberOfPages && address == PageAddress(l, i);
      IndexOfPage(l, i);
      MulMonotone(i, l.numberOfPages - 1, l.pageSize);
    }
    if PageAddress(l, 0) <= address <= PageAddress(l, l.numberOfPages - 1) && (address - l.first) % l.pageSize == 0 {
      PageOfIndex(l, address);
      var i := (address - l.first) / l.pageSize;
      if i >= l.numberOfPages { PagesFollow(l, l.numberOfPages - 1, i); }
    }
  }

  datatype PageState = Idle | Allocated

  class MemoryPagesPool {
    const layout: Layout
    const firstPageAddress: nat
    const lastPageAddress: nat
    var pagesAvailable: seq<nat>     // FIFO of the free pages
    var states: seq<PageState>
    ghost var inUse: set<nat>        // pages handed out

    /** Every page is either free, once, or handed out; the state says which. */
    ghost predicate Valid()
      reads this
    {
      && LayoutOk() && |states| == layout.numberOfPages
      && |pagesAvailable| + |inUse| == layout.numberOfPages
      && (forall i, j :: 0 <= i < j < |pagesAvailable| ==> pagesAvailable[i] != pagesAvailable[j])
      && (forall a :: a in pagesAvailable ==> a !in inUse && IsPage(layout, a))
      && (forall a :: a in inUse ==> IsPage(layout, a))
      && (forall i: nat :: i < layout.numberOfPages ==>
            var a := PageAddress(layout, i);
            if states[i] == Idle then a in pagesAvailable else a in inUse)
    }

    ghost predicate LayoutOk() {
      && layout.pageSize > 0 && layout.numberOfPages > 0 && firstPageAddress == PageAddress(layout, 0)
      && lastPageAddress == PageAddress(layout, layout.numberOfPages - 1)
    }

    /** The pages of a block; it must have room for one. */
    constructor (layout: Layout)
      requires layout.pageSize > 0 && layout.numberOfPages > 0
      ensures Valid() && this.layout == layout && inUse == {} && |pagesAvailable| == layout.numberOfPages
      ensures forall i :: 0 <= i < |pagesAvailable| ==> pagesAvailable[i] == layout.first + i * layout.pageSize
    {
      this.layout := layout;
      firstPageAddress := PageAddress(layout, 0);
      lastPageAddress := PageAddress(layout, layout.numberOfPages - 1);
      pagesAvailable, states, inUse := [], [], {};
      new;
      for i := 0 to layout.numberOfPages
        invariant |states| == i == |pagesAvailable| && inUse == {}
        invariant forall k :: 0 <= k < i ==> pagesAvailable[k] == PageAddress(layout, k) && states[k] == Idle
      {
        pagesAvailable := pagesAvailable + [PageAddress(layout, i)];
        states := states + [Idle];
      }
      forall i, j | 0 <= i < j < |pagesAvailable|
        ensures pagesAvailable[i] != pagesAvailable[j]
      {
        PagesFollow(layout, i, j);
      }
      forall i: nat | i < layout.numberOfPages
        ensures PageAddress(layout, i) in pagesAvailable
      {
        assert pagesAvailable[i] == PageAddress(layout, i);
      }
    }

    predicate IsPageValid(address: nat)
      requires LayoutOk()
      ensures IsPageValid(address) <==> IsPage(layout, address)
    {
      ValidMeansPage(layout, address);
      if address < firstPageAddress then false
      else if address > lastPageAddress then false
      else (address - firstPageAddress) % layout.pageSize == 0
    }

    /** The inverse of PageAddress; nothing for another address. */
    function GetPageIndexFromPagePtr(address: nat): (ix: Option<nat>)
      requires LayoutOk()
      ensures ix.Some? <==> IsPage(layout, address)
      ensures ix.Some? ==> ix.value < layout.numberOfPages && address == PageAddress(layout, ix.value)
    {
      ValidMeansPage(layout, address);
      if address < firstPageAddress || address > lastPageAddress then None
      else
        var ix := (address - firstPageAddress) / layout.pageSize;
        IndexOfPage(layout, ix);
        if ix >= layout.numberOfPages || PageAddress(layout, ix) != address then
          NotAPage(address, ix);
          None
        else Some(ix)
    }

    lemma NotAPage(address: nat, ix: nat)
      requires LayoutOk() && firstPageAddress <= address && ix == (address - firstPageAddress) / layout.pageSize
      requires ix >= layout.numberOfPages || PageAddress(layout, ix) != address
      ensures !IsPage(layout, address)
    {
      assert firstPageAddress == layout.first;
      hide PageAddress;
      if IsPage(layout, address) {
        var i: nat :| i < layout.numberOfPages && address == PageAddress(layout, i);
        IndexOfPage(layout, i);
      }
    }

    method UpdatePageState(address: nat, state: PageState)
      requires LayoutOk() && |states| == layout.numberOfPages
      modifies this`states
      ensures |states| == layout.numberOfPages
      ensures forall i: nat :: i < layout.numberOfPages ==>
                states[i] == if PageAddress(layout, i) == address then state else old(states[i])
    {
      var ix := GetPageIndexFromPagePtr(address);
      if ix.Some? {
        states := states[ix.value := state];
        forall i: nat | i < layout.numberOfPages && PageAddress(layout, i) == address
          ensures i == ix.value
        {
          IndexOfPage(layout, i);
          IndexOfPage(layout, ix.value);
        }
      }
    }

    /** The oldest free page, if there is one. */
    method GetPage() returns (page: Option<nat>)
      requires Valid()
      modifies this
      ensures Valid()
      ensures page.None? <==> old(pagesAvailable) == []
      ensures page.None? ==> unchanged(this)
      ensures page.Some? ==>
                && page.value == old(pagesAvailable)[0] && pagesAvailable == old(pagesAvailable)[1..]
                && page.value !in old(inUse) && inUse == old(inUse) + {page.value} && IsPage(layout, page.value)
    {
      if pagesAvailable == [] {
        return None;
      }
      var ptr := pagesAvailable[0];
      page := Some(ptr);
      assert ptr in pagesAvailable;
      pagesAvailable := pagesAvailable[1..];
      UpdatePageState(ptr, Allocated);
      inUse := inUse + {ptr};
    }

    /**
     Gives a page back. The push is not checked: it never fails for a page which was handed out. There is no check that
     it was: a page released twice would be handed out twice, unless all pages are free, when there is no room for it.
     */
    method ReleasePage(address: nat) returns (ok: bool)
      requires Valid()
      modifies this
      ensures ok <==> IsPage(layout, address)
      ensures !ok ==> unchanged(this)
      ensures ok && address in old(inUse) ==>
                pagesAvailable == old(pagesAvailable) + [address] && inUse == old(inUse) - {address}
      ensures Valid() <==> (ok && address !in old(inUse) ==> old(inUse) == {})
    {
      if !IsPageValid(address) {
        return false;
      }
      UpdatePageState(address, Idle);
      if |pagesAvailable| < layout.numberOfPages {
        pagesAvailable := pagesAvailable + [address];
      }
      inUse := inUse - {address};
      return true;
    }
  }
}
