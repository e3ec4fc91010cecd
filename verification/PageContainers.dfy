/**
 Containers of pages: shared references, and child blocks which each hold a reference to the container of their page.
 The page goes back to its pool when the last of them goes away.
 */
module PageContainers {
  import opened Options
  import opened PagesPool

  class Containers {
    const pool: MemoryPagesPool
    var holders: multiset<nat>    // references to the containers of pages, by page
    var children: multiset<nat>   // child blocks alive, by page

    predicate IsAlive(page: nat)
      reads this
    {
      page in holders || page in children
    }

    /** The pages handed out are the ones with a container alive. */
    ghost predicate Valid()
      reads this, pool
    {
      pool.Valid() && forall page :: page in pool.inUse <==> IsAlive(page)
    }

    constructor (pool: MemoryPagesPool)
      requires pool.Valid() && pool.inUse == {}
      ensures Valid() && this.pool == pool && holders == multiset{} && children == multiset{}
    {
      this.pool, holders, children := pool, multiset{}, multiset{};
    }

    /** A container for a page which nobody uses, if there is one. */
    method NewContainer() returns (page: Option<nat>)
      requires Valid()
      modifies this, pool
      ensures Valid() && children == old(children)
      ensures page.None? <==> old(pool.pagesAvailable) == []
      ensures page.Some? ==> !old(IsAlive(page.value)) && IsPage(pool.layout, page.value)
      ensures holders == if page.Some? then old(holders) + multiset{page.value} else old(holders)
    {
      page := pool.GetPage();
      if page.Some? {
        holders := holders + multiset{page.value};
      }
    }

    method CopyReference(page: nat)
      requires Valid() && IsAlive(page)
      modifies this
      ensures Valid() && holders == old(holders) + multiset{page} && children == old(children)
    {
      holders := holders + multiset{page};
    }

    /** A child block keeps the container of its page. */
    method NewChild(page: nat)
      requires Valid() && page in holders
      modifies this
      ensures Valid() && children == old(children) + multiset{page} && holders == old(holders)
    {
      children := children + multiset{page};
    }

    method DropReference(page: nat)
      requires Valid() && page in holders
      modifies this, pool
      ensures Valid() && holders == old(holders) - multiset{page} && children == old(children)
      ensures pool.pagesAvailable == if IsAlive(page) then old(pool.pagesAvailable)
              else old(pool.pagesAvailable) + [page]
    {
      holders := holders - multiset{page};
      ReleaseIfLast(page);
    }

    method DropChild(page: nat)
      requires Valid() && page in children
      modifies this, pool
      ensures Valid() && children == old(children) - multiset{page} && holders == old(holders)
      ensures pool.pagesAvailable == if IsAlive(page) then old(pool.pagesAvailable)
              else old(pool.pagesAvailable) + [page]
    {
      children := children - multiset{page};
      ReleaseIfLast(page);
    }

    /** The release callback: it is called once for a page handed out, which is what the pool relies on. */
    method ReleaseIfLast(page: nat)
      requires pool.Valid() && page in pool.inUse
      requires forall p :: p != page ==> (p in pool.inUse <==> IsAlive(p))
      modifies pool
      ensures Valid()
      ensures pool.pagesAvailable == if IsAlive(page) then old(pool.pagesAvailable)
              else old(pool.pagesAvailable) + [page]
    {
      if !IsAlive(page) {
        var ok := pool.ReleasePage(page);
      }
    }
  }
}
