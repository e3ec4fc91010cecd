/** The accounts of the memory pages lent to FMQ: one hint per message part, acknowledged once, in any order. */
module FmqLedger {

  /** DataBlockFMQStats, kept in the user space of a page; `magic` means it was set up and not yet given back. */
  datatype PageStats = PageStats(magic: bool, countRef: int, dataSizeAccounted: nat, memorySizeAccounted: nat)

  /** A reference to a page, or to a child block carved out of it. */
  datatype BlockRef = Page(page: nat) | Child(page: nat)

  datatype Counters = Counters(pagesPending: int, payloadPendingBytes: int, memoryPendingBytes: int, released: int)

  /**
   Pages never set up are not in `stats`. `hints` are the references FMQ holds, those to children counted with their
   page.
   */
  datatype Ledger = Ledger(stats: map<nat, PageStats>, counters: Counters, hints: multiset<nat>)

  predicate IsSetUp(stats: map<nat, PageStats>, page: nat) {
    page in stats && stats[page].magic
  }

  /** Pages which FMQ holds and which are accounted for. */
  function Lent(stats: map<nat, PageStats>): set<nat> {
    set p | p in stats && stats[p].magic && stats[p].countRef > 0
  }

  ghost function Sum(stats: map<nat, PageStats>, pages: set<nat>, f: PageStats -> nat): nat
    requires pages <= stats.Keys
  {
    if pages == {} then 0 else
      var p :| p in pages;
      f(stats[p]) + Sum(stats, pages - {p}, f)
  }

  const DATA: PageStats -> nat := (s: PageStats) => s.dataSizeAccounted
  const MEMORY: PageStats -> nat := (s: PageStats) => s.memorySizeAccounted

  /** References are counted page by page, and the counters are the totals over the pages lent. */
  ghost predicate Balanced(l: Ledger) {
    && (forall p :: p in l.stats && l.stats[p].magic ==> l.stats[p].countRef == l.hints[p])
    && (forall p :: p in l.stats && l.stats[p].magic && l.stats[p].countRef == 0 ==> l.stats[p].dataSizeAccounted == 0)
    && l.counters.pagesPending == |Lent(l.stats)|
    && l.counters.payloadPendingBytes == Sum(l.stats, Lent(l.stats), DATA)
    && l.counters.memoryPendingBytes == Sum(l.stats, Lent(l.stats), MEMORY)
  }

  lemma {:induction false} SumWithout(stats: map<nat, PageStats>, pages: set<nat>, f: PageStats -> nat, p: nat)
    requires pages <= stats.Keys && p in pages
    ensures Sum(stats, pages, f) == f(stats[p]) + Sum(stats, pages - {p}, f)
  {
    var q :| q in pages && Sum(stats, pages, f) == f(stats[q]) + Sum(stats, pages - {q}, f);
    if q != p {
      SumWithout(stats, pages - {q}, f, p);
      SumWithout(stats, pages - {p}, f, q);
      assert pages - {q} - {p} == pages - {p} - {q};
    }
  }

  lemma {:induction false} SumFrame(stats: map<nat, PageStats>, other: map<nat, PageStats>, pages: set<nat>,
                                    f: PageStats -> nat)
    requires pages <= stats.Keys && pages <= other.Keys
    requires forall p :: p in pages ==> stats[p] == other[p]
    ensures Sum(stats, pages, f) == Sum(other, pages, f)
  {
    if pages != {} {
      var p :| p in pages;
      SumWithout(stats, pages, f, p);
      SumWithout(other, pages, f, p);
      SumFrame(stats, other, pages - {p}, f);
    }
  }

  lemma SumSplit(stats: map<nat, PageStats>, p: nat, f: PageStats -> nat)
    ensures Sum(stats, Lent(stats), f) == Sum(stats, Lent(stats) - {p}, f) + if p in Lent(stats) then f(stats[p]) else 0
    ensures |Lent(stats)| == |Lent(stats) - {p}| + if p in Lent(stats) then 1 else 0
  {
    if p in Lent(stats) {
      SumWithout(stats, Lent(stats), f, p);
    } else {
      assert Lent(stats) - {p} == Lent(stats);
    }
  }

  lemma OthersUnchanged(stats: map<nat, PageStats>, p: nat, s: PageStats, f: PageStats -> nat)
    ensures Lent(stats[p := s]) - {p} == Lent(stats) - {p}
    ensures Sum(stats[p := s], Lent(stats[p := s]) - {p}, f) == Sum(stats, Lent(stats) - {p}, f)
  {
    assert Lent(stats[p := s]) - {p} == Lent(stats) - {p};
    SumFrame(stats, stats[p := s], Lent(stats) - {p}, f);
  }

  /** Changing the accounts of one page changes the totals by what that page counts for, before and after. */
  lemma SumUpdate(stats: map<nat, PageStats>, p: nat, s: PageStats, f: PageStats -> nat) returns (rest: nat, n: nat)
    ensures Sum(stats, Lent(stats), f) == rest + if p in Lent(stats) then f(stats[p]) else 0
    ensures Sum(stats[p := s], Lent(stats[p := s]), f) == rest + if p in Lent(stats[p := s]) then f(s) else 0
    ensures |Lent(stats)| == n + if p in Lent(stats) then 1 else 0
    ensures |Lent(stats[p := s])| == n + if p in Lent(stats[p := s]) then 1 else 0
  {
    SumSplit(stats, p, f);
    SumSplit(stats[p := s], p, f);
    OthersUnchanged(stats, p, s, f);
    rest, n := Sum(stats, Lent(stats) - {p}, f), |Lent(stats) - {p}|;
  }

  function Init(l: Ledger, b: BlockRef, memorySize: nat): Ledger {
    if b.Child? then l else l.(stats := l.stats[b.page := PageStats(true, 0, 0, memorySize)])
  }

  /** A hint is created for a block of which `size` bytes are sent. */
  function Inc(l: Ledger, b: BlockRef, size: nat): Ledger {
    var l := l.(hints := l.hints + multiset{b.page});
    if !IsSetUp(l.stats, b.page) then l
    else
      var s, c := l.stats[b.page], l.counters;
      var first := s.countRef == 0;
      l.(stats := l.stats[b.page := s.(countRef := s.countRef + 1, dataSizeAccounted := s.dataSizeAccounted + size)],
         counters := c.(pagesPending := c.pagesPending + if first then 1 else 0,
                        memoryPendingBytes := c.memoryPendingBytes + if first then s.memorySizeAccounted else 0,
                        payloadPendingBytes := c.payloadPendingBytes + size))
  }

  /** FMQ acknowledges a hint. */
  function Dec(l: Ledger, b: BlockRef): Ledger {
    var l := l.(hints := l.hints - multiset{b.page});
    if !IsSetUp(l.stats, b.page) then l
    else
      var s, c := l.stats[b.page].(countRef := l.stats[b.page].countRef - 1), l.counters;
      if s.countRef != 0 then l.(stats := l.stats[b.page := s])
      else
        l.(stats := l.stats[b.page := s.(magic := false)],
           counters := Counters(c.pagesPending - 1, c.payloadPendingBytes - s.dataSizeAccounted,
                                c.memoryPendingBytes - s.memorySizeAccounted, c.released + 1))
  }

  lemma DecCases(l: Ledger, b: BlockRef)
    ensures Dec(l, b).hints == l.hints - multiset{b.page}
    ensures !IsSetUp(l.stats, b.page) ==> Dec(l, b).stats == l.stats && Dec(l, b).counters == l.counters
    ensures IsSetUp(l.stats, b.page) ==>
              var s, c := l.stats[b.page], l.counters;
              if s.countRef != 1 then
                Dec(l, b).stats == l.stats[b.page := s.(countRef := s.countRef - 1)] && Dec(l, b).counters == c
              else
                && Dec(l, b).stats == l.stats[b.page := s.(countRef := 0, magic := false)]
                && Dec(l, b).counters == Counters(c.pagesPending - 1, c.payloadPendingBytes - s.dataSizeAccounted,
                                                  c.memoryPendingBytes - s.memorySizeAccounted, c.released + 1)
  {
  }

  /** Setting up a page keeps the accounts balanced exactly when FMQ holds no reference to it. */
  lemma InitBalanced(l: Ledger, page: nat, memorySize: nat)
    requires Balanced(l)
    ensures Balanced(Init(l, Page(page), memorySize)) <==> l.hints[page] == 0
  {
    var s := PageStats(true, 0, 0, memorySize);
    var data, n := SumUpdate(l.stats, page, s, DATA);
    var memory, m := SumUpdate(l.stats, page, s, MEMORY);
    var after := Init(l, Page(page), memorySize);
    assert after.stats[page].countRef == 0;
  }

  lemma IncBalanced(l: Ledger, b: BlockRef, size: nat)
    requires Balanced(l)
    ensures Balanced(Inc(l, b, size))
  {
    if IsSetUp(l.stats, b.page) {
      var s := Inc(l, b, size).stats[b.page];
      var data, n := SumUpdate(l.stats, b.page, s, DATA);
      var memory, m := SumUpdate(l.stats, b.page, s, MEMORY);
    }
  }

  lemma DecBalanced(l: Ledger, b: BlockRef)
    requires Balanced(l) && l.hints[b.page] > 0
    ensures Balanced(Dec(l, b))
  {
    if IsSetUp(l.stats, b.page) {
      var s := Dec(l, b).stats[b.page];
      var data, n := SumUpdate(l.stats, b.page, s, DATA);
      var memory, m := SumUpdate(l.stats, b.page, s, MEMORY);
    }
  }

  datatype Event = SetUp(page: nat, memorySize: nat) | Send(block: BlockRef, size: nat) | Ack(block: BlockRef)

  /** A page is not set up again while it is lent, and FMQ acknowledges only what it was given. */
  predicate IsLegal(l: Ledger, e: Event) {
    match e
    case SetUp(page, _) => l.hints[page] == 0
    case Send(_, _) => true
    case Ack(block) => l.hints[block.page] > 0
  }

  function Apply(l: Ledger, e: Event): Ledger {
    match e
    case SetUp(page, memorySize) => Init(l, Page(page), memorySize)
    case Send(block, size) => Inc(l, block, size)
    case Ack(block) => Dec(l, block)
  }

  function PageOf(e: Event): nat {
    match e case SetUp(page, _) => page case Send(block, _) => block.page case Ack(block) => block.page
  }

  predicate IsLegalRun(l: Ledger, es: seq<Event>)
    decreases |es|
  {
    es == [] || (IsLegal(l, es[0]) && IsLegalRun(Apply(l, es[0]), es[1..]))
  }

  function Run(l: Ledger, es: seq<Event>): Ledger
    decreases |es|
  {
    if es == [] then l else Run(Apply(l, es[0]), es[1..])
  }

  /** The accounts stay balanced over any run, however messages and acknowledgements interleave. */
  lemma {:induction false} RunBalanced(l: Ledger, es: seq<Event>)
    requires Balanced(l) && IsLegalRun(l, es)
    ensures Balanced(Run(l, es))
    decreases |es|
  {
    if es != [] {
      match es[0] {
        case SetUp(page, memorySize) => InitBalanced(l, page, memorySize);
        case Send(block, size) => IncBalanced(l, block, size);
        case Ack(block) => DecBalanced(l, block);
      }
      RunBalanced(Apply(l, es[0]), es[1..]);
    }
  }

  lemma ApplyFrame(l: Ledger, e: Event, page: nat)
    requires PageOf(e) != page
    ensures Apply(l, e).hints[page] == l.hints[page]
    ensures page in Apply(l, e).stats <==> page in l.stats
    ensures page in l.stats ==> Apply(l, e).stats[page] == l.stats[page]
  {
  }

  /** A run leaves alone the pages it does not mention. */
  lemma {:induction false} RunFrame(l: Ledger, es: seq<Event>, page: nat)
    requires forall e :: e in es ==> PageOf(e) != page
    ensures Run(l, es).hints[page] == l.hints[page]
    ensures page in Run(l, es).stats <==> page in l.stats
    ensures page in l.stats ==> Run(l, es).stats[page] == l.stats[page]
    decreases |es|
  {
    if es != [] {
      assert es[0] in es;
      ApplyFrame(l, es[0], page);
      RunFrame(Apply(l, es[0]), es[1..], page);
    }
  }

  /**
   Whatever happens to some pages, once FMQ holds none of them any more the three counters are back to what they were
   when those pages were not lent: be it that all the parts of a message were acknowledged, or that the message was
   cleared.
   */
  lemma CountersRestored(l: Ledger, es: seq<Event>, pages: set<nat>)
    requires Balanced(l) && IsLegalRun(l, es)
    requires forall e :: e in es ==> PageOf(e) in pages
    requires forall p :: p in pages ==> l.hints[p] == 0 && Run(l, es).hints[p] == 0
    ensures var before, after := l.counters, Run(l, es).counters;
            && after.pagesPending == before.pagesPending
            && after.payloadPendingBytes == before.payloadPendingBytes
            && after.memoryPendingBytes == before.memoryPendingBytes
  {
    var r := Run(l, es);
    RunBalanced(l, es);
    forall p | p !in pages
      ensures p in r.stats <==> p in l.stats
      ensures p in l.stats ==> r.stats[p] == l.stats[p]
    {
      RunFrame(l, es, p);
    }
    assert Lent(r.stats) == Lent(l.stats);
    SumFrame(l.stats, r.stats, Lent(l.stats), DATA);
    SumFrame(l.stats, r.stats, Lent(l.stats), MEMORY);
  }

  /** When FMQ holds nothing, nothing is pending. */
  lemma NothingPending(l: Ledger)
    requires Balanced(l) && l.hints == multiset{}
    ensures l.counters.pagesPending == l.counters.payloadPendingBytes == l.counters.memoryPendingBytes == 0
  {
    assert Lent(l.stats) == {};
  }

  function TotalSize(parts: seq<(BlockRef, nat)>): nat {
    if parts == [] then 0 else parts[0].1 + TotalSize(parts[1..])
  }

  function SendParts(l: Ledger, parts: seq<(BlockRef, nat)>): Ledger
    decreases |parts|
  {
    if parts == [] then l else SendParts(Inc(l, parts[0].0, parts[0].1), parts[1..])
  }

  /** Sending a message whose pages are set up makes exactly its bytes pending, and hands out one hint per part. */
  lemma {:induction false} MessagePending(l: Ledger, parts: seq<(BlockRef, nat)>)
    requires forall x :: x in parts ==> IsSetUp(l.stats, x.0.page)
    ensures SendParts(l, parts).counters.payloadPendingBytes == l.counters.payloadPendingBytes + TotalSize(parts)
    ensures |SendParts(l, parts).hints| == |l.hints| + |parts|
    decreases |parts|
  {
    if parts != [] {
      assert parts[0] in parts;
      MessagePending(Inc(l, parts[0].0, parts[0].1), parts[1..]);
    }
  }

  // ----- what a page is accounted for -----

  /** Hints handed out to a page and its children. */
  function Sends(es: seq<Event>, page: nat): nat {
    if es == [] then 0
    else
      var e := es[|es| - 1];
      Sends(es[..|es| - 1], page) + if e.Send? && e.block.page == page then 1 else 0
  }

  function Acks(es: seq<Event>, page: nat): nat {
    if es == [] then 0
    else
      var e := es[|es| - 1];
      Acks(es[..|es| - 1], page) + if e.Ack? && e.block.page == page then 1 else 0
  }

  function BytesSent(es: seq<Event>, page: nat): nat {
    if es == [] then 0
    else
      var e := es[|es| - 1];
      BytesSent(es[..|es| - 1], page) + if e.Send? && e.block.page == page then e.size else 0
  }

  /** The page is set up once, at the start, and each acknowledgement leaves one of its hints not acknowledged. */
  predicate IsUse(es: seq<Event>, page: nat) {
    && es != [] && es[0].SetUp? && es[0].page == page
    && (forall k :: 0 < k < |es| && es[k].SetUp? ==> es[k].page != page)
    && (forall n :: 0 < n <= |es| && Acks(es[..n], page) > 0 ==> Acks(es[..n], page) < Sends(es[..n], page))
  }

  lemma UsePrefix(es: seq<Event>, page: nat)
    requires IsUse(es, page) && |es| > 1
    ensures IsUse(es[..|es| - 1], page)
  {
    var es' := es[..|es| - 1];
    forall n | 0 < n <= |es'| && Acks(es'[..n], page) > 0
      ensures Acks(es'[..n], page) < Sends(es'[..n], page)
    {
      assert es'[..n] == es[..n];
    }
  }

  lemma {:induction false} RunAppend(l: Ledger, es: seq<Event>, more: seq<Event>)
    ensures Run(l, es + more) == Run(Run(l, es), more)
    decreases |es|
  {
    if es == [] {
      assert es + more == more;
    } else {
      assert (es + more)[1..] == es[1..] + more;
      RunAppend(Apply(l, es[0]), es[1..], more);
    }
  }

  lemma RunLast(l: Ledger, es: seq<Event>)
    requires es != []
    ensures Run(l, es) == Apply(Run(l, es[..|es| - 1]), es[|es| - 1])
  {
    var n := |es| - 1;
    assert es[..n] + [es[n]] == es;
    RunAppend(l, es[..n], [es[n]]);
    assert [es[n]][1..] == [];
  }

  /**
   While a page is in use, it is accounted for with the memory size given when it was set up, with all bytes sent since
   then and with one reference for each hint not acknowledged, whatever happens to other pages in between.
   */
  lemma {:induction false} PageInUse(l: Ledger, es: seq<Event>, page: nat)
    requires IsUse(es, page)
    ensures IsSetUp(Run(l, es).stats, page)
    ensures var s := Run(l, es).stats[page];
            && s.memorySizeAccounted == es[0].memorySize && s.dataSizeAccounted == BytesSent(es, page)
            && s.countRef == Sends(es, page) - Acks(es, page)
    decreases |es|
  {
    var n := |es| - 1;
    RunLast(l, es);
    assert es[..|es|] == es;
    if n == 0 {
      assert es[..n] == [];
    } else {
      UsePrefix(es, page);
      PageInUse(l, es[..n], page);
      if PageOf(es[n]) != page {
        ApplyFrame(Run(l, es[..n]), es[n], page);
      }
    }
  }

  /** The last acknowledgement of a page takes away what was accounted for it, and only that. */
  lemma LastAck(l: Ledger, es: seq<Event>, b: BlockRef)
    requires IsUse(es, b.page) && Sends(es, b.page) == Acks(es, b.page) + 1
    ensures !IsSetUp(Run(l, es + [Ack(b)]).stats, b.page)
    ensures var before, after := Run(l, es).counters, Run(l, es + [Ack(b)]).counters;
            && after.pagesPending == before.pagesPending - 1 && after.released == before.released + 1
            && after.payloadPendingBytes == before.payloadPendingBytes - BytesSent(es, b.page)
            && after.memoryPendingBytes == before.memoryPendingBytes - es[0].memorySize
  {
    PageInUse(l, es, b.page);
    RunLast(l, es + [Ack(b)]);
    assert (es + [Ack(b)])[..|es|] == es;
  }

  /** From its set-up on, a page adds itself, its memory and the bytes sent from it to what is pending. */
  lemma {:induction false} PageIsPending(l: Ledger, es: seq<Event>, page: nat)
    requires IsUse(es, page) && forall e :: e in es ==> PageOf(e) == page
    ensures var before, after, out := l.counters, Run(l, es).counters, Sends(es, page) > 0;
            && after.pagesPending == before.pagesPending + (if out then 1 else 0)
            && after.payloadPendingBytes == before.payloadPendingBytes + BytesSent(es, page)
            && after.memoryPendingBytes == before.memoryPendingBytes + (if out then es[0].memorySize else 0)
            && after.released == before.released
    decreases |es|
  {
    var n := |es| - 1;
    RunLast(l, es);
    assert es[..|es|] == es;
    if n == 0 {
      assert es[..n] == [];
    } else {
      UsePrefix(es, page);
      assert es[n] in es && forall e :: e in es[..n] ==> e in es;
      PageIsPending(l, es[..n], page);
      PageInUse(l, es[..n], page);
      assert Acks(es[..n], page) == 0 || Sends(es[..n], page) > Acks(es[..n], page);
    }
  }

  class FmqAccounts {
    var stats: map<nat, PageStats>
    var pagesPendingFairMQ: int
    var ddPayloadPendingBytes: int
    var ddMemoryPendingBytes: int
    var pagesPendingFairMQreleased: int
    ghost var hints: multiset<nat>

    constructor ()
      ensures Balanced(View()) && hints == multiset{}
    {
      stats, pagesPendingFairMQ, ddPayloadPendingBytes, ddMemoryPendingBytes := map[], 0, 0, 0;
      pagesPendingFairMQreleased, hints := 0, multiset{};
    }

    ghost function View(): Ledger
      reads this
    {
      Ledger(stats, Counters(pagesPendingFairMQ, ddPayloadPendingBytes, ddMemoryPendingBytes,
                             pagesPendingFairMQreleased), hints)
    }

    method InitDataBlockStats(block: BlockRef, memorySize: nat)
      modifies this
      ensures View() == Init(old(View()), block, memorySize)
      ensures block.Child? ==> View() == old(View())
    {
      if block.Child? {
        return;
      }
      stats := stats[block.page := PageStats(true, 0, 0, memorySize)];
    }

    method IncDataBlockStats(block: BlockRef, dataSize: nat)
      modifies this
      ensures View() == Inc(old(View()), block, dataSize)
    {
      hints := hints + multiset{block.page};
      if block.page !in stats || !stats[block.page].magic {
        return;
      }
      var s := stats[block.page];
      if s.countRef == 0 {
        pagesPendingFairMQ := pagesPendingFairMQ + 1;
        ddMemoryPendingBytes := ddMemoryPendingBytes + s.memorySizeAccounted;
      }
      stats := stats[block.page := s.(countRef := s.countRef + 1, dataSizeAccounted := s.dataSizeAccounted + dataSize)];
      ddPayloadPendingBytes := ddPayloadPendingBytes + dataSize;
    }

    method DecDataBlockStats(block: BlockRef)
      modifies this
      ensures View() == Dec(old(View()), block)
    {
      hide Dec;
      DecCases(View(), block);
      hints := hints - multiset{block.page};
      if block.page !in stats || !stats[block.page].magic {
        return;
      }
      var s := stats[block.page].(countRef := stats[block.page].countRef - 1);
      if s.countRef == 0 {
        pagesPendingFairMQ := pagesPendingFairMQ - 1;
        pagesPendingFairMQreleased := pagesPendingFairMQreleased + 1;
        ddPayloadPendingBytes := ddPayloadPendingBytes - s.dataSizeAccounted;
        ddMemoryPendingBytes := ddMemoryPendingBytes - s.memorySizeAccounted;
        s := s.(magic := false);
      }
      stats := stats[block.page := s];
    }
  }
}
