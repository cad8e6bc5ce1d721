/**
 The page allocator. Its free list lives in the free pages themselves: a node at the start of a run
 of free pages holds the length of the run and the address of the next node (0 for none).
 */
module PageAllocator {

  import opened Arithmetic
  import opened Common
  import opened Memory

  datatype Node = Node(next: int, count: int)

  datatype Run = Run(addr: int, count: nat)

  // ---------------------------------------------------------------- pages

  /** The n pages from addr on, by address. */
  function Pages(addr: int, n: nat): set<int> {
    if n == 0 then {} else Pages(addr, n - 1) + {PageAt(addr, n - 1)}
  }

  function PageAt(addr: int, i: int): int { addr + i * PAGE_SIZE }

  lemma {:induction false} PagesBound(addr: int, n: nat, p: int)
    requires p in Pages(addr, n)
    ensures addr <= p && p + PAGE_SIZE <= addr + n * PAGE_SIZE
  {
    if p in Pages(addr, n - 1) { PagesBound(addr, n - 1, p); }
  }

  lemma {:induction false} PagesCount(addr: int, n: nat)
    ensures |Pages(addr, n)| == n && (n > 0 ==> addr in Pages(addr, n))
  {
    if n > 0 {
      PagesCount(addr, n - 1);
      LastIsNew(addr, n);
    }
  }

  lemma LastIsNew(addr: int, n: nat)
    requires n > 0
    ensures PageAt(addr, n - 1) !in Pages(addr, n - 1)
  {
    if PageAt(addr, n - 1) in Pages(addr, n - 1) {
      PagesBound(addr, n - 1, PageAt(addr, n - 1));
    }
  }

  lemma {:induction false} PagesAligned(addr: int, n: nat)
    requires addr % PAGE_SIZE == 0
    ensures forall p :: p in Pages(addr, n) ==> p % PAGE_SIZE == 0
  {
    if n > 0 {
      PagesAligned(addr, n - 1);
      QuotientRemainder(PageAt(addr, n - 1), PAGE_SIZE, addr / PAGE_SIZE + (n - 1), 0);
    }
  }

  function FreeOf(l: seq<Run>): set<int> {
    if l == [] then {} else Pages(l[0].addr, l[0].count) + FreeOf(l[1..])
  }

  function Total(l: seq<Run>): nat {
    if l == [] then 0 else l[0].count + Total(l[1..])
  }

  predicate Disjoint(l: seq<Run>) {
    l == [] || (Pages(l[0].addr, l[0].count) !! FreeOf(l[1..]) && Disjoint(l[1..]))
  }

  /** The sum of the run lengths is the number of free pages. */
  lemma {:induction false} TotalIsCount(l: seq<Run>)
    requires Disjoint(l)
    ensures |FreeOf(l)| == Total(l)
  {
    if l != [] {
      PagesCount(l[0].addr, l[0].count);
      TotalIsCount(l[1..]);
      hide Pages;
    }
  }

  // ---------------------------------------------------------------- the list in memory

  type Store = map<int, Node>

  predicate Chain(m: Store, head: int, l: seq<Run>)
    decreases |l|
  {
    if l == [] then head == 0
    else head != 0 && head == l[0].addr && head in m && m[head].count == l[0].count > 0 && Chain(m, m[head].next, l[1..])
  }

  /** Bytes of a node: the link and the count. */
  const NODE_SIZE := 16

  /** The memories agree wherever a node would not meet the bytes from p on. */
  predicate AgreeOutside(m: Store, n: Store, p: int, len: nat) {
    forall a | a in m && (a + NODE_SIZE <= p || p + len <= a) :: a in n && n[a] == m[a]
  }

  /** The bytes from p on meet no free page. */
  predicate MeetsNone(l: seq<Run>, p: int, len: nat) {
    forall q | q in FreeOf(l) :: p + len <= q || q + PAGE_SIZE <= p
  }

  /** The list lives in free pages only: whatever is written into bytes that meet none of them, it
      stays as it is. */
  lemma {:induction false} WritesElsewhereHarmless(m: Store, n: Store, head: int, l: seq<Run>, p: int, len: nat)
    requires Chain(m, head, l) && MeetsNone(l, p, len) && AgreeOutside(m, n, p, len)
    ensures Chain(n, head, l)
    decreases |l|
  {
    if l != [] {
      PagesCount(l[0].addr, l[0].count);
      hide Pages;
      assert head in FreeOf(l);
      WritesElsewhereHarmless(m, n, m[head].next, l[1..], p, len);
    }
  }

  /** The list follows from memory and its head. */
  lemma {:induction false} ChainUnique(m: Store, head: int, l: seq<Run>, k: seq<Run>)
    requires Chain(m, head, l) && Chain(m, head, k)
    ensures l == k
    decreases |l|
  {
    if l != [] {
      ChainUnique(m, m[head].next, l[1..], k[1..]);
      assert l == [l[0]] + l[1..] && k == [k[0]] + k[1..];
    }
  }

  /** Memories that agree but for a node at p, which is no free page, hold the same list. */
  lemma {:induction false} OtherNodeHarmless(m: Store, n: Store, head: int, l: seq<Run>, p: int)
    requires Chain(m, head, l) && p !in FreeOf(l) && forall a | a in m && a != p :: a in n && n[a] == m[a]
    ensures Chain(n, head, l)
    decreases |l|
  {
    if l != [] {
      PagesCount(l[0].addr, l[0].count);
      hide Pages;
      OtherNodeHarmless(m, n, m[head].next, l[1..], p);
    }
  }

  // ---------------------------------------------------------------- regions

  predicate PageAligned(s: seq<Region>) {
    forall i | 0 <= i < |s| :: s[i].start % PAGE_SIZE == 0 && s[i].end % PAGE_SIZE == 0
  }

  function CountOf(r: Region): int { (r.end - r.start) / PAGE_SIZE }

  lemma WholePages(r: Region)
    requires r.start < r.end && r.start % PAGE_SIZE == 0 && r.end % PAGE_SIZE == 0
    ensures CountOf(r) > 0 && CountOf(r) * PAGE_SIZE == r.end - r.start
  {
    QuotientRemainder(r.end - r.start, PAGE_SIZE, r.end / PAGE_SIZE - r.start / PAGE_SIZE, 0);
  }

  function AllPages(s: seq<Region>): set<int>
    requires NonEmpty(s)
  {
    if s == [] then {} else Pages(s[0].start, CountOf(s[0])) + AllPages(s[1..])
  }

  /** The page lies wholly in one of the regions. */
  predicate Inside(s: seq<Region>, p: int) {
    exists i | 0 <= i < |s| :: s[i].start <= p && p + PAGE_SIZE <= s[i].end
  }

  lemma {:induction false} PagesInside(s: seq<Region>)
    requires NonEmpty(s) && PageAligned(s)
    ensures forall p :: p in AllPages(s) ==> Inside(s, p) && p % PAGE_SIZE == 0
  {
    if s != [] {
      WholePages(s[0]);
      PagesAligned(s[0].start, CountOf(s[0]));
      PagesInside(s[1..]);
      forall p | p in AllPages(s) ensures Inside(s, p) && p % PAGE_SIZE == 0 {
        if p in AllPages(s[1..]) {
          var i :| 0 <= i < |s[1..]| && s[1..][i].start <= p && p + PAGE_SIZE <= s[1..][i].end;
          assert s[i + 1] == s[1..][i];
        } else {
          PagesBound(s[0].start, CountOf(s[0]), p);
        }
      }
    }
  }

  /** No page of the first region is a page of the others. */
  lemma FirstApart(s: seq<Region>)
    requires s != [] && Separated(s) && PageAligned(s)
    ensures Pages(s[0].start, CountOf(s[0])) !! AllPages(s[1..])
  {
    WholePages(s[0]);
    PagesInside(s[1..]);
    hide AllPages, Pages;
    forall p | p in Pages(s[0].start, CountOf(s[0])) ensures p !in AllPages(s[1..]) {
      PagesBound(s[0].start, CountOf(s[0]), p);
      BelowOthers(s, p);
    }
  }

  lemma BelowOthers(s: seq<Region>, p: int)
    requires s != [] && Separated(s) && p < s[0].end
    ensures !Inside(s[1..], p)
  {
    forall i | 0 <= i < |s[1..]| ensures p < s[1..][i].start {
      assert s[0].end < s[i + 1].start;
    }
  }

  /** A page the allocator owns lies in RAM and touches no reserved region. */
  lemma NeverReserved(ram: Region, reserved: seq<Region>, s: seq<Region>, p: int, x: int)
    requires NonEmpty(s) && PageAligned(s) && p in AllPages(s) && p <= x < p + PAGE_SIZE
    requires Covers(s, x) ==> Has(ram, x) && !Covers(reserved, x)
    ensures Has(ram, x) && !Covers(reserved, x)
  {
    PagesInside(s);
    var i :| 0 <= i < |s| && s[i].start <= p && p + PAGE_SIZE <= s[i].end;
    assert Has(s[i], x);
  }

  // ---------------------------------------------------------------- the allocator's state

  /** The list is well linked, its pages are counted, and every page is free or handed out. */
  predicate Good(m: Store, head: int, l: seq<Run>, live: set<int>, all: set<int>, count: int) {
    && Chain(m, head, l) && Disjoint(l)
    && count == |FreeOf(l)| == Total(l)
    && FreeOf(l) !! live && FreeOf(l) + live == all
  }

  lemma Pushed(r: Run, l: seq<Run>)
    requires Disjoint(l) && Pages(r.addr, r.count) !! FreeOf(l)
    ensures Disjoint([r] + l) && FreeOf([r] + l) == Pages(r.addr, r.count) + FreeOf(l)
    ensures Total([r] + l) == r.count + Total(l)
  {
    hide Pages;
    assert ([r] + l)[1..] == l;
  }

  lemma ChainPushed(m: Store, head: int, l: seq<Run>, r: Run)
    requires Chain(m, head, l) && r.addr !in FreeOf(l) && r.count > 0 && r.addr != 0
    ensures Chain(m[r.addr := Node(head, r.count)], r.addr, [r] + l)
  {
    OtherNodeHarmless(m, m[r.addr := Node(head, r.count)], head, l, r.addr);
    hide FreeOf;
    assert ([r] + l)[1..] == l;
  }

  /** Putting a run of pages back. */
  lemma PutBackGood(m: Store, head: int, l: seq<Run>, live: set<int>, all: set<int>, count: int, r: Run)
    requires Good(m, head, l, live, all, count) && r.count > 0 && r.addr != 0 && Pages(r.addr, r.count) <= live
    ensures Good(m[r.addr := Node(head, r.count)], r.addr, [r] + l, live - Pages(r.addr, r.count), all, count + r.count)
    ensures FreeOf([r] + l) == FreeOf(l) + Pages(r.addr, r.count)
  {
    hide Pages, Chain, Disjoint, FreeOf, Total;
    PagesCount(r.addr, r.count);
    Pushed(r, l);
    ChainPushed(m, head, l, r);
    TotalIsCount([r] + l);
  }

  /** Some list in memory accounts for the pages. */
  ghost predicate Accounted(m: Store, head: int, live: set<int>, all: set<int>, count: int) {
    exists l :: Good(m, head, l, live, all, count)
  }

  /** The run has a page, and all its pages are handed out. At the null pointer, which as the list's head
      means an empty list, nothing may be put back and nothing may be free. */
  predicate CanPutBack(l: seq<Run>, live: set<int>, r: Run) {
    if r.addr != 0 then r.count > 0 && Pages(r.addr, r.count) <= live else r.count == 0 && FreeOf(l) == {}
  }

  /** Putting any run back keeps the account exactly then. */
  lemma PutBackIff(m: Store, head: int, l: seq<Run>, live: set<int>, all: set<int>, count: int, r: Run)
    requires Good(m, head, l, live, all, count)
    ensures Accounted(m[r.addr := Node(head, r.count)], r.addr, live - Pages(r.addr, r.count), all, count + r.count)
            <==> CanPutBack(l, live, r)
  {
    if r.addr == 0 {
      PutBackAtNull(m, head, l, live, all, count, r.count);
    } else {
      PutBackElsewhere(m, head, l, live, all, count, r);
    }
  }

  lemma PutBackAtNull(m: Store, head: int, l: seq<Run>, live: set<int>, all: set<int>, count: int, n: nat)
    requires Good(m, head, l, live, all, count)
    ensures Accounted(m[0 := Node(head, n)], 0, live - Pages(0, n), all, count + n) <==> n == 0 && FreeOf(l) == {}
  {
    var w := m[0 := Node(head, n)];
    if n == 0 && FreeOf(l) == {} {
      assert Good(w, 0, [], live - Pages(0, n), all, count + n);
    }
    if Accounted(w, 0, live - Pages(0, n), all, count + n) {
      var k :| Good(w, 0, k, live - Pages(0, n), all, count + n);
      assert k == [] && FreeOf(k) == {};
    }
  }

  lemma PutBackElsewhere(m: Store, head: int, l: seq<Run>, live: set<int>, all: set<int>, count: int, r: Run)
    requires Good(m, head, l, live, all, count) && r.addr != 0
    ensures Accounted(m[r.addr := Node(head, r.count)], r.addr, live - Pages(r.addr, r.count), all, count + r.count)
            <==> r.count > 0 && Pages(r.addr, r.count) <= live
  {
    hide Pages, Good;
    var n := m[r.addr := Node(head, r.count)];
    if r.count > 0 && Pages(r.addr, r.count) <= live {
      PutBackGood(m, head, l, live, all, count, r);
    }
    if Accounted(n, r.addr, live - Pages(r.addr, r.count), all, count + r.count) {
      var k :| Good(n, r.addr, k, live - Pages(r.addr, r.count), all, count + r.count);
      PutBackNeeds(m, head, l, live, all, count, r, k);
    }
  }

  /** A page given back twice is lost from the account. */
  lemma DoubleFreeLosesCount()
    ensures Good(map[4096 := Node(0, 1)], 4096, [Run(4096, 1)], {}, {4096}, 1)
    ensures !Accounted(map[4096 := Node(4096, 1)], 4096, {}, {4096}, 2)
  {
    var m := map[4096 := Node(0, 1)];
    OnePage();
    assert m[4096 := Node(4096, 1)] == map[4096 := Node(4096, 1)];
    PutBackIff(m, 4096, [Run(4096, 1)], {}, {4096}, 1, Run(4096, 1));
  }

  lemma OnePage()
    ensures Pages(4096, 1) == {4096}
    ensures Good(map[4096 := Node(0, 1)], 4096, [Run(4096, 1)], {}, {4096}, 1)
  {
    assert Pages(4096, 0) == {};
    assert [Run(4096, 1)][1..] == [];
  }

  lemma PutBackNeeds(m: Store, head: int, l: seq<Run>, live: set<int>, all: set<int>, count: int, r: Run, k: seq<Run>)
    requires Good(m, head, l, live, all, count) && r.addr != 0
    requires Good(m[r.addr := Node(head, r.count)], r.addr, k, live - Pages(r.addr, r.count), all, count + r.count)
    ensures r.count > 0 && Pages(r.addr, r.count) <= live
  {
    hide Pages, Total;
    PagesCount(r.addr, r.count);
    OtherNodeHarmless(m[r.addr := Node(head, r.count)], m, head, k[1..], r.addr);
    ChainUnique(m, head, l, k[1..]);
  }

  /** The first run without its last page; without the run if that was its only page. */
  function Shorter(l: seq<Run>): seq<Run>
    requires l != [] && l[0].count > 0
  {
    if l[0].count == 1 then l[1..] else [Run(l[0].addr, l[0].count - 1)] + l[1..]
  }

  lemma ShorterPages(l: seq<Run>)
    requires l != [] && l[0].count > 0 && Disjoint(l)
    ensures var page := PageAt(l[0].addr, l[0].count - 1);
            page in FreeOf(l) && FreeOf(Shorter(l)) == FreeOf(l) - {page}
    ensures Disjoint(Shorter(l)) && Total(Shorter(l)) == Total(l) - 1
  {
    hide Pages, PageAt;
    var a, n, rest := l[0].addr, l[0].count, l[1..];
    LastIsNew(a, n);
    LastPage(a, n);
    OneFewer(Pages(a, n - 1), PageAt(a, n - 1), FreeOf(rest));
    if n > 1 {
      Pushed(Run(a, n - 1), rest);
    }
  }

  lemma LastPage(addr: int, n: nat)
    requires n > 0
    ensures Pages(addr, n) == Pages(addr, n - 1) + {PageAt(addr, n - 1)}
    ensures n == 1 ==> Pages(addr, n - 1) == {}
  {
  }

  lemma OneFewer(s: set<int>, p: int, t: set<int>)
    requires p !in s && (s + {p}) !! t
    ensures s + t == (s + {p}) + t - {p} && s !! t
  {
  }

  lemma ShorterChain(m: Store, head: int, l: seq<Run>)
    requires Chain(m, head, l) && Disjoint(l) && l != []
    ensures head in m && m[head].count == l[0].count > 0
    ensures if m[head].count == 1 then Chain(m, m[head].next, Shorter(l))
            else Chain(m[head := Node(m[head].next, m[head].count - 1)], head, Shorter(l))
  {
    var n, rest := m[head], l[1..];
    PagesCount(head, l[0].count);
    hide Pages;
    assert head !in FreeOf(rest);
    if n.count > 1 {
      ChainPushed(m, n.next, rest, Run(head, n.count - 1));
    }
  }

  /** Handing out the last page of the first run. */
  lemma TakeGood(m: Store, head: int, l: seq<Run>, live: set<int>, all: set<int>, count: int)
    requires Good(m, head, l, live, all, count)
    ensures head == 0 <==> FreeOf(l) == {}
    ensures head != 0 ==>
              && l != [] && head in m && m[head].count == l[0].count > 0
              && var n, page := m[head], PageAt(head, m[head].count - 1);
              && page in FreeOf(l) && page !in live && FreeOf(Shorter(l)) == FreeOf(l) - {page}
              && if n.count == 1 then Good(m, n.next, Shorter(l), live + {page}, all, count - 1)
                 else Good(m[head := Node(n.next, n.count - 1)], head, Shorter(l), live + {page}, all, count - 1)
  {
    hide Pages, PageAt, Chain, Disjoint, FreeOf, Shorter, Total;
    HeadIs(m, head, l);
    if l != [] {
      ShorterChain(m, head, l);
      ShorterPages(l);
      TotalIsCount(Shorter(l));
      MoveOne(FreeOf(l), live, PageAt(head, m[head].count - 1));
    }
  }

  lemma HeadIs(m: Store, head: int, l: seq<Run>)
    requires Chain(m, head, l)
    ensures head == 0 <==> l == []
    ensures head == 0 <==> FreeOf(l) == {}
    ensures l != [] ==> head == l[0].addr && l[0].count > 0
  {
    if l != [] {
      PagesCount(l[0].addr, l[0].count);
      hide Pages;
      assert l[0].addr in FreeOf(l);
    }
  }

  lemma MoveOne(free: set<int>, live: set<int>, p: int)
    requires free !! live && p in free
    ensures p !in live && (free - {p}) !! (live + {p}) && (free - {p}) + (live + {p}) == free + live
  {
  }

  lemma NothingFree(all: set<int>)
    ensures Good(map[], 0, [], all, all, 0)
  {
  }

  lemma NothingLive(m: Store, head: int, l: seq<Run>, live: set<int>, all: set<int>, count: int, regions: seq<Region>)
    requires Good(m, head, l, live, all, count) && live == AllPages(regions[|regions|..])
    ensures live == {} && count == |all|
  {
    assert regions[|regions|..] == [];
    assert FreeOf(l) + {} == FreeOf(l);
  }

  // ---------------------------------------------------------------- the allocator

  class Allocator {
    var mem: Store
    var head: int
    var freePages: int
    var totalPages: int
    /** The free runs, the pages handed out, and all pages there are. */
    ghost var list: seq<Run>
    ghost var live: set<int>
    ghost var all: set<int>

    ghost function Free(): set<int>
      reads this
    {
      FreeOf(list)
    }

    ghost predicate Valid()
      reads this
    {
      Good(mem, head, list, live, all, freePages)
    }

    /** All pages of the usable regions are free. */
    constructor (regions: seq<Region>)
      requires Separated(regions) && PageAligned(regions) && forall i | 0 <= i < |regions| :: regions[i].start > 0
      ensures Valid() && all == AllPages(regions) && live == {} && freePages == totalPages == |all|
    {
      mem, head, freePages, totalPages := map[], 0, 0, 0;
      list, live, all := [], AllPages(regions), AllPages(regions);
      new;
      hide Pages, CountOf, Good, AllPages, FreeOf, Accounted;
      NothingFree(all);
      assert regions[0..] == regions;
      for i := 0 to |regions|
        invariant Valid() && all == AllPages(regions) && live == AllPages(regions[i..])
      {
        var region := regions[i];
        NextRegion(regions, i);
        Dealloc(region.start, CountOf(region));
      }
      NothingLive(mem, head, list, live, all, freePages, regions);
      totalPages := freePages;
    }

    /** Hands out a page that is free: neither handed out already nor outside the regions. */
    method Alloc() returns (r: Option<int>)
      requires Valid()
      modifies this
      ensures Valid() && all == old(all) && totalPages == old(totalPages)
      ensures r.None? <==> old(Free()) == {}
      ensures r.None? ==> live == old(live)
      ensures r.Some? ==> r.value in old(Free()) && r.value !in old(live)
                          && live == old(live) + {r.value} && Free() == old(Free()) - {r.value}
    {
      hide Good, FreeOf, Shorter, PageAt;
      TakeGood(mem, head, list, live, all, freePages);
      if head == 0 {
        return None;
      }
      var node := mem[head];
      var addr := PageAt(head, node.count - 1);
      if node.count == 1 {
        head := node.next;
      } else {
        mem := mem[head := Node(node.next, node.count - 1)];
      }
      freePages := freePages - 1;
      list, live := Shorter(list), live + {addr};
      return Some(addr);
    }

    /** Takes pages back. The pages stay accounted for exactly when `CanPutBack` says so. */
    method Dealloc(ptr: int, count: nat)
      requires Valid()
      modifies this
      ensures all == old(all) && totalPages == old(totalPages) && live == old(live) - Pages(ptr, count)
      ensures Accounted(mem, head, live, all, freePages) <==> CanPutBack(old(list), old(live), Run(ptr, count))
      ensures ptr != 0 && CanPutBack(old(list), old(live), Run(ptr, count)) ==> Valid() && Free() == old(Free()) + Pages(ptr, count)
    {
      hide Good, FreeOf, Pages, Accounted;
      ghost var r := Run(ptr, count);
      PutBackIff(mem, head, list, live, all, freePages, r);
      if ptr != 0 && count > 0 && Pages(ptr, count) <= live {
        PutBackGood(mem, head, list, live, all, freePages, r);
      }
      freePages := freePages + count;
      mem := mem[ptr := Node(head, count)];
      head := ptr;
      list, live := [r] + list, live - Pages(ptr, count);
    }
  }

  /** Whatever the owner of a page writes into it, the allocator's account stands: memory may change
      wherever a node would meet the page. */
  lemma OwnerWritesHarmless(m: Store, n: Store, head: int, l: seq<Run>, live: set<int>, regions: seq<Region>, count: int, page: int)
    requires NonEmpty(regions) && PageAligned(regions)
    requires Good(m, head, l, live, AllPages(regions), count) && page in live && AgreeOutside(m, n, page, PAGE_SIZE)
    ensures Good(n, head, l, live, AllPages(regions), count)
  {
    hide AllPages, FreeOf, Chain, Disjoint, Total, AgreeOutside, Inside;
    PagesInside(regions);
    forall q | q in FreeOf(l) ensures page + PAGE_SIZE <= q || q + PAGE_SIZE <= page {
      PagesApart(page, q);
    }
    WritesElsewhereHarmless(m, n, head, l, page, PAGE_SIZE);
  }

  lemma PagesApart(p: int, q: int)
    requires p % PAGE_SIZE == 0 && q % PAGE_SIZE == 0 && p != q
    ensures p + PAGE_SIZE <= q || q + PAGE_SIZE <= p
  {
  }

  /** The next region's pages are still to be freed, and are none of the later ones'. */
  lemma NextRegion(regions: seq<Region>, i: nat)
    requires i < |regions| && Separated(regions) && PageAligned(regions)
    ensures CountOf(regions[i]) > 0 && NonEmpty(regions[i..]) && NonEmpty(regions[i + 1..])
    ensures Pages(regions[i].start, CountOf(regions[i])) <= AllPages(regions[i..])
    ensures AllPages(regions[i..]) - Pages(regions[i].start, CountOf(regions[i])) == AllPages(regions[i + 1..])
  {
    var s := regions[i..];
    assert s[0] == regions[i] && s[1..] == regions[i + 1..];
    WholePages(regions[i]);
    assert Separated(s) by {
      forall a, b | 0 <= a < b < |s| ensures s[a].end < s[b].start {
        assert regions[i + a].end < regions[i + b].start;
      }
    }
    FirstApart(s);
    hide Pages, CountOf;
  }
}
