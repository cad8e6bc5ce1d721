/**
 The kernel heap over the page tables that back it: `grow_heap_fn` is `grow_kernel_heap`, which asks the
 page mapper for frames. Every heap address leads to a byte of its own in a frame that no table and no
 later mapping uses.
 */
module KernelHeap {

  import opened KernelAllocator
  import opened Arithmetic
  import opened BlockHeader
  import opened Common
  import opened HeapCarve
  import opened HeapFrame
  import opened HeapMemory
  import opened HeapRequest
  import opened HeapSpec
  import opened HeapSteps
  import opened PageMapper
  import opened PageTableEntry
  import opened PageTree

  const HEAP_SPAN := ADDRESS_LIMIT - HEAP_START
  const FIRST_SIZE := 4 * PAGE_SIZE

  /** READ, WRITE, ACCESSED and DIRTY, with the T-Head memory type where the CPU needs it. */
  function HeapFlags(thead: int): PageFlags { PageFlags(198, thead) }

  function PageNumber(w: int): int { (w - HEAP_START) / PAGE_SIZE }

  /** The pages are distinct frames, neither tables nor free. */
  ghost predicate Reserved(place: map<int, Place>, frames: seq<int>, pages: seq<int>) {
    && (forall k | 0 <= k < |pages| :: Frame(pages[k]) && pages[k] !in place && pages[k] !in frames)
    && (forall j, k | 0 <= j < k < |pages| :: pages[j] != pages[k])
  }

  predicate LeadsInto(t: Tree, pages: seq<int>, w: int) {
    0 <= PageNumber(w) < |pages| && VirtToPhys(t, w) == Some(pages[PageNumber(w)] + w % PAGE_SIZE)
  }

  /** The entry for the address says VALID, READ, WRITE, ACCESSED and DIRTY: no code, and not for users. */
  predicate Permits(t: Tree, w: int) {
    WalkTo(t, w).Some? && WalkTo(t, w).value.entry % 1024 == 1 + 2 + 4 + 64 + 128
  }

  /** The heap up to `end` is backed by `pages`, as data of the kernel, and no larger page is in the way of its growth. */
  ghost predicate HeapBacked(t: Tree, frames: seq<int>, end: int, pages: seq<int>) {
    && end == HEAP_START + |pages| * PAGE_SIZE <= ADDRESS_LIMIT
    && Reserved(t.place, frames, pages)
    && NoneLarger(t, HEAP_START, HEAP_SPAN, Size4K)
    && forall w | HEAP_START <= w < end :: LeadsInto(t, pages, w) && Permits(t, w)
  }

  /** No word of these pages differs. */
  ghost predicate PagesSpared(was: Ram, now: Ram, pages: seq<int>) {
    forall k, j: int | 0 <= k < |pages| :: Word(now, pages[k], j) == Word(was, pages[k], j)
  }

  // ---------------------------------------------------------------- addresses of the heap

  lemma WindowOfHeap(w: int, end: int, len: int)
    requires HEAP_START <= end && 0 <= len && end + len <= ADDRESS_LIMIT && Distance(w, end) < len
    ensures Distance(w, HEAP_START) < HEAP_SPAN
  {
    var q := Distance(w, end);
    QuotientRemainder(w - HEAP_START, VA_SIZE, (w - end) / VA_SIZE, q + end - HEAP_START);
  }

  lemma NoneLargerAbove(t: Tree, end: int, len: int)
    requires NoneLarger(t, HEAP_START, HEAP_SPAN, Size4K) && HEAP_START <= end && 0 <= len && end + len <= ADDRESS_LIMIT
    ensures NoneLarger(t, end, len, Size4K)
  {
    hide NoLarger, Distance;
    forall w: int | 0 <= w && Distance(w, end) < len ensures NoLarger(t, w, Size4K) { WindowOfHeap(w, end, len); }
  }

  lemma DistanceInHeap(w: int, end: int)
    requires HEAP_START <= w < ADDRESS_LIMIT && HEAP_START <= end <= ADDRESS_LIMIT
    ensures Distance(w, end) == if w < end then w - end + VA_SIZE else w - end
  {
    QuotientRemainder(w - end, VA_SIZE, if w < end then -1 else 0, if w < end then w - end + VA_SIZE else w - end);
  }

  // ---------------------------------------------------------------- growth

  lemma ReservedMore(place: map<int, Place>, f: seq<int>, pages: seq<int>, now: map<int, Place>, g: seq<int>, added: seq<int>)
    requires Reserved(place, f, pages) && OwnFrames(added, f, now, g) && TakenFrom(f, g) && NewTablesFrom(place, now, f)
    ensures Reserved(now, g, pages + added)
  {
    hide Frame;
    forall k | 0 <= k < |pages| ensures pages[k] !in now && pages[k] !in g {
      assert pages[k] !in place && pages[k] !in f;
    }
  }

  /** An address behind the old end leads into the pages added, any other where it led before. */
  lemma GrownLeads(t: Tree, n: Tree, end: int, pages: seq<int>, added: seq<int>, thead: int, w: int)
    requires end == HEAP_START + |pages| * PAGE_SIZE && NoneLarger(t, HEAP_START, HEAP_SPAN, Size4K)
    requires HEAP_START <= w < end + |added| * PAGE_SIZE <= ADDRESS_LIMIT
    requires w < end ==> LeadsInto(t, pages, w) && Permits(t, w)
    requires Leads(t, n, end, added) && Flagged(t, n, end, |added| * PAGE_SIZE, Size4K, HeapFlags(thead))
    ensures LeadsInto(n, pages + added, w) && Permits(n, w)
  {
    hide Distance, NoLarger, VirtToPhys, WalkTo;
    DistanceInHeap(w, end);
    DistanceInHeap(w, HEAP_START);
    assert VirtToPhys(n, w) == PhysAfter(t, w, end, added);
  }

  lemma GrownBacked(t: Tree, f: seq<int>, n: Tree, g: seq<int>, end: int, pages: seq<int>, added: seq<int>, thead: int)
    requires HeapBacked(t, f, end, pages) && end + |added| * PAGE_SIZE <= ADDRESS_LIMIT
    requires OwnFrames(added, f, n.place, g) && TakenFrom(f, g) && NewTablesFrom(t.place, n.place, f)
    requires Flagged(t, n, end, |added| * PAGE_SIZE, Size4K, HeapFlags(thead))
    requires Leads(t, n, end, added) && forall w: int | 0 <= w && NoLarger(t, w, Size4K) :: NoLarger(n, w, Size4K)
    ensures HeapBacked(n, g, end + |added| * PAGE_SIZE, pages + added)
  {
    hide Distance, NoLarger, Leads, Flagged, OwnFrames, LeadsInto, Permits, Reserved;
    ReservedMore(t.place, f, pages, n.place, g, added);
    forall w | HEAP_START <= w < end + |added| * PAGE_SIZE ensures LeadsInto(n, pages + added, w) && Permits(n, w) {
      GrownLeads(t, n, end, pages, added, thead, w);
    }
  }

  lemma SparedPages(t: Tree, f: seq<int>, n: Tree, pages: seq<int>)
    requires Reserved(t.place, f, pages) && SparesFrames(t, f, n)
    ensures PagesSpared(t.ram, n.ram, pages)
  {
    hide Word, Frame;
  }

  lemma HeapFacts(t: Tree, frames: seq<int>, end: int, pages: seq<int>, n: int)
    requires HeapBacked(t, frames, end, pages) && 0 <= n && end + n <= ADDRESS_LIMIT
    ensures HEAP_START <= end && end % PAGE_SIZE == 0 && Reserved(t.place, frames, pages) && NoneLarger(t, end, n, Size4K)
  {
    hide Reserved, NoneLarger, LeadsInto, Permits;
    NoneLargerAbove(t, end, n);
  }

  lemma NothingBacked(t: Tree, frames: seq<int>)
    requires NoneLarger(t, HEAP_START, HEAP_SPAN, Size4K)
    ensures HeapBacked(t, frames, HEAP_START, [])
  {
  }

  lemma SparedBySame(ram: Ram, pages: seq<int>)
    ensures PagesSpared(ram, ram, pages)
  {
  }

  /** The bytes a request for pages comes to. */
  lemma WholePages(request: nat)
    ensures 0 <= request <= AlignUp(request, PAGE_SIZE) && AlignUp(request, PAGE_SIZE) % PAGE_SIZE == 0
  {
    AlignUpIsLeast(request, PAGE_SIZE);
  }

  // ---------------------------------------------------------------- the heap in physical memory

  lemma LeadsThere(t: Tree, frames: seq<int>, end: int, pages: seq<int>, w: int)
    requires HeapBacked(t, frames, end, pages) && HEAP_START <= w < end
    ensures LeadsInto(t, pages, w) && Permits(t, w) && Reserved(t.place, frames, pages)
  {
    hide LeadsInto, Permits, Reserved, NoneLarger;
  }

  /** Different heap addresses lead to different bytes, and to none in a table or a free frame. */
  lemma PhysicallyApart(t: Tree, frames: seq<int>, end: int, pages: seq<int>, v: int, w: int)
    requires HeapBacked(t, frames, end, pages) && HEAP_START <= v < end && HEAP_START <= w < end
    ensures VirtToPhys(t, v).Some? && (v != w ==> VirtToPhys(t, v) != VirtToPhys(t, w))
    ensures var p := VirtToPhys(t, v).value;
            p - p % PAGE_SIZE !in t.place && p - p % PAGE_SIZE !in frames && p % PAGE_SIZE == v % PAGE_SIZE
  {
    hide VirtToPhys, HeapBacked, Permits;
    LeadsThere(t, frames, end, pages, v);
    LeadsThere(t, frames, end, pages, w);
    hide PageNumber;
    var i, j := PageNumber(v), PageNumber(w);
    InFrame(pages[i], v);
    InFrame(pages[j], w);
    if v != w && i == j { SamePageApart(v, w); }
  }

  lemma InFrame(p: int, w: int)
    requires Frame(p)
    ensures (p + w % PAGE_SIZE) % PAGE_SIZE == w % PAGE_SIZE
  {
    QuotientRemainder(p + w % PAGE_SIZE, PAGE_SIZE, p / PAGE_SIZE, w % PAGE_SIZE);
  }

  lemma SamePageApart(v: int, w: int)
    requires v != w && PageNumber(v) == PageNumber(w)
    ensures v % PAGE_SIZE != w % PAGE_SIZE
  {
  }

  /** Bytes of two live allocations never share a physical address. */
  lemma LiveApart(h: Heap, t: Tree, frames: seq<int>, pages: seq<int>, x: (int, int), y: (int, int), v: int, w: int)
    requires HeapOk(h) && HeapBacked(t, frames, h.end, pages) && x in Live(h.blocks) && y in Live(h.blocks)
    requires x.0 <= v < x.0 + x.1 && y.0 <= w < y.0 + y.1
    ensures VirtToPhys(t, v).Some? && VirtToPhys(t, w).Some?
    ensures VirtToPhys(t, v) == VirtToPhys(t, w) ==> v == w && x == y
  {
    hide HeapBacked, VirtToPhys, Live;
    LivePayloadsDisjoint(h.blocks, h.free, h.end, x, y);
    LivePayloadsDisjoint(h.blocks, h.free, h.end, y, x);
    PhysicallyApart(t, frames, h.end, pages, v, w);
    PhysicallyApart(t, frames, h.end, pages, w, v);
  }

  /** Bytes of one page keep their distance in physical memory. */
  lemma PageIsContiguous(t: Tree, frames: seq<int>, end: int, pages: seq<int>, p: int, v: int)
    requires HeapBacked(t, frames, end, pages) && HEAP_START <= p <= v < end && v / PAGE_SIZE == p / PAGE_SIZE
    ensures VirtToPhys(t, p).Some? && VirtToPhys(t, v) == Some(VirtToPhys(t, p).value + (v - p))
  {
    hide VirtToPhys, HeapBacked, Permits, Reserved;
    LeadsThere(t, frames, end, pages, p);
    LeadsThere(t, frames, end, pages, v);
  }

  /** The bytes from `p` lie one behind the other in physical memory. */
  predicate Contiguous(t: Tree, p: int, size: nat) {
    VirtToPhys(t, p).Some? && forall v | p <= v < p + size :: VirtToPhys(t, v) == Some(VirtToPhys(t, p).value + (v - p))
  }

  lemma BufferIsContiguous(t: Tree, frames: seq<int>, end: int, pages: seq<int>, p: int, size: nat)
    requires HeapBacked(t, frames, end, pages) && HEAP_START <= p && 0 < size && p + size <= end
    requires p / PAGE_SIZE == (p + size - 1) / PAGE_SIZE
    ensures Contiguous(t, p, size)
  {
    hide HeapBacked, VirtToPhys;
    PageIsContiguous(t, frames, end, pages, p, p);
    forall v | p <= v < p + size ensures VirtToPhys(t, v) == Some(VirtToPhys(t, p).value + (v - p)) {
      PageIsContiguous(t, frames, end, pages, p, v);
    }
  }

  // ---------------------------------------------------------------- where a payload lies

  lemma ChosenInHeap(h: Heap, size: nat, align: int, g: Growth, bs: seq<Block>, i: nat)
    requires align > 0 && HeapOk(h) && Chosen(h, size, align, g, bs, i)
    ensures HEAP_START <= bs[i].addr && bs[i].End() <= EndAfter(h, size, align, g)
  {
    hide HasFit, FirstFitIs, GrowBlocks, AlignUp, Tiles, BlocksAre, FreeList, NoAdjacentFree, ListsFree;
    if HasFit(h.mem, h.free, size, align) {
      BlocksDisjoint(bs, h.end, i, i);
    } else {
      GrowthFacts(h.end, size, align, g);
      GrowKeepsWellFormed(h.blocks, h.free, h.end, Answer(h, size, align, g).n);
      BlocksDisjoint(bs, EndAfter(h, size, align, g), i, i);
    }
  }

  /** A payload lies in the heap, whatever state the call leaves it in. */
  lemma PayloadInHeap(h: Heap, n: Heap, size: nat, align: int, g: Growth, r: AllocResult, granted: int, spoiled: bool, bs: seq<Block>, i: nat)
    requires PowerOfTwo(align) && align > 0 && HeapOk(h) && Served(h, n, size, align, g, r, granted, spoiled, bs, i) && r.Ptr?
    ensures HEAP_START < r.p && r.p + size <= n.end
  {
    hide HeapSpec.WellFormed, Linked, WillFail, WillPanic, WillSpoil, Live, Spares, Chosen, StillAHeap, PowerOfTwo;
    if align <= 8 {
      SmallOutcome(h, size, align, g);
      assert (r.p, granted) in Live(n.blocks);
      LivePayloadsDisjoint(n.blocks, n.free, n.end, (r.p, granted), (r.p, granted));
    } else {
      ChosenInHeap(h, size, align, g, bs, i);
      AlignUpIsLeast(r.p + size, 8);
    }
  }

  lemma ServedEnds(h: Heap, n: Heap, size: nat, align: int, g: Growth, r: AllocResult, granted: int, spoiled: bool, bs: seq<Block>, i: nat)
    requires align > 0 && Served(h, n, size, align, g, r, granted, spoiled, bs, i)
    ensures n.end == EndAfter(h, size, align, g) && (!spoiled ==> HeapOk(n)) && (r.Ptr? ==> r.p % align == 0)
    ensures !HasFit(h.mem, h.free, size, align) && Answer(h, size, align, g).OutOfPages? ==> r.Panic?
  {
    hide HeapOk, WillFail, WillSpoil, Live, Spares, Chosen, StillAHeap, HasFit, Granted, PlacedIn, EndAfter;
  }

  lemma PayloadInPage(h: Heap, n: Heap, size: nat, align: int, g: Growth, r: AllocResult, granted: int, spoiled: bool, bs: seq<Block>, i: nat)
    requires PowerOfTwo(align) && 0 < size <= align <= PAGE_SIZE && HeapOk(h)
    requires Served(h, n, size, align, g, r, granted, spoiled, bs, i) && r.Ptr?
    ensures HEAP_START < r.p && r.p + size <= n.end && r.p / PAGE_SIZE == (r.p + size - 1) / PAGE_SIZE
  {
    hide HeapOk, Served, PowerOfTwo;
    PayloadInHeap(h, n, size, align, g, r, granted, spoiled, bs, i);
    ServedEnds(h, n, size, align, g, r, granted, spoiled, bs, i);
    AlignedStaysInPage(r.p, size, align);
  }

  // ---------------------------------------------------------------- the heap as the kernel runs it

  class MappedHeap {
    const heap: LinkedListAllocator
    const mapper: Mapper
    const thead: int
    var end: int                   // KERNEL_HEAP_END
    ghost var pages: seq<int>

    ghost predicate Mapped()
      reads this, mapper
    {
      mapper.Valid() && 0 <= thead < 32 && HeapBacked(mapper.View(), mapper.frames, end, pages)
    }

    ghost predicate Valid()
      reads this, heap, mapper
    {
      heap.Valid() && Mapped() && end == heap.heapEnd
    }

    /** `init` of the allocator, over the pages first mapped for it. */
    constructor (m: Mapper, memoryType: int, ghost first: seq<int>)
      requires m.Valid() && 0 <= memoryType < 32 && HeapBacked(m.View(), m.frames, HEAP_START + FIRST_SIZE, first)
      ensures Valid() && fresh(heap) && mapper == m && pages == first && Live(heap.blocks) == {}
    {
      mapper, thead, pages, end := m, memoryType, first, HEAP_START + FIRST_SIZE;
      heap := new LinkedListAllocator(FIRST_SIZE);
    }

    /** `grow_kernel_heap`. */
    method GrowKernelHeap(request: nat) returns (r: Growing)
      requires Mapped()
      modifies this`end, this`pages, mapper
      ensures r == HeapRequest.GrowKernelHeap(old(end), request, Kernel(!r.OutOfPages?))
      ensures |old(mapper.frames)| >= 3 * (AlignUp(request, PAGE_SIZE) / PAGE_SIZE) ==> !r.OutOfPages?
      ensures !r.OutOfPages? ==>
                && Mapped() && end == old(end) + (if r.Added? then r.n else 0)
                && old(pages) <= pages && PagesSpared(old(mapper.ram), mapper.ram, old(pages))
    {
      hide HeapBacked, PagesSpared, AlignUp;
      WholePages(request);
      var n := AlignUp(request, PAGE_SIZE);
      if end + n >= ADDRESS_LIMIT {
        SparedBySame(mapper.ram, pages);
        return Refused;
      }
      ghost var t, f := mapper.View(), mapper.frames;
      HeapFacts(t, f, end, pages, n);
      var ok; ghost var added;
      ok, added := mapper.AllocateAndMapPages(end, n, HeapFlags(thead), false);
      if !ok {
        return OutOfPages;
      }
      GrownBacked(t, f, mapper.View(), mapper.frames, end, pages, added, thead);
      SparedPages(t, f, mapper.View(), pages);
      end, pages := end + n, pages + added;
      r := Added(n);
    }

    /** The part of `find_fit` that grows the heap, as far as the page tables: false is the panic for want
        of frames. */
    method GrowIfNeeded(size: nat, align: int) returns (backed: bool)
      requires Valid() && PowerOfTwo(align)
      modifies this`end, this`pages, mapper
      ensures |old(mapper.frames)| >= 3 * (AlignUp(GrowRequest(size, align), PAGE_SIZE) / PAGE_SIZE) ==> backed
      ensures !backed ==> !HasFit(heap.mem, heap.free, size, align) && Answer(heap.View(), size, align, Kernel(backed)).OutOfPages?
      ensures backed ==>
                && Mapped() && end == EndAfter(heap.View(), size, align, Kernel(backed))
                && old(pages) <= pages && PagesSpared(old(mapper.ram), mapper.ram, old(pages))
    {
      assert align > 0;
      hide HeapOk, HeapBacked, PagesSpared, PowerOfTwo, AlignUp, FirstFitIs, FitsIn, HasFit;
      var fit; ghost var j;
      fit, j := heap.SearchFree(size, align);
      if fit.NoFit? {
        var grown := GrowKernelHeap(GrowRequest(size, align));
        return !grown.OutOfPages?;
      }
      SparedBySame(mapper.ram, pages);
      return true;
    }

    /** `alloc` of the kernel: `find_fit` goes by the answer of grow_kernel_heap. The pages that back the
        heap stay where they are, and growing writes nothing in them. */
    method Alloc(size: nat, align: int)
      returns (r: AllocResult, backed: bool, ghost granted: int, ghost spoiled: bool, ghost bs: seq<Block>, ghost i: nat)
      requires Valid() && PowerOfTwo(align)
      modifies this`end, this`pages, mapper, heap
      ensures Served(old(heap.View()), heap.View(), size, align, Kernel(backed), r, granted, spoiled, bs, i)
      ensures |old(mapper.frames)| >= 3 * (AlignUp(GrowRequest(size, align), PAGE_SIZE) / PAGE_SIZE) ==> backed
      ensures !backed ==> r.Panic?
      ensures backed ==>
                && Mapped() && end == heap.heapEnd && (!spoiled ==> Valid())
                && old(pages) <= pages && PagesSpared(old(mapper.ram), mapper.ram, old(pages))
    {
      assert align > 0;
      hide HeapOk, HeapBacked, PagesSpared, PowerOfTwo, Served, AlignUp, HasFit, EndAfter, Answer, PageTree.WellFormed, FramesFree;
      ghost var h := heap.View();
      backed := GrowIfNeeded(size, align);
      r, granted, spoiled, bs, i := heap.Alloc(size, align, Kernel(backed));
      ServedEnds(h, heap.View(), size, align, Kernel(backed), r, granted, spoiled, bs, i);
    }

    /** `dealloc`: the pages stay mapped. */
    method Dealloc(p: int)
      requires Valid() && (p != 0 ==> p in LiveAddrs(heap.blocks))
      modifies heap
      ensures Valid() && LiveAddrs(heap.blocks) == old(LiveAddrs(heap.blocks)) - {p}
    {
      hide HeapOk, HeapBacked, LiveAddrs;
      heap.Dealloc(p);
    }

    /** `alloc_within_page`: the buffer is contiguous in physical memory. */
    method AllocWithinPage(size: nat)
      returns (r: AllocResult, backed: bool, ghost granted: int, ghost spoiled: bool, ghost bs: seq<Block>, ghost i: nat)
      requires Valid() && size <= PAGE_SIZE
      modifies this`end, this`pages, mapper, heap
      ensures Served(old(heap.View()), heap.View(), size, PageAlign(size), Kernel(backed), r, granted, spoiled, bs, i)
      ensures backed && !spoiled ==> Valid()
      ensures !backed ==> r.Panic?
      ensures r.Ptr? && 0 < size ==> Contiguous(mapper.View(), r.p, size)
    {
      hide HeapOk, HeapBacked, PagesSpared, PowerOfTwo, NextPowerOfTwo, Served, AlignUp, Contiguous, PageTree.WellFormed, FramesFree;
      var align := NextPowerOfTwo(size);
      if PAGE_SIZE < align {
        align := PAGE_SIZE;
      }
      ghost var h := heap.View();
      r, backed, granted, spoiled, bs, i := Alloc(size, align);
      if r.Ptr? && 0 < size {
        PayloadInPage(h, heap.View(), size, align, Kernel(backed), r, granted, spoiled, bs, i);
        BufferIsContiguous(mapper.View(), mapper.frames, end, pages, r.p, size);
      }
    }
  }

  /** `map_and_initialize_kernel_heap` and `init`: null stands for the panic for want of frames. */
  method StartHeap(m: Mapper, memoryType: int) returns (k: MappedHeap?)
    requires m.Valid() && 0 <= memoryType < 32 && NoneLarger(m.View(), HEAP_START, HEAP_SPAN, Size4K)
    modifies m
    ensures |old(m.frames)| >= 12 ==> k != null
    ensures k != null ==> k.Valid() && fresh(k) && k.mapper == m && Live(k.heap.blocks) == {}
  {
    hide HeapBacked, NoneLarger, NoLarger;
    ghost var t, f := m.View(), m.frames;
    NothingBacked(t, f);
    HeapFacts(t, f, HEAP_START, [], FIRST_SIZE);
    var ok; ghost var first;
    ok, first := m.AllocateAndMapPages(HEAP_START, FIRST_SIZE, HeapFlags(memoryType), false);
    if !ok {
      return null;
    }
    GrownBacked(t, f, m.View(), m.frames, HEAP_START, [], first, memoryType);
    assert [] + first == first;
    k := new MappedHeap(m, memoryType, first);
  }
}
