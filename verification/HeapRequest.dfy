/**
 What a request to the kernel heap comes to, decided from the heap as it stands before the call:
 the block it goes to, and whether it fails, panics or leaves no heap behind.
 */
module HeapRequest {

  import opened BlockHeader
  import opened Common
  import opened HeapSpec
  import opened HeapMemory
  import opened HeapCarve
  import opened HeapFrame

  /** What `find_fit` returns: nothing, a block with the header to use in it, or the panic of
      its `expect` after growing. */
  datatype Fit = NoFit | Fit(block: int, header: int) | GrowPanic

  datatype AllocResult = Null | Ptr(p: int) | Panic

  /** What grow_heap_fn is: the fixed heap of the tests, or the kernel's, which backs the new pages
      with frames if the page allocator has enough of them. */
  datatype Growth = NoGrow | Kernel(backed: bool)

  /** Its answer: refusal, the panic for want of frames, or bytes added behind the heap. */
  datatype Growing = Refused | OutOfPages | Added(n: int)

  /** `grow_kernel_heap`: whole pages, unless the new end would not be an address. */
  function GrowKernelHeap(end: int, request: int, g: Growth): Growing {
    var n := AlignUp(request, PAGE_SIZE);
    if g.NoGrow? || end + n >= ADDRESS_LIMIT then Refused
    else if !g.backed then OutOfPages
    else Added(n)
  }

  /** What `find_fit` asks for when no free block will do. */
  function GrowRequest(size: nat, align: int): int {
    Max(BLOCK_HEADER_SIZE + align + size, PAGE_SIZE)
  }

  /** The free block at `a` can serve the request without growing the heap. */
  ghost predicate FitsAt(m: Memory, a: int, size: nat, align: int)
    requires align > 0
  {
    a in m && if align <= 8 then AlignUp(size, 8) <= m[a].size
              else exists p :: Suits(a, m[a].size, size, align, p)
  }

  ghost predicate NothingSuits(b: Block, size: nat, align: int)
    requires align > 0
  {
    forall p :: !Suits(b.addr, b.size, size, align, p)
  }

  /** Some block of the free list can serve the request. */
  ghost predicate HasFit(m: Memory, free: seq<int>, size: nat, align: int)
    requires align > 0
  {
    exists k | 0 <= k < |free| :: FitsAt(m, free[k], size, align)
  }

  /** The last block is in use and the pages that would be added do not hold the request
      together with two headers. */
  predicate GrowthTooSmall(bs: seq<Block>, size: nat, align: int) {
    && bs != [] && bs[|bs| - 1].used
    && AlignUp(GrowRequest(size, align), PAGE_SIZE) < AlignUp(size, 8) + MIN_BLOCK_SIZE
  }

  /** Block `a` is the first in the free list that can serve the request. */
  ghost predicate FirstFitIs(m: Memory, free: seq<int>, a: int, size: nat, align: int)
    requires align > 0
  {
    exists j | 0 <= j < |free| :: free[j] == a && FitsAt(m, a, size, align)
                                  && forall k | 0 <= k < j :: !FitsAt(m, free[k], size, align)
  }

  // ---------------------------------------------------------------- what a request comes to

  /** The allocator's cells and what they stand for. */
  datatype Heap = Heap(mem: Memory, tail: int, freeHead: int, end: int, blocks: seq<Block>, free: seq<int>)

  ghost predicate HeapOk(h: Heap) { Represents(h.mem, h.tail, h.freeHead, h.end, h.blocks, h.free) }

  function Answer(h: Heap, size: nat, align: int, g: Growth): Growing {
    GrowKernelHeap(h.end, GrowRequest(size, align), g)
  }

  /** The block a request goes to: the first fit, or the last block of the grown heap. */
  ghost predicate Chosen(h: Heap, size: nat, align: int, g: Growth, bs: seq<Block>, i: nat)
    requires align > 0
  {
    && i < |bs|
    && if HasFit(h.mem, h.free, size, align) then bs == h.blocks && FirstFitIs(h.mem, h.free, bs[i].addr, size, align)
       else
         && h.blocks != [] && Answer(h, size, align, g).Added?
         && bs == GrowBlocks(h.blocks, h.end, Answer(h, size, align, g).n) && i == |bs| - 1
  }

  /** No block, and growth is refused. */
  ghost predicate WillFail(h: Heap, size: nat, align: int, g: Growth)
    requires align > 0
  {
    !HasFit(h.mem, h.free, size, align) && Answer(h, size, align, g).Refused?
  }

  /** No place in the block even after growing, or the excess of the carve underflows. */
  ghost predicate PanicsIn(b: Block, grown: bool, size: nat, align: int)
    requires align > 0
  {
    (grown && NothingSuits(b, size, align)) || (align > 8 && Underflows(b.addr, b.size, size, align))
  }

  ghost predicate WillPanic(h: Heap, size: nat, align: int, g: Growth)
    requires align > 0
  {
    var grown := !HasFit(h.mem, h.free, size, align);
    || (grown && Answer(h, size, align, g).OutOfPages?)
    || exists bs, i :: Chosen(h, size, align, g, bs, i) && PanicsIn(bs[i], grown, size, align)
  }

  /** Carving at the least suitable address of this block leaves no heap. */
  ghost predicate SpoilsIn(b: Block, last: bool, size: nat, align: int)
    requires align > 0
  {
    align > 8 && exists p :: IsLeast(b.addr, b.size, size, align, p) && CarveSpoils(b, last, size, p - BLOCK_HEADER_SIZE)
  }

  predicate CarveSpoils(b: Block, last: bool, size: nat, h: int) {
    var excess := Excess(b.size, b.addr, h, CarveNeed(size));
    h != b.addr && excess >= 0 && !(last && excess >= MIN_ALLOC_SIZE)
  }

  ghost predicate WillSpoil(h: Heap, size: nat, align: int, g: Growth)
    requires align > 0
  {
    exists bs, i :: Chosen(h, size, align, g, bs, i) && SpoilsIn(bs[i], i == |bs| - 1, size, align)
  }

  lemma FirstFitUnique(m: Memory, free: seq<int>, a: int, b: int, size: nat, align: int)
    requires align > 0 && FirstFitIs(m, free, a, size, align) && FirstFitIs(m, free, b, size, align)
    ensures a == b
  {
    hide FitsAt;
  }

  lemma ChosenUnique(h: Heap, size: nat, align: int, g: Growth, bs: seq<Block>, i: nat, cs: seq<Block>, j: nat)
    requires align > 0 && HeapOk(h) && Chosen(h, size, align, g, bs, i) && Chosen(h, size, align, g, cs, j)
    ensures bs == cs && i == j
  {
    hide HasFit, FirstFitIs, Answer, GrowBlocks, Tiles, BlocksAre, FreeList, NoAdjacentFree, ListsFree;
    if HasFit(h.mem, h.free, size, align) {
      FirstFitUnique(h.mem, h.free, bs[i].addr, cs[j].addr, size, align);
      BlocksDisjoint(bs, h.end, i, j);
      BlocksDisjoint(bs, h.end, j, i);
    }
  }

  /** The chosen block decides. */
  lemma ChosenDecides(h: Heap, size: nat, align: int, g: Growth, bs: seq<Block>, i: nat)
    requires align > 0 && HeapOk(h) && Chosen(h, size, align, g, bs, i)
    ensures !WillFail(h, size, align, g)
    ensures WillPanic(h, size, align, g) <==> PanicsIn(bs[i], !HasFit(h.mem, h.free, size, align), size, align)
    ensures WillSpoil(h, size, align, g) <==> SpoilsIn(bs[i], i == |bs| - 1, size, align)
  {
    hide HeapOk, HasFit, FirstFitIs, Answer, GrowBlocks, PanicsIn, SpoilsIn;
    forall cs, j | Chosen(h, size, align, g, cs, j) ensures cs == bs && j == i {
      ChosenUnique(h, size, align, g, bs, i, cs, j);
    }
  }

  lemma SpoilsAtLeast(b: Block, last: bool, size: nat, align: int, h: int)
    requires align > 8 && IsLeast(b.addr, b.size, size, align, h + BLOCK_HEADER_SIZE)
    ensures SpoilsIn(b, last, size, align) <==> CarveSpoils(b, last, size, h)
  {
    hide Suits, CarveSpoils;
    assert h + BLOCK_HEADER_SIZE - BLOCK_HEADER_SIZE == h;
    forall p | IsLeast(b.addr, b.size, size, align, p) ensures p == h + BLOCK_HEADER_SIZE { }
  }

  /** At small alignments: no carving, and a panic exactly when frames run out, or the last block is
      in use and the new pages do not hold the request together with two headers. */
  lemma SmallOutcome(h: Heap, size: nat, align: int, g: Growth)
    requires PowerOfTwo(align) && align <= 8 && HeapOk(h)
    ensures align > 0 && !WillSpoil(h, size, align, g)
    ensures WillPanic(h, size, align, g) <==>
              && !HasFit(h.mem, h.free, size, align)
              && match Answer(h, size, align, g)
                 case Refused => false
                 case OutOfPages => true
                 case Added(_) => GrowthTooSmall(h.blocks, size, align)
  {
    PowerIsPositive(align);
    hide HasFit, FirstFitIs, PowerOfTwo, NothingSuits, GrowRequest, AlignUp;
    if !HasFit(h.mem, h.free, size, align) && Answer(h, size, align, g).Added? {
      NotEmpty(h.mem, h.tail, h.freeHead, h.end, h.blocks, h.free);
      var bs := GrowBlocks(h.blocks, h.end, Answer(h, size, align, g).n);
      GrownLast(h.blocks, h.end, Answer(h, size, align, g).n);
      assert Chosen(h, size, align, g, bs, |bs| - 1);
      SmallGrowPanics(h.mem, h.tail, h.freeHead, h.end, h.blocks, h.free, size, align);
      hide HeapOk, GrowBlocks;
      ChosenDecides(h, size, align, g, bs, |bs| - 1);
    }
  }

  /** The block and the header in it that serve a request. */
  ghost predicate FitsIn(b: Block, size: nat, align: int, block: int, header: int)
    requires align > 0
  {
    && !b.used && b.addr == block && Placement(b, size, align, header)
    && if align <= 8 then header == block else IsLeast(block, b.size, size, align, header + BLOCK_HEADER_SIZE)
  }

  /** Where the heap ends after the search. */
  ghost function EndAfter(h: Heap, size: nat, align: int, g: Growth): int
    requires align > 0
  {
    if !HasFit(h.mem, h.free, size, align) && Answer(h, size, align, g).Added? then h.end + Answer(h, size, align, g).n else h.end
  }

  /** What find_fit has done, from heap h to heap n. */
  ghost predicate Found(h: Heap, n: Heap, size: nat, align: int, g: Growth, r: Fit, i: nat)
    requires align > 0
  {
    && Live(n.blocks) == Live(h.blocks) && Spares(h.mem, n.mem, Live(h.blocks)) && n.end == EndAfter(h, size, align, g)
    && match r
       case NoFit => WillFail(h, size, align, g) && n == h
       case GrowPanic =>
         && !HasFit(h.mem, h.free, size, align)
         && (Answer(h, size, align, g).OutOfPages?
             || (Chosen(h, size, align, g, n.blocks, i) && NothingSuits(n.blocks[i], size, align)))
       case Fit(block, header) =>
         && Chosen(h, size, align, g, n.blocks, i) && FitsIn(n.blocks[i], size, align, block, header)
         && (HasFit(h.mem, h.free, size, align) ==> n == h)
         && (!HasFit(h.mem, h.free, size, align) ==> !NothingSuits(n.blocks[i], size, align))
  }

  /** What growing by n bytes for a request has done. */
  ghost predicate Grew(h: Heap, n: Heap, k: int, size: nat, align: int, r: Fit)
    requires align > 0
  {
    && h.blocks != [] && n.blocks == GrowBlocks(h.blocks, h.end, k) && n.blocks != [] && n.end == h.end + k
    && Live(n.blocks) == Live(h.blocks) && Spares(h.mem, n.mem, Live(h.blocks))
    && var b := n.blocks[|n.blocks| - 1];
    match r
    case NoFit => false
    case GrowPanic => NothingSuits(b, size, align)
    case Fit(block, header) => FitsIn(b, size, align, block, header) && !NothingSuits(b, size, align)
  }

  ghost function LastIndex(h: Heap): nat { if h.blocks == [] then 0 else |h.blocks| - 1 }

  lemma GrownBlock(h: Heap, n: Heap, k: int) returns (b: Block)
    requires HeapOk(h) && HeapOk(n) && h.blocks != [] && n.blocks == GrowBlocks(h.blocks, h.end, k)
    ensures n.blocks != [] && b == n.blocks[|n.blocks| - 1] && !b.used
    ensures n.tail == b.addr && b.addr in n.mem && n.mem[b.addr].size == b.size && b.addr % 8 == 0 && b.size % 8 == 0
  {
    hide Tiles, BlocksAre, FreeList, NoAdjacentFree, ListsFree, HeaderIs;
    GrownLast(h.blocks, h.end, k);
    var i := |n.blocks| - 1;
    b := n.blocks[i];
    BlockFacts(n.mem, n.tail, n.freeHead, n.end, n.blocks, n.free, i);
    SizeOfHeader(n.mem, b, Before(0, n.blocks, i));
  }

  lemma GrownLive(h: Heap, k: int)
    requires HeapOk(h) && k >= MIN_BLOCK_SIZE && k % 8 == 0 && h.end + k <= ADDRESS_LIMIT
    ensures h.blocks != [] && Live(GrowBlocks(h.blocks, h.end, k)) == Live(h.blocks)
  {
    hide Tiles, BlocksAre, FreeList, NoAdjacentFree, ListsFree, Live, GrowBlocks;
    GrowKeepsWellFormed(h.blocks, h.free, h.end, k);
  }

  lemma GrewDone(h: Heap, n: Heap, k: int, size: nat, align: int, r: Fit, found: Option<int>)
    requires HeapOk(h) && HeapOk(n) && h.blocks != [] && n.blocks == GrowBlocks(h.blocks, h.end, k) && PowerOfTwo(align)
    requires k >= MIN_BLOCK_SIZE && k % 8 == 0 && h.end + k <= ADDRESS_LIMIT && n.tail in n.mem && align > 0
    requires r == if found.None? then GrowPanic else Fit(n.tail, found.value)
    requires found.Some? ==> IsLeast(n.tail, n.mem[n.tail].size, size, align, found.value + BLOCK_HEADER_SIZE)
    requires found.None? ==> forall q :: !Suits(n.tail, n.mem[n.tail].size, size, align, q)
    requires Spares(h.mem, n.mem, Live(h.blocks)) && n.end == h.end + k
    ensures Grew(h, n, k, size, align, r)
  {
    hide Represents, Suits, PowerOfTwo, Placement, Live, IsLeast, NothingSuits, GrowBlocks, Spares;
    var b := GrownBlock(h, n, k);
    GrownLive(h, k);
    if found.Some? {
      FoundIsPlacement(b, size, align, found.value);
      SomethingSuits(b, size, align, found.value);
    } else {
      NoneSuits(b, size, align);
    }
  }

  lemma FoundByGrowing(h: Heap, n: Heap, size: nat, align: int, g: Growth, r: Fit, i: nat)
    requires align > 0 && !HasFit(h.mem, h.free, size, align) && i == LastIndex(n)
    requires match Answer(h, size, align, g)
             case Refused => r == NoFit && n == h
             case OutOfPages => r == GrowPanic && n == h
             case Added(k) => Grew(h, n, k, size, align, r)
    ensures Found(h, n, size, align, g, r, i)
  {
    hide HasFit, Answer, FitsIn, NothingSuits, Live, GrowBlocks, Spares;
    if n == h { NoneDiffer(h.mem, Live(h.blocks)); }
  }

  lemma FoundByFit(h: Heap, size: nat, align: int, g: Growth, r: Fit, i: nat)
    requires align > 0 && HasFit(h.mem, h.free, size, align) && r.Fit? && FirstFitIs(h.mem, h.free, r.block, size, align)
    requires i < |h.blocks| && FitsIn(h.blocks[i], size, align, r.block, r.header)
    ensures Found(h, h, size, align, g, r, i)
  {
    hide HasFit, FirstFitIs, Placement, IsLeast, Live, Spares;
    NoneDiffer(h.mem, Live(h.blocks));
  }

  /** What the outcome of the search says about the call. */
  lemma FoundDecides(h: Heap, n: Heap, size: nat, align: int, g: Growth, fit: Fit, i: nat)
    requires align > 0 && HeapOk(h) && Found(h, n, size, align, g, fit, i)
    ensures Live(n.blocks) == Live(h.blocks) && Spares(h.mem, n.mem, Live(h.blocks)) && n.end == EndAfter(h, size, align, g)
    ensures WillFail(h, size, align, g) <==> fit.NoFit?
    ensures fit.NoFit? ==> !WillPanic(h, size, align, g)
    ensures fit.GrowPanic? ==> WillPanic(h, size, align, g)
    ensures !fit.Fit? ==> !WillSpoil(h, size, align, g)
    ensures fit.Fit? ==>
              && Chosen(h, size, align, g, n.blocks, i) && i < |n.blocks|
              && FitsIn(n.blocks[i], size, align, fit.block, fit.header)
              && (WillPanic(h, size, align, g) <==> align > 8 && Underflows(n.blocks[i].addr, n.blocks[i].size, size, align))
              && (WillSpoil(h, size, align, g) <==> SpoilsIn(n.blocks[i], i == |n.blocks| - 1, size, align))
  {
    hide HeapOk, HasFit, FirstFitIs, FitsIn, GrowBlocks, Answer, Underflows, Live, Suits, Spares;
    if fit.Fit? {
      hide SpoilsIn, NothingSuits;
      ChosenDecides(h, size, align, g, n.blocks, i);
    } else if fit.GrowPanic? && Chosen(h, size, align, g, n.blocks, i) && NothingSuits(n.blocks[i], size, align) {
      ChosenDecides(h, size, align, g, n.blocks, i);
    }
  }

  /** In the block found, the header decides. */
  lemma FitDecides(b: Block, last: bool, size: nat, align: int, block: int, header: int)
    requires align > 0 && FitsIn(b, size, align, block, header)
    ensures !b.used && b.addr == block && Placement(b, size, align, header) && (header + BLOCK_HEADER_SIZE) % align == 0
    ensures PlacedIn(b, size, align, header + BLOCK_HEADER_SIZE)
    ensures align > 8 && Underflows(b.addr, b.size, size, align) <==> CarveUnderflows(b.addr, b.size, size, header)
    ensures SpoilsIn(b, last, size, align) <==> CarveSpoils(b, last, size, header)
  {
    hide Suits, AlignUp, Excess, CarveNeed;
    if align > 8 {
      UnderflowsAtLeast(b.addr, b.size, size, align, header);
      SpoilsAtLeast(b, last, size, align, header);
    }
  }

  /** The payload at p: large enough, less than a block larger than need be, new among the live ones, and apart from all of them. */
  predicate Granted(was: set<(int, int)>, now: set<(int, int)>, p: int, granted: int, size: nat) {
    && size <= granted < AlignUp(Max(size, MIN_ALLOC_SIZE), 8) + MIN_BLOCK_SIZE && now == was + {(p, granted)}
    && forall x | x in was :: x.0 != p && (x.0 + x.1 <= p || p + granted <= x.0)
  }

  /** Where in its block a payload is put. */
  ghost predicate PlacedIn(b: Block, size: nat, align: int, p: int)
    requires align > 0
  {
    if align <= 8 then p == b.Payload() else IsLeast(b.addr, b.size, size, align, p)
  }

  /** What `split_block` at a header of block i has done, from heap k to heap n. */
  ghost predicate SplitAs(k: Heap, n: Heap, i: nat, header: int, size: nat, r: AllocResult, granted: int)
    requires i < |k.blocks|
  {
    && Spares(k.mem, n.mem, Live(k.blocks)) && n.end == k.end
    && var b := k.blocks[i];
    if CarveUnderflows(b.addr, b.size, size, header) then r.Panic? && n == k
    else
      && r == Ptr(header + BLOCK_HEADER_SIZE)
      && if CarveSpoils(b, i == |k.blocks| - 1, size, header) then !StillAHeap(n.mem, n.tail, n.freeHead, n.end, k.blocks, i)
         else HeapOk(n) && Granted(Live(k.blocks), Live(n.blocks), r.p, granted, size)
  }

  /** What a request has come to, from heap h to heap n. `spoiled` says that an over-aligned carve broke
      the heap. `bs` are the blocks after any growth, `i` the number of the block used, `granted` the
      size of the new payload. */
  ghost predicate Served(h: Heap, n: Heap, size: nat, align: int, g: Growth,
                         r: AllocResult, granted: int, spoiled: bool, bs: seq<Block>, i: nat)
    requires align > 0
  {
    && (r.Null? <==> WillFail(h, size, align, g))
    && (r.Panic? <==> WillPanic(h, size, align, g))
    && (spoiled <==> WillSpoil(h, size, align, g))
    && (!spoiled ==> HeapOk(n))
    && (!r.Ptr? ==> Live(n.blocks) == Live(h.blocks))
    && (r.Ptr? ==> r.p % align == 0 && Chosen(h, size, align, g, bs, i) && PlacedIn(bs[i], size, align, r.p))
    && (r.Ptr? && !spoiled ==> Granted(Live(h.blocks), Live(n.blocks), r.p, granted, size))
    && (spoiled ==> r.Ptr? && i < |bs| && !StillAHeap(n.mem, n.tail, n.freeHead, n.end, bs, i))
    && Spares(h.mem, n.mem, Live(h.blocks)) && n.end == EndAfter(h, size, align, g)
  }

  /** The block found is there, free, and has room at the header. */
  lemma FitIsHere(h: Heap, k: Heap, size: nat, align: int, g: Growth, fit: Fit, i: nat)
    requires align > 0 && HeapOk(h) && Found(h, k, size, align, g, fit, i) && fit.Fit?
    ensures i < |k.blocks| && !k.blocks[i].used && k.blocks[i].addr == fit.block && Placement(k.blocks[i], size, align, fit.header)
  {
    hide HeapOk, Found, WillFail, WillPanic, WillSpoil, Live, Spares, Chosen, Placement, PlacedIn;
    FoundDecides(h, k, size, align, g, fit, i);
    FitDecides(k.blocks[i], false, size, align, fit.block, fit.header);
  }

  lemma ServedWithout(h: Heap, n: Heap, size: nat, align: int, g: Growth, fit: Fit, i: nat, r: AllocResult)
    requires align > 0 && HeapOk(h) && HeapOk(n) && Found(h, n, size, align, g, fit, i) && !fit.Fit?
    requires r == if fit.NoFit? then Null else Panic
    ensures Served(h, n, size, align, g, r, 0, false, [], 0)
  {
    hide HeapOk, EndAfter, Found, WillFail, WillPanic, WillSpoil, Live, Spares, Chosen, PlacedIn, Granted;
    FoundDecides(h, n, size, align, g, fit, i);
  }

  lemma ServedByFit(h: Heap, k: Heap, n: Heap, size: nat, align: int, g: Growth, fit: Fit, i: nat, r: AllocResult, granted: int)
    requires align > 0 && HeapOk(h) && HeapOk(k) && Found(h, k, size, align, g, fit, i) && fit.Fit?
    requires i < |k.blocks| && SplitAs(k, n, i, fit.header, size, r, granted)
    ensures Served(h, n, size, align, g, r, granted, CarveSpoils(k.blocks[i], i == |k.blocks| - 1, size, fit.header), k.blocks, i)
  {
    hide HeapOk, EndAfter, Found, WillFail, WillPanic, WillSpoil, Live, Spares, Chosen, PlacedIn, Granted, FitsIn, Placement, StillAHeap, SpoilsIn,
         Underflows, CarveNeed;
    var b := k.blocks[i];
    FoundDecides(h, k, size, align, g, fit, i);
    FitDecides(b, i == |k.blocks| - 1, size, align, fit.block, fit.header);
    SparesChain(h.mem, k.mem, n.mem, Live(h.blocks));
  }

  // ---------------------------------------------------------------- the facts behind it

  /** The least power of two that is not below the size, at most a page. */
  function PageAlign(size: nat): (align: int)
    ensures align > 0
  {
    PowerIsPositive(NextPowerOfTwo(size));
    Min(NextPowerOfTwo(size), PAGE_SIZE)
  }

  lemma GrownLast(bs: seq<Block>, end: int, n: int)
    requires bs != []
    ensures var out := GrowBlocks(bs, end, n); out != [] && !out[|out| - 1].used
  {
  }

  lemma NotEmpty(m: Memory, tail: int, freeHead: int, end: int, bs: seq<Block>, free: seq<int>)
    requires Represents(m, tail, freeHead, end, bs, free)
    ensures bs != []
  {
  }

  lemma FitIsPlacement(m: Memory, b: Block, size: nat, align: int)
    requires PowerOfTwo(align) && align <= 8 && b.addr % 8 == 0 && b.addr in m && m[b.addr].size == b.size
    requires FitsAt(m, b.addr, size, align)
    ensures Placement(b, size, align, b.addr)
  {
    SmallAlignment(b.addr, align);
    hide PowerOfTwo, AlignUp, Suits;
  }

  lemma NoneSuits(b: Block, size: nat, align: int)
    requires align > 0 && forall q :: !Suits(b.addr, b.size, size, align, q)
    ensures NothingSuits(b, size, align)
  {
    hide Suits;
  }

  lemma SomethingSuits(b: Block, size: nat, align: int, h: int)
    requires align > 0 && IsLeast(b.addr, b.size, size, align, h + BLOCK_HEADER_SIZE)
    ensures !NothingSuits(b, size, align)
  {
    hide Suits;
  }

  lemma ListedBlock(m: Memory, tail: int, freeHead: int, end: int, bs: seq<Block>, free: seq<int>, j: nat) returns (i: nat)
    requires Represents(m, tail, freeHead, end, bs, free) && j < |free|
    ensures i < |bs| && bs[i].addr == free[j] && !bs[i].used && bs[i].addr in m && m[bs[i].addr].size == bs[i].size
    ensures bs[i].addr % 8 == 0 && bs[i].size % 8 == 0
  {
    hide Tiles, BlocksAre, FreeList, NoAdjacentFree;
    assert free[j] in Elems(free);
    i :| 0 <= i < |bs| && bs[i].addr == free[j] && !bs[i].used;
    BlockFacts(m, tail, freeHead, end, bs, free, i);
  }

  lemma GrowthFacts(end: int, size: nat, align: int, g: Growth)
    requires align > 0 && GrowKernelHeap(end, GrowRequest(size, align), g).Added?
    ensures var n := GrowKernelHeap(end, GrowRequest(size, align), g).n;
            && n == AlignUp(GrowRequest(size, align), PAGE_SIZE)
            && n >= MIN_BLOCK_SIZE && n % 8 == 0 && end + n <= ADDRESS_LIMIT
  {
    var request := GrowRequest(size, align);
    AlignUpIsLeast(request, PAGE_SIZE);
    MultipleOfMultiple(AlignUp(request, PAGE_SIZE), PAGE_SIZE, 8);
  }

  lemma FrontGrant(bs: seq<Block>, free: seq<int>, end: int, i: nat, size: nat)
    requires WellFormed(bs, free, end) && i < |bs| && !bs[i].used && AlignUp(size, 8) <= bs[i].size
    requires MIN_ALLOC_SIZE <= bs[i].size
    ensures var out := AllocBlocks(bs, i, Need(size));
            && i < |out| && size <= out[i].size < Need(size) + MIN_BLOCK_SIZE && out[i].addr == bs[i].addr
            && Live(out) == Live(bs) + {(bs[i].Payload(), out[i].size)}
            && (forall x | x in Live(bs) :: x.0 + x.1 <= bs[i].Payload() || bs[i].Payload() + out[i].size <= x.0)
            && (forall x | x in Live(bs) :: x.0 != bs[i].Payload())
  {
    hide WellFormed, Live, AlignUp;
    NeedFits(size, bs[i].size);
    AllocKeepsWellFormed(bs, free, end, i, Need(size));
    var out := AllocBlocks(bs, i, Need(size));
    FreeRangeIsApart(bs, free, end, i, bs[i].Payload(), out[i].size);
  }

  lemma CarveGrant(bs: seq<Block>, free: seq<int>, end: int, i: nat, h: int, need: int)
    requires WellFormed(bs, free, end) && i < |bs| && CarveRequest(bs[i], h, need)
    requires Excess(bs[i].size, bs[i].addr, h, need) >= MIN_ALLOC_SIZE
    ensures Live(Splice(bs, i, 1, Carve(bs[i], h, need))) == Live(bs) + {(h + BLOCK_HEADER_SIZE, need)}
    ensures forall x | x in Live(bs) :: x.0 + x.1 <= h + BLOCK_HEADER_SIZE || h + BLOCK_HEADER_SIZE + need <= x.0
    ensures forall x | x in Live(bs) :: x.0 != h + BLOCK_HEADER_SIZE
  {
    hide WellFormed, Live, Carve, Splice;
    CarveKeepsWellFormed(bs, free, end, i, h, need);
    FreeRangeIsApart(bs, free, end, i, h + BLOCK_HEADER_SIZE, need);
  }

  /** A carved payload is no larger than the request rounded up. */
  lemma CarveNeedIsTight(size: nat)
    ensures size <= CarveNeed(size) < AlignUp(Max(size, MIN_ALLOC_SIZE), 8) + MIN_BLOCK_SIZE
  {
    AlignUpIsLeast(size, 8);
    AlignUpIsLeast(Max(size, MIN_ALLOC_SIZE), 8);
  }

  /** At small alignments growth panics exactly when the last block was in use and the new pages
      do not hold the request together with two headers. */
  lemma SmallGrowPanics(m: Memory, tail: int, freeHead: int, end: int, bs: seq<Block>, free: seq<int>, size: nat, align: int)
    requires Represents(m, tail, freeHead, end, bs, free) && PowerOfTwo(align) && align <= 8
    ensures var n := AlignUp(GrowRequest(size, align), PAGE_SIZE);
            var out := GrowBlocks(bs, end, n);
            NothingSuits(out[|out| - 1], size, align) <==> bs[|bs| - 1].used && n < AlignUp(size, 8) + MIN_BLOCK_SIZE
  {
    hide WellFormed, Linked, AlignUp, Suits, PowerOfTwo, HeaderIs;
    NotEmpty(m, tail, freeHead, end, bs, free);
    BlockFacts(m, tail, freeHead, end, bs, free, |bs| - 1);
    var n := AlignUp(GrowRequest(size, align), PAGE_SIZE);
    var out := GrowBlocks(bs, end, n);
    var last := bs[|bs| - 1];
    MultiplesOfEight(last.addr, last.size);
    MultiplesOfEight(last.addr + last.size, BLOCK_HEADER_SIZE);
    PowerIsPositive(align);
    AlignUpIsLeast(GrowRequest(size, align), PAGE_SIZE);
    AlignUpIsLeast(size, 8);
    SmallAlignmentSuits(out[|out| - 1], size, align);
  }

  lemma PowerIsPositive(a: int)
    requires PowerOfTwo(a)
    ensures a > 0
  {
  }

  lemma SmallPower(size: nat)
    requires size <= 8
    ensures NextPowerOfTwo(size) <= 8
  {
    hide PowerOfTwo, NextPowerOfTwo;
    EightIsPower();
  }
}
