/**
 The kernel heap allocator as written: four pointer cells and the headers in memory, updated
 in place. The ghost sequences `blocks` and `free` follow along; each operation is proved to
 do to them what HeapSpec says.
 */
module KernelAllocator {

  import opened BlockHeader
  import opened Common
  import opened HeapSpec
  import opened HeapMemory
  import opened HeapCarve
  import opened HeapFrame
  import opened HeapRequest
  import opened HeapSteps

  class LinkedListAllocator {
    var head: int
    var tail: int
    var heapEnd: int
    var freeHead: int
    var mem: Memory

    ghost var blocks: seq<Block>
    ghost var free: seq<int>

    ghost function View(): Heap
      reads this
    {
      Heap(mem, tail, freeHead, heapEnd, blocks, free)
    }

    ghost predicate Valid()
      reads this
    {
      HeapOk(View()) && head == HEAP_START
    }

    /** `init`: one free block spanning the heap. */
    constructor (heapSize: int)
      requires heapSize >= MIN_BLOCK_SIZE && heapSize % 8 == 0
      requires HEAP_START + heapSize <= ADDRESS_LIMIT
      ensures Valid() && heapEnd == HEAP_START + heapSize
      ensures blocks == [Block(HEAP_START, heapSize - BLOCK_HEADER_SIZE, false)] && free == [HEAP_START]
    {
      mem := map[HEAP_START := Header.New(heapSize - BLOCK_HEADER_SIZE, false)];
      head := HEAP_START;
      tail := HEAP_START;
      heapEnd := HEAP_START + heapSize;
      freeHead := HEAP_START;
      blocks := [Block(HEAP_START, heapSize - BLOCK_HEADER_SIZE, false)];
      free := [HEAP_START];
      new;
      TilesOne(blocks[0]);
      SingleSets(blocks[0]);
    }

    // -------------------------------------------------------------- pointer manipulation

    method InsertFreeBlock(a: int)
      requires a in mem && (freeHead != 0 ==> freeHead in mem) && Storable(a) && Storable(freeHead)
      modifies this`mem, this`freeHead
      ensures mem == old(Pushed(mem, freeHead, a)) && freeHead == a
      ensures SameShape(old(mem), mem) && mem.Keys == old(mem).Keys
    {
      PushedShape(mem, freeHead, a);
      mem := mem[a := mem[a].SetFreeNext(freeHead)];
      mem := mem[a := mem[a].SetFreePrev(0)];
      if freeHead != 0 {
        mem := mem[freeHead := mem[freeHead].SetFreePrev(a)];
      }
      freeHead := a;
    }

    method RemoveFreeBlock(a: int)
      requires NeighboursIn(mem, a)
      modifies this`mem, this`freeHead
      ensures mem == old(Unlinked(mem, mem[a].freePrev, a, mem[a].freeNext))
      ensures freeHead == old(if mem[a].freePrev == 0 then mem[a].freeNext else freeHead)
      ensures SameShape(old(mem), mem) && mem.Keys == old(mem).Keys
    {
      UnlinkedShape(mem, mem[a].freePrev, a, mem[a].freeNext);
      if mem[a].freePrev != 0 {
        mem := mem[mem[a].freePrev := mem[mem[a].freePrev].SetFreeNext(mem[a].freeNext)];
      } else {
        freeHead := mem[a].freeNext;
      }
      if mem[a].freeNext != 0 {
        mem := mem[mem[a].freeNext := mem[mem[a].freeNext].SetFreePrev(mem[a].freePrev)];
      }
      mem := mem[a := mem[a].SetFreeNext(0)];
      mem := mem[a := mem[a].SetFreePrev(0)];
    }

    method AppendToList(a: int)
      requires a in mem && Storable(tail)
      modifies this`mem, this`tail
      ensures mem == old(mem[a := mem[a].SetPrev(tail)]) && tail == a
    {
      var last := tail;
      mem := mem[a := mem[a].SetPrev(last)];
      tail := a;
    }

    /** `next` of a header: the address right behind its block. */
    function Next(a: int): int
      requires a in mem
      reads this
    {
      a + mem[a].size + BLOCK_HEADER_SIZE
    }

    method InsertAfter(a: int, added: int)
      requires a in mem && added in mem && Storable(a) && Storable(added)
      requires a != tail ==> Next(a) in mem
      modifies this`mem, this`tail
      ensures mem == old(Chained(mem, a, added, Next(a), a == tail)) && mem.Keys == old(mem).Keys
      ensures tail == if a == old(tail) then added else old(tail)
    {
      var next := Next(a);
      if a != tail {
        mem := mem[next := mem[next].SetPrev(added)];
      } else {
        tail := added;
      }
      mem := mem[added := mem[added].SetPrev(a)];
    }

    /** Unlink a block other than the first from the address-ordered list. */
    method RemoveFromList(a: int)
      requires a in mem && mem[a].prev != 0 && Storable(mem[a].prev)
      requires a != tail ==> Next(a) in mem
      modifies this`mem, this`tail
      ensures mem == if a == old(tail) then old(mem) else old(mem[Next(a) := mem[Next(a)].SetPrev(mem[a].prev)])
      ensures tail == if a == old(tail) then old(mem[a].prev) else old(tail)
    {
      var next := Next(a);
      var prev := mem[a].prev;
      if a != tail {
        mem := mem[next := mem[next].SetPrev(prev)];
      } else {
        tail := prev;
      }
    }

    // -------------------------------------------------------------- split_block, same address

    /** The writes that cut the free block at `a` in two. */
    method CutInPlace(a: int, need: int)
      requires CanSplit(mem, freeHead, a, need, a == tail)
      modifies this`mem, this`tail, this`freeHead
      ensures mem == old(SplitMem(mem, freeHead, a, need, a == tail))
      ensures freeHead == a + BLOCK_HEADER_SIZE + need && tail == if a == old(tail) then freeHead else old(tail)
    {
      hide Pushed, Storable;
      var added := a + BLOCK_HEADER_SIZE + need;
      mem := mem[added := Header.New(mem[a].size - need - BLOCK_HEADER_SIZE, false)];
      InsertFreeBlock(added);
      InsertAfter(a, added);
      mem := mem[a := mem[a].SetSize(need)];
    }

    /** Cut the free block at `a` behind `need` bytes, when the rest can hold a block. */
    method CutFront(a: int, need: int, ghost i: nat)
      requires Valid() && i < |blocks| && blocks[i].addr == a && !blocks[i].used
      requires MIN_ALLOC_SIZE <= need <= blocks[i].size && need % 8 == 0
      modifies this`mem, this`tail, this`freeHead, this`blocks, this`free
      ensures CutDone(old(View()), View(), i, need)
    {
      hide HeapOk, Splice, Halves, CanSplit, SplitMem, CutDone;
      ghost var h := View();
      CutFacts(h, i, need);
      if mem[a].size - need >= MIN_BLOCK_SIZE {
        CutInPlace(a, need);
        blocks, free := Splice(blocks, i, 1, Halves(blocks[i], need)), [a + BLOCK_HEADER_SIZE + need] + free;
      }
      CutIsDone(h, View(), i, need);
    }

    /** Take the front of the free block at `a` for `size` bytes. */
    method SplitFront(a: int, size: nat, ghost i: nat) returns (p: int)
      requires Valid() && i < |blocks| && blocks[i].addr == a && !blocks[i].used
      requires AlignUp(size, 8) <= blocks[i].size
      modifies this`mem, this`tail, this`freeHead, this`blocks, this`free
      ensures p == a + BLOCK_HEADER_SIZE && Taken(old(View()), View(), i, Need(size))
    {
      hide HeapOk, Unlinked, NeighboursIn, Without, Splice, AlignUp, CutDone, Taken;
      ghost var h := View();
      FrontFacts(h, i, size);
      var need := AlignUp(Max(size, MIN_ALLOC_SIZE), 8);
      CutFront(a, need, i);
      TakeIsDone(h, View(), i, need);
      RemoveFreeBlock(a);
      mem := mem[a := mem[a].SetUsed()];
      blocks, free := Splice(blocks, i, 1, [blocks[i].(used := true)]), Without(free, a);
      p := a + BLOCK_HEADER_SIZE;
    }

    // -------------------------------------------------------------- dealloc_and_coalesce

    method AbsorbNext(b: int, next: int, ghost i: nat)
      requires Linked(mem, tail, freeHead, heapEnd, blocks, free) && FreeAreHeaders(blocks, free)
      requires i + 1 < |blocks| && blocks[i].addr == b && blocks[i + 1].addr == next
      requires !blocks[i].used && next in free
      modifies this`mem, this`tail, this`freeHead, this`blocks, this`free
      ensures Linked(mem, tail, freeHead, heapEnd, blocks, free) && HeadersOnly(old(mem), mem, old(blocks))
      ensures blocks == Splice(old(blocks), i, 2, [Joined(old(blocks), i)]) && free == Without(old(free), next)
    {
      hide Linked, Unlinked, Without, Storable, Splice, HeadersOnly, FreeAreHeaders;
      BlockFacts(mem, tail, freeHead, heapEnd, blocks, free, i + 1);
      AbsorbedNext(mem, tail, freeHead, heapEnd, blocks, free, i);
      AbsorbNextWrites(mem, tail, freeHead, heapEnd, blocks, free, i);
      JoinedTail(mem, tail, freeHead, heapEnd, blocks, free, i);
      mem := mem[b := mem[b].AddSize(BLOCK_HEADER_SIZE + mem[next].size)];
      RemoveFreeBlock(next);
      RemoveFromList(next);
      blocks, free := Splice(blocks, i, 2, [Joined(blocks, i)]), Without(free, next);
    }

    method AbsorbIntoPrev(b: int, prev: int, ghost i: nat)
      requires Linked(mem, tail, freeHead, heapEnd, blocks, free)
      requires i + 1 < |blocks| && blocks[i].addr == prev && blocks[i + 1].addr == b && !blocks[i].used
      modifies this`mem, this`tail, this`blocks
      ensures Linked(mem, tail, freeHead, heapEnd, blocks, free) && HeadersOnly(old(mem), mem, old(blocks))
      ensures blocks == Splice(old(blocks), i, 2, [Joined(old(blocks), i)])
    {
      hide Linked, Storable, Splice, HeadersOnly;
      BlockFacts(mem, tail, freeHead, heapEnd, blocks, free, i + 1);
      AbsorbedByPrev(mem, tail, freeHead, heapEnd, blocks, free, i);
      AbsorbPrevWrites(mem, heapEnd, blocks, i);
      JoinedTail(mem, tail, freeHead, heapEnd, blocks, free, i);
      RemoveFromList(b);
      mem := mem[prev := mem[prev].AddSize(BLOCK_HEADER_SIZE + mem[b].size)];
      blocks := Splice(blocks, i, 2, [Joined(blocks, i)]);
    }

    /** The first half: the block becomes free and absorbs a free successor. */
    method FreeAndAbsorb(b: int, ghost i: nat)
      requires Valid() && i < |blocks| && blocks[i].used && b == blocks[i].addr
      modifies this`mem, this`tail, this`freeHead, this`blocks, this`free
      ensures HalfFreed(old(View()), View(), i)
    {
      hide HeapOk, Linked, HalfFreed, HeadersOnly, FreeAreHeaders, Joined, MarkedFree, Without, Splice;
      ghost var h := View();
      ghost var marked := MarkIsDone(h, i);
      SuccessorFacts(h, marked, i);
      mem := mem[b := mem[b].SetFree()];
      blocks := MarkedFree(blocks, i);
      var next := Next(b);
      if b != tail && !mem[next].used {
        AbsorbNext(b, next, i);
      }
      HalfIsDone(h, marked, View(), i);
    }

    /** The second half: a free predecessor absorbs the block, or the block enters the free list. */
    method AbsorbOrInsert(b: int, ghost h: Heap, ghost i: nat)
      requires HeapOk(h) && i < |h.blocks| && h.blocks[i].used && b == h.blocks[i].addr && HalfFreed(h, View(), i)
      modifies this`mem, this`tail, this`freeHead, this`blocks, this`free
      ensures Freed(h, View(), i)
    {
      hide HeapOk, HalfFreed, Freed, Pushed, Storable, HeaderIs, HeadersOnly, FreeAreHeaders;
      ghost var half := View();
      HalfFacts(h, half, i);
      var prev := mem[b].prev;
      if prev != 0 && !mem[prev].used {
        AbsorbIntoPrev(b, prev, i - 1);
      } else {
        InsertFreeBlock(b);
        free := [b] + free;
      }
      FreedDone(h, half, View(), i);
    }

    method DeallocAndCoalesce(p: int, ghost i: nat)
      requires Valid() && i < |blocks| && blocks[i].used && p == blocks[i].Payload()
      modifies this`mem, this`tail, this`freeHead, this`blocks, this`free
      ensures Valid()
      ensures blocks == FreeBlocks(old(blocks), i) && free == FreeFree(old(blocks), i, old(free))
      ensures HeadersOnly(old(mem), mem, old(blocks))
    {
      hide HeapOk, HalfFreed, HeadersOnly, FreeBlocks, FreeFree;
      ghost var h := View();
      FreeAndAbsorb(p - BLOCK_HEADER_SIZE, i);
      AbsorbOrInsert(p - BLOCK_HEADER_SIZE, h, i);
    }

    // -------------------------------------------------------------- find_fit

    /** First fit in free-list order for alignments up to eight. */
    method FirstFit(size: nat, align: int) returns (a: int, ghost j: nat)
      requires FreeList(mem, free, freeHead) && 0 < align <= 8
      ensures if a == 0 then !HasFit(mem, free, size, align)
              else HasFit(mem, free, size, align) && FirstFitIs(mem, free, a, size, align) && j < |free| && a == free[j]
                   && FitsAt(mem, a, size, align)
    {
      var total := AlignUp(size, 8);
      a, j := freeHead, 0;
      AtEnd(free, j);
      while a != 0
        invariant j <= |free| && a == At(free, j) && (a == 0 <==> j == |free|)
        invariant forall k | 0 <= k < j :: !FitsAt(mem, free[k], size, align)
        decreases |free| - j
      {
        if mem[a].size >= total {
          return;
        }
        a, j := mem[a].freeNext, j + 1;
        AtEnd(free, j);
      }
    }

    /** First fit in free-list order for larger alignments, with the header to use. */
    method FirstAlignedFit(size: nat, align: int) returns (a: int, h: int, ghost j: nat)
      requires FreeList(mem, free, freeHead) && 8 < align
      ensures if a == 0 then !HasFit(mem, free, size, align)
              else HasFit(mem, free, size, align) && FirstFitIs(mem, free, a, size, align) && j < |free| && a == free[j]
                   && a in mem && IsLeast(a, mem[a].size, size, align, h + BLOCK_HEADER_SIZE)
    {
      hide AlignUp, Suits;
      a, h, j := freeHead, 0, 0;
      AtEnd(free, j);
      while a != 0
        invariant j <= |free| && a == At(free, j) && (a == 0 <==> j == |free|)
        invariant forall k | 0 <= k < j :: !FitsAt(mem, free[k], size, align)
        decreases |free| - j
      {
        var r := CheckAlignedFit(a, mem[a].size, size, align);
        if r.Some? {
          h := r.value;
          return;
        }
        a, j := mem[a].freeNext, j + 1;
        AtEnd(free, j);
      }
    }

    /** The part of `find_fit` after growing: `n` more bytes at the end of the heap. */
    method TakeGrowth(n: int)
      requires Valid() && n >= MIN_BLOCK_SIZE && n % 8 == 0 && heapEnd + n <= ADDRESS_LIMIT
      modifies this`mem, this`tail, this`freeHead, this`heapEnd, this`blocks, this`free
      ensures Valid() && heapEnd == old(heapEnd) + n
      ensures blocks == GrowBlocks(old(blocks), old(heapEnd), n)
      ensures free == GrowFree(old(blocks), old(free), old(heapEnd))
      ensures tail == if old(blocks[|blocks| - 1].used) then old(heapEnd) else old(tail)
      ensures Spares(old(mem), mem, old(Live(blocks)))
    {
      hide Tiles, BlocksAre, FreeList, NoAdjacentFree, ListsFree, HeaderIs, Pushed, Storable;
      ghost var bs, fl, end := blocks, free, heapEnd;
      BlockFacts(mem, tail, freeHead, heapEnd, bs, fl, |bs| - 1);
      SizeOfHeader(mem, bs[|bs| - 1], Before(0, bs, |bs| - 1));
      GrowKeepsWellFormed(bs, fl, end, n);
      ghost var was := mem;
      var start := heapEnd;
      heapEnd := start + n;
      var last := tail;
      if !mem[last].used {
        ExtendedDone(mem, tail, freeHead, end, bs, fl, n);
        mem := mem[last := mem[last].AddSize(n)];
        LastWrites(was, tail, bs, end, mem[last]);
      } else {
        AppendedDone(mem, tail, freeHead, end, bs, fl, n);
        AppendWrites(mem, tail, freeHead, end, bs, fl, Header.New(n - BLOCK_HEADER_SIZE, false));
        mem := mem[start := Header.New(n - BLOCK_HEADER_SIZE, false)];
        InsertFreeBlock(start);
        AppendToList(start);
        free := [start] + free;
      }
      blocks := GrowBlocks(bs, end, n);
    }

    /** Grow by `n` bytes and place the request in the last block, or panic. */
    method GrowAndFit(size: nat, align: int, n: int) returns (r: Fit)
      requires Valid() && PowerOfTwo(align)
      requires n >= MIN_BLOCK_SIZE && n % 8 == 0 && heapEnd + n <= ADDRESS_LIMIT
      modifies this`mem, this`tail, this`freeHead, this`heapEnd, this`blocks, this`free
      ensures Valid() && Grew(old(View()), View(), n, size, align, r)
    {
      assert align > 0;
      hide Represents, Suits, AlignUp, PowerOfTwo, Placement, Live, IsLeast, NothingSuits, GrowBlocks, GrowFree, Grew, Spares;
      ghost var h := View();
      NotEmpty(mem, tail, freeHead, heapEnd, blocks, free);
      TakeGrowth(n);
      ghost var b := GrownBlock(h, View(), n);
      var found := CheckAlignedFit(tail, mem[tail].size, size, align);
      r := if found.None? then GrowPanic else Fit(tail, found.value);
      GrewDone(h, View(), n, size, align, r, found);
    }

    /** The growth of `find_fit`. */
    method GrowFor(size: nat, align: int, g: Growth) returns (r: Fit, ghost i: nat)
      requires Valid() && PowerOfTwo(align) && !HasFit(mem, free, size, align)
      modifies this`mem, this`tail, this`freeHead, this`heapEnd, this`blocks, this`free
      ensures Valid() && Found(old(View()), View(), size, align, g, r, i)
    {
      assert align > 0;
      hide HeapOk, PowerOfTwo, GrowKernelHeap, GrowRequest, Found, Grew, HasFit;
      ghost var h := View();
      i := 0;
      var grown := GrowKernelHeap(heapEnd, GrowRequest(size, align), g);
      match grown
      case Refused => r := NoFit;
      case OutOfPages => r := GrowPanic;
      case Added(n) =>
        GrowthFacts(heapEnd, size, align, g);
        r := GrowAndFit(size, align, n);
        i := LastIndex(View());
      FoundByGrowing(h, View(), size, align, g, r, i);
    }

    /** The search of `find_fit` through the free list. */
    method SearchFree(size: nat, align: int) returns (r: Fit, ghost i: nat)
      requires Valid() && PowerOfTwo(align)
      ensures if HasFit(mem, free, size, align)
              then r.Fit? && FirstFitIs(mem, free, r.block, size, align) && i < |blocks|
                   && FitsIn(blocks[i], size, align, r.block, r.header)
              else r.NoFit?
    {
      assert align > 0;
      hide Tiles, BlocksAre, NoAdjacentFree, ListsFree, HeaderIs, Suits, AlignUp, PowerOfTwo, IsLeast, FirstFitIs, HasFit, FitsAt,
           Placement;
      i := 0;
      if align <= 8 {
        var a; ghost var j;
        a, j := FirstFit(size, align);
        if a != 0 {
          i := ListedBlock(mem, tail, freeHead, heapEnd, blocks, free, j);
          FitIsPlacement(mem, blocks[i], size, align);
          return Fit(a, a), i;
        }
      } else {
        var a, h; ghost var j;
        a, h, j := FirstAlignedFit(size, align);
        if a != 0 {
          i := ListedBlock(mem, tail, freeHead, heapEnd, blocks, free, j);
          FoundIsPlacement(blocks[i], size, align, h);
          return Fit(a, h), i;
        }
      }
      return NoFit, i;
    }

    /** `find_fit`: the first free block that will do, else growth. `i` is the block's number. */
    method FindFit(size: nat, align: int, g: Growth) returns (r: Fit, ghost i: nat)
      requires Valid() && PowerOfTwo(align)
      modifies this`mem, this`tail, this`freeHead, this`heapEnd, this`blocks, this`free
      ensures Valid() && Found(old(View()), View(), size, align, g, r, i)
    {
      assert align > 0;
      hide HeapOk, PowerOfTwo, FirstFitIs, HasFit, FitsIn, Found;
      r, i := SearchFree(size, align);
      if r.Fit? {
        FoundByFit(View(), size, align, g, r, i);
        return;
      }
      r, i := GrowFor(size, align, g);
    }

    // -------------------------------------------------------------- split_block, three ways

    /** Carve the aligned header `h` out of the free block at `a`. The last clause is the exact
        price: unless the block is the last one and leaves room for a trailing block, what
        remains in memory is no heap any more. */
    method SplitThree(a: int, h: int, size: nat, align: int, ghost i: nat) returns (r: AllocResult)
      requires Valid() && PowerOfTwo(align) && i < |blocks| && blocks[i].addr == a && !blocks[i].used
      requires h != a && Placement(blocks[i], size, align, h)
      modifies this`mem, this`tail, this`freeHead, this`blocks, this`free
      ensures var excess := Excess(old(blocks[i].size), a, h, CarveNeed(size));
              if excess < 0 then r.Panic? && unchanged(this)
              else if i == |old(blocks)| - 1 && excess >= MIN_ALLOC_SIZE then
                && r == Ptr(h + BLOCK_HEADER_SIZE) && Valid()
                && blocks == Splice(old(blocks), i, 1, Carve(old(blocks[i]), h, CarveNeed(size)))
                && free == [h + BLOCK_HEADER_SIZE + CarveNeed(size)] + old(free)
              else r == Ptr(h + BLOCK_HEADER_SIZE) && !StillAHeap(mem, tail, freeHead, heapEnd, old(blocks), i)
      ensures Spares(old(mem), mem, old(Live(blocks)))
    {
      hide Live, Spares, Linked, WellFormed, Storable, AlignUp, Pushed, Chained, Placement, StillAHeap, HeaderIs, PowerOfTwo, Carve, Splice;
      BlockFacts(mem, tail, freeHead, heapEnd, blocks, free, i);
      SizeOfHeader(mem, blocks[i], Before(0, blocks, i));
      PlacementIsRequest(blocks[i], size, align, h);
      var thisSize := mem[a].size;
      var preceding := h - (a + BLOCK_HEADER_SIZE);
      var need := Max(AlignUp(size, 8), MIN_BLOCK_SIZE - BLOCK_HEADER_SIZE);
      var excess := thisSize - (preceding + BLOCK_HEADER_SIZE) - (need + BLOCK_HEADER_SIZE);
      if excess < 0 {
        NoneDiffer(mem, Live(blocks));
        return Panic;
      }
      CarveSpares(mem, tail, freeHead, heapEnd, blocks, free, i, h, need);
      CarveRepresentsIff(mem, tail, freeHead, heapEnd, blocks, free, i, h, need);
      if i == |blocks| - 1 && excess >= MIN_ALLOC_SIZE {
        CarveDone(mem, tail, freeHead, heapEnd, blocks, free, i, h, need);
      }
      HeaderIsNotTail(mem, tail, freeHead, heapEnd, blocks, free, i, h);
      CarveInPlace(a, h, need, excess);
      if i == |blocks| - 1 && excess >= MIN_ALLOC_SIZE {
        blocks := Splice(blocks, i, 1, Carve(blocks[i], h, need));
        free := [h + BLOCK_HEADER_SIZE + need] + free;
      }
      r := Ptr(h + BLOCK_HEADER_SIZE);
    }

    /** The writes of the three-way split. */
    method CarveInPlace(a: int, h: int, need: int, excess: int)
      requires CanCarve(mem, freeHead, a, h, need) && excess == Excess(mem[a].size, a, h, need) && h != tail
      modifies this`mem, this`tail, this`freeHead
      ensures mem == old(CarveMem(mem, freeHead, a, h, need, a == tail))
      ensures tail == CarveTail(old(tail), a, h, need, excess)
      ensures freeHead == CarveHead(old(freeHead), h, need, excess)
    {
      hide Pushed, Storable;
      mem := mem[a := mem[a].SetSize(h - (a + BLOCK_HEADER_SIZE))];
      mem := mem[h := Header.New(need, true)];
      InsertAfter(a, h);
      if excess >= MIN_ALLOC_SIZE {
        var added := Next(h);
        mem := mem[added := Header.New(excess, false)];
        InsertFreeBlock(added);
        InsertAfter(h, added);
      }
    }

    // -------------------------------------------------------------- the allocator's interface

    /** Allocation at the front of a block. */
    method AllocFront(block: int, size: nat, ghost i: nat) returns (p: int, ghost granted: int)
      requires Valid() && i < |blocks| && blocks[i].addr == block && !blocks[i].used && AlignUp(size, 8) <= blocks[i].size
      modifies this`mem, this`tail, this`freeHead, this`blocks, this`free
      ensures Valid() && p == block + BLOCK_HEADER_SIZE && Granted(old(Live(blocks)), Live(blocks), p, granted, size)
      ensures Spares(old(mem), mem, old(Live(blocks)))
    {
      hide Spares, Linked, WellFormed, AlignUp, Live, AllocBlocks, AllocFree, HeaderIs;
      BlockFacts(mem, tail, freeHead, heapEnd, blocks, free, i);
      FrontGrant(blocks, free, heapEnd, i, size);
      p := SplitFront(block, size, i);
      assert blocks == AllocBlocks(old(blocks), i, Need(size));
      granted := blocks[i].size;
    }

    /** Allocation at an aligned address inside a block. */
    method AllocCarved(block: int, header: int, size: nat, align: int, ghost i: nat) returns (r: AllocResult, ghost granted: int)
      requires Valid() && PowerOfTwo(align) && i < |blocks| && blocks[i].addr == block && !blocks[i].used
      requires header != block && Placement(blocks[i], size, align, header)
      modifies this`mem, this`tail, this`freeHead, this`blocks, this`free
      ensures SplitAs(old(View()), View(), i, header, size, r, granted)
    {
      hide Spares, Linked, WellFormed, AlignUp, Live, Carve, Splice, HeaderIs, StillAHeap, Placement, PowerOfTwo, CarveNeed, Suits;
      BlockFacts(mem, tail, freeHead, heapEnd, blocks, free, i);
      PlacementIsRequest(blocks[i], size, align, header);
      granted := CarveNeed(size);
      CarveNeedIsTight(size);
      if i == |blocks| - 1 && Excess(blocks[i].size, block, header, granted) >= MIN_ALLOC_SIZE {
        CarveGrant(blocks, free, heapEnd, i, header, granted);
      }
      r := SplitThree(block, header, size, align, i);
    }

    /** `split_block` at the header found. */
    method UseFit(block: int, header: int, size: nat, align: int, ghost i: nat) returns (r: AllocResult, ghost granted: int)
      requires Valid() && PowerOfTwo(align) && i < |blocks| && blocks[i].addr == block && !blocks[i].used
      requires Placement(blocks[i], size, align, header)
      modifies this`mem, this`tail, this`freeHead, this`blocks, this`free
      ensures SplitAs(old(View()), View(), i, header, size, r, granted)
    {
      hide Spares, HeapOk, AlignUp, Live, StillAHeap, PowerOfTwo, CarveNeed, Suits, Granted, Excess;
      if block == header {
        var p;
        p, granted := AllocFront(block, size, i);
        r := Ptr(p);
      } else {
        r, granted := AllocCarved(block, header, size, align, i);
      }
    }

    /** `alloc`. */
    method Alloc(size: nat, align: int, g: Growth)
      returns (r: AllocResult, ghost granted: int, ghost spoiled: bool, ghost bs: seq<Block>, ghost i: nat)
      requires Valid() && PowerOfTwo(align)
      modifies this`mem, this`tail, this`freeHead, this`heapEnd, this`blocks, this`free
      ensures Served(old(View()), View(), size, align, g, r, granted, spoiled, bs, i)
      ensures head == HEAP_START
    {
      assert align > 0;
      hide HeapOk, PowerOfTwo, FitsIn, Found, CarveSpoils, SplitAs, Served, Placement;
      ghost var h := View();
      granted, spoiled, bs := 0, false, [];
      var fit;
      fit, i := FindFit(size, align, g);
      ghost var k := View();
      match fit
      case NoFit =>
        r := Null;
        ServedWithout(h, k, size, align, g, fit, i, r);
        i := 0;
      case GrowPanic =>
        r := Panic;
        ServedWithout(h, k, size, align, g, fit, i, r);
        i := 0;
      case Fit(block, header) =>
        FitIsHere(h, k, size, align, g, fit, i);
        r, granted := UseFit(block, header, size, align, i);
        ServedByFit(h, k, View(), size, align, g, fit, i, r, granted);
        bs, spoiled := k.blocks, CarveSpoils(k.blocks[i], i == |k.blocks| - 1, size, header);
    }

    /** `dealloc` of null or of a live payload. */
    method Dealloc(p: int)
      requires Valid() && (p != 0 ==> p in LiveAddrs(blocks))
      modifies this`mem, this`tail, this`freeHead, this`blocks, this`free
      ensures Valid()
      ensures p == 0 ==> unchanged(this)
      ensures p != 0 ==> Live(blocks) == (set x | x in old(Live(blocks)) && x.0 != p)
      ensures LiveAddrs(blocks) == old(LiveAddrs(blocks)) - {p}
      ensures Spares(old(mem), mem, old(Live(blocks)))
    {
      hide Represents, FreeBlocks, FreeFree, Spares, HeadersOnly;
      ghost var h := View();
      if p == 0 {
        NoneDiffer(mem, Live(blocks));
        LiveIsNotNull(mem, tail, freeHead, heapEnd, blocks, free);
        return;
      }
      ghost var i := LiveBlock(mem, tail, freeHead, heapEnd, blocks, free, p);
      DeallocAndCoalesce(p, i);
      HeapHeadersSpare(h, mem);
    }

    /** Freeing everything, in any order, leaves one free block spanning the heap. */
    method FreeAll(order: seq<int>)
      requires Valid() && Distinct(order) && Elems(order) == LiveAddrs(blocks)
      modifies this`mem, this`tail, this`freeHead, this`blocks, this`free
      ensures Valid()
      ensures blocks == [Block(HEAP_START, heapEnd - HEAP_START - BLOCK_HEADER_SIZE, false)] && free == [HEAP_START]
    {
      hide Represents, Live;
      for k := 0 to |order|
        invariant Valid() && Elems(order[k..]) == LiveAddrs(blocks)
      {
        assert order[k..][0] == order[k] && order[k] in Elems(order[k..]);
        TailElems(order[k..]);
        Dealloc(order[k]);
        assert order[k..][1..] == order[k + 1..];
      }
      NoAddressNothingLive(mem, tail, freeHead, heapEnd, blocks, free);
    }

    /** `alloc_within_page`: a buffer that no page boundary divides. */
    method AllocWithinPage(size: nat, g: Growth)
      returns (r: AllocResult, ghost granted: int, ghost spoiled: bool, ghost bs: seq<Block>, ghost i: nat)
      requires Valid() && size <= PAGE_SIZE
      modifies this`mem, this`tail, this`freeHead, this`heapEnd, this`blocks, this`free
      ensures Served(old(View()), View(), size, PageAlign(size), g, r, granted, spoiled, bs, i)
      ensures r.Ptr? && 0 < size ==> r.p / PAGE_SIZE == (r.p + size - 1) / PAGE_SIZE
      ensures spoiled ==> 8 < size
      ensures head == HEAP_START
    {
      hide HeapOk, PowerOfTwo, WillFail, WillPanic, WillSpoil, Live, Granted, NextPowerOfTwo, Spares, Chosen, PlacedIn, StillAHeap;
      var align := NextPowerOfTwo(size);
      if PAGE_SIZE < align {
        align := PAGE_SIZE;
      }
      if size <= 8 {
        SmallPower(size);
        SmallOutcome(View(), size, align, g);
      }
      r, granted, spoiled, bs, i := Alloc(size, align, g);
      if r.Ptr? && 0 < size { AlignedStaysInPage(r.p, size, align); }
    }
  }
}
