/**
 Over-aligned allocation: the search for an aligned place inside a free block, and what the
 three-way split does to memory. The split is right exactly when the carved block is the last
 one and leaves room for a trailing block; `CarveRepresentsIff` states both directions.
 */
module HeapCarve {

  import opened Arithmetic
  import opened BlockHeader
  import opened Common
  import opened HeapSpec
  import opened HeapMemory

  // ---------------------------------------------------------------- alignment arithmetic

  lemma MultipleHasNoRemainder(k: int, align: int)
    requires align > 0
    ensures (k * align) % align == 0
  {
    QuotientRemainder(k * align, align, k, 0);
  }

  /** `align_up` yields a multiple, and the least one that is large enough. */
  lemma AlignUpIsLeast(x: int, align: int)
    requires align > 0
    ensures AlignUp(x, align) % align == 0
    ensures x <= AlignUp(x, align) < x + align
    ensures forall y | x <= y && y % align == 0 :: AlignUp(x, align) <= y
  {
    var z := x + align - 1;
    assert z == align * (z / align) + z % align;
    MultipleHasNoRemainder(z / align, align);
    var r := AlignUp(x, align);
    assert r == (z / align) * align;
    forall y | x <= y && y % align == 0 ensures r <= y {
      if y < r { MultiplesApart(y, r, align); }
    }
  }

  /** Two multiples of `align` are at least `align` apart. */
  lemma MultiplesApart(x: int, y: int, align: int)
    requires align > 0 && x % align == 0 && y % align == 0 && x < y
    ensures x + align <= y
  {
    assert x == align * (x / align) && y == align * (y / align);
    if x / align >= y / align {
      Ordered(align, y / align, x / align);
    } else {
      Ordered(align, x / align + 1, y / align);
    }
  }

  lemma NextMultiple(x: int, align: int)
    requires align > 0 && x % align == 0
    ensures (x + align) % align == 0
  {
    assert x == align * (x / align);
    MultipleHasNoRemainder(x / align + 1, align);
    assert (x / align + 1) * align == x + align;
  }

  lemma AlignUpEightGrows(x: int, y: int)
    requires x <= y
    ensures AlignUp(x, 8) <= AlignUp(y, 8)
  {
    AlignUpIsLeast(x, 8);
    AlignUpIsLeast(y, 8);
  }

  /** What `Layout` guarantees about alignments. */
  predicate PowerOfTwo(a: int) {
    a == 1 || (a > 1 && a % 2 == 0 && PowerOfTwo(a / 2))
  }

  /** The smaller of two powers of two divides the larger. */
  lemma {:induction false} PowersDivide(a: int, b: int)
    requires PowerOfTwo(a) && PowerOfTwo(b) && a <= b
    ensures b % a == 0
  {
    if a > 1 {
      PowersDivide(a / 2, b / 2);
      var k := b / 2 / (a / 2);
      assert b / 2 == (a / 2) * k;
      assert b == k * a by { assert a == 2 * (a / 2) && b == 2 * (b / 2); assert 2 * ((a / 2) * k) == (2 * (a / 2)) * k; }
      MultipleHasNoRemainder(k, a);
    }
  }

  /** A multiple of a multiple. */
  lemma MultipleOfMultiple(x: int, a: int, b: int)
    requires b > 0 && a > 0 && a % b == 0 && x % a == 0
    ensures x % b == 0
  {
    assert x == a * (x / a) && a == b * (a / b);
    assert x == ((x / a) * (a / b)) * b by {
      assert a * (x / a) == (b * (a / b)) * (x / a) == b * ((a / b) * (x / a));
    }
    MultipleHasNoRemainder((x / a) * (a / b), b);
  }

  lemma EightIsPower()
    ensures PowerOfTwo(8) && PowerOfTwo(16) && PowerOfTwo(4096)
  {
    assert PowerOfTwo(1) && PowerOfTwo(2) && PowerOfTwo(4);
    assert PowerOfTwo(8) && PowerOfTwo(16) && PowerOfTwo(32) && PowerOfTwo(64);
    assert PowerOfTwo(128) && PowerOfTwo(256) && PowerOfTwo(512);
    assert PowerOfTwo(1024) && PowerOfTwo(2048);
  }

  // ---------------------------------------------------------------- check_aligned_fit

  /** `p` is a payload address the allocator may hand out from the free block at `b`. */
  predicate Suits(b: int, blockSize: int, size: int, align: int, p: int)
    requires align > 0
  {
    && b + BLOCK_HEADER_SIZE <= p
    && p % align == 0
    && AlignUp(p + size, 8) + BLOCK_HEADER_SIZE <= b + BLOCK_HEADER_SIZE + blockSize
    && var padding := p - BLOCK_HEADER_SIZE - b;
    (padding == 0 || padding >= MIN_BLOCK_SIZE)
  }

  ghost predicate IsLeast(b: int, blockSize: int, size: int, align: int, p: int)
    requires align > 0
  {
    Suits(b, blockSize, size, align, p) && forall q | q < p :: !Suits(b, blockSize, size, align, q)
  }

  /** The lowest suitable payload address, as its header address; none if there is none. */
  method CheckAlignedFit(b: int, blockSize: int, size: nat, align: int) returns (r: Option<int>)
    requires align > 0
    ensures r.Some? ==> IsLeast(b, blockSize, size, align, r.value + BLOCK_HEADER_SIZE)
    ensures r.None? ==> forall q :: !Suits(b, blockSize, size, align, q)
  {
    var start := b + BLOCK_HEADER_SIZE;
    var end := b + BLOCK_HEADER_SIZE + blockSize;
    var aligned := AlignUp(start, align);
    AlignUpIsLeast(start, align);
    while AlignUp(aligned + size, 8) + BLOCK_HEADER_SIZE <= end
      invariant start <= aligned && aligned % align == 0
      invariant forall q | q < aligned :: !Suits(b, blockSize, size, align, q)
      decreases end - aligned
    {
      hide AlignUp;
      var header := aligned - BLOCK_HEADER_SIZE;
      var padding := header - b;
      if padding == 0 || padding >= MIN_BLOCK_SIZE {
        return Some(header);
      }
      AlignUpIsLeast(aligned + size, 8);
      NextMultiple(aligned, align);
      forall q | aligned < q < aligned + align ensures !Suits(b, blockSize, size, align, q) {
        if q % align == 0 { MultiplesApart(aligned, q, align); }
      }
      aligned := aligned + align;
    }
    forall q | aligned <= q ensures !Suits(b, blockSize, size, align, q) {
      AlignUpEightGrows(aligned + size, q + size);
    }
    r := None;
  }

  // ---------------------------------------------------------------- split_block, three ways

  /** Payload size of a carved block. */
  function CarveNeed(size: nat): int {
    Max(AlignUp(size, 8), MIN_ALLOC_SIZE)
  }

  /** `excess`: what is left behind the carved block once its trailing header is paid for. */
  function Excess(blockSize: int, a: int, h: int, need: int): int {
    blockSize - (h - (a + BLOCK_HEADER_SIZE) + BLOCK_HEADER_SIZE) - (need + BLOCK_HEADER_SIZE)
  }

  predicate CanCarve(m: Memory, freeHead: int, a: int, h: int, need: int) {
    && a in m && a != 0 && Storable(a) && Storable(h) && 0 <= m[a].size < TWO_32
    && Storable(freeHead) && (freeHead != 0 ==> freeHead in m)
    && 0 <= need && a + MIN_BLOCK_SIZE <= h
    && 0 <= Excess(m[a].size, a, h, need) && Storable(h + BLOCK_HEADER_SIZE + need)
  }

  /** Memory once the block has shrunk and the aligned header is linked in behind it. */
  function Placed(m: Memory, a: int, h: int, need: int, last: bool): Memory
    requires a in m && Storable(a) && Storable(h) && 0 <= need < TWO_32
    requires 0 <= h - (a + BLOCK_HEADER_SIZE) < TWO_32
  {
    var shrunk := m[a := m[a].SetSize(h - (a + BLOCK_HEADER_SIZE))];
    Chained(shrunk[h := Header.New(need, true)], a, h, h, last)
  }

  lemma PlacedShape(m: Memory, a: int, h: int, need: int, last: bool)
    requires a in m && Storable(a) && Storable(h) && 0 <= need < TWO_32 && h != a
    requires 0 <= h - (a + BLOCK_HEADER_SIZE) < TWO_32
    ensures var n := Placed(m, a, h, need, last);
            && HeaderIs(n, Block(a, h - (a + BLOCK_HEADER_SIZE), m[a].used), m[a].prev)
            && HeaderIs(n, Block(h, need, true), a)
            && forall x | x in m && x != a && x != h :: Unmoved(m, n, x)
  {
  }

  /** Memory, tail and free-list head after the carve. Both `insert_after` calls look up `next`
      only after the sizes have changed, so they see the new block itself. */
  function CarveMem(m: Memory, freeHead: int, a: int, h: int, need: int, last: bool): Memory
    requires CanCarve(m, freeHead, a, h, need)
  {
    var excess, added := Excess(m[a].size, a, h, need), h + BLOCK_HEADER_SIZE + need;
    var placed := Placed(m, a, h, need, last);
    if excess < MIN_ALLOC_SIZE then placed
    else
      var trailing := placed[added := Header.New(excess, false)];
      Chained(Pushed(trailing, freeHead, added), h, added, added, last)
  }

  function CarveTail(tail: int, a: int, h: int, need: int, excess: int): int {
    if a != tail then tail else if excess < MIN_ALLOC_SIZE then h else h + BLOCK_HEADER_SIZE + need
  }

  function CarveHead(freeHead: int, h: int, need: int, excess: int): int {
    if excess < MIN_ALLOC_SIZE then freeHead else h + BLOCK_HEADER_SIZE + need
  }

  /** Sizes, flags and prev links after the carve: nothing behind the old block changes. */
  lemma CarveShape(m: Memory, freeHead: int, a: int, h: int, need: int, last: bool)
    requires CanCarve(m, freeHead, a, h, need)
    ensures var n, added := CarveMem(m, freeHead, a, h, need, last), h + BLOCK_HEADER_SIZE + need;
            var excess := Excess(m[a].size, a, h, need);
            && HeaderIs(n, Block(a, h - (a + BLOCK_HEADER_SIZE), m[a].used), m[a].prev)
            && HeaderIs(n, Block(h, need, true), a)
            && (excess >= MIN_ALLOC_SIZE ==> HeaderIs(n, Block(added, excess, false), h))
            && forall x | x in m && x != a && x != h && x != added :: Unmoved(m, n, x)
  {
    var excess, added := Excess(m[a].size, a, h, need), h + BLOCK_HEADER_SIZE + need;
    PlacedShape(m, a, h, need, last);
    if excess >= MIN_ALLOC_SIZE {
      var placed := Placed(m, a, h, need, last);
      var trailing := placed[added := Header.New(excess, false)];
      PushedShape(trailing, freeHead, added);
      var pushed := Pushed(trailing, freeHead, added);
      hide Pushed, Storable, Placed;
      forall x | x in m && x != a && x != h && x != added
        ensures Unmoved(m, CarveMem(m, freeHead, a, h, need, last), x)
      {
        assert Unmoved(m, placed, x) && Unmoved(trailing, pushed, x);
      }
      assert Unmoved(trailing, pushed, a) && Unmoved(trailing, pushed, h) && Unmoved(trailing, pushed, added);
    }
  }

  lemma CarveList(m: Memory, free: seq<int>, freeHead: int, a: int, h: int, need: int, last: bool)
    requires CanCarve(m, freeHead, a, h, need) && FreeList(m, free, freeHead)
    requires Excess(m[a].size, a, h, need) >= MIN_ALLOC_SIZE
    requires h !in free && h + BLOCK_HEADER_SIZE + need !in free
    ensures var added := h + BLOCK_HEADER_SIZE + need;
            FreeList(CarveMem(m, freeHead, a, h, need, last), [added] + free, added)
  {
    hide FreeList, Pushed, Storable, Placed;
    var added := h + BLOCK_HEADER_SIZE + need;
    var trailing := Placed(m, a, h, need, last)[added := Header.New(Excess(m[a].size, a, h, need), false)];
    TrailingList(m, free, freeHead, a, h, need, last);
    PushedList(trailing, free, freeHead, added);
    PushedShape(trailing, freeHead, added);
    var pushed := Pushed(trailing, freeHead, added);
    FreeListKept(pushed, CarveMem(m, freeHead, a, h, need, last), [added] + free, added);
  }

  /** Neither new header is on the list, so the list is still there. */
  lemma TrailingList(m: Memory, free: seq<int>, freeHead: int, a: int, h: int, need: int, last: bool)
    requires CanCarve(m, freeHead, a, h, need) && FreeList(m, free, freeHead)
    requires Excess(m[a].size, a, h, need) >= MIN_ALLOC_SIZE
    requires h !in free && h + BLOCK_HEADER_SIZE + need !in free
    ensures var added := h + BLOCK_HEADER_SIZE + need;
            && added != 0
            && FreeList(Placed(m, a, h, need, last)[added := Header.New(Excess(m[a].size, a, h, need), false)], free, freeHead)
  {
    hide FreeList;
    var added := h + BLOCK_HEADER_SIZE + need;
    FreeListKept(m, Placed(m, a, h, need, last)[added := Header.New(Excess(m[a].size, a, h, need), false)], free, freeHead);
  }

  /** The request a carve has to meet: an aligned header inside a free block, with room before
      it for a block and no shortage behind it. */
  predicate CarveRequest(b: Block, h: int, need: int) {
    && !b.used && h % 8 == 0 && b.addr + MIN_BLOCK_SIZE <= h
    && need % 8 == 0 && MIN_ALLOC_SIZE <= need
    && 0 <= Excess(b.size, b.addr, h, need)
  }

  lemma CarvePossible(m: Memory, tail: int, freeHead: int, end: int, bs: seq<Block>, free: seq<int>, i: nat, h: int, need: int)
    requires Linked(m, tail, freeHead, end, bs, free) && i < |bs| && CarveRequest(bs[i], h, need)
    ensures CanCarve(m, freeHead, bs[i].addr, h, need)
    ensures bs[i].addr < h < h + BLOCK_HEADER_SIZE + need < bs[i].End()
  {
    hide Tiles, BlocksAre, FreeList, Before;
    BlockFacts(m, tail, freeHead, end, bs, free, i);
    FreeHeadFacts(m, free, freeHead);
    MultipleOfEightIsEven(h);
    MultiplesOfEight(h, need);
    MultiplesOfEight(h + need, BLOCK_HEADER_SIZE);
    MultipleOfEightIsEven(h + BLOCK_HEADER_SIZE + need);
  }

  /** Carving the last block with room for a trailing one keeps the whole representation. */
  lemma CarveDone(m: Memory, tail: int, freeHead: int, end: int, bs: seq<Block>, free: seq<int>, i: nat, h: int, need: int)
    requires Represents(m, tail, freeHead, end, bs, free)
    requires i == |bs| - 1 && CarveRequest(bs[i], h, need)
    requires Excess(bs[i].size, bs[i].addr, h, need) >= MIN_ALLOC_SIZE
    ensures CanCarve(m, freeHead, bs[i].addr, h, need)
    ensures var added := h + BLOCK_HEADER_SIZE + need;
            Represents(CarveMem(m, freeHead, bs[i].addr, h, need, true), added, added, end,
                       Splice(bs, i, 1, Carve(bs[i], h, need)), [added] + free)
  {
    hide Tiles, BlocksAre, FreeList, NoAdjacentFree, FreeAddrs, Elems, Distinct, HeaderIs, CarveMem, CanCarve;
    var b, added := bs[i], h + BLOCK_HEADER_SIZE + need;
    CarvePossible(m, tail, freeHead, end, bs, free, i, h, need);
    HeaderSizeIs(m, bs, i);
    NotInFree(bs, free, end, i, h);
    NotInFree(bs, free, end, i, added);
    CarveList(m, free, freeHead, b.addr, h, need, true);
    CarveKeepsWellFormed(bs, free, end, i, h, need);
    CarveBlocks(m, freeHead, end, bs, i, h, need);
  }

  lemma HeaderSizeIs(m: Memory, bs: seq<Block>, i: nat)
    requires BlocksAre(m, 0, bs) && i < |bs|
    ensures bs[i].addr in m && m[bs[i].addr].size == bs[i].size && m[bs[i].addr].used == bs[i].used
    ensures m[bs[i].addr].prev == Before(0, bs, i)
  {
    HeaderOfBlock(m, bs, i);
  }

  lemma NotInFree(bs: seq<Block>, free: seq<int>, end: int, i: nat, x: int)
    requires WellFormed(bs, free, end) && i < |bs| && bs[i].addr < x < bs[i].End()
    ensures x !in free
  {
    hide Tiles, FreeAddrs;
    InteriorAddress(bs, end, i, x);
    assert x in free <==> x in Elems(free);
  }

  lemma CarveBlocks(m: Memory, freeHead: int, end: int, bs: seq<Block>, i: nat, h: int, need: int)
    requires Tiles(bs, HEAP_START, end) && BlocksAre(m, 0, bs) && i == |bs| - 1 && !bs[i].used
    requires CanCarve(m, freeHead, bs[i].addr, h, need)
    requires Excess(bs[i].size, bs[i].addr, h, need) >= MIN_ALLOC_SIZE
    ensures BlocksAre(CarveMem(m, freeHead, bs[i].addr, h, need, true), 0, Splice(bs, i, 1, Carve(bs[i], h, need)))
  {
    hide Tiles, CarveMem, Unmoved, Storable;
    var b, mid, added := bs[i], Carve(bs[i], h, need), h + BLOCK_HEADER_SIZE + need;
    var n := CarveMem(m, freeHead, b.addr, h, need, true);
    HeaderSizeIs(m, bs, i);
    TilesAt(bs, HEAP_START, end, i);
    CarveShape(m, freeHead, b.addr, h, need, true);
    OthersUnmoved(m, n, bs, end, i, 1, {b.addr, h, added});
    assert mid[0] == Block(b.addr, h - (b.addr + BLOCK_HEADER_SIZE), false) && mid[2].addr == added;
    assert mid[2].size == Excess(b.size, b.addr, h, need);
    assert BlocksAre(n, Before(0, bs, i), mid);
    hide BlocksAre;
    BlocksSplice(m, n, bs, i, 1, mid);
  }

  /** Every block but number i is still there. */
  predicate KeepsOthers(bs: seq<Block>, i: nat, out: seq<Block>) {
    forall x | 0 <= x < |bs| && x != i :: bs[x] in out
  }

  /** Memory still represents a heap with all blocks of `bs` other than number i. */
  ghost predicate StillAHeap(m: Memory, tail: int, freeHead: int, end: int, bs: seq<Block>, i: nat) {
    exists out, outFree :: KeepsOthers(bs, i, out) && Represents(m, tail, freeHead, end, out, outFree)
  }

  /** The last block of a heap reaches the heap's end. */
  lemma LastReachesEnd(n: Memory, h: int, need: int, end: int, out: seq<Block>)
    requires out != [] && Tiles(out, HEAP_START, end) && BlocksAre(n, 0, out) && out[|out| - 1].addr == h
    requires h in n && n[h].size == need
    ensures h + BLOCK_HEADER_SIZE + need == end
  {
    hide Tiles;
    HeaderSizeIs(n, out, |out| - 1);
    TilesAt(out, HEAP_START, end, |out| - 1);
  }

  /** A block of a heap that points back at `a` starts where the block at `a` ends. */
  lemma PrevReachesBlock(n: Memory, a: int, next: Block, end: int, out: seq<Block>)
    requires Tiles(out, HEAP_START, end) && BlocksAre(n, 0, out) && next in out
    requires next.addr in n && n[next.addr].prev == a && a != 0
    ensures a in n && a + BLOCK_HEADER_SIZE + n[a].size == next.addr
  {
    hide Tiles;
    var k :| 0 <= k < |out| && out[k] == next;
    HeaderSizeIs(n, out, k);
    TilesAt(out, HEAP_START, end, k - 1);
    HeaderSizeIs(n, out, k - 1);
  }

  /** Off the end the old successor keeps pointing back past the new blocks; at the end, with
      little left behind the carved block, the last bytes are lost. Either way no heap is left
      that still has the other blocks. */
  lemma CarveBroken(m: Memory, tail: int, freeHead: int, end: int, bs: seq<Block>, free: seq<int>, i: nat, h: int, need: int,
                    out: seq<Block>, outFree: seq<int>)
    requires Linked(m, tail, freeHead, end, bs, free) && i < |bs| && CarveRequest(bs[i], h, need)
    requires CanCarve(m, freeHead, bs[i].addr, h, need)
    requires var excess := Excess(bs[i].size, bs[i].addr, h, need);
             && !(i == |bs| - 1 && excess >= MIN_ALLOC_SIZE)
             && Linked(CarveMem(m, freeHead, bs[i].addr, h, need, i == |bs| - 1),
                       CarveTail(tail, bs[i].addr, h, need, excess), CarveHead(freeHead, h, need, excess),
                       end, out, outFree)
    ensures !KeepsOthers(bs, i, out)
  {
    hide Tiles, FreeList, CarveMem, CanCarve, BlocksAre, Storable;
    var b, last := bs[i], i == |bs| - 1;
    var n := CarveMem(m, freeHead, b.addr, h, need, last);
    CarvePossible(m, tail, freeHead, end, bs, free, i, h, need);
    BlockFacts(m, tail, freeHead, end, bs, free, i);
    CarveShape(m, freeHead, b.addr, h, need, last);
    if last {
      LastReachesEnd(n, h, need, end, out);
    } else {
      BlockFacts(m, tail, freeHead, end, bs, free, i + 1);
      assert Unmoved(m, n, bs[i + 1].addr);
      if bs[i + 1] in out { PrevReachesBlock(n, b.addr, bs[i + 1], end, out); }
    }
  }

  /** The three-way split of `split_block` leaves a heap with all its other blocks if and only if
      it carved the last block and left room for a trailing one. */
  lemma CarveRepresentsIff(m: Memory, tail: int, freeHead: int, end: int, bs: seq<Block>, free: seq<int>, i: nat, h: int, need: int)
    requires Represents(m, tail, freeHead, end, bs, free) && i < |bs| && CarveRequest(bs[i], h, need)
    ensures CanCarve(m, freeHead, bs[i].addr, h, need)
    ensures var excess := Excess(bs[i].size, bs[i].addr, h, need);
            StillAHeap(CarveMem(m, freeHead, bs[i].addr, h, need, i == |bs| - 1),
                       CarveTail(tail, bs[i].addr, h, need, excess), CarveHead(freeHead, h, need, excess), end, bs, i)
            <==> i == |bs| - 1 && excess >= MIN_ALLOC_SIZE
  {
    hide WellFormed, CarveMem, CanCarve, Linked, KeepsOthers;
    assert Linked(m, tail, freeHead, end, bs, free);
    CarvePossible(m, tail, freeHead, end, bs, free, i, h, need);
    BlockFacts(m, tail, freeHead, end, bs, free, i);
    var excess := Excess(bs[i].size, bs[i].addr, h, need);
    var n, t, f := CarveMem(m, freeHead, bs[i].addr, h, need, i == |bs| - 1),
                   CarveTail(tail, bs[i].addr, h, need, excess), CarveHead(freeHead, h, need, excess);
    if i == |bs| - 1 && excess >= MIN_ALLOC_SIZE {
      CarveDone(m, tail, freeHead, end, bs, free, i, h, need);
      SpliceKeepsOthers(bs, i, Carve(bs[i], h, need));
    } else {
      forall out, outFree | Represents(n, t, f, end, out, outFree) ensures !KeepsOthers(bs, i, out) {
        CarveBroken(m, tail, freeHead, end, bs, free, i, h, need, out, outFree);
      }
    }
  }

  lemma SpliceKeepsOthers(bs: seq<Block>, i: nat, mid: seq<Block>)
    requires i == |bs| - 1
    ensures KeepsOthers(bs, i, Splice(bs, i, 1, mid))
  {
    forall x | 0 <= x < |bs| && x != i ensures bs[x] in Splice(bs, i, 1, mid) {
      assert Splice(bs, i, 1, mid)[x] == bs[x];
    }
  }

  // ---------------------------------------------------------------- where a request is placed

  /** Header `h` inside free block `b` meets the request: at the block's own address when the
      block is large enough, else at a suitable over-aligned place further in. */
  predicate Placement(b: Block, size: nat, align: int, h: int)
    requires align > 0
  {
    && (h + BLOCK_HEADER_SIZE) % align == 0
    && if h == b.addr then AlignUp(size, 8) <= b.size
       else align > 8 && Suits(b.addr, b.size, size, align, h + BLOCK_HEADER_SIZE)
  }

  lemma AlignUpShift(x: int, n: int)
    requires x % 8 == 0
    ensures AlignUp(x + n, 8) == x + AlignUp(n, 8)
  {
    assert x == 8 * (x / 8);
    assert (x + n + 7) % 8 == (n + 7) % 8;
  }

  /** At small alignments the block's own payload address is the first to be tried. */
  lemma SmallAlignment(b: int, align: int)
    requires PowerOfTwo(align) && align <= 8 && b % 8 == 0
    ensures (b + BLOCK_HEADER_SIZE) % align == 0
  {
    EightIsPower();
    PowersDivide(align, 8);
    assert (b + BLOCK_HEADER_SIZE) % 8 == 0;
    MultipleOfMultiple(b + BLOCK_HEADER_SIZE, 8, align);
  }

  /** What the aligned search finds is a placement, whatever the alignment. */
  lemma FoundIsPlacement(b: Block, size: nat, align: int, h: int)
    requires PowerOfTwo(align) && b.addr % 8 == 0 && b.size % 8 == 0
    requires IsLeast(b.addr, b.size, size, align, h + BLOCK_HEADER_SIZE)
    ensures Placement(b, size, align, h)
    ensures align <= 8 ==> h == b.addr
  {
    var start := b.addr + BLOCK_HEADER_SIZE;
    MultiplesOfEight(b.addr, BLOCK_HEADER_SIZE);
    AlignUpShift(start, size);
    if align <= 8 {
      SmallAlignment(b.addr, align);
      AlignUpEightGrows(start + size, h + BLOCK_HEADER_SIZE + size);
      assert h != b.addr ==> Suits(b.addr, b.size, size, align, start);
    }
  }

  /** At small alignments some address suits exactly when the block also has 16 bytes to spare. */
  lemma SmallAlignmentSuits(b: Block, size: nat, align: int)
    requires PowerOfTwo(align) && align <= 8 && b.addr % 8 == 0
    ensures (exists p :: Suits(b.addr, b.size, size, align, p)) <==> AlignUp(size, 8) + BLOCK_HEADER_SIZE <= b.size
  {
    var start := b.addr + BLOCK_HEADER_SIZE;
    SmallAlignment(b.addr, align);
    MultiplesOfEight(b.addr, BLOCK_HEADER_SIZE);
    AlignUpShift(start, size);
    assert Suits(b.addr, b.size, size, align, start) <==> AlignUp(size, 8) + BLOCK_HEADER_SIZE <= b.size;
    forall p | Suits(b.addr, b.size, size, align, p) ensures AlignUp(size, 8) + BLOCK_HEADER_SIZE <= b.size {
      AlignUpEightGrows(start + size, p + size);
    }
  }

  /** An over-aligned placement is a proper carve request unless `excess` underflows, which
      needs a request of at most eight bytes. */
  lemma PlacementIsRequest(b: Block, size: nat, align: int, h: int)
    requires PowerOfTwo(align) && b.addr % 8 == 0 && b.size % 8 == 0 && !b.used
    requires Placement(b, size, align, h) && h != b.addr
    ensures 0 <= Excess(b.size, b.addr, h, CarveNeed(size)) ==> CarveRequest(b, h, CarveNeed(size))
    ensures size > 8 ==> 0 <= Excess(b.size, b.addr, h, CarveNeed(size))
    ensures size <= CarveNeed(size) && b.addr + MIN_BLOCK_SIZE <= h
  {
    hide Suits, AlignUp, PowerOfTwo;
    var p := h + BLOCK_HEADER_SIZE;
    EightIsPower();
    PowersDivide(8, align);
    MultipleOfMultiple(p, align, 8);
    MultiplesOfEight(p, BLOCK_HEADER_SIZE);
    AlignUpShift(p, size);
    AlignUpIsLeast(size, 8);
    SuitsPadding(b, size, align, p);
  }

  /** The lowest suitable address is inside the block, and carving there makes `excess` underflow. */
  ghost predicate Underflows(b: int, blockSize: int, size: nat, align: int)
    requires align > 0
  {
    exists p :: IsLeast(b, blockSize, size, align, p) && CarveUnderflows(b, blockSize, size, p - BLOCK_HEADER_SIZE)
  }

  predicate CarveUnderflows(b: int, blockSize: int, size: nat, h: int) {
    h != b && Excess(blockSize, b, h, CarveNeed(size)) < 0
  }

  lemma UnderflowsAtLeast(b: int, blockSize: int, size: nat, align: int, h: int)
    requires align > 0 && IsLeast(b, blockSize, size, align, h + BLOCK_HEADER_SIZE)
    ensures Underflows(b, blockSize, size, align) <==> CarveUnderflows(b, blockSize, size, h)
  {
    hide Suits, Excess, CarveNeed;
    assert h + BLOCK_HEADER_SIZE - BLOCK_HEADER_SIZE == h;
    forall p | IsLeast(b, blockSize, size, align, p) ensures p == h + BLOCK_HEADER_SIZE { }
  }

  lemma SuitsPadding(b: Block, size: nat, align: int, p: int)
    requires align > 0 && Suits(b.addr, b.size, size, align, p) && p != b.Payload()
    ensures b.addr + MIN_BLOCK_SIZE <= p - BLOCK_HEADER_SIZE
    ensures AlignUp(p + size, 8) + BLOCK_HEADER_SIZE <= b.End()
  {
  }

  // ---------------------------------------------------------------- alloc_within_page

  function NextPowerOfTwo(n: nat): (r: int)
    ensures PowerOfTwo(r) && n <= r && forall q | PowerOfTwo(q) && n <= q :: r <= q
    ensures n <= 4096 ==> r <= 4096
  {
    EightIsPower();
    PowerAtLeast(1, n)
  }

  function PowerAtLeast(r: int, n: nat): (q: int)
    requires PowerOfTwo(r)
    requires r == 1 || r < 2 * n
    ensures PowerOfTwo(q) && n <= q && forall p | PowerOfTwo(p) && n <= p :: q <= p
    ensures n <= 4096 && r <= 4096 ==> q <= 4096
    decreases n - r
  {
    if n <= r then LeastPower(r, n); r
    else
      assert PowerOfTwo(2 * r);
      assert r < 4096 ==> 2 * r <= 4096 by { if r < 4096 { EightIsPower(); PowersDivide(r, 4096); HalfPower(r); } }
      PowerAtLeast(2 * r, n)
  }

  lemma TwiceDivides(p: int, r: int)
    requires 0 < p < r && r % p == 0
    ensures 2 * p <= r
  {
    var k := r / p;
    assert r == p * k;
    if k <= 1 { Ordered(p, k, 1); } else { Ordered(p, 2, k); }
  }

  /** No power of two lies between a power and its double. */
  lemma LeastPower(r: int, n: nat)
    requires PowerOfTwo(r) && n <= r && (r == 1 || r < 2 * n)
    ensures forall p | PowerOfTwo(p) && n <= p :: r <= p
  {
    forall p | PowerOfTwo(p) && n <= p ensures r <= p {
      if p < r {
        PowersDivide(p, r);
        hide PowerOfTwo;
        TwiceDivides(p, r);
      }
    }
  }

  lemma HalfPower(r: int)
    requires PowerOfTwo(r) && r < 4096 && 4096 % r == 0
    ensures 2 * r <= 4096
  {
    assert 4096 == r * (4096 / r);
    assert 4096 / r != 1 && 4096 / r >= 1;
    Ordered(r, 2, 4096 / r);
  }

  /** A buffer aligned to a power of two that is at least its size stays inside one page. */
  lemma AlignedStaysInPage(p: int, size: nat, align: int)
    requires PowerOfTwo(align) && align <= 4096 && p % align == 0 && 0 < size <= align
    ensures p / 4096 == (p + size - 1) / 4096
  {
    EightIsPower();
    PowersDivide(align, 4096);
    var r := p % 4096;
    assert p == 4096 * (p / 4096) + r;
    assert r % align == 0 by { RemainderIsMultiple(p, align); }
    MultiplesApart(r, 4096, align);
  }

  lemma RemainderIsMultiple(p: int, align: int)
    requires align > 0 && 4096 % align == 0 && p % align == 0
    ensures (p % 4096) % align == 0
  {
    var k := 4096 / align;
    assert 4096 == align * k && p == align * (p / align);
    var m := p / align - k * (p / 4096);
    assert p % 4096 == p - 4096 * (p / 4096);
    assert 4096 * (p / 4096) == align * (k * (p / 4096));
    assert p % 4096 == m * align by {
      assert align * (p / align) - align * (k * (p / 4096)) == align * (p / align - k * (p / 4096));
    }
    MultipleHasNoRemainder(m, align);
  }
}
