/**
 The allocator's operations on whole heap values: what one is after each step and what was
 written on the way.
 */
module HeapSteps {

  import opened BlockHeader
  import opened Common
  import opened HeapSpec
  import opened HeapMemory
  import opened HeapCarve
  import opened HeapFrame
  import opened HeapRequest

  // ---------------------------------------------------------------- cutting and taking, on values

  ghost predicate CutDone(h: Heap, n: Heap, i: nat, need: int)
    requires i < |h.blocks|
  {
    && n.end == h.end && n.blocks == CutBlocks(h.blocks, i, need) && n.free == CutFree(h.blocks[i], need, h.free)
    && Linked(n.mem, n.tail, n.freeHead, n.end, n.blocks, n.free) && h.blocks[i].addr in n.free
    && FreeAreHeaders(n.blocks, n.free) && Spares(h.mem, n.mem, Live(h.blocks))
  }

  /** What allocating at the front of block i has done. */
  ghost predicate Taken(h: Heap, n: Heap, i: nat, need: int)
    requires i < |h.blocks|
  {
    && n.end == h.end && n.blocks == AllocBlocks(h.blocks, i, need) && n.free == AllocFree(h.blocks[i], need, h.free)
    && HeapOk(n) && Spares(h.mem, n.mem, Live(h.blocks))
  }

  /** What the code reads before it cuts. */
  lemma CutFacts(h: Heap, i: nat, need: int)
    requires HeapOk(h) && i < |h.blocks| && !h.blocks[i].used && MIN_ALLOC_SIZE <= need && need % 8 == 0
    ensures var b := h.blocks[i];
            && b.addr in h.mem && h.mem[b.addr].size == b.size && (b.addr == h.tail <==> i == |h.blocks| - 1)
            && (b.size - need >= MIN_BLOCK_SIZE ==> CanSplit(h.mem, h.freeHead, b.addr, need, i == |h.blocks| - 1))
  {
    hide WellFormed, Linked, CanSplit, HeaderIs;
    BlockFacts(h.mem, h.tail, h.freeHead, h.end, h.blocks, h.free, i);
    SizeOfHeader(h.mem, h.blocks[i], Before(0, h.blocks, i));
    if h.blocks[i].size - need >= MIN_BLOCK_SIZE {
      SplitPossible(h.mem, h.tail, h.freeHead, h.end, h.blocks, h.free, i, need);
    }
  }

  lemma FrontFacts(h: Heap, i: nat, size: nat)
    requires HeapOk(h) && i < |h.blocks| && AlignUp(size, 8) <= h.blocks[i].size
    ensures Need(size) == AlignUp(Max(size, MIN_ALLOC_SIZE), 8)
    ensures MIN_ALLOC_SIZE <= Need(size) <= h.blocks[i].size && Need(size) % 8 == 0
  {
    hide WellFormed, Linked, AlignUp, HeaderIs;
    BlockFacts(h.mem, h.tail, h.freeHead, h.end, h.blocks, h.free, i);
    NeedFits(size, h.blocks[i].size);
  }

  lemma CutIsDone(h: Heap, n: Heap, i: nat, need: int)
    requires HeapOk(h) && i < |h.blocks| && !h.blocks[i].used && MIN_ALLOC_SIZE <= need <= h.blocks[i].size && need % 8 == 0
    requires var b, last := h.blocks[i], i == |h.blocks| - 1;
             if b.size - need >= MIN_BLOCK_SIZE then
               && b.addr in h.mem && h.mem[b.addr].size == b.size && CanSplit(h.mem, h.freeHead, b.addr, need, last)
               && n == Heap(SplitMem(h.mem, h.freeHead, b.addr, need, last), if last then b.Payload() + need else h.tail,
                            b.Payload() + need, h.end, Splice(h.blocks, i, 1, Halves(b, need)), [b.Payload() + need] + h.free)
             else n == h
    ensures CutDone(h, n, i, need)
  {
    hide Tiles, BlocksAre, FreeLinks, Pointers, Distinct, NoAdjacentFree, FreeAddrs, SplitMem, HeaderIs, CanSplit, Live, Halves, Splice,
         FreeAreHeaders, Spares;
    var b := h.blocks[i];
    FreeBlockListed(h.blocks, h.free, i);
    ListedAreHeaders(h.blocks, h.free, h.end);
    if b.size - need >= MIN_BLOCK_SIZE {
      SplitDone(h.mem, h.tail, h.freeHead, h.end, h.blocks, h.free, i, need);
      CutTiles(h.blocks, h.end, i, need);
      SplitWrites(h.mem, h.tail, h.freeHead, h.end, h.blocks, h.free, i, need);
      InsideSpare(h.mem, n.mem, h.blocks, h.free, h.end, i);
      CutHeaders(h.blocks, h.free, i, need);
    } else {
      NoneDiffer(h.mem, Live(h.blocks));
    }
  }

  /** The pieces of the cut block are headers as well, and so are all the others. */
  lemma CutHeaders(bs: seq<Block>, free: seq<int>, i: nat, need: int)
    requires i < |bs| && FreeAreHeaders(bs, free)
    ensures var out, added := Splice(bs, i, 1, Halves(bs[i], need)), bs[i].Payload() + need;
            && out != [] && out[|out| - 1].addr == (if i == |bs| - 1 then added else bs[|bs| - 1].addr)
            && FreeAreHeaders(out, [added] + free)
  {
    var out, added := Splice(bs, i, 1, Halves(bs[i], need)), bs[i].Payload() + need;
    assert out[i].addr == bs[i].addr && out[i + 1].addr == added;
    forall j | 0 <= j < |[added] + free| ensures IsHeader(out, ([added] + free)[j]) {
      if j > 0 {
        var k :| 0 <= k < |bs| && bs[k].addr == free[j - 1];
        assert out[if k <= i then k else k + 1].addr == bs[k].addr;
      }
    }
  }

  /** Taking the front piece into use completes the allocation step. */
  lemma TakeIsDone(h: Heap, n: Heap, i: nat, need: int)
    requires HeapOk(h) && i < |h.blocks| && !h.blocks[i].used && MIN_ALLOC_SIZE <= need <= h.blocks[i].size && need % 8 == 0
    requires CutDone(h, n, i, need)
    ensures n.end == h.end && i < |n.blocks| && n.blocks[i].addr == h.blocks[i].addr && NeighboursIn(n.mem, h.blocks[i].addr)
    ensures var a := h.blocks[i].addr;
            var u := Unlinked(n.mem, n.mem[a].freePrev, a, n.mem[a].freeNext);
            && a in u
            && Taken(h, Heap(u[a := u[a].SetUsed()], n.tail, if n.mem[a].freePrev == 0 then n.mem[a].freeNext else n.freeHead, n.end,
                             Splice(n.blocks, i, 1, [n.blocks[i].(used := true)]), Without(n.free, a)), i, need)
  {
    hide Tiles, BlocksAre, FreeList, NoAdjacentFree, ListsFree, Unlinked, Storable, Without, Splice, Live, Spares, FreeAreHeaders,
         CutBlocks, CutFree, AllocBlocks, AllocFree, HeadersOnly;
    var a := h.blocks[i].addr;
    AllocKeepsWellFormed(h.blocks, h.free, h.end, i, need);
    CutThenTake(h.blocks, h.free, i, need);
    TakenDone(n.mem, n.freeHead, n.end, n.blocks, n.free, i);
    TakenWrites(n.mem, n.blocks, n.free, n.freeHead, a);
    CutLive(h.blocks, h.end, i, need);
    var u := Unlinked(n.mem, n.mem[a].freePrev, a, n.mem[a].freeNext);
    HeadersSpare(n.mem, u[a := u[a].SetUsed()], n.blocks, n.end);
    SparesChain(h.mem, n.mem, u[a := u[a].SetUsed()], Live(h.blocks));
  }

  lemma CutLive(bs: seq<Block>, end: int, i: nat, need: int)
    requires Tiles(bs, HEAP_START, end) && i < |bs| && !bs[i].used
    ensures Live(CutBlocks(bs, i, need)) == Live(bs)
  {
    hide Tiles;
    var b := bs[i];
    if b.size - need >= MIN_BLOCK_SIZE {
      var mid := Halves(b, need);
      assert Live(mid) == {} && Live([b]) == {};
      assert bs == bs[..i] + [b] + bs[i + 1..];
      SetsOfConcat(bs[..i], [b]);
      SetsOfConcat(bs[..i] + [b], bs[i + 1..]);
      SetsOfConcat(bs[..i], mid);
      SetsOfConcat(bs[..i] + mid, bs[i + 1..]);
    }
  }

  lemma JoinedTail(m: Memory, tail: int, freeHead: int, end: int, bs: seq<Block>, free: seq<int>, i: nat)
    requires Linked(m, tail, freeHead, end, bs, free) && i + 1 < |bs|
    ensures var out := Splice(bs, i, 2, [Joined(bs, i)]);
            out != [] && out[|out| - 1].addr == if bs[i + 1].addr == tail then bs[i].addr else tail
  {
    hide Tiles, BlocksAre, FreeList;
    TailAddress(bs, end, i + 1);
  }

  // ---------------------------------------------------------------- freeing, on values

  function AfterNext(bs: seq<Block>, i: nat, free: seq<int>): seq<int>
    requires i < |bs|
  {
    if MergeTo(bs, i) == i + 2 then Without(free, bs[i + 1].addr) else free
  }

  ghost predicate HalfFreed(h: Heap, n: Heap, i: nat)
    requires i < |h.blocks|
  {
    && n.end == h.end && n.blocks == JoinedNext(MarkedFree(h.blocks, i), i) && n.free == AfterNext(h.blocks, i, h.free)
    && Linked(n.mem, n.tail, n.freeHead, n.end, n.blocks, n.free) && HeadersOnly(h.mem, n.mem, h.blocks)
  }

  ghost predicate Freed(h: Heap, n: Heap, i: nat)
    requires i < |h.blocks|
  {
    && n.end == h.end && n.blocks == FreeBlocks(h.blocks, i) && n.free == FreeFree(h.blocks, i, h.free)
    && HeapOk(n) && HeadersOnly(h.mem, n.mem, h.blocks)
  }

  /** The state between the two halves of freeing: block i marked free and not listed yet. */
  ghost predicate MarkedAs(h: Heap, n: Heap, i: nat)
    requires i < |h.blocks|
  {
    && var b := h.blocks[i].addr;
    && b in h.mem && n == h.(mem := h.mem[b := h.mem[b].SetFree()], blocks := MarkedFree(h.blocks, i))
    && Linked(n.mem, n.tail, n.freeHead, n.end, n.blocks, n.free)
    && FreeAreHeaders(n.blocks, n.free) && HeadersOnly(h.mem, n.mem, h.blocks)
  }

  lemma MarkIsDone(h: Heap, i: nat) returns (n: Heap)
    requires HeapOk(h) && i < |h.blocks| && h.blocks[i].used
    ensures MarkedAs(h, n, i)
  {
    hide NoAdjacentFree, ListsFree, Linked, HeadersOnly, FreeAreHeaders;
    var b := h.blocks[i].addr;
    MarkedFreeDone(h.mem, h.tail, h.freeHead, h.end, h.blocks, h.free, i);
    ListedAreHeaders(h.blocks, h.free, h.end);
    MarkedHeaders(h.blocks, h.free, i);
    WriteHeader(h.mem, h.blocks, b, h.mem[b].SetFree());
    n := h.(mem := h.mem[b := h.mem[b].SetFree()], blocks := MarkedFree(h.blocks, i));
  }

  lemma MarkedHeaders(bs: seq<Block>, free: seq<int>, i: nat)
    requires i < |bs| && FreeAreHeaders(bs, free)
    ensures FreeAreHeaders(MarkedFree(bs, i), free) && IsHeader(bs, bs[i].addr)
  {
    MarkedElements(bs, i);
    hide MarkedFree;
    forall j | 0 <= j < |free| ensures IsHeader(MarkedFree(bs, i), free[j]) {
      var k :| 0 <= k < |bs| && bs[k].addr == free[j];
      assert MarkedFree(bs, i)[k].addr == free[j];
    }
  }

  /** What the code reads before it looks at the successor. */
  lemma SuccessorFacts(h: Heap, n: Heap, i: nat)
    requires HeapOk(h) && i < |h.blocks| && MarkedAs(h, n, i)
    ensures var b := h.blocks[i];
            && b.addr in n.mem && n.mem[b.addr].size == b.size && i < |n.blocks| && n.blocks[i] == b.(used := false)
            && (b.addr == n.tail <==> i + 1 == |h.blocks|)
            && (b.addr != n.tail ==> i + 1 < |n.blocks| && n.blocks[i + 1] == h.blocks[i + 1] && n.blocks[i + 1].addr == b.End()
                                     && b.End() in n.mem && n.mem[b.End()].used == h.blocks[i + 1].used)
            && (i + 1 < |h.blocks| && !h.blocks[i + 1].used ==> h.blocks[i + 1].addr in n.free)
  {
    hide NoAdjacentFree, FreeAddrs, Linked, HeadersOnly, FreeAreHeaders, MarkedFree, HeaderIs;
    MarkedElements(h.blocks, i);
    BlockFacts(n.mem, n.tail, n.freeHead, n.end, n.blocks, n.free, i);
    SizeOfHeader(n.mem, n.blocks[i], Before(0, n.blocks, i));
    if i + 1 < |h.blocks| {
      BlockFacts(n.mem, n.tail, n.freeHead, n.end, n.blocks, n.free, i + 1);
      SizeOfHeader(n.mem, n.blocks[i + 1], Before(0, n.blocks, i + 1));
      if !h.blocks[i + 1].used { FreeBlockListed(h.blocks, h.free, i + 1); }
    }
  }

  lemma HalfIsDone(h: Heap, k: Heap, n: Heap, i: nat)
    requires i < |h.blocks| && MarkedAs(h, k, i) && n.end == h.end
    requires if i + 1 < |h.blocks| && !h.blocks[i + 1].used
             then i + 1 < |k.blocks| && n.blocks == Splice(k.blocks, i, 2, [Joined(k.blocks, i)])
                  && n.free == Without(k.free, h.blocks[i + 1].addr)
                  && Linked(n.mem, n.tail, n.freeHead, n.end, n.blocks, n.free) && HeadersOnly(k.mem, n.mem, k.blocks)
             else n == k
    ensures HalfFreed(h, n, i)
  {
    hide Linked, HeadersOnly, FreeAreHeaders, MarkedFree, Without, Splice, Joined;
    MarkedElements(h.blocks, i);
    if i + 1 < |h.blocks| && !h.blocks[i + 1].used {
      UnmarkedHeaders(k.mem, n.mem, h.blocks, i);
      HeadersChain(h.mem, k.mem, n.mem, h.blocks);
    }
  }

  lemma UnmarkedHeaders(m: Memory, n: Memory, bs: seq<Block>, i: nat)
    requires i < |bs| && HeadersOnly(m, n, MarkedFree(bs, i))
    ensures HeadersOnly(m, n, bs)
  {
    MarkedElements(bs, i);
    hide MarkedFree, HeadersOnly;
    var marked := MarkedFree(bs, i);
    forall k | 0 <= k < |marked| ensures IsHeader(bs, marked[k].addr) {
      assert marked[k].addr == bs[k].addr;
    }
    SameHeaders(m, n, marked, bs);
  }

  /** What the code reads before it looks at the predecessor, and what inserting would do. */
  lemma HalfFacts(h: Heap, n: Heap, i: nat)
    requires HeapOk(h) && i < |h.blocks| && h.blocks[i].used && HalfFreed(h, n, i)
    ensures var b := h.blocks[i].addr;
            && b in n.mem && i < |n.blocks| && n.blocks[i].addr == b && n.mem[b].prev == Before(0, n.blocks, i)
            && (n.mem[b].prev != 0 <==> i > 0) && n.end == h.end
            && (i > 0 ==> n.blocks[i - 1] == h.blocks[i - 1] && n.mem[b].prev in n.mem && n.mem[n.mem[b].prev].used == h.blocks[i - 1].used)
            && Linked(n.mem, n.tail, n.freeHead, n.end, n.blocks, n.free)
            && Storable(b) && Storable(n.freeHead) && (n.freeHead != 0 ==> n.freeHead in n.mem)
            && Linked(Pushed(n.mem, n.freeHead, b), n.tail, b, n.end, n.blocks, [b] + n.free)
  {
    hide NoAdjacentFree, FreeAddrs, Linked, HeadersOnly, JoinedNext, HeaderIs, Pushed, Without;
    assert Linked(h.mem, h.tail, h.freeHead, h.end, h.blocks, h.free);
    FreeInSteps(h.blocks, h.end, i);
    NotListed(h.blocks, h.free, h.end, i);
    BlockFacts(n.mem, n.tail, n.freeHead, n.end, n.blocks, n.free, i);
    SizeOfHeader(n.mem, n.blocks[i], Before(0, n.blocks, i));
    PushedDone(n.mem, n.tail, n.freeHead, n.end, n.blocks, n.free, i);
    if i > 0 {
      BlockFacts(n.mem, n.tail, n.freeHead, n.end, n.blocks, n.free, i - 1);
      SizeOfHeader(n.mem, n.blocks[i - 1], Before(0, n.blocks, i - 1));
    }
  }

  /** Every header of the halfway state was one before. */
  lemma HalfHeaders(h: Heap, k: Heap, i: nat)
    requires HeapOk(h) && i < |h.blocks| && HalfFreed(h, k, i)
    ensures forall j | 0 <= j < |k.blocks| :: IsHeader(h.blocks, k.blocks[j].addr)
  {
    hide Linked, HeadersOnly, NoAdjacentFree, ListsFree, Tiles, JoinedNext, IsHeader, AfterNext;
    JoinedNextIs(h.blocks, h.end, i);
    forall j | 0 <= j < |k.blocks| ensures IsHeader(h.blocks, k.blocks[j].addr) {
      ItsHeader(h.blocks, if j <= i then j else j - i - 1 + MergeTo(h.blocks, i));
    }
  }

  lemma ItsHeader(bs: seq<Block>, i: nat)
    requires i < |bs|
    ensures IsHeader(bs, bs[i].addr)
  {
  }

  lemma HalfListed(h: Heap, k: Heap, i: nat)
    requires HeapOk(h) && i < |h.blocks| && h.blocks[i].used && HalfFreed(h, k, i)
    ensures FreeAreHeaders(h.blocks, k.free)
  {
    hide Linked, HeadersOnly, NoAdjacentFree, FreeAddrs, Distinct, Tiles, JoinedNext, IsHeader, Without;
    ListedAreHeaders(h.blocks, h.free, h.end);
    if MergeTo(h.blocks, i) == i + 2 {
      FreeBlockListed(h.blocks, h.free, i + 1);
      WithoutSet(h.free, h.blocks[i + 1].addr);
      forall j | 0 <= j < |k.free| ensures IsHeader(h.blocks, k.free[j]) {
        assert k.free[j] in Elems(k.free) && k.free[j] in h.free;
      }
    }
  }

  lemma FreedDone(h: Heap, k: Heap, n: Heap, i: nat)
    requires HeapOk(h) && i < |h.blocks| && h.blocks[i].used && HalfFreed(h, k, i) && n.end == h.end
    requires i < |k.blocks| && Linked(n.mem, n.tail, n.freeHead, n.end, n.blocks, n.free)
    requires if i > 0 && !h.blocks[i - 1].used
             then n.blocks == Splice(k.blocks, i - 1, 2, [Joined(k.blocks, i - 1)]) && n.free == k.free && HeadersOnly(k.mem, n.mem, k.blocks)
             else
               && var b := h.blocks[i].addr;
               && b in k.mem && (k.freeHead != 0 ==> k.freeHead in k.mem) && Storable(b) && Storable(k.freeHead)
               && n.mem == Pushed(k.mem, k.freeHead, b) && n.blocks == k.blocks && n.free == [b] + k.free
    ensures Freed(h, n, i)
  {
    HalfHeaders(h, k, i);
    HalfListed(h, k, i);
    hide Tiles, NoAdjacentFree, ListsFree, FreeLinks, Pointers, Distinct, BlocksAre, HeadersOnly, FreeAreHeaders, JoinedNext, Pushed, Storable,
         Without, Splice, Joined, IsHeader;
    FreeInSteps(h.blocks, h.end, i);
    FreeKeepsWellFormed(h.blocks, h.free, h.end, i);
    if i > 0 && !h.blocks[i - 1].used {
      SameHeaders(k.mem, n.mem, k.blocks, h.blocks);
    } else {
      MarkedHeaders(h.blocks, k.free, i);
      PushedHeaders(k.mem, h.blocks, k.free, k.freeHead, h.blocks[i].addr);
    }
    HeadersChain(h.mem, k.mem, n.mem, h.blocks);
  }

  lemma HeapHeadersSpare(h: Heap, n: Memory)
    requires HeapOk(h) && HeadersOnly(h.mem, n, h.blocks)
    ensures Spares(h.mem, n, Live(h.blocks))
  {
    hide Tiles, BlocksAre, FreeList, NoAdjacentFree, ListsFree;
    HeadersSpare(h.mem, n, h.blocks, h.end);
  }

  lemma CarveSpares(m: Memory, tail: int, freeHead: int, end: int, bs: seq<Block>, free: seq<int>, i: nat, h: int, need: int)
    requires Represents(m, tail, freeHead, end, bs, free) && i < |bs| && !bs[i].used && CarveRequest(bs[i], h, need)
    ensures CanCarve(m, freeHead, bs[i].addr, h, need)
    ensures Spares(m, CarveMem(m, freeHead, bs[i].addr, h, need, bs[i].addr == tail), Live(bs))
  {
    hide Linked, WellFormed, CanCarve, CarveMem, CarveRequest, HeadersAnd, Spares, Live;
    CarveWrites(m, tail, freeHead, end, bs, free, i, h, need, bs[i].addr == tail);
    InsideSpare(m, CarveMem(m, freeHead, bs[i].addr, h, need, bs[i].addr == tail), bs, free, end, i);
  }

  lemma LastWrites(m: Memory, tail: int, bs: seq<Block>, end: int, h: Header)
    requires Tiles(bs, HEAP_START, end) && bs != [] && tail == bs[|bs| - 1].addr
    ensures Spares(m, m[tail := h], Live(bs))
  {
    WriteHeader(m, bs, tail, h);
    HeadersSpare(m, m[tail := h], bs, end);
  }

  lemma HeaderIsNotTail(m: Memory, tail: int, freeHead: int, end: int, bs: seq<Block>, free: seq<int>, i: nat, h: int)
    requires Linked(m, tail, freeHead, end, bs, free) && i < |bs| && bs[i].addr < h < bs[i].End()
    ensures h != tail
  {
    hide Tiles, BlocksAre, FreeList;
    InteriorAddress(bs, end, i, h);
  }

  function LiveAddrs(bs: seq<Block>): set<int> {
    set x | x in Live(bs) :: x.0
  }

  lemma LiveIsNotNull(m: Memory, tail: int, freeHead: int, end: int, bs: seq<Block>, free: seq<int>)
    requires Represents(m, tail, freeHead, end, bs, free)
    ensures 0 !in LiveAddrs(bs)
  {
    forall x | x in Live(bs) ensures x.0 != 0 {
      LivePayloadsDisjoint(bs, free, end, x, x);
    }
  }

  lemma LiveBlock(m: Memory, tail: int, freeHead: int, end: int, bs: seq<Block>, free: seq<int>, p: int) returns (i: nat)
    requires Represents(m, tail, freeHead, end, bs, free) && p in LiveAddrs(bs)
    ensures i < |bs| && bs[i].used && bs[i].Payload() == p
    ensures Live(FreeBlocks(bs, i)) == (set x | x in Live(bs) && x.0 != p)
    ensures LiveAddrs(FreeBlocks(bs, i)) == LiveAddrs(bs) - {p}
  {
    hide Linked, WellFormed, FreeBlocks, FreeFree;
    var x :| x in Live(bs) && x.0 == p;
    i :| 0 <= i < |bs| && bs[i].used && x == (bs[i].Payload(), bs[i].size);
    FreeKeepsWellFormed(bs, free, end, i);
    forall y | y in Live(bs) && y.0 == p ensures y == x {
      LivePayloadsDisjoint(bs, free, end, x, y);
      LivePayloadsDisjoint(bs, free, end, y, y);
    }
  }

  lemma TailElems(s: seq<int>)
    requires Distinct(s) && s != []
    ensures Elems(s[1..]) == Elems(s) - {s[0]}
  {
    assert s == [s[0]] + s[1..];
    assert forall a | a in s :: a == s[0] || a in s[1..];
    assert s[0] !in s[1..];
  }

  lemma NoAddressNothingLive(m: Memory, tail: int, freeHead: int, end: int, bs: seq<Block>, free: seq<int>)
    requires Represents(m, tail, freeHead, end, bs, free) && LiveAddrs(bs) == {}
    ensures bs == [Block(HEAP_START, end - HEAP_START - BLOCK_HEADER_SIZE, false)] && free == [HEAP_START]
  {
    hide Linked, WellFormed;
    assert forall x | x in Live(bs) :: x.0 in LiveAddrs(bs);
    assert Live(bs) == {};
    NothingLiveIsOneBlock(bs, free, end);
  }

  /** Whatever its owner writes into a live payload, the heap is still represented: memory may
      change at every address whose sixteen bytes meet that payload. */
  lemma PayloadWritesAreHarmless(m: Memory, n: Memory, tail: int, freeHead: int, end: int, bs: seq<Block>, free: seq<int>,
                                 x: (int, int))
    requires Represents(m, tail, freeHead, end, bs, free) && x in Live(bs)
    requires forall a | a in m && (a + BLOCK_HEADER_SIZE <= x.0 || x.0 + x.1 <= a) :: a in n && n[a] == m[a]
    ensures Represents(n, tail, freeHead, end, bs, free)
  {
    hide Tiles, FreeList, NoAdjacentFree, BlocksAre;
    forall i | 0 <= i < |bs| ensures HeaderIs(n, bs[i], Before(0, bs, i)) {
      HeaderOfBlock(m, bs, i);
      LivePayloadAvoidsHeaders(bs, free, end, x, bs[i]);
    }
    BlocksFromHeaders(n, bs);
    forall a | a in free && a in m ensures SameLink(m, n, a) {
      assert a in Elems(free);
      var c :| c in bs && c.addr == a;
      LivePayloadAvoidsHeaders(bs, free, end, x, c);
    }
    FreeListKept(m, n, free, freeHead);
  }
}
