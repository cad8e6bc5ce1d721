/**
 What the allocator writes. Every write goes to a block header, or into a free block or the new
 pages, so no payload that is in use is ever written to.
 */
module HeapFrame {

  import opened BlockHeader
  import opened Common
  import opened HeapCarve
  import opened HeapMemory
  import opened HeapSpec

  /** The sixteen bytes at `a` differ in the two memories. */
  predicate Differs(m: Memory, n: Memory, a: int) {
    (a in m) != (a in n) || (a in m && a in n && m[a] != n[a])
  }

  predicate IsHeader(bs: seq<Block>, a: int) { exists i | 0 <= i < |bs| :: bs[i].addr == a }

  /** Only headers of these blocks were written. */
  ghost predicate HeadersOnly(m: Memory, n: Memory, bs: seq<Block>) {
    forall a: int | Differs(m, n, a) :: IsHeader(bs, a)
  }

  /** A header at `a` does not meet the payload x. */
  predicate Clear(a: int, x: (int, int)) { a + BLOCK_HEADER_SIZE <= x.0 || x.0 + x.1 <= a }

  /** No byte of these payloads was written. */
  ghost predicate Spares(m: Memory, n: Memory, live: set<(int, int)>) {
    forall a: int, x | Differs(m, n, a) && x in live :: Clear(a, x)
  }

  lemma NoneDiffer(m: Memory, live: set<(int, int)>)
    ensures Spares(m, m, live)
  {
  }

  lemma SparesChain(m: Memory, n: Memory, o: Memory, live: set<(int, int)>)
    requires Spares(m, n, live) && Spares(n, o, live)
    ensures Spares(m, o, live)
  {
    forall a: int, x | Differs(m, o, a) && x in live ensures Clear(a, x) {
      assert Differs(m, n, a) || Differs(n, o, a);
    }
  }

  lemma HeadersChain(m: Memory, n: Memory, o: Memory, bs: seq<Block>)
    requires HeadersOnly(m, n, bs) && HeadersOnly(n, o, bs)
    ensures HeadersOnly(m, o, bs)
  {
    hide IsHeader;
    forall a: int | Differs(m, o, a) ensures IsHeader(bs, a) {
      assert Differs(m, n, a) || Differs(n, o, a);
    }
  }

  /** Headers of one list of blocks are headers of another. */
  lemma SameHeaders(m: Memory, n: Memory, bs: seq<Block>, cs: seq<Block>)
    requires HeadersOnly(m, n, bs) && forall i | 0 <= i < |bs| :: IsHeader(cs, bs[i].addr)
    ensures HeadersOnly(m, n, cs)
  {
  }

  lemma HeaderClear(bs: seq<Block>, end: int, a: int, x: (int, int))
    requires Tiles(bs, HEAP_START, end) && IsHeader(bs, a) && x in Live(bs)
    ensures Clear(a, x)
  {
    hide Tiles;
    var i :| 0 <= i < |bs| && bs[i].used && x == (bs[i].Payload(), bs[i].size);
    var j :| 0 <= j < |bs| && bs[j].addr == a;
    BlocksDisjoint(bs, end, j, i);
  }

  lemma HeadersSpare(m: Memory, n: Memory, bs: seq<Block>, end: int)
    requires Tiles(bs, HEAP_START, end) && HeadersOnly(m, n, bs)
    ensures Spares(m, n, Live(bs))
  {
    hide Tiles, IsHeader, Live;
    forall a: int, x | Differs(m, n, a) && x in Live(bs) ensures Clear(a, x) {
      HeaderClear(bs, end, a, x);
    }
  }

  /** Written are headers of these blocks, or headers inside block i, which is free. */
  ghost predicate HeadersAnd(m: Memory, n: Memory, bs: seq<Block>, i: nat)
    requires i < |bs|
  {
    forall a: int | Differs(m, n, a) ::
      IsHeader(bs, a) || (bs[i].addr <= a && a + BLOCK_HEADER_SIZE <= bs[i].End())
  }

  lemma InsideSpare(m: Memory, n: Memory, bs: seq<Block>, free: seq<int>, end: int, i: nat)
    requires WellFormed(bs, free, end) && i < |bs| && !bs[i].used && HeadersAnd(m, n, bs, i)
    ensures Spares(m, n, Live(bs))
  {
    hide Tiles, IsHeader, Live, NoAdjacentFree, ListsFree;
    forall a: int, x | Differs(m, n, a) && x in Live(bs) ensures Clear(a, x) {
      if IsHeader(bs, a) {
        HeaderClear(bs, end, a, x);
      } else {
        FreeRangeIsApart(bs, free, end, i, a, BLOCK_HEADER_SIZE);
      }
    }
  }

  // ---------------------------------------------------------------- the writes, operation by operation

  lemma PushedAt(m: Memory, freeHead: int, a: int, x: int)
    requires a in m && (freeHead != 0 ==> freeHead in m) && Storable(a) && Storable(freeHead)
    requires Differs(m, Pushed(m, freeHead, a), x)
    ensures x == a || (x == freeHead && freeHead != 0)
  {
  }

  lemma UnlinkedAt(m: Memory, p: int, a: int, q: int, x: int)
    requires a in m && (p != 0 ==> p in m) && (q != 0 ==> q in m) && Storable(p) && Storable(q)
    requires Differs(m, Unlinked(m, p, a, q), x)
    ensures x == a || (x == p && p != 0) || (x == q && q != 0)
  {
  }

  lemma ChainedAt(m: Memory, a: int, added: int, next: int, last: bool, x: int)
    requires added in m && (!last ==> next in m) && Storable(a) && Storable(added)
    requires Differs(m, Chained(m, a, added, next, last), x)
    ensures x == added || (x == next && !last)
  {
  }

  /** Every listed address is a header. */
  predicate FreeAreHeaders(bs: seq<Block>, free: seq<int>) {
    forall j | 0 <= j < |free| :: IsHeader(bs, free[j])
  }

  lemma ListedAreHeaders(bs: seq<Block>, free: seq<int>, end: int)
    requires WellFormed(bs, free, end)
    ensures FreeAreHeaders(bs, free)
  {
    hide Tiles, NoAdjacentFree, Distinct;
    forall j | 0 <= j < |free| ensures IsHeader(bs, free[j]) {
      assert free[j] in Elems(free);
    }
  }

  /** The list's head and its neighbours are headers or null. */
  lemma NeighbourHeaders(m: Memory, bs: seq<Block>, free: seq<int>, freeHead: int, a: int)
    requires FreeList(m, free, freeHead) && FreeAreHeaders(bs, free)
    ensures freeHead != 0 ==> IsHeader(bs, freeHead)
    ensures a in free ==> a in m && (m[a].freePrev != 0 ==> IsHeader(bs, m[a].freePrev))
                          && (m[a].freeNext != 0 ==> IsHeader(bs, m[a].freeNext))
  {
    hide IsHeader, Pointers, Distinct;
    if a in free {
      var j :| 0 <= j < |free| && free[j] == a;
    }
  }

  lemma PushedHeaders(m: Memory, bs: seq<Block>, free: seq<int>, freeHead: int, a: int)
    requires a in m && (freeHead != 0 ==> freeHead in m) && Storable(a) && Storable(freeHead)
    requires FreeList(m, free, freeHead) && FreeAreHeaders(bs, free) && IsHeader(bs, a)
    ensures HeadersOnly(m, Pushed(m, freeHead, a), bs)
  {
    NeighbourHeaders(m, bs, free, freeHead, a);
    hide IsHeader, Pushed, FreeList, Storable, Differs;
    forall x: int | Differs(m, Pushed(m, freeHead, a), x) ensures IsHeader(bs, x) {
      PushedAt(m, freeHead, a, x);
    }
  }

  lemma UnlinkedHeaders(m: Memory, bs: seq<Block>, free: seq<int>, freeHead: int, a: int)
    requires FreeList(m, free, freeHead) && FreeAreHeaders(bs, free) && a in free && NeighboursIn(m, a)
    ensures HeadersOnly(m, Unlinked(m, m[a].freePrev, a, m[a].freeNext), bs)
  {
    NeighbourHeaders(m, bs, free, freeHead, a);
    assert IsHeader(bs, a) by { var j :| 0 <= j < |free| && free[j] == a; }
    hide IsHeader, Unlinked, FreeList, Storable, Differs;
    forall x: int | Differs(m, Unlinked(m, m[a].freePrev, a, m[a].freeNext), x) ensures IsHeader(bs, x) {
      UnlinkedAt(m, m[a].freePrev, a, m[a].freeNext, x);
    }
  }

  lemma WriteHeader(m: Memory, bs: seq<Block>, a: int, h: Header)
    requires IsHeader(bs, a)
    ensures HeadersOnly(m, m[a := h], bs)
  {
    hide IsHeader;
  }

  /** Cutting a free block in two. */
  lemma SplitWrites(m: Memory, tail: int, freeHead: int, end: int, bs: seq<Block>, free: seq<int>, i: nat, need: int)
    requires Represents(m, tail, freeHead, end, bs, free) && i < |bs| && bs[i].addr in m && m[bs[i].addr].size == bs[i].size
    requires CanSplit(m, freeHead, bs[i].addr, need, i == |bs| - 1)
    ensures HeadersAnd(m, SplitMem(m, freeHead, bs[i].addr, need, i == |bs| - 1), bs, i)
  {
    ListedAreHeaders(bs, free, end);
    NeighbourHeaders(m, bs, free, freeHead, bs[i].addr);
    NextIsHeader(bs, end, i);
    hide Represents, Pushed, Chained, Storable, Differs, IsHeader;
    var a, last := bs[i].addr, i == |bs| - 1;
    forall x: int | Differs(m, SplitMem(m, freeHead, a, need, last), x)
      ensures IsHeader(bs, x) || (a <= x && x + BLOCK_HEADER_SIZE <= bs[i].End())
    {
      SplitAt(m, freeHead, a, need, last, x);
    }
  }

  lemma NextIsHeader(bs: seq<Block>, end: int, i: nat)
    requires Tiles(bs, HEAP_START, end) && i < |bs|
    ensures IsHeader(bs, bs[i].addr)
    ensures i + 1 < |bs| ==> IsHeader(bs, bs[i].addr + bs[i].size + BLOCK_HEADER_SIZE)
  {
    hide Tiles;
    TilesAt(bs, HEAP_START, end, i);
    if i + 1 < |bs| { assert bs[i + 1].addr == bs[i].End(); }
  }

  lemma SplitAt(m: Memory, freeHead: int, a: int, need: int, last: bool, x: int)
    requires CanSplit(m, freeHead, a, need, last) && Differs(m, SplitMem(m, freeHead, a, need, last), x)
    ensures x == a || x == a + BLOCK_HEADER_SIZE + need || (x == freeHead && freeHead != 0)
            || (x == a + m[a].size + BLOCK_HEADER_SIZE && !last)
  {
    var added, next := a + BLOCK_HEADER_SIZE + need, a + m[a].size + BLOCK_HEADER_SIZE;
    var written := m[added := Header.New(m[a].size - need - BLOCK_HEADER_SIZE, false)];
    PushedShape(written, freeHead, added);
    hide Pushed, Chained, Storable;
    var pushed := Pushed(written, freeHead, added);
    var chained := Chained(pushed, a, added, next, last);
    if Differs(written, pushed, x) {
      PushedAt(written, freeHead, added, x);
    } else if Differs(pushed, chained, x) {
      ChainedAt(pushed, a, added, next, last, x);
    }
  }

  /** Taking a block off the free list and into use. */
  lemma TakenWrites(m: Memory, bs: seq<Block>, free: seq<int>, freeHead: int, a: int)
    requires FreeList(m, free, freeHead) && FreeAreHeaders(bs, free) && a in free && NeighboursIn(m, a)
    ensures var u := Unlinked(m, m[a].freePrev, a, m[a].freeNext);
            a in u && HeadersOnly(m, u[a := u[a].SetUsed()], bs)
  {
    UnlinkedHeaders(m, bs, free, freeHead, a);
    UnlinkedShape(m, m[a].freePrev, a, m[a].freeNext);
    assert IsHeader(bs, a) by { var j :| 0 <= j < |free| && free[j] == a; }
    hide Unlinked, HeadersOnly, IsHeader, FreeList, SameShape, NeighboursIn, FreeAreHeaders;
    var u := Unlinked(m, m[a].freePrev, a, m[a].freeNext);
    WriteHeader(u, bs, a, u[a].SetUsed());
    HeadersChain(m, u, u[a := u[a].SetUsed()], bs);
  }

  /** A block absorbs its free successor. */
  lemma AbsorbNextWrites(m: Memory, tail: int, freeHead: int, end: int, bs: seq<Block>, free: seq<int>, i: nat)
    requires Linked(m, tail, freeHead, end, bs, free) && FreeAreHeaders(bs, free)
    requires i + 1 < |bs| && bs[i + 1].addr in free && CanJoin(m, end, bs, i)
    requires var a, b := bs[i].addr, bs[i + 1].addr;
             NeighboursIn(m[a := m[a].AddSize(BLOCK_HEADER_SIZE + m[b].size)], b)
    ensures var a, b := bs[i].addr, bs[i + 1].addr;
            var grown := m[a := m[a].AddSize(BLOCK_HEADER_SIZE + m[b].size)];
            var unlisted := Unlinked(grown, grown[b].freePrev, b, grown[b].freeNext);
            && (i + 2 < |bs| ==> bs[i + 2].addr in unlisted)
            && HeadersOnly(m, if i + 2 == |bs| then unlisted else unlisted[bs[i + 2].addr := unlisted[bs[i + 2].addr].SetPrev(a)], bs)
  {
    hide Tiles, BlocksAre, HeadersOnly, Unlinked, Storable;
    var a, b := bs[i].addr, bs[i + 1].addr;
    var grown := m[a := m[a].AddSize(BLOCK_HEADER_SIZE + m[b].size)];
    FreeListKept(m, grown, free, freeHead);
    UnlinkedHeaders(grown, bs, free, freeHead, b);
    UnlinkedShape(grown, grown[b].freePrev, b, grown[b].freeNext);
    hide FreeList, FreeAreHeaders, NeighboursIn;
    WriteHeader(m, bs, a, grown[a]);
    var unlisted := Unlinked(grown, grown[b].freePrev, b, grown[b].freeNext);
    HeadersChain(m, grown, unlisted, bs);
    if i + 2 < |bs| {
      WriteHeader(unlisted, bs, bs[i + 2].addr, unlisted[bs[i + 2].addr].SetPrev(a));
      HeadersChain(m, unlisted, unlisted[bs[i + 2].addr := unlisted[bs[i + 2].addr].SetPrev(a)], bs);
    }
  }

  /** A block is absorbed by its free predecessor. */
  lemma AbsorbPrevWrites(m: Memory, end: int, bs: seq<Block>, i: nat)
    requires i + 1 < |bs| && CanJoin(m, end, bs, i)
    ensures var a, b := bs[i].addr, bs[i + 1].addr;
            var relinked := if i + 2 == |bs| then m else m[bs[i + 2].addr := m[bs[i + 2].addr].SetPrev(a)];
            HeadersOnly(m, relinked[a := relinked[a].AddSize(BLOCK_HEADER_SIZE + relinked[b].size)], bs)
  {
    hide HeadersOnly;
    var a, b := bs[i].addr, bs[i + 1].addr;
    var relinked := if i + 2 == |bs| then m else m[bs[i + 2].addr := m[bs[i + 2].addr].SetPrev(a)];
    assert HeadersOnly(m, relinked, bs) by {
      if i + 2 < |bs| { WriteHeader(m, bs, bs[i + 2].addr, m[bs[i + 2].addr].SetPrev(a)); }
      else { NoWrite(m, bs); }
    }
    WriteHeader(relinked, bs, a, relinked[a].AddSize(BLOCK_HEADER_SIZE + relinked[b].size));
    HeadersChain(m, relinked, relinked[a := relinked[a].AddSize(BLOCK_HEADER_SIZE + relinked[b].size)], bs);
  }

  lemma NoWrite(m: Memory, bs: seq<Block>)
    ensures HeadersOnly(m, m, bs)
  {
  }

  /** A new block behind the heap. */
  lemma AppendWrites(m: Memory, tail: int, freeHead: int, end: int, bs: seq<Block>, free: seq<int>, h: Header)
    requires Represents(m, tail, freeHead, end, bs, free)
    requires Storable(end) && Storable(freeHead) && (freeHead != 0 ==> freeHead in m) && Storable(tail)
    ensures var pushed := Pushed(m[end := h], freeHead, end);
            end in pushed && Spares(m, pushed[end := pushed[end].SetPrev(tail)], Live(bs))
  {
    ListedAreHeaders(bs, free, end);
    NeighbourHeaders(m, bs, free, freeHead, 0);
    var written := m[end := h];
    PushedShape(written, freeHead, end);
    hide Pushed, Storable, NoAdjacentFree, ListsFree, BlocksAre, FreeList, Tiles, IsHeader;
    var pushed := Pushed(written, freeHead, end);
    var n := pushed[end := pushed[end].SetPrev(tail)];
    forall x: int, y | Differs(m, n, x) && y in Live(bs) ensures Clear(x, y) {
      LivePayloadsDisjoint(bs, free, end, y, y);
      if x != end {
        PushedAt(written, freeHead, end, x);
        HeaderClear(bs, end, x, y);
      }
    }
  }

  /** Carving a block out of the middle of a free one. */
  lemma CarveWrites(m: Memory, tail: int, freeHead: int, end: int, bs: seq<Block>, free: seq<int>, i: nat, h: int, need: int, last: bool)
    requires Represents(m, tail, freeHead, end, bs, free) && i < |bs| && !bs[i].used && CarveRequest(bs[i], h, need)
    ensures CanCarve(m, freeHead, bs[i].addr, h, need)
    ensures HeadersAnd(m, CarveMem(m, freeHead, bs[i].addr, h, need, last), bs, i)
  {
    CarvePossible(m, tail, freeHead, end, bs, free, i, h, need);
    ListedAreHeaders(bs, free, end);
    NeighbourHeaders(m, bs, free, freeHead, 0);
    HeaderSizeIs(m, bs, i);
    hide Represents, CarveMem, CanCarve, Differs;
    assert IsHeader(bs, bs[i].addr);
    hide IsHeader;
    forall x: int | Differs(m, CarveMem(m, freeHead, bs[i].addr, h, need, last), x)
      ensures IsHeader(bs, x) || (bs[i].addr <= x && x + BLOCK_HEADER_SIZE <= bs[i].End())
    {
      CarveAt(m, freeHead, bs[i].addr, h, need, last, x);
    }
  }

  lemma CarveAt(m: Memory, freeHead: int, a: int, h: int, need: int, last: bool, x: int)
    requires CanCarve(m, freeHead, a, h, need) && Differs(m, CarveMem(m, freeHead, a, h, need, last), x)
    ensures x == a || x == h || (x == freeHead && freeHead != 0)
            || (x == h + BLOCK_HEADER_SIZE + need && Excess(m[a].size, a, h, need) >= MIN_ALLOC_SIZE)
  {
    var placed := Placed(m, a, h, need, last);
    PlacedAt(m, a, h, need, last, x);
    if Excess(m[a].size, a, h, need) >= MIN_ALLOC_SIZE {
      var added := h + BLOCK_HEADER_SIZE + need;
      var trailing := placed[added := Header.New(Excess(m[a].size, a, h, need), false)];
      assert freeHead != 0 ==> freeHead in trailing by { PlacedKeys(m, a, h, need, last); }
      PushedShape(trailing, freeHead, added);
      hide Pushed, Chained, Storable, Placed;
      var pushed := Pushed(trailing, freeHead, added);
      if Differs(trailing, pushed, x) {
        PushedAt(trailing, freeHead, added, x);
      } else if Differs(pushed, Chained(pushed, h, added, added, last), x) {
        ChainedAt(pushed, h, added, added, last, x);
      }
    }
  }

  lemma PlacedKeys(m: Memory, a: int, h: int, need: int, last: bool)
    requires a in m && Storable(a) && Storable(h) && 0 <= need < TWO_32 && 0 <= h - (a + BLOCK_HEADER_SIZE) < TWO_32
    ensures forall x | x in m :: x in Placed(m, a, h, need, last)
  {
  }

  lemma PlacedAt(m: Memory, a: int, h: int, need: int, last: bool, x: int)
    requires a in m && Storable(a) && Storable(h) && 0 <= need < TWO_32 && 0 <= h - (a + BLOCK_HEADER_SIZE) < TWO_32
    ensures Differs(m, Placed(m, a, h, need, last), x) ==> x == a || x == h
  {
  }
}
