/**
 The heap as it lies in memory: which headers account for which blocks and free list, and
 what each pointer manipulation of the allocator does to that account.
 */
module HeapMemory {

  import opened BlockHeader
  import opened Common
  import opened HeapSpec

  /** Memory at header addresses. Headers of absorbed blocks stay behind as garbage. */
  type Memory = map<int, Header>

  // ---------------------------------------------------------------- what memory represents

  predicate HeaderIs(m: Memory, b: Block, before: int) {
    && b.addr in m
    && m[b.addr].size == b.size
    && m[b.addr].used == b.used
    && m[b.addr].prev == before
  }

  /** Address of the block before bs[i], where `first` is the one before bs[0]. */
  function Before(first: int, bs: seq<Block>, i: nat): int
    requires i <= |bs|
  {
    if i == 0 then first else bs[i - 1].addr
  }

  predicate BlocksAre(m: Memory, first: int, bs: seq<Block>) {
    forall i | 0 <= i < |bs| :: HeaderIs(m, bs[i], Before(first, bs, i))
  }

  /** Element k of a list of addresses; the null pointer off either end. */
  function At(s: seq<int>, k: int): int {
    if 0 <= k < |s| then s[k] else 0
  }

  predicate FreeLinks(m: Memory, free: seq<int>, freeHead: int) {
    && freeHead == At(free, 0)
    && forall j | 0 <= j < |free| ::
         && free[j] in m
         && m[free[j]].freeNext == At(free, j + 1)
         && m[free[j]].freePrev == At(free, j - 1)
  }

  predicate Pointers(s: seq<int>) {
    forall a | a in s :: a != 0 && Storable(a)
  }

  /** The free list as a data structure: distinct storable nodes, linked both ways. */
  predicate FreeList(m: Memory, free: seq<int>, freeHead: int) {
    FreeLinks(m, free, freeHead) && Pointers(free) && Distinct(free)
  }

  /** Memory holds these blocks and this free list, which need not agree with each other:
      the state of affairs in the middle of an operation. */
  predicate Linked(m: Memory, tail: int, freeHead: int, end: int, bs: seq<Block>, free: seq<int>) {
    && bs != []
    && Tiles(bs, HEAP_START, end)
    && end <= ADDRESS_LIMIT
    && BlocksAre(m, 0, bs)
    && FreeList(m, free, freeHead)
    && tail == bs[|bs| - 1].addr
  }

  /** Blocks and free list account for memory, the tail pointer and the free-list head. */
  predicate Represents(m: Memory, tail: int, freeHead: int, end: int, bs: seq<Block>, free: seq<int>) {
    WellFormed(bs, free, end) && Linked(m, tail, freeHead, end, bs, free)
  }

  // ---------------------------------------------------------------- comparing memories

  /** One header has the same size, flag and prev link in both memories. */
  predicate Unmoved(m: Memory, n: Memory, a: int) {
    a in m && a in n && n[a].size == m[a].size && n[a].prev == m[a].prev && n[a].used == m[a].used
  }

  predicate SameShape(m: Memory, n: Memory) {
    forall a | a in m :: Unmoved(m, n, a)
  }

  /** One header has the same free-list links in both memories. */
  predicate SameLink(m: Memory, n: Memory, a: int) {
    a in m && a in n && n[a].freeNext == m[a].freeNext && n[a].freePrev == m[a].freePrev
  }

  lemma FreeListKept(m: Memory, n: Memory, free: seq<int>, freeHead: int)
    requires FreeList(m, free, freeHead)
    requires forall a | a in free && a in m :: SameLink(m, n, a)
    ensures FreeList(n, free, freeHead)
  {
    forall j | 0 <= j < |free| ensures SameLink(m, n, free[j]) {
      assert free[j] in free && free[j] in m;
    }
  }

  // ---------------------------------------------------------------- facts about one block

  lemma StorableBlock(bs: seq<Block>, end: int, i: nat)
    requires Tiles(bs, HEAP_START, end) && end <= ADDRESS_LIMIT && i < |bs|
    ensures bs[i].addr != 0 && Storable(bs[i].addr) && 0 <= bs[i].size < TWO_32
  {
    hide Tiles;
    TilesAt(bs, HEAP_START, end, i);
    MultipleOfEightIsEven(bs[i].addr);
  }

  lemma MultipleOfEightIsEven(x: int)
    requires x % 8 == 0
    ensures x % 2 == 0
  {
    assert x == 2 * (4 * (x / 8));
  }

  lemma TailAddress(bs: seq<Block>, end: int, i: nat)
    requires Tiles(bs, HEAP_START, end) && i < |bs|
    ensures bs[i].addr == bs[|bs| - 1].addr <==> i == |bs| - 1
  {
    hide Tiles;
    if i < |bs| - 1 {
      TilesOrdered(bs, HEAP_START, end, i, |bs| - 1);
      TilesAt(bs, HEAP_START, end, i);
    }
  }

  /** What the allocator relies on when it follows the pointers of one block. */
  lemma BlockFacts(m: Memory, tail: int, freeHead: int, end: int, bs: seq<Block>, free: seq<int>, i: nat)
    requires Linked(m, tail, freeHead, end, bs, free) && i < |bs|
    ensures HeaderIs(m, bs[i], Before(0, bs, i))
    ensures bs[i].addr != 0 && Storable(bs[i].addr) && bs[i].addr % 8 == 0
    ensures MIN_ALLOC_SIZE <= bs[i].size < TWO_32 && bs[i].size % 8 == 0 && bs[i].End() <= end <= ADDRESS_LIMIT
    ensures bs[i].addr == tail <==> i == |bs| - 1
    ensures i + 1 < |bs| ==> bs[i].End() == bs[i + 1].addr
    ensures i + 1 == |bs| ==> bs[i].End() == end
    ensures HEAP_START <= bs[i].addr
  {
    hide Tiles, FreeList;
    StorableBlock(bs, end, i);
    TilesAt(bs, HEAP_START, end, i);
    TailAddress(bs, end, i);
  }

  lemma FreeHeadFacts(m: Memory, free: seq<int>, freeHead: int)
    requires FreeList(m, free, freeHead)
    ensures Storable(freeHead) && (freeHead != 0 ==> freeHead in m && freeHead in free)
  {
    if free != [] { assert free[0] in free; }
  }

  // ---------------------------------------------------------------- the address-ordered list

  /** Headers describe a spliced sequence when the replacement is linked in at both seams and
      all other headers kept their shape. */
  lemma BlocksSplice(m: Memory, n: Memory, bs: seq<Block>, i: nat, k: nat, mid: seq<Block>)
    requires BlocksAre(m, 0, bs) && i < i + k <= |bs| && mid != []
    requires forall x | 0 <= x < i || i + k < x < |bs| :: Unmoved(m, n, bs[x].addr)
    requires BlocksAre(n, Before(0, bs, i), mid)
    requires i + k < |bs| ==> HeaderIs(n, bs[i + k], mid[|mid| - 1].addr)
    ensures BlocksAre(n, 0, Splice(bs, i, k, mid))
  {
    hide HeaderIs;
    var out := Splice(bs, i, k, mid);
    forall z | 0 <= z < |out| ensures HeaderIs(n, out[z], Before(0, out, z)) {
      SpliceBefore(bs, i, k, mid, z);
      if z < i {
        HeaderKept(m, n, bs, z);
      } else if z < i + |mid| {
        assert HeaderIs(n, mid[z - i], Before(Before(0, bs, i), mid, z - i));
      } else if z > i + |mid| {
        HeaderKept(m, n, bs, z - |mid| + k);
      }
    }
  }

  /** Where element z of a spliced sequence comes from, and what stands before it. */
  lemma SpliceBefore(bs: seq<Block>, i: nat, k: nat, mid: seq<Block>, z: nat)
    requires i < i + k <= |bs| && mid != [] && z < |Splice(bs, i, k, mid)|
    ensures var out := Splice(bs, i, k, mid);
            && (z < i ==> out[z] == bs[z] && Before(0, out, z) == Before(0, bs, z))
            && (i <= z < i + |mid| ==>
                  out[z] == mid[z - i] && Before(0, out, z) == Before(Before(0, bs, i), mid, z - i))
            && (z == i + |mid| ==> out[z] == bs[i + k] && Before(0, out, z) == mid[|mid| - 1].addr)
            && (z > i + |mid| ==> out[z] == bs[z - |mid| + k]
                                  && Before(0, out, z) == Before(0, bs, z - |mid| + k))
  {
  }

  lemma HeaderKept(m: Memory, n: Memory, bs: seq<Block>, x: nat)
    requires BlocksAre(m, 0, bs) && x < |bs| && Unmoved(m, n, bs[x].addr)
    ensures HeaderIs(n, bs[x], Before(0, bs, x))
  {
    assert HeaderIs(m, bs[x], Before(0, bs, x));
  }

  /** A change confined to addresses inside a stretch of blocks moves no header further off. */
  lemma OthersUnmoved(m: Memory, n: Memory, bs: seq<Block>, end: int, i: nat, k: nat, touched: set<int>)
    requires Tiles(bs, HEAP_START, end) && i < i + k <= |bs| && BlocksAre(m, 0, bs)
    requires forall t | t in touched :: bs[i].addr <= t <= CutAt(bs, i + k, end)
    requires forall x | x in m && x !in touched :: Unmoved(m, n, x)
    ensures forall x | 0 <= x < i || i + k < x < |bs| :: Unmoved(m, n, bs[x].addr)
  {
    hide Tiles, Unmoved;
    forall x | 0 <= x < i || i + k < x < |bs| ensures Unmoved(m, n, bs[x].addr) {
      FarFromStretch(bs, end, i, k, x);
      assert HeaderIs(m, bs[x], Before(0, bs, x));
    }
  }

  lemma FarFromStretch(bs: seq<Block>, end: int, i: nat, k: nat, x: nat)
    requires Tiles(bs, HEAP_START, end) && i < i + k <= |bs| && x < |bs| && (x < i || i + k < x)
    ensures bs[x].addr < bs[i].addr || CutAt(bs, i + k, end) < bs[x].addr
  {
    hide Tiles;
    if x < i {
      TilesAt(bs, HEAP_START, end, x);
      TilesOrdered(bs, HEAP_START, end, x, i);
    } else {
      TilesAt(bs, HEAP_START, end, i + k);
      TilesOrdered(bs, HEAP_START, end, i + k, x);
    }
  }

  /** `insert_after`: memory after linking `added` between `a` and what follows it. */
  function Chained(m: Memory, a: int, added: int, next: int, last: bool): Memory
    requires added in m && (!last ==> next in m) && Storable(a) && Storable(added)
  {
    var n := if last then m else m[next := m[next].SetPrev(added)];
    n[added := n[added].SetPrev(a)]
  }

  // ---------------------------------------------------------------- the free list

  /** `insert_free_block`: memory after pushing `a` in front of the list. */
  function Pushed(m: Memory, freeHead: int, a: int): Memory
    requires a in m && (freeHead != 0 ==> freeHead in m) && Storable(a) && Storable(freeHead)
  {
    var linked := m[a := m[a].SetFreeNext(freeHead)];
    var fronted := linked[a := linked[a].SetFreePrev(0)];
    if freeHead == 0 then fronted else fronted[freeHead := fronted[freeHead].SetFreePrev(a)]
  }

  lemma PushedShape(m: Memory, freeHead: int, a: int)
    requires a in m && (freeHead != 0 ==> freeHead in m) && Storable(a) && Storable(freeHead)
    ensures SameShape(m, Pushed(m, freeHead, a)) && Pushed(m, freeHead, a).Keys == m.Keys
  {
  }

  lemma PushedList(m: Memory, free: seq<int>, freeHead: int, a: int)
    requires FreeList(m, free, freeHead)
    requires a in m && a !in free && a != 0 && Storable(a)
    ensures Storable(freeHead) && (freeHead != 0 ==> freeHead in m)
    ensures FreeList(Pushed(m, freeHead, a), [a] + free, a)
  {
    FreeHeadFacts(m, free, freeHead);
    var n, out := Pushed(m, freeHead, a), [a] + free;
    forall j | 0 <= j < |out|
      ensures out[j] in n && n[out[j]].freeNext == At(out, j + 1) && n[out[j]].freePrev == At(out, j - 1)
    {
      if j > 0 {
        assert out[j] == free[j - 1] && free[j - 1] in free;
        assert j > 1 ==> free[j - 1] != free[0];
      }
    }
  }

  /** `remove_free_block`: memory after bridging the list neighbours p and q of `a` and clearing
      the links of `a`. */
  function Unlinked(m: Memory, p: int, a: int, q: int): Memory
    requires a in m && (p != 0 ==> p in m) && (q != 0 ==> q in m)
    requires Storable(p) && Storable(q)
  {
    var bridged := if p == 0 then m else m[p := m[p].SetFreeNext(q)];
    var joined := if q == 0 then bridged else bridged[q := bridged[q].SetFreePrev(p)];
    var cleared := joined[a := joined[a].SetFreeNext(0)];
    cleared[a := cleared[a].SetFreePrev(0)]
  }

  lemma UnlinkedShape(m: Memory, p: int, a: int, q: int)
    requires a in m && (p != 0 ==> p in m) && (q != 0 ==> q in m)
    requires Storable(p) && Storable(q)
    ensures SameShape(m, Unlinked(m, p, a, q)) && Unlinked(m, p, a, q).Keys == m.Keys
  {
  }

  lemma UnlinkedOther(m: Memory, p: int, a: int, q: int, x: int)
    requires a in m && (p != 0 ==> p in m && p != q) && (q != 0 ==> q in m)
    requires Storable(p) && Storable(q)
    requires x in m && x != a && x != 0
    ensures var n := Unlinked(m, p, a, q);
            && x in n
            && n[x].freeNext == (if x == p then q else m[x].freeNext)
            && n[x].freePrev == (if x == q then p else m[x].freePrev)
  {
  }

  /** The two neighbours of `a` in the list, as its own header names them. */
  predicate NeighboursIn(m: Memory, a: int) {
    && a in m
    && var p, q := m[a].freePrev, m[a].freeNext;
    && p != a && q != a && Storable(p) && Storable(q)
    && (p != 0 ==> p in m && p != q) && (q != 0 ==> q in m)
  }

  lemma NeighboursPresent(m: Memory, free: seq<int>, freeHead: int, j: nat)
    requires FreeList(m, free, freeHead) && j < |free|
    ensures NeighboursIn(m, free[j])
    ensures m[free[j]].freePrev == At(free, j - 1) && m[free[j]].freeNext == At(free, j + 1)
  {
    var p, q := At(free, j - 1), At(free, j + 1);
    assert free[j] in free && (p != 0 ==> p in free) && (q != 0 ==> q in free);
  }

  lemma UnlinkedLinks(m: Memory, free: seq<int>, freeHead: int, j: nat)
    requires FreeList(m, free, freeHead) && j < |free| && NeighboursIn(m, free[j])
    requires m[free[j]].freePrev == At(free, j - 1) && m[free[j]].freeNext == At(free, j + 1)
    ensures FreeLinks(Unlinked(m, At(free, j - 1), free[j], At(free, j + 1)), free[..j] + free[j + 1..],
                      if j == 0 then At(free, 1) else freeHead)
  {
    hide Unlinked, Pointers, Distinct, Storable, At;
    var rest := free[..j] + free[j + 1..];
    var p, q := At(free, j - 1), At(free, j + 1);
    var n := Unlinked(m, p, free[j], q);
    forall k | 0 <= k < |rest|
      ensures rest[k] in n && n[rest[k]].freeNext == At(rest, k + 1) && n[rest[k]].freePrev == At(rest, k - 1)
    {
      var k' := if k < j then k else k + 1;
      assert free[k'] in m && m[free[k']].freeNext == At(free, k' + 1) && m[free[k']].freePrev == At(free, k' - 1);
      RestAt(free, j, k);
      NeighbourIndex(free, j, k');
      UnlinkedOther(m, p, free[j], q, free[k']);
    }
    RestAt(free, j, -1);
  }

  /** The list without element j, position by position. */
  lemma RestAt(free: seq<int>, j: nat, k: int)
    requires j < |free| && -1 <= k < |free| - 1
    ensures var rest, k' := free[..j] + free[j + 1..], if k < j then k else k + 1;
            && (k >= 0 ==> rest[k] == free[k'])
            && At(rest, k + 1) == (if k' == j - 1 then At(free, j + 1) else At(free, k' + 1))
            && (k >= 0 ==> At(rest, k - 1) == if k' == j + 1 then At(free, j - 1) else At(free, k' - 1))
  {
  }

  /** Unlinking a listed block leaves the list without it. */
  lemma UnlinkedList(m: Memory, free: seq<int>, freeHead: int, a: int)
    requires FreeList(m, free, freeHead) && a in free
    ensures NeighboursIn(m, a)
    ensures FreeList(Unlinked(m, m[a].freePrev, a, m[a].freeNext), Without(free, a),
                     if m[a].freePrev == 0 then m[a].freeNext else freeHead)
  {
    hide Unlinked, Without, Storable, FreeLinks, Pointers, Distinct;
    var j :| 0 <= j < |free| && free[j] == a;
    WithoutAt(free, j);
    NeighboursPresent(m, free, freeHead, j);
    UnlinkedLinks(m, free, freeHead, j);
    StillPointers(free, j);
  }

  lemma StillPointers(free: seq<int>, j: nat)
    requires Pointers(free) && Distinct(free) && j < |free|
    ensures Pointers(Without(free, free[j])) && Distinct(Without(free, free[j]))
    ensures At(free, j - 1) == 0 <==> j == 0
  {
    hide Without, Storable;
    WithoutSet(free, free[j]);
    assert j > 0 ==> free[j - 1] in free;
    var rest := Without(free, free[j]);
    forall x | x in rest ensures x != 0 && Storable(x) {
      assert x in Elems(rest) && x in Elems(free);
    }
  }

  lemma AtEnd(free: seq<int>, j: nat)
    requires Pointers(free)
    ensures At(free, j) == 0 <==> |free| <= j
  {
    if j < |free| { assert free[j] in free; }
  }

  lemma NeighbourIndex(free: seq<int>, j: nat, k: nat)
    requires Pointers(free) && Distinct(free) && j < |free| && k < |free| && k != j
    ensures free[k] != 0 && free[k] != free[j]
    ensures free[k] == At(free, j - 1) <==> k == j - 1
    ensures free[k] == At(free, j + 1) <==> k == j + 1
  {
    assert free[k] in free;
  }

  // ---------------------------------------------------------------- cutting a free block in two

  predicate CanSplit(m: Memory, freeHead: int, a: int, need: int, last: bool) {
    && a in m && a != 0 && Storable(a)
    && Storable(freeHead) && (freeHead != 0 ==> freeHead in m)
    && 0 <= need && MIN_BLOCK_SIZE <= m[a].size - need && m[a].size < TWO_32
    && Storable(a + BLOCK_HEADER_SIZE + need)
    && (!last ==> a + m[a].size + BLOCK_HEADER_SIZE in m)
  }

  /** The first half of `split_block`: a header for the remainder, pushed on the free list and
      linked in behind `a`, which then shrinks. */
  function SplitMem(m: Memory, freeHead: int, a: int, need: int, last: bool): Memory
    requires CanSplit(m, freeHead, a, need, last)
  {
    var added, next := a + BLOCK_HEADER_SIZE + need, a + m[a].size + BLOCK_HEADER_SIZE;
    var written := m[added := Header.New(m[a].size - need - BLOCK_HEADER_SIZE, false)];
    var pushed := Pushed(written, freeHead, added);
    var chained := Chained(pushed, a, added, next, last);
    chained[a := chained[a].SetSize(need)]
  }

  /** What the cut does to sizes, flags and prev links. */
  lemma SplitShape(m: Memory, freeHead: int, a: int, need: int, last: bool)
    requires CanSplit(m, freeHead, a, need, last)
    ensures var n, added := SplitMem(m, freeHead, a, need, last), a + BLOCK_HEADER_SIZE + need;
            var next := a + m[a].size + BLOCK_HEADER_SIZE;
            && HeaderIs(n, Block(a, need, m[a].used), m[a].prev)
            && HeaderIs(n, Block(added, m[a].size - need - BLOCK_HEADER_SIZE, false), a)
            && (!last ==> HeaderIs(n, Block(next, m[next].size, m[next].used), added))
            && forall x | x in m && x != a && x != added && (last || x != next) :: Unmoved(m, n, x)
  {
    var added := a + BLOCK_HEADER_SIZE + need;
    var written := m[added := Header.New(m[a].size - need - BLOCK_HEADER_SIZE, false)];
    PushedShape(written, freeHead, added);
    hide Pushed, Storable;
  }

  lemma SplitList(m: Memory, free: seq<int>, freeHead: int, a: int, need: int, last: bool)
    requires CanSplit(m, freeHead, a, need, last) && FreeList(m, free, freeHead)
    requires var added := a + BLOCK_HEADER_SIZE + need; added !in free && added != 0
    ensures var added := a + BLOCK_HEADER_SIZE + need;
            FreeList(SplitMem(m, freeHead, a, need, last), [added] + free, added)
  {
    var added := a + BLOCK_HEADER_SIZE + need;
    var written := m[added := Header.New(m[a].size - need - BLOCK_HEADER_SIZE, false)];
    FreeListKept(m, written, free, freeHead);
    PushedList(written, free, freeHead, added);
    PushedShape(written, freeHead, added);
    hide Pushed, FreeList, Storable;
    FreeListKept(Pushed(written, freeHead, added), SplitMem(m, freeHead, a, need, last), [added] + free, added);
  }

  function Halves(b: Block, need: int): seq<Block> {
    [Block(b.addr, need, false), Block(b.Payload() + need, b.size - need - BLOCK_HEADER_SIZE, false)]
  }

  /** Cutting block i of a represented heap: two free blocks, the second one listed first. */
  lemma SplitDone(m: Memory, tail: int, freeHead: int, end: int, bs: seq<Block>, free: seq<int>, i: nat, need: int)
    requires Represents(m, tail, freeHead, end, bs, free)
    requires i < |bs| && !bs[i].used
    requires MIN_ALLOC_SIZE <= need && need % 8 == 0 && bs[i].size - need >= MIN_BLOCK_SIZE
    ensures var a, last := bs[i].addr, i == |bs| - 1;
            && CanSplit(m, freeHead, a, need, last)
            && FreeList(SplitMem(m, freeHead, a, need, last), [bs[i].Payload() + need] + free, bs[i].Payload() + need)
            && BlocksAre(SplitMem(m, freeHead, a, need, last), 0, Splice(bs, i, 1, Halves(bs[i], need)))
  {
    hide Tiles, BlocksAre, FreeLinks, Pointers, Distinct, NoAdjacentFree, FreeAddrs, SplitMem, HeaderIs;
    var b, added, last := bs[i], bs[i].Payload() + need, i == |bs| - 1;
    SplitPossible(m, tail, freeHead, end, bs, free, i, need);
    InteriorAddress(bs, end, i, added);
    assert added in free <==> added in Elems(free);
    SplitList(m, free, freeHead, b.addr, need, last);
    SplitBlocks(m, freeHead, end, bs, i, need);
  }

  lemma SplitPossible(m: Memory, tail: int, freeHead: int, end: int, bs: seq<Block>, free: seq<int>, i: nat, need: int)
    requires Linked(m, tail, freeHead, end, bs, free) && i < |bs|
    requires MIN_ALLOC_SIZE <= need && need % 8 == 0 && bs[i].size - need >= MIN_BLOCK_SIZE
    ensures CanSplit(m, freeHead, bs[i].addr, need, i == |bs| - 1)
    ensures bs[i].addr < bs[i].Payload() + need < bs[i].End() && bs[i].Payload() + need != 0
  {
    hide Tiles, BlocksAre, FreeList, Before;
    BlockFacts(m, tail, freeHead, end, bs, free, i);
    if i + 1 < |bs| { BlockFacts(m, tail, freeHead, end, bs, free, i + 1); }
    FreeHeadFacts(m, free, freeHead);
    MultiplesOfEight(bs[i].addr, need);
    MultiplesOfEight(bs[i].addr + need, BLOCK_HEADER_SIZE);
    MultipleOfEightIsEven(bs[i].Payload() + need);
  }

  lemma SplitBlocks(m: Memory, freeHead: int, end: int, bs: seq<Block>, i: nat, need: int)
    requires Tiles(bs, HEAP_START, end) && BlocksAre(m, 0, bs) && i < |bs| && !bs[i].used
    requires CanSplit(m, freeHead, bs[i].addr, need, i == |bs| - 1)
    ensures BlocksAre(SplitMem(m, freeHead, bs[i].addr, need, i == |bs| - 1), 0, Splice(bs, i, 1, Halves(bs[i], need)))
  {
    hide Tiles, SplitMem, CanSplit, BlocksAre, HeaderIs, Unmoved, Halves;
    var b, last := bs[i], i == |bs| - 1;
    var n := SplitMem(m, freeHead, b.addr, need, last);
    TilesAt(bs, HEAP_START, end, i);
    HeaderOfBlock(m, bs, i);
    if !last { HeaderOfBlock(m, bs, i + 1); }
    SplitHeaders(m, freeHead, b, need, last, Before(0, bs, i), if last then b else bs[i + 1]);
    var touched := {b.addr, b.Payload() + need} + if last then {} else {b.End()};
    OthersUnmoved(m, n, bs, end, i, 1, touched);
    BlocksSplice(m, n, bs, i, 1, Halves(b, need));
  }

  lemma HeaderOfBlock(m: Memory, bs: seq<Block>, i: nat)
    requires BlocksAre(m, 0, bs) && i < |bs|
    ensures HeaderIs(m, bs[i], Before(0, bs, i)) && bs[i].addr in m
  {
  }

  lemma SplitHeaders(m: Memory, freeHead: int, b: Block, need: int, last: bool, before: int, after: Block)
    requires CanSplit(m, freeHead, b.addr, need, last) && HeaderIs(m, b, before) && !b.used
    requires !last ==> HeaderIs(m, after, b.addr) && after.addr == b.End()
    ensures var n := SplitMem(m, freeHead, b.addr, need, last);
            && BlocksAre(n, before, Halves(b, need))
            && Halves(b, need) != [] && Halves(b, need)[|Halves(b, need)| - 1].addr == b.Payload() + need
            && b.addr <= b.Payload() + need <= b.End()
            && (!last ==> HeaderIs(n, after, b.Payload() + need))
            && forall x | x in m && x !in {b.addr, b.Payload() + need} + (if last then {} else {b.End()}) ::
                 Unmoved(m, n, x)
  {
    SplitShape(m, freeHead, b.addr, need, last);
    hide SplitMem, Storable;
  }

  // ---------------------------------------------------------------- taking a block into use

  /** The second half of `split_block`: the block leaves the free list and is marked used. */
  lemma TakenDone(m: Memory, freeHead: int, end: int, bs: seq<Block>, free: seq<int>, i: nat)
    requires FreeList(m, free, freeHead) && BlocksAre(m, 0, bs) && Tiles(bs, HEAP_START, end)
    requires i < |bs| && bs[i].addr in free
    ensures NeighboursIn(m, bs[i].addr)
    ensures var a := bs[i].addr;
            var u := Unlinked(m, m[a].freePrev, a, m[a].freeNext);
            var n := u[a := u[a].SetUsed()];
            && FreeList(n, Without(free, a), if m[a].freePrev == 0 then m[a].freeNext else freeHead)
            && BlocksAre(n, 0, Splice(bs, i, 1, [bs[i].(used := true)]))
  {
    hide FreeLinks, Pointers, Distinct, Tiles, Unlinked, Without;
    var a := bs[i].addr;
    UnlinkedList(m, free, freeHead, a);
    UnlinkedShape(m, m[a].freePrev, a, m[a].freeNext);
    var u := Unlinked(m, m[a].freePrev, a, m[a].freeNext);
    var n := u[a := u[a].SetUsed()];
    FreeListKept(u, n, Without(free, a), if m[a].freePrev == 0 then m[a].freeNext else freeHead);
    HeaderOfBlock(m, bs, i);
    MarkedBlocks(m, n, end, bs, i, true);
  }

  /** Changing the used flag of block i and no other size, flag or prev link. */
  lemma MarkedBlocks(m: Memory, n: Memory, end: int, bs: seq<Block>, i: nat, used: bool)
    requires BlocksAre(m, 0, bs) && Tiles(bs, HEAP_START, end) && i < |bs|
    requires HeaderIs(n, bs[i].(used := used), Before(0, bs, i))
    requires forall x | x in m && x != bs[i].addr :: Unmoved(m, n, x)
    ensures BlocksAre(n, 0, Splice(bs, i, 1, [bs[i].(used := used)]))
  {
    hide Tiles, Unmoved;
    var a := bs[i].addr;
    TilesAt(bs, HEAP_START, end, i);
    OthersUnmoved(m, n, bs, end, i, 1, {a});
    if i + 1 < |bs| {
      HeaderOfBlock(m, bs, i + 1);
      HeaderKept(m, n, bs, i + 1);
    }
    BlocksSplice(m, n, bs, i, 1, [bs[i].(used := used)]);
  }

  // ---------------------------------------------------------------- joining two neighbours

  function Joined(bs: seq<Block>, i: nat): Block
    requires i + 1 < |bs|
  {
    Block(bs[i].addr, bs[i].size + BLOCK_HEADER_SIZE + bs[i + 1].size, false)
  }

  /** Headers after block i has absorbed block i + 1. */
  lemma JoinedBlocks(m: Memory, n: Memory, end: int, bs: seq<Block>, i: nat)
    requires BlocksAre(m, 0, bs) && Tiles(bs, HEAP_START, end) && i + 1 < |bs|
    requires HeaderIs(n, Joined(bs, i), Before(0, bs, i))
    requires i + 2 < |bs| ==> HeaderIs(n, bs[i + 2], bs[i].addr)
    requires forall x | x in m && x != bs[i].addr && x != bs[i + 1].addr && (i + 2 < |bs| ==> x != bs[i + 2].addr) ::
               Unmoved(m, n, x)
    ensures BlocksAre(n, 0, Splice(bs, i, 2, [Joined(bs, i)]))
    ensures Tiles(Splice(bs, i, 2, [Joined(bs, i)]), HEAP_START, end)
  {
    hide Tiles, Unmoved, HeaderIs;
    JoinedTiles(end, bs, i);
    TilesAt(bs, HEAP_START, end, i);
    TilesAt(bs, HEAP_START, end, i + 1);
    var touched := {bs[i].addr, bs[i + 1].addr} + if i + 2 < |bs| then {bs[i + 2].addr} else {};
    OthersUnmoved(m, n, bs, end, i, 2, touched);
    assert BlocksAre(n, Before(0, bs, i), [Joined(bs, i)]);
    hide BlocksAre;
    BlocksSplice(m, n, bs, i, 2, [Joined(bs, i)]);
  }

  lemma JoinedTiles(end: int, bs: seq<Block>, i: nat)
    requires Tiles(bs, HEAP_START, end) && i + 1 < |bs|
    ensures Tiles(Splice(bs, i, 2, [Joined(bs, i)]), HEAP_START, end)
  {
    hide Tiles;
    TilesAt(bs, HEAP_START, end, i);
    TilesAt(bs, HEAP_START, end, i + 1);
    MultiplesOfEight(bs[i].size, bs[i + 1].size);
    MultiplesOfEight(bs[i].size + bs[i + 1].size, BLOCK_HEADER_SIZE);
    TilesOne(Joined(bs, i));
    SpliceTiles(bs, HEAP_START, end, i, 2, [Joined(bs, i)]);
  }

  /** `block_ptr` absorbs its free successor: grow, unlink the successor from the free list,
      then point the one after it back at the grown block. */
  lemma AbsorbedNext(m: Memory, tail: int, freeHead: int, end: int, bs: seq<Block>, free: seq<int>, i: nat)
    requires Linked(m, tail, freeHead, end, bs, free)
    requires i + 1 < |bs| && !bs[i].used && bs[i + 1].addr in free
    ensures CanJoin(m, end, bs, i)
    ensures var a, b := bs[i].addr, bs[i + 1].addr;
            var grown := m[a := m[a].AddSize(BLOCK_HEADER_SIZE + m[b].size)];
            && NeighboursIn(grown, b)
            && var unlisted := Unlinked(grown, grown[b].freePrev, b, grown[b].freeNext);
            var n := if i + 2 == |bs| then unlisted else unlisted[bs[i + 2].addr := unlisted[bs[i + 2].addr].SetPrev(a)];
            var out := Splice(bs, i, 2, [Joined(bs, i)]);
            Linked(n, out[|out| - 1].addr, if grown[b].freePrev == 0 then grown[b].freeNext else freeHead, end,
                   out, Without(free, b))
  {
    hide Tiles, BlocksAre, FreeLinks, Pointers, Distinct, Unlinked, Without, Storable;
    JoinPossible(m, tail, freeHead, end, bs, free, i);
    var a, b := bs[i].addr, bs[i + 1].addr;
    var grown := m[a := m[a].AddSize(BLOCK_HEADER_SIZE + m[b].size)];
    FreeListKept(m, grown, free, freeHead);
    UnlinkedList(grown, free, freeHead, b);
    UnlinkedShape(grown, grown[b].freePrev, b, grown[b].freeNext);
    var unlisted := Unlinked(grown, grown[b].freePrev, b, grown[b].freeNext);
    var n := if i + 2 == |bs| then unlisted else unlisted[bs[i + 2].addr := unlisted[bs[i + 2].addr].SetPrev(a)];
    FreeListKept(unlisted, n, Without(free, b), if grown[b].freePrev == 0 then grown[b].freeNext else freeHead);
    forall x | x in m && x != a && (i + 2 < |bs| ==> x != bs[i + 2].addr) ensures Unmoved(m, n, x) {
      assert Unmoved(grown, unlisted, x);
    }
    assert Unmoved(grown, unlisted, a) && (i + 2 < |bs| ==> Unmoved(grown, unlisted, bs[i + 2].addr));
    JoinedBlocks(m, n, end, bs, i);
  }

  /** The headers involved in joining blocks i and i + 1 are where the code looks for them. */
  predicate CanJoin(m: Memory, end: int, bs: seq<Block>, i: nat)
    requires i + 1 < |bs|
  {
    && HeaderIs(m, bs[i], Before(0, bs, i))
    && HeaderIs(m, bs[i + 1], bs[i].addr)
    && (i + 2 < |bs| ==> HeaderIs(m, bs[i + 2], bs[i + 1].addr) && bs[i + 2].addr == bs[i + 1].End())
    && bs[i + 1].addr == bs[i].End() && bs[i].addr != 0 && Storable(bs[i].addr)
    && 0 <= bs[i].size && 0 <= bs[i + 1].size && bs[i].size + BLOCK_HEADER_SIZE + bs[i + 1].size < TWO_32
  }

  lemma JoinPossible(m: Memory, tail: int, freeHead: int, end: int, bs: seq<Block>, free: seq<int>, i: nat)
    requires Linked(m, tail, freeHead, end, bs, free) && i + 1 < |bs|
    ensures CanJoin(m, end, bs, i)
  {
    hide Linked, Storable, HeaderIs;
    BlockFacts(m, tail, freeHead, end, bs, free, i);
    BlockFacts(m, tail, freeHead, end, bs, free, i + 1);
    if i + 2 < |bs| { BlockFacts(m, tail, freeHead, end, bs, free, i + 2); }
  }

  /** The predecessor absorbs `block_ptr`, which is on no free list. */
  lemma AbsorbedByPrev(m: Memory, tail: int, freeHead: int, end: int, bs: seq<Block>, free: seq<int>, i: nat)
    requires Linked(m, tail, freeHead, end, bs, free)
    requires i + 1 < |bs| && !bs[i].used
    ensures CanJoin(m, end, bs, i)
    ensures var a, b := bs[i].addr, bs[i + 1].addr;
            var relinked := if i + 2 == |bs| then m else m[bs[i + 2].addr := m[bs[i + 2].addr].SetPrev(a)];
            var n := relinked[a := relinked[a].AddSize(BLOCK_HEADER_SIZE + relinked[b].size)];
            var out := Splice(bs, i, 2, [Joined(bs, i)]);
            Linked(n, out[|out| - 1].addr, freeHead, end, out, free)
  {
    hide Tiles, BlocksAre, FreeLinks, Pointers, Distinct, Storable;
    JoinPossible(m, tail, freeHead, end, bs, free, i);
    var a, b := bs[i].addr, bs[i + 1].addr;
    var relinked := if i + 2 == |bs| then m else m[bs[i + 2].addr := m[bs[i + 2].addr].SetPrev(a)];
    var n := relinked[a := relinked[a].AddSize(BLOCK_HEADER_SIZE + relinked[b].size)];
    FreeListKept(m, n, free, freeHead);
    JoinedBlocks(m, n, end, bs, i);
  }

  // ---------------------------------------------------------------- the two halves together

  function CutBlocks(bs: seq<Block>, i: nat, need: int): seq<Block>
    requires i < |bs|
  {
    if bs[i].size - need >= MIN_BLOCK_SIZE then Splice(bs, i, 1, Halves(bs[i], need)) else bs
  }

  function CutFree(b: Block, need: int, free: seq<int>): seq<int> {
    if b.size - need >= MIN_BLOCK_SIZE then [b.Payload() + need] + free else free
  }

  /** Cutting first and taking the front afterwards is the allocation step of HeapSpec. */
  lemma CutThenTake(bs: seq<Block>, free: seq<int>, i: nat, need: int)
    requires i < |bs| && need >= 0
    ensures var cut := CutBlocks(bs, i, need);
            && i < |cut| && cut[i].addr == bs[i].addr
            && Splice(cut, i, 1, [cut[i].(used := true)]) == AllocBlocks(bs, i, need)
            && cut[|cut| - 1].addr == AllocBlocks(bs, i, need)[|AllocBlocks(bs, i, need)| - 1].addr
    ensures Without(CutFree(bs[i], need, free), bs[i].addr) == AllocFree(bs[i], need, free)
  {
    var cut, out := CutBlocks(bs, i, need), AllocBlocks(bs, i, need);
    if bs[i].size - need >= MIN_BLOCK_SIZE {
      var added := bs[i].Payload() + need;
      assert ([added] + free)[1..] == free;
      assert Splice(cut, i, 1, [cut[i].(used := true)]) == out;
    } else {
      assert [] + Without(free, bs[i].addr) == Without(free, bs[i].addr);
      assert Splice(cut, i, 1, [cut[i].(used := true)]) == out;
    }
  }

  lemma CutTiles(bs: seq<Block>, end: int, i: nat, need: int)
    requires Tiles(bs, HEAP_START, end) && i < |bs| && !bs[i].used
    requires MIN_ALLOC_SIZE <= need && need % 8 == 0 && bs[i].size - need >= MIN_BLOCK_SIZE
    ensures Tiles(Splice(bs, i, 1, Halves(bs[i], need)), HEAP_START, end)
  {
    hide Tiles;
    var b, mid := bs[i], Halves(bs[i], need);
    TilesAt(bs, HEAP_START, end, i);
    MultiplesOfEight(b.size, need);
    MultiplesOfEight(b.size - need, BLOCK_HEADER_SIZE);
    TilesOne(mid[0]);
    TilesOne(mid[1]);
    TilesConcat([mid[0]], [mid[1]], b.addr, mid[1].addr, b.End());
    assert mid == [mid[0]] + [mid[1]];
    SpliceTiles(bs, HEAP_START, end, i, 1, mid);
  }

  // ---------------------------------------------------------------- freeing, step by step

  function MarkedFree(bs: seq<Block>, i: nat): seq<Block>
    requires i < |bs|
  {
    Splice(bs, i, 1, [bs[i].(used := false)])
  }

  function JoinedNext(bs: seq<Block>, i: nat): seq<Block>
    requires i < |bs|
  {
    if i + 1 < |bs| && !bs[i + 1].used then Splice(bs, i, 2, [Joined(bs, i)]) else bs
  }

  function JoinedPrev(bs: seq<Block>, i: nat): seq<Block>
    requires i < |bs|
  {
    if i > 0 && !bs[i - 1].used then Splice(bs, i - 1, 2, [Joined(bs, i - 1)]) else bs
  }

  lemma JoinedNextIs(bs: seq<Block>, end: int, i: nat)
    requires Tiles(bs, HEAP_START, end) && i < |bs|
    ensures JoinedNext(MarkedFree(bs, i), i)
            == bs[..i] + [Block(bs[i].addr, bs[MergeTo(bs, i) - 1].End() - bs[i].Payload(), false)] + bs[MergeTo(bs, i)..]
  {
    hide Tiles;
    TilesAt(bs, HEAP_START, end, i);
    var marked := MarkedFree(bs, i);
    if i + 1 < |bs| && !bs[i + 1].used {
      SpliceTwice(bs, i, [bs[i].(used := false)], [Joined(marked, i)]);
      assert marked[i + 1] == bs[i + 1];
    }
  }

  lemma SpliceTwice(bs: seq<Block>, i: nat, one: seq<Block>, mid: seq<Block>)
    requires i + 1 < |bs| && |one| == 1
    ensures Splice(Splice(bs, i, 1, one), i, 2, mid) == bs[..i] + mid + bs[i + 2..]
  {
    var s := Splice(bs, i, 1, one);
    assert s[..i] == bs[..i] && s[i + 2..] == bs[i + 2..];
  }

  /** Marking, joining with the successor and then with the predecessor is the freeing step of
      HeapSpec. */
  lemma FreeInSteps(bs: seq<Block>, end: int, i: nat)
    requires Tiles(bs, HEAP_START, end) && i < |bs|
    ensures var mid := JoinedNext(MarkedFree(bs, i), i);
            && i < |mid| && JoinedPrev(mid, i) == FreeBlocks(bs, i)
            && mid[i].addr == bs[i].addr && !mid[i].used && (i > 0 ==> mid[i - 1] == bs[i - 1])
  {
    hide Tiles, JoinedNext, MarkedFree;
    MarkedElements(bs, i);
    JoinedNextIs(bs, end, i);
    var mid := JoinedNext(MarkedFree(bs, i), i);
    if i > 0 && !bs[i - 1].used {
      TilesAt(bs, HEAP_START, end, i - 1);
      assert mid[..i - 1] == bs[..i - 1] && mid[i + 1..] == bs[MergeTo(bs, i)..];
      assert mid[i - 1] == bs[i - 1];
      assert Joined(mid, i - 1) == Block(bs[i - 1].addr, bs[MergeTo(bs, i) - 1].End() - bs[i - 1].Payload(), false);
    }
  }

  /** Clearing the used flag of a block that no free list mentions. */
  lemma MarkedFreeDone(m: Memory, tail: int, freeHead: int, end: int, bs: seq<Block>, free: seq<int>, i: nat)
    requires Linked(m, tail, freeHead, end, bs, free) && i < |bs|
    ensures bs[i].addr in m
    ensures Linked(m[bs[i].addr := m[bs[i].addr].SetFree()], tail, freeHead, end, MarkedFree(bs, i), free)
  {
    hide Tiles, FreeList, BlocksAre;
    HeaderOfBlock(m, bs, i);
    var n := m[bs[i].addr := m[bs[i].addr].SetFree()];
    FreeListKept(m, n, free, freeHead);
    MarkedBlocks(m, n, end, bs, i, false);
    hide Unmoved, HeaderIs;
    MarkedTiles(bs, end, i);
  }

  lemma MarkedTiles(bs: seq<Block>, end: int, i: nat)
    requires Tiles(bs, HEAP_START, end) && i < |bs|
    ensures Tiles(MarkedFree(bs, i), HEAP_START, end)
    ensures |MarkedFree(bs, i)| == |bs| && MarkedFree(bs, i)[|bs| - 1].addr == bs[|bs| - 1].addr
  {
    hide Tiles;
    TilesAt(bs, HEAP_START, end, i);
    TilesOne(bs[i].(used := false));
    SpliceTiles(bs, HEAP_START, end, i, 1, [bs[i].(used := false)]);
  }

  /** Pushing a block on the free list moves no block. */
  lemma PushedDone(m: Memory, tail: int, freeHead: int, end: int, bs: seq<Block>, free: seq<int>, i: nat)
    requires Linked(m, tail, freeHead, end, bs, free) && i < |bs| && bs[i].addr !in free
    ensures bs[i].addr in m && Storable(bs[i].addr) && Storable(freeHead) && (freeHead != 0 ==> freeHead in m)
    ensures Linked(Pushed(m, freeHead, bs[i].addr), tail, bs[i].addr, end, bs, [bs[i].addr] + free)
  {
    hide Tiles, FreeList, Pushed;
    BlockFacts(m, tail, freeHead, end, bs, free, i);
    FreeHeadFacts(m, free, freeHead);
    PushedShape(m, freeHead, bs[i].addr);
    PushedList(m, free, freeHead, bs[i].addr);
    BlocksKept(m, Pushed(m, freeHead, bs[i].addr), bs);
  }

  lemma BlocksKept(m: Memory, n: Memory, bs: seq<Block>)
    requires BlocksAre(m, 0, bs) && SameShape(m, n)
    ensures BlocksAre(n, 0, bs)
  {
    forall i | 0 <= i < |bs| ensures HeaderIs(n, bs[i], Before(0, bs, i)) {
      HeaderOfBlock(m, bs, i);
      assert Unmoved(m, n, bs[i].addr);
    }
  }

  lemma MarkedElements(bs: seq<Block>, i: nat)
    requires i < |bs|
    ensures var marked := MarkedFree(bs, i);
            && |marked| == |bs| && marked[i] == bs[i].(used := false)
            && forall x | 0 <= x < |bs| && x != i :: marked[x] == bs[x]
  {
  }

  /** A used block is on no free list, before or after its successor has left it. */
  lemma NotListed(bs: seq<Block>, free: seq<int>, end: int, i: nat)
    requires WellFormed(bs, free, end) && i < |bs| && bs[i].used
    ensures bs[i].addr !in free
    ensures MergeTo(bs, i) == i + 2 ==> bs[i].addr !in Without(free, bs[i + 1].addr)
  {
    hide Tiles, NoAdjacentFree, FreeAddrs, Distinct, Without;
    UsedNotListed(bs, end, i);
    assert bs[i].addr in free <==> bs[i].addr in Elems(free);
    if MergeTo(bs, i) == i + 2 {
      FreeBlockListed(bs, free, i + 1);
      WithoutSet(free, bs[i + 1].addr);
      var rest := Without(free, bs[i + 1].addr);
      assert bs[i].addr in rest <==> bs[i].addr in Elems(rest);
    }
  }

  // ---------------------------------------------------------------- growing at the end

  /** Growth when the last block is free: it takes in the new bytes. */
  lemma ExtendedDone(m: Memory, tail: int, freeHead: int, end: int, bs: seq<Block>, free: seq<int>, n: int)
    requires Linked(m, tail, freeHead, end, bs, free) && !bs[|bs| - 1].used
    requires n >= MIN_BLOCK_SIZE && n % 8 == 0 && end + n <= ADDRESS_LIMIT
    ensures tail in m && 0 <= m[tail].size && m[tail].size + n < TWO_32
    ensures Linked(m[tail := m[tail].AddSize(n)], tail, freeHead, end + n, GrowBlocks(bs, end, n), free)
  {
    hide Tiles, FreeList, BlocksAre, Unmoved, HeaderIs;
    var k := |bs| - 1;
    BlockFacts(m, tail, freeHead, end, bs, free, k);
    SizeOfHeader(m, bs[k], Before(0, bs, k));
    var grown := m[tail := m[tail].AddSize(n)];
    GrowTiles(bs, end, n);
    FreeListKept(m, grown, free, freeHead);
    var last := bs[k].(size := bs[k].size + n);
    ResizedHeader(m, bs[k], Before(0, bs, k), n);
    OthersUnmoved(m, grown, bs, end, k, 1, {tail});
    assert BlocksAre(grown, Before(0, bs, k), [last]) by { OneBlockIs(grown, Before(0, bs, k), last); }
    BlocksSplice(m, grown, bs, k, 1, [last]);
    assert Splice(bs, k, 1, [last]) == GrowBlocks(bs, end, n);
  }

  lemma SizeOfHeader(m: Memory, b: Block, before: int)
    requires HeaderIs(m, b, before)
    ensures b.addr in m && m[b.addr].size == b.size && m[b.addr].used == b.used && m[b.addr].prev == before
  {
  }

  lemma OneBlockIs(m: Memory, before: int, b: Block)
    requires HeaderIs(m, b, before)
    ensures BlocksAre(m, before, [b])
  {
  }

  lemma ResizedHeader(m: Memory, b: Block, before: int, n: int)
    requires HeaderIs(m, b, before) && 0 <= n && 0 <= b.size && b.size + n < TWO_32
    ensures var grown := m[b.addr := m[b.addr].AddSize(n)];
            && HeaderIs(grown, b.(size := b.size + n), before)
            && forall x | x in m && x != b.addr :: Unmoved(m, grown, x)
  {
  }

  /** Growth when the last block is used: a new free block behind it. */
  lemma AppendedDone(m: Memory, tail: int, freeHead: int, end: int, bs: seq<Block>, free: seq<int>, n: int)
    requires Represents(m, tail, freeHead, end, bs, free) && bs[|bs| - 1].used
    requires n >= MIN_BLOCK_SIZE && n % 8 == 0 && end + n <= ADDRESS_LIMIT
    ensures Storable(tail) && Storable(end) && Storable(freeHead) && (freeHead != 0 ==> freeHead in m)
    ensures n < TWO_32
    ensures var written := m[end := Header.New(n - BLOCK_HEADER_SIZE, false)];
            var pushed := Pushed(written, freeHead, end);
            && end in pushed
            && Linked(pushed[end := pushed[end].SetPrev(tail)], end, end, end + n, GrowBlocks(bs, end, n), [end] + free)
  {
    hide Tiles, FreeList, BlocksAre, NoAdjacentFree, FreeAddrs, Elems, Distinct, Pushed, HeaderIs;
    var k := |bs| - 1;
    BlockFacts(m, tail, freeHead, end, bs, free, k);
    EndStorable(end, bs[k]);
    FreeHeadFacts(m, free, freeHead);
    EndNotInFree(bs, free, end);
    GrowTiles(bs, end, n);
    var written := m[end := Header.New(n - BLOCK_HEADER_SIZE, false)];
    NewHeaderKeepsList(m, written, bs, free, freeHead, end);
    PushedShape(written, freeHead, end);
    PushedList(written, free, freeHead, end);
    var pushed := Pushed(written, freeHead, end);
    var done := pushed[end := pushed[end].SetPrev(tail)];
    FreeListKept(pushed, done, [end] + free, end);
    assert HeaderIs(done, Block(end, n - BLOCK_HEADER_SIZE, false), tail) by {
      AppendedHeader(written, pushed, done, end, n, tail);
    }
    AppendedBlocks(m, written, pushed, done, bs, end, n, tail);
  }

  lemma EndStorable(end: int, b: Block)
    requires b.End() == end && b.addr % 8 == 0 && b.size % 8 == 0 && HEAP_START <= b.addr
    requires b.size >= 0 && end + MIN_BLOCK_SIZE <= ADDRESS_LIMIT
    ensures Storable(end) && end != 0
  {
    MultiplesOfEight(b.addr, b.size);
    MultiplesOfEight(b.addr + b.size, BLOCK_HEADER_SIZE);
    MultipleOfEightIsEven(end);
  }

  lemma EndNotInFree(bs: seq<Block>, free: seq<int>, end: int)
    requires WellFormed(bs, free, end)
    ensures end !in free
  {
    EndNotListed(bs, end);
    assert end in free <==> end in Elems(free);
  }

  /** Writing a header at an address outside the list leaves the list alone. */
  lemma NewHeaderKeepsList(m: Memory, n: Memory, bs: seq<Block>, free: seq<int>, freeHead: int, a: int)
    requires FreeList(m, free, freeHead) && a !in free
    requires forall x | x in m && x != a :: x in n && n[x] == m[x]
    ensures FreeList(n, free, freeHead)
  {
    hide FreeList;
    FreeListKept(m, n, free, freeHead);
  }

  lemma AppendedHeader(written: Memory, pushed: Memory, done: Memory, end: int, n: int, tail: int)
    requires end in written && written[end].size == n - BLOCK_HEADER_SIZE && !written[end].used
    requires SameShape(written, pushed) && Storable(tail) && end in pushed
    requires done == pushed[end := pushed[end].SetPrev(tail)]
    ensures HeaderIs(done, Block(end, n - BLOCK_HEADER_SIZE, false), tail)
  {
    assert Unmoved(written, pushed, end);
  }

  lemma AppendedBlocks(m: Memory, written: Memory, pushed: Memory, done: Memory, bs: seq<Block>, end: int, n: int, tail: int)
    requires BlocksAre(m, 0, bs) && Tiles(bs, HEAP_START, end) && bs != [] && bs[|bs| - 1].used
    requires tail == bs[|bs| - 1].addr && end in pushed && Storable(tail)
    requires forall x | x in m && x != end :: x in written && written[x] == m[x]
    requires SameShape(written, pushed) && done == pushed[end := pushed[end].SetPrev(tail)]
    requires HeaderIs(done, Block(end, n - BLOCK_HEADER_SIZE, false), tail)
    ensures BlocksAre(done, 0, GrowBlocks(bs, end, n))
  {
    hide Tiles, BlocksAre, HeaderIs, SameShape;
    var out := GrowBlocks(bs, end, n);
    assert out == bs + [Block(end, n - BLOCK_HEADER_SIZE, false)];
    forall i | 0 <= i < |out| ensures HeaderIs(done, out[i], Before(0, out, i)) {
      if i < |bs| {
        HeaderOfBlock(m, bs, i);
        TilesAt(bs, HEAP_START, end, i);
        FarHeaderKept(m, written, pushed, done, end, tail, bs[i], Before(0, bs, i));
        assert Before(0, out, i) == Before(0, bs, i);
      }
    }
    BlocksFromHeaders(done, out);
  }

  lemma BlocksFromHeaders(m: Memory, bs: seq<Block>)
    requires forall i | 0 <= i < |bs| :: HeaderIs(m, bs[i], Before(0, bs, i))
    ensures BlocksAre(m, 0, bs)
  {
  }

  lemma FarHeaderKept(m: Memory, written: Memory, pushed: Memory, done: Memory, end: int, tail: int, b: Block, before: int)
    requires HeaderIs(m, b, before) && b.addr != end
    requires forall x | x in m && x != end :: x in written && written[x] == m[x]
    requires SameShape(written, pushed) && end in pushed && Storable(tail)
    requires done == pushed[end := pushed[end].SetPrev(tail)]
    ensures HeaderIs(done, b, before)
  {
    assert Unmoved(written, pushed, b.addr);
  }
}
