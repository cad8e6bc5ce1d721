/**
 The heap seen as a sequence of blocks in address order and a sequence of free addresses in
 free-list order. The pointer-level allocator is proved against these functions; what the
 allocator is for (tiling, disjointness, coalescing) is proved here.
 */
module HeapSpec {

  import opened BlockHeader
  import opened Common

  const MIN_ALLOC_SIZE := 16
  const MIN_BLOCK_SIZE := BLOCK_HEADER_SIZE + MIN_ALLOC_SIZE

  datatype Block = Block(addr: int, size: int, used: bool) {
    function Payload(): int { addr + BLOCK_HEADER_SIZE }
    function End(): int { addr + BLOCK_HEADER_SIZE + size }
  }

  /** `align_up`: the least multiple of `align` that is at least `x`. */
  function AlignUp(x: int, align: int): int
    requires align > 0
  {
    x + align - 1 - (x + align - 1) % align
  }

  /** Payload size of a block granted for `size` bytes. */
  function Need(size: nat): int {
    AlignUp(Max(size, MIN_ALLOC_SIZE), 8)
  }

  lemma NeedFits(size: nat, available: int)
    requires AlignUp(size, 8) <= available && MIN_ALLOC_SIZE <= available
    ensures size <= Need(size) <= available && MIN_ALLOC_SIZE <= Need(size) && Need(size) % 8 == 0
  {
  }

  lemma MultiplesOfEight(x: int, y: int)
    requires x % 8 == 0 && y % 8 == 0
    ensures (x - y) % 8 == 0 && (x + y) % 8 == 0
  {
    assert x - y == 8 * (x / 8 - y / 8) && x + y == 8 * (x / 8 + y / 8);
  }

  // ---------------------------------------------------------------- tiling

  /** The blocks cover [lo, hi) without gap or overlap, in address order. */
  predicate Tiles(bs: seq<Block>, lo: int, hi: int) {
    if bs == [] then lo == hi
    else
      && bs[0].addr == lo
      && bs[0].size >= MIN_ALLOC_SIZE
      && bs[0].size % 8 == 0
      && Tiles(bs[1..], bs[0].End(), hi)
  }

  lemma {:induction false} TilesConcat(a: seq<Block>, b: seq<Block>, lo: int, mid: int, hi: int)
    requires Tiles(a, lo, mid)
    ensures Tiles(b, mid, hi) <==> Tiles(a + b, lo, hi)
  {
    if a == [] {
      assert a + b == b;
    } else {
      assert (a + b)[1..] == a[1..] + b;
      TilesConcat(a[1..], b, a[0].End(), mid, hi);
    }
  }

  lemma TilesOne(b: Block)
    ensures b.size >= MIN_ALLOC_SIZE && b.size % 8 == 0 <==> Tiles([b], b.addr, b.End())
  {
    assert [b][1..] == [];
  }

  /** Cutting a tiling before block i cuts the interval at that block's address. */
  lemma {:induction false} TilesSplit(bs: seq<Block>, lo: int, hi: int, i: nat)
    requires Tiles(bs, lo, hi) && i <= |bs|
    ensures Tiles(bs[..i], lo, CutAt(bs, i, hi))
    ensures Tiles(bs[i..], CutAt(bs, i, hi), hi)
  {
    if i > 0 {
      TilesSplit(bs[1..], bs[0].End(), hi, i - 1);
      assert bs[..i][1..] == bs[1..][..i - 1];
      assert bs[i..] == bs[1..][i - 1..];
    }
  }

  function CutAt(bs: seq<Block>, i: nat, hi: int): int
    requires i <= |bs|
  {
    if i < |bs| then bs[i].addr else hi
  }

  /** What every single block of a tiling satisfies. */
  lemma {:induction false} TilesAt(bs: seq<Block>, lo: int, hi: int, i: nat)
    requires Tiles(bs, lo, hi) && i < |bs|
    ensures lo <= bs[i].addr && bs[i].End() <= hi
    ensures bs[i].size >= MIN_ALLOC_SIZE && bs[i].size % 8 == 0
    ensures i == 0 ==> bs[i].addr == lo
    ensures bs[i].End() == CutAt(bs, i + 1, hi)
    ensures lo % 8 == 0 ==> bs[i].addr % 8 == 0
  {
    if i > 0 {
      TilesAt(bs[1..], bs[0].End(), hi, i - 1);
    } else if |bs| > 1 {
      TilesAt(bs[1..], bs[0].End(), hi, 0);
    }
  }

  /** Later blocks start at or after the end of earlier ones. */
  lemma {:induction false} TilesOrdered(bs: seq<Block>, lo: int, hi: int, i: nat, j: nat)
    requires Tiles(bs, lo, hi) && i < j < |bs|
    ensures bs[i].End() <= bs[j].addr
  {
    if i > 0 {
      TilesOrdered(bs[1..], bs[0].End(), hi, i - 1, j - 1);
    } else {
      TilesAt(bs[1..], bs[0].End(), hi, j - 1);
    }
  }

  lemma TilesAll(bs: seq<Block>, lo: int, hi: int)
    requires Tiles(bs, lo, hi)
    ensures forall i | 0 <= i < |bs| ::
              && lo <= bs[i].addr && bs[i].End() <= hi
              && bs[i].size >= MIN_ALLOC_SIZE && bs[i].size % 8 == 0
              && (lo % 8 == 0 ==> bs[i].addr % 8 == 0)
    ensures forall i, j | 0 <= i < j < |bs| :: bs[i].End() <= bs[j].addr
  {
    forall i | 0 <= i < |bs|
      ensures lo <= bs[i].addr && bs[i].End() <= hi
      ensures bs[i].size >= MIN_ALLOC_SIZE && bs[i].size % 8 == 0
      ensures lo % 8 == 0 ==> bs[i].addr % 8 == 0
    {
      TilesAt(bs, lo, hi, i);
    }
    forall i, j | 0 <= i < j < |bs| ensures bs[i].End() <= bs[j].addr {
      TilesOrdered(bs, lo, hi, i, j);
    }
  }

  /** A tiling is determined by the sizes it meets: two tilings that agree on size at equal
      addresses are equal up to the used flags. */
  lemma {:induction false} TilesUnique(a: seq<Block>, b: seq<Block>, lo: int, hi: int)
    requires Tiles(a, lo, hi) && Tiles(b, lo, hi)
    requires forall x, y | x in a && y in b && x.addr == y.addr :: x.size == y.size
    ensures |a| == |b|
    ensures forall i | 0 <= i < |a| :: a[i].addr == b[i].addr && a[i].size == b[i].size
  {
    if a == [] {
      if b != [] { TilesAt(b, lo, hi, 0); }
    } else if b == [] {
      TilesAt(a, lo, hi, 0);
    } else {
      assert a[0] in a && b[0] in b;
      assert forall x | x in a[1..] :: x in a;
      assert forall y | y in b[1..] :: y in b;
      TilesUnique(a[1..], b[1..], a[0].End(), hi);
    }
  }

  // ---------------------------------------------------------------- replacing a stretch of blocks

  /** Replace the k blocks from index i on by `mid`. */
  function Splice(bs: seq<Block>, i: nat, k: nat, mid: seq<Block>): seq<Block>
    requires i + k <= |bs|
  {
    bs[..i] + mid + bs[i + k..]
  }

  lemma SpliceTiles(bs: seq<Block>, lo: int, hi: int, i: nat, k: nat, mid: seq<Block>)
    requires Tiles(bs, lo, hi) && i + k <= |bs|
    requires Tiles(mid, CutAt(bs, i, hi), CutAt(bs, i + k, hi))
    ensures Tiles(Splice(bs, i, k, mid), lo, hi)
  {
    hide Tiles;
    TilesSplit(bs, lo, hi, i);
    TilesSplit(bs, lo, hi, i + k);
    TilesConcat(bs[..i], mid, lo, CutAt(bs, i, hi), CutAt(bs, i + k, hi));
    TilesConcat(bs[..i] + mid, bs[i + k..], lo, CutAt(bs, i + k, hi), hi);
  }

  // ---------------------------------------------------------------- free and live blocks

  function FreeAddrs(bs: seq<Block>): set<int> {
    set b | b in bs && !b.used :: b.addr
  }

  /** The live allocations: payload address and size of every used block. */
  function Live(bs: seq<Block>): set<(int, int)> {
    set b | b in bs && b.used :: (b.Payload(), b.size)
  }

  predicate NoAdjacentFree(bs: seq<Block>) {
    forall i, j | 0 <= i < |bs| && j == i + 1 && j < |bs| :: bs[i].used || bs[j].used
  }

  predicate Distinct(s: seq<int>) {
    forall i, j | 0 <= i < j < |s| :: s[i] != s[j]
  }

  function Elems(s: seq<int>): set<int> {
    set a | a in s
  }

  /** The free list holds exactly the free blocks, once each. */
  predicate ListsFree(bs: seq<Block>, free: seq<int>) {
    && Distinct(free)
    && Elems(free) == FreeAddrs(bs)
  }

  /** Everything the allocator promises about its blocks and its free list. */
  predicate WellFormed(bs: seq<Block>, free: seq<int>, end: int) {
    && bs != []
    && Tiles(bs, HEAP_START, end)
    && end <= ADDRESS_LIMIT
    && NoAdjacentFree(bs)
    && ListsFree(bs, free)
  }

  lemma SpliceSets(bs: seq<Block>, i: nat, k: nat, mid: seq<Block>)
    requires i + k <= |bs|
    ensures FreeAddrs(Splice(bs, i, k, mid)) == FreeAddrs(bs[..i]) + FreeAddrs(mid) + FreeAddrs(bs[i + k..])
    ensures FreeAddrs(bs) == FreeAddrs(bs[..i]) + FreeAddrs(bs[i..i + k]) + FreeAddrs(bs[i + k..])
    ensures Live(Splice(bs, i, k, mid)) == Live(bs[..i]) + Live(mid) + Live(bs[i + k..])
    ensures Live(bs) == Live(bs[..i]) + Live(bs[i..i + k]) + Live(bs[i + k..])
  {
    hide FreeAddrs, Live;
    SetsOfConcat(bs[..i], mid);
    SetsOfConcat(bs[..i] + mid, bs[i + k..]);
    SetsOfConcat(bs[..i], bs[i..i + k]);
    SetsOfConcat(bs[..i] + bs[i..i + k], bs[i + k..]);
    assert bs == bs[..i] + bs[i..i + k] + bs[i + k..];
  }

  lemma SetsOfConcat(a: seq<Block>, b: seq<Block>)
    ensures FreeAddrs(a + b) == FreeAddrs(a) + FreeAddrs(b)
    ensures Live(a + b) == Live(a) + Live(b)
  {
    var f, l := FreeAddrs(a) + FreeAddrs(b), Live(a) + Live(b);
    forall x | x in f ensures x in FreeAddrs(a + b) {
      var c :| (c in a || c in b) && !c.used && c.addr == x;
      assert c in a + b;
    }
    forall x | x in l ensures x in Live(a + b) {
      var c :| (c in a || c in b) && c.used && (c.Payload(), c.size) == x;
      assert c in a + b;
    }
  }

  predicate AddressesApart(a: seq<Block>, b: seq<Block>) {
    forall c, d | c in a && d in b :: c.addr != d.addr
  }

  lemma ApartSets(a: seq<Block>, b: seq<Block>)
    requires AddressesApart(a, b)
    ensures FreeAddrs(a) !! FreeAddrs(b) && Live(a) !! Live(b)
  {
  }

  lemma PiecesApart(bs: seq<Block>, lo: int, hi: int, i: nat, k: nat)
    requires Tiles(bs, lo, hi) && i + k <= |bs|
    ensures AddressesApart(bs[..i], bs[i..i + k]) && AddressesApart(bs[i + k..], bs[i..i + k])
  {
    hide Tiles;
    forall c, d | c in bs[..i] && d in bs[i..i + k] ensures c.addr != d.addr {
      var x :| 0 <= x < i && bs[x] == c;
      var y :| i <= y < i + k && bs[y] == d;
      TilesAt(bs, lo, hi, x);
      TilesOrdered(bs, lo, hi, x, y);
    }
    forall c, d | c in bs[i + k..] && d in bs[i..i + k] ensures c.addr != d.addr {
      var x :| i + k <= x < |bs| && bs[x] == c;
      var y :| i <= y < i + k && bs[y] == d;
      TilesAt(bs, lo, hi, y);
      TilesOrdered(bs, lo, hi, y, x);
    }
  }

  /** A block's address identifies it, so replacing a stretch of blocks drops exactly the
      entries of that stretch and adds exactly those of its replacement. */
  lemma SpliceEntries(bs: seq<Block>, lo: int, hi: int, i: nat, k: nat, mid: seq<Block>)
    requires Tiles(bs, lo, hi) && i + k <= |bs|
    ensures FreeAddrs(Splice(bs, i, k, mid)) == FreeAddrs(bs) - FreeAddrs(bs[i..i + k]) + FreeAddrs(mid)
    ensures Live(Splice(bs, i, k, mid)) == Live(bs) - Live(bs[i..i + k]) + Live(mid)
  {
    hide Tiles, FreeAddrs, Live, AddressesApart, Splice;
    PiecesApart(bs, lo, hi, i, k);
    ApartSets(bs[..i], bs[i..i + k]);
    ApartSets(bs[i + k..], bs[i..i + k]);
    SpliceSets(bs, i, k, mid);
  }

  /** The list without its first occurrence of `a`. */
  function Without(s: seq<int>, a: int): seq<int> {
    if s == [] then [] else if s[0] == a then s[1..] else [s[0]] + Without(s[1..], a)
  }

  lemma {:induction false} WithoutAt(s: seq<int>, j: nat)
    requires Distinct(s) && j < |s|
    ensures Without(s, s[j]) == s[..j] + s[j + 1..]
  {
    if j > 0 {
      assert s[1..][j - 1] == s[j];
      WithoutAt(s[1..], j - 1);
    }
  }

  lemma WithoutSet(s: seq<int>, a: int)
    requires Distinct(s) && a in s
    ensures Distinct(Without(s, a))
    ensures Elems(Without(s, a)) == Elems(s) - {a}
  {
    hide Without, Elems, Distinct;
    var j :| 0 <= j < |s| && s[j] == a;
    WithoutAt(s, j);
    DropOne(s, j);
  }

  lemma DropOne(s: seq<int>, j: nat)
    requires Distinct(s) && j < |s|
    ensures var w := s[..j] + s[j + 1..]; Distinct(w) && Elems(w) == Elems(s) - {s[j]}
  {
    var w := s[..j] + s[j + 1..];
    assert forall k | 0 <= k < |w| :: w[k] == if k < j then s[k] else s[k + 1];
    forall x | x in s && x != s[j] ensures x in w {
      var k :| 0 <= k < |s| && s[k] == x;
      assert w[if k < j then k else k - 1] == x;
    }
  }

  // ---------------------------------------------------------------- allocation

  /** Use the front of a free block for `need` bytes; split off the rest when it can hold a block. */
  function TakeFront(b: Block, need: int): seq<Block> {
    if b.size - need >= MIN_BLOCK_SIZE then
      [Block(b.addr, need, true), Block(b.Payload() + need, b.size - need - BLOCK_HEADER_SIZE, false)]
    else
      [b.(used := true)]
  }

  function AllocBlocks(bs: seq<Block>, i: nat, need: int): seq<Block>
    requires i < |bs|
  {
    Splice(bs, i, 1, TakeFront(bs[i], need))
  }

  /** The free list after the same step: the remainder goes to the front, the block leaves. */
  function AllocFree(b: Block, need: int, free: seq<int>): seq<int> {
    (if b.size - need >= MIN_BLOCK_SIZE then [b.Payload() + need] else []) + Without(free, b.addr)
  }

  /** Allocating keeps the heap well formed and adds exactly one live payload. */
  lemma AllocKeepsWellFormed(bs: seq<Block>, free: seq<int>, end: int, i: nat, need: int)
    requires WellFormed(bs, free, end)
    requires i < |bs| && !bs[i].used
    requires MIN_ALLOC_SIZE <= need <= bs[i].size && need % 8 == 0
    ensures WellFormed(AllocBlocks(bs, i, need), AllocFree(bs[i], need, free), end)
    ensures var granted := AllocBlocks(bs, i, need)[i];
            && Live(AllocBlocks(bs, i, need)) == Live(bs) + {(granted.Payload(), granted.size)}
            && granted.addr == bs[i].addr && need <= granted.size && granted.used
  {
    hide Tiles, FreeAddrs, Live, ListsFree;
    var b, mid := bs[i], TakeFront(bs[i], need);
    TakeFrontTiles(bs, end, i, need);
    TakeFrontSets(b, need);
    SpliceEntries(bs, HEAP_START, end, i, 1, mid);
    assert bs[i..i + 1] == [b];
    AllocListsFree(bs, free, end, i, need);
    NoAdjacentSplice(bs, i, 1, mid);
  }

  lemma TakeFrontTiles(bs: seq<Block>, end: int, i: nat, need: int)
    requires Tiles(bs, HEAP_START, end) && i < |bs|
    requires MIN_ALLOC_SIZE <= need <= bs[i].size && need % 8 == 0
    ensures Tiles(AllocBlocks(bs, i, need), HEAP_START, end)
  {
    var b, mid := bs[i], TakeFront(bs[i], need);
    TilesAt(bs, HEAP_START, end, i);
    assert Tiles(mid[1..], mid[0].End(), b.End()) by {
      if |mid| == 2 { assert mid[1..][1..] == []; }
    }
    SpliceTiles(bs, HEAP_START, end, i, 1, mid);
  }

  lemma TakeFrontSets(b: Block, need: int)
    ensures var mid := TakeFront(b, need);
            && Live(mid) == {(mid[0].Payload(), mid[0].size)}
            && FreeAddrs(mid) == if |mid| == 2 then {mid[1].addr} else {}
    ensures !b.used ==> Live([b]) == {} && FreeAddrs([b]) == {b.addr}
  {
    var mid := TakeFront(b, need);
    assert mid[0] in mid;
    assert |mid| == 2 ==> mid[1] in mid;
    assert b in [b];
  }

  lemma AllocListsFree(bs: seq<Block>, free: seq<int>, end: int, i: nat, need: int)
    requires Tiles(bs, HEAP_START, end) && ListsFree(bs, free)
    requires i < |bs| && !bs[i].used
    requires MIN_ALLOC_SIZE <= need <= bs[i].size
    ensures ListsFree(AllocBlocks(bs, i, need), AllocFree(bs[i], need, free))
  {
    var b, mid := bs[i], TakeFront(bs[i], need);
    SpliceEntries(bs, HEAP_START, end, i, 1, mid);
    assert bs[i..i + 1] == [b];
    TakeFrontSets(b, need);
    FreeBlockListed(bs, free, i);
    WithoutSet(free, b.addr);
    if |mid| == 2 {
      InteriorAddress(bs, end, i, mid[1].addr);
      PushFront(Without(free, b.addr), mid[1].addr);
    }
  }

  lemma PushFront(s: seq<int>, a: int)
    requires Distinct(s) && a !in Elems(s)
    ensures Distinct([a] + s) && Elems([a] + s) == {a} + Elems(s)
  {
    assert a in [a] + s;
  }

  /** No two neighbours are free, inside the replacement or across its two seams. */
  lemma NoAdjacentSplice(bs: seq<Block>, i: nat, k: nat, mid: seq<Block>)
    requires NoAdjacentFree(bs) && i + k <= |bs|
    requires mid != [] && NoAdjacentFree(mid)
    requires i > 0 ==> bs[i - 1].used || mid[0].used
    requires i + k < |bs| ==> mid[|mid| - 1].used || bs[i + k].used
    ensures NoAdjacentFree(Splice(bs, i, k, mid))
  {
  }

  /** An address strictly inside a block is not the address of any block. */
  lemma InteriorAddress(bs: seq<Block>, end: int, i: nat, a: int)
    requires Tiles(bs, HEAP_START, end) && i < |bs| && bs[i].addr < a < bs[i].End()
    ensures forall c | c in bs :: c.addr != a
    ensures a !in FreeAddrs(bs)
  {
    TilesAll(bs, HEAP_START, end);
    forall c | c in bs ensures c.addr != a {
      var x :| 0 <= x < |bs| && bs[x] == c;
    }
  }

  lemma FreeBlockListed(bs: seq<Block>, free: seq<int>, i: nat)
    requires ListsFree(bs, free) && i < |bs| && !bs[i].used
    ensures bs[i].addr in free && bs[i].addr in FreeAddrs(bs)
  {
    assert bs[i] in bs;
    assert bs[i].addr in FreeAddrs(bs);
  }

  // ---------------------------------------------------------------- freeing

  /** First and one-past-last index of the blocks that merge when block i becomes free. */
  function MergeFrom(bs: seq<Block>, i: nat): nat
    requires i < |bs|
  {
    if i > 0 && !bs[i - 1].used then i - 1 else i
  }

  function MergeTo(bs: seq<Block>, i: nat): nat
    requires i < |bs|
  {
    if i + 1 < |bs| && !bs[i + 1].used then i + 2 else i + 1
  }

  function FreeBlocks(bs: seq<Block>, i: nat): seq<Block>
    requires i < |bs|
  {
    var from, to := MergeFrom(bs, i), MergeTo(bs, i);
    var merged := Block(bs[from].addr, bs[to - 1].End() - bs[from].Payload(), false);
    Splice(bs, from, to - from, [merged])
  }

  /** The free list after the same step: an absorbed successor leaves, and the block itself
      enters at the front unless its predecessor absorbs it. */
  function FreeFree(bs: seq<Block>, i: nat, free: seq<int>): seq<int>
    requires i < |bs|
  {
    var rest := if MergeTo(bs, i) == i + 2 then Without(free, bs[i + 1].addr) else free;
    if MergeFrom(bs, i) == i then [bs[i].addr] + rest else rest
  }

  /** Freeing keeps the heap well formed and removes exactly that one live payload. */
  lemma FreeKeepsWellFormed(bs: seq<Block>, free: seq<int>, end: int, i: nat)
    requires WellFormed(bs, free, end)
    requires i < |bs| && bs[i].used
    ensures WellFormed(FreeBlocks(bs, i), FreeFree(bs, i, free), end)
    ensures Live(FreeBlocks(bs, i)) == Live(bs) - {(bs[i].Payload(), bs[i].size)}
  {
    hide Tiles, ListsFree, FreeAddrs, Live;
    var from, to := MergeFrom(bs, i), MergeTo(bs, i);
    var merged := Block(bs[from].addr, bs[to - 1].End() - bs[from].Payload(), false);
    FreeTiles(bs, end, i);
    NoAdjacentSplice(bs, from, to - from, [merged]);
    SpliceEntries(bs, HEAP_START, end, from, to - from, [merged]);
    MergedSets(bs, i);
    SingleSets(merged);
    FreeListsFree(bs, free, end, i);
  }

  lemma FreeTiles(bs: seq<Block>, end: int, i: nat)
    requires Tiles(bs, HEAP_START, end) && i < |bs|
    ensures Tiles(FreeBlocks(bs, i), HEAP_START, end)
  {
    hide Tiles;
    var from, to := MergeFrom(bs, i), MergeTo(bs, i);
    TilesAt(bs, HEAP_START, end, from);
    TilesAt(bs, HEAP_START, end, i);
    TilesAt(bs, HEAP_START, end, to - 1);
    MultiplesOfEight(bs[to - 1].addr, bs[from].addr);
    MultiplesOfEight(bs[to - 1].addr - bs[from].addr, bs[to - 1].size);
    var merged := Block(bs[from].addr, bs[to - 1].End() - bs[from].Payload(), false);
    TilesOne(merged);
    SpliceTiles(bs, HEAP_START, end, from, to - from, [merged]);
  }

  /** What the merging blocks contribute: one live payload and the free neighbours. */
  lemma MergedSets(bs: seq<Block>, i: nat)
    requires i < |bs| && bs[i].used
    ensures var ms := bs[MergeFrom(bs, i)..MergeTo(bs, i)];
            && Live(ms) == {(bs[i].Payload(), bs[i].size)}
            && FreeAddrs(ms) == (if MergeFrom(bs, i) < i then {bs[i - 1].addr} else {})
                                + (if MergeTo(bs, i) == i + 2 then {bs[i + 1].addr} else {})
  {
    hide FreeAddrs, Live;
    var from, to := MergeFrom(bs, i), MergeTo(bs, i);
    var before, after := bs[from..i], bs[i + 1..to];
    SetsOfConcat(before, [bs[i]]);
    SetsOfConcat(before + [bs[i]], after);
    assert bs[from..to] == before + [bs[i]] + after;
    EmptySets();
    SingleSets(bs[i]);
    if from < i { SingleSets(bs[i - 1]); assert before == [bs[i - 1]]; } else { assert before == []; }
    if to == i + 2 { SingleSets(bs[i + 1]); assert after == [bs[i + 1]]; } else { assert after == []; }
  }

  lemma EmptySets()
    ensures FreeAddrs([]) == {} && Live([]) == {}
  {
  }

  lemma SingleSets(b: Block)
    ensures Live([b]) == if b.used then {(b.Payload(), b.size)} else {}
    ensures FreeAddrs([b]) == if b.used then {} else {b.addr}
  {
    assert b in [b];
  }

  /** Free addresses afterwards: an absorbed successor goes, the merged block is there. */
  lemma FreedAddrs(bs: seq<Block>, end: int, i: nat)
    requires Tiles(bs, HEAP_START, end) && i < |bs| && bs[i].used
    ensures FreeAddrs(FreeBlocks(bs, i)) == Absorbed(bs, i) + {bs[MergeFrom(bs, i)].addr}
  {
    hide Tiles, FreeAddrs, Live;
    var from, to := MergeFrom(bs, i), MergeTo(bs, i);
    var merged := Block(bs[from].addr, bs[to - 1].End() - bs[from].Payload(), false);
    SpliceEntries(bs, HEAP_START, end, from, to - from, [merged]);
    MergedSets(bs, i);
    SingleSets(merged);
    if from < i && to == i + 2 {
      TilesOrdered(bs, HEAP_START, end, i - 1, i + 1);
      TilesAt(bs, HEAP_START, end, i - 1);
    }
    PutBack(FreeAddrs(bs), if from < i then {bs[from].addr} else {},
            if to == i + 2 then {bs[i + 1].addr} else {}, {bs[from].addr});
  }

  lemma PutBack(all: set<int>, p: set<int>, n: set<int>, q: set<int>)
    requires p !! n && p <= q
    ensures all - (p + n) + q == all - n + q
  {
  }

  function Absorbed(bs: seq<Block>, i: nat): set<int>
    requires i < |bs|
  {
    FreeAddrs(bs) - if MergeTo(bs, i) == i + 2 then {bs[i + 1].addr} else {}
  }

  lemma FreeListsFree(bs: seq<Block>, free: seq<int>, end: int, i: nat)
    requires Tiles(bs, HEAP_START, end) && ListsFree(bs, free)
    requires i < |bs| && bs[i].used
    ensures ListsFree(FreeBlocks(bs, i), FreeFree(bs, i, free))
  {
    hide Tiles, FreeAddrs, Live, Elems, Distinct;
    var from, to := MergeFrom(bs, i), MergeTo(bs, i);
    FreedAddrs(bs, end, i);
    var rest := if to == i + 2 then Without(free, bs[i + 1].addr) else free;
    assert Distinct(rest) && Elems(rest) == Absorbed(bs, i) by {
      if to == i + 2 {
        FreeBlockListed(bs, free, i + 1);
        WithoutSet(free, bs[i + 1].addr);
      }
    }
    if from == i {
      UsedNotListed(bs, end, i);
      PushFront(rest, bs[i].addr);
    } else {
      FreeBlockListed(bs, free, i - 1);
      if to == i + 2 {
        TilesOrdered(bs, HEAP_START, end, i - 1, i + 1);
        TilesAt(bs, HEAP_START, end, i - 1);
      }
    }
  }

  lemma UsedNotListed(bs: seq<Block>, end: int, i: nat)
    requires Tiles(bs, HEAP_START, end) && i < |bs| && bs[i].used
    ensures bs[i].addr !in FreeAddrs(bs)
  {
    TilesAll(bs, HEAP_START, end);
    forall c | c in bs && !c.used ensures c.addr != bs[i].addr {
      var x :| 0 <= x < |bs| && bs[x] == c;
    }
  }

  // ---------------------------------------------------------------- growing

  /** Add `n` bytes at the end: to the last block when it is free, else as a new free block. */
  function GrowBlocks(bs: seq<Block>, end: int, n: int): seq<Block>
    requires bs != []
  {
    var last := bs[|bs| - 1];
    if last.used then bs + [Block(end, n - BLOCK_HEADER_SIZE, false)]
    else bs[..|bs| - 1] + [last.(size := last.size + n)]
  }

  function GrowFree(bs: seq<Block>, free: seq<int>, end: int): seq<int>
    requires bs != []
  {
    if bs[|bs| - 1].used then [end] + free else free
  }

  /** Growing keeps the heap well formed, up to the new end, and touches no live payload. */
  lemma GrowKeepsWellFormed(bs: seq<Block>, free: seq<int>, end: int, n: int)
    requires WellFormed(bs, free, end)
    requires n >= MIN_BLOCK_SIZE && n % 8 == 0 && end + n <= ADDRESS_LIMIT
    ensures WellFormed(GrowBlocks(bs, end, n), GrowFree(bs, free, end), end + n)
    ensures Live(GrowBlocks(bs, end, n)) == Live(bs)
  {
    hide Tiles, FreeAddrs, Live, Elems, Distinct;
    GrowTiles(bs, end, n);
    GrowSets(bs, end, n);
    if bs[|bs| - 1].used {
      EndNotListed(bs, end);
      PushFront(free, end);
    }
  }

  lemma GrowTiles(bs: seq<Block>, end: int, n: int)
    requires bs != [] && Tiles(bs, HEAP_START, end)
    requires n >= MIN_BLOCK_SIZE && n % 8 == 0
    ensures Tiles(GrowBlocks(bs, end, n), HEAP_START, end + n)
  {
    hide Tiles;
    var k := |bs| - 1;
    TilesAt(bs, HEAP_START, end, k);
    if bs[k].used {
      var added := Block(end, n - BLOCK_HEADER_SIZE, false);
      TilesOne(added);
      TilesConcat(bs, [added], HEAP_START, end, end + n);
    } else {
      var last := bs[k].(size := bs[k].size + n);
      TilesSplit(bs, HEAP_START, end, k);
      TilesOne(last);
      TilesConcat(bs[..k], [last], HEAP_START, last.addr, end + n);
    }
  }

  lemma GrowSets(bs: seq<Block>, end: int, n: int)
    requires bs != []
    ensures Live(GrowBlocks(bs, end, n)) == Live(bs)
    ensures FreeAddrs(GrowBlocks(bs, end, n)) == FreeAddrs(bs) + if bs[|bs| - 1].used then {end} else {}
  {
    var k := |bs| - 1;
    if bs[k].used {
      var added := Block(end, n - BLOCK_HEADER_SIZE, false);
      SingleSets(added);
      SetsOfConcat(bs, [added]);
    } else {
      var last := bs[k].(size := bs[k].size + n);
      assert bs == bs[..k] + [bs[k]];
      SingleSets(last);
      SingleSets(bs[k]);
      SetsOfConcat(bs[..k], [last]);
      SetsOfConcat(bs[..k], [bs[k]]);
    }
  }

  lemma EndNotListed(bs: seq<Block>, end: int)
    requires Tiles(bs, HEAP_START, end)
    ensures end !in FreeAddrs(bs)
  {
    TilesAll(bs, HEAP_START, end);
    forall c | c in bs ensures c.addr != end {
      var x :| 0 <= x < |bs| && bs[x] == c;
    }
  }

  // ---------------------------------------------------------------- over-aligned allocation

  /** Carve `need` bytes with their header at `h` out of the middle of a free block. */
  function Carve(b: Block, h: int, need: int): seq<Block> {
    var aligned := Block(h, need, true);
    [ Block(b.addr, h - b.Payload(), false),
      aligned,
      Block(aligned.End(), b.End() - aligned.End() - BLOCK_HEADER_SIZE, false) ]
  }

  /** Carving keeps the heap well formed when both free remainders can hold a block. */
  lemma CarveKeepsWellFormed(bs: seq<Block>, free: seq<int>, end: int, i: nat, h: int, need: int)
    requires WellFormed(bs, free, end) && i < |bs| && !bs[i].used
    requires h % 8 == 0 && h - bs[i].addr >= MIN_BLOCK_SIZE
    requires need % 8 == 0 && need >= MIN_ALLOC_SIZE
    requires bs[i].End() - (h + BLOCK_HEADER_SIZE + need) >= MIN_BLOCK_SIZE
    ensures WellFormed(Splice(bs, i, 1, Carve(bs[i], h, need)), [h + BLOCK_HEADER_SIZE + need] + free, end)
    ensures Live(Splice(bs, i, 1, Carve(bs[i], h, need))) == Live(bs) + {(h + BLOCK_HEADER_SIZE, need)}
  {
    hide Tiles, Live, Elems, Distinct;
    var b, mid := bs[i], Carve(bs[i], h, need);
    TilesAt(bs, HEAP_START, end, i);
    CarveTiles(b, h, need);
    SpliceTiles(bs, HEAP_START, end, i, 1, mid);
    SpliceEntries(bs, HEAP_START, end, i, 1, mid);
    assert bs[i..i + 1] == [b];
    SingleSets(b);
    CarveSets(b, h, need);
    NoAdjacentSplice(bs, i, 1, mid);
    InteriorAddress(bs, end, i, mid[2].addr);
    PushFront(free, mid[2].addr);
    assert bs[i] in bs && b.addr in FreeAddrs(bs);
  }

  lemma CarveTiles(b: Block, h: int, need: int)
    requires b.addr % 8 == 0 && b.size % 8 == 0
    requires h % 8 == 0 && h - b.addr >= MIN_BLOCK_SIZE
    requires need % 8 == 0 && need >= MIN_ALLOC_SIZE
    requires b.End() - (h + BLOCK_HEADER_SIZE + need) >= MIN_BLOCK_SIZE
    ensures Tiles(Carve(b, h, need), b.addr, b.End())
  {
    hide Tiles;
    var mid := Carve(b, h, need);
    MultiplesOfEight(h, b.addr);
    MultiplesOfEight(h - b.addr, BLOCK_HEADER_SIZE);
    MultiplesOfEight(b.addr, b.size);
    MultiplesOfEight(h, need);
    MultiplesOfEight(b.addr + b.size, h + need);
    MultiplesOfEight(b.addr + b.size - (h + need), BLOCK_HEADER_SIZE);
    TilesOne(mid[0]);
    TilesOne(mid[1]);
    TilesOne(mid[2]);
    TilesConcat([mid[0]], [mid[1]], b.addr, h, mid[2].addr);
    TilesConcat([mid[0]] + [mid[1]], [mid[2]], b.addr, mid[2].addr, b.End());
    assert mid == [mid[0]] + [mid[1]] + [mid[2]];
  }

  lemma CarveSets(b: Block, h: int, need: int)
    ensures Live(Carve(b, h, need)) == {(h + BLOCK_HEADER_SIZE, need)}
    ensures FreeAddrs(Carve(b, h, need)) == {b.addr, h + BLOCK_HEADER_SIZE + need}
  {
    var mid := Carve(b, h, need);
    SetsOfConcat([mid[0]], [mid[1]]);
    SetsOfConcat([mid[0]] + [mid[1]], [mid[2]]);
    assert mid == [mid[0]] + [mid[1]] + [mid[2]];
    SingleSets(mid[0]);
    SingleSets(mid[1]);
    SingleSets(mid[2]);
  }

  // ---------------------------------------------------------------- consequences

  lemma BlocksDisjoint(bs: seq<Block>, end: int, i: nat, j: nat)
    requires Tiles(bs, HEAP_START, end) && i < |bs| && j < |bs|
    ensures bs[i].addr % 8 == 0 && bs[i].size >= MIN_ALLOC_SIZE
    ensures HEAP_START <= bs[i].addr && bs[i].End() <= end
    ensures i != j ==> bs[i].End() <= bs[j].addr || bs[j].End() <= bs[i].addr
  {
    hide Tiles;
    TilesAt(bs, HEAP_START, end, i);
    if i < j { TilesOrdered(bs, HEAP_START, end, i, j); }
    if j < i { TilesOrdered(bs, HEAP_START, end, j, i); }
  }

  /** Live payloads are 8-aligned, inside the heap, and pairwise disjoint. */
  lemma LivePayloadsDisjoint(bs: seq<Block>, free: seq<int>, end: int, x: (int, int), y: (int, int))
    requires WellFormed(bs, free, end) && x in Live(bs) && y in Live(bs)
    ensures x.0 % 8 == 0 && x.1 >= MIN_ALLOC_SIZE && HEAP_START < x.0 && x.0 + x.1 <= end
    ensures x != y ==> x.0 + x.1 <= y.0 || y.0 + y.1 <= x.0
  {
    hide Tiles;
    var i :| 0 <= i < |bs| && bs[i].used && x == (bs[i].Payload(), bs[i].size);
    var j :| 0 <= j < |bs| && bs[j].used && y == (bs[j].Payload(), bs[j].size);
    BlocksDisjoint(bs, end, i, j);
  }

  /** A live payload overlaps no header and no free block. */
  lemma LivePayloadAvoidsHeaders(bs: seq<Block>, free: seq<int>, end: int, x: (int, int), c: Block)
    requires WellFormed(bs, free, end) && x in Live(bs) && c in bs
    ensures c.Payload() <= x.0 || x.0 + x.1 <= c.addr
    ensures !c.used ==> c.End() <= x.0 || x.0 + x.1 <= c.addr
  {
    hide Tiles;
    var i :| 0 <= i < |bs| && bs[i].used && x == (bs[i].Payload(), bs[i].size);
    var j :| 0 <= j < |bs| && bs[j] == c;
    BlocksDisjoint(bs, end, j, i);
  }

  /** With nothing live, coalescing has left one free block that spans the whole heap. */
  lemma NothingLiveIsOneBlock(bs: seq<Block>, free: seq<int>, end: int)
    requires WellFormed(bs, free, end) && Live(bs) == {}
    ensures bs == [Block(HEAP_START, end - HEAP_START - BLOCK_HEADER_SIZE, false)]
    ensures free == [HEAP_START]
  {
    hide Tiles;
    assert |bs| > 1 ==> bs[0].used || bs[1].used;
    assert forall b | b in bs :: b.used ==> (b.Payload(), b.size) in Live(bs);
    assert bs == [bs[0]];
    TilesAt(bs, HEAP_START, end, 0);
    SingleSets(bs[0]);
    OneElement(free, HEAP_START);
  }

  lemma OneElement(s: seq<int>, a: int)
    requires Distinct(s) && Elems(s) == {a}
    ensures s == [a]
  {
    assert |s| > 1 ==> s[0] != s[1];
    assert a in Elems(s);
    assert forall k | 0 <= k < |s| :: s[k] in Elems(s);
  }

  /** Bytes taken from a free block overlap no live payload. */
  lemma FreeRangeIsApart(bs: seq<Block>, free: seq<int>, end: int, i: nat, p: int, n: int)
    requires WellFormed(bs, free, end) && i < |bs| && !bs[i].used
    requires bs[i].addr <= p && 0 < n && p + n <= bs[i].End()
    ensures forall x | x in Live(bs) :: x.0 + x.1 <= p || p + n <= x.0
    ensures forall x | x in Live(bs) :: x.1 > 0 && x.0 != p
  {
    forall x | x in Live(bs) ensures (x.0 + x.1 <= p || p + n <= x.0) && x.1 > 0 && x.0 != p {
      LivePayloadsDisjoint(bs, free, end, x, x);
      assert bs[i] in bs;
      LivePayloadAvoidsHeaders(bs, free, end, x, bs[i]);
    }
  }
}
