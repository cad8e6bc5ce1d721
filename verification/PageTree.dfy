/**
 Sv39 page tables (section 4.4 of the RISC-V Privileged Architecture, version 1.12): a three-level
 radix tree held in frames of physical memory, walked by virt_to_phys and extended in place by
 map_range. The walk stops at a leaf; map_range follows any valid entry, a leaf as well as a pointer,
 so memory is modelled as a whole and not only where it holds tables.
 */
module PageTree {

  import opened Arithmetic
  import opened Common
  import opened PageTableEntry

  datatype PageSize = Size4K | Size2M | Size1G {
    function Bytes(): int {
      match this case Size4K => PAGE_SIZE case Size2M => MEGA_SIZE case Size1G => GIGA_SIZE
    }

    function Level(): int {
      match this case Size4K => 0 case Size2M => 1 case Size1G => 2
    }

    /** The offset that virt_to_phys keeps below a leaf of this size. For 1 GiB leaves it masks
        with 0x3fff, that is 14 bits instead of 30. */
    function OffsetRange(): int {
      match this case Size4K => PAGE_SIZE case Size2M => MEGA_SIZE case Size1G => 0x4000
    }
  }

  // ---------------------------------------------------------------- memory

  /** Physical memory by frame address and word number; words not listed are zero. */
  type Ram = map<(int, int), int>

  function Word(m: Ram, f: int, i: int): int { if (f, i) in m then m[(f, i)] else 0 }

  function Put(m: Ram, f: int, i: int, e: int): Ram { m[(f, i) := e] }

  /** `zero_page_table`. */
  function Cleared(m: Ram, n: int): Ram { map k | k in m && k.0 != n :: m[k] }

  /** The place of a table in the tree: the indices that lead to it. */
  datatype Place = Root | Mid(i2: int) | Low(i2: int, i1: int)

  /** Memory, the root frame, and where in the tree the table in each table frame belongs. */
  datatype Tree = Tree(ram: Ram, root: int, place: map<int, Place>)

  predicate Index(i: int) { 0 <= i < ENTRIES }

  predicate Frame(f: int) { 0 <= f < TWO_48 && f % PAGE_SIZE == 0 }

  function Child(p: Place, i: int): Place
    requires !p.Low?
  {
    if p.Root? then Mid(i) else Low(p.i2, i)
  }

  /** An entry that points to a table of the next level. */
  predicate Points(e: int) { IsValid(e) && !IsLeaf(e) }

  predicate LeafEntry(e: int) { IsValid(e) && IsLeaf(e) }

  /** A table above the lowest level. */
  predicate Upper(place: map<int, Place>, f: int) { f in place && !place[f].Low? }

  /** Every pointer above the lowest level leads to a table that belongs exactly there. Since a
      table has one place, no two pointers lead to the same table. */
  ghost predicate WellFormed(t: Tree) {
    && t.root in t.place && t.place[t.root] == Root
    && (forall f | f in t.place :: Frame(f))
    && forall f, i | Upper(t.place, f) && Index(i) && Points(Word(t.ram, f, i)) ::
         Addr(Word(t.ram, f, i)) in t.place && t.place[Addr(Word(t.ram, f, i))] == Child(t.place[f], i)
  }

  /** Free frames are frames, all different, and hold no tables. */
  predicate FramesFree(place: map<int, Place>, frames: seq<int>) {
    && (forall f | f in frames :: Frame(f) && f !in place)
    && forall x, y | 0 <= x < y < |frames| :: frames[x] != frames[y]
  }

  // ---------------------------------------------------------------- walking the tree

  datatype Hit = Hit(size: PageSize, entry: int)

  /** `virt_to_phys`, as far as the deciding entry. The lowest level does not look at the leaf bits. */
  function Walk(t: Tree, i2: int, i1: int, i0: int): Option<Hit> {
    var e2 := Word(t.ram, t.root, i2);
    if !IsValid(e2) then None
    else if IsLeaf(e2) then Some(Hit(Size1G, e2))
    else
      var e1 := Word(t.ram, Addr(e2), i1);
      if !IsValid(e1) then None
      else if IsLeaf(e1) then Some(Hit(Size2M, e1))
      else
        var e0 := Word(t.ram, Addr(e1), i0);
        if !IsValid(e0) then None else Some(Hit(Size4K, e0))
  }

  function Physical(h: Hit, va: int): int {
    var a, r := Addr(h.entry), h.size.OffsetRange();
    a - a % r + va % r
  }

  /** The page comes from the entry, the offset in it from the address. */
  lemma PhysicalParts(h: Hit, va: int)
    ensures Physical(h, va) / h.size.OffsetRange() == Addr(h.entry) / h.size.OffsetRange()
    ensures Physical(h, va) % h.size.OffsetRange() == va % h.size.OffsetRange()
  {
    hide Addr;
    var a, r := Addr(h.entry), h.size.OffsetRange();
    assert a - a % r == r * (a / r);
    QuotientRemainder(Physical(h, va), r, a / r, va % r);
  }

  function WalkTo(t: Tree, va: int): Option<Hit> { Walk(t, Vpn2(va), Vpn1(va), Vpn0(va)) }

  /** `virt_to_phys`. Only the low 39 bits of the address matter. */
  function VirtToPhys(t: Tree, va: int): Option<int> {
    match WalkTo(t, va)
    case None => None
    case Some(h) => Some(Physical(h, va))
  }

  /** No page larger than `size` translates the address. */
  predicate NoLarger(t: Tree, va: int, size: PageSize) {
    WalkTo(t, va).Some? ==> WalkTo(t, va).value.size.Level() <= size.Level()
  }

  /** The tables a walk meets. */
  lemma WalkTables(t: Tree, i2: int, i1: int)
    requires WellFormed(t) && Index(i2) && Index(i1)
    ensures var e2 := Word(t.ram, t.root, i2);
            Points(e2) ==>
              && Addr(e2) in t.place && t.place[Addr(e2)] == Mid(i2)
              && var e1 := Word(t.ram, Addr(e2), i1);
              (Points(e1) ==> Addr(e1) in t.place && t.place[Addr(e1)] == Low(i2, i1))
  {
    hide Addr, IsLeaf, IsValid, Word, Frame;
  }

  // ---------------------------------------------------------------- writing one entry

  function Write(t: Tree, f: int, i: int, e: int): Tree { t.(ram := Put(t.ram, f, i, e)) }

  lemma WordOfPut(m: Ram, f: int, i: int, e: int, g: int, j: int)
    ensures Word(Put(m, f, i, e), g, j) == if g == f && j == i then e else Word(m, g, j)
  {
  }

  lemma WordOfCleared(m: Ram, n: int, g: int, j: int)
    ensures Word(Cleared(m, n), g, j) == if g == n then 0 else Word(m, g, j)
  {
  }

  /** Any entry may change as long as it does not become a pointer to the wrong table. */
  lemma WriteWellFormed(t: Tree, f: int, i: int, e: int)
    requires WellFormed(t) && Index(i)
    requires Upper(t.place, f) && Points(e) ==> Addr(e) in t.place && t.place[Addr(e)] == Child(t.place[f], i)
    ensures WellFormed(Write(t, f, i, e))
  {
    hide Points, Frame, Addr, Word, Put;
    var n := Write(t, f, i, e);
    forall g, j | Upper(t.place, g) && Index(j) && Points(Word(n.ram, g, j))
      ensures Addr(Word(n.ram, g, j)) in t.place && t.place[Addr(Word(n.ram, g, j))] == Child(t.place[g], j)
    {
      WordOfPut(t.ram, f, i, e, g, j);
    }
  }

  /** The pointers for `va` lead to the table at f, at the level of `size`. */
  predicate LeadsTo(t: Tree, va: int, size: PageSize, f: int) {
    match size
    case Size1G => f == t.root
    case Size2M => Points(Word(t.ram, t.root, Vpn2(va))) && f == Addr(Word(t.ram, t.root, Vpn2(va)))
    case Size4K =>
      && Points(Word(t.ram, t.root, Vpn2(va)))
      && var e1 := Word(t.ram, Addr(Word(t.ram, t.root, Vpn2(va))), Vpn1(va));
      Points(e1) && f == Addr(e1)
  }

  function VpnAt(va: int, size: PageSize): int {
    match size case Size1G => Vpn2(va) case Size2M => Vpn1(va) case Size4K => Vpn0(va)
  }

  /** The two addresses lie in the same page of the given size, the 39-bit space taken as a ring. */
  predicate SamePage(size: PageSize, w: int, va: int) {
    && Vpn2(w) == Vpn2(va)
    && (size.Level() < 2 ==> Vpn1(w) == Vpn1(va))
    && (size.Level() < 1 ==> Vpn0(w) == Vpn0(va))
  }

  /** Writing the entry for a page changes the walks to that page and no others. */
  lemma WriteMaps(t: Tree, va: int, size: PageSize, f: int, e: int, w: int)
    requires WellFormed(t) && LeadsTo(t, va, size, f) && IsValid(e) && (size != Size4K ==> IsLeaf(e))
    ensures WalkTo(Write(t, f, VpnAt(va, size), e), w) == if SamePage(size, w, va) then Some(Hit(size, e)) else WalkTo(t, w)
  {
    VpnRange(va);
    VpnRange(w);
    hide Addr, IsLeaf, IsValid, Vpn2, Vpn1, Vpn0, Word, Put, Frame;
    WalkTables(t, Vpn2(va), Vpn1(va));
    WalkTables(t, Vpn2(w), Vpn1(w));
    WordsOfWrite(t, f, VpnAt(va, size), e);
  }

  lemma WordsOfWrite(t: Tree, f: int, i: int, e: int)
    ensures forall g, j :: Word(Write(t, f, i, e).ram, g, j) == if g == f && j == i then e else Word(t.ram, g, j)
  {
    hide Word, Put;
    forall g, j ensures Word(Write(t, f, i, e).ram, g, j) == if g == f && j == i then e else Word(t.ram, g, j) {
      WordOfPut(t.ram, f, i, e, g, j);
    }
  }

  // ---------------------------------------------------------------- adding a table

  /** `alloc_next_level`: frame n zeroed, and a pointer to it in word i of frame f. Only below a table
      above the lowest level does that make n a table. */
  function AddTable(t: Tree, f: int, i: int, n: int): Tree {
    Tree(Put(Cleared(t.ram, n), f, i, Pointer(n)), t.root, if Upper(t.place, f) then t.place[n := Child(t.place[f], i)] else t.place)
  }

  function Pointer(n: int): int { Entry(n, PageFlags(0, 0)) }

  lemma PointerEntry(n: int)
    requires Frame(n)
    ensures Points(Pointer(n)) && Addr(Pointer(n)) == n
  {
    EntryFields(n, PageFlags(0, 0));
    AddrRoundTrip(n, PageFlags(0, 0));
    hide Entry, Addr, IsLeaf, IsValid;
  }

  lemma ZeroIsInvalid()
    ensures !IsValid(0)
  {
  }

  lemma WordsOfAdd(t: Tree, f: int, i: int, n: int)
    ensures forall g, j :: Word(AddTable(t, f, i, n).ram, g, j)
                           == if g == f && j == i then Pointer(n) else if g == n then 0 else Word(t.ram, g, j)
  {
    hide Word, Put, Cleared, Pointer;
    forall g, j
      ensures Word(AddTable(t, f, i, n).ram, g, j)
              == if g == f && j == i then Pointer(n) else if g == n then 0 else Word(t.ram, g, j)
    {
      WordOfPut(Cleared(t.ram, n), f, i, Pointer(n), g, j);
      WordOfCleared(t.ram, n, g, j);
    }
  }

  lemma AddTableWellFormed(t: Tree, f: int, i: int, n: int)
    requires WellFormed(t) && Index(i) && Frame(n) && n !in t.place
    ensures WellFormed(AddTable(t, f, i, n))
  {
    PointerEntry(n);
    ZeroIsInvalid();
    WordsOfAdd(t, f, i, n);
    hide Addr, IsLeaf, IsValid, Frame, Word, Put, Cleared, Pointer;
  }

  /** A fresh table below an invalid entry changes no walk, unless the entry is one of the lowest level. */
  lemma AddTableKeepsWalks(t: Tree, f: int, i: int, n: int, w: int)
    requires WellFormed(t) && Index(i) && !IsValid(Word(t.ram, f, i)) && (f in t.place ==> Upper(t.place, f))
    requires Frame(n) && n !in t.place
    ensures WalkTo(AddTable(t, f, i, n), w) == WalkTo(t, w)
  {
    PointerEntry(n);
    ZeroIsInvalid();
    VpnRange(w);
    WordsOfAdd(t, f, i, n);
    hide Addr, IsLeaf, IsValid, Frame, Word, Put, Cleared, Pointer, Vpn2, Vpn1, Vpn0;
    WalkTables(t, Vpn2(w), Vpn1(w));
  }

  // ---------------------------------------------------------------- one turn of map_range

  /** Where a turn has got to: the tree, the free frames left, whether the frames sufficed, and the frame
      taken for the next table. */
  datatype Step = Step(tree: Tree, frames: seq<int>, ok: bool, frame: int)

  /** From word i of frame f to the next table: the frame a valid entry names, or a new table. */
  function Descend(t: Tree, frames: seq<int>, f: int, i: int): Step {
    var e := Word(t.ram, f, i);
    if IsValid(e) then Step(t, frames, true, Addr(e))
    else if frames == [] then Step(t, frames, false, 0)
    else Step(AddTable(t, f, i, frames[0]), frames[1..], true, frames[0])
  }

  /** The frame whose entry a turn sets. */
  function TableFor(t: Tree, frames: seq<int>, va: int, size: PageSize): Step {
    match size
    case Size1G => Step(t, frames, true, t.root)
    case Size2M => Descend(t, frames, t.root, Vpn2(va))
    case Size4K =>
      var s := Descend(t, frames, t.root, Vpn2(va));
      if s.ok then Descend(s.tree, s.frames, s.frame, Vpn1(va)) else s
  }

  function Turn(t: Tree, frames: seq<int>, va: int, size: PageSize, e: int): Step {
    var s := TableFor(t, frames, va, size);
    if s.ok then s.(tree := Write(s.tree, s.frame, VpnAt(va, size), e)) else s
  }

  /** Some frames have been handed out from the front. */
  predicate TakenFrom(before: seq<int>, after: seq<int>) {
    |after| <= |before| && after == before[|before| - |after|..]
  }

  /** Tables that were not there before lie in frames that were free. */
  predicate NewTablesFrom(before: map<int, Place>, after: map<int, Place>, frames: seq<int>) {
    forall f | f in after && f !in before :: f in frames
  }

  /** What every step keeps, whatever it takes for a table: `spent` frames at most are gone. */
  ghost predicate Kept(t: Tree, frames: seq<int>, s: Step, spent: int) {
    && WellFormed(s.tree) && FramesFree(s.tree.place, s.frames) && s.tree.root == t.root
    && TakenFrom(frames, s.frames) && |s.frames| + spent >= |frames| && (spent <= |frames| ==> s.ok)
    && NewTablesFrom(t.place, s.tree.place, frames)
  }

  lemma DescendKeeps(t: Tree, frames: seq<int>, f: int, i: int)
    requires WellFormed(t) && FramesFree(t.place, frames) && Index(i)
    ensures Kept(t, frames, Descend(t, frames, f, i), 1)
  {
    hide WellFormed, Frame, Word, IsValid, Addr, Put, Cleared, Pointer;
    if frames != [] {
      var n := frames[0];
      assert n in frames;
      AddTableWellFormed(t, f, i, n);
      FramesLeft(t.place, AddTable(t, f, i, n).place, frames);
    }
  }

  lemma FramesLeft(place: map<int, Place>, next: map<int, Place>, frames: seq<int>)
    requires FramesFree(place, frames) && frames != [] && forall f | f in next :: f in place || f == frames[0]
    ensures FramesFree(next, frames[1..]) && TakenFrom(frames, frames[1..])
  {
    hide Frame;
    var rest := frames[1..];
    assert forall x | 0 <= x < |rest| :: rest[x] == frames[x + 1];
    forall f | f in rest ensures Frame(f) && f !in next {
      assert f in frames && f != frames[0];
    }
  }

  lemma KeptChain(t: Tree, frames: seq<int>, s: Step, r: Step)
    requires Kept(t, frames, s, 1) && s.ok && Kept(s.tree, s.frames, r, 1)
    ensures Kept(t, frames, r, 2)
  {
    hide WellFormed, FramesFree;
  }

  lemma TableForKeeps(t: Tree, frames: seq<int>, va: int, size: PageSize)
    requires WellFormed(t) && FramesFree(t.place, frames)
    ensures Kept(t, frames, TableFor(t, frames, va, size), 2)
  {
    VpnRange(va);
    hide WellFormed, FramesFree, Descend, Vpn2, Vpn1, Vpn0;
    DescendKeeps(t, frames, t.root, Vpn2(va));
    var s := Descend(t, frames, t.root, Vpn2(va));
    if size == Size4K && s.ok {
      DescendKeeps(s.tree, s.frames, s.frame, Vpn1(va));
      KeptChain(t, frames, s, Descend(s.tree, s.frames, s.frame, Vpn1(va)));
    }
  }

  // ---------------------------------------------------------------- with no larger page in the way

  ghost predicate SameWalks(t: Tree, n: Tree) { forall w: int :: WalkTo(n, w) == WalkTo(t, w) }

  /** The step goes to a table that belongs where it was looked for, and translates as before. */
  lemma DescendInTree(t: Tree, frames: seq<int>, f: int, i: int)
    requires WellFormed(t) && FramesFree(t.place, frames) && Upper(t.place, f) && Index(i) && !LeafEntry(Word(t.ram, f, i))
    ensures var s := Descend(t, frames, f, i);
            && SameWalks(t, s.tree)
            && (s.ok ==> Points(Word(s.tree.ram, f, i)) && s.frame == Addr(Word(s.tree.ram, f, i))
                         && s.frame in s.tree.place && s.tree.place[s.frame] == Child(t.place[f], i))
            && forall g, j | g in t.place && (g != f || j != i) :: Word(s.tree.ram, g, j) == Word(t.ram, g, j)
  {
    hide Frame, Word, IsValid, IsLeaf, Addr, Pointer, WalkTo;
    if !IsValid(Word(t.ram, f, i)) && frames != [] {
      var n := frames[0];
      assert n in frames;
      PointerEntry(n);
      WordsOfAdd(t, f, i, n);
      forall w: int ensures WalkTo(AddTable(t, f, i, n), w) == WalkTo(t, w) {
        AddTableKeepsWalks(t, f, i, n, w);
      }
    }
  }

  /** With no larger page in the way, the entries above the leaf are invalid or pointers. */
  lemma LevelsOnTheWay(t: Tree, va: int, size: PageSize)
    requires WellFormed(t) && NoLarger(t, va, size)
    ensures var e2 := Word(t.ram, t.root, Vpn2(va));
            && (size != Size1G ==> !LeafEntry(e2))
            && (size == Size4K && Points(e2) ==> !LeafEntry(Word(t.ram, Addr(e2), Vpn1(va))))
  {
    hide Vpn2, Vpn1, Vpn0, IsValid, IsLeaf, Addr, Frame, Word;
  }

  lemma TableForInTree(t: Tree, frames: seq<int>, va: int, size: PageSize)
    requires WellFormed(t) && FramesFree(t.place, frames) && NoLarger(t, va, size)
    ensures var s := TableFor(t, frames, va, size);
            SameWalks(t, s.tree) && (s.ok ==> LeadsTo(s.tree, va, size, s.frame) && (size == Size4K ==> !Upper(s.tree.place, s.frame)))
  {
    VpnRange(va);
    LevelsOnTheWay(t, va, size);
    hide FramesFree, Descend, Vpn2, Vpn1, Vpn0, Frame, Word, IsValid, IsLeaf, Addr;
    if size != Size1G {
      DescendInTree(t, frames, t.root, Vpn2(va));
      DescendKeeps(t, frames, t.root, Vpn2(va));
      var s := Descend(t, frames, t.root, Vpn2(va));
      if size == Size4K && s.ok {
        assert NoLarger(s.tree, va, size);
        LevelsOnTheWay(s.tree, va, size);
        hide SameWalks, WellFormed;
        SecondDescent(t, s, va);
      }
    }
  }

  lemma SecondDescent(t: Tree, s: Step, va: int)
    requires WellFormed(s.tree) && FramesFree(s.tree.place, s.frames) && SameWalks(t, s.tree)
    requires Points(Word(s.tree.ram, s.tree.root, Vpn2(va))) && s.frame == Addr(Word(s.tree.ram, s.tree.root, Vpn2(va)))
    requires s.frame in s.tree.place && s.tree.place[s.frame] == Mid(Vpn2(va)) && !LeafEntry(Word(s.tree.ram, s.frame, Vpn1(va)))
    ensures var r := Descend(s.tree, s.frames, s.frame, Vpn1(va));
            SameWalks(t, r.tree) && (r.ok ==> LeadsTo(r.tree, va, Size4K, r.frame) && !Upper(r.tree.place, r.frame))
  {
    VpnRange(va);
    hide FramesFree, Descend, Vpn2, Vpn1, Vpn0, Frame, Word, IsValid, IsLeaf, Addr, WalkTo;
    DescendInTree(s.tree, s.frames, s.frame, Vpn1(va));
    DescendKeeps(s.tree, s.frames, s.frame, Vpn1(va));
  }

  /** Of the addresses in the page of `va`, those under no larger page now walk to entry e; all others
      as before. */
  ghost predicate PageMapped(t: Tree, n: Tree, va: int, size: PageSize, e: int) {
    forall w: int :: WalkTo(n, w) == if SamePage(size, w, va) && NoLarger(t, w, size) then Some(Hit(size, e)) else WalkTo(t, w)
  }

  /** All addresses of a page are under a larger page, or none. */
  lemma LargerCoversPage(t: Tree, va: int, w: int, size: PageSize)
    requires SamePage(size, w, va)
    ensures NoLarger(t, w, size) <==> NoLarger(t, va, size)
  {
    hide Vpn2, Vpn1, Vpn0, IsValid, IsLeaf, Addr, Word;
  }

  lemma TurnMaps(t: Tree, frames: seq<int>, va: int, size: PageSize, e: int)
    requires WellFormed(t) && FramesFree(t.place, frames) && NoLarger(t, va, size)
    requires IsValid(e) && (size != Size4K ==> IsLeaf(e))
    ensures var s := Turn(t, frames, va, size, e); s.ok ==> PageMapped(t, s.tree, va, size, e)
  {
    hide WellFormed, FramesFree, TableFor, WalkTo, SamePage, LeadsTo, IsValid, IsLeaf, Write, VpnAt;
    TableForKeeps(t, frames, va, size);
    TableForInTree(t, frames, va, size);
    var s := TableFor(t, frames, va, size);
    if s.ok {
      var n := Write(s.tree, s.frame, VpnAt(va, size), e);
      forall w: int
        ensures WalkTo(n, w) == if SamePage(size, w, va) && NoLarger(t, w, size) then Some(Hit(size, e)) else WalkTo(t, w)
      {
        WriteMaps(s.tree, va, size, s.frame, e, w);
        if SamePage(size, w, va) { LargerCoversPage(t, va, w, size); }
      }
    }
  }

  /** Nothing is written but tables and frames that were free. */
  ghost predicate SparesFrames(t: Tree, frames: seq<int>, n: Tree) {
    forall g: int, j: int | g !in t.place && g !in frames :: Word(n.ram, g, j) == Word(t.ram, g, j)
  }

  lemma DescendSpares(t: Tree, frames: seq<int>, f: int, i: int)
    requires f in t.place
    ensures SparesFrames(t, frames, Descend(t, frames, f, i).tree)
  {
    hide Word, IsValid, Addr, Put, Cleared, Pointer;
    if !IsValid(Word(t.ram, f, i)) && frames != [] {
      assert frames[0] in frames;
      WordsOfAdd(t, f, i, frames[0]);
    }
  }

  /** With no larger page in the way, a turn writes to tables and free frames only. */
  lemma TurnSpares(t: Tree, frames: seq<int>, va: int, size: PageSize, e: int)
    requires WellFormed(t) && FramesFree(t.place, frames) && NoLarger(t, va, size)
    ensures SparesFrames(t, frames, Turn(t, frames, va, size, e).tree)
  {
    hide FramesFree, Vpn2, Vpn1, Vpn0, Frame, Word, IsValid, IsLeaf, Addr, WalkTo, NoLarger, Put, Descend, SparesFrames;
    VpnRange(va);
    TableForSpares(t, frames, va, size);
    TableForKeeps(t, frames, va, size);
    TableForInTree(t, frames, va, size);
    var s := TableFor(t, frames, va, size);
    if s.ok {
      LeadsToTable(s.tree, va, size, s.frame);
      WriteSpares(t, frames, s, VpnAt(va, size), e);
    } else {
      assert Turn(t, frames, va, size, e) == s;
    }
  }

  lemma LeadsToTable(t: Tree, va: int, size: PageSize, f: int)
    requires WellFormed(t) && LeadsTo(t, va, size, f)
    ensures f in t.place
  {
    hide Vpn2, Vpn1, Vpn0, Frame, Word, IsValid, IsLeaf, Addr;
    VpnRange(va);
    WalkTables(t, Vpn2(va), Vpn1(va));
  }

  lemma WriteSpares(t: Tree, frames: seq<int>, s: Step, i: int, e: int)
    requires SparesFrames(t, frames, s.tree) && s.frame in s.tree.place && NewTablesFrom(t.place, s.tree.place, frames)
    ensures SparesFrames(t, frames, Write(s.tree, s.frame, i, e))
  {
    hide Word, Put;
    WordsOfWrite(s.tree, s.frame, i, e);
  }

  lemma TableForSpares(t: Tree, frames: seq<int>, va: int, size: PageSize)
    requires WellFormed(t) && FramesFree(t.place, frames) && NoLarger(t, va, size)
    ensures SparesFrames(t, frames, TableFor(t, frames, va, size).tree)
  {
    hide FramesFree, Vpn2, Vpn1, Vpn0, Frame, Word, IsValid, IsLeaf, Addr, WalkTo, Descend;
    VpnRange(va);
    DescendSpares(t, frames, t.root, Vpn2(va));
    DescendKeeps(t, frames, t.root, Vpn2(va));
    var s := Descend(t, frames, t.root, Vpn2(va));
    if size == Size4K && s.ok {
      LevelsOnTheWay(t, va, size);
      DescendInTree(t, frames, t.root, Vpn2(va));
      DescendSpares(s.tree, s.frames, s.frame, Vpn1(va));
    }
  }

  /** Zeroing a frame that holds no table. */
  lemma ClearedOutside(t: Tree, frames: seq<int>, n: int)
    requires WellFormed(t) && n !in t.place
    ensures var c := t.(ram := Cleared(t.ram, n));
            && WellFormed(c) && SameWalks(t, c) && (Isolated(t, frames) ==> Isolated(c, frames))
            && forall g: int, j: int :: Word(c.ram, g, j) == if g == n then 0 else Word(t.ram, g, j)
  {
    hide Frame, Word, IsValid, IsLeaf, Addr, Cleared, Vpn2, Vpn1, Vpn0;
    var c := t.(ram := Cleared(t.ram, n));
    forall g: int, j: int ensures Word(c.ram, g, j) == if g == n then 0 else Word(t.ram, g, j) {
      WordOfCleared(t.ram, n, g, j);
    }
    ZeroIsInvalid();
    forall w: int ensures WalkTo(c, w) == WalkTo(t, w) {
      VpnRange(w);
      WalkTables(t, Vpn2(w), Vpn1(w));
    }
  }

  /** A turn keeps the tree if its entry is a leaf, or no larger page is in the way. */
  lemma TurnKeeps(t: Tree, frames: seq<int>, va: int, size: PageSize, e: int)
    requires WellFormed(t) && FramesFree(t.place, frames) && IsValid(e) && (size != Size4K ==> IsLeaf(e))
    requires IsLeaf(e) || NoLarger(t, va, size)
    ensures Kept(t, frames, Turn(t, frames, va, size, e), 2)
  {
    VpnRange(va);
    hide WellFormed, FramesFree, TableFor, WalkTo, LeadsTo, IsValid, IsLeaf, Write, SameWalks, Vpn2, Vpn1, Vpn0, NoLarger;
    TableForKeeps(t, frames, va, size);
    var s := TableFor(t, frames, va, size);
    if s.ok {
      if !IsLeaf(e) { TableForInTree(t, frames, va, size); }
      WriteWellFormed(s.tree, s.frame, VpnAt(va, size), e);
      SameFrames(t, frames, s, VpnAt(va, size), e);
    }
  }

  lemma SameFrames(t: Tree, frames: seq<int>, s: Step, i: int, e: int)
    requires Kept(t, frames, s, 2) && WellFormed(Write(s.tree, s.frame, i, e))
    ensures Kept(t, frames, s.(tree := Write(s.tree, s.frame, i, e)), 2)
  {
    hide WellFormed;
  }

  // ---------------------------------------------------------------- under a larger page

  /** No walk has come to a smaller page. */
  ghost predicate NoneSmaller(t: Tree, n: Tree) {
    forall w: int | WalkTo(t, w).Some? :: WalkTo(n, w).Some? && WalkTo(t, w).value.size.Level() <= WalkTo(n, w).value.size.Level()
  }

  lemma NoneSmallerChain(t: Tree, m: Tree, n: Tree)
    requires NoneSmaller(t, m) && NoneSmaller(m, n)
    ensures NoneSmaller(t, n)
  {
    hide WalkTo;
  }

  /** A leaf written anywhere in memory, into a table or not, stops walks at its own level or a higher one. */
  lemma WriteNoneSmaller(t: Tree, f: int, i: int, e: int)
    requires WellFormed(t) && LeafEntry(e)
    ensures NoneSmaller(t, Write(t, f, i, e))
  {
    WordsOfWrite(t, f, i, e);
    hide Addr, IsLeaf, IsValid, Vpn2, Vpn1, Vpn0, Word, Put, Frame;
  }

  lemma DescendNoneSmaller(t: Tree, frames: seq<int>, f: int, i: int)
    requires WellFormed(t) && FramesFree(t.place, frames)
    ensures NoneSmaller(t, Descend(t, frames, f, i).tree)
  {
    hide Addr, IsLeaf, IsValid, Vpn2, Vpn1, Vpn0, Word, Put, Cleared, Pointer, Frame;
    if !IsValid(Word(t.ram, f, i)) && frames != [] {
      var n := frames[0];
      assert n in frames;
      WordsOfAdd(t, f, i, n);
      forall w: int | WalkTo(t, w).Some? ensures WalkTo(AddTable(t, f, i, n), w) == WalkTo(t, w) {
        VpnRange(w);
        WalkTables(t, Vpn2(w), Vpn1(w));
      }
    }
  }

  /** So does a whole turn, whatever frames it takes for tables. */
  lemma TurnNoneSmaller(t: Tree, frames: seq<int>, va: int, size: PageSize, e: int)
    requires WellFormed(t) && FramesFree(t.place, frames) && LeafEntry(e)
    ensures NoneSmaller(t, Turn(t, frames, va, size, e).tree)
  {
    VpnRange(va);
    hide WellFormed, FramesFree, Descend, NoneSmaller, Vpn2, Vpn1, Vpn0, IsLeaf, IsValid, Write;
    assert NoneSmaller(t, t) by { SelfNotSmaller(t); }
    DescendKeeps(t, frames, t.root, Vpn2(va));
    DescendNoneSmaller(t, frames, t.root, Vpn2(va));
    var s := Descend(t, frames, t.root, Vpn2(va));
    if size == Size4K && s.ok {
      DescendNoneSmaller(s.tree, s.frames, s.frame, Vpn1(va));
      NoneSmallerChain(t, s.tree, Descend(s.tree, s.frames, s.frame, Vpn1(va)).tree);
    }
    TableForKeeps(t, frames, va, size);
    var r := TableFor(t, frames, va, size);
    WriteNoneSmaller(r.tree, r.frame, VpnAt(va, size), e);
    NoneSmallerChain(t, r.tree, Write(r.tree, r.frame, VpnAt(va, size), e));
  }

  lemma SelfNotSmaller(t: Tree)
    ensures NoneSmaller(t, t)
  {
  }

  /** A turn gives its page the new entry if and only if no larger page covers it. This holds whatever
      lies in the frames that a leaf leads to: data, free memory, or the tables themselves. */
  lemma TurnMapsIff(t: Tree, frames: seq<int>, va: int, size: PageSize, e: int)
    requires WellFormed(t) && FramesFree(t.place, frames) && LeafEntry(e) && Turn(t, frames, va, size, e).ok
    ensures WalkTo(Turn(t, frames, va, size, e).tree, va) == Some(Hit(size, e)) <==> NoLarger(t, va, size)
  {
    hide WellFormed, FramesFree, Turn, WalkTo, IsLeaf, IsValid;
    if NoLarger(t, va, size) {
      TurnMaps(t, frames, va, size, e);
      var n := Turn(t, frames, va, size, e).tree;
      assert WalkTo(n, va) == if SamePage(size, va, va) && NoLarger(t, va, size) then Some(Hit(size, e)) else WalkTo(t, va);
    } else {
      TurnNoneSmaller(t, frames, va, size, e);
    }
  }

  // ---------------------------------------------------------------- tables that only pointers name

  /** The entry names neither a table nor a free frame. */
  predicate Outside(e: int, place: map<int, Place>, frames: seq<int>) { Addr(e) !in place && Addr(e) !in frames }

  /** Only pointers in tables name tables: no leaf, and no word of other memory read as an entry, does. */
  ghost predicate Isolated(t: Tree, frames: seq<int>) {
    forall f, i | IsValid(Word(t.ram, f, i)) && !(Upper(t.place, f) && Points(Word(t.ram, f, i))) ::
      Outside(Word(t.ram, f, i), t.place, frames)
  }

  lemma DescendIsolated(t: Tree, frames: seq<int>, f: int, i: int)
    requires FramesFree(t.place, frames) && Isolated(t, frames)
    ensures Isolated(Descend(t, frames, f, i).tree, Descend(t, frames, f, i).frames)
  {
    hide Frame, Word, IsValid, IsLeaf, Addr, Put, Cleared, Pointer;
    if !IsValid(Word(t.ram, f, i)) && frames != [] {
      var n := frames[0];
      assert n in frames && forall x | x in frames[1..] :: x in frames && x != n;
      ZeroIsInvalid();
      PointerEntry(n);
      WordsOfAdd(t, f, i, n);
    }
  }

  lemma WriteIsolated(t: Tree, frames: seq<int>, f: int, i: int, e: int)
    requires Isolated(t, frames) && Outside(e, t.place, frames)
    ensures Isolated(Write(t, f, i, e), frames)
  {
    WordsOfWrite(t, f, i, e);
    hide Word, IsValid, IsLeaf, Addr, Put;
  }

  lemma StillOutside(e: int, t: Tree, frames: seq<int>, s: Step, spent: int)
    requires Outside(e, t.place, frames) && Kept(t, frames, s, spent)
    ensures Outside(e, s.tree.place, s.frames)
  {
    hide Addr, WellFormed, FramesFree;
  }

  lemma TurnIsolated(t: Tree, frames: seq<int>, va: int, size: PageSize, e: int)
    requires WellFormed(t) && FramesFree(t.place, frames) && Isolated(t, frames) && Outside(e, t.place, frames)
    ensures Isolated(Turn(t, frames, va, size, e).tree, Turn(t, frames, va, size, e).frames)
  {
    VpnRange(va);
    hide WellFormed, FramesFree, Descend, Isolated, Outside, Vpn2, Vpn1, Vpn0, Write;
    DescendKeeps(t, frames, t.root, Vpn2(va));
    DescendIsolated(t, frames, t.root, Vpn2(va));
    var s := Descend(t, frames, t.root, Vpn2(va));
    if size == Size4K && s.ok { DescendIsolated(s.tree, s.frames, s.frame, Vpn1(va)); }
    TableForKeeps(t, frames, va, size);
    var r := TableFor(t, frames, va, size);
    StillOutside(e, t, frames, r, 2);
    WriteIsolated(r.tree, r.frames, r.frame, VpnAt(va, size), e);
  }

  /** What is written outside the tables no walk reads. */
  lemma WriteElsewhere(t: Tree, f: int, i: int, e: int)
    requires WellFormed(t) && f !in t.place
    ensures SameWalks(t, Write(t, f, i, e))
  {
    WordsOfWrite(t, f, i, e);
    hide Addr, IsLeaf, IsValid, Vpn2, Vpn1, Vpn0, Word, Put, Frame;
    forall w: int ensures WalkTo(Write(t, f, i, e), w) == WalkTo(t, w) {
      VpnRange(w);
      WalkTables(t, Vpn2(w), Vpn1(w));
    }
  }

  /** Following a leaf, or a word of other memory, leads to no table and changes no walk. */
  lemma DescendElsewhere(t: Tree, frames: seq<int>, f: int, i: int)
    requires WellFormed(t) && FramesFree(t.place, frames) && Isolated(t, frames) && Index(i)
    requires f !in t.place || LeafEntry(Word(t.ram, f, i))
    ensures var s := Descend(t, frames, f, i); SameWalks(t, s.tree) && (s.ok ==> s.frame !in s.tree.place)
  {
    hide Frame, Word, IsValid, IsLeaf, Addr, Pointer, WalkTo;
    if !IsValid(Word(t.ram, f, i)) && frames != [] {
      var n := frames[0];
      assert n in frames;
      forall w: int ensures WalkTo(AddTable(t, f, i, n), w) == WalkTo(t, w) {
        AddTableKeepsWalks(t, f, i, n, w);
      }
    }
  }

  /** Where a larger page is in the way, there is a leaf on the way. */
  lemma LeafOnTheWay(t: Tree, va: int, size: PageSize)
    requires WellFormed(t) && !NoLarger(t, va, size)
    ensures var e2 := Word(t.ram, t.root, Vpn2(va));
            && size != Size1G
            && (LeafEntry(e2) || (size == Size4K && Points(e2) && LeafEntry(Word(t.ram, Addr(e2), Vpn1(va)))))
  {
    hide Vpn2, Vpn1, Vpn0, IsValid, IsLeaf, Addr, Frame, Word;
  }

  lemma TableForElsewhere(t: Tree, frames: seq<int>, va: int, size: PageSize)
    requires WellFormed(t) && FramesFree(t.place, frames) && Isolated(t, frames) && !NoLarger(t, va, size)
    ensures var s := TableFor(t, frames, va, size); SameWalks(t, s.tree) && (s.ok ==> s.frame !in s.tree.place)
  {
    VpnRange(va);
    LeafOnTheWay(t, va, size);
    hide WellFormed, FramesFree, Vpn2, Vpn1, Vpn0, Word, IsValid, IsLeaf, Addr, AddTable, WalkTo, Isolated, SameWalks;
    var e2 := Word(t.ram, t.root, Vpn2(va));
    assert Descend(t, frames, t.root, Vpn2(va)) == Step(t, frames, true, Addr(e2));
    if LeafEntry(e2) {
      DescendElsewhere(t, frames, t.root, Vpn2(va));
    }
    if size == Size4K {
      DescendElsewhere(t, frames, Addr(e2), Vpn1(va));
    }
  }

  /** Then the turn writes outside the tables, and every address translates as before. */
  lemma TurnLeavesAll(t: Tree, frames: seq<int>, va: int, size: PageSize, e: int)
    requires WellFormed(t) && FramesFree(t.place, frames) && Isolated(t, frames) && !NoLarger(t, va, size)
    ensures SameWalks(t, Turn(t, frames, va, size, e).tree)
  {
    hide WellFormed, FramesFree, TableFor, VpnAt, Write, WalkTo, Isolated, NoLarger;
    TableForKeeps(t, frames, va, size);
    TableForElsewhere(t, frames, va, size);
    var r := TableFor(t, frames, va, size);
    if r.ok {
      WriteElsewhere(r.tree, r.frame, VpnAt(va, size), e);
    }
  }

  /** One turn in full: its page where no larger page covers it, and nothing else. */
  lemma TurnMapsOnly(t: Tree, frames: seq<int>, va: int, size: PageSize, e: int)
    requires WellFormed(t) && FramesFree(t.place, frames) && (NoLarger(t, va, size) || Isolated(t, frames))
    requires IsValid(e) && (size != Size4K ==> IsLeaf(e))
    ensures var s := Turn(t, frames, va, size, e); s.ok ==> PageMapped(t, s.tree, va, size, e)
  {
    hide WellFormed, FramesFree, Turn, WalkTo, SamePage, IsValid, IsLeaf, Isolated;
    if NoLarger(t, va, size) {
      TurnMaps(t, frames, va, size, e);
    } else {
      TurnLeavesAll(t, frames, va, size, e);
      forall w: int | SamePage(size, w, va) ensures !NoLarger(t, w, size) {
        LargerCoversPage(t, va, w, size);
      }
    }
  }

  /** A root table whose only entry is a 1 GiB page at 2 GiB. */
  function GigaTree(): Tree { Tree(map[(0x1000, 0) := GigaLeaf()], 0x1000, map[0x1000 := Root]) }

  function GigaLeaf(): int { Entry(0x8000_0000, PageFlags(7, 0)) }

  lemma GigaTreeIs()
    ensures WellFormed(GigaTree()) && LeafEntry(GigaLeaf()) && Addr(GigaLeaf()) == 0x8000_0000
    ensures forall f, i :: Word(GigaTree().ram, f, i) == if f == 0x1000 && i == 0 then GigaLeaf() else 0
  {
    EntryFields(0x8000_0000, PageFlags(7, 0));
    ZeroIsInvalid();
    hide Entry, Addr, IsValid, IsLeaf;
  }

  /** A 4 KiB page mapped there at address 0 leaves the 1 GiB page in charge. */
  lemma LargerPageWins(n: int, m: int, e: int)
    requires Frame(n) && Frame(m) && n != m && n != 0x1000 && m != 0x1000
    ensures var s := Turn(GigaTree(), [n, m], 0, Size4K, e);
            && FramesFree(GigaTree().place, [n, m]) && s.ok
            && WalkTo(s.tree, 0) == WalkTo(GigaTree(), 0) == Some(Hit(Size1G, GigaLeaf()))
  {
    var t := GigaTree();
    GigaTreeIs();
    ZeroIsInvalid();
    assert Vpn2(0) == Vpn1(0) == Vpn0(0) == 0;
    assert FramesFree(t.place, [n, m]);
    hide GigaTree, GigaLeaf, WellFormed, Word, Put, Cleared, IsValid, IsLeaf, Addr, Vpn2, Vpn1, Vpn0, Frame, FramesFree;
    var mid := 0x8000_0000;
    WordsOfAdd(t, mid, 0, n);
    WordsOfWrite(AddTable(t, mid, 0, n), n, 0, e);
  }
}
