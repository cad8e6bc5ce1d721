/**
 The page mapper as written. `MapRange` is proved to act on the translation of every address as an
 update of a flat map, except under larger pages, which it can not replace.
 */
module PageMapper {

  import opened Arithmetic
  import opened Common
  import opened PageTableEntry
  import opened PageTree

  lemma SamePageIsWindow(size: PageSize, w: int, start: int, o: int)
    requires 0 <= w && 0 <= start && start % size.Bytes() == 0 && o % size.Bytes() == 0
    requires 0 <= o && o + size.Bytes() <= VA_SIZE
    ensures SamePage(size, w, start + o) <==> o <= Distance(w, start) < o + size.Bytes()
    ensures o <= Distance(w, start) < o + size.Bytes() ==> Distance(w, start) == o + w % size.Bytes()
  {
    hide Distance;
    SamePageNumber(w, start + o);
    match size
    case Size4K => Window(PAGE_SIZE, 0x800_0000, w, start, o);
    case Size2M => Window(MEGA_SIZE, 0x4_0000, w, start, o);
    case Size1G => Window(GIGA_SIZE, 512, w, start, o);
  }

  // ---------------------------------------------------------------- the mapper as written

  class Mapper {
    const root: int
    var ram: Ram
    var frames: seq<int>           // what the page allocator will hand out, in order
    ghost var place: map<int, Place>

    ghost function View(): Tree
      reads this
    {
      Tree(ram, root, place)
    }

    ghost predicate Valid()
      reads this
    {
      WellFormed(View()) && FramesFree(place, frames)
    }

    /** `PageMapper::new`: an empty root table in the first free frame. */
    constructor (memory: Ram, free: seq<int>)
      requires free != [] && FramesFree(map[], free)
      ensures Valid() && root == free[0] && frames == free[1..]
      ensures forall va: int | 0 <= va :: VirtToPhys(View(), va).None?
    {
      root := free[0];
      ram := Cleared(memory, free[0]);
      place := map[free[0] := Root];
      frames := free[1..];
      EmptyTree(memory, free);
    }

    /** The frame that word i of frame f leads to, a new table when that word is no valid entry. */
    method NextTable(f: int, i: int) returns (ok: bool, n: int)
      requires Valid() && Index(i)
      modifies this
      ensures Step(View(), frames, ok, n) == old(Descend(View(), frames, f, i))
      ensures Kept(old(View()), old(frames), Step(View(), frames, ok, n), 1)
    {
      DescendKeeps(View(), frames, f, i);
      hide WellFormed, FramesFree, Kept, Word, IsValid, Addr, Entry, Put, Cleared;
      var e := Word(ram, f, i);
      if IsValid(e) {
        return true, Addr(e);
      }
      if frames == [] {
        return false, 0;
      }
      n := frames[0];
      frames := frames[1..];
      ram := Cleared(ram, n);
      ram := Put(ram, f, i, Entry(n, PageFlags(0, 0)));
      place := if Upper(place, f) then place[n := Child(place[f], i)] else place;
      ok := true;
    }

    /** One turn of the loop in `map_range`. On a false result the page allocator was empty, and
        the kernel has panicked. */
    method MapPage(va: int, phys: int, flags: PageFlags, size: PageSize) returns (ok: bool, ghost table: int)
      requires Valid() && 0 <= va && 0 <= phys && flags.Ok()
      requires flags.Leaf() || (size == Size4K && NoLarger(View(), va, size))
      modifies this
      ensures Turned(old(View()), old(frames), va, size, Entry(phys, flags), Step(View(), frames, ok, table))
    {
      VpnRange(va);
      hide WellFormed, FramesFree, Descend, TakenFrom, NewTablesFrom, NoLarger, Entry, Put, Vpn2, Vpn1, Vpn0, Turned;
      ghost var t, f := View(), frames;
      EntryTurned(t, f, va, size, phys, flags);
      var next := root;
      ok := true;
      if size != Size1G {
        ok, next := NextTable(next, Vpn2(va));
      }
      if ok && size == Size4K {
        ok, next := NextTable(next, Vpn1(va));
      }
      table := next;
      if !ok { return; }
      ram := Put(ram, next, VpnAt(va, size), Entry(phys, flags));
    }

    /** `map_range`: the flat map of translations is updated on the range, where no larger page covers
        it, and nowhere else. Under a larger page the range never gets its new translations. */
    method MapRange(virtStart: int, physStart: int, end: int, flags: PageFlags, size: PageSize) returns (ok: bool)
      requires Valid() && 0 <= virtStart <= end && end - virtStart <= VA_SIZE && 0 <= physStart
      requires virtStart % size.Bytes() == 0 && physStart % size.Bytes() == 0 && end % size.Bytes() == 0
      requires physStart + (end - virtStart) <= TWO_48 && flags.Ok()
      requires flags.Leaf() || (size == Size4K && NoneLarger(View(), virtStart, end - virtStart, size))
      modifies this
      ensures Valid() && TakenFrom(old(frames), frames)
      ensures ok && (old(NoneLarger(View(), virtStart, end - virtStart, size))
                     || (old(Isolated(View(), frames)) && PagesOutside(old(place), old(frames), physStart, end - virtStart, size))) ==>
                forall w: int | 0 <= w ::
                  VirtToPhys(View(), w) == if Distance(w, virtStart) < end - virtStart && NoLarger(old(View()), w, size)
                                           then Some(Target(size, physStart, Distance(w, virtStart)))
                                           else VirtToPhys(old(View()), w)
      ensures ok && (old(NoneLarger(View(), virtStart, end - virtStart, size))
                     || (old(Isolated(View(), frames)) && PagesOutside(old(place), old(frames), physStart, end - virtStart, size))) ==>
                Flagged(old(View()), View(), virtStart, end - virtStart, size, flags)
      ensures flags.Leaf() ==> forall w: int | !NoLarger(old(View()), w, size) :: !NoLarger(View(), w, size)
      ensures |old(frames)| >= 2 * ((end - virtStart) / size.Bytes()) ==> ok
    {
      hide WellFormed, FramesFree, Isolated, Turned, NoLarger, NoneLarger, WalkTo, Distance, Entry, PagesOutside, RangeInv, Flagged;
      assert Whole(virtStart, size) && Whole(physStart, size);
      ghost var t0, f0 := View(), frames;
      ghost var r := Range(virtStart, physStart, end - virtStart, flags, size);
      var step := size.Bytes();
      var offset := 0;
      var len := end - virtStart;
      RangeIsWhole(virtStart, end, size);
      RangeBegins(t0, f0, r);
      while offset < len
        invariant 0 <= offset <= len && Whole(offset, size)
        invariant RangeInv(t0, f0, View(), frames, r, offset)
        decreases len - offset
      {
        var virt := virtStart + offset;
        var phys := physStart + offset;
        ghost var t, f := View(), frames;
        ghost var table;
        RangeNext(t0, f0, t, f, r, offset);
        ok, table := MapPage(virt, phys, flags, size);
        if !ok {
          RangeFails(t0, f0, t, f, r, offset, Step(View(), frames, ok, table));
          return;
        }
        RangeGrows(t0, f0, t, f, r, offset, Step(View(), frames, ok, table));
        offset := offset + step;
      }
      ok := true;
      RangeEnds(t0, f0, View(), frames, r);
    }

    /** `allocate_and_map_pages`: every page of the range that no larger page covers is backed by a frame
        of its own, zeroed on request. The frames used hold no tables and are no longer free. */
    method AllocateAndMapPages(virt: int, size: nat, flags: PageFlags, zero: bool) returns (ok: bool, ghost pages: seq<int>)
      requires Valid() && 0 <= virt && virt % PAGE_SIZE == 0 && size <= VA_SIZE && flags.Ok()
      requires flags.Leaf() || NoneLarger(View(), virt, size, Size4K)
      modifies this
      ensures Valid() && TakenFrom(old(frames), frames)
      ensures ok ==> |pages| == size / PAGE_SIZE && OwnFrames(pages, old(frames), place, frames)
      ensures ok && (old(NoneLarger(View(), virt, size, Size4K)) || old(Isolated(View(), frames))) ==>
                && Leads(old(View()), View(), virt, pages)
                && Flagged(old(View()), View(), virt, |pages| * PAGE_SIZE, Size4K, flags)
                && forall w: int | 0 <= w && NoLarger(old(View()), w, Size4K) :: NoLarger(View(), w, Size4K)
      ensures NewTablesFrom(old(place), place, old(frames))
      ensures ok && zero && old(NoneLarger(View(), virt, size, Size4K)) ==> AllZero(ram, pages)
      ensures old(NoneLarger(View(), virt, size, Size4K)) ==> SparesFrames(old(View()), old(frames), View())
      ensures flags.Leaf() ==> forall w: int | !NoLarger(old(View()), w, Size4K) :: !NoLarger(View(), w, Size4K)
      ensures |old(frames)| >= 3 * (size / PAGE_SIZE) ==> ok
    {
      hide WellFormed, FramesFree, Isolated, Turned, NoLarger, NoneLarger, WalkTo, Distance, Entry, BackedInv, OwnFrames, PageIn,
           Leads, Flagged, AllZero, ZeroFrame, SparesFrames, Cleared;
      ghost var t0, f0 := View(), frames;
      ghost var b := Backing(virt, size, flags, zero);
      pages := [];
      var count := size / PAGE_SIZE;
      BackingBegins(t0, f0, b);
      for i := 0 to count
        invariant |pages| == i && BackedInv(t0, f0, View(), frames, b, pages)
      {
        BackingNext(t0, f0, View(), frames, b, pages);
        if frames == [] {
          return false, pages;
        }
        var phys := frames[0];
        if zero {
          BackingCleared(t0, f0, View(), frames, b, pages);
          ram := Cleared(ram, phys);
          BackingNext(t0, f0, View(), frames, b, pages);
        }
        ghost var t, f := View(), frames;
        frames := frames[1..];
        ghost var table;
        ok, table := MapPage(virt + i * PAGE_SIZE, phys, flags, Size4K);
        if !ok {
          BackingFails(t0, f0, t, f, b, pages, Step(View(), frames, ok, table));
          return false, pages;
        }
        BackingGrows(t0, f0, t, f, b, pages, Step(View(), frames, ok, table));
        pages := pages + [phys];
      }
      ok := true;
      BackingEnds(t0, f0, View(), frames, b, pages);
    }
  }

  lemma EmptyTree(memory: Ram, free: seq<int>)
    requires free != [] && FramesFree(map[], free)
    ensures var t := Tree(Cleared(memory, free[0]), free[0], map[free[0] := Root]);
            && WellFormed(t) && FramesFree(t.place, free[1..])
            && forall va: int :: VirtToPhys(t, va).None?
  {
    var n := free[0];
    assert n in free;
    assert forall x | 0 <= x < |free[1..]| :: free[1..][x] == free[x + 1];
    ZeroIsInvalid();
    forall j ensures Word(Cleared(memory, n), n, j) == 0 { WordOfCleared(memory, n, n, j); }
    hide Word, Cleared, Frame, IsValid, IsLeaf, Addr, Vpn2, Vpn1, Vpn0;
  }

  // ---------------------------------------------------------------- what a turn does, in one place

  /** All that is proved of one turn. */
  ghost predicate Turned(t: Tree, frames: seq<int>, va: int, size: PageSize, e: int, s: Step) {
    && Kept(t, frames, s, 2)
    && (s.ok && (NoLarger(t, va, size) || Isolated(t, frames)) ==> PageMapped(t, s.tree, va, size, e))
    && (Isolated(t, frames) && Outside(e, t.place, frames) ==> Isolated(s.tree, s.frames))
    && (NoLarger(t, va, size) ==> SparesFrames(t, frames, s.tree))
    && (IsLeaf(e) ==> NoneSmaller(t, s.tree))
    && (IsLeaf(e) && s.ok ==> (WalkTo(s.tree, va) == Some(Hit(size, e)) <==> NoLarger(t, va, size)))
  }

  lemma EntryTurned(t: Tree, frames: seq<int>, va: int, size: PageSize, phys: int, flags: PageFlags)
    requires WellFormed(t) && FramesFree(t.place, frames) && 0 <= phys && flags.Ok()
    requires flags.Leaf() || (size == Size4K && NoLarger(t, va, size))
    ensures Turned(t, frames, va, size, Entry(phys, flags), Turn(t, frames, va, size, Entry(phys, flags)))
  {
    hide WellFormed, FramesFree, Isolated, Kept, PageMapped, NoneSmaller, NoLarger, Turn, WalkTo, IsValid, IsLeaf, Entry, Addr, Outside,
         SparesFrames;
    EntryFields(phys, flags);
    var e := Entry(phys, flags);
    TurnKeeps(t, frames, va, size, e);
    if NoLarger(t, va, size) || Isolated(t, frames) { TurnMapsOnly(t, frames, va, size, e); }
    if NoLarger(t, va, size) { TurnSpares(t, frames, va, size, e); }
    if Isolated(t, frames) && Outside(e, t.place, frames) { TurnIsolated(t, frames, va, size, e); }
    if IsLeaf(e) {
      TurnNoneSmaller(t, frames, va, size, e);
      if Turn(t, frames, va, size, e).ok { TurnMapsIff(t, frames, va, size, e); }
    }
  }

  /** No address of the range is under a larger page. */
  ghost predicate NoneLarger(t: Tree, start: int, len: int, size: PageSize) {
    forall w: int | 0 <= w && Distance(w, start) < len :: NoLarger(t, w, size)
  }

  lemma SmallerNever(t: Tree, n: Tree, size: PageSize)
    requires NoneSmaller(t, n)
    ensures forall w: int | !NoLarger(t, w, size) :: !NoLarger(n, w, size)
  {
    hide WalkTo;
  }

  // ---------------------------------------------------------------- a range of pages

  /** Where the address at distance d into a range mapped from physStart goes. */
  function Target(size: PageSize, physStart: int, d: int): int {
    physStart + (d - d % size.Bytes()) + d % size.OffsetRange()
  }

  /** The target is physStart + d exactly for pages of up to 2 MiB and, in a 1 GiB page, for the
      first 16 KiB. */
  lemma TargetIsLinearIff(size: PageSize, physStart: int, d: int)
    requires 0 <= d
    ensures Target(size, physStart, d) == physStart + d <==> size != Size1G || d % GIGA_SIZE < 0x4000
  {
    if size == Size1G {
      var g, r := d / GIGA_SIZE, d % GIGA_SIZE;
      var q := r / 0x4000;
      QuotientRemainder(d, 0x4000, 0x1_0000 * g + q, r % 0x4000);
    }
  }

  /** Every address of the range that no larger page covers is translated by an entry with these flags;
      every other by the entry it was translated by. */
  ghost predicate Flagged(t: Tree, n: Tree, virt: int, len: int, size: PageSize, flags: PageFlags) {
    forall w: int | 0 <= w ::
      if Distance(w, virt) < len && NoLarger(t, w, size)
      then WalkTo(n, w).Some? && WalkTo(n, w).value.size == size && Carries(WalkTo(n, w).value.entry, flags)
      else WalkTo(n, w) == WalkTo(t, w)
  }

  /** A whole number of pages, and how many. */
  predicate Whole(n: int, size: PageSize) { n % size.Bytes() == 0 }

  function Count(n: int, size: PageSize): int { n / size.Bytes() }

  /** The arguments of map_range. */
  datatype Range = Range(virt: int, phys: int, len: int, flags: PageFlags, size: PageSize) {
    predicate Ok() {
      && 0 <= virt && 0 <= phys && 0 <= len <= VA_SIZE && phys + len <= TWO_48 && flags.Ok()
      && Whole(virt, size) && Whole(phys, size) && Whole(len, size)
    }
  }

  /** None of the physical pages starts in a table or a free frame. */
  ghost predicate PagesOutside(place: map<int, Place>, frames: seq<int>, phys: int, len: int, size: PageSize) {
    forall k | 0 <= k < len && Whole(k, size) :: phys + k !in place && phys + k !in frames
  }

  /** The walk once the first `offset` bytes of the range are mapped. */
  function Mapped(t: Tree, w: int, r: Range, offset: int): Option<Hit> {
    var d := Distance(w, r.virt);
    if d < offset && NoLarger(t, w, r.size) then Some(Hit(r.size, Entry(r.phys + (d - d % r.size.Bytes()), r.flags))) else WalkTo(t, w)
  }

  ghost predicate AllMapped(t0: Tree, t: Tree, r: Range, offset: int) {
    forall w: int | 0 <= w :: WalkTo(t, w) == Mapped(t0, w, r, offset)
  }

  /** Leaves in the way do not lead to tables. */
  ghost predicate Harmless(t: Tree, frames: seq<int>, r: Range) {
    Isolated(t, frames) && PagesOutside(t.place, frames, r.phys, r.len, r.size)
  }

  /** After `offset` bytes of the range. */
  ghost predicate RangeInv(t0: Tree, f0: seq<int>, t: Tree, frames: seq<int>, r: Range, offset: int) {
    && WellFormed(t) && FramesFree(t.place, frames) && TakenFrom(f0, frames) && |frames| + 2 * Count(offset, r.size) >= |f0|
    && (NoneLarger(t0, r.virt, r.len, r.size) || Harmless(t0, f0, r) ==> AllMapped(t0, t, r, offset))
    && (Harmless(t0, f0, r) ==> Harmless(t, frames, r))
    && (r.flags.Leaf() ==> NoneSmaller(t0, t))
  }

  lemma RangeBegins(t: Tree, frames: seq<int>, r: Range)
    requires WellFormed(t) && FramesFree(t.place, frames) && r.Ok()
    ensures RangeInv(t, frames, t, frames, r, 0)
  {
    hide WellFormed, FramesFree, WalkTo, Entry, Harmless, NoneLarger, NoLarger;
    forall w: int | 0 <= w ensures WalkTo(t, w) == Mapped(t, w, r, 0) { DistanceRange(w, r.virt); }
    SelfNotSmaller(t);
  }

  lemma RangeIsWhole(virtStart: int, end: int, size: PageSize)
    requires virtStart % size.Bytes() == 0 && end % size.Bytes() == 0
    ensures Whole(end - virtStart, size)
  {
    var s := size.Bytes();
    assert end - virtStart == s * (end / s - virtStart / s);
    QuotientRemainder(end - virtStart, s, end / s - virtStart / s, 0);
  }

  lemma PageFits(offset: int, len: int, size: PageSize)
    requires Whole(offset, size) && Whole(len, size) && 0 <= offset < len
    ensures offset + size.Bytes() <= len && Whole(offset + size.Bytes(), size)
    ensures Count(offset + size.Bytes(), size) == Count(offset, size) + 1 <= Count(len, size)
  {
    var s := size.Bytes();
    var a, b := offset / s, len / s;
    assert offset == s * a && len == s * b;
    if b <= a { Ordered(s, b, a); } else { Ordered(s, a + 1, b); }
    Distribute(s, a, 1);
    QuotientRemainder(offset + s, s, a + 1, 0);
  }

  /** What the next turn asks for. */
  lemma RangeNext(t0: Tree, f0: seq<int>, t: Tree, frames: seq<int>, r: Range, offset: int)
    requires RangeInv(t0, f0, t, frames, r, offset) && r.Ok() && 0 <= offset < r.len && Whole(offset, r.size)
    requires r.flags.Leaf() || (r.size == Size4K && NoneLarger(t0, r.virt, r.len, r.size))
    ensures WellFormed(t) && FramesFree(t.place, frames)
    ensures NoneLarger(t0, r.virt, r.len, r.size) ==> NoLarger(t, r.virt + offset, r.size)
    ensures offset + r.size.Bytes() <= r.len && Whole(offset + r.size.Bytes(), r.size)
  {
    hide WellFormed, FramesFree, WalkTo, Entry, Harmless, NoneSmaller;
    PageFits(offset, r.len, r.size);
    assert Distance(r.virt + offset, r.virt) == offset;
    assert Mapped(t0, r.virt + offset, r, offset) == WalkTo(t0, r.virt + offset);
  }

  /** The turn maps the next page of the range. */
  lemma RangeMapped(t0: Tree, t: Tree, n: Tree, r: Range, offset: int)
    requires r.Ok() && 0 <= offset && Whole(offset, r.size) && offset + r.size.Bytes() <= r.len
    requires AllMapped(t0, t, r, offset) && PageMapped(t, n, r.virt + offset, r.size, Entry(r.phys + offset, r.flags))
    ensures AllMapped(t0, n, r, offset + r.size.Bytes())
  {
    hide WalkTo, Entry, Distance, SamePage;
    forall w: int | 0 <= w ensures WalkTo(n, w) == Mapped(t0, w, r, offset + r.size.Bytes()) {
      SamePageIsWindow(r.size, w, r.virt, offset);
      OffsetInPage(offset, w, r.size);
    }
  }

  lemma OffsetInPage(offset: int, w: int, size: PageSize)
    requires offset % size.Bytes() == 0
    ensures (offset + w % size.Bytes()) % size.Bytes() == w % size.Bytes()
  {
    var s := size.Bytes();
    QuotientRemainder(offset + w % s, s, offset / s, w % s);
  }

  lemma StillHarmless(t: Tree, frames: seq<int>, r: Range, offset: int, s: Step)
    requires Harmless(t, frames, r) && r.Ok() && 0 <= offset < r.len && Whole(offset, r.size)
    requires Kept(t, frames, s, 2) && (Outside(Entry(r.phys + offset, r.flags), t.place, frames) ==> Isolated(s.tree, s.frames))
    ensures Harmless(s.tree, s.frames, r)
  {
    hide WellFormed, FramesFree, Isolated, Entry, Addr;
    PageAddress(r.phys, offset, r.size);
    AddrRoundTrip(r.phys + offset, r.flags);
  }

  lemma RangeGrows(t0: Tree, f0: seq<int>, t: Tree, frames: seq<int>, r: Range, offset: int, s: Step)
    requires RangeInv(t0, f0, t, frames, r, offset) && r.Ok() && 0 <= offset < r.len && Whole(offset, r.size)
    requires NoneLarger(t0, r.virt, r.len, r.size) ==> NoLarger(t, r.virt + offset, r.size)
    requires Turned(t, frames, r.virt + offset, r.size, Entry(r.phys + offset, r.flags), s) && s.ok
    ensures RangeInv(t0, f0, s.tree, s.frames, r, offset + r.size.Bytes())
  {
    hide Whole, Count, TakenFrom, NewTablesFrom, WellFormed, FramesFree, Isolated, Entry, Addr, NoneLarger, NoneSmaller, PageMapped,
         AllMapped, NoLarger, Outside, PagesOutside, WalkTo, IsValid, IsLeaf, SparesFrames;
    EntryFields(r.phys + offset, r.flags);
    PageFits(offset, r.len, r.size);
    if NoneLarger(t0, r.virt, r.len, r.size) || Harmless(t0, f0, r) {
      RangeMapped(t0, t, s.tree, r, offset);
    }
    if Harmless(t0, f0, r) { StillHarmless(t, frames, r, offset, s); }
    if r.flags.Leaf() { NoneSmallerChain(t0, t, s.tree); }
    TakenChain(f0, frames, s.frames);
  }

  lemma TakenChain(a: seq<int>, b: seq<int>, c: seq<int>)
    requires TakenFrom(a, b) && TakenFrom(b, c)
    ensures TakenFrom(a, c)
  {
  }

  lemma RangeFails(t0: Tree, f0: seq<int>, t: Tree, frames: seq<int>, r: Range, offset: int, s: Step)
    requires RangeInv(t0, f0, t, frames, r, offset) && r.Ok() && 0 <= offset < r.len && Whole(offset, r.size)
    requires Turned(t, frames, r.virt + offset, r.size, Entry(r.phys + offset, r.flags), s) && !s.ok
    ensures WellFormed(s.tree) && FramesFree(s.tree.place, s.frames) && TakenFrom(f0, s.frames)
    ensures r.flags.Leaf() ==> forall w: int | !NoLarger(t0, w, r.size) :: !NoLarger(s.tree, w, r.size)
    ensures |f0| < 2 * Count(r.len, r.size)
  {
    hide Whole, Count, TakenFrom, NewTablesFrom, WellFormed, FramesFree, Isolated, Entry, Addr, NoneLarger, NoneSmaller, PageMapped,
         AllMapped, NoLarger, Outside, PagesOutside, WalkTo, IsValid, IsLeaf, SparesFrames;
    EntryFields(r.phys + offset, r.flags);
    PageFits(offset, r.len, r.size);
    TakenChain(f0, frames, s.frames);
    if r.flags.Leaf() {
      NoneSmallerChain(t0, t, s.tree);
      SmallerNever(t0, s.tree, r.size);
    }
  }

  lemma RangeEnds(t0: Tree, f0: seq<int>, t: Tree, frames: seq<int>, r: Range)
    requires RangeInv(t0, f0, t, frames, r, r.len) && r.Ok()
    ensures WellFormed(t) && FramesFree(t.place, frames) && TakenFrom(f0, frames)
    ensures r.flags.Leaf() ==> forall w: int | !NoLarger(t0, w, r.size) :: !NoLarger(t, w, r.size)
    ensures NoneLarger(t0, r.virt, r.len, r.size) || (Isolated(t0, f0) && PagesOutside(t0.place, f0, r.phys, r.len, r.size)) ==>
              Flagged(t0, t, r.virt, r.len, r.size, r.flags)
    ensures NoneLarger(t0, r.virt, r.len, r.size) || (Isolated(t0, f0) && PagesOutside(t0.place, f0, r.phys, r.len, r.size)) ==>
              forall w: int | 0 <= w ::
                VirtToPhys(t, w) == if Distance(w, r.virt) < r.len && NoLarger(t0, w, r.size)
                                    then Some(Target(r.size, r.phys, Distance(w, r.virt)))
                                    else VirtToPhys(t0, w)
  {
    hide WellFormed, FramesFree, Isolated, NoneLarger, NoneSmaller, AllMapped, NoLarger, PagesOutside, WalkTo, VirtToPhys, Flagged;
    if r.flags.Leaf() { SmallerNever(t0, t, r.size); }
    if NoneLarger(t0, r.virt, r.len, r.size) || Harmless(t0, f0, r) {
      RangeTranslates(t0, t, r);
      RangeFlagged(t0, t, r);
    }
  }

  lemma RangeTranslates(t0: Tree, t: Tree, r: Range)
    requires AllMapped(t0, t, r, r.len) && r.Ok()
    ensures forall w: int | 0 <= w ::
              VirtToPhys(t, w) == if Distance(w, r.virt) < r.len && NoLarger(t0, w, r.size)
                                  then Some(Target(r.size, r.phys, Distance(w, r.virt)))
                                  else VirtToPhys(t0, w)
  {
    hide Entry, Distance, Target, Physical, WalkTo, NoLarger;
    forall w: int | 0 <= w
      ensures VirtToPhys(t, w) == if Distance(w, r.virt) < r.len && NoLarger(t0, w, r.size)
                                  then Some(Target(r.size, r.phys, Distance(w, r.virt)))
                                  else VirtToPhys(t0, w)
    {
      if Distance(w, r.virt) < r.len { PageTranslates(w, r.virt, r.phys, r.len, r.flags, r.size); }
    }
  }

  lemma RangeFlagged(t0: Tree, t: Tree, r: Range)
    requires AllMapped(t0, t, r, r.len) && r.Ok()
    ensures Flagged(t0, t, r.virt, r.len, r.size, r.flags)
  {
    hide Entry, Distance, WalkTo, NoLarger, Carries;
    forall w: int | 0 <= w && Distance(w, r.virt) < r.len && NoLarger(t0, w, r.size)
      ensures WalkTo(t, w).Some? && WalkTo(t, w).value.size == r.size && Carries(WalkTo(t, w).value.entry, r.flags)
    {
      var d := Distance(w, r.virt);
      DistanceRange(w, r.virt);
      EntryFields(r.phys + (d - d % r.size.Bytes()), r.flags);
    }
  }

  lemma PageTranslates(w: int, virtStart: int, physStart: int, len: int, flags: PageFlags, size: PageSize)
    requires 0 <= w && 0 <= virtStart && virtStart % size.Bytes() == 0 && 0 <= len <= VA_SIZE && len % size.Bytes() == 0
    requires physStart % size.Bytes() == 0 && 0 <= physStart && physStart + len <= TWO_48 && flags.Ok()
    requires Distance(w, virtStart) < len
    ensures var d := Distance(w, virtStart);
            Physical(Hit(size, Entry(physStart + (d - d % size.Bytes()), flags)), w) == Target(size, physStart, d)
  {
    hide Distance, Entry, Addr;
    var d, s, r := Distance(w, virtStart), size.Bytes(), size.OffsetRange();
    DistanceRange(w, virtStart);
    var p := physStart + (d - d % s);
    PageAddress(physStart, d, size);
    AddrRoundTrip(p, flags);
    SameOffset(w, virtStart, size);
  }

  lemma DistanceRange(w: int, start: int)
    ensures 0 <= Distance(w, start) < VA_SIZE
  {
  }

  lemma PageAddress(physStart: int, d: int, size: PageSize)
    requires physStart % size.Bytes() == 0 && 0 <= d && 0 <= physStart
    ensures var p := physStart + (d - d % size.Bytes());
            p % size.OffsetRange() == 0 && p % PAGE_SIZE == 0 && 0 <= p <= physStart + d
  {
    var s, r := size.Bytes(), size.OffsetRange();
    var p := physStart + (d - d % s);
    var k := physStart / s + d / s;
    assert physStart == s * (physStart / s) && d - d % s == s * (d / s);
    Distribute(s, physStart / s, d / s);
    assert p == s * k;
    match size
    case Size4K => QuotientRemainder(p, r, k, 0);
    case Size2M => QuotientRemainder(p, r, k, 0); QuotientRemainder(p, PAGE_SIZE, 512 * k, 0);
    case Size1G => QuotientRemainder(p, r, 0x1_0000 * k, 0); QuotientRemainder(p, PAGE_SIZE, 0x4_0000 * k, 0);
  }

  lemma SameOffset(w: int, virtStart: int, size: PageSize)
    requires virtStart % size.Bytes() == 0
    ensures Distance(w, virtStart) % size.OffsetRange() == w % size.OffsetRange()
  {
    hide Distance;
    match size
    case Size4K => DistanceInPages(PAGE_SIZE, 0x800_0000, w, virtStart);
    case Size2M => DistanceInPages(MEGA_SIZE, 0x4_0000, w, virtStart);
    case Size1G =>
      var k := virtStart / GIGA_SIZE;
      QuotientRemainder(virtStart, 0x4000, 0x1_0000 * k, 0);
      DistanceInPages(0x4000, 0x200_0000, w, virtStart);
  }

  // ---------------------------------------------------------------- pages with frames of their own

  function PageIn(d: int): int { d / PAGE_SIZE }

  /** The pages are distinct frames that were free; they hold no tables and are not free now. */
  ghost predicate OwnFrames(pages: seq<int>, before: seq<int>, place: map<int, Place>, free: seq<int>) {
    && (forall k | 0 <= k < |pages| :: Frame(pages[k]) && pages[k] in before && pages[k] !in place && pages[k] !in free)
    && (forall j, k | 0 <= j < k < |pages| :: pages[j] != pages[k])
  }

  /** Where an address leads once `pages` back the range at `virt`: a larger page stays in force. */
  function PhysAfter(t: Tree, w: int, virt: int, pages: seq<int>): Option<int> {
    var d := Distance(w, virt);
    if 0 <= PageIn(d) < |pages| && NoLarger(t, w, Size4K) then Some(pages[PageIn(d)] + d % PAGE_SIZE) else VirtToPhys(t, w)
  }

  ghost predicate Leads(t: Tree, n: Tree, virt: int, pages: seq<int>) {
    forall w: int | 0 <= w :: VirtToPhys(n, w) == PhysAfter(t, w, virt, pages)
  }

  /** The walk once the first pages of the range are backed. */
  function Backed(t: Tree, w: int, virt: int, pages: seq<int>, flags: PageFlags): Option<Hit> {
    var k := PageIn(Distance(w, virt));
    if 0 <= k < |pages| && NoLarger(t, w, Size4K) then Some(Hit(Size4K, Entry(pages[k], flags))) else WalkTo(t, w)
  }

  ghost predicate AllBacked(t0: Tree, t: Tree, virt: int, pages: seq<int>, flags: PageFlags) {
    forall w: int | 0 <= w :: WalkTo(t, w) == Backed(t0, w, virt, pages, flags)
  }

  /** The arguments of allocate_and_map_pages. */
  datatype Backing = Backing(virt: int, size: nat, flags: PageFlags, zero: bool) {
    predicate Ok() { 0 <= virt && virt % PAGE_SIZE == 0 && size <= VA_SIZE && flags.Ok() }
  }

  ghost predicate ZeroFrame(m: Ram, f: int) { forall j: int :: Word(m, f, j) == 0 }

  ghost predicate AllZero(m: Ram, pages: seq<int>) { forall k | 0 <= k < |pages| :: ZeroFrame(m, pages[k]) }

  /** With no larger page in the range only tables, free frames and the pages themselves are written. */
  ghost predicate CleanInv(t0: Tree, f0: seq<int>, t: Tree, b: Backing, pages: seq<int>) {
    NoneLarger(t0, b.virt, b.size, Size4K) ==> SparesFrames(t0, f0, t) && (b.zero ==> AllZero(t.ram, pages))
  }

  ghost predicate BackedInv(t0: Tree, f0: seq<int>, t: Tree, frames: seq<int>, b: Backing, pages: seq<int>) {
    && WellFormed(t) && FramesFree(t.place, frames) && TakenFrom(f0, frames) && |frames| + 3 * |pages| >= |f0|
    && OwnFrames(pages, f0, t.place, frames) && NewTablesFrom(t0.place, t.place, f0)
    && (NoneLarger(t0, b.virt, b.size, Size4K) || Isolated(t0, f0) ==> AllBacked(t0, t, b.virt, pages, b.flags))
    && (Isolated(t0, f0) ==> Isolated(t, frames))
    && (b.flags.Leaf() ==> NoneSmaller(t0, t))
    && CleanInv(t0, f0, t, b, pages)
  }

  lemma BackingBegins(t: Tree, frames: seq<int>, b: Backing)
    requires WellFormed(t) && FramesFree(t.place, frames)
    ensures BackedInv(t, frames, t, frames, b, [])
  {
    hide WellFormed, FramesFree, WalkTo, Entry, NoLarger, NoneLarger, Isolated;
    SelfNotSmaller(t);
  }

  /** What the next turn asks for, once its frame is taken. */
  lemma BackingNext(t0: Tree, f0: seq<int>, t: Tree, frames: seq<int>, b: Backing, pages: seq<int>)
    requires BackedInv(t0, f0, t, frames, b, pages) && b.Ok() && |pages| < b.size / PAGE_SIZE
    ensures |pages| * PAGE_SIZE + PAGE_SIZE <= b.size && WellFormed(t) && TakenFrom(f0, frames) && NewTablesFrom(t0.place, t.place, f0)
    ensures frames == [] ==> FramesFree(t.place, frames) && |f0| < 3 * (b.size / PAGE_SIZE)
    ensures frames != [] ==> Frame(frames[0]) && 0 <= frames[0] && FramesFree(t.place, frames[1..])
    ensures NoneLarger(t0, b.virt, b.size, Size4K) ==> NoLarger(t, b.virt + |pages| * PAGE_SIZE, Size4K) && SparesFrames(t0, f0, t)
    ensures b.flags.Leaf() ==> forall w: int | !NoLarger(t0, w, Size4K) :: !NoLarger(t, w, Size4K)
  {
    hide WellFormed, WalkTo, Entry, PageIn, Isolated, OwnFrames, SparesFrames, AllZero;
    PageInRange(|pages|, b.size / PAGE_SIZE, b.size);
    if frames != [] { TakeFirst(t.place, frames); }
    if b.flags.Leaf() { SmallerNever(t0, t, Size4K); }
    var w := b.virt + |pages| * PAGE_SIZE;
    QuotientRemainder(w - b.virt, VA_SIZE, 0, |pages| * PAGE_SIZE);
    QuotientIs(Distance(w, b.virt), |pages|);
    assert Backed(t0, w, b.virt, pages, b.flags) == WalkTo(t0, w);
  }

  /** Zeroing the next frame before it is mapped changes nothing else. */
  lemma BackingCleared(t0: Tree, f0: seq<int>, t: Tree, frames: seq<int>, b: Backing, pages: seq<int>)
    requires BackedInv(t0, f0, t, frames, b, pages) && frames != []
    ensures BackedInv(t0, f0, t.(ram := Cleared(t.ram, frames[0])), frames, b, pages)
    ensures ZeroFrame(Cleared(t.ram, frames[0]), frames[0])
  {
    hide WellFormed, WalkTo, Entry, PageIn, Isolated, NoneLarger, Cleared, Word, TakenFrom;
    var n, c := frames[0], t.(ram := Cleared(t.ram, frames[0]));
    assert n in frames && n in f0 by { TakenIsMember(f0, frames); }
    ClearedOutside(t, frames, n);
    SameIsNotSmaller(t0, t, c);
  }

  lemma TakenIsMember(f0: seq<int>, frames: seq<int>)
    requires TakenFrom(f0, frames) && frames != []
    ensures frames[0] in frames && frames[0] in f0
  {
  }

  lemma SameIsNotSmaller(t0: Tree, t: Tree, c: Tree)
    requires SameWalks(t, c)
    ensures NoneSmaller(t0, t) ==> NoneSmaller(t0, c)
  {
    hide WalkTo;
  }

  lemma TakeFirst(place: map<int, Place>, frames: seq<int>)
    requires FramesFree(place, frames) && frames != []
    ensures Frame(frames[0]) && frames[0] !in place && frames[0] !in frames[1..]
    ensures FramesFree(place, frames[1..]) && TakenFrom(frames, frames[1..])
  {
    assert frames[0] in frames;
    FramesLeft(place, place, frames);
    assert forall x | 0 <= x < |frames[1..]| :: frames[1..][x] == frames[x + 1];
  }

  lemma FewerIsolated(t: Tree, frames: seq<int>)
    requires Isolated(t, frames) && frames != []
    ensures Isolated(t, frames[1..])
  {
    hide Word, IsValid, IsLeaf, Addr;
  }

  /** The new page's frame joins the frames in use. */
  lemma TakeFrame(pages: seq<int>, f0: seq<int>, place: map<int, Place>, frames: seq<int>)
    requires OwnFrames(pages, f0, place, frames) && FramesFree(place, frames) && frames != [] && TakenFrom(f0, frames)
    ensures OwnFrames(pages + [frames[0]], f0, place, frames[1..])
  {
    TakeFirst(place, frames);
    hide Frame, FramesFree;
    assert frames[0] in frames && frames[0] in f0;
    assert forall x | x in frames[1..] :: x in frames;
  }

  lemma KeepsFrames(pages: seq<int>, f0: seq<int>, t: Tree, frames: seq<int>, s: Step)
    requires OwnFrames(pages, f0, t.place, frames) && Kept(t, frames, s, 2)
    ensures OwnFrames(pages, f0, s.tree.place, s.frames)
  {
    hide Frame, WellFormed, FramesFree;
    assert forall x | x in s.frames :: x in frames;
  }

  lemma OwnOneMore(pages: seq<int>, f0: seq<int>, t: Tree, frames: seq<int>, s: Step)
    requires OwnFrames(pages, f0, t.place, frames) && FramesFree(t.place, frames) && frames != [] && TakenFrom(f0, frames)
    requires Kept(t, frames[1..], s, 2)
    ensures OwnFrames(pages + [frames[0]], f0, s.tree.place, s.frames) && TakenFrom(f0, s.frames)
    ensures |s.frames| + 3 >= |frames|
  {
    hide OwnFrames, WellFormed, FramesFree, TakenFrom, NewTablesFrom;
    TakeFirst(t.place, frames);
    TakeFrame(pages, f0, t.place, frames);
    KeepsFrames(pages + [frames[0]], f0, t, frames[1..], s);
    TakenChain(frames, frames[1..], s.frames);
    TakenChain(f0, frames, s.frames);
  }

  lemma BackedMapped(t0: Tree, t: Tree, n: Tree, virt: int, pages: seq<int>, p: int, flags: PageFlags)
    requires 0 <= virt && virt % PAGE_SIZE == 0 && |pages| * PAGE_SIZE + PAGE_SIZE <= VA_SIZE
    requires AllBacked(t0, t, virt, pages, flags) && PageMapped(t, n, virt + |pages| * PAGE_SIZE, Size4K, Entry(p, flags))
    ensures AllBacked(t0, n, virt, pages + [p], flags)
  {
    hide WalkTo, Entry, Distance, SamePage, PageIn;
    var o := |pages| * PAGE_SIZE;
    QuotientRemainder(o, PAGE_SIZE, |pages|, 0);
    forall w: int | 0 <= w ensures WalkTo(n, w) == Backed(t0, w, virt, pages + [p], flags) {
      SamePageIsWindow(Size4K, w, virt, o);
      DistanceRange(w, virt);
      QuotientIs(Distance(w, virt), |pages|);
    }
  }

  lemma BackingGrows(t0: Tree, f0: seq<int>, t: Tree, frames: seq<int>, b: Backing, pages: seq<int>, s: Step)
    requires BackedInv(t0, f0, t, frames, b, pages) && frames != [] && b.Ok() && |pages| * PAGE_SIZE + PAGE_SIZE <= b.size
    requires NoneLarger(t0, b.virt, b.size, Size4K) ==> NoLarger(t, b.virt + |pages| * PAGE_SIZE, Size4K)
    requires b.zero ==> ZeroFrame(t.ram, frames[0])
    requires Turned(t, frames[1..], b.virt + |pages| * PAGE_SIZE, Size4K, Entry(frames[0], b.flags), s) && s.ok
    ensures BackedInv(t0, f0, s.tree, s.frames, b, pages + [frames[0]])
  {
    hide WellFormed, FramesFree, Isolated, Entry, Addr, NoneLarger, NoneSmaller, PageMapped, AllBacked, NoLarger, WalkTo, IsValid, IsLeaf,
         OwnFrames, SparesFrames, CleanInv, ZeroFrame, TakenFrom, NewTablesFrom;
    TakeFirst(t.place, frames);
    EntryFields(frames[0], b.flags);
    AddrRoundTrip(frames[0], b.flags);
    OwnOneMore(pages, f0, t, frames, s);
    NewTablesChain(t0.place, t.place, s.tree.place, f0, frames);
    if Isolated(t0, f0) { FewerIsolated(t, frames); }
    if NoneLarger(t0, b.virt, b.size, Size4K) || Isolated(t0, f0) { BackedMapped(t0, t, s.tree, b.virt, pages, frames[0], b.flags); }
    if b.flags.Leaf() { NoneSmallerChain(t0, t, s.tree); }
    CleanGrows(t0, f0, t, frames, b, pages, s);
  }

  lemma NewTablesChain(p: map<int, Place>, q: map<int, Place>, r: map<int, Place>, f0: seq<int>, frames: seq<int>)
    requires NewTablesFrom(p, q, f0) && frames != [] && NewTablesFrom(q, r, frames[1..]) && TakenFrom(f0, frames)
    ensures NewTablesFrom(p, r, f0)
  {
    assert forall x | x in frames[1..] :: x in frames && x in f0;
  }

  lemma CleanGrows(t0: Tree, f0: seq<int>, t: Tree, frames: seq<int>, b: Backing, pages: seq<int>, s: Step)
    requires CleanInv(t0, f0, t, b, pages) && frames != [] && TakenFrom(f0, frames) && FramesFree(t.place, frames)
    requires OwnFrames(pages, f0, t.place, frames) && NewTablesFrom(t0.place, t.place, f0)
    requires b.zero ==> ZeroFrame(t.ram, frames[0])
    requires NoneLarger(t0, b.virt, b.size, Size4K) ==> SparesFrames(t, frames[1..], s.tree)
    ensures CleanInv(t0, f0, s.tree, b, pages + [frames[0]])
  {
    hide NoneLarger, Word, FramesFree, OwnFrames, SparesFrames, AllZero, ZeroFrame, TakenFrom, NewTablesFrom;
    if NoneLarger(t0, b.virt, b.size, Size4K) {
      SparesFailed(t0, f0, t, frames, s);
      if b.zero { ZeroGrows(f0, t, frames, pages, s); }
    }
  }

  lemma ZeroGrows(f0: seq<int>, t: Tree, frames: seq<int>, pages: seq<int>, s: Step)
    requires AllZero(t.ram, pages) && frames != [] && FramesFree(t.place, frames) && OwnFrames(pages, f0, t.place, frames)
    requires ZeroFrame(t.ram, frames[0]) && SparesFrames(t, frames[1..], s.tree)
    ensures AllZero(s.tree.ram, pages + [frames[0]])
  {
    hide Word, Frame, FramesFree;
    TakeFirst(t.place, frames);
    var more := pages + [frames[0]];
    forall k | 0 <= k < |more| ensures ZeroFrame(s.tree.ram, more[k]) {
      assert ZeroFrame(t.ram, more[k]);
      assert more[k] !in t.place && more[k] !in frames[1..];
    }
  }

  lemma BackingFails(t0: Tree, f0: seq<int>, t: Tree, frames: seq<int>, b: Backing, pages: seq<int>, s: Step)
    requires BackedInv(t0, f0, t, frames, b, pages) && frames != [] && b.Ok() && |pages| < b.size / PAGE_SIZE
    requires NoneLarger(t0, b.virt, b.size, Size4K) ==> NoLarger(t, b.virt + |pages| * PAGE_SIZE, Size4K)
    requires Turned(t, frames[1..], b.virt + |pages| * PAGE_SIZE, Size4K, Entry(frames[0], b.flags), s) && !s.ok
    ensures WellFormed(s.tree) && FramesFree(s.tree.place, s.frames) && TakenFrom(f0, s.frames)
    ensures NewTablesFrom(t0.place, s.tree.place, f0)
    ensures b.flags.Leaf() ==> forall w: int | !NoLarger(t0, w, Size4K) :: !NoLarger(s.tree, w, Size4K)
    ensures NoneLarger(t0, b.virt, b.size, Size4K) ==> SparesFrames(t0, f0, s.tree)
    ensures |f0| < 3 * (b.size / PAGE_SIZE)
  {
    hide WellFormed, FramesFree, Isolated, Entry, Addr, NoneLarger, NoneSmaller, PageMapped, AllBacked, NoLarger, WalkTo, IsValid, IsLeaf,
         OwnFrames, SparesFrames, AllZero, TakenFrom, NewTablesFrom;
    TakeFirst(t.place, frames);
    EntryFields(frames[0], b.flags);
    OwnOneMore(pages, f0, t, frames, s);
    NewTablesChain(t0.place, t.place, s.tree.place, f0, frames);
    if b.flags.Leaf() {
      NoneSmallerChain(t0, t, s.tree);
      SmallerNever(t0, s.tree, Size4K);
    }
    if NoneLarger(t0, b.virt, b.size, Size4K) { SparesFailed(t0, f0, t, frames, s); }
  }

  lemma SparesFailed(t0: Tree, f0: seq<int>, t: Tree, frames: seq<int>, s: Step)
    requires SparesFrames(t0, f0, t) && frames != [] && TakenFrom(f0, frames) && NewTablesFrom(t0.place, t.place, f0)
    requires SparesFrames(t, frames[1..], s.tree)
    ensures SparesFrames(t0, f0, s.tree)
  {
    hide Word;
    assert forall x | x in frames[1..] :: x in frames && x in f0;
    forall g: int, j: int | g !in t0.place && g !in f0 ensures Word(s.tree.ram, g, j) == Word(t0.ram, g, j) {
      assert g !in t.place && g !in frames[1..];
    }
  }

  lemma PageInRange(i: nat, count: nat, size: nat)
    requires i < count == size / PAGE_SIZE && size <= VA_SIZE
    ensures i * PAGE_SIZE + PAGE_SIZE <= size
  {
    assert size == PAGE_SIZE * (size / PAGE_SIZE) + size % PAGE_SIZE;
    Ordered(PAGE_SIZE, i + 1, count);
  }

  lemma QuotientIs(d: int, k: int)
    requires 0 <= d && 0 <= k
    ensures PageIn(d) == k <==> k * PAGE_SIZE <= d < k * PAGE_SIZE + PAGE_SIZE
    ensures PageIn(d) < k <==> d < k * PAGE_SIZE
  {
    var q := d / PAGE_SIZE;
    assert d == PAGE_SIZE * q + d % PAGE_SIZE;
    if q < k { Ordered(PAGE_SIZE, q + 1, k); } else { Ordered(PAGE_SIZE, k, q); }
    if k < q { Ordered(PAGE_SIZE, k + 1, q); }
  }

  lemma BackingEnds(t0: Tree, f0: seq<int>, t: Tree, frames: seq<int>, b: Backing, pages: seq<int>)
    requires BackedInv(t0, f0, t, frames, b, pages) && b.Ok()
    ensures WellFormed(t) && FramesFree(t.place, frames) && TakenFrom(f0, frames) && OwnFrames(pages, f0, t.place, frames)
    ensures NewTablesFrom(t0.place, t.place, f0)
    ensures NoneLarger(t0, b.virt, b.size, Size4K) || Isolated(t0, f0) ==>
              && Leads(t0, t, b.virt, pages) && Flagged(t0, t, b.virt, |pages| * PAGE_SIZE, Size4K, b.flags)
              && forall w: int | 0 <= w && NoLarger(t0, w, Size4K) :: NoLarger(t, w, Size4K)
    ensures b.flags.Leaf() ==> forall w: int | !NoLarger(t0, w, Size4K) :: !NoLarger(t, w, Size4K)
    ensures NoneLarger(t0, b.virt, b.size, Size4K) ==> SparesFrames(t0, f0, t) && (b.zero ==> AllZero(t.ram, pages))
  {
    hide WellFormed, FramesFree, Isolated, NoneLarger, NoneSmaller, AllBacked, NoLarger, WalkTo, SparesFrames, AllZero, OwnFrames, Leads, Flagged;
    if b.flags.Leaf() { SmallerNever(t0, t, Size4K); }
    if NoneLarger(t0, b.virt, b.size, Size4K) || Isolated(t0, f0) {
      PagesTranslate(t0, t, b.virt, pages, b.flags, f0, frames);
      PagesFlagged(t0, t, b.virt, pages, b.flags, f0, frames);
      NoneBecomesLarger(t0, t, b.virt, pages, b.flags);
    }
  }

  lemma PagesFlagged(t0: Tree, t: Tree, virt: int, pages: seq<int>, flags: PageFlags, before: seq<int>, free: seq<int>)
    requires AllBacked(t0, t, virt, pages, flags) && flags.Ok() && OwnFrames(pages, before, t.place, free)
    ensures Flagged(t0, t, virt, |pages| * PAGE_SIZE, Size4K, flags)
  {
    hide Entry, Distance, WalkTo, NoLarger, Carries;
    forall w: int | 0 <= w
      ensures if Distance(w, virt) < |pages| * PAGE_SIZE && NoLarger(t0, w, Size4K)
              then WalkTo(t, w).Some? && WalkTo(t, w).value.size == Size4K && Carries(WalkTo(t, w).value.entry, flags)
              else WalkTo(t, w) == WalkTo(t0, w)
    {
      DistanceRange(w, virt);
      var k := PageIn(Distance(w, virt));
      if k < |pages| { EntryFields(pages[k], flags); }
    }
  }

  lemma NoneBecomesLarger(t0: Tree, t: Tree, virt: int, pages: seq<int>, flags: PageFlags)
    requires AllBacked(t0, t, virt, pages, flags)
    ensures forall w: int | 0 <= w && NoLarger(t0, w, Size4K) :: NoLarger(t, w, Size4K)
  {
    hide WalkTo, Entry, Distance, PageIn;
    forall w: int | 0 <= w && NoLarger(t0, w, Size4K) ensures NoLarger(t, w, Size4K) {
      assert WalkTo(t, w) == Backed(t0, w, virt, pages, flags);
    }
  }

  lemma PagesTranslate(t0: Tree, t: Tree, virt: int, pages: seq<int>, flags: PageFlags, before: seq<int>, free: seq<int>)
    requires AllBacked(t0, t, virt, pages, flags) && virt % PAGE_SIZE == 0 && flags.Ok() && OwnFrames(pages, before, t.place, free)
    ensures Leads(t0, t, virt, pages)
  {
    hide Entry, Distance, WalkTo, PageIn, Frame, Physical, NoLarger;
    forall w: int | 0 <= w ensures VirtToPhys(t, w) == PhysAfter(t0, w, virt, pages) {
      DistanceRange(w, virt);
      QuotientIs(Distance(w, virt), 0);
      var k := PageIn(Distance(w, virt));
      if k < |pages| { BackedTranslates(w, virt, pages[k], flags); }
    }
  }

  lemma BackedTranslates(w: int, virt: int, p: int, flags: PageFlags)
    requires virt % PAGE_SIZE == 0 && flags.Ok() && Frame(p)
    ensures Physical(Hit(Size4K, Entry(p, flags)), w) == p + Distance(w, virt) % PAGE_SIZE
  {
    hide Distance, Entry, Addr;
    AddrRoundTrip(p, flags);
    SameOffset(w, virt, Size4K);
  }
}
