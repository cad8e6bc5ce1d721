/**
 Sv39 page table entries and virtual page numbers, with 64-bit words as integers. Shifts and
 masks with powers of two are written as quotients and remainders, and a bitwise or of words
 with no bit in common as their sum.
 */
module PageTableEntry {

  import opened Arithmetic
  import opened Common

  const MEGA_SIZE := 0x20_0000
  const GIGA_SIZE := 0x4000_0000
  const VA_SIZE := 0x80_0000_0000        // 39 bits
  const TWO_36 := 0x10_0000_0000
  const TWO_44 := 0x1000_0000_0000
  const TWO_48 := 0x1_0000_0000_0000
  const TWO_59 := 0x800_0000_0000_0000
  const ENTRIES := 512

  // ---------------------------------------------------------------- entries

  /** Flag bits 0 to 7 and the five T-Head memory-type bits 59 to 63. */
  datatype PageFlags = PageFlags(low: int, thead: int) {
    predicate Ok() { 0 <= low < 256 && 0 <= thead < 32 }

    /** READ, WRITE or EXECUTE is set. */
    predicate Leaf() { low / 2 % 8 != 0 }
  }

  /** `PageTableEntry::set`. For a non-leaf, the mask clears bits 60 to 63 and so leaves bit 59. */
  function Entry(phys: int, flags: PageFlags): int {
    var ppn := phys / PAGE_SIZE % TWO_36;
    var low := if flags.low % 2 == 1 then flags.low else flags.low + 1;
    var thead := if flags.Leaf() then flags.thead else flags.thead % 2;
    ppn * 1024 + low + thead * TWO_59
  }

  predicate IsValid(e: int) { e % 2 == 1 }

  predicate IsLeaf(e: int) { e % 1024 / 2 % 8 != 0 }

  function Addr(e: int): int { e / 1024 % TWO_44 * PAGE_SIZE }

  /** The entry's low ten bits are the flags with VALID, its top five their memory type, of which a pointer
      to a table keeps the lowest bit. */
  predicate Carries(e: int, flags: PageFlags) {
    && e % 1024 == flags.low + 1 - flags.low % 2
    && e / TWO_59 == if flags.Leaf() then flags.thead else flags.thead % 2
  }

  /** What each reader gets back from an entry that was just set, and what it has for flags. */
  lemma EntryFields(phys: int, flags: PageFlags)
    requires 0 <= phys && flags.Ok()
    ensures Carries(Entry(phys, flags), flags)
    ensures Entry(phys, flags) / 1024 % 0x2_0000_0000_0000 == phys / PAGE_SIZE % TWO_36
    ensures IsValid(Entry(phys, flags))
    ensures IsLeaf(Entry(phys, flags)) <==> flags.Leaf()
    ensures Addr(Entry(phys, flags)) == phys / PAGE_SIZE % TWO_36 * PAGE_SIZE
    ensures Entry(phys, flags) >= 0
  {
    var ppn := phys / PAGE_SIZE % TWO_36;
    var low := if flags.low % 2 == 1 then flags.low else flags.low + 1;
    var thead := if flags.Leaf() then flags.thead else flags.thead % 2;
    var e := Entry(phys, flags);
    var upper := ppn + thead * 0x2_0000_0000_0000;
    QuotientRemainder(e, 1024, upper, low);
    QuotientRemainder(upper, TWO_44, thead * 32, ppn);
    QuotientRemainder(upper, 0x2_0000_0000_0000, thead, ppn);
    QuotientRemainder(e, TWO_59, thead, ppn * 1024 + low);
    QuotientRemainder(e, 2, 512 * upper + low / 2, 1);
  }

  /** The stored address is the one set exactly for page-aligned addresses below 2^48: set keeps
      36 bits of the page number, not the 44 it reads back. */
  lemma AddrRoundTrip(phys: int, flags: PageFlags)
    requires 0 <= phys && flags.Ok()
    ensures Addr(Entry(phys, flags)) == phys <==> phys % PAGE_SIZE == 0 && phys < TWO_48
  {
    EntryFields(phys, flags);
    hide Addr, Entry;
    var q := phys / PAGE_SIZE;
    assert phys == PAGE_SIZE * q + phys % PAGE_SIZE;
    assert q % TWO_36 == q <==> q < TWO_36;
  }

  // ---------------------------------------------------------------- virtual page numbers

  function Vpn2(va: int): int { va / GIGA_SIZE % ENTRIES }

  function Vpn1(va: int): int { va / MEGA_SIZE % ENTRIES }

  function Vpn0(va: int): int { va / PAGE_SIZE % ENTRIES }

  lemma VpnRange(va: int)
    ensures 0 <= Vpn2(va) < ENTRIES && 0 <= Vpn1(va) < ENTRIES && 0 <= Vpn0(va) < ENTRIES
  {
  }

  /** The three indices are the digits, base 512, of the page number modulo 2^27. */
  lemma VpnDigits(va: int)
    requires 0 <= va
    ensures va / PAGE_SIZE % 0x800_0000 == Vpn2(va) * 0x4_0000 + Vpn1(va) * 512 + Vpn0(va)
    ensures va / MEGA_SIZE % 0x4_0000 == Vpn2(va) * 512 + Vpn1(va)
  {
    NestedQuotients(va);
    MegaDigits(va / MEGA_SIZE);
    PageDigits(va / PAGE_SIZE);
    MegaDigits(va / PAGE_SIZE / 512);
  }

  lemma NestedQuotients(va: int)
    requires 0 <= va
    ensures va / MEGA_SIZE == va / PAGE_SIZE / 512 && va / GIGA_SIZE == va / MEGA_SIZE / 512
  {
  }

  lemma MegaDigits(m: int)
    requires 0 <= m
    ensures m % 0x4_0000 == m / 512 % 512 * 512 + m % 512
  {
    var g := m / 512;
    QuotientRemainder(m, 0x4_0000, g / 512, g % 512 * 512 + m % 512);
  }

  lemma PageDigits(p: int)
    requires 0 <= p
    ensures p % 0x800_0000 == p / 512 % 0x4_0000 * 512 + p % 512
  {
    var m := p / 512;
    QuotientRemainder(p, 0x800_0000, m / 0x4_0000, m % 0x4_0000 * 512 + p % 512);
  }

  // ---------------------------------------------------------------- windows of addresses

  /** How far `w` lies behind `start` in the 39-bit address space, going around its end. */
  function Distance(w: int, start: int): int { (w - start) % VA_SIZE }

  /** `p` and `v + q` agree modulo n exactly when p lies q behind v, modulo n. */
  lemma ShiftedRemainder(p: int, v: int, q: int, n: int)
    requires 0 <= q < n
    ensures (p - v) % n == q <==> p % n == (v + q) % n
  {
    if (p - v) % n == q { ShiftUp(p, v, q, n); }
    if p % n == (v + q) % n { ShiftDown(p, v, q, n); }
  }

  lemma ShiftUp(p: int, v: int, q: int, n: int)
    requires 0 <= q < n && (p - v) % n == q
    ensures p % n == (v + q) % n
  {
    var k, j, s := (p - v) / n, (v + q) / n, (v + q) % n;
    assert p - v == n * k + q && v + q == n * j + s;
    Distribute(n, k, j);
    QuotientRemainder(p, n, k + j, s);
  }

  lemma ShiftDown(p: int, v: int, q: int, n: int)
    requires 0 <= q < n && p % n == (v + q) % n
    ensures (p - v) % n == q
  {
    var i, j, s := p / n, (v + q) / n, (v + q) % n;
    assert p == n * i + s && v + q == n * j + s;
    Distribute(n, i - j, j);
    QuotientRemainder(p - v, n, i - j, q);
  }

  lemma DistanceInPages(step: int, n: int, w: int, start: int)
    requires 0 < step && 0 < n && step * n == VA_SIZE && start % step == 0
    ensures Distance(w, start) == step * ((w / step - start / step) % n) + w % step
    ensures Distance(w, start) % step == w % step
  {
    var p, rw, s := w / step, w % step, start / step;
    var k, r := (p - s) / n, (p - s) % n;
    assert w == step * p + rw && start == step * s && p - s == n * k + r;
    InnerBound(step, n, r, rw);
    Regroup(step, n, p, s, k, r, rw);
    QuotientRemainder(w - start, VA_SIZE, k, step * r + rw);
    QuotientRemainder(step * r + rw, step, r, rw);
  }

  lemma InPage(step: int, r: int, rw: int, q: int)
    requires 0 < step && 0 <= rw < step
    ensures step * q <= step * r + rw < step * q + step <==> r == q
  {
    if r < q {
      Ordered(step, r + 1, q);
      Distribute(step, r, 1);
    } else if q < r {
      Ordered(step, q + 1, r);
      Distribute(step, q, 1);
    }
  }

  /** For pages of `step` bytes, n of which make up the address space: page numbers agree modulo
      n exactly on the window of `step` addresses from `o` behind `start`. */
  lemma Window(step: int, n: int, w: int, start: int, o: int)
    requires 0 < step && 0 < n && step * n == VA_SIZE
    requires start % step == 0 && o % step == 0 && 0 <= o && o + step <= VA_SIZE
    ensures w / step % n == (start + o) / step % n <==> o <= Distance(w, start) < o + step
    ensures o <= Distance(w, start) < o + step ==> Distance(w, start) == o + w % step
  {
    hide Distance;
    var p, rw, s, q := w / step, w % step, start / step, o / step;
    assert start == step * s && o == step * q;
    var r := (p - s) % n;
    DistanceInPages(step, n, w, start);
    SumOfPages(step, start, o, s, q);
    Below(step, q, n);
    NonNegative(step, q);
    ShiftedRemainder(p, s, q, n);
    InPage(step, r, rw, q);
  }

  lemma SumOfPages(step: int, start: int, o: int, s: int, q: int)
    requires 0 < step && start == step * s && o == step * q
    ensures (start + o) / step == s + q
  {
    Distribute(step, s, q);
    QuotientRemainder(start + o, step, s + q, 0);
  }

  lemma NonNegative(step: int, q: int)
    requires 0 < step && 0 <= step * q
    ensures 0 <= q
  {
    if q <= -1 { Ordered(step, q, -1); }
  }

  /** Equal page numbers modulo 2^27 are equal indices at all three levels. */
  lemma SamePageNumber(w: int, va: int)
    requires 0 <= w && 0 <= va
    ensures w / PAGE_SIZE % 0x800_0000 == va / PAGE_SIZE % 0x800_0000
            <==> Vpn2(w) == Vpn2(va) && Vpn1(w) == Vpn1(va) && Vpn0(w) == Vpn0(va)
    ensures w / MEGA_SIZE % 0x4_0000 == va / MEGA_SIZE % 0x4_0000 <==> Vpn2(w) == Vpn2(va) && Vpn1(w) == Vpn1(va)
  {
    hide Vpn2, Vpn1, Vpn0;
    VpnDigits(w);
    VpnDigits(va);
    VpnRange(w);
    VpnRange(va);
    TwoDigits(Vpn2(w) * 512 + Vpn1(w), Vpn0(w), Vpn2(va) * 512 + Vpn1(va), Vpn0(va));
    TwoDigits(Vpn2(w), Vpn1(w), Vpn2(va), Vpn1(va));
  }

  lemma TwoDigits(a: int, x: int, b: int, y: int)
    requires 0 <= x < 512 && 0 <= y < 512
    ensures a * 512 + x == b * 512 + y <==> a == b && x == y
  {
  }
}
