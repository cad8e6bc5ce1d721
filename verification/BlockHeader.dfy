/**
 The sixteen-byte header in front of every heap block: four 32-bit words, with links stored
 as offsets from the start of the heap and the "used" flag packed into bit 0 of the last word.

 `Packed` is the header as stored, with the source's accessors; `Header` is what those
 accessors read. The allocator works on `Header`, whose setters demand what makes the packed
 setters lossless; `SettersCommute` shows that demand to be exact.

 Pointers are integers and the null pointer is 0. Masks with powers of two are written as
 remainders: `x & 1` is `x % 2`, `x & 0xffff_fffe` (for a 32-bit x) is `x - x % 2`.
 */
module BlockHeader {

  import opened Common

  const BLOCK_HEADER_SIZE := 16
  const NULL_OFFSET := 0xffff_fffe

  /** `heap_start()`: the address that every stored offset is relative to. */
  const HEAP_START: int := 0xffff_ffff_c000_0000

  type u32 = x: int | 0 <= x < 0x1_0000_0000

  // ---------------------------------------------------------------- as stored

  function FromOffset(offset: u32): int {
    if offset == NULL_OFFSET then 0 else HEAP_START + offset
  }

  function ToOffset(pointer: int): u32 {
    if pointer == 0 then NULL_OFFSET else (pointer - HEAP_START) % TWO_32
  }

  /** Bitwise or of a single bit and a 32-bit word. */
  function OrBit(bit: u32, word: u32): u32
    requires bit < 2
  {
    if word % 2 == 1 then word else word + bit
  }

  datatype Packed = Packed(size: u32, prev: u32, freeNext: u32, freePrev: u32) {

    static function New(size: int, used: bool): Packed {
      Packed(size % TWO_32, NULL_OFFSET, NULL_OFFSET, OrBit(if used then 1 else 0, NULL_OFFSET))
    }

    predicate IsUsed() { freePrev % 2 != 0 }

    function Prev(): int { FromOffset(prev) }

    function FreeNext(): int { FromOffset(freeNext) }

    function FreePrev(): int { FromOffset(freePrev - freePrev % 2) }

    function SetPrev(p: int): Packed { this.(prev := ToOffset(p)) }

    function SetFreeNext(p: int): Packed { this.(freeNext := ToOffset(p)) }

    function SetFreePrev(p: int): Packed { this.(freePrev := OrBit(freePrev % 2, ToOffset(p))) }

    function SetSize(n: int): Packed { this.(size := n % TWO_32) }

    function AddSize(n: int): Packed { this.(size := (size + n % TWO_32) % TWO_32) }

    function SetUsed(): Packed { this.(freePrev := OrBit(1, freePrev)) }

    function SetFree(): Packed { this.(freePrev := freePrev - freePrev % 2) }

    function Unpack(): Header { Header(size, IsUsed(), Prev(), FreeNext(), FreePrev()) }
  }

  // ---------------------------------------------------------------- as read

  /** A pointer that every link word stores without loss and without touching the used flag. */
  predicate Storable(p: int) {
    p == 0 || (HEAP_START <= p < HEAP_START + NULL_OFFSET && p % 2 == 0)
  }

  datatype Header = Header(size: int, used: bool, prev: int, freeNext: int, freePrev: int) {

    static function New(size: int, used: bool): Header
      requires 0 <= size < TWO_32
    {
      Header(size, used, 0, 0, 0)
    }

    function SetPrev(p: int): Header
      requires Storable(p)
    {
      this.(prev := p)
    }

    function SetFreeNext(p: int): Header
      requires Storable(p)
    {
      this.(freeNext := p)
    }

    function SetFreePrev(p: int): Header
      requires Storable(p)
    {
      this.(freePrev := p)
    }

    function SetSize(n: int): Header
      requires 0 <= n < TWO_32
    {
      this.(size := n)
    }

    function AddSize(n: int): Header
      requires 0 <= n && 0 <= size + n < TWO_32
    {
      this.(size := size + n)
    }

    function SetUsed(): Header { this.(used := true) }

    function SetFree(): Header { this.(used := false) }
  }

  // ---------------------------------------------------------------- the two agree

  /** The packed free_prev word carries a pointer and the used flag at once, exactly for
      storable pointers: any other pointer comes back changed. */
  lemma FreePrevSetterCommutes(w: Packed, p: int)
    requires p == 0 || HEAP_START <= p
    ensures w.SetFreePrev(p).Unpack() == w.Unpack().(freePrev := p) <==> Storable(p)
  {
    if p != 0 && p % 2 == 0 {
      EvenOffset(p - HEAP_START);
    }
  }

  lemma EvenOffset(q: int)
    requires q % 2 == 0
    ensures q % TWO_32 % 2 == 0
  {
    assert q == TWO_32 * (q / TWO_32) + q % TWO_32;
  }

  /** The plain link words lose exactly the offsets of 4 GiB and more, and the null offset. */
  lemma LinkSettersCommute(w: Packed, p: int)
    requires p == 0 || HEAP_START <= p
    ensures w.SetPrev(p).Unpack() == w.Unpack().(prev := p)
            <==> p == 0 || (p - HEAP_START < TWO_32 && p - HEAP_START != NULL_OFFSET)
    ensures w.SetFreeNext(p).Unpack() == w.Unpack().(freeNext := p)
            <==> p == 0 || (p - HEAP_START < TWO_32 && p - HEAP_START != NULL_OFFSET)
  {
  }

  /** Every packed accessor pair agrees with the plain header under the demands stated there. */
  lemma SettersCommute(w: Packed, p: int, n: int, used: bool)
    ensures Storable(p) ==>
              && w.SetPrev(p).Unpack() == w.Unpack().SetPrev(p)
              && w.SetFreeNext(p).Unpack() == w.Unpack().SetFreeNext(p)
              && w.SetFreePrev(p).Unpack() == w.Unpack().SetFreePrev(p)
    ensures 0 <= n < TWO_32 ==>
              && w.SetSize(n).Unpack() == w.Unpack().SetSize(n)
              && Packed.New(n, used).Unpack() == Header.New(n, used)
    ensures 0 <= n && w.size + n < TWO_32 ==> w.AddSize(n).Unpack() == w.Unpack().AddSize(n)
    ensures w.SetUsed().Unpack() == w.Unpack().SetUsed()
    ensures w.SetFree().Unpack() == w.Unpack().SetFree()
  {
    if Storable(p) {
      FreePrevSetterCommutes(w, p);
      LinkSettersCommute(w, p);
    }
  }
}
