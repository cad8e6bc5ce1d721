/**
 Requests that the allocator does not survive: heaps in good order for which the conditions of
 HeapRequest are met.
 */
module HeapFailures {

  import opened BlockHeader
  import opened Common
  import opened HeapCarve
  import opened HeapMemory
  import opened HeapRequest
  import opened HeapSpec

  /** A heap of one block. Free, it is the heap that `init` leaves. */
  function Lone(size: nat, used: bool): Heap
    requires size < TWO_32
  {
    Heap(map[HEAP_START := Header.New(size, used)], HEAP_START, if used then 0 else HEAP_START, HEAP_START + BLOCK_HEADER_SIZE + size,
         [Block(HEAP_START, size, used)], if used then [] else [HEAP_START])
  }

  lemma LoneOk(size: nat, used: bool)
    requires MIN_ALLOC_SIZE <= size && size % 8 == 0 && HEAP_START + BLOCK_HEADER_SIZE + size <= ADDRESS_LIMIT && size < TWO_32
    ensures HeapOk(Lone(size, used))
  {
    TilesOne(Block(HEAP_START, size, used));
    SingleSets(Block(HEAP_START, size, used));
  }

  /** The only free block is the first fit. */
  lemma LoneChosen(size: nat, request: nat, align: int, g: Growth, p: int)
    requires size < TWO_32 && align > 8 && Suits(HEAP_START, size, request, align, p)
    ensures HasFit(Lone(size, false).mem, [HEAP_START], request, align)
    ensures Chosen(Lone(size, false), request, align, g, [Block(HEAP_START, size, false)], 0)
  {
    hide Suits;
    assert Lone(size, false).free[0] == HEAP_START && FitsAt(Lone(size, false).mem, HEAP_START, request, align);
  }

  /** Behind the header there is no multiple of 64 before the 64th byte. */
  lemma LeastAt64(size: nat, request: nat)
    requires AlignUp(HEAP_START + 64 + request, 8) <= HEAP_START + size
    ensures IsLeast(HEAP_START, size, request, 64, HEAP_START + 64)
  {
    assert HEAP_START % 64 == 0;
    hide AlignUp;
    forall q | HEAP_START + BLOCK_HEADER_SIZE <= q < HEAP_START + 64 ensures q % 64 != 0 { }
  }

  /** A fresh heap of one page, and a request aligned to 64 bytes whose payload ends with the block:
      nothing is left for a trailing block, and no heap remains. */
  lemma FreshHeapSpoiled()
    ensures HeapOk(Lone(4080, false)) && WillSpoil(Lone(4080, false), 4016, 64, NoGrow)
  {
    LoneOk(4080, false);
    LeastAt64(4080, 4016);
    var h, b := Lone(4080, false), Block(HEAP_START, 4080, false);
    assert CarveSpoils(b, true, 4016, HEAP_START + 64 - BLOCK_HEADER_SIZE);
    hide Suits, AlignUp, CarveSpoils;
    LoneChosen(4080, 4016, 64, NoGrow, HEAP_START + 64);
    hide Chosen, Lone;
    assert SpoilsIn(b, true, 4016, 64);
    assert WillSpoil(h, 4016, 64, NoGrow) by { assert [b][0] == b; }
  }

  /** One used block, and a request that a page holds only just: it panics after growing. */
  lemma GrownHeapPanics()
    ensures HeapOk(Lone(4080, true)) && WillPanic(Lone(4080, true), 4072, 8, Kernel(true))
  {
    LoneOk(4080, true);
    assert PowerOfTwo(8);
    hide HeapOk, PowerOfTwo;
    SmallOutcome(Lone(4080, true), 4072, 8, Kernel(true));
  }

  /** A small heap, and eight bytes aligned to 64: there is a suitable address, but no room for the least
      block there. */
  lemma SmallHeapPanics()
    ensures HeapOk(Lone(72, false)) && WillPanic(Lone(72, false), 8, 64, NoGrow)
  {
    LoneOk(72, false);
    LeastAt64(72, 8);
    var h, b := Lone(72, false), Block(HEAP_START, 72, false);
    assert CarveUnderflows(HEAP_START, 72, 8, HEAP_START + 64 - BLOCK_HEADER_SIZE);
    hide Suits, AlignUp, CarveUnderflows;
    LoneChosen(72, 8, 64, NoGrow, HEAP_START + 64);
    hide Chosen, Lone, HasFit;
    assert Underflows(b.addr, b.size, 8, 64);
    assert PanicsIn([b][0], false, 8, 64);
  }

  // ---------------------------------------------------------------- a page-sized, page-aligned buffer

  const FRONT: Block := Block(HEAP_START, 16368, false)
  const BACK: Block := Block(HEAP_START + 16384, 4080, true)

  /** A free block of four pages with a used one behind it. */
  const TWO_BLOCKS: Heap :=
    Heap(map[HEAP_START := Header.New(16368, false), HEAP_START + 16384 := Header.New(4080, true).SetPrev(HEAP_START)],
         HEAP_START + 16384, HEAP_START, HEAP_START + 20480, [FRONT, BACK], [HEAP_START])

  lemma TwoBlocksOk()
    ensures HeapOk(TWO_BLOCKS)
  {
    assert [FRONT, BACK] == [FRONT] + [BACK];
    TilesOne(FRONT);
    TilesOne(BACK);
    TilesConcat([FRONT], [BACK], HEAP_START, HEAP_START + 16384, HEAP_START + 20480);
    SingleSets(FRONT);
    SingleSets(BACK);
    SetsOfConcat([FRONT], [BACK]);
  }

  lemma LeastAtPage()
    ensures IsLeast(HEAP_START, 16368, 4096, 4096, HEAP_START + 4096)
  {
    assert HEAP_START % 4096 == 0;
    assert AlignUp(HEAP_START + 8192, 8) == HEAP_START + 8192;
    hide AlignUp;
    forall q | HEAP_START + BLOCK_HEADER_SIZE <= q < HEAP_START + 4096 ensures q % 4096 != 0 { }
  }

  /** A block buffer of the disk cache, 4096 bytes aligned to 4096, goes into the free block in front of
      another one: there is ample room, and still no heap remains. */
  lemma BlockBufferSpoils(g: Growth)
    ensures HeapOk(TWO_BLOCKS) && WillSpoil(TWO_BLOCKS, 4096, 4096, g)
  {
    TwoBlocksOk();
    LeastAtPage();
    var h := TWO_BLOCKS;
    assert CarveSpoils(FRONT, false, 4096, HEAP_START + 4096 - BLOCK_HEADER_SIZE);
    hide Suits, AlignUp, CarveSpoils;
    assert h.free[0] == HEAP_START && FitsAt(h.mem, HEAP_START, 4096, 4096);
    hide FitsAt;
    assert Chosen(h, 4096, 4096, g, h.blocks, 0);
    assert SpoilsIn(h.blocks[0], false, 4096, 4096);
  }
}
