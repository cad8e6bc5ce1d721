/**
 How far the heap grows, and which requests growth does not save, in terms of the request alone: the
 pages added are the fewest that hold a header, the alignment and the request.
 */
module HeapGrowth {

  import opened Arithmetic
  import opened BlockHeader
  import opened Common
  import opened HeapCarve
  import opened HeapRequest
  import opened HeapSpec

  /** Whole pages, at least one, that hold `bytes`. */
  predicate Holds(n: int, bytes: int) { n >= PAGE_SIZE && n % PAGE_SIZE == 0 && bytes <= n }

  ghost predicate FewestPages(n: int, bytes: int) {
    Holds(n, bytes) && forall m | Holds(m, bytes) :: n <= m
  }

  lemma RequestIsFewest(size: nat, align: int)
    requires align > 0
    ensures FewestPages(AlignUp(GrowRequest(size, align), PAGE_SIZE), BLOCK_HEADER_SIZE + align + size)
  {
    hide AlignUp;
    AlignUpIsLeast(GrowRequest(size, align), PAGE_SIZE);
  }

  /** Where no free block will do, the heap ends the fewest pages further on that hold a header, the
      alignment and the request, and at least one; growth is refused exactly if that is no address, and
      panics for want of frames only. */
  lemma GrowsByFewestPages(h: Heap, size: nat, align: int, g: Growth) returns (n: int)
    requires align > 0
    ensures FewestPages(n, BLOCK_HEADER_SIZE + align + size)
    ensures EndAfter(h, size, align, g) ==
            if !HasFit(h.mem, h.free, size, align) && g == Kernel(true) && h.end + n < ADDRESS_LIMIT then h.end + n else h.end
    ensures WillFail(h, size, align, g) <==>
              !HasFit(h.mem, h.free, size, align) && (g.NoGrow? || h.end + n >= ADDRESS_LIMIT)
    ensures !HasFit(h.mem, h.free, size, align) && g == Kernel(false) && h.end + n < ADDRESS_LIMIT ==>
              WillPanic(h, size, align, g)
  {
    hide HasFit, AlignUp, GrowRequest, FewestPages, Chosen;
    RequestIsFewest(size, align);
    n := AlignUp(GrowRequest(size, align), PAGE_SIZE);
  }

  /** A request at a small alignment that nothing fits and growth is granted to panics exactly if the last
      block is in use and some number of pages holds a header, the alignment and the request, but not two
      headers, the least payload and the request. */
  lemma SmallPanicIff(h: Heap, size: nat, align: int)
    requires PowerOfTwo(align) && align <= 8 && HeapOk(h)
    ensures align > 0
    ensures !WillFail(h, size, align, Kernel(true)) ==>
              (WillPanic(h, size, align, Kernel(true)) <==>
                 && !HasFit(h.mem, h.free, size, align) && h.blocks != [] && h.blocks[|h.blocks| - 1].used
                 && exists k :: BLOCK_HEADER_SIZE + align + size <= PAGE_SIZE * k < AlignUp(size, 8) + MIN_BLOCK_SIZE && k >= 1)
  {
    hide HeapOk, HasFit, AlignUp, GrowRequest, WillPanic, WillSpoil, PowerOfTwo;
    SmallOutcome(h, size, align, Kernel(true));
    RequestIsFewest(size, align);
    var n := AlignUp(GrowRequest(size, align), PAGE_SIZE);
    assert n == PAGE_SIZE * (n / PAGE_SIZE);
    forall k | BLOCK_HEADER_SIZE + align + size <= PAGE_SIZE * k && k >= 1 ensures n <= PAGE_SIZE * k {
      assert Holds(PAGE_SIZE * k, BLOCK_HEADER_SIZE + align + size);
    }
  }
}
