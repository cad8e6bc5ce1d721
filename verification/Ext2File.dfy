/**
 Reading an ext2 file. The code copies block by block through the pointer tree; it refines reading
 a flat array of cells one byte at a time.
 */
module Ext2File {

  import opened Arithmetic
  import opened Common
  import opened Ext2Inode
  import opened Sequences

  /** What stands at an offset of a file: a byte, a hole, or something the disk fails to give. */
  datatype Cell = Data(b: byte) | Hole | Bad

  datatype Inode = Inode(sb: SuperBlock, blocks: Pointers, len: nat, regular: bool)

  /** The block that holds a block index of the file. */
  datatype Chunk = Block(buf: BlockBuf) | NoBlock | Fault

  function ChunkAt(f: Inode, idx: nat): Chunk
    requires Supported(f.sb)
  {
    match Resolve(f.sb, f.blocks, idx)
    case Err => Fault
    case Ok(ptr) =>
      if ptr == 0 then NoBlock
      else match GetBlock(f.sb, BlockToSector(f.sb, ptr)) case Err => Fault case Ok(buf) => Block(buf)
  }

  function IndexIn(sb: SuperBlock, off: nat): nat
    requires Supported(sb)
  {
    off / BlockSize(sb)
  }

  function OffsetIn(sb: SuperBlock, off: nat): (o: nat)
    requires Supported(sb)
    ensures o < BlockSize(sb)
  {
    off % BlockSize(sb)
  }

  function CellAt(f: Inode, off: nat): Cell
    requires Supported(f.sb)
  {
    match ChunkAt(f, IndexIn(f.sb, off))
    case Fault => Bad
    case NoBlock => Hole
    case Block(buf) => Data(buf[OffsetIn(f.sb, off)])
  }

  /** What stands at byte o of the file's block number k. */
  function InBlock(f: Inode, k: nat, o: nat): Cell
    requires Supported(f.sb) && o < BlockSize(f.sb)
  {
    match Resolve(f.sb, f.blocks, k)
    case Err => Bad
    case Ok(ptr) =>
      var sector := BlockToSector(f.sb, ptr);
      if ptr == 0 then Hole
      else if sector in f.sb.volume then Data(f.sb.volume[sector][o])
      else Bad
  }

  /** The bytes of a file are those of its blocks, one block after the other. */
  lemma CellMeans(f: Inode, k: nat, o: nat)
    requires Supported(f.sb) && o < BlockSize(f.sb)
    ensures k * BlockSize(f.sb) + o >= 0 && CellAt(f, k * BlockSize(f.sb) + o) == InBlock(f, k, o)
  {
    var bs := BlockSize(f.sb);
    hide Resolve, BlockSize;
    assert k * bs >= 0;
    QuotientRemainder(k * bs + o, bs, k, o);
  }

  /** Offset `off` of the file is somewhere in one of its blocks, and this stands there. */
  ghost predicate Holds(f: Inode, off: nat, c: Cell)
    requires Supported(f.sb)
  {
    exists k: nat, o: nat | o < BlockSize(f.sb) :: off == k * BlockSize(f.sb) + o && InBlock(f, k, o) == c
  }

  lemma CellIs(f: Inode, off: nat)
    requires Supported(f.sb)
    ensures Holds(f, off, CellAt(f, off))
  {
    hide CellAt, InBlock, BlockSize;
    var k, o := off / BlockSize(f.sb), off % BlockSize(f.sb);
    assert off == k * BlockSize(f.sb) + o;
    CellMeans(f, k, o);
    assert InBlock(f, k, o) == CellAt(f, off);
  }

  /** Only one thing stands at an offset. */
  lemma HoldsOne(f: Inode, off: nat, c: Cell)
    requires Supported(f.sb)
    ensures Holds(f, off, c) <==> CellAt(f, off) == c
  {
    hide CellAt, InBlock, BlockSize;
    CellIs(f, off);
    forall k: nat, o: nat | o < BlockSize(f.sb) && off == k * BlockSize(f.sb) + o ensures InBlock(f, k, o) == CellAt(f, off) {
      CellMeans(f, k, o);
    }
  }

  /** What a read got, and whether it ended without a disk error. */
  datatype Got = Got(data: seq<byte>, ok: bool)

  /** Read n bytes one at a time, up to the end of the file, the first hole or the first error. */
  function ReadFlat(f: Inode, off: nat, n: nat): (g: Got)
    requires Supported(f.sb)
    ensures |g.data| <= n && (off <= f.len ==> off + |g.data| <= f.len)
    decreases n
  {
    if n == 0 || off >= f.len then Got([], true)
    else
      match CellAt(f, off)
      case Hole => Got([], true)
      case Bad => Got([], false)
      case Data(b) =>
        var rest := ReadFlat(f, off + 1, n - 1);
        Got([b] + rest.data, rest.ok)
  }

  // ---------------------------------------------------------------- what a read returns

  /** The bytes are those of the file's blocks from the offset on; a short read stopped at the end of the
      file, at a hole, or, with an error, at a byte the disk fails to give. */
  lemma {:induction false} ReadMeans(f: Inode, off: nat, n: nat)
    requires Supported(f.sb)
    ensures var g := ReadFlat(f, off, n);
            && (forall i | 0 <= i < |g.data| :: Holds(f, off + i, Data(g.data[i])))
            && (|g.data| == n || off + |g.data| >= f.len ==> g.ok)
            && (|g.data| < n && off + |g.data| < f.len ==> Holds(f, off + |g.data|, if g.ok then Hole else Bad))
    decreases n
  {
    hide CellAt, Holds;
    if n > 0 && off < f.len {
      CellIs(f, off);
      if CellAt(f, off).Data? {
        ReadMeans(f, off + 1, n - 1);
        var g, rest := ReadFlat(f, off, n), ReadFlat(f, off + 1, n - 1);
        forall i | 0 <= i < |g.data| ensures Holds(f, off + i, Data(g.data[i])) {
          if i > 0 {
            assert Holds(f, off + 1 + (i - 1), Data(rest.data[i - 1]));
          }
        }
      }
    }
  }

  /** Two reads, the second where the first stopped, give what one longer read gives. */
  lemma {:induction false} TwoReadsAreOne(f: Inode, off: nat, n: nat, m: nat)
    requires Supported(f.sb)
    ensures var first := ReadFlat(f, off, n);
            var second := ReadFlat(f, off + |first.data|, m);
            first.ok ==> ReadFlat(f, off, n + m) == Got(first.data + second.data, second.ok)
    decreases n
  {
    hide CellAt;
    var first := ReadFlat(f, off, n);
    if n == 0 || off >= f.len || !CellAt(f, off).Data? {
      assert first.data == [];
      var second := ReadFlat(f, off, m);
      assert [] + second.data == second.data;
    } else {
      TwoReadsAreOne(f, off + 1, n - 1, m);
      var rest := ReadFlat(f, off + 1, n - 1);
      var second := ReadFlat(f, off + |first.data|, m);
      assert off + |first.data| == off + 1 + |rest.data|;
      Associative([CellAt(f, off).b], rest.data, second.data);
    }
  }

  /** A read makes progress: it returns nothing, without error, exactly at the end of the file, at a
      hole, or when nothing was asked for. */
  lemma NothingReadIff(f: Inode, off: nat, n: nat)
    requires Supported(f.sb)
    ensures ReadFlat(f, off, n) == Got([], true) <==> n == 0 || off >= f.len || Holds(f, off, Hole)
  {
    HoldsOne(f, off, Hole);
    hide CellAt, Holds;
  }

  // ---------------------------------------------------------------- block by block

  /** Inside one block the cells are the block's bytes. */
  lemma CellsOfBlock(f: Inode, off: nat, j: nat)
    requires Supported(f.sb) && OffsetIn(f.sb, off) + j < BlockSize(f.sb)
    ensures CellAt(f, off + j) ==
            match ChunkAt(f, IndexIn(f.sb, off))
            case Fault => Bad
            case NoBlock => Hole
            case Block(buf) => Data(buf[OffsetIn(f.sb, off) + j])
  {
    hide ChunkAt;
    var bs := BlockSize(f.sb);
    QuotientRemainder(off + j, bs, off / bs, off % bs + j);
  }

  lemma {:induction false} ReadInBlock(f: Inode, off: nat, n: nat, c: nat, buf: BlockBuf)
    requires Supported(f.sb) && c <= n && off + c <= f.len
    requires OffsetIn(f.sb, off) + c <= BlockSize(f.sb)
    requires ChunkAt(f, IndexIn(f.sb, off)) == Block(buf)
    ensures var o := OffsetIn(f.sb, off);
            var rest := ReadFlat(f, off + c, n - c);
            ReadFlat(f, off, n) == Got(buf[o..o + c] + rest.data, rest.ok)
    decreases c
  {
    hide ChunkAt, CellAt, BlockSize, IndexIn, OffsetIn;
    var o := OffsetIn(f.sb, off);
    var rest := ReadFlat(f, off + c, n - c);
    if c == 0 {
      assert buf[o..o] + rest.data == rest.data;
    } else {
      ReadInBlock(f, off, n, c - 1, buf);
      CellsOfBlock(f, off, c - 1);
      var k := off + (c - 1);
      assert ReadFlat(f, k, n - (c - 1)) == Got([buf[o + c - 1]] + rest.data, rest.ok);
      Associative(buf[o..o + c - 1], [buf[o + c - 1]], rest.data);
      assert buf[o..o + c - 1] + [buf[o + c - 1]] == buf[o..o + c];
    }
  }

  class File {
    const inode: Inode
    var offset: nat

    constructor (inode: Inode)
      ensures this.inode == inode && offset == 0
    {
      this.inode := inode;
      offset := 0;
    }

    /** `Ext2FileOps::read`. On a disk error the offset keeps the blocks already copied. */
    method Read(buf: array<byte>) returns (r: Result<nat>)
      requires Supported(inode.sb)
      modifies this`offset, buf
      ensures !inode.regular ==> r == Err && offset == old(offset) && buf[..] == old(buf[..])
      ensures inode.regular ==>
                var g := ReadFlat(inode, old(offset), buf.Length);
                && r == (if g.ok then Ok(|g.data|) else Err)
                && offset == old(offset) + |g.data|
                && buf[..] == g.data + old(buf[..])[|g.data|..]
    {
      hide ReadFlat;
      if !inode.regular {
        return Err;
      }
      StopsHere(inode, offset, buf.Length);
      if offset >= inode.len || buf.Length == 0 {
        return Ok(0);
      }
      var pos, ok := CopyBlocks(buf);
      return if ok then Ok(pos) else Err;
    }

    /** The loop of `read`. */
    method CopyBlocks(buf: array<byte>) returns (pos: nat, ok: bool)
      requires Supported(inode.sb) && offset < inode.len
      modifies this`offset, buf
      ensures offset == old(offset) + pos && CopyDone(inode, old(offset), old(buf[..]), pos, ok, buf[..])
    {
      hide ChunkAt, BlockSize, IndexIn, OffsetIn, Copied, CopyDone;
      ghost var start, was := offset, buf[..];
      CopyBegins(inode, start, was);
      pos, ok := 0, true;
      while pos < buf.Length && offset < inode.len
        invariant pos <= buf.Length && offset == start + pos && ok && Copied(inode, start, was, pos, buf[..])
        decreases buf.Length - pos
      {
        var chunk := ChunkAt(inode, IndexIn(inode.sb, offset));
        if !chunk.Block? {
          CopyStops(inode, start, was, pos, chunk.NoBlock?, buf[..]);
          return pos, chunk.NoBlock?;
        }
        var slice := SliceOf(chunk.buf, buf.Length - pos);
        CopyNext(inode, start, was, pos, buf[..], chunk.buf, slice);
        CopyChunk(buf, pos, slice);
        offset := offset + |slice|;
        pos := pos + |slice|;
      }
      CopyStops(inode, start, was, pos, true, buf[..]);
    }

    /** The part of the current block to copy: up to its end, the end of the file or the buffer's end. */
    method SliceOf(block: BlockBuf, room: nat) returns (slice: seq<byte>)
      requires Supported(inode.sb) && offset < inode.len && room > 0
      ensures var o, c := OffsetIn(inode.sb, offset), |slice|;
              && 0 < c == Min(Min(BlockSize(inode.sb) - o, inode.len - offset), room)
              && o + c <= CACHE_BLOCK_SIZE && slice == block[o..o + c]
    {
      var blockOffset := OffsetIn(inode.sb, offset);
      var copyLen := Min(Min(BlockSize(inode.sb) - blockOffset, inode.len - offset), room);
      SizeBound(inode.sb, offset);
      return block[blockOffset..blockOffset + copyLen];
    }
  }

  /** A read from `start` into a buffer that held `was` has come `pos` bytes far. */
  ghost predicate Copied(f: Inode, start: nat, was: seq<byte>, pos: nat, now: seq<byte>)
    requires Supported(f.sb)
  {
    && |now| == |was| && pos <= |was| && start + pos <= f.len && now[pos..] == was[pos..]
    && Remains(f, ReadFlat(f, start, |was|), now[..pos], start + pos, |was| - pos)
  }

  /** It is over: the buffer holds what a byte-by-byte read gives, and behind it what it held before. */
  ghost predicate CopyDone(f: Inode, start: nat, was: seq<byte>, pos: nat, ok: bool, now: seq<byte>)
    requires Supported(f.sb)
  {
    var g := ReadFlat(f, start, |was|);
    ok == g.ok && pos == |g.data| && pos <= |was| && now == g.data + was[pos..]
  }

  lemma CopyBegins(f: Inode, start: nat, was: seq<byte>)
    requires Supported(f.sb) && start <= f.len
    ensures Copied(f, start, was, 0, was)
  {
    hide ReadFlat;
    RemainsAll(f, start, |was|);
    assert was[..0] == [];
  }

  lemma CopyStops(f: Inode, start: nat, was: seq<byte>, pos: nat, ok: bool, now: seq<byte>)
    requires Supported(f.sb) && Copied(f, start, was, pos, now)
    requires if pos == |was| || start + pos >= f.len then ok
             else !ChunkAt(f, IndexIn(f.sb, start + pos)).Block? && ok == ChunkAt(f, IndexIn(f.sb, start + pos)).NoBlock?
    ensures CopyDone(f, start, was, pos, ok, now)
  {
    hide ReadFlat, ChunkAt, IndexIn, Remains;
    RemainsStop(f, ReadFlat(f, start, |was|), now[..pos], start + pos, |was| - pos);
    assert now == now[..pos] + now[pos..];
  }

  lemma CopyNext(f: Inode, start: nat, was: seq<byte>, pos: nat, now: seq<byte>, buf: BlockBuf, slice: seq<byte>)
    requires Supported(f.sb) && Copied(f, start, was, pos, now) && ChunkAt(f, IndexIn(f.sb, start + pos)) == Block(buf)
    requires var o := OffsetIn(f.sb, start + pos);
             && |slice| <= Min(Min(BlockSize(f.sb) - o, f.len - (start + pos)), |was| - pos)
             && o + |slice| <= CACHE_BLOCK_SIZE && slice == buf[o..o + |slice|]
    ensures Copied(f, start, was, pos + |slice|, now[..pos] + slice + now[pos + |slice|..])
  {
    hide ReadFlat, ChunkAt, IndexIn, OffsetIn, BlockSize, Remains;
    RemainsNext(f, ReadFlat(f, start, |was|), now[..pos], start + pos, |was| - pos, |slice|, buf);
    var next := now[..pos] + slice + now[pos + |slice|..];
    assert next[..pos + |slice|] == now[..pos] + slice;
    assert next[pos + |slice|..] == now[pos..][|slice|..] == was[pos + |slice|..];
  }

  /** Of a whole read, `front` is done and the rest is a read of n bytes at `off`. */
  ghost predicate Remains(f: Inode, whole: Got, front: seq<byte>, off: nat, n: nat)
    requires Supported(f.sb)
  {
    var rest := ReadFlat(f, off, n);
    whole.data == front + rest.data && whole.ok == rest.ok
  }

  lemma RemainsAll(f: Inode, off: nat, n: nat)
    requires Supported(f.sb)
    ensures Remains(f, ReadFlat(f, off, n), [], off, n)
  {
  }

  lemma RemainsNext(f: Inode, whole: Got, front: seq<byte>, off: nat, n: nat, c: nat, buf: BlockBuf)
    requires Supported(f.sb) && c <= n && off + c <= f.len && Remains(f, whole, front, off, n)
    requires OffsetIn(f.sb, off) + c <= BlockSize(f.sb)
    requires ChunkAt(f, IndexIn(f.sb, off)) == Block(buf)
    ensures var o := OffsetIn(f.sb, off); Remains(f, whole, front + buf[o..o + c], off + c, n - c)
  {
    hide ChunkAt, BlockSize, IndexIn, OffsetIn, ReadFlat;
    ReadInBlock(f, off, n, c, buf);
    var o := OffsetIn(f.sb, off);
    Associative(front, buf[o..o + c], ReadFlat(f, off + c, n - c).data);
  }

  lemma RemainsStop(f: Inode, whole: Got, front: seq<byte>, off: nat, n: nat)
    requires Supported(f.sb) && Remains(f, whole, front, off, n)
    ensures n == 0 || off >= f.len ==> whole == Got(front, true)
    ensures n > 0 && off < f.len ==>
              match ChunkAt(f, IndexIn(f.sb, off))
              case Fault => whole == Got(front, false)
              case NoBlock => whole == Got(front, true)
              case Block(_) => true
  {
    hide ChunkAt, BlockSize, IndexIn, OffsetIn, ReadFlat;
    StopsHere(f, off, n);
    assert front + [] == front;
  }

  /** Where the byte-by-byte read stops at once. */
  lemma StopsHere(f: Inode, off: nat, n: nat)
    requires Supported(f.sb)
    ensures n == 0 || off >= f.len ==> ReadFlat(f, off, n) == Got([], true)
    ensures n > 0 && off < f.len ==>
              match ChunkAt(f, IndexIn(f.sb, off))
              case Fault => ReadFlat(f, off, n) == Got([], false)
              case NoBlock => ReadFlat(f, off, n) == Got([], true)
              case Block(_) => true
  {
    hide ChunkAt, BlockSize;
  }

  lemma SizeBound(sb: SuperBlock, off: nat)
    requires Supported(sb)
    ensures OffsetIn(sb, off) < BlockSize(sb) <= CACHE_BLOCK_SIZE
  {
  }
}
