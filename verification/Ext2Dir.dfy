/**
 Iteration over an ext2 directory. The iterator trusts nothing it reads: it ends on every content
 of the disk. On directories whose blocks are tiled by well-formed records it lists exactly the
 records in use, in order.
 */
module Ext2Dir {

  import opened Arithmetic
  import opened Common
  import opened Ext2Inode
  import Utf8

  const NAME_OFFSET := 8
  const TWO_16 := 0x1_0000

  datatype DirEntry = DirEntry(ino: nat, name: seq<byte>, fileType: byte)

  /** A directory inode. */
  datatype Dir = Dir(sb: SuperBlock, blocks: Pointers, size: nat) {
    /** The size is a 32-bit number. */
    predicate Ok() { Supported(sb) && size < TWO_32 }

    function BS(): int
      requires Ok()
    {
      BlockSize(sb)
    }
  }

  /** Where the iterator stands; the buffer counts only while offset is below the block size. */
  datatype Cursor = Cursor(idx: nat, offset: nat, read: nat, buf: BlockBuf)

  predicate ValidCursor(d: Dir, c: Cursor)
    requires d.Ok()
  {
    c.offset < d.BS() ==> c.idx < Reach(PtrsPerBlock(d.sb)) && c.read < d.size
  }

  /** What one round of the loop comes to. */
  datatype Round = End | Fail | Skip(next: Cursor) | Yield(next: Cursor, entry: DirEntry) | TooMany

  /** The first part of a round: load the next block if the current one is used up. */
  function Loaded(d: Dir, c: Cursor): (r: Round)
    requires d.Ok() && ValidCursor(d, c)
    ensures !r.Yield? && !r.TooMany?
    ensures r.Skip? ==> ValidCursor(d, r.next) && r.next.idx == c.idx && r.next.offset < d.BS()
    ensures r.Skip? ==> r.next.offset == if c.offset < d.BS() then c.offset else 0
  {
    if c.offset < d.BS() then Skip(c)
    else if c.read >= d.size then End
    else
      ResolveDescends(d.sb, d.blocks, c.idx);
      match Resolve(d.sb, d.blocks, c.idx)
      case Err => Fail
      case Ok(ptr) =>
        if ptr == 0 then End
        else
          match GetBlock(d.sb, BlockToSector(d.sb, ptr))
          case Err => Fail
          case Ok(buf) => Skip(c.(offset := 0, buf := buf))
  }

  function NextBlock(d: Dir, c: Cursor): Cursor
    requires d.Ok()
  {
    c.(idx := c.idx + 1, offset := d.BS())
  }

  function RecLen(b: BlockBuf, at: nat): int
    requires at + NAME_OFFSET <= CACHE_BLOCK_SIZE
  {
    U16(b, at + 4)
  }

  /** Length of the record at the cursor; zero where the iterator gives up on the block. */
  function MetLength(d: Dir, c: Cursor): nat
    requires d.Ok() && c.offset < d.BS()
  {
    if c.offset + NAME_OFFSET > d.BS() then 0 else RecLen(c.buf, c.offset)
  }

  /** The second part: the record at the cursor. */
  function Step(d: Dir, c: Cursor): (r: Round)
    requires d.Ok() && ValidCursor(d, c) && c.offset < d.BS()
    ensures r.Skip? || r.Yield?
    ensures ValidCursor(d, r.next) && r.next.read == c.read + MetLength(d, c)
    ensures r.next.idx == c.idx + 1 || (r.next.idx == c.idx && c.offset < r.next.offset < d.BS())
  {
    var bs := d.BS();
    var at := c.offset;
    if at + NAME_OFFSET > bs then Skip(NextBlock(d, c))
    else
      var ino, recLen, nameLen := U32(c.buf, at), RecLen(c.buf, at), c.buf[at + 6];
      if recLen == 0 then Skip(NextBlock(d, c))
      else
        var moved := c.(offset := at + recLen, read := c.read + recLen);
        var n := if moved.offset >= bs || moved.read >= d.size then NextBlock(d, moved) else moved;
        var nameEnd := at + NAME_OFFSET + nameLen;
        if ino == 0 || nameLen == 0 || nameEnd > bs || !Utf8.Valid(c.buf[at + NAME_OFFSET..nameEnd]) then Skip(n)
        else Yield(n, DirEntry(ino, c.buf[at + NAME_OFFSET..nameEnd], c.buf[at + 7]))
  }

  /** The same with the 32-bit count of bytes, which panics when it overflows. */
  function Record(d: Dir, c: Cursor): (r: Round)
    requires d.Ok() && ValidCursor(d, c) && c.offset < d.BS()
    ensures r.TooMany? <==> c.read + MetLength(d, c) >= TWO_32
    ensures r.TooMany? ==> d.size > TWO_32 - TWO_16
    ensures !r.TooMany? ==> r == Step(d, c) && r.next.read < TWO_32
  {
    if c.read + MetLength(d, c) >= TWO_32 then TooMany else Step(d, c)
  }

  /** Bytes left in the current block; one more while the next block is not loaded yet. */
  function Left(d: Dir, c: Cursor): nat
    requires d.Ok()
  {
    if c.offset < d.BS() then d.BS() - c.offset else d.BS() + 1
  }

  function BlocksLeft(d: Dir, c: Cursor): nat
    requires d.Ok()
  {
    if c.idx <= Reach(PtrsPerBlock(d.sb)) then Reach(PtrsPerBlock(d.sb)) + 1 - c.idx else 0
  }

  /** One call of the iterator: None at the end, an error, an entry, or the panic of the count, and where
      it leaves off. */
  datatype Item = Nothing(at: Cursor) | Error(at: Cursor) | Entry(at: Cursor, entry: DirEntry) | Panicked(at: Cursor)

  function Next(d: Dir, c: Cursor): (r: Item)
    requires d.Ok() && ValidCursor(d, c)
    ensures ValidCursor(d, r.at) && (r.Panicked? ==> d.size > TWO_32 - TWO_16)
    ensures r.Entry? ==> BlocksLeft(d, r.at) < BlocksLeft(d, c)
                         || (BlocksLeft(d, r.at) == BlocksLeft(d, c) && Left(d, r.at) < Left(d, c))
    decreases BlocksLeft(d, c), Left(d, c)
  {
    match Loaded(d, c)
    case End => Nothing(c)
    case Fail => Error(c)
    case Skip(l) =>
      match Record(d, l)
      case Skip(n) => Next(d, n)
      case Yield(n, e) => Entry(n, e)
      case TooMany => Panicked(l)
  }

  datatype Ending = Complete | DiskError | CountOverflow

  /** The whole iteration: all entries up to the end or the first error. */
  datatype Listing = Listing(entries: seq<DirEntry>, end: Ending)

  function ListFrom(d: Dir, c: Cursor): Listing
    requires d.Ok() && ValidCursor(d, c)
    decreases BlocksLeft(d, c), Left(d, c)
  {
    match Next(d, c)
    case Nothing(_) => Listing([], Complete)
    case Error(_) => Listing([], DiskError)
    case Panicked(_) => Listing([], CountOverflow)
    case Entry(n, e) =>
      var rest := ListFrom(d, n);
      Listing([e] + rest.entries, rest.end)
  }

  // ---------------------------------------------------------------- when the count overflows

  /** Lengths of the records met, in order, by an iteration whose count has no bound. */
  function Lengths(d: Dir, c: Cursor): seq<nat>
    requires d.Ok() && ValidCursor(d, c)
    decreases BlocksLeft(d, c), Left(d, c)
  {
    match Loaded(d, c)
    case Skip(l) => [MetLength(d, l)] + Lengths(d, Step(d, l).next)
    case _ => []
  }

  function Sum(s: seq<nat>): nat { if s == [] then 0 else s[0] + Sum(s[1..]) }

  lemma SumFirst(x: nat, s: seq<nat>)
    ensures Sum([x] + s) == x + Sum(s)
  {
    assert ([x] + s)[1..] == s;
  }

  /** The iteration panics exactly if the lengths of the records met add up to 2^32 or more. */
  lemma {:induction false} OverflowsIff(d: Dir, c: Cursor)
    requires d.Ok() && ValidCursor(d, c) && c.read < TWO_32
    ensures ListFrom(d, c).end.CountOverflow? <==> c.read + Sum(Lengths(d, c)) >= TWO_32
    decreases BlocksLeft(d, c), Left(d, c)
  {
    hide Step, Record, BlockSize, Sum, Utf8.Valid;
    match Loaded(d, c)
    case Skip(l) =>
      SameList(d, c, l);
      LoadedKeeps(d, c, l);
      SumFirst(MetLength(d, l), Lengths(d, Step(d, l).next));
      if !Record(d, l).TooMany? {
        ListRound(d, l);
        OverflowsIff(d, Step(d, l).next);
      } else {
        OverflowEnds(d, l);
      }
    case _ => NothingMet(d, c);
  }

  lemma LoadedKeeps(d: Dir, c: Cursor, l: Cursor)
    requires d.Ok() && ValidCursor(d, c) && Loaded(d, c) == Skip(l)
    ensures l.read == c.read && l.idx == c.idx && Left(d, l) <= Left(d, c)
  {
    hide BlockSize;
  }

  lemma OverflowEnds(d: Dir, l: Cursor)
    requires d.Ok() && ValidCursor(d, l) && l.offset < d.BS() && Record(d, l).TooMany?
    ensures ListFrom(d, l).end.CountOverflow?
  {
    hide Record, BlockSize;
    assert Next(d, l) == Panicked(l);
  }

  lemma NothingMet(d: Dir, c: Cursor)
    requires d.Ok() && ValidCursor(d, c) && !Loaded(d, c).Skip?
    ensures Sum(Lengths(d, c)) == 0 && !ListFrom(d, c).end.CountOverflow?
  {
    hide Loaded, BlockSize;
  }

  function NoBlock(): BlockBuf { seq(CACHE_BLOCK_SIZE, i => 0) }

  function Start(d: Dir): Cursor
    requires d.Ok()
  {
    Cursor(0, d.BS(), 0, NoBlock())
  }

  // ---------------------------------------------------------------- well-formed directories

  /** Records, each long enough for its name, follow each other to the end of the block. */
  predicate Tiled(b: BlockBuf, bs: int, at: nat)
    requires bs <= CACHE_BLOCK_SIZE
    decreases bs - at
  {
    at == bs ||
    (at + NAME_OFFSET <= bs && NAME_OFFSET + b[at + 6] <= RecLen(b, at) && at + RecLen(b, at) <= bs
     && Tiled(b, bs, at + RecLen(b, at)))
  }

  function NameOf(b: BlockBuf, at: nat): seq<byte>
    requires at + NAME_OFFSET <= CACHE_BLOCK_SIZE && at + NAME_OFFSET + b[at + 6] <= CACHE_BLOCK_SIZE
  {
    b[at + NAME_OFFSET..at + NAME_OFFSET + b[at + 6]]
  }

  /** The record has an inode and a name that is text. */
  predicate InUse(b: BlockBuf, at: nat)
    requires at + NAME_OFFSET <= CACHE_BLOCK_SIZE && at + NAME_OFFSET + b[at + 6] <= CACHE_BLOCK_SIZE
  {
    U32(b, at) != 0 && NameOf(b, at) != [] && Utf8.Valid(NameOf(b, at))
  }

  function EntryAt(b: BlockBuf, at: nat): DirEntry
    requires at + NAME_OFFSET <= CACHE_BLOCK_SIZE && at + NAME_OFFSET + b[at + 6] <= CACHE_BLOCK_SIZE
  {
    DirEntry(U32(b, at), NameOf(b, at), b[at + 7])
  }

  /** The records in use among those that tile the block from `at` on. */
  function Used(b: BlockBuf, bs: int, at: nat): seq<DirEntry>
    requires bs <= CACHE_BLOCK_SIZE && Tiled(b, bs, at)
    decreases bs - at
  {
    if at == bs then []
    else
      (if InUse(b, at) then [EntryAt(b, at)] else [])
      + Used(b, bs, at + RecLen(b, at))
  }

  /** The cursor behind the record of a tiled block. */
  function Past(d: Dir, c: Cursor): Cursor
    requires d.Ok() && c.offset + NAME_OFFSET <= d.BS()
  {
    var len := RecLen(c.buf, c.offset);
    if c.offset + len == d.BS() then Cursor(c.idx + 1, d.BS(), c.read + len, c.buf)
    else Cursor(c.idx, c.offset + len, c.read + len, c.buf)
  }

  /** Listing goes round by round. */
  lemma ListRound(d: Dir, c: Cursor)
    requires d.Ok() && ValidCursor(d, c) && c.offset < d.BS() && !Record(d, c).TooMany?
    ensures var rest := ListFrom(d, Record(d, c).next);
            ListFrom(d, c) == if Record(d, c).Skip? then rest
                              else Listing([Record(d, c).entry] + rest.entries, rest.end)
  {
    hide Record, BlockSize;
  }

  /** One record of a tiled block. */
  lemma TiledRecord(d: Dir, c: Cursor)
    requires d.Ok() && ValidCursor(d, c) && c.offset < d.BS() && Tiled(c.buf, d.BS(), c.offset)
    requires c.read + (d.BS() - c.offset) <= d.size
    ensures Record(d, c) == if InUse(c.buf, c.offset) then Yield(Past(d, c), EntryAt(c.buf, c.offset))
                            else Skip(Past(d, c))
  {
    hide Utf8.Valid, U32, BlockSize;
  }

  lemma TiledStep(b: BlockBuf, bs: int, at: nat)
    requires bs <= CACHE_BLOCK_SIZE && Tiled(b, bs, at) && at < bs
    ensures at + NAME_OFFSET <= bs && at + NAME_OFFSET + b[at + 6] <= at + RecLen(b, at) <= bs
    ensures Tiled(b, bs, at + RecLen(b, at))
    ensures Used(b, bs, at) == (if InUse(b, at) then [EntryAt(b, at)] else []) + Used(b, bs, at + RecLen(b, at))
    ensures Used(b, bs, bs) == []
  {
    hide InUse, EntryAt;
  }

  /** A tiled block contributes exactly its records in use. */
  lemma {:induction false} TiledBlock(d: Dir, c: Cursor)
    requires d.Ok() && ValidCursor(d, c) && c.offset < d.BS() && Tiled(c.buf, d.BS(), c.offset)
    requires c.read + (d.BS() - c.offset) <= d.size
    ensures var rest := ListFrom(d, Cursor(c.idx + 1, d.BS(), c.read + (d.BS() - c.offset), c.buf));
            ListFrom(d, c) == Listing(Used(c.buf, d.BS(), c.offset) + rest.entries, rest.end)
    decreases d.BS() - c.offset
  {
    hide InUse, EntryAt, BlockSize, ListFrom, Record, RecLen, Used, Tiled;
    TiledStep(c.buf, d.BS(), c.offset);
    var at, len := c.offset, RecLen(c.buf, c.offset);
    TiledRecord(d, c);
    ListRound(d, c);
    var rest := ListFrom(d, Cursor(c.idx + 1, d.BS(), c.read + (d.BS() - c.offset), c.buf));
    var first := if InUse(c.buf, at) then [EntryAt(c.buf, at)] else [];
    if at + len < d.BS() {
      TiledBlock(d, Past(d, c));
      Concat3(first, Used(c.buf, d.BS(), at + len), rest.entries);
    } else {
      Concat3(first, [], rest.entries);
    }
  }

  lemma Concat3(a: seq<DirEntry>, b: seq<DirEntry>, c: seq<DirEntry>)
    ensures (a + b) + c == a + (b + c)
    ensures a == [] ==> a + (b + c) == b + c
  {
  }

  /** The block with index idx of the directory, if the disk gives it. */
  function BlockAt(d: Dir, idx: nat): Option<BlockBuf>
    requires d.Ok()
  {
    match Resolve(d.sb, d.blocks, idx)
    case Err => None
    case Ok(ptr) =>
      if ptr == 0 then None
      else match GetBlock(d.sb, BlockToSector(d.sb, ptr)) case Err => None case Ok(buf) => Some(buf)
  }

  /** k blocks, each there and tiled. */
  predicate WellTiled(d: Dir, k: nat)
    requires d.Ok()
  {
    d.size == k * d.BS() &&
    forall i | 0 <= i < k :: BlockAt(d, i).Some? && Tiled(BlockAt(d, i).value, d.BS(), 0)
  }

  function UsedFrom(d: Dir, i: nat, k: nat): seq<DirEntry>
    requires d.Ok() && WellTiled(d, k) && i <= k
    decreases k - i
  {
    if i == k then [] else Used(BlockAt(d, i).value, d.BS(), 0) + UsedFrom(d, i + 1, k)
  }

  lemma LoadsBlock(d: Dir, c: Cursor)
    requires d.Ok() && c.offset == d.BS() && c.read < d.size && BlockAt(d, c.idx).Some?
    ensures ValidCursor(d, c)
    ensures Loaded(d, c) == Skip(c.(offset := 0, buf := BlockAt(d, c.idx).value))
  {
  }

  lemma AtTheEnd(d: Dir, c: Cursor)
    requires d.Ok() && c.offset == d.BS() && c.read >= d.size
    ensures ListFrom(d, c) == Listing([], Complete)
  {
    assert Next(d, c) == Nothing(c);
  }

  lemma {:induction false} TiledFrom(d: Dir, k: nat, c: Cursor)
    requires d.Ok() && WellTiled(d, k) && c.idx <= k && c.offset == d.BS() && c.read == c.idx * d.BS()
    ensures ListFrom(d, c) == Listing(UsedFrom(d, c.idx, k), Complete)
    decreases k - c.idx
  {
    hide BlockAt, BlockSize, Tiled, Record, Used, ListFrom, Loaded;
    var bs := d.BS();
    if c.idx == k {
      AtTheEnd(d, c);
    } else {
      Ordered(bs, c.idx + 1, k);
      Distribute(bs, c.idx, 1);
      var buf := BlockAt(d, c.idx).value;
      LoadsBlock(d, c);
      var l := Cursor(c.idx, 0, c.read, buf);
      SameList(d, c, l);
      TiledBlock(d, l);
      TiledFrom(d, k, Cursor(c.idx + 1, bs, c.read + bs, buf));
    }
  }

  /** Loading the block first makes no difference. */
  lemma SameList(d: Dir, c: Cursor, l: Cursor)
    requires d.Ok() && ValidCursor(d, c) && Loaded(d, c) == Skip(l)
    ensures ListFrom(d, c) == ListFrom(d, l)
  {
    hide Record;
  }

  /** A directory of well-tiled blocks lists exactly its records in use, in order, once each. */
  lemma ListsRecordsInUse(d: Dir, k: nat)
    requires d.Ok() && WellTiled(d, k)
    ensures ListFrom(d, Start(d)) == Listing(UsedFrom(d, 0, k), Complete)
  {
    TiledFrom(d, k, Start(d));
  }

  // ---------------------------------------------------------------- a directory that overflows

  const SELF := 0xfff8

  /** Every word is the number 0xfff8: as pointers all lead to block 0xfff8, and as a directory the block
      starts with a record of 0xfff8 bytes that has no name. */
  function SelfBlock(): BlockBuf {
    seq(CACHE_BLOCK_SIZE, i => if i % 4 == 0 then 0xf8 else if i % 4 == 1 then 0xff else 0)
  }

  /** A directory of 2^32 - 1 bytes whose blocks are all that block. */
  function SelfDir(): (d: Dir)
    ensures d.Ok() && d.BS() == CACHE_BLOCK_SIZE
  {
    Dir(SuperBlock(map[SELF * 8 := SelfBlock()], 2, 1, 128, []), seq(15, _ => SELF), TWO_32 - 1)
  }

  lemma SelfWord(i: nat)
    requires i < 1024
    ensures U32(SelfBlock(), i * 4) == SELF
  {
    assert (i * 4 + 1) % 4 == 1 && (i * 4 + 2) % 4 == 2 && (i * 4 + 3) % 4 == 3 && i * 4 % 4 == 0;
  }

  lemma SelfBlockAt(idx: nat)
    requires idx < 12 + 1024 + 1024 * 1024
    ensures BlockAt(SelfDir(), idx) == Some(SelfBlock())
  {
    var d := SelfDir();
    assert BlockToSector(d.sb, SELF) == SELF * 8;
    hide SelfBlock, U32;
    if idx >= 12 + 1024 {
      var k := idx - 12 - 1024;
      SelfWord(k / 1024);
      SelfWord(k % 1024);
    } else if idx >= 12 {
      SelfWord(idx - 12);
    }
  }

  /** Each block adds 0xfff8 bytes to the count. */
  lemma SelfRound(k: nat, buf: BlockBuf)
    requires k <= 0x1_0008
    ensures var d, c := SelfDir(), Cursor(k, CACHE_BLOCK_SIZE, k * SELF, buf);
            && ValidCursor(d, c) && Loaded(d, c) == Skip(Cursor(k, 0, k * SELF, SelfBlock()))
            && MetLength(d, Cursor(k, 0, k * SELF, SelfBlock())) == SELF
            && Step(d, Cursor(k, 0, k * SELF, SelfBlock())) == Skip(Cursor(k + 1, CACHE_BLOCK_SIZE, (k + 1) * SELF, SelfBlock()))
  {
    SelfBlockAt(k);
    SelfRecord();
    hide BlockAt, SelfBlock;
    LoadsBlock(SelfDir(), Cursor(k, CACHE_BLOCK_SIZE, k * SELF, buf));
  }

  lemma SelfRecord()
    ensures RecLen(SelfBlock(), 0) == SELF && SelfBlock()[6] == 0
  {
  }

  lemma {:induction false} SelfFrom(k: nat, buf: BlockBuf)
    requires k <= 0x1_0008
    ensures ValidCursor(SelfDir(), Cursor(k, CACHE_BLOCK_SIZE, k * SELF, buf))
    ensures ListFrom(SelfDir(), Cursor(k, CACHE_BLOCK_SIZE, k * SELF, buf)).end.CountOverflow?
    decreases 0x1_0008 - k
  {
    hide Loaded, Step, Record, ListFrom, MetLength, SelfBlock;
    var d, c, l := SelfDir(), Cursor(k, CACHE_BLOCK_SIZE, k * SELF, buf), Cursor(k, 0, k * SELF, SelfBlock());
    SelfRound(k, buf);
    SameList(d, c, l);
    if k == 0x1_0008 {
      OverflowEnds(d, l);
    } else {
      SelfFrom(k + 1, SelfBlock());
      ListRound(d, l);
    }
  }

  /** Listing it panics after 0x10008 blocks. */
  lemma CountOverflows()
    ensures ListFrom(SelfDir(), Start(SelfDir())).end.CountOverflow?
    ensures Sum(Lengths(SelfDir(), Start(SelfDir()))) >= TWO_32
  {
    SelfFrom(0, NoBlock());
    OverflowsIff(SelfDir(), Start(SelfDir()));
  }

  // ---------------------------------------------------------------- the code

  class DirEntryIter {
    const dir: Dir
    var buf: Option<BlockBuf>
    var blockIdx: nat
    var blockOffset: nat
    var bytesRead: nat

    ghost predicate Valid()
      reads this
    {
      dir.Ok() && (blockOffset < dir.BS() ==> buf.Some?) && ValidCursor(dir, At())
    }

    ghost function At(): Cursor
      reads this
    {
      Cursor(blockIdx, blockOffset, bytesRead, if buf.Some? then buf.value else NoBlock())
    }

    constructor (dir: Dir)
      requires dir.Ok()
      ensures Valid() && this.dir == dir && At() == Start(dir)
    {
      this.dir := dir;
      buf := None;
      blockIdx, blockOffset, bytesRead := 0, BlockSize(dir.sb), 0;
    }

    /** Loads the next block when the current one is used up: Ok(true) to go on, Ok(false) at the end. */
    method LoadBlock() returns (r: Result<bool>)
      requires Valid()
      modifies this`buf, this`blockOffset
      ensures Valid()
      ensures Loaded(dir, old(At())) == (if r.Err? then Fail else if r.value then Skip(At()) else End)
      ensures r != Ok(true) ==> At() == old(At())
    {
      hide BlockSize, BlockToSector, PtrsPerBlock, Resolve;
      if blockOffset < BlockSize(dir.sb) {
        return Ok(true);
      }
      if bytesRead >= dir.size {
        return Ok(false);
      }
      ResolveDescends(dir.sb, dir.blocks, blockIdx);
      var ptr := Resolve(dir.sb, dir.blocks, blockIdx);
      if ptr.Err? {
        return Err;
      }
      if ptr.value == 0 {
        return Ok(false);
      }
      var block := GetBlock(dir.sb, BlockToSector(dir.sb, ptr.value));
      if block.Err? {
        return Err;
      }
      buf := Some(block.value);
      blockOffset := 0;
      return Ok(true);
    }

    /** Reads the record at the cursor: an entry, or nothing to yield, or the panic of the 32-bit count.
        No index is outside the block. */
    method ReadRecord() returns (e: Option<DirEntry>, panicked: bool)
      requires Valid() && blockOffset < dir.BS()
      modifies this
      ensures Valid()
      ensures Record(dir, old(At())) == if panicked then TooMany else if e.None? then Skip(At()) else Yield(At(), e.value)
      ensures panicked ==> At() == old(At())
    {
      hide U32, Utf8.Valid, PtrsPerBlock;
      var bs := BlockSize(dir.sb);
      var b, offset := buf.value, blockOffset;
      if offset + NAME_OFFSET > bs {
        blockIdx, blockOffset := blockIdx + 1, bs;
        return None, false;
      }
      var ino, recLen, nameLen := U32(b, offset), RecLen(b, offset), b[offset + 6];
      if recLen == 0 {
        blockIdx, blockOffset := blockIdx + 1, bs;
        return None, false;
      }
      if bytesRead + recLen >= TWO_32 {
        return None, true;
      }
      blockOffset := blockOffset + recLen;
      bytesRead := bytesRead + recLen;
      if blockOffset >= bs || bytesRead >= dir.size {
        blockIdx, blockOffset := blockIdx + 1, bs;
      }
      if ino == 0 || nameLen == 0 {
        return None, false;
      }
      var nameStart := offset + NAME_OFFSET;
      var nameEnd := nameStart + nameLen;
      if nameEnd > bs {
        return None, false;
      }
      if !Utf8.Valid(b[nameStart..nameEnd]) {
        return None, false;
      }
      return Some(DirEntry(ino, b[nameStart..nameEnd], b[offset + 7])), false;
    }

    /** The loop ends whatever the disk holds. */
    method NextEntry() returns (r: Option<Result<DirEntry>>, panicked: bool)
      requires Valid()
      modifies this
      ensures Valid()
      ensures Next(dir, old(At())) ==
              if panicked then Panicked(At())
              else match r
                   case None => Nothing(At())
                   case Some(Err) => Error(At())
                   case Some(Ok(e)) => Entry(At(), e)
    {
      hide Loaded, Record, BlockSize;
      while true
        invariant Valid() && Next(dir, At()) == Next(dir, old(At()))
        decreases BlocksLeft(dir, At()), Left(dir, At())
      {
        var more := LoadBlock();
        if more.Err? {
          return Some(Err), false;
        }
        if !more.value {
          return None, false;
        }
        var entry, overflow := ReadRecord();
        if overflow {
          return None, true;
        }
        if entry.Some? {
          return Some(Ok(entry.value)), false;
        }
      }
    }
  }

  // ---------------------------------------------------------------- lookup

  /** The inode of the first entry with a name. */
  function FirstNamed(entries: seq<DirEntry>, name: seq<byte>): Option<nat> {
    if entries == [] then None
    else if entries[0].name == name then Some(entries[0].ino)
    else FirstNamed(entries[1..], name)
  }

  datatype Looked = NotADirectory | NotFound | LookupPanics | Found(inode: DiskInode)

  /** What `lookup` should give: the inode of the first entry with the name. A disk error, in the listing or
      at the inode, counts as not found. */
  function LookedUp(sb: SuperBlock, dir: DiskInode, name: seq<byte>): Looked
    requires Supported(sb) && dir.len < TWO_32
  {
    if !dir.kind.Directory? then NotADirectory
    else
      var d := Dir(sb, dir.blocks, dir.len);
      var listing := ListFrom(d, Start(d));
      match FirstNamed(listing.entries, name)
      case None => if listing.end.CountOverflow? then LookupPanics else NotFound
      case Some(ino) =>
        match ReadInode(sb, ino)
        case Unreadable => NotFound
        case Panics => LookupPanics
        case Read(inode) => Found(inode)
  }

  /** `lookup`, with every inode read from disk. */
  method Lookup(sb: SuperBlock, dir: DiskInode, name: seq<byte>) returns (r: Looked)
    requires Supported(sb) && dir.len < TWO_32
    ensures r == LookedUp(sb, dir, name)
  {
    if !dir.kind.Directory? {
      return NotADirectory;
    }
    var ino, panicked := FindEntry(Dir(sb, dir.blocks, dir.len), name);
    if panicked {
      return LookupPanics;
    }
    if ino.None? {
      return NotFound;
    }
    match ReadInode(sb, ino.value)
    case Unreadable => return NotFound;
    case Panics => return LookupPanics;
    case Read(inode) => return Found(inode);
  }

  /** The loop of `lookup`. */
  method FindEntry(dir: Dir, name: seq<byte>) returns (r: Option<nat>, panicked: bool)
    requires dir.Ok()
    ensures r == FirstNamed(ListFrom(dir, Start(dir)).entries, name)
    ensures panicked <==> r.None? && ListFrom(dir, Start(dir)).end.CountOverflow?
  {
    hide Loaded, Record, BlockSize;
    var iter := new DirEntryIter(dir);
    while true
      invariant iter.Valid() && iter.dir == dir
      invariant FirstNamed(ListFrom(dir, iter.At()).entries, name) == FirstNamed(ListFrom(dir, Start(dir)).entries, name)
      invariant ListFrom(dir, iter.At()).end == ListFrom(dir, Start(dir)).end
      decreases BlocksLeft(dir, iter.At()), Left(dir, iter.At())
    {
      var entry, overflow := iter.NextEntry();
      if overflow {
        return None, true;
      }
      if entry.None? || entry.value.Err? {
        return None, false;
      }
      if entry.value.value.name == name {
        return Some(entry.value.value.ino), false;
      }
    }
  }
}
