/**
 Read-only ext2: where blocks and inodes lie. `get_block` gives the 4096 bytes at a sector of 512
 bytes, or an error. Block sizes are those that fit such a buffer: 1024, 2048 and 4096.
 */
module Ext2Inode {

  import opened Arithmetic
  import opened Common

  datatype Result<T> = Ok(value: T) | Err

  const BLOCK_SIZE := 512
  const CACHE_BLOCK_SIZE := 4096
  const MIN_BLOCK_SIZE := 1024
  const NDIR_BLOCKS := 12

  type BlockBuf = b: seq<byte> | |b| == CACHE_BLOCK_SIZE witness seq(CACHE_BLOCK_SIZE, i => 0)

  type Volume = map<int, BlockBuf>

  datatype SuperBlock = SuperBlock(volume: Volume, logBlockSize: nat, inodesPerGroup: nat, inodeSize: nat,
                                   groups: seq<nat>)

  predicate Supported(sb: SuperBlock) { sb.logBlockSize <= 2 }

  function BlockSize(sb: SuperBlock): (r: int)
    requires Supported(sb)
    ensures r == 1024 || r == 2048 || r == 4096
  {
    if sb.logBlockSize == 0 then MIN_BLOCK_SIZE
    else if sb.logBlockSize == 1 then 2 * MIN_BLOCK_SIZE else 4 * MIN_BLOCK_SIZE
  }

  function BlockToSector(sb: SuperBlock, block: int): int
    requires Supported(sb)
  {
    block * BlockSize(sb) / BLOCK_SIZE
  }

  /** Blocks start on sectors, so a sector times its size is the block's byte address again. */
  lemma SectorIsExact(sb: SuperBlock, block: int)
    requires Supported(sb) && 0 <= block
    ensures BlockToSector(sb, block) * BLOCK_SIZE == block * BlockSize(sb)
  {
    var k := BlockSize(sb) / BLOCK_SIZE;
    assert BlockSize(sb) == BLOCK_SIZE * k;
    assert block * BlockSize(sb) == BLOCK_SIZE * (k * block);
    QuotientRemainder(block * BlockSize(sb), BLOCK_SIZE, k * block, 0);
  }

  function GetBlock(sb: SuperBlock, sector: int): Result<BlockBuf> {
    if sector in sb.volume then Ok(sb.volume[sector]) else Err
  }

  function U16(b: seq<byte>, at: int): (r: int)
    requires 0 <= at && at + 2 <= |b|
    ensures 0 <= r < 0x1_0000
  {
    var b0: int, b1: int := b[at], b[at + 1];
    b0 + 0x100 * b1
  }

  function U32(b: seq<byte>, at: int): (r: int)
    requires 0 <= at && at + 4 <= |b|
    ensures 0 <= r < 0x1_0000_0000
  {
    U16(b, at) + 0x1_0000 * U16(b, at + 2)
  }

  // ---------------------------------------------------------------- block pointers

  type Pointers = p: seq<nat> | |p| == 15 witness seq(15, i => 0)

  function PtrsPerBlock(sb: SuperBlock): (n: int)
    requires Supported(sb)
    ensures n == 256 || n == 512 || n == 1024
    ensures n * 4 == BlockSize(sb) <= CACHE_BLOCK_SIZE
  {
    BlockSize(sb) / 4
  }

  /** `resolve_block_ptr`. */
  function Resolve(sb: SuperBlock, blocks: Pointers, idx: nat): Result<int>
    requires Supported(sb)
  {
    if idx < NDIR_BLOCKS then Ok(blocks[idx])
    else
      var n := PtrsPerBlock(sb);
      var indirectIdx := idx - NDIR_BLOCKS;
      if indirectIdx < n then
        if blocks[NDIR_BLOCKS] == 0 then Ok(0)
        else
          match GetBlock(sb, BlockToSector(sb, blocks[NDIR_BLOCKS]))
          case Err => Err
          case Ok(buf) => Ok(U32(buf, indirectIdx * 4))
      else
        var doubleIdx := indirectIdx - n;
        if doubleIdx < n * n then
          DigitsInRange(n, doubleIdx);
          if blocks[NDIR_BLOCKS + 1] == 0 then Ok(0)
          else
            match GetBlock(sb, BlockToSector(sb, blocks[NDIR_BLOCKS + 1]))
            case Err => Err
            case Ok(l1) =>
              var ptr := U32(l1, doubleIdx / n * 4);
              if ptr == 0 then Ok(0)
              else
                match GetBlock(sb, BlockToSector(sb, ptr))
                case Err => Err
                case Ok(l2) => Ok(U32(l2, doubleIdx % n * 4))
        else Ok(0)
  }

  lemma DigitsInRange(n: int, x: int)
    requires 0 < n && 0 <= x < n * n
    ensures 0 <= x / n < n && 0 <= x % n < n
  {
    var q := x / n;
    if n <= q { Ordered(n, n, q); }
  }

  /** A path to a data block: an inode slot, and the entry to follow in each table below it. */
  datatype Path = Path(slot: nat, entries: seq<nat>)

  predicate ValidPath(n: int, p: Path) {
    && (forall i | 0 <= i < |p.entries| :: p.entries[i] < n)
    && match |p.entries|
       case 0 => p.slot < NDIR_BLOCKS
       case 1 => p.slot == NDIR_BLOCKS
       case 2 => p.slot == NDIR_BLOCKS + 1
       case _ => false
  }

  /** How many blocks the direct, indirect and double indirect pointers reach. */
  function Reach(n: nat): nat { NDIR_BLOCKS + n + n * n }

  function PathOf(n: int, idx: nat): Path
    requires 0 < n && idx < Reach(n)
  {
    if idx < NDIR_BLOCKS then Path(idx, [])
    else if idx - NDIR_BLOCKS < n then Path(NDIR_BLOCKS, [idx - NDIR_BLOCKS])
    else
      var d := idx - NDIR_BLOCKS - n;
      DigitsInRange(n, d);
      Path(NDIR_BLOCKS + 1, [d / n, d % n])
  }

  function IndexOf(n: int, p: Path): int
    requires ValidPath(n, p)
  {
    match |p.entries|
    case 0 => p.slot
    case 1 => NDIR_BLOCKS + p.entries[0]
    case 2 => NDIR_BLOCKS + n + (n * p.entries[0] + p.entries[1])
  }

  /** Every block index has a path of its own. */
  lemma PathOfIndex(n: int, idx: nat)
    requires 0 < n && idx < Reach(n)
    ensures ValidPath(n, PathOf(n, idx)) && IndexOf(n, PathOf(n, idx)) == idx
  {
    if NDIR_BLOCKS + n <= idx {
      DigitsInRange(n, idx - NDIR_BLOCKS - n);
    }
  }

  /** Every path is the path of some block index. */
  lemma IndexOfPath(n: int, p: Path)
    requires 0 < n && ValidPath(n, p)
    ensures 0 <= IndexOf(n, p) < Reach(n) && PathOf(n, IndexOf(n, p)) == p
  {
    if |p.entries| == 2 {
      var i, j := p.entries[0], p.entries[1];
      InnerBound(n, n, i, j);
      QuotientRemainder(n * i + j, n, i, j);
      assert p.entries == [i, j];
    } else if |p.entries| == 1 {
      assert p.entries == [p.entries[0]];
    }
  }

  /** Follow the entries from a pointer through its tables; 0 anywhere is a hole. */
  function Descend(sb: SuperBlock, ptr: nat, entries: seq<nat>): Result<int>
    requires Supported(sb) && forall i | 0 <= i < |entries| :: entries[i] < PtrsPerBlock(sb)
    decreases |entries|
  {
    if ptr == 0 || entries == [] then Ok(ptr)
    else
      assert entries[0] < PtrsPerBlock(sb);
      match GetBlock(sb, BlockToSector(sb, ptr))
      case Err => Err
      case Ok(table) => Descend(sb, U32(table, entries[0] * 4), entries[1..])
  }

  /** The resolver walks the pointer tree: inside its reach it follows the index's path, and beyond
      it there is only hole. */
  lemma ResolveDescends(sb: SuperBlock, blocks: Pointers, idx: nat)
    requires Supported(sb)
    ensures var n := PtrsPerBlock(sb);
            if idx < Reach(n) then
              var p := PathOf(n, idx);
              ValidPath(n, p) && Resolve(sb, blocks, idx) == Descend(sb, blocks[p.slot], p.entries)
            else Resolve(sb, blocks, idx) == Ok(0)
  {
    hide BlockToSector, U32, Descend;
    var n := PtrsPerBlock(sb);
    if idx < Reach(n) {
      PathOfIndex(n, idx);
      var p := PathOf(n, idx);
      if |p.entries| == 2 {
        Descend2(sb, blocks[p.slot], p.entries[0], p.entries[1]);
        SecondTable(sb, blocks[p.slot], p.entries[0], p.entries[1]);
        assert p.entries == [p.entries[0], p.entries[1]];
      } else if |p.entries| == 1 {
        Descend1(sb, blocks[p.slot], p.entries[0]);
        assert p.entries == [p.entries[0]];
      } else {
        Descend0(sb, blocks[p.slot]);
      }
    }
  }

  lemma Descend0(sb: SuperBlock, ptr: nat)
    requires Supported(sb)
    ensures Descend(sb, ptr, []) == Ok(ptr)
  {
  }

  lemma Descend1(sb: SuperBlock, ptr: nat, i: nat)
    requires Supported(sb) && i < PtrsPerBlock(sb)
    ensures Descend(sb, ptr, [i]) ==
            if ptr == 0 then Ok(0)
            else match GetBlock(sb, BlockToSector(sb, ptr)) case Err => Err case Ok(t) => Ok(U32(t, i * 4))
  {
    hide BlockToSector, U32;
    assert [i][1..] == [];
  }

  /** The last step of a double indirect path. */
  lemma SecondTable(sb: SuperBlock, ptr: nat, i: nat, j: nat)
    requires Supported(sb) && i < PtrsPerBlock(sb) && j < PtrsPerBlock(sb)
    ensures GetBlock(sb, BlockToSector(sb, ptr)).Ok? ==>
              var next := U32(GetBlock(sb, BlockToSector(sb, ptr)).value, i * 4);
              Descend(sb, next, [j]) ==
              if next == 0 then Ok(0)
              else match GetBlock(sb, BlockToSector(sb, next)) case Err => Err case Ok(t) => Ok(U32(t, j * 4))
  {
    hide BlockToSector, U32, Descend;
    if GetBlock(sb, BlockToSector(sb, ptr)).Ok? {
      Descend1(sb, U32(GetBlock(sb, BlockToSector(sb, ptr)).value, i * 4), j);
    }
  }

  lemma Descend2(sb: SuperBlock, ptr: nat, i: nat, j: nat)
    requires Supported(sb) && i < PtrsPerBlock(sb) && j < PtrsPerBlock(sb)
    ensures Descend(sb, ptr, [i, j]) ==
            if ptr == 0 then Ok(0)
            else match GetBlock(sb, BlockToSector(sb, ptr))
                 case Err => Err
                 case Ok(t) => Descend(sb, U32(t, i * 4), [j])
  {
    hide BlockToSector, U32;
    assert [i, j][1..] == [j];
  }

  // ---------------------------------------------------------------- inodes

  datatype Location = Invalid | DivideByZero | Overflow | At(sector: int, offset: int)

  /** `inode_location`: sector and offset. Dividing by a count of zero panics, and so does the 32-bit
      addition of the table's block and the index in it. */
  function InodeLocation(sb: SuperBlock, ino: nat): Location
    requires Supported(sb)
  {
    if ino == 0 then Invalid
    else if sb.inodesPerGroup == 0 then DivideByZero
    else
      var group, local := (ino - 1) / sb.inodesPerGroup, (ino - 1) % sb.inodesPerGroup;
      if group >= |sb.groups| then Invalid
      else if sb.inodeSize == 0 || BlockSize(sb) / sb.inodeSize == 0 then DivideByZero
      else
        var perBlock := BlockSize(sb) / sb.inodeSize;
        var target := sb.groups[group] + local / perBlock;
        if target >= TWO_32 then Overflow
        else At(BlockToSector(sb, target), local % perBlock * sb.inodeSize)
  }

  lemma NonZeroQuotient(x: int, y: int)
    requires 0 < y <= x
    ensures x / y > 0
  {
    if x / y <= 0 { Ordered(y, x / y, 0); }
  }

  predicate Located(sb: SuperBlock, ino: nat)
    requires Supported(sb)
  {
    InodeLocation(sb, ino).At?
  }

  /** Byte address of an inode on the volume. */
  function InodeAddress(sb: SuperBlock, ino: nat): int
    requires Supported(sb) && Located(sb, ino)
  {
    InodeLocation(sb, ino).sector * BLOCK_SIZE + InodeLocation(sb, ino).offset
  }

  /** A block holds no inode exactly if inodes are larger than blocks. */
  lemma QuotientIsZero(x: int, y: int)
    requires 0 <= x && 0 < y
    ensures x / y == 0 <==> x < y
  {
    if y <= x { NonZeroQuotient(x, y); }
  }

  /** The group's table has a slot for the inode. */
  predicate HasSlot(sb: SuperBlock, ino: nat)
    requires Supported(sb)
  {
    0 < ino <= sb.inodesPerGroup * |sb.groups| && 0 < sb.inodeSize <= BlockSize(sb)
  }

  /** The block of the table that the slot is in. */
  function SlotBlock(sb: SuperBlock, ino: nat): int
    requires Supported(sb) && HasSlot(sb, ino)
  {
    GroupBound(ino - 1, sb.inodesPerGroup, |sb.groups|);
    NonZeroQuotient(BlockSize(sb), sb.inodeSize);
    sb.groups[(ino - 1) / sb.inodesPerGroup] + (ino - 1) % sb.inodesPerGroup / (BlockSize(sb) / sb.inodeSize)
  }

  /** For every superblock: which numbers have an inode, which make the code divide by zero, and which make
      it overflow; and an inode lies inside one block of its group's table, after the inodes before it. */
  lemma InodeInTable(sb: SuperBlock, ino: nat)
    requires Supported(sb)
    ensures Located(sb, ino) <==> HasSlot(sb, ino) && SlotBlock(sb, ino) < TWO_32
    ensures InodeLocation(sb, ino).Overflow? <==> HasSlot(sb, ino) && SlotBlock(sb, ino) >= TWO_32
    ensures InodeLocation(sb, ino).DivideByZero? <==>
              && ino > 0
              && (sb.inodesPerGroup == 0
                  || (ino <= sb.inodesPerGroup * |sb.groups| && !(0 < sb.inodeSize <= BlockSize(sb))))
    ensures Located(sb, ino) ==>
              && sb.inodesPerGroup > 0 && sb.inodeSize > 0
              && var slot := (ino - 1) % sb.inodesPerGroup % (BlockSize(sb) / sb.inodeSize);
              && InodeAddress(sb, ino) == SlotBlock(sb, ino) * BlockSize(sb) + slot * sb.inodeSize
              && InodeLocation(sb, ino).offset == slot * sb.inodeSize
              && 0 <= slot * sb.inodeSize <= BlockSize(sb) - sb.inodeSize
  {
    SlotIff(sb, ino);
    hide BlockSize, HasSlot;
    if HasSlot(sb, ino) { SlotAddress(sb, ino); }
  }

  /** The tests of the code, passed in turn exactly if there is a slot. */
  lemma SlotIff(sb: SuperBlock, ino: nat)
    requires Supported(sb)
    ensures HasSlot(sb, ino) <==>
              && ino > 0 && sb.inodesPerGroup > 0 && (ino - 1) / sb.inodesPerGroup < |sb.groups|
              && sb.inodeSize > 0 && BlockSize(sb) / sb.inodeSize != 0
    ensures ino > 0 && sb.inodesPerGroup > 0 ==>
              ((ino - 1) / sb.inodesPerGroup < |sb.groups| <==> ino <= sb.inodesPerGroup * |sb.groups|)
    ensures sb.inodeSize > 0 ==> (BlockSize(sb) / sb.inodeSize == 0 <==> BlockSize(sb) < sb.inodeSize)
  {
    hide BlockSize;
    if ino > 0 && sb.inodesPerGroup > 0 { GroupBound(ino - 1, sb.inodesPerGroup, |sb.groups|); }
    if sb.inodeSize > 0 { QuotientIsZero(BlockSize(sb), sb.inodeSize); }
  }

  lemma SlotAddress(sb: SuperBlock, ino: nat)
    requires Supported(sb) && HasSlot(sb, ino)
    ensures sb.inodesPerGroup > 0 && BlockSize(sb) / sb.inodeSize > 0
    ensures BlockToSector(sb, SlotBlock(sb, ino)) * BLOCK_SIZE == SlotBlock(sb, ino) * BlockSize(sb)
    ensures var slot := (ino - 1) % sb.inodesPerGroup % (BlockSize(sb) / sb.inodeSize);
            0 <= slot * sb.inodeSize <= BlockSize(sb) - sb.inodeSize
  {
    hide BlockSize, BlockToSector;
    SlotIff(sb, ino);
    SectorIsExact(sb, SlotBlock(sb, ino));
    SlotInBlock(BlockSize(sb), sb.inodeSize, (ino - 1) % sb.inodesPerGroup % (BlockSize(sb) / sb.inodeSize));
  }

  /** A table that ends with the last block number: its second block is out of reach. */
  lemma InodeOverflows(volume: Volume)
    ensures var sb := SuperBlock(volume, 0, 16, 128, [0xffff_ffff]);
            InodeLocation(sb, 8).At? && InodeLocation(sb, 9).Overflow?
  {
  }

  // ---------------------------------------------------------------- reading an inode

  datatype Kind = Directory | RegularFile | CharDevice | BlockDevice

  datatype DiskInode = DiskInode(ino: nat, kind: Kind, len: nat, blocks: Pointers)

  /** An error, a panic, or the inode. */
  datatype InodeRead = Unreadable | Panics | Read(inode: DiskInode)

  /** Bytes of an inode that are looked at. */
  const INODE_BYTES := 100

  function KindOf(mode: int): Kind {
    match mode / 0x1000
    case 4 => Directory
    case 2 => CharDevice
    case 6 => BlockDevice
    case _ => RegularFile
  }

  function InodeAt(b: BlockBuf, at: nat, ino: nat): DiskInode
    requires at + INODE_BYTES <= CACHE_BLOCK_SIZE
  {
    DiskInode(ino, KindOf(U16(b, at)), U32(b, at + 4), seq(15, i requires 0 <= i < 15 => U32(b, at + 40 + i * 4)))
  }

  /** `read_inode`. Looking beyond the buffer panics. */
  function ReadInode(sb: SuperBlock, ino: nat): InodeRead
    requires Supported(sb)
  {
    InodeInTable(sb, ino);
    match InodeLocation(sb, ino)
    case Invalid => Unreadable
    case DivideByZero => Panics
    case Overflow => Panics
    case At(sector, offset) =>
      match GetBlock(sb, sector)
      case Err => Unreadable
      case Ok(b) => if offset + INODE_BYTES > CACHE_BLOCK_SIZE then Panics else Read(InodeAt(b, offset, ino))
  }

  /** With inodes of at least 100 bytes nothing beyond the buffer is looked at: a located inode whose block
      is there is read, and 32-bit block pointers and size come with it. */
  lemma LocatedIsRead(sb: SuperBlock, ino: nat)
    requires Supported(sb) && sb.inodeSize >= INODE_BYTES && Located(sb, ino)
    ensures ReadInode(sb, ino).Read? <==> InodeLocation(sb, ino).sector in sb.volume
    ensures ReadInode(sb, ino).Read? ==>
              && ReadInode(sb, ino).inode.ino == ino && ReadInode(sb, ino).inode.len < TWO_32
              && forall i | 0 <= i < 15 :: ReadInode(sb, ino).inode.blocks[i] < TWO_32
    ensures !ReadInode(sb, ino).Panics?
  {
    InodeInTable(sb, ino);
  }

  lemma GroupBound(x: int, n: int, g: int)
    requires 0 < n && 0 <= x && 0 <= g
    ensures x / n < g <==> x < n * g
  {
    var q := x / n;
    if q < g { Ordered(n, q + 1, g); Distribute(n, q, 1); }
    else { Ordered(n, g, q); }
  }

  lemma SlotInBlock(size: int, inode: int, k: int)
    requires 0 < inode <= size && 0 <= k < size / inode
    ensures 0 <= k * inode <= size - inode
  {
    var q := size / inode;
    Ordered(inode, k + 1, q);
    Ordered(inode, 0, k);
    Distribute(inode, k, 1);
  }

  /** When inodes fill their blocks exactly the table is one array of inodes. */
  lemma TableIsArray(sb: SuperBlock, ino: nat)
    requires Supported(sb) && Located(sb, ino) && BlockSize(sb) % sb.inodeSize == 0
    ensures (ino - 1) / sb.inodesPerGroup < |sb.groups|
    ensures InodeAddress(sb, ino) ==
            sb.groups[(ino - 1) / sb.inodesPerGroup] * BlockSize(sb) + (ino - 1) % sb.inodesPerGroup * sb.inodeSize
  {
    InodeInTable(sb, ino);
    var local := (ino - 1) % sb.inodesPerGroup;
    var table := sb.groups[(ino - 1) / sb.inodesPerGroup];
    ArrayAddress(BlockSize(sb), sb.inodeSize, table, local);
    hide InodeAddress, BlockSize;
  }

  lemma ArrayAddress(size: int, inode: int, table: int, local: int)
    requires 0 < inode <= size && size % inode == 0 && 0 <= local
    ensures size / inode > 0
    ensures (table + local / (size / inode)) * size + local % (size / inode) * inode == table * size + local * inode
  {
    NonZeroQuotient(size, inode);
    var n := size / inode;
    assert size == inode * n;
    var q, r := local / n, local % n;
    assert local == n * q + r;
    Distribute(size, table, q);
    Distribute(inode, n * q, r);
    assert size * q == inode * (n * q);
  }
}
