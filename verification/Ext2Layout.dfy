/**
 ext2 on disk, written out byte by byte: numbers are little-endian, a directory block is one record after
 the other, and an inode has its fields at fixed places. Reading gives back what was written.
 */
module Ext2Layout {

  import opened Common
  import opened Ext2Dir
  import opened Ext2Inode
  import Utf8

  // ---------------------------------------------------------------- numbers

  function Bytes2(x: nat): (s: seq<byte>)
    requires x < 0x1_0000
    ensures |s| == 2
  {
    [x % 256, x / 256]
  }

  function Bytes4(x: nat): (s: seq<byte>)
    requires x < TWO_32
    ensures |s| == 4
  {
    Bytes2(x % 0x1_0000) + Bytes2(x / 0x1_0000)
  }

  lemma ReadsBytes2(b: seq<byte>, at: nat, x: nat)
    requires x < 0x1_0000 && at + 2 <= |b| && b[at..at + 2] == Bytes2(x)
    ensures U16(b, at) == x
  {
    assert b[at] == b[at..at + 2][0] && b[at + 1] == b[at..at + 2][1];
  }

  lemma ReadsBytes4(b: seq<byte>, at: nat, x: nat)
    requires x < TWO_32 && at + 4 <= |b| && b[at..at + 4] == Bytes4(x)
    ensures U32(b, at) == x
  {
    hide Bytes2, U16;
    var low, high := x % 0x1_0000, x / 0x1_0000;
    assert b[at..at + 2] == Bytes4(x)[..2] == Bytes2(low);
    assert b[at + 2..at + 4] == Bytes4(x)[2..] == Bytes2(high);
    ReadsBytes2(b, at, low);
    ReadsBytes2(b, at + 2, high);
  }

  // ---------------------------------------------------------------- directories

  /** A record of a directory: `len` bytes, of which the name need not use all. */
  datatype Rec = Rec(ino: nat, len: nat, fileType: byte, name: seq<byte>) {
    predicate Ok() { ino < TWO_32 && |name| < 256 && NAME_OFFSET + |name| <= len < 0x1_0000 }

    predicate Listed() { ino != 0 && name != [] && Utf8.Valid(name) }
  }

  function Zeros(n: nat): seq<byte> { seq(n, i => 0) }

  function RecBytes(r: Rec): (s: seq<byte>)
    requires r.Ok()
    ensures |s| == r.len
  {
    Bytes4(r.ino) + Bytes2(r.len) + [|r.name|, r.fileType] + r.name + Zeros(r.len - NAME_OFFSET - |r.name|)
  }

  predicate AllOk(rs: seq<Rec>) { forall i | 0 <= i < |rs| :: rs[i].Ok() }

  function BlockBytes(rs: seq<Rec>): seq<byte>
    requires AllOk(rs)
  {
    if rs == [] then [] else RecBytes(rs[0]) + BlockBytes(rs[1..])
  }

  /** The entries that a listing shows. */
  function Shown(rs: seq<Rec>): seq<DirEntry> {
    if rs == [] then []
    else (if rs[0].Listed() then [DirEntry(rs[0].ino, rs[0].name, rs[0].fileType)] else []) + Shown(rs[1..])
  }

  /** What the iterator reads in a record. */
  lemma RecordRead(b: BlockBuf, at: nat, r: Rec)
    requires r.Ok() && at + r.len <= CACHE_BLOCK_SIZE && b[at..at + r.len] == RecBytes(r)
    ensures U32(b, at) == r.ino && RecLen(b, at) == r.len && b[at + 6] == |r.name| && b[at + 7] == r.fileType
    ensures NameOf(b, at) == r.name
  {
    hide RecBytes, Bytes4, Bytes2, U16, U32;
    var n, k := r.len, NAME_OFFSET + |r.name|;
    FieldsOf(r);
    Part(b, at, n, 0, 4);
    Part(b, at, n, 4, 6);
    Part(b, at, n, 6, NAME_OFFSET);
    Part(b, at, n, NAME_OFFSET, k);
    ReadsBytes4(b, at, r.ino);
    ReadsBytes2(b, at + 4, r.len);
    assert b[at + 6..at + NAME_OFFSET][0] == b[at + 6] && b[at + 6..at + NAME_OFFSET][1] == b[at + 7];
  }

  lemma Part(b: seq<byte>, at: nat, n: nat, i: nat, j: nat)
    requires i <= j <= n && at + n <= |b|
    ensures b[at..at + n][i..j] == b[at + i..at + j]
  {
    var p, q := b[at..at + n][i..j], b[at + i..at + j];
    assert forall k | 0 <= k < j - i :: p[k] == q[k];
    assert p == q;
  }

  lemma FieldsOf(r: Rec)
    requires r.Ok()
    ensures var s := RecBytes(r);
            && s[0..4] == Bytes4(r.ino) && s[4..6] == Bytes2(r.len) && s[6..NAME_OFFSET] == [|r.name|, r.fileType]
            && s[NAME_OFFSET..NAME_OFFSET + |r.name|] == r.name
  {
  }

  /** Records written one after the other tile the block, and those in use are the ones to show. */
  lemma {:induction false} BlockListed(b: BlockBuf, bs: int, at: nat, rs: seq<Rec>)
    requires AllOk(rs) && at <= bs <= CACHE_BLOCK_SIZE && b[at..bs] == BlockBytes(rs)
    ensures Tiled(b, bs, at) && Used(b, bs, at) == Shown(rs)
    decreases |rs|
  {
    hide RecBytes, RecLen, U32, InUse, EntryAt, Rec.Listed, Tiled, Used, NameOf;
    if rs == [] {
      TiledEnd(b, bs, at);
    } else {
      var r := rs[0];
      FirstRecord(b, bs, at, r, BlockBytes(rs[1..]));
      RecordRead(b, at, r);
      RecordShown(b, at, r);
      BlockListed(b, bs, at + r.len, rs[1..]);
      TiledMore(b, bs, at);
    }
  }

  lemma TiledEnd(b: BlockBuf, bs: int, at: nat)
    requires at <= bs <= CACHE_BLOCK_SIZE && b[at..bs] == []
    ensures at == bs && Tiled(b, bs, at) && Used(b, bs, at) == []
  {
    assert |b[at..bs]| == bs - at;
  }

  lemma TiledMore(b: BlockBuf, bs: int, at: nat)
    requires at + NAME_OFFSET <= bs <= CACHE_BLOCK_SIZE && NAME_OFFSET + b[at + 6] <= RecLen(b, at) && at + RecLen(b, at) <= bs
    requires Tiled(b, bs, at + RecLen(b, at))
    ensures Tiled(b, bs, at)
    ensures Used(b, bs, at) == (if InUse(b, at) then [EntryAt(b, at)] else []) + Used(b, bs, at + RecLen(b, at))
  {
    hide InUse, EntryAt, RecLen;
  }

  lemma FirstRecord(b: BlockBuf, bs: int, at: nat, r: Rec, more: seq<byte>)
    requires r.Ok() && at <= bs <= CACHE_BLOCK_SIZE && b[at..bs] == RecBytes(r) + more
    ensures at + r.len <= bs && b[at..at + r.len] == RecBytes(r) && b[at + r.len..bs] == more
  {
    hide RecBytes;
    assert |b[at..bs]| == bs - at;
    Part(b, at, bs - at, 0, r.len);
    Part(b, at, bs - at, r.len, bs - at);
  }

  lemma RecordShown(b: BlockBuf, at: nat, r: Rec)
    requires r.Ok() && at + r.len <= CACHE_BLOCK_SIZE && b[at..at + r.len] == RecBytes(r)
    ensures at + NAME_OFFSET + b[at + 6] <= at + r.len
    ensures (InUse(b, at) <==> r.Listed()) && EntryAt(b, at) == DirEntry(r.ino, r.name, r.fileType)
  {
    hide RecBytes, U32, Utf8.Valid;
    RecordRead(b, at, r);
  }

  /** The directory's blocks, in order, hold these records. */
  ghost predicate Written(d: Dir, blocks: seq<seq<Rec>>)
    requires d.Ok()
  {
    && d.size == |blocks| * d.BS()
    && forall i | 0 <= i < |blocks| :: HoldsRecords(d, i, blocks[i])
  }

  ghost predicate HoldsRecords(d: Dir, i: nat, rs: seq<Rec>)
    requires d.Ok()
  {
    && AllOk(rs)
    && Resolve(d.sb, d.blocks, i).Ok? && Resolve(d.sb, d.blocks, i).value != 0
    && var sector := BlockToSector(d.sb, Resolve(d.sb, d.blocks, i).value);
       sector in d.sb.volume && d.sb.volume[sector][..d.BS()] == BlockBytes(rs)
  }

  function ShownFrom(blocks: seq<seq<Rec>>, i: nat): seq<DirEntry>
    requires i <= |blocks|
    decreases |blocks| - i
  {
    if i == |blocks| then [] else Shown(blocks[i]) + ShownFrom(blocks, i + 1)
  }

  lemma BlockWritten(d: Dir, i: nat, rs: seq<Rec>)
    requires d.Ok() && HoldsRecords(d, i, rs)
    ensures BlockAt(d, i).Some? && Tiled(BlockAt(d, i).value, d.BS(), 0) && Used(BlockAt(d, i).value, d.BS(), 0) == Shown(rs)
  {
    hide Resolve, BlockSize, Tiled, Used, Shown, BlockBytes;
    var b := BlockAt(d, i).value;
    assert b[0..d.BS()] == b[..d.BS()];
    BlockListed(b, d.BS(), 0, rs);
  }

  lemma {:induction false} UsedIsShown(d: Dir, blocks: seq<seq<Rec>>, i: nat)
    requires d.Ok() && Written(d, blocks) && WellTiled(d, |blocks|) && i <= |blocks|
    ensures UsedFrom(d, i, |blocks|) == ShownFrom(blocks, i)
    decreases |blocks| - i
  {
    hide HoldsRecords, BlockAt, BlockSize, Tiled, Used, Shown;
    if i < |blocks| {
      BlockWritten(d, i, blocks[i]);
      UsedIsShown(d, blocks, i + 1);
    }
  }

  /** Listing a directory gives back the records written into its blocks that have an inode and a name. */
  lemma ListsWhatWasWritten(d: Dir, blocks: seq<seq<Rec>>)
    requires d.Ok() && Written(d, blocks)
    ensures ListFrom(d, Start(d)) == Listing(ShownFrom(blocks, 0), Complete)
  {
    hide HoldsRecords, BlockAt, BlockSize, Tiled, Used, Shown, ListFrom, UsedFrom;
    forall i | 0 <= i < |blocks| ensures BlockAt(d, i).Some? && Tiled(BlockAt(d, i).value, d.BS(), 0) {
      BlockWritten(d, i, blocks[i]);
    }
    UsedIsShown(d, blocks, 0);
    ListsRecordsInUse(d, |blocks|);
  }

  // ---------------------------------------------------------------- directories that hold anything

  /** A record to show: it has an inode and a name, inside the block, that is text. */
  predicate ToShow(b: BlockBuf, bs: int, at: nat)
    requires at + NAME_OFFSET <= bs <= CACHE_BLOCK_SIZE
  {
    && U32(b, at) != 0 && b[at + 6] != 0 && at + NAME_OFFSET + b[at + 6] <= bs
    && Utf8.Valid(b[at + NAME_OFFSET..at + NAME_OFFSET + b[at + 6]])
  }

  /** What a block gives: entries, and how many bytes its records have. */
  datatype Walked = Walked(entries: seq<DirEntry>, bytes: nat)

  /** Records follow each other until one does not start inside the block or has no length, or the end of
      the block or of the directory is reached. `left` bytes of the directory remain. */
  function WalkBlock(b: BlockBuf, bs: int, at: nat, left: nat): Walked
    requires bs <= CACHE_BLOCK_SIZE
    decreases bs - at
  {
    if at + NAME_OFFSET > bs || RecLen(b, at) == 0 then Walked([], 0)
    else
      var len, entries := RecLen(b, at), if ToShow(b, bs, at) then [EntryAt(b, at)] else [];
      if at + len >= bs || len >= left then Walked(entries, len)
      else
        var rest := WalkBlock(b, bs, at + len, left - len);
        Walked(entries + rest.entries, len + rest.bytes)
  }

  /** Block after block until the records met make up the directory, or there is no block. */
  function WalkDir(d: Dir, idx: nat, read: nat): Listing
    requires d.Ok()
    decreases Reach(PtrsPerBlock(d.sb)) - idx
  {
    ResolveDescends(d.sb, d.blocks, idx);
    if read >= d.size then Listing([], Complete)
    else
      match Resolve(d.sb, d.blocks, idx)
      case Err => Listing([], DiskError)
      case Ok(ptr) =>
        var sector := BlockToSector(d.sb, ptr);
        if ptr == 0 then Listing([], Complete)
        else if sector !in d.sb.volume then Listing([], DiskError)
        else
          var w := WalkBlock(d.sb.volume[sector], d.BS(), 0, d.size - read);
          var rest := WalkDir(d, idx + 1, read + w.bytes);
          Listing(w.entries + rest.entries, rest.end)
  }

  predicate Counts(l: Listing) { !l.end.CountOverflow? }

  lemma RecordWalked(d: Dir, c: Cursor)
    requires d.Ok() && ValidCursor(d, c) && c.offset < d.BS() && !Record(d, c).TooMany?
    ensures var b, bs, at := c.buf, d.BS(), c.offset;
            Record(d, c) ==
            if at + NAME_OFFSET > bs || RecLen(b, at) == 0 then Skip(Cursor(c.idx + 1, bs, c.read, b))
            else
              var len := RecLen(b, at);
              var n := if at + len >= bs || len >= d.size - c.read then Cursor(c.idx + 1, bs, c.read + len, b)
                       else Cursor(c.idx, at + len, c.read + len, b);
              if ToShow(b, bs, at) then Yield(n, EntryAt(b, at)) else Skip(n)
  {
    hide Utf8.Valid, U32, BlockSize;
  }

  lemma NotTooMany(d: Dir, c: Cursor)
    requires d.Ok() && ValidCursor(d, c) && c.offset < d.BS() && Counts(ListFrom(d, c))
    ensures !Record(d, c).TooMany? && Counts(ListFrom(d, Record(d, c).next))
  {
    hide Record, BlockSize;
    if Record(d, c).TooMany? {
      OverflowEnds(d, c);
    } else {
      ListRound(d, c);
    }
  }

  lemma WalkStep(b: BlockBuf, bs: int, at: nat, left: nat)
    requires bs <= CACHE_BLOCK_SIZE
    ensures WalkBlock(b, bs, at, left) ==
            if at + NAME_OFFSET > bs || RecLen(b, at) == 0 then Walked([], 0)
            else
              var len, entries := RecLen(b, at), if ToShow(b, bs, at) then [EntryAt(b, at)] else [];
              if at + len >= bs || len >= left then Walked(entries, len)
              else
                var rest := WalkBlock(b, bs, at + len, left - len);
                Walked(entries + rest.entries, len + rest.bytes)
  {
    hide RecLen, EntryAt;
  }

  /** The iterator goes through a block record by record. */
  lemma {:induction false} BlockWalked(d: Dir, c: Cursor)
    requires d.Ok() && ValidCursor(d, c) && c.offset < d.BS() && Counts(ListFrom(d, c))
    ensures var w := WalkBlock(c.buf, d.BS(), c.offset, d.size - c.read);
            var rest := ListFrom(d, Cursor(c.idx + 1, d.BS(), c.read + w.bytes, c.buf));
            ListFrom(d, c) == Listing(w.entries + rest.entries, rest.end)
    decreases d.BS() - c.offset
  {
    hide ToShow, EntryAt, BlockSize, ListFrom, Record, RecLen, WalkBlock, Utf8.Valid;
    NotTooMany(d, c);
    WalkStep(c.buf, d.BS(), c.offset, d.size - c.read);
    RecordWalked(d, c);
    ListRound(d, c);
    var n := Record(d, c).next;
    var b, bs, at := c.buf, d.BS(), c.offset;
    if at + NAME_OFFSET <= bs && RecLen(b, at) != 0 {
      var entries := if ToShow(b, bs, at) then [EntryAt(b, at)] else [];
      if n.offset < bs {
        BlockWalked(d, n);
        var w := WalkBlock(b, bs, n.offset, d.size - n.read);
        var rest := ListFrom(d, Cursor(n.idx + 1, bs, n.read + w.bytes, b));
        Concat3(entries, w.entries, rest.entries);
      } else {
        Concat3(entries, [], ListFrom(d, n).entries);
      }
    }
  }

  /** Whatever the disk holds, listing a directory is going through its blocks, and through each block
      record by record, unless the byte count overflows. */
  lemma {:induction false} ListsAnything(d: Dir, c: Cursor)
    requires d.Ok() && c.offset == d.BS() && Counts(ListFrom(d, c))
    ensures ListFrom(d, c) == WalkDir(d, c.idx, c.read)
    decreases Reach(PtrsPerBlock(d.sb)) - c.idx
  {
    hide BlockSize, ListFrom, Loaded, Record, WalkBlock, WalkDir;
    DirRound(d, c);
    match Loaded(d, c)
    case End => EndsHere(d, c);
    case Fail => EndsHere(d, c);
    case Skip(l) =>
      SameList(d, c, l);
      BlockWalked(d, l);
      var w := WalkBlock(l.buf, d.BS(), 0, d.size - l.read);
      ListsAnything(d, Cursor(c.idx + 1, d.BS(), c.read + w.bytes, l.buf));
  }

  /** What loading the next block comes to. */
  lemma DirRound(d: Dir, c: Cursor)
    requires d.Ok() && c.offset == d.BS()
    ensures ValidCursor(d, c) && !Loaded(d, c).Yield? && !Loaded(d, c).TooMany?
    ensures Loaded(d, c).End? ==> WalkDir(d, c.idx, c.read) == Listing([], Complete)
    ensures Loaded(d, c).Fail? ==> WalkDir(d, c.idx, c.read) == Listing([], DiskError)
    ensures Loaded(d, c).Skip? ==>
              var l := Loaded(d, c).next;
              && c.idx < Reach(PtrsPerBlock(d.sb)) && ValidCursor(d, l) && l == Cursor(c.idx, 0, c.read, l.buf) && c.read < d.size
              && var w := WalkBlock(l.buf, d.BS(), 0, d.size - c.read);
                 var rest := WalkDir(d, c.idx + 1, c.read + w.bytes);
                 WalkDir(d, c.idx, c.read) == Listing(w.entries + rest.entries, rest.end)
  {
    hide BlockSize, WalkBlock, Resolve, BlockToSector, Descend, PathOf, ValidPath, Reach;
    ResolveDescends(d.sb, d.blocks, c.idx);
  }

  lemma EndsHere(d: Dir, c: Cursor)
    requires d.Ok() && ValidCursor(d, c) && (Loaded(d, c).End? || Loaded(d, c).Fail?)
    ensures ListFrom(d, c) == Listing([], if Loaded(d, c).End? then Complete else DiskError)
  {
    hide Loaded, Record;
  }

  // ---------------------------------------------------------------- lookup

  /** The first entry with the name, and none before it. */
  lemma {:induction false} FirstNamedIs(entries: seq<DirEntry>, name: seq<byte>)
    ensures match FirstNamed(entries, name)
            case None => forall i | 0 <= i < |entries| :: entries[i].name != name
            case Some(ino) =>
              exists i | 0 <= i < |entries| :: FirstAt(entries, name, i) && entries[i].ino == ino
  {
    if entries != [] && entries[0].name != name {
      FirstNamedIs(entries[1..], name);
      if FirstNamed(entries, name).Some? {
        var i :| 0 <= i < |entries[1..]| && FirstAt(entries[1..], name, i) && entries[1..][i].ino == FirstNamed(entries, name).value;
        assert FirstAt(entries, name, i + 1) by {
          forall j | 0 <= j < i + 1 ensures entries[j].name != name {
            if j > 0 { assert entries[1..][j - 1] == entries[j]; }
          }
        }
      } else {
        forall i | 0 <= i < |entries| ensures entries[i].name != name {
          if i > 0 { assert entries[1..][i - 1] == entries[i]; }
        }
      }
    } else if entries != [] {
      assert FirstAt(entries, name, 0);
    }
  }

  predicate FirstAt(entries: seq<DirEntry>, name: seq<byte>, i: nat)
    requires i < |entries|
  {
    entries[i].name == name && forall j | 0 <= j < i :: entries[j].name != name
  }

  predicate NoneNamed(entries: seq<DirEntry>, name: seq<byte>) {
    forall i | 0 <= i < |entries| :: entries[i].name != name
  }

  /** Some entry has the name, and reading the inode of the first that has it comes to this. */
  ghost predicate FirstReads(sb: SuperBlock, entries: seq<DirEntry>, name: seq<byte>, got: InodeRead)
    requires Supported(sb)
  {
    exists i | 0 <= i < |entries| :: FirstAt(entries, name, i) && ReadInode(sb, entries[i].ino) == got
  }

  lemma FirstDecides(sb: SuperBlock, entries: seq<DirEntry>, name: seq<byte>)
    requires Supported(sb)
    ensures match FirstNamed(entries, name)
            case None => NoneNamed(entries, name)
            case Some(ino) => !NoneNamed(entries, name) && forall got :: FirstReads(sb, entries, name, got) <==> got == ReadInode(sb, ino)
  {
    hide ReadInode, FirstNamed;
    FirstNamedIs(entries, name);
    if FirstNamed(entries, name).Some? {
      var i :| 0 <= i < |entries| && FirstAt(entries, name, i) && entries[i].ino == FirstNamed(entries, name).value;
      assert FirstReads(sb, entries, name, ReadInode(sb, entries[i].ino));
      forall j | 0 <= j < |entries| && FirstAt(entries, name, j) ensures j == i { }
    }
  }

  /** What a lookup gives, from the entries that the directory lists. */
  lemma LookupMeans(sb: SuperBlock, dir: DiskInode, name: seq<byte>)
    requires Supported(sb) && dir.len < TWO_32
    ensures var r := LookedUp(sb, dir, name);
            var d := Dir(sb, dir.blocks, dir.len);
            var l := ListFrom(d, Start(d));
            && (r == NotADirectory <==> dir.kind != Directory)
            && (dir.kind == Directory ==>
                  && (r.Found? ==> FirstReads(sb, l.entries, name, Read(r.inode)))
                  && (r == NotFound <==>
                        FirstReads(sb, l.entries, name, Unreadable) || (NoneNamed(l.entries, name) && !l.end.CountOverflow?))
                  && (r == LookupPanics <==>
                        FirstReads(sb, l.entries, name, Panics) || (NoneNamed(l.entries, name) && l.end.CountOverflow?)))
  {
    hide ListFrom, ReadInode, BlockSize, FirstNamed, FirstReads, NoneNamed;
    var d := Dir(sb, dir.blocks, dir.len);
    FirstDecides(sb, ListFrom(d, Start(d)).entries, name);
    if FirstNamed(ListFrom(d, Start(d)).entries, name).None? { NoneReads(sb, ListFrom(d, Start(d)).entries, name); }
  }

  lemma NoneReads(sb: SuperBlock, entries: seq<DirEntry>, name: seq<byte>)
    requires Supported(sb) && NoneNamed(entries, name)
    ensures forall got :: !FirstReads(sb, entries, name, got)
  {
    hide ReadInode;
  }

  // ---------------------------------------------------------------- inodes

  /** The type bits of an inode's mode. */
  function TypeBits(k: Kind): int {
    match k
    case Directory => 4
    case RegularFile => 8
    case CharDevice => 2
    case BlockDevice => 6
  }

  /** The inode's fields in the buffer: type bits, size, and fifteen block pointers. */
  ghost predicate StoredAt(b: BlockBuf, at: nat, i: DiskInode) {
    && at + INODE_BYTES <= CACHE_BLOCK_SIZE && i.len < TWO_32 && b[at + 1] / 16 == TypeBits(i.kind)
    && b[at + 4..at + 8] == Bytes4(i.len)
    && forall k | 0 <= k < 15 :: PointerAt(b, at + 40 + 4 * k, i.blocks[k])
  }

  predicate PointerAt(b: BlockBuf, at: nat, p: nat) {
    at + 4 <= CACHE_BLOCK_SIZE && p < TWO_32 && b[at..at + 4] == Bytes4(p)
  }

  lemma KindRead(b: BlockBuf, at: nat)
    requires at + 2 <= CACHE_BLOCK_SIZE
    ensures KindOf(U16(b, at)) == match b[at + 1] / 16
                                  case 4 => Directory
                                  case 2 => CharDevice
                                  case 6 => BlockDevice
                                  case _ => RegularFile
  {
    assert U16(b, at) / 0x1000 == b[at + 1] / 16;
  }

  /** An inode in its slot is read as it was written. */
  lemma StoredIsRead(sb: SuperBlock, i: DiskInode)
    requires Supported(sb) && Located(sb, i.ino)
    requires var l := InodeLocation(sb, i.ino); l.sector in sb.volume && l.offset >= 0 && StoredAt(sb.volume[l.sector], l.offset, i)
    ensures ReadInode(sb, i.ino) == Read(i)
  {
    hide InodeLocation, U16, U32, Bytes4, BlockSize;
    var l := InodeLocation(sb, i.ino);
    var b, at := sb.volume[l.sector], l.offset;
    KindRead(b, at);
    ReadsBytes4(b, at + 4, i.len);
    var got := InodeAt(b, at, i.ino);
    forall k | 0 <= k < 15 ensures got.blocks[k] == i.blocks[k] {
      assert PointerAt(b, at + 40 + 4 * k, i.blocks[k]);
      ReadsBytes4(b, at + 40 + 4 * k, i.blocks[k]);
    }
    assert got.blocks == i.blocks;
  }
}
