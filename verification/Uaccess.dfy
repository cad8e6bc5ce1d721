/**
 Copies between kernel buffers and user memory, a page at a time through virt_to_phys. Physical
 memory is a map from addresses to bytes; the page tables are a tree in frames of their own.
 */
module Uaccess {

  import opened Arithmetic
  import opened Common
  import opened PageTableEntry
  import opened PageTree
  import opened Sequences
  import Utf8

  type Memory = map<int, byte>

  function At(m: Memory, a: int): byte {
    if a in m then m[a] else 0
  }

  /** `copy_nonoverlapping` of a buffer to physical address `a`. */
  function Store(m: Memory, a: int, s: seq<byte>): Memory {
    if s == [] then m else Store(m, a, s[..|s| - 1])[a + |s| - 1 := s[|s| - 1]]
  }

  lemma {:induction false} StoreAt(m: Memory, a: int, s: seq<byte>, x: int)
    ensures At(Store(m, a, s), x) == if a <= x < a + |s| then s[x - a] else At(m, x)
  {
    if s != [] {
      StoreAt(m, a, s[..|s| - 1], x);
    }
  }

  // ---------------------------------------------------------------- byte by byte

  /** Where byte i of the user buffer at u lies. */
  function Located(t: Tree, u: int, i: int): Option<int>
    requires 0 <= u && 0 <= i
  {
    VirtToPhys(t, u + i)
  }

  /** Every one of the n bytes from user address u is mapped. */
  predicate AllMapped(t: Tree, u: int, n: int)
    requires 0 <= u
  {
    forall i | 0 <= i < n :: Located(t, u, i).Some?
  }

  /** The simple form: one byte after the other, each through its own translation. */
  function CopyBytes(m: Memory, t: Tree, u: int, data: seq<byte>): Memory
    requires 0 <= u && AllMapped(t, u, |data|)
  {
    if data == [] then m
    else CopyBytes(m, t, u, data[..|data| - 1])[Located(t, u, |data| - 1).value := data[|data| - 1]]
  }

  /** Within a page, translation advances byte by byte. */
  lemma PageIsLinear(t: Tree, va: int, i: int)
    requires 0 <= va && 0 <= i && va % PAGE_SIZE + i < PAGE_SIZE
    ensures VirtToPhys(t, va + i) ==
            match VirtToPhys(t, va) case None => None case Some(p) => Some(p + i)
  {
    hide Walk, Addr;
    SameVpn(va, i);
    match WalkTo(t, va)
    case None =>
    case Some(h) => OffsetIsLinear(va, i, h.size);
  }

  lemma SameVpn(va: int, i: int)
    requires 0 <= va && 0 <= i && va % PAGE_SIZE + i < PAGE_SIZE
    ensures Vpn2(va + i) == Vpn2(va) && Vpn1(va + i) == Vpn1(va) && Vpn0(va + i) == Vpn0(va)
  {
    QuotientRemainder(va + i, PAGE_SIZE, va / PAGE_SIZE, va % PAGE_SIZE + i);
    SamePageNumber(va + i, va);
    hide Vpn2, Vpn1, Vpn0;
  }

  lemma OffsetIsLinear(va: int, i: int, size: PageSize)
    requires 0 <= va && 0 <= i && va % PAGE_SIZE + i < PAGE_SIZE
    ensures (va + i) % size.OffsetRange() == va % size.OffsetRange() + i
  {
    var r := size.OffsetRange();
    var q, o := va / PAGE_SIZE, va % PAGE_SIZE;
    match size
    case Size4K => QuotientRemainder(va + i, r, q, o + i);
    case Size2M => WithinLarger(va, i, 512);
    case Size1G => WithinLarger(va, i, 4);
  }

  lemma WithinLarger(va: int, i: int, k: int)
    requires 0 <= va && 0 <= i && va % PAGE_SIZE + i < PAGE_SIZE && 0 < k
    ensures (va + i) % (PAGE_SIZE * k) == va % (PAGE_SIZE * k) + i
  {
    var q, o := va / PAGE_SIZE, va % PAGE_SIZE;
    var c, d := q / k, q % k;
    assert va == PAGE_SIZE * q + o && q == k * c + d;
    assert PAGE_SIZE * (k * c) == (PAGE_SIZE * k) * c;
    Distribute(PAGE_SIZE, k * c, d);
    InnerBound(PAGE_SIZE, k, d, o);
    InnerBound(PAGE_SIZE, k, d, o + i);
    QuotientRemainder(va, PAGE_SIZE * k, c, PAGE_SIZE * d + o);
    QuotientRemainder(va + i, PAGE_SIZE * k, c, PAGE_SIZE * d + o + i);
  }

  /** Storing a chunk that stays inside one page continues the byte-by-byte copy. */
  lemma {:induction false} ChunkContinues(m: Memory, t: Tree, u: int, done: seq<byte>, chunk: seq<byte>, p: int)
    requires 0 <= u && AllMapped(t, u, |done|)
    requires (u + |done|) % PAGE_SIZE + |chunk| <= PAGE_SIZE
    requires VirtToPhys(t, u + |done|) == Some(p)
    ensures AllMapped(t, u, |done + chunk|)
    ensures CopyBytes(m, t, u, done + chunk) == Store(CopyBytes(m, t, u, done), p, chunk)
    decreases |chunk|
  {
    hide VirtToPhys;
    if chunk == [] {
      assert done + chunk == done;
    } else {
      var k := |chunk| - 1;
      ChunkContinues(m, t, u, done, chunk[..k], p);
      PageIsLinear(t, u + |done|, k);
      assert u + |done| + k == u + |done + chunk| - 1;
      assert (done + chunk)[..|done + chunk| - 1] == done + chunk[..k];
    }
  }

  // ---------------------------------------------------------------- what a copy leaves behind

  /** The n bytes of user memory at u. */
  function ReadBytes(m: Memory, t: Tree, u: int, n: nat): (r: seq<byte>)
    requires 0 <= u && AllMapped(t, u, n)
    ensures |r| == n && forall i | 0 <= i < n :: r[i] == At(m, Located(t, u, i).value)
  {
    if n == 0 then [] else ReadBytes(m, t, u, n - 1) + [At(m, Located(t, u, n - 1).value)]
  }

  /** No two of the n bytes share a physical address. */
  predicate Apart(t: Tree, u: int, n: int)
    requires 0 <= u
  {
    forall i, j | 0 <= i < j < n :: Located(t, u, i) != Located(t, u, j)
  }

  /** None of the n bytes lies in a page table. */
  predicate SparesTables(t: Tree, u: int, n: int)
    requires 0 <= u
  {
    forall i | 0 <= i < n && Located(t, u, i).Some? :: PageOf(Located(t, u, i).value) !in t.place
  }

  function PageOf(p: int): int { p / PAGE_SIZE * PAGE_SIZE }

  /** Pages of the user buffer lie in different frames. */
  predicate DistinctFrames(t: Tree, u: int, n: int)
    requires 0 <= u && AllMapped(t, u, n)
  {
    forall i, j | 0 <= i < j < n && UserPage(u, i) != UserPage(u, j) ::
      PageOf(Located(t, u, i).value) != PageOf(Located(t, u, j).value)
  }

  function UserPage(u: int, i: int): int { (u + i) / PAGE_SIZE }

  /** Then no two bytes share an address. */
  lemma DistinctFramesApart(t: Tree, u: int, n: int)
    requires 0 <= u && AllMapped(t, u, n) && DistinctFrames(t, u, n)
    ensures Apart(t, u, n)
  {
    hide VirtToPhys;
    forall i, j | 0 <= i < j < n ensures Located(t, u, i) != Located(t, u, j) {
      if UserPage(u, i) == UserPage(u, j) {
        PageIsLinear(t, u + i, j - i);
        assert u + i + (j - i) == u + j;
      }
    }
  }

  /** A physical byte that belongs to no copied byte keeps its value. */
  lemma {:induction false} OthersUnchanged(m: Memory, t: Tree, u: int, data: seq<byte>, x: int)
    requires 0 <= u && AllMapped(t, u, |data|)
    requires forall i | 0 <= i < |data| :: Located(t, u, i) != Some(x)
    ensures At(CopyBytes(m, t, u, data), x) == At(m, x)
  {
    hide Located;
    if data != [] {
      OthersUnchanged(m, t, u, data[..|data| - 1], x);
    }
  }

  /** Where several bytes share an address, the last one stays. */
  lemma {:induction false} LastOneStays(m: Memory, t: Tree, u: int, data: seq<byte>, i: int)
    requires 0 <= u && AllMapped(t, u, |data|) && 0 <= i < |data|
    requires forall j | i < j < |data| :: Located(t, u, j) != Located(t, u, i)
    ensures At(CopyBytes(m, t, u, data), Located(t, u, i).value) == data[i]
  {
    hide Located;
    if i < |data| - 1 {
      LastOneStays(m, t, u, data[..|data| - 1], i);
    }
  }

  ghost predicate ReadsBack(m: Memory, t: Tree, u: int, data: seq<byte>)
    requires 0 <= u && AllMapped(t, u, |data|)
  {
    ReadBytes(CopyBytes(m, t, u, data), t, u, |data|) == data
  }

  /** Reading back gives what was written, whatever it was, exactly when no two bytes share an address. */
  lemma RoundTripIff(m: Memory, t: Tree, u: int, n: nat)
    requires 0 <= u && AllMapped(t, u, n)
    ensures Apart(t, u, n) <==> forall data: seq<byte> | |data| == n :: ReadsBack(m, t, u, data)
  {
    hide Located, CopyBytes;
    if Apart(t, u, n) {
      forall data: seq<byte> | |data| == n ensures ReadsBack(m, t, u, data) {
        forall i | 0 <= i < n ensures ReadBytes(CopyBytes(m, t, u, data), t, u, n)[i] == data[i] {
          LastOneStays(m, t, u, data, i);
        }
      }
    } else {
      var i, j :| 0 <= i < j < n && Located(t, u, i) == Located(t, u, j);
      var data: seq<byte> := seq(n, k => if k == i then 1 else 0);
      var back := ReadBytes(CopyBytes(m, t, u, data), t, u, n);
      assert back[i] == back[j] && data[i] != data[j];
      assert !ReadsBack(m, t, u, data);
    }
  }

  /** Under a 1 GiB page the bytes at 0 and at 16 KiB share an address, since translation keeps 14 bits. */
  lemma BytesShare()
    ensures AllMapped(GigaTree(), 0, 0x4001) && !Apart(GigaTree(), 0, 0x4001)
    ensures Located(GigaTree(), 0, 0) == Located(GigaTree(), 0, 0x4000) == Some(0x8000_0000)
  {
    forall i | 0 <= i < 0x4001 ensures Located(GigaTree(), 0, i) == Some(0x8000_0000 + i % 0x4000) {
      GigaByte(i);
    }
    hide Located, GigaTree;
    assert Located(GigaTree(), 0, 0) == Located(GigaTree(), 0, 0x4000);
  }

  lemma GigaByte(va: int)
    requires 0 <= va < GIGA_SIZE
    ensures VirtToPhys(GigaTree(), va) == Some(0x8000_0000 + va % 0x4000)
  {
    hide Word, IsValid, IsLeaf, Addr, GigaLeaf, WellFormed, Vpn1, Vpn0;
    GigaTreeIs();
    assert Vpn2(va) == 0 && 0x8000_0000 % 0x4000 == 0;
  }

  /** How many of the n bytes come before the first unmapped one. */
  function Reach(t: Tree, u: int, n: nat): (k: nat)
    requires 0 <= u
    ensures k <= n && AllMapped(t, u, k) && (k < n ==> Located(t, u, k).None?)
  {
    if n == 0 then 0
    else
      var k := Reach(t, u, n - 1);
      if k == n - 1 && Located(t, u, k).Some? then n else k
  }

  lemma ReachIs(t: Tree, u: int, n: nat, k: nat)
    requires 0 <= u && k <= n && AllMapped(t, u, k)
    requires k < n ==> Located(t, u, k).None?
    ensures Reach(t, u, n) == k
  {
    hide Located;
  }

  /** The n bytes of physical memory at p. */
  function Load(m: Memory, p: int, n: nat): (r: seq<byte>)
    ensures |r| == n && forall i | 0 <= i < n :: r[i] == At(m, p + i)
  {
    if n == 0 then [] else Load(m, p, n - 1) + [At(m, p + n - 1)]
  }

  lemma {:induction false} LoadContinues(m: Memory, t: Tree, u: int, done: nat, chunk: nat, p: int)
    requires 0 <= u && AllMapped(t, u, done)
    requires (u + done) % PAGE_SIZE + chunk <= PAGE_SIZE
    requires VirtToPhys(t, u + done) == Some(p)
    ensures AllMapped(t, u, done + chunk)
    ensures ReadBytes(m, t, u, done + chunk) == ReadBytes(m, t, u, done) + Load(m, p, chunk)
  {
    hide VirtToPhys;
    if chunk != 0 {
      LoadContinues(m, t, u, done, chunk - 1, p);
      PageIsLinear(t, u + done, chunk - 1);
      assert u + done + (chunk - 1) == u + (done + chunk - 1);
    }
  }

  // ---------------------------------------------------------------- strings

  /** s, then a zero byte, stands in user memory at u, within maxLen bytes. */
  ghost predicate StringAt(m: Memory, t: Tree, u: int, s: seq<byte>, maxLen: int)
    requires 0 <= u
  {
    |s| < maxLen && AllMapped(t, u, |s| + 1) && ReadBytes(m, t, u, |s| + 1) == s + [0] && 0 !in s
  }

  /** Valid UTF-8 in which no character lies across a page boundary of the user's memory. */
  ghost predicate CutAtCharacters(u: int, s: seq<byte>) {
    Utf8.Valid(s) && forall k | 0 < k < |s| && (u + k) % PAGE_SIZE == 0 :: Utf8.Valid(s[..k])
  }

  ghost predicate Readable(m: Memory, t: Tree, u: int, s: seq<byte>, maxLen: int)
    requires 0 <= u
  {
    StringAt(m, t, u, s, maxLen) && CutAtCharacters(u, s)
  }

  /** A two-byte character on a page boundary: valid text that is not readable. */
  lemma AcrossBoundary(u: int)
    requires u % PAGE_SIZE == PAGE_SIZE - 1
    ensures Utf8.Valid([0xC3, 0xA9]) && !CutAtCharacters(u, [0xC3, 0xA9])
  {
    var s: seq<byte> := [0xC3, 0xA9];
    assert s[..1] == [0xC3] && s[2..] == [];
    QuotientRemainder(u + 1, PAGE_SIZE, u / PAGE_SIZE + 1, 0);
  }

  /** Memory under one 1 GiB page, with such a character and a zero behind it. */
  const TEXT: Memory := map[0x8000_0fff := 0xC3, 0x8000_1000 := 0xA9]

  /** There valid text stands that copy_in_str does not return, whatever the limit. */
  lemma ValidTextRefused(maxLen: int)
    requires maxLen > 2
    ensures StringAt(TEXT, GigaTree(), 4095, [0xC3, 0xA9], maxLen) && Utf8.Valid([0xC3, 0xA9])
    ensures forall s :: !Readable(TEXT, GigaTree(), 4095, s, maxLen)
  {
    hide Utf8.Valid, CutAtCharacters, Located, GigaTree;
    var t, w: seq<byte> := GigaTree(), [0xC3, 0xA9];
    AcrossBoundary(4095);
    TextIsThere(0);
    TextIsThere(1);
    TextIsThere(2);
    assert ReadBytes(TEXT, t, 4095, 3) == w + [0];
    forall s ensures !Readable(TEXT, t, 4095, s, maxLen) {
      if StringAt(TEXT, t, 4095, s, maxLen) { OneString(TEXT, t, 4095, w, s, maxLen); }
    }
  }

  lemma TextIsThere(i: int)
    requires 0 <= i < 3
    ensures Located(GigaTree(), 4095, i) == Some(0x8000_0fff + i)
  {
    hide GigaTree, VirtToPhys;
    GigaByte(4095 + i);
  }

  /** Adding what one page holds keeps the cuts exactly when the addition is valid by itself. */
  lemma CutStep(u: int, front: seq<byte>, c: seq<byte>)
    requires 0 <= u && CutAtCharacters(u, front)
    requires front == [] || (u + |front|) % PAGE_SIZE == 0
    requires (u + |front|) % PAGE_SIZE + |c| <= PAGE_SIZE
    ensures CutAtCharacters(u, front + c) <==> Utf8.Valid(c)
  {
    hide Utf8.Valid;
    Utf8.ValidConcat(front, c);
    forall k | 0 < k < |front + c| && (u + k) % PAGE_SIZE == 0 ensures Utf8.Valid((front + c)[..k]) {
      NoCutInside(u, |front|, |c|, k);
      CutKept(u, front, c, k);
    }
  }

  lemma CutKept(u: int, front: seq<byte>, c: seq<byte>, k: int)
    requires CutAtCharacters(u, front) && 0 < k <= |front| && (u + k) % PAGE_SIZE == 0
    ensures Utf8.Valid((front + c)[..k])
  {
    hide Utf8.Valid;
    assert (front + c)[..k] == front[..k];
    assert k == |front| ==> front[..k] == front;
  }

  lemma NoCutInside(u: int, n: int, c: int, k: int)
    requires 0 <= u && 0 <= n && 0 < k < n + c && (u + k) % PAGE_SIZE == 0
    requires (u + n) % PAGE_SIZE + c <= PAGE_SIZE
    ensures k <= n
  {
    if n < k {
      QuotientRemainder(u + k, PAGE_SIZE, (u + n) / PAGE_SIZE, (u + n) % PAGE_SIZE + (k - n));
    }
  }

  lemma NonZero(m: Memory, t: Tree, u: int, n: nat)
    requires 0 <= u && AllMapped(t, u, n) && 0 !in ReadBytes(m, t, u, n)
    ensures forall i | 0 <= i < n :: At(m, Located(t, u, i).value) != 0
  {
    hide Located, At;
    var r := ReadBytes(m, t, u, n);
    forall i | 0 <= i < n ensures At(m, Located(t, u, i).value) != 0 {
      assert r[i] in r;
    }
  }

  /** A string reaches past bytes that hold no zero. */
  lemma StringBeyond(m: Memory, t: Tree, u: int, n: nat, s: seq<byte>, maxLen: int)
    requires 0 <= u && AllMapped(t, u, n) && 0 !in ReadBytes(m, t, u, n)
    requires StringAt(m, t, u, s, maxLen)
    ensures n <= |s| && s[..n] == ReadBytes(m, t, u, n)
  {
    hide Located;
    NonZero(m, t, u, n);
    var all := ReadBytes(m, t, u, |s| + 1);
    assert all[|s|] == 0;
    forall i | 0 <= i < n ensures s[i] == ReadBytes(m, t, u, n)[i] {
      assert all[i] == s[i];
    }
  }

  lemma StopsUnmapped(m: Memory, t: Tree, u: int, n: nat, s: seq<byte>, maxLen: int)
    requires 0 <= u && AllMapped(t, u, n) && 0 !in ReadBytes(m, t, u, n)
    requires Located(t, u, n).None? || n >= maxLen
    ensures !Readable(m, t, u, s, maxLen)
  {
    hide Located, ReadBytes;
    if StringAt(m, t, u, s, maxLen) {
      StringBeyond(m, t, u, n, s, maxLen);
    }
  }

  /** A whole chunk without a zero that is not valid text by itself. */
  lemma StopsInChunk(m: Memory, t: Tree, u: int, front: seq<byte>, c: seq<byte>, s: seq<byte>, maxLen: int)
    requires 0 <= u && AllMapped(t, u, |front + c|)
    requires ReadBytes(m, t, u, |front + c|) == front + c && 0 !in front + c
    requires CutAtCharacters(u, front) && !Utf8.Valid(c)
    requires (u + |front + c|) % PAGE_SIZE == 0 || |front + c| == maxLen
    ensures !Readable(m, t, u, s, maxLen)
  {
    hide *;
    if Readable(m, t, u, s, maxLen) {
      ReadableChunk(m, t, u, front, c, s, maxLen);
    }
  }

  lemma ReadableChunk(m: Memory, t: Tree, u: int, front: seq<byte>, c: seq<byte>, s: seq<byte>, maxLen: int)
    requires 0 <= u && AllMapped(t, u, |front + c|)
    requires ReadBytes(m, t, u, |front + c|) == front + c && 0 !in front + c && CutAtCharacters(u, front)
    requires (u + |front + c|) % PAGE_SIZE == 0 || |front + c| == maxLen
    requires Readable(m, t, u, s, maxLen)
    ensures Utf8.Valid(c)
  {
    hide Located, ReadBytes, Utf8.Valid;
    var k := |front + c|;
    StringBeyond(m, t, u, k, s, maxLen);
    Utf8.ValidConcat(front, c);
    assert s[..|s|] == s;
    if k == 0 {
      assert c == front;
    }
  }

  /** The zero is found, but the bytes before it in the chunk are not valid text by themselves. */
  lemma StopsAtEnd(m: Memory, t: Tree, u: int, front: seq<byte>, c: seq<byte>, s: seq<byte>, maxLen: int)
    requires 0 <= u && AllMapped(t, u, |front + c| + 1)
    requires ReadBytes(m, t, u, |front + c| + 1) == front + c + [0] && 0 !in front + c
    requires CutAtCharacters(u, front) && (front == [] || (u + |front|) % PAGE_SIZE == 0)
    requires (u + |front|) % PAGE_SIZE + |c| <= PAGE_SIZE && !Utf8.Valid(c)
    ensures !Readable(m, t, u, s, maxLen)
  {
    CutStep(u, front, c);
    hide Located, CutAtCharacters, Utf8.Valid;
    if StringAt(m, t, u, s, maxLen) {
      OneString(m, t, u, front + c, s, maxLen);
    }
  }

  lemma OneString(m: Memory, t: Tree, u: int, w: seq<byte>, s: seq<byte>, maxLen: int)
    requires 0 <= u && AllMapped(t, u, |w| + 1)
    requires ReadBytes(m, t, u, |w| + 1) == w + [0] && 0 !in w
    requires StringAt(m, t, u, s, maxLen)
    ensures s == w
  {
    hide Located;
    assert ReadBytes(m, t, u, |w|) == w by {
      forall i | 0 <= i < |w| ensures ReadBytes(m, t, u, |w|)[i] == w[i] {
        assert (w + [0])[i] == w[i];
      }
    }
    StringBeyond(m, t, u, |w|, s, maxLen);
    assert ReadBytes(m, t, u, |w| + 1)[|w|] == 0;
    assert (s + [0])[|w|] == 0;
  }

  lemma EmptyStart(m: Memory, t: Tree, u: int)
    requires 0 <= u
    ensures AllMapped(t, u, 0) && ReadBytes(m, t, u, 0) == [] && CutAtCharacters(u, [])
  {
  }

  lemma ReadTo(m: Memory, t: Tree, u: int, front: seq<byte>, chunk: seq<byte>, k: nat)
    requires 0 <= u && AllMapped(t, u, |front| + |chunk|)
    requires ReadBytes(m, t, u, |front| + |chunk|) == front + chunk && k < |chunk| && chunk[k] == 0
    ensures AllMapped(t, u, |front + chunk[..k]| + 1)
    ensures ReadBytes(m, t, u, |front + chunk[..k]| + 1) == front + chunk[..k] + [0]
  {
    hide Located;
    var n := |front + chunk[..k]| + 1;
    forall i | 0 <= i < n ensures ReadBytes(m, t, u, n)[i] == (front + chunk[..k] + [0])[i] {
      assert ReadBytes(m, t, u, |front| + |chunk|)[i] == (front + chunk)[i];
    }
  }

  lemma Found(m: Memory, t: Tree, u: int, s: seq<byte>, maxLen: int)
    requires 0 <= u && AllMapped(t, u, |s| + 1) && |s| < maxLen && 0 !in s
    requires ReadBytes(m, t, u, |s| + 1) == s + [0] && CutAtCharacters(u, s)
    ensures Readable(m, t, u, s, maxLen)
  {
  }

  lemma PageEnd(u: int, n: int, c: int, maxLen: int)
    requires 0 <= u && 0 <= n < maxLen
    requires c == Min(maxLen - n, PAGE_SIZE - (u + n) % PAGE_SIZE)
    ensures n + c == maxLen || (u + (n + c)) % PAGE_SIZE == 0
  {
    if n + c != maxLen {
      QuotientRemainder(u + (n + c), PAGE_SIZE, (u + n) / PAGE_SIZE + 1, 0);
    }
  }

  /** Position of the first zero, or the length. */
  method FindZero(c: seq<byte>) returns (pos: nat)
    ensures pos <= |c| && 0 !in c[..pos] && (pos < |c| ==> c[pos] == 0)
  {
    pos := 0;
    while pos < |c| && c[pos] != 0
      invariant pos <= |c| && 0 !in c[..pos]
    {
      pos := pos + 1;
    }
  }

  class PhysicalMemory {
    var bytes: Memory

    constructor (m: Memory)
      ensures bytes == m
    {
      bytes := m;
    }

    method CopyOut(t: Tree, u: int, data: seq<byte>) returns (ok: bool)
      requires WellFormed(t) && 0 <= u && u + |data| < ADDRESS_LIMIT && SparesTables(t, u, |data|)
      modifies this
      ensures ok <==> AllMapped(t, u, |data|)
      ensures bytes == old(CopyBytes(bytes, t, u, data[..Reach(t, u, |data|)]))
    {
      hide VirtToPhys;
      var done := 0;
      while done < |data|
        invariant 0 <= done <= |data| && AllMapped(t, u, done)
        invariant bytes == old(CopyBytes(bytes, t, u, data[..done]))
      {
        var pageOffset := (u + done) % PAGE_SIZE;
        var chunk := Min(|data| - done, PAGE_SIZE - pageOffset);
        var phys := VirtToPhys(t, u + done);
        if phys.None? {
          ReachIs(t, u, |data|, done);
          return false;
        }
        ChunkContinues(old(bytes), t, u, data[..done], data[done..done + chunk], phys.value);
        assert data[..done] + data[done..done + chunk] == data[..done + chunk];
        bytes := Store(bytes, phys.value, data[done..done + chunk]);
        done := done + chunk;
      }
      ReachIs(t, u, |data|, |data|);
      return true;
    }

    method CopyIn(t: Tree, u: int, buf: array<byte>) returns (ok: bool)
      requires 0 <= u && u + buf.Length < ADDRESS_LIMIT
      modifies buf
      ensures ok <==> AllMapped(t, u, buf.Length)
      ensures var k := Reach(t, u, buf.Length);
              buf[..] == ReadBytes(bytes, t, u, k) + old(buf[..])[k..]
    {
      hide VirtToPhys, Load, ReadBytes;
      var offset := 0;
      while offset < buf.Length
        invariant 0 <= offset <= buf.Length && AllMapped(t, u, offset)
        invariant buf[..] == ReadBytes(bytes, t, u, offset) + old(buf[..])[offset..]
      {
        var pageOffset := (u + offset) % PAGE_SIZE;
        var chunk := Min(buf.Length - offset, PAGE_SIZE - pageOffset);
        var phys := VirtToPhys(t, u + offset);
        if phys.None? {
          ReachIs(t, u, buf.Length, offset);
          return false;
        }
        LoadContinues(bytes, t, u, offset, chunk, phys.value);
        var loaded := Load(bytes, phys.value, chunk);
        Overwritten(buf[..], ReadBytes(bytes, t, u, offset), old(buf[..]), loaded);
        CopyChunk(buf, offset, loaded);
        offset := offset + chunk;
      }
      ReachIs(t, u, buf.Length, buf.Length);
      return true;
    }

    /** The readable string at u; none exactly when there is none. */
    method CopyInStr(t: Tree, u: int, maxLen: nat) returns (r: Option<seq<byte>>)
      requires 0 <= u && u + maxLen < ADDRESS_LIMIT
      ensures r.Some? ==> Readable(bytes, t, u, r.value, maxLen)
      ensures r.None? ==> forall s :: !Readable(bytes, t, u, s, maxLen)
    {
      hide VirtToPhys, Load, ReadBytes, AllMapped, Utf8.Valid, CutAtCharacters, Readable;
      var result: seq<byte> := [];
      EmptyStart(bytes, t, u);
      while |result| < maxLen
        invariant |result| <= maxLen && AllMapped(t, u, |result|)
        invariant result == ReadBytes(bytes, t, u, |result|) && 0 !in result
        invariant CutAtCharacters(u, result)
        invariant result == [] || |result| == maxLen || (u + |result|) % PAGE_SIZE == 0
      {
        var scanned := |result|;
        var pageOffset := (u + scanned) % PAGE_SIZE;
        var chunkSize := Min(maxLen - scanned, PAGE_SIZE - pageOffset);
        var phys := VirtToPhys(t, u + scanned);
        if phys.None? {
          forall s ensures !Readable(bytes, t, u, s, maxLen) {
            StopsUnmapped(bytes, t, u, scanned, s, maxLen);
          }
          return None;
        }
        var chunk := Load(bytes, phys.value, chunkSize);
        LoadContinues(bytes, t, u, scanned, chunkSize, phys.value);
        var nullPos := FindZero(chunk);
        var text := chunk[..nullPos];
        CutStep(u, result, text);
        if nullPos < chunkSize {
          ReadTo(bytes, t, u, result, chunk, nullPos);
          if !Utf8.Valid(text) {
            forall s ensures !Readable(bytes, t, u, s, maxLen) {
              StopsAtEnd(bytes, t, u, result, text, s, maxLen);
            }
            return None;
          }
          Found(bytes, t, u, result + text, maxLen);
          return Some(result + text);
        }
        assert text == chunk;
        PageEnd(u, scanned, chunkSize, maxLen);
        if !Utf8.Valid(chunk) {
          forall s ensures !Readable(bytes, t, u, s, maxLen) {
            StopsInChunk(bytes, t, u, result, chunk, s, maxLen);
          }
          return None;
        }
        result := result + chunk;
      }
      forall s ensures !Readable(bytes, t, u, s, maxLen) {
        StopsUnmapped(bytes, t, u, |result|, s, maxLen);
      }
      return None;
    }
  }
}
