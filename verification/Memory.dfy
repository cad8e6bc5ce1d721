/** The usable part of RAM: what no reserved region covers. */
module Memory {

  import opened Common

  datatype Region = Region(start: int, end: int)

  predicate Has(r: Region, x: int) { r.start <= x < r.end }

  predicate Covers(s: seq<Region>, x: int) { exists i | 0 <= i < |s| :: Has(s[i], x) }

  predicate NonEmpty(s: seq<Region>) { forall i | 0 <= i < |s| :: s[i].start < s[i].end }

  predicate Sorted(s: seq<Region>) { forall i, j | 0 <= i < j < |s| :: s[i].start <= s[j].start }

  /** In order, not empty, and with a gap between any two. */
  predicate Separated(s: seq<Region>) {
    NonEmpty(s) && forall i, j | 0 <= i < j < |s| :: s[i].end < s[j].start
  }

  predicate Within(s: seq<Region>, ram: Region) {
    forall i | 0 <= i < |s| :: ram.start <= s[i].start && s[i].end <= ram.end
  }

  lemma CoversAppend(s: seq<Region>, r: Region, x: int)
    ensures Covers(s + [r], x) <==> Covers(s, x) || Has(r, x)
  {
    var t := s + [r];
    assert forall i | 0 <= i < |s| :: t[i] == s[i];
    assert t[|s|] == r;
  }

  // ---------------------------------------------------------------- clip

  method Clip(ram: Region, reserved: seq<Region>) returns (clipped: seq<Region>)
    ensures forall x :: Covers(clipped, x) <==> Has(ram, x) && Covers(reserved, x)
    ensures NonEmpty(clipped) && Within(clipped, ram) && |clipped| <= |reserved|
  {
    clipped := [];
    for i := 0 to |reserved|
      invariant forall x :: Covers(clipped, x) <==> Has(ram, x) && Covers(reserved[..i], x)
      invariant NonEmpty(clipped) && Within(clipped, ram) && |clipped| <= i
    {
      var r := reserved[i];
      var s, e := Max(r.start, ram.start), Min(r.end, ram.end);
      ghost var before := clipped;
      if s < e {
        clipped := clipped + [Region(s, e)];
      }
      forall x ensures Covers(clipped, x) <==> Has(ram, x) && Covers(reserved[..i + 1], x) {
        CoversAppend(before, Region(s, e), x);
        CoversAppend(reserved[..i], r, x);
        assert reserved[..i + 1] == reserved[..i] + [r];
      }
    }
    assert reserved[..|reserved|] == reserved;
  }

  // ---------------------------------------------------------------- sort

  function Swapped(s: seq<Region>, i: nat, j: nat): seq<Region>
    requires i < |s| && j < |s|
  {
    s[i := s[j]][j := s[i]]
  }

  lemma SwappedSame(s: seq<Region>, i: nat, j: nat)
    requires i < |s| && j < |s|
    ensures multiset(Swapped(s, i, j)) == multiset(s)
  {
  }

  /** Everything before i is in place: sorted, and not above anything behind it. */
  predicate InPlace(s: seq<Region>, i: int)
    requires i <= |s|
  {
    forall a, b | 0 <= a < i && a < b < |s| :: s[a].start <= s[b].start
  }

  /** The exchange sort by start address. */
  method SortByStart(regions: seq<Region>) returns (s: seq<Region>)
    ensures Sorted(s) && multiset(s) == multiset(regions)
  {
    s := regions;
    for i := 0 to |s|
      invariant |s| == |regions| && multiset(s) == multiset(regions) && InPlace(s, i)
    {
      for j := i + 1 to |s|
        invariant |s| == |regions| && multiset(s) == multiset(regions) && InPlace(s, i)
        invariant forall k | i < k < j :: s[i].start <= s[k].start
      {
        if s[j].start < s[i].start {
          SwappedSame(s, i, j);
          SwapInPlace(s, i, j);
          s := Swapped(s, i, j);
        }
      }
    }
  }

  lemma SwapInPlace(s: seq<Region>, i: nat, j: nat)
    requires i < j < |s| && InPlace(s, i)
    ensures InPlace(Swapped(s, i, j), i)
  {
  }

  lemma SameCover(s: seq<Region>, t: seq<Region>, x: int)
    requires multiset(s) == multiset(t)
    ensures Covers(s, x) <==> Covers(t, x)
  {
    CoverMember(s, x);
    CoverMember(t, x);
    assert forall r :: r in s <==> r in multiset(s);
    assert forall r :: r in t <==> r in multiset(t);
  }

  lemma CoverMember(s: seq<Region>, x: int)
    ensures Covers(s, x) <==> exists r :: r in s && Has(r, x)
  {
  }

  // ---------------------------------------------------------------- merge

  /** The two lists cover the same addresses. */
  ghost predicate Same(s: seq<Region>, t: seq<Region>) { forall x :: Covers(s, x) <==> Covers(t, x) }

  /** One more region: extends the last one if it touches it. */
  function Merged(m: seq<Region>, r: Region): seq<Region> {
    if m != [] && r.start <= m[|m| - 1].end
    then m[..|m| - 1] + [Region(m[|m| - 1].start, Max(m[|m| - 1].end, r.end))]
    else m + [r]
  }

  lemma MergedCovers(m: seq<Region>, r: Region, x: int)
    requires NonEmpty(m) && (m != [] ==> m[|m| - 1].start <= r.start)
    ensures Covers(Merged(m, r), x) <==> Covers(m, x) || Has(r, x)
  {
    hide Covers;
    CoversAppend(m, r, x);
    if m != [] {
      var front, last := m[..|m| - 1], m[|m| - 1];
      assert m == front + [last];
      CoversAppend(front, last, x);
      CoversAppend(front, Region(last.start, Max(last.end, r.end)), x);
    }
  }

  lemma MergedSeparated(m: seq<Region>, r: Region)
    requires Separated(m) && r.start < r.end && (m != [] ==> m[|m| - 1].start <= r.start)
    ensures Separated(Merged(m, r)) && Merged(m, r) != [] && Merged(m, r)[|Merged(m, r)| - 1].start <= r.start
  {
  }

  lemma MergedSame(m: seq<Region>, s: seq<Region>, i: nat)
    requires i < |s| && Same(m, s[..i]) && NonEmpty(m) && (m != [] ==> m[|m| - 1].start <= s[i].start)
    ensures Same(Merged(m, s[i]), s[..i + 1])
  {
    hide Covers, Merged;
    forall x ensures Covers(Merged(m, s[i]), x) <==> Covers(s[..i + 1], x) {
      MergedCovers(m, s[i], x);
      CoversAppend(s[..i], s[i], x);
      assert s[..i + 1] == s[..i] + [s[i]];
    }
  }

  method Merge(sorted: seq<Region>) returns (merged: seq<Region>)
    requires Sorted(sorted) && NonEmpty(sorted)
    ensures Separated(merged) && |merged| <= |sorted| && Same(merged, sorted)
  {
    hide Same, Covers, Separated;
    merged := [];
    NothingCovered(sorted);
    for i := 0 to |sorted|
      invariant Separated(merged) && |merged| <= i && Same(merged, sorted[..i])
      invariant merged != [] && i < |sorted| ==> merged[|merged| - 1].start <= sorted[i].start
    {
      var r := sorted[i];
      SeparatedParts(merged);
      MergedSame(merged, sorted, i);
      MergedSeparated(merged, r);
      ghost var next := Merged(merged, r);
      if merged != [] && r.start <= merged[|merged| - 1].end {
        var k := |merged| - 1;
        if r.end > merged[k].end {
          merged := merged[k := Region(merged[k].start, r.end)];
        }
      } else {
        merged := merged + [r];
      }
      assert merged == next;
    }
    assert sorted[..|sorted|] == sorted;
  }

  lemma NothingCovered(s: seq<Region>)
    ensures Same([], s[..0]) && Separated([])
  {
  }

  lemma SeparatedParts(s: seq<Region>)
    requires Separated(s)
    ensures NonEmpty(s)
  {
  }

  // ---------------------------------------------------------------- carve

  /** What a sorted list leaves free from a cursor up to an end. */
  function Gaps(s: seq<Region>, cursor: int, end: int): seq<Region> {
    if s == [] then (if cursor < end then [Region(cursor, end)] else [])
    else (if cursor < s[0].start then [Region(cursor, s[0].start)] else []) + Gaps(s[1..], Max(cursor, s[0].end), end)
  }

  /** The regions lie between the cursor and the end. */
  predicate Between(s: seq<Region>, cursor: int, end: int) {
    forall i | 0 <= i < |s| :: cursor <= s[i].start && s[i].end <= end
  }

  lemma GapsTail(s: seq<Region>, cursor: int, end: int)
    requires s != [] && Separated(s) && Between(s, cursor, end)
    ensures Separated(s[1..]) && Between(s[1..], s[0].end, end) && Max(cursor, s[0].end) == s[0].end
  {
  }

  lemma {:induction false} GapsSeparated(s: seq<Region>, cursor: int, end: int)
    requires Separated(s) && Between(s, cursor, end)
    ensures Separated(Gaps(s, cursor, end)) && Between(Gaps(s, cursor, end), cursor, end)
    ensures |Gaps(s, cursor, end)| <= |s| + 1
  {
    if s != [] {
      GapsTail(s, cursor, end);
      GapsSeparated(s[1..], s[0].end, end);
    }
  }

  lemma {:induction false} GapsCover(s: seq<Region>, cursor: int, end: int, x: int)
    requires Separated(s) && Between(s, cursor, end)
    ensures Covers(Gaps(s, cursor, end), x) <==> cursor <= x < end && !Covers(s, x)
  {
    if s == [] {
      if cursor < end { assert Gaps(s, cursor, end)[0] == Region(cursor, end); }
    } else {
      GapsTail(s, cursor, end);
      GapsCover(s[1..], s[0].end, end, x);
      var rest := Gaps(s[1..], s[0].end, end);
      CoversFront(s[0], s[1..], x);
      assert s == [s[0]] + s[1..];
      CoversFront(Region(cursor, s[0].start), rest, x);
      NotBefore(s[1..], s[0].end, end, x);
      hide Covers;
      assert [] + rest == rest;
    }
  }

  lemma CoversFront(r: Region, s: seq<Region>, x: int)
    ensures Covers([r] + s, x) <==> Has(r, x) || Covers(s, x)
  {
    var t := [r] + s;
    assert t[0] == r;
    assert forall i | 0 <= i < |s| :: t[i + 1] == s[i];
  }

  lemma NotBefore(s: seq<Region>, cursor: int, end: int, x: int)
    requires Between(s, cursor, end)
    ensures Covers(s, x) ==> cursor <= x < end
  {
  }

  /** `push` on a vector of fixed capacity: dropped when it is full. */
  function Push(v: seq<Region>, capacity: nat, r: Region): seq<Region> {
    if |v| < capacity then v + [r] else v
  }

  function PushAll(v: seq<Region>, capacity: nat, rs: seq<Region>): seq<Region>
    decreases |rs|
  {
    if rs == [] then v else PushAll(Push(v, capacity, rs[0]), capacity, rs[1..])
  }

  /** What does not fit is dropped from the end. */
  lemma {:induction false} PushedPrefix(v: seq<Region>, capacity: nat, rs: seq<Region>)
    requires |v| <= capacity
    ensures PushAll(v, capacity, rs) == v + rs[..Min(|rs|, capacity - |v|)]
    decreases |rs|
  {
    if rs != [] {
      PushedPrefix(Push(v, capacity, rs[0]), capacity, rs[1..]);
      TakeFirst(v, rs, Min(|rs|, capacity - |v|));
    }
  }

  lemma TakeFirst(v: seq<Region>, rs: seq<Region>, k: nat)
    requires rs != [] && k <= |rs|
    ensures if k > 0 then (v + [rs[0]]) + rs[1..][..k - 1] == v + rs[..k] else rs[1..][..0] == rs[..0]
  {
  }

  method Carve(ram: Region, merged: seq<Region>, usable: seq<Region>, capacity: nat) returns (r: seq<Region>)
    ensures r == PushAll(usable, capacity, Gaps(merged, ram.start, ram.end))
  {
    r := usable;
    var cursor := ram.start;
    assert merged[0..] == merged;
    for i := 0 to |merged|
      invariant PushAll(r, capacity, Gaps(merged[i..], cursor, ram.end)) ==
                PushAll(usable, capacity, Gaps(merged, ram.start, ram.end))
    {
      var m := merged[i];
      GapsStep(merged[i..], cursor, ram.end, r, capacity);
      assert merged[i..][1..] == merged[i + 1..];
      if m.start > cursor {
        r := Push(r, capacity, Region(cursor, m.start));
      }
      cursor := Max(cursor, m.end);
    }
    assert merged[|merged|..] == [];
    if cursor < ram.end {
      r := Push(r, capacity, Region(cursor, ram.end));
    }
  }

  lemma GapsStep(s: seq<Region>, cursor: int, end: int, v: seq<Region>, capacity: nat)
    requires s != []
    ensures PushAll(v, capacity, Gaps(s, cursor, end)) ==
            PushAll(if cursor < s[0].start then Push(v, capacity, Region(cursor, s[0].start)) else v, capacity,
                    Gaps(s[1..], Max(cursor, s[0].end), end))
  {
    var rest := Gaps(s[1..], Max(cursor, s[0].end), end);
    if cursor < s[0].start {
      assert ([Region(cursor, s[0].start)] + rest)[1..] == rest;
    }
    assert [] + rest == rest;
  }

  // ---------------------------------------------------------------- all four steps

  /** Exactly the addresses of RAM that no reserved region covers. */
  ghost predicate Usable(ram: Region, reserved: seq<Region>, s: seq<Region>) {
    forall x :: Covers(s, x) <==> Has(ram, x) && !Covers(reserved, x)
  }

  /** For any reserved regions, in any order, overlapping or outside RAM: the result is separated and
      covers no other than usable addresses; it covers all of them if the vector has room for one more
      region than there are reserved ones. */
  method ComputeUsableRegions(ram: Region, reserved: seq<Region>, capacity: nat) returns (usable: seq<Region>)
    ensures Separated(usable)
    ensures forall x :: Covers(usable, x) ==> Has(ram, x) && !Covers(reserved, x)
    ensures |reserved| + 1 <= capacity ==> Usable(ram, reserved, usable)
  {
    hide Separated, Covers, Gaps;
    var clipped := Clip(ram, reserved);
    var sorted := SortByStart(clipped);
    SortedFacts(ram, clipped, sorted);
    var merged := Merge(sorted);
    MergedWithin(ram, sorted, merged);
    usable := Carve(ram, merged, [], capacity);
    ghost var gaps := Gaps(merged, ram.start, ram.end);
    GapsSeparated(merged, ram.start, ram.end);
    PushedPrefix([], capacity, gaps);
    assert usable == gaps[..|usable|];
    PrefixSeparated(gaps, |usable|);
    assert gaps[..|gaps|] == gaps;
    forall x
      ensures Covers(usable, x) ==> Has(ram, x) && !Covers(reserved, x)
      ensures |reserved| + 1 <= capacity ==> (Covers(usable, x) <==> Has(ram, x) && !Covers(reserved, x))
    {
      GapsCover(merged, ram.start, ram.end, x);
      SameCover(sorted, clipped, x);
      PrefixCovers(gaps, |usable|, x);
    }
  }

  lemma PrefixSeparated(s: seq<Region>, k: nat)
    requires Separated(s) && k <= |s|
    ensures Separated(s[..k])
  {
  }

  lemma PrefixCovers(s: seq<Region>, k: nat, x: int)
    requires k <= |s|
    ensures Covers(s[..k], x) ==> Covers(s, x)
  {
    if Covers(s[..k], x) {
      var i :| 0 <= i < k && Has(s[..k][i], x);
      assert Has(s[i], x);
    }
  }

  /** A separated list is the only one that covers what it covers. */
  lemma {:induction false} SeparatedUnique(s: seq<Region>, t: seq<Region>)
    requires Separated(s) && Separated(t) && Same(s, t)
    ensures s == t
  {
    hide Covers, Same, Separated;
    SameMirrored(s, t);
    if s != [] { NoneEmpty(s, t); }
    if t != [] { NoneEmpty(t, s); }
    if s != [] && t != [] {
      FirstAgrees(s, t);
      FirstAgrees(t, s);
      TailsSame(s, t);
      SeparatedUnique(s[1..], t[1..]);
      assert s == [s[0]] + s[1..] && t == [t[0]] + t[1..];
    }
  }

  lemma SameMirrored(s: seq<Region>, t: seq<Region>)
    requires Same(s, t)
    ensures Same(t, s)
  {
  }

  lemma NoneEmpty(s: seq<Region>, t: seq<Region>)
    requires Separated(s) && Same(s, t) && s != []
    ensures t != []
  {
    StartCovered(s);
  }

  lemma TailsSame(s: seq<Region>, t: seq<Region>)
    requires Separated(s) && Separated(t) && Same(s, t) && s != [] && t != [] && s[0] == t[0]
    ensures Separated(s[1..]) && Separated(t[1..]) && Same(s[1..], t[1..])
  {
    hide Covers;
    forall x ensures Covers(s[1..], x) <==> Covers(t[1..], x) {
      TailCovers(s, x);
      TailCovers(t, x);
    }
  }

  lemma FirstAgrees(s: seq<Region>, t: seq<Region>)
    requires Separated(s) && Separated(t) && Same(s, t) && s != [] && t != []
    ensures t[0].start <= s[0].start && (t[0].start == s[0].start ==> t[0].end <= s[0].end)
  {
    StartCovered(s);
    NotBelowFirst(t, s[0].start);
    BehindFirst(s);
    InFirst(t, s[0].end);
    hide Covers;
  }

  lemma InFirst(t: seq<Region>, x: int)
    requires t != []
    ensures Has(t[0], x) ==> Covers(t, x)
  {
  }

  lemma StartCovered(s: seq<Region>)
    requires NonEmpty(s)
    ensures s != [] ==> Covers(s, s[0].start)
  {
    if s != [] { assert Has(s[0], s[0].start); }
  }

  lemma NotBelowFirst(t: seq<Region>, x: int)
    requires Separated(t) && t != [] && Covers(t, x)
    ensures t[0].start <= x
  {
    var i :| 0 <= i < |t| && Has(t[i], x);
    assert i > 0 ==> t[0].end < t[i].start;
  }

  lemma BehindFirst(s: seq<Region>)
    requires Separated(s) && s != []
    ensures !Covers(s, s[0].end)
  {
  }

  lemma TailCovers(s: seq<Region>, x: int)
    requires Separated(s) && s != []
    ensures Covers(s[1..], x) <==> Covers(s, x) && !Has(s[0], x)
  {
    CoversFront(s[0], s[1..], x);
    assert s == [s[0]] + s[1..];
    assert forall i | 1 <= i < |s| :: s[0].end < s[i].start;
    assert forall i | 0 <= i < |s| - 1 :: s[1..][i] == s[i + 1];
  }

  // ---------------------------------------------------------------- the reserved regions

  const MAX_RESERVED := 16

  /** The list `init` passes on: the device tree's regions, the kernel image and the device tree. */
  function ReservedList(fromTree: seq<Region>, image: Region, tree: Region): seq<Region> {
    Push(Push(fromTree, MAX_RESERVED, image), MAX_RESERVED, tree)
  }

  /** Both of its own regions are reserved exactly when the device tree leaves room for two. */
  lemma OwnRegionsReservedIff(fromTree: seq<Region>, image: Region, tree: Region)
    requires |fromTree| <= MAX_RESERVED
    ensures ReservedList(fromTree, image, tree) == fromTree + [image, tree] <==> |fromTree| <= MAX_RESERVED - 2
  {
    var all := fromTree + [image, tree];
    assert fromTree + [image] + [tree] == all;
    assert |ReservedList(fromTree, image, tree)| <= MAX_RESERVED;
  }

  lemma SortedFacts(ram: Region, clipped: seq<Region>, sorted: seq<Region>)
    requires multiset(clipped) == multiset(sorted) && NonEmpty(clipped) && Within(clipped, ram)
    ensures NonEmpty(sorted) && Within(sorted, ram) && |sorted| == |clipped|
  {
    assert |multiset(clipped)| == |clipped| && |multiset(sorted)| == |sorted|;
    forall i | 0 <= i < |sorted| ensures sorted[i] in clipped {
      assert sorted[i] in multiset(sorted);
    }
  }

  /** Merging covers nothing outside RAM. */
  lemma MergedWithin(ram: Region, sorted: seq<Region>, merged: seq<Region>)
    requires Within(sorted, ram) && Separated(merged) && Same(merged, sorted)
    ensures Between(merged, ram.start, ram.end)
  {
    forall i | 0 <= i < |merged| ensures ram.start <= merged[i].start && merged[i].end <= ram.end {
      var lo, hi := merged[i].start, merged[i].end - 1;
      assert Has(merged[i], lo) && Has(merged[i], hi);
      assert Covers(merged, lo) && Covers(merged, hi);
      InRam(ram, sorted, lo);
      InRam(ram, sorted, hi);
    }
  }

  lemma InRam(ram: Region, s: seq<Region>, x: int)
    requires Within(s, ram)
    ensures Covers(s, x) ==> Has(ram, x)
  {
  }
}
