/**
 The least-recently-used cache with pinned entries, front = most recently used. An Arc is its
 address and what it points to; `held` is the set of Arcs that somebody outside the cache holds.
 No Arc is in the cache twice, so an entry's strong count exceeds one exactly when it is held.
 */
module LruCache {

  import opened Common

  datatype Arc<V> = Arc(id: int, value: V)

  datatype Entry<K, V> = Entry(key: K, arc: Arc<V>)

  type Slots<K, V> = seq<Entry<K, V>>

  function Keys<K, V>(s: Slots<K, V>): (r: seq<K>)
    ensures |r| == |s| && forall i | 0 <= i < |s| :: r[i] == s[i].key
  {
    seq(|s|, i requires 0 <= i < |s| => s[i].key)
  }

  // ---------------------------------------------------------------- get

  /** Position of the first entry with a key, or the length. */
  function Position<K(==), V>(s: Slots<K, V>, k: K): (p: nat)
    ensures p <= |s| && (p < |s| ==> s[p].key == k) && forall i | 0 <= i < p :: s[i].key != k
  {
    if s == [] || s[0].key == k then 0 else 1 + Position(s[1..], k)
  }

  function ToFront<T>(s: seq<T>, p: nat): (r: seq<T>)
    requires p < |s|
    ensures multiset(r) == multiset(s)
  {
    assert s == s[..p] + [s[p]] + s[p + 1..];
    [s[p]] + s[..p] + s[p + 1..]
  }

  // ---------------------------------------------------------------- insert

  predicate Pinned<K, V>(e: Entry<K, V>, held: set<int>) { e.arc.id in held }

  /** The backward pass: up to `needed` entries that are not pinned leave, from the back. */
  function Evict<K, V>(s: Slots<K, V>, needed: nat, held: set<int>): Slots<K, V>
    decreases |s|
  {
    if s == [] || needed == 0 then s
    else
      var last, front := s[|s| - 1], s[..|s| - 1];
      if Pinned(last, held) then Evict(front, needed, held) + [last] else Evict(front, needed - 1, held)
  }

  function Needed(size: nat, capacity: nat): nat {
    if size + 1 <= capacity then 0 else size + 1 - capacity
  }

  function Insert<K, V>(s: Slots<K, V>, capacity: nat, held: set<int>, e: Entry<K, V>): Slots<K, V> {
    [e] + Evict(s, Needed(|s|, capacity), held)
  }

  /** How many entries are not pinned. */
  function Loose<K, V>(s: Slots<K, V>, held: set<int>): (n: nat)
    ensures n <= |s|
  {
    if s == [] then 0 else (if Pinned(s[0], held) then 0 else 1) + Loose(s[1..], held)
  }

  /** Who should stay: the pinned, and those with at least `needed` others not pinned behind them. */
  function Keep<K, V>(s: Slots<K, V>, needed: nat, held: set<int>): (r: Slots<K, V>)
  {
    if s == [] then []
    else
      (if Pinned(s[0], held) || Loose(s[1..], held) >= needed then [s[0]] else []) + Keep(s[1..], needed, held)
  }

  lemma {:induction false} LooseAppend<K, V>(s: Slots<K, V>, e: Entry<K, V>, held: set<int>)
    ensures Loose(s + [e], held) == Loose(s, held) + (if Pinned(e, held) then 0 else 1)
  {
    if s == [] {
      assert s + [e] == [e] && [e][1..] == [];
    } else {
      LooseAppend(s[1..], e, held);
      assert (s + [e])[1..] == s[1..] + [e];
    }
  }

  lemma {:induction false} KeepAppend<K, V>(s: Slots<K, V>, e: Entry<K, V>, needed: nat, held: set<int>)
    requires needed > 0
    ensures Keep(s + [e], needed, held) ==
            if Pinned(e, held) then Keep(s, needed, held) + [e] else Keep(s, needed - 1, held)
  {
    if s == [] {
      assert s + [e] == [e] && [e][1..] == [];
    } else {
      KeepAppend(s[1..], e, needed, held);
      LooseAppend(s[1..], e, held);
      assert (s + [e])[1..] == s[1..] + [e];
    }
  }

  lemma {:induction false} KeepAll<K, V>(s: Slots<K, V>, held: set<int>)
    ensures Keep(s, 0, held) == s
  {
    if s != [] { KeepAll(s[1..], held); }
  }

  /** The backward pass keeps exactly those who should stay, in their order. */
  lemma {:induction false} EvictIsKeep<K, V>(s: Slots<K, V>, needed: nat, held: set<int>)
    ensures Evict(s, needed, held) == Keep(s, needed, held)
    decreases |s|
  {
    if needed == 0 {
      KeepAll(s, held);
    } else if s != [] {
      var last, front := s[|s| - 1], s[..|s| - 1];
      assert s == front + [last];
      KeepAppend(front, last, needed, held);
      EvictIsKeep(front, if Pinned(last, held) then needed else needed - 1, held);
    }
  }

  /** Pinned entries stay, and as many others leave as are needed and there are. */
  lemma {:induction false} EvictCounts<K, V>(s: Slots<K, V>, needed: nat, held: set<int>)
    ensures |Evict(s, needed, held)| == |s| - (if needed < Loose(s, held) then needed else Loose(s, held))
    ensures Loose(Evict(s, needed, held), held) == (if needed < Loose(s, held) then Loose(s, held) - needed else 0)
    ensures forall e :: e in Evict(s, needed, held) ==> e in s
    ensures forall e :: e in s && Pinned(e, held) ==> e in Evict(s, needed, held)
    decreases |s|
  {
    if s != [] && needed > 0 {
      var last, front := s[|s| - 1], s[..|s| - 1];
      assert s == front + [last];
      LooseAppend(front, last, held);
      if Pinned(last, held) {
        EvictCounts(front, needed, held);
        LooseAppend(Evict(front, needed, held), last, held);
      } else {
        EvictCounts(front, needed - 1, held);
      }
    }
  }

  /** After an insert the cache is within its capacity, or every other entry is pinned. */
  lemma InsertBound<K, V>(s: Slots<K, V>, capacity: nat, held: set<int>, e: Entry<K, V>)
    ensures var r := Insert(s, capacity, held, e);
            |r| <= capacity || forall i | 1 <= i < |r| :: Pinned(r[i], held)
  {
    var needed := Needed(|s|, capacity);
    EvictCounts(s, needed, held);
    AllPinned(Evict(s, needed, held), held);
  }

  lemma {:induction false} AllPinned<K, V>(s: Slots<K, V>, held: set<int>)
    ensures Loose(s, held) == 0 <==> forall i | 0 <= i < |s| :: Pinned(s[i], held)
  {
    if s != [] {
      AllPinned(s[1..], held);
      assert forall i | 1 <= i < |s| :: s[i] == s[1..][i - 1];
    }
  }

  // ---------------------------------------------------------------- the trace of uses

  /** One use of a key when nothing is pinned: a hit, or a miss and the insert of the Arc read. */
  function Use<K(==), V>(s: Slots<K, V>, capacity: nat, e: Entry<K, V>): Slots<K, V> {
    var p := Position(s, e.key);
    if p < |s| then ToFront(s, p) else Insert(s, capacity, {}, e)
  }

  function UseAll<K(==), V>(trace: Slots<K, V>, capacity: nat): Slots<K, V> {
    if trace == [] then []
    else Use(UseAll(trace[..|trace| - 1], capacity), capacity, trace[|trace| - 1])
  }

  function Without<K(==)>(s: seq<K>, k: K): seq<K> {
    if s == [] then [] else (if s[0] == k then [] else [s[0]]) + Without(s[1..], k)
  }

  /** The distinct keys of a trace, most recently used first. */
  function Recent<K(==)>(trace: seq<K>): seq<K> {
    if trace == [] then []
    else
      var k := trace[|trace| - 1];
      [k] + Without(Recent(trace[..|trace| - 1]), k)
  }

  function Cut<T>(s: seq<T>, n: nat): seq<T> { if |s| <= n then s else s[..n] }

  predicate NoDup<K(==)>(s: seq<K>) { s == [] || (s[0] !in s[1..] && NoDup(s[1..])) }

  lemma {:induction false} WithoutFacts<K>(s: seq<K>, k: K)
    ensures forall x :: x in Without(s, k) <==> x in s && x != k
    ensures k !in s ==> Without(s, k) == s
  {
    if s != [] { WithoutFacts(s[1..], k); }
  }

  lemma {:induction false} WithoutNoDup<K>(s: seq<K>, k: K)
    requires NoDup(s)
    ensures NoDup(Without(s, k))
  {
    if s != [] {
      WithoutNoDup(s[1..], k);
      WithoutFacts(s[1..], k);
      var rest := Without(s[1..], k);
      if s[0] == k {
        assert Without(s, k) == rest;
      } else {
        assert Without(s, k)[1..] == rest;
      }
    }
  }

  lemma {:induction false} WithoutAt<K>(s: seq<K>, p: nat)
    requires p < |s| && NoDup(s)
    ensures Without(s, s[p]) == s[..p] + s[p + 1..]
  {
    if p == 0 {
      WithoutFacts(s[1..], s[0]);
    } else {
      WithoutAt(s[1..], p - 1);
      assert s[p] in s[1..];
      assert [s[0]] + (s[1..][..p - 1] + s[1..][p..]) == s[..p] + s[p + 1..];
    }
  }

  lemma {:induction false} RecentNoDup<K>(trace: seq<K>)
    ensures NoDup(Recent(trace))
    decreases |trace|
  {
    if trace != [] {
      var front, k := trace[..|trace| - 1], trace[|trace| - 1];
      RecentNoDup(front);
      WithoutFacts(Recent(front), k);
      WithoutNoDup(Recent(front), k);
      assert Recent(trace)[1..] == Without(Recent(front), k);
    }
  }

  /** Using one of the first c keys again. */
  lemma CutHit<K>(r: seq<K>, c: nat, p: nat)
    requires NoDup(r) && p < |Cut(r, c)|
    ensures [r[p]] + Cut(r, c)[..p] + Cut(r, c)[p + 1..] == Cut([r[p]] + Without(r, r[p]), c)
  {
    WithoutAt(r, p);
    hide Without, NoDup;
    var a, b := [r[p]] + Cut(r, c)[..p] + Cut(r, c)[p + 1..], Cut([r[p]] + (r[..p] + r[p + 1..]), c);
    assert |a| == |b|;
    forall i | 0 <= i < |a| ensures a[i] == b[i] {
      if 0 < i <= p { assert a[i] == Cut(r, c)[..p][i - 1]; }
    }
  }

  lemma InCut<K>(r: seq<K>, c: nat, p: nat)
    requires p < |r|
    ensures p < c ==> r[p] in Cut(r, c)
  {
    if p < c { assert Cut(r, c)[p] == r[p]; }
  }

  /** Using a key that is not among the first c. */
  lemma CutMiss<K>(r: seq<K>, c: nat, k: K)
    requires NoDup(r) && k !in Cut(r, c) && c > 0
    ensures [k] + Cut(r, c - 1) == Cut([k] + Without(r, k), c)
  {
    WithoutFacts(r, k);
    if k in r {
      var p :| 0 <= p < |r| && r[p] == k;
      InCut(r, c, p);
      WithoutAt(r, p);
    }
    hide Without, NoDup;
  }

  lemma {:induction false} EvictUnpinned<K, V>(s: Slots<K, V>, needed: nat)
    ensures Evict(s, needed, {}) == if needed <= |s| then s[..|s| - needed] else []
    decreases |s|
  {
    if s != [] && needed > 0 {
      EvictUnpinned(s[..|s| - 1], needed - 1);
      assert needed <= |s| ==> s[..|s| - 1][..|s| - needed] == s[..|s| - needed];
    }
  }

  function AtLeastOne(n: nat): nat { if n == 0 then 1 else n }

  /** The keys after one more use, when they were the recent keys before it. */
  lemma UseIsRecent<K, V>(s: Slots<K, V>, capacity: nat, e: Entry<K, V>, r: seq<K>)
    requires NoDup(r) && Keys(s) == Cut(r, AtLeastOne(capacity))
    ensures Keys(Use(s, capacity, e)) == Cut([e.key] + Without(r, e.key), AtLeastOne(capacity))
  {
    hide Without, NoDup;
    var c := AtLeastOne(capacity);
    var p := Position(s, e.key);
    if p < |s| {
      assert Keys(s)[p] == r[p];
      CutHit(r, c, p);
      KeysToFront(s, p);
    } else {
      assert e.key !in Cut(r, c) by {
        forall i | 0 <= i < |s| ensures Keys(s)[i] != e.key {}
      }
      CutMiss(r, c, e.key);
      EvictUnpinned(s, Needed(|s|, capacity));
      KeysInsert(s, capacity, e, r);
    }
  }

  lemma KeysToFront<K, V>(s: Slots<K, V>, p: nat)
    requires p < |s|
    ensures Keys(ToFront(s, p)) == [Keys(s)[p]] + Keys(s)[..p] + Keys(s)[p + 1..]
  {
  }

  lemma KeysInsert<K, V>(s: Slots<K, V>, capacity: nat, e: Entry<K, V>, r: seq<K>)
    requires Keys(s) == Cut(r, AtLeastOne(capacity))
    ensures Keys(Insert(s, capacity, {}, e)) == [e.key] + Cut(r, AtLeastOne(capacity) - 1)
  {
    EvictUnpinned(s, Needed(|s|, capacity));
    hide Evict;
    var left := Evict(s, Needed(|s|, capacity), {});
    assert Keys([e] + left) == [e.key] + Keys(left);
    assert Keys(left) == Keys(s)[..|left|];
  }

  /** Used one call at a time and with nothing pinned, the cache holds the most recent distinct keys,
      cut to its capacity; a capacity of zero still holds one. */
  lemma {:induction false} HoldsMostRecent<K, V>(trace: Slots<K, V>, capacity: nat)
    ensures Keys(UseAll(trace, capacity)) == Cut(Recent(Keys(trace)), AtLeastOne(capacity))
    decreases |trace|
  {
    if trace != [] {
      var front, e := trace[..|trace| - 1], trace[|trace| - 1];
      HoldsMostRecent(front, capacity);
      RecentNoDup(Keys(front));
      UseIsRecent(UseAll(front, capacity), capacity, e, Recent(Keys(front)));
      assert Keys(trace)[..|trace| - 1] == Keys(front);
    }
  }

  // ---------------------------------------------------------------- the cache

  class Cache<K(==), V> {
    var slots: Slots<K, V>
    const capacity: nat

    constructor (capacity: nat)
      ensures slots == [] && this.capacity == capacity
    {
      slots := [];
      this.capacity := capacity;
    }

    method Get(k: K) returns (r: Option<Arc<V>>)
      modifies this
      ensures var p := Position(old(slots), k);
              if p < |old(slots)| then r == Some(old(slots)[p].arc) && slots == ToFront(old(slots), p)
              else r == None && slots == old(slots)
    {
      var pos := 0;
      while pos < |slots| && slots[pos].key != k
        invariant 0 <= pos <= |slots| && forall i | 0 <= i < pos :: slots[i].key != k
      {
        pos := pos + 1;
      }
      PositionIs(slots, k, pos);
      if pos == |slots| {
        return None;
      }
      var entry := slots[pos];
      r := Some(entry.arc);
      slots := [entry] + (slots[..pos] + slots[pos + 1..]);
    }

    method InsertEntry(k: K, value: Arc<V>, held: set<int>)
      modifies this
      ensures slots == Insert(old(slots), capacity, held, Entry(k, value))
    {
      var needed := Needed(|slots|, capacity);
      var i := |slots|;
      assert slots[..i] == slots && slots[i..] == [];
      while needed > 0 && i > 0
        invariant 0 <= i <= |slots| && 0 <= needed
        invariant Evict(slots[..i], needed, held) + slots[i..] ==
                  Evict(old(slots), Needed(|old(slots)|, capacity), held)
        decreases i
      {
        i := i - 1;
        EvictLast(slots, i, needed, held);
        if !Pinned(slots[i], held) {
          slots := slots[..i] + slots[i + 1..];
          needed := needed - 1;
        }
      }
      slots := [Entry(k, value)] + slots;
    }
  }

  lemma PositionIs<K, V>(s: Slots<K, V>, k: K, p: nat)
    requires p <= |s| && (p < |s| ==> s[p].key == k) && forall i | 0 <= i < p :: s[i].key != k
    ensures Position(s, k) == p
  {
    hide Position;
  }

  /** One round of the backward pass. */
  lemma EvictLast<K, V>(s: Slots<K, V>, i: nat, needed: nat, held: set<int>)
    requires i < |s| && needed > 0
    ensures Evict(s[..i + 1], needed, held) + s[i + 1..] ==
            if Pinned(s[i], held) then Evict(s[..i], needed, held) + s[i..]
            else Evict(s[..i], needed - 1, held) + s[i + 1..]
  {
    assert s[..i + 1][..i] == s[..i];
    assert [s[i]] + s[i + 1..] == s[i..];
  }
}
