/**
 The block cache in front of a read-only volume. A lookup and an insert each hold the cache's lock;
 between them, on a miss, the disk is read without it, and any other thread may run.
 */
module BlockCache {

  import opened Common
  import opened LruCache

  const CACHE_CAPACITY := 16

  type Block = seq<int>

  /** What the inner volume holds; reading any other address is an error. */
  type Disk = map<int, Block>

  /** Inside get_block: looked up in vain; read from disk; or with a block in hand. */
  datatype Phase =
    | Missed(lba: int)
    | Fetched(lba: int, arc: Arc<Block>)
    | Got(lba: int, arc: Arc<Block>)

  /** kept: Arcs that callers hold on to after get_block. nextId: the address of the next new Arc. */
  datatype Volume = Volume(slots: Slots<int, Block>, threads: map<int, Phase>, kept: multiset<int>, nextId: int)

  datatype Step =
    | Lookup(tid: int, lba: int)
    | Fetch(tid: int)
    | Store(tid: int)
    | Retain(tid: int)
    | Leave(tid: int)
    | Release(id: int)

  predicate Enabled(v: Volume, s: Step) {
    match s
    case Lookup(t, _) => t !in v.threads
    case Fetch(t) => t in v.threads && v.threads[t].Missed?
    case Store(t) => t in v.threads && v.threads[t].Fetched?
    case Retain(t) => t in v.threads && v.threads[t].Got?
    case Leave(t) => t in v.threads && v.threads[t].Got?
    case Release(id) => id in v.kept
  }

  /** Arcs that somebody outside the cache holds. */
  function Held(v: Volume): set<int> {
    (set id | id in v.kept) + set t | t in v.threads && !v.threads[t].Missed? :: v.threads[t].arc.id
  }

  function Next(disk: Disk, v: Volume, s: Step): Volume
    requires Enabled(v, s)
  {
    match s
    case Lookup(t, lba) =>
      var p := Position(v.slots, lba);
      if p < |v.slots| then
        v.(slots := ToFront(v.slots, p), threads := v.threads[t := Got(lba, v.slots[p].arc)])
      else v.(threads := v.threads[t := Missed(lba)])
    case Fetch(t) =>
      var lba := v.threads[t].lba;
      if lba in disk then
        v.(threads := v.threads[t := Fetched(lba, Arc(v.nextId, disk[lba]))], nextId := v.nextId + 1)
      else v.(threads := v.threads - {t})
    case Store(t) =>
      var phase := v.threads[t];
      v.(slots := Insert(v.slots, CACHE_CAPACITY, Held(v), Entry(phase.lba, phase.arc)),
         threads := v.threads[t := Got(phase.lba, phase.arc)])
    case Retain(t) => v.(kept := v.kept + multiset{v.threads[t].arc.id}, threads := v.threads - {t})
    case Leave(t) => v.(threads := v.threads - {t})
    case Release(id) => v.(kept := v.kept - multiset{id})
  }

  // ---------------------------------------------------------------- the invariant

  predicate Good(disk: Disk, nextId: int, lba: int, arc: Arc<Block>) {
    lba in disk && arc.value == disk[lba] && arc.id < nextId
  }

  predicate SlotsGood(disk: Disk, nextId: int, s: Slots<int, Block>) {
    forall i | 0 <= i < |s| :: Good(disk, nextId, s[i].key, s[i].arc)
  }

  /** No Arc is in the cache twice. */
  predicate ArcsDiffer(s: Slots<int, Block>) {
    forall i, j | 0 <= i < j < |s| :: s[i].arc.id != s[j].arc.id
  }

  predicate Inside(s: Slots<int, Block>, id: int) {
    exists i | 0 <= i < |s| :: s[i].arc.id == id
  }

  predicate ThreadsGood(disk: Disk, nextId: int, threads: map<int, Phase>) {
    forall t | t in threads && !threads[t].Missed? :: Good(disk, nextId, threads[t].lba, threads[t].arc)
  }

  /** An Arc on its way into the cache belongs to one thread and is not there yet. */
  predicate OnTheWay(s: Slots<int, Block>, threads: map<int, Phase>) {
    && (forall t | t in threads && threads[t].Fetched? :: !Inside(s, threads[t].arc.id))
    && (forall t, u | t in threads && u in threads && t != u && threads[t].Fetched? && threads[u].Fetched? ::
          threads[t].arc.id != threads[u].arc.id)
  }

  predicate Inv(disk: Disk, v: Volume) {
    && SlotsGood(disk, v.nextId, v.slots) && ArcsDiffer(v.slots)
    && ThreadsGood(disk, v.nextId, v.threads) && OnTheWay(v.slots, v.threads)
  }

  lemma LookupInv(disk: Disk, v: Volume, t: int, lba: int)
    requires Inv(disk, v) && t !in v.threads
    ensures Inv(disk, Next(disk, v, Lookup(t, lba)))
  {
    var p := Position(v.slots, lba);
    if p < |v.slots| {
      var r := ToFront(v.slots, p);
      FrontGood(disk, v.nextId, v.slots, p);
      forall id ensures Inside(r, id) ==> Inside(v.slots, id) {
        InsideFront(v.slots, p, id);
      }
      hide ToFront, Inside, ArcsDiffer;
    }
  }

  lemma FrontGood(disk: Disk, nextId: int, s: Slots<int, Block>, p: nat)
    requires p < |s| && SlotsGood(disk, nextId, s) && ArcsDiffer(s)
    ensures SlotsGood(disk, nextId, ToFront(s, p)) && ArcsDiffer(ToFront(s, p))
  {
    hide Good;
    var r := ToFront(s, p);
    forall i | 0 <= i < |r| ensures r[i] == s[Origin(p, i)] {}
  }

  /** Where the entry at place i of the reordered slots was before. */
  function Origin(p: nat, i: nat): nat {
    if i == 0 then p else if i <= p then i - 1 else i
  }

  lemma InsideFront(s: Slots<int, Block>, p: nat, id: int)
    requires p < |s|
    ensures Inside(ToFront(s, p), id) ==> Inside(s, id)
  {
    var r := ToFront(s, p);
    if Inside(r, id) {
      var i :| 0 <= i < |r| && r[i].arc.id == id;
      assert s[Origin(p, i)].arc.id == id;
    }
  }

  lemma FetchInv(disk: Disk, v: Volume, t: int)
    requires Inv(disk, v) && t in v.threads && v.threads[t].Missed?
    ensures Inv(disk, Next(disk, v, Fetch(t)))
  {
  }

  lemma StoreInv(disk: Disk, v: Volume, t: int)
    requires Inv(disk, v) && t in v.threads && v.threads[t].Fetched?
    ensures Inv(disk, Next(disk, v, Store(t)))
  {
    var phase := v.threads[t];
    var needed := Needed(|v.slots|, CACHE_CAPACITY);
    var left := Evict(v.slots, needed, Held(v));
    EvictGood(disk, v.nextId, v.slots, needed, Held(v));
    hide Evict, Held;
    var r := [Entry(phase.lba, phase.arc)] + left;
    forall id ensures Inside(r, id) ==> id == phase.arc.id || Inside(v.slots, id) {
      if Inside(r, id) && id != phase.arc.id {
        var i :| 0 <= i < |r| && r[i].arc.id == id;
        assert left[i - 1].arc.id == id;
        assert Inside(left, id);
      }
    }
    assert !Inside(left, phase.arc.id);
    forall i, j | 0 <= i < j < |r| ensures r[i].arc.id != r[j].arc.id {
      assert r[j] == left[j - 1];
      assert i > 0 ==> r[i] == left[i - 1];
    }
  }

  lemma {:induction false} EvictGood(disk: Disk, nextId: int, s: Slots<int, Block>, needed: nat, held: set<int>)
    requires SlotsGood(disk, nextId, s) && ArcsDiffer(s)
    ensures var r := Evict(s, needed, held);
            SlotsGood(disk, nextId, r) && ArcsDiffer(r) && forall id :: Inside(r, id) ==> Inside(s, id)
    decreases |s|
  {
    hide Good;
    if s != [] && needed > 0 {
      var front, last := s[..|s| - 1], s[|s| - 1];
      EvictGood(disk, nextId, front, if Pinned(last, held) then needed else needed - 1, held);
      assert forall id :: Inside(front, id) ==> Inside(s, id);
      assert !Inside(front, last.arc.id);
    }
  }

  lemma NextInv(disk: Disk, v: Volume, s: Step)
    requires Inv(disk, v) && Enabled(v, s)
    ensures Inv(disk, Next(disk, v, s))
  {
    match s
    case Lookup(t, lba) => LookupInv(disk, v, t, lba);
    case Fetch(t) => FetchInv(disk, v, t);
    case Store(t) => StoreInv(disk, v, t);
    case Retain(_) | Leave(_) | Release(_) =>
  }

  // ---------------------------------------------------------------- whole runs

  predicate Run(disk: Disk, v: Volume, steps: seq<Step>)
    requires Inv(disk, v)
    decreases |steps|
  {
    steps == [] ||
    (Enabled(v, steps[0]) && (NextInv(disk, v, steps[0]); Run(disk, Next(disk, v, steps[0]), steps[1..])))
  }

  function After(disk: Disk, v: Volume, steps: seq<Step>): (r: Volume)
    requires Inv(disk, v) && Run(disk, v, steps)
    ensures Inv(disk, r)
    decreases |steps|
  {
    if steps == [] then v else NextInv(disk, v, steps[0]); After(disk, Next(disk, v, steps[0]), steps[1..])
  }

  const EMPTY: Volume := Volume([], map[], multiset{}, 0)

  /** However threads interleave, get_block returns what the disk holds at the address asked for. */
  lemma GetBlockAgrees(disk: Disk, steps: seq<Step>, t: int)
    requires Run(disk, EMPTY, steps)
    requires t in After(disk, EMPTY, steps).threads && After(disk, EMPTY, steps).threads[t].Got?
    ensures var p := After(disk, EMPTY, steps).threads[t]; p.lba in disk && p.arc.value == disk[p.lba]
  {
  }

  // ---------------------------------------------------------------- one call among others

  /** The steps neither begin a call of t nor take the block it returned. */
  predicate SameCall(steps: seq<Step>, t: int) {
    forall i | 0 <= i < |steps| ::
      !(steps[i].Lookup? && steps[i].tid == t) && steps[i] != Retain(t) && steps[i] != Leave(t)
  }

  lemma FirstAndRest(steps: seq<Step>, t: int)
    requires steps != [] && SameCall(steps, t)
    ensures SameCall([steps[0]], t) && SameCall(steps[1..], t)
    ensures forall s :: s in steps <==> s == steps[0] || s in steps[1..]
  {
  }

  /** What a single step means for the call of t. */
  lemma StepOfCall(disk: Disk, v: Volume, s: Step, t: int)
    requires Enabled(v, s) && SameCall([s], t)
    ensures var r := Next(disk, v, s).threads;
            if t !in v.threads then t !in r && s != Fetch(t) && s != Store(t)
            else
              && var p := v.threads[t];
              && (s == Fetch(t) ==> p.Missed? && (t in r <==> p.lba in disk)) && (s == Store(t) ==> !p.Missed?)
              && (s != Fetch(t) ==> t in r && r[t].Missed? == p.Missed?)
              && (t in r ==> r[t].lba == p.lba && (s == Fetch(t) ==> !r[t].Missed?) && (r[t].Got? <==> p.Got? || s == Store(t)))
  {
    hide ToFront, Insert, Held, Position;
    assert [s][0] == s;
  }

  lemma {:induction false} CallIsOver(disk: Disk, v: Volume, steps: seq<Step>, t: int)
    requires Inv(disk, v) && Run(disk, v, steps) && SameCall(steps, t) && t !in v.threads
    ensures t !in After(disk, v, steps).threads && Fetch(t) !in steps && Store(t) !in steps
    decreases |steps|
  {
    if steps != [] {
      hide Inv, Next, Enabled, SameCall;
      FirstAndRest(steps, t);
      NextInv(disk, v, steps[0]);
      StepOfCall(disk, v, steps[0], t);
      CallIsOver(disk, Next(disk, v, steps[0]), steps[1..], t);
    }
  }

  /** From any point of a call on, whatever the other threads do. */
  lemma {:induction false} CallGoesOn(disk: Disk, v: Volume, steps: seq<Step>, t: int)
    requires Inv(disk, v) && Run(disk, v, steps) && SameCall(steps, t) && t in v.threads
    ensures var p, r := v.threads[t], After(disk, v, steps).threads;
            && (t !in r <==> p.Missed? && p.lba !in disk && Fetch(t) in steps)
            && (t in r ==> r[t].lba == p.lba)
            && (t in r && r[t].Got? <==> p.Got? || Store(t) in steps)
    decreases |steps|
  {
    if steps != [] {
      hide Inv, Next, Enabled, SameCall;
      FirstAndRest(steps, t);
      var s, w := steps[0], Next(disk, v, steps[0]);
      NextInv(disk, v, s);
      StepOfCall(disk, v, s, t);
      if t in w.threads {
        CallGoesOn(disk, w, steps[1..], t);
      } else {
        CallIsOver(disk, w, steps[1..], t);
      }
    }
  }

  /** A whole call of get_block, in every interleaving: it fails exactly when its own disk read has
      come and the disk has no such block, and otherwise ends, at a hit or after its store, with what
      the disk holds. */
  lemma CallOutcome(disk: Disk, v: Volume, t: int, lba: int, rest: seq<Step>)
    requires Inv(disk, v) && Run(disk, v, [Lookup(t, lba)] + rest) && SameCall(rest, t)
    ensures var r := After(disk, v, [Lookup(t, lba)] + rest).threads;
            && (t !in r <==> lba !in disk && Fetch(t) in rest)
            && (t in r && r[t].Got? <==> Position(v.slots, lba) < |v.slots| || Store(t) in rest)
            && (t in r && r[t].Got? ==> lba in disk && r[t].lba == lba && r[t].arc.value == disk[lba])
  {
    var steps := [Lookup(t, lba)] + rest;
    assert steps[1..] == rest;
    var w := Next(disk, v, steps[0]);
    NextInv(disk, v, steps[0]);
    CallGoesOn(disk, w, rest, t);
    var r := After(disk, w, rest);
    assert After(disk, v, steps) == r;
    assert ThreadsGood(disk, r.nextId, r.threads);
    hide ToFront;
    var p := Position(v.slots, lba);
    if p < |v.slots| {
      assert Good(disk, v.nextId, v.slots[p].key, v.slots[p].arc);
    }
  }

  /** An entry that somebody holds stays in the cache through every step. */
  lemma HeldStays(disk: Disk, v: Volume, s: Step, e: Entry<int, Block>)
    requires Inv(disk, v) && Enabled(v, s) && e in v.slots && e.arc.id in Held(v)
    ensures e in Next(disk, v, s).slots
  {
    if s.Store? {
      EvictCounts(v.slots, Needed(|v.slots|, CACHE_CAPACITY), Held(v));
      hide Held;
      assert Pinned(e, Held(v));
    } else if s.Lookup? {
      var p := Position(v.slots, s.lba);
      if p < |v.slots| {
        assert e in multiset(ToFront(v.slots, p));
      }
    }
  }

  /** After a store the cache is within its capacity, or every other entry is held. */
  lemma StoreBound(disk: Disk, v: Volume, t: int)
    requires Inv(disk, v) && t in v.threads && v.threads[t].Fetched?
    ensures var r := Next(disk, v, Store(t)).slots;
            |r| <= CACHE_CAPACITY || forall i | 1 <= i < |r| :: r[i].arc.id in Held(v)
  {
    var e := Entry(v.threads[t].lba, v.threads[t].arc);
    InsertBound(v.slots, CACHE_CAPACITY, Held(v), e);
    var r := Insert(v.slots, CACHE_CAPACITY, Held(v), e);
    hide Insert, Held;
    assert |r| > CACHE_CAPACITY ==> forall i | 1 <= i < |r| :: Pinned(r[i], Held(v));
  }

  /** A caller that keeps its block takes over the hold of its call; each hold kept is given up by one
      release. */
  lemma HoldsMove(disk: Disk, v: Volume, s: Step)
    requires Enabled(v, s)
    ensures var n := Next(disk, v, s);
            && (s.Retain? ==> Held(n) == Held(v) && n.kept == v.kept + multiset{v.threads[s.tid].arc.id} && s.tid !in n.threads)
            && (s.Leave? ==> n.kept == v.kept && s.tid !in n.threads)
            && (s.Release? ==> v.kept == n.kept + multiset{s.id} && n.threads == v.threads)
            && (s.Retain? || s.Leave? || s.Release? ==> n.slots == v.slots && Held(n) <= Held(v))
  {
    var n := Next(disk, v, s);
    if s.Retain? {
      forall id | id in Held(v) ensures id in Held(n) {
        if id !in n.kept {
          var t :| t in v.threads && !v.threads[t].Missed? && v.threads[t].arc.id == id;
          assert t in n.threads && n.threads[t] == v.threads[t];
        }
      }
    }
  }

  /** Two threads that missed the same address leave two entries for it, one behind the other. */
  lemma DuplicateHappens(disk: Disk, v: Volume, t: int, u: int)
    requires Inv(disk, v) && t in v.threads && u in v.threads && t != u
    requires v.threads[t].Fetched? && v.threads[u].Fetched? && v.threads[t].lba == v.threads[u].lba
    ensures var w := Next(disk, v, Store(t));
            var r := Next(disk, w, Store(u)).slots;
            |r| >= 2 && r[0] == Entry(v.threads[u].lba, v.threads[u].arc)
            && r[1] == Entry(v.threads[t].lba, v.threads[t].arc)
  {
    var w := Next(disk, v, Store(t));
    var e := w.slots[0];
    assert w.threads[t].arc == e.arc && e.arc.id in Held(w);
    hide Held;
    var needed := Needed(|w.slots|, CACHE_CAPACITY);
    EvictIsKeep(w.slots, needed, Held(w));
    assert Pinned(e, Held(w));
    hide Evict;
    assert Keep(w.slots, needed, Held(w))[0] == e;
  }

  /** Such threads come about: from the empty cache, two misses of one address before either is stored. */
  lemma DoubleMissHappens(disk: Disk, lba: int)
    requires lba in disk
    ensures Run(disk, EMPTY, [Lookup(1, lba), Lookup(2, lba), Fetch(1), Fetch(2)])
    ensures var v := After(disk, EMPTY, [Lookup(1, lba), Lookup(2, lba), Fetch(1), Fetch(2)]).threads;
            v == map[1 := Fetched(lba, Arc(0, disk[lba])), 2 := Fetched(lba, Arc(1, disk[lba]))]
  {
    EmptyInv(disk);
    hide Inv;
    var s1, s2, s3, s4 := Lookup(1, lba), Lookup(2, lba), Fetch(1), Fetch(2);
    var v1 := Volume([], map[1 := Missed(lba)], multiset{}, 0);
    var v2 := Volume([], map[1 := Missed(lba), 2 := Missed(lba)], multiset{}, 0);
    var v3 := Volume([], map[1 := Fetched(lba, Arc(0, disk[lba])), 2 := Missed(lba)], multiset{}, 1);
    var v4 := Volume([], map[1 := Fetched(lba, Arc(0, disk[lba])), 2 := Fetched(lba, Arc(1, disk[lba]))], multiset{}, 2);
    NextInv(disk, EMPTY, s1);
    assert Next(disk, EMPTY, s1) == v1;
    NextInv(disk, v1, s2);
    assert Next(disk, v1, s2) == v2;
    NextInv(disk, v2, s3);
    assert Next(disk, v2, s3) == v3;
    NextInv(disk, v3, s4);
    assert Next(disk, v3, s4) == v4;
    RunOne(disk, v3, s4, v4, []);
    RunOne(disk, v2, s3, v3, [s4]);
    RunOne(disk, v1, s2, v2, [s3, s4]);
    RunOne(disk, EMPTY, s1, v1, [s2, s3, s4]);
    assert [s1] + [s2, s3, s4] == [s1, s2, s3, s4] && [s2] + [s3, s4] == [s2, s3, s4] && [s3] + [s4] == [s3, s4] && [s4] + [] == [s4];
  }

  lemma EmptyInv(disk: Disk)
    ensures Inv(disk, EMPTY)
  {
  }

  lemma RunOne(disk: Disk, v: Volume, s: Step, w: Volume, rest: seq<Step>)
    requires Inv(disk, v) && Enabled(v, s) && Next(disk, v, s) == w && Inv(disk, w) && Run(disk, w, rest)
    ensures Run(disk, v, [s] + rest) && After(disk, v, [s] + rest) == After(disk, w, rest)
  {
    hide Inv, Next, Enabled;
    assert ([s] + rest)[1..] == rest;
  }

  // ---------------------------------------------------------------- the code

  class CachedVolume {
    const disk: Disk
    const cache: Cache<int, Block>
    var nextId: int

    ghost predicate Valid()
      reads this, cache
    {
      cache.capacity == CACHE_CAPACITY && SlotsGood(disk, nextId, cache.slots) && ArcsDiffer(cache.slots)
    }

    constructor (disk: Disk)
      ensures Valid() && this.disk == disk && fresh(cache) && cache.slots == []
    {
      this.disk := disk;
      cache := new Cache(CACHE_CAPACITY);
      nextId := 0;
    }

    /** A new Arc with what the inner volume holds. */
    method InnerGetBlock(lba: int) returns (r: Option<Arc<Block>>)
      modifies this
      ensures if lba in disk then r == Some(Arc(old(nextId), disk[lba])) && nextId == old(nextId) + 1
              else r == None && nextId == old(nextId)
    {
      if lba !in disk {
        return None;
      }
      r := Some(Arc(nextId, disk[lba]));
      nextId := nextId + 1;
    }

    /** One call of get_block with no other thread in between. */
    method GetBlock(lba: int, held: set<int>) returns (r: Option<Arc<Block>>)
      requires Valid()
      modifies this, cache
      ensures Valid()
      ensures r.Some? <==> lba in disk
      ensures r.Some? ==> r.value.value == disk[lba] && |cache.slots| > 0 && Entry(lba, r.value) == cache.slots[0]
      ensures var p := Position(old(cache.slots), lba);
              cache.slots == if p < |old(cache.slots)| then ToFront(old(cache.slots), p)
                             else if r.None? then old(cache.slots)
                             else Insert(old(cache.slots), CACHE_CAPACITY, held, Entry(lba, r.value))
    {
      hide Evict;
      ghost var before := cache.slots;
      var hit := cache.Get(lba);
      if hit.Some? {
        FrontGood(disk, nextId, before, Position(before, lba));
        return hit;
      }
      r := InnerGetBlock(lba);
      if r.Some? {
        FreshEntry(disk, nextId, before, held, lba, r.value);
        cache.InsertEntry(lba, r.value, held);
      }
    }
  }

  lemma FreshEntry(disk: Disk, nextId: int, s: Slots<int, Block>, held: set<int>, lba: int, arc: Arc<Block>)
    requires SlotsGood(disk, nextId - 1, s) && ArcsDiffer(s)
    requires lba in disk && arc == Arc(nextId - 1, disk[lba])
    ensures var r := Insert(s, CACHE_CAPACITY, held, Entry(lba, arc)); SlotsGood(disk, nextId, r) && ArcsDiffer(r)
  {
    EvictGood(disk, nextId - 1, s, Needed(|s|, CACHE_CAPACITY), held);
  }
}
