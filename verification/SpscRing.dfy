/**
 The single-producer single-consumer byte ring. First the ring as an object whose operations run
 one at a time; then its producer and its consumer as two processes whose loads, byte copies and
 stores interleave in any order. Both keep the ring a bounded first-in first-out queue.
 */
module SpscRing {

  import opened Arithmetic
  import opened Common

  // ---------------------------------------------------------------- positions

  /** Free places as the producer computes them from two positions in the buffer. */
  function Available(n: int, head: int, tail: int): int
    requires 0 < n
  {
    (tail + n - head - 1) % n
  }

  /** The positions stand for running counts h and t of bytes put in and taken out. */
  lemma AvailableIsFree(n: int, h: int, t: int)
    requires 0 < n && t <= h <= t + n - 1
    ensures Available(n, h % n, t % n) == n - 1 - (h - t)
  {
    var qh, qt := h / n, t / n;
    Distribute(n, qh - qt, qt);
    QuotientRemainder(t % n + n - h % n - 1, n, qh - qt, n - 1 - (h - t));
  }

  lemma EmptyIff(n: int, h: int, t: int)
    requires 0 < n && t <= h <= t + n - 1
    ensures h % n == t % n <==> h == t
  {
    if h != t { DistinctRemainders(t, h, n); }
  }

  /** Bytes of `all` from count t up to count h stand in the buffer, each in its place. */
  predicate Holds(buf: seq<byte>, all: seq<byte>, t: int, h: int)
    requires |buf| > 0 && 0 <= t && h <= |all|
  {
    forall i | t <= i < h :: buf[Place(i, |buf|)] == all[i]
  }

  function Place(i: int, n: int): (r: int)
    requires 0 < n
    ensures 0 <= r < n
  {
    i % n
  }

  /** Writing the place of count k disturbs no count less than a whole round before it. */
  lemma WriteKeeps(buf: seq<byte>, all: seq<byte>, t: int, h: int, k: int, b: byte)
    requires |buf| > 0 && 0 <= t && h <= |all| && h <= k < t + |buf|
    requires Holds(buf, all, t, h)
    ensures Holds(buf[Place(k, |buf|) := b], all, t, h)
  {
    forall i | t <= i < h ensures buf[Place(k, |buf|) := b][Place(i, |buf|)] == all[i] {
      DistinctRemainders(i, k, |buf|);
    }
  }

  // ---------------------------------------------------------------- one operation at a time

  /** x % n for a sum of two positions. */
  function Wrap(x: int, n: int): int { if x < n then x else x - n }

  lemma WrapIsRemainder(x: int, n: int)
    requires 0 <= x < 2 * n
    ensures x % n == Wrap(x, n)
  {
    QuotientRemainder(x, n, if x < n then 0 else 1, Wrap(x, n));
  }

  function Count(n: int, head: int, tail: int): int {
    if tail <= head then head - tail else head - tail + n
  }

  /** The bytes from tail up to head, around the end of the buffer. */
  function Content(b: seq<byte>, head: nat, tail: nat): (r: seq<byte>)
    requires head < |b| && tail < |b|
    ensures |r| == Count(|b|, head, tail) && forall i | 0 <= i < |r| :: r[i] == b[Wrap(tail + i, |b|)]
  {
    seq(Count(|b|, head, tail), i requires 0 <= i < Count(|b|, head, tail) => b[Wrap(tail + i, |b|)])
  }

  /** The buffer after d is copied in at head, around the end. */
  function Written(b: seq<byte>, head: nat, d: seq<byte>): (r: seq<byte>)
    requires head < |b| && |d| <= |b|
    ensures |r| == |b| && forall x | 0 <= x < |b| ::
              r[x] == var j := Count(|b|, x, head); if j < |d| then d[j] else b[x]
  {
    seq(|b|, x requires 0 <= x < |b| => if Count(|b|, x, head) < |d| then d[Count(|b|, x, head)] else b[x])
  }

  lemma WrittenContent(b: seq<byte>, head: nat, tail: nat, d: seq<byte>)
    requires head < |b| && tail < |b| && |d| <= |b| - 1 - |Content(b, head, tail)|
    ensures Content(Written(b, head, d), Wrap(head + |d|, |b|), tail) == Content(b, head, tail) + d
  {
    var after := Content(Written(b, head, d), Wrap(head + |d|, |b|), tail);
    assert |after| == |Content(b, head, tail) + d|;
    forall i | 0 <= i < |after| ensures after[i] == (Content(b, head, tail) + d)[i] {
    }
  }

  lemma ContentFront(b: seq<byte>, head: nat, tail: nat)
    requires head < |b| && tail < |b| && head != tail
    ensures Content(b, head, tail) == [b[tail]] + Content(b, head, Wrap(tail + 1, |b|))
  {
    var rest := Content(b, head, Wrap(tail + 1, |b|));
    assert |Content(b, head, tail)| == 1 + |rest|;
    forall i | 0 <= i < 1 + |rest| ensures Content(b, head, tail)[i] == ([b[tail]] + rest)[i] {
    }
  }

  class ByteRing {
    const buf: array<byte>
    var head: nat
    var tail: nat

    ghost predicate Valid()
      reads this
    {
      head < buf.Length && tail < buf.Length
    }

    ghost function Contents(): seq<byte>
      requires Valid()
      reads this, buf
    {
      Content(buf[..], head, tail)
    }

    constructor (n: nat)
      requires n > 0
      ensures Valid() && fresh(buf) && buf.Length == n && Contents() == []
    {
      buf := new byte[n](_ => 0);
      head, tail := 0, 0;
    }

    method IsEmpty() returns (r: bool)
      requires Valid()
      ensures r <==> Contents() == []
    {
      r := head == tail;
    }

    method PushSlice(data: seq<byte>) returns (pushed: nat)
      requires Valid()
      modifies this`head, buf
      ensures Valid()
      ensures pushed == Min(|data|, buf.Length - 1 - |old(Contents())|)
      ensures Contents() == old(Contents()) + data[..pushed]
    {
      var n := buf.Length;
      WrapIsRemainder(tail + n - head - 1, n);
      var available := (tail + n - head - 1) % n;
      if available == 0 {
        return 0;
      }
      pushed := Min(|data|, available);
      WrittenContent(buf[..], head, tail, data[..pushed]);
      CopyAround(data[..pushed]);
      WrapIsRemainder(head + pushed, n);
      head := (head + pushed) % n;
    }

    /** The copy of push_slice: in one piece, or up to the end and then from the start. */
    method CopyAround(d: seq<byte>)
      requires Valid() && |d| < buf.Length
      modifies buf
      ensures buf[..] == Written(old(buf[..]), head, d)
    {
      var contiguous := buf.Length - head;
      if |d| <= contiguous {
        forall j | 0 <= j < |d| { buf[head + j] := d[j]; }
      } else {
        forall j | 0 <= j < contiguous { buf[head + j] := d[j]; }
        forall j | 0 <= j < |d| - contiguous { buf[j] := d[contiguous + j]; }
      }
    }

    method Pop() returns (r: Option<byte>)
      requires Valid()
      modifies this`tail
      ensures Valid()
      ensures match r
              case None => old(Contents()) == [] && Contents() == []
              case Some(b) => old(Contents()) == [b] + Contents()
    {
      if head == tail {
        return None;
      }
      ContentFront(buf[..], head, tail);
      WrapIsRemainder(tail + 1, buf.Length);
      r := Some(buf[tail]);
      tail := (tail + 1) % buf.Length;
    }
  }

  // ---------------------------------------------------------------- two processes

  /** What the producer is doing: `seen` is how many bytes had been taken out when it loaded tail. */
  datatype Producer =
    | Idle
    | Loaded(data: seq<byte>, tail: int, seen: int)
    | Copying(data: seq<byte>, count: int, done: int, seen: int)

  /** What the consumer is doing: `seen` is how many bytes had been put in when it loaded head. */
  datatype Consumer =
    | Ready
    | Checked(head: int, seen: int)
    | Fetched(b: byte)

  /** The shared words, both processes, and all bytes put in and taken out so far. */
  datatype Ring = Ring(buf: seq<byte>, head: int, tail: int, prod: Producer, cons: Consumer,
                       accepted: seq<byte>, popped: seq<byte>)

  datatype Step = Load(data: seq<byte>) | Measure | CopyByte | PublishHead
                | LoadHead | Fetch | PublishTail

  predicate Enabled(s: Ring, step: Step) {
    match step
    case Load(_) => s.prod.Idle?
    case Measure => s.prod.Loaded?
    case CopyByte => s.prod.Copying? && s.prod.done < s.prod.count
    case PublishHead => s.prod.Copying? && s.prod.done == s.prod.count
    case LoadHead => s.cons.Ready?
    case Fetch => s.cons.Checked?
    case PublishTail => s.cons.Fetched?
  }

  /** One atomic action of either process. */
  function Next(s: Ring, step: Step): Ring
    requires Inv(s) && Enabled(s, step)
  {
    var n := |s.buf|;
    match step
    case Load(data) => s.(prod := Loaded(data, s.tail, |s.popped|))
    case Measure =>
      var available := Available(n, s.head, s.prod.tail);
      if available == 0 then s.(prod := Idle)
      else s.(prod := Copying(s.prod.data, Min(|s.prod.data|, available), 0, s.prod.seen))
    case CopyByte =>
      s.(buf := s.buf[(s.head + s.prod.done) % n := s.prod.data[s.prod.done]],
         prod := s.prod.(done := s.prod.done + 1))
    case PublishHead =>
      s.(head := (s.head + s.prod.count) % n, prod := Idle,
         accepted := s.accepted + s.prod.data[..s.prod.count])
    case LoadHead =>
      if s.head == s.tail then s else s.(cons := Checked(s.head, |s.accepted|))
    case Fetch => s.(cons := Fetched(s.buf[s.tail]))
    case PublishTail =>
      s.(tail := (s.tail + 1) % n, cons := Ready, popped := s.popped + [s.cons.b])
  }

  predicate Inv(s: Ring) {
    && |s.buf| > 0
    && s.popped <= s.accepted && |s.accepted| <= |s.popped| + |s.buf| - 1
    && s.head == Place(|s.accepted|, |s.buf|) && s.tail == Place(|s.popped|, |s.buf|)
    && Holds(s.buf, s.accepted, |s.popped|, |s.accepted|)
    && ProducerInv(s.buf, s.prod, |s.accepted|, |s.popped|)
    && ConsumerInv(s.cons, s.accepted, |s.popped|)
  }

  predicate ProducerInv(buf: seq<byte>, p: Producer, h: int, t: int)
    requires |buf| > 0 && 0 <= h
  {
    match p
    case Idle => true
    case Loaded(_, tail, seen) => 0 <= seen <= t && h <= seen + |buf| - 1 && tail == Place(seen, |buf|)
    case Copying(data, count, done, seen) =>
      && 0 <= done <= count <= |data| && h + count <= t + |buf| - 1
      && forall i | 0 <= i < done :: buf[Place(h + i, |buf|)] == data[i]
  }

  predicate ConsumerInv(c: Consumer, accepted: seq<byte>, t: int)
    requires 0 <= t
  {
    match c
    case Ready => true
    case Checked(_, seen) => t < seen <= |accepted|
    case Fetched(b) => t < |accepted| && b == accepted[t]
  }

  function Init(n: nat): (s: Ring)
    requires n > 0
    ensures Inv(s)
  {
    QuotientRemainder(0, n, 0, 0);
    Ring(seq(n, i => 0), 0, 0, Idle, Ready, [], [])
  }

  lemma MeasureInv(s: Ring)
    requires Inv(s) && s.prod.Loaded?
    ensures Inv(Next(s, Measure))
  {
    AvailableIsFree(|s.buf|, |s.accepted|, s.prod.seen);
    hide Available, Holds, ConsumerInv;
  }

  lemma CopyByteInv(s: Ring)
    requires Inv(s) && s.prod.Copying? && s.prod.done < s.prod.count
    ensures Inv(Next(s, CopyByte))
  {
    hide Holds, ConsumerInv;
    var n, h, k := |s.buf|, |s.accepted|, s.prod.done;
    StepForward(h, k, n);
    WriteKeeps(s.buf, s.accepted, |s.popped|, h, h + k, s.prod.data[k]);
    CopiedSoFar(s.buf, s.prod.data, h, k);
  }

  /** One byte more of the data is in place. */
  lemma CopiedSoFar(buf: seq<byte>, data: seq<byte>, h: nat, k: nat)
    requires k < |data| && k < |buf| && forall i | 0 <= i < k :: buf[Place(h + i, |buf|)] == data[i]
    ensures forall i | 0 <= i < k + 1 :: buf[Place(h + k, |buf|) := data[k]][Place(h + i, |buf|)] == data[i]
  {
    hide Place;
    forall i | 0 <= i < k + 1 ensures buf[Place(h + k, |buf|) := data[k]][Place(h + i, |buf|)] == data[i] {
      if i < k { PlacesDiffer(h + i, h + k, |buf|); }
    }
  }

  lemma PlacesDiffer(i: nat, j: nat, n: nat)
    requires i < j < i + n
    ensures Place(i, n) != Place(j, n)
  {
    DistinctRemainders(i, j, n);
  }

  lemma PublishHeadInv(s: Ring)
    requires Inv(s) && s.prod.Copying? && s.prod.done == s.prod.count
    ensures Inv(Next(s, PublishHead))
  {
    var n, h, c := |s.buf|, |s.accepted|, s.prod.count;
    StepForward(h, c, n);
    var all := s.accepted + s.prod.data[..c];
    forall i | |s.popped| <= i < h + c ensures s.buf[Place(i, n)] == all[i] {
      if h <= i {
        assert s.buf[Place(h + (i - h), n)] == s.prod.data[i - h];
      }
    }
  }

  lemma FetchInv(s: Ring)
    requires Inv(s) && s.cons.Checked?
    ensures Inv(Next(s, Fetch))
  {
    assert s.buf[Place(|s.popped|, |s.buf|)] == s.accepted[|s.popped|];
    hide Holds, ProducerInv, Place;
  }

  lemma PublishTailInv(s: Ring)
    requires Inv(s) && s.cons.Fetched?
    ensures Inv(Next(s, PublishTail))
  {
    StepForward(|s.popped|, 1, |s.buf|);
    hide Place;
    assert s.accepted[..|s.popped| + 1] == s.popped + [s.cons.b];
  }

  lemma NextInv(s: Ring, step: Step)
    requires Inv(s) && Enabled(s, step)
    ensures Inv(Next(s, step))
  {
    match step
    case Load(_) =>
    case Measure => MeasureInv(s);
    case CopyByte => CopyByteInv(s);
    case PublishHead => PublishHeadInv(s);
    case LoadHead => EmptyIff(|s.buf|, |s.accepted|, |s.popped|);
    case Fetch => FetchInv(s);
    case PublishTail => PublishTailInv(s);
  }

  predicate Run(s: Ring, steps: seq<Step>)
    requires Inv(s)
    decreases |steps|
  {
    steps == [] || (Enabled(s, steps[0]) && (NextInv(s, steps[0]); Run(Next(s, steps[0]), steps[1..])))
  }

  /** The ring after a run: however the two processes interleave, the invariant holds. */
  function After(s: Ring, steps: seq<Step>): (r: Ring)
    requires Inv(s) && Run(s, steps)
    ensures Inv(r)
    decreases |steps|
  {
    if steps == [] then s else NextInv(s, steps[0]); After(Next(s, steps[0]), steps[1..])
  }

  /** In every interleaving the bytes taken out are a prefix of the bytes put in, at most one
      less than the size of the buffer behind. */
  lemma PoppedIsPrefix(n: nat, steps: seq<Step>)
    requires n > 0 && Run(Init(n), steps)
    ensures var r := After(Init(n), steps);
            r.popped <= r.accepted && |r.accepted| - |r.popped| <= n - 1
  {
    SizeKept(Init(n), steps);
  }

  lemma {:induction false} SizeKept(s: Ring, steps: seq<Step>)
    requires Inv(s) && Run(s, steps)
    ensures |After(s, steps).buf| == |s.buf|
    decreases |steps|
  {
    if steps != [] {
      NextInv(s, steps[0]);
      SizeKept(Next(s, steps[0]), steps[1..]);
    }
  }

  // ---------------------------------------------------------------- the queue it refines

  /** What has been put in and not yet taken out. */
  function Queue(s: Ring): seq<byte>
    requires Inv(s)
  {
    s.accepted[|s.popped|..]
  }

  /** Every action is nothing, one enqueue of what fits, or one dequeue of the front byte. */
  lemma StepRefinesQueue(s: Ring, step: Step)
    requires Inv(s) && Enabled(s, step)
    ensures Inv(Next(s, step))
    ensures match step
            case PublishHead =>
              var data := s.prod.data[..s.prod.count];
              Queue(Next(s, step)) == Queue(s) + data && |Queue(s) + data| <= |s.buf| - 1
            case PublishTail => Queue(s) == [s.cons.b] + Queue(Next(s, step))
            case _ => Queue(Next(s, step)) == Queue(s)
  {
    NextInv(s, step);
    hide Holds, Place;
    match step
    case PublishHead =>
    case PublishTail => assert s.accepted[|s.popped|..] == [s.accepted[|s.popped|]] + s.accepted[|s.popped| + 1..];
    case Load(_) | Measure | CopyByte | LoadHead | Fetch =>
  }

  /** A push is refused exactly when the ring was full at the load of tail; otherwise it takes
      all the data, or as much as was free then. */
  lemma PushTakes(s: Ring)
    requires Inv(s) && s.prod.Loaded?
    ensures var free := |s.buf| - 1 - (|s.accepted| - s.prod.seen);
            match Next(s, Measure).prod
            case Copying(data, count, done, _) =>
              free > 0 && data == s.prod.data && count == Min(|data|, free) && done == 0
            case Idle => free == 0
            case Loaded(_, _, _) => false
  {
    AvailableIsFree(|s.buf|, |s.accepted|, s.prod.seen);
    hide Available, Holds, ConsumerInv;
  }

  /** A pop finds nothing exactly when the queue is empty at the load of head. */
  lemma PopFinds(s: Ring)
    requires Inv(s) && s.cons.Ready?
    ensures Next(s, LoadHead).cons.Ready? <==> Queue(s) == []
  {
    EmptyIff(|s.buf|, |s.accepted|, |s.popped|);
    hide Holds, Place;
  }

  /** The two processes never touch the same place: no byte still to be copied goes where the
      consumer is about to read. */
  lemma NoSharedPlace(s: Ring, i: int)
    requires Inv(s) && s.prod.Copying? && s.cons.Checked? && 0 <= i < s.prod.count
    ensures (s.head + i) % |s.buf| != s.tail
  {
    var n, h, t := |s.buf|, |s.accepted|, |s.popped|;
    StepForward(h, i, n);
    DistinctRemainders(t, h + i, n);
  }
}
