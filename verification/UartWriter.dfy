/**
 The asynchronous console: threads send messages to the writer thread, which converts line ends
 and pushes the bytes into the transmit ring; transmit interrupts move them on to the UART.
 Interrupts are taken only while no kernel thread runs (between turns of the writer), so a turn
 of the writer, up to the point where it blocks, is one step, and an interrupt is another.
 */
module UartWriter {

  import opened Common
  import opened Sequences
  import opened SpscRing

  const LF: byte := 10
  const CR: byte := 13
  const TX_RING_SIZE := 1024
  const CAPACITY := TX_RING_SIZE - 1
  const TX_FIFO_SIZE := 16

  // ---------------------------------------------------------------- line ends

  function Expand(b: byte): seq<byte> { if b == LF then [CR, LF] else [b] }

  /** Each line feed with a carriage return before it. */
  function CrLf(s: seq<byte>): seq<byte> {
    if s == [] then [] else Expand(s[0]) + CrLf(s[1..])
  }

  lemma {:induction false} CrLfConcat(a: seq<byte>, b: seq<byte>)
    ensures CrLf(a + b) == CrLf(a) + CrLf(b)
  {
    if a == [] {
      assert a + b == b;
    } else {
      hide Expand;
      CrLfConcat(a[1..], b);
      assert (a + b)[1..] == a[1..] + b;
      Associative(Expand(a[0]), CrLf(a[1..]), CrLf(b));
    }
  }

  lemma {:induction false} CrLfPlain(s: seq<byte>)
    requires LF !in s
    ensures CrLf(s) == s
  {
    if s != [] {
      CrLfPlain(s[1..]);
      assert s == [s[0]] + s[1..];
    }
  }

  /** Every line feed sent has a carriage return right before it. */
  predicate LinesEnd(s: seq<byte>) { forall i | 0 <= i < |s| && s[i] == LF :: i > 0 && s[i - 1] == CR }

  /** Of a carriage return and a line feed, the line feed only. */
  function Joined(s: seq<byte>): seq<byte> {
    if s == [] then []
    else if |s| > 1 && s[0] == CR && s[1] == LF then [LF] + Joined(s[2..])
    else [s[0]] + Joined(s[1..])
  }

  /** What a terminal gets: every line end in full, and nothing else changed. */
  lemma {:induction false} CrLfMeans(s: seq<byte>)
    ensures LinesEnd(CrLf(s)) && Joined(CrLf(s)) == s
    ensures CrLf(s) != [] ==> CrLf(s)[0] != LF
  {
    if s != [] {
      CrLfMeans(s[1..]);
      var c, rest := CrLf(s), CrLf(s[1..]);
      assert c == Expand(s[0]) + rest && s == [s[0]] + s[1..];
      if s[0] == LF {
        assert c[2..] == rest;
        assert forall i | 2 <= i < |c| :: c[i] == rest[i - 2];
      } else {
        assert c[1..] == rest;
        assert forall i | 1 <= i < |c| :: c[i] == rest[i - 1];
      }
    }
  }

  /** Position of the first line feed, or the length. */
  function LineEnd(s: seq<byte>): (e: nat)
    ensures e <= |s| && LF !in s[..e] && (e < |s| ==> s[e] == LF)
  {
    if s == [] || s[0] == LF then 0
    else
      var e := LineEnd(s[1..]);
      assert s[..e + 1] == [s[0]] + s[1..][..e];
      e + 1
  }

  lemma FirstExpanded(s: seq<byte>)
    requires s != []
    ensures CrLf(s) == Expand(s[0]) + CrLf(s[1..])
  {
  }

  lemma PlainFront(s: seq<byte>, e: nat)
    requires e <= |s| && LF !in s[..e]
    ensures CrLf(s) == s[..e] + CrLf(s[e..])
  {
    hide CrLf;
    CrLfPlain(s[..e]);
    CrLfConcat(s[..e], s[e..]);
    assert s == s[..e] + s[e..];
  }

  lemma LineSplits(s: seq<byte>)
    ensures var e := LineEnd(s); CrLf(s) == s[..e] + CrLf(s[e..])
    ensures var e := LineEnd(s); e < |s| ==> CrLf(s[e..]) == [CR, LF] + CrLf(s[e + 1..])
  {
    hide LineEnd, CrLf;
    var e := LineEnd(s);
    PlainFront(s, e);
    if e < |s| {
      FirstExpanded(s[e..]);
      assert s[e..][1..] == s[e + 1..];
    }
  }

  function Flatten(m: seq<seq<byte>>): seq<byte> {
    if m == [] then [] else m[0] + Flatten(m[1..])
  }

  lemma {:induction false} FlattenAppend(m: seq<seq<byte>>, x: seq<byte>)
    ensures Flatten(m + [x]) == Flatten(m) + x
  {
    if m == [] {
      assert m + [x] == [x] && [x][1..] == [];
    } else {
      FlattenAppend(m[1..], x);
      assert (m + [x])[1..] == m[1..] + [x];
    }
  }

  // ---------------------------------------------------------------- the pipeline as a value

  /**
   ring, sent: what waits in the ring and what the UART has been given.
   chunk, rest: inside write_data, what is still to be pushed as it is, and the unconverted rest
   of the message after it. blocked: inside push_slice_blocking's wait.
   irq, active, waiting, space: transmit interrupt enabled and the three shared flags.
   ready: the writer thread is Ready. inbox: its messages. written: all messages ever sent to it.
   */
  datatype Pipe = Pipe(ring: seq<byte>, sent: seq<byte>, chunk: seq<byte>, rest: seq<byte>,
                       blocked: bool, irq: bool, active: bool, waiting: bool, space: bool,
                       ready: bool, inbox: seq<seq<byte>>, written: seq<seq<byte>>)

  /** `drain_ring_to_fifo`. With exactly a FIFO's worth in the ring it leaves the interrupt alone. */
  function Drain(p: Pipe): Pipe {
    var n := Min(TX_FIFO_SIZE, |p.ring|);
    var on := if |p.ring| == TX_FIFO_SIZE then p.irq else |p.ring| > TX_FIFO_SIZE;
    var act := if |p.ring| == TX_FIFO_SIZE then p.active else |p.ring| > TX_FIFO_SIZE;
    p.(sent := p.sent + p.ring[..n], ring := p.ring[n..], irq := on, active := act)
  }

  /** `notify_tx_ready`. */
  function Notify(p: Pipe): Pipe {
    var d := Drain(p);
    if d.waiting then d.(waiting := false, space := true, ready := true) else d
  }

  /** `push_slice_blocking`, up to its end or to its wait. */
  function Push(p: Pipe): Pipe
    requires |p.ring| <= CAPACITY
  {
    var k := Min(|p.chunk|, CAPACITY - |p.ring|);
    var q := p.(ring := p.ring + p.chunk[..k], chunk := p.chunk[k..]);
    if q.chunk == [] then q
    else q.(blocked := true, active := true, irq := true, space := false, waiting := true, ready := false)
  }

  /** One round of the loop of `write_data`: the bytes before the next line end, and the line end. */
  function Line(p: Pipe): (r: Pipe)
    requires |p.ring| <= CAPACITY && !p.blocked && p.chunk == [] && p.rest != []
    ensures |r.ring| <= CAPACITY && |r.rest| < |p.rest| + (if r.blocked then 1 else 0)
    ensures !r.blocked ==> r.chunk == []
  {
    var e := LineEnd(p.rest);
    var q := if e > 0 then Push(p.(chunk := p.rest[..e], rest := p.rest[e..])) else p;
    if q.blocked || q.rest == [] then q
    else Push(q.(chunk := [CR, LF], rest := q.rest[1..]))
  }

  /** The loop of `write_data`, up to its end or to a wait. */
  function WriteLoop(p: Pipe): Pipe
    requires |p.ring| <= CAPACITY && !p.blocked && p.chunk == []
    decreases |p.rest|
  {
    if p.rest == [] then p
    else
      var q := Line(p);
      if q.blocked then q else WriteLoop(q)
  }

  /** `write_data`. */
  function Write(p: Pipe): Pipe
    requires |p.ring| <= CAPACITY && !p.blocked && p.chunk == []
  {
    var q := WriteLoop(p);
    if q.blocked then q else Drain(q)
  }

  /** One turn of the writer thread. */
  function Turn(p: Pipe): Pipe
    requires |p.ring| <= CAPACITY && (!p.blocked ==> p.chunk == [])
  {
    if p.blocked then
      if !p.space then p.(ready := false)
      else
        var q := Push(p.(blocked := false, waiting := false));
        if q.blocked then q else Write(q)
    else if p.inbox == [] then p.(ready := false)
    else Write(p.(rest := p.inbox[0], inbox := p.inbox[1..]))
  }

  /** `send_write`. */
  function Send(p: Pipe, m: seq<byte>): Pipe {
    p.(inbox := p.inbox + [m], written := p.written + [m], ready := true)
  }

  // ---------------------------------------------------------------- what every step keeps

  /** Bytes taken from messages, in order, wherever they are now. */
  function Stream(p: Pipe): seq<byte> {
    p.sent + p.ring + p.chunk + CrLf(p.rest)
  }

  ghost predicate Conserved(p: Pipe) {
    Stream(p) + CrLf(Flatten(p.inbox)) == CrLf(Flatten(p.written))
  }

  /** The handshake, between turns. */
  predicate Handshake(p: Pipe) {
    && |p.ring| <= CAPACITY
    && (p.ring != [] ==> p.irq)
    && (if p.blocked then p.chunk != [] else p.chunk == [] && p.rest == [])
    && (p.waiting <==> p.blocked && !p.space)
    && (p.blocked && !p.space ==> |p.ring| == CAPACITY)
    && (p.blocked && p.space ==> p.ready && |p.ring| < CAPACITY)
    && (!p.blocked && p.inbox != [] ==> p.ready)
  }

  ghost predicate PipeInv(p: Pipe) {
    Handshake(p) && Conserved(p)
  }

  lemma DrainStream(p: Pipe)
    ensures Stream(Drain(p)) == Stream(p)
  {
    hide CrLf;
    var n := Min(TX_FIFO_SIZE, |p.ring|);
    assert (p.sent + p.ring[..n]) + p.ring[n..] == p.sent + p.ring;
  }

  lemma PushStream(p: Pipe)
    requires |p.ring| <= CAPACITY
    ensures Stream(Push(p)) == Stream(p) && |Push(p).ring| <= CAPACITY
  {
    hide CrLf;
    var k := Min(|p.chunk|, CAPACITY - |p.ring|);
    assert p.sent + (p.ring + p.chunk[..k]) + p.chunk[k..] == p.sent + p.ring + p.chunk;
  }

  /** Starting a line's bytes, or its end, moves bytes from rest to chunk. */
  lemma TakeStream(p: Pipe, chunk: seq<byte>, rest: seq<byte>)
    requires p.chunk == [] && CrLf(p.rest) == chunk + CrLf(rest)
    ensures Stream(p.(chunk := chunk, rest := rest)) == Stream(p)
  {
    hide CrLf;
  }

  /** What writing keeps, from p to q. */
  ghost predicate Wrote(p: Pipe, q: Pipe) {
    && Stream(q) == Stream(p) && q.sent == p.sent && |p.ring| <= |q.ring| <= CAPACITY
    && q.inbox == p.inbox && q.written == p.written
    && (q.blocked ==> q.chunk != [] && |q.ring| == CAPACITY && q.irq && q.waiting && !q.space && !q.ready)
    && (!q.blocked ==> q.chunk == [] && q.waiting == p.waiting && q.ready == p.ready)
  }

  lemma PushWrote(p: Pipe, chunk: seq<byte>, rest: seq<byte>)
    requires |p.ring| <= CAPACITY && !p.blocked && p.chunk == [] && CrLf(p.rest) == chunk + CrLf(rest)
    ensures Wrote(p, Push(p.(chunk := chunk, rest := rest)))
  {
    hide CrLf, Stream;
    TakeStream(p, chunk, rest);
    PushStream(p.(chunk := chunk, rest := rest));
  }

  lemma LineWrote(p: Pipe)
    requires |p.ring| <= CAPACITY && !p.blocked && p.chunk == [] && p.rest != []
    ensures Wrote(p, Line(p))
  {
    hide CrLf, Stream, Push;
    LineSplits(p.rest);
    var e := LineEnd(p.rest);
    var q := if e > 0 then Push(p.(chunk := p.rest[..e], rest := p.rest[e..])) else p;
    PushWrote(p, p.rest[..e], p.rest[e..]);
    KeepsRest(p.(chunk := p.rest[..e], rest := p.rest[e..]));
    assert p.rest[0..] == p.rest;
    if !q.blocked && q.rest != [] {
      assert q.rest[1..] == p.rest[e + 1..];
      PushWrote(q, [CR, LF], q.rest[1..]);
    }
  }

  lemma KeepsRest(p: Pipe)
    requires |p.ring| <= CAPACITY
    ensures Push(p).rest == p.rest
  {
  }

  lemma {:induction false} WriteLoopKeeps(p: Pipe)
    requires |p.ring| <= CAPACITY && !p.blocked && p.chunk == []
    ensures Wrote(p, WriteLoop(p)) && (!WriteLoop(p).blocked ==> WriteLoop(p).rest == [])
    decreases |p.rest|
  {
    hide CrLf, Stream, Line;
    if p.rest != [] {
      LineWrote(p);
      if !Line(p).blocked {
        WriteLoopKeeps(Line(p));
      }
    }
  }

  lemma WriteKeeps(p: Pipe)
    requires |p.ring| <= CAPACITY && !p.blocked && p.chunk == [] && !p.waiting && p.ready
    ensures Handshake(Write(p)) && Stream(Write(p)) == Stream(p)
    ensures Write(p).inbox == p.inbox && Write(p).written == p.written
  {
    hide CrLf, Stream, WriteLoop;
    WriteLoopKeeps(p);
    DrainStream(WriteLoop(p));
  }

  /** Taking up a message moves its bytes from the inbox to the stream. */
  lemma TakeMessage(p: Pipe)
    requires Conserved(p) && p.inbox != [] && p.chunk == [] && p.rest == []
    ensures Conserved(p.(rest := p.inbox[0], inbox := p.inbox[1..]))
  {
    var m, more := p.inbox[0], Flatten(p.inbox[1..]);
    CrLfConcat(m, more);
    FirstFlattened(p.inbox);
    hide CrLf, Flatten;
    var front := p.sent + p.ring + p.chunk;
    assert Stream(p) == front + CrLf([]);
    NoBytes();
    Associative(front, CrLf(m), CrLf(more));
    assert front + [] == front;
  }

  lemma NoBytes()
    ensures CrLf([]) == [] && Flatten([]) == []
  {
  }

  lemma FirstFlattened(m: seq<seq<byte>>)
    requires m != []
    ensures Flatten(m) == m[0] + Flatten(m[1..])
  {
  }

  lemma SameConserved(p: Pipe, q: Pipe)
    requires Conserved(p) && Stream(q) == Stream(p) && q.inbox == p.inbox && q.written == p.written
    ensures Conserved(q)
  {
  }

  lemma TurnInv(p: Pipe)
    requires PipeInv(p) && p.ready
    ensures PipeInv(Turn(p))
  {
    hide CrLf, Stream, Conserved, Write;
    if p.blocked {
      if !p.space {
        SameStream(p, p.(ready := false));
        SameConserved(p, p.(ready := false));
      } else {
        var p1 := p.(blocked := false, waiting := false);
        SameStream(p, p1);
        PushStream(p1);
        var q := Push(p1);
        if !q.blocked { WriteKeeps(q); }
        SameConserved(p, Turn(p));
      }
    } else if p.inbox == [] {
      SameStream(p, p.(ready := false));
      SameConserved(p, p.(ready := false));
    } else {
      var p1 := p.(rest := p.inbox[0], inbox := p.inbox[1..]);
      TakeMessage(p);
      WriteKeeps(p1);
      SameConserved(p1, Write(p1));
    }
  }

  lemma SameStream(p: Pipe, q: Pipe)
    requires p.sent == q.sent && p.ring == q.ring && p.chunk == q.chunk && p.rest == q.rest
    ensures Stream(p) == Stream(q)
  {
  }

  lemma IrqInv(p: Pipe)
    requires PipeInv(p)
    ensures PipeInv(Notify(p))
  {
    hide CrLf, Stream, Conserved;
    DrainStream(p);
    SameStream(Drain(p), Notify(p));
    SameConserved(p, Notify(p));
  }

  lemma SendInv(p: Pipe, m: seq<byte>)
    requires PipeInv(p)
    ensures PipeInv(Send(p, m))
  {
    FlattenAppend(p.inbox, m);
    FlattenAppend(p.written, m);
    CrLfConcat(Flatten(p.inbox), m);
    CrLfConcat(Flatten(p.written), m);
    hide CrLf, Flatten;
    Associative(Stream(p), CrLf(Flatten(p.inbox)), CrLf(m));
    SameStream(p, Send(p, m));
  }

  // ---------------------------------------------------------------- whole runs

  datatype Event = Sent(m: seq<byte>) | WriterTurn | TxInterrupt

  predicate Enabled(p: Pipe, e: Event) {
    match e
    case Sent(_) => true
    case WriterTurn => p.ready
    case TxInterrupt => p.irq
  }

  function Next(p: Pipe, e: Event): Pipe
    requires Handshake(p)
  {
    match e
    case Sent(m) => Send(p, m)
    case WriterTurn => Turn(p)
    case TxInterrupt => Notify(p)
  }

  lemma NextInv(p: Pipe, e: Event)
    requires PipeInv(p) && Enabled(p, e)
    ensures PipeInv(Next(p, e))
  {
    hide CrLf, Stream, Conserved, Handshake;
    match e
    case Sent(m) => SendInv(p, m);
    case WriterTurn => TurnInv(p);
    case TxInterrupt => IrqInv(p);
  }

  ghost predicate Run(p: Pipe, events: seq<Event>)
    requires PipeInv(p)
    decreases |events|
  {
    events == [] || (Enabled(p, events[0]) && (NextInv(p, events[0]); Run(Next(p, events[0]), events[1..])))
  }

  /** The pipeline after a run. In every run what was given to the UART, what waits in the ring and
      what is still to be pushed are together the messages with their line ends converted. */
  ghost function After(p: Pipe, events: seq<Event>): (r: Pipe)
    requires PipeInv(p) && Run(p, events)
    ensures PipeInv(r)
    decreases |events|
  {
    if events == [] then p else NextInv(p, events[0]); After(Next(p, events[0]), events[1..])
  }

  function Start(): Pipe {
    Pipe([], [], [], [], false, false, false, false, false, true, [], [])
  }

  lemma StartInv()
    ensures PipeInv(Start())
  {
  }

  // ---------------------------------------------------------------- no stall

  /** Bytes of messages not yet in the ring. */
  function Unpushed(p: Pipe): nat {
    |p.chunk| + |CrLf(p.rest)| + |CrLf(Flatten(p.inbox))|
  }

  /** Each byte not yet in the ring, each not yet given to the UART, each message, and each thing
      that can still happen. */
  function Potential(p: Pipe): nat {
    3 * Unpushed(p) + 3 * (|p.ring| + Unpushed(p)) + 3 * |p.inbox|
    + (if p.ready then 1 else 0) + (if p.irq then 1 else 0)
  }

  lemma StreamLength(p: Pipe)
    ensures |Stream(p)| == |p.sent| + |p.ring| + |p.chunk| + |CrLf(p.rest)|
  {
    hide CrLf;
  }

  lemma WritePotential(p: Pipe)
    requires |p.ring| <= CAPACITY && !p.blocked && p.chunk == [] && p.ready && !p.waiting
    ensures Potential(Write(p)) <= Potential(p) + 1
  {
    hide CrLf, Flatten, Stream, WriteLoop;
    WriteLoopKeeps(p);
    StreamLength(p);
    StreamLength(WriteLoop(p));
  }

  lemma TurnPotential(p: Pipe)
    requires PipeInv(p) && p.ready
    ensures Potential(Turn(p)) < Potential(p)
  {
    if p.blocked {
      hide CrLf, Flatten, Stream, Conserved, Write;
      if p.space {
        var q := Push(p.(blocked := false, waiting := false));
        if !q.blocked { WritePotential(q); }
      }
    } else if p.inbox != [] {
      MessagePotential(p);
    }
  }

  lemma MessagePotential(p: Pipe)
    requires Handshake(p) && !p.blocked && p.inbox != [] && p.ready
    ensures Potential(Turn(p)) < Potential(p)
  {
    CrLfConcat(p.inbox[0], Flatten(p.inbox[1..]));
    FirstFlattened(p.inbox);
    NoBytes();
    hide CrLf, Flatten, Stream, Write;
    var p1 := p.(rest := p.inbox[0], inbox := p.inbox[1..]);
    WritePotential(p1);
  }

  /** Without new messages, everything that can happen brings the end nearer. */
  lemma PotentialDrops(p: Pipe, e: Event)
    requires PipeInv(p) && Enabled(p, e) && !e.Sent?
    ensures Potential(Next(p, e)) < Potential(p)
  {
    hide CrLf, Flatten, Stream, Conserved;
    if e.WriterTurn? {
      TurnPotential(p);
    }
  }

  /** Nothing can happen any more only when every message has gone out in full. */
  lemma QuietMeansSent(p: Pipe)
    requires PipeInv(p) && !p.ready && !p.irq
    ensures p.sent == CrLf(Flatten(p.written))
  {
    NoBytes();
    hide CrLf, Flatten;
    assert p.sent + [] + [] + [] + [] == p.sent;
  }

  /** The handshake never stalls: without new messages a run ends, by itself, with all bytes sent. */
  lemma {:induction false} EveryRunDelivers(p: Pipe, events: seq<Event>)
    requires PipeInv(p) && Run(p, events) && forall i | 0 <= i < |events| :: !events[i].Sent?
    ensures |events| <= Potential(p)
    ensures var r := After(p, events); r.ready || r.irq || r.sent == CrLf(Flatten(r.written))
    decreases |events|
  {
    hide CrLf, Flatten, Stream, Conserved, Handshake, Potential;
    if events == [] {
      if !p.ready && !p.irq { QuietMeansSent(p); }
    } else {
      NextInv(p, events[0]);
      PotentialDrops(p, events[0]);
      EveryRunDelivers(Next(p, events[0]), events[1..]);
    }
  }

  /** While the writer waits for space the interrupt is enabled, and the next one frees places and
      makes the writer Ready, whose next turn pushes at least one byte. */
  lemma WaitEnds(p: Pipe)
    requires PipeInv(p) && p.blocked && !p.space
    ensures p.irq && PipeInv(Notify(p)) && Notify(p).ready && Notify(p).space
    ensures Unpushed(Turn(Notify(p))) < Unpushed(p)
  {
    IrqInv(p);
    hide CrLf, Flatten, Stream, Conserved, WriteLoop;
    var n := Notify(p);
    var q := Push(n.(blocked := false, waiting := false));
    if !q.blocked {
      WriteLoopKeeps(q);
      StreamLength(q);
      StreamLength(WriteLoop(q));
    }
  }

  // ---------------------------------------------------------------- the code

  /** Pushing what fits and then pushing again is the same push. */
  lemma PushAgain(p: Pipe)
    requires |p.ring| <= CAPACITY
    ensures var k := Min(|p.chunk|, CAPACITY - |p.ring|);
            Push(p.(ring := p.ring + p.chunk[..k], chunk := p.chunk[k..])) == Push(p)
  {
    var k := Min(|p.chunk|, CAPACITY - |p.ring|);
    var rest := p.chunk[k..];
    var j := Min(|rest|, CAPACITY - |p.ring + p.chunk[..k]|);
    assert j == 0;
    assert (p.ring + p.chunk[..k]) + rest[..j] == p.ring + p.chunk[..k];
    assert rest[j..] == rest;
  }

  lemma DrainStep(sent: seq<byte>, all: seq<byte>, i: nat, b: byte, left: seq<byte>)
    requires i <= |all| && all[i..] == [b] + left
    ensures i < |all| && left == all[i + 1..] && (sent + all[..i]) + [b] == sent + all[..i + 1]
  {
    assert |all[i..]| == 1 + |left|;
    assert all[i..][0] == b && all[i..][1..] == left;
  }

  lemma PushFull(p: Pipe)
    requires |p.ring| <= CAPACITY && p.chunk != []
    ensures |p.ring| == CAPACITY ==>
              Push(p) == p.(ring := p.ring + p.chunk[..0], blocked := true, active := true, irq := true, space := false,
                            waiting := true, ready := false)
  {
    assert p.chunk[0..] == p.chunk;
  }

  lemma PushNothing(p: Pipe)
    requires |p.ring| <= CAPACITY && p.chunk == []
    ensures Push(p) == p
  {
    assert p.ring + [] == p.ring;
  }

  lemma DrainEnd(p: Pipe, i: int)
    requires i == Min(TX_FIFO_SIZE, |p.ring|)
    ensures var q := p.(sent := p.sent + p.ring[..i], ring := p.ring[i..]);
            Drain(p) == if i < TX_FIFO_SIZE then q.(irq := false, active := false)
                        else if q.ring != [] then q.(irq := true, active := true) else q
  {
  }

  /** TX interrupt enable bit, TX_ACTIVE, WAITING_FOR_SPACE and BUFFER_SPACE_AVAILABLE. */
  datatype Flags = Flags(irq: bool, active: bool, waiting: bool, space: bool)

  /** The writer thread: inside the wait of push_slice_blocking or not; Ready or Blocked. */
  datatype Thread = Thread(blocked: bool, ready: bool)

  class Writer {
    const ring: ByteRing
    var sent: seq<byte>
    var chunk: seq<byte>
    var rest: seq<byte>
    var flags: Flags
    var thread: Thread
    var inbox: seq<seq<byte>>
    ghost var written: seq<seq<byte>>

    ghost predicate Valid()
      reads this, ring
    {
      ring.Valid() && ring.buf.Length == TX_RING_SIZE
    }

    ghost function State(): (p: Pipe)
      requires Valid()
      reads this, ring, ring.buf
      ensures |p.ring| <= CAPACITY
    {
      Pipe(ring.Contents(), sent, chunk, rest, thread.blocked, flags.irq, flags.active,
           flags.waiting, flags.space, thread.ready, inbox, written)
    }

    constructor ()
      ensures Valid() && State() == Start() && PipeInv(State()) && fresh(ring) && fresh(ring.buf)
    {
      ring := new ByteRing(TX_RING_SIZE);
      sent, chunk, rest, inbox, written := [], [], [], [], [];
      flags, thread := Flags(false, false, false, false), Thread(false, true);
      StartInv();
    }

    /** The loop of `drain_ring_to_fifo`: up to a FIFO's worth of bytes. */
    method FillFifo() returns (i: nat)
      requires Valid()
      modifies this`sent, ring`tail
      ensures Valid()
      ensures i == Min(TX_FIFO_SIZE, |old(State()).ring|)
      ensures var p := old(State()); State() == p.(sent := p.sent + p.ring[..i], ring := p.ring[i..])
    {
      hide ByteRing.Contents;
      ghost var p := State();
      i := 0;
      while i < TX_FIFO_SIZE
        invariant i <= TX_FIFO_SIZE && i <= |p.ring|
        invariant Valid() && ring.Contents() == p.ring[i..] && sent == p.sent + p.ring[..i]
      {
        var popped := ring.Pop();
        if popped.None? {
          break;
        }
        DrainStep(p.sent, p.ring, i, popped.value, ring.Contents());
        sent := sent + [popped.value];
        i := i + 1;
      }
    }

    method DrainRingToFifo()
      requires Valid()
      modifies this`sent, this`flags, ring`tail
      ensures Valid() && State() == Drain(old(State()))
    {
      hide ByteRing.Contents, Drain;
      ghost var p := State();
      var count := FillFifo();
      DrainEnd(p, count);
      if count < TX_FIFO_SIZE {
        flags := flags.(active := false, irq := false);
        return;
      }
      var empty := ring.IsEmpty();
      if !empty {
        flags := flags.(active := true, irq := true);
      }
    }

    /** The transmit interrupt. */
    method NotifyTxReady()
      requires Valid()
      modifies this, ring`tail
      ensures Valid() && State() == Notify(old(State()))
    {
      hide ByteRing.Contents, Drain;
      DrainRingToFifo();
      if flags.waiting {
        flags := flags.(waiting := false, space := true);
        thread := thread.(ready := true);
      }
    }

    /** Pushes `chunk`; where the source blocks, it stops with `blocked` set. */
    method PushSliceBlocking()
      requires Valid() && !thread.blocked
      modifies this, ring`head, ring.buf
      ensures Valid() && State() == Push(old(State()))
    {
      hide ByteRing.Contents, Push;
      while chunk != []
        invariant Valid() && !thread.blocked
        invariant Push(State()) == Push(old(State()))
        decreases |chunk|
      {
        ghost var p := State();
        PushAgain(p);
        PushFull(p);
        var pushed := ring.PushSlice(chunk);
        if pushed == 0 {
          flags := Flags(true, true, true, false);
          thread := Thread(true, false);
          return;
        }
        chunk := chunk[pushed..];
        assert State() == p.(ring := p.ring + p.chunk[..pushed], chunk := p.chunk[pushed..]);
      }
      PushNothing(State());
    }

    /** Pushes `c`, with `more` still to come. */
    method PushNext(c: seq<byte>, more: seq<byte>)
      requires Valid() && !thread.blocked
      modifies this, ring`head, ring.buf
      ensures Valid() && State() == Push(old(State()).(chunk := c, rest := more))
    {
      hide ByteRing.Contents, Push;
      chunk, rest := c, more;
      PushSliceBlocking();
    }

    /** One round of the loop of `write_data`. */
    method WriteLine()
      requires Valid() && !thread.blocked && chunk == [] && rest != []
      modifies this, ring`head, ring.buf
      ensures Valid() && State() == Line(old(State()))
    {
      hide ByteRing.Contents, Push, LineEnd;
      var chunkEnd := FindLineEnd(rest);
      if chunkEnd > 0 {
        PushNext(rest[..chunkEnd], rest[chunkEnd..]);
        if thread.blocked || rest == [] { return; }
      }
      PushNext([CR, LF], rest[1..]);
    }

    /** `write_data` on `rest`, from its start or from where a wait interrupted it. */
    method WriteData()
      requires Valid() && !thread.blocked && chunk == []
      modifies this, ring, ring.buf
      ensures Valid() && State() == Write(old(State()))
    {
      hide ByteRing.Contents, Line, Drain;
      while rest != [] && !thread.blocked
        invariant Valid() && (!thread.blocked ==> chunk == [])
        invariant old(WriteLoop(State())) == if thread.blocked then State() else WriteLoop(State())
        decreases !thread.blocked, |rest|
      {
        WriteLine();
      }
      if !thread.blocked {
        DrainRingToFifo();
      }
    }

    /** The writer thread runs until it blocks or has dealt with one message. */
    method WriterTurn()
      requires Valid() && PipeInv(State()) && thread.ready
      modifies this, ring, ring.buf
      ensures Valid() && PipeInv(State()) && State() == Turn(old(State()))
    {
      hide ByteRing.Contents, Push, Write, Conserved;
      ghost var p := State();
      TurnInv(p);
      if thread.blocked {
        if !flags.space {
          thread := thread.(ready := false);
          return;
        }
        flags := flags.(waiting := false);
        thread := thread.(blocked := false);
        PushSliceBlocking();
        PushEnds(p.(blocked := false, waiting := false));
        if !thread.blocked {
          WriteData();
        }
      } else if inbox == [] {
        thread := thread.(ready := false);
      } else {
        rest, inbox := inbox[0], inbox[1..];
        WriteData();
      }
    }

    method SendWrite(m: seq<byte>)
      requires Valid() && PipeInv(State())
      modifies this
      ensures Valid() && PipeInv(State()) && State() == Send(old(State()), m)
    {
      hide ByteRing.Contents, PipeInv;
      SendInv(State(), m);
      inbox, written := inbox + [m], written + [m];
      thread := thread.(ready := true);
    }
  }

  lemma PushEnds(p: Pipe)
    requires |p.ring| <= CAPACITY
    ensures !Push(p).blocked ==> Push(p).chunk == []
  {
  }

  method FindLineEnd(s: seq<byte>) returns (e: nat)
    ensures e == LineEnd(s)
  {
    e := 0;
    while e < |s| && s[e] != LF
      invariant e <= |s| && LF !in s[..e]
    {
      e := e + 1;
    }
    LineEndIs(s, e);
  }

  lemma LineEndIs(s: seq<byte>, e: nat)
    requires e <= |s| && LF !in s[..e] && (e < |s| ==> s[e] == LF)
    ensures e == LineEnd(s)
  {
    hide LineEnd;
    NotBefore(s, e, LineEnd(s));
    NotBefore(s, LineEnd(s), e);
  }

  lemma NotBefore(s: seq<byte>, e: nat, f: nat)
    requires e <= |s| && f <= |s| && LF !in s[..e] && (f < |s| ==> s[f] == LF)
    ensures e <= f
  {
  }
}
