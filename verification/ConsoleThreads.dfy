/**
 The console under the scheduler: the writer is a thread of the table, messages reach it by urgent
 sends, and the transmit interrupt wakes it. The readiness and the inbox the pipeline goes by are
 proved to be the scheduler's, so what is proved of the pipeline holds of every run of all threads.
 */
module ConsoleThreads {

  import opened Common
  import T = Threads
  import U = UartWriter

  type Bytes = seq<byte>

  datatype System = System(sched: T.Sched<Bytes>, pipe: U.Pipe, writer: nat)

  /** `Write` is `send_write` by the thread that runs. `Other` is anything else some thread or interrupt
      handler does; nobody else sends to the writer or wakes it. */
  datatype Action = Write(m: Bytes) | WriterTurn | Interrupt | Other(step: T.Step<Bytes>)

  /** The step is one of the running thread itself. */
  predicate OfRunning(step: T.Step<Bytes>) {
    step.Yield? || step.Exit? || step.BlockNow? || step.Receive? || step.SendUrgent?
  }

  predicate Leaves(step: T.Step<Bytes>, t: nat) {
    step.Send? || step.SendUrgent? || step.Wake? ==> step.target != t
  }

  /** The writer's turn comes when the scheduler says so. No interrupt is taken while it runs. */
  predicate Enabled(s: System, a: Action) {
    match a
    case Write(_) => s.sched.current in s.sched.table && s.sched.current != s.writer
    case WriterTurn => s.sched.current == s.writer
    case Interrupt => s.pipe.irq && s.sched.current != s.writer
    case Other(step) =>
      && T.Enabled(s.sched, step) && Leaves(step, s.writer) && (OfRunning(step) ==> s.sched.current != s.writer)
  }

  /** Within a turn the writer calls `receive_message` unless it waits for space, and `block_now` where the
      ring is full: the steps of a turn from `p` that leaves the writer with this readiness. */
  function TurnSteps(p: U.Pipe, ready: bool): seq<T.Step<Bytes>> {
    (if p.blocked then [] else [T.Receive]) + (if (p.blocked || p.inbox != []) && !ready then [T.BlockNow] else [])
  }

  /** What each action is to the scheduler. */
  function Steps(s: System, a: Action): seq<T.Step<Bytes>>
    requires U.Handshake(s.pipe)
  {
    match a
    case Write(m) => [T.SendUrgent(s.writer, m)]
    case WriterTurn => TurnSteps(s.pipe, U.Turn(s.pipe).ready)
    case Interrupt => if s.pipe.waiting then [T.Wake(s.writer)] else []
    case Other(step) => [step]
  }

  /** What each action is to the pipeline. */
  function Events(a: Action): seq<U.Event> {
    match a
    case Write(m) => [U.Sent(m)]
    case WriterTurn => [U.WriterTurn]
    case Interrupt => [U.TxInterrupt]
    case Other(_) => []
  }

  function PipeAfter(p: U.Pipe, a: Action): U.Pipe
    requires U.Handshake(p)
  {
    if a.Other? then p else U.Next(p, Events(a)[0])
  }

  /** The pipeline's view of its thread is the scheduler's. */
  predicate Agree(sched: T.Sched<Bytes>, pipe: U.Pipe, writer: nat) {
    && writer in sched.table && sched.table[writer].inbox == pipe.inbox
    && (pipe.ready <==> !sched.table[writer].state.Blocked?)
  }

  ghost predicate Inv(s: System) {
    T.Inv(s.sched) && U.PipeInv(s.pipe) && Agree(s.sched, s.pipe, s.writer)
  }

  function Next(s: System, a: Action): System
    requires T.Inv(s.sched) && U.Handshake(s.pipe) && T.Possible(s.sched, Steps(s, a))
  {
    System(T.After(s.sched, Steps(s, a)), PipeAfter(s.pipe, a), s.writer)
  }

  // ---------------------------------------------------------------- one action

  lemma NoSteps(s: T.Sched<Bytes>)
    requires T.Inv(s)
    ensures T.Possible(s, []) && T.After(s, []) == s
  {
  }

  lemma OneStep(s: T.Sched<Bytes>, step: T.Step<Bytes>)
    requires T.Inv(s) && T.Enabled(s, step)
    ensures T.Possible(s, [step]) && T.After(s, [step]) == T.Next(s, step)
  {
    hide T.Inv, T.Next;
    T.NextInv(s, step);
    assert [step][1..] == [];
  }

  lemma TwoSteps(s: T.Sched<Bytes>, a: T.Step<Bytes>, b: T.Step<Bytes>)
    requires T.Inv(s) && T.Enabled(s, a) && T.Inv(T.Next(s, a)) && T.Enabled(T.Next(s, a), b)
    ensures T.Possible(s, [a, b]) && T.After(s, [a, b]) == T.Next(T.Next(s, a), b)
  {
    hide T.Inv, T.Next;
    OneStep(T.Next(s, a), b);
    assert [a, b][1..] == [b];
  }

  /** An urgent send makes its target ready. */
  lemma UrgentAgrees(s: T.Sched<Bytes>, p: U.Pipe, writer: nat, m: Bytes)
    requires T.Inv(s) && Agree(s, p, writer) && s.current in s.table && s.current != writer
    ensures Agree(T.Next(s, T.SendUrgent(writer, m)), U.Send(p, m), writer)
  {
    hide T.QueueIsReady, T.WaitersHaveNoMail, T.IdsInUse;
    T.DispatchFindsThread(s, T.SendUrgent(writer, m));
  }

  /** A step that has nothing to do with the writer leaves it as it is, or lets it run. */
  lemma OtherAgrees(s: T.Sched<Bytes>, p: U.Pipe, writer: nat, step: T.Step<Bytes>)
    requires T.Inv(s) && Agree(s, p, writer) && T.Enabled(s, step) && Leaves(step, writer)
    requires OfRunning(step) ==> s.current != writer
    ensures Agree(T.Next(s, step), p, writer)
  {
    hide T.InvWith, T.Dispatch, T.BeforeDispatch;
    if T.Switches(s, step) {
      T.BeforeDispatchInv(s, step);
      T.DispatchFindsThread(s, step);
      OtherBefore(s, p, writer, step);
      DispatchAgrees(T.BeforeDispatch(s, step), p, writer);
    } else {
      OtherQuiet(s, p, writer, step);
    }
  }

  lemma OtherBefore(s: T.Sched<Bytes>, p: U.Pipe, writer: nat, step: T.Step<Bytes>)
    requires Agree(s, p, writer) && T.Enabled(s, step) && T.Switches(s, step) && Leaves(step, writer)
    requires OfRunning(step) ==> s.current != writer
    ensures Agree(T.BeforeDispatch(s, step), p, writer)
  {
  }

  lemma OtherQuiet(s: T.Sched<Bytes>, p: U.Pipe, writer: nat, step: T.Step<Bytes>)
    requires T.Inv(s) && Agree(s, p, writer) && T.Enabled(s, step) && !T.Switches(s, step) && Leaves(step, writer)
    requires OfRunning(step) ==> s.current != writer
    ensures Agree(T.Next(s, step), p, writer)
  {
    hide T.QueueIsReady, T.WaitersHaveNoMail, T.OnlyRunning;
  }

  /** Only ready threads are dispatched. */
  lemma DispatchAgrees(b: T.Sched<Bytes>, p: U.Pipe, writer: nat)
    requires T.InvWith(b, 0) && Agree(b, p, writer) && (b.ready != [] ==> b.ready[0] in b.table)
    ensures Agree(T.Dispatch(b), p, writer)
  {
    assert b.ready != [] ==> b.ready[0] in b.ready;
  }

  lemma WakeAgrees(s: T.Sched<Bytes>, p: U.Pipe, writer: nat)
    requires T.Inv(s) && Agree(s, p, writer)
    ensures Agree(T.Next(s, T.Wake(writer)), p.(ready := true), writer)
  {
  }

  /** A message taken by the writer. */
  lemma ReceiveTakes(s: T.Sched<Bytes>, p: U.Pipe, writer: nat)
    requires T.Inv(s) && Agree(s, p, writer) && s.current == writer && p.inbox != []
    ensures var n := T.Next(s, T.Receive);
            T.Inv(n) && n.current == writer && Agree(n, p.(inbox := p.inbox[1..]), writer)
  {
    T.NextInv(s, T.Receive);
  }

  lemma BlockSleeps(s: T.Sched<Bytes>, p: U.Pipe, writer: nat, step: T.Step<Bytes>)
    requires T.Inv(s) && Agree(s, p, writer) && s.current == writer && (step.BlockNow? || (step.Receive? && p.inbox == []))
    ensures Agree(T.Next(s, step), p.(ready := false), writer)
  {
    hide T.WaitersHaveNoMail;
    T.DispatchFindsThread(s, step);
  }

  /** What a turn does to the inbox. */
  lemma TurnTakes(p: U.Pipe)
    requires U.Handshake(p) && p.ready
    ensures U.Turn(p).inbox == if p.blocked || p.inbox == [] then p.inbox else p.inbox[1..]
    ensures !p.blocked && p.inbox == [] ==> !U.Turn(p).ready
  {
    hide U.WriteLoop;
    if p.blocked {
      if p.space {
        var q := U.Push(p.(blocked := false, waiting := false));
        if !q.blocked { U.WriteLoopKeeps(q); }
      }
    } else if p.inbox != [] {
      U.WriteLoopKeeps(p.(rest := p.inbox[0], inbox := p.inbox[1..]));
    }
  }

  /** The writer's turn keeps the two views alike, whether it ends the turn blocked or not. */
  lemma TurnAgrees(k: T.Sched<Bytes>, p: U.Pipe, q: U.Pipe, writer: nat)
    requires T.Inv(k) && Agree(k, p, writer) && k.current == writer && p.ready
    requires q.inbox == if p.blocked || p.inbox == [] then p.inbox else p.inbox[1..]
    requires !p.blocked && p.inbox == [] ==> !q.ready
    ensures T.Possible(k, TurnSteps(p, q.ready)) && Agree(T.After(k, TurnSteps(p, q.ready)), q, writer)
  {
    hide T.Inv, T.Next, T.Possible, T.After;
    if p.blocked {
      if q.ready {
        NoSteps(k);
        assert TurnSteps(p, q.ready) == [];
      } else {
        BlockSleeps(k, p, writer, T.BlockNow);
        OneStep(k, T.BlockNow);
        assert TurnSteps(p, q.ready) == [T.BlockNow];
      }
    } else if p.inbox == [] {
      BlockSleeps(k, p, writer, T.Receive);
      OneStep(k, T.Receive);
      assert TurnSteps(p, q.ready) == [T.Receive];
    } else {
      MessageAgrees(k, p, q, writer);
    }
  }

  lemma MessageAgrees(k: T.Sched<Bytes>, p: U.Pipe, q: U.Pipe, writer: nat)
    requires T.Inv(k) && Agree(k, p, writer) && k.current == writer && p.inbox != [] && p.ready && q.inbox == p.inbox[1..]
    ensures var steps := [T.Receive] + (if !q.ready then [T.BlockNow] else []);
            T.Possible(k, steps) && Agree(T.After(k, steps), q, writer)
  {
    hide T.Inv, T.Next, T.Possible, T.After;
    ReceiveTakes(k, p, writer);
    var take: seq<T.Step<Bytes>> := [T.Receive];
    if q.ready {
      OneStep(k, T.Receive);
      assert take + [] == take;
    } else {
      BlockSleeps(T.Next(k, T.Receive), p.(inbox := p.inbox[1..]), writer, T.BlockNow);
      TwoSteps(k, T.Receive, T.BlockNow);
      assert take + [T.BlockNow] == [T.Receive, T.BlockNow];
    }
  }

  /** Who runs is not asleep, and a pipeline between turns is in order. */
  lemma RunningIsReady(s: System)
    requires Inv(s) && s.sched.current == s.writer
    ensures s.pipe.ready && |s.pipe.ring| <= U.CAPACITY && (!s.pipe.blocked ==> s.pipe.chunk == [])
  {
  }

  lemma InterruptInv(s: System)
    requires Inv(s)
    ensures T.Possible(s.sched, Steps(s, Interrupt)) && Inv(Next(s, Interrupt))
  {
    hide T.Inv, T.Next, T.Possible, T.After, U.Handshake, U.Conserved;
    U.IrqInv(s.pipe);
    if s.pipe.waiting {
      WakeAgrees(s.sched, s.pipe, s.writer);
      OneStep(s.sched, T.Wake(s.writer));
    } else {
      NoSteps(s.sched);
    }
  }

  lemma WriteInv(s: System, m: Bytes)
    requires Inv(s) && Enabled(s, Write(m))
    ensures T.Possible(s.sched, Steps(s, Write(m))) && Inv(Next(s, Write(m)))
  {
    hide T.Inv, T.Next, T.Possible, T.After, U.Handshake, U.Conserved;
    UrgentAgrees(s.sched, s.pipe, s.writer, m);
    OneStep(s.sched, T.SendUrgent(s.writer, m));
    U.SendInv(s.pipe, m);
  }

  lemma TurnInv(s: System)
    requires Inv(s) && Enabled(s, WriterTurn)
    ensures T.Possible(s.sched, Steps(s, WriterTurn)) && Inv(Next(s, WriterTurn)) && s.pipe.ready
  {
    hide T.Inv, T.Next, T.Possible, T.After, U.Handshake, U.Conserved, U.Turn, TurnSteps;
    RunningIsReady(s);
    TurnTakes(s.pipe);
    TurnAgrees(s.sched, s.pipe, U.Turn(s.pipe), s.writer);
    U.TurnInv(s.pipe);
  }

  lemma OtherInv(s: System, step: T.Step<Bytes>)
    requires Inv(s) && Enabled(s, Other(step))
    ensures T.Possible(s.sched, Steps(s, Other(step))) && Inv(Next(s, Other(step)))
  {
    hide T.Inv, T.Next, T.Possible, T.After, U.Handshake, U.Conserved;
    OtherAgrees(s.sched, s.pipe, s.writer, step);
    OneStep(s.sched, step);
  }

  /** Every action is possible to the scheduler, and keeps the pipeline and the scheduler agreed. */
  lemma NextInv(s: System, a: Action)
    requires Inv(s) && Enabled(s, a)
    ensures T.Possible(s.sched, Steps(s, a)) && Inv(Next(s, a))
    ensures !a.Other? ==> U.Enabled(s.pipe, Events(a)[0])
  {
    hide T.Inv, T.Possible, T.After, U.Handshake, U.Conserved, Agree, Next, Steps;
    match a
    case Write(m) => WriteInv(s, m);
    case WriterTurn => TurnInv(s);
    case Interrupt => InterruptInv(s);
    case Other(step) => OtherInv(s, step);
  }

  // ---------------------------------------------------------------- whole runs

  ghost predicate Run(s: System, actions: seq<Action>)
    requires Inv(s)
    decreases |actions|
  {
    actions == [] || (Enabled(s, actions[0]) && (NextInv(s, actions[0]); Run(Next(s, actions[0]), actions[1..])))
  }

  ghost function After(s: System, actions: seq<Action>): (e: System)
    requires Inv(s) && Run(s, actions)
    ensures Inv(e)
    decreases |actions|
  {
    if actions == [] then s else NextInv(s, actions[0]); After(Next(s, actions[0]), actions[1..])
  }

  /** What a run is to the pipeline. */
  function AllEvents(actions: seq<Action>): seq<U.Event> {
    if actions == [] then [] else Events(actions[0]) + AllEvents(actions[1..])
  }

  /** Every run of all threads is a run of the pipeline, whatever the scheduler lets happen in between:
      the scheduler gives the writer its turns only when the pipeline is ready for them. */
  lemma {:induction false} RunsThePipeline(s: System, actions: seq<Action>)
    requires Inv(s) && Run(s, actions)
    ensures U.Run(s.pipe, AllEvents(actions)) && U.After(s.pipe, AllEvents(actions)) == After(s, actions).pipe
    decreases |actions|
  {
    hide T.Inv, T.After, T.Possible, U.Handshake, U.Conserved, U.Next, Agree, Enabled, Steps;
    if actions != [] {
      var a := actions[0];
      NextInv(s, a);
      RunsThePipeline(Next(s, a), actions[1..]);
      var e, more := Events(a), AllEvents(actions[1..]);
      if a.Other? {
        assert e + more == more;
      } else {
        assert (e + more)[0] == e[0] && (e + more)[1..] == more;
        U.NextInv(s.pipe, e[0]);
      }
    }
  }

  /** What a run is to the scheduler. */
  ghost function AllSteps(s: System, actions: seq<Action>): seq<T.Step<Bytes>>
    requires Inv(s) && Run(s, actions)
    decreases |actions|
  {
    if actions == [] then []
    else NextInv(s, actions[0]); Steps(s, actions[0]) + AllSteps(Next(s, actions[0]), actions[1..])
  }

  lemma {:induction false} StepsConcat(s: T.Sched<Bytes>, a: seq<T.Step<Bytes>>, b: seq<T.Step<Bytes>>)
    requires T.Inv(s) && T.Possible(s, a) && T.Possible(T.After(s, a), b)
    ensures T.Possible(s, a + b) && T.After(s, a + b) == T.After(T.After(s, a), b)
    decreases |a|
  {
    hide T.Inv, T.Next, T.Enabled;
    if a == [] {
      assert a + b == b;
    } else {
      T.NextInv(s, a[0]);
      StepsConcat(T.Next(s, a[0]), a[1..], b);
      assert (a + b)[0] == a[0] && (a + b)[1..] == a[1..] + b;
    }
  }

  /** Every run is a run of the scheduler, so the order of its inboxes and the exact wait in its ready
      queue hold of the writer. */
  lemma {:induction false} RunsTheScheduler(s: System, actions: seq<Action>)
    requires Inv(s) && Run(s, actions)
    ensures T.Possible(s.sched, AllSteps(s, actions)) && T.After(s.sched, AllSteps(s, actions)) == After(s, actions).sched
    decreases |actions|
  {
    hide T.Inv, U.Handshake, U.Conserved, U.Next, Agree, Enabled, Steps;
    if actions == [] {
      NoSteps(s.sched);
    } else {
      hide T.After, T.Possible;
      NextInv(s, actions[0]);
      RunsTheScheduler(Next(s, actions[0]), actions[1..]);
      StepsConcat(s.sched, Steps(s, actions[0]), AllSteps(Next(s, actions[0]), actions[1..]));
    }
  }

  predicate NoWrites(actions: seq<Action>) {
    forall i | 0 <= i < |actions| :: !actions[i].Write?
  }

  lemma {:induction false} NothingSent(actions: seq<Action>)
    requires NoWrites(actions)
    ensures forall i | 0 <= i < |AllEvents(actions)| :: !AllEvents(actions)[i].Sent?
  {
    if actions != [] {
      assert forall i | 0 <= i < |actions[1..]| :: actions[1..][i] == actions[i + 1];
      NothingSent(actions[1..]);
    }
  }

  /** The writer has a place: it runs, it is queued, or it sleeps. */
  lemma AwakeIsQueued(s: System)
    requires Inv(s) && s.pipe.ready
    ensures s.sched.current == s.writer || s.writer in s.sched.ready
  {
  }

  /** However the threads are scheduled, without new writes the writer takes a bounded number of turns
      and interrupts, and until every byte is sent an interrupt or a turn of the writer can happen, or the
      writer waits in the ready queue. */
  lemma EveryScheduleDelivers(s: System, actions: seq<Action>)
    requires Inv(s) && Run(s, actions) && NoWrites(actions)
    ensures |AllEvents(actions)| <= U.Potential(s.pipe)
    ensures var e := After(s, actions);
            || Enabled(e, Interrupt) || Enabled(e, WriterTurn) || e.writer in e.sched.ready
            || e.pipe.sent == U.CrLf(U.Flatten(e.pipe.written))
  {
    hide T.Inv, U.PipeInv, U.Potential, U.CrLf, U.Flatten, AllEvents, Agree;
    RunsThePipeline(s, actions);
    NothingSent(actions);
    U.EveryRunDelivers(s.pipe, AllEvents(actions));
    if After(s, actions).pipe.ready { AwakeIsQueued(After(s, actions)); }
  }

  /** A write to an idle writer is taken up at once: the writer runs next, with that message alone. */
  lemma WriteRunsWriter(s: System, m: Bytes)
    requires Inv(s) && Enabled(s, Write(m)) && !s.pipe.ready && !s.pipe.blocked
    ensures T.Possible(s.sched, Steps(s, Write(m)))
    ensures Next(s, Write(m)).sched.current == s.writer && Next(s, Write(m)).pipe.inbox == [m]
  {
    T.UrgentRunsNext(s.sched, s.writer, m);
    hide T.Inv, T.Next;
    OneStep(s.sched, T.SendUrgent(s.writer, m));
  }

  // ---------------------------------------------------------------- start-up

  /** `init` of the writer: a new thread, and an empty pipeline. */
  function Init(sched: T.Sched<Bytes>): System
    requires T.Inv(sched)
  {
    System(T.Next(sched, T.Spawn), U.Start(), sched.nextId)
  }

  lemma InitInv(sched: T.Sched<Bytes>)
    requires T.Inv(sched)
    ensures Inv(Init(sched))
  {
    T.NextInv(sched, T.Spawn);
    U.StartInv();
  }
}
