/**
 Cooperative kernel threads: the thread table, the ready queue and message inboxes.

 `Sched` is the state the scheduler keeps, as a value, and `Next` one step of some thread or
 interrupt handler; a run is any sequence of enabled steps. The class below is the scheduler as
 written, proved step by step against `Next`. A context switch is one atomic step.
 */
module Threads {

  datatype ThreadState = Running | Ready | Blocked

  /** Where a thread resumes: inside the loop of receive_message, or anywhere else. */
  datatype Resume = InReceive | Elsewhere

  datatype Thread<M> = Thread(state: ThreadState, inbox: seq<M>, resume: Resume)

  /** `current` is 0 while the idle thread runs; the idle thread is not in the table. */
  datatype Sched<M> = Sched(table: map<nat, Thread<M>>, ready: seq<nat>, current: nat, nextId: nat)

  datatype Step<M> =
    | Spawn
    | Yield
    | Exit
    | BlockNow
    | Receive
    | Send(target: nat, msg: M)
    | Wake(target: nat)
    | SendUrgent(target: nat, msg: M)
    | IdleCheck

  // ---------------------------------------------------------------- one step

  function SetState<M>(s: Sched<M>, t: nat, state: ThreadState): Sched<M>
    requires t in s.table
  {
    s.(table := s.table[t := s.table[t].(state := state)])
  }

  /** `schedule`: the front of the ready queue runs, or the idle thread. */
  function Dispatch<M>(s: Sched<M>): Sched<M>
    requires s.ready != [] ==> s.ready[0] in s.table
  {
    if s.ready == [] then s.(current := 0)
    else SetState(s, s.ready[0], Running).(ready := s.ready[1..], current := s.ready[0])
  }

  /** Put a message into an inbox; unknown targets lose it. */
  function Deliver<M>(s: Sched<M>, target: nat, msg: M): Sched<M> {
    if target !in s.table then s
    else s.(table := s.table[target := s.table[target].(inbox := s.table[target].inbox + [msg])])
  }

  /** A blocked target becomes ready, at the back or at the front of the queue. */
  function Rouse<M>(s: Sched<M>, target: nat, front: bool): Sched<M> {
    if target !in s.table || !s.table[target].state.Blocked? then s
    else SetState(s, target, Ready).(ready := if front then [target] + s.ready else s.ready + [target])
  }

  /** Give up the processor in the given state; only a ready thread queues up again. */
  function Leave<M>(s: Sched<M>, state: ThreadState, resume: Resume): Sched<M>
    requires s.current in s.table
  {
    s.(table := s.table[s.current := s.table[s.current].(state := state, resume := resume)])
  }

  /** Steps of the running thread need one; sends and wakes may also come from interrupts. */
  predicate Enabled<M>(s: Sched<M>, step: Step<M>) {
    match step
    case Yield | Exit | BlockNow | Receive | SendUrgent(_, _) => s.current in s.table
    case IdleCheck => s.current == 0
    case _ => true
  }

  /** What `schedule` gets to see in each step that calls it. */
  function BeforeDispatch<M>(s: Sched<M>, step: Step<M>): Sched<M>
    requires Enabled(s, step)
  {
    match step
    case Yield => var left := Leave(s, Ready, Elsewhere); left.(ready := left.ready + [s.current])
    case Exit => s.(table := s.table - {s.current})
    case BlockNow => Leave(s, Blocked, Elsewhere)
    case Receive => Leave(s, Blocked, InReceive)
    case SendUrgent(target, msg) =>
      var roused := Rouse(Deliver(Leave(s, Ready, Elsewhere), target, msg), target, true);
      roused.(ready := roused.ready + [s.current])
    case _ => s
  }

  /** The step ends in `schedule`. */
  predicate Switches<M>(s: Sched<M>, step: Step<M>)
    requires Enabled(s, step)
  {
    match step
    case Yield | Exit | BlockNow | SendUrgent(_, _) => true
    case Receive => s.table[s.current].inbox == []
    case IdleCheck => s.ready != []
    case _ => false
  }

  function Next<M>(s: Sched<M>, step: Step<M>): Sched<M>
    requires Inv(s) && Enabled(s, step)
  {
    if Switches(s, step) then
      DispatchFindsThread(s, step);
      Dispatch(BeforeDispatch(s, step))
    else
      match step
      case Spawn => s.(table := s.table[s.nextId := Thread(Ready, [], Elsewhere)],
                       ready := s.ready + [s.nextId], nextId := s.nextId + 1)
      case Receive =>
        s.(table := s.table[s.current := s.table[s.current].(inbox := s.table[s.current].inbox[1..])])
      case Send(target, msg) => Rouse(Deliver(s, target, msg), target, false)
      case Wake(target) => Rouse(s, target, false)
      case _ => s
  }

  // ---------------------------------------------------------------- invariant

  predicate Distinct(q: seq<nat>) {
    forall i, j | 0 <= i < j < |q| :: q[i] != q[j]
  }

  /** The ready queue holds exactly the ready threads, once each. */
  predicate QueueIsReady<M>(s: Sched<M>) {
    && Distinct(s.ready)
    && (forall t | t in s.ready :: t in s.table && s.table[t].state.Ready?)
    && (forall t | t in s.table && s.table[t].state.Ready? :: t in s.ready)
  }

  /** No wakeup is lost: who waits in receive_message has nothing to receive. */
  predicate WaitersHaveNoMail<M>(s: Sched<M>) {
    forall t | t in s.table && s.table[t].state.Blocked? && s.table[t].resume.InReceive? :: s.table[t].inbox == []
  }

  predicate IdsInUse<M>(s: Sched<M>) {
    s.nextId > 0 && forall t | t in s.table :: 0 < t < s.nextId
  }

  /** Thread `running` is the only one running; 0 stands for none of the table. */
  predicate OnlyRunning<M>(s: Sched<M>, running: nat) {
    forall t | t in s.table :: s.table[t].state.Running? <==> t == running
  }

  predicate InvWith<M>(s: Sched<M>, running: nat) {
    QueueIsReady(s) && WaitersHaveNoMail(s) && IdsInUse(s) && OnlyRunning(s, running)
  }

  /** What holds in every reachable state: at most one thread runs, and it is the current one. */
  predicate Inv<M>(s: Sched<M>) {
    InvWith(s, s.current) && (s.current == 0 || s.current in s.table)
  }

  // ---------------------------------------------------------------- every step keeps it

  lemma RouseInv<M>(s: Sched<M>, running: nat, target: nat, front: bool)
    requires InvWith(s, running)
    ensures InvWith(Rouse(s, target, front), running)
  {
    var r := Rouse(s, target, front);
    if target in s.table && s.table[target].state.Blocked? {
      assert target !in s.ready;
      var k := if front then 0 else |s.ready|;
      assert r.ready[k] == target;
      forall t | t in s.ready ensures t in r.ready {
        var i :| 0 <= i < |s.ready| && s.ready[i] == t;
        assert r.ready[if front then i + 1 else i] == t;
      }
    }
  }

  /** A delivery rouses a waiting receiver in the same step, so the invariant survives both. */
  lemma MailInv<M>(s: Sched<M>, running: nat, target: nat, msg: M, front: bool)
    requires InvWith(s, running)
    ensures InvWith(Rouse(Deliver(s, target, msg), target, front), running)
  {
    hide QueueIsReady, WaitersHaveNoMail, IdsInUse, OnlyRunning;
    RouseInv(s, running, target, front);
    SameButMail(Rouse(s, target, front), Rouse(Deliver(s, target, msg), target, front), running, target);
  }

  /** The invariant looks at an inbox only while its owner is blocked. */
  lemma SameButMail<M>(r: Sched<M>, d: Sched<M>, running: nat, target: nat)
    requires InvWith(r, running)
    requires d.ready == r.ready && d.table.Keys == r.table.Keys && d.nextId == r.nextId
    requires forall t | t in d.table :: d.table[t].state == r.table[t].state && (t != target ==> d.table[t] == r.table[t])
    requires target in r.table ==> !r.table[target].state.Blocked?
    ensures InvWith(d, running)
  {
  }

  /** The running thread leaves the processor as ready and queues up at the back. */
  lemma RequeueInv<M>(s: Sched<M>, me: nat)
    requires InvWith(s, me) && me in s.table
    ensures InvWith(SetState(s, me, Ready).(ready := s.ready + [me]), 0)
  {
    assert me !in s.ready;
    assert (s.ready + [me])[|s.ready|] == me;
  }

  lemma BlockInv<M>(s: Sched<M>, resume: Resume)
    requires Inv(s) && s.current in s.table && (resume.InReceive? ==> s.table[s.current].inbox == [])
    ensures InvWith(Leave(s, Blocked, resume), 0)
  {
  }

  lemma ExitInv<M>(s: Sched<M>)
    requires Inv(s) && s.current in s.table
    ensures InvWith(s.(table := s.table - {s.current}), 0)
  {
    assert s.current !in s.ready;
  }

  lemma SpawnInv<M>(s: Sched<M>)
    requires Inv(s)
    ensures Inv(Next(s, Spawn))
  {
    var n := Next(s, Spawn);
    assert s.nextId !in s.table && s.nextId !in s.ready;
    assert n.ready[|s.ready|] == s.nextId;
  }

  lemma ReceiveInv<M>(s: Sched<M>)
    requires Inv(s) && s.current in s.table && s.table[s.current].inbox != []
    ensures Inv(Next(s, Receive))
  {
  }

  lemma BeforeDispatchInv<M>(s: Sched<M>, step: Step<M>)
    requires Inv(s) && Enabled(s, step) && Switches(s, step)
    ensures InvWith(BeforeDispatch(s, step), 0)
  {
    hide QueueIsReady, WaitersHaveNoMail, Rouse, Deliver;
    match step
    case Yield => YieldInv(s);
    case Exit => ExitInv(s);
    case BlockNow => BlockInv(s, Elsewhere);
    case Receive => BlockInv(s, InReceive);
    case SendUrgent(target, msg) => UrgentInv(s, target, msg);
    case IdleCheck =>
  }

  lemma YieldInv<M>(s: Sched<M>)
    requires Inv(s) && s.current in s.table
    ensures InvWith(BeforeDispatch(s, Yield), 0)
  {
    RequeueInv(s, s.current);
    var b, q := BeforeDispatch(s, Yield), SetState(s, s.current, Ready).(ready := s.ready + [s.current]);
    SameButResume(q, b);
  }

  /** The invariant looks at a resume point only for blocked threads. */
  lemma SameButResume<M>(q: Sched<M>, b: Sched<M>)
    requires InvWith(q, 0)
    requires b.ready == q.ready && b.nextId == q.nextId && b.table.Keys == q.table.Keys
    requires forall t | t in q.table :: b.table[t].state == q.table[t].state && b.table[t].inbox == q.table[t].inbox
                                        && (q.table[t].state.Blocked? ==> b.table[t] == q.table[t])
    ensures InvWith(b, 0)
  {
  }

  lemma UrgentInv<M>(s: Sched<M>, target: nat, msg: M)
    requires Inv(s) && s.current in s.table
    ensures InvWith(BeforeDispatch(s, SendUrgent(target, msg)), 0)
  {
    hide QueueIsReady, WaitersHaveNoMail, IdsInUse;
    MailInv(s, s.current, target, msg, true);
    var mailed := Rouse(Deliver(s, target, msg), target, true);
    RequeueInv(mailed, s.current);
    var b, q := BeforeDispatch(s, SendUrgent(target, msg)), SetState(mailed, s.current, Ready).(ready := mailed.ready + [s.current]);
    SameButResume(q, b);
  }

  lemma DispatchInv<M>(s: Sched<M>)
    requires InvWith(s, 0)
    ensures s.ready != [] ==> s.ready[0] in s.table
    ensures Inv(Dispatch(s))
  {
    assert s.ready != [] ==> s.ready[0] in s.ready;
    var d := Dispatch(s);
    if s.ready != [] {
      assert forall t | t in s.ready :: t == s.ready[0] || t in d.ready;
      assert s.ready[0] !in d.ready;
    }
  }

  /** The "Thread in ready queue not found" expectation of `schedule` never fails. */
  lemma DispatchFindsThread<M>(s: Sched<M>, step: Step<M>)
    requires Inv(s) && Enabled(s, step) && Switches(s, step)
    ensures var b := BeforeDispatch(s, step); b.ready != [] ==> b.ready[0] in b.table
  {
    BeforeDispatchInv(s, step);
    DispatchInv(BeforeDispatch(s, step));
  }

  lemma NextInv<M>(s: Sched<M>, step: Step<M>)
    requires Inv(s) && Enabled(s, step)
    ensures Inv(Next(s, step))
  {
    hide InvWith, BeforeDispatch, Dispatch, Rouse, Deliver;
    if Switches(s, step) {
      BeforeDispatchInv(s, step);
      DispatchInv(BeforeDispatch(s, step));
    } else {
      match step
      case Spawn => SpawnInv(s);
      case Receive => ReceiveInv(s);
      case Send(target, msg) => MailInv(s, s.current, target, msg, false); MailKeepsCurrent(s, target, msg);
      case Wake(target) => RouseInv(s, s.current, target, false); RouseKeepsCurrent(s, target);
      case _ =>
    }
  }

  lemma RouseKeepsCurrent<M>(s: Sched<M>, target: nat)
    ensures Rouse(s, target, false).current == s.current && Rouse(s, target, false).table.Keys == s.table.Keys
  {
  }

  lemma MailKeepsCurrent<M>(s: Sched<M>, target: nat, msg: M)
    ensures var r := Rouse(Deliver(s, target, msg), target, false);
            r.current == s.current && r.table.Keys == s.table.Keys
  {
  }

  // ---------------------------------------------------------------- runs

  /** Every step is enabled when its turn comes. */
  predicate Possible<M>(s: Sched<M>, steps: seq<Step<M>>)
    requires Inv(s)
    decreases |steps|
  {
    steps == [] || (Enabled(s, steps[0]) && (NextInv(s, steps[0]); Possible(Next(s, steps[0]), steps[1..])))
  }

  /** The state a run leads to; the invariant holds there. */
  function After<M>(s: Sched<M>, steps: seq<Step<M>>): (e: Sched<M>)
    requires Inv(s) && Possible(s, steps)
    ensures Inv(e)
    decreases |steps|
  {
    if steps == [] then s else (NextInv(s, steps[0]); After(Next(s, steps[0]), steps[1..]))
  }

  /** Start-up: nothing in the table, the idle thread current. */
  function Boot<M>(): (s: Sched<M>)
    ensures Inv(s)
  {
    Sched(map[], [], 0, 1)
  }

  // ---------------------------------------------------------------- how long a ready thread waits

  /** 1 if the step takes a thread off the ready queue. */
  function Pops<M>(s: Sched<M>, step: Step<M>): nat
    requires Enabled(s, step)
  {
    if Switches(s, step) && BeforeDispatch(s, step).ready != [] then 1 else 0
  }

  /** 1 if the step puts a thread in front of the ready queue. */
  function Fronts<M>(s: Sched<M>, step: Step<M>): nat {
    if step.SendUrgent? && step.target in s.table && s.table[step.target].state.Blocked? then 1 else 0
  }

  function CountPops<M>(s: Sched<M>, steps: seq<Step<M>>): nat
    requires Inv(s) && Possible(s, steps)
    decreases |steps|
  {
    if steps == [] then 0
    else (NextInv(s, steps[0]); Pops(s, steps[0]) + CountPops(Next(s, steps[0]), steps[1..]))
  }

  function CountFronts<M>(s: Sched<M>, steps: seq<Step<M>>): nat
    requires Inv(s) && Possible(s, steps)
    decreases |steps|
  {
    if steps == [] then 0
    else (NextInv(s, steps[0]); Fronts(s, steps[0]) + CountFronts(Next(s, steps[0]), steps[1..]))
  }

  /** The queue just before `schedule` extends the old queue at its two ends. */
  lemma QueueBefore<M>(s: Sched<M>, step: Step<M>)
    requires Inv(s) && Enabled(s, step) && Switches(s, step)
    ensures var q := BeforeDispatch(s, step).ready;
            && |s.ready| + Fronts(s, step) <= |q|
            && forall k | 0 <= k < |s.ready| :: q[k + Fronts(s, step)] == s.ready[k]
  {
    hide QueueIsReady, WaitersHaveNoMail, IdsInUse;
  }

  lemma QueueAfterQuietStep<M>(s: Sched<M>, step: Step<M>)
    requires Inv(s) && Enabled(s, step) && !Switches(s, step)
    ensures |s.ready| <= |Next(s, step).ready| && Next(s, step).ready[..|s.ready|] == s.ready && Fronts(s, step) == 0
  {
    hide QueueIsReady, WaitersHaveNoMail, IdsInUse, OnlyRunning;
  }

  /** One step moves a queued thread back by each front-enqueue and forward by each dispatch. */
  lemma PositionStep<M>(s: Sched<M>, step: Step<M>, t: nat, k: nat)
    requires Inv(s) && Enabled(s, step) && k < |s.ready| && s.ready[k] == t
    ensures var n, k' := Next(s, step), k + Fronts(s, step) - Pops(s, step);
            if k' >= 0 then k' < |n.ready| && n.ready[k'] == t
            else k == 0 && n.current == t && t !in n.ready
  {
    hide QueueIsReady, WaitersHaveNoMail, IdsInUse, OnlyRunning, Fronts, BeforeDispatch;
    if Switches(s, step) {
      QueueBefore(s, step);
      NextInv(s, step);
      PopPosition(s, step, BeforeDispatch(s, step), t, k + Fronts(s, step));
      if k + Fronts(s, step) == 0 { RunningIsNotQueued(Next(s, step)); }
    } else {
      QueueAfterQuietStep(s, step);
      assert Next(s, step).ready[..|s.ready|][k] == t;
    }
  }

  lemma PopPosition<M>(s: Sched<M>, step: Step<M>, b: Sched<M>, t: nat, j: nat)
    requires Inv(s) && Enabled(s, step) && Switches(s, step)
    requires b == BeforeDispatch(s, step) && j < |b.ready| && b.ready[j] == t
    ensures Pops(s, step) == 1
    ensures j > 0 ==> j - 1 < |Next(s, step).ready| && Next(s, step).ready[j - 1] == t
    ensures j == 0 ==> Next(s, step).current == t
  {
    hide QueueIsReady, WaitersHaveNoMail, IdsInUse, OnlyRunning, BeforeDispatch;
    DispatchFindsThread(s, step);
  }

  lemma RunningIsNotQueued<M>(s: Sched<M>)
    requires Inv(s)
    ensures s.current !in s.ready
  {
  }

  /** The thread is still waiting in the queue before each step of the run. */
  predicate QueuedThroughout<M>(s: Sched<M>, steps: seq<Step<M>>, t: nat)
    requires Inv(s) && Possible(s, steps)
    decreases |steps|
  {
    steps != [] ==> t in s.ready && (NextInv(s, steps[0]); QueuedThroughout(Next(s, steps[0]), steps[1..], t))
  }

  /** Dispatch delay is exact: a thread at position k of the ready queue runs on the (k + 1 + m)th
      dispatch and no other, m being the number of front-enqueues until then. */
  lemma {:induction false} DispatchDelay<M>(s: Sched<M>, steps: seq<Step<M>>, t: nat, k: nat)
    requires Inv(s) && Possible(s, steps) && k < |s.ready| && s.ready[k] == t
    requires QueuedThroughout(s, steps, t)
    ensures var e, d, m := After(s, steps), CountPops(s, steps), CountFronts(s, steps);
            && (t in e.ready ==> 0 <= k + m - d < |e.ready| && e.ready[k + m - d] == t)
            && (t !in e.ready ==> e.current == t)
            && (t !in e.ready <==> d == k + 1 + m)
    decreases |steps|
  {
    hide Inv, Next;
    if steps != [] {
      PositionStep(s, steps[0], t, k);
      NextInv(s, steps[0]);
      var n, k' := Next(s, steps[0]), k + Fronts(s, steps[0]) - Pops(s, steps[0]);
      if k' >= 0 {
        DispatchDelay(n, steps[1..], t, k');
      } else {
        assert steps[1..] == [];
      }
    }
  }

  /** A blocked target of an urgent send is the next thread to run. */
  lemma UrgentRunsNext<M>(s: Sched<M>, target: nat, msg: M)
    requires Inv(s) && s.current in s.table
    requires target in s.table && s.table[target].state.Blocked?
    ensures Next(s, SendUrgent(target, msg)).current == target
    ensures var me := Next(s, SendUrgent(target, msg)).table[target]; me.state.Running? && me.inbox == s.table[target].inbox + [msg]
  {
    hide QueueIsReady, WaitersHaveNoMail, IdsInUse;
    DispatchFindsThread(s, SendUrgent(target, msg));
  }

  predicate Asleep<M>(s: Sched<M>, t: nat) { t in s.table && s.table[t].state.Blocked? }

  /** Nobody but a thread itself puts it to sleep, and only in receive_message or on purpose. */
  lemma AsleepAfter<M>(s: Sched<M>, step: Step<M>, t: nat)
    requires Inv(s) && Enabled(s, step) && t in s.table && Asleep(Next(s, step), t)
    ensures if t == s.current && step.Receive? then s.table[t].inbox == [] && Next(s, step).table[t].resume.InReceive?
            else if t == s.current && step.BlockNow? then true
            else Asleep(s, t) && Next(s, step).table[t].resume == s.table[t].resume
  {
    hide QueueIsReady, WaitersHaveNoMail, IdsInUse;
    if Switches(s, step) {
      DispatchFindsThread(s, step);
    }
  }

  // ---------------------------------------------------------------- mail

  function SentTo<M>(s: Sched<M>, step: Step<M>, t: nat): seq<M> {
    if (step.Send? || step.SendUrgent?) && step.target == t && t in s.table then [step.msg] else []
  }

  function ReceivedBy<M>(s: Sched<M>, step: Step<M>, t: nat): seq<M> {
    if step.Receive? && s.current == t && t in s.table && s.table[t].inbox != [] then [s.table[t].inbox[0]] else []
  }

  lemma MailStep<M>(s: Sched<M>, step: Step<M>, t: nat)
    requires Inv(s) && Enabled(s, step) && t in s.table && t in Next(s, step).table
    ensures s.table[t].inbox + SentTo(s, step, t) == ReceivedBy(s, step, t) + Next(s, step).table[t].inbox
  {
    hide QueueIsReady, WaitersHaveNoMail, IdsInUse;
    if Switches(s, step) {
      DispatchFindsThread(s, step);
      DispatchKeepsMail(BeforeDispatch(s, step), t);
      hide Dispatch;
      BeforeDispatchMail(s, step, t);
    } else {
      QuietMail(s, step, t);
    }
  }

  lemma QuietMail<M>(s: Sched<M>, step: Step<M>, t: nat)
    requires Inv(s) && Enabled(s, step) && !Switches(s, step) && t in s.table
    ensures t in Next(s, step).table
    ensures s.table[t].inbox + SentTo(s, step, t) == ReceivedBy(s, step, t) + Next(s, step).table[t].inbox
  {
    hide QueueIsReady, WaitersHaveNoMail, OnlyRunning;
    var i, j := s.table[t].inbox, Next(s, step).table[t].inbox;
    match step
    case Receive =>
      if t == s.current { assert i == [i[0]] + i[1..]; } else { assert j == i; assert i + [] == [] + i; }
    case Send(target, _) => assert j == i + SentTo(s, step, t) == [] + (i + SentTo(s, step, t));
    case Spawn | Wake(_) | IdleCheck => assert j == i; assert i + [] == [] + i;
    case Yield | Exit | BlockNow | SendUrgent(_, _) =>
  }

  lemma DispatchKeepsMail<M>(b: Sched<M>, t: nat)
    requires b.ready != [] ==> b.ready[0] in b.table
    ensures Dispatch(b).table.Keys == b.table.Keys
    ensures t in b.table ==> Dispatch(b).table[t].inbox == b.table[t].inbox
  {
  }

  lemma BeforeDispatchMail<M>(s: Sched<M>, step: Step<M>, t: nat)
    requires Enabled(s, step) && Switches(s, step) && t in s.table && t in BeforeDispatch(s, step).table
    ensures BeforeDispatch(s, step).table[t].inbox == s.table[t].inbox + SentTo(s, step, t)
    ensures ReceivedBy(s, step, t) == []
  {
  }

  /** A thread's inbox; threads not in the table have none. */
  function Mail<M>(s: Sched<M>, t: nat): seq<M> {
    if t in s.table then s.table[t].inbox else []
  }

  /** What each step does to each inbox. */
  lemma MailAfter<M>(s: Sched<M>, step: Step<M>, t: nat)
    requires Inv(s) && Enabled(s, step)
    ensures t in Next(s, step).table <==>
              (t in s.table && !(step.Exit? && t == s.current)) || (step.Spawn? && t == s.nextId)
    ensures t in s.table && t in Next(s, step).table ==>
              Mail(Next(s, step), t) == (Mail(s, t) + SentTo(s, step, t))[|ReceivedBy(s, step, t)|..]
    ensures t !in s.table ==> Mail(Next(s, step), t) == []
  {
    hide QueueIsReady, WaitersHaveNoMail, OnlyRunning;
    TableAfter(s, step, t);
    if t in s.table && t in Next(s, step).table {
      MailStep(s, step, t);
      assert (ReceivedBy(s, step, t) + Mail(Next(s, step), t))[|ReceivedBy(s, step, t)|..] == Mail(Next(s, step), t);
    }
  }

  lemma TableAfter<M>(s: Sched<M>, step: Step<M>, t: nat)
    requires Inv(s) && Enabled(s, step)
    ensures t in Next(s, step).table <==>
              (t in s.table && !(step.Exit? && t == s.current)) || (step.Spawn? && t == s.nextId)
    ensures t !in s.table ==> Mail(Next(s, step), t) == []
  {
    hide QueueIsReady, WaitersHaveNoMail, OnlyRunning;
    if Switches(s, step) {
      DispatchFindsThread(s, step);
      DispatchKeepsMail(BeforeDispatch(s, step), t);
      hide Dispatch;
    }
  }

  function AllSentTo<M>(s: Sched<M>, steps: seq<Step<M>>, t: nat): seq<M>
    requires Inv(s) && Possible(s, steps)
    decreases |steps|
  {
    if steps == [] then []
    else (NextInv(s, steps[0]); SentTo(s, steps[0], t) + AllSentTo(Next(s, steps[0]), steps[1..], t))
  }

  function AllReceivedBy<M>(s: Sched<M>, steps: seq<Step<M>>, t: nat): seq<M>
    requires Inv(s) && Possible(s, steps)
    decreases |steps|
  {
    if steps == [] then []
    else (NextInv(s, steps[0]); ReceivedBy(s, steps[0], t) + AllReceivedBy(Next(s, steps[0]), steps[1..], t))
  }

  lemma GoneForGood<M>(s: Sched<M>, step: Step<M>, t: nat)
    requires Inv(s) && Enabled(s, step) && t !in s.table && t < s.nextId
    ensures t !in Next(s, step).table && t < Next(s, step).nextId
  {
    hide QueueIsReady, WaitersHaveNoMail, OnlyRunning;
    if Switches(s, step) {
      DispatchFindsThread(s, step);
    }
  }

  lemma {:induction false} StaysGone<M>(s: Sched<M>, steps: seq<Step<M>>, t: nat)
    requires Inv(s) && Possible(s, steps) && t !in s.table && t < s.nextId
    ensures t !in After(s, steps).table
    decreases |steps|
  {
    hide Inv, Next;
    if steps != [] {
      GoneForGood(s, steps[0], t);
      NextInv(s, steps[0]);
      StaysGone(Next(s, steps[0]), steps[1..], t);
    }
  }

  /** While its owner lives an inbox is a queue: what was in it and what was sent comes out in
      that order, nothing twice, nothing lost. */
  lemma {:induction false} MailIsFifo<M>(s: Sched<M>, steps: seq<Step<M>>, t: nat)
    requires Inv(s) && Possible(s, steps) && t in s.table && t in After(s, steps).table
    ensures s.table[t].inbox + AllSentTo(s, steps, t) == AllReceivedBy(s, steps, t) + After(s, steps).table[t].inbox
    decreases |steps|
  {
    if steps != [] {
      NextInv(s, steps[0]);
      var n := Next(s, steps[0]);
      assert t < n.nextId by { NextIdGrows(s, steps[0], t); }
      hide Inv, Next, SentTo, ReceivedBy;
      if t !in n.table { StaysGone(n, steps[1..], t); }
      MailStep(s, steps[0], t);
      MailIsFifo(n, steps[1..], t);
      Chain(s.table[t].inbox, SentTo(s, steps[0], t), ReceivedBy(s, steps[0], t), n.table[t].inbox,
            AllSentTo(n, steps[1..], t), AllReceivedBy(n, steps[1..], t), After(n, steps[1..]).table[t].inbox);
    }
  }

  lemma Chain<M>(a: seq<M>, s0: seq<M>, r0: seq<M>, b: seq<M>, s1: seq<M>, r1: seq<M>, c: seq<M>)
    requires a + s0 == r0 + b && b + s1 == r1 + c
    ensures a + (s0 + s1) == (r0 + r1) + c
  {
    assert a + (s0 + s1) == (a + s0) + s1;
    assert (r0 + b) + s1 == r0 + (b + s1);
    assert r0 + (r1 + c) == (r0 + r1) + c;
  }

  lemma NextIdGrows<M>(s: Sched<M>, step: Step<M>, t: nat)
    requires Inv(s) && Enabled(s, step) && t in s.table
    ensures t < Next(s, step).nextId
  {
    hide QueueIsReady, WaitersHaveNoMail, OnlyRunning;
    if Switches(s, step) {
      DispatchFindsThread(s, step);
    }
  }

  // ---------------------------------------------------------------- the scheduler as written

  class ThreadManager<M> {
    var threadTable: map<nat, Thread<M>>
    var readyQueue: seq<nat>
    var nextId: nat
    var current: nat

    ghost function View(): Sched<M>
      reads this
    {
      Sched(threadTable, readyQueue, current, nextId)
    }

    constructor ()
      ensures View() == Boot()
    {
      threadTable, readyQueue, nextId, current := map[], [], 1, 0;
    }

    /** `Thread::new` followed by `add`. */
    method Add() returns (id: nat)
      requires Inv(View())
      modifies this
      ensures View() == Next(old(View()), Spawn) && id == old(nextId)
    {
      id := nextId;
      nextId := nextId + 1;
      threadTable := threadTable[id := Thread(Ready, [], Elsewhere)];
      EnqueueReady(id);
    }

    method EnqueueReady(t: nat)
      modifies this`readyQueue
      ensures readyQueue == old(readyQueue) + [t]
    {
      readyQueue := readyQueue + [t];
    }

    method EnqueueReadyFront(t: nat)
      modifies this`readyQueue
      ensures readyQueue == [t] + old(readyQueue)
    {
      readyQueue := [t] + readyQueue;
    }

    method SetThreadState(t: nat, state: ThreadState)
      requires t in threadTable
      modifies this`threadTable
      ensures threadTable == old(threadTable[t := threadTable[t].(state := state)])
    {
      threadTable := threadTable[t := threadTable[t].(state := state)];
    }

    /** `schedule`, entered with no table thread running. */
    method Schedule()
      requires InvWith(View(), 0)
      modifies this
      ensures old(View()).ready != [] ==> old(View()).ready[0] in old(View()).table
      ensures View() == Dispatch(old(View())) && Inv(View())
    {
      DispatchInv(View());
      if readyQueue != [] {
        var next := readyQueue[0];
        readyQueue := readyQueue[1..];
        SetThreadState(next, Running);
        current := next;
      } else {
        current := 0;
      }
    }

    method YieldNow()
      requires Inv(View()) && current in threadTable
      modifies this
      ensures View() == Next(old(View()), Yield)
    {
      BeforeDispatchInv(View(), Yield);
      threadTable := threadTable[current := threadTable[current].(state := Ready, resume := Elsewhere)];
      EnqueueReady(current);
      Schedule();
    }

    method ExitThread()
      requires Inv(View()) && current in threadTable
      modifies this
      ensures View() == Next(old(View()), Exit)
    {
      BeforeDispatchInv(View(), Exit);
      threadTable := threadTable - {current};
      Schedule();
    }

    method Block(resume: Resume)
      requires Inv(View()) && current in threadTable && (resume.InReceive? ==> threadTable[current].inbox == [])
      modifies this
      ensures View() == Next(old(View()), if resume.InReceive? then Receive else BlockNow)
    {
      hide QueueIsReady, WaitersHaveNoMail, IdsInUse;
      BeforeDispatchInv(View(), if resume.InReceive? then Receive else BlockNow);
      threadTable := threadTable[current := threadTable[current].(state := Blocked, resume := resume)];
      Schedule();
    }

    method SendMessage(target: nat, msg: M)
      requires Inv(View())
      modifies this
      ensures View() == Next(old(View()), Send(target, msg))
    {
      if target in threadTable {
        threadTable := threadTable[target := threadTable[target].(inbox := threadTable[target].inbox + [msg])];
        if threadTable[target].state == Blocked {
          SetThreadState(target, Ready);
          EnqueueReady(target);
        }
      }
    }

    method WakeThread(target: nat)
      requires Inv(View())
      modifies this
      ensures View() == Next(old(View()), Wake(target))
    {
      if target in threadTable {
        if threadTable[target].state == Blocked {
          SetThreadState(target, Ready);
          EnqueueReady(target);
        }
      }
    }

    method SendMessageUrgent(target: nat, msg: M)
      requires Inv(View()) && current in threadTable
      modifies this
      ensures View() == Next(old(View()), SendUrgent(target, msg))
    {
      hide QueueIsReady, WaitersHaveNoMail, IdsInUse;
      BeforeDispatchInv(View(), SendUrgent(target, msg));
      threadTable := threadTable[current := threadTable[current].(state := Ready, resume := Elsewhere)];
      if target in threadTable {
        threadTable := threadTable[target := threadTable[target].(inbox := threadTable[target].inbox + [msg])];
        if threadTable[target].state == Blocked {
          SetThreadState(target, Ready);
          EnqueueReadyFront(target);
        }
      }
      EnqueueReady(current);
      Schedule();
    }

    /** One turn of the loop in `receive_message`: a message, or block until the next turn. */
    method ReceiveTurn() returns (msg: seq<M>)
      requires Inv(View()) && current in threadTable
      modifies this
      ensures View() == Next(old(View()), Receive) && msg == ReceivedBy(old(View()), Receive, old(current))
    {
      if threadTable[current].inbox != [] {
        var me := threadTable[current];
        msg := [me.inbox[0]];
        threadTable := threadTable[current := me.(inbox := me.inbox[1..])];
      } else {
        msg := [];
        Block(InReceive);
      }
    }

    method ScheduleIfReady()
      requires Inv(View()) && current == 0
      modifies this
      ensures View() == Next(old(View()), IdleCheck)
    {
      if readyQueue != [] {
        Schedule();
      }
    }
  }
}
