/**
 What each scheduler call does to who runs, who queues, who sleeps and who has mail, on the fields of
 the state.
 */
module ThreadLaws {

  import opened Threads

  /** The front of `q` runs and the rest of it is the ready queue; the idle thread runs if there is none. */
  predicate Runs<M>(n: Sched<M>, q: seq<nat>) {
    if q == [] then n.current == 0 && n.ready == []
    else n.current == q[0] && n.ready == q[1..] && n.current in n.table && n.table[n.current].state.Running?
  }

  /** Apart from the thread that now runs, `me` is left in a state of its own and the others in theirs. */
  predicate Left<M>(s: Sched<M>, n: Sched<M>, me: nat, state: ThreadState) {
    forall t | t in n.table :: t in s.table && (t != n.current ==> n.table[t].state == if t == me then state else s.table[t].state)
  }

  /** These messages came to the end of one inbox; no other changed. */
  ghost predicate Came<M>(s: Sched<M>, n: Sched<M>, to: nat, msgs: seq<M>) {
    forall t | t in n.table && t in s.table :: n.table[t].inbox == s.table[t].inbox + if t == to then msgs else []
  }

  /** The threads there are, with their inboxes, except for some that are no longer there. */
  ghost predicate SameMail<M>(s: Sched<M>, n: Sched<M>, gone: set<nat>) {
    && n.table.Keys == s.table.Keys - gone && n.nextId == s.nextId
    && forall t | t in n.table :: n.table[t].inbox == s.table[t].inbox
  }

  /** `schedule` changes nothing but who runs. */
  lemma DispatchLaw<M>(b: Sched<M>)
    requires b.ready != [] ==> b.ready[0] in b.table
    ensures Runs(Dispatch(b), b.ready) && SameMail(b, Dispatch(b), {})
    ensures forall t | t in b.table && t != Dispatch(b).current :: Dispatch(b).table[t] == b.table[t]
    ensures forall t | t in b.table :: Dispatch(b).table[t].resume == b.table[t].resume
  {
  }

  /** A yield lets the front of the queue run and puts the running thread at its back. */
  lemma YieldLaw<M>(s: Sched<M>)
    requires Inv(s) && s.current in s.table
    ensures var n := Next(s, Yield);
            Runs(n, s.ready + [s.current]) && Left(s, n, s.current, Ready) && SameMail(s, n, {})
  {
    hide WaitersHaveNoMail, Dispatch;
    DispatchFindsThread(s, Yield);
    DispatchLaw(BeforeDispatch(s, Yield));
  }

  lemma ExitLaw<M>(s: Sched<M>)
    requires Inv(s) && s.current in s.table
    ensures var n := Next(s, Exit);
            Runs(n, s.ready) && Left(s, n, s.current, Ready) && SameMail(s, n, {s.current})
  {
    hide WaitersHaveNoMail, Dispatch;
    DispatchFindsThread(s, Exit);
    DispatchLaw(BeforeDispatch(s, Exit));
  }

  lemma CurrentIsNotQueued<M>(s: Sched<M>)
    requires Inv(s) && s.current in s.table
    ensures s.current != 0 && (s.ready != [] ==> s.ready[0] != s.current)
  {
    assert s.ready != [] ==> s.ready[0] in s.ready;
  }

  /** Blocking, on purpose or for want of mail: nobody queues up. */
  lemma BlockLaw<M>(s: Sched<M>, step: Step<M>)
    requires Inv(s) && s.current in s.table
    requires step.BlockNow? || (step.Receive? && s.table[s.current].inbox == [])
    ensures var n := Next(s, step);
            && Runs(n, s.ready) && Left(s, n, s.current, Blocked) && SameMail(s, n, {})
            && n.current != s.current && (n.table[s.current].resume.InReceive? <==> step.Receive?)
  {
    hide InvWith, Dispatch;
    DispatchFindsThread(s, step);
    var b := BeforeDispatch(s, step);
    assert b == Leave(s, Blocked, if step.Receive? then InReceive else Elsewhere);
    DispatchLaw(b);
    CurrentIsNotQueued(s);
  }

  /** Receiving with mail takes the oldest message, and nothing else happens. */
  lemma ReceiveLaw<M>(s: Sched<M>)
    requires Inv(s) && s.current in s.table && s.table[s.current].inbox != []
    ensures var n := Next(s, Receive);
            && n.ready == s.ready && n.current == s.current && n.nextId == s.nextId && n.table.Keys == s.table.Keys
            && s.table[s.current].inbox == [s.table[s.current].inbox[0]] + n.table[s.current].inbox
            && n.table[s.current].state.Running?
            && forall t | t in n.table && t != s.current :: n.table[t] == s.table[t]
  {
  }

  lemma UrgentBefore<M>(s: Sched<M>, target: nat, msg: M)
    requires Inv(s) && s.current in s.table
    ensures var b := BeforeDispatch(s, SendUrgent(target, msg));
            && b.ready == (if Asleep(s, target) then [target] else []) + s.ready + [s.current]
            && b.table.Keys == s.table.Keys && b.nextId == s.nextId && Came(s, b, target, [msg])
            && forall t | t in b.table ::
                 b.table[t].state == if t == s.current || (t == target && Asleep(s, t)) then Ready else s.table[t].state
  {
    hide QueueIsReady, WaitersHaveNoMail, IdsInUse;
  }

  /** An urgent send: a blocked target comes to the front of the queue, the sender goes to its back. */
  lemma UrgentLaw<M>(s: Sched<M>, target: nat, msg: M)
    requires Inv(s) && s.current in s.table
    ensures var n := Next(s, SendUrgent(target, msg));
            && Runs(n, (if Asleep(s, target) then [target] else []) + s.ready + [s.current])
            && Left(s, n, s.current, Ready) && Came(s, n, target, [msg])
            && n.table.Keys == s.table.Keys && n.nextId == s.nextId
  {
    hide InvWith, Dispatch, BeforeDispatch;
    DispatchFindsThread(s, SendUrgent(target, msg));
    UrgentBefore(s, target, msg);
    DispatchLaw(BeforeDispatch(s, SendUrgent(target, msg)));
  }

  /** A send or a wake: a blocked target comes to the back of the queue, and nobody stops running. */
  lemma SendLaw<M>(s: Sched<M>, step: Step<M>)
    requires Inv(s) && (step.Send? || step.Wake?)
    ensures var n := Next(s, step);
            && n.ready == s.ready + (if Asleep(s, step.target) then [step.target] else [])
            && n.current == s.current && n.table.Keys == s.table.Keys && n.nextId == s.nextId
            && Came(s, n, step.target, if step.Send? then [step.msg] else [])
            && forall t | t in n.table :: n.table[t].state == if t == step.target && Asleep(s, t) then Ready else s.table[t].state
  {
    hide QueueIsReady, WaitersHaveNoMail, IdsInUse, OnlyRunning;
  }

  /** A new thread is ready, behind all others, under a number not used before. */
  lemma SpawnLaw<M>(s: Sched<M>)
    requires Inv(s)
    ensures var n := Next(s, Spawn);
            && s.nextId !in s.table && n.ready == s.ready + [s.nextId] && n.current == s.current && n.nextId == s.nextId + 1
            && n.table.Keys == s.table.Keys + {s.nextId} && n.table[s.nextId] == Thread(Ready, [], Elsewhere)
            && forall t | t in s.table :: n.table[t] == s.table[t]
  {
  }

  /** The idle thread gives way as soon as somebody is ready. */
  lemma IdleLaw<M>(s: Sched<M>)
    requires Inv(s) && s.current == 0
    ensures var n := Next(s, IdleCheck); Runs(n, s.ready) && Left(s, n, 0, Ready) && SameMail(s, n, {})
  {
    if s.ready != [] { DispatchFindsThread(s, IdleCheck); }
  }
}
