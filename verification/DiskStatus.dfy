/**
 What readers are told, over every run: the response to a read says ok if and only if the device was
 started on the sector asked for and completed without an error. The log that says so is kept by
 watching the readers and the device only, not the dispatcher.
 */
module DiskStatus {

  import opened Common
  import opened Dispatcher
  import opened ThreadLaws
  import opened Threads

  /** How the device finished: the sector it had been told to read, and its status. */
  datatype Finish = Finish(sector: nat, ok: bool)

  /** A thread's last read: the sector asked for, and what the device made of it. */
  datatype Fate = Fate(asked: nat, finish: Option<Finish>)

  type Log = map<nat, Fate>

  /** The log after an action: reads and completions are noted. */
  function Noted(d: Disk, a: Action, log: Log): Log {
    match a
    case Read(sector) => log[d.sched.current := Fate(sector, None)]
    case DeviceDone(ok) =>
      if d.device.Some? && d.device.value.requester in log then
        var t := d.device.value.requester;
        log[t := log[t].(finish := Some(Finish(d.device.value.sector, ok)))]
      else log
    case _ => log
  }

  /** The device has read the sector asked for, with this status. */
  predicate Finished(log: Log, t: nat, ok: bool) {
    t in log && log[t].finish == Some(Finish(log[t].asked, ok))
  }

  predicate Open(log: Log, t: nat) { t in log && log[t].finish.None? }

  // ---------------------------------------------------------------- what every place says

  predicate RequestFits(log: Log, r: Request) {
    Open(log, r.requester) && log[r.requester].asked == r.sector
  }

  predicate ReplyFits(log: Log, t: nat, ok: bool) {
    if ok then Finished(log, t, true) else Open(log, t) || Finished(log, t, false)
  }

  predicate MessageFits(log: Log, inFlight: Option<nat>, m: BlockMessage) {
    match m
    case ReadRequest(sector, t) => RequestFits(log, Request(sector, t))
    case ReadComplete(ok) => inFlight.Some? && Finished(log, inFlight.value, ok)
    case _ => true
  }

  predicate HandFits(log: Log, h: Hand) {
    match h
    case Free => true
    case StartFailed(t) => Open(log, t)
    case ReadFailed(t) => Finished(log, t, false)
  }

  predicate DeviceFits(d: Disk, log: Log) {
    d.device.Some? ==> d.inFlight == Some(d.device.value.requester) && RequestFits(log, d.device.value)
  }

  predicate InboxFits(d: Disk, log: Log) {
    forall m | m in Mail(d.sched, d.dispatcher) :: MessageFits(log, d.inFlight, m)
  }

  predicate PendingFits(d: Disk, log: Log) { forall r | r in d.pending :: RequestFits(log, r) }

  ghost predicate RepliesFit(d: Disk, log: Log) {
    forall t: nat, m | m in Replies(d, t) :: m.ReadResponse? ==> ReplyFits(log, t, m.ok)
  }

  /** Every place a read can be in agrees with the log. */
  ghost predicate LogOk(d: Disk, log: Log) {
    InboxFits(d, log) && PendingFits(d, log) && DeviceFits(d, log) && HandFits(log, d.hand) && RepliesFit(d, log)
  }

  // ---------------------------------------------------------------- who is named where

  lemma {:induction false} RequesterIsNamed(msgs: seq<BlockMessage>, m: BlockMessage)
    requires m in msgs
    ensures m.ReadRequest? ==> m.requester in Requesters(msgs)
    ensures m.ReadComplete? ==> Completions(msgs) > 0
  {
    if msgs[0] != m { RequesterIsNamed(msgs[1..], m); }
  }

  lemma {:induction false} PendingIsNamed(p: seq<Request>, r: Request)
    requires r in p
    ensures r.requester in PendingTids(p)
  {
    if p[0] != r { PendingIsNamed(p[1..], r); }
  }

  /** Thread t is named by no request, by no read in hand, and has no response waiting. */
  ghost predicate Unnamed(d: Disk, t: nat) {
    && (forall m | m in Mail(d.sched, d.dispatcher) :: m.ReadRequest? ==> m.requester != t)
    && (forall r | r in d.pending :: r.requester != t)
    && (d.hand.Free? || d.hand.tid != t) && Replies(d, t) == []
  }

  lemma CountsUnnamed(d: Disk, t: nat)
    requires multiset(PendingTids(d.pending))[t] == 0 && multiset(Requesters(Mail(d.sched, d.dispatcher)))[t] == 0
    requires multiset(HandTids(d.hand))[t] == 0 && Replies(d, t) == []
    ensures Unnamed(d, t)
  {
    hide Mail, Replies;
    forall m | m in Mail(d.sched, d.dispatcher) ensures m.ReadRequest? ==> m.requester != t {
      RequesterIsNamed(Mail(d.sched, d.dispatcher), m);
    }
    forall r | r in d.pending ensures r.requester != t { PendingIsNamed(d.pending, r); }
  }

  lemma AbsentUnnamed(d: Disk, t: nat)
    requires DiskInv(d) && t !in d.waiting
    ensures Unnamed(d, t) && d.inFlight != Some(t)
  {
    hide Inv, Mail, MailIsRight, Replies, OneCompletion, ThreadsExist, HandTids, Requesters, PendingTids;
    PlaceOf(d, HandTids(d.hand), t);
    CountsUnnamed(d, t);
  }

  lemma InFlightUnnamed(d: Disk)
    requires DiskInv(d) && d.inFlight.Some?
    ensures Unnamed(d, d.inFlight.value)
  {
    hide Inv, Mail, MailIsRight, Replies, OneCompletion, ThreadsExist, HandTids, Requesters, PendingTids;
    PlaceOf(d, HandTids(d.hand), d.inFlight.value);
    CountsUnnamed(d, d.inFlight.value);
  }

  predicate NoCompletions(d: Disk) { forall m | m in Mail(d.sched, d.dispatcher) :: !m.ReadComplete? }

  lemma NothingCompleted(d: Disk)
    requires Completions(Mail(d.sched, d.dispatcher)) == 0
    ensures NoCompletions(d)
  {
    hide Mail;
    forall m | m in Mail(d.sched, d.dispatcher) ensures !m.ReadComplete? {
      RequesterIsNamed(Mail(d.sched, d.dispatcher), m);
    }
  }

  // ---------------------------------------------------------------- steps that name nobody new

  /** All that the later state says, the earlier said. */
  lemma LessSaid(d: Disk, n: Disk, log: Log)
    requires LogOk(d, log) && n.device == d.device && n.inFlight == d.inFlight && n.hand == d.hand && n.pending == d.pending
    requires forall m | m in Mail(n.sched, n.dispatcher) :: m in Mail(d.sched, d.dispatcher)
    requires forall t: nat, m | m in Replies(n, t) :: m in Replies(d, t)
    ensures LogOk(n, log)
  {
    hide Mail, Replies, MessageFits, RequestFits, ReplyFits, HandFits;
  }

  /** Another log that says the same of everybody named. */
  lemma SameForNamed(d: Disk, log: Log, t: nat, f: Fate)
    requires LogOk(d, log) && Unnamed(d, t) && NoCompletions(d) && d.device.None?
    ensures LogOk(d, log[t := f])
  {
    hide Mail, Replies;
    forall x: nat, m | m in Replies(d, x) && m.ReadResponse? ensures ReplyFits(log[t := f], x, m.ok) {
      assert x != t;
    }
  }

  /** A print goes to the console's thread and lets others run: the console first if it slept, and the
      printing thread after all who are ready. */
  lemma PrintYields(d: Disk)
    requires Up(d)
    ensures d.console.None? ==> Printed(d) == d
    ensures d.console.Some? ==>
              var c, n := d.console.value, Printed(d);
              && n == d.(sched := n.sched) && Came(d.sched, n.sched, c, [Print])
              && Runs(n.sched, (if Asleep(d.sched, c) then [c] else []) + d.sched.ready + [d.sched.current])
  {
    hide Inv, Next, Came, Runs;
    if d.console.Some? { UrgentLaw(d.sched, d.console.value, Print); }
  }

  /** A print touches the console's inbox only. */
  lemma PrintFits(d: Disk, hand: seq<nat>, log: Log)
    requires InvHolding(d, hand) && Up(d) && LogOk(d, log)
    ensures LogOk(Printed(d), log)
  {
    hide Inv, Next, Mail, Posted, Replies, MailIsRight, EachInOnePlace, InOrder, OneCompletion, LogOk;
    if d.console.Some? {
      var n := Printed(d);
      SendPosts(d, n, SendUrgent(d.console.value, Print));
      PostToConsole(d, n, d.console.value, Print);
      LessSaid(d, n, log);
    }
  }

  // ---------------------------------------------------------------- action by action

  lemma ReadFits(d: Disk, sector: nat, log: Log)
    requires DiskInv(d) && CanAct(d, Read(sector)) && LogOk(d, log)
    ensures LogOk(Act(d, Read(sector)), Noted(d, Read(sector), log))
  {
    hide Inv, Next, Queue, Posted, MailIsRight, Mail, Replies, HandTids, EachInOnePlace, InOrder, OneCompletion;
    var me, m := d.sched.current, ReadRequest(sector, d.sched.current);
    var n, noted := Act(d, Read(sector)), log[me := Fate(sector, None)];
    AbsentUnnamed(d, me);
    SendPosts(d, n, SendUrgent(d.dispatcher, m));
    PostToDispatcher(d, n, m);
    NewMail(d, n, m);
    forall x | x in Mail(n.sched, n.dispatcher) ensures MessageFits(noted, n.inFlight, x) {
      if x != m { assert x in Mail(d.sched, d.dispatcher) && MessageFits(log, d.inFlight, x); }
    }
    forall x: nat, y | y in Replies(n, x) && y.ReadResponse? ensures ReplyFits(noted, x, y.ok) {
      assert y in Replies(d, x) && ReplyFits(log, x, y.ok) && x != me;
    }
  }

  lemma NewMail(d: Disk, n: Disk, m: BlockMessage)
    requires Posted(d, n, d.dispatcher, m)
    ensures Mail(n.sched, n.dispatcher) == Mail(d.sched, d.dispatcher) + [m]
  {
  }

  lemma DeviceDoneFits(d: Disk, ok: bool, log: Log)
    requires DiskInv(d) && CanAct(d, DeviceDone(ok)) && LogOk(d, log)
    ensures LogOk(Act(d, DeviceDone(ok)), Noted(d, DeviceDone(ok), log))
  {
    hide Inv, Next, Queue, Posted, MailIsRight, Mail, Replies, HandTids, EachInOnePlace, InOrder, Completions;
    var m, t := ReadComplete(ok), d.device.value.requester;
    var n, noted := Act(d, DeviceDone(ok)), Noted(d, DeviceDone(ok), log);
    InFlightUnnamed(d);
    NothingCompleted(d);
    SendPosts(d, n, Send(d.dispatcher, m));
    PostToDispatcher(d, n, m);
    NewMail(d, n, m);
    var idle := d.(device := None);
    LessSaidIdle(d, log);
    SameForNamed(idle, log, t, noted[t]);
    assert noted == log[t := noted[t]];
    forall x | x in Mail(n.sched, n.dispatcher) ensures MessageFits(noted, n.inFlight, x) {
      if x != m { assert x in Mail(idle.sched, idle.dispatcher) && MessageFits(noted, idle.inFlight, x); }
    }
    forall x: nat, y | y in Replies(n, x) && y.ReadResponse? ensures ReplyFits(noted, x, y.ok) {
      assert y in Replies(d, x) && Replies(idle, x) == Replies(d, x);
    }
  }

  lemma LessSaidIdle(d: Disk, log: Log)
    requires LogOk(d, log)
    ensures LogOk(d.(device := None), log) && forall t: nat :: Replies(d.(device := None), t) == Replies(d, t)
    ensures forall t: nat :: Unnamed(d, t) ==> Unnamed(d.(device := None), t)
  {
    hide Mail, MessageFits, RequestFits, ReplyFits, HandFits;
    assert forall t: nat :: Replies(d.(device := None), t) == Replies(d, t);
  }

  lemma OtherFits(d: Disk, step: Step<BlockMessage>, log: Log)
    requires DiskInv(d) && CanAct(d, Other(step)) && LogOk(d, log)
    ensures LogOk(Act(d, Other(step)), log)
  {
    hide Inv, Next, MailIsRight, Mail, OtherStep, Queue, HandTids, OneCompletion, InOrder, LogOk;
    var n := Act(d, Other(step));
    forall t: nat ensures Replies(n, t) == Replies(d, t) && (t == d.dispatcher ==> Mail(n.sched, t) == Mail(d.sched, t)) {
      PlaceOf(d, HandTids(d.hand), t);
      OtherMail(d, step, t);
    }
    hide Replies;
    LessSaid(d, n, log);
  }

  lemma ReceivedFits(d: Disk, n: Disk, log: Log)
    requires Up(d) && LogOk(d, log) && n.sched == Next(d.sched, Receive) && SameIds(d, n)
    requires n.device == d.device && n.inFlight == d.inFlight && n.hand == d.hand && n.pending == d.pending
    ensures LogOk(n, log)
  {
    hide Inv, Next, Mail, LogOk;
    ReceiveTakes(d, n);
    LessSaid(d, n, log);
  }

  // ---------------------------------------------------------------- a turn of the dispatcher

  lemma AnswerFits(d: Disk, t: nat, ok: bool, log: Log)
    requires InvHolding(d, [t]) && Up(d) && LogOk(d, log) && ReplyFits(log, t, ok)
    ensures LogOk(Reply(d, t, ok), log)
  {
    hide Inv, Next, MailIsRight, Posted, Mail, Queue, Replies, MessageFits, RequestFits, HandFits;
    HandWaits(d, t);
    var n := Reply(d, t, ok);
    SendPosts(d, n, Send(t, ReadResponse(ok)));
    PostToReader(d, n, t, ok);
    forall x: nat, m | m in Replies(n, x) && m.ReadResponse? ensures ReplyFits(log, x, m.ok) {
      if m !in Replies(d, x) { assert x == t && m == ReadResponse(ok); }
    }
  }

  /** The read in hand goes to the device, or stays in hand for its failure to be printed. */
  lemma IssueFits(d: Disk, r: Request, started: bool, log: Log)
    requires InvHolding(d, [r.requester]) && Up(d) && d.inFlight.None? && d.hand.Free?
    requires LogOk(d, log) && RequestFits(log, r)
    ensures LogOk(Issue(d, r, started), log)
  {
    hide Inv, Next, MailIsRight, Mail, Queue, EachInOnePlace, InOrder, ThreadsExist, Completions, Printed;
    NothingCompleted(d);
    if started {
      var n := d.(inFlight := Some(r.requester), device := Some(r));
      assert forall t: nat :: Replies(n, t) == Replies(d, t);
    } else {
      var n := d.(hand := StartFailed(r.requester), failed := true);
      assert forall t: nat :: Replies(n, t) == Replies(d, t);
      OnlyHand(d, [r.requester], n.hand, true);
      StillUp(d, n);
      PrintFits(n, [r.requester], log);
    }
  }

  lemma IssueNextFits(d: Disk, started: bool, log: Log)
    requires InvHolding(d, []) && Up(d) && d.inFlight.None? && d.hand.Free? && LogOk(d, log)
    ensures LogOk(IssueNext(d, started), log)
  {
    hide Up, InvHolding, Issue, RequestFits, MessageFits, Mail;
    if d.pending != [] {
      var n := d.(pending := d.pending[1..]);
      assert d.pending[0] in d.pending;
      assert forall t: nat :: Replies(n, t) == Replies(d, t);
      PendingInHand(d);
      StillUp(d, n);
      IssueFits(n, d.pending[0], started, log);
    }
  }

  /** With the completion taken, nothing is in flight. */
  lemma NoLongerInFlight(x: Disk, t: nat, log: Log)
    requires InvHolding(x.(inFlight := None), [t]) && LogOk(x, log)
    ensures LogOk(x.(inFlight := None), log)
  {
    hide Inv, MailIsRight, Mail, Queue, EachInOnePlace, InOrder, ThreadsExist, Completions, RequestFits, HandFits;
    var y := x.(inFlight := None);
    NothingCompleted(y);
    assert forall u: nat :: Replies(y, u) == Replies(x, u);
  }

  lemma CompletionFits(d: Disk, x: Disk, m: BlockMessage, started: bool, log: Log)
    requires Takes(d, x, m) && m.ReadComplete? && LogOk(x, log) && MessageFits(log, d.inFlight, m)
    ensures Up(x) && LogOk(Handle(x, m, started), log)
  {
    hide Up, Next, InvHolding, DiskInv, Printed, IssueNext, LogOk, Finished, Open;
    CompletionInHand(d, x, m);
    var t, y := d.inFlight.value, x.(inFlight := None);
    StillUp(x, y);
    NoLongerInFlight(x, t, log);
    if m.ok {
      AnswerFits(y, t, true, log);
      ReplyKeepsInv(y, t, true);
      IssueNextFits(Reply(y, t, true), started, log);
    } else {
      FailedFits(y, t, log);
    }
  }

  lemma FailedFits(y: Disk, t: nat, log: Log)
    requires InvHolding(y, [t]) && Up(y) && LogOk(y, log) && y.hand.Free? && Finished(log, t, false)
    ensures var n := y.(hand := ReadFailed(t)); Up(n) && LogOk(Printed(n), log)
  {
    hide Up, InvHolding, Next, Mail, MessageFits, RequestFits, ReplyFits, Finished, Printed;
    var n := y.(hand := ReadFailed(t));
    assert forall u: nat :: Replies(n, u) == Replies(y, u);
    OnlyHand(y, [t], n.hand, y.failed);
    assert y.(hand := n.hand, failed := y.failed) == n;
    StillUp(y, n);
    PrintFits(n, [t], log);
  }

  lemma RequestTakenFits(d: Disk, x: Disk, m: BlockMessage, started: bool, log: Log)
    requires Takes(d, x, m) && m.ReadRequest? && LogOk(x, log) && MessageFits(log, d.inFlight, m)
    ensures Up(x) && LogOk(Handle(x, m, started), log)
  {
    hide Up, Next, InvHolding, Issue, Mail, RequestFits;
    if d.inFlight.Some? {
      RequestQueued(d, x, m);
      var n := x.(pending := x.pending + [Request(m.sector, m.requester)]);
      assert forall t: nat :: Replies(n, t) == Replies(x, t);
    } else {
      RequestInHand(d, x, m);
      IssueFits(x, Request(m.sector, m.requester), started, log);
    }
  }

  lemma TurnFits(d: Disk, started: bool, log: Log)
    requires DiskInv(d) && CanAct(d, DispatcherTurn(started)) && LogOk(d, log)
    ensures LogOk(Act(d, DispatcherTurn(started)), log)
  {
    hide Next, MailIsRight, Mail, Queue, Handle, EachInOnePlace, InOrder, OneCompletion, ThreadsExist, PendingFits, DeviceFits, HandFits,
         RepliesFit, MessageFits;
    MailInTable(d, d.dispatcher);
    ReceivedFits(d, Received(d), log);
    if Mail(d.sched, d.dispatcher) != [] {
      var m := Mail(d.sched, d.dispatcher)[0];
      assert m in Mail(d.sched, d.dispatcher);
      TakenFacts(d, Received(d), m);
      if m.ReadRequest? {
        RequestTakenFits(d, Received(d), m, started, log);
      } else {
        CompletionFits(d, Received(d), m, started, log);
      }
    }
  }

  lemma ResumeFits(d: Disk, started: bool, log: Log)
    requires DiskInv(d) && CanAct(d, DispatcherResume(started)) && LogOk(d, log)
    ensures LogOk(Act(d, DispatcherResume(started)), log)
  {
    hide Up, InvHolding, Next, IssueNext, Mail, MessageFits, RequestFits, Open, Finished;
    DispatcherUp(d);
    InvOfDisk(d);
    var t, y := d.hand.tid, d.(hand := Free);
    assert forall u: nat :: Replies(y, u) == Replies(d, u);
    OnlyHand(d, [t], Free, d.failed);
    assert d.(hand := Free, failed := d.failed) == y;
    StillUp(d, y);
    AnswerFits(y, t, false, log);
    ReplyKeepsInv(y, t, false);
    if d.hand.ReadFailed? { IssueNextFits(Reply(y, t, false), started, log); }
  }

  // ---------------------------------------------------------------- every run

  lemma ActFits(d: Disk, a: Action, log: Log)
    requires DiskInv(d) && CanAct(d, a) && LogOk(d, log)
    ensures Inv(d.sched) && LogOk(Act(d, a), Noted(d, a, log))
  {
    InvOfDisk(d);
    match a
    case Read(sector) => ReadFits(d, sector, log);
    case AwaitResponse => ReceivedFits(d, Act(d, a), log);
    case DispatcherTurn(started) => TurnFits(d, started, log);
    case DispatcherResume(started) => ResumeFits(d, started, log);
    case DeviceDone(ok) => DeviceDoneFits(d, ok, log);
    case Other(step) => OtherFits(d, step, log);
  }

  /** The log that a run writes. */
  ghost function Logged(d: Disk, acts: seq<Action>, log: Log): Log
    requires DiskInv(d) && CanRun(d, acts)
    decreases |acts|
  {
    if acts == [] then log
    else ActKeepsInv(d, acts[0]); Logged(Act(d, acts[0]), acts[1..], Noted(d, acts[0], log))
  }

  lemma {:induction false} RunFits(d: Disk, acts: seq<Action>, log: Log)
    requires DiskInv(d) && CanRun(d, acts) && LogOk(d, log)
    ensures LogOk(Ran(d, acts), Logged(d, acts, log))
    decreases |acts|
  {
    hide DiskInv, Act, CanAct, LogOk, Noted;
    if acts != [] {
      ActKeepsInv(d, acts[0]);
      ActFits(d, acts[0], log);
      RunFits(Act(d, acts[0]), acts[1..], Noted(d, acts[0], log));
    }
  }

  lemma NothingSaid(s: Sched<BlockMessage>, console: Option<nat>)
    requires Inv(s) && (console.Some? ==> console.value in s.table) && forall t: nat | console != Some(t) :: Mail(s, t) == []
    ensures LogOk(Started(Next(s, Spawn), s.nextId, console), map[])
  {
    hide Inv, Next;
    StartedMail(s, console);
  }

  /** From the start of the dispatcher on, in every run: a response that waits for a reader says ok if and
      only if the device finished, without error, on the sector that the reader had asked for. */
  lemma ReadersAreToldTheTruth(s: Sched<BlockMessage>, console: Option<nat>, acts: seq<Action>, t: nat, ok: bool)
    requires Inv(s) && (console.Some? ==> console.value in s.table) && forall u: nat | console != Some(u) :: Mail(s, u) == []
    ensures DiskInv(Started(Next(s, Spawn), s.nextId, console))
    ensures var d := Started(Next(s, Spawn), s.nextId, console);
            CanRun(d, acts) && t != d.dispatcher && console != Some(t) && ReadResponse(ok) in Mail(Ran(d, acts).sched, t) ==>
              var log := Logged(d, acts, map[]);
              t in log && (ok <==> log[t].finish == Some(Finish(log[t].asked, true)))
  {
    hide Inv, Next, DiskInv, CanRun, InboxFits, PendingFits, DeviceFits, HandFits, Mail;
    StartedInv(s, console);
    NothingSaid(s, console);
    var d := Started(Next(s, Spawn), s.nextId, console);
    if CanRun(d, acts) && t != d.dispatcher && console != Some(t) && ReadResponse(ok) in Mail(Ran(d, acts).sched, t) {
      RunFits(d, acts, map[]);
      SameThreads(d, acts);
      assert ReadResponse(ok) in Replies(Ran(d, acts), t);
    }
  }
}
