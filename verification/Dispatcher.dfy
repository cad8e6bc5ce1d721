/**
 The block-device dispatcher on top of the scheduler: threads that read blocks, the dispatcher
 thread with its single read in flight and its queue of pending requests, the device that raises one
 completion per started read, and the console thread that every print goes to. A print hands over the
 processor, so an error message in the middle of a turn lets all other threads run.

 `Disk` is the whole composed system. `arrived`, `answered` and `failed` only record history.
 */
module Dispatcher {

  import opened Common
  import opened Threads

  datatype BlockMessage =
    | ReadRequest(sector: nat, requester: nat)
    | ReadComplete(ok: bool)
    | ReadResponse(ok: bool)
    | Print

  datatype Request = Request(sector: nat, requester: nat)

  /** What the dispatcher holds while it prints: a read that could not be started, or one whose
      completion reports an error. */
  datatype Hand = Free | StartFailed(tid: nat) | ReadFailed(tid: nat)

  datatype Disk = Disk(
    sched: Sched<BlockMessage>,
    dispatcher: nat,
    console: Option<nat>,       // the console's writer thread, once there is one
    hand: Hand,
    inFlight: Option<nat>,      // REQUEST: who the read in flight is for
    pending: seq<Request>,
    device: Option<Request>,    // what the device was told to read, until it completes
    waiting: set<nat>,          // threads inside read_blocks
    arrived: seq<nat>,          // requesters in the order their requests were sent
    answered: seq<nat>,         // requesters in the order their responses were sent
    failed: bool)               // some start_read has failed

  // ---------------------------------------------------------------- the dispatcher thread

  /** A thread of the table runs. */
  predicate Up(d: Disk) { Inv(d.sched) && d.sched.current in d.sched.table }

  /** The same dispatcher and console. */
  predicate SameIds(d: Disk, n: Disk) { n.dispatcher == d.dispatcher && n.console == d.console }

  function Reply(d: Disk, t: nat, ok: bool): (r: Disk)
    requires Up(d)
    ensures Up(r) && SameIds(d, r)
  {
    NextInv(d.sched, Send(t, ReadResponse(ok)));
    MailKeepsCurrent(d.sched, t, ReadResponse(ok));
    d.(sched := Next(d.sched, Send(t, ReadResponse(ok))), answered := d.answered + [t])
  }

  /** kprintln: an urgent message to the console's thread, if there is one. */
  function Printed(d: Disk): (r: Disk)
    requires Up(d)
    ensures SameIds(d, r)
  {
    if d.console.None? then d else d.(sched := Next(d.sched, SendUrgent(d.console.value, Print)))
  }

  /** `issue_read`: start the device, or print with the read in hand. */
  function Issue(d: Disk, r: Request, started: bool): (n: Disk)
    requires Up(d)
    ensures SameIds(d, n)
  {
    if started then d.(inFlight := Some(r.requester), device := Some(r))
    else Printed(d.(hand := StartFailed(r.requester), failed := true))
  }

  /** Issue the next queued read, if any. */
  function IssueNext(d: Disk, started: bool): (n: Disk)
    requires Up(d)
    ensures SameIds(d, n)
  {
    if d.pending == [] then d else Issue(d.(pending := d.pending[1..]), d.pending[0], started)
  }

  /** The body of the main loop, up to a print. `started` is what start_read answers if it is called. */
  function Handle(d: Disk, msg: BlockMessage, started: bool): (n: Disk)
    requires Up(d)
    ensures SameIds(d, n)
  {
    match msg
    case ReadRequest(sector, t) =>
      if d.inFlight.Some? then d.(pending := d.pending + [Request(sector, t)])
      else Issue(d, Request(sector, t), started)
    case ReadComplete(ok) =>
      if d.inFlight.None? then Printed(d)
      else
        var x := d.(inFlight := None);
        if ok then IssueNext(Reply(x, d.inFlight.value, true), started)
        else Printed(x.(hand := ReadFailed(d.inFlight.value)))
    case ReadResponse(_) => Printed(d)
    case Print => d
  }

  /** The rest of the body, after a print: the error reply and, after a failed read, the next one. */
  function Continued(d: Disk, started: bool): (n: Disk)
    requires Up(d)
    ensures SameIds(d, n)
  {
    match d.hand
    case Free => d
    case StartFailed(t) => Reply(d.(hand := Free), t, false)
    case ReadFailed(t) => IssueNext(Reply(d.(hand := Free), t, false), started)
  }

  // ---------------------------------------------------------------- the composed system

  datatype Action =
    | Read(sector: nat)          // the running thread enters read_blocks
    | AwaitResponse              // the running thread, inside read_blocks, turns its receive loop
    | DispatcherTurn(started: bool)
    | DispatcherResume(started: bool)
    | DeviceDone(ok: bool)       // completion interrupt
    | Other(step: Step<BlockMessage>)

  /** Steps of the other threads: they print, but send and receive no block messages. The console's
      thread receives what was printed, and does not end. The dispatcher prints when it starts. */
  predicate OtherStep(d: Disk, step: Step<BlockMessage>) {
    && Enabled(d.sched, step) && !step.Send?
    && (step.Receive? ==> d.console == Some(d.sched.current))
    && (step.SendUrgent? ==> d.console == Some(step.target) && step.msg.Print? && d.sched.current !in d.waiting)
    && (step.Yield? || step.BlockNow? || step.Exit? ==> d.sched.current != d.dispatcher && d.sched.current !in d.waiting)
    && (step.Exit? ==> d.console != Some(d.sched.current))
  }

  predicate CanAct(d: Disk, a: Action) {
    match a
    case Read(_) =>
      && d.sched.current in d.sched.table && d.sched.current != d.dispatcher
      && d.sched.current !in d.waiting && d.console != Some(d.sched.current)
    case AwaitResponse => d.sched.current in d.waiting && d.sched.current in d.sched.table
    case DispatcherTurn(_) => d.sched.current == d.dispatcher && d.dispatcher in d.sched.table && d.hand.Free?
    case DispatcherResume(_) => d.sched.current == d.dispatcher && d.dispatcher in d.sched.table && !d.hand.Free?
    case DeviceDone(_) => d.device.Some?
    case Other(step) => OtherStep(d, step)
  }

  /** The state in which the running thread handles the oldest message of its inbox, or waits for one. */
  function Received(d: Disk): Disk
    requires Up(d)
  {
    d.(sched := Next(d.sched, Receive))
  }

  lemma ReceivedUp(d: Disk)
    requires Up(d) && d.sched.table[d.sched.current].inbox != []
    ensures Up(Received(d)) && Received(d).sched.current == d.sched.current
  {
    NextInv(d.sched, Receive);
    hide QueueIsReady, WaitersHaveNoMail, IdsInUse, OnlyRunning;
  }

  function Act(d: Disk, a: Action): (n: Disk)
    requires Inv(d.sched) && CanAct(d, a)
    ensures SameIds(d, n)
  {
    var me := d.sched.current;
    match a
    case Read(sector) =>
      d.(sched := Next(d.sched, SendUrgent(d.dispatcher, ReadRequest(sector, me))),
         waiting := d.waiting + {me}, arrived := d.arrived + [me])
    case AwaitResponse =>
      Received(d).(waiting := if d.sched.table[me].inbox == [] then d.waiting else d.waiting - {me})
    case DispatcherTurn(started) =>
      var inbox := d.sched.table[me].inbox;
      if inbox == [] then Received(d) else ReceivedUp(d); Handle(Received(d), inbox[0], started)
    case DispatcherResume(started) => Continued(d, started)
    case DeviceDone(ok) =>
      d.(sched := Next(d.sched, Send(d.dispatcher, ReadComplete(ok))), device := None)
    case Other(step) => d.(sched := Next(d.sched, step))
  }

  // ---------------------------------------------------------------- where a read can be

  /** Requesters named in a list of messages, in order. */
  function Requesters(msgs: seq<BlockMessage>): seq<nat> {
    if msgs == [] then []
    else (if msgs[0].ReadRequest? then [msgs[0].requester] else []) + Requesters(msgs[1..])
  }

  /** Number of completions among messages. */
  function Completions(msgs: seq<BlockMessage>): nat {
    if msgs == [] then 0 else (if msgs[0].ReadComplete? then 1 else 0) + Completions(msgs[1..])
  }

  function PendingTids(p: seq<Request>): seq<nat> {
    if p == [] then [] else [p[0].requester] + PendingTids(p[1..])
  }

  function InFlightTids(o: Option<nat>): seq<nat> {
    if o.None? then [] else [o.value]
  }

  function HandTids(h: Hand): seq<nat> {
    if h.Free? then [] else [h.tid]
  }

  /** Reads on their way through the dispatcher: in flight, pending, still in its inbox. */
  function Queue(d: Disk): seq<nat> {
    InFlightTids(d.inFlight) + PendingTids(d.pending) + Requesters(Mail(d.sched, d.dispatcher))
  }

  /** The responses that thread t has not taken yet. */
  function Replies(d: Disk, t: nat): seq<BlockMessage> {
    if t == d.dispatcher || d.console == Some(t) then [] else Mail(d.sched, t)
  }

  /** In how many places a read of thread t is: the dispatcher's queue or t's own inbox. */
  function Places(d: Disk, t: nat): nat { multiset(Queue(d))[t] + |Replies(d, t)| }

  predicate AllResponses(msgs: seq<BlockMessage>) {
    forall m | m in msgs :: m.ReadResponse?
  }

  /** Readers get responses only, the dispatcher requests and completions. */
  ghost predicate MailIsRight(d: Disk) {
    && (forall m | m in Mail(d.sched, d.dispatcher) :: m.ReadRequest? || m.ReadComplete?)
    && forall t: nat :: AllResponses(Replies(d, t))
  }

  /** One completion is owed or on its way exactly while a read is in flight. */
  predicate OneCompletion(d: Disk) {
    Completions(Mail(d.sched, d.dispatcher)) + (if d.device.Some? then 1 else 0) == if d.inFlight.Some? then 1 else 0
  }

  /** Every outstanding read is in exactly one place, every other thread's in none. `hand` is
      what the dispatcher holds in the middle of handling a message, at most one read. */
  ghost predicate EachInOnePlace(d: Disk, hand: seq<nat>) {
    forall t: nat :: Places(d, t) + multiset(hand)[t] == if t in d.waiting then 1 else 0
  }

  /** Unless a start_read has failed, reads are answered in the order they were asked for. */
  predicate InOrder(d: Disk, hand: seq<nat>) {
    d.failed || d.arrived == d.answered + hand + Queue(d)
  }

  predicate ThreadsExist(d: Disk) {
    && d.dispatcher in d.sched.table && d.dispatcher !in d.waiting
    && (forall t | t in d.waiting :: t in d.sched.table)
    && (d.console.Some? ==> d.console.value in d.sched.table && d.console.value != d.dispatcher && d.console.value !in d.waiting)
  }

  ghost predicate InvHolding(d: Disk, hand: seq<nat>) {
    Inv(d.sched) && ThreadsExist(d) && MailIsRight(d) && OneCompletion(d) && EachInOnePlace(d, hand) && InOrder(d, hand)
  }

  /** Something is pending although nothing is in flight and no read will be issued by itself. */
  predicate Stalled(d: Disk) {
    d.pending != [] && d.inFlight.None? && !d.hand.ReadFailed?
  }

  /** What holds between any two actions of any run. */
  ghost predicate DiskInv(d: Disk) {
    && InvHolding(d, HandTids(d.hand)) && (!d.hand.Free? ==> d.inFlight.None?)
    && (d.hand.StartFailed? || Stalled(d) ==> d.failed)
  }

  // ---------------------------------------------------------------- lists of messages

  lemma {:induction false} AppendMessage(msgs: seq<BlockMessage>, m: BlockMessage)
    ensures Requesters(msgs + [m]) == Requesters(msgs) + if m.ReadRequest? then [m.requester] else []
    ensures Completions(msgs + [m]) == Completions(msgs) + if m.ReadComplete? then 1 else 0
  {
    if msgs == [] {
      assert [m][1..] == [] && msgs + [m] == [m];
    } else {
      AppendMessage(msgs[1..], m);
      assert (msgs + [m])[1..] == msgs[1..] + [m];
    }
  }

  lemma {:induction false} AppendPending(p: seq<Request>, r: Request)
    ensures PendingTids(p + [r]) == PendingTids(p) + [r.requester]
  {
    if p == [] {
      assert [r][1..] == [] && p + [r] == [r];
    } else {
      AppendPending(p[1..], r);
      assert (p + [r])[1..] == p[1..] + [r];
    }
  }

  // ---------------------------------------------------------------- the invariant, action by action

  /** What the counts say about one thread. */
  lemma PlaceOf(d: Disk, hand: seq<nat>, t: nat)
    requires EachInOnePlace(d, hand)
    ensures Places(d, t) + multiset(hand)[t] == if t in d.waiting then 1 else 0
  {
  }

  /** The same reads in the same places. */
  lemma ReadsKept(d: Disk, n: Disk, hand: seq<nat>)
    requires EachInOnePlace(d, hand) && InOrder(d, hand) && Queue(n) == Queue(d)
    requires forall t: nat :: Replies(n, t) == Replies(d, t)
    requires n.waiting == d.waiting && n.arrived == d.arrived && n.answered == d.answered && (d.failed ==> n.failed)
    ensures EachInOnePlace(n, hand) && InOrder(n, hand)
  {
    hide Queue, Replies;
    forall t: nat ensures Places(n, t) + multiset(hand)[t] == if t in n.waiting then 1 else 0 {
      PlaceOf(d, hand, t);
    }
  }

  lemma MailKept(d: Disk, n: Disk)
    requires MailIsRight(d) && Mail(n.sched, n.dispatcher) == Mail(d.sched, d.dispatcher)
    requires forall t: nat :: Replies(n, t) == Replies(d, t)
    ensures MailIsRight(n)
  {
    hide Mail, Replies;
    forall t: nat ensures AllResponses(Replies(n, t)) { assert AllResponses(Replies(d, t)); }
  }

  lemma SameQueue(d: Disk, n: Disk)
    requires n.inFlight == d.inFlight && n.pending == d.pending && Mail(n.sched, n.dispatcher) == Mail(d.sched, d.dispatcher)
    ensures Queue(n) == Queue(d)
  {
  }

  /** Message m went to thread `to`, and no other inbox changed. */
  ghost predicate Posted(d: Disk, n: Disk, to: nat, m: BlockMessage) {
    && n.dispatcher == d.dispatcher && n.console == d.console
    && forall t: nat :: Mail(n.sched, t) == if t == to then Mail(d.sched, t) + [m] else Mail(d.sched, t)
  }

  lemma SendPosts(d: Disk, n: Disk, step: Step<BlockMessage>)
    requires Inv(d.sched) && (step.Send? || step.SendUrgent?) && step.target in d.sched.table
    requires step.SendUrgent? ==> d.sched.current in d.sched.table
    requires n.sched == Next(d.sched, step) && n.dispatcher == d.dispatcher && n.console == d.console
    ensures Posted(d, n, step.target, step.msg) && Inv(n.sched)
    ensures forall t: nat :: t in n.sched.table <==> t in d.sched.table
  {
    hide Inv, Next;
    NextInv(d.sched, step);
    forall t: nat
      ensures Mail(n.sched, t) == if t == step.target then Mail(d.sched, t) + [step.msg] else Mail(d.sched, t)
      ensures t in n.sched.table <==> t in d.sched.table
    {
      MailAfter(d.sched, step, t);
    }
  }

  /** A request or a completion for the dispatcher. */
  lemma PostToDispatcher(d: Disk, n: Disk, m: BlockMessage)
    requires MailIsRight(d) && Posted(d, n, d.dispatcher, m) && n.inFlight == d.inFlight && n.pending == d.pending
    requires m.ReadRequest? || m.ReadComplete?
    ensures MailIsRight(n) && Queue(n) == Queue(d) + if m.ReadRequest? then [m.requester] else []
    ensures Completions(Mail(n.sched, n.dispatcher)) == Completions(Mail(d.sched, d.dispatcher)) + if m.ReadComplete? then 1 else 0
    ensures forall t: nat :: Replies(n, t) == Replies(d, t)
  {
    hide Mail, Requesters, Completions, PendingTids;
    AppendMessage(Mail(d.sched, d.dispatcher), m);
    forall t: nat ensures Replies(n, t) == Replies(d, t) && AllResponses(Replies(n, t)) {
      assert AllResponses(Replies(d, t));
    }
    var q, r := InFlightTids(d.inFlight) + PendingTids(d.pending), Requesters(Mail(d.sched, d.dispatcher));
    if m.ReadRequest? { assert q + (r + [m.requester]) == (q + r) + [m.requester]; }
  }

  /** A response for a reader. */
  lemma PostToReader(d: Disk, n: Disk, to: nat, ok: bool)
    requires MailIsRight(d) && Posted(d, n, to, ReadResponse(ok)) && to != d.dispatcher && d.console != Some(to)
    ensures MailIsRight(n) && Mail(n.sched, n.dispatcher) == Mail(d.sched, d.dispatcher)
    ensures forall t: nat :: Replies(n, t) == if t == to then Replies(d, t) + [ReadResponse(ok)] else Replies(d, t)
  {
    hide Mail;
    forall t: nat
      ensures Replies(n, t) == if t == to then Replies(d, t) + [ReadResponse(ok)] else Replies(d, t)
      ensures AllResponses(Replies(n, t))
    {
      assert AllResponses(Replies(d, t));
    }
  }

  lemma PostToConsole(d: Disk, n: Disk, to: nat, m: BlockMessage)
    requires Posted(d, n, to, m) && to != d.dispatcher && d.console == Some(to)
    ensures Mail(n.sched, n.dispatcher) == Mail(d.sched, d.dispatcher)
    ensures forall t: nat :: Replies(n, t) == Replies(d, t)
  {
    hide Mail;
  }

  /** Nothing but the console's mail has changed. */
  lemma QuietStep(d: Disk, n: Disk, hand: seq<nat>)
    requires InvHolding(d, hand) && n == d.(sched := n.sched) && Inv(n.sched) && ThreadsExist(n)
    requires Mail(n.sched, d.dispatcher) == Mail(d.sched, d.dispatcher) && forall t: nat :: Replies(n, t) == Replies(d, t)
    ensures InvHolding(n, hand)
  {
    hide Inv, Mail, Replies, Queue, MailIsRight, EachInOnePlace, InOrder, ThreadsExist;
    MailKept(d, n);
    SameQueue(d, n);
    ReadsKept(d, n, hand);
  }

  lemma TableKept(d: Disk, n: Disk)
    requires ThreadsExist(d) && n.dispatcher == d.dispatcher && n.console == d.console && n.waiting <= d.waiting
    requires forall t: nat | t in d.sched.table :: t in n.sched.table
    ensures ThreadsExist(n)
  {
  }

  /** A print lets others run but moves no read. */
  lemma PrintKeepsInv(d: Disk, hand: seq<nat>)
    requires InvHolding(d, hand) && Up(d)
    ensures InvHolding(Printed(d), hand)
  {
    hide Inv, Next, Mail, Posted, Replies, MailIsRight, EachInOnePlace, InOrder, OneCompletion;
    if d.console.Some? {
      var n := Printed(d);
      SendPosts(d, n, SendUrgent(d.console.value, Print));
      PostToConsole(d, n, d.console.value, Print);
      TableKept(d, n);
      QuietStep(d, n, hand);
    }
  }

  lemma ReadKeepsInv(d: Disk, sector: nat)
    requires DiskInv(d) && CanAct(d, Read(sector))
    ensures DiskInv(Act(d, Read(sector)))
  {
    hide Inv, Next, Queue, Posted, MailIsRight, Mail, Replies, HandTids;
    var me, m := d.sched.current, ReadRequest(sector, d.sched.current);
    var n := Act(d, Read(sector));
    SendPosts(d, n, SendUrgent(d.dispatcher, m));
    PostToDispatcher(d, n, m);
    var h := HandTids(d.hand);
    assert d.answered + h + (Queue(d) + [me]) == (d.answered + h + Queue(d)) + [me];
    forall t: nat ensures Places(n, t) + multiset(HandTids(d.hand))[t] == if t in n.waiting then 1 else 0 {
      PlaceOf(d, h, t);
    }
  }

  lemma DeviceKeepsInv(d: Disk, ok: bool)
    requires DiskInv(d) && CanAct(d, DeviceDone(ok))
    ensures DiskInv(Act(d, DeviceDone(ok)))
  {
    hide Inv, Next, Queue, Posted, MailIsRight, Mail, Replies, HandTids, EachInOnePlace, InOrder;
    var n := Act(d, DeviceDone(ok));
    SendPosts(d, n, Send(d.dispatcher, ReadComplete(ok)));
    PostToDispatcher(d, n, ReadComplete(ok));
    ReadsKept(d, n, HandTids(d.hand));
  }

  /** Receiving by the running thread: its oldest message is gone, nothing else changed. */
  lemma ReceiveTakes(d: Disk, n: Disk)
    requires Up(d) && n.sched == Next(d.sched, Receive)
    ensures Inv(n.sched)
    ensures forall t: nat :: t in n.sched.table <==> t in d.sched.table
    ensures forall t: nat :: Mail(n.sched, t) == if t == d.sched.current && Mail(d.sched, t) != [] then Mail(d.sched, t)[1..]
                                                 else Mail(d.sched, t)
  {
    hide Inv, Next;
    NextInv(d.sched, Receive);
    forall t: nat
      ensures Mail(n.sched, t) == if t == d.sched.current && Mail(d.sched, t) != [] then Mail(d.sched, t)[1..] else Mail(d.sched, t)
      ensures t in n.sched.table <==> t in d.sched.table
    {
      MailAfter(d.sched, Receive, t);
    }
  }

  lemma TakeKeepsMail(d: Disk, n: Disk, me: nat)
    requires MailIsRight(d) && n.dispatcher == d.dispatcher && n.console == d.console
    requires forall t: nat :: Mail(n.sched, t) == if t == me && Mail(d.sched, t) != [] then Mail(d.sched, t)[1..] else Mail(d.sched, t)
    ensures MailIsRight(n)
  {
    hide Mail;
    forall t: nat ensures AllResponses(Replies(n, t)) { assert AllResponses(Replies(d, t)); }
  }

  lemma AwaitKeepsInv(d: Disk)
    requires DiskInv(d) && CanAct(d, AwaitResponse)
    ensures DiskInv(Act(d, AwaitResponse))
  {
    hide Inv, Next, MailIsRight, Mail, Queue, HandTids;
    var me, n := d.sched.current, Act(d, AwaitResponse);
    var h := HandTids(d.hand);
    ReceiveTakes(d, n);
    TakeKeepsMail(d, n, me);
    MailInTable(d, me);
    SameQueue(d, n);
    PlaceOf(d, h, me);
    forall t: nat ensures Places(n, t) + multiset(HandTids(d.hand))[t] == if t in n.waiting then 1 else 0 {
      PlaceOf(d, h, t);
    }
  }

  lemma MailInTable(d: Disk, t: nat)
    requires t in d.sched.table
    ensures Mail(d.sched, t) == d.sched.table[t].inbox
  {
  }

  lemma OtherMail(d: Disk, step: Step<BlockMessage>, t: nat)
    requires Inv(d.sched) && OtherStep(d, step)
    requires t != d.dispatcher && t !in d.waiting && d.console != Some(t) ==> Mail(d.sched, t) == []
    requires t in d.waiting || t == d.dispatcher || d.console == Some(t) ==> t in d.sched.table
    ensures d.console != Some(t) ==> Mail(Next(d.sched, step), t) == Mail(d.sched, t)
    ensures t in d.waiting || t == d.dispatcher || d.console == Some(t) ==> t in Next(d.sched, step).table
  {
    hide Inv, Next;
    MailAfter(d.sched, step, t);
  }

  lemma OtherKeepsInv(d: Disk, step: Step<BlockMessage>)
    requires DiskInv(d) && CanAct(d, Other(step))
    ensures DiskInv(Act(d, Other(step)))
  {
    hide Inv, Next, MailIsRight, Mail, OtherStep, Queue, HandTids, OneCompletion, InOrder;
    var n := Act(d, Other(step));
    assert Enabled(d.sched, step) by { OtherIsEnabled(d, step); }
    NextInv(d.sched, step);
    forall t: nat
      ensures Replies(n, t) == Replies(d, t) && (t == d.dispatcher ==> Mail(n.sched, t) == Mail(d.sched, t))
      ensures t in d.waiting || t == d.dispatcher || d.console == Some(t) ==> t in n.sched.table
    {
      PlaceOf(d, HandTids(d.hand), t);
      OtherMail(d, step, t);
    }
    hide EachInOnePlace, Replies;
    QuietStep(d, n, HandTids(d.hand));
  }

  lemma OtherIsEnabled(d: Disk, step: Step<BlockMessage>)
    requires OtherStep(d, step)
    ensures Enabled(d.sched, step)
  {
  }

  // ---------------------------------------------------------------- a turn of the dispatcher

  /** A read in hand belongs to a thread that waits for it. */
  lemma HandWaits(d: Disk, t: nat)
    requires InvHolding(d, [t])
    ensures t in d.waiting && t in d.sched.table && t != d.dispatcher && d.console != Some(t) && Replies(d, t) == []
  {
    hide Inv, MailIsRight, Mail, Queue;
    PlaceOf(d, [t], t);
  }

  /** The dispatcher's hand, and the note of a failure, are no part of the account. */
  lemma OnlyHand(d: Disk, hand: seq<nat>, h: Hand, failed: bool)
    requires InvHolding(d, hand) && (d.failed ==> failed)
    ensures InvHolding(d.(hand := h, failed := failed), hand)
  {
    hide Inv, MailIsRight, Mail, Queue, EachInOnePlace, InOrder;
    var n := d.(hand := h, failed := failed);
    SameQueue(d, n);
    assert forall t: nat :: Replies(n, t) == Replies(d, t);
    hide Replies;
    MailKept(d, n);
    ReadsKept(d, n, hand);
  }

  /** Answering the read in hand. */
  lemma ReplyKeepsInv(d: Disk, t: nat, ok: bool)
    requires InvHolding(d, [t]) && Up(d)
    ensures InvHolding(Reply(d, t, ok), [])
  {
    hide Inv, Next, MailIsRight, Posted, Mail, Queue, Replies;
    HandWaits(d, t);
    var n := Reply(d, t, ok);
    SendPosts(d, n, Send(t, ReadResponse(ok)));
    PostToReader(d, n, t, ok);
    SameQueue(d, n);
    assert d.answered + [t] + Queue(d) == n.answered + [] + Queue(n);
    forall x: nat ensures Places(n, x) + multiset([])[x] == if x in n.waiting then 1 else 0 {
      PlaceOf(d, [t], x);
    }
  }

  /** Starting the read in hand. */
  lemma StartKeepsInv(d: Disk, r: Request)
    requires InvHolding(d, [r.requester]) && d.inFlight.None?
    ensures InvHolding(d.(inFlight := Some(r.requester), device := Some(r)), [])
  {
    hide Inv, MailIsRight, Mail, Queue;
    var t, n := r.requester, d.(inFlight := Some(r.requester), device := Some(r));
    StartQueue(d, r);
    assert forall x: nat :: Replies(n, x) == Replies(d, x);
    hide Replies;
    MailKept(d, n);
    assert d.answered + [t] + Queue(d) == n.answered + [] + Queue(n);
    forall x: nat ensures Places(n, x) + multiset([])[x] == if x in n.waiting then 1 else 0 {
      PlaceOf(d, [t], x);
    }
  }

  lemma StartQueue(d: Disk, r: Request)
    requires d.inFlight.None?
    ensures Queue(d.(inFlight := Some(r.requester), device := Some(r))) == [r.requester] + Queue(d)
  {
  }

  /** Issuing the read in hand: afterwards it is in flight, or in hand while the failure is printed. */
  lemma IssueKeepsInv(d: Disk, r: Request, started: bool)
    requires InvHolding(d, [r.requester]) && Up(d) && d.inFlight.None? && d.hand.Free?
    ensures DiskInv(Issue(d, r, started))
    ensures Stalled(Issue(d, r, started)) <==> !started && d.pending != []
    ensures Issue(d, r, started).failed == (d.failed || !started)
  {
    hide Up, InvHolding, Next;
    if started {
      StartKeepsInv(d, r);
    } else {
      var n := d.(hand := StartFailed(r.requester), failed := true);
      OnlyHand(d, [r.requester], n.hand, true);
      StillUp(d, n);
      PrintKeepsInv(n, [r.requester]);
    }
  }

  lemma StillUp(d: Disk, n: Disk)
    requires Up(d) && n.sched == d.sched
    ensures Up(n)
  {
  }

  lemma QueueAfterTake(d: Disk, x: Disk, m: BlockMessage)
    requires x.inFlight == d.inFlight && x.pending == d.pending && x.dispatcher == d.dispatcher
    requires Mail(d.sched, d.dispatcher) != [] && m == Mail(d.sched, d.dispatcher)[0]
    requires Mail(x.sched, d.dispatcher) == Mail(d.sched, d.dispatcher)[1..]
    ensures Completions(Mail(d.sched, d.dispatcher))
            == Completions(Mail(x.sched, d.dispatcher)) + if m.ReadComplete? then 1 else 0
    ensures Queue(d) == InFlightTids(d.inFlight) + PendingTids(d.pending)
                        + (if m.ReadRequest? then [m.requester] else []) + Requesters(Mail(x.sched, d.dispatcher))
    ensures Queue(x) == InFlightTids(d.inFlight) + PendingTids(d.pending) + Requesters(Mail(x.sched, d.dispatcher))
    ensures !m.ReadRequest? ==>
              Queue(x) == Queue(d) && Requesters(Mail(x.sched, d.dispatcher)) == Requesters(Mail(d.sched, d.dispatcher))
  {
    hide Mail, Requesters, Completions, PendingTids, InFlightTids;
    FirstMessage(Mail(d.sched, d.dispatcher));
    Regroup(InFlightTids(d.inFlight), PendingTids(d.pending), if m.ReadRequest? then [m.requester] else [],
            Requesters(Mail(x.sched, d.dispatcher)));
  }

  lemma FirstMessage(msgs: seq<BlockMessage>)
    requires msgs != []
    ensures Requesters(msgs) == (if msgs[0].ReadRequest? then [msgs[0].requester] else []) + Requesters(msgs[1..])
    ensures Completions(msgs) == (if msgs[0].ReadComplete? then 1 else 0) + Completions(msgs[1..])
  {
  }

  lemma Regroup(f: seq<nat>, p: seq<nat>, q: seq<nat>, r: seq<nat>)
    ensures f + p + (q + r) == f + p + q + r
    ensures q == [] ==> q + r == r
  {
  }

  /** A read leaves the queue for the dispatcher's hand, the first one unless some start failed. */
  lemma HandFromQueue(d: Disk, n: Disk, t0: nat)
    requires EachInOnePlace(d, []) && InOrder(d, [])
    requires n.waiting == d.waiting && n.arrived == d.arrived && n.answered == d.answered && n.failed == d.failed
    requires multiset(Queue(d)) == multiset([t0]) + multiset(Queue(n))
    requires d.failed || Queue(d) == [t0] + Queue(n)
    requires forall t: nat :: Replies(n, t) == Replies(d, t)
    ensures EachInOnePlace(n, [t0]) && InOrder(n, [t0])
  {
    hide Replies, Queue;
    if !d.failed { OrderShift(d.answered, t0, Queue(n)); }
    forall t: nat ensures Places(n, t) + multiset([t0])[t] == if t in n.waiting then 1 else 0 {
      PlaceOf(d, [], t);
    }
  }

  lemma OrderShift(a: seq<nat>, t: nat, q: seq<nat>)
    ensures a + [] + ([t] + q) == a + [t] + q
  {
    assert a + [] == a;
    assert a + ([t] + q) == (a + [t]) + q;
  }

  lemma RequestQueue(d: Disk, x: Disk, m: BlockMessage)
    requires x.inFlight == d.inFlight && x.pending == d.pending && x.dispatcher == d.dispatcher && d.inFlight.None?
    requires Mail(d.sched, d.dispatcher) != [] && m == Mail(d.sched, d.dispatcher)[0] && m.ReadRequest?
    requires Mail(x.sched, d.dispatcher) == Mail(d.sched, d.dispatcher)[1..]
    ensures multiset(Queue(d)) == multiset([m.requester]) + multiset(Queue(x))
    ensures d.pending == [] ==> Queue(d) == [m.requester] + Queue(x)
  {
    hide Mail, Queue, Requesters, PendingTids, Completions;
    QueueAfterTake(d, x, m);
    var p, r := PendingTids(d.pending), Requesters(Mail(x.sched, d.dispatcher));
    assert [] + p == p;
    MoveToFront(p, m.requester, r);
    assert d.pending == [] ==> p == [] by { if d.pending == [] { NothingPending(); } }
  }

  lemma NothingPending()
    ensures PendingTids([]) == []
  {
  }

  lemma MoveToFront(p: seq<nat>, t: nat, r: seq<nat>)
    ensures multiset(p + [t] + r) == multiset([t]) + multiset(p + r)
    ensures p == [] ==> p + [t] + r == [t] + (p + r)
  {
  }

  /** The dispatcher, not printing, has taken the oldest message m of its inbox. */
  ghost predicate Takes(d: Disk, x: Disk, m: BlockMessage) {
    && DiskInv(d) && Up(d) && d.sched.current == d.dispatcher && d.hand.Free? && x == Received(d)
    && Mail(d.sched, d.dispatcher) != [] && m == Mail(d.sched, d.dispatcher)[0]
  }

  lemma TakenFacts(d: Disk, x: Disk, m: BlockMessage)
    requires Takes(d, x, m)
    ensures Up(x) && ThreadsExist(x) && MailIsRight(x) && EachInOnePlace(d, []) && InOrder(d, []) && OneCompletion(d)
    ensures Mail(x.sched, d.dispatcher) == Mail(d.sched, d.dispatcher)[1..]
    ensures forall t: nat :: Replies(x, t) == Replies(d, t)
    ensures m.ReadRequest? || m.ReadComplete?
  {
    hide Inv, Next, Mail, Queue, EachInOnePlace, InOrder, OneCompletion;
    MailInTable(d, d.dispatcher);
    ReceivedUp(d);
    ReceiveTakes(d, x);
    TakeKeepsMail(d, x, d.dispatcher);
    TableKept(d, x);
  }

  /** Taking a request while nothing is in flight: the read is in hand. */
  lemma RequestInHand(d: Disk, x: Disk, m: BlockMessage)
    requires Takes(d, x, m) && d.inFlight.None? && m.ReadRequest?
    ensures Up(x) && InvHolding(x, [m.requester])
  {
    hide Inv, Next, MailIsRight, Mail, Queue, EachInOnePlace, InOrder, Requesters, Completions, PendingTids, Replies, ThreadsExist;
    TakenFacts(d, x, m);
    QueueAfterTake(d, x, m);
    RequestQueue(d, x, m);
    HandFromQueue(d, x, m.requester);
  }

  lemma QueuedQueue(d: Disk, x: Disk, m: BlockMessage)
    requires x.inFlight == d.inFlight && x.pending == d.pending && x.dispatcher == d.dispatcher
    requires Mail(d.sched, d.dispatcher) != [] && m == Mail(d.sched, d.dispatcher)[0] && m.ReadRequest?
    requires Mail(x.sched, d.dispatcher) == Mail(d.sched, d.dispatcher)[1..]
    ensures Queue(x.(pending := x.pending + [Request(m.sector, m.requester)])) == Queue(d)
  {
    hide Mail, Queue;
    QueueAfterTake(d, x, m);
    AppendPending(x.pending, Request(m.sector, m.requester));
    QueueOf(x.(pending := x.pending + [Request(m.sector, m.requester)]));
    var f, p, r := InFlightTids(d.inFlight), PendingTids(d.pending), Requesters(Mail(x.sched, d.dispatcher));
    assert f + (p + [m.requester]) + r == f + p + [m.requester] + r;
  }

  lemma QueueOf(d: Disk)
    ensures Queue(d) == InFlightTids(d.inFlight) + PendingTids(d.pending) + Requesters(Mail(d.sched, d.dispatcher))
  {
  }

  /** Taking a request while a read is in flight: it moves to the end of the pending queue. */
  lemma RequestQueued(d: Disk, x: Disk, m: BlockMessage)
    requires Takes(d, x, m) && d.inFlight.Some? && m.ReadRequest?
    ensures Up(x) && DiskInv(x.(pending := x.pending + [Request(m.sector, m.requester)]))
  {
    hide Inv, Next, Mail, Queue, EachInOnePlace, InOrder, Requesters, Completions, PendingTids, ThreadsExist, MailIsRight;
    TakenFacts(d, x, m);
    QueueAfterTake(d, x, m);
    QueuedQueue(d, x, m);
    var n := x.(pending := x.pending + [Request(m.sector, m.requester)]);
    assert forall t: nat :: Replies(n, t) == Replies(x, t);
    SamePlaces(x, n);
    ReadsKept(d, n, []);
  }

  /** Thread table and mail are those of the same scheduler. */
  lemma SamePlaces(x: Disk, n: Disk)
    requires n.sched == x.sched && n.dispatcher == x.dispatcher && n.console == x.console && n.waiting == x.waiting
    requires ThreadsExist(x) && MailIsRight(x)
    ensures ThreadsExist(n) && MailIsRight(n) && forall t: nat :: Replies(n, t) == Replies(x, t)
  {
    hide Mail;
    assert forall t: nat :: Replies(n, t) == Replies(x, t);
    MailKept(x, n);
  }

  lemma CompletionQueue(d: Disk, x: Disk)
    requires d.inFlight.Some? && x.inFlight.None? && x.pending == d.pending
    requires Requesters(Mail(x.sched, x.dispatcher)) == Requesters(Mail(d.sched, d.dispatcher))
    ensures Queue(d) == [d.inFlight.value] + Queue(x)
  {
    hide Mail;
    var p, r := PendingTids(d.pending), Requesters(Mail(d.sched, d.dispatcher));
    assert [d.inFlight.value] + p + r == [d.inFlight.value] + ([] + p + r);
  }

  /** Taking a completion: a read was in flight, and now it is in hand. In particular the branch
      "ReadComplete but no pending request" is never taken. */
  lemma CompletionInHand(d: Disk, x: Disk, m: BlockMessage)
    requires Takes(d, x, m) && m.ReadComplete?
    ensures Up(x) && d.inFlight.Some? && InvHolding(x.(inFlight := None), [d.inFlight.value])
  {
    hide Inv, Next, MailIsRight, Mail, Queue, EachInOnePlace, InOrder, Requesters, Completions, PendingTids, ThreadsExist, Replies;
    TakenFacts(d, x, m);
    QueueAfterTake(d, x, m);
    var y := x.(inFlight := None);
    SamePlaces(x, y);
    CompletionQueue(d, y);
    HandFromQueue(d, y, d.inFlight.value);
  }

  lemma PendingQueue(d: Disk)
    requires d.inFlight.None? && d.pending != []
    ensures Queue(d) == [d.pending[0].requester] + Queue(d.(pending := d.pending[1..]))
  {
    hide Mail;
    var p, r := PendingTids(d.pending[1..]), Requesters(Mail(d.sched, d.dispatcher));
    assert [] + ([d.pending[0].requester] + p) + r == [d.pending[0].requester] + ([] + p + r);
  }

  /** Popping the pending queue puts its first read in hand. */
  lemma PendingInHand(d: Disk)
    requires InvHolding(d, []) && d.inFlight.None? && d.pending != []
    ensures InvHolding(d.(pending := d.pending[1..]), [d.pending[0].requester])
  {
    hide Inv, MailIsRight, Mail, Queue, EachInOnePlace, InOrder, ThreadsExist, Replies;
    var n := d.(pending := d.pending[1..]);
    PendingQueue(d);
    SamePlaces(d, n);
    HandFromQueue(d, n, d.pending[0].requester);
  }

  lemma IssueNextKeepsInv(d: Disk, started: bool)
    requires InvHolding(d, []) && Up(d) && d.inFlight.None? && d.hand.Free?
    ensures DiskInv(IssueNext(d, started))
    ensures Stalled(IssueNext(d, started)) <==> |d.pending| >= 2 && !started
    ensures d.failed || (d.pending != [] && !started) <==> IssueNext(d, started).failed
  {
    hide Up, InvHolding, Issue;
    if d.pending != [] {
      var n := d.(pending := d.pending[1..]);
      PendingInHand(d);
      StillUp(d, n);
      IssueKeepsInv(n, d.pending[0], started);
    }
  }

  lemma CompletionKeepsInv(d: Disk, x: Disk, m: BlockMessage, started: bool)
    requires Takes(d, x, m) && m.ReadComplete?
    ensures Up(x) && DiskInv(Handle(x, m, started))
    ensures Stalled(Handle(x, m, started)) <==> m.ok && |d.pending| >= 2 && !started
  {
    hide Up, Next, InvHolding, DiskInv, Printed, IssueNext;
    CompletionInHand(d, x, m);
    var t, y := d.inFlight.value, x.(inFlight := None);
    StillUp(x, y);
    if m.ok {
      ReplyKeepsInv(y, t, true);
      IssueNextKeepsInv(Reply(y, t, true), started);
    } else {
      FailureInHand(y, t);
    }
  }

  /** A failed read stays in hand while the failure is printed. */
  lemma FailureInHand(y: Disk, t: nat)
    requires InvHolding(y, [t]) && Up(y) && y.inFlight.None?
    ensures var n := y.(hand := ReadFailed(t)); Up(n) && DiskInv(Printed(n)) && !Stalled(Printed(n))
  {
    hide Up, InvHolding, Next;
    var n := y.(hand := ReadFailed(t));
    OnlyHand(y, [t], n.hand, y.failed);
    assert y.(hand := n.hand, failed := y.failed) == n;
    StillUp(y, n);
    PrintKeepsInv(n, [t]);
  }

  lemma RequestKeepsInv(d: Disk, x: Disk, m: BlockMessage, started: bool)
    requires Takes(d, x, m) && m.ReadRequest?
    ensures Up(x) && DiskInv(Handle(x, m, started))
    ensures Stalled(Handle(x, m, started)) <==> Stalled(d) && !started
  {
    hide Up, Next, InvHolding, Issue;
    if d.inFlight.Some? {
      RequestQueued(d, x, m);
    } else {
      RequestInHand(d, x, m);
      IssueKeepsInv(x, Request(m.sector, m.requester), started);
    }
  }

  /** A turn with an empty inbox: the dispatcher waits for the next message. */
  lemma EmptyTurnKeepsInv(d: Disk)
    requires DiskInv(d) && Up(d) && Mail(d.sched, d.sched.current) == []
    ensures DiskInv(Received(d))
  {
    hide Inv, Next, MailIsRight, Mail, Queue, EachInOnePlace, InOrder, HandTids;
    var x := Received(d);
    ReceiveTakes(d, x);
    TableKept(d, x);
    assert forall t: nat :: Replies(x, t) == Replies(d, t);
    hide Replies;
    QuietStep(d, x, HandTids(d.hand));
  }

  lemma TurnKeepsInv(d: Disk, started: bool)
    requires DiskInv(d) && CanAct(d, DispatcherTurn(started))
    ensures DiskInv(Act(d, DispatcherTurn(started)))
  {
    hide Next, MailIsRight, Mail, Queue, Handle, EachInOnePlace, InOrder, OneCompletion, ThreadsExist;
    MailInTable(d, d.dispatcher);
    if Mail(d.sched, d.dispatcher) == [] {
      EmptyTurnKeepsInv(d);
    } else {
      var m := Mail(d.sched, d.dispatcher)[0];
      TakenFacts(d, Received(d), m);
      if m.ReadRequest? {
        RequestKeepsInv(d, Received(d), m, started);
      } else {
        CompletionKeepsInv(d, Received(d), m, started);
      }
    }
  }

  lemma DispatcherUp(d: Disk)
    requires DiskInv(d) && d.sched.current == d.dispatcher
    ensures Up(d)
  {
  }

  lemma ResumeKeepsInv(d: Disk, started: bool)
    requires DiskInv(d) && CanAct(d, DispatcherResume(started))
    ensures Up(d) && DiskInv(Continued(d, started))
    ensures Stalled(Continued(d, started)) <==> if d.hand.StartFailed? then Stalled(d) else |d.pending| >= 2 && !started
    ensures d.failed ==> Continued(d, started).failed
  {
    hide Up, InvHolding, Next, IssueNext;
    DispatcherUp(d);
    var t, y := d.hand.tid, d.(hand := Free);
    OnlyHand(d, [t], Free, d.failed);
    assert d.(hand := Free, failed := d.failed) == y;
    StillUp(d, y);
    ReplyKeepsInv(y, t, false);
    if d.hand.ReadFailed? { IssueNextKeepsInv(Reply(y, t, false), started); }
  }

  // ---------------------------------------------------------------- every run

  lemma ActKeepsInv(d: Disk, a: Action)
    requires DiskInv(d) && CanAct(d, a)
    ensures DiskInv(Act(d, a))
  {
    hide DiskInv, Act, CanAct;
    match a
    case Read(sector) => ReadKeepsInv(d, sector);
    case AwaitResponse => AwaitKeepsInv(d);
    case DispatcherTurn(started) => TurnKeepsInv(d, started);
    case DispatcherResume(started) => ResumeActKeepsInv(d, started);
    case DeviceDone(ok) => DeviceKeepsInv(d, ok);
    case Other(step) => OtherKeepsInv(d, step);
  }

  lemma ResumeActKeepsInv(d: Disk, started: bool)
    requires DiskInv(d) && CanAct(d, DispatcherResume(started))
    ensures DiskInv(Act(d, DispatcherResume(started)))
  {
    hide Continued, DiskInv, Up;
    ResumeKeepsInv(d, started);
  }

  ghost predicate CanRun(d: Disk, acts: seq<Action>)
    requires DiskInv(d)
    decreases |acts|
  {
    acts == [] || (CanAct(d, acts[0]) && (ActKeepsInv(d, acts[0]); CanRun(Act(d, acts[0]), acts[1..])))
  }

  /** Where a run leads; every state on the way satisfies the invariant. */
  ghost function Ran(d: Disk, acts: seq<Action>): (e: Disk)
    requires DiskInv(d) && CanRun(d, acts)
    ensures DiskInv(e)
    decreases |acts|
  {
    if acts == [] then d else (ActKeepsInv(d, acts[0]); Ran(Act(d, acts[0]), acts[1..]))
  }

  predicate Starts(a: Action) { a.DispatcherTurn? || a.DispatcherResume? ==> a.started }

  /** No start_read in the run fails. */
  predicate AllStart(acts: seq<Action>) {
    forall i | 0 <= i < |acts| :: Starts(acts[i])
  }

  lemma InvOfDisk(d: Disk)
    requires DiskInv(d)
    ensures Inv(d.sched)
  {
  }

  lemma {:induction false} NoFailureInRun(d: Disk, acts: seq<Action>)
    requires DiskInv(d) && CanRun(d, acts) && !d.failed && AllStart(acts)
    ensures !Ran(d, acts).failed
    decreases |acts|
  {
    hide DiskInv, Act, CanAct, Starts;
    if acts != [] {
      ActKeepsInv(d, acts[0]);
      InvOfDisk(d);
      StartedDoesNotFail(d, acts[0]);
      NoFailureInRun(Act(d, acts[0]), acts[1..]);
    }
  }

  lemma StartedDoesNotFail(d: Disk, a: Action)
    requires Inv(d.sched) && DiskInv(d) && CanAct(d, a) && !d.failed && Starts(a)
    ensures !Act(d, a).failed
  {
    hide Inv, Next, InvHolding;
  }

  /** Where every device start succeeds, responses are sent in the order the requests arrived, and a
      request is pending only while a read is in flight or its failure is being printed. */
  lemma AnswersInArrivalOrder(d: Disk, acts: seq<Action>)
    requires DiskInv(d) && CanRun(d, acts) && !d.failed && AllStart(acts)
    ensures var e := Ran(d, acts);
            && e.answered <= e.arrived
            && e.arrived == e.answered + HandTids(e.hand) + Queue(e)
            && (e.pending != [] ==> e.inFlight.Some? || e.hand.ReadFailed?)
  {
    hide Inv, MailIsRight, EachInOnePlace, Queue, OneCompletion, HandTids;
    NoFailureInRun(d, acts);
    var e := Ran(d, acts);
    assert e.answered + HandTids(e.hand) + Queue(e) == e.answered + (HandTids(e.hand) + Queue(e));
  }

  lemma {:induction false} SameThreads(d: Disk, acts: seq<Action>)
    requires DiskInv(d) && CanRun(d, acts)
    ensures SameIds(d, Ran(d, acts))
    decreases |acts|
  {
    hide DiskInv, CanAct, Act;
    if acts != [] {
      ActKeepsInv(d, acts[0]);
      InvOfDisk(d);
      SameThreads(Act(d, acts[0]), acts[1..]);
    }
  }

  /** Whatever fails: the read of a waiting thread is in exactly one of five places (the dispatcher's
      inbox, its queue, in flight, in its hand while it prints, or answered), and a thread that does not
      wait has none. */
  lemma ReadIsInOnePlace(d: Disk, acts: seq<Action>, t: nat)
    requires DiskInv(d) && CanRun(d, acts) && t != d.dispatcher && d.console != Some(t)
    ensures var e := Ran(d, acts);
            multiset(Requesters(Mail(e.sched, e.dispatcher)))[t] + multiset(PendingTids(e.pending))[t]
            + (if e.inFlight == Some(t) then 1 else 0) + (if !e.hand.Free? && e.hand.tid == t then 1 else 0)
            + |Mail(e.sched, t)|
            == if t in e.waiting then 1 else 0
  {
    hide Inv, MailIsRight, OneCompletion, Mail;
    var e := Ran(d, acts);
    SameThreads(d, acts);
    PlaceOf(e, HandTids(e.hand), t);
  }

  /** What a thread inside read_blocks receives is a response to its read. */
  lemma ReaderGetsResponse(d: Disk)
    requires DiskInv(d) && CanAct(d, AwaitResponse) && Mail(d.sched, d.sched.current) != []
    ensures Mail(d.sched, d.sched.current)[0].ReadResponse? && |Mail(d.sched, d.sched.current)| == 1
  {
    hide Inv, Mail, Queue;
    PlaceOf(d, HandTids(d.hand), d.sched.current);
    assert AllResponses(Replies(d, d.sched.current));
  }

  // ---------------------------------------------------------------- when the queue stalls

  /** A turn of the dispatcher leaves requests pending with nothing in flight if and only if it
      handles a good completion, takes one of at least two pending requests, and fails to start it. */
  lemma TurnStallsIff(d: Disk, started: bool)
    requires DiskInv(d) && CanAct(d, DispatcherTurn(started)) && !Stalled(d)
    ensures Inv(d.sched)
    ensures var inbox := Mail(d.sched, d.dispatcher);
            Stalled(Act(d, DispatcherTurn(started)))
            <==> inbox != [] && inbox[0] == ReadComplete(true) && |d.pending| >= 2 && !started
  {
    hide Next, MailIsRight, Mail, Queue, Handle, EachInOnePlace, InOrder, OneCompletion, ThreadsExist;
    MailInTable(d, d.dispatcher);
    if Mail(d.sched, d.dispatcher) != [] {
      var m := Mail(d.sched, d.dispatcher)[0];
      TakenFacts(d, Received(d), m);
      if m.ReadRequest? {
        RequestKeepsInv(d, Received(d), m, started);
      } else {
        CompletionKeepsInv(d, Received(d), m, started);
      }
    }
  }

  /** The rest of a turn does so if and only if it has printed the failure of a read, and likewise. */
  lemma ResumeStallsIff(d: Disk, started: bool)
    requires DiskInv(d) && CanAct(d, DispatcherResume(started)) && !Stalled(d)
    ensures Inv(d.sched)
    ensures Stalled(Act(d, DispatcherResume(started))) <==> d.hand.ReadFailed? && |d.pending| >= 2 && !started
  {
    hide InvHolding, Next, Continued;
    InvOfDisk(d);
    ResumeKeepsInv(d, started);
  }

  /** Once stalled with no request on its way, nothing but a new read changes that: no completion is
      owed, and the pending requests stay unanswered. */
  lemma StallPersists(d: Disk, a: Action)
    requires DiskInv(d) && CanAct(d, a) && Stalled(d) && !a.Read?
    requires Mail(d.sched, d.dispatcher) == []
    ensures Inv(d.sched)
    ensures var n := Act(d, a);
            && Stalled(n) && n.pending == d.pending && Mail(n.sched, n.dispatcher) == []
            && n.answered == d.answered + if a.DispatcherResume? then HandTids(d.hand) else []
  {
    hide Inv, Next, MailIsRight, Queue, EachInOnePlace, Handle;
    assert Completions([]) == 0;
    match a
    case AwaitResponse => ReceiveTakes(d, Act(d, a));
    case DispatcherTurn(started) => ReceiveTakes(d, Received(d));
    case DispatcherResume(started) =>
      OnlyHand(d, [d.hand.tid], Free, d.failed);
      assert d.(hand := Free, failed := d.failed) == d.(hand := Free);
      HandWaits(d.(hand := Free), d.hand.tid);
      MailAfter(d.sched, Send(d.hand.tid, ReadResponse(false)), d.dispatcher);
    case Other(step) => OtherMail(d, step, d.dispatcher);
  }

  /** The system when the dispatcher has just been spawned. */
  function Started(s: Sched<BlockMessage>, tid: nat, console: Option<nat>): Disk {
    Disk(s, tid, console, Free, None, [], None, {}, [], [], false)
  }

  lemma StartedInv(s: Sched<BlockMessage>, console: Option<nat>)
    requires Inv(s) && (console.Some? ==> console.value in s.table) && forall t: nat | console != Some(t) :: Mail(s, t) == []
    ensures DiskInv(Started(Next(s, Spawn), s.nextId, console))
  {
    hide Inv, Next, Queue, Replies, MailIsRight, ThreadsExist, EachInOnePlace, Mail;
    var d := Started(Next(s, Spawn), s.nextId, console);
    NextInv(s, Spawn);
    StartedMail(s, console);
    NothingQueued(d);
    NoReads(d);
  }

  lemma StartedMail(s: Sched<BlockMessage>, console: Option<nat>)
    requires Inv(s) && (console.Some? ==> console.value in s.table) && forall t: nat | console != Some(t) :: Mail(s, t) == []
    ensures var d := Started(Next(s, Spawn), s.nextId, console);
            && ThreadsExist(d) && MailIsRight(d) && Mail(d.sched, d.dispatcher) == []
            && forall t: nat :: Replies(d, t) == []
  {
    var d := Started(Next(s, Spawn), s.nextId, console);
    NewIdIsNew(s);
    hide Inv, Next;
    forall t: nat ensures Replies(d, t) == [] && (t == s.nextId ==> Mail(d.sched, t) == [] && t in d.sched.table) {
      MailAfter(s, Spawn, t);
    }
    if console.Some? { MailAfter(s, Spawn, console.value); }
  }

  lemma NewIdIsNew(s: Sched<BlockMessage>)
    requires Inv(s)
    ensures s.nextId !in s.table
  {
  }

  lemma NothingQueued(d: Disk)
    requires d.inFlight.None? && d.pending == [] && Mail(d.sched, d.dispatcher) == []
    ensures Queue(d) == [] && Completions(Mail(d.sched, d.dispatcher)) == 0
  {
  }

  lemma NoReads(d: Disk)
    requires Queue(d) == [] && d.waiting == {} && forall t: nat :: Replies(d, t) == []
    ensures EachInOnePlace(d, [])
  {
    hide Queue, Replies;
  }

  // ---------------------------------------------------------------- the dispatcher as written

  class BlockDispatcher {
    const manager: ThreadManager<BlockMessage>
    const tid: nat
    const console: Option<nat>
    var hand: Hand                 // where the thread resumes after a print
    var request: Option<nat>
    var pending: seq<Request>
    var device: Option<Request>

    /** `spawn_dispatcher`, before any block message has been sent. */
    constructor (m: ThreadManager<BlockMessage>, console: Option<nat>)
      requires Inv(m.View()) && (console.Some? ==> console.value in m.View().table)
      requires forall t: nat | console != Some(t) :: Mail(m.View(), t) == []
      modifies m
      ensures manager == m && Shows(Started(m.View(), tid, console)) && DiskInv(Started(m.View(), tid, console))
    {
      hide DiskInv, Inv, Next;
      StartedInv(m.View(), console);
      var id := m.Add();
      manager, tid, this.console := m, id, console;
      hand, request, pending, device := Free, None, [], None;
    }

    /** The cells show this state of the composed system. */
    ghost predicate Shows(d: Disk)
      reads this, manager
    {
      && d.sched == manager.View() && d.dispatcher == tid && d.console == console
      && d.hand == hand && d.inFlight == request && d.pending == pending && d.device == device
    }

    method KPrintln(ghost d: Disk)
      requires Up(d) && Shows(d)
      modifies manager
      ensures Shows(Printed(d))
    {
      hide Inv, Next;
      if console.Some? {
        manager.SendMessageUrgent(console.value, Print);
      }
    }

    /** Up to the print, if there is one. */
    method IssueRead(r: Request, started: bool, ghost d: Disk)
      requires Up(d) && Shows(d)
      modifies this, manager
      ensures Shows(Issue(d, r, started))
    {
      hide Up, Printed;
      if started {
        request, device := Some(r.requester), Some(r);
      } else {
        ghost var n := d.(hand := StartFailed(r.requester), failed := true);
        StillUp(d, n);
        hand := StartFailed(r.requester);
        KPrintln(n);
      }
    }

    /** The response to the requester. */
    method SendResponse(t: nat, ok: bool, ghost d: Disk)
      requires Up(d) && Shows(d)
      modifies manager
      ensures Shows(Reply(d, t, ok))
    {
      hide Inv, Next;
      manager.SendMessage(t, ReadResponse(ok));
    }

    method IssueQueued(started: bool, ghost d: Disk)
      requires Up(d) && Shows(d)
      modifies this, manager
      ensures Shows(IssueNext(d, started))
    {
      hide Up, Issue;
      if pending != [] {
        var next := pending[0];
        ghost var n := d.(pending := d.pending[1..]);
        StillUp(d, n);
        pending := pending[1..];
        IssueRead(next, started, n);
      }
    }

    method Complete(ok: bool, started: bool, ghost d: Disk)
      requires Up(d) && Shows(d)
      modifies this, manager
      ensures Shows(Handle(d, ReadComplete(ok), started))
    {
      hide Up, IssueNext, Reply, Printed;
      var taken := request;
      request := None;
      if taken.Some? {
        ghost var x := d.(inFlight := None);
        StillUp(d, x);
        if ok {
          SendResponse(taken.value, true, x);
          IssueQueued(started, Reply(x, taken.value, true));
        } else {
          ghost var n := x.(hand := ReadFailed(taken.value));
          StillUp(x, n);
          hand := ReadFailed(taken.value);
          KPrintln(n);
        }
      } else {
        KPrintln(d);
      }
    }

    /** One turn of the main loop, up to a print. `started` is what start_read answers if it is called. */
    method MainTurn(started: bool, ghost d: Disk)
      requires DiskInv(d) && CanAct(d, DispatcherTurn(started)) && Shows(d)
      modifies this, manager
      ensures Inv(d.sched) && Shows(Act(d, DispatcherTurn(started)))
    {
      hide Inv, Next, InvHolding, Issue, IssueNext, Reply, Printed;
      DispatcherUp(d);
      if manager.threadTable[manager.current].inbox != [] { ReceivedUp(d); }
      var msg := manager.ReceiveTurn();
      if msg != [] {
        ghost var x := Received(d);
        match msg[0]
        case ReadRequest(sector, requester) =>
          if request.Some? {
            pending := pending + [Request(sector, requester)];
          } else {
            IssueRead(Request(sector, requester), started, x);
          }
        case ReadComplete(ok) => Complete(ok, started, x);
        case ReadResponse(_) => KPrintln(x);
        case Print =>
      }
    }

    /** The rest of the turn, when the dispatcher runs again after a print. */
    method ResumeTurn(started: bool, ghost d: Disk)
      requires DiskInv(d) && CanAct(d, DispatcherResume(started)) && Shows(d)
      modifies this, manager
      ensures Inv(d.sched) && Shows(Act(d, DispatcherResume(started)))
    {
      hide Inv, InvHolding, IssueNext, Reply;
      DispatcherUp(d);
      var failed := hand;
      ghost var y := d.(hand := Free);
      hand := Free;
      SendResponse(failed.tid, false, y);
      if failed.ReadFailed? {
        IssueQueued(started, Reply(y, failed.tid, false));
      }
    }
  }
}
