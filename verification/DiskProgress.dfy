/**
 Reads come to an end: as long as the device can be started, every read is answered after a bounded
 number of moves, and no thread that has something to do is asleep. Where a start fails this is not
 so, and a run from the start of the system shows it.
 */
module DiskProgress {

  import opened Common
  import opened Dispatcher
  import opened Threads

  // ---------------------------------------------------------------- nobody oversleeps

  /** The dispatcher and the readers sleep only in receive_message, the dispatcher not while it prints. */
  ghost predicate Awake(d: Disk) {
    && (forall t | t == d.dispatcher || t in d.waiting :: Asleep(d.sched, t) ==> d.sched.table[t].resume.InReceive?)
    && (!d.hand.Free? ==> !Asleep(d.sched, d.dispatcher))
  }

  /** One scheduler step of an action. */
  lemma AwakeStep(d: Disk, n: Disk, step: Step<BlockMessage>)
    requires Awake(d) && Inv(d.sched) && Enabled(d.sched, step) && n.sched == Next(d.sched, step) && n.dispatcher == d.dispatcher
    requires d.dispatcher in d.sched.table && forall t | t in n.waiting :: t in d.sched.table && (t in d.waiting || t == d.sched.current)
    requires step.BlockNow? ==> d.sched.current != d.dispatcher && d.sched.current !in n.waiting
    requires !n.hand.Free? ==>
               && !Asleep(d.sched, d.dispatcher)
               && (step.Receive? && d.sched.current == d.dispatcher ==> d.sched.table[d.dispatcher].inbox != [])
    ensures Awake(n)
  {
    RunningIsAwake(d.sched);
    hide Inv, Next, Enabled;
    forall t | t == n.dispatcher || t in n.waiting
      ensures Asleep(n.sched, t) ==> n.sched.table[t].resume.InReceive? && (t == n.dispatcher ==> n.hand.Free?)
    {
      if Asleep(n.sched, t) { AsleepAfter(d.sched, step, t); }
    }
  }

  lemma RunningIsAwake(s: Sched<BlockMessage>)
    requires Inv(s)
    ensures !Asleep(s, s.current)
  {
  }

  lemma ReplyAwake(d: Disk, t: nat, ok: bool)
    requires Awake(d) && Up(d) && ThreadsExist(d)
    ensures Awake(Reply(d, t, ok)) && ThreadsExist(Reply(d, t, ok))
  {
    hide Inv, Next;
    AwakeStep(d, Reply(d, t, ok), Send(t, ReadResponse(ok)));
    forall x: nat | x in d.sched.table ensures x in Reply(d, t, ok).sched.table {
      MailAfter(d.sched, Send(t, ReadResponse(ok)), x);
    }
    TableKept(d, Reply(d, t, ok));
  }

  lemma PrintAwake(d: Disk)
    requires Awake(d) && Up(d) && ThreadsExist(d)
    ensures Awake(Printed(d))
  {
    hide Inv, Next;
    if d.console.Some? { AwakeStep(d, Printed(d), SendUrgent(d.console.value, Print)); }
  }

  /** The dispatcher runs, so it may take a read in hand. */
  lemma HandAwake(d: Disk, h: Hand, failed: bool)
    requires Awake(d) && Up(d) && ThreadsExist(d) && d.sched.current == d.dispatcher
    ensures var n := d.(hand := h, failed := failed); Awake(n) && Up(n) && ThreadsExist(n)
  {
    RunningIsAwake(d.sched);
  }

  lemma IssueAwake(d: Disk, r: Request, started: bool)
    requires Awake(d) && Up(d) && ThreadsExist(d) && d.sched.current == d.dispatcher
    ensures Awake(Issue(d, r, started))
  {
    if !started {
      hide Inv, Awake, Printed;
      HandAwake(d, StartFailed(r.requester), true);
      PrintAwake(d.(hand := StartFailed(r.requester), failed := true));
    }
  }

  lemma IssueNextAwake(d: Disk, started: bool)
    requires Awake(d) && Up(d) && ThreadsExist(d) && d.sched.current == d.dispatcher
    ensures Awake(IssueNext(d, started))
  {
    hide Inv, Issue;
    if d.pending != [] { IssueAwake(d.(pending := d.pending[1..]), d.pending[0], started); }
  }

  lemma ReplyRuns(d: Disk, t: nat, ok: bool)
    requires Up(d)
    ensures Reply(d, t, ok).sched.current == d.sched.current
  {
    MailKeepsCurrent(d.sched, t, ReadResponse(ok));
    hide Inv;
  }

  lemma HandleAwake(d: Disk, m: BlockMessage, started: bool)
    requires Awake(d) && Up(d) && ThreadsExist(d) && d.sched.current == d.dispatcher
    ensures Awake(Handle(d, m, started))
  {
    hide Inv, Next, Issue, IssueNext, Reply, Printed;
    if m.ReadRequest? && d.inFlight.None? {
      IssueAwake(d, Request(m.sector, m.requester), started);
    } else if m.ReadComplete? && d.inFlight.Some? {
      var x, t := d.(inFlight := None), d.inFlight.value;
      if m.ok {
        ReplyAwake(x, t, true);
        ReplyRuns(x, t, true);
        IssueNextAwake(Reply(x, t, true), started);
      } else {
        HandAwake(x, ReadFailed(t), d.failed);
        assert x.(hand := ReadFailed(t), failed := d.failed) == x.(hand := ReadFailed(t));
        PrintAwake(x.(hand := ReadFailed(t)));
      }
    } else {
      PrintAwake(d);
    }
  }

  lemma TurnAwake(d: Disk, started: bool)
    requires Awake(d) && DiskInv(d) && CanAct(d, DispatcherTurn(started))
    ensures Inv(d.sched) && Awake(Act(d, DispatcherTurn(started)))
  {
    hide InvHolding, Next, Awake, Handle, ThreadsExist, Up;
    DispatcherUp(d);
    var inbox := d.sched.table[d.dispatcher].inbox;
    ReceivedAwake(d);
    if inbox != [] {
      ReceivedUp(d);
      HandleAwake(Received(d), inbox[0], started);
    }
  }

  lemma ReceivedAwake(d: Disk)
    requires Awake(d) && DiskInv(d) && Up(d) && (d.sched.current == d.dispatcher ==> d.hand.Free?)
    ensures Awake(Received(d)) && ThreadsExist(Received(d))
  {
    hide Inv, Next, Awake, MailIsRight, OneCompletion, EachInOnePlace, InOrder;
    if !d.hand.Free? { HandIsAwake(d); }
    AwakeStep(d, Received(d), Receive);
    ReceiveTakes(d, Received(d));
    TableKept(d, Received(d));
  }

  lemma HandIsAwake(d: Disk)
    requires Awake(d) && !d.hand.Free?
    ensures !Asleep(d.sched, d.dispatcher)
  {
  }

  lemma ResumeAwake(d: Disk, started: bool)
    requires Awake(d) && DiskInv(d) && CanAct(d, DispatcherResume(started))
    ensures Up(d) && Awake(Continued(d, started))
  {
    hide Inv, Next, MailIsRight, OneCompletion, EachInOnePlace, InOrder, IssueNext, Reply;
    DispatcherUp(d);
    var y, t := d.(hand := Free), d.hand.tid;
    ReplyAwake(y, t, false);
    ReplyRuns(y, t, false);
    if d.hand.ReadFailed? { IssueNextAwake(Reply(y, t, false), started); }
  }

  lemma ActAwake(d: Disk, a: Action)
    requires Awake(d) && DiskInv(d) && CanAct(d, a)
    ensures Inv(d.sched) && Awake(Act(d, a))
  {
    hide Inv, Next, MailIsRight, OneCompletion, EachInOnePlace, InOrder, Continued, Handle;
    match a
    case Read(sector) => AwakeStep(d, Act(d, a), SendUrgent(d.dispatcher, ReadRequest(sector, d.sched.current)));
    case AwaitResponse => ReceivedAwake(d);
    case DispatcherTurn(started) => TurnAwake(d, started);
    case DispatcherResume(started) => ResumeAwake(d, started);
    case DeviceDone(ok) => AwakeStep(d, Act(d, a), Send(d.dispatcher, ReadComplete(ok)));
    case Other(step) => AwakeStep(d, Act(d, a), step);
  }

  // ---------------------------------------------------------------- how far the reads are

  /** Each read by how many moves it is from its answer at most: its request in the dispatcher's inbox,
      pending, in flight, completed, failed and in hand. */
  function Potential(d: Disk): nat {
    5 * |Requesters(Mail(d.sched, d.dispatcher))| + 4 * |d.pending|
    + (if d.inFlight.None? then 0 else if d.device.Some? then 3 else 2) + (if d.hand.Free? then 0 else 1)
  }

  /** The actions that bring reads forward: the device completes, or the dispatcher handles a message or
      goes on after a print. */
  predicate Move(d: Disk, a: Action) {
    a.DeviceDone? || a.DispatcherResume? || (a.DispatcherTurn? && Mail(d.sched, d.dispatcher) != [])
  }

  lemma SamePotential(d: Disk, n: Disk)
    requires Mail(n.sched, n.dispatcher) == Mail(d.sched, d.dispatcher)
    requires n.pending == d.pending && n.inFlight == d.inFlight && n.device.Some? == d.device.Some? && n.hand == d.hand
    ensures Potential(n) == Potential(d)
  {
  }

  /** Answering the read t touches only its reader's inbox. */
  lemma ReplyMail(d: Disk, t: nat, ok: bool)
    requires InvHolding(d, [t]) && Up(d)
    ensures Mail(Reply(d, t, ok).sched, d.dispatcher) == Mail(d.sched, d.dispatcher)
  {
    hide Inv, Next, Mail, Posted, Replies;
    HandWaits(d, t);
    SendPosts(d, Reply(d, t, ok), Send(t, ReadResponse(ok)));
    PostToReader(d, Reply(d, t, ok), t, ok);
  }

  lemma PrintMail(d: Disk)
    requires Up(d) && ThreadsExist(d)
    ensures Mail(Printed(d).sched, d.dispatcher) == Mail(d.sched, d.dispatcher)
  {
    hide Inv, Next, Mail, Posted;
    if d.console.Some? {
      SendPosts(d, Printed(d), SendUrgent(d.console.value, Print));
      PostToConsole(d, Printed(d), d.console.value, Print);
    }
  }

  /** The next pending read is started. */
  lemma NextStarts(d: Disk)
    requires Up(d) && d.inFlight.None? && d.device.None?
    ensures Potential(IssueNext(d, true)) <= Potential(d)
  {
    hide Up, Mail;
  }

  lemma MessageDrops(d: Disk, x: Disk, m: BlockMessage)
    requires Takes(d, x, m)
    ensures Up(x) && Potential(Handle(x, m, true)) < Potential(d)
  {
    hide Up, InvHolding, Next, Mail, Replies, MailIsRight, IssueNext, Reply, Printed, Requesters, Completions, EachInOnePlace, InOrder;
    TakenFacts(d, x, m);
    FirstMessage(Mail(d.sched, d.dispatcher));
    if m.ReadComplete? {
      CompletionInHand(d, x, m);
      StillUp(x, x.(inFlight := None));
      CompletionDrops(x.(inFlight := None), d.inFlight.value, m.ok);
      NotBusyAfter(d, m);
    }
  }

  /** A completion in the inbox is the only one there is. */
  lemma NotBusyAfter(d: Disk, m: BlockMessage)
    requires OneCompletion(d) && Mail(d.sched, d.dispatcher) != [] && m == Mail(d.sched, d.dispatcher)[0] && m.ReadComplete?
    ensures d.device.None?
  {
    FirstMessage(Mail(d.sched, d.dispatcher));
  }

  lemma CompletionDrops(y: Disk, t: nat, ok: bool)
    requires InvHolding(y, [t]) && Up(y) && y.inFlight.None? && y.hand.Free?
    ensures ok ==> Potential(IssueNext(Reply(y, t, true), true)) <= Potential(y)
    ensures !ok ==> Up(y.(hand := ReadFailed(t))) && Potential(Printed(y.(hand := ReadFailed(t)))) == Potential(y) + 1
  {
    NotBusyIdle(y, [t]);
    HoldingThreads(y, [t]);
    hide InvHolding, Next, Mail, IssueNext, ThreadsExist, Up;
    if ok {
      ReplyMail(y, t, true);
      NextStarts(Reply(y, t, true));
      AnswerPotential(y, t, true);
    } else {
      var n := y.(hand := ReadFailed(t));
      StillUp(y, n);
      ThreadsOf(y, n);
      PrintMail(n);
    }
  }

  lemma HoldingThreads(d: Disk, hand: seq<nat>)
    requires InvHolding(d, hand)
    ensures ThreadsExist(d)
  {
  }

  lemma ThreadsOf(d: Disk, n: Disk)
    requires ThreadsExist(d) && n == d.(hand := n.hand)
    ensures ThreadsExist(n)
  {
  }

  lemma NotBusyIdle(d: Disk, hand: seq<nat>)
    requires InvHolding(d, hand) && d.inFlight.None?
    ensures d.device.None?
  {
  }

  lemma AnswerPotential(d: Disk, t: nat, ok: bool)
    requires Up(d) && Mail(Reply(d, t, ok).sched, d.dispatcher) == Mail(d.sched, d.dispatcher)
    ensures Potential(Reply(d, t, ok)) == Potential(d)
  {
    hide Inv, Next, Mail;
  }

  lemma ResumeDrops(d: Disk)
    requires DiskInv(d) && CanAct(d, DispatcherResume(true))
    ensures Up(d) && Potential(Continued(d, true)) < Potential(d)
  {
    hide InvHolding, Next, Mail, IssueNext, Reply, Up;
    DispatcherUp(d);
    var y, t := d.(hand := Free), d.hand.tid;
    OnlyHand(d, [t], Free, d.failed);
    assert d.(hand := Free, failed := d.failed) == y;
    StillUp(d, y);
    ReplyMail(y, t, false);
    AnswerPotential(y, t, false);
    NotBusyIdle(y, [t]);
    if d.hand.ReadFailed? {
      ReplyFields(y, t, false);
      NextStarts(Reply(y, t, false));
    }
  }

  lemma ReplyFields(d: Disk, t: nat, ok: bool)
    requires Up(d)
    ensures var r := Reply(d, t, ok); r.inFlight == d.inFlight && r.device.Some? == d.device.Some?
  {
    hide Inv, Next;
  }

  /** Every move brings the reads nearer to their answers, and nothing but a new read sets them back. */
  lemma MoveDrops(d: Disk, a: Action)
    requires DiskInv(d) && CanAct(d, a) && Starts(a) && !a.Read?
    ensures Inv(d.sched)
    ensures Potential(Act(d, a)) <= Potential(d)
    ensures Move(d, a) ==> Potential(Act(d, a)) < Potential(d)
  {
    hide Next, Mail, Handle, Continued, MailIsRight, EachInOnePlace, InOrder, Potential, Requesters, Completions, HandTids;
    match a
    case AwaitResponse =>
      ReceiveTakes(d, Act(d, a));
      SamePotential(d, Act(d, a));
    case DispatcherTurn(_) =>
      MailInTable(d, d.dispatcher);
      if Mail(d.sched, d.dispatcher) == [] {
        ReceiveTakes(d, Received(d));
        SamePotential(d, Act(d, a));
      } else {
        MessageDrops(d, Received(d), Mail(d.sched, d.dispatcher)[0]);
      }
    case DispatcherResume(_) => ResumeDrops(d);
    case DeviceDone(ok) => DeviceDrops(d, ok);
    case Other(step) =>
      OtherMail(d, step, d.dispatcher);
      SamePotential(d, Act(d, a));
  }

  lemma DeviceDrops(d: Disk, ok: bool)
    requires DiskInv(d) && d.device.Some?
    ensures Inv(d.sched) && Potential(Act(d, DeviceDone(ok))) < Potential(d)
  {
    hide Inv, Next, Mail, Posted, Replies, MailIsRight, EachInOnePlace, InOrder, Requesters, Completions;
    var n := Act(d, DeviceDone(ok));
    SendPosts(d, n, Send(d.dispatcher, ReadComplete(ok)));
    DispatcherPost(d, n, ReadComplete(ok));
    AppendMessage(Mail(d.sched, d.dispatcher), ReadComplete(ok));
    assert Requesters(Mail(d.sched, d.dispatcher)) + [] == Requesters(Mail(d.sched, d.dispatcher));
  }

  lemma DispatcherPost(d: Disk, n: Disk, m: BlockMessage)
    requires Posted(d, n, d.dispatcher, m)
    ensures Mail(n.sched, n.dispatcher) == Mail(d.sched, d.dispatcher) + [m]
  {
  }

  // ---------------------------------------------------------------- the end of every run

  ghost function Moves(d: Disk, acts: seq<Action>): nat
    requires DiskInv(d) && CanRun(d, acts)
    decreases |acts|
  {
    if acts == [] then 0
    else
      ActKeepsInv(d, acts[0]);
      (if Move(d, acts[0]) then 1 else 0) + Moves(Act(d, acts[0]), acts[1..])
  }

  /** A move is still to come: the device owes a completion, or the dispatcher, awake, has something to do. */
  predicate Due(d: Disk) {
    d.device.Some? || ((Mail(d.sched, d.dispatcher) != [] || !d.hand.Free?) && !Asleep(d.sched, d.dispatcher))
  }

  /** Every waiting thread has its one response, and is awake to take it. */
  predicate AllAnswered(d: Disk) {
    forall t | t in d.waiting :: |Mail(d.sched, t)| == 1 && Mail(d.sched, t)[0].ReadResponse? && !Asleep(d.sched, t)
  }

  /** Then nothing stands in its way: the device is free to complete, or the dispatcher runs or is queued. */
  lemma DueCanMove(d: Disk)
    requires DiskInv(d) && Due(d)
    ensures || CanAct(d, DeviceDone(true))
            || (CanAct(d, DispatcherTurn(true)) && Move(d, DispatcherTurn(true)))
            || (CanAct(d, DispatcherResume(true)) && Move(d, DispatcherResume(true)))
            || d.dispatcher in d.sched.ready
  {
    hide MailIsRight, EachInOnePlace, InOrder, OneCompletion, WaitersHaveNoMail, IdsInUse;
  }

  /** Only when every read is answered is nothing left to do. */
  lemma QuietMeansAnswered(d: Disk)
    requires DiskInv(d) && Awake(d) && !d.failed && !Due(d)
    ensures AllAnswered(d)
  {
    QuietMail(d);
    NoMailNothingQueued(d);
    hide Inv, Mail, Queue, OneCompletion, InOrder;
    forall t | t in d.waiting ensures |Mail(d.sched, t)| == 1 && Mail(d.sched, t)[0].ReadResponse? && !Asleep(d.sched, t) {
      PlaceOf(d, HandTids(d.hand), t);
      assert AllResponses(Replies(d, t));
      MailInTable(d, t);
      AwakeWithMail(d, t);
    }
  }

  /** Nobody sleeps in receive_message over mail. */
  lemma AwakeWithMail(d: Disk, t: nat)
    requires Inv(d.sched) && Awake(d) && (t == d.dispatcher || t in d.waiting) && Mail(d.sched, t) != []
    ensures !Asleep(d.sched, t)
  {
  }

  lemma QuietMail(d: Disk)
    requires DiskInv(d) && Awake(d) && !Due(d)
    ensures Mail(d.sched, d.dispatcher) == [] && d.hand.Free? && d.device.None?
  {
    hide MailIsRight, EachInOnePlace, InOrder, OneCompletion, QueueIsReady, IdsInUse, OnlyRunning;
    if Mail(d.sched, d.dispatcher) != [] { AwakeWithMail(d, d.dispatcher); }
  }

  lemma NoMailNothingQueued(d: Disk)
    requires DiskInv(d) && !d.failed && Mail(d.sched, d.dispatcher) == [] && d.hand.Free? && d.device.None?
    ensures Queue(d) == [] && HandTids(d.hand) == []
  {
    hide Inv, MailIsRight, EachInOnePlace, InOrder;
    assert Completions([]) == 0;
    NothingQueued(d);
  }

  function ReadCount(acts: seq<Action>): nat {
    if acts == [] then 0 else (if acts[0].Read? then 1 else 0) + ReadCount(acts[1..])
  }

  /** A new read is five moves from its answer. */
  lemma ReadRaises(d: Disk, sector: nat)
    requires DiskInv(d) && CanAct(d, Read(sector))
    ensures Inv(d.sched) && Potential(Act(d, Read(sector))) == Potential(d) + 5
  {
    hide Inv, Next, Mail, Posted, Replies, MailIsRight, EachInOnePlace, InOrder, Requesters, Completions;
    var n, m := Act(d, Read(sector)), ReadRequest(sector, d.sched.current);
    SendPosts(d, n, SendUrgent(d.dispatcher, m));
    DispatcherPost(d, n, m);
    AppendMessage(Mail(d.sched, d.dispatcher), m);
  }

  lemma ActPotential(d: Disk, a: Action)
    requires DiskInv(d) && CanAct(d, a) && Starts(a)
    ensures Inv(d.sched)
    ensures Potential(Act(d, a)) + (if Move(d, a) then 1 else 0) <= Potential(d) + if a.Read? then 5 else 0
  {
    hide DiskInv, CanAct, Act, Potential;
    if a.Read? { ReadRaises(d, a.sector); } else { MoveDrops(d, a); }
  }

  /** As long as every start succeeds, a run has at most `Potential` moves and five for each new read,
      and wherever it stands still every read is answered. */
  lemma {:induction false} ReadsAreAnswered(d: Disk, acts: seq<Action>)
    requires DiskInv(d) && Awake(d) && !d.failed && CanRun(d, acts) && AllStart(acts)
    ensures Moves(d, acts) <= Potential(d) + 5 * ReadCount(acts)
    ensures Due(Ran(d, acts)) || AllAnswered(Ran(d, acts))
    decreases |acts|
  {
    hide DiskInv, Act, CanAct, Starts, Awake, Potential, Move, Due, AllAnswered;
    if acts == [] {
      if !Due(d) { QuietMeansAnswered(d); }
    } else {
      ActKeepsInv(d, acts[0]);
      InvOfDisk(d);
      ActAwake(d, acts[0]);
      ActPotential(d, acts[0]);
      StartedDoesNotFail(d, acts[0]);
      ReadsAreAnswered(Act(d, acts[0]), acts[1..]);
    }
  }

  /** A queue that has stalled stays so for the rest of the run, unless somebody reads again. */
  lemma {:induction false} StalledForGood(d: Disk, acts: seq<Action>)
    requires DiskInv(d) && CanRun(d, acts) && Stalled(d) && Mail(d.sched, d.dispatcher) == [] && ReadCount(acts) == 0
    ensures var e := Ran(d, acts); Stalled(e) && e.pending == d.pending && Mail(e.sched, e.dispatcher) == []
    decreases |acts|
  {
    hide DiskInv, Act, CanAct, Stalled;
    if acts != [] {
      ActKeepsInv(d, acts[0]);
      InvOfDisk(d);
      StallPersists(d, acts[0]);
      StalledForGood(Act(d, acts[0]), acts[1..]);
    }
  }

  /** In particular from the moment the dispatcher is started. */
  lemma AnsweredFromTheStart(s: Sched<BlockMessage>, console: Option<nat>, acts: seq<Action>)
    requires Inv(s) && (console.Some? ==> console.value in s.table) && forall t: nat | console != Some(t) :: Mail(s, t) == []
    ensures DiskInv(Started(Next(s, Spawn), s.nextId, console))
    ensures var d := Started(Next(s, Spawn), s.nextId, console);
            CanRun(d, acts) && AllStart(acts) ==>
              && Moves(d, acts) <= 5 * ReadCount(acts)
              && (Due(Ran(d, acts)) || AllAnswered(Ran(d, acts)))
  {
    hide Inv, Next, DiskInv, CanRun, Due, AllAnswered, Mail;
    var d := Started(Next(s, Spawn), s.nextId, console);
    StartedInv(s, console);
    StartedAwake(s, console);
    NoReadsYet(s, console);
    if CanRun(d, acts) && AllStart(acts) { ReadsAreAnswered(d, acts); }
  }

  lemma NoReadsYet(s: Sched<BlockMessage>, console: Option<nat>)
    requires Inv(s) && (console.Some? ==> console.value in s.table) && forall t: nat | console != Some(t) :: Mail(s, t) == []
    ensures Potential(Started(Next(s, Spawn), s.nextId, console)) == 0
  {
    hide Inv, Next;
    StartedMail(s, console);
  }

  lemma StartedAwake(s: Sched<BlockMessage>, console: Option<nat>)
    requires Inv(s)
    ensures Awake(Started(Next(s, Spawn), s.nextId, console))
  {
    hide InvWith;
  }

  // ---------------------------------------------------------------- a stall, from the start

  /** Three readers, threads 1 to 3, and the dispatcher, thread 4, before the console is up. */
  function Snapshot(states: seq<ThreadState>, ready: seq<nat>, current: nat, mail1: seq<BlockMessage>, mail4: seq<BlockMessage>): Sched<BlockMessage>
    requires |states| == 4
  {
    Sched(map[1 := Thread(states[0], mail1, Elsewhere), 2 := Thread(states[1], [], Elsewhere),
              3 := Thread(states[2], [], Elsewhere), 4 := Thread(states[3], mail4, Elsewhere)], ready, current, 5)
  }

  const R1: BlockMessage := ReadRequest(10, 1)
  const R2: BlockMessage := ReadRequest(20, 2)
  const R3: BlockMessage := ReadRequest(30, 3)
  const P1: Request := Request(10, 1)
  const P2: Request := Request(20, 2)
  const P3: Request := Request(30, 3)

  /** The readers take their turns, and the dispatcher runs. */
  function Asked(k: nat): Disk
    requires k <= 4
  {
    match k
    case 0 => Disk(Snapshot([Ready, Ready, Ready, Ready], [1, 2, 3, 4], 0, [], []), 4, None, Free, None, [], None, {}, [], [], false)
    case 1 => Disk(Snapshot([Running, Ready, Ready, Ready], [2, 3, 4], 1, [], []), 4, None, Free, None, [], None, {}, [], [], false)
    case 2 => Disk(Snapshot([Ready, Running, Ready, Ready], [3, 4, 1], 2, [], [R1]), 4, None, Free, None, [], None, {1}, [1], [], false)
    case 3 => Disk(Snapshot([Ready, Ready, Running, Ready], [4, 1, 2], 3, [], [R1, R2]), 4, None, Free, None, [], None, {1, 2}, [1, 2], [], false)
    case _ => Working(None, [], None, [R1, R2, R3])
  }

  /** Then the dispatcher works on the three reads. */
  function Working(inFlight: Option<nat>, pending: seq<Request>, device: Option<Request>, mail4: seq<BlockMessage>): Disk {
    Disk(Snapshot([Ready, Ready, Ready, Running], [1, 2, 3], 4, [], mail4), 4, None, Free, inFlight, pending, device, {1, 2, 3}, [1, 2, 3], [], false)
  }

  /** The first is done, the second could not be started, and the third is left behind. */
  function LeftBehind(): Disk {
    Disk(Snapshot([Ready, Ready, Ready, Running], [1, 2, 3], 4, [ReadResponse(true)], []), 4, None, StartFailed(2), None, [P3], None,
         {1, 2, 3}, [1, 2, 3], [1], true)
  }

  /** The run leads from d to e. */
  ghost predicate RunsTo(d: Disk, acts: seq<Action>, e: Disk) {
    DiskInv(d) && CanRun(d, acts) && Ran(d, acts) == e
  }

  lemma Prepend(d: Disk, a: Action, e: Disk, rest: seq<Action>, f: Disk)
    requires Leads(d, a, e) && RunsTo(e, rest, f)
    ensures RunsTo(d, [a] + rest, f)
  {
    hide DiskInv, CanAct, Act;
    assert ([a] + rest)[1..] == rest;
  }

  /** What an urgent send to a thread that is not asleep does to the queue and the table. */
  lemma AskingStep(s: Sched<BlockMessage>, m: BlockMessage, n: Sched<BlockMessage>)
    requires Inv(s) && s.current in s.table && s.current != 4 && 4 in s.table && s.table[4].state.Ready? && s.ready != []
    requires n.ready == s.ready[1..] + [s.current] && n.current == s.ready[0] && n.nextId == s.nextId
    requires n.table.Keys == s.table.Keys
    requires forall t | t in s.table ::
               n.table[t] == Thread(if t == s.ready[0] then Running else if t == s.current then Ready else s.table[t].state,
                                    if t == 4 then s.table[t].inbox + [m] else s.table[t].inbox,
                                    if t == s.current then Elsewhere else s.table[t].resume)
    ensures Next(s, SendUrgent(4, m)) == n
  {
    RunningIsNotQueued(s);
    DispatchFindsThread(s, SendUrgent(4, m));
    hide InvWith;
    var b := BeforeDispatch(s, SendUrgent(4, m));
    assert b.ready == s.ready + [s.current];
    assert b.ready[1..] == n.ready;
    assert Dispatch(b).table == n.table;
  }

  /** One step of the run. */
  ghost predicate Leads(d: Disk, a: Action, e: Disk) {
    DiskInv(d) && CanAct(d, a) && (InvOfDisk(d); Act(d, a) == e) && DiskInv(e)
  }

  lemma FirstReaderRuns()
    requires DiskInv(Asked(0))
    ensures Leads(Asked(0), Other(IdleCheck), Asked(1))
  {
    hide DiskInv, Inv;
    InvOfDisk(Asked(0));
    var s, n := Asked(0).sched, Asked(1).sched;
    assert s.ready[1..] == n.ready && SetState(s, 1, Running).table == n.table;
    ActKeepsInv(Asked(0), Other(IdleCheck));
  }

  lemma FirstAsks()
    requires DiskInv(Asked(1))
    ensures Leads(Asked(1), Read(10), Asked(2))
  {
    hide DiskInv, Inv, Next;
    InvOfDisk(Asked(1));
    AskingStep(Asked(1).sched, R1, Asked(2).sched);
    assert Asked(1).waiting + {1} == Asked(2).waiting && Asked(1).arrived + [1] == Asked(2).arrived;
    ActKeepsInv(Asked(1), Read(10));
  }

  lemma SecondAsks()
    requires DiskInv(Asked(2))
    ensures Leads(Asked(2), Read(20), Asked(3))
  {
    hide DiskInv, Inv, Next;
    InvOfDisk(Asked(2));
    AskingStep(Asked(2).sched, R2, Asked(3).sched);
    assert Asked(2).waiting + {2} == Asked(3).waiting && Asked(2).arrived + [2] == Asked(3).arrived;
    ActKeepsInv(Asked(2), Read(20));
  }

  lemma ThirdAsks()
    requires DiskInv(Asked(3))
    ensures Leads(Asked(3), Read(30), Asked(4))
  {
    hide DiskInv, Inv, Next;
    InvOfDisk(Asked(3));
    AskingStep(Asked(3).sched, R3, Asked(4).sched);
    assert Asked(3).waiting + {3} == Asked(4).waiting && Asked(3).arrived + [3] == Asked(4).arrived;
    ActKeepsInv(Asked(3), Read(30));
  }

  /** The dispatcher takes its oldest message. */
  lemma TakingStep(mail: seq<BlockMessage>)
    requires mail != [] && Inv(Working(None, [], None, mail).sched)
    ensures Next(Working(None, [], None, mail).sched, Receive) == Working(None, [], None, mail[1..]).sched
  {
    hide Inv;
    var s, n := Working(None, [], None, mail).sched, Working(None, [], None, mail[1..]).sched;
    assert s.table[4 := s.table[4].(inbox := mail[1..])] == n.table;
  }

  lemma TakesFirst()
    requires DiskInv(Asked(4))
    ensures Leads(Asked(4), DispatcherTurn(true), Working(Some(1), [], Some(P1), [R2, R3]))
  {
    hide DiskInv, Inv, Next;
    var d := Asked(4);
    InvOfDisk(d);
    TakingStep([R1, R2, R3]);
    assert [R1, R2, R3][1..] == [R2, R3];
    ActKeepsInv(d, DispatcherTurn(true));
  }

  lemma QueuesSecond()
    requires DiskInv(Working(Some(1), [], Some(P1), [R2, R3]))
    ensures Leads(Working(Some(1), [], Some(P1), [R2, R3]), DispatcherTurn(true), Working(Some(1), [P2], Some(P1), [R3]))
  {
    hide DiskInv, Inv, Next;
    var d := Working(Some(1), [], Some(P1), [R2, R3]);
    InvOfDisk(d);
    TakingStep([R2, R3]);
    assert [R2, R3][1..] == [R3];
    assert d.pending + [P2] == [P2];
    assert Received(d).sched == Working(Some(1), [P2], Some(P1), [R3]).sched;
    ActKeepsInv(d, DispatcherTurn(true));
  }

  lemma QueuesThird()
    requires DiskInv(Working(Some(1), [P2], Some(P1), [R3]))
    ensures Leads(Working(Some(1), [P2], Some(P1), [R3]), DispatcherTurn(true), Working(Some(1), [P2, P3], Some(P1), []))
  {
    hide DiskInv, Inv, Next;
    var d := Working(Some(1), [P2], Some(P1), [R3]);
    InvOfDisk(d);
    TakingStep([R3]);
    assert [R3][1..] == [];
    assert d.pending + [P3] == [P2, P3];
    assert Received(d).sched == Working(Some(1), [P2, P3], Some(P1), []).sched;
    ActKeepsInv(d, DispatcherTurn(true));
  }

  lemma FirstCompletes()
    requires DiskInv(Working(Some(1), [P2, P3], Some(P1), []))
    ensures Leads(Working(Some(1), [P2, P3], Some(P1), []), DeviceDone(true), Working(Some(1), [P2, P3], None, [ReadComplete(true)]))
  {
    hide DiskInv, Inv;
    var d, e := Working(Some(1), [P2, P3], Some(P1), []), Working(Some(1), [P2, P3], None, [ReadComplete(true)]);
    InvOfDisk(d);
    assert [] + [ReadComplete(true)] == [ReadComplete(true)];
    assert Next(d.sched, Send(4, ReadComplete(true))).table == e.sched.table;
    ActKeepsInv(d, DeviceDone(true));
  }

  lemma AnsweringStep()
    requires Inv(Working(None, [], None, []).sched)
    ensures Next(Working(None, [], None, []).sched, Send(1, ReadResponse(true))) == LeftBehind().sched
  {
    hide Inv;
    var s := Working(None, [], None, []).sched;
    assert [] + [ReadResponse(true)] == [ReadResponse(true)];
    assert Next(s, Send(1, ReadResponse(true))).table == LeftBehind().sched.table;
  }

  lemma SecondFails()
    requires DiskInv(Working(Some(1), [P2, P3], None, [ReadComplete(true)]))
    ensures Leads(Working(Some(1), [P2, P3], None, [ReadComplete(true)]), DispatcherTurn(false), LeftBehind())
  {
    hide DiskInv, Inv, Next;
    var d := Working(Some(1), [P2, P3], None, [ReadComplete(true)]);
    InvOfDisk(d);
    NextInv(d.sched, Receive);
    TakingStep([ReadComplete(true)]);
    assert [ReadComplete(true)][1..] == [] && [P2, P3][1..] == [P3] && [] + [1] == [1];
    AnsweringStep();
    ActKeepsInv(d, DispatcherTurn(false));
  }

  /** The scheduler after start-up and n spawned threads. */
  function Spawned(n: nat): (s: Sched<BlockMessage>)
    ensures Inv(s)
  {
    if n == 0 then Boot() else
      NextInv(Spawned(n - 1), Spawn);
      Next(Spawned(n - 1), Spawn)
  }

  lemma StartOfRun()
    ensures Asked(0) == Started(Next(Spawned(3), Spawn), 4, None) && Spawned(3).nextId == 4 && DiskInv(Asked(0))
  {
    hide Inv;
    var s := Spawned(3);
    assert Spawned(1) == Sched(map[1 := Thread(Ready, [], Elsewhere)], [1], 0, 2);
    assert Spawned(2) == Sched(map[1 := Thread(Ready, [], Elsewhere), 2 := Thread(Ready, [], Elsewhere)], [1, 2], 0, 3);
    assert s.ready == [1, 2, 3] && Next(s, Spawn).ready == [1, 2, 3, 4];
    assert Next(s, Spawn).table == Asked(0).sched.table;
    assert forall t: nat :: Mail(s, t) == [];
    StartedInv(s, None);
  }

  const DISPATCHER_RUN: seq<Action> :=
    [DispatcherTurn(true)] + ([DispatcherTurn(true)] + ([DispatcherTurn(true)] + ([DeviceDone(true)] + ([DispatcherTurn(false)] + []))))

  const STALL_RUN: seq<Action> :=
    [Other(IdleCheck)] + ([Read(10)] + ([Read(20)] + ([Read(30)] + DISPATCHER_RUN)))

  lemma DispatcherRuns()
    requires DiskInv(Asked(4))
    ensures RunsTo(Asked(4), DISPATCHER_RUN, LeftBehind())
  {
    hide DiskInv, CanAct, Act, Working, Asked, LeftBehind, CanRun, Ran;
    TakesFirst();
    QueuesSecond();
    QueuesThird();
    FirstCompletes();
    SecondFails();
    hide Leads, RunsTo;
    var d4, d5 := Working(Some(1), [], Some(P1), [R2, R3]), Working(Some(1), [P2], Some(P1), [R3]);
    var d6, d7 := Working(Some(1), [P2, P3], Some(P1), []), Working(Some(1), [P2, P3], None, [ReadComplete(true)]);
    assert RunsTo(LeftBehind(), [], LeftBehind()) by { Arrived(d7, DispatcherTurn(false), LeftBehind()); }
    Prepend(d7, DispatcherTurn(false), LeftBehind(), [], LeftBehind());
    Prepend(d6, DeviceDone(true), d7, [DispatcherTurn(false)] + [], LeftBehind());
    Prepend(d5, DispatcherTurn(true), d6, [DeviceDone(true)] + ([DispatcherTurn(false)] + []), LeftBehind());
    Prepend(d4, DispatcherTurn(true), d5, [DispatcherTurn(true)] + ([DeviceDone(true)] + ([DispatcherTurn(false)] + [])), LeftBehind());
    Prepend(Asked(4), DispatcherTurn(true), d4,
            [DispatcherTurn(true)] + ([DispatcherTurn(true)] + ([DeviceDone(true)] + ([DispatcherTurn(false)] + []))), LeftBehind());
  }

  lemma Arrived(d: Disk, a: Action, e: Disk)
    requires Leads(d, a, e)
    ensures RunsTo(e, [], e)
  {
  }

  /** From the start of the system to a stall: the second of three reads fails to start. */
  lemma StallHappens()
    ensures Asked(0) == Started(Next(Spawned(3), Spawn), 4, None) && RunsTo(Asked(0), STALL_RUN, LeftBehind())
    ensures Stalled(LeftBehind()) && Mail(LeftBehind().sched, LeftBehind().dispatcher) == []
  {
    hide DiskInv, CanAct, Act, Asked, CanRun, Ran, Spawned, RunsTo;
    StartOfRun();
    FirstReaderRuns();
    FirstAsks();
    SecondAsks();
    ThirdAsks();
    DispatcherRuns();
    Prepend(Asked(3), Read(30), Asked(4), DISPATCHER_RUN, LeftBehind());
    Prepend(Asked(2), Read(20), Asked(3), [Read(30)] + DISPATCHER_RUN, LeftBehind());
    Prepend(Asked(1), Read(10), Asked(2), [Read(20)] + ([Read(30)] + DISPATCHER_RUN), LeftBehind());
    Prepend(Asked(0), Other(IdleCheck), Asked(1), [Read(10)] + ([Read(20)] + ([Read(30)] + DISPATCHER_RUN)), LeftBehind());
  }
}
