/** How far a call gets: queues stay short, steps run out, and what can stand still at the end. */
module Progress {
  import opened Bytes
  import opened Context
  import opened Chain
  import opened Messages
  import opened Wire
  import opened Machine
  import opened Invariant
  import HostSteps
  import NetSteps
  import PollSteps
  import ServerSteps
  import Runs
  import Host
  import Server
  import Setup

  // ---------------------------------------------------------------- short queues

  function Queued(n: Node): nat {
    |n.sq| + |n.unacked| + |n.cq|
  }

  /** During a call every input write is in one place, and beside them there is the response at most. */
  lemma TransferQueues(h: Node, t: Tally)
    requires HostTransferInv(h, t) && Ordered(t)
    ensures Queued(h) <= h.ctx.noInput + 1
  {
    hide Remaining, Host.Posted, Every, Immediates;
    PollSteps.OnlyTotal(h.cq, WcRdmaWrite, WcRecvWithImm);
  }

  lemma SetupQueues(j: Joint)
    requires HostInv(j.host, j.tally) && SetupLink(j) && !Settled(j.host.ctx)
    ensures Queued(j.host) <= 2
  {
    hide HostTransferInv, HostIdleInv, AnswerMessage, RequestMessage, Records, Adverts, Setup.CarriesAnswer,
      Setup.CarriesRequest;
    PollSteps.OnlyTotal(j.host.cq, WcSend, WcRecv);
  }

  lemma ServerQueues(s: Node, pc: Pc, t: Tally, word: uint32)
    requires ServerInv(s, pc, t, word) && Ordered(t)
    ensures Queued(s) <= if Answering(pc, s.ctx) && pc == Sending then s.ctx.noOutput + 1 else 2
  {
    hide Remaining, Server.Reply, Every, Immediates, Server.Blank;
    if !Answering(pc, s.ctx) {
      PollSteps.OnlyTotal(s.cq, WcRecv, WcRecv);
    } else if pc == Setting {
      PollSteps.OnlyTotal(s.cq, WcSend, WcRecvWithImm);
    } else if pc == Sending {
      PollSteps.OnlyTotal(s.cq, WcRdmaWrite, WcRecvWithImm);
    } else {
      PollSteps.OnlyTotal(s.cq, WcRecvWithImm, WcRecvWithImm);
    }
  }

  /** Each end has at most one region's worth of work per region, and one completion more. */
  lemma QueuesBounded(cfg: Config, j: Joint)
    requires Inv(cfg, j)
    ensures Queued(j.host) <= |cfg.inputs| + 1 && Queued(j.server) <= |cfg.inputs| + 1
    ensures InTransfer(j.host.ctx) ==> Queued(j.host) <= j.host.ctx.noInput + 1
    ensures |cfg.inputs| <= MAX_RECORDS
  {
    hide HostShape, ServerShape, ServerInv, HostTransferInv, HostSetupInv, SetupLink, PeersLinked, Host.RequestWord,
      Queued;
    RegionCounts(cfg, j.host, j.tally.started);
    ServerQueues(j.server, j.pc, j.tally, Host.RequestWord(j.host.ctx.immediate));
    if Answering(j.pc, j.server.ctx) {
      OutputCounts(cfg, j.host.ctx, j.server);
    }
    if InTransfer(j.host.ctx) {
      TransferQueues(j.host, j.tally);
    } else if Idle(j.host.ctx) {
      IdleQueues(j.host);
    } else {
      SetupQueues(j);
    }
  }

  lemma IdleQueues(h: Node)
    requires h.sq == [] && h.unacked == [] && h.cq == []
    ensures Queued(h) == 0
  {
  }

  lemma RegionCounts(cfg: Config, h: Node, calls: nat)
    requires HostShape(cfg, h, calls)
    ensures h.ctx.noInput <= |cfg.inputs| <= MAX_RECORDS && |cfg.inputs| >= 1
  {
    HostSteps.InputsCounted(cfg, h, calls);
    hide HostRegionFits, DistinctAddresses, KernelFits, Host.OutputCount;
  }

  lemma OutputCounts(cfg: Config, h: Comm, s: Node)
    requires ServerShape(cfg, h, s)
    ensures s.ctx.noOutput == |Marked(s.ctx.local)| <= |cfg.inputs|
  {
    hide SameShape, DistinctAddresses, ServerRegionFits;
  }

  // ---------------------------------------------------------------- what is left when nothing moves

  /** A step of the host, the network or the worker that carries on what has been started. */
  predicate CarriesOn(step: Step) {
    !step.AppWrite? && !step.AppLimit? && !step.AppImmediate? && !step.HostCall?
  }

  predicate AllQuiet(j: Joint) {
    && j.host.sq == [] && j.host.unacked == [] && j.host.cq == []
    && j.server.sq == [] && j.server.unacked == [] && j.server.cq == []
  }

  /** During the setup the request or the answer is in some queue. */
  lemma SetupNotQuiet(j: Joint)
    requires SetupLink(j) && j.host.ctx.state != Connected
    ensures !AllQuiet(j)
  {
    hide AnswerMessage, RequestMessage, Records, Adverts, Setup.CarriesAnswer, Setup.CarriesRequest;
  }

  lemma WaitingHost(h: Node, t: Tally)
    requires HostTransferInv(h, t) && h.sq == [] && h.unacked == [] && h.cq == []
    ensures t.requested == t.started == t.finished + 1 && t.replied == t.finished
  {
    hide Host.Posted, Every, Immediates;
  }

  lemma WaitingWorker(s: Node, pc: Pc, t: Tally, word: uint32)
    requires ServerInv(s, pc, t, word) && Answering(pc, s.ctx) && Polling(pc)
    requires s.sq == [] && s.unacked == [] && s.cq == []
    ensures t.requested == t.kernels == t.replied
  {
    hide Remaining, Server.Reply, ServerBlankInv, Immediates;
  }

  /** During a call a worker that polls an empty queue has a packet or a completion somewhere to wait for. */
  lemma TransferNotQuiet(cfg: Config, j: Joint)
    requires Inv(cfg, j) && InTransfer(j.host.ctx) && Polling(j.pc)
    ensures !AllQuiet(j)
  {
    hide HostShape, ServerShape, ServerInv, HostTransferInv, PeersLinked, SetupLink, Host.RequestWord;
    if AllQuiet(j) {
      WaitingHost(j.host, j.tally);
      WaitingWorker(j.server, j.pc, j.tally, Host.RequestWord(j.host.ctx.immediate));
    }
  }

  lemma WorkerBuffer(cfg: Config, j: Joint)
    requires Inv(cfg, j)
    ensures j.server.ctx.state == MrspReceiving ==> |j.server.ctx.message| == MESSAGE_CAPACITY
  {
    hide HostShape, HostInv, ServerShape, Link, Host.RequestWord, ServerCounts;
  }

  lemma SetupOf(cfg: Config, j: Joint)
    requires Inv(cfg, j) && !Settled(j.host.ctx)
    ensures SetupLink(j)
  {
    hide HostShape, HostInv, ServerShape, ServerInv, SetupLink, PeersLinked, Host.RequestWord;
  }

  // ---------------------------------------------------------------- steps that can still be taken

  /** The completion at the head of a queue has overtaken one that its handler waits for first. */
  predicate Overtaken(j: Joint) {
    (j.host.ctx.state == MrspSending && j.host.cq != [] && j.host.cq[0].opcode == WcRecv) || ServerSteps.TooEarly(j)
  }

  predicate KernelFails(cfg: Config, j: Joint) {
    j.pc == Computing
    && cfg.kernel(j.host.ctx.fncode % 0x80, j.host.ctx.immediate / 0x100, j.server.mem).0 != 0
  }

  /** A step that carries on and does not end the run. */
  predicate Advances(cfg: Config, j: Joint, step: Step) {
    Enabled(j, step) && CarriesOn(step) && !Runs.Refused(cfg, j, step)
  }

  /** Nothing to send or acknowledge, and nothing at the head of a queue that its handler accepts. */
  predicate Halted(cfg: Config, j: Joint) {
    && j.host.ctx.state != Connected
    && j.host.sq == [] && j.host.unacked == [] && j.server.sq == [] && j.server.unacked == []
    && (j.host.cq == [] || (j.host.ctx.state == MrspSending && j.host.cq[0].opcode == WcRecv))
    && if Polling(j.pc) then j.server.cq == [] || ServerSteps.TooEarly(j) else KernelFails(cfg, j)
  }

  function Allocations(count: nat): seq<Server.Alloc>
    requires count < 256
  {
    seq(count, i requires 0 <= i < count => Server.Buffer(i, 0))
  }

  lemma WorkerAdvances(cfg: Config, j: Joint) returns (step: Step)
    requires !j.ended && !KernelFails(cfg, j)
    requires Polling(j.pc) ==> j.server.cq != [] && !ServerSteps.TooEarly(j)
    requires j.server.ctx.state == MrspReceiving ==> |j.server.ctx.message| == MESSAGE_CAPACITY
    ensures Advances(cfg, j, step)
  {
    if j.pc == Boot {
      step := ServerBoot;
    } else if j.pc == Arming {
      step := ServerArm;
    } else if j.pc == Computing {
      step := ServerCompute;
    } else if j.pc == Replying {
      step := ServerReply;
    } else {
      var count := if j.server.ctx.state == MrspReceiving then j.server.ctx.message[1] else 0;
      step := ServerPoll(Allocations(count));
    }
  }

  lemma SomeAdvances(cfg: Config, j: Joint) returns (step: Step)
    requires !j.ended && !Halted(cfg, j)
    requires j.server.ctx.state == MrspReceiving ==> |j.server.ctx.message| == MESSAGE_CAPACITY
    ensures Advances(cfg, j, step)
  {
    if j.host.ctx.state == Connected {
      step := HostSetup;
    } else if j.host.sq != [] {
      step := HostSend;
    } else if j.host.unacked != [] {
      step := HostAck;
    } else if j.host.cq != [] && !(j.host.ctx.state == MrspSending && j.host.cq[0].opcode == WcRecv) {
      step := HostPoll;
    } else if j.server.sq != [] {
      step := ServerSend;
    } else if j.server.unacked != [] {
      step := ServerAck;
    } else {
      step := WorkerAdvances(cfg, j);
    }
  }

  lemma HaltedRefuses(cfg: Config, j: Joint, step: Step)
    requires Halted(cfg, j) && Enabled(j, step) && CarriesOn(step)
    ensures Runs.Refused(cfg, j, step)
  {
  }

  /** A machine stands still exactly if it is halted. */
  lemma AdvancesIff(cfg: Config, j: Joint)
    requires Inv(cfg, j) && !j.ended
    ensures (exists step :: Advances(cfg, j, step)) <==> !Halted(cfg, j)
  {
    WorkerBuffer(cfg, j);
    hide Inv, Runs.Refused, Enabled, CarriesOn;
    if Halted(cfg, j) {
      forall step | Enabled(j, step) && CarriesOn(step)
        ensures Runs.Refused(cfg, j, step)
      {
        HaltedRefuses(cfg, j, step);
      }
    } else {
      var step := SomeAdvances(cfg, j);
    }
  }

  lemma QuietQueues(cfg: Config, j: Joint)
    requires Halted(cfg, j) && !Overtaken(j) && !KernelFails(cfg, j)
    ensures AllQuiet(j) && Polling(j.pc) && j.host.ctx.state != Connected
  {
  }

  /** During the setup or a call only an overtaken completion or a failing kernel brings it to a halt. */
  lemma HaltsOnlyOvertaken(cfg: Config, j: Joint)
    requires Inv(cfg, j) && Halted(cfg, j) && !Idle(j.host.ctx)
    ensures Overtaken(j) || KernelFails(cfg, j)
  {
    hide Inv, Halted, Overtaken, KernelFails, AllQuiet, SetupLink;
    if !Overtaken(j) && !KernelFails(cfg, j) {
      QuietQueues(cfg, j);
      if InTransfer(j.host.ctx) {
        TransferNotQuiet(cfg, j);
      } else {
        SetupOf(cfg, j);
        SetupNotQuiet(j);
      }
    }
  }

  // ---------------------------------------------------------------- steps run out

  /** What the worker still has to do from a point of its loop, its queues aside. */
  function PcWork(pc: Pc, state: State, n: nat): nat {
    match pc
    case Boot => 11
    case Setting => if state == MrspReceiving then 10 else 2
    case Arming => 1
    case Receiving => 0
    case Computing => 0
    case Replying => 4 * n + 3
    case Sending => 2
  }

  /** A posted packet is sent, acknowledged and polled on one side, and may be polled on the other. */
  function QueueWork(n: Node): nat {
    4 * |n.sq| + 2 * |n.unacked| + |n.cq|
  }

  /** More than the number of steps that can be taken before the next call. */
  function Work(cfg: Config, j: Joint): nat {
    var n := |cfg.inputs|;
    QueueWork(j.host) + QueueWork(j.server) + PcWork(j.pc, j.server.ctx.state, n)
    + (if j.host.ctx.state == Connected then 5 else 0)
    + (if j.tally.started > j.tally.kernels then 4 * n + 10 else 0)
  }

  lemma DeliveryWork(src: Node, dst: Node)
    requires src.sq != [] && Deliver(src, dst).Some?
    ensures var (src', dst') := Deliver(src, dst).value;
      && QueueWork(src') == QueueWork(src) - 2 && QueueWork(dst') <= QueueWork(dst) + 1
      && src'.ctx == src.ctx && dst'.ctx.state == dst.ctx.state
  {
    hide WriteInto, Over;
  }

  lemma AckWork(n: Node)
    requires n.unacked != []
    ensures QueueWork(Acknowledge(n)) == QueueWork(n) - 1 && Acknowledge(n).ctx == n.ctx
  {
  }

  lemma NetworkWork(cfg: Config, j: Joint, step: Step)
    requires Enabled(j, step) && !Do(cfg, j, step).ended
    requires step.HostSend? || step.ServerSend? || step.HostAck? || step.ServerAck?
    ensures Work(cfg, Do(cfg, j, step)) < Work(cfg, j)
  {
    hide Deliver, Acknowledge, QueueWork;
    match step {
      case HostSend => DeliveryWork(j.host, j.server);
      case ServerSend => DeliveryWork(j.server, j.host);
      case HostAck => AckWork(j.host);
      case ServerAck => AckWork(j.server);
    }
  }

  lemma HostWork(cfg: Config, j: Joint)
    requires !j.ended
    ensures j.host.ctx.state == Connected && !DoHostSetup(j).ended ==> Work(cfg, DoHostSetup(j)) < Work(cfg, j)
    ensures j.host.cq != [] && !DoHostPoll(j).ended ==> Work(cfg, DoHostPoll(j)) < Work(cfg, j)
  {
    hide MessageBytes, Over, Host.Recorded, PcWork;
  }

  /** The request costs the worker an answer to send, every other completion nothing new. */
  lemma PollWork(cfg: Config, j: Joint, allocs: seq<Server.Alloc>)
    requires Inv(cfg, j) && Polling(j.pc) && j.server.cq != [] && !DoServerPoll(j, allocs).ended
    ensures Work(cfg, DoServerPoll(j, allocs)) < Work(cfg, j)
  {
    hide Inv, HostShape, HostInv, ServerShape, ServerInv, Link, FreshMemory, Server.HandleRequest;
    ServerSteps.InvServer(cfg, j);
    ServerSteps.StateOfPc(j.server, j.pc, j.tally, Host.RequestWord(j.host.ctx.immediate));
    RequestWork(j, allocs);
  }

  lemma RequestWork(j: Joint, allocs: seq<Server.Alloc>)
    requires j.server.cq != []
    ensures var c, wc := j.server.ctx, j.server.cq[0];
      Server.Handleable(c, wc, allocs) && Server.Handle(c, wc, allocs).ok ==>
        var r := Server.Handle(c, wc, allocs);
        && (r.sent.Some? <==> c.state == MrspReceiving)
        && (c.state == MrspReceiving ==> r.ctx.state == MrspSending)
        && (c.state == MrspSending ==> r.ctx.state == MrspDone)
  {
    hide Server.Fill, MessageBytes, Over;
  }

  lemma WorkerWork(cfg: Config, j: Joint, step: Step)
    requires Inv(cfg, j) && Enabled(j, step) && !Do(cfg, j, step).ended
    requires step.ServerBoot? || step.ServerArm? || step.ServerCompute? || step.ServerReply?
    ensures Work(cfg, Do(cfg, j, step)) < Work(cfg, j)
  {
    hide Inv, HostShape, HostInv, ServerShape, ServerInv, Link, Slots, Host.RequestWord;
    ServerSteps.InvServer(cfg, j);
    match step {
      case ServerBoot =>
      case ServerArm =>
      case ServerCompute =>
        Runs.ComputingCounts(j.server, j.tally, Host.RequestWord(j.host.ctx.immediate));
        TallyOf(cfg, j);
      case ServerReply =>
        ServerSteps.ReplyingAnswers(j.server, j.tally, Host.RequestWord(j.host.ctx.immediate));
        ShapeOfWorker(cfg, j);
        OutputCounts(cfg, j.host.ctx, j.server);
    }
  }

  lemma TallyOf(cfg: Config, j: Joint)
    requires Inv(cfg, j)
    ensures Ordered(j.tally)
  {
    hide HostShape, HostInv, ServerShape, ServerInv, Link, Host.RequestWord;
  }

  lemma ShapeOfWorker(cfg: Config, j: Joint)
    requires Inv(cfg, j) && Answering(j.pc, j.server.ctx)
    ensures ServerShape(cfg, j.host.ctx, j.server)
  {
    hide HostShape, HostInv, ServerShape, ServerInv, Link, Host.RequestWord;
  }

  /** Every step that carries on and does not end the run uses up some of the work. */
  lemma StepWork(cfg: Config, j: Joint, step: Step)
    requires Inv(cfg, j) && Enabled(j, step) && CarriesOn(step) && !Do(cfg, j, step).ended
    ensures Work(cfg, Do(cfg, j, step)) < Work(cfg, j)
  {
    hide Inv, Work, DoHostSetup, DoHostSend, DoHostAck, DoHostPoll, DoServerBoot, DoServerPoll, DoServerArm,
      DoServerCompute, DoServerReply, DoServerSend, DoServerAck;
    match step {
      case HostSetup => HostWork(cfg, j);
      case HostPoll => HostWork(cfg, j);
      case ServerPoll(allocs) => PollWork(cfg, j, allocs);
      case HostSend => NetworkWork(cfg, j, step);
      case HostAck => NetworkWork(cfg, j, step);
      case ServerSend => NetworkWork(cfg, j, step);
      case ServerAck => NetworkWork(cfg, j, step);
      case _ => WorkerWork(cfg, j, step);
    }
  }

  predicate AllCarryOn(steps: seq<Step>) {
    forall i :: 0 <= i < |steps| ==> CarriesOn(steps[i])
  }

  lemma {:induction false} WorkAlong(cfg: Config, j: Joint, steps: seq<Step>)
    requires Inv(cfg, j) && Legal(cfg, j, steps) && AllCarryOn(steps) && !Run(cfg, j, steps).ended
    ensures Inv(cfg, Run(cfg, j, steps)) && |steps| + Work(cfg, Run(cfg, j, steps)) <= Work(cfg, j)
    decreases |steps|
  {
    hide Inv, Work, Do, Enabled, Runs.Refused, CarriesOn;
    if steps != [] {
      Runs.StepKeeps(cfg, j, steps[0]);
      var j' := Do(cfg, j, steps[0]);
      assert !j'.ended by { StillRunning(cfg, j', steps[1..]); }
      StepWork(cfg, j, steps[0]);
      WorkAlong(cfg, j', steps[1..]);
    }
  }

  lemma {:induction false} StillRunning(cfg: Config, j: Joint, steps: seq<Step>)
    requires Legal(cfg, j, steps) && !Run(cfg, j, steps).ended
    ensures !j.ended
  {
    hide Do;
  }

  lemma WorkBounded(cfg: Config, j: Joint)
    requires Inv(cfg, j)
    ensures Work(cfg, j) <= 16 * |cfg.inputs| + 34
  {
    hide Inv;
    QueuesBounded(cfg, j);
  }

  /**
   * Every call ends, one way or the other. From any point of any run at most 16 n + 34 steps can be
   * taken before the application calls again, n being the number of regions; and when none is left
   * the host is between calls, or a completion has overtaken one that its handler waits for, or the
   * kernel reports an error.
   */
  lemma {:induction false} CallsEnd(cfg: Config, j: Joint, steps: seq<Step>, more: seq<Step>)
    requires Initial(cfg, j) && Legal(cfg, j, steps) && Legal(cfg, Run(cfg, j, steps), more) && AllCarryOn(more)
    requires !Run(cfg, Run(cfg, j, steps), more).ended
    ensures |more| <= 16 * |cfg.inputs| + 34
    ensures var e := Run(cfg, Run(cfg, j, steps), more);
      (forall step :: !Advances(cfg, e, step)) ==> Idle(e.host.ctx) || Overtaken(e) || KernelFails(cfg, e)
  {
    hide Inv, Initial, Legal, Run, Work, Advances, Halted, Overtaken, KernelFails;
    Runs.RunKeeps(cfg, j, steps);
    WorkAlong(cfg, Run(cfg, j, steps), more);
    WorkBounded(cfg, Run(cfg, j, steps));
    var e := Run(cfg, Run(cfg, j, steps), more);
    AdvancesIff(cfg, e);
    if Halted(cfg, e) && !Idle(e.host.ctx) {
      HaltsOnlyOvertaken(cfg, e);
    }
  }

  /**
   * At any point of any run that goes on, some step carries on without ending it exactly if the
   * machine is not halted.
   */
  lemma {:induction false} NeverStuck(cfg: Config, j: Joint, steps: seq<Step>)
    requires Initial(cfg, j) && Legal(cfg, j, steps) && !Run(cfg, j, steps).ended
    ensures var e := Run(cfg, j, steps);
      && ((exists step :: Advances(cfg, e, step)) <==> !Halted(cfg, e))
      && (Halted(cfg, e) ==> Idle(e.host.ctx) || Overtaken(e) || KernelFails(cfg, e))
  {
    hide Inv, Initial, Legal, Run, Advances, Halted, Overtaken, KernelFails;
    Runs.RunKeeps(cfg, j, steps);
    var e := Run(cfg, j, steps);
    AdvancesIff(cfg, e);
    if Halted(cfg, e) && !Idle(e.host.ctx) {
      HaltsOnlyOvertaken(cfg, e);
    }
  }

  /** The queues of both ends stay short in every run. */
  lemma {:induction false} QueuesStayShort(cfg: Config, j: Joint, steps: seq<Step>)
    requires Initial(cfg, j) && Legal(cfg, j, steps)
    ensures var e := Run(cfg, j, steps);
      && Queued(e.host) <= |cfg.inputs| + 1 <= MAX_RECORDS + 1 && Queued(e.server) <= |cfg.inputs| + 1
      && (InTransfer(e.host.ctx) ==> Queued(e.host) <= e.host.ctx.noInput + 1)
  {
    hide Inv, Initial, Legal, Run, Queued;
    Runs.RunKeeps(cfg, j, steps);
    QueuesBounded(cfg, Run(cfg, j, steps));
  }
}
