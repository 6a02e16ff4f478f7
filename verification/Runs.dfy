/** What holds in every reachable state of the joint machine, whatever the interleaving. */
module Runs {
  import opened Bytes
  import opened Context
  import opened Chain
  import opened Messages
  import opened Wire
  import opened Machine
  import opened Invariant
  import HostSteps
  import NetSteps
  import PollSteps
  import ServerSteps
  import Host
  import Server
  import Setup

  /** The only steps on which a handler returns -1 or the kernel reports an error. */
  predicate Refused(cfg: Config, j: Joint, step: Step) {
    match step
    case HostPoll => j.host.ctx.state == MrspSending && j.host.cq != [] && j.host.cq[0].opcode == WcRecv
    case ServerPoll(allocs) =>
      ServerSteps.TooEarly(j) || (j.server.ctx.state == MrspReceiving && !Setup.AllBuffers(allocs))
    case ServerCompute =>
      cfg.kernel(j.host.ctx.fncode % 0x80, j.host.ctx.immediate / 0x100, j.server.mem).0 != 0
    case _ => false
  }

  lemma SendKeeps(cfg: Config, j: Joint)
    requires Inv(cfg, j) && j.host.sq != []
    ensures Inv(cfg, DoHostSend(j)) && DoHostSend(j).ended == j.ended
  {
    hide Inv, DoHostSend, Settled;
    if Settled(j.host.ctx) {
      NetSteps.SendWriteKeeps(cfg, j);
    } else {
      NetSteps.SendRequestKeeps(cfg, j);
    }
  }

  lemma ReplySendKeeps(cfg: Config, j: Joint)
    requires Inv(cfg, j) && j.server.sq != []
    ensures Inv(cfg, DoServerSend(j)) && DoServerSend(j).ended == j.ended
  {
    hide Inv, DoServerSend, Settled;
    if Settled(j.host.ctx) {
      NetSteps.SendReplyKeeps(cfg, j);
    } else {
      NetSteps.SendAnswerKeeps(cfg, j);
    }
  }

  lemma AppKeeps(cfg: Config, j: Joint, step: Step)
    requires Inv(cfg, j) && Enabled(j, step)
    requires step.AppWrite? || step.AppLimit? || step.AppImmediate?
    ensures Inv(cfg, Do(cfg, j, step)) && !Do(cfg, j, step).ended
  {
    match step {
      case AppWrite(i, data) => HostSteps.AppWriteKeeps(cfg, j, i, data);
      case AppLimit(i, count) => HostSteps.AppLimitKeeps(cfg, j, i, count);
      case AppImmediate(user) => HostSteps.AppImmediateKeeps(cfg, j, user);
    }
    hide Inv;
  }

  /**
   * Every step keeps the invariant, and it ends the run exactly in the refused situations:
   * in particular no packet is ever refused and no data-phase completion is refused by the host.
   */
  lemma StepKeeps(cfg: Config, j: Joint, step: Step)
    requires Inv(cfg, j) && Enabled(j, step)
    ensures Inv(cfg, Do(cfg, j, step))
    ensures Do(cfg, j, step).ended <==> Refused(cfg, j, step)
  {
    hide Inv, DoHostSetup, DoHostCall, DoHostSend, DoHostAck, DoHostPoll, DoServerBoot, DoServerPoll, DoServerArm,
      DoServerCompute, DoServerReply, DoServerSend, DoServerAck, ServerSteps.TooEarly, Setup.AllBuffers;
    match step {
      case HostSetup => HostSteps.SetupKeeps(cfg, j);
      case HostCall => HostSteps.CallKeeps(cfg, j);
      case HostSend => SendKeeps(cfg, j);
      case HostAck => HostSteps.AckKeeps(cfg, j); AckRuns(j);
      case HostPoll => PollSteps.HostPollKeeps(cfg, j);
      case AppWrite(_, _) => AppKeeps(cfg, j, step);
      case AppLimit(_, _) => AppKeeps(cfg, j, step);
      case AppImmediate(_) => AppKeeps(cfg, j, step);
      case ServerBoot => ServerSteps.BootKeeps(cfg, j);
      case ServerPoll(allocs) => ServerSteps.ServerPollKeeps(cfg, j, allocs);
      case ServerArm => ServerSteps.ArmKeeps(cfg, j);
      case ServerCompute => ServerSteps.ComputeKeeps(cfg, j);
      case ServerReply => ServerSteps.ReplyKeeps(cfg, j);
      case ServerSend => ReplySendKeeps(cfg, j);
      case ServerAck => NetSteps.ServerAckKeeps(cfg, j); ServerAckRuns(j);
    }
  }

  lemma AckRuns(j: Joint)
    requires j.host.unacked != []
    ensures DoHostAck(j).ended == j.ended
  {
  }

  lemma ServerAckRuns(j: Joint)
    requires j.server.unacked != []
    ensures DoServerAck(j).ended == j.ended
  {
  }

  lemma {:induction false} InvAlong(cfg: Config, j: Joint, steps: seq<Step>)
    requires Inv(cfg, j) && Legal(cfg, j, steps)
    ensures Inv(cfg, Run(cfg, j, steps))
    decreases |steps|
  {
    hide Inv, Enabled, Do;
    if steps != [] {
      StepKeeps(cfg, j, steps[0]);
      InvAlong(cfg, Do(cfg, j, steps[0]), steps[1..]);
    }
  }

  /** One more step at the end of a run. */
  lemma {:induction false} RunAppend(cfg: Config, j: Joint, steps: seq<Step>, step: Step)
    requires Legal(cfg, j, steps) && Enabled(Run(cfg, j, steps), step)
    ensures Legal(cfg, j, steps + [step])
    ensures Run(cfg, j, steps + [step]) == Do(cfg, Run(cfg, j, steps), step)
    decreases |steps|
  {
    hide Enabled, Do;
    if steps == [] {
      assert steps + [step] == [step] && [step][1..] == [];
    } else {
      assert (steps + [step])[1..] == steps[1..] + [step];
      RunAppend(cfg, Do(cfg, j, steps[0]), steps[1..], step);
    }
  }

  lemma RunKeeps(cfg: Config, j: Joint, steps: seq<Step>)
    requires Initial(cfg, j) && Legal(cfg, j, steps)
    ensures Inv(cfg, Run(cfg, j, steps))
  {
    InitialInv(cfg, j);
    InvAlong(cfg, j, steps);
    hide Inv, Initial, Enabled, Do;
  }

  // ---------------------------------------------------------------- turn taking

  /** The host's response has neither been handled nor queued. */
  predicate ResponsePending(h: Node) {
    InTransfer(h.ctx) && !h.ctx.responseReceived && Count(h.cq, WcRecvWithImm) == 0
  }

  lemma ComputingCounts(s: Node, t: Tally, word: uint32)
    requires ServerInv(s, Computing, t, word)
    ensures t.requested > t.kernels == t.replied
  {
    hide ServerBlankInv, ServerQuietInv, ServerSettingInv, ServerSendingInv;
  }

  /** The worker is in CALCULATING while the kernel runs and until its reply is posted. */
  lemma CalculatingCounts(s: Node, pc: Pc, t: Tally, word: uint32)
    requires ServerInv(s, pc, t, word) && Ordered(t) && s.ctx.state == Calculating && Answering(pc, s.ctx)
    ensures t.requested > t.replied
  {
    hide ServerBlankInv, Count;
  }

  lemma PendingCounts(h: Node, t: Tally)
    requires HostInv(h, t) && Ordered(t) && t.requested > t.replied
    ensures ResponsePending(h)
  {
    hide Remaining, Host.Posted;
  }

  lemma TurnTakingOf(cfg: Config, j: Joint)
    requires Inv(cfg, j)
    ensures Ordered(j.tally)
    ensures j.server.ctx.state == Calculating ==> ResponsePending(j.host)
  {
    hide HostShape, HostInv, ServerShape, ServerInv, Link, Host.RequestWord;
    if j.server.ctx.state == Calculating {
      ServerSteps.BlankNotCalculating(j.server, j.pc, j.tally, Host.RequestWord(j.host.ctx.immediate));
      CalculatingCounts(j.server, j.pc, j.tally, Host.RequestWord(j.host.ctx.immediate));
      PendingCounts(j.host, j.tally);
    }
  }

  /**
   * Calls alternate in every run: finished <= replied <= kernel runs <= requested <= started
   * <= finished + 1, and while the accelerator is in CALCULATING, from the request it took up to
   * the reply it posts, the host is in its transfer without a response.
   */
  lemma TurnTaking(cfg: Config, j: Joint, steps: seq<Step>)
    requires Initial(cfg, j) && Legal(cfg, j, steps)
    ensures var e := Run(cfg, j, steps);
      && e.tally.finished <= e.tally.replied <= e.tally.kernels <= e.tally.requested
         <= e.tally.started <= e.tally.finished + 1
      && (e.server.ctx.state == Calculating ==> ResponsePending(e.host))
  {
    RunKeeps(cfg, j, steps);
    TurnTakingOf(cfg, Run(cfg, j, steps));
    hide Inv, Run, Legal, Initial;
  }

  /** Nothing ends a run but the refused situations, at any point of any run. */
  lemma RunEndsIff(cfg: Config, j: Joint, steps: seq<Step>, step: Step)
    requires Initial(cfg, j) && Legal(cfg, j, steps) && Enabled(Run(cfg, j, steps), step)
    ensures Do(cfg, Run(cfg, j, steps), step).ended <==> Refused(cfg, Run(cfg, j, steps), step)
  {
    RunKeeps(cfg, j, steps);
    hide Inv, Run, Legal, Initial, Enabled, Do, Refused;
    StepKeeps(cfg, Run(cfg, j, steps), step);
  }

  /** Before the setup is complete both queues hold messages only. */
  lemma InSetup(cfg: Config, j: Joint)
    requires Inv(cfg, j) && !Settled(j.host.ctx)
    ensures OnlyMessages(j.host.sq) && OnlyMessages(j.server.sq) && j.tally == NO_CALLS
  {
    hide HostShape, ServerShape, HostInv, ServerInv, SetupLink, PeersLinked, Host.RequestWord, Ordered, OnlyMessages;
    SetupQueues(j);
    ServerQueue(j.server, j.pc, j.tally, Host.RequestWord(j.host.ctx.immediate));
    NetSteps.InSetupNoCalls(j.host, j.tally);
    EmptyQueue(j.server.sq);
  }

  lemma EmptyQueue(sq: seq<Packet>)
    ensures sq == [] ==> OnlyMessages(sq)
  {
  }

  // ---------------------------------------------------------------- receive credits

  predicate NeedsReceive(p: Packet) {
    p.Message? || p.wr.imm.Some?
  }

  lemma HostCredits(h: Node, t: Tally)
    requires HostInv(h, t) && Ordered(t)
    ensures Settled(h.ctx) ==> |h.recvs| <= 1
  {
    hide Remaining, Host.Posted, HostTransferInv;
    if InTransfer(h.ctx) {
      NetSteps.TransferStarted(h, t);
    }
  }

  lemma SetupCredits(j: Joint)
    requires SetupLink(j)
    ensures |j.host.recvs| <= 1
  {
    hide AnswerMessage, RequestMessage, Records, Adverts, Setup.CarriesAnswer, Setup.CarriesRequest, Count;
  }

  lemma ServerCredits(s: Node, pc: Pc, t: Tally, word: uint32)
    requires ServerInv(s, pc, t, word) && Ordered(t)
    ensures |s.recvs| <= 2
  {
    hide ServerQuietInv, ServerSettingInv, ServerSendingInv;
  }

  lemma HostCreditFor(j: Joint)
    requires j.server.sq != [] && NeedsReceive(j.server.sq[0]) && !DoServerSend(j).ended
    ensures j.host.recvs != []
  {
  }

  lemma ServerCreditFor(j: Joint)
    requires j.host.sq != [] && NeedsReceive(j.host.sq[0]) && !DoHostSend(j).ended
    ensures j.server.recvs != []
  {
  }

  lemma CreditBounds(cfg: Config, j: Joint)
    requires Inv(cfg, j)
    ensures |j.host.recvs| <= 1 && |j.server.recvs| <= 2
  {
    hide HostShape, HostInv, ServerShape, ServerInv, SetupLink, PeersLinked, Host.RequestWord;
    HostCredits(j.host, j.tally);
    ServerCredits(j.server, j.pc, j.tally, Host.RequestWord(j.host.ctx.immediate));
    if !Settled(j.host.ctx) {
      SetupCredits(j);
    }
  }

  /**
   * Over any number of calls the host never holds more than one posted receive, the accelerator
   * never more than two, and each message or immediate about to arrive finds one.
   */
  lemma ReceiveCredits(cfg: Config, j: Joint, steps: seq<Step>)
    requires Initial(cfg, j) && Legal(cfg, j, steps)
    ensures var e := Run(cfg, j, steps);
      && |e.host.recvs| <= 1 && |e.server.recvs| <= 2
      && (!e.ended && e.host.sq != [] && NeedsReceive(e.host.sq[0]) ==> e.server.recvs != [])
      && (!e.ended && e.server.sq != [] && NeedsReceive(e.server.sq[0]) ==> e.host.recvs != [])
  {
    RunKeeps(cfg, j, steps);
    var e := Run(cfg, j, steps);
    hide Inv, Run, Legal, Initial, DoHostSend, DoServerSend, NeedsReceive;
    CreditBounds(cfg, e);
    if e.host.sq != [] {
      SendKeeps(cfg, e);
      if NeedsReceive(e.host.sq[0]) && !e.ended {
        ServerCreditFor(e);
      }
    }
    if e.server.sq != [] {
      ReplySendKeeps(cfg, e);
      if NeedsReceive(e.server.sq[0]) && !e.ended {
        HostCreditFor(e);
      }
    }
  }

  // ---------------------------------------------------------------- writes stay in bounds

  /**
   * The write addresses a region of the table by address and key, is no longer than it, and is
   * inline exactly if it fits the limit.
   */
  ghost predicate InBounds(p: Packet, local: seq<LocalRegion>, inlineMax: int) {
    p.Write? ==>
      && (p.wr.inlined <==> p.wr.length <= inlineMax)
      && exists i :: 0 <= i < |local| && p.wr.target == local[i].addr && p.wr.rkey == local[i].rkey
                     && p.wr.length <= local[i].length
  }

  /** A region is never sent longer than the peer region of the same index. */
  ghost predicate Covers(local: seq<LocalRegion>, whole: bool, peer: seq<PeerRegion>, dst: seq<LocalRegion>) {
    && |local| == |peer| == |dst|
    && forall i :: 0 <= i < |local| ==>
         && peer[i].addr == dst[i].addr && peer[i].rkey == dst[i].rkey
         && (if whole then local[i].length else local[i].size) <= dst[i].length
  }

  lemma QueueInBounds(sq: seq<Packet>, local: seq<LocalRegion>, peer: seq<PeerRegion>, imm: uint32,
                      whole: bool, inlineMax: int, dst: seq<LocalRegion>)
    requires Covers(local, whole, peer, dst)
    requires Remaining(sq, Slots(local, peer, imm, whole, inlineMax))
    ensures forall k :: 0 <= k < |sq| ==> InBounds(sq[k], dst, inlineMax)
  {
    var chain := Slots(local, peer, imm, whole, inlineMax);
    forall k | 0 <= k < |sq|
      ensures InBounds(sq[k], dst, inlineMax)
    {
      var n := |chain| - |sq| + k;
      var i := Marked(local)[n];
      assert sq[k] == Write(chain[n]) && chain[n] == Slot(local, peer, imm, whole, inlineMax, n);
      assert sq[k].wr.target == dst[i].addr && sq[k].wr.length <= dst[i].length;
    }
  }

  lemma HostCovers(cfg: Config, j: Joint)
    requires HostShape(cfg, j.host, j.tally.started) && ServerShape(cfg, j.host.ctx, j.server)
    requires PeersLinked(j.host.ctx, j.server.ctx)
    ensures Covers(j.host.ctx.local, false, j.host.ctx.peer, j.server.ctx.local)
  {
    hide KernelFits, Marked, DistinctAddresses, SameShape, Host.OutputCount;
    forall i | 0 <= i < |cfg.inputs|
      ensures j.host.ctx.local[i].size <= j.server.ctx.local[i].length
    {
      assert HostRegionFits(cfg, j.host.ctx.local[i], j.host.ctx.peer[i], i, j.tally.started);
      assert ServerRegionFits(cfg, j.host.ctx.local[i], j.server.ctx.local[i], j.server.ctx.peer[i], i);
    }
    hide HostRegionFits, ServerRegionFits;
  }

  lemma ServerCovers(cfg: Config, j: Joint)
    requires HostShape(cfg, j.host, j.tally.started) && ServerShape(cfg, j.host.ctx, j.server)
    ensures Covers(j.server.ctx.local, true, j.server.ctx.peer, j.host.ctx.local)
  {
    hide KernelFits, Marked, DistinctAddresses, SameShape, Host.OutputCount;
    forall i | 0 <= i < |cfg.inputs|
      ensures j.server.ctx.local[i].length <= j.host.ctx.local[i].length
    {
      assert HostRegionFits(cfg, j.host.ctx.local[i], j.host.ctx.peer[i], i, j.tally.started);
      assert ServerRegionFits(cfg, j.host.ctx.local[i], j.server.ctx.local[i], j.server.ctx.peer[i], i);
    }
    hide HostRegionFits;
  }

  predicate OnlyMessages(sq: seq<Packet>) {
    forall k :: 0 <= k < |sq| ==> sq[k].Message?
  }

  lemma HostQueue(h: Node, t: Tally)
    requires HostInv(h, t) && Settled(h.ctx)
    ensures h.sq == [] || (|h.ctx.local| == |h.ctx.peer| && Remaining(h.sq,
      Slots(h.ctx.local, h.ctx.peer, Host.RequestWord(h.ctx.immediate), false, h.ctx.maxInline)))
  {
    hide Remaining, Slots, Count, Only, Every, Immediates, Host.RequestWord;
  }

  lemma ServerQueue(s: Node, pc: Pc, t: Tally, word: uint32)
    requires ServerInv(s, pc, t, word)
    ensures s.sq == [] || pc == Setting || (|s.ctx.local| == |s.ctx.peer|
      && Remaining(s.sq, Slots(s.ctx.local, s.ctx.peer, 0, true, -1)))
    ensures s.sq != [] ==> Answering(pc, s.ctx)
  {
    hide Remaining, Slots, Count, Only, Every, Immediates;
  }

  lemma SetupQueues(j: Joint)
    requires SetupLink(j)
    ensures OnlyMessages(j.host.sq)
    ensures Answering(j.pc, j.server.ctx) ==> j.server.sq == [] || OnlyMessages(j.server.sq)
  {
    hide AnswerMessage, RequestMessage, Records, Adverts, Setup.CarriesAnswer, Setup.CarriesRequest, Count;
  }

  lemma HostWritesInBounds(cfg: Config, j: Joint)
    requires Inv(cfg, j)
    ensures forall k :: 0 <= k < |j.host.sq| ==> InBounds(j.host.sq[k], j.server.ctx.local, j.host.ctx.maxInline)
  {
    hide HostShape, HostInv, ServerShape, ServerInv, SetupLink, PeersLinked, Host.RequestWord, InBounds, Remaining,
      Slots, Covers, Ordered;
    if Settled(j.host.ctx) {
      HostQueue(j.host, j.tally);
      HostCovers(cfg, j);
      if j.host.sq != [] {
        QueueInBounds(j.host.sq, j.host.ctx.local, j.host.ctx.peer, Host.RequestWord(j.host.ctx.immediate),
                      false, j.host.ctx.maxInline, j.server.ctx.local);
      }
    } else {
      SetupQueues(j);
      MessagesInBounds(j.host.sq, j.server.ctx.local, j.host.ctx.maxInline);
    }
  }

  lemma MessagesInBounds(sq: seq<Packet>, local: seq<LocalRegion>, inlineMax: int)
    requires OnlyMessages(sq)
    ensures forall k :: 0 <= k < |sq| ==> InBounds(sq[k], local, inlineMax)
  {
  }

  lemma ServerWritesInBounds(cfg: Config, j: Joint)
    requires Inv(cfg, j)
    ensures forall k :: 0 <= k < |j.server.sq| ==> InBounds(j.server.sq[k], j.host.ctx.local, -1)
  {
    hide HostShape, HostInv, ServerShape, ServerInv, SetupLink, PeersLinked, Host.RequestWord, InBounds, Remaining,
      Slots, Covers, Ordered, OnlyMessages;
    ServerQueue(j.server, j.pc, j.tally, Host.RequestWord(j.host.ctx.immediate));
    if j.server.sq != [] {
      if Settled(j.host.ctx) {
        ServerCovers(cfg, j);
        QueueInBounds(j.server.sq, j.server.ctx.local, j.server.ctx.peer, 0, true, -1, j.host.ctx.local);
      } else {
        SetupQueues(j);
        MessagesInBounds(j.server.sq, j.host.ctx.local, -1);
      }
    }
  }

  /**
   * Every write that either end has queued at any point of any run fits a region the other end
   * has registered, whatever limits the application has set in between, and is sent inline exactly
   * if it fits the limit of the host, and never by the accelerator.
   */
  lemma WritesInBounds(cfg: Config, j: Joint, steps: seq<Step>)
    requires Initial(cfg, j) && Legal(cfg, j, steps)
    ensures var e := Run(cfg, j, steps);
      && (forall k :: 0 <= k < |e.host.sq| ==> InBounds(e.host.sq[k], e.server.ctx.local, e.host.ctx.maxInline))
      && (forall k :: 0 <= k < |e.server.sq| ==> InBounds(e.server.sq[k], e.host.ctx.local, -1))
  {
    RunKeeps(cfg, j, steps);
    hide Inv, Run, Legal, Initial, InBounds;
    HostWritesInBounds(cfg, Run(cfg, j, steps));
    ServerWritesInBounds(cfg, Run(cfg, j, steps));
  }
}
