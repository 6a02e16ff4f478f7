/**
 * Four runs of the smallest connection, one region that is input and output. In one a call
 * finishes. The others end with a refused completion: the answer of the setup ahead of the host's
 * own acknowledgement, and a request ahead of the worker's, during the setup and during a reply.
 */
module Witness {
  import opened Bytes
  import opened Context
  import opened Chain
  import opened Messages
  import opened Machine
  import opened Invariant
  import HostSteps
  import NetSteps
  import PollSteps
  import ServerSteps
  import Runs
  import Refinement
  import Host
  import Server
  import Setup

  /** Where both ends stand and how many packets and which completions wait where. */
  datatype Bones = Bones(
    hs: State, hsq: nat, hun: seq<Opcode>, hcq: seq<Opcode>,
    pc: Pc, ss: State, ssq: nat, sun: seq<Opcode>, scq: seq<Opcode>, t: Tally)

  function Ops(cq: seq<Completion>): (ops: seq<Opcode>)
    ensures |ops| == |cq|
  {
    seq(|cq|, i requires 0 <= i < |cq| => cq[i].opcode)
  }

  function BonesOf(j: Joint): Bones {
    Bones(j.host.ctx.state, |j.host.sq|, j.host.unacked, Ops(j.host.cq),
          j.pc, j.server.ctx.state, |j.server.sq|, j.server.unacked, Ops(j.server.cq), j.tally)
  }

  /** One region, no internal ones, and a kernel that always succeeds. */
  ghost predicate Smallest(cfg: Config) {
    && |cfg.inputs| == 1 && cfg.internals == []
    && forall f: byte, imm: uint32, mem: Memory :: cfg.kernel(f, imm, mem).0 == 0
  }

  /** What the allocator hands out for the one record of the request. */
  const ALLOCS: seq<Server.Alloc> := [Server.Buffer(1, 1)]

  /** How a step moves the bones, for the steps and states of the two runs. */
  function Moved(b: Bones, step: Step): Option<Bones> {
    match step
    case HostSetup => if b.hs == Connected then Some(b.(hs := MrspSending, hsq := b.hsq + 1)) else None
    case HostCall =>
      if b.hs == MrspDone || b.hs == Finished then
        Some(b.(hs := DataSending, hsq := b.hsq + 1, t := b.t.(started := b.t.started + 1)))
      else None
    case HostSend =>
      if b.hsq == 0 then None
      else if b.hs == DataSending then
        Some(b.(hsq := b.hsq - 1, hun := b.hun + [WcRdmaWrite], scq := b.scq + [WcRecvWithImm],
                t := b.t.(requested := b.t.requested + 1)))
      else if b.hs == MrspSending then
        Some(b.(hsq := b.hsq - 1, hun := b.hun + [WcSend], scq := b.scq + [WcRecv]))
      else None
    case HostAck =>
      if b.hun == [] then None else Some(b.(hun := b.hun[1..], hcq := b.hcq + [b.hun[0]]))
    case HostPoll =>
      if b.hcq == [] then None
      else if b.hs == MrspSending && b.hcq[0] == WcSend then Some(b.(hs := MrspReceiving, hcq := b.hcq[1..]))
      else if b.hs == MrspReceiving then Some(b.(hs := MrspDone, hcq := b.hcq[1..]))
      else if b.hs == DataSending && b.hcq[0] == WcRdmaWrite && b.t.replied == b.t.finished then
        Some(b.(hs := DataReceiving, hcq := b.hcq[1..]))
      else if b.hs == DataReceiving && b.hcq[0] == WcRecvWithImm && b.hsq == 0 && b.hun == [] && |b.hcq| == 1 then
        Some(b.(hs := Finished, hcq := [], t := b.t.(finished := b.t.finished + 1)))
      else None
    case ServerBoot => if b.pc == Boot then Some(b.(pc := Setting, ss := MrspReceiving)) else None
    case ServerPoll(allocs) =>
      if b.scq == [] then None
      else if b.pc == Setting && b.ss == MrspReceiving && allocs == ALLOCS then
        Some(b.(ss := MrspSending, ssq := b.ssq + 1, scq := b.scq[1..]))
      else if b.pc == Setting && b.ss == MrspSending && b.scq[0] == WcSend && allocs == [] then
        Some(b.(pc := Arming, ss := MrspDone, scq := b.scq[1..]))
      else if b.pc == Receiving && b.ss == DataReceiving && allocs == [] then
        Some(b.(pc := Computing, ss := Calculating, scq := b.scq[1..]))
      else None
    case ServerArm => if b.pc == Arming then Some(b.(pc := Receiving, ss := DataReceiving)) else None
    case ServerCompute =>
      if b.pc == Computing then Some(b.(pc := Replying, t := b.t.(kernels := b.t.kernels + 1))) else None
    case ServerReply =>
      if b.pc == Replying then Some(b.(pc := Sending, ss := DataSending, ssq := b.ssq + 1)) else None
    case ServerSend =>
      if b.ssq == 0 then None
      else if b.pc == Sending && b.hs == DataReceiving then
        Some(b.(ssq := b.ssq - 1, sun := b.sun + [WcRdmaWrite], hcq := b.hcq + [WcRecvWithImm],
                t := b.t.(replied := b.t.replied + 1)))
      else if b.pc == Setting && (b.hs == MrspSending || b.hs == MrspReceiving) then
        Some(b.(ssq := b.ssq - 1, sun := b.sun + [WcSend], hcq := b.hcq + [WcRecv]))
      else None
    case ServerAck =>
      if b.sun == [] then None else Some(b.(sun := b.sun[1..], scq := b.scq + [b.sun[0]]))
    case _ => None
  }

  // ---------------------------------------------------------------- queues

  lemma OpsPush(cq: seq<Completion>, wc: Completion)
    ensures Ops(cq + [wc]) == Ops(cq) + [wc.opcode]
  {
  }

  lemma OpsPop(cq: seq<Completion>)
    requires cq != []
    ensures Ops(cq[1..]) == Ops(cq)[1..] && Ops(cq)[0] == cq[0].opcode
  {
  }

  /** With one region there is one input and one output on every call. */
  lemma OneInput(cfg: Config, h: Node, calls: nat)
    requires HostShape(cfg, h, calls) && |cfg.inputs| == 1
    ensures h.ctx.noInput == 1 == |Marked(h.ctx.local)| && |h.ctx.local| == |h.ctx.peer| == 1
  {
    HostSteps.SomeInput(cfg, h, calls);
    HostSteps.InputsCounted(cfg, h, calls);
  }

  lemma OneOutput(cfg: Config, h: Comm, s: Node)
    requires ConfigFits(cfg) && ServerShape(cfg, h, s) && |cfg.inputs| == 1
    ensures s.ctx.noOutput == 1 == |Marked(s.ctx.local)| && |s.ctx.local| == |s.ctx.peer| == 1
  {
    ServerSteps.SomeOutput(cfg, h, s);
    ServerSteps.AnsweredBuffer(cfg, h, s);
  }

  // ---------------------------------------------------------------- the host's steps

  lemma SetupMoves(cfg: Config, j: Joint)
    requires Inv(cfg, j) && !j.ended && j.host.ctx.state == Connected
    ensures BonesOf(DoHostSetup(j)) == BonesOf(j).(hs := MrspSending, hsq := |j.host.sq| + 1)
  {
    HostSteps.SetupKeeps(cfg, j);
    hide Inv, Over, MessageBytes, Ops;
  }

  lemma CallMoves(cfg: Config, j: Joint)
    requires Inv(cfg, j) && !j.ended && Idle(j.host.ctx) && |cfg.inputs| == 1
    ensures BonesOf(DoHostCall(j)) == BonesOf(j).(
      hs := DataSending, hsq := |j.host.sq| + 1, t := j.tally.(started := j.tally.started + 1))
  {
    hide Inv, Ops, Host.Started, HostShape;
    HostSteps.CallKeeps(cfg, j);
    Refinement.CallQueued(cfg, j);
    ShapeOf(cfg, DoHostCall(j));
    ShapeOf(cfg, j);
    OneInput(cfg, DoHostCall(j).host, DoHostCall(j).tally.started);
    HostSteps.CallableTables(cfg, j.host, j.tally.started);
    IdleQueues(cfg, j);
  }

  lemma IdleQueues(cfg: Config, j: Joint)
    requires Inv(cfg, j) && Idle(j.host.ctx)
    ensures j.host.sq == [] && j.host.unacked == [] && j.host.cq == []
  {
    hide HostShape, ServerShape, ServerInv, Link, Host.RequestWord, HostTransferInv, HostSetupInv;
  }

  lemma ShapeOf(cfg: Config, j: Joint)
    requires Inv(cfg, j)
    ensures HostShape(cfg, j.host, j.tally.started) && HostInv(j.host, j.tally) && Ordered(j.tally)
    ensures Answering(j.pc, j.server.ctx) ==> ServerShape(cfg, j.host.ctx, j.server) && ConfigFits(cfg)
    ensures ServerInv(j.server, j.pc, j.tally, Host.RequestWord(j.host.ctx.immediate))
    ensures Settled(j.host.ctx) ==> Answering(j.pc, j.server.ctx)
  {
    hide HostShape, ServerShape, ServerInv, HostInv, PeersLinked, SetupLink, Host.RequestWord, ConfigFits;
    NetSteps.ShapeFits(cfg, j.host, j.tally.started);
  }

  /** The packet at the head of the host's queue: a message before the setup is done, else the request. */
  lemma HeadOfHost(cfg: Config, j: Joint)
    requires Inv(cfg, j) && |cfg.inputs| == 1 && j.host.sq != []
    ensures if Settled(j.host.ctx) then CarriesImmediate(j.host) else j.host.sq[0].Message?
  {
    hide Inv, HostShape, ServerShape, ServerInv, HostTransferInv, PeersLinked, Host.RequestWord, Deliver, Over;
    if Settled(j.host.ctx) {
      Refinement.Transferring(cfg, j);
      Refinement.ChainLength(j.host, j.tally);
      OneInput(cfg, j.host, j.tally.started);
      var i := NetSteps.RequestWriteDelivered(cfg, j);
    } else {
      Runs.InSetup(cfg, j);
    }
  }

  lemma SendMoves(cfg: Config, j: Joint)
    requires Inv(cfg, j) && !j.ended && |cfg.inputs| == 1 && j.host.sq != []
    ensures BonesOf(DoHostSend(j)) == BonesOf(j).(
      hsq := |j.host.sq| - 1,
      hun := j.host.unacked + [if Settled(j.host.ctx) then WcRdmaWrite else WcSend],
      scq := Ops(j.server.cq) + [if Settled(j.host.ctx) then WcRecvWithImm else WcRecv],
      t := if Settled(j.host.ctx) then j.tally.(requested := j.tally.requested + 1) else j.tally)
  {
    hide Inv, Ops, WriteInto, Over, Settled;
    Runs.SendKeeps(cfg, j);
    HeadOfHost(cfg, j);
    forall wc
      ensures Ops(j.server.cq + [wc]) == Ops(j.server.cq) + [wc.opcode]
    {
      OpsPush(j.server.cq, wc);
    }
  }

  lemma AckMoves(j: Joint)
    requires j.host.unacked != []
    ensures BonesOf(DoHostAck(j)) == BonesOf(j).(
      hun := j.host.unacked[1..], hcq := Ops(j.host.cq) + [j.host.unacked[0]])
  {
    hide Ops;
    OpsPush(j.host.cq, Completion(true, j.host.unacked[0], 0, 0));
  }

  lemma ServerAckMoves(j: Joint)
    requires j.server.unacked != []
    ensures BonesOf(DoServerAck(j)) == BonesOf(j).(
      sun := j.server.unacked[1..], scq := Ops(j.server.cq) + [j.server.unacked[0]])
  {
    hide Ops;
    OpsPush(j.server.cq, Completion(true, j.server.unacked[0], 0, 0));
  }

  /** A poll that does not end the run takes one completion and leaves the handled context. */
  lemma PollPops(j: Joint)
    requires j.host.cq != [] && !DoHostPoll(j).ended
    ensures Host.Handleable(j.host.ctx, j.host.cq[0])
    ensures var c := Host.Handle(j.host.ctx, j.host.cq[0]).ctx;
      BonesOf(DoHostPoll(j)) == BonesOf(j).(
        hs := c.state, hcq := Ops(j.host.cq)[1..],
        t := if c.state == Finished then j.tally.(finished := j.tally.finished + 1) else j.tally)
  {
    hide Ops, Host.Handle;
    OpsPop(j.host.cq);
  }

  lemma PollSetupMoves(cfg: Config, j: Joint)
    requires Inv(cfg, j) && !j.ended && j.host.cq != []
    requires (j.host.ctx.state == MrspSending && j.host.cq[0].opcode == WcSend) || j.host.ctx.state == MrspReceiving
    ensures BonesOf(DoHostPoll(j)) == BonesOf(j).(
      hs := if j.host.ctx.state == MrspSending then MrspReceiving else MrspDone, hcq := Ops(j.host.cq)[1..])
  {
    hide Inv, Ops;
    PollSteps.HostPollKeeps(cfg, j);
    PollPops(j);
    if j.host.ctx.state == MrspReceiving {
      PollSteps.PollAnswerKeeps(cfg, j);
    } else {
      ShapeOf(cfg, j);
      PollSteps.HostStates(j.host, j.tally);
    }
  }

  /** In a one-region call the write alone leads to receiving, and the response then to the end. */
  lemma CountedStates(cfg: Config, h: Node, t: Tally)
    requires HostShape(cfg, h, t.started) && HostTransferInv(h, t) && Ordered(t) && |cfg.inputs| == 1 && h.cq != []
    ensures var c := Host.CountCompletion(h.ctx, h.cq[0]);
      && (h.cq[0].opcode == WcRdmaWrite && t.replied == t.finished ==> c.state == DataReceiving)
      && (h.cq[0].opcode == WcRecvWithImm && h.sq == [] && h.unacked == [] && |h.cq| == 1 ==> c.state == Finished)
  {
    OneInput(cfg, h, t.started);
    hide HostShape, Remaining, Host.Posted, Marked, Immediates;
    PollSteps.OnlyTotal(h.cq, WcRdmaWrite, WcRecvWithImm);
    PollSteps.OnlyPop(h.cq, WcRdmaWrite, WcRecvWithImm);
  }

  lemma PollTransferMoves(cfg: Config, j: Joint)
    requires Inv(cfg, j) && !j.ended && j.host.cq != [] && |cfg.inputs| == 1 && InTransfer(j.host.ctx)
    ensures j.host.cq[0].opcode == WcRdmaWrite && j.tally.replied == j.tally.finished ==>
      BonesOf(DoHostPoll(j)) == BonesOf(j).(hs := DataReceiving, hcq := Ops(j.host.cq)[1..])
    ensures j.host.cq[0].opcode == WcRecvWithImm && j.host.sq == [] && j.host.unacked == [] && |j.host.cq| == 1 ==>
      BonesOf(DoHostPoll(j)) == BonesOf(j).(
        hs := Finished, hcq := [], t := j.tally.(finished := j.tally.finished + 1))
  {
    hide Inv, Ops, Host.CountCompletion, Host.Handle, HostShape, HostTransferInv, ServerShape, ServerInv;
    PollSteps.PollTransferKeeps(cfg, j);
    PollPops(j);
    Refinement.TransferLink(cfg, j);
    PollSteps.PollTransfer(j.host, j.tally);
    CountedStates(cfg, j.host, j.tally);
  }

  // ---------------------------------------------------------------- the worker's steps

  lemma PollServerPops(j: Joint, allocs: seq<Server.Alloc>)
    requires j.server.cq != [] && !DoServerPoll(j, allocs).ended
    ensures Server.Handleable(j.server.ctx, j.server.cq[0], allocs)
    ensures Server.Handle(j.server.ctx, j.server.cq[0], allocs).ok
    ensures var r := Server.Handle(j.server.ctx, j.server.cq[0], allocs);
      BonesOf(DoServerPoll(j, allocs)) == BonesOf(j).(
        pc := PcAfter(j.pc, r.ctx), ss := r.ctx.state, scq := Ops(j.server.cq)[1..],
        ssq := |j.server.sq| + if r.sent.None? then 0 else 1)
  {
    hide Ops, Server.Handle, PcAfter, FreshMemory;
    OpsPop(j.server.cq);
  }

  /** The request is waiting, and one buffer is what it needs. */
  lemma RequestMoves(cfg: Config, j: Joint)
    requires Inv(cfg, j) && !j.ended && Smallest(cfg)
    requires j.pc == Setting && j.server.ctx.state == MrspReceiving && j.server.cq != []
    ensures Enabled(j, ServerPoll(ALLOCS))
    ensures BonesOf(DoServerPoll(j, ALLOCS)) == BonesOf(j).(
      ss := MrspSending, ssq := |j.server.sq| + 1, scq := Ops(j.server.cq)[1..])
  {
    hide Inv, HostShape, HostInv, ServerShape, ServerInv, Ops, Setup.CarriesRequest, Link, Server.Handle,
      DoServerPoll, Server.Handleable, Server.Blank, Host.RequestWord, PcAfter;
    RequestWaits(cfg, j);
    ServerSteps.ServerPollKeeps(cfg, j, ALLOCS);
    PollServerPops(j, ALLOCS);
    RequestHandled(j, ALLOCS);
  }

  /** The waiting request has one record, so one buffer answers it. */
  lemma RequestWaits(cfg: Config, j: Joint)
    requires Inv(cfg, j) && Smallest(cfg)
    requires j.pc == Setting && j.server.ctx.state == MrspReceiving && j.server.cq != []
    ensures |j.server.ctx.message| == MESSAGE_CAPACITY && j.server.ctx.message[1] == 1
    ensures j.server.cq[0].opcode == WcRecv
    ensures PcAfter(j.pc, j.server.ctx.(state := MrspSending)) == Setting
  {
    hide Inv, HostShape, HostInv, ServerShape, ServerInv, Setup.CarriesRequest, Link;
    ShapeOf(cfg, j);
    LinkOf(cfg, j);
    ServerSteps.RequestQueued(j, Host.RequestWord(j.host.ctx.immediate));
    ServerSteps.CarriedCount(j.server.ctx.message, j.host.ctx);
    RequestedOne(cfg, j);
  }

  lemma LinkOf(cfg: Config, j: Joint)
    requires Inv(cfg, j)
    ensures Link(j)
  {
    hide HostShape, HostInv, ServerShape, ServerInv, Link, Host.RequestWord;
  }

  lemma RequestedOne(cfg: Config, j: Joint)
    requires HostShape(cfg, j.host, j.tally.started) && Smallest(cfg)
    ensures |j.host.ctx.local| + |j.host.ctx.internals| == 1
  {
    hide HostRegionFits, DistinctAddresses, Marked, KernelFits;
  }

  lemma RequestHandled(j: Joint, allocs: seq<Server.Alloc>)
    requires j.server.ctx.state == MrspReceiving && j.server.cq != [] && j.server.cq[0].opcode == WcRecv
    requires Server.Handleable(j.server.ctx, j.server.cq[0], allocs)
    requires Server.Handle(j.server.ctx, j.server.cq[0], allocs).ok
    ensures var r := Server.Handle(j.server.ctx, j.server.cq[0], allocs);
      r.ctx.state == MrspSending && r.sent.Some? && PcAfter(Setting, r.ctx) == Setting
  {
    hide Server.Fill, MessageBytes, Over;
  }

  lemma PollAnswerMoves(cfg: Config, j: Joint)
    requires Inv(cfg, j) && !j.ended && j.server.cq != []
    requires j.pc == Setting && j.server.ctx.state == MrspSending && j.server.cq[0].opcode == WcSend
    ensures BonesOf(DoServerPoll(j, [])) == BonesOf(j).(
      pc := Arming, ss := MrspDone, scq := Ops(j.server.cq)[1..])
  {
    hide Inv, Ops;
    ServerSteps.PollSettingKeeps(cfg, j, []);
    PollServerPops(j, []);
  }

  lemma PollRequestMoves(cfg: Config, j: Joint)
    requires Inv(cfg, j) && !j.ended && j.server.cq != [] && j.pc == Receiving
    ensures j.server.ctx.state == DataReceiving
    ensures BonesOf(DoServerPoll(j, [])) == BonesOf(j).(
      pc := Computing, ss := Calculating, scq := Ops(j.server.cq)[1..])
  {
    hide Inv, Ops;
    ServerSteps.PollReceivingKeeps(cfg, j, []);
    PollServerPops(j, []);
    ShapeOf(cfg, j);
    hide ServerInv;
    ServerSteps.RequestImmediate(j.server, j.tally, Host.RequestWord(j.host.ctx.immediate));
  }

  lemma ComputeMoves(cfg: Config, j: Joint)
    requires Inv(cfg, j) && !j.ended && j.pc == Computing && Smallest(cfg)
    ensures BonesOf(DoServerCompute(cfg, j)) == BonesOf(j).(
      pc := Replying, t := j.tally.(kernels := j.tally.kernels + 1))
  {
    hide Inv, Ops;
  }

  lemma ReplyMoves(cfg: Config, j: Joint)
    requires Inv(cfg, j) && !j.ended && j.pc == Replying && |cfg.inputs| == 1
    ensures BonesOf(DoServerReply(j)) == BonesOf(j).(
      pc := Sending, ss := DataSending, ssq := |j.server.sq| + 1)
  {
    hide Inv, Ops, HostShape, HostInv, ServerInv, ServerShape, Marked, Slot;
    ServerSteps.ReplyKeeps(cfg, j);
    ShapeOf(cfg, j);
    ServerSteps.ReplyingAnswers(j.server, j.tally, Host.RequestWord(j.host.ctx.immediate));
    OneOutput(cfg, j.host.ctx, j.server);
  }

  lemma HeadOfServer(cfg: Config, j: Joint)
    requires Inv(cfg, j) && |cfg.inputs| == 1 && j.server.sq != []
    ensures if Settled(j.host.ctx) then CarriesImmediate(j.server) else j.server.sq[0].Message?
  {
    hide Inv, HostShape, ServerShape, ServerInv, HostInv, PeersLinked, Host.RequestWord, Deliver, Marked;
    if Settled(j.host.ctx) {
      Refinement.ReplyUnderWay(cfg, j);
      NetSteps.ShapeFits(cfg, j.host, j.tally.started);
      OneOutput(cfg, j.host.ctx, j.server);
      var i := NetSteps.ReplyDelivered(cfg, j);
    } else {
      Runs.InSetup(cfg, j);
    }
  }

  lemma ServerSendMoves(cfg: Config, j: Joint)
    requires Inv(cfg, j) && !j.ended && |cfg.inputs| == 1 && j.server.sq != []
    ensures BonesOf(DoServerSend(j)) == BonesOf(j).(
      ssq := |j.server.sq| - 1,
      sun := j.server.unacked + [if Settled(j.host.ctx) then WcRdmaWrite else WcSend],
      hcq := Ops(j.host.cq) + [if Settled(j.host.ctx) then WcRecvWithImm else WcRecv],
      t := if Settled(j.host.ctx) then j.tally.(replied := j.tally.replied + 1) else j.tally)
  {
    hide Inv, Ops, WriteInto, Over, Settled;
    Runs.ReplySendKeeps(cfg, j);
    HeadOfServer(cfg, j);
    forall wc
      ensures Ops(j.host.cq + [wc]) == Ops(j.host.cq) + [wc.opcode]
    {
      OpsPush(j.host.cq, wc);
    }
  }

  // ---------------------------------------------------------------- runs by their bones

  lemma HostMoves(cfg: Config, j: Joint, step: Step)
    requires Inv(cfg, j) && !j.ended && Smallest(cfg) && Moved(BonesOf(j), step).Some?
    requires step.HostSetup? || step.HostCall? || step.HostSend? || step.HostAck? || step.HostPoll?
    ensures Enabled(j, step) && BonesOf(Do(cfg, j, step)) == Moved(BonesOf(j), step).value
  {
    hide Inv, DoHostSetup, DoHostCall, DoHostSend, DoHostAck, DoHostPoll;
    match step {
      case HostSetup => SetupMoves(cfg, j);
      case HostCall => CallMoves(cfg, j);
      case HostSend => SendMoves(cfg, j);
      case HostAck => AckMoves(j);
      case HostPoll =>
        OpsPop(j.host.cq);
        if InTransfer(j.host.ctx) {
          PollTransferMoves(cfg, j);
        } else {
          PollSetupMoves(cfg, j);
        }
    }
  }

  lemma BootMoves(j: Joint)
    ensures j.pc == Boot ==> BonesOf(DoServerBoot(j)) == BonesOf(j).(pc := Setting, ss := MrspReceiving)
    ensures j.pc == Arming ==> BonesOf(DoServerArm(j)) == BonesOf(j).(pc := Receiving, ss := DataReceiving)
  {
    hide Ops;
  }

  lemma ServerMoves(cfg: Config, j: Joint, step: Step)
    requires Inv(cfg, j) && !j.ended && Smallest(cfg) && Moved(BonesOf(j), step).Some?
    requires step.ServerBoot? || step.ServerArm? || step.ServerCompute? || step.ServerReply? || step.ServerSend?
      || step.ServerAck? || step.ServerPoll?
    ensures Enabled(j, step) && BonesOf(Do(cfg, j, step)) == Moved(BonesOf(j), step).value
  {
    hide Inv, DoServerBoot, DoServerArm, DoServerCompute, DoServerReply, DoServerSend, DoServerAck, DoServerPoll;
    match step {
      case ServerBoot => BootMoves(j);
      case ServerArm => BootMoves(j);
      case ServerCompute => ComputeMoves(cfg, j);
      case ServerReply => ReplyMoves(cfg, j);
      case ServerSend => ServerSendMoves(cfg, j);
      case ServerAck => ServerAckMoves(j);
      case ServerPoll(_) =>
        OpsPop(j.server.cq);
        if j.pc == Setting && j.server.ctx.state == MrspReceiving {
          RequestMoves(cfg, j);
        } else if j.pc == Setting {
          PollAnswerMoves(cfg, j);
        } else {
          PollRequestMoves(cfg, j);
        }
    }
  }

  lemma NotRefused(cfg: Config, j: Joint, step: Step)
    requires Smallest(cfg) && Moved(BonesOf(j), step).Some?
    ensures !Runs.Refused(cfg, j, step)
  {
    if step.HostPoll? {
      OpsPop(j.host.cq);
    } else if step.ServerPoll? {
      OpsPop(j.server.cq);
    }
  }

  /** A legal run from `j` to `e` that has not ended. */
  ghost predicate Leads(cfg: Config, j: Joint, steps: seq<Step>, e: Joint) {
    Inv(cfg, e) && !e.ended && Legal(cfg, j, steps) && Run(cfg, j, steps) == e
  }

  lemma Next(cfg: Config, j: Joint, steps: seq<Step>, e: Joint, step: Step) returns (steps': seq<Step>, e': Joint)
    requires Smallest(cfg) && Leads(cfg, j, steps, e) && Moved(BonesOf(e), step).Some?
    ensures Leads(cfg, j, steps', e') && BonesOf(e') == Moved(BonesOf(e), step).value
  {
    hide Inv, Legal, Run, BonesOf, Moved, Runs.Refused, Smallest, Enabled, Do;
    if step.HostSetup? || step.HostCall? || step.HostSend? || step.HostAck? || step.HostPoll? {
      HostMoves(cfg, e, step);
    } else {
      OnlyThese(BonesOf(e), step);
      ServerMoves(cfg, e, step);
    }
    NotRefused(cfg, e, step);
    Runs.StepKeeps(cfg, e, step);
    Runs.RunAppend(cfg, j, steps, step);
    steps', e' := steps + [step], Do(cfg, e, step);
  }

  lemma OnlyThese(b: Bones, step: Step)
    requires Moved(b, step).Some?
    ensures !step.AppWrite? && !step.AppLimit? && !step.AppImmediate?
  {
  }

  lemma StartBones(cfg: Config, j: Joint)
    requires Initial(cfg, j)
    ensures Leads(cfg, j, [], j)
    ensures BonesOf(j) == Bones(Connected, 0, [], [], Boot, Connected, 0, [], [], NO_CALLS)
  {
    InitialInv(cfg, j);
    hide Inv, HostShape;
  }

  /** The setup, with the worker's answer not yet acknowledged. */
  lemma SetupCanFinish(cfg: Config, j: Joint) returns (s: seq<Step>, e: Joint)
    requires Smallest(cfg) && Initial(cfg, j)
    ensures Leads(cfg, j, s, e)
    ensures BonesOf(e) == Bones(MrspDone, 0, [], [], Setting, MrspSending, 0, [WcSend], [], NO_CALLS)
  {
    hide Leads, BonesOf, Smallest, Initial;
    StartBones(cfg, j);
    s, e := [], j;
    s, e := Next(cfg, j, s, e, HostSetup);
    s, e := Next(cfg, j, s, e, HostSend);
    s, e := Next(cfg, j, s, e, HostAck);
    s, e := Next(cfg, j, s, e, HostPoll);
    s, e := Next(cfg, j, s, e, ServerBoot);
    s, e := Next(cfg, j, s, e, ServerPoll(ALLOCS));
    s, e := Next(cfg, j, s, e, ServerSend);
    s, e := Next(cfg, j, s, e, HostPoll);
  }

  const ONE_CALL := Tally(1, 1, 0, 0, 0)

  lemma CallCanArrive(cfg: Config, j: Joint) returns (s: seq<Step>, e: Joint)
    requires Smallest(cfg) && Initial(cfg, j)
    ensures Leads(cfg, j, s, e)
    ensures BonesOf(e) ==
      Bones(DataReceiving, 0, [], [], Receiving, DataReceiving, 0, [], [WcRecvWithImm], ONE_CALL)
  {
    hide BonesOf, Smallest, Initial, Leads;
    s, e := SetupCanFinish(cfg, j);
    s, e := Next(cfg, j, s, e, ServerAck);
    s, e := Next(cfg, j, s, e, ServerPoll([]));
    s, e := Next(cfg, j, s, e, ServerArm);
    s, e := Next(cfg, j, s, e, HostCall);
    s, e := Next(cfg, j, s, e, HostSend);
    s, e := Next(cfg, j, s, e, HostAck);
    s, e := Next(cfg, j, s, e, HostPoll);
  }

  lemma CallCanBeAnswered(cfg: Config, j: Joint) returns (s: seq<Step>, e: Joint)
    requires Smallest(cfg) && Initial(cfg, j)
    ensures Leads(cfg, j, s, e)
    ensures BonesOf(e) ==
      Bones(Finished, 0, [], [], Sending, DataSending, 0, [WcRdmaWrite], [], Tally(1, 1, 1, 1, 1))
  {
    hide BonesOf, Smallest, Initial, Leads;
    s, e := CallCanArrive(cfg, j);
    s, e := Next(cfg, j, s, e, ServerPoll([]));
    s, e := Next(cfg, j, s, e, ServerCompute);
    s, e := Next(cfg, j, s, e, ServerReply);
    s, e := Next(cfg, j, s, e, ServerSend);
    s, e := Next(cfg, j, s, e, HostPoll);
  }

  /** A whole call can be completed. */
  lemma CallCanFinish(cfg: Config, j: Joint) returns (s: seq<Step>)
    requires Smallest(cfg) && Initial(cfg, j)
    ensures Legal(cfg, j, s) && !Run(cfg, j, s).ended
    ensures Run(cfg, j, s).host.ctx.state == Finished && Run(cfg, j, s).tally.finished == 1
  {
    hide BonesOf, Smallest, Initial, Leads, Legal, Run;
    var e;
    s, e := CallCanBeAnswered(cfg, j);
    ReadBones(cfg, j, s, e);
  }

  lemma ReadBones(cfg: Config, j: Joint, s: seq<Step>, e: Joint)
    requires Leads(cfg, j, s, e)
    ensures Legal(cfg, j, s) && Run(cfg, j, s) == e && !e.ended && Inv(cfg, e)
    ensures var b := BonesOf(e);
      && e.host.ctx.state == b.hs && e.tally == b.t && e.pc == b.pc && e.server.ctx.state == b.ss
      && |e.server.cq| == |b.scq| && (b.scq != [] ==> e.server.cq[0].opcode == b.scq[0])
      && |e.host.cq| == |b.hcq| && (b.hcq != [] ==> e.host.cq[0].opcode == b.hcq[0])
  {
    hide Inv, Legal, Run;
    if e.host.cq != [] {
      OpsPop(e.host.cq);
    }
    if e.server.cq != [] {
      OpsPop(e.server.cq);
    }
  }

  lemma RequestCanArriveEarly(cfg: Config, j: Joint) returns (s: seq<Step>, e: Joint)
    requires Smallest(cfg) && Initial(cfg, j)
    ensures Leads(cfg, j, s, e)
    ensures BonesOf(e) ==
      Bones(DataSending, 0, [WcRdmaWrite], [], Setting, MrspSending, 0, [WcSend], [WcRecvWithImm], ONE_CALL)
  {
    hide BonesOf, Smallest, Initial, Leads;
    s, e := SetupCanFinish(cfg, j);
    s, e := Next(cfg, j, s, e, HostCall);
    s, e := Next(cfg, j, s, e, HostSend);
  }

  /** The host is free to call at once; its request then meets a worker still in MRSP_SENDING and is refused. */
  lemma RequestCanOvertake(cfg: Config, j: Joint) returns (s: seq<Step>)
    requires Smallest(cfg) && Initial(cfg, j)
    ensures Legal(cfg, j, s) && Enabled(Run(cfg, j, s), ServerPoll([]))
    ensures Run(cfg, j, s).server.ctx.state == MrspSending
    ensures Do(cfg, Run(cfg, j, s), ServerPoll([])).ended
  {
    hide BonesOf, Smallest, Initial, Leads, Inv, DoServerPoll, Legal, Run;
    var e;
    s, e := RequestCanArriveEarly(cfg, j);
    ReadBones(cfg, j, s, e);
    ServerSteps.PollEarly(cfg, e, []);
  }

  lemma NextRequestCanArriveEarly(cfg: Config, j: Joint) returns (s: seq<Step>, e: Joint)
    requires Smallest(cfg) && Initial(cfg, j)
    ensures Leads(cfg, j, s, e)
    ensures BonesOf(e) == Bones(DataSending, 0, [WcRdmaWrite], [], Sending, DataSending, 0, [WcRdmaWrite],
                                [WcRecvWithImm], Tally(2, 2, 1, 1, 1))
  {
    hide BonesOf, Smallest, Initial, Leads;
    s, e := CallCanBeAnswered(cfg, j);
    s, e := Next(cfg, j, s, e, HostCall);
    s, e := Next(cfg, j, s, e, HostSend);
  }

  /** The request of a second call can overtake the worker's own write of the first reply, and is refused. */
  lemma NextRequestCanOvertake(cfg: Config, j: Joint) returns (s: seq<Step>)
    requires Smallest(cfg) && Initial(cfg, j)
    ensures Legal(cfg, j, s) && Enabled(Run(cfg, j, s), ServerPoll([]))
    ensures Run(cfg, j, s).server.ctx.state == DataSending && Run(cfg, j, s).tally.finished == 1
    ensures Do(cfg, Run(cfg, j, s), ServerPoll([])).ended
  {
    hide BonesOf, Smallest, Initial, Leads, Inv, DoServerPoll, Legal, Run;
    var e;
    s, e := NextRequestCanArriveEarly(cfg, j);
    ReadBones(cfg, j, s, e);
    ServerSteps.PollEarly(cfg, e, []);
  }

  lemma AnswerCanArriveEarly(cfg: Config, j: Joint) returns (s: seq<Step>, e: Joint)
    requires Smallest(cfg) && Initial(cfg, j)
    ensures Leads(cfg, j, s, e)
    ensures BonesOf(e) ==
      Bones(MrspSending, 0, [WcSend], [WcRecv], Setting, MrspSending, 0, [WcSend], [], NO_CALLS)
  {
    hide BonesOf, Smallest, Initial, Leads;
    StartBones(cfg, j);
    s, e := [], j;
    s, e := Next(cfg, j, s, e, HostSetup);
    s, e := Next(cfg, j, s, e, HostSend);
    s, e := Next(cfg, j, s, e, ServerBoot);
    s, e := Next(cfg, j, s, e, ServerPoll(ALLOCS));
    s, e := Next(cfg, j, s, e, ServerSend);
  }

  /** The answer can be queued before the acknowledgement of the request; the host's handler then refuses it. */
  lemma AnswerCanOvertake(cfg: Config, j: Joint) returns (s: seq<Step>)
    requires Smallest(cfg) && Initial(cfg, j)
    ensures Legal(cfg, j, s) && Enabled(Run(cfg, j, s), HostPoll)
    ensures Do(cfg, Run(cfg, j, s), HostPoll).ended
  {
    hide BonesOf, Smallest, Initial, Leads, Inv, DoHostPoll, Legal, Run;
    var e;
    s, e := AnswerCanArriveEarly(cfg, j);
    ReadBones(cfg, j, s, e);
    PollSteps.PollAnswerFirst(cfg, e);
  }

  // ---------------------------------------------------------------- the smallest connection exists

  const SMALLEST := Config([true], [true], [false], [1], [], (f, imm, mem) => (0, mem))

  function SmallestHost(): Comm {
    Comm(Connected, 2, 2, [LocalRegion(100, 1, true, 1, 5, true, false)], [PeerRegion(0, 0, 0, true, false)], [],
         1, 1, 0, false, 0, 0, 0, 0, seq(MESSAGE_CAPACITY, _ => 0))
  }

  function SmallestJoint(): Joint {
    Joint(Node(SmallestHost(), [[7]], [], [], [], []),
          Node(Comm(Connected, 0, 0, [], [], [], 0, 0, 0, false, 0, 0, 0, 0, seq(MESSAGE_CAPACITY, _ => 0)),
               [], [], [], [], [MESSAGE_CAPACITY]),
          Boot, NO_CALLS, false)
  }

  /** The premises of every statement about runs can be met. */
  lemma SmallestIsInitial()
    ensures Smallest(SMALLEST) && Initial(SMALLEST, SmallestJoint())
  {
    var h := SmallestHost();
    assert h.local[..0] == [] && h.peer[..0] == [];
    assert SMALLEST.inputs[0] && SMALLEST.outputs[0];
  }
}
