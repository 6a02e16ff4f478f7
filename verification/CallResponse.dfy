/** What a finished call tells the application beside its memory. */
module CallResponse {
  import opened Context
  import opened Chain
  import opened Messages
  import opened Machine
  import opened Invariant
  import NetSteps
  import Refinement
  import Runs
  import ServerSteps
  import Host
  import Server

  /** The last marked region, or -1. */
  function LastMarked(marks: seq<bool>): (i: int)
    ensures -1 <= i < |marks|
    ensures i >= 0 ==> marks[i]
    ensures forall k :: i < k < |marks| ==> !marks[k]
  {
    if marks == [] then -1
    else if marks[|marks| - 1] then |marks| - 1
    else LastMarked(marks[..|marks| - 1])
  }

  /** The length of the last output, which travels in the write that carries the immediate. */
  function ResponseLength(cfg: Config): nat {
    var i := LastMarked(cfg.outputs);
    if 0 <= i < |cfg.lengths| then cfg.lengths[i] else 0
  }

  predicate IsResponse(cfg: Config, wc: Completion) {
    wc.opcode == WcRecvWithImm ==> wc.imm == 0 && wc.byteLen == ResponseLength(cfg)
  }

  /** The context holds what a call's response brings. */
  predicate Holds(cfg: Config, c: Comm) {
    c.responseUserImm == 0 && c.bytesReceived == ResponseLength(cfg)
  }

  predicate ResponseInv(cfg: Config, h: Node) {
    && (forall k :: 0 <= k < |h.cq| ==> IsResponse(cfg, h.cq[k]))
    && (h.ctx.responseReceived || h.ctx.state == Finished ==> Holds(cfg, h.ctx))
  }

  // ---------------------------------------------------------------- the host's queue

  lemma PushKeeps(cfg: Config, h: Node, h': Node, wc: Completion)
    requires ResponseInv(cfg, h) && IsResponse(cfg, wc) && h'.cq == h.cq + [wc]
    requires h'.ctx == h.ctx.(message := h'.ctx.message)
    ensures ResponseInv(cfg, h')
  {
  }

  /** Only the host's own sends are acknowledged. */
  lemma AckedOpcode(h: Node, t: Tally)
    requires HostInv(h, t) && h.unacked != []
    ensures h.unacked[0] != WcRecvWithImm
  {
    hide Remaining, Host.Posted, Only, Immediates, Count;
  }

  lemma PollKeeps(cfg: Config, j: Joint)
    requires ResponseInv(cfg, j.host) && j.host.cq != []
    ensures ResponseInv(cfg, DoHostPoll(j).host)
  {
    hide IsResponse;
    assert IsResponse(cfg, j.host.cq[0]);
    if Host.Handleable(j.host.ctx, j.host.cq[0]) {
      HandleKeeps(cfg, j.host.ctx, j.host.cq[0]);
    }
    hide Host.Handle, Holds;
  }

  lemma HandleKeeps(cfg: Config, c: Comm, wc: Completion)
    requires Host.Handleable(c, wc) && IsResponse(cfg, wc)
    requires c.responseReceived || c.state == Finished ==> Holds(cfg, c)
    ensures var c' := Host.Handle(c, wc).ctx;
      c'.responseReceived || c'.state == Finished ==> Holds(cfg, c')
  {
    hide ResponseLength, Host.Recorded;
  }

  // ---------------------------------------------------------------- the worker's reply

  lemma LastOutput(cfg: Config, h: Comm, s: Node)
    requires ConfigFits(cfg) && ServerShape(cfg, h, s)
    ensures var m := Marked(s.ctx.local);
      m != [] && m[|m| - 1] < |cfg.lengths| && ResponseLength(cfg) == cfg.lengths[m[|m| - 1]] < 0x1_0000_0000
  {
    ServerSteps.SomeOutput(cfg, h, s);
    Refinement.OutputsMarked(cfg, h, s);
    var m := Marked(s.ctx.local);
    var i := m[|m| - 1];
    assert i < |cfg.inputs| == |cfg.outputs| == |cfg.lengths|;
    assert i in m && cfg.outputs[i];
    hide Marked, ServerShape, KernelFits;
    assert LastMarked(cfg.outputs) == i by {
      if LastMarked(cfg.outputs) > i {
        var k := LastMarked(cfg.outputs);
        assert k in m;
      }
    }
  }

  lemma ReplyKeeps(cfg: Config, j: Joint)
    requires Inv(cfg, j) && ResponseInv(cfg, j.host) && j.server.sq != [] && Settled(j.host.ctx)
    ensures ResponseInv(cfg, DoServerSend(j).host)
  {
    hide HostShape, ServerShape, ServerInv, HostInv, Host.RequestWord, Inv, Marked, IsResponse, WriteInto, ConfigFits,
      ServerSendingInv, ResponseLength;
    Refinement.ReplyUnderWay(cfg, j);
    NetSteps.ShapeFits(cfg, j.host, j.tally.started);
    NetSteps.SendingInv(j.server, j.tally, Host.RequestWord(j.host.ctx.immediate));
    var i := NetSteps.NextReplyWrite(cfg, j.host.ctx, j.server);
    LastOutput(cfg, j.host.ctx, j.server);
    var wr := j.server.sq[0].wr;
    if wr.imm.Some? {
      var wc := Completion(true, WcRecvWithImm, wr.imm.value, wr.length);
      ResponseOf(cfg, wc);
      if !DoServerSend(j).ended || j.ended {
        SentKeeps(cfg, j, wc);
      }
    }
  }

  lemma ResponseOf(cfg: Config, wc: Completion)
    requires wc.imm == 0 && wc.byteLen == ResponseLength(cfg)
    ensures IsResponse(cfg, wc)
  {
  }

  lemma SentKeeps(cfg: Config, j: Joint, wc: Completion)
    requires ResponseInv(cfg, j.host) && j.server.sq != [] && j.server.sq[0].Write? && j.server.sq[0].wr.imm.Some?
    requires wc == Completion(true, WcRecvWithImm, j.server.sq[0].wr.imm.value, j.server.sq[0].wr.length)
    requires IsResponse(cfg, wc)
    ensures ResponseInv(cfg, DoServerSend(j).host)
  {
    hide IsResponse, WriteInto, Holds;
    var h' := DoServerSend(j).host;
    if h' != j.host {
      PushKeeps(cfg, j.host, h', wc);
    }
  }

  lemma AnswerKeeps(cfg: Config, j: Joint)
    requires ResponseInv(cfg, j.host) && j.server.sq != [] && j.server.sq[0].Message?
    ensures ResponseInv(cfg, DoServerSend(j).host)
  {
    hide Over, ResponseLength;
  }

  // ---------------------------------------------------------------- all steps

  lemma SendKeeps(cfg: Config, j: Joint)
    requires Inv(cfg, j) && ResponseInv(cfg, j.host) && j.server.sq != []
    ensures ResponseInv(cfg, DoServerSend(j).host)
  {
    hide Inv, ResponseInv, DoServerSend, Settled;
    if Settled(j.host.ctx) {
      ReplyKeeps(cfg, j);
    } else {
      Runs.InSetup(cfg, j);
      AnswerKeeps(cfg, j);
    }
  }

  lemma AckKeeps(cfg: Config, j: Joint)
    requires Inv(cfg, j) && ResponseInv(cfg, j.host) && j.host.unacked != []
    ensures ResponseInv(cfg, DoHostAck(j).host)
  {
    hide Inv, HostInv, ResponseLength, Holds;
    assert HostInv(j.host, j.tally) by { HostOf(cfg, j); }
    AckedOpcode(j.host, j.tally);
    PushKeeps(cfg, j.host, DoHostAck(j).host, Completion(true, j.host.unacked[0], 0, 0));
  }

  lemma HostOf(cfg: Config, j: Joint)
    requires Inv(cfg, j)
    ensures HostInv(j.host, j.tally)
  {
    hide HostShape, HostInv, ServerShape, ServerInv, Link, Host.RequestWord;
  }

  lemma CallKeeps(cfg: Config, j: Joint)
    requires ResponseInv(cfg, j.host)
    ensures ResponseInv(cfg, DoHostCall(j).host)
  {
    hide IsResponse, Holds, Host.DropSingles, Host.DropCount, Host.Posted;
  }

  lemma SetupKeeps(cfg: Config, j: Joint)
    requires ResponseInv(cfg, j.host)
    ensures ResponseInv(cfg, DoHostSetup(j).host)
  {
    hide IsResponse, MessageBytes, Over;
  }

  lemma AppKeeps(cfg: Config, j: Joint, step: Step)
    requires ResponseInv(cfg, j.host) && Enabled(j, step)
    requires step.AppWrite? || step.AppLimit? || step.AppImmediate?
    ensures ResponseInv(cfg, Do(cfg, j, step).host)
  {
    hide IsResponse, Host.Word, ResponseLength;
  }

  /** Steps of the worker and sends of the host leave the host's queue and context alone. */
  lemma WorkerKeeps(cfg: Config, j: Joint, step: Step)
    requires Enabled(j, step)
    requires step.HostSend? || step.ServerBoot? || step.ServerPoll? || step.ServerArm? || step.ServerCompute?
      || step.ServerReply? || step.ServerAck?
    ensures var h := Do(cfg, j, step).host; h.cq == j.host.cq && h.ctx == j.host.ctx
  {
    hide WriteInto, Over, Server.Handle, Server.Handleable, FreshMemory, Server.Reply;
  }

  lemma StepKeeps(cfg: Config, j: Joint, step: Step)
    requires Inv(cfg, j) && ResponseInv(cfg, j.host) && Enabled(j, step)
    ensures ResponseInv(cfg, Do(cfg, j, step).host)
  {
    hide Inv, DoHostSetup, DoHostCall, DoHostAck, DoHostPoll, DoServerSend, DoHostSend, DoServerBoot, DoServerPoll,
      DoServerArm, DoServerCompute, DoServerReply, DoServerAck, IsResponse, Holds;
    match step {
      case HostSetup => SetupKeeps(cfg, j);
      case HostCall => CallKeeps(cfg, j);
      case HostAck => AckKeeps(cfg, j);
      case HostPoll => PollKeeps(cfg, j);
      case ServerSend => SendKeeps(cfg, j);
      case AppWrite(_, _) => AppKeeps(cfg, j, step);
      case AppLimit(_, _) => AppKeeps(cfg, j, step);
      case AppImmediate(_) => AppKeeps(cfg, j, step);
      case _ => WorkerKeeps(cfg, j, step);
    }
  }

  lemma {:induction false} Along(cfg: Config, j: Joint, steps: seq<Step>)
    requires Inv(cfg, j) && ResponseInv(cfg, j.host) && Legal(cfg, j, steps)
    ensures ResponseInv(cfg, Run(cfg, j, steps).host)
    decreases |steps|
  {
    hide Inv, ResponseInv, Enabled, Do, Runs.Refused;
    if steps != [] {
      Runs.StepKeeps(cfg, j, steps[0]);
      StepKeeps(cfg, j, steps[0]);
      Along(cfg, Do(cfg, j, steps[0]), steps[1..]);
    }
  }

  /**
   * In every run, whenever the host is in FINISHED the application reads a user response of 0 and,
   * as the number of bytes received, the length of its last output region.
   */
  lemma {:induction false} FinishedResponse(cfg: Config, j: Joint, steps: seq<Step>)
    requires Initial(cfg, j) && Legal(cfg, j, steps) && Run(cfg, j, steps).host.ctx.state == Finished
    ensures var c := Run(cfg, j, steps).host.ctx;
      c.responseUserImm == 0 && c.bytesReceived == ResponseLength(cfg)
  {
    InitialInv(cfg, j);
    hide Inv, Legal, Run, HostShape;
    Along(cfg, j, steps);
  }
}
