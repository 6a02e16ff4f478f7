/** Polling a completion on either end: when the handler accepts it, and what it keeps. */
module PollSteps {
  import opened Bytes
  import opened Context
  import opened Chain
  import opened Messages
  import opened Wire
  import opened Machine
  import opened Invariant
  import HostSteps
  import NetSteps
  import Host
  import Setup

  lemma {:induction false} OnlyTotal(cq: seq<Completion>, a: Opcode, b: Opcode)
    requires Only(cq, a, b)
    ensures |cq| == Count(cq, a) + if a == b then 0 else Count(cq, b)
  {
    if cq != [] {
      OnlyTotal(cq[..|cq| - 1], a, b);
    }
  }

  lemma OnlyPop(cq: seq<Completion>, a: Opcode, b: Opcode)
    requires Only(cq, a, b) && cq != []
    ensures Only(cq[1..], a, b) && cq[0].success && (cq[0].opcode == a || cq[0].opcode == b)
    ensures Count(cq[1..], a) == Count(cq, a) - One(cq[0].opcode == a)
    ensures Count(cq[1..], b) == Count(cq, b) - One(cq[0].opcode == b)
  {
    CountPop(cq, a);
    CountPop(cq, b);
  }

  // ---------------------------------------------------------------- the host during a call

  function Popped(h: Node, c: Comm): Node
    requires h.cq != []
  {
    h.(ctx := c, cq := h.cq[1..])
  }

  function Finishes(t: Tally, c: Comm): Tally {
    if c.state == Finished then t.(finished := t.finished + 1) else t
  }

  lemma TransferCompletion(h: Node, t: Tally)
    requires HostTransferInv(h, t) && h.cq != []
    ensures h.cq[0].success
    ensures h.cq[0].opcode == WcRdmaWrite || (h.cq[0].opcode == WcRecvWithImm && h.cq[0].imm == 0)
  {
    hide Remaining, Host.Posted;
    OnlyPop(h.cq, WcRdmaWrite, WcRecvWithImm);
  }

  /** The counted total after one completion, as long as something is still missing. */
  lemma TransferContinues(h: Node, t: Tally)
    requires HostTransferInv(h, t) && h.cq != [] && InTransfer(h.ctx) && Ordered(t)
    ensures var c := Host.CountCompletion(h.ctx, h.cq[0]);
      c.state != Finished ==> HostTransferInv(Popped(h, c), t) && InTransfer(c)
  {
    hide Remaining, Slots;
    OnlyPop(h.cq, WcRdmaWrite, WcRecvWithImm);
  }

  /** The last completion leaves nothing outstanding and resets both trackers. */
  lemma TransferEnds(h: Node, t: Tally)
    requires HostTransferInv(h, t) && h.cq != [] && InTransfer(h.ctx) && Ordered(t)
    ensures var c := Host.CountCompletion(h.ctx, h.cq[0]);
      c.state == Finished ==>
        HostIdleInv(Popped(h, c), Finishes(t, c)) && Ordered(Finishes(t, c)) && t.replied == t.started
  {
    hide Remaining, Slots;
    OnlyPop(h.cq, WcRdmaWrite, WcRecvWithImm);
    OnlyTotal(h.cq[1..], WcRdmaWrite, WcRecvWithImm);
  }

  lemma CountKeepsTables(c: Comm, wc: Completion)
    ensures var c' := Host.CountCompletion(c, wc);
      HostSteps.SameTables(c, c') && c'.immediate == c.immediate && c'.message == c.message
  {
  }

  lemma PollTransfer(h: Node, t: Tally)
    requires HostInv(h, t) && InTransfer(h.ctx) && h.cq != [] && Ordered(t)
    requires |h.ctx.message| == MESSAGE_CAPACITY
    ensures Host.Handleable(h.ctx, h.cq[0]) && Host.Handle(h.ctx, h.cq[0]).ok
    ensures var c := Host.Handle(h.ctx, h.cq[0]).ctx;
      && c == Host.CountCompletion(h.ctx, h.cq[0])
      && HostInv(Popped(h, c), Finishes(t, c)) && Ordered(Finishes(t, c)) && Settled(c)
  {
    hide HostTransferInv, Host.CountCompletion;
    TransferCompletion(h, t);
    TransferContinues(h, t);
    TransferEnds(h, t);
    NetSteps.TransferStarted(h, t);
    var c := Host.CountCompletion(h.ctx, h.cq[0]);
    StateAfterCount(h.ctx, h.cq[0]);
  }

  lemma StateAfterCount(c: Comm, wc: Completion)
    requires InTransfer(c)
    ensures var s := Host.CountCompletion(c, wc).state; s == Finished || s == DataSending || s == DataReceiving
  {
  }

  lemma FinishServerInv(s: Node, pc: Pc, t: Tally, t': Tally, word: uint32)
    requires ServerInv(s, pc, t, word) && Answering(pc, s.ctx)
    requires t' == t || t' == t.(finished := t.finished + 1)
    ensures ServerInv(s, pc, t', word)
  {
    hide ServerSettingInv, ServerQuietInv, ServerSendingInv;
  }

  lemma PollTransferKeeps(cfg: Config, j: Joint)
    requires Inv(cfg, j) && j.host.cq != [] && InTransfer(j.host.ctx)
    ensures Inv(cfg, DoHostPoll(j)) && DoHostPoll(j).ended == j.ended
  {
    hide HostInv, ServerShape, ServerInv, SetupLink, PeersLinked, Host.RequestWord, Host.Handle, Host.CountCompletion;
    assert |j.host.ctx.message| == MESSAGE_CAPACITY && j.host.ctx.immediate % 0x100 == j.host.ctx.fncode;
    hide HostShape, Ordered;
    PollTransfer(j.host, j.tally);
    var c := Host.Handle(j.host.ctx, j.host.cq[0]).ctx;
    CountKeepsTables(j.host.ctx, j.host.cq[0]);
    HostSteps.HostShapeSame(cfg, j.host, Popped(j.host, c), j.tally.started);
    FinishServerInv(j.server, j.pc, j.tally, Finishes(j.tally, c), Host.RequestWord(j.host.ctx.immediate));
    HostSteps.ServerShapeSame(cfg, j.host.ctx, c, j.server);
    LinkSameTables(j, DoHostPoll(j));
  }

  lemma LinkSameTables(j: Joint, j': Joint)
    requires Link(j) && Settled(j.host.ctx) && Settled(j'.host.ctx) && j'.server == j.server && j'.pc == j.pc
    requires j'.host.ctx.peer == j.host.ctx.peer
    ensures Link(j')
  {
  }

  // ---------------------------------------------------------------- the host during the setup

  lemma {:induction false} SameOutputs(a: seq<PeerRegion>, b: seq<PeerRegion>)
    requires |a| == |b| && forall i :: 0 <= i < |a| ==> a[i].toWrite == b[i].toWrite
    ensures Host.OutputCount(a) == Host.OutputCount(b)
  {
    if a != [] {
      SameOutputs(a[..|a| - 1], b[..|b| - 1]);
    }
  }

  lemma SentInSetup(h: Node, t: Tally)
    requires HostInv(h, t) && h.ctx.state == MrspSending && h.cq != [] && h.cq[0].opcode == WcSend
    ensures HostInv(Popped(h, h.ctx.(state := MrspReceiving)), t)
    ensures Count(h.cq[1..], WcRecv) == Count(h.cq, WcRecv) && h.cq[0].success
  {
    hide HostTransferInv, HostIdleInv;
    OnlyPop(h.cq, WcSend, WcRecv);
  }

  lemma SentLink(j: Joint, h': Node)
    requires Link(j) && j.host.ctx.state == MrspSending && h' == j.host.(ctx := h'.ctx, cq := h'.cq)
    requires h'.ctx == j.host.ctx.(state := MrspReceiving)
    requires Count(h'.cq, WcRecv) == Count(j.host.cq, WcRecv)
    ensures Link(j.(host := h'))
  {
    hide PeersLinked, AnswerMessage, RequestMessage, Records, Adverts, ReceivedRequests, ReceivedAdverts, Count;
  }

  /** The request is acknowledged: the host turns to receiving the answer. */
  lemma PollSentKeeps(cfg: Config, j: Joint)
    requires Inv(cfg, j) && j.host.ctx.state == MrspSending && j.host.cq != []
    requires j.host.cq[0].opcode == WcSend
    ensures Inv(cfg, DoHostPoll(j)) && DoHostPoll(j).ended == j.ended
  {
    var h := j.host;
    var c := h.ctx.(state := MrspReceiving);
    assert |h.ctx.message| == MESSAGE_CAPACITY && h.ctx.immediate % 0x100 == h.ctx.fncode;
    hide HostShape, HostInv, ServerShape, ServerInv, Link, Host.RequestWord;
    SentInSetup(h, j.tally);
    SentLink(j, Popped(h, c));
    HostSteps.HostShapeSame(cfg, h, Popped(h, c), j.tally.started);
    if Answering(j.pc, j.server.ctx) {
      HostSteps.ServerShapeSame(cfg, h.ctx, c, j.server);
    }
  }

  /** A host waiting for the answer finds nothing but the answer, and nothing after it. */
  lemma AnswerQueued(j: Joint)
    requires HostInv(j.host, j.tally) && Link(j) && j.host.ctx.state == MrspReceiving && j.host.cq != []
    ensures j.host.cq[0].success && j.host.cq[0].opcode == WcRecv && j.host.cq[1..] == []
    ensures j.host.sq == [] && j.host.unacked == [] && j.host.recvs == [] && j.server.sq == []
    ensures j.host.ctx.writesDone == 0 && !j.host.ctx.responseReceived && j.tally == NO_CALLS
    ensures Answering(j.pc, j.server.ctx) && Setup.CarriesAnswer(j.host.ctx.message, j.server.ctx.local)
  {
    hide HostTransferInv, HostIdleInv, PeersLinked, AnswerMessage, RequestMessage, Records, Adverts,
      Setup.CarriesAnswer, Setup.CarriesRequest;
    OnlyTotal(j.host.cq, WcSend, WcRecv);
    OnlyPop(j.host.cq, WcSend, WcRecv);
  }

  lemma SettledShape(cfg: Config, h: Node, local: seq<LocalRegion>, h': Node, calls: nat)
    requires HostShape(cfg, h, calls) && |local| == |cfg.inputs| && h'.mem == h.mem
    requires h'.ctx == Setup.WithAnswer(h.ctx, local)
    ensures HostShape(cfg, h', calls)
  {
    SameOutputs(h.ctx.peer, h'.ctx.peer);
    hide ConfigFits, Marked, Marks, Host.OutputCount, DistinctAddresses;
  }

  lemma SettledPeers(cfg: Config, h: Comm, s: Node)
    requires ConfigFits(cfg) && ServerShape(cfg, h, s) && |h.peer| == |cfg.inputs|
    ensures PeersLinked(Setup.WithAnswer(h, s.ctx.local), s.ctx)
  {
    hide Marked, DistinctAddresses, SameShape;
    forall i | 0 <= i < |h.peer|
      ensures s.ctx.local[i].length < 0x1_0000_0000
    {
      assert ServerRegionFits(cfg, h.local[i], s.ctx.local[i], s.ctx.peer[i], i);
    }
    hide ConfigFits, ServerShape;
  }

  /** The answer is recorded: both ends are linked and the host is idle. */
  lemma PollAnswerKeeps(cfg: Config, j: Joint)
    requires Inv(cfg, j) && j.host.ctx.state == MrspReceiving && j.host.cq != []
    ensures Inv(cfg, DoHostPoll(j)) && DoHostPoll(j).ended == j.ended
    ensures DoHostPoll(j).host.ctx.state == MrspDone
  {
    var h, s := j.host, j.server;
    assert |h.ctx.local| == |h.ctx.peer| == |cfg.inputs|;
    hide HostInv, ServerInv, Link, HostShape, ServerShape, Host.RequestWord, Host.Recorded, Host.Handle, Adverts,
      Setup.CarriesAnswer;
    AnswerQueued(j);
    assert |s.ctx.local| == |cfg.inputs| by { AnsweredLength(cfg, h.ctx, s); }
    NetSteps.ShapeFits(cfg, h, j.tally.started);
    Setup.HostSettles(h.ctx, h.cq[0], s.ctx.local);
    var c := Setup.WithAnswer(h.ctx, s.ctx.local);
    SettledShape(cfg, h, s.ctx.local, Popped(h, c), j.tally.started);
    HostSteps.ServerShapeSame(cfg, h.ctx, c, s);
    SettledPeers(cfg, h.ctx, s);
    var j' := DoHostPoll(j);
    assert j'.host == Popped(h, c) && j'.tally == j.tally;
    IdleAfterAnswer(j.host, Popped(h, c));
    LinkedAfterAnswer(j', s);
  }

  lemma AnsweredLength(cfg: Config, h: Comm, s: Node)
    requires ServerShape(cfg, h, s)
    ensures |s.ctx.local| == |cfg.inputs| == |h.local|
  {
    hide Marked, DistinctAddresses, SameShape, ServerRegionFits;
  }

  lemma IdleAfterAnswer(h: Node, h': Node)
    requires h.sq == [] && h.unacked == [] && h.recvs == [] && h.ctx.writesDone == 0 && !h.ctx.responseReceived
    requires h' == h.(ctx := h'.ctx, cq := []) && h'.ctx == h.ctx.(peer := h'.ctx.peer, state := MrspDone)
    ensures HostInv(h', NO_CALLS)
  {
    hide HostTransferInv, HostSetupInv;
  }

  lemma LinkedAfterAnswer(j: Joint, s: Node)
    requires j.host.ctx.state == MrspDone && j.server == s && s.sq == []
    requires Answering(j.pc, s.ctx) && PeersLinked(j.host.ctx, s.ctx)
    ensures Link(j)
  {
    hide PeersLinked, SetupLink;
  }

  lemma HostStates(h: Node, t: Tally)
    requires HostInv(h, t)
    ensures Idle(h.ctx) ==> h.cq == []
    ensures Idle(h.ctx) || InTransfer(h.ctx) || h.ctx.state == Connected || h.ctx.state == MrspSending
      || h.ctx.state == MrspReceiving
    ensures h.cq != [] && h.ctx.state == MrspSending ==>
      h.cq[0].success && (h.cq[0].opcode == WcSend || h.cq[0].opcode == WcRecv)
  {
    hide HostTransferInv;
  }

  lemma NothingBeforeSetup(j: Joint)
    requires Link(j) && j.host.ctx.state == Connected
    ensures j.host.cq == []
  {
    hide PeersLinked, AnswerMessage, RequestMessage, Records, Adverts, Setup.CarriesAnswer, Setup.CarriesRequest;
  }

  lemma PollAnswerFirst(cfg: Config, j: Joint)
    requires Inv(cfg, j) && j.host.ctx.state == MrspSending && j.host.cq != []
    requires j.host.cq[0].opcode == WcRecv
    ensures DoHostPoll(j) == Ended(j)
  {
    hide HostShape, HostInv, ServerShape, ServerInv, Link, Host.RequestWord;
  }

  /**
   * The host's handler fails in exactly one situation: the answer of the setup is polled while
   * the acknowledgement of the request is still missing. Otherwise the invariant is kept.
   */
  lemma HostPollKeeps(cfg: Config, j: Joint)
    requires Inv(cfg, j) && !j.ended && j.host.cq != []
    ensures DoHostPoll(j).ended <==> j.host.ctx.state == MrspSending && j.host.cq[0].opcode == WcRecv
    ensures Inv(cfg, DoHostPoll(j))
  {
    hide Inv, HostInv, Link, DoHostPoll;
    HostStatesOf(cfg, j);
    if InTransfer(j.host.ctx) {
      PollTransferKeeps(cfg, j);
    } else if j.host.ctx.state == MrspReceiving {
      PollAnswerKeeps(cfg, j);
    } else if j.host.cq[0].opcode == WcSend {
      PollSentKeeps(cfg, j);
    } else {
      PollAnswerFirst(cfg, j);
      EndedKeeps(cfg, j);
    }
  }

  lemma HostStatesOf(cfg: Config, j: Joint)
    requires Inv(cfg, j) && j.host.cq != []
    ensures InTransfer(j.host.ctx) || j.host.ctx.state == MrspReceiving
      || (j.host.ctx.state == MrspSending && (j.host.cq[0].opcode == WcSend || j.host.cq[0].opcode == WcRecv))
  {
    hide HostShape, HostInv, ServerShape, ServerInv, Link, Host.RequestWord;
    HostStates(j.host, j.tally);
    if j.host.ctx.state == Connected {
      NothingBeforeSetup(j);
    }
  }

  lemma EndedKeeps(cfg: Config, j: Joint)
    requires Inv(cfg, j)
    ensures Inv(cfg, Ended(j))
  {
    hide HostShape, HostInv, ServerShape, ServerInv, PeersLinked, Host.RequestWord, AnswerMessage, RequestMessage,
      Records, Adverts, Setup.CarriesAnswer, Setup.CarriesRequest, Count;
  }
}
