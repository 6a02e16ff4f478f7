/** Each step of the accelerator's worker keeps the invariant; when its handler refuses. */
module ServerSteps {
  import opened Bytes
  import opened Context
  import opened Chain
  import opened Messages
  import opened Wire
  import opened Machine
  import opened Invariant
  import NetSteps
  import PollSteps
  import Host
  import Server
  import Setup

  // ---------------------------------------------------------------- before the request

  lemma BootServerInv(s: Node, s': Node, t: Tally, word: uint32)
    requires ServerInv(s, Boot, t, word)
    requires s' == s.(ctx := s.ctx.(state := MrspReceiving), recvs := s.recvs + [MESSAGE_CAPACITY])
    ensures ServerInv(s', Setting, t, word)
  {
    hide ServerSettingInv, ServerQuietInv, ServerSendingInv, ServerCounts;
  }

  lemma BootLink(j: Joint, j': Joint)
    requires Link(j) && j.pc == Boot && j'.host == j.host && j'.pc == Setting
    requires j'.server.cq == j.server.cq && j'.server.ctx == j.server.ctx.(state := MrspReceiving)
    ensures Link(j')
  {
    hide PeersLinked, AnswerMessage, RequestMessage, Records, Adverts, ReceivedRequests, ReceivedAdverts, Count;
  }

  lemma BootKeeps(cfg: Config, j: Joint)
    requires Inv(cfg, j) && j.pc == Boot
    ensures Inv(cfg, DoServerBoot(j)) && DoServerBoot(j).ended == j.ended
  {
    hide HostShape, HostInv, ServerShape, ServerInv, Link, Host.RequestWord;
    BootServerInv(j.server, DoServerBoot(j).server, j.tally, Host.RequestWord(j.host.ctx.immediate));
    BootLink(j, DoServerBoot(j));
  }

  // ---------------------------------------------------------------- the request

  lemma {:induction false} MarksAreOutputs(local: seq<LocalRegion>, peer: seq<PeerRegion>)
    requires |local| == |peer| && forall i :: 0 <= i < |local| ==> local[i].toWrite == peer[i].toWrite
    ensures |Marked(local)| == Host.OutputCount(peer)
  {
    if local != [] {
      MarksAreOutputs(local[..|local| - 1], peer[..|peer| - 1]);
    }
  }

  /** What the exchange of the setup has put in the worker's buffer. */
  lemma RequestQueued(j: Joint, word: uint32)
    requires HostInv(j.host, j.tally) && ServerInv(j.server, j.pc, j.tally, word) && Link(j)
    requires j.server.ctx.state == MrspReceiving && Polling(j.pc) && j.server.cq != []
    ensures j.pc == Setting && j.tally == NO_CALLS
    ensures j.server.cq[0].success && j.server.cq[0].opcode == WcRecv && j.server.cq[1..] == []
    ensures Server.Blank(j.server.ctx) && j.server.ctx.writesDone == 0
    ensures j.server.sq == [] && j.server.unacked == [] && |j.server.recvs| == 1
    ensures !Invariant.Settled(j.host.ctx) && j.host.ctx.state != Connected
    ensures j.host.sq == [] && Count(j.host.cq, WcRecv) == 0 && j.host.recvs == [MESSAGE_CAPACITY]
    ensures |j.host.ctx.local| == |j.host.ctx.peer| && Setup.CarriesRequest(j.server.ctx.message, j.host.ctx)
  {
    hide ServerCounts, ServerSettingInv, ServerQuietInv, ServerSendingInv, HostTransferInv, HostIdleInv,
      PeersLinked, AnswerMessage, RequestMessage, Records, Adverts, Setup.CarriesAnswer, Setup.CarriesRequest;
    OnlyOne(j.server.cq);
  }

  lemma OnlyOne(cq: seq<Completion>)
    requires Only(cq, WcRecv, WcRecv) && cq != []
    ensures Count(cq, WcRecv) == |cq| && cq[0].success && cq[0].opcode == WcRecv
    ensures |cq| == 1 ==> cq[1..] == []
  {
    PollSteps.OnlyTotal(cq, WcRecv, WcRecv);
  }

  lemma FreshLengths(cfg: Config, c: Comm)
    requires |c.local| == |cfg.lengths| && |c.internals| == |cfg.internals|
    requires forall i :: 0 <= i < |c.local| ==> c.local[i].length == cfg.lengths[i]
    requires forall i :: 0 <= i < |c.internals| ==> c.internals[i].size == cfg.internals[i]
    ensures FreshMemory(c) == Zeros(cfg.lengths + cfg.internals)
  {
    assert seq(|c.local|, i requires 0 <= i < |c.local| => c.local[i].length) == cfg.lengths;
    assert seq(|c.internals|, i requires 0 <= i < |c.internals| => c.internals[i].size) == cfg.internals;
  }

  /** The worker's tables fit the configuration, region by region. */
  lemma AnsweredRegion(cfg: Config, h: Node, s: Comm, allocs: seq<Server.Alloc>, i: nat)
    requires HostShape(cfg, h, 0) && Setup.Fits(h.ctx) && Setup.AllBuffers(allocs)
    requires |allocs| == |h.ctx.local| + |h.ctx.internals| && |s.message| == MESSAGE_CAPACITY
    requires i < |cfg.inputs|
    ensures var a := Setup.Answered(h.ctx, s, allocs);
      && ServerRegionFits(cfg, h.ctx.local[i], a.local[i], a.peer[i], i)
      && a.local[i].toWrite == h.ctx.peer[i].toWrite && a.local[i].addr == allocs[i].addr
  {
    hide Marked, Host.OutputCount, AnswerMessage, Over, DistinctAddresses;
    assert HostRegionFits(cfg, h.ctx.local[i], h.ctx.peer[i], i, 0);
    var a := Setup.Answered(h.ctx, s, allocs);
    assert a.local[i] == Setup.OwnRegion(h.ctx, allocs, i) && a.peer[i] == Setup.HostRegion(h.ctx, i);
  }

  lemma AnsweredTables(h: Comm, s: Comm, allocs: seq<Server.Alloc>)
    requires Setup.Fits(h) && Setup.AllBuffers(allocs)
    requires |allocs| == |h.local| + |h.internals| && |s.message| == MESSAGE_CAPACITY
    ensures var a := Setup.Answered(h, s, allocs);
      && |a.local| == |a.peer| == |h.local| && |a.internals| == |h.internals|
      && a.noOutput == Host.OutputCount(h.peer) && a.state == MrspSending
      && |a.message| == MESSAGE_CAPACITY && a.writesDone == s.writesDone
      && (forall i :: 0 <= i < |h.internals| ==> a.internals[i].size == h.internals[i].size % 0x1_0000_0000)
  {
    hide Marked, Host.OutputCount, AnswerMessage, Over;
    assert h.peer[..|h.local|] == h.peer;
  }

  /** The part of the host's shape that its request repeats. */
  lemma RequestedLengths(cfg: Config, h: Node)
    requires HostShape(cfg, h, 0)
    ensures |h.ctx.local| == |h.ctx.peer| == |cfg.inputs| == |cfg.outputs| == |cfg.lengths|
    ensures |h.ctx.internals| == |cfg.internals| && Setup.Fits(h.ctx)
    ensures forall i :: 0 <= i < |cfg.internals| ==>
      h.ctx.internals[i].size == cfg.internals[i] < 0x1_0000_0000
  {
    hide HostRegionFits, DistinctAddresses, Marked, KernelFits;
  }

  lemma DistinctTables(local: seq<LocalRegion>, allocs: seq<Server.Alloc>)
    requires |local| <= |allocs| && Setup.AllBuffers(allocs) && DistinctBuffers(allocs)
    requires forall i :: 0 <= i < |local| ==> local[i].addr == allocs[i].addr
    ensures DistinctAddresses(local)
  {
  }

  lemma AnsweredShape(cfg: Config, h: Node, s: Node, allocs: seq<Server.Alloc>, s': Node)
    requires HostShape(cfg, h, 0) && Setup.AllBuffers(allocs) && DistinctBuffers(allocs)
    requires |allocs| == |h.ctx.local| + |h.ctx.internals| && |s.ctx.message| == MESSAGE_CAPACITY
    requires Setup.Fits(h.ctx) && s'.ctx == Setup.Answered(h.ctx, s.ctx, allocs)
    requires s'.mem == FreshMemory(s'.ctx)
    ensures ServerShape(cfg, h.ctx, s') && s'.mem == Zeros(cfg.lengths + cfg.internals)
  {
    hide HostShape, Setup.Fits, Setup.Answered, Marked, Host.OutputCount, Marks, Zeros,
      FreshMemory, DistinctAddresses, DistinctBuffers;
    var a := s'.ctx;
    RequestedLengths(cfg, h);
    AnsweredTables(h.ctx, s.ctx, allocs);
    forall i | 0 <= i < |cfg.inputs|
      ensures ServerRegionFits(cfg, h.ctx.local[i], a.local[i], a.peer[i], i)
      ensures a.local[i].toWrite == h.ctx.peer[i].toWrite && a.local[i].addr == allocs[i].addr
    {
      AnsweredRegion(cfg, h, s.ctx, allocs, i);
    }
    MarksAreOutputs(a.local, h.ctx.peer);
    DistinctTables(a.local, allocs);
    assert forall i :: 0 <= i < |cfg.lengths| ==> ServerRegionFits(cfg, h.ctx.local[i], a.local[i], a.peer[i], i);
    FreshLengths(cfg, a);
    SameAsItself(s'.mem);
  }

  lemma SameAsItself(m: Memory)
    ensures SameShape(m, m)
  {
  }

  // ---------------------------------------------------------------- answering

  lemma AnsweredServerInv(s: Node, s': Node, word: uint32)
    requires s.sq == [] && s.unacked == [] && |s.recvs| == 1 && s.ctx.writesDone == 0
    requires s'.ctx.state == MrspSending && s'.ctx.writesDone == 0
    requires |s'.sq| == 1 && s'.unacked == [] && s'.cq == [] && s'.recvs == s.recvs
    ensures ServerInv(s', Setting, NO_CALLS, word)
  {
    hide ServerBlankInv, ServerSendingInv, ServerQuietInv;
  }

  lemma AnsweredLink(j: Joint, j': Joint)
    requires !Invariant.Settled(j.host.ctx) && j.host.ctx.state != Connected && j'.host == j.host
    requires j.host.sq == [] && Count(j.host.cq, WcRecv) == 0 && j.host.recvs == [MESSAGE_CAPACITY]
    requires |j.host.ctx.local| == |j.host.ctx.peer| && |j'.server.ctx.local| <= MAX_RECORDS
    requires j'.pc == Setting && j'.server.ctx.state == MrspSending
    requires j'.server.sq == [Message(AnswerMessage(Adverts(j'.server.ctx.local)))]
    ensures Link(j')
  {
    hide PeersLinked, Setup.CarriesAnswer, Setup.CarriesRequest;
  }

  /** The handler's verdict on the request: accepted exactly if every allocation succeeded. */
  lemma RequestVerdict(j: Joint, allocs: seq<Server.Alloc>)
    requires j.server.ctx.state == MrspReceiving && j.server.cq != [] && j.server.cq[0].success
    requires j.server.cq[0].opcode == WcRecv && Server.Blank(j.server.ctx) && Setup.Fits(j.host.ctx)
    requires Setup.CarriesRequest(j.server.ctx.message, j.host.ctx)
    requires |allocs| == j.server.ctx.message[1]
    ensures DoServerPoll(j, allocs).ended <==> j.ended || !Setup.AllBuffers(allocs)
    ensures Setup.AllBuffers(allocs) ==>
      var a := Setup.Answered(j.host.ctx, j.server.ctx, allocs);
      DoServerPoll(j, allocs) == j.(
        pc := PcAfter(j.pc, a),
        server := j.server.(ctx := a, cq := j.server.cq[1..],
          sq := j.server.sq + [Message(AnswerMessage(Adverts(a.local)))], mem := FreshMemory(a)))
    ensures !Setup.AllBuffers(allocs) ==> DoServerPoll(j, allocs) == Ended(j)
  {
    hide Setup.Answered, Setup.MirrorTables, ReceivedRequests, Requests, AnswerMessage, Adverts, Server.Fill,
      FreshMemory, AfterSend, Host.OutputCount, Marked;
    if Setup.AllBuffers(allocs) {
      Setup.WorkerAnswers(j.host.ctx, j.server.ctx, allocs);
      AnsweredLocal(j.host.ctx, j.server.ctx, allocs);
    } else {
      var i :| 0 <= i < |allocs| && !allocs[i].Buffer?;
      Setup.FillFails(Requests(j.host.ctx), allocs, i);
    }
  }

  lemma AnsweredLocal(h: Comm, s: Comm, allocs: seq<Server.Alloc>)
    requires Setup.Fits(h) && Setup.AllBuffers(allocs)
    requires |allocs| == |h.local| + |h.internals| && |s.message| == MESSAGE_CAPACITY
    ensures Setup.Answered(h, s, allocs).local == Setup.MirrorTables(h, allocs, |allocs|).local
  {
  }

  lemma PollRequestKeeps(cfg: Config, j: Joint, allocs: seq<Server.Alloc>)
    requires Inv(cfg, j) && !j.ended && Enabled(j, ServerPoll(allocs))
    requires j.server.ctx.state == MrspReceiving
    ensures DoServerPoll(j, allocs).ended <==> !Setup.AllBuffers(allocs)
    ensures Inv(cfg, DoServerPoll(j, allocs))
    ensures var j' := DoServerPoll(j, allocs);
      j' == Ended(j) || (
        && j'.host == j.host && j'.tally == j.tally && Answering(j'.pc, j'.server.ctx)
        && j'.server.mem == Zeros(cfg.lengths + cfg.internals))
  {
    var h, s := j.host, j.server;
    hide HostShape, HostInv, ServerShape, ServerInv, Link, Host.RequestWord, DoServerPoll, Setup.Answered,
      Setup.CarriesRequest, Setup.AllBuffers, DistinctBuffers, FreshMemory, Server.Blank, AnswerMessage, Adverts;
    RequestQueued(j, Host.RequestWord(h.ctx.immediate));
    RequestedLengths(cfg, h);
    CarriedCount(s.ctx.message, h.ctx);
    assert |s.ctx.message| == MESSAGE_CAPACITY;
    RequestVerdict(j, allocs);
    if Setup.AllBuffers(allocs) {
      AnsweredTables(h.ctx, s.ctx, allocs);
      var j' := DoServerPoll(j, allocs);
      AnsweredServerInv(s, j'.server, Host.RequestWord(h.ctx.immediate));
      AnsweredShape(cfg, h, s, allocs, j'.server);
      AnsweredLink(j, j');
    } else {
      PollSteps.EndedKeeps(cfg, j);
    }
  }

  lemma CarriedCount(m: seq<byte>, h: Comm)
    requires |h.local| == |h.peer| && Setup.CarriesRequest(m, h)
    ensures |m| == MESSAGE_CAPACITY && m[1] == |h.local| + |h.internals| <= MAX_RECORDS
  {
  }

  // ---------------------------------------------------------------- later completions

  function PolledServer(s: Node, c: Comm): Node
    requires s.cq != []
  {
    s.(ctx := c, cq := s.cq[1..])
  }

  /** The answer is acknowledged: the worker starts to receive. */
  lemma AnswerAcknowledged(s: Node, t: Tally, word: uint32)
    requires ServerInv(s, Setting, t, word) && s.ctx.state == MrspSending && s.cq != []
    requires s.cq[0].opcode == WcSend
    ensures s.cq[0].success && s.sq == []
    ensures ServerInv(PolledServer(s, s.ctx.(state := MrspDone)), Arming, t, word)
  {
    hide ServerBlankInv, ServerSendingInv;
    PollSteps.OnlyPop(s.cq, WcSend, WcRecvWithImm);
    CountPop(s.cq, WcRecvWithImm);
    CountZero(s.cq[1..], WcSend);
  }

  /** What the handler does with a request immediate. */
  lemma RequestImmediate(s: Node, t: Tally, word: uint32)
    requires ServerInv(s, Receiving, t, word) && s.cq != [] && word > 0
    ensures s.ctx.state == DataReceiving && s.cq[0].success
    ensures s.cq[0].opcode == WcRecvWithImm && s.cq[0].imm == word
    ensures ServerInv(PolledServer(s, s.ctx.(fncode := word % 0x80, immediate := word / 0x100,
                                             state := Calculating)), Computing, t, word)
  {
    hide ServerBlankInv, ServerSendingInv;
    CountPop(s.cq, WcRecvWithImm);
  }

  /** The acknowledged writes of a reply are counted; the last one ends the reply. */
  lemma ReplyAcknowledged(s: Node, t: Tally, word: uint32)
    requires ServerInv(s, Sending, t, word) && s.ctx.state == DataSending && s.cq != []
    requires s.cq[0].opcode == WcRdmaWrite
    ensures s.cq[0].success
    ensures var done := s.ctx.writesDone + 1;
      && done <= s.ctx.noOutput
      && if done == s.ctx.noOutput then
           ServerInv(PolledServer(s, s.ctx.(writesDone := 0, state := DataReceiving)), Arming, t, word)
         else ServerInv(PolledServer(s, s.ctx.(writesDone := done)), Sending, t, word)
  {
    hide ServerBlankInv, ServerSettingInv, Remaining, Slots;
    PollSteps.OnlyPop(s.cq, WcRdmaWrite, WcRecvWithImm);
    CountPop(s.cq, WcRecvWithImm);
    if s.ctx.writesDone + 1 == s.ctx.noOutput {
      CountZero(s.cq[1..], WcRdmaWrite);
    }
  }

  lemma SameLink(j: Joint, j': Joint)
    requires Link(j) && Answering(j.pc, j.server.ctx) && Answering(j'.pc, j'.server.ctx)
    requires j'.host == j.host && j'.server.sq == j.server.sq && j'.server.ctx.local == j.server.ctx.local
    requires j'.pc != Setting
    ensures Link(j')
  {
    hide AnswerMessage, RequestMessage, Records, Adverts, Setup.CarriesAnswer, Setup.CarriesRequest, Count;
  }

  lemma PollSettingKeeps(cfg: Config, j: Joint, allocs: seq<Server.Alloc>)
    requires Inv(cfg, j) && j.pc == Setting && j.server.ctx.state == MrspSending && j.server.cq != []
    requires j.server.cq[0].opcode == WcSend
    ensures Inv(cfg, DoServerPoll(j, allocs)) && DoServerPoll(j, allocs).ended == j.ended
  {
    hide HostShape, HostInv, ServerShape, ServerInv, Link, Host.RequestWord;
    AnswerAcknowledged(j.server, j.tally, Host.RequestWord(j.host.ctx.immediate));
    assert |j.server.ctx.message| == MESSAGE_CAPACITY by { AnsweredBuffer(cfg, j.host.ctx, j.server); }
    var j' := DoServerPoll(j, allocs);
    NetSteps.ServerShapeQueues(cfg, j.host.ctx, j.server, j'.server);
    SameLink(j, j');
  }

  lemma AnsweredBuffer(cfg: Config, h: Comm, s: Node)
    requires ServerShape(cfg, h, s)
    ensures |s.ctx.message| == MESSAGE_CAPACITY
  {
    hide Marked, SameShape, ServerRegionFits, DistinctAddresses;
  }

  lemma HostWord(cfg: Config, h: Node, calls: nat)
    requires HostShape(cfg, h, calls)
    ensures h.ctx.immediate % 0x100 == h.ctx.fncode
  {
    hide HostRegionFits, DistinctAddresses, Marked, KernelFits, ConfigFits, Host.Counted;
  }

  /** The worker recovers the host's code and user value, and hands them to the kernel. */
  lemma PollReceivingKeeps(cfg: Config, j: Joint, allocs: seq<Server.Alloc>)
    requires Inv(cfg, j) && j.pc == Receiving && j.server.cq != []
    ensures Inv(cfg, DoServerPoll(j, allocs)) && DoServerPoll(j, allocs).ended == j.ended
    ensures DoServerPoll(j, allocs).pc == Computing
  {
    hide HostShape, HostInv, ServerShape, ServerInv, Link, Host.RequestWord;
    var word := Host.RequestWord(j.host.ctx.immediate);
    RequestImmediate(j.server, j.tally, word);
    AnsweredBuffer(cfg, j.host.ctx, j.server);
    HostWord(cfg, j.host, j.tally.started);
    Host.RequestWordParts(j.host.ctx.immediate);
    var j' := DoServerPoll(j, allocs);
    NetSteps.ServerShapeQueues(cfg, j.host.ctx, j.server, j'.server);
    SameLink(j, j');
  }

  lemma PollSendingKeeps(cfg: Config, j: Joint, allocs: seq<Server.Alloc>)
    requires Inv(cfg, j) && j.pc == Sending && j.server.cq != [] && j.server.cq[0].opcode == WcRdmaWrite
    ensures Inv(cfg, DoServerPoll(j, allocs)) && DoServerPoll(j, allocs).ended == j.ended
  {
    hide HostShape, HostInv, ServerShape, ServerInv, Link, Host.RequestWord;
    StateOfPc(j.server, j.pc, j.tally, Host.RequestWord(j.host.ctx.immediate));
    ReplyAcknowledged(j.server, j.tally, Host.RequestWord(j.host.ctx.immediate));
    AnsweredBuffer(cfg, j.host.ctx, j.server);
    var j' := DoServerPoll(j, allocs);
    NetSteps.ServerShapeQueues(cfg, j.host.ctx, j.server, j'.server);
    SameLink(j, j');
  }

  /** The program counter and the protocol state of the worker move together. */
  lemma StateOfPc(s: Node, pc: Pc, t: Tally, word: uint32)
    requires ServerInv(s, pc, t, word)
    ensures pc == Setting ==> s.ctx.state == MrspReceiving || s.ctx.state == MrspSending
    ensures pc == Receiving ==> s.ctx.state == DataReceiving
    ensures pc == Sending ==> s.ctx.state == DataSending
    ensures pc == Setting && s.ctx.state == MrspSending && s.cq != [] ==>
      s.cq[0].opcode == WcSend || s.cq[0].opcode == WcRecvWithImm
    ensures pc == Sending && s.cq != [] ==>
      s.cq[0].opcode == WcRdmaWrite || s.cq[0].opcode == WcRecvWithImm
  {
    hide Remaining, Server.Reply, Count;
  }

  /** A request that is polled before the worker's own completions is refused. */
  predicate TooEarly(j: Joint) {
    && j.server.cq != [] && j.server.cq[0].opcode == WcRecvWithImm
    && (j.server.ctx.state == MrspSending || j.server.ctx.state == DataSending)
  }

  lemma PollEarly(cfg: Config, j: Joint, allocs: seq<Server.Alloc>)
    requires Inv(cfg, j) && TooEarly(j)
    ensures DoServerPoll(j, allocs) == Ended(j) && Inv(cfg, Ended(j))
  {
    PollSteps.EndedKeeps(cfg, j);
    hide HostShape, HostInv, ServerShape, ServerInv, Link, Host.RequestWord;
  }

  /**
   * The worker's handler fails in exactly two situations: an allocation for the setup fails, or
   * a request is polled ahead of the completions of the worker's own sends.
   */
  lemma ServerPollKeeps(cfg: Config, j: Joint, allocs: seq<Server.Alloc>)
    requires Inv(cfg, j) && !j.ended && Enabled(j, ServerPoll(allocs))
    ensures Inv(cfg, DoServerPoll(j, allocs))
    ensures DoServerPoll(j, allocs).ended <==>
      TooEarly(j) || (j.server.ctx.state == MrspReceiving && !Setup.AllBuffers(allocs))
  {
    hide Inv, ServerInv, DoServerPoll;
    assert ServerInv(j.server, j.pc, j.tally, Host.RequestWord(j.host.ctx.immediate)) by { InvServer(cfg, j); }
    StateOfPc(j.server, j.pc, j.tally, Host.RequestWord(j.host.ctx.immediate));
    if TooEarly(j) {
      PollEarly(cfg, j, allocs);
    } else if j.server.ctx.state == MrspReceiving {
      PollRequestKeeps(cfg, j, allocs);
    } else if j.pc == Setting {
      PollSettingKeeps(cfg, j, allocs);
    } else if j.pc == Receiving {
      PollReceivingKeeps(cfg, j, allocs);
    } else {
      PollSendingKeeps(cfg, j, allocs);
    }
  }

  lemma InvServer(cfg: Config, j: Joint)
    requires Inv(cfg, j)
    ensures ServerInv(j.server, j.pc, j.tally, Host.RequestWord(j.host.ctx.immediate))
  {
    hide HostShape, HostInv, ServerShape, ServerInv, Link, Host.RequestWord;
  }

  lemma BlankNotCalculating(s: Node, pc: Pc, t: Tally, word: uint32)
    requires ServerInv(s, pc, t, word) && s.ctx.state == Calculating
    ensures Answering(pc, s.ctx)
  {
    hide ServerBlankInv, ServerCounts;
  }

  // ---------------------------------------------------------------- the worker's own steps

  lemma ArmedServerInv(s: Node, s': Node, t: Tally, word: uint32)
    requires ServerInv(s, Arming, t, word)
    requires s'.ctx.state == DataReceiving && s'.ctx.writesDone == s.ctx.writesDone
    requires s'.sq == s.sq && s'.unacked == s.unacked && s'.cq == s.cq && s'.recvs == s.recvs + [0]
    ensures ServerInv(s', Receiving, t, word)
  {
    hide ServerBlankInv, ServerSettingInv, ServerSendingInv, Count;
  }

  lemma ArmKeeps(cfg: Config, j: Joint)
    requires Inv(cfg, j) && j.pc == Arming
    ensures Inv(cfg, DoServerArm(j)) && DoServerArm(j).ended == j.ended
  {
    hide HostShape, HostInv, ServerShape, ServerInv, Link, Host.RequestWord;
    var j' := DoServerArm(j);
    ArmedServerInv(j.server, j'.server, j.tally, Host.RequestWord(j.host.ctx.immediate));
    ArmingAnswers(j.server, j.tally, Host.RequestWord(j.host.ctx.immediate));
    NetSteps.ServerShapeQueues(cfg, j.host.ctx, j.server, j'.server);
    SameLink(j, j');
  }

  lemma ArmingAnswers(s: Node, t: Tally, word: uint32)
    requires ServerInv(s, Arming, t, word)
    ensures Answering(Arming, s.ctx)
  {
  }

  lemma ComputedServerInv(s: Node, s': Node, t: Tally, word: uint32)
    requires ServerInv(s, Computing, t, word) && Answering(Computing, s.ctx) && s' == s.(mem := s'.mem)
    ensures ServerInv(s', Replying, t.(kernels := t.kernels + 1), word)
    ensures t.kernels < t.requested && t.kernels == t.replied
  {
    hide ServerBlankInv, ServerSettingInv, ServerSendingInv, Count;
  }

  lemma ComputedShape(cfg: Config, h: Comm, s: Node, s': Node)
    requires ConfigFits(cfg) && ServerShape(cfg, h, s)
    requires s'.ctx == s.ctx && s'.mem == cfg.kernel(s.ctx.fncode, s.ctx.immediate, s.mem).1
    ensures ServerShape(cfg, h, s')
  {
    assert SameShape(s.mem, s'.mem);
    hide ServerRegionFits, DistinctAddresses, Marked, ConfigFits;
    ShapeTransitive(s.mem, s'.mem, Zeros(cfg.lengths + cfg.internals));
  }

  lemma ShapeTransitive(a: Memory, b: Memory, c: Memory)
    requires SameShape(a, b) && SameShape(a, c)
    ensures SameShape(b, c)
  {
  }

  lemma ComputeKeeps(cfg: Config, j: Joint)
    requires Inv(cfg, j) && j.pc == Computing && !j.ended
    ensures Inv(cfg, DoServerCompute(cfg, j))
    ensures DoServerCompute(cfg, j).ended
       <==> cfg.kernel(j.host.ctx.fncode % 0x80, j.host.ctx.immediate / 0x100, j.server.mem).0 != 0
  {
    if DoServerCompute(cfg, j).ended {
      PollSteps.EndedKeeps(cfg, j);
    } else {
      ComputeAdvances(cfg, j);
    }
    hide HostShape, HostInv, ServerShape, ServerInv, Link, Host.RequestWord;
  }

  lemma ComputeAdvances(cfg: Config, j: Joint)
    requires Inv(cfg, j) && j.pc == Computing && !DoServerCompute(cfg, j).ended
    ensures Inv(cfg, DoServerCompute(cfg, j))
  {
    hide HostShape, HostInv, ServerShape, ServerInv, Link, Host.RequestWord;
    var j' := DoServerCompute(cfg, j);
    ComputingAnswers(j.server, j.tally, Host.RequestWord(j.host.ctx.immediate));
    ComputedServerInv(j.server, j'.server, j.tally, Host.RequestWord(j.host.ctx.immediate));
    NetSteps.ShapeFits(cfg, j.host, j.tally.started);
    ComputedShape(cfg, j.host.ctx, j.server, j'.server);
    SameLink(j, j');
    KernelCounted(j.host, j.tally);
  }

  lemma ComputingAnswers(s: Node, t: Tally, word: uint32)
    requires ServerInv(s, Computing, t, word)
    ensures Answering(Computing, s.ctx)
  {
  }

  lemma KernelCounted(h: Node, t: Tally)
    requires HostInv(h, t) && t.kernels < t.requested <= t.started
    ensures HostInv(h, t.(kernels := t.kernels + 1))
  {
    hide Remaining, Only, Every, Immediates, Count;
  }

  lemma RepliedServerInv(s: Node, s': Node, t: Tally, word: uint32)
    requires ServerInv(s, Replying, t, word) && Answering(Replying, s.ctx)
    requires s'.ctx == s.ctx.(state := DataSending) && s'.unacked == s.unacked && s'.cq == s.cq
    requires |s.ctx.local| == |s.ctx.peer| && s.ctx.local != [] && s.ctx.noOutput == |Marked(s.ctx.local)| > 0
    requires s'.recvs == s.recvs && s'.sq == s.sq + Writes(Server.Reply(s'.ctx, 0))
    ensures ServerInv(s', Sending, t, word)
  {
    hide ServerBlankInv, ServerSettingInv, Marked, Slot, Immediates;
    var chain := Writes(Server.Reply(s'.ctx, 0));
    assert s'.sq == chain && chain[0..] == chain;
    CountNone(s.cq);
  }

  lemma CountNone(cq: seq<Completion>)
    requires Only(cq, WcRecvWithImm, WcRecvWithImm)
    ensures Count(cq, WcRdmaWrite) == 0
  {
    PollSteps.OnlyTotal(cq, WcRecvWithImm, WcRdmaWrite);
    PollSteps.OnlyTotal(cq, WcRecvWithImm, WcRecvWithImm);
  }

  /** The configuration's output is marked in the accelerator's own table. */
  lemma SomeOutput(cfg: Config, h: Comm, s: Node)
    requires ConfigFits(cfg) && ServerShape(cfg, h, s)
    ensures |s.ctx.local| == |s.ctx.peer| && s.ctx.local != [] && s.ctx.noOutput == |Marked(s.ctx.local)| > 0
  {
    hide SameShape, DistinctAddresses;
    var i :| 0 <= i < |cfg.outputs| && cfg.outputs[i];
    assert ServerRegionFits(cfg, h.local[i], s.ctx.local[i], s.ctx.peer[i], i);
    MarkedComplete(s.ctx.local, i);
  }

  lemma ReplyKeeps(cfg: Config, j: Joint)
    requires Inv(cfg, j) && j.pc == Replying
    ensures Inv(cfg, DoServerReply(j)) && DoServerReply(j).ended == j.ended
  {
    hide HostShape, HostInv, ServerShape, ServerInv, Link, Host.RequestWord, Marked, Server.Reply;
    ReplyingAnswers(j.server, j.tally, Host.RequestWord(j.host.ctx.immediate));
    NetSteps.ShapeFits(cfg, j.host, j.tally.started);
    SomeOutput(cfg, j.host.ctx, j.server);
    var j' := DoServerReply(j);
    RepliedServerInv(j.server, j'.server, j.tally, Host.RequestWord(j.host.ctx.immediate));
    NetSteps.ServerShapeQueues(cfg, j.host.ctx, j.server, j'.server);
    NetSteps.ReplyExpected(j.host, j.tally);
    LinkWhileReplying(j, j');
  }

  lemma LinkWhileReplying(j: Joint, j': Joint)
    requires Link(j) && InTransfer(j.host.ctx) && j'.host == j.host && j'.pc == Sending
    requires j'.server.ctx.local == j.server.ctx.local && j'.server.ctx.state == DataSending
    ensures Link(j')
  {
    hide SetupLink;
  }

  lemma ReplyingAnswers(s: Node, t: Tally, word: uint32)
    requires ServerInv(s, Replying, t, word)
    ensures Answering(Replying, s.ctx) && t.kernels == t.replied + 1
  {
    hide ServerQuietInv, Count;
  }
}
