/** Each step of the host and of its network card keeps the invariant. */
module HostSteps {
  import opened Bytes
  import opened Context
  import opened Chain
  import opened Messages
  import opened Wire
  import opened Machine
  import opened Invariant
  import Host
  import Setup

  /** Contexts that differ only in state, trackers, message bytes and user value. */
  predicate SameTables(a: Comm, b: Comm) {
    && a.local == b.local && a.peer == b.peer && a.internals == b.internals
    && a.noInput == b.noInput && a.noOutput == b.noOutput && a.noRpcCalls == b.noRpcCalls
    && a.fncode == b.fncode && |a.message| == |b.message|
  }

  lemma HostShapeSame(cfg: Config, a: Node, b: Node, calls: nat)
    requires HostShape(cfg, a, calls) && SameTables(a.ctx, b.ctx) && a.mem == b.mem
    requires b.ctx.immediate % 0x100 == b.ctx.fncode
    ensures HostShape(cfg, b, calls)
  {
    hide ConfigFits, HostRegionFits, Marked;
  }

  /** The shape of a host does not depend on its queues. */
  lemma HostShapeQueues(cfg: Config, a: Node, b: Node, calls: nat)
    requires HostShape(cfg, a, calls) && a.ctx == b.ctx && a.mem == b.mem
    ensures HostShape(cfg, b, calls)
  {
  }

  lemma ServerShapeSame(cfg: Config, a: Comm, b: Comm, s: Node)
    requires ServerShape(cfg, a, s) && |a.local| == |b.local|
    requires forall i :: 0 <= i < |a.local| ==>
      a.local[i].addr == b.local[i].addr && a.local[i].rkey == b.local[i].rkey
      && a.local[i].length == b.local[i].length
    ensures ServerShape(cfg, b, s)
  {
    hide Marked, SameShape;
  }

  // ---------------------------------------------------------------- acknowledgement

  lemma AckInSetup(h: Node)
    requires HostSetupInv(h) && h.unacked != []
    ensures HostSetupInv(Acknowledge(h))
    ensures Count(Acknowledge(h).cq, WcRecv) == Count(h.cq, WcRecv)
  {
    var wc := Completion(true, h.unacked[0], 0, 0);
    CountPush(h.cq, wc, WcSend);
    CountPush(h.cq, wc, WcRecv);
  }

  lemma AckInTransfer(h: Node, t: Tally)
    requires HostTransferInv(h, t) && h.unacked != []
    ensures HostTransferInv(Acknowledge(h), t)
  {
    hide Remaining, Host.Posted;
    var wc := Completion(true, h.unacked[0], 0, 0);
    CountPush(h.cq, wc, WcRdmaWrite);
    CountPush(h.cq, wc, WcRecvWithImm);
  }

  lemma AckHostInv(h: Node, t: Tally)
    requires HostInv(h, t) && h.unacked != []
    ensures HostInv(Acknowledge(h), t)
  {
    hide HostTransferInv, HostSetupInv;
    if InTransfer(h.ctx) {
      AckInTransfer(h, t);
    } else if !Idle(h.ctx) {
      AckInSetup(h);
    }
  }

  lemma AckLink(j: Joint)
    requires HostInv(j.host, j.tally) && Link(j) && j.host.unacked != []
    ensures Link(j.(host := Acknowledge(j.host)))
  {
    hide HostTransferInv, HostSetupInv, PeersLinked, Setup.CarriesRequest, Setup.CarriesAnswer,
      AnswerMessage, RequestMessage, Records, Adverts;
    if !Settled(j.host.ctx) {
      AckInSetup(j.host);
    }
  }

  lemma AckKeeps(cfg: Config, j: Joint)
    requires Inv(cfg, j) && j.host.unacked != []
    ensures Inv(cfg, DoHostAck(j))
  {
    HostShapeQueues(cfg, j.host, Acknowledge(j.host), j.tally.started);
    AckHostInv(j.host, j.tally);
    AckLink(j);
    hide HostShape, ServerShape, ServerInv, HostInv, Link, Host.RequestWord;
  }

  // ---------------------------------------------------------------- starting the setup

  lemma SetupSendable(cfg: Config, h: Node)
    requires HostShape(cfg, h, 0)
    ensures Sendable(h.ctx, MSG_MR_AAR) && h.ctx.immediate % 0x100 == h.ctx.fncode
    ensures |h.ctx.local| == |h.ctx.peer| && |h.ctx.message| == MESSAGE_CAPACITY
    ensures |MessageBytes(h.ctx, MSG_MR_AAR, 0)| <= MESSAGE_CAPACITY
  {
    MessageFits(h.ctx, MSG_MR_AAR, 0);
    hide HostRegionFits, DistinctAddresses, Marked, KernelFits, MessageBytes;
  }

  lemma BeforeSetup(h: Node, t: Tally)
    requires HostInv(h, t) && h.ctx.state == Connected
    ensures t == NO_CALLS && HostSetupInv(h)
  {
    hide HostSetupInv;
  }

  /** The request is queued with a receive for its answer. */
  lemma SetupLinked(j: Joint, h': Node)
    requires Link(j) && j.host.ctx.state == Connected && HostSetupInv(j.host) && j.tally == NO_CALLS
    requires |j.host.ctx.local| == |j.host.ctx.peer| && |j.host.ctx.message| == MESSAGE_CAPACITY
    requires h'.ctx == j.host.ctx.(state := MrspSending, message := h'.ctx.message)
    requires h'.sq == j.host.sq + [Message(MessageBytes(j.host.ctx, MSG_MR_AAR, 0))]
    requires h'.recvs == j.host.recvs + [MESSAGE_CAPACITY] && h'.unacked == j.host.unacked && h'.cq == j.host.cq
    ensures HostInv(h', j.tally) && Link(j.(host := h'))
  {
    hide AnswerMessage, RequestMessage, Records, Adverts, Setup.CarriesAnswer, Setup.CarriesRequest,
      HostTransferInv, HostIdleInv, PeersLinked;
  }

  lemma SetupKeeps(cfg: Config, j: Joint)
    requires Inv(cfg, j) && j.host.ctx.state == Connected
    ensures Inv(cfg, DoHostSetup(j)) && DoHostSetup(j).ended == j.ended
  {
    hide HostShape, ServerShape, ServerInv, HostInv, Link, Over, MessageBytes, Host.RequestWord, Sendable;
    BeforeSetup(j.host, j.tally);
    SetupSendable(cfg, j.host);
    var h' := DoHostSetup(j).host;
    HostShapeSame(cfg, j.host, h', j.tally.started);
    if Answering(j.pc, j.server.ctx) {
      ServerShapeSame(cfg, j.host.ctx, h'.ctx, j.server);
    }
    SetupLinked(j, h');
  }

  // ---------------------------------------------------------------- starting a call

  /** The marks of the next call are those the configuration asks for. */
  lemma CallMarks(cfg: Config, h: Node, calls: nat, i: nat)
    requires HostShape(cfg, h, calls) && i < |cfg.inputs|
    ensures var c := Host.Started(h.ctx);
      HostRegionFits(cfg, c.local[i], c.peer[i], i, calls + 1)
  {
    hide Marked, Host.DropCount;
  }

  lemma CallShape(cfg: Config, h: Node, h': Node, calls: nat)
    requires HostShape(cfg, h, calls) && h'.ctx == Host.Started(h.ctx) && h'.mem == h.mem
    ensures HostShape(cfg, h', calls + 1)
  {
    forall i | 0 <= i < |cfg.inputs|
      ensures HostRegionFits(cfg, h'.ctx.local[i], h'.ctx.peer[i], i, calls + 1)
    {
      CallMarks(cfg, h, calls, i);
    }
    Host.WriteKeepsCounted(h.ctx, h.ctx.fncode);
    hide ConfigFits, HostRegionFits, Marked, Host.OutputCount, Host.DropCount;
    assert h'.ctx.noRpcCalls == (calls + 1) % 0x1_0000_0000;
  }

  /** At least one region is marked on every call. */
  lemma SomeInput(cfg: Config, h: Node, calls: nat)
    requires HostShape(cfg, h, calls)
    ensures h.ctx.noInput > 0 && h.ctx.local != []
  {
    var i :| 0 <= i < |cfg.inputs| && cfg.inputs[i] && !cfg.singles[i];
    assert HostRegionFits(cfg, h.ctx.local[i], h.ctx.peer[i], i, calls);
    MarkedComplete(h.ctx.local, i);
  }

  lemma InputsCounted(cfg: Config, h: Node, calls: nat)
    requires HostShape(cfg, h, calls)
    ensures h.ctx.noInput == |Marked(h.ctx.local)|
  {
    hide HostRegionFits, DistinctAddresses, Marked, KernelFits, Host.OutputCount;
  }

  lemma CallHostInv(cfg: Config, h: Node, t: Tally)
    requires HostShape(cfg, h, t.started) && HostShape(cfg, h.(ctx := Host.Started(h.ctx)), t.started + 1)
    requires Idle(h.ctx) && HostInv(h, t) && Ordered(t)
    ensures var c := Host.Started(h.ctx);
      HostInv(h.(ctx := c, sq := h.sq + Writes(Host.Posted(c, c.fncode)), recvs := h.recvs + [0]),
              t.(started := t.started + 1))
  {
    hide HostShape, Marked, Host.DropCount, Slot, Host.DropSingles, Host.RequestWord;
    var c := Host.Started(h.ctx);
    SomeInput(cfg, h.(ctx := c), t.started + 1);
    CallableTables(cfg, h, t.started);
    InputsCounted(cfg, h.(ctx := c), t.started + 1);
    var chain := Writes(Host.Posted(c, c.fncode));
    assert h.sq + chain == chain && chain[0..] == chain;
  }

  lemma CallableTables(cfg: Config, h: Node, calls: nat)
    requires HostShape(cfg, h, calls)
    ensures var c := Host.Started(h.ctx);
      && |c.local| == |c.peer| && c.fncode == h.ctx.fncode != 0 && c.immediate == h.ctx.immediate
      && c.peer == h.ctx.peer && c.state == DataSending && |c.local| == |h.ctx.local|
      && (forall i :: 0 <= i < |c.local| ==>
            c.local[i].addr == h.ctx.local[i].addr && c.local[i].rkey == h.ctx.local[i].rkey
            && c.local[i].length == h.ctx.local[i].length)
  {
    hide HostRegionFits, DistinctAddresses, Marked, KernelFits, Host.OutputCount, Host.DropCount;
  }

  lemma CallKeeps(cfg: Config, j: Joint)
    requires Inv(cfg, j) && Idle(j.host.ctx)
    ensures Inv(cfg, DoHostCall(j)) && DoHostCall(j).ended == j.ended
  {
    hide HostShape, ServerShape, HostInv, SetupLink, Host.RequestWord, PeersLinked, ServerInv, Host.Started;
    CallableTables(cfg, j.host, j.tally.started);
    var h, j' := j.host, DoHostCall(j);
    BetweenCalls(h, j.tally);
    CallShape(cfg, h, j'.host, j.tally.started);
    CallShape(cfg, h, h.(ctx := Host.Started(h.ctx)), j.tally.started);
    CallHostInv(cfg, h, j.tally);
    ServerShapeSame(cfg, h.ctx, j'.host.ctx, j.server);
    CallServerInv(j.server, j.pc, j.tally, Host.RequestWord(h.ctx.immediate));
    CallLink(j, j'.host);
  }

  lemma CallServerInv(s: Node, pc: Pc, t: Tally, word: uint32)
    requires ServerInv(s, pc, t, word) && Answering(pc, s.ctx)
    ensures ServerInv(s, pc, t.(started := t.started + 1), word)
  {
    hide ServerSettingInv, ServerQuietInv, ServerSendingInv;
  }

  lemma CallLink(j: Joint, h': Node)
    requires Link(j) && Idle(j.host.ctx) && InTransfer(h'.ctx) && h'.ctx.peer == j.host.ctx.peer
    ensures Link(j.(host := h'))
  {
  }

  // ---------------------------------------------------------------- the application

  lemma WrittenShape(cfg: Config, h: Node, i: nat, data: seq<byte>, calls: nat)
    requires HostShape(cfg, h, calls) && i < |h.mem| && |data| == |h.mem[i]|
    ensures HostShape(cfg, h.(mem := h.mem[i := data]), calls)
  {
    hide ConfigFits, HostRegionFits, Marked, DistinctAddresses, Host.Counted;
  }

  lemma WrittenInv(h: Node, i: nat, data: seq<byte>, t: Tally)
    requires HostInv(h, t) && i < |h.mem|
    ensures HostInv(h.(mem := h.mem[i := data]), t)
  {
    hide Remaining, Only, Every, Immediates, Count;
  }

  lemma AppWriteKeeps(cfg: Config, j: Joint, i: nat, data: seq<byte>)
    requires Inv(cfg, j) && i < |j.host.mem| && |data| == |j.host.mem[i]|
    ensures Inv(cfg, j.(host := j.host.(mem := j.host.mem[i := data])))
  {
    hide HostShape, ServerShape, ServerInv, HostInv, Host.RequestWord, PeersLinked, AnswerMessage, RequestMessage,
      Records, Adverts, Setup.CarriesAnswer, Setup.CarriesRequest, Count;
    WrittenShape(cfg, j.host, i, data, j.tally.started);
    WrittenInv(j.host, i, data, j.tally);
  }

  /** Tables that differ in byte limits only. */
  predicate SizesOnly(a: seq<LocalRegion>, b: seq<LocalRegion>) {
    && |a| == |b|
    && forall k :: 0 <= k < |a| ==> b[k] == a[k].(size := b[k].size) && b[k].size <= b[k].length
  }

  lemma LimitTouchesSizes(c: Comm, i: nat, count: int)
    requires forall k :: 0 <= k < |c.local| ==> c.local[k].size <= c.local[k].length
    ensures var c' := Host.SetBytes(c, i, count).ctx;
      c' == c.(local := c'.local) && SizesOnly(c.local, c'.local)
  {
  }

  lemma RecordsIgnoreSizes(a: seq<LocalRegion>, b: seq<LocalRegion>, peer: seq<PeerRegion>,
                           internals: seq<InternalRegion>)
    requires SizesOnly(a, b) && |a| == |peer|
    ensures Records(b, peer, internals) == Records(a, peer, internals)
  {
    hide Flags, InternalRequest;
    forall k | 0 <= k < |a|
      ensures ParameterRequest(b[k], peer[k]) == ParameterRequest(a[k], peer[k])
    {
      FlagsIgnoreSize(a[k], b[k], peer[k]);
    }
    hide ParameterRequest;
  }

  lemma FlagsIgnoreSize(a: LocalRegion, b: LocalRegion, p: PeerRegion)
    requires b == a.(size := b.size)
    ensures Flags(b, p) == Flags(a, p)
  {
  }

  lemma SizesShape(cfg: Config, h: Node, h': Node, calls: nat)
    requires HostShape(cfg, h, calls) && h' == h.(ctx := h.ctx.(local := h'.ctx.local))
    requires SizesOnly(h.ctx.local, h'.ctx.local)
    ensures HostShape(cfg, h', calls)
  {
    MarkedByFlags(h.ctx.local, h'.ctx.local);
    hide ConfigFits, Marked, Marks, Host.OutputCount;
  }

  lemma SizesLink(j: Joint, c': Comm)
    requires Link(j) && !InTransfer(j.host.ctx) && |j.host.ctx.local| == |j.host.ctx.peer|
    requires c' == j.host.ctx.(local := c'.local) && SizesOnly(j.host.ctx.local, c'.local)
    ensures Link(j.(host := j.host.(ctx := c')))
  {
    RecordsIgnoreSizes(j.host.ctx.local, c'.local, c'.peer, c'.internals);
    hide Records, AnswerMessage, RequestMessage, ReceivedRequests, ReceivedAdverts, Adverts, SizesOnly;
  }

  lemma LimitedInv(h: Node, c': Comm, t: Tally)
    requires HostInv(h, t) && !InTransfer(h.ctx) && c' == h.ctx.(local := c'.local)
    ensures HostInv(h.(ctx := c'), t)
  {
    hide HostTransferInv;
  }

  lemma SizesBelowLengths(cfg: Config, h: Node, calls: nat)
    requires HostShape(cfg, h, calls)
    ensures |h.ctx.local| == |h.ctx.peer|
    ensures forall k :: 0 <= k < |h.ctx.local| ==> h.ctx.local[k].size <= h.ctx.local[k].length
  {
    hide Marked, DistinctAddresses, KernelFits, Host.OutputCount;
    forall k | 0 <= k < |h.ctx.local|
      ensures h.ctx.local[k].size <= h.ctx.local[k].length
    {
      assert HostRegionFits(cfg, h.ctx.local[k], h.ctx.peer[k], k, calls);
    }
  }

  lemma AppLimitKeeps(cfg: Config, j: Joint, i: nat, count: int)
    requires Inv(cfg, j) && !InTransfer(j.host.ctx)
    ensures Inv(cfg, DoAppLimit(j, i, count))
  {
    var c, c' := j.host.ctx, Host.SetBytes(j.host.ctx, i, count).ctx;
    hide HostShape, ServerShape, ServerInv, Link, HostInv, Host.SetBytes, Host.RequestWord;
    SizesBelowLengths(cfg, j.host, j.tally.started);
    LimitTouchesSizes(c, i, count);
    SizesShape(cfg, j.host, j.host.(ctx := c'), j.tally.started);
    SizesLink(j, c');
    LimitedInv(j.host, c', j.tally);
    if Answering(j.pc, j.server.ctx) {
      ServerShapeSame(cfg, c, c', j.server);
    }
  }

  lemma ImmediateServerInv(s: Node, pc: Pc, t: Tally, word: uint32, word': uint32)
    requires ServerInv(s, pc, t, word) && Ordered(t) && (Answering(pc, s.ctx) ==> t.started == t.finished)
    ensures ServerInv(s, pc, t, word')
    ensures pc != Computing
  {
    if Answering(pc, s.ctx) {
      CountZero(s.cq, WcRecvWithImm);
    }
    hide ServerSettingInv, ServerQuietInv, ServerSendingInv, ServerBlankInv;
  }

  lemma CodeInWord(c: Comm, user: seq<byte>)
    requires |user| == 3
    ensures Host.SetImmediate(c, user).immediate % 0x100 == c.fncode
  {
  }

  lemma BetweenCalls(h: Node, t: Tally)
    requires HostInv(h, t) && !InTransfer(h.ctx)
    ensures t.started == t.finished
  {
  }

  lemma AppImmediateKeeps(cfg: Config, j: Joint, user: seq<byte>)
    requires Inv(cfg, j) && !InTransfer(j.host.ctx) && |user| == 3
    ensures Inv(cfg, DoAppImmediate(j, user))
  {
    hide HostShape, ServerShape, ServerInv, HostInv, Link, Host.RequestWord, Host.Word;
    var c' := Host.SetImmediate(j.host.ctx, user);
    CodeInWord(j.host.ctx, user);
    HostShapeSame(cfg, j.host, j.host.(ctx := c'), j.tally.started);
    BetweenCalls(j.host, j.tally);
    ImmediateServerInv(j.server, j.pc, j.tally, Host.RequestWord(j.host.ctx.immediate),
                       Host.RequestWord(c'.immediate));
    if Answering(j.pc, j.server.ctx) {
      ServerShapeSame(cfg, j.host.ctx, c', j.server);
    }
    ImmediateLink(j, c');
    ImmediateHostInv(j.host, c', j.tally);
  }

  lemma ImmediateHostInv(h: Node, c': Comm, t: Tally)
    requires HostInv(h, t) && !InTransfer(h.ctx) && c' == h.ctx.(immediate := c'.immediate)
    ensures HostInv(h.(ctx := c'), t)
  {
    hide HostTransferInv;
  }

  lemma ImmediateLink(j: Joint, c': Comm)
    requires Link(j)
    requires c' == j.host.ctx.(immediate := c'.immediate)
    ensures Link(j.(host := j.host.(ctx := c')))
  {
    hide Records, AnswerMessage, RequestMessage, ReceivedRequests, ReceivedAdverts, Adverts;
  }
}
