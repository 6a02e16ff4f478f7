/** Every packet either end has posted is accepted by the other, and keeps the invariant. */
module NetSteps {
  import opened Bytes
  import opened Context
  import opened Chain
  import opened Messages
  import opened Wire
  import opened Machine
  import opened Invariant
  import HostSteps
  import Host
  import Server
  import Setup

  lemma {:induction false} FindsRegion(local: seq<LocalRegion>, i: nat)
    requires DistinctAddresses(local) && i < |local|
    ensures FindRegion(local, local[i].addr) == Some(i)
  {
    var n := |local| - 1;
    if i < n {
      FindsRegion(local[..n], i);
    }
  }

  lemma RemainingHead(sq: seq<Packet>, wrs: seq<WriteRequest>)
    requires Remaining(sq, wrs) && sq != []
    ensures sq[0] == Write(wrs[|wrs| - |sq|])
    ensures Remaining(sq[1..], wrs)
  {
    var k := |wrs| - |sq|;
    assert sq[1..] == Writes(wrs)[k..][1..];
    assert Writes(wrs)[k..][1..] == Writes(wrs)[k + 1..];
  }

  // ---------------------------------------------------------------- setup messages

  /** A blank worker has a posted receive that is large enough. */
  lemma BlankReceives(s: Node, receives: nat, wc: Completion, m: seq<byte>)
    requires ServerBlankInv(s, receives) && receives > 0 && Count(s.cq, WcRecv) == 0
    requires wc.success && wc.opcode == WcRecv && |m| == MESSAGE_CAPACITY
    ensures s.recvs != [] && s.recvs[0] == MESSAGE_CAPACITY
    ensures var s' := s.(ctx := s.ctx.(message := m), recvs := s.recvs[1..], cq := s.cq + [wc]);
      ServerBlankInv(s', receives) && Count(s'.cq, WcRecv) == 1
  {
    CountPush(s.cq, wc, WcRecv);
  }

  lemma UnansweredReceives(s: Node, pc: Pc, t: Tally, word: uint32, wc: Completion, m: seq<byte>)
    requires ServerInv(s, pc, t, word) && !Answering(pc, s.ctx) && Count(s.cq, WcRecv) == 0
    requires wc.success && wc.opcode == WcRecv && |m| == MESSAGE_CAPACITY
    ensures s.recvs != [] && s.recvs[0] == MESSAGE_CAPACITY
    ensures var s' := s.(ctx := s.ctx.(message := m), recvs := s.recvs[1..], cq := s.cq + [wc]);
      ServerInv(s', pc, t, word) && Count(s'.cq, WcRecv) == 1
  {
    hide ServerCounts;
    BlankReceives(s, if pc == Boot then 1 else 2, wc, m);
    hide ServerBlankInv;
  }

  lemma UnansweredBuffer(s: Node, pc: Pc, t: Tally, word: uint32)
    requires ServerInv(s, pc, t, word) && !Answering(pc, s.ctx)
    ensures |s.ctx.message| == MESSAGE_CAPACITY && pc != Computing
  {
  }

  lemma SendInSetup(h: Node, t: Tally)
    requires HostInv(h, t) && !Settled(h.ctx) && |h.sq| == 1
    ensures HostInv(h.(sq := [], unacked := h.unacked + [WcSend]), t)
  {
    hide HostTransferInv;
  }

  /** The request leaves the host and arrives in the worker's buffer. */
  lemma RequestDelivered(j: Joint, word: uint32)
    requires HostInv(j.host, j.tally) && ServerInv(j.server, j.pc, j.tally, word) && SetupLink(j)
    requires !Settled(j.host.ctx) && j.host.sq != [] && Setup.Fits(j.host.ctx)
    ensures Deliver(j.host, j.server).Some? && !CarriesImmediate(j.host)
    ensures var (h', s') := Deliver(j.host, j.server).value;
      && h' == j.host.(sq := [], unacked := j.host.unacked + [WcSend])
      && HostInv(h', j.tally) && ServerInv(s', j.pc, j.tally, word)
      && !Answering(j.pc, s'.ctx) && SetupLink(j.(host := h', server := s'))
  {
    hide HostInv, ServerInv, RequestMessage, Records, Over, ReceivedRequests, AnswerMessage, Adverts, ReceivedAdverts,
      Host.Counted;
    var h, s := j.host, j.server;
    assert h.sq[1..] == [];
    SendInSetup(h, j.tally);
    var bytes := h.sq[0].bytes;
    var wc := Completion(true, WcRecv, 0, |bytes| % 0x1_0000_0000);
    UnansweredBuffer(s, j.pc, j.tally, word);
    Setup.RequestArrives(h.ctx, s.ctx.message);
    UnansweredReceives(s, j.pc, j.tally, word, wc, Over(bytes, s.ctx.message));
  }

  lemma FitsRequest(cfg: Config, h: Node, calls: nat)
    requires HostShape(cfg, h, calls)
    ensures Setup.Fits(h.ctx)
  {
    hide HostRegionFits, DistinctAddresses, Marked, KernelFits;
  }

  lemma SendRequestKeeps(cfg: Config, j: Joint)
    requires Inv(cfg, j) && j.host.sq != [] && !Settled(j.host.ctx)
    ensures Inv(cfg, DoHostSend(j)) && DoHostSend(j).ended == j.ended
  {
    hide HostShape, ServerShape, ServerInv, HostInv, SetupLink, Host.RequestWord, Deliver, Setup.Fits;
    FitsRequest(cfg, j.host, j.tally.started);
    HostSteps.HostShapeQueues(cfg, j.host, j.host.(sq := [], unacked := j.host.unacked + [WcSend]),
                            j.tally.started);
    RequestDelivered(j, Host.RequestWord(j.host.ctx.immediate));
    var j' := DoHostSend(j);
    UnansweredBuffer(j'.server, j.pc, j.tally, Host.RequestWord(j.host.ctx.immediate));
  }

  lemma AnswerReceived(h: Node, s: Node)
    requires h.recvs == [MESSAGE_CAPACITY] && |h.ctx.message| == MESSAGE_CAPACITY
    requires s.sq == [Message(AnswerMessage(Adverts(s.ctx.local)))] && |s.ctx.local| <= MAX_RECORDS
    ensures Deliver(s, h).Some?
    ensures var (s', h') := Deliver(s, h).value;
      && s' == s.(sq := [], unacked := s.unacked + [WcSend])
      && Setup.CarriesAnswer(h'.ctx.message, s.ctx.local)
      && h' == h.(ctx := h.ctx.(message := h'.ctx.message), recvs := [], cq := h'.cq)
      && (forall op :: Count(h'.cq, op) == Count(h.cq, op) + One(op == WcRecv))
      && (Only(h.cq, WcSend, WcRecv) ==> Only(h'.cq, WcSend, WcRecv))
  {
    hide AnswerMessage, Over, ReceivedAdverts, Adverts;
    Setup.AnswerArrives(s.ctx.local, h.ctx.message);
    assert s.sq[1..] == [];
    forall op
      ensures Count(h.cq + [Completion(true, WcRecv, 0, |s.sq[0].bytes| % 0x1_0000_0000)], op)
           == Count(h.cq, op) + One(op == WcRecv)
    {
      CountPush(h.cq, Completion(true, WcRecv, 0, |s.sq[0].bytes| % 0x1_0000_0000), op);
    }
  }

  lemma SettingSent(s: Node, pc: Pc, t: Tally, word: uint32)
    requires ServerInv(s, pc, t, word) && Answering(pc, s.ctx) && |s.sq| == 1 && s.sq[0].Message?
    ensures pc == Setting ==> ServerInv(s.(sq := [], unacked := s.unacked + [WcSend]), pc, t, word)
    ensures pc == Setting || pc == Sending
  {
    hide ServerSendingInv;
  }

  lemma ServerShapeQueues(cfg: Config, h: Comm, s: Node, s': Node)
    requires ServerShape(cfg, h, s) && s'.mem == s.mem
    requires s'.ctx.local == s.ctx.local && s'.ctx.peer == s.ctx.peer
    requires s'.ctx.noOutput == s.ctx.noOutput && |s'.ctx.message| == |s.ctx.message|
    ensures ServerShape(cfg, h, s')
  {
  }

  lemma RecvInSetup(h: Node, h': Node, t: Tally)
    requires HostInv(h, t) && !Settled(h.ctx)
    requires h' == h.(ctx := h.ctx.(message := h'.ctx.message), recvs := [], cq := h'.cq)
    requires Only(h.cq, WcSend, WcRecv) ==> Only(h'.cq, WcSend, WcRecv)
    requires Count(h'.cq, WcSend) == Count(h.cq, WcSend)
    ensures HostInv(h', t)
  {
    hide HostTransferInv;
  }

  /** The answer leaves the worker and arrives in the host's buffer. */
  lemma AnswerDelivered(j: Joint, word: uint32)
    requires HostInv(j.host, j.tally) && ServerInv(j.server, j.pc, j.tally, word) && SetupLink(j)
    requires !Settled(j.host.ctx) && j.server.sq != [] && |j.host.ctx.message| == MESSAGE_CAPACITY
    ensures Deliver(j.server, j.host).Some? && !CarriesImmediate(j.server)
    ensures var (s', h') := Deliver(j.server, j.host).value;
      && s' == j.server.(sq := [], unacked := j.server.unacked + [WcSend])
      && h'.mem == j.host.mem && h'.ctx == j.host.ctx.(message := h'.ctx.message)
      && |h'.ctx.message| == MESSAGE_CAPACITY
      && HostInv(h', j.tally) && ServerInv(s', j.pc, j.tally, word)
      && Answering(j.pc, s'.ctx) && SetupLink(j.(host := h', server := s'))
  {
    hide HostInv, ServerInv, AnswerMessage, RequestMessage, Records, Adverts, ReceivedAdverts, Deliver,
      ReceivedRequests;
    var h, s := j.host, j.server;
    assert NO_CALLS == j.tally by { InSetupNoCalls(h, j.tally); }
    BlankSendsNothing(s, j.pc, j.tally, word);
    AnswerReceived(h, s);
    var (s', h') := Deliver(s, h).value;
    RecvInSetup(h, h', j.tally);
    NotSendingYet(s, j.pc, j.tally, word);
    SettingSent(s, j.pc, j.tally, word);
  }

  lemma InSetupNoCalls(h: Node, t: Tally)
    requires HostInv(h, t) && !Settled(h.ctx)
    ensures t == NO_CALLS
  {
  }

  lemma BlankSendsNothing(s: Node, pc: Pc, t: Tally, word: uint32)
    requires ServerInv(s, pc, t, word) && s.sq != []
    ensures Answering(pc, s.ctx)
  {
    hide ServerCounts, ServerSendingInv;
  }

  lemma SendAnswerKeeps(cfg: Config, j: Joint)
    requires Inv(cfg, j) && j.server.sq != [] && !Settled(j.host.ctx)
    ensures Inv(cfg, DoServerSend(j)) && DoServerSend(j).ended == j.ended
  {
    assert |j.host.ctx.message| == MESSAGE_CAPACITY;
    hide HostShape, ServerShape, ServerInv, HostInv, SetupLink, Host.RequestWord, Deliver;
    AnswerDelivered(j, Host.RequestWord(j.host.ctx.immediate));
    BlankSendsNothing(j.server, j.pc, j.tally, Host.RequestWord(j.host.ctx.immediate));
    var (s', h') := Deliver(j.server, j.host).value;
    assert HostShape(cfg, h', j.tally.started) by { HostShapeMessage(cfg, j.host, h', j.tally.started); }
    assert ServerShape(cfg, h'.ctx, s') by {
      ServerShapeQueues(cfg, j.host.ctx, j.server, s');
      HostSteps.ServerShapeSame(cfg, j.host.ctx, h'.ctx, s');
    }
  }

  lemma HostShapeMessage(cfg: Config, h: Node, h': Node, calls: nat)
    requires HostShape(cfg, h, calls) && h'.mem == h.mem
    requires h'.ctx == h.ctx.(message := h'.ctx.message) && |h'.ctx.message| == MESSAGE_CAPACITY
    ensures HostShape(cfg, h', calls)
  {
    hide ConfigFits, HostRegionFits, Marked;
  }

  lemma NotSendingYet(s: Node, pc: Pc, t: Tally, word: uint32)
    requires ServerInv(s, pc, t, word) && Answering(pc, s.ctx) && t == NO_CALLS
    ensures pc != Sending || s.sq == []
  {
    hide ServerSendingInv, ServerQuietInv, ServerSettingInv;
  }

  // ---------------------------------------------------------------- the writes of a call

  /** The chain still queued on the host, and the region its next write comes from. */
  lemma NextRequestWrite(cfg: Config, h: Node, t: Tally) returns (i: nat)
    requires HostShape(cfg, h, t.started) && HostTransferInv(h, t) && h.sq != []
    ensures i < |cfg.inputs| && h.ctx.local[i].toWrite
    ensures i == Marked(h.ctx.local)[|Marked(h.ctx.local)| - |h.sq|]
    ensures h.sq[0].Write?
    ensures var wr := h.sq[0].wr;
      && wr.source == h.ctx.local[i].addr && wr.length == h.ctx.local[i].size <= cfg.lengths[i]
      && wr.target == h.ctx.peer[i].addr && wr.rkey == h.ctx.peer[i].rkey
      && wr.imm == (if |h.sq| == 1 then Some(Host.RequestWord(h.ctx.immediate)) else None)
    ensures Remaining(h.sq[1..], Host.Posted(h.ctx, h.ctx.fncode))
  {
    hide Marked, DistinctAddresses, Only, Immediates;
    var chain := Host.Posted(h.ctx, h.ctx.fncode);
    RemainingHead(h.sq, chain);
    var k := |chain| - |h.sq|;
    i := Marked(h.ctx.local)[k];
    assert chain[k] == Slot(h.ctx.local, h.ctx.peer, Host.RequestWord(h.ctx.immediate), false,
                            h.ctx.maxInline, k);
    assert HostRegionFits(cfg, h.ctx.local[i], h.ctx.peer[i], i, t.started);
  }

  /** The write lands in the accelerator's region of the same index, inside its length. */
  lemma RequestWriteLands(cfg: Config, j: Joint, i: nat)
    requires HostShape(cfg, j.host, j.tally.started) && ServerShape(cfg, j.host.ctx, j.server)
    requires PeersLinked(j.host.ctx, j.server.ctx) && i < |cfg.inputs|
    requires j.host.sq != [] && j.host.sq[0].Write?
    requires var wr := j.host.sq[0].wr;
      && wr.source == j.host.ctx.local[i].addr && wr.length <= cfg.lengths[i]
      && wr.target == j.host.ctx.peer[i].addr && wr.rkey == j.host.ctx.peer[i].rkey
    ensures var n := j.host.sq[0].wr.length;
      && n <= |j.host.mem[i]| && i < |j.server.mem| && n <= |j.server.mem[i]|
      && WriteInto(j.host, j.server, j.host.sq[0].wr)
         == Some(j.server.mem[i := Over(j.host.mem[i][..n], j.server.mem[i])])
  {
    hide ConfigFits, HostRegionFits, Host.Counted, Marked;
    FindsRegion(j.host.ctx.local, i);
    FindsRegion(j.server.ctx.local, i);
    assert ServerRegionFits(cfg, j.host.ctx.local[i], j.server.ctx.local[i], j.server.ctx.peer[i], i);
    hide Over, DistinctAddresses, FindRegion;
    assert |j.server.mem[i]| == |Zeros(cfg.lengths + cfg.internals)[i]|;
  }

  /** Taking one write off the queue of the host. */
  lemma WriteLeavesHost(h: Node, t: Tally)
    requires HostTransferInv(h, t) && h.sq != [] && Remaining(h.sq[1..], Host.Posted(h.ctx, h.ctx.fncode))
    ensures var t' := if |h.sq| == 1 then t.(requested := t.requested + 1) else t;
      HostTransferInv(h.(sq := h.sq[1..], unacked := h.unacked + [WcRdmaWrite]), t')
  {
    hide Remaining, Host.Posted, Only, Immediates, Count;
  }

  lemma ImmediateCounts(s: Node, s': Node, pc: Pc, t: Tally, word: uint32, length: uint32)
    requires ServerCounts(s, pc, t, word) && t.requested <= t.kernels && s.recvs != []
    requires s' == s.(mem := s'.mem, recvs := s.recvs[1..],
                      cq := s.cq + [Completion(true, WcRecvWithImm, word, length)])
    ensures ServerCounts(s', pc, t.(requested := t.requested + 1), word)
  {
    CountPush(s.cq, Completion(true, WcRecvWithImm, word, length), WcRecvWithImm);
  }

  lemma ImmediateAtWorker(s: Node, s': Node, word: uint32, length: uint32)
    requires s' == s.(mem := s'.mem, recvs := s'.recvs,
                      cq := s.cq + [Completion(true, WcRecvWithImm, word, length)])
    ensures ServerSettingInv(s) ==> ServerSettingInv(s')
    ensures ServerQuietInv(s) ==> ServerQuietInv(s')
    ensures ServerSendingInv(s) ==> ServerSendingInv(s')
  {
    hide Remaining, Server.Reply, Every, Count;
    var wc := Completion(true, WcRecvWithImm, word, length);
    CountPush(s.cq, wc, WcSend);
    CountPush(s.cq, wc, WcRdmaWrite);
  }

  lemma ImmediateArrives(s: Node, s': Node, pc: Pc, t: Tally, word: uint32, length: uint32)
    requires ServerInv(s, pc, t, word) && Answering(pc, s.ctx) && t.requested <= t.kernels
    requires s.recvs != []
    requires s' == s.(mem := s'.mem, recvs := s.recvs[1..],
                      cq := s.cq + [Completion(true, WcRecvWithImm, word, length)])
    ensures ServerInv(s', pc, t.(requested := t.requested + 1), word)
  {
    hide ServerCounts, ServerBlankInv, ServerQuietInv, ServerSettingInv, ServerSendingInv;
    ImmediateCounts(s, s', pc, t, word, length);
    ImmediateAtWorker(s, s', word, length);
  }

  lemma PlainWriteArrives(s: Node, s': Node, pc: Pc, t: Tally, word: uint32)
    requires ServerInv(s, pc, t, word) && Answering(pc, s.ctx) && s' == s.(mem := s'.mem)
    ensures ServerInv(s', pc, t, word)
  {
    hide Only, Every, Immediates, Remaining, Count, ServerBlankInv;
  }

  lemma CreditForRequest(s: Node, pc: Pc, t: Tally, word: uint32)
    requires ServerInv(s, pc, t, word) && Answering(pc, s.ctx) && t.requested <= t.kernels
    ensures s.recvs != []
  {
    hide ServerSettingInv, ServerQuietInv, ServerSendingInv, ServerBlankInv;
  }

  lemma WriteKeepsShape(cfg: Config, h: Comm, s: Node, s': Node, i: nat, data: seq<byte>)
    requires ServerShape(cfg, h, s) && s'.ctx == s.ctx && i < |s.mem|
    requires |data| == |s.mem[i]| && s'.mem == s.mem[i := data]
    ensures ServerShape(cfg, h, s')
  {
    hide Marked, ServerRegionFits, Zeros, DistinctAddresses;
  }

  /** The tally once the oldest packet of a queue of writes has arrived. */
  function AfterRequest(t: Tally, queued: nat): Tally {
    if queued == 1 then t.(requested := t.requested + 1) else t
  }

  lemma RequestWriteDelivered(cfg: Config, j: Joint) returns (i: nat)
    requires HostShape(cfg, j.host, j.tally.started) && ServerShape(cfg, j.host.ctx, j.server)
    requires HostTransferInv(j.host, j.tally) && Ordered(j.tally) && j.host.sq != []
    requires ServerInv(j.server, j.pc, j.tally, Host.RequestWord(j.host.ctx.immediate))
    requires Answering(j.pc, j.server.ctx) && PeersLinked(j.host.ctx, j.server.ctx)
    ensures i < |cfg.inputs| <= |j.server.mem|
    ensures i == Marked(j.host.ctx.local)[|Marked(j.host.ctx.local)| - |j.host.sq|]
    ensures j.host.ctx.local[i].size <= |j.host.mem[i]| == |j.server.mem[i]|
    ensures Deliver(j.host, j.server).Some? && (CarriesImmediate(j.host) <==> |j.host.sq| == 1)
    ensures var (h', s') := Deliver(j.host, j.server).value;
      var t' := AfterRequest(j.tally, |j.host.sq|);
      && h' == j.host.(sq := j.host.sq[1..], unacked := j.host.unacked + [WcRdmaWrite])
      && s' == j.server.(mem := s'.mem, recvs := s'.recvs, cq := s'.cq)
      && s'.mem == j.server.mem[i := Over(j.host.mem[i][..j.host.ctx.local[i].size], j.server.mem[i])]
      && Ordered(t') && HostTransferInv(h', t')
      && ServerInv(s', j.pc, t', Host.RequestWord(j.host.ctx.immediate))
  {
    hide HostShape, ServerShape, ServerInv, HostTransferInv, PeersLinked, Host.RequestWord, WriteInto, Over;
    var word := Host.RequestWord(j.host.ctx.immediate);
    i := NextRequestWrite(cfg, j.host, j.tally);
    RequestWriteLands(cfg, j, i);
    WriteLeavesHost(j.host, j.tally);
    RequestOutstanding(j.host, j.tally);
    CreditForRequest(j.server, j.pc, j.tally, word);
    var (h', s') := Deliver(j.host, j.server).value;
    if |j.host.sq| == 1 {
      ImmediateArrives(j.server, s', j.pc, j.tally, word, j.host.sq[0].wr.length);
    } else {
      PlainWriteArrives(j.server, s', j.pc, j.tally, word);
    }
    MemoryLengths(cfg, j, i);
  }

  lemma MemoryLengths(cfg: Config, j: Joint, i: nat)
    requires HostShape(cfg, j.host, j.tally.started) && ServerShape(cfg, j.host.ctx, j.server)
    requires i < |cfg.inputs|
    ensures |cfg.inputs| <= |j.server.mem| && i < |j.host.mem|
    ensures |j.host.mem[i]| == |j.server.mem[i]| == cfg.lengths[i]
  {
    hide ConfigFits, HostRegionFits, Host.Counted, Marked, ServerRegionFits, DistinctAddresses;
    assert |j.server.mem[i]| == |Zeros(cfg.lengths + cfg.internals)[i]|;
  }

  lemma RequestOutstanding(h: Node, t: Tally)
    requires HostTransferInv(h, t) && Ordered(t) && h.sq != []
    ensures t.requested == t.finished == t.kernels && t.started == t.finished + 1
  {
    hide Remaining, Host.Posted, Only, Immediates, Count;
  }

  lemma SendWriteKeeps(cfg: Config, j: Joint)
    requires Inv(cfg, j) && j.host.sq != [] && Settled(j.host.ctx)
    ensures Inv(cfg, DoHostSend(j)) && DoHostSend(j).ended == j.ended
  {
    hide HostShape, ServerShape, ServerInv, HostTransferInv, SetupLink, PeersLinked, Host.RequestWord, Deliver,
      Ordered, Over;
    var i := RequestWriteDelivered(cfg, j);
    var (h', s') := Deliver(j.host, j.server).value;
    HostSteps.HostShapeQueues(cfg, j.host, h', j.tally.started);
    WriteKeepsShape(cfg, j.host.ctx, j.server, j.server.(mem := s'.mem), i, s'.mem[i]);
    ServerShapeQueues(cfg, j.host.ctx, j.server.(mem := s'.mem), s');
    LinkAfterDelivery(j, h', s', DoHostSend(j));
  }

  lemma LinkAfterDelivery(j: Joint, h': Node, s': Node, j': Joint)
    requires Link(j) && Settled(j.host.ctx) && j'.host == h' && j'.server == s' && j'.pc == j.pc
    requires h'.ctx == j.host.ctx && s'.ctx == j.server.ctx && (j.server.sq == [] ==> s'.sq == [])
    ensures Link(j')
  {
    hide PeersLinked, SetupLink;
  }

  // ---------------------------------------------------------------- the writes of a reply

  lemma NextReplyWrite(cfg: Config, h: Comm, s: Node) returns (i: nat)
    requires ConfigFits(cfg) && ServerShape(cfg, h, s) && ServerSendingInv(s) && s.sq != []
    ensures i < |cfg.inputs| && s.ctx.local[i].toWrite
    ensures i == Marked(s.ctx.local)[|Marked(s.ctx.local)| - |s.sq|]
    ensures s.sq[0].Write?
    ensures var wr := s.sq[0].wr;
      && wr.source == s.ctx.local[i].addr && wr.length == cfg.lengths[i]
      && wr.target == h.local[i].addr && wr.rkey == h.local[i].rkey
      && wr.imm == (if |s.sq| == 1 then Some(0) else None)
    ensures Remaining(s.sq[1..], Server.Reply(s.ctx, 0))
  {
    hide Marked, DistinctAddresses, Only, Every, SameShape;
    var chain := Server.Reply(s.ctx, 0);
    RemainingHead(s.sq, chain);
    var k := |chain| - |s.sq|;
    i := Marked(s.ctx.local)[k];
    assert chain[k] == Slot(s.ctx.local, s.ctx.peer, 0, true, -1, k);
    assert ServerRegionFits(cfg, h.local[i], s.ctx.local[i], s.ctx.peer[i], i);
  }

  /** The reply lands in the host's region of the same index, and fills it. */
  lemma ReplyWriteLands(cfg: Config, j: Joint, i: nat)
    requires HostShape(cfg, j.host, j.tally.started) && ServerShape(cfg, j.host.ctx, j.server)
    requires i < |cfg.inputs| && j.server.sq != [] && j.server.sq[0].Write?
    requires var wr := j.server.sq[0].wr;
      && wr.source == j.server.ctx.local[i].addr && wr.length == cfg.lengths[i]
      && wr.target == j.host.ctx.local[i].addr && wr.rkey == j.host.ctx.local[i].rkey
    ensures i < |j.server.mem| && |j.server.mem[i]| == |j.host.mem[i]| == cfg.lengths[i]
    ensures WriteInto(j.server, j.host, j.server.sq[0].wr)
         == Some(j.host.mem[i := j.server.mem[i]])
  {
    hide ConfigFits, HostRegionFits, Host.Counted, Marked, ServerRegionFits;
    FindsRegion(j.host.ctx.local, i);
    FindsRegion(j.server.ctx.local, i);
    hide DistinctAddresses, FindRegion;
    MemoryLengths(cfg, j, i);
    assert j.server.mem[i][..cfg.lengths[i]] == j.server.mem[i];
    assert Over(j.server.mem[i], j.host.mem[i]) == j.server.mem[i];
  }

  function AfterReply(t: Tally, queued: nat): Tally {
    if queued == 1 then t.(replied := t.replied + 1) else t
  }

  lemma WriteLeavesServer(s: Node, t: Tally, word: uint32)
    requires ServerInv(s, Sending, t, word) && Answering(Sending, s.ctx) && s.sq != []
    requires Remaining(s.sq[1..], Server.Reply(s.ctx, 0))
    requires |s.ctx.local| == |s.ctx.peer| && s.ctx.local != []
    ensures ServerInv(s.(sq := s.sq[1..], unacked := s.unacked + [WcRdmaWrite]), Sending,
                      AfterReply(t, |s.sq|), word)
    ensures t.kernels == t.replied + 1
  {
    hide Remaining, Server.Reply, Only, Immediates, Count, ServerBlankInv, ServerSettingInv, ServerQuietInv;
  }

  lemma ReplyExpected(h: Node, t: Tally)
    requires HostInv(h, t) && Ordered(t) && t.kernels == t.replied + 1
    ensures InTransfer(h.ctx) && HostTransferInv(h, t)
    ensures t.replied == t.finished && |h.recvs| == 1
  {
    hide HostTransferInv;
    assert InTransfer(h.ctx);
    TransferStarted(h, t);
  }

  lemma TransferStarted(h: Node, t: Tally)
    requires HostTransferInv(h, t)
    ensures t.started == t.finished + 1
  {
    hide Remaining, Host.Posted, Only, Immediates, Count, Every;
  }

  lemma ResponseArrives(h: Node, h': Node, t: Tally, length: uint32)
    requires HostTransferInv(h, t) && t.replied == t.finished && h.recvs != []
    requires h' == h.(mem := h'.mem, recvs := h.recvs[1..],
                      cq := h.cq + [Completion(true, WcRecvWithImm, 0, length)])
    ensures HostTransferInv(h', t.(replied := t.replied + 1))
  {
    hide Remaining, Host.Posted, Only, Every, Immediates, Count;
    var wc := Completion(true, WcRecvWithImm, 0, length);
    CountPush(h.cq, wc, WcRdmaWrite);
    CountPush(h.cq, wc, WcRecvWithImm);
    OnlyPush(h.cq, wc, WcRdmaWrite, WcRecvWithImm);
    ImmediatesPush(h.cq, wc, 0);
  }

  lemma PlainReplyArrives(h: Node, h': Node, t: Tally)
    requires HostTransferInv(h, t) && h' == h.(mem := h'.mem)
    ensures HostTransferInv(h', t)
  {
    hide Remaining, Only, Immediates, Count, Every;
  }

  lemma ShapeFits(cfg: Config, h: Node, calls: nat)
    requires HostShape(cfg, h, calls)
    ensures ConfigFits(cfg)
  {
    hide ConfigFits, Marked, HostRegionFits, DistinctAddresses;
  }

  lemma SendingInv(s: Node, t: Tally, word: uint32)
    requires ServerInv(s, Sending, t, word) && Answering(Sending, s.ctx)
    ensures ServerSendingInv(s) && |s.ctx.local| == |s.ctx.peer| && s.ctx.local != []
  {
    hide Remaining, Only, Every, Count, ServerCounts;
  }

  /** A worker with packets queued is answering the setup or sending a reply. */
  lemma QueuedBy(s: Node, pc: Pc, t: Tally, word: uint32)
    requires ServerInv(s, pc, t, word) && (s.sq != [] || s.unacked != [])
    ensures Answering(pc, s.ctx)
    ensures pc == Sending || (pc == Setting && ServerSettingInv(s))
  {
    hide ServerSendingInv, ServerCounts, ServerSettingInv;
  }

  lemma ReplyDelivered(cfg: Config, j: Joint) returns (i: nat)
    requires HostShape(cfg, j.host, j.tally.started) && ServerShape(cfg, j.host.ctx, j.server)
    requires HostInv(j.host, j.tally) && Ordered(j.tally) && j.server.sq != [] && j.pc == Sending
    requires ServerInv(j.server, j.pc, j.tally, Host.RequestWord(j.host.ctx.immediate))
    requires Answering(j.pc, j.server.ctx)
    ensures i < |cfg.inputs| <= |j.server.mem| && i < |j.host.mem| && |j.host.mem[i]| == |j.server.mem[i]|
    ensures i == Marked(j.server.ctx.local)[|Marked(j.server.ctx.local)| - |j.server.sq|]
    ensures Deliver(j.server, j.host).Some? && (CarriesImmediate(j.server) <==> |j.server.sq| == 1)
    ensures var (s', h') := Deliver(j.server, j.host).value;
      var t' := AfterReply(j.tally, |j.server.sq|);
      && s' == j.server.(sq := j.server.sq[1..], unacked := j.server.unacked + [WcRdmaWrite])
      && h' == j.host.(mem := j.host.mem[i := j.server.mem[i]], recvs := h'.recvs, cq := h'.cq)
      && Ordered(t') && HostInv(h', t')
      && ServerInv(s', j.pc, t', Host.RequestWord(j.host.ctx.immediate))
  {
    hide HostShape, ServerShape, ServerInv, HostTransferInv, Host.RequestWord, WriteInto, ConfigFits,
      ServerSendingInv, Marked;
    ShapeFits(cfg, j.host, j.tally.started);
    SendingInv(j.server, j.tally, Host.RequestWord(j.host.ctx.immediate));
    i := NextReplyWrite(cfg, j.host.ctx, j.server);
    MemoryLengths(cfg, j, i);
    ReplyWriteLands(cfg, j, i);
    WriteLeavesServer(j.server, j.tally, Host.RequestWord(j.host.ctx.immediate));
    ReplyExpected(j.host, j.tally);
    var (s', h') := Deliver(j.server, j.host).value;
    if |j.server.sq| == 1 {
      ResponseArrives(j.host, h', j.tally, j.server.sq[0].wr.length);
    } else {
      PlainReplyArrives(j.host, h', j.tally);
    }
  }

  lemma ReplyKeepsShape(cfg: Config, h: Node, h': Node, i: nat, calls: nat, data: seq<byte>)
    requires HostShape(cfg, h, calls) && h'.ctx == h.ctx && i < |h.mem| && |data| == |h.mem[i]|
    requires h'.mem == h.mem[i := data]
    ensures HostShape(cfg, h', calls)
  {
    hide ConfigFits, HostRegionFits, Marked, Host.Counted, DistinctAddresses;
  }

  lemma SendReplyKeeps(cfg: Config, j: Joint)
    requires Inv(cfg, j) && j.server.sq != [] && Settled(j.host.ctx)
    ensures Inv(cfg, DoServerSend(j)) && DoServerSend(j).ended == j.ended
  {
    hide HostShape, ServerShape, ServerInv, HostInv, ServerSettingInv, SetupLink, PeersLinked, Host.RequestWord,
      Deliver, Ordered;
    QueuedBy(j.server, j.pc, j.tally, Host.RequestWord(j.host.ctx.immediate));
    var i := ReplyDelivered(cfg, j);
    var (s', h') := Deliver(j.server, j.host).value;
    ReplyKeepsShape(cfg, j.host, h', i, j.tally.started, j.server.mem[i]);
    ServerShapeQueues(cfg, j.host.ctx, j.server, s');
    LinkAfterDelivery(j, h', s', DoServerSend(j));
  }

  // ---------------------------------------------------------------- acknowledgement

  lemma AckServerCounts(s: Node, pc: Pc, t: Tally, word: uint32)
    requires ServerCounts(s, pc, t, word) && s.unacked != [] && s.unacked[0] != WcRecvWithImm
    ensures ServerCounts(Acknowledge(s), pc, t, word)
  {
    CountPush(s.cq, Completion(true, s.unacked[0], 0, 0), WcRecvWithImm);
  }

  lemma AckSetting(s: Node)
    requires ServerSettingInv(s) && s.unacked != []
    ensures ServerSettingInv(Acknowledge(s)) && s.unacked[0] == WcSend
  {
    CountPush(s.cq, Completion(true, s.unacked[0], 0, 0), WcSend);
  }

  lemma AckSending(s: Node)
    requires ServerSendingInv(s) && s.unacked != []
    ensures ServerSendingInv(Acknowledge(s)) && s.unacked[0] == WcRdmaWrite
  {
    hide Remaining, Server.Reply;
    CountPush(s.cq, Completion(true, s.unacked[0], 0, 0), WcRdmaWrite);
  }

  lemma AckServerInv(s: Node, pc: Pc, t: Tally, word: uint32)
    requires ServerInv(s, pc, t, word) && s.unacked != []
    ensures ServerInv(Acknowledge(s), pc, t, word) && Answering(pc, s.ctx)
  {
    hide ServerSettingInv, ServerSendingInv, ServerCounts, Acknowledge;
    QueuedBy(s, pc, t, word);
    if pc == Setting {
      AckSetting(s);
    } else {
      AckSending(s);
    }
    AckServerCounts(s, pc, t, word);
    AckSameContext(s);
  }

  lemma AckSameContext(s: Node)
    requires s.unacked != []
    ensures Acknowledge(s).ctx == s.ctx && Acknowledge(s).mem == s.mem && Acknowledge(s).sq == s.sq
  {
  }

  lemma ServerAckKeeps(cfg: Config, j: Joint)
    requires Inv(cfg, j) && j.server.unacked != []
    ensures Inv(cfg, DoServerAck(j))
  {
    hide HostShape, ServerShape, ServerInv, HostInv, Host.RequestWord, PeersLinked, AnswerMessage, Adverts,
      Setup.CarriesAnswer, Setup.CarriesRequest, RequestMessage, Records;
    AckServerInv(j.server, j.pc, j.tally, Host.RequestWord(j.host.ctx.immediate));
    ServerShapeQueues(cfg, j.host.ctx, j.server, Acknowledge(j.server));
  }
}
