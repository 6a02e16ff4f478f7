/** What every reachable state of the joint machine satisfies. */
module Invariant {
  import opened Bytes
  import opened Context
  import opened Chain
  import opened Messages
  import opened Wire
  import opened Machine
  import Host
  import Server
  import Setup

  function Count(cq: seq<Completion>, op: Opcode): (n: nat)
    ensures n <= |cq|
  {
    if cq == [] then 0
    else Count(cq[..|cq| - 1], op) + if cq[|cq| - 1].opcode == op then 1 else 0
  }

  function One(b: bool): nat {
    if b then 1 else 0
  }

  lemma CountPush(cq: seq<Completion>, wc: Completion, op: Opcode)
    ensures Count(cq + [wc], op) == Count(cq, op) + One(wc.opcode == op)
  {
    assert (cq + [wc])[..|cq|] == cq;
  }

  lemma {:induction false} CountPop(cq: seq<Completion>, op: Opcode)
    requires cq != []
    ensures Count(cq, op) == Count(cq[1..], op) + One(cq[0].opcode == op)
  {
    var n := |cq| - 1;
    if n > 0 {
      CountPop(cq[..n], op);
      assert cq[..n][1..] == cq[1..][..n - 1];
    }
  }

  lemma {:induction false} CountZero(cq: seq<Completion>, op: Opcode)
    requires Count(cq, op) == 0
    ensures forall i :: 0 <= i < |cq| ==> cq[i].opcode != op
  {
    if cq != [] {
      CountZero(cq[..|cq| - 1], op);
    }
  }

  /** Every completion succeeded and has one of two opcodes. */
  predicate Only(cq: seq<Completion>, a: Opcode, b: Opcode) {
    forall i :: 0 <= i < |cq| ==> cq[i].success && (cq[i].opcode == a || cq[i].opcode == b)
  }

  predicate Every(us: seq<Opcode>, a: Opcode) {
    forall i :: 0 <= i < |us| ==> us[i] == a
  }

  lemma OnlyPush(cq: seq<Completion>, wc: Completion, a: Opcode, b: Opcode)
    requires Only(cq, a, b) && wc.success && (wc.opcode == a || wc.opcode == b)
    ensures Only(cq + [wc], a, b)
  {
  }

  /** The immediates still to be polled all carry the same word. */
  predicate Immediates(cq: seq<Completion>, word: uint32) {
    forall i :: 0 <= i < |cq| && cq[i].opcode == WcRecvWithImm ==> cq[i].imm == word
  }

  lemma ImmediatesPush(cq: seq<Completion>, wc: Completion, word: uint32)
    requires Immediates(cq, word) && (wc.opcode == WcRecvWithImm ==> wc.imm == word)
    ensures Immediates(cq + [wc], word)
  {
  }

  /** The packets of a posted chain that have not left the queue yet. */
  predicate Remaining(sq: seq<Packet>, wrs: seq<WriteRequest>) {
    |sq| <= |wrs| && sq == Writes(wrs)[|wrs| - |sq|..]
  }

  /** The worker has received the request and built its tables. */
  predicate Answering(pc: Pc, s: Comm) {
    pc != Boot && s.state != MrspReceiving
  }

  predicate Settled(h: Comm) {
    Idle(h) || InTransfer(h)
  }

  const NO_CALLS := Tally(0, 0, 0, 0, 0)

  predicate Ordered(t: Tally) {
    t.finished <= t.replied <= t.kernels <= t.requested <= t.started <= t.finished + 1
  }

  /** The host before its setup is complete. */
  predicate HostSetupInv(h: Node) {
    && h.ctx.writesDone == 0 && !h.ctx.responseReceived
    && Every(h.unacked, WcSend) && Only(h.cq, WcSend, WcRecv)
    && |h.sq| + |h.unacked| + Count(h.cq, WcSend) == One(h.ctx.state == MrspSending)
  }

  /** The host between calls: nothing is outstanding. */
  predicate HostIdleInv(h: Node, t: Tally) {
    && h.sq == [] && h.unacked == [] && h.cq == []
    && h.ctx.writesDone == 0 && !h.ctx.responseReceived
    && t.started == t.finished
  }

  /** The host during a call: every write and the response are accounted for exactly once. */
  predicate HostTransferInv(h: Node, t: Tally) {
    && |h.ctx.local| == |h.ctx.peer| && h.ctx.fncode != 0
    && t.started == t.finished + 1
    && Every(h.unacked, WcRdmaWrite) && Only(h.cq, WcRdmaWrite, WcRecvWithImm) && Immediates(h.cq, 0)
    && h.ctx.writesDone + |h.sq| + |h.unacked| + Count(h.cq, WcRdmaWrite) == h.ctx.noInput
    && One(h.ctx.responseReceived) + Count(h.cq, WcRecvWithImm) == t.replied - t.finished
    && !(h.ctx.writesDone == h.ctx.noInput && h.ctx.responseReceived)
    && Remaining(h.sq, Host.Posted(h.ctx, h.ctx.fncode))
    && t.started - t.requested == One(h.sq != [])
  }

  predicate HostInv(h: Node, t: Tally) {
    if Idle(h.ctx) then HostIdleInv(h, t) && |h.recvs| == 0
    else if InTransfer(h.ctx) then HostTransferInv(h, t) && |h.recvs| == t.started - t.replied
    else
      && t == NO_CALLS && HostSetupInv(h)
      && (h.ctx.state == Connected || h.ctx.state == MrspSending || h.ctx.state == MrspReceiving)
  }

  /** The worker before the request: blank, with one posted receive per attempt to receive. */
  predicate ServerBlankInv(s: Node, receives: nat) {
    && Server.Blank(s.ctx) && s.mem == [] && s.sq == [] && s.unacked == []
    && Only(s.cq, WcRecv, WcRecv)
    && |s.recvs| + Count(s.cq, WcRecv) == receives
    && (forall i :: 0 <= i < |s.recvs| ==> s.recvs[i] == MESSAGE_CAPACITY)
  }

  /** Nothing of the worker's own is outstanding. */
  predicate ServerQuietInv(s: Node) {
    && s.sq == [] && s.unacked == [] && s.ctx.writesDone == 0
    && Only(s.cq, WcRecvWithImm, WcRecvWithImm)
  }

  predicate ServerSettingInv(s: Node) {
    && s.ctx.state == MrspSending && s.ctx.writesDone == 0
    && Every(s.unacked, WcSend) && Only(s.cq, WcSend, WcRecvWithImm)
    && |s.sq| + |s.unacked| + Count(s.cq, WcSend) == 1
  }

  predicate ServerSendingInv(s: Node) {
    && |s.ctx.local| == |s.ctx.peer| && s.ctx.local != []
    && s.ctx.state == DataSending
    && Every(s.unacked, WcRdmaWrite) && Only(s.cq, WcRdmaWrite, WcRecvWithImm)
    && s.ctx.writesDone + |s.sq| + |s.unacked| + Count(s.cq, WcRdmaWrite) == s.ctx.noOutput
    && s.ctx.writesDone < s.ctx.noOutput
    && Remaining(s.sq, Server.Reply(s.ctx, 0))
  }

  /** The request immediates not yet handled, and the receives posted for further ones. */
  predicate ServerCounts(s: Node, pc: Pc, t: Tally, word: uint32) {
    && Immediates(s.cq, word)
    && Count(s.cq, WcRecvWithImm) + One(pc == Computing) == t.requested - t.kernels
    && t.kernels - t.replied == One(pc == Replying || (pc == Sending && s.sq != []))
    && |s.recvs| == 1 + t.kernels + One(pc == Receiving || pc == Computing) - t.requested
  }

  predicate ServerInv(s: Node, pc: Pc, t: Tally, word: uint32) {
    if !Answering(pc, s.ctx) then
      && t == NO_CALLS
      && (if pc == Boot then s.ctx.state == Connected && ServerBlankInv(s, 1)
          else pc == Setting && ServerBlankInv(s, 2))
      && s.ctx.writesDone == 0
    else
      && ServerCounts(s, pc, t, word)
      && match pc
         case Boot => false
         case Setting => ServerSettingInv(s)
         case Arming => (s.ctx.state == MrspDone || s.ctx.state == DataReceiving) && ServerQuietInv(s)
         case Receiving => s.ctx.state == DataReceiving && ServerQuietInv(s)
         case Computing => s.ctx.state == Calculating && ServerQuietInv(s)
         case Replying => s.ctx.state == Calculating && ServerQuietInv(s)
         case Sending => ServerSendingInv(s)
  }

  /** One region of the accelerator against the host's. */
  predicate ServerRegionFits(cfg: Config, hl: LocalRegion, sl: LocalRegion, sp: PeerRegion, i: nat)
    requires i < |cfg.inputs| == |cfg.outputs| == |cfg.lengths|
  {
    && sl.length == cfg.lengths[i] && sl.toWrite == cfg.outputs[i]
    && sp.addr == hl.addr && sp.rkey == hl.rkey && sp.size == hl.length
  }

  /** The accelerator's tables and memory once the request is answered. */
  ghost predicate ServerShape(cfg: Config, h: Comm, s: Node) {
    && |h.local| == |s.ctx.local| == |s.ctx.peer| == |cfg.inputs| == |cfg.outputs| == |cfg.lengths|
    && |s.ctx.message| == MESSAGE_CAPACITY
    && (forall i :: 0 <= i < |cfg.inputs| ==>
          ServerRegionFits(cfg, h.local[i], s.ctx.local[i], s.ctx.peer[i], i))
    && DistinctAddresses(s.ctx.local)
    && s.ctx.noOutput == |Marked(s.ctx.local)|
    && SameShape(s.mem, Zeros(cfg.lengths + cfg.internals))
  }

  /** The host's peer table names the accelerator's buffers. */
  predicate PeersLinked(h: Comm, s: Comm) {
    && |h.peer| == |s.local|
    && forall i :: 0 <= i < |h.peer| ==>
         h.peer[i].addr == s.local[i].addr && h.peer[i].rkey == s.local[i].rkey
         && h.peer[i].size == s.local[i].length
  }

  /** Where the request and the answer of the setup are, and that they arrive intact. */
  predicate SetupLink(j: Joint) {
    var h, s := j.host, j.server;
    |h.ctx.local| == |h.ctx.peer| &&
    if h.ctx.state == Connected then
      h.sq == [] && h.unacked == [] && h.cq == [] && h.recvs == [] && s.cq == []
      && !Answering(j.pc, s.ctx)
    else if Answering(j.pc, s.ctx) then
      && h.sq == [] && |s.ctx.local| <= MAX_RECORDS
      && |s.sq| + Count(h.cq, WcRecv) == 1
      && (s.sq != [] ==> s.sq == [Message(AnswerMessage(Adverts(s.ctx.local)))] && h.recvs == [MESSAGE_CAPACITY])
      && (s.sq == [] ==> Setup.CarriesAnswer(h.ctx.message, s.ctx.local) && h.recvs == [])
    else
      && |h.sq| + Count(s.cq, WcRecv) == 1
      && Count(h.cq, WcRecv) == 0 && h.recvs == [MESSAGE_CAPACITY]
      && (h.sq != [] ==>
            h.sq == [Message(RequestMessage(Records(h.ctx.local, h.ctx.peer, h.ctx.internals)))])
      && (h.sq == [] ==> Setup.CarriesRequest(s.ctx.message, h.ctx))
  }

  predicate Link(j: Joint) {
    if Settled(j.host.ctx) then
      && Answering(j.pc, j.server.ctx) && PeersLinked(j.host.ctx, j.server.ctx)
      && (j.pc == Setting ==> j.server.sq == [])
    else SetupLink(j)
  }

  /** A request being computed is the one the host made. */
  predicate RequestSeen(j: Joint) {
    j.pc == Computing ==>
      && j.server.ctx.fncode == j.host.ctx.fncode % 0x80
      && j.server.ctx.immediate == j.host.ctx.immediate / 0x100
  }

  ghost predicate Inv(cfg: Config, j: Joint) {
    && HostShape(cfg, j.host, j.tally.started)
    && Ordered(j.tally)
    && HostInv(j.host, j.tally)
    && ServerInv(j.server, j.pc, j.tally, Host.RequestWord(j.host.ctx.immediate))
    && (Answering(j.pc, j.server.ctx) ==> ServerShape(cfg, j.host.ctx, j.server))
    && Link(j)
    && RequestSeen(j)
  }

  lemma InitialInv(cfg: Config, j: Joint)
    requires Initial(cfg, j)
    ensures Inv(cfg, j)
  {
    assert |j.host.ctx.local| == |j.host.ctx.peer|;
    hide HostShape;
  }
}
