/**
 * Host, accelerator and the reliable in-order connection between them as one transition system.
 * Each end owns its memory, a queue of posted sends, the sends still unacknowledged, a completion
 * queue and its posted receives. Every interleaving of the steps below is a run.
 */
module Machine {
  import opened Bytes
  import opened Context
  import opened Messages
  import opened Wire
  import Host
  import Server

  type Memory = seq<seq<byte>>

  /** Function code, 24-bit user value and memory to return code and memory. */
  type Kernel = (byte, uint32, Memory) -> (byte, Memory)

  /** What a connection is set up with, one entry per parameter region. */
  datatype Config = Config(
    inputs: seq<bool>, outputs: seq<bool>, singles: seq<bool>, lengths: seq<nat>,
    internals: seq<nat>, kernel: Kernel)

  datatype Packet = Message(bytes: seq<byte>) | Write(wr: WriteRequest)

  datatype Node = Node(
    ctx: Comm, mem: Memory, sq: seq<Packet>, unacked: seq<Opcode>,
    cq: seq<Completion>, recvs: seq<nat>)

  /** Where the worker thread of the accelerator stands. */
  datatype Pc = Boot | Setting | Arming | Receiving | Computing | Replying | Sending

  /** How often each stage of a call has been passed. */
  datatype Tally = Tally(started: nat, requested: nat, kernels: nat, replied: nat, finished: nat)

  /** `ended`: a handler returned -1, the network refused a packet or the kernel failed. */
  datatype Joint = Joint(host: Node, server: Node, pc: Pc, tally: Tally, ended: bool)

  datatype Step =
    | HostSetup
    | HostCall
    | HostSend
    | HostAck
    | HostPoll
    | AppWrite(i: nat, data: seq<byte>)
    | AppLimit(i: nat, count: int)
    | AppImmediate(user: seq<byte>)
    | ServerBoot
    | ServerPoll(allocs: seq<Server.Alloc>)
    | ServerArm
    | ServerCompute
    | ServerReply
    | ServerSend
    | ServerAck

  // ---------------------------------------------------------------- the connection

  function FindRegion(local: seq<LocalRegion>, addr: uint64): (r: Option<nat>)
    ensures r.Some? ==> r.value < |local| && local[r.value].addr == addr
  {
    if local == [] then None
    else
      var n := |local| - 1;
      match FindRegion(local[..n], addr)
      case Some(i) => Some(i)
      case None => if local[n].addr == addr then Some(n) else None
  }

  /** The memory of `dst` after a write: refused unless address, key and length match a region. */
  function WriteInto(src: Node, dst: Node, wr: WriteRequest): Option<Memory> {
    match (FindRegion(src.ctx.local, wr.source), FindRegion(dst.ctx.local, wr.target))
    case (Some(f), Some(t)) =>
      if f >= |src.mem| || t >= |dst.mem| || dst.ctx.local[t].rkey != wr.rkey
         || wr.length > |src.mem[f]| || wr.length > |dst.mem[t]| then None
      else Some(dst.mem[t := Over(src.mem[f][..wr.length], dst.mem[t])])
    case _ => None
  }

  /** Delivers the oldest posted packet; a message or an immediate takes a posted receive. */
  function Deliver(src: Node, dst: Node): Option<(Node, Node)>
    requires src.sq != []
  {
    match src.sq[0]
    case Message(bytes) =>
      if dst.recvs == [] || |bytes| > dst.recvs[0] || |bytes| > |dst.ctx.message| then None
      else Some((
        src.(sq := src.sq[1..], unacked := src.unacked + [WcSend]),
        dst.(ctx := dst.ctx.(message := Over(bytes, dst.ctx.message)), recvs := dst.recvs[1..],
             cq := dst.cq + [Completion(true, WcRecv, 0, |bytes| % 0x1_0000_0000)])))
    case Write(wr) =>
      var src' := src.(sq := src.sq[1..], unacked := src.unacked + [WcRdmaWrite]);
      match WriteInto(src, dst, wr)
      case None => None
      case Some(mem) =>
        if wr.imm.None? then Some((src', dst.(mem := mem)))
        else if dst.recvs == [] then None
        else Some((src', dst.(mem := mem, recvs := dst.recvs[1..],
                              cq := dst.cq + [Completion(true, WcRecvWithImm, wr.imm.value, wr.length)])))
  }

  function Acknowledge(n: Node): Node
    requires n.unacked != []
  {
    n.(unacked := n.unacked[1..], cq := n.cq + [Completion(true, n.unacked[0], 0, 0)])
  }

  predicate CarriesImmediate(n: Node)
    requires n.sq != []
  {
    n.sq[0].Write? && n.sq[0].wr.imm.Some?
  }

  function Writes(wrs: seq<WriteRequest>): (ps: seq<Packet>)
    ensures |ps| == |wrs|
  {
    seq(|wrs|, k requires 0 <= k < |wrs| => Write(wrs[k]))
  }

  // ---------------------------------------------------------------- the steps

  predicate InTransfer(c: Comm) {
    c.state == DataSending || c.state == DataReceiving
  }

  predicate Idle(c: Comm) {
    c.state == MrspDone || c.state == Finished
  }

  predicate Polling(pc: Pc) {
    pc == Setting || pc == Receiving || pc == Sending
  }

  predicate DistinctBuffers(allocs: seq<Server.Alloc>) {
    forall i, k :: 0 <= i < k < |allocs| && allocs[i].Buffer? && allocs[k].Buffer? ==>
      allocs[i].addr != allocs[k].addr
  }

  predicate Enabled(j: Joint, step: Step) {
    && !j.ended
    && match step
       case HostSetup => j.host.ctx.state == Connected
       case HostCall => Idle(j.host.ctx)
       case HostSend => j.host.sq != []
       case HostAck => j.host.unacked != []
       case HostPoll => j.host.cq != []
       case AppWrite(i, data) =>
         !InTransfer(j.host.ctx) && i < |j.host.mem| && |data| == |j.host.mem[i]|
       case AppLimit(i, count) => !InTransfer(j.host.ctx)
       case AppImmediate(user) => !InTransfer(j.host.ctx) && |user| == 3
       case ServerBoot => j.pc == Boot
       case ServerPoll(allocs) =>
         && Polling(j.pc) && j.server.cq != []
         && (j.server.ctx.state == MrspReceiving ==>
               |j.server.ctx.message| >= HEADER_SIZE && |allocs| == j.server.ctx.message[1]
               && DistinctBuffers(allocs))
       case ServerArm => j.pc == Arming
       case ServerCompute => j.pc == Computing
       case ServerReply => j.pc == Replying
       case ServerSend => j.server.sq != []
       case ServerAck => j.server.unacked != []
  }

  function Ended(j: Joint): Joint {
    j.(ended := true)
  }

  function DoHostSetup(j: Joint): Joint {
    var c := j.host.ctx;
    if !Sendable(c, MSG_MR_AAR) then Ended(j)
    else j.(host := j.host.(
      ctx := AfterSend(c, MSG_MR_AAR, 0),
      sq := j.host.sq + [Message(MessageBytes(c, MSG_MR_AAR, 0))],
      recvs := j.host.recvs + [MESSAGE_CAPACITY]))
  }

  function DoHostCall(j: Joint): Joint {
    var c := Host.Started(j.host.ctx);
    if |c.local| != |c.peer| || c.fncode == 0 then Ended(j)
    else j.(host := j.host.(ctx := c, sq := j.host.sq + Writes(Host.Posted(c, c.fncode)),
                            recvs := j.host.recvs + [0]),
            tally := j.tally.(started := j.tally.started + 1))
  }

  function DoHostSend(j: Joint): Joint
    requires j.host.sq != []
  {
    match Deliver(j.host, j.server)
    case None => Ended(j)
    case Some((h, s)) =>
      var n := if CarriesImmediate(j.host) then 1 else 0;
      j.(host := h, server := s, tally := j.tally.(requested := j.tally.requested + n))
  }

  function DoHostAck(j: Joint): Joint
    requires j.host.unacked != []
  {
    j.(host := Acknowledge(j.host))
  }

  function DoServerAck(j: Joint): Joint
    requires j.server.unacked != []
  {
    j.(server := Acknowledge(j.server))
  }

  function DoAppLimit(j: Joint, i: nat, count: int): Joint {
    j.(host := j.host.(ctx := Host.SetBytes(j.host.ctx, i, count).ctx))
  }

  function DoAppImmediate(j: Joint, user: seq<byte>): Joint
    requires |user| == 3
  {
    j.(host := j.host.(ctx := Host.SetImmediate(j.host.ctx, user)))
  }

  function DoServerSend(j: Joint): Joint
    requires j.server.sq != []
  {
    match Deliver(j.server, j.host)
    case None => Ended(j)
    case Some((s, h)) =>
      var n := if CarriesImmediate(j.server) then 1 else 0;
      j.(host := h, server := s, tally := j.tally.(replied := j.tally.replied + n))
  }

  function DoHostPoll(j: Joint): Joint
    requires j.host.cq != []
  {
    var c, wc := j.host.ctx, j.host.cq[0];
    if !Host.Handleable(c, wc) || !Host.Handle(c, wc).ok then Ended(j)
    else
      var c' := Host.Handle(c, wc).ctx;
      var n := if c'.state == Finished then 1 else 0;
      j.(host := j.host.(ctx := c', cq := j.host.cq[1..]),
         tally := j.tally.(finished := j.tally.finished + n))
  }

  function Zeros(lengths: seq<nat>): (m: Memory)
    ensures |m| == |lengths|
  {
    seq(|lengths|, i requires 0 <= i < |lengths| => seq(lengths[i], _ => 0))
  }

  /** The cleared buffers behind the accelerator's tables: parameters, then internal regions. */
  function FreshMemory(c: Comm): Memory {
    Zeros(seq(|c.local|, i requires 0 <= i < |c.local| => c.local[i].length)
          + seq(|c.internals|, i requires 0 <= i < |c.internals| => c.internals[i].size))
  }

  /** A poll hands control back to the worker as soon as the state has moved on. */
  function PcAfter(pc: Pc, c: Comm): Pc {
    if pc == Setting && c.state == MrspDone then Arming
    else if pc == Receiving && c.state == Calculating then Computing
    else if pc == Sending && c.state == DataReceiving then Arming
    else pc
  }

  function DoServerPoll(j: Joint, allocs: seq<Server.Alloc>): Joint
    requires j.server.cq != []
  {
    var c, wc := j.server.ctx, j.server.cq[0];
    if !Server.Handleable(c, wc, allocs) || !Server.Handle(c, wc, allocs).ok then Ended(j)
    else
      var r := Server.Handle(c, wc, allocs);
      var n := j.server.(ctx := r.ctx, cq := j.server.cq[1..]);
      j.(pc := PcAfter(j.pc, r.ctx),
         server := if r.sent.None? then n
                   else n.(sq := n.sq + [Message(r.sent.value)], mem := FreshMemory(r.ctx)))
  }

  function DoServerBoot(j: Joint): Joint {
    j.(pc := Setting, server := j.server.(
      ctx := j.server.ctx.(state := MrspReceiving), recvs := j.server.recvs + [MESSAGE_CAPACITY]))
  }

  function DoServerArm(j: Joint): Joint {
    j.(pc := Receiving, server := j.server.(
      ctx := Server.Awaiting(j.server.ctx),
      recvs := j.server.recvs + [0]))
  }

  /** A kernel that reports an error ends the run. */
  function DoServerCompute(cfg: Config, j: Joint): Joint {
    var (code, mem) := cfg.kernel(j.server.ctx.fncode, j.server.ctx.immediate, j.server.mem);
    if code != 0 then Ended(j)
    else j.(pc := Replying, server := j.server.(mem := mem),
            tally := j.tally.(kernels := j.tally.kernels + 1))
  }

  function DoServerReply(j: Joint): Joint {
    var c := j.server.ctx.(state := DataSending);
    if |c.local| != |c.peer| || c.local == [] then Ended(j)
    else j.(pc := Sending, server := j.server.(ctx := c, sq := j.server.sq + Writes(Server.Reply(c, 0))))
  }

  function Do(cfg: Config, j: Joint, step: Step): Joint
    requires Enabled(j, step)
  {
    match step
    case HostSetup => DoHostSetup(j)
    case HostCall => DoHostCall(j)
    case HostSend => DoHostSend(j)
    case HostAck => DoHostAck(j)
    case HostPoll => DoHostPoll(j)
    case AppWrite(i, data) => j.(host := j.host.(mem := j.host.mem[i := data]))
    case AppLimit(i, count) => DoAppLimit(j, i, count)
    case AppImmediate(user) => DoAppImmediate(j, user)
    case ServerBoot => DoServerBoot(j)
    case ServerPoll(allocs) => DoServerPoll(j, allocs)
    case ServerArm => DoServerArm(j)
    case ServerCompute => DoServerCompute(cfg, j)
    case ServerReply => DoServerReply(j)
    case ServerSend => DoServerSend(j)
    case ServerAck => DoServerAck(j)
  }

  // ---------------------------------------------------------------- where runs start

  predicate SameShape(a: Memory, b: Memory) {
    |a| == |b| && forall i :: 0 <= i < |a| ==> |a[i]| == |b[i]|
  }

  /** A kernel that stays inside the buffers it is given. */
  ghost predicate KernelFits(kernel: Kernel) {
    forall f: byte, imm: uint32, mem: Memory ::
      SameShape(mem, kernel(f, imm, mem).1)
  }

  /** At least one output, and at least one input that is sent on every call. */
  ghost predicate ConfigFits(cfg: Config) {
    && |cfg.inputs| == |cfg.outputs| == |cfg.singles| == |cfg.lengths|
    && |cfg.inputs| + |cfg.internals| <= MAX_RECORDS
    && (forall i :: 0 <= i < |cfg.lengths| ==> cfg.lengths[i] < 0x1_0000_0000)
    && (forall i :: 0 <= i < |cfg.internals| ==> cfg.internals[i] < 0x1_0000_0000)
    && (exists i :: 0 <= i < |cfg.inputs| && cfg.inputs[i] && !cfg.singles[i])
    && (exists i :: 0 <= i < |cfg.outputs| && cfg.outputs[i])
    && KernelFits(cfg.kernel)
  }

  predicate DistinctAddresses(local: seq<LocalRegion>) {
    forall i, k :: 0 <= i < k < |local| ==> local[i].addr != local[k].addr
  }

  /** Whether region `i` is marked for writing once `calls` calls have been started. */
  predicate Marks(cfg: Config, i: nat, calls: nat)
    requires i < |cfg.inputs| == |cfg.singles|
  {
    cfg.inputs[i] && !(cfg.singles[i] && calls >= 2)
  }

  /** One host region as the configuration wants it. */
  predicate HostRegionFits(cfg: Config, l: LocalRegion, p: PeerRegion, i: nat, calls: nat)
    requires i < |cfg.inputs| == |cfg.outputs| == |cfg.singles| == |cfg.lengths|
  {
    && l.registered && l.length == cfg.lengths[i] && l.size <= l.length
    && l.singleSend == cfg.singles[i] && p.toWrite == cfg.outputs[i]
    && l.toWrite == Marks(cfg, i, calls)
  }

  /** The host's tables, its call counter and the shape of its memory. */
  ghost predicate HostShape(cfg: Config, h: Node, calls: nat) {
    && ConfigFits(cfg)
    && |h.ctx.local| == |h.ctx.peer| == |h.mem| == |cfg.inputs|
    && |h.ctx.internals| == |cfg.internals|
    && |h.ctx.message| == MESSAGE_CAPACITY
    && (forall i :: 0 <= i < |cfg.inputs| ==>
          HostRegionFits(cfg, h.ctx.local[i], h.ctx.peer[i], i, calls))
    && (forall i :: 0 <= i < |cfg.internals| ==> h.ctx.internals[i].size == cfg.internals[i])
    && (forall i :: 0 <= i < |h.mem| ==> |h.mem[i]| == cfg.lengths[i])
    && DistinctAddresses(h.ctx.local)
    && Host.Counted(h.ctx)
    && h.ctx.fncode != 0 && h.ctx.immediate % 0x100 == h.ctx.fncode
    && h.ctx.noRpcCalls == calls % 0x1_0000_0000
  }

  /** Connection established: the host is ready to start the setup, one receive is posted. */
  ghost predicate Initial(cfg: Config, j: Joint) {
    && HostShape(cfg, j.host, 0)
    && j.host.ctx.state == Connected && j.host.ctx.writesDone == 0 && !j.host.ctx.responseReceived
    && j.host.sq == [] && j.host.unacked == [] && j.host.cq == [] && j.host.recvs == []
    && Server.Blank(j.server.ctx) && j.server.ctx.state == Connected
    && j.server.ctx.writesDone == 0 && j.server.ctx.noRpcCalls == 0
    && j.server.mem == [] && j.server.sq == [] && j.server.unacked == [] && j.server.cq == []
    && j.server.recvs == [MESSAGE_CAPACITY]
    && j.pc == Boot && j.tally == Tally(0, 0, 0, 0, 0) && !j.ended
  }

  /** A sequence of steps each enabled where it is taken. */
  predicate Legal(cfg: Config, j: Joint, steps: seq<Step>)
    decreases |steps|
  {
    steps == [] || (Enabled(j, steps[0]) && Legal(cfg, Do(cfg, j, steps[0]), steps[1..]))
  }

  function Run(cfg: Config, j: Joint, steps: seq<Step>): Joint
    requires Legal(cfg, j, steps)
    decreases |steps|
  {
    if steps == [] then j else Run(cfg, Do(cfg, j, steps[0]), steps[1..])
  }
}
