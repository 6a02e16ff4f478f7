/** Every run of the joint machine refines the plain remote call on two memories. */
module Refinement {
  import opened Bytes
  import opened Context
  import opened Chain
  import opened Messages
  import opened Machine
  import opened Invariant
  import opened Shadow
  import NetSteps
  import PollSteps
  import ServerSteps
  import Runs
  import Host
  import Server

  // ---------------------------------------------------------------- what a run shows

  /** The visible part of one step: application calls, and the poll that finishes a call. */
  function Visible(cfg: Config, j: Joint, step: Step): seq<Event>
    requires Enabled(j, step)
  {
    match step
    case AppWrite(i, data) => [Wrote(i, data)]
    case AppLimit(i, count) => [Limited(i, count)]
    case AppImmediate(user) => [Immediate(user)]
    case HostPoll => if DoHostPoll(j).tally.finished > j.tally.finished then [Called] else []
    case _ => []
  }

  function Trace(cfg: Config, j: Joint, steps: seq<Step>): seq<Event>
    requires Legal(cfg, j, steps)
    decreases |steps|
  {
    if steps == [] then []
    else Visible(cfg, j, steps[0]) + Trace(cfg, Do(cfg, j, steps[0]), steps[1..])
  }

  // ---------------------------------------------------------------- the relation

  /** The first regions of a chain, those whose write has left the queue. */
  function Gone(chain: seq<nat>, queued: nat): seq<nat> {
    if queued <= |chain| then chain[..|chain| - queued] else []
  }

  /** The output regions of the current call that have reached the host. */
  function OutputsDone(t: Tally, pc: Pc, s: Node): seq<nat> {
    if t.replied > t.finished then Marked(s.ctx.local)
    else if pc == Sending then Gone(Marked(s.ctx.local), |s.sq|)
    else []
  }

  function ServerImage(cfg: Config, t: Tally, h: Node, sp: Spec): Memory {
    if t.kernels > t.finished then Computed(cfg, sp)
    else if t.started > t.finished then
      Landed(sp.host, sp.server, sp.limits, Gone(Marked(h.ctx.local), |h.sq|))
    else sp.server
  }

  function HostImage(cfg: Config, t: Tally, done: seq<nat>, sp: Spec): Memory {
    if t.kernels > t.finished then Landed(Computed(cfg, sp), sp.host, cfg.lengths, done) else sp.host
  }

  predicate Parameters(h: Comm, sp: Spec) {
    && sp.fncode == h.fncode && sp.user == h.immediate / 0x100
    && |sp.limits| == |h.local| && forall i :: 0 <= i < |h.local| ==> sp.limits[i] == h.local[i].size
  }

  /** The joint machine in the middle of whatever it does, against the state between calls. */
  ghost predicate Refines(cfg: Config, j: Joint, sp: Spec) {
    && Shadow.Fits(cfg, sp)
    && sp.calls == j.tally.finished
    && Parameters(j.host.ctx, sp)
    && j.host.mem == HostImage(cfg, j.tally, OutputsDone(j.tally, j.pc, j.server), sp)
    && (if Answering(j.pc, j.server.ctx) then j.server.mem == ServerImage(cfg, j.tally, j.host, sp)
        else sp.server == Zeros(cfg.lengths + cfg.internals))
  }

  /** The specification's start: the host's memory, cleared buffers on the accelerator. */
  function Start(cfg: Config, j: Joint): Spec {
    Spec(j.host.mem, Zeros(cfg.lengths + cfg.internals),
         seq(|j.host.ctx.local|, i requires 0 <= i < |j.host.ctx.local| => j.host.ctx.local[i].size),
         j.host.ctx.fncode, j.host.ctx.immediate / 0x100, 0)
  }

  lemma StartRefines(cfg: Config, j: Joint)
    requires Initial(cfg, j)
    ensures Refines(cfg, j, Start(cfg, j))
  {
    hide Marked, Host.OutputCount, DistinctAddresses, KernelFits;
    forall i | 0 <= i < |cfg.inputs|
      ensures j.host.ctx.local[i].size <= cfg.lengths[i]
    {
      assert HostRegionFits(cfg, j.host.ctx.local[i], j.host.ctx.peer[i], i, 0);
    }
    ServerSteps.SameAsItself(Zeros(cfg.lengths + cfg.internals));
  }

  // ---------------------------------------------------------------- steps without effect

  /** A step that moves no byte and no counter. */
  lemma Quiet(cfg: Config, j: Joint, j': Joint, sp: Spec)
    requires Refines(cfg, j, sp)
    requires j'.tally == j.tally && j'.host.mem == j.host.mem && j'.server.mem == j.server.mem
    requires j'.host.ctx.local == j.host.ctx.local && j'.host.ctx.fncode == j.host.ctx.fncode
    requires j'.host.ctx.immediate == j.host.ctx.immediate
    requires j.tally.started > j.tally.finished ==> j'.host.sq == j.host.sq
    requires j.tally.kernels > j.tally.finished ==>
      OutputsDone(j'.tally, j'.pc, j'.server) == OutputsDone(j.tally, j.pc, j.server)
    requires Answering(j'.pc, j'.server.ctx) <==> Answering(j.pc, j.server.ctx)
    ensures Refines(cfg, j', sp)
  {
    hide Shadow.Fits, OutputsDone, Gone, Landed, Computed;
  }

  /** No call is under way before the setup is complete, and none between calls. */
  lemma NoCallUnderWay(cfg: Config, j: Joint)
    requires Inv(cfg, j) && !InTransfer(j.host.ctx)
    ensures var t := j.tally; t.started == t.requested == t.kernels == t.replied == t.finished
  {
    hide HostShape, ServerShape, ServerInv, Link, Host.RequestWord, HostTransferInv, HostSetupInv;
  }

  lemma SetupRefines(cfg: Config, j: Joint, sp: Spec)
    requires Inv(cfg, j) && Refines(cfg, j, sp) && j.host.ctx.state == Connected
    ensures Refines(cfg, DoHostSetup(j), sp)
  {
    hide Inv, Refines, OutputsDone, MessageBytes, Over;
    NoCallUnderWay(cfg, j);
    Quiet(cfg, j, DoHostSetup(j), sp);
  }

  lemma AckRefines(cfg: Config, j: Joint, sp: Spec)
    requires Refines(cfg, j, sp) && j.host.unacked != []
    ensures Refines(cfg, DoHostAck(j), sp)
  {
    hide Refines, OutputsDone;
    Quiet(cfg, j, DoHostAck(j), sp);
  }

  lemma ServerAckRefines(cfg: Config, j: Joint, sp: Spec)
    requires Refines(cfg, j, sp) && j.server.unacked != []
    ensures Refines(cfg, DoServerAck(j), sp)
  {
    hide Refines;
    Quiet(cfg, j, DoServerAck(j), sp);
  }

  lemma EndedRefines(cfg: Config, j: Joint, sp: Spec)
    requires Refines(cfg, j, sp)
    ensures Refines(cfg, Ended(j), sp)
  {
    hide Refines, OutputsDone;
    Quiet(cfg, j, Ended(j), sp);
  }

  lemma BootRefines(cfg: Config, j: Joint, sp: Spec)
    requires Inv(cfg, j) && Refines(cfg, j, sp) && j.pc == Boot
    ensures Refines(cfg, DoServerBoot(j), sp)
  {
    assert j.tally == NO_CALLS by { BootNoCalls(cfg, j); }
    hide Inv, Refines, OutputsDone;
    Quiet(cfg, j, DoServerBoot(j), sp);
  }

  lemma BootNoCalls(cfg: Config, j: Joint)
    requires Inv(cfg, j) && j.pc == Boot
    ensures j.tally == NO_CALLS
  {
    hide HostShape, HostInv, ServerShape, Link, Host.RequestWord, ServerCounts, ServerBlankInv;
  }

  lemma ArmRefines(cfg: Config, j: Joint, sp: Spec)
    requires Inv(cfg, j) && Refines(cfg, j, sp) && j.pc == Arming
    ensures Refines(cfg, DoServerArm(j), sp)
  {
    hide Inv, Refines, Gone, Marked;
    ArmingAnswers(cfg, j);
    Quiet(cfg, j, DoServerArm(j), sp);
  }

  lemma ArmingAnswers(cfg: Config, j: Joint)
    requires Inv(cfg, j) && j.pc == Arming
    ensures Answering(j.pc, j.server.ctx)
  {
    hide HostShape, HostInv, ServerShape, Link, Host.RequestWord;
    ServerSteps.ArmingAnswers(j.server, j.tally, Host.RequestWord(j.host.ctx.immediate));
  }

  // ---------------------------------------------------------------- the application

  lemma WriteRefines(cfg: Config, j: Joint, sp: Spec, i: nat, data: seq<byte>)
    requires Inv(cfg, j) && Refines(cfg, j, sp) && !InTransfer(j.host.ctx)
    requires i < |j.host.mem| && |data| == |j.host.mem[i]|
    ensures Refines(cfg, j.(host := j.host.(mem := j.host.mem[i := data])), Happens(cfg, sp, Wrote(i, data)))
  {
    hide Inv, ConfigFits, SameShape, OutputsDone, Gone, Landed, Computed;
    NoCallUnderWay(cfg, j);
  }

  lemma LimitParameters(cfg: Config, h: Node, calls: nat, sp: Spec, i: nat, count: int)
    requires HostShape(cfg, h, calls) && Parameters(h.ctx, sp) && |sp.limits| == |cfg.lengths|
    ensures var c := Host.SetBytes(h.ctx, i, count).ctx;
      Parameters(c, sp.(limits := Limit(sp.limits, cfg.lengths, i, count)))
  {
    hide Marked, DistinctAddresses, Host.OutputCount, KernelFits;
    if i < |cfg.inputs| {
      assert HostRegionFits(cfg, h.ctx.local[i], h.ctx.peer[i], i, calls);
    }
    hide HostShape;
  }

  lemma LimitRefines(cfg: Config, j: Joint, sp: Spec, i: nat, count: int)
    requires Inv(cfg, j) && Refines(cfg, j, sp) && !InTransfer(j.host.ctx)
    ensures Refines(cfg, DoAppLimit(j, i, count), Happens(cfg, sp, Limited(i, count)))
  {
    NoCallUnderWay(cfg, j);
    LimitParameters(cfg, j.host, j.tally.started, sp, i, count);
    hide Inv, ConfigFits, SameShape, OutputsDone, Gone, Landed, Computed, Host.SetBytes, Parameters;
  }

  lemma UserPart(c: Comm, user: seq<byte>)
    requires |user| == 3
    ensures Host.SetImmediate(c, user).immediate / 0x100 == UserValue(user)
  {
  }

  lemma ImmediateRefines(cfg: Config, j: Joint, sp: Spec, user: seq<byte>)
    requires Inv(cfg, j) && Refines(cfg, j, sp) && !InTransfer(j.host.ctx) && |user| == 3
    ensures Refines(cfg, DoAppImmediate(j, user), Happens(cfg, sp, Immediate(user)))
  {
    NoCallUnderWay(cfg, j);
    UserPart(j.host.ctx, user);
    hide Inv, ConfigFits, SameShape, OutputsDone, Gone, Landed, Computed, Host.Word;
  }

  // ---------------------------------------------------------------- the host's part of a call

  lemma MarkedIncreasing(local: seq<LocalRegion>)
    ensures var m := Marked(local); forall a, b :: 0 <= a < b < |m| ==> m[a] < m[b]
  {
  }

  lemma CalledParameters(h: Comm, sp: Spec)
    requires Parameters(h, sp)
    ensures Parameters(Host.Started(h), sp)
  {
    hide Host.DropCount;
  }

  /** A new call has its whole chain queued, so nothing has landed yet. */
  lemma CallRefines(cfg: Config, j: Joint, sp: Spec)
    requires Inv(cfg, j) && Refines(cfg, j, sp) && Idle(j.host.ctx)
    ensures Refines(cfg, DoHostCall(j), sp)
  {
    hide Inv, Host.Started, Parameters, Shadow.Fits, OutputsDone, Landed, Computed;
    CallQueued(cfg, j);
    NoCallUnderWay(cfg, j);
    CalledParameters(j.host.ctx, sp);
    var j' := DoHostCall(j);
    LandedNone(sp.host, sp.server, sp.limits);
  }

  lemma CallQueued(cfg: Config, j: Joint)
    requires Inv(cfg, j) && Idle(j.host.ctx)
    ensures var c := Host.Started(j.host.ctx);
      && DoHostCall(j).host.ctx == c && |DoHostCall(j).host.sq| == |Marked(c.local)|
      && DoHostCall(j).host.mem == j.host.mem && DoHostCall(j).server == j.server && DoHostCall(j).pc == j.pc
      && DoHostCall(j).tally == j.tally.(started := j.tally.started + 1)
      && Answering(j.pc, j.server.ctx)
  {
    assert |j.host.ctx.local| == |j.host.ctx.peer| && j.host.ctx.fncode != 0;
    hide HostShape, ServerShape, ServerInv, HostTransferInv, PeersLinked, SetupLink, Host.RequestWord, Ordered,
      Host.DropCount, Host.DropSingles, Slot, Marked;
  }

  /** Everything the host's writes rely on, as separate facts. */
  lemma Transferring(cfg: Config, j: Joint)
    requires Inv(cfg, j) && j.host.sq != [] && Settled(j.host.ctx)
    ensures HostTransferInv(j.host, j.tally) && Answering(j.pc, j.server.ctx) && Ordered(j.tally)
    ensures HostShape(cfg, j.host, j.tally.started) && ServerShape(cfg, j.host.ctx, j.server)
    ensures PeersLinked(j.host.ctx, j.server.ctx)
    ensures ServerInv(j.server, j.pc, j.tally, Host.RequestWord(j.host.ctx.immediate))
  {
    hide HostShape, ServerShape, ServerInv, HostTransferInv, PeersLinked, SetupLink, Host.RequestWord, Ordered;
  }

  lemma ChainLength(h: Node, t: Tally)
    requires HostTransferInv(h, t)
    ensures |h.sq| <= |Marked(h.ctx.local)|
  {
    hide Only, Every, Immediates, Count, Slot, Marked;
  }

  lemma OverIsCopied(src: seq<byte>, dst: seq<byte>, n: nat)
    requires n <= |src| == |dst|
    ensures Over(src[..n], dst) == Copied(src, dst, n)
  {
  }

  /** The accelerator's image while the inputs of a call arrive. */
  lemma RequestLands(cfg: Config, j: Joint, sp: Spec, i: nat, mem: Memory)
    requires Refines(cfg, j, sp) && j.host.sq != [] && |j.host.sq| <= |Marked(j.host.ctx.local)|
    requires Answering(j.pc, j.server.ctx)
    requires var t := j.tally; t.started > t.finished == t.kernels
    requires i == Marked(j.host.ctx.local)[|Marked(j.host.ctx.local)| - |j.host.sq|]
    requires i < |j.host.mem| && i < |j.server.mem| && i < |j.host.ctx.local|
    requires j.host.ctx.local[i].size <= |j.host.mem[i]| == |j.server.mem[i]|
    requires mem == j.server.mem[i := Over(j.host.mem[i][..j.host.ctx.local[i].size], j.server.mem[i])]
    ensures mem == Landed(sp.host, sp.server, sp.limits, Gone(Marked(j.host.ctx.local), |j.host.sq| - 1))
  {
    hide Shadow.Fits, OutputsDone, Landed, Over, Copied, Computed, Marked;
    var m := Marked(j.host.ctx.local);
    MarkedIncreasing(j.host.ctx.local);
    assert |sp.server| == |j.server.mem|;
    OverIsCopied(j.host.mem[i], j.server.mem[i], j.host.ctx.local[i].size);
    LandedNext(sp.host, sp.server, sp.limits, m, |m| - |j.host.sq|);
  }

  lemma SendWriteRefines(cfg: Config, j: Joint, sp: Spec)
    requires Inv(cfg, j) && Refines(cfg, j, sp) && j.host.sq != [] && Settled(j.host.ctx)
    ensures Refines(cfg, DoHostSend(j), sp)
  {
    hide HostShape, ServerShape, ServerInv, HostTransferInv, PeersLinked, Host.RequestWord, Deliver, Over, Inv,
      Shadow.Fits, Landed, Computed, Parameters, OutputsDone, Ordered, Marked;
    Transferring(cfg, j);
    ChainLength(j.host, j.tally);
    NetSteps.RequestOutstanding(j.host, j.tally);
    var i := NetSteps.RequestWriteDelivered(cfg, j);
    var (h', s') := Deliver(j.host, j.server).value;
    NetSteps.MemoryLengths(cfg, j, i);
    RequestLands(cfg, j, sp, i, s'.mem);
  }

  lemma SendMessageRefines(cfg: Config, j: Joint, sp: Spec)
    requires Inv(cfg, j) && Refines(cfg, j, sp) && j.host.sq != [] && !Settled(j.host.ctx)
    ensures Refines(cfg, DoHostSend(j), sp)
  {
    hide HostShape, ServerShape, HostInv, ServerInv, Link, Host.RequestWord, Refines, OutputsDone, Over;
    NoCallUnderWay(cfg, j);
    Runs.InSetup(cfg, j);
    Quiet(cfg, j, DoHostSend(j), sp);
  }

  // ---------------------------------------------------------------- the worker's part of a call

  /** What the kernel is given is what the specification has received. */
  lemma KernelInput(cfg: Config, j: Joint, sp: Spec)
    requires Inv(cfg, j) && Refines(cfg, j, sp) && j.pc == Computing
    ensures cfg.kernel(j.server.ctx.fncode, j.server.ctx.immediate, j.server.mem).1 == Computed(cfg, sp)
    ensures j.tally.kernels == j.tally.finished == j.tally.replied
  {
    hide HostShape, ServerShape, ServerInv, HostInv, Link, Host.RequestWord, Shadow.Fits, Landed, Received;
    ServerSteps.ComputingAnswers(j.server, j.tally, Host.RequestWord(j.host.ctx.immediate));
    Runs.ComputingCounts(j.server, j.tally, Host.RequestWord(j.host.ctx.immediate));
    Runs.PendingCounts(j.host, j.tally);
    AllSent(j.host, j.tally);
    InputsAreSent(cfg, j.host, j.tally, sp);
  }

  lemma AllSent(h: Node, t: Tally)
    requires HostInv(h, t) && Ordered(t) && InTransfer(h.ctx) && t.requested > t.replied
    ensures h.sq == [] && t.started == t.finished + 1
  {
    hide Remaining, Host.Posted, Only, Every, Immediates, Count;
  }

  lemma InputsAreSent(cfg: Config, h: Node, t: Tally, sp: Spec)
    requires HostShape(cfg, h, t.started) && Shadow.Fits(cfg, sp) && |h.ctx.local| == |sp.limits|
    requires sp.calls == t.finished && t.started == t.finished + 1
    ensures var m := Marked(h.ctx.local);
      Landed(sp.host, sp.server, sp.limits, m[..|m|]) == Received(cfg, sp)
  {
    hide Landed, Received, DistinctAddresses, Host.OutputCount, KernelFits;
    var m := Marked(h.ctx.local);
    assert m[..|m|] == m;
    forall i | 0 <= i < |cfg.inputs|
      ensures i in m <==> Sent(cfg, i, sp.calls)
    {
      assert HostRegionFits(cfg, h.ctx.local[i], h.ctx.peer[i], i, t.started);
      if h.ctx.local[i].toWrite {
        MarkedComplete(h.ctx.local, i);
      }
    }
    LandedAll(cfg, sp, m);
  }

  lemma ComputeRefines(cfg: Config, j: Joint, sp: Spec)
    requires Inv(cfg, j) && Refines(cfg, j, sp) && j.pc == Computing
    ensures Refines(cfg, DoServerCompute(cfg, j), sp)
  {
    hide Inv, Shadow.Fits, Computed, Received, Landed, Parameters, Marked;
    KernelInput(cfg, j, sp);
    LandedNone(Computed(cfg, sp), sp.host, cfg.lengths);
    if cfg.kernel(j.server.ctx.fncode, j.server.ctx.immediate, j.server.mem).0 != 0 {
      EndedRefines(cfg, j, sp);
    }
  }

  /** A reply that has just been posted has brought nothing back yet. */
  lemma ReplyRefines(cfg: Config, j: Joint, sp: Spec)
    requires Inv(cfg, j) && Refines(cfg, j, sp) && j.pc == Replying
    ensures Refines(cfg, DoServerReply(j), sp)
  {
    hide Inv, Refines, Gone, Slot, Marked;
    ReplyingCounts(cfg, j);
    if |j.server.ctx.local| != |j.server.ctx.peer| || j.server.ctx.local == [] {
      EndedRefines(cfg, j, sp);
    } else {
      var s' := DoServerReply(j).server;
      assert |s'.sq| == |Marked(s'.ctx.local)|;
      GoneNone(Marked(s'.ctx.local));
      Quiet(cfg, j, DoServerReply(j), sp);
    }
  }

  lemma GoneNone(chain: seq<nat>)
    ensures Gone(chain, |chain|) == []
  {
  }

  lemma ReplyingCounts(cfg: Config, j: Joint)
    requires Inv(cfg, j) && j.pc == Replying
    ensures Answering(j.pc, j.server.ctx) && j.server.sq == []
    ensures j.tally.replied == j.tally.finished
  {
    hide HostShape, ServerShape, HostInv, Link, Host.RequestWord, Count;
    ServerSteps.ReplyingAnswers(j.server, j.tally, Host.RequestWord(j.host.ctx.immediate));
  }

  /** One more output has reached the host. */
  lemma OutputLands(cfg: Config, s: Node, done: seq<nat>, i: nat, sp: Spec, host: Memory, host': Memory)
    requires Shadow.Fits(cfg, sp) && 0 < |s.sq| <= |Marked(s.ctx.local)|
    requires i == Marked(s.ctx.local)[|Marked(s.ctx.local)| - |s.sq|] && i < |cfg.lengths|
    requires s.mem == Computed(cfg, sp) && done == Gone(Marked(s.ctx.local), |s.sq|)
    requires host == Landed(Computed(cfg, sp), sp.host, cfg.lengths, done)
    requires host' == host[i := s.mem[i]]
    ensures host' == Landed(Computed(cfg, sp), sp.host, cfg.lengths, Gone(Marked(s.ctx.local), |s.sq| - 1))
  {
    ComputedShape(cfg, sp);
    hide ConfigFits, SameShape, Landed, Copied, Computed, Marked;
    var m := Marked(s.ctx.local);
    MarkedIncreasing(s.ctx.local);
    LandedNext(Computed(cfg, sp), sp.host, cfg.lengths, m, |m| - |s.sq|);
    CopiedWhole(s.mem[i], sp.host[i]);
  }

  /** What a reply that is being sent relies on. */
  lemma ReplyUnderWay(cfg: Config, j: Joint)
    requires Inv(cfg, j) && j.server.sq != [] && Settled(j.host.ctx)
    ensures j.pc == Sending && Answering(j.pc, j.server.ctx)
    ensures HostShape(cfg, j.host, j.tally.started) && ServerShape(cfg, j.host.ctx, j.server)
    ensures HostInv(j.host, j.tally) && Ordered(j.tally)
    ensures ServerInv(j.server, j.pc, j.tally, Host.RequestWord(j.host.ctx.immediate))
    ensures j.tally.kernels == j.tally.replied + 1 && j.tally.replied == j.tally.finished
    ensures |j.server.sq| <= |Marked(j.server.ctx.local)|
  {
    hide HostShape, ServerShape, HostInv, ServerInv, SetupLink, PeersLinked, Host.RequestWord, ServerSettingInv,
      Marked;
    NetSteps.QueuedBy(j.server, j.pc, j.tally, Host.RequestWord(j.host.ctx.immediate));
    ReplyCounts(j.server, j.tally, Host.RequestWord(j.host.ctx.immediate));
    NetSteps.ReplyExpected(j.host, j.tally);
  }

  lemma ReplyCounts(s: Node, t: Tally, word: uint32)
    requires ServerInv(s, Sending, t, word) && s.sq != []
    ensures t.kernels == t.replied + 1 && |s.sq| <= |Marked(s.ctx.local)|
  {
    hide Only, Every, Immediates, Count, Slot, Marked, ServerBlankInv, ServerSettingInv, ServerQuietInv;
  }

  lemma SendReplyRefines(cfg: Config, j: Joint, sp: Spec)
    requires Inv(cfg, j) && Refines(cfg, j, sp) && j.server.sq != [] && Settled(j.host.ctx)
    ensures Refines(cfg, DoServerSend(j), sp)
  {
    hide HostShape, ServerShape, ServerInv, HostInv, Host.RequestWord, Deliver, Inv, Shadow.Fits, Landed, Computed,
      Parameters, Ordered, Marked, Gone;
    ReplyUnderWay(cfg, j);
    var i := NetSteps.ReplyDelivered(cfg, j);
    var (s', h') := Deliver(j.server, j.host).value;
    NetSteps.MemoryLengths(cfg, j, i);
    SpecLengths(cfg, sp);
    OutputLands(cfg, j.server, OutputsDone(j.tally, j.pc, j.server), i, sp, j.host.mem, h'.mem);
    GoneAll(Marked(j.server.ctx.local));
  }

  lemma SpecLengths(cfg: Config, sp: Spec)
    requires Shadow.Fits(cfg, sp)
    ensures |cfg.inputs| == |cfg.lengths|
  {
    hide SameShape, KernelFits;
  }

  lemma GoneAll(chain: seq<nat>)
    ensures Gone(chain, 0) == chain
  {
  }

  lemma SendAnswerRefines(cfg: Config, j: Joint, sp: Spec)
    requires Inv(cfg, j) && Refines(cfg, j, sp) && j.server.sq != [] && !Settled(j.host.ctx)
    ensures Refines(cfg, DoServerSend(j), sp)
  {
    hide HostShape, ServerShape, HostInv, ServerInv, Link, Host.RequestWord, Refines, OutputsDone, Over;
    NoCallUnderWay(cfg, j);
    Runs.InSetup(cfg, j);
    Quiet(cfg, j, DoServerSend(j), sp);
  }

  // ---------------------------------------------------------------- polling

  lemma PolledContext(c: Comm, wc: Completion)
    requires Host.Handleable(c, wc)
    ensures var c' := Host.Handle(c, wc).ctx;
      c'.local == c.local && c'.fncode == c.fncode && c'.immediate == c.immediate
  {
  }

  /** The poll that finishes a call finds all outputs in place: this is the call. */
  lemma FinishRefines(cfg: Config, j: Joint, j': Joint, sp: Spec)
    requires HostShape(cfg, j.host, j.tally.started) && ServerShape(cfg, j.host.ctx, j.server)
    requires Refines(cfg, j, sp) && Answering(j.pc, j.server.ctx)
    requires var t := j.tally; t.kernels == t.replied == t.started == t.finished + 1
    requires j'.tally == j.tally.(finished := j.tally.finished + 1) && j'.host.mem == j.host.mem
    requires j'.server == j.server && j'.pc == j.pc && j'.host.ctx.local == j.host.ctx.local
    requires j'.host.ctx.fncode == j.host.ctx.fncode && j'.host.ctx.immediate == j.host.ctx.immediate
    ensures Refines(cfg, j', Call(cfg, sp))
  {
    hide HostShape, ServerShape, Shadow.Fits, Landed, Computed, Returned, Marked, Parameters, Gone;
    CallFits(cfg, sp);
    OutputsMarked(cfg, j.host.ctx, j.server);
    SameParameters(j.host.ctx, j'.host.ctx, sp, Call(cfg, sp));
    ReturnedAll(cfg, sp, Marked(j.server.ctx.local));
  }

  lemma SameParameters(a: Comm, b: Comm, sp: Spec, sp': Spec)
    requires Parameters(a, sp) && b.local == a.local && b.fncode == a.fncode && b.immediate == a.immediate
    requires sp'.limits == sp.limits && sp'.fncode == sp.fncode && sp'.user == sp.user
    ensures Parameters(b, sp')
  {
  }

  lemma OutputsMarked(cfg: Config, h: Comm, s: Node)
    requires ServerShape(cfg, h, s)
    ensures forall i :: 0 <= i < |cfg.outputs| ==> (i in Marked(s.ctx.local) <==> cfg.outputs[i])
  {
    hide SameShape, DistinctAddresses;
    forall i | 0 <= i < |cfg.outputs|
      ensures i in Marked(s.ctx.local) <==> cfg.outputs[i]
    {
      assert ServerRegionFits(cfg, h.local[i], s.ctx.local[i], s.ctx.peer[i], i);
      if cfg.outputs[i] {
        MarkedComplete(s.ctx.local, i);
      }
    }
  }

  lemma TransferLink(cfg: Config, j: Joint)
    requires Inv(cfg, j) && InTransfer(j.host.ctx)
    ensures HostShape(cfg, j.host, j.tally.started) && ServerShape(cfg, j.host.ctx, j.server)
    ensures Answering(j.pc, j.server.ctx) && HostInv(j.host, j.tally) && Ordered(j.tally)
    ensures |j.host.ctx.message| == MESSAGE_CAPACITY
  {
    assert |j.host.ctx.message| == MESSAGE_CAPACITY;
    hide HostShape, ServerShape, HostInv, ServerInv, PeersLinked, SetupLink, Host.RequestWord;
  }

  lemma FinishedCounts(h: Node, t: Tally)
    requires HostInv(h, t) && InTransfer(h.ctx) && h.cq != [] && Ordered(t)
    requires Host.CountCompletion(h.ctx, h.cq[0]).state == Finished
    ensures t.kernels == t.replied == t.started == t.finished + 1
  {
    hide HostTransferInv, Host.CountCompletion;
    PollSteps.TransferEnds(h, t);
    NetSteps.TransferStarted(h, t);
  }

  lemma PollTransferRefines(cfg: Config, j: Joint, sp: Spec)
    requires Inv(cfg, j) && Refines(cfg, j, sp) && j.host.cq != [] && InTransfer(j.host.ctx)
    ensures Refines(cfg, DoHostPoll(j),
      if DoHostPoll(j).tally.finished > j.tally.finished then Call(cfg, sp) else sp)
  {
    hide HostShape, ServerShape, HostInv, Inv, Refines, Host.CountCompletion, Host.Handle, OutputsDone, Call;
    TransferLink(cfg, j);
    PollSteps.PollTransfer(j.host, j.tally);
    PolledContext(j.host.ctx, j.host.cq[0]);
    var j' := DoHostPoll(j);
    if j'.tally.finished > j.tally.finished {
      FinishedCounts(j.host, j.tally);
      FinishRefines(cfg, j, j', sp);
    } else {
      Quiet(cfg, j, j', sp);
    }
  }

  lemma PollSetupRefines(cfg: Config, j: Joint, sp: Spec)
    requires Inv(cfg, j) && Refines(cfg, j, sp) && j.host.cq != [] && !InTransfer(j.host.ctx)
    ensures Refines(cfg, DoHostPoll(j), sp) && DoHostPoll(j).tally.finished == j.tally.finished
  {
    hide Inv, Refines, OutputsDone, Host.Handle;
    NoCallUnderWay(cfg, j);
    HasNotFinished(cfg, j);
    if Host.Handleable(j.host.ctx, j.host.cq[0]) {
      PolledContext(j.host.ctx, j.host.cq[0]);
      NotFinishing(j.host.ctx, j.host.cq[0]);
    }
    Quiet(cfg, j, DoHostPoll(j), sp);
  }

  lemma NotFinishing(c: Comm, wc: Completion)
    requires Host.Handleable(c, wc) && !InTransfer(c) && c.state != Finished
    ensures Host.Handle(c, wc).ctx.state != Finished
  {
  }

  lemma HasNotFinished(cfg: Config, j: Joint)
    requires Inv(cfg, j) && j.host.cq != [] && !InTransfer(j.host.ctx)
    ensures j.host.ctx.state != Finished
  {
    hide Inv;
    PollSteps.HostStatesOf(cfg, j);
  }

  lemma PollRequestRefines(cfg: Config, j: Joint, sp: Spec, allocs: seq<Server.Alloc>)
    requires Inv(cfg, j) && !j.ended && Enabled(j, ServerPoll(allocs)) && Refines(cfg, j, sp)
    requires j.server.ctx.state == MrspReceiving
    ensures Refines(cfg, DoServerPoll(j, allocs), sp)
  {
    hide Inv, DoServerPoll, Shadow.Fits, Landed, Computed, OutputsDone, Gone, Parameters;
    ServerSteps.PollRequestKeeps(cfg, j, allocs);
    Unsettled(cfg, j);
    if DoServerPoll(j, allocs) == Ended(j) {
      EndedRefines(cfg, j, sp);
    }
  }

  lemma Unsettled(cfg: Config, j: Joint)
    requires Inv(cfg, j) && j.server.ctx.state == MrspReceiving
    ensures j.tally == NO_CALLS && !Answering(j.pc, j.server.ctx)
  {
    hide HostShape, ServerShape, HostInv, Link, Host.RequestWord, ServerBlankInv, ServerCounts;
  }

  /** Later polls of the worker move neither bytes nor packets. */
  lemma PollMovesNothing(j: Joint, allocs: seq<Server.Alloc>)
    requires j.server.cq != [] && j.server.ctx.state != MrspReceiving
    ensures var j' := DoServerPoll(j, allocs);
      && j'.host == j.host && j'.tally == j.tally
      && j'.server.mem == j.server.mem && j'.server.sq == j.server.sq
      && j'.server.ctx.local == j.server.ctx.local
      && (j'.pc == j.pc || (j.pc == Setting && j'.pc == Arming) || (j.pc == Receiving && j'.pc == Computing)
          || (j.pc == Sending && j'.pc == Arming && j'.server.ctx.state == DataReceiving))
      && (Answering(j'.pc, j'.server.ctx) <==> Answering(j.pc, j.server.ctx))
  {
  }

  /** A worker leaves its reply only when all of it has gone out. */
  lemma ReplyGone(cfg: Config, j: Joint, allocs: seq<Server.Alloc>)
    requires Inv(cfg, j) && j.server.cq != [] && Polling(j.pc) && j.server.ctx.state != MrspReceiving
    requires DoServerPoll(j, allocs).pc != j.pc
    ensures j.tally.kernels == j.tally.replied
  {
    hide HostShape, ServerShape, HostInv, Link, Host.RequestWord;
    ReplyCountsAll(j.server, j.pc, j.tally, Host.RequestWord(j.host.ctx.immediate));
  }

  lemma ReplyCountsAll(s: Node, pc: Pc, t: Tally, word: uint32)
    requires ServerInv(s, pc, t, word) && Polling(pc) && s.ctx.state != MrspReceiving
    ensures pc != Sending || s.sq == [] ==> t.kernels == t.replied
    ensures pc == Sending && s.sq != [] && s.cq != [] && s.cq[0].opcode == WcRdmaWrite ==>
      s.ctx.writesDone + 1 < s.ctx.noOutput
    ensures pc == Sending ==> s.ctx.state == DataSending
  {
    hide Remaining, Server.Reply, ServerBlankInv, ServerQuietInv, ServerSettingInv;
    if s.cq != [] {
      CountPop(s.cq, WcRdmaWrite);
    }
  }

  lemma PollLaterRefines(cfg: Config, j: Joint, sp: Spec, allocs: seq<Server.Alloc>)
    requires Inv(cfg, j) && Refines(cfg, j, sp) && j.server.cq != [] && Polling(j.pc)
    requires j.server.ctx.state != MrspReceiving
    ensures Refines(cfg, DoServerPoll(j, allocs), sp)
  {
    hide Inv, Refines, DoServerPoll, Gone, Marked;
    PollMovesNothing(j, allocs);
    if DoServerPoll(j, allocs).pc != j.pc {
      ReplyGone(cfg, j, allocs);
    }
    Quiet(cfg, j, DoServerPoll(j, allocs), sp);
  }

  // ---------------------------------------------------------------- all steps

  lemma HostSendRefines(cfg: Config, j: Joint, sp: Spec)
    requires Inv(cfg, j) && Refines(cfg, j, sp) && j.host.sq != []
    ensures Refines(cfg, DoHostSend(j), sp)
  {
    hide Inv, Refines, DoHostSend, Settled;
    if Settled(j.host.ctx) {
      SendWriteRefines(cfg, j, sp);
    } else {
      SendMessageRefines(cfg, j, sp);
    }
  }

  lemma ServerSendRefines(cfg: Config, j: Joint, sp: Spec)
    requires Inv(cfg, j) && Refines(cfg, j, sp) && j.server.sq != []
    ensures Refines(cfg, DoServerSend(j), sp)
  {
    hide Inv, Refines, DoServerSend, Settled;
    if Settled(j.host.ctx) {
      SendReplyRefines(cfg, j, sp);
    } else {
      SendAnswerRefines(cfg, j, sp);
    }
  }

  lemma HostPollRefines(cfg: Config, j: Joint, sp: Spec)
    requires Inv(cfg, j) && Refines(cfg, j, sp) && j.host.cq != []
    ensures Refines(cfg, DoHostPoll(j),
      if DoHostPoll(j).tally.finished > j.tally.finished then Call(cfg, sp) else sp)
  {
    hide Inv, Refines, DoHostPoll, InTransfer, Call;
    if InTransfer(j.host.ctx) {
      PollTransferRefines(cfg, j, sp);
    } else {
      PollSetupRefines(cfg, j, sp);
    }
  }

  lemma ServerPollRefines(cfg: Config, j: Joint, sp: Spec, allocs: seq<Server.Alloc>)
    requires Inv(cfg, j) && Refines(cfg, j, sp) && Enabled(j, ServerPoll(allocs))
    ensures Refines(cfg, DoServerPoll(j, allocs), sp)
  {
    hide Inv, Refines, DoServerPoll;
    if j.server.ctx.state == MrspReceiving {
      PollRequestRefines(cfg, j, sp, allocs);
    } else {
      PollLaterRefines(cfg, j, sp, allocs);
    }
  }

  lemma PlayNothing(cfg: Config, sp: Spec)
    ensures Play(cfg, sp, []) == sp
  {
  }

  lemma PlayOne(cfg: Config, sp: Spec, e: Event)
    ensures Play(cfg, sp, [e]) == Happens(cfg, sp, e)
  {
    hide Happens;
    assert [e][1..] == [];
    PlayNothing(cfg, Happens(cfg, sp, e));
  }

  /** Each step of the machine is the visible event it shows, or nothing, on the specification. */
  lemma StepRefines(cfg: Config, j: Joint, sp: Spec, step: Step)
    requires Inv(cfg, j) && Refines(cfg, j, sp) && Enabled(j, step)
    ensures Refines(cfg, Do(cfg, j, step), Play(cfg, sp, Visible(cfg, j, step)))
  {
    hide Inv, Refines, Play, Call, Limit, DoHostSetup, DoHostCall, DoHostSend, DoHostAck, DoHostPoll, DoServerBoot,
      DoServerPoll, DoServerArm, DoServerCompute, DoServerReply, DoServerSend, DoServerAck, DoAppLimit, DoAppImmediate;
    PlayNothing(cfg, sp);
    match step {
      case HostSetup => SetupRefines(cfg, j, sp);
      case HostCall => CallRefines(cfg, j, sp);
      case HostSend => HostSendRefines(cfg, j, sp);
      case HostAck => AckRefines(cfg, j, sp);
      case HostPoll => HostPollRefines(cfg, j, sp); PlayOne(cfg, sp, Called);
      case AppWrite(i, data) => WriteRefines(cfg, j, sp, i, data); PlayOne(cfg, sp, Wrote(i, data));
      case AppLimit(i, count) => LimitRefines(cfg, j, sp, i, count); PlayOne(cfg, sp, Limited(i, count));
      case AppImmediate(user) => ImmediateRefines(cfg, j, sp, user); PlayOne(cfg, sp, Immediate(user));
      case ServerBoot => BootRefines(cfg, j, sp);
      case ServerPoll(allocs) => ServerPollRefines(cfg, j, sp, allocs);
      case ServerArm => ArmRefines(cfg, j, sp);
      case ServerCompute => ComputeRefines(cfg, j, sp);
      case ServerReply => ReplyRefines(cfg, j, sp);
      case ServerSend => ServerSendRefines(cfg, j, sp);
      case ServerAck => ServerAckRefines(cfg, j, sp);
    }
  }

  lemma {:induction false} PlayAppend(cfg: Config, sp: Spec, a: seq<Event>, b: seq<Event>)
    ensures Play(cfg, sp, a + b) == Play(cfg, Play(cfg, sp, a), b)
    decreases |a|
  {
    hide Happens;
    if a == [] {
      assert a + b == b;
    } else {
      assert (a + b)[1..] == a[1..] + b;
      PlayAppend(cfg, Happens(cfg, sp, a[0]), a[1..], b);
    }
  }

  lemma {:induction false} RefinesAlong(cfg: Config, j: Joint, sp: Spec, steps: seq<Step>)
    requires Inv(cfg, j) && Refines(cfg, j, sp) && Legal(cfg, j, steps)
    ensures Refines(cfg, Run(cfg, j, steps), Play(cfg, sp, Trace(cfg, j, steps)))
    decreases |steps|
  {
    hide Inv, Refines, Enabled, Do, Visible;
    if steps == [] {
      PlayNothing(cfg, sp);
    } else {
      hide Play;
      var j', seen := Do(cfg, j, steps[0]), Visible(cfg, j, steps[0]);
      Runs.StepKeeps(cfg, j, steps[0]);
      StepRefines(cfg, j, sp, steps[0]);
      RefinesAlong(cfg, j', Play(cfg, sp, seen), steps[1..]);
      PlayAppend(cfg, sp, seen, Trace(cfg, j', steps[1..]));
    }
  }

  lemma FinishedImages(cfg: Config, j: Joint, sp: Spec)
    requires Inv(cfg, j) && Refines(cfg, j, sp) && j.host.ctx.state == Finished
    ensures j.host.mem == sp.host && j.server.mem == sp.server && sp.calls == j.tally.finished
  {
    hide Inv, Shadow.Fits, Landed, Computed, Gone, OutputsDone;
    NoCallUnderWay(cfg, j);
    SettledAnswers(cfg, j);
  }

  lemma SettledAnswers(cfg: Config, j: Joint)
    requires Inv(cfg, j) && Settled(j.host.ctx)
    ensures Answering(j.pc, j.server.ctx)
  {
    hide HostShape, ServerShape, HostInv, ServerInv, PeersLinked, SetupLink, Host.RequestWord;
  }

  /**
   * Remote-call refinement. Whatever the flags, limits, writes in between, number of calls and
   * interleaving: whenever the host reaches FINISHED, both memories are exactly those of the
   * specification after the run's visible events, and every finished call was one `Call` of it.
   */
  lemma RemoteCallRefinement(cfg: Config, j: Joint, steps: seq<Step>)
    requires Initial(cfg, j) && Legal(cfg, j, steps)
    requires Run(cfg, j, steps).host.ctx.state == Finished
    ensures var e, sp := Run(cfg, j, steps), Play(cfg, Start(cfg, j), Trace(cfg, j, steps));
      e.host.mem == sp.host && e.server.mem == sp.server && e.tally.finished == sp.calls
  {
    hide Inv, Refines, Initial, Enabled, Do, Visible, Start, Run, Legal, Trace, Play;
    InitialInv(cfg, j);
    StartRefines(cfg, j);
    Runs.RunKeeps(cfg, j, steps);
    RefinesAlong(cfg, j, Start(cfg, j), steps);
    FinishedImages(cfg, Run(cfg, j, steps), Play(cfg, Start(cfg, j), Trace(cfg, j, steps)));
  }

  /** The poll that finishes a call has the host's outputs equal the accelerator's, all else kept. */
  lemma FinishingIsCall(cfg: Config, j: Joint, sp: Spec, i: nat)
    requires Inv(cfg, j) && Refines(cfg, j, sp) && j.host.cq != [] && i < |cfg.outputs|
    requires DoHostPoll(j).tally.finished > j.tally.finished
    ensures var e := DoHostPoll(j);
      && i < |e.host.mem| && i < |e.server.mem| && i < |sp.host|
      && e.host.mem[i] == if cfg.outputs[i] then e.server.mem[i] else sp.host[i]
  {
    FinishingState(j);
    hide Inv, Refines, Call, DoHostPoll, InTransfer;
    if InTransfer(j.host.ctx) {
      PollSteps.PollTransferKeeps(cfg, j);
      PollTransferRefines(cfg, j, sp);
      FinishedImages(cfg, DoHostPoll(j), Call(cfg, sp));
      SpecFits(cfg, j, sp);
      CallMeaning(cfg, sp, i);
      assert |Call(cfg, sp).host| == |sp.host| by { CallLength(cfg, sp); }
    } else {
      PollSetupRefines(cfg, j, sp);
    }
  }

  lemma CallLength(cfg: Config, sp: Spec)
    ensures |Call(cfg, sp).host| == |sp.host|
  {
    hide Computed;
  }

  lemma SpecFits(cfg: Config, j: Joint, sp: Spec)
    requires Refines(cfg, j, sp)
    ensures Shadow.Fits(cfg, sp)
  {
    hide Shadow.Fits, Landed, Computed, Parameters, OutputsDone;
  }

  lemma FinishingState(j: Joint)
    requires j.host.cq != [] && DoHostPoll(j).tally.finished > j.tally.finished
    ensures DoHostPoll(j).host.ctx.state == Finished
  {
    hide Host.Handle;
  }

  /** The same for a run: what the last finishing poll of any run leaves in the two memories. */
  lemma FinishedOutputs(cfg: Config, j: Joint, steps: seq<Step>, i: nat)
    requires Initial(cfg, j) && Legal(cfg, j, steps) && i < |cfg.outputs|
    requires Run(cfg, j, steps).host.cq != []
    requires DoHostPoll(Run(cfg, j, steps)).tally.finished > Run(cfg, j, steps).tally.finished
    ensures var e, sp := DoHostPoll(Run(cfg, j, steps)), Play(cfg, Start(cfg, j), Trace(cfg, j, steps));
      && i < |e.host.mem| && i < |e.server.mem| && i < |sp.host|
      && e.host.mem[i] == if cfg.outputs[i] then e.server.mem[i] else sp.host[i]
  {
    hide Inv, Refines, Initial, Enabled, Do, Visible, Start, Run, Legal, Trace, Play, DoHostPoll;
    InitialInv(cfg, j);
    StartRefines(cfg, j);
    Runs.RunKeeps(cfg, j, steps);
    RefinesAlong(cfg, j, Start(cfg, j), steps);
    FinishingIsCall(cfg, Run(cfg, j, steps), Play(cfg, Start(cfg, j), Trace(cfg, j, steps)), i);
  }
}
