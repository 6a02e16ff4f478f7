/** From a new context to the start of a run: marking, registration, connection. */
module Creation {
  import opened Bytes
  import opened Context
  import opened Machine
  import Chain
  import Host
  import ParameterMerge
  import Settings

  // ---------------------------------------------------------------- registration

  /** A registered region has the size it was created with as its length, and the key it was given. */
  function RegisteredRegion(l: LocalRegion, key: uint32): LocalRegion {
    l.(registered := true, length := l.size, rkey := key)
  }

  function Registered(c: Comm, keys: seq<uint32>): Comm
    requires |keys| == |c.local|
  {
    c.(local := seq(|c.local|, i requires 0 <= i < |c.local| => RegisteredRegion(c.local[i], keys[i])))
  }

  /** Registers every region; `keys` are what the registrations hand out. */
  method RegisterMrs(c: CommContext, keys: array<uint32>)
    requires c.Valid() && keys.Length == c.mrLocal.Length
    modifies c.mrLocal
    ensures c.Valid() && c.View() == Registered(old(c.View()), keys[..])
  {
    ghost var was := c.View();
    for i := 0 to c.mrLocal.Length
      invariant forall k :: 0 <= k < i ==> c.mrLocal[k] == RegisteredRegion(was.local[k], keys[k])
      invariant forall k :: i <= k < c.mrLocal.Length ==> c.mrLocal[k] == was.local[k]
    {
      c.mrLocal[i] := RegisteredRegion(c.mrLocal[i], keys[i]);
    }
    assert c.mrLocal[..] == Registered(was, keys[..]).local;
  }

  // ---------------------------------------------------------------- setters before registration

  /** Fresh tables: nothing marked or registered. */
  predicate Fresh(local: seq<LocalRegion>, peer: seq<PeerRegion>) {
    && Unmarked(local, peer) && |local| == |peer| < 256
    && forall i :: 0 <= i < |local| ==> !local[i].registered && local[i].length == local[i].size
  }

  /** What setters leave of a new context while nothing is registered. */
  predicate Prepared(c: Comm, new': Comm) {
    && Settings.Consistent(c)
    && c == new'.(local := c.local, peer := c.peer, noInput := c.noInput, noOutput := c.noOutput,
                  immediate := c.immediate)
    && c.immediate % 0x100 == c.fncode && |c.local| == |new'.local|
    && (forall i :: 0 <= i < |c.local| ==>
          c.local[i] == new'.local[i].(toWrite := c.local[i].toWrite, singleSend := c.local[i].singleSend))
    && |c.peer| == |new'.peer|
    && forall i :: 0 <= i < |c.peer| ==> c.peer[i] == new'.peer[i].(toWrite := c.peer[i].toWrite)
  }

  lemma SetterKeeps(c: Comm, new': Comm, op: Settings.Op)
    requires Prepared(c, new') && !op.Transfer? && forall i :: 0 <= i < |new'.local| ==> !new'.local[i].registered
    ensures Prepared(Settings.Apply(c, op), new')
  {
    match op {
      case SetInput(i) => Settings.InputKeeps(c, i);
      case SetOutput(i) => Settings.OutputKeeps(c, i);
      case SetSingleSend(i) => Settings.SingleSendKeeps(c, i);
      case SetBytes(i, count) =>
      case SetImmediate(user) => Settings.ImmediateKeeps(c, user);
    }
    hide Settings.Consistent;
  }

  lemma {:induction false} SettersKeep(c: Comm, new': Comm, ops: seq<Settings.Op>)
    requires Prepared(c, new') && forall i :: 0 <= i < |new'.local| ==> !new'.local[i].registered
    requires forall i :: 0 <= i < |ops| ==> !ops[i].Transfer?
    ensures |c.local| == |c.peer| && Prepared(Settings.ApplyAll(c, ops), new')
  {
    assert |c.local| == |c.peer|;
    hide Prepared, Settings.Apply;
    if ops != [] {
      SettersKeep(c, new', ops[..|ops| - 1]);
      SetterKeeps(Settings.ApplyAll(c, ops[..|ops| - 1]), new', ops[|ops| - 1]);
    }
  }

  // ---------------------------------------------------------------- the middleware's marking

  /** Marking for one parameter is none, one or two setters. */
  lemma {:induction false} InputStep(c: Comm, d: Comm, ops: seq<Settings.Op>, p: ParameterMerge.Param)
    returns (more: seq<Settings.Op>)
    requires |c.local| == |c.peer| && d == Settings.ApplyAll(c, ops)
    requires forall i :: 0 <= i < |ops| ==> !ops[i].Transfer?
    ensures ParameterMerge.MarkInput(d, p).ctx == Settings.ApplyAll(c, more)
    ensures forall i :: 0 <= i < |more| ==> !more[i].Transfer?
  {
    hide FindRegion, Host.SetInput, Host.SetOutput, Host.SetSingleSend, Host.SetImmediate, Host.SetBytes, Host.Started,
      Settings.ApplyAll;
    var found := FindRegion(d.local, p.addr);
    more := ops;
    if found.Some? {
      if p.singleSend {
        ApplyNext(c, more, Settings.SetSingleSend(found.value));
        more := more + [Settings.SetSingleSend(found.value)];
      }
      ApplyNext(c, more, Settings.SetInput(found.value));
      more := more + [Settings.SetInput(found.value)];
    }
  }

  /** Marking for parameters is a sequence of setters. */
  lemma {:induction false} InputMarking(c: Comm, ps: seq<ParameterMerge.Param>) returns (ops: seq<Settings.Op>)
    requires |c.local| == |c.peer|
    ensures ParameterMerge.MarkInputs(c, ps).ctx == Settings.ApplyAll(c, ops)
    ensures forall i :: 0 <= i < |ops| ==> !ops[i].Transfer?
  {
    if ps == [] {
      ops := [];
    } else {
      var n := |ps| - 1;
      ops := InputMarking(c, ps[..n]);
      var d := ParameterMerge.MarkInputs(c, ps[..n]);
      hide ParameterMerge.MarkInputs, ParameterMerge.MarkInput, Settings.ApplyAll;
      InputsNext(c, ps);
      if d.ok {
        ops := InputStep(c, d.ctx, ops, ps[n]);
      }
    }
  }

  /** Marking for one parameter is none, one or two setters. */
  lemma {:induction false} OutputStep(c: Comm, d: Comm, ops: seq<Settings.Op>, p: ParameterMerge.Param)
    returns (more: seq<Settings.Op>)
    requires |c.local| == |c.peer| && d == Settings.ApplyAll(c, ops)
    requires forall i :: 0 <= i < |ops| ==> !ops[i].Transfer?
    ensures ParameterMerge.MarkOutput(d, p).ctx == Settings.ApplyAll(c, more)
    ensures forall i :: 0 <= i < |more| ==> !more[i].Transfer?
  {
    hide FindRegion, Host.SetInput, Host.SetOutput, Host.SetSingleSend, Host.SetImmediate, Host.SetBytes, Host.Started,
      Settings.ApplyAll;
    var found := FindRegion(d.local, p.addr);
    more := ops;
    if found.Some? {
      if p.singleSend {
        ApplyNext(c, more, Settings.SetSingleSend(found.value));
        more := more + [Settings.SetSingleSend(found.value)];
      }
      ApplyNext(c, more, Settings.SetOutput(found.value));
      more := more + [Settings.SetOutput(found.value)];
    }
  }

  lemma {:induction false} OutputMarking(c: Comm, ps: seq<ParameterMerge.Param>) returns (ops: seq<Settings.Op>)
    requires |c.local| == |c.peer|
    ensures ParameterMerge.MarkOutputs(c, ps).ctx == Settings.ApplyAll(c, ops)
    ensures forall i :: 0 <= i < |ops| ==> !ops[i].Transfer?
  {
    if ps == [] {
      ops := [];
    } else {
      var n := |ps| - 1;
      ops := OutputMarking(c, ps[..n]);
      var d := ParameterMerge.MarkOutputs(c, ps[..n]);
      hide ParameterMerge.MarkOutputs, ParameterMerge.MarkOutput, Settings.ApplyAll;
      OutputsNext(c, ps);
      if d.ok {
        ops := OutputStep(c, d.ctx, ops, ps[n]);
      }
    }
  }

  lemma InputsNext(c: Comm, ps: seq<ParameterMerge.Param>)
    requires |c.local| == |c.peer| && ps != []
    ensures var o := ParameterMerge.MarkInputs(c, ps[..|ps| - 1]);
      ParameterMerge.MarkInputs(c, ps) == if !o.ok then o else ParameterMerge.MarkInput(o.ctx, ps[|ps| - 1])
  {
    hide ParameterMerge.MarkInput;
  }

  lemma OutputsNext(c: Comm, ps: seq<ParameterMerge.Param>)
    requires |c.local| == |c.peer| && ps != []
    ensures var o := ParameterMerge.MarkOutputs(c, ps[..|ps| - 1]);
      ParameterMerge.MarkOutputs(c, ps) == if !o.ok then o else ParameterMerge.MarkOutput(o.ctx, ps[|ps| - 1])
  {
    hide ParameterMerge.MarkOutput;
  }

  lemma {:induction false} ApplyNext(c: Comm, ops: seq<Settings.Op>, op: Settings.Op)
    requires |c.local| == |c.peer|
    ensures Settings.ApplyAll(c, ops + [op]) == Settings.Apply(Settings.ApplyAll(c, ops), op)
  {
    hide Settings.Apply;
    assert (ops + [op])[..|ops|] == ops;
  }

  lemma {:induction false} MarkingKeeps(c: Comm, new': Comm, inputs: seq<ParameterMerge.Param>,
                                        outputs: seq<ParameterMerge.Param>)
    requires Prepared(c, new') && forall i :: 0 <= i < |new'.local| ==> !new'.local[i].registered
    ensures |c.local| == |c.peer| && Prepared(ParameterMerge.MarkAll(c, inputs, outputs).ctx, new')
  {
    assert |c.local| == |c.peer|;
    var ins := InputMarking(c, inputs);
    SettersKeep(c, new', ins);
    var d := ParameterMerge.MarkInputs(c, inputs);
    var outs := OutputMarking(d.ctx, outputs);
    hide Prepared;
    SettersKeep(d.ctx, new', outs);
  }

  // ---------------------------------------------------------------- the start of a run

  /** The configuration that the tables of a context amount to. */
  function ConfigOf(c: Comm, kernel: Kernel): Config {
    Config(
      seq(|c.local|, i requires 0 <= i < |c.local| => c.local[i].toWrite),
      seq(|c.peer|, i requires 0 <= i < |c.peer| => c.peer[i].toWrite),
      seq(|c.local|, i requires 0 <= i < |c.local| => c.local[i].singleSend),
      seq(|c.local|, i requires 0 <= i < |c.local| => c.local[i].length),
      seq(|c.internals|, i requires 0 <= i < |c.internals| => c.internals[i].size), kernel)
  }

  /** The host once it has registered its regions and is connected. */
  function Ready(c: Comm, keys: seq<uint32>, mem: Memory): Node
    requires |keys| == |c.local|
  {
    Node(Registered(c, keys).(state := Connected), mem, [], [], [], [])
  }

  lemma ReadyCounted(c: Comm, keys: seq<uint32>)
    requires Host.Counted(c) && |keys| == |c.local|
    ensures Host.Counted(Registered(c, keys).(state := Connected))
  {
    Chain.MarkedByFlags(c.local, Registered(c, keys).local);
    hide Host.OutputCount, Chain.Marked;
  }

  lemma ReadyAddresses(c: Comm, new': Comm, keys: seq<uint32>)
    requires Prepared(c, new') && |keys| == |c.local| && DistinctAddresses(new'.local)
    ensures DistinctAddresses(Registered(c, keys).local)
  {
    var local := Registered(c, keys).local;
    assert forall i :: 0 <= i < |local| ==> local[i].addr == new'.local[i].addr;
    hide Prepared, Registered;
  }

  /** Registration and connection leave addresses, sizes and requests, and give every region its key. */
  predicate KeepsRegions(c: Comm, new': Comm, keys: seq<uint32>) {
    && |c.local| == |new'.local| == |keys| && |c.peer| == |new'.peer| == |c.local| && c.internals == new'.internals
    && forall i :: 0 <= i < |c.local| ==>
         && c.local[i].registered && c.local[i].rkey == keys[i] && c.local[i].addr == new'.local[i].addr
         && c.local[i].length == c.local[i].size == new'.local[i].size
         && c.peer[i].addr == new'.peer[i].addr
  }

  lemma ReadyKeeps(c: Comm, new': Comm, keys: seq<uint32>, mem: Memory)
    requires Prepared(c, new') && |keys| == |c.local|
    ensures KeepsRegions(Ready(c, keys, mem).ctx, new', keys)
  {
    hide Settings.Consistent;
    assert |c.local| == |c.peer| by { SameLength(c); }
  }

  lemma SameLength(c: Comm)
    requires Settings.Consistent(c)
    ensures |c.local| == |c.peer|
  {
  }

  /** A prepared context meets the shape that its own tables ask for. */
  lemma ReadyShape(c: Comm, new': Comm, keys: seq<uint32>, kernel: Kernel, mem: Memory)
    requires Prepared(c, new') && |keys| == |c.local| && c.fncode != 0 && c.noRpcCalls == 0
    requires |c.message| == MESSAGE_CAPACITY && DistinctAddresses(new'.local)
    requires |mem| == |c.local| && forall i :: 0 <= i < |mem| ==> |mem[i]| == new'.local[i].size
    requires ConfigFits(ConfigOf(Ready(c, keys, mem).ctx, kernel))
    ensures HostShape(ConfigOf(Ready(c, keys, mem).ctx, kernel), Ready(c, keys, mem), 0)
  {
    ReadyCounted(c, keys);
    ReadyAddresses(c, new', keys);
    hide ConfigFits, DistinctAddresses, Host.Counted;
    var h := Ready(c, keys, mem);
    var cfg := ConfigOf(h.ctx, kernel);
    forall i | 0 <= i < |cfg.inputs|
      ensures HostRegionFits(cfg, h.ctx.local[i], h.ctx.peer[i], i, 0)
    {
    }
  }

  /** A worker that has accepted the connection. */
  function Accepted(maxInline: nat): Node {
    Node(Comm(Connected, 0, 0, [], [], [], 0, 0, 0, false, 0, 0, 0, maxInline, seq(MESSAGE_CAPACITY, i => 0)),
         [], [], [], [], [MESSAGE_CAPACITY])
  }

  /**
   * Creation leads to where runs start: a new context over any fresh tables with distinct
   * addresses, any setters or the middleware's marking (`c`), registration and connection, as long
   * as some output and some input of every call are marked and the records fit a message.
   */
  lemma {:induction false} CreatedIsInitial(
    fncode: byte, local: seq<LocalRegion>, peer: seq<PeerRegion>, internals: seq<InternalRegion>, maxInline: nat,
    ops: seq<Settings.Op>, inputs: seq<ParameterMerge.Param>, outputs: seq<ParameterMerge.Param>,
    keys: seq<uint32>, kernel: Kernel, mem: Memory)
    requires fncode != 0 && Fresh(local, peer) && DistinctAddresses(local) && |keys| == |local|
    requires |mem| == |local| && forall i :: 0 <= i < |mem| ==> |mem[i]| == local[i].size
    requires forall i :: 0 <= i < |ops| ==> !ops[i].Transfer?
    requires var c := ParameterMerge.MarkAll(
        Settings.ApplyAll(NewComm(fncode, local, peer, internals, maxInline), ops), inputs, outputs).ctx;
      |c.local| == |local| && ConfigFits(ConfigOf(Ready(c, keys, mem).ctx, kernel))
    ensures var c := ParameterMerge.MarkAll(
        Settings.ApplyAll(NewComm(fncode, local, peer, internals, maxInline), ops), inputs, outputs).ctx;
      var h := Ready(c, keys, mem);
      && Initial(ConfigOf(h.ctx, kernel), Joint(h, Accepted(maxInline), Boot, Tally(0, 0, 0, 0, 0), false))
      && KeepsRegions(h.ctx, NewComm(fncode, local, peer, internals, maxInline), keys)
  {
    var new' := NewComm(fncode, local, peer, internals, maxInline);
    Settings.NewIsConsistent(fncode, local, peer, internals, maxInline);
    assert Prepared(new', new');
    hide ConfigFits, ConfigOf, Settings.ApplyAll, ParameterMerge.MarkAll, DistinctAddresses, Settings.Consistent;
    SettersKeep(new', new', ops);
    var d := Settings.ApplyAll(new', ops);
    MarkingKeeps(d, new', inputs, outputs);
    var c := ParameterMerge.MarkAll(d, inputs, outputs).ctx;
    ReadyShape(c, new', keys, kernel, mem);
    ReadyKeeps(c, new', keys, mem);
    hide HostShape, KeepsRegions;
  }
}
