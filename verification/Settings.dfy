/** What every sequence of the host's setters and data transfers keeps. */
module Settings {
  import opened Bytes
  import opened Context
  import opened Chain
  import Host

  datatype Op =
    | SetInput(i: nat) | SetOutput(i: nat) | SetSingleSend(i: nat)
    | SetBytes(i: nat, count: int) | SetImmediate(user: seq<byte>) | Transfer

  function Apply(c: Comm, op: Op): Comm
    requires |c.local| == |c.peer|
  {
    match op
    case SetInput(i) => Host.SetInput(c, i).ctx
    case SetOutput(i) => Host.SetOutput(c, i).ctx
    case SetSingleSend(i) => Host.SetSingleSend(c, i).ctx
    case SetBytes(i, count) => Host.SetBytes(c, i, count).ctx
    case SetImmediate(user) => if |user| == 3 then Host.SetImmediate(c, user) else c
    case Transfer => Host.Started(c)
  }

  /** Counters equal marks, and no region sends more bytes than it has registered. */
  predicate Consistent(c: Comm) {
    && Host.Counted(c)
    && forall i :: 0 <= i < |c.local| ==> c.local[i].size <= c.local[i].length
  }

  function ApplyAll(c: Comm, ops: seq<Op>): (d: Comm)
    requires |c.local| == |c.peer|
    ensures |d.local| == |d.peer| == |c.local|
  {
    if ops == [] then c else Apply(ApplyAll(c, ops[..|ops| - 1]), ops[|ops| - 1])
  }

  lemma {:induction false} NothingMarked(local: seq<LocalRegion>, peer: seq<PeerRegion>)
    requires Unmarked(local, peer) && |local| == |peer|
    ensures Marked(local) == [] && Host.OutputCount(peer) == 0
  {
    if local != [] {
      NothingMarked(local[..|local| - 1], peer[..|peer| - 1]);
    }
  }

  /** A new context is consistent, nothing has happened to it, and its immediate is its function code. */
  lemma NewIsConsistent(fncode: byte, local: seq<LocalRegion>, peer: seq<PeerRegion>,
                        internals: seq<InternalRegion>, maxInline: nat)
    requires Unmarked(local, peer) && |local| == |peer| < 256
    requires forall i :: 0 <= i < |local| ==> local[i].size <= local[i].length
    ensures var c := NewComm(fncode, local, peer, internals, maxInline);
      && Consistent(c) && c.immediate == c.fncode == fncode && c.state == Init
      && c.local == local && c.peer == peer && c.internals == internals && c.maxInline == maxInline
      && c.noRpcCalls == c.writesDone == c.responseUserImm == c.bytesReceived == 0 && !c.responseReceived
      && |c.message| == 768 && forall i :: 0 <= i < 768 ==> c.message[i] == 0
  {
    NothingMarked(local, peer);
  }

  lemma {:induction false} OutputsGrow(peer: seq<PeerRegion>, i: nat, r: PeerRegion)
    requires i < |peer| && !peer[i].toWrite && r.toWrite
    ensures Host.OutputCount(peer[i := r]) == Host.OutputCount(peer) + 1
  {
    var n := |peer| - 1;
    if i == n {
      assert peer[i := r][..n] == peer[..n];
    } else {
      assert peer[i := r][..n] == peer[..n][i := r];
      OutputsGrow(peer[..n], i, r);
    }
  }

  /** Rewriting a region without touching its mark leaves the marks. */
  lemma SameMarks(local: seq<LocalRegion>, i: nat, r: LocalRegion)
    requires i < |local| && r.toWrite == local[i].toWrite
    ensures Marked(local[i := r]) == Marked(local)
  {
    MarkedByFlags(local, local[i := r]);
  }

  lemma InputKeeps(c: Comm, i: nat)
    requires Consistent(c)
    ensures Consistent(Host.SetInput(c, i).ctx)
  {
    hide Marked, Host.OutputCount;
    if i < |c.local| && !c.local[i].toWrite {
      MarkedGrows(c.local, i, c.local[i].(toWrite := true));
    }
  }

  lemma OutputKeeps(c: Comm, i: nat)
    requires Consistent(c)
    ensures Consistent(Host.SetOutput(c, i).ctx)
  {
    hide Marked, Host.OutputCount;
    if i < |c.peer| && !c.peer[i].toWrite {
      OutputsGrow(c.peer, i, c.peer[i].(toWrite := true));
    }
  }

  lemma SingleSendKeeps(c: Comm, i: nat)
    requires Consistent(c)
    ensures Consistent(Host.SetSingleSend(c, i).ctx)
  {
    hide Marked, Host.OutputCount;
    if i < |c.local| {
      var r := c.local[i].(singleSend := true);
      SameMarks(c.local, i, r);
      if !r.toWrite {
        MarkedGrows(c.local[i := r], i, r.(toWrite := true));
      }
    }
  }

  lemma BytesKeep(c: Comm, i: nat, count: int)
    requires Consistent(c)
    ensures Consistent(Host.SetBytes(c, i, count).ctx)
  {
    var d := Host.SetBytes(c, i, count).ctx;
    hide Host.OutputCount;
    MarkedByFlags(c.local, d.local);
  }

  /** The setters accept exactly the indices of regions, and refused or not change only what they name. */
  lemma SettersEffect(c: Comm, i: nat, k: nat)
    requires |c.local| == |c.peer| && k < |c.local|
    ensures var o := Host.SetInput(c, i);
      && (o.ok <==> i < |c.local|) && o.ctx == c.(local := o.ctx.local, noInput := o.ctx.noInput)
      && |o.ctx.local| == |c.local|
      && o.ctx.local[k] == if k == i then c.local[k].(toWrite := true) else c.local[k]
    ensures var o := Host.SetOutput(c, i);
      && (o.ok <==> i < |c.local|) && o.ctx == c.(peer := o.ctx.peer, noOutput := o.ctx.noOutput)
      && |o.ctx.peer| == |c.peer|
      && o.ctx.peer[k] == if k == i then c.peer[k].(toWrite := true) else c.peer[k]
    ensures var o := Host.SetSingleSend(c, i);
      && (o.ok <==> i < |c.local|) && o.ctx == c.(local := o.ctx.local, noInput := o.ctx.noInput)
      && |o.ctx.local| == |c.local|
      && o.ctx.local[k] == if k == i then c.local[k].(toWrite := true, singleSend := true) else c.local[k]
  {
  }

  /**
   * A byte limit is accepted exactly for a registered region that is at least that long, and changes
   * the bytes to send of that region only: a negative limit means all of it.
   */
  lemma LimitEffect(c: Comm, i: nat, count: int, k: nat)
    requires k < |c.local|
    ensures var o := Host.SetBytes(c, i, count);
      && (o.ok <==> i < |c.local| && c.local[i].registered && count <= c.local[i].length)
      && o.ctx == c.(local := o.ctx.local) && |o.ctx.local| == |c.local|
      && o.ctx.local[k] ==
           if o.ok && k == i then c.local[k].(size := if count < 0 then c.local[k].length else count) else c.local[k]
  {
  }

  /** The immediate is all that its setter changes: the function code below the three user bytes. */
  lemma ImmediateEffect(c: Comm, user: seq<byte>)
    requires |user| == 3
    ensures var d := Host.SetImmediate(c, user);
      && d == c.(immediate := d.immediate) && d.immediate % 0x100 == c.fncode && d.immediate / 0x100 == UserValue(user)
  {
  }

  /**
   * A limit within the length is accepted, and leaves the whole region to be sent exactly if it is
   * negative or that length.
   */
  lemma WholeRegionIff(c: Comm, i: nat, count: int)
    requires i < |c.local| && c.local[i].registered
    ensures var o := Host.SetBytes(c, i, count);
      && (o.ok <==> count <= c.local[i].length)
      && (o.ok ==> (o.ctx.local[i].size == c.local[i].length <==> count < 0 || count == c.local[i].length))
      && (!o.ok ==> o.ctx == c)
  {
  }

  lemma TransferKeeps(c: Comm)
    requires Consistent(c)
    ensures Consistent(Host.Started(c))
  {
    Host.WriteKeepsCounted(c, c.fncode);
    hide Marked, Host.OutputCount, Host.DropCount;
  }

  lemma {:induction false} AnySequenceConsistent(c: Comm, ops: seq<Op>)
    requires Consistent(c)
    ensures Consistent(ApplyAll(c, ops))
  {
    if ops != [] {
      var d := ApplyAll(c, ops[..|ops| - 1]);
      AnySequenceConsistent(c, ops[..|ops| - 1]);
      hide Consistent, ApplyAll;
      match ops[|ops| - 1] {
        case SetInput(i) => InputKeeps(d, i);
        case SetOutput(i) => OutputKeeps(d, i);
        case SetSingleSend(i) => SingleSendKeeps(d, i);
        case SetBytes(i, count) => BytesKeep(d, i, count);
        case SetImmediate(user) => ImmediateKeeps(d, user);
        case Transfer => TransferKeeps(d);
      }
    }
  }

  lemma ImmediateKeeps(c: Comm, user: seq<byte>)
    requires Consistent(c)
    ensures |user| == 3 ==> Consistent(Host.SetImmediate(c, user))
  {
    hide Marked, Host.OutputCount;
  }

  /** The chain visits the marked regions once, in index order, and stays inside each. */
  predicate ProperChain(c: Comm, posted: seq<WriteRequest>)
    requires |c.local| == |c.peer|
  {
    && LinksForward(posted) && posted != [] && Walk(posted, 0) == posted
    && |posted| == c.noInput == |Marked(c.local)|
    && WritesMarked(posted, c.local, c.peer, Host.RequestWord(c.immediate), false, c.maxInline)
    && forall k :: 0 <= k < |posted| ==>
         var i := Marked(c.local)[k];
         && posted[k].length <= c.local[i].size <= c.local[i].length
         && (c.local[i].size < 0x1_0000_0000 ==> posted[k].length == c.local[i].size)
  }

  /** No region that is sent once is in the chain of a later call. */
  predicate NoSingles(c: Comm) {
    forall i :: 0 <= i < |c.local| && c.local[i].toWrite ==> !c.local[i].singleSend
  }

  /**
   * After any sequence of setters and transfers, the next transfer posts a proper chain. It has no
   * single-send region exactly if the 32-bit call counter is positive or none is marked.
   */
  lemma NextChainProper(c: Comm, ops: seq<Op>)
    requires Consistent(c)
    requires var d := ApplyAll(c, ops);
      d.fncode != 0 && Marked(Host.DropSingles(d.local, d.noRpcCalls)) != []
    ensures var d := ApplyAll(c, ops);
      var e := Host.Started(d);
      && ProperChain(e, Host.Posted(e, d.fncode))
      && (NoSingles(e) <==> d.noRpcCalls > 0 || NoSingles(d))
  {
    AnySequenceConsistent(c, ops);
    var d := ApplyAll(c, ops);
    TransferKeeps(d);
    NoSinglesIff(d);
    hide NoSingles;
    hide ApplyAll, Host.OutputCount, Host.DropCount;
    var e := Host.Started(d);
    ChainCorrect(e.local, e.peer, Host.RequestWord(e.immediate), false, e.maxInline);
    ProperSlots(e);
  }

  lemma ProperSlots(e: Comm)
    requires Consistent(e) && Marked(e.local) != []
    requires var wrs := Slots(e.local, e.peer, Host.RequestWord(e.immediate), false, e.maxInline);
      && LinksForward(wrs) && Walk(wrs, 0) == wrs
      && WritesMarked(wrs, e.local, e.peer, Host.RequestWord(e.immediate), false, e.maxInline)
    ensures ProperChain(e, Slots(e.local, e.peer, Host.RequestWord(e.immediate), false, e.maxInline))
  {
    hide Marked, Walk, Host.OutputCount, Host.RequestWord;
  }

  // ---------------------------------------------------------------- the call counter

  /** The next call sends no single-send region exactly if the 32-bit counter is positive or none is marked. */
  lemma NoSinglesIff(c: Comm)
    requires |c.local| == |c.peer| && c.fncode != 0
    ensures NoSingles(Host.Started(c)) <==> c.noRpcCalls > 0 || NoSingles(c)
  {
    hide Host.DropCount;
    var e := Host.Started(c);
    if c.noRpcCalls == 0 {
      assert e.local == c.local;
    }
  }

  lemma StartedCounts(c: Comm)
    requires |c.local| == |c.peer|
    ensures var d := Host.Started(c);
      && |d.local| == |d.peer| == |c.local| && d.fncode == c.fncode
      && d.noRpcCalls == (c.noRpcCalls + 1) % 0x1_0000_0000
  {
    hide Host.DropCount;
  }

  /** A setter that marks a region for sending. */
  predicate MarksInput(op: Op) {
    op.SetInput? || op.SetSingleSend?
  }

  /** The next call is a later one in the sense of the counter, or has nothing left to drop. */
  predicate DropsSettled(c: Comm) {
    |c.local| == |c.peer| && c.fncode != 0 && (c.noRpcCalls > 0 || NoSingles(c))
  }

  lemma SettledStep(c: Comm, op: Op)
    requires DropsSettled(c) && !MarksInput(op)
    ensures DropsSettled(Apply(c, op))
    ensures op.Transfer? ==> NoSingles(Apply(c, op))
  {
    if op.Transfer? {
      NoSinglesIff(c);
    }
    hide Host.DropCount, Host.Word, Host.DropSingles;
  }

  lemma {:induction false} SettledAlong(c: Comm, ops: seq<Op>)
    requires DropsSettled(c) && forall i :: 0 <= i < |ops| ==> !MarksInput(ops[i])
    ensures DropsSettled(ApplyAll(c, ops))
  {
    if ops != [] {
      SettledAlong(c, ops[..|ops| - 1]);
      SettledStep(ApplyAll(c, ops[..|ops| - 1]), ops[|ops| - 1]);
    }
  }

  /**
   * If all inputs are marked before the first call, as the header asks, no later call sends a
   * single-send region, however often the counter wraps around.
   */
  lemma {:induction false} MarkedBeforeSentOnce(c: Comm, ops: seq<Op>)
    requires |c.local| == |c.peer| && c.fncode != 0 && c.noRpcCalls == 0
    requires forall i :: 0 <= i < |ops| ==> !MarksInput(ops[i])
    ensures NoSingles(Host.Started(ApplyAll(Host.Started(c), ops)))
  {
    hide Host.Started, ApplyAll, NoSingles;
    var d := Host.Started(c);
    StartedCounts(c);
    SettledAlong(d, ops);
    NoSinglesIff(ApplyAll(d, ops));
  }

  lemma ApplyTwo(c: Comm, a: Op, b: Op)
    requires |c.local| == |c.peer|
    ensures ApplyAll(c, [a, b]) == Apply(Apply(c, a), b)
  {
    hide Apply;
    var ops := [a, b];
    assert ops[..1] == [a] && [a][..0] == [];
    assert ApplyAll(c, [a]) == Apply(ApplyAll(c, []), a);
  }

  lemma SingleMarked(c: Comm)
    requires |c.local| == |c.peer| && c.local != []
    ensures var d := Host.SetSingleSend(c, 0).ctx;
      !NoSingles(d) && d.noRpcCalls == c.noRpcCalls && d.fncode == c.fncode && |d.local| == |d.peer|
  {
    var d := Host.SetSingleSend(c, 0).ctx;
    assert d.local[0].singleSend && d.local[0].toWrite;
  }

  /** A region marked as single-send when the counter has come back to 0 is sent by the next call, after 2^32 others. */
  lemma WrappedCounterSends(c: Comm)
    requires |c.local| == |c.peer| && c.local != [] && c.fncode != 0 && c.noRpcCalls == 0xFFFF_FFFF
    ensures var d := ApplyAll(c, [Transfer, SetSingleSend(0)]);
      d.noRpcCalls == 0 && !NoSingles(Host.Started(d))
  {
    hide ApplyAll, NoSingles, Host.Started, Host.SetSingleSend;
    ApplyTwo(c, Transfer, SetSingleSend(0));
    StartedCounts(c);
    var d1 := Host.Started(c);
    SingleMarked(d1);
    NoSinglesIff(Host.SetSingleSend(d1, 0).ctx);
  }
}
