/** The order in which the completions of one call arrive does not matter to the host. */
module CompletionOrder {
  import opened Context
  import opened Chain
  import Invariant
  import Host

  /** Nothing is handled after a failure. */
  function HandleNext(o: Outcome, wc: Completion): Outcome {
    if !o.ok || !Host.Handleable(o.ctx, wc) then Outcome(o.ctx, false) else Host.Handle(o.ctx, wc)
  }

  /** Handles completions in order, as draining the queue does. */
  function HandleAll(c: Comm, wcs: seq<Completion>): Outcome {
    if wcs == [] then Outcome(c, true)
    else HandleNext(HandleAll(c, wcs[..|wcs| - 1]), wcs[|wcs| - 1])
  }

  function WriteCount(wcs: seq<Completion>): nat {
    Invariant.Count(wcs, WcRdmaWrite)
  }

  function ResponseCount(wcs: seq<Completion>): nat {
    Invariant.Count(wcs, WcRecvWithImm)
  }

  predicate OfTransfer(wc: Completion) {
    wc.success && (wc.opcode == WcRdmaWrite || wc.opcode == WcRecvWithImm || wc.opcode == WcRecv)
  }

  /** The completions of one call in any order: `n` writes, one response, and plain receives. */
  predicate OfOneCall(wcs: seq<Completion>, n: nat) {
    && wcs != [] && (forall i :: 0 <= i < |wcs| ==> OfTransfer(wcs[i]))
    && WriteCount(wcs) == n && ResponseCount(wcs) == 1
    && wcs[|wcs| - 1].opcode != WcRecv
  }

  /** A context as a data write leaves it. */
  predicate Fresh(c: Comm) {
    && c.state == DataSending && c.writesDone == 0 && !c.responseReceived && c.noInput > 0
    && |c.message| == MESSAGE_CAPACITY
  }

  lemma {:induction false} CountsGrow(wcs: seq<Completion>, k: nat, op: Opcode)
    requires k <= |wcs|
    ensures Invariant.Count(wcs[..k], op) <= Invariant.Count(wcs, op)
    decreases |wcs|
  {
    if k == |wcs| {
      assert wcs[..k] == wcs;
    } else {
      assert wcs[..|wcs| - 1][..k] == wcs[..k];
      CountsGrow(wcs[..|wcs| - 1], k, op);
    }
  }

  /** A context in the middle of a call. */
  predicate Midway(c: Comm, start: Comm, w: nat, r: nat) {
    && (c.state == DataSending || c.state == DataReceiving)
    && c.writesDone == w && c.responseReceived == (r > 0) && c.noInput == start.noInput
    && |c.message| == MESSAGE_CAPACITY
  }

  lemma NextMidway(o: Outcome, start: Comm, w: nat, r: nat, wc: Completion)
    requires o.ok && Midway(o.ctx, start, w, r) && OfTransfer(wc)
    requires var w', r' := w + Invariant.One(wc.opcode == WcRdmaWrite), r + Invariant.One(wc.opcode == WcRecvWithImm);
      w' + r' <= start.noInput && r' <= 1
    ensures var w', r' := w + Invariant.One(wc.opcode == WcRdmaWrite), r + Invariant.One(wc.opcode == WcRecvWithImm);
      HandleNext(o, wc).ok && Midway(HandleNext(o, wc).ctx, start, w', r')
  {
  }

  lemma NextEnds(o: Outcome, start: Comm, w: nat, r: nat, wc: Completion)
    requires o.ok && Midway(o.ctx, start, w, r) && OfTransfer(wc) && w + r == start.noInput > 0 && r <= 1
    requires wc.opcode == (if r == 1 then WcRdmaWrite else WcRecvWithImm)
    ensures var e := HandleNext(o, wc);
      e.ok && e.ctx.state == Finished && e.ctx.writesDone == 0 && !e.ctx.responseReceived
  {
  }

  /** As long as one counted completion is missing the transfer goes on. */
  lemma {:induction false} StaysMidway(c: Comm, wcs: seq<Completion>)
    requires Fresh(c) && WriteCount(wcs) <= c.noInput && ResponseCount(wcs) <= 1
    requires WriteCount(wcs) + ResponseCount(wcs) <= c.noInput
    requires forall i :: 0 <= i < |wcs| ==> OfTransfer(wcs[i])
    ensures HandleAll(c, wcs).ok && Midway(HandleAll(c, wcs).ctx, c, WriteCount(wcs), ResponseCount(wcs))
  {
    if wcs != [] {
      var init := wcs[..|wcs| - 1];
      StaysMidway(c, init);
      hide HandleNext, Midway;
      NextMidway(HandleAll(c, init), c, WriteCount(init), ResponseCount(init), wcs[|wcs| - 1]);
    }
  }

  lemma NextResponse(o: Outcome, wc: Completion)
    requires HandleNext(o, wc).ok && o.ctx.state != MrspSending && o.ctx.state != MrspReceiving
    ensures var e := HandleNext(o, wc).ctx;
      && o.ok
      && (wc.opcode == WcRecvWithImm ==> e.responseUserImm == wc.imm / 0x100 && e.bytesReceived == wc.byteLen)
      && (wc.opcode != WcRecvWithImm ==>
            e.responseUserImm == o.ctx.responseUserImm && e.bytesReceived == o.ctx.bytesReceived)
  {
  }

  /** The response's user bytes, wherever in the order it came. */
  lemma {:induction false} ResponseKept(c: Comm, wcs: seq<Completion>, i: nat)
    requires HandleAll(c, wcs).ok && ResponseCount(wcs) == 1
    requires i < |wcs| && wcs[i].opcode == WcRecvWithImm
    requires c.state == DataSending
    ensures HandleAll(c, wcs).ctx.responseUserImm == wcs[i].imm / 0x100
    ensures HandleAll(c, wcs).ctx.bytesReceived == wcs[i].byteLen
  {
    hide HandleNext;
    var n := |wcs| - 1;
    StaysInData(c, wcs[..n]);
    NextResponse(HandleAll(c, wcs[..n]), wcs[n]);
    if i < n {
      ResponsePresent(wcs[..n], i);
      ResponseKept(c, wcs[..n], i);
    }
  }

  lemma {:induction false} StaysInData(c: Comm, wcs: seq<Completion>)
    requires c.state == DataSending
    ensures var s := HandleAll(c, wcs).ctx.state; s == DataSending || s == DataReceiving || s == Finished
  {
    if wcs != [] {
      StaysInData(c, wcs[..|wcs| - 1]);
    }
  }

  lemma {:induction false} ResponsePresent(wcs: seq<Completion>, i: nat)
    requires i < |wcs| && wcs[i].opcode == WcRecvWithImm
    ensures ResponseCount(wcs) >= 1
  {
    if i < |wcs| - 1 {
      ResponsePresent(wcs[..|wcs| - 1], i);
    }
  }

  /**
   * For every order of n writes, one response and plain receives before the last counted
   * completion: no prefix fails, FINISHED is reached exactly with the last one, and both
   * trackers are then reset.
   */
  lemma OrderDoesNotMatter(c: Comm, wcs: seq<Completion>, k: nat)
    requires Fresh(c) && OfOneCall(wcs, c.noInput) && k <= |wcs|
    ensures var o := HandleAll(c, wcs[..k]);
      && o.ok && (o.ctx.state == Finished <==> k == |wcs|)
      && (k == |wcs| ==> o.ctx.writesDone == 0 && !o.ctx.responseReceived)
      && (k < |wcs| ==> o.ctx.writesDone == WriteCount(wcs[..k]))
      && (k < |wcs| ==> (o.ctx.responseReceived <==> ResponseCount(wcs[..k]) == 1))
  {
    hide HandleNext;
    var n := |wcs| - 1;
    StaysMidway(c, wcs[..n]);
    if k < |wcs| {
      assert wcs[..n][..k] == wcs[..k];
      CountsGrow(wcs[..n], k, WcRdmaWrite);
      CountsGrow(wcs[..n], k, WcRecvWithImm);
      StaysMidway(c, wcs[..k]);
    } else {
      assert wcs[..k] == wcs;
      NextEnds(HandleAll(c, wcs[..n]), c, WriteCount(wcs[..n]), ResponseCount(wcs[..n]), wcs[n]);
    }
  }

  /** A completion that comes after FINISHED is refused: hence receives only before the last one. */
  lemma NothingAfterFinished(c: Comm, wc: Completion)
    requires c.state == Finished && |c.message| == MESSAGE_CAPACITY
    ensures Host.Handle(c, wc) == Outcome(c, false)
  {
  }

  /** The premise holds of every context that a call with at least one input leaves. */
  lemma CallIsFresh(c: Comm)
    requires Host.Counted(c) && |c.message| == MESSAGE_CAPACITY && c.fncode != 0
    requires Marked(Host.DropSingles(c.local, c.noRpcCalls)) != []
    ensures Fresh(Host.Started(c))
    ensures Host.Started(c).noInput == |Host.Posted(Host.Started(c), c.fncode)|
  {
    Host.WriteKeepsCounted(c, c.fncode);
  }

  /** Every completion that is reached finds a context it can be handled in. */
  predicate Drainable(c: Comm, cq: seq<Completion>) {
    forall k :: 0 <= k < |cq| && HandleAll(c, cq[..k]).ok ==> Host.Handleable(HandleAll(c, cq[..k]).ctx, cq[k])
  }

  /** Handles what the queue holds until it is empty or a completion fails. */
  method DrainCq(c: CommContext, cq: seq<Completion>) returns (ok: bool, handled: nat)
    requires c.Valid() && Drainable(c.View(), cq)
    modifies c, c.mrPeer
    ensures c.Valid() && handled <= |cq|
    ensures HandleAll(old(c.View()), cq[..handled]) == Outcome(c.View(), ok)
    ensures if ok then handled == |cq| else handled > 0 && HandleAll(old(c.View()), cq[..handled - 1]).ok
  {
    ghost var start := c.View();
    handled := 0;
    ok := true;
    while handled < |cq|
      invariant c.Valid() && c.mrPeer == old(c.mrPeer) && handled <= |cq|
      invariant HandleAll(start, cq[..handled]) == Outcome(c.View(), true)
    {
      assert cq[..handled + 1][..handled] == cq[..handled];
      ok := Host.HandleWorkCompletion(c, cq[handled]);
      handled := handled + 1;
      if !ok {
        return;
      }
    }
    ok := true;
  }
}
