/** Sending a region once is a correct cache of sending it on every call. */
module Cache {
  import opened Bytes
  import opened Context
  import opened Machine
  import opened Shadow
  import Refinement

  /** The same connection with every input sent on every call. */
  function Resending(cfg: Config): Config {
    cfg.(singles := seq(|cfg.singles|, _ => false))
  }

  /** Region `r` is an input that the run sends on the first call only. */
  predicate SentOnce(cfg: Config, r: nat) {
    r < |cfg.inputs| == |cfg.singles| && cfg.inputs[r] && cfg.singles[r]
  }

  /**
   * The kernel of the next call keeps the number of regions and changes none that is sent once,
   * unless that is an output and comes back.
   */
  predicate KernelKeeps(cfg: Config, sp: Spec) {
    |cfg.outputs| == |cfg.inputs| && |Computed(cfg, sp)| == |sp.server| &&
    forall r :: 0 <= r < |cfg.inputs| && r < |sp.server| && SentOnce(cfg, r) && !cfg.outputs[r] ==>
      Computed(cfg, sp)[r] == Received(cfg, sp)[r]
  }

  /** Along the events every kernel run keeps the regions that are sent once. */
  predicate KernelsKeep(cfg: Config, sp: Spec, events: seq<Event>)
    decreases |events|
  {
    events == [] || (
      && (events[0].Called? ==> KernelKeeps(cfg, sp))
      && KernelsKeep(cfg, Happens(cfg, sp, events[0]), events[1..]))
  }

  /** The event leaves application bytes and byte limit of every region sent once alone. */
  predicate LeavesSingles(cfg: Config, e: Event) {
    match e
    case Wrote(i, _) => !SentOnce(cfg, i)
    case Limited(i, _) => !SentOnce(cfg, i)
    case _ => true
  }

  /** From the first call on, nothing touches the regions that were sent once. */
  predicate StaysFixed(cfg: Config, calls: nat, events: seq<Event>)
    decreases |events|
  {
    events == [] || (
      && (calls > 0 ==> LeavesSingles(cfg, events[0]))
      && StaysFixed(cfg, if events[0].Called? then calls + 1 else calls, events[1..]))
  }

  /** The accelerator still holds what resending would bring. */
  ghost predicate Cached(cfg: Config, sp: Spec) {
    sp.calls > 0 ==>
      forall r: nat :: SentOnce(cfg, r) && r < |sp.host| && r < |sp.server| && r < |sp.limits| ==>
        Copied(sp.host[r], sp.server[r], sp.limits[r]) == sp.server[r]
  }

  lemma SentAgain(cfg: Config, i: nat, calls: nat)
    requires |cfg.inputs| == |cfg.singles|
    ensures Sent(Resending(cfg), i, calls) <==> (Sent(cfg, i, calls) || (calls > 0 && SentOnce(cfg, i)))
  {
  }

  /** Resending brings nothing new exactly if the accelerator still holds it. */
  lemma SameReceivedIff(cfg: Config, sp: Spec)
    requires |cfg.inputs| == |cfg.singles|
    ensures Received(Resending(cfg), sp) == Received(cfg, sp) <==> Cached(cfg, sp)
  {
    hide Copied;
    forall i | 0 <= i < |sp.server|
      ensures Received(Resending(cfg), sp)[i] == Received(cfg, sp)[i] <==>
        (sp.calls > 0 && SentOnce(cfg, i) && i < |sp.host| && i < |sp.limits| ==>
           Copied(sp.host[i], sp.server[i], sp.limits[i]) == sp.server[i])
    {
      SentAgain(cfg, i, sp.calls);
    }
  }

  lemma SameCall(cfg: Config, sp: Spec)
    requires Cached(cfg, sp) && |cfg.inputs| == |cfg.singles|
    ensures Call(Resending(cfg), sp) == Call(cfg, sp)
  {
    hide Received;
    SameReceivedIff(cfg, sp);
  }

  lemma CopiedTwice(src: seq<byte>, dst: seq<byte>, n: nat)
    ensures Copied(src, Copied(src, dst, n), n) == Copied(src, dst, n)
  {
  }

  lemma CopiedOnItself(data: seq<byte>, n: nat)
    ensures Copied(data, data, n) == data
  {
  }

  lemma CallCounts(cfg: Config, sp: Spec)
    ensures Call(cfg, sp).calls == sp.calls + 1
  {
  }

  // ---------------------------------------------------------------- the exact condition

  /** On every call of the events the accelerator still holds what resending would bring. */
  ghost predicate CachedAlong(cfg: Config, sp: Spec, events: seq<Event>)
    decreases |events|
  {
    events == [] || (
      && (events[0].Called? ==> Cached(cfg, sp))
      && CachedAlong(cfg, Happens(cfg, sp, events[0]), events[1..]))
  }

  /** The kernels of `a`, sending once, and of `b`, resending, are given the same memory on every call. */
  predicate SameKernelInputs(cfg: Config, a: Spec, b: Spec, events: seq<Event>)
    decreases |events|
  {
    events == [] || (
      && (events[0].Called? ==> Received(cfg, a) == Received(Resending(cfg), b))
      && SameKernelInputs(cfg, Happens(cfg, a, events[0]), Happens(Resending(cfg), b, events[0]), events[1..]))
  }

  lemma SameEvent(cfg: Config, sp: Spec, e: Event)
    requires |cfg.inputs| == |cfg.singles| && (e.Called? ==> Cached(cfg, sp))
    ensures Happens(Resending(cfg), sp, e) == Happens(cfg, sp, e)
  {
    hide Call;
    if e.Called? {
      SameCall(cfg, sp);
    }
  }

  /** Sending once shows in no kernel input exactly if every call finds the regions cached. */
  lemma {:induction false} CacheExact(cfg: Config, sp: Spec, events: seq<Event>)
    requires |cfg.inputs| == |cfg.singles|
    ensures SameKernelInputs(cfg, sp, sp, events) <==> CachedAlong(cfg, sp, events)
    decreases |events|
  {
    hide Cached, Happens, Resending, Received;
    if events != [] {
      if events[0].Called? {
        SameReceivedIff(cfg, sp);
      }
      if events[0].Called? ==> Cached(cfg, sp) {
        SameEvent(cfg, sp, events[0]);
        CacheExact(cfg, Happens(cfg, sp, events[0]), events[1..]);
      }
    }
  }

  /** Where every call finds the regions cached, sending once and resending end in the same state. */
  lemma {:induction false} CacheAlong(cfg: Config, sp: Spec, events: seq<Event>)
    requires |cfg.inputs| == |cfg.singles| && CachedAlong(cfg, sp, events)
    ensures Play(Resending(cfg), sp, events) == Play(cfg, sp, events)
    decreases |events|
  {
    hide Cached, Happens, Resending;
    if events != [] {
      SameEvent(cfg, sp, events[0]);
      CacheAlong(cfg, Happens(cfg, sp, events[0]), events[1..]);
    }
  }

  // ---------------------------------------------------------------- a condition on application and kernel

  /** A call whose kernel keeps the regions that are sent once leaves them cached. */
  lemma CallCaches(cfg: Config, sp: Spec)
    requires Cached(cfg, sp) && KernelKeeps(cfg, sp)
    ensures Cached(cfg, Call(cfg, sp))
  {
    hide Computed;
    var after, m := Call(cfg, sp), Received(cfg, sp);
    forall r: nat | SentOnce(cfg, r) && r < |after.host| && r < |after.server| && r < |after.limits|
      ensures Copied(after.host[r], after.server[r], after.limits[r]) == after.server[r]
    {
      if cfg.outputs[r] {
        CopiedOnItself(after.server[r], after.limits[r]);
      } else {
        assert after.host[r] == sp.host[r] && after.server[r] == m[r];
        CopiedTwice(sp.host[r], sp.server[r], sp.limits[r]);
      }
    }
  }

  lemma EventCaches(cfg: Config, sp: Spec, e: Event)
    requires Cached(cfg, sp) && (e.Called? ==> KernelKeeps(cfg, sp)) && (sp.calls > 0 ==> LeavesSingles(cfg, e))
    ensures Cached(cfg, Happens(cfg, sp, e))
    ensures Happens(cfg, sp, e).calls == if e.Called? then sp.calls + 1 else sp.calls
  {
    hide Copied, Call, KernelKeeps;
    if e.Called? {
      CallCaches(cfg, sp);
      CallCounts(cfg, sp);
    }
  }

  /** It is enough that, from the first call on, neither application nor kernel touches the regions. */
  lemma {:induction false} FixedStaysCached(cfg: Config, sp: Spec, events: seq<Event>)
    requires Cached(cfg, sp) && StaysFixed(cfg, sp.calls, events) && KernelsKeep(cfg, sp, events)
    ensures CachedAlong(cfg, sp, events)
    decreases |events|
  {
    hide Cached, KernelKeeps, Happens, LeavesSingles;
    if events != [] {
      EventCaches(cfg, sp, events[0]);
      FixedStaysCached(cfg, Happens(cfg, sp, events[0]), events[1..]);
    }
  }

  /**
   * Two runs with the same visible events, one sending the marked regions once and one on every
   * call, end with equal host and equal accelerator memories, whatever their interleavings, if
   * each call of the first finds the regions cached.
   */
  lemma SendOnceIsCache(cfg: Config, j: Joint, steps: seq<Step>, j': Joint, steps': seq<Step>)
    requires Initial(cfg, j) && Legal(cfg, j, steps)
    requires Initial(Resending(cfg), j') && Legal(Resending(cfg), j', steps')
    requires Refinement.Start(cfg, j) == Refinement.Start(Resending(cfg), j')
    requires Refinement.Trace(cfg, j, steps) == Refinement.Trace(Resending(cfg), j', steps')
    requires CachedAlong(cfg, Refinement.Start(cfg, j), Refinement.Trace(cfg, j, steps))
    requires Run(cfg, j, steps).host.ctx.state == Run(Resending(cfg), j', steps').host.ctx.state == Finished
    ensures Run(cfg, j, steps).host.mem == Run(Resending(cfg), j', steps').host.mem
    ensures Run(cfg, j, steps).server.mem == Run(Resending(cfg), j', steps').server.mem
  {
    SameCounts(cfg, j);
    hide Initial, Legal, Run, Refinement.Start, Refinement.Trace, CachedAlong, Resending, Play;
    Refinement.RemoteCallRefinement(cfg, j, steps);
    Refinement.RemoteCallRefinement(Resending(cfg), j', steps');
    CacheAlong(cfg, Refinement.Start(cfg, j), Refinement.Trace(cfg, j, steps));
  }

  /**
   * The same from conditions on application and kernel: after the first call the application leaves
   * the regions alone, and on this run no kernel changes one of them that is not an output.
   */
  lemma FixedSendOnceIsCache(cfg: Config, j: Joint, steps: seq<Step>, j': Joint, steps': seq<Step>)
    requires Initial(cfg, j) && Legal(cfg, j, steps)
    requires Initial(Resending(cfg), j') && Legal(Resending(cfg), j', steps')
    requires Refinement.Start(cfg, j) == Refinement.Start(Resending(cfg), j')
    requires Refinement.Trace(cfg, j, steps) == Refinement.Trace(Resending(cfg), j', steps')
    requires StaysFixed(cfg, 0, Refinement.Trace(cfg, j, steps))
    requires KernelsKeep(cfg, Refinement.Start(cfg, j), Refinement.Trace(cfg, j, steps))
    requires Run(cfg, j, steps).host.ctx.state == Run(Resending(cfg), j', steps').host.ctx.state == Finished
    ensures Run(cfg, j, steps).host.mem == Run(Resending(cfg), j', steps').host.mem
    ensures Run(cfg, j, steps).server.mem == Run(Resending(cfg), j', steps').server.mem
  {
    StartsUncalled(cfg, j);
    hide Initial, Legal, Run, Refinement.Start, Refinement.Trace, KernelsKeep, StaysFixed, Resending, Cached;
    FixedStaysCached(cfg, Refinement.Start(cfg, j), Refinement.Trace(cfg, j, steps));
    SendOnceIsCache(cfg, j, steps, j', steps');
  }

  lemma SameCounts(cfg: Config, j: Joint)
    requires Initial(cfg, j)
    ensures |cfg.inputs| == |cfg.outputs| == |cfg.singles|
  {
    hide HostRegionFits, DistinctAddresses, KernelFits;
  }

  // ---------------------------------------------------------------- the condition is needed

  /** A kernel that hands out its input and then counts it up, although the input is no output. */
  function Counting(f: byte, imm: uint32, m: Memory): (r: (byte, Memory)) {
    if |m| == 2 && |m[0]| == 1 && |m[1]| == 1 then (0, [[(m[0][0] as int + 1) % 256], [m[0][0]]]) else (0, m)
  }

  const COUNTING := Config([true, false], [false, true], [true, false], [1, 1], [], Counting)

  function CountedOnce(x: byte): Spec {
    Spec([[x], [0]], [[0], [0]], [1, 1], 1, 0, 0)
  }

  lemma CountingSentOnce()
    ensures Call(COUNTING, Call(COUNTING, CountedOnce(5))).host == [[5], [6]]
  {
    CopiedWhole([5], [0]);
    hide Copied;
    var once := Spec([[5], [5]], [[6], [5]], [1, 1], 1, 0, 1);
    OneCall(COUNTING, CountedOnce(5), [[5], [0]], [[6], [5]], [[5], [5]]);
    OneCall(COUNTING, once, [[6], [5]], [[7], [6]], [[5], [6]]);
  }

  lemma CountingSentAgain()
    ensures Call(Resending(COUNTING), Call(Resending(COUNTING), CountedOnce(5))).host == [[5], [5]]
  {
    CopiedWhole([5], [0]);
    CopiedWhole([5], [6]);
    assert Resending(COUNTING).singles == [false, false];
    hide Copied;
    var once := Spec([[5], [5]], [[6], [5]], [1, 1], 1, 0, 1);
    OneCall(Resending(COUNTING), CountedOnce(5), [[5], [0]], [[6], [5]], [[5], [5]]);
    OneCall(Resending(COUNTING), once, [[5], [5]], [[6], [5]], [[5], [5]]);
  }

  lemma FirstCountChanges()
    ensures !KernelKeeps(COUNTING, CountedOnce(5))
  {
    CopiedWhole([5], [0]);
    hide Copied;
    assert Received(COUNTING, CountedOnce(5)) == [[5], [0]];
    assert SentOnce(COUNTING, 0) && Computed(COUNTING, CountedOnce(5))[0] == [6];
  }

  /** If the kernel changes a region that is sent once and not returned, resending it shows. */
  lemma ChangedSingleShows()
    ensures !KernelKeeps(COUNTING, CountedOnce(5))
    ensures Call(COUNTING, Call(COUNTING, CountedOnce(5))).host
         != Call(Resending(COUNTING), Call(Resending(COUNTING), CountedOnce(5))).host
  {
    FirstCountChanges();
    hide Call, KernelKeeps;
    CountingSentOnce();
    CountingSentAgain();
    assert [[5], [6]][1] != [[5], [5]][1];
  }

  /** One call by its received, computed and returned memories. */
  lemma OneCall(cfg: Config, sp: Spec, received: Memory, computed: Memory, returned: Memory)
    requires Received(cfg, sp) == received && cfg.kernel(sp.fncode % 0x80, sp.user, received).1 == computed
    requires |returned| == |sp.host| && forall i :: 0 <= i < |sp.host| ==>
      returned[i] == if i < |cfg.outputs| && cfg.outputs[i] && i < |computed| then computed[i] else sp.host[i]
    ensures Call(cfg, sp) == sp.(host := returned, server := computed, calls := sp.calls + 1)
  {
  }

  lemma StartsUncalled(cfg: Config, j: Joint)
    ensures Refinement.Start(cfg, j).calls == 0 && Cached(cfg, Refinement.Start(cfg, j))
  {
  }
}
