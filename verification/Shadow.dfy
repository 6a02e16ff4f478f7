/**
 * The remote call as a user thinks of it: two memories, and a call that copies the inputs over,
 * runs the kernel there and copies the outputs back, all at once.
 */
module Shadow {
  import opened Bytes
  import opened Machine

  /** `calls` counts the calls made so far; `limits` holds the bytes to send of each region. */
  datatype Spec = Spec(host: Memory, server: Memory, limits: seq<nat>, fncode: byte, user: uint32, calls: nat)

  /** What an application can observe or do. */
  datatype Event =
    | Wrote(i: nat, data: seq<byte>)
    | Limited(i: nat, count: int)
    | Immediate(user: seq<byte>)
    | Called

  /** The first `n` bytes of `src` over those of `dst`; too long a prefix is not copied. */
  function Copied(src: seq<byte>, dst: seq<byte>, n: nat): (r: seq<byte>)
    ensures |r| == |dst|
  {
    if n <= |src| && n <= |dst| then src[..n] + dst[n..] else dst
  }

  /** Inputs travel on every call, single-send inputs on the first only. */
  predicate Sent(cfg: Config, i: nat, calls: nat) {
    && i < |cfg.inputs| && i < |cfg.singles|
    && cfg.inputs[i] && (calls == 0 || !cfg.singles[i])
  }

  /** The accelerator's memory once the inputs of the next call have arrived. */
  function Received(cfg: Config, sp: Spec): (m: Memory)
    ensures |m| == |sp.server|
  {
    seq(|sp.server|, i requires 0 <= i < |sp.server| =>
      if Sent(cfg, i, sp.calls) && i < |sp.host| && i < |sp.limits|
      then Copied(sp.host[i], sp.server[i], sp.limits[i]) else sp.server[i])
  }

  /** The accelerator's memory once its kernel has run. */
  function Computed(cfg: Config, sp: Spec): Memory {
    cfg.kernel(sp.fncode % 0x80, sp.user, Received(cfg, sp)).1
  }

  /** The host's memory once the outputs have arrived. */
  function Returned(cfg: Config, sp: Spec): (m: Memory)
    ensures |m| == |sp.host|
  {
    var result := Computed(cfg, sp);
    seq(|sp.host|, i requires 0 <= i < |sp.host| =>
      if i < |cfg.outputs| && cfg.outputs[i] && i < |result| then result[i] else sp.host[i])
  }

  function Call(cfg: Config, sp: Spec): Spec {
    sp.(host := Returned(cfg, sp), server := Computed(cfg, sp), calls := sp.calls + 1)
  }

  /** A limit above the registered length is refused, a negative one restores that length. */
  function Limit(limits: seq<nat>, lengths: seq<nat>, i: nat, count: int): (r: seq<nat>)
    ensures |r| == |limits|
  {
    if i >= |limits| || i >= |lengths| || count > lengths[i] then limits
    else limits[i := if count < 0 then lengths[i] else count]
  }

  function Happens(cfg: Config, sp: Spec, e: Event): Spec {
    match e
    case Wrote(i, data) => if i < |sp.host| then sp.(host := sp.host[i := data]) else sp
    case Limited(i, count) => sp.(limits := Limit(sp.limits, cfg.lengths, i, count))
    case Immediate(user) =>
      if |user| != 3 then sp
      else sp.(user := UserValue(user))
    case Called => Call(cfg, sp)
  }

  function Play(cfg: Config, sp: Spec, events: seq<Event>): Spec
    decreases |events|
  {
    if events == [] then sp else Play(cfg, Happens(cfg, sp, events[0]), events[1..])
  }

  /** Buffers of the configured lengths on both sides, and limits within them. */
  ghost predicate Fits(cfg: Config, sp: Spec) {
    && ConfigFits(cfg)
    && |sp.host| == |sp.limits| == |cfg.lengths|
    && (forall i :: 0 <= i < |sp.host| ==> |sp.host[i]| == cfg.lengths[i] && sp.limits[i] <= cfg.lengths[i])
    && SameShape(sp.server, Zeros(cfg.lengths + cfg.internals))
  }

  // ---------------------------------------------------------------- copying region by region

  /** `dst` with the regions in `done` overwritten by a prefix of those of `src`. */
  function Landed(src: Memory, dst: Memory, limits: seq<nat>, done: seq<nat>): (m: Memory)
    ensures |m| == |dst|
  {
    seq(|dst|, i requires 0 <= i < |dst| =>
      if i in done && i < |src| && i < |limits| then Copied(src[i], dst[i], limits[i]) else dst[i])
  }

  lemma LandedNone(src: Memory, dst: Memory, limits: seq<nat>)
    ensures Landed(src, dst, limits, []) == dst
  {
  }

  /** The next region of a list without repetition lands on bytes that were not touched yet. */
  lemma LandedNext(src: Memory, dst: Memory, limits: seq<nat>, done: seq<nat>, k: nat)
    requires k < |done| && forall a, b :: 0 <= a < b < |done| ==> done[a] < done[b]
    requires var i := done[k]; i < |src| && i < |dst| && i < |limits|
    ensures var i, m := done[k], Landed(src, dst, limits, done[..k]);
      && m[i] == dst[i]
      && m[i := Copied(src[i], m[i], limits[i])] == Landed(src, dst, limits, done[..k + 1])
  {
    var i, m := done[k], Landed(src, dst, limits, done[..k]);
    assert i !in done[..k];
    assert done[..k + 1] == done[..k] + [i];
    var m' := m[i := Copied(src[i], m[i], limits[i])];
    forall x | 0 <= x < |dst|
      ensures m'[x] == Landed(src, dst, limits, done[..k + 1])[x]
    {
      assert x in done[..k + 1] <==> x in done[..k] || x == i;
    }
  }

  /** Landing all regions that are sent gives the memory the kernel is called on. */
  lemma LandedAll(cfg: Config, sp: Spec, done: seq<nat>)
    requires |sp.host| == |sp.limits| == |cfg.inputs| == |cfg.singles| <= |sp.server|
    requires forall i :: 0 <= i < |cfg.inputs| ==> (i in done <==> Sent(cfg, i, sp.calls))
    ensures Landed(sp.host, sp.server, sp.limits, done) == Received(cfg, sp)
  {
  }

  lemma CopiedWhole(src: seq<byte>, dst: seq<byte>)
    requires |src| == |dst|
    ensures Copied(src, dst, |dst|) == src
  {
  }

  /** Landing all outputs in full gives the memory a call returns. */
  lemma ReturnedAll(cfg: Config, sp: Spec, done: seq<nat>)
    requires Fits(cfg, sp)
    requires forall i :: 0 <= i < |cfg.outputs| ==> (i in done <==> cfg.outputs[i])
    ensures Landed(Computed(cfg, sp), sp.host, cfg.lengths, done) == Returned(cfg, sp)
  {
    ComputedShape(cfg, sp);
    hide Computed, SameShape;
    var result, m := Computed(cfg, sp), Landed(Computed(cfg, sp), sp.host, cfg.lengths, done);
    forall i | 0 <= i < |sp.host|
      ensures m[i] == Returned(cfg, sp)[i]
    {
      CopiedWhole(result[i], sp.host[i]);
    }
  }

  /** A kernel that stays inside its buffers leaves them as long as they were. */
  lemma ComputedShape(cfg: Config, sp: Spec)
    requires Fits(cfg, sp)
    ensures SameShape(Computed(cfg, sp), Zeros(cfg.lengths + cfg.internals))
    ensures |cfg.lengths| <= |Computed(cfg, sp)|
    ensures forall i :: 0 <= i < |cfg.lengths| ==> |Computed(cfg, sp)[i]| == cfg.lengths[i]
  {
    var m := Received(cfg, sp);
    assert SameShape(m, Computed(cfg, sp));
    hide Received, Computed;
    forall i | 0 <= i < |m|
      ensures |m[i]| == |Zeros(cfg.lengths + cfg.internals)[i]|
    {
      ReceivedLength(cfg, sp, i);
    }
  }

  lemma ReceivedLength(cfg: Config, sp: Spec, i: nat)
    requires i < |sp.server|
    ensures |Received(cfg, sp)[i]| == |sp.server[i]|
  {
  }

  lemma CallFits(cfg: Config, sp: Spec)
    requires Fits(cfg, sp)
    ensures Fits(cfg, Call(cfg, sp))
  {
    ComputedShape(cfg, sp);
    hide Computed, SameShape, ConfigFits;
  }

  /** What the kernel finds: of a region that is sent its first bytes are the host's, all others stay. */
  lemma ReceivedMeaning(cfg: Config, sp: Spec, i: nat, b: nat)
    requires Fits(cfg, sp) && i < |sp.server| && b < |sp.server[i]|
    ensures |Received(cfg, sp)[i]| == |sp.server[i]|
    ensures Received(cfg, sp)[i][b] ==
      if i < |cfg.inputs| && cfg.inputs[i] && (sp.calls == 0 || !cfg.singles[i]) && b < sp.limits[i]
      then sp.host[i][b] else sp.server[i][b]
  {
    hide ConfigFits;
    FitsLengths(cfg, sp, i);
  }

  lemma FitsLengths(cfg: Config, sp: Spec, i: nat)
    requires Fits(cfg, sp) && i < |sp.server|
    ensures |cfg.inputs| == |cfg.singles| == |cfg.lengths| == |sp.host| == |sp.limits| <= |sp.server|
    ensures i < |cfg.lengths| ==> |sp.server[i]| == cfg.lengths[i] == |sp.host[i]| && sp.limits[i] <= |sp.host[i]|
  {
    hide KernelFits;
    assert |sp.server[i]| == |Zeros(cfg.lengths + cfg.internals)[i]|;
  }

  /** What else an application does: each event changes what it names and nothing more. */
  lemma EventMeaning(cfg: Config, sp: Spec, e: Event)
    requires Fits(cfg, sp) && !e.Called?
    ensures var after := Happens(cfg, sp, e);
      match e
      case Wrote(i, data) => after == if i < |sp.host| then sp.(host := sp.host[i := data]) else sp
      case Limited(i, count) =>
        && after == sp.(limits := after.limits) && |after.limits| == |sp.limits|
        && forall k :: 0 <= k < |sp.limits| ==>
             after.limits[k] == if k != i || count > cfg.lengths[k] then sp.limits[k]
                                else if count < 0 then cfg.lengths[k] else count
      case Immediate(user) =>
        after == if |user| == 3 then sp.(user := user[0] as int + 0x100 * user[1] as int + 0x1_0000 * user[2] as int)
                 else sp
      case Called => true
  {
  }

  /** What a call means: outputs are the accelerator's result, everything else stays. */
  lemma CallMeaning(cfg: Config, sp: Spec, i: nat)
    requires Fits(cfg, sp) && i < |cfg.outputs|
    ensures var after := Call(cfg, sp);
      && i < |after.host| && i < |after.server|
      && after.host[i] == (if cfg.outputs[i] then after.server[i] else sp.host[i])
  {
    ComputedShape(cfg, sp);
    hide Computed, SameShape;
  }
}
