/** The example kernels in place, as functions on memory, and a run that repeats one of them. */
module Kernels {
  import opened Bytes
  import opened Context
  import opened Machine
  import opened Shadow
  import Cache
  import Refinement

  // ---------------------------------------------------------------- kernel 2

  function Raised(data: seq<byte>, n: nat): (r: seq<byte>)
    ensures |r| == |data|
  {
    seq(|data|, i requires 0 <= i < |data| => (data[i] + n) % 256)
  }

  /** Adds 2 to every byte of a region. */
  method RaiseInPlace(data: array<byte>)
    modifies data
    ensures data[..] == Raised(old(data[..]), 2)
  {
    ghost var was := data[..];
    for i := 0 to data.Length
      invariant forall k :: 0 <= k < i ==> data[k] == Raised(was, 2)[k]
      invariant forall k :: i <= k < data.Length ==> data[k] == was[k]
    {
      data[i] := (data[i] as int + 2) % 256;
    }
  }

  /** Kernel 2: every byte of every parameter region. */
  method RaiseRegions(regions: seq<array<byte>>)
    requires forall i, k :: 0 <= i < k < |regions| ==> regions[i] != regions[k]
    modifies regions
    ensures forall i :: 0 <= i < |regions| ==> regions[i][..] == Raised(old(regions[i][..]), 2)
  {
    for i := 0 to |regions|
      invariant forall k :: 0 <= k < i ==> regions[k][..] == Raised(old(regions[k][..]), 2)
      invariant forall k :: i <= k < |regions| ==> regions[k][..] == old(regions[k][..])
    {
      RaiseInPlace(regions[i]);
    }
  }

  /** Kernel 2 on all memory: the first `p` regions are parameters, internal regions keep their bytes. */
  function RaiseAll(mem: Memory, p: nat): (r: Memory)
    ensures SameShape(mem, r)
  {
    seq(|mem|, i requires 0 <= i < |mem| => if i < p then Raised(mem[i], 2) else mem[i])
  }

  lemma RaisedTwice(data: seq<byte>, m: nat, n: nat)
    ensures Raised(Raised(data, m), n) == Raised(data, m + n)
  {
  }

  // ---------------------------------------------------------------- kernel add

  /** The 32-bit word at index `k` of a buffer. */
  function WordAt(data: seq<byte>, k: nat): uint32
    requires 4 * k + 4 <= |data|
  {
    data[4 * k] as int + 0x100 * data[4 * k + 1] as int + 0x1_0000 * data[4 * k + 2] as int
    + 0x100_0000 * data[4 * k + 3] as int
  }

  /** The word is what a little-endian machine reads at its four bytes. */
  lemma WordIsLittleEndian(data: seq<byte>, k: nat)
    requires 4 * k + 4 <= |data|
    ensures WordAt(data, k) == FromLe(data[4 * k..4 * k + 4])
  {
    var s := data[4 * k..4 * k + 4];
    assert Pow256(1) == 0x100 && Pow256(2) == 0x1_0000 && Pow256(3) == 0x100_0000;
    assert s[..3][..2] == s[..2] && s[..2][..1] == s[..1] && s[..1][..0] == [];
    assert FromLe(s[..1]) == s[0];
    assert FromLe(s[..2]) == FromLe(s[..1]) + 0x100 * s[1] as int;
    assert FromLe(s[..3]) == FromLe(s[..2]) + 0x1_0000 * s[2] as int;
  }

  function LittleByte(w: uint32, j: nat): byte
    requires j < 4
  {
    if j == 0 then w % 0x100 else LittleByte(w / 0x100, j - 1)
  }

  lemma LittleWord(w: uint32, data: seq<byte>, k: nat)
    requires 4 * k + 4 <= |data|
    requires data[4 * k] == LittleByte(w, 0) && data[4 * k + 1] == LittleByte(w, 1)
    requires data[4 * k + 2] == LittleByte(w, 2) && data[4 * k + 3] == LittleByte(w, 3)
    ensures WordAt(data, k) == w
  {
    var q1 := w / 0x100;
    var q2 := q1 / 0x100;
    var q3 := q2 / 0x100;
    assert LittleByte(w, 1) == LittleByte(q1, 0) == q1 % 0x100;
    assert LittleByte(w, 2) == LittleByte(q1, 1) == LittleByte(q2, 0) == q2 % 0x100;
    assert LittleByte(w, 3) == LittleByte(q1, 2) == LittleByte(q2, 1) == LittleByte(q3, 0) == q3;
  }

  /** `c` with the wrapped sums of the words of `a` and `b` written over its first bytes. */
  function Added(a: seq<byte>, b: seq<byte>, c: seq<byte>): (r: seq<byte>)
    requires 4 * (|a| / 4) <= |b| && 4 * (|a| / 4) <= |c|
    ensures |r| == |c|
  {
    seq(|c|, x requires 0 <= x < |c| =>
      if x < 4 * (|a| / 4) then
        LittleByte((WordAt(a, x / 4) + WordAt(b, x / 4)) % 0x1_0000_0000, x % 4)
      else c[x])
  }

  lemma AddedByte(a: seq<byte>, b: seq<byte>, c: seq<byte>, k: nat, j: nat)
    requires 4 * (|a| / 4) <= |b| && 4 * (|a| / 4) <= |c| && k < |a| / 4 && j < 4
    ensures Added(a, b, c)[4 * k + j]
         == LittleByte((WordAt(a, k) + WordAt(b, k)) % 0x1_0000_0000, j)
  {
    hide WordAt, LittleByte;
    assert (4 * k + j) / 4 == k && (4 * k + j) % 4 == j;
  }

  lemma AddedTail(a: seq<byte>, b: seq<byte>, c: seq<byte>)
    requires 4 * (|a| / 4) <= |b| && 4 * (|a| / 4) <= |c|
    ensures Added(a, b, c)[4 * (|a| / 4)..] == c[4 * (|a| / 4)..]
  {
    hide WordAt, LittleByte;
  }

  /** Word by word the result is the sum modulo 2^32; bytes behind the last word stay. */
  lemma AddedWords(a: seq<byte>, b: seq<byte>, c: seq<byte>, k: nat)
    requires 4 * (|a| / 4) <= |b| && 4 * (|a| / 4) <= |c|
    ensures k < |a| / 4 ==>
      WordAt(Added(a, b, c), k) == (WordAt(a, k) + WordAt(b, k)) % 0x1_0000_0000
    ensures Added(a, b, c)[4 * (|a| / 4)..] == c[4 * (|a| / 4)..]
  {
    AddedTail(a, b, c);
    if k < |a| / 4 {
      AddedByte(a, b, c, k, 0);
      AddedByte(a, b, c, k, 1);
      AddedByte(a, b, c, k, 2);
      AddedByte(a, b, c, k, 3);
      hide Added, WordAt;
      LittleWord((WordAt(a, k) + WordAt(b, k)) % 0x1_0000_0000, Added(a, b, c), k);
    }
  }

  /** Three distinct buffers; `b` and `c` hold at least the words of `a`. */
  method AddInPlace(a: array<byte>, b: array<byte>, c: array<byte>)
    requires c != a && c != b && 4 * (a.Length / 4) <= b.Length && 4 * (a.Length / 4) <= c.Length
    modifies c
    ensures c[..] == Added(a[..], b[..], old(c[..]))
  {
    ghost var was, result := c[..], Added(a[..], b[..], c[..]);
    for i := 0 to a.Length / 4
      invariant forall x :: 0 <= x < 4 * i ==> c[x] == result[x]
      invariant forall x :: 4 * i <= x < c.Length ==> c[x] == was[x]
    {
      var w := (WordAt(a[..], i) + WordAt(b[..], i)) % 0x1_0000_0000;
      for j := 0 to 4
        invariant forall x :: 0 <= x < 4 * i + j ==> c[x] == result[x]
        invariant forall x :: 4 * i + j <= x < c.Length ==> c[x] == was[x]
      {
        assert (4 * i + j) / 4 == i && (4 * i + j) % 4 == j;
        c[4 * i + j] := LittleByte(w, j);
      }
    }
  }

  // ---------------------------------------------------------------- dispatch

  /** Return code and memory; kernel add also fails if its buffers cannot hold the sums. */
  function RpcFunction(p: nat, fncode: byte, mem: Memory): (r: (byte, Memory))
    ensures SameShape(mem, r.1)
  {
    if fncode == 1 then
      if p != 3 || |mem| < 3 || 4 * (|mem[0]| / 4) > |mem[1]| || 4 * (|mem[0]| / 4) > |mem[2]| then (1, mem)
      else (0, mem[2 := Added(mem[0], mem[1], mem[2])])
    else if fncode == 2 then (0, RaiseAll(mem, p))
    else if fncode == 3 then (0, mem)
    else (1, mem)
  }

  /** Buffers that kernel add can work on: three regions, the second and third hold the words of the first. */
  predicate AddFits(p: nat, mem: Memory) {
    p == 3 && |mem| >= 3 && 4 * (|mem[0]| / 4) <= |mem[1]| && 4 * (|mem[0]| / 4) <= |mem[2]|
  }

  /**
   * Kernel add succeeds exactly on such buffers: then every word of the third region is the wrapped
   * sum of those of the first two, its tail and all other regions stay; otherwise everything stays.
   */
  lemma {:induction false} AddDispatched(p: nat, mem: Memory, k: nat, r: nat)
    ensures var (code, after) := RpcFunction(p, 1, mem);
      && (code == 0 <==> AddFits(p, mem))
      && (code != 0 ==> code == 1 && after == mem)
      && (AddFits(p, mem) && k < |mem[0]| / 4 ==>
            WordAt(after[2], k) == (WordAt(mem[0], k) + WordAt(mem[1], k)) % 0x1_0000_0000)
      && (AddFits(p, mem) && 4 * (|mem[0]| / 4) <= k < |mem[2]| ==> after[2][k] == mem[2][k])
      && (r < |mem| && r != 2 ==> after[r] == mem[r])
  {
    if AddFits(p, mem) {
      AddedWords(mem[0], mem[1], mem[2], k);
      var n := 4 * (|mem[0]| / 4);
      if n <= k < |mem[2]| {
        assert Added(mem[0], mem[1], mem[2])[n..][k - n] == mem[2][n..][k - n];
      }
    }
    hide Added, WordAt;
  }

  /** Kernel 2 and the delay kernel always succeed, and an unknown code always fails and changes nothing. */
  lemma OthersDispatched(p: nat, fncode: byte, mem: Memory, r: nat, b: nat)
    requires fncode != 1 && r < |mem| && b < |mem[r]|
    ensures var (code, after) := RpcFunction(p, fncode, mem);
      && code == (if fncode == 2 || fncode == 3 then 0 else 1)
      && after[r][b] == (if fncode == 2 && r < p then (mem[r][b] as int + 2) % 256 else mem[r][b])
  {
  }

  /** The configuration runs the example kernels. */
  ghost predicate RunsExamples(cfg: Config) {
    && |cfg.inputs| == |cfg.outputs| == |cfg.singles| == |cfg.lengths|
    && forall f: byte, imm: uint32, mem: Memory :: cfg.kernel(f, imm, mem) == RpcFunction(|cfg.inputs|, f, mem)
  }

  /** The example kernels stay inside the buffers they are given. */
  lemma ExamplesFit(cfg: Config)
    requires RunsExamples(cfg)
    ensures KernelFits(cfg.kernel)
  {
    hide RpcFunction;
  }

  // ---------------------------------------------------------------- repeated calls of kernel 2

  /** What region `i` starts from on the accelerator: the host's bytes if it is an input, else zeros. */
  function Base(cfg: Config, start: Spec, i: nat): seq<byte>
    requires i < |cfg.inputs| == |cfg.lengths| <= |start.host|
  {
    if cfg.inputs[i] then start.host[i] else seq(cfg.lengths[i], _ => 0)
  }

  ghost predicate RaisedBy(cfg: Config, start: Spec, sp: Spec, i: nat, k: nat)
    requires i < |cfg.inputs| == |cfg.outputs| == |cfg.lengths| <= |start.host|
    requires i < |sp.host| && i < |sp.server|
  {
    if !cfg.outputs[i] then sp.host[i] == start.host[i]
    else if k == 0 then sp.host[i] == start.host[i] && sp.server[i] == seq(cfg.lengths[i], _ => 0)
    else sp.host[i] == sp.server[i] == Raised(Base(cfg, start, i), 2 * k)
  }

  /** The specification after `k` full-length calls of kernel 2. */
  ghost predicate CalledTimes(cfg: Config, start: Spec, sp: Spec, k: nat) {
    && RunsExamples(cfg) && Shadow.Fits(cfg, sp) && Shadow.Fits(cfg, start)
    && sp.calls == k && sp.fncode == 2 && sp.limits == cfg.lengths && |cfg.lengths| <= |sp.server|
    && forall i :: 0 <= i < |cfg.inputs| ==> RaisedBy(cfg, start, sp, i, k)
  }

  lemma OutputReceived(cfg: Config, start: Spec, sp: Spec, i: nat, k: nat)
    requires CalledTimes(cfg, start, sp, k) && i < |cfg.inputs| && cfg.outputs[i]
    ensures Received(cfg, sp)[i] == Raised(Base(cfg, start, i), 2 * k)
  {
    hide RpcFunction, KernelFits, SameShape;
    assert RaisedBy(cfg, start, sp, i, k) && |sp.host[i]| == cfg.lengths[i];
    assert |sp.server[i]| == cfg.lengths[i] by { ServerLength(cfg, sp, i); }
    CopiedWhole(sp.host[i], sp.server[i]);
    RaisedByNothing(Base(cfg, start, i));
  }

  lemma RaisedByNothing(data: seq<byte>)
    ensures Raised(data, 0) == data
  {
  }

  lemma ServerLength(cfg: Config, sp: Spec, i: nat)
    requires Shadow.Fits(cfg, sp) && i < |cfg.lengths|
    ensures |cfg.lengths| <= |sp.server| && |sp.server[i]| == cfg.lengths[i]
  {
    hide ConfigFits;
    assert |sp.server[i]| == |Zeros(cfg.lengths + cfg.internals)[i]|;
  }

  lemma OneMoreCall(cfg: Config, start: Spec, sp: Spec, k: nat)
    requires CalledTimes(cfg, start, sp, k)
    ensures CalledTimes(cfg, start, Call(cfg, sp), k + 1)
  {
    CallFits(cfg, sp);
    var after := Call(cfg, sp);
    assert after.server == RaiseAll(Received(cfg, sp), |cfg.inputs|);
    hide RunsExamples, Shadow.Fits, Received, Computed, ConfigFits;
    var n := k + 1;
    forall i | 0 <= i < |cfg.inputs|
      ensures RaisedBy(cfg, start, after, i, n)
    {
      assert RaisedBy(cfg, start, sp, i, k);
      if cfg.outputs[i] {
        OutputReceived(cfg, start, sp, i, k);
        RaisedTwice(Base(cfg, start, i), 2 * k, 2);
      }
    }
  }

  function Calls(k: nat): (events: seq<Event>)
    ensures |events| == k
  {
    seq(k, _ => Called)
  }

  lemma {:induction false} CallsRaise(cfg: Config, start: Spec, sp: Spec, done: nat, k: nat)
    requires CalledTimes(cfg, start, sp, done)
    ensures CalledTimes(cfg, start, Play(cfg, sp, Calls(k)), done + k)
    decreases k
  {
    hide CalledTimes, Call;
    if k > 0 {
      OneMoreCall(cfg, start, sp, done);
      assert Calls(k)[0] == Called && Calls(k)[1..] == Calls(k - 1);
      CallsRaise(cfg, start, Call(cfg, sp), done + 1, k - 1);
    }
  }

  lemma StartCalledTimes(cfg: Config, j: Joint)
    requires Initial(cfg, j) && RunsExamples(cfg) && j.host.ctx.fncode == 2
    requires Refinement.Start(cfg, j).limits == cfg.lengths
    ensures CalledTimes(cfg, Refinement.Start(cfg, j), Refinement.Start(cfg, j), 0)
  {
    Refinement.StartRefines(cfg, j);
    var start := Refinement.Start(cfg, j);
    Refinement.SpecFits(cfg, j, start);
    hide Initial, Refinement.Refines, RunsExamples;
    forall i | 0 <= i < |cfg.inputs|
      ensures |cfg.inputs| <= |start.server| && RaisedBy(cfg, start, start, i, 0)
    {
    }
  }

  /**
   * After k finished calls of kernel 2 on full-length regions: every byte of an output region is
   * 2k above what the accelerator started from, modulo 256, whether or not the input is sent
   * again on every call; every other host region is unchanged.
   */
  lemma RepeatedRaise(cfg: Config, j: Joint, steps: seq<Step>, k: nat, i: nat, b: nat)
    requires Initial(cfg, j) && Legal(cfg, j, steps) && RunsExamples(cfg) && j.host.ctx.fncode == 2
    requires Refinement.Start(cfg, j).limits == cfg.lengths
    requires Refinement.Trace(cfg, j, steps) == Calls(k) && k > 0
    requires Run(cfg, j, steps).host.ctx.state == Finished
    requires i < |cfg.lengths| && b < cfg.lengths[i]
    ensures var e := Run(cfg, j, steps);
      && i < |e.host.mem| && i < |j.host.mem| && b < |e.host.mem[i]| && b < |j.host.mem[i]|
      && e.host.mem[i][b] ==
           if !cfg.outputs[i] then j.host.mem[i][b]
           else ((if cfg.inputs[i] then j.host.mem[i][b] else 0) + 2 * k) % 256
  {
    hide Initial, Legal, Run, Refinement.Trace, Play;
    StartCalledTimes(cfg, j);
    var start := Refinement.Start(cfg, j);
    Refinement.RemoteCallRefinement(cfg, j, steps);
    CallsRaise(cfg, start, start, 0, k);
    hide Refinement.Start, Raised;
    RaisedRegion(cfg, start, Play(cfg, start, Calls(k)), i, k, b);
    assert start.host == j.host.mem by { StartHost(cfg, j); }
  }

  lemma StartHost(cfg: Config, j: Joint)
    ensures Refinement.Start(cfg, j).host == j.host.mem
  {
  }

  lemma RaisedRegion(cfg: Config, start: Spec, sp: Spec, i: nat, k: nat, b: nat)
    requires CalledTimes(cfg, start, sp, k) && k > 0 && i < |cfg.lengths| && b < cfg.lengths[i]
    ensures |cfg.outputs| == |cfg.inputs| == |cfg.lengths| == |sp.host| == |start.host|
    ensures b < |sp.host[i]| && b < |start.host[i]|
    ensures sp.host[i][b] ==
      if !cfg.outputs[i] then start.host[i][b]
      else ((if cfg.inputs[i] then start.host[i][b] else 0) + 2 * k) % 256
  {
    hide ConfigFits, SameShape;
    assert RaisedBy(cfg, start, sp, i, k);
  }

  // ---------------------------------------------------------------- repeated calls of kernel add

  /** Summing again into the same region changes nothing. */
  lemma AddedTwice(a: seq<byte>, b: seq<byte>, c: seq<byte>)
    requires 4 * (|a| / 4) <= |b| && 4 * (|a| / 4) <= |c|
    ensures Added(a, b, Added(a, b, c)) == Added(a, b, c)
  {
    hide WordAt, LittleByte;
  }

  /** Three regions, and the words of the first fit all of them. */
  predicate AddShape(cfg: Config, start: Spec) {
    && |cfg.inputs| == |cfg.outputs| == |cfg.singles| == |cfg.lengths| == |start.host| == 3
    && (forall i :: 0 <= i < 3 ==> |Base(cfg, start, i)| == |start.host[i]| == cfg.lengths[i])
    && 4 * (cfg.lengths[0] / 4) <= cfg.lengths[1] && 4 * (cfg.lengths[0] / 4) <= cfg.lengths[2]
  }

  ghost predicate RunsAdd(cfg: Config, start: Spec) {
    RunsExamples(cfg) && Shadow.Fits(cfg, start) && AddShape(cfg, start) && cfg.outputs[2]
  }

  lemma BaseLength(cfg: Config, start: Spec, i: nat)
    requires Shadow.Fits(cfg, start) && i < |cfg.lengths|
    ensures |cfg.inputs| == |cfg.outputs| == |cfg.singles| == |cfg.lengths| == |start.host|
    ensures |Base(cfg, start, i)| == |start.host[i]| == cfg.lengths[i]
  {
    hide KernelFits, SameShape;
  }

  /** What the third region holds after the first call. */
  function Sums(cfg: Config, start: Spec): seq<byte>
    requires AddShape(cfg, start)
  {
    Added(Base(cfg, start, 0), Base(cfg, start, 1), Base(cfg, start, 2))
  }

  /** The value of region `i` at the accelerator after `k` calls. */
  function Holding(cfg: Config, start: Spec, i: nat, k: nat): seq<byte>
    requires i < 3 && AddShape(cfg, start)
  {
    if i == 2 && k > 0 then Sums(cfg, start) else Base(cfg, start, i)
  }

  /** The specification after `k` full-length calls of kernel add. */
  ghost predicate Summed(cfg: Config, start: Spec, sp: Spec, k: nat) {
    && RunsAdd(cfg, start) && Shadow.Fits(cfg, sp)
    && sp.calls == k && sp.fncode == 1 && sp.limits == cfg.lengths && |sp.host| == 3 <= |sp.server|
    && (forall i :: 0 <= i < 3 ==> |sp.host[i]| == |sp.server[i]| == cfg.lengths[i])
    && forall i :: 0 <= i < 3 ==> SummedRegion(cfg, start, sp, i, k)
  }

  predicate SummedRegion(cfg: Config, start: Spec, sp: Spec, i: nat, k: nat)
    requires i < 3 == |sp.host| <= |sp.server| && AddShape(cfg, start)
  {
    && sp.host[i] == (if k > 0 && cfg.outputs[i] then Holding(cfg, start, i, k) else start.host[i])
    && sp.server[i] == (if k > 0 then Holding(cfg, start, i, k) else seq(cfg.lengths[i], _ => 0))
  }

  /** Whether or not it is sent again, a region reaches the kernel as it was left. */
  lemma SummedReceived(cfg: Config, start: Spec, sp: Spec, i: nat, k: nat)
    requires Summed(cfg, start, sp, k) && i < 3
    ensures Received(cfg, sp)[i] == Holding(cfg, start, i, k)
  {
    hide RunsExamples, Shadow.Fits, Added;
    assert SummedRegion(cfg, start, sp, i, k);
    CopiedWhole(sp.host[i], sp.server[i]);
  }

  lemma AddsInto(m: Memory)
    requires AddFits(3, m)
    ensures RpcFunction(3, 1, m).1 == m[2 := Added(m[0], m[1], m[2])]
  {
    hide Added;
  }

  lemma ComputedAdds(cfg: Config, sp: Spec)
    requires RunsExamples(cfg) && |cfg.inputs| == 3 && sp.fncode == 1
    ensures Computed(cfg, sp) == RpcFunction(3, 1, Received(cfg, sp)).1
  {
    hide RpcFunction, Received;
  }

  /** One more run on what the regions hold. */
  lemma HoldingsAdd(cfg: Config, start: Spec, m: Memory, k: nat)
    requires AddShape(cfg, start) && |m| >= 3 && forall i :: 0 <= i < 3 ==> m[i] == Holding(cfg, start, i, k)
    ensures AddFits(3, m)
    ensures var after := m[2 := Added(m[0], m[1], m[2])];
      forall i :: 0 <= i < 3 ==> after[i] == Holding(cfg, start, i, k + 1)
  {
    AddedTwice(Base(cfg, start, 0), Base(cfg, start, 1), Base(cfg, start, 2));
    hide Added, Base;
  }

  /** What the further steps need of the state. */
  lemma SummedFacts(cfg: Config, start: Spec, sp: Spec, k: nat)
    requires Summed(cfg, start, sp, k)
    ensures RunsExamples(cfg) && AddShape(cfg, start) && cfg.outputs[2] && sp.fncode == 1
    ensures |sp.host| == 3 <= |sp.server| && forall i :: 0 <= i < 3 ==> SummedRegion(cfg, start, sp, i, k)
  {
    hide RunsExamples, Shadow.Fits, AddShape, SummedRegion;
  }

  /** The kernel run of a further call. */
  lemma SummedComputed(cfg: Config, start: Spec, sp: Spec, k: nat)
    requires Summed(cfg, start, sp, k)
    ensures var m := Computed(cfg, sp);
      |m| == |sp.server| && forall i :: 0 <= i < 3 ==> m[i] == Holding(cfg, start, i, k + 1)
  {
    SummedFacts(cfg, start, sp, k);
    hide Summed, SummedRegion, RunsExamples, Received, Holding, AddFits, Added;
    SummedReceived(cfg, start, sp, 0, k);
    SummedReceived(cfg, start, sp, 1, k);
    SummedReceived(cfg, start, sp, 2, k);
    ComputedAdds(cfg, sp);
    hide RpcFunction, Computed, AddShape;
    HoldingsAdd(cfg, start, Received(cfg, sp), k);
    AddsInto(Received(cfg, sp));
  }

  lemma OneMoreSum(cfg: Config, start: Spec, sp: Spec, k: nat)
    requires Summed(cfg, start, sp, k)
    ensures Summed(cfg, start, Call(cfg, sp), k + 1)
  {
    CallFits(cfg, sp);
    SummedComputed(cfg, start, sp, k);
    hide RunsExamples, Shadow.Fits, Received, Computed, Holding, Base;
    var after, n := Call(cfg, sp), k + 1;
    forall i | 0 <= i < 3
      ensures |after.host[i]| == |after.server[i]| == cfg.lengths[i] && SummedRegion(cfg, start, after, i, n)
    {
      assert SummedRegion(cfg, start, sp, i, k);
      HoldingLength(cfg, start, i, n);
    }
  }

  lemma HoldingLength(cfg: Config, start: Spec, i: nat, k: nat)
    requires i < 3 && AddShape(cfg, start)
    ensures |Holding(cfg, start, i, k)| == cfg.lengths[i]
  {
  }

  lemma {:induction false} CallsSum(cfg: Config, start: Spec, sp: Spec, done: nat, k: nat)
    requires Summed(cfg, start, sp, done)
    ensures Summed(cfg, start, Play(cfg, sp, Calls(k)), done + k)
    decreases k
  {
    hide Summed, Call;
    if k > 0 {
      OneMoreSum(cfg, start, sp, done);
      assert Calls(k)[0] == Called && Calls(k)[1..] == Calls(k - 1);
      CallsSum(cfg, start, Call(cfg, sp), done + 1, k - 1);
    }
  }

  lemma StartSummed(cfg: Config, j: Joint)
    requires Initial(cfg, j) && RunsExamples(cfg) && j.host.ctx.fncode == 1
    requires Refinement.Start(cfg, j).limits == cfg.lengths && RunsAdd(cfg, Refinement.Start(cfg, j))
    ensures Summed(cfg, Refinement.Start(cfg, j), Refinement.Start(cfg, j), 0)
  {
    var start := Refinement.Start(cfg, j);
    hide Initial, RunsExamples, Added, ConfigFits, SameShape;
    ServerLength(cfg, start, 0);
    forall i | 0 <= i < 3
      ensures |start.server[i]| == cfg.lengths[i] && SummedRegion(cfg, start, start, i, 0)
    {
      ServerLength(cfg, start, i);
    }
  }

  /** The start of a connection with three regions whose third is an output. */
  lemma StartRunsAdd(cfg: Config, j: Joint)
    requires Initial(cfg, j) && RunsExamples(cfg) && |cfg.inputs| == 3 && cfg.outputs[2]
    requires 4 * (cfg.lengths[0] / 4) <= cfg.lengths[1] && 4 * (cfg.lengths[0] / 4) <= cfg.lengths[2]
    ensures RunsAdd(cfg, Refinement.Start(cfg, j))
  {
    Refinement.StartRefines(cfg, j);
    Refinement.SpecFits(cfg, j, Refinement.Start(cfg, j));
    BaseLength(cfg, Refinement.Start(cfg, j), 0);
    BaseLength(cfg, Refinement.Start(cfg, j), 1);
    BaseLength(cfg, Refinement.Start(cfg, j), 2);
    hide Initial, Refinement.Refines, RunsExamples, ConfigFits, SameShape;
  }

  /** Word `w` of an operand: the host's, or 0 if the region is no input. */
  function Operand(cfg: Config, mem: Memory, i: nat, w: nat): uint32
    requires i < |cfg.inputs| && i < |mem| && 4 * w + 4 <= |mem[i]|
  {
    if cfg.inputs[i] then WordAt(mem[i], w) else 0
  }

  lemma BaseWord(cfg: Config, start: Spec, i: nat, w: nat)
    requires i < |cfg.inputs| == |cfg.lengths| == |start.host|
    requires |start.host[i]| == cfg.lengths[i] && 4 * w + 4 <= cfg.lengths[i]
    ensures WordAt(Base(cfg, start, i), w) == Operand(cfg, start.host, i, w)
  {
  }

  /**
   * After k > 0 finished calls of kernel add on full-length regions every word of the third region
   * is the wrapped sum of the operands, the bytes behind them are what the accelerator started
   * from, and an operand that is an input is unchanged, whichever regions are sent only once.
   */
  lemma RepeatedAdd(cfg: Config, j: Joint, steps: seq<Step>, k: nat, w: nat, b: nat)
    requires Initial(cfg, j) && Legal(cfg, j, steps) && RunsExamples(cfg) && j.host.ctx.fncode == 1
    requires Refinement.Start(cfg, j).limits == cfg.lengths
    requires Refinement.Trace(cfg, j, steps) == Calls(k) && k > 0
    requires Run(cfg, j, steps).host.ctx.state == Finished
    requires |cfg.inputs| == |cfg.lengths| == 3 && cfg.outputs[2]
    requires 4 * (cfg.lengths[0] / 4) <= cfg.lengths[1] && 4 * (cfg.lengths[0] / 4) <= cfg.lengths[2]
    requires w < cfg.lengths[0] / 4 && 4 * (cfg.lengths[0] / 4) <= b
    ensures var e := Run(cfg, j, steps).host.mem;
      && |e| == |j.host.mem| == 3 && (forall i :: 0 <= i < 3 ==> |e[i]| == |j.host.mem[i]| == cfg.lengths[i])
      && WordAt(e[2], w) == (Operand(cfg, j.host.mem, 0, w) + Operand(cfg, j.host.mem, 1, w)) % 0x1_0000_0000
      && (b < |e[2]| ==> e[2][b] == if cfg.inputs[2] then j.host.mem[2][b] else 0)
      && forall i :: 0 <= i < 2 && (cfg.inputs[i] || !cfg.outputs[i]) ==> e[i] == j.host.mem[i]
  {
    hide Initial, Legal, Run, Refinement.Trace, Play;
    StartRunsAdd(cfg, j);
    StartSummed(cfg, j);
    var start := Refinement.Start(cfg, j);
    Refinement.RemoteCallRefinement(cfg, j, steps);
    CallsSum(cfg, start, start, 0, k);
    hide Refinement.Start, RunsAdd;
    SummedWords(cfg, start, Play(cfg, start, Calls(k)), k, w, b);
    assert start.host == j.host.mem by { StartHost(cfg, j); }
    hide *;
  }

  lemma SummedWords(cfg: Config, start: Spec, sp: Spec, k: nat, w: nat, b: nat)
    requires Summed(cfg, start, sp, k) && k > 0
    requires w < cfg.lengths[0] / 4 && 4 * (cfg.lengths[0] / 4) <= b
    ensures |sp.host| == |start.host| == |cfg.inputs| == |cfg.outputs| == 3
    ensures forall i :: 0 <= i < 3 ==> |sp.host[i]| == |start.host[i]| == cfg.lengths[i]
    ensures WordAt(sp.host[2], w)
         == (Operand(cfg, start.host, 0, w) + Operand(cfg, start.host, 1, w)) % 0x1_0000_0000
    ensures b < |sp.host[2]| ==> sp.host[2][b] == if cfg.inputs[2] then start.host[2][b] else 0
    ensures forall i :: 0 <= i < 2 && (cfg.inputs[i] || !cfg.outputs[i]) ==> sp.host[i] == start.host[i]
  {
    SummedFacts(cfg, start, sp, k);
    hide Summed, SummedRegion, WordAt, Operand, Sums, RunsExamples;
    SummedHost(cfg, start, sp, k);
    SumsWord(cfg, start, w);
    if b < cfg.lengths[2] {
      SumsTail(cfg, start, b);
    }
    hide Base;
  }

  lemma SummedHost(cfg: Config, start: Spec, sp: Spec, k: nat)
    requires AddShape(cfg, start) && cfg.outputs[2] && |sp.host| == 3 <= |sp.server| && k > 0
    requires forall i :: 0 <= i < 3 ==> SummedRegion(cfg, start, sp, i, k)
    ensures sp.host[2] == Sums(cfg, start) && |sp.host[0]| == |start.host[0]| && |sp.host[1]| == |start.host[1]|
    ensures forall i :: 0 <= i < 2 && (cfg.inputs[i] || !cfg.outputs[i]) ==> sp.host[i] == start.host[i]
  {
    hide Sums;
    assert SummedRegion(cfg, start, sp, 0, k) && SummedRegion(cfg, start, sp, 1, k);
    assert SummedRegion(cfg, start, sp, 2, k);
  }

  lemma SumsWord(cfg: Config, start: Spec, w: nat)
    requires AddShape(cfg, start) && w < cfg.lengths[0] / 4
    ensures WordAt(Sums(cfg, start), w)
         == (Operand(cfg, start.host, 0, w) + Operand(cfg, start.host, 1, w)) % 0x1_0000_0000
  {
    AddedWords(Base(cfg, start, 0), Base(cfg, start, 1), Base(cfg, start, 2), w);
    BaseWord(cfg, start, 0, w);
    BaseWord(cfg, start, 1, w);
    hide Added, WordAt, Base, Operand;
  }

  lemma SumsTail(cfg: Config, start: Spec, b: nat)
    requires AddShape(cfg, start) && 4 * (cfg.lengths[0] / 4) <= b < cfg.lengths[2]
    ensures Sums(cfg, start)[b] == if cfg.inputs[2] then start.host[2][b] else 0
  {
    var x, z := Base(cfg, start, 0), Base(cfg, start, 2);
    var n := 4 * (|x| / 4);
    AddedTail(x, Base(cfg, start, 1), z);
    hide Added;
    assert Sums(cfg, start)[n..][b - n] == z[n..][b - n];
  }

  // ---------------------------------------------------------------- single-send regions of the example kernels

  /** Kernel add changes its third region only, and of the others only kernel 2 changes anything. */
  lemma ExampleLeaves(p: nat, code: byte, mem: Memory, r: nat)
    requires code != 2 && (code == 1 ==> r != 2) && r < |mem|
    ensures RpcFunction(p, code, mem).1[r] == mem[r]
  {
  }

  /** The called code is not kernel 2, and kernel add does not sum into a region that is sent once and not returned. */
  predicate LeavesSentOnce(cfg: Config, fncode: byte) {
    && fncode % 0x80 != 2
    && (fncode % 0x80 == 1 && Cache.SentOnce(cfg, 2) ==> 2 < |cfg.outputs| && cfg.outputs[2])
  }

  lemma ExampleKeeps(cfg: Config, sp: Spec)
    requires RunsExamples(cfg) && LeavesSentOnce(cfg, sp.fncode)
    ensures Cache.KernelKeeps(cfg, sp)
  {
    var m := Received(cfg, sp);
    assert SameShape(m, RpcFunction(|cfg.inputs|, sp.fncode % 0x80, m).1);
    hide RpcFunction, Received;
    forall r | 0 <= r < |cfg.inputs| && r < |sp.server| && Cache.SentOnce(cfg, r) && !cfg.outputs[r]
      ensures Computed(cfg, sp)[r] == m[r]
    {
      ExampleLeaves(|cfg.inputs|, sp.fncode % 0x80, m, r);
    }
  }

  lemma {:induction false} ExamplesKeep(cfg: Config, sp: Spec, events: seq<Event>)
    requires RunsExamples(cfg) && LeavesSentOnce(cfg, sp.fncode)
    ensures Cache.KernelsKeep(cfg, sp, events)
    decreases |events|
  {
    if events != [] {
      ExampleKeeps(cfg, sp);
      SameCode(cfg, sp, events[0]);
      hide RunsExamples, Cache.KernelKeeps, Happens;
      ExamplesKeep(cfg, Happens(cfg, sp, events[0]), events[1..]);
    }
  }

  lemma SameCode(cfg: Config, sp: Spec, e: Event)
    ensures Happens(cfg, sp, e).fncode == sp.fncode
  {
    hide Computed, Returned;
  }

  /**
   * With the example kernels single-send regions are a correct cache for kernel add and for every
   * other code but kernel 2, if the application leaves them alone after the first call. Of the
   * three regions of kernel add at least one is sent on every call, as every connection needs: an
   * operand, or the region of the sum.
   */
  lemma ExamplesSendOnce(cfg: Config, j: Joint, steps: seq<Step>, j': Joint, steps': seq<Step>)
    requires RunsExamples(cfg) && LeavesSentOnce(cfg, j.host.ctx.fncode)
    requires Initial(cfg, j) && Legal(cfg, j, steps)
    requires Initial(Cache.Resending(cfg), j') && Legal(Cache.Resending(cfg), j', steps')
    requires Refinement.Start(cfg, j) == Refinement.Start(Cache.Resending(cfg), j')
    requires Refinement.Trace(cfg, j, steps) == Refinement.Trace(Cache.Resending(cfg), j', steps')
    requires Cache.StaysFixed(cfg, 0, Refinement.Trace(cfg, j, steps))
    requires Run(cfg, j, steps).host.ctx.state == Run(Cache.Resending(cfg), j', steps').host.ctx.state == Finished
    ensures Run(cfg, j, steps).host.mem == Run(Cache.Resending(cfg), j', steps').host.mem
    ensures Run(cfg, j, steps).server.mem == Run(Cache.Resending(cfg), j', steps').server.mem
  {
    assert Refinement.Start(cfg, j).fncode == j.host.ctx.fncode by { StartCode(cfg, j); }
    hide Initial, Legal, Run, Refinement.Start, Refinement.Trace, RunsExamples, Cache.KernelsKeep, Cache.StaysFixed,
      Cache.Resending;
    ExamplesKeep(cfg, Refinement.Start(cfg, j), Refinement.Trace(cfg, j, steps));
    Cache.FixedSendOnceIsCache(cfg, j, steps, j', steps');
  }

  lemma StartCode(cfg: Config, j: Joint)
    ensures Refinement.Start(cfg, j).fncode == j.host.ctx.fncode
  {
  }
}
