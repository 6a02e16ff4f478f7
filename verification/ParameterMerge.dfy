/** From the application's parameters to regions and marks: the middleware's handle creation. */
module ParameterMerge {
  import opened Bytes
  import opened Context
  import opened Machine
  import NetSteps
  import Settings
  import Host

  datatype Param = Param(addr: uint64, size: uint64, singleSend: bool)

  predicate HasAddress(params: seq<Param>, addr: uint64) {
    exists j :: 0 <= j < |params| && params[j].addr == addr
  }

  /** The outputs that are no inputs, in order. */
  function Extra(inputs: seq<Param>, outputs: seq<Param>): (r: seq<Param>)
    ensures |r| <= |outputs|
  {
    if outputs == [] then []
    else
      var n := |outputs| - 1;
      Extra(inputs, outputs[..n]) + if HasAddress(inputs, outputs[n].addr) then [] else [outputs[n]]
  }

  function Merged(inputs: seq<Param>, outputs: seq<Param>): seq<Param> {
    inputs + Extra(inputs, outputs)
  }

  // ---------------------------------------------------------------- building the region list

  /** The inner search: stops at the first input with the address. */
  method SearchInputs(inputs: seq<Param>, addr: uint64) returns (found: bool)
    ensures found <==> HasAddress(inputs, addr)
  {
    found := false;
    for j := 0 to |inputs|
      invariant !found && forall k :: 0 <= k < j ==> inputs[k].addr != addr
    {
      if inputs[j].addr == addr {
        found := true;
        break;
      }
    }
  }

  /** Compares every output with the inputs; `amount` is how many regions are needed. */
  method FindShared(inputs: seq<Param>, outputs: seq<Param>) returns (amount: nat, shared: array<bool>)
    ensures amount == |Merged(inputs, outputs)| && shared.Length == |outputs|
    ensures forall i :: 0 <= i < |outputs| ==> (shared[i] <==> HasAddress(inputs, outputs[i].addr))
  {
    shared := new bool[|outputs|](_ => false);
    amount := |inputs| + |outputs|;
    assert outputs[..0] == [];
    for i := 0 to |outputs|
      invariant amount == |inputs| + |Extra(inputs, outputs[..i])| + |outputs| - i
      invariant forall k :: 0 <= k < i ==> (shared[k] <==> HasAddress(inputs, outputs[k].addr))
      invariant forall k :: i <= k < |outputs| ==> !shared[k]
    {
      assert outputs[..i + 1][..i] == outputs[..i];
      var found := SearchInputs(inputs, outputs[i].addr);
      if found {
        amount := amount - 1;
        shared[i] := true;
      }
    }
    assert outputs[..|outputs|] == outputs;
  }

  lemma {:induction false} ExtraPrefix(inputs: seq<Param>, outputs: seq<Param>, i: nat)
    requires i <= |outputs|
    ensures Extra(inputs, outputs[..i]) <= Extra(inputs, outputs)
    decreases |outputs|
  {
    if i == |outputs| {
      assert outputs[..i] == outputs;
    } else {
      assert outputs[..|outputs| - 1][..i] == outputs[..i];
      ExtraPrefix(inputs, outputs[..|outputs| - 1], i);
    }
  }

  /** Looking at output `i` either adds it as the next extra region or adds nothing. */
  lemma ExtraStep(inputs: seq<Param>, outputs: seq<Param>, i: nat)
    requires i < |outputs|
    ensures var k := |Extra(inputs, outputs[..i])|;
      if HasAddress(inputs, outputs[i].addr) then |Extra(inputs, outputs[..i + 1])| == k
      else k < |Extra(inputs, outputs)| && Extra(inputs, outputs)[k] == outputs[i]
           && |Extra(inputs, outputs[..i + 1])| == k + 1
  {
    assert outputs[..i + 1][..i] == outputs[..i];
    ExtraPrefix(inputs, outputs, i + 1);
  }

  /** The indices of the outputs that are no inputs, in increasing order, and all of them. */
  predicate OutputsFrom(inputs: seq<Param>, outputs: seq<Param>, from: seq<nat>) {
    && (forall k :: 0 <= k < |from| ==> from[k] < |outputs| && !HasAddress(inputs, outputs[from[k]].addr))
    && (forall j, k :: 0 <= j < k < |from| ==> from[j] < from[k])
    && (forall i :: 0 <= i < |outputs| && !HasAddress(inputs, outputs[i].addr) ==> i in from)
  }

  lemma {:induction false} ExtraOrder(inputs: seq<Param>, outputs: seq<Param>) returns (from: seq<nat>)
    ensures OutputsFrom(inputs, outputs, from) && |from| == |Extra(inputs, outputs)|
    ensures forall k :: 0 <= k < |from| ==> Extra(inputs, outputs)[k] == outputs[from[k]]
  {
    hide HasAddress;
    if outputs == [] {
      from := [];
    } else {
      var n := |outputs| - 1;
      var init := ExtraOrder(inputs, outputs[..n]);
      from := init + if HasAddress(inputs, outputs[n].addr) then [] else [n];
      forall i | 0 <= i < |outputs| && !HasAddress(inputs, outputs[i].addr)
        ensures i in from
      {
        if i < n {
          assert outputs[..n][i] == outputs[i];
          assert i in init;
        } else {
          assert from[|init|] == n;
        }
      }
    }
  }

  /** The merged list: the inputs as they come, then the remaining outputs as they come. */
  lemma {:induction false} MergedOrder(inputs: seq<Param>, outputs: seq<Param>) returns (from: seq<nat>)
    ensures OutputsFrom(inputs, outputs, from) && |Merged(inputs, outputs)| == |inputs| + |from|
    ensures forall i :: 0 <= i < |inputs| ==> Merged(inputs, outputs)[i] == inputs[i]
    ensures forall k :: 0 <= k < |from| ==> Merged(inputs, outputs)[|inputs| + k] == outputs[from[k]]
  {
    from := ExtraOrder(inputs, outputs);
    hide OutputsFrom;
  }

  /**
   * The two fill loops: the inputs in their order, then the outputs that are no inputs in theirs.
   * `from` names the output behind each of the further regions.
   */
  method FillRegions(inputs: seq<Param>, outputs: seq<Param>, amount: nat, shared: array<bool>)
    returns (addrs: array<uint64>, sizes: array<uint64>, ghost from: seq<nat>)
    requires amount == |Merged(inputs, outputs)| && shared.Length == |outputs|
    requires forall i :: 0 <= i < |outputs| ==> (shared[i] <==> HasAddress(inputs, outputs[i].addr))
    ensures addrs.Length == sizes.Length == amount
    ensures forall k :: 0 <= k < amount ==>
      addrs[k] == Merged(inputs, outputs)[k].addr && sizes[k] == Merged(inputs, outputs)[k].size
    ensures forall i :: 0 <= i < |inputs| ==> addrs[i] == inputs[i].addr && sizes[i] == inputs[i].size
    ensures OutputsFrom(inputs, outputs, from) && |inputs| + |from| == amount
    ensures forall k :: 0 <= k < |from| ==>
      addrs[|inputs| + k] == outputs[from[k]].addr && sizes[|inputs| + k] == outputs[from[k]].size
  {
    ghost var merged := Merged(inputs, outputs);
    from := MergedOrder(inputs, outputs);
    addrs, sizes := new uint64[amount], new uint64[amount];
    for i := 0 to |inputs|
      invariant forall k :: 0 <= k < i ==> addrs[k] == merged[k].addr && sizes[k] == merged[k].size
    {
      addrs[i], sizes[i] := inputs[i].addr, inputs[i].size;
    }
    var idx := 0;
    assert outputs[..0] == [];
    for i := 0 to |outputs|
      invariant idx == |Extra(inputs, outputs[..i])| && |inputs| + idx <= amount
      invariant forall k :: 0 <= k < |inputs| + idx ==> addrs[k] == merged[k].addr && sizes[k] == merged[k].size
    {
      ExtraStep(inputs, outputs, i);
      if !shared[i] {
        addrs[|inputs| + idx], sizes[|inputs| + idx] := outputs[i].addr, outputs[i].size;
        idx := idx + 1;
      }
    }
    assert outputs[..|outputs|] == outputs;
  }

  // ---------------------------------------------------------------- marking the regions

  /** Marks the first region with the parameter's address as input, or fails. */
  function MarkInput(c: Comm, p: Param): Outcome
    requires |c.local| == |c.peer|
  {
    match FindRegion(c.local, p.addr)
    case None => Outcome(c, false)
    case Some(j) => Host.SetInput(if p.singleSend then Host.SetSingleSend(c, j).ctx else c, j)
  }

  function MarkOutput(c: Comm, p: Param): Outcome
    requires |c.local| == |c.peer|
  {
    match FindRegion(c.local, p.addr)
    case None => Outcome(c, false)
    case Some(j) => Host.SetOutput(if p.singleSend then Host.SetSingleSend(c, j).ctx else c, j)
  }

  function MarkInputs(c: Comm, ps: seq<Param>): (o: Outcome)
    requires |c.local| == |c.peer|
    ensures |o.ctx.local| == |o.ctx.peer|
  {
    if ps == [] then Outcome(c, true)
    else
      var o := MarkInputs(c, ps[..|ps| - 1]);
      if !o.ok then o else MarkInput(o.ctx, ps[|ps| - 1])
  }

  function MarkOutputs(c: Comm, ps: seq<Param>): (o: Outcome)
    requires |c.local| == |c.peer|
    ensures |o.ctx.local| == |o.ctx.peer|
  {
    if ps == [] then Outcome(c, true)
    else
      var o := MarkOutputs(c, ps[..|ps| - 1]);
      if !o.ok then o else MarkOutput(o.ctx, ps[|ps| - 1])
  }

  function MarkAll(c: Comm, inputs: seq<Param>, outputs: seq<Param>): Outcome
    requires |c.local| == |c.peer|
  {
    var o := MarkInputs(c, inputs);
    if !o.ok then o else MarkOutputs(o.ctx, outputs)
  }

  /** Some parameter's address is first found at region `r`. */
  predicate Hits(local: seq<LocalRegion>, ps: seq<Param>, r: nat, single: bool) {
    exists i :: 0 <= i < |ps| && FindRegion(local, ps[i].addr) == Some(r) && (single ==> ps[i].singleSend)
  }

  predicate SameAddresses(a: seq<LocalRegion>, b: seq<LocalRegion>) {
    |a| == |b| && forall i :: 0 <= i < |a| ==> a[i].addr == b[i].addr
  }

  lemma {:induction false} FindByAddress(a: seq<LocalRegion>, b: seq<LocalRegion>, addr: uint64)
    requires SameAddresses(a, b)
    ensures FindRegion(a, addr) == FindRegion(b, addr)
  {
    if a != [] {
      FindByAddress(a[..|a| - 1], b[..|b| - 1], addr);
    }
  }

  /** The marks after some inputs, against the context before them. */
  predicate InputMarks(c: Comm, d: Comm, ps: seq<Param>) {
    && SameAddresses(c.local, d.local) && d.peer == c.peer && |c.local| == |c.peer|
    && forall r :: 0 <= r < |c.local| ==>
         && (d.local[r].toWrite <==> (c.local[r].toWrite || Hits(c.local, ps, r, false)))
         && (d.local[r].singleSend <==> (c.local[r].singleSend || Hits(c.local, ps, r, true)))
  }

  predicate OutputMarks(c: Comm, d: Comm, ps: seq<Param>) {
    && SameAddresses(c.local, d.local) && |c.local| == |c.peer| == |d.peer|
    && forall r :: 0 <= r < |c.local| ==>
         && (d.peer[r].toWrite <==> (c.peer[r].toWrite || Hits(c.local, ps, r, false)))
         && (d.local[r].toWrite <==> (c.local[r].toWrite || Hits(c.local, ps, r, true)))
         && (d.local[r].singleSend <==> (c.local[r].singleSend || Hits(c.local, ps, r, true)))
  }

  lemma HitsNext(local: seq<LocalRegion>, ps: seq<Param>, r: nat, single: bool)
    requires ps != []
    ensures var p := ps[|ps| - 1];
      Hits(local, ps, r, single) <==> (Hits(local, ps[..|ps| - 1], r, single)
        || (FindRegion(local, p.addr) == Some(r) && (single ==> p.singleSend)))
  {
    hide FindRegion;
    var init, n := ps[..|ps| - 1], |ps| - 1;
    if Hits(local, ps, r, single) {
      var i :| 0 <= i < |ps| && FindRegion(local, ps[i].addr) == Some(r) && (single ==> ps[i].singleSend);
      if i < n {
        assert init[i] == ps[i];
      }
    }
    if Hits(local, init, r, single) {
      var i :| 0 <= i < |init| && FindRegion(local, init[i].addr) == Some(r) && (single ==> init[i].singleSend);
      assert ps[i] == init[i];
    }
    if FindRegion(local, ps[n].addr) == Some(r) && (single ==> ps[n].singleSend) {
      assert Hits(local, ps, r, single);
    }
  }

  lemma {:induction false} InputsMarked(c: Comm, ps: seq<Param>)
    requires |c.local| == |c.peer|
    requires forall i :: 0 <= i < |ps| ==> FindRegion(c.local, ps[i].addr).Some?
    ensures MarkInputs(c, ps).ok && InputMarks(c, MarkInputs(c, ps).ctx, ps)
  {
    if ps != [] {
      var n := |ps| - 1;
      InputsMarked(c, ps[..n]);
      var d := MarkInputs(c, ps[..n]).ctx;
      FindByAddress(c.local, d.local, ps[n].addr);
      InputMarked(c, d, ps);
    }
  }

  /** What marking region `j` for one parameter changes. */
  lemma InputFlags(d: Comm, p: Param, j: nat)
    requires |d.local| == |d.peer| && j < |d.local|
    ensures var o := Host.SetInput(if p.singleSend then Host.SetSingleSend(d, j).ctx else d, j);
      && o.ok && o.ctx.peer == d.peer && SameAddresses(d.local, o.ctx.local)
      && forall r :: 0 <= r < |d.local| ==>
           && (o.ctx.local[r].toWrite <==> (d.local[r].toWrite || r == j))
           && (o.ctx.local[r].singleSend <==> (d.local[r].singleSend || (r == j && p.singleSend)))
  {
  }

  lemma OutputFlags(d: Comm, p: Param, j: nat)
    requires |d.local| == |d.peer| && j < |d.local|
    ensures var o := Host.SetOutput(if p.singleSend then Host.SetSingleSend(d, j).ctx else d, j);
      && o.ok && |o.ctx.peer| == |d.peer| && SameAddresses(d.local, o.ctx.local)
      && forall r :: 0 <= r < |d.local| ==>
           && (o.ctx.peer[r].toWrite <==> (d.peer[r].toWrite || r == j))
           && (o.ctx.local[r].toWrite <==> (d.local[r].toWrite || (r == j && p.singleSend)))
           && (o.ctx.local[r].singleSend <==> (d.local[r].singleSend || (r == j && p.singleSend)))
  {
  }

  lemma InputMarked(c: Comm, d: Comm, ps: seq<Param>)
    requires ps != [] && InputMarks(c, d, ps[..|ps| - 1]) && |d.local| == |d.peer|
    requires var f := FindRegion(c.local, ps[|ps| - 1].addr); f.Some? && f == FindRegion(d.local, ps[|ps| - 1].addr)
    ensures var o := MarkInput(d, ps[|ps| - 1]); o.ok && InputMarks(c, o.ctx, ps)
  {
    hide Hits, FindRegion, Host.SetInput, Host.SetOutput, Host.SetSingleSend;
    var p, init := ps[|ps| - 1], ps[..|ps| - 1];
    InputFlags(d, p, FindRegion(d.local, p.addr).value);
    var e := MarkInput(d, p).ctx;
    forall r | 0 <= r < |c.local|
      ensures Hits(c.local, ps, r, false) <==> Hits(c.local, init, r, false) || FindRegion(c.local, p.addr).value == r
      ensures Hits(c.local, ps, r, true)
         <==> Hits(c.local, init, r, true) || (FindRegion(c.local, p.addr).value == r && p.singleSend)
    {
      HitsNext(c.local, ps, r, false);
      HitsNext(c.local, ps, r, true);
    }
  }

  lemma {:induction false} OutputsMarked(c: Comm, ps: seq<Param>)
    requires |c.local| == |c.peer|
    requires forall i :: 0 <= i < |ps| ==> FindRegion(c.local, ps[i].addr).Some?
    ensures MarkOutputs(c, ps).ok && OutputMarks(c, MarkOutputs(c, ps).ctx, ps)
  {
    if ps != [] {
      var n := |ps| - 1;
      OutputsMarked(c, ps[..n]);
      var d := MarkOutputs(c, ps[..n]).ctx;
      FindByAddress(c.local, d.local, ps[n].addr);
      OutputMarked(c, d, ps);
    }
  }

  lemma OutputMarked(c: Comm, d: Comm, ps: seq<Param>)
    requires ps != [] && OutputMarks(c, d, ps[..|ps| - 1]) && |d.local| == |d.peer|
    requires var f := FindRegion(c.local, ps[|ps| - 1].addr); f.Some? && f == FindRegion(d.local, ps[|ps| - 1].addr)
    ensures var o := MarkOutput(d, ps[|ps| - 1]); o.ok && OutputMarks(c, o.ctx, ps)
  {
    hide Hits, FindRegion, Host.SetInput, Host.SetOutput, Host.SetSingleSend;
    var p, init := ps[|ps| - 1], ps[..|ps| - 1];
    OutputFlags(d, p, FindRegion(d.local, p.addr).value);
    var e := MarkOutput(d, p).ctx;
    forall r | 0 <= r < |c.local|
      ensures Hits(c.local, ps, r, false) <==> Hits(c.local, init, r, false) || FindRegion(c.local, p.addr).value == r
      ensures Hits(c.local, ps, r, true)
         <==> Hits(c.local, init, r, true) || (FindRegion(c.local, p.addr).value == r && p.singleSend)
    {
      HitsNext(c.local, ps, r, false);
      HitsNext(c.local, ps, r, true);
    }
  }

  // ---------------------------------------------------------------- the marking loops

  lemma {:induction false} FindFirst(local: seq<LocalRegion>, addr: uint64, j: nat)
    requires j < |local| && local[j].addr == addr && FindRegion(local[..j], addr).None?
    ensures FindRegion(local, addr) == Some(j)
    decreases |local|
  {
    var n := |local| - 1;
    if j < n {
      assert local[..n][..j] == local[..j];
      FindFirst(local[..n], addr, j);
    }
  }

  /** The first region with the address. */
  method Locate(c: CommContext, addr: uint64) returns (r: Option<nat>)
    requires c.Valid()
    ensures r == FindRegion(c.mrLocal[..], addr)
    ensures r.Some? ==>
      && r.value < c.mrLocal.Length && c.mrLocal[r.value].addr == addr
      && forall m :: 0 <= m < r.value ==> c.mrLocal[m].addr != addr
    ensures r.None? ==> forall m :: 0 <= m < c.mrLocal.Length ==> c.mrLocal[m].addr != addr
  {
    ghost var local := c.mrLocal[..];
    for j := 0 to c.mrLocal.Length
      invariant FindRegion(local[..j], addr).None?
      invariant forall m :: 0 <= m < j ==> c.mrLocal[m].addr != addr
    {
      if c.mrLocal[j].addr == addr {
        FindFirst(local, addr, j);
        return Some(j);
      }
      assert local[..j + 1][..j] == local[..j];
    }
    assert local[..|local|] == local;
    r := None;
  }

  method MarkInputParam(c: CommContext, p: Param) returns (ok: bool)
    requires c.Valid()
    modifies c`noInput, c.mrLocal
    ensures c.Valid() && Outcome(c.View(), ok) == MarkInput(old(c.View()), p)
  {
    var found := Locate(c, p.addr);
    if found.None? {
      return false;
    }
    if p.singleSend {
      ok := Host.SetSingleSendMr(c, found.value);
      if !ok {
        return;
      }
    }
    ok := Host.SetInputMr(c, found.value);
  }

  method MarkOutputParam(c: CommContext, p: Param) returns (ok: bool)
    requires c.Valid()
    modifies c`noInput, c`noOutput, c.mrLocal, c.mrPeer
    ensures c.Valid() && Outcome(c.View(), ok) == MarkOutput(old(c.View()), p)
  {
    var found := Locate(c, p.addr);
    if found.None? {
      return false;
    }
    if p.singleSend {
      ok := Host.SetSingleSendMr(c, found.value);
      if !ok {
        return;
      }
    }
    ok := Host.SetOutputMr(c, found.value);
  }

  lemma {:induction false} InputsStop(c: Comm, ps: seq<Param>, i: nat)
    requires |c.local| == |c.peer| && i <= |ps| && !MarkInputs(c, ps[..i]).ok
    ensures MarkInputs(c, ps) == MarkInputs(c, ps[..i])
    decreases |ps|
  {
    if i == |ps| {
      assert ps[..i] == ps;
    } else {
      assert ps[..|ps| - 1][..i] == ps[..i];
      InputsStop(c, ps[..|ps| - 1], i);
    }
  }

  lemma {:induction false} OutputsStop(c: Comm, ps: seq<Param>, i: nat)
    requires |c.local| == |c.peer| && i <= |ps| && !MarkOutputs(c, ps[..i]).ok
    ensures MarkOutputs(c, ps) == MarkOutputs(c, ps[..i])
    decreases |ps|
  {
    if i == |ps| {
      assert ps[..i] == ps;
    } else {
      assert ps[..|ps| - 1][..i] == ps[..i];
      OutputsStop(c, ps[..|ps| - 1], i);
    }
  }

  method MarkInputParams(c: CommContext, ps: seq<Param>) returns (ok: bool)
    requires c.Valid()
    modifies c`noInput, c.mrLocal
    ensures c.Valid() && Outcome(c.View(), ok) == MarkInputs(old(c.View()), ps)
  {
    ghost var start := c.View();
    for i := 0 to |ps|
      invariant c.Valid() && Outcome(c.View(), true) == MarkInputs(start, ps[..i])
    {
      assert ps[..i + 1][..i] == ps[..i];
      ok := MarkInputParam(c, ps[i]);
      if !ok {
        InputsStop(start, ps, i + 1);
        return;
      }
    }
    assert ps[..|ps|] == ps;
    ok := true;
  }

  method MarkOutputParams(c: CommContext, ps: seq<Param>) returns (ok: bool)
    requires c.Valid()
    modifies c`noInput, c`noOutput, c.mrLocal, c.mrPeer
    ensures c.Valid() && Outcome(c.View(), ok) == MarkOutputs(old(c.View()), ps)
  {
    ghost var start := c.View();
    for i := 0 to |ps|
      invariant c.Valid() && Outcome(c.View(), true) == MarkOutputs(start, ps[..i])
    {
      assert ps[..i + 1][..i] == ps[..i];
      ok := MarkOutputParam(c, ps[i]);
      if !ok {
        OutputsStop(start, ps, i + 1);
        return;
      }
    }
    assert ps[..|ps|] == ps;
    ok := true;
  }

  method MarkParameters(c: CommContext, inputs: seq<Param>, outputs: seq<Param>) returns (ok: bool)
    requires c.Valid()
    modifies c`noInput, c`noOutput, c.mrLocal, c.mrPeer
    ensures c.Valid() && Outcome(c.View(), ok) == MarkAll(old(c.View()), inputs, outputs)
  {
    ok := MarkInputParams(c, inputs);
    if ok {
      ok := MarkOutputParams(c, outputs);
    }
  }

  // ---------------------------------------------------------------- what the application gets

  predicate HasSingle(params: seq<Param>, addr: uint64) {
    exists j :: 0 <= j < |params| && params[j].addr == addr && params[j].singleSend
  }

  /** The regions of a context just initialised with the merged parameters. */
  predicate HoldsMerged(c: Comm, inputs: seq<Param>, outputs: seq<Param>) {
    && |c.local| == |c.peer| == |Merged(inputs, outputs)|
    && forall r :: 0 <= r < |c.local| ==>
         && c.local[r].addr == Merged(inputs, outputs)[r].addr
         && !c.local[r].toWrite && !c.local[r].singleSend && !c.peer[r].toWrite
  }

  lemma {:induction false} ExtraHas(inputs: seq<Param>, outputs: seq<Param>, i: nat)
    requires i < |outputs|
    ensures HasAddress(inputs, outputs[i].addr) || HasAddress(Extra(inputs, outputs), outputs[i].addr)
  {
    var n := |outputs| - 1;
    if i < n {
      ExtraHas(inputs, outputs[..n], i);
      if HasAddress(Extra(inputs, outputs[..n]), outputs[i].addr) {
        var j :| 0 <= j < |Extra(inputs, outputs[..n])| && Extra(inputs, outputs[..n])[j].addr == outputs[i].addr;
        assert Extra(inputs, outputs)[j].addr == outputs[i].addr;
      }
    } else if !HasAddress(inputs, outputs[n].addr) {
      var k := |Extra(inputs, outputs)| - 1;
      assert Extra(inputs, outputs)[k] == outputs[n];
    }
  }

  lemma {:induction false} Found(local: seq<LocalRegion>, addr: uint64, r: nat)
    requires r < |local| && local[r].addr == addr
    ensures FindRegion(local, addr).Some?
  {
    if r < |local| - 1 {
      Found(local[..|local| - 1], addr, r);
    }
  }

  /** Every parameter is found among the regions. */
  lemma AllFound(c: Comm, inputs: seq<Param>, outputs: seq<Param>)
    requires HoldsMerged(c, inputs, outputs)
    ensures forall i :: 0 <= i < |inputs| ==> FindRegion(c.local, inputs[i].addr).Some?
    ensures forall i :: 0 <= i < |outputs| ==> FindRegion(c.local, outputs[i].addr).Some?
  {
    forall i | 0 <= i < |inputs|
      ensures FindRegion(c.local, inputs[i].addr).Some?
    {
      assert Merged(inputs, outputs)[i] == inputs[i];
      Found(c.local, inputs[i].addr, i);
    }
    forall i | 0 <= i < |outputs|
      ensures FindRegion(c.local, outputs[i].addr).Some?
    {
      ExtraHas(inputs, outputs, i);
      if HasAddress(inputs, outputs[i].addr) {
        var j :| 0 <= j < |inputs| && inputs[j].addr == outputs[i].addr;
        assert Merged(inputs, outputs)[j] == inputs[j];
        Found(c.local, outputs[i].addr, j);
      } else {
        var j :| 0 <= j < |Extra(inputs, outputs)| && Extra(inputs, outputs)[j].addr == outputs[i].addr;
        assert Merged(inputs, outputs)[|inputs| + j] == Extra(inputs, outputs)[j];
        Found(c.local, outputs[i].addr, |inputs| + j);
      }
    }
  }

  /** With distinct addresses, a region is hit exactly by the parameters that have its address. */
  lemma HitsByAddress(local: seq<LocalRegion>, ps: seq<Param>, r: nat)
    requires DistinctAddresses(local) && r < |local|
    ensures Hits(local, ps, r, false) <==> HasAddress(ps, local[r].addr)
    ensures Hits(local, ps, r, true) <==> HasSingle(ps, local[r].addr)
  {
    NetSteps.FindsRegion(local, r);
  }

  /**
   * The merge and the marking, for distinct addresses: every parameter is found, a region is an
   * input exactly if some input or some single-send output has its address, and an output exactly
   * if some output has it; the counters agree with the marks.
   */
  lemma MarksAsRequested(c: Comm, inputs: seq<Param>, outputs: seq<Param>, r: nat)
    requires HoldsMerged(c, inputs, outputs) && DistinctAddresses(c.local) && r < |c.local|
    ensures var o := MarkAll(c, inputs, outputs);
      && o.ok && |o.ctx.local| == |o.ctx.peer| == |c.local| && o.ctx.local[r].addr == c.local[r].addr
      && var a := c.local[r].addr;
      && (o.ctx.local[r].toWrite <==> (HasAddress(inputs, a) || HasSingle(outputs, a)))
      && (o.ctx.local[r].singleSend <==> (HasSingle(inputs, a) || HasSingle(outputs, a)))
      && (o.ctx.peer[r].toWrite <==> HasAddress(outputs, a))
  {
    hide HasAddress, HasSingle, Hits, FindRegion;
    AllFound(c, inputs, outputs);
    InputsMarked(c, inputs);
    var d := MarkInputs(c, inputs).ctx;
    forall i | 0 <= i < |outputs|
      ensures FindRegion(d.local, outputs[i].addr).Some?
    {
      FindByAddress(c.local, d.local, outputs[i].addr);
    }
    OutputsMarked(d, outputs);
    HitsByAddress(c.local, inputs, r);
    HitsByAddress(d.local, outputs, r);
  }

  lemma {:induction false} InputsCounted(c: Comm, ps: seq<Param>)
    requires Settings.Consistent(c)
    ensures Settings.Consistent(MarkInputs(c, ps).ctx)
  {
    assert |c.local| == |c.peer|;
    hide Settings.Consistent, Host.SetInput, Host.SetSingleSend;
    if ps != [] {
      InputsCounted(c, ps[..|ps| - 1]);
      var d := MarkInputs(c, ps[..|ps| - 1]).ctx;
      var f := FindRegion(d.local, ps[|ps| - 1].addr);
      if f.Some? {
        Settings.SingleSendKeeps(d, f.value);
        Settings.InputKeeps(d, f.value);
        Settings.InputKeeps(Host.SetSingleSend(d, f.value).ctx, f.value);
      }
    }
  }

  lemma {:induction false} OutputsCounted(c: Comm, ps: seq<Param>)
    requires Settings.Consistent(c)
    ensures Settings.Consistent(MarkOutputs(c, ps).ctx)
  {
    assert |c.local| == |c.peer|;
    hide Settings.Consistent, Host.SetOutput, Host.SetSingleSend;
    if ps != [] {
      OutputsCounted(c, ps[..|ps| - 1]);
      var d := MarkOutputs(c, ps[..|ps| - 1]).ctx;
      var f := FindRegion(d.local, ps[|ps| - 1].addr);
      if f.Some? {
        Settings.SingleSendKeeps(d, f.value);
        Settings.OutputKeeps(d, f.value);
        Settings.OutputKeeps(Host.SetSingleSend(d, f.value).ctx, f.value);
      }
    }
  }

  /** Some region has the parameter's address. */
  predicate HasRegion(local: seq<LocalRegion>, p: Param) {
    exists r :: 0 <= r < |local| && local[r].addr == p.addr
  }

  lemma FoundIff(local: seq<LocalRegion>, p: Param)
    ensures FindRegion(local, p.addr).Some? <==> HasRegion(local, p)
  {
    hide FindRegion;
    if HasRegion(local, p) {
      var r :| 0 <= r < |local| && local[r].addr == p.addr;
      Found(local, p.addr, r);
    }
  }

  lemma {:induction false} InputsOkIff(c: Comm, ps: seq<Param>)
    requires |c.local| == |c.peer|
    ensures var o := MarkInputs(c, ps);
      && SameAddresses(c.local, o.ctx.local)
      && (o.ok <==> forall i :: 0 <= i < |ps| ==> HasRegion(c.local, ps[i]))
  {
    hide HasRegion, FindRegion, Host.SetInput, Host.SetSingleSend;
    if ps != [] {
      var n := |ps| - 1;
      InputsOkIff(c, ps[..n]);
      var d := MarkInputs(c, ps[..n]).ctx;
      FindByAddress(c.local, d.local, ps[n].addr);
      FoundIff(c.local, ps[n]);
      if FindRegion(d.local, ps[n].addr).Some? {
        InputFlags(d, ps[n], FindRegion(d.local, ps[n].addr).value);
      }
    }
  }

  lemma {:induction false} OutputsOkIff(c: Comm, ps: seq<Param>)
    requires |c.local| == |c.peer|
    ensures MarkOutputs(c, ps).ok <==> forall i :: 0 <= i < |ps| ==> HasRegion(c.local, ps[i])
    ensures SameAddresses(c.local, MarkOutputs(c, ps).ctx.local)
  {
    hide HasRegion, FindRegion, Host.SetOutput, Host.SetSingleSend;
    if ps != [] {
      var n := |ps| - 1;
      OutputsOkIff(c, ps[..n]);
      var d := MarkOutputs(c, ps[..n]).ctx;
      FindByAddress(c.local, d.local, ps[n].addr);
      FoundIff(c.local, ps[n]);
      if FindRegion(d.local, ps[n].addr).Some? {
        OutputFlags(d, ps[n], FindRegion(d.local, ps[n].addr).value);
      }
    }
  }

  /** Marking succeeds exactly if every parameter has a region with its address. */
  lemma {:induction false} MarkingOkIff(c: Comm, inputs: seq<Param>, outputs: seq<Param>)
    requires |c.local| == |c.peer|
    ensures MarkAll(c, inputs, outputs).ok <==>
      && (forall i :: 0 <= i < |inputs| ==> HasRegion(c.local, inputs[i]))
      && (forall i :: 0 <= i < |outputs| ==> HasRegion(c.local, outputs[i]))
  {
    InputsOkIff(c, inputs);
    var d := MarkInputs(c, inputs).ctx;
    OutputsOkIff(d, outputs);
    hide MarkInputs, MarkOutputs;
    forall i | 0 <= i < |outputs|
      ensures HasRegion(d.local, outputs[i]) <==> HasRegion(c.local, outputs[i])
    {
      SameRegions(c.local, d.local, outputs[i]);
    }
  }

  lemma {:induction false} SameRegions(a: seq<LocalRegion>, b: seq<LocalRegion>, p: Param)
    requires SameAddresses(a, b)
    ensures HasRegion(a, p) <==> HasRegion(b, p)
  {
    if HasRegion(a, p) {
      var r :| 0 <= r < |a| && a[r].addr == p.addr;
      assert b[r].addr == p.addr;
    }
    if HasRegion(b, p) {
      var r :| 0 <= r < |b| && b[r].addr == p.addr;
      assert a[r].addr == p.addr;
    }
  }

  lemma {:induction false} InputsOnly(c: Comm, ps: seq<Param>)
    requires |c.local| == |c.peer|
    ensures var d := MarkInputs(c, ps).ctx; d == c.(local := d.local, noInput := d.noInput)
  {
    hide FindRegion;
    if ps != [] {
      InputsOnly(c, ps[..|ps| - 1]);
    }
  }

  lemma {:induction false} OutputsOnly(c: Comm, ps: seq<Param>)
    requires |c.local| == |c.peer|
    ensures var d := MarkOutputs(c, ps).ctx;
      d == c.(local := d.local, peer := d.peer, noInput := d.noInput, noOutput := d.noOutput)
  {
    hide FindRegion;
    if ps != [] {
      OutputsOnly(c, ps[..|ps| - 1]);
    }
  }

  /** Marking touches nothing but tables and counters, whether or not it succeeds. */
  lemma MarkingOnly(c: Comm, inputs: seq<Param>, outputs: seq<Param>)
    requires |c.local| == |c.peer|
    ensures var d := MarkAll(c, inputs, outputs).ctx;
      d == c.(local := d.local, peer := d.peer, noInput := d.noInput, noOutput := d.noOutput)
  {
    InputsOnly(c, inputs);
    OutputsOnly(MarkInputs(c, inputs).ctx, outputs);
    hide MarkInputs, MarkOutputs;
  }

  /** Marking keeps the counters equal to the marks, also when a parameter is missing. */
  lemma MarkingCounted(c: Comm, inputs: seq<Param>, outputs: seq<Param>)
    requires Settings.Consistent(c)
    ensures |c.local| == |c.peer| && Settings.Consistent(MarkAll(c, inputs, outputs).ctx)
  {
    InputsCounted(c, inputs);
    OutputsCounted(MarkInputs(c, inputs).ctx, outputs);
  }
}
