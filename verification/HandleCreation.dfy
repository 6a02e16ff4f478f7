/** Creating a handle: a job-specification item, merged regions, requested addresses, marks, keys. */
module HandleCreation {
  import opened Bytes
  import opened Context
  import opened Machine
  import opened ParameterMerge
  import opened RegionTables
  import AddressLayout
  import Creation
  import Host
  import JobSpec
  import Messages
  import Settings
  import Wire

  /** The regions to be used: inputs in their order, then the remaining outputs in theirs. */
  method Regions(inputs: seq<Param>, outputs: seq<Param>)
    returns (addrs: array<uint64>, sizes: array<uint64>, ghost from: seq<nat>)
    ensures addrs.Length == sizes.Length == |inputs| + |from| && OutputsFrom(inputs, outputs, from)
    ensures forall i :: 0 <= i < |inputs| ==> addrs[i] == inputs[i].addr && sizes[i] == inputs[i].size
    ensures forall k :: 0 <= k < |from| ==>
      addrs[|inputs| + k] == outputs[from[k]].addr && sizes[|inputs| + k] == outputs[from[k]].size
    ensures |Merged(inputs, outputs)| == addrs.Length
    ensures forall r :: 0 <= r < addrs.Length ==> addrs[r] == Merged(inputs, outputs)[r].addr
  {
    hide OutputsFrom, Merged;
    var amount, shared := FindShared(inputs, outputs);
    addrs, sizes, from := FillRegions(inputs, outputs, amount, shared);
  }

  /** A new context over the regions, without internal ones, for the low byte of the function code. */
  method NewContext(fnCode: uint32, addrs: array<uint64>, sizes: array<uint64>, maxInline: nat)
    returns (c: Option<CommContext>)
    requires addrs.Length == sizes.Length < 256
    ensures c.None? <==> fnCode % 0x100 == 0
    ensures c.Some? ==>
      && fresh(c.value) && fresh(c.value.mrLocal) && fresh(c.value.mrPeer) && c.value.Valid()
      && Laid(0, addrs[..], sizes[..], [], c.value.mrLocal[..], c.value.mrPeer[..], c.value.mrInternal[..])
      && c.value.View() == NewComm(fnCode % 0x100, c.value.mrLocal[..], c.value.mrPeer[..], c.value.mrInternal[..],
                                   maxInline)
  {
    var none := new uint64[0](_ => 0);
    assert none[..] == [];
    var local, peer, internals := InitTables(0, addrs, sizes, none);
    assert Unmarked(local[..], peer[..]);
    assert Laid(0, addrs[..], sizes[..], [], local[..], peer[..], internals[..]);
    hide Laid, NewComm, Unmarked;
    c := InitContext(fnCode % 0x100, local, peer, internals, maxInline);
    if c.Some? {
      ClearUserBytes(c.value);
    }
  }

  /** Three zero user bytes change nothing in a context whose immediate is its function code. */
  method ClearUserBytes(c: CommContext)
    requires c.Valid() && c.immediate == c.fncode
    modifies c`immediate
    ensures c.Valid() && c.View() == old(c.View())
  {
    var user := new byte[3](_ => 0);
    assert user[..] == [0, 0, 0];
    Host.SetImmediateBytes(c, user);
  }

  lemma {:induction false} MarkingSucceeds(c: Comm, inputs: seq<Param>, outputs: seq<Param>)
    requires HoldsMerged(c, inputs, outputs)
    ensures MarkAll(c, inputs, outputs).ok
  {
    hide HasAddress, Hits, FindRegion;
    AllFound(c, inputs, outputs);
    InputsMarked(c, inputs);
    var d := MarkInputs(c, inputs).ctx;
    forall i | 0 <= i < |outputs|
      ensures FindRegion(d.local, outputs[i].addr).Some?
    {
      FindByAddress(c.local, d.local, outputs[i].addr);
    }
    OutputsMarked(d, outputs);
  }

  /** Marks the regions for the parameters, none of which is missing, and registers them. */
  method Prepare(c: CommContext, inputs: seq<Param>, outputs: seq<Param>, keys: array<uint32>)
    requires c.Valid() && HoldsMerged(c.View(), inputs, outputs) && keys.Length == c.mrLocal.Length
    modifies c`noInput, c`noOutput, c.mrLocal, c.mrPeer
    ensures c.Valid()
    ensures var d := MarkAll(old(c.View()), inputs, outputs).ctx;
      |d.local| == keys.Length && c.View() == Creation.Registered(d, keys[..])
  {
    MarkingSucceeds(c.View(), inputs, outputs);
    var ok := MarkParameters(c, inputs, outputs);
    assert ok;
    Creation.RegisterMrs(c, keys);
  }

  /** The regions of a created handle: whose memory they are, and what they are registered and requested as. */
  ghost predicate RegionsAsAsked(c: Comm, sizes: seq<uint64>, inputs: seq<Param>, outputs: seq<Param>, from: seq<nat>,
                                 keys: seq<uint32>)
  {
    var n := |inputs|;
    && |c.local| == |c.peer| == |sizes| == |keys| == n + |from| && OutputsFrom(inputs, outputs, from)
    && (forall i :: 0 <= i < n ==> c.local[i].addr == inputs[i].addr && sizes[i] == inputs[i].size)
    && (forall k :: 0 <= k < |from| ==>
          c.local[n + k].addr == outputs[from[k]].addr && sizes[n + k] == outputs[from[k]].size)
    && (forall r :: 0 <= r < |c.local| ==>
          && c.local[r].registered && c.local[r].rkey == keys[r]
          && c.local[r].length == c.local[r].size == sizes[r]
          && c.peer[r].addr == AddressLayout.AddressOf(0, sizes, r))
  }

  /** The marks of a created handle, if no two regions share an address. */
  predicate MarksAsAsked(c: Comm, inputs: seq<Param>, outputs: seq<Param>) {
    && |c.local| == |c.peer|
    && (DistinctAddresses(c.local) ==> forall r :: 0 <= r < |c.local| ==>
          var a := c.local[r].addr;
          && (c.local[r].toWrite <==> (HasAddress(inputs, a) || HasSingle(outputs, a)))
          && (c.local[r].singleSend <==> (HasSingle(inputs, a) || HasSingle(outputs, a)))
          && (c.peer[r].toWrite <==> HasAddress(outputs, a)))
  }

  /** The other fields of a created handle. */
  predicate ReadyToSetUp(c: Comm, fnCode: uint32) {
    && c.state == Connected && c.fncode == c.immediate == fnCode % 0x100 && c.internals == []
    && c.noRpcCalls == 0 && c.writesDone == 0 && !c.responseReceived && |c.message| == MESSAGE_CAPACITY
    && Settings.Consistent(c)
  }

  /** A new context over laid-out tables, connected. */
  ghost predicate NewOver(new': Comm, fnCode: uint32, addrs: seq<uint64>, sizes: seq<uint64>, maxInline: nat) {
    && Laid(0, addrs, sizes, [], new'.local, new'.peer, new'.internals) && |addrs| < 256
    && new' == NewComm(fnCode % 0x100, new'.local, new'.peer, new'.internals, maxInline).(state := Connected)
  }

  lemma {:induction false} NewPrepared(new': Comm, fnCode: uint32, addrs: seq<uint64>, sizes: seq<uint64>,
                                       maxInline: nat)
    requires NewOver(new', fnCode, addrs, sizes, maxInline)
    ensures Creation.Prepared(new', new') && |new'.message| == MESSAGE_CAPACITY
    ensures forall i :: 0 <= i < |new'.local| ==> !new'.local[i].registered
  {
    Settings.NewIsConsistent(fnCode % 0x100, new'.local, new'.peer, new'.internals, maxInline);
    hide Settings.Consistent;
  }

  lemma {:induction false} NewFields(new': Comm, fnCode: uint32, addrs: seq<uint64>, sizes: seq<uint64>,
                                     maxInline: nat)
    requires NewOver(new', fnCode, addrs, sizes, maxInline)
    ensures |new'.local| == |new'.peer| == |addrs| && new'.internals == [] && new'.noRpcCalls == 0
    ensures new'.fncode == new'.immediate == fnCode % 0x100 && new'.writesDone == 0 && !new'.responseReceived
    ensures |new'.message| == MESSAGE_CAPACITY
  {
  }

  /** The context once marked and registered. */
  function Finished(new': Comm, inputs: seq<Param>, outputs: seq<Param>, keys: seq<uint32>): Comm
    requires |new'.local| == |new'.peer| && |MarkAll(new', inputs, outputs).ctx.local| == |keys|
  {
    Creation.Registered(MarkAll(new', inputs, outputs).ctx, keys)
  }

  lemma {:induction false} FinishedKeeps(new': Comm, fnCode: uint32, addrs: seq<uint64>, sizes: seq<uint64>,
                                         maxInline: nat, inputs: seq<Param>, outputs: seq<Param>, keys: seq<uint32>)
    requires NewOver(new', fnCode, addrs, sizes, maxInline) && |keys| == |addrs|
    ensures |new'.local| == |new'.peer| && |MarkAll(new', inputs, outputs).ctx.local| == |keys|
    ensures Creation.KeepsRegions(Finished(new', inputs, outputs, keys), new', keys)
    ensures ReadyToSetUp(Finished(new', inputs, outputs, keys), fnCode)
  {
    NewPrepared(new', fnCode, addrs, sizes, maxInline);
    NewFields(new', fnCode, addrs, sizes, maxInline);
    MarkingOnly(new', inputs, outputs);
    hide NewOver, MarkAll;
    Creation.MarkingKeeps(new', new', inputs, outputs);
    var c := MarkAll(new', inputs, outputs).ctx;
    PreparedCounted(c, new');
    Creation.ReadyKeeps(c, new', keys, []);
    Creation.ReadyCounted(c, keys);
    hide Host.Counted;
  }

  lemma PreparedCounted(c: Comm, new': Comm)
    requires Creation.Prepared(c, new')
    ensures Host.Counted(c) && |c.local| == |new'.local|
  {
    hide Host.Counted;
  }

  lemma {:induction false} FinishedMarks(new': Comm, inputs: seq<Param>, outputs: seq<Param>, keys: seq<uint32>)
    requires HoldsMerged(new', inputs, outputs) && |MarkAll(new', inputs, outputs).ctx.local| == |keys|
    requires SameAddresses(new'.local, Finished(new', inputs, outputs, keys).local)
    ensures MarksAsAsked(Finished(new', inputs, outputs, keys), inputs, outputs)
  {
    var c := Finished(new', inputs, outputs, keys);
    hide MarkAll, HasAddress, HasSingle;
    if DistinctAddresses(c.local) {
      assert DistinctAddresses(new'.local);
      forall r | 0 <= r < |c.local|
        ensures var a := c.local[r].addr;
          && (c.local[r].toWrite <==> (HasAddress(inputs, a) || HasSingle(outputs, a)))
          && (c.local[r].singleSend <==> (HasSingle(inputs, a) || HasSingle(outputs, a)))
          && (c.peer[r].toWrite <==> HasAddress(outputs, a))
      {
        MarksAsRequested(new', inputs, outputs, r);
      }
    }
  }

  lemma {:induction false} FinishedRegions(new': Comm, fnCode: uint32, addrs: seq<uint64>, sizes: seq<uint64>,
                                           maxInline: nat, c: Comm, inputs: seq<Param>, outputs: seq<Param>,
                                           from: seq<nat>, keys: seq<uint32>)
    requires NewOver(new', fnCode, addrs, sizes, maxInline) && Creation.KeepsRegions(c, new', keys)
    requires |addrs| == |sizes| == |inputs| + |from| && OutputsFrom(inputs, outputs, from)
    requires forall i :: 0 <= i < |inputs| ==> addrs[i] == inputs[i].addr && sizes[i] == inputs[i].size
    requires forall k :: 0 <= k < |from| ==>
      addrs[|inputs| + k] == outputs[from[k]].addr && sizes[|inputs| + k] == outputs[from[k]].size
    ensures RegionsAsAsked(c, sizes, inputs, outputs, from, keys) && SameAddresses(new'.local, c.local)
  {
    NewFields(new', fnCode, addrs, sizes, maxInline);
    hide OutputsFrom, AddressLayout.AddressOf, NewOver, Laid;
    forall r | 0 <= r < |c.local|
      ensures c.peer[r].addr == AddressLayout.AddressOf(0, sizes, r)
      ensures c.local[r].addr == new'.local[r].addr == addrs[r] && c.local[r].length == sizes[r]
    {
      FinishedRegion(new', fnCode, addrs, sizes, maxInline, c, keys, r);
    }
  }

  lemma {:induction false} FinishedRegion(new': Comm, fnCode: uint32, addrs: seq<uint64>, sizes: seq<uint64>,
                                          maxInline: nat, c: Comm, keys: seq<uint32>, r: nat)
    requires NewOver(new', fnCode, addrs, sizes, maxInline) && Creation.KeepsRegions(c, new', keys) && r < |c.local|
    ensures |addrs| == |sizes| == |c.local| == |c.peer| == |new'.local|
    ensures c.peer[r].addr == AddressLayout.AddressOf(0, sizes, r)
    ensures c.local[r].addr == new'.local[r].addr == addrs[r] && c.local[r].length == sizes[r]
  {
    NewFields(new', fnCode, addrs, sizes, maxInline);
    TablesLaid(0, addrs, sizes, [], new'.local, new'.peer, new'.internals, new', c, keys, r);
    assert [] + sizes == sizes;
    hide Laid, AddressLayout.AddressOf;
  }

  /** The second half: marks and keys for a new context. */
  method Complete(c: CommContext, fnCode: uint32, ghost addrs: seq<uint64>, ghost sizes: seq<uint64>,
                  ghost maxInline: nat, inputs: seq<Param>, outputs: seq<Param>, ghost from: seq<nat>,
                  keys: seq<uint32>)
    requires c.Valid() && NewOver(c.View(), fnCode, addrs, sizes, maxInline)
    requires HoldsMerged(c.View(), inputs, outputs) && |addrs| == |keys|
    requires |addrs| == |sizes| == |inputs| + |from| && OutputsFrom(inputs, outputs, from)
    requires forall i :: 0 <= i < |inputs| ==> addrs[i] == inputs[i].addr && sizes[i] == inputs[i].size
    requires forall k :: 0 <= k < |from| ==>
      addrs[|inputs| + k] == outputs[from[k]].addr && sizes[|inputs| + k] == outputs[from[k]].size
    modifies c, c.mrLocal, c.mrPeer
    ensures c.Valid() && RegionsAsAsked(c.View(), sizes, inputs, outputs, from, keys)
    ensures MarksAsAsked(c.View(), inputs, outputs) && ReadyToSetUp(c.View(), fnCode)
  {
    hide Creation.Registered, MarkAll, OutputsFrom, HoldsMerged, NewOver, RegionsAsAsked, MarksAsAsked, ReadyToSetUp;
    ghost var new' := c.View();
    NewFields(new', fnCode, addrs, sizes, maxInline);
    var handed := new uint32[|keys|](i requires 0 <= i < |keys| => keys[i]);
    assert handed[..] == keys;
    Prepare(c, inputs, outputs, handed);
    FinishedKeeps(new', fnCode, addrs, sizes, maxInline, inputs, outputs, keys);
    FinishedRegions(new', fnCode, addrs, sizes, maxInline, c.View(), inputs, outputs, from, keys);
    FinishedMarks(new', inputs, outputs, keys);
  }

  method SetConnected(c: CommContext)
    requires c.Valid()
    modifies c`state
    ensures c.Valid() && c.View() == old(c.View()).(state := Connected)
  {
    c.state := Connected;
  }

  /** What a created handle's context is like. */
  ghost predicate Created(c: Comm, fnCode: uint32, sizes: seq<uint64>, inputs: seq<Param>, outputs: seq<Param>,
                          from: seq<nat>, keys: seq<uint32>)
  {
    && RegionsAsAsked(c, sizes, inputs, outputs, from, keys)
    && MarksAsAsked(c, inputs, outputs) && ReadyToSetUp(c, fnCode)
  }

  /** The context for given parameters; `keys` are what the registrations hand out. */
  method BuildContext(fnCode: uint32, inputs: seq<Param>, outputs: seq<Param>, connects: bool, keys: seq<uint32>,
                      maxInline: nat)
    returns (c: Option<CommContext>, ghost sizes: seq<uint64>, ghost from: seq<nat>)
    requires |inputs| + |outputs| < 256 && |keys| == |inputs| + |outputs|
    ensures c.Some? <==> connects && fnCode % 0x100 != 0
    ensures |inputs| + |from| <= |keys|
    ensures c.Some? ==>
      && c.value.Valid() && fresh(c.value)
      && Created(c.value.View(), fnCode, sizes, inputs, outputs, from, keys[..|inputs| + |from|])
  {
    var addrs, regionSizes;
    hide OutputsFrom, RegionsAsAsked, MarksAsAsked, ReadyToSetUp, Extra;
    addrs, regionSizes, from := Regions(inputs, outputs);
    sizes := regionSizes[..];
    c := NewContext(fnCode, addrs, regionSizes, maxInline);
    if c.Some? && connects {
      SetConnected(c.value);
      NewHoldsMerged(c.value.View(), fnCode, addrs[..], sizes, maxInline, inputs, outputs);
      Complete(c.value, fnCode, addrs[..], sizes, maxInline, inputs, outputs, from, keys[..addrs.Length]);
    } else {
      c := None;
    }
  }

  lemma {:induction false} NewHoldsMerged(new': Comm, fnCode: uint32, addrs: seq<uint64>, sizes: seq<uint64>,
                                          maxInline: nat, inputs: seq<Param>, outputs: seq<Param>)
    requires NewOver(new', fnCode, addrs, sizes, maxInline) && |Merged(inputs, outputs)| == |addrs|
    requires forall r :: 0 <= r < |addrs| ==> addrs[r] == Merged(inputs, outputs)[r].addr
    ensures HoldsMerged(new', inputs, outputs)
  {
    hide Merged, AddressLayout.AddressOf;
  }

  /** The first unused item for the function code, if there is one, expects so many inputs. */
  predicate Available(items: seq<JobSpec.Item>, count: nat, fnCode: uint32, inputs: nat) {
    exists k :: 0 <= k < count && JobSpec.IsFirst(items, k, fnCode) && items[k].paramCount == inputs
  }

  /**
   * A handle's context, or none. It exists exactly if the first unused item for the function code
   * expects this many inputs, the low byte of the code is not 0, and the connection is set up. The
   * item stays attached when one of the last two fails.
   */
  method Create(items: array<JobSpec.Item>, count: nat, fnCode: uint32, inputs: seq<Param>, outputs: seq<Param>,
                connects: bool, keys: seq<uint32>, maxInline: nat)
    returns (c: Option<CommContext>, ghost sizes: seq<uint64>, ghost from: seq<nat>)
    requires count <= items.Length && |inputs| + |outputs| < 256 && |keys| == |inputs| + |outputs|
    modifies items
    ensures c.Some? <==>
      Available(old(items[..]), count, fnCode, |inputs|) && fnCode % 0x100 != 0 && connects
    ensures c.Some? ==>
      && |inputs| + |from| <= |keys| && c.value.Valid()
      && Created(c.value.View(), fnCode, sizes, inputs, outputs, from, keys[..|inputs| + |from|])
    ensures Available(old(items[..]), count, fnCode, |inputs|) ==>
      exists k :: 0 <= k < count && JobSpec.IsFirst(old(items[..]), k, fnCode)
        && items[..] == old(items[..])[k := old(items[k]).(used := true)]
    ensures !Available(old(items[..]), count, fnCode, |inputs|) ==> items[..] == old(items[..])
  {
    hide Created;
    sizes, from := [], [];
    var item := JobSpec.Acquire(items, count, fnCode, |inputs|);
    if item.None? {
      return None, [], [];
    }
    c, sizes, from := BuildContext(fnCode, inputs, outputs, connects, keys, maxInline);
  }

  /** A created handle is where runs start, if some output and some input of every call are marked. */
  lemma {:induction false} CreatedStartsRuns(c: Comm, fnCode: uint32, sizes: seq<uint64>, inputs: seq<Param>,
                                             outputs: seq<Param>, from: seq<nat>, keys: seq<uint32>, kernel: Kernel,
                                             mem: Memory)
    requires Created(c, fnCode, sizes, inputs, outputs, from, keys) && fnCode % 0x100 != 0
    requires DistinctAddresses(c.local) && ConfigFits(Creation.ConfigOf(c, kernel))
    requires |mem| == |c.local| && forall i :: 0 <= i < |mem| ==> |mem[i]| == sizes[i]
    ensures Initial(Creation.ConfigOf(c, kernel),
                    Joint(Node(c, mem, [], [], [], []), Creation.Accepted(c.maxInline), Boot,
                          Tally(0, 0, 0, 0, 0), false))
  {
    hide ConfigFits, DistinctAddresses, OutputsFrom, Host.Counted, MarksAsAsked, AddressLayout.AddressOf;
    var cfg := Creation.ConfigOf(c, kernel);
    forall i | 0 <= i < |cfg.inputs|
      ensures HostRegionFits(cfg, c.local[i], c.peer[i], i, 0)
    {
    }
    assert Host.Counted(c);
  }

  /** Its request asks for consecutive pages from address 0 on, and offers the parameters' memory. */
  lemma {:induction false} CreatedRequests(c: Comm, fnCode: uint32, sizes: seq<uint64>, inputs: seq<Param>,
                                           outputs: seq<Param>, from: seq<nat>, keys: seq<uint32>, buffer: seq<byte>,
                                           r: nat)
    requires Created(c, fnCode, sizes, inputs, outputs, from, keys) && Messages.Sendable(c, Wire.MSG_MR_AAR)
    requires |buffer| == MESSAGE_CAPACITY && r < |c.local|
    ensures |sizes| == |keys| == |c.local| && |inputs| + |from| == |c.local|
    ensures forall k :: 0 <= k < |from| ==> from[k] < |outputs|
    ensures var n, q := |inputs|, Wire.RequestAt(Arrived(c, buffer), r);
      && q.naaAddr == AddressLayout.AddressOf(0, sizes, r) % 0x100_0000_0000_0000
      && q.advert.addr == (if r < n then inputs[r].addr else outputs[from[r - n]].addr)
      && q.advert.rkey == keys[r] && q.advert.size == sizes[r] % 0x1_0000_0000
  {
    hide OutputsFrom, MarksAsAsked, AddressLayout.AddressOf, Messages.SaysRequest, Arrived, Wire.RequestAt,
      ReadyToSetUp;
    ArrivedSays(c, buffer);
    RequestReads(Arrived(c, buffer), c.local, c.peer, c.internals, r);
    FromInRange(inputs, outputs, from);
    if r >= |inputs| {
      var k := r - |inputs|;
      assert c.local[|inputs| + k].addr == outputs[from[k]].addr;
    }
  }

  lemma FromInRange(inputs: seq<Param>, outputs: seq<Param>, from: seq<nat>)
    requires OutputsFrom(inputs, outputs, from)
    ensures forall k :: 0 <= k < |from| ==> from[k] < |outputs|
  {
    hide HasAddress;
  }
}
