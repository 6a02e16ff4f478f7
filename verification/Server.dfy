/** The software accelerator: region tables from a request, its handler and its replies. */
module Server {
  import opened Bytes
  import opened Context
  import opened Chain
  import opened Messages
  import opened Wire

  /** What the allocator and the registration hand out for one record. */
  datatype Alloc = Buffer(addr: uint64, rkey: uint32) | NoMemory

  datatype Tables = Tables(
    local: seq<LocalRegion>, peer: seq<PeerRegion>, internals: seq<InternalRegion>,
    noInput: byte, noOutput: byte)

  const NO_TABLES := Tables([], [], [], 0, 0)

  predicate IsInternal(r: Request) {
    HasFlag(r.flags, MRFLAG_INTERNAL)
  }

  /** First pass: how many records describe parameters. */
  function CountParameters(rs: seq<Request>): (n: nat)
    ensures n <= |rs|
  {
    if rs == [] then 0
    else CountParameters(rs[..|rs| - 1]) + if IsInternal(rs[|rs| - 1]) then 0 else 1
  }

  function Bit(b: bool): byte {
    if b then 1 else 0
  }

  /** Second pass, one record: the marks swap sides, the buffer gets the advertised size. */
  function AddRecord(t: Tables, r: Request, a: Alloc): Tables
    requires a.Buffer?
  {
    if IsInternal(r) then
      t.(internals := t.internals + [InternalRegion(a.addr, r.advert.size)])
    else
      var single := HasFlag(r.flags, MRFLAG_SINGLESEND);
      var input := HasFlag(r.flags, MRFLAG_INPUT);
      var output := HasFlag(r.flags, MRFLAG_OUTPUT);
      t.(local := t.local + [LocalRegion(a.addr, r.advert.size, true, r.advert.size, a.rkey, output, single)],
         peer := t.peer + [PeerRegion(r.advert.addr, r.advert.rkey, r.advert.size, input, single)],
         noInput := (t.noInput + Bit(input)) % 256,
         noOutput := (t.noOutput + Bit(output)) % 256)
  }

  /** The tables of a whole request, unless an allocation fails. */
  function Fill(rs: seq<Request>, allocs: seq<Alloc>): (t: Option<Tables>)
    requires |allocs| == |rs|
    ensures t.Some? ==> |t.value.local| == |t.value.peer| == CountParameters(rs)
    ensures t.Some? ==> |t.value.internals| == |rs| - CountParameters(rs)
  {
    if rs == [] then Some(NO_TABLES)
    else
      var n := |rs| - 1;
      match Fill(rs[..n], allocs[..n])
      case None => None
      case Some(t) => if allocs[n].NoMemory? then None else Some(AddRecord(t, rs[n], allocs[n]))
  }

  function WithTables(c: Comm, t: Tables): Comm {
    c.(local := t.local, peer := t.peer, internals := t.internals,
       noInput := t.noInput, noOutput := t.noOutput)
  }

  /** A worker as it is before its only request: no regions, no counts. */
  predicate Blank(c: Comm) {
    && |c.message| == MESSAGE_CAPACITY
    && c.local == [] && c.peer == [] && c.internals == [] && c.noInput == 0 && c.noOutput == 0
  }

  /** A request whose records lie inside the message buffer. */
  predicate RequestFits(c: Comm) {
    |c.message| == MESSAGE_CAPACITY && c.message[1] <= MAX_RECORDS
  }

  /** A handled completion: the new context, 0 or -1, and the message posted if there is one. */
  datatype Reaction = Reaction(ctx: Comm, ok: bool, sent: Option<seq<byte>>)

  predicate Handleable(c: Comm, wc: Completion, allocs: seq<Alloc>) {
    && |c.message| == MESSAGE_CAPACITY
    && (wc.success && c.state == MrspReceiving && wc.opcode == WcRecv && c.message[0] == MSG_MR_AAR ==>
          Blank(c) && RequestFits(c) && |allocs| == c.message[1])
  }

  function HandleRequest(c: Comm, allocs: seq<Alloc>): Reaction
    requires Blank(c) && RequestFits(c) && |allocs| == c.message[1]
  {
    match Fill(ReceivedRequests(c.message), allocs)
    case None =>
      Reaction(AfterSend(c, MSG_MR_ERR, 1), false, Some(MessageBytes(c, MSG_MR_ERR, 1)))
    case Some(t) =>
      var c' := WithTables(c, t);
      Reaction(AfterSend(c', MSG_MR_A, 0), true, Some(MessageBytes(c', MSG_MR_A, 0)))
  }

  function Handle(c: Comm, wc: Completion, allocs: seq<Alloc>): Reaction
    requires Handleable(c, wc, allocs)
  {
    if !wc.success then Reaction(c, false, None)
    else if c.state == MrspReceiving && wc.opcode == WcRecv then
      if c.message[0] == MSG_MR_AAR then HandleRequest(c, allocs) else Reaction(c, false, None)
    else if c.state == MrspSending && wc.opcode == WcSend then
      Reaction(c.(state := MrspDone), true, None)
    else if c.state == DataReceiving && wc.opcode == WcRecv then Reaction(c, true, None)
    else if c.state == DataReceiving && wc.opcode == WcRecvWithImm then
      if wc.imm == 0 then Reaction(c, false, None)
      else Reaction(c.(fncode := wc.imm % 0x80, immediate := wc.imm / 0x100, state := Calculating),
                    true, None)
    else if c.state == DataSending && wc.opcode == WcRdmaWrite then
      var done := (c.writesDone + 1) % 256;
      Reaction(if done == c.noOutput then c.(writesDone := 0, state := DataReceiving)
               else c.(writesDone := done), true, None)
    else Reaction(c, false, None)
  }

  /** The context of a worker that waits for the next request. */
  function Awaiting(c: Comm): Comm {
    c.(noRpcCalls := (c.noRpcCalls + 1) % 0x1_0000_0000, state := DataReceiving)
  }

  /** The reply: every output in full with a zero immediate, or one empty write with the code. */
  function Reply(c: Comm, code: byte): seq<WriteRequest>
    requires |c.local| == |c.peer| && c.local != []
  {
    if code != 0 then
      [WriteRequest(1, c.local[0].addr, 0, c.peer[0].addr, c.peer[0].rkey, Some(code), true, false, None)]
    else Slots(c.local, c.peer, 0, true, -1)
  }

  // ---------------------------------------------------------------- the calls themselves

  method ReadRequest(message: seq<byte>, i: nat) returns (r: Request)
    requires |message| == MESSAGE_CAPACITY && i < message[1] <= MAX_RECORDS
    ensures r == ReceivedRequests(message)[i]
  {
    r := RequestAt(message, i);
  }

  /** First pass over the received records. */
  method CountRecords(message: seq<byte>) returns (parameters: nat, internals: nat)
    requires |message| == MESSAGE_CAPACITY && message[1] <= MAX_RECORDS
    ensures parameters == CountParameters(ReceivedRequests(message))
    ensures parameters + internals == message[1]
  {
    ghost var rs := ReceivedRequests(message);
    parameters, internals := 0, 0;
    for i := 0 to message[1]
      invariant parameters == CountParameters(rs[..i]) && parameters + internals == i
    {
      assert rs[..i + 1][..i] == rs[..i];
      var r := RequestAt(message, i);
      if HasFlag(r.flags, MRFLAG_INTERNAL) {
        internals := internals + 1;
      } else {
        parameters := parameters + 1;
      }
    }
    assert rs[..message[1]] == rs;
  }

  lemma {:induction false} CountParametersStep(rs: seq<Request>, i: nat)
    requires i < |rs|
    ensures CountParameters(rs[..i]) + (if IsInternal(rs[i]) then 0 else 1)
         == CountParameters(rs[..i + 1]) <= CountParameters(rs)
    ensures i - CountParameters(rs[..i]) + (if IsInternal(rs[i]) then 1 else 0)
         <= |rs| - CountParameters(rs)
    decreases |rs|
  {
    assert rs[..i + 1][..i] == rs[..i];
    if i + 1 == |rs| {
      assert rs[..i + 1] == rs;
    } else {
      var init := rs[..|rs| - 1];
      assert init[..i] == rs[..i] && init[..i + 1] == rs[..i + 1] && init[i] == rs[i];
      CountParametersStep(init, i);
    }
  }

  lemma FillPrefix(rs: seq<Request>, allocs: seq<Alloc>, i: nat)
    requires |allocs| == |rs| && 0 < i <= |rs|
    ensures Fill(rs[..i], allocs[..i]) ==
      match Fill(rs[..i - 1], allocs[..i - 1])
      case None => None
      case Some(t) => if allocs[i - 1].NoMemory? then None else Some(AddRecord(t, rs[i - 1], allocs[i - 1]))
  {
    hide AddRecord, IsInternal;
    assert rs[..i][..i - 1] == rs[..i - 1] && allocs[..i][..i - 1] == allocs[..i - 1];
  }

  lemma {:induction false} FillStops(rs: seq<Request>, allocs: seq<Alloc>, i: nat, n: nat)
    requires |allocs| == |rs| && i <= n <= |rs| && Fill(rs[..i], allocs[..i]).None?
    ensures Fill(rs[..n], allocs[..n]).None?
  {
    hide Fill, AddRecord, IsInternal;
    if i < n {
      FillStops(rs, allocs, i, n - 1);
      FillPrefix(rs, allocs, n);
    }
  }

  lemma FillNothing()
    ensures Fill([], []) == Some(NO_TABLES) && CountParameters([]) == 0
  {
  }

  lemma FillStep(rs: seq<Request>, allocs: seq<Alloc>, i: nat, t: Tables)
    requires |allocs| == |rs| && i < |rs| && Fill(rs[..i], allocs[..i]) == Some(t)
    ensures allocs[i].Buffer? ==>
      Fill(rs[..i + 1], allocs[..i + 1]) == Some(AddRecord(t, rs[i], allocs[i]))
    ensures allocs[i].NoMemory? ==> Fill(rs, allocs).None?
  {
    hide Fill, AddRecord, IsInternal;
    FillPrefix(rs, allocs, i + 1);
    if allocs[i].NoMemory? {
      FillStops(rs, allocs, i + 1, |rs|);
      assert rs[..|rs|] == rs && allocs[..|rs|] == allocs;
    }
  }

  /** The second pass so far: the first `lc` and `ic` entries hold the tables of `t`. */
  ghost predicate Filled(t: Option<Tables>, local: seq<LocalRegion>, peer: seq<PeerRegion>,
                         internals: seq<InternalRegion>, lc: nat, ic: nat)
  {
    && t.Some? && lc <= |local| == |peer| && ic <= |internals|
    && local[..lc] == t.value.local && peer[..lc] == t.value.peer
    && internals[..ic] == t.value.internals
  }

  method PutParameter(local: array<LocalRegion>, peer: array<PeerRegion>, k: nat, r: Request, a: Alloc)
    requires k < local.Length == peer.Length && a.Buffer? && !IsInternal(r)
    modifies local, peer
    ensures var t := AddRecord(NO_TABLES, r, a);
      local[..] == old(local[..])[k := t.local[0]] && peer[..] == old(peer[..])[k := t.peer[0]]
  {
    var single := HasFlag(r.flags, MRFLAG_SINGLESEND);
    peer[k] := PeerRegion(r.advert.addr, r.advert.rkey, r.advert.size,
                          HasFlag(r.flags, MRFLAG_INPUT), single);
    local[k] := LocalRegion(a.addr, r.advert.size, true, r.advert.size, a.rkey,
                            HasFlag(r.flags, MRFLAG_OUTPUT), single);
  }

  lemma FilledNext(t: Tables, r: Request, a: Alloc, local: seq<LocalRegion>, peer: seq<PeerRegion>,
                   internals: seq<InternalRegion>, lc: nat, ic: nat)
    requires Filled(Some(t), local, peer, internals, lc, ic) && a.Buffer?
    ensures !IsInternal(r) && lc < |local| ==>
      var one := AddRecord(NO_TABLES, r, a);
      Filled(Some(AddRecord(t, r, a)), local[lc := one.local[0]], peer[lc := one.peer[0]], internals, lc + 1, ic)
    ensures IsInternal(r) && ic < |internals| ==>
      Filled(Some(AddRecord(t, r, a)), local, peer,
             internals[ic := InternalRegion(a.addr, r.advert.size)], lc, ic + 1)
  {
  }

  lemma FilledAll(t: Tables, local: seq<LocalRegion>, peer: seq<PeerRegion>, internals: seq<InternalRegion>)
    requires Filled(Some(t), local, peer, internals, |local|, |internals|)
    ensures t == Tables(local, peer, internals, t.noInput, t.noOutput)
  {
    assert local[..|local|] == local && peer[..|local|] == peer && internals[..|internals|] == internals;
  }

  /** One record of the second pass. */
  method FillRecord(local: array<LocalRegion>, peer: array<PeerRegion>, internals: array<InternalRegion>,
                    lc: nat, ic: nat, noInput: byte, noOutput: byte, r: Request, a: Alloc, ghost t: Tables)
    returns (lc': nat, ic': nat, noInput': byte, noOutput': byte)
    requires Filled(Some(t), local[..], peer[..], internals[..], lc, ic) && a.Buffer?
    requires noInput == t.noInput && noOutput == t.noOutput
    requires if IsInternal(r) then ic < internals.Length else lc < local.Length
    modifies local, peer, internals
    ensures if IsInternal(r) then lc' == lc && ic' == ic + 1 else lc' == lc + 1 && ic' == ic
    ensures Filled(Some(AddRecord(t, r, a)), local[..], peer[..], internals[..], lc', ic')
    ensures noInput' == AddRecord(t, r, a).noInput && noOutput' == AddRecord(t, r, a).noOutput
  {
    FilledNext(t, r, a, local[..], peer[..], internals[..], lc, ic);
    if HasFlag(r.flags, MRFLAG_INTERNAL) {
      internals[ic] := InternalRegion(a.addr, r.advert.size);
      return lc, ic + 1, noInput, noOutput;
    } else {
      PutParameter(local, peer, lc, r, a);
      noInput' := (noInput + Bit(HasFlag(r.flags, MRFLAG_INPUT))) % 256;
      noOutput' := (noOutput + Bit(HasFlag(r.flags, MRFLAG_OUTPUT))) % 256;
      return lc + 1, ic, noInput', noOutput';
    }
  }

  /** Second pass: fills the tables; stops at the first allocation that fails. */
  method FillTables(message: seq<byte>, allocs: seq<Alloc>, local: array<LocalRegion>,
                    peer: array<PeerRegion>, internals: array<InternalRegion>, ghost rs: seq<Request>)
    returns (ok: bool, noInput: byte, noOutput: byte)
    requires |message| == MESSAGE_CAPACITY && message[1] <= MAX_RECORDS
    requires |allocs| == message[1] && rs == ReceivedRequests(message)
    requires local.Length == peer.Length == CountParameters(rs)
    requires internals.Length == |rs| - local.Length
    modifies local, peer, internals
    ensures ok == Fill(rs, allocs).Some?
    ensures ok ==> Fill(rs, allocs) == Some(Tables(local[..], peer[..], internals[..], noInput, noOutput))
  {
    ghost var t := NO_TABLES;
    var lc, ic := 0, 0;
    noInput, noOutput := 0, 0;
    FillNothing();
    hide Fill, AddRecord, ReceivedRequests;
    for i := 0 to |allocs|
      invariant Fill(rs[..i], allocs[..i]) == Some(t)
      invariant lc == CountParameters(rs[..i]) && ic == i - lc
      invariant Filled(Some(t), local[..], peer[..], internals[..], lc, ic)
      invariant noInput == t.noInput && noOutput == t.noOutput
    {
      CountParametersStep(rs, i);
      FillStep(rs, allocs, i, t);
      var r := ReadRequest(message, i);
      if allocs[i].NoMemory? {
        return false, 0, 0;
      }
      lc, ic, noInput, noOutput :=
        FillRecord(local, peer, internals, lc, ic, noInput, noOutput, r, allocs[i], t);
      t := AddRecord(t, r, allocs[i]);
    }
    assert rs[..|rs|] == rs && allocs[..|rs|] == allocs;
    FilledAll(t, local[..], peer[..], internals[..]);
    ok := true;
  }

  /** Builds the worker's tables from the request in its buffer. */
  method AnnounceAndRequest(c: CommContext, allocs: seq<Alloc>) returns (ok: bool)
    requires c.Valid() && Blank(c.View()) && RequestFits(c.View()) && |allocs| == c.message[1]
    modifies c`mrLocal, c`mrPeer, c`mrInternal, c`noInput, c`noOutput
    ensures c.Valid()
    ensures c.mrLocal.Length == c.mrPeer.Length
    ensures var t := Fill(ReceivedRequests(c.message[..]), allocs);
      ok == t.Some? && (ok ==> c.View() == WithTables(old(c.View()), t.value))
  {
    var parameters, internals := CountRecords(c.message[..]);
    var mrLocal := new LocalRegion[parameters];
    var mrPeer := new PeerRegion[parameters];
    var mrInternal := new InternalRegion[internals];
    var noInput, noOutput;
    ok, noInput, noOutput := FillTables(c.message[..], allocs, mrLocal, mrPeer, mrInternal,
                                       ReceivedRequests(c.message[..]));
    Install(c, mrLocal, mrPeer, mrInternal, noInput, noOutput);
  }

  method Install(c: CommContext, mrLocal: array<LocalRegion>, mrPeer: array<PeerRegion>,
                 mrInternal: array<InternalRegion>, noInput: byte, noOutput: byte)
    modifies c`mrLocal, c`mrPeer, c`mrInternal, c`noInput, c`noOutput
    ensures c.mrLocal == mrLocal && c.mrPeer == mrPeer && c.mrInternal == mrInternal
    ensures c.View() == WithTables(old(c.View()),
      Tables(mrLocal[..], mrPeer[..], mrInternal[..], noInput, noOutput))
  {
    c.mrLocal, c.mrPeer, c.mrInternal := mrLocal, mrPeer, mrInternal;
    c.noInput, c.noOutput := noInput, noOutput;
  }

  method AnswerRequest(c: CommContext, allocs: seq<Alloc>) returns (ok: bool, sent: seq<byte>)
    requires c.Valid() && Blank(c.View()) && RequestFits(c.View()) && |allocs| == c.message[1]
    modifies c, c.message
    ensures c.Valid()
    ensures var r := HandleRequest(old(c.View()), allocs);
      && ok == r.ok && Some(sent) == r.sent && (ok ==> c.View() == r.ctx)
      && c.state == r.ctx.state && c.message[..] == r.ctx.message
  {
    ok := AnnounceAndRequest(c, allocs);
    if ok {
      sent := SendMessage(c, MSG_MR_A, 0);
    } else {
      sent := SendMessage(c, MSG_MR_ERR, 1);
    }
  }

  method AwaitRequest(c: CommContext)
    modifies c`noRpcCalls, c`state
    ensures c.View() == Awaiting(old(c.View()))
  {
    c.noRpcCalls := (c.noRpcCalls + 1) % 0x1_0000_0000;
    c.state := DataReceiving;
  }

  method CountReply(c: CommContext)
    requires c.Valid() && c.state == DataSending
    modifies c`writesDone, c`state
    ensures c.View() == Handle(old(c.View()), Completion(true, WcRdmaWrite, 0, 0), []).ctx
  {
    c.writesDone := (c.writesDone + 1) % 256;
    if c.writesDone == c.noOutput {
      c.state := DataReceiving;
      c.writesDone := 0;
    }
  }

  method HandleWorkCompletion(c: CommContext, wc: Completion, allocs: seq<Alloc>)
    returns (ok: bool, sent: Option<seq<byte>>)
    requires c.Valid() && Handleable(c.View(), wc, allocs)
    modifies c, c.message
    ensures c.Valid()
    ensures var r := Handle(old(c.View()), wc, allocs);
      && ok == r.ok && sent == r.sent && (ok || sent.None? ==> c.View() == r.ctx)
      && c.state == r.ctx.state && c.message[..] == r.ctx.message
  {
    sent := None;
    if !wc.success {
      return false, None;
    }
    if c.state == MrspReceiving {
      if wc.opcode == WcRecv && c.message[0] == MSG_MR_AAR {
        var packet;
        ok, packet := AnswerRequest(c, allocs);
        return ok, Some(packet);
      }
    } else if c.state == MrspSending {
      if wc.opcode == WcSend {
        c.state := MrspDone;
        return true, None;
      }
    } else if c.state == DataReceiving {
      if wc.opcode == WcRecv {
        return true, None;
      } else if wc.opcode == WcRecvWithImm {
        if wc.imm == 0 {
          return false, None;
        }
        c.fncode := wc.imm % 0x80;
        c.immediate := wc.imm / 0x100;
        c.state := Calculating;
        return true, None;
      }
    } else if c.state == DataSending {
      if wc.opcode == WcRdmaWrite {
        CountReply(c);
        return true, None;
      }
    }
    return false, None;
  }

  method CountOutputs(local: array<LocalRegion>) returns (n: nat)
    ensures n == |Marked(local[..])|
  {
    n := 0;
    for i := 0 to local.Length
      invariant n == |Marked(local[..i])|
    {
      assert local[..i + 1][..i] == local[..i];
      if local[i].toWrite {
        n := n + 1;
      }
    }
    assert local[..local.Length] == local[..];
  }

  /** Writes back the outputs. An accelerator without outputs has nothing to post. */
  method WriteData(c: CommContext, errorcode: byte) returns (ok: bool, posted: seq<WriteRequest>)
    requires c.Valid() && (errorcode == 0 && c.mrLocal.Length > 0 ==> Marked(c.mrLocal[..]) != [])
    modifies c`state
    ensures c.View() == old(c.View()).(state := DataSending)
    ensures ok == (c.mrLocal.Length > 0)
    ensures posted == if ok then Reply(c.View(), errorcode) else []
    ensures ok && errorcode == 0 ==> WritesMarked(posted, c.mrLocal[..], c.mrPeer[..], 0, true, -1)
    ensures forall k :: 0 <= k < |posted| ==> !posted[k].inlined
    ensures ok && errorcode != 0 ==>
      && |posted| == 1 && posted[0].length == 0 && posted[0].imm == Some(errorcode)
      && posted[0].target == c.mrPeer[0].addr && posted[0].rkey == c.mrPeer[0].rkey
  {
    c.state := DataSending;
    if c.mrLocal.Length < 1 {
      return false, [];
    }
    if errorcode != 0 {
      posted := [WriteRequest(1, c.mrLocal[0].addr, 0, c.mrPeer[0].addr, c.mrPeer[0].rkey,
                              Some(errorcode), true, false, None)];
    } else {
      var n := CountOutputs(c.mrLocal);
      posted := PostChain(c.mrLocal, c.mrPeer, n, 0, true, -1);
    }
    ok := true;
  }
}
