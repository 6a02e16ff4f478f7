/** The region setup exchange: both ends agree on every region afterwards. */
module Setup {
  import opened Bytes
  import opened Context
  import opened Chain
  import opened Messages
  import opened Wire
  import Host
  import Server

  /** Every allocation the accelerator asks for succeeds. */
  predicate AllBuffers(allocs: seq<Server.Alloc>) {
    forall i :: 0 <= i < |allocs| ==> allocs[i].Buffer?
  }

  /** The accelerator's own region for parameter `i` of the host. */
  function OwnRegion(h: Comm, allocs: seq<Server.Alloc>, i: nat): LocalRegion
    requires i < |h.local| == |h.peer| && i < |allocs| && allocs[i].Buffer?
  {
    LocalRegion(allocs[i].addr, Length32(h.local[i], true), true, Length32(h.local[i], true), allocs[i].rkey,
                h.peer[i].toWrite, h.local[i].singleSend)
  }

  /** What the accelerator knows of parameter `i` on the host. */
  function HostRegion(h: Comm, i: nat): PeerRegion
    requires i < |h.local|
  {
    PeerRegion(h.local[i].addr, h.local[i].rkey, Length32(h.local[i], true),
               h.local[i].toWrite, h.local[i].singleSend)
  }

  /** The tables of the first `i` records of the host's request. */
  function MirrorTables(h: Comm, allocs: seq<Server.Alloc>, i: nat): (t: Server.Tables)
    requires Host.Counted(h) && AllBuffers(allocs)
    requires i <= |h.local| + |h.internals| == |allocs|
    ensures |t.local| == |t.peer| <= i && |t.local| <= |h.local|
  {
    var p := |h.local|;
    var n := if i <= p then i else p;
    Server.Tables(
      seq(n, k requires 0 <= k < n => OwnRegion(h, allocs, k)),
      seq(n, k requires 0 <= k < n => HostRegion(h, k)),
      seq(i - n, j requires 0 <= j < i - n =>
        InternalRegion(allocs[p + j].addr, h.internals[j].size % 0x1_0000_0000)),
      |Marked(h.local[..n])|, Host.OutputCount(h.peer[..n]))
  }

  /** A parameter record turns into one mirrored pair of entries. */
  lemma RecordMirrors(l: LocalRegion, pe: PeerRegion, t: Server.Tables, a: Server.Alloc)
    requires a.Buffer?
    ensures Server.AddRecord(t, ParameterRequest(l, pe), a) ==
      t.(local := t.local + [LocalRegion(a.addr, Length32(l, true), true, Length32(l, true), a.rkey,
                                         pe.toWrite, l.singleSend)],
         peer := t.peer + [PeerRegion(l.addr, l.rkey, Length32(l, true), l.toWrite, l.singleSend)],
         noInput := (t.noInput + Server.Bit(l.toWrite)) % 256,
         noOutput := (t.noOutput + Server.Bit(pe.toWrite)) % 256)
  {
    hide Flags, HasFlag;
    FlagsRoundTrip(l, pe);
  }

  /** An internal record adds an internal region and touches nothing else. */
  lemma InternalMirrors(r: InternalRegion, t: Server.Tables, a: Server.Alloc)
    requires a.Buffer?
    ensures Server.AddRecord(t, InternalRequest(r), a) ==
      t.(internals := t.internals + [InternalRegion(a.addr, r.size % 0x1_0000_0000)])
  {
  }

  lemma BufferAt(allocs: seq<Server.Alloc>, i: nat)
    requires AllBuffers(allocs) && i < |allocs|
    ensures allocs[i].Buffer?
  {
  }

  lemma MarksStep(h: Comm, i: nat)
    requires Host.Counted(h) && i < |h.local|
    ensures |Marked(h.local[..i + 1])| == |Marked(h.local[..i])| + Server.Bit(h.local[i].toWrite) < 256
    ensures Host.OutputCount(h.peer[..i + 1]) == Host.OutputCount(h.peer[..i]) + Server.Bit(h.peer[i].toWrite) < 256
  {
    MarkedStep(h.local, i);
    assert h.peer[..i + 1][..i] == h.peer[..i];
  }

  lemma MirrorParameter(h: Comm, allocs: seq<Server.Alloc>, i: nat)
    requires Host.Counted(h) && AllBuffers(allocs)
    requires i < |h.local| && |h.local| + |h.internals| == |allocs|
    ensures Server.AddRecord(MirrorTables(h, allocs, i), Requests(h)[i], allocs[i])
         == MirrorTables(h, allocs, i + 1)
  {
    hide Server.AddRecord, Host.OutputCount, Marked, ParameterRequest, InternalRequest;
    var t, t' := MirrorTables(h, allocs, i), MirrorTables(h, allocs, i + 1);
    RecordMirrors(h.local[i], h.peer[i], t, allocs[i]);
    MarksStep(h, i);
    assert t'.local == t.local + [OwnRegion(h, allocs, i)];
    assert t'.peer == t.peer + [HostRegion(h, i)];
    assert t'.internals == t.internals == [];
  }

  lemma MirrorInternal(h: Comm, allocs: seq<Server.Alloc>, i: nat)
    requires Host.Counted(h) && AllBuffers(allocs)
    requires |h.local| <= i < |h.local| + |h.internals| == |allocs|
    ensures Server.AddRecord(MirrorTables(h, allocs, i), Requests(h)[i], allocs[i])
         == MirrorTables(h, allocs, i + 1)
  {
    hide Server.AddRecord, Host.OutputCount, Marked, ParameterRequest, InternalRequest, AllBuffers;
    var t, t' := MirrorTables(h, allocs, i), MirrorTables(h, allocs, i + 1);
    var j := i - |h.local|;
    assert allocs[i].Buffer? by { BufferAt(allocs, i); }
    InternalMirrors(h.internals[j], t, allocs[i]);
    assert t'.local == t.local && t'.peer == t.peer;
    assert t'.internals == t.internals + [InternalRegion(allocs[i].addr, h.internals[j].size % 0x1_0000_0000)];
  }

  /** The accelerator's tables are the mirror of the host's, marks swapped. */
  lemma {:induction false} FillMirrors(h: Comm, allocs: seq<Server.Alloc>, i: nat)
    requires Host.Counted(h) && AllBuffers(allocs)
    requires i <= |h.local| + |h.internals| == |allocs|
    ensures Server.Fill(Requests(h)[..i], allocs[..i]) == Some(MirrorTables(h, allocs, i))
  {
    if i == 0 {
      Server.FillNothing();
      assert Requests(h)[..0] == [] && allocs[..0] == [];
      assert MirrorTables(h, allocs, 0) == Server.NO_TABLES by {
        assert h.local[..0] == [] && h.peer[..0] == [];
        var t := MirrorTables(h, allocs, 0);
        assert t.local == [] && t.peer == [] && t.internals == [];
      }
    } else {
      hide Server.Fill, Server.AddRecord, MirrorTables;
      FillMirrors(h, allocs, i - 1);
      Server.FillStep(Requests(h), allocs, i - 1, MirrorTables(h, allocs, i - 1));
      if i <= |h.local| {
        MirrorParameter(h, allocs, i - 1);
      } else {
        MirrorInternal(h, allocs, i - 1);
      }
    }
  }

  /** One failed allocation is enough for the whole request to fail. */
  lemma FillFails(rs: seq<Request>, allocs: seq<Server.Alloc>, i: nat)
    requires |allocs| == |rs| && i < |rs| && allocs[i].NoMemory?
    ensures Server.Fill(rs, allocs).None?
  {
    hide Server.AddRecord;
    Server.FillPrefix(rs, allocs, i + 1);
    Server.FillStops(rs, allocs, i + 1, |rs|);
    assert rs[..|rs|] == rs && allocs[..|rs|] == allocs;
  }

  /** Both ends mean the same two buffers by region `i`, and the same uses of them. */
  predicate RegionAgrees(hl: LocalRegion, hp: PeerRegion, sl: LocalRegion, sp: PeerRegion) {
    && hp.addr == sl.addr && hp.rkey == sl.rkey && hp.size == sl.length
    && sp.addr == hl.addr && sp.rkey == hl.rkey && sp.size == hl.length
    && sl.length == hl.length && sl.size == sl.length
    && sp.toWrite == hl.toWrite && sl.toWrite == hp.toWrite
    && sp.singleSend == hl.singleSend && sl.singleSend == hl.singleSend
  }

  predicate Agree(h: Comm, s: Comm) {
    && |h.local| == |h.peer| == |s.local| == |s.peer|
    && (forall i :: 0 <= i < |h.local| ==>
          RegionAgrees(h.local[i], h.peer[i], s.local[i], s.peer[i]))
    && s.noInput == h.noInput && s.noOutput == h.noOutput
    && |s.internals| == |h.internals|
  }

  predicate Fits(h: Comm) {
    Host.Counted(h) && |h.local| + |h.internals| <= MAX_RECORDS
  }

  /** The buffer `m` reads as the host's request. */
  predicate CarriesRequest(m: seq<byte>, h: Comm)
    requires |h.local| == |h.peer|
  {
    && |m| == MESSAGE_CAPACITY && m[0] == MSG_MR_AAR
    && m[1] == |h.local| + |h.internals| <= MAX_RECORDS
    && ReceivedRequests(m) == Requests(h)
  }

  /** The buffer `m` reads as an answer that advertises `local`. */
  predicate CarriesAnswer(m: seq<byte>, local: seq<LocalRegion>) {
    && |m| == MESSAGE_CAPACITY && m[0] == MSG_MR_A
    && m[1] == |local| <= MAX_RECORDS
    && ReceivedAdverts(m) == Adverts(local)
  }

  /** A request sent by the host reads as the host's records wherever it is received. */
  lemma RequestArrives(h: Comm, m: seq<byte>)
    requires Fits(h) && |m| == MESSAGE_CAPACITY
    ensures |RequestMessage(Requests(h))| <= MESSAGE_CAPACITY
    ensures CarriesRequest(Over(RequestMessage(Requests(h)), m), h)
  {
    var bytes := RequestMessage(Requests(h));
    RequestMessageSize(Requests(h));
    RequestsRoundTrip(Requests(h), m[|bytes|..]);
    assert m[..0] == [];
    hide RequestMessage, Requests, ReceivedRequests;
    assert Over(bytes, m) == bytes + m[|bytes|..];
  }

  lemma AnswerArrives(local: seq<LocalRegion>, m: seq<byte>)
    requires |local| <= MAX_RECORDS && |m| == MESSAGE_CAPACITY
    ensures |AnswerMessage(Adverts(local))| <= MESSAGE_CAPACITY
    ensures CarriesAnswer(Over(AnswerMessage(Adverts(local)), m), local)
  {
    var bytes := AnswerMessage(Adverts(local));
    AnswerMessageSize(Adverts(local));
    AdvertsRoundTrip(Adverts(local), m[|bytes|..]);
    assert m[..0] == [];
    hide AnswerMessage, Adverts, ReceivedAdverts;
    assert Over(bytes, m) == bytes + m[|bytes|..];
  }

  /** The worker's context after it has answered the request of `h`. */
  function Answered(h: Comm, s: Comm, allocs: seq<Server.Alloc>): Comm
    requires Fits(h) && AllBuffers(allocs) && |allocs| == |h.local| + |h.internals|
    requires |s.message| == MESSAGE_CAPACITY
  {
    AfterSend(Server.WithTables(s, MirrorTables(h, allocs, |allocs|)), MSG_MR_A, 0)
  }

  /** The worker's reaction to the host's request, all allocations succeeding. */
  lemma WorkerAnswers(h: Comm, s: Comm, allocs: seq<Server.Alloc>)
    requires Fits(h) && Server.Blank(s) && CarriesRequest(s.message, h)
    requires AllBuffers(allocs) && |allocs| == |h.local| + |h.internals|
    ensures Server.HandleRequest(s, allocs) ==
      Server.Reaction(Answered(h, s, allocs), true,
                      Some(AnswerMessage(Adverts(MirrorTables(h, allocs, |allocs|).local))))
  {
    hide Server.Fill, MirrorTables, ReceivedRequests, Requests, AnswerMessage, Adverts, AfterSend,
      Host.OutputCount, Marked;
    FillMirrors(h, allocs, |allocs|);
    assert Requests(h)[..|allocs|] == Requests(h) && allocs[..|allocs|] == allocs;
  }

  /** The host's context after it has recorded an answer that advertises `local`. */
  function WithAnswer(h: Comm, local: seq<LocalRegion>): Comm
    requires |local| <= |h.peer|
  {
    h.(peer := Host.Recorded(h.peer, Adverts(local)), state := MrspDone)
  }

  lemma HostSettles(h: Comm, wc: Completion, local: seq<LocalRegion>)
    requires h.state == MrspReceiving && wc.success && wc.opcode == WcRecv
    requires CarriesAnswer(h.message, local) && |local| <= |h.peer|
    ensures Host.Handleable(h, wc) && Host.Handle(h, wc) == Outcome(WithAnswer(h, local), true)
  {
    hide ReceivedAdverts, Adverts, Host.Recorded;
  }

  lemma RegionsAgree(h: Comm, s: Comm, allocs: seq<Server.Alloc>, i: nat)
    requires Fits(h) && AllBuffers(allocs) && |allocs| == |h.local| + |h.internals|
    requires |s.message| == MESSAGE_CAPACITY
    requires i < |h.local| && h.local[i].length < 0x1_0000_0000
    ensures var a := Answered(h, s, allocs);
      RegionAgrees(h.local[i], WithAnswer(h, a.local).peer[i], a.local[i], a.peer[i])
  {
    hide Marked, Host.OutputCount, AnswerMessage, Over;
    var a := Answered(h, s, allocs);
    assert a.local[i] == OwnRegion(h, allocs, i) && a.peer[i] == HostRegion(h, i);
    assert Adverts(a.local)[i] == Advert(allocs[i].addr, allocs[i].rkey, h.local[i].length);
  }

  /**
   * After request and answer both tables name the same buffers, keys and sizes, and the input
   * and output marks are transposed, provided every length fits its 32-bit field.
   */
  lemma TablesAgree(h: Comm, s: Comm, allocs: seq<Server.Alloc>)
    requires Fits(h) && AllBuffers(allocs) && |allocs| == |h.local| + |h.internals|
    requires |s.message| == MESSAGE_CAPACITY
    requires forall i :: 0 <= i < |h.local| ==> h.local[i].length < 0x1_0000_0000
    ensures Agree(WithAnswer(h, Answered(h, s, allocs).local), Answered(h, s, allocs))
  {
    assert h.local[..|h.local|] == h.local && h.peer[..|h.local|] == h.peer;
    var a := Answered(h, s, allocs);
    forall i | 0 <= i < |h.local|
      ensures RegionAgrees(h.local[i], WithAnswer(h, a.local).peer[i], a.local[i], a.peer[i])
    {
      RegionsAgree(h, s, allocs, i);
    }
    hide RegionAgrees, Adverts, Host.Recorded;
  }

  /** A length of 2^32 or more is announced short: the sizes agree exactly below that bound. */
  lemma SizesAgreeIff(h: Comm, s: Comm, allocs: seq<Server.Alloc>, i: nat)
    requires Fits(h) && AllBuffers(allocs) && |allocs| == |h.local| + |h.internals|
    requires |s.message| == MESSAGE_CAPACITY && i < |h.local|
    ensures var a := Answered(h, s, allocs);
      a.peer[i].size == h.local[i].length <==> h.local[i].length < 0x1_0000_0000
  {
    hide Marked, Host.OutputCount, AnswerMessage, Over, Adverts;
    assert Answered(h, s, allocs).peer[i] == HostRegion(h, i);
  }

  /** What the worker receives, and how it reacts to its completion. */
  function WorkerSide(h: Comm, s: Comm, allocs: seq<Server.Alloc>, n: uint32): Server.Reaction
    requires Fits(h) && Server.Blank(s) && s.state == MrspReceiving
    requires |allocs| == |h.local| + |h.internals|
  {
    RequestArrives(h, s.message);
    Server.Handle(s.(message := Over(RequestMessage(Requests(h)), s.message)),
                  Completion(true, WcRecv, 0, n), allocs)
  }

  /** What the host receives, and how it handles its completion. */
  function HostSide(h: Comm, bytes: seq<byte>, n: uint32): Outcome
    requires |h.message| == MESSAGE_CAPACITY && |bytes| <= MESSAGE_CAPACITY
    requires Host.Handleable(h.(message := Over(bytes, h.message)), Completion(true, WcRecv, 0, n))
  {
    Host.Handle(h.(message := Over(bytes, h.message)), Completion(true, WcRecv, 0, n))
  }

  lemma WorkerSideAnswers(h: Comm, s: Comm, allocs: seq<Server.Alloc>, n: uint32)
    requires Fits(h) && Server.Blank(s) && s.state == MrspReceiving
    requires AllBuffers(allocs) && |allocs| == |h.local| + |h.internals|
    ensures |RequestMessage(Requests(h))| <= MESSAGE_CAPACITY
    ensures var s1 := s.(message := Over(RequestMessage(Requests(h)), s.message));
      var a := Answered(h, s1, allocs);
      WorkerSide(h, s, allocs, n) == Server.Reaction(a, true, Some(AnswerMessage(Adverts(a.local))))
  {
    RequestArrives(h, s.message);
    WorkerAnswers(h, s.(message := Over(RequestMessage(Requests(h)), s.message)), allocs);
    hide MirrorTables, ReceivedRequests, RequestMessage, AnswerMessage, Requests, Adverts, Over,
      Server.HandleRequest;
  }

  lemma HostSideSettles(h: Comm, local: seq<LocalRegion>, n: uint32)
    requires |h.message| == MESSAGE_CAPACITY && h.state == MrspReceiving
    requires |local| <= |h.peer| && |local| <= MAX_RECORDS
    ensures var bytes := AnswerMessage(Adverts(local));
      && |bytes| <= MESSAGE_CAPACITY
      && var h1 := h.(message := Over(bytes, h.message));
      && Host.Handleable(h1, Completion(true, WcRecv, 0, n))
      && HostSide(h, bytes, n) == Outcome(WithAnswer(h1, local), true)
  {
    AnswerArrives(local, h.message);
    HostSettles(h.(message := Over(AnswerMessage(Adverts(local)), h.message)),
                Completion(true, WcRecv, 0, n), local);
    hide ReceivedAdverts, AnswerMessage, Adverts, Over, Host.Recorded;
  }

  /**
   * The whole exchange through both handlers: request bytes to the worker, answer bytes back,
   * and the host ends MRSP_DONE in agreement with the worker.
   */
  lemma ExchangeAgrees(h: Comm, s: Comm, allocs: seq<Server.Alloc>, n: uint32)
    requires Fits(h) && |h.message| == MESSAGE_CAPACITY && h.state == MrspReceiving
    requires forall i :: 0 <= i < |h.local| ==> h.local[i].length < 0x1_0000_0000
    requires Server.Blank(s) && s.state == MrspReceiving
    requires AllBuffers(allocs) && |allocs| == |h.local| + |h.internals|
    ensures var r := WorkerSide(h, s, allocs, n);
      && r.ok && r.sent.Some? && |r.sent.value| <= MESSAGE_CAPACITY
      && Host.Handleable(h.(message := Over(r.sent.value, h.message)), Completion(true, WcRecv, 0, n))
      && var o := HostSide(h, r.sent.value, n);
         o.ok && o.ctx.state == MrspDone && Agree(o.ctx, r.ctx)
  {
    hide MirrorTables, ReceivedRequests, ReceivedAdverts, RequestMessage, AnswerMessage, Requests,
      Adverts, Over, Host.Recorded, WorkerSide, HostSide, RegionAgrees;
    RequestArrives(h, s.message);
    WorkerSideAnswers(h, s, allocs, n);
    var s1 := s.(message := Over(RequestMessage(Requests(h)), s.message));
    HostSideSettles(h, Answered(h, s1, allocs).local, n);
    TablesAgree(h, s1, allocs);
  }

  /** A failed allocation ends the exchange on both sides: the host's handler reports the error. */
  lemma ExchangeFails(h: Comm, s: Comm, allocs: seq<Server.Alloc>, i: nat, n: uint32)
    requires Fits(h) && |h.message| == MESSAGE_CAPACITY && h.state == MrspReceiving
    requires Server.Blank(s) && s.state == MrspReceiving
    requires |allocs| == |h.local| + |h.internals| && i < |allocs| && allocs[i].NoMemory?
    ensures |RequestMessage(Requests(h))| <= MESSAGE_CAPACITY
    ensures var wc := Completion(true, WcRecv, 0, n);
      var s1 := s.(message := Over(RequestMessage(Requests(h)), s.message));
      && Server.Handleable(s1, wc, allocs)
      && var r := Server.Handle(s1, wc, allocs);
      && !r.ok && r.sent.Some? && |r.sent.value| == HEADER_SIZE
      && var h1 := h.(message := Over(r.sent.value, h.message));
      && Host.Handleable(h1, wc) && Host.Handle(h1, wc) == Outcome(h1, false)
  {
    RequestArrives(h, s.message);
    FillFails(Requests(h), allocs, i);
    hide Server.Fill, ReceivedRequests, RequestMessage, Requests;
  }
}
