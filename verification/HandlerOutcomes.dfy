/** Which completions each handler accepts, where it goes with them, and what it leaves alone. */
module HandlerOutcomes {
  import opened Bytes
  import opened Context
  import opened Messages
  import opened Wire
  import Host
  import Server

  predicate InTransfer(c: Comm) {
    c.state == DataSending || c.state == DataReceiving
  }

  /** A successful completion of the kind the host waits for in its state. */
  predicate HostExpects(c: Comm, wc: Completion)
    requires |c.message| == MESSAGE_CAPACITY
  {
    && wc.success
    && match wc.opcode
       case WcSend => c.state == MrspSending
       case WcRecv => (c.state == MrspReceiving && c.message[0] == 2) || InTransfer(c)
       case WcRdmaWrite => InTransfer(c)
       case WcRecvWithImm => InTransfer(c)
       case WcOther => false
  }

  /** Fields that no completion changes at the host, including the marks of its peer regions. */
  predicate HostFrame(c: Comm, d: Comm) {
    && d.fncode == c.fncode && d.immediate == c.immediate && d.local == c.local && d.internals == c.internals
    && d.noInput == c.noInput && d.noOutput == c.noOutput && d.noRpcCalls == c.noRpcCalls
    && d.maxInline == c.maxInline && d.message == c.message && |d.peer| == |c.peer|
    && forall i :: 0 <= i < |c.peer| ==>
         d.peer[i].toWrite == c.peer[i].toWrite && d.peer[i].singleSend == c.peer[i].singleSend
  }

  /** The host accepts exactly what it expects; a completion it refuses changes nothing. */
  lemma HostAcceptsIff(c: Comm, wc: Completion)
    requires Host.Handleable(c, wc)
    ensures var o := Host.Handle(c, wc);
      && (o.ok <==> HostExpects(c, wc)) && (!o.ok ==> o.ctx == c) && HostFrame(c, o.ctx)
  {
  }

  /** Where the host goes with an accepted completion. */
  lemma HostMoves(c: Comm, wc: Completion)
    requires Host.Handleable(c, wc) && HostExpects(c, wc)
    ensures var d := Host.Handle(c, wc).ctx;
      && (c.state == MrspSending ==> d.state == MrspReceiving && d.peer == c.peer)
      && (c.state == MrspReceiving ==> d.state == MrspDone)
      && (!InTransfer(c) ==> d.writesDone == c.writesDone && d.responseReceived == c.responseReceived
                             && d.responseUserImm == c.responseUserImm && d.bytesReceived == c.bytesReceived)
      && (InTransfer(c) ==> d.peer == c.peer)
  {
    hide Host.CountCompletion;
    TransferLeavesPeers(c, wc);
  }

  /** What the host takes from an answer: 16 bytes for each region counted in byte 1; other regions stay. */
  lemma {:induction false} AnswerRecorded(c: Comm, wc: Completion, i: nat)
    requires Host.Handleable(c, wc) && HostExpects(c, wc) && c.state == MrspReceiving && i < |c.peer|
    ensures c.message[1] <= |c.peer| && 4 + 16 * c.message[1] <= |c.message|
    ensures var m, p := c.message, Host.Handle(c, wc).ctx.peer[i];
      if i < m[1] then
        && p.addr == FromBe(m[4 + 16 * i..12 + 16 * i]) && p.rkey == FromBe(m[12 + 16 * i..16 + 16 * i])
        && p.size == FromBe(m[16 + 16 * i..20 + 16 * i])
      else p == c.peer[i]
  {
    hide FromBe;
    var m := c.message;
    if i < m[1] {
      var s := m[4 + 16 * i..20 + 16 * i];
      assert s[0..8] == m[4 + 16 * i..12 + 16 * i] && s[8..12] == m[12 + 16 * i..16 + 16 * i];
      assert s[12..16] == m[16 + 16 * i..20 + 16 * i];
      assert ReceivedAdverts(m)[i] == DecodeAdvert(s);
    }
  }

  lemma TransferLeavesPeers(c: Comm, wc: Completion)
    ensures Host.CountCompletion(c, wc).peer == c.peer
  {
  }

  /**
   * During a transfer: with every write acknowledged and the response in, FINISHED and both
   * trackers reset; with every write but no response, DATA_RECEIVING; otherwise nothing but the
   * tracker moves.
   */
  lemma TransferMoves(c: Comm, wc: Completion)
    requires Host.Handleable(c, wc) && HostExpects(c, wc) && InTransfer(c)
    ensures var d := Host.Handle(c, wc).ctx;
      var writes := if wc.opcode == WcRdmaWrite then (c.writesDone as int + 1) % 256 else c.writesDone;
      var response := c.responseReceived || wc.opcode == WcRecvWithImm;
      && (d.state == Finished <==> writes >= c.noInput && response)
      && (d.state == Finished ==> d.writesDone == 0 && !d.responseReceived)
      && (d.state != Finished ==> d.writesDone == writes && d.responseReceived == response)
      && (d.state != Finished && writes >= c.noInput ==> d.state == DataReceiving)
      && (writes < c.noInput ==> d.state == c.state)
      && d.responseUserImm == (if wc.opcode == WcRecvWithImm then wc.imm / 0x100 else c.responseUserImm)
      && d.bytesReceived == (if wc.opcode == WcRecvWithImm then wc.byteLen else c.bytesReceived)
  {
  }

  /** A successful completion of the kind the worker waits for; a request must not carry the word 0. */
  predicate ServerExpects(c: Comm, wc: Completion)
    requires |c.message| == MESSAGE_CAPACITY
  {
    && wc.success
    && match wc.opcode
       case WcSend => c.state == MrspSending
       case WcRecv => (c.state == MrspReceiving && c.message[0] == 1) || c.state == DataReceiving
       case WcRdmaWrite => c.state == DataSending
       case WcRecvWithImm => c.state == DataReceiving && wc.imm != 0
       case WcOther => false
  }

  /** Whether a setup request is to be answered. */
  predicate Requested(c: Comm, wc: Completion)
    requires |c.message| == MESSAGE_CAPACITY
  {
    wc.success && c.state == MrspReceiving && wc.opcode == WcRecv && c.message[0] == 1
  }

  /** Fields that no completion changes at the worker, except for a request it answers. */
  predicate ServerFrame(c: Comm, d: Comm) {
    && d.local == c.local && d.peer == c.peer && d.internals == c.internals
    && d.noInput == c.noInput && d.noOutput == c.noOutput && d.noRpcCalls == c.noRpcCalls
    && d.maxInline == c.maxInline && d.message == c.message
    && d.responseReceived == c.responseReceived && d.responseUserImm == c.responseUserImm
    && d.bytesReceived == c.bytesReceived
  }

  /**
   * The worker accepts exactly what it expects, given its allocations; a completion it refuses
   * changes nothing unless it was a request, which is always answered.
   */
  lemma {:induction false} ServerAcceptsIff(c: Comm, wc: Completion, allocs: seq<Server.Alloc>)
    requires Server.Handleable(c, wc, allocs)
    ensures var r := Server.Handle(c, wc, allocs);
      && (r.sent.Some? <==> Requested(c, wc))
      && (!Requested(c, wc) ==> (r.ok <==> ServerExpects(c, wc)) && ServerFrame(c, r.ctx))
      && (!Requested(c, wc) && !r.ok ==> r.ctx == c)
  {
    hide Server.HandleRequest, Server.Blank;
    if Requested(c, wc) {
      RequestAnswered(c, allocs);
    }
  }

  /** A request is answered with the type of the outcome: 2 for an answer, 0 for a failed allocation. */
  lemma {:induction false} RequestAnswered(c: Comm, allocs: seq<Server.Alloc>)
    requires Server.Blank(c) && Server.RequestFits(c) && |allocs| == c.message[1]
    ensures var r := Server.HandleRequest(c, allocs);
      && r.sent.Some? && |r.sent.value| >= 4 && r.sent.value[0] == (if r.ok then 2 else 0)
      && (!r.ok ==> |r.sent.value| == 4 && r.sent.value[1] == 1)
      && |r.sent.value| <= |r.ctx.message| == |c.message|
      && (forall i :: 0 <= i < |c.message| ==>
            r.ctx.message[i] == if i < |r.sent.value| then r.sent.value[i] else c.message[i])
      && r.ctx.state == MrspSending && r.ctx.fncode == c.fncode && r.ctx.immediate == c.immediate
      && r.ctx.noRpcCalls == c.noRpcCalls && r.ctx.writesDone == c.writesDone && r.ctx.maxInline == c.maxInline
  {
    hide Server.Fill, AnswerMessage, ErrorMessage, Adverts;
    var t := Server.Fill(ReceivedRequests(c.message), allocs);
    if t.Some? {
      SentSays(Server.WithTables(c, t.value), MSG_MR_A, 0);
      SendingChanges(Server.WithTables(c, t.value), MSG_MR_A, 0);
    } else {
      SentSays(c, MSG_MR_ERR, 1);
      SendingChanges(c, MSG_MR_ERR, 1);
    }
  }

  /** Where the worker goes with an accepted completion that is no setup request. */
  lemma {:induction false} ServerMoves(c: Comm, wc: Completion, allocs: seq<Server.Alloc>)
    requires Server.Handleable(c, wc, allocs) && ServerExpects(c, wc) && !Requested(c, wc)
    ensures var d := Server.Handle(c, wc, allocs).ctx;
      match wc.opcode
      case WcSend => d == c.(state := MrspDone)
      case WcRecv => d == c
      case WcRecvWithImm =>
        && d.state == Calculating && d.fncode == wc.imm % 0x80 && d.immediate == wc.imm / 0x100
        && d.writesDone == c.writesDone
      case WcRdmaWrite =>
        && d.fncode == c.fncode && d.immediate == c.immediate
        && (if (c.writesDone as int + 1) % 256 == c.noOutput then d.state == DataReceiving && d.writesDone == 0
            else d.state == DataSending && d.writesDone == (c.writesDone as int + 1) % 256)
      case WcOther => false
  {
  }

  /** Waiting for a request counts it, 32 bits wide, and changes the state; nothing else. */
  lemma WorkerWaits(c: Comm)
    ensures var d := Server.Awaiting(c);
      && d == c.(state := DataReceiving, noRpcCalls := d.noRpcCalls)
      && d.noRpcCalls == if c.noRpcCalls == 0xFFFF_FFFF then 0 else c.noRpcCalls + 1
  {
  }
}
