/** What travels in the 32 immediate bits, in both directions. */
module ImmediateWords {
  import opened Bytes
  import opened Context
  import Chain
  import Host
  import Server

  /** A request as the host sends it and as a waiting worker takes it up. */
  function TakenUp(h: Comm, user: seq<byte>, s: Comm, length: uint32): Server.Reaction
    requires |user| == 3 && s.state == DataReceiving && |s.message| == MESSAGE_CAPACITY
  {
    Server.Handle(s, Completion(true, WcRecvWithImm,
                                Host.RequestWord(Host.SetImmediate(h, user).immediate), length), [])
  }

  lemma WordParts(code: byte, user: seq<byte>)
    requires |user| == 3
    ensures var w := Host.RequestWord(Host.Word(code, user[0], user[1], user[2]));
      && w % 0x100 == (if code < 0x80 then code + 0x80 else code)
      && w % 0x80 == code % 0x80 && w / 0x100 == UserValue(user)
  {
    var v := Host.Word(code, user[0], user[1], user[2]);
    DivModUnique(v, 0x100, UserValue(user), code);
    hide Host.RequestWord, Host.Word;
    Host.RequestWordParts(v);
  }

  /**
   * Every request is accepted and its three user bytes arrive unchanged; the function code
   * arrives without its top bit, so it is recovered exactly for codes below 128.
   */
  lemma RequestRecovered(h: Comm, user: seq<byte>, s: Comm, length: uint32)
    requires |user| == 3 && s.state == DataReceiving && |s.message| == MESSAGE_CAPACITY
    ensures var r := TakenUp(h, user, s, length);
      && r.ok && r.ctx.state == Calculating
      && r.ctx.immediate == UserValue(user) && r.ctx.fncode == h.fncode % 0x80
      && (r.ctx.fncode == h.fncode <==> h.fncode < 0x80)
  {
    WordParts(h.fncode, user);
    hide Host.RequestWord, Host.Word, UserValue;
  }

  /** A solicited write of no bytes to the peer's first region, alone in its chain. */
  predicate EmptyWrite(wr: WriteRequest, c: Comm)
    requires |c.local| == |c.peer| && c.local != []
  {
    && wr.length == 0 && wr.source == c.local[0].addr && wr.target == c.peer[0].addr && wr.rkey == c.peer[0].rkey
    && wr.solicited && !wr.inlined && wr.next.None? && wr.id == 1
  }

  /** The write for function code 0 carries the one word that a worker refuses. */
  lemma ErrorRequestRefused(h: Comm, s: Comm, length: uint32)
    requires |h.local| == |h.peer| && h.local != [] && s.state == DataReceiving && |s.message| == MESSAGE_CAPACITY
    ensures var chain := Host.Posted(h, 0);
      && |chain| == 1 && chain[0].imm.Some? && EmptyWrite(chain[0], h)
      && Server.Handle(s, Completion(true, WcRecvWithImm, chain[0].imm.value, length), [])
         == Server.Reaction(s, false, None)
  {
  }

  /** A call whose receive could not be posted loses the function code, and asks for nothing. */
  lemma UnarmedAsksNothing(c: Comm)
    requires |c.local| == |c.peer| && c.local != []
    ensures Host.Armed(c, true) == c
    ensures var d := Host.Armed(c, false);
      && d.fncode == 0 && d == c.(fncode := 0)
      && var chain := Host.Posted(Host.Started(d), d.fncode);
         |chain| == 1 && chain[0].imm == Some(0) && EmptyWrite(chain[0], c)
  {
    hide Host.DropSingles, Host.DropCount;
  }

  /** The host cannot tell the reply of a failed kernel from that of a successful one. */
  lemma ErrorCodeLost(c: Comm, code: byte, length: uint32)
    requires |c.message| == MESSAGE_CAPACITY && (c.state == DataSending || c.state == DataReceiving)
    ensures var failed := Host.Handle(c, Completion(true, WcRecvWithImm, code, length));
      && failed.ok && failed.ctx.responseUserImm == 0
      && failed == Host.Handle(c, Completion(true, WcRecvWithImm, 0, length))
  {
  }

  /** The reply to a successful call: every output in full, the immediate 0 at the end, nothing inline. */
  lemma {:induction false} ReplyWrites(c: Comm)
    requires |c.local| == |c.peer| && Chain.Marked(c.local) != []
    ensures var reply := Server.Reply(c, 0);
      && Chain.WritesMarked(reply, c.local, c.peer, 0, true, -1)
      && forall k :: 0 <= k < |reply| ==> !reply[k].inlined
  {
    Chain.ChainCorrect(c.local, c.peer, 0, true, -1);
    hide Chain.Marked, Chain.Slots;
  }

  /** After an error reply one acknowledged write is all there is; it frees the worker only if noOutput is 1. */
  lemma ErrorReplyWaits(c: Comm, code: byte, wc: Completion)
    requires code != 0 && c.state == DataSending && c.writesDone == 0 && |c.message| == MESSAGE_CAPACITY
    requires |c.local| == |c.peer| && c.local != [] && wc.success && wc.opcode == WcRdmaWrite
    ensures var reply := Server.Reply(c, code);
      |reply| == 1 && reply[0].imm == Some(code) && EmptyWrite(reply[0], c)
    ensures var r := Server.Handle(c, wc, []);
      r.ok && (r.ctx.state == DataReceiving <==> c.noOutput == 1)
  {
  }
}
