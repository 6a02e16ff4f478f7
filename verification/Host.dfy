/** The host side: region marks, setup messages, data transfer and the completion handler. */
module Host {
  import opened Bytes
  import opened Context
  import opened Chain
  import opened Wire

  /** Set in the immediate of every request. */
  const START_RPC_MASK := 0x80

  // ---------------------------------------------------------------- what each call computes

  function SetInput(c: Comm, i: nat): Outcome {
    if i >= |c.local| then Outcome(c, false)
    else if c.local[i].toWrite then Outcome(c, true)
    else Outcome(c.(local := c.local[i := c.local[i].(toWrite := true)],
                    noInput := (c.noInput + 1) % 256), true)
  }

  function SetOutput(c: Comm, i: nat): Outcome {
    if i >= |c.peer| then Outcome(c, false)
    else if c.peer[i].toWrite then Outcome(c, true)
    else Outcome(c.(peer := c.peer[i := c.peer[i].(toWrite := true)],
                    noOutput := (c.noOutput + 1) % 256), true)
  }

  function SetSingleSend(c: Comm, i: nat): Outcome
    requires |c.local| == |c.peer|
  {
    if i >= |c.peer| then Outcome(c, false)
    else
      var c' := c.(local := c.local[i := c.local[i].(singleSend := true)]);
      if c.local[i].toWrite then Outcome(c', true)
      else Outcome(c'.(local := c'.local[i := c'.local[i].(toWrite := true)],
                       noInput := (c.noInput + 1) % 256), true)
  }

  /** A negative count, and not zero, restores the registered length. */
  function SetBytes(c: Comm, i: nat, count: int): Outcome {
    if i >= |c.local| || !c.local[i].registered then Outcome(c, false)
    else if count < 0 then
      Outcome(c.(local := c.local[i := c.local[i].(size := c.local[i].length)]), true)
    else if count > c.local[i].length then Outcome(c, false)
    else Outcome(c.(local := c.local[i := c.local[i].(size := count)]), true)
  }

  /** Four bytes in memory order as one little-endian word. */
  function Word(b0: byte, b1: byte, b2: byte, b3: byte): uint32 {
    (b0 as int) + 0x100 * (b1 as int) + 0x1_0000 * (b2 as int) + 0x100_0000 * (b3 as int)
  }

  /** Three user bytes above the function code, as a little-endian word. */
  function SetImmediate(c: Comm, user: seq<byte>): Comm
    requires |user| == 3
  {
    c.(immediate := Word(c.fncode, user[0], user[1], user[2]))
  }

  /** The request word: the immediate with the start bit forced on. */
  function RequestWord(immediate: uint32): (w: uint32)
    ensures w > 0
  {
    if (immediate / START_RPC_MASK) % 2 == 1 then immediate
    else (immediate + START_RPC_MASK) % 0x1_0000_0000
  }

  /** Forcing the start bit changes the low byte only, and only codes below 128. */
  lemma RequestWordParts(immediate: uint32)
    ensures var w := RequestWord(immediate);
      var code := immediate % 0x100;
      && w % 0x100 == (if code < 0x80 then code + 0x80 else code)
      && w % 0x80 == code % 0x80 && w / 0x100 == immediate / 0x100
  {
    var q, code := immediate / 0x100, immediate % 0x100;
    var high := if code < 0x80 then 0 else 1;
    DivModUnique(immediate, 0x80, 2 * q + high, code - 0x80 * high);
    DivModUnique(code, 0x80, high, code - 0x80 * high);
    DivModUnique(2 * q + high, 2, q, high);
    if code < 0x80 {
      DivModUnique(immediate + 0x80, 0x100, q, code + 0x80);
      DivModUnique(immediate + 0x80, 0x80, 2 * q + 1, code);
    }
  }

  /** After the first call the single-send regions lose their mark. */
  function DropSingles(local: seq<LocalRegion>, calls: nat): (r: seq<LocalRegion>)
    ensures |r| == |local|
  {
    seq(|local|, i requires 0 <= i < |local| =>
      if calls > 0 && local[i].singleSend then local[i].(toWrite := false) else local[i])
  }

  function DropCount(local: seq<LocalRegion>, calls: nat): nat {
    if local == [] || calls == 0 then 0
    else
      var last := local[|local| - 1];
      DropCount(local[..|local| - 1], calls) + if last.singleSend && last.toWrite then 1 else 0
  }

  /** The context that a data write leaves, before any completion. */
  function AfterWrite(c: Comm, fncode: byte): Comm {
    if fncode == 0 then Cleared(c) else WithoutSingles(Cleared(c))
  }

  /** Trackers of an unfinished transfer are discarded. */
  function Cleared(c: Comm): Comm {
    c.(writesDone := 0, responseReceived := false, state := DataSending)
  }

  function WithoutSingles(c: Comm): Comm {
    c.(local := DropSingles(c.local, c.noRpcCalls),
       noInput := (c.noInput - DropCount(c.local, c.noRpcCalls)) % 256)
  }

  /** The writes posted from a context that `AfterWrite` produced. */
  function Posted(c: Comm, fncode: byte): seq<WriteRequest>
    requires |c.local| == |c.peer| && (fncode == 0 ==> c.local != [])
  {
    if fncode == 0 then
      [WriteRequest(1, c.local[0].addr, 0, c.peer[0].addr, c.peer[0].rkey, Some(0), true, false, None)]
    else Slots(c.local, c.peer, RequestWord(c.immediate), false, c.maxInline)
  }

  /** The counter of inputs agrees with the marks; every setter and every call keeps this. */
  predicate Counted(c: Comm) {
    && |c.local| == |c.peer| < 256
    && c.noInput == |Marked(c.local)|
    && c.noOutput == OutputCount(c.peer)
  }

  function OutputCount(peer: seq<PeerRegion>): (n: nat)
    ensures n <= |peer|
  {
    if peer == [] then 0
    else OutputCount(peer[..|peer| - 1]) + if peer[|peer| - 1].toWrite then 1 else 0
  }

  /** An answer whose records fit both the buffer and the host's table. */
  predicate AnswerFits(c: Comm) {
    && |c.message| == MESSAGE_CAPACITY
    && c.message[1] <= |c.peer|
    && HEADER_SIZE + ADVERT_SIZE * c.message[1] <= MESSAGE_CAPACITY
  }

  /** The peer table with the addresses, keys and sizes of an answer; marks stay. */
  function Recorded(peer: seq<PeerRegion>, ads: seq<Advert>): (r: seq<PeerRegion>)
    requires |ads| <= |peer|
    ensures |r| == |peer|
  {
    seq(|peer|, i requires 0 <= i < |peer| =>
      if i < |ads| then peer[i].(addr := ads[i].addr, rkey := ads[i].rkey, size := ads[i].size)
      else peer[i])
  }

  /** What the handler needs of a completion: a setup answer must fit the tables. */
  predicate Handleable(c: Comm, wc: Completion) {
    && |c.message| == MESSAGE_CAPACITY
    && (c.state == MrspReceiving && wc.opcode == WcRecv && c.message[0] == MSG_MR_A ==> AnswerFits(c))
  }

  /** Updates the tracker that a completion of a data transfer belongs to. */
  function Tracked(c: Comm, wc: Completion): Comm {
    if wc.opcode == WcRdmaWrite then c.(writesDone := (c.writesDone + 1) % 256)
    else if wc.opcode == WcRecvWithImm then
      c.(responseUserImm := wc.imm / 0x100, bytesReceived := wc.byteLen, responseReceived := true)
    else c
  }

  /** Counts one completion of a data transfer and ends the transfer once all are in. */
  function CountCompletion(c: Comm, wc: Completion): Comm {
    var c1 := Tracked(c, wc);
    if c1.writesDone < c1.noInput then c1
    else if c1.responseReceived then
      c1.(writesDone := 0, responseReceived := false, state := Finished)
    else c1.(state := DataReceiving)
  }

  function Handle(c: Comm, wc: Completion): Outcome
    requires Handleable(c, wc)
  {
    if !wc.success then Outcome(c, false)
    else if c.state == MrspSending && wc.opcode == WcSend then
      Outcome(c.(state := MrspReceiving), true)
    else if c.state == MrspReceiving && wc.opcode == WcRecv then
      if c.message[0] == MSG_MR_A then
        Outcome(c.(peer := Recorded(c.peer, ReceivedAdverts(c.message)), state := MrspDone), true)
      else Outcome(c, false)
    else if (c.state == DataSending || c.state == DataReceiving)
         && (wc.opcode == WcRdmaWrite || wc.opcode == WcRecv || wc.opcode == WcRecvWithImm) then
      Outcome(CountCompletion(c, wc), true)
    else Outcome(c, false)
  }

  // ---------------------------------------------------------------- the calls themselves

  method SetInputMr(c: CommContext, i: nat) returns (ok: bool)
    requires c.Valid()
    modifies c`noInput, c.mrLocal
    ensures c.Valid() && Outcome(c.View(), ok) == SetInput(old(c.View()), i)
  {
    if i >= c.mrLocal.Length {
      return false;
    }
    if !c.mrLocal[i].toWrite {
      c.mrLocal[i] := c.mrLocal[i].(toWrite := true);
      c.noInput := (c.noInput + 1) % 256;
    }
    assert c.View().local == SetInput(old(c.View()), i).ctx.local;
    ok := true;
  }

  method SetOutputMr(c: CommContext, i: nat) returns (ok: bool)
    requires c.Valid()
    modifies c`noOutput, c.mrPeer
    ensures c.Valid() && Outcome(c.View(), ok) == SetOutput(old(c.View()), i)
  {
    if i >= c.mrPeer.Length {
      return false;
    }
    if !c.mrPeer[i].toWrite {
      c.mrPeer[i] := c.mrPeer[i].(toWrite := true);
      c.noOutput := (c.noOutput + 1) % 256;
    }
    assert c.View().peer == SetOutput(old(c.View()), i).ctx.peer;
    ok := true;
  }

  method SetSingleSendMr(c: CommContext, i: nat) returns (ok: bool)
    requires c.Valid()
    modifies c`noInput, c.mrLocal
    ensures c.Valid() && Outcome(c.View(), ok) == SetSingleSend(old(c.View()), i)
  {
    if i >= c.mrPeer.Length {
      return false;
    }
    c.mrLocal[i] := c.mrLocal[i].(singleSend := true);
    if !c.mrLocal[i].toWrite {
      c.mrLocal[i] := c.mrLocal[i].(toWrite := true);
      c.noInput := (c.noInput + 1) % 256;
    }
    assert c.View().local == SetSingleSend(old(c.View()), i).ctx.local;
    ok := true;
  }

  method SetBytesToSend(c: CommContext, i: nat, count: int) returns (ok: bool)
    requires c.Valid()
    modifies c.mrLocal
    ensures c.Valid() && Outcome(c.View(), ok) == SetBytes(old(c.View()), i, count)
  {
    if i >= c.mrLocal.Length || !c.mrLocal[i].registered {
      return false;
    }
    if count < 0 {
      c.mrLocal[i] := c.mrLocal[i].(size := c.mrLocal[i].length);
    } else if count > c.mrLocal[i].length {
      return false;
    } else {
      c.mrLocal[i] := c.mrLocal[i].(size := count);
    }
    assert c.View().local == SetBytes(old(c.View()), i, count).ctx.local;
    ok := true;
  }

  method SetImmediateBytes(c: CommContext, user: array<byte>)
    requires c.Valid() && user.Length == 3
    modifies c`immediate
    ensures c.Valid() && c.View() == SetImmediate(old(c.View()), user[..])
  {
    var bytes := new byte[4](i => 0);
    for i := 1 to 4
      invariant bytes[1..i] == user[..i - 1]
    {
      bytes[i] := user[i - 1];
      assert bytes[1..i + 1] == bytes[1..i] + [user[i - 1]];
    }
    bytes[0] := c.fncode;
    assert bytes[1..4] == user[..3];
    assert bytes[1] == bytes[1..4][0] && bytes[2] == bytes[1..4][1] && bytes[3] == bytes[1..4][2];
    c.immediate := Word(bytes[0], bytes[1], bytes[2], bytes[3]);
  }

  method DropSingleSends(c: CommContext)
    modifies c`noInput, c.mrLocal
    ensures c.mrLocal[..] == DropSingles(old(c.mrLocal[..]), c.noRpcCalls)
    ensures c.noInput == (old(c.noInput) - DropCount(old(c.mrLocal[..]), c.noRpcCalls)) % 256
  {
    var regions := c.mrLocal;
    ghost var was, calls := regions[..], c.noRpcCalls;
    for i := 0 to regions.Length
      invariant forall k :: 0 <= k < i ==> regions[k] == DropSingles(was, calls)[k]
      invariant forall k :: i <= k < regions.Length ==> regions[k] == was[k]
      invariant c.noInput == (old(c.noInput) - DropCount(was[..i], calls)) % 256
    {
      assert was[..i + 1][..i] == was[..i];
      if regions[i].singleSend && regions[i].toWrite && c.noRpcCalls > 0 {
        regions[i] := regions[i].(toWrite := false);
        c.noInput := (c.noInput - 1) % 256;
      }
    }
    assert was[..|was|] == was;
    assert regions[..] == DropSingles(was, calls);
  }

  lemma {:induction false} DropKeepsCount(local: seq<LocalRegion>, calls: nat)
    ensures |Marked(DropSingles(local, calls))| == |Marked(local)| - DropCount(local, calls)
  {
    if calls == 0 {
      MarkedByFlags(local, DropSingles(local, calls));
    } else if local != [] {
      var init := local[..|local| - 1];
      DropKeepsCount(init, calls);
      assert DropSingles(local, calls)[..|init|] == DropSingles(init, calls);
    }
  }

  /** A write leaves the counter equal to the marks that survive it. */
  lemma WriteKeepsCounted(c: Comm, fncode: byte)
    requires Counted(c)
    ensures Counted(AfterWrite(c, fncode))
  {
    DropKeepsCount(c.local, c.noRpcCalls);
  }

  method Clear(c: CommContext)
    modifies c`writesDone, c`responseReceived, c`state
    ensures c.View() == Cleared(old(c.View()))
  {
    c.writesDone := 0;
    c.responseReceived := false;
    c.state := DataSending;
  }

  /** The regular branch: drop the single-send regions, then chain every region still marked. */
  method WriteRegions(c: CommContext) returns (posted: seq<WriteRequest>)
    requires c.Valid()
    requires var left := DropSingles(c.mrLocal[..], c.noRpcCalls);
      left != [] && 0 < |Marked(left)| == (c.noInput - DropCount(c.mrLocal[..], c.noRpcCalls)) % 256
    modifies c`noInput, c.mrLocal
    ensures c.View() == WithoutSingles(old(c.View()))
    ensures posted == Slots(c.mrLocal[..], c.mrPeer[..], RequestWord(c.immediate), false, c.maxInline)
    ensures WritesMarked(posted, c.mrLocal[..], c.mrPeer[..], RequestWord(c.immediate), false, c.maxInline)
  {
    hide WritesMarked;
    DropSingleSends(c);
    posted := PostChain(c.mrLocal, c.mrPeer, c.noInput, RequestWord(c.immediate), false, c.maxInline);
  }

  /** Posts the inputs of one call. The caller keeps at least one region marked for every call. */
  method WriteData(c: CommContext, fncode: byte) returns (posted: seq<WriteRequest>)
    requires c.Valid() && Counted(c.View()) && c.mrLocal.Length > 0
    requires fncode != 0 ==> Marked(DropSingles(c.mrLocal[..], c.noRpcCalls)) != []
    modifies c`writesDone, c`responseReceived, c`state, c`noInput, c.mrLocal
    ensures c.View() == AfterWrite(old(c.View()), fncode)
    ensures posted == Posted(c.View(), fncode)
    ensures fncode != 0 ==>
      WritesMarked(posted, c.mrLocal[..], c.mrPeer[..], RequestWord(c.immediate), false, c.maxInline)
    ensures fncode == 0 ==>
      && |posted| == 1 && posted[0].length == 0 && posted[0].imm == Some(0) && !posted[0].inlined
      && posted[0].target == c.mrPeer[0].addr && posted[0].rkey == c.mrPeer[0].rkey
  {
    hide WritesMarked;
    DropKeepsCount(c.mrLocal[..], c.noRpcCalls);
    Clear(c);
    if fncode == 0 {
      posted := [WriteRequest(1, c.mrLocal[0].addr, 0, c.mrPeer[0].addr, c.mrPeer[0].rkey, Some(0),
                              true, false, None)];
    } else {
      posted := WriteRegions(c);
    }
  }

  /** Starts a call; `armed` says whether its receive could be posted. Without one the call asks for nothing. */
  method InitDataTransfer(c: CommContext, armed: bool) returns (posted: seq<WriteRequest>)
    requires c.Valid() && Counted(c.View()) && c.mrLocal.Length > 0
    requires armed && c.fncode != 0 ==> Marked(DropSingles(c.mrLocal[..], c.noRpcCalls)) != []
    modifies c`fncode, c`writesDone, c`responseReceived, c`state, c`noInput, c`noRpcCalls, c.mrLocal
    ensures c.View() == Started(Armed(old(c.View()), armed))
    ensures posted == Posted(c.View(), c.fncode)
  {
    hide WritesMarked, Slots, DropSingles, DropCount, RequestWord, Marked, OutputCount;
    Arm(c, armed);
    posted := WriteData(c, c.fncode);
    CountCall(c);
  }

  method CountCall(c: CommContext)
    modifies c`noRpcCalls
    ensures c.View() == old(c.View()).(noRpcCalls := (old(c.noRpcCalls) + 1) % 0x1_0000_0000)
  {
    c.noRpcCalls := (c.noRpcCalls + 1) % 0x1_0000_0000;
  }

  /** A receive that could not be posted takes the function code away, for good. */
  function Armed(c: Comm, armed: bool): Comm {
    if armed then c else c.(fncode := 0)
  }

  method Arm(c: CommContext, armed: bool)
    modifies c`fncode
    ensures c.View() == Armed(old(c.View()), armed)
  {
    if !armed {
      c.fncode := 0;
    }
  }

  /** The context once a call has been started. */
  function Started(c: Comm): Comm {
    AfterWrite(c, c.fncode).(noRpcCalls := (c.noRpcCalls + 1) % 0x1_0000_0000)
  }

  method RecordAnswer(c: CommContext)
    requires c.Valid() && AnswerFits(c.View())
    modifies c.mrPeer
    ensures c.Valid()
    ensures c.View() == old(c.View()).(
      peer := Recorded(old(c.mrPeer[..]), ReceivedAdverts(c.message[..])))
  {
    ghost var was := c.mrPeer[..];
    ghost var ads := ReceivedAdverts(c.message[..]);
    ghost var done := Recorded(was, ads);
    var count := c.message[1];
    for i := 0 to count
      invariant c.Valid() && c.mrPeer.Length == |was|
      invariant c.mrPeer[..i] == done[..i] && c.mrPeer[i..] == was[i..]
    {
      assert c.mrPeer[i] == was[i..][0];
      var bytes := c.message[HEADER_SIZE + ADVERT_SIZE * i..HEADER_SIZE + ADVERT_SIZE * (i + 1)];
      assert bytes == c.message[..][HEADER_SIZE + ADVERT_SIZE * i..HEADER_SIZE + ADVERT_SIZE * (i + 1)];
      var ad := DecodeAdvert(bytes);
      assert ad == ads[i];
      c.mrPeer[i] := c.mrPeer[i].(addr := ad.addr, rkey := ad.rkey, size := ad.size);
      assert c.mrPeer[..i + 1] == c.mrPeer[..i] + [c.mrPeer[i]];
      assert c.mrPeer[i + 1..] == was[i + 1..];
    }
    assert c.mrPeer[..] == c.mrPeer[..count] + c.mrPeer[count..];
    assert c.mrPeer[..] == done;
  }

  method Track(c: CommContext, wc: Completion)
    modifies c`writesDone, c`responseUserImm, c`bytesReceived, c`responseReceived
    ensures c.View() == Tracked(old(c.View()), wc)
  {
    if wc.opcode == WcRdmaWrite {
      c.writesDone := (c.writesDone + 1) % 256;
    } else if wc.opcode == WcRecvWithImm {
      c.responseUserImm := wc.imm / 0x100;
      c.bytesReceived := wc.byteLen;
      c.responseReceived := true;
    }
  }

  method CountTransfer(c: CommContext, wc: Completion)
    modifies c`writesDone, c`responseUserImm, c`bytesReceived, c`responseReceived, c`state
    ensures c.View() == CountCompletion(old(c.View()), wc)
  {
    Track(c, wc);
    if c.writesDone >= c.noInput {
      if c.responseReceived {
        c.writesDone := 0;
        c.responseReceived := false;
        c.state := Finished;
      } else {
        c.state := DataReceiving;
      }
    }
  }

  method HandleWorkCompletion(c: CommContext, wc: Completion) returns (ok: bool)
    requires c.Valid() && Handleable(c.View(), wc)
    modifies c, c.mrPeer
    ensures c.Valid() && c.mrPeer == old(c.mrPeer)
    ensures Outcome(c.View(), ok) == Handle(old(c.View()), wc)
  {
    if !wc.success {
      return false;
    }
    if c.state == MrspSending {
      if wc.opcode == WcSend {
        c.state := MrspReceiving;
        return true;
      }
    } else if c.state == MrspReceiving {
      if wc.opcode == WcRecv {
        if c.message[0] != MSG_MR_A {
          return false;
        }
        RecordAnswer(c);
        c.state := MrspDone;
        return true;
      }
    } else if c.state == DataSending || c.state == DataReceiving {
      if wc.opcode == WcRdmaWrite || wc.opcode == WcRecv || wc.opcode == WcRecvWithImm {
        CountTransfer(c, wc);
        return true;
      }
    }
    return false;
  }
}
