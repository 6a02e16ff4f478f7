/** Work requests, work completions and the communication context that both ends keep. */
module Context {
  import opened Bytes

  datatype Option<+T> = None | Some(value: T)

  /** Room for 32 region records; the 4-byte message header is not accounted for. */
  const MESSAGE_CAPACITY := 768

  datatype Opcode = WcSend | WcRdmaWrite | WcRecv | WcRecvWithImm | WcOther

  datatype Completion = Completion(success: bool, opcode: Opcode, imm: uint32, byteLen: uint32)

  /** One element of a posted chain; `next` is the array slot it is linked to. */
  datatype WriteRequest = WriteRequest(
    id: nat, source: uint64, length: uint32, target: uint64, rkey: uint32,
    imm: Option<uint32>, solicited: bool, inlined: bool, next: Option<nat>)

  datatype State =
    | Init | Ready | Connected | Disconnected
    | MrspSending | MrspReceiving | MrspDone
    | DataSending | Calculating | DataReceiving
    | Finished | Error

  datatype LocalRegion = LocalRegion(
    addr: uint64, size: nat, registered: bool, length: nat, rkey: uint32,
    toWrite: bool, singleSend: bool)

  datatype PeerRegion = PeerRegion(
    addr: uint64, rkey: uint32, size: nat, toWrite: bool, singleSend: bool)

  datatype InternalRegion = InternalRegion(addr: uint64, size: nat)

  /** The fields of a communication context as one value. */
  datatype Comm = Comm(
    state: State,
    fncode: byte,
    immediate: uint32,
    local: seq<LocalRegion>,
    peer: seq<PeerRegion>,
    internals: seq<InternalRegion>,
    noInput: byte,
    noOutput: byte,
    writesDone: byte,
    responseReceived: bool,
    noRpcCalls: uint32,
    responseUserImm: uint32,
    bytesReceived: uint32,
    maxInline: nat,
    message: seq<byte>)

  /** What a call leaves behind, and whether it returned 0. */
  datatype Outcome = Outcome(ctx: Comm, ok: bool)

  /** The context as the library holds it: fields and buffers updated in place. */
  class CommContext {
    var state: State
    var fncode: byte
    var immediate: uint32
    var mrLocal: array<LocalRegion>
    var mrPeer: array<PeerRegion>
    var mrInternal: array<InternalRegion>
    var noInput: byte
    var noOutput: byte
    var writesDone: byte
    var responseReceived: bool
    var noRpcCalls: uint32
    var responseUserImm: uint32
    var bytesReceived: uint32
    var maxInline: nat
    const message: array<byte>

    ghost predicate Valid()
      reads this
    {
      && message.Length == MESSAGE_CAPACITY
      && mrLocal.Length == mrPeer.Length < 256
      && mrInternal.Length < 256
    }

    ghost function View(): Comm
      reads this, mrLocal, mrPeer, mrInternal, message
    {
      Comm(state, fncode, immediate, mrLocal[..], mrPeer[..], mrInternal[..], noInput, noOutput,
           writesDone, responseReceived, noRpcCalls, responseUserImm, bytesReceived, maxInline,
           message[..])
    }

    /** A context over freshly built tables, none of whose regions is marked; no connection yet. */
    constructor (fncode: byte, local: array<LocalRegion>, peer: array<PeerRegion>,
                 internals: array<InternalRegion>, maxInline: nat)
      requires local.Length == peer.Length < 256 && internals.Length < 256
      requires Unmarked(local[..], peer[..])
      ensures Valid() && mrLocal == local && mrPeer == peer && mrInternal == internals
      ensures fresh(message)
      ensures View() == NewComm(fncode, local[..], peer[..], internals[..], maxInline)
    {
      this.state := Init;
      this.fncode, this.immediate := fncode, fncode;
      this.mrLocal, this.mrPeer, this.mrInternal := local, peer, internals;
      this.noInput, this.noOutput, this.writesDone := 0, 0, 0;
      this.responseReceived := false;
      this.noRpcCalls, this.responseUserImm, this.bytesReceived := 0, 0, 0;
      this.maxInline := maxInline;
      this.message := new byte[MESSAGE_CAPACITY](i => 0);
      new;
      assert message[..] == seq(MESSAGE_CAPACITY, i => 0);
    }
  }

  predicate Unmarked(local: seq<LocalRegion>, peer: seq<PeerRegion>) {
    && (forall i :: 0 <= i < |local| ==> !local[i].toWrite && !local[i].singleSend)
    && (forall i :: 0 <= i < |peer| ==> !peer[i].toWrite && !peer[i].singleSend)
  }

  /** A new context: three zero user bytes above the function code, all counters zero. */
  function NewComm(fncode: byte, local: seq<LocalRegion>, peer: seq<PeerRegion>,
                   internals: seq<InternalRegion>, maxInline: nat): Comm
  {
    Comm(Init, fncode, fncode, local, peer, internals, 0, 0, 0, false, 0, 0, 0, maxInline,
         seq(MESSAGE_CAPACITY, i => 0))
  }

  /** Creates a context, unless the function code is 0. */
  method InitContext(fncode: byte, local: array<LocalRegion>, peer: array<PeerRegion>,
                     internals: array<InternalRegion>, maxInline: nat) returns (c: Option<CommContext>)
    requires local.Length == peer.Length < 256 && internals.Length < 256
    requires Unmarked(local[..], peer[..])
    ensures c.None? <==> fncode == 0
    ensures c.Some? ==>
      && fresh(c.value) && fresh(c.value.message) && c.value.Valid()
      && c.value.mrLocal == local && c.value.mrPeer == peer && c.value.mrInternal == internals
      && c.value.View() == NewComm(fncode, local[..], peer[..], internals[..], maxInline)
  {
    if fncode < 1 {
      return None;
    }
    var created := new CommContext(fncode, local, peer, internals, maxInline);
    c := Some(created);
  }
}
