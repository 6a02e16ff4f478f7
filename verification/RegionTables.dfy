/** A context's first region tables, and the addresses its request asks for. */
module RegionTables {
  import opened Bytes
  import opened Context
  import opened AddressLayout
  import opened Messages
  import opened Wire
  import Creation
  import Machine
  import ParameterMerge
  import Settings

  // ---------------------------------------------------------------- building the tables

  /** Internal regions come first in the layout, then the parameters. */
  method AllSizes(internalSizes: array<uint64>, paramSizes: array<uint64>) returns (sizes: array<uint64>)
    ensures sizes[..] == internalSizes[..] + paramSizes[..]
  {
    var q := internalSizes.Length;
    sizes := new uint64[q + paramSizes.Length](_ => 0);
    for i := 0 to q
      invariant forall k :: 0 <= k < i ==> sizes[k] == internalSizes[k]
    {
      sizes[i] := internalSizes[i];
    }
    for i := 0 to paramSizes.Length
      invariant forall k :: 0 <= k < q ==> sizes[k] == internalSizes[k]
      invariant forall k :: 0 <= k < i ==> sizes[q + k] == paramSizes[k]
    {
      sizes[i + q] := paramSizes[i];
    }
  }

  /** The parameter tables; before its registration a region's length is its size, and its key 0. */
  method SetParameterMrs(params: array<uint64>, addrs: array<uint64>, sizes: array<uint64>, q: nat)
    returns (local: array<LocalRegion>, peer: array<PeerRegion>)
    requires q + params.Length == addrs.Length == sizes.Length
    ensures fresh(local) && fresh(peer) && local.Length == peer.Length == params.Length
    ensures forall i :: 0 <= i < params.Length ==>
      && local[i] == LocalRegion(params[i], sizes[q + i], false, sizes[q + i], 0, false, false)
      && peer[i] == PeerRegion(addrs[q + i], 0, sizes[q + i], false, false)
  {
    var p := params.Length;
    local := new LocalRegion[p](_ => LocalRegion(0, 0, false, 0, 0, false, false));
    for i := 0 to p
      invariant forall k :: 0 <= k < i ==>
        local[k] == LocalRegion(params[k], sizes[q + k], false, sizes[q + k], 0, false, false)
    {
      local[i] := LocalRegion(params[i], sizes[q + i], false, sizes[q + i], 0, false, false);
    }
    peer := new PeerRegion[p](_ => PeerRegion(0, 0, 0, false, false));
    for i := 0 to p
      invariant forall k :: 0 <= k < p ==>
        local[k] == LocalRegion(params[k], sizes[q + k], false, sizes[q + k], 0, false, false)
      invariant forall k :: 0 <= k < i ==> peer[k] == PeerRegion(addrs[q + k], 0, sizes[q + k], false, false)
    {
      peer[i] := PeerRegion(addrs[q + i], 0, sizes[q + i], false, false);
    }
  }

  method SetInternalMrs(q: nat, addrs: array<uint64>, sizes: array<uint64>) returns (internals: array<InternalRegion>)
    requires q <= addrs.Length == sizes.Length
    ensures fresh(internals) && internals.Length == q
    ensures forall j :: 0 <= j < q ==> internals[j] == InternalRegion(addrs[j], sizes[j])
  {
    internals := new InternalRegion[q](_ => InternalRegion(0, 0));
    for j := 0 to q
      invariant forall k :: 0 <= k < j ==> internals[k] == InternalRegion(addrs[k], sizes[k])
    {
      internals[j] := InternalRegion(addrs[j], sizes[j]);
    }
  }

  /** Fresh tables whose requested addresses are one layout, internal regions in front. */
  ghost predicate Laid(offset: uint64, params: seq<uint64>, paramSizes: seq<uint64>, internalSizes: seq<uint64>,
                       local: seq<LocalRegion>, peer: seq<PeerRegion>, internals: seq<InternalRegion>)
  {
    var q, all := |internalSizes|, internalSizes + paramSizes;
    && |local| == |peer| == |params| == |paramSizes| && |internals| == q
    && (forall i :: 0 <= i < |params| ==>
          && local[i] == LocalRegion(params[i], paramSizes[i], false, paramSizes[i], 0, false, false)
          && peer[i] == PeerRegion(AddressOf(offset, all, q + i), 0, paramSizes[i], false, false))
    && (forall j :: 0 <= j < q ==> internals[j] == InternalRegion(AddressOf(offset, all, j), internalSizes[j]))
  }

  /** The tables of a new context. */
  method InitTables(offset: uint64, params: array<uint64>, paramSizes: array<uint64>, internalSizes: array<uint64>)
    returns (local: array<LocalRegion>, peer: array<PeerRegion>, internals: array<InternalRegion>)
    requires params.Length == paramSizes.Length
    ensures fresh(local) && fresh(peer) && fresh(internals)
    ensures Laid(offset, params[..], paramSizes[..], internalSizes[..], local[..], peer[..], internals[..])
  {
    var q := internalSizes.Length;
    var sizes := AllSizes(internalSizes, paramSizes);
    var addrs := SequentialAddresses(offset, sizes);
    hide AddressOf, Laid;
    internals := SetInternalMrs(q, addrs, sizes);
    local, peer := SetParameterMrs(params, addrs, sizes, q);
    TablesAreLaid(offset, params[..], paramSizes[..], internalSizes[..], addrs[..], local[..], peer[..], internals[..]);
  }

  lemma {:induction false} TablesAreLaid(
    offset: uint64, params: seq<uint64>, paramSizes: seq<uint64>, internalSizes: seq<uint64>, addrs: seq<uint64>,
    local: seq<LocalRegion>, peer: seq<PeerRegion>, internals: seq<InternalRegion>)
    requires |local| == |peer| == |params| == |paramSizes| && |internals| == |internalSizes|
    requires |addrs| == |internalSizes| + |paramSizes|
    requires forall k :: 0 <= k < |addrs| ==> addrs[k] == AddressOf(offset, internalSizes + paramSizes, k)
    requires forall i :: 0 <= i < |params| ==>
      var n := |internalSizes| + i;
      && local[i] == LocalRegion(params[i], (internalSizes + paramSizes)[n], false, (internalSizes + paramSizes)[n],
                                 0, false, false)
      && peer[i] == PeerRegion(addrs[n], 0, (internalSizes + paramSizes)[n], false, false)
    requires forall j :: 0 <= j < |internals| ==>
      internals[j] == InternalRegion(addrs[j], (internalSizes + paramSizes)[j])
    ensures Laid(offset, params, paramSizes, internalSizes, local, peer, internals)
  {
    hide AddressOf;
  }

  // ---------------------------------------------------------------- what the accelerator reads

  /** The bytes of a request, read record by record. */
  lemma {:induction false} RequestReads(m: seq<byte>, local: seq<LocalRegion>, peer: seq<PeerRegion>,
                                        internals: seq<InternalRegion>, i: nat)
    requires SaysRequest(m, local, peer, internals) && i < |local| + |internals|
    ensures var r := RequestAt(m, i);
      && (i < |local| ==>
            && r.naaAddr == peer[i].addr % 0x100_0000_0000_0000
            && r.advert == Advert(local[i].addr, local[i].rkey, local[i].length % 0x1_0000_0000))
      && (i >= |local| ==>
            && r.naaAddr == internals[i - |local|].addr % 0x100_0000_0000_0000
            && r.advert == Advert(0, 0, internals[i - |local|].size % 0x1_0000_0000))
      && (HasFlag(r.flags, MRFLAG_INTERNAL) <==> i >= |local|)
  {
    var s := m[4 + 24 * i..28 + 24 * i];
    hide DecodeRequest, SaysParameter, SaysInternal;
    if i < |local| {
      assert SaysParameter(s, local[i], peer[i]);
      ParameterRead(s, local[i], peer[i]);
      FlagsOfParameter(s, local[i], peer[i]);
    } else {
      InternalRead(s, internals[i - |local|]);
    }
  }

  lemma FlagsOfParameter(s: seq<byte>, l: LocalRegion, p: PeerRegion)
    requires |s| == 24 && SaysParameter(s, l, p)
    ensures !HasFlag(s[0], MRFLAG_INTERNAL)
  {
  }

  /** A requested address arrives unchanged exactly if it fits the 7 bytes it is given. */
  lemma {:induction false} AddressSurvivesIff(m: seq<byte>, local: seq<LocalRegion>, peer: seq<PeerRegion>,
                                              internals: seq<InternalRegion>, i: nat)
    requires SaysRequest(m, local, peer, internals) && i < |local|
    ensures RequestAt(m, i).naaAddr == peer[i].addr <==> peer[i].addr < 0x100_0000_0000_0000
  {
    hide RequestAt;
    RequestReads(m, local, peer, internals, i);
  }

  /** The buffer at the accelerator once the host has sent its request. */
  function Arrived(h: Comm, buffer: seq<byte>): seq<byte>
    requires Sendable(h, MSG_MR_AAR) && |buffer| == MESSAGE_CAPACITY
  {
    MessageFits(h, MSG_MR_AAR, 0);
    Over(MessageBytes(h, MSG_MR_AAR, 0), buffer)
  }

  lemma ArrivedSays(h: Comm, buffer: seq<byte>)
    requires Sendable(h, MSG_MR_AAR) && |buffer| == MESSAGE_CAPACITY
    ensures SaysRequest(Arrived(h, buffer), h.local, h.peer, h.internals)
  {
    MessageFits(h, MSG_MR_AAR, 0);
    var bytes := MessageBytes(h, MSG_MR_AAR, 0);
    assert bytes == RequestMessage(Records(h.local, h.peer, h.internals));
    OverStart(bytes, buffer);
    hide RequestMessage, Over, SaysRequest;
    RequestSays(h.local, h.peer, h.internals, buffer[|bytes|..]);
  }

  /** Where region `x` of the layout stands in the request: parameters are announced first. */
  function RecordOf(x: nat, p: nat, q: nat): nat {
    if x < q then p + x else x - q
  }

  /** What the context holds of region `x` of the layout. */
  lemma {:induction false} TablesLaid(
    offset: uint64, params: seq<uint64>, paramSizes: seq<uint64>, internalSizes: seq<uint64>,
    local: seq<LocalRegion>, peer: seq<PeerRegion>, internals: seq<InternalRegion>, new': Comm, h: Comm,
    keys: seq<uint32>, x: nat)
    requires Laid(offset, params, paramSizes, internalSizes, local, peer, internals)
    requires new'.local == local && new'.peer == peer && new'.internals == internals
    requires Creation.KeepsRegions(h, new', keys) && x < |internalSizes| + |paramSizes|
    ensures var q, all := |internalSizes|, internalSizes + paramSizes;
      && |h.local| == |h.peer| == |params| == |paramSizes| == |keys| && |h.internals| == q
      && (x < q ==> h.internals[x] == InternalRegion(AddressOf(offset, all, x), all[x]))
      && (x >= q ==>
            && h.peer[x - q].addr == AddressOf(offset, all, x) && h.local[x - q].addr == params[x - q]
            && h.local[x - q].rkey == keys[x - q] && h.local[x - q].length == all[x])
  {
    var q, all := |internalSizes|, internalSizes + paramSizes;
    hide AddressOf;
    if x >= q {
      var i := x - q;
      assert q + i == x && peer[i].addr == AddressOf(offset, all, q + i);
    }
  }

  /**
   * From tables laid out at an offset, through any setters, marking, registration and connection,
   * to the records the accelerator reads: the record of each region asks for the region's address
   * in the layout modulo 2^56, and says what buffer the host has for it.
   */
  lemma {:induction false} LayoutRequested(
    fncode: byte, offset: uint64, params: seq<uint64>, paramSizes: seq<uint64>, internalSizes: seq<uint64>,
    local: seq<LocalRegion>, peer: seq<PeerRegion>, internals: seq<InternalRegion>, maxInline: nat,
    h: Comm, keys: seq<uint32>, buffer: seq<byte>, x: nat)
    requires Laid(offset, params, paramSizes, internalSizes, local, peer, internals)
    requires Creation.KeepsRegions(h, NewComm(fncode, local, peer, internals, maxInline), keys)
    requires Sendable(h, MSG_MR_AAR) && |buffer| == MESSAGE_CAPACITY && x < |internalSizes| + |paramSizes|
    ensures var p, q, all := |params|, |internalSizes|, internalSizes + paramSizes;
      var r := RequestAt(Arrived(h, buffer), RecordOf(x, p, q));
      && r.naaAddr == AddressOf(offset, all, x) % 0x100_0000_0000_0000
      && r.advert.size == all[x] % 0x1_0000_0000
      && (x < q ==> r.advert.addr == 0 && r.advert.rkey == 0)
      && (x >= q ==> r.advert.addr == params[x - q] && r.advert.rkey == keys[x - q])
  {
    var p, q := |params|, |internalSizes|;
    ArrivedSays(h, buffer);
    TablesLaid(offset, params, paramSizes, internalSizes, local, peer, internals,
               NewComm(fncode, local, peer, internals, maxInline), h, keys, x);
    RequestReads(Arrived(h, buffer), h.local, h.peer, h.internals, RecordOf(x, p, q));
    hide SaysRequest, Arrived, RequestAt, Sendable, AddressOf, Laid, Creation.KeepsRegions, HasFlag;
  }

  lemma LayoutFits(offset: uint64, all: seq<uint64>, x: nat)
    requires NoOverflow(offset, all) && x < |all| && End(offset, all) <= 0x100_0000_0000_0000
    ensures AddressOf(offset, all, x) % 0x100_0000_0000_0000 == AddressOf(offset, all, x)
       <==> End(offset, all) < 0x100_0000_0000_0000 || SomeBytesFrom(all, x)
  {
    LayoutFitsIff(offset, all, x);
    hide *;
  }

  /**
   * In a layout that ends by 2^56 the accelerator reads the address of a region unchanged exactly
   * if the layout ends below 2^56 or some region from that one on is not empty.
   */
  lemma {:induction false} LayoutSurvivesIff(
    fncode: byte, offset: uint64, params: seq<uint64>, paramSizes: seq<uint64>, internalSizes: seq<uint64>,
    local: seq<LocalRegion>, peer: seq<PeerRegion>, internals: seq<InternalRegion>, maxInline: nat,
    h: Comm, keys: seq<uint32>, buffer: seq<byte>, x: nat)
    requires Laid(offset, params, paramSizes, internalSizes, local, peer, internals)
    requires Creation.KeepsRegions(h, NewComm(fncode, local, peer, internals, maxInline), keys)
    requires Sendable(h, MSG_MR_AAR) && |buffer| == MESSAGE_CAPACITY && x < |internalSizes| + |paramSizes|
    requires NoOverflow(offset, internalSizes + paramSizes)
    requires End(offset, internalSizes + paramSizes) <= 0x100_0000_0000_0000
    ensures var all := internalSizes + paramSizes;
      RequestAt(Arrived(h, buffer), RecordOf(x, |params|, |internalSizes|)).naaAddr == AddressOf(offset, all, x)
      <==> End(offset, all) < 0x100_0000_0000_0000 || SomeBytesFrom(all, x)
  {
    LayoutRequested(fncode, offset, params, paramSizes, internalSizes, local, peer, internals, maxInline, h, keys,
                    buffer, x);
    LayoutFits(offset, internalSizes + paramSizes, x);
    hide *;
  }
}
