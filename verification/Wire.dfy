/** Byte layout of the region setup messages. */
module Wire {
  import opened Bytes
  import opened Context

  const MSG_MR_ERR: byte := 0
  const MSG_MR_AAR: byte := 1
  const MSG_MR_A: byte := 2

  const HEADER_SIZE := 4
  const ADVERT_SIZE := 16
  const REQUEST_SIZE := 24

  /** The largest number of 24-byte records that fit behind the header. */
  const MAX_RECORDS := 31

  const MRFLAG_INTERNAL: byte := 1
  const MRFLAG_SINGLESEND: byte := 2
  const MRFLAG_INPUT: byte := 4
  const MRFLAG_OUTPUT: byte := 8

  type address56 = x: int | 0 <= x < ADDRESS_LIMIT

  datatype Advert = Advert(addr: uint64, rkey: uint32, size: uint32)

  datatype Request = Request(flags: byte, naaAddr: address56, advert: Advert)

  predicate HasFlag(flags: byte, flag: byte)
    requires flag > 0
  {
    (flags / flag) % 2 == 1
  }

  /** Bitwise or with a single-bit flag. */
  function SetFlag(flags: byte, flag: byte): byte
    requires flag > 0
  {
    if HasFlag(flags, flag) then flags else (flags + flag) % 256
  }

  function Flags(local: LocalRegion, peer: PeerRegion): byte {
    var f0: byte := 0;
    var f1 := if local.singleSend then SetFlag(f0, MRFLAG_SINGLESEND) else f0;
    var f2 := if local.toWrite then SetFlag(f1, MRFLAG_INPUT) else f1;
    if peer.toWrite then SetFlag(f2, MRFLAG_OUTPUT) else f2
  }

  /** Flags in the top byte of the info word, the low 7 address bytes below. */
  function Info(flags: byte, naaAddr: address56): uint64 {
    flags * ADDRESS_LIMIT + naaAddr
  }

  function EncodeAdvert(a: Advert): (s: seq<byte>)
    ensures |s| == ADVERT_SIZE
  {
    Be(a.addr, 8) + Be(a.rkey, 4) + Be(a.size, 4)
  }

  function EncodeRequest(r: Request): (s: seq<byte>)
    ensures |s| == REQUEST_SIZE
  {
    Be(Info(r.flags, r.naaAddr), 8) + EncodeAdvert(r.advert)
  }

  function Field64(s: seq<byte>, off: nat): uint64
    requires off + 8 <= |s|
  {
    PowValues();
    BeOfFromBe(s[off..off + 8]);
    FromBe(s[off..off + 8])
  }

  function Field32(s: seq<byte>, off: nat): uint32
    requires off + 4 <= |s|
  {
    PowValues();
    BeOfFromBe(s[off..off + 4]);
    FromBe(s[off..off + 4])
  }

  function DecodeAdvert(s: seq<byte>): Advert
    requires |s| == ADVERT_SIZE
  {
    Advert(Field64(s, 0), Field32(s, 8), Field32(s, 12))
  }

  function DecodeRequest(s: seq<byte>): Request
    requires |s| == REQUEST_SIZE
  {
    var info := Field64(s, 0);
    Request(info / ADDRESS_LIMIT, info % ADDRESS_LIMIT, DecodeAdvert(s[8..]))
  }

  lemma AdvertRoundTrip(a: Advert)
    ensures DecodeAdvert(EncodeAdvert(a)) == a
  {
    FieldsSurvive();
    var s := EncodeAdvert(a);
    assert s[0..8] == Be(a.addr, 8) && s[8..12] == Be(a.rkey, 4) && s[12..16] == Be(a.size, 4);
  }

  lemma AdvertBytesRoundTrip(s: seq<byte>)
    requires |s| == ADVERT_SIZE
    ensures EncodeAdvert(DecodeAdvert(s)) == s
  {
    BeOfFromBe(s[0..8]);
    BeOfFromBe(s[8..12]);
    BeOfFromBe(s[12..16]);
    assert s == s[0..8] + s[8..12] + s[12..16];
  }

  /** A request record decodes to what was encoded, address and flags kept apart. */
  lemma RequestRoundTrip(r: Request)
    ensures DecodeRequest(EncodeRequest(r)) == r
  {
    FieldsSurvive();
    AdvertRoundTrip(r.advert);
    var s := EncodeRequest(r);
    assert s[0..8] == Be(Info(r.flags, r.naaAddr), 8) && s[8..] == EncodeAdvert(r.advert);
  }

  /** Every 24 bytes are the encoding of what they decode to. */
  lemma RequestBytesRoundTrip(s: seq<byte>)
    requires |s| == REQUEST_SIZE
    ensures EncodeRequest(DecodeRequest(s)) == s
  {
    BeOfFromBe(s[0..8]);
    AdvertBytesRoundTrip(s[8..]);
    assert s == s[0..8] + s[8..];
  }

  function Concat(chunks: seq<seq<byte>>): seq<byte> {
    if chunks == [] then [] else Concat(chunks[..|chunks| - 1]) + chunks[|chunks| - 1]
  }

  predicate Uniform(chunks: seq<seq<byte>>, size: nat) {
    forall i :: 0 <= i < |chunks| ==> |chunks[i]| == size
  }

  lemma {:induction false} ConcatLength(chunks: seq<seq<byte>>, size: nat)
    requires Uniform(chunks, size)
    ensures |Concat(chunks)| == |chunks| * size
  {
    if chunks != [] {
      ConcatLength(chunks[..|chunks| - 1], size);
      assert |chunks| * size == (|chunks| - 1) * size + size;
    }
  }

  /** Slot `i` of a body holds record `i`, whatever records follow it. */
  lemma {:induction false} ConcatSlot(chunks: seq<seq<byte>>, size: nat, i: nat)
    requires Uniform(chunks, size) && i < |chunks|
    ensures 0 <= i * size <= i * size + size <= |Concat(chunks)|
    ensures Concat(chunks)[i * size..i * size + size] == chunks[i]
  {
    var init := chunks[..|chunks| - 1];
    ConcatLength(init, size);
    ConcatLength(chunks, size);
    assert |chunks| * size == (|chunks| - 1) * size + size;
    if i == |chunks| - 1 {
      assert Concat(chunks)[i * size..] == chunks[i];
    } else {
      ConcatSlot(init, size, i);
      assert Concat(chunks)[i * size..i * size + size] == Concat(init)[i * size..i * size + size];
    }
  }

  function EncodeRequests(rs: seq<Request>): (chunks: seq<seq<byte>>)
    ensures Uniform(chunks, REQUEST_SIZE)
  {
    seq(|rs|, i requires 0 <= i < |rs| => EncodeRequest(rs[i]))
  }

  function EncodeAdverts(ads: seq<Advert>): (chunks: seq<seq<byte>>)
    ensures Uniform(chunks, ADVERT_SIZE)
  {
    seq(|ads|, i requires 0 <= i < |ads| => EncodeAdvert(ads[i]))
  }

  function Header(kind: byte, count: nat): (s: seq<byte>)
    ensures |s| == HEADER_SIZE
  {
    [kind, count % 256, 0, 0]
  }

  function RequestMessage(rs: seq<Request>): seq<byte> {
    Header(MSG_MR_AAR, |rs|) + Concat(EncodeRequests(rs))
  }

  function AnswerMessage(ads: seq<Advert>): seq<byte> {
    Header(MSG_MR_A, |ads|) + Concat(EncodeAdverts(ads))
  }

  function RequestAt(buffer: seq<byte>, i: nat): Request
    requires HEADER_SIZE + REQUEST_SIZE * (i + 1) <= |buffer|
  {
    DecodeRequest(buffer[HEADER_SIZE + REQUEST_SIZE * i..HEADER_SIZE + REQUEST_SIZE * (i + 1)])
  }

  function AdvertAt(buffer: seq<byte>, i: nat): Advert
    requires HEADER_SIZE + ADVERT_SIZE * (i + 1) <= |buffer|
  {
    DecodeAdvert(buffer[HEADER_SIZE + ADVERT_SIZE * i..HEADER_SIZE + ADVERT_SIZE * (i + 1)])
  }

  function ReceivedRequests(buffer: seq<byte>): seq<Request>
    requires |buffer| >= HEADER_SIZE && HEADER_SIZE + REQUEST_SIZE * buffer[1] <= |buffer|
  {
    seq(buffer[1], i requires 0 <= i < buffer[1] => RequestAt(buffer, i))
  }

  function ReceivedAdverts(buffer: seq<byte>): seq<Advert>
    requires |buffer| >= HEADER_SIZE && HEADER_SIZE + ADVERT_SIZE * buffer[1] <= |buffer|
  {
    seq(buffer[1], i requires 0 <= i < buffer[1] => AdvertAt(buffer, i))
  }

  /**
   * The request message ends at 4 + 24 * count and fits its buffer exactly for count <= 31,
   * one less than the limit on regions.
   */
  lemma RequestMessageSize(rs: seq<Request>)
    ensures |RequestMessage(rs)| == HEADER_SIZE + REQUEST_SIZE * |rs|
    ensures |RequestMessage(rs)| <= MESSAGE_CAPACITY <==> |rs| <= MAX_RECORDS
  {
    ConcatLength(EncodeRequests(rs), REQUEST_SIZE);
  }

  lemma AnswerMessageSize(ads: seq<Advert>)
    ensures |AnswerMessage(ads)| == HEADER_SIZE + ADVERT_SIZE * |ads|
  {
    ConcatLength(EncodeAdverts(ads), ADVERT_SIZE);
  }

  /** The receiver reads back exactly the records sent, in order, whatever follows them. */
  lemma RequestsRoundTrip(rs: seq<Request>, rest: seq<byte>)
    requires |rs| <= MAX_RECORDS
    ensures var buffer := RequestMessage(rs) + rest;
      && buffer[0] == MSG_MR_AAR && buffer[1] == |rs|
      && HEADER_SIZE + REQUEST_SIZE * buffer[1] <= |buffer|
      && ReceivedRequests(buffer) == rs
  {
    RequestMessageSize(rs);
    var buffer := RequestMessage(rs) + rest;
    var chunks := EncodeRequests(rs);
    forall i | 0 <= i < |rs|
      ensures RequestAt(buffer, i) == rs[i]
    {
      ConcatSlot(chunks, REQUEST_SIZE, i);
      RequestRoundTrip(rs[i]);
      assert buffer[HEADER_SIZE + REQUEST_SIZE * i..HEADER_SIZE + REQUEST_SIZE * (i + 1)]
          == Concat(chunks)[i * REQUEST_SIZE..i * REQUEST_SIZE + REQUEST_SIZE];
    }
  }

  lemma AdvertsRoundTrip(ads: seq<Advert>, rest: seq<byte>)
    requires |ads| <= MAX_RECORDS
    ensures var buffer := AnswerMessage(ads) + rest;
      && buffer[0] == MSG_MR_A && buffer[1] == |ads|
      && HEADER_SIZE + ADVERT_SIZE * buffer[1] <= |buffer|
      && ReceivedAdverts(buffer) == ads
  {
    AnswerMessageSize(ads);
    var buffer := AnswerMessage(ads) + rest;
    var chunks := EncodeAdverts(ads);
    forall i | 0 <= i < |ads|
      ensures AdvertAt(buffer, i) == ads[i]
    {
      ConcatSlot(chunks, ADVERT_SIZE, i);
      AdvertRoundTrip(ads[i]);
      assert buffer[HEADER_SIZE + ADVERT_SIZE * i..HEADER_SIZE + ADVERT_SIZE * (i + 1)]
          == Concat(chunks)[i * ADVERT_SIZE..i * ADVERT_SIZE + ADVERT_SIZE];
    }
  }

  /** Two request messages are equal only if they carry the same records. */
  lemma RequestMessageInjective(a: seq<Request>, b: seq<Request>)
    requires |a| <= MAX_RECORDS && |b| <= MAX_RECORDS
    requires RequestMessage(a) == RequestMessage(b)
    ensures a == b
  {
    RequestsRoundTrip(a, []);
    RequestsRoundTrip(b, []);
    assert RequestMessage(a) + [] == RequestMessage(b) + [];
  }

  /** The flag byte keeps the three marks apart and never claims an internal region. */
  lemma FlagsRoundTrip(local: LocalRegion, peer: PeerRegion)
    ensures var f := Flags(local, peer);
      && !HasFlag(f, MRFLAG_INTERNAL)
      && (HasFlag(f, MRFLAG_SINGLESEND) <==> local.singleSend)
      && (HasFlag(f, MRFLAG_INPUT) <==> local.toWrite)
      && (HasFlag(f, MRFLAG_OUTPUT) <==> peer.toWrite)
  {
  }

  /** `a` with `bytes` written from offset `off` on. */
  function Splice(a: seq<byte>, off: nat, bytes: seq<byte>): (r: seq<byte>)
    requires off + |bytes| <= |a|
    ensures |r| == |a|
  {
    a[..off] + bytes + a[off + |bytes|..]
  }

  lemma SpliceAdjacent(a: seq<byte>, off: nat, x: seq<byte>, y: seq<byte>)
    requires off + |x| + |y| <= |a|
    ensures Splice(Splice(a, off + |x|, y), off, x) == Splice(a, off, x + y)
  {
  }

  /** Stores a converted field; the rest of the buffer keeps its bytes. */
  method PutField(a: array<byte>, off: nat, n: nat, width: nat)
    requires off + width <= a.Length
    modifies a
    ensures a[..] == Splice(old(a[..]), off, Be(n, width))
  {
    var bytes := Be(n, width);
    forall j | 0 <= j < width {
      a[off + j] := bytes[j];
    }
    assert a[..off] == old(a[..off]);
    assert a[off..off + width] == bytes;
    assert a[off + width..] == old(a[off + width..]);
    assert a[..] == a[..off] + a[off..off + width] + a[off + width..];
  }

  lemma SplitProduct(q: nat, q2: nat, r2: nat, p: nat)
    requires q == 256 * q2 + r2
    ensures q * p == q2 * (256 * p) + r2 * p
  {
  }

  lemma NextAddressByte(addr: nat, p: nat)
    requires p > 0
    ensures addr % (256 * p) == addr % p + p * ((addr / p) % 256)
  {
    var q, r := addr / p, addr % p;
    var q2, r2 := q / 256, q % 256;
    assert addr == q * p + r;
    SplitProduct(q, q2, r2, p);
    MulMonotone(r2, 256, p);
    var low := r2 * p + r;
    assert low < 256 * p;
    DivModUnique(addr, 256 * p, q2, low);
  }

  /** Flags into byte 7 of a little-endian word, the low 7 address bytes into bytes 0 to 6. */
  method PackInfo(flags: byte, addr: uint64) returns (info: uint64)
    ensures info == Info(flags, addr % ADDRESS_LIMIT)
  {
    PowValues();
    var bytes := new byte[8](i => 0);
    bytes[7] := flags;
    for j := 0 to 7
      invariant bytes[7] == flags
      invariant FromLe(bytes[..j]) == addr % Pow256(j)
    {
      NextAddressByte(addr, Pow256(j));
      bytes[j] := (addr / Pow256(j)) % 256;
      assert bytes[..j + 1][..j] == bytes[..j];
    }
    assert bytes[..8][..7] == bytes[..7];
    info := FromLe(bytes[..8]);
  }
}
