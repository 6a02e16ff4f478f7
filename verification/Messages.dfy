/** Building the setup messages in place, region by region. */
module Messages {
  import opened Bytes
  import opened Context
  import opened Wire

  function ParameterRequest(local: LocalRegion, peer: PeerRegion): Request {
    Request(Flags(local, peer), peer.addr % ADDRESS_LIMIT,
            Advert(local.addr, local.rkey, local.length % 0x1_0000_0000))
  }

  /** Internal regions exist only on the accelerator, so address and key are zero. */
  function InternalRequest(r: InternalRegion): Request {
    Request(MRFLAG_INTERNAL, r.addr % ADDRESS_LIMIT, Advert(0, 0, r.size % 0x1_0000_0000))
  }

  /** The records the host advertises: parameters first, then the internal regions. */
  function Records(local: seq<LocalRegion>, peer: seq<PeerRegion>, internals: seq<InternalRegion>)
    : (rs: seq<Request>)
    requires |local| == |peer|
    ensures |rs| == |local| + |internals|
  {
    seq(|local|, i requires 0 <= i < |local| => ParameterRequest(local[i], peer[i]))
    + seq(|internals|, j requires 0 <= j < |internals| => InternalRequest(internals[j]))
  }

  function Requests(c: Comm): (rs: seq<Request>)
    requires |c.local| == |c.peer|
    ensures |rs| == |c.local| + |c.internals|
  {
    Records(c.local, c.peer, c.internals)
  }

  function Adverts(local: seq<LocalRegion>): (ads: seq<Advert>)
    ensures |ads| == |local|
  {
    seq(|local|, i requires 0 <= i < |local| =>
      Advert(local[i].addr, local[i].rkey, local[i].length % 0x1_0000_0000))
  }

  /** Type and code; the two padding bytes are whatever the buffer held. */
  function ErrorMessage(buffer: seq<byte>, code: byte): seq<byte>
    requires |buffer| >= HEADER_SIZE
  {
    [MSG_MR_ERR, code] + buffer[2..HEADER_SIZE]
  }

  method PutAdvert(a: array<byte>, off: nat, ad: Advert)
    requires off + ADVERT_SIZE <= a.Length
    modifies a
    ensures a[..] == Splice(old(a[..]), off, EncodeAdvert(ad))
  {
    ghost var was, addr, rkey, size := a[..], Be(ad.addr, 8), Be(ad.rkey, 4), Be(ad.size, 4);
    PutField(a, off + 12, ad.size, 4);
    PutField(a, off + 8, ad.rkey, 4);
    SpliceAdjacent(was, off + 8, rkey, size);
    PutField(a, off, ad.addr, 8);
    SpliceAdjacent(was, off, addr, rkey + size);
    assert addr + (rkey + size) == EncodeAdvert(ad);
  }

  method PutRequest(a: array<byte>, off: nat, r: Request)
    requires off + REQUEST_SIZE <= a.Length
    modifies a
    ensures a[..] == Splice(old(a[..]), off, EncodeRequest(r))
  {
    hide EncodeAdvert, Be, Info;
    ghost var was := a[..];
    PutAdvert(a, off + 8, r.advert);
    var info := PackInfo(r.flags, r.naaAddr);
    ghost var head, tail := Be(info, 8), EncodeAdvert(r.advert);
    assert EncodeRequest(r) == head + tail;
    PutField(a, off, info, 8);
    assert a[..] == Splice(Splice(was, off + 8, tail), off, head);
    SpliceAdjacent(was, off, head, tail);
  }

  /** A buffer with `prefix` written over its first bytes. */
  function Over(prefix: seq<byte>, buffer: seq<byte>): (r: seq<byte>)
    requires |prefix| <= |buffer|
    ensures |r| == |buffer|
  {
    Splice(buffer, 0, prefix)
  }

  method PutHeader(a: array<byte>, kind: byte, count: nat)
    requires a.Length >= HEADER_SIZE
    modifies a
    ensures a[..] == Over(Header(kind, count), old(a[..]))
  {
    a[0] := kind;
    a[2], a[3] := 0, 0;
    a[1] := count % 256;
    assert a[..] == a[..HEADER_SIZE] + a[HEADER_SIZE..];
  }

  /** A request message after its first `i` records. */
  ghost function RequestPrefix(rs: seq<Request>, i: nat): seq<byte>
    requires i <= |rs|
  {
    Header(MSG_MR_AAR, |rs|) + Concat(EncodeRequests(rs[..i]))
  }

  /** An answer message after its first `i` records. */
  ghost function AnswerPrefix(ads: seq<Advert>, i: nat): seq<byte>
    requires i <= |ads|
  {
    Header(MSG_MR_A, |ads|) + Concat(EncodeAdverts(ads[..i]))
  }

  lemma ExtendRequests(rs: seq<Request>, i: nat)
    requires i < |rs|
    ensures RequestPrefix(rs, i + 1) == RequestPrefix(rs, i) + EncodeRequest(rs[i])
    ensures |RequestPrefix(rs, i)| == HEADER_SIZE + REQUEST_SIZE * i
  {
    var chunks := EncodeRequests(rs[..i]);
    assert EncodeRequests(rs[..i + 1])[..i] == chunks;
    assert Concat(EncodeRequests(rs[..i + 1])) == Concat(chunks) + EncodeRequest(rs[i]);
    ConcatLength(chunks, REQUEST_SIZE);
  }

  lemma ExtendAdverts(ads: seq<Advert>, i: nat)
    requires i < |ads|
    ensures AnswerPrefix(ads, i + 1) == AnswerPrefix(ads, i) + EncodeAdvert(ads[i])
    ensures |AnswerPrefix(ads, i)| == HEADER_SIZE + ADVERT_SIZE * i
  {
    var chunks := EncodeAdverts(ads[..i]);
    assert EncodeAdverts(ads[..i + 1])[..i] == chunks;
    assert Concat(EncodeAdverts(ads[..i + 1])) == Concat(chunks) + EncodeAdvert(ads[i]);
    ConcatLength(chunks, ADVERT_SIZE);
  }

  /** A further record directly behind a written prefix. */
  lemma OverNext(head: seq<byte>, next: seq<byte>, was: seq<byte>)
    requires |head| + |next| <= |was|
    ensures Splice(Over(head, was), |head|, next) == Over(head + next, was)
  {
  }

  /** Writes one request record behind the prefix `head`. */
  method AppendRequest(a: array<byte>, size: nat, r: Request, ghost head: seq<byte>, ghost was: seq<byte>)
    requires size == |head| && size + REQUEST_SIZE <= a.Length == |was|
    requires a[..] == Over(head, was)
    modifies a
    ensures a[..] == Over(head + EncodeRequest(r), was)
  {
    PutRequest(a, size, r);
    OverNext(head, EncodeRequest(r), was);
  }

  method AppendAdvert(a: array<byte>, size: nat, ad: Advert, ghost head: seq<byte>, ghost was: seq<byte>)
    requires size == |head| && size + ADVERT_SIZE <= a.Length == |was|
    requires a[..] == Over(head, was)
    modifies a
    ensures a[..] == Over(head + EncodeAdvert(ad), was)
  {
    PutAdvert(a, size, ad);
    OverNext(head, EncodeAdvert(ad), was);
  }

  lemma PrefixEnds(rs: seq<Request>, ads: seq<Advert>)
    ensures RequestPrefix(rs, 0) == Header(MSG_MR_AAR, |rs|)
    ensures RequestPrefix(rs, |rs|) == RequestMessage(rs)
    ensures AnswerPrefix(ads, 0) == Header(MSG_MR_A, |ads|)
    ensures AnswerPrefix(ads, |ads|) == AnswerMessage(ads)
  {
    assert rs[..|rs|] == rs && ads[..|ads|] == ads;
  }

  method AppendParameters(a: array<byte>, locals: array<LocalRegion>, peers: array<PeerRegion>,
                          ghost rs: seq<Request>, ghost was: seq<byte>) returns (size: nat)
    requires locals.Length == peers.Length <= |rs| <= MAX_RECORDS
    requires forall i :: 0 <= i < locals.Length ==> rs[i] == ParameterRequest(locals[i], peers[i])
    requires a.Length == |was| == MESSAGE_CAPACITY && a[..] == Over(RequestPrefix(rs, 0), was)
    modifies a
    ensures size == HEADER_SIZE + REQUEST_SIZE * locals.Length == |RequestPrefix(rs, locals.Length)|
    ensures a[..] == Over(RequestPrefix(rs, locals.Length), was)
  {
    PrefixEnds(rs, []);
    size := HEADER_SIZE;
    for i := 0 to locals.Length
      invariant size == HEADER_SIZE + REQUEST_SIZE * i == |RequestPrefix(rs, i)|
      invariant a[..] == Over(RequestPrefix(rs, i), was)
    {
      ExtendRequests(rs, i);
      AppendRequest(a, size, ParameterRequest(locals[i], peers[i]), RequestPrefix(rs, i), was);
      size := size + REQUEST_SIZE;
    }
  }

  method AppendInternals(a: array<byte>, p: nat, internals: array<InternalRegion>, start: nat,
                         ghost rs: seq<Request>, ghost was: seq<byte>) returns (size: nat)
    requires p + internals.Length == |rs| <= MAX_RECORDS
    requires forall j :: 0 <= j < internals.Length ==> rs[p + j] == InternalRequest(internals[j])
    requires start == HEADER_SIZE + REQUEST_SIZE * p == |RequestPrefix(rs, p)|
    requires a.Length == |was| == MESSAGE_CAPACITY && a[..] == Over(RequestPrefix(rs, p), was)
    modifies a
    ensures size == |RequestMessage(rs)| <= MESSAGE_CAPACITY
    ensures a[..] == Over(RequestMessage(rs), was)
  {
    hide RequestPrefix, RequestMessage, Over, EncodeRequest, InternalRequest;
    size := start;
    for j := 0 to internals.Length
      invariant size == HEADER_SIZE + REQUEST_SIZE * (p + j) == |RequestPrefix(rs, p + j)|
      invariant a[..] == Over(RequestPrefix(rs, p + j), was)
    {
      ExtendRequests(rs, p + j);
      AppendRequest(a, size, InternalRequest(internals[j]), RequestPrefix(rs, p + j), was);
      size := size + REQUEST_SIZE;
    }
    PrefixEnds(rs, []);
  }

  lemma RecordsByIndex(local: seq<LocalRegion>, peer: seq<PeerRegion>, internals: seq<InternalRegion>)
    requires |local| == |peer|
    ensures var rs := Records(local, peer, internals);
      && (forall i :: 0 <= i < |local| ==> rs[i] == ParameterRequest(local[i], peer[i]))
      && (forall j :: 0 <= j < |internals| ==> rs[|local| + j] == InternalRequest(internals[j]))
  {
  }

  // ---------------------------------------------------------------- what the bytes say

  /** The 24 bytes ask for the peer's address and advertise the host's buffer. */
  predicate SaysParameter(s: seq<byte>, l: LocalRegion, p: PeerRegion)
    requires |s| == 24
  {
    && s[0] == (if l.singleSend then 2 else 0) + (if l.toWrite then 4 else 0) + (if p.toWrite then 8 else 0)
    && FromBe(s[1..8]) == p.addr % 0x100_0000_0000_0000
    && SaysBuffer(s[8..24], l)
  }

  /** Address, key and size of a buffer in 16 bytes. */
  predicate SaysBuffer(s: seq<byte>, l: LocalRegion)
    requires |s| == 16
  {
    FromBe(s[0..8]) == l.addr && FromBe(s[8..12]) == l.rkey && FromBe(s[12..16]) == l.length % 0x1_0000_0000
  }

  /** The 24 bytes ask for the region's address, and have no buffer to advertise. */
  predicate SaysInternal(s: seq<byte>, r: InternalRegion)
    requires |s| == 24
  {
    && s[0] == 1 && FromBe(s[1..8]) == r.addr % 0x100_0000_0000_0000
    && FromBe(s[8..16]) == 0 && FromBe(s[16..20]) == 0 && FromBe(s[20..24]) == r.size % 0x1_0000_0000
  }

  /** A request, byte by byte: type 1, the number of records, then 24 bytes for each. */
  predicate SaysRequest(m: seq<byte>, local: seq<LocalRegion>, peer: seq<PeerRegion>,
                        internals: seq<InternalRegion>)
  {
    var p, n := |local|, |local| + |internals|;
    && |peer| == p && 4 + 24 * n <= |m| && m[0] == 1 && m[1] == n && m[2] == m[3] == 0
    && (forall i :: 0 <= i < p ==> SaysParameter(m[4 + 24 * i..28 + 24 * i], local[i], peer[i]))
    && (forall i :: p <= i < n ==> SaysInternal(m[4 + 24 * i..28 + 24 * i], internals[i - p]))
  }

  /** An answer: type 2, the number of records, then 16 bytes for each. */
  predicate SaysAnswer(m: seq<byte>, local: seq<LocalRegion>) {
    && 4 + 16 * |local| <= |m| && m[0] == 2 && m[1] == |local| && m[2] == m[3] == 0
    && forall i :: 0 <= i < |local| ==> SaysBuffer(m[4 + 16 * i..20 + 16 * i], local[i])
  }

  lemma EncodedBuffer(l: LocalRegion)
    ensures SaysBuffer(EncodeAdvert(Advert(l.addr, l.rkey, l.length % 0x1_0000_0000)), l)
  {
    FieldsSurvive();
    hide FromBe, Be;
    var size := l.length % 0x1_0000_0000;
    var s := EncodeAdvert(Advert(l.addr, l.rkey, size));
    assert s[0..8] == Be(l.addr, 8) && s[8..12] == Be(l.rkey, 4) && s[12..16] == Be(size, 4);
  }

  lemma EncodedSlot(r: Request)
    ensures var s := EncodeRequest(r);
      s[0] == r.flags && FromBe(s[1..8]) == r.naaAddr && s[8..24] == EncodeAdvert(r.advert)
  {
    FlaggedBytes(r.flags, r.naaAddr);
    hide FromBe, Be, EncodeAdvert;
    var s := EncodeRequest(r);
    assert s[1..8] == Be(Info(r.flags, r.naaAddr), 8)[1..8];
  }

  lemma FlagsValue(l: LocalRegion, p: PeerRegion)
    ensures Flags(l, p) == (if l.singleSend then 2 else 0) + (if l.toWrite then 4 else 0) + (if p.toWrite then 8 else 0)
  {
  }

  lemma EncodedParameter(l: LocalRegion, p: PeerRegion)
    ensures SaysParameter(EncodeRequest(ParameterRequest(l, p)), l, p)
  {
    EncodedSlot(ParameterRequest(l, p));
    EncodedBuffer(l);
    FlagsValue(l, p);
    hide FromBe, EncodeAdvert, EncodeRequest, SaysBuffer, Flags;
  }

  lemma EncodedInternal(r: InternalRegion)
    ensures SaysInternal(EncodeRequest(InternalRequest(r)), r)
  {
    var ad := InternalRequest(r).advert;
    EncodedSlot(InternalRequest(r));
    FieldsSurvive();
    hide FromBe, Be, EncodeRequest;
    var s := EncodeRequest(InternalRequest(r));
    var b := EncodeAdvert(ad);
    assert s[8..16] == b[0..8] == Be(0, 8) && s[16..20] == b[8..12] == Be(0, 4);
    assert s[20..24] == b[12..16] == Be(ad.size, 4);
  }

  lemma RequestSlot(rs: seq<Request>, rest: seq<byte>, i: nat)
    requires i < |rs|
    ensures 4 + 24 * |rs| <= |RequestMessage(rs) + rest|
    ensures (RequestMessage(rs) + rest)[4 + 24 * i..28 + 24 * i] == EncodeRequest(rs[i])
  {
    RequestMessageSize(rs);
    ConcatSlot(EncodeRequests(rs), 24, i);
    hide EncodeRequest;
    assert (RequestMessage(rs) + rest)[4 + 24 * i..28 + 24 * i]
        == Concat(EncodeRequests(rs))[i * 24..i * 24 + 24];
  }

  lemma AnswerSlot(ads: seq<Advert>, rest: seq<byte>, i: nat)
    requires i < |ads|
    ensures 4 + 16 * |ads| <= |AnswerMessage(ads) + rest|
    ensures (AnswerMessage(ads) + rest)[4 + 16 * i..20 + 16 * i] == EncodeAdvert(ads[i])
  {
    AnswerMessageSize(ads);
    ConcatSlot(EncodeAdverts(ads), 16, i);
    hide EncodeAdvert;
    assert (AnswerMessage(ads) + rest)[4 + 16 * i..20 + 16 * i]
        == Concat(EncodeAdverts(ads))[i * 16..i * 16 + 16];
  }

  /** What the request of a context says: its regions, and the address each is wanted at. */
  lemma {:induction false} RequestSays(local: seq<LocalRegion>, peer: seq<PeerRegion>,
                                       internals: seq<InternalRegion>, rest: seq<byte>)
    requires |local| == |peer| && |local| + |internals| < 256
    ensures SaysRequest(RequestMessage(Records(local, peer, internals)) + rest, local, peer, internals)
  {
    var rs := Records(local, peer, internals);
    var m := RequestMessage(rs) + rest;
    RequestMessageSize(rs);
    assert m[..4] == Header(MSG_MR_AAR, |rs|);
    assert m[0] == m[..4][0] && m[1] == m[..4][1] && m[2] == m[..4][2] && m[3] == m[..4][3];
    RecordsByIndex(local, peer, internals);
    hide RequestMessage, EncodeRequest, Records, SaysParameter, SaysInternal, ParameterRequest, InternalRequest;
    forall i | 0 <= i < |local|
      ensures SaysParameter(m[4 + 24 * i..28 + 24 * i], local[i], peer[i])
    {
      RequestSlot(rs, rest, i);
      EncodedParameter(local[i], peer[i]);
    }
    forall i | |local| <= i < |rs|
      ensures SaysInternal(m[4 + 24 * i..28 + 24 * i], internals[i - |local|])
    {
      RequestSlot(rs, rest, i);
      assert rs[|local| + (i - |local|)] == InternalRequest(internals[i - |local|]);
      EncodedInternal(internals[i - |local|]);
    }
  }

  lemma {:induction false} AnswerSays(local: seq<LocalRegion>, rest: seq<byte>)
    requires |local| < 256
    ensures SaysAnswer(AnswerMessage(Adverts(local)) + rest, local)
  {
    var ads := Adverts(local);
    var m := AnswerMessage(ads) + rest;
    AnswerMessageSize(ads);
    assert m[..4] == Header(MSG_MR_A, |ads|);
    assert m[0] == m[..4][0] && m[1] == m[..4][1] && m[2] == m[..4][2] && m[3] == m[..4][3];
    hide AnswerMessage, EncodeAdvert, SaysBuffer;
    forall i | 0 <= i < |local|
      ensures SaysBuffer(m[4 + 16 * i..20 + 16 * i], local[i])
    {
      AnswerSlot(ads, rest, i);
      EncodedBuffer(local[i]);
    }
  }

  lemma OverStart(prefix: seq<byte>, buffer: seq<byte>)
    requires |prefix| <= |buffer|
    ensures Over(prefix, buffer) == prefix + buffer[|prefix|..]
  {
  }

  /** What the reader makes of such bytes. */
  lemma ParameterRead(s: seq<byte>, l: LocalRegion, p: PeerRegion)
    requires |s| == 24 && SaysParameter(s, l, p)
    ensures var r := DecodeRequest(s);
      && r.flags == s[0] && r.naaAddr == p.addr % 0x100_0000_0000_0000
      && r.advert == Advert(l.addr, l.rkey, l.length % 0x1_0000_0000)
  {
    InfoRead(s);
    hide FromBe;
    var b := s[8..];
    assert s[8..24] == b;
  }

  lemma InternalRead(s: seq<byte>, r: InternalRegion)
    requires |s| == 24 && SaysInternal(s, r)
    ensures var q := DecodeRequest(s);
      && q.flags == 1 && q.naaAddr == r.addr % 0x100_0000_0000_0000
      && q.advert == Advert(0, 0, r.size % 0x1_0000_0000)
  {
    InfoRead(s);
    hide FromBe;
    var b := s[8..];
    assert b[0..8] == s[8..16] && b[8..12] == s[16..20] && b[12..16] == s[20..24];
  }

  /** The first 8 bytes are read as flags and a 56-bit address. */
  lemma InfoRead(s: seq<byte>)
    requires |s| == 24
    ensures DecodeRequest(s).flags == s[0] && DecodeRequest(s).naaAddr == FromBe(s[1..8])
  {
    PowValues();
    FromBeFirst(s[0..8]);
    BeOfFromBe(s[1..8]);
    hide FromBe, Pow256;
    assert s[0..8][1..] == s[1..8];
    DivModUnique(Field64(s, 0), ADDRESS_LIMIT, s[0], FromBe(s[1..8]));
  }

  /** Writes the request message; its size is the offset behind the last record. */
  method BuildRequestMessage(c: CommContext) returns (size: nat)
    requires c.Valid() && c.mrLocal.Length + c.mrInternal.Length <= MAX_RECORDS
    modifies c.message
    ensures size == |RequestMessage(Requests(c.View()))| <= MESSAGE_CAPACITY
    ensures c.message[..] == Over(RequestMessage(Requests(c.View())), old(c.message[..]))
    ensures SaysRequest(c.message[..], c.mrLocal[..], c.mrPeer[..], c.mrInternal[..])
  {
    hide RequestMessage, RequestPrefix, Over, ParameterRequest, InternalRequest, Records, SaysRequest;
    ghost var was := c.message[..];
    ghost var rs := Records(c.mrLocal[..], c.mrPeer[..], c.mrInternal[..]);
    RecordsByIndex(c.mrLocal[..], c.mrPeer[..], c.mrInternal[..]);
    PutHeader(c.message, MSG_MR_AAR, c.mrLocal.Length + c.mrInternal.Length);
    PrefixEnds(rs, []);
    size := AppendParameters(c.message, c.mrLocal, c.mrPeer, rs, was);
    size := AppendInternals(c.message, c.mrLocal.Length, c.mrInternal, size, rs, was);
    OverStart(RequestMessage(rs), was);
    RequestSays(c.mrLocal[..], c.mrPeer[..], c.mrInternal[..], was[|RequestMessage(rs)|..]);
  }

  /** Writes the answer message: one advertisement per local region. */
  method BuildAnswerMessage(c: CommContext) returns (size: nat)
    requires c.Valid() && c.mrLocal.Length <= MAX_RECORDS
    modifies c.message
    ensures size == |AnswerMessage(Adverts(c.mrLocal[..]))| <= MESSAGE_CAPACITY
    ensures c.message[..] == Over(AnswerMessage(Adverts(c.mrLocal[..])), old(c.message[..]))
    ensures SaysAnswer(c.message[..], c.mrLocal[..])
  {
    hide SaysAnswer;
    ghost var was := c.message[..];
    var a, locals := c.message, c.mrLocal;
    ghost var ads := Adverts(locals[..]);
    PutHeader(a, MSG_MR_A, locals.Length);
    PrefixEnds([], ads);
    size := HEADER_SIZE;
    for i := 0 to locals.Length
      invariant size == HEADER_SIZE + ADVERT_SIZE * i == |AnswerPrefix(ads, i)|
      invariant a[..] == Over(AnswerPrefix(ads, i), was)
    {
      ExtendAdverts(ads, i);
      var ad := Advert(locals[i].addr, locals[i].rkey, locals[i].length % 0x1_0000_0000);
      AppendAdvert(a, size, ad, AnswerPrefix(ads, i), was);
      size := size + ADVERT_SIZE;
    }
    OverStart(AnswerMessage(ads), was);
    AnswerSays(locals[..], was[|AnswerMessage(ads)|..]);
  }

  method BuildErrorMessage(c: CommContext, code: byte) returns (size: nat)
    requires c.Valid()
    modifies c.message
    ensures c.Valid() && size == HEADER_SIZE
    ensures c.message[..] == Over(ErrorMessage(old(c.message[..]), code), old(c.message[..]))
    ensures c.message[..] == [0, code] + old(c.message[..])[2..]
  {
    c.message[0] := MSG_MR_ERR;
    c.message[1] := code;
    size := HEADER_SIZE;
  }

  /** The bytes of a message of the given type built from a context. */
  function MessageBytes(c: Comm, kind: byte, code: byte): (bytes: seq<byte>)
    requires |c.local| == |c.peer| && |c.message| == MESSAGE_CAPACITY
  {
    if kind == MSG_MR_A then AnswerMessage(Adverts(c.local))
    else if kind == MSG_MR_AAR then RequestMessage(Requests(c))
    else ErrorMessage(c.message, code)
  }

  predicate Sendable(c: Comm, kind: byte) {
    && |c.local| == |c.peer| && |c.message| == MESSAGE_CAPACITY
    && (kind == MSG_MR_A || kind == MSG_MR_AAR || kind == MSG_MR_ERR)
    && (kind == MSG_MR_A ==> |c.local| <= MAX_RECORDS)
    && (kind == MSG_MR_AAR ==> |c.local| + |c.internals| <= MAX_RECORDS)
  }

  lemma MessageFits(c: Comm, kind: byte, code: byte)
    requires Sendable(c, kind)
    ensures |MessageBytes(c, kind, code)| <= MESSAGE_CAPACITY
  {
    AnswerMessageSize(Adverts(c.local));
    RequestMessageSize(Requests(c));
  }

  /** The context after a message was built in its buffer and posted. */
  function AfterSend(c: Comm, kind: byte, code: byte): Comm
    requires Sendable(c, kind)
  {
    MessageFits(c, kind, code);
    c.(state := MrspSending, message := Over(MessageBytes(c, kind, code), c.message))
  }

  /** What each type of message says, whatever was in the buffer before. */
  lemma SentSays(c: Comm, kind: byte, code: byte)
    requires Sendable(c, kind)
    ensures var bytes := MessageBytes(c, kind, code);
      && (kind == 0 ==> |bytes| == 4 && bytes[0] == 0 && bytes[1] == code)
      && (kind == 1 ==>
            |bytes| == 4 + 24 * (|c.local| + |c.internals|) && SaysRequest(bytes, c.local, c.peer, c.internals))
      && (kind == 2 ==> |bytes| == 4 + 16 * |c.local| && SaysAnswer(bytes, c.local))
  {
    AnswerMessageSize(Adverts(c.local));
    RequestMessageSize(Requests(c));
    if kind == MSG_MR_AAR {
      RequestSays(c.local, c.peer, c.internals, []);
    } else if kind == MSG_MR_A {
      AnswerSays(c.local, []);
    }
    hide RequestMessage, AnswerMessage, SaysRequest, SaysAnswer, Records, Adverts;
    var bytes := MessageBytes(c, kind, code);
    assert bytes + [] == bytes;
  }

  /** Sending leaves the message in the buffer, with what it did not reach, and the state MRSP_SENDING. */
  lemma SendingChanges(c: Comm, kind: byte, code: byte)
    requires Sendable(c, kind)
    ensures var bytes, d := MessageBytes(c, kind, code), AfterSend(c, kind, code);
      && |bytes| <= |c.message| == |d.message| && d == c.(state := MrspSending, message := d.message)
      && forall i :: 0 <= i < |c.message| ==> d.message[i] == if i < |bytes| then bytes[i] else c.message[i]
  {
    MessageFits(c, kind, code);
    hide MessageBytes;
  }

  method Build(c: CommContext, kind: byte, code: byte) returns (size: nat)
    requires c.Valid() && Sendable(c.View(), kind)
    modifies c.message
    ensures size == |MessageBytes(old(c.View()), kind, code)| <= MESSAGE_CAPACITY
    ensures c.message[..] == Over(MessageBytes(old(c.View()), kind, code), old(c.message[..]))
  {
    if kind == MSG_MR_A {
      size := BuildAnswerMessage(c);
    } else if kind == MSG_MR_AAR {
      size := BuildRequestMessage(c);
    } else {
      size := BuildErrorMessage(c, code);
    }
  }

  method SendMessage(c: CommContext, kind: byte, code: byte) returns (packet: seq<byte>)
    requires c.Valid() && Sendable(c.View(), kind)
    modifies c`state, c.message
    ensures c.View() == AfterSend(old(c.View()), kind, code)
    ensures packet == MessageBytes(old(c.View()), kind, code)
  {
    ghost var bytes, was := MessageBytes(c.View(), kind, code), c.message[..];
    c.state := MrspSending;
    var size := Build(c, kind, code);
    packet := c.message[..size];
    assert Over(bytes, was)[..size] == bytes;
  }
}
