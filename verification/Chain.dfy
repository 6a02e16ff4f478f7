/** The chain of linked write requests that one data transfer posts. */
module Chain {
  import opened Bytes
  import opened Context

  /** Indices of the regions marked for writing, in table order. */
  function Marked(local: seq<LocalRegion>): (m: seq<nat>)
    ensures |m| <= |local|
    ensures forall k :: 0 <= k < |m| ==> m[k] < |local| && local[m[k]].toWrite
    ensures forall j, k :: 0 <= j < k < |m| ==> m[j] < m[k]
  {
    if local == [] then []
    else
      var m := Marked(local[..|local| - 1]);
      if local[|local| - 1].toWrite then m + [|local| - 1] else m
  }

  /** How many bytes of a region travel: the application's limit, or all of it. */
  function Length32(r: LocalRegion, whole: bool): uint32 {
    (if whole then r.length else r.size) % 0x1_0000_0000
  }

  /** One request: only the last slot carries the immediate, and it ends the chain. */
  function FilledSlot(local: LocalRegion, peer: PeerRegion, imm: uint32, whole: bool,
                      inlineMax: int, k: nat, last: bool): WriteRequest
  {
    var length := Length32(local, whole);
    WriteRequest(k + 1, local.addr, length, peer.addr, peer.rkey,
                 if last then Some(imm) else None, last, length <= inlineMax,
                 if last then None else Some(k + 1))
  }

  function Slot(local: seq<LocalRegion>, peer: seq<PeerRegion>, imm: uint32, whole: bool,
                inlineMax: int, k: nat): WriteRequest
    requires |peer| == |local| && k < |Marked(local)|
  {
    var i := Marked(local)[k];
    FilledSlot(local[i], peer[i], imm, whole, inlineMax, k, k == |Marked(local)| - 1)
  }

  function Slots(local: seq<LocalRegion>, peer: seq<PeerRegion>, imm: uint32, whole: bool,
                 inlineMax: int): (c: seq<WriteRequest>)
    requires |peer| == |local|
    ensures |c| == |Marked(local)|
  {
    seq(|Marked(local)|, k requires 0 <= k < |Marked(local)| =>
      Slot(local, peer, imm, whole, inlineMax, k))
  }

  predicate LinksForward(wrs: seq<WriteRequest>) {
    forall k :: 0 <= k < |wrs| && wrs[k].next.Some? ==> k < wrs[k].next.value < |wrs|
  }

  /** What a post of `&wrs[k]` hands to the queue pair: the list reached through the links. */
  function Walk(wrs: seq<WriteRequest>, k: nat): seq<WriteRequest>
    requires LinksForward(wrs) && k < |wrs|
    decreases |wrs| - k
  {
    match wrs[k].next
    case None => [wrs[k]]
    case Some(n) => [wrs[k]] + Walk(wrs, n)
  }

  lemma {:induction false} MarkedComplete(local: seq<LocalRegion>, i: nat)
    requires i < |local| && local[i].toWrite
    ensures i in Marked(local)
  {
    var init := local[..|local| - 1];
    if i < |init| {
      MarkedComplete(init, i);
    }
  }

  lemma {:induction false} MarkedPrefix(local: seq<LocalRegion>, i: nat)
    requires i <= |local|
    ensures Marked(local[..i]) <= Marked(local)
    decreases |local|
  {
    if i == |local| {
      assert local[..i] == local;
    } else {
      var init := local[..|local| - 1];
      assert local[..i] == init[..i];
      MarkedPrefix(init, i);
    }
  }

  /** Scanning region `i` appends it to the marks found so far, or leaves them. */
  lemma MarkedStep(local: seq<LocalRegion>, i: nat)
    requires i < |local|
    ensures var k := |Marked(local[..i])|;
      && |Marked(local[..i + 1])| == k + (if local[i].toWrite then 1 else 0) <= |Marked(local)|
      && (local[i].toWrite ==> Marked(local)[k] == i)
  {
    assert local[..i + 1][..i] == local[..i];
    MarkedPrefix(local, i + 1);
  }

  /** Two tables with the same marks name the same regions. */
  lemma {:induction false} MarkedByFlags(a: seq<LocalRegion>, b: seq<LocalRegion>)
    requires |a| == |b| && forall i :: 0 <= i < |a| ==> a[i].toWrite == b[i].toWrite
    ensures Marked(a) == Marked(b)
  {
    if a != [] {
      MarkedByFlags(a[..|a| - 1], b[..|b| - 1]);
    }
  }

  /** Marking one more region adds one entry. */
  lemma {:induction false} MarkedGrows(local: seq<LocalRegion>, i: nat, r: LocalRegion)
    requires i < |local| && !local[i].toWrite && r.toWrite
    ensures |Marked(local[i := r])| == |Marked(local)| + 1
  {
    var n := |local| - 1;
    if i == n {
      assert local[i := r][..n] == local[..n];
    } else {
      assert local[i := r][..n] == local[..n][i := r];
      MarkedGrows(local[..n], i, r);
    }
  }

  lemma {:induction false} WalkFrom(local: seq<LocalRegion>, peer: seq<PeerRegion>, imm: uint32,
                                    whole: bool, inlineMax: int, k: nat)
    requires |peer| == |local| && k < |Marked(local)|
    ensures var c := Slots(local, peer, imm, whole, inlineMax);
            LinksForward(c) && Walk(c, k) == c[k..]
    decreases |Marked(local)| - k
  {
    var c := Slots(local, peer, imm, whole, inlineMax);
    if k == |c| - 1 {
      assert c[k..] == [c[k]];
    } else {
      WalkFrom(local, peer, imm, whole, inlineMax, k + 1);
      assert c[k..] == [c[k]] + c[k + 1..];
    }
  }

  /** Request `k` of a chain of `n` writes region `i`, whole or up to its limit, to its peer. */
  predicate WritesRegion(wr: WriteRequest, l: LocalRegion, p: PeerRegion, whole: bool, inlineMax: int, k: nat, n: nat) {
    && wr.id == k + 1 && wr.source == l.addr && wr.target == p.addr && wr.rkey == p.rkey
    && wr.length == (if whole then l.length else l.size) % 0x1_0000_0000
    && (wr.inlined <==> wr.length <= inlineMax)
    && (wr.solicited <==> k == n - 1) && (wr.imm.Some? <==> k == n - 1)
    && wr.next == if k == n - 1 then None else Some(k + 1)
  }

  /** The chain writes the marked regions, each once and in index order; the immediate comes last. */
  predicate WritesMarked(c: seq<WriteRequest>, local: seq<LocalRegion>, peer: seq<PeerRegion>, imm: uint32,
                         whole: bool, inlineMax: int)
  {
    && c != [] && |c| == |Marked(local)| && |peer| == |local|
    && (forall i :: 0 <= i < |local| ==> (local[i].toWrite <==> i in Marked(local)))
    && (forall k :: 0 <= k < |c| ==>
          var i := Marked(local)[k]; WritesRegion(c[k], local[i], peer[i], whole, inlineMax, k, |c|))
    && c[|c| - 1].imm == Some(imm)
  }

  lemma SlotWrites(local: seq<LocalRegion>, peer: seq<PeerRegion>, imm: uint32, whole: bool,
                   inlineMax: int, k: nat)
    requires |peer| == |local| && k < |Marked(local)|
    ensures var i, wr := Marked(local)[k], Slot(local, peer, imm, whole, inlineMax, k);
      && WritesRegion(wr, local[i], peer[i], whole, inlineMax, k, |Marked(local)|)
      && (k == |Marked(local)| - 1 ==> wr.imm == Some(imm))
  {
    hide Marked;
  }

  lemma MarkedExactly(local: seq<LocalRegion>)
    ensures forall i :: 0 <= i < |local| ==> (local[i].toWrite <==> i in Marked(local))
  {
    forall i | 0 <= i < |local| && local[i].toWrite
      ensures i in Marked(local)
    {
      MarkedComplete(local, i);
    }
  }

  /**
   * Following the links from slot 0 meets every marked region exactly once and in index order,
   * pairs it with the peer region of the same index, inlines exactly what fits, and meets the
   * immediate, and with it the solicited event, only at the end.
   */
  lemma ChainCorrect(local: seq<LocalRegion>, peer: seq<PeerRegion>, imm: uint32, whole: bool,
                     inlineMax: int)
    requires |peer| == |local| && Marked(local) != []
    ensures var c := Slots(local, peer, imm, whole, inlineMax);
      && LinksForward(c) && Walk(c, 0) == c && WritesMarked(c, local, peer, imm, whole, inlineMax)
  {
    WalkFrom(local, peer, imm, whole, inlineMax, 0);
    MarkedExactly(local);
    var c := Slots(local, peer, imm, whole, inlineMax);
    assert c[0..] == c;
    hide Marked, Slot, WritesRegion, Walk, LinksForward;
    forall k | 0 <= k < |c|
      ensures WritesRegion(c[k], local[Marked(local)[k]], peer[Marked(local)[k]], whole, inlineMax, k, |c|)
    {
      SlotWrites(local, peer, imm, whole, inlineMax, k);
    }
    SlotWrites(local, peer, imm, whole, inlineMax, |c| - 1);
  }

  /** Posts from a filled array: the queue pair takes the requests the links reach. */
  method PostSend(wrs: array<WriteRequest>) returns (posted: seq<WriteRequest>)
    requires wrs.Length > 0 && LinksForward(wrs[..])
    ensures posted == Walk(wrs[..], 0)
  {
    var k, more := 0, true;
    posted := [];
    while more
      invariant k < wrs.Length
      invariant more ==> posted + Walk(wrs[..], k) == Walk(wrs[..], 0)
      invariant !more ==> posted == Walk(wrs[..], 0)
      decreases more, wrs.Length - k
    {
      posted := posted + [wrs[k]];
      match wrs[k].next {
        case None => more := false;
        case Some(n) =>
          k := n;
      }
    }
  }

  lemma MarkedNone(local: seq<LocalRegion>)
    ensures Marked(local[..0]) == []
  {
  }

  /** Fills one slot per marked region; `count` is the number of marks. */
  method FillSlots(regions: array<LocalRegion>, peers: array<PeerRegion>, count: nat, imm: uint32,
                   whole: bool, inlineMax: int) returns (wrs: array<WriteRequest>)
    requires peers.Length == regions.Length && count == |Marked(regions[..])|
    ensures wrs[..] == Slots(regions[..], peers[..], imm, whole, inlineMax)
  {
    ghost var local := regions[..];
    ghost var chain := Slots(local, peers[..], imm, whole, inlineMax);
    hide Marked, FilledSlot;
    assert |Marked(local[..0])| == 0 by { MarkedNone(local); }
    wrs := new WriteRequest[count](_ => WriteRequest(0, 0, 0, 0, 0, None, false, false, None));
    var k, i := 0, 0;
    while i < regions.Length && k < count
      invariant i <= regions.Length && k == |Marked(local[..i])| <= count
      invariant forall j :: 0 <= j < k ==> wrs[j] == chain[j]
    {
      MarkedStep(local, i);
      if regions[i].toWrite {
        wrs[k] := FilledSlot(regions[i], peers[i], imm, whole, inlineMax, k, k == count - 1);
        k := k + 1;
      }
      i := i + 1;
    }
    assert local[..|local|] == local;
  }

  /** Builds the chain of a table and posts it from its first slot. */
  method PostChain(regions: array<LocalRegion>, peers: array<PeerRegion>, count: nat, imm: uint32,
                   whole: bool, inlineMax: int) returns (posted: seq<WriteRequest>)
    requires peers.Length == regions.Length && count == |Marked(regions[..])| > 0
    ensures posted == Slots(regions[..], peers[..], imm, whole, inlineMax)
    ensures WritesMarked(posted, regions[..], peers[..], imm, whole, inlineMax)
  {
    hide WritesMarked;
    ChainCorrect(regions[..], peers[..], imm, whole, inlineMax);
    var wrs := FillSlots(regions, peers, count, imm, whole, inlineMax);
    posted := PostSend(wrs);
  }
}
