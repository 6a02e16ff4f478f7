/** Page-aligned accelerator addresses laid out one region after the other. */
module AddressLayout {
  import opened Bytes

  const PAGE_WIDTH := 4096
  const WORD_LIMIT := 0x1_0000_0000_0000_0000

  /** Whole pages for `size` bytes, in 64-bit arithmetic. */
  function Pages(size: uint64): uint64 {
    (size + PAGE_WIDTH - 1) % WORD_LIMIT / PAGE_WIDTH * PAGE_WIDTH
  }

  /** The address behind all regions, before wrap-around. */
  function End(offset: uint64, sizes: seq<uint64>): nat {
    if sizes == [] then offset else End(offset, sizes[..|sizes| - 1]) + Pages(sizes[|sizes| - 1])
  }

  function AddressOf(offset: uint64, sizes: seq<uint64>, i: nat): uint64
    requires i < |sizes|
  {
    End(offset, sizes[..i]) % WORD_LIMIT
  }

  lemma OffsetFirst(offset: uint64)
    ensures End(offset, []) == offset
  {
  }

  lemma NextAddress(offset: uint64, sizes: seq<uint64>, i: nat)
    requires i < |sizes|
    ensures (AddressOf(offset, sizes, i) + Pages(sizes[i])) % WORD_LIMIT == End(offset, sizes[..i + 1]) % WORD_LIMIT
  {
    assert sizes[..i + 1][..i] == sizes[..i];
    hide Pages;
    var end := End(offset, sizes[..i]);
    assert end == end / WORD_LIMIT * WORD_LIMIT + end % WORD_LIMIT;
    WholeWords(end % WORD_LIMIT + Pages(sizes[i]), end / WORD_LIMIT);
  }

  lemma WholeWords(n: nat, q: nat)
    ensures (n + q * WORD_LIMIT) % WORD_LIMIT == n % WORD_LIMIT
  {
    DivModUnique(n + q * WORD_LIMIT, WORD_LIMIT, n / WORD_LIMIT + q, n % WORD_LIMIT);
  }

  method SequentialAddresses(offset: uint64, sizes: array<uint64>) returns (addrs: array<uint64>)
    ensures addrs.Length == sizes.Length
    ensures forall i :: 0 <= i < sizes.Length ==> addrs[i] == AddressOf(offset, sizes[..], i)
  {
    addrs := new uint64[sizes.Length](_ => 0);
    var current := offset;
    ghost var all := sizes[..];
    assert all[..0] == [];
    hide Pages, End;
    OffsetFirst(offset);
    for i := 0 to sizes.Length
      invariant current == End(offset, all[..i]) % WORD_LIMIT
      invariant forall k :: 0 <= k < i ==> addrs[k] == AddressOf(offset, all, k)
    {
      addrs[i] := current;
      NextAddress(offset, all, i);
      current := (current + Pages(sizes[i])) % WORD_LIMIT;
    }
  }

  /** Neither a rounding nor the sum leaves 64 bits. */
  predicate NoOverflow(offset: uint64, sizes: seq<uint64>) {
    && (forall i :: 0 <= i < |sizes| ==> sizes[i] <= 0xFFFF_FFFF_FFFF_F000)
    && End(offset, sizes) < 0x1_0000_0000_0000_0000
  }

  lemma PagesCover(size: uint64)
    requires size <= 0xFFFF_FFFF_FFFF_F000
    ensures size <= Pages(size) <= size as int + 4095 && Pages(size) % 4096 == 0
  {
  }

  /**
   * Whatever wraps around: the first address is the offset, and each next one is ahead by whole
   * pages that cover the region before, or by none if that region is within a page of 2^64 bytes.
   */
  lemma StepsByPages(offset: uint64, sizes: seq<uint64>, i: nat) returns (gap: uint64)
    requires i < |sizes|
    ensures AddressOf(offset, sizes, 0) == offset && gap % 4096 == 0
    ensures if sizes[i] <= 0xFFFF_FFFF_FFFF_F000 then sizes[i] <= gap <= sizes[i] as int + 4095 else gap == 0
    ensures i + 1 < |sizes| ==>
      (AddressOf(offset, sizes, i) as int + gap) % 0x1_0000_0000_0000_0000 == AddressOf(offset, sizes, i + 1)
  {
    assert sizes[..0] == [];
    gap := Pages(sizes[i]);
    NextAddress(offset, sizes, i);
    if sizes[i] <= 0xFFFF_FFFF_FFFF_F000 {
      PagesCover(sizes[i]);
    } else {
      PagesLost(sizes[i]);
    }
    hide Pages;
  }

  /** The rounding of a size within a page of 2^64 wraps around to nothing. */
  lemma PagesLost(size: uint64)
    requires size > 0xFFFF_FFFF_FFFF_F000
    ensures Pages(size) == 0
  {
    DivModUnique(size as int + 4095, WORD_LIMIT, 1, size as int + 4095 - WORD_LIMIT);
  }

  lemma {:induction false} EndMonotone(offset: uint64, sizes: seq<uint64>, i: nat)
    requires i <= |sizes|
    ensures End(offset, sizes[..i]) <= End(offset, sizes)
    decreases |sizes|
  {
    if i == |sizes| {
      assert sizes[..i] == sizes;
    } else {
      assert sizes[..|sizes| - 1][..i] == sizes[..i];
      EndMonotone(offset, sizes[..|sizes| - 1], i);
    }
  }

  lemma {:induction false} EndAligned(offset: uint64, sizes: seq<uint64>)
    requires forall i :: 0 <= i < |sizes| ==> sizes[i] <= 0xFFFF_FFFF_FFFF_F000
    ensures End(offset, sizes) % 4096 == offset % 4096
  {
    if sizes != [] {
      EndAligned(offset, sizes[..|sizes| - 1]);
      PagesCover(sizes[|sizes| - 1]);
    }
  }

  lemma AddressBelowEnd(offset: uint64, sizes: seq<uint64>, i: nat)
    requires NoOverflow(offset, sizes) && i < |sizes|
    ensures AddressOf(offset, sizes, i) == End(offset, sizes[..i])
    ensures AddressOf(offset, sizes, i) + Pages(sizes[i]) == End(offset, sizes[..i + 1]) <= End(offset, sizes)
  {
    EndMonotone(offset, sizes, i);
    EndMonotone(offset, sizes, i + 1);
    assert sizes[..i + 1][..i] == sizes[..i];
  }

  /** Regions are ordered and disjoint, aligned like the offset, and waste less than a page each. */
  lemma LayoutCorrect(offset: uint64, sizes: seq<uint64>, i: nat)
    requires NoOverflow(offset, sizes) && i < |sizes|
    ensures AddressOf(offset, sizes, i) % 4096 == offset % 4096
    ensures forall k :: i < k < |sizes| ==>
      AddressOf(offset, sizes, i) + sizes[i] <= AddressOf(offset, sizes, k)
    ensures i + 1 < |sizes| ==>
      AddressOf(offset, sizes, i + 1) - (AddressOf(offset, sizes, i) + sizes[i]) < 4096
  {
    AddressBelowEnd(offset, sizes, i);
    PagesCover(sizes[i]);
    EndAligned(offset, sizes[..i]);
    forall k | i < k < |sizes|
      ensures End(offset, sizes[..i + 1]) <= AddressOf(offset, sizes, k)
    {
      AddressBelowEnd(offset, sizes, k);
      assert sizes[..k][..i + 1] == sizes[..i + 1];
      EndMonotone(offset, sizes[..k], i + 1);
    }
  }

  predicate SomeBytesFrom(sizes: seq<uint64>, i: nat) {
    exists k :: i <= k < |sizes| && sizes[k] > 0
  }

  /** Only regions with bytes move the end. */
  lemma {:induction false} EndMoves(offset: uint64, sizes: seq<uint64>, i: nat)
    requires NoOverflow(offset, sizes) && i <= |sizes|
    ensures End(offset, sizes[..i]) < End(offset, sizes) <==> SomeBytesFrom(sizes, i)
    decreases |sizes|
  {
    if i == |sizes| {
      assert sizes[..i] == sizes;
    } else {
      var init, n := sizes[..|sizes| - 1], |sizes| - 1;
      assert init[..i] == sizes[..i];
      EndMonotone(offset, init, i);
      PagesCover(sizes[n]);
      EndMoves(offset, init, i);
      if SomeBytesFrom(init, i) {
        var k :| i <= k < |init| && init[k] > 0;
        assert sizes[k] > 0;
      }
      if sizes[n] == 0 && SomeBytesFrom(sizes, i) {
        var k :| i <= k < |sizes| && sizes[k] > 0;
        assert init[k] > 0;
      }
    }
  }

  /**
   * In a layout that ends by 2^56 the address of a region fits 7 bytes exactly if the layout ends
   * below 2^56 or some region from that one on is not empty.
   */
  lemma LayoutFitsIff(offset: uint64, sizes: seq<uint64>, i: nat)
    requires NoOverflow(offset, sizes) && i < |sizes| && End(offset, sizes) <= 0x100_0000_0000_0000
    ensures AddressOf(offset, sizes, i) < 0x100_0000_0000_0000
       <==> End(offset, sizes) < 0x100_0000_0000_0000 || SomeBytesFrom(sizes, i)
  {
    hide SomeBytesFrom, Pages;
    AddressBelowEnd(offset, sizes, i);
    EndMonotone(offset, sizes, i);
    EndMoves(offset, sizes, i);
  }
}
