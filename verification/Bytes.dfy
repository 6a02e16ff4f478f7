/** Fixed-width integers and their byte views: big-endian on the wire, little-endian in memory. */
module Bytes {

  type byte = x: int | 0 <= x < 256
  type uint32 = x: int | 0 <= x < 0x1_0000_0000
  type uint64 = x: int | 0 <= x < 0x1_0000_0000_0000_0000

  /** 2^56: the first address that does not fit in the 7 bytes of a request. */
  const ADDRESS_LIMIT := 0x100_0000_0000_0000

  function Pow256(k: nat): (p: nat)
    ensures p > 0
  {
    if k == 0 then 1 else 256 * Pow256(k - 1)
  }

  /** The `width` low bytes of `n`, most significant first; higher bytes are dropped. */
  function Be(n: nat, width: nat): (s: seq<byte>)
    ensures |s| == width
  {
    if width == 0 then [] else Be(n / 256, width - 1) + [n % 256]
  }

  function FromBe(s: seq<byte>): nat {
    if s == [] then 0 else 256 * FromBe(s[..|s| - 1]) + s[|s| - 1]
  }

  /** The value of a byte array as a little-endian machine reads it. */
  function FromLe(s: seq<byte>): nat {
    if s == [] then 0 else FromLe(s[..|s| - 1]) + Pow256(|s| - 1) * s[|s| - 1]
  }

  /** The 24-bit value of three user bytes in memory order. */
  function UserValue(user: seq<byte>): uint32
    requires |user| == 3
  {
    user[0] as int + 0x100 * user[1] as int + 0x1_0000 * user[2] as int
  }

  lemma PowValues()
    ensures Pow256(4) == 0x1_0000_0000
    ensures Pow256(7) == ADDRESS_LIMIT
    ensures Pow256(8) == 0x1_0000_0000_0000_0000
  {
    assert Pow256(2) == 0x1_0000;
    assert Pow256(3) == 0x100_0000;
    assert Pow256(5) == 0x100_0000_0000;
    assert Pow256(6) == 0x1_0000_0000_0000;
  }

  lemma MulMonotone(a: int, b: int, d: nat)
    requires a + 1 <= b
    ensures a * d + d <= b * d
  {
    assert (b - a - 1) * d >= 0;
    assert b * d == (b - a - 1) * d + a * d + d;
  }

  lemma DivModUnique(n: nat, d: nat, q: nat, r: nat)
    requires r < d && n == q * d + r
    ensures n / d == q && n % d == r
  {
    var q', r' := n / d, n % d;
    assert n == q' * d + r';
    if q' < q {
      MulMonotone(q', q, d);
    } else if q < q' {
      MulMonotone(q, q', d);
    }
  }

  lemma ModOfProduct(n: nat, p: nat)
    requires p > 0
    ensures n % (256 * p) == 256 * ((n / 256) % p) + n % 256
  {
    var m := n / 256;
    var q, r := m / p, m % p;
    assert m == q * p + r;
    assert q * (256 * p) == 256 * (q * p);
    DivModUnique(n, 256 * p, q, 256 * r + n % 256);
  }

  /** Writing and reading back big-endian keeps exactly the low `width` bytes. */
  lemma {:induction false} FromBeOfBe(n: nat, width: nat)
    ensures FromBe(Be(n, width)) == n % Pow256(width)
  {
    if width == 0 {
    } else {
      FromBeOfBe(n / 256, width - 1);
      assert Be(n, width)[..width - 1] == Be(n / 256, width - 1);
      ModOfProduct(n, Pow256(width - 1));
    }
  }

  /** Reading and writing back big-endian is the identity. */
  lemma {:induction false} BeOfFromBe(s: seq<byte>)
    ensures Be(FromBe(s), |s|) == s
    ensures FromBe(s) < Pow256(|s|)
  {
    if s == [] {
    } else {
      var init := s[..|s| - 1];
      BeOfFromBe(init);
      assert FromBe(s) / 256 == FromBe(init) && FromBe(s) % 256 == s[|s| - 1];
      assert s == init + [s[|s| - 1]];
    }
  }

  lemma DivTwice(n: nat, p: nat)
    requires p > 0
    ensures n / (256 * p) == n / 256 / p
  {
    var m := n / 256;
    var q, r := m / p, m % p;
    assert m == q * p + r;
    assert q * (256 * p) == 256 * (q * p);
    DivModUnique(n, 256 * p, q, 256 * r + n % 256);
  }

  /** Byte `k` from the left has weight 256^(width - 1 - k). */
  lemma {:induction false} BeAt(n: nat, width: nat, k: nat)
    requires k < width
    ensures Be(n, width)[k] == n / Pow256(width - 1 - k) % 256
  {
    if k < width - 1 {
      BeAt(n / 256, width - 1, k);
      DivTwice(n, Pow256(width - 2 - k));
    }
  }

  /** The first byte is the most significant one. */
  lemma {:induction false} FromBeFirst(s: seq<byte>)
    requires s != []
    ensures FromBe(s) == s[0] * Pow256(|s| - 1) + FromBe(s[1..])
  {
    var n := |s| - 1;
    if n > 0 {
      FromBeFirst(s[..n]);
      assert s[..n][1..] == s[1..][..n - 1];
      var p := Pow256(n - 1);
      assert 256 * (s[0] * p) == s[0] * (256 * p);
    } else {
      assert s[1..] == [];
    }
  }

  /** A word with flags above a 7-byte address is stored as the flags and then the address. */
  lemma FlaggedBytes(flags: byte, addr: nat)
    requires addr < ADDRESS_LIMIT
    ensures var s := Be(flags * ADDRESS_LIMIT + addr, 8);
      s[0] == flags && FromBe(s[1..8]) == addr
  {
    PowValues();
    var info := flags * ADDRESS_LIMIT + addr;
    var s := Be(info, 8);
    FromBeOfBe(info, 8);
    FromBeFirst(s);
    BeOfFromBe(s[1..]);
    hide Be, FromBe, Pow256;
    assert s[1..8] == s[1..];
    DivModUnique(info, ADDRESS_LIMIT, s[0], FromBe(s[1..]));
    DivModUnique(info, ADDRESS_LIMIT, flags, addr);
  }

  /** Values that fit their field survive the wire unchanged. */
  lemma FieldsSurvive()
    ensures forall n: uint64 {:trigger Be(n, 8)} :: FromBe(Be(n, 8)) == n
    ensures forall n: uint32 {:trigger Be(n, 4)} :: FromBe(Be(n, 4)) == n
  {
    PowValues();
    forall n: uint64 ensures FromBe(Be(n, 8)) == n {
      FromBeOfBe(n, 8);
    }
    forall n: uint32 ensures FromBe(Be(n, 4)) == n {
      FromBeOfBe(n, 4);
    }
  }
}
