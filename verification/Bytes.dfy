/** Byte strings and little-endian numbers, as the C++ code reads and writes them with
    `memcpy` on a little-endian machine. */
module Bytes {

  type byte = b: int | 0 <= b < 256
  type bytes = seq<byte>

  const TWO_16: nat := 0x1_0000
  const TWO_32: nat := 0x1_0000_0000
  const TWO_63: nat := 0x8000_0000_0000_0000
  const TWO_64: nat := 0x1_0000_0000_0000_0000

  type uint16 = n: nat | n < TWO_16
  type uint32 = n: nat | n < TWO_32
  type uint64 = n: nat | n < TWO_64

  /** 256 to the power k. */
  function Pow256(k: nat): (r: nat)
    ensures r >= 1
  {
    if k == 0 then 1 else 256 * Pow256(k - 1)
  }

  lemma PowersOf256()
    ensures Pow256(1) == 256 && Pow256(2) == TWO_16 && Pow256(4) == TWO_32 && Pow256(8) == TWO_64
  {
    assert Pow256(6) == 0x1_0000_0000_0000;
  }

  /** The low k bytes of n, least significant first. */
  function Le(n: nat, k: nat): (r: bytes)
    ensures |r| == k
    decreases k
  {
    if k == 0 then [] else [n % 256] + Le(n / 256, k - 1)
  }

  /** The number whose little-endian bytes are s. */
  function FromLe(s: bytes): nat
  {
    if s == [] then 0 else s[0] + 256 * FromLe(s[1..])
  }

  lemma {:induction false} FromLeBound(s: bytes)
    ensures FromLe(s) < Pow256(|s|)
  {
    if s == [] {
    } else {
      FromLeBound(s[1..]);
    }
  }

  /** Writing k bytes and reading them back gives the number modulo 256^k. */
  lemma {:induction false} FromLeOfLe(n: nat, k: nat)
    ensures FromLe(Le(n, k)) == n % Pow256(k)
    decreases k
  {
    if k == 0 {
    } else {
      FromLeOfLe(n / 256, k - 1);
      assert Le(n, k)[1..] == Le(n / 256, k - 1);
      ModOfProduct(n, Pow256(k - 1));
    }
  }

  lemma ModOfProduct(n: nat, m: nat)
    requires m >= 1
    ensures n % 256 + 256 * (n / 256 % m) == n % (256 * m)
  {
    var q := n / 256 / m;
    var r := n % 256 + 256 * (n / 256 % m);
    assert n / 256 == m * q + n / 256 % m;
    assert n == 256 * (n / 256) + n % 256;
    assert 256 * (m * q) == (256 * m) * q;
    assert n == (256 * m) * q + r;
    assert n / 256 % m <= m - 1;
    assert 0 <= r < 256 * m;
    ModIs(n, 256 * m, q, r);
  }

  lemma ProductOrder(d: nat, a: nat, b: nat)
    requires a <= b
    ensures d * a <= d * b
  {}

  lemma ModIs(n: nat, d: nat, q: nat, r: nat)
    requires d >= 1 && n == d * q + r && r < d
    ensures n % d == r && n / d == q
  {
    var q', r' := n / d, n % d;
    assert n == d * q' + r' && r' < d;
    if q' < q {
      ProductOrder(d, q' + 1, q);
    } else if q < q' {
      ProductOrder(d, q + 1, q');
    }
  }

  /** Writing back a number that was read gives the same bytes. */
  lemma {:induction false} LeOfFromLe(s: bytes)
    ensures Le(FromLe(s), |s|) == s
  {
    if s == [] {
    } else {
      LeOfFromLe(s[1..]);
      ModIs(FromLe(s), 256, FromLe(s[1..]), s[0]);
      assert s == [s[0]] + s[1..];
    }
  }

  /** n zero bytes. */
  function Zeros(n: nat): (r: bytes)
    ensures |r| == n
  {
    seq(n, i => 0)
  }

  lemma {:induction false} LeOfZero(k: nat)
    ensures Le(0, k) == Zeros(k)
  {
    if k == 0 {
    } else {
      LeOfZero(k - 1);
      assert Zeros(k) == [0] + Zeros(k - 1);
    }
  }

  // ---- Fixed-width fields ----

  function U16(b: bytes): uint16
    requires |b| == 2
  {
    FromLeBound(b);
    PowersOf256();
    FromLe(b)
  }

  function U32(b: bytes): uint32
    requires |b| == 4
  {
    FromLeBound(b);
    PowersOf256();
    FromLe(b)
  }

  function U64(b: bytes): uint64
    requires |b| == 8
  {
    FromLeBound(b);
    PowersOf256();
    FromLe(b)
  }

  lemma U16OfLe(n: uint16)
    ensures U16(Le(n, 2)) == n
  {
    FromLeOfLe(n, 2);
    PowersOf256();
  }

  lemma U32OfLe(n: uint32)
    ensures U32(Le(n, 4)) == n
  {
    FromLeOfLe(n, 4);
    PowersOf256();
  }

  lemma U64OfLe(n: uint64)
    ensures U64(Le(n, 8)) == n
  {
    FromLeOfLe(n, 8);
    PowersOf256();
  }
}
