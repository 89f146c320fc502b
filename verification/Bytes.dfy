/**
 Byte strings, little-endian integers and the few bit operations that the
 serialisers and transports rely on. Machine integers are unbounded `int`s
 restricted by subset types; wrap-around is written out where it matters.
 */
module Bytes {
  type byte = x: int | 0 <= x < 256
  type int32 = x: int | -0x8000_0000 <= x < 0x8000_0000
  type int64 = x: int | -0x8000_0000_0000_0000 <= x < 0x8000_0000_0000_0000

  datatype Option<T> = None | Some(value: T)

  function Pow2(n: nat): (r: nat)
    ensures r > 0
  {
    if n == 0 then 1 else 2 * Pow2(n - 1)
  }

  function Pow256(n: nat): (r: nat)
    ensures r > 0
  {
    if n == 0 then 1 else 256 * Pow256(n - 1)
  }

  /** The low n bytes of x, least significant first (a memcpy of an integer). */
  function Le(n: nat, x: nat): (r: seq<byte>)
    ensures |r| == n
  {
    if n == 0 then [] else [x % 256] + Le(n - 1, x / 256)
  }

  function FromLe(s: seq<byte>): nat {
    if s == [] then 0 else s[0] + 256 * FromLe(s[1..])
  }

  lemma {:induction false} LeRoundTrip(n: nat, x: nat)
    requires x < Pow256(n)
    ensures FromLe(Le(n, x)) == x
  {
    if n > 0 {
      LeRoundTrip(n - 1, x / 256);
    }
  }

  lemma {:induction false} FromLeBound(s: seq<byte>)
    ensures FromLe(s) < Pow256(|s|)
  {
    if s != [] {
      FromLeBound(s[1..]);
    }
  }

  /** The widths that occur on the wire. */
  lemma Pow256Values()
    ensures Pow256(1) == 0x100 && Pow256(3) == 0x100_0000
    ensures Pow256(4) == 0x1_0000_0000
    ensures Pow256(8) == 0x1_0000_0000_0000_0000
  {
    assert Pow256(2) == 256 * Pow256(1);
    assert Pow256(4) == 256 * Pow256(3);
    assert Pow256(5) == 256 * Pow256(4);
    assert Pow256(6) == 256 * Pow256(5);
    assert Pow256(7) == 256 * Pow256(6);
  }

  // Two's complement.

  function Unsigned32(x: int32): (r: nat)
    ensures r < 0x1_0000_0000
  {
    if x < 0 then x + 0x1_0000_0000 else x
  }

  function Signed32(u: nat): (r: int32)
    requires u < 0x1_0000_0000
    ensures Unsigned32(r) == u
  {
    if u < 0x8000_0000 then u else u - 0x1_0000_0000
  }

  function Unsigned64(x: int64): (r: nat)
    ensures r < 0x1_0000_0000_0000_0000
  {
    if x < 0 then x + 0x1_0000_0000_0000_0000 else x
  }

  function Signed64(u: nat): (r: int64)
    requires u < 0x1_0000_0000_0000_0000
    ensures Unsigned64(r) == u
  {
    if u < 0x8000_0000_0000_0000 then u else u - 0x1_0000_0000_0000_0000
  }

  function Zeros(n: nat): (r: seq<byte>)
    ensures |r| == n
  {
    seq(n, _ => 0)
  }

  // Bits of a non-negative word.

  /** `x & (1 << k) != 0` */
  predicate Bit(x: nat, k: nat) {
    if k == 0 then x % 2 == 1 else Bit(x / 2, k - 1)
  }

  /** `x | (b << k)` */
  function OrBit(x: nat, k: nat, b: bool): nat {
    if !b then x
    else if k == 0 then x / 2 * 2 + 1
    else 2 * OrBit(x / 2, k - 1, b) + x % 2
  }

  lemma {:induction false} OrBitBit(x: nat, k: nat, b: bool, j: nat)
    ensures Bit(OrBit(x, k, b), j) <==> Bit(x, j) || (b && j == k)
  {
    if b && k > 0 {
      assert OrBit(x, k, b) / 2 == OrBit(x / 2, k - 1, b);
      if j > 0 {
        OrBitBit(x / 2, k - 1, b, j - 1);
      }
    }
  }

  lemma {:induction false} OrBitIdle(x: nat, k: nat, b: bool)
    requires b ==> Bit(x, k)
    ensures OrBit(x, k, b) == x
  {
    if b && k > 0 {
      OrBitIdle(x / 2, k - 1, b);
    }
  }

  lemma {:induction false} OrBitBound(x: nat, k: nat, b: bool, n: nat)
    requires x < Pow2(n) && k < n
    ensures OrBit(x, k, b) < Pow2(n)
  {
    if b && k > 0 {
      assert x / 2 < Pow2(n - 1);
      OrBitBound(x / 2, k - 1, b, n - 1);
    }
  }

  /** `a ^ b` on n-bit words. */
  function Xor(n: nat, a: nat, b: nat): (r: nat)
    ensures r < Pow2(n)
  {
    if n == 0 then 0 else 2 * Xor(n - 1, a / 2, b / 2) + (if a % 2 == b % 2 then 0 else 1)
  }

  lemma {:induction false} XorInvolution(n: nat, a: nat, b: nat)
    requires a < Pow2(n)
    ensures Xor(n, Xor(n, a, b), b) == a
  {
    if n > 0 {
      XorInvolution(n - 1, a / 2, b / 2);
      var c := Xor(n, a, b);
      assert c / 2 == Xor(n - 1, a / 2, b / 2);
      assert c % 2 == if a % 2 == b % 2 then 0 else 1;
    }
  }

  // Remainders.

  lemma NoSmallMultiple(d: int, p: int)
    requires p > 0 && -p < d * p < p
    ensures d == 0
  {
    assert d >= 1 ==> d * p >= p;
    assert d <= -1 ==> d * p <= -p;
  }

  lemma RemainderUnique(q: nat, r: nat, p: nat)
    requires r < p
    ensures (q * p + r) % p == r
  {
    var x := q * p + r;
    var q', r' := x / p, x % p;
    assert x == q' * p + r';
    assert (q - q') * p == r' - r;
    NoSmallMultiple(q - q', p);
  }

  lemma ModDropsMultiple(x: nat, k: nat, p: nat)
    requires p > 0
    ensures (x + k * p) % p == x % p
  {
    var q, r := x / p, x % p;
    assert x == q * p + r;
    assert x + k * p == (q + k) * p + r;
    RemainderUnique(q + k, r, p);
  }
}
