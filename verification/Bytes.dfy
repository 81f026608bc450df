/** Big-endian numbers in bytes. */
module Bytes {
  import opened Wrappers

  type Byte = x: int | 0 <= x < 256

  type I16 = x: int | -0x8000 <= x < 0x8000
  type I32 = x: int | -0x8000_0000 <= x < 0x8000_0000
  type I64 = x: int | -0x8000_0000_0000_0000 <= x < 0x8000_0000_0000_0000

  function Pow256(n: nat): (p: nat)
    ensures p > 0
  {
    if n == 0 then 1 else 256 * Pow256(n - 1)
  }

  /** The low `n` bytes of `u`, most significant first. */
  function BeBytes(u: int, n: nat): (s: seq<Byte>)
    ensures |s| == n
    decreases n
  {
    if n == 0 then [] else BeBytes(u / 256, n - 1) + [u % 256]
  }

  function BeNat(s: seq<Byte>): nat {
    if s == [] then 0 else 256 * BeNat(s[..|s| - 1]) + s[|s| - 1]
  }

  /** The signed number that `n` bytes with value `u` stand for. */
  function Signed(u: int, n: nat): int
    requires n > 0
  {
    if u < Pow256(n) / 2 then u else u - Pow256(n)
  }

  /** Keeping the low 32 bits, as a cast does. */
  function Wrap32(v: int): I32 {
    var u := v % 0x1_0000_0000;
    if u < 0x8000_0000 then u else u - 0x1_0000_0000
  }

  function Wrap16(v: int): I16 {
    var u := v % 0x1_0000;
    if u < 0x8000 then u else u - 0x1_0000
  }

  /** The cast of a signed number to a 64-bit size. */
  function AsUsize(v: int): nat
    requires -0x8000_0000_0000_0000 <= v
  {
    if v < 0 then v + 0x1_0000_0000_0000_0000 else v
  }

  lemma BeNatPrefix(s: seq<Byte>, k: nat)
    requires 0 < k <= |s|
    ensures BeNat(s[..k]) == 256 * BeNat(s[..k - 1]) + s[k - 1]
  {
    assert s[..k][..k - 1] == s[..k - 1];
  }

  lemma {:induction false} BeNatBound(s: seq<Byte>)
    ensures 0 <= BeNat(s) < Pow256(|s|)
  {
    if s == [] {
    } else {
      BeNatBound(s[..|s| - 1]);
    }
  }

  /** The bytes hold the number modulo 256^n. */
  lemma {:induction false} BeBytesHold(u: int, n: nat) returns (q: int)
    ensures u == q * Pow256(n) + BeNat(BeBytes(u, n))
    ensures 0 <= BeNat(BeBytes(u, n)) < Pow256(n)
    decreases n
  {
    BeNatBound(BeBytes(u, n));
    if n == 0 {
      q := u;
    } else {
      q := BeBytesHold(u / 256, n - 1);
      var high := BeBytes(u / 256, n - 1);
      assert BeBytes(u, n)[..n - 1] == high;
      var p := Pow256(n - 1);
      assert u == 256 * (u / 256) + u % 256;
      assert 256 * (q * p) == q * (256 * p);
    }
  }

  /** A signed number that fits in `n` bytes comes back from its low `n` bytes. */
  lemma SignedOfBytes(v: int, n: nat)
    requires n > 0 && 0 <= 2 * v + Pow256(n) && 2 * v < Pow256(n)
    ensures Signed(BeNat(BeBytes(v, n)), n) == v
  {
    var q := BeBytesHold(v, n);
    assert Pow256(n) == 256 * Pow256(n - 1);
    QuotientOfFit(v, Pow256(n), q, BeNat(BeBytes(v, n)));
  }

  lemma QuotientOfFit(v: int, p: int, q: int, u: nat)
    requires p > 0 && v == q * p + u && u < p && -p <= v < p
    ensures q == if v < 0 then -1 else 0
  {
    MultipleGrows(q, p);
    MultipleGrows(q + 1, p);
    assert (q + 1) * p == q * p + p;
  }

  /** An unsigned number that fits in `n` bytes comes back. */
  lemma NatOfBytes(u: nat, n: nat)
    requires u < Pow256(n)
    ensures BeNat(BeBytes(u, n)) == u
  {
    var q := BeBytesHold(u, n);
    QuotientOfFit(u, Pow256(n), q, BeNat(BeBytes(u, n)));
  }

  /** Numbers that agree modulo 256^n have the same low bytes. */
  lemma {:induction false} SameLowBytes(u: int, k: int, n: nat)
    ensures BeBytes(u + k * Pow256(n), n) == BeBytes(u, n)
    decreases n
  {
    if n == 0 {
    } else {
      var p := Pow256(n - 1);
      assert k * Pow256(n) == 256 * (k * p);
      assert (u + 256 * (k * p)) / 256 == u / 256 + k * p && (u + 256 * (k * p)) % 256 == u % 256;
      SameLowBytes(u / 256, k, n - 1);
    }
  }

  lemma Powers()
    ensures Pow256(1) == 0x100 && Pow256(2) == 0x1_0000 && Pow256(3) == 0x100_0000
    ensures Pow256(4) == 0x1_0000_0000 && Pow256(5) == 0x100_0000_0000 && Pow256(8) == 0x1_0000_0000_0000_0000
  {
    assert Pow256(1) == 256 * Pow256(0);
    assert Pow256(2) == 256 * Pow256(1);
    assert Pow256(3) == 256 * Pow256(2);
    assert Pow256(4) == 256 * Pow256(3);
    assert Pow256(5) == 256 * Pow256(4);
    assert Pow256(6) == 256 * Pow256(5);
    assert Pow256(7) == 256 * Pow256(6);
    assert Pow256(8) == 256 * Pow256(7);
  }
}
