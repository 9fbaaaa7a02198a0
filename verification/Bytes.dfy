/** Bytes, fixed-width integers and flag bits shared by every codec. */
module Bytes {

  type byte = x: int | 0 <= x < 256
  type bytes = seq<byte>

  type Hash32 = b: bytes | |b| == 32 witness seq(32, _ => 0)
  type Id16 = b: bytes | |b| == 16 witness seq(16, _ => 0)
  type u16 = x: int | 0 <= x < 0x1_0000
  type u32 = x: int | 0 <= x < 0x1_0000_0000
  type u64 = x: int | 0 <= x < 0x1_0000_0000_0000_0000

  datatype Option<+T> = None | Some(value: T)

  const MAX_INT32 := 0x7FFF_FFFF
  const MAX_INT64 := 0x7FFF_FFFF_FFFF_FFFF
  const TWO16 := 0x1_0000
  const TWO32 := 0x1_0000_0000
  const TWO64 := 0x1_0000_0000_0000_0000

  /** The network magic and protocol version that start every datagram. */
  const MAGIC := 0xE3E1F3E8
  const PROTO_VER := 0x02BF

  function Pow2(n: nat): (r: nat)
    ensures r > 0
  {
    if n == 0 then 1 else 2 * Pow2(n - 1)
  }

  function Pow256(n: nat): (r: nat)
    ensures r > 0
  {
    if n == 0 then 1 else 256 * Pow256(n - 1)
  }

  /** Whether the flag bit of weight `w` (a power of two) is set in `flags`. */
  predicate HasBit(flags: byte, w: byte)
    requires w > 0
  {
    (flags / w) % 2 == 1
  }

  /** Big-endian value of a byte string. */
  function GetBE(s: bytes): (v: nat)
  {
    if s == [] then 0 else 256 * GetBE(s[..|s| - 1]) + s[|s| - 1]
  }

  /** The `n` low-order bytes of `v`, big-endian: what binary.BigEndian.PutUintN stores. */
  function PutBE(v: nat, n: nat): (s: bytes)
    ensures |s| == n
  {
    if n == 0 then [] else PutBE(v / 256, n - 1) + [v % 256]
  }

  /** Little-endian value of a byte string. */
  function GetLE(s: bytes): (v: nat)
  {
    if s == [] then 0 else s[0] + 256 * GetLE(s[1..])
  }

  /** What conversion to a 64-bit signed integer keeps of `x`. */
  function WrapInt64(x: int): int {
    (x + 0x8000_0000_0000_0000) % TWO64 - 0x8000_0000_0000_0000
  }

  function Zeros(n: nat): (s: bytes)
    ensures |s| == n
  {
    seq(n, _ => 0)
  }

  lemma {:induction false} GetBEBound(s: bytes)
    ensures GetBE(s) < Pow256(|s|)
  {
    if s != [] {
      GetBEBound(s[..|s| - 1]);
    }
  }

  lemma {:induction false} GetPut(v: nat, n: nat)
    requires v < Pow256(n)
    ensures GetBE(PutBE(v, n)) == v
  {
    if n > 0 {
      GetPut(v / 256, n - 1);
      assert PutBE(v, n)[..n - 1] == PutBE(v / 256, n - 1);
    }
  }

  lemma {:induction false} PutGet(s: bytes)
    ensures PutBE(GetBE(s), |s|) == s
  {
    if s != [] {
      PutGet(s[..|s| - 1]);
      assert s == s[..|s| - 1] + [s[|s| - 1]];
    }
  }

  lemma {:induction false} Widths()
    ensures Pow256(1) == 256 && Pow256(2) == TWO16 && Pow256(4) == TWO32 && Pow256(8) == TWO64
  {
    assert Pow256(3) == 256 * Pow256(2);
    assert Pow256(5) == 256 * Pow256(4);
    assert Pow256(6) == 256 * Pow256(5);
    assert Pow256(7) == 256 * Pow256(6);
    assert Pow256(8) == 256 * Pow256(7);
  }

  /** PutBE keeps only the residue modulo the field width. */
  lemma {:induction false} PutBEWraps(v: nat, n: nat)
    ensures GetBE(PutBE(v, n)) == v % Pow256(n)
  {
    if n > 0 {
      PutBEWraps(v / 256, n - 1);
      assert PutBE(v, n)[..n - 1] == PutBE(v / 256, n - 1);
      ModSplit(v, Pow256(n - 1));
    }
  }

  lemma {:induction false} ModSplit(v: nat, p: nat)
    requires p > 0
    ensures v % (256 * p) == 256 * ((v / 256) % p) + v % 256
  {
    var q := (v / 256) / p;
    var r := (v / 256) % p;
    assert v == 256 * (q * p + r) + v % 256;
    var w := 256 * r + v % 256;
    assert v == q * (256 * p) + w;
    assert 0 <= w < 256 * p;
    DivModUnique(v, 256 * p, q, w);
  }

  lemma {:induction false} DivModUnique(v: nat, d: nat, q: nat, w: nat)
    requires d > 0 && v == q * d + w && w < d
    ensures v % d == w && v / d == q
  {
    var e := v / d - q;
    assert e * d == w - v % d by {
      assert (v / d) * d + v % d == v;
      assert e * d == (v / d) * d - q * d;
    }
    if e >= 1 {
      MulAtLeast(e, d);
    } else if e <= -1 {
      MulAtLeast(-e, d);
    }
  }

  lemma {:induction false} MulAtLeast(e: int, d: nat)
    requires e >= 1
    ensures e * d >= d
  {
  }

  lemma {:induction false} SliceOfSlice(s: bytes, lo: nat, hi: nat, j: nat, k: nat)
    requires lo <= hi <= |s| && j <= k <= hi - lo
    ensures s[lo..hi][j..k] == s[lo + j..lo + k]
  {
    var a, b := s[lo..hi][j..k], s[lo + j..lo + k];
    forall t | 0 <= t < k - j ensures a[t] == b[t] {
    }
  }
}
