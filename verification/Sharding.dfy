/** Deriving group indices from shard keys, on the transaction plane and on object planes. */
module Sharding {
  import opened Bytes

  const CONTROL_BASE := 0xF800
  const DOMAIN_MAX := 0x0E
  const SLOT := 0x1000
  const MAX_SHARD_BITS := 12
  const MAX_PLANE_BITS := 15

  function Prefix32(key: Hash32): (p: nat)
    ensures p < TWO32
  {
    Widths();
    GetBEBound(key[..4]);
    GetBE(key[..4])
  }

  /** The top `bits` bits of the key. The engine keeps any width it is given; a width over 32
      shifts everything out. */
  function GroupIndex(key: Hash32, bits: nat): nat {
    if bits > 32 then 0 else (Prefix32(key) / Pow2(32 - bits)) % Pow2(bits)
  }

  function PlaneBase(domain: byte): nat {
    domain * SLOT
  }

  function SlotSpan(bits: nat): nat {
    if bits <= 12 then 1 else Pow2(bits - 12)
  }

  predicate ValidPlane(domain: byte, bits: nat) {
    && domain <= DOMAIN_MAX
    && bits <= MAX_PLANE_BITS
    && (domain == 0 ==> bits <= MAX_SHARD_BITS)
    && PlaneBase(domain) + Pow2(bits) <= CONTROL_BASE
  }

  function PlaneIndex(domain: byte, bits: nat, key: Hash32): nat {
    PlaneBase(domain) + GroupIndex(key, bits)
  }

  // ---- arithmetic -----------------------------------------------------------------------

  lemma {:induction false} Pow2Add(a: nat, b: nat)
    ensures Pow2(a + b) == Pow2(a) * Pow2(b)
  {
    if a > 0 {
      Pow2Add(a - 1, b);
      assert Pow2(a + b) == 2 * Pow2(a - 1 + b);
      MulTwice(Pow2(a - 1), Pow2(b));
    }
  }

  lemma {:induction false} MulTwice(p: nat, q: nat)
    ensures 2 * (p * q) == (2 * p) * q
  {
  }

  lemma {:induction false} Pow2Small()
    ensures Pow2(3) == 8 && Pow2(4) == 16
  {
  }

  lemma {:induction false} Pow2Of32()
    ensures Pow2(32) == TWO32 && Pow2(12) == SLOT && Pow2(15) == 8 * SLOT && Pow2(16) == TWO16
  {
    hide Pow2;
    Pow2Small();
    Pow2Add(4, 4);
    Pow2Add(8, 4);
    Pow2Add(12, 3);
    Pow2Add(8, 8);
    Pow2Add(16, 16);
  }

  lemma {:induction false} DivDiv(x: nat, a: nat, b: nat)
    requires a > 0 && b > 0
    ensures a * b > 0 && x / (a * b) == (x / a) / b
  {
    MulAtLeast(a, b);
    var q, r := (x / a) / b, (x / a) % b;
    assert x / a == q * b + r;
    assert x == (x / a) * a + x % a;
    assert (q * b + r) * a == q * (b * a) + r * a by {
      assert (q * b) * a == q * (b * a);
    }
    assert r * a <= (b - 1) * a by {
      MulOrder(r, b - 1, a);
    }
    assert (b - 1) * a + a == a * b;
    assert b * a == a * b;
    DivModUnique(x, a * b, q, r * a + x % a);
  }

  lemma {:induction false} MulOrder(x: nat, y: nat, a: nat)
    requires x <= y
    ensures x * a <= y * a
  {
  }

  lemma {:induction false} SmallMod(x: nat, m: nat)
    requires m > 0
    ensures x < m ==> x % m == x
  {
  }

  lemma {:induction false} DivBound(x: nat, a: nat, b: nat)
    requires a > 0 && x < a * b
    ensures x / a < b
  {
    if x / a >= b {
      MulOrder(b, x / a, a);
    }
  }

  // ---- laws -----------------------------------------------------------------------------

  /** The mask never cuts anything: the index is the shifted prefix, below 2^bits. */
  lemma {:induction false} TopBits(key: Hash32, bits: nat)
    requires bits <= 32
    ensures GroupIndex(key, bits) == Prefix32(key) / Pow2(32 - bits) < Pow2(bits)
  {
    hide Pow2, Prefix32;
    Pow2Of32();
    Pow2Add(32 - bits, bits);
    SmallMod(Prefix32(key) / Pow2(32 - bits), Pow2(bits));
    DivBound(Prefix32(key), Pow2(32 - bits), Pow2(bits));
  }

  lemma {:induction false} IndexBelow(key: Hash32, bits: nat)
    ensures GroupIndex(key, bits) < Pow2(bits)
  {
    if bits <= 32 {
      TopBits(key, bits);
    }
  }

  /** Widening only splits groups: the index at a wider width, shifted back, is the index at the
      narrower one. */
  lemma {:induction false} WideningSplits(key: Hash32, bits: nat, wider: nat)
    requires bits <= wider <= 32
    ensures GroupIndex(key, wider) / Pow2(wider - bits) == GroupIndex(key, bits)
  {
    hide Pow2, Prefix32;
    TopBits(key, bits);
    TopBits(key, wider);
    Pow2Add(32 - wider, wider - bits);
    DivDiv(Prefix32(key), Pow2(32 - wider), Pow2(wider - bits));
  }

  lemma {:induction false} Pow2Monotone(a: nat, b: nat)
    requires a <= b
    ensures Pow2(a) <= Pow2(b)
  {
    if a < b {
      Pow2Monotone(a, b - 1);
    }
  }

  lemma {:induction false} HighPrefix(key: Hash32)
    requires key[0] >= 128
    ensures Prefix32(key) >= 0x8000_0000
  {
    hide GetBE;
    PrefixGrows(key, 0);
    PrefixGrows(key, 1);
    PrefixGrows(key, 2);
    PrefixGrows(key, 3);
  }

  lemma {:induction false} PrefixGrows(s: bytes, n: nat)
    requires n < |s|
    ensures GetBE(s[..n + 1]) == 256 * GetBE(s[..n]) + s[n]
  {
    assert s[..n + 1][..n] == s[..n];
  }

  /** A key whose top bit is set lies in the upper half of the groups at every width. */
  lemma {:induction false} UpperHalf(key: Hash32, bits: nat)
    requires key[0] >= 128 && 1 <= bits <= 32
    ensures GroupIndex(key, bits) >= Pow2(bits - 1)
  {
    hide Pow2, Prefix32;
    HighPrefix(key);
    TopBits(key, bits);
    Pow2Of31();
    Pow2Add(32 - bits, bits - 1);
    QuotientAtLeast(Prefix32(key), Pow2(32 - bits), Pow2(bits - 1));
  }

  lemma {:induction false} QuotientAtLeast(x: nat, d: nat, q: nat)
    requires d > 0 && x >= d * q
    ensures x / d >= q
  {
    var e := x / d;
    assert x == e * d + x % d;
    assert (e + 1) * d == e * d + d;
    Below(x, d, q, e);
  }

  lemma {:induction false} Below(x: nat, d: nat, q: nat, e: nat)
    requires x >= d * q && x < (e + 1) * d
    ensures e >= q
  {
    if e < q {
      MulOrder(e + 1, q, d);
    }
  }

  lemma {:induction false} Pow2Of31()
    ensures Pow2(31) == 0x8000_0000
  {
    assert Pow2(32) == 2 * Pow2(31);
    Pow2Of32();
  }

  /** The 16 bits that a bundle has for its group say which group of the narrower width the key is
      in exactly while the wider width is at most 16. */
  lemma {:induction false} SixteenBitsExactly(bits: nat, wider: nat)
    requires 1 <= bits <= 32 && bits <= wider
    ensures (forall key: Hash32 :: (GroupIndex(key, wider) % TWO16) / Pow2(wider - bits) == GroupIndex(key, bits))
       <==> wider <= 16
  {
    hide GroupIndex, Pow2;
    if wider <= 16 {
      forall key: Hash32 ensures (GroupIndex(key, wider) % TWO16) / Pow2(wider - bits) == GroupIndex(key, bits) {
        SixteenBitsEnough(key, bits, wider);
      }
    } else {
      var key: Hash32 := seq(32, _ => 255);
      SixteenBitsShort(key, bits, wider);
    }
  }

  lemma {:induction false} SixteenBitsEnough(key: Hash32, bits: nat, wider: nat)
    requires bits <= wider <= 16
    ensures (GroupIndex(key, wider) % TWO16) / Pow2(wider - bits) == GroupIndex(key, bits)
  {
    hide GroupIndex, Pow2;
    IndexBelow(key, wider);
    Pow2Monotone(wider, 16);
    Pow2Of32();
    WideningSplits(key, bits, wider);
  }

  lemma {:induction false} SixteenBitsShort(key: Hash32, bits: nat, wider: nat)
    requires key[0] >= 128 && 1 <= bits <= 32 && bits <= wider && wider > 16
    ensures (GroupIndex(key, wider) % TWO16) / Pow2(wider - bits) != GroupIndex(key, bits)
  {
    hide Pow2;
    UpperHalf(key, bits);
    if wider <= 32 {
      hide GroupIndex;
      Pow2Add(bits - 1, wider - bits);
      Pow2Monotone(16, wider - 1);
      Pow2Of32();
      TooSmall(GroupIndex(key, wider) % TWO16, Pow2(wider - bits), Pow2(bits - 1), GroupIndex(key, bits));
    }
  }

  lemma {:induction false} TooSmall(r: nat, d: nat, low: nat, g: nat)
    requires d > 0 && r < low * d && low <= g
    ensures r / d != g
  {
    MulOrder(low, g, d);
  }

  /** A plane fits in the slots its width implies. */
  lemma {:induction false} SpanCovers(bits: nat)
    requires bits <= MAX_PLANE_BITS
    ensures Pow2(bits) <= SLOT * SlotSpan(bits)
  {
    hide Pow2;
    Pow2Of32();
    if bits <= 12 {
      Pow2Monotone(bits, 12);
    } else {
      Pow2Add(12, bits - 12);
    }
  }
}
