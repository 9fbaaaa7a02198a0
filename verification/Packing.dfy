/** Greedy order-preserving packing of one flow's members, and its optimality. */
module Packing {
  import opened Bytes
  import opened BundleCodec

  /** The limits of a coalescer. */
  datatype Limits = Limits(maxBytes: int, maxCount: nat, carry: bool)

  /** A bundle of these members respects the limits: at least one and at most maxCount members,
      and at most maxBytes encoded bytes unless it holds a single member. */
  predicate Fits(l: Limits, ms: seq<Member>) {
    1 <= |ms| <= l.maxCount && (|ms| == 1 || HEADER + SectionLen(ms, l.carry) <= l.maxBytes)
  }

  /** How many leading members one bundle takes, having taken `n` of encoded size `size`. */
  function Take(l: Limits, ms: seq<Member>, n: nat, size: nat): (r: nat)
    requires n <= |ms|
    ensures n <= r <= |ms|
    decreases |ms| - n
  {
    if n < |ms| && n < l.maxCount && (n == 0 || size + Cost(ms[n], l.carry) <= l.maxBytes)
    then Take(l, ms, n + 1, size + Cost(ms[n], l.carry))
    else n
  }

  function Pack(l: Limits, ms: seq<Member>): seq<seq<Member>>
    requires l.maxCount >= 1
    decreases |ms|
  {
    if ms == [] then []
    else
      var n := Take(l, ms, 0, HEADER);
      assert n >= 1;
      [ms[..n]] + Pack(l, ms[n..])
  }

  function Concat(ps: seq<seq<Member>>): seq<Member> {
    if ps == [] then [] else ps[0] + Concat(ps[1..])
  }

  /** A split of `ms` into consecutive pieces within the limits. */
  predicate LegalSplit(l: Limits, ms: seq<Member>, ps: seq<seq<Member>>) {
    Concat(ps) == ms && forall p :: p in ps ==> Fits(l, p)
  }

  // ---- sizes ----------------------------------------------------------------------------

  lemma {:induction false} SectionLenConcat(a: seq<Member>, b: seq<Member>, carry: bool)
    ensures SectionLen(a + b, carry) == SectionLen(a, carry) + SectionLen(b, carry)
    decreases |a|
  {
    if a == [] {
      assert a + b == b;
    } else {
      SectionLenConcat(a[1..], b, carry);
      assert (a + b)[1..] == a[1..] + b;
    }
  }

  lemma {:induction false} SectionLenNext(ms: seq<Member>, n: nat, carry: bool)
    requires n < |ms|
    ensures SectionLen(ms[..n + 1], carry) == SectionLen(ms[..n], carry) + Cost(ms[n], carry)
  {
    SectionLenConcat(ms[..n], [ms[n]], carry);
    assert ms[..n + 1] == ms[..n] + [ms[n]];
    assert SectionLen([ms[n]], carry) == Cost(ms[n], carry) + SectionLen([], carry);
  }

  // ---- one bundle -----------------------------------------------------------------------

  /** Take stops at the longest prefix that fits. */
  lemma {:induction false} TakeIsLongest(l: Limits, ms: seq<Member>, n: nat)
    requires l.maxCount >= 1 && ms != [] && n <= |ms| && (n > 0 ==> Fits(l, ms[..n]))
    ensures var r := Take(l, ms, n, HEADER + SectionLen(ms[..n], l.carry));
      1 <= r <= |ms| && Fits(l, ms[..r]) && (r < |ms| ==> !Fits(l, ms[..r + 1]))
    decreases |ms| - n
  {
    hide SectionLen, Cost;
    if n < |ms| {
      SectionLenNext(ms, n, l.carry);
      if n < l.maxCount && (n == 0 || HEADER + SectionLen(ms[..n + 1], l.carry) <= l.maxBytes) {
        TakeIsLongest(l, ms, n + 1);
      }
    }
  }

  /** A part of a bundle that fits, fits. */
  lemma {:induction false} PartFits(l: Limits, ms: seq<Member>, lo: nat, hi: nat)
    requires Fits(l, ms) && lo < hi <= |ms|
    ensures Fits(l, ms[lo..hi])
  {
    SectionLenConcat(ms[..lo], ms[lo..hi], l.carry);
    SectionLenConcat(ms[..hi], ms[hi..], l.carry);
    assert ms[..lo] + ms[lo..hi] == ms[..hi] && ms[..hi] + ms[hi..] == ms;
  }

  lemma {:induction false} TakeAtLeast(l: Limits, ms: seq<Member>, j: nat)
    requires l.maxCount >= 1 && 1 <= j <= |ms| && Fits(l, ms[..j])
    ensures j <= Take(l, ms, 0, HEADER)
  {
    TakeIsLongest(l, ms, 0);
    var r := Take(l, ms, 0, HEADER);
    assert HEADER + SectionLen(ms[..0], l.carry) == HEADER;
    if r < j {
      assert ms[..j][0..r + 1] == ms[..r + 1];
      PartFits(l, ms[..j], 0, r + 1);
    }
  }

  // ---- the whole flow -------------------------------------------------------------------

  /** Greedy packing keeps every member once and in order, in bundles that fit. */
  lemma {:induction false} PackIsLegal(l: Limits, ms: seq<Member>)
    requires l.maxCount >= 1
    ensures LegalSplit(l, ms, Pack(l, ms))
    decreases |ms|
  {
    if ms != [] {
      TakeIsLongest(l, ms, 0);
      assert HEADER + SectionLen(ms[..0], l.carry) == HEADER;
      var n := Take(l, ms, 0, HEADER);
      PackIsLegal(l, ms[n..]);
      assert Pack(l, ms)[1..] == Pack(l, ms[n..]);
      assert ms == ms[..n] + ms[n..];
    }
  }

  /** Dropping members from the front of a legal split leaves a legal split of the rest with no
      more pieces. */
  lemma {:induction false} DropFront(l: Limits, ms: seq<Member>, ps: seq<seq<Member>>, d: nat)
    returns (qs: seq<seq<Member>>)
    requires LegalSplit(l, ms, ps) && d <= |ms|
    ensures LegalSplit(l, ms[d..], qs) && |qs| <= |ps|
    decreases |ps|
  {
    if d == 0 {
      qs := ps;
      assert ms[d..] == ms;
    } else {
      var p, rest := ps[0], Concat(ps[1..]);
      assert ms == p + rest;
      assert LegalSplit(l, rest, ps[1..]);
      if d >= |p| {
        qs := DropFront(l, rest, ps[1..], d - |p|);
        assert ms[d..] == rest[d - |p|..];
      } else {
        PartFits(l, p, d, |p|);
        qs := [p[d..]] + ps[1..];
        assert p[d..|p|] == p[d..];
        assert qs[1..] == ps[1..];
        assert ms[d..] == p[d..] + rest;
      }
    }
  }

  /** No order-preserving split within the limits uses fewer bundles. */
  lemma {:induction false} PackIsOptimal(l: Limits, ms: seq<Member>, ps: seq<seq<Member>>)
    requires l.maxCount >= 1 && LegalSplit(l, ms, ps)
    ensures |Pack(l, ms)| <= |ps|
    decreases |ps|
  {
    if ms != [] {
      assert ps != [];
      var p, rest := ps[0], Concat(ps[1..]);
      assert ms == p + rest;
      assert ms[..|p|] == p && Fits(l, p);
      TakeAtLeast(l, ms, |p|);
      var n := Take(l, ms, 0, HEADER);
      assert LegalSplit(l, rest, ps[1..]);
      var qs := DropFront(l, rest, ps[1..], n - |p|);
      assert rest[n - |p|..] == ms[n..];
      PackIsOptimal(l, ms[n..], qs);
    }
  }
}
