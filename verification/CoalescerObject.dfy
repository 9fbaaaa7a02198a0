/** The mutable coalescer and the loops of the bundle codec. */
module CoalescerObject {
  import opened Bytes
  import opened BundleCodec
  import opened Packing
  import opened Sharding
  import opened Coalescing

  // ---- codec loops ----------------------------------------------------------------------

  method MemberSectionLen(ms: seq<Member>, carry: bool) returns (n: nat)
    ensures n == SectionLen(ms, carry)
  {
    n := Overhead(carry) * |ms|;
    for i := 0 to |ms|
      invariant n == SectionLen(ms[..i], carry) + Overhead(carry) * (|ms| - i)
    {
      SectionLenNext(ms, i, carry);
      n := n + |ms[i].tx|;
    }
    assert ms[..|ms|] == ms;
  }

  method EncodeBundle(b: Bundle) returns (r: Result<bytes>)
    ensures r == Encode(b)
  {
    hide MemberBytes, Header;
    if |b.members| > MAX16 {
      return Bad(TooMany);
    }
    var carry := Carries(b.flags);
    var buf := Header(b);
    for i := 0 to |b.members|
      invariant buf + MembersBytes(b.members[i..], carry) == Header(b) + MembersBytes(b.members, carry)
      invariant forall j :: 0 <= j < i ==> |b.members[j].tx| <= MAX16
    {
      var m := b.members[i];
      if |m.tx| > MAX16 {
        assert m in b.members;
        return Bad(MemberBig);
      }
      ghost var rest := MembersBytes(b.members[i + 1..], carry);
      assert b.members[i..][1..] == b.members[i + 1..];
      assert buf + (MemberBytes(m, carry) + rest) == (buf + MemberBytes(m, carry)) + rest;
      buf := buf + MemberBytes(m, carry);
    }
    assert buf + MembersBytes(b.members[|b.members|..], carry) == buf;
    r := Good(buf);
  }

  method DecodeBundle(buf: bytes) returns (r: Result<Bundle>)
    ensures r == Decode(buf)
  {
    hide First, GetBE, FromHeader;
    if |buf| < HEADER {
      return Bad(TooShort);
    }
    if GetBE(buf[0..4]) != MAGIC {
      return Bad(BadMagic);
    }
    if buf[6] != VER_BUNDLE {
      return Bad(BadVer);
    }
    var count, payLen, carry := GetBE(buf[60..62]), GetBE(buf[62..66]), Carries(buf[7]);
    if |buf| - HEADER < payLen {
      return Bad(Truncated);
    }
    var ms: seq<Member> := [];
    var off: nat, end: nat, i: nat := HEADER, HEADER + payLen, 0;
    ghost var all := Members(buf, HEADER, end, count, carry);
    PrependNone(all);
    while i < count
      invariant i <= count
      invariant Prepend(ms, Members(buf, off, end, count - i, carry)) == all
    {
      var next := First(buf, off, end, carry);
      if next.Bad? {
        return Bad(next.error);
      }
      PrependNext(ms, next.value.0, Members(buf, next.value.1, end, count - i - 1, carry));
      ms := ms + [next.value.0];
      off, i := next.value.1, i + 1;
    }
    assert ms + [] == ms;
    r := if off != end then Bad(CountMismatch) else Good(FromHeader(buf, ms));
  }

  function Prepend(ms: seq<Member>, r: Result<(seq<Member>, nat)>): Result<(seq<Member>, nat)> {
    match r
    case Bad(e) => Bad(e)
    case Good((rest, o)) => Good((ms + rest, o))
  }

  lemma {:induction false} PrependNone(r: Result<(seq<Member>, nat)>)
    ensures Prepend([], r) == r
  {
    if r.Good? {
      assert [] + r.value.0 == r.value.0;
    }
  }

  lemma {:induction false} PrependNext(ms: seq<Member>, m: Member, r: Result<(seq<Member>, nat)>)
    ensures Prepend(ms, Prepend([m], r)) == Prepend(ms + [m], r)
  {
    if r.Good? {
      assert ms + ([m] + r.value.0) == ms + [m] + r.value.0;
    }
  }

  method DecoalesceBundle(b: Bundle, sha: bytes -> Hash32) returns (fs: seq<TxFrame>)
    ensures fs == Decoalesce(b, sha)
  {
    fs := [];
    for i := 0 to |b.members|
      invariant fs == Decoalesce(b, sha)[..i]
    {
      fs := fs + [FrameOf(b, b.members[i], sha)];
    }
  }

  // ---- the coalescer --------------------------------------------------------------------

  datatype Bucket = Bucket(key: Flow, mems: seq<Member>)

  /** `buckets` holds the flows of `fs` in first-seen order with their members, and `idx` finds
      each flow's bucket. */
  predicate Bucketed(c: Config, sender: Id16, fs: seq<TxFrame>, buckets: seq<Bucket>, idx: map<Flow, nat>) {
    var ks := Flows(c, sender, fs);
    && |buckets| == |ks|
    && (forall i :: 0 <= i < |ks| ==> buckets[i] == Bucket(ks[i], FlowMembers(c, sender, fs, ks[i])))
    && (forall i :: 0 <= i < |ks| ==> ks[i] in idx && idx[ks[i]] == i)
    && (forall k :: k in idx ==> idx[k] < |ks| && ks[idx[k]] == k)
  }

  /** Putting one more frame in its bucket. */
  lemma {:induction false} BucketNext(c: Config, sender: Id16, fs: seq<TxFrame>, f: TxFrame, buckets: seq<Bucket>,
                                      idx: map<Flow, nat>)
    requires Bucketed(c, sender, fs, buckets, idx)
    ensures var k := FlowOf(c, sender, f);
      if k in idx then
        idx[k] < |buckets| &&
        Bucketed(c, sender, fs + [f],
                 buckets[idx[k] := buckets[idx[k]].(mems := buckets[idx[k]].mems + [MemberOf(f)])], idx)
      else Bucketed(c, sender, fs + [f], buckets + [Bucket(k, [MemberOf(f)])], idx[k := |buckets|])
  {
    hide Flows, FlowMembers, FlowOf, MemberOf;
    var k, ks := FlowOf(c, sender, f), Flows(c, sender, fs);
    FlowsNext(c, sender, fs, f);
    FlowsDistinct(c, sender, fs);
    forall j: Flow
      ensures FlowMembers(c, sender, fs + [f], j)
           == if k == j then FlowMembers(c, sender, fs, j) + [MemberOf(f)] else FlowMembers(c, sender, fs, j)
    {
      FlowMembersNext(c, sender, fs, f, j);
    }
    if k in idx {
      AddToBucket(c, sender, fs, f, buckets, idx);
    } else {
      NoMembers(c, sender, fs, k);
      assert k !in ks;
    }
  }

  lemma {:induction false} AddToBucket(c: Config, sender: Id16, fs: seq<TxFrame>, f: TxFrame, buckets: seq<Bucket>,
                                       idx: map<Flow, nat>)
    requires Bucketed(c, sender, fs, buckets, idx) && FlowOf(c, sender, f) in idx
    requires Flows(c, sender, fs + [f]) == Flows(c, sender, fs)
    requires forall j: Flow ::
      FlowMembers(c, sender, fs + [f], j)
      == if FlowOf(c, sender, f) == j then FlowMembers(c, sender, fs, j) + [MemberOf(f)]
         else FlowMembers(c, sender, fs, j)
    ensures var i := idx[FlowOf(c, sender, f)];
      i < |buckets| &&
      Bucketed(c, sender, fs + [f], buckets[i := buckets[i].(mems := buckets[i].mems + [MemberOf(f)])], idx)
  {
    hide Flows, FlowMembers, FlowOf, MemberOf;
    var k, ks := FlowOf(c, sender, f), Flows(c, sender, fs);
    var i := idx[k];
    forall j | 0 <= j < |ks| && j != i ensures ks[j] != k {
    }
  }

  lemma {:induction false} FlowsNext(c: Config, sender: Id16, fs: seq<TxFrame>, f: TxFrame)
    ensures var k, ks := FlowOf(c, sender, f), Flows(c, sender, fs);
      Flows(c, sender, fs + [f]) == if k in ks then ks else ks + [k]
  {
    assert (fs + [f])[..|fs|] == fs;
  }

  lemma {:induction false} FlowMembersNext(c: Config, sender: Id16, fs: seq<TxFrame>, f: TxFrame, j: Flow)
    ensures FlowMembers(c, sender, fs + [f], j)
         == FlowMembers(c, sender, fs, j) + if FlowOf(c, sender, f) == j then [MemberOf(f)] else []
  {
    assert (fs + [f])[..|fs|] == fs;
  }

  class Coalescer {
    const c: Config
    var seqs: map<Flow, u64>

    constructor (bits: nat, maxBytes: int, maxCount: int, carry: bool, hash: Flow -> u64)
      ensures ValidConfig(c) && seqs == map[] && c == Config(bits, Limits(maxBytes, Clamp(maxCount), carry), hash)
    {
      c := Config(bits, Limits(maxBytes, Clamp(maxCount), carry), hash);
      seqs := map[];
    }

    method Buckets(sender: Id16, frames: seq<TxFrame>) returns (buckets: seq<Bucket>)
      ensures |buckets| == |Flows(c, sender, frames)|
      ensures forall i :: 0 <= i < |buckets| ==>
        var k := Flows(c, sender, frames)[i]; buckets[i] == Bucket(k, FlowMembers(c, sender, frames, k))
    {
      hide Flows, FlowMembers;
      buckets := [];
      var idx: map<Flow, nat> := map[];
      NoBuckets(c, sender, frames[..0]);
      for i := 0 to |frames|
        invariant Bucketed(c, sender, frames[..i], buckets, idx)
      {
        var f := frames[i];
        var k := FlowOf(c, sender, f);
        BucketNext(c, sender, frames[..i], f, buckets, idx);
        assert frames[..i + 1] == frames[..i] + [f];
        if k !in idx {
          idx := idx[k := |buckets|];
          buckets := buckets + [Bucket(k, [MemberOf(f)])];
        } else {
          buckets := buckets[idx[k] := buckets[idx[k]].(mems := buckets[idx[k]].mems + [MemberOf(f)])];
        }
      }
      assert frames[..|frames|] == frames;
    }

    /** Fills one bundle from the front of `mems`. */
    method Fill(mems: seq<Member>) returns (n: nat)
      ensures n == Take(c.limits, mems, 0, HEADER)
    {
      n := 0;
      var size: nat := HEADER;
      while n < |mems| && n < c.limits.maxCount
        invariant n <= |mems| && Take(c.limits, mems, n, size) == Take(c.limits, mems, 0, HEADER)
      {
        var add := Cost(mems[n], c.limits.carry);
        if n > 0 && size + add > c.limits.maxBytes {
          return;
        }
        n, size := n + 1, size + add;
      }
    }

    /** Packs and numbers the members of one flow. */
    method EmitFlow(k: Flow, mems: seq<Member>) returns (out: seq<Emitted>)
      requires ValidConfig(c)
      modifies this
      ensures (out, seqs) == Emit(c, old(seqs), k, Pack(c.limits, mems))
    {
      hide Take, BundleOf;
      out := [];
      var rest := mems;
      ghost var all := Emit(c, seqs, k, Pack(c.limits, mems));
      while rest != []
        invariant Emit(c, seqs, k, Pack(c.limits, rest)).1 == all.1
        invariant out + Emit(c, seqs, k, Pack(c.limits, rest)).0 == all.0
        decreases |rest|
      {
        PackNext(c.limits, rest);
        var n := Fill(rest);
        var num := (SeqOf(seqs, k) + 1) % TWO64;
        var e := Emitted(k, BundleOf(c, k, rest[..n], num));
        ghost var tail := Emit(c, seqs[k := num], k, Pack(c.limits, rest[n..])).0;
        assert out + ([e] + tail) == out + [e] + tail;
        seqs := seqs[k := num];
        out := out + [e];
        rest := rest[n..];
      }
      assert out + Emit(c, seqs, k, Pack(c.limits, rest)).0 == out;
    }

    method CoalesceFrames(sender: Id16, frames: seq<TxFrame>) returns (out: seq<Emitted>)
      requires ValidConfig(c)
      modifies this
      ensures (out, seqs) == Coalesce(c, old(seqs), sender, frames)
    {
      hide Flows, FlowMembers, Pack, Emit;
      var buckets := Buckets(sender, frames);
      ghost var ks := Flows(c, sender, frames);
      ghost var all := Coalesce(c, seqs, sender, frames);
      out := [];
      assert ks[0..] == ks;
      for i := 0 to |buckets|
        invariant EmitFlows(c, seqs, sender, frames, ks[i..]).1 == all.1
        invariant out + EmitFlows(c, seqs, sender, frames, ks[i..]).0 == all.0
      {
        assert ks[i..][1..] == ks[i + 1..];
        var part := EmitFlow(buckets[i].key, buckets[i].mems);
        ghost var tail := EmitFlows(c, seqs, sender, frames, ks[i + 1..]).0;
        assert out + (part + tail) == out + part + tail;
        out := out + part;
      }
      assert out + EmitFlows(c, seqs, sender, frames, ks[|buckets|..]).0 == out;
    }

    method RebucketBundle(sender: Id16, b: Bundle, sha: bytes -> Hash32) returns (out: seq<Emitted>)
      requires ValidConfig(c)
      modifies this
      ensures (out, seqs) == Rebucket(c, old(seqs), sender, b, sha)
    {
      var fs := DecoalesceBundle(b, sha);
      out := CoalesceFrames(sender, fs);
    }
  }

  lemma {:induction false} NoBuckets(c: Config, sender: Id16, fs: seq<TxFrame>)
    requires fs == []
    ensures Bucketed(c, sender, fs, [], map[])
  {
  }

  lemma {:induction false} PackNext(l: Limits, ms: seq<Member>)
    requires l.maxCount >= 1 && ms != []
    ensures var n := Take(l, ms, 0, HEADER); n >= 1 && Pack(l, ms) == [ms[..n]] + Pack(l, ms[n..])
  {
  }
}
