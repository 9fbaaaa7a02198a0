/** Coalescing bundles on the wire: a 66-byte header and length-prefixed members. */
module BundleCodec {
  import opened Bytes

  const VER_BUNDLE: byte := 8
  const HEADER := 66
  const MAX16 := 0xFFFF

  datatype Member = Member(txid: Hash32, tx: bytes)
  datatype Bundle = Bundle(
    flags: byte, subtreeID: Hash32, hashKey: u64, seqNum: u64, groupIdx: u16, shardBits: byte, members: seq<Member>)

  datatype BundleError = TooShort | BadMagic | BadVer | Truncated | TooMany | MemberBig | CountMismatch
  datatype Result<+T> = Good(value: T) | Bad(error: BundleError)

  /** Whether members carry their TxID on the wire. */
  predicate Carries(flags: byte) {
    HasBit(flags, 1)
  }

  function Overhead(carry: bool): nat {
    if carry then 34 else 2
  }

  function Cost(m: Member, carry: bool): nat {
    Overhead(carry) + |m.tx|
  }

  /** Encoded size of the member section. */
  function SectionLen(ms: seq<Member>, carry: bool): nat {
    if ms == [] then 0 else Cost(ms[0], carry) + SectionLen(ms[1..], carry)
  }

  function MemberBytes(m: Member, carry: bool): (s: bytes)
    ensures |s| == Cost(m, carry)
  {
    PutBE(|m.tx|, 2) + (if carry then m.txid else []) + m.tx
  }

  function MembersBytes(ms: seq<Member>, carry: bool): (s: bytes)
    ensures |s| == SectionLen(ms, carry)
  {
    if ms == [] then [] else MemberBytes(ms[0], carry) + MembersBytes(ms[1..], carry)
  }

  function Header(b: Bundle): (h: bytes)
    ensures |h| == HEADER
  {
    PutBE(MAGIC, 4) + PutBE(PROTO_VER, 2) + [VER_BUNDLE, b.flags] + b.subtreeID
      + PutBE(b.hashKey, 8) + PutBE(b.seqNum, 8) + PutBE(b.groupIdx, 2) + [b.shardBits, 0]
      + PutBE(|b.members|, 2) + PutBE(SectionLen(b.members, Carries(b.flags)), 4)
  }

  predicate Encodable(b: Bundle) {
    |b.members| <= MAX16 && forall m :: m in b.members ==> |m.tx| <= MAX16
  }

  function Encode(b: Bundle): Result<bytes> {
    if |b.members| > MAX16 then Bad(TooMany)
    else if !Encodable(b) then Bad(MemberBig)
    else Good(Header(b) + MembersBytes(b.members, Carries(b.flags)))
  }

  /** The member at `off`, not past `end`, and where it ends. */
  function First(buf: bytes, off: nat, end: nat, carry: bool): (r: Result<(Member, nat)>)
    requires end <= |buf|
  {
    if off + 2 > end then Bad(Truncated)
    else
      var txLen := GetBE(buf[off..off + 2]);
      var at := off + Overhead(carry);
      if at > end || at + txLen > end then Bad(Truncated)
      else Good((Member(if carry then buf[off + 2..at] else Zeros(32), buf[at..at + txLen]), at + txLen))
  }

  /** `count` members from `off`, none past `end`. */
  function Members(buf: bytes, off: nat, end: nat, count: nat, carry: bool): Result<(seq<Member>, nat)>
    requires end <= |buf|
    decreases count
  {
    if count == 0 then Good(([], off))
    else
      match First(buf, off, end, carry)
      case Bad(e) => Bad(e)
      case Good((m, next)) =>
        match Members(buf, next, end, count - 1, carry)
        case Bad(e) => Bad(e)
        case Good((ms, o)) => Good(([m] + ms, o))
  }

  function Decode(buf: bytes): Result<Bundle> {
    if |buf| < HEADER then Bad(TooShort)
    else if GetBE(buf[0..4]) != MAGIC then Bad(BadMagic)
    else if buf[6] != VER_BUNDLE then Bad(BadVer)
    else
      var payLen := GetBE(buf[62..66]);
      if |buf| - HEADER < payLen then Bad(Truncated)
      else
        match Members(buf, HEADER, HEADER + payLen, GetBE(buf[60..62]), Carries(buf[7]))
        case Bad(e) => Bad(e)
        case Good((ms, o)) => if o != HEADER + payLen then Bad(CountMismatch) else Good(FromHeader(buf, ms))
  }

  function FromHeader(buf: bytes, ms: seq<Member>): Bundle
    requires |buf| >= HEADER
  {
    Widths();
    GetBEBound(buf[40..48]);
    GetBEBound(buf[48..56]);
    GetBEBound(buf[56..58]);
    Bundle(buf[7], buf[8..40], GetBE(buf[40..48]), GetBE(buf[48..56]), GetBE(buf[56..58]), buf[58], ms)
  }

  // ---- encode, then decode --------------------------------------------------------------

  /** What the wire keeps of the members: their TxIDs only when carried. */
  function OnWire(ms: seq<Member>, carry: bool): (r: seq<Member>)
    ensures |r| == |ms|
  {
    if carry then ms else seq(|ms|, i requires 0 <= i < |ms| => Member(Zeros(32), ms[i].tx))
  }

  lemma {:induction false} FirstBack(m: Member, carry: bool, buf: bytes, off: nat, end: nat)
    requires |m.tx| <= MAX16 && end <= |buf|
    requires off + Cost(m, carry) <= |buf| && buf[off..off + Cost(m, carry)] == MemberBytes(m, carry)
    ensures First(buf, off, end, carry)
         == if off + Cost(m, carry) <= end
            then Good((if carry then m else Member(Zeros(32), m.tx), off + Cost(m, carry))) else Bad(Truncated)
  {
    Widths();
    var s := MemberBytes(m, carry);
    var next := off + Cost(m, carry);
    SliceOfSlice(buf, off, next, 0, 2);
    assert s[0..2] == PutBE(|m.tx|, 2);
    if carry {
      SliceOfSlice(buf, off, next, 2, 34);
      assert s[2..34] == m.txid;
    }
    SliceOfSlice(buf, off, next, Overhead(carry), Cost(m, carry));
    assert s[Overhead(carry)..Cost(m, carry)] == m.tx;
    GetPut(|m.tx|, 2);
  }

  /** Reading encoded members back gives them, or runs out when the section is declared short. */
  lemma {:induction false} MembersBack(ms: seq<Member>, carry: bool, buf: bytes, off: nat, end: nat)
    requires end <= |buf| && off + SectionLen(ms, carry) <= |buf|
    requires buf[off..off + SectionLen(ms, carry)] == MembersBytes(ms, carry)
    requires forall m :: m in ms ==> |m.tx| <= MAX16
    ensures Members(buf, off, end, |ms|, carry)
         == if ms == [] || off + SectionLen(ms, carry) <= end
            then Good((OnWire(ms, carry), off + SectionLen(ms, carry))) else Bad(Truncated)
    decreases |ms|
  {
    hide MemberBytes, OnWire, First, Cost, MembersBytes;
    if ms == [] {
      NothingOnWire(ms, carry);
    } else {
      var n, total := Cost(ms[0], carry), SectionLen(ms, carry);
      SliceOfSlice(buf, off, off + total, 0, n);
      SliceOfSlice(buf, off, off + total, n, total);
      FirstBytes(ms, carry);
      assert ms[0] in ms;
      FirstBack(ms[0], carry, buf, off, end);
      assert forall m :: m in ms[1..] ==> m in ms;
      MembersBack(ms[1..], carry, buf, off + n, end);
      FirstOnWire(ms, carry);
    }
  }

  lemma {:induction false} FirstBytes(ms: seq<Member>, carry: bool)
    requires ms != []
    ensures var n, s := Cost(ms[0], carry), MembersBytes(ms, carry);
      |s| >= n && s[0..n] == MemberBytes(ms[0], carry) && s[n..|s|] == MembersBytes(ms[1..], carry)
  {
  }

  lemma {:induction false} NothingOnWire(ms: seq<Member>, carry: bool)
    requires ms == []
    ensures OnWire(ms, carry) == []
  {
  }

  lemma {:induction false} FirstOnWire(ms: seq<Member>, carry: bool)
    requires ms != []
    ensures OnWire(ms, carry) == [if carry then ms[0] else Member(Zeros(32), ms[0].tx)] + OnWire(ms[1..], carry)
  {
  }

  lemma {:induction false} HeaderFields(b: Bundle, buf: bytes)
    requires |b.members| <= MAX16 && |buf| >= HEADER && buf[..HEADER] == Header(b)
    ensures GetBE(buf[0..4]) == MAGIC && buf[6] == VER_BUNDLE && buf[7] == b.flags
    ensures FromHeader(buf, b.members) == b
    ensures GetBE(buf[60..62]) == |b.members|
    ensures GetBE(buf[62..66]) == SectionLen(b.members, Carries(b.flags)) % TWO32
  {
    hide PutBE, GetBE;
    Widths();
    var h := Header(b);
    assert buf[0..4] == h[0..4] == PutBE(MAGIC, 4);
    assert buf[6] == h[6] && buf[7] == h[7] && buf[58] == h[58];
    assert buf[8..40] == h[8..40] == b.subtreeID;
    assert buf[40..48] == h[40..48] == PutBE(b.hashKey, 8);
    assert buf[48..56] == h[48..56] == PutBE(b.seqNum, 8);
    assert buf[56..58] == h[56..58] == PutBE(b.groupIdx, 2);
    assert buf[60..62] == h[60..62] == PutBE(|b.members|, 2);
    assert buf[62..66] == h[62..66] == PutBE(SectionLen(b.members, Carries(b.flags)), 4);
    GetPut(MAGIC, 4);
    GetPut(b.hashKey, 8);
    GetPut(b.seqNum, 8);
    GetPut(b.groupIdx, 2);
    GetPut(|b.members|, 2);
    PutBEWraps(SectionLen(b.members, Carries(b.flags)), 4);
  }

  /** Decoding an encoded bundle, with any bytes after it, returns the bundle as far as the
      wire carries it exactly when its member section is shorter than 2^32 bytes; otherwise
      decoding fails. */
  lemma {:induction false} RoundTrip(b: Bundle, suf: bytes)
    requires Encodable(b)
    ensures Encode(b).Good?
    ensures var r := Decode(Encode(b).value + suf);
      if SectionLen(b.members, Carries(b.flags)) < TWO32
      then r == Good(b.(members := OnWire(b.members, Carries(b.flags)))) else r.Bad?
  {
    hide Header, MembersBytes, OnWire, Members, GetBE, SectionLen;
    var carry := Carries(b.flags);
    var n := SectionLen(b.members, carry);
    var buf := Encode(b).value + suf;
    assert buf[..HEADER] == Header(b);
    HeaderFields(b, buf);
    assert buf[HEADER..HEADER + n] == MembersBytes(b.members, carry);
    MembersBack(b.members, carry, buf, HEADER, HEADER + n % TWO32);
    if n >= TWO32 {
      NotEmpty(b.members, carry);
    }
  }

  lemma {:induction false} NotEmpty(ms: seq<Member>, carry: bool)
    requires SectionLen(ms, carry) > 0
    ensures ms != []
  {
  }

  /** Without carried TxIDs the section of an encodable bundle always fits its length field. */
  lemma {:induction false} SectionFits(ms: seq<Member>)
    requires forall m :: m in ms ==> |m.tx| <= MAX16
    ensures SectionLen(ms, false) <= 65537 * |ms|
    ensures |ms| <= MAX16 ==> SectionLen(ms, false) < TWO32
    decreases |ms|
  {
    if ms != [] {
      assert ms[0] in ms;
      assert forall m :: m in ms[1..] ==> m in ms;
      SectionFits(ms[1..]);
    }
  }

  lemma {:induction false} SameSectionLen(n: nat, m: Member, carry: bool)
    ensures SectionLen(seq(n, _ => m), carry) == n * Cost(m, carry)
  {
    if n > 0 {
      SameSectionLen(n - 1, m, carry);
      assert seq(n, _ => m)[1..] == seq(n - 1, _ => m);
    }
  }

  /** With carried TxIDs it may not: as many members as the counts allow, each as long as they
      allow, are encoded to a datagram that does not decode. */
  lemma {:induction false} LargestBundleLost(b: Bundle, suf: bytes)
    requires Carries(b.flags) && b.members == seq(MAX16, _ => Member(Zeros(32), Zeros(MAX16)))
    ensures Encodable(b) && SectionLen(b.members, true) >= TWO32
    ensures Encode(b).Good? && Decode(Encode(b).value + suf).Bad?
  {
    hide Encode, Decode, SectionLen;
    SameSectionLen(MAX16, Member(Zeros(32), Zeros(MAX16)), true);
    RoundTrip(b, suf);
  }

  // ---- decode, then encode --------------------------------------------------------------

  lemma {:induction false} MembersAgain(buf: bytes, off: nat, end: nat, count: nat, carry: bool)
    requires end <= |buf| && off <= end && Members(buf, off, end, count, carry).Good?
    ensures var (ms, o) := Members(buf, off, end, count, carry).value;
      && |ms| == count && off <= o <= end
      && (forall m :: m in ms ==> |m.tx| <= MAX16)
      && MembersBytes(ms, carry) == buf[off..o]
    decreases count
  {
    hide MemberBytes, First, Cost;
    if count > 0 {
      FirstAgain(buf, off, end, carry);
      var (m, next) := First(buf, off, end, carry).value;
      MembersAgain(buf, next, end, count - 1, carry);
      var (ms, o) := Members(buf, off, end, count, carry).value;
      assert ms[0] == m && ms[1..] == Members(buf, next, end, count - 1, carry).value.0;
      assert buf[off..next] + buf[next..o] == buf[off..o];
    }
  }

  lemma {:induction false} FirstAgain(buf: bytes, off: nat, end: nat, carry: bool)
    requires end <= |buf| && First(buf, off, end, carry).Good?
    ensures var (m, next) := First(buf, off, end, carry).value;
      off <= next <= end && |m.tx| <= MAX16 && MemberBytes(m, carry) == buf[off..next]
  {
    hide PutBE, GetBE;
    Widths();
    GetBEBound(buf[off..off + 2]);
    PutGet(buf[off..off + 2]);
    var (m, next) := First(buf, off, end, carry).value;
    var at := off + Overhead(carry);
    if carry {
      assert buf[off..off + 2] + buf[off + 2..at] + buf[at..next] == buf[off..next];
    } else {
      assert buf[off..off + 2] + [] + buf[at..next] == buf[off..next];
    }
  }

  lemma {:induction false} HeaderAgain(buf: bytes, ms: seq<Member>)
    requires |buf| >= HEADER && GetBE(buf[0..4]) == MAGIC && buf[6] == VER_BUNDLE
    requires |ms| == GetBE(buf[60..62]) && SectionLen(ms, Carries(buf[7])) == GetBE(buf[62..66])
    ensures forall i :: 0 <= i < HEADER && i !in {4, 5, 59} ==> Header(FromHeader(buf, ms))[i] == buf[i]
  {
    hide PutBE, GetBE, SectionLen;
    PutGet(buf[0..4]);
    PutGet(buf[40..48]);
    PutGet(buf[48..56]);
    PutGet(buf[56..58]);
    PutGet(buf[60..62]);
    PutGet(buf[62..66]);
    var h := Header(FromHeader(buf, ms));
    assert h == buf[0..4] + PutBE(PROTO_VER, 2) + [VER_BUNDLE, buf[7]] + buf[8..40]
      + buf[40..48] + buf[48..56] + buf[56..58] + [buf[58], 0] + buf[60..62] + buf[62..66];
  }

  /** Every accepted datagram re-encodes to its own header and members, apart from the
      protocol-version bytes 4 and 5 and the reserved byte 59. */
  lemma {:induction false} Reencode(buf: bytes)
    requires Decode(buf).Good?
    ensures Encode(Decode(buf).value).Good?
    ensures var s := Encode(Decode(buf).value).value;
      && |s| == HEADER + GetBE(buf[62..66]) <= |buf|
      && (forall i :: 0 <= i < |s| && i !in {4, 5, 59} ==> s[i] == buf[i])
  {
    hide Header, MembersBytes, Members, GetBE, SectionLen;
    var payLen, count, carry := GetBE(buf[62..66]), GetBE(buf[60..62]), Carries(buf[7]);
    MembersAgain(buf, HEADER, HEADER + payLen, count, carry);
    Widths();
    GetBEBound(buf[60..62]);
    var b := Decode(buf).value;
    HeaderAgain(buf, b.members);
    var s := Header(b) + MembersBytes(b.members, carry);
    forall i | 0 <= i < |s| && i !in {4, 5, 59} ensures s[i] == buf[i] {
      if i >= HEADER {
        assert s[i] == buf[HEADER..HEADER + payLen][i - HEADER];
      }
    }
  }
}
