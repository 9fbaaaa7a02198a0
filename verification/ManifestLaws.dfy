/** The manifest encoder and decoder agree: each accepts what the other produces, and decoding
    an encoded manifest gives it back. */
module ManifestLaws {
  import opened Bytes
  import opened Domains
  import opened ManifestCodec

  // ---- sections read back ---------------------------------------------------------------

  lemma {:induction false} GroupsBack(gs: seq<u16>, suf: bytes)
    ensures ReadGroups(GroupsBytes(gs) + suf, |gs|) == gs
    decreases |gs|
  {
    hide GetBE, PutBE;
    if gs != [] {
      var s := GroupsBytes(gs) + suf;
      Widths();
      GetPut(gs[0], 2);
      assert s[..2] == PutBE(gs[0], 2);
      assert s[2..] == GroupsBytes(gs[1..]) + suf;
      GroupsBack(gs[1..], suf);
    }
  }

  lemma {:induction false} IdsBack(ids: seq<Id16>, suf: bytes)
    ensures ReadIds(IdsBytes(ids) + suf, |ids|) == ids
    decreases |ids|
  {
    if ids != [] {
      var s := IdsBytes(ids) + suf;
      assert s[..16] == ids[0];
      assert s[16..] == IdsBytes(ids[1..]) + suf;
      IdsBack(ids[1..], suf);
    }
  }

  lemma {:induction false} SuccessorBack(x: Successor, suf: bytes)
    ensures ReadSuccessor(SuccessorBytes(x) + suf) == x
  {
    hide GetBE, PutBE;
    var s := SuccessorBytes(x) + suf;
    Widths();
    GetPut(x.transitionEpoch, 4);
    assert s[..16] == x.generation && s[16] == x.shardBits && s[17] == x.flags;
    assert s[20..24] == PutBE(x.transitionEpoch, 4);
  }

  predicate Flagged(ds: seq<Domain>) {
    forall i :: 0 <= i < |ds| ==> (ds[i].successor.Some? <==> HasBit(ds[i].flags, FLAG_SUCCESSOR))
  }

  lemma {:induction false} DomainBack(d: Domain, suf: bytes)
    requires d.successor.Some? <==> HasBit(d.flags, FLAG_SUCCESSOR)
    ensures var s := DomainBytes(d) + suf;
      s[3] == d.flags && |DomainBytes(d)| == BlockLen(d.flags) && ReadDomain(s) == d
  {
    hide SuccessorBytes, ReadSuccessor;
    var s := DomainBytes(d) + suf;
    assert s[8..24] == d.generation;
    assert s[24..] == OptSuccessorBytes(d.successor) + suf;
    if d.successor.Some? {
      SuccessorBack(d.successor.value, suf);
    }
  }

  lemma {:induction false} DomainsBack(ds: seq<Domain>, suf: bytes)
    requires Flagged(ds)
    ensures |DomainsBytes(ds)| == DomainsSize(ds)
    ensures ScanDomains(DomainsBytes(ds) + suf, |ds|) == Good(DomainsSize(ds))
    ensures ReadDomains(DomainsBytes(ds) + suf, |ds|) == ds
    decreases |ds|
  {
    hide DomainBytes, ScanDomains, ReadDomains, HasBit;
    if ds == [] {
      NothingRead(DomainsBytes(ds) + suf);
    } else {
      DomainsBack(ds[1..], suf);
      FirstDomain(ds[0], DomainsBytes(ds[1..]) + suf, |ds| - 1);
      assert DomainsBytes(ds) + suf == DomainBytes(ds[0]) + (DomainsBytes(ds[1..]) + suf);
    }
  }

  lemma {:induction false} NothingRead(s: bytes)
    ensures ScanDomains(s, 0) == Good(0) && ReadDomains(s, 0) == []
  {
  }

  lemma {:induction false} FirstDomain(d: Domain, rest: bytes, count: nat)
    requires d.successor.Some? <==> HasBit(d.flags, FLAG_SUCCESSOR)
    requires ScanDomains(rest, count).Good?
    ensures |DomainBytes(d)| == BlockLen(d.flags)
    ensures ScanDomains(DomainBytes(d) + rest, count + 1) == Good(BlockLen(d.flags) + ScanDomains(rest, count).value)
    ensures ReadDomains(DomainBytes(d) + rest, count + 1) == [d] + ReadDomains(rest, count)
  {
    hide DomainBytes, ReadDomain, HasBit;
    var s := DomainBytes(d) + rest;
    DomainBack(d, rest);
    assert s[BlockLen(s[3])..] == rest;
  }

  // ---- the header reads back ------------------------------------------------------------

  /** `buf` starts with the header of `m`. */
  predicate Headed(m: Manifest, crc: u32, buf: bytes) {
    |buf| >= HEADER && buf[..HEADER] == Head(m, crc)
  }

  lemma {:induction false} HeadFront(m: Manifest, crc: u32, buf: bytes)
    requires Headed(m, crc, buf)
    ensures GetBE(buf[0..4]) == MAGIC && buf[6] == MSG_MANIFEST && buf[7] == m.flags && buf[8..24] == m.src
    ensures GetBE(buf[24..28]) == m.instanceID && GetBE(buf[28..32]) == m.epoch
    ensures GetBE(buf[32..34]) == m.ttl && GetBE(buf[34..36]) == m.announceInterval
    ensures buf[36] == m.shardBits && buf[37] == m.roleHint
  {
    hide GetBE, PutBE;
    Widths();
    var h := Head(m, crc);
    assert forall i :: 0 <= i < HEADER ==> buf[i] == h[i];
    assert buf[0..4] == h[0..4] == PutBE(MAGIC, 4);
    assert buf[8..24] == h[8..24] == m.src;
    assert buf[24..28] == h[24..28] == PutBE(m.instanceID, 4);
    assert buf[28..32] == h[28..32] == PutBE(m.epoch, 4);
    assert buf[32..34] == h[32..34] == PutBE(m.ttl, 2);
    assert buf[34..36] == h[34..36] == PutBE(m.announceInterval, 2);
    GetPut(MAGIC, 4);
    GetPut(m.instanceID, 4);
    GetPut(m.epoch, 4);
    GetPut(m.ttl, 2);
    GetPut(m.announceInterval, 2);
  }

  lemma {:induction false} HeadBack(m: Manifest, crc: u32, buf: bytes)
    requires Headed(m, crc, buf) && |m.groups| <= MAX16 && |m.bitmap| <= MAX16 && |m.sources| <= MAX16
    ensures GetBE(buf[38..40]) == (if m.bitmap == [] then |m.groups| else 0)
    ensures GetBE(buf[40..42]) == |m.bitmap| && GetBE(buf[42..44]) == |m.sources|
    ensures GetBE(buf[44..48]) == crc && buf[48..64] == m.generation
  {
    hide GetBE, PutBE;
    Widths();
    var h := Head(m, crc);
    var g := if m.bitmap == [] then |m.groups| else 0;
    assert buf[38..40] == h[38..40] == PutBE(g, 2);
    assert buf[40..42] == h[40..42] == PutBE(|m.bitmap|, 2);
    assert buf[42..44] == h[42..44] == PutBE(|m.sources|, 2);
    assert buf[44..48] == h[44..48] == PutBE(crc, 4);
    assert buf[48..64] == h[48..64] == m.generation;
    GetPut(g, 2);
    GetPut(|m.bitmap|, 2);
    GetPut(|m.sources|, 2);
    GetPut(crc, 4);
  }

  function ShapeFor(m: Manifest): Shape
    requires |m.groups| <= MAX16 && |m.bitmap| <= MAX16 && |m.sources| <= MAX16
  {
    Shape(m.flags, m.shardBits, if m.bitmap == [] then |m.groups| else 0, |m.bitmap|, |m.sources|)
  }

  lemma {:induction false} ShapeBack(m: Manifest, crc: u32, buf: bytes)
    requires Headed(m, crc, buf) && |m.groups| <= MAX16 && |m.bitmap| <= MAX16 && |m.sources| <= MAX16
    ensures ShapeOf(buf) == ShapeFor(m)
  {
    hide GetBE, Head;
    HeadFront(m, crc, buf);
    HeadBack(m, crc, buf);
  }

  // ---- the payload reads back -----------------------------------------------------------

  /** The bytes after the header: four sections and whatever follows the datagram. */
  lemma {:induction false} Sections(m: Manifest, buf: bytes, suf: bytes)
    requires EncodeError(m) == None && |buf| >= HEADER && buf[HEADER..] == Body(m) + suf
    ensures var h := ShapeFor(m);
      var g, u := GroupsPart(m), OptSuccessorBytes(m.successor);
      var a := HEADER + GroupsLen(h);
      var b := a + 16 * h.sources;
      && GroupsLen(h) == |g| && SuccessorLen(h) == |u| && FixedLen(h) == b + |u| <= |buf|
      && (exists t :: buf[HEADER..] == g + t)
      && (exists t :: buf[a..] == IdsBytes(m.sources) + t)
      && (exists t :: buf[b..] == u + t)
      && buf[FixedLen(h)..] == DomainsPart(m.domains) + suf
  {
    hide EncodeError, HasBit, DomainsOk, IdsBytes, OptSuccessorBytes, DomainsPart, GroupsPart;
    Lengths(m);
    var h := ShapeFor(m);
    GroupsPartLen(m);
    SuccessorPartLen(m);
    hide GroupsLen, SuccessorLen;
    var g, i, u, d := GroupsPart(m), IdsBytes(m.sources), OptSuccessorBytes(m.successor), DomainsPart(m.domains);
    var a := HEADER + |g|;
    var b := a + |i|;
    assert buf[HEADER..] == g + (i + (u + (d + suf)));
    Drop(buf, HEADER, g, i + (u + (d + suf)));
    Drop(buf, a, i, u + (d + suf));
    Drop(buf, b, u, d + suf);
  }

  lemma {:induction false} GroupsPartLen(m: Manifest)
    requires EncodeError(m) == None
    ensures GroupsLen(ShapeFor(m)) == |GroupsPart(m)|
  {
  }

  lemma {:induction false} SuccessorPartLen(m: Manifest)
    requires EncodeError(m) == None
    ensures SuccessorLen(ShapeFor(m)) == |OptSuccessorBytes(m.successor)|
  {
  }

  lemma {:induction false} Drop(buf: bytes, at: nat, x: bytes, y: bytes)
    requires at <= |buf| && buf[at..] == x + y
    ensures at + |x| <= |buf| && buf[at + |x|..] == y
  {
    assert buf[at..][|x|..] == buf[at + |x|..];
  }

  /** The Domains section, found at `fixed`, scans and reads back. */
  lemma {:induction false} DomainsAt(m: Manifest, buf: bytes, fixed: nat, suf: bytes)
    requires EncodeError(m) == None && m.domains != []
    requires fixed <= |buf| && buf[fixed..] == DomainsPart(m.domains) + suf
    ensures fixed < |buf| && buf[fixed] == |m.domains| && 1 <= |m.domains| <= MAX_DESCRIPTORS
    ensures ScanDomains(buf[fixed + 1..], |m.domains|) == Good(DomainsSize(m.domains))
    ensures ReadDomains(buf[fixed + 1..], |m.domains|) == m.domains
    ensures |DomainsPart(m.domains)| == 1 + DomainsSize(m.domains)
  {
    hide EncodeError, ScanDomains, ReadDomains, DomainsBytes;
    DomainsFacts(m);
    assert buf[fixed..] == [|m.domains|] + (DomainsBytes(m.domains) + suf);
    Drop(buf, fixed, [|m.domains|], DomainsBytes(m.domains) + suf);
    assert buf[fixed] == buf[fixed..][0];
    DomainsBack(m.domains, suf);
  }

  lemma {:induction false} FixedPart(m: Manifest, buf: bytes, suf: bytes)
    requires EncodeError(m) == None && |buf| >= HEADER && buf[HEADER..] == Body(m) + suf
    ensures FixedLen(ShapeFor(m)) <= |buf| && buf[FixedLen(ShapeFor(m))..] == DomainsPart(m.domains) + suf
    ensures HEADER + |Body(m)| == FixedLen(ShapeFor(m)) + |DomainsPart(m.domains)|
  {
    hide EncodeError, Body, DomainsPart, GroupsPart, OptSuccessorBytes, ShapeFor;
    Sections(m, buf, suf);
    SizeParts(m);
    ShapeSources(m);
  }

  lemma {:induction false} ShapeSources(m: Manifest)
    requires EncodeError(m) == None
    ensures ShapeFor(m).sources == |m.sources| && ShapeFor(m).flags == m.flags
  {
  }

  lemma {:induction false} ExtentBack(m: Manifest, crc: u32, buf: bytes, suf: bytes)
    requires EncodeError(m) == None && Headed(m, crc, buf) && buf[HEADER..] == Body(m) + suf
    ensures Extent(buf) == Good(Size(m)) && Size(m) == HEADER + |Body(m)|
  {
    hide EncodeError, HasBit, GetBE, Head, Body, Size, ShapeOf, ShapeFor, FixedLen, DomainsPart, ScanDomains,
      DomainsSize;
    Lengths(m);
    ShapeBack(m, crc, buf);
    ShapeSources(m);
    FixedPart(m, buf, suf);
    SizeParts(m);
    hide Headed, GroupsPart;
    if m.domains != [] {
      DomainsAt(m, buf, FixedLen(ShapeFor(m)), suf);
    } else {
      NoDomains(m.domains);
    }
  }

  lemma {:induction false} NoDomains(ds: seq<Domain>)
    requires ds == []
    ensures DomainsPart(ds) == []
  {
  }

  lemma {:induction false} SizeParts(m: Manifest)
    requires EncodeError(m) == None
    ensures Size(m) == FixedLen(ShapeFor(m)) + if m.domains == [] then 0 else 1 + DomainsSize(m.domains)
    ensures |Body(m)| == |GroupsPart(m)| + 16 * |m.sources| + |OptSuccessorBytes(m.successor)|
      + |DomainsPart(m.domains)|
    ensures HasBit(m.flags, DOMAINS_VALID) <==> m.domains != []
  {
  }

  lemma {:induction false} DomainsFacts(m: Manifest)
    requires EncodeError(m) == None && m.domains != []
    ensures 1 <= |m.domains| <= MAX_DESCRIPTORS && Flagged(m.domains)
  {
    forall i | 0 <= i < |m.domains|
      ensures m.domains[i].successor.Some? <==> HasBit(m.domains[i].flags, FLAG_SUCCESSOR)
    {
      assert DomainOk(m.domains[i], TopOf(m));
    }
  }

  lemma {:induction false} FieldsBack(m: Manifest, crc: u32, buf: bytes, suf: bytes)
    requires EncodeError(m) == None && Headed(m, crc, buf) && buf[HEADER..] == Body(m) + suf
    ensures Extent(buf).Good? && Fields(buf) == m
  {
    hide EncodeError, HasBit, GetBE, Head, Body, ShapeOf, FixedLen, ScanDomains, ReadDomains, ReadIds, ReadGroups,
      ReadSuccessor, Extent, IdsBytes, SuccessorBytes, DomainsPart;
    Lengths(m);
    ExtentBack(m, crc, buf, suf);
    HeadFront(m, crc, buf);
    HeadBack(m, crc, buf);
    ShapeBack(m, crc, buf);
    PartsBack(m, buf, suf);
    hide Headed;
  }

  /** The sections after the header read back. */
  lemma {:induction false} PartsBack(m: Manifest, buf: bytes, suf: bytes)
    requires EncodeError(m) == None && |buf| >= HEADER && buf[HEADER..] == Body(m) + suf
    ensures |m.groups| <= MAX16 && |m.bitmap| <= MAX16 && |m.sources| <= MAX16
    ensures var h := ShapeFor(m);
      var a := HEADER + GroupsLen(h);
      var b := a + 16 * h.sources;
      var fixed := FixedLen(h);
      && HEADER + |m.bitmap| <= |buf| && buf[HEADER..HEADER + |m.bitmap|] == m.bitmap
      && (m.bitmap == [] ==> |buf[HEADER..]| >= 2 * |m.groups| && ReadGroups(buf[HEADER..], |m.groups|) == m.groups)
      && (m.bitmap != [] ==> m.groups == [])
      && a <= |buf| && |buf[a..]| >= 16 * |m.sources| && ReadIds(buf[a..], |m.sources|) == m.sources
      && (HasBit(m.flags, SUCCESSOR_VALID) <==> m.successor.Some?)
      && (m.successor.Some? ==>
            b <= |buf| && |buf[b..]| >= BLOCK && ReadSuccessor(buf[b..]) == m.successor.value)
      && (HasBit(m.flags, DOMAINS_VALID) <==> m.domains != [])
      && (m.domains != [] ==>
            && fixed < |buf| && buf[fixed] == |m.domains| && ScanDomains(buf[fixed + 1..], |m.domains|).Good?
            && ReadDomains(buf[fixed + 1..], |m.domains|) == m.domains)
  {
    hide EncodeError, HasBit, GetBE, Body, FixedLen, ScanDomains, ReadDomains, ReadIds, ReadGroups, ReadSuccessor,
      IdsBytes, SuccessorBytes, DomainsPart;
    Lengths(m);
    Sections(m, buf, suf);
    var h := ShapeFor(m);
    var a := HEADER + GroupsLen(h);
    var b := a + 16 * h.sources;
    GroupsRead(m, buf);
    var t :| buf[a..] == IdsBytes(m.sources) + t;
    IdsBack(m.sources, t);
    var v :| buf[b..] == OptSuccessorBytes(m.successor) + v;
    SuccessorFlag(m);
    if m.successor.Some? {
      SuccessorBack(m.successor.value, v);
    }
    SizeParts(m);
    if m.domains != [] {
      DomainsAt(m, buf, FixedLen(h), suf);
    }
  }

  lemma {:induction false} SuccessorFlag(m: Manifest)
    requires EncodeError(m) == None
    ensures HasBit(m.flags, SUCCESSOR_VALID) <==> m.successor.Some?
  {
  }

  lemma {:induction false} GroupsRead(m: Manifest, buf: bytes)
    requires EncodeError(m) == None && |buf| >= HEADER && exists t :: buf[HEADER..] == GroupsPart(m) + t
    ensures HEADER + |m.bitmap| <= |buf| && buf[HEADER..HEADER + |m.bitmap|] == m.bitmap
    ensures m.bitmap == [] ==> |buf[HEADER..]| >= 2 * |m.groups| && ReadGroups(buf[HEADER..], |m.groups|) == m.groups
    ensures m.bitmap != [] ==> m.groups == []
  {
    hide ReadGroups, GroupsBytes;
    var t :| buf[HEADER..] == GroupsPart(m) + t;
    if m.bitmap == [] {
      GroupsBack(m.groups, t);
    } else {
      assert buf[HEADER..][..|m.bitmap|] == m.bitmap;
      assert buf[HEADER..HEADER + |m.bitmap|] == buf[HEADER..][..|m.bitmap|];
    }
  }

  // ---- encode, then decode --------------------------------------------------------------

  lemma {:induction false} ShapeAccepted(m: Manifest)
    requires EncodeError(m) == None
    ensures ShapeError(ShapeFor(m)) == None && PayloadError(m) == None
  {
  }

  /** The checksum field apart, the two headers of `m` are the same bytes. */
  lemma {:induction false} CheckedBack(m: Manifest, crc: u32, buf: bytes, suf: bytes)
    requires buf == Head(m, crc) + Body(m) + suf
    ensures HEADER + |Body(m)| <= |buf| && Checked(buf, HEADER + |Body(m)|) == Head(m, 0) + Body(m)
  {
    HeadZero(m, crc);
    hide Body, Head, PutBE;
    var total := HEADER + |Body(m)|;
    var h := Head(m, crc);
    assert buf[..44] == h[..44];
    assert buf[48..total] == h[48..] + Body(m);
    assert Checked(buf, total) == h[..44] + [0, 0, 0, 0] + h[48..] + Body(m);
  }

  lemma {:induction false} HeadZero(m: Manifest, crc: u32)
    ensures Head(m, 0) == Head(m, crc)[..44] + [0, 0, 0, 0] + Head(m, crc)[48..]
  {
    ZeroBytes();
    var a := Head(m, 0)[..44];
    assert Head(m, crc)[..44] == a;
    assert Head(m, 0)[44..48] == PutBE(0, 4);
    assert Head(m, crc)[48..] == Head(m, 0)[48..];
  }

  lemma {:induction false} ZeroBytes()
    ensures PutBE(0, 4) == [0, 0, 0, 0]
  {
    assert PutBE(0, 1) == [0];
    assert PutBE(0, 2) == [0, 0];
    assert PutBE(0, 3) == [0, 0, 0];
  }

  /** Every manifest the encoder accepts is returned by decoding its output, whatever bytes
      follow it. */
  lemma {:induction false} RoundTrip(m: Manifest, room: nat, suf: bytes, crc: bytes -> u32)
    requires Encode(m, room, crc).Good?
    ensures |Encode(m, room, crc).value| == Size(m) <= room
    ensures Decode(Encode(m, room, crc).value + suf, crc) == Good(m)
  {
    hide EncodeError, Head, Body, Size, GetBE, Extent, Fields, ShapeError, PayloadError, Checked, ShapeFor;
    var sum := crc(Head(m, 0) + Body(m));
    var buf := Encode(m, room, crc).value + suf;
    assert buf[..HEADER] == Head(m, sum);
    assert buf[HEADER..] == Body(m) + suf;
    Lengths(m);
    HeadFront(m, sum, buf);
    HeadBack(m, sum, buf);
    ShapeBack(m, sum, buf);
    ShapeAccepted(m);
    ExtentBack(m, sum, buf, suf);
    CheckedBack(m, sum, buf, suf);
    FieldsBack(m, sum, buf, suf);
  }

  lemma {:induction false} Lengths(m: Manifest)
    requires EncodeError(m) == None
    ensures |m.groups| <= MAX16 && |m.bitmap| <= MAX16 && |m.sources| <= MAX16
  {
  }

  // ---- decode, then encode --------------------------------------------------------------

  lemma {:induction false} ScannedSize(s: bytes, count: nat)
    requires ScanDomains(s, count).Good?
    ensures DomainsSize(ReadDomains(s, count)) == ScanDomains(s, count).value
    decreases count
  {
    hide ReadSuccessor, HasBit;
    if count > 0 {
      ScannedSize(s[BlockLen(s[3])..], count - 1);
      assert ReadDomains(s, count)[1..] == ReadDomains(s[BlockLen(s[3])..], count - 1);
    }
  }

  /** What the decoder accepts, the encoder accepts, and the scanned extent is its size. */
  lemma {:induction false} DecodedIsAccepted(buf: bytes, crc: bytes -> u32)
    requires Decode(buf, crc).Good?
    ensures EncodeError(Decode(buf, crc).value) == None
    ensures |buf| >= HEADER && Extent(buf) == Good(Size(Decode(buf, crc).value))
  {
    hide HasBit, GetBE, DomainsOk, ReadGroups, ReadIds, ReadSuccessor, ScanDomains, ReadDomains, Ascending,
      TopSuccessorOk, Checked;
    var m := Decode(buf, crc).value;
    var h := ShapeOf(buf);
    var fixed := FixedLen(h);
    if HasBit(h.flags, DOMAINS_VALID) {
      ScannedSize(buf[fixed + 1..], buf[fixed]);
    }
  }

  /** Re-encoding what was decoded and decoding it again is the identity. */
  lemma {:induction false} DecodeEncodeDecode(buf: bytes, room: nat, suf: bytes, crc: bytes -> u32)
    requires Decode(buf, crc).Good? && Size(Decode(buf, crc).value) <= room
    ensures Encode(Decode(buf, crc).value, room, crc).Good?
    ensures Decode(Encode(Decode(buf, crc).value, room, crc).value + suf, crc) == Decode(buf, crc)
  {
    hide EncodeError, Size, Head, Body, Extent, Fields, ShapeError, PayloadError, Checked, GetBE;
    DecodedIsAccepted(buf, crc);
    RoundTrip(Decode(buf, crc).value, room, suf, crc);
  }
}
