/** The manifest encoder and decoder as the source runs them, section by section in loops. */
module ManifestLoops {
  import opened Bytes
  import opened Domains
  import opened ManifestCodec

  method SizeOf(m: Manifest) returns (n: nat)
    ensures n == Size(m)
  {
    n := HEADER;
    if HasBit(m.flags, GROUPS_VALID) {
      n := n + if m.bitmap != [] then |m.bitmap| else 2 * |m.groups|;
    }
    n := n + 16 * |m.sources|;
    if HasBit(m.flags, SUCCESSOR_VALID) {
      n := n + BLOCK;
    }
    if HasBit(m.flags, DOMAINS_VALID) {
      ghost var before := n + 1;
      n := n + 1;
      for i := 0 to |m.domains|
        invariant n + DomainsSize(m.domains[i..]) == before + DomainsSize(m.domains)
      {
        assert m.domains[i..][1..] == m.domains[i + 1..];
        n := n + BlockLen(m.domains[i].flags);
      }
    }
  }

  method IsAscending(gs: seq<u16>) returns (ok: bool)
    ensures ok == Ascending(gs)
  {
    var i := 1;
    while i < |gs|
      invariant forall j :: 0 < j < i && j < |gs| ==> gs[j - 1] < gs[j]
    {
      if gs[i] <= gs[i - 1] {
        return false;
      }
      i := i + 1;
    }
    ok := true;
  }

  method WriteGroups(gs: seq<u16>) returns (out: bytes)
    ensures out == GroupsBytes(gs)
  {
    hide PutBE;
    out := [];
    for i := 0 to |gs|
      invariant out + GroupsBytes(gs[i..]) == GroupsBytes(gs)
    {
      assert gs[i..][1..] == gs[i + 1..];
      assert out + (PutBE(gs[i], 2) + GroupsBytes(gs[i + 1..])) == (out + PutBE(gs[i], 2)) + GroupsBytes(gs[i + 1..]);
      out := out + PutBE(gs[i], 2);
    }
  }

  method WriteIds(ids: seq<Id16>) returns (out: bytes)
    ensures out == IdsBytes(ids)
  {
    out := [];
    for i := 0 to |ids|
      invariant out + IdsBytes(ids[i..]) == IdsBytes(ids)
    {
      assert ids[i..][1..] == ids[i + 1..];
      assert out + (ids[i] + IdsBytes(ids[i + 1..])) == (out + ids[i]) + IdsBytes(ids[i + 1..]);
      out := out + ids[i];
    }
  }

  method WriteDomains(ds: seq<Domain>) returns (out: bytes)
    ensures out == DomainsBytes(ds)
  {
    hide DomainBytes;
    out := [];
    for i := 0 to |ds|
      invariant out + DomainsBytes(ds[i..]) == DomainsBytes(ds)
    {
      assert ds[i..][1..] == ds[i + 1..];
      assert out + (DomainBytes(ds[i]) + DomainsBytes(ds[i + 1..])) == (out + DomainBytes(ds[i]))
        + DomainsBytes(ds[i + 1..]);
      out := out + DomainBytes(ds[i]);
    }
    assert out + DomainsBytes(ds[|ds|..]) == out;
  }

  method FindEncodeError(m: Manifest) returns (e: Option<ManifestError>)
    ensures e == EncodeError(m)
  {
    hide HasBit, DomainsOk, Ascending;
    var list, bitmap := m.groups != [], m.bitmap != [];
    if m.shardBits > MAX_BITS {
      return Some(BadShardBits);
    }
    if HasBit(m.flags, GROUPS_VALID) != (list || bitmap) || (list && bitmap) {
      return Some(BadEncoding);
    }
    var sorted := IsAscending(m.groups);
    if !sorted || |m.groups| > MAX16 || |m.bitmap| > MAX16 {
      return Some(BadEncoding);
    }
    if HasBit(m.flags, SOURCES_VALID) != (m.sources != []) || |m.sources| > MAX16 {
      return Some(BadSources);
    }
    if HasBit(m.flags, PILOT_ONLY) && !HasBit(m.flags, AUTHORITATIVE) {
      return Some(BadFlags);
    }
    if HasBit(m.flags, SUCCESSOR_VALID) != m.successor.Some? {
      return Some(BadSuccessor);
    }
    if m.successor.Some? && !(HasBit(m.flags, AUTHORITATIVE) && TopSuccessorOk(m.shardBits, m.successor.value)) {
      return Some(BadSuccessor);
    }
    if HasBit(m.flags, DOMAINS_VALID) != (m.domains != []) {
      return Some(BadDomains);
    }
    if m.domains != [] {
      var ok := ValidateDomains(m.domains, TopOf(m));
      if !ok {
        return Some(BadDomains);
      }
    }
    e := None;
  }

  method EncodeManifest(m: Manifest, room: nat, crc: bytes -> u32) returns (r: Result<bytes>)
    ensures r == Encode(m, room, crc)
  {
    hide EncodeError, Size, Head, GroupsBytes, IdsBytes, OptSuccessorBytes, DomainsBytes;
    var e := FindEncodeError(m);
    if e.Some? {
      return Bad(e.value);
    }
    var total := SizeOf(m);
    if room < total {
      return Bad(BufferTooSmall);
    }
    var groups := m.bitmap;
    if m.bitmap == [] {
      groups := WriteGroups(m.groups);
    }
    var ids := WriteIds(m.sources);
    var ds: bytes := [];
    if m.domains != [] {
      ds := WriteDomains(m.domains);
      ds := [|m.domains| % 256] + ds;
    }
    var body := groups + (ids + (OptSuccessorBytes(m.successor) + ds));
    r := Good(Head(m, crc(Head(m, 0) + body)) + body);
  }

  // ---- decoding -------------------------------------------------------------------------

  method Scan(s: bytes, count: nat) returns (r: Result<nat>)
    ensures r == ScanDomains(s, count)
  {
    hide HasBit;
    var off: nat, i: nat := 0, 0;
    assert s[0..] == s;
    while i < count
      invariant i <= count && off <= |s|
      invariant Shift(off, ScanDomains(s[off..], count - i)) == ScanDomains(s, count)
    {
      if |s| < off + BLOCK {
        return Bad(Truncated);
      }
      assert s[off..][3] == s[off + 3];
      var n := BlockLen(s[off + 3]);
      if |s| < off + n {
        return Bad(Truncated);
      }
      assert s[off..][n..] == s[off + n..];
      off, i := off + n, i + 1;
    }
    r := Good(off);
  }

  function Shift(n: nat, r: Result<nat>): Result<nat> {
    match r
    case Good(x) => Good(n + x)
    case Bad(e) => Bad(e)
  }

  method ReadGroupList(s: bytes, count: nat) returns (gs: seq<u16>)
    requires |s| >= 2 * count
    ensures gs == ReadGroups(s, count)
  {
    hide GetBE;
    gs := [];
    var rest := s;
    Widths();
    for i := 0 to count
      invariant |rest| >= 2 * (count - i)
      invariant gs + ReadGroups(rest, count - i) == ReadGroups(s, count)
    {
      GetBEBound(rest[..2]);
      ghost var tail := ReadGroups(rest[2..], count - i - 1);
      assert gs + ([GetBE(rest[..2])] + tail) == (gs + [GetBE(rest[..2])]) + tail;
      gs := gs + [GetBE(rest[..2])];
      rest := rest[2..];
    }
  }

  method ReadIdList(s: bytes, count: nat) returns (ids: seq<Id16>)
    requires |s| >= 16 * count
    ensures ids == ReadIds(s, count)
  {
    ids := [];
    var rest := s;
    for i := 0 to count
      invariant |rest| >= 16 * (count - i)
      invariant ids + ReadIds(rest, count - i) == ReadIds(s, count)
    {
      ghost var tail := ReadIds(rest[16..], count - i - 1);
      assert ids + ([rest[..16]] + tail) == (ids + [rest[..16]]) + tail;
      ids := ids + [rest[..16]];
      rest := rest[16..];
    }
  }

  method ReadDomainList(s: bytes, count: nat) returns (ds: seq<Domain>)
    requires ScanDomains(s, count).Good?
    ensures ds == ReadDomains(s, count)
  {
    hide ReadDomain, BlockLen;
    ds := [];
    var rest := s;
    for i := 0 to count
      invariant ScanDomains(rest, count - i).Good?
      invariant ds + ReadDomains(rest, count - i) == ReadDomains(s, count)
    {
      var n := BlockLen(rest[3]);
      ghost var tail := ReadDomains(rest[n..], count - i - 1);
      assert ds + ([ReadDomain(rest)] + tail) == (ds + [ReadDomain(rest)]) + tail;
      ds := ds + [ReadDomain(rest)];
      rest := rest[n..];
    }
  }

  method FindExtent(buf: bytes) returns (r: Result<nat>)
    requires |buf| >= HEADER
    ensures r == Extent(buf)
  {
    hide HasBit, ShapeOf, FixedLen, ScanDomains;
    var h := ShapeOf(buf);
    var fixed := FixedLen(h);
    if |buf| < fixed {
      return Bad(Truncated);
    }
    if !HasBit(h.flags, DOMAINS_VALID) {
      return Good(fixed);
    }
    if |buf| < fixed + 1 {
      return Bad(Truncated);
    }
    if !(1 <= buf[fixed] <= MAX_DESCRIPTORS) {
      return Bad(BadDomains);
    }
    var n := Scan(buf[fixed + 1..], buf[fixed]);
    r := Shift(fixed + 1, n);
  }

  method ReadFields(buf: bytes) returns (m: Manifest)
    requires |buf| >= HEADER && Extent(buf).Good?
    ensures m == Fields(buf)
  {
    hide HasBit, GetBE, ReadGroups, ReadIds, ReadDomains, ReadSuccessor, ScanDomains;
    var h := ShapeOf(buf);
    var a := HEADER + GroupsLen(h);
    var b := a + 16 * h.sources;
    var fixed := FixedLen(h);
    var groups: seq<u16> := [];
    if h.bitmap == 0 {
      groups := ReadGroupList(buf[64..], h.groups);
    }
    var sources := ReadIdList(buf[a..], h.sources);
    var succ := if HasBit(h.flags, SUCCESSOR_VALID) then Some(ReadSuccessor(buf[b..])) else None;
    var ds: seq<Domain> := [];
    if HasBit(h.flags, DOMAINS_VALID) {
      ds := ReadDomainList(buf[fixed + 1..], buf[fixed]);
    }
    Widths();
    GetBEBound(buf[24..28]);
    GetBEBound(buf[28..32]);
    GetBEBound(buf[32..34]);
    GetBEBound(buf[34..36]);
    m := Manifest(h.flags, buf[8..24], GetBE(buf[24..28]), GetBE(buf[28..32]), GetBE(buf[32..34]), GetBE(buf[34..36]),
                  h.shardBits, buf[37], buf[48..64], groups, buf[64..64 + h.bitmap], sources, succ, ds);
  }

  method DecodeManifest(buf: bytes, crc: bytes -> u32) returns (r: Result<Manifest>)
    ensures r == Decode(buf, crc)
  {
    hide HasBit, GetBE, ShapeOf, ShapeError, Extent, Fields, Checked, DomainsOk, Ascending;
    if |buf| < HEADER {
      return Bad(TooShort);
    }
    if GetBE(buf[0..4]) != MAGIC {
      return Bad(BadMagic);
    }
    if buf[6] != MSG_MANIFEST {
      return Bad(BadMsgType);
    }
    var e := ShapeError(ShapeOf(buf));
    if e.Some? {
      return Bad(e.value);
    }
    var total := FindExtent(buf);
    if total.Bad? {
      return Bad(total.error);
    }
    ExtentBounds(buf);
    if crc(Checked(buf, total.value)) != GetBE(buf[44..48]) {
      return Bad(BadCRC);
    }
    var m := ReadFields(buf);
    var sorted := IsAscending(m.groups);
    if !sorted {
      return Bad(BadEncoding);
    }
    if m.successor.Some? && !TopSuccessorOk(m.shardBits, m.successor.value) {
      return Bad(BadSuccessor);
    }
    if m.domains != [] {
      var ok := ValidateDomains(m.domains, TopOf(m));
      if !ok {
        return Bad(BadDomains);
      }
    }
    r := Good(m);
  }
}
