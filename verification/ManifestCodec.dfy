/** The shard manifest datagram: a 64-byte header with a checksum, then groups, sources, a
    successor block and a Domains section whose length depends on its own flags. */
module ManifestCodec {
  import opened Bytes
  import opened Domains

  const MSG_MANIFEST: byte := 0x40
  const HEADER := 64
  const BLOCK := 24
  const MAX16 := 0xFFFF
  const MAX_BITS := 12

  const GROUPS_VALID: byte := 1
  const AUTHORITATIVE: byte := 2
  const SOURCES_VALID: byte := 16
  const PILOT_ONLY: byte := 32
  const SUCCESSOR_VALID: byte := 64
  const DOMAINS_VALID: byte := 128

  datatype Manifest = Manifest(
    flags: byte, src: Id16, instanceID: u32, epoch: u32, ttl: u16, announceInterval: u16,
    shardBits: byte, roleHint: byte, generation: Id16,
    groups: seq<u16>, bitmap: bytes, sources: seq<Id16>,
    successor: Option<Successor>, domains: seq<Domain>)

  datatype ManifestError =
    | TooShort | BadMagic | BadMsgType | BadShardBits | BadEncoding | BadSources | BadFlags | BadSuccessor
    | BadDomains | Truncated | BadCRC | BufferTooSmall
  datatype Result<+T> = Good(value: T) | Bad(error: ManifestError)

  // ---- rules ----------------------------------------------------------------------------

  predicate Ascending(gs: seq<u16>) {
    forall i :: 0 < i < |gs| ==> gs[i - 1] < gs[i]
  }

  function TopOf(m: Manifest): Top {
    Top(m.shardBits, m.generation, HasBit(m.flags, AUTHORITATIVE))
  }

  predicate TopSuccessorOk(bits: byte, s: Successor) {
    s.shardBits <= MAX_BITS && WithinOneBit(bits, s.shardBits)
  }

  /** The first rule the encoder finds broken. */
  function EncodeError(m: Manifest): Option<ManifestError> {
    var list, bitmap := m.groups != [], m.bitmap != [];
    if m.shardBits > MAX_BITS then Some(BadShardBits)
    else if HasBit(m.flags, GROUPS_VALID) != (list || bitmap) || (list && bitmap) then Some(BadEncoding)
    else if !Ascending(m.groups) || |m.groups| > MAX16 || |m.bitmap| > MAX16 then Some(BadEncoding)
    else if HasBit(m.flags, SOURCES_VALID) != (m.sources != []) || |m.sources| > MAX16 then Some(BadSources)
    else if HasBit(m.flags, PILOT_ONLY) && !HasBit(m.flags, AUTHORITATIVE) then Some(BadFlags)
    else if HasBit(m.flags, SUCCESSOR_VALID) != m.successor.Some? then Some(BadSuccessor)
    else if m.successor.Some? && !(HasBit(m.flags, AUTHORITATIVE) && TopSuccessorOk(m.shardBits, m.successor.value))
    then Some(BadSuccessor)
    else if HasBit(m.flags, DOMAINS_VALID) != (m.domains != []) then Some(BadDomains)
    else if m.domains != [] && !DomainsOk(m.domains, TopOf(m)) then Some(BadDomains)
    else None
  }

  // ---- writing --------------------------------------------------------------------------

  function GroupsBytes(gs: seq<u16>): (s: bytes)
    ensures |s| == 2 * |gs|
  {
    if gs == [] then [] else PutBE(gs[0], 2) + GroupsBytes(gs[1..])
  }

  function IdsBytes(ids: seq<Id16>): (s: bytes)
    ensures |s| == 16 * |ids|
  {
    if ids == [] then [] else ids[0] + IdsBytes(ids[1..])
  }

  function SuccessorBytes(x: Successor): (s: bytes)
    ensures |s| == BLOCK
  {
    x.generation + [x.shardBits, x.flags, 0, 0] + PutBE(x.transitionEpoch, 4)
  }

  function OptSuccessorBytes(x: Option<Successor>): (s: bytes)
    ensures |s| == if x.Some? then BLOCK else 0
  {
    if x.Some? then SuccessorBytes(x.value) else []
  }

  function DomainBytes(d: Domain): (s: bytes)
    ensures |s| == BLOCK + if d.successor.Some? then BLOCK else 0
  {
    [d.id, d.shardBits, d.slotSpan, d.flags, d.version, 0, 0, 0] + d.generation + OptSuccessorBytes(d.successor)
  }

  function DomainsBytes(ds: seq<Domain>): bytes {
    if ds == [] then [] else DomainBytes(ds[0]) + DomainsBytes(ds[1..])
  }

  function GroupsPart(m: Manifest): bytes {
    if m.bitmap != [] then m.bitmap else GroupsBytes(m.groups)
  }

  function DomainsPart(ds: seq<Domain>): bytes {
    if ds == [] then [] else [|ds| % 256] + DomainsBytes(ds)
  }

  function Body(m: Manifest): bytes {
    GroupsPart(m) + (IdsBytes(m.sources) + (OptSuccessorBytes(m.successor) + DomainsPart(m.domains)))
  }

  function Head(m: Manifest, crc: u32): (h: bytes)
    ensures |h| == HEADER
  {
    PutBE(MAGIC, 4) + PutBE(PROTO_VER, 2) + [MSG_MANIFEST, m.flags] + m.src
      + PutBE(m.instanceID, 4) + PutBE(m.epoch, 4) + PutBE(m.ttl, 2) + PutBE(m.announceInterval, 2)
      + [m.shardBits, m.roleHint]
      + PutBE(if m.bitmap == [] then |m.groups| else 0, 2) + PutBE(|m.bitmap|, 2) + PutBE(|m.sources|, 2)
      + PutBE(crc, 4) + m.generation
  }

  /** The datagram the encoder writes into a buffer of `room` bytes; `crc` stands for CRC-32C. */
  function Encode(m: Manifest, room: nat, crc: bytes -> u32): Result<bytes> {
    if EncodeError(m).Some? then Bad(EncodeError(m).value)
    else if room < Size(m) then Bad(BufferTooSmall)
    else Good(Head(m, crc(Head(m, 0) + Body(m))) + Body(m))
  }

  function DomainsSize(ds: seq<Domain>): nat {
    if ds == [] then 0
    else BLOCK + (if HasBit(ds[0].flags, FLAG_SUCCESSOR) then BLOCK else 0) + DomainsSize(ds[1..])
  }

  /** ShardManifestSize. */
  function Size(m: Manifest): nat {
    HEADER
      + (if !HasBit(m.flags, GROUPS_VALID) then 0 else if m.bitmap != [] then |m.bitmap| else 2 * |m.groups|)
      + 16 * |m.sources|
      + (if HasBit(m.flags, SUCCESSOR_VALID) then BLOCK else 0)
      + (if HasBit(m.flags, DOMAINS_VALID) then 1 + DomainsSize(m.domains) else 0)
  }

  // ---- reading --------------------------------------------------------------------------

  function ReadGroups(s: bytes, count: nat): (gs: seq<u16>)
    requires |s| >= 2 * count
    ensures |gs| == count
    decreases count
  {
    if count == 0 then []
    else
      Widths();
      GetBEBound(s[..2]);
      [GetBE(s[..2])] + ReadGroups(s[2..], count - 1)
  }

  function ReadIds(s: bytes, count: nat): (ids: seq<Id16>)
    requires |s| >= 16 * count
    ensures |ids| == count
    decreases count
  {
    if count == 0 then [] else [s[..16]] + ReadIds(s[16..], count - 1)
  }

  function ReadSuccessor(s: bytes): Successor
    requires |s| >= BLOCK
  {
    Widths();
    GetBEBound(s[20..24]);
    Successor(s[..16], s[16], s[17], GetBE(s[20..24]))
  }

  function BlockLen(flags: byte): nat {
    BLOCK + if HasBit(flags, FLAG_SUCCESSOR) then BLOCK else 0
  }

  /** The length of `count` descriptors, each with its successor block if flagged. */
  function ScanDomains(s: bytes, count: nat): (r: Result<nat>)
    ensures r.Good? ==> r.value <= |s|
    decreases count
  {
    if count == 0 then Good(0)
    else if |s| < BLOCK || |s| < BlockLen(s[3]) then Bad(Truncated)
    else
      match ScanDomains(s[BlockLen(s[3])..], count - 1)
      case Bad(e) => Bad(e)
      case Good(n) => Good(BlockLen(s[3]) + n)
  }

  function ReadDomain(s: bytes): Domain
    requires |s| >= BLOCK && |s| >= BlockLen(s[3])
  {
    Domain(s[0], s[1], s[2], s[3], s[4], s[8..24],
           if HasBit(s[3], FLAG_SUCCESSOR) then Some(ReadSuccessor(s[24..])) else None)
  }

  function ReadDomains(s: bytes, count: nat): (ds: seq<Domain>)
    requires ScanDomains(s, count).Good?
    ensures |ds| == count
    decreases count
  {
    if count == 0 then [] else [ReadDomain(s)] + ReadDomains(s[BlockLen(s[3])..], count - 1)
  }

  /** The counts and flags a datagram declares. */
  datatype Shape = Shape(flags: byte, shardBits: byte, groups: u16, bitmap: u16, sources: u16)

  function ShapeOf(buf: bytes): Shape
    requires |buf| >= HEADER
  {
    Widths();
    GetBEBound(buf[38..40]);
    GetBEBound(buf[40..42]);
    GetBEBound(buf[42..44]);
    Shape(buf[7], buf[36], GetBE(buf[38..40]), GetBE(buf[40..42]), GetBE(buf[42..44]))
  }

  /** The first rule broken by the header alone. */
  function ShapeError(h: Shape): Option<ManifestError> {
    if h.shardBits > MAX_BITS then Some(BadShardBits)
    else if HasBit(h.flags, GROUPS_VALID) != (h.groups > 0 || h.bitmap > 0) || (h.groups > 0 && h.bitmap > 0)
    then Some(BadEncoding)
    else if HasBit(h.flags, SOURCES_VALID) != (h.sources > 0) then Some(BadSources)
    else if HasBit(h.flags, PILOT_ONLY) && !HasBit(h.flags, AUTHORITATIVE) then Some(BadFlags)
    else if HasBit(h.flags, SUCCESSOR_VALID) && !HasBit(h.flags, AUTHORITATIVE) then Some(BadSuccessor)
    else None
  }

  function GroupsLen(h: Shape): nat {
    if h.bitmap == 0 then 2 * h.groups else h.bitmap
  }

  function SuccessorLen(h: Shape): nat {
    if HasBit(h.flags, SUCCESSOR_VALID) then BLOCK else 0
  }

  /** The length of everything before the Domains section. */
  function FixedLen(h: Shape): nat {
    HEADER + GroupsLen(h) + 16 * h.sources + SuccessorLen(h)
  }

  /** The extent of the datagram, found by scanning ahead before the checksum is verified. */
  function Extent(buf: bytes): Result<nat>
    requires |buf| >= HEADER
  {
    var h := ShapeOf(buf);
    var fixed := FixedLen(h);
    if |buf| < fixed then Bad(Truncated)
    else if !HasBit(h.flags, DOMAINS_VALID) then Good(fixed)
    else if |buf| < fixed + 1 then Bad(Truncated)
    else if !(1 <= buf[fixed] <= MAX_DESCRIPTORS) then Bad(BadDomains)
    else
      match ScanDomains(buf[fixed + 1..], buf[fixed])
      case Bad(e) => Bad(e)
      case Good(n) => Good(fixed + 1 + n)
  }

  /** The bytes the checksum covers: the datagram with its checksum field zeroed. */
  function Checked(buf: bytes, total: nat): bytes
    requires HEADER <= total <= |buf|
  {
    buf[..44] + [0, 0, 0, 0] + buf[48..total]
  }

  function Fields(buf: bytes): Manifest
    requires |buf| >= HEADER && Extent(buf).Good?
  {
    var h := ShapeOf(buf);
    var a := HEADER + GroupsLen(h);
    var b := a + 16 * h.sources;
    var fixed := FixedLen(h);
    Widths();
    GetBEBound(buf[24..28]);
    GetBEBound(buf[28..32]);
    GetBEBound(buf[32..34]);
    GetBEBound(buf[34..36]);
    Manifest(h.flags, buf[8..24], GetBE(buf[24..28]), GetBE(buf[28..32]), GetBE(buf[32..34]), GetBE(buf[34..36]),
             h.shardBits, buf[37], buf[48..64],
             if h.bitmap > 0 then [] else ReadGroups(buf[64..], h.groups), buf[64..64 + h.bitmap],
             ReadIds(buf[a..], h.sources),
             if HasBit(h.flags, SUCCESSOR_VALID) then Some(ReadSuccessor(buf[b..])) else None,
             if HasBit(h.flags, DOMAINS_VALID) then ReadDomains(buf[fixed + 1..], buf[fixed]) else [])
  }

  /** The first rule broken by the payload. */
  function PayloadError(m: Manifest): Option<ManifestError> {
    if !Ascending(m.groups) then Some(BadEncoding)
    else if m.successor.Some? && !TopSuccessorOk(m.shardBits, m.successor.value) then Some(BadSuccessor)
    else if m.domains != [] && !DomainsOk(m.domains, TopOf(m)) then Some(BadDomains)
    else None
  }

  function Decode(buf: bytes, crc: bytes -> u32): Result<Manifest> {
    if |buf| < HEADER then Bad(TooShort)
    else if GetBE(buf[0..4]) != MAGIC then Bad(BadMagic)
    else if buf[6] != MSG_MANIFEST then Bad(BadMsgType)
    else if ShapeError(ShapeOf(buf)).Some? then Bad(ShapeError(ShapeOf(buf)).value)
    else
      match Extent(buf)
      case Bad(e) => Bad(e)
      case Good(total) =>
        ExtentBounds(buf);
        if crc(Checked(buf, total)) != GetBE(buf[44..48]) then Bad(BadCRC)
        else if PayloadError(Fields(buf)).Some? then Bad(PayloadError(Fields(buf)).value)
        else Good(Fields(buf))
  }

  lemma {:induction false} ExtentBounds(buf: bytes)
    requires |buf| >= HEADER && Extent(buf).Good?
    ensures HEADER <= Extent(buf).value <= |buf|
  {
  }
}
