/** Multicast frames with the 92-byte header, and the subtree data payload. */
module Frames {
  import opened Bytes

  const VER_LEGACY: byte := 1
  const VER_TX: byte := 2
  const VER_BLOCK: byte := 4
  const VER_SUBTREE: byte := 5
  const VER_BEEF: byte := 9
  const HEADER := 92
  const HEADER_LEGACY := 44
  const MSG_ANNOUNCE: byte := 1
  const MSG_HASHES_ONLY: byte := 1
  const MSG_FULL_NODES: byte := 2

  datatype FrameError = TooShort | BadMagic | BadVersion | BadMsgType | UnexpectedEOF | BadPayload | RuntimePanic
  datatype Result<+T> = Good(value: T) | Bad(error: FrameError)

  /** The fields shared by the layout-compatible frame versions. */
  datatype Frame = Frame(
    version: byte, msgType: byte, id: Hash32, hashKey: u64, seqNum: u64, subtreeID: Hash32, payload: bytes)

  function Header(f: Frame): (h: bytes)
    ensures |h| == HEADER
  {
    PutBE(MAGIC, 4) + PutBE(PROTO_VER, 2) + [f.version, f.msgType] + f.id
      + PutBE(f.hashKey, 8) + PutBE(f.seqNum, 8) + f.subtreeID + PutBE(|f.payload|, 4)
  }

  function Encode(f: Frame): bytes {
    Header(f) + f.payload
  }

  /** The 92-byte header of `buf` and the payload length it declares. */
  function Parse(buf: bytes): Result<Frame>
    requires |buf| >= HEADER
  {
    var n := GetBE(buf[88..92]);
    if |buf| - HEADER < n then Bad(UnexpectedEOF)
    else
      Widths();
      GetBEBound(buf[40..48]);
      GetBEBound(buf[48..56]);
      Good(Frame(buf[6], buf[7], buf[8..40], GetBE(buf[40..48]), GetBE(buf[48..56]), buf[56..88], buf[92..92 + n]))
  }

  /** Legacy and current transaction frames. */
  function Decode(buf: bytes): Result<Frame> {
    if |buf| < HEADER_LEGACY then Bad(TooShort)
    else if GetBE(buf[0..4]) != MAGIC then Bad(BadMagic)
    else if buf[6] == VER_LEGACY then
      var n := GetBE(buf[40..44]);
      if |buf| - HEADER_LEGACY < n then Bad(UnexpectedEOF)
      else Good(Frame(VER_LEGACY, 0, buf[8..40], 0, 0, Zeros(32), buf[44..44 + n]))
    else if buf[6] != VER_TX then Bad(BadVersion)
    else if |buf| < HEADER then Bad(TooShort)
    else Parse(buf)
  }

  /** Block control, subtree data and BEEF frames: version `ver`; the first two also carry a
      message type of 1 or 2 in byte 7, where a BEEF frame has its deliver count. */
  function DecodeAs(buf: bytes, ver: byte): Result<Frame> {
    if |buf| < HEADER_LEGACY then Bad(TooShort)
    else if GetBE(buf[0..4]) != MAGIC then Bad(BadMagic)
    else if buf[6] != ver then Bad(BadVersion)
    else if |buf| < HEADER then Bad(TooShort)
    else if ver != VER_BEEF && buf[7] != 1 && buf[7] != 2 then Bad(BadMsgType)
    else Parse(buf)
  }

  /** What is left of a frame once its length has gone through the 32-bit field. */
  function Carried(f: Frame): Frame {
    f.(payload := f.payload[..|f.payload| % TWO32])
  }

  lemma {:induction false} HeaderFields(f: Frame, buf: bytes)
    requires |buf| >= HEADER && buf[..HEADER] == Header(f)
    ensures GetBE(buf[0..4]) == MAGIC && buf[6] == f.version && buf[7] == f.msgType && buf[8..40] == f.id
    ensures GetBE(buf[40..48]) == f.hashKey && GetBE(buf[48..56]) == f.seqNum && buf[56..88] == f.subtreeID
    ensures GetBE(buf[88..92]) == |f.payload| % TWO32
  {
    hide PutBE, GetBE;
    Widths();
    var h := Header(f);
    assert buf[0..4] == h[0..4] == PutBE(MAGIC, 4);
    assert buf[6] == h[6] && buf[7] == h[7];
    assert buf[8..40] == h[8..40] == f.id;
    assert buf[40..48] == h[40..48] == PutBE(f.hashKey, 8);
    assert buf[48..56] == h[48..56] == PutBE(f.seqNum, 8);
    assert buf[56..88] == h[56..88] == f.subtreeID;
    assert buf[88..92] == h[88..92] == PutBE(|f.payload|, 4);
    GetPut(MAGIC, 4);
    GetPut(f.hashKey, 8);
    GetPut(f.seqNum, 8);
    PutBEWraps(|f.payload|, 4);
  }

  /** An encoded frame parses back to itself, its payload cut where the 32-bit length wraps. */
  lemma {:induction false} EncodeParses(f: Frame)
    ensures |Encode(f)| >= HEADER && Parse(Encode(f)) == Good(Carried(f))
    ensures GetBE(Encode(f)[0..4]) == MAGIC && Encode(f)[6] == f.version && Encode(f)[7] == f.msgType
  {
    var buf := Encode(f);
    assert buf[..HEADER] == Header(f);
    HeaderFields(f, buf);
    var n := |f.payload| % TWO32;
    assert buf[92..92 + n] == f.payload[..n];
  }

  // ---- subtree data payload -------------------------------------------------------------

  datatype Node = Node(hash: Hash32, fee: u64, size: u64)
  datatype SubtreeData = SubtreeData(totalFees: u64, totalSize: u64, nodes: seq<Node>, conflicts: seq<Hash32>)

  const PAYLOAD_HEADER := 24

  function Stride(full: bool): nat {
    if full then 48 else 32
  }

  function NodeBytes(n: Node, full: bool): (s: bytes)
    ensures |s| == Stride(full)
  {
    if full then n.hash + PutBE(n.fee, 8) + PutBE(n.size, 8) else n.hash
  }

  function NodesBytes(ns: seq<Node>, full: bool): (s: bytes)
    ensures |s| == Stride(full) * |ns|
  {
    if ns == [] then [] else NodeBytes(ns[0], full) + NodesBytes(ns[1..], full)
  }

  function HashesBytes(hs: seq<Hash32>): (s: bytes)
    ensures |s| == 32 * |hs|
  {
    if hs == [] then [] else hs[0] + HashesBytes(hs[1..])
  }

  function ReadNode(s: bytes, full: bool): Node
    requires |s| >= Stride(full)
  {
    if full then
      Widths();
      GetBEBound(s[32..40]);
      GetBEBound(s[40..48]);
      Node(s[..32], GetBE(s[32..40]), GetBE(s[40..48]))
    else Node(s[..32], 0, 0)
  }

  function ReadNodes(s: bytes, count: nat, full: bool): (ns: seq<Node>)
    requires |s| >= count * Stride(full)
    ensures |ns| == count
    decreases count
  {
    if count == 0 then [] else [ReadNode(s, full)] + ReadNodes(s[Stride(full)..], count - 1, full)
  }

  function ReadHashes(s: bytes, count: nat): (hs: seq<Hash32>)
    requires |s| >= count * 32
    ensures |hs| == count
    decreases count
  {
    if count == 0 then [] else [s[..32]] + ReadHashes(s[32..], count - 1)
  }

  function EncodeSubtree(p: SubtreeData, msgType: byte): Result<bytes> {
    if msgType != MSG_HASHES_ONLY && msgType != MSG_FULL_NODES then Bad(BadMsgType)
    else
      Good(PutBE(p.totalFees, 8) + PutBE(p.totalSize, 8) + PutBE(|p.nodes|, 8)
             + NodesBytes(p.nodes, msgType == MSG_FULL_NODES)
             + PutBE(|p.conflicts|, 8) + HashesBytes(p.conflicts))
  }

  /** Counts are multiplied in 64-bit arithmetic before the bounds checks; a count that slips
      through by wrapping around stops the program when it allocates or indexes. */
  function DecodeSubtree(s: bytes, msgType: byte): Result<SubtreeData> {
    if |s| < PAYLOAD_HEADER then Bad(BadPayload)
    else if msgType != MSG_HASHES_ONLY && msgType != MSG_FULL_NODES then Bad(BadMsgType)
    else
      var full := msgType == MSG_FULL_NODES;
      var count := GetBE(s[16..24]);
      var end := PAYLOAD_HEADER + count * Stride(full);
      if |s| < WrapInt64(end + 8) then Bad(BadPayload)
      else if |s| < end + 8 then Bad(RuntimePanic)
      else DecodeConflicts(s, full, count, end)
  }

  function DecodeConflicts(s: bytes, full: bool, count: nat, end: nat): Result<SubtreeData>
    requires |s| >= PAYLOAD_HEADER && end == PAYLOAD_HEADER + count * Stride(full) && |s| >= end + 8
  {
    var conflicts := GetBE(s[end..end + 8]);
    if |s| < WrapInt64(end + 8 + conflicts * 32) then Bad(BadPayload)
    else if |s| < end + 8 + conflicts * 32 then Bad(RuntimePanic)
    else
      Widths();
      GetBEBound(s[0..8]);
      GetBEBound(s[8..16]);
      Good(SubtreeData(GetBE(s[0..8]), GetBE(s[8..16]), ReadNodes(s[24..], count, full),
                       ReadHashes(s[end + 8..], conflicts)))
  }

  /** What a payload of this message type carries: a hashes-only node has no fee and size. */
  function Projected(ns: seq<Node>, full: bool): (r: seq<Node>)
    ensures |r| == |ns|
  {
    if full then ns else seq(|ns|, i requires 0 <= i < |ns| => Node(ns[i].hash, 0, 0))
  }

  lemma {:induction false} ReadNodesBack(ns: seq<Node>, full: bool, suf: bytes)
    ensures ReadNodes(NodesBytes(ns, full) + suf, |ns|, full) == Projected(ns, full)
    decreases |ns|
  {
    hide Projected, ReadNode, NodeBytes, Stride;
    if ns == [] {
      ProjectedNone(full);
    } else {
      var s := NodesBytes(ns, full) + suf;
      var rest := NodesBytes(ns[1..], full) + suf;
      Front(NodeBytes(ns[0], full), NodesBytes(ns[1..], full), suf);
      ReadNodesBack(ns[1..], full, suf);
      ReadNodeBack(ns[0], full, s);
      ProjectedHead(ns, full);
    }
  }

  lemma {:induction false} Front(a: bytes, b: bytes, suf: bytes)
    ensures (a + b + suf)[..|a|] == a && (a + b + suf)[|a|..] == b + suf
  {
  }

  lemma {:induction false} ProjectedNone(full: bool)
    ensures Projected([], full) == []
  {
  }

  lemma {:induction false} ProjectedHead(ns: seq<Node>, full: bool)
    requires ns != []
    ensures Projected(ns, full) == [if full then ns[0] else Node(ns[0].hash, 0, 0)] + Projected(ns[1..], full)
  {
  }

  lemma {:induction false} ReadNodeBack(n: Node, full: bool, s: bytes)
    requires |s| >= Stride(full) && s[..Stride(full)] == NodeBytes(n, full)
    ensures ReadNode(s, full) == if full then n else Node(n.hash, 0, 0)
  {
    Widths();
    var b := NodeBytes(n, full);
    assert s[..32] == b[..32] == n.hash;
    if full {
      assert s[32..40] == b[32..40] == PutBE(n.fee, 8);
      assert s[40..48] == b[40..48] == PutBE(n.size, 8);
      GetPut(n.fee, 8);
      GetPut(n.size, 8);
    }
  }

  lemma {:induction false} ReadHashesBack(hs: seq<Hash32>, suf: bytes)
    ensures ReadHashes(HashesBytes(hs) + suf, |hs|) == hs
    decreases |hs|
  {
    if hs != [] {
      var s := HashesBytes(hs) + suf;
      assert s[32..] == HashesBytes(hs[1..]) + suf;
      assert s[..32] == hs[0];
      ReadHashesBack(hs[1..], suf);
    }
  }

  /** Decoding an encoded subtree payload, with any bytes after it, gives the payload back as
      far as its message type carries it, while its length fits a 64-bit int. */
  lemma {:induction false} SubtreeRoundTrip(p: SubtreeData, msgType: byte, suf: bytes)
    requires msgType == MSG_HASHES_ONLY || msgType == MSG_FULL_NODES
    requires |EncodeSubtree(p, msgType).value| <= MAX_INT64
    ensures DecodeSubtree(EncodeSubtree(p, msgType).value + suf, msgType)
         == Good(p.(nodes := Projected(p.nodes, msgType == MSG_FULL_NODES)))
  {
    hide ReadNodes, ReadHashes, Projected, WrapInt64, PutBE, GetBE, NodesBytes, HashesBytes;
    var full := msgType == MSG_FULL_NODES;
    var nodes, hashes := NodesBytes(p.nodes, full), HashesBytes(p.conflicts);
    var s := EncodeSubtree(p, msgType).value + suf;
    Widths();
    GetPut(p.totalFees, 8);
    GetPut(p.totalSize, 8);
    GetPut(|p.nodes|, 8);
    GetPut(|p.conflicts|, 8);
    PayloadSlices(PutBE(p.totalFees, 8), PutBE(p.totalSize, 8), PutBE(|p.nodes|, 8), nodes,
                  PutBE(|p.conflicts|, 8), hashes, suf, s);
    DecodesTo(s, msgType, |p.nodes|, |p.conflicts|);
    hide DecodeSubtree;
    ReadNodesBack(p.nodes, full, PutBE(|p.conflicts|, 8) + hashes + suf);
    ReadHashesBack(p.conflicts, suf);
  }

  /** A payload whose declared sections fit is read as declared. */
  lemma {:induction false} DecodesTo(s: bytes, msgType: byte, count: nat, conflicts: nat)
    requires msgType == MSG_HASHES_ONLY || msgType == MSG_FULL_NODES
    requires var end := PAYLOAD_HEADER + count * Stride(msgType == MSG_FULL_NODES);
      && end + 8 + conflicts * 32 <= |s| && end + 8 + conflicts * 32 <= MAX_INT64
      && GetBE(s[16..24]) == count && GetBE(s[end..end + 8]) == conflicts
    ensures var end := PAYLOAD_HEADER + count * Stride(msgType == MSG_FULL_NODES);
      GetBE(s[0..8]) < TWO64 && GetBE(s[8..16]) < TWO64 &&
      DecodeSubtree(s, msgType)
        == Good(SubtreeData(GetBE(s[0..8]), GetBE(s[8..16]), ReadNodes(s[24..], count, msgType == MSG_FULL_NODES),
                            ReadHashes(s[end + 8..], conflicts)))
  {
    hide ReadNodes, ReadHashes, WrapInt64, GetBE;
    Widths();
    GetBEBound(s[0..8]);
    GetBEBound(s[8..16]);
    var end := PAYLOAD_HEADER + count * Stride(msgType == MSG_FULL_NODES);
    NoWrap(end + 8);
    NoWrap(end + 8 + conflicts * 32);
  }

  lemma {:induction false} PayloadSlices(a: bytes, b: bytes, c: bytes, n: bytes, d: bytes, h: bytes, suf: bytes,
                                         s: bytes)
    requires |a| == |b| == |c| == |d| == 8 && s == a + b + c + n + d + h + suf
    ensures |s| >= 32 + |n| && s[0..8] == a && s[8..16] == b && s[16..24] == c
    ensures s[24 + |n|..32 + |n|] == d && s[24..] == n + (d + h + suf) && s[32 + |n|..] == h + suf
  {
    var front := a + b + c;
    assert s == front + (n + (d + (h + suf)));
    assert s[24..] == n + (d + (h + suf));
    assert s[24 + |n|..] == d + (h + suf);
    assert d + (h + suf) == d + h + suf;
  }

  lemma {:induction false} NoWrap(x: nat)
    requires x <= MAX_INT64
    ensures WrapInt64(x) == x
  {
  }

  // ---- counts that wrap around ----------------------------------------------------------

  /** The bytes that `count` items of the stride seem to take once their product has been cut to
      64 bits: 32 * count repeats every 2^59 items, and 48 * count is 16 times 3 * count, which
      repeats modulo 2^60. */
  function SeemingBytes(count: nat, full: bool): nat {
    if full then 16 * (3 * count % 0x1000_0000_0000_0000) else 32 * (count % 0x800_0000_0000_0000)
  }

  /** A section of `count` items with `base` bytes before and around it is larger than any buffer,
      yet passes the length check of a buffer of `len` bytes: the product wraps to something that
      fits, or to something negative. */
  predicate Slips(count: nat, full: bool, base: nat, len: nat) {
    && MAX_INT64 < base + count * Stride(full)
    && (base + SeemingBytes(count, full) <= len || MAX_INT64 < base + SeemingBytes(count, full))
  }

  /** The node count slips past the length check, or the nodes fit and the conflict count does. */
  predicate CountsSlip(s: bytes, full: bool)
    requires |s| >= PAYLOAD_HEADER
  {
    var count := GetBE(s[16..24]);
    var end := PAYLOAD_HEADER + count * Stride(full);
    if end + 8 <= |s| then Slips(GetBE(s[end..end + 8]), false, end + 8, |s|)
    else Slips(count, full, PAYLOAD_HEADER + 8, |s|)
  }

  lemma {:induction false} SeemingIsResidue(count: nat, full: bool)
    ensures SeemingBytes(count, full) == count * Stride(full) % TWO64
    ensures SeemingBytes(count, full) <= TWO64 - 16
  {
    if full {
      var m := 3 * count;
      var q := m / 0x1000_0000_0000_0000;
      DivModUnique(count * 48, TWO64, q, 16 * (m % 0x1000_0000_0000_0000));
    } else {
      var q := count / 0x800_0000_0000_0000;
      DivModUnique(count * 32, TWO64, q, 32 * (count % 0x800_0000_0000_0000));
    }
  }

  /** When a wrapped end passes a length check that the true end fails. */
  lemma {:induction false} WrapPasses(size: nat, left: nat, base: nat, len: nat)
    requires left == size % TWO64 && base <= MAX_INT64 && len <= MAX_INT64 && base + left - TWO64 <= len
    ensures WrapInt64(base + size) <= len < base + size
       <==> MAX_INT64 < base + size && (base + left <= len || MAX_INT64 < base + left)
  {
    var q := size / TWO64;
    assert size == q * TWO64 + left;
    if base + left <= MAX_INT64 {
      DivModUnique(base + size + 0x8000_0000_0000_0000, TWO64, q, base + left + 0x8000_0000_0000_0000);
    } else {
      var w := base + left - 0x8000_0000_0000_0000;
      DivModUnique(base + size + 0x8000_0000_0000_0000, TWO64, q + 1, w);
    }
  }

  /** Exactly which payloads stop the program: those whose declared counts slip. */
  lemma {:induction false} SubtreePanicsExactly(s: bytes, msgType: byte)
    requires |s| <= MAX_INT64
    ensures DecodeSubtree(s, msgType) == Bad(RuntimePanic) <==>
      && |s| >= PAYLOAD_HEADER && (msgType == MSG_HASHES_ONLY || msgType == MSG_FULL_NODES)
      && CountsSlip(s, msgType == MSG_FULL_NODES)
  {
    hide WrapInt64, GetBE, SeemingBytes;
    if |s| >= PAYLOAD_HEADER && (msgType == MSG_HASHES_ONLY || msgType == MSG_FULL_NODES) {
      var full, count := msgType == MSG_FULL_NODES, GetBE(s[16..24]);
      var end := PAYLOAD_HEADER + count * Stride(full);
      SeemingIsResidue(count, full);
      WrapPasses(count * Stride(full), SeemingBytes(count, full), PAYLOAD_HEADER + 8, |s|);
      if end + 8 <= |s| {
        var conflicts := GetBE(s[end..end + 8]);
        NoWrap(end + 8);
        SeemingIsResidue(conflicts, false);
        WrapPasses(conflicts * 32, SeemingBytes(conflicts, false), end + 8, |s|);
      }
    }
  }

  /** Node counts below the limit never slip, and from there until the product has wrapped once
      every count does, whatever the buffer. The limit is 2^58 - 1 hashes, or the 2^63 / 48 that
      full nodes need. */
  lemma {:induction false} LeastSlip(count: nat, full: bool, len: nat)
    requires len <= MAX_INT64
    ensures count < (if full then 0x2AA_AAAA_AAAA_AAAA else 0x3FF_FFFF_FFFF_FFFF) ==> !Slips(count, full, 32, len)
    ensures (if full then 0x2AA_AAAA_AAAA_AAAA <= count <= 0x555_5555_5555_5554
             else 0x3FF_FFFF_FFFF_FFFF <= count <= 0x7FF_FFFF_FFFF_FFFE) ==> Slips(count, full, 32, len)
  {
  }

  /** Where both sections' true ends are 64-bit integers the decoder never stops the program. */
  lemma {:induction false} HonestCountsNeverPanic(s: bytes, msgType: byte)
    requires PAYLOAD_HEADER <= |s| <= MAX_INT64
    requires var count, stride := GetBE(s[16..24]), Stride(msgType == MSG_FULL_NODES);
      && count * stride <= MAX_INT64 - 32
      && (count * stride + 32 <= |s| ==>
            GetBE(s[24 + count * stride..32 + count * stride]) * 32 <= MAX_INT64 - (count * stride + 32))
    ensures DecodeSubtree(s, msgType) != Bad(RuntimePanic)
  {
    hide GetBE, DecodeSubtree, SeemingBytes;
    SubtreePanicsExactly(s, msgType);
  }

  /** A 32-byte payload that declares 2^59 hashes: their 2^64 bytes wrap to none. */
  lemma {:induction false} WrappedCountPanics()
    ensures DecodeSubtree(Zeros(16) + PutBE(0x800_0000_0000_0000, 8) + Zeros(8), MSG_HASHES_ONLY) == Bad(RuntimePanic)
  {
    hide PutBE, GetBE;
    var s := Zeros(16) + PutBE(0x800_0000_0000_0000, 8) + Zeros(8);
    assert s[16..24] == PutBE(0x800_0000_0000_0000, 8);
    Widths();
    GetPut(0x800_0000_0000_0000, 8);
    SubtreePanicsExactly(s, MSG_HASHES_ONLY);
  }
}
