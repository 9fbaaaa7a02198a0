/** The index loops of the subtree payload codec and of stripping a subtree frame. */
module SubtreeLoops {
  import opened Bytes
  import opened Frames
  import W = WrapStrip

  method WriteNodes(ns: seq<Node>, full: bool) returns (out: bytes)
    ensures out == NodesBytes(ns, full)
  {
    hide NodeBytes;
    out := [];
    for i := 0 to |ns|
      invariant out + NodesBytes(ns[i..], full) == NodesBytes(ns, full)
    {
      assert ns[i..][1..] == ns[i + 1..];
      assert out + (NodeBytes(ns[i], full) + NodesBytes(ns[i + 1..], full))
          == (out + NodeBytes(ns[i], full)) + NodesBytes(ns[i + 1..], full);
      out := out + NodeBytes(ns[i], full);
    }
  }

  method WriteHashes(hs: seq<Hash32>) returns (out: bytes)
    ensures out == HashesBytes(hs)
  {
    out := [];
    for i := 0 to |hs|
      invariant out + HashesBytes(hs[i..]) == HashesBytes(hs)
    {
      assert hs[i..][1..] == hs[i + 1..];
      assert out + (hs[i] + HashesBytes(hs[i + 1..])) == (out + hs[i]) + HashesBytes(hs[i + 1..]);
      out := out + hs[i];
    }
  }

  lemma {:induction false} NodesNext(s: bytes, off: nat, count: nat, full: bool)
    requires count > 0 && off + count * Stride(full) <= |s|
    ensures off + Stride(full) <= |s|
    ensures ReadNodes(s[off..], count, full)
         == [ReadNode(s[off..], full)] + ReadNodes(s[off + Stride(full)..], count - 1, full)
  {
    assert s[off..][Stride(full)..] == s[off + Stride(full)..];
  }

  lemma {:induction false} NoNodes(s: bytes, full: bool)
    ensures ReadNodes(s, 0, full) == []
  {
  }

  method ReadNodeList(s: bytes, count: nat, full: bool) returns (ns: seq<Node>)
    requires |s| >= count * Stride(full)
    ensures ns == ReadNodes(s, count, full)
  {
    hide ReadNode, ReadNodes;
    ns := [];
    var off: nat := 0;
    assert s[0..] == s;
    for i := 0 to count
      invariant off + (count - i) * Stride(full) <= |s|
      invariant ns + ReadNodes(s[off..], count - i, full) == ReadNodes(s, count, full)
    {
      NodesNext(s, off, count - i, full);
      var node := ReadNode(s[off..], full);
      ghost var rest := ReadNodes(s[off + Stride(full)..], count - i - 1, full);
      assert ns + ([node] + rest) == (ns + [node]) + rest;
      ns := ns + [node];
      off := off + Stride(full);
    }
    NoNodes(s[off..], full);
  }

  method ReadHashList(s: bytes, count: nat) returns (hs: seq<Hash32>)
    requires |s| >= count * 32
    ensures hs == ReadHashes(s, count)
  {
    hs := [];
    for i := 0 to count
      invariant hs + ReadHashes(s[i * 32..], count - i) == ReadHashes(s, count)
    {
      assert s[i * 32..][32..] == s[(i + 1) * 32..];
      assert s[i * 32..][..32] == s[i * 32..i * 32 + 32];
      assert hs + ([s[i * 32..i * 32 + 32]] + ReadHashes(s[(i + 1) * 32..], count - i - 1))
          == (hs + [s[i * 32..i * 32 + 32]]) + ReadHashes(s[(i + 1) * 32..], count - i - 1);
      hs := hs + [s[i * 32..i * 32 + 32]];
    }
  }

  method EncodePayload(p: SubtreeData, msgType: byte) returns (r: Result<bytes>)
    ensures r == EncodeSubtree(p, msgType)
  {
    hide PutBE, NodesBytes, HashesBytes;
    if msgType != MSG_HASHES_ONLY && msgType != MSG_FULL_NODES {
      return Bad(BadMsgType);
    }
    var nodes := WriteNodes(p.nodes, msgType == MSG_FULL_NODES);
    var hashes := WriteHashes(p.conflicts);
    r := Good(PutBE(p.totalFees, 8) + PutBE(p.totalSize, 8) + PutBE(|p.nodes|, 8) + nodes
                + PutBE(|p.conflicts|, 8) + hashes);
  }

  method DecodePayload(s: bytes, msgType: byte) returns (r: Result<SubtreeData>)
    ensures r == DecodeSubtree(s, msgType)
  {
    hide GetBE, ReadNodes, ReadHashes, WrapInt64;
    if |s| < PAYLOAD_HEADER {
      return Bad(BadPayload);
    }
    if msgType != MSG_HASHES_ONLY && msgType != MSG_FULL_NODES {
      return Bad(BadMsgType);
    }
    var full := msgType == MSG_FULL_NODES;
    var count := GetBE(s[16..24]);
    var end := PAYLOAD_HEADER + count * Stride(full);
    if |s| < WrapInt64(end + 8) {
      return Bad(BadPayload);
    }
    if |s| < end + 8 {
      return Bad(RuntimePanic);
    }
    var nodes := ReadNodeList(s[24..], count, full);
    var conflicts := GetBE(s[end..end + 8]);
    if |s| < WrapInt64(end + 8 + conflicts * 32) {
      return Bad(BadPayload);
    }
    if |s| < end + 8 + conflicts * 32 {
      return Bad(RuntimePanic);
    }
    var hashes := ReadHashList(s[end + 8..], conflicts);
    Widths();
    GetBEBound(s[0..8]);
    GetBEBound(s[8..16]);
    r := Good(SubtreeData(GetBE(s[0..8]), GetBE(s[8..16]), nodes, hashes));
  }

  /** Rebuilds the push frame of a subtree from its decoded multicast frame. */
  method StripFrame(f: Frame) returns (r: W.Outcome)
    ensures r == W.StripSubtree(f)
  {
    hide DecodeSubtree, PutBE, NodesBytes;
    var p := DecodePayload(f.payload, f.msgType);
    if p.Bad? {
      return W.FrameErr(p.error);
    }
    var hashes := WriteNodes(p.value.nodes, false);
    r := W.Delivered(f.id + PutBE(|p.value.nodes|, 8) + hashes);
  }
}
