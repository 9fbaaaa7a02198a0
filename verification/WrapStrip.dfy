/** The two directions of a lane: wrapping a pushed object into its multicast frame, and
    stripping the frame back to the object. */
module WrapStrip {
  import opened Bytes
  import opened ObjSize
  import opened Frames
  import T = TxStandard

  datatype Outcome = Delivered(data: bytes) | SizeErr(err: Res<nat>) | Unregistered | NotStrippable
    | FrameErr(e: FrameError)

  function TxFrame(obj: bytes, n: nat, id: Hash32): Frame
    requires n <= |obj|
  {
    Frame(VER_TX, 0, id, 0, 0, Zeros(32), obj[..n])
  }

  /** The block body travels verbatim; its id is the double hash of the 80-byte header. */
  function BlockFrame(obj: bytes, n: nat, sha: bytes -> Hash32): Frame
    requires BLOCK_HEADER <= n <= |obj|
  {
    Frame(VER_BLOCK, MSG_ANNOUNCE, sha(sha(obj[..BLOCK_HEADER])), 0, 0, Zeros(32), obj[..n])
  }

  /** The merkle root becomes the frame's id, the hashes become nodes without fee and size. */
  function SubtreePayload(obj: bytes): SubtreeData
    requires SubtreeSize(obj).Ok?
  {
    SubtreeData(0, 0, ReadNodes(obj[SUBTREE_HEADER..], GetBE(obj[32..40]), false), [])
  }

  function SubtreeFrame(obj: bytes): Frame
    requires SubtreeSize(obj).Ok?
  {
    Frame(VER_SUBTREE, MSG_HASHES_ONLY, obj[..32], 0, 0, Zeros(32),
          EncodeSubtree(SubtreePayload(obj), MSG_HASHES_ONLY).value)
  }

  function MulticastBytes(c: Class, obj: bytes, sha: bytes -> Hash32): Outcome {
    match c
    case ClassTx =>
      (match TxSize(obj)
       case Ok(n) =>
         T.TxSizeCut(obj);
         (match T.TxID(obj[..n], sha)
          case Ok(id) => Delivered(Encode(TxFrame(obj, n, id)))
          case e => SizeErr(e.PropagateFailure()))
       case e => SizeErr(e))
    case ClassSubtree =>
      if SubtreeSize(obj).Ok? then Delivered(Encode(SubtreeFrame(obj))) else SizeErr(SubtreeSize(obj))
    case ClassBlock =>
      (match BlockSize(obj)
       case Ok(n) =>
         BlockBounds(obj);
         Delivered(Encode(BlockFrame(obj, n, sha)))
       case e => SizeErr(e))
    case _ => Unregistered
  }

  lemma {:induction false} BlockBounds(obj: bytes)
    requires BlockSize(obj).Ok?
    ensures BLOCK_HEADER <= BlockSize(obj).value <= |obj|
  {
    BlockSizeLow(obj);
    SizeIgnoresSuffix(ClassBlock, obj, []);
  }

  function StripBlock(f: Frame): Outcome {
    if BlockSize(f.payload) == Ok(|f.payload|) then Delivered(f.payload) else NotStrippable
  }

  function StripSubtree(f: Frame): Outcome {
    match DecodeSubtree(f.payload, f.msgType)
    case Bad(e) => FrameErr(e)
    case Good(p) => Delivered(f.id + PutBE(|p.nodes|, 8) + NodesBytes(p.nodes, false))
  }

  /** The frame decoder of a class. */
  function FrameOf(c: Class, mcast: bytes): Result<Frame>
    requires c in {ClassTx, ClassSubtree, ClassBlock, ClassBEEF}
  {
    match c
    case ClassTx => Decode(mcast)
    case ClassSubtree => DecodeAs(mcast, VER_SUBTREE)
    case ClassBlock => DecodeAs(mcast, VER_BLOCK)
    case ClassBEEF => DecodeAs(mcast, VER_BEEF)
  }

  function StripBytes(c: Class, mcast: bytes): Outcome {
    if c !in {ClassTx, ClassSubtree, ClassBlock, ClassBEEF} then Unregistered
    else
      match FrameOf(c, mcast)
      case Bad(e) => FrameErr(e)
      case Good(f) =>
        if c == ClassSubtree then StripSubtree(f)
        else if c == ClassBlock then StripBlock(f)
        else Delivered(f.payload)
  }

  /** The BEEF frame of one object under one topic. */
  function BEEFMulticastBytes(topicID: Hash32, obj: bytes, sha: bytes -> Hash32): Outcome {
    if obj == [] then SizeErr(Malformed) else Delivered(Encode(Frame(VER_BEEF, 0, sha(sha(obj)), 0, 0, topicID, obj)))
  }

  // ---- transactions ---------------------------------------------------------------------

  /** The walk's 32-bit limits keep every transaction short of 2^32 bytes. */
  lemma {:induction false} TxSizeBound(buf: bytes)
    requires TxSize(buf).Ok?
    ensures TxSize(buf).value <= MAX_INT32 + 4
  {
    hide Inputs, Outputs, VarInt;
  }

  lemma {:induction false} TxHasId(obj: bytes, sha: bytes -> Hash32)
    requires TxSize(obj).Ok?
    ensures TxSize(obj).value <= |obj| && T.TxID(obj[..TxSize(obj).value], sha).Ok?
  {
    hide TxSize, T.Stripped;
    T.TxSizeCut(obj);
    var n := TxSize(obj).value;
    assert obj[..n][..n] == obj[..n];
  }

  /** For a transaction, stripping undoes wrapping, always. */
  lemma {:induction false} WrapStripTx(obj: bytes, sha: bytes -> Hash32)
    requires TxSize(obj).Ok?
    ensures MulticastBytes(ClassTx, obj, sha).Delivered?
    ensures TxSize(obj).value <= |obj|
    ensures StripBytes(ClassTx, MulticastBytes(ClassTx, obj, sha).data) == Delivered(obj[..TxSize(obj).value])
  {
    hide TxSize, T.TxID, Encode, Parse;
    TxSizeBound(obj);
    TxHasId(obj, sha);
    var n := TxSize(obj).value;
    var f := TxFrame(obj, n, T.TxID(obj[..n], sha).value);
    EncodeParses(f);
    assert f.payload[..n] == f.payload;
  }

  // ---- blocks ---------------------------------------------------------------------------

  /** For a block, stripping undoes wrapping exactly when the body is shorter than 2^32 bytes. */
  lemma {:induction false} WrapStripBlock(obj: bytes, sha: bytes -> Hash32)
    requires BlockSize(obj).Ok?
    ensures MulticastBytes(ClassBlock, obj, sha).Delivered?
    ensures BlockSize(obj).value <= |obj|
    ensures StripBytes(ClassBlock, MulticastBytes(ClassBlock, obj, sha).data) == Delivered(obj[..BlockSize(obj).value])
       <==> BlockSize(obj).value < TWO32
  {
    hide BlockSize, Encode, Parse;
    BlockBounds(obj);
    var n := BlockSize(obj).value;
    var f := BlockFrame(obj, n, sha);
    EncodeParses(f);
    SizeOfObjectAlone(ClassBlock, obj);
    if n < TWO32 {
      assert f.payload[..n] == f.payload;
    } else {
      var k := n % TWO32;
      StrictPrefixIsShort(ClassBlock, obj, k);
      assert f.payload[..k] == obj[..k];
    }
  }

  // ---- subtrees -------------------------------------------------------------------------

  lemma {:induction false} NodesBytesBack(s: bytes, count: nat)
    requires |s| >= 32 * count
    ensures NodesBytes(ReadNodes(s, count, false), false) == s[..32 * count]
    decreases count
  {
    if count > 0 {
      NodesBytesBack(s[32..], count - 1);
      var ns := ReadNodes(s, count, false);
      assert ns[1..] == ReadNodes(s[32..], count - 1, false);
      assert s[..32] + s[32..][..32 * (count - 1)] == s[..32 * count];
    }
  }

  /** What the wrapped payload of a subtree object is made of. */
  lemma {:induction false} SubtreeShape(obj: bytes)
    requires SubtreeSize(obj).Ok?
    ensures var n, p := SubtreeSize(obj).value, SubtreePayload(obj);
      && SUBTREE_HEADER <= n <= |obj| && n <= MAX_INT64 && |p.nodes| == GetBE(obj[32..40])
      && |EncodeSubtree(p, MSG_HASHES_ONLY).value| == n - 8
      && Projected(p.nodes, false) == p.nodes
      && obj[..n] == obj[..32] + PutBE(|p.nodes|, 8) + NodesBytes(p.nodes, false)
  {
    var n, p := SubtreeSize(obj).value, SubtreePayload(obj);
    var count := GetBE(obj[32..40]);
    NodesBytesBack(obj[SUBTREE_HEADER..], count);
    PutGet(obj[32..40]);
    ProjectedRead(obj[SUBTREE_HEADER..], count);
    assert obj[SUBTREE_HEADER..][..32 * count] == obj[SUBTREE_HEADER..n];
    assert obj[..n] == obj[..32] + obj[32..40] + obj[SUBTREE_HEADER..n];
  }

  lemma {:induction false} ProjectedRead(s: bytes, count: nat)
    requires |s| >= 32 * count
    ensures Projected(ReadNodes(s, count, false), false) == ReadNodes(s, count, false)
    decreases count
  {
    var ns := ReadNodes(s, count, false);
    if count > 0 {
      ProjectedRead(s[32..], count - 1);
      var rest := ReadNodes(s[32..], count - 1, false);
      forall i | 0 <= i < |ns| ensures ns[i] == Node(ns[i].hash, 0, 0) {
        if i > 0 {
          assert ns[i] == rest[i - 1] == Projected(rest, false)[i - 1];
        }
      }
    }
  }

  /** A payload cut short is refused. */
  lemma {:induction false} CutSubtreeFails(p: SubtreeData, k: nat)
    requires p.conflicts == [] && k < |EncodeSubtree(p, MSG_HASHES_ONLY).value| <= MAX_INT64
    ensures DecodeSubtree(EncodeSubtree(p, MSG_HASHES_ONLY).value[..k], MSG_HASHES_ONLY) == Bad(BadPayload)
  {
    hide PutBE, GetBE, WrapInt64;
    var nodes := NodesBytes(p.nodes, false);
    var s := EncodeSubtree(p, MSG_HASHES_ONLY).value;
    if k >= PAYLOAD_HEADER {
      PayloadSlices(PutBE(p.totalFees, 8), PutBE(p.totalSize, 8), PutBE(|p.nodes|, 8), nodes, PutBE(0, 8), [], [], s);
      assert s[..k][16..24] == s[16..24];
      Widths();
      GetPut(|p.nodes|, 8);
      NoWrap(|s|);
    }
  }

  /** For a subtree, stripping undoes wrapping exactly when its payload, eight bytes shorter
      than the object, is shorter than 2^32 bytes. */
  lemma {:induction false} WrapStripSubtree(obj: bytes, sha: bytes -> Hash32)
    requires SubtreeSize(obj).Ok?
    ensures MulticastBytes(ClassSubtree, obj, sha).Delivered?
    ensures SubtreeSize(obj).value <= |obj|
    ensures
      SubtreeSize(obj).value - 8 < TWO32 <==>
        StripBytes(ClassSubtree, MulticastBytes(ClassSubtree, obj, sha).data)
          == Delivered(obj[..SubtreeSize(obj).value])
    ensures SubtreeSize(obj).value - 8 >= TWO32 ==>
      StripBytes(ClassSubtree, MulticastBytes(ClassSubtree, obj, sha).data) == FrameErr(BadPayload)
  {
    hide SubtreeSize, Encode, Parse, DecodeSubtree, EncodeSubtree, SubtreePayload, NodesBytes, Projected;
    SubtreeShape(obj);
    var n, p := SubtreeSize(obj).value, SubtreePayload(obj);
    var f := SubtreeFrame(obj);
    EncodeParses(f);
    EncodesHashes(p);
    if n - 8 < TWO32 {
      assert f.payload[..n - 8] == f.payload;
      SubtreeRoundTrip(p, MSG_HASHES_ONLY, []);
      assert f.payload + [] == f.payload;
    } else {
      NoConflicts(obj);
      CutSubtreeFails(p, (n - 8) % TWO32);
    }
  }

  lemma {:induction false} EncodesHashes(p: SubtreeData)
    ensures EncodeSubtree(p, MSG_HASHES_ONLY).Good?
  {
  }

  lemma {:induction false} NoConflicts(obj: bytes)
    requires SubtreeSize(obj).Ok?
    ensures SubtreePayload(obj).conflicts == []
  {
  }

  /** Stripping a subtree frame stops the program exactly when the frame decodes and the counts in
      its payload slip past the length checks. */
  lemma {:induction false} StripPanicsExactly(mcast: bytes)
    requires |mcast| <= MAX_INT64
    ensures StripBytes(ClassSubtree, mcast) == FrameErr(RuntimePanic) <==>
      var f := DecodeAs(mcast, VER_SUBTREE);
      && f.Good? && |f.value.payload| >= PAYLOAD_HEADER
      && CountsSlip(f.value.payload, f.value.msgType == MSG_FULL_NODES)
  {
    hide DecodeSubtree, GetBE, CountsSlip;
    var f := DecodeAs(mcast, VER_SUBTREE);
    if f.Good? {
      SubtreePanicsExactly(f.value.payload, f.value.msgType);
    }
  }

  /** The frame around such a payload is accepted, and stripping it stops the program. */
  lemma {:induction false} WrappedCountStopsStrip(id: Hash32)
    ensures var f := Frame(VER_SUBTREE, MSG_HASHES_ONLY, id, 0, 0, Zeros(32),
                           Zeros(16) + PutBE(0x800_0000_0000_0000, 8) + Zeros(8));
      StripBytes(ClassSubtree, Encode(f)) == FrameErr(RuntimePanic)
  {
    hide Encode, Parse, PutBE, DecodeSubtree;
    var s := Zeros(16) + PutBE(0x800_0000_0000_0000, 8) + Zeros(8);
    var f := Frame(VER_SUBTREE, MSG_HASHES_ONLY, id, 0, 0, Zeros(32), s);
    EncodeParses(f);
    assert s[..32] == s;
    WrappedCountPanics();
  }

  /** For a BEEF object, stripping undoes wrapping exactly below 2^32 bytes. */
  lemma {:induction false} WrapStripBEEF(topicID: Hash32, obj: bytes, sha: bytes -> Hash32)
    requires obj != []
    ensures BEEFMulticastBytes(topicID, obj, sha).Delivered?
    ensures StripBytes(ClassBEEF, BEEFMulticastBytes(topicID, obj, sha).data) == Delivered(obj) <==> |obj| < TWO32
  {
    hide Encode, Parse;
    var f := Frame(VER_BEEF, 0, sha(sha(obj)), 0, 0, topicID, obj);
    EncodeParses(f);
    if |obj| < TWO32 {
      assert obj[..|obj|] == obj;
    }
  }

  // ---- objects that wrapping does not keep ----------------------------------------------

  /** The smallest coinbase: one input without script, one output without script. */
  const COINBASE: bytes := Zeros(4) + [1] + Zeros(41) + [1] + Zeros(13)

  lemma {:induction false} CoinbaseSize()
    ensures TxSize(COINBASE) == Ok(60)
  {
    var s := COINBASE;
    assert |s| == 60 && s[4] == 1 && s[41] == 0 && s[46] == 1 && s[55] == 0;
    assert VarInt(s, 4) == Ok((1, 1)) && VarInt(s, 41) == Ok((0, 1));
    assert Input(s, 5, false) == Ok(46);
    assert Inputs(s, 46, 0, false) == Ok(46);
    assert VarInt(s, 46) == Ok((1, 1)) && VarInt(s, 55) == Ok((0, 1));
    assert Output(s, 47) == Ok(56);
    assert Outputs(s, 56, 0) == Ok(56);
  }

  /** A block with no subtrees, the smallest coinbase and a coinbase BUMP of 2^32 bytes. */
  function LongBlock(): bytes {
    Zeros(BLOCK_PREFIX) + COINBASE + Zeros(8) + PutBE(TWO32, 8) + Zeros(TWO32)
  }

  lemma {:induction false} LongBlockSize()
    ensures BlockSize(LongBlock()) == Ok(BLOCK_PREFIX + 76 + TWO32)
  {
    hide TxSize, PutBE;
    var s, tail := LongBlock(), Zeros(8) + PutBE(TWO32, 8) + Zeros(TWO32);
    assert s == Zeros(BLOCK_PREFIX) + (COINBASE + tail);
    assert s[BLOCK_PREFIX..] == COINBASE + tail;
    assert s[96..104] == Zeros(8);
    assert GetBE(Zeros(8)) == 0 by { ZeroValue(8); }
    CoinbaseSize();
    SizeIgnoresSuffix(ClassTx, COINBASE, tail);
    assert s[172..180] == PutBE(TWO32, 8);
    Widths();
    GetPut(TWO32, 8);
  }

  lemma {:induction false} ZeroValue(n: nat)
    ensures GetBE(Zeros(n)) == 0
  {
    if n > 0 {
      ZeroValue(n - 1);
      assert Zeros(n)[..n - 1] == Zeros(n - 1);
    }
  }

  /** Stripping does not give this block back. */
  lemma {:induction false} LongBlockLost(sha: bytes -> Hash32)
    ensures var obj := LongBlock();
      && BlockSize(obj) == Ok(|obj|) && MulticastBytes(ClassBlock, obj, sha).Delivered?
      && StripBytes(ClassBlock, MulticastBytes(ClassBlock, obj, sha).data) != Delivered(obj)
  {
    hide BlockSize, MulticastBytes, StripBytes, PutBE;
    var obj := LongBlock();
    LongBlockSize();
    WrapStripBlock(obj, sha);
    assert obj[..|obj|] == obj;
  }

  /** A subtree object of 2^27 hashes, whose payload has 2^32 + 32 bytes. */
  lemma {:induction false} LongSubtreeLost(sha: bytes -> Hash32)
    ensures var obj := Zeros(32) + PutBE(0x800_0000, 8) + Zeros(TWO32);
      && SubtreeSize(obj) == Ok(|obj|) && MulticastBytes(ClassSubtree, obj, sha).Delivered?
      && StripBytes(ClassSubtree, MulticastBytes(ClassSubtree, obj, sha).data) == FrameErr(BadPayload)
  {
    hide MulticastBytes, StripBytes, PutBE, GetBE;
    var obj := Zeros(32) + PutBE(0x800_0000, 8) + Zeros(TWO32);
    assert obj[32..40] == PutBE(0x800_0000, 8);
    Widths();
    GetPut(0x800_0000, 8);
    WrapStripSubtree(obj, sha);
  }

  /** A BEEF object of 2^32 bytes comes back empty. */
  lemma {:induction false} LongBEEFLost(topicID: Hash32, sha: bytes -> Hash32)
    ensures var obj := Zeros(TWO32);
      && BEEFMulticastBytes(topicID, obj, sha).Delivered?
      && StripBytes(ClassBEEF, BEEFMulticastBytes(topicID, obj, sha).data) == Delivered([])
  {
    hide Encode, Parse;
    EncodeParses(Frame(VER_BEEF, 0, sha(sha(Zeros(TWO32))), 0, 0, topicID, Zeros(TWO32)));
  }
}
