/** Coalescing frames into bundles per flow, splitting bundles back, and re-bucketing them. */
module Coalescing {
  import opened Bytes
  import opened BundleCodec
  import opened Packing
  import opened Sharding

  /** One flow of bundles: a sender, a group and a subtree. */
  datatype Flow = Flow(sender: Id16, group: u16, subtree: Hash32)

  datatype TxFrame = TxFrame(txid: Hash32, subtreeID: Hash32, hashKey: u64, payload: bytes)

  /** A coalescer's fixed parameters; `hash` stands for XXH64 over the flow. */
  datatype Config = Config(bits: nat, limits: Limits, hash: Flow -> u64)

  predicate ValidConfig(c: Config) {
    1 <= c.limits.maxCount <= MAX16
  }

  function Clamp(maxCount: int): (n: nat)
    ensures 1 <= n <= MAX16
  {
    if maxCount <= 0 || maxCount > MAX16 then MAX16 else maxCount
  }

  function FlowOf(c: Config, sender: Id16, f: TxFrame): Flow {
    Flow(sender, GroupIndex(f.txid, c.bits) % TWO16, f.subtreeID)
  }

  function MemberOf(f: TxFrame): Member {
    Member(f.txid, f.payload)
  }

  /** The distinct flows of `fs`, in order of first appearance. */
  function Flows(c: Config, sender: Id16, fs: seq<TxFrame>): seq<Flow> {
    if fs == [] then []
    else
      var n := |fs| - 1;
      var ks := Flows(c, sender, fs[..n]);
      if FlowOf(c, sender, fs[n]) in ks then ks else ks + [FlowOf(c, sender, fs[n])]
  }

  /** The members of flow `k`, in arrival order. */
  function FlowMembers(c: Config, sender: Id16, fs: seq<TxFrame>, k: Flow): seq<Member> {
    if fs == [] then []
    else
      var n := |fs| - 1;
      FlowMembers(c, sender, fs[..n], k) + (if FlowOf(c, sender, fs[n]) == k then [MemberOf(fs[n])] else [])
  }

  /** A bundle together with the flow it was emitted on. */
  datatype Emitted = Emitted(flow: Flow, bundle: Bundle)

  function SeqOf(seqs: map<Flow, u64>, k: Flow): u64 {
    if k in seqs then seqs[k] else 0
  }

  function BundleOf(c: Config, k: Flow, piece: seq<Member>, num: u64): Bundle {
    Bundle(if c.limits.carry then 1 else 0, k.subtree, c.hash(k), num, k.group, c.bits % 256, piece)
  }

  /** Emits the packed pieces of flow `k`, numbering them on. */
  function Emit(c: Config, seqs: map<Flow, u64>, k: Flow, pieces: seq<seq<Member>>): (seq<Emitted>, map<Flow, u64>)
    decreases |pieces|
  {
    if pieces == [] then ([], seqs)
    else
      var num := (SeqOf(seqs, k) + 1) % TWO64;
      var (out, s) := Emit(c, seqs[k := num], k, pieces[1..]);
      ([Emitted(k, BundleOf(c, k, pieces[0], num))] + out, s)
  }

  function EmitFlows(c: Config, seqs: map<Flow, u64>, sender: Id16, fs: seq<TxFrame>, ks: seq<Flow>)
    : (seq<Emitted>, map<Flow, u64>)
    requires ValidConfig(c)
    decreases |ks|
  {
    if ks == [] then ([], seqs)
    else
      var (a, s) := Emit(c, seqs, ks[0], Pack(c.limits, FlowMembers(c, sender, fs, ks[0])));
      var (b, t) := EmitFlows(c, s, sender, fs, ks[1..]);
      (a + b, t)
  }

  /** What one call of Coalesce emits, and the sequence numbers after it. */
  function Coalesce(c: Config, seqs: map<Flow, u64>, sender: Id16, fs: seq<TxFrame>): (seq<Emitted>, map<Flow, u64>)
    requires ValidConfig(c)
  {
    EmitFlows(c, seqs, sender, fs, Flows(c, sender, fs))
  }

  /** Splits a bundle into single-transaction frames; `sha` stands for SHA-256. */
  function FrameOf(b: Bundle, m: Member, sha: bytes -> Hash32): TxFrame {
    TxFrame(if Carries(b.flags) then m.txid else sha(sha(m.tx)), b.subtreeID, b.hashKey, m.tx)
  }

  function Decoalesce(b: Bundle, sha: bytes -> Hash32): (fs: seq<TxFrame>)
    ensures |fs| == |b.members|
    ensures forall i :: 0 <= i < |fs| ==> fs[i] == FrameOf(b, b.members[i], sha)
  {
    seq(|b.members|, i requires 0 <= i < |b.members| => FrameOf(b, b.members[i], sha))
  }

  function Rebucket(c: Config, seqs: map<Flow, u64>, sender: Id16, b: Bundle, sha: bytes -> Hash32)
    : (seq<Emitted>, map<Flow, u64>)
    requires ValidConfig(c)
  {
    Coalesce(c, seqs, sender, Decoalesce(b, sha))
  }

  // ---- flows ----------------------------------------------------------------------------

  predicate Distinct(ks: seq<Flow>) {
    forall i, j :: 0 <= i < j < |ks| ==> ks[i] != ks[j]
  }

  lemma {:induction false} FlowsDistinct(c: Config, sender: Id16, fs: seq<TxFrame>)
    ensures Distinct(Flows(c, sender, fs))
    ensures forall i :: 0 <= i < |fs| ==> FlowOf(c, sender, fs[i]) in Flows(c, sender, fs)
    decreases |fs|
  {
    if fs != [] {
      var n := |fs| - 1;
      FlowsDistinct(c, sender, fs[..n]);
      forall i | 0 <= i < |fs| ensures FlowOf(c, sender, fs[i]) in Flows(c, sender, fs) {
        if i < n {
          assert fs[..n][i] == fs[i];
        }
      }
    }
  }

  lemma {:induction false} FlowsFrom(c: Config, sender: Id16, fs: seq<TxFrame>, k: Flow)
    requires k in Flows(c, sender, fs)
    ensures exists i :: 0 <= i < |fs| && k == FlowOf(c, sender, fs[i])
    decreases |fs|
  {
    var n := |fs| - 1;
    if k != FlowOf(c, sender, fs[n]) {
      FlowsFrom(c, sender, fs[..n], k);
      var i :| 0 <= i < |fs[..n]| && k == FlowOf(c, sender, fs[..n][i]);
      assert fs[..n][i] == fs[i];
    }
  }

  lemma {:induction false} NoMembers(c: Config, sender: Id16, fs: seq<TxFrame>, k: Flow)
    requires k !in Flows(c, sender, fs)
    ensures FlowMembers(c, sender, fs, k) == []
    decreases |fs|
  {
    if fs != [] {
      NoMembers(c, sender, fs[..|fs| - 1], k);
    }
  }

  // ---- what is emitted ------------------------------------------------------------------

  /** The pieces emitted on flow `k`, in order. */
  function PiecesOf(out: seq<Emitted>, k: Flow): seq<seq<Member>> {
    if out == [] then []
    else (if out[0].flow == k then [out[0].bundle.members] else []) + PiecesOf(out[1..], k)
  }

  lemma {:induction false} PiecesOfConcat(a: seq<Emitted>, b: seq<Emitted>, k: Flow)
    ensures PiecesOf(a + b, k) == PiecesOf(a, k) + PiecesOf(b, k)
    decreases |a|
  {
    if a == [] {
      assert a + b == b;
    } else {
      PiecesOfConcat(a[1..], b, k);
      assert (a + b)[1..] == a[1..] + b;
    }
  }

  lemma {:induction false} EmitPieces(c: Config, seqs: map<Flow, u64>, k: Flow, pieces: seq<seq<Member>>, j: Flow)
    ensures PiecesOf(Emit(c, seqs, k, pieces).0, j) == if j == k then pieces else []
    ensures |Emit(c, seqs, k, pieces).0| == |pieces|
    decreases |pieces|
  {
    if pieces != [] {
      var num := (SeqOf(seqs, k) + 1) % TWO64;
      EmitPieces(c, seqs[k := num], k, pieces[1..], j);
      var out := Emit(c, seqs, k, pieces).0;
      assert out[1..] == Emit(c, seqs[k := num], k, pieces[1..]).0;
      assert pieces == [pieces[0]] + pieces[1..];
    }
  }

  lemma {:induction false} EmitFlowsPieces(c: Config, seqs: map<Flow, u64>, sender: Id16, fs: seq<TxFrame>,
                                           ks: seq<Flow>, k: Flow)
    requires ValidConfig(c) && Distinct(ks)
    ensures PiecesOf(EmitFlows(c, seqs, sender, fs, ks).0, k)
         == if k in ks then Pack(c.limits, FlowMembers(c, sender, fs, k)) else []
    decreases |ks|
  {
    hide Pack, FlowMembers;
    if ks != [] {
      var pieces := Pack(c.limits, FlowMembers(c, sender, fs, ks[0]));
      var (a, s) := Emit(c, seqs, ks[0], pieces);
      var (b, t) := EmitFlows(c, s, sender, fs, ks[1..]);
      EmitPieces(c, seqs, ks[0], pieces, k);
      EmitFlowsPieces(c, s, sender, fs, ks[1..], k);
      PiecesOfConcat(a, b, k);
      assert ks == [ks[0]] + ks[1..];
      if k == ks[0] {
        assert k !in ks[1..];
      }
    }
  }

  /** On every flow, Coalesce emits exactly the greedy packing of the flow's frames: each frame
      once, in arrival order, in consecutive bundles within the limits, and in as few bundles as
      any such split. */
  lemma {:induction false} CoalescePacks(c: Config, seqs: map<Flow, u64>, sender: Id16, fs: seq<TxFrame>, k: Flow)
    requires ValidConfig(c)
    ensures var ps := PiecesOf(Coalesce(c, seqs, sender, fs).0, k);
      var ms := FlowMembers(c, sender, fs, k);
      && LegalSplit(c.limits, ms, ps)
      && forall qs :: LegalSplit(c.limits, ms, qs) ==> |ps| <= |qs|
  {
    hide Pack, FlowMembers, LegalSplit;
    var ms := FlowMembers(c, sender, fs, k);
    FlowsDistinct(c, sender, fs);
    EmitFlowsPieces(c, seqs, sender, fs, Flows(c, sender, fs), k);
    PackIsLegal(c.limits, ms);
    if k !in Flows(c, sender, fs) {
      NoMembers(c, sender, fs, k);
      EmptyPack(c.limits);
    }
    forall qs | LegalSplit(c.limits, ms, qs) ensures |Pack(c.limits, ms)| <= |qs| {
      PackIsOptimal(c.limits, ms, qs);
    }
  }

  lemma {:induction false} EmptyPack(l: Limits)
    requires l.maxCount >= 1
    ensures Pack(l, []) == []
  {
  }

  // ---- every emitted bundle -------------------------------------------------------------

  /** A bundle emitted on flow `e.flow`: stamped with the flow, and within the limits. */
  predicate WellEmitted(c: Config, e: Emitted) {
    && e.bundle == BundleOf(c, e.flow, e.bundle.members, e.bundle.seqNum)
    && Fits(c.limits, e.bundle.members)
  }

  lemma {:induction false} EmitWell(c: Config, seqs: map<Flow, u64>, k: Flow, pieces: seq<seq<Member>>)
    requires forall p :: p in pieces ==> Fits(c.limits, p)
    ensures forall e :: e in Emit(c, seqs, k, pieces).0 ==> WellEmitted(c, e) && e.flow == k
    decreases |pieces|
  {
    hide Fits;
    if pieces != [] {
      var num := (SeqOf(seqs, k) + 1) % TWO64;
      assert pieces[0] in pieces;
      EmitWell(c, seqs[k := num], k, pieces[1..]);
    }
  }

  lemma {:induction false} EmitFlowsWell(c: Config, seqs: map<Flow, u64>, sender: Id16, fs: seq<TxFrame>, ks: seq<Flow>)
    requires ValidConfig(c)
    ensures forall e :: e in EmitFlows(c, seqs, sender, fs, ks).0 ==> WellEmitted(c, e) && e.flow in ks
    decreases |ks|
  {
    hide Pack, FlowMembers, WellEmitted;
    if ks != [] {
      var pieces := Pack(c.limits, FlowMembers(c, sender, fs, ks[0]));
      PackIsLegal(c.limits, FlowMembers(c, sender, fs, ks[0]));
      EmitWell(c, seqs, ks[0], pieces);
      EmitFlowsWell(c, Emit(c, seqs, ks[0], pieces).1, sender, fs, ks[1..]);
    }
  }

  /** Every emitted bundle is stamped with its flow and encodes to at most maxBytes unless it
      holds a single member. */
  lemma {:induction false} CoalesceWell(c: Config, seqs: map<Flow, u64>, sender: Id16, fs: seq<TxFrame>, e: Emitted)
    requires ValidConfig(c) && e in Coalesce(c, seqs, sender, fs).0
    ensures WellEmitted(c, e) && e.flow in Flows(c, sender, fs)
    ensures Encodable(e.bundle) && |e.bundle.members| > 1 ==> |Encode(e.bundle).value| <= c.limits.maxBytes
  {
    EmitFlowsWell(c, seqs, sender, fs, Flows(c, sender, fs));
    assert Carries(e.bundle.flags) == c.limits.carry;
  }

  // ---- numbering ------------------------------------------------------------------------

  /** How many bundles of flow `k` the trace holds. */
  function CountOf(out: seq<Emitted>, k: Flow): nat {
    if out == [] then 0 else CountOf(out[..|out| - 1], k) + (if out[|out| - 1].flow == k then 1 else 0)
  }

  /** The j-th bundle of every flow carries sequence number j, modulo 2^64. */
  predicate Numbered(out: seq<Emitted>) {
    forall i :: 0 <= i < |out| ==> out[i].bundle.seqNum == (CountOf(out[..i], out[i].flow) + 1) % TWO64
  }

  /** The counters stand at the number of bundles each flow has had. */
  ghost predicate CountersMatch(seqs: map<Flow, u64>, out: seq<Emitted>) {
    forall k: Flow :: SeqOf(seqs, k) == CountOf(out, k) % TWO64
  }

  lemma {:induction false} NumberNext(seqs: map<Flow, u64>, done: seq<Emitted>, e: Emitted)
    requires Numbered(done) && CountersMatch(seqs, done)
    requires e.bundle.seqNum == (SeqOf(seqs, e.flow) + 1) % TWO64
    ensures Numbered(done + [e]) && CountersMatch(seqs[e.flow := e.bundle.seqNum], done + [e])
  {
    hide CountOf;
    var out := done + [e];
    assert SeqOf(seqs, e.flow) == CountOf(done, e.flow) % TWO64;
    ModNext(CountOf(done, e.flow));
    assert out[..|done|] == done;
    forall i | 0 <= i < |out| ensures out[i].bundle.seqNum == (CountOf(out[..i], out[i].flow) + 1) % TWO64 {
      if i < |done| {
        assert out[..i] == done[..i];
      }
    }
    forall k: Flow ensures SeqOf(seqs[e.flow := e.bundle.seqNum], k) == CountOf(out, k) % TWO64 {
      CountNext(done, e, k);
      assert SeqOf(seqs, k) == CountOf(done, k) % TWO64;
    }
  }

  lemma {:induction false} CountNext(done: seq<Emitted>, e: Emitted, k: Flow)
    ensures CountOf(done + [e], k) == CountOf(done, k) + if e.flow == k then 1 else 0
  {
    assert (done + [e])[..|done|] == done;
  }

  lemma {:induction false} ModNext(x: nat)
    ensures (x % TWO64 + 1) % TWO64 == (x + 1) % TWO64
  {
  }

  lemma {:induction false} EmitNumbered(c: Config, seqs: map<Flow, u64>, k: Flow, pieces: seq<seq<Member>>,
                                        done: seq<Emitted>)
    requires Numbered(done) && CountersMatch(seqs, done)
    ensures var (out, s) := Emit(c, seqs, k, pieces); Numbered(done + out) && CountersMatch(s, done + out)
    decreases |pieces|
  {
    hide Numbered, CountersMatch;
    if pieces == [] {
      assert done + [] == done;
    } else {
      var num := (SeqOf(seqs, k) + 1) % TWO64;
      var e := Emitted(k, BundleOf(c, k, pieces[0], num));
      NumberNext(seqs, done, e);
      EmitNumbered(c, seqs[k := num], k, pieces[1..], done + [e]);
      var rest := Emit(c, seqs[k := num], k, pieces[1..]).0;
      assert done + ([e] + rest) == done + [e] + rest;
    }
  }

  lemma {:induction false} EmitFlowsNumbered(c: Config, seqs: map<Flow, u64>, sender: Id16, fs: seq<TxFrame>,
                                             ks: seq<Flow>, done: seq<Emitted>)
    requires ValidConfig(c) && Numbered(done) && CountersMatch(seqs, done)
    ensures var (out, s) := EmitFlows(c, seqs, sender, fs, ks); Numbered(done + out) && CountersMatch(s, done + out)
    decreases |ks|
  {
    hide Numbered, CountersMatch, Pack, FlowMembers, Emit;
    if ks == [] {
      assert done + [] == done;
    } else {
      var pieces := Pack(c.limits, FlowMembers(c, sender, fs, ks[0]));
      EmitNumbered(c, seqs, ks[0], pieces, done);
      var (a, s) := Emit(c, seqs, ks[0], pieces);
      EmitFlowsNumbered(c, s, sender, fs, ks[1..], done + a);
      var b := EmitFlows(c, s, sender, fs, ks[1..]).0;
      assert done + (a + b) == done + a + b;
    }
  }

  /** One call on a coalescer. */
  datatype Call = CoalesceCall(sender: Id16, frames: seq<TxFrame>) | RebucketCall(sender: Id16, b: Bundle)

  function FramesOf(call: Call, sha: bytes -> Hash32): seq<TxFrame> {
    if call.CoalesceCall? then call.frames else Decoalesce(call.b, sha)
  }

  /** Everything a run of calls emits. */
  function Run(c: Config, seqs: map<Flow, u64>, calls: seq<Call>, sha: bytes -> Hash32): (seq<Emitted>, map<Flow, u64>)
    requires ValidConfig(c)
    decreases |calls|
  {
    if calls == [] then ([], seqs)
    else
      var (a, s) := Coalesce(c, seqs, calls[0].sender, FramesOf(calls[0], sha));
      var (b, t) := Run(c, s, calls[1..], sha);
      (a + b, t)
  }

  lemma {:induction false} RunNumbered(c: Config, seqs: map<Flow, u64>, calls: seq<Call>, sha: bytes -> Hash32,
                                       done: seq<Emitted>)
    requires ValidConfig(c) && Numbered(done) && CountersMatch(seqs, done)
    ensures Numbered(done + Run(c, seqs, calls, sha).0)
    decreases |calls|
  {
    hide Numbered, CountersMatch, EmitFlows;
    if calls == [] {
      assert done + [] == done;
    } else {
      var call, fs := calls[0], FramesOf(calls[0], sha);
      EmitFlowsNumbered(c, seqs, call.sender, fs, Flows(c, call.sender, fs), done);
      var (a, s) := Coalesce(c, seqs, call.sender, fs);
      RunNumbered(c, s, calls[1..], sha, done + a);
      var b := Run(c, s, calls[1..], sha).0;
      assert done + (a + b) == done + a + b;
    }
  }

  /** Over any run of Coalesce and Rebucket calls on one fresh coalescer, the k-th bundle of a
      flow has sequence number k. */
  lemma {:induction false} FlowNumbering(c: Config, calls: seq<Call>, sha: bytes -> Hash32)
    requires ValidConfig(c)
    ensures Numbered(Run(c, map[], calls, sha).0)
  {
    hide Run;
    RunNumbered(c, map[], calls, sha, []);
    assert [] + Run(c, map[], calls, sha).0 == Run(c, map[], calls, sha).0;
  }

  // ---- conservation ---------------------------------------------------------------------

  function MembersIn(fs: seq<TxFrame>): seq<Member> {
    if fs == [] then [] else MembersIn(fs[..|fs| - 1]) + [MemberOf(fs[|fs| - 1])]
  }

  /** All members emitted, in order. */
  function MembersOut(out: seq<Emitted>): seq<Member> {
    if out == [] then [] else out[0].bundle.members + MembersOut(out[1..])
  }

  /** The members of the flows `ks`, flow after flow. */
  function ByFlow(c: Config, sender: Id16, fs: seq<TxFrame>, ks: seq<Flow>): seq<Member>
    decreases |ks|
  {
    if ks == [] then [] else FlowMembers(c, sender, fs, ks[0]) + ByFlow(c, sender, fs, ks[1..])
  }

  lemma {:induction false} MembersOutConcat(a: seq<Emitted>, b: seq<Emitted>)
    ensures MembersOut(a + b) == MembersOut(a) + MembersOut(b)
    decreases |a|
  {
    if a == [] {
      assert a + b == b;
    } else {
      MembersOutConcat(a[1..], b);
      assert (a + b)[1..] == a[1..] + b;
    }
  }

  lemma {:induction false} EmitMembers(c: Config, seqs: map<Flow, u64>, k: Flow, pieces: seq<seq<Member>>)
    ensures MembersOut(Emit(c, seqs, k, pieces).0) == Concat(pieces)
    decreases |pieces|
  {
    if pieces != [] {
      var num := (SeqOf(seqs, k) + 1) % TWO64;
      EmitMembers(c, seqs[k := num], k, pieces[1..]);
      assert Emit(c, seqs, k, pieces).0[1..] == Emit(c, seqs[k := num], k, pieces[1..]).0;
    }
  }

  lemma {:induction false} EmitFlowsMembers(c: Config, seqs: map<Flow, u64>, sender: Id16, fs: seq<TxFrame>,
                                            ks: seq<Flow>)
    requires ValidConfig(c)
    ensures MembersOut(EmitFlows(c, seqs, sender, fs, ks).0) == ByFlow(c, sender, fs, ks)
    decreases |ks|
  {
    hide Pack, FlowMembers;
    if ks != [] {
      var ms := FlowMembers(c, sender, fs, ks[0]);
      PackIsLegal(c.limits, ms);
      EmitMembers(c, seqs, ks[0], Pack(c.limits, ms));
      var (a, s) := Emit(c, seqs, ks[0], Pack(c.limits, ms));
      EmitFlowsMembers(c, s, sender, fs, ks[1..]);
      MembersOutConcat(a, EmitFlows(c, s, sender, fs, ks[1..]).0);
    }
  }

  /** One more frame adds its member to its flow, if that flow is listed. */
  lemma {:induction false} ByFlowNext(c: Config, sender: Id16, fs: seq<TxFrame>, ks: seq<Flow>)
    requires fs != [] && Distinct(ks)
    ensures multiset(ByFlow(c, sender, fs, ks))
         == multiset(ByFlow(c, sender, fs[..|fs| - 1], ks))
            + (if FlowOf(c, sender, fs[|fs| - 1]) in ks then multiset{MemberOf(fs[|fs| - 1])} else multiset{})
    decreases |ks|
  {
    hide FlowMembers, FlowOf;
    if ks != [] {
      ByFlowNext(c, sender, fs, ks[1..]);
      FlowMembersStep(c, sender, fs, ks[0]);
      HeadDistinct(ks);
    }
  }

  lemma {:induction false} FlowMembersStep(c: Config, sender: Id16, fs: seq<TxFrame>, k: Flow)
    requires fs != []
    ensures var n := |fs| - 1;
      multiset(FlowMembers(c, sender, fs, k)) == multiset(FlowMembers(c, sender, fs[..n], k))
        + (if FlowOf(c, sender, fs[n]) == k then multiset{MemberOf(fs[n])} else multiset{})
  {
    hide FlowOf;
  }

  lemma {:induction false} HeadDistinct(ks: seq<Flow>)
    requires ks != [] && Distinct(ks)
    ensures Distinct(ks[1..]) && ks[0] !in ks[1..] && forall k :: k in ks <==> k == ks[0] || k in ks[1..]
  {
    assert ks == [ks[0]] + ks[1..];
  }

  lemma {:induction false} ByFlowNew(c: Config, sender: Id16, fs: seq<TxFrame>, ks: seq<Flow>, k: Flow)
    ensures ByFlow(c, sender, fs, ks + [k]) == ByFlow(c, sender, fs, ks) + FlowMembers(c, sender, fs, k)
    decreases |ks|
  {
    hide FlowMembers;
    if ks == [] {
      assert ks + [k] == [k];
      assert ByFlow(c, sender, fs, [k][1..]) == [];
    } else {
      ByFlowNew(c, sender, fs, ks[1..], k);
      assert (ks + [k])[1..] == ks[1..] + [k];
    }
  }

  lemma {:induction false} FlowsCover(c: Config, sender: Id16, fs: seq<TxFrame>)
    ensures multiset(ByFlow(c, sender, fs, Flows(c, sender, fs))) == multiset(MembersIn(fs))
    decreases |fs|
  {
    if fs != [] {
      var gs := fs[..|fs| - 1];
      var k := FlowOf(c, sender, fs[|fs| - 1]);
      var ks := Flows(c, sender, gs);
      FlowsCover(c, sender, gs);
      FlowsDistinct(c, sender, fs);
      ByFlowNext(c, sender, fs, Flows(c, sender, fs));
      if k !in ks {
        ByFlowNew(c, sender, gs, ks, k);
        NoMembers(c, sender, gs, k);
      }
    }
  }

  /** Coalesce emits every frame's transaction exactly once. */
  lemma {:induction false} CoalesceConserves(c: Config, seqs: map<Flow, u64>, sender: Id16, fs: seq<TxFrame>)
    requires ValidConfig(c)
    ensures multiset(MembersOut(Coalesce(c, seqs, sender, fs).0)) == multiset(MembersIn(fs))
  {
    EmitFlowsMembers(c, seqs, sender, fs, Flows(c, sender, fs));
    FlowsCover(c, sender, fs);
  }

  // ---- re-bucketing ---------------------------------------------------------------------

  /** Rebucket keeps every (TxID, transaction) exactly once under the same subtree. */
  lemma {:induction false} RebucketConserves(c: Config, seqs: map<Flow, u64>, sender: Id16, b: Bundle,
                                             sha: bytes -> Hash32)
    requires ValidConfig(c)
    ensures var out := Rebucket(c, seqs, sender, b, sha).0;
      && multiset(MembersOut(out)) == multiset(MembersIn(Decoalesce(b, sha)))
      && forall e :: e in out ==> e.bundle.subtreeID == b.subtreeID
  {
    hide EmitFlows, GroupIndex, MembersOut, MembersIn, Fits;
    var fs := Decoalesce(b, sha);
    var out := Rebucket(c, seqs, sender, b, sha).0;
    CoalesceConserves(c, seqs, sender, fs);
    forall e | e in out ensures e.bundle.subtreeID == b.subtreeID {
      CoalesceWell(c, seqs, sender, fs, e);
      FlowsFrom(c, sender, fs, e.flow);
    }
  }

  /** The group a re-bucketed bundle is stamped with is the group of one of its transactions, cut
      to 16 bits. */
  lemma {:induction false} RebucketGroup(c: Config, seqs: map<Flow, u64>, sender: Id16, b: Bundle,
                                         sha: bytes -> Hash32, e: Emitted)
    requires ValidConfig(c) && e in Rebucket(c, seqs, sender, b, sha).0
    ensures exists f :: f in Decoalesce(b, sha) && e.bundle.groupIdx == GroupIndex(f.txid, c.bits) % TWO16
  {
    hide EmitFlows, GroupIndex, Fits;
    var fs := Decoalesce(b, sha);
    CoalesceWell(c, seqs, sender, fs, e);
    FlowsFrom(c, sender, fs, e.flow);
    var i :| 0 <= i < |fs| && e.flow == FlowOf(c, sender, fs[i]);
    assert fs[i] in fs;
  }

  /** When every transaction of a bundle lies in the bundle's group at its width, every group
      Rebucket emits to at a width no narrower, up to the 16 bits a group has, shifted back, is
      that group. */
  lemma {:induction false} RebucketRefines(c: Config, seqs: map<Flow, u64>, sender: Id16, b: Bundle,
                                           sha: bytes -> Hash32)
    requires ValidConfig(c) && b.shardBits <= c.bits
    requires forall f :: f in Decoalesce(b, sha) ==> GroupIndex(f.txid, b.shardBits) == b.groupIdx
    ensures c.bits <= 16 ==>
      forall e :: e in Rebucket(c, seqs, sender, b, sha).0 ==>
        e.bundle.groupIdx / Pow2(c.bits - b.shardBits) == b.groupIdx
  {
    hide Rebucket, Pow2, GroupIndex, Decoalesce;
    if c.bits <= 16 {
      forall e | e in Rebucket(c, seqs, sender, b, sha).0
        ensures e.bundle.groupIdx / Pow2(c.bits - b.shardBits) == b.groupIdx
      {
        RebucketGroup(c, seqs, sender, b, sha, e);
        var f :| f in Decoalesce(b, sha) && e.bundle.groupIdx == GroupIndex(f.txid, c.bits) % TWO16;
        SixteenBitsEnough(f.txid, b.shardBits, c.bits);
      }
    }
  }

  /** The bound is exact: at every wider width a transaction whose top bit is set leaves its group,
      whatever the bundle's own width from 1 to 16. */
  lemma {:induction false} RebucketTooWide(c: Config, seqs: map<Flow, u64>, sender: Id16, b: Bundle,
                                           sha: bytes -> Hash32)
    requires ValidConfig(c) && 1 <= b.shardBits <= 16 < c.bits
    requires |b.members| == 1 && Carries(b.flags) && b.members[0].txid[0] >= 128
    requires b.groupIdx == GroupIndex(b.members[0].txid, b.shardBits)
    ensures var out := Rebucket(c, seqs, sender, b, sha).0;
      out != [] && forall e :: e in out ==> e.bundle.groupIdx / Pow2(c.bits - b.shardBits) != b.groupIdx
  {
    hide Rebucket, Pow2, GroupIndex;
    var out, fs := Rebucket(c, seqs, sender, b, sha).0, Decoalesce(b, sha);
    RebucketConserves(c, seqs, sender, b, sha);
    assert out != [] by { SomeMember(fs); }
    forall e | e in out ensures e.bundle.groupIdx / Pow2(c.bits - b.shardBits) != b.groupIdx {
      RebucketGroup(c, seqs, sender, b, sha, e);
      SixteenBitsShort(b.members[0].txid, b.shardBits, c.bits);
    }
  }

  lemma {:induction false} SomeMember(fs: seq<TxFrame>)
    requires fs != []
    ensures multiset(MembersIn(fs)) != multiset(MembersOut([]))
  {
    assert MembersIn(fs) != [];
    assert MembersIn(fs)[0] in multiset(MembersIn(fs));
  }
}
