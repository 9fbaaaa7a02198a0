/** The evaluator object, with its timers and last adopted values. A pass also returns, as a ghost,
    the candidates it took where several lead. */
module EvaluatorObject {
  import opened Bytes
  import opened Domains
  import opened ManifestCodec
  import opened Registry
  import opened Evaluator
  import opened EvaluatorTally

  // ---- composing timer updates ----------------------------------------------------------

  lemma {:induction false} TimersCompose(t: map<TimerKey, int>, k1: set<TimerKey>, c1: set<Field>, k2: set<TimerKey>,
                                         c2: set<Field>, now: int)
    requires forall k :: k in k2 ==> k.field !in c1
    ensures Timers(Timers(t, k1, c1, now), k2, c2, now) == Timers(t, k1 + k2, c1 + c2, now)
  {
  }

  /** Updates of other fields leave a timer as it was. */
  ghost predicate SameFor(t: map<TimerKey, int>, u: map<TimerKey, int>, f: Field) {
    forall k: TimerKey :: k.field == f ==> (k in t <==> k in u) && (k in t ==> t[k] == u[k])
  }

  lemma {:induction false} Untouched(t: map<TimerKey, int>, ks: set<TimerKey>, cs: set<Field>, now: int, f: Field)
    requires f !in cs && forall k :: k in ks ==> k.field != f
    ensures SameFor(t, Timers(t, ks, cs, now), f)
  {
  }

  lemma {:induction false} ElapsedSame(t: map<TimerKey, int>, u: map<TimerKey, int>, k: TimerKey, now: int, window: int)
    requires SameFor(t, u, k.field)
    ensures Elapsed(t, k, now, window) == Elapsed(u, k, now, window)
  {
  }

  // ---- choices for one plane ------------------------------------------------------------

  const NO_KEY := SuccKey(Zeros(16), 0, 0, false)

  function PlanesOnly(ps: map<byte, PlaneTies>): Ties {
    Ties(0, false, NO_KEY, ps)
  }

  function PlaneClearing(c: Config, es: seq<Entry>, id: byte): set<Field> {
    if PlaneClears(c, es, id) then {PlaneSuccessor(id)} else {}
  }

  /** A plane's outcome depends on its own previous view, timers and choices alone. */
  lemma {:induction false} PlaneLocal(c: Config, st: State, sv: State, es: seq<Entry>, now: int, t: Ties, u: Ties,
                                      id: byte)
    requires PlaneBefore(st, id) == PlaneBefore(sv, id) && TieFor(t, id) == TieFor(u, id)
    requires forall f :: f in {PlaneShardBits(id), PlaneSourceMode(id), PlaneSuccessor(id)} ==>
      SameFor(st.timers, sv.timers, f)
    ensures PlaneAfter(c, st, es, now, t, id) == PlaneAfter(c, sv, es, now, u, id)
    ensures PlaneCalls(c, st, es, now, t, id) == PlaneCalls(c, sv, es, now, u, id)
  {
    hide SaidOf, PlaneBits, PlaneModes, PlaneSuccs, HasQuorum, Disagree, Dissents, SuccHash, Votes, PlaneClears,
      SameFor, Window, TieFor, Elapsed;
    var p, ss := TieFor(t, id), SaidOf(es, id);
    ElapsedSame(st.timers, sv.timers, TimerKey(PlaneShardBits(id), p.bits), now,
                Window(c, IntervalOf(PlaneBits(ss), p.bits)));
    ElapsedSame(st.timers, sv.timers, TimerKey(PlaneSourceMode(id), BoolCode(p.ssm)), now,
                Window(c, IntervalOf(PlaneModes(ss), p.ssm)));
    ElapsedSame(st.timers, sv.timers, TimerKey(PlaneSuccessor(id), SuccHash(p.succ)), now,
                Window(c, IntervalOf(PlaneSuccs(ss), p.succ)));
  }

  /** The three rules of an announced, unpinned plane, run one after the other, make up the
      plane's outcome. */
  lemma {:induction false} PlaneSteps(c: Config, st: State, es: seq<Entry>, now: int, id: byte, p: PlaneTies,
                                      t1: map<TimerKey, int>, t2: map<TimerKey, int>, t3: map<TimerKey, int>,
                                      bits: byte, mode: bool, view: Option<View>)
    requires Votes(c, es, id)
    requires var bs := PlaneBits(SaidOf(es, id));
      var met, k := HasQuorum(bs, c.quorum), TimerKey(PlaneShardBits(id), p.bits);
      && t1 == Timers(st.timers, if met then {k} else {}, {}, now)
      && bits == if met && Elapsed(st.timers, k, now, Window(c, IntervalOf(bs, p.bits))) then p.bits
           else PlaneBefore(st, id).shardBits
    requires var bs := PlaneModes(SaidOf(es, id));
      var met, k := HasQuorum(bs, c.quorum), TimerKey(PlaneSourceMode(id), BoolCode(p.ssm));
      && t2 == Timers(t1, if met then {k} else {}, {}, now)
      && mode == if met && Elapsed(t1, k, now, Window(c, IntervalOf(bs, p.ssm))) then p.ssm else PlaneBefore(st, id).ssm
    requires var bs, was := PlaneSuccs(SaidOf(es, id)), PlaneBefore(st, id).successor;
      var quorum := HasQuorum(bs, c.quorum);
      var elapsed := SuccTimerElapsed(t2, PlaneSuccessor(id), quorum, bits, p.succ, now,
                                      Window(c, IntervalOf(bs, p.succ)));
      && t3 == Timers(t2, SuccTimer(PlaneSuccessor(id), quorum, bits, p.succ),
                      if bs == [] then {PlaneSuccessor(id)} else {}, now)
      && view == (if elapsed then Install(was, p.succ, now) else if bs == [] then None else was)
    ensures var t := PlanesOnly(map[id := p]);
      && bits == PlaneNewBits(c, st, es, now, t, id)
      && mode == PlaneNewMode(c, st, es, now, t, id)
      && view == PlaneNewSuccessor(c, st, es, now, t, id)
      && t3 == Timers(st.timers, PlaneCalls(c, st, es, now, t, id), PlaneClearing(c, es, id), now)
  {
    hide SaidOf, PlaneBits, PlaneModes, PlaneSuccs, HasQuorum, SuccHash, Window, Timers, SameFor, Elapsed, Install,
      Announced, IntervalOf, WithinOneBit;
    var ss, t := SaidOf(es, id), PlanesOnly(map[id := p]);
    var none: set<Field> := {};
    assert none + none == none;
    assert TieFor(t, id) == p;
    var k1 := Opt(PlaneBitsCall(c, es, t, id));
    var k2 := Opt(PlaneModeCall(c, es, t, id));
    var k3 := Opt(PlaneSuccCall(c, st, es, now, t, id));
    Untouched(st.timers, k1, {}, now, PlaneSourceMode(id));
    ElapsedSame(st.timers, t1, TimerKey(PlaneSourceMode(id), BoolCode(p.ssm)), now,
                Window(c, IntervalOf(PlaneModes(ss), p.ssm)));
    TimersCompose(st.timers, k1, {}, k2, {}, now);
    Untouched(st.timers, k1 + k2, {}, now, PlaneSuccessor(id));
    assert t2 == Timers(st.timers, k1 + k2, {}, now);
    ElapsedSame(st.timers, t2, TimerKey(PlaneSuccessor(id), SuccHash(p.succ)), now,
                Window(c, IntervalOf(PlaneSuccs(ss), p.succ)));
    TimersCompose(st.timers, k1 + k2, {}, k3, PlaneClearing(c, es, id), now);
    assert {} + PlaneClearing(c, es, id) == PlaneClearing(c, es, id);
  }

  /** Announced descriptors give a choice for every rule of the plane. */
  lemma {:induction false} PlaneLeaders(c: Config, es: seq<Entry>, id: byte) returns (p: PlaneTies)
    ensures PlaneTiesOk(c, es, p, id)
  {
    hide SaidOf, PlaneBits, PlaneModes, PlaneSuccs, HasQuorum, Leads;
    var ss := SaidOf(es, id);
    var bits := ALeader(PlaneBits(ss), c.quorum, 0);
    var ssm := ALeader(PlaneModes(ss), c.quorum, false);
    var succ := ALeader(PlaneSuccs(ss), c.quorum, NO_KEY);
    p := PlaneTies(bits, ssm, succ);
  }

  // ---- all planes -----------------------------------------------------------------------

  /** The timers the planes `ids` consult. */
  ghost function PlanesCall(c: Config, st: State, es: seq<Entry>, now: int, t: Ties, ids: set<byte>): set<TimerKey> {
    set id, k | id in ids && k in PlaneCalls(c, st, es, now, t, id) :: k
  }

  ghost function PlanesClear(c: Config, es: seq<Entry>, ids: set<byte>): set<Field> {
    set id | id in ids && PlaneClears(c, es, id) :: PlaneSuccessor(id)
  }

  lemma {:induction false} OwnFields(c: Config, st: State, es: seq<Entry>, now: int, t: Ties, id: byte, k: TimerKey)
    requires k in PlaneCalls(c, st, es, now, t, id)
    ensures k.field in {PlaneShardBits(id), PlaneSourceMode(id), PlaneSuccessor(id)}
  {
    hide Votes, HasQuorum, SaidOf, PlaneBits, PlaneModes, PlaneSuccs, SuccHash, PlaneNewBits;
  }

  /** Updates by the planes `done` do not touch the timers of another plane. */
  lemma {:induction false} OtherPlanes(c: Config, st: State, es: seq<Entry>, now: int, t: Ties, done: set<byte>,
                                       id: byte, f: Field)
    requires id !in done && f in {PlaneShardBits(id), PlaneSourceMode(id), PlaneSuccessor(id)}
    ensures SameFor(st.timers, Timers(st.timers, PlanesCall(c, st, es, now, t, done), PlanesClear(c, es, done), now), f)
  {
    hide PlaneCalls, PlaneClears, SameFor;
    var ks := PlanesCall(c, st, es, now, t, done);
    forall k | k in ks ensures k.field != f {
      var d :| d in done && k in PlaneCalls(c, st, es, now, t, d);
      OwnFields(c, st, es, now, t, d, k);
    }
    Untouched(st.timers, ks, PlanesClear(c, es, done), now, f);
  }

  /** What holds once the planes `done` have been evaluated. */
  ghost predicate PlanesDone(c: Config, st: State, es: seq<Entry>, now: int, ps: map<byte, PlaneTies>, done: set<byte>,
                             timers: map<TimerKey, int>, out: map<byte, Plane>)
  {
    var t := PlanesOnly(ps);
    && ps.Keys == done
    && timers == Timers(st.timers, PlanesCall(c, st, es, now, t, done), PlanesClear(c, es, done), now)
    && out.Keys == done
    && forall id :: id in done ==> out[id] == PlaneAfter(c, st, es, now, t, id) && PlaneTiesOk(c, es, ps[id], id)
  }

  lemma {:induction false} NonePlanesDone(c: Config, st: State, es: seq<Entry>, now: int)
    ensures PlanesDone(c, st, es, now, map[], {}, st.timers, map[])
  {
    hide PlaneCalls, PlaneClears, PlaneAfter, PlaneTiesOk;
  }

  /** One plane's outcome: its view, its timers, and choices that lead. */
  ghost predicate PlaneDone(c: Config, st: State, es: seq<Entry>, now: int, id: byte, p: PlaneTies, da: Plane,
                            timers: map<TimerKey, int>)
  {
    var t := PlanesOnly(map[id := p]);
    && PlaneTiesOk(c, es, p, id)
    && da == PlaneAfter(c, st, es, now, t, id)
    && timers == Timers(st.timers, PlaneCalls(c, st, es, now, t, id), PlaneClearing(c, es, id), now)
  }

  /** A pinned or silent plane keeps its mode, its successor and all timers. */
  lemma {:induction false} PlaneUnvoted(c: Config, st: State, es: seq<Entry>, now: int, id: byte, p: PlaneTies,
                                        da: Plane)
    requires !Votes(c, es, id) && PlaneTiesOk(c, es, p, id)
    requires id !in c.pinPlanes ==> SaidOf(es, id) == []
    requires var was, bs := PlaneBefore(st, id), PlaneBits(SaidOf(es, id));
      da == if id in c.pinPlanes
            then Plane(c.pinPlanes[id], was.ssm, was.successor, true,
                       SaidOf(es, id) != [] && Dissents(bs, c.pinPlanes[id]))
            else Plane(was.shardBits, was.ssm, was.successor, false, false)
    ensures PlaneDone(c, st, es, now, id, p, da, st.timers)
  {
    hide SaidOf, PlaneModes, PlaneSuccs, HasQuorum, Announced, PlaneTiesOk, Timers, SuccHash, Window, IntervalOf,
      Elapsed;
    Unsaid(SaidOf(es, id));
    hide PlaneBits, Disagree, Dissents;
    NoTimers(st.timers, now);
  }

  lemma {:induction false} NextPlaneDone(c: Config, st: State, es: seq<Entry>, now: int, ps: map<byte, PlaneTies>,
                                         done: set<byte>,
                                         timers: map<TimerKey, int>, out: map<byte, Plane>,
                                         sv: State, id: byte, p: PlaneTies, after: map<TimerKey, int>, da: Plane)
    requires PlanesDone(c, st, es, now, ps, done, timers, out) && id !in done
    requires sv.timers == timers && PlaneBefore(sv, id) == PlaneBefore(st, id)
    requires PlaneDone(c, sv, es, now, id, p, da, after)
    ensures PlanesDone(c, st, es, now, ps[id := p], done + {id}, after, out[id := da])
  {
    hide PlaneCalls, PlaneClears, PlaneAfter, PlaneTiesOk, SameFor, Timers, PlaneBefore;
    var t, u := PlanesOnly(ps), PlanesOnly(ps[id := p]);
    forall f | f in {PlaneShardBits(id), PlaneSourceMode(id), PlaneSuccessor(id)}
      ensures SameFor(st.timers, sv.timers, f)
    {
      OtherPlanes(c, st, es, now, t, done, id, f);
    }
    PlaneLocal(c, st, sv, es, now, u, PlanesOnly(map[id := p]), id);
    forall d | d in done
      ensures PlaneAfter(c, st, es, now, t, d) == PlaneAfter(c, st, es, now, u, d)
      ensures PlaneCalls(c, st, es, now, t, d) == PlaneCalls(c, st, es, now, u, d)
    {
      SameTimers(st.timers);
      PlaneLocal(c, st, st, es, now, t, u, d);
    }
    JoinTimers(c, st, es, now, t, u, done, id, timers, after);
  }

  lemma {:induction false} SameTimers(t: map<TimerKey, int>)
    ensures forall f :: SameFor(t, t, f)
  {
  }

  lemma {:induction false} JoinTimers(c: Config, st: State, es: seq<Entry>, now: int, t: Ties, u: Ties,
                                      done: set<byte>, id: byte,
                                      timers: map<TimerKey, int>, after: map<TimerKey, int>)
    requires id !in done
    requires timers == Timers(st.timers, PlanesCall(c, st, es, now, t, done), PlanesClear(c, es, done), now)
    requires forall d :: d in done ==> PlaneCalls(c, st, es, now, t, d) == PlaneCalls(c, st, es, now, u, d)
    requires after == Timers(timers, PlaneCalls(c, st, es, now, u, id), PlaneClearing(c, es, id), now)
    ensures after == Timers(st.timers, PlanesCall(c, st, es, now, u, done + {id}), PlanesClear(c, es, done + {id}), now)
  {
    hide PlaneCalls, PlaneClears, Timers;
    var ks, cs := PlanesCall(c, st, es, now, t, done), PlanesClear(c, es, done);
    var more := PlaneCalls(c, st, es, now, u, id);
    forall k | k in more ensures k.field !in cs {
      OwnFields(c, st, es, now, u, id, k);
    }
    TimersCompose(st.timers, ks, cs, more, PlaneClearing(c, es, id), now);
    assert ks == PlanesCall(c, st, es, now, u, done);
    assert PlanesCall(c, st, es, now, u, done + {id}) == ks + more;
    assert PlanesClear(c, es, done + {id}) == cs + PlaneClearing(c, es, id);
  }

  function MetOf(ps: map<byte, Plane>): map<Field, bool> {
    map id | id in ps :: PlaneShardBits(id) := ps[id].quorumMet
  }

  function DivergentOf(ps: map<byte, Plane>): set<Field> {
    set id | id in ps && ps[id].divergent :: PlaneShardBits(id)
  }

  lemma {:induction false} ReportedNext(ps: map<byte, Plane>, id: byte, p: Plane)
    requires id !in ps
    ensures MetOf(ps[id := p]) == MetOf(ps)[PlaneShardBits(id) := p.quorumMet]
    ensures DivergentOf(ps[id := p]) == DivergentOf(ps) + if p.divergent then {PlaneShardBits(id)} else {}
  {
    var q := ps[id := p];
    assert forall d :: d in q <==> d in ps || d == id;
    assert forall d :: d in ps ==> q[d] == ps[d];
  }

  // ---- the transaction plane ------------------------------------------------------------

  ghost function TopCleared(c: Config, es: seq<Entry>): set<Field> {
    if HasQuorum(SuccBallots(es), c.quorum) then {} else {TopSuccessor}
  }

  /** The width rule: which timer it consults and what width it keeps. */
  ghost predicate BitsStep(c: Config, es: seq<Entry>, now: int, tie: byte, t0: map<TimerKey, int>,
                           t1: map<TimerKey, int>, was: byte, bits: byte)
  {
    var k := TimerKey(ShardBits, tie);
    var call := c.pinBits.None? && HasQuorum(BitsBallots(es), c.quorum) && (k in t0 ==> t0[k] <= now);
    && t1 == Timers(t0, if call then {k} else {}, {}, now)
    && bits == if call && Elapsed(t0, k, now, Window(c, IntervalOf(BitsBallots(es), tie))) then tie else was
  }

  ghost predicate ModeStep(c: Config, es: seq<Entry>, now: int, tie: bool, t0: map<TimerKey, int>,
                           t1: map<TimerKey, int>, was: bool, ssm: bool)
  {
    var k := TimerKey(SourceMode, BoolCode(tie));
    var call := c.pinMode.None? && HasQuorum(ModeBallots(es), c.quorum);
    && t1 == Timers(t0, if call then {k} else {}, {}, now)
    && ssm == if call && Elapsed(t0, k, now, Window(c, IntervalOf(ModeBallots(es), tie))) then tie else was
  }

  ghost predicate SuccStep(c: Config, es: seq<Entry>, now: int, tie: SuccKey, width: byte, t0: map<TimerKey, int>,
                           t1: map<TimerKey, int>,
                           was: Option<View>, view: Option<View>, out: Option<View>)
  {
    var quorum := HasQuorum(SuccBallots(es), c.quorum);
    var elapsed := SuccTimerElapsed(t0, TopSuccessor, quorum, width, tie, now,
                                    Window(c, IntervalOf(SuccBallots(es), tie)));
    && t1 == Timers(t0, SuccTimer(TopSuccessor, quorum, width, tie), if quorum then {} else {TopSuccessor}, now)
    && view == (if !quorum then None else if elapsed then Install(was, tie, now) else was)
    && out == (if elapsed then view else None)
  }

  /** The three rules of the transaction plane, run one after the other. */
  lemma {:induction false} TopSteps(c: Config, st: State, es: seq<Entry>, now: int, t: Ties,
                                    t1: map<TimerKey, int>, t2: map<TimerKey, int>, t3: map<TimerKey, int>,
                                    bits: byte, ssm: bool, view: Option<View>, out: Option<View>)
    requires BitsStep(c, es, now, t.bits, st.timers, t1, st.shardBits, bits)
    requires ModeStep(c, es, now, t.ssm, t1, t2, st.ssm, ssm)
    requires SuccStep(c, es, now, t.succ, if c.pinBits.Some? then c.pinBits.value else bits, t2, t3, st.successor,
                      view, out)
    ensures bits == KeptBits(c, st, es, now, t) && ssm == KeptMode(c, st, es, now, t)
      && view == KeptSuccessor(c, st, es, now, t)
    ensures out == if SuccElapsed(c, st, es, now, t) then KeptSuccessor(c, st, es, now, t) else None
    ensures t3 == Timers(st.timers, TopCalls(c, st, es, now, t), TopCleared(c, es), now)
    ensures OutBits(c, st, es, now, t) == if c.pinBits.Some? then c.pinBits.value else bits
  {
    hide BitsBallots, ModeBallots, SuccBallots, HasQuorum, SuccHash, Window, Timers, SameFor, Elapsed, Install,
      IntervalOf, WithinOneBit;
    var none: set<Field> := {};
    assert none + none == none;
    var k1, k2, k3 := Opt(BitsCall(c, st, es, now, t)), Opt(ModeCall(c, es, t)), Opt(SuccCall(c, st, es, now, t));
    Untouched(st.timers, k1, {}, now, SourceMode);
    ElapsedSame(st.timers, t1, TimerKey(SourceMode, BoolCode(t.ssm)), now,
                Window(c, IntervalOf(ModeBallots(es), t.ssm)));
    TimersCompose(st.timers, k1, {}, k2, {}, now);
    assert t2 == Timers(st.timers, k1 + k2, {}, now);
    Untouched(st.timers, k1 + k2, {}, now, TopSuccessor);
    ElapsedSame(st.timers, t2, TimerKey(TopSuccessor, SuccHash(t.succ)), now,
                Window(c, IntervalOf(SuccBallots(es), t.succ)));
    TimersCompose(st.timers, k1 + k2, {}, k3, TopCleared(c, es), now);
    assert none + TopCleared(c, es) == TopCleared(c, es);
  }

  lemma {:induction false} TopFields(c: Config, st: State, es: seq<Entry>, now: int, t: Ties, f: Field)
    requires f !in {ShardBits, SourceMode, TopSuccessor}
    ensures SameFor(st.timers, Timers(st.timers, TopCalls(c, st, es, now, t), TopCleared(c, es), now), f)
  {
    hide HasQuorum, SameFor, SuccHash, OutBits;
    Untouched(st.timers, TopCalls(c, st, es, now, t), TopCleared(c, es), now, f);
  }

  /** The planes, evaluated after the transaction plane's rules, complete the pass. */
  lemma {:induction false} PassJoins(c: Config, st: State, sv: State, es: seq<Entry>, now: int, t: Ties,
                                     timers: map<TimerKey, int>, planes: map<byte, Plane>)
    requires sv.planes == st.planes
    requires sv.timers == Timers(st.timers, TopCalls(c, st, es, now, t), TopCleared(c, es), now)
    requires PlanesDone(c, sv, es, now, t.planes, PlaneIds(c, sv, es), timers, planes)
    ensures timers == Timers(st.timers, Called(c, st, es, now, t), Cleared(c, st, es), now)
    ensures planes == map id | id in PlaneIds(c, st, es) :: PlaneAfter(c, st, es, now, t, id)
    ensures forall id :: id in Announced(es) ==> PlaneTiesOk(c, es, TieFor(t, id), id)
  {
    hide TopCalls, TopCleared, PlaneCalls, PlaneClears, PlaneAfter, PlaneTiesOk, Timers, SameFor, Announced, HasQuorum;
    var ids, u := PlaneIds(c, st, es), PlanesOnly(t.planes);
    assert PlaneIds(c, sv, es) == ids;
    forall id | id in ids
      ensures PlaneAfter(c, sv, es, now, u, id) == PlaneAfter(c, st, es, now, t, id)
      ensures PlaneCalls(c, sv, es, now, u, id) == PlaneCalls(c, st, es, now, t, id)
    {
      forall f | f in {PlaneShardBits(id), PlaneSourceMode(id), PlaneSuccessor(id)}
        ensures SameFor(st.timers, sv.timers, f)
      {
        TopFields(c, st, es, now, t, f);
      }
      PlaneLocal(c, st, sv, es, now, t, u, id);
    }
    var ks, cs := PlanesCall(c, sv, es, now, u, ids), PlanesClear(c, es, ids);
    assert Called(c, st, es, now, t) == TopCalls(c, st, es, now, t) + ks;
    ClearedJoins(c, st, es);
    forall k | k in ks ensures k.field !in TopCleared(c, es) {
      var id :| id in ids && k in PlaneCalls(c, sv, es, now, u, id);
      NotTop(c, sv, es, now, u, id, k);
    }
    TimersCompose(st.timers, TopCalls(c, st, es, now, t), TopCleared(c, es), ks, cs, now);
  }

  lemma {:induction false} ClearedJoins(c: Config, st: State, es: seq<Entry>)
    ensures Cleared(c, st, es) == TopCleared(c, es) + PlanesClear(c, es, PlaneIds(c, st, es))
  {
    hide HasQuorum, PlaneClears, PlaneIds;
  }

  lemma {:induction false} NotTop(c: Config, st: State, es: seq<Entry>, now: int, t: Ties, id: byte, k: TimerKey)
    requires k in PlaneCalls(c, st, es, now, t, id)
    ensures k.field !in TopCleared(c, es)
  {
    hide PlaneCalls, HasQuorum;
    OwnFields(c, st, es, now, t, id, k);
  }

  // ---- the object -----------------------------------------------------------------------

  /** The timer a successor candidate consults on `field`, if it lies within one bit. */
  function SuccTimer(field: Field, met: bool, bits: byte, key: SuccKey): set<TimerKey> {
    if met && WithinOneBit(bits, key.shardBits) then {TimerKey(field, SuccHash(key))} else {}
  }

  predicate SuccTimerElapsed(timers: map<TimerKey, int>, field: Field, met: bool, bits: byte, key: SuccKey, now: int,
                             window: int)
  {
    met && WithinOneBit(bits, key.shardBits) && Elapsed(timers, TimerKey(field, SuccHash(key)), now, window)
  }

  class Instance {
    const cfg: Config
    var timers: map<TimerKey, int>
    var shardBits: byte
    var ssm: bool
    var successor: Option<View>
    var planes: map<byte, Plane>

    function Current(): State
      reads this
    {
      State(timers, shardBits, ssm, successor, planes)
    }

    /** The transaction plane is never adopted as an object plane. */
    ghost predicate Valid()
      reads this
    {
      ValidConfig(cfg) && 0 !in planes
    }

    constructor (quorum: int, c: Config)
      ensures Valid() && cfg == c.(quorum := if quorum <= 0 then 2 else quorum) && Current() == INITIAL
    {
      cfg := c.(quorum := if quorum <= 0 then 2 else quorum);
      timers, shardBits, ssm, successor, planes := map[], 0, false, None, map[];
    }

    /** Whether the candidate's timer has run its window; starts the timer if there is none. */
    method Consult(k: TimerKey, now: int, interval: u16) returns (elapsed: bool)
      modifies `timers
      ensures elapsed == Elapsed(old(timers), k, now, Window(cfg, interval))
      ensures timers == Timers(old(timers), {k}, {}, now)
    {
      if k !in timers {
        timers := timers[k := now];
        elapsed := cfg.hysteresis == 0 && interval == 0;
        return;
      }
      var window := cfg.hysteresis;
      if window == 0 {
        window := 2 * interval * SECOND;
      }
      elapsed := now - timers[k] >= window;
    }

    method ClearField(f: Field, now: int)
      modifies `timers
      ensures timers == Timers(old(timers), {}, {f}, now)
    {
      var left := timers.Keys;
      while left != {}
        invariant left <= timers.Keys <= old(timers.Keys)
        invariant forall k :: k in timers ==> timers[k] == old(timers)[k]
        invariant forall k :: k in old(timers) && k !in timers ==> k.field == f
        invariant forall k :: k in timers && k !in left ==> k.field != f
      {
        var k :| k in left;
        left := left - {k};
        if k.field == f {
          timers := timers - {k};
        }
      }
    }

    /** The rule for the transaction plane's width. */
    method AdoptBits(m: map<byte, Tally>, now: int, ghost es: seq<Entry>)
      returns (bits: byte, met: bool, diverges: bool, ghost tie: byte)
      requires ValidConfig(cfg) && m == TallyOf(BitsBallots(es))
      modifies `timers, `shardBits
      ensures HasQuorum(BitsBallots(es), cfg.quorum) ==> Leads(BitsBallots(es), cfg.quorum, tie)
      ensures met <==> cfg.pinBits.Some? || HasQuorum(BitsBallots(es), cfg.quorum)
      ensures diverges <==>
        if cfg.pinBits.Some? then Dissents(BitsBallots(es), cfg.pinBits.value) else Disagree(BitsBallots(es))
      ensures bits == if cfg.pinBits.Some? then cfg.pinBits.value else shardBits
      ensures BitsStep(cfg, es, now, tie, old(timers), timers, old(shardBits), shardBits)
    {
      hide HasQuorum, Leads, TallyOf, Window, BitsBallots, Disagree, Dissents, Timers, Elapsed;
      ghost var bs := BitsBallots(es);
      NoTimers(timers, now);
      if cfg.pinBits.Some? {
        bits, met := cfg.pinBits.value, true;
        diverges := AnyOther(m, bits, bs);
        tie := ALeader(bs, cfg.quorum, 0);
        return;
      }
      var best := Best(m, cfg.quorum, bs);
      met, tie := best.Some?, if best.Some? then best.value else 0;
      if best.Some? {
        var k := TimerKey(ShardBits, best.value);
        if k in timers && timers[k] > now {
          bits := shardBits;
        } else {
          var elapsed := Consult(k, now, m[best.value].interval);
          if elapsed {
            shardBits := best.value;
          }
          bits := shardBits;
        }
      } else {
        bits := shardBits;
      }
      diverges := |m| > 1;
      ManyMeansDisagree(bs);
    }

    method AdoptMode(m: map<bool, Tally>, now: int, ghost es: seq<Entry>)
      returns (mode: bool, met: bool, diverges: bool, ghost tie: bool)
      requires ValidConfig(cfg) && m == TallyOf(ModeBallots(es))
      modifies `timers, `ssm
      ensures HasQuorum(ModeBallots(es), cfg.quorum) ==> Leads(ModeBallots(es), cfg.quorum, tie)
      ensures met <==> cfg.pinMode.Some? || HasQuorum(ModeBallots(es), cfg.quorum)
      ensures diverges <==>
        if cfg.pinMode.Some? then Dissents(ModeBallots(es), cfg.pinMode.value)
        else HasQuorum(ModeBallots(es), cfg.quorum) && Disagree(ModeBallots(es))
      ensures mode == if cfg.pinMode.Some? then cfg.pinMode.value else ssm
      ensures ModeStep(cfg, es, now, tie, old(timers), timers, old(ssm), ssm)
    {
      hide HasQuorum, Leads, TallyOf, Window, ModeBallots, Disagree, Dissents;
      ghost var bs := ModeBallots(es);
      if cfg.pinMode.Some? {
        mode, met := cfg.pinMode.value, true;
        diverges := AnyOther(m, mode, bs);
        tie := ALeader(bs, cfg.quorum, false);
        return;
      }
      var best := Best(m, cfg.quorum, bs);
      met, tie := best.Some?, if best.Some? then best.value else false;
      if best.Some? {
        var elapsed := Consult(TimerKey(SourceMode, BoolCode(best.value)), now, m[best.value].interval);
        if elapsed {
          ssm := best.value;
        }
      }
      mode := ssm;
      diverges := met && |m| > 1;
      ManyMeansDisagree(bs);
    }

    /** Consults a successor candidate's timer if it lies within one bit, and installs it. */
    method TrySuccessor(field: Field, key: SuccKey, bits: byte, interval: u16, now: int, was: Option<View>)
      returns (view: Option<View>, elapsed: bool)
      modifies `timers
      ensures timers == Timers(old(timers), SuccTimer(field, true, bits, key), {}, now)
      ensures elapsed <==> SuccTimerElapsed(old(timers), field, true, bits, key, now, Window(cfg, interval))
      ensures view == if elapsed then Install(was, key, now) else was
    {
      hide SuccHash, Window;
      view, elapsed := was, false;
      if WithinOneBit(bits, key.shardBits) {
        var hash := SuccessorHash(key);
        elapsed := Consult(TimerKey(field, hash), now, interval);
        if elapsed && (was.None? || was.value.key.generation != key.generation) {
          view := Some(View(key, now));
        }
      }
    }

    method AdoptSuccessor(m: map<SuccKey, Tally>, bits: byte, now: int, ghost es: seq<Entry>)
      returns (out: Option<View>, met: bool, ghost tie: SuccKey)
      requires ValidConfig(cfg) && m == TallyOf(SuccBallots(es))
      modifies `timers, `successor
      ensures HasQuorum(SuccBallots(es), cfg.quorum) ==> Leads(SuccBallots(es), cfg.quorum, tie)
      ensures met <==> HasQuorum(SuccBallots(es), cfg.quorum) && WithinOneBit(bits, tie.shardBits)
      ensures SuccStep(cfg, es, now, tie, bits, old(timers), timers, old(successor), successor, out)
    {
      hide HasQuorum, Leads, TallyOf, Window, SuccBallots, SuccHash;
      ghost var bs := SuccBallots(es);
      tie := NO_KEY;
      out, met := None, false;
      var best := Best(m, cfg.quorum, bs);
      if best.Some? {
        tie := best.value;
        met := WithinOneBit(bits, best.value.shardBits);
        var elapsed;
        successor, elapsed := TrySuccessor(TopSuccessor, best.value, bits, m[best.value].interval, now, successor);
        out := if elapsed then successor else None;
      } else {
        successor := None;
        ClearField(TopSuccessor, now);
      }
    }

    // ---- object planes ------------------------------------------------------------------

    method PlaneWidth(id: byte, m: map<byte, Tally>, was: byte, now: int, ghost ss: seq<Said>)
      returns (bits: byte, met: bool, ghost tie: byte)
      requires ValidConfig(cfg) && m == TallyOf(PlaneBits(ss))
      modifies `timers
      ensures met <==> HasQuorum(PlaneBits(ss), cfg.quorum)
      ensures met ==> Leads(PlaneBits(ss), cfg.quorum, tie)
      ensures var k := TimerKey(PlaneShardBits(id), tie);
        && timers == Timers(old(timers), if met then {k} else {}, {}, now)
        && bits == if met && Elapsed(old(timers), k, now, Window(cfg, IntervalOf(PlaneBits(ss), tie))) then tie else was
    {
      hide HasQuorum, Leads, TallyOf, Window, PlaneBits;
      bits := was;
      var best := Best(m, cfg.quorum, PlaneBits(ss));
      met, tie := best.Some?, if best.Some? then best.value else 0;
      if best.Some? {
        var elapsed := Consult(TimerKey(PlaneShardBits(id), best.value), now, m[best.value].interval);
        if elapsed {
          bits := best.value;
        }
      }
    }

    method PlaneMode(id: byte, m: map<bool, Tally>, was: bool, now: int, ghost ss: seq<Said>)
      returns (mode: bool, ghost tie: bool)
      requires ValidConfig(cfg) && m == TallyOf(PlaneModes(ss))
      modifies `timers
      ensures var met, k := HasQuorum(PlaneModes(ss), cfg.quorum), TimerKey(PlaneSourceMode(id), BoolCode(tie));
        && (met ==> Leads(PlaneModes(ss), cfg.quorum, tie))
        && timers == Timers(old(timers), if met then {k} else {}, {}, now)
        && mode == if met && Elapsed(old(timers), k, now, Window(cfg, IntervalOf(PlaneModes(ss), tie))) then tie
             else was
    {
      hide HasQuorum, Leads, TallyOf, Window, PlaneModes;
      mode := was;
      var best := Best(m, cfg.quorum, PlaneModes(ss));
      tie := if best.Some? then best.value else false;
      if best.Some? {
        var elapsed := Consult(TimerKey(PlaneSourceMode(id), BoolCode(best.value)), now, m[best.value].interval);
        if elapsed {
          mode := best.value;
        }
      }
    }

    method PlaneTransition(id: byte, m: map<SuccKey, Tally>, bits: byte, was: Option<View>, now: int,
                           ghost ss: seq<Said>)
      returns (view: Option<View>, ghost tie: SuccKey)
      requires ValidConfig(cfg) && m == TallyOf(PlaneSuccs(ss))
      modifies `timers
      ensures var bs := PlaneSuccs(ss);
        var quorum := HasQuorum(bs, cfg.quorum);
        var elapsed := SuccTimerElapsed(old(timers), PlaneSuccessor(id), quorum, bits, tie, now,
                                        Window(cfg, IntervalOf(bs, tie)));
        && (quorum ==> Leads(bs, cfg.quorum, tie))
        && timers == Timers(old(timers), SuccTimer(PlaneSuccessor(id), quorum, bits, tie),
                            if bs == [] then {PlaneSuccessor(id)} else {}, now)
        && view == (if elapsed then Install(was, tie, now) else if bs == [] then None else was)
    {
      hide Leads, TallyOf, Window, PlaneSuccs, SuccHash, Count;
      ghost var bs := PlaneSuccs(ss);
      tie := NO_KEY;
      view := was;
      NoBallots(bs, cfg.quorum);
      hide HasQuorum;
      var best := Best(m, cfg.quorum, bs);
      if best.Some? {
        tie := best.value;
        var elapsed;
        view, elapsed := TrySuccessor(PlaneSuccessor(id), best.value, bits, m[best.value].interval, now, was);
      } else if |m| == 0 {
        view := None;
        ClearField(PlaneSuccessor(id), now);
      }
    }

    /** The three rules of an announced, unpinned plane. */
    method EvaluateAnnounced(id: byte, dt: PlaneTally, now: int, ghost es: seq<Entry>)
      returns (da: Plane, ghost tie: PlaneTies)
      requires Valid() && Votes(cfg, es, id) && dt == PlaneTallyOf(SaidOf(es, id))
      modifies `timers
      ensures PlaneDone(cfg, old(Current()), es, now, id, tie, da, timers)
    {
      hide SaidOf, PlaneBits, PlaneModes, PlaneSuccs, HasQuorum, Leads, Announced, TallyOf, Disagree, Dissents,
        SuccHash,
        SuccTimer, SuccTimerElapsed, Window, IntervalOf, Elapsed, Timers, Install, PlaneCalls, PlaneClearing;
      ghost var ss, st := SaidOf(es, id), Current();
      da := if id in planes then planes[id] else NO_PLANE;
      ghost var tb, tm, ts;
      var bits, mode, view, met;
      bits, met, tb := PlaneWidth(id, dt.bits, da.shardBits, now, ss);
      ghost var t1 := timers;
      mode, tm := PlaneMode(id, dt.modes, da.ssm, now, ss);
      ghost var t2 := timers;
      view, ts := PlaneTransition(id, dt.succs, bits, da.successor, now, ss);
      da := Plane(bits, mode, view, met, |dt.bits| > 1);
      tie := PlaneTies(tb, tm, ts);
      ManyMeansDisagree(PlaneBits(ss));
      PlaneSteps(cfg, st, es, now, id, tie, t1, t2, timers, bits, mode, view);
      hide PlaneNewBits, PlaneNewMode, PlaneNewSuccessor;
    }

    /** One plane of the pass. */
    method EvaluatePlane(id: byte, dt: Option<PlaneTally>, now: int, ghost es: seq<Entry>)
      returns (da: Plane, ghost tie: PlaneTies)
      requires Valid() && id != 0 && DtOk(dt, id, es)
      modifies `timers
      ensures PlaneDone(cfg, old(Current()), es, now, id, tie, da, timers)
    {
      hide SaidOf, PlaneDone, Announced, TallyOf, Dissents, PlaneBits;
      SomethingSaid(es, id);
      if id !in cfg.pinPlanes && dt.Some? {
        da, tie := EvaluateAnnounced(id, dt.value, now, es);
        return;
      }
      da := if id in planes then planes[id] else NO_PLANE;
      if id in cfg.pinPlanes {
        da := da.(shardBits := cfg.pinPlanes[id], quorumMet := true, divergent := false);
        if dt.Some? {
          var divergent := AnyOther(dt.value.bits, cfg.pinPlanes[id], PlaneBits(SaidOf(es, id)));
          da := da.(divergent := divergent);
        }
      } else {
        da := da.(quorumMet := false, divergent := false);
      }
      tie := PlaneLeaders(cfg, es, id);
      PlaneUnvoted(cfg, Current(), es, now, id, tie, da);
    }

    /** One plane, added to what the pass has done so far. */
    method EvaluateNext(id: byte, dt: Option<PlaneTally>, now: int, out: map<byte, Plane>,
                        ghost st: State, ghost es: seq<Entry>, ghost ties: map<byte, PlaneTies>, ghost done: set<byte>)
      returns (da: Plane, ghost tie: PlaneTies)
      requires Valid() && id != 0 && id !in done && DtOk(dt, id, es)
      requires PlanesDone(cfg, st, es, now, ties, done, timers, out) && out.Keys == done && planes == st.planes + out
      modifies `timers, `planes
      ensures Valid()
      ensures PlanesDone(cfg, st, es, now, ties[id := tie], done + {id}, timers, out[id := da])
        && planes == st.planes + out[id := da]
    {
      hide PlanesDone, PlaneAfter, PlaneTiesOk, PlaneCalls, Timers, PlaneClearing, DtOk, PlaneDone;
      ghost var sv := Current();
      da, tie := EvaluatePlane(id, dt, now, es);
      NextPlaneDone(cfg, st, es, now, ties, done, sv.timers, out, sv, id, tie, timers, da);
      planes := planes[id := da];
      MergeNext(st.planes, out, id, da);
    }

    /** Every announced, pinned or previously adopted plane. */
    method EvaluateDomains(snap: seq<Entry>, now: int)
      returns (out: map<byte, Plane>, met: map<Field, bool>, divergent: set<Field>, ghost ties: map<byte, PlaneTies>)
      requires Valid()
      modifies `timers, `planes
      ensures Valid() && out == planes
      ensures PlanesDone(cfg, old(Current()), Auth(snap), now, ties, PlaneIds(cfg, old(Current()), Auth(snap)), timers,
                         planes)
      ensures met == MetOf(planes) && divergent == DivergentOf(planes)
    {
      hide PlanesDone, SaidOf, Auth, PlaneTallied, PlaneIds, DtOk, MetOf, DivergentOf;
      ghost var st, es := Current(), Auth(snap);
      var tallies := TallyPlanes(snap);
      var ids := tallies.Keys + (set id | id in cfg.pinPlanes && id != 0) + planes.Keys;
      AnnouncedIds(cfg, st, tallies, es);
      NonePlanesDone(cfg, st, es, now);
      NoneReported();
      out, met, divergent, ties := map[], map[], {}, map[];
      var left := ids;
      assert ids - left == {};
      while left != {}
        invariant Valid() && left <= ids && out.Keys == ids - left
        invariant PlanesDone(cfg, st, es, now, ties, ids - left, timers, out) && planes == st.planes + out
        invariant met == MetOf(out) && divergent == DivergentOf(out)
      {
        var id :| id in left;
        MoveOne(ids, left, id);
        TallyFor(tallies, id, es);
        var da;
        ghost var tie;
        da, tie := EvaluateNext(id, if id in tallies then Some(tallies[id]) else None, now, out, st, es, ties,
                                ids - left);
        ReportedNext(out, id, da);
        if da.divergent {
          divergent := divergent + {PlaneShardBits(id)};
        }
        met := met[PlaneShardBits(id) := da.quorumMet];
        out, ties, left := out[id := da], ties[id := tie], left - {id};
      }
      assert ids - left == ids;
      assert planes == out;
    }

    /** The transaction plane's part of a pass. */
    method AdoptTop(t: TopTally, now: int, ghost es: seq<Entry>) returns (out: TopOut, ghost ties: Ties)
      requires ValidConfig(cfg)
      requires t.bits == TallyOf(BitsBallots(es)) && t.modes == TallyOf(ModeBallots(es))
        && t.succs == TallyOf(SuccBallots(es))
      modifies `timers, `shardBits, `ssm, `successor
      ensures TopDone(cfg, old(Current()), es, now, ties, Current(), out)
    {
      hide BitsBallots, ModeBallots, SuccBallots, HasQuorum, Leads, TallyOf, Dissents, Disagree, WithinOneBit,
        BitsStep, ModeStep,
        SuccStep, TopMet, TopDiverging, TopDone;
      ghost var st := Current();
      ghost var tb, tm, ts;
      var bits, mode, succ, bitsMet, modeMet, succMet, bitsDiverge, modeDiverge;
      bits, bitsMet, bitsDiverge, tb := AdoptBits(t.bits, now, es);
      ghost var t1 := timers;
      mode, modeMet, modeDiverge, tm := AdoptMode(t.modes, now, es);
      ghost var t2 := timers;
      succ, succMet, ts := AdoptSuccessor(t.succs, bits, now, es);
      out := TopOut(bits, mode, succ, TopMet(bitsMet, modeMet, succMet), TopDiverging(bitsDiverge, modeDiverge));
      ties := Ties(tb, tm, ts, map[]);
      TopConcludes(cfg, st, es, now, ties, t1, t2, Current(), out);
    }

    /** One pass over a registry snapshot. */
    method Evaluate(snap: seq<Entry>, now: int) returns (out: Adopted, ghost ties: Ties)
      requires Valid()
      modifies this
      ensures Valid()
      ensures TiesOk(cfg, Auth(snap), ties)
      ensures Current() == After(cfg, old(Current()), Auth(snap), now, ties)
      ensures out == Report(cfg, old(Current()), snap, now, ties)
    {
      hide TallyOf, BitsBallots, ModeBallots, SuccBallots, Auth, PlanesDone, PlaneIds, MetOf, DivergentOf, After,
        Report, TiesOk,
        PilotGroups, SourceSet, TopDone;
      ghost var st, es := Current(), Auth(snap);
      var t := TallyTop(snap);
      var top, planesOut, planesMet, planesDiverge;
      ghost var tt, tp;
      top, tt := AdoptTop(t, now, es);
      ghost var sv := Current();
      planesOut, planesMet, planesDiverge, tp := EvaluateDomains(snap, now);
      ties := tt.(planes := tp);
      out := Adopted(top.bits, top.ssm, t.groups, t.sources, top.successor, t.pilots,
                     top.met + planesMet, top.divergence + planesDiverge, planesOut);
      PassDone(cfg, st, sv, snap, now, tt, tp, Current(), top, out);
    }
  }

  /** The quorum flags; the successor's is present only when it is met. */
  function TopMet(bits: bool, mode: bool, succ: bool): map<Field, bool> {
    var m := map[ShardBits := bits, SourceMode := mode];
    if succ then m[TopSuccessor := true] else m
  }

  function TopDiverging(bits: bool, mode: bool): set<Field> {
    (if bits then {ShardBits} else {}) + if mode then {SourceMode} else {}
  }

  lemma {:induction false} TopConcludes(c: Config, st: State, es: seq<Entry>, now: int, t: Ties,
                                        t1: map<TimerKey, int>, t2: map<TimerKey, int>, sv: State, out: TopOut)
    requires HasQuorum(BitsBallots(es), c.quorum) ==> Leads(BitsBallots(es), c.quorum, t.bits)
    requires HasQuorum(ModeBallots(es), c.quorum) ==> Leads(ModeBallots(es), c.quorum, t.ssm)
    requires HasQuorum(SuccBallots(es), c.quorum) ==> Leads(SuccBallots(es), c.quorum, t.succ)
    requires BitsStep(c, es, now, t.bits, st.timers, t1, st.shardBits, sv.shardBits)
    requires ModeStep(c, es, now, t.ssm, t1, t2, st.ssm, sv.ssm)
    requires SuccStep(c, es, now, t.succ, out.bits, t2, sv.timers, st.successor, sv.successor, out.successor)
    requires sv.planes == st.planes
    requires out.bits == if c.pinBits.Some? then c.pinBits.value else sv.shardBits
    requires out.ssm == if c.pinMode.Some? then c.pinMode.value else sv.ssm
    requires out.met == TopMet(c.pinBits.Some? || HasQuorum(BitsBallots(es), c.quorum),
                               c.pinMode.Some? || HasQuorum(ModeBallots(es), c.quorum),
                               HasQuorum(SuccBallots(es), c.quorum) && WithinOneBit(out.bits, t.succ.shardBits))
    requires out.divergence == TopDiverging(
      if c.pinBits.Some? then Dissents(BitsBallots(es), c.pinBits.value) else Disagree(BitsBallots(es)),
      if c.pinMode.Some? then Dissents(ModeBallots(es), c.pinMode.value)
      else HasQuorum(ModeBallots(es), c.quorum) && Disagree(ModeBallots(es)))
    ensures TopDone(c, st, es, now, t, sv, out)
  {
    hide BitsBallots, ModeBallots, SuccBallots, HasQuorum, Leads, Dissents, Disagree, WithinOneBit, BitsStep, ModeStep,
      SuccStep, Timers, KeptBits, KeptMode, KeptSuccessor, OutBits, SuccElapsed, TopCalls, TopCleared, SuccHash;
    TopSteps(c, st, es, now, t, t1, t2, sv.timers, sv.shardBits, sv.ssm, sv.successor, out.successor);
  }

  /** What the transaction plane's part of a pass reports. */
  datatype TopOut = TopOut(bits: byte, ssm: bool, successor: Option<View>, met: map<Field, bool>,
                           divergence: set<Field>)

  ghost predicate TopDone(c: Config, st: State, es: seq<Entry>, now: int, t: Ties, sv: State, out: TopOut) {
    && (HasQuorum(BitsBallots(es), c.quorum) ==> Leads(BitsBallots(es), c.quorum, t.bits))
    && (HasQuorum(ModeBallots(es), c.quorum) ==> Leads(ModeBallots(es), c.quorum, t.ssm))
    && (HasQuorum(SuccBallots(es), c.quorum) ==> Leads(SuccBallots(es), c.quorum, t.succ))
    && sv == State(Timers(st.timers, TopCalls(c, st, es, now, t), TopCleared(c, es), now),
                   KeptBits(c, st, es, now, t), KeptMode(c, st, es, now, t), KeptSuccessor(c, st, es, now, t),
                     st.planes)
    && out == TopOut(OutBits(c, st, es, now, t), if c.pinMode.Some? then c.pinMode.value
                     else KeptMode(c, st, es, now, t),
                     if SuccElapsed(c, st, es, now, t) then KeptSuccessor(c, st, es, now, t) else None,
                     TopQuorum(c, st, es, now, t), TopDivergence(c, es))
  }

  /** The transaction plane does not depend on the planes' choices. */
  lemma {:induction false} TopLocal(c: Config, st: State, es: seq<Entry>, now: int, t: Ties, ps: map<byte, PlaneTies>,
                                    sv: State, out: TopOut)
    requires TopDone(c, st, es, now, t, sv, out)
    ensures TopDone(c, st, es, now, t.(planes := ps), sv, out)
  {
    hide HasQuorum, Leads, BitsBallots, ModeBallots, SuccBallots, Elapsed, Timers, SuccHash, WithinOneBit, Window,
      IntervalOf, Install, TopDivergence;
  }

  /** The two parts make up the pass. */
  lemma {:induction false} PassDone(c: Config, st: State, sv: State, snap: seq<Entry>, now: int, t: Ties,
                                    ps: map<byte, PlaneTies>,
                                    after: State, top: TopOut, out: Adopted)
    requires TopDone(c, st, Auth(snap), now, t, sv, top)
    requires PlanesDone(c, sv, Auth(snap), now, ps, PlaneIds(c, sv, Auth(snap)), after.timers, after.planes)
    requires after == sv.(timers := after.timers, planes := after.planes)
    requires out == Adopted(top.bits, top.ssm, PilotGroups(Auth(snap)), SourceSet(snap), top.successor, |Auth(snap)|,
                            top.met + MetOf(after.planes), top.divergence + DivergentOf(after.planes), after.planes)
    ensures var u := t.(planes := ps);
      TiesOk(c, Auth(snap), u) && after == After(c, st, Auth(snap), now, u) && out == Report(c, st, snap, now, u)
  {
    hide HasQuorum, Leads, Announced, PlaneTiesOk, Timers, Called, Cleared, KeptBits, KeptMode, KeptSuccessor,
      PlaneAfter, PlaneIds,
      TopQuorum, TopDivergence, OutBits, SuccElapsed, PilotGroups, SourceSet, Auth, TopCalls, TopCleared, PlanesDone,
      BitsBallots, ModeBallots, SuccBallots;
    var u := t.(planes := ps);
    TopLocal(c, st, Auth(snap), now, t, ps, sv, top);
    PassJoins(c, st, sv, Auth(snap), now, u, after.timers, after.planes);
    assert after == After(c, st, Auth(snap), now, u);
    hide After, TopDone;
    ReportFrom(c, st, snap, now, u, sv, top, out);
  }

  lemma {:induction false} ReportFrom(c: Config, st: State, snap: seq<Entry>, now: int, t: Ties, sv: State,
                                      top: TopOut, out: Adopted)
    requires TopDone(c, st, Auth(snap), now, t, sv, top)
    requires var planes := After(c, st, Auth(snap), now, t).planes;
      out == Adopted(top.bits, top.ssm, PilotGroups(Auth(snap)), SourceSet(snap), top.successor, |Auth(snap)|,
                     top.met + MetOf(planes), top.divergence + DivergentOf(planes), planes)
    ensures out == Report(c, st, snap, now, t)
  {
    hide HasQuorum, Leads, KeptBits, KeptMode, KeptSuccessor, TopQuorum, TopDivergence, OutBits, SuccElapsed,
      PilotGroups,
      SourceSet, Auth, After, TopCalls, TopCleared, Timers, BitsBallots, ModeBallots, SuccBallots;
  }

  lemma {:induction false} NoneReported()
    ensures MetOf(map[]) == map[] && DivergentOf(map[]) == {}
  {
  }

  lemma {:induction false} MoveOne<T>(all: set<T>, left: set<T>, x: T)
    requires left <= all && x in left
    ensures all - (left - {x}) == (all - left) + {x}
  {
  }

  lemma {:induction false} MergeNext<K, V>(a: map<K, V>, b: map<K, V>, k: K, v: V)
    ensures (a + b)[k := v] == a + b[k := v]
    ensures k !in b ==> (k in a + b <==> k in a) && (k in a ==> (a + b)[k] == a[k])
  {
  }

  /** The tally a plane is evaluated with. */
  ghost predicate DtOk(dt: Option<PlaneTally>, id: byte, es: seq<Entry>) {
    && (dt.Some? <==> SaidOf(es, id) != [])
    && (dt.Some? ==> dt.value == PlaneTallyOf(SaidOf(es, id)))
  }

  lemma {:induction false} TallyFor(m: map<byte, PlaneTally>, id: byte, es: seq<Entry>)
    requires id != 0 && PlaneTallied(m, id, SaidOf(es, id))
    ensures DtOk(if id in m then Some(m[id]) else None, id, es)
  {
    hide SaidOf, PlaneTallyOf;
  }

  lemma {:induction false} AnnouncedIds(c: Config, st: State, m: map<byte, PlaneTally>, es: seq<Entry>)
    requires 0 !in st.planes && forall id: byte :: PlaneTallied(m, id, SaidOf(es, id))
    ensures m.Keys + (set id | id in c.pinPlanes && id != 0) + st.planes.Keys == PlaneIds(c, st, es)
    ensures 0 !in PlaneIds(c, st, es)
  {
    hide SaidOf;
    forall id: byte ensures id in m <==> id in Announced(es) {
      assert PlaneTallied(m, id, SaidOf(es, id));
      if id != 0 {
        SomethingSaid(es, id);
      }
    }
  }

  lemma {:induction false} Unsaid(ss: seq<Said>)
    ensures ss == [] ==>
      PlaneBits(ss) == [] && !Disagree(PlaneBits(ss)) && forall pin: byte :: !Dissents(PlaneBits(ss), pin)
  {
  }

  lemma {:induction false} NoTimers(timers: map<TimerKey, int>, now: int)
    ensures Timers(timers, {}, {}, now) == timers
  {
  }

  lemma {:induction false} NoBallots<T(!new)>(bs: seq<Ballot<T>>, quorum: nat)
    ensures |TallyOf(bs)| == 0 <==> bs == []
    ensures bs == [] ==> !HasQuorum(bs, quorum)
  {
    if bs != [] {
      assert bs[|bs| - 1].value in TallyOf(bs);
    }
  }
}
