/** Guarantees over whole runs of evaluation passes. */
module EvaluatorRuns {
  import opened Bytes
  import opened Domains
  import opened ManifestCodec
  import opened Registry
  import opened RegistryRuns
  import opened Evaluator

  datatype Pass = Pass(snap: seq<Entry>, now: int, ties: Ties)

  function Voters(p: Pass): seq<Entry> {
    Auth(p.snap)
  }

  /** The state after a run of passes. */
  ghost function StateAt(c: Config, run: seq<Pass>): State {
    if run == [] then INITIAL
    else
      var n := |run| - 1;
      After(c, StateAt(c, run[..n]), Voters(run[n]), run[n].now, run[n].ties)
  }

  ghost predicate ValidRun(c: Config, run: seq<Pass>) {
    ValidConfig(c) && forall i :: 0 <= i < |run| ==> TiesOk(c, Voters(run[i]), run[i].ties)
  }

  ghost function CalledAt(c: Config, run: seq<Pass>, j: nat): set<TimerKey>
    requires j < |run|
  {
    Called(c, StateAt(c, run[..j]), Voters(run[j]), run[j].now, run[j].ties)
  }

  ghost function ClearedAt(c: Config, run: seq<Pass>, j: nat): set<Field>
    requires j < |run|
  {
    Cleared(c, StateAt(c, run[..j]), Voters(run[j]))
  }

  // ---- timers ---------------------------------------------------------------------------

  /** Timer `k` was started in pass `j` and has not been cleared since. */
  ghost predicate StartedAt(c: Config, run: seq<Pass>, k: TimerKey, j: nat) {
    && j < |run|
    && k in CalledAt(c, run, j)
    && forall i :: j < i < |run| ==> k.field !in ClearedAt(c, run, i)
  }

  lemma {:induction false} EarlierCalls(c: Config, run: seq<Pass>, j: nat)
    requires j < |run| - 1
    ensures CalledAt(c, run[..|run| - 1], j) == CalledAt(c, run, j)
    ensures ClearedAt(c, run[..|run| - 1], j) == ClearedAt(c, run, j)
  {
    hide StateAt, Called, Cleared;
    assert run[..|run| - 1][..j] == run[..j];
  }

  lemma {:induction false} TimersNext(c: Config, run: seq<Pass>)
    ensures run == [] ==> StateAt(c, run).timers == map[]
    ensures run != [] ==>
      var n := |run| - 1;
      StateAt(c, run).timers
        == Timers(StateAt(c, run[..n]).timers, CalledAt(c, run, n), ClearedAt(c, run, n), run[n].now)
  {
    hide Called, Cleared;
  }

  /** Every timer was started by a pass that consulted it, at that pass's time, and no pass
      since then cleared its field. */
  lemma {:induction false} TimersGrounded(c: Config, run: seq<Pass>, k: TimerKey)
    requires k in StateAt(c, run).timers
    ensures exists j: nat :: StartedAt(c, run, k, j) && StateAt(c, run).timers[k] == run[j].now
    decreases |run|
  {
    hide StateAt, Called, Cleared;
    TimersNext(c, run);
    var n := |run| - 1;
    var prev := run[..n];
    if k in StateAt(c, prev).timers {
      TimersGrounded(c, prev, k);
      var j: nat :| StartedAt(c, prev, k, j) && StateAt(c, prev).timers[k] == prev[j].now;
      EarlierCalls(c, run, j);
      forall i | j < i < |run| ensures k.field !in ClearedAt(c, run, i) {
        if i < n {
          EarlierCalls(c, run, i);
        }
      }
      assert StartedAt(c, run, k, j);
    } else {
      assert StartedAt(c, run, k, n);
    }
  }

  /** A timer found elapsed in the last pass was consulted in a pass a full window earlier, or
      the window is zero. `since` is that pass. */
  lemma {:induction false} ElapsedSince(c: Config, run: seq<Pass>, k: TimerKey, window: int) returns (since: nat)
    requires run != [] && k in CalledAt(c, run, |run| - 1)
    requires Elapsed(StateAt(c, run[..|run| - 1]).timers, k, run[|run| - 1].now, window)
    ensures since < |run| && k in CalledAt(c, run, since)
    ensures if since < |run| - 1 then run[|run| - 1].now - run[since].now >= window else window == 0
    ensures forall i :: since < i < |run| - 1 ==> k.field !in ClearedAt(c, run, i)
  {
    hide Called, Cleared, StateAt;
    var n := |run| - 1;
    if k in StateAt(c, run[..n]).timers {
      TimersGrounded(c, run[..n], k);
      var j: nat :| StartedAt(c, run[..n], k, j) && StateAt(c, run[..n]).timers[k] == run[..n][j].now;
      since := j;
      EarlierCalls(c, run, j);
      forall i | j < i < n ensures k.field !in ClearedAt(c, run, i) {
        EarlierCalls(c, run, i);
      }
    } else {
      since := n;
    }
  }

  // ---- shard bits -----------------------------------------------------------------------

  /** What it means that a pass consulted plane timer `k`. */
  ghost predicate PlaneMeaning(c: Config, st: State, es: seq<Entry>, now: int, t: Ties, id: byte, k: TimerKey) {
    var ss, p := SaidOf(es, id), TieFor(t, id);
    && Votes(c, es, id)
    && (k.field == PlaneShardBits(id) ==> k.value == p.bits && Leads(PlaneBits(ss), c.quorum, p.bits))
    && (k.field == PlaneSourceMode(id) ==> k.value == BoolCode(p.ssm) && Leads(PlaneModes(ss), c.quorum, p.ssm))
    && (k.field == PlaneSuccessor(id) ==>
          && k.value == SuccHash(p.succ) && Leads(PlaneSuccs(ss), c.quorum, p.succ)
          && WithinOneBit(PlaneNewBits(c, st, es, now, t, id), p.succ.shardBits))
  }

  /** A timer is consulted only for a candidate that leads with quorum in the same pass. */
  lemma {:induction false} CallMeaning(c: Config, st: State, es: seq<Entry>, now: int, t: Ties, k: TimerKey)
    requires TiesOk(c, es, t) && k in Called(c, st, es, now, t)
    ensures k.field == ShardBits ==>
      c.pinBits.None? && k.value == t.bits && Leads(BitsBallots(es), c.quorum, t.bits)
    ensures k.field == SourceMode ==>
      c.pinMode.None? && k.value == BoolCode(t.ssm) && Leads(ModeBallots(es), c.quorum, t.ssm)
    ensures k.field == TopSuccessor ==>
      && k.value == SuccHash(t.succ) && Leads(SuccBallots(es), c.quorum, t.succ)
      && WithinOneBit(OutBits(c, st, es, now, t), t.succ.shardBits)
    ensures k.field.PlaneShardBits? || k.field.PlaneSourceMode? || k.field.PlaneSuccessor? ==>
      PlaneMeaning(c, st, es, now, t, k.field.id, k)
  {
    hide Leads, HasQuorum, SuccHash, OutBits, BitsBallots, ModeBallots, SuccBallots, PlaneCalls, PlaneMeaning;
    if k in TopCalls(c, st, es, now, t) {
      TopField(c, st, es, now, t, k);
    } else {
      var id :| id in PlaneIds(c, st, es) && k in PlaneCalls(c, st, es, now, t, id);
      PlaneCallMeaning(c, st, es, now, t, id, k);
    }
  }

  lemma {:induction false} TopField(c: Config, st: State, es: seq<Entry>, now: int, t: Ties, k: TimerKey)
    requires k in TopCalls(c, st, es, now, t)
    ensures k.field in {ShardBits, SourceMode, TopSuccessor}
  {
  }

  lemma {:induction false} PlaneCallMeaning(c: Config, st: State, es: seq<Entry>, now: int, t: Ties, id: byte,
                                            k: TimerKey)
    requires TiesOk(c, es, t) && k in PlaneCalls(c, st, es, now, t, id)
    ensures k.field in {PlaneShardBits(id), PlaneSourceMode(id), PlaneSuccessor(id)}
    ensures PlaneMeaning(c, st, es, now, t, id, k)
  {
    hide Leads, HasQuorum, SuccHash, PlaneNewBits, SaidOf, PlaneBits, PlaneModes, PlaneSuccs, Announced;
    assert PlaneTiesOk(c, es, TieFor(t, id), id);
  }

  /** Width `v` led with quorum in pass `j`. */
  ghost predicate LedBits(c: Config, run: seq<Pass>, j: nat, v: byte) {
    j < |run| && Leads(BitsBallots(Voters(run[j])), c.quorum, v)
  }

  /** A full window lies between passes `j` and the last, or the window is zero. */
  predicate WindowSince(run: seq<Pass>, j: nat, window: int)
    requires run != []
  {
    j < |run| && if j < |run| - 1 then run[|run| - 1].now - run[j].now >= window else window == 0
  }

  /** The adopted width changes only to one that leads with quorum in this pass and already led
      with quorum in a pass at least one window earlier; otherwise it is retained. */
  lemma {:induction false} BitsSafety(c: Config, run: seq<Pass>)
    requires ValidRun(c, run) && run != []
    ensures var n := |run| - 1;
      var es := Voters(run[n]);
      var was, bits := StateAt(c, run[..n]).shardBits, StateAt(c, run).shardBits;
      && (c.pinBits.None? ==> Report(c, StateAt(c, run[..n]), run[n].snap, run[n].now, run[n].ties).shardBits == bits)
      && (bits != was ==>
            && c.pinBits.None?
            && Leads(BitsBallots(es), c.quorum, bits)
            && exists j: nat :: LedBits(c, run, j, bits)
                                && WindowSince(run, j, Window(c, IntervalOf(BitsBallots(es), bits))))
  {
    var n := |run| - 1;
    var st, p := StateAt(c, run[..n]), run[n];
    var es := Voters(p);
    BitsChange(c, run);
    if BitsAdopted(c, st, es, p.now, p.ties) {
      hide StateAt, Called, Cleared, Report, After, BitsBallots, Leads, HasQuorum;
      var k := TimerKey(ShardBits, p.ties.bits);
      CallMeaning(c, st, es, p.now, p.ties, k);
      var j := ElapsedSince(c, run, k, Window(c, IntervalOf(BitsBallots(es), p.ties.bits)));
      CallMeaning(c, StateAt(c, run[..j]), Voters(run[j]), run[j].now, run[j].ties, k);
      assert LedBits(c, run, j, p.ties.bits);
    }
  }

  lemma {:induction false} BitsChange(c: Config, run: seq<Pass>)
    requires run != []
    ensures var n := |run| - 1;
      var st, p := StateAt(c, run[..n]), run[n];
      && StateAt(c, run).shardBits == KeptBits(c, st, Voters(p), p.now, p.ties)
      && (BitsAdopted(c, st, Voters(p), p.now, p.ties) ==> TimerKey(ShardBits, p.ties.bits) in CalledAt(c, run, n))
  {
  }

  // ---- source mode ----------------------------------------------------------------------

  ghost predicate LedMode(c: Config, run: seq<Pass>, j: nat, v: bool) {
    j < |run| && Leads(ModeBallots(Voters(run[j])), c.quorum, v)
  }

  /** The same for the addressing mode. */
  lemma {:induction false} ModeSafety(c: Config, run: seq<Pass>)
    requires ValidRun(c, run) && run != []
    ensures var n := |run| - 1;
      var es := Voters(run[n]);
      var was, ssm := StateAt(c, run[..n]).ssm, StateAt(c, run).ssm;
      && Report(c, StateAt(c, run[..n]), run[n].snap, run[n].now, run[n].ties).ssm
           == (if c.pinMode.Some? then c.pinMode.value else ssm)
      && (ssm != was ==>
            && c.pinMode.None?
            && Leads(ModeBallots(es), c.quorum, ssm)
            && exists j: nat :: LedMode(c, run, j, ssm)
                                && WindowSince(run, j, Window(c, IntervalOf(ModeBallots(es), ssm))))
  {
    ModeReported(c, run);
    var n := |run| - 1;
    var st, p := StateAt(c, run[..n]), run[n];
    if StateAt(c, run).ssm != st.ssm {
      var es, k := Voters(p), TimerKey(SourceMode, BoolCode(p.ties.ssm));
      ModeChange(c, run);
      hide StateAt, Called, Cleared, ModeBallots, Leads, HasQuorum, Report;
      CallMeaning(c, st, es, p.now, p.ties, k);
      var j := ElapsedSince(c, run, k, Window(c, IntervalOf(ModeBallots(es), p.ties.ssm)));
      CallMeaning(c, StateAt(c, run[..j]), Voters(run[j]), run[j].now, run[j].ties, k);
      assert LedMode(c, run, j, p.ties.ssm);
    }
  }

  lemma {:induction false} ModeReported(c: Config, run: seq<Pass>)
    requires run != []
    ensures var n := |run| - 1;
      Report(c, StateAt(c, run[..n]), run[n].snap, run[n].now, run[n].ties).ssm
        == if c.pinMode.Some? then c.pinMode.value else StateAt(c, run).ssm
  {
    hide KeptMode, KeptBits, KeptSuccessor, Timers, PlaneAfter, TopQuorum, TopDivergence, OutBits, SuccElapsed;
  }

  lemma {:induction false} ModeChange(c: Config, run: seq<Pass>)
    requires run != [] && StateAt(c, run).ssm != StateAt(c, run[..|run| - 1]).ssm
    ensures var n := |run| - 1;
      var st, p := StateAt(c, run[..n]), run[n];
      var k := TimerKey(SourceMode, BoolCode(p.ties.ssm));
      && StateAt(c, run).ssm == p.ties.ssm && k in CalledAt(c, run, n)
      && Elapsed(st.timers, k, p.now, Window(c, IntervalOf(ModeBallots(Voters(p)), p.ties.ssm)))
  {
  }

  // ---- adoption happens -----------------------------------------------------------------

  /** More ballots than any other value, and a quorum of them. */
  ghost predicate Alone<T(!new)>(bs: seq<Ballot<T>>, quorum: nat, v: T) {
    quorum <= Count(bs, v) && 0 < Count(bs, v) && forall w: T :: w != v ==> Count(bs, w) < Count(bs, v)
  }

  predicate SteadyClock(run: seq<Pass>) {
    forall i, j :: 0 <= i <= j < |run| ==> run[i].now <= run[j].now
  }

  lemma {:induction false} TimerPast(c: Config, run: seq<Pass>, j: nat, k: TimerKey)
    requires j < |run| && SteadyClock(run) && k in StateAt(c, run[..j]).timers
    ensures StateAt(c, run[..j]).timers[k] <= run[j].now
  {
    TimersGrounded(c, run[..j], k);
  }

  /** A width or mode timer consulted in pass `j` still runs, from then or from earlier. */
  lemma {:induction false} TimerRuns(c: Config, run: seq<Pass>, j: nat, k: TimerKey)
    requires SteadyClock(run) && j < |run| && k in CalledAt(c, run, j) && k.field in {ShardBits, SourceMode}
    ensures k in StateAt(c, run).timers && StateAt(c, run).timers[k] <= run[j].now
    decreases |run|
  {
    hide StateAt, Called;
    var n := |run| - 1;
    TimersNext(c, run);
    if j < n {
      EarlierCalls(c, run, j);
      TimerRuns(c, run[..n], j, k);
    } else if k in StateAt(c, run[..n]).timers {
      TimerPast(c, run, n, k);
    }
  }

  lemma {:induction false} ElapsedBy(c: Config, run: seq<Pass>, j: nat, k: TimerKey, window: int)
    requires run != [] && SteadyClock(run) && WindowSince(run, j, window)
    requires k in CalledAt(c, run, j) && k.field in {ShardBits, SourceMode}
    ensures Elapsed(StateAt(c, run[..|run| - 1]).timers, k, run[|run| - 1].now, window)
  {
    hide StateAt, CalledAt;
    var n := |run| - 1;
    if j < n {
      EarlierCalls(c, run, j);
      TimerRuns(c, run[..n], j, k);
    } else if k in StateAt(c, run[..n]).timers {
      TimerPast(c, run, n, k);
    }
  }

  lemma {:induction false} BitsConsulted(c: Config, run: seq<Pass>, j: nat, v: byte)
    requires ValidRun(c, run) && SteadyClock(run) && c.pinBits.None? && j < |run|
    requires Alone(BitsBallots(Voters(run[j])), c.quorum, v)
    ensures var k := TimerKey(ShardBits, v);
      && run[j].ties.bits == v && k in CalledAt(c, run, j)
      && BitsCall(c, StateAt(c, run[..j]), Voters(run[j]), run[j].now, run[j].ties) == Some(k)
  {
    hide StateAt, BitsBallots, PlaneCalls, Count;
    if TimerKey(ShardBits, v) in StateAt(c, run[..j]).timers {
      TimerPast(c, run, j, TimerKey(ShardBits, v));
    }
  }

  /** The converse of BitsSafety. On an unpinned instance whose clock never steps back, a width
      that alone leads with quorum in every pass from `j` on is adopted by any pass `m` at least
      one window later, and reported from then on. */
  lemma {:induction false} BitsLiveness(c: Config, run: seq<Pass>, j: nat, m: nat, v: byte)
    requires ValidRun(c, run) && SteadyClock(run) && c.pinBits.None? && j <= m < |run|
    requires forall i :: j <= i < |run| ==> Alone(BitsBallots(Voters(run[i])), c.quorum, v)
    requires WindowSince(run[..m + 1], j, Window(c, IntervalOf(BitsBallots(Voters(run[m])), v)))
    ensures StateAt(c, run).shardBits == v
    ensures var n := |run| - 1;
      Report(c, StateAt(c, run[..n]), run[n].snap, run[n].now, run[n].ties).shardBits == v
    decreases |run|
  {
    hide StateAt, CalledAt, Report, BitsBallots, BitsCall, Alone, Leads, LedBits, Elapsed;
    var n := |run| - 1;
    BitsSafety(c, run);
    BitsChange(c, run);
    BitsConsulted(c, run, n, v);
    if m < n {
      assert run[..n][..m + 1] == run[..m + 1];
      BitsLiveness(c, run[..n], j, m, v);
    } else {
      assert run[..m + 1] == run;
      BitsConsulted(c, run, j, v);
      ElapsedBy(c, run, j, TimerKey(ShardBits, v), Window(c, IntervalOf(BitsBallots(Voters(run[n])), v)));
    }
  }

  lemma {:induction false} ModeConsulted(c: Config, run: seq<Pass>, j: nat, v: bool)
    requires ValidRun(c, run) && c.pinMode.None? && j < |run|
    requires Alone(ModeBallots(Voters(run[j])), c.quorum, v)
    ensures var k := TimerKey(SourceMode, BoolCode(v));
      && run[j].ties.ssm == v && k in CalledAt(c, run, j)
      && ModeCall(c, Voters(run[j]), run[j].ties) == Some(k)
  {
    hide StateAt, ModeBallots, PlaneCalls, Count;
  }

  lemma {:induction false} ModeNext(c: Config, run: seq<Pass>)
    requires run != []
    ensures var n := |run| - 1;
      StateAt(c, run).ssm == KeptMode(c, StateAt(c, run[..n]), Voters(run[n]), run[n].now, run[n].ties)
  {
    hide KeptMode, Called, Cleared, KeptBits;
  }

  /** The same for the addressing mode. */
  lemma {:induction false} ModeLiveness(c: Config, run: seq<Pass>, j: nat, m: nat, v: bool)
    requires ValidRun(c, run) && SteadyClock(run) && c.pinMode.None? && j <= m < |run|
    requires forall i :: j <= i < |run| ==> Alone(ModeBallots(Voters(run[i])), c.quorum, v)
    requires WindowSince(run[..m + 1], j, Window(c, IntervalOf(ModeBallots(Voters(run[m])), v)))
    ensures StateAt(c, run).ssm == v
    ensures var n := |run| - 1;
      Report(c, StateAt(c, run[..n]), run[n].snap, run[n].now, run[n].ties).ssm == v
    decreases |run|
  {
    hide StateAt, CalledAt, Report, ModeBallots, ModeCall, Alone, Elapsed;
    var n := |run| - 1;
    ModeReported(c, run);
    ModeNext(c, run);
    ModeConsulted(c, run, n, v);
    if m < n {
      assert run[..n][..m + 1] == run[..m + 1];
      ModeLiveness(c, run[..n], j, m, v);
    } else {
      assert run[..m + 1] == run;
      ModeConsulted(c, run, j, v);
      ElapsedBy(c, run, j, TimerKey(SourceMode, BoolCode(v)),
                Window(c, IntervalOf(ModeBallots(Voters(run[n])), v)));
    }
  }

  // ---- successors -----------------------------------------------------------------------

  /** In pass `j` a successor candidate with this hash led with quorum, within one bit of the
      width reported by that pass. */
  ghost predicate LedSuccessor(c: Config, run: seq<Pass>, j: nat, hash: nat) {
    j < |run| &&
    var p, es := run[j], Voters(run[j]);
    && SuccHash(p.ties.succ) == hash
    && Leads(SuccBallots(es), c.quorum, p.ties.succ)
    && WithinOneBit(OutBits(c, StateAt(c, run[..j]), es, p.now, p.ties), p.ties.succ.shardBits)
  }

  ghost predicate SuccessorQuorum(c: Config, p: Pass) {
    HasQuorum(SuccBallots(Voters(p)), c.quorum)
  }

  lemma {:induction false} SuccessorChange(c: Config, run: seq<Pass>)
    requires run != []
    ensures var n := |run| - 1;
      var st, p := StateAt(c, run[..n]), run[n];
      var k := TimerKey(TopSuccessor, SuccHash(p.ties.succ));
      && (!SuccessorQuorum(c, p) ==>
            StateAt(c, run).successor == None && forall x :: x in StateAt(c, run).timers ==> x.field != TopSuccessor)
      && (SuccessorQuorum(c, p) && StateAt(c, run).successor != st.successor ==>
            && StateAt(c, run).successor == Some(View(p.ties.succ, p.now))
            && k in CalledAt(c, run, n)
            && Elapsed(st.timers, k, p.now, Window(c, IntervalOf(SuccBallots(Voters(p)), p.ties.succ))))
  {
    hide SuccBallots, HasQuorum, OutBits, SuccHash;
  }

  lemma {:induction false} UnclearedHasQuorum(c: Config, run: seq<Pass>, i: nat)
    requires i < |run| && TopSuccessor !in ClearedAt(c, run, i)
    ensures SuccessorQuorum(c, run[i])
  {
    hide SuccBallots, HasQuorum, StateAt;
  }

  /** A pass without successor quorum clears the view and all its timers. A view is installed
      only for a candidate that leads with quorum, lies within one bit of this pass's width, and
      whose timer has run a full window with successor quorum in every pass since it started. */
  lemma {:induction false} SuccessorSafety(c: Config, run: seq<Pass>)
    requires ValidRun(c, run) && run != []
    ensures var n := |run| - 1;
      var st, p, after := StateAt(c, run[..n]), run[n], StateAt(c, run);
      && (!SuccessorQuorum(c, p) ==>
            after.successor == None && forall x :: x in after.timers ==> x.field != TopSuccessor)
      && (SuccessorQuorum(c, p) && after.successor != st.successor ==>
            && after.successor == Some(View(p.ties.succ, p.now))
            && LedSuccessor(c, run, n, SuccHash(p.ties.succ))
            && exists j: nat ::
                 && LedSuccessor(c, run, j, SuccHash(p.ties.succ))
                 && WindowSince(run, j, Window(c, IntervalOf(SuccBallots(Voters(p)), p.ties.succ)))
                 && forall i :: j <= i <= n ==> SuccessorQuorum(c, run[i]))
  {
    SuccessorChange(c, run);
    var n := |run| - 1;
    if SuccessorQuorum(c, run[n]) && StateAt(c, run).successor != StateAt(c, run[..n]).successor {
      hide StateAt, SuccessorQuorum, LedSuccessor, WindowSince, SuccHash, SuccBallots, CalledAt;
      var j := SuccessorSince(c, run);
    }
  }

  /** The pass in which the timer behind the last pass's successor started. */
  lemma {:induction false} SuccessorSince(c: Config, run: seq<Pass>) returns (since: nat)
    requires ValidRun(c, run) && run != []
    requires var n, p := |run| - 1, run[|run| - 1];
      var k := TimerKey(TopSuccessor, SuccHash(p.ties.succ));
      && k in CalledAt(c, run, n)
      && Elapsed(StateAt(c, run[..n]).timers, k, p.now, Window(c, IntervalOf(SuccBallots(Voters(p)), p.ties.succ)))
    ensures var n, p := |run| - 1, run[|run| - 1];
      && LedSuccessor(c, run, n, SuccHash(p.ties.succ))
      && LedSuccessor(c, run, since, SuccHash(p.ties.succ))
      && WindowSince(run, since, Window(c, IntervalOf(SuccBallots(Voters(p)), p.ties.succ)))
      && forall i :: since <= i <= n ==> SuccessorQuorum(c, run[i])
  {
    hide StateAt, Called, ClearedAt, SuccBallots, Leads, HasQuorum, OutBits, SuccHash, LedSuccessor, SuccessorQuorum,
      Elapsed, IntervalOf;
    var n, p := |run| - 1, run[|run| - 1];
    var k := TimerKey(TopSuccessor, SuccHash(p.ties.succ));
    since := ElapsedSince(c, run, k, Window(c, IntervalOf(SuccBallots(Voters(p)), p.ties.succ)));
    CalledMeansLed(c, run, n, k);
    CalledMeansLed(c, run, since, k);
    forall i | since <= i <= n ensures SuccessorQuorum(c, run[i]) {
      if since < i < n {
        UnclearedHasQuorum(c, run, i);
      }
    }
  }

  lemma {:induction false} CalledMeansLed(c: Config, run: seq<Pass>, j: nat, k: TimerKey)
    requires ValidRun(c, run) && j < |run| && k in CalledAt(c, run, j) && k.field == TopSuccessor
    ensures LedSuccessor(c, run, j, k.value) && SuccessorQuorum(c, run[j])
  {
    hide StateAt, Called, SuccBallots, Leads, HasQuorum, OutBits, SuccHash;
    CallMeaning(c, StateAt(c, run[..j]), Voters(run[j]), run[j].now, run[j].ties, k);
    LeaderMeansQuorum(SuccBallots(Voters(run[j])), c.quorum, run[j].ties.succ);
  }

  lemma {:induction false} LeaderMeansQuorum<T(!new)>(bs: seq<Ballot<T>>, quorum: nat, v: T)
    requires Leads(bs, quorum, v)
    ensures HasQuorum(bs, quorum)
  {
  }

  // ---- object planes --------------------------------------------------------------------

  ghost predicate LedPlaneBits(c: Config, run: seq<Pass>, id: byte, j: nat, v: byte) {
    j < |run| && Votes(c, Voters(run[j]), id) && Leads(PlaneBits(SaidOf(Voters(run[j]), id)), c.quorum, v)
  }

  lemma {:induction false} PlaneNext(c: Config, run: seq<Pass>, id: byte)
    requires run != []
    ensures var n := |run| - 1;
      var st, p := StateAt(c, run[..n]), run[n];
      PlaneBefore(StateAt(c, run), id)
        == if id in PlaneIds(c, st, Voters(p)) then PlaneAfter(c, st, Voters(p), p.now, p.ties, id)
           else PlaneBefore(st, id)
  {
    hide PlaneAfter, Timers, Called, Cleared, KeptBits, KeptMode, KeptSuccessor, Announced;
  }

  lemma {:induction false} PlaneCalled(c: Config, st: State, es: seq<Entry>, now: int, t: Ties, id: byte, k: TimerKey)
    requires k in PlaneCalls(c, st, es, now, t, id) && id in PlaneIds(c, st, es)
    ensures k in Called(c, st, es, now, t)
  {
    hide PlaneCalls, TopCalls, PlaneIds;
  }

  lemma {:induction false} PlaneBitsChange(c: Config, run: seq<Pass>, id: byte)
    requires run != [] && id !in c.pinPlanes
    requires PlaneBefore(StateAt(c, run), id).shardBits != PlaneBefore(StateAt(c, run[..|run| - 1]), id).shardBits
    ensures var n := |run| - 1;
      var st, p := StateAt(c, run[..n]), run[n];
      var k := TimerKey(PlaneShardBits(id), TieFor(p.ties, id).bits);
      && PlaneBefore(StateAt(c, run), id).shardBits == TieFor(p.ties, id).bits
      && k in CalledAt(c, run, n)
      && Elapsed(st.timers, k, p.now, Window(c, IntervalOf(PlaneBits(SaidOf(Voters(p), id)), TieFor(p.ties, id).bits)))
  {
    hide StateAt, Called, PlaneBits, SaidOf, HasQuorum, PlaneIds, PlaneNewMode, PlaneNewSuccessor, PlaneSuccCall,
      PlaneModeCall, Disagree, Dissents;
    var n := |run| - 1;
    var st, p := StateAt(c, run[..n]), run[n];
    PlaneNext(c, run, id);
    PlaneCalled(c, st, Voters(p), p.now, p.ties, id, TimerKey(PlaneShardBits(id), TieFor(p.ties, id).bits));
  }

  /** On an unpinned plane too, the width changes only to one that leads with quorum and led
      with quorum a full window earlier. */
  lemma {:induction false} PlaneBitsSafety(c: Config, run: seq<Pass>, id: byte)
    requires ValidRun(c, run) && run != [] && id !in c.pinPlanes
    requires PlaneBefore(StateAt(c, run), id).shardBits != PlaneBefore(StateAt(c, run[..|run| - 1]), id).shardBits
    ensures var n := |run| - 1;
      var bits, ss := PlaneBefore(StateAt(c, run), id).shardBits, SaidOf(Voters(run[n]), id);
      && LedPlaneBits(c, run, id, n, bits)
      && exists j: nat :: LedPlaneBits(c, run, id, j, bits)
                          && WindowSince(run, j, Window(c, IntervalOf(PlaneBits(ss), bits)))
  {
    var n := |run| - 1;
    var st, p := StateAt(c, run[..n]), run[n];
    var bits := TieFor(p.ties, id).bits;
    var k := TimerKey(PlaneShardBits(id), bits);
    PlaneBitsChange(c, run, id);
    hide StateAt, Called, Cleared, PlaneBits, SaidOf, Leads, HasQuorum, Announced, PlaneNewBits;
    CallMeaning(c, st, Voters(p), p.now, p.ties, k);
    var j := ElapsedSince(c, run, k, Window(c, IntervalOf(PlaneBits(SaidOf(Voters(p), id)), bits)));
    CallMeaning(c, StateAt(c, run[..j]), Voters(run[j]), run[j].now, run[j].ties, k);
    assert LedPlaneBits(c, run, id, j, bits);
  }

  ghost predicate LedPlaneSuccessor(c: Config, run: seq<Pass>, id: byte, j: nat, hash: nat) {
    j < |run| &&
    var p, es := run[j], Voters(run[j]);
    var key := TieFor(p.ties, id).succ;
    && Votes(c, es, id) && SuccHash(key) == hash
    && Leads(PlaneSuccs(SaidOf(es, id)), c.quorum, key)
    && WithinOneBit(PlaneNewBits(c, StateAt(c, run[..j]), es, p.now, p.ties, id), key.shardBits)
  }

  lemma {:induction false} PlaneSuccessorChange(c: Config, run: seq<Pass>, id: byte)
    requires run != []
    requires PlaneBefore(StateAt(c, run), id).successor != PlaneBefore(StateAt(c, run[..|run| - 1]), id).successor
    ensures var n := |run| - 1;
      var st, p := StateAt(c, run[..n]), run[n];
      var key := TieFor(p.ties, id).succ;
      var k := TimerKey(PlaneSuccessor(id), SuccHash(key));
      if PlaneClears(c, Voters(p), id) then PlaneBefore(StateAt(c, run), id).successor == None
      else
        && PlaneBefore(StateAt(c, run), id).successor == Some(View(key, p.now))
        && k in CalledAt(c, run, n)
        && Elapsed(st.timers, k, p.now, Window(c, IntervalOf(PlaneSuccs(SaidOf(Voters(p), id)), key)))
  {
    hide StateAt, Called, PlaneSuccs, SaidOf, HasQuorum, PlaneIds, PlaneNewMode, PlaneNewBits, PlaneBitsCall,
      PlaneModeCall, Disagree, Dissents, SuccHash, PlaneBits, Announced;
    var n := |run| - 1;
    var st, p := StateAt(c, run[..n]), run[n];
    PlaneNext(c, run, id);
    PlaneCallsSucc(c, st, Voters(p), p.now, p.ties, id);
  }

  lemma {:induction false} PlaneCallsSucc(c: Config, st: State, es: seq<Entry>, now: int, t: Ties, id: byte)
    ensures PlaneSuccCall(c, st, es, now, t, id).Some? ==>
      PlaneSuccCall(c, st, es, now, t, id).value in Called(c, st, es, now, t) && !PlaneClears(c, es, id)
  {
    hide Called, SuccHash, PlaneNewBits, SaidOf, Announced;
    if PlaneSuccCall(c, st, es, now, t, id).Some? {
      PlaneCalled(c, st, es, now, t, id, PlaneSuccCall(c, st, es, now, t, id).value);
    }
  }

  /** Only an announced, unpinned plane on which nobody announces a successor clears its view. A
      view is installed only for a candidate that leads with quorum within one bit of the plane's
      width, a full window after its timer started, with no such clearing in between. */
  lemma {:induction false} PlaneSuccessorSafety(c: Config, run: seq<Pass>, id: byte)
    requires ValidRun(c, run) && run != []
    requires PlaneBefore(StateAt(c, run), id).successor != PlaneBefore(StateAt(c, run[..|run| - 1]), id).successor
    ensures var n := |run| - 1;
      var p, after := run[n], PlaneBefore(StateAt(c, run), id).successor;
      var key := TieFor(p.ties, id).succ;
      if PlaneClears(c, Voters(p), id) then after == None
      else
        && after == Some(View(key, p.now))
        && LedPlaneSuccessor(c, run, id, n, SuccHash(key))
        && exists j: nat ::
             && LedPlaneSuccessor(c, run, id, j, SuccHash(key))
             && WindowSince(run, j, Window(c, IntervalOf(PlaneSuccs(SaidOf(Voters(p), id)), key)))
             && forall i :: j < i < n ==> !PlaneClears(c, Voters(run[i]), id)
  {
    PlaneSuccessorChange(c, run, id);
    if !PlaneClears(c, Voters(run[|run| - 1]), id) {
      hide StateAt, LedPlaneSuccessor, WindowSince, SuccHash, PlaneSuccs, SaidOf, CalledAt, PlaneClears, PlaneBefore,
        TieFor;
      var j := PlaneSuccessorSince(c, run, id);
    }
  }

  lemma {:induction false} PlaneSuccessorSince(c: Config, run: seq<Pass>, id: byte) returns (since: nat)
    requires ValidRun(c, run) && run != []
    requires var n, p := |run| - 1, run[|run| - 1];
      var key := TieFor(p.ties, id).succ;
      var k := TimerKey(PlaneSuccessor(id), SuccHash(key));
      && k in CalledAt(c, run, n)
      && Elapsed(StateAt(c, run[..n]).timers, k, p.now, Window(c, IntervalOf(PlaneSuccs(SaidOf(Voters(p), id)), key)))
    ensures var n, p := |run| - 1, run[|run| - 1];
      var key := TieFor(p.ties, id).succ;
      && LedPlaneSuccessor(c, run, id, n, SuccHash(key))
      && LedPlaneSuccessor(c, run, id, since, SuccHash(key))
      && WindowSince(run, since, Window(c, IntervalOf(PlaneSuccs(SaidOf(Voters(p), id)), key)))
      && forall i :: since < i < n ==> !PlaneClears(c, Voters(run[i]), id)
  {
    hide StateAt, Called, ClearedAt, PlaneSuccs, SaidOf, SuccHash, LedPlaneSuccessor, PlaneClears, Elapsed, IntervalOf,
      TieFor;
    var n, p := |run| - 1, run[|run| - 1];
    var key := TieFor(p.ties, id).succ;
    var k := TimerKey(PlaneSuccessor(id), SuccHash(key));
    since := ElapsedSince(c, run, k, Window(c, IntervalOf(PlaneSuccs(SaidOf(Voters(p), id)), key)));
    PlaneCalledMeansLed(c, run, n, id, k);
    PlaneCalledMeansLed(c, run, since, id, k);
    forall i | since < i < n ensures !PlaneClears(c, Voters(run[i]), id) {
      UnclearedPlane(c, run, i, id);
    }
  }

  lemma {:induction false} PlaneCalledMeansLed(c: Config, run: seq<Pass>, j: nat, id: byte, k: TimerKey)
    requires ValidRun(c, run) && j < |run| && k in CalledAt(c, run, j) && k.field == PlaneSuccessor(id)
    ensures LedPlaneSuccessor(c, run, id, j, k.value)
  {
    hide StateAt, Called, PlaneSuccs, SaidOf, Leads, HasQuorum, PlaneNewBits, SuccHash, Votes, TieFor;
    CallMeaning(c, StateAt(c, run[..j]), Voters(run[j]), run[j].now, run[j].ties, k);
  }

  lemma {:induction false} UnclearedPlane(c: Config, run: seq<Pass>, i: nat, id: byte)
    requires i < |run| && PlaneSuccessor(id) !in ClearedAt(c, run, i)
    ensures !PlaneClears(c, Voters(run[i]), id)
  {
    hide SuccBallots, HasQuorum, StateAt, PlaneSuccs, SaidOf, Announced;
  }

  // ---- who counts -----------------------------------------------------------------------

  /** Two runs see the same authoritative entries, at the same times, with the same choices. */
  predicate SameVoters(a: seq<Pass>, b: seq<Pass>) {
    |a| == |b| && forall i :: 0 <= i < |a| ==>
      Voters(a[i]) == Voters(b[i]) && a[i].now == b[i].now && a[i].ties == b[i].ties
  }

  /** Runs that differ only in entries of non-authoritative announcers agree on the whole state
      and on everything reported but the source set. */
  lemma {:induction false} OnlyVotersCount(c: Config, a: seq<Pass>, b: seq<Pass>)
    requires SameVoters(a, b)
    ensures StateAt(c, a) == StateAt(c, b)
    ensures a != [] ==>
      var p, q := a[|a| - 1], b[|b| - 1];
      var st := StateAt(c, a[..|a| - 1]);
      Report(c, st, p.snap, p.now, p.ties) == Report(c, st, q.snap, q.now, q.ties).(sourceSet := SourceSet(p.snap))
    decreases |a|
  {
    hide After, Auth, Report;
    if a != [] {
      var n := |a| - 1;
      OnlyVotersCount(c, a[..n], b[..n]);
      SameReport(c, StateAt(c, a[..n]), a[n].snap, b[n].snap, a[n].now, a[n].ties) by {
        assert Voters(a[n]) == Voters(b[n]);
      }
    }
  }

  lemma {:induction false} SameReport(c: Config, st: State, a: seq<Entry>, b: seq<Entry>, now: int, t: Ties)
    requires Auth(a) == Auth(b)
    ensures Report(c, st, a, now, t) == Report(c, st, b, now, t).(sourceSet := SourceSet(a))
  {
    hide After, OutBits, KeptMode, SuccElapsed, KeptSuccessor, TopQuorum, TopDivergence, PilotGroups, SourceSet, Auth;
  }

  /** The authoritative announcers in `snap` whose candidate for the width is `v`. */
  function Supporters(snap: seq<Entry>, v: byte): set<Key> {
    set e | e in snap && Authoritative(e) && e.shardBits == v :: e.key
  }

  /** Over a registry snapshot, a width's tally is the number of distinct authoritative
      announcers of that width. */
  lemma {:induction false} TallyCountsAnnouncers(snap: seq<Entry>, v: byte)
    requires Ordered(snap)
    ensures Count(BitsBallots(Auth(snap)), v) == |Supporters(snap, v)|
    decreases |snap|
  {
    hide KeyBefore;
    if snap != [] {
      hide Supporters, Count, BitsBallots, Auth, Ordered;
      assert Ordered(snap[..|snap| - 1]) by { OrderedPrefix(snap); }
      TallyCountsAnnouncers(snap[..|snap| - 1], v);
      BallotNext(snap, v);
      SupportersNext(snap, v);
    }
  }

  lemma {:induction false} OrderedPrefix(snap: seq<Entry>)
    requires snap != [] && Ordered(snap)
    ensures Ordered(snap[..|snap| - 1])
  {
    hide KeyBefore;
  }

  /** The last entry's announcer is new, since a snapshot lists each announcer once. */
  lemma {:induction false} SupportersNext(snap: seq<Entry>, v: byte)
    requires snap != [] && Ordered(snap)
    ensures var n := |snap| - 1;
      |Supporters(snap, v)|
        == |Supporters(snap[..n], v)| + if Authoritative(snap[n]) && snap[n].shardBits == v then 1 else 0
  {
    hide KeyBefore, Authoritative;
    var n := |snap| - 1;
    var prev, e := snap[..n], snap[n];
    SnapshotDistinct(snap);
    forall x | x in prev ensures x.key != e.key {
      var i :| 0 <= i < n && prev[i] == x;
      assert snap[i] == x;
    }
    SupportersOf(prev, e, v);
    assert snap == prev + [e];
    hide Ordered;
    assert e.key !in Supporters(prev, v);
  }

  lemma {:induction false} SupportersOf(prev: seq<Entry>, e: Entry, v: byte)
    ensures Supporters(prev + [e], v)
         == Supporters(prev, v) + if Authoritative(e) && e.shardBits == v then {e.key} else {}
  {
    hide Authoritative;
    assert e in prev + [e];
  }

  lemma {:induction false} BallotNext(snap: seq<Entry>, v: byte)
    requires snap != []
    ensures var n := |snap| - 1;
      Count(BitsBallots(Auth(snap)), v)
        == Count(BitsBallots(Auth(snap[..n])), v) + if Authoritative(snap[n]) && snap[n].shardBits == v then 1 else 0
  {
    var n := |snap| - 1;
    var a := Auth(snap[..n]);
    if Authoritative(snap[n]) {
      var b := a + [snap[n]];
      assert b[..|a|] == a;
      assert Auth(snap) == b;
      BallotOfLast(b, v);
    } else {
      assert Auth(snap) == a;
    }
  }

  lemma {:induction false} BallotOfLast(es: seq<Entry>, v: byte)
    requires es != []
    ensures var n := |es| - 1;
      Count(BitsBallots(es), v) == Count(BitsBallots(es[..n]), v) + if es[n].shardBits == v then 1 else 0
  {
    var bs := BitsBallots(es);
    assert bs[..|bs| - 1] == BitsBallots(es[..|es| - 1]);
  }

  /** Over registry snapshots, the adopted width changes only when a quorum of distinct
      authoritative announcers asks for it now and a quorum asked for it a full window ago, each
      time as many as for any other width. */
  lemma {:induction false} WidthNeedsQuorum(c: Config, run: seq<Pass>)
    requires ValidRun(c, run) && run != []
    requires forall i :: 0 <= i < |run| ==> Ordered(run[i].snap)
    requires StateAt(c, run).shardBits != StateAt(c, run[..|run| - 1]).shardBits
    ensures var n, bits := |run| - 1, StateAt(c, run).shardBits;
      && MostSupported(c, run[n].snap, bits)
      && exists j: nat :: WindowSince(run, j, Window(c, IntervalOf(BitsBallots(Voters(run[n])), bits)))
                          && MostSupported(c, run[j].snap, bits)
  {
    hide StateAt, BitsBallots, Ordered, MostSupported;
    BitsSafety(c, run);
    var n, bits := |run| - 1, StateAt(c, run).shardBits;
    var j: nat :| LedBits(c, run, j, bits)
                  && WindowSince(run, j, Window(c, IntervalOf(BitsBallots(Voters(run[n])), bits)));
    LeaderIsMostSupported(c, run[n].snap, bits);
    LeaderIsMostSupported(c, run[j].snap, bits);
  }

  ghost predicate MostSupported(c: Config, snap: seq<Entry>, bits: byte) {
    && |Supporters(snap, bits)| >= c.quorum
    && forall v: byte :: |Supporters(snap, v)| <= |Supporters(snap, bits)|
  }

  lemma {:induction false} LeaderIsMostSupported(c: Config, snap: seq<Entry>, bits: byte)
    requires Ordered(snap) && Leads(BitsBallots(Auth(snap)), c.quorum, bits)
    ensures MostSupported(c, snap, bits)
  {
    hide Supporters, BitsBallots, Auth, Ordered;
    TallyCountsAnnouncers(snap, bits);
    forall v: byte ensures |Supporters(snap, v)| <= |Supporters(snap, bits)| {
      TallyCountsAnnouncers(snap, v);
    }
  }

  // ---- adoption, from the manifests received --------------------------------------------

  /** At least a quorum of announcers have a standing authoritative manifest of the width, as many
      as for any other width. */
  ghost predicate MostBacked(c: Config, ttl: int, history: seq<Step>, bits: byte) {
    && |Backers(ttl, history, bits)| >= c.quorum
    && forall v: byte :: |Backers(ttl, history, v)| <= |Backers(ttl, history, bits)|
  }

  /** Pass `i` evaluates a snapshot of the registry after the first `cuts[i]` steps. */
  ghost predicate Observes(run: seq<Pass>, ttl: int, history: seq<Step>, cuts: seq<nat>) {
    && |cuts| == |run|
    && (forall i :: 0 <= i < |run| ==> cuts[i] <= |history|)
    && (forall i, j :: 0 <= i < j < |run| ==> cuts[i] <= cuts[j])
    && (forall i :: 0 <= i < |run| ==> IsSnapshot(Held(ttl, history[..cuts[i]]), run[i].snap))
  }

  /** Registry and evaluator together: the adopted width changes only when a quorum of announcers
      whose latest manifests stand in the registry declare it now, and a quorum of announcers whose
      latest manifests stood a full window ago declared it then. */
  lemma {:induction false} WidthNeedsManifests(c: Config, run: seq<Pass>, ttl: int, history: seq<Step>, cuts: seq<nat>)
    requires ValidRun(c, run) && run != [] && Observes(run, ttl, history, cuts)
    requires StateAt(c, run).shardBits != StateAt(c, run[..|run| - 1]).shardBits
    ensures var n, bits := |run| - 1, StateAt(c, run).shardBits;
      && MostBacked(c, ttl, history[..cuts[n]], bits)
      && exists j: nat :: WindowSince(run, j, Window(c, IntervalOf(BitsBallots(Voters(run[n])), bits)))
                          && MostBacked(c, ttl, history[..cuts[j]], bits)
  {
    hide StateAt, BitsBallots, Ordered, MostSupported, MostBacked, Held;
    WidthNeedsQuorum(c, run);
    var n, bits := |run| - 1, StateAt(c, run).shardBits;
    var j: nat :| WindowSince(run, j, Window(c, IntervalOf(BitsBallots(Voters(run[n])), bits)))
                  && MostSupported(c, run[j].snap, bits);
    SupportIsBacking(c, ttl, history[..cuts[n]], run[n].snap, bits);
    SupportIsBacking(c, ttl, history[..cuts[j]], run[j].snap, bits);
  }

  lemma {:induction false} SupportIsBacking(c: Config, ttl: int, history: seq<Step>, snap: seq<Entry>, bits: byte)
    requires IsSnapshot(Held(ttl, history), snap) && MostSupported(c, snap, bits)
    ensures MostBacked(c, ttl, history, bits)
  {
    hide Held, Backers, IsSnapshot;
    SnapshotBackers(ttl, history, snap, bits);
    forall v: byte ensures |Backers(ttl, history, v)| <= |Backers(ttl, history, bits)| {
      SnapshotBackers(ttl, history, snap, v);
      assert |Supporters(snap, v)| <= |Supporters(snap, bits)|;
    }
  }
}
