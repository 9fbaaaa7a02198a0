/** One evaluation pass: quorum, hysteresis and successor rules over a registry snapshot, for the
    transaction plane and for every object plane. Where candidates tie, the source takes
    whichever its map iteration meets first; a pass therefore takes its choices as an input,
    restricted to leading candidates. */
module Evaluator {
  import opened Bytes
  import opened Domains
  import opened ManifestCodec
  import opened Registry

  // ---- ballots and tallies --------------------------------------------------------------

  /** One announcer's candidate, with its announce interval. */
  datatype Ballot<T> = Ballot(value: T, interval: u16)

  datatype Tally = Tally(count: nat, interval: u16)

  function Bump<T(==)>(m: map<T, Tally>, b: Ballot<T>): map<T, Tally> {
    if b.value in m then m[b.value := m[b.value].(count := m[b.value].count + 1)]
    else m[b.value := Tally(1, b.interval)]
  }

  /** Counts per candidate, with the interval of its first announcer. */
  function TallyOf<T(==)>(bs: seq<Ballot<T>>): map<T, Tally> {
    if bs == [] then map[] else Bump(TallyOf(bs[..|bs| - 1]), bs[|bs| - 1])
  }

  function Count<T(==)>(bs: seq<Ballot<T>>, v: T): nat {
    if bs == [] then 0 else Count(bs[..|bs| - 1], v) + if bs[|bs| - 1].value == v then 1 else 0
  }

  /** `v` has quorum and no candidate has more ballots. */
  ghost predicate Leads<T(!new)>(bs: seq<Ballot<T>>, quorum: nat, v: T) {
    quorum <= Count(bs, v) && 0 < Count(bs, v) && forall w: T :: Count(bs, w) <= Count(bs, v)
  }

  ghost predicate HasQuorum<T(!new)>(bs: seq<Ballot<T>>, quorum: nat) {
    exists v: T :: quorum <= Count(bs, v) && 0 < Count(bs, v)
  }

  function IntervalOf<T(==)>(bs: seq<Ballot<T>>, v: T): u16 {
    if v in TallyOf(bs) then TallyOf(bs)[v].interval else 0
  }

  predicate Disagree<T(==)>(bs: seq<Ballot<T>>) {
    exists i, j :: 0 <= i < |bs| && 0 <= j < |bs| && bs[i].value != bs[j].value
  }

  predicate Dissents<T(==)>(bs: seq<Ballot<T>>, pin: T) {
    exists i :: 0 <= i < |bs| && bs[i].value != pin
  }

  // ---- what announcers say --------------------------------------------------------------

  /** A successor candidate is adopted as a unit. */
  datatype SuccKey = SuccKey(generation: Id16, shardBits: byte, transitionEpoch: u32, ssm: bool)

  function SuccKeyOf(s: Successor): SuccKey {
    SuccKey(s.generation, s.shardBits, s.transitionEpoch, HasBit(s.flags, 1))
  }

  function Auth(es: seq<Entry>): seq<Entry> {
    if es == [] then []
    else Auth(es[..|es| - 1]) + if Authoritative(es[|es| - 1]) then [es[|es| - 1]] else []
  }

  function BitsBallots(es: seq<Entry>): (bs: seq<Ballot<byte>>) {
    if es == [] then []
    else BitsBallots(es[..|es| - 1]) + [Ballot(es[|es| - 1].shardBits, es[|es| - 1].announceInterval)]
  }

  function ModeBallots(es: seq<Entry>): seq<Ballot<bool>> {
    if es == [] then []
    else ModeBallots(es[..|es| - 1]) + [Ballot(SourceModeSSM(es[|es| - 1]), es[|es| - 1].announceInterval)]
  }

  function SuccBallots(es: seq<Entry>): seq<Ballot<SuccKey>> {
    if es == [] then []
    else
      var e := es[|es| - 1];
      SuccBallots(es[..|es| - 1])
        + if e.successor.Some? then [Ballot(SuccKeyOf(e.successor.value), e.announceInterval)] else []
  }

  /** The descriptors of plane `id`, with their announcers' intervals. */
  datatype Said = Said(d: Domain, interval: u16)

  function SaidIn(ds: seq<Domain>, interval: u16, id: byte): seq<Said> {
    if ds == [] then []
    else SaidIn(ds[..|ds| - 1], interval, id) + if ds[|ds| - 1].id == id then [Said(ds[|ds| - 1], interval)] else []
  }

  function SaidOf(es: seq<Entry>, id: byte): seq<Said> {
    if es == [] then []
    else SaidOf(es[..|es| - 1], id) + SaidIn(es[|es| - 1].domains, es[|es| - 1].announceInterval, id)
  }

  function PlaneBits(ss: seq<Said>): seq<Ballot<byte>> {
    if ss == [] then []
    else PlaneBits(ss[..|ss| - 1]) + [Ballot(ss[|ss| - 1].d.shardBits, ss[|ss| - 1].interval)]
  }

  function PlaneModes(ss: seq<Said>): seq<Ballot<bool>> {
    if ss == [] then []
    else PlaneModes(ss[..|ss| - 1]) + [Ballot(HasBit(ss[|ss| - 1].d.flags, 1), ss[|ss| - 1].interval)]
  }

  function PlaneSuccs(ss: seq<Said>): seq<Ballot<SuccKey>> {
    if ss == [] then []
    else
      var s := ss[|ss| - 1];
      PlaneSuccs(ss[..|ss| - 1])
        + if s.d.successor.Some? then [Ballot(SuccKeyOf(s.d.successor.value), s.interval)] else []
  }

  // ---- configuration and state ----------------------------------------------------------

  datatype Config = Config(
    quorum: nat, hysteresis: int, pinBits: Option<byte>, pinMode: Option<bool>, pinPlanes: map<byte, byte>)

  predicate ValidConfig(c: Config) {
    c.quorum >= 1
  }

  datatype Field = ShardBits | SourceMode | TopSuccessor | PlaneShardBits(id: byte) | PlaneSourceMode(id: byte)
    | PlaneSuccessor(id: byte)

  /** Identifies one hysteresis timer: a field and the hashed candidate value. */
  datatype TimerKey = TimerKey(field: Field, value: nat)

  datatype View = View(key: SuccKey, firstObserved: int)

  datatype Plane = Plane(shardBits: byte, ssm: bool, successor: Option<View>, quorumMet: bool, divergent: bool)

  const NO_PLANE := Plane(0, false, None, false, false)

  datatype State = State(
    timers: map<TimerKey, int>, shardBits: byte, ssm: bool, successor: Option<View>, planes: map<byte, Plane>)

  const INITIAL := State(map[], 0, false, None, map[])

  /** What a pass reports. */
  datatype Adopted = Adopted(
    shardBits: byte, ssm: bool, pilotGroups: set<u16>, sourceSet: set<Id16>, successor: Option<View>,
    pilotsKnown: nat, quorumMet: map<Field, bool>, divergence: set<Field>, planes: map<byte, Plane>)

  /** The candidates taken where several lead. */
  datatype Ties = Ties(bits: byte, ssm: bool, succ: SuccKey, planes: map<byte, PlaneTies>)
  datatype PlaneTies = PlaneTies(bits: byte, ssm: bool, succ: SuccKey)

  // ---- timers ---------------------------------------------------------------------------

  /** The window a candidate must wait: the configured one, else twice the announce interval. */
  function Window(c: Config, interval: u16): int {
    if c.hysteresis != 0 then c.hysteresis else 2 * interval * SECOND
  }

  /** Whether a timer consulted at `now` has run its window; a new timer starts now. */
  predicate Elapsed(timers: map<TimerKey, int>, k: TimerKey, now: int, window: int) {
    if k in timers then now - timers[k] >= window else window == 0
  }

  /** The timers after a pass that consulted `called` and cleared the fields `cleared`. */
  function Timers(timers: map<TimerKey, int>, called: set<TimerKey>, cleared: set<Field>, now: int)
    : (r: map<TimerKey, int>)
  {
    map k | k in timers.Keys + called && k.field !in cleared :: if k in timers then timers[k] else now
  }

  function HashFold(h: nat, s: bytes): nat {
    if s == [] then h else (HashFold(h, s[..|s| - 1]) * 131 + s[|s| - 1]) % TWO64
  }

  /** The 64-bit fold that identifies a successor candidate's timer. */
  function SuccHash(k: SuccKey): nat {
    var h := (HashFold(0, k.generation) * 131 + k.shardBits) % TWO64;
    var g := (h * 131 + k.transitionEpoch) % TWO64;
    if k.ssm then (g * 131 + 1) % TWO64 else g
  }

  function BoolCode(b: bool): nat {
    if b then 1 else 0
  }

  // ---- the transaction plane ------------------------------------------------------------

  /** The timer the shard-bits rule consults, if it consults one. */
  ghost function BitsCall(c: Config, st: State, es: seq<Entry>, now: int, t: Ties): Option<TimerKey> {
    var k := TimerKey(ShardBits, t.bits);
    if c.pinBits.None? && HasQuorum(BitsBallots(es), c.quorum) && (k in st.timers ==> st.timers[k] <= now)
    then Some(k) else None
  }

  ghost predicate BitsAdopted(c: Config, st: State, es: seq<Entry>, now: int, t: Ties) {
    var call := BitsCall(c, st, es, now, t);
    call.Some? && Elapsed(st.timers, call.value, now, Window(c, IntervalOf(BitsBallots(es), t.bits)))
  }

  /** The last adopted width, after this pass. */
  ghost function KeptBits(c: Config, st: State, es: seq<Entry>, now: int, t: Ties): byte {
    if BitsAdopted(c, st, es, now, t) then t.bits else st.shardBits
  }

  ghost function OutBits(c: Config, st: State, es: seq<Entry>, now: int, t: Ties): byte {
    if c.pinBits.Some? then c.pinBits.value else KeptBits(c, st, es, now, t)
  }

  ghost function ModeCall(c: Config, es: seq<Entry>, t: Ties): Option<TimerKey> {
    if c.pinMode.None? && HasQuorum(ModeBallots(es), c.quorum) then Some(TimerKey(SourceMode, BoolCode(t.ssm)))
      else None
  }

  ghost function KeptMode(c: Config, st: State, es: seq<Entry>, now: int, t: Ties): bool {
    var call := ModeCall(c, es, t);
    if call.Some? && Elapsed(st.timers, call.value, now, Window(c, IntervalOf(ModeBallots(es), t.ssm)))
    then t.ssm else st.ssm
  }

  ghost function SuccCall(c: Config, st: State, es: seq<Entry>, now: int, t: Ties): Option<TimerKey> {
    if HasQuorum(SuccBallots(es), c.quorum) && WithinOneBit(OutBits(c, st, es, now, t), t.succ.shardBits)
    then Some(TimerKey(TopSuccessor, SuccHash(t.succ))) else None
  }

  ghost predicate SuccElapsed(c: Config, st: State, es: seq<Entry>, now: int, t: Ties) {
    var call := SuccCall(c, st, es, now, t);
    call.Some? && Elapsed(st.timers, call.value, now, Window(c, IntervalOf(SuccBallots(es), t.succ)))
  }

  /** A view is replaced only by one of another generation. */
  function Install(v: Option<View>, k: SuccKey, now: int): Option<View> {
    if v.Some? && v.value.key.generation == k.generation then v else Some(View(k, now))
  }

  ghost function KeptSuccessor(c: Config, st: State, es: seq<Entry>, now: int, t: Ties): Option<View> {
    if !HasQuorum(SuccBallots(es), c.quorum) then None
    else if SuccElapsed(c, st, es, now, t) then Install(st.successor, t.succ, now)
    else st.successor
  }

  // ---- object planes --------------------------------------------------------------------

  function Announced(es: seq<Entry>): set<byte> {
    set e, i | e in es && 0 <= i < |e.domains| && e.domains[i].id != 0 :: e.domains[i].id
  }

  function PlaneIds(c: Config, st: State, es: seq<Entry>): set<byte> {
    Announced(es) + (set id | id in c.pinPlanes && id != 0) + st.planes.Keys
  }

  function PlaneBefore(st: State, id: byte): Plane {
    if id in st.planes then st.planes[id] else NO_PLANE
  }

  predicate Votes(c: Config, es: seq<Entry>, id: byte) {
    id !in c.pinPlanes && id in Announced(es)
  }

  function TieFor(t: Ties, id: byte): PlaneTies {
    if id in t.planes then t.planes[id] else PlaneTies(0, false, SuccKey(seq(16, _ => 0), 0, 0, false))
  }

  ghost function PlaneBitsCall(c: Config, es: seq<Entry>, t: Ties, id: byte): Option<TimerKey> {
    if Votes(c, es, id) && HasQuorum(PlaneBits(SaidOf(es, id)), c.quorum)
    then Some(TimerKey(PlaneShardBits(id), TieFor(t, id).bits)) else None
  }

  ghost function PlaneModeCall(c: Config, es: seq<Entry>, t: Ties, id: byte): Option<TimerKey> {
    if Votes(c, es, id) && HasQuorum(PlaneModes(SaidOf(es, id)), c.quorum)
    then Some(TimerKey(PlaneSourceMode(id), BoolCode(TieFor(t, id).ssm))) else None
  }

  ghost function PlaneNewBits(c: Config, st: State, es: seq<Entry>, now: int, t: Ties, id: byte): byte {
    var call := PlaneBitsCall(c, es, t, id);
    if id in c.pinPlanes then c.pinPlanes[id]
    else if call.Some? && Elapsed(st.timers, call.value, now,
                                  Window(c, IntervalOf(PlaneBits(SaidOf(es, id)), TieFor(t, id).bits)))
    then TieFor(t, id).bits
    else PlaneBefore(st, id).shardBits
  }

  ghost function PlaneNewMode(c: Config, st: State, es: seq<Entry>, now: int, t: Ties, id: byte): bool {
    var call := PlaneModeCall(c, es, t, id);
    if call.Some? && Elapsed(st.timers, call.value, now,
                             Window(c, IntervalOf(PlaneModes(SaidOf(es, id)), TieFor(t, id).ssm)))
    then TieFor(t, id).ssm
    else PlaneBefore(st, id).ssm
  }

  ghost function PlaneSuccCall(c: Config, st: State, es: seq<Entry>, now: int, t: Ties, id: byte): Option<TimerKey> {
    if && Votes(c, es, id) && HasQuorum(PlaneSuccs(SaidOf(es, id)), c.quorum)
       && WithinOneBit(PlaneNewBits(c, st, es, now, t, id), TieFor(t, id).succ.shardBits)
    then Some(TimerKey(PlaneSuccessor(id), SuccHash(TieFor(t, id).succ))) else None
  }

  /** A plane's successor is cleared when it is announced and nobody announces a successor. */
  predicate PlaneClears(c: Config, es: seq<Entry>, id: byte) {
    Votes(c, es, id) && PlaneSuccs(SaidOf(es, id)) == []
  }

  ghost function PlaneNewSuccessor(c: Config, st: State, es: seq<Entry>, now: int, t: Ties, id: byte): Option<View> {
    var call := PlaneSuccCall(c, st, es, now, t, id);
    var was := PlaneBefore(st, id).successor;
    if call.Some? && Elapsed(st.timers, call.value, now,
                             Window(c, IntervalOf(PlaneSuccs(SaidOf(es, id)), TieFor(t, id).succ)))
    then Install(was, TieFor(t, id).succ, now)
    else if PlaneClears(c, es, id) then None
    else was
  }

  ghost function PlaneAfter(c: Config, st: State, es: seq<Entry>, now: int, t: Ties, id: byte): Plane {
    var bs := PlaneBits(SaidOf(es, id));
    Plane(PlaneNewBits(c, st, es, now, t, id),
          PlaneNewMode(c, st, es, now, t, id),
          PlaneNewSuccessor(c, st, es, now, t, id),
          id in c.pinPlanes || (Votes(c, es, id) && HasQuorum(bs, c.quorum)),
          if id in c.pinPlanes then Dissents(bs, c.pinPlanes[id]) else Disagree(bs))
  }

  // ---- the pass -------------------------------------------------------------------------

  function Opt(k: Option<TimerKey>): set<TimerKey> {
    if k.Some? then {k.value} else {}
  }

  ghost function PlaneCalls(c: Config, st: State, es: seq<Entry>, now: int, t: Ties, id: byte): set<TimerKey> {
    Opt(PlaneBitsCall(c, es, t, id)) + Opt(PlaneModeCall(c, es, t, id)) + Opt(PlaneSuccCall(c, st, es, now, t, id))
  }

  ghost function TopCalls(c: Config, st: State, es: seq<Entry>, now: int, t: Ties): set<TimerKey> {
    Opt(BitsCall(c, st, es, now, t)) + Opt(ModeCall(c, es, t)) + Opt(SuccCall(c, st, es, now, t))
  }

  /** Every timer consulted in the pass. */
  ghost function Called(c: Config, st: State, es: seq<Entry>, now: int, t: Ties): set<TimerKey> {
    TopCalls(c, st, es, now, t)
      + set id, k | id in PlaneIds(c, st, es) && k in PlaneCalls(c, st, es, now, t, id) :: k
  }

  /** Every field whose timers the pass clears. */
  ghost function Cleared(c: Config, st: State, es: seq<Entry>): set<Field> {
    (if HasQuorum(SuccBallots(es), c.quorum) then {} else {TopSuccessor})
      + set id | id in PlaneIds(c, st, es) && PlaneClears(c, es, id) :: PlaneSuccessor(id)
  }

  /** The choices are leading candidates wherever there is a quorum to choose from. */
  ghost predicate TiesOk(c: Config, es: seq<Entry>, t: Ties) {
    && (HasQuorum(BitsBallots(es), c.quorum) ==> Leads(BitsBallots(es), c.quorum, t.bits))
    && (HasQuorum(ModeBallots(es), c.quorum) ==> Leads(ModeBallots(es), c.quorum, t.ssm))
    && (HasQuorum(SuccBallots(es), c.quorum) ==> Leads(SuccBallots(es), c.quorum, t.succ))
    && (forall id :: id in Announced(es) ==> PlaneTiesOk(c, es, TieFor(t, id), id))
  }

  ghost predicate PlaneTiesOk(c: Config, es: seq<Entry>, p: PlaneTies, id: byte) {
    var ss := SaidOf(es, id);
    && (HasQuorum(PlaneBits(ss), c.quorum) ==> Leads(PlaneBits(ss), c.quorum, p.bits))
    && (HasQuorum(PlaneModes(ss), c.quorum) ==> Leads(PlaneModes(ss), c.quorum, p.ssm))
    && (HasQuorum(PlaneSuccs(ss), c.quorum) ==> Leads(PlaneSuccs(ss), c.quorum, p.succ))
  }

  /** The evaluator's state after a pass over the authoritative entries `es`. */
  ghost function After(c: Config, st: State, es: seq<Entry>, now: int, t: Ties): State {
    State(Timers(st.timers, Called(c, st, es, now, t), Cleared(c, st, es), now),
          KeptBits(c, st, es, now, t), KeptMode(c, st, es, now, t), KeptSuccessor(c, st, es, now, t),
          map id | id in PlaneIds(c, st, es) :: PlaneAfter(c, st, es, now, t, id))
  }

  ghost function TopDivergence(c: Config, es: seq<Entry>): set<Field> {
    var bits, modes := BitsBallots(es), ModeBallots(es);
    (if (if c.pinBits.Some? then Dissents(bits, c.pinBits.value) else Disagree(bits)) then {ShardBits} else {})
      + (if (if c.pinMode.Some? then Dissents(modes, c.pinMode.value)
             else HasQuorum(modes, c.quorum) && Disagree(modes))
         then {SourceMode} else {})
  }

  ghost function TopQuorum(c: Config, st: State, es: seq<Entry>, now: int, t: Ties): map<Field, bool> {
    var m := map[ShardBits := c.pinBits.Some? || HasQuorum(BitsBallots(es), c.quorum),
                 SourceMode := c.pinMode.Some? || HasQuorum(ModeBallots(es), c.quorum)];
    if SuccCall(c, st, es, now, t).Some? then m[TopSuccessor := true] else m
  }

  function PilotGroups(es: seq<Entry>): set<u16> {
    set e, g | e in es && PilotOnly(e) && g in e.groups :: g
  }

  function SourceSet(snap: seq<Entry>): set<Id16> {
    set e, s | e in snap && s in e.sources :: s
  }

  /** What the pass over `snap` reports. */
  ghost function Report(c: Config, st: State, snap: seq<Entry>, now: int, t: Ties): Adopted {
    var es := Auth(snap);
    var planes := After(c, st, es, now, t).planes;
    Adopted(
      OutBits(c, st, es, now, t),
      if c.pinMode.Some? then c.pinMode.value else KeptMode(c, st, es, now, t),
      PilotGroups(es), SourceSet(snap),
      if SuccElapsed(c, st, es, now, t) then KeptSuccessor(c, st, es, now, t) else None,
      |es|,
      TopQuorum(c, st, es, now, t) + map id | id in planes :: PlaneShardBits(id) := planes[id].quorumMet,
      TopDivergence(c, es) + set id | id in planes && planes[id].divergent :: PlaneShardBits(id),
      planes)
  }
}
