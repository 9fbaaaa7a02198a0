/** Two-tier TxID claims: any number of stores race on one create-only backend. A claim is two
    steps, the local test and the backend's SetNX, which interleave freely with other claims,
    failed calls, marks and the mark workers. The backend is the cache's plain map. */
module Claims {
  import opened Bytes
  import L = LocalSet
  import R = CacheRuns
  import S = CacheSpec

  // ---- keys -----------------------------------------------------------------------------

  function HexDigit(n: nat): (c: byte)
    requires n < 16
  {
    if n < 10 then 48 + n else 87 + n
  }

  function Hex(b: bytes): (s: bytes)
    ensures |s| == 2 * |b|
  {
    if b == [] then [] else Hex(b[..|b| - 1]) + [HexDigit(b[|b| - 1] / 16), HexDigit(b[|b| - 1] % 16)]
  }

  /** The backend key of a transaction. */
  function KeyOf(prefix: bytes, txid: Hash32): bytes {
    prefix + Hex(txid)
  }

  lemma {:induction false} HexInjective(a: bytes, b: bytes)
    requires Hex(a) == Hex(b)
    ensures a == b
    decreases |a|
  {
    assert |a| == |b|;
    if a != [] {
      var n := |a| - 1;
      HexLast(a);
      HexLast(b);
      hide Hex, HexDigit;
      HexInjective(a[..n], b[..n]);
      DigitsInjective(a[n], b[n]);
      assert a == a[..n] + [a[n]] && b == b[..n] + [b[n]];
    }
  }

  lemma {:induction false} HexLast(a: bytes)
    requires a != []
    ensures var n := |a| - 1;
      && Hex(a)[..2 * n] == Hex(a[..n])
      && Hex(a)[2 * n] == HexDigit(a[n] / 16) && Hex(a)[2 * n + 1] == HexDigit(a[n] % 16)
  {
    hide HexDigit;
  }

  lemma {:induction false} DigitsInjective(x: byte, y: byte)
    requires HexDigit(x / 16) == HexDigit(y / 16) && HexDigit(x % 16) == HexDigit(y % 16)
    ensures x == y
  {
  }

  /** Distinct (prefix, txid) pairs never share a backend key. */
  lemma {:induction false} KeyInjective(p: bytes, x: Hash32, q: bytes, y: Hash32)
    requires KeyOf(p, x) == KeyOf(q, y)
    ensures p == q && x == y
  {
    hide Hex;
    var n := |p|;
    assert |q| == n;
    assert KeyOf(p, x)[..n] == p && KeyOf(q, y)[..n] == q;
    assert KeyOf(p, x)[n..] == Hex(x) && KeyOf(q, y)[n..] == Hex(y);
    HexInjective(x, y);
  }

  // ---- the local tier -------------------------------------------------------------------

  const STRIPES := 64

  datatype Tier = Disabled | Striped(stripes: seq<L.Local>)

  function StripeOf(key: Hash32): (i: nat)
    ensures i < STRIPES
  {
    GetLE(key[..8]) % STRIPES
  }

  predicate TierShaped(t: Tier) {
    t.Striped? ==> |t.stripes| == STRIPES && forall i :: 0 <= i < STRIPES ==> L.Shaped(t.stripes[i])
  }

  function NewTier(capacity: int, ttl: int): (t: Tier)
    ensures TierShaped(t)
  {
    if capacity <= 0 then Disabled
    else Striped(seq(STRIPES, _ => L.Fresh((capacity + STRIPES - 1) / STRIPES, ttl)))
  }

  function Present(t: Tier, key: Hash32, now: int): (r: (Tier, bool))
    requires TierShaped(t)
    ensures TierShaped(r.0)
  {
    if t.Disabled? then (t, false)
    else
      var i := StripeOf(key);
      var (s, seen) := L.Presenting(t.stripes[i], key, now);
      (Striped(t.stripes[i := s]), seen)
  }

  predicate Knows(t: Tier, key: Hash32)
    requires TierShaped(t)
  {
    t.Striped? && key in t.stripes[StripeOf(key)].entries
  }

  lemma {:induction false} NewKnowsNothing(capacity: int, ttl: int, x: Hash32)
    ensures !Knows(NewTier(capacity, ttl), x)
  {
    hide StripeOf, L.Fresh;
  }

  /** The tier learns only the presented key, and reports only keys it knows. */
  lemma {:induction false} PresentLearns(t: Tier, key: Hash32, now: int, x: Hash32)
    requires TierShaped(t)
    ensures Knows(Present(t, key, now).0, x) ==> x == key || Knows(t, x)
    ensures Present(t, key, now).1 ==> Knows(t, key)
  {
    hide StripeOf;
  }

  // ---- the protocol ---------------------------------------------------------------------

  datatype Store = Store(tier: Tier, ttl: int)

  /** A claim that passed its local test and has not called the backend yet. */
  datatype Job = Job(prefix: bytes, txid: Hash32, ttl: int)

  datatype MarkJob = MarkJob(key: bytes, ttl: int)

  /** What a claim returned, and the backend's time when it was decided. */
  datatype Outcome =
    | Suppressed(prefix: bytes, txid: Hash32)
    | Answered(prefix: bytes, txid: Hash32, won: bool, failed: bool, ttl: int, at: int)

  datatype World = World(
    stores: seq<Store>, backend: map<bytes, R.Plain>, pending: seq<Job>, marks: seq<MarkJob>, outcomes: seq<Outcome>)

  /** How a backend call went: it may fail after or before the write took place. */
  datatype Fault = NoFault | Fault(applied: bool)

  datatype Action =
    | Test(store: nat, prefix: bytes, txid: Hash32)
    | Decide(job: nat, fault: Fault)
    | Mark(store: nat, prefix: bytes, txid: Hash32, queued: bool)
    | Drain(job: nat, fault: Fault)

  datatype Event = Event(action: Action, now: int)

  const ONE: bytes := [49]

  /** The backend after a SetNX, and its answer. */
  function Create(b: map<bytes, R.Plain>, key: bytes, ttl: int, now: int): (map<bytes, R.Plain>, bool) {
    var (n, r) := R.PlainStep(b, R.Event(R.SetNX(key, ONE, ttl), now));
    (n, r.ok)
  }

  function BackendAfter(b: map<bytes, R.Plain>, key: bytes, ttl: int, now: int, fault: Fault): map<bytes, R.Plain> {
    if fault.NoFault? || fault.applied then Create(b, key, ttl, now).0 else b
  }

  function Without<T>(s: seq<T>, i: nat): (r: seq<T>)
    requires i < |s|
  {
    s[..i] + s[i + 1..]
  }

  predicate WorldShaped(w: World) {
    forall i :: 0 <= i < |w.stores| ==> TierShaped(w.stores[i].tier)
  }

  /** The local test of a claim. */
  function AfterTest(w: World, i: nat, prefix: bytes, txid: Hash32, now: int): (r: World)
    requires WorldShaped(w) && i < |w.stores|
    ensures WorldShaped(r)
  {
    var s := w.stores[i];
    var (tier, seen) := Present(s.tier, txid, now);
    var stores := w.stores[i := s.(tier := tier)];
    if seen then w.(stores := stores, outcomes := w.outcomes + [Suppressed(prefix, txid)])
    else w.(stores := stores, pending := w.pending + [Job(prefix, txid, s.ttl)])
  }

  /** The backend call of a claim; a failed call lets the claimant proceed. */
  function AfterDecide(w: World, i: nat, fault: Fault, now: int): (r: World)
    requires WorldShaped(w) && i < |w.pending|
    ensures WorldShaped(r)
  {
    var j := w.pending[i];
    var key := KeyOf(j.prefix, j.txid);
    var won := fault.Fault? || Create(w.backend, key, j.ttl, now).1;
    w.(backend := BackendAfter(w.backend, key, j.ttl, now, fault), pending := Without(w.pending, i),
       outcomes := w.outcomes + [Answered(j.prefix, j.txid, won, fault.Fault?, j.ttl, now)])
  }

  function AfterMark(w: World, i: nat, prefix: bytes, txid: Hash32, queued: bool, now: int): (r: World)
    requires WorldShaped(w) && i < |w.stores|
    ensures WorldShaped(r)
  {
    var s := w.stores[i];
    w.(stores := w.stores[i := s.(tier := Present(s.tier, txid, now).0)],
       marks := if queued then w.marks + [MarkJob(KeyOf(prefix, txid), s.ttl)] else w.marks)
  }

  /** One step; an action on something that does not exist does nothing. */
  function Step(w: World, e: Event): (r: World)
    requires WorldShaped(w)
    ensures WorldShaped(r)
  {
    match e.action
    case Test(i, p, x) => if i < |w.stores| then AfterTest(w, i, p, x, e.now) else w
    case Decide(i, fault) => if i < |w.pending| then AfterDecide(w, i, fault, e.now) else w
    case Mark(i, p, x, queued) => if i < |w.stores| then AfterMark(w, i, p, x, queued, e.now) else w
    case Drain(i, fault) =>
      if i < |w.marks| then
        w.(backend := BackendAfter(w.backend, w.marks[i].key, w.marks[i].ttl, e.now, fault),
           marks := Without(w.marks, i))
      else w
  }

  function Play(w: World, run: seq<Event>): (r: World)
    requires WorldShaped(w)
    ensures WorldShaped(r)
  {
    if run == [] then w else Step(Play(w, run[..|run| - 1]), run[|run| - 1])
  }

  // ---- at most one winner per lifetime --------------------------------------------------

  /** The backend's time after a run. */
  function Clock(run: seq<Event>, from: int): int {
    if run == [] then from
    else
      var e := run[|run| - 1];
      if e.action.Decide? || e.action.Drain? then e.now else Clock(run[..|run| - 1], from)
  }

  /** The backend's clock does not step back. */
  predicate Clocked(run: seq<Event>, from: int) {
    run == [] || (Clocked(run[..|run| - 1], from) && Clock(run[..|run| - 1], from) <= Clock(run, from))
  }

  /** The claimant was told it is first, by a backend call that succeeded. */
  predicate CleanWin(o: Outcome) {
    o.Answered? && o.won && !o.failed
  }

  /** The key a winner created is still there, unless its lifetime has passed. */
  predicate Held(b: map<bytes, R.Plain>, o: Outcome, clock: int)
    requires o.Answered?
  {
    var k := KeyOf(o.prefix, o.txid);
    k in b &&
    if S.Expires(o.ttl, o.at) then clock >= o.at + o.ttl || b[k].expiry == Some(o.at + o.ttl) else b[k].expiry == None
  }

  /** Of two winners, the first one's lifetime has passed when the second wins. */
  predicate Apart(a: Outcome, b: Outcome)
    requires a.Answered? && b.Answered?
  {
    S.Expires(a.ttl, a.at) && b.at >= a.at + a.ttl
  }

  ghost predicate Fair(w: World, clock: int) {
    && (forall a :: 0 <= a < |w.outcomes| && CleanWin(w.outcomes[a]) ==> Held(w.backend, w.outcomes[a], clock))
    && (forall a, b :: 0 <= a < b < |w.outcomes| && CleanWin(w.outcomes[a]) && CleanWin(w.outcomes[b])
                       && w.outcomes[a].prefix == w.outcomes[b].prefix && w.outcomes[a].txid == w.outcomes[b].txid
                       ==> Apart(w.outcomes[a], w.outcomes[b]))
  }

  lemma {:induction false} HeldStays(b: map<bytes, R.Plain>, o: Outcome, clock: int, key: bytes, ttl: int, now: int,
                                     fault: Fault)
    requires o.Answered? && Held(b, o, clock) && clock <= now
    ensures Held(BackendAfter(b, key, ttl, now, fault), o, now)
  {
    hide KeyOf;
  }

  lemma {:induction false} WinnerHeld(b: map<bytes, R.Plain>, o: Outcome)
    requires o.Answered? && Create(b, KeyOf(o.prefix, o.txid), o.ttl, o.at).1
    ensures Held(Create(b, KeyOf(o.prefix, o.txid), o.ttl, o.at).0, o, o.at)
  {
    hide KeyOf;
  }

  lemma {:induction false} WinnersApart(b: map<bytes, R.Plain>, o: Outcome, n: Outcome, clock: int)
    requires o.Answered? && n.Answered? && o.prefix == n.prefix && o.txid == n.txid
    requires Held(b, o, clock) && clock <= n.at && Create(b, KeyOf(n.prefix, n.txid), n.ttl, n.at).1
    ensures Apart(o, n)
  {
    hide KeyOf;
  }

  lemma {:induction false} DecideFair(w: World, clock: int, i: nat, fault: Fault, now: int)
    requires WorldShaped(w) && Fair(w, clock) && i < |w.pending| && clock <= now
    ensures Fair(AfterDecide(w, i, fault, now), now)
  {
    hide KeyOf, Held, Apart, Create, BackendAfter, WorldShaped;
    var j, r := w.pending[i], AfterDecide(w, i, fault, now);
    var n := r.outcomes[|w.outcomes|];
    forall a | 0 <= a < |w.outcomes| && CleanWin(w.outcomes[a]) ensures Held(r.backend, r.outcomes[a], now) {
      HeldStays(w.backend, w.outcomes[a], clock, KeyOf(j.prefix, j.txid), j.ttl, now, fault);
    }
    if CleanWin(n) {
      WinnerHeld(w.backend, n);
      NoFaultApplies(w.backend, KeyOf(j.prefix, j.txid), j.ttl, now);
      forall a | 0 <= a < |w.outcomes| && CleanWin(w.outcomes[a]) && w.outcomes[a].prefix == n.prefix
        && w.outcomes[a].txid == n.txid
        ensures Apart(w.outcomes[a], n)
      {
        WinnersApart(w.backend, w.outcomes[a], n, clock);
      }
    }
  }

  lemma {:induction false} NoFaultApplies(b: map<bytes, R.Plain>, key: bytes, ttl: int, now: int)
    ensures BackendAfter(b, key, ttl, now, NoFault) == Create(b, key, ttl, now).0
  {
  }

  lemma {:induction false} StepFair(w: World, clock: int, e: Event)
    requires WorldShaped(w) && Fair(w, clock)
    requires e.action.Decide? || e.action.Drain? ==> clock <= e.now
    ensures Fair(Step(w, e), if e.action.Decide? || e.action.Drain? then e.now else clock)
  {
    hide KeyOf, Held, Apart, Create, BackendAfter, WorldShaped, Present, AfterDecide;
    if e.action.Decide? && e.action.job < |w.pending| {
      DecideFair(w, clock, e.action.job, e.action.fault, e.now);
    } else if e.action.Drain? && e.action.job < |w.marks| {
      var m := w.marks[e.action.job];
      forall a | 0 <= a < |w.outcomes| && CleanWin(w.outcomes[a])
        ensures Held(Step(w, e).backend, w.outcomes[a], e.now)
      {
        HeldStays(w.backend, w.outcomes[a], clock, m.key, m.ttl, e.now, e.action.fault);
      }
    } else if e.action.Decide? || e.action.Drain? {
      forall a | 0 <= a < |w.outcomes| && CleanWin(w.outcomes[a]) ensures Held(w.backend, w.outcomes[a], e.now) {
        HeldLater(w.backend, w.outcomes[a], clock, e.now);
      }
    }
  }

  lemma {:induction false} HeldLater(b: map<bytes, R.Plain>, o: Outcome, clock: int, now: int)
    requires o.Answered? && Held(b, o, clock) && clock <= now
    ensures Held(b, o, now)
  {
    hide KeyOf;
  }

  lemma {:induction false} PlayFair(w: World, run: seq<Event>, from: int)
    requires WorldShaped(w) && w.outcomes == [] && Clocked(run, from)
    ensures Fair(Play(w, run), Clock(run, from))
    decreases |run|
  {
    hide Fair, Step;
    if run == [] {
      assert Fair(w, from) by { NobodyWon(w, from); }
    } else {
      var n := |run| - 1;
      PlayFair(w, run[..n], from);
      StepFair(Play(w, run[..n]), Clock(run[..n], from), run[n]);
    }
  }

  lemma {:induction false} NobodyWon(w: World, clock: int)
    requires w.outcomes == []
    ensures Fair(w, clock)
  {
  }

  /** Whatever the interleaving, failures and marks, two claims of one transaction that were both
      told they are first are a whole key lifetime apart; with keys that never expire there is at
      most one. */
  lemma {:induction false} AtMostOneWinner(w: World, run: seq<Event>, from: int, a: nat, b: nat)
    requires WorldShaped(w) && w.outcomes == [] && Clocked(run, from)
    requires var os := Play(w, run).outcomes;
      && a < b < |os| && CleanWin(os[a]) && CleanWin(os[b])
      && os[a].prefix == os[b].prefix && os[a].txid == os[b].txid
    ensures var os := Play(w, run).outcomes;
      S.Expires(os[a].ttl, os[a].at) && os[b].at >= os[a].at + os[a].ttl
  {
    hide Play, KeyOf, Clock, Held;
    PlayFair(w, run, from);
    assert Apart(Play(w, run).outcomes[a], Play(w, run).outcomes[b]);
  }

  // ---- exactly one winner ---------------------------------------------------------------

  function Wins(os: seq<Outcome>, p: bytes, x: Hash32): nat {
    if os == [] then 0
    else
      var o := os[|os| - 1];
      Wins(os[..|os| - 1], p, x) + if o.Answered? && o.won && o.prefix == p && o.txid == x then 1 else 0
  }

  predicate Pending(w: World, x: Hash32) {
    exists i :: 0 <= i < |w.pending| && w.pending[i].txid == x
  }

  /** The step handles `x` only as claims under `p` without failure, and keys created now outlast
      the run. */
  predicate Quiet(w: World, e: Event, p: bytes, x: Hash32, until: int) {
    match e.action
    case Test(_, q, y) => y == x ==> q == p
    case Mark(_, _, y, _) => y != x
    case Decide(i, fault) => i < |w.pending| && w.pending[i].txid == x ==>
      fault.NoFault? && e.now < until && (S.Expires(w.pending[i].ttl, e.now) ==> until <= e.now + w.pending[i].ttl)
    case Drain(_, _) => true
  }

  ghost predicate QuietRun(w: World, run: seq<Event>, p: bytes, x: Hash32, until: int)
    requires WorldShaped(w)
  {
    forall i :: 0 <= i < |run| ==> Quiet(Play(w, run[..i]), run[i], p, x, until)
  }

  predicate Started(w: World, run: seq<Event>, x: Hash32) {
    exists i :: 0 <= i < |run| && run[i].action.Test? && run[i].action.store < |w.stores| && run[i].action.txid == x
  }

  /** Fresh stores, an idle queue, and a backend without the key. */
  predicate Idle(w: World, p: bytes, x: Hash32) {
    && WorldShaped(w) && w.pending == [] && w.marks == [] && w.outcomes == [] && KeyOf(p, x) !in w.backend
    && forall i :: 0 <= i < |w.stores| ==> !Knows(w.stores[i].tier, x)
  }

  /** New stores, each with a local capacity and a key lifetime, over a shared backend. */
  function NewStores(sizes: seq<(int, int)>): (stores: seq<Store>)
    ensures |stores| == |sizes|
  {
    seq(|sizes|, i requires 0 <= i < |sizes| => Store(NewTier(sizes[i].0, sizes[i].1), sizes[i].1))
  }

  lemma {:induction false} NewWorldIdle(sizes: seq<(int, int)>, backend: map<bytes, R.Plain>, p: bytes, x: Hash32)
    requires KeyOf(p, x) !in backend
    ensures Idle(World(NewStores(sizes), backend, [], [], []), p, x)
  {
    hide KeyOf, Knows, NewTier;
    forall i | 0 <= i < |sizes| ensures !Knows(NewTier(sizes[i].0, sizes[i].1), x) {
      NewKnowsNothing(sizes[i].0, sizes[i].1, x);
    }
  }

  /** The race for `x`, mid-way. */
  ghost predicate Race(w: World, p: bytes, x: Hash32, until: int, started: bool)
    requires WorldShaped(w)
  {
    var k := KeyOf(p, x);
    && Wins(w.outcomes, p, x) == (if k in w.backend then 1 else 0)
    && (k in w.backend && w.backend[k].expiry.Some? ==> until <= w.backend[k].expiry.value)
    && (started ==> k in w.backend || Pending(w, x))
    && (forall i :: 0 <= i < |w.pending| && w.pending[i].txid == x ==> w.pending[i].prefix == p)
    && (forall i :: 0 <= i < |w.marks| ==> w.marks[i].key != k)
    && (forall i :: 0 <= i < |w.stores| && Knows(w.stores[i].tier, x) ==> started)
  }

  lemma {:induction false} WinsNext(os: seq<Outcome>, o: Outcome, p: bytes, x: Hash32)
    ensures Wins(os + [o], p, x)
         == Wins(os, p, x) + if o.Answered? && o.won && o.prefix == p && o.txid == x then 1 else 0
  {
    assert (os + [o])[..|os|] == os;
  }

  lemma {:induction false} TestRaces(w: World, p: bytes, x: Hash32, until: int, started: bool, i: nat, q: bytes,
                                     y: Hash32, now: int)
    requires WorldShaped(w) && Race(w, p, x, until, started) && i < |w.stores| && (y == x ==> q == p)
    ensures Race(AfterTest(w, i, q, y, now), p, x, until, started || y == x)
  {
    hide KeyOf, Present, Knows, Wins;
    var r := AfterTest(w, i, q, y, now);
    PresentLearns(w.stores[i].tier, y, now, x);
    if Present(w.stores[i].tier, y, now).1 {
      WinsNext(w.outcomes, Suppressed(q, y), p, x);
    } else {
      assert r.pending[|w.pending|].txid == y;
      if Pending(w, x) {
        var j :| 0 <= j < |w.pending| && w.pending[j].txid == x;
        assert r.pending[j].txid == x;
      }
    }
  }

  lemma {:induction false} MarkRaces(w: World, p: bytes, x: Hash32, until: int, started: bool, i: nat, q: bytes,
                                     y: Hash32, queued: bool, now: int)
    requires WorldShaped(w) && Race(w, p, x, until, started) && i < |w.stores| && y != x
    ensures Race(AfterMark(w, i, q, y, queued, now), p, x, until, started)
  {
    PresentLearns(w.stores[i].tier, y, now, x);
    if KeyOf(q, y) == KeyOf(p, x) {
      KeyInjective(q, y, p, x);
    }
    hide KeyOf, Present, Knows, Wins, Pending;
  }

  /** A SetNX of another key leaves this one alone. */
  lemma {:induction false} OtherKey(b: map<bytes, R.Plain>, key: bytes, ttl: int, now: int, fault: Fault, k: bytes)
    requires key != k
    ensures var n := BackendAfter(b, key, ttl, now, fault);
      (k in n <==> k in b) && (k in b ==> n[k] == b[k])
  {
  }

  lemma {:induction false} DrainRaces(w: World, p: bytes, x: Hash32, until: int, started: bool, i: nat, fault: Fault,
                                      now: int)
    requires WorldShaped(w) && Race(w, p, x, until, started) && i < |w.marks|
    ensures Race(Step(w, Event(Drain(i, fault), now)), p, x, until, started)
  {
    hide KeyOf, Knows, Wins, BackendAfter;
    OtherKey(w.backend, w.marks[i].key, w.marks[i].ttl, now, fault, KeyOf(p, x));
  }

  lemma {:induction false} OtherPending(w: World, i: nat, x: Hash32)
    requires i < |w.pending| && w.pending[i].txid != x && Pending(w, x)
    ensures exists j :: 0 <= j < |w.pending| - 1 && Without(w.pending, i)[j].txid == x
  {
    var j :| 0 <= j < |w.pending| && w.pending[j].txid == x;
    assert Without(w.pending, i)[if j < i then j else j - 1] == w.pending[j];
  }

  lemma {:induction false} DecideOther(w: World, p: bytes, x: Hash32, until: int, started: bool, i: nat, fault: Fault,
                                       now: int)
    requires WorldShaped(w) && Race(w, p, x, until, started) && i < |w.pending| && w.pending[i].txid != x
    ensures Race(AfterDecide(w, i, fault, now), p, x, until, started)
  {
    var j := w.pending[i];
    if KeyOf(j.prefix, j.txid) == KeyOf(p, x) {
      KeyInjective(j.prefix, j.txid, p, x);
    }
    OtherKey(w.backend, KeyOf(j.prefix, j.txid), j.ttl, now, fault, KeyOf(p, x));
    hide KeyOf, Knows, Wins, BackendAfter, Create;
    var r := AfterDecide(w, i, fault, now);
    WinsNext(w.outcomes, r.outcomes[|w.outcomes|], p, x);
    if Pending(w, x) {
      OtherPending(w, i, x);
    }
  }

  lemma {:induction false} DecideOwn(w: World, p: bytes, x: Hash32, until: int, started: bool, i: nat, now: int)
    requires WorldShaped(w) && Race(w, p, x, until, started) && i < |w.pending| && w.pending[i].txid == x
    requires now < until && (S.Expires(w.pending[i].ttl, now) ==> until <= now + w.pending[i].ttl)
    ensures Race(AfterDecide(w, i, NoFault, now), p, x, until, started)
  {
    hide KeyOf, Knows, Wins;
    var r := AfterDecide(w, i, NoFault, now);
    WinsNext(w.outcomes, r.outcomes[|w.outcomes|], p, x);
  }

  lemma {:induction false} StepRaces(w: World, p: bytes, x: Hash32, until: int, started: bool, e: Event)
    requires WorldShaped(w) && Race(w, p, x, until, started) && Quiet(w, e, p, x, until)
    ensures Race(Step(w, e), p, x, until,
                 started || (e.action.Test? && e.action.store < |w.stores| && e.action.txid == x))
  {
    hide Race, AfterTest, AfterMark, AfterDecide, BackendAfter;
    match e.action
    case Test(i, q, y) =>
      if i < |w.stores| {
        TestRaces(w, p, x, until, started, i, q, y, e.now);
      }
    case Mark(i, q, y, queued) =>
      if i < |w.stores| {
        MarkRaces(w, p, x, until, started, i, q, y, queued, e.now);
      }
    case Decide(i, fault) =>
      if i < |w.pending| {
        if w.pending[i].txid == x {
          DecideOwn(w, p, x, until, started, i, e.now);
        } else {
          DecideOther(w, p, x, until, started, i, fault, e.now);
        }
      }
    case Drain(i, fault) =>
      if i < |w.marks| {
        DrainRaces(w, p, x, until, started, i, fault, e.now);
      }
  }

  lemma {:induction false} StoresStay(w: World, run: seq<Event>)
    requires WorldShaped(w)
    ensures |Play(w, run).stores| == |w.stores|
    decreases |run|
  {
    if run != [] {
      StoresStay(w, run[..|run| - 1]);
    }
  }

  lemma {:induction false} StartedNext(w: World, run: seq<Event>, x: Hash32)
    requires run != []
    ensures var e := run[|run| - 1].action;
      Started(w, run, x) <==> Started(w, run[..|run| - 1], x) || (e.Test? && e.store < |w.stores| && e.txid == x)
  {
    var n := |run| - 1;
    if Started(w, run[..n], x) {
      var i :| 0 <= i < n && run[..n][i].action.Test? && run[..n][i].action.store < |w.stores|
        && run[..n][i].action.txid == x;
      assert run[i] == run[..n][i];
    }
    if Started(w, run, x) {
      var i :| 0 <= i < |run| && run[i].action.Test? && run[i].action.store < |w.stores| && run[i].action.txid == x;
      assert i < n ==> run[..n][i] == run[i];
    }
  }

  lemma {:induction false} PlayRaces(w: World, run: seq<Event>, p: bytes, x: Hash32, until: int)
    requires Idle(w, p, x) && QuietRun(w, run, p, x, until)
    ensures Race(Play(w, run), p, x, until, Started(w, run, x))
    decreases |run|
  {
    hide Race, Step, Quiet, Started, KeyOf;
    if run == [] {
      IdleRace(w, p, x, until);
    } else {
      var n := |run| - 1;
      assert QuietRun(w, run[..n], p, x, until) by {
        forall i | 0 <= i < n ensures Quiet(Play(w, run[..n][..i]), run[..n][i], p, x, until) {
          assert run[..n][..i] == run[..i];
        }
      }
      PlayRaces(w, run[..n], p, x, until);
      StepRaces(Play(w, run[..n]), p, x, until, Started(w, run[..n], x), run[n]);
      StoresStay(w, run[..n]);
      StartedNext(w, run, x);
    }
  }

  lemma {:induction false} IdleRace(w: World, p: bytes, x: Hash32, until: int)
    requires Idle(w, p, x)
    ensures Race(w, p, x, until, Started(w, [], x))
  {
    hide KeyOf, Knows;
  }

  /** Claims of `x` under one prefix over fresh stores, without failures or marks of `x` and
      within the key's lifetime: at no time more than one has won, and once every started claim
      has been decided exactly one has. Claims and marks of other transactions run alongside. */
  lemma {:induction false} ExactlyOneWinner(w: World, run: seq<Event>, p: bytes, x: Hash32, until: int)
    requires Idle(w, p, x) && QuietRun(w, run, p, x, until)
    ensures Wins(Play(w, run).outcomes, p, x) <= 1
    ensures Started(w, run, x) && !Pending(Play(w, run), x) ==> Wins(Play(w, run).outcomes, p, x) == 1
  {
    hide Play, Wins, Started, Pending, KeyOf;
    PlayRaces(w, run, p, x, until);
  }
}
