/** Runs of the whole backend: 64 shards driven by any interleaving of Set, SetNX, Get, Del and
    expirer holds under a non-decreasing clock, compared with a plain map that is never swept. */
module CacheRuns {
  import opened Bytes
  import opened CacheSpec
  import opened CacheInvariant
  import opened CachePut

  const SHARD_COUNT := 64

  const FNV_OFFSET: bv32 := 2166136261

  function FnvStep(h: bv32, c: byte): bv32 {
    (h ^ (c as bv32)) * 16777619
  }

  /** FNV-1a over the key, in 32-bit arithmetic. */
  function Fnv(key: Key): bv32 {
    if key == [] then FNV_OFFSET else FnvStep(Fnv(key[..|key| - 1]), key[|key| - 1])
  }

  function ShardOf(key: Key): (i: nat)
    ensures i < SHARD_COUNT
  {
    (Fnv(key) as int) % SHARD_COUNT
  }

  /** Each cap is split evenly over the shards, at least one each; <= 0 is unbounded. */
  function CapsOf(maxKeys: int, maxBytes: int): Caps {
    Caps(if maxKeys <= 0 then 0 else if maxKeys < 2 * SHARD_COUNT then 1 else maxKeys / SHARD_COUNT,
         if maxBytes <= 0 then 0 else if maxBytes < 2 * SHARD_COUNT then 1 else maxBytes / SHARD_COUNT)
  }

  // ---- steps ----------------------------------------------------------------------------

  /** One atomic step. A Get looks its entry up under the lock and reads the clock after
      releasing it, at `checkedAt`. */
  datatype Op =
    | Set(key: Key, val: Value, ttl: int)
    | SetNX(key: Key, val: Value, ttl: int)
    | Get(key: Key, checkedAt: int)
    | Del(key: Key)
    | Hold(shard: nat)

  datatype Reply = Done | Created(ok: bool) | Found(hit: Option<Value>)

  datatype Event = Event(op: Op, now: int)

  predicate ValidEvent(e: Event) {
    && (e.op.Hold? ==> e.op.shard < SHARD_COUNT)
    && (e.op.Get? ==> e.now <= e.op.checkedAt)
  }

  /** A run: valid events under a clock that starts at `from` and never steps back. */
  predicate ValidRun(run: seq<Event>, from: int) {
    if run == [] then true
    else ValidEvent(run[0]) && from <= run[0].now && ValidRun(run[1..], run[0].now)
  }

  type Backend = b: seq<Shard> | |b| == SHARD_COUNT witness seq(SHARD_COUNT, _ => EMPTY)

  function Fresh(): Backend {
    seq(SHARD_COUNT, _ => EMPTY)
  }

  predicate HeldLive(data: map<Key, Entry>, k: Key, now: int) {
    k in data && Live(data[k], now)
  }

  function ShardStep(s: Shard, caps: Caps, op: Op, now: int): (Shard, Reply) {
    match op
    case Set(k, v, ttl) => (Put(s, caps, k, v, ttl, now), Done)
    case SetNX(k, v, ttl) =>
      if HeldLive(s.data, k, now) then (s, Created(false))
      else (Put(s, caps, k, v, ttl, now), Created(true))
    case Get(k, at) => (s, Found(if HeldLive(s.data, k, at) then Some(s.data[k].value) else None))
    case Del(k) => (Remove(s, k), Done)
    case Hold(_) => (ExpirerHold(s, now).0, Done)
  }

  function Target(op: Op): (i: nat)
    requires op.Hold? ==> op.shard < SHARD_COUNT
    ensures i < SHARD_COUNT
  {
    if op.Hold? then op.shard else ShardOf(op.key)
  }

  function Step(b: Backend, caps: Caps, e: Event): (Backend, Reply)
    requires ValidEvent(e)
  {
    var i := Target(e.op);
    var (s, r) := ShardStep(b[i], caps, e.op, e.now);
    (b[i := s], r)
  }

  function Replies(b: Backend, caps: Caps, run: seq<Event>, from: int): seq<Reply>
    requires ValidRun(run, from)
    decreases |run|
  {
    if run == [] then []
    else
      var (c, r) := Step(b, caps, run[0]);
      [r] + Replies(c, caps, run[1..], run[0].now)
  }

  function Final(b: Backend, caps: Caps, run: seq<Event>, from: int): Backend
    requires ValidRun(run, from)
    decreases |run|
  {
    if run == [] then b else Final(Step(b, caps, run[0]).0, caps, run[1..], run[0].now)
  }

  // ---- the plain map --------------------------------------------------------------------

  datatype Plain = Plain(value: Value, expiry: Option<int>)

  predicate PlainLive(m: map<Key, Plain>, k: Key, now: int) {
    k in m && (m[k].expiry.Some? ==> now < m[k].expiry.value)
  }

  function PlainPut(m: map<Key, Plain>, k: Key, v: Value, ttl: int, now: int): map<Key, Plain> {
    m[k := Plain(v, if Expires(ttl, now) then Some(now + ttl) else None)]
  }

  function PlainStep(m: map<Key, Plain>, e: Event): (map<Key, Plain>, Reply) {
    match e.op
    case Set(k, v, ttl) => (PlainPut(m, k, v, ttl, e.now), Done)
    case SetNX(k, v, ttl) =>
      if PlainLive(m, k, e.now) then (m, Created(false))
      else (PlainPut(m, k, v, ttl, e.now), Created(true))
    case Get(k, at) => (m, Found(if PlainLive(m, k, at) then Some(m[k].value) else None))
    case Del(k) => (m - {k}, Done)
    case Hold(_) => (m, Done)
  }

  function PlainReplies(m: map<Key, Plain>, run: seq<Event>): seq<Reply>
    decreases |run|
  {
    if run == [] then []
    else
      var (n, r) := PlainStep(m, run[0]);
      [r] + PlainReplies(n, run[1..])
  }

  // ---- every reachable state ------------------------------------------------------------

  ghost predicate Good(b: Backend, caps: Caps, now: int) {
    forall i :: 0 <= i < SHARD_COUNT ==> Inv(b[i], now) && CapsOk(b[i], caps)
  }

  lemma {:induction false} FreshGood(caps: Caps)
    ensures Good(Fresh(), caps, 0)
  {
    EmptyInv();
  }

  lemma {:induction false} ShardStepGood(s: Shard, caps: Caps, op: Op, now: int)
    requires Inv(s, now) && CapsOk(s, caps)
    ensures Inv(ShardStep(s, caps, op, now).0, now) && CapsOk(ShardStep(s, caps, op, now).0, caps)
  {
    hide Inv, CountsOk, CapsOk, Put, Remove, ExpirerHold, PutEffect, Wrote, HasRoom;
    match op
    case Set(k, v, ttl) =>
      PutInv(s, caps, k, v, ttl, now);
      PutCaps(s, caps, k, v, ttl, now);
    case SetNX(k, v, ttl) =>
      PutInv(s, caps, k, v, ttl, now);
      PutCaps(s, caps, k, v, ttl, now);
    case Get(_, _) =>
    case Del(k) =>
      RemoveInv(s, k, now);
      InvCounts(s, now);
      InvCounts(Remove(s, k), now);
      CapsShrink(s, Remove(s, k), caps);
    case Hold(_) =>
      ExpirerHoldInv(s, now);
      InvCounts(s, now);
      InvCounts(ExpirerHold(s, now).0, now);
      CapsShrink(s, ExpirerHold(s, now).0, caps);
  }

  lemma {:induction false} StepGood(b: Backend, caps: Caps, e: Event, from: int)
    requires Good(b, caps, from) && ValidEvent(e) && from <= e.now
    ensures Good(Step(b, caps, e).0, caps, e.now)
  {
    var i := Target(e.op);
    forall j | 0 <= j < SHARD_COUNT
      ensures Inv(Step(b, caps, e).0[j], e.now) && CapsOk(Step(b, caps, e).0[j], caps)
    {
      InvLater(b[j], from, e.now);
      if j == i {
        ShardStepGood(b[i], caps, e.op, e.now);
      }
    }
  }

  function LastTime(run: seq<Event>, from: int): int {
    if run == [] then from else LastTime(run[1..], run[0].now)
  }

  lemma {:induction false} GoodThroughout(b: Backend, caps: Caps, run: seq<Event>, from: int)
    requires Good(b, caps, from) && ValidRun(run, from)
    ensures Good(Final(b, caps, run, from), caps, LastTime(run, from))
    decreases |run|
  {
    if run != [] {
      StepGood(b, caps, run[0], from);
      GoodThroughout(Step(b, caps, run[0]).0, caps, run[1..], run[0].now);
    }
  }

  /** The shard invariant and both caps hold in every state any run reaches. */
  lemma {:induction false} ReachableStates(caps: Caps, run: seq<Event>)
    requires ValidRun(run, 0)
    ensures var b := Final(Fresh(), caps, run, 0);
      forall i :: 0 <= i < SHARD_COUNT ==> Inv(b[i], LastTime(run, 0)) && CapsOk(b[i], caps)
  {
    FreshGood(caps);
    GoodThroughout(Fresh(), caps, run, 0);
  }

  // ---- refinement -----------------------------------------------------------------------

  /** The shard holds exactly what the map binds `k` to. */
  predicate Binds(s: Shard, m: map<Key, Plain>, k: Key)
    requires k in s.data
  {
    && k in m && m[k].value == s.data[k].value
    && (if s.data[k].deadline > 0 then m[k].expiry == Some(s.data[k].deadline) else m[k].expiry == None)
  }

  /** What the shard holds for `k`, the map holds too. */
  predicate Sound(s: Shard, m: map<Key, Plain>, k: Key) {
    k in s.data ==> Binds(s, m, k)
  }

  /** Moreover the shard has lost nothing of `k` that is still alive. */
  predicate Exact(s: Shard, m: map<Key, Plain>, k: Key, now: int) {
    Sound(s, m, k) && (k !in s.data ==> !PlainLive(m, k, now))
  }

  ghost predicate SoundAll(b: Backend, m: map<Key, Plain>) {
    forall k: Key :: Sound(b[ShardOf(k)], m, k)
  }

  ghost predicate ExactAll(b: Backend, m: map<Key, Plain>, now: int) {
    forall k: Key :: Exact(b[ShardOf(k)], m, k, now)
  }

  lemma {:induction false} WroteSound(s: Shard, r: Shard, t: Shard, m: map<Key, Plain>, j: Key, v: Value, ttl: int,
                                      now: int, k: Key)
    requires now >= 0 && Sound(s, m, k) && Submap(r.data, s.data) && Wrote(r, t, j, v, ttl, now)
    ensures Sound(t, PlainPut(m, j, v, ttl, now), k)
  {
  }

  lemma {:induction false} PutSound(s: Shard, caps: Caps, m: map<Key, Plain>, j: Key, v: Value, ttl: int, now: int,
                                    k: Key)
    requires Inv(s, now) && Sound(s, m, k)
    ensures Sound(Put(s, caps, j, v, ttl, now), PlainPut(m, j, v, ttl, now), k)
  {
    var r := Room(s, caps, j, v, now);
    RoomInOrder(s, caps, j, v, now);
    WriteInv(r, j, v, ttl, now);
    WroteSound(s, r, Put(s, caps, j, v, ttl, now), m, j, v, ttl, now, k);
  }

  lemma {:induction false} WroteExact(s: Shard, t: Shard, m: map<Key, Plain>, j: Key, v: Value, ttl: int, now: int,
                                      k: Key)
    requires now >= 0 && Exact(s, m, k, now) && Wrote(s, t, j, v, ttl, now)
    ensures Exact(t, PlainPut(m, j, v, ttl, now), k, now)
  {
  }

  lemma {:induction false} PutExact(s: Shard, m: map<Key, Plain>, j: Key, v: Value, ttl: int, now: int, k: Key)
    requires Inv(s, now) && Exact(s, m, k, now)
    ensures Exact(Put(s, Caps(0, 0), j, v, ttl, now), PlainPut(m, j, v, ttl, now), k, now)
  {
    var t := Put(s, Caps(0, 0), j, v, ttl, now);
    assert t == Write(s, j, v, ttl, now);
    WriteInv(s, j, v, ttl, now);
    WroteExact(s, t, m, j, v, ttl, now, k);
  }

  lemma {:induction false} ShardStepExact(s: Shard, m: map<Key, Plain>, e: Event, k: Key)
    requires Inv(s, e.now) && Exact(s, m, k, e.now)
    requires ShardStep(s, Caps(0, 0), e.op, e.now).1 == PlainStep(m, e).1
    ensures Exact(ShardStep(s, Caps(0, 0), e.op, e.now).0, PlainStep(m, e).0, k, e.now)
  {
    hide Put, ExpirerHold, Inv;
    match e.op
    case Set(j, v, ttl) => PutExact(s, m, j, v, ttl, e.now, k);
    case SetNX(j, v, ttl) => PutExact(s, m, j, v, ttl, e.now, k);
    case Get(_, _) =>
    case Del(_) =>
    case Hold(_) => ExpirerHoldInv(s, e.now);
  }

  /** A key the step does not touch keeps its binding in the map. */
  lemma {:induction false} PlainElsewhere(m: map<Key, Plain>, e: Event, k: Key)
    requires e.op.Hold? || e.op.key != k
    ensures var n := PlainStep(m, e).0; (k in n <==> k in m) && (k in m ==> n[k] == m[k])
  {
  }

  lemma {:induction false} ReplyExact(s: Shard, m: map<Key, Plain>, e: Event, from: int)
    requires from <= e.now && ValidEvent(e) && (!e.op.Hold? ==> Exact(s, m, e.op.key, from))
    ensures ShardStep(s, Caps(0, 0), e.op, e.now).1 == PlainStep(m, e).1
  {
    hide Put, ExpirerHold;
  }

  lemma {:induction false} StepExact(b: Backend, m: map<Key, Plain>, e: Event, from: int)
    requires Good(b, Caps(0, 0), from) && ValidEvent(e) && from <= e.now && ExactAll(b, m, from)
    ensures Step(b, Caps(0, 0), e).1 == PlainStep(m, e).1
    ensures ExactAll(Step(b, Caps(0, 0), e).0, PlainStep(m, e).0, e.now)
  {
    hide Put, ExpirerHold, Inv;
    var i := Target(e.op);
    InvLater(b[i], from, e.now);
    if !e.op.Hold? {
      assert Exact(b[ShardOf(e.op.key)], m, e.op.key, from);
    }
    ReplyExact(b[i], m, e, from);
    hide ShardStep, PlainStep, ShardOf, CapsOk;
    forall k: Key
      ensures Exact(Step(b, Caps(0, 0), e).0[ShardOf(k)], PlainStep(m, e).0, k, e.now)
    {
      assert Exact(b[ShardOf(k)], m, k, from);
      assert Exact(b[ShardOf(k)], m, k, e.now);
      if ShardOf(k) == i {
        ShardStepExact(b[i], m, e, k);
      } else {
        PlainElsewhere(m, e, k);
      }
    }
  }

  lemma {:induction false} RefinesFrom(b: Backend, m: map<Key, Plain>, run: seq<Event>, from: int)
    requires Good(b, Caps(0, 0), from) && ValidRun(run, from) && ExactAll(b, m, from)
    ensures Replies(b, Caps(0, 0), run, from) == PlainReplies(m, run)
    decreases |run|
  {
    if run != [] {
      StepExact(b, m, run[0], from);
      StepGood(b, Caps(0, 0), run[0], from);
      RefinesFrom(Step(b, Caps(0, 0), run[0]).0, PlainStep(m, run[0]).0, run[1..], run[0].now);
    }
  }

  /** Without caps the cache answers every run of any interleaving exactly as a map from key to
      value and deadline that is never swept. */
  lemma {:induction false} RefinesPlainMap(run: seq<Event>)
    requires ValidRun(run, 0)
    ensures Replies(Fresh(), Caps(0, 0), run, 0) == PlainReplies(map[], run)
  {
    FreshGood(Caps(0, 0));
    RefinesFrom(Fresh(), map[], run, 0);
  }

  // ---- with caps ------------------------------------------------------------------------

  /** The map of the writes the cache has acknowledged: SetNX counts when it reported true. */
  function Acked(m: map<Key, Plain>, e: Event, r: Reply): map<Key, Plain> {
    match e.op
    case Set(k, v, ttl) => PlainPut(m, k, v, ttl, e.now)
    case SetNX(k, v, ttl) => if r == Created(true) then PlainPut(m, k, v, ttl, e.now) else m
    case Get(_, _) => m
    case Del(k) => m - {k}
    case Hold(_) => m
  }

  /** A hit is the acknowledged live value; a refused create means such a value exists. */
  predicate TrueReply(m: map<Key, Plain>, e: Event, r: Reply) {
    match e.op
    case Get(k, at) => r.Found? && (r.hit.Some? ==> PlainLive(m, k, at) && m[k].value == r.hit.value)
    case SetNX(k, _, _) => r.Created? && (!r.ok ==> PlainLive(m, k, e.now))
    case _ => true
  }

  predicate TrueReplies(m: map<Key, Plain>, run: seq<Event>, rs: seq<Reply>)
    requires |run| == |rs|
    decreases |run|
  {
    if run == [] then true
    else TrueReply(m, run[0], rs[0]) && TrueReplies(Acked(m, run[0], rs[0]), run[1..], rs[1..])
  }

  lemma {:induction false} StepSound(b: Backend, caps: Caps, m: map<Key, Plain>, e: Event, from: int)
    requires Good(b, caps, from) && ValidEvent(e) && from <= e.now && SoundAll(b, m)
    ensures var (c, r) := Step(b, caps, e); TrueReply(m, e, r) && SoundAll(c, Acked(m, e, r))
  {
    var i := Target(e.op);
    var (c, r) := Step(b, caps, e);
    InvLater(b[i], from, e.now);
    if !e.op.Hold? {
      assert Sound(b[ShardOf(e.op.key)], m, e.op.key);
    }
    forall k: Key ensures Sound(c[ShardOf(k)], Acked(m, e, r), k) {
      assert Sound(b[ShardOf(k)], m, k);
      if ShardOf(k) == i {
        AckedSound(b[i], caps, m, e, k);
      }
    }
  }

  lemma {:induction false} AckedSound(s: Shard, caps: Caps, m: map<Key, Plain>, e: Event, k: Key)
    requires Inv(s, e.now) && Sound(s, m, k)
    ensures var (t, r) := ShardStep(s, caps, e.op, e.now); Sound(t, Acked(m, e, r), k)
  {
    hide Put, ExpirerHold, Inv;
    match e.op
    case Set(j, v, ttl) => PutSound(s, caps, m, j, v, ttl, e.now, k);
    case SetNX(j, v, ttl) => PutSound(s, caps, m, j, v, ttl, e.now, k);
    case Get(_, _) =>
    case Del(_) =>
    case Hold(_) => ExpirerHoldInv(s, e.now);
  }

  /** Under any caps, every hit is the last acknowledged write of its key, still alive, and
      every refused create names such a write. */
  lemma {:induction false} HitsAreTrue(b: Backend, caps: Caps, m: map<Key, Plain>, run: seq<Event>, from: int)
    requires Good(b, caps, from) && ValidRun(run, from) && SoundAll(b, m)
    ensures |Replies(b, caps, run, from)| == |run|
    ensures TrueReplies(m, run, Replies(b, caps, run, from))
    decreases |run|
  {
    if run != [] {
      var (c, r) := Step(b, caps, run[0]);
      StepSound(b, caps, m, run[0], from);
      StepGood(b, caps, run[0], from);
      HitsAreTrue(c, caps, Acked(m, run[0], r), run[1..], run[0].now);
      assert Replies(b, caps, run, from)[1..] == Replies(c, caps, run[1..], run[0].now);
    }
  }
}
