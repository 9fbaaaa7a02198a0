/** How many items the queues hold: after every write that queues a new pair of key and deadline
    there are at most twice as many items as entries, plus the slack. */
module CacheItems {
  import opened Bytes
  import opened CacheSpec
  import opened CacheInvariant
  import opened CachePut
  import opened CacheRuns

  // ---- the items queued -----------------------------------------------------------------

  function QueuedIn(qs: seq<TtlQueue>): multiset<Item> {
    if qs == [] then multiset{} else multiset(qs[0].items) + QueuedIn(qs[1..])
  }

  function Queued(s: Shard): multiset<Item> {
    QueuedIn(s.ttlQueues) + multiset(s.forever)
  }

  /** No pair of key and deadline is queued twice. */
  predicate Distinct(s: Shard) {
    forall it :: it in Queued(s) ==> Queued(s)[it] == 1
  }

  lemma {:induction false} QueuedCount(qs: seq<TtlQueue>)
    ensures |QueuedIn(qs)| == SumLen(qs)
  {
    if qs != [] {
      QueuedCount(qs[1..]);
    }
  }

  lemma {:induction false} Regroup<T>(z: multiset<T>, x: multiset<T>, b: multiset<T>, y: multiset<T>, d: multiset<T>)
    requires x + b == y + d
    ensures z + x + b == z + y + d && x + z + b == y + z + d
  {
    assert z + x + b == z + (x + b);
    assert z + y + d == z + (y + d);
    assert x + z + b == z + x + b;
    assert y + z + d == z + y + d;
  }

  lemma {:induction false} Cancel<T>(x: multiset<T>, y: multiset<T>, d: multiset<T>, more: multiset<T>)
    requires x + (more + d) == y + d
    ensures y == x + more
  {
    forall e: T ensures y[e] == (x + more)[e] {
      assert (x + (more + d))[e] == (y + d)[e];
    }
  }

  lemma {:induction false} QueuedUpdate(qs: seq<TtlQueue>, i: nat, q: seq<Item>)
    requires i < |qs|
    ensures QueuedIn(qs[i := qs[i].(items := q)]) + multiset(qs[i].items) == QueuedIn(qs) + multiset(q)
  {
    var all := qs[i := qs[i].(items := q)];
    if i > 0 {
      QueuedUpdate(qs[1..], i - 1, q);
      assert all[1..] == qs[1..][i - 1 := qs[i].(items := q)];
      Regroup(multiset(qs[0].items), QueuedIn(all[1..]), multiset(qs[i].items), QueuedIn(qs[1..]), multiset(q));
    } else {
      var rest := QueuedIn(qs[1..]);
      assert all[1..] == qs[1..];
      assert multiset(q) + rest + multiset(qs[0].items) == multiset(qs[0].items) + rest + multiset(q);
    }
  }

  lemma {:induction false} SetQueueQueued(s: Shard, i: nat, q: seq<Item>)
    requires IsQueue(s, i)
    ensures Queued(SetQueue(s, i, q)) + multiset(QueueAt(s, i)) == Queued(s) + multiset(q)
  {
    hide QueuedIn;
    if i < |s.ttlQueues| {
      QueuedUpdate(s.ttlQueues, i, q);
      var t := SetQueue(s, i, q);
      Regroup(multiset(s.forever), QueuedIn(t.ttlQueues), multiset(QueueAt(s, i)), QueuedIn(s.ttlQueues), multiset(q));
    } else {
      var m := QueuedIn(s.ttlQueues);
      assert m + multiset(q) + multiset(s.forever) == m + multiset(s.forever) + multiset(q);
    }
  }

  lemma {:induction false} QueuedHas(s: Shard, i: nat, it: Item)
    requires IsQueue(s, i) && it in QueueAt(s, i)
    ensures it in Queued(s)
  {
    if i < |s.ttlQueues| {
      QueuedInHas(s.ttlQueues, i, it);
    }
  }

  lemma {:induction false} QueuedInHas(qs: seq<TtlQueue>, i: nat, it: Item)
    requires i < |qs| && it in qs[i].items
    ensures it in QueuedIn(qs)
  {
    if i > 0 {
      QueuedInHas(qs[1..], i - 1, it);
    }
  }

  // ---- what only removes items ----------------------------------------------------------

  lemma {:induction false} HeadGone(s: Shard, i: nat)
    requires IsQueue(s, i) && QueueAt(s, i) != []
    ensures Queued(SetQueue(s, i, QueueAt(s, i)[1..])) <= Queued(s)
  {
    hide Queued;
    var q := QueueAt(s, i);
    SetQueueQueued(s, i, q[1..]);
    assert q == [q[0]] + q[1..];
    assert multiset(q) == multiset{q[0]} + multiset(q[1..]);
    Cancel(Queued(SetQueue(s, i, q[1..])), Queued(s), multiset(q[1..]), multiset{q[0]});
  }

  lemma {:induction false} PopShrinks(s: Shard, i: nat)
    requires IsQueue(s, i) && QueueAt(s, i) != []
    ensures Queued(Pop(s, i)) <= Queued(s)
  {
    HeadGone(s, i);
    var t := SetQueue(s, i, QueueAt(s, i)[1..]);
    assert Pop(s, i).ttlQueues == t.ttlQueues && Pop(s, i).forever == t.forever;
  }

  lemma {:induction false} ExpireQueueShrinks(s: Shard, i: nat, now: int, budget: nat)
    requires IsQueue(s, i)
    ensures Queued(ExpireQueue(s, i, now, budget).0) <= Queued(s)
    decreases budget
  {
    hide Queued;
    if budget > 0 && QueueAt(s, i) != [] && QueueAt(s, i)[0].deadline <= now {
      PopShrinks(s, i);
      ExpireQueueShrinks(Pop(s, i), i, now, budget - 1);
    }
  }

  lemma {:induction false} ExpireFromShrinks(s: Shard, i: nat, now: int, budget: nat)
    requires IsQueue(s, i)
    ensures Queued(ExpireFrom(s, i, now, budget).0) <= Queued(s)
    decreases |s.ttlQueues| - i
  {
    hide Queued, ExpireQueue;
    if i < |s.ttlQueues| {
      ExpireQueueShrinks(s, i, now, budget);
      ExpireQueueShape(s, i, now, budget);
      var (t, left) := ExpireQueue(s, i, now, budget);
      if left > 0 {
        ExpireFromShrinks(t, i + 1, now, left);
      }
    }
  }

  lemma {:induction false} DropStaleShrinks(s: Shard, i: nat)
    requires IsQueue(s, i)
    ensures Queued(DropStale(s, i)) <= Queued(s)
    decreases |QueueAt(s, i)|
  {
    if QueueAt(s, i) != [] && !Current(s.data, QueueAt(s, i)[0]) {
      PopShrinks(s, i);
      DropStaleShrinks(Pop(s, i), i);
    }
  }

  lemma {:induction false} ScanShrinks(s: Shard, i: nat, first: Option<nat>)
    requires IsQueue(s, i) && ScanOk(s, i, first)
    ensures Queued(Scan(s, i, first).0) <= Queued(s)
    decreases |s.ttlQueues| - i
  {
    hide Queued, DropStale;
    if i < |s.ttlQueues| {
      DropStaleShrinks(s, i);
      DropStaleShape(s, i);
      var next := ScanStep(s, i, first);
      ScanShrinks(DropStale(s, i), i + 1, next);
    }
  }

  lemma {:induction false} EvictShrinks(s: Shard)
    ensures Queued(Evict(s).0) <= Queued(s)
  {
    hide Queued, DropStale, Scan, Pop;
    ScanShrinks(s, 0, None);
    ChosenIsCurrent(s);
    var (t, first) := Scan(s, 0, None);
    if first.None? {
      DropStaleShrinks(t, |t.ttlQueues|);
    }
    var (u, chosen) := Chosen(s);
    if chosen.Some? {
      PopShrinks(u, chosen.value);
    }
  }

  lemma {:induction false} EvictToCountShrinks(s: Shard, limit: nat)
    ensures Queued(EvictToCount(s, limit)) <= Queued(s)
    decreases |s.data|
  {
    hide Queued;
    if |s.data| >= limit {
      EvictShrinks(s);
      if Evict(s).1 {
        EvictToCountShrinks(Evict(s).0, limit);
      }
    }
  }

  lemma {:induction false} EvictToBytesShrinks(s: Shard, limit: int)
    ensures Queued(EvictToBytes(s, limit)) <= Queued(s)
    decreases |s.data|
  {
    hide Queued;
    if s.bytes > limit {
      EvictShrinks(s);
      if Evict(s).1 {
        EvictToBytesShrinks(Evict(s).0, limit);
      }
    }
  }

  lemma {:induction false} RoomShrinks(s: Shard, caps: Caps, k: Key, v: Value, now: int)
    ensures Queued(Room(s, caps, k, v, now)) <= Queued(s)
  {
    hide Queued, EvictToCount, EvictToBytes, ExpireFrom;
    var a := RoomForKey(s, caps, k, now);
    ExpireFromShrinks(s, 0, now, TotalItems(s) + 1);
    EvictToCountShrinks(ExpireAll(s, now), caps.entries);
    assert Queued(a) <= Queued(s);
    ExpireFromShrinks(a, 0, now, TotalItems(a) + 1);
    EvictToBytesShrinks(ExpireAll(a, now), caps.bytes - |v|);
  }

  lemma {:induction false} ShrinkDistinct(s: Shard, t: Shard)
    requires Distinct(s) && Queued(t) <= Queued(s)
    ensures Distinct(t)
  {
    hide Queued;
  }

  // ---- compaction -----------------------------------------------------------------------

  lemma {:induction false} KeptIsCurrent(data: map<Key, Entry>, q: seq<Item>)
    ensures multiset(KeepCurrent(data, q)) <= multiset(q)
    ensures forall it :: it in multiset(KeepCurrent(data, q)) ==> Current(data, it)
  {
    hide Current;
    if q != [] {
      KeptIsCurrent(data, q[1..]);
      assert q == [q[0]] + q[1..];
      var kept := KeepCurrent(data, q[1..]);
      assert KeepCurrent(data, q) == if Current(data, q[0]) then [q[0]] + kept else kept;
    }
  }

  lemma {:induction false} KeptQueuesCurrent(data: map<Key, Entry>, qs: seq<TtlQueue>)
    ensures QueuedIn(KeepCurrentQueues(data, qs)) <= QueuedIn(qs)
    ensures forall it :: it in QueuedIn(KeepCurrentQueues(data, qs)) ==> Current(data, it)
  {
    hide Current, KeepCurrent;
    if qs != [] {
      KeptIsCurrent(data, qs[0].items);
      KeptQueuesCurrent(data, qs[1..]);
      assert KeepCurrentQueues(data, qs)[1..] == KeepCurrentQueues(data, qs[1..]);
    }
  }

  /** Current items of distinct pairs are at most as many as the entries. */
  lemma {:induction false} OneItemEach(data: map<Key, Entry>, items: multiset<Item>)
    requires forall it :: it in items ==> Current(data, it) && items[it] == 1
    ensures |items| <= |data|
    decreases |items|
  {
    if items != multiset{} {
      var it :| it in items;
      var rest := items - multiset{it};
      forall x | x in rest ensures Current(data - {it.key}, x) && rest[x] == 1 {
        assert x in items;
      }
      OneItemEach(data - {it.key}, rest);
    }
  }

  lemma {:induction false} CompactFits(s: Shard)
    requires Distinct(s)
    ensures Compact(s).items <= |s.data| && Queued(Compact(s)) <= Queued(s)
  {
    hide KeepCurrent, KeepCurrentQueues, QueuedIn, SumLen, Current;
    var t := Compact(s);
    KeptIsCurrent(s.data, s.forever);
    KeptQueuesCurrent(s.data, s.ttlQueues);
    QueuedCount(t.ttlQueues);
    ShrinkDistinct(s, t);
    OneItemEach(s.data, Queued(t));
  }

  lemma {:induction false} TidyFits(s: Shard)
    requires Distinct(s)
    ensures Tidy(s).items <= 2 * |Tidy(s).data| + COMPACT_SLACK && Distinct(Tidy(s))
  {
    hide Compact, Queued, Distinct;
    CompactFits(s);
    CompactData(s);
    if s.items > 2 * |s.data| + COMPACT_SLACK {
      ShrinkDistinct(s, Compact(s));
    }
  }

  // ---- writes ---------------------------------------------------------------------------

  /** The write queues no pair that is queued already. */
  predicate NewPair(s: Shard, k: Key, ttl: int, now: int) {
    Expires(ttl, now) ==> Item(k, now + ttl) !in Queued(s)
  }

  lemma {:induction false} QueuedOf(qs: seq<TtlQueue>, it: Item)
    requires it in QueuedIn(qs)
    ensures exists i :: 0 <= i < |qs| && it in qs[i].items
  {
    if it in qs[0].items {
    } else {
      QueuedOf(qs[1..], it);
      var i :| 0 <= i < |qs[1..]| && it in qs[1..][i].items;
      assert it in qs[i + 1].items;
    }
  }

  /** A write that never expires has a number no queued item has. */
  lemma {:induction false} NumberIsNew(s: Shard, k: Key, now: int)
    requires Inv(s, now)
    ensures Item(k, 0 - (s.writes + 1)) !in Queued(s)
  {
    var it := Item(k, 0 - (s.writes + 1));
    if it in QueuedIn(s.ttlQueues) {
      QueuedOf(s.ttlQueues, it);
      assert false;
    }
  }

  /** The deadline the write gives is not the one the key has. */
  lemma {:induction false} DeadlineIsNew(s: Shard, k: Key, ttl: int, now: int)
    requires Inv(s, now) && NewPair(s, k, ttl, now)
    ensures Item(k, Stamp(s, ttl, now).1) !in Queued(s)
    ensures !(k in s.data && s.data[k].deadline == Stamp(s, ttl, now).1)
  {
    hide Queued, Inv, Indexed;
    var d := Stamp(s, ttl, now).1;
    if !Expires(ttl, now) {
      NumberIsNew(s, k, now);
    }
    if k in s.data && s.data[k].deadline == d {
      InvIndexed(s, k, now);
      var i := IndexOf(s, k);
      QueuedHas(s, i, Item(k, d));
    }
  }

  lemma {:induction false} IndexOf(s: Shard, k: Key) returns (i: nat)
    requires k in s.data && Indexed(s, k)
    ensures IsQueue(s, i) && Item(k, s.data[k].deadline) in QueueAt(s, i)
  {
    var it := Item(k, s.data[k].deadline);
    if it.deadline > 0 {
      i :| 0 <= i < |s.ttlQueues| && it in s.ttlQueues[i].items;
    } else {
      i := |s.ttlQueues|;
    }
  }

  lemma {:induction false} PushQueued(s: Shard, i: nat, it: Item)
    requires IsQueue(s, i)
    ensures Queued(Push(s, i, it)) == Queued(s) + multiset{it}
  {
    var q := QueueAt(s, i);
    SetQueueQueued(s, i, q + [it]);
    var t := SetQueue(s, i, q + [it]);
    assert Push(s, i, it).ttlQueues == t.ttlQueues && Push(s, i, it).forever == t.forever;
    assert multiset(q + [it]) == multiset{it} + multiset(q);
    hide Queued;
    Cancel(Queued(s), Queued(t), multiset(q), multiset{it});
  }

  lemma {:induction false} StampQueued(s: Shard, ttl: int, now: int)
    ensures Queued(Stamp(s, ttl, now).0) == Queued(s)
  {
    if Expires(ttl, now) && FindTtl(s.ttlQueues, ttl) == |s.ttlQueues| {
      QueuedAppend(s.ttlQueues, TtlQueue(ttl, []));
    }
  }

  lemma {:induction false} QueuedAppend(qs: seq<TtlQueue>, q: TtlQueue)
    ensures QueuedIn(qs + [q]) == QueuedIn(qs) + multiset(q.items)
  {
    if qs != [] {
      QueuedAppend(qs[1..], q);
      assert (qs + [q])[1..] == qs[1..] + [q];
    }
  }

  lemma {:induction false} EnqueueFits(s: Shard, it: Item, ttl: int, now: int)
    requires Expires(ttl, now) ==> FindTtl(s.ttlQueues, ttl) < |s.ttlQueues|
    requires Distinct(s) && it !in Queued(s)
    ensures var t := Enqueue(s, it, ttl, now);
      t.items <= 2 * |t.data| + COMPACT_SLACK && Distinct(t)
  {
    hide Queued, Tidy, ExpireQueue, FindTtl;
    var i := if Expires(ttl, now) then FindTtl(s.ttlQueues, ttl) else |s.ttlQueues|;
    PushQueued(s, i, it);
    var w := Push(s, i, it);
    assert Distinct(w);
    if Expires(ttl, now) {
      ExpireQueueShrinks(w, i, now, WRITE_EXPIRE_BUDGET);
      ShrinkDistinct(w, ExpireQueue(w, i, now, WRITE_EXPIRE_BUDGET).0);
      TidyFits(ExpireQueue(w, i, now, WRITE_EXPIRE_BUDGET).0);
    } else {
      TidyFits(w);
    }
  }

  /** Where no pair is queued twice and the write's pair is new, the write leaves at most twice as
      many items as entries plus the slack, and again no pair queued twice. */
  lemma {:induction false} PutItems(s: Shard, caps: Caps, k: Key, v: Value, ttl: int, now: int)
    requires Inv(s, now) && Distinct(s) && NewPair(s, k, ttl, now)
    ensures var t := Put(s, caps, k, v, ttl, now);
      t.items <= 2 * |t.data| + COMPACT_SLACK && Distinct(t)
  {
    hide Queued, Room, Inv, Enqueue, Stamp;
    var r := Room(s, caps, k, v, now);
    RoomInOrder(s, caps, k, v, now);
    RoomShrinks(s, caps, k, v, now);
    ShrinkDistinct(s, r);
    DeadlineIsNew(r, k, ttl, now);
    StampQueued(r, ttl, now);
    var (t, d) := Stamp(r, ttl, now);
    var u := Store(t, k, v, d);
    StampOpens(r, ttl, now);
    assert Queued(u) == Queued(t) by { SameQueues(t, u); }
    EnqueueFits(u, Item(k, d), ttl, now);
  }

  lemma {:induction false} StampOpens(s: Shard, ttl: int, now: int)
    ensures Expires(ttl, now) ==>
      FindTtl(Stamp(s, ttl, now).0.ttlQueues, ttl) < |Stamp(s, ttl, now).0.ttlQueues|
  {
  }

  lemma {:induction false} SameQueues(s: Shard, t: Shard)
    requires s.ttlQueues == t.ttlQueues && s.forever == t.forever
    ensures Queued(s) == Queued(t)
  {
  }

  /** Deletes and expirer holds queue nothing. */
  lemma {:induction false} OthersShrink(s: Shard, k: Key, now: int)
    ensures Queued(Remove(s, k)) == Queued(s)
    ensures Queued(ExpirerHold(s, now).0) <= Queued(s)
  {
    hide QueuedIn;
    ExpireFromShrinks(s, 0, now, EXPIRE_BATCH);
    DropEmptyQueued(Expire(s, now, EXPIRE_BATCH).0.ttlQueues);
  }

  lemma {:induction false} DropEmptyQueued(qs: seq<TtlQueue>)
    ensures QueuedIn(DropEmpty(qs)) == QueuedIn(qs)
  {
    if qs != [] {
      DropEmptyQueued(qs[1..]);
      var rest := DropEmpty(qs[1..]);
      if qs[0].items != [] {
        assert DropEmpty(qs) == [qs[0]] + rest;
        assert DropEmpty(qs)[1..] == rest;
      } else {
        assert DropEmpty(qs) == rest;
        assert QueuedIn(qs) == multiset{} + QueuedIn(qs[1..]);
      }
    }
  }

  // ---- runs -----------------------------------------------------------------------------

  /** The step writes to its shard. */
  predicate Writes(s: Shard, e: Event) {
    e.op.Set? || (e.op.SetNX? && !HeldLive(s.data, e.op.key, e.now))
  }

  /** Every write of the run queues a pair that is not queued at the time. */
  predicate NoRecurrence(b: Backend, caps: Caps, run: seq<Event>, from: int)
    requires ValidRun(run, from)
    decreases |run|
  {
    run == [] ||
    var s := b[Target(run[0].op)];
    && (Writes(s, run[0]) ==> NewPair(s, run[0].op.key, run[0].op.ttl, run[0].now))
    && NoRecurrence(Step(b, caps, run[0]).0, caps, run[1..], run[0].now)
  }

  /** Every write of the run leaves its shard with at most twice as many items as entries, plus the
      slack. */
  predicate ItemsBounded(b: Backend, caps: Caps, run: seq<Event>, from: int)
    requires ValidRun(run, from)
    decreases |run|
  {
    run == [] ||
    var i, c := Target(run[0].op), Step(b, caps, run[0]).0;
    && (Writes(b[i], run[0]) ==> c[i].items <= 2 * |c[i].data| + COMPACT_SLACK)
    && ItemsBounded(c, caps, run[1..], run[0].now)
  }

  predicate AllDistinct(b: Backend) {
    forall i :: 0 <= i < SHARD_COUNT ==> Distinct(b[i])
  }

  lemma {:induction false} StepItems(b: Backend, caps: Caps, e: Event, from: int)
    requires Good(b, caps, from) && AllDistinct(b) && ValidEvent(e) && from <= e.now
    requires Writes(b[Target(e.op)], e) ==> NewPair(b[Target(e.op)], e.op.key, e.op.ttl, e.now)
    ensures var i, c := Target(e.op), Step(b, caps, e).0;
      && AllDistinct(c)
      && (Writes(b[i], e) ==> c[i].items <= 2 * |c[i].data| + COMPACT_SLACK)
  {
    hide Queued, Distinct, Put, ExpirerHold, Inv, Target, CapsOk, NewPair, HeldLive;
    var i := Target(e.op);
    var s := b[i];
    InvLater(s, from, e.now);
    if Writes(s, e) {
      PutItems(s, caps, e.op.key, e.op.val, e.op.ttl, e.now);
    } else if e.op.Del? {
      OthersShrink(s, e.op.key, e.now);
      ShrinkDistinct(s, Remove(s, e.op.key));
    } else if e.op.Hold? {
      OthersShrink(s, [], e.now);
      ShrinkDistinct(s, ExpirerHold(s, e.now).0);
    }
  }

  lemma {:induction false} ItemsFrom(b: Backend, caps: Caps, run: seq<Event>, from: int)
    requires Good(b, caps, from) && AllDistinct(b) && ValidRun(run, from) && NoRecurrence(b, caps, run, from)
    ensures ItemsBounded(b, caps, run, from)
    decreases |run|
  {
    hide Good, AllDistinct, Step;
    if run != [] {
      StepItems(b, caps, run[0], from);
      StepGood(b, caps, run[0], from);
      ItemsFrom(Step(b, caps, run[0]).0, caps, run[1..], run[0].now);
    }
  }

  /** In every run whose writes never queue a pair again while it is queued, compaction keeps the
      queues of a written shard within twice its entries plus the slack. */
  lemma {:induction false} QueuesStaySmall(caps: Caps, run: seq<Event>)
    requires ValidRun(run, 0) && NoRecurrence(Fresh(), caps, run, 0)
    ensures ItemsBounded(Fresh(), caps, run, 0)
  {
    hide NoRecurrence, ItemsBounded;
    FreshGood(caps);
    ItemsFrom(Fresh(), caps, run, 0);
  }
}
