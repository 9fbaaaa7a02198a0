/** The striped backend: each operation locks one shard and takes one step of CacheRuns. */
module CacheBackend {
  import opened Bytes
  import opened CacheShard
  import S = CacheSpec
  import I = CacheInvariant
  import R = CacheRuns

  method ShardFor(key: S.Key) returns (i: nat)
    ensures i == R.ShardOf(key)
  {
    hide R.FnvStep;
    var h := R.FNV_OFFSET;
    for j := 0 to |key|
      invariant h == R.Fnv(key[..j])
    {
      assert key[..j + 1][..j] == key[..j];
      h := R.FnvStep(h, key[j]);
    }
    assert key[..|key|] == key;
    i := (h as int) % R.SHARD_COUNT;
  }

  /** No entry expired by `now` is left, and no empty queue. */
  predicate Swept(s: S.Shard, now: int) {
    && (forall k :: k in s.data ==> S.Live(s.data[k], now))
    && (forall q :: q in s.ttlQueues ==> q.items != [])
  }

  lemma {:induction false} SweptEarlier(s: S.Shard, now: int, later: int)
    requires Swept(s, later) && now <= later
    ensures Swept(s, now)
  {
  }

  /** Clock readings that never step back. */
  ghost predicate Steady(times: nat -> int) {
    forall i: nat, j: nat :: i <= j ==> times(i) <= times(j)
  }

  class Backend {
    const caps: S.Caps
    const shards: seq<Shard>
    ghost var view: R.Backend
    ghost var clock: int
    ghost var Repr: set<object>

    /** Shard `i` and its queues are apart from every other shard. */
    ghost predicate Apart()
      reads this, Repr
    {
      && |shards| == R.SHARD_COUNT
      && this !in Repr
      && (forall i :: 0 <= i < R.SHARD_COUNT ==>
            shards[i] in Repr && shards[i].Repr <= Repr && shards[i].Valid() && shards[i].state == view[i])
      && (forall i, j :: 0 <= i < R.SHARD_COUNT && 0 <= j < R.SHARD_COUNT && i != j ==>
            shards[i] != shards[j] && shards[i] !in shards[j].Repr && shards[i].Repr !! shards[j].Repr)
    }

    ghost predicate Valid()
      reads this, Repr
    {
      Apart() && R.Good(view, caps, clock)
    }

    lemma {:induction false} ShardGood(i: nat, now: int)
      requires Valid() && i < R.SHARD_COUNT && clock <= now
      ensures I.Inv(shards[i].state, now)
    {
      I.InvLater(view[i], clock, now);
    }

    /** After shard `i` alone has taken the step `e`, the backend has taken it. */
    ghost method Record(i: nat, e: R.Event)
      requires |shards| == R.SHARD_COUNT && i < R.SHARD_COUNT && R.ValidEvent(e) && i == R.Target(e.op)
      requires this !in Repr && R.Good(view, caps, clock) && clock <= e.now
      requires forall j :: 0 <= j < R.SHARD_COUNT ==> shards[j] in Repr && shards[j].Valid()
      requires forall j :: 0 <= j < R.SHARD_COUNT ==>
        if j == i then shards[i].state == R.ShardStep(view[i], caps, e.op, e.now).0
        else shards[j].state == view[j] && shards[j].Repr <= Repr
      requires forall j, k :: 0 <= j < R.SHARD_COUNT && 0 <= k < R.SHARD_COUNT && j != k ==>
        shards[j] != shards[k] && shards[j] !in shards[k].Repr && shards[j].Repr !! shards[k].Repr
      requires this !in shards[i].Repr
      modifies this
      ensures Valid() && view == R.Step(old(view), caps, e).0 && clock == e.now
      ensures Repr == old(Repr) + shards[i].Repr
    {
      hide Shard.Valid, R.Good, R.ShardStep;
      R.StepGood(view, caps, e, clock);
      view := R.Step(view, caps, e).0;
      clock := e.now;
      Repr := Repr + shards[i].Repr;
    }

    method Set(key: S.Key, val: S.Value, ttl: int, now: int)
      requires Valid() && clock <= now
      modifies this, Repr
      ensures Valid() && clock == now && fresh(Repr - old(Repr))
      ensures view == R.Step(old(view), caps, R.Event(R.Set(key, val, ttl), now)).0
    {
      hide Shard.Valid, R.Good, S.Put, R.Step;
      var i := ShardFor(key);
      ShardGood(i, now);
      shards[i].Put(caps, key, val, ttl, now);
      Record(i, R.Event(R.Set(key, val, ttl), now));
    }

    method SetNX(key: S.Key, val: S.Value, ttl: int, now: int) returns (created: bool)
      requires Valid() && clock <= now
      modifies this, Repr
      ensures Valid() && clock == now && fresh(Repr - old(Repr))
      ensures (view, R.Created(created)) == R.Step(old(view), caps, R.Event(R.SetNX(key, val, ttl), now))
    {
      hide Shard.Valid, R.Good, S.Put;
      var i := ShardFor(key);
      ShardGood(i, now);
      var live := LiveIn(i, key, now);
      if live {
        Record(i, R.Event(R.SetNX(key, val, ttl), now));
        return false;
      }
      shards[i].Put(caps, key, val, ttl, now);
      Record(i, R.Event(R.SetNX(key, val, ttl), now));
      created := true;
    }

    method LiveIn(i: nat, key: S.Key, now: int) returns (live: bool)
      requires Valid() && i < R.SHARD_COUNT
      ensures live == R.HeldLive(view[i].data, key, now)
    {
      assert shards[i].Valid();
      live := key in shards[i].data && S.Live(shards[i].data[key], now);
    }

    /** The live value of `key`, judged by the clock as read after the lookup. */
    method Get(key: S.Key, checkedAt: int) returns (hit: Option<S.Value>)
      requires Valid() && clock <= checkedAt
      ensures R.Found(hit) == R.Step(view, caps, R.Event(R.Get(key, checkedAt), clock)).1
    {
      hide R.Good;
      var i := ShardFor(key);
      assert shards[i].Valid();
      var live := LiveIn(i, key, checkedAt);
      hide Shard.Rep, R.HeldLive;
      hit := if live then Some(shards[i].data[key].value) else None;
    }

    method Del(key: S.Key, now: int)
      requires Valid() && clock <= now
      modifies this, Repr
      ensures Valid() && clock == now && fresh(Repr - old(Repr))
      ensures view == R.Step(old(view), caps, R.Event(R.Del(key), now)).0
    {
      hide Shard.Valid, R.Good, R.Step;
      var i := ShardFor(key);
      shards[i].Forget(key);
      Record(i, R.Event(R.Del(key), now));
    }

    /** One lock hold of the expirer on shard `i`; `more` asks for another. */
    method ExpireHold(i: nat, now: int) returns (more: bool)
      requires Valid() && clock <= now && i < R.SHARD_COUNT
      modifies this, Repr
      ensures Valid() && clock == now && fresh(Repr - old(Repr))
      ensures view == R.Step(old(view), caps, R.Event(R.Hold(i), now)).0
      ensures I.OnlyExpiredGone(old(view)[i], view[i], now)
      ensures !more ==> Swept(view[i], now)
      ensures more ==> S.TotalItems(view[i]) + S.EXPIRE_BATCH == S.TotalItems(old(view)[i])
    {
      hide Shard.Valid, R.Good, S.ExpirerHold;
      ShardGood(i, now);
      I.ExpirerHoldInv(shards[i].state, now);
      more := shards[i].ExpirerHold(now);
      Record(i, R.Event(R.Hold(i), now));
    }

    /** Holds shard `i` until nothing is left to expire, reading the clock anew in each hold:
        reading `from` first, reading `next` - 1 last. */
    method ExpireShard(i: nat, times: nat -> int, from: nat) returns (next: nat)
      requires Valid() && clock <= times(from) && Steady(times) && i < R.SHARD_COUNT
      modifies this, Repr
      ensures Valid() && fresh(Repr - old(Repr))
      ensures from < next && clock == times(next - 1)
      ensures forall j :: 0 <= j < R.SHARD_COUNT && j != i ==> view[j] == old(view)[j]
      ensures I.OnlyExpiredGone(old(view)[i], view[i], clock) && Swept(view[i], clock)
    {
      hide Shard.Valid, R.Good, R.ShardStep, Swept, I.OnlyExpiredGone;
      var more := true;
      next := from;
      I.NothingGone(view[i], clock);
      while more
        invariant Valid() && fresh(Repr - old(Repr)) && from <= next
        invariant clock == if next == from then old(clock) else times(next - 1)
        invariant forall j :: 0 <= j < R.SHARD_COUNT && j != i ==> view[j] == old(view)[j]
        invariant I.OnlyExpiredGone(old(view)[i], view[i], clock)
        invariant !more ==> from < next && Swept(view[i], clock)
        decreases if more then S.TotalItems(view[i]) + 1 else 0
      {
        ghost var before, was := view[i], clock;
        more := ExpireHold(i, times(next));
        I.GoneLater(old(view)[i], before, was, clock);
        I.GoneTransitive(old(view)[i], before, view[i], clock);
        next := next + 1;
      }
    }

    /** One pass of the expirer over all shards. */
    method ExpireAll(times: nat -> int) returns (holds: nat)
      requires Valid() && clock <= times(0) && Steady(times)
      modifies this, Repr
      ensures Valid() && fresh(Repr - old(Repr))
      ensures holds > 0 && clock == times(holds - 1)
      ensures forall i :: 0 <= i < R.SHARD_COUNT ==>
        I.OnlyExpiredGone(old(view)[i], view[i], clock) && Swept(view[i], times(0))
    {
      hide Shard.Valid, R.Good, Swept, I.OnlyExpiredGone;
      holds := 0;
      for i := 0 to R.SHARD_COUNT
        invariant Valid() && fresh(Repr - old(Repr)) && (i > 0 ==> holds > 0)
        invariant clock == if holds == 0 then old(clock) else times(holds - 1)
        invariant forall j :: 0 <= j < i ==>
          I.OnlyExpiredGone(old(view)[j], view[j], clock) && Swept(view[j], times(0))
        invariant forall j :: i <= j < R.SHARD_COUNT ==> view[j] == old(view)[j]
      {
        ghost var was, before := view, clock;
        holds := ExpireShard(i, times, holds);
        forall j | 0 <= j < i ensures I.OnlyExpiredGone(old(view)[j], view[j], clock) {
          I.GoneLater(old(view)[j], was[j], before, clock);
        }
        SweptEarlier(view[i], times(0), clock);
      }
    }

    constructor (maxKeys: int, maxBytes: int)
      ensures Valid() && view == R.Fresh() && clock == 0 && caps == R.CapsOf(maxKeys, maxBytes)
    {
      hide Shard.Valid, R.Good;
      caps := R.CapsOf(maxKeys, maxBytes);
      ghost var all;
      var ss;
      ss, all := MakeShards(R.SHARD_COUNT);
      shards := ss;
      view := R.Fresh();
      clock := 0;
      R.FreshGood(R.CapsOf(maxKeys, maxBytes));
      Repr := all;
      new;
    }
  }

  method MakeShards(n: nat) returns (ss: seq<Shard>, ghost all: set<object>)
    ensures |ss| == n && fresh(all)
    ensures forall i :: 0 <= i < n ==> ss[i] in all && ss[i].Repr <= all
    ensures forall i :: 0 <= i < n ==> ss[i].Valid() && ss[i].state == S.EMPTY && fresh(ss[i]) && fresh(ss[i].Repr)
    ensures forall i, j :: 0 <= i < n && 0 <= j < n && i != j ==>
      ss[i] != ss[j] && ss[i] !in ss[j].Repr && ss[i].Repr !! ss[j].Repr
  {
    hide Shard.Valid;
    ss, all := [], {};
    for k := 0 to n
      invariant |ss| == k && fresh(all)
      invariant forall i :: 0 <= i < k ==> ss[i] in all && ss[i].Repr <= all
      invariant forall i :: 0 <= i < k ==> ss[i].Valid() && ss[i].state == S.EMPTY && fresh(ss[i]) && fresh(ss[i].Repr)
      invariant forall i, j :: 0 <= i < k && 0 <= j < k && i != j ==>
        ss[i] != ss[j] && ss[i] !in ss[j].Repr && ss[i].Repr !! ss[j].Repr
    {
      var s := new Shard();
      ss := ss + [s];
      all := all + {s} + s.Repr;
    }
  }
}
