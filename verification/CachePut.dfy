/** Writes under the caps: making room, storing, and what a write keeps. */
module CachePut {
  import opened Bytes
  import opened CacheSpec
  import opened CacheInvariant

  // ---- order of removal -----------------------------------------------------------------

  /** `t` lost entries of `s` only from the front of the removal order. */
  predicate RemovedInOrder(s: Shard, t: Shard) {
    && (forall k :: k in t.data ==> k in s.data && t.data[k] == s.data[k])
    && (forall k, j :: k in s.data && k !in t.data && j in t.data ==> Before(s.data[k], t.data[j]))
  }

  lemma {:induction false} RemovedTransitive(s: Shard, t: Shard, u: Shard)
    requires RemovedInOrder(s, t) && RemovedInOrder(t, u)
    ensures RemovedInOrder(s, u)
  {
  }

  lemma {:induction false} EvictRemoves(s: Shard, now: int)
    requires Inv(s, now)
    ensures Inv(Evict(s).0, now) && RemovedInOrder(s, Evict(s).0)
    ensures Evict(s).1 <==> s.data != map[]
  {
    EvictOrder(s, now);
    var (t, ok) := Evict(s);
    if ok {
      var k :| NextVictim(s.data, k) && t.data == s.data - {k};
      VictimFirst(s, t, k);
    }
  }

  lemma {:induction false} VictimFirst(s: Shard, t: Shard, k: Key)
    requires NextVictim(s.data, k) && t.data == s.data - {k}
    ensures RemovedInOrder(s, t)
  {
  }

  lemma {:induction false} EvictToCountRoom(s: Shard, limit: nat, now: int)
    requires Inv(s, now)
    ensures var t := EvictToCount(s, limit);
      Inv(t, now) && RemovedInOrder(s, t) && (limit > 0 ==> |t.data| < limit)
    decreases |s.data|
  {
    if |s.data| >= limit {
      EvictRemoves(s, now);
      var (t, ok) := Evict(s);
      if ok {
        EvictToCountRoom(t, limit, now);
        RemovedTransitive(s, t, EvictToCount(t, limit));
      }
    }
  }

  lemma {:induction false} EvictToBytesRoom(s: Shard, limit: int, now: int)
    requires Inv(s, now)
    ensures var t := EvictToBytes(s, limit);
      Inv(t, now) && RemovedInOrder(s, t) && (t.bytes <= limit || t.data == map[])
    decreases |s.data|
  {
    if s.bytes > limit {
      EvictRemoves(s, now);
      var (t, ok) := Evict(s);
      if ok {
        EvictToBytesRoom(t, limit, now);
        RemovedTransitive(s, t, EvictToBytes(t, limit));
      } else {
        EvictOrder(s, now);
      }
    }
  }

  lemma {:induction false} ExpireAllRemoves(s: Shard, now: int)
    requires Inv(s, now)
    ensures Inv(ExpireAll(s, now), now) && RemovedInOrder(s, ExpireAll(s, now))
  {
    ExpireAllComplete(s, now);
    var t := ExpireAll(s, now);
    forall k, j | k in s.data && k !in t.data && j in t.data ensures Before(s.data[k], t.data[j]) {
      assert Expired(s.data[k], now) && Live(s.data[j], now);
    }
  }

  lemma {:induction false} MakeRoomRoom(s: Shard, limit: nat, now: int)
    requires Inv(s, now)
    ensures var t := MakeRoom(s, now, limit);
      Inv(t, now) && RemovedInOrder(s, t) && (limit > 0 ==> |t.data| < limit)
  {
    ExpireAllRemoves(s, now);
    EvictToCountRoom(ExpireAll(s, now), limit, now);
    RemovedTransitive(s, ExpireAll(s, now), MakeRoom(s, now, limit));
  }

  lemma {:induction false} MakeRoomBytesRoom(s: Shard, limit: int, now: int)
    requires Inv(s, now)
    ensures var t := MakeRoomBytes(s, now, limit);
      Inv(t, now) && RemovedInOrder(s, t) && (t.bytes <= limit || t.data == map[])
  {
    ExpireAllRemoves(s, now);
    EvictToBytesRoom(ExpireAll(s, now), limit, now);
    RemovedTransitive(s, ExpireAll(s, now), MakeRoomBytes(s, now, limit));
  }

  lemma {:induction false} RoomForKeyRoom(s: Shard, caps: Caps, k: Key, now: int)
    requires Inv(s, now)
    ensures var t := RoomForKey(s, caps, k, now);
      && Inv(t, now) && RemovedInOrder(s, t)
      && (k !in s.data && caps.entries > 0 ==> |t.data| < caps.entries)
      && (k in s.data ==> t == s)
  {
    if k !in s.data && caps.entries > 0 && |s.data| >= caps.entries {
      MakeRoomRoom(s, caps.entries, now);
    }
  }

  lemma {:induction false} RoomForValueRoom(s: Shard, caps: Caps, v: Value, need: int, now: int)
    requires Inv(s, now)
    ensures var t := RoomForValue(s, caps, v, need, now);
      && Inv(t, now) && RemovedInOrder(s, t)
      && (caps.bytes > 0 && need > 0 ==>
            || t.data == map[] || t.bytes <= caps.bytes - |v|
            || (t == s && s.bytes + need <= caps.bytes))
      && (need <= 0 ==> t == s)
  {
    hide MakeRoomBytes, Inv;
    if caps.bytes > 0 && need > 0 && s.bytes + need > caps.bytes {
      MakeRoomBytesRoom(s, caps.bytes - |v|, now);
    }
  }

  /** Once room has been made, some entry gone while another stays means the gone one came
      first in the removal order; in particular no live entry goes while an expired one stays. */
  lemma {:induction false} RoomInOrder(s: Shard, caps: Caps, k: Key, v: Value, now: int)
    requires Inv(s, now)
    ensures Inv(Room(s, caps, k, v, now), now) && RemovedInOrder(s, Room(s, caps, k, v, now))
  {
    hide RoomForKey, RoomForValue, RemovedInOrder, Inv;
    var t := RoomForKey(s, caps, k, now);
    RoomForKeyRoom(s, caps, k, now);
    RoomForValueRoom(t, caps, v, |v| - HeldBytes(s.data, k), now);
    RemovedTransitive(s, t, Room(s, caps, k, v, now));
  }

  // ---- compaction -----------------------------------------------------------------------

  lemma {:induction false} KeepCurrentElements(data: map<Key, Entry>, q: seq<Item>)
    ensures forall it :: it in KeepCurrent(data, q) <==> it in q && Current(data, it)
    ensures |KeepCurrent(data, q)| <= |q|
  {
    if q != [] {
      KeepCurrentElements(data, q[1..]);
      assert q == [q[0]] + q[1..];
    }
  }

  lemma {:induction false} KeepCurrentTtl(data: map<Key, Entry>, q: TtlQueue, now: int)
    requires TtlQueueOk(q, now)
    ensures TtlQueueOk(TtlQueue(q.ttl, KeepCurrent(data, q.items)), now)
    decreases |q.items|
  {
    hide Current;
    if q.items != [] {
      var rest := TtlQueue(q.ttl, q.items[1..]);
      TailOk(q, now);
      KeepCurrentTtl(data, rest, now);
      KeepCurrentElements(data, rest.items);
      HeadFirst(q, now);
      var kept := KeepCurrent(data, rest.items);
      hide KeepCurrent;
      forall j | 0 <= j < |kept| ensures q.items[0].deadline <= kept[j].deadline {
        assert kept[j] in rest.items;
      }
      PrependOk(q.items[0], TtlQueue(q.ttl, kept), now);
      assert [] + kept == kept;
      assert KeepCurrent(data, q.items) == (if Current(data, q.items[0]) then [q.items[0]] else []) + kept by {
        KeepCurrentStep(data, q.items);
      }
    }
  }

  lemma {:induction false} KeepCurrentStep(data: map<Key, Entry>, q: seq<Item>)
    requires q != []
    ensures KeepCurrent(data, q) == (if Current(data, q[0]) then [q[0]] else []) + KeepCurrent(data, q[1..])
  {
  }

  lemma {:induction false} HeadFirst(q: TtlQueue, now: int)
    requires TtlQueueOk(q, now) && q.items != []
    ensures 0 < q.items[0].deadline <= now + q.ttl
    ensures forall it :: it in q.items[1..] ==> q.items[0].deadline <= it.deadline
  {
  }

  lemma {:induction false} PrependOk(it: Item, q: TtlQueue, now: int)
    requires TtlQueueOk(q, now) && 0 < it.deadline <= now + q.ttl
    requires forall j :: 0 <= j < |q.items| ==> it.deadline <= q.items[j].deadline
    ensures TtlQueueOk(q.(items := [it] + q.items), now)
  {
    var all := [it] + q.items;
    assert forall j :: 0 < j < |all| ==> all[j] == q.items[j - 1];
    forall j, k | 0 <= j < k < |all| ensures all[j].deadline <= all[k].deadline {
      if j > 0 {
        assert q.items[j - 1].deadline <= q.items[k - 1].deadline;
      }
    }
  }

  lemma {:induction false} KeepCurrentForever(data: map<Key, Entry>, q: seq<Item>)
    requires forall j, k :: 0 <= j < k < |q| ==> q[k].deadline < q[j].deadline
    ensures var r := KeepCurrent(data, q);
      forall j, k :: 0 <= j < k < |r| ==> r[k].deadline < r[j].deadline
  {
    if q != [] {
      KeepCurrentForever(data, q[1..]);
      KeepCurrentElements(data, q[1..]);
      var kept := KeepCurrent(data, q[1..]);
      forall j | 0 <= j < |kept| ensures kept[j].deadline < q[0].deadline {
        assert kept[j] in q[1..];
      }
    }
  }

  /** Compaction keeps the invariant and the entries, and leaves only current items queued. */
  lemma {:induction false} CompactInv(s: Shard, now: int)
    requires Inv(s, now)
    ensures Inv(Compact(s), now) && Compact(s).data == s.data
    ensures forall i, it :: 0 <= i <= |s.ttlQueues| && it in QueueAt(Compact(s), i) ==> Current(s.data, it)
  {
    var t := Compact(s);
    KeepCurrentForever(s.data, s.forever);
    KeepCurrentElements(s.data, s.forever);
    forall j | 0 <= j < |t.forever| ensures 0 - t.writes <= t.forever[j].deadline < 0 {
      assert t.forever[j] in s.forever;
    }
    forall i | 0 <= i < |t.ttlQueues| ensures TtlQueueOk(t.ttlQueues[i], now) {
      KeepCurrentTtl(s.data, s.ttlQueues[i], now);
    }
    forall k | k in t.data ensures Indexed(t, k) {
      assert Indexed(s, k);
      var it := Item(k, s.data[k].deadline);
      if it.deadline > 0 {
        var i :| 0 <= i < |s.ttlQueues| && it in s.ttlQueues[i].items;
        KeepCurrentElements(s.data, s.ttlQueues[i].items);
        assert it in t.ttlQueues[i].items;
      }
    }
    forall i, it | 0 <= i <= |s.ttlQueues| && it in QueueAt(t, i) ensures Current(s.data, it) {
      KeepCurrentElements(s.data, QueueAt(s, i));
    }
  }

  // ---- the write ------------------------------------------------------------------------

  /** Opening a queue, or counting a write, keeps the invariant; the new deadline exceeds none
      that its queue may receive later, and lies past the clock when it is one. */
  lemma {:induction false} StampInv(s: Shard, ttl: int, now: int)
    requires Inv(s, now)
    ensures var (t, d) := Stamp(s, ttl, now);
      && Inv(t, now) && t.data == s.data && t.bytes == s.bytes && t.items == s.items
      && t.forever == s.forever
      && (if Expires(ttl, now) then d == now + ttl > now else d == 0 - t.writes < 0)
      && (forall it :: it in s.forever ==> d < it.deadline || Expires(ttl, now))
  {
    if Expires(ttl, now) {
      if FindTtl(s.ttlQueues, ttl) == |s.ttlQueues| {
        OpenInv(s, ttl, now);
      }
      hide Inv;
    } else {
      CountInv(s, now);
      hide Inv, ForeverOk;
    }
  }

  lemma {:induction false} OpenInv(s: Shard, ttl: int, now: int)
    requires Inv(s, now) && ttl > 0 && FindTtl(s.ttlQueues, ttl) == |s.ttlQueues|
    ensures Inv(s.(ttlQueues := s.ttlQueues + [TtlQueue(ttl, [])]), now)
  {
    hide SumBytes;
    SumLenAppend(s.ttlQueues, TtlQueue(ttl, []));
    var t := s.(ttlQueues := s.ttlQueues + [TtlQueue(ttl, [])]);
    forall k | k in t.data ensures Indexed(t, k) {
      assert Indexed(s, k);
      var it := Item(k, s.data[k].deadline);
      if it.deadline > 0 {
        var i :| 0 <= i < |s.ttlQueues| && it in s.ttlQueues[i].items;
        assert it in t.ttlQueues[i].items;
      }
    }
  }

  lemma {:induction false} CountInv(s: Shard, now: int)
    requires Inv(s, now)
    ensures Inv(s.(writes := s.writes + 1), now)
    ensures forall it :: it in s.forever ==> 0 - (s.writes + 1) < it.deadline
  {
    var t := s.(writes := s.writes + 1);
    forall k | k in t.data ensures Indexed(t, k) {
      assert Indexed(s, k);
      IndexedKept(s, t, k);
    }
  }

  /** Rewriting `k` with the deadline it already has needs no new item. */
  lemma {:induction false} RewriteInv(s: Shard, k: Key, v: Value, now: int)
    requires Inv(s, now) && k in s.data
    ensures Inv(Store(s, k, v, s.data[k].deadline), now)
  {
    var u := Store(s, k, v, s.data[k].deadline);
    SumBytesStore(s.data, k, u.data[k]);
    forall j | j in u.data ensures Indexed(u, j) {
      assert Indexed(s, j);
      IndexedKept(s, u, j);
    }
  }

  lemma {:induction false} PushTtlOk(q: TtlQueue, it: Item, now: int)
    requires now >= 0 && TtlQueueOk(q, now) && it.deadline == now + q.ttl
    ensures TtlQueueOk(q.(items := q.items + [it]), now)
  {
  }

  lemma {:induction false} PushForeverOk(s: Shard, it: Item)
    requires ForeverOk(s) && 0 - s.writes <= it.deadline < 0
    requires forall x :: x in s.forever ==> it.deadline < x.deadline
    ensures ForeverOk(s.(forever := s.forever + [it]))
  {
    forall j | 0 <= j < |s.forever| ensures it.deadline < s.forever[j].deadline {
      assert s.forever[j] in s.forever;
    }
  }

  lemma {:induction false} PushQueuesOk(s: Shard, i: nat, it: Item, now: int)
    requires now >= 0 && IsQueue(s, i) && TtlQueuesOk(s, now) && ForeverOk(s)
    requires if i < |s.ttlQueues| then it.deadline == now + s.ttlQueues[i].ttl
             else 0 - s.writes <= it.deadline < 0 && forall x :: x in s.forever ==> it.deadline < x.deadline
    ensures TtlQueuesOk(Push(s, i, it), now) && ForeverOk(Push(s, i, it))
  {
    if i < |s.ttlQueues| {
      PushTtlOk(s.ttlQueues[i], it, now);
      hide TtlQueueOk;
    } else {
      PushForeverOk(s, it);
      hide TtlQueueOk;
    }
  }

  lemma {:induction false} PushIndexed(s: Shard, i: nat, it: Item, k: Key)
    requires IsQueue(s, i) && k in s.data && Indexed(s, k)
    ensures Indexed(Push(s, i, it), k)
  {
    var x := Item(k, s.data[k].deadline);
    if x.deadline > 0 {
      var j :| 0 <= j < |s.ttlQueues| && x in s.ttlQueues[j].items;
      assert x in Push(s, i, it).ttlQueues[j].items;
    }
  }

  /** Storing `k` under a new deadline and queueing its item keeps the invariant. */
  lemma {:induction false} StorePushInv(s: Shard, i: nat, k: Key, v: Value, d: int, now: int)
    requires Inv(s, now) && IsQueue(s, i)
    requires if i < |s.ttlQueues| then d == now + s.ttlQueues[i].ttl && d > 0
             else 0 - s.writes <= d < 0 && forall x :: x in s.forever ==> d < x.deadline
    ensures Inv(Push(Store(s, k, v, d), i, Item(k, d)), now)
  {
    var u := Store(s, k, v, d);
    var w := Push(u, i, Item(k, d));
    StorePushCounts(s, i, k, v, d);
    PushQueuesOk(u, i, Item(k, d), now);
    StorePushIndexed(s, i, k, v, d);
    hide CountsOk, TtlQueuesOk, ForeverOk, AllIndexed, Push;
  }

  lemma {:induction false} StorePushCounts(s: Shard, i: nat, k: Key, v: Value, d: int)
    requires CountsOk(s) && IsQueue(s, i)
    ensures CountsOk(Push(Store(s, k, v, d), i, Item(k, d)))
  {
    hide SumLen, SumBytes;
    var u := Store(s, k, v, d);
    SumBytesStore(s.data, k, Entry(v, d));
    SetQueueTotal(u, i, QueueAt(u, i) + [Item(k, d)]);
  }

  lemma {:induction false} StorePushIndexed(s: Shard, i: nat, k: Key, v: Value, d: int)
    requires AllIndexed(s) && IsQueue(s, i) && (if i < |s.ttlQueues| then d > 0 else d < 0)
    ensures AllIndexed(Push(Store(s, k, v, d), i, Item(k, d)))
  {
    var w := Push(Store(s, k, v, d), i, Item(k, d));
    forall j | j in w.data ensures Indexed(w, j) {
      if j == k {
        var q := QueueAt(w, i);
        assert q[|q| - 1] == Item(k, d);
      } else {
        assert Indexed(s, j);
        PushIndexed(s, i, Item(k, d), j);
        IndexedKept(Push(s, i, Item(k, d)), w, j);
      }
    }
  }

  /** `t` is `s` with `k` bound to `v` at the deadline `ttl` gives, less entries expired now. */
  predicate Wrote(s: Shard, t: Shard, k: Key, v: Value, ttl: int, now: int) {
    && k in t.data && t.data[k].value == v
    && (if Expires(ttl, now) then t.data[k].deadline == now + ttl else t.data[k].deadline < 0)
    && (forall j :: j in t.data && j != k ==> j in s.data && t.data[j] == s.data[j])
    && (forall j :: j in s.data && j != k && j !in t.data ==> Expired(s.data[j], now))
  }

  lemma {:induction false} TidyInv(s: Shard, now: int)
    requires Inv(s, now)
    ensures Inv(Tidy(s), now) && Tidy(s).data == s.data
  {
    CompactInv(s, now);
  }

  lemma {:induction false} EnqueueInv(s: Shard, it: Item, ttl: int, now: int)
    requires Expires(ttl, now) ==> FindTtl(s.ttlQueues, ttl) < |s.ttlQueues|
    requires Inv(Push(s, if Expires(ttl, now) then FindTtl(s.ttlQueues, ttl) else |s.ttlQueues|, it), now)
    ensures Inv(Enqueue(s, it, ttl, now), now) && OnlyExpiredGone(s, Enqueue(s, it, ttl, now), now)
  {
    if Expires(ttl, now) {
      var i := FindTtl(s.ttlQueues, ttl);
      var w := Push(s, i, it);
      ExpireQueueInv(w, i, now, WRITE_EXPIRE_BUDGET);
      TidyInv(ExpireQueue(w, i, now, WRITE_EXPIRE_BUDGET).0, now);
    } else {
      TidyInv(Push(s, |s.ttlQueues|, it), now);
    }
  }

  lemma {:induction false} WroteFrom(s: Shard, u: Shard, t: Shard, k: Key, v: Value, ttl: int, now: int)
    requires k in u.data && u.data == s.data[k := u.data[k]] && u.data[k].value == v
    requires if Expires(ttl, now) then u.data[k].deadline == now + ttl else u.data[k].deadline < 0
    requires OnlyExpiredGone(u, t, now)
    ensures Wrote(s, t, k, v, ttl, now)
  {
  }

  /** A write keeps the invariant, binds the key, and drops nothing but expired entries. */
  lemma {:induction false} WriteInv(s: Shard, k: Key, v: Value, ttl: int, now: int)
    requires Inv(s, now)
    ensures Inv(Write(s, k, v, ttl, now), now) && Wrote(s, Write(s, k, v, ttl, now), k, v, ttl, now)
  {
    var (t, d) := Stamp(s, ttl, now);
    StampInv(s, ttl, now);
    var u := Store(t, k, v, d);
    if k in s.data && s.data[k].deadline == d {
      RewriteInv(t, k, v, now);
      WroteFrom(s, u, u, k, v, ttl, now);
    } else {
      var i := if Expires(ttl, now) then FindTtl(u.ttlQueues, ttl) else |u.ttlQueues|;
      StorePushInv(t, i, k, v, d, now);
      EnqueueInv(u, Item(k, d), ttl, now);
      WroteFrom(s, u, Enqueue(u, Item(k, d), ttl, now), k, v, ttl, now);
    }
  }

  /** Whether the caps leave room for the write as the shard is. */
  predicate HasRoom(s: Shard, caps: Caps, k: Key, v: Value) {
    && (k in s.data || caps.entries == 0 || |s.data| < caps.entries)
    && (caps.bytes == 0 || |v| <= HeldBytes(s.data, k) || s.bytes + |v| - HeldBytes(s.data, k) <= caps.bytes)
  }

  /** What a put does to the entries of `s`: it binds `k`, keeps or loses the others whole, and
      loses one only if it has expired or leaves before every other entry kept. */
  predicate PutEffect(s: Shard, t: Shard, k: Key, v: Value, ttl: int, now: int) {
    && k in t.data && t.data[k].value == v
    && (if Expires(ttl, now) then t.data[k].deadline == now + ttl else t.data[k].deadline < 0)
    && (forall j :: j in t.data && j != k ==> j in s.data && t.data[j] == s.data[j])
    && (forall j :: j in s.data && j != k && j !in t.data ==>
          Expired(s.data[j], now) || forall i :: i in t.data && i != k ==> Before(s.data[j], s.data[i]))
  }

  lemma {:induction false} PutEffectFrom(s: Shard, r: Shard, t: Shard, k: Key, v: Value, ttl: int, now: int)
    requires RemovedInOrder(s, r) && Wrote(r, t, k, v, ttl, now)
    ensures PutEffect(s, t, k, v, ttl, now)
  {
  }

  lemma {:induction false} NoRoomNeeded(s: Shard, caps: Caps, k: Key, v: Value, now: int)
    requires HasRoom(s, caps, k, v)
    ensures Room(s, caps, k, v, now) == s
  {
    hide MakeRoom, MakeRoomBytes;
  }

  /** A put keeps the invariant and has the whole effect above; where the caps leave room it drops
      nothing but expired entries; and a value that never expires becomes the last to leave. */
  lemma {:induction false} PutInv(s: Shard, caps: Caps, k: Key, v: Value, ttl: int, now: int)
    requires Inv(s, now)
    ensures var t := Put(s, caps, k, v, ttl, now);
      && Inv(t, now) && PutEffect(s, t, k, v, ttl, now)
      && (HasRoom(s, caps, k, v) ==> Wrote(s, t, k, v, ttl, now))
      && (!Expires(ttl, now) ==> forall j :: j in t.data ==> Before(t.data[j], t.data[k]))
  {
    hide Room, Write, Inv, RemovedInOrder, Wrote, PutEffect, HasRoom;
    var r := Room(s, caps, k, v, now);
    RoomInOrder(s, caps, k, v, now);
    WriteInv(r, k, v, ttl, now);
    PutEffectFrom(s, r, Put(s, caps, k, v, ttl, now), k, v, ttl, now);
    if HasRoom(s, caps, k, v) {
      NoRoomNeeded(s, caps, k, v, now);
    }
    WrittenLast(r, k, v, ttl, now);
  }

  /** A value that never expires is written under a number beyond all earlier ones. */
  lemma {:induction false} WrittenLast(s: Shard, k: Key, v: Value, ttl: int, now: int)
    requires Inv(s, now)
    ensures var t := Write(s, k, v, ttl, now);
      k in t.data && (!Expires(ttl, now) ==> forall j :: j in t.data ==> Before(t.data[j], t.data[k]))
  {
    WriteInv(s, k, v, ttl, now);
    if !Expires(ttl, now) {
      var t := Write(s, k, v, ttl, now);
      WriteNumber(s, k, v, ttl, now);
      hide Write;
      forall j | j in t.data ensures Before(t.data[j], t.data[k]) {
        if j != k {
          assert Indexed(s, j);
        }
      }
    }
  }

  lemma {:induction false} WriteNumber(s: Shard, k: Key, v: Value, ttl: int, now: int)
    requires Inv(s, now) && !Expires(ttl, now)
    ensures var t := Write(s, k, v, ttl, now);
      k in t.data && t.data[k].deadline == 0 - (s.writes + 1)
  {
    hide Compact;
    var u := Store(s.(writes := s.writes + 1), k, v, 0 - (s.writes + 1));
    CompactData(Push(u, |u.ttlQueues|, Item(k, 0 - (s.writes + 1))));
  }

  lemma {:induction false} CompactData(s: Shard)
    ensures Compact(s).data == s.data
  {
  }

  /** Deleting a key leaves every other entry and no current item of the key. */
  lemma {:induction false} RemoveInv(s: Shard, k: Key, now: int)
    requires Inv(s, now)
    ensures var t := Remove(s, k);
      && Inv(t, now) && t.data == s.data - {k} && t.ttlQueues == s.ttlQueues && t.forever == s.forever
      && forall i, it :: 0 <= i <= |t.ttlQueues| && it in QueueAt(t, i) && it.key == k ==> !Current(t.data, it)
  {
    RemoveKeepsInv(s, k, now);
    hide Inv;
  }

  lemma {:induction false} RemoveKeepsInv(s: Shard, k: Key, now: int)
    requires Inv(s, now)
    ensures Inv(Remove(s, k), now)
  {
    if k in s.data {
      SumBytesRemove(s.data, k);
    }
    forall j | j in Remove(s, k).data ensures Indexed(Remove(s, k), j) {
      assert Indexed(s, j);
      IndexedKept(s, Remove(s, k), j);
    }
  }

  // ---- caps -----------------------------------------------------------------------------

  predicate Alone(data: map<Key, Entry>, total: int) {
    exists k :: k in data && |data[k].value| == total
  }

  /** The caps of one shard: at most `entries` entries, and at most `bytes` value bytes unless
      one value accounts for all of them. */
  predicate CapsOk(s: Shard, caps: Caps) {
    && (caps.entries > 0 ==> |s.data| <= caps.entries)
    && (caps.bytes > 0 ==> s.bytes <= caps.bytes || Alone(s.data, s.bytes))
  }

  predicate Submap(a: map<Key, Entry>, b: map<Key, Entry>) {
    forall k :: k in a ==> k in b && a[k] == b[k]
  }

  lemma {:induction false} SubmapSums(a: map<Key, Entry>, b: map<Key, Entry>)
    requires Submap(a, b)
    ensures |a| <= |b| && SumBytes(a) <= SumBytes(b)
    decreases |a|
  {
    if a != map[] {
      var k := Pick(a);
      SubmapSums(a - {k}, b - {k});
      SumBytesRemove(b, k);
    }
  }

  lemma {:induction false} ValueWithin(m: map<Key, Entry>, k: Key)
    requires k in m
    ensures |m[k].value| <= SumBytes(m)
  {
    SumBytesRemove(m, k);
  }

  /** Losing entries never breaks a cap. */
  lemma {:induction false} CapsShrink(s: Shard, t: Shard, caps: Caps)
    requires CapsOk(s, caps) && CountsOk(s) && CountsOk(t) && Submap(t.data, s.data)
    ensures CapsOk(t, caps)
  {
    SubmapSums(t.data, s.data);
    if caps.bytes > 0 && s.bytes > caps.bytes {
      var k :| k in s.data && |s.data[k].value| == s.bytes;
      if k in t.data {
        ValueWithin(t.data, k);
      } else {
        SumBytesRemove(s.data, k);
        SubmapSums(t.data, s.data - {k});
      }
    }
  }

  lemma {:induction false} RemovedSubmap(s: Shard, t: Shard)
    requires RemovedInOrder(s, t)
    ensures Submap(t.data, s.data)
  {
  }

  /** Making room frees a slot for a new key. */
  lemma {:induction false} RoomForEntry(s: Shard, r: Shard, caps: Caps, k: Key, v: Value, now: int)
    requires Inv(s, now) && caps.entries > 0 && |s.data| <= caps.entries && r == Room(s, caps, k, v, now)
    ensures |r.data| - (if k in r.data then 1 else 0) < caps.entries
  {
    hide RoomForKey, RoomForValue, Inv, SumBytes, RemovedInOrder;
    var a := RoomForKey(s, caps, k, now);
    RoomForKeyRoom(s, caps, k, now);
    RoomForValueRoom(a, caps, v, |v| - HeldBytes(s.data, k), now);
    if k in s.data && k !in r.data {
      RemovedSubmap(a, r);
      SubmapSums(r.data, s.data - {k});
    } else {
      RemovedSubmap(a, r);
      SubmapSums(r.data, a.data);
    }
  }

  /** Storing `k` after making room keeps the byte cap. */
  lemma {:induction false} RoomForBytes(s: Shard, r: Shard, caps: Caps, k: Key, v: Value, d: int, now: int)
    requires Inv(s, now) && CapsOk(s, caps) && caps.bytes > 0 && r == Room(s, caps, k, v, now)
    ensures var u := Store(r, k, v, d); u.bytes <= caps.bytes || Alone(u.data, u.bytes)
  {
    var a := RoomForKey(s, caps, k, now);
    RoomForKeyRoom(s, caps, k, now);
    CapsShrink(s, a, caps);
    var need := |v| - HeldBytes(s.data, k);
    RoomForValueRoom(a, caps, v, need, now);
    FitsAfter(a, r, caps, k, v, need, d);
  }

  lemma {:induction false} FitsAfter(a: Shard, r: Shard, caps: Caps, k: Key, v: Value, need: int, d: int)
    requires CapsOk(a, caps) && CountsOk(a) && CountsOk(r) && caps.bytes > 0
    requires need > 0 ==> || r.data == map[] || r.bytes <= caps.bytes - |v|
                          || (r == a && a.bytes + need <= caps.bytes)
    requires need <= 0 ==> r == a
    requires k in a.data ==> need == |v| - |a.data[k].value|
    requires k !in a.data ==> need <= |v| && (need <= 0 ==> |v| == 0)
    requires r == a && k !in a.data ==> need == |v|
    ensures var u := Store(r, k, v, d); u.bytes <= caps.bytes || Alone(u.data, u.bytes)
  {
    var u := Store(r, k, v, d);
    assert u.data[k].value == v;
    if need <= 0 && a.bytes > caps.bytes {
      AloneRewritten(a, k, v, d);
    }
  }

  /** When one value accounts for all bytes, rewriting some entry with a value no longer than
      its own, or adding an empty one, leaves it so. */
  lemma {:induction false} AloneRewritten(s: Shard, k: Key, v: Value, d: int)
    requires CountsOk(s) && Alone(s.data, s.bytes)
    requires |v| <= HeldBytes(s.data, k)
    ensures var u := Store(s, k, v, d); Alone(u.data, u.bytes)
  {
    var u := Store(s, k, v, d);
    var j :| j in s.data && |s.data[j].value| == s.bytes;
    if j == k {
      assert |u.data[k].value| == u.bytes;
    } else {
      if k in s.data {
        SumBytesRemove(s.data, j);
        ValueWithin(s.data - {j}, k);
      }
      assert |u.data[j].value| == u.bytes;
    }
  }

  lemma {:induction false} StoreCounts(s: Shard, k: Key, v: Value, d: int)
    requires CountsOk(s)
    ensures CountsOk(Store(s, k, v, d))
  {
    SumBytesStore(s.data, k, Entry(v, d));
  }

  /** Every write leaves the shard within its caps, also when making room evicts the key being
      rewritten. */
  lemma {:induction false} PutCaps(s: Shard, caps: Caps, k: Key, v: Value, ttl: int, now: int)
    requires Inv(s, now) && CapsOk(s, caps)
    ensures CapsOk(Put(s, caps, k, v, ttl, now), caps)
  {
    var r := Room(s, caps, k, v, now);
    RoomInOrder(s, caps, k, v, now);
    WriteInv(r, k, v, ttl, now);
    var t := Put(s, caps, k, v, ttl, now);
    if caps.bytes > 0 {
      RoomForBytes(s, r, caps, k, v, t.data[k].deadline, now);
    }
    if caps.entries > 0 {
      RoomForEntry(s, r, caps, k, v, now);
    }
    CapsAfter(r, t, caps, k, v, ttl, now);
  }

  lemma {:induction false} CapsAfter(r: Shard, t: Shard, caps: Caps, k: Key, v: Value, ttl: int, now: int)
    requires CountsOk(r) && CountsOk(t) && Wrote(r, t, k, v, ttl, now)
    requires caps.entries > 0 ==> |r.data| - (if k in r.data then 1 else 0) < caps.entries
    requires caps.bytes > 0 ==>
      var u := Store(r, k, v, t.data[k].deadline); u.bytes <= caps.bytes || Alone(u.data, u.bytes)
    ensures CapsOk(t, caps)
  {
    var u := Store(r, k, v, t.data[k].deadline);
    StoreCounts(r, k, v, t.data[k].deadline);
    StoreSize(r.data, k, u.data[k]);
    CapsShrink(u, t, caps);
  }

  lemma {:induction false} StoreSize(m: map<Key, Entry>, k: Key, e: Entry)
    ensures |m[k := e]| == |m| + (if k in m then 0 else 1)
  {
    if k in m {
      assert m[k := e].Keys == m.Keys;
    } else {
      assert m[k := e].Keys == m.Keys + {k};
    }
  }
}
