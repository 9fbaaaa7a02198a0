/** The shard invariant, and what every operation keeps: the queues stay a sound and complete
    index of the entries, the counts stay exact, eviction takes the earliest deadline, and the
    caps hold. */
module CacheInvariant {
  import opened Bytes
  import opened CacheSpec

  // ---- the invariant --------------------------------------------------------------------

  ghost predicate CountsOk(s: Shard) {
    s.items == TotalItems(s) && s.bytes == SumBytes(s.data)
  }

  /** A TTL queue is sorted by deadline, and every deadline is a past write time plus the TTL. */
  predicate TtlQueueOk(q: TtlQueue, now: int) {
    && q.ttl > 0
    && (forall j :: 0 <= j < |q.items| ==> 0 < q.items[j].deadline <= now + q.ttl)
    && (forall j, k :: 0 <= j < k < |q.items| ==> q.items[j].deadline <= q.items[k].deadline)
  }

  predicate TtlQueuesOk(s: Shard, now: int) {
    && (forall i :: 0 <= i < |s.ttlQueues| ==> TtlQueueOk(s.ttlQueues[i], now))
    && (forall i, j :: 0 <= i < j < |s.ttlQueues| ==> s.ttlQueues[i].ttl != s.ttlQueues[j].ttl)
  }

  /** The forever queue is in write order: its write numbers increase, none beyond `writes`. */
  predicate ForeverOk(s: Shard) {
    && (forall j :: 0 <= j < |s.forever| ==> 0 - s.writes <= s.forever[j].deadline < 0)
    && (forall j, k :: 0 <= j < k < |s.forever| ==> s.forever[k].deadline < s.forever[j].deadline)
  }

  /** Some queue of the right kind holds a current item for `k`. */
  predicate Indexed(s: Shard, k: Key)
    requires k in s.data
  {
    var it := Item(k, s.data[k].deadline);
    if it.deadline > 0 then exists i :: 0 <= i < |s.ttlQueues| && it in s.ttlQueues[i].items
    else it.deadline < 0 && it in s.forever
  }

  predicate AllIndexed(s: Shard) {
    forall k :: k in s.data ==> Indexed(s, k)
  }

  ghost predicate Inv(s: Shard, now: int) {
    && now >= 0
    && CountsOk(s)
    && TtlQueuesOk(s, now)
    && ForeverOk(s)
    && AllIndexed(s)
  }

  lemma {:induction false} InvCounts(s: Shard, now: int)
    requires Inv(s, now)
    ensures CountsOk(s)
  {
  }

  lemma {:induction false} InvIndexed(s: Shard, k: Key, now: int)
    requires Inv(s, now) && k in s.data
    ensures Indexed(s, k)
  {
  }

  lemma {:induction false} EmptyInv()
    ensures Inv(EMPTY, 0)
  {
  }

  /** The invariant outlives the passing of time. */
  lemma {:induction false} InvLater(s: Shard, now: int, later: int)
    requires Inv(s, now) && now <= later
    ensures Inv(s, later)
  {
    forall i | 0 <= i < |s.ttlQueues| ensures TtlQueueOk(s.ttlQueues[i], later) {
      assert TtlQueueOk(s.ttlQueues[i], now);
    }
  }

  // ---- single pops ----------------------------------------------------------------------

  /** `t` keeps every entry of `s` except ones expired at `now`. */
  predicate OnlyExpiredGone(s: Shard, t: Shard, now: int) {
    && (forall k :: k in t.data ==> k in s.data && t.data[k] == s.data[k])
    && (forall k :: k in s.data && k !in t.data ==> Expired(s.data[k], now))
  }

  lemma {:induction false} TailOk(q: TtlQueue, now: int)
    requires TtlQueueOk(q, now) && q.items != []
    ensures TtlQueueOk(q.(items := q.items[1..]), now)
  {
  }

  lemma {:induction false} TailQueuesOk(s: Shard, i: nat, now: int)
    requires IsQueue(s, i) && QueueAt(s, i) != []
    requires TtlQueuesOk(s, now) && ForeverOk(s)
    ensures TtlQueuesOk(SetQueue(s, i, QueueAt(s, i)[1..]), now)
    ensures ForeverOk(SetQueue(s, i, QueueAt(s, i)[1..]))
  {
    if i < |s.ttlQueues| {
      TailOk(s.ttlQueues[i], now);
    }
    hide TtlQueueOk;
  }

  /** Losing the head of queue `i` costs no entry its index, apart from the head's own. */
  lemma {:induction false} TailIndexed(s: Shard, i: nat, k: Key)
    requires IsQueue(s, i) && QueueAt(s, i) != [] && k in s.data && Indexed(s, k)
    requires QueueAt(s, i)[0] != Item(k, s.data[k].deadline)
    ensures Indexed(SetQueue(s, i, QueueAt(s, i)[1..]), k)
  {
    var t := SetQueue(s, i, QueueAt(s, i)[1..]);
    var it := Item(k, s.data[k].deadline);
    var q := QueueAt(s, i);
    assert q == [q[0]] + q[1..];
    if it.deadline > 0 {
      var j :| 0 <= j < |s.ttlQueues| && it in s.ttlQueues[j].items;
      assert it in t.ttlQueues[j].items;
    }
  }

  lemma {:induction false} PopInv(s: Shard, i: nat, now: int)
    requires Inv(s, now) && IsQueue(s, i) && QueueAt(s, i) != []
    ensures Inv(Pop(s, i), now)
  {
    PopParts(s, i);
    PopCounts(s, i);
    PopIndexed(s, i);
    hide Pop, CountsOk, AllIndexed;
    TailQueuesOk(s, i, now);
    QueuesAlike(SetQueue(s, i, QueueAt(s, i)[1..]), Pop(s, i), now);
  }

  /** A pop changes the queues only by its head, and the entries by at most the head's own. */
  lemma {:induction false} PopParts(s: Shard, i: nat)
    requires IsQueue(s, i) && QueueAt(s, i) != []
    ensures var t, u := SetQueue(s, i, QueueAt(s, i)[1..]), Pop(s, i);
      && u.ttlQueues == t.ttlQueues && u.forever == t.forever && u.writes == s.writes
      && |u.ttlQueues| == |s.ttlQueues| && QueueAt(u, i) == QueueAt(s, i)[1..]
      && u.data == if Current(s.data, QueueAt(s, i)[0]) then s.data - {QueueAt(s, i)[0].key} else s.data
  {
  }

  lemma {:induction false} PopCounts(s: Shard, i: nat)
    requires CountsOk(s) && IsQueue(s, i) && QueueAt(s, i) != []
    ensures CountsOk(Pop(s, i))
  {
    hide SumLen, SumBytes;
    var q := QueueAt(s, i);
    SetQueueTotal(s, i, q[1..]);
    if Current(s.data, q[0]) {
      SumBytesRemove(s.data, q[0].key);
    }
  }

  lemma {:induction false} PopIndexed(s: Shard, i: nat)
    requires AllIndexed(s) && IsQueue(s, i) && QueueAt(s, i) != []
    ensures AllIndexed(Pop(s, i))
  {
    PopParts(s, i);
    hide Pop, Indexed, SetQueue;
    var t, u := SetQueue(s, i, QueueAt(s, i)[1..]), Pop(s, i);
    forall k | k in u.data ensures Indexed(u, k) {
      TailIndexed(s, i, k);
      TailData(s, i);
      IndexedKept(t, u, k);
    }
  }

  lemma {:induction false} TailData(s: Shard, i: nat)
    requires IsQueue(s, i) && QueueAt(s, i) != []
    ensures SetQueue(s, i, QueueAt(s, i)[1..]).data == s.data
  {
  }

  lemma {:induction false} QueuesAlike(t: Shard, u: Shard, now: int)
    requires u.ttlQueues == t.ttlQueues && u.forever == t.forever && u.writes == t.writes
    requires TtlQueuesOk(t, now) && ForeverOk(t)
    ensures TtlQueuesOk(u, now) && ForeverOk(u)
  {
  }

  lemma {:induction false} IndexedKept(t: Shard, u: Shard, k: Key)
    requires k in t.data && Indexed(t, k) && k in u.data && u.data[k].deadline == t.data[k].deadline
    requires u.ttlQueues == t.ttlQueues && u.forever == t.forever
    ensures Indexed(u, k)
  {
  }

  // ---- expiry ---------------------------------------------------------------------------

  lemma {:induction false} InvQueue(s: Shard, i: nat, now: int)
    requires Inv(s, now) && i < |s.ttlQueues|
    ensures TtlQueueOk(s.ttlQueues[i], now)
  {
  }

  lemma {:induction false} PopExpired(s: Shard, i: nat, now: int)
    requires Inv(s, now) && i < |s.ttlQueues| && QueueAt(s, i) != [] && QueueAt(s, i)[0].deadline <= now
    ensures Inv(Pop(s, i), now) && OnlyExpiredGone(s, Pop(s, i), now)
  {
    PopParts(s, i);
    InvQueue(s, i, now);
    HeadPositive(s.ttlQueues[i], now);
    PopInv(s, i, now);
    hide Inv, Pop, TtlQueueOk, SetQueue, OnlyExpiredGone;
    OneGone(s, Pop(s, i), QueueAt(s, i)[0], now);
  }

  lemma {:induction false} OneGone(s: Shard, t: Shard, it: Item, now: int)
    requires 0 < it.deadline <= now
    requires t.data == if Current(s.data, it) then s.data - {it.key} else s.data
    ensures OnlyExpiredGone(s, t, now)
  {
  }

  lemma {:induction false} HeadPositive(q: TtlQueue, now: int)
    requires TtlQueueOk(q, now) && q.items != []
    ensures q.items[0].deadline > 0
  {
  }

  lemma {:induction false} GoneTransitive(s: Shard, t: Shard, u: Shard, now: int)
    requires OnlyExpiredGone(s, t, now) && OnlyExpiredGone(t, u, now)
    ensures OnlyExpiredGone(s, u, now)
  {
  }

  lemma {:induction false} GoneLater(s: Shard, t: Shard, now: int, later: int)
    requires OnlyExpiredGone(s, t, now) && now <= later
    ensures OnlyExpiredGone(s, t, later)
  {
  }

  lemma {:induction false} NothingGone(s: Shard, now: int)
    ensures OnlyExpiredGone(s, s, now)
  {
  }

  lemma {:induction false} SortedAbove(q: TtlQueue, now: int, clock: int)
    requires TtlQueueOk(q, clock) && (q.items == [] || q.items[0].deadline > now)
    ensures forall j :: 0 <= j < |q.items| ==> q.items[j].deadline > now
  {
  }

  lemma {:induction false} ExpireQueueInv(s: Shard, i: nat, now: int, budget: nat)
    requires Inv(s, now) && i < |s.ttlQueues|
    ensures var (t, left) := ExpireQueue(s, i, now, budget);
      && Inv(t, now) && OnlyExpiredGone(s, t, now)
      && |t.ttlQueues| == |s.ttlQueues|
      && budget - left == |QueueAt(s, i)| - |QueueAt(t, i)|
      && (left > 0 ==> forall j :: 0 <= j < |QueueAt(t, i)| ==> QueueAt(t, i)[j].deadline > now)
    decreases budget
  {
    hide Inv, Pop, OnlyExpiredGone;
    if budget > 0 && QueueAt(s, i) != [] && QueueAt(s, i)[0].deadline <= now {
      PopParts(s, i);
      PopExpired(s, i, now);
      ExpireQueueInv(Pop(s, i), i, now, budget - 1);
      GoneTransitive(s, Pop(s, i), ExpireQueue(s, i, now, budget).0, now);
    } else {
      InvQueue(s, i, now);
      if budget > 0 {
        SortedAbove(s.ttlQueues[i], now, now);
      }
      NothingGone(s, now);
    }
  }

  predicate QueuesPast(s: Shard, i: nat, now: int)
    requires i <= |s.ttlQueues|
  {
    forall h, j :: 0 <= h < i && 0 <= j < |s.ttlQueues[h].items| ==> s.ttlQueues[h].items[j].deadline > now
  }

  /** An expiry pass removes only expired entries; when the budget is not used up, nothing
      expired is left queued. */
  lemma {:induction false} ExpireFromInv(s: Shard, i: nat, now: int, budget: nat)
    requires Inv(s, now) && i <= |s.ttlQueues| && QueuesPast(s, i, now)
    ensures var (t, more) := ExpireFrom(s, i, now, budget);
      && Inv(t, now) && OnlyExpiredGone(s, t, now)
      && t.writes == s.writes && t.forever == s.forever
      && (!more ==> QueuesPast(t, |t.ttlQueues|, now))
      && (more ==> TotalItems(s) - TotalItems(t) == budget)
    decreases |s.ttlQueues| - i
  {
    if i < |s.ttlQueues| {
      ExpireQueueInv(s, i, now, budget);
      ExpireQueueShape(s, i, now, budget);
      var (t, left) := ExpireQueue(s, i, now, budget);
      assert QueueAt(t, |s.ttlQueues|) == QueueAt(s, |s.ttlQueues|);
      ExpireQueueTotal(s, t, i);
      if left > 0 {
        forall h, j | 0 <= h < i + 1 && 0 <= j < |t.ttlQueues[h].items|
          ensures t.ttlQueues[h].items[j].deadline > now
        {
          assert QueueAt(t, h) == t.ttlQueues[h].items;
          if h < i {
            assert QueueAt(t, h) == QueueAt(s, h);
          }
        }
        ExpireFromInv(t, i + 1, now, left);
        GoneTransitive(s, t, ExpireFrom(t, i + 1, now, left).0, now);
      }
    }
  }

  lemma {:induction false} ExpireQueueTotal(s: Shard, t: Shard, i: nat)
    requires i < |s.ttlQueues| && SameButQueue(s, t, i)
    ensures TotalItems(t) == TotalItems(s) - |QueueAt(s, i)| + |QueueAt(t, i)|
  {
    SetQueueTotal(s, i, QueueAt(t, i));
    var qs := SetQueue(s, i, QueueAt(t, i)).ttlQueues;
    forall j | 0 <= j < |qs| ensures qs[j] == t.ttlQueues[j] {
      assert QueueAt(t, j) == t.ttlQueues[j].items;
      if j != i {
        assert QueueAt(t, j) == QueueAt(s, j);
      }
    }
    assert qs == t.ttlQueues;
    assert QueueAt(t, |s.ttlQueues|) == QueueAt(s, |s.ttlQueues|);
  }

  /** When an expiry pass ends with budget left, no expired entry remains in the shard. */
  lemma {:induction false} ExpireComplete(s: Shard, now: int, budget: nat)
    requires Inv(s, now)
    ensures var (t, more) := Expire(s, now, budget);
      && Inv(t, now) && OnlyExpiredGone(s, t, now)
      && (!more ==> forall k :: k in t.data ==> Live(t.data[k], now))
      && (more ==> TotalItems(t) + budget == TotalItems(s))
  {
    ExpireFromInv(s, 0, now, budget);
    var (t, more) := Expire(s, now, budget);
    if !more {
      forall k | k in t.data ensures Live(t.data[k], now) {
        assert Indexed(t, k);
      }
    }
  }

  lemma {:induction false} ExpireAllComplete(s: Shard, now: int)
    requires Inv(s, now)
    ensures var t := ExpireAll(s, now);
      && Inv(t, now) && OnlyExpiredGone(s, t, now)
      && (forall k :: k in t.data <==> k in s.data && Live(s.data[k], now))
  {
    ExpireComplete(s, now, TotalItems(s) + 1);
    ExpireFromInv(s, 0, now, TotalItems(s) + 1);
  }

  lemma {:induction false} DropEmptyKeeps(qs: seq<TtlQueue>)
    ensures SumLen(DropEmpty(qs)) == SumLen(qs)
    ensures forall q :: q in DropEmpty(qs) <==> q in qs && q.items != []
    ensures |DropEmpty(qs)| <= |qs|
  {
    if qs != [] {
      DropEmptyKeeps(qs[1..]);
      assert qs == [qs[0]] + qs[1..];
      assert DropEmpty(qs)[if qs[0].items != [] then 1 else 0..] == DropEmpty(qs[1..]);
    }
  }

  lemma {:induction false} DropEmptyDistinct(qs: seq<TtlQueue>)
    requires forall i, j :: 0 <= i < j < |qs| ==> qs[i].ttl != qs[j].ttl
    ensures forall i, j :: 0 <= i < j < |DropEmpty(qs)| ==> DropEmpty(qs)[i].ttl != DropEmpty(qs)[j].ttl
  {
    if qs != [] {
      DropEmptyDistinct(qs[1..]);
      DropEmptyKeeps(qs[1..]);
      forall j | 0 <= j < |DropEmpty(qs[1..])| ensures DropEmpty(qs[1..])[j].ttl != qs[0].ttl {
        assert DropEmpty(qs[1..])[j] in qs[1..];
      }
    }
  }

  /** A hold of the background expirer removes only expired entries. One that asks for another
      hold has taken a whole batch off the queues, so holds come to an end; the one that reports
      nothing more to do leaves no expired entry and no empty queue. */
  lemma {:induction false} ExpirerHoldInv(s: Shard, now: int)
    requires Inv(s, now)
    ensures var (t, more) := ExpirerHold(s, now);
      && Inv(t, now) && OnlyExpiredGone(s, t, now)
      && (more ==> TotalItems(t) + EXPIRE_BATCH == TotalItems(s))
      && (!more ==> (forall k :: k in t.data ==> Live(t.data[k], now))
                    && (forall q :: q in t.ttlQueues ==> q.items != []))
  {
    hide Inv, Expire, DropEmpty;
    ExpireComplete(s, now, EXPIRE_BATCH);
    var (t, more) := Expire(s, now, EXPIRE_BATCH);
    if !more {
      DropEmptyInv(t, now);
      DropEmptyKeeps(t.ttlQueues);
    }
  }

  lemma {:induction false} DropEmptyInv(t: Shard, now: int)
    requires Inv(t, now)
    ensures Inv(t.(ttlQueues := DropEmpty(t.ttlQueues)), now)
  {
    DropEmptyQueuesOk(t, now);
    DropEmptyIndexed(t);
    DropEmptyKeeps(t.ttlQueues);
    hide DropEmpty, SumBytes, TtlQueuesOk, AllIndexed;
  }

  lemma {:induction false} DropEmptyQueuesOk(t: Shard, now: int)
    requires TtlQueuesOk(t, now)
    ensures TtlQueuesOk(t.(ttlQueues := DropEmpty(t.ttlQueues)), now)
  {
    DropEmptyKeeps(t.ttlQueues);
    DropEmptyDistinct(t.ttlQueues);
    hide DropEmpty, TtlQueueOk;
    var qs := DropEmpty(t.ttlQueues);
    forall i | 0 <= i < |qs| ensures TtlQueueOk(qs[i], now) {
      assert qs[i] in t.ttlQueues;
    }
  }

  lemma {:induction false} DropEmptyIndexed(t: Shard)
    requires AllIndexed(t)
    ensures AllIndexed(t.(ttlQueues := DropEmpty(t.ttlQueues)))
  {
    DropEmptyKeeps(t.ttlQueues);
    hide DropEmpty;
    var u := t.(ttlQueues := DropEmpty(t.ttlQueues));
    forall k | k in u.data ensures Indexed(u, k) {
      assert Indexed(t, k);
      if t.data[k].deadline > 0 {
        var it := Item(k, t.data[k].deadline);
        var i :| 0 <= i < |t.ttlQueues| && it in t.ttlQueues[i].items;
        assert t.ttlQueues[i] in u.ttlQueues;
      }
    }
  }

  // ---- eviction -------------------------------------------------------------------------

  lemma {:induction false} DropStaleInv(s: Shard, i: nat, now: int)
    requires Inv(s, now) && IsQueue(s, i)
    ensures Inv(DropStale(s, i), now)
    decreases |QueueAt(s, i)|
  {
    hide Inv;
    var q := QueueAt(s, i);
    if q != [] && !Current(s.data, q[0]) {
      PopInv(s, i, now);
      DropStaleInv(Pop(s, i), i, now);
    }
  }

  lemma {:induction false} ScanInv(s: Shard, i: nat, first: Option<nat>, now: int)
    requires Inv(s, now) && IsQueue(s, i) && ScanOk(s, i, first)
    ensures Inv(Scan(s, i, first).0, now)
    decreases |s.ttlQueues| - i
  {
    hide Inv, DropStale, Earlier;
    if i < |s.ttlQueues| {
      var t := DropStale(s, i);
      DropStaleInv(s, i, now);
      DropStaleShape(s, i);
      var next := ScanStep(s, i, first);
      ScanInv(t, i + 1, next, now);
    }
  }

  /** `a` leaves the shard no later than `b`: earlier deadlines first, then the entries that
      never expire in write order. */
  predicate Before(a: Entry, b: Entry) {
    if a.deadline > 0 then b.deadline > 0 ==> a.deadline <= b.deadline
    else b.deadline < 0 && b.deadline <= a.deadline
  }

  /** `k` may be evicted next: it leaves no later than any other entry. */
  predicate NextVictim(data: map<Key, Entry>, k: Key) {
    k in data && forall j :: j in data ==> Before(data[k], data[j])
  }

  lemma {:induction false} TtlVictim(t: Shard, f: nat, now: int)
    requires Inv(t, now) && f < |t.ttlQueues| && ScanOk(t, |t.ttlQueues|, Some(f))
    ensures NextVictim(t.data, QueueAt(t, f)[0].key)
  {
    var head := QueueAt(t, f)[0];
    assert TtlQueueOk(t.ttlQueues[f], now);
    forall j | j in t.data && t.data[j].deadline > 0 ensures head.deadline <= t.data[j].deadline {
      assert Indexed(t, j);
      var it := Item(j, t.data[j].deadline);
      var h :| 0 <= h < |t.ttlQueues| && it in t.ttlQueues[h].items;
      assert TtlQueueOk(t.ttlQueues[h], now);
      assert QueueAt(t, h) == t.ttlQueues[h].items;
    }
  }

  lemma {:induction false} ForeverVictim(t: Shard, now: int)
    requires Inv(t, now) && ScanOk(t, |t.ttlQueues|, None)
    requires t.forever != [] && Current(t.data, t.forever[0])
    ensures NextVictim(t.data, t.forever[0].key)
  {
    forall j | j in t.data ensures t.data[j].deadline < 0 && t.data[j].deadline <= t.forever[0].deadline {
      NoTtlEntry(t, j);
    }
  }

  lemma {:induction false} NoTtlEntry(t: Shard, k: Key)
    requires AllIndexed(t) && ScanOk(t, |t.ttlQueues|, None) && k in t.data
    ensures Item(k, t.data[k].deadline) in t.forever && t.data[k].deadline < 0
  {
    assert Indexed(t, k);
    if t.data[k].deadline > 0 {
      var it := Item(k, t.data[k].deadline);
      var h :| 0 <= h < |t.ttlQueues| && it in t.ttlQueues[h].items && QueueAt(t, h) != [];
      assert false;
    }
  }

  /** Each successful eviction removes exactly one entry, the next victim; eviction fails only
      on an empty shard. */
  lemma {:induction false} EvictOrder(s: Shard, now: int)
    requires Inv(s, now)
    ensures var (t, ok) := Evict(s);
      && Inv(t, now)
      && (ok <==> s.data != map[])
      && (!ok ==> t.data == s.data)
      && (ok ==> exists k :: NextVictim(s.data, k) && t.data == s.data - {k})
  {
    ScanShape(s, 0, None);
    ScanInv(s, 0, None, now);
    var (a, first) := Scan(s, 0, None);
    if first.Some? {
      TtlVictim(a, first.value, now);
      PopInv(a, first.value, now);
    } else {
      var b := DropStale(a, |a.ttlQueues|);
      DropStaleInv(a, |a.ttlQueues|, now);
      DropStaleShape(a, |a.ttlQueues|);
      ForeverScanned(a, b);
      if b.forever != [] {
        ForeverVictim(b, now);
        PopInv(b, |b.ttlQueues|, now);
      } else if b.data != map[] {
        var k :| k in b.data;
        NoTtlEntry(b, k);
        assert false;
      }
    }
  }

  lemma {:induction false} ForeverScanned(a: Shard, b: Shard)
    requires ScanOk(a, |a.ttlQueues|, None) && SameButQueue(a, b, |a.ttlQueues|)
    ensures ScanOk(b, |b.ttlQueues|, None)
  {
    forall j | 0 <= j < |b.ttlQueues| ensures QueueAt(b, j) == [] {
      assert QueueAt(b, j) == QueueAt(a, j);
    }
  }
}
