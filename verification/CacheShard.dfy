/** The mutable shard: every method is proved to do to the concrete queues and counts what its
    CacheSpec function does to the shard value. */
module CacheShard {
  import opened Bytes
  import opened CacheQueue
  import S = CacheSpec
  import I = CacheInvariant
  import P = CachePut

  ghost predicate Holds(q: Queue, items: seq<S.Item>)
    reads q, q.items
  {
    q.Valid() && q.Contents() == items
  }

  lemma {:induction false} SumLenNext(qs: seq<S.TtlQueue>, i: nat)
    requires i < |qs|
    ensures S.SumLen(qs[..i + 1]) == S.SumLen(qs[..i]) + |qs[i].items|
  {
    S.SumLenAppend(qs[..i], qs[i]);
    assert qs[..i + 1] == qs[..i] + [qs[i]];
  }

  lemma {:induction false} StoreKeepsQueues(s: S.Shard, k: S.Key, v: S.Value, d: int)
    ensures S.Store(s, k, v, d).ttlQueues == s.ttlQueues
  {
  }

  /** `pick` lists the positions of the queues DropEmpty keeps. */
  predicate PickedNonEmpty(qs: seq<S.TtlQueue>, pick: seq<nat>) {
    && |S.DropEmpty(qs)| == |pick|
    && (forall a :: 0 <= a < |pick| ==> pick[a] < |qs| && S.DropEmpty(qs)[a] == qs[pick[a]])
  }

  lemma {:induction false} DropEmptyAppend(qs: seq<S.TtlQueue>, q: S.TtlQueue)
    ensures S.DropEmpty(qs + [q]) == S.DropEmpty(qs) + (if q.items != [] then [q] else [])
  {
    if qs == [] {
      assert qs + [q] == [q];
      assert S.DropEmpty([q][1..]) == [];
    } else {
      DropEmptyAppend(qs[1..], q);
      assert (qs + [q])[1..] == qs[1..] + [q];
    }
  }

  lemma {:induction false} PickNone(qs: seq<S.TtlQueue>)
    requires qs == []
    ensures PickedNonEmpty(qs, [])
  {
  }

  lemma {:induction false} PickNext(qs: seq<S.TtlQueue>, i: nat, pick: seq<nat>)
    requires i < |qs| && PickedNonEmpty(qs[..i], pick)
    ensures PickedNonEmpty(qs[..i + 1], if qs[i].items != [] then pick + [i] else pick)
  {
    DropEmptyAppend(qs[..i], qs[i]);
    assert qs[..i + 1] == qs[..i] + [qs[i]];
  }

  class Shard {
    var data: map<S.Key, S.Entry>
    var ttlQueues: seq<Queue>
    var forever: Queue
    var writes: nat
    var items: int
    var bytes: int
    ghost var state: S.Shard
    ghost var queues: seq<Queue>  // the TTL queues, then the forever queue
    ghost var held: seq<seq<S.Item>>
    ghost var Repr: set<object>   // the queues and their arrays

    /** Queues and arrays are all distinct, and queue `i` holds the items `held[i]`. */
    ghost predicate Rep()
      reads `queues, `held, `Repr, Repr
    {
      && (forall i :: 0 <= i < |queues| ==> queues[i] in Repr && queues[i].items in Repr)
      && (forall i, j :: 0 <= i < j < |queues| ==> queues[i] != queues[j] && queues[i].items != queues[j].items)
      && |held| == |queues|
      && (forall i :: 0 <= i < |queues| ==> Holds(queues[i], held[i]))
    }

    /** The concrete fields and the items held agree with `state`. */
    ghost predicate Matches()
      reads this
    {
      && queues == ttlQueues + [forever]
      && |held| == |queues| == |state.ttlQueues| + 1
      && (forall i :: 0 <= i < |queues| ==> held[i] == S.QueueAt(state, i))
      && (forall i :: 0 <= i < |state.ttlQueues| ==> queues[i].ttl == state.ttlQueues[i].ttl)
      && state.data == data && state.writes == writes && state.items == items && state.bytes == bytes
    }

    ghost predicate Valid()
      reads this, Repr
    {
      this !in Repr && Rep() && Matches()
    }

    lemma {:induction false} HoldsAt(i: nat)
      requires Rep() && i < |queues|
      ensures |held| == |queues| && Holds(queues[i], held[i])
    {
    }

    constructor ()
      ensures Valid() && fresh(Repr) && state == S.EMPTY
    {
      hide Queue.Valid, Queue.Contents;
      data := map[];
      ttlQueues := [];
      var f := new Queue(0);
      forever := f;
      queues := [f];
      held := [[]];
      writes, items, bytes := 0, 0, 0;
      state := S.EMPTY;
      new;
      Repr := {forever, forever.items};
      assert Holds(queues[0], held[0]);
      assert Rep();
      hide Rep;
      assert Matches();
    }

    method PopQueue(q: Queue, ghost i: nat) returns (it: S.Item)
      requires this !in Repr && Rep() && i < |queues| && q == queues[i] && held[i] != []
      modifies `held, `Repr, Repr
      ensures this !in Repr && Rep() && fresh(Repr - old(Repr))
      ensures it == old(held)[i][0] && held == old(held)[i := old(held)[i][1..]]
    {
      hide Queue.Valid, Queue.Contents;
      assert Holds(q, held[i]);
      it := q.Pop();
      assert forall j :: 0 <= j < |queues| && j != i ==> Holds(queues[j], held[j]);
      Repr := Repr + {q.items};
      held := held[i := held[i][1..]];
    }

    /** Pops the head of queue `i` and counts it, leaving the entries alone. */
    method Take(q: Queue, ghost i: nat) returns (it: S.Item)
      requires Valid() && i < |queues| && q == queues[i] && S.QueueAt(state, i) != []
      modifies this, Repr
      ensures Valid() && fresh(Repr - old(Repr)) && queues == old(queues) && ttlQueues == old(ttlQueues)
      ensures it == S.QueueAt(old(state), i)[0]
      ensures state == S.SetQueue(old(state), i, S.QueueAt(old(state), i)[1..]).(items := old(state).items - 1)
    {
      hide Rep;
      it := PopQueue(q, i);
      state := S.SetQueue(state, i, S.QueueAt(state, i)[1..]).(items := state.items - 1);
      items := items - 1;
    }

    /** Deletes `k`; its queue item goes stale. */
    method Forget(k: S.Key)
      requires Valid()
      modifies this
      ensures Valid() && Repr == old(Repr) && queues == old(queues) && ttlQueues == old(ttlQueues)
      ensures state == S.Remove(old(state), k)
    {
      hide Rep;
      if k in data {
        bytes := bytes - |data[k].value|;
        data := data - {k};
        state := S.Remove(state, k);
      }
    }

    method Pop(q: Queue, ghost i: nat)
      requires Valid() && i < |queues| && q == queues[i] && S.QueueAt(state, i) != []
      modifies this, Repr
      ensures Valid() && fresh(Repr - old(Repr)) && queues == old(queues) && ttlQueues == old(ttlQueues)
      ensures state == S.Pop(old(state), i)
    {
      hide Rep;
      var it := Take(q, i);
      if S.Current(data, it) {
        Forget(it.key);
      }
    }

    method ExpireQueue(q: Queue, ghost i: nat, now: int, budget: nat) returns (left: nat)
      requires Valid() && i < |queues| && q == queues[i]
      modifies this, Repr
      ensures Valid() && fresh(Repr - old(Repr)) && queues == old(queues) && ttlQueues == old(ttlQueues)
      ensures (state, left) == S.ExpireQueue(old(state), i, now, budget)
    {
      left := budget;
      while left > 0 && q.Len() > 0 && q.Peek().deadline <= now
        invariant Valid() && fresh(Repr - old(Repr)) && queues == old(queues) && ttlQueues == old(ttlQueues)
        invariant S.ExpireQueue(state, i, now, left) == S.ExpireQueue(old(state), i, now, budget)
        decreases left
      {
        Pop(q, i);
        left := left - 1;
      }
    }

    method Expire(now: int, budget: nat) returns (more: bool)
      requires Valid()
      modifies this, Repr
      ensures Valid() && fresh(Repr - old(Repr)) && queues == old(queues) && ttlQueues == old(ttlQueues)
      ensures (state, more) == S.Expire(old(state), now, budget)
    {
      hide Rep, S.ExpireFrom, S.ExpireQueue;
      var left := budget;
      ghost var goal := S.Expire(state, now, budget);
      assert goal == S.ExpireFrom(state, 0, now, budget);
      for i := 0 to |ttlQueues|
        invariant Valid() && fresh(Repr - old(Repr)) && queues == old(queues) && ttlQueues == old(ttlQueues)
        invariant S.ExpireFrom(state, i, now, left) == goal
      {
        S.ExpireFromNext(state, i, now, left);
        left := ExpireQueue(ttlQueues[i], i, now, left);
        if left == 0 {
          return true;
        }
      }
      more := false;
      S.ExpireFromEnd(state, |ttlQueues|, now, left);
    }

    method DropStale(q: Queue, ghost i: nat)
      requires Valid() && i < |queues| && q == queues[i]
      modifies this, Repr
      ensures Valid() && fresh(Repr - old(Repr)) && queues == old(queues) && ttlQueues == old(ttlQueues)
      ensures state == S.DropStale(old(state), i)
    {
      while q.Len() > 0 && !S.Current(data, q.Peek())
        invariant Valid() && fresh(Repr - old(Repr)) && queues == old(queues) && ttlQueues == old(ttlQueues)
        invariant S.DropStale(state, i) == S.DropStale(old(state), i)
        decreases |S.QueueAt(state, i)|
      {
        var _ := Take(q, i);
      }
    }

    method Sooner(q: Queue, ghost i: nat, first: Queue?, ghost f: Option<nat>) returns (sooner: bool)
      requires Valid() && i < |ttlQueues| && q == queues[i] && (f.None? <==> first == null)
      requires f.Some? ==> f.value < i && first == queues[f.value] && S.QueueAt(state, f.value) != []
      ensures S.Earlier(state, i, f) == if sooner then Some(i) else f
      ensures sooner ==> S.QueueAt(state, i) != []
    {
      assert Holds(queues[i], held[i]);
      if first != null {
        assert Holds(queues[f.value], held[f.value]);
      }
      sooner := q.Len() > 0 && (first == null || q.Peek().deadline < first.Peek().deadline);
    }

    /** The TTL queue with the earliest current head, its index in `f`; null when all are empty. */
    method EarliestTtl() returns (first: Queue?, ghost f: Option<nat>)
      requires Valid()
      modifies this, Repr
      ensures Valid() && fresh(Repr - old(Repr)) && queues == old(queues) && ttlQueues == old(ttlQueues)
      ensures (state, f) == S.Scan(old(state), 0, None) && (f.None? <==> first == null)
      ensures f.Some? ==> f.value < |ttlQueues| && first == queues[f.value] && S.QueueAt(state, f.value) != []
    {
      hide Rep, S.Scan, S.DropStale, S.Earlier;
      first, f := null, None;
      for i := 0 to |ttlQueues|
        invariant Valid() && fresh(Repr - old(Repr)) && queues == old(queues) && ttlQueues == old(ttlQueues)
        invariant f.None? <==> first == null
        invariant f.Some? ==> f.value < i && first == queues[f.value] && S.QueueAt(state, f.value) != []
        invariant S.Scan(state, i, f) == S.Scan(old(state), 0, None)
      {
        var q := ttlQueues[i];
        S.ScanNext(state, i, f);
        DropStale(q, i);
        var sooner := Sooner(q, i, first, f);
        f := S.Earlier(state, i, f);
        if sooner {
          first := q;
        }
      }
      S.ScanEnd(state, f);
    }

    method Evict() returns (ok: bool)
      requires Valid()
      modifies this, Repr
      ensures Valid() && fresh(Repr - old(Repr)) && queues == old(queues) && ttlQueues == old(ttlQueues)
      ensures (state, ok) == S.Evict(old(state))
    {
      hide Rep, S.Scan, S.DropStale, S.Pop;
      ghost var f;
      var first: Queue?;
      first, f := EarliestTtl();
      if first == null {
        DropStale(forever, |ttlQueues|);
        HoldsAt(|ttlQueues|);
        if forever.Len() == 0 {
          return false;
        }
        first, f := forever, Some(|ttlQueues|);
      }
      Pop(first, f.value);
      ok := true;
    }

    method MakeRoom(now: int, limit: nat)
      requires Valid() && I.CountsOk(state)
      modifies this, Repr
      ensures Valid() && fresh(Repr - old(Repr)) && queues == old(queues) && ttlQueues == old(ttlQueues)
      ensures state == S.MakeRoom(old(state), now, limit)
    {
      hide Rep;
      var _ := Expire(now, items + 1);
      while |data| >= limit
        invariant Valid() && fresh(Repr - old(Repr)) && queues == old(queues) && ttlQueues == old(ttlQueues)
        invariant S.EvictToCount(state, limit) == S.MakeRoom(old(state), now, limit)
        decreases |data|
      {
        var ok := Evict();
        if !ok {
          return;
        }
      }
    }

    method MakeRoomBytes(now: int, limit: int)
      requires Valid() && I.CountsOk(state)
      modifies this, Repr
      ensures Valid() && fresh(Repr - old(Repr)) && queues == old(queues) && ttlQueues == old(ttlQueues)
      ensures state == S.MakeRoomBytes(old(state), now, limit)
    {
      hide Rep;
      var _ := Expire(now, items + 1);
      while bytes > limit
        invariant Valid() && fresh(Repr - old(Repr)) && queues == old(queues) && ttlQueues == old(ttlQueues)
        invariant S.EvictToBytes(state, limit) == S.MakeRoomBytes(old(state), now, limit)
        decreases |data|
      {
        var ok := Evict();
        if !ok {
          return;
        }
      }
    }

    method KeepQueue(q: Queue, ghost i: nat) returns (kept: nat)
      requires this !in Repr && Rep() && i < |queues| && q == queues[i]
      modifies `held, Repr
      ensures Rep()
      ensures held == old(held)[i := S.KeepCurrent(data, old(held)[i])] && kept == |held[i]|
    {
      hide Queue.Valid, Queue.Contents;
      assert Holds(q, held[i]);
      kept := q.Keep(data);
      assert forall j :: 0 <= j < |queues| && j != i ==> Holds(queues[j], held[j]);
      held := held[i := S.KeepCurrent(data, held[i])];
    }

    /** Filters the TTL queues from `goal`'s first on; `goal` lists what they will hold. */
    method KeepTtlQueues(ghost goal: seq<S.TtlQueue>) returns (total: nat)
      requires this !in Repr && Rep() && |held| == |goal| + 1 == |queues| && |ttlQueues| == |goal|
        && ttlQueues == queues[..|goal|]
      requires forall i :: 0 <= i < |goal| ==> goal[i].items == S.KeepCurrent(data, held[i])
      modifies `held, Repr
      ensures Rep() && |held| == |queues| && total == S.SumLen(goal)
      ensures forall i :: 0 <= i < |queues| ==> held[i] == if i < |goal| then goal[i].items else old(held)[i]
    {
      hide Rep;
      total := 0;
      for i := 0 to |ttlQueues|
        invariant Rep() && |held| == |queues|
        invariant forall j :: 0 <= j < |queues| ==> held[j] == if j < i then goal[j].items else old(held)[j]
        invariant total == S.SumLen(goal[..i])
      {
        SumLenNext(goal, i);
        var kept := KeepQueue(ttlQueues[i], i);
        total := total + kept;
      }
      assert goal[..|ttlQueues|] == goal;
    }

    method KeepQueues() returns (total: nat)
      requires Valid()
      modifies `held, Repr
      ensures Rep() && |held| == |queues| && total == S.Compact(state).items
      ensures forall i :: 0 <= i < |queues| ==> held[i] == S.QueueAt(S.Compact(state), i)
    {
      hide Rep, S.KeepCurrent, S.KeepCurrentQueues, S.SumLen;
      ghost var goal := S.KeepCurrentQueues(data, state.ttlQueues);
      var f := KeepQueue(forever, |ttlQueues|);
      var t := KeepTtlQueues(goal);
      total := f + t;
    }

    /** Drops the stale items from every queue. */
    method Compact()
      requires Valid()
      modifies this, Repr
      ensures Valid() && Repr == old(Repr) && queues == old(queues) && ttlQueues == old(ttlQueues)
      ensures state == S.Compact(old(state))
    {
      hide Rep;
      items := KeepQueues();
      state := S.Compact(state);
    }

    method PushQueue(q: Queue, ghost i: nat, it: S.Item)
      requires this !in Repr && Rep() && i < |queues| && q == queues[i]
      modifies `held, `Repr, Repr
      ensures this !in Repr && Rep() && fresh(Repr - old(Repr))
      ensures held == old(held)[i := old(held)[i] + [it]]
    {
      hide Queue.Valid, Queue.Contents;
      assert Holds(q, held[i]);
      q.Push(it);
      assert forall j :: 0 <= j < |queues| && j != i ==> Holds(queues[j], held[j]);
      Repr := Repr + {q.items};
      held := held[i := held[i] + [it]];
    }

    method Push(q: Queue, ghost i: nat, it: S.Item)
      requires Valid() && i < |queues| && q == queues[i]
      modifies this, Repr
      ensures Valid() && fresh(Repr - old(Repr)) && queues == old(queues) && ttlQueues == old(ttlQueues)
      ensures state == S.Push(old(state), i, it)
    {
      hide Rep;
      PushQueue(q, i, it);
      items := items + 1;
      state := S.Push(state, i, it);
    }

    method FindTtl(ttl: int) returns (i: nat)
      requires Valid()
      ensures i == S.FindTtl(state.ttlQueues, ttl)
    {
      i := 0;
      while i < |ttlQueues|
        invariant i <= |ttlQueues|
        invariant forall j :: 0 <= j < i ==> state.ttlQueues[j].ttl != ttl
      {
        if ttlQueues[i].ttl == ttl {
          assert state.ttlQueues[i].ttl == ttl;
          return;
        }
        i := i + 1;
      }
    }

    /** The queue for `ttl`, opened on first use. */
    method QueueFor(ttl: int) returns (q: Queue, ghost i: nat)
      requires Valid()
      modifies this
      ensures Valid() && fresh(Repr - old(Repr)) && Repr >= old(Repr)
      ensures state == S.QueueFor(old(state), ttl)
      ensures i == S.FindTtl(state.ttlQueues, ttl) < |ttlQueues| && q == queues[i]
    {
      hide Rep, Queue.Valid, Queue.Contents;
      var at := FindTtl(ttl);
      i := at;
      if at < |ttlQueues| {
        q := ttlQueues[at];
      } else {
        q := new Queue(ttl);
        Open(q, ttl);
      }
    }

    /** Makes `q`, new and empty, the last TTL queue. */
    ghost method Insert(q: Queue)
      requires Rep() && |queues| > 0 && Holds(q, [])
      requires q !in Repr && q.items !in Repr && this !in {q, q.items}
      modifies `queues, `held, `Repr
      ensures Rep() && Repr == old(Repr) + {q, q.items}
      ensures var n := |old(queues)| - 1;
        queues == old(queues)[..n] + [q, old(queues)[n]] && held == old(held)[..n] + [[], old(held)[n]]
    {
      hide Queue.Valid, Queue.Contents;
      var n := |queues| - 1;
      assert forall i :: 0 <= i <= n ==> queues[i] != q && queues[i].items != q.items;
      queues := queues[..n] + [q, queues[n]];
      held := held[..n] + [[], held[n]];
      Repr := Repr + {q, q.items};
    }

    method Open(q: Queue, ttl: int)
      requires Valid() && Holds(q, []) && q.ttl == ttl
      requires q !in Repr && q.items !in Repr && this !in {q, q.items}
      requires S.FindTtl(state.ttlQueues, ttl) == |state.ttlQueues|
      modifies this
      ensures Valid() && Repr == old(Repr) + {q, q.items} && state == S.QueueFor(old(state), ttl)
      ensures ttlQueues == old(ttlQueues) + [q]
    {
      hide Rep, Queue.Valid, Queue.Contents;
      Insert(q);
      ttlQueues := ttlQueues + [q];
      state := S.QueueFor(state, ttl);
    }

    /** Picks the queue and the deadline of a write: its TTL queue, or the forever queue and
        the negated number of the write. */
    method Stamp(ttl: int, now: int) returns (q: Queue, ghost i: nat, deadline: int)
      requires Valid()
      modifies this
      ensures Valid() && fresh(Repr - old(Repr)) && Repr >= old(Repr)
      ensures (state, deadline) == S.Stamp(old(state), ttl, now)
      ensures i < |queues| && q == queues[i]
      ensures i == if S.Expires(ttl, now) then S.FindTtl(state.ttlQueues, ttl) else |state.ttlQueues|
      ensures S.Expires(ttl, now) ==> i < |state.ttlQueues|
    {
      hide Rep;
      if S.Expires(ttl, now) {
        q, i := QueueFor(ttl);
        deadline := now + ttl;
      } else {
        writes := writes + 1;
        state := state.(writes := state.writes + 1);
        q, i, deadline := forever, |ttlQueues|, 0 - writes;
      }
    }

    method Bind(k: S.Key, v: S.Value, deadline: int)
      requires Valid()
      modifies this
      ensures Valid() && Repr == old(Repr) && queues == old(queues)
      ensures state == S.Store(old(state), k, v, deadline)
    {
      hide Rep;
      if k in data {
        bytes := bytes - |data[k].value|;
      }
      bytes := bytes + |v|;
      data := data[k := S.Entry(v, deadline)];
      state := S.Store(state, k, v, deadline);
    }

    method Enqueue(q: Queue, ghost i: nat, it: S.Item, ttl: int, now: int)
      requires Valid() && i < |queues| && q == queues[i]
      requires i == if S.Expires(ttl, now) then S.FindTtl(state.ttlQueues, ttl) else |state.ttlQueues|
      requires S.Expires(ttl, now) ==> i < |state.ttlQueues|
      modifies this, Repr
      ensures Valid() && fresh(Repr - old(Repr))
      ensures state == S.Enqueue(old(state), it, ttl, now)
    {
      hide Rep, S.ExpireQueue, S.Compact, S.Push;
      Push(q, i, it);
      if S.Expires(ttl, now) {
        var _ := ExpireQueue(q, i, now, S.WRITE_EXPIRE_BUDGET);
      }
      if items > 2 * |data| + S.COMPACT_SLACK {
        Compact();
      }
    }

    method Write(k: S.Key, v: S.Value, ttl: int, now: int)
      requires Valid()
      modifies this, Repr
      ensures Valid() && fresh(Repr - old(Repr))
      ensures state == S.Write(old(state), k, v, ttl, now)
    {
      hide Rep, S.Store, S.Enqueue;
      var exists_ := k in data;
      var before := if exists_ then data[k].deadline else 0;
      ghost var i;
      var q, deadline;
      q, i, deadline := Stamp(ttl, now);
      Bind(k, v, deadline);
      assert state.ttlQueues == S.Stamp(old(state), ttl, now).0.ttlQueues by {
        StoreKeepsQueues(S.Stamp(old(state), ttl, now).0, k, v, deadline);
      }
      if exists_ && before == deadline {
        return;
      }
      Enqueue(q, i, S.Item(k, deadline), ttl, now);
    }

    method MakeSpace(caps: S.Caps, k: S.Key, v: S.Value, now: int)
      requires Valid() && I.Inv(state, now)
      modifies this, Repr
      ensures Valid() && fresh(Repr - old(Repr))
      ensures state == S.Room(old(state), caps, k, v, now)
    {
      hide Rep, S.MakeRoom, S.MakeRoomBytes, I.Inv;
      var need := |v| - S.HeldBytes(data, k);
      P.RoomForKeyRoom(state, caps, k, now);
      if k !in data && caps.entries > 0 && |data| >= caps.entries {
        I.InvCounts(state, now);
        MakeRoom(now, caps.entries);
      }
      if caps.bytes > 0 && need > 0 && bytes + need > caps.bytes {
        I.InvCounts(state, now);
        MakeRoomBytes(now, caps.bytes - |v|);
      }
    }

    /** Writes `k` = `v` at `now`, making room first under the caps. */
    method Put(caps: S.Caps, k: S.Key, v: S.Value, ttl: int, now: int)
      requires Valid() && I.Inv(state, now)
      modifies this, Repr
      ensures Valid() && fresh(Repr - old(Repr))
      ensures state == S.Put(old(state), caps, k, v, ttl, now)
    {
      hide Rep, S.Room, S.Write;
      MakeSpace(caps, k, v, now);
      Write(k, v, ttl, now);
    }

    /** Keeps only the queues listed in `pick`, in that order. */
    ghost method Select(pick: seq<nat>)
      requires Rep()
      requires forall a :: 0 <= a < |pick| ==> pick[a] < |queues|
      requires forall a, b :: 0 <= a < b < |pick| ==> pick[a] < pick[b]
      modifies `queues, `held
      ensures Rep() && |queues| == |held| == |pick|
      ensures forall a :: 0 <= a < |pick| ==> queues[a] == old(queues)[pick[a]] && held[a] == old(held)[pick[a]]
    {
      hide Queue.Valid, Queue.Contents;
      var qs, hs := queues, held;
      queues := seq(|pick|, a requires 0 <= a < |pick| => qs[pick[a]]);
      held := seq(|pick|, a requires 0 <= a < |pick| => hs[pick[a]]);
    }

    method NonEmptyQueues() returns (open: seq<Queue>, ghost pick: seq<nat>)
      requires Valid()
      ensures |open| == |pick| && PickedNonEmpty(state.ttlQueues, pick)
      ensures forall a :: 0 <= a < |pick| ==> pick[a] < |ttlQueues| && open[a] == queues[pick[a]]
      ensures forall a, b :: 0 <= a < b < |pick| ==> pick[a] < pick[b]
    {
      hide PickedNonEmpty;
      open, pick := [], [];
      PickNone(state.ttlQueues[..0]);
      for i := 0 to |ttlQueues|
        invariant |open| == |pick|
        invariant forall a :: 0 <= a < |pick| ==> pick[a] < i && open[a] == queues[pick[a]]
        invariant forall a, b :: 0 <= a < b < |pick| ==> pick[a] < pick[b]
        invariant PickedNonEmpty(state.ttlQueues[..i], pick)
      {
        assert Holds(queues[i], held[i]);
        PickNext(state.ttlQueues, i, pick);
        if ttlQueues[i].Len() > 0 {
          open := open + [ttlQueues[i]];
          pick := pick + [i];
        }
      }
      assert state.ttlQueues[..|ttlQueues|] == state.ttlQueues;
    }

    /** Forgets the TTL queues with no items. */
    method DropEmptyQueues()
      requires Valid()
      modifies this
      ensures Valid() && Repr == old(Repr)
      ensures state == old(state).(ttlQueues := S.DropEmpty(old(state).ttlQueues))
    {
      hide Rep, S.DropEmpty;
      ghost var pick;
      var open;
      open, pick := NonEmptyQueues();
      ghost var n, was := |ttlQueues|, state;
      ghost var all := pick + [n];
      Select(all);
      assert queues == open + [forever];
      ttlQueues := open;
      state := state.(ttlQueues := S.DropEmpty(state.ttlQueues));
      forall a | 0 <= a < |queues| ensures held[a] == S.QueueAt(state, a) {
        assert all[a] == if a < |pick| then pick[a] else n;
      }
    }

    /** One lock hold of the background expirer. */
    method ExpirerHold(now: int) returns (more: bool)
      requires Valid()
      modifies this, Repr
      ensures Valid() && fresh(Repr - old(Repr))
      ensures (state, more) == S.ExpirerHold(old(state), now)
    {
      hide Rep, S.Expire, S.DropEmpty;
      more := Expire(now, S.EXPIRE_BATCH);
      if !more {
        DropEmptyQueues();
      }
    }
  }
}
