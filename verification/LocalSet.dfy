/** The in-process tier of the TxID set: a ring of inserted keys and a map of expiries. */
module LocalSet {
  import opened Bytes

  datatype Local = Local(capacity: nat, ttl: int, entries: map<Hash32, int>, ring: seq<Hash32>, head: nat, count: nat)

  predicate Shaped(s: Local) {
    1 <= s.capacity == |s.ring| && s.head < s.capacity && s.count <= s.capacity
  }

  function Fresh(capacity: nat, ttl: int): (s: Local)
    requires capacity >= 1
    ensures Shaped(s) && s.capacity == capacity && s.ttl == ttl && s.entries == map[]
  {
    Local(capacity, ttl, map[], seq(capacity, _ => Zeros(32)), 0, 0)
  }

  function Expiry(ttl: int, now: int): int {
    if ttl > 0 then WrapInt64(now + ttl) else 0
  }

  /** Whether a call at `now` finds the key present and not expired. */
  predicate Remembers(s: Local, key: Hash32, now: int) {
    key in s.entries && (s.ttl <= 0 || s.entries[key] >= now)
  }

  function Insert(s: Local, key: Hash32, now: int): (r: Local)
    requires Shaped(s)
    ensures Shaped(r) && r.capacity == s.capacity && r.ttl == s.ttl
  {
    var full := s.count == s.capacity;
    Local(s.capacity, s.ttl,
          (if full then s.entries - {s.ring[s.head]} else s.entries)[key := Expiry(s.ttl, now)],
          s.ring[s.head := key], (s.head + 1) % s.capacity, if full then s.count else s.count + 1)
  }

  function Presenting(s: Local, key: Hash32, now: int): (r: (Local, bool))
    requires Shaped(s)
    ensures Shaped(r.0) && r.0.capacity == s.capacity && r.0.ttl == s.ttl
  {
    if Remembers(s, key, now) then (s.(entries := s.entries[key := Expiry(s.ttl, now)]), true)
    else (Insert(s, key, now), false)
  }

  // ---- what the ring and the map hold ---------------------------------------------------

  /** The last `cap` inserted keys. */
  function Recent(log: seq<Hash32>, cap: nat): seq<Hash32> {
    if |log| < cap then log else log[|log| - cap..]
  }

  /** Read from its oldest slot, the ring holds the most recently inserted keys. */
  predicate RingHolds(s: Local, log: seq<Hash32>)
    requires Shaped(s)
  {
    if |log| < s.capacity then s.head == s.count == |log| && s.ring[..s.count] == log
    else s.count == s.capacity && s.ring[s.head..] + s.ring[..s.head] == Recent(log, s.capacity)
  }

  predicate LastAt(log: seq<Hash32>, k: Hash32, p: nat) {
    p < |log| && log[p] == k && forall q :: p < q < |log| ==> log[q] != k
  }

  /** Since the last insertion of `k`, at `p`, no slot holding `k` has been reused. An insertion
      reuses the slot of the insertion `cap` before it. */
  predicate NoSlotReused(log: seq<Hash32>, cap: nat, k: Hash32, p: nat) {
    forall q :: 0 <= q < |log| && log[q] == k ==> q + cap <= p || |log| <= q + cap
  }

  predicate Keeps(log: seq<Hash32>, cap: nat, k: Hash32) {
    exists p: nat | p < |log| :: LastAt(log, k, p) && NoSlotReused(log, cap, k, p)
  }

  ghost predicate Inv(s: Local, log: seq<Hash32>) {
    && Shaped(s)
    && RingHolds(s, log)
    && forall k: Hash32 :: k in s.entries <==> Keeps(log, s.capacity, k)
  }

  lemma {:induction false} FreshInv(capacity: nat, ttl: int)
    requires capacity >= 1
    ensures Inv(Fresh(capacity, ttl), [])
  {
  }

  lemma {:induction false} RingNext(s: Local, log: seq<Hash32>, key: Hash32, now: int)
    requires Shaped(s) && RingHolds(s, log)
    ensures RingHolds(Insert(s, key, now), log + [key])
    ensures |log| >= s.capacity ==> s.count == s.capacity && s.ring[s.head] == log[|log| - s.capacity]
    ensures |log| < s.capacity ==> s.count < s.capacity
  {
    NextHead(s.head, s.capacity);
    if |log| < s.capacity {
      RingGrows(s.ring, log, key);
    } else {
      RingTurns(s.ring, s.head, key);
      RecentNext(log, s.capacity, key);
    }
  }

  lemma {:induction false} NextHead(head: nat, cap: nat)
    requires head < cap
    ensures (head + 1) % cap == if head + 1 == cap then 0 else head + 1
  {
  }

  lemma {:induction false} RingGrows(ring: seq<Hash32>, log: seq<Hash32>, key: Hash32)
    requires |log| < |ring| && ring[..|log|] == log
    ensures var r := ring[|log| := key];
      r[..|log| + 1] == log + [key] && (|log| + 1 == |ring| ==> r[0..] + r[..0] == log + [key])
  {
    var r := ring[|log| := key];
    assert r[..|log| + 1] == r[..|log|] + [key];
  }

  lemma {:induction false} RingTurns(ring: seq<Hash32>, head: nat, key: Hash32)
    requires head < |ring|
    ensures var r, next, w := ring[head := key], if head + 1 == |ring| then 0 else head + 1,
      ring[head..] + ring[..head];
      r[next..] + r[..next] == w[1..] + [key] && w[0] == ring[head]
  {
    var r := ring[head := key];
    assert (ring[head..] + ring[..head])[1..] == ring[head + 1..] + ring[..head];
    if head + 1 == |ring| {
      assert r[0..] + r[..0] == ring[..head] + [key];
    } else {
      assert r[..head + 1] == ring[..head] + [key];
    }
  }

  lemma {:induction false} RecentNext(log: seq<Hash32>, cap: nat, key: Hash32)
    requires 1 <= cap <= |log|
    ensures Recent(log + [key], cap) == Recent(log, cap)[1..] + [key] && Recent(log, cap)[0] == log[|log| - cap]
  {
  }

  lemma {:induction false} KeepsNew(log: seq<Hash32>, cap: nat, key: Hash32)
    requires cap >= 1
    ensures Keeps(log + [key], cap, key)
  {
    assert LastAt(log + [key], key, |log|);
    assert NoSlotReused(log + [key], cap, key, |log|);
  }

  /** Another key is lost exactly when the insertion reuses a slot that held it. */
  lemma {:induction false} KeepsNext(log: seq<Hash32>, cap: nat, key: Hash32, k: Hash32)
    requires cap >= 1 && k != key
    ensures Keeps(log + [key], cap, k) <==> Keeps(log, cap, k) && !(|log| >= cap && log[|log| - cap] == k)
  {
    var all := log + [key];
    if Keeps(log, cap, k) && !(|log| >= cap && log[|log| - cap] == k) {
      var p: nat :| p < |log| && LastAt(log, k, p) && NoSlotReused(log, cap, k, p);
      assert LastAt(all, k, p);
      forall q | 0 <= q < |all| && all[q] == k ensures q + cap <= p || |all| <= q + cap {
        assert log[q] == k;
      }
      assert NoSlotReused(all, cap, k, p);
    }
    if Keeps(all, cap, k) {
      var p: nat :| p < |all| && LastAt(all, k, p) && NoSlotReused(all, cap, k, p);
      assert all[p] == log[p];
      assert LastAt(log, k, p) by {
        forall q | p < q < |log| ensures log[q] != k {
          assert all[q] == log[q];
        }
      }
      forall q | 0 <= q < |log| && log[q] == k ensures q + cap <= p || |all| <= q + cap {
        assert all[q] == k;
      }
      assert NoSlotReused(log, cap, k, p);
    }
  }

  lemma {:induction false} InsertInv(s: Local, log: seq<Hash32>, key: Hash32, now: int)
    requires Inv(s, log)
    ensures Inv(Insert(s, key, now), log + [key])
  {
    hide Keeps, RingHolds;
    RingNext(s, log, key, now);
    KeepsNew(log, s.capacity, key);
    var r := Insert(s, key, now);
    forall k: Hash32 ensures k in r.entries <==> Keeps(log + [key], s.capacity, k) {
      if k != key {
        KeepsNext(log, s.capacity, key, k);
      }
    }
  }

  // ---- runs -----------------------------------------------------------------------------

  datatype Call = Call(key: Hash32, now: int)

  /** The set after a run of calls. */
  function After(s: Local, calls: seq<Call>): (r: Local)
    requires Shaped(s)
    ensures Shaped(r) && r.capacity == s.capacity && r.ttl == s.ttl
  {
    if calls == [] then s
    else
      var n := |calls| - 1;
      Presenting(After(s, calls[..n]), calls[n].key, calls[n].now).0
  }

  /** The keys inserted in a run: those reported as not seen. */
  function Inserted(s: Local, calls: seq<Call>): seq<Hash32>
    requires Shaped(s)
  {
    if calls == [] then []
    else
      var n := |calls| - 1;
      Inserted(s, calls[..n]) + if Remembers(After(s, calls[..n]), calls[n].key, calls[n].now) then []
        else [calls[n].key]
  }

  /** In every run the set holds exactly the keys none of whose slots was reused since their last
      insertion. */
  lemma {:induction false} HoldsExactly(capacity: nat, ttl: int, calls: seq<Call>)
    requires capacity >= 1
    ensures Inv(After(Fresh(capacity, ttl), calls), Inserted(Fresh(capacity, ttl), calls))
    decreases |calls|
  {
    hide Keeps, RingHolds, Fresh;
    var s := Fresh(capacity, ttl);
    if calls == [] {
      FreshInv(capacity, ttl);
    } else {
      var n := |calls| - 1;
      HoldsExactly(capacity, ttl, calls[..n]);
      var t, log := After(s, calls[..n]), Inserted(s, calls[..n]);
      if Remembers(t, calls[n].key, calls[n].now) {
        assert log + [] == log;
        SameRing(t, t.(entries := After(s, calls).entries), log);
      } else {
        InsertInv(t, log, calls[n].key, calls[n].now);
      }
    }
  }

  lemma {:induction false} SameRing(s: Local, r: Local, log: seq<Hash32>)
    requires Shaped(s) && RingHolds(s, log) && r == s.(entries := r.entries)
    ensures RingHolds(r, log)
  {
  }

  /** The map never outgrows the ring. */
  lemma {:induction false} Bounded(s: Local, log: seq<Hash32>)
    requires Inv(s, log)
    ensures |s.entries| <= s.count <= s.capacity
  {
    hide Keeps, RingHolds;
    var w := Recent(log, s.capacity);
    forall k | k in s.entries ensures k in w {
      KeptIsRecent(log, s.capacity, k);
    }
    RecentLength(s, log);
    Elements(s.entries.Keys, w);
  }

  lemma {:induction false} RecentLength(s: Local, log: seq<Hash32>)
    requires Shaped(s) && RingHolds(s, log)
    ensures |Recent(log, s.capacity)| == s.count
  {
  }

  lemma {:induction false} KeptIsRecent(log: seq<Hash32>, cap: nat, k: Hash32)
    requires cap >= 1 && Keeps(log, cap, k)
    ensures k in Recent(log, cap)
  {
    var p: nat :| p < |log| && LastAt(log, k, p) && NoSlotReused(log, cap, k, p);
    assert |log| <= p + cap;
    if |log| >= cap {
      assert Recent(log, cap)[p - (|log| - cap)] == k;
    }
  }

  lemma {:induction false} Elements<T>(s: set<T>, w: seq<T>)
    requires forall x :: x in s ==> x in w
    ensures |s| <= |w|
    decreases |w|
  {
    if w == [] {
      assert s == {};
    } else {
      var n := |w| - 1;
      assert w == w[..n] + [w[n]];
      Elements(s - {w[n]}, w[..n]);
      if w[n] in s {
        assert s == (s - {w[n]}) + {w[n]};
      }
    }
  }

  // ---- answers --------------------------------------------------------------------------

  /** An earlier call presented the key, and its expiry had not passed by `now`. */
  ghost predicate Presented(calls: seq<Call>, ttl: int, key: Hash32, now: int) {
    exists j :: 0 <= j < |calls| && calls[j].key == key && (ttl <= 0 || Expiry(ttl, calls[j].now) >= now)
  }

  lemma {:induction false} EntriesReal(capacity: nat, ttl: int, calls: seq<Call>, k: Hash32) returns (j: nat)
    requires capacity >= 1 && k in After(Fresh(capacity, ttl), calls).entries
    ensures j < |calls| && calls[j].key == k
    ensures After(Fresh(capacity, ttl), calls).entries[k] == Expiry(ttl, calls[j].now)
    decreases |calls|
  {
    var n := |calls| - 1;
    if calls[n].key == k {
      j := n;
    } else {
      j := EntriesReal(capacity, ttl, calls[..n], k);
    }
  }

  /** Only keys really presented are reported as seen, and only before they expire. */
  lemma {:induction false} HitsAreReal(capacity: nat, ttl: int, calls: seq<Call>, key: Hash32, now: int)
    requires capacity >= 1 && Presenting(After(Fresh(capacity, ttl), calls), key, now).1
    ensures Presented(calls, ttl, key, now)
  {
    var j := EntriesReal(capacity, ttl, calls, key);
    assert calls[j].key == key;
  }

  /** Insertions of one key are at least `cap` insertions apart. */
  predicate Spaced(log: seq<Hash32>, cap: nat) {
    forall q, p :: 0 <= q < p < |log| && log[q] == log[p] ==> q + cap <= p
  }

  /** The set is a queue: it holds the last `cap` inserted keys and no others. */
  ghost predicate IsFifo(log: seq<Hash32>, cap: nat) {
    forall k: Hash32 :: Keeps(log, cap, k) <==> k in Recent(log, cap)
  }

  /** A key inserted again while its slot is still in the ring is inserted once more when that
      slot is reused. */
  predicate RepeatsRenewed(log: seq<Hash32>, cap: nat) {
    forall q, p :: 0 <= q < p < q + cap < |log| && log[q] == log[p] ==> log[q + cap] == log[q]
  }

  /** A log is a queue at every length exactly when repeats are renewed. */
  lemma {:induction false} LogFifoExactly(log: seq<Hash32>, cap: nat)
    requires cap >= 1
    ensures (forall m :: 0 <= m <= |log| ==> IsFifo(log[..m], cap)) <==> RepeatsRenewed(log, cap)
  {
    hide IsFifo, Keeps, Recent;
    if RepeatsRenewed(log, cap) {
      forall m | 0 <= m <= |log| ensures IsFifo(log[..m], cap) {
        assert RepeatsRenewed(log[..m], cap);
        RenewedIsFifo(log[..m], cap);
      }
    }
    if forall m :: 0 <= m <= |log| ==> IsFifo(log[..m], cap) {
      forall q, p | 0 <= q < p < q + cap < |log| && log[q] == log[p] ensures log[q + cap] == log[q] {
        var m := q + cap + 1;
        assert IsFifo(log[..m], cap);
        if log[q + cap] != log[q] {
          ReuseForgets(log[..m], cap, q, p);
        }
      }
    }
  }

  lemma {:induction false} RenewedIsFifo(log: seq<Hash32>, cap: nat)
    requires cap >= 1 && RepeatsRenewed(log, cap)
    ensures IsFifo(log, cap)
  {
    forall k: Hash32 ensures Keeps(log, cap, k) <==> k in Recent(log, cap) {
      if Keeps(log, cap, k) {
        KeptIsRecent(log, cap, k);
      }
      if k in Recent(log, cap) {
        var p := RecentLast(log, cap, k);
        forall q | 0 <= q < |log| && log[q] == k ensures q + cap <= p || |log| <= q + cap {
          if q + cap < |log| {
            var next := log[q + cap];
            assert q < p < q + cap ==> next == k;
          }
        }
        assert NoSlotReused(log, cap, k, p);
      }
    }
  }

  lemma {:induction false} RecentLast(log: seq<Hash32>, cap: nat, k: Hash32) returns (p: nat)
    requires k in Recent(log, cap)
    ensures LastAt(log, k, p) && |log| <= p + cap
  {
    var i :| 0 <= i < |Recent(log, cap)| && Recent(log, cap)[i] == k;
    p := LastFrom(log, k, if |log| < cap then i else i + (|log| - cap));
  }

  lemma {:induction false} LastFrom(log: seq<Hash32>, k: Hash32, i: nat) returns (p: nat)
    requires i < |log| && log[i] == k
    ensures i <= p && LastAt(log, k, p)
    decreases |log| - i
  {
    p := i;
    if j :| i < j < |log| && log[j] == k {
      p := LastFrom(log, k, j);
    }
  }

  /** The last insertion reuses slot `q` of a key inserted again since, at `p`: it is forgotten. */
  lemma {:induction false} ReuseForgets(log: seq<Hash32>, cap: nat, q: nat, p: nat)
    requires q < p < q + cap == |log| - 1 && log[q] == log[p] != log[q + cap]
    ensures !IsFifo(log, cap)
  {
    var k := log[q];
    assert Recent(log, cap)[p - (|log| - cap)] == k;
    if Keeps(log, cap, k) {
      var r: nat :| r < |log| && LastAt(log, k, r) && NoSlotReused(log, cap, k, r);
      assert false;
    }
  }

  // ---- the queue over runs --------------------------------------------------------------

  /** After the run the set holds the last `capacity` inserted keys and no others. */
  ghost predicate QueueAfter(capacity: nat, ttl: int, calls: seq<Call>)
    requires capacity >= 1
  {
    var s := Fresh(capacity, ttl);
    forall k: Hash32 :: k in After(s, calls).entries <==> k in Recent(Inserted(s, calls), capacity)
  }

  lemma {:induction false} QueueIsFifo(capacity: nat, ttl: int, calls: seq<Call>)
    requires capacity >= 1
    ensures QueueAfter(capacity, ttl, calls) <==> IsFifo(Inserted(Fresh(capacity, ttl), calls), capacity)
  {
    hide Keeps, Recent, Fresh, RingHolds, After, Inserted;
    HoldsExactly(capacity, ttl, calls);
  }

  lemma {:induction false} InsertedPrefix(s: Local, calls: seq<Call>, n: nat)
    requires Shaped(s) && n <= |calls|
    ensures Inserted(s, calls[..n]) <= Inserted(s, calls)
    decreases |calls|
  {
    hide Remembers, After;
    if n == |calls| {
      assert calls[..n] == calls;
    } else {
      var last := |calls| - 1;
      InsertedPrefix(s, calls[..last], n);
      assert calls[..last][..n] == calls[..n];
    }
  }

  /** Every prefix of the insertions is what some part of the run inserted. */
  lemma {:induction false} PrefixReached(s: Local, calls: seq<Call>, m: nat) returns (n: nat)
    requires Shaped(s) && m <= |Inserted(s, calls)|
    ensures n <= |calls| && Inserted(s, calls[..n]) == Inserted(s, calls)[..m]
    decreases |calls|
  {
    hide Remembers, After;
    n := |calls|;
    assert calls[..n] == calls;
    if m < |Inserted(s, calls)| {
      var last := |calls| - 1;
      n := PrefixReached(s, calls[..last], m);
      assert calls[..last][..n] == calls[..n];
      assert Inserted(s, calls[..last]) <= Inserted(s, calls);
    }
  }

  /** Throughout a run the set is a queue of the last inserted keys exactly when every key that is
      inserted again while its slot is in the ring is inserted once more as that slot is reused. */
  lemma {:induction false} FifoExactly(capacity: nat, ttl: int, calls: seq<Call>)
    requires capacity >= 1
    ensures (forall n :: 0 <= n <= |calls| ==> QueueAfter(capacity, ttl, calls[..n]))
       <==> RepeatsRenewed(Inserted(Fresh(capacity, ttl), calls), capacity)
  {
    hide QueueAfter, IsFifo, RepeatsRenewed, Inserted, Fresh;
    var s := Fresh(capacity, ttl);
    var log := Inserted(s, calls);
    LogFifoExactly(log, capacity);
    if RepeatsRenewed(log, capacity) {
      forall n | 0 <= n <= |calls| ensures QueueAfter(capacity, ttl, calls[..n]) {
        InsertedPrefix(s, calls, n);
        var m := |Inserted(s, calls[..n])|;
        assert log[..m] == Inserted(s, calls[..n]);
        QueueIsFifo(capacity, ttl, calls[..n]);
      }
    }
    if forall n :: 0 <= n <= |calls| ==> QueueAfter(capacity, ttl, calls[..n]) {
      forall m | 0 <= m <= |log| ensures IsFifo(log[..m], capacity) {
        var n := PrefixReached(s, calls, m);
        QueueIsFifo(capacity, ttl, calls[..n]);
      }
    }
  }

  /** The call finds the key present but expired, and inserts it a second time. */
  predicate StaleHit(s: Local, c: Call) {
    c.key in s.entries && !Remembers(s, c.key, c.now)
  }

  ghost predicate NoStaleHits(capacity: nat, ttl: int, calls: seq<Call>)
    requires capacity >= 1
  {
    forall n :: 0 <= n < |calls| ==> !StaleHit(After(Fresh(capacity, ttl), calls[..n]), calls[n])
  }

  /** What a caller can see before anything goes wrong: until some call finds its key present but
      expired, the set is a queue. */
  lemma {:induction false} FifoWithoutStaleHits(capacity: nat, ttl: int, calls: seq<Call>)
    requires capacity >= 1 && NoStaleHits(capacity, ttl, calls)
    ensures Spaced(Inserted(Fresh(capacity, ttl), calls), capacity) && QueueAfter(capacity, ttl, calls)
    decreases |calls|
  {
    hide Keeps, Fresh, RingHolds, Recent, Remembers, After, Inserted, NoStaleHits, QueueAfter, Spaced;
    var s := Fresh(capacity, ttl);
    if calls == [] {
      assert Spaced(Inserted(s, []), capacity) by { NothingInserted(s, capacity); }
    } else {
      var n := |calls| - 1;
      NoStaleHitsBefore(capacity, ttl, calls);
      FifoWithoutStaleHits(capacity, ttl, calls[..n]);
      SpacedAfter(capacity, ttl, calls);
    }
    SpacedRenewed(Inserted(s, calls), capacity);
    RenewedIsFifo(Inserted(s, calls), capacity);
    QueueIsFifo(capacity, ttl, calls);
  }

  lemma {:induction false} NothingInserted(s: Local, cap: nat)
    requires Shaped(s)
    ensures Spaced(Inserted(s, []), cap)
  {
  }

  lemma {:induction false} SpacedRenewed(log: seq<Hash32>, cap: nat)
    requires Spaced(log, cap)
    ensures RepeatsRenewed(log, cap)
  {
  }

  lemma {:induction false} NoStaleHitsBefore(capacity: nat, ttl: int, calls: seq<Call>)
    requires capacity >= 1 && calls != [] && NoStaleHits(capacity, ttl, calls)
    ensures NoStaleHits(capacity, ttl, calls[..|calls| - 1])
  {
    hide After, Fresh, StaleHit;
    var n := |calls| - 1;
    forall i | 0 <= i < n ensures !StaleHit(After(Fresh(capacity, ttl), calls[..n][..i]), calls[..n][i]) {
      assert calls[..n][..i] == calls[..i];
    }
  }

  lemma {:induction false} SpacedAfter(capacity: nat, ttl: int, calls: seq<Call>)
    requires capacity >= 1 && calls != [] && NoStaleHits(capacity, ttl, calls)
    requires QueueAfter(capacity, ttl, calls[..|calls| - 1])
    requires Spaced(Inserted(Fresh(capacity, ttl), calls[..|calls| - 1]), capacity)
    ensures Spaced(Inserted(Fresh(capacity, ttl), calls), capacity)
  {
    hide Fresh, Recent, After, Remembers, Spaced;
    var s, n := Fresh(capacity, ttl), |calls| - 1;
    assert !StaleHit(After(s, calls[..n]), calls[n]);
    if Remembers(After(s, calls[..n]), calls[n].key, calls[n].now) {
      assert Inserted(s, calls) == Inserted(s, calls[..n]);
    } else {
      SpacedNext(Inserted(s, calls[..n]), capacity, calls[n].key);
    }
  }

  /** Without expiry the set is, in every run, a queue of the last inserted keys. */
  lemma {:induction false} FifoWithoutExpiry(capacity: nat, ttl: int, calls: seq<Call>)
    requires capacity >= 1 && ttl <= 0
    ensures QueueAfter(capacity, ttl, calls)
  {
    hide QueueAfter;
    FifoWithoutStaleHits(capacity, ttl, calls);
  }

  lemma {:induction false} SpacedNext(log: seq<Hash32>, cap: nat, key: Hash32)
    requires Spaced(log, cap) && key !in Recent(log, cap)
    ensures Spaced(log + [key], cap)
  {
    forall q | 0 <= q < |log| && q + cap > |log| ensures log[q] != key {
      assert Recent(log, cap)[if |log| < cap then q else q - (|log| - cap)] == log[q];
    }
  }

  /** With expiry it is not: a stale key that is presented again occupies a second slot, and the
      reuse of its first slot forgets it although one other key has been inserted since. */
  lemma {:induction false} StaleKeyForgotten(a: Hash32, b: Hash32)
    requires a != b
    ensures var calls := [Call(a, 0), Call(a, 20), Call(b, 21)];
      var s := After(Fresh(2, 10), calls);
      && Inserted(Fresh(2, 10), calls) == [a, a, b]
      && a in Recent(Inserted(Fresh(2, 10), calls), 2) && a !in s.entries && Expiry(10, 20) >= 22
      && !Presenting(s, a, 22).1
  {
    var s0 := Fresh(2, 10);
    var c1, c2, c3 := [Call(a, 0)], [Call(a, 0), Call(a, 20)], [Call(a, 0), Call(a, 20), Call(b, 21)];
    assert c1[..0] == [] && c2[..1] == c1 && c3[..2] == c2;
    assert After(s0, []) == s0 && Inserted(s0, []) == [];
    var s1 := After(s0, c1);
    assert s1 == Insert(s0, a, 0);
    assert Inserted(s0, c1) == [a];
    var s2 := After(s0, c2);
    assert s2 == Insert(s1, a, 20);
    assert Inserted(s0, c2) == [a, a];
    assert After(s0, c3) == Insert(s2, b, 21);
    assert Inserted(s0, c3) == [a, a, b];
  }

  // ---- the shard object -----------------------------------------------------------------

  class LocalShard {
    const capacity: nat
    const ttl: int
    var entries: map<Hash32, int>
    const ring: array<Hash32>
    var head: nat
    var count: nat

    function Contents(): Local
      reads this, ring
    {
      Local(capacity, ttl, entries, ring[..], head, count)
    }

    constructor (capacity: nat, ttl: int)
      requires capacity >= 1
      ensures Contents() == Fresh(capacity, ttl) && fresh(ring)
    {
      this.capacity, this.ttl, entries, head, count := capacity, ttl, map[], 0, 0;
      ring := new Hash32[capacity](_ => Zeros(32));
    }

    method SeenAndAdd(key: Hash32, now: int) returns (seen: bool)
      requires Shaped(Contents())
      modifies this, ring
      ensures (Contents(), seen) == Presenting(old(Contents()), key, now)
    {
      var expiry := 0;
      if ttl > 0 {
        expiry := WrapInt64(now + ttl);
      }
      if key in entries && (ttl <= 0 || entries[key] >= now) {
        entries := entries[key := expiry];
        return true;
      }
      if count == capacity {
        entries := entries - {ring[head]};
      } else {
        count := count + 1;
      }
      ring[head] := key;
      head := (head + 1) % capacity;
      entries := entries[key := expiry];
      seen := false;
    }
  }
}
