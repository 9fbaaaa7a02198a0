/** One shard of the in-memory cache as a value: a map of entries, one FIFO expiry queue per
    TTL, the queue of entries that never expire, and the running counts. Each function is the
    meaning of one critical section or helper of the shard; CacheShard proves the mutable
    classes equal to them. */
module CacheSpec {
  import opened Bytes

  type Key = bytes
  type Value = bytes

  /** A positive deadline is an expiry time; an entry that never expires holds the negated
      number of its write. */
  datatype Entry = Entry(value: Value, deadline: int)

  predicate Live(e: Entry, now: int) {
    e.deadline <= 0 || now < e.deadline
  }

  predicate Expired(e: Entry, now: int) {
    0 < e.deadline <= now
  }

  datatype Item = Item(key: Key, deadline: int)
  datatype TtlQueue = TtlQueue(ttl: int, items: seq<Item>)

  datatype Shard = Shard(
    data: map<Key, Entry>,
    ttlQueues: seq<TtlQueue>,
    forever: seq<Item>,
    writes: nat,
    items: int,
    bytes: int)

  /** Per-shard caps; 0 means unbounded. */
  datatype Caps = Caps(entries: nat, bytes: nat)

  const EMPTY := Shard(map[], [], [], 0, 0, 0)
  const WRITE_EXPIRE_BUDGET := 2
  const EXPIRE_BATCH := 1024
  const COMPACT_SLACK := 1024

  predicate Current(data: map<Key, Entry>, it: Item) {
    it.key in data && data[it.key].deadline == it.deadline
  }

  // Queues are numbered: the TTL queues in order, then the forever queue.

  predicate IsQueue(s: Shard, i: nat) {
    i <= |s.ttlQueues|
  }

  function QueueAt(s: Shard, i: nat): seq<Item>
    requires IsQueue(s, i)
  {
    if i < |s.ttlQueues| then s.ttlQueues[i].items else s.forever
  }

  function SetQueue(s: Shard, i: nat, q: seq<Item>): Shard
    requires IsQueue(s, i)
  {
    if i < |s.ttlQueues| then s.(ttlQueues := s.ttlQueues[i := s.ttlQueues[i].(items := q)])
    else s.(forever := q)
  }

  // ---- operations -----------------------------------------------------------------------

  function Remove(s: Shard, k: Key): Shard {
    if k in s.data then s.(data := s.data - {k}, bytes := s.bytes - |s.data[k].value|) else s
  }

  /** Drops the head item of queue `i`, and its entry too while the item is current. */
  function Pop(s: Shard, i: nat): Shard
    requires IsQueue(s, i) && QueueAt(s, i) != []
  {
    var it := QueueAt(s, i)[0];
    var t := SetQueue(s, i, QueueAt(s, i)[1..]).(items := s.items - 1);
    if Current(s.data, it) then Remove(t, it.key) else t
  }

  function ExpireQueue(s: Shard, i: nat, now: int, budget: nat): (Shard, nat)
    requires IsQueue(s, i)
    decreases budget
  {
    if budget > 0 && QueueAt(s, i) != [] && QueueAt(s, i)[0].deadline <= now
    then ExpireQueue(Pop(s, i), i, now, budget - 1)
    else (s, budget)
  }

  /** Expires TTL queues `i` and up; the flag reports that the budget ran out. */
  function ExpireFrom(s: Shard, i: nat, now: int, budget: nat): (Shard, bool)
    requires IsQueue(s, i)
    decreases |s.ttlQueues| - i
  {
    if i == |s.ttlQueues| then (s, false)
    else
      var (t, left) := ExpireQueue(s, i, now, budget);
      ExpireQueueShape(s, i, now, budget);
      if left == 0 then (t, true) else ExpireFrom(t, i + 1, now, left)
  }

  function Expire(s: Shard, now: int, budget: nat): (Shard, bool) {
    ExpireFrom(s, 0, now, budget)
  }

  /** The source passes math.MaxInt: a budget that no shard has items enough to use up. */
  function ExpireAll(s: Shard, now: int): Shard {
    Expire(s, now, TotalItems(s) + 1).0
  }

  function DropStale(s: Shard, i: nat): Shard
    requires IsQueue(s, i)
    decreases |QueueAt(s, i)|
  {
    if QueueAt(s, i) != [] && !Current(s.data, QueueAt(s, i)[0])
    then DropStale(SetQueue(s, i, QueueAt(s, i)[1..]).(items := s.items - 1), i)
    else s
  }

  /** The earliest head among the queues up to and including `i`. */
  function Earlier(s: Shard, i: nat, first: Option<nat>): Option<nat>
    requires IsQueue(s, i) && i < |s.ttlQueues|
    requires first.Some? ==> first.value < i && QueueAt(s, first.value) != []
  {
    var q := QueueAt(s, i);
    if q != [] && (first.None? || q[0].deadline < QueueAt(s, first.value)[0].deadline) then Some(i) else first
  }

  /** Scans TTL queues `i` and up for the earliest current head, dropping stale heads. */
  function Scan(s: Shard, i: nat, first: Option<nat>): (Shard, Option<nat>)
    requires IsQueue(s, i)
    requires first.Some? ==> first.value < i && QueueAt(s, first.value) != []
    decreases |s.ttlQueues| - i
  {
    if i == |s.ttlQueues| then (s, first)
    else
      var t := DropStale(s, i);
      DropStaleShape(s, i);
      Scan(t, i + 1, Earlier(t, i, first))
  }

  /** The queue whose head the next eviction pops, if any. */
  function Chosen(s: Shard): (Shard, Option<nat>) {
    var (t, first) := Scan(s, 0, None);
    if first.Some? then (t, first)
    else
      var u := DropStale(t, |t.ttlQueues|);
      DropStaleShape(t, |t.ttlQueues|);
      (u, if u.forever == [] then None else Some(|u.ttlQueues|))
  }

  function Evict(s: Shard): (r: (Shard, bool))
    ensures r.1 ==> |r.0.data| < |s.data|
  {
    ChosenIsCurrent(s);
    var (t, first) := Chosen(s);
    match first
    case None => (t, false)
    case Some(i) => (Pop(t, i), true)
  }

  function EvictToCount(s: Shard, limit: nat): Shard
    decreases |s.data|
  {
    if |s.data| >= limit then
      var (t, ok) := Evict(s);
      if ok then EvictToCount(t, limit) else t
    else s
  }

  function EvictToBytes(s: Shard, limit: int): Shard
    decreases |s.data|
  {
    if s.bytes > limit then
      var (t, ok) := Evict(s);
      if ok then EvictToBytes(t, limit) else t
    else s
  }

  function MakeRoom(s: Shard, now: int, limit: nat): Shard {
    EvictToCount(ExpireAll(s, now), limit)
  }

  function MakeRoomBytes(s: Shard, now: int, limit: int): Shard {
    EvictToBytes(ExpireAll(s, now), limit)
  }

  function KeepCurrent(data: map<Key, Entry>, q: seq<Item>): seq<Item> {
    if q == [] then []
    else (if Current(data, q[0]) then [q[0]] else []) + KeepCurrent(data, q[1..])
  }

  function KeepCurrentQueues(data: map<Key, Entry>, qs: seq<TtlQueue>): (r: seq<TtlQueue>)
    ensures |r| == |qs|
    ensures forall i :: 0 <= i < |qs| ==> r[i] == TtlQueue(qs[i].ttl, KeepCurrent(data, qs[i].items))
  {
    if qs == [] then []
    else [TtlQueue(qs[0].ttl, KeepCurrent(data, qs[0].items))] + KeepCurrentQueues(data, qs[1..])
  }

  function Compact(s: Shard): Shard {
    var f := KeepCurrent(s.data, s.forever);
    var qs := KeepCurrentQueues(s.data, s.ttlQueues);
    s.(forever := f, ttlQueues := qs, items := |f| + SumLen(qs))
  }

  function DropEmpty(qs: seq<TtlQueue>): seq<TtlQueue> {
    if qs == [] then []
    else (if qs[0].items != [] then [qs[0]] else []) + DropEmpty(qs[1..])
  }

  /** The position of the queue for `ttl`, or the number of queues when there is none. */
  function FindTtl(qs: seq<TtlQueue>, ttl: int): (i: nat)
    ensures i <= |qs|
    ensures i < |qs| ==> qs[i].ttl == ttl
    ensures forall j :: 0 <= j < i ==> qs[j].ttl != ttl
  {
    if qs == [] then 0 else if qs[0].ttl == ttl then 0 else 1 + FindTtl(qs[1..], ttl)
  }

  function QueueFor(s: Shard, ttl: int): (r: Shard)
    ensures FindTtl(r.ttlQueues, ttl) < |r.ttlQueues|
  {
    if FindTtl(s.ttlQueues, ttl) < |s.ttlQueues| then s
    else
      var qs := s.ttlQueues + [TtlQueue(ttl, [])];
      assert qs[|s.ttlQueues|].ttl == ttl;
      s.(ttlQueues := qs)
  }

  /** A TTL whose deadline would pass the int64 range is stored as never expiring. */
  predicate Expires(ttl: int, now: int) {
    ttl > 0 && now <= MAX_INT64 - ttl
  }

  function RoomForKey(s: Shard, caps: Caps, k: Key, now: int): Shard {
    if k !in s.data && caps.entries > 0 && |s.data| >= caps.entries
    then MakeRoom(s, now, caps.entries) else s
  }

  /** `need` is how many bytes the write adds. */
  function RoomForValue(s: Shard, caps: Caps, v: Value, need: int, now: int): Shard {
    if caps.bytes > 0 && need > 0 && s.bytes + need > caps.bytes
    then MakeRoomBytes(s, now, caps.bytes - |v|) else s
  }

  function HeldBytes(data: map<Key, Entry>, k: Key): nat {
    if k in data then |data[k].value| else 0
  }

  /** What `put` does to make room before it writes. */
  function Room(s: Shard, caps: Caps, k: Key, v: Value, now: int): Shard {
    RoomForValue(RoomForKey(s, caps, k, now), caps, v, |v| - HeldBytes(s.data, k), now)
  }

  /** The entry's new deadline, and the shard with its queue opened or its write counted. */
  function Stamp(s: Shard, ttl: int, now: int): (Shard, int) {
    if Expires(ttl, now) then (QueueFor(s, ttl), now + ttl)
    else (s.(writes := s.writes + 1), -(s.writes + 1))
  }

  function Store(s: Shard, k: Key, v: Value, deadline: int): Shard {
    s.(data := s.data[k := Entry(v, deadline)], bytes := s.bytes - HeldBytes(s.data, k) + |v|)
  }

  function Tidy(s: Shard): Shard {
    if s.items > 2 * |s.data| + COMPACT_SLACK then Compact(s) else s
  }

  function Push(s: Shard, i: nat, it: Item): Shard
    requires IsQueue(s, i)
  {
    SetQueue(s, i, QueueAt(s, i) + [it]).(items := s.items + 1)
  }

  /** Queues the item of a write and tidies the queues. */
  function Enqueue(s: Shard, it: Item, ttl: int, now: int): Shard
    requires Expires(ttl, now) ==> FindTtl(s.ttlQueues, ttl) < |s.ttlQueues|
  {
    if Expires(ttl, now) then
      var i := FindTtl(s.ttlQueues, ttl);
      Tidy(ExpireQueue(Push(s, i, it), i, now, WRITE_EXPIRE_BUDGET).0)
    else Tidy(Push(s, |s.ttlQueues|, it))
  }

  /** The write itself, once there is room. */
  function Write(s: Shard, k: Key, v: Value, ttl: int, now: int): Shard {
    var (t, deadline) := Stamp(s, ttl, now);
    var u := Store(t, k, v, deadline);
    if k in s.data && s.data[k].deadline == deadline then u
    else Enqueue(u, Item(k, deadline), ttl, now)
  }

  function Put(s: Shard, caps: Caps, k: Key, v: Value, ttl: int, now: int): Shard {
    Write(Room(s, caps, k, v, now), k, v, ttl, now)
  }

  /** One lock hold of the background expirer. */
  function ExpirerHold(s: Shard, now: int): (Shard, bool) {
    var (t, more) := Expire(s, now, EXPIRE_BATCH);
    (if more then t else t.(ttlQueues := DropEmpty(t.ttlQueues)), more)
  }

  // ---- sums -----------------------------------------------------------------------------

  function SumLen(qs: seq<TtlQueue>): nat {
    if qs == [] then 0 else |qs[0].items| + SumLen(qs[1..])
  }

  function TotalItems(s: Shard): nat {
    SumLen(s.ttlQueues) + |s.forever|
  }

  ghost function Pick(m: map<Key, Entry>): (k: Key)
    requires m != map[]
    ensures k in m
  {
    var k :| k in m; k
  }

  /** The lengths of all values held. */
  ghost function SumBytes(m: map<Key, Entry>): nat
    decreases |m|
  {
    if m == map[] then 0 else |m[Pick(m)].value| + SumBytes(m - {Pick(m)})
  }

  lemma {:induction false} SumBytesRemove(m: map<Key, Entry>, k: Key)
    requires k in m
    ensures SumBytes(m) == |m[k].value| + SumBytes(m - {k})
    decreases |m|
  {
    var p := Pick(m);
    if p != k {
      SumBytesRemove(m - {p}, k);
      SumBytesRemove(m - {k}, p);
      assert m - {p} - {k} == m - {k} - {p};
    }
  }

  lemma {:induction false} SumBytesStore(m: map<Key, Entry>, k: Key, e: Entry)
    ensures SumBytes(m[k := e]) == SumBytes(m) - HeldBytes(m, k) + |e.value|
  {
    SumBytesRemove(m[k := e], k);
    if k in m {
      SumBytesRemove(m, k);
      assert m[k := e] - {k} == m - {k};
    } else {
      assert m[k := e] - {k} == m;
    }
  }

  lemma {:induction false} SumLenUpdate(qs: seq<TtlQueue>, i: nat, q: TtlQueue)
    requires i < |qs|
    ensures SumLen(qs[i := q]) == SumLen(qs) - |qs[i].items| + |q.items|
  {
    if i > 0 {
      SumLenUpdate(qs[1..], i - 1, q);
      assert qs[i := q][1..] == qs[1..][i - 1 := q];
    }
  }

  lemma {:induction false} SumLenAppend(qs: seq<TtlQueue>, q: TtlQueue)
    ensures SumLen(qs + [q]) == SumLen(qs) + |q.items|
  {
    if qs != [] {
      SumLenAppend(qs[1..], q);
      assert (qs + [q])[1..] == qs[1..] + [q];
    }
  }

  lemma {:induction false} SetQueueTotal(s: Shard, i: nat, q: seq<Item>)
    requires IsQueue(s, i)
    ensures TotalItems(SetQueue(s, i, q)) == TotalItems(s) - |QueueAt(s, i)| + |q|
  {
    if i < |s.ttlQueues| {
      SumLenUpdate(s.ttlQueues, i, s.ttlQueues[i].(items := q));
    }
  }

  // ---- shapes: which parts an operation leaves alone ------------------------------------

  /** `t` differs from `s` at most in queue `i`, in entries removed, and in the counts. */
  predicate SameButQueue(s: Shard, t: Shard, i: nat)
    requires IsQueue(s, i)
  {
    && |t.ttlQueues| == |s.ttlQueues|
    && t.writes == s.writes
    && (forall j :: 0 <= j < |s.ttlQueues| ==> t.ttlQueues[j].ttl == s.ttlQueues[j].ttl)
    && (forall j :: 0 <= j <= |s.ttlQueues| && j != i ==> QueueAt(t, j) == QueueAt(s, j))
  }

  lemma {:induction false} ExpireQueueShape(s: Shard, i: nat, now: int, budget: nat)
    requires IsQueue(s, i)
    ensures SameButQueue(s, ExpireQueue(s, i, now, budget).0, i)
    ensures ExpireQueue(s, i, now, budget).1 <= budget
    decreases budget
  {
    if budget > 0 && QueueAt(s, i) != [] && QueueAt(s, i)[0].deadline <= now {
      ExpireQueueShape(Pop(s, i), i, now, budget - 1);
    }
  }

  lemma {:induction false} DropStaleShape(s: Shard, i: nat)
    requires IsQueue(s, i)
    ensures var t := DropStale(s, i);
      && SameButQueue(s, t, i)
      && t.data == s.data && t.bytes == s.bytes
      && (QueueAt(t, i) != [] ==> Current(t.data, QueueAt(t, i)[0]))
    decreases |QueueAt(s, i)|
  {
    if QueueAt(s, i) != [] && !Current(s.data, QueueAt(s, i)[0]) {
      DropStaleShape(SetQueue(s, i, QueueAt(s, i)[1..]).(items := s.items - 1), i);
    }
  }

  lemma {:induction false} ExpireFromNext(s: Shard, i: nat, now: int, budget: nat)
    requires i < |s.ttlQueues|
    ensures var (t, left) := ExpireQueue(s, i, now, budget);
      && |t.ttlQueues| == |s.ttlQueues|
      && ExpireFrom(s, i, now, budget) == if left == 0 then (t, true) else ExpireFrom(t, i + 1, now, left)
  {
    ExpireQueueShape(s, i, now, budget);
  }

  lemma {:induction false} ExpireFromEnd(s: Shard, i: nat, now: int, budget: nat)
    requires i == |s.ttlQueues|
    ensures ExpireFrom(s, i, now, budget) == (s, false)
  {
  }

  lemma {:induction false} ScanEnd(s: Shard, first: Option<nat>)
    requires first.Some? ==> first.value < |s.ttlQueues| && QueueAt(s, first.value) != []
    ensures Scan(s, |s.ttlQueues|, first) == (s, first)
  {
  }

  lemma {:induction false} ScanNext(s: Shard, i: nat, first: Option<nat>)
    requires i < |s.ttlQueues|
    requires first.Some? ==> first.value < i && QueueAt(s, first.value) != []
    ensures var t := DropStale(s, i);
      && |t.ttlQueues| == |s.ttlQueues|
      && (first.Some? ==> QueueAt(t, first.value) == QueueAt(s, first.value))
      && (Earlier(t, i, first).Some? ==>
            Earlier(t, i, first).value <= i && QueueAt(t, Earlier(t, i, first).value) != [])
      && Scan(s, i, first) == Scan(t, i + 1, Earlier(t, i, first))
  {
    DropStaleShape(s, i);
  }

  /** The state of the scan before queue `i`: every queue passed is empty or headed by a
      current item, and `first` is the earliest head among them. */
  predicate ScanOk(s: Shard, i: nat, first: Option<nat>)
    requires IsQueue(s, i)
  {
    && (first.Some? ==> first.value < i && QueueAt(s, first.value) != [])
    && (forall j :: 0 <= j < i && QueueAt(s, j) != [] ==>
          && Current(s.data, QueueAt(s, j)[0])
          && first.Some?
          && QueueAt(s, first.value)[0].deadline <= QueueAt(s, j)[0].deadline)
  }

  /** The scan's choice after looking at queue `i`. */
  lemma {:induction false} ScanStep(s: Shard, i: nat, first: Option<nat>) returns (next: Option<nat>)
    requires i < |s.ttlQueues| && ScanOk(s, i, first)
    ensures |DropStale(s, i).ttlQueues| == |s.ttlQueues| && ScanOk(DropStale(s, i), i + 1, next)
    ensures Scan(s, i, first) == Scan(DropStale(s, i), i + 1, next)
  {
    var t := DropStale(s, i);
    DropStaleShape(s, i);
    next := Earlier(t, i, first);
  }

  lemma {:induction false} ScanShape(s: Shard, i: nat, first: Option<nat>)
    requires IsQueue(s, i) && ScanOk(s, i, first)
    ensures var (t, f) := Scan(s, i, first);
      && |t.ttlQueues| == |s.ttlQueues| && t.data == s.data && t.bytes == s.bytes
      && ScanOk(t, |t.ttlQueues|, f)
    decreases |s.ttlQueues| - i
  {
    if i < |s.ttlQueues| {
      var t := DropStale(s, i);
      DropStaleShape(s, i);
      var next := ScanStep(s, i, first);
      ScanShape(t, i + 1, next);
    }
  }

  lemma {:induction false} ChosenIsCurrent(s: Shard)
    ensures var (t, first) := Chosen(s);
      && t.data == s.data && t.bytes == s.bytes
      && (first.Some? ==> IsQueue(t, first.value) && QueueAt(t, first.value) != []
                          && Current(t.data, QueueAt(t, first.value)[0]))
  {
    ScanShape(s, 0, None);
    var (t, first) := Scan(s, 0, None);
    if first.None? {
      DropStaleShape(t, |t.ttlQueues|);
    }
  }
}
