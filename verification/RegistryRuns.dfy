/** The registry over runs of received manifests and sweeps: whose entry it holds, and which. */
module RegistryRuns {
  import opened Bytes
  import opened ManifestCodec
  import opened Registry

  /** One call on the registry: Upsert of a manifest from a source, or Evict. */
  datatype Step = Receive(src: Id16, m: Manifest, at: int) | Sweep(at: int)

  /** The entries after a run on an empty registry. */
  function Held(ttl: int, run: seq<Step>): Entries {
    if run == [] then map[]
    else
      var n := |run| - 1;
      var es := Held(ttl, run[..n]);
      match run[n]
      case Receive(src, m, at) => Upserted(es, src, m, ttl, at)
      case Sweep(at) => Evicted(es, at)
  }

  predicate From(s: Step, k: Key) {
    s.Receive? && Key(s.src, s.m.instanceID) == k
  }

  /** Step `j` received the latest manifest of announcer `k`. */
  predicate LatestAt(run: seq<Step>, k: Key, j: nat) {
    j < |run| && From(run[j], k) && forall i :: j < i < |run| ==> !From(run[i], k)
  }

  /** Step `j` received the latest manifest of `k`, which is not a shutdown, and no sweep since
      then came at or after that manifest's own epoch plus lifetime, or receipt plus lifetime when
      it has no epoch. */
  predicate Stands(ttl: int, run: seq<Step>, k: Key, j: nat) {
    && LatestAt(run, k, j)
    && !HasBit(run[j].m.flags, SHUTDOWN)
    && forall i :: j < i < |run| && run[i].Sweep? ==>
         run[i].at < (if run[j].m.epoch != 0 then run[j].m.epoch * SECOND else run[j].at) + Lifetime(run[j].m, ttl)
  }

  lemma {:induction false} StandsUnique(ttl: int, run: seq<Step>, k: Key, i: nat, j: nat)
    requires Stands(ttl, run, k, i) && Stands(ttl, run, k, j)
    ensures i == j
  {
  }

  lemma {:induction false} StandsNext(ttl: int, run: seq<Step>, k: Key, j: nat)
    requires run != [] && j < |run| - 1
    ensures var n := |run| - 1;
      Stands(ttl, run, k, j) <==>
        && Stands(ttl, run[..n], k, j) && !From(run[n], k)
        && (run[n].Sweep? ==> run[n].at < ExpiresAt(run[j].m, ttl, run[j].at))
  {
    hide Lifetime;
    var n := |run| - 1;
    var prev := run[..n];
    assert forall i :: 0 <= i < n ==> prev[i] == run[i];
    if Stands(ttl, prev, k, j) && !From(run[n], k)
       && (run[n].Sweep? ==> run[n].at < ExpiresAt(run[j].m, ttl, run[j].at))
    {
      assert LatestAt(run, k, j);
    }
  }

  lemma {:induction false} StandsNow(ttl: int, run: seq<Step>, k: Key)
    requires run != []
    ensures Stands(ttl, run, k, |run| - 1) <==>
      From(run[|run| - 1], k) && !HasBit(run[|run| - 1].m.flags, SHUTDOWN)
  {
  }

  /** After any run an announcer has an entry exactly when its latest manifest stands, which at
      most one does, and the entry is that manifest's. */
  lemma {:induction false} HeldExactly(ttl: int, run: seq<Step>, k: Key)
    ensures forall i: nat, j: nat :: Stands(ttl, run, k, i) && Stands(ttl, run, k, j) ==> i == j
    ensures k in Held(ttl, run) <==> exists j: nat :: Stands(ttl, run, k, j)
    ensures forall j: nat :: Stands(ttl, run, k, j) ==>
      k in Held(ttl, run) && Held(ttl, run)[k] == EntryFor(k, run[j].m, ttl, run[j].at)
    decreases |run|
  {
    hide Stands, EntryFor, HasBit, ExpiresAt;
    forall i: nat, j: nat | Stands(ttl, run, k, i) && Stands(ttl, run, k, j) ensures i == j {
      StandsUnique(ttl, run, k, i, j);
    }
    if run == [] {
      assert forall j: nat :: !Stands(ttl, run, k, j) by { NobodyStands(ttl, k); }
    } else {
      var n := |run| - 1;
      HeldExactly(ttl, run[..n], k);
      StandsNow(ttl, run, k);
      StandsInRun(ttl, run, k);
      StandsInRun(ttl, run[..n], k);
      forall j: nat | j < n
        ensures Stands(ttl, run, k, j) ==>
          k in Held(ttl, run) && Held(ttl, run)[k] == EntryFor(k, run[j].m, ttl, run[j].at)
      {
        HeldEarlier(ttl, run, k, j);
      }
      if k in Held(ttl, run) && !From(run[n], k) {
        var j: nat :| Stands(ttl, run[..n], k, j);
        HeldEarlier(ttl, run, k, j);
      }
    }
  }

  lemma {:induction false} NobodyStands(ttl: int, k: Key)
    ensures forall j: nat :: !Stands(ttl, [], k, j)
  {
  }

  lemma {:induction false} StandsInRun(ttl: int, run: seq<Step>, k: Key)
    ensures forall j: nat :: Stands(ttl, run, k, j) ==> j < |run| && run[j].Receive?
  {
  }

  /** A manifest of an earlier step stands after one more exactly while its entry is kept. */
  lemma {:induction false} HeldEarlier(ttl: int, run: seq<Step>, k: Key, j: nat)
    requires run != [] && j < |run| - 1
    requires Stands(ttl, run[..|run| - 1], k, j) ==>
      k in Held(ttl, run[..|run| - 1])
      && Held(ttl, run[..|run| - 1])[k] == EntryFor(k, run[j].m, ttl, run[j].at)
    ensures Stands(ttl, run[..|run| - 1], k, j) && !From(run[|run| - 1], k) ==>
      (k in Held(ttl, run) <==> Stands(ttl, run, k, j))
    ensures Stands(ttl, run, k, j) ==> k in Held(ttl, run) && Held(ttl, run)[k] == EntryFor(k, run[j].m, ttl, run[j].at)
  {
    hide Stands, HasBit, ExpiresAt, ExpandGroups;
    StandsNext(ttl, run, k, j);
  }

  // ---- sweeps ---------------------------------------------------------------------------

  /** Sweeps read a clock that does not step back. */
  predicate Clocked(run: seq<Step>) {
    forall i, j :: 0 <= i < j < |run| && run[i].Sweep? && run[j].Sweep? ==> run[i].at <= run[j].at
  }

  /** Right after a sweep the registry holds exactly the announcers whose latest manifest is not a
      shutdown and has not expired by the sweep's time. */
  lemma {:induction false} SweptIsValid(ttl: int, run: seq<Step>, k: Key)
    requires Clocked(run) && run != [] && run[|run| - 1].Sweep?
    ensures k in Held(ttl, run) <==>
      exists j: nat :: LatestAt(run, k, j) && !HasBit(run[j].m.flags, SHUTDOWN)
                       && run[|run| - 1].at < ExpiresAt(run[j].m, ttl, run[j].at)
  {
    hide Held, HasBit, EntryFor, Lifetime;
    HeldExactly(ttl, run, k);
    if j: nat :| LatestAt(run, k, j) && !HasBit(run[j].m.flags, SHUTDOWN)
                 && run[|run| - 1].at < ExpiresAt(run[j].m, ttl, run[j].at)
    {
      assert Stands(ttl, run, k, j);
    }
  }

  /** Without one an expired manifest is still held, and listed by Snapshot. */
  lemma {:induction false} UnsweptStaysHeld(src: Id16, m: Manifest, at: int)
    requires !HasBit(m.flags, SHUTDOWN) && m.epoch == 1 && m.ttl == 1 && at >= 2 * SECOND
    ensures var run := [Receive(src, m, at)];
      var k := Key(src, m.instanceID);
      k in Held(0, run) && Held(0, run)[k].expiresAt <= at
  {
    hide ExpandGroups, HasBit;
    assert [Receive(src, m, at)][..0] == [];
  }

  // ---- who asks for a width -------------------------------------------------------------

  /** The announcers whose standing manifest is authoritative and declares the width. */
  ghost function Backers(ttl: int, run: seq<Step>, bits: byte): set<Key> {
    set j | 0 <= j < |run| && Backs(ttl, run, j, bits) :: Key(run[j].src, run[j].m.instanceID)
  }

  predicate Backs(ttl: int, run: seq<Step>, j: nat, bits: byte) {
    && j < |run| && run[j].Receive? && Stands(ttl, run, Key(run[j].src, run[j].m.instanceID), j)
    && HasBit(run[j].m.flags, AUTHORITATIVE) && run[j].m.shardBits == bits
  }

  /** In a snapshot of the registry the authoritative entries of a width are those of its
      backers. */
  lemma {:induction false} SnapshotBackers(ttl: int, run: seq<Step>, snap: seq<Entry>, bits: byte)
    requires IsSnapshot(Held(ttl, run), snap)
    ensures (set e | e in snap && Authoritative(e) && e.shardBits == bits :: e.key) == Backers(ttl, run, bits)
  {
    hide Held, HasBit, Stands, ExpandGroups, Ordered, ExpiresAt;
    var keys := set e | e in snap && Authoritative(e) && e.shardBits == bits :: e.key;
    forall k | k in keys ensures k in Backers(ttl, run, bits) {
      var e :| e in snap && Authoritative(e) && e.shardBits == bits && e.key == k;
      HeldExactly(ttl, run, k);
      var j: nat :| Stands(ttl, run, k, j);
      StandsFrom(ttl, run, k, j);
      assert Backs(ttl, run, j, bits);
    }
    forall k | k in Backers(ttl, run, bits) ensures k in keys {
      var j :| 0 <= j < |run| && Backs(ttl, run, j, bits) && Key(run[j].src, run[j].m.instanceID) == k;
      HeldExactly(ttl, run, k);
      assert Held(ttl, run)[k] in snap;
    }
  }

  lemma {:induction false} StandsFrom(ttl: int, run: seq<Step>, k: Key, j: nat)
    requires Stands(ttl, run, k, j)
    ensures j < |run| && From(run[j], k)
  {
  }

  // ---- the registry object --------------------------------------------------------------

  lemma {:induction false} HeldReceived(ttl: int, run: seq<Step>, src: Id16, m: Manifest, now: int)
    ensures Held(ttl, run + [Receive(src, m, now)]) == Upserted(Held(ttl, run), src, m, ttl, now)
  {
    hide Upserted;
    assert (run + [Receive(src, m, now)])[..|run|] == run;
  }

  lemma {:induction false} HeldSwept(ttl: int, run: seq<Step>, now: int)
    ensures Held(ttl, run + [Sweep(now)]) == Evicted(Held(ttl, run), now)
  {
    assert (run + [Sweep(now)])[..|run|] == run;
  }

  class RegistryObject {
    const defaultTTL: int
    var entries: Entries
    ghost var history: seq<Step>

    /** The entries are those the calls so far account for. */
    ghost predicate Valid()
      reads this
    {
      entries == Held(defaultTTL, history) && Filed(entries)
    }

    constructor (defaultTTL: int)
      ensures Valid() && history == [] && this.defaultTTL == defaultTTL
    {
      this.defaultTTL := defaultTTL;
      entries := map[];
      history := [];
    }

    method Upsert(src: Id16, m: Manifest, now: int)
      requires Valid()
      modifies this
      ensures Valid() && history == old(history) + [Receive(src, m, now)]
      ensures forall k :: k != Key(src, m.instanceID) ==>
        (k in entries <==> k in old(entries)) && (k in entries ==> entries[k] == old(entries)[k])
    {
      HeldReceived(defaultTTL, history, src, m, now);
      hide HasBit, ExpandGroups, Held;
      history := history + [Receive(src, m, now)];
      var k := Key(src, m.instanceID);
      if HasBit(m.flags, SHUTDOWN) {
        entries := entries - {k};
        return;
      }
      var ttl := m.ttl * SECOND;
      if ttl == 0 {
        ttl := defaultTTL;
        if ttl == 0 {
          ttl := 3 * m.announceInterval * SECOND;
        }
      }
      var expiresAt := now + ttl;
      if m.epoch != 0 {
        expiresAt := m.epoch * SECOND + ttl;
      }
      var groups := Expand(m);
      entries := entries[k := Entry(k, m.flags, m.shardBits, m.announceInterval, m.sources, groups,
                                    m.successor, m.domains, expiresAt)];
    }

    method Evict(now: int)
      requires Valid()
      modifies this
      ensures Valid() && history == old(history) + [Sweep(now)]
    {
      hide Held;
      var todo := entries.Keys;
      while todo != {}
        invariant todo <= old(entries.Keys) && history == old(history)
        invariant entries.Keys <= old(entries.Keys) && todo <= entries.Keys
        invariant forall k :: k in entries ==> entries[k] == old(entries)[k]
        invariant forall k :: k in old(entries) && k !in todo ==> (k in entries <==> now < old(entries)[k].expiresAt)
        decreases todo
      {
        var k :| k in todo;
        if !(now < entries[k].expiresAt) {
          entries := entries - {k};
        }
        todo := todo - {k};
      }
      assert entries == Evicted(old(entries), now);
      history := history + [Sweep(now)];
      HeldSwept(defaultTTL, old(history), now);
    }

    method Snapshot() returns (snap: seq<Entry>)
      requires Valid()
      ensures IsSnapshot(entries, snap) && IsSnapshot(Held(defaultTTL, history), snap)
    {
      hide KeyBefore, Held;
      snap := [];
      var todo := entries.Keys;
      while todo != {}
        invariant todo <= entries.Keys && Ordered(snap)
        invariant forall e :: e in snap ==> e.key in entries && entries[e.key] == e && e.key !in todo
        invariant forall k :: k in entries && k !in todo ==> entries[k] in snap
        decreases todo
      {
        var k :| k in todo;
        snap := Insert(snap, entries[k]);
        todo := todo - {k};
      }
    }
  }
}
