/** Object-plane descriptors: what a valid Domains section is, and why its planes never meet. */
module Domains {
  import opened Bytes
  import opened Sharding

  const MAX_DESCRIPTORS := 15
  const SLOTS := 15
  const FLAG_SUCCESSOR: byte := 2

  /** The incoming generation of an in-flight transition. */
  datatype Successor = Successor(generation: Id16, shardBits: byte, flags: byte, transitionEpoch: u32)

  datatype Domain = Domain(
    id: byte, shardBits: byte, slotSpan: byte, flags: byte, version: byte, generation: Id16,
    successor: Option<Successor>)

  /** What the enclosing manifest contributes to the check. */
  datatype Top = Top(shardBits: byte, generation: Id16, authoritative: bool)

  predicate WithinOneBit(a: byte, b: byte) {
    if a > b then a - b <= 1 else b - a <= 1
  }

  function MaxBits(id: byte): nat {
    if id == 0 then MAX_SHARD_BITS else MAX_PLANE_BITS
  }

  predicate ReachOk(id: byte, bits: byte) {
    PlaneBase(id) + Pow2(bits) <= CONTROL_BASE
  }

  predicate SuccessorOk(d: Domain, top: Top) {
    && (d.successor.Some? <==> HasBit(d.flags, FLAG_SUCCESSOR))
    && (d.successor.Some? ==>
          && top.authoritative
          && d.successor.value.shardBits <= MaxBits(d.id)
          && WithinOneBit(d.shardBits, d.successor.value.shardBits)
          && ReachOk(d.id, d.successor.value.shardBits))
  }

  /** A descriptor on its own. */
  predicate DomainOk(d: Domain, top: Top) {
    && d.id <= DOMAIN_MAX
    && d.shardBits <= MaxBits(d.id)
    && ReachOk(d.id, d.shardBits)
    && SlotSpan(d.shardBits) <= d.slotSpan
    && d.id + d.slotSpan <= SLOTS
    && (d.id == 0 ==> d.shardBits == top.shardBits && d.generation == top.generation)
    && SuccessorOk(d, top)
  }

  predicate Reserves(d: Domain, slot: int) {
    d.id <= slot < d.id + d.slotSpan
  }

  /** No slot is reserved twice. */
  predicate SlotsApart(ds: seq<Domain>) {
    forall i, j, s :: 0 <= i < j < |ds| && 0 <= s < SLOTS && Reserves(ds[i], s) ==> !Reserves(ds[j], s)
  }

  /** A valid Domains section. */
  predicate DomainsOk(ds: seq<Domain>, top: Top) {
    && 1 <= |ds| <= MAX_DESCRIPTORS
    && (forall i :: 0 <= i < |ds| ==> DomainOk(ds[i], top))
    && SlotsApart(ds)
  }

  // ---- planes never meet ----------------------------------------------------------------

  lemma {:induction false} ActiveRange(d: Domain, top: Top, key: Hash32)
    requires DomainOk(d, top)
    ensures ValidPlane(d.id, d.shardBits)
    ensures PlaneBase(d.id) <= PlaneIndex(d.id, d.shardBits, key) < PlaneBase(d.id) + Pow2(d.shardBits) <= CONTROL_BASE
    ensures PlaneBase(d.id) + Pow2(d.shardBits) <= SLOT * (d.id + d.slotSpan)
  {
    hide Pow2, GroupIndex;
    IndexBelow(key, d.shardBits);
    SpanCovers(d.shardBits);
  }

  /** In every accepted section the planes' active index ranges are pairwise disjoint and stay
      below the control range, so no two planes ever map keys to one index. */
  lemma {:induction false} PlanesApart(ds: seq<Domain>, top: Top, i: nat, j: nat, key: Hash32, other: Hash32)
    requires DomainsOk(ds, top) && i < |ds| && j < |ds| && i != j
    ensures PlaneIndex(ds[i].id, ds[i].shardBits, key) != PlaneIndex(ds[j].id, ds[j].shardBits, other)
    ensures PlaneIndex(ds[i].id, ds[i].shardBits, key) < CONTROL_BASE
    ensures ds[i].id != ds[j].id
    ensures || PlaneBase(ds[i].id) + Pow2(ds[i].shardBits) <= PlaneBase(ds[j].id)
            || PlaneBase(ds[j].id) + Pow2(ds[j].shardBits) <= PlaneBase(ds[i].id)
  {
    hide Pow2, PlaneIndex;
    ActiveRange(ds[i], top, key);
    ActiveRange(ds[j], top, other);
    SpansApart(ds, if i < j then i else j, if i < j then j else i, top);
  }

  lemma {:induction false} SpansApart(ds: seq<Domain>, i: nat, j: nat, top: Top)
    requires DomainsOk(ds, top) && i < j < |ds|
    ensures ds[i].id + ds[i].slotSpan <= ds[j].id || ds[j].id + ds[j].slotSpan <= ds[i].id
  {
    hide Pow2;
    assert Reserves(ds[i], ds[i].id) && Reserves(ds[j], ds[j].id);
  }

  // ---- the validator --------------------------------------------------------------------

  predicate Covered(ds: seq<Domain>, s: int) {
    exists i :: 0 <= i < |ds| && Reserves(ds[i], s)
  }

  lemma {:induction false} CoveredNext(ds: seq<Domain>, d: Domain, s: int)
    ensures Covered(ds + [d], s) <==> Covered(ds, s) || Reserves(d, s)
  {
    if Covered(ds, s) {
      var i :| 0 <= i < |ds| && Reserves(ds[i], s);
      assert Reserves((ds + [d])[i], s);
    }
    if Reserves(d, s) {
      assert Reserves((ds + [d])[|ds|], s);
    }
  }

  /** `slots` counts, per slot, the descriptors of `ds` that reserve it. */
  ghost predicate Tallied(ds: seq<Domain>, slots: array<nat>)
    reads slots
  {
    slots.Length == SLOTS && forall s :: 0 <= s < SLOTS ==> slots[s] == if Covered(ds, s) then 1 else 0
  }

  /** Marks the slots of `d`, and reports whether all of them were free. */
  method Reserve(d: Domain, slots: array<nat>, ghost ds: seq<Domain>) returns (free: bool)
    requires Tallied(ds, slots) && d.id + d.slotSpan <= SLOTS
    modifies slots
    ensures free <==> forall s :: 0 <= s < SLOTS && Reserves(d, s) ==> !Covered(ds, s)
    ensures free ==> Tallied(ds + [d], slots)
  {
    hide Covered;
    for s := d.id to d.id + d.slotSpan
      invariant forall t :: 0 <= t < SLOTS ==>
        slots[t] == (if Covered(ds, t) then 1 else 0) + (if d.id <= t < s then 1 else 0)
      invariant forall t :: d.id <= t < s ==> !Covered(ds, t)
    {
      slots[s] := slots[s] + 1;
      if slots[s] > 1 {
        assert Reserves(d, s);
        return false;
      }
    }
    forall t | 0 <= t < SLOTS ensures slots[t] == if Covered(ds + [d], t) then 1 else 0 {
      CoveredNext(ds, d, t);
    }
    free := true;
  }

  /** Every check on one descriptor before its slots are reserved. */
  method CheckDescriptor(d: Domain) returns (ok: bool)
    ensures ok <==> && d.id <= DOMAIN_MAX && d.shardBits <= MaxBits(d.id) && ReachOk(d.id, d.shardBits)
                    && SlotSpan(d.shardBits) <= d.slotSpan && d.id + d.slotSpan <= SLOTS
  {
    if d.id > DOMAIN_MAX || d.shardBits > MaxBits(d.id) || !ReachOk(d.id, d.shardBits) {
      return false;
    }
    ok := SlotSpan(d.shardBits) <= d.slotSpan && d.id + d.slotSpan <= SLOTS;
  }

  /** The decision procedure: accepts exactly the valid sections. */
  method ValidateDomains(ds: seq<Domain>, top: Top) returns (ok: bool)
    ensures ok <==> DomainsOk(ds, top)
  {
    hide DomainOk, Covered;
    if |ds| == 0 || |ds| > MAX_DESCRIPTORS {
      return false;
    }
    var seen := new bool[SLOTS](_ => false);
    var slots := new nat[SLOTS](_ => 0);
    NoneCovered(ds[..0], slots);
    for i := 0 to |ds|
      invariant Tallied(ds[..i], slots) && SlotsApart(ds[..i])
      invariant forall j :: 0 <= j < i ==> DomainOk(ds[j], top)
      invariant forall s :: 0 <= s < SLOTS && seen[s] ==> Covered(ds[..i], s)
    {
      var next := CheckNext(ds, i, top, seen, slots);
      if !next {
        return false;
      }
    }
    assert ds[..|ds|] == ds;
    ok := true;
  }

  /** One descriptor against those before it; reserves its slots. */
  method CheckNext(ds: seq<Domain>, i: nat, top: Top, seen: array<bool>, slots: array<nat>) returns (ok: bool)
    requires i < |ds| && seen.Length == SLOTS && Tallied(ds[..i], slots) && SlotsApart(ds[..i])
    requires forall s :: 0 <= s < SLOTS && seen[s] ==> Covered(ds[..i], s)
    modifies seen, slots
    ensures !ok ==> !DomainOk(ds[i], top) || !SlotsApart(ds)
    ensures ok ==> DomainOk(ds[i], top) && Tallied(ds[..i + 1], slots) && SlotsApart(ds[..i + 1])
    ensures ok ==> forall s :: 0 <= s < SLOTS && seen[s] ==> Covered(ds[..i + 1], s)
  {
    hide DomainOk, Covered;
    var d := ds[i];
    DomainParts(d, top);
    var well := CheckDescriptor(d);
    if !well {
      return false;
    }
    ApartNext(ds, i);
    hide SlotsApart;
    SelfReserved(d);
    if seen[d.id] {
      return false;
    }
    var free := Reserve(d, slots, ds[..i]);
    if !free {
      return false;
    }
    assert ds[..i + 1] == ds[..i] + [d];
    forall s | 0 <= s < SLOTS && (seen[s] || s == d.id) ensures Covered(ds[..i + 1], s) {
      CoveredNext(ds[..i], d, s);
    }
    seen[d.id] := true;
    if d.id == 0 && (d.shardBits != top.shardBits || d.generation != top.generation) {
      return false;
    }
    ok := SuccessorOk(d, top);
  }

  lemma {:induction false} DomainParts(d: Domain, top: Top)
    ensures DomainOk(d, top) <==>
      && d.id <= DOMAIN_MAX && d.shardBits <= MaxBits(d.id) && ReachOk(d.id, d.shardBits)
      && SlotSpan(d.shardBits) <= d.slotSpan && d.id + d.slotSpan <= SLOTS
      && (d.id == 0 ==> d.shardBits == top.shardBits && d.generation == top.generation)
      && SuccessorOk(d, top)
  {
  }

  lemma {:induction false} SelfReserved(d: Domain)
    requires SlotSpan(d.shardBits) <= d.slotSpan
    ensures Reserves(d, d.id)
  {
  }

  lemma {:induction false} NoneCovered(ds: seq<Domain>, slots: array<nat>)
    requires ds == [] && slots.Length == SLOTS && forall s :: 0 <= s < SLOTS ==> slots[s] == 0
    ensures Tallied(ds, slots)
  {
  }

  /** A section is apart only if each next descriptor's slots are free of the earlier ones. */
  lemma {:induction false} ApartNext(ds: seq<Domain>, i: nat)
    requires i < |ds| && SlotsApart(ds[..i])
    ensures SlotsApart(ds) ==> forall s :: 0 <= s < SLOTS && Reserves(ds[i], s) ==> !Covered(ds[..i], s)
    ensures (forall s :: 0 <= s < SLOTS && Reserves(ds[i], s) ==> !Covered(ds[..i], s)) ==> SlotsApart(ds[..i + 1])
  {
    if forall s :: 0 <= s < SLOTS && Reserves(ds[i], s) ==> !Covered(ds[..i], s) {
      var es := ds[..i + 1];
      forall a, b, s | 0 <= a < b < |es| && 0 <= s < SLOTS && Reserves(es[a], s) ensures !Reserves(es[b], s) {
        assert ds[..i][a] == es[a];
        if b == i {
          assert Covered(ds[..i], s);
        } else {
          assert ds[..i][b] == es[b];
        }
      }
    }
  }
}
