/** The registry of received manifests: one entry per announcer, expiring on the announcer's
    own clock, and snapshots in a fixed order. */
module Registry {
  import opened Bytes
  import opened Domains
  import opened ManifestCodec

  const SECOND := 1_000_000_000
  const SHUTDOWN: byte := 4
  const SOURCE_MODE_SSM: byte := 8

  datatype Key = Key(src: Id16, instanceID: u32)

  /** What the registry keeps of a manifest. Times are nanoseconds. */
  datatype Entry = Entry(
    key: Key, flags: byte, shardBits: byte, announceInterval: u16,
    sources: seq<Id16>, groups: seq<u16>, successor: Option<Successor>, domains: seq<Domain>, expiresAt: int)

  predicate Authoritative(e: Entry) {
    HasBit(e.flags, AUTHORITATIVE)
  }

  predicate SourceModeSSM(e: Entry) {
    HasBit(e.flags, SOURCE_MODE_SSM)
  }

  predicate PilotOnly(e: Entry) {
    HasBit(e.flags, PILOT_ONLY)
  }

  type Entries = map<Key, Entry>

  /** Every entry is filed under its own announcer. */
  predicate Filed(es: Entries) {
    forall k :: k in es ==> es[k].key == k
  }

  // ---- groups and sources ---------------------------------------------------------------

  /** One past the highest group index of a width, in 32-bit arithmetic. */
  function GroupLimit(bits: byte): nat {
    if bits < 32 then Pow2(bits) else 0
  }

  function BelowLimit(gs: seq<u16>, limit: nat): seq<u16> {
    if gs == [] then []
    else (if gs[0] < limit then [gs[0]] else []) + BelowLimit(gs[1..], limit)
  }

  predicate BitSet(bitmap: bytes, idx: nat) {
    idx / 8 < |bitmap| && (bitmap[idx / 8] / Pow2(idx % 8)) % 2 == 1
  }

  /** The indices of the set bits from `idx` up, below the limit. */
  function BitsFrom(bitmap: bytes, limit: nat, idx: nat): seq<u16>
    decreases 8 * |bitmap| - idx
  {
    if idx >= 8 * |bitmap| then []
    else (if BitSet(bitmap, idx) && idx < limit then [idx % TWO16] else []) + BitsFrom(bitmap, limit, idx + 1)
  }

  function ExpandGroups(m: Manifest): seq<u16> {
    if !HasBit(m.flags, GROUPS_VALID) then []
    else if m.groups != [] then BelowLimit(m.groups, GroupLimit(m.shardBits))
    else BitsFrom(m.bitmap, GroupLimit(m.shardBits), 0)
  }

  lemma {:induction false} BelowLimitExact(gs: seq<u16>, limit: nat, g: u16)
    ensures g in BelowLimit(gs, limit) <==> g in gs && g < limit
  {
    if gs != [] {
      BelowLimitExact(gs[1..], limit, g);
      assert gs == [gs[0]] + gs[1..];
    }
  }

  lemma {:induction false} BitsFromExact(bitmap: bytes, limit: nat, idx: nat, g: u16)
    requires limit <= TWO16
    ensures g in BitsFrom(bitmap, limit, idx) <==> idx <= g < limit && BitSet(bitmap, g)
    decreases 8 * |bitmap| - idx
  {
    hide BitSet;
    if idx < 8 * |bitmap| {
      BitsFromExact(bitmap, limit, idx + 1, g);
    } else {
      NoBitBeyond(bitmap, idx);
    }
  }

  lemma {:induction false} NoBitBeyond(bitmap: bytes, idx: nat)
    requires idx >= 8 * |bitmap|
    ensures forall g :: g >= idx ==> !BitSet(bitmap, g)
  {
  }

  /** A manifest's groups are exactly the declared indices inside its own plane, in list or in
      bitmap form, for every width a manifest may carry. */
  lemma {:induction false} ExpandedInPlane(m: Manifest, g: u16)
    requires m.shardBits <= MAX_BITS && HasBit(m.flags, GROUPS_VALID)
    ensures g in ExpandGroups(m) <==>
      g < Pow2(m.shardBits) && (if m.groups != [] then g in m.groups else BitSet(m.bitmap, g))
  {
    hide Pow2, BitSet, BelowLimit, BitsFrom;
    if m.groups != [] {
      BelowLimitExact(m.groups, GroupLimit(m.shardBits), g);
    } else {
      WidthLimit(m.shardBits);
      BitsFromExact(m.bitmap, GroupLimit(m.shardBits), 0, g);
    }
  }

  lemma {:induction false} WidthLimit(bits: nat)
    requires bits <= 16
    ensures Pow2(bits) <= TWO16
    decreases 16 - bits
  {
    if bits == 16 {
      assert Pow2(4) == 16;
      assert Pow2(8) == 16 * Pow2(4);
      assert Pow2(12) == 16 * Pow2(8);
      assert Pow2(16) == 16 * Pow2(12);
    } else {
      WidthLimit(bits + 1);
    }
  }

  /** A zero byte contributes no group. */
  lemma {:induction false} ZeroByte(bitmap: bytes, limit: nat, i: nat, bit: nat)
    requires i < |bitmap| && bitmap[i] == 0 && bit <= 8
    ensures BitsFrom(bitmap, limit, 8 * i + bit) == BitsFrom(bitmap, limit, 8 * i + 8)
    decreases 8 - bit
  {
    if bit < 8 {
      ZeroByte(bitmap, limit, i, bit + 1);
      ByteOf(i, bit);
    }
  }

  lemma {:induction false} ByteOf(i: nat, bit: nat)
    requires bit < 8
    ensures (8 * i + bit) / 8 == i && (8 * i + bit) % 8 == bit
  {
  }

  /** The groups of a bitmap, byte by byte and bit by bit. */
  method ExpandBitmap(bitmap: bytes, limit: nat) returns (gs: seq<u16>)
    ensures gs == BitsFrom(bitmap, limit, 0)
  {
    hide BitsFrom;
    gs := [];
    for i := 0 to |bitmap|
      invariant gs + BitsFrom(bitmap, limit, 8 * i) == BitsFrom(bitmap, limit, 0)
    {
      var b := bitmap[i];
      if b == 0 {
        ZeroByte(bitmap, limit, i, 0);
        continue;
      }
      for bit := 0 to 8
        invariant gs + BitsFrom(bitmap, limit, 8 * i + bit) == BitsFrom(bitmap, limit, 0)
      {
        NextBit(bitmap, limit, i, bit);
        if (b / Pow2(bit)) % 2 == 1 && 8 * i + bit < limit {
          gs := gs + [(8 * i + bit) % TWO16];
        }
      }
    }
    NoMoreBits(bitmap, limit);
  }

  lemma {:induction false} NextBit(bitmap: bytes, limit: nat, i: nat, bit: nat)
    requires i < |bitmap| && bit < 8
    ensures BitsFrom(bitmap, limit, 8 * i + bit)
         == (if (bitmap[i] / Pow2(bit)) % 2 == 1 && 8 * i + bit < limit then [(8 * i + bit) % TWO16] else [])
            + BitsFrom(bitmap, limit, 8 * i + bit + 1)
  {
    ByteOf(i, bit);
  }

  lemma {:induction false} NoMoreBits(bitmap: bytes, limit: nat)
    ensures BitsFrom(bitmap, limit, 8 * |bitmap|) == []
  {
  }

  /** The groups a manifest declares. */
  method Expand(m: Manifest) returns (gs: seq<u16>)
    ensures gs == ExpandGroups(m)
  {
    gs := [];
    if !HasBit(m.flags, GROUPS_VALID) {
      return;
    }
    var limit := GroupLimit(m.shardBits);
    if m.groups == [] {
      gs := ExpandBitmap(m.bitmap, limit);
      return;
    }
    gs := ExpandList(m.groups, limit);
  }

  method ExpandList(all: seq<u16>, limit: nat) returns (gs: seq<u16>)
    ensures gs == BelowLimit(all, limit)
  {
    hide BelowLimit;
    gs := [];
    assert all[0..] == all;
    for i := 0 to |all|
      invariant gs + BelowLimit(all[i..], limit) == BelowLimit(all, limit)
    {
      BelowStep(all, limit, i);
      if all[i] < limit {
        gs := gs + [all[i]];
      }
    }
    assert all[|all|..] == [];
    BelowNone(limit);
  }

  lemma {:induction false} BelowStep(all: seq<u16>, limit: nat, i: nat)
    requires i < |all|
    ensures BelowLimit(all[i..], limit) == (if all[i] < limit then [all[i]] else []) + BelowLimit(all[i + 1..], limit)
  {
    assert all[i..][1..] == all[i + 1..];
  }

  lemma {:induction false} BelowNone(limit: nat)
    ensures BelowLimit([], limit) == []
  {
  }

  // ---- upsert and evict -----------------------------------------------------------------

  /** Lifetime of a manifest: its own TTL, else the registry's, else three announce intervals. */
  function Lifetime(m: Manifest, defaultTTL: int): int {
    if m.ttl != 0 then m.ttl * SECOND
    else if defaultTTL != 0 then defaultTTL
    else 3 * m.announceInterval * SECOND
  }

  /** Dated from the announcer's epoch when it has one, else from receipt. */
  function ExpiresAt(m: Manifest, defaultTTL: int, now: int): int {
    (if m.epoch != 0 then m.epoch * SECOND else now) + Lifetime(m, defaultTTL)
  }

  function EntryFor(k: Key, m: Manifest, defaultTTL: int, now: int): Entry {
    Entry(k, m.flags, m.shardBits, m.announceInterval, m.sources, ExpandGroups(m), m.successor, m.domains,
          ExpiresAt(m, defaultTTL, now))
  }

  function Upserted(es: Entries, src: Id16, m: Manifest, defaultTTL: int, now: int): Entries {
    var k := Key(src, m.instanceID);
    if HasBit(m.flags, SHUTDOWN) then es - {k} else es[k := EntryFor(k, m, defaultTTL, now)]
  }

  function Evicted(es: Entries, now: int): Entries {
    map k | k in es && now < es[k].expiresAt :: es[k]
  }

  // ---- snapshots ------------------------------------------------------------------------

  predicate KeyBefore(a: Key, b: Key) {
    GetBE(a.src) < GetBE(b.src) || (a.src == b.src && a.instanceID < b.instanceID)
  }

  predicate Ordered(snap: seq<Entry>) {
    forall i, j :: 0 <= i < j < |snap| ==> KeyBefore(snap[i].key, snap[j].key)
  }

  /** A snapshot lists every entry once, in announcer order. */
  predicate IsSnapshot(es: Entries, snap: seq<Entry>) {
    && Ordered(snap)
    && (forall e :: e in snap ==> e.key in es && es[e.key] == e)
    && (forall k :: k in es ==> es[k] in snap)
  }

  lemma {:induction false} KeyOrder(a: Key, b: Key)
    ensures a != b ==> KeyBefore(a, b) || KeyBefore(b, a)
    ensures KeyBefore(a, b) ==> a != b
  {
    PutGet(a.src);
    PutGet(b.src);
  }

  /** Entries of a snapshot come from distinct announcers. */
  lemma {:induction false} SnapshotDistinct(snap: seq<Entry>)
    requires Ordered(snap)
    ensures forall i, j :: 0 <= i < j < |snap| ==> snap[i].key != snap[j].key
  {
    forall i, j | 0 <= i < j < |snap| ensures snap[i].key != snap[j].key {
      KeyOrder(snap[i].key, snap[j].key);
    }
  }

  /** Insertion into an ordered list, for the library sort the source calls. */
  method Insert(snap: seq<Entry>, e: Entry) returns (out: seq<Entry>)
    requires Ordered(snap) && forall x :: x in snap ==> x.key != e.key
    ensures Ordered(out) && forall x :: x in out <==> x in snap || x == e
  {
    hide GetBE;
    var i := 0;
    while i < |snap| && KeyBefore(snap[i].key, e.key)
      invariant i <= |snap| && forall j :: 0 <= j < i ==> KeyBefore(snap[j].key, e.key)
    {
      i := i + 1;
    }
    out := snap[..i] + [e] + snap[i..];
    assert snap == snap[..i] + snap[i..];
    if i < |snap| {
      assert snap[i] in snap;
      KeyOrder(snap[i].key, e.key);
      AllAfter(snap, e, i);
    }
    InsertedOrdered(snap, e, i);
  }

  lemma {:induction false} AllAfter(snap: seq<Entry>, e: Entry, i: nat)
    requires Ordered(snap) && i < |snap| && KeyBefore(e.key, snap[i].key)
    ensures forall j :: i <= j < |snap| ==> KeyBefore(e.key, snap[j].key)
  {
    hide GetBE;
    forall j | i <= j < |snap| ensures KeyBefore(e.key, snap[j].key) {
      assert j > i ==> KeyBefore(snap[i].key, snap[j].key);
    }
  }

  lemma {:induction false} InsertedOrdered(snap: seq<Entry>, e: Entry, i: nat)
    requires Ordered(snap) && i <= |snap|
    requires forall j :: 0 <= j < i ==> KeyBefore(snap[j].key, e.key)
    requires forall j :: i <= j < |snap| ==> KeyBefore(e.key, snap[j].key)
    ensures Ordered(snap[..i] + [e] + snap[i..])
  {
    hide KeyBefore;
    var out := snap[..i] + [e] + snap[i..];
    assert forall j :: 0 <= j < |out| ==> out[j] == if j < i then snap[j] else if j == i then e else snap[j - 1];
  }
}
