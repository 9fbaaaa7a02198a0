/** The evaluator's tallying loops and candidate selection. Map iteration order is arbitrary. */
module EvaluatorTally {
  import opened Bytes
  import opened Domains
  import opened ManifestCodec
  import opened Registry
  import opened Evaluator

  // ---- tallies --------------------------------------------------------------------------

  lemma {:induction false} TallyCounts<T(!new)>(bs: seq<Ballot<T>>, v: T)
    ensures v in TallyOf(bs) <==> Count(bs, v) > 0
    ensures v in TallyOf(bs) ==> TallyOf(bs)[v].count == Count(bs, v)
  {
    if bs != [] {
      TallyCounts(bs[..|bs| - 1], v);
    }
  }

  lemma {:induction false} TallyNext<T(!new)>(bs: seq<Ballot<T>>, b: Ballot<T>)
    ensures TallyOf(bs + [b]) == Bump(TallyOf(bs), b)
  {
    assert (bs + [b])[..|bs|] == bs;
  }

  lemma {:induction false} TalliedMeansCast<T(!new)>(bs: seq<Ballot<T>>, v: T)
    ensures v in TallyOf(bs) <==> exists i :: 0 <= i < |bs| && bs[i].value == v
  {
    if bs != [] {
      var n := |bs| - 1;
      TalliedMeansCast(bs[..n], v);
      if v in TallyOf(bs[..n]) {
        var i :| 0 <= i < n && bs[..n][i].value == v;
        assert bs[i].value == v;
      }
      if i :| 0 <= i < |bs| && bs[i].value == v {
        assert i < n ==> bs[..n][i].value == v;
      }
    }
  }

  /** Two distinct candidates were tallied exactly when two announcers disagree. */
  lemma {:induction false} ManyMeansDisagree<T(!new)>(bs: seq<Ballot<T>>)
    ensures |TallyOf(bs)| > 1 <==> Disagree(bs)
  {
    var keys := TallyOf(bs).Keys;
    forall v ensures v in keys <==> exists i :: 0 <= i < |bs| && bs[i].value == v {
      TalliedMeansCast(bs, v);
    }
    hide TallyOf;
    if |keys| > 1 {
      var v, w := TwoOf(keys);
      var i :| 0 <= i < |bs| && bs[i].value == v;
      var j :| 0 <= j < |bs| && bs[j].value == w;
      assert Disagree(bs);
    }
    if Disagree(bs) {
      var i, j :| 0 <= i < |bs| && 0 <= j < |bs| && bs[i].value != bs[j].value;
      assert {bs[i].value, bs[j].value} <= keys;
      Fewer({bs[i].value, bs[j].value}, keys);
    }
  }

  lemma {:induction false} TwoOf<T>(s: set<T>) returns (v: T, w: T)
    requires |s| > 1
    ensures v in s && w in s && v != w
  {
    v :| v in s;
    assert s == (s - {v}) + {v};
    w :| w in s - {v};
  }

  lemma {:induction false} Fewer<T>(a: set<T>, b: set<T>)
    requires a <= b
    ensures |a| <= |b|
  {
    if a != {} {
      var x :| x in a;
      Fewer(a - {x}, b - {x});
    }
  }

  /** Whether some tallied candidate differs from the pin. */
  method AnyOther<T(==, !new)>(m: map<T, Tally>, pin: T, ghost bs: seq<Ballot<T>>) returns (r: bool)
    requires m == TallyOf(bs)
    ensures r <==> Dissents(bs, pin)
  {
    var left := m.Keys;
    r := false;
    while left != {}
      invariant left <= m.Keys
      invariant r ==> exists v :: v in m && v != pin
      invariant !r ==> forall v :: v in m && v !in left ==> v == pin
    {
      var v :| v in left;
      left := left - {v};
      if v != pin {
        r := true;
      }
    }
    if r {
      ghost var v :| v in m && v != pin;
      TalliedMeansCast(bs, v);
    }
    forall i | 0 <= i < |bs| ensures bs[i].value in m {
      TalliedMeansCast(bs, bs[i].value);
    }
  }

  /** The candidate with the most ballots, if it has quorum. */
  method Best<T(==, !new)>(m: map<T, Tally>, quorum: nat, ghost bs: seq<Ballot<T>>) returns (best: Option<T>)
    requires m == TallyOf(bs) && quorum >= 1
    ensures best.Some? <==> HasQuorum(bs, quorum)
    ensures best.Some? ==> Leads(bs, quorum, best.value) && best.value in m
  {
    best := None;
    var count: nat := 0;
    var left := m.Keys;
    while left != {}
      invariant left <= m.Keys
      invariant forall v :: v in m && v !in left ==> m[v].count <= count
      invariant best.None? ==> count == 0
      invariant best.Some? ==> best.value in m && m[best.value].count == count
    {
      var v :| v in left;
      left := left - {v};
      if m[v].count > count {
        best, count := Some(v), m[v].count;
      }
    }
    forall v ensures Count(bs, v) <= count && (v in m ==> m[v].count == Count(bs, v)) {
      TallyCounts(bs, v);
    }
    if count < quorum {
      best := None;
    }
  }

  /** Where there is a quorum, some candidate leads. */
  lemma {:induction false} LeaderExists<T(!new)>(bs: seq<Ballot<T>>, quorum: nat) returns (v: T)
    requires HasQuorum(bs, quorum)
    ensures Leads(bs, quorum, v)
  {
    v := Foremost(bs);
  }

  lemma {:induction false} Foremost<T(!new)>(bs: seq<Ballot<T>>) returns (v: T)
    requires bs != []
    ensures forall w: T :: Count(bs, w) <= Count(bs, v)
  {
    var n := |bs| - 1;
    v := bs[n].value;
    if n > 0 {
      var u := Foremost(bs[..n]);
      if Count(bs, u) > Count(bs, v) {
        v := u;
      }
    }
  }

  lemma {:induction false} ALeader<T(!new)>(bs: seq<Ballot<T>>, quorum: nat, other: T) returns (v: T)
    ensures HasQuorum(bs, quorum) ==> Leads(bs, quorum, v)
  {
    v := other;
    if HasQuorum(bs, quorum) {
      v := LeaderExists(bs, quorum);
    }
  }

  // ---- tallying a snapshot --------------------------------------------------------------

  method Collect<T(==)>(acc: set<T>, xs: seq<T>) returns (r: set<T>)
    ensures r == acc + set x | x in xs
  {
    r := acc;
    for i := 0 to |xs|
      invariant r == acc + set x | x in xs[..i]
    {
      r := r + {xs[i]};
      assert xs[..i + 1] == xs[..i] + [xs[i]];
    }
    assert xs[..|xs|] == xs;
  }

  datatype TopTally = TopTally(
    bits: map<byte, Tally>, modes: map<bool, Tally>, succs: map<SuccKey, Tally>,
    pilots: nat, groups: set<u16>, sources: set<Id16>)

  /** The tallies of the transaction plane over a snapshot. */
  function TopTallyOf(snap: seq<Entry>): TopTally {
    var es := Auth(snap);
    TopTally(TallyOf(BitsBallots(es)), TallyOf(ModeBallots(es)), TallyOf(SuccBallots(es)),
             |es|, PilotGroups(es), SourceSet(snap))
  }

  method TallyTop(snap: seq<Entry>) returns (r: TopTally)
    ensures r == TopTallyOf(snap)
  {
    hide TopTallyOf;
    r := TopTally(map[], map[], map[], 0, {}, {});
    assert r == TopTallyOf([]) by { EmptyTally(); }
    for i := 0 to |snap|
      invariant r == TopTallyOf(snap[..i])
    {
      var e := snap[i];
      assert snap[..i + 1] == snap[..i] + [e];
      TopTallyNext(snap[..i], e);
      var sources := Collect(r.sources, e.sources);
      if !Authoritative(e) {
        r := r.(sources := sources);
        continue;
      }
      var groups := r.groups;
      if PilotOnly(e) {
        groups := Collect(groups, e.groups);
      }
      var succs := r.succs;
      if e.successor.Some? {
        succs := Bump(succs, Ballot(SuccKeyOf(e.successor.value), e.announceInterval));
      }
      r := TopTally(Bump(r.bits, Ballot(e.shardBits, e.announceInterval)),
                    Bump(r.modes, Ballot(SourceModeSSM(e), e.announceInterval)),
                    succs, r.pilots + 1, groups, sources);
    }
    assert snap[..|snap|] == snap;
  }

  lemma {:induction false} EmptyTally()
    ensures TopTallyOf([]) == TopTally(map[], map[], map[], 0, {}, {})
  {
    assert Auth([]) == [];
    assert PilotGroups([]) == {};
    assert SourceSet([]) == {};
  }

  lemma {:induction false} TopTallyNext(snap: seq<Entry>, e: Entry)
    ensures var r, was := TopTallyOf(snap + [e]), TopTallyOf(snap);
      && r.sources == was.sources + (set s | s in e.sources)
      && (!Authoritative(e) ==> r == was.(sources := r.sources))
      && (Authoritative(e) ==>
            && r.bits == Bump(was.bits, Ballot(e.shardBits, e.announceInterval))
            && r.modes == Bump(was.modes, Ballot(SourceModeSSM(e), e.announceInterval))
            && r.succs == (if e.successor.Some?
                           then Bump(was.succs, Ballot(SuccKeyOf(e.successor.value), e.announceInterval))
                           else was.succs)
            && r.pilots == was.pilots + 1
            && r.groups == was.groups + (if PilotOnly(e) then set g | g in e.groups else {}))
  {
    hide TallyOf, Bump, Authoritative, PilotOnly, SourceModeSSM;
    var es, all := Auth(snap), snap + [e];
    assert all[..|snap|] == snap;
    SourcesNext(snap, e);
    AuthNext(snap, e);
    if Authoritative(e) {
      var more := es + [e];
      assert more[..|es|] == es;
      TallyNext(BitsBallots(es), Ballot(e.shardBits, e.announceInterval));
      TallyNext(ModeBallots(es), Ballot(SourceModeSSM(e), e.announceInterval));
      if e.successor.Some? {
        TallyNext(SuccBallots(es), Ballot(SuccKeyOf(e.successor.value), e.announceInterval));
      } else {
        assert SuccBallots(more) == SuccBallots(es);
      }
      GroupsNext(es, e);
    }
  }

  lemma {:induction false} SourcesNext(snap: seq<Entry>, e: Entry)
    ensures SourceSet(snap + [e]) == SourceSet(snap) + set s | s in e.sources
  {
    assert e in snap + [e];
  }

  lemma {:induction false} GroupsNext(es: seq<Entry>, e: Entry)
    ensures PilotGroups(es + [e]) == PilotGroups(es) + if PilotOnly(e) then set g | g in e.groups else {}
  {
    hide PilotOnly;
    assert e in es + [e];
  }

  // ---- tallying the object planes -------------------------------------------------------

  datatype PlaneTally = PlaneTally(bits: map<byte, Tally>, modes: map<bool, Tally>, succs: map<SuccKey, Tally>)

  function PlaneTallyOf(ss: seq<Said>): PlaneTally {
    PlaneTally(TallyOf(PlaneBits(ss)), TallyOf(PlaneModes(ss)), TallyOf(PlaneSuccs(ss)))
  }

  /** The tally kept for plane `id` is that of the descriptors `ss`; the transaction plane and
      planes without descriptors have none. */
  ghost predicate PlaneTallied(m: map<byte, PlaneTally>, id: byte, ss: seq<Said>) {
    && (id in m <==> id != 0 && ss != [])
    && (id in m ==> m[id] == PlaneTallyOf(ss))
  }

  method TallyPlanes(snap: seq<Entry>) returns (m: map<byte, PlaneTally>)
    ensures forall id: byte :: PlaneTallied(m, id, SaidOf(Auth(snap), id))
  {
    hide PlaneTallied, SaidOf, Auth;
    m := map[];
    assert forall id: byte :: PlaneTallied(m, id, SaidOf(Auth([]), id)) by { NothingSaid(); }
    for i := 0 to |snap|
      invariant forall id: byte :: PlaneTallied(m, id, SaidOf(Auth(snap[..i]), id))
    {
      var e := snap[i];
      assert snap[..i + 1] == snap[..i] + [e];
      AuthNext(snap[..i], e);
      if !Authoritative(e) {
        continue;
      }
      m := TallyDomains(m, e, Auth(snap[..i]));
    }
    assert snap[..|snap|] == snap;
  }

  lemma {:induction false} NothingSaid()
    ensures forall id: byte :: PlaneTallied(map[], id, SaidOf(Auth([]), id))
  {
    assert Auth([]) == [];
  }

  lemma {:induction false} AuthNext(snap: seq<Entry>, e: Entry)
    ensures Auth(snap + [e]) == if Authoritative(e) then Auth(snap) + [e] else Auth(snap)
  {
    assert (snap + [e])[..|snap|] == snap;
  }

  method TallyDomains(was: map<byte, PlaneTally>, e: Entry, ghost es: seq<Entry>) returns (m: map<byte, PlaneTally>)
    requires forall id: byte :: PlaneTallied(was, id, SaidOf(es, id))
    ensures forall id: byte :: PlaneTallied(m, id, SaidOf(es + [e], id))
  {
    hide PlaneTallied, SaidIn, SaidOf, Bump;
    m := was;
    var ds := e.domains;
    forall id: byte ensures PlaneTallied(m, id, SaidSoFar(es, e, 0, id)) {
      SaidNone(es, e, id);
    }
    for j := 0 to |ds|
      invariant forall id: byte :: PlaneTallied(m, id, SaidSoFar(es, e, j, id))
    {
      var d := ds[j];
      ghost var before := m;
      if d.id != 0 {
        var t := if d.id in m then m[d.id] else PlaneTally(map[], map[], map[]);
        var succs := t.succs;
        if d.successor.Some? {
          succs := Bump(succs, Ballot(SuccKeyOf(d.successor.value), e.announceInterval));
        }
        m := m[d.id := PlaneTally(Bump(t.bits, Ballot(d.shardBits, e.announceInterval)),
                                  Bump(t.modes, Ballot(HasBit(d.flags, 1), e.announceInterval)), succs)];
      }
      ghost var next := j + 1;
      forall id: byte ensures PlaneTallied(m, id, SaidSoFar(es, e, next, id)) {
        DomainTallied(before, m, es, e, j, id);
      }
    }
    forall id: byte ensures PlaneTallied(m, id, SaidOf(es + [e], id)) {
      SaidAll(es, e, id);
    }
  }

  function SaidSoFar(es: seq<Entry>, e: Entry, j: nat, id: byte): seq<Said>
    requires j <= |e.domains|
  {
    SaidOf(es, id) + SaidIn(e.domains[..j], e.announceInterval, id)
  }

  lemma {:induction false} SaidNone(es: seq<Entry>, e: Entry, id: byte)
    ensures SaidSoFar(es, e, 0, id) == SaidOf(es, id)
  {
  }

  lemma {:induction false} SaidAll(es: seq<Entry>, e: Entry, id: byte)
    ensures SaidSoFar(es, e, |e.domains|, id) == SaidOf(es + [e], id)
  {
    assert (es + [e])[..|es|] == es;
    assert e.domains[..|e.domains|] == e.domains;
  }

  lemma {:induction false} SaidNext(es: seq<Entry>, e: Entry, j: nat, id: byte)
    requires j < |e.domains|
    ensures SaidSoFar(es, e, j + 1, id)
         == if e.domains[j].id == id then SaidSoFar(es, e, j, id) + [Said(e.domains[j], e.announceInterval)]
            else SaidSoFar(es, e, j, id)
  {
    var ds := e.domains[..j + 1];
    assert ds[..j] == e.domains[..j];
    assert ds[j] == e.domains[j];
  }

  lemma {:induction false} PlaneTallyNext(ss: seq<Said>, d: Domain, interval: u16)
    ensures var t, r := PlaneTallyOf(ss), PlaneTallyOf(ss + [Said(d, interval)]);
      r == PlaneTally(Bump(t.bits, Ballot(d.shardBits, interval)), Bump(t.modes, Ballot(HasBit(d.flags, 1), interval)),
                      if d.successor.Some? then Bump(t.succs, Ballot(SuccKeyOf(d.successor.value), interval))
                        else t.succs)
  {
    hide TallyOf, Bump, HasBit;
    var all := ss + [Said(d, interval)];
    assert all[..|ss|] == ss;
    TallyNext(PlaneBits(ss), Ballot(d.shardBits, interval));
    TallyNext(PlaneModes(ss), Ballot(HasBit(d.flags, 1), interval));
    if d.successor.Some? {
      TallyNext(PlaneSuccs(ss), Ballot(SuccKeyOf(d.successor.value), interval));
    } else {
      assert PlaneSuccs(all) == PlaneSuccs(ss);
    }
  }

  /** The tallies after one more descriptor. */
  ghost function WithDomain(m: map<byte, PlaneTally>, d: Domain, interval: u16): map<byte, PlaneTally> {
    if d.id == 0 then m
    else
      var t := if d.id in m then m[d.id] else PlaneTally(map[], map[], map[]);
      m[d.id := PlaneTally(Bump(t.bits, Ballot(d.shardBits, interval)),
                           Bump(t.modes, Ballot(HasBit(d.flags, 1), interval)),
                           if d.successor.Some? then Bump(t.succs, Ballot(SuccKeyOf(d.successor.value), interval))
                             else t.succs)]
  }

  lemma {:induction false} DomainTallied(was: map<byte, PlaneTally>, m: map<byte, PlaneTally>, es: seq<Entry>,
                                         e: Entry, j: nat, id: byte)
    requires j < |e.domains| && PlaneTallied(was, id, SaidSoFar(es, e, j, id))
    requires m == WithDomain(was, e.domains[j], e.announceInterval)
    ensures PlaneTallied(m, id, SaidSoFar(es, e, j + 1, id))
  {
    hide SaidSoFar, Bump, HasBit, PlaneTallyOf;
    SaidNext(es, e, j, id);
    if e.domains[j].id == id {
      PlaneTallyNext(SaidSoFar(es, e, j, id), e.domains[j], e.announceInterval);
      assert PlaneTallyOf([]) == PlaneTally(map[], map[], map[]) by { NoPlaneTally(); }
    }
  }

  lemma {:induction false} NoPlaneTally()
    ensures PlaneTallyOf([]) == PlaneTally(map[], map[], map[])
  {
  }

  lemma {:induction false} SomethingSaid(es: seq<Entry>, id: byte)
    requires id != 0
    ensures id in Announced(es) <==> SaidOf(es, id) != []
    decreases |es|
  {
    if es != [] {
      var n := |es| - 1;
      SomethingSaid(es[..n], id);
      DomainSaid(es[n].domains, es[n].announceInterval, id);
      AnnouncedNext(es, id);
    }
  }

  lemma {:induction false} AnnouncedNext(es: seq<Entry>, id: byte)
    requires es != [] && id != 0
    ensures var n := |es| - 1;
      id in Announced(es) <==>
        id in Announced(es[..n]) || exists i :: 0 <= i < |es[n].domains| && es[n].domains[i].id == id
  {
    var n := |es| - 1;
    assert es == es[..n] + [es[n]];
    if i :| 0 <= i < |es[n].domains| && es[n].domains[i].id == id {
      assert es[n] in es;
    }
    if id in Announced(es[..n]) {
      var e, i :| e in es[..n] && 0 <= i < |e.domains| && e.domains[i].id == id;
      assert e in es;
    }
  }

  lemma {:induction false} DomainSaid(ds: seq<Domain>, interval: u16, id: byte)
    ensures SaidIn(ds, interval, id) != [] <==> exists i :: 0 <= i < |ds| && ds[i].id == id
  {
    if ds != [] {
      var n := |ds| - 1;
      DomainSaid(ds[..n], interval, id);
      LastHasId(ds, id);
    }
  }

  lemma {:induction false} LastHasId(ds: seq<Domain>, id: byte)
    requires ds != []
    ensures var n := |ds| - 1;
      (exists i :: 0 <= i < |ds| && ds[i].id == id)
      <==> ds[n].id == id || exists i :: 0 <= i < |ds[..n]| && ds[..n][i].id == id
  {
    var n := |ds| - 1;
    if i :| 0 <= i < |ds[..n]| && ds[..n][i].id == id {
      assert ds[i].id == id;
    }
    if i :| 0 <= i < |ds| && ds[i].id == id {
      assert i < n ==> ds[..n][i].id == id;
    }
  }

  method SuccessorHash(k: SuccKey) returns (h: nat)
    ensures h == SuccHash(k)
  {
    h := 0;
    for i := 0 to 16
      invariant h == HashFold(0, k.generation[..i])
    {
      h := (h * 131 + k.generation[i]) % TWO64;
      assert k.generation[..i + 1][..i] == k.generation[..i];
    }
    assert k.generation[..16] == k.generation;
    h := (h * 131 + k.shardBits) % TWO64;
    h := (h * 131 + k.transitionEpoch) % TWO64;
    if k.ssm {
      h := (h * 131 + 1) % TWO64;
    }
  }
}
