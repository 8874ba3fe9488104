/** Why the planner is not optimal when a failure domain holds several targets: a fleet it cannot fill. */
module Shortfall {
  import opened Common
  import opened Spans
  import opened Records
  import opened Planner
  import opened Allocator
  import opened Reserve

  /** Two targets `y` and `z` are all there is outside one failure domain. */
  ghost predicate TwoOutside(targets: Targets, c: Criteria, y: Id, z: Id) {
    && y in targets && z in targets
    && forall t, u ::
      && t in targets && u in targets && Eligible(targets[t], c) && Eligible(targets[u], c) && t !in {y, z} && u !in {y, z}
      ==> DomainKey(c.domain, targets[t].target) == DomainKey(c.domain, targets[u].target)
  }

  lemma UsesOneOf(targets: Targets, c: Criteria, r: Record, y: Id, z: Id)
    requires TwoOutside(targets, c, y, z) && Placeable(targets, r, c, 2)
    ensures y in Hosts(r) || z in Hosts(r)
  {
    assert r.placements[0] in r.placements && r.placements[1] in r.placements;
  }

  /** Two fragments per reservation: each uses `y` or `z`, and one that uses both costs a reservation. */
  lemma {:induction false} OutsideUses(targets: Targets, c: Criteria, recs: seq<Record>, y: Id, z: Id)
    requires TwoOutside(targets, c, y, z) && recs != [] && {y, z} <= Hosts(recs[0])
    requires forall r :: r in recs ==> Placeable(targets, r, c, 2)
    ensures UseCount(recs, y) + UseCount(recs, z) > |recs|
  {
    var front, r := recs[..|recs| - 1], recs[|recs| - 1];
    if front != [] {
      OutsideUses(targets, c, front, y, z);
      UsesOneOf(targets, c, r, y, z);
    }
  }

  lemma FirstCosts(targets: Targets, c: Criteria, recs: seq<Record>, y: Id, z: Id)
    requires ValidTargets(targets) && Achievable(targets, c, 2, recs)
    requires TwoOutside(targets, c, y, z) && recs != [] && {y, z} <= Hosts(recs[0])
    ensures |recs| < FreeOn(targets, y) + FreeOn(targets, z)
  {
    OutsideUses(targets, c, recs, y, z);
    UsesFree(targets, recs, y);
    UsesFree(targets, recs, z);
  }

  /** `y` and `z` are freer than every other target, and each is a failure domain of its own. */
  ghost predicate Lopsided(targets: Targets, c: Criteria, y: Id, z: Id) {
    && c.domain != AnyDomain && TwoOutside(targets, c, y, z)
    && Eligible(targets[y], c) && Eligible(targets[z], c)
    && DomainKey(c.domain, targets[y].target) != DomainKey(c.domain, targets[z].target)
    && forall t :: t in targets && Eligible(targets[t], c) && t !in {y, z} ==>
      && targets[t].target.freeGranules < Min(targets[y].target.freeGranules, targets[z].target.freeGranules)
      && DomainKey(c.domain, targets[t].target) !in {DomainKey(c.domain, targets[y].target), DomainKey(c.domain, targets[z].target)}
  }

  /** Freest first: a fragment on a smaller target would have gone to `t`, unless the other fragment did. */
  lemma FreerIsTaken(targets: Targets, c: Criteria, recs: seq<Record>, y: Id, z: Id, i: nat, t: Id)
    requires ValidTargets(targets) && Lopsided(targets, c, y, z) && i < 2 && (t == y || t == z)
    requires recs != [] && Placeable(targets, recs[0], c, 2) && FirstIsFreest(Offered(targets, c), recs)
    ensures recs[0].placements[i].target in {y, z} || recs[0].placements[1 - i].target == t
  {
    var view, ps := Offered(targets, c), recs[0].placements;
    var p, q := ps[i], ps[1 - i];
    assert p in ps && q in ps && t in view;
    if p.target !in {y, z} && q.target != t {
      assert targets[p.target].target.freeGranules < targets[t].target.freeGranules;
      assert view[q.target].key != view[t].key by {
        assert DomainKey(c.domain, targets[q.target].target) != DomainKey(c.domain, targets[t].target);
      }
      assert forall j :: 0 <= j < 2 && j != i ==> ps[j] == q;
    }
  }

  lemma FirstOnBoth(targets: Targets, c: Criteria, recs: seq<Record>, y: Id, z: Id)
    requires ValidTargets(targets) && Lopsided(targets, c, y, z)
    requires recs != [] && Placeable(targets, recs[0], c, 2) && FirstIsFreest(Offered(targets, c), recs)
    ensures {y, z} <= Hosts(recs[0])
  {
    var ps := recs[0].placements;
    FreerIsTaken(targets, c, recs, y, z, 0, y);
    FreerIsTaken(targets, c, recs, y, z, 0, z);
    FreerIsTaken(targets, c, recs, y, z, 1, y);
    FreerIsTaken(targets, c, recs, y, z, 1, z);
    assert ps[0] in ps && ps[1] in ps;
  }

  /** In a lopsided fleet the planner makes fewer reservations than the two large targets could serve. */
  method PlanLopsided(targets: Targets, c: Criteria, batch: nat, ids: seq<Id>, expiresAt: nat, bias: (Id, Id) -> nat,
                      ghost y: Id, ghost z: Id)
    returns (reply: Result<seq<Record>>)
    requires ValidTargets(targets) && Lopsided(targets, c, y, z) && |ids| == batch
    ensures reply.Ok? && |reply.value| < FreeOn(targets, y) + FreeOn(targets, z)
  {
    var targets', dirty;
    reply, targets', dirty := ReserveBatch(targets, c, batch, 2, ids, expiresAt, bias);
    ghost var recs := reply.value;
    if recs != [] {
      assert forall r :: r in recs ==> Placeable(targets, r, c, 2);
      FirstOnBoth(targets, c, recs, y, z);
      FirstCosts(targets, c, recs, y, z);
    }
  }

  // ---- a fleet: four drives of one granule on one server, two of two granules on servers of their own ----

  const Y: Id := [5]
  const Z: Id := [6]

  function Drive(id: Id, server: Id, granules: nat): TargetState {
    TargetState(TargetRecord(id, server, [], [], granules, granules, true, Active), [Span(0, granules)])
  }

  const FLEET: Targets :=
    map t: Id | t in {[0], [1], [2], [3], Y, Z} :: if t in {Y, Z} then Drive(t, t, 2) else Drive(t, [0], 1)

  const PER_NODE: Criteria := Criteria(NodeDomain, {}, None, {}, None)

  lemma DriveSpans(id: Id, server: Id, granules: nat)
    requires granules > 0
    ensures ValidTarget(Drive(id, server, granules))
    ensures forall g: nat :: g < granules ==> g in FreeSet(Drive(id, server, granules).spans)
  {
    var spans := [Span(0, granules)];
    assert spans[1..] == [];
    forall g: nat ensures g in FreeSet(spans) <==> g < granules {
      FreeSetMember(spans, g);
      assert g < granules ==> spans[0].Has(g);
    }
  }

  lemma FleetIsLopsided()
    ensures ValidTargets(FLEET) && Lopsided(FLEET, PER_NODE, Y, Z) && FreeOn(FLEET, Y) + FreeOn(FLEET, Z) == 4
  {
    forall t | t in FLEET ensures FLEET[t].target.id == t && ValidTarget(FLEET[t]) {
      DriveSpans(t, FLEET[t].target.server, FLEET[t].target.freeGranules);
    }
    NodesDiffer(Y, Z);
    NodesDiffer([0], Y);
    NodesDiffer([0], Z);
  }

  lemma NodesDiffer(a: Id, b: Id)
    requires a != b
    ensures NODE_TAG + a != NODE_TAG + b
  {
    if NODE_TAG + a == NODE_TAG + b {
      TagInjective(NODE_TAG, a, b);
    }
  }

  function Large(i: nat): Id {
    if i < 2 then Y else Z
  }

  /** Reservation `i` of a plan that fits: one fragment on a small drive, one on a large one. */
  function Pair(i: nat): Record
    requires i < 4
  {
    Record([i], Reserved, [Placement([i], 0, 0), Placement(Large(i), i % 2, 1)], 0)
  }

  function Best(n: nat): seq<Record>
    requires n <= 4
  {
    seq(n, i requires 0 <= i < n => Pair(i))
  }

  lemma SmallDrive(i: nat)
    requires i < 4
    ensures [i] in FLEET && FLEET[[i]] == Drive([i], [0], 1) && FreeAt(FLEET, ([i], 0))
  {
    DriveSpans([i], [0], 1);
  }

  lemma LargeDrive(t: Id)
    requires t == Y || t == Z
    ensures t in FLEET && FLEET[t] == Drive(t, t, 2) && FreeAt(FLEET, (t, 0)) && FreeAt(FLEET, (t, 1))
  {
    DriveSpans(t, t, 2);
  }

  lemma PairFits(i: nat)
    requires i < 4
    ensures Placeable(FLEET, Pair(i), PER_NODE, 2)
    ensures forall p :: p in Pair(i).placements ==> FreeAt(FLEET, GranuleAt(p))
  {
    SmallDrive(i);
    LargeDrive(Large(i));
    DrivesPlaceable(Pair(i), [i], Large(i));
  }

  lemma DrivesPlaceable(r: Record, small: Id, large: Id)
    requires small in FLEET && FLEET[small] == Drive(small, [0], 1)
    requires large in FLEET && FLEET[large] == Drive(large, large, 2) && large != [0]
    requires |r.placements| == 2 && r.placements[0].target == small && r.placements[1].target == large
    ensures Placeable(FLEET, r, PER_NODE, 2)
  {
    NodesDiffer([0], large);
  }

  lemma PairsDiffer(i: nat, j: nat, p: Placement, q: Placement)
    requires i < j < 4 && p in Pair(i).placements && q in Pair(j).placements
    ensures GranuleAt(p) != GranuleAt(q)
  {
    assert [i][0] != [j][0];
  }

  lemma {:induction false} BestIsDistinct(n: nat)
    requires n <= 4
    ensures DistinctGranules(AllPlacements(Best(n)))
  {
    if n > 0 {
      var front, r := Best(n - 1), Pair(n - 1);
      BestIsDistinct(n - 1);
      assert Best(n) == front + [r];
      AllPlacementsSnoc(front, r);
      forall p, q | p in AllPlacements(front) && q in r.placements ensures GranuleAt(p) != GranuleAt(q) {
        var i := PairOf(n - 1, p);
        PairsDiffer(i, n - 1, p, q);
      }
      DistinctAppended(AllPlacements(front), r.placements);
    }
  }

  lemma DistinctAppended(ps: seq<Placement>, qs: seq<Placement>)
    requires DistinctGranules(ps) && DistinctGranules(qs)
    requires forall p, q :: p in ps && q in qs ==> GranuleAt(p) != GranuleAt(q)
    ensures DistinctGranules(ps + qs)
  {
    forall i, j | 0 <= i < j < |ps + qs| ensures GranuleAt((ps + qs)[i]) != GranuleAt((ps + qs)[j]) {
      if i < |ps| <= j {
        assert ps[i] in ps && qs[j - |ps|] in qs;
      }
    }
  }

  lemma PairOf(n: nat, p: Placement) returns (i: nat)
    requires n <= 4 && p in AllPlacements(Best(n))
    ensures i < n && p in Pair(i).placements
  {
    AllPlacementsMember(Best(n), p);
    var r :| r in Best(n) && p in r.placements;
    i :| i < n && Best(n)[i] == r;
  }

  lemma BestIsAchievable()
    ensures Achievable(FLEET, PER_NODE, 2, Best(4)) && |Best(4)| == 4
  {
    BestIsDistinct(4);
    forall r | r in Best(4) ensures Placeable(FLEET, r, PER_NODE, 2) {
      var i: nat :| i < 4 && Best(4)[i] == r;
      PairFits(i);
    }
    forall p | p in AllPlacements(Best(4)) ensures FreeAt(FLEET, GranuleAt(p)) {
      var i := PairOf(4, p);
      PairFits(i);
    }
  }

  /** Four reservations fit into the fleet; whatever the tie-break, the planner makes at most three. */
  method GreedyFallsShort(ids: seq<Id>, expiresAt: nat, bias: (Id, Id) -> nat) returns (reply: Result<seq<Record>>)
    requires |ids| == 4
    ensures Achievable(FLEET, PER_NODE, 2, Best(4))
    ensures reply.Ok? && |reply.value| < |Best(4)|
  {
    FleetIsLopsided();
    BestIsAchievable();
    reply := PlanLopsided(FLEET, PER_NODE, 4, ids, expiresAt, bias, Y, Z);
  }
}
