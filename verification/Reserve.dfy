/** Reserving against the allocator's targets: candidate domains, planning, and writing back. */
module Reserve {
  import opened Common
  import opened Spans
  import opened Records
  import opened Planner
  import opened Greedy
  import opened Allocator

  /** Which targets a reservation may use. */
  datatype Criteria = Criteria(
    domain: FailureDomain, excluded: set<Id>, banned: Option<Id>, required: set<Id>, shard: Option<Id>)

  predicate Eligible(t: TargetState, c: Criteria) {
    && t.target.healthy
    && t.target.lifecycle == Active
    && t.spans != [] && t.target.freeGranules > 0
    && (c.shard.Some? ==> t.target.shard == c.shard.value)
    && t.target.id !in c.excluded
    && (c.banned.Some? ==> t.target.id != c.banned.value)
    && (c.required == {} || t.target.id in c.required)
  }

  /** The eligible targets under their domain keys. */
  ghost function Offered(targets: Targets, c: Criteria): View
    requires c.domain != AnyDomain
  {
    map t | t in targets && Eligible(targets[t], c) :: Slot(DomainKey(c.domain, targets[t].target).value, targets[t])
  }

  type Groups = map<Id, seq<TargetState>>

  ghost predicate Grouped(groups: Groups, view: View) {
    && (forall k :: k in groups ==> groups[k] != [] && NoDup(groups[k]))
    && (forall k, m :: k in groups && m in groups[k] ==> m.target.id in view && view[m.target.id] == Slot(k, m))
    && (forall t :: t in view ==> view[t].key in groups && view[t].state in groups[view[t].key])
  }

  lemma GroupNext(groups: Groups, view: View, k: Id, m: TargetState)
    requires Grouped(groups, view) && m.target.id !in view
    ensures var old_ := if k in groups then groups[k] else [];
      Grouped(groups[k := old_ + [m]], view[m.target.id := Slot(k, m)])
  {
    var old_ := if k in groups then groups[k] else [];
    assert m !in old_;
  }

  /** The part of the offer that has been grouped when `todo` is left. */
  ghost function OfferedOutside(targets: Targets, c: Criteria, todo: set<Id>): View
    requires c.domain != AnyDomain
  {
    map t | t in targets && t !in todo && Eligible(targets[t], c) :: Slot(DomainKey(c.domain, targets[t].target).value, targets[t])
  }

  lemma OfferNext(targets: Targets, c: Criteria, todo: set<Id>, t: Id)
    requires c.domain != AnyDomain && t in todo && t in targets
    ensures var now := OfferedOutside(targets, c, todo);
      OfferedOutside(targets, c, todo - {t}) ==
        if Eligible(targets[t], c) then now[t := Slot(DomainKey(c.domain, targets[t].target).value, targets[t])] else now
  {
  }

  /** Groups the eligible targets by failure domain; an unspecified domain is an error once a target qualifies. */
  method GroupByDomain(targets: Targets, c: Criteria) returns (groups: Option<Groups>)
    requires forall t :: t in targets ==> targets[t].target.id == t
    ensures groups.None? <==> c.domain == AnyDomain && exists t :: t in targets && Eligible(targets[t], c)
    ensures groups.Some? && c.domain != AnyDomain ==> Grouped(groups.value, Offered(targets, c))
    ensures groups.Some? && c.domain == AnyDomain ==> groups.value == map[]
  {
    var acc: Groups := map[];
    var todo := targets.Keys;
    while todo != {}
      invariant todo <= targets.Keys
      invariant c.domain == AnyDomain ==>
        acc == map[] && forall t :: t in targets && t !in todo ==> !Eligible(targets[t], c)
      invariant c.domain != AnyDomain ==> Grouped(acc, OfferedOutside(targets, c, todo))
      decreases todo
    {
      var t :| t in todo;
      if c.domain != AnyDomain {
        OfferNext(targets, c, todo, t);
      }
      if Eligible(targets[t], c) {
        var key := DomainKey(c.domain, targets[t].target);
        if key.None? {
          return None;
        }
        GroupNext(acc, OfferedOutside(targets, c, todo), key.value, targets[t]);
        acc := acc[key.value := (if key.value in acc then acc[key.value] else []) + [targets[t]]];
      }
      todo := todo - {t};
    }
    assert c.domain != AnyDomain ==> OfferedOutside(targets, c, {}) == Offered(targets, c);
    groups := Some(acc);
  }

  ghost function Restrict(view: View, keys: set<Id>): View {
    map t | t in view && view[t].key in keys :: view[t]
  }

  lemma AddWellFormed(ds: seq<Domain>, d: Domain)
    requires WellFormed(ds) && NoDup(d.members) && SortedBy(d.members, MemberBefore)
    requires forall e :: e in ds ==> e.key != d.key
    ensures WellFormed(ds + [d])
  {
    assert forall e :: e in ds + [d] <==> e in ds || e == d;
  }

  lemma AddListed(ds: seq<Domain>, d: Domain, now: View, next: View)
    requires Listed(ds, now) && forall t :: t in now ==> t in next && next[t] == now[t]
    requires forall m :: m in d.members ==> m.target.id in next && next[m.target.id] == Slot(d.key, m)
    ensures Listed(ds + [d], next)
  {
    assert forall e :: e in ds + [d] <==> e in ds || e == d;
  }

  lemma AddCovered(ds: seq<Domain>, d: Domain, now: View, next: View)
    requires Covered(ds, now)
    requires forall t :: t in next ==> (t in now && next[t] == now[t]) || (next[t].key == d.key && next[t].state in d.members)
    ensures Covered(ds + [d], next)
  {
    assert d in ds + [d];
    forall t | t in next ensures Holds(ds + [d], next[t]) {
      if t in now && next[t] == now[t] {
        assert Holds(ds, now[t]);
        var e :| e in ds && e.key == next[t].key && next[t].state in e.members;
        assert e in ds + [d];
      }
    }
  }

  lemma AddDomain(ds: seq<Domain>, groups: Groups, view: View, done: set<Id>, k: Id, members: seq<TargetState>)
    requires Grouped(groups, view) && ValidView(view) && Represents(ds, Restrict(view, done))
    requires k in groups && k !in done && forall d :: d in ds ==> d.key in done
    requires multiset(members) == multiset(groups[k]) && SortedBy(members, MemberBefore)
    ensures Represents(ds + [Domain(k, members)], Restrict(view, done + {k}))
  {
    var d, now, next := Domain(k, members), Restrict(view, done), Restrict(view, done + {k});
    PermutationKeepsNoDup(groups[k], members);
    PermutationElems(members, groups[k]);
    AddWellFormed(ds, d);
    AddListed(ds, d, now, next);
    AddCovered(ds, d, now, next);
  }

  /** One domain per key, its members by rank, the domains by their best member. */
  method BuildDomains(groups: Groups, ghost view: View) returns (ds: seq<Domain>)
    requires Grouped(groups, view) && ValidView(view)
    ensures Represents(ds, view)
    ensures forall d :: d in ds ==> d.members != []
  {
    ds := [];
    var todo := groups.Keys;
    ghost var done: set<Id> := {};
    while todo != {}
      invariant done == groups.Keys - todo && todo <= groups.Keys
      invariant forall d :: d in ds ==> d.key in done && d.members != []
      invariant Represents(ds, Restrict(view, done))
      decreases todo
    {
      var k :| k in todo;
      var members := SortMembers(groups[k]);
      assert |members| > 0;
      AddDomain(ds, groups, view, done, k, members);
      ds := ds + [Domain(k, members)];
      todo, done := todo - {k}, done + {k};
    }
    assert Restrict(view, done) == view;
    var sorted := SortDomains(ds, [], (a, b) => 0);
    RepresentsPermutation(ds, sorted, view);
    PermutationElems(ds, sorted);
    ds := sorted;
  }

  // ---- reserving against the targets ----

  /** A reservation of `k` fragments on eligible targets in distinct failure domains. */
  ghost predicate Spread(targets: Targets, r: Record, c: Criteria, k: nat) {
    && r.state == Reserved
    && |r.placements| == k
    && (forall i :: 0 <= i < k ==>
         && r.placements[i].fragment == i
         && r.placements[i].target in targets
         && Eligible(targets[r.placements[i].target], c))
    && (forall i, j :: 0 <= i < j < k ==>
         DomainKey(c.domain, targets[r.placements[i].target].target) !=
         DomainKey(c.domain, targets[r.placements[j].target].target))
  }

  /** The reservations take distinct granules that were free, and the free spans lose exactly those. */
  ghost predicate ReservedFrom(targets: Targets, targets': Targets, recs: seq<Record>) {
    var taken := AllPlacements(recs);
    && SameFleet(targets, targets')
    && ValidTargets(targets')
    && DistinctGranules(taken)
    && (forall x :: x in GranulesOf(taken) ==> FreeAt(targets, x))
    && (forall x :: FreeAt(targets', x) <==> FreeAt(targets, x) && x !in GranulesOf(taken))
    && (forall r :: r in recs ==> r.state == Reserved)
  }

  /** The failure domains that still offer a free granule. */
  ghost function OpenDomains(targets: Targets, c: Criteria): set<Option<Id>> {
    set t | t in targets && Eligible(targets[t], c) :: DomainKey(c.domain, targets[t].target)
  }

  method FindMember(ds: seq<Domain>, t: Id, ghost view: View) returns (found: Option<TargetState>)
    requires Represents(ds, view)
    ensures found == if t in view then Some(view[t].state) else None
  {
    for i := 0 to |ds|
      invariant forall a, m :: 0 <= a < i && m in ds[a].members ==> m.target.id != t
    {
      var members := ds[i].members;
      for j := 0 to |members|
        invariant forall b :: 0 <= b < j ==> members[b].target.id != t
      {
        if members[j].target.id == t {
          MemberSlots(ds, view, i);
          assert members[j] in ds[i].members;
          return Some(members[j]);
        }
      }
    }
    if t in view {
      ghost var a := DomainOf(ds, view, t);
      assert false;
    }
    return None;
  }

  function Copied(t: TargetState, from: TargetState): TargetState {
    TargetState(t.target.(freeGranules := from.target.freeGranules), from.spans)
  }

  /** The table of targets after the dirty ones took over their planned spans. */
  ghost predicate CopiedBack(targets: Targets, targets': Targets, dirty: set<Id>, view: View) {
    && targets'.Keys == targets.Keys
    && forall t :: t in targets ==>
      targets'[t] == if t in dirty && t in view then Copied(targets[t], view[t].state) else targets[t]
  }

  lemma CopyOne(targets: Targets, targets': Targets, done: set<Id>, view: View, t: Id)
    requires CopiedBack(targets, targets', done, view)
    ensures t in view && t in targets && t !in done ==>
      CopiedBack(targets, targets'[t := Copied(targets'[t], view[t].state)], done + {t}, view)
    ensures t !in view || t !in targets ==> CopiedBack(targets, targets', done + {t}, view)
  {
  }

  /** Copies the planned spans of the dirty targets back into the table of targets. */
  method WriteBack(targets: Targets, ds: seq<Domain>, dirty: set<Id>, ghost view: View) returns (targets': Targets)
    requires Represents(ds, view)
    ensures CopiedBack(targets, targets', dirty, view)
  {
    targets' := targets;
    var todo := dirty;
    ghost var done: set<Id> := {};
    while todo != {}
      invariant todo + done == dirty && todo !! done
      invariant CopiedBack(targets, targets', done, view)
      decreases todo
    {
      var t :| t in todo;
      var found := FindMember(ds, t, view);
      CopyOne(targets, targets', done, view, t);
      if found.Some? && t in targets' {
        targets' := targets'[t := Copied(targets'[t], found.value)];
      }
      todo, done := todo - {t}, done + {t};
    }
  }

  /** Copying back gives each target its old spans without what was taken from it. */
  lemma CopiedSpans(targets: Targets, c: Criteria, view: View, view': View, taken: seq<Placement>, targets': Targets, t: Id)
    requires ValidTargets(targets) && c.domain != AnyDomain && view == Offered(targets, c)
    requires Consumes(view, view', taken) && WereFree(view, taken) && ValidView(view')
    requires CopiedBack(targets, targets', TargetsOf(taken), view') && t in targets
    ensures FreeSet(targets'[t].spans) == FreeSet(targets[t].spans) - TakenFrom(t, taken)
    ensures ValidTarget(targets'[t]) && targets'[t].target.id == t
    ensures t in view ==> FreeSet(targets'[t].spans) == FreeSet(view'[t].state.spans)
  {
    if t !in TargetsOf(taken) {
      assert TakenFrom(t, taken) == {};
    } else {
      var p :| p in taken && p.target == t;
      assert t in view;
    }
  }

  lemma PlanSpreads(targets: Targets, c: Criteria, k: nat, view: View, r: Record)
    requires c.domain != AnyDomain && view == Offered(targets, c) && SpreadOver(view, r, k)
    ensures Spread(targets, r, c, k)
  {
  }

  /** What planning on the offered targets means for the table they came from. */
  lemma PlannedIsReserved(targets: Targets, c: Criteria, k: nat, view: View, view': View, recs: seq<Record>, targets': Targets)
    requires ValidTargets(targets) && c.domain != AnyDomain && view == Offered(targets, c)
    requires Planned(view, view', recs, k) && ValidView(view')
    requires CopiedBack(targets, targets', TargetsOf(AllPlacements(recs)), view')
    ensures ReservedFrom(targets, targets', recs)
    ensures forall r :: r in recs ==> Spread(targets, r, c, k)
    ensures forall t :: t in view ==> FreeSet(targets'[t].spans) == FreeSet(view'[t].state.spans)
  {
    var taken := AllPlacements(recs);
    forall t | t in targets
      ensures FreeSet(targets'[t].spans) == FreeSet(targets[t].spans) - TakenFrom(t, taken)
      ensures ValidTarget(targets'[t]) && targets'[t].target.id == t
      ensures t in view ==> FreeSet(targets'[t].spans) == FreeSet(view'[t].state.spans)
    {
      CopiedSpans(targets, c, view, view', taken, targets', t);
    }
    forall r | r in recs ensures Spread(targets, r, c, k) {
      PlanSpreads(targets, c, k, view, r);
    }
    forall p | p in taken ensures FreeAt(targets, GranuleAt(p)) {
      assert p.target in view;
    }
    TakenIsReserved(targets, targets', recs);
  }

  lemma TakenIsReserved(targets: Targets, targets': Targets, recs: seq<Record>)
    requires SameFleet(targets, targets') && ValidTargets(targets') && DistinctGranules(AllPlacements(recs))
    requires forall t :: t in targets ==>
      FreeSet(targets'[t].spans) == FreeSet(targets[t].spans) - TakenFrom(t, AllPlacements(recs))
    requires forall p :: p in AllPlacements(recs) ==> FreeAt(targets, GranuleAt(p))
    requires forall r :: r in recs ==> r.state == Reserved
    ensures ReservedFrom(targets, targets', recs)
  {
    TakenGranules(AllPlacements(recs));
  }

  lemma TakenGranules(taken: seq<Placement>)
    ensures forall x: Granule :: x in GranulesOf(taken) <==> x.1 in TakenFrom(x.0, taken)
  {
    forall x: Granule ensures x in GranulesOf(taken) <==> x.1 in TakenFrom(x.0, taken) {
      if x in GranulesOf(taken) { var p :| p in taken && GranuleAt(p) == x; }
      if x.1 in TakenFrom(x.0, taken) {
        var p :| p in taken && p.target == x.0 && p.granule == x.1;
        assert GranuleAt(p) == x;
      }
    }
  }

  /** Planning ended early only because fewer than `k` failure domains still offer a granule. */
  lemma OpenDomainsLeft(targets: Targets, c: Criteria, view: View, view': View, targets': Targets)
    requires ValidTargets(targets) && ValidTargets(targets') && SameFleet(targets, targets')
    requires c.domain != AnyDomain && view == Offered(targets, c) && view'.Keys == view.Keys
    requires forall t :: t in view ==> view'[t].key == view[t].key && FreeSet(targets'[t].spans) == FreeSet(view'[t].state.spans)
    requires forall x :: FreeAt(targets', x) ==> FreeAt(targets, x)
    ensures |OpenDomains(targets', c)| <= |DomainsWithFree(view')|
  {
    var open := OpenDomains(targets', c);
    var keys := set k | k in DomainsWithFree(view') :: Some(k);
    forall o | o in open ensures o in keys {
      var t :| t in targets' && Eligible(targets'[t], c) && DomainKey(c.domain, targets'[t].target) == o;
      CountIsSize(targets'[t].spans);
      var g :| g in FreeSet(targets'[t].spans);
      assert FreeAt(targets', (t, g)) && FreeAt(targets, (t, g));
      CountIsSize(targets[t].spans);
      assert Eligible(targets[t], c) && t in view;
    }
    SubsetSize(open, keys);
    SomeKeysSize(DomainsWithFree(view'));
  }

  lemma {:induction false} SomeKeysSize(s: set<Id>)
    ensures |set k | k in s :: Some(k)| <= |s|
  {
    if s != {} {
      var x :| x in s;
      SomeKeysSize(s - {x});
      assert (set k | k in s :: Some(k)) == (set k | k in s - {x} :: Some(k)) + {Some(x)};
    }
  }

  // ---- failure domains that hold one target each ----

  /** No two eligible targets share a failure domain; with drive domains this is always so. */
  ghost predicate OnePerDomain(targets: Targets, c: Criteria) {
    && c.domain != AnyDomain
    && forall t, u ::
      && t in targets && u in targets && Eligible(targets[t], c) && Eligible(targets[u], c)
      && DomainKey(c.domain, targets[t].target) == DomainKey(c.domain, targets[u].target)
      ==> t == u
  }

  lemma DrivesArePerDomain(targets: Targets, c: Criteria)
    requires ValidTargets(targets) && c.domain == DriveDomainLab
    ensures OnePerDomain(targets, c)
  {
    forall t, u | t in targets && u in targets && TARGET_TAG + t == TARGET_TAG + u ensures t == u {
      TagInjective(TARGET_TAG, t, u);
    }
  }

  ghost predicate ListsEligible(order: seq<Id>, targets: Targets, c: Criteria) {
    NoDup(order) && forall t :: t in order <==> t in targets && Eligible(targets[t], c)
  }

  ghost function FreeOn(targets: Targets, t: Id): nat {
    if t in targets then targets[t].target.freeGranules else 0
  }

  ghost function FreeCounts(targets: Targets, order: seq<Id>): seq<nat> {
    MapSeq(order, t => FreeOn(targets, t))
  }

  lemma TagInjective(tag: Id, a: Id, b: Id)
    requires tag + a == tag + b
    ensures a == b
  {
    assert (tag + a)[|tag|..] == a && (tag + b)[|tag|..] == b;
  }

  lemma SingleDomains(ds: seq<Domain>, targets: Targets, c: Criteria)
    requires ValidTargets(targets) && OnePerDomain(targets, c) && Represents(ds, Offered(targets, c))
    requires forall d :: d in ds ==> d.members != []
    ensures AllSingle(ds)
  {
    forall d | d in ds ensures |d.members| == 1 {
      var i :| 0 <= i < |ds| && ds[i] == d;
      MemberSlots(ds, Offered(targets, c), i);
      var first := d.members[0];
      assert first in d.members;
      assert forall x :: x in d.members ==> x == first;
      assert Elems(d.members) == {first};
      NoDupSize(d.members);
    }
  }

  ghost function FirstId(d: Domain): Id {
    if d.members == [] then [] else d.members[0].target.id
  }

  lemma FirstIds(ds: seq<Domain>, view: View, i: nat)
    requires Represents(ds, view) && AllSingle(ds) && i < |ds|
    ensures FirstId(ds[i]) in view && view[FirstId(ds[i])] == Slot(ds[i].key, ds[i].members[0])
    ensures forall t :: t in view && view[t].state in ds[i].members ==> FirstId(ds[i]) == t
  {
    assert ds[i] in ds && ds[i].members[0] in ds[i].members;
    MemberSlots(ds, view, i);
  }

  lemma FirstIdsNoDup(ds: seq<Domain>, view: View)
    requires Represents(ds, view) && AllSingle(ds)
    ensures NoDup(MapSeq(ds, FirstId))
  {
    var ids := MapSeq(ds, FirstId);
    forall i, j | 0 <= i < j < |ids| ensures ids[i] != ids[j] {
      FirstIds(ds, view, i);
      FirstIds(ds, view, j);
      MemberSlots(ds, view, i);
    }
  }

  lemma FirstIdsElems(ds: seq<Domain>, view: View)
    requires Represents(ds, view) && AllSingle(ds)
    ensures Elems(MapSeq(ds, FirstId)) == view.Keys
  {
    var ids := MapSeq(ds, FirstId);
    forall t | t in ids ensures t in view {
      var i :| 0 <= i < |ids| && ids[i] == t;
      FirstIds(ds, view, i);
    }
    forall t | t in view ensures t in ids {
      var a := DomainOf(ds, view, t);
      FirstIds(ds, view, a);
      assert ids[a] == t;
    }
  }

  /** The heads the planner sees are the free counts of the eligible targets. */
  lemma SingleHeads(ds: seq<Domain>, targets: Targets, c: Criteria, order: seq<Id>)
    requires c.domain != AnyDomain && Represents(ds, Offered(targets, c)) && AllSingle(ds)
    requires ListsEligible(order, targets, c)
    ensures multiset(Heads(ds)) == multiset(FreeCounts(targets, order))
  {
    var ids := MapSeq(ds, FirstId);
    var free := (t: Id) => FreeOn(targets, t);
    SinglesListed(ds, targets, c, order);
    MapOfPermutation(ids, order, free);
    HeadsByTarget(ds, targets, c, free);
    assert FreeCounts(targets, order) == MapSeq(order, free);
  }

  lemma SinglesListed(ds: seq<Domain>, targets: Targets, c: Criteria, order: seq<Id>)
    requires c.domain != AnyDomain && Represents(ds, Offered(targets, c)) && AllSingle(ds)
    requires ListsEligible(order, targets, c)
    ensures multiset(MapSeq(ds, FirstId)) == multiset(order)
  {
    var view, ids := Offered(targets, c), MapSeq(ds, FirstId);
    FirstIdsNoDup(ds, view);
    FirstIdsElems(ds, view);
    assert Elems(order) == view.Keys;
    NoDupPermutation(ids, order);
  }

  lemma HeadsByTarget(ds: seq<Domain>, targets: Targets, c: Criteria, free: Id -> nat)
    requires c.domain != AnyDomain && Represents(ds, Offered(targets, c)) && AllSingle(ds)
    requires forall t :: t in targets ==> free(t) == targets[t].target.freeGranules
    ensures Heads(ds) == MapSeq(MapSeq(ds, FirstId), free)
  {
    HeadsAreFree(ds, targets, c);
  }

  lemma HeadsAreFree(ds: seq<Domain>, targets: Targets, c: Criteria)
    requires c.domain != AnyDomain && Represents(ds, Offered(targets, c)) && AllSingle(ds)
    ensures forall i :: 0 <= i < |ds| ==>
      FirstId(ds[i]) in targets && HeadFree(ds[i]) == targets[FirstId(ds[i])].target.freeGranules
  {
    forall i | 0 <= i < |ds|
      ensures FirstId(ds[i]) in targets && HeadFree(ds[i]) == targets[FirstId(ds[i])].target.freeGranules
    {
      FirstIds(ds, Offered(targets, c), i);
      assert targets[FirstId(ds[i])] == ds[i].members[0] && Viable(ds[i].members[0]);
      assert FirstViable(ds[i].members) == 0;
    }
  }

  lemma OptimalOfPermutation(s: seq<nat>, t: seq<nat>, k: nat, batch: nat, r: nat)
    requires multiset(s) == multiset(t) && Optimal(s, k, batch, r)
    ensures Optimal(t, k, batch, r)
  {
    forall m: nat ensures Supply(s, m) == Supply(t, m) { SupplyOfPermutation(s, t, m); }
    forall more: nat | r < more <= batch ensures !Feasible(t, k, more) { assert !Feasible(s, k, more); }
  }

  // ---- in terms of the fields of a target ----

  /** A target in service with room for a granule that the request does not rule out. */
  predicate Usable(t: TargetRecord, c: Criteria) {
    && t.healthy && t.lifecycle == Active && t.freeGranules > 0
    && (c.shard.None? || t.shard == c.shard.value)
    && t.id !in c.excluded && c.banned != Some(t.id) && (c.required == {} || t.id in c.required)
  }

  /** On different drives, servers or racks, whichever the request spreads over. */
  predicate InDifferentDomains(domain: FailureDomain, a: TargetRecord, b: TargetRecord) {
    match domain
    case AnyDomain => false
    case DriveDomainLab => a.id != b.id
    case NodeDomain => a.server != b.server
    case RackDomain => a.rack != b.rack
  }

  lemma EligibleIff(t: TargetState, c: Criteria)
    requires ValidTarget(t)
    ensures Eligible(t, c) <==> Usable(t.target, c)
  {
  }

  lemma DomainKeyMeaning(domain: FailureDomain, a: TargetRecord, b: TargetRecord)
    ensures DomainKey(domain, a) != DomainKey(domain, b) <==> InDifferentDomains(domain, a, b)
  {
    if DomainKey(domain, a) == DomainKey(domain, b) {
      match domain
      case AnyDomain =>
      case DriveDomainLab => TagInjective(TARGET_TAG, a.id, b.id);
      case NodeDomain => TagInjective(NODE_TAG, a.server, b.server);
      case RackDomain => TagInjective(RACK_TAG, a.rack, b.rack);
    }
  }

  /** A planned reservation is on usable targets, no two of them on the same drive, server or rack. */
  lemma SpreadMeaning(targets: Targets, r: Record, c: Criteria, k: nat, i: nat, j: nat)
    requires ValidTargets(targets) && Spread(targets, r, c, k) && i < j < k
    ensures var t, u := targets[r.placements[i].target].target, targets[r.placements[j].target].target;
      Usable(t, c) && Usable(u, c) && InDifferentDomains(c.domain, t, u)
  {
    var t, u := targets[r.placements[i].target], targets[r.placements[j].target];
    EligibleIff(t, c);
    EligibleIff(u, c);
    DomainKeyMeaning(c.domain, t.target, u.target);
  }

  /** When too few domains are open, no `k` usable targets are left in different domains. */
  lemma NoneLeftOut(targets: Targets, c: Criteria, k: nat, ids: seq<Id>)
    requires ValidTargets(targets) && |OpenDomains(targets, c)| < k
    requires forall i :: 0 <= i < |ids| ==> ids[i] in targets && Usable(targets[ids[i]].target, c)
    requires forall i, j :: 0 <= i < j < |ids| ==> InDifferentDomains(c.domain, targets[ids[i]].target, targets[ids[j]].target)
    ensures |ids| < k
  {
    var keys := seq(|ids|, i requires 0 <= i < |ids| => DomainKey(c.domain, targets[ids[i]].target));
    forall i, j | 0 <= i < j < |ids| ensures keys[i] != keys[j] {
      DomainKeyMeaning(c.domain, targets[ids[i]].target, targets[ids[j]].target);
    }
    forall key | key in Elems(keys) ensures key in OpenDomains(targets, c) {
      var i :| 0 <= i < |ids| && keys[i] == key;
      EligibleIff(targets[ids[i]], c);
    }
    NoDupSize(keys);
    SubsetSize(Elems(keys), OpenDomains(targets, c));
  }

  // ---- no planner does better ----

  /** `k` placements on eligible targets in distinct failure domains. */
  ghost predicate Placeable(targets: Targets, r: Record, c: Criteria, k: nat) {
    && |r.placements| == k
    && (forall i :: 0 <= i < k ==> r.placements[i].target in targets && Eligible(targets[r.placements[i].target], c))
    && (forall i, j :: 0 <= i < j < k ==>
         DomainKey(c.domain, targets[r.placements[i].target].target) !=
         DomainKey(c.domain, targets[r.placements[j].target].target))
  }

  /** Reservations that some planner could make: spread over failure domains, out of distinct free granules. */
  ghost predicate Achievable(targets: Targets, c: Criteria, k: nat, recs: seq<Record>) {
    && (forall r :: r in recs ==> Placeable(targets, r, c, k))
    && DistinctGranules(AllPlacements(recs))
    && (forall x :: x in GranulesOf(AllPlacements(recs)) ==> FreeAt(targets, x))
  }

  ghost function Hosts(r: Record): set<Id> {
    set p | p in r.placements :: p.target
  }

  lemma HostCount(targets: Targets, r: Record, c: Criteria, k: nat)
    requires Placeable(targets, r, c, k)
    ensures |Hosts(r)| == k
    ensures forall t :: t in Hosts(r) ==> t in targets && Eligible(targets[t], c)
  {
    var ts := MapSeq(r.placements, (p: Placement) => p.target);
    forall t | t in Hosts(r) ensures t in ts && t in targets && Eligible(targets[t], c) {
      var p :| p in r.placements && p.target == t;
      var i :| 0 <= i < k && r.placements[i] == p;
      assert ts[i] == t;
    }
    forall t | t in ts ensures t in Hosts(r) {
      var i :| 0 <= i < |ts| && ts[i] == t;
      assert r.placements[i] in r.placements;
    }
    assert Elems(ts) == Hosts(r);
    NoDupSize(ts);
  }

  /** How many of the reservations use target `t`. */
  ghost function UseCount(recs: seq<Record>, t: Id): nat {
    if recs == [] then 0
    else UseCount(recs[..|recs| - 1], t) + if t in Hosts(recs[|recs| - 1]) then 1 else 0
  }

  lemma DistinctPrefix(ps: seq<Placement>, qs: seq<Placement>)
    requires DistinctGranules(ps + qs)
    ensures DistinctGranules(ps)
    ensures forall p, q :: p in ps && q in qs ==> GranuleAt(p) != GranuleAt(q)
  {
    assert forall i :: 0 <= i < |ps| ==> (ps + qs)[i] == ps[i];
    forall p, q | p in ps && q in qs ensures GranuleAt(p) != GranuleAt(q) {
      var i :| 0 <= i < |ps| && ps[i] == p;
      var j :| 0 <= j < |qs| && qs[j] == q;
      assert GranuleAt((ps + qs)[i]) != GranuleAt((ps + qs)[|ps| + j]);
    }
  }

  /** Distinct granules: a target serves at most as many reservations as granules were taken from it. */
  lemma {:induction false} UsesTaken(recs: seq<Record>, t: Id)
    requires DistinctGranules(AllPlacements(recs))
    ensures UseCount(recs, t) <= |TakenFrom(t, AllPlacements(recs))|
    ensures UseCount(recs, t) <= |recs|
  {
    if recs != [] {
      var front, r := recs[..|recs| - 1], recs[|recs| - 1];
      assert AllPlacements(recs) == AllPlacements(front) + r.placements;
      DistinctPrefix(AllPlacements(front), r.placements);
      UsesTaken(front, t);
      TakenNext(AllPlacements(front), r, t);
    }
  }

  lemma TakenNext(ps: seq<Placement>, r: Record, t: Id)
    requires forall p, q :: p in ps && q in r.placements ==> GranuleAt(p) != GranuleAt(q)
    ensures |TakenFrom(t, ps + r.placements)| >= |TakenFrom(t, ps)| + if t in Hosts(r) then 1 else 0
  {
    var before, after := TakenFrom(t, ps), TakenFrom(t, ps + r.placements);
    assert before <= after;
    if t in Hosts(r) {
      var p :| p in r.placements && p.target == t;
      assert p.granule !in before && p.granule in after;
      SubsetSize(before + {p.granule}, after);
    } else {
      SubsetSize(before, after);
    }
  }

  lemma UsesFree(targets: Targets, recs: seq<Record>, t: Id)
    requires ValidTargets(targets) && t in targets && DistinctGranules(AllPlacements(recs))
    requires forall x :: x in GranulesOf(AllPlacements(recs)) ==> FreeAt(targets, x)
    ensures UseCount(recs, t) <= Min(FreeOn(targets, t), |recs|)
  {
    UsesTaken(recs, t);
    var taken := TakenFrom(t, AllPlacements(recs));
    forall g | g in taken ensures g in FreeSet(targets[t].spans) {
      var p :| p in AllPlacements(recs) && p.target == t && p.granule == g;
      assert GranuleAt(p) in GranulesOf(AllPlacements(recs));
      assert FreeAt(targets, GranuleAt(p));
    }
    SubsetSize(taken, FreeSet(targets[t].spans));
    CountIsSize(targets[t].spans);
  }

  ghost function TotalUses(order: seq<Id>, recs: seq<Record>): nat {
    if order == [] then 0 else UseCount(recs, order[0]) + TotalUses(order[1..], recs)
  }

  lemma {:induction false} TotalUsesNext(order: seq<Id>, recs: seq<Record>)
    requires NoDup(order) && recs != []
    ensures TotalUses(order, recs) ==
      TotalUses(order, recs[..|recs| - 1]) + |Hosts(recs[|recs| - 1]) * Elems(order)|
  {
    var hosts := Hosts(recs[|recs| - 1]);
    if order == [] {
      assert hosts * Elems(order) == {};
    } else {
      TotalUsesNext(order[1..], recs);
      HostsCons(hosts, order);
    }
  }

  lemma HostsCons(hosts: set<Id>, order: seq<Id>)
    requires NoDup(order) && order != []
    ensures |hosts * Elems(order)| == |hosts * Elems(order[1..])| + if order[0] in hosts then 1 else 0
  {
    var t, rest := order[0], Elems(order[1..]);
    assert t !in rest && Elems(order) == rest + {t};
    assert hosts * Elems(order) == if t in hosts then hosts * rest + {t} else hosts * rest;
  }

  /** Counted by target or by reservation, the placements are the same. */
  lemma {:induction false} TotalUsesIs(targets: Targets, c: Criteria, k: nat, order: seq<Id>, recs: seq<Record>)
    requires ListsEligible(order, targets, c) && forall r :: r in recs ==> Placeable(targets, r, c, k)
    ensures TotalUses(order, recs) == k * |recs|
  {
    if recs == [] {
      NoUses(order);
    } else {
      var front, r := recs[..|recs| - 1], recs[|recs| - 1];
      TotalUsesIs(targets, c, k, order, front);
      TotalUsesNext(order, recs);
      assert r in recs;
      HostCount(targets, r, c, k);
      assert Hosts(r) * Elems(order) == Hosts(r);
      assert k * |recs| == k * |front| + k;
    }
  }

  lemma {:induction false} NoUses(order: seq<Id>)
    ensures TotalUses(order, []) == 0
  {
    if order != [] {
      NoUses(order[1..]);
    }
  }

  lemma {:induction false} SupplyCoversUses(targets: Targets, order: seq<Id>, recs: seq<Record>)
    requires forall t :: t in order ==> UseCount(recs, t) <= Min(FreeOn(targets, t), |recs|)
    ensures TotalUses(order, recs) <= Supply(FreeCounts(targets, order), |recs|)
  {
    if order != [] {
      SupplyCoversUses(targets, order[1..], recs);
      assert FreeCounts(targets, order)[1..] == FreeCounts(targets, order[1..]);
      assert order[0] in order;
    }
  }

  /** Whatever the failure domains, the free counts bound what any planner can make. */
  lemma AnyPlanIsFeasible(targets: Targets, c: Criteria, k: nat, order: seq<Id>, recs: seq<Record>)
    requires ValidTargets(targets) && ListsEligible(order, targets, c) && Achievable(targets, c, k, recs)
    ensures Feasible(FreeCounts(targets, order), k, |recs|)
  {
    forall t | t in order ensures UseCount(recs, t) <= Min(FreeOn(targets, t), |recs|) {
      UsesFree(targets, recs, t);
    }
    SupplyCoversUses(targets, order, recs);
    TotalUsesIs(targets, c, k, order, recs);
  }

  lemma {:induction false} ListTargets(targets: Targets, c: Criteria, todo: set<Id>) returns (order: seq<Id>)
    requires todo <= targets.Keys
    ensures NoDup(order) && forall t :: t in order <==> t in todo && Eligible(targets[t], c)
    decreases todo
  {
    if todo == {} {
      order := [];
    } else {
      var t :| t in todo;
      order := ListTargets(targets, c, todo - {t});
      if Eligible(targets[t], c) {
        order := order + [t];
      }
    }
  }

  /** An optimal batch is as large as any that could be made. */
  lemma OptimalIsLargest(targets: Targets, c: Criteria, k: nat, batch: nat, n: nat, recs: seq<Record>)
    requires ValidTargets(targets) && Achievable(targets, c, k, recs) && |recs| <= batch
    requires forall order :: ListsEligible(order, targets, c) ==> Optimal(FreeCounts(targets, order), k, batch, n)
    ensures |recs| <= n
  {
    var order := ListTargets(targets, c, targets.Keys);
    assert ListsEligible(order, targets, c);
    AnyPlanIsFeasible(targets, c, k, order, recs);
  }

  /**
   * Plans a batch against the targets. With one target per failure domain, the batch is as large as any
   * planner could make it.
   */
  method ReserveBatch(targets: Targets, c: Criteria, batch: nat, k: nat, ids: seq<Id>, expiresAt: nat,
                      bias: (Id, Id) -> nat)
    returns (reply: Result<seq<Record>>, targets': Targets, dirty: set<Id>)
    requires ValidTargets(targets) && |ids| == batch
    ensures batch == 0 ==> reply == Ok([])
    ensures reply.Err? <==>
      batch > 0 && (k == 0 || (c.domain == AnyDomain && exists t :: t in targets && Eligible(targets[t], c)))
    ensures reply.Err? ==> targets' == targets && reply.error == InvalidArgument
    ensures reply.Ok? ==> ReservedFrom(targets, targets', reply.value)
    ensures reply.Ok? ==> Numbered(reply.value, ids, expiresAt)
    ensures reply.Ok? ==> forall r :: r in reply.value ==> Spread(targets, r, c, k)
    ensures reply.Ok? ==> forall t :: t in targets && t !in dirty ==> targets'[t] == targets[t]
    ensures reply.Ok? && |reply.value| < batch ==> |OpenDomains(targets', c)| < k
    ensures reply.Ok? && c.domain != AnyDomain ==> FirstIsFreest(Offered(targets, c), reply.value)
    ensures reply.Ok? && OnePerDomain(targets, c) ==>
      forall recs :: Achievable(targets, c, k, recs) && |recs| <= batch ==> |recs| <= |reply.value|
  {
    targets', dirty := targets, {};
    NothingReserved(targets);
    if batch == 0 {
      return Ok([]), targets', dirty;
    }
    if k == 0 {
      return Err(InvalidArgument), targets', dirty;
    }
    var groups := GroupByDomain(targets, c);
    if groups.None? {
      return Err(InvalidArgument), targets', dirty;
    }
    if c.domain == AnyDomain {
      assert OpenDomains(targets', c) == {};
      return Ok([]), targets', dirty;
    }
    ghost var view := Offered(targets, c);
    var ds := BuildDomains(groups.value, view);
    var next, recs, touched;
    ghost var view';
    next, recs, touched, view' := PlanReservationBatch(ds, batch, k, ids, expiresAt, bias, view);
    dirty := touched;
    targets' := WriteBack(targets, next, dirty, view');
    PlannedIsReserved(targets, c, k, view, view', recs, targets');
    OpenDomainsLeft(targets, c, view, view', targets');
    reply := Ok(recs);
    if OnePerDomain(targets, c) {
      LargestBatch(targets, c, batch, k, ds, |recs|);
    }
  }

  lemma LargestBatch(targets: Targets, c: Criteria, batch: nat, k: nat, ds: seq<Domain>, n: nat)
    requires ValidTargets(targets) && OnePerDomain(targets, c) && Represents(ds, Offered(targets, c))
    requires forall d :: d in ds ==> d.members != []
    requires AllSingle(ds) ==> Optimal(Heads(ds), k, batch, n)
    ensures forall recs :: Achievable(targets, c, k, recs) && |recs| <= batch ==> |recs| <= n
  {
    SingleDomains(ds, targets, c);
    forall order | ListsEligible(order, targets, c) ensures Optimal(FreeCounts(targets, order), k, batch, n) {
      SingleHeads(ds, targets, c, order);
      OptimalOfPermutation(Heads(ds), FreeCounts(targets, order), k, batch, n);
    }
    forall recs | Achievable(targets, c, k, recs) && |recs| <= batch ensures |recs| <= n {
      OptimalIsLargest(targets, c, k, batch, n, recs);
    }
  }

  lemma NothingReserved(targets: Targets)
    requires ValidTargets(targets)
    ensures ReservedFrom(targets, targets, [])
  {
  }

  // ---- a planned batch keeps the ledger sound ----

  lemma {:induction false} AllPlacementsMember(recs: seq<Record>, p: Placement)
    ensures p in AllPlacements(recs) <==> exists r :: r in recs && p in r.placements
  {
    if recs != [] {
      var front, last := recs[..|recs| - 1], recs[|recs| - 1];
      AllPlacementsMember(front, p);
      assert forall r :: r in recs <==> r in front || r == last;
    }
  }

  /** Distinct granules over a whole batch are distinct within and across its reservations. */
  lemma {:induction false} DistinctAcross(recs: seq<Record>)
    requires DistinctGranules(AllPlacements(recs))
    ensures forall r :: r in recs ==> DistinctGranules(r.placements)
    ensures forall i, j :: 0 <= i < j < |recs| ==> GranulesOf(recs[i].placements) !! GranulesOf(recs[j].placements)
  {
    if recs != [] {
      var n := |recs| - 1;
      var front, last := recs[..n], recs[n];
      var ps, qs := AllPlacements(front), last.placements;
      assert AllPlacements(recs) == ps + qs;
      assert forall i :: 0 <= i < |ps| ==> (ps + qs)[i] == ps[i];
      assert forall i :: 0 <= i < |qs| ==> (ps + qs)[|ps| + i] == qs[i];
      DistinctAcross(front);
      forall i, p, q | 0 <= i < n && p in recs[i].placements && q in qs ensures GranuleAt(p) != GranuleAt(q) {
        assert front[i] in front;
        AllPlacementsMember(front, p);
        var a :| 0 <= a < |ps| && ps[a] == p;
        var b :| 0 <= b < |qs| && qs[b] == q;
        assert GranuleAt((ps + qs)[a]) != GranuleAt((ps + qs)[|ps| + b]);
      }
      assert forall r :: r in recs <==> r in front || r == last;
    }
  }

  ghost predicate HeldByNew(recs: seq<Record>, id: Id, x: Granule) {
    exists i :: 0 <= i < |recs| && recs[i].id == id && x in GranulesOf(recs[i].placements)
  }

  lemma {:induction false} InsertAllHeld(res: Reservations, recs: seq<Record>)
    ensures forall id, x :: HeldBy(InsertAll(res, recs), id, x) ==> HeldBy(res, id, x) || HeldByNew(recs, id, x)
    ensures forall id :: id in InsertAll(res, recs) ==>
      (id in res && InsertAll(res, recs)[id] == res[id]) || (InsertAll(res, recs)[id] in recs && InsertAll(res, recs)[id].id == id)
    ensures forall id :: id in res ==> id in InsertAll(res, recs)
  {
    if recs != [] {
      var n := |recs| - 1;
      InsertAllHeld(res, recs[..n]);
      forall id, x | HeldBy(InsertAll(res, recs), id, x) ensures HeldBy(res, id, x) || HeldByNew(recs, id, x) {
        if id != recs[n].id && HeldByNew(recs[..n], id, x) {
          var i :| 0 <= i < n && recs[..n][i].id == id && x in GranulesOf(recs[..n][i].placements);
          assert recs[i].id == id;
        }
      }
    }
  }

  lemma NewGranulesWereFree(targets: Targets, targets': Targets, recs: seq<Record>, id: Id, x: Granule)
    requires ReservedFrom(targets, targets', recs) && HeldByNew(recs, id, x)
    ensures FreeAt(targets, x) && !FreeAt(targets', x)
  {
    var i :| 0 <= i < |recs| && recs[i].id == id && x in GranulesOf(recs[i].placements);
    var p :| p in recs[i].placements && GranuleAt(p) == x;
    assert recs[i] in recs;
    AllPlacementsMember(recs, p);
    assert x in GranulesOf(AllPlacements(recs));
  }

  lemma NewHoldersUnique(recs: seq<Record>, a: Id, b: Id, x: Granule)
    requires DistinctGranules(AllPlacements(recs)) && HeldByNew(recs, a, x) && HeldByNew(recs, b, x)
    ensures a == b
  {
    DistinctAcross(recs);
    var i :| 0 <= i < |recs| && recs[i].id == a && x in GranulesOf(recs[i].placements);
    var j :| 0 <= j < |recs| && recs[j].id == b && x in GranulesOf(recs[j].placements);
  }

  lemma PartIsNew(recs: seq<Record>, part: seq<Record>, id: Id, x: Granule)
    requires HeldByNew(part, id, x) && forall r :: r in part ==> r in recs
    ensures HeldByNew(recs, id, x)
  {
    var i :| 0 <= i < |part| && part[i].id == id && x in GranulesOf(part[i].placements);
    assert part[i] in recs;
    var j :| 0 <= j < |recs| && recs[j] == part[i];
  }

  /** Recording any part of a planned batch keeps the ledger sound once all its granules are taken. */
  lemma PartKeepsSound(targets: Targets, res: Reservations, targets': Targets, recs: seq<Record>, part: seq<Record>)
    requires Sound(targets, res) && ReservedFrom(targets, targets', recs) && forall r :: r in part ==> r in recs
    ensures Sound(targets', InsertAll(res, part))
  {
    var after := InsertAll(res, part);
    InsertAllHeld(res, part);
    DistinctAcross(recs);
    forall id, x | HeldBy(after, id, x)
      ensures InRange(targets', x) && !FreeAt(targets', x)
      ensures !HeldBy(res, id, x) ==> HeldByNew(recs, id, x) && FreeAt(targets, x)
    {
      if !HeldBy(res, id, x) {
        PartIsNew(recs, part, id, x);
        NewGranulesWereFree(targets, targets', recs, id, x);
      }
    }
    forall a, b, x | HeldBy(after, a, x) && HeldBy(after, b, x) ensures a == b {
      if !HeldBy(res, a, x) && !HeldBy(res, b, x) {
        NewHoldersUnique(recs, a, b, x);
      }
    }
  }

  /** Whatever else is reserved, a planned batch never takes a granule that is in use elsewhere. */
  lemma ReserveKeepsSound(targets: Targets, res: Reservations, targets': Targets, recs: seq<Record>)
    requires Sound(targets, res) && ReservedFrom(targets, targets', recs)
    ensures Sound(targets', InsertAll(res, recs))
  {
    PartKeepsSound(targets, res, targets', recs, recs);
  }
}
