/** The batch planner: turns free spans into reservations spread over failure domains. */
module Planner {
  import opened Common
  import opened Spans
  import opened Records
  import opened Greedy

  datatype Domain = Domain(key: Id, members: seq<TargetState>)

  predicate Viable(t: TargetState) {
    t.target.freeGranules > 0 && t.spans != []
  }

  function FirstViable(ms: seq<TargetState>): (i: nat)
    ensures i <= |ms|
    ensures i < |ms| ==> Viable(ms[i])
    ensures forall j :: 0 <= j < i ==> !Viable(ms[j])
  {
    if ms == [] || Viable(ms[0]) then 0 else 1 + FirstViable(ms[1..])
  }

  function HeadIndex(d: Domain): Option<nat> {
    var i := FirstViable(d.members);
    if i < |d.members| then Some(i) else None
  }

  function HeadFree(d: Domain): nat {
    var i := FirstViable(d.members);
    if i < |d.members| then d.members[i].target.freeGranules else 0
  }

  ghost function Heads(ds: seq<Domain>): seq<nat> {
    MapSeq(ds, HeadFree)
  }

  // ---- the two sort orders ----

  predicate MemberBefore(l: TargetState, r: TargetState) {
    || l.target.freeGranules > r.target.freeGranules
    || (l.target.freeGranules == r.target.freeGranules && LexLeq(l.target.id, r.target.id))
  }

  /** `bias` stands for the hash that breaks ties differently for every reservation id. */
  predicate DomainBefore(bias: (Id, Id) -> nat, rid: Id, l: Domain, r: Domain) {
    || HeadFree(l) > HeadFree(r)
    || (HeadFree(l) == HeadFree(r) && bias(rid, l.key) < bias(rid, r.key))
    || (HeadFree(l) == HeadFree(r) && bias(rid, l.key) == bias(rid, r.key) && LexLeq(l.key, r.key))
  }

  method SortMembers(ms: seq<TargetState>) returns (r: seq<TargetState>)
    ensures multiset(r) == multiset(ms) && |r| == |ms|
    ensures SortedBy(r, MemberBefore)
  {
    LexOrder();
    r := SortBy(ms, MemberBefore);
  }

  method SortDomains(ds: seq<Domain>, rid: Id, bias: (Id, Id) -> nat) returns (r: seq<Domain>)
    ensures multiset(r) == multiset(ds) && |r| == |ds|
    ensures forall i, j :: 0 <= i < j < |r| ==> DomainBefore(bias, rid, r[i], r[j])
    ensures Descending(Heads(r))
  {
    LexOrder();
    r := SortBy(ds, (a: Domain, b: Domain) => DomainBefore(bias, rid, a, b));
  }

  // ---- the domains as one table of targets ----

  /** A target and the key of the domain it is offered under. */
  datatype Slot = Slot(key: Id, state: TargetState)

  type View = map<Id, Slot>

  /** Domains with different keys, each listing its members once in rank order. */
  ghost predicate WellFormed(ds: seq<Domain>) {
    && NoDup(ds)
    && (forall d, e :: d in ds && e in ds && d.key == e.key ==> d == e)
    && (forall d :: d in ds ==> NoDup(d.members) && SortedBy(d.members, MemberBefore))
  }

  ghost predicate Listed(ds: seq<Domain>, view: View) {
    forall d, m :: d in ds && m in d.members ==> m.target.id in view && view[m.target.id] == Slot(d.key, m)
  }

  ghost predicate Holds(ds: seq<Domain>, slot: Slot) {
    exists d :: d in ds && d.key == slot.key && slot.state in d.members
  }

  ghost predicate Covered(ds: seq<Domain>, view: View) {
    forall t :: t in view ==> Holds(ds, view[t])
  }

  ghost predicate ValidView(view: View) {
    forall t :: t in view ==> view[t].state.target.id == t && ValidTarget(view[t].state)
  }

  /** The domains list every target of `view` once, under its key. */
  ghost predicate Represents(ds: seq<Domain>, view: View) {
    WellFormed(ds) && Listed(ds, view) && Covered(ds, view) && ValidView(view)
  }

  lemma RepresentsPermutation(ds: seq<Domain>, sorted: seq<Domain>, view: View)
    requires Represents(ds, view) && multiset(ds) == multiset(sorted)
    ensures Represents(sorted, view)
  {
    PermutationKeepsNoDup(ds, sorted);
    PermutationElems(ds, sorted);
    forall t | t in view ensures Holds(sorted, view[t]) {
      assert Holds(ds, view[t]);
    }
  }

  ghost predicate Swaps(ds: seq<Domain>, i: nat, h: nat, m: TargetState, members: seq<TargetState>) {
    && i < |ds|
    && h < |ds[i].members|
    && m.target.id == ds[i].members[h].target.id
    && multiset(members) == multiset(ds[i].members[h := m])
    && SortedBy(members, MemberBefore)
  }

  lemma UpdateMembers(ds: seq<Domain>, view: View, i: nat, h: nat, m: TargetState, members: seq<TargetState>)
    requires WellFormed(ds) && Listed(ds, view) && Swaps(ds, i, h, m, members)
    ensures NoDup(members)
    ensures forall x :: x in members <==> x == m || (x in ds[i].members && x != ds[i].members[h])
    ensures var ds' := ds[i := Domain(ds[i].key, members)];
      WellFormed(ds') && forall e :: e in ds' <==> e == ds'[i] || (e in ds && e != ds[i])
  {
    var d := ds[i];
    var d' := Domain(d.key, members);
    assert d in ds && d.members[h] in d.members;
    ReplaceOne(d.members, h, m, members);
    ReplaceOne(ds, i, d', ds[i := d']);
  }

  lemma UpdateListed(ds: seq<Domain>, view: View, i: nat, h: nat, m: TargetState, members: seq<TargetState>)
    requires WellFormed(ds) && Listed(ds, view) && Swaps(ds, i, h, m, members)
    ensures Listed(ds[i := Domain(ds[i].key, members)], view[m.target.id := Slot(ds[i].key, m)])
  {
    UpdateMembers(ds, view, i, h, m, members);
    var old_ := ds[i].members[h];
    assert ds[i] in ds && old_ in ds[i].members;
    assert view[m.target.id] == Slot(ds[i].key, old_);
  }

  lemma UpdateCovered(ds: seq<Domain>, view: View, i: nat, h: nat, m: TargetState, members: seq<TargetState>)
    requires WellFormed(ds) && Listed(ds, view) && Covered(ds, view) && ValidView(view)
    requires Swaps(ds, i, h, m, members)
    ensures Covered(ds[i := Domain(ds[i].key, members)], view[m.target.id := Slot(ds[i].key, m)])
  {
    UpdateMembers(ds, view, i, h, m, members);
    var ds', view' := ds[i := Domain(ds[i].key, members)], view[m.target.id := Slot(ds[i].key, m)];
    assert ds'[i] in ds';
    forall t | t in view' ensures Holds(ds', view'[t]) {
      if t != m.target.id {
        assert Holds(ds, view[t]);
        var e :| e in ds && e.key == view[t].key && view[t].state in e.members;
        assert (if e == ds[i] then ds'[i] else e) in ds';
      }
    }
  }

  /** Replacing one member of one domain replaces one slot of the table. */
  lemma RepresentsUpdate(ds: seq<Domain>, view: View, i: nat, h: nat, m: TargetState, members: seq<TargetState>)
    requires Represents(ds, view) && Swaps(ds, i, h, m, members) && ValidTarget(m)
    ensures Represents(ds[i := Domain(ds[i].key, members)], view[m.target.id := Slot(ds[i].key, m)])
  {
    UpdateMembers(ds, view, i, h, m, members);
    UpdateListed(ds, view, i, h, m, members);
    UpdateCovered(ds, view, i, h, m, members);
  }

  // ---- one reservation ----

  ghost predicate SameTarget(a: TargetState, b: TargetState) {
    a.target == b.target.(freeGranules := a.target.freeGranules)
  }

  ghost predicate IsLeast(g: nat, s: set<nat>) {
    g in s && forall x :: x in s ==> g <= x
  }

  /** One granule taken from one member: the member's position, its new state and the granule. */
  datatype Pick = Pick(h: nat, m: TargetState, granule: nat)

  function PlacementOf(pick: Pick, fragment: nat): Placement {
    Placement(pick.m.target.id, pick.granule, fragment)
  }

  /** `after` is `d` with the least free granule of its freest member taken. */
  ghost predicate PicksHead(d: Domain, after: Domain, pick: Pick) {
    && pick.h < |d.members|
    && after.key == d.key
    && multiset(after.members) == multiset(d.members[pick.h := pick.m])
    && SortedBy(after.members, MemberBefore)
    && ValidTarget(pick.m)
    && SameTarget(pick.m, d.members[pick.h])
    && IsLeast(pick.granule, FreeSet(d.members[pick.h].spans))
    && FreeSet(pick.m.spans) == FreeSet(d.members[pick.h].spans) - {pick.granule}
    && d.members[pick.h].target.freeGranules == HeadFree(d)
    && (|d.members| == 1 ==> |after.members| == 1 && HeadFree(after) == HeadFree(d) - 1)
  }

  method TakeHead(d: Domain) returns (after: Domain, pick: Pick)
    requires HeadFree(d) > 0
    requires forall x :: x in d.members ==> ValidTarget(x)
    ensures PicksHead(d, after, pick)
  {
    var h := HeadIndex(d).value;
    var head := d.members[h];
    assert head in d.members && ValidTarget(head);
    var taken, rest := AllocateOne(head.spans);
    var m := WithSpans(head, rest);
    CountIsSize(head.spans);
    CountIsSize(rest);
    var members := SortMembers(d.members[h := m]);
    after, pick := Domain(d.key, members), Pick(h, m, taken.value);
    if |d.members| == 1 {
      SingleMember(d, after, m);
      assert |FreeSet(rest)| == |FreeSet(head.spans)| - 1;
    }
  }

  lemma SingleMember(d: Domain, after: Domain, m: TargetState)
    requires |d.members| == 1 && multiset(after.members) == multiset(d.members[0 := m])
    requires m.target.freeGranules > 0 <==> m.spans != []
    ensures |after.members| == 1 && HeadFree(after) == m.target.freeGranules
  {
    assert |multiset(after.members)| == |after.members| == 1;
    assert after.members[0] in multiset(after.members);
    assert after.members == [m];
  }

  ghost function TakenFrom(t: Id, ps: seq<Placement>): set<nat> {
    set p | p in ps && p.target == t :: p.granule
  }

  /** What a list of placements does to the table: each target loses what was handed out. */
  ghost predicate Consumes(view: View, view': View, ps: seq<Placement>) {
    && view'.Keys == view.Keys
    && (forall t :: t in view ==>
         && view'[t].key == view[t].key
         && SameTarget(view'[t].state, view[t].state)
         && FreeSet(view'[t].state.spans) == FreeSet(view[t].state.spans) - TakenFrom(t, ps))
  }

  /** Placements taken from the table in distinct domains, each the least free granule of its target. */
  ghost predicate TakenFromDistinctDomains(view: View, ps: seq<Placement>) {
    && (forall i :: 0 <= i < |ps| ==>
         && ps[i].fragment == i
         && ps[i].target in view
         && IsLeast(ps[i].granule, FreeSet(view[ps[i].target].state.spans)))
    && (forall i, j :: 0 <= i < j < |ps| ==> view[ps[i].target].key != view[ps[j].target].key)
  }

  /** No target outside the other placements' domains had more free granules. */
  ghost predicate TakenFromFreest(view: View, ps: seq<Placement>)
    requires forall p :: p in ps ==> p.target in view
  {
    forall i, t :: 0 <= i < |ps| && t in view
      && (forall j :: 0 <= j < |ps| && j != i ==> view[ps[j].target].key != view[t].key)
      ==> view[t].state.target.freeGranules <= view[ps[i].target].state.target.freeGranules
  }

  /** The first reservation of a batch is taken from the freest targets there are. */
  ghost predicate FirstIsFreest(view: View, recs: seq<Record>) {
    recs != [] ==> (forall p :: p in recs[0].placements ==> p.target in view) && TakenFromFreest(view, recs[0].placements)
  }

  ghost function DomainsWithFree(view: View): set<Id> {
    set t | t in view && FreeSet(view[t].state.spans) != {} :: view[t].key
  }

  function KeysWithHead(ds: seq<Domain>): set<Id> {
    if ds == [] then {} else KeysWithHead(ds[1..]) + if HeadFree(ds[0]) > 0 then {ds[0].key} else {}
  }

  lemma {:induction false} KeysWithHeadBound(ds: seq<Domain>)
    ensures |KeysWithHead(ds)| <= Positive(Heads(ds))
    ensures forall i :: 0 <= i < |ds| && HeadFree(ds[i]) > 0 ==> ds[i].key in KeysWithHead(ds)
  {
    if ds != [] {
      KeysWithHeadBound(ds[1..]);
      assert Heads(ds)[1..] == Heads(ds[1..]);
      assert forall i :: 1 <= i < |ds| ==> ds[i] == ds[1..][i - 1];
    }
  }

  /** Every domain that still has a free granule has a positive head. */
  lemma FreeDomainsHaveHeads(ds: seq<Domain>, view: View)
    requires Represents(ds, view)
    ensures |DomainsWithFree(view)| <= Positive(Heads(ds))
  {
    KeysWithHeadBound(ds);
    forall k | k in DomainsWithFree(view) ensures k in KeysWithHead(ds) {
      var t :| t in view && FreeSet(view[t].state.spans) != {} && view[t].key == k;
      var a := DomainOf(ds, view, t);
      CountIsSize(view[t].state.spans);
      assert Viable(view[t].state);
      assert FirstViable(ds[a].members) < |ds[a].members|;
    }
    SubsetSize(DomainsWithFree(view), KeysWithHead(ds));
  }

  ghost predicate AllSingle(ds: seq<Domain>) {
    forall d :: d in ds ==> |d.members| == 1
  }

  lemma {:induction false} PositivePrefix(heads: seq<nat>, c: nat)
    requires Descending(heads) && c <= |heads|
    requires c < |heads| ==> heads[c] == 0
    ensures Positive(heads) <= c
  {
    if heads != [] {
      PositivePrefix(heads[1..], if c == 0 then 0 else c - 1);
    }
  }

  /** The positions of the first `k` domains with a positive head. */
  method SelectDomains(sorted: seq<Domain>, k: nat) returns (selected: seq<nat>)
    requires Descending(Heads(sorted))
    ensures |selected| <= k && |selected| <= |sorted|
    ensures forall i :: 0 <= i < |selected| ==> selected[i] == i && HeadFree(sorted[i]) > 0
    ensures |selected| < k ==> Positive(Heads(sorted)) < k
  {
    assert forall i, j :: 0 <= i < j < |sorted| ==> HeadFree(sorted[i]) >= HeadFree(sorted[j]) by {
      assert forall i :: 0 <= i < |sorted| ==> Heads(sorted)[i] == HeadFree(sorted[i]);
    }
    selected := [];
    for i := 0 to |sorted|
      invariant |selected| <= k && |selected| <= i
      invariant forall j :: 0 <= j < |selected| ==> selected[j] == j && HeadFree(sorted[j]) > 0
      invariant |selected| < k && |selected| < i ==> HeadFree(sorted[|selected|]) == 0
    {
      if HeadFree(sorted[i]) > 0 && |selected| < k {
        selected := selected + [i];
      }
    }
    if |selected| < k {
      PositivePrefix(Heads(sorted), |selected|);
    }
  }

  lemma ConsumeNext(view: View, view': View, ps: seq<Placement>, p: Placement, m: TargetState)
    requires Consumes(view, view', ps) && p.target in view && view'[p.target] == view[p.target]
    requires forall q :: q in ps ==> q.target != p.target
    requires SameTarget(m, view[p.target].state)
    requires FreeSet(m.spans) == FreeSet(view[p.target].state.spans) - {p.granule}
    ensures Consumes(view, view'[p.target := Slot(view[p.target].key, m)], ps + [p])
  {
    assert TakenFrom(p.target, ps + [p]) == {p.granule};
    forall t | t in view && t != p.target ensures TakenFrom(t, ps + [p]) == TakenFrom(t, ps) {
      assert forall q :: q in ps + [p] && q.target == t <==> q in ps && q.target == t;
    }
  }

  lemma MemberSlots(ds: seq<Domain>, view: View, i: nat)
    requires Represents(ds, view) && i < |ds|
    ensures forall x :: x in ds[i].members ==>
      x.target.id in view && view[x.target.id] == Slot(ds[i].key, x) && ValidTarget(x)
    ensures forall j :: 0 <= j < |ds| && j != i ==> ds[j].key != ds[i].key
  {
    assert ds[i] in ds;
    forall j | 0 <= j < |ds| && j != i ensures ds[j].key != ds[i].key {
      assert ds[j] in ds;
    }
  }

  /** The picks of a round over the sorted domains, one from each of the first `|picks|`. */
  ghost predicate RoundPicks(sorted: seq<Domain>, next: seq<Domain>, picks: seq<Pick>) {
    && |picks| <= |sorted| == |next|
    && (forall i :: 0 <= i < |picks| ==> PicksHead(sorted[i], next[i], picks[i]))
    && (forall i :: |picks| <= i < |sorted| ==> next[i] == sorted[i])
  }

  ghost function PlacementsOf(picks: seq<Pick>): seq<Placement> {
    seq(|picks|, i requires 0 <= i < |picks| => PlacementOf(picks[i], i))
  }

  ghost function ViewAfter(sorted: seq<Domain>, view: View, picks: seq<Pick>): View
    requires |picks| <= |sorted|
  {
    if picks == [] then view
    else
      var j := |picks| - 1;
      ViewAfter(sorted, view, picks[..j])[picks[j].m.target.id := Slot(sorted[j].key, picks[j].m)]
  }

  lemma PlacementsSnoc(picks: seq<Pick>)
    requires picks != []
    ensures var j := |picks| - 1; PlacementsOf(picks) == PlacementsOf(picks[..j]) + [PlacementOf(picks[j], j)]
  {
  }

  lemma RestoreAt(next: seq<Domain>, j: nat, d: Domain)
    requires j < |next| && d.key == next[j].key
    ensures next[j := d][j := Domain(d.key, next[j].members)] == next
  {
  }

  lemma {:induction false} ViewAfterElsewhere(sorted: seq<Domain>, view: View, picks: seq<Pick>, id: Id)
    requires |picks| <= |sorted| && id in view
    requires forall i :: 0 <= i < |picks| ==> picks[i].m.target.id != id
    ensures id in ViewAfter(sorted, view, picks) && ViewAfter(sorted, view, picks)[id] == view[id]
  {
    if picks != [] {
      ViewAfterElsewhere(sorted, view, picks[..|picks| - 1], id);
    }
  }

  lemma RoundStep(sorted: seq<Domain>, j: nat, view: View, view': View, ps: seq<Placement>, next: seq<Domain>, pick: Pick)
    requires j < |sorted| == |next| && PicksHead(sorted[j], next[j], pick)
    requires Represents(next[j := sorted[j]], view') && Consumes(view, view', ps)
    requires var id := pick.m.target.id;
      && id in view && view'[id] == view[id] == Slot(sorted[j].key, sorted[j].members[pick.h])
      && forall q :: q in ps ==> q.target != id
    ensures Represents(next, view'[pick.m.target.id := Slot(sorted[j].key, pick.m)])
    ensures Consumes(view, view'[pick.m.target.id := Slot(sorted[j].key, pick.m)], ps + [PlacementOf(pick, j)])
  {
    RestoreAt(next, j, sorted[j]);
    RepresentsUpdate(next[j := sorted[j]], view', j, pick.h, pick.m, next[j].members);
    ConsumeNext(view, view', ps, PlacementOf(pick, j), pick.m);
  }

  lemma RoundPicksPrefix(sorted: seq<Domain>, next: seq<Domain>, picks: seq<Pick>)
    requires RoundPicks(sorted, next, picks) && picks != []
    ensures var j := |picks| - 1; RoundPicks(sorted, next[j := sorted[j]], picks[..j])
  {
  }

  lemma LastPick(sorted: seq<Domain>, view: View, next: seq<Domain>, picks: seq<Pick>)
    requires Represents(sorted, view) && RoundPicks(sorted, next, picks) && picks != []
    ensures var j := |picks| - 1;
      var id := picks[j].m.target.id;
      && id in view && view[id] == Slot(sorted[j].key, sorted[j].members[picks[j].h])
      && id in ViewAfter(sorted, view, picks[..j]) && ViewAfter(sorted, view, picks[..j])[id] == view[id]
      && forall q :: q in PlacementsOf(picks[..j]) ==> q.target != id
  {
    var j := |picks| - 1;
    PicksElsewhere(sorted, view, next, picks, j);
    ViewAfterElsewhere(sorted, view, picks[..j], picks[j].m.target.id);
  }

  /** A round of picks keeps the table consistent and consumes exactly its placements. */
  lemma {:induction false} RoundConsumes(sorted: seq<Domain>, view: View, next: seq<Domain>, picks: seq<Pick>)
    requires Represents(sorted, view) && RoundPicks(sorted, next, picks)
    ensures Represents(next, ViewAfter(sorted, view, picks))
    ensures Consumes(view, ViewAfter(sorted, view, picks), PlacementsOf(picks))
    decreases |picks|
  {
    if picks == [] {
      assert next == sorted && ViewAfter(sorted, view, picks) == view && PlacementsOf(picks) == [];
    } else {
      var j := |picks| - 1;
      RoundPicksPrefix(sorted, next, picks);
      RoundConsumes(sorted, view, next[j := sorted[j]], picks[..j]);
      LastPick(sorted, view, next, picks);
      PlacementsSnoc(picks);
      var view' := ViewAfter(sorted, view, picks[..j]);
      assert ViewAfter(sorted, view, picks) == view'[picks[j].m.target.id := Slot(sorted[j].key, picks[j].m)];
      RoundStep(sorted, j, view, view', PlacementsOf(picks[..j]), next, picks[j]);
    }
  }

  lemma PicksElsewhere(sorted: seq<Domain>, view: View, next: seq<Domain>, picks: seq<Pick>, j: nat)
    requires Represents(sorted, view) && RoundPicks(sorted, next, picks) && j < |picks|
    ensures forall i :: 0 <= i < |picks| ==>
      picks[i].m.target.id in view && view[picks[i].m.target.id] == Slot(sorted[i].key, sorted[i].members[picks[i].h])
    ensures forall i :: 0 <= i < |picks| && i != j ==> picks[i].m.target.id != picks[j].m.target.id
    ensures forall q :: q in PlacementsOf(picks[..j]) ==> q.target != picks[j].m.target.id
  {
    forall i | 0 <= i < |picks|
      ensures picks[i].m.target.id in view
      ensures view[picks[i].m.target.id] == Slot(sorted[i].key, sorted[i].members[picks[i].h])
    {
      MemberSlots(sorted, view, i);
      assert sorted[i].members[picks[i].h] in sorted[i].members;
    }
    MemberSlots(sorted, view, j);
  }

  lemma MembersBelowHead(ds: seq<Domain>, view: View, a: nat)
    requires Represents(ds, view) && a < |ds|
    ensures forall x :: x in ds[a].members ==> x.target.freeGranules <= HeadFree(ds[a])
  {
    var d := ds[a];
    MemberSlots(ds, view, a);
    assert d in ds;
    forall x | x in d.members ensures x.target.freeGranules <= HeadFree(d) {
      var i :| 0 <= i < |d.members| && d.members[i] == x;
      CountIsSize(x.spans);
      var h := FirstViable(d.members);
      assert h < i ==> MemberBefore(d.members[h], x);
    }
  }

  lemma RoundDistinct(sorted: seq<Domain>, view: View, next: seq<Domain>, picks: seq<Pick>)
    requires Represents(sorted, view) && RoundPicks(sorted, next, picks)
    ensures TakenFromDistinctDomains(view, PlacementsOf(picks))
  {
    var ps := PlacementsOf(picks);
    forall i | 0 <= i < |ps|
      ensures ps[i].target in view && IsLeast(ps[i].granule, FreeSet(view[ps[i].target].state.spans))
      ensures view[ps[i].target].key == sorted[i].key
    {
      PicksElsewhere(sorted, view, next, picks, i);
    }
    forall i, j | 0 <= i < j < |ps| ensures view[ps[i].target].key != view[ps[j].target].key {
      MemberSlots(sorted, view, i);
    }
  }

  lemma RoundFreest(sorted: seq<Domain>, view: View, next: seq<Domain>, picks: seq<Pick>, i: nat, t: Id)
    requires Represents(sorted, view) && Descending(Heads(sorted)) && RoundPicks(sorted, next, picks)
    requires i < |picks| && t in view && forall j :: 0 <= j < |picks| && j != i ==> sorted[j].key != view[t].key
    ensures view[t].state.target.freeGranules <= HeadFree(sorted[i])
  {
    var a := DomainOf(sorted, view, t);
    MembersBelowHead(sorted, view, a);
    assert Heads(sorted)[i] == HeadFree(sorted[i]) && Heads(sorted)[a] == HeadFree(sorted[a]);
  }

  /** The picks of a round lie in distinct domains and come from the freest targets. */
  lemma RoundShape(sorted: seq<Domain>, view: View, next: seq<Domain>, picks: seq<Pick>)
    requires Represents(sorted, view) && Descending(Heads(sorted)) && RoundPicks(sorted, next, picks)
    ensures TakenFromDistinctDomains(view, PlacementsOf(picks))
    ensures TakenFromFreest(view, PlacementsOf(picks))
  {
    var ps := PlacementsOf(picks);
    RoundDistinct(sorted, view, next, picks);
    assert forall j :: 0 <= j < |ps| ==> view[ps[j].target] == Slot(sorted[j].key, sorted[j].members[picks[j].h]) by {
      if |picks| > 0 { PicksElsewhere(sorted, view, next, picks, 0); }
    }
    forall i, t | 0 <= i < |ps| && t in view
      && (forall j :: 0 <= j < |ps| && j != i ==> view[ps[j].target].key != view[t].key)
      ensures view[t].state.target.freeGranules <= view[ps[i].target].state.target.freeGranules
    {
      forall j | 0 <= j < |picks| && j != i ensures sorted[j].key != view[t].key {
        assert view[ps[j].target].key != view[t].key;
      }
      RoundFreest(sorted, view, next, picks, i, t);
    }
  }

  lemma DomainOf(ds: seq<Domain>, view: View, t: Id) returns (a: nat)
    requires Represents(ds, view) && t in view
    ensures a < |ds| && ds[a].key == view[t].key && view[t].state in ds[a].members
  {
    assert Holds(ds, view[t]);
    var d :| d in ds && d.key == view[t].key && view[t].state in d.members;
    a :| 0 <= a < |ds| && ds[a] == d;
  }

  /** Takes one granule from each of the first `k` domains. */
  method TakeHeads(sorted: seq<Domain>, k: nat) returns (next: seq<Domain>, ps: seq<Placement>, ghost picks: seq<Pick>)
    requires k <= |sorted| && forall i :: 0 <= i < k ==> HeadFree(sorted[i]) > 0
    requires forall i, x :: 0 <= i < k && x in sorted[i].members ==> ValidTarget(x)
    ensures |picks| == k && RoundPicks(sorted, next, picks) && ps == PlacementsOf(picks)
  {
    next, ps, picks := sorted, [], [];
    for j := 0 to k
      invariant |picks| == j && RoundPicks(sorted, next, picks) && ps == PlacementsOf(picks)
    {
      var after, pick := TakeHead(next[j]);
      next, ps, picks := next[j := after], ps + [PlacementOf(pick, j)], picks + [pick];
    }
  }

  /**
   * One reservation: sort the domains, pick the first `k` that have a free granule, and take the
   * least free granule of the freest target of each. None when fewer than `k` domains have one.
   */
  method PlanRound(ds: seq<Domain>, k: nat, rid: Id, bias: (Id, Id) -> nat, ghost view: View)
    returns (next: seq<Domain>, placements: Option<seq<Placement>>, ghost view': View, ghost sorted: seq<Domain>)
    requires Represents(ds, view)
    ensures Represents(next, view')
    ensures placements.None? ==> view' == view && |DomainsWithFree(view)| < k
    ensures placements.Some? ==> |placements.value| == k && Consumes(view, view', placements.value)
    ensures placements.Some? ==> TakenFromDistinctDomains(view, placements.value)
    ensures placements.Some? ==> TakenFromFreest(view, placements.value)
    ensures multiset(Heads(ds)) == multiset(Heads(sorted)) && Descending(Heads(sorted))
    ensures placements.None? ==> next == sorted && Positive(Heads(sorted)) < k
    ensures AllSingle(ds) ==> AllSingle(next) && (placements.Some? ==> TakesFirst(Heads(sorted), Heads(next), k))
  {
    var domains := SortDomains(ds, rid, bias);
    RepresentsPermutation(ds, domains, view);
    MapOfPermutation(ds, domains, HeadFree);
    if AllSingle(ds) { SinglePermutation(ds, domains); }
    sorted, next, view', placements := domains, domains, view, None;
    var selected := SelectDomains(domains, k);
    if |selected| == k {
      forall i | 0 <= i < k ensures forall x :: x in domains[i].members ==> ValidTarget(x) {
        MemberSlots(domains, view, i);
      }
      var ps;
      ghost var picks;
      next, ps, picks := TakeHeads(domains, |selected|);
      view' := ViewAfter(domains, view, picks);
      RoundConsumes(domains, view, next, picks);
      RoundShape(domains, view, next, picks);
      if AllSingle(ds) { SingleRound(domains, next, picks); }
      placements := Some(ps);
    } else {
      FreeDomainsHaveHeads(domains, view);
    }
  }

  lemma SinglePermutation(ds: seq<Domain>, sorted: seq<Domain>)
    requires multiset(ds) == multiset(sorted) && AllSingle(ds)
    ensures AllSingle(sorted)
  {
    PermutationElems(ds, sorted);
  }

  lemma SingleRound(sorted: seq<Domain>, next: seq<Domain>, picks: seq<Pick>)
    requires RoundPicks(sorted, next, picks) && AllSingle(sorted)
    ensures AllSingle(next) && TakesFirst(Heads(sorted), Heads(next), |picks|)
  {
    forall i | 0 <= i < |next|
      ensures |next[i].members| == 1
      ensures i < |picks| ==> Heads(sorted)[i] == Heads(next)[i] + 1
    {
      assert sorted[i] in sorted;
    }
  }

  // ---- the batch ----

  ghost function AllPlacements(recs: seq<Record>): seq<Placement> {
    if recs == [] then [] else AllPlacements(recs[..|recs| - 1]) + recs[|recs| - 1].placements
  }

  function ExpiryAt(expiresAt: nat, index: nat): nat {
    if expiresAt == 0 then 0 else SatAdd(expiresAt, index)
  }

  /** A reservation of `k` fragments, each in a failure domain of its own. */
  ghost predicate SpreadOver(view: View, r: Record, k: nat) {
    && r.state == Reserved
    && |r.placements| == k
    && (forall i :: 0 <= i < k ==> r.placements[i].fragment == i && r.placements[i].target in view)
    && (forall i, j :: 0 <= i < j < k ==> view[r.placements[i].target].key != view[r.placements[j].target].key)
  }

  ghost predicate WereFree(view: View, ps: seq<Placement>) {
    forall p :: p in ps ==> p.target in view && p.granule in FreeSet(view[p.target].state.spans)
  }

  lemma ConsumesTransitive(a: View, b: View, c: View, ps: seq<Placement>, qs: seq<Placement>)
    requires Consumes(a, b, ps) && Consumes(b, c, qs)
    ensures Consumes(a, c, ps + qs)
  {
    forall t | t in a ensures TakenFrom(t, ps + qs) == TakenFrom(t, ps) + TakenFrom(t, qs) {
      assert forall p :: p in ps + qs <==> p in ps || p in qs;
    }
  }

  /** A round after earlier ones hands out granules that were free at the start and not yet taken. */
  lemma RoundIsFresh(view: View, mid: View, ps: seq<Placement>, qs: seq<Placement>)
    requires Consumes(view, mid, ps) && TakenFromDistinctDomains(mid, qs)
    requires DistinctGranules(ps) && WereFree(view, ps)
    ensures DistinctGranules(ps + qs) && WereFree(view, ps + qs)
    ensures forall i, j :: 0 <= i < j < |qs| ==> view[qs[i].target].key != view[qs[j].target].key
  {
    forall i | 0 <= i < |qs|
      ensures qs[i].target in view && qs[i].granule in FreeSet(view[qs[i].target].state.spans)
      ensures forall p :: p in ps ==> GranuleAt(p) != GranuleAt(qs[i])
    {
      assert qs[i].granule !in TakenFrom(qs[i].target, ps);
    }
    forall i, j | 0 <= i < j < |ps + qs| ensures GranuleAt((ps + qs)[i]) != GranuleAt((ps + qs)[j]) {
      assert i < |ps| ==> (ps + qs)[i] in ps;
    }
  }

  /** Reservations spread over domains, made of distinct granules that were free and now are not. */
  ghost predicate Planned(view: View, view': View, recs: seq<Record>, k: nat) {
    && (forall r :: r in recs ==> SpreadOver(view, r, k))
    && DistinctGranules(AllPlacements(recs))
    && WereFree(view, AllPlacements(recs))
    && Consumes(view, view', AllPlacements(recs))
  }

  lemma PlannedNext(view: View, mid: View, view': View, recs: seq<Record>, r: Record, k: nat)
    requires Planned(view, mid, recs, k) && Consumes(mid, view', r.placements)
    requires r.state == Reserved && |r.placements| == k && TakenFromDistinctDomains(mid, r.placements)
    ensures Planned(view, view', recs + [r], k)
    ensures AllPlacements(recs + [r]) == AllPlacements(recs) + r.placements
  {
    assert (recs + [r])[..|recs|] == recs;
    RoundIsFresh(view, mid, AllPlacements(recs), r.placements);
    ConsumesTransitive(view, mid, view', AllPlacements(recs), r.placements);
    assert SpreadOver(view, r, k);
  }

  function TargetsOf(ps: seq<Placement>): set<Id> {
    set p | p in ps :: p.target
  }

  lemma TargetsOfConcat(ps: seq<Placement>, qs: seq<Placement>)
    ensures TargetsOf(ps + qs) == TargetsOf(ps) + TargetsOf(qs)
  {
    assert forall p :: p in ps + qs <==> p in ps || p in qs;
  }

  ghost predicate Numbered(recs: seq<Record>, ids: seq<Id>, expiresAt: nat) {
    && |recs| <= |ids|
    && forall i :: 0 <= i < |recs| ==> recs[i].id == ids[i] && recs[i].expiresAt == ExpiryAt(expiresAt, i)
  }

  ghost predicate SingleFrontier(ds: seq<Domain>, next: seq<Domain>, k: nat, r: nat) {
    AllSingle(ds) ==> AllSingle(next) && Frontier(Heads(ds), Heads(next), k, r)
  }

  lemma SingleFrontierRound(ds: seq<Domain>, before: seq<Domain>, sorted: seq<Domain>, next: seq<Domain>, k: nat, r: nat)
    requires SingleFrontier(ds, before, k, r)
    requires multiset(Heads(before)) == multiset(Heads(sorted)) && Descending(Heads(sorted))
    requires AllSingle(before) ==> AllSingle(next) && TakesFirst(Heads(sorted), Heads(next), k)
    ensures SingleFrontier(ds, next, k, r + 1)
  {
    if AllSingle(ds) {
      FrontierPermuted(Heads(ds), Heads(before), Heads(sorted), k, r);
      FrontierRound(Heads(ds), Heads(sorted), Heads(next), k, r);
    }
  }

  lemma SingleStop(ds: seq<Domain>, before: seq<Domain>, sorted: seq<Domain>, k: nat, batch: nat, r: nat)
    requires SingleFrontier(ds, before, k, r) && r <= batch
    requires multiset(Heads(before)) == multiset(Heads(sorted))
    requires r == batch || Positive(Heads(sorted)) < k
    ensures AllSingle(ds) ==> Optimal(Heads(ds), k, batch, r)
  {
    if AllSingle(ds) {
      FrontierPermuted(Heads(ds), Heads(before), Heads(sorted), k, r);
      StopIsOptimal(Heads(ds), Heads(sorted), k, batch, r);
    }
  }

  /** What holds after each planned reservation. */
  ghost predicate BatchState(ds: seq<Domain>, view: View, k: nat, next: seq<Domain>, view': View, recs: seq<Record>) {
    && Represents(next, view')
    && Planned(view, view', recs, k)
    && SingleFrontier(ds, next, k, |recs|)
    && FirstIsFreest(view, recs)
    && (recs == [] ==> view' == view)
  }

  /** Plans one more reservation, or finds that too few domains are left. */
  method PlanNext(ghost ds: seq<Domain>, ghost view: View, ghost batch: nat, now: seq<Domain>, ghost mid: View,
                  recs: seq<Record>, k: nat, rid: Id, expiry: nat, bias: (Id, Id) -> nat)
    returns (next: seq<Domain>, r: Option<Record>, ghost view': View)
    requires BatchState(ds, view, k, now, mid, recs) && |recs| < batch
    ensures r.None? ==> BatchState(ds, view, k, next, view', recs) && |DomainsWithFree(view')| < k
    ensures r.None? ==> (AllSingle(ds) ==> Optimal(Heads(ds), k, batch, |recs|))
    ensures r.Some? ==> r.value.id == rid && r.value.expiresAt == expiry
    ensures r.Some? ==> BatchState(ds, view, k, next, view', recs + [r.value])
  {
    var placements;
    ghost var sorted;
    next, placements, view', sorted := PlanRound(now, k, rid, bias, mid);
    if placements.None? {
      SingleStop(ds, now, sorted, k, batch, |recs|);
      if AllSingle(ds) { FrontierPermuted(Heads(ds), Heads(now), Heads(sorted), k, |recs|); }
      r := None;
    } else {
      var record := Record(rid, Reserved, placements.value, expiry);
      SingleFrontierRound(ds, now, sorted, next, k, |recs|);
      StateNext(ds, view, k, now, mid, recs, next, view', record);
      r := Some(record);
    }
  }

  lemma StateNext(ds: seq<Domain>, view: View, k: nat, now: seq<Domain>, mid: View, recs: seq<Record>,
                  next: seq<Domain>, view': View, r: Record)
    requires BatchState(ds, view, k, now, mid, recs) && Represents(next, view') && Consumes(mid, view', r.placements)
    requires r.state == Reserved && |r.placements| == k && TakenFromDistinctDomains(mid, r.placements)
    requires TakenFromFreest(mid, r.placements) && SingleFrontier(ds, next, k, |recs| + 1)
    ensures BatchState(ds, view, k, next, view', recs + [r])
  {
    PlannedNext(view, mid, view', recs, r, k);
    assert (recs + [r])[0] == if recs == [] then r else recs[0];
  }

  /**
   * Plans up to `batch` reservations. The generated ids are an argument, and so is the hash that
   * breaks ties; the outcome's size does not depend on it.
   */
  method PlanReservationBatch(ds: seq<Domain>, batch: nat, k: nat, ids: seq<Id>, expiresAt: nat,
                              bias: (Id, Id) -> nat, ghost view: View)
    returns (next: seq<Domain>, recs: seq<Record>, dirty: set<Id>, ghost view': View)
    requires Represents(ds, view) && |ids| == batch
    ensures Represents(next, view')
    ensures Numbered(recs, ids, expiresAt)
    ensures Planned(view, view', recs, k)
    ensures dirty == TargetsOf(AllPlacements(recs))
    ensures |recs| < batch ==> |DomainsWithFree(view')| < k
    ensures FirstIsFreest(view, recs)
    ensures AllSingle(ds) ==> Optimal(Heads(ds), k, batch, |recs|)
  {
    next, recs, dirty, view' := ds, [], {}, view;
    BatchStart(ds, view, k);
    for index := 0 to batch
      invariant |recs| == index && Numbered(recs, ids, expiresAt)
      invariant BatchState(ds, view, k, next, view', recs)
      invariant dirty == TargetsOf(AllPlacements(recs))
    {
      var r;
      next, r, view' := PlanNext(ds, view, batch, next, view', recs, k, ids[index], ExpiryAt(expiresAt, index), bias);
      if r.None? {
        return;
      }
      var record := r.value;
      AllPlacementsSnoc(recs, record);
      NumberedSnoc(recs, record, ids, expiresAt);
      dirty := dirty + TargetsOf(record.placements);
      recs := recs + [record];
    }
    SingleStop(ds, next, next, k, batch, batch);
  }

  lemma NumberedSnoc(recs: seq<Record>, r: Record, ids: seq<Id>, expiresAt: nat)
    requires Numbered(recs, ids, expiresAt) && |recs| < |ids|
    requires r.id == ids[|recs|] && r.expiresAt == ExpiryAt(expiresAt, |recs|)
    ensures Numbered(recs + [r], ids, expiresAt)
  {
  }

  lemma AllPlacementsSnoc(recs: seq<Record>, r: Record)
    ensures AllPlacements(recs + [r]) == AllPlacements(recs) + r.placements
    ensures TargetsOf(AllPlacements(recs + [r])) == TargetsOf(AllPlacements(recs)) + TargetsOf(r.placements)
  {
    assert (recs + [r])[..|recs|] == recs;
    TargetsOfConcat(AllPlacements(recs), r.placements);
  }

  lemma BatchStart(ds: seq<Domain>, view: View, k: nat)
    requires Represents(ds, view)
    ensures BatchState(ds, view, k, ds, view, [])
  {
    FrontierStart(Heads(ds), k);
  }
}
