/** Computed fragment placement by rendezvous hashing. The score is any function of the target id. */
module Placement {
  import opened Common
  import opened Records

  datatype Target = Target(id: Id, server: Id, rack: Id, healthy: bool, usable: bool)

  datatype PlacementError = UnspecifiedFailureDomain | NotEnoughFailureDomains(requested: nat, available: nat)

  datatype Placed = Chosen(ids: seq<Id>) | Failed(error: PlacementError)

  function FromRecord(r: TargetRecord): Target {
    Target(r.id, r.server, r.rack, r.healthy, r.lifecycle == Active)
  }

  predicate Accepts(t: Target) {
    t.healthy && t.usable
  }

  function KeyOf(domain: FailureDomain, t: Target): Option<Id> {
    match domain
    case AnyDomain => None
    case DriveDomainLab => Some(TARGET_TAG + t.id)
    case NodeDomain => Some(NODE_TAG + t.server)
    case RackDomain => Some(RACK_TAG + t.rack)
  }

  /** Placement groups targets exactly as the allocator does. */
  lemma GroupsAsAllocator(domain: FailureDomain, r: TargetRecord)
    ensures KeyOf(domain, FromRecord(r)) == DomainKey(domain, r)
  {
  }

  /** A stripe: the score of each target id, and the failure domain to spread over. */
  datatype Stripe = Stripe(score: Id -> nat, domain: FailureDomain)

  predicate Better(s: Stripe, a: Target, b: Target) {
    s.score(a.id) > s.score(b.id) || (s.score(a.id) == s.score(b.id) && LexLess(a.id, b.id))
  }

  predicate NotWorse(s: Stripe, a: Target, b: Target) {
    s.score(a.id) > s.score(b.id) || (s.score(a.id) == s.score(b.id) && LexLeq(a.id, b.id))
  }

  // ---- what placement means ----

  ghost predicate DistinctTargets(targets: seq<Target>) {
    forall i, j :: 0 <= i < j < |targets| ==> targets[i].id != targets[j].id
  }

  ghost predicate DistinctPool(pool: set<Target>) {
    forall t, u :: t in pool && u in pool && t.id == u.id ==> t == u
  }

  /** The targets that may hold a fragment. */
  ghost function Pool(targets: seq<Target>, excluded: set<Id>): set<Target> {
    set t | t in targets && Accepts(t) && t.id !in excluded
  }

  ghost function Domains(s: Stripe, pool: set<Target>): set<Option<Id>> {
    set t | t in pool :: KeyOf(s.domain, t)
  }

  ghost predicate BestOfDomain(s: Stripe, pool: set<Target>, t: Target) {
    t in pool && forall u :: u in pool && u != t && KeyOf(s.domain, u) == KeyOf(s.domain, t) ==> Better(s, t, u)
  }

  /** The failure domains with a target that outranks `t`. */
  ghost function Ahead(s: Stripe, pool: set<Target>, t: Target): set<Option<Id>> {
    set u | u in pool && Better(s, u, t) :: KeyOf(s.domain, u)
  }

  ghost predicate RankedAt(s: Stripe, pool: set<Target>, i: nat, id: Id) {
    exists t :: BestOfDomain(s, pool, t) && t.id == id && |Ahead(s, pool, t)| == i
  }

  /** The best targets of the first `n` failure domains, best domain first. */
  ghost predicate Ranks(s: Stripe, pool: set<Target>, n: nat, ids: seq<Id>) {
    && |ids| == Min(n, |Domains(s, pool)|)
    && forall i :: 0 <= i < |ids| ==> RankedAt(s, pool, i, ids[i])
  }

  lemma BetterOrder(s: Stripe)
    ensures forall a, b, c :: Better(s, a, b) && Better(s, b, c) ==> Better(s, a, c)
    ensures forall a, b :: Better(s, a, b) ==> !Better(s, b, a)
    ensures forall a: Target, b: Target :: a.id != b.id ==> Better(s, a, b) || Better(s, b, a)
    ensures TotalPreorder((a: Target, b: Target) => NotWorse(s, a, b))
  {
    LexOrder();
  }

  // ---- the algorithm ----

  method ScoredTargets(s: Stripe, targets: seq<Target>, excluded: set<Id>) returns (ranked: seq<Target>)
    requires DistinctTargets(targets)
    ensures Elems(ranked) == Pool(targets, excluded)
    ensures SortedBy(ranked, (a: Target, b: Target) => Better(s, a, b))
  {
    var scored: seq<Target> := [];
    for i := 0 to |targets|
      invariant Elems(scored) == Pool(targets[..i], excluded)
      invariant DistinctTargets(scored) && forall t :: t in scored ==> t in targets[..i]
    {
      var t := targets[i];
      PoolNext(targets, excluded, i);
      if Accepts(t) && t.id !in excluded {
        assert forall u :: u in targets[..i] ==> u.id != t.id;
        Snoc(scored, t);
        scored := scored + [t];
      }
    }
    assert targets[..|targets|] == targets;
    BetterOrder(s);
    ranked := SortBy(scored, (a: Target, b: Target) => NotWorse(s, a, b));
    PermutationElems(scored, ranked);
    PermutationKeepsNoDup(scored, ranked);
    StrictlySorted(s, scored, ranked);
  }

  lemma Snoc(scored: seq<Target>, t: Target)
    requires DistinctTargets(scored) && forall u :: u in scored ==> u.id != t.id
    ensures DistinctTargets(scored + [t]) && Elems(scored + [t]) == Elems(scored) + {t}
  {
    assert forall i :: 0 <= i < |scored| ==> scored[i] in scored;
  }

  lemma PoolNext(targets: seq<Target>, excluded: set<Id>, i: nat)
    requires i < |targets|
    ensures Pool(targets[..i + 1], excluded) ==
      Pool(targets[..i], excluded) + if Accepts(targets[i]) && targets[i].id !in excluded then {targets[i]} else {}
    ensures forall t :: t in targets[..i] ==> t in targets[..i + 1]
  {
    assert targets[..i + 1] == targets[..i] + [targets[i]];
  }

  lemma StrictlySorted(s: Stripe, scored: seq<Target>, ranked: seq<Target>)
    requires DistinctTargets(scored) && NoDup(ranked) && forall t :: t in ranked <==> t in scored
    requires SortedBy(ranked, (a: Target, b: Target) => NotWorse(s, a, b))
    ensures SortedBy(ranked, (a: Target, b: Target) => Better(s, a, b))
  {
    forall i, j | 0 <= i < j < |ranked| ensures Better(s, ranked[i], ranked[j]) {
      assert ranked[i] in scored && ranked[j] in scored && ranked[i] != ranked[j];
      assert NotWorse(s, ranked[i], ranked[j]);
    }
  }

  ghost function KeysOf(s: Stripe, ranked: seq<Target>): set<Option<Id>> {
    set t | t in ranked :: KeyOf(s.domain, t)
  }

  /** The first target of a domain in rank order is its best, and the domains before it are those ahead. */
  lemma FirstIsBest(s: Stripe, ranked: seq<Target>, i: nat)
    requires i < |ranked| && SortedBy(ranked, (a: Target, b: Target) => Better(s, a, b))
    requires KeyOf(s.domain, ranked[i]) !in KeysOf(s, ranked[..i])
    ensures BestOfDomain(s, Elems(ranked), ranked[i])
    ensures Ahead(s, Elems(ranked), ranked[i]) == KeysOf(s, ranked[..i])
  {
    BetterOrder(s);
    var t := ranked[i];
    forall u | u in ranked && u != t
      ensures (Better(s, u, t) <==> u in ranked[..i]) && (Better(s, t, u) <==> u !in ranked[..i])
    {
      var j :| 0 <= j < |ranked| && ranked[j] == u;
      if j < i {
        assert ranked[..i][j] == u;
      } else if j > i {
        assert Better(s, t, u);
        NotBefore(s, ranked, i, j);
      }
    }
    assert t !in ranked[..i];
  }

  lemma NotBefore(s: Stripe, ranked: seq<Target>, i: nat, j: nat)
    requires i <= j < |ranked| && SortedBy(ranked, (a: Target, b: Target) => Better(s, a, b))
    ensures ranked[j] !in ranked[..i]
  {
    BetterOrder(s);
    forall k | 0 <= k < i ensures ranked[k] != ranked[j] {
      assert Better(s, ranked[k], ranked[j]);
    }
  }

  method PickDistinctDomains(s: Stripe, limit: Option<nat>, targets: seq<Target>, excluded: set<Id>) returns (r: Placed)
    requires DistinctTargets(targets)
    ensures s.domain == AnyDomain <==> r == Failed(UnspecifiedFailureDomain)
    ensures s.domain != AnyDomain ==> r.Chosen? && var pool := Pool(targets, excluded);
      Ranks(s, pool, if limit.Some? then limit.value else |Domains(s, pool)|, r.ids)
  {
    if s.domain == AnyDomain {
      return Failed(UnspecifiedFailureDomain);
    }
    var ranked := ScoredTargets(s, targets, excluded);
    var used: set<Option<Id>>, chosen: seq<Id> := {}, [];
    var i := 0;
    while i < |ranked| && !(limit.Some? && |chosen| == limit.value)
      invariant 0 <= i <= |ranked|
      invariant Picked(s, ranked, i, used, chosen)
      invariant limit.Some? ==> |chosen| <= limit.value
    {
      var key := KeyOf(s.domain, ranked[i]);
      PickNext(s, ranked, i, used, chosen);
      if key !in used {
        used, chosen := used + {key}, chosen + [ranked[i].id];
      }
      i := i + 1;
    }
    PickedRanks(s, ranked, i, used, chosen, limit);
    return Chosen(chosen);
  }

  /** Where the loop ends, the limit is reached or every domain has been seen. */
  lemma PickedRanks(s: Stripe, ranked: seq<Target>, i: nat, used: set<Option<Id>>, chosen: seq<Id>, limit: Option<nat>)
    requires i <= |ranked| && Picked(s, ranked, i, used, chosen)
    requires limit.Some? ==> |chosen| <= limit.value
    requires i == |ranked| || (limit.Some? && |chosen| == limit.value)
    ensures Ranks(s, Elems(ranked), if limit.Some? then limit.value else |Domains(s, Elems(ranked))|, chosen)
  {
    KeysWithin(s, ranked, i);
  }

  ghost predicate Picked(s: Stripe, ranked: seq<Target>, i: nat, used: set<Option<Id>>, chosen: seq<Id>)
    requires i <= |ranked|
  {
    && used == KeysOf(s, ranked[..i])
    && |used| == |chosen|
    && forall j :: 0 <= j < |chosen| ==> RankedAt(s, Elems(ranked), j, chosen[j])
  }

  lemma PickNext(s: Stripe, ranked: seq<Target>, i: nat, used: set<Option<Id>>, chosen: seq<Id>)
    requires i < |ranked| && SortedBy(ranked, (a: Target, b: Target) => Better(s, a, b))
    requires Picked(s, ranked, i, used, chosen)
    ensures var key := KeyOf(s.domain, ranked[i]);
      if key in used then Picked(s, ranked, i + 1, used, chosen)
      else Picked(s, ranked, i + 1, used + {key}, chosen + [ranked[i].id])
  {
    KeysNext(s, ranked, i);
    if KeyOf(s.domain, ranked[i]) !in used {
      FirstIsRanked(s, ranked, i, |chosen|);
    }
  }

  lemma KeysNext(s: Stripe, ranked: seq<Target>, i: nat)
    requires i < |ranked|
    ensures KeysOf(s, ranked[..i + 1]) == KeysOf(s, ranked[..i]) + {KeyOf(s.domain, ranked[i])}
  {
    assert ranked[..i + 1] == ranked[..i] + [ranked[i]];
  }

  lemma FirstIsRanked(s: Stripe, ranked: seq<Target>, i: nat, n: nat)
    requires i < |ranked| && SortedBy(ranked, (a: Target, b: Target) => Better(s, a, b))
    requires KeyOf(s.domain, ranked[i]) !in KeysOf(s, ranked[..i]) && n == |KeysOf(s, ranked[..i])|
    ensures RankedAt(s, Elems(ranked), n, ranked[i].id)
  {
    FirstIsBest(s, ranked, i);
  }

  lemma KeysWithin(s: Stripe, ranked: seq<Target>, i: nat)
    requires i <= |ranked|
    ensures |KeysOf(s, ranked[..i])| <= |Domains(s, Elems(ranked))|
    ensures i == |ranked| ==> KeysOf(s, ranked[..i]) == Domains(s, Elems(ranked))
  {
    SubsetSize(KeysOf(s, ranked[..i]), Domains(s, Elems(ranked)));
    assert ranked[..|ranked|] == ranked;
  }

  /** One target per fragment in distinct failure domains, or the number of domains there are. */
  method PlaceStripe(s: Stripe, fragments: nat, targets: seq<Target>, excluded: set<Id>) returns (r: Placed)
    requires DistinctTargets(targets)
    ensures s.domain == AnyDomain ==> r == Failed(UnspecifiedFailureDomain)
    ensures s.domain != AnyDomain ==>
      var pool := Pool(targets, excluded);
      if |Domains(s, pool)| < fragments then r == Failed(NotEnoughFailureDomains(fragments, |Domains(s, pool)|))
      else r.Chosen? && |r.ids| == fragments && Ranks(s, pool, fragments, r.ids)
  {
    r := PickDistinctDomains(s, Some(fragments), targets, excluded);
    if r.Chosen? && |r.ids| < fragments {
      r := Failed(NotEnoughFailureDomains(fragments, |r.ids|));
    }
  }

  /** The fallback list: every usable failure domain's best target, in rank order. */
  method RankedCandidates(s: Stripe, targets: seq<Target>, excluded: set<Id>) returns (r: Placed)
    requires DistinctTargets(targets)
    ensures s.domain == AnyDomain ==> r == Failed(UnspecifiedFailureDomain)
    ensures s.domain != AnyDomain ==>
      r.Chosen? && Ranks(s, Pool(targets, excluded), |Domains(s, Pool(targets, excluded))|, r.ids)
  {
    r := PickDistinctDomains(s, None, targets, excluded);
  }

  // ---- what follows ----

  lemma PoolDistinct(targets: seq<Target>, excluded: set<Id>)
    requires DistinctTargets(targets)
    ensures DistinctPool(Pool(targets, excluded))
  {
  }

  /** Two best targets have different ranks. */
  lemma RankUnique(s: Stripe, pool: set<Target>, t: Target, u: Target)
    requires DistinctPool(pool) && BestOfDomain(s, pool, t) && BestOfDomain(s, pool, u)
    requires |Ahead(s, pool, t)| == |Ahead(s, pool, u)|
    ensures t == u
  {
    if t != u {
      BetterOrder(s);
      var (a, b) := if Better(s, t, u) then (t, u) else (u, t);
      AheadGrows(s, pool, a, b);
      SubsetSize(Ahead(s, pool, a), Ahead(s, pool, b));
    }
  }

  lemma AheadGrows(s: Stripe, pool: set<Target>, a: Target, b: Target)
    requires DistinctPool(pool) && BestOfDomain(s, pool, a) && b in pool && Better(s, a, b)
    ensures Ahead(s, pool, a) < Ahead(s, pool, b)
  {
    BetterOrder(s);
    assert KeyOf(s.domain, a) in Ahead(s, pool, b);
    assert KeyOf(s.domain, a) !in Ahead(s, pool, a);
  }

  lemma RankInRange(s: Stripe, pool: set<Target>, t: Target)
    requires BestOfDomain(s, pool, t)
    ensures |Ahead(s, pool, t)| < |Domains(s, pool)|
  {
    BetterOrder(s);
    var key := KeyOf(s.domain, t);
    assert key in Domains(s, pool) && key !in Ahead(s, pool, t);
    SubsetSize(Ahead(s, pool, t) + {key}, Domains(s, pool));
  }

  /** A target is chosen exactly when it is its domain's best and fewer than `n` domains are ahead. */
  lemma ChosenIff(s: Stripe, pool: set<Target>, n: nat, ids: seq<Id>, t: Target)
    requires DistinctPool(pool) && Ranks(s, pool, n, ids) && t in pool
    ensures t.id in ids <==> BestOfDomain(s, pool, t) && |Ahead(s, pool, t)| < n
    ensures BestOfDomain(s, pool, t) && |Ahead(s, pool, t)| < n ==>
      |Ahead(s, pool, t)| < |ids| && ids[|Ahead(s, pool, t)|] == t.id
  {
    if t.id in ids {
      var i :| 0 <= i < |ids| && ids[i] == t.id;
      assert RankedAt(s, pool, i, ids[i]);
    }
    if BestOfDomain(s, pool, t) && |Ahead(s, pool, t)| < n {
      RankInRange(s, pool, t);
      var i := |Ahead(s, pool, t)|;
      assert RankedAt(s, pool, i, ids[i]);
      var u :| BestOfDomain(s, pool, u) && u.id == ids[i] && |Ahead(s, pool, u)| == i;
      RankUnique(s, pool, t, u);
    }
  }

  /** The ranking depends on the set of usable targets only, and a shorter one is a prefix of a longer one. */
  lemma RanksPrefix(s: Stripe, pool: set<Target>, n: nat, m: nat, short: seq<Id>, long: seq<Id>)
    requires DistinctPool(pool) && n <= m && Ranks(s, pool, n, short) && Ranks(s, pool, m, long)
    ensures short <= long
  {
    forall i | 0 <= i < |short| ensures short[i] == long[i] {
      assert RankedAt(s, pool, i, short[i]) && RankedAt(s, pool, i, long[i]);
      var t :| BestOfDomain(s, pool, t) && t.id == short[i] && |Ahead(s, pool, t)| == i;
      var u :| BestOfDomain(s, pool, u) && u.id == long[i] && |Ahead(s, pool, u)| == i;
      RankUnique(s, pool, t, u);
    }
  }

  /** The order of the roster does not matter. */
  lemma RosterOrderIrrelevant(s: Stripe, a: seq<Target>, b: seq<Target>, excluded: set<Id>, n: nat, as_: seq<Id>, bs: seq<Id>)
    requires DistinctTargets(a) && multiset(a) == multiset(b)
    requires Ranks(s, Pool(a, excluded), n, as_) && Ranks(s, Pool(b, excluded), n, bs)
    ensures as_ == bs
  {
    PermutationElems(a, b);
    assert Pool(a, excluded) == Pool(b, excluded);
    PoolDistinct(a, excluded);
    RanksPrefix(s, Pool(a, excluded), n, n, as_, bs);
    RanksPrefix(s, Pool(a, excluded), n, n, bs, as_);
  }

  /** A ranking spreads over distinct failure domains and repeats no target. */
  lemma RanksSpread(s: Stripe, pool: set<Target>, n: nat, ids: seq<Id>, i: nat, j: nat)
    requires DistinctPool(pool) && Ranks(s, pool, n, ids) && i < j < |ids|
    ensures ids[i] != ids[j]
    ensures forall t, u :: t in pool && u in pool && t.id == ids[i] && u.id == ids[j] ==>
      KeyOf(s.domain, t) != KeyOf(s.domain, u)
  {
    assert RankedAt(s, pool, i, ids[i]) && RankedAt(s, pool, j, ids[j]);
    var t :| BestOfDomain(s, pool, t) && t.id == ids[i] && |Ahead(s, pool, t)| == i;
    var u :| BestOfDomain(s, pool, u) && u.id == ids[j] && |Ahead(s, pool, u)| == j;
    BetterOrder(s);
  }

  // ---- minimal reshuffle ----

  /** Losing other targets keeps a chosen target chosen, however targets are grouped into domains. */
  lemma SurvivorStays(s: Stripe, pool: set<Target>, pool': set<Target>, n: nat, ids: seq<Id>, ids': seq<Id>, t: Target)
    requires DistinctPool(pool) && pool' <= pool
    requires Ranks(s, pool, n, ids) && Ranks(s, pool', n, ids')
    requires t in pool' && t.id in ids
    ensures t.id in ids'
  {
    ChosenIff(s, pool, n, ids, t);
    SubsetSize(Ahead(s, pool', t), Ahead(s, pool, t));
    ChosenIff(s, pool', n, ids', t);
  }

  /** Losing the targets in `gone` changes at most that many of the chosen ones. */
  lemma MinimalReshuffle(s: Stripe, pool: set<Target>, pool': set<Target>, gone: set<Id>, n: nat, ids: seq<Id>, ids': seq<Id>)
    requires DistinctPool(pool) && pool' <= pool && forall t :: t in pool && t !in pool' ==> t.id in gone
    requires Ranks(s, pool, n, ids) && Ranks(s, pool', n, ids')
    ensures Elems(ids) - Elems(ids') <= gone
    ensures |ids| == |ids'| ==> |Elems(ids) - Elems(ids')| <= |gone| && |Elems(ids') - Elems(ids)| <= |gone|
  {
    forall id | id in ids && id !in ids' ensures id in gone {
      var i :| 0 <= i < |ids| && ids[i] == id;
      assert RankedAt(s, pool, i, ids[i]);
      var t :| BestOfDomain(s, pool, t) && t.id == id && |Ahead(s, pool, t)| == i;
      if t in pool' {
        SurvivorStays(s, pool, pool', n, ids, ids', t);
      }
    }
    SubsetSize(Elems(ids) - Elems(ids'), gone);
    if |ids| == |ids'| {
      RanksNoDup(s, pool, n, ids);
      RanksNoDup(s, pool', n, ids');
      SameSizeDifference(Elems(ids), Elems(ids'));
    }
  }

  lemma RanksNoDup(s: Stripe, pool: set<Target>, n: nat, ids: seq<Id>)
    requires DistinctPool(pool) && Ranks(s, pool, n, ids)
    ensures |Elems(ids)| == |ids|
  {
    forall i, j | 0 <= i < j < |ids| ensures ids[i] != ids[j] {
      RanksSpread(s, pool, n, ids, i, j);
    }
    NoDupSize(ids);
  }

  lemma SameSizeDifference<T>(a: set<T>, b: set<T>)
    requires |a| == |b|
    ensures |a - b| == |b - a|
  {
    assert a == (a - b) + a * b && b == (b - a) + a * b;
  }

  /** Removing targets from the roster, excluding their ids, or marking them unusable all only shrink the pool. */
  lemma LosingTargets(targets: seq<Target>, excluded: set<Id>, targets': seq<Target>, excluded': set<Id>, gone: set<Id>)
    requires DistinctTargets(targets) && excluded <= excluded' <= excluded + gone
    requires forall t :: t in targets && t.id !in gone ==> t in targets'
    requires forall t :: t in targets' && t !in targets ==> !Accepts(t)
    ensures Pool(targets', excluded') <= Pool(targets, excluded)
    ensures forall t :: t in Pool(targets, excluded) && t !in Pool(targets', excluded') ==> t.id in gone
    ensures DistinctPool(Pool(targets, excluded))
  {
    PoolDistinct(targets, excluded);
  }

  /** A surviving target keeps its fragment index exactly when every domain ahead of it stays ahead. */
  lemma SurvivorKeepsIndexIff(s: Stripe, pool: set<Target>, pool': set<Target>, n: nat, ids: seq<Id>, ids': seq<Id>, t: Target, i: nat)
    requires DistinctPool(pool) && pool' <= pool && t in pool'
    requires Ranks(s, pool, n, ids) && Ranks(s, pool', n, ids') && i < |ids| && ids[i] == t.id
    ensures i < |ids'| && ids'[i] == t.id <==> Ahead(s, pool, t) <= Ahead(s, pool', t)
  {
    IndexIsRank(s, pool, n, ids, t, i);
    SurvivorStays(s, pool, pool', n, ids, ids', t);
    ChosenIff(s, pool', n, ids', t);
    SubsetSize(Ahead(s, pool', t), Ahead(s, pool, t));
    if i < |ids'| && ids'[i] == t.id {
      IndexIsRank(s, pool', n, ids', t, i);
    }
    if Ahead(s, pool, t) <= Ahead(s, pool', t) {
      assert Ahead(s, pool, t) == Ahead(s, pool', t);
    }
  }

  lemma IndexIsRank(s: Stripe, pool: set<Target>, n: nat, ids: seq<Id>, t: Target, i: nat)
    requires DistinctPool(pool) && Ranks(s, pool, n, ids) && t in pool && i < |ids| && ids[i] == t.id
    ensures i == |Ahead(s, pool, t)|
  {
    assert RankedAt(s, pool, i, ids[i]);
    var u :| BestOfDomain(s, pool, u) && u.id == ids[i] && |Ahead(s, pool, u)| == i;
  }

  /** Losing a whole domain moves every target ranked behind it up by one index. */
  lemma LostDomainShifts(s: Stripe, pool: set<Target>, lost: Option<Id>, t: Target)
    requires BestOfDomain(s, pool, t) && lost in Ahead(s, pool, t)
    ensures var pool' := set u | u in pool && KeyOf(s.domain, u) != lost;
      BestOfDomain(s, pool', t) && |Ahead(s, pool', t)| == |Ahead(s, pool, t)| - 1
  {
    BetterOrder(s);
    var pool' := set u | u in pool && KeyOf(s.domain, u) != lost;
    assert KeyOf(s.domain, t) != lost;
    assert Ahead(s, pool', t) == Ahead(s, pool, t) - {lost};
  }

  // ---- in terms of scores ----

  /** A higher score, or the same score and the smaller id. */
  predicate Outscores(s: Stripe, a: Id, b: Id) {
    s.score(a) > s.score(b) || (s.score(a) == s.score(b) && LexLess(a, b))
  }

  lemma FewerAhead(s: Stripe, pool: set<Target>, t: Target, u: Target)
    requires Better(s, t, u)
    ensures |Ahead(s, pool, t)| <= |Ahead(s, pool, u)|
  {
    BetterOrder(s);
    SubsetSize(Ahead(s, pool, t), Ahead(s, pool, u));
  }

  /**
   * What is chosen, in terms of scores: an earlier fragment's target outscores a later one's, a chosen
   * target outscores the rest of its failure domain, and every target of a domain that is left out.
   */
  lemma HigherScoreFirst(s: Stripe, targets: seq<Target>, excluded: set<Id>, n: nat, ids: seq<Id>, i: nat, t: Target)
    requires DistinctTargets(targets) && Ranks(s, Pool(targets, excluded), n, ids) && i < |ids|
    requires t in targets && t.healthy && t.usable && t.id !in excluded && t.id != ids[i]
    ensures exists c :: c in targets && c.id == ids[i] && c.healthy && c.usable && c.id !in excluded
    ensures t.id in ids[i + 1..] ==> Outscores(s, ids[i], t.id)
    ensures forall c :: c in targets && c.id == ids[i] && KeyOf(s.domain, c) == KeyOf(s.domain, t) ==> Outscores(s, ids[i], t.id)
    ensures (forall c :: c in targets && c.id in ids ==> KeyOf(s.domain, c) != KeyOf(s.domain, t)) ==> Outscores(s, ids[i], t.id)
  {
    var pool := Pool(targets, excluded);
    PoolDistinct(targets, excluded);
    SameIdSame(targets);
    assert RankedAt(s, pool, i, ids[i]);
    var c :| BestOfDomain(s, pool, c) && c.id == ids[i] && |Ahead(s, pool, c)| == i;
    assert t in pool && c in targets;
    BetterOrder(s);
    if t.id in ids[i + 1..] {
      var j :| i < j < |ids| && ids[j] == t.id;
      assert RankedAt(s, pool, j, ids[j]);
      if Better(s, t, c) {
        FewerAhead(s, pool, t, c);
      }
    }
    if forall d :: d in targets && d.id in ids ==> KeyOf(s.domain, d) != KeyOf(s.domain, t) {
      if Better(s, t, c) {
        BestIsChosen(s, pool, n, ids, t, c);
      }
    }
    forall d | d in targets && d.id == ids[i] ensures d == c {
    }
  }

  lemma SameIdSame(targets: seq<Target>)
    requires DistinctTargets(targets)
    ensures forall a, b :: a in targets && b in targets && a.id == b.id ==> a == b
  {
  }

  ghost function Betters(s: Stripe, pool: set<Target>, t: Target): set<Target> {
    set u | u in pool && Better(s, u, t)
  }

  lemma {:induction false} DomainBest(s: Stripe, pool: set<Target>, t: Target) returns (b: Target)
    requires DistinctPool(pool) && t in pool
    ensures BestOfDomain(s, pool, b) && KeyOf(s.domain, b) == KeyOf(s.domain, t) && (b == t || Better(s, b, t))
    decreases Betters(s, pool, t)
  {
    BetterOrder(s);
    b := t;
    if u :| u in pool && u != t && KeyOf(s.domain, u) == KeyOf(s.domain, t) && !Better(s, t, u) {
      assert u in Betters(s, pool, t) && u !in Betters(s, pool, u) && Betters(s, pool, u) <= Betters(s, pool, t);
      b := DomainBest(s, pool, u);
    }
  }

  /** A target ahead of a chosen one has its failure domain chosen. */
  lemma BestIsChosen(s: Stripe, pool: set<Target>, n: nat, ids: seq<Id>, t: Target, c: Target)
    requires DistinctPool(pool) && Ranks(s, pool, n, ids) && t in pool && Better(s, t, c)
    requires BestOfDomain(s, pool, c) && |Ahead(s, pool, c)| < |ids|
    ensures exists b :: b in pool && b.id in ids && KeyOf(s.domain, b) == KeyOf(s.domain, t)
  {
    var b := DomainBest(s, pool, t);
    FewerAhead(s, pool, t, c);
    if b != t {
      FewerAhead(s, pool, b, t);
    }
    ChosenIff(s, pool, n, ids, b);
  }
}
