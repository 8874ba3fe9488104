/** The theorems about whole runs of the cluster. */
module Runs {
  import opened Common
  import opened Spans
  import opened Records
  import opened Allocator
  import opened Recycle
  import opened Leader
  import opened Cluster
  import opened Failover
  import opened Agreement
  import opened Tearing
  import opened Handout

  ghost predicate Inv(c: Cluster) {
    CoreInv(c) && BinInv(c)
  }

  /** Steps that are not an operation on the allocator's state. */
  predicate Housekeeping(s: Step) {
    s.Join? || s.Renewal? || s.LoadTargets? || s.LoadFull? || s.LoadTorn? || s.Bookkeeping? || s.Marking? || s.Unmarking?
  }

  lemma JoinStep(c: Cluster, n: Id)
    requires CoreInv(c) && n !in c.nodes
    ensures CoreInv(c.(nodes := c.nodes[n := NEW_NODE]))
  {
    var c' := c.(nodes := c.nodes[n := NEW_NODE]);
    forall m | Holds(c', m) ensures m != n && Holds(c, m) {
    }
  }

  lemma LoadFullStep(c: Cluster, n: Id)
    requires CoreInv(c) && n in c.nodes
    ensures StillReserved(c.db.reservations) == c.db.reservations
    ensures CoreInv(c.(nodes := c.nodes[n := RefreshFull(c.nodes[n], c.db)]))
  {
    assert StillReserved(c.db.reservations) == c.db.reservations;
    LoadStep(c, n, RefreshFull(c.nodes[n], c.db));
  }

  lemma BookkeepingStep(c: Cluster, n: Id)
    requires CoreInv(c) && n in c.nodes
    ensures CoreInv(Settle(c, n, Leader.Outcome(c.nodes[n], c.db, FencePasses(c.nodes[n], c.db), Ok(0))))
  {
    var o := Leader.Outcome(c.nodes[n], c.db, FencePasses(c.nodes[n], c.db), Ok(0));
    SettleKeepsFence(c, n, o);
    SettleKeepsCover(c, n, o);
  }

  lemma HousekeepingStep(c: Cluster, s: Step)
    requires CoreInv(c) && Enabled(c, s) && Housekeeping(s) && |c.log| < U64_MAX
    ensures CoreInv(Do(c, s))
  {
    match s
    case Join(n) => JoinStep(c, n);
    case Renewal(n, clock, rpc) => RenewalStep(c, n, clock, rpc);
    case LoadTargets(n) => LoadStep(c, n, RefreshTargets(c.nodes[n], c.db));
    case LoadFull(n) => LoadFullStep(c, n);
    case LoadTorn(n, seen, full) => LoadStep(c, n, Do(c, s).nodes[n]);
    case Bookkeeping(n) => BookkeepingStep(c, n);
    case Marking(xs) => MarkStep(c, Do(c, s));
    case Unmarking(xs) => MarkStep(c, Do(c, s));
  }

  lemma OperationStep(c: Cluster, s: Step)
    requires Inv(c) && Enabled(c, s) && Operation(s)
    ensures CoreInv(Do(c, s))
  {
    match s
    case Reserving(n, after, dirty, recs) => ReserveStep(c, n, after, dirty, recs);
    case Refilling(n, bin, after, dirty, recs) => TopUpStep(c, n, bin, after, dirty, recs);
    case Claiming(n, bin, want, now, ttl) => ClaimStep(c, n, bin, want, now, ttl);
    case Finalizing(n, ms) => FinalizeStep(c, n, ms);
    case Releasing(n, ms) => ReleaseStep(c, n, ms);
    case Reclaiming(n, xs, order) => ReclaimStep(c, n, xs, order);
    case Expiring(n, now, limit, ids) => ExpireStep(c, n, now, limit, ids);
  }

  lemma CoreStep(c: Cluster, s: Step)
    requires Inv(c) && Enabled(c, s) && |c.log| < U64_MAX
    ensures CoreInv(Do(c, s))
  {
    if Housekeeping(s) {
      HousekeepingStep(c, s);
    } else if Operation(s) {
      OperationStep(c, s);
    } else {
      TornStep(c, s.n, s.op, s.layout, s.landed);
    }
  }

  lemma MarkStep(c: Cluster, c': Cluster)
    requires CoreInv(c) && c' == c.(db := c.db.(markers := c'.db.markers))
    requires forall x :: x in c'.db.markers ==> x in c.db.markers || exists id :: HeldBy(c.db.reservations, id, x)
    ensures CoreInv(c')
  {
    assert forall m :: Holds(c', m) <==> Holds(c, m);
  }

  /** A step that clears a process's bins or leaves them alone. */
  lemma IdleBins(c: Cluster, c': Cluster, n: Id)
    requires BinInv(c) && n in c.nodes && c'.nodes.Keys == c.nodes.Keys && c'.handed == c.handed && c'.used == c.used
    requires forall m :: m in c.nodes && m != n ==> c'.nodes[m] == c.nodes[m]
    requires c'.nodes[n].mem.bins == c.nodes[n].mem.bins || c'.nodes[n].mem.bins == map[]
    ensures BinInv(c')
  {
    ShrinkStep(c, c', n);
  }

  lemma RenewalBins(c: Cluster, n: Id, clock: Clock, rpc: Rpc)
    requires BinInv(c) && n in c.nodes
    ensures BinInv(Elect(c, n, Renew(n, c.nodes[n], c.db, clock, rpc)))
  {
    RenewShape(n, c.nodes[n], c.db, clock, rpc);
    IdleBins(c, Elect(c, n, Renew(n, c.nodes[n], c.db, clock, rpc)), n);
  }

  lemma OperationBins(c: Cluster, s: Step)
    requires Inv(c) && Enabled(c, s) && Operation(s)
    ensures BinInv(Do(c, s))
  {
    match s
    case Reserving(n, after, dirty, recs) => ReserveBins(c, n, after, dirty, recs);
    case Refilling(n, bin, after, dirty, recs) => RefillBins(c, n, bin, after, dirty, recs);
    case Claiming(n, bin, want, now, ttl) => ClaimBins(c, n, bin, want, now, ttl);
    case Finalizing(n, ms) => FinalizeBins(c, n, ms);
    case Releasing(n, ms) => SettleBins(c, n, ms, Release, {});
    case Reclaiming(n, _, order) => ReclaimBins(c, n, order);
    case Expiring(n, now, limit, ids) => SettleBins(c, n, ReleaseWhole(ids), Release, ExpireMarkers(c, n, ids));
  }

  lemma BinsStep(c: Cluster, s: Step)
    requires Inv(c) && Enabled(c, s)
    ensures BinInv(Do(c, s))
  {
    if Operation(s) {
      OperationBins(c, s);
    } else if s.Join? || s.Renewal? || s.Torn? {
      LifeBins(c, s);
    } else {
      QuietBins(c, s);
    }
  }

  lemma LifeBins(c: Cluster, s: Step)
    requires BinInv(c) && Enabled(c, s) && (s.Join? || s.Renewal? || s.Torn?)
    ensures BinInv(Do(c, s))
  {
    match s
    case Join(n) => JoinBins(c, n);
    case Renewal(n, clock, rpc) => RenewalBins(c, n, clock, rpc);
    case Torn(n, op, l, landed) => TornBins(c, n, op, PartAt(WritesOf(c, op), l, landed));
  }

  lemma QuietBins(c: Cluster, s: Step)
    requires BinInv(c) && Enabled(c, s)
    requires s.LoadTargets? || s.LoadFull? || s.LoadTorn? || s.Bookkeeping? || s.Marking? || s.Unmarking?
    ensures BinInv(Do(c, s))
  {
    if s.LoadTargets? || s.LoadFull? || s.LoadTorn? {
      IdleBins(c, Do(c, s), s.n);
    } else {
      SameBins(c, Do(c, s));
    }
  }

  lemma SameBins(c: Cluster, c': Cluster)
    requires BinInv(c) && c'.nodes == c.nodes && c'.handed == c.handed && c'.used == c.used
    ensures BinInv(c')
  {
    assert forall m, id :: WaitsAt(c', m, id) <==> WaitsAt(c, m, id);
  }

  lemma JoinBins(c: Cluster, n: Id)
    requires BinInv(c) && n !in c.nodes
    ensures BinInv(c.(nodes := c.nodes[n := NEW_NODE]))
  {
    var c' := c.(nodes := c.nodes[n := NEW_NODE]);
    assert forall m, id :: WaitsAt(c', m, id) ==> WaitsAt(c, m, id);
  }

  lemma LogGrows(c: Cluster, s: Step)
    requires Enabled(c, s)
    ensures c.log <= Do(c, s).log && |Do(c, s).log| <= |c.log| + 1
  {
  }

  lemma StepKeeps(c: Cluster, s: Step, c': Cluster)
    requires Inv(c) && |c.log| < U64_MAX && Next(c, s, c')
    ensures Inv(c') && c.log <= c'.log && |c'.log| <= |c.log| + 1
  {
    CoreStep(c, s);
    BinsStep(c, s);
    LogGrows(c, s);
  }

  lemma InitialHolds(c: Cluster)
    requires Initial(c)
    ensures Inv(c)
  {
  }

  /** Every state of every run shorter than the epoch counter satisfies the invariants. */
  lemma {:induction false} RunKeeps(cs: seq<Cluster>, steps: seq<Step>, i: nat)
    requires Run(cs, steps) && |steps| < U64_MAX && i < |cs|
    ensures Inv(cs[i]) && |cs[i].log| <= i
  {
    if i == 0 {
      InitialHolds(cs[0]);
    } else {
      RunKeeps(cs, steps, i - 1);
      assert Next(cs[i - 1], steps[i - 1], cs[i]);
      StepKeeps(cs[i - 1], steps[i - 1], cs[i]);
    }
  }

  // ---- the fence ----

  /** Over grants and commits alike, epochs never fall and an epoch belongs to one owner. */
  lemma EpochsRise(cs: seq<Cluster>, steps: seq<Step>, i: nat)
    requires Run(cs, steps) && |steps| < U64_MAX && i < |cs|
    ensures Rising(cs[i].log)
    ensures forall m, n :: Holds(cs[i], m) && Holds(cs[i], n) ==> m == n
  {
    RunKeeps(cs, steps, i);
    forall m, n | Holds(cs[i], m) && Holds(cs[i], n) ensures m == n {
      OneHolder(cs[i], m, n);
    }
  }

  /** A commit's epoch was granted to the committer before, and nobody was granted a higher one since. */
  lemma CommitFollowsGrant(cs: seq<Cluster>, steps: seq<Step>, i: nat, m: Id, e: nat)
    requires Run(cs, steps) && |steps| < U64_MAX && i < |steps|
    requires cs[i + 1].log == cs[i].log + [Committed(m, e)]
    ensures Granted(m, e) in cs[i].log
    ensures forall x :: x in cs[i].log ==> x.epoch < e || (x.epoch == e && x.owner == m)
  {
    RunKeeps(cs, steps, i + 1);
    var log := cs[i + 1].log;
    assert log[|cs[i].log|] == Committed(m, e);
    assert Committed(m, e) in log;
    assert Granted(m, e) in log;
    forall x | x in cs[i].log ensures x.epoch < e || (x.epoch == e && x.owner == m) {
      var k :| 0 <= k < |cs[i].log| && cs[i].log[k] == x;
      assert log[k] == x;
    }
  }

  /** A live holder's renewal keeps its epoch, its term and its loaded state. */
  lemma SelfRenewalKeepsTerm(c: Cluster, n: Id, clock: Clock)
    requires FenceInv(c) && Holds(c, n) && c.db.lease.value.expiresAt > clock.grant
    ensures var e := Renew(n, c.nodes[n], c.db, clock, Answered);
      && e.reply == Ok(true) && LeaseEpoch(e.db) == LeaseEpoch(c.db)
      && e.node.term.Some? && e.node.term.value.epoch == c.nodes[n].term.value.epoch
      && e.node == c.nodes[n].(term := e.node.term)
  {
    HolderOwnsLease(c, n);
  }

  /** Taking over an expired lease advances the epoch exactly when the counter has room. */
  lemma TakeoverAdvancesIff(l: Lease, owner: Id, now: nat)
    requires l.epoch <= U64_MAX && l.expiresAt <= now
    ensures DecideLeaseGrant(Some(l), owner, now).Some?
    ensures DecideLeaseGrant(Some(l), owner, now).value > l.epoch <==> l.epoch < U64_MAX
  {
  }

  // ---- the caches and the ledger ----

  /** A grant of a new epoch leaves no loaded process that passes the fence. */
  lemma TakeoverUnloads(cs: seq<Cluster>, steps: seq<Step>, i: nat, n: Id)
    requires Run(cs, steps) && |steps| < U64_MAX && i < |steps|
    requires LeaseEpoch(cs[i + 1].db) != LeaseEpoch(cs[i].db)
    ensures !(Holds(cs[i + 1], n) && cs[i + 1].nodes[n].targetsLoaded)
  {
    RunKeeps(cs, steps, i);
    assert Next(cs[i], steps[i], cs[i + 1]);
    EpochMovesByRenewal(cs[i], steps[i]);
    var s := steps[i];
    RenewalHolders(cs[i], s.n, s.clock, s.rpc, n);
  }

  lemma EpochMovesByRenewal(c: Cluster, s: Step)
    requires Enabled(c, s) && LeaseEpoch(Do(c, s).db) != LeaseEpoch(c.db)
    ensures s.Renewal?
  {
    if Operation(s) {
      OperationKeepsLease(c, s);
    }
  }

  lemma OperationKeepsLease(c: Cluster, s: Step)
    requires Enabled(c, s) && Operation(s)
    ensures Do(c, s).db.lease == c.db.lease
  {
  }

  /**
   * Whoever passes the fence and has loaded its state has the durable state in its cache, as long as
   * every step since the start, or since the last new epoch at `from`, has been clean.
   */
  lemma {:induction false} CachesAgree(cs: seq<Cluster>, steps: seq<Step>, from: nat, i: nat)
    requires Run(cs, steps) && |steps| < U64_MAX && from <= i < |cs|
    requires from > 0 ==> LeaseEpoch(cs[from].db) != LeaseEpoch(cs[from - 1].db)
    requires forall k :: from <= k < i ==> Clean(cs[k], steps[k])
    ensures CacheInv(cs[i])
  {
    if i == from {
      if from > 0 {
        forall n ensures !(Holds(cs[i], n) && cs[i].nodes[n].targetsLoaded) {
          TakeoverUnloads(cs, steps, i - 1, n);
        }
      }
    } else {
      CachesAgree(cs, steps, from, i - 1);
      RunKeeps(cs, steps, i - 1);
      assert Next(cs[i - 1], steps[i - 1], cs[i]);
      CleanNext(cs[i - 1], steps[i - 1], cs[i]);
    }
  }

  lemma CleanNext(c: Cluster, s: Step, c': Cluster)
    requires Inv(c) && CacheInv(c) && |c.log| < U64_MAX && Next(c, s, c') && Clean(c, s)
    ensures CacheInv(c')
  {
    CleanStep(c, s);
  }

  /** In every run, a holder's cache offers no granule that is durably reserved or marked. */
  lemma CachesCover(cs: seq<Cluster>, steps: seq<Step>, i: nat, n: Id)
    requires Run(cs, steps) && |steps| < U64_MAX && i < |cs|
    requires Holds(cs[i], n) && cs[i].nodes[n].targetsLoaded
    ensures Covers(cs[i].nodes[n], cs[i].db)
  {
    RunKeeps(cs, steps, i);
  }

  /** In no run is a durable granule in two reservations, or free and reserved, or free and committed. */
  lemma NoDoubleAllocation(cs: seq<Cluster>, steps: seq<Step>, i: nat)
    requires Run(cs, steps) && |steps| < U64_MAX && i < |cs|
    ensures var db := cs[i].db;
      && (forall a, b, x :: HeldBy(db.reservations, a, x) && HeldBy(db.reservations, b, x) ==> a == b)
      && FreeOf(db.targets) !! ReservedOf(db.reservations)
      && FreeOf(db.targets) + ReservedOf(db.reservations) + InUseOf(db.targets, db.reservations) == GranulesIn(db.targets)
      && (forall t :: t in db.targets ==> db.targets[t].target.freeGranules == |FreeSet(db.targets[t].spans)|)
      && db.markers !! FreeOf(db.targets)
  {
    RunKeeps(cs, steps, i);
    Ledger(cs[i].db.targets, cs[i].db.reservations);
  }

  // ---- the bins ----

  /** No id is handed out twice, and none is handed out while it waits in a bin or in two places. */
  lemma NoDoubleHandout(cs: seq<Cluster>, steps: seq<Step>, i: nat)
    requires Run(cs, steps) && |steps| < U64_MAX && i < |cs|
    ensures NoDup(cs[i].handed)
    ensures forall n, id :: WaitsAt(cs[i], n, id) ==> id !in cs[i].handed
    ensures forall m, n, id :: WaitsAt(cs[i], m, id) && WaitsAt(cs[i], n, id) ==> m == n
  {
    RunKeeps(cs, steps, i);
  }

  /** A process that has just loaded its state has nothing waiting, so it serves no id it queued before. */
  lemma LoadsForget(cs: seq<Cluster>, steps: seq<Step>, i: nat, id: Id)
    requires Run(cs, steps) && i < |steps| && (steps[i].LoadTargets? || steps[i].LoadFull? || steps[i].LoadTorn?)
    ensures steps[i].n in cs[i + 1].nodes && !WaitsAt(cs[i + 1], steps[i].n, id)
  {
    assert Next(cs[i], steps[i], cs[i + 1]);
  }

  /** Any two handed-out reservations that are still live hold disjoint granules, none of them free. */
  lemma HandedOutDisjoint(cs: seq<Cluster>, steps: seq<Step>, i: nat, a: Id, b: Id)
    requires Run(cs, steps) && |steps| < U64_MAX && i < |cs|
    requires a in cs[i].handed && b in cs[i].handed && a != b
    requires a in cs[i].db.reservations && b in cs[i].db.reservations
    ensures var db := cs[i].db;
      && GranulesOf(db.reservations[a].placements) !! GranulesOf(db.reservations[b].placements)
      && GranulesOf(db.reservations[a].placements) !! FreeOf(db.targets)
  {
    RunKeeps(cs, steps, i);
    LiveApart(cs[i].db, a);
    assert forall x :: x in GranulesOf(cs[i].db.reservations[b].placements) ==> HeldBy(cs[i].db.reservations, b, x);
  }

  /** Step `s` hands out `r` from a bin. */
  ghost predicate Claims(c: Cluster, s: Step, r: Record) {
    && s.Claiming? && s.n in c.nodes
    && var reply := ClaimOp(c.nodes[s.n], c.db, s.bin, s.want, s.now, s.ttl).reply;
      reply.Ok? && r in reply.value
  }

  /** A claimed record was durable, reserved, unexpired and new to every client, and is durable with its new expiry. */
  ghost predicate Served(c: Cluster, s: Step, c': Cluster, r: Record)
    requires s.Claiming?
  {
    && HandedOut(c.db.reservations, r, s.now, s.ttl) && r.id !in c.handed && r.id in c'.handed
    && r.state == Reserved
    && (c.db.reservations[r.id].expiresAt == 0 || s.now < c.db.reservations[r.id].expiresAt)
    && r.id in c'.db.reservations && c'.db.reservations[r.id] == r
  }

  /** The granules of `r` are in no other reservation and not free. */
  ghost predicate Apart(db: Durable, r: Record) {
    && (forall id, x :: HeldBy(db.reservations, id, x) && x in GranulesOf(r.placements) ==> id == r.id)
    && GranulesOf(r.placements) !! FreeOf(db.targets)
  }

  /** In every run, what a claim hands out shares no granule with another durable reservation or the free spans. */
  lemma ClaimServes(cs: seq<Cluster>, steps: seq<Step>, i: nat, r: Record)
    requires Run(cs, steps) && |steps| < U64_MAX && i < |steps| && Claims(cs[i], steps[i], r)
    ensures Served(cs[i], steps[i], cs[i + 1], r) && Apart(cs[i + 1].db, r)
  {
    RunKeeps(cs, steps, i);
    StepKeeps(cs[i], steps[i], cs[i + 1]);
    ClaimNext(cs[i], steps[i], cs[i + 1], r);
  }

  lemma ClaimNext(c: Cluster, s: Step, c': Cluster, r: Record)
    requires Inv(c) && Next(c, s, c') && Claims(c, s, r) && DurableSound(c'.db)
    ensures Served(c, s, c', r) && Apart(c'.db, r)
  {
    ClaimHands(c, s.n, s.bin, s.want, s.now, s.ttl, r);
    LiveApart(c'.db, r.id);
  }

  lemma LiveApart(db: Durable, a: Id)
    requires DurableSound(db) && a in db.reservations
    ensures Apart(db, db.reservations[a])
  {
    assert forall x :: x in GranulesOf(db.reservations[a].placements) ==> HeldBy(db.reservations, a, x);
  }

  lemma ClaimHands(c: Cluster, n: Id, bin: Id, want: nat, now: nat, ttl: nat, r: Record)
    requires Inv(c) && ServingFull(c, n)
    requires var reply := ClaimOp(c.nodes[n], c.db, bin, want, now, ttl).reply;
      reply.Ok? && r in reply.value
    ensures var o := ClaimOp(c.nodes[n], c.db, bin, want, now, ttl);
      && HandedOut(c.db.reservations, r, now, ttl) && r.state == Reserved && r.id !in c.handed
      && (c.db.reservations[r.id].expiresAt == 0 || now < c.db.reservations[r.id].expiresAt)
      && r.id in IdsOf(o.reply.value) && r.id in o.db.reservations && o.db.reservations[r.id] == r
  {
    var node := c.nodes[n];
    var claimed := ClaimFrom(node.mem, bin, want, now, ttl).1;
    assert Holds(c, n) && Covers(node, c.db);
    ClaimCovers(node, c.db, bin, want, now, ttl);
    ClaimTakes(node.mem, bin, want, now, ttl);
    IdsOfMembers(claimed);
    assert InBins(node.mem.bins, r.id) && WaitsAt(c, n, r.id);
    NoDeletes(InsertAll(c.db.reservations, claimed));
    InsertedLast(c.db.reservations, claimed, r);
  }

  lemma {:induction false} InsertedLast(res: Reservations, recs: seq<Record>, r: Record)
    requires r in recs && NoDup(IdsOf(recs))
    ensures r.id in InsertAll(res, recs) && InsertAll(res, recs)[r.id] == r
  {
    var n := |recs| - 1;
    var front, ids := recs[..n], IdsOf(recs);
    if r != recs[n] {
      var k :| 0 <= k < n && recs[k] == r;
      assert ids[k] != ids[n] && front[k] == r;
      assert IdsOf(front) == ids[..n];
      InsertedLast(res, front, r);
    }
  }
}
