/** When a holder's cache is the durable state, and which steps keep it so. */
module Agreement {
  import opened Common
  import opened Records
  import opened Allocator
  import opened FastFinalize
  import opened Recycle
  import opened Visits
  import opened Reserve
  import opened Leader
  import opened Cluster
  import opened Failover
  import opened Tearing

  /** The cached targets are the durable ones, and the cached reservations are durable. */
  ghost predicate Agrees(node: Node, db: Durable) {
    && node.mem.targets == db.targets
    && Submap(node.mem.reservations, db.reservations)
    && (node.reservationsLoaded ==> node.mem.reservations == db.reservations)
  }

  /** Whoever passes the fence and has loaded its state has a cache that agrees with the database. */
  ghost predicate CacheInv(c: Cluster) {
    forall n :: Holds(c, n) && c.nodes[n].targetsLoaded ==> Agrees(c.nodes[n], c.db)
  }

  // ---- operations that leave nothing half done ----

  /** The batch is refused for a repeated id, or has no bad index, or names nothing that exists before the first. */
  predicate Tidy(reservations: Reservations, ms: seq<Mutation>) {
    || !DistinctIds(ms)
    || (forall i :: 0 <= i < |ms| ==> !BadIndexes(reservations, ms[i]))
    || (exists j :: 0 <= j < |ms| && BadIndexes(reservations, ms[j]) && forall i :: 0 <= i < j ==> ms[i].id !in reservations)
  }

  /** A finalize may also be refused by its first pass, which has changed nothing yet. */
  ghost predicate FinalizeClean(mem: Mem, ms: seq<Mutation>) {
    Tidy(mem.reservations, ms) || RefusedEarly(mem, ms)
  }

  /**
   * Every granule is in range, or every granule is free already that is named before anything out of range
   * on its own target.
   */
  ghost predicate ReclaimClean(targets: Targets, xs: seq<Granule>) {
    || (forall x :: x in xs ==> InRange(targets, x))
    || (forall x :: Reaches(targets, xs, x) ==> FreeAt(targets, x))
  }

  /** Steps after which a holder's cache is the database again; the other steps are described below. */
  ghost predicate Clean(c: Cluster, s: Step) {
    match s
    case Finalizing(n, ms) => Holds(c, n) ==> FinalizeClean(c.nodes[n].mem, ms)
    case Releasing(n, ms) => Holds(c, n) ==> Tidy(c.nodes[n].mem.reservations, ms)
    case Reclaiming(n, xs, _) => Holds(c, n) ==> ReclaimClean(c.nodes[n].mem.targets, xs)
    case _ => true
  }

  // ---- writing a cache through ----

  /** The writes are exactly the difference between the two memories. */
  ghost predicate Tracks(before: Mem, after: Mem, w: Writes) {
    && after.targets == before.targets + w.targets
    && after.reservations == InsertAll(before.reservations, w.sets) - Elems(w.deletes)
  }

  lemma TrackedAgrees<T>(node: Node, db: Durable, mem: Mem, w: Writes, value: T)
    requires Agrees(node, db) && FencePasses(node, db) && Tracks(node.mem, mem, w)
    ensures var o := Persist(node.(mem := mem), db, w, value);
      Agrees(o.node, o.db) && o.reply == Ok(value)
  {
    InsertAllSubmap(node.mem.reservations, db.reservations, w.sets);
    NothingWritten(db, w);
  }

  lemma DirtyEntriesSuffice(before: Targets, after: Targets, dirty: set<Id>)
    requires before.Keys == after.Keys && forall t :: t in before && t !in dirty ==> after[t] == before[t]
    ensures before + DirtyEntries(after, dirty) == after
  {
  }

  lemma ReserveAgrees(node: Node, db: Durable, after: Targets, dirty: set<Id>, recs: seq<Record>)
    requires Agrees(node, db) && FencePasses(node, db) && ReservedFrom(node.mem.targets, after, recs)
    requires forall t :: t in node.mem.targets && t !in dirty ==> t in after && after[t] == node.mem.targets[t]
    ensures var o := ReserveOp(node, db, after, dirty, recs);
      Agrees(o.node, o.db)
  {
    var mem := node.mem.(targets := after, reservations := InsertAll(node.mem.reservations, recs));
    DirtyEntriesSuffice(node.mem.targets, after, dirty);
    NoDeletes(mem.reservations);
    TrackedAgrees(node, db, mem, Writes(DirtyEntries(after, dirty), recs, []), recs);
  }

  lemma ClaimAgrees(node: Node, db: Durable, bin: Id, want: nat, now: nat, ttl: nat)
    requires Agrees(node, db) && FencePasses(node, db)
    requires forall id :: id in db.reservations ==> db.reservations[id].id == id
    requires bin in node.mem.bins ==> NoDup(node.mem.bins[bin])
    ensures var o := ClaimOp(node, db, bin, want, now, ttl);
      Agrees(o.node, o.db)
  {
    var (mem, claimed) := ClaimFrom(node.mem, bin, want, now, ttl);
    NoDeletes(mem.reservations);
    if bin in node.mem.bins {
      DrainRecords(node.mem.bins[bin], node.mem.reservations, want, now, ClaimExpiry(now, ttl));
    }
    TrackedAgrees(node, db, mem, Writes(map[], claimed, []), claimed);
  }

  /** An accepted batch agrees, and a refused one does exactly if it left the memory alone. */
  lemma BatchAgreesIff(node: Node, db: Durable, b: Batch)
    requires Agrees(node, db) && node.reservationsLoaded && FencePasses(node, db)
    requires b.ok ==> WritesMatch(node.mem, b) && SameFleet(node.mem.targets, b.mem.targets)
    ensures var o := SettleBatch(node, db, b);
      Agrees(o.node, o.db) <==> b.ok || (b.mem.targets == db.targets && b.mem.reservations == db.reservations)
  {
    if b.ok {
      DirtyEntriesSuffice(node.mem.targets, b.mem.targets, b.dirty);
      TrackedAgrees(node, db, b.mem, Writes(DirtyEntries(b.mem.targets, b.dirty), b.sets, b.deletes), b.results);
    }
  }

  /** A tidy batch is either carried out or refused with nothing changed. */
  lemma TidyBatch(mem: Mem, ms: seq<Mutation>, kind: MutationKind, committed: set<Granule>)
    requires SoundMem(mem) && Tidy(mem.reservations, ms)
    ensures var b := ApplyMutations(mem, ms, kind, committed);
      && (!b.ok ==> b.mem == mem)
      && (b.ok ==> SameFleet(mem.targets, b.mem.targets) && WritesMatch(mem, b))
  {
    if DistinctIds(ms) {
      MutateAllMeans(mem, ms, kind, committed);
      if j :| 0 <= j < |ms| && BadIndexes(mem.reservations, ms[j]) && forall i :: 0 <= i < j ==> ms[i].id !in mem.reservations {
        RejectedBatchClean(mem, ms, kind, committed, j);
      } else {
        forall m | m in ms ensures !BadIndexes(mem.reservations, m) {
          var i :| 0 <= i < |ms| && ms[i] == m;
        }
      }
    }
  }

  /** An untidy batch is refused after some reservations have already changed in memory. */
  lemma UntidyChanges(mem: Mem, ms: seq<Mutation>, kind: MutationKind, committed: set<Granule>)
    requires SoundMem(mem) && !Tidy(mem.reservations, ms)
    ensures !ApplyMutations(mem, ms, kind, committed).ok
    ensures ApplyMutations(mem, ms, kind, committed).mem.reservations != mem.reservations
  {
    var k :| 0 <= k < |ms| && BadIndexes(mem.reservations, ms[k]);
    var j := FirstBad(mem.reservations, ms, k);
    RejectionStops(mem, ms, kind, committed, j);
    var front := ms[..j];
    MutateAllMeans(mem, front, kind, committed);
    var i :| 0 <= i < j && ms[i].id in mem.reservations;
    assert front[i] in front;
    assert forall m :: m in front ==> !BadIndexes(mem.reservations, m);
  }

  // ---- exactly when a holder's cache still agrees ----

  /** A release leaves the holder's cache equal to the database exactly when the batch is tidy. */
  lemma ReleaseAgreesIff(node: Node, db: Durable, ms: seq<Mutation>, committed: set<Granule>)
    requires Agrees(node, db) && node.reservationsLoaded && DurableSound(db) && FencePasses(node, db) && ms != []
    ensures var o := MutateOp(node, db, ms, Release, committed);
      Agrees(o.node, o.db) <==> Tidy(db.reservations, ms)
  {
    if Tidy(db.reservations, ms) {
      TidyBatch(node.mem, ms, Release, committed);
    } else {
      UntidyChanges(node.mem, ms, Release, committed);
    }
    BatchAgreesIff(node, db, ApplyMutations(node.mem, ms, Release, committed));
  }

  /** The same for finalize, whose first pass refuses before anything has changed. */
  lemma FinalizeAgreesIff(node: Node, db: Durable, ms: seq<Mutation>)
    requires Agrees(node, db) && node.reservationsLoaded && DurableSound(db) && FencePasses(node, db) && ms != []
    ensures var o := FinalizeOp(node, db, ms);
      Agrees(o.node, o.db) <==> FinalizeClean(node.mem, ms)
  {
    CheckAllMeaning(node.mem, ms);
    FastFinalizeRefines(node.mem, ms, {});
    if Tidy(db.reservations, ms) {
      TidyBatch(node.mem, ms, Finalize, {});
    } else {
      UntidyChanges(node.mem, ms, Finalize, {});
    }
    BatchAgreesIff(node, db, ApplyMutations(node.mem, ms, Finalize, {}));
  }

  /** The same for one visiting order: everything is in range, or everything visited was free already. */
  ghost predicate OrderClean(targets: Targets, order: seq<Granule>) {
    || (forall x :: x in order ==> InRange(targets, x))
    || (forall x :: x in Visited(targets, order) ==> FreeAt(targets, x))
  }

  lemma OrderAgreesIff(node: Node, db: Durable, order: seq<Granule>)
    requires Agrees(node, db) && ValidTargets(db.targets) && FencePasses(node, db) && order != []
    ensures var o := ReclaimOp(node, db, order);
      && (o.reply.Err? <==> exists x :: x in order && !InRange(db.targets, x))
      && (Agrees(o.node, o.db) <==> OrderClean(db.targets, order))
  {
    var r := ReclaimAll(node.mem.targets, order);
    ReclaimFrees(db.targets, order);
    WholeVisited(db.targets, order);
    if r.ok {
      var mem := node.mem.(targets := r.targets);
      DirtyEntriesSuffice(node.mem.targets, r.targets, r.dirty);
      NoDeletes(mem.reservations);
      TrackedAgrees(node, db, mem, Writes(DirtyEntries(r.targets, r.dirty), [], []), r.count);
    } else {
      SameSpansIff(db.targets, r.targets);
    }
  }

  ghost predicate AgreesAfter(node: Node, db: Durable, order: seq<Granule>) {
    var o := ReclaimOp(node, db, order);
    Agrees(o.node, o.db)
  }

  /**
   * In whatever order the targets are visited, reclaim answers with an error exactly when some granule is
   * out of range. The holder's cache is the database after every order exactly when the list is clean.
   */
  lemma ReclaimAgreesIff(node: Node, db: Durable, xs: seq<Granule>)
    requires Agrees(node, db) && ValidTargets(db.targets) && FencePasses(node, db) && xs != []
    ensures forall order :: VisitOrder(xs, order) ==>
      (ReclaimOp(node, db, order).reply.Err? <==> exists x :: x in xs && !InRange(db.targets, x))
    ensures (forall order :: VisitOrder(xs, order) ==> AgreesAfter(node, db, order)) <==> ReclaimClean(db.targets, xs)
  {
    forall order | VisitOrder(xs, order)
      ensures ReclaimOp(node, db, order).reply.Err? <==> exists x :: x in xs && !InRange(db.targets, x)
      ensures AgreesAfter(node, db, order) <==> OrderClean(db.targets, order)
    {
      OrderMembers(xs, order);
      OrderAgreesIff(node, db, order);
    }
    if ReclaimClean(db.targets, xs) {
      forall order | VisitOrder(xs, order) ensures OrderClean(db.targets, order) {
        CleanInEveryOrder(db.targets, xs, order);
      }
    } else {
      var x :| Reaches(db.targets, xs, x) && !FreeAt(db.targets, x);
      var order := ReachedIsVisited(db.targets, xs, x);
      OrderMembers(xs, order);
      assert !OrderClean(db.targets, order);
    }
  }

  lemma CleanInEveryOrder(targets: Targets, xs: seq<Granule>, order: seq<Granule>)
    requires ReclaimClean(targets, xs) && VisitOrder(xs, order)
    ensures OrderClean(targets, order)
  {
    OrderMembers(xs, order);
    forall x | x in Visited(targets, order) ensures Reaches(targets, xs, x) {
      VisitedIsReached(targets, xs, order, x);
    }
  }

  /** Valid targets of one fleet with the same free granules are the same. */
  lemma SameSpansIff(a: Targets, b: Targets)
    requires ValidTargets(a) && ValidTargets(b) && SameFleet(a, b)
    ensures a == b <==> forall x :: FreeAt(a, x) <==> FreeAt(b, x)
  {
    if forall x :: FreeAt(a, x) <==> FreeAt(b, x) {
      forall t | t in a ensures a[t] == b[t] {
        forall g ensures g in Spans.FreeSet(a[t].spans) <==> g in Spans.FreeSet(b[t].spans) {
          assert FreeAt(a, (t, g)) <==> FreeAt(b, (t, g));
        }
        Spans.CanonicalUnique(a[t].spans, b[t].spans);
      }
    }
  }

  // ---- clean steps keep the caches ----

  /** Nobody else's cache is touched when `n`'s operation is settled: others cannot pass the fence. */
  lemma SettleKeepsCache<T>(c: Cluster, n: Id, o: Leader.Outcome<T>)
    requires FenceInv(c) && CacheInv(c) && n in c.nodes && o.db.lease == c.db.lease && o.node.term == c.nodes[n].term
    requires o.db == c.db || Holds(c, n)
    requires Holds(c, n) ==> Agrees(o.node, o.db)
    ensures CacheInv(Settle(c, n, o))
  {
    var c' := Settle(c, n, o);
    forall m | Holds(c', m) && c'.nodes[m].targetsLoaded ensures Agrees(c'.nodes[m], c'.db) {
      if m != n && Holds(c, n) {
        OneHolder(c, m, n);
      }
    }
  }

  lemma ExpireAgrees(node: Node, db: Durable, ids: seq<Id>)
    requires Agrees(node, db) && node.reservationsLoaded && DurableSound(db) && FencePasses(node, db) && ids != []
    requires forall id :: id in ids ==> id in node.mem.reservations
    ensures var o := ExpireOp(node, db, ids);
      Agrees(o.node, o.db)
  {
    var ms := ReleaseWhole(ids);
    forall i | 0 <= i < |ms| ensures !BadIndexes(db.reservations, ms[i]) {
      assert ids[i] in ids;
      WholeSelection(db.reservations, ids[i]);
    }
    ReleaseAgreesIff(node, db, ms, db.markers * Candidates(node.mem.reservations, ids));
  }

  lemma FinalizeKeepsCache(c: Cluster, n: Id, ms: seq<Mutation>)
    requires CoreInv(c) && CacheInv(c) && ServingFull(c, n) && (Holds(c, n) ==> FinalizeClean(c.nodes[n].mem, ms))
    ensures CacheInv(Settle(c, n, FinalizeOp(c.nodes[n], c.db, ms)))
  {
    if Holds(c, n) && ms != [] {
      FinalizeAgreesIff(c.nodes[n], c.db, ms);
    }
    SettleKeepsCache(c, n, FinalizeOp(c.nodes[n], c.db, ms));
  }

  lemma ReleaseKeepsCache(c: Cluster, n: Id, ms: seq<Mutation>)
    requires CoreInv(c) && CacheInv(c) && ServingFull(c, n) && (Holds(c, n) ==> Tidy(c.nodes[n].mem.reservations, ms))
    ensures CacheInv(Settle(c, n, MutateOp(c.nodes[n], c.db, ms, Release, {})))
  {
    if Holds(c, n) && ms != [] {
      ReleaseAgreesIff(c.nodes[n], c.db, ms, {});
    }
    SettleKeepsCache(c, n, MutateOp(c.nodes[n], c.db, ms, Release, {}));
  }

  lemma ReclaimKeepsCache(c: Cluster, n: Id, xs: seq<Granule>, order: seq<Granule>)
    requires CoreInv(c) && CacheInv(c) && ServingFull(c, n) && VisitOrder(xs, order)
    requires Holds(c, n) ==> ReclaimClean(c.nodes[n].mem.targets, xs)
    ensures CacheInv(Settle(c, n, ReclaimOp(c.nodes[n], c.db, order)))
  {
    if Holds(c, n) && order != [] {
      CleanInEveryOrder(c.db.targets, xs, order);
      OrderAgreesIff(c.nodes[n], c.db, order);
    }
    SettleKeepsCache(c, n, ReclaimOp(c.nodes[n], c.db, order));
  }

  lemma ExpireKeepsCache(c: Cluster, n: Id, ids: seq<Id>)
    requires CoreInv(c) && CacheInv(c) && ServingFull(c, n)
    requires forall id :: id in ids ==> id in c.nodes[n].mem.reservations
    ensures CacheInv(Settle(c, n, ExpireOp(c.nodes[n], c.db, ids)))
  {
    if Holds(c, n) && ids != [] {
      ExpireAgrees(c.nodes[n], c.db, ids);
    }
    SettleKeepsCache(c, n, ExpireOp(c.nodes[n], c.db, ids));
  }

  lemma ReserveKeepsCache(c: Cluster, n: Id, bin: Id, after: Targets, dirty: set<Id>, recs: seq<Record>)
    requires CoreInv(c) && CacheInv(c) && Serving(c, n) && Planned(c, n, after, dirty, recs)
    ensures CacheInv(Settle(c, n, ReserveOp(c.nodes[n], c.db, after, dirty, recs)))
    ensures CacheInv(Settle(c, n, TopUpOp(c.nodes[n], c.db, bin, after, dirty, recs)))
  {
    if Holds(c, n) {
      ReserveAgrees(c.nodes[n], c.db, after, dirty, recs);
    }
    SettleKeepsCache(c, n, ReserveOp(c.nodes[n], c.db, after, dirty, recs));
    SettleKeepsCache(c, n, TopUpOp(c.nodes[n], c.db, bin, after, dirty, recs));
  }

  lemma ClaimKeepsCache(c: Cluster, n: Id, bin: Id, want: nat, now: nat, ttl: nat)
    requires CoreInv(c) && CacheInv(c) && ServingFull(c, n)
    requires bin in c.nodes[n].mem.bins ==> NoDup(c.nodes[n].mem.bins[bin])
    ensures CacheInv(Settle(c, n, ClaimOp(c.nodes[n], c.db, bin, want, now, ttl)))
  {
    if Holds(c, n) {
      ClaimAgrees(c.nodes[n], c.db, bin, want, now, ttl);
    }
    SettleKeepsCache(c, n, ClaimOp(c.nodes[n], c.db, bin, want, now, ttl));
  }

  lemma OperationKeepsCache(c: Cluster, s: Step)
    requires CoreInv(c) && CacheInv(c) && Operation(s) && Enabled(c, s) && Clean(c, s)
    requires s.Claiming? && s.bin in c.nodes[s.n].mem.bins ==> NoDup(c.nodes[s.n].mem.bins[s.bin])
    ensures CacheInv(Do(c, s))
  {
    match s
    case Reserving(n, after, dirty, recs) => ReserveKeepsCache(c, n, [], after, dirty, recs);
    case Refilling(n, bin, after, dirty, recs) => ReserveKeepsCache(c, n, bin, after, dirty, recs);
    case Claiming(n, bin, want, now, ttl) => ClaimKeepsCache(c, n, bin, want, now, ttl);
    case Finalizing(n, ms) => FinalizeKeepsCache(c, n, ms);
    case Releasing(n, ms) => ReleaseKeepsCache(c, n, ms);
    case Reclaiming(n, xs, order) => ReclaimKeepsCache(c, n, xs, order);
    case Expiring(n, _, _, ids) => ExpireKeepsCache(c, n, ids);
  }

  lemma LoadsKeepCache(c: Cluster, n: Id, node: Node)
    requires CacheInv(c) && n in c.nodes && node.term == c.nodes[n].term
    requires Holds(c, n) ==> Agrees(node, c.db)
    ensures CacheInv(c.(nodes := c.nodes[n := node]))
  {
    var c' := c.(nodes := c.nodes[n := node]);
    assert forall m :: m != n ==> (Holds(c', m) <==> Holds(c, m));
  }

  lemma RenewalKeepsCache(c: Cluster, n: Id, clock: Clock, rpc: Rpc)
    requires FenceInv(c) && CacheInv(c) && n in c.nodes && |c.log| < U64_MAX
    ensures CacheInv(Elect(c, n, Renew(n, c.nodes[n], c.db, clock, rpc)))
  {
    var c' := Elect(c, n, Renew(n, c.nodes[n], c.db, clock, rpc));
    forall m | Holds(c', m) && c'.nodes[m].targetsLoaded ensures Agrees(c'.nodes[m], c'.db) {
      RenewalHolders(c, n, clock, rpc, m);
    }
  }

  lemma TearKeepsCache(c: Cluster, n: Id, op: Step, part: Writes)
    requires FenceInv(c) && Holds(c, n)
    ensures CacheInv(Tear(c, n, op, part))
  {
    forall m ensures !Holds(Tear(c, n, op, part), m) {
      NoHolderLeft(c, n, op, part, m);
    }
  }

  lemma OthersKeepCache(c: Cluster, s: Step)
    requires CoreInv(c) && CacheInv(c) && Enabled(c, s) && |c.log| < U64_MAX
    requires !Operation(s)
    ensures CacheInv(Do(c, s))
  {
    var c' := Do(c, s);
    match s
    case Join(n) => assert forall m :: Holds(c', m) ==> Holds(c, m) && m != n;
    case Renewal(n, clock, rpc) => RenewalKeepsCache(c, n, clock, rpc);
    case LoadTargets(n) => LoadsKeepCache(c, n, RefreshTargets(c.nodes[n], c.db));
    case LoadFull(n) =>
      assert StillReserved(c.db.reservations) == c.db.reservations;
      LoadsKeepCache(c, n, RefreshFull(c.nodes[n], c.db));
    case LoadTorn(n, seen, full) => LoadsKeepCache(c, n, c'.nodes[n]);
    case Bookkeeping(n) =>
      assert c'.nodes == c.nodes;
      assert forall m :: Holds(c', m) <==> Holds(c, m);
    case Torn(n, op, l, landed) => TearKeepsCache(c, n, op, PartAt(WritesOf(c, op), l, landed));
    case Marking(xs) => assert forall m :: Holds(c', m) <==> Holds(c, m);
    case Unmarking(xs) => assert forall m :: Holds(c', m) <==> Holds(c, m);
  }

  /** Every clean step leaves the caches as the database is. */
  lemma CleanStep(c: Cluster, s: Step)
    requires CoreInv(c) && CacheInv(c) && Enabled(c, s) && Clean(c, s) && |c.log| < U64_MAX
    requires s.Claiming? && s.bin in c.nodes[s.n].mem.bins ==> NoDup(c.nodes[s.n].mem.bins[s.bin])
    ensures CacheInv(Do(c, s))
  {
    if Operation(s) {
      OperationKeepsCache(c, s);
    } else {
      OthersKeepCache(c, s);
    }
  }
}
