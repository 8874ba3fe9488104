/** What every run of the cluster keeps: the fence, the caches, the ledger and the bins. */
module Failover {
  import opened Common
  import opened Records
  import opened Allocator
  import opened FastFinalize
  import opened Recycle
  import opened Visits
  import opened Reserve
  import opened Leader
  import opened Cluster

  // ---- the fence ----

  /** Epochs never fall, and an epoch belongs to one owner, over grants and commits alike. */
  ghost predicate Rising(log: seq<Event>) {
    forall i, j :: 0 <= i < j < |log| ==>
      log[i].epoch < log[j].epoch || (log[i].epoch == log[j].epoch && log[i].owner == log[j].owner)
  }

  ghost predicate TermsGranted(nodes: map<Id, Node>, log: seq<Event>) {
    forall n :: n in nodes && nodes[n].term.Some? ==> Granted(n, nodes[n].term.value.epoch) in log
  }

  ghost predicate LogRecordsLease(lease: Option<Lease>, log: seq<Event>) {
    && (lease.None? <==> log == [])
    && (lease.Some? ==> lease.value.epoch == log[|log| - 1].epoch && lease.value.owner == log[|log| - 1].owner)
    && (lease.Some? ==> 1 <= lease.value.epoch <= |log|)
  }

  ghost predicate FenceInv(c: Cluster) {
    && Rising(c.log)
    && LogRecordsLease(c.db.lease, c.log)
    && TermsGranted(c.nodes, c.log)
    && (forall e :: e in c.log ==> e.epoch >= 1 && Granted(e.owner, e.epoch) in c.log)
  }

  lemma HolderOwnsLease(c: Cluster, n: Id)
    requires FenceInv(c) && Holds(c, n)
    ensures c.db.lease.Some? && c.db.lease.value.owner == n
  {
    var e := Granted(n, c.nodes[n].term.value.epoch);
    assert e in c.log;
    var i :| 0 <= i < |c.log| && c.log[i] == e;
    assert c.log[i].epoch >= 1;
  }

  /** At most one process passes the fence. */
  lemma OneHolder(c: Cluster, m: Id, n: Id)
    requires FenceInv(c) && Holds(c, m) && Holds(c, n)
    ensures m == n
  {
    HolderOwnsLease(c, m);
    HolderOwnsLease(c, n);
  }

  lemma AppendRises(log: seq<Event>, e: Event)
    requires Rising(log)
    requires log != [] ==> var last := log[|log| - 1];
      last.epoch < e.epoch || (last.epoch == e.epoch && last.owner == e.owner)
    ensures Rising(log + [e])
  {
  }

  /** A grant advances the epoch, or renews the holder's own. */
  lemma GrantRises(c: Cluster, n: Id, now: nat)
    requires FenceInv(c) && |c.log| < U64_MAX
    ensures var e := DecideLeaseGrant(c.db.lease, n, now);
      e.Some? ==> Rising(c.log + [Granted(n, e.value)]) && 1 <= e.value <= |c.log| + 1
  {
    var e := DecideLeaseGrant(c.db.lease, n, now);
    if e.Some? {
      AppendRises(c.log, Granted(n, e.value));
    }
  }

  /** A renewal writes at most the lease, and believes only an epoch it was granted. */
  lemma RenewShape(me: Id, node: Node, db: Durable, clock: Clock, rpc: Rpc)
    ensures var e := Renew(me, node, db, clock, rpc);
      && (e.granted.None? ==> e.db == db)
      && (e.granted.Some? ==>
           && DecideLeaseGrant(db.lease, me, clock.grant) == e.granted
           && e.db.lease.Some? && e.db.lease.value.owner == me && e.db.lease.value.epoch == e.granted.value
           && e.db == db.(lease := e.db.lease))
      && (e.node.term.Some? ==>
           || e.granted == Some(e.node.term.value.epoch)
           || (node.term.Some? && e.node.term.value.epoch == node.term.value.epoch))
      && e.node.mem == node.mem
  {
  }

  /** After a renewal a process is loaded only under the term it was loaded in. */
  lemma RenewReloads(me: Id, node: Node, db: Durable, clock: Clock, rpc: Rpc)
    ensures var e := Renew(me, node, db, clock, rpc);
      e.node.term.Some? && (e.node.targetsLoaded || e.node.reservationsLoaded) ==>
        && node.term.Some? && e.node.term.value.epoch == node.term.value.epoch
        && e.node.targetsLoaded == node.targetsLoaded && e.node.reservationsLoaded == node.reservationsLoaded
  {
  }

  lemma GrantKeepsFence(c: Cluster, n: Id, e: Election, now: nat)
    requires FenceInv(c) && n in c.nodes && |c.log| < U64_MAX
    requires e.granted.Some? && DecideLeaseGrant(c.db.lease, n, now) == e.granted
    requires e.db.lease.Some? && e.db.lease.value.owner == n && e.db.lease.value.epoch == e.granted.value
    requires e.node.term.Some? ==> Granted(n, e.node.term.value.epoch) in c.log + [Granted(n, e.granted.value)]
    ensures FenceInv(Elect(c, n, e))
  {
    GrantRises(c, n, now);
    assert forall x :: x in c.log ==> x in Elect(c, n, e).log;
  }

  lemma ElectKeepsFence(c: Cluster, n: Id, clock: Clock, rpc: Rpc)
    requires FenceInv(c) && n in c.nodes && |c.log| < U64_MAX
    ensures FenceInv(Elect(c, n, Renew(n, c.nodes[n], c.db, clock, rpc)))
  {
    var e := Renew(n, c.nodes[n], c.db, clock, rpc);
    RenewShape(n, c.nodes[n], c.db, clock, rpc);
    if e.granted.Some? {
      GrantKeepsFence(c, n, e, clock.grant);
    }
  }

  lemma SettleKeepsFence<T>(c: Cluster, n: Id, o: Leader.Outcome<T>)
    requires FenceInv(c) && n in c.nodes && o.node.term == c.nodes[n].term && o.db.lease == c.db.lease
    requires o.committed ==> Holds(c, n)
    ensures FenceInv(Settle(c, n, o))
  {
    var log := Settle(c, n, o).log;
    if o.committed {
      CommitRises(c, n);
    }
    GrantsRemain(c, n, o.node, log[|c.log|..]);
  }

  /** Appending events of granted epochs keeps every term and every event granted. */
  lemma GrantsRemain(c: Cluster, n: Id, node: Node, more: seq<Event>)
    requires FenceInv(c) && n in c.nodes && node.term == c.nodes[n].term
    requires forall e :: e in more ==> e.epoch >= 1 && Granted(e.owner, e.epoch) in c.log
    ensures TermsGranted(c.nodes[n := node], c.log + more)
    ensures forall e :: e in c.log + more ==> e.epoch >= 1 && Granted(e.owner, e.epoch) in c.log + more
  {
    assert forall e :: e in c.log + more <==> e in c.log || e in more;
  }

  lemma CommitRises(c: Cluster, n: Id)
    requires FenceInv(c) && Holds(c, n)
    ensures Rising(c.log + [Committed(n, LeaseEpoch(c.db))])
    ensures LogRecordsLease(c.db.lease, c.log + [Committed(n, LeaseEpoch(c.db))])
    ensures Granted(n, LeaseEpoch(c.db)) in c.log && LeaseEpoch(c.db) >= 1
  {
    HolderOwnsLease(c, n);
    AppendRises(c.log, Committed(n, LeaseEpoch(c.db)));
    var last := c.log[|c.log| - 1];
    assert last in c.log;
  }

  // ---- the caches ----

  ghost predicate Submap(a: Reservations, b: Reservations) {
    forall id :: id in a ==> id in b && a[id] == b[id]
  }

  /**
   * What a holder's cache needs for its next commit to be safe: it offers no granule that is durably
   * reserved or marked, and every reservation it knows is durable.
   */
  ghost predicate Covers(node: Node, db: Durable) {
    && Sound(node.mem.targets, db.reservations)
    && SameFleet(node.mem.targets, db.targets)
    && Submap(node.mem.reservations, db.reservations)
    && forall x :: x in db.markers ==> !FreeAt(node.mem.targets, x)
  }

  ghost predicate CoverInv(c: Cluster) {
    forall n :: Holds(c, n) && c.nodes[n].targetsLoaded ==> Covers(c.nodes[n], c.db)
  }

  /** Nobody else's cache matters when `n`'s operation is settled: others cannot pass the fence. */
  lemma SettleKeepsCover<T>(c: Cluster, n: Id, o: Leader.Outcome<T>)
    requires FenceInv(c) && CoverInv(c) && n in c.nodes && o.db.lease == c.db.lease && o.node.term == c.nodes[n].term
    requires o.db == c.db || Holds(c, n)
    requires Holds(c, n) && o.node.targetsLoaded ==> Covers(o.node, o.db)
    ensures CoverInv(Settle(c, n, o))
  {
    var c' := Settle(c, n, o);
    forall m | Holds(c', m) && c'.nodes[m].targetsLoaded ensures Covers(c'.nodes[m], c'.db) {
      if m != n && Holds(c, n) {
        OneHolder(c, m, n);
      }
    }
  }

  /** A cached reservation set that is part of a sound one is sound. */
  lemma SubmapSound(targets: Targets, a: Reservations, b: Reservations)
    requires Sound(targets, b) && Submap(a, b)
    ensures Sound(targets, a)
  {
    assert forall id, x :: HeldBy(a, id, x) ==> HeldBy(b, id, x);
  }

  lemma SameFleetThrough(a: Targets, b: Targets, c: Targets)
    requires SameFleet(a, b) && SameFleet(a, c)
    ensures SameFleet(b, c)
  {
  }

  // ---- commits from a cache that covers the database ----

  /** Writing some targets over others is sound if the new ones are and the old ones hide what is reserved. */
  lemma MixedSound(newer: Targets, prior: Targets, res: Reservations, dirty: set<Id>)
    requires Sound(newer, res) && ValidTargets(prior) && SameFleet(newer, prior)
    requires forall id, x :: HeldBy(res, id, x) && x.0 !in dirty ==> !FreeAt(prior, x)
    ensures Sound(prior + DirtyEntries(newer, dirty), res)
    ensures SameFleet(newer, prior + DirtyEntries(newer, dirty))
  {
    var mixed := prior + DirtyEntries(newer, dirty);
    forall id, x | HeldBy(res, id, x) ensures InRange(mixed, x) && !FreeAt(mixed, x) {
      assert InRange(newer, x) && !FreeAt(newer, x);
    }
  }

  /** What a commit of the cache's dirty targets leaves, if the cache is sound for the new reservations. */
  lemma CommitCovers(node: Node, db: Durable, dirty: set<Id>, res: Reservations)
    requires DurableSound(db) && SameFleet(node.mem.targets, db.targets)
    requires Sound(node.mem.targets, res) && Submap(node.mem.reservations, res)
    requires forall id, x :: HeldBy(res, id, x) && x.0 !in dirty ==> !FreeAt(db.targets, x)
    requires forall x :: x in db.markers ==> !FreeAt(node.mem.targets, x)
    ensures var db' := db.(targets := db.targets + DirtyEntries(node.mem.targets, dirty), reservations := res);
      Covers(node, db') && DurableSound(db')
  {
    MixedSound(node.mem.targets, db.targets, res, dirty);
  }

  lemma ReserveHeld(before: Targets, after: Targets, db: Durable, dirty: set<Id>, recs: seq<Record>, part: seq<Record>)
    requires DurableSound(db) && ReservedFrom(before, after, recs) && forall r :: r in part ==> r in recs
    requires forall t :: t in before && t !in dirty ==> t in after && after[t] == before[t]
    ensures forall id, x :: HeldBy(InsertAll(db.reservations, part), id, x) && x.0 !in dirty ==> !FreeAt(db.targets, x)
  {
    InsertAllHeld(db.reservations, part);
    forall id, x | HeldBy(InsertAll(db.reservations, part), id, x) && FreeAt(db.targets, x) ensures x.0 in dirty {
      if !HeldBy(db.reservations, id, x) {
        PartIsNew(recs, part, id, x);
        NewGranulesWereFree(before, after, recs, id, x);
      }
    }
  }

  /** The planner's batch, written through. */
  lemma ReserveCovers(node: Node, db: Durable, after: Targets, dirty: set<Id>, recs: seq<Record>)
    requires Covers(node, db) && DurableSound(db) && ReservedFrom(node.mem.targets, after, recs)
    requires forall t :: t in node.mem.targets && t !in dirty ==> t in after && after[t] == node.mem.targets[t]
    ensures var w := Writes(DirtyEntries(after, dirty), recs, []);
      var mem := node.mem.(targets := after, reservations := InsertAll(node.mem.reservations, recs));
      Covers(node.(mem := mem), ApplyWrites(db, w)) && DurableSound(ApplyWrites(db, w))
  {
    var res := InsertAll(db.reservations, recs);
    var mem := node.mem.(targets := after, reservations := InsertAll(node.mem.reservations, recs));
    NoDeletes(res);
    ReserveKeepsSound(node.mem.targets, db.reservations, after, recs);
    SameFleetThrough(node.mem.targets, after, db.targets);
    ReserveHeld(node.mem.targets, after, db, dirty, recs, recs);
    InsertAllSubmap(node.mem.reservations, db.reservations, recs);
    CommitCovers(node.(mem := mem), db, dirty, res);
  }

  lemma NoDeletes(res: Reservations)
    ensures res - Elems([]) == res
  {
    assert Elems<Id>([]) == {};
  }

  lemma {:induction false} InsertAllSubmap(a: Reservations, b: Reservations, recs: seq<Record>)
    requires Submap(a, b)
    ensures Submap(InsertAll(a, recs), InsertAll(b, recs))
  {
    if recs != [] {
      InsertAllSubmap(a, b, recs[..|recs| - 1]);
    }
  }

  lemma ClaimCovers(node: Node, db: Durable, bin: Id, want: nat, now: nat, ttl: nat)
    requires Covers(node, db) && DurableSound(db)
    requires bin in node.mem.bins ==> NoDup(node.mem.bins[bin])
    ensures var (mem, claimed) := ClaimFrom(node.mem, bin, want, now, ttl);
      var w := Writes(map[], claimed, []);
      && Covers(node.(mem := mem), ApplyWrites(db, w)) && DurableSound(ApplyWrites(db, w))
      && NoDup(IdsOf(claimed))
      && forall r :: r in claimed ==> ClaimedFrom(db.reservations, r, now, ClaimExpiry(now, ttl))
  {
    var (mem, claimed) := ClaimFrom(node.mem, bin, want, now, ttl);
    var res := InsertAll(db.reservations, claimed);
    NoDeletes(res);
    assert DirtyEntries(node.mem.targets, {}) == map[];
    if bin in node.mem.bins {
      var expiry := ClaimExpiry(now, ttl);
      DrainRecords(node.mem.bins[bin], node.mem.reservations, want, now, expiry);
      DrainIds(node.mem.bins[bin], node.mem.reservations, want, now, expiry);
      BumpsKeepSound(node.mem.targets, db.reservations, claimed, now, expiry);
      BumpsKeepHoldings(db.reservations, claimed, now, expiry);
      InsertAllSubmap(node.mem.reservations, db.reservations, claimed);
    }
    CommitCovers(node.(mem := mem), db, {}, res);
  }

  lemma BumpsKeepSound(targets: Targets, res: Reservations, recs: seq<Record>, now: nat, expiry: nat)
    requires Sound(targets, res) && forall r :: r in recs ==> ClaimedFrom(res, r, now, expiry)
    ensures Sound(targets, InsertAll(res, recs))
  {
    BumpsKeepHoldings(res, recs, now, expiry);
  }

  // ---- a batch carried out on a part of the durable reservations ----

  /** `b'` differs from `b` as `a'` differs from `a`. */
  ghost predicate Lifts(a: Reservations, b: Reservations, a': Reservations, b': Reservations) {
    && Submap(a, b) && Submap(a', b')
    && (forall id :: id in a' ==> id in a)
    && (forall id :: id in a && id in b' ==> id in a')
    && (forall id :: id !in a ==> (id in b' <==> id in b) && (id in b ==> b'[id] == b[id]))
  }

  lemma {:induction false} InsertAllKeeps(res: Reservations, recs: seq<Record>, ids: set<Id>)
    requires forall r :: r in recs ==> r.id in ids
    ensures forall id :: id !in ids ==>
      (id in InsertAll(res, recs) <==> id in res) && (id in res ==> InsertAll(res, recs)[id] == res[id])
    ensures ids <= res.Keys ==> InsertAll(res, recs).Keys == res.Keys
  {
    if recs != [] {
      InsertAllKeeps(res, recs[..|recs| - 1], ids);
    }
  }

  lemma WritesLift(a: Reservations, b: Reservations, sets: seq<Record>, deletes: seq<Id>)
    requires Submap(a, b)
    requires (forall r :: r in sets ==> r.id in a) && (forall d :: d in deletes ==> d in a)
    ensures Lifts(a, b, InsertAll(a, sets) - Elems(deletes), InsertAll(b, sets) - Elems(deletes))
  {
    InsertAllSubmap(a, b, sets);
    InsertAllKeeps(a, sets, a.Keys);
    InsertAllKeeps(b, sets, a.Keys);
  }

  /** Granules only move from reserved to free, and what the cache does not know stays as it was. */
  lemma LiftSound(targets: Targets, targets': Targets, a: Reservations, b: Reservations, a': Reservations, b': Reservations)
    requires Sound(targets, b) && Sound(targets', a') && SameFleet(targets, targets') && Lifts(a, b, a', b')
    requires forall id, x :: HeldBy(a', id, x) ==> HeldBy(a, id, x)
    requires forall x :: FreeAt(targets', x) && !FreeAt(targets, x) ==> exists id :: HeldBy(a, id, x)
    ensures Sound(targets', b')
    ensures forall id, x :: HeldBy(b', id, x) ==> HeldBy(b, id, x)
  {
    forall id, x | HeldBy(b', id, x)
      ensures HeldBy(b, id, x) && InRange(targets', x) && !FreeAt(targets', x)
    {
      if id in a {
        assert HeldBy(a', id, x) && HeldBy(a, id, x);
      } else {
        assert HeldBy(b, id, x);
        assert forall other :: HeldBy(a, other, x) ==> HeldBy(b, other, x);
      }
    }
  }

  /** What an accepted batch leaves was held before, and what it frees was held by a reservation it names. */
  lemma BatchMoves(mem: Mem, ms: seq<Mutation>, kind: MutationKind, committed: set<Granule>, b: Batch)
    requires b.ok && SoundMem(mem) && BatchMeans(mem, ms, kind, committed, b)
    ensures forall id, x :: HeldBy(b.mem.reservations, id, x) ==> HeldBy(mem.reservations, id, x)
    ensures forall x :: FreeAt(b.mem.targets, x) && !FreeAt(mem.targets, x) ==>
      kind == Release && x !in committed && SelectedIn(mem.reservations, ms, x) && exists id :: HeldBy(mem.reservations, id, x)
  {
    forall id, x | HeldBy(b.mem.reservations, id, x) ensures HeldBy(mem.reservations, id, x) {
      if m :| m in ms && m.id == id {
        assert kind == Release;
      } else {
        assert id !in MutatedIds(ms);
      }
    }
    forall x | FreeAt(b.mem.targets, x) && !FreeAt(mem.targets, x) ensures exists id :: HeldBy(mem.reservations, id, x) {
      var m :| m in ms && x in SelectedBy(mem.reservations, m);
      SelectedHeld(mem.reservations, m, x);
    }
  }

  /** An accepted batch, written through. */
  lemma BatchCovers(node: Node, db: Durable, ms: seq<Mutation>, kind: MutationKind, committed: set<Granule>)
    requires Covers(node, db) && DurableSound(db) && DistinctIds(ms)
    requires MutateAll(node.mem, ms, kind, committed).ok
    requires kind == Release ==> forall x :: x in db.markers && SelectedIn(node.mem.reservations, ms, x) ==> x in committed
    ensures var b := MutateAll(node.mem, ms, kind, committed);
      var w := Writes(DirtyEntries(b.mem.targets, b.dirty), b.sets, b.deletes);
      Covers(node.(mem := b.mem), ApplyWrites(db, w)) && DurableSound(ApplyWrites(db, w))
  {
    var b := MutateAll(node.mem, ms, kind, committed);
    var a, a', res := node.mem.reservations, b.mem.reservations, InsertAll(db.reservations, b.sets) - Elems(b.deletes);
    SubmapSound(node.mem.targets, a, db.reservations);
    MutateAllMeans(node.mem, ms, kind, committed);
    MutateAllNames(node.mem, ms, kind, committed);
    BatchMoves(node.mem, ms, kind, committed, b);
    WritesLift(a, db.reservations, b.sets, b.deletes);
    LiftSound(node.mem.targets, b.mem.targets, a, db.reservations, a', res);
    SameFleetThrough(node.mem.targets, b.mem.targets, db.targets);
    CommitCovers(node.(mem := b.mem), db, b.dirty, res);
  }

  /** No visited granule is marked or reserved. */
  ghost predicate OrderSafe(db: Durable, order: seq<Granule>) {
    forall x :: x in Visited(db.targets, order) ==> Unclaimed(db, x)
  }

  lemma SafeInEveryOrder(db: Durable, xs: seq<Granule>, order: seq<Granule>)
    requires ReclaimSafe(db, xs) && VisitOrder(xs, order)
    ensures OrderSafe(db, order)
  {
    forall x | x in Visited(db.targets, order) ensures Unclaimed(db, x) {
      VisitedIsReached(db.targets, xs, order, x);
    }
  }

  /** A reclaim, carried out or refused halfway. */
  lemma ReclaimCovers(node: Node, db: Durable, order: seq<Granule>)
    requires Covers(node, db) && DurableSound(db) && OrderSafe(db, order)
    ensures var r := ReclaimAll(node.mem.targets, order);
      var node' := node.(mem := node.mem.(targets := r.targets));
      var w := Writes(DirtyEntries(r.targets, r.dirty), [], []);
      && Covers(node', ApplyWrites(db, w)) && DurableSound(ApplyWrites(db, w))
      && (!r.ok ==> Covers(node', db))
  {
    var r := ReclaimAll(node.mem.targets, order);
    VisitedFleet(db.targets, node.mem.targets, order);
    ReclaimFrees(node.mem.targets, order);
    assert forall id, x :: x in Visited(db.targets, order) ==> !HeldBy(db.reservations, id, x);
    OrderSoundIff(node.mem.targets, db.reservations, order);
    SameFleetThrough(node.mem.targets, r.targets, db.targets);
    NoDeletes(db.reservations);
    CommitCovers(node.(mem := node.mem.(targets := r.targets)), db, r.dirty, db.reservations);
  }

  lemma {:induction false} VisitedFleet(a: Targets, b: Targets, xs: seq<Granule>)
    requires SameFleet(b, a)
    ensures Visited(a, xs) == Visited(b, xs)
  {
    if xs != [] {
      VisitedFleet(a, b, xs[..|xs| - 1]);
    }
  }

  // ---- refused batches ----

  /** A refused finalize has dropped reservations from memory and nothing else. */
  lemma RefusedFinalize(mem: Mem, ms: seq<Mutation>, committed: set<Granule>)
    requires SoundMem(mem) && !ApplyMutations(mem, ms, Finalize, committed).ok
    ensures var b := ApplyMutations(mem, ms, Finalize, committed);
      b.mem.targets == mem.targets && Submap(b.mem.reservations, mem.reservations)
  {
    if DistinctIds(ms) {
      MutateAllMeans(mem, ms, Finalize, committed);
      var m :| m in ms && BadIndexes(mem.reservations, m);
      var k :| 0 <= k < |ms| && ms[k] == m;
      var j := FirstBad(mem.reservations, ms, k);
      RejectionStops(mem, ms, Finalize, committed, j);
      assert forall m :: m in ms[..j] ==> !BadIndexes(mem.reservations, m);
      MutateAllMeans(mem, ms[..j], Finalize, committed);
      MutateAllNames(mem, ms[..j], Finalize, committed);
      var b := MutateAll(mem, ms[..j], Finalize, committed);
      forall id | id in b.mem.reservations ensures b.mem.reservations[id] == mem.reservations[id] {
        assert id !in MutatedIds(ms[..j]);
      }
    }
  }

  lemma SelectsSomething(res: Reservations, m: Mutation)
    requires m.id in res && !BadIndexes(res, m) && res[m.id].placements != []
    ensures SelectedBy(res, m) != {}
  {
    var ps := res[m.id].placements;
    NormalizeMeaning(|ps|, m.indexes);
    var indexes := NormalizeIndexes(|ps|, m.indexes).value;
    var i: nat := if m.indexes == [] then 0 else m.indexes[0];
    assert i in indexes;
    var k :| 0 <= k < |indexes| && indexes[k] == i;
    assert Selected(ps, indexes)[k] in Selected(ps, indexes);
    assert GranuleAt(Selected(ps, indexes)[k]) in SelectedBy(res, m);
  }

  /** Only the whole of a reservation without placements selects nothing. */
  lemma EmptySelection(res: Reservations, m: Mutation)
    requires m.id in res && !BadIndexes(res, m) && SelectedBy(res, m) == {}
    ensures SelectsAll(res, m)
  {
    assert res[m.id].placements == [] by {
      if res[m.id].placements != [] {
        SelectsSomething(res, m);
      }
    }
  }

  /** A release refused before it selected anything has freed nothing. */
  lemma RefusedRelease(mem: Mem, ms: seq<Mutation>, committed: set<Granule>, j: nat)
    requires SoundMem(mem) && DistinctIds(ms) && j < |ms| && BadIndexes(mem.reservations, ms[j])
    requires forall i :: 0 <= i < j ==> !BadIndexes(mem.reservations, ms[i])
    ensures var b := MutateAll(mem, ms, Release, committed);
      && !b.ok && SoundMem(b.mem) && SameFleet(mem.targets, b.mem.targets)
      && (forall x :: FreeAt(b.mem.targets, x) <==>
           FreeAt(mem.targets, x) || (x !in committed && SelectedIn(mem.reservations, ms[..j], x)))
      && ((forall i :: 0 <= i < j ==> SelectedBy(mem.reservations, ms[i]) == {}) ==>
           Submap(b.mem.reservations, mem.reservations))
  {
    RejectionStops(mem, ms, Release, committed, j);
    var front := ms[..j];
    assert forall m :: m in front ==> !BadIndexes(mem.reservations, m);
    MutateAllMeans(mem, front, Release, committed);
    MutateAllNames(mem, front, Release, committed);
    var b := MutateAll(mem, front, Release, committed);
    if forall i :: 0 <= i < j ==> SelectedBy(mem.reservations, ms[i]) == {} {
      forall id | id in b.mem.reservations ensures b.mem.reservations[id] == mem.reservations[id] {
        if m :| m in front && m.id == id {
          EmptySelection(mem.reservations, m);
        } else {
          assert id !in MutatedIds(front);
        }
      }
    }
  }

  // ---- every step keeps the fence, the caches and the ledger ----

  ghost predicate CoreInv(c: Cluster) {
    FenceInv(c) && CoverInv(c) && DurableSound(c.db)
  }

  lemma PersistKeeps<T>(c: Cluster, n: Id, mem: Mem, w: Writes, value: T)
    requires CoreInv(c) && Serving(c, n)
    requires Holds(c, n) ==> Covers(c.nodes[n].(mem := mem), ApplyWrites(c.db, w)) && DurableSound(ApplyWrites(c.db, w))
    ensures CoreInv(Settle(c, n, Persist(c.nodes[n].(mem := mem), c.db, w, value)))
  {
    var o := Persist(c.nodes[n].(mem := mem), c.db, w, value);
    NothingWritten(c.db, w);
    SettleKeepsFence(c, n, o);
    SettleKeepsCover(c, n, o);
  }

  lemma NothingWritten(db: Durable, w: Writes)
    ensures NoWrites(w) ==> ApplyWrites(db, w) == db
  {
    assert NoWrites(w) ==> Elems(w.deletes) == {} && db.targets + w.targets == db.targets && db.reservations - {} == db.reservations;
  }

  /** An operation that persists nothing and leaves a holder's cache covering the database. */
  lemma QuietStep<T>(c: Cluster, n: Id, o: Leader.Outcome<T>)
    requires CoreInv(c) && n in c.nodes
    requires !o.committed && o.db == c.db && o.node == c.nodes[n].(mem := o.node.mem)
    requires Holds(c, n) && c.nodes[n].targetsLoaded ==> Covers(o.node, c.db)
    ensures CoreInv(Settle(c, n, o))
  {
    SettleKeepsFence(c, n, o);
    SettleKeepsCover(c, n, o);
  }

  /** The bins play no part in the fence, the caches or the ledger. */
  lemma RebinKeeps(c: Cluster, n: Id, bins: Bins)
    requires CoreInv(c) && n in c.nodes
    ensures CoreInv(c.(nodes := c.nodes[n := c.nodes[n].(mem := c.nodes[n].mem.(bins := bins))]))
  {
    var c' := c.(nodes := c.nodes[n := c.nodes[n].(mem := c.nodes[n].mem.(bins := bins))]);
    assert forall m :: Holds(c', m) <==> Holds(c, m);
  }

  /** After a renewal only a process that was loaded under the same epoch is loaded and passes the fence. */
  lemma RenewalHolders(c: Cluster, n: Id, clock: Clock, rpc: Rpc, m: Id)
    requires FenceInv(c) && n in c.nodes && |c.log| < U64_MAX
    ensures var e := Renew(n, c.nodes[n], c.db, clock, rpc);
      var c' := Elect(c, n, e);
      && FenceInv(c') && e.db == c.db.(lease := e.db.lease)
      && (Holds(c', m) && c'.nodes[m].targetsLoaded ==>
           && Holds(c, m) && c.nodes[m].targetsLoaded && LeaseEpoch(c'.db) == LeaseEpoch(c.db)
           && c'.nodes[m].mem == c.nodes[m].mem && c'.nodes[m].reservationsLoaded == c.nodes[m].reservationsLoaded)
  {
    var e := Renew(n, c.nodes[n], c.db, clock, rpc);
    var c' := Elect(c, n, e);
    ElectKeepsFence(c, n, clock, rpc);
    RenewShape(n, c.nodes[n], c.db, clock, rpc);
    RenewReloads(n, c.nodes[n], c.db, clock, rpc);
    if Holds(c', m) && c'.nodes[m].targetsLoaded {
      if m == n || e.granted.None? {
        if LeaseEpoch(c'.db) != LeaseEpoch(c.db) {
          StaleTerm(c, n, LeaseEpoch(c'.db));
        }
      } else {
        HolderOwnsLease(c', m);
      }
    }
  }

  lemma RenewalStep(c: Cluster, n: Id, clock: Clock, rpc: Rpc)
    requires CoreInv(c) && n in c.nodes && |c.log| < U64_MAX
    ensures CoreInv(Elect(c, n, Renew(n, c.nodes[n], c.db, clock, rpc)))
  {
    var c' := Elect(c, n, Renew(n, c.nodes[n], c.db, clock, rpc));
    forall m | Holds(c', m) && c'.nodes[m].targetsLoaded ensures Covers(c'.nodes[m], c'.db) {
      RenewalHolders(c, n, clock, rpc, m);
    }
    RenewalHolders(c, n, clock, rpc, n);
  }

  /** Nobody believes a term that has not been granted yet. */
  lemma StaleTerm(c: Cluster, n: Id, epoch: nat)
    requires FenceInv(c) && n in c.nodes && c.nodes[n].term.Some? && epoch > LeaseEpoch(c.db)
    ensures c.nodes[n].term.value.epoch < epoch
  {
    var e := Granted(n, c.nodes[n].term.value.epoch);
    assert e in c.log;
    var i :| 0 <= i < |c.log| && c.log[i] == e;
  }

  lemma LoadStep(c: Cluster, n: Id, node: Node)
    requires CoreInv(c) && n in c.nodes && node.term == c.nodes[n].term
    requires Holds(c, n) ==> Covers(node, c.db)
    ensures CoreInv(c.(nodes := c.nodes[n := node]))
  {
    var c' := c.(nodes := c.nodes[n := node]);
    assert forall m :: m != n ==> (Holds(c', m) <==> Holds(c, m));
  }

  lemma ReserveStep(c: Cluster, n: Id, after: Targets, dirty: set<Id>, recs: seq<Record>)
    requires CoreInv(c) && Serving(c, n) && Planned(c, n, after, dirty, recs)
    ensures CoreInv(Settle(c, n, ReserveOp(c.nodes[n], c.db, after, dirty, recs)))
  {
    var node := c.nodes[n];
    var mem := node.mem.(targets := after, reservations := InsertAll(node.mem.reservations, recs));
    if Holds(c, n) {
      assert Covers(node, c.db);
      ReserveCovers(node, c.db, after, dirty, recs);
    }
    PersistKeeps(c, n, mem, Writes(DirtyEntries(after, dirty), recs, []), recs);
  }

  lemma RebinSettled<T>(c: Cluster, n: Id, o: Leader.Outcome<T>, bins: Bins)
    requires n in c.nodes && CoreInv(Settle(c, n, o))
    ensures CoreInv(Settle(c, n, o.(node := o.node.(mem := o.node.mem.(bins := bins)))))
  {
    RebinKeeps(Settle(c, n, o), n, bins);
    var node := o.node.(mem := o.node.mem.(bins := bins));
    assert c.nodes[n := o.node][n := node] == c.nodes[n := node];
  }

  lemma TopUpStep(c: Cluster, n: Id, bin: Id, after: Targets, dirty: set<Id>, recs: seq<Record>)
    requires CoreInv(c) && Serving(c, n) && Planned(c, n, after, dirty, recs)
    ensures CoreInv(Settle(c, n, TopUpOp(c.nodes[n], c.db, bin, after, dirty, recs)))
  {
    ReserveStep(c, n, after, dirty, recs);
    var o := ReserveOp(c.nodes[n], c.db, after, dirty, recs);
    RebinSettled(c, n, o, TopUpOp(c.nodes[n], c.db, bin, after, dirty, recs).node.mem.bins);
  }

  lemma ClaimStep(c: Cluster, n: Id, bin: Id, want: nat, now: nat, ttl: nat)
    requires CoreInv(c) && ServingFull(c, n)
    requires bin in c.nodes[n].mem.bins ==> NoDup(c.nodes[n].mem.bins[bin])
    ensures CoreInv(Settle(c, n, ClaimOp(c.nodes[n], c.db, bin, want, now, ttl)))
  {
    var node := c.nodes[n];
    var (mem, claimed) := ClaimFrom(node.mem, bin, want, now, ttl);
    var w := Writes(map[], claimed, []);
    if Holds(c, n) {
      assert Covers(node, c.db);
      ClaimCovers(node, c.db, bin, want, now, ttl);
    }
    if claimed == [] {
      NothingWritten(c.db, w);
      QuietStep(c, n, ClaimOp(node, c.db, bin, want, now, ttl));
    } else {
      PersistKeeps(c, n, mem, w, claimed);
    }
  }

  /** A batch of mutations at a holder whose cache covers the database. */
  lemma BatchStep(c: Cluster, n: Id, ms: seq<Mutation>, kind: MutationKind, committed: set<Granule>)
    requires CoreInv(c) && ServingFull(c, n)
    requires Holds(c, n) && kind == Release ==> ReleaseSafe(c.nodes[n].mem.reservations, c.db.markers - committed, ms)
    ensures CoreInv(Settle(c, n, SettleBatch(c.nodes[n], c.db, ApplyMutations(c.nodes[n].mem, ms, kind, committed))))
  {
    var node := c.nodes[n];
    var b := ApplyMutations(node.mem, ms, kind, committed);
    if Holds(c, n) {
      assert Covers(node, c.db);
      if b.ok {
        if kind == Release {
          SubmapSound(node.mem.targets, node.mem.reservations, c.db.reservations);
          SafeRelease(node.mem, ms, c.db.markers, committed);
        }
        BatchCovers(node, c.db, ms, kind, committed);
      } else {
        RefusedBatch(node, c.db, ms, kind, committed);
      }
    }
    if b.ok {
      PersistKeeps(c, n, b.mem, Writes(DirtyEntries(b.mem.targets, b.dirty), b.sets, b.deletes), b.results);
    } else {
      QuietStep(c, n, SettleBatch(node, c.db, b));
    }
  }

  lemma SafeRelease(mem: Mem, ms: seq<Mutation>, markers: set<Granule>, committed: set<Granule>)
    requires Sound(mem.targets, mem.reservations) && ApplyMutations(mem, ms, Release, committed).ok
    requires ReleaseSafe(mem.reservations, markers - committed, ms)
    ensures forall x :: x in markers && SelectedIn(mem.reservations, ms, x) ==> x in committed
  {
    MutateAllMeans(mem, ms, Release, committed);
    assert forall i :: 0 <= i < |ms| ==> ms[i] in ms;
  }

  lemma RefusedBatch(node: Node, db: Durable, ms: seq<Mutation>, kind: MutationKind, committed: set<Granule>)
    requires Covers(node, db) && !ApplyMutations(node.mem, ms, kind, committed).ok
    requires kind == Release ==> ReleaseSafe(node.mem.reservations, db.markers - committed, ms)
    ensures Covers(node.(mem := ApplyMutations(node.mem, ms, kind, committed).mem), db)
  {
    SubmapSound(node.mem.targets, node.mem.reservations, db.reservations);
    if kind == Finalize {
      RefusedFinalize(node.mem, ms, committed);
    } else if DistinctIds(ms) {
      var k := RefusedSelectsNothing(node.mem, ms, db.markers - committed, committed);
      UnfreedCovers(node, db, ms, committed, k);
    }
  }

  lemma UnfreedCovers(node: Node, db: Durable, ms: seq<Mutation>, committed: set<Granule>, k: nat)
    requires Covers(node, db) && SoundMem(node.mem) && DistinctIds(ms)
    requires k < |ms| && BadIndexes(node.mem.reservations, ms[k])
    requires forall i :: 0 <= i < k ==> SelectedBy(node.mem.reservations, ms[i]) == {}
    ensures Covers(node.(mem := MutateAll(node.mem, ms, Release, committed).mem), db)
  {
    var j := FirstBad(node.mem.reservations, ms, k);
    RefusedRelease(node.mem, ms, committed, j);
    var b := MutateAll(node.mem, ms, Release, committed);
    forall x ensures !SelectedIn(node.mem.reservations, ms[..j], x) {
    }
    SameFleetThrough(node.mem.targets, b.mem.targets, db.targets);
    SameFree(node.mem.targets, b.mem.targets, db.reservations);
  }

  lemma SameFree(targets: Targets, targets': Targets, res: Reservations)
    requires Sound(targets, res) && ValidTargets(targets') && SameFleet(targets, targets')
    requires forall x :: FreeAt(targets', x) <==> FreeAt(targets, x)
    ensures Sound(targets', res)
  {
  }

  lemma RefusedSelectsNothing(mem: Mem, ms: seq<Mutation>, markers: set<Granule>, committed: set<Granule>) returns (k: nat)
    requires SoundMem(mem) && DistinctIds(ms) && !MutateAll(mem, ms, Release, committed).ok
    requires ReleaseSafe(mem.reservations, markers, ms)
    ensures k < |ms| && BadIndexes(mem.reservations, ms[k])
    ensures forall i :: 0 <= i < k ==> SelectedBy(mem.reservations, ms[i]) == {}
  {
    MutateAllMeans(mem, ms, Release, committed);
    k :| 0 <= k < |ms| && BadIndexes(mem.reservations, ms[k])
         && forall i :: 0 <= i < k ==> SelectedBy(mem.reservations, ms[i]) == {};
  }

  lemma FinalizeStep(c: Cluster, n: Id, ms: seq<Mutation>)
    requires CoreInv(c) && ServingFull(c, n)
    ensures CoreInv(Settle(c, n, FinalizeOp(c.nodes[n], c.db, ms)))
  {
    var node := c.nodes[n];
    if ms == [] || TryFinalize(node.mem, ms).Refused? {
      QuietStep(c, n, FinalizeOp(node, c.db, ms));
    } else {
      FastFinalizeRefines(node.mem, ms, {});
      BatchStep(c, n, ms, Finalize, {});
    }
  }

  lemma ReleaseStep(c: Cluster, n: Id, ms: seq<Mutation>)
    requires CoreInv(c) && Enabled(c, Releasing(n, ms))
    ensures CoreInv(Settle(c, n, MutateOp(c.nodes[n], c.db, ms, Release, {})))
  {
    if ms == [] {
      QuietStep(c, n, MutateOp(c.nodes[n], c.db, ms, Release, {}));
    } else {
      assert c.db.markers - {} == c.db.markers;
      BatchStep(c, n, ms, Release, {});
    }
  }

  lemma ReclaimStep(c: Cluster, n: Id, xs: seq<Granule>, order: seq<Granule>)
    requires CoreInv(c) && Enabled(c, Reclaiming(n, xs, order))
    ensures CoreInv(Settle(c, n, ReclaimOp(c.nodes[n], c.db, order)))
  {
    var node := c.nodes[n];
    var r := ReclaimAll(node.mem.targets, order);
    if order == [] {
      QuietStep(c, n, ReclaimOp(node, c.db, order));
    } else {
      if Holds(c, n) {
        assert Covers(node, c.db);
        SafeInEveryOrder(c.db, xs, order);
        ReclaimCovers(node, c.db, order);
      }
      if r.ok {
        PersistKeeps(c, n, node.mem.(targets := r.targets), Writes(DirtyEntries(r.targets, r.dirty), [], []), r.count);
      } else {
        QuietStep(c, n, ReclaimOp(node, c.db, order));
      }
    }
  }

  /** The reaper's batch is safe: it selects only candidates, and spares the marked ones. */
  lemma ExpireIsSafe(res: Reservations, markers: set<Granule>, ids: seq<Id>)
    requires forall id :: id in ids ==> id in res
    ensures ReleaseSafe(res, markers - markers * Candidates(res, ids), ReleaseWhole(ids))
  {
    var ms := ReleaseWhole(ids);
    forall m | m in ms
      ensures !BadIndexes(res, m) && SelectedBy(res, m) !! markers - markers * Candidates(res, ids)
    {
      var i :| 0 <= i < |ms| && ms[i] == m;
      assert ids[i] in ids;
      WholeSelection(res, m.id);
      forall x | x in SelectedBy(res, m) ensures x in Candidates(res, ids) {
        var p :| p in res[m.id].placements && GranuleAt(p) == x;
      }
    }
  }

  lemma ExpireStep(c: Cluster, n: Id, now: nat, limit: nat, ids: seq<Id>)
    requires CoreInv(c) && Enabled(c, Expiring(n, now, limit, ids))
    ensures CoreInv(Settle(c, n, ExpireOp(c.nodes[n], c.db, ids)))
  {
    var res := c.nodes[n].mem.reservations;
    if ids == [] {
      QuietStep(c, n, ExpireOp(c.nodes[n], c.db, ids));
    } else {
      ExpireIsSafe(res, c.db.markers, ids);
      BatchStep(c, n, ReleaseWhole(ids), Release, c.db.markers * Candidates(res, ids));
    }
  }
}
