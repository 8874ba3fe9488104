/** What finalize, release, reclaim and the reaper have made durable when they answer. */
module Settlements {
  import opened Common
  import opened Records
  import opened Allocator
  import opened Answers
  import opened FastFinalize
  import opened Recycle
  import opened Visits
  import opened Leader
  import opened Cluster
  import opened Failover
  import opened Tearing
  import opened Runs
  import opened Receipts

  // ---- batches of mutations ----

  lemma SettleAcknowledged(node: Node, db: Durable, b: Batch)
    ensures b.ok ==> Acknowledged(node, db, BatchWrites(b), b.results, SettleBatch(node, db, b))
    ensures !b.ok ==> SettleBatch(node, db, b).db == db && SettleBatch(node, db, b).reply == Err(b.failure)
  {
    PersistAcknowledged(node.(mem := b.mem), db, BatchWrites(b), b.results);
  }

  /** Finalize is the batch of mutations, on either path. */
  lemma FinalizeIsBatch(node: Node, db: Durable, ms: seq<Mutation>)
    requires SoundMem(node.mem) && ms != []
    ensures var b, o := ApplyMutations(node.mem, ms, Finalize, {}), FinalizeOp(node, db, ms);
      && (b.ok ==> o == SettleBatch(node, db, b))
      && (!b.ok ==> o.db == db && o.reply == Err(InvalidArgument))
  {
    FastFinalizeRefines(node.mem, ms, {});
    RefusalIsInvalid(node.mem, ms, Finalize, {});
  }

  /** The record that a batch left of a reservation is the durable one. */
  lemma RecordIsDurable(mem: Mem, db: Durable, ms: seq<Mutation>, kind: MutationKind, committed: set<Granule>, j: nat)
    requires KeyedRecords(mem.reservations) && DistinctIds(ms) && MutateAll(mem, ms, kind, committed).ok && j < |ms|
    requires ms[j].id in mem.reservations && mem.reservations[ms[j].id].state == Reserved
    ensures var b := MutateAll(mem, ms, kind, committed);
      && |b.results| == |ms| && !NoWrites(BatchWrites(b))
      && Settled(kind, mem.reservations[ms[j].id], ms[j], b.results[j], ApplyWrites(db, BatchWrites(b)).reservations)
  {
    var b, m := MutateAll(mem, ms, kind, committed), ms[j];
    MutateAllAnswers(mem, ms, kind, committed);
    MutateAllTells(mem, ms, kind, committed);
    assert Told(kind, mem.reservations, m, b.results[j], b.mem.reservations);
    assert Recorded(mem.reservations, m, b.results[j], b);
    WrittenIsDurable(b.mem.reservations, db, BatchWrites(b), m.id, b.results[j]);
    AnswerStands(kind, mem.reservations, m, b.results[j], b.mem.reservations, ApplyWrites(db, BatchWrites(b)).reservations);
  }

  lemma WrittenIsDurable(after: Reservations, db: Durable, w: Writes, id: Id, a: Record)
    requires Tells(after, w.sets, w.deletes) && a.id == id
    requires if id in after then a in w.sets else id in w.deletes
    ensures !NoWrites(w) && SameAt(after, ApplyWrites(db, w).reservations, id)
  {
    InsertAllValue(db.reservations, w.sets, id);
  }

  /**
   * A batch at the holder: refused with `InvalidArgument` exactly when it repeats an id or has a bad index,
   * and otherwise answered mutation by mutation, each answer being what is durable of its reservation.
   */
  ghost predicate MutationReceipt(kind: MutationKind, mem: Mem, ms: seq<Mutation>, db: Durable, reply: Result<seq<Record>>, db': Durable) {
    && (reply.Err? <==> !DistinctIds(ms) || exists m :: m in ms && BadIndexes(mem.reservations, m))
    && (reply.Err? ==> reply.error == InvalidArgument && db' == db)
    && (reply.Ok? ==> |reply.value| == |ms|)
    && (reply.Ok? ==> forall j :: 0 <= j < |ms| ==>
         if ms[j].id in mem.reservations then
           ms[j].id in db.reservations && Settled(kind, db.reservations[ms[j].id], ms[j], reply.value[j], db'.reservations)
         else
           reply.value[j] == Record(ms[j].id, if kind == Finalize then Finalized else Released, [], 0))
  }

  lemma BatchReceipt(node: Node, db: Durable, ms: seq<Mutation>, kind: MutationKind, committed: set<Granule>)
    requires Covers(node, db) && FencePasses(node, db) && ms != []
    ensures var o := SettleBatch(node, db, ApplyMutations(node.mem, ms, kind, committed));
      MutationReceipt(kind, node.mem, ms, db, o.reply, o.db)
  {
    var mem, b := node.mem, ApplyMutations(node.mem, ms, kind, committed);
    SubmapSound(mem.targets, mem.reservations, db.reservations);
    SettleAcknowledged(node, db, b);
    if DistinctIds(ms) {
      MutateAllMeans(mem, ms, kind, committed);
      RefusalIsInvalid(mem, ms, kind, committed);
      if b.ok {
        AcceptedReceipt(node, db, ms, kind, committed);
      }
    }
  }

  lemma AcceptedReceipt(node: Node, db: Durable, ms: seq<Mutation>, kind: MutationKind, committed: set<Granule>)
    requires Covers(node, db) && DistinctIds(ms) && MutateAll(node.mem, ms, kind, committed).ok
    ensures var b := MutateAll(node.mem, ms, kind, committed);
      && |b.results| == |ms|
      && forall j :: 0 <= j < |ms| ==>
        if ms[j].id in node.mem.reservations then
          ms[j].id in db.reservations
          && Settled(kind, db.reservations[ms[j].id], ms[j], b.results[j], ApplyWrites(db, BatchWrites(b)).reservations)
        else
          b.results[j] == Record(ms[j].id, if kind == Finalize then Finalized else Released, [], 0)
  {
    var mem, b := node.mem, MutateAll(node.mem, ms, kind, committed);
    SubmapSound(mem.targets, mem.reservations, db.reservations);
    MutateAllAnswers(mem, ms, kind, committed);
    forall j | 0 <= j < |ms| && ms[j].id in mem.reservations
      ensures ms[j].id in db.reservations
      ensures Settled(kind, db.reservations[ms[j].id], ms[j], b.results[j], ApplyWrites(db, BatchWrites(b)).reservations)
    {
      assert LiveRecord(ms[j].id, mem.reservations[ms[j].id]);
      RecordIsDurable(mem, db, ms, kind, committed, j);
    }
  }

  /** A granule that a release frees is durably free once the release is persisted. */
  lemma FreedDurably(node: Node, db: Durable, ms: seq<Mutation>, committed: set<Granule>, m: Mutation, x: Granule)
    requires Covers(node, db) && DistinctIds(ms) && MutateAll(node.mem, ms, Release, committed).ok
    requires m in ms && x in SelectedBy(node.mem.reservations, m) && x !in committed
    ensures FreeAt(ApplyWrites(db, BatchWrites(MutateAll(node.mem, ms, Release, committed))).targets, x)
  {
    var b := MutateAll(node.mem, ms, Release, committed);
    SubmapSound(node.mem.targets, node.mem.reservations, db.reservations);
    MutateAllMeans(node.mem, ms, Release, committed);
    SelectedHeld(node.mem.reservations, m, x);
    assert SelectedIn(node.mem.reservations, ms, x);
    assert FreeAt(b.mem.targets, x) && !FreeAt(node.mem.targets, x);
    assert x.0 in b.dirty;
  }

  lemma {:induction false} FinalizeDirtiesNothing(mem: Mem, ms: seq<Mutation>, committed: set<Granule>)
    ensures MutateAll(mem, ms, Finalize, committed).dirty == {}
  {
    if ms != [] {
      FinalizeDirtiesNothing(mem, ms[..|ms| - 1], committed);
    }
  }

  lemma AskedIsSelected(res: Reservations, m: Mutation, k: nat)
    requires m.id in res && !BadIndexes(res, m) && k < |res[m.id].placements| && Asked(m.indexes, k)
    ensures GranuleAt(res[m.id].placements[k]) in SelectedBy(res, m)
  {
    var ps := res[m.id].placements;
    NormalizeMeaning(|ps|, m.indexes);
    var indexes := NormalizeIndexes(|ps|, m.indexes).value;
    assert k in indexes;
    var i :| 0 <= i < |indexes| && indexes[i] == k;
    assert Selected(ps, indexes)[i] == ps[k];
    assert ps[k] in Selected(ps, indexes);
  }

  // ---- in every run ----

  /**
   * A finalize that the holder answers is what its answer says. No target changes, so what was held stays
   * out of the free spans.
   */
  lemma FinalizedIsDurable(cs: seq<Cluster>, steps: seq<Step>, i: nat)
    requires Run(cs, steps) && |steps| < U64_MAX && i < |steps| && steps[i].Finalizing? && Holds(cs[i], steps[i].n)
    ensures var s, node := steps[i], cs[i].nodes[steps[i].n];
      && MutationReceipt(Finalize, node.mem, s.ms, cs[i].db, FinalizeOp(node, cs[i].db, s.ms).reply, cs[i + 1].db)
      && cs[i + 1].db.targets == cs[i].db.targets
  {
    RunKeeps(cs, steps, i);
    assert Next(cs[i], steps[i], cs[i + 1]);
    FinalizeNext(cs[i].nodes[steps[i].n], cs[i].db, steps[i].ms);
  }

  lemma FinalizeNext(node: Node, db: Durable, ms: seq<Mutation>)
    requires Covers(node, db) && FencePasses(node, db)
    ensures var o := FinalizeOp(node, db, ms);
      MutationReceipt(Finalize, node.mem, ms, db, o.reply, o.db) && o.db.targets == db.targets
  {
    if ms != [] {
      var b := ApplyMutations(node.mem, ms, Finalize, {});
      SubmapSound(node.mem.targets, node.mem.reservations, db.reservations);
      FinalizeIsBatch(node, db, ms);
      BatchReceipt(node, db, ms, Finalize, {});
      SettleAcknowledged(node, db, b);
      FinalizeDirtiesNothing(node.mem, ms, {});
      RefusalIsInvalid(node.mem, ms, Finalize, {});
      assert DirtyEntries(b.mem.targets, {}) == map[];
      assert db.targets + map[] == db.targets;
    }
  }

  /** A release that the holder answers is what its answer says, and every granule it was asked for is free. */
  lemma ReleasedIsDurable(cs: seq<Cluster>, steps: seq<Step>, i: nat)
    requires Run(cs, steps) && |steps| < U64_MAX && i < |steps| && steps[i].Releasing? && Holds(cs[i], steps[i].n)
    ensures var s, node := steps[i], cs[i].nodes[steps[i].n];
      var reply := MutateOp(node, cs[i].db, s.ms, Release, {}).reply;
      && MutationReceipt(Release, node.mem, s.ms, cs[i].db, reply, cs[i + 1].db)
      && (reply.Ok? ==> forall j :: 0 <= j < |s.ms| ==> AskedAreFree(node.mem.reservations, s.ms[j], cs[i + 1].db))
  {
    RunKeeps(cs, steps, i);
    assert Next(cs[i], steps[i], cs[i + 1]);
    ReleaseNext(cs[i].nodes[steps[i].n], cs[i].db, steps[i].ms);
  }

  /** The granules of `m`'s reservation at the positions asked for are durably free. */
  ghost predicate AskedAreFree(res: Reservations, m: Mutation, db: Durable) {
    m.id in res ==>
      forall k :: 0 <= k < |res[m.id].placements| && Asked(m.indexes, k) ==>
        FreeAt(db.targets, GranuleAt(res[m.id].placements[k]))
  }

  lemma ReleaseNext(node: Node, db: Durable, ms: seq<Mutation>)
    requires Covers(node, db) && FencePasses(node, db)
    ensures var o := MutateOp(node, db, ms, Release, {});
      && MutationReceipt(Release, node.mem, ms, db, o.reply, o.db)
      && (o.reply.Ok? ==> forall j :: 0 <= j < |ms| ==> AskedAreFree(node.mem.reservations, ms[j], o.db))
  {
    if ms != [] {
      BatchReceipt(node, db, ms, Release, {});
      SettleAcknowledged(node, db, ApplyMutations(node.mem, ms, Release, {}));
      if MutateOp(node, db, ms, Release, {}).reply.Ok? {
        forall j | 0 <= j < |ms| ensures AskedAreFree(node.mem.reservations, ms[j], MutateOp(node, db, ms, Release, {}).db) {
          FreedByMutation(node, db, ms, ms[j]);
        }
      }
    }
  }

  lemma FreedByMutation(node: Node, db: Durable, ms: seq<Mutation>, m: Mutation)
    requires Covers(node, db) && DistinctIds(ms) && MutateAll(node.mem, ms, Release, {}).ok && m in ms
    ensures AskedAreFree(node.mem.reservations, m, ApplyWrites(db, BatchWrites(MutateAll(node.mem, ms, Release, {}))))
  {
    var res := node.mem.reservations;
    if m.id in res {
      SubmapSound(node.mem.targets, res, db.reservations);
      MutateAllMeans(node.mem, ms, Release, {});
      forall k | 0 <= k < |res[m.id].placements| && Asked(m.indexes, k)
        ensures FreeAt(ApplyWrites(db, BatchWrites(MutateAll(node.mem, ms, Release, {}))).targets, GranuleAt(res[m.id].placements[k]))
      {
        AskedIsSelected(res, m, k);
        FreedDurably(node, db, ms, {}, m, GranuleAt(res[m.id].placements[k]));
      }
    }
  }

  // ---- the reaper ----

  /** The reservation had an expiry that has passed; it is gone, and its granules are free unless they are marked. */
  ghost predicate Reaped(db: Durable, id: Id, now: nat, db': Durable) {
    && id in db.reservations && 0 < db.reservations[id].expiresAt <= now && id !in db'.reservations
    && forall x :: x in GranulesOf(db.reservations[id].placements) ==> (FreeAt(db'.targets, x) <==> x !in db.markers)
  }

  ghost predicate ReapReceipt(c: Cluster, s: Step, c': Cluster)
    requires s.Expiring? && s.n in c.nodes
  {
    var reply := ExpireOp(c.nodes[s.n], c.db, s.ids).reply;
    && reply.Ok? && |reply.value| == |s.ids| <= s.limit
    && forall id :: id in s.ids ==> Reaped(c.db, id, s.now, c'.db)
  }

  /** The holder's reaper always succeeds, and every reservation of its batch is reaped durably. */
  lemma ReapedIsDurable(cs: seq<Cluster>, steps: seq<Step>, i: nat)
    requires Run(cs, steps) && |steps| < U64_MAX && i < |steps| && steps[i].Expiring? && Holds(cs[i], steps[i].n)
    ensures ReapReceipt(cs[i], steps[i], cs[i + 1])
  {
    RunKeeps(cs, steps, i);
    StepKeeps(cs[i], steps[i], cs[i + 1]);
    ReapNext(cs[i], steps[i], cs[i + 1]);
  }

  lemma ReapNext(c: Cluster, s: Step, c': Cluster)
    requires CoreInv(c) && Next(c, s, c') && s.Expiring? && Holds(c, s.n) && DurableSound(c'.db)
    ensures ReapReceipt(c, s, c')
  {
    var node := c.nodes[s.n];
    assert Covers(node, c.db);
    SortedIdsDiffer(s.ids);
    if s.ids != [] {
      ReapBatch(node, c.db, s.ids);
      forall id, x | id in s.ids && x in GranulesOf(c.db.reservations[id].placements) && x !in c.db.markers
        ensures FreeAt(c'.db.targets, x)
      {
        ReapFrees(node, c.db, s.ids, id, x);
      }
    }
  }

  lemma SortedIdsDiffer(ids: seq<Id>)
    requires SortedBy(ids, LexLess)
    ensures NoDup(ids) && DistinctIds(ReleaseWhole(ids))
  {
    LexOrder();
  }

  lemma ReapBatch(node: Node, db: Durable, ids: seq<Id>)
    requires Covers(node, db) && FencePasses(node, db) && NoDup(ids) && ids != []
    requires forall id :: id in ids ==> id in node.mem.reservations
    ensures var o := ExpireOp(node, db, ids);
      && o.reply.Ok? && |o.reply.value| == |ids|
      && o.db == ApplyWrites(db, BatchWrites(ApplyMutations(node.mem, ReleaseWhole(ids), Release, db.markers * Candidates(node.mem.reservations, ids))))
      && forall id :: id in ids ==> id in db.reservations && id !in o.db.reservations
  {
    var ms, committed := ReleaseWhole(ids), db.markers * Candidates(node.mem.reservations, ids);
    SubmapSound(node.mem.targets, node.mem.reservations, db.reservations);
    ExpireMeaning(node.mem, ids, db.markers);
    SettleAcknowledged(node, db, ApplyMutations(node.mem, ms, Release, committed));
    AcceptedReceipt(node, db, ms, Release, committed);
    forall id | id in ids ensures id in db.reservations && id !in ExpireOp(node, db, ids).db.reservations {
      var j :| 0 <= j < |ids| && ids[j] == id;
      assert ms[j] == Mutation(id, []);
      WholeIsGone(db.reservations[id], ms[j], MutateAll(node.mem, ms, Release, committed).results[j], ExpireOp(node, db, ids).db.reservations);
    }
  }

  lemma WholeIsGone(r: Record, m: Mutation, a: Record, after: Reservations)
    requires m.indexes == [] && Settled(Release, r, m, a, after)
    ensures m.id !in after
  {
    var at :| Picks(r.placements, a.placements, at) && forall i: nat :: i in at <==> i < |r.placements| && !Asked(m.indexes, i);
    if a.placements != [] {
      SomePosition(r.placements, a.placements, at);
    }
  }

  lemma ReapFrees(node: Node, db: Durable, ids: seq<Id>, id: Id, x: Granule)
    requires Covers(node, db) && NoDup(ids) && forall id :: id in ids ==> id in node.mem.reservations
    requires id in ids && x in GranulesOf(node.mem.reservations[id].placements) && x !in db.markers
    ensures var committed := db.markers * Candidates(node.mem.reservations, ids);
      FreeAt(ApplyWrites(db, BatchWrites(ApplyMutations(node.mem, ReleaseWhole(ids), Release, committed))).targets, x)
  {
    var ms, committed := ReleaseWhole(ids), db.markers * Candidates(node.mem.reservations, ids);
    SubmapSound(node.mem.targets, node.mem.reservations, db.reservations);
    ExpireMeaning(node.mem, ids, db.markers);
    WholeSelection(node.mem.reservations, id);
    var j :| 0 <= j < |ids| && ids[j] == id;
    assert ms[j] == Mutation(id, []) && ms[j] in ms;
    FreedDurably(node, db, ms, committed, ms[j], x);
  }

  // ---- reclaim ----

  /**
   * Reclaim at the holder answers with the number of granules that were not free in its cache, which are
   * then durably free; it errs exactly when some granule is out of range, and then makes nothing durable.
   */
  lemma ReclaimedIsDurable(cs: seq<Cluster>, steps: seq<Step>, i: nat)
    requires Run(cs, steps) && |steps| < U64_MAX && i < |steps| && steps[i].Reclaiming? && Holds(cs[i], steps[i].n)
    ensures var s, db, db' := steps[i], cs[i].db, cs[i + 1].db;
      var targets, reply := cs[i].nodes[s.n].mem.targets, ReclaimOp(cs[i].nodes[s.n], db, s.order).reply;
      && (reply.Err? <==> exists x :: x in s.xs && !InRange(db.targets, x))
      && (reply.Err? ==> db' == db && (reply.error == InvalidArgument || reply.error == NotFound))
      && (reply.Ok? ==> reply.value == |NotFree(targets, s.xs)|)
      && (reply.Ok? ==> forall x :: x in s.xs && !FreeAt(targets, x) ==> FreeAt(db'.targets, x))
  {
    RunKeeps(cs, steps, i);
    assert Next(cs[i], steps[i], cs[i + 1]);
    ReclaimNext(cs[i].nodes[steps[i].n], cs[i].db, steps[i].xs, steps[i].order);
  }

  lemma ReclaimNext(node: Node, db: Durable, xs: seq<Granule>, order: seq<Granule>)
    requires Covers(node, db) && FencePasses(node, db) && VisitOrder(xs, order)
    ensures var o, targets := ReclaimOp(node, db, order), node.mem.targets;
      && (o.reply.Err? <==> exists x :: x in xs && !InRange(db.targets, x))
      && (o.reply.Err? ==> o.db == db && (o.reply.error == InvalidArgument || o.reply.error == NotFound))
      && (o.reply.Ok? ==> o.reply.value == |NotFree(targets, xs)|)
      && (o.reply.Ok? ==> forall x :: x in xs && !FreeAt(targets, x) ==> FreeAt(o.db.targets, x))
  {
    var targets := node.mem.targets;
    OrderMembers(xs, order);
    assert forall x :: InRange(targets, x) <==> InRange(db.targets, x);
    assert NotFree(targets, xs) == NotFree(targets, order);
    OrderReceipt(node, db, order);
  }

  lemma OrderReceipt(node: Node, db: Durable, order: seq<Granule>)
    requires Covers(node, db) && FencePasses(node, db)
    ensures var o, targets := ReclaimOp(node, db, order), node.mem.targets;
      && (o.reply.Err? <==> exists x :: x in order && !InRange(targets, x))
      && (o.reply.Err? ==> o.db == db && (o.reply.error == InvalidArgument || o.reply.error == NotFound))
      && (o.reply.Ok? ==> o.reply.value == |NotFree(targets, order)|)
      && (o.reply.Ok? ==> forall x :: x in order && !FreeAt(targets, x) ==> FreeAt(o.db.targets, x))
  {
    ReclaimsAll(node.mem.targets, order);
    if order == [] {
      assert NotFree(node.mem.targets, order) == {};
    } else if ReclaimAll(node.mem.targets, order).ok {
      ReclaimPersists(node, db, order, ReclaimAll(node.mem.targets, order));
    }
  }

  lemma ReclaimsAll(targets: Targets, order: seq<Granule>)
    requires ValidTargets(targets)
    ensures var r := ReclaimAll(targets, order);
      && (r.ok <==> forall x :: x in order ==> InRange(targets, x))
      && (r.failure == InvalidArgument || r.failure == NotFound)
      && (r.ok ==> Freed(targets, order, r))
  {
    ReclaimFrees(targets, order);
    WholeVisited(targets, order);
    VisitedPrefix(targets, order);
    assert order[..|order|] == order;
  }

  lemma ReclaimPersists(node: Node, db: Durable, order: seq<Granule>, r: Reclaim)
    requires r == ReclaimAll(node.mem.targets, order) && r.ok && order != [] && FencePasses(node, db)
    requires Freed(node.mem.targets, order, r)
    ensures var o := ReclaimOp(node, db, order);
      && o.reply == Ok(|NotFree(node.mem.targets, order)|)
      && forall x :: x in order && !FreeAt(node.mem.targets, x) ==> FreeAt(o.db.targets, x)
  {
    var w := Writes(DirtyEntries(r.targets, r.dirty), [], []);
    PersistAcknowledged(node.(mem := node.mem.(targets := r.targets)), db, w, r.count);
    forall x | x in order && !FreeAt(node.mem.targets, x) ensures FreeAt(ApplyWrites(db, w).targets, x) {
      assert FreeAt(r.targets, x) && x.0 in r.dirty;
    }
  }

  // ---- behind the fence ----

  /** The operation is answered with an error: `Aborted`, unless a finalize is refused before it gets to persist. */
  ghost predicate TurnedDown(c: Cluster, s: Step)
    requires Operation(s) && s.n in c.nodes
  {
    var node, db := c.nodes[s.n], c.db;
    match s
    case Reserving(_, after, dirty, recs) => ReserveOp(node, db, after, dirty, recs).reply == Err(Aborted)
    case Refilling(_, bin, after, dirty, recs) => TopUpOp(node, db, bin, after, dirty, recs).reply == Err(Aborted)
    case Claiming(_, bin, want, now, ttl) => ClaimOp(node, db, bin, want, now, ttl).reply == Err(Aborted)
    case Finalizing(_, ms) =>
      var reply := FinalizeOp(node, db, ms).reply;
      reply == Err(Aborted) || reply == Err(InvalidArgument)
    case Releasing(_, ms) => MutateOp(node, db, ms, Release, {}).reply == Err(Aborted)
    case Reclaiming(_, _, order) => ReclaimOp(node, db, order).reply == Err(Aborted)
    case Expiring(_, _, _, ids) => ExpireOp(node, db, ids).reply == Err(Aborted)
    case _ => true
  }

  /** In every run, an operation of a process that does not pass the fence changes nothing durably, and does not answer `Ok` if it had to. */
  lemma FencedIsRefused(cs: seq<Cluster>, steps: seq<Step>, i: nat)
    requires Run(cs, steps) && i < |steps| && Operation(steps[i]) && !Holds(cs[i], steps[i].n)
    ensures steps[i].n in cs[i].nodes && cs[i + 1].db == cs[i].db
    ensures !NoWrites(WritesOf(cs[i], steps[i])) ==> TurnedDown(cs[i], steps[i])
  {
    assert Next(cs[i], steps[i], cs[i + 1]);
    if steps[i].Finalizing? || steps[i].Releasing? || steps[i].Expiring? {
      FencedMutation(cs[i], steps[i]);
    } else {
      FencedOther(cs[i], steps[i]);
    }
  }

  lemma FencedOther(c: Cluster, s: Step)
    requires (s.Reserving? || s.Refilling? || s.Claiming? || s.Reclaiming?) && Enabled(c, s) && !Holds(c, s.n)
    ensures Do(c, s).db == c.db
    ensures !NoWrites(WritesOf(c, s)) ==> TurnedDown(c, s)
  {
  }

  lemma FencedMutation(c: Cluster, s: Step)
    requires (s.Finalizing? || s.Releasing? || s.Expiring?) && Enabled(c, s) && !Holds(c, s.n)
    ensures Do(c, s).db == c.db
    ensures !NoWrites(WritesOf(c, s)) ==> TurnedDown(c, s)
  {
    if s.Finalizing? {
      FastFinalizeRefines(c.nodes[s.n].mem, s.ms, {});
    }
  }
}
