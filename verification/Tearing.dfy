/** A persist is a sequence of commits; what the database holds when the process dies between two of them. */
module Tearing {
  import opened Common
  import opened Records
  import opened Allocator
  import opened FastFinalize
  import opened Recycle
  import opened Reserve
  import opened Leader
  import opened Cluster
  import opened Failover
  import opened Batching

  /** Landed target writes over the durable targets, with reservations that hide from both. */
  lemma LandedSound(after: Targets, db: Durable, part: Writes, res: Reservations)
    requires DurableSound(db) && SameFleet(after, db.targets) && Sound(after, res)
    requires forall t :: t in part.targets ==> t in after && part.targets[t] == after[t]
    requires forall id, x :: HeldBy(res, id, x) && x.0 !in part.targets ==> !FreeAt(db.targets, x)
    requires forall x :: x in db.markers ==> !FreeAt(after, x)
    ensures DurableSound(db.(targets := db.targets + part.targets, reservations := res))
  {
    assert DirtyEntries(after, part.targets.Keys) == part.targets;
    MixedSound(after, db.targets, res, part.targets.Keys);
  }

  lemma EntriesOf(after: Targets, dirty: set<Id>, part: Writes)
    requires forall t :: t in part.targets ==> t in DirtyEntries(after, dirty) && part.targets[t] == DirtyEntries(after, dirty)[t]
    ensures forall t :: t in part.targets ==> t in after && part.targets[t] == after[t]
  {
  }

  /** A torn reserve only leaks: its granules are taken before any record names them. */
  lemma TornReserve(node: Node, db: Durable, after: Targets, dirty: set<Id>, recs: seq<Record>, part: Writes)
    requires Covers(node, db) && DurableSound(db) && ReservedFrom(node.mem.targets, after, recs)
    requires forall t :: t in node.mem.targets && t !in dirty ==> t in after && after[t] == node.mem.targets[t]
    requires Landed(Writes(DirtyEntries(after, dirty), recs, []), part)
    ensures DurableSound(ApplyWrites(db, part))
  {
    var res := InsertAll(db.reservations, part.sets);
    NoDeletes(res);
    EntriesOf(after, dirty, part);
    SameFleetThrough(node.mem.targets, after, db.targets);
    PartKeepsSound(node.mem.targets, db.reservations, after, recs, part.sets);
    if part.sets != [] {
      ReserveHeld(node.mem.targets, after, db, dirty, recs, part.sets);
      assert forall id, x :: HeldBy(res, id, x) ==> InRange(after, x);
    }
    LandedSound(after, db, part, res);
  }

  lemma TornReclaim(node: Node, db: Durable, xs: seq<Granule>, part: Writes)
    requires Covers(node, db) && DurableSound(db) && OrderSafe(db, xs)
    requires var r := ReclaimAll(node.mem.targets, xs); Landed(Writes(DirtyEntries(r.targets, r.dirty), [], []), part)
    ensures DurableSound(ApplyWrites(db, part))
  {
    var r := ReclaimAll(node.mem.targets, xs);
    NoDeletes(db.reservations);
    EntriesOf(r.targets, r.dirty, part);
    VisitedFleet(db.targets, node.mem.targets, xs);
    ReclaimFrees(node.mem.targets, xs);
    assert forall id, x :: x in Visited(db.targets, xs) ==> !HeldBy(db.reservations, id, x);
    OrderSoundIff(node.mem.targets, db.reservations, xs);
    SameFleetThrough(node.mem.targets, r.targets, db.targets);
    LandedSound(r.targets, db, part, db.reservations);
  }

  lemma TornClaim(node: Node, db: Durable, bin: Id, want: nat, now: nat, ttl: nat, part: Writes)
    requires Covers(node, db) && DurableSound(db) && (bin in node.mem.bins ==> NoDup(node.mem.bins[bin]))
    requires Landed(Writes(map[], ClaimFrom(node.mem, bin, want, now, ttl).1, []), part)
    ensures DurableSound(ApplyWrites(db, part))
  {
    ClaimCovers(node, db, bin, want, now, ttl);
    BumpsLanded(db, ClaimFrom(node.mem, bin, want, now, ttl).1, now, ClaimExpiry(now, ttl), part);
  }

  lemma BumpsLanded(db: Durable, claimed: seq<Record>, now: nat, expiry: nat, part: Writes)
    requires DurableSound(db) && Landed(Writes(map[], claimed, []), part)
    requires forall r :: r in claimed ==> ClaimedFrom(db.reservations, r, now, expiry)
    ensures DurableSound(ApplyWrites(db, part))
  {
    assert forall r :: r in part.sets ==> r in claimed;
    BumpsKeepSound(db.targets, db.reservations, part.sets, now, expiry);
    NoDeletes(InsertAll(db.reservations, part.sets));
    assert db.targets + part.targets == db.targets;
  }

  // ---- batches of mutations ----

  /** The records and deletions of a batch say what became of the reservations it names. */
  ghost predicate Tells(after: Reservations, sets: seq<Record>, deletes: seq<Id>) {
    && (forall r :: r in sets ==> r.id in after && after[r.id] == r)
    && (forall d :: d in deletes ==> d !in after)
  }

  lemma {:induction false} MutateAllTells(mem: Mem, ms: seq<Mutation>, kind: MutationKind, committed: set<Granule>)
    requires DistinctIds(ms) && forall id :: id in mem.reservations ==> mem.reservations[id].id == id
    ensures var b := MutateAll(mem, ms, kind, committed);
      && Tells(b.mem.reservations, b.sets, b.deletes)
      && (forall r :: r in b.sets ==> r.id in MutatedIds(ms)) && (forall d :: d in b.deletes ==> d in MutatedIds(ms))
  {
    if ms != [] {
      var front, m := ms[..|ms| - 1], ms[|ms| - 1];
      DistinctIdsPrefix(ms);
      MutateAllTells(mem, front, kind, committed);
      MutateAllNames(mem, front, kind, committed);
      MutateOneWrites(MutateAll(mem, front, kind, committed), m, kind, committed);
      TellsNext(MutateAll(mem, front, kind, committed), MutateAll(mem, ms, kind, committed), m.id);
      assert ms == front + [m];
      assert MutatedIds(ms) == MutatedIds(front) + {m.id};
    }
  }

  lemma TellsNext(b: Batch, b': Batch, id: Id)
    requires Tells(b.mem.reservations, b.sets, b.deletes) && RecordsChange(b, b', id)
    requires (forall r :: r in b.sets ==> r.id != id) && (forall d :: d in b.deletes ==> d != id)
    ensures Tells(b'.mem.reservations, b'.sets, b'.deletes)
    ensures forall r :: r in b'.sets ==> r in b.sets || r.id == id
    ensures forall d :: d in b'.deletes ==> d in b.deletes || d == id
  {
  }

  /** The durable reservations once part of a batch's writes have landed. */
  function TornReservations(res: Reservations, part: Writes): Reservations {
    InsertAll(res, part.sets) - Elems(part.deletes)
  }

  lemma IdsOfIff(recs: seq<Record>, id: Id)
    ensures id in IdsOf(recs) <==> exists r :: r in recs && r.id == id
  {
    IdsOfMembers(recs);
    if id in IdsOf(recs) {
      var i :| 0 <= i < |recs| && IdsOf(recs)[i] == id;
      assert recs[i] in recs;
    }
  }

  /** A reservation that was written is as the batch left it; any other is as it was. */
  lemma TornRecord(res: Reservations, after: Reservations, part: Writes, id: Id)
    requires Tells(after, part.sets, part.deletes)
    ensures var torn := TornReservations(res, part);
      if WroteTo(part, id) then (id in torn <==> id in after) && (id in torn ==> torn[id] == after[id])
      else (id in torn <==> id in res) && (id in torn ==> torn[id] == res[id])
  {
    IdsOfIff(part.sets, id);
    InsertAllValue(res, part.sets, id);
  }

  lemma {:induction false} InsertAllValue(res: Reservations, recs: seq<Record>, id: Id)
    ensures (exists r :: r in recs && r.id == id) ==>
      id in InsertAll(res, recs) && InsertAll(res, recs)[id] in recs && InsertAll(res, recs)[id].id == id
    ensures (forall r :: r in recs ==> r.id != id) ==>
      (id in InsertAll(res, recs) <==> id in res) && (id in res ==> InsertAll(res, recs)[id] == res[id])
  {
    if recs != [] {
      InsertAllValue(res, recs[..|recs| - 1], id);
    }
  }

  /** No granule is freed durably on a target while the reservation that held it stays as it was. */
  ghost predicate TearSafe(reservations: Reservations, ms: seq<Mutation>, committed: set<Granule>, part: Writes) {
    forall m, x :: m in ms && x in SelectedBy(reservations, m) && x !in committed && x.0 in part.targets ==> WroteTo(part, m.id)
  }

  /** What a batch that was accepted at a holder has done, and what has landed of it. */
  ghost predicate TornBatch(node: Node, db: Durable, ms: seq<Mutation>, kind: MutationKind, committed: set<Granule>, part: Writes) {
    && Covers(node, db) && DurableSound(db) && DistinctIds(ms)
    && MutateAll(node.mem, ms, kind, committed).ok
    && Landed(BatchWrites(MutateAll(node.mem, ms, kind, committed)), part)
    && (kind == Release ==> forall x :: x in db.markers && SelectedIn(node.mem.reservations, ms, x) ==> x in committed)
  }

  lemma TornTells(node: Node, db: Durable, ms: seq<Mutation>, kind: MutationKind, committed: set<Granule>, part: Writes)
    requires TornBatch(node, db, ms, kind, committed, part)
    ensures Tells(MutateAll(node.mem, ms, kind, committed).mem.reservations, part.sets, part.deletes)
  {
    SubmapSound(node.mem.targets, node.mem.reservations, db.reservations);
    MutateAllTells(node.mem, ms, kind, committed);
  }

  lemma BatchHeld(node: Node, db: Durable, ms: seq<Mutation>, kind: MutationKind, committed: set<Granule>)
    requires Covers(node, db) && DistinctIds(ms) && MutateAll(node.mem, ms, kind, committed).ok
    ensures var after := MutateAll(node.mem, ms, kind, committed).mem.reservations;
      && (forall id :: id in after ==> LiveRecord(id, after[id]))
      && (forall id, x :: HeldBy(after, id, x) ==> HeldBy(db.reservations, id, x))
  {
    SubmapSound(node.mem.targets, node.mem.reservations, db.reservations);
    MutateAllMeans(node.mem, ms, kind, committed);
    BatchMoves(node.mem, ms, kind, committed, MutateAll(node.mem, ms, kind, committed));
  }

  /** What a torn batch leaves of a reservation was held before, and is a live record. */
  lemma TornHeld(node: Node, db: Durable, ms: seq<Mutation>, kind: MutationKind, committed: set<Granule>, part: Writes, id: Id)
    requires TornBatch(node, db, ms, kind, committed, part)
    ensures var torn, after := TornReservations(db.reservations, part), MutateAll(node.mem, ms, kind, committed).mem.reservations;
      && (id in torn ==> LiveRecord(id, torn[id]))
      && (forall x :: HeldBy(torn, id, x) ==> HeldBy(db.reservations, id, x))
      && (forall x :: HeldBy(torn, id, x) && WroteTo(part, id) ==> HeldBy(after, id, x))
      && (!WroteTo(part, id) ==> forall x :: HeldBy(db.reservations, id, x) ==> HeldBy(torn, id, x))
  {
    TornTells(node, db, ms, kind, committed, part);
    BatchHeld(node, db, ms, kind, committed);
    TornRecord(db.reservations, MutateAll(node.mem, ms, kind, committed).mem.reservations, part, id);
  }

  /** Where a granule that is free after a torn batch can come from. */
  lemma TornFree(node: Node, db: Durable, ms: seq<Mutation>, kind: MutationKind, committed: set<Granule>, part: Writes, x: Granule)
    requires TornBatch(node, db, ms, kind, committed, part) && FreeAt(db.targets + part.targets, x)
    ensures x !in db.markers
    ensures || (forall id :: !HeldBy(db.reservations, id, x))
            || (kind == Release && x.0 in part.targets && x !in committed && SelectedIn(node.mem.reservations, ms, x))
  {
    var b := MutateAll(node.mem, ms, kind, committed);
    SubmapSound(node.mem.targets, node.mem.reservations, db.reservations);
    MutateAllMeans(node.mem, ms, kind, committed);
    BatchMoves(node.mem, ms, kind, committed, b);
    EntriesOf(b.mem.targets, b.dirty, part);
  }

  lemma LandedTargets(after: Targets, prior: Targets, part: Writes)
    requires ValidTargets(after) && ValidTargets(prior) && SameFleet(after, prior)
    requires forall t :: t in part.targets ==> t in after && part.targets[t] == after[t]
    ensures ValidTargets(prior + part.targets) && SameFleet(prior, prior + part.targets)
  {
  }

  lemma TornTargets(node: Node, db: Durable, ms: seq<Mutation>, kind: MutationKind, committed: set<Granule>, part: Writes)
    requires TornBatch(node, db, ms, kind, committed, part)
    ensures ValidTargets(db.targets + part.targets) && SameFleet(db.targets, db.targets + part.targets)
  {
    var b := MutateAll(node.mem, ms, kind, committed);
    SubmapSound(node.mem.targets, node.mem.reservations, db.reservations);
    MutateAllMeans(node.mem, ms, kind, committed);
    EntriesOf(b.mem.targets, b.dirty, part);
    SameFleetThrough(node.mem.targets, b.mem.targets, db.targets);
    LandedTargets(b.mem.targets, db.targets, part);
  }

  /** A torn batch leaves the ledger sound if no granule was freed whose reservation was not written. */
  lemma TornBatchSound(node: Node, db: Durable, ms: seq<Mutation>, kind: MutationKind, committed: set<Granule>, part: Writes)
    requires TornBatch(node, db, ms, kind, committed, part)
    requires kind == Release ==> TearSafe(node.mem.reservations, ms, committed, part)
    ensures DurableSound(ApplyWrites(db, part))
  {
    var torn, mixed := TornReservations(db.reservations, part), db.targets + part.targets;
    TornTargets(node, db, ms, kind, committed, part);
    forall id ensures id in torn ==> LiveRecord(id, torn[id]) {
      TornHeld(node, db, ms, kind, committed, part, id);
    }
    forall id, x | HeldBy(torn, id, x) ensures HeldBy(db.reservations, id, x) && !FreeAt(mixed, x) {
      TornHeld(node, db, ms, kind, committed, part, id);
      TornNotFree(node, db, ms, kind, committed, part, id, x);
    }
    forall x | x in db.markers ensures !FreeAt(mixed, x) {
      if FreeAt(mixed, x) {
        TornFree(node, db, ms, kind, committed, part, x);
      }
    }
  }

  lemma TornNotFree(node: Node, db: Durable, ms: seq<Mutation>, kind: MutationKind, committed: set<Granule>, part: Writes,
                    id: Id, x: Granule)
    requires TornBatch(node, db, ms, kind, committed, part)
    requires kind == Release ==> TearSafe(node.mem.reservations, ms, committed, part)
    requires HeldBy(TornReservations(db.reservations, part), id, x)
    ensures !FreeAt(db.targets + part.targets, x)
  {
    TornHeld(node, db, ms, kind, committed, part, id);
    if FreeAt(db.targets + part.targets, x) {
      TornFree(node, db, ms, kind, committed, part, x);
      var m :| m in ms && x in SelectedBy(node.mem.reservations, m);
      SelectedHeld(node.mem.reservations, m, x);
      assert HeldBy(db.reservations, m.id, x) && m.id == id;
      SubmapSound(node.mem.targets, node.mem.reservations, db.reservations);
      MutateAllMeans(node.mem, ms, kind, committed);
      assert false;
    }
  }

  /** A stop that is not safe leaves a granule durably both free and reserved. */
  lemma TornDouble(node: Node, db: Durable, ms: seq<Mutation>, committed: set<Granule>, part: Writes, m: Mutation, x: Granule)
    requires TornBatch(node, db, ms, Release, committed, part)
    requires m in ms && x in SelectedBy(node.mem.reservations, m) && x !in committed && x.0 in part.targets && !WroteTo(part, m.id)
    ensures FreeAt(ApplyWrites(db, part).targets, x) && HeldBy(ApplyWrites(db, part).reservations, m.id, x)
  {
    var b := MutateAll(node.mem, ms, Release, committed);
    SubmapSound(node.mem.targets, node.mem.reservations, db.reservations);
    MutateAllMeans(node.mem, ms, Release, committed);
    EntriesOf(b.mem.targets, b.dirty, part);
    assert SelectedIn(node.mem.reservations, ms, x);
    SelectedHeld(node.mem.reservations, m, x);
    TornHeld(node, db, ms, Release, committed, part, m.id);
  }

  // ---- where a release may stop ----

  /** A release that was accepted at a holder, and what it asks to persist. */
  ghost predicate Accepted(node: Node, db: Durable, ms: seq<Mutation>, committed: set<Granule>, w: Writes) {
    && Covers(node, db) && DurableSound(db) && DistinctIds(ms)
    && MutateAll(node.mem, ms, Release, committed).ok
    && w == BatchWrites(MutateAll(node.mem, ms, Release, committed))
    && (forall x :: x in db.markers && SelectedIn(node.mem.reservations, ms, x) ==> x in committed)
  }

  /** A granule that a release frees has its target among the writes, and its reservation too, once. */
  lemma FreedIsWritten(node: Node, db: Durable, ms: seq<Mutation>, committed: set<Granule>, w: Writes, m: Mutation, x: Granule)
    requires Accepted(node, db, ms, committed, w)
    requires m in ms && x in SelectedBy(node.mem.reservations, m) && x !in committed
    ensures x.0 in w.targets && WroteTo(w, m.id) && (m.id in w.deletes ==> m.id !in IdsOf(w.sets))
  {
    FreedTarget(node, db, ms, committed, w, m, x);
    FreedRecord(node, db, ms, committed, w, m, x);
  }

  lemma FreedTarget(node: Node, db: Durable, ms: seq<Mutation>, committed: set<Granule>, w: Writes, m: Mutation, x: Granule)
    requires Accepted(node, db, ms, committed, w)
    requires m in ms && x in SelectedBy(node.mem.reservations, m) && x !in committed
    ensures x.0 in w.targets
  {
    var b := MutateAll(node.mem, ms, Release, committed);
    SubmapSound(node.mem.targets, node.mem.reservations, db.reservations);
    MutateAllMeans(node.mem, ms, Release, committed);
    SelectedHeld(node.mem.reservations, m, x);
    assert SelectedIn(node.mem.reservations, ms, x);
    assert FreeAt(b.mem.targets, x) && !FreeAt(node.mem.targets, x);
  }

  lemma FreedRecord(node: Node, db: Durable, ms: seq<Mutation>, committed: set<Granule>, w: Writes, m: Mutation, x: Granule)
    requires Accepted(node, db, ms, committed, w)
    requires m in ms && x in SelectedBy(node.mem.reservations, m) && x !in committed
    ensures WroteTo(w, m.id) && (m.id in w.deletes ==> m.id !in IdsOf(w.sets))
  {
    var res, b := node.mem.reservations, MutateAll(node.mem, ms, Release, committed);
    SubmapSound(node.mem.targets, res, db.reservations);
    assert m.id in res && (m.id in b.mem.reservations ==> b.mem.reservations[m.id] != res[m.id]) && WritesMatch(node.mem, b) by {
      MutateAllMeans(node.mem, ms, Release, committed);
      SelectedHeld(res, m, x);
    }
    ChangedIsWritten(node.mem, b, m.id);
    assert Tells(b.mem.reservations, b.sets, b.deletes) by {
      MutateAllTells(node.mem, ms, Release, committed);
    }
    IdsOfIff(w.sets, m.id);
  }

  lemma ChangedIsWritten(mem: Mem, b: Batch, id: Id)
    requires WritesMatch(mem, b) && id in mem.reservations
    requires id in b.mem.reservations ==> b.mem.reservations[id] != mem.reservations[id]
    ensures id in b.deletes || id in IdsOf(b.sets)
  {
    IdsOfIff(b.sets, id);
    InsertAllValue(mem.reservations, b.sets, id);
  }

  /** A stop is safe for a granule whose two units are committed together. */
  lemma StopIsSafe(node: Node, db: Durable, ms: seq<Mutation>, committed: set<Granule>, w: Writes, l: Layout, n: nat)
    requires Accepted(node, db, ms, committed, w) && LaidOut(w, l) && Boundary(l.sizes, n)
    requires KeptTogether(node.mem.reservations, ms, committed, w, l)
    ensures TearSafe(node.mem.reservations, ms, committed, PartAt(w, l, n))
  {
    forall m, x | m in ms && x in SelectedBy(node.mem.reservations, m) && x !in committed && x.0 in PartAt(w, l, n).targets
      ensures WroteTo(PartAt(w, l, n), m.id)
    {
      FreedIsWritten(node, db, ms, committed, w, m, x);
      PartHas(w, l, n, x.0, m.id);
      assert CommittedTogether(w, l, m.id, x.0);
      UnitsInOrder(w, l, x.0, m.id);
      SameBatchIff(l.sizes, TargetUnit(l, x.0), RecordUnit(w, l, m.id));
    }
  }

  lemma UnitsInOrder(w: Writes, l: Layout, t: Id, id: Id)
    requires LaidOut(w, l) && t in w.targets && WroteTo(w, id)
    ensures TargetUnit(l, t) < |l.order| <= RecordUnit(w, l, id) < |l.sizes|
  {
    assert t in l.order;
  }

  /**
   * Every stop that the transactions allow leaves the ledger sound if and only if each granule that is
   * freed is freed in the same transaction that takes it from its reservation.
   */
  lemma TornReleaseIff(node: Node, db: Durable, ms: seq<Mutation>, committed: set<Granule>, w: Writes, l: Layout)
    requires Accepted(node, db, ms, committed, w) && LaidOut(w, l)
    ensures (forall n :: Boundary(l.sizes, n) ==> DurableSound(ApplyWrites(db, PartAt(w, l, n)))) <==>
      KeptTogether(node.mem.reservations, ms, committed, w, l)
  {
    if KeptTogether(node.mem.reservations, ms, committed, w, l) {
      forall n | Boundary(l.sizes, n) ensures DurableSound(ApplyWrites(db, PartAt(w, l, n))) {
        StopIsSafe(node, db, ms, committed, w, l, n);
        PartLands(w, l, n);
        TornBatchSound(node, db, ms, Release, committed, PartAt(w, l, n));
      }
    } else {
      var m, x :| m in ms && x in SelectedBy(node.mem.reservations, m) && x !in committed && !CommittedTogether(w, l, m.id, x.0);
      var n := TornApart(node, db, ms, committed, w, l, m, x);
      assert Boundary(l.sizes, n);
    }
  }

  /** Otherwise there is a stop that leaves a granule durably both free and reserved. */
  lemma TornApart(node: Node, db: Durable, ms: seq<Mutation>, committed: set<Granule>, w: Writes, l: Layout, m: Mutation, x: Granule)
    returns (n: nat)
    requires Accepted(node, db, ms, committed, w) && LaidOut(w, l)
    requires m in ms && x in SelectedBy(node.mem.reservations, m) && x !in committed && !CommittedTogether(w, l, m.id, x.0)
    ensures Boundary(l.sizes, n) && !DurableSound(ApplyWrites(db, PartAt(w, l, n)))
    ensures FreeAt(ApplyWrites(db, PartAt(w, l, n)).targets, x) && HeldBy(ApplyWrites(db, PartAt(w, l, n)).reservations, m.id, x)
  {
    FreedIsWritten(node, db, ms, committed, w, m, x);
    UnitsInOrder(w, l, x.0, m.id);
    SameBatchIff(l.sizes, TargetUnit(l, x.0), RecordUnit(w, l, m.id));
    n :| TargetUnit(l, x.0) < n <= RecordUnit(w, l, m.id) && Boundary(l.sizes, n);
    PartHas(w, l, n, x.0, m.id);
    PartLands(w, l, n);
    TornDouble(node, db, ms, committed, PartAt(w, l, n), m, x);
  }

  /** A persist that fits one transaction lands whole or not at all. */
  lemma FitsOneCommit(w: Writes, l: Layout, n: nat)
    requires LaidOut(w, l) && SumBytes(l.sizes, 0, |l.sizes|) <= MAX_TXN_BYTES && Boundary(l.sizes, n)
    ensures PartAt(w, l, n) == w || PartAt(w, l, n) == NO_WRITES
  {
    OneBatchStops(l.sizes, n);
    if n == |l.sizes| {
      assert PartAt(w, l, n).targets == w.targets;
    }
  }

  /** So a release that fits one transaction is never torn. */
  lemma SmallReleaseKept(node: Node, db: Durable, ms: seq<Mutation>, committed: set<Granule>, w: Writes, l: Layout)
    requires Accepted(node, db, ms, committed, w) && LaidOut(w, l) && SumBytes(l.sizes, 0, |l.sizes|) <= MAX_TXN_BYTES
    ensures KeptTogether(node.mem.reservations, ms, committed, w, l)
  {
    forall m, x | m in ms && x in SelectedBy(node.mem.reservations, m) && x !in committed
      ensures CommittedTogether(w, l, m.id, x.0)
    {
      FreedIsWritten(node, db, ms, committed, w, m, x);
      UnitsInOrder(w, l, x.0, m.id);
      OneBatch(l.sizes, TargetUnit(l, x.0) + 1);
      OneBatch(l.sizes, RecordUnit(w, l, m.id) + 1);
    }
  }

  // ---- a torn step ----

  /** Process `n` dies in operation `op` when `part` of its writes have landed. */
  ghost predicate Stops(c: Cluster, n: Id, op: Step, part: Writes) {
    && Operation(op) && op.n == n && Enabled(c, op) && Holds(c, n)
    && Landed(WritesOf(c, op), part)
    && var res := c.nodes[n].mem.reservations;
      match op
      case Releasing(_, ms) => TearSafe(res, ms, {}, part)
      case Expiring(_, _, _, ids) => TearSafe(res, ReleaseWhole(ids), ExpireMarkers(c, n, ids), part)
      case _ => true
  }

  lemma StopsRelease(node: Node, db: Durable, ms: seq<Mutation>, committed: set<Granule>, l: Layout, n: nat)
    requires Covers(node, db) && DurableSound(db) && Boundary(l.sizes, n)
    requires ReleaseSafe(node.mem.reservations, db.markers - committed, ms)
    requires LaidOut(BatchWrites(ApplyMutations(node.mem, ms, Release, committed)), l)
    requires ApplyMutations(node.mem, ms, Release, committed).ok ==>
      KeptTogether(node.mem.reservations, ms, committed, BatchWrites(ApplyMutations(node.mem, ms, Release, committed)), l)
    ensures TearSafe(node.mem.reservations, ms, committed, PartAt(BatchWrites(ApplyMutations(node.mem, ms, Release, committed)), l, n))
  {
    if ApplyMutations(node.mem, ms, Release, committed).ok {
      SubmapSound(node.mem.targets, node.mem.reservations, db.reservations);
      SafeRelease(node.mem, ms, db.markers, committed);
      StopIsSafe(node, db, ms, committed, BatchWrites(MutateAll(node.mem, ms, Release, committed)), l, n);
    }
  }

  /** A torn step is a stop that is safe in this sense. */
  lemma TornStops(c: Cluster, n: Id, op: Step, l: Layout, landed: nat)
    requires CoreInv(c) && Enabled(c, Torn(n, op, l, landed))
    ensures Stops(c, n, op, PartAt(WritesOf(c, op), l, landed))
  {
    var node := c.nodes[n];
    assert Covers(node, c.db);
    PartLands(WritesOf(c, op), l, landed);
    if op.Releasing? {
      assert c.db.markers - {} == c.db.markers;
      StopsRelease(node, c.db, op.ms, {}, l, landed);
    } else if op.Expiring? {
      ExpireIsSafe(node.mem.reservations, c.db.markers, op.ids);
      StopsRelease(node, c.db, ReleaseWhole(op.ids), ExpireMarkers(c, n, op.ids), l, landed);
    }
  }

  lemma NothingLanded(db: Durable, part: Writes)
    requires Landed(NO_WRITES, part)
    ensures ApplyWrites(db, part) == db
  {
    assert part == NO_WRITES;
    NothingWritten(db, part);
  }

  lemma TornMutations(node: Node, db: Durable, ms: seq<Mutation>, kind: MutationKind, committed: set<Granule>, part: Writes)
    requires Covers(node, db) && DurableSound(db)
    requires Landed(BatchWrites(ApplyMutations(node.mem, ms, kind, committed)), part)
    requires kind == Release ==>
      ReleaseSafe(node.mem.reservations, db.markers - committed, ms) && TearSafe(node.mem.reservations, ms, committed, part)
    ensures DurableSound(ApplyWrites(db, part))
  {
    if ApplyMutations(node.mem, ms, kind, committed).ok {
      if kind == Release {
        SubmapSound(node.mem.targets, node.mem.reservations, db.reservations);
        SafeRelease(node.mem, ms, db.markers, committed);
      }
      TornBatchSound(node, db, ms, kind, committed, part);
    } else {
      NothingLanded(db, part);
    }
  }

  lemma TornRecycling(c: Cluster, n: Id, op: Step, part: Writes)
    requires CoreInv(c) && Stops(c, n, op, part) && (op.Releasing? || op.Reclaiming? || op.Expiring?)
    ensures DurableSound(ApplyWrites(c.db, part))
  {
    var node := c.nodes[n];
    assert Covers(node, c.db);
    match op
    case Releasing(_, ms) =>
      assert c.db.markers - {} == c.db.markers;
      TornMutations(node, c.db, ms, Release, {}, part);
    case Reclaiming(_, xs, order) =>
      if ReclaimAll(node.mem.targets, order).ok {
        SafeInEveryOrder(c.db, xs, order);
        TornReclaim(node, c.db, order, part);
      } else {
        NothingLanded(c.db, part);
      }
    case Expiring(_, _, _, ids) =>
      ExpireIsSafe(node.mem.reservations, c.db.markers, ids);
      TornMutations(node, c.db, ReleaseWhole(ids), Release, ExpireMarkers(c, n, ids), part);
  }

  lemma TornHandout(c: Cluster, n: Id, op: Step, part: Writes)
    requires CoreInv(c) && Stops(c, n, op, part) && (op.Reserving? || op.Refilling? || op.Claiming?)
    requires op.Claiming? && op.bin in c.nodes[n].mem.bins ==> NoDup(c.nodes[n].mem.bins[op.bin])
    ensures DurableSound(ApplyWrites(c.db, part))
  {
    var node := c.nodes[n];
    assert Covers(node, c.db);
    if op.Claiming? {
      TornClaim(node, c.db, op.bin, op.want, op.now, op.ttl, part);
    } else {
      TornReserve(node, c.db, op.after, op.dirty, op.recs, part);
    }
  }

  /** Whatever has landed of an operation's writes, the ledger stays sound. */
  lemma TornDurable(c: Cluster, n: Id, op: Step, part: Writes)
    requires CoreInv(c) && Stops(c, n, op, part)
    requires op.Claiming? && op.bin in c.nodes[n].mem.bins ==> NoDup(c.nodes[n].mem.bins[op.bin])
    ensures DurableSound(ApplyWrites(c.db, part))
  {
    var node := c.nodes[n];
    assert Covers(node, c.db);
    if op.Finalizing? {
      TornMutations(node, c.db, op.ms, Finalize, {}, part);
    } else if op.Releasing? || op.Reclaiming? || op.Expiring? {
      TornRecycling(c, n, op, part);
    } else {
      TornHandout(c, n, op, part);
    }
  }

  lemma ForgetKeepsFence(c: Cluster, c': Cluster, n: Id)
    requires FenceInv(c) && c'.db.lease == c.db.lease && c'.log == c.log && c'.nodes == c.nodes[n := NEW_NODE]
    ensures FenceInv(c')
  {
  }

  lemma TearKeepsFence(c: Cluster, n: Id, op: Step, part: Writes)
    requires FenceInv(c) && Holds(c, n)
    ensures FenceInv(Tear(c, n, op, part))
  {
    var o := Leader.Outcome(c.nodes[n], ApplyWrites(c.db, part), !NoWrites(part), Ok(0));
    SettleKeepsFence(c, n, o);
    assert c.nodes[n := c.nodes[n]] == c.nodes;
    ForgetKeepsFence(Settle(c, n, o), Tear(c, n, op, part), n);
  }

  /** Nobody passes the fence after the holder has died. */
  lemma NoHolderLeft(c: Cluster, n: Id, op: Step, part: Writes, m: Id)
    requires FenceInv(c) && Holds(c, n)
    ensures !Holds(Tear(c, n, op, part), m)
  {
    if m != n && Holds(c, m) {
      OneHolder(c, m, n);
    }
  }

  lemma TornStep(c: Cluster, n: Id, op: Step, l: Layout, landed: nat)
    requires CoreInv(c) && Enabled(c, Torn(n, op, l, landed))
    requires op.Claiming? && op.bin in c.nodes[n].mem.bins ==> NoDup(c.nodes[n].mem.bins[op.bin])
    ensures CoreInv(Tear(c, n, op, PartAt(WritesOf(c, op), l, landed)))
  {
    TornStops(c, n, op, l, landed);
    StopKeeps(c, n, op, PartAt(WritesOf(c, op), l, landed));
  }

  lemma StopKeeps(c: Cluster, n: Id, op: Step, part: Writes)
    requires CoreInv(c) && Stops(c, n, op, part)
    requires op.Claiming? && op.bin in c.nodes[n].mem.bins ==> NoDup(c.nodes[n].mem.bins[op.bin])
    ensures CoreInv(Tear(c, n, op, part))
  {
    TornDurable(c, n, op, part);
    TearKeepsFence(c, n, op, part);
    forall m ensures !Holds(Tear(c, n, op, part), m) {
      NoHolderLeft(c, n, op, part, m);
    }
  }

  // ---- what has landed when everything has ----

  /** Without a tear, an operation at the holder makes exactly these writes durable. */
  lemma WritesAreDurable(c: Cluster, s: Step)
    requires CoreInv(c) && Operation(s) && Enabled(c, s) && Holds(c, s.n)
    ensures Do(c, s).db == ApplyWrites(c.db, WritesOf(c, s))
  {
    if s.Finalizing? {
      FinalizeIsDurable(c, s);
    } else if s.Releasing? || s.Expiring? {
      ReleaseIsDurable(c, s);
    } else {
      NothingWritten(c.db, WritesOf(c, s));
    }
  }

  lemma ReleaseIsDurable(c: Cluster, s: Step)
    requires CoreInv(c) && (s.Releasing? || s.Expiring?) && Enabled(c, s) && Holds(c, s.n)
    ensures Do(c, s).db == ApplyWrites(c.db, WritesOf(c, s))
  {
    NothingWritten(c.db, WritesOf(c, s));
  }

  lemma FinalizeIsDurable(c: Cluster, s: Step)
    requires CoreInv(c) && s.Finalizing? && Enabled(c, s) && Holds(c, s.n)
    ensures Do(c, s).db == ApplyWrites(c.db, WritesOf(c, s))
  {
    var node := c.nodes[s.n];
    NothingWritten(c.db, WritesOf(c, s));
    assert Covers(node, c.db);
    SubmapSound(node.mem.targets, node.mem.reservations, c.db.reservations);
    FastFinalizeRefines(node.mem, s.ms, {});
  }
}
