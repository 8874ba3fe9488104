/** No reservation is handed out twice: what every run of the cluster keeps about the bins. */
module Handout {
  import opened Common
  import opened Records
  import opened Allocator
  import opened Answers
  import opened FastFinalize
  import opened Recycle
  import opened Leader
  import opened Cluster
  import opened Failover

  ghost predicate InBins(bins: Bins, id: Id) {
    exists k :: k in bins && id in bins[k]
  }

  ghost predicate BinsDistinct(bins: Bins) {
    && (forall k :: k in bins ==> NoDup(bins[k]))
    && (forall j, k, id :: j in bins && k in bins && id in bins[j] && id in bins[k] ==> j == k)
  }

  ghost predicate WaitsAt(c: Cluster, n: Id, id: Id) {
    n in c.nodes && InBins(c.nodes[n].mem.bins, id)
  }

  /** Every waiting id waits in one place, was generated, and has not been handed out. */
  ghost predicate BinInv(c: Cluster) {
    && NoDup(c.handed)
    && (forall id :: id in c.handed ==> id in c.used)
    && (forall n :: n in c.nodes ==> BinsDistinct(c.nodes[n].mem.bins))
    && (forall n, id :: WaitsAt(c, n, id) ==> id in c.used && id !in c.handed)
    && (forall m, n, id :: WaitsAt(c, m, id) && WaitsAt(c, n, id) ==> m == n)
  }

  /** The bins only lost ids. */
  ghost predicate BinsShrink(bins: Bins, bins': Bins) {
    && (BinsDistinct(bins) ==> BinsDistinct(bins'))
    && (forall id :: InBins(bins', id) ==> InBins(bins, id))
  }

  // ---- operations on bins ----

  lemma {:induction false} WithoutMeaning(queue: seq<Id>, id: Id)
    ensures forall x :: x in Without(queue, id) <==> x in queue && x != id
    ensures NoDup(queue) ==> NoDup(Without(queue, id))
  {
    if queue != [] {
      var front, last := queue[..|queue| - 1], queue[|queue| - 1];
      WithoutMeaning(front, id);
      assert queue == front + [last];
      assert NoDup(queue) ==> NoDup(front) && last !in front;
    }
  }

  lemma DropShrinksBins(bins: Bins, id: Id)
    ensures BinsShrink(bins, DropFromBins(bins, id))
    ensures !InBins(DropFromBins(bins, id), id)
  {
    forall k | k in bins
      ensures forall x :: x in Without(bins[k], id) <==> x in bins[k] && x != id
      ensures NoDup(bins[k]) ==> NoDup(Without(bins[k], id))
    {
      WithoutMeaning(bins[k], id);
    }
  }

  /** Removing an id from the bins removes nothing else, keeps every queue's order, and drops the bins it empties. */
  lemma DropMeaning(bins: Bins, id: Id)
    ensures forall k :: k in DropFromBins(bins, id) <==> k in bins && exists x :: x in bins[k] && x != id
    ensures forall k :: k in DropFromBins(bins, id) ==> PicksAllBut(bins[k], DropFromBins(bins, id)[k], id)
  {
    forall k | k in bins
      ensures Without(bins[k], id) != [] <==> exists x :: x in bins[k] && x != id
      ensures PicksAllBut(bins[k], Without(bins[k], id), id)
    {
      WithoutMeaning(bins[k], id);
      if Without(bins[k], id) != [] {
        assert Without(bins[k], id)[0] in Without(bins[k], id);
      }
      var at := WithoutPicks(bins[k], id);
    }
  }

  ghost predicate PicksAllBut(queue: seq<Id>, rest: seq<Id>, id: Id) {
    exists at :: Picks(queue, rest, at) && forall i: nat :: i in at <==> i < |queue| && queue[i] != id
  }

  lemma {:induction false} WithoutPicks(queue: seq<Id>, id: Id) returns (at: seq<nat>)
    ensures Picks(queue, Without(queue, id), at)
    ensures forall i: nat :: i in at <==> i < |queue| && queue[i] != id
  {
    if queue == [] {
      at := [];
    } else {
      var n := |queue| - 1;
      at := WithoutPicks(queue[..n], id);
      if queue[n] != id {
        IncreasingSnoc(at, n);
        at := at + [n];
      }
    }
  }

  /** An accepted batch takes out of the bins exactly the live reservations it names. */
  ghost predicate DropsLive(mem: Mem, ms: seq<Mutation>, bins: Bins) {
    forall k, x :: Queued(bins, k, x) <==> Queued(mem.bins, k, x) && !LiveNamed(mem.reservations, ms, x)
  }

  predicate Queued(bins: Bins, k: Id, id: Id) {
    k in bins && id in bins[k]
  }

  ghost predicate LiveNamed(res: Reservations, ms: seq<Mutation>, id: Id) {
    id in MutatedIds(ms) && id in res && res[id].state == Reserved
  }

  lemma {:induction false} MutateDropsLive(mem: Mem, ms: seq<Mutation>, kind: MutationKind, committed: set<Granule>)
    requires KeyedRecords(mem.reservations) && DistinctIds(ms) && MutateAll(mem, ms, kind, committed).ok
    ensures DropsLive(mem, ms, MutateAll(mem, ms, kind, committed).mem.bins)
  {
    if ms != [] {
      var front, m := ms[..|ms| - 1], ms[|ms| - 1];
      var b := MutateAll(mem, front, kind, committed);
      DistinctIdsPrefix(ms);
      MutateDropsLive(mem, front, kind, committed);
      MutateAllAnswers(mem, front, kind, committed);
      assert SameAt(mem.reservations, b.mem.reservations, m.id);
      OneDropsLive(b, m, kind, committed);
      assert ms == front + [m];
      DropsNext(mem, front, m, b, MutateAll(mem, ms, kind, committed).mem.bins);
    }
  }

  lemma DropsNext(mem: Mem, front: seq<Mutation>, m: Mutation, b: Batch, bins: Bins)
    requires DropsLive(mem, front, b.mem.bins) && m.id !in MutatedIds(front) && SameAt(mem.reservations, b.mem.reservations, m.id)
    requires var live := m.id in b.mem.reservations && b.mem.reservations[m.id].state == Reserved;
      forall k, x :: Queued(bins, k, x) <==> Queued(b.mem.bins, k, x) && !(live && x == m.id)
    ensures DropsLive(mem, front + [m], bins)
  {
    assert MutatedIds(front + [m]) == MutatedIds(front) + {m.id};
    forall x ensures LiveNamed(mem.reservations, front + [m], x) <==>
      LiveNamed(mem.reservations, front, x) || (x == m.id && LiveNamed(b.mem.reservations, [m], x))
    {
      assert m in [m];
    }
  }

  lemma OneDropsLive(b: Batch, m: Mutation, kind: MutationKind, committed: set<Granule>)
    requires b.ok && MutateOne(b, m, kind, committed).ok
    requires m.id in b.mem.reservations ==> b.mem.reservations[m.id].id == m.id
    ensures var bins, live := MutateOne(b, m, kind, committed).mem.bins, m.id in b.mem.reservations && b.mem.reservations[m.id].state == Reserved;
      forall k, x :: Queued(bins, k, x) <==> Queued(b.mem.bins, k, x) && !(live && x == m.id)
  {
    if m.id in b.mem.reservations && b.mem.reservations[m.id].state == Reserved {
      forall k | k in b.mem.bins ensures forall x :: x in Without(b.mem.bins[k], m.id) <==> x in b.mem.bins[k] && x != m.id {
        WithoutMeaning(b.mem.bins[k], m.id);
      }
      assert MutateOne(b, m, kind, committed).mem.bins == DropFromBins(b.mem.bins, m.id);
    }
  }

  /** Whatever its outcome, a batch only takes ids out of the bins. */
  lemma {:induction false} MutateShrinksBins(mem: Mem, ms: seq<Mutation>, kind: MutationKind, committed: set<Granule>)
    ensures BinsShrink(mem.bins, MutateAll(mem, ms, kind, committed).mem.bins)
  {
    if ms != [] {
      var front, m := ms[..|ms| - 1], ms[|ms| - 1];
      MutateShrinksBins(mem, front, kind, committed);
      var b := MutateAll(mem, front, kind, committed);
      MutateOneBins(b, m, kind, committed);
      if m.id in b.mem.reservations {
        DropShrinksBins(b.mem.bins, b.mem.reservations[m.id].id);
      }
    }
  }

  lemma MutateOneBins(b: Batch, m: Mutation, kind: MutationKind, committed: set<Granule>)
    ensures var bins := MutateOne(b, m, kind, committed).mem.bins;
      bins == b.mem.bins || (m.id in b.mem.reservations && bins == DropFromBins(b.mem.bins, b.mem.reservations[m.id].id))
  {
  }

  lemma PushBins(bins: Bins, bin: Id, ids: seq<Id>)
    requires BinsDistinct(bins) && NoDup(ids) && forall id :: id in ids ==> !InBins(bins, id)
    ensures var bins' := bins[bin := (if bin in bins then bins[bin] else []) + ids];
      BinsDistinct(bins') && forall id :: InBins(bins', id) ==> InBins(bins, id) || id in ids
  {
    var queue := if bin in bins then bins[bin] else [];
    assert forall id :: id in queue ==> InBins(bins, id);
    NoDupConcat(queue, ids);
  }

  lemma ClaimShrinksBins(mem: Mem, bin: Id, want: nat, now: nat, ttl: nat)
    ensures BinsShrink(mem.bins, ClaimFrom(mem, bin, want, now, ttl).0.bins)
  {
    if bin in mem.bins {
      DrainQueue(mem.bins[bin], mem.reservations, want, now, ClaimExpiry(now, ttl));
    }
  }

  /** What a claim hands out was waiting in the bin and waits nowhere any more. */
  lemma ClaimTakes(mem: Mem, bin: Id, want: nat, now: nat, ttl: nat)
    requires BinsDistinct(mem.bins) && forall id :: id in mem.reservations ==> mem.reservations[id].id == id
    ensures var (mem', claimed) := ClaimFrom(mem, bin, want, now, ttl);
      && NoDup(IdsOf(claimed))
      && forall id :: id in IdsOf(claimed) ==> InBins(mem.bins, id) && !InBins(mem'.bins, id)
  {
    if bin in mem.bins {
      DrainIds(mem.bins[bin], mem.reservations, want, now, ClaimExpiry(now, ttl));
    }
  }

  // ---- every step keeps the bins ----

  lemma BinStep(c: Cluster, c': Cluster, n: Id, minted: seq<Id>, given: seq<Id>)
    requires BinInv(c) && n in c.nodes && c'.nodes.Keys == c.nodes.Keys
    requires forall m :: m in c.nodes && m != n ==> c'.nodes[m] == c.nodes[m]
    requires c'.used == c.used + Elems(minted) && forall id :: id in minted ==> id !in c.used
    requires c'.handed == c.handed + given && NoDup(given)
    requires BinsDistinct(c'.nodes[n].mem.bins)
    requires forall id :: InBins(c'.nodes[n].mem.bins, id) ==>
      (InBins(c.nodes[n].mem.bins, id) || id in minted) && id !in given
    requires forall id :: id in given ==> InBins(c.nodes[n].mem.bins, id) || id in minted
    ensures BinInv(c')
  {
    assert forall id :: InBins(c.nodes[n].mem.bins, id) ==> WaitsAt(c, n, id);
    assert forall m, id :: m != n ==> (WaitsAt(c', m, id) <==> WaitsAt(c, m, id));
    assert forall id :: id in given ==> id !in c.handed;
    assert forall id :: id in c'.handed <==> id in c.handed || id in given;
    NoDupConcat(c.handed, given);
  }

  lemma ShrinkStep(c: Cluster, c': Cluster, n: Id)
    requires BinInv(c) && n in c.nodes && c'.nodes.Keys == c.nodes.Keys
    requires forall m :: m in c.nodes && m != n ==> c'.nodes[m] == c.nodes[m]
    requires c'.used == c.used && c'.handed == c.handed
    requires BinsShrink(c.nodes[n].mem.bins, c'.nodes[n].mem.bins)
    ensures BinInv(c')
  {
    BinStep(c, c', n, [], []);
  }

  lemma ReserveBins(c: Cluster, n: Id, after: Targets, dirty: set<Id>, recs: seq<Record>)
    requires BinInv(c) && n in c.nodes && NoDup(IdsOf(recs)) && forall id :: id in IdsOf(recs) ==> id !in c.used
    ensures var o := ReserveOp(c.nodes[n], c.db, after, dirty, recs);
      BinInv(Hand(Use(Settle(c, n, o), recs), o.reply))
  {
    var o := ReserveOp(c.nodes[n], c.db, after, dirty, recs);
    assert forall id :: InBins(c.nodes[n].mem.bins, id) ==> WaitsAt(c, n, id);
    BinStep(c, Hand(Use(Settle(c, n, o), recs), o.reply), n, IdsOf(recs), if o.reply.Ok? then IdsOf(recs) else []);
  }

  lemma RefillBins(c: Cluster, n: Id, bin: Id, after: Targets, dirty: set<Id>, recs: seq<Record>)
    requires BinInv(c) && n in c.nodes && NoDup(IdsOf(recs)) && forall id :: id in IdsOf(recs) ==> id !in c.used
    ensures BinInv(Use(Settle(c, n, TopUpOp(c.nodes[n], c.db, bin, after, dirty, recs)), recs))
  {
    var o := TopUpOp(c.nodes[n], c.db, bin, after, dirty, recs);
    assert forall id :: InBins(c.nodes[n].mem.bins, id) ==> WaitsAt(c, n, id);
    PushBins(c.nodes[n].mem.bins, bin, IdsOf(recs));
    BinStep(c, Use(Settle(c, n, o), recs), n, IdsOf(recs), []);
  }

  lemma ClaimBins(c: Cluster, n: Id, bin: Id, want: nat, now: nat, ttl: nat)
    requires CoreInv(c) && BinInv(c) && ServingFull(c, n)
    ensures var o := ClaimOp(c.nodes[n], c.db, bin, want, now, ttl);
      BinInv(Hand(Settle(c, n, o), o.reply))
  {
    var mem := c.nodes[n].mem;
    var o := ClaimOp(c.nodes[n], c.db, bin, want, now, ttl);
    ClaimShrinksBins(mem, bin, want, now, ttl);
    if Holds(c, n) {
      assert Covers(c.nodes[n], c.db);
      ClaimTakes(mem, bin, want, now, ttl);
    }
    BinStep(c, Hand(Settle(c, n, o), o.reply), n, [], if o.reply.Ok? then IdsOf(o.reply.value) else []);
  }

  lemma SettleShrinks<T>(c: Cluster, n: Id, o: Leader.Outcome<T>)
    requires BinInv(c) && n in c.nodes && BinsShrink(c.nodes[n].mem.bins, o.node.mem.bins)
    ensures BinInv(Settle(c, n, o))
  {
    ShrinkStep(c, Settle(c, n, o), n);
  }

  lemma SettleBins(c: Cluster, n: Id, ms: seq<Mutation>, kind: MutationKind, committed: set<Granule>)
    requires BinInv(c) && n in c.nodes
    ensures BinInv(Settle(c, n, MutateOp(c.nodes[n], c.db, ms, kind, committed)))
  {
    MutateShrinksBins(c.nodes[n].mem, ms, kind, committed);
    SettleShrinks(c, n, MutateOp(c.nodes[n], c.db, ms, kind, committed));
  }

  lemma FinalizeBins(c: Cluster, n: Id, ms: seq<Mutation>)
    requires BinInv(c) && n in c.nodes
    ensures BinInv(Settle(c, n, FinalizeOp(c.nodes[n], c.db, ms)))
  {
    FastFinalizeRefines(c.nodes[n].mem, ms, {});
    MutateShrinksBins(c.nodes[n].mem, ms, Finalize, {});
    SettleShrinks(c, n, FinalizeOp(c.nodes[n], c.db, ms));
  }

  lemma ReclaimBins(c: Cluster, n: Id, xs: seq<Granule>)
    requires BinInv(c) && n in c.nodes
    ensures BinInv(Settle(c, n, ReclaimOp(c.nodes[n], c.db, xs)))
  {
    SettleShrinks(c, n, ReclaimOp(c.nodes[n], c.db, xs));
  }

  /** A process that dies in the middle of an operation hands out nothing and forgets its bins. */
  lemma TornBins(c: Cluster, n: Id, op: Step, part: Writes)
    requires BinInv(c) && n in c.nodes
    requires op.Reserving? || op.Refilling? ==> NoDup(IdsOf(op.recs)) && forall id :: id in IdsOf(op.recs) ==> id !in c.used
    ensures BinInv(Tear(c, n, op, part))
  {
    var minted := if op.Reserving? || op.Refilling? then IdsOf(op.recs) else [];
    assert Elems<Id>([]) == {};
    BinStep(c, Tear(c, n, op, part), n, minted, []);
  }
}
