/** Where granules go: each operation moves granules between free, reserved and in use, and loses none. */
module Conservation {
  import opened Common
  import opened Records
  import opened Allocator
  import opened Recycle
  import opened Planner
  import opened Reserve

  /** The granules held by the reservations a batch names. */
  ghost function Named(reservations: Reservations, ms: seq<Mutation>): set<Granule> {
    set x | x in ReservedOf(reservations) && NamedIn(reservations, ms, x)
  }

  ghost predicate NamedIn(reservations: Reservations, ms: seq<Mutation>, x: Granule) {
    exists m :: m in ms && HeldBy(reservations, m.id, x)
  }

  /** The granules a batch selects. */
  ghost function Chosen(reservations: Reservations, ms: seq<Mutation>): set<Granule> {
    set x | x in ReservedOf(reservations) && SelectedIn(reservations, ms, x)
  }

  lemma ReservedIff(reservations: Reservations)
    ensures forall x :: x in ReservedOf(reservations) <==> exists id :: HeldBy(reservations, id, x)
  {
    forall x ensures x in ReservedOf(reservations) <==> exists id :: HeldBy(reservations, id, x) {
      ReservedMember(reservations, x);
    }
  }

  lemma SameGranules(targets: Targets, targets': Targets)
    requires SameFleet(targets, targets')
    ensures GranulesIn(targets) == GranulesIn(targets')
  {
  }

  lemma OthersHold(mem: Mem, ms: seq<Mutation>, b: Batch, id: Id, x: Granule)
    requires BatchKeeps(mem, ms, b) && id !in MutatedIds(ms)
    ensures HeldBy(b.mem.reservations, id, x) <==> HeldBy(mem.reservations, id, x)
  {
  }

  /** Finalizing, even in part, moves everything the named reservations hold to in use. */
  lemma FinalizeMoves(mem: Mem, ms: seq<Mutation>, committed: set<Granule>)
    requires SoundMem(mem) && DistinctIds(ms) && MutateAll(mem, ms, Finalize, committed).ok
    ensures var mem' := MutateAll(mem, ms, Finalize, committed).mem;
      && FreeOf(mem'.targets) == FreeOf(mem.targets)
      && ReservedOf(mem'.reservations) == ReservedOf(mem.reservations) - Named(mem.reservations, ms)
      && InUseOf(mem'.targets, mem'.reservations) ==
         InUseOf(mem.targets, mem.reservations) + Named(mem.reservations, ms)
  {
    var b := MutateAll(mem, ms, Finalize, committed);
    MutateAllMeans(mem, ms, Finalize, committed);
    var was, now := mem.reservations, b.mem.reservations;
    ReservedIff(was);
    ReservedIff(now);
    Ledger(mem.targets, was);
    forall x ensures x in ReservedOf(now) <==> x in ReservedOf(was) && !NamedIn(was, ms, x) {
      if id :| HeldBy(now, id, x) {
        assert id !in MutatedIds(ms);
        OthersHold(mem, ms, b, id, x);
      }
      if id :| HeldBy(was, id, x) {
        if !NamedIn(was, ms, x) {
          OthersHold(mem, ms, b, id, x);
        }
      }
    }
  }

  /** Releasing moves the selected granules to free, except committed ones, which become in use. */
  lemma ReleaseMoves(mem: Mem, ms: seq<Mutation>, committed: set<Granule>)
    requires SoundMem(mem) && DistinctIds(ms) && MutateAll(mem, ms, Release, committed).ok
    ensures var mem' := MutateAll(mem, ms, Release, committed).mem;
      var gone := Chosen(mem.reservations, ms);
      && FreeOf(mem'.targets) == FreeOf(mem.targets) + (gone - committed)
      && ReservedOf(mem'.reservations) == ReservedOf(mem.reservations) - gone
      && InUseOf(mem'.targets, mem'.reservations) == InUseOf(mem.targets, mem.reservations) + gone * committed
  {
    var b := MutateAll(mem, ms, Release, committed);
    MutateAllMeans(mem, ms, Release, committed);
    SameGranules(mem.targets, b.mem.targets);
    Ledger(mem.targets, mem.reservations);
    Ledger(b.mem.targets, b.mem.reservations);
    ReleasedHoldings(mem, ms, committed, b);
    ReservedIff(mem.reservations);
    assert forall x :: SelectedIn(mem.reservations, ms, x) ==> x in ReservedOf(mem.reservations);
  }

  lemma ReleasedHoldings(mem: Mem, ms: seq<Mutation>, committed: set<Granule>, b: Batch)
    requires SoundMem(mem) && BatchKeeps(mem, ms, b) && BatchFrees(mem, ms, committed, b)
    ensures forall x :: x in ReservedOf(b.mem.reservations) <==>
      x in ReservedOf(mem.reservations) && !SelectedIn(mem.reservations, ms, x)
    ensures forall x :: SelectedIn(mem.reservations, ms, x) ==> exists id :: HeldBy(mem.reservations, id, x)
  {
    var was, now := mem.reservations, b.mem.reservations;
    ReservedIff(was);
    ReservedIff(now);
    forall m, x | m in ms && x in SelectedBy(was, m) ensures HeldBy(was, m.id, x) {
      SelectedHeld(was, m, x);
    }
    forall x ensures x in ReservedOf(now) <==> x in ReservedOf(was) && !SelectedIn(was, ms, x) {
      if id :| HeldBy(now, id, x) {
        if m :| m in ms && m.id == id {
          assert HeldBy(was, m.id, x) && x !in SelectedBy(was, m);
          assert forall n :: n in ms && x in SelectedBy(was, n) ==> n.id == id && !HeldBy(now, n.id, x);
        } else {
          OthersHold(mem, ms, b, id, x);
          assert forall n :: n in ms && x in SelectedBy(was, n) ==> n.id == id && n.id in MutatedIds(ms);
        }
      }
      if id :| HeldBy(was, id, x) {
        if m :| m in ms && m.id == id {
          assert x in SelectedBy(was, m) || HeldBy(now, m.id, x);
        } else {
          OthersHold(mem, ms, b, id, x);
        }
      }
    }
  }

  /** Reserving under new ids moves the planned granules from free to reserved. */
  lemma ReserveMoves(targets: Targets, res: Reservations, targets': Targets, recs: seq<Record>)
    requires Sound(targets, res) && ReservedFrom(targets, targets', recs)
    requires NoDup(IdsOf(recs)) && forall r :: r in recs ==> r.id !in res
    ensures var taken := GranulesOf(AllPlacements(recs));
      && FreeOf(targets') == FreeOf(targets) - taken
      && ReservedOf(InsertAll(res, recs)) == ReservedOf(res) + taken
      && InUseOf(targets', InsertAll(res, recs)) == InUseOf(targets, res)
  {
    var taken := GranulesOf(AllPlacements(recs));
    SameGranules(targets, targets');
    ReserveKeepsSound(targets, res, targets', recs);
    Ledger(targets, res);
    Ledger(targets', InsertAll(res, recs));
    ReservedAdds(res, recs);
  }

  lemma {:induction false} ReservedAdds(res: Reservations, recs: seq<Record>)
    requires NoDup(IdsOf(recs)) && forall r :: r in recs ==> r.id !in res
    ensures ReservedOf(InsertAll(res, recs)) == ReservedOf(res) + GranulesOf(AllPlacements(recs))
    ensures forall id :: id in InsertAll(res, recs) <==> id in res || id in IdsOf(recs)
  {
    if recs != [] {
      var front, r := recs[..|recs| - 1], recs[|recs| - 1];
      var ids := IdsOf(recs);
      assert IdsOf(front) == ids[..|recs| - 1];
      assert ids == IdsOf(front) + [r.id];
      assert r in recs;
      forall i | 0 <= i < |front| ensures IdsOf(front)[i] != r.id {
        assert ids[i] != ids[|recs| - 1];
      }
      ReservedAdds(res, front);
      ReservedInsert(InsertAll(res, front), r);
      GranulesSnoc(front, r);
      assert recs == front + [r];
    }
  }

  lemma ReservedInsert(res: Reservations, r: Record)
    requires r.id !in res
    ensures ReservedOf(res[r.id := r]) == ReservedOf(res) + GranulesOf(r.placements)
  {
    var after := res[r.id := r];
    forall x ensures x in ReservedOf(after) <==> x in ReservedOf(res) || x in GranulesOf(r.placements) {
      ReservedMember(after, x);
      ReservedMember(res, x);
      if id :| HeldBy(res, id, x) {
        assert HeldBy(after, id, x);
      }
      if x in GranulesOf(r.placements) {
        assert HeldBy(after, r.id, x);
      }
    }
  }

  lemma GranulesSnoc(recs: seq<Record>, r: Record)
    ensures GranulesOf(AllPlacements(recs + [r])) == GranulesOf(AllPlacements(recs)) + GranulesOf(r.placements)
  {
    assert (recs + [r])[..|recs|] == recs;
    assert AllPlacements(recs + [r]) == AllPlacements(recs) + r.placements;
  }

  /** Reclaiming unreserved granules moves them from in use to free, up to the first one out of range. */
  lemma ReclaimMoves(targets: Targets, res: Reservations, xs: seq<Granule>)
    requires Sound(targets, res)
    requires forall x :: x in Visited(targets, xs) ==> forall id :: !HeldBy(res, id, x)
    ensures var r, moved := ReclaimAll(targets, xs), Elems(Visited(targets, xs));
      && FreeOf(r.targets) == FreeOf(targets) + moved
      && InUseOf(r.targets, res) == InUseOf(targets, res) - moved
      && r.count == |FreeOf(r.targets)| - |FreeOf(targets)|
  {
    var r, visited := ReclaimAll(targets, xs), Visited(targets, xs);
    VisitedPrefix(targets, xs);
    ReclaimFrees(targets, xs);
    SameGranules(targets, r.targets);
    ReservedIff(res);
    FreesMore(targets, r.targets, visited);
  }

  lemma FreesMore(targets: Targets, targets': Targets, xs: seq<Granule>)
    requires GranulesIn(targets) == GranulesIn(targets')
    requires forall x :: x in xs ==> InRange(targets, x)
    requires forall x :: FreeAt(targets', x) <==> FreeAt(targets, x) || x in xs
    ensures FreeOf(targets') == FreeOf(targets) + Elems(xs)
    ensures |FreeOf(targets')| == |FreeOf(targets)| + |NotFree(targets, xs)|
  {
    forall x | x in xs ensures x in GranulesIn(targets) {
      assert InRange(targets, x);
    }
    assert FreeOf(targets') == FreeOf(targets) + NotFree(targets, xs);
    assert FreeOf(targets) !! NotFree(targets, xs);
  }
}
