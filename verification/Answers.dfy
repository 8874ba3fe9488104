/** What a finalize or a release answers for each reservation, and which record it leaves behind. */
module Answers {
  import opened Common
  import opened Records
  import opened Allocator

  /** `qs` are the elements of `ps` at the positions `at`, in their old order. */
  ghost predicate Picks<T>(ps: seq<T>, qs: seq<T>, at: seq<nat>) {
    && Increasing(at) && |at| == |qs|
    && forall k :: 0 <= k < |at| ==> at[k] < |ps| && qs[k] == ps[at[k]]
  }

  lemma SomePosition<T>(ps: seq<T>, qs: seq<T>, at: seq<nat>)
    requires Picks(ps, qs, at) && qs != []
    ensures at != [] && at[0] in at
  {
  }

  /** A caller asks for some positions of a record, or for all by naming none. */
  predicate Asked(raw: seq<nat>, i: nat) {
    raw == [] || i in raw
  }

  ghost predicate PicksAsked(ps: seq<Placement>, qs: seq<Placement>, raw: seq<nat>) {
    exists at :: Picks(ps, qs, at) && forall i: nat :: i in at <==> i < |ps| && Asked(raw, i)
  }

  ghost predicate PicksOthers(ps: seq<Placement>, qs: seq<Placement>, raw: seq<nat>) {
    exists at :: Picks(ps, qs, at) && forall i: nat :: i in at <==> i < |ps| && !Asked(raw, i)
  }

  // ---- selections ----

  lemma SelectedPicks(ps: seq<Placement>, raw: seq<nat>)
    requires NormalizeIndexes(|ps|, raw).Some?
    ensures var indexes := NormalizeIndexes(|ps|, raw).value;
      (forall i :: i in indexes ==> i < |ps|) && PicksAsked(ps, Selected(ps, indexes), raw)
  {
    NormalizeMeaning(|ps|, raw);
    var at := NormalizeIndexes(|ps|, raw).value;
    assert forall k :: 0 <= k < |at| ==> at[k] in at;
    assert Picks(ps, Selected(ps, at), at);
  }

  lemma {:induction false} UnselectedPicks(ps: seq<Placement>, indexes: seq<nat>) returns (at: seq<nat>)
    ensures Picks(ps, Unselected(ps, indexes), at)
    ensures forall i: nat :: i in at <==> i < |ps| && i !in indexes
  {
    if ps == [] {
      at := [];
    } else {
      var n := |ps| - 1;
      var front := UnselectedPicks(ps[..n], indexes);
      if n in indexes {
        at := front;
      } else {
        IncreasingSnoc(front, n);
        at := front + [n];
      }
    }
  }

  lemma OthersPicked(ps: seq<Placement>, raw: seq<nat>)
    requires NormalizeIndexes(|ps|, raw).Some?
    ensures var indexes := NormalizeIndexes(|ps|, raw).value;
      && PicksOthers(ps, Unselected(ps, indexes), raw)
      && (Unselected(ps, indexes) == [] <==> |indexes| == |ps|)
  {
    NormalizeMeaning(|ps|, raw);
    var indexes := NormalizeIndexes(|ps|, raw).value;
    var at := UnselectedPicks(ps, indexes);
    if at == [] {
      IncreasingCovers(indexes, |ps|);
    } else {
      assert at[0] in at;
      UpToMember(|ps|);
      if |indexes| == |ps| {
        IncreasingFull(indexes, |ps|);
      }
    }
  }

  lemma {:induction false} IncreasingCovers(s: seq<nat>, n: nat)
    requires Increasing(s) && forall i: nat :: i < n ==> i in s
    ensures |s| >= n
  {
    if n > 0 {
      assert n - 1 in s;
      var p :| 0 <= p < |s| && s[p] == n - 1;
      forall i: nat | i < n - 1 ensures i in s[..p] {
        assert i in s;
        var q :| 0 <= q < |s| && s[q] == i;
        assert q < p;
        assert s[..p][q] == i;
      }
      IncreasingCovers(s[..p], n - 1);
    }
  }

  lemma NoneLeft(ps: seq<Placement>, raw: seq<nat>)
    requires NormalizeIndexes(|ps|, raw).Some? && |NormalizeIndexes(|ps|, raw).value| == |ps|
    ensures PicksOthers(ps, [], raw)
  {
    OthersPicked(ps, raw);
  }

  // ---- one reservation ----

  /**
   * The answer `a` for a mutation `m` of a live reservation `r`, and what `after` holds of it. A finalize
   * answers with the placements asked for and a release with the others; id and expiry stay.
   */
  ghost predicate Settled(kind: MutationKind, r: Record, m: Mutation, a: Record, after: Reservations) {
    && a.id == m.id && a.expiresAt == r.expiresAt
    && (kind == Finalize ==>
         a.state == Finalized && PicksAsked(r.placements, a.placements, m.indexes) && m.id !in after)
    && (kind == Release ==>
         && PicksOthers(r.placements, a.placements, m.indexes)
         && (if a.placements == [] then a.state == Released && m.id !in after
             else a.state == Reserved && m.id in after && after[m.id] == a))
  }

  /** The answer for any mutation: a reservation that is gone gets a made-up one, a dead one its record. */
  ghost predicate Told(kind: MutationKind, before: Reservations, m: Mutation, a: Record, after: Reservations) {
    if m.id !in before then
      a == Record(m.id, if kind == Finalize then Finalized else Released, [], 0) && m.id !in after
    else if before[m.id].state != Reserved then
      a == before[m.id] && m.id in after && after[m.id] == before[m.id]
    else
      Settled(kind, before[m.id], m, a, after)
  }

  /** What was live and is settled is among the writes. */
  ghost predicate Recorded(before: Reservations, m: Mutation, a: Record, b: Batch) {
    m.id in before && before[m.id].state == Reserved ==>
      if m.id in b.mem.reservations then a in b.sets else m.id in b.deletes
  }

  ghost predicate KeyedRecords(reservations: Reservations) {
    forall id :: id in reservations ==> reservations[id].id == id
  }

  lemma FinalizeAnswers(b: Batch, m: Mutation, committed: set<Granule>)
    requires b.ok && KeyedRecords(b.mem.reservations) && MutateOne(b, m, Finalize, committed).ok
    ensures var b' := MutateOne(b, m, Finalize, committed);
      && |b'.results| == |b.results| + 1 && b.results <= b'.results
      && Told(Finalize, b.mem.reservations, m, b'.results[|b.results|], b'.mem.reservations)
      && Recorded(b.mem.reservations, m, b'.results[|b.results|], b')
  {
    if m.id in b.mem.reservations && b.mem.reservations[m.id].state == Reserved {
      SelectedPicks(b.mem.reservations[m.id].placements, m.indexes);
    }
  }

  lemma ReleaseAnswers(b: Batch, m: Mutation, committed: set<Granule>)
    requires b.ok && KeyedRecords(b.mem.reservations) && MutateOne(b, m, Release, committed).ok
    ensures var b' := MutateOne(b, m, Release, committed);
      && |b'.results| == |b.results| + 1 && b.results <= b'.results
      && Told(Release, b.mem.reservations, m, b'.results[|b.results|], b'.mem.reservations)
      && Recorded(b.mem.reservations, m, b'.results[|b.results|], b')
  {
    if m.id in b.mem.reservations && b.mem.reservations[m.id].state == Reserved {
      var ps := b.mem.reservations[m.id].placements;
      OthersPicked(ps, m.indexes);
      if |NormalizeIndexes(|ps|, m.indexes).value| == |ps| {
        NoneLeft(ps, m.indexes);
      }
    }
  }

  lemma OneAnswers(b: Batch, m: Mutation, kind: MutationKind, committed: set<Granule>)
    requires b.ok && KeyedRecords(b.mem.reservations) && MutateOne(b, m, kind, committed).ok
    ensures var b' := MutateOne(b, m, kind, committed);
      && |b'.results| == |b.results| + 1 && b.results <= b'.results && RecordsChange(b, b', m.id)
      && Told(kind, b.mem.reservations, m, b'.results[|b.results|], b'.mem.reservations)
      && Recorded(b.mem.reservations, m, b'.results[|b.results|], b')
  {
    MutateOneWrites(b, m, kind, committed);
    if kind == Finalize {
      FinalizeAnswers(b, m, committed);
    } else {
      ReleaseAnswers(b, m, committed);
    }
  }

  // ---- a batch ----

  ghost predicate AllTold(mem: Mem, ms: seq<Mutation>, kind: MutationKind, b: Batch) {
    && |b.results| == |ms|
    && forall i :: 0 <= i < |ms| ==>
      && Told(kind, mem.reservations, ms[i], b.results[i], b.mem.reservations)
      && Recorded(mem.reservations, ms[i], b.results[i], b)
  }

  /** A batch answers every mutation in turn, and each as if it were alone. */
  lemma {:induction false} MutateAllAnswers(mem: Mem, ms: seq<Mutation>, kind: MutationKind, committed: set<Granule>)
    requires KeyedRecords(mem.reservations) && DistinctIds(ms) && MutateAll(mem, ms, kind, committed).ok
    ensures AllTold(mem, ms, kind, MutateAll(mem, ms, kind, committed))
    ensures forall id :: id !in MutatedIds(ms) ==> SameAt(mem.reservations, MutateAll(mem, ms, kind, committed).mem.reservations, id)
  {
    if ms != [] {
      var front, m := ms[..|ms| - 1], ms[|ms| - 1];
      var b := MutateAll(mem, front, kind, committed);
      DistinctIdsPrefix(ms);
      MutateAllAnswers(mem, front, kind, committed);
      MutateAllNames(mem, front, kind, committed);
      OneAnswers(b, m, kind, committed);
      assert ms == front + [m];
      AnsweredNext(mem, front, m, kind, b, MutateAll(mem, ms, kind, committed));
    }
  }

  ghost predicate SameAt(a: Reservations, b: Reservations, id: Id) {
    (id in a <==> id in b) && (id in a ==> a[id] == b[id])
  }

  lemma AnsweredNext(mem: Mem, front: seq<Mutation>, m: Mutation, kind: MutationKind, b: Batch, b': Batch)
    requires DistinctIds(front + [m]) && AllTold(mem, front, kind, b) && RecordsChange(b, b', m.id)
    requires forall id :: id !in MutatedIds(front) ==> SameAt(mem.reservations, b.mem.reservations, id)
    requires |b'.results| == |b.results| + 1 && b.results <= b'.results
    requires Told(kind, b.mem.reservations, m, b'.results[|b.results|], b'.mem.reservations)
    requires Recorded(b.mem.reservations, m, b'.results[|b.results|], b')
    ensures AllTold(mem, front + [m], kind, b')
    ensures forall id :: id !in MutatedIds(front + [m]) ==> SameAt(mem.reservations, b'.mem.reservations, id)
  {
    var ms := front + [m];
    assert ms[|front|] == m && forall i :: 0 <= i < |front| ==> ms[i] == front[i] && ms[i].id != m.id;
    assert m.id !in MutatedIds(front);
    forall id | id != m.id ensures SameAt(b.mem.reservations, b'.mem.reservations, id) {
    }
    forall i | 0 <= i < |front|
      ensures Told(kind, mem.reservations, ms[i], b'.results[i], b'.mem.reservations)
      ensures Recorded(mem.reservations, ms[i], b'.results[i], b')
    {
      assert b'.results[i] == b.results[i];
      AnswerStands(kind, mem.reservations, ms[i], b.results[i], b.mem.reservations, b'.mem.reservations);
    }
    forall id | id !in MutatedIds(ms) ensures id !in MutatedIds(front) && id != m.id {
      assert m in ms && forall x :: x in front ==> x in ms;
    }
  }

  lemma AnswerStands(kind: MutationKind, before: Reservations, m: Mutation, a: Record, after: Reservations, after': Reservations)
    requires Told(kind, before, m, a, after) && SameAt(after, after', m.id)
    ensures Told(kind, before, m, a, after')
  {
  }

  /** In sound memory a batch is refused for a bad index only, and says so. */
  lemma {:induction false} RefusalIsInvalid(mem: Mem, ms: seq<Mutation>, kind: MutationKind, committed: set<Granule>)
    requires SoundMem(mem)
    ensures MutateAll(mem, ms, kind, committed).failure == InvalidArgument
    ensures SoundMem(MutateAll(mem, ms, kind, committed).mem)
  {
    if ms != [] {
      var front, m := ms[..|ms| - 1], ms[|ms| - 1];
      var b := MutateAll(mem, front, kind, committed);
      RefusalIsInvalid(mem, front, kind, committed);
      if b.ok {
        MutateOneSound(b, m, kind, committed);
        FailureKept(b, m, kind, committed);
      }
    }
  }

  lemma FailureKept(b: Batch, m: Mutation, kind: MutationKind, committed: set<Granule>)
    requires b.ok && SoundMem(b.mem)
    ensures MutateOne(b, m, kind, committed).failure == b.failure
  {
    if m.id in b.mem.reservations && !BadIndexes(b.mem.reservations, m) {
      var r := b.mem.reservations[m.id];
      NormalizeMeaning(|r.placements|, m.indexes);
      SelectedInRange(b.mem, r, NormalizeIndexes(|r.placements|, m.indexes).value);
      ReturnAllFrees(b.mem.targets, Selected(r.placements, NormalizeIndexes(|r.placements|, m.indexes).value), committed);
    }
  }
}
