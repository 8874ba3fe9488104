/** Where the leader does less than it says: exactly when an operation is safe, and inputs for which it is not. */
module Refusals {
  import opened Common
  import opened Spans
  import opened Records
  import opened Allocator
  import opened FastFinalize
  import opened Recycle
  import opened Visits
  import opened Batching
  import Planner
  import opened Reserve
  import opened Leader
  import opened Cluster
  import opened Failover
  import opened Agreement

  /**
   * A release at a holder leaves a cache from which it is safe to go on exactly when it frees no marked
   * granule, or was refused before it had freed anything.
   */
  lemma ReleaseCoversIff(node: Node, db: Durable, ms: seq<Mutation>)
    requires Covers(node, db) && DurableSound(db) && FencePasses(node, db) && ms != []
    ensures var o := MutateOp(node, db, ms, Release, {});
      Covers(o.node, o.db) <==> ReleaseSafe(node.mem.reservations, db.markers, ms)
  {
    var b := ApplyMutations(node.mem, ms, Release, {});
    SubmapSound(node.mem.targets, node.mem.reservations, db.reservations);
    assert db.markers - {} == db.markers;
    if ReleaseSafe(node.mem.reservations, db.markers, ms) {
      if b.ok {
        SafeRelease(node.mem, ms, db.markers, {});
        BatchCovers(node, db, ms, Release, {});
        NothingWritten(db, Writes(DirtyEntries(b.mem.targets, b.dirty), b.sets, b.deletes));
      } else {
        RefusedBatch(node, db, ms, Release, {});
      }
    } else {
      UnsafeRelease(node.mem, db, ms);
    }
  }

  /** A free granule that the database has marked or reserved. */
  ghost predicate Endangered(targets: Targets, db: Durable, x: Granule) {
    FreeAt(targets, x) && (x in db.markers || exists id :: HeldBy(db.reservations, id, x))
  }

  /** An unsafe release offers a marked granule, or offers a reserved one and is refused. */
  lemma UnsafeRelease(mem: Mem, db: Durable, ms: seq<Mutation>)
    requires SoundMem(mem) && Submap(mem.reservations, db.reservations) && !ReleaseSafe(mem.reservations, db.markers, ms)
    ensures var b := ApplyMutations(mem, ms, Release, {});
      if b.ok then exists x :: x in db.markers && FreeAt(b.mem.targets, x) else exists x :: Endangered(b.mem.targets, db, x)
  {
    MutateAllMeans(mem, ms, Release, {});
    if MutateAll(mem, ms, Release, {}).ok {
      UnsafeAcceptance(mem, db, ms);
    } else {
      var bad :| bad in ms && BadIndexes(mem.reservations, bad);
      var k :| 0 <= k < |ms| && ms[k] == bad;
      UnsafeRefusal(mem, db, ms, k);
    }
  }

  lemma UnsafeAcceptance(mem: Mem, db: Durable, ms: seq<Mutation>)
    requires SoundMem(mem) && !ReleaseSafe(mem.reservations, db.markers, ms) && MutateAll(mem, ms, Release, {}).ok
    ensures exists x :: x in db.markers && FreeAt(MutateAll(mem, ms, Release, {}).mem.targets, x)
  {
    MutateAllMeans(mem, ms, Release, {});
    var m :| m in ms && !(SelectedBy(mem.reservations, m) !! db.markers);
    var x :| x in SelectedBy(mem.reservations, m) && x in db.markers;
    assert SelectedIn(mem.reservations, ms, x);
  }

  lemma UnsafeRefusal(mem: Mem, db: Durable, ms: seq<Mutation>, k: nat)
    requires SoundMem(mem) && Submap(mem.reservations, db.reservations) && !ReleaseSafe(mem.reservations, db.markers, ms)
    requires k < |ms| && BadIndexes(mem.reservations, ms[k])
    ensures exists x :: Endangered(MutateAll(mem, ms, Release, {}).mem.targets, db, x)
  {
    var j := FirstBad(mem.reservations, ms, k);
    RefusedRelease(mem, ms, {}, j);
    var i :| 0 <= i < j && SelectedBy(mem.reservations, ms[i]) != {};
    var x :| x in SelectedBy(mem.reservations, ms[i]);
    assert ms[..j][i] == ms[i] && SelectedIn(mem.reservations, ms[..j], x);
    SelectedHeld(mem.reservations, ms[i], x);
    assert HeldBy(db.reservations, ms[i].id, x);
    assert Endangered(MutateAll(mem, ms, Release, {}).mem.targets, db, x);
  }

  ghost predicate CoversAfter(node: Node, db: Durable, order: seq<Granule>) {
    var o := ReclaimOp(node, db, order);
    Covers(o.node, o.db)
  }

  lemma OrderCoversIff(node: Node, db: Durable, order: seq<Granule>)
    requires Covers(node, db) && DurableSound(db) && FencePasses(node, db) && order != []
    ensures CoversAfter(node, db, order) <==> OrderSafe(db, order)
  {
    var r := ReclaimAll(node.mem.targets, order);
    if OrderSafe(db, order) {
      ReclaimCovers(node, db, order);
      NothingWritten(db, Writes(DirtyEntries(r.targets, r.dirty), [], []));
    } else {
      UnsafeReclaim(node, db, order);
      NoDeletes(db.reservations);
    }
  }

  lemma UnsafeReclaim(node: Node, db: Durable, order: seq<Granule>)
    requires Covers(node, db) && !OrderSafe(db, order)
    ensures exists x :: Endangered(ReclaimAll(node.mem.targets, order).targets, db, x)
  {
    VisitedFleet(db.targets, node.mem.targets, order);
    ReclaimFrees(node.mem.targets, order);
    var x :| x in Visited(db.targets, order) && !Unclaimed(db, x);
    assert Endangered(ReclaimAll(node.mem.targets, order).targets, db, x);
  }

  /** A reclaim is safe in every order of the targets exactly when its list is. */
  lemma ReclaimCoversIff(node: Node, db: Durable, xs: seq<Granule>)
    requires Covers(node, db) && DurableSound(db) && FencePasses(node, db) && xs != []
    ensures (forall order :: VisitOrder(xs, order) ==> CoversAfter(node, db, order)) <==> ReclaimSafe(db, xs)
  {
    forall order | VisitOrder(xs, order) ensures CoversAfter(node, db, order) <==> OrderSafe(db, order) {
      OrderMembers(xs, order);
      OrderCoversIff(node, db, order);
    }
    if ReclaimSafe(db, xs) {
      forall order | VisitOrder(xs, order) ensures OrderSafe(db, order) {
        SafeInEveryOrder(db, xs, order);
      }
    } else {
      var x :| Reaches(db.targets, xs, x) && !Unclaimed(db, x);
      var order := ReachedIsVisited(db.targets, xs, x);
      assert !OrderSafe(db, order);
    }
  }

  // ---- concrete inputs ----

  // Fleets of one full target.
  const T: Id := [1]
  const A: Id := [10]
  const B: Id := [11]
  const C: Id := [12]

  function Lone(size: nat, spans: seq<Span>): Targets {
    map[T := TargetState(TargetRecord(T, [], [], [], size, FreeCount(spans), true, Lifecycle.Active), spans)]
  }

  function Holding(id: Id, granule: nat): Record {
    Record(id, Reserved, [Placement(T, granule, 0)], 0)
  }

  const FULL: Mem := Mem(Lone(2, []), map[A := Holding(A, 0), B := Holding(B, 1)], map[])

  /** A list that starts beyond granule 1 takes granule 0 as a span of its own. */
  predicate StartsLate(spans: seq<Span>) {
    spans == [] || spans[0].start > 1
  }

  lemma ReleaseFrees(size: nat, spans: seq<Span>, res: Reservations)
    requires Canonical(spans) && StartsLate(spans) && A in res && res[A] == Holding(A, 0)
    ensures MutateAll(Mem(Lone(size, spans), res, map[]), [Mutation(A, [])], Release, {}) ==
      Batch(Mem(Lone(size, [Span(0, 1)] + spans), res - {A}, map[]), {T}, [], [A], [Record(A, Released, [], 0)], true, InvalidArgument)
  {
    var first, mem := Mutation(A, []), Mem(Lone(size, spans), res, map[]);
    assert [first][..0] == [];
    var r := Holding(A, 0);
    assert NormalizeIndexes(1, []) == Some([0]) by {
      assert UpTo(1) == [0];
    }
    assert Selected(r.placements, [0]) == r.placements;
    ReturnsFirst(size, spans);
    assert DropFromBins(map[], A) == map[];
    assert MutateAll(mem, [first], Release, {}) == MutateOne(Begin(mem), first, Release, {});
  }

  lemma ReturnsFirst(size: nat, spans: seq<Span>)
    requires Canonical(spans) && StartsLate(spans)
    ensures ReturnAll(Lone(size, spans), [Placement(T, 0, 0)], {}) == Return(Lone(size, [Span(0, 1)] + spans), {T}, true)
  {
    var targets := Lone(size, spans);
    ReturnsSingle(targets, Placement(T, 0, 0));
    ZeroIsTaken(spans);
    assert targets[T := WithSpans(targets[T], [Span(0, 1)] + spans)] == Lone(size, [Span(0, 1)] + spans);
  }

  lemma ReturnsSingle(targets: Targets, p: Placement)
    ensures ReturnAll(targets, [p], {}) == ReturnOne(Return(targets, {}, true), p, {})
  {
    assert [p][..0] == [];
  }

  lemma ZeroIsTaken(spans: seq<Span>)
    requires Canonical(spans) && StartsLate(spans)
    ensures !IsFree(spans, 0) && AddGranule(spans, 0) == [Span(0, 1)] + spans
  {
    CanonicalPairwise(spans);
  }

  /** Releasing A and then B with an index out of range is refused, but memory has freed A's granule. */
  lemma RefusedReleaseFrees()
    ensures ApplyMutations(FULL, [Mutation(A, []), Mutation(B, [5])], Release, {}) ==
      Batch(Mem(Lone(2, [Span(0, 1)]), map[B := Holding(B, 1)], map[]), {T}, [], [A], [Record(A, Released, [], 0)], false, InvalidArgument)
  {
    var ms := [Mutation(A, []), Mutation(B, [5])];
    assert A[0] != B[0];
    assert ms[..1] == [Mutation(A, [])];
    ReleaseFrees(2, [], FULL.reservations);
    assert [Span(0, 1)] + [] == [Span(0, 1)];
    assert FULL.reservations - {A} == map[B := Holding(B, 1)];
    assert NormalizeIndexes(1, [5]) == None by {
      assert [5][0] >= 1;
    }
  }

  /** The next reservation on that leader then takes A's granule, and the database holds it twice. */
  lemma RefusedReleaseDoubleAllocates(db: Durable, node: Node)
    requires db.targets == FULL.targets && db.reservations == FULL.reservations
    requires Agrees(node, db) && node.reservationsLoaded && node.mem.bins == map[] && FencePasses(node, db)
    ensures var o := MutateOp(node, db, [Mutation(A, []), Mutation(B, [5])], Release, {});
      var o' := ReserveOp(o.node, o.db, Lone(2, []), {T}, [Holding(C, 0)]);
      && ReservedFrom(o.node.mem.targets, Lone(2, []), [Holding(C, 0)])
      && o'.reply == Ok([Holding(C, 0)])
      && HeldBy(o'.db.reservations, A, (T, 0)) && HeldBy(o'.db.reservations, C, (T, 0))
  {
    RefusedReleaseFrees();
    assert node.mem == FULL;
    var o := MutateOp(node, db, [Mutation(A, []), Mutation(B, [5])], Release, {});
    assert [Span(0, 1)] + [] == [Span(0, 1)];
    ReserveAgain(o.node, o.db, 2, []);
  }

  /** A leader that takes A's granule for free reserves it for C, and the database holds it twice. */
  lemma ReserveAgain(node: Node, db: Durable, size: nat, spans: seq<Span>)
    requires node.mem.targets == Lone(size, [Span(0, 1)] + spans) && FencePasses(node, db)
    requires A in db.reservations && db.reservations[A] == Holding(A, 0)
    requires Fits(size, spans)
    ensures var o := ReserveOp(node, db, Lone(size, spans), {T}, [Holding(C, 0)]);
      && ReservedFrom(node.mem.targets, Lone(size, spans), [Holding(C, 0)])
      && o.reply == Ok([Holding(C, 0)])
      && HeldBy(o.db.reservations, A, (T, 0)) && HeldBy(o.db.reservations, C, (T, 0))
  {
    LoneReserve(size, spans);
    LoneCommit(db, Lone(size, spans));
    assert DirtyEntries(Lone(size, spans), {T}) == Lone(size, spans);
  }

  /** Free spans of a target of `size` granules whose granules 0 and 1 are not free. */
  ghost predicate Fits(size: nat, spans: seq<Span>) {
    Canonical(spans) && StartsLate(spans) && forall g :: g in FreeSet(spans) ==> 1 < g < size
  }

  lemma LoneReserve(size: nat, spans: seq<Span>)
    requires Fits(size, spans)
    ensures ReservedFrom(Lone(size, [Span(0, 1)] + spans), Lone(size, spans), [Holding(C, 0)])
  {
    var recs := [Holding(C, 0)];
    assert recs[..0] == [];
    assert Planner.AllPlacements(recs[..0]) == [];
    assert Planner.AllPlacements(recs) == [Placement(T, 0, 0)];
    assert GranulesOf([Placement(T, 0, 0)]) == {(T, 0)} by {
      assert Placement(T, 0, 0) in [Placement(T, 0, 0)];
    }
    forall g: nat ensures g in FreeSet([Span(0, 1)] + spans) <==> g == 0 || g in FreeSet(spans) {
      FirstFree(spans, g);
    }
  }

  lemma FirstFree(spans: seq<Span>, g: nat)
    ensures g in FreeSet([Span(0, 1)] + spans) <==> g == 0 || g in FreeSet(spans)
  {
    FreeSetConcat([Span(0, 1)], spans);
    FreeSetMember([Span(0, 1)], g);
    assert [Span(0, 1)][0].Has(0);
  }

  lemma LoneCommit(db: Durable, after: Targets)
    requires A in db.reservations && db.reservations[A] == Holding(A, 0)
    ensures var db' := ApplyWrites(db, Writes(after, [Holding(C, 0)], []));
      HeldBy(db'.reservations, A, (T, 0)) && HeldBy(db'.reservations, C, (T, 0))
  {
    var recs := [Holding(C, 0)];
    assert recs[..0] == [];
    assert A[0] != C[0];
    assert InsertAll(db.reservations, recs) == db.reservations[C := Holding(C, 0)];
    assert Elems<Id>([]) == {};
    assert Placement(T, 0, 0) in Holding(A, 0).placements && Placement(T, 0, 0) in Holding(C, 0).placements;
  }

  // ---- a release too large for one transaction ----

  /** Every second granule from 2 on: `n` spans of one granule. */
  function Comb(n: nat): seq<Span> {
    seq(n, (i: nat) => Span(2 * i + 2, 1))
  }

  lemma {:induction false} CombPart(n: nat, k: nat)
    requires k <= n
    ensures Canonical(Comb(n)[k..])
    ensures forall g :: g in FreeSet(Comb(n)[k..]) ==> 2 * k + 2 <= g < 2 * n + 2
    decreases n - k
  {
    var rest := Comb(n)[k..];
    if k < n {
      CombPart(n, k + 1);
      assert rest[1..] == Comb(n)[k + 1..];
      assert rest[0] == Span(2 * k + 2, 1);
    }
  }

  lemma CombFits(n: nat)
    ensures Fits(2 * n + 2, Comb(n))
  {
    CombPart(n, 0);
    assert Comb(n)[0..] == Comb(n);
  }

  // A span takes at least 20 bytes in its chunk: {"start":2,"len":1} and a comma.
  const SPAN_BYTES: nat := 20

  // The size of the key that the deletion of A clears.
  const DELETE_BYTES: nat := 11

  // So many spans are more than a transaction holds.
  const SPANS: nat := 250_000

  const SIZE: nat := 2 * SPANS + 2

  /** The units of a release of A: its fragmented target, the deletion, and the state stamp. */
  function CombLayout(bytes: nat): Layout {
    Layout([T], [bytes, DELETE_BYTES, 0])
  }

  /** A transaction that is full after the target's unit is committed before the deletion. */
  lemma StopsBetween(bytes: nat)
    requires bytes > MAX_TXN_BYTES
    ensures Boundary(CombLayout(bytes).sizes, 1)
  {
    var sizes := CombLayout(bytes).sizes;
    assert SumBytes(sizes, 0, 0) == 0 && SumBytes(sizes, 0, 1) == bytes;
    assert BatchStart(sizes, 0) == 0 && BatchStart(sizes, 1) == 0;
  }

  /**
   * Releasing a granule of a target with 250 000 free spans takes two commits, however the spans are
   * encoded. If the process dies between them, A's granule is free and reserved, and the next leader hands
   * it out again.
   */
  lemma TornReleaseDoubleAllocates(db: Durable, node: Node, next: Node, bytes: nat)
    requires db.targets == Lone(SIZE, Comb(SPANS)) && db.reservations == map[A := Holding(A, 0)]
    requires Agrees(node, db) && node.reservationsLoaded && node.mem.bins == map[] && FencePasses(next, db)
    requires bytes >= SPAN_BYTES * (SPANS + 1)
    ensures var w, l := BatchWrites(ApplyMutations(node.mem, [Mutation(A, [])], Release, {})), CombLayout(bytes);
      && LaidOut(w, l) && Boundary(l.sizes, 1)
      && var db' := ApplyWrites(db, PartAt(w, l, 1));
      var leader := RefreshFull(next, db');
      var o := ReserveOp(leader, db', Lone(SIZE, Comb(SPANS)), {T}, [Holding(C, 0)]);
      && ReservedFrom(leader.mem.targets, Lone(SIZE, Comb(SPANS)), [Holding(C, 0)])
      && o.reply == Ok([Holding(C, 0)])
      && HeldBy(o.db.reservations, A, (T, 0)) && HeldBy(o.db.reservations, C, (T, 0))
  {
    CombFits(SPANS);
    StopsBetween(bytes);
    CombWrites(node, db, SIZE, Comb(SPANS), bytes);
    var part := Writes(Lone(SIZE, [Span(0, 1)] + Comb(SPANS)), [], []);
    var db' := ApplyWrites(db, part);
    assert db'.targets == part.targets;
    NoDeletes(db.reservations);
    ReserveAgain(RefreshFull(next, db'), db', SIZE, Comb(SPANS));
  }

  lemma CombWrites(node: Node, db: Durable, size: nat, spans: seq<Span>, bytes: nat)
    requires db.targets == Lone(size, spans) && db.reservations == map[A := Holding(A, 0)] && Fits(size, spans)
    requires Agrees(node, db) && node.reservationsLoaded && node.mem.bins == map[]
    ensures var w, l := BatchWrites(ApplyMutations(node.mem, [Mutation(A, [])], Release, {})), CombLayout(bytes);
      && LaidOut(w, l) && PartAt(w, l, 1) == Writes(Lone(size, [Span(0, 1)] + spans), [], [])
  {
    ReleaseFrees(size, spans, db.reservations);
    assert node.mem == Mem(Lone(size, spans), db.reservations, map[]);
    var after := Lone(size, [Span(0, 1)] + spans);
    assert DirtyEntries(after, {T}) == after;
    var w, l := Writes(after, [], [A]), CombLayout(bytes);
    assert Elems(l.order) == {T};
    assert Take(l.order, 1) == [T];
    assert PartAt(w, l, 1).targets == after;
  }

  // ---- a refused finalize ----

  // A holds granules 0 and 1, and B holds granule 2.
  const PAIR: Mem :=
    Mem(Lone(3, []),
        map[A := Record(A, Reserved, [Placement(T, 0, 0), Placement(T, 1, 1)], 0), B := Holding(B, 2)],
        map[])

  const PARTIAL: seq<Mutation> := [Mutation(A, [0]), Mutation(B, [7])]

  /** Finalizing a part of A makes the fast path give way; the general path drops A and then refuses B. */
  lemma RefusedFinalizeDrops()
    ensures TryFinalize(PAIR, PARTIAL).NotTaken?
    ensures var b := ApplyMutations(PAIR, PARTIAL, Finalize, {});
      !b.ok && b.failure == InvalidArgument && b.mem == PAIR.(reservations := map[B := Holding(B, 2)])
  {
    var first := PARTIAL[0];
    assert A[0] != B[0];
    assert PARTIAL[..1] == [first] && [first][..0] == [];
    assert Positions(2, [0]) == [0] by {
      assert Positions(0, [0]) == [];
      assert Positions(1, [0]) == [0];
    }
    assert NormalizeIndexes(2, [0]) == Some([0]);
    assert CheckAll(PAIR, [first]) == Fallback;
    assert CheckAll(PAIR, PARTIAL) == Fallback;
    var b := MutateOne(Begin(PAIR), first, Finalize, {});
    assert PAIR.reservations - {A} == map[B := Holding(B, 2)];
    assert DropFromBins(PAIR.bins, A) == map[];
    assert MutateAll(PAIR, [first], Finalize, {}) == b;
    assert NormalizeIndexes(1, [7]) == None by {
      assert [7][0] >= 1;
    }
  }

  /** The leader then tells a client that A is released while the database still reserves A's granules. */
  lemma RefusedFinalizeForgets(db: Durable, node: Node)
    requires db.targets == PAIR.targets && db.reservations == PAIR.reservations
    requires Agrees(node, db) && node.reservationsLoaded && node.mem.bins == map[] && FencePasses(node, db)
    ensures var o := FinalizeOp(node, db, PARTIAL);
      var o' := MutateOp(o.node, o.db, [Mutation(A, [])], Release, {});
      && o.reply == Err(InvalidArgument) && !Agrees(o.node, o.db)
      && o'.reply == Ok([Record(A, Released, [], 0)]) && o'.db == db && HeldBy(o'.db.reservations, A, (T, 0))
  {
    RefusedFinalizeDrops();
    assert node.mem == PAIR;
    var o := FinalizeOp(node, db, PARTIAL);
    assert A[0] != B[0];
    var late := [Mutation(A, [])];
    AbsentBatch(o.node.mem, late, Release, {});
    assert seq(|late|, i requires 0 <= i < |late| => Synthetic(late[i].id, Release)) == [Record(A, Released, [], 0)];
    assert DirtyEntries(o.node.mem.targets, {}) == map[];
    assert Placement(T, 0, 0) in db.reservations[A].placements;
  }

  // ---- reclaims ----

  const STRAY: seq<Granule> := [(T, 0), (T, 5)]

  /** Reclaiming an in-use granule and one out of range frees the first in memory and answers with an error. */
  lemma RefusedReclaimFrees()
    ensures ReclaimAll(Lone(2, []), STRAY) == Reclaim(Lone(2, [Span(0, 1)]), {T}, 1, false, InvalidArgument)
    ensures ReclaimAll(Lone(2, [Span(0, 1)]), [(T, 0)]) == Reclaim(Lone(2, [Span(0, 1)]), {}, 0, true, InvalidArgument)
  {
    var first: seq<Granule> := [(T, 0)];
    var full, freed := Lone(2, []), Lone(2, [Span(0, 1)]);
    assert STRAY[..1] == first && first[..0] == [];
    assert FreeCount([Span(0, 1)]) == 1;
    assert !IsFree([], 0) && AddGranule([], 0) == [Span(0, 1)] && IsFree([Span(0, 1)], 0);
    assert full[T := WithSpans(full[T], [Span(0, 1)])] == freed;
    assert ReclaimAll(full, first) == ReclaimOne(Reclaim(full, {}, 0, true, InvalidArgument), (T, 0));
    assert ReclaimAll(freed, first) == ReclaimOne(Reclaim(freed, {}, 0, true, InvalidArgument), (T, 0));
  }

  /** Asking again without the stray granule then frees nothing either: the leader takes it for free already. */
  lemma RefusedReclaimSticks(db: Durable, node: Node)
    requires db.targets == Lone(2, []) && Agrees(node, db) && FencePasses(node, db)
    ensures var o := ReclaimOp(node, db, STRAY);
      var o' := ReclaimOp(o.node, o.db, [(T, 0)]);
      && o.reply == Err(InvalidArgument) && o.db == db && !Agrees(o.node, o.db)
      && o'.reply == Ok(0) && o'.db == db && !FreeAt(db.targets, (T, 0))
  {
    RefusedReclaimFrees();
    FreeSetMembers([]);
    assert DirtyEntries(Lone(2, [Span(0, 1)]), {}) == map[];
  }

  lemma FullIsSound()
    ensures Sound(FULL.targets, FULL.reservations) && HeldBy(FULL.reservations, A, (T, 0))
  {
    assert A[0] != B[0];
    FreeSetMembers([]);
    assert Placement(T, 0, 0) in Holding(A, 0).placements;
    assert forall id, x :: HeldBy(FULL.reservations, id, x) <==> (id == A && x == (T, 0)) || (id == B && x == (T, 1)) by {
      assert GranulesOf(Holding(A, 0).placements) == {(T, 0)} && GranulesOf(Holding(B, 1).placements) == {(T, 1)} by {
        assert Placement(T, 1, 0) in Holding(B, 1).placements;
      }
    }
  }

  lemma ReclaimFirst()
    ensures ReclaimAll(FULL.targets, [(T, 0)]) == Reclaim(Lone(2, [Span(0, 1)]), {T}, 1, true, InvalidArgument)
    ensures FreeAt(Lone(2, [Span(0, 1)]), (T, 0))
  {
    var first: seq<Granule> := [(T, 0)];
    assert first[..0] == [];
    ZeroIsTaken([]);
    assert [Span(0, 1)] + [] == [Span(0, 1)];
    assert FULL.targets[T := WithSpans(FULL.targets[T], [Span(0, 1)])] == Lone(2, [Span(0, 1)]);
    assert ReclaimAll(FULL.targets, first) == ReclaimOne(Reclaim(FULL.targets, {}, 0, true, InvalidArgument), (T, 0));
    FreeSetMember([Span(0, 1)], 0);
    assert [Span(0, 1)][0].Has(0);
  }

  /** Reclaiming a reserved granule makes it free and leaves it reserved. */
  lemma ReclaimTakesReserved()
    ensures Sound(FULL.targets, FULL.reservations)
    ensures var r := ReclaimAll(FULL.targets, [(T, 0)]);
      r.ok && FreeAt(r.targets, (T, 0)) && HeldBy(FULL.reservations, A, (T, 0))
  {
    FullIsSound();
    ReclaimFirst();
  }

  const U: Id := [2]
  const UNKNOWN_FIRST: seq<Granule> := [(U, 0), (T, 0)]
  const UNKNOWN_LAST: seq<Granule> := [(T, 0), (U, 0)]

  /** Which granules of one list a refused reclaim has freed depends on the order of the hash map. */
  lemma OrderDecides()
    ensures VisitOrder(UNKNOWN_FIRST, UNKNOWN_FIRST) && VisitOrder(UNKNOWN_FIRST, UNKNOWN_LAST)
    ensures var r, s := ReclaimAll(FULL.targets, UNKNOWN_FIRST), ReclaimAll(FULL.targets, UNKNOWN_LAST);
      && !r.ok && r.targets == FULL.targets
      && !s.ok && FreeAt(s.targets, (T, 0)) && HeldBy(FULL.reservations, A, (T, 0))
  {
    FullIsSound();
    ReclaimFirst();
    UnknownBlocks();
    var first, last: seq<Granule> := [(U, 0)], [(T, 0)];
    assert T[0] != U[0];
    assert first[..0] == [] && UNKNOWN_FIRST[..1] == first && UNKNOWN_LAST[..1] == last;
    assert ReclaimAll(FULL.targets, first) == ReclaimOne(Reclaim(FULL.targets, {}, 0, true, InvalidArgument), (U, 0));
  }

  lemma TwoBlocks(xs: seq<Granule>, t: Id, u: Id)
    requires |xs| == 2 && t != u && {xs[0].0, xs[1].0} == {t, u}
    ensures VisitOrder(xs, Block(xs, t) + Block(xs, u))
  {
    BlocksOne(xs, t);
    BlocksOne(xs, u);
    BlocksConcat(xs, [t], [u]);
    ListsTwo(xs, t, u);
  }

  lemma ListsTwo(xs: seq<Granule>, t: Id, u: Id)
    requires |xs| == 2 && t != u && {xs[0].0, xs[1].0} == {t, u}
    ensures Lists([t] + [u], TargetsIn(xs))
  {
    assert xs[0] in xs && xs[1] in xs;
    assert TargetsIn(xs) == {xs[0].0, xs[1].0};
    ElemsSnoc([t], u);
  }

  lemma UnknownBlocks()
    ensures VisitOrder(UNKNOWN_FIRST, UNKNOWN_FIRST) && VisitOrder(UNKNOWN_FIRST, UNKNOWN_LAST)
  {
    var xs := UNKNOWN_FIRST;
    var u: seq<Granule> := [(U, 0)];
    assert T[0] != U[0];
    assert xs[..1] == u && u[..0] == [];
    assert Block(u, U) == u && Block(u, T) == [];
    assert Block(xs, U) == [(U, 0)] && Block(xs, T) == [(T, 0)];
    TwoBlocks(xs, U, T);
    TwoBlocks(xs, T, U);
  }

  // ---- the fence ----

  const N: Id := [21]
  const M: Id := [22]

  /** At the top of the epoch counter a takeover leaves the process it replaced behind the same fence. */
  lemma TopEpochSharesFence(before: Node, after: Node, db: Durable)
    requires db.lease == Some(Lease(N, 0, U64_MAX)) && before.term == Some(Term(U64_MAX, 0)) && after.term.None?
    ensures var e := Renew(M, after, db, Clock(1, 1, 1), Answered);
      e.reply == Ok(true) && FencePasses(e.node, e.db) && FencePasses(before, e.db)
  {
    assert N[0] != M[0];
  }

  /**
   * The renewer does not wait for the operation that is running. A process that planned under epoch 1, was
   * replaced by M under epoch 2, and is granted epoch 3 before it persists, passes the fence with the plan
   * it made from its old memory.
   */
  lemma RenewalInsideOperation(node: Node, db: Durable)
    requires node.term == Some(Term(1, 0)) && node.mem.targets == Lone(2, [Span(0, 1)])
    requires db.lease == Some(Lease(M, 0, 2)) && db.targets == Lone(2, []) && db.reservations == map[A := Holding(A, 0)]
    ensures var lost := Renew(N, node, db, Clock(1, 1, 1), Answered);
      var won := Renew(N, lost.node, lost.db, Clock(2, 2, 2), Answered);
      var o := ReserveOp(won.node, won.db, Lone(2, []), {T}, [Holding(C, 0)]);
      && !FencePasses(node, db) && ReservedFrom(node.mem.targets, Lone(2, []), [Holding(C, 0)])
      && !won.node.targetsLoaded && o.committed
      && HeldBy(o.db.reservations, A, (T, 0)) && HeldBy(o.db.reservations, C, (T, 0))
  {
    assert N[0] != M[0];
    var lost := Renew(N, node, db, Clock(1, 1, 1), Answered);
    var won := Renew(N, lost.node, lost.db, Clock(2, 2, 2), Answered);
    assert lost.db.lease == Some(Lease(N, 1 + LEASE_TTL, 3)) && lost.node == StepDown(node);
    assert won.node.term.Some? && won.node.term.value.epoch == 3;
    assert [Span(0, 1)] + [] == [Span(0, 1)];
    ReserveAgain(won.node, won.db, 2, []);
  }
}
