/** The allocator's in-memory state and what each reservation mutation does to it. */
module Allocator {
  import opened Common
  import opened Spans
  import opened Records

  type Targets = map<Id, TargetState>
  type Reservations = map<Id, Record>
  type Bins = map<Id, seq<Id>>

  datatype Mem = Mem(targets: Targets, reservations: Reservations, bins: Bins)

  // ---- who owns a granule ----

  ghost predicate ValidTargets(targets: Targets) {
    forall t :: t in targets ==> targets[t].target.id == t && ValidTarget(targets[t])
  }

  ghost predicate InRange(targets: Targets, x: Granule) {
    x.0 in targets && x.1 < targets[x.0].target.granuleCount
  }

  ghost predicate FreeAt(targets: Targets, x: Granule) {
    x.0 in targets && x.1 in FreeSet(targets[x.0].spans)
  }

  ghost predicate HeldBy(reservations: Reservations, id: Id, x: Granule) {
    id in reservations && x in GranulesOf(reservations[id].placements)
  }

  ghost predicate LiveRecord(id: Id, r: Record) {
    r.id == id && r.state == Reserved && DistinctGranules(r.placements)
  }

  /** No granule is in two reservations, or both free and reserved. */
  ghost predicate Sound(targets: Targets, reservations: Reservations) {
    && ValidTargets(targets)
    && (forall id :: id in reservations ==> LiveRecord(id, reservations[id]))
    && (forall id, x :: HeldBy(reservations, id, x) ==> InRange(targets, x) && !FreeAt(targets, x))
    && (forall a, b, x :: HeldBy(reservations, a, x) && HeldBy(reservations, b, x) ==> a == b)
  }

  ghost function GranulesIn(targets: Targets): set<Granule> {
    set t, g | t in targets && 0 <= g < targets[t].target.granuleCount :: (t, g)
  }

  ghost function FreeOf(targets: Targets): set<Granule> {
    set x | x in GranulesIn(targets) && FreeAt(targets, x)
  }

  ghost function ReservedOf(reservations: Reservations): set<Granule> {
    set id, p | id in reservations && p in reservations[id].placements :: GranuleAt(p)
  }

  /** Granules that hold, or held, object data: neither free nor under a live reservation. */
  ghost function InUseOf(targets: Targets, reservations: Reservations): set<Granule> {
    GranulesIn(targets) - FreeOf(targets) - ReservedOf(reservations)
  }

  lemma ReservedMember(reservations: Reservations, x: Granule)
    ensures x in ReservedOf(reservations) <==> exists id :: HeldBy(reservations, id, x)
  {
    if x in ReservedOf(reservations) {
      var id, p :| id in reservations && p in reservations[id].placements && GranuleAt(p) == x;
      assert HeldBy(reservations, id, x);
    }
    if id :| HeldBy(reservations, id, x) {
      var p :| p in reservations[id].placements && GranuleAt(p) == x;
    }
  }

  /** The granules split into free, reserved and in-use, and each target's free count is right. */
  lemma Ledger(targets: Targets, reservations: Reservations)
    requires Sound(targets, reservations)
    ensures FreeOf(targets) !! ReservedOf(reservations)
    ensures FreeOf(targets) + ReservedOf(reservations) + InUseOf(targets, reservations) == GranulesIn(targets)
    ensures forall x :: FreeAt(targets, x) <==> x in FreeOf(targets)
    ensures forall t :: t in targets ==> targets[t].target.freeGranules == |FreeSet(targets[t].spans)|
  {
    forall x | x in ReservedOf(reservations) ensures x in GranulesIn(targets) && !FreeAt(targets, x) {
      ReservedMember(reservations, x);
      var id :| HeldBy(reservations, id, x);
    }
    forall t | t in targets ensures targets[t].target.freeGranules == |FreeSet(targets[t].spans)| {
      CountIsSize(targets[t].spans);
    }
    forall x: Granule | FreeAt(targets, x) ensures x in GranulesIn(targets) {
      assert x.1 < targets[x.0].target.granuleCount;
    }
  }

  // ---- returning granules ----

  /** The outcome of returning placements one after the other; `ok` is false at an unknown target. */
  datatype Return = Return(targets: Targets, dirty: set<Id>, ok: bool)

  function ReturnOne(r: Return, p: Placement, committed: set<Granule>): Return {
    if !r.ok || GranuleAt(p) in committed then r
    else if p.target !in r.targets then r.(ok := false)
    else if IsFree(r.targets[p.target].spans, p.granule) then r
    else
      var t := r.targets[p.target];
      Return(r.targets[p.target := WithSpans(t, AddGranule(t.spans, p.granule))], r.dirty + {p.target}, true)
  }

  /** Granules in `committed` hold data of a committed object and stay out of the free spans. */
  function ReturnAll(targets: Targets, ps: seq<Placement>, committed: set<Granule>): Return {
    if ps == [] then Return(targets, {}, true)
    else ReturnOne(ReturnAll(targets, ps[..|ps| - 1], committed), ps[|ps| - 1], committed)
  }

  /** The same targets, with possibly other free spans. */
  ghost predicate SameFleet(a: Targets, b: Targets) {
    && a.Keys == b.Keys
    && forall t :: t in a ==> a[t].target == b[t].target.(freeGranules := a[t].target.freeGranules)
  }

  lemma ReturnOneFrees(r: Return, p: Placement, committed: set<Granule>)
    requires ValidTargets(r.targets) && r.ok && InRange(r.targets, GranuleAt(p))
    ensures var r' := ReturnOne(r, p, committed);
      && r'.ok && ValidTargets(r'.targets) && SameFleet(r.targets, r'.targets)
      && (forall x :: FreeAt(r'.targets, x) <==>
            FreeAt(r.targets, x) || (x == GranuleAt(p) && x !in committed))
      && r.dirty <= r'.dirty
      && (forall t :: t in r.targets && t !in r'.dirty ==> r'.targets[t] == r.targets[t])
  {
    var t := r.targets[p.target];
    FreeSetMember(t.spans, p.granule);
    if GranuleAt(p) !in committed && !IsFree(t.spans, p.granule) {
      ReleasedAdds(t.spans, p.granule);
    }
  }

  /** Returning placements frees exactly those not committed, and marks every changed target dirty. */
  lemma {:induction false} ReturnAllFrees(targets: Targets, ps: seq<Placement>, committed: set<Granule>)
    requires ValidTargets(targets) && forall p :: p in ps ==> InRange(targets, GranuleAt(p))
    ensures var r := ReturnAll(targets, ps, committed);
      && r.ok && ValidTargets(r.targets) && SameFleet(targets, r.targets)
      && (forall x :: FreeAt(r.targets, x) <==> FreeAt(targets, x) || (x in GranulesOf(ps) && x !in committed))
      && (forall t :: t in targets && t !in r.dirty ==> r.targets[t] == targets[t])
  {
    if ps != [] {
      var front, last := ps[..|ps| - 1], ps[|ps| - 1];
      assert forall p :: p in ps <==> p in front || p == last;
      ReturnAllFrees(targets, front, committed);
      ReturnOneFrees(ReturnAll(targets, front, committed), last, committed);
      assert GranulesOf(ps) == GranulesOf(front) + {GranuleAt(last)};
    }
  }

  // ---- finalize and release ----

  datatype Mutation = Mutation(id: Id, indexes: seq<nat>)

  datatype MutationKind = Finalize | Release

  /** The positions below `total` that occur in `raw`, in order. */
  function Positions(total: nat, raw: seq<nat>): seq<nat> {
    if total == 0 then []
    else Positions(total - 1, raw) + if total - 1 in raw then [total - 1] else []
  }

  function UpTo(n: nat): seq<nat> {
    seq(n, i => i)
  }

  /** The index subset a caller means: none given means all; out of range is an error. */
  function NormalizeIndexes(total: nat, raw: seq<nat>): Option<seq<nat>> {
    if total == 0 then Some([])
    else if raw == [] then Some(UpTo(total))
    else if exists i :: 0 <= i < |raw| && raw[i] >= total then None
    else Some(Positions(total, raw))
  }

  ghost predicate Increasing(s: seq<nat>) {
    forall i, j :: 0 <= i < j < |s| ==> s[i] < s[j]
  }

  lemma IncreasingSnoc(s: seq<nat>, x: nat)
    requires Increasing(s) && forall i :: i in s ==> i < x
    ensures Increasing(s + [x]) && forall i :: i in s + [x] <==> i in s || i == x
  {
    assert forall i :: 0 <= i < |s| ==> s[i] in s;
  }

  lemma {:induction false} PositionsMeaning(total: nat, raw: seq<nat>)
    ensures Increasing(Positions(total, raw))
    ensures forall i :: i in Positions(total, raw) <==> i in raw && i < total
    ensures |Positions(total, raw)| <= total
  {
    if total > 0 {
      PositionsMeaning(total - 1, raw);
      IncreasingSnoc(Positions(total - 1, raw), total - 1);
    }
  }

  /** Normalised indexes are sorted, unique and in range, and name the set the caller asked for. */
  lemma NormalizeMeaning(total: nat, raw: seq<nat>)
    ensures NormalizeIndexes(total, raw).None? <==> total > 0 && exists i :: i in raw && i >= total
    ensures NormalizeIndexes(total, raw).Some? ==>
      var s := NormalizeIndexes(total, raw).value;
      && Increasing(s) && |s| <= total
      && forall i: nat :: i in s <==> i < total && (raw == [] || i in raw)
  {
    PositionsMeaning(total, raw);
    UpToMember(total);
    if k :| 0 <= k < |raw| && raw[k] >= total {
      assert raw[k] in raw;
    }
  }

  lemma UpToMember(n: nat)
    ensures forall i: nat :: i in UpTo(n) <==> i < n
  {
    forall i: nat | i < n ensures i in UpTo(n) { assert UpTo(n)[i] == i; }
  }

  /** An index set as large as the record is the whole record. */
  lemma FullSelection(total: nat, raw: seq<nat>)
    requires NormalizeIndexes(total, raw).Some? && |NormalizeIndexes(total, raw).value| == total
    ensures NormalizeIndexes(total, raw).value == UpTo(total)
  {
    var s := NormalizeIndexes(total, raw).value;
    NormalizeMeaning(total, raw);
    IncreasingFull(s, total);
  }

  lemma {:induction false} IncreasingFull(s: seq<nat>, n: nat)
    requires Increasing(s) && |s| == n && forall x :: x in s ==> x < n
    ensures s == UpTo(n)
  {
    if n > 0 {
      var front, last := s[..n - 1], s[n - 1];
      forall x | x in front ensures x < n - 1 {
        var i :| 0 <= i < n - 1 && front[i] == x;
        assert s[i] < s[n - 1] && s[n - 1] in s;
      }
      IncreasingFull(front, n - 1);
      assert n > 1 ==> s[n - 2] == n - 2;
      assert last in s;
      assert s == front + [last] && UpTo(n) == UpTo(n - 1) + [n - 1];
    }
  }

  function Selected(ps: seq<Placement>, indexes: seq<nat>): seq<Placement>
    requires forall i :: i in indexes ==> i < |ps|
  {
    seq(|indexes|, i requires 0 <= i < |indexes| => assert indexes[i] in indexes; ps[indexes[i]])
  }

  function Unselected(ps: seq<Placement>, indexes: seq<nat>): seq<Placement> {
    if ps == [] then []
    else Unselected(ps[..|ps| - 1], indexes) + if |ps| - 1 in indexes then [] else [ps[|ps| - 1]]
  }

  lemma {:induction false} UnselectedMember(ps: seq<Placement>, indexes: seq<nat>, p: Placement)
    ensures p in Unselected(ps, indexes) <==> exists i :: 0 <= i < |ps| && ps[i] == p && i !in indexes
  {
    if ps != [] {
      var n := |ps| - 1;
      var front := ps[..n];
      UnselectedMember(front, indexes, p);
      assert forall i :: 0 <= i < n ==> front[i] == ps[i];
      assert Unselected(ps, indexes) == Unselected(front, indexes) + if n in indexes then [] else [ps[n]];
    }
  }

  /** Selecting indexes splits a record's granules in two; nothing is in both parts or in neither. */
  lemma SelectionSplits(ps: seq<Placement>, indexes: seq<nat>)
    requires DistinctGranules(ps) && forall i :: i in indexes ==> i < |ps|
    ensures GranulesOf(Selected(ps, indexes)) !! GranulesOf(Unselected(ps, indexes))
    ensures GranulesOf(Selected(ps, indexes)) + GranulesOf(Unselected(ps, indexes)) == GranulesOf(ps)
  {
    var sel, uns := Selected(ps, indexes), Unselected(ps, indexes);
    forall p ensures p in sel <==> exists i :: 0 <= i < |ps| && ps[i] == p && i in indexes {
      if p in sel {
        var k :| 0 <= k < |sel| && sel[k] == p;
        assert indexes[k] in indexes && ps[indexes[k]] == p;
      }
      if i :| 0 <= i < |ps| && ps[i] == p && i in indexes {
        var k :| 0 <= k < |indexes| && indexes[k] == i;
        assert sel[k] == p;
      }
    }
    forall p ensures p in uns <==> exists i :: 0 <= i < |ps| && ps[i] == p && i !in indexes {
      UnselectedMember(ps, indexes, p);
    }
    forall p, q | p in sel && q in uns ensures GranuleAt(p) != GranuleAt(q) {
      var i :| 0 <= i < |ps| && ps[i] == p && i in indexes;
      var j :| 0 <= j < |ps| && ps[j] == q && j !in indexes;
    }
    forall x | x in GranulesOf(ps) ensures x in GranulesOf(sel) + GranulesOf(uns) {
      var p :| p in ps && GranuleAt(p) == x;
      var i :| 0 <= i < |ps| && ps[i] == p;
      assert p in (if i in indexes then sel else uns);
    }
  }

  lemma {:induction false} UnselectedDistinct(ps: seq<Placement>, indexes: seq<nat>)
    requires DistinctGranules(ps)
    ensures DistinctGranules(Unselected(ps, indexes))
    ensures forall p :: p in Unselected(ps, indexes) ==> p in ps
  {
    if ps != [] {
      var n := |ps| - 1;
      UnselectedDistinct(ps[..n], indexes);
      assert forall p :: p in ps[..n] ==> p in ps && GranuleAt(p) != GranuleAt(ps[n]);
    }
  }

  // ---- a batch of mutations ----

  /** A batch in progress: the state, what must be persisted, the replies so far, and whether and how it failed. */
  datatype Batch = Batch(
    mem: Mem, dirty: set<Id>, sets: seq<Record>, deletes: seq<Id>, results: seq<Record>, ok: bool, failure: Error)

  function Begin(mem: Mem): Batch {
    Batch(mem, {}, [], [], [], true, InvalidArgument)
  }

  function DropFromBins(bins: Bins, id: Id): Bins {
    map k | k in bins && Without(bins[k], id) != [] :: Without(bins[k], id)
  }

  function Without(queue: seq<Id>, id: Id): seq<Id> {
    if queue == [] then []
    else Without(queue[..|queue| - 1], id) + if queue[|queue| - 1] == id then [] else [queue[|queue| - 1]]
  }

  /** The reply for a reservation that no longer exists. */
  function Synthetic(id: Id, kind: MutationKind): Record {
    Record(id, if kind == Finalize then Finalized else Released, [], 0)
  }

  /** Finalizing drops the reservation; the granules it held stay out of the free spans. */
  function FinalizeOne(b: Batch, r: Record, keep: seq<nat>): Batch
    requires forall i :: i in keep ==> i < |r.placements|
  {
    var done := r.(placements := Selected(r.placements, keep), state := Finalized);
    b.(mem := b.mem.(reservations := b.mem.reservations - {r.id}, bins := DropFromBins(b.mem.bins, r.id)),
       deletes := b.deletes + [r.id],
       results := b.results + [done])
  }

  /** Releasing returns the selected granules; the reservation goes once nothing is left of it. */
  function ReleaseOne(b: Batch, r: Record, release: seq<nat>, committed: set<Granule>): Batch
    requires forall i :: i in release ==> i < |r.placements|
  {
    var back := ReturnAll(b.mem.targets, Selected(r.placements, release), committed);
    if !back.ok then
      b.(mem := b.mem.(targets := back.targets), dirty := b.dirty + back.dirty, ok := false, failure := NotFound)
    else
      var bins := DropFromBins(b.mem.bins, r.id);
      if |release| == |r.placements| then
        b.(mem := Mem(back.targets, b.mem.reservations - {r.id}, bins),
           dirty := b.dirty + back.dirty,
           deletes := b.deletes + [r.id],
           results := b.results + [r.(placements := [], state := Released)])
      else
        var rest := r.(placements := Unselected(r.placements, release));
        b.(mem := Mem(back.targets, b.mem.reservations[r.id := rest], bins),
           dirty := b.dirty + back.dirty,
           sets := b.sets + [rest],
           results := b.results + [rest])
  }

  function MutateOne(b: Batch, m: Mutation, kind: MutationKind, committed: set<Granule>): Batch {
    if !b.ok then b
    else if m.id !in b.mem.reservations then b.(results := b.results + [Synthetic(m.id, kind)])
    else
      var r := b.mem.reservations[m.id];
      if r.state != Reserved then b.(results := b.results + [r])
      else
        var indexes := NormalizeIndexes(|r.placements|, m.indexes);
        if indexes.None? then b.(ok := false)
        else
          NormalizeMeaning(|r.placements|, m.indexes);
          if kind == Finalize then FinalizeOne(b, r, indexes.value)
          else ReleaseOne(b, r, indexes.value, committed)
  }

  function MutateAll(mem: Mem, ms: seq<Mutation>, kind: MutationKind, committed: set<Granule>): Batch {
    if ms == [] then Begin(mem)
    else MutateOne(MutateAll(mem, ms[..|ms| - 1], kind, committed), ms[|ms| - 1], kind, committed)
  }

  predicate DistinctIds(ms: seq<Mutation>) {
    forall i, j :: 0 <= i < j < |ms| ==> ms[i].id != ms[j].id
  }

  /** A batch that names a reservation twice is refused before anything happens. */
  function ApplyMutations(mem: Mem, ms: seq<Mutation>, kind: MutationKind, committed: set<Granule>): Batch {
    if DistinctIds(ms) then MutateAll(mem, ms, kind, committed) else Begin(mem).(ok := false)
  }

  // ---- what a mutation does ----

  ghost predicate SoundMem(mem: Mem) {
    Sound(mem.targets, mem.reservations)
  }

  /** The placements of `m`'s reservation that `m` selects. */
  ghost function SelectedBy(reservations: Reservations, m: Mutation): set<Granule> {
    if m.id !in reservations || NormalizeIndexes(|reservations[m.id].placements|, m.indexes).None? then {}
    else
      NormalizeMeaning(|reservations[m.id].placements|, m.indexes);
      GranulesOf(Selected(reservations[m.id].placements,
                          NormalizeIndexes(|reservations[m.id].placements|, m.indexes).value))
  }

  /** A mutation the source rejects with an error. */
  predicate BadIndexes(reservations: Reservations, m: Mutation) {
    m.id in reservations && NormalizeIndexes(|reservations[m.id].placements|, m.indexes).None?
  }

  /** A mutation that selects every placement. */
  predicate SelectsAll(reservations: Reservations, m: Mutation) {
    && m.id in reservations
    && var n := |reservations[m.id].placements|;
      NormalizeIndexes(n, m.indexes).Some? && |NormalizeIndexes(n, m.indexes).value| == n
  }

  /** The granules a reservation holds after a release of `gone`. */
  ghost predicate Shrinks(before: Reservations, after: Reservations, id: Id, gone: set<Granule>) {
    && (forall a :: a != id ==> (a in after <==> a in before) && (a in before ==> after[a] == before[a]))
    && (forall x :: HeldBy(after, id, x) <==> HeldBy(before, id, x) && x !in gone)
  }

  lemma ShrinkKeepsSound(targets: Targets, before: Reservations, targets': Targets, after: Reservations,
                         id: Id, gone: set<Granule>, freed: set<Granule>)
    requires Sound(targets, before) && ValidTargets(targets') && SameFleet(targets, targets')
    requires Shrinks(before, after, id, gone) && (id in after ==> LiveRecord(id, after[id]))
    requires freed <= gone && forall x :: x in gone ==> HeldBy(before, id, x)
    requires forall x :: FreeAt(targets', x) <==> FreeAt(targets, x) || x in freed
    ensures Sound(targets', after)
  {
    forall a, x | HeldBy(after, a, x) ensures HeldBy(before, a, x) && InRange(targets', x) && !FreeAt(targets', x) {
      assert HeldBy(before, a, x);
    }
  }

  lemma FinalizeShrinks(b: Batch, r: Record, keep: seq<nat>)
    requires SoundMem(b.mem) && r.id in b.mem.reservations && b.mem.reservations[r.id] == r
    requires forall i :: i in keep ==> i < |r.placements|
    ensures SoundMem(FinalizeOne(b, r, keep).mem)
    ensures Shrinks(b.mem.reservations, FinalizeOne(b, r, keep).mem.reservations, r.id, GranulesOf(r.placements))
  {
    ShrinkKeepsSound(b.mem.targets, b.mem.reservations, b.mem.targets, b.mem.reservations - {r.id},
                     r.id, GranulesOf(r.placements), {});
  }

  lemma WholeReleaseLeaves(before: Reservations, r: Record, release: seq<nat>)
    requires r.id in before && before[r.id] == r && |release| == |r.placements|
    requires Increasing(release) && forall i :: i in release ==> i < |r.placements|
    ensures Shrinks(before, before - {r.id}, r.id, GranulesOf(Selected(r.placements, release)))
  {
    IncreasingFull(release, |r.placements|);
    assert Selected(r.placements, release) == r.placements;
  }

  /** What is left of a reservation after a partial release is exactly what was not selected. */
  lemma PartialReleaseLeaves(before: Reservations, r: Record, release: seq<nat>)
    requires r.id in before && before[r.id] == r && DistinctGranules(r.placements)
    requires forall i :: i in release ==> i < |r.placements|
    ensures var rest := r.(placements := Unselected(r.placements, release));
      && Shrinks(before, before[r.id := rest], r.id, GranulesOf(Selected(r.placements, release)))
      && DistinctGranules(rest.placements)
  {
    SelectionSplits(r.placements, release);
    UnselectedDistinct(r.placements, release);
  }

  lemma SelectedInRange(mem: Mem, r: Record, indexes: seq<nat>)
    requires SoundMem(mem) && r.id in mem.reservations && mem.reservations[r.id] == r
    requires forall i :: i in indexes ==> i < |r.placements|
    ensures forall p :: p in Selected(r.placements, indexes) ==> InRange(mem.targets, GranuleAt(p))
    ensures forall x :: x in GranulesOf(Selected(r.placements, indexes)) ==> HeldBy(mem.reservations, r.id, x)
  {
    var sel := Selected(r.placements, indexes);
    forall p | p in sel ensures HeldBy(mem.reservations, r.id, GranuleAt(p)) {
      var k :| 0 <= k < |sel| && sel[k] == p;
      assert indexes[k] in indexes && p in r.placements;
    }
  }

  /** Releasing part of a reservation frees the released granules that are not committed, and only those. */
  lemma ReleaseShrinks(b: Batch, r: Record, release: seq<nat>, committed: set<Granule>)
    requires b.ok && SoundMem(b.mem) && r.id in b.mem.reservations && b.mem.reservations[r.id] == r
    requires Increasing(release) && forall i :: i in release ==> i < |r.placements|
    ensures var b' := ReleaseOne(b, r, release, committed);
      var gone := GranulesOf(Selected(r.placements, release));
      && b'.ok && SoundMem(b'.mem) && SameFleet(b.mem.targets, b'.mem.targets)
      && Shrinks(b.mem.reservations, b'.mem.reservations, r.id, gone)
      && (forall x :: FreeAt(b'.mem.targets, x) <==> FreeAt(b.mem.targets, x) || (x in gone && x !in committed))
      && (forall t :: t in b.mem.targets && t !in b'.dirty ==> b'.mem.targets[t] == b.mem.targets[t])
  {
    var sel := Selected(r.placements, release);
    SelectedInRange(b.mem, r, release);
    ReturnAllFrees(b.mem.targets, sel, committed);
    if |release| == |r.placements| {
      WholeReleaseLeaves(b.mem.reservations, r, release);
    } else {
      PartialReleaseLeaves(b.mem.reservations, r, release);
    }
    var b' := ReleaseOne(b, r, release, committed);
    ShrinkKeepsSound(b.mem.targets, b.mem.reservations, b'.mem.targets, b'.mem.reservations,
                     r.id, GranulesOf(sel), GranulesOf(sel) - committed);
  }

  lemma PartialReleaseChanges(r: Record, raw: seq<nat>)
    requires DistinctGranules(r.placements) && NormalizeIndexes(|r.placements|, raw).Some?
    requires |NormalizeIndexes(|r.placements|, raw).value| != |r.placements|
    ensures Unselected(r.placements, NormalizeIndexes(|r.placements|, raw).value) != r.placements
  {
    var ps := r.placements;
    var indexes := NormalizeIndexes(|ps|, raw).value;
    NormalizeMeaning(|ps|, raw);
    SelectionSplits(ps, indexes);
    assert raw[0] in raw && raw[0] in indexes;
    var k :| 0 <= k < |indexes| && indexes[k] == raw[0];
    assert Selected(ps, indexes)[k] in Selected(ps, indexes);
    assert GranuleAt(Selected(ps, indexes)[k]) in GranulesOf(ps);
  }

  /** What one accepted mutation does to the ledger; a refused one does nothing. */
  ghost predicate Mutates(b: Batch, b': Batch, m: Mutation, kind: MutationKind, committed: set<Granule>) {
    var gone := SelectedBy(b.mem.reservations, m);
    && (b'.ok <==> !BadIndexes(b.mem.reservations, m))
    && (!b'.ok || m.id !in b.mem.reservations ==> b'.mem == b.mem)
    && SameFleet(b.mem.targets, b'.mem.targets)
    && (forall a :: a != m.id ==>
         (a in b'.mem.reservations <==> a in b.mem.reservations)
         && (a in b.mem.reservations ==> b'.mem.reservations[a] == b.mem.reservations[a]))
    && (b'.ok && m.id in b.mem.reservations && m.id in b'.mem.reservations ==>
         b'.mem.reservations[m.id] != b.mem.reservations[m.id])
    && (b'.ok && kind == Finalize ==> m.id !in b'.mem.reservations && b'.mem.targets == b.mem.targets)
    && (b'.ok && SelectsAll(b.mem.reservations, m) ==> m.id !in b'.mem.reservations)
    && (b'.ok && kind == Release ==>
         && (forall x :: HeldBy(b'.mem.reservations, m.id, x) <==> HeldBy(b.mem.reservations, m.id, x) && x !in gone)
         && (forall x :: FreeAt(b'.mem.targets, x) <==> FreeAt(b.mem.targets, x) || (x in gone && x !in committed)))
  }

  lemma MutateOneSound(b: Batch, m: Mutation, kind: MutationKind, committed: set<Granule>)
    requires b.ok && SoundMem(b.mem)
    ensures SoundMem(MutateOne(b, m, kind, committed).mem)
    ensures Mutates(b, MutateOne(b, m, kind, committed), m, kind, committed)
    ensures forall t :: t in b.mem.targets && t !in MutateOne(b, m, kind, committed).dirty ==>
      t in MutateOne(b, m, kind, committed).mem.targets
      && MutateOne(b, m, kind, committed).mem.targets[t] == b.mem.targets[t]
  {
    if m.id in b.mem.reservations && !BadIndexes(b.mem.reservations, m) {
      var r := b.mem.reservations[m.id];
      assert LiveRecord(m.id, r);
      NormalizeMeaning(|r.placements|, m.indexes);
      var indexes := NormalizeIndexes(|r.placements|, m.indexes).value;
      if kind == Finalize {
        FinalizeShrinks(b, r, indexes);
      } else {
        ReleaseShrinks(b, r, indexes, committed);
        if |indexes| != |r.placements| {
          PartialReleaseChanges(r, m.indexes);
        }
      }
    }
  }

  // ---- what a batch does ----

  function InsertAll(reservations: Reservations, recs: seq<Record>): Reservations {
    if recs == [] then reservations
    else InsertAll(reservations, recs[..|recs| - 1])[recs[|recs| - 1].id := recs[|recs| - 1]]
  }

  function MutatedIds(ms: seq<Mutation>): set<Id> {
    set m | m in ms :: m.id
  }

  /** What a batch persists is exactly the difference it made in memory. */
  ghost predicate WritesMatch(mem: Mem, b: Batch) {
    && (forall t :: t in mem.targets && t !in b.dirty ==> t in b.mem.targets && b.mem.targets[t] == mem.targets[t])
    && b.mem.reservations == InsertAll(mem.reservations, b.sets) - Elems(b.deletes)
  }

  lemma InsertAllSnoc(reservations: Reservations, recs: seq<Record>, r: Record)
    ensures InsertAll(reservations, recs + [r]) == InsertAll(reservations, recs)[r.id := r]
  {
    assert (recs + [r])[..|recs|] == recs;
  }

  lemma ElemsSnoc<T>(s: seq<T>, x: T)
    ensures Elems(s + [x]) == Elems(s) + {x}
  {
  }

  /** `b'` differs from `b` in reservation `id` at most, and records the difference. */
  ghost predicate RecordsChange(b: Batch, b': Batch, id: Id) {
    var before, after := b.mem.reservations, b'.mem.reservations;
    || (after == before && b'.sets == b.sets && b'.deletes == b.deletes)
    || (after == before - {id} && b'.sets == b.sets && b'.deletes == b.deletes + [id])
    || (id in after && after[id].id == id && after == before[id := after[id]]
        && b'.sets == b.sets + [after[id]] && b'.deletes == b.deletes)
  }

  /** A mutation records the one change it makes to the reservations. */
  lemma MutateOneWrites(b: Batch, m: Mutation, kind: MutationKind, committed: set<Granule>)
    requires m.id in b.mem.reservations ==> b.mem.reservations[m.id].id == m.id
    ensures var b' := MutateOne(b, m, kind, committed);
      b.dirty <= b'.dirty && RecordsChange(b, b', m.id)
  {
  }

  /** Appending the one change a mutation makes to the recorded writes. */
  lemma RecordNext(start: Reservations, sets: seq<Record>, deletes: seq<Id>, r: Record)
    requires r.id !in deletes
    ensures InsertAll(start, sets + [r]) - Elems(deletes) == (InsertAll(start, sets) - Elems(deletes))[r.id := r]
    ensures InsertAll(start, sets) - Elems(deletes + [r.id]) == (InsertAll(start, sets) - Elems(deletes)) - {r.id}
  {
    InsertAllSnoc(start, sets, r);
    ElemsSnoc(deletes, r.id);
  }

  lemma ReservationsMatchNext(start: Reservations, b: Batch, b': Batch, id: Id)
    requires b.mem.reservations == InsertAll(start, b.sets) - Elems(b.deletes) && id !in b.deletes
    requires RecordsChange(b, b', id)
    ensures b'.mem.reservations == InsertAll(start, b'.sets) - Elems(b'.deletes)
    ensures forall d :: d in b'.deletes ==> d in b.deletes || d == id
  {
    if id in b'.mem.reservations && b'.mem.reservations[id].id == id {
      RecordNext(start, b.sets, b.deletes, b'.mem.reservations[id]);
    } else {
      ElemsSnoc(b.deletes, id);
    }
  }

  lemma WritesMatchNext(mem: Mem, b: Batch, m: Mutation, kind: MutationKind, committed: set<Granule>)
    requires b.ok && SoundMem(b.mem) && WritesMatch(mem, b)
    requires m.id !in b.deletes && MutateOne(b, m, kind, committed).ok
    ensures WritesMatch(mem, MutateOne(b, m, kind, committed))
    ensures forall d :: d in MutateOne(b, m, kind, committed).deletes ==> d in b.deletes || d == m.id
  {
    assert m.id in b.mem.reservations ==> LiveRecord(m.id, b.mem.reservations[m.id]);
    MutateOneWrites(b, m, kind, committed);
    MutateOneSound(b, m, kind, committed);
    ReservationsMatchNext(mem.reservations, b, MutateOne(b, m, kind, committed), m.id);
  }

  /** A batch writes and deletes only reservations that were there. */
  lemma {:induction false} MutateAllNames(mem: Mem, ms: seq<Mutation>, kind: MutationKind, committed: set<Granule>)
    requires forall id :: id in mem.reservations ==> mem.reservations[id].id == id
    ensures var b := MutateAll(mem, ms, kind, committed);
      && (forall id :: id in b.mem.reservations ==> id in mem.reservations && b.mem.reservations[id].id == id)
      && (forall r :: r in b.sets ==> r.id in mem.reservations)
      && (forall d :: d in b.deletes ==> d in mem.reservations)
  {
    if ms != [] {
      MutateAllNames(mem, ms[..|ms| - 1], kind, committed);
      MutateOneWrites(MutateAll(mem, ms[..|ms| - 1], kind, committed), ms[|ms| - 1], kind, committed);
    }
  }

  ghost predicate SelectedIn(reservations: Reservations, ms: seq<Mutation>, x: Granule) {
    exists m :: m in ms && x in SelectedBy(reservations, m)
  }

  lemma SelectedHeld(reservations: Reservations, m: Mutation, x: Granule)
    requires x in SelectedBy(reservations, m)
    ensures HeldBy(reservations, m.id, x)
  {
    var ps := reservations[m.id].placements;
    NormalizeMeaning(|ps|, m.indexes);
    var sel := Selected(ps, NormalizeIndexes(|ps|, m.indexes).value);
    var p :| p in sel && GranuleAt(p) == x;
    var k :| 0 <= k < |sel| && sel[k] == p;
    assert NormalizeIndexes(|ps|, m.indexes).value[k] in NormalizeIndexes(|ps|, m.indexes).value;
  }

  /** A batch keeps the ledger sound and leaves reservations it does not name alone. */
  ghost predicate BatchKeeps(mem: Mem, ms: seq<Mutation>, b: Batch) {
    && SoundMem(b.mem)
    && SameFleet(mem.targets, b.mem.targets)
    && (forall a :: a !in MutatedIds(ms) ==>
         (a in b.mem.reservations <==> a in mem.reservations)
         && (a in mem.reservations ==> b.mem.reservations[a] == mem.reservations[a]))
  }

  /** When a batch is accepted, and what becomes of the reservations it names. */
  ghost predicate BatchSettles(mem: Mem, ms: seq<Mutation>, kind: MutationKind, b: Batch) {
    && (b.ok <==> forall m :: m in ms ==> !BadIndexes(mem.reservations, m))
    && (b.ok ==> forall m :: m in ms && m.id in mem.reservations && m.id in b.mem.reservations ==>
         b.mem.reservations[m.id] != mem.reservations[m.id])
    && (b.ok ==> forall m :: m in ms && SelectsAll(mem.reservations, m) ==> m.id !in b.mem.reservations)
    && (b.ok && kind == Finalize ==>
         && b.mem.targets == mem.targets
         && (forall m :: m in ms ==> m.id !in b.mem.reservations))
  }

  /** What a released batch gives back. */
  ghost predicate BatchFrees(mem: Mem, ms: seq<Mutation>, committed: set<Granule>, b: Batch) {
    && (forall m, x :: m in ms ==>
          (HeldBy(b.mem.reservations, m.id, x) <==>
            HeldBy(mem.reservations, m.id, x) && x !in SelectedBy(mem.reservations, m)))
    && (forall x :: FreeAt(b.mem.targets, x) <==>
          FreeAt(mem.targets, x) || (x !in committed && SelectedIn(mem.reservations, ms, x)))
  }

  /** The meaning of a whole batch, mutation by mutation. */
  ghost predicate BatchMeans(mem: Mem, ms: seq<Mutation>, kind: MutationKind, committed: set<Granule>, b: Batch) {
    && BatchKeeps(mem, ms, b)
    && BatchSettles(mem, ms, kind, b)
    && (b.ok && kind == Release ==> BatchFrees(mem, ms, committed, b))
  }

  /** A mutation of a reservation the batch has not touched yet means what it meant at the start. */
  lemma StillMeans(mem: Mem, ms: seq<Mutation>, m: Mutation, b: Batch)
    requires BatchKeeps(mem, ms, b) && m.id !in MutatedIds(ms)
    ensures m.id in b.mem.reservations <==> m.id in mem.reservations
    ensures m.id in mem.reservations ==> b.mem.reservations[m.id] == mem.reservations[m.id]
    ensures SelectedBy(b.mem.reservations, m) == SelectedBy(mem.reservations, m)
    ensures BadIndexes(b.mem.reservations, m) == BadIndexes(mem.reservations, m)
    ensures SelectsAll(b.mem.reservations, m) == SelectsAll(mem.reservations, m)
  {
  }

  lemma BatchKeepsNext(mem: Mem, ms: seq<Mutation>, m: Mutation, kind: MutationKind, committed: set<Granule>,
                       b: Batch, b': Batch)
    requires BatchKeeps(mem, ms, b) && Mutates(b, b', m, kind, committed) && SoundMem(b'.mem)
    ensures BatchKeeps(mem, ms + [m], b')
  {
    assert MutatedIds(ms + [m]) == MutatedIds(ms) + {m.id};
  }

  lemma BatchSettlesNext(mem: Mem, ms: seq<Mutation>, m: Mutation, kind: MutationKind, committed: set<Granule>,
                         b: Batch, b': Batch)
    requires b.ok && m.id !in MutatedIds(ms)
    requires BatchKeeps(mem, ms, b) && BatchSettles(mem, ms, kind, b) && Mutates(b, b', m, kind, committed)
    ensures BatchSettles(mem, ms + [m], kind, b')
  {
    StillMeans(mem, ms, m, b);
    assert forall n :: n in ms + [m] <==> n in ms || n == m;
    assert forall n :: n in ms ==> n.id in MutatedIds(ms);
  }

  lemma BatchFreesNext(mem: Mem, ms: seq<Mutation>, m: Mutation, committed: set<Granule>, b: Batch, b': Batch)
    requires b'.ok && m.id !in MutatedIds(ms)
    requires BatchKeeps(mem, ms, b) && BatchFrees(mem, ms, committed, b) && Mutates(b, b', m, Release, committed)
    ensures BatchFrees(mem, ms + [m], committed, b')
  {
    StillMeans(mem, ms, m, b);
    assert forall n :: n in ms + [m] <==> n in ms || n == m;
    forall n, x | n in ms + [m]
      ensures HeldBy(b'.mem.reservations, n.id, x) <==>
              HeldBy(mem.reservations, n.id, x) && x !in SelectedBy(mem.reservations, n)
    {
      if n in ms {
        assert n.id in MutatedIds(ms);
        assert HeldBy(b'.mem.reservations, n.id, x) <==> HeldBy(b.mem.reservations, n.id, x);
      }
    }
    forall x ensures SelectedIn(mem.reservations, ms + [m], x) <==>
                     SelectedIn(mem.reservations, ms, x) || x in SelectedBy(mem.reservations, m)
    {
    }
  }

  lemma DistinctIdsPrefix(ms: seq<Mutation>)
    requires DistinctIds(ms) && ms != []
    ensures DistinctIds(ms[..|ms| - 1]) && ms[|ms| - 1].id !in MutatedIds(ms[..|ms| - 1])
  {
  }

  /**
   * A batch over distinct reservations is accepted exactly when no index is out of range. An accepted
   * batch keeps the ledger sound, returns exactly the selected granules that are not committed, touches
   * no other reservation, and persists exactly what it changed.
   */
  lemma {:induction false} MutateAllMeans(mem: Mem, ms: seq<Mutation>, kind: MutationKind, committed: set<Granule>)
    requires SoundMem(mem) && DistinctIds(ms)
    ensures BatchMeans(mem, ms, kind, committed, MutateAll(mem, ms, kind, committed))
    ensures MutateAll(mem, ms, kind, committed).ok ==> WritesMatch(mem, MutateAll(mem, ms, kind, committed))
    ensures MutateAll(mem, ms, kind, committed).ok ==>
      forall d :: d in MutateAll(mem, ms, kind, committed).deletes ==> d in MutatedIds(ms)
  {
    if ms == [] {
      assert Elems<Id>([]) == {};
    } else {
      var front, m := ms[..|ms| - 1], ms[|ms| - 1];
      DistinctIdsPrefix(ms);
      MutateAllMeans(mem, front, kind, committed);
      var b := MutateAll(mem, front, kind, committed);
      assert ms == front + [m];
      assert MutatedIds(ms) == MutatedIds(front) + {m.id};
      if b.ok {
        var b' := MutateOne(b, m, kind, committed);
        MutateOneSound(b, m, kind, committed);
        BatchKeepsNext(mem, front, m, kind, committed, b, b');
        BatchSettlesNext(mem, front, m, kind, committed, b, b');
        if kind == Release && b'.ok {
          BatchFreesNext(mem, front, m, committed, b, b');
        }
        if b'.ok {
          WritesMatchNext(mem, b, m, kind, committed);
        }
      } else {
        assert forall n :: n in front ==> n in ms;
      }
    }
  }

  lemma {:induction false} FirstBad(res: Reservations, ms: seq<Mutation>, k: nat) returns (j: nat)
    requires k < |ms| && BadIndexes(res, ms[k])
    ensures j <= k && BadIndexes(res, ms[j]) && forall i :: 0 <= i < j ==> !BadIndexes(res, ms[i])
  {
    if i :| 0 <= i < k && BadIndexes(res, ms[i]) {
      j := FirstBad(res, ms, i);
    } else {
      j := k;
    }
  }

  lemma {:induction false} RejectionStops(mem: Mem, ms: seq<Mutation>, kind: MutationKind, committed: set<Granule>, j: nat)
    requires SoundMem(mem) && DistinctIds(ms) && j < |ms|
    requires BadIndexes(mem.reservations, ms[j]) && forall i :: 0 <= i < j ==> !BadIndexes(mem.reservations, ms[i])
    ensures !MutateAll(mem, ms, kind, committed).ok
    ensures MutateAll(mem, ms, kind, committed).mem == MutateAll(mem, ms[..j], kind, committed).mem
    decreases |ms|
  {
    var front, m := ms[..|ms| - 1], ms[|ms| - 1];
    DistinctIdsPrefix(ms);
    if j < |front| {
      RejectionStops(mem, front, kind, committed, j);
      assert front[..j] == ms[..j];
    } else {
      assert front == ms[..j];
      LastRejected(mem, front, m, kind, committed);
    }
  }

  lemma LastRejected(mem: Mem, front: seq<Mutation>, m: Mutation, kind: MutationKind, committed: set<Granule>)
    requires SoundMem(mem) && DistinctIds(front) && m.id !in MutatedIds(front) && BadIndexes(mem.reservations, m)
    requires forall i :: 0 <= i < |front| ==> !BadIndexes(mem.reservations, front[i])
    ensures var b := MutateAll(mem, front, kind, committed);
      !MutateOne(b, m, kind, committed).ok && MutateOne(b, m, kind, committed).mem == b.mem
  {
    var b := MutateAll(mem, front, kind, committed);
    MutateAllMeans(mem, front, kind, committed);
    assert b.ok;
    StillMeans(mem, front, m, b);
    MutateOneSound(b, m, kind, committed);
  }

  /**
   * A batch refused halfway leaves memory as it was if and only if nothing before the refused mutation
   * names a live reservation: the source applies those in memory and then returns without persisting.
   */
  lemma RejectedBatchClean(mem: Mem, ms: seq<Mutation>, kind: MutationKind, committed: set<Granule>, j: nat)
    requires SoundMem(mem) && DistinctIds(ms) && j < |ms|
    requires BadIndexes(mem.reservations, ms[j]) && forall i :: 0 <= i < j ==> !BadIndexes(mem.reservations, ms[i])
    ensures !MutateAll(mem, ms, kind, committed).ok
    ensures MutateAll(mem, ms, kind, committed).mem == mem <==>
      forall i :: 0 <= i < j ==> ms[i].id !in mem.reservations
  {
    RejectionStops(mem, ms, kind, committed, j);
    var front := ms[..j];
    var b := MutateAll(mem, front, kind, committed);
    MutateAllMeans(mem, front, kind, committed);
    if i :| 0 <= i < j && ms[i].id in mem.reservations {
      assert front[i] in front;
    } else {
      AbsentBatch(mem, front, kind, committed);
    }
  }

  /** A late finalize or release of reservations that are gone changes nothing and persists nothing. */
  lemma {:induction false} AbsentBatch(mem: Mem, ms: seq<Mutation>, kind: MutationKind, committed: set<Granule>)
    requires forall i :: 0 <= i < |ms| ==> ms[i].id !in mem.reservations
    ensures var b := MutateAll(mem, ms, kind, committed);
      && b.ok && b.mem == mem && b.dirty == {} && b.sets == [] && b.deletes == []
      && b.results == seq(|ms|, i requires 0 <= i < |ms| => Synthetic(ms[i].id, kind))
  {
    if ms != [] {
      AbsentBatch(mem, ms[..|ms| - 1], kind, committed);
    }
  }
}
