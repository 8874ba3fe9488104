/** The metadata-only finalize and its relation to the general mutation path. */
module FastFinalize {
  import opened Common
  import opened Records
  import opened Allocator

  datatype Check = Pass | Fallback | Refuse

  datatype Attempt = NotTaken | Refused | Taken(batch: Batch)

  /** The first pass: refuse duplicates and bad indexes, give way to the general path on a proper subset. */
  function CheckOne(mem: Mem, seen: seq<Mutation>, m: Mutation): Check {
    if exists i :: 0 <= i < |seen| && seen[i].id == m.id then Refuse
    else if m.id !in mem.reservations || mem.reservations[m.id].state != Reserved then Pass
    else
      var n := |mem.reservations[m.id].placements|;
      match NormalizeIndexes(n, m.indexes)
      case None => Refuse
      case Some(keep) => if |keep| != n then Fallback else Pass
  }

  function CheckAll(mem: Mem, ms: seq<Mutation>): Check {
    if ms == [] then Pass
    else
      var front := ms[..|ms| - 1];
      match CheckAll(mem, front)
      case Pass => CheckOne(mem, front, ms[|ms| - 1])
      case other => other
  }

  /** The second pass: drop each live reservation and reply with its record as it stands. */
  function DropOne(b: Batch, m: Mutation): Batch {
    if m.id !in b.mem.reservations then b.(results := b.results + [Synthetic(m.id, Finalize)])
    else
      var r := b.mem.reservations[m.id];
      if r.state != Reserved then b.(results := b.results + [r])
      else
        b.(mem := b.mem.(reservations := b.mem.reservations - {r.id}, bins := DropFromBins(b.mem.bins, r.id)),
           deletes := b.deletes + [r.id],
           results := b.results + [r.(state := Finalized)])
  }

  function DropAll(mem: Mem, ms: seq<Mutation>): Batch {
    if ms == [] then Begin(mem) else DropOne(DropAll(mem, ms[..|ms| - 1]), ms[|ms| - 1])
  }

  function TryFinalize(mem: Mem, ms: seq<Mutation>): Attempt {
    match CheckAll(mem, ms)
    case Pass => Taken(DropAll(mem, ms))
    case Fallback => NotTaken
    case Refuse => Refused
  }

  ghost predicate WholeRecord(mem: Mem, m: Mutation) {
    m.id in mem.reservations && mem.reservations[m.id].state == Reserved ==>
      var n := |mem.reservations[m.id].placements|;
      NormalizeIndexes(n, m.indexes).Some? && |NormalizeIndexes(n, m.indexes).value| == n
  }

  predicate Repeats(ms: seq<Mutation>, j: nat)
    requires j < |ms|
  {
    exists i :: 0 <= i < j && ms[i].id == ms[j].id
  }

  predicate BadLive(mem: Mem, m: Mutation) {
    BadIndexes(mem.reservations, m) && mem.reservations[m.id].state == Reserved
  }

  /** Mutation `j` repeats an id or has a bad index, and all before it are distinct and finalize whole records. */
  ghost predicate RefusesAt(mem: Mem, ms: seq<Mutation>, j: nat) {
    && j < |ms|
    && (Repeats(ms, j) || BadLive(mem, ms[j]))
    && forall i :: 0 <= i < j ==> WholeRecord(mem, ms[i]) && !Repeats(ms, i)
  }

  ghost predicate RefusedEarly(mem: Mem, ms: seq<Mutation>) {
    exists j :: RefusesAt(mem, ms, j)
  }

  lemma CheckOneMeaning(mem: Mem, front: seq<Mutation>, m: Mutation)
    ensures CheckOne(mem, front, m).Pass? <==> !Repeats(front + [m], |front|) && WholeRecord(mem, m)
    ensures CheckOne(mem, front, m).Refuse? <==> Repeats(front + [m], |front|) || BadLive(mem, m)
  {
    var ms := front + [m];
    assert Repeats(ms, |front|) <==> exists i :: 0 <= i < |front| && front[i].id == m.id by {
      assert forall i :: 0 <= i < |front| ==> ms[i] == front[i];
    }
  }

  lemma RepeatsPrefix(front: seq<Mutation>, m: Mutation)
    ensures forall i :: 0 <= i < |front| ==> (Repeats(front + [m], i) <==> Repeats(front, i))
  {
    var ms := front + [m];
    forall i | 0 <= i < |front| ensures Repeats(ms, i) <==> Repeats(front, i) {
      assert forall k :: 0 <= k <= i ==> ms[k] == front[k];
    }
  }

  /** What the first pass lets through and refuses, mutation by mutation. */
  lemma {:induction false} CheckAllSteps(mem: Mem, ms: seq<Mutation>)
    ensures CheckAll(mem, ms).Pass? <==> forall i :: 0 <= i < |ms| ==> WholeRecord(mem, ms[i]) && !Repeats(ms, i)
    ensures CheckAll(mem, ms).Refuse? <==> RefusedEarly(mem, ms)
  {
    if ms != [] {
      var front, m := ms[..|ms| - 1], ms[|ms| - 1];
      assert ms == front + [m];
      CheckAllSteps(mem, front);
      CheckOneMeaning(mem, front, m);
      RepeatsPrefix(front, m);
      assert forall i :: 0 <= i < |front| ==> ms[i] == front[i];
      RefusedEarlyNext(mem, front, m);
    }
  }

  lemma RefusesAtPrefix(mem: Mem, front: seq<Mutation>, m: Mutation, j: nat)
    requires j < |front|
    ensures RefusesAt(mem, front + [m], j) <==> RefusesAt(mem, front, j)
  {
    RepeatsPrefix(front, m);
    assert forall i :: 0 <= i < |front| ==> (front + [m])[i] == front[i];
  }

  lemma RefusedEarlyNext(mem: Mem, front: seq<Mutation>, m: Mutation)
    ensures RefusedEarly(mem, front + [m]) <==> RefusedEarly(mem, front) || RefusesAt(mem, front + [m], |front|)
  {
    var ms := front + [m];
    forall j: nat | j < |front| ensures RefusesAt(mem, ms, j) <==> RefusesAt(mem, front, j) {
      RefusesAtPrefix(mem, front, m, j);
    }
  }

  /**
   * The first pass succeeds exactly on distinct ids whose live reservations are finalized whole, and
   * refuses exactly when the first mutation that is not so repeats an id or has a bad index.
   */
  lemma CheckAllMeaning(mem: Mem, ms: seq<Mutation>)
    ensures CheckAll(mem, ms).Pass? <==> DistinctIds(ms) && forall i :: 0 <= i < |ms| ==> WholeRecord(mem, ms[i])
    ensures CheckAll(mem, ms).Refuse? <==> RefusedEarly(mem, ms)
  {
    CheckAllSteps(mem, ms);
    if i, j :| 0 <= i < j < |ms| && ms[i].id == ms[j].id {
      assert Repeats(ms, j);
    }
  }

  lemma SelectAll(ps: seq<Placement>)
    ensures forall i :: i in UpTo(|ps|) ==> i < |ps|
    ensures Selected(ps, UpTo(|ps|)) == ps
  {
  }

  /** Keeping every placement is what the general path does with a whole record. */
  lemma DropIsFinalize(b: Batch, m: Mutation, committed: set<Granule>)
    requires b.ok && WholeRecord(b.mem, m)
    ensures DropOne(b, m) == MutateOne(b, m, Finalize, committed)
  {
    if m.id in b.mem.reservations && b.mem.reservations[m.id].state == Reserved {
      var r := b.mem.reservations[m.id];
      FullSelection(|r.placements|, m.indexes);
      SelectAll(r.placements);
    }
  }

  /** Finalizing only ever removes reservations. */
  lemma {:induction false} DropShrinks(mem: Mem, ms: seq<Mutation>)
    ensures DropAll(mem, ms).ok
    ensures forall id :: id in DropAll(mem, ms).mem.reservations ==>
      id in mem.reservations && DropAll(mem, ms).mem.reservations[id] == mem.reservations[id]
  {
    if ms != [] { DropShrinks(mem, ms[..|ms| - 1]); }
  }

  lemma {:induction false} DropAllIsMutateAll(mem: Mem, ms: seq<Mutation>, committed: set<Granule>)
    requires forall i :: 0 <= i < |ms| ==> WholeRecord(mem, ms[i])
    ensures DropAll(mem, ms) == MutateAll(mem, ms, Finalize, committed)
  {
    if ms != [] {
      var front := ms[..|ms| - 1];
      DropAllIsMutateAll(mem, front, committed);
      DropShrinks(mem, front);
      DropIsFinalize(DropAll(mem, front), ms[|ms| - 1], committed);
    }
  }

  /**
   * Whenever the fast path is taken, its replies, its memory and its durable deletes are those of the
   * general path; and whenever it refuses, the general path refuses too.
   */
  lemma FastFinalizeRefines(mem: Mem, ms: seq<Mutation>, committed: set<Granule>)
    ensures TryFinalize(mem, ms).Taken? ==>
      TryFinalize(mem, ms).batch == ApplyMutations(mem, ms, Finalize, committed)
    ensures TryFinalize(mem, ms).Refused? && SoundMem(mem) ==> !ApplyMutations(mem, ms, Finalize, committed).ok
  {
    CheckAllMeaning(mem, ms);
    if TryFinalize(mem, ms).Taken? {
      DropAllIsMutateAll(mem, ms, committed);
    }
    if TryFinalize(mem, ms).Refused? && SoundMem(mem) && DistinctIds(ms) {
      MutateAllMeans(mem, ms, Finalize, committed);
      var j: nat :| RefusesAt(mem, ms, j);
      assert ms[j] in ms;
    }
  }
}
