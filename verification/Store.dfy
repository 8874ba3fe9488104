/** The store as the source writes it: objects whose fields the operations change step by step. */
module Store {
  import opened Common
  import opened Spans
  import opened Records
  import opened Planner
  import opened Allocator
  import opened FastFinalize
  import opened Recycle
  import opened Visits
  import opened Reserve
  import opened Leader
  import Cluster

  /** The shared database; each method is one transaction. */
  class Database {
    var lease: Option<Lease>
    var targets: Targets
    var reservations: Reservations
    var markers: set<Granule>

    function View(): Durable
      reads this
    {
      Durable(lease, targets, reservations, markers)
    }

    method TryAcquireLease(owner: Id, now: nat) returns (granted: Option<nat>)
      modifies this`lease
      ensures (View(), granted) == TryAcquire(old(View()), owner, now)
    {
      var ttl := if LEASE_TTL > MIN_LEASE_TTL then LEASE_TTL else MIN_LEASE_TTL;
      granted := DecideLeaseGrant(lease, owner, now);
      if granted.Some? {
        lease := Some(Lease(owner, SatAdd(now, ttl), granted.value));
      }
    }

    /** Reads the lease in the same transaction and writes nothing under another epoch. */
    method CommitWriteOps(w: Writes, fence: nat) returns (ok: bool)
      modifies this`targets, this`reservations
      ensures ok <==> fence == LeaseEpoch(old(View()))
      ensures View() == if ok then ApplyWrites(old(View()), w) else old(View())
    {
      ok := fence == LeaseEpoch(View());
      if !ok {
        return;
      }
      targets := targets + w.targets;
      for i := 0 to |w.sets|
        invariant targets == old(targets) + w.targets
        invariant reservations == InsertAll(old(reservations), w.sets[..i])
      {
        reservations := reservations[w.sets[i].id := w.sets[i]];
        InsertAllSnoc(old(reservations), w.sets[..i], w.sets[i]);
        assert w.sets[..i + 1] == w.sets[..i] + [w.sets[i]];
      }
      assert w.sets[..|w.sets|] == w.sets;
      for i := 0 to |w.deletes|
        invariant targets == old(targets) + w.targets
        invariant reservations == InsertAll(old(reservations), w.sets) - Elems(w.deletes[..i])
      {
        reservations := reservations - {w.deletes[i]};
        ElemsSnoc(w.deletes[..i], w.deletes[i]);
        assert w.deletes[..i + 1] == w.deletes[..i] + [w.deletes[i]];
      }
      assert w.deletes[..|w.deletes|] == w.deletes;
    }
  }

  ghost predicate CanonicalTargets(targets: Targets) {
    forall t :: t in targets ==> Canonical(targets[t].spans)
  }

  lemma AddKeepsCanonical(targets: Targets, t: Id, g: nat)
    requires CanonicalTargets(targets) && t in targets && !IsFree(targets[t].spans, g)
    ensures CanonicalTargets(targets[t := WithSpans(targets[t], AddGranule(targets[t].spans, g))])
  {
    ReleasedAdds(targets[t].spans, g);
  }

  lemma {:induction false} ReturnFailureSticks(targets: Targets, ps: seq<Placement>, committed: set<Granule>, n: nat)
    requires n <= |ps| && !ReturnAll(targets, ps[..n], committed).ok
    ensures ReturnAll(targets, ps, committed) == ReturnAll(targets, ps[..n], committed)
    decreases |ps|
  {
    if n < |ps| {
      assert ps[..|ps| - 1][..n] == ps[..n];
      ReturnFailureSticks(targets, ps[..|ps| - 1], committed, n);
    } else {
      assert ps[..n] == ps;
    }
  }

  lemma ReturnNext(targets: Targets, ps: seq<Placement>, committed: set<Granule>, i: nat)
    requires i < |ps|
    ensures ReturnAll(targets, ps[..i + 1], committed) == ReturnOne(ReturnAll(targets, ps[..i], committed), ps[i], committed)
  {
    assert ps[..i + 1][..i] == ps[..i];
  }

  /** The bins when the queues in `keys` are still to be visited. */
  ghost function PartlyDropped(bins: Bins, keys: set<Id>, id: Id): Bins {
    map k | k in bins && (k in keys || Without(bins[k], id) != []) :: if k in keys then bins[k] else Without(bins[k], id)
  }

  lemma PartlyDroppedNext(bins: Bins, keys: set<Id>, id: Id, k: Id)
    requires k in keys && k in bins
    ensures var now, queue := PartlyDropped(bins, keys, id), Without(bins[k], id);
      && k in now && now[k] == bins[k]
      && PartlyDropped(bins, keys - {k}, id) == if queue == [] then now - {k} else now[k := queue]
  {
  }

  lemma {:induction false} FailureSticks(mem: Mem, ms: seq<Mutation>, kind: MutationKind, committed: set<Granule>, n: nat)
    requires n <= |ms| && !MutateAll(mem, ms[..n], kind, committed).ok
    ensures MutateAll(mem, ms, kind, committed) == MutateAll(mem, ms[..n], kind, committed)
    decreases |ms|
  {
    if n < |ms| {
      assert ms[..|ms| - 1][..n] == ms[..n];
      FailureSticks(mem, ms[..|ms| - 1], kind, committed, n);
    } else {
      assert ms[..n] == ms;
    }
  }

  lemma MutateNext(mem: Mem, ms: seq<Mutation>, kind: MutationKind, committed: set<Granule>, i: nat)
    requires i < |ms|
    ensures MutateAll(mem, ms[..i + 1], kind, committed) ==
      MutateOne(MutateAll(mem, ms[..i], kind, committed), ms[i], kind, committed)
  {
    assert ms[..i + 1][..i] == ms[..i];
  }

  /** One KAS process. */
  class KasStore {
    const me: Id
    const db: Database
    var term: Option<Term>
    var targets: Targets
    var reservations: Reservations
    var bins: Bins
    var committedGranules: set<Granule>
    var targetsLoaded: bool
    var reservationsLoaded: bool

    function Memory(): Mem
      reads this
    {
      Mem(targets, reservations, bins)
    }

    function View(): Node
      reads this
    {
      Node(term, Memory(), targetsLoaded, reservationsLoaded)
    }

    constructor (me: Id, db: Database)
      ensures this.me == me && this.db == db && View() == NEW_NODE && committedGranules == {}
    {
      this.me, this.db, term := me, db, None;
      targets, reservations, bins, committedGranules := map[], map[], map[], {};
      targetsLoaded, reservationsLoaded := false, false;
    }

    // ---- the term ----

    method StepDown()
      modifies this`term, this`targetsLoaded, this`reservationsLoaded
      ensures View() == Leader.StepDown(old(View()))
    {
      term, targetsLoaded, reservationsLoaded := None, false, false;
    }

    /** The lease transaction, which may fail before or after it has landed. */
    method TryAcquireLease(now: nat, rpc: Rpc) returns (granted: Option<nat>)
      modifies db`lease
      ensures var (db', g) := TryAcquire(old(db.View()), me, now);
        if rpc == Lost(false) then db.View() == old(db.View()) && granted == None
        else db.View() == db' && granted == g
    {
      granted := None;
      if rpc != Lost(false) {
        granted := db.TryAcquireLease(me, now);
      }
    }

    method AcquireLease(clock: Clock, rpc: Rpc) returns (reply: Result<bool>)
      modifies this`term, this`targetsLoaded, this`reservationsLoaded, db`lease
      ensures var e := Acquire(me, old(View()), old(db.View()), clock, rpc);
        View() == e.node && db.View() == e.db && reply == e.reply
    {
      var granted := TryAcquireLease(clock.grant, rpc);
      if rpc.Lost? {
        return Err(Unavailable);
      }
      if granted.None? {
        StepDown();
        return Ok(false);
      }
      var changed := term.None? || term.value.epoch != granted.value;
      term := Some(Term(granted.value, SatAdd(clock.after, LEASE_TTL)));
      if changed {
        targetsLoaded, reservationsLoaded := false, false;
      }
      return Ok(true);
    }

    method RenewLease(clock: Clock, rpc: Rpc) returns (reply: Result<bool>)
      modifies this`term, this`targetsLoaded, this`reservationsLoaded, db`lease
      ensures var e := Renew(me, old(View()), old(db.View()), clock, rpc);
        View() == e.node && db.View() == e.db && reply == e.reply
    {
      if term.None? {
        reply := AcquireLease(clock, rpc);
        return;
      }
      var held := term.value;
      if SatSub(held.expiresAt, clock.check) > RENEW_BEFORE {
        return Ok(true);
      }
      var granted := TryAcquireLease(clock.grant, rpc);
      if rpc.Lost? {
        StepDown();
        return Err(Unavailable);
      }
      if granted == Some(held.epoch) {
        term := Some(Term(held.epoch, SatAdd(clock.after, LEASE_TTL)));
        return Ok(true);
      }
      StepDown();
      return Err(Aborted);
    }

    // ---- loading ----

    method RefreshTargetState()
      modifies this
      ensures View() == RefreshTargets(old(View()), db.View()) && committedGranules == old(committedGranules)
    {
      targets, reservations, bins := db.targets, map[], map[];
      targetsLoaded, reservationsLoaded := true, false;
    }

    /** Loads everything, and drops durable reservations that are no longer reserved. */
    method RefreshFullState()
      modifies this, db`reservations
      ensures View() == RefreshFull(old(View()), old(db.View())) && committedGranules == old(committedGranules)
      ensures db.View() == old(db.View()).(reservations := StillReserved(old(db.reservations)))
    {
      db.reservations := StillReserved(db.reservations);
      targets, reservations, bins := db.targets, db.reservations, map[];
      targetsLoaded, reservationsLoaded := true, true;
    }

    /** What every leased operation does first. */
    method EnterLeased(clock: Clock, rpc: Rpc, full: bool) returns (error: Option<Error>)
      modifies this, db`lease, db`reservations
      ensures committedGranules == old(committedGranules)
      ensures var e := Renew(me, old(View()), old(db.View()), clock, rpc);
        && (error.None? <==> e.reply.Ok? && e.node.term.Some?)
        && (error.Some? ==> View() == e.node && db.View() == e.db)
        && (error == Some(Unavailable) || error == Some(Aborted) || (error.None? && targetsLoaded))
        && (error.None? && !full ==>
             && db.View() == e.db
             && View() == if e.node.targetsLoaded then e.node else RefreshTargets(e.node, e.db))
        && (error.None? && full ==>
             var current := e.node.targetsLoaded && e.node.reservationsLoaded;
             && reservationsLoaded
             && View() == (if current then e.node else RefreshFull(e.node, e.db))
             && db.View() == if current then e.db else e.db.(reservations := StillReserved(e.db.reservations)))
    {
      var renewed := RenewLease(clock, rpc);
      if renewed.Err? {
        return Some(renewed.error);
      }
      if term.None? {
        return Some(Unavailable);
      }
      if full {
        if !targetsLoaded || !reservationsLoaded {
          RefreshFullState();
        }
      } else if !targetsLoaded {
        RefreshTargetState();
      }
      return None;
    }

    // ---- persisting ----

    method PersistState(w: Writes) returns (ok: bool)
      modifies this`targetsLoaded, db`targets, db`reservations
      ensures var o := Persist(old(View()), old(db.View()), w, 0);
        View() == o.node && db.View() == o.db && ok == o.reply.Ok?
    {
      if term.None? {
        return false;
      }
      if NoWrites(w) {
        return true;
      }
      ok := db.CommitWriteOps(w, term.value.epoch);
      if ok {
        targetsLoaded := true;
      }
    }

    // ---- claiming ----

    method ClaimReadyBinRecords(bin: Id, want: nat, now: nat, ttl: nat) returns (claimed: seq<Record>)
      modifies this`reservations, this`bins
      ensures (Memory(), claimed) == ClaimFrom(old(Memory()), bin, want, now, ttl)
    {
      claimed := [];
      if bin !in bins {
        return;
      }
      var expiry := ClaimExpiry(now, ttl);
      var queue := bins[bin];
      ghost var all := Drain(queue, reservations, want, now, expiry);
      while |claimed| < want && queue != []
        invariant |claimed| <= want && bins == old(bins)
        invariant var rest := Drain(queue, reservations, want - |claimed|, now, expiry);
          all == rest.(claimed := claimed + rest.claimed)
        decreases |queue|
      {
        var id := queue[0];
        if Claimable(reservations, id, now) {
          var r := Bumped(reservations[id], expiry);
          ghost var rest := Drain(queue[1..], reservations[id := r], want - |claimed| - 1, now, expiry);
          assert claimed + ([r] + rest.claimed) == claimed + [r] + rest.claimed;
          reservations := reservations[id := r];
          claimed := claimed + [r];
        }
        queue := queue[1..];
      }
      assert claimed + [] == claimed;
      bins := if queue == [] then bins - {bin} else bins[bin := queue];
    }

    method ClaimBatch(bin: Id, want: nat, now: nat, ttl: nat) returns (reply: Result<seq<Record>>)
      modifies this, db`targets, db`reservations
      ensures committedGranules == old(committedGranules)
      ensures var o := ClaimOp(old(View()), old(db.View()), bin, want, now, ttl);
        View() == o.node && db.View() == o.db && reply == o.reply
    {
      var claimed := ClaimReadyBinRecords(bin, want, now, ttl);
      if claimed == [] {
        return Ok([]);
      }
      var ok := PersistState(Writes(map[], claimed, []));
      return if ok then Ok(claimed) else Err(Aborted);
    }

    // ---- finalize and release ----

    method ReleaseRecordPlacements(ps: seq<Placement>) returns (dirty: set<Id>, ok: bool)
      requires CanonicalTargets(targets)
      modifies this`targets
      ensures Return(targets, dirty, ok) == ReturnAll(old(targets), ps, committedGranules)
      ensures CanonicalTargets(targets)
    {
      dirty, ok := {}, true;
      for i := 0 to |ps|
        invariant CanonicalTargets(targets) && ok
        invariant Return(targets, dirty, true) == ReturnAll(old(targets), ps[..i], committedGranules)
      {
        var p := ps[i];
        ReturnNext(old(targets), ps, committedGranules, i);
        if GranuleAt(p) !in committedGranules {
          if p.target !in targets {
            ok := false;
            ReturnFailureSticks(old(targets), ps, committedGranules, i + 1);
            return;
          }
          var t := targets[p.target];
          if !IsFree(t.spans, p.granule) {
            AddKeepsCanonical(targets, p.target, p.granule);
            var spans := ReleaseGranule(t.spans, p.granule);
            targets := targets[p.target := WithSpans(t, spans)];
            dirty := dirty + {p.target};
          }
        }
      }
      assert ps[..|ps|] == ps;
    }

    method RemoveFromBins(id: Id)
      modifies this`bins
      ensures bins == DropFromBins(old(bins), id)
    {
      var keys := bins.Keys;
      while keys != {}
        invariant keys <= old(bins).Keys && bins == PartlyDropped(old(bins), keys, id)
        decreases |keys|
      {
        var k :| k in keys;
        PartlyDroppedNext(old(bins), keys, id, k);
        var queue := Without(bins[k], id);
        bins := if queue == [] then bins - {k} else bins[k := queue];
        keys := keys - {k};
      }
    }

    /** Carries out one mutation; the four accumulators are returned extended. */
    method ApplyOne(m: Mutation, kind: MutationKind, dirty: set<Id>, sets: seq<Record>, deletes: seq<Id>, results: seq<Record>)
      returns (dirty': set<Id>, sets': seq<Record>, deletes': seq<Id>, results': seq<Record>, failure: Option<Error>)
      requires CanonicalTargets(targets)
      modifies this`targets, this`reservations, this`bins
      ensures CanonicalTargets(targets)
      ensures var b := MutateOne(Batch(old(Memory()), dirty, sets, deletes, results, true, InvalidArgument), m, kind, committedGranules);
        && Memory() == b.mem && dirty' == b.dirty && sets' == b.sets && deletes' == b.deletes && results' == b.results
        && failure == if b.ok then None else Some(b.failure)
    {
      dirty', sets', deletes', results', failure := dirty, sets, deletes, results, None;
      if m.id !in reservations {
        results' := results + [Synthetic(m.id, kind)];
        return;
      }
      var r := reservations[m.id];
      if r.state != Reserved {
        results' := results + [r];
        return;
      }
      var indexes := NormalizeIndexes(|r.placements|, m.indexes);
      if indexes.None? {
        failure := Some(InvalidArgument);
        return;
      }
      NormalizeMeaning(|r.placements|, m.indexes);
      var gone := kind == Finalize || |indexes.value| == |r.placements|;
      if kind == Finalize {
        r := r.(placements := Selected(r.placements, indexes.value), state := Finalized);
      } else {
        var returned, ok := ReleaseRecordPlacements(Selected(r.placements, indexes.value));
        dirty' := dirty + returned;
        if !ok {
          failure := Some(NotFound);
          return;
        }
        if gone {
          r := r.(placements := [], state := Released);
        } else {
          r := r.(placements := Unselected(r.placements, indexes.value));
        }
      }
      RemoveFromBins(r.id);
      if gone {
        reservations := reservations - {r.id};
        deletes' := deletes + [r.id];
      } else {
        reservations := reservations[r.id := r];
        sets' := sets + [r];
      }
      results' := results + [r];
    }

    method ApplyReservationMutations(ms: seq<Mutation>, kind: MutationKind) returns (reply: Result<seq<Record>>)
      requires CanonicalTargets(targets)
      modifies this, db`targets, db`reservations
      ensures CanonicalTargets(targets) && committedGranules == old(committedGranules)
      ensures var o := MutateOp(old(View()), old(db.View()), ms, kind, old(committedGranules));
        View() == o.node && db.View() == o.db && reply == o.reply
    {
      if ms == [] {
        return Ok([]);
      }
      var distinct := AllDistinct(ms);
      if !distinct {
        return Err(InvalidArgument);
      }
      var dirty, sets, deletes, results, failure := MutateEach(ms, kind);
      if failure.Some? {
        return Err(failure.value);
      }
      reply := PersistBatch(dirty, sets, deletes, results, MutateAll(old(Memory()), ms, kind, old(committedGranules)));
    }

    /** Persists what a batch has changed in memory and answers with its results. */
    method PersistBatch(dirty: set<Id>, sets: seq<Record>, deletes: seq<Id>, results: seq<Record>, ghost b: Batch)
      returns (reply: Result<seq<Record>>)
      requires b == Batch(Memory(), dirty, sets, deletes, results, true, b.failure)
      modifies this`targetsLoaded, db`targets, db`reservations
      ensures var o := SettleBatch(old(View()), old(db.View()), b);
        View() == o.node && db.View() == o.db && reply == o.reply
    {
      var ok := PersistState(Writes(DirtyEntries(targets, dirty), sets, deletes));
      return if ok then Ok(results) else Err(Aborted);
    }

    /** The mutation loop, which stops at the first failure. */
    method MutateEach(ms: seq<Mutation>, kind: MutationKind)
      returns (dirty: set<Id>, sets: seq<Record>, deletes: seq<Id>, results: seq<Record>, failure: Option<Error>)
      requires CanonicalTargets(targets)
      modifies this`targets, this`reservations, this`bins
      ensures CanonicalTargets(targets)
      ensures Batch(Memory(), dirty, sets, deletes, results, failure.None?, if failure.None? then InvalidArgument else failure.value) ==
        MutateAll(old(Memory()), ms, kind, committedGranules)
    {
      ghost var mem, committed := Memory(), committedGranules;
      dirty, sets, deletes, results, failure := {}, [], [], [], None;
      for i := 0 to |ms|
        invariant CanonicalTargets(targets) && failure.None?
        invariant Batch(Memory(), dirty, sets, deletes, results, true, InvalidArgument) == MutateAll(mem, ms[..i], kind, committed)
      {
        MutateNext(mem, ms, kind, committed, i);
        dirty, sets, deletes, results, failure := ApplyOne(ms[i], kind, dirty, sets, deletes, results);
        if failure.Some? {
          FailureSticks(mem, ms, kind, committed, i + 1);
          return;
        }
        FailureUnset(mem, ms[..i + 1], kind, committed);
      }
      assert ms[..|ms|] == ms;
    }

    /** The metadata-only finalize; None means the general path must be taken. */
    method TryFinalizeMetadataOnly(ms: seq<Mutation>) returns (reply: Result<Option<seq<Record>>>)
      modifies this, db`targets, db`reservations
      ensures targets == old(targets) && committedGranules == old(committedGranules)
      ensures ms == [] ==> reply == Ok(Some([]))
      ensures ms == [] || !TryFinalize(old(Memory()), ms).Taken? ==> View() == old(View()) && db.View() == old(db.View())
      ensures ms != [] ==>
        match TryFinalize(old(Memory()), ms)
        case Taken(b) =>
          var o := SettleBatch(old(View()), old(db.View()), b);
          && View() == o.node && db.View() == o.db
          && reply == if o.reply.Ok? then Ok(Some(o.reply.value)) else Err(o.reply.error)
        case Refused => reply == Err(InvalidArgument)
        case NotTaken => reply == Ok(None)
    {
      if ms == [] {
        return Ok(Some([]));
      }
      ghost var mem := Memory();
      var check := CheckMutations(reservations, ms, mem);
      if check != Pass {
        return if check == Refuse then Err(InvalidArgument) else Ok(None);
      }
      var deletes, results := DropReservations(ms);
      assert DirtyEntries(targets, {}) == map[];
      var done := PersistBatch({}, [], deletes, results, DropAll(mem, ms));
      return if done.Ok? then Ok(Some(done.value)) else Err(done.error);
    }

    /** The second pass of the metadata-only finalize. */
    method DropReservations(ms: seq<Mutation>) returns (deletes: seq<Id>, results: seq<Record>)
      modifies this`reservations, this`bins
      ensures Batch(Memory(), {}, [], deletes, results, true, InvalidArgument) == DropAll(old(Memory()), ms)
    {
      deletes, results := [], [];
      for i := 0 to |ms|
        invariant Batch(Memory(), {}, [], deletes, results, true, InvalidArgument) == DropAll(old(Memory()), ms[..i])
      {
        var m := ms[i];
        assert ms[..i + 1][..i] == ms[..i];
        if m.id !in reservations {
          results := results + [Synthetic(m.id, Finalize)];
        } else {
          var r := reservations[m.id];
          if r.state == Reserved {
            r := r.(state := Finalized);
            RemoveFromBins(r.id);
            reservations := reservations - {r.id};
            deletes := deletes + [r.id];
          }
          results := results + [r];
        }
      }
      assert ms[..|ms|] == ms;
    }

    /** The first pass of the metadata-only finalize. */
    method CheckMutations(reservations: Reservations, ms: seq<Mutation>, ghost mem: Mem) returns (check: Check)
      requires mem.reservations == reservations
      ensures check == CheckAll(mem, ms)
    {
      var unique := {};
      for i := 0 to |ms|
        invariant unique == MutatedIds(ms[..i]) && CheckAll(mem, ms[..i]) == Pass
      {
        var m := ms[i];
        assert ms[..i + 1] == ms[..i] + [m];
        if m.id in unique {
          check := Refuse;
          CheckSticks(mem, ms, i + 1);
          return;
        }
        unique := unique + {m.id};
        if m.id in reservations && reservations[m.id].state == Reserved {
          var n := |reservations[m.id].placements|;
          var keep := NormalizeIndexes(n, m.indexes);
          if keep.None? || |keep.value| != n {
            check := if keep.None? then Refuse else Fallback;
            CheckSticks(mem, ms, i + 1);
            return;
          }
        }
      }
      assert ms[..|ms|] == ms;
      return Pass;
    }

    method FinalizeReservationsBatch(ms: seq<Mutation>) returns (reply: Result<seq<Record>>)
      requires CanonicalTargets(targets) && committedGranules == {}
      modifies this, db`targets, db`reservations
      ensures CanonicalTargets(targets) && committedGranules == {}
      ensures var o := FinalizeOp(old(View()), old(db.View()), ms);
        View() == o.node && db.View() == o.db && reply == o.reply
    {
      if ms == [] {
        return Ok([]);
      }
      var fast := TryFinalizeMetadataOnly(ms);
      if fast.Err? {
        return Err(fast.error);
      }
      if fast.value.Some? {
        return Ok(fast.value.value);
      }
      reply := ApplyReservationMutations(ms, Finalize);
    }

    // ---- reclaim ----

    /** Returns granules of deleted objects; `order` is the order in which they are visited, up to a failure. */
    method ReclaimTargetGranules(xs: seq<Granule>) returns (reply: Result<nat>, ghost order: seq<Granule>)
      requires CanonicalTargets(targets)
      modifies this`targets, this`targetsLoaded, db`targets, db`reservations
      ensures VisitOrder(xs, order)
      ensures var o := ReclaimOp(old(View()), old(db.View()), order);
        View() == o.node && db.View() == o.db && reply == o.reply
    {
      if xs == [] {
        EmptyOrder();
        return Ok(0), [];
      }
      var groups := GroupByTarget(xs);
      var dirty, count, failure;
      dirty, count, failure, order := ReclaimGroups(groups, xs);
      OrderNonEmpty(xs, order);
      if failure.Some? {
        return Err(failure.value), order;
      }
      reply := PersistReclaim(dirty, count, old(View()), order);
    }

    method PersistReclaim(dirty: set<Id>, count: nat, ghost start: Node, ghost order: seq<Granule>) returns (reply: Result<nat>)
      requires View() == start.(mem := start.mem.(targets := targets)) && order != []
      requires ReclaimAll(start.mem.targets, order) == Reclaim(targets, dirty, count, true, InvalidArgument)
      modifies this`targetsLoaded, db`targets, db`reservations
      ensures var o := ReclaimOp(start, old(db.View()), order);
        View() == o.node && db.View() == o.db && reply == o.reply
    {
      var ok := PersistState(Writes(DirtyEntries(targets, dirty), [], []));
      return if ok then Ok(count) else Err(Aborted);
    }

    method ReclaimGroups(groups: map<Id, seq<nat>>, ghost xs: seq<Granule>)
      returns (dirty: set<Id>, count: nat, failure: Option<Error>, ghost order: seq<Granule>)
      requires CanonicalTargets(targets) && GroupsOf(groups, xs)
      modifies this`targets
      ensures VisitOrder(xs, order)
      ensures Reclaim(targets, dirty, count, failure.None?, if failure.None? then InvalidArgument else failure.value) ==
        ReclaimAll(old(targets), order)
    {
      dirty, count, failure := {}, 0, None;
      var todo := groups.Keys;
      ghost var done: seq<Id> := [];
      while todo != {}
        invariant todo <= groups.Keys && failure.None? && Lists(done, groups.Keys - todo)
        invariant CanonicalTargets(targets)
        invariant Reclaim(targets, dirty, count, true, InvalidArgument) == ReclaimAll(old(targets), Blocks(xs, done))
        decreases |todo|
      {
        var t :| t in todo;
        ghost var after;
        dirty, count, failure, after := ReclaimOnTarget(t, groups[t], dirty, count, Blocks(xs, done), old(targets));
        ListsNext(done, groups.Keys - todo, t);
        NextBlock(groups, xs, done, t);
        assert groups.Keys - (todo - {t}) == groups.Keys - todo + {t};
        if failure.Some? {
          order := OrderFrom(xs, done + [t], todo - {t}, old(targets), after);
          return;
        }
        todo, done := todo - {t}, done + [t];
      }
      assert groups.Keys - todo == groups.Keys;
      order := Blocks(xs, done);
    }

    method ReclaimOnTarget(t: Id, indexes: seq<nat>, dirty: set<Id>, count: nat, ghost before: seq<Granule>, ghost start: Targets)
      returns (dirty': set<Id>, count': nat, failure: Option<Error>, ghost after: seq<Granule>)
      requires CanonicalTargets(targets)
      requires Reclaim(targets, dirty, count, true, InvalidArgument) == ReclaimAll(start, before)
      modifies this`targets
      ensures CanonicalTargets(targets)
      ensures after <= before + OnTarget(t, indexes) && (failure.None? ==> after == before + OnTarget(t, indexes))
      ensures Reclaim(targets, dirty', count', failure.None?, if failure.None? then InvalidArgument else failure.value) ==
        ReclaimAll(start, after)
    {
      dirty', count', failure, after := dirty, count, None, before;
      for i := 0 to |indexes|
        invariant CanonicalTargets(targets) && failure.None?
        invariant OnTargetUpTo(after, before, t, indexes, i)
        invariant Reclaim(targets, dirty', count', true, InvalidArgument) == ReclaimAll(start, after)
      {
        ReclaimNext(start, after, (t, indexes[i]));
        OnTargetNext(after, before, t, indexes, i);
        after := after + [(t, indexes[i])];
        dirty', count', failure := ReclaimGranule(t, indexes[i], dirty', count');
        if failure.Some? {
          return;
        }
      }
    }

    method ReclaimGranule(t: Id, g: nat, dirty: set<Id>, count: nat)
      returns (dirty': set<Id>, count': nat, failure: Option<Error>)
      requires CanonicalTargets(targets)
      modifies this`targets
      ensures CanonicalTargets(targets)
      ensures Reclaim(targets, dirty', count', failure.None?, if failure.None? then InvalidArgument else failure.value) ==
        ReclaimOne(Reclaim(old(targets), dirty, count, true, InvalidArgument), (t, g))
    {
      dirty', count', failure := dirty, count, None;
      if t !in targets {
        failure := Some(NotFound);
      } else if g >= targets[t].target.granuleCount {
        failure := Some(InvalidArgument);
      } else if !IsFree(targets[t].spans, g) {
        AddKeepsCanonical(targets, t, g);
        var spans := ReleaseGranule(targets[t].spans, g);
        targets := targets[t := WithSpans(targets[t], spans)];
        count' := count + 1;
        dirty' := dirty + {t};
      }
    }

    // ---- the reaper ----

    method ReleaseExpired(now: nat, limit: nat) returns (reply: Result<nat>, ghost ids: seq<Id>)
      requires CanonicalTargets(targets) && committedGranules == {}
      requires forall id :: id in reservations ==> reservations[id].id == id
      modifies this, db`targets, db`reservations
      ensures CanonicalTargets(targets) && committedGranules == {}
      ensures ExpiredBatch(old(reservations), now, limit, ids)
      ensures var o := ExpireOp(old(View()), old(db.View()), ids);
        && View() == o.node && db.View() == o.db
        && reply == if o.reply.Ok? then Ok(|o.reply.value|) else Err(o.reply.error)
    {
      var expired := CollectExpired(reservations, now);
      LexOrder();
      var sorted := SortBy(expired, LexLeq);
      var batch := if |sorted| <= limit then sorted else sorted[..limit];
      FirstExpired(reservations, now, limit, expired, sorted);
      ids := batch;
      if batch == [] {
        return Ok(0), ids;
      }
      committedGranules := db.markers * Candidates(reservations, batch);
      var released := ApplyReservationMutations(ReleaseWhole(batch), Release);
      committedGranules := {};
      return if released.Ok? then Ok(|released.value|) else Err(released.error), ids;
    }

    // ---- reserving ----

    method InsertReservations(recs: seq<Record>)
      modifies this`reservations
      ensures reservations == InsertAll(old(reservations), recs)
    {
      for i := 0 to |recs|
        invariant reservations == InsertAll(old(reservations), recs[..i])
      {
        InsertAllSnoc(old(reservations), recs[..i], recs[i]);
        assert recs[..i + 1] == recs[..i] + [recs[i]];
        reservations := reservations[recs[i].id := recs[i]];
      }
      assert recs[..|recs|] == recs;
    }

    /** Plans in memory and persists; `recs` is the plan, whether or not it became durable. */
    method ReserveBatchCommon(c: Criteria, batch: nat, k: nat, ids: seq<Id>, now: nat, ttl: nat, bias: (Id, Id) -> nat)
      returns (reply: Result<seq<Record>>, ghost planned: bool, ghost dirty: set<Id>, ghost recs: seq<Record>)
      requires ValidTargets(targets) && |ids| == batch
      modifies this, db`targets, db`reservations
      ensures committedGranules == old(committedGranules)
      ensures planned <==> batch > 0 && k > 0 && Plannable(old(targets), c)
      ensures !planned ==> View() == old(View()) && db.View() == old(db.View())
      ensures !planned ==> reply == if batch == 0 then Ok([]) else Err(InvalidArgument)
      ensures planned ==> IsPlan(old(targets), targets, c, batch, k, ids, ClaimExpiry(now, ttl), dirty, recs)
      ensures planned ==> var o := ReserveOp(old(View()), old(db.View()), targets, dirty, recs);
        View() == o.node && db.View() == o.db && reply == o.reply
    {
      planned, dirty, recs := false, {}, [];
      if batch == 0 {
        return Ok([]), planned, dirty, recs;
      }
      var plan, after, touched := Plan(targets, c, batch, k, ids, ClaimExpiry(now, ttl), bias);
      if plan.Err? {
        return Err(plan.error), planned, dirty, recs;
      }
      planned, dirty, recs := true, touched, plan.value;
      reply := RecordPlan(after, touched, plan.value);
    }

    method RecordPlan(after: Targets, dirty: set<Id>, recs: seq<Record>) returns (reply: Result<seq<Record>>)
      modifies this, db`targets, db`reservations
      ensures committedGranules == old(committedGranules) && targets == after
      ensures var o := ReserveOp(old(View()), old(db.View()), after, dirty, recs);
        View() == o.node && db.View() == o.db && reply == o.reply
    {
      targets := after;
      InsertReservations(recs);
      var ok := PersistState(Writes(DirtyEntries(targets, dirty), recs, []));
      return if ok then Ok(recs) else Err(Aborted);
    }

    /** One round of a bin refill: reserve, and queue the new reservations once they are durable. */
    method RefillBin(bin: Id, c: Criteria, batch: nat, k: nat, ids: seq<Id>, now: nat, ttl: nat, bias: (Id, Id) -> nat)
      returns (reply: Result<nat>, ghost planned: bool, ghost dirty: set<Id>, ghost recs: seq<Record>)
      requires ValidTargets(targets) && |ids| == batch && batch > 0
      modifies this, db`targets, db`reservations
      ensures committedGranules == old(committedGranules)
      ensures !planned ==> reply.Err? && View() == old(View()) && db.View() == old(db.View())
      ensures planned ==>
        && IsPlan(old(targets), targets, c, batch, k, ids, ClaimExpiry(now, ttl), dirty, recs)
        && var o := TopUpOp(old(View()), old(db.View()), bin, targets, dirty, recs);
          View() == o.node && db.View() == o.db && reply == if o.reply.Ok? then Ok(|recs|) else Err(o.reply.error)
    {
      var reserved;
      reserved, planned, dirty, recs := ReserveBatchCommon(c, batch, k, ids, now, ttl, bias);
      if reserved.Err? {
        return Err(reserved.error), planned, dirty, recs;
      }
      var queue := if bin in bins then bins[bin] else [];
      bins := bins[bin := queue + IdsOf(reserved.value)];
      return Ok(|reserved.value|), planned, dirty, recs;
    }
  }

  /** What a plan promises: granules that were free, spread over domains, and as many reservations as fit. */
  ghost predicate IsPlan(targets: Targets, targets': Targets, c: Criteria, batch: nat, k: nat, ids: seq<Id>,
                         expiresAt: nat, dirty: set<Id>, recs: seq<Record>) {
    && ReservedFrom(targets, targets', recs)
    && (forall t :: t in targets && t !in dirty ==> t in targets' && targets'[t] == targets[t])
    && Numbered(recs, ids, expiresAt)
    && (forall r :: r in recs ==> Spread(targets, r, c, k))
    && (|recs| < batch ==> |OpenDomains(targets', c)| < k)
  }

  /** A planned reservation has the id it was given, and expires `ttl` from now, each a millisecond after the one before. */
  lemma PlanNumbers(targets: Targets, targets': Targets, c: Criteria, batch: nat, k: nat, ids: seq<Id>, now: nat, ttl: nat,
                    dirty: set<Id>, recs: seq<Record>, i: nat)
    requires IsPlan(targets, targets', c, batch, k, ids, ClaimExpiry(now, ttl), dirty, recs) && i < |recs|
    ensures i < |ids| && recs[i].id == ids[i] && recs[i].state == Reserved && |recs[i].placements| == k
    ensures recs[i].expiresAt == if ttl == 0 then 0 else Min(now + ttl + i, U64_MAX)
  {
    assert recs[i] in recs;
  }

  /** An unspecified failure domain is refused as soon as some target would have to be grouped by it. */
  ghost predicate Plannable(targets: Targets, c: Criteria) {
    c.domain == AnyDomain ==> forall t :: t in targets ==> !Eligible(targets[t], c)
  }

  method Plan(targets: Targets, c: Criteria, batch: nat, k: nat, ids: seq<Id>, expiresAt: nat, bias: (Id, Id) -> nat)
    returns (plan: Result<seq<Record>>, targets': Targets, dirty: set<Id>)
    requires ValidTargets(targets) && |ids| == batch && batch > 0
    ensures plan.Ok? <==> k > 0 && Plannable(targets, c)
    ensures plan.Err? ==> plan.error == InvalidArgument
    ensures plan.Ok? ==> IsPlan(targets, targets', c, batch, k, ids, expiresAt, dirty, plan.value)
  {
    plan, targets', dirty := ReserveBatch(targets, c, batch, k, ids, expiresAt, bias);
  }

  /** A plan under new ids is one the cluster's reserve step takes. */
  lemma PlanIsEnabled(c: Cluster.Cluster, n: Id, criteria: Criteria, batch: nat, k: nat, ids: seq<Id>, expiresAt: nat,
                      after: Targets, dirty: set<Id>, recs: seq<Record>)
    requires Cluster.Serving(c, n) && NoDup(ids) && forall id :: id in ids ==> id !in c.used
    requires IsPlan(c.nodes[n].mem.targets, after, criteria, batch, k, ids, expiresAt, dirty, recs)
    ensures Cluster.Enabled(c, Cluster.Reserving(n, after, dirty, recs))
  {
    assert IdsOf(recs) == ids[..|recs|];
  }

  /** The ids of the expired reservations, in no particular order. */
  method CollectExpired(reservations: Reservations, now: nat) returns (expired: seq<Id>)
    requires forall id :: id in reservations ==> reservations[id].id == id
    ensures NoDup(expired)
    ensures forall id :: id in expired <==>
      id in reservations && reservations[id].state == Reserved && Expired(reservations[id], now)
  {
    expired := [];
    var todo := reservations.Keys;
    while todo != {}
      invariant todo <= reservations.Keys && NoDup(expired)
      invariant forall id :: id in expired <==>
        id in reservations && id !in todo && reservations[id].state == Reserved && Expired(reservations[id], now)
      decreases |todo|
    {
      var id :| id in todo;
      var r := reservations[id];
      if r.state == Reserved && Expired(r, now) {
        NoDupConcat(expired, [r.id]);
        expired := expired + [r.id];
      }
      todo := todo - {id};
    }
  }

  lemma FirstExpired(res: Reservations, now: nat, limit: nat, expired: seq<Id>, sorted: seq<Id>)
    requires NoDup(expired) && multiset(sorted) == multiset(expired) && SortedBy(sorted, LexLeq)
    requires forall id :: id in expired <==> id in res && res[id].state == Reserved && Expired(res[id], now)
    ensures ExpiredBatch(res, now, limit, if |sorted| <= limit then sorted else sorted[..limit])
  {
    LexOrder();
    PermutationElems(expired, sorted);
    PermutationKeepsNoDup(expired, sorted);
    var ids := if |sorted| <= limit then sorted else sorted[..limit];
    assert SortedBy(ids, LexLess);
    assert forall i :: 0 <= i < |ids| ==> ids[i] in ids && sorted[i] == ids[i];
    forall id | id in sorted && id !in ids ensures |ids| == limit && forall other :: other in ids ==> LexLess(other, id) {
      var j :| 0 <= j < |sorted| && sorted[j] == id;
      assert j >= |ids|;
    }
  }

  lemma ReclaimNext(targets: Targets, xs: seq<Granule>, x: Granule)
    ensures ReclaimAll(targets, xs + [x]) == ReclaimOne(ReclaimAll(targets, xs), x)
  {
    assert (xs + [x])[..|xs|] == xs;
  }

  ghost function OnTarget(t: Id, indexes: seq<nat>): seq<Granule> {
    seq(|indexes|, i requires 0 <= i < |indexes| => (t, indexes[i]))
  }

  ghost predicate OnTargetUpTo(after: seq<Granule>, before: seq<Granule>, t: Id, indexes: seq<nat>, i: nat) {
    i <= |indexes| && after == before + OnTarget(t, indexes)[..i]
  }

  lemma OnTargetNext(after: seq<Granule>, before: seq<Granule>, t: Id, indexes: seq<nat>, i: nat)
    requires i < |indexes| && OnTargetUpTo(after, before, t, indexes, i)
    ensures OnTargetUpTo(after + [(t, indexes[i])], before, t, indexes, i + 1)
    ensures after + [(t, indexes[i])] <= before + OnTarget(t, indexes)
  {
    var all := OnTarget(t, indexes);
    assert all[..i] + [all[i]] == all[..i + 1];
    assert before + all == before + all[..i + 1] + all[i + 1..];
  }

  /** The caller's list grouped by target, each target's granules in the order they were named. */
  ghost predicate GroupsOf(groups: map<Id, seq<nat>>, xs: seq<Granule>) {
    groups.Keys == TargetsIn(xs) && forall t :: t in groups ==> OnTarget(t, groups[t]) == Block(xs, t)
  }

  lemma EmptyOrder()
    ensures VisitOrder([], [])
  {
    assert Lists([], TargetsIn([])) && Blocks([], []) == [];
  }

  lemma OrderNonEmpty(xs: seq<Granule>, order: seq<Granule>)
    requires VisitOrder(xs, order) && xs != []
    ensures order != []
  {
    OrderMembers(xs, order);
    assert xs[0] in Elems(xs);
  }

  lemma ListsNext(done: seq<Id>, s: set<Id>, t: Id)
    requires Lists(done, s) && t !in s
    ensures Lists(done + [t], s + {t})
  {
    assert forall u :: u in done ==> u in Elems(done);
    ElemsSnoc(done, t);
  }

  lemma NextBlock(groups: map<Id, seq<nat>>, xs: seq<Granule>, done: seq<Id>, t: Id)
    requires GroupsOf(groups, xs) && t in groups
    ensures Blocks(xs, done + [t]) == Blocks(xs, done) + OnTarget(t, groups[t])
  {
    assert (done + [t])[..|done|] == done;
  }

  lemma {:induction false} ReclaimSticks(targets: Targets, a: seq<Granule>, b: seq<Granule>)
    requires !ReclaimAll(targets, a).ok
    ensures ReclaimAll(targets, a + b) == ReclaimAll(targets, a)
  {
    if b == [] {
      assert a + b == a;
    } else {
      ReclaimSticks(targets, a, b[..|b| - 1]);
      assert (a + b)[..|a + b| - 1] == a + b[..|b| - 1];
    }
  }

  /** After a failure the rest of the order does not matter. */
  lemma OrderFrom(xs: seq<Granule>, done: seq<Id>, todo: set<Id>, start: Targets, after: seq<Granule>) returns (order: seq<Granule>)
    requires Lists(done, TargetsIn(xs) - todo) && todo <= TargetsIn(xs) && after <= Blocks(xs, done) && !ReclaimAll(start, after).ok
    ensures VisitOrder(xs, order) && ReclaimAll(start, order) == ReclaimAll(start, after)
  {
    var rest := ListSet(todo);
    var ts := done + rest;
    assert forall u :: u in done ==> u in Elems(done);
    assert forall u :: u in rest ==> u in Elems(rest);
    NoDupConcat(done, rest);
    assert Elems(ts) == Elems(done) + Elems(rest);
    assert Lists(ts, TargetsIn(xs));
    order := Blocks(xs, ts);
    BlocksConcat(xs, done, rest);
    assert order == after + order[|after|..];
    ReclaimSticks(start, after, order[|after|..]);
  }

  lemma {:induction false} CheckSticks(mem: Mem, ms: seq<Mutation>, n: nat)
    requires n <= |ms| && CheckAll(mem, ms[..n]) != Pass
    ensures CheckAll(mem, ms) == CheckAll(mem, ms[..n])
    decreases |ms|
  {
    if n < |ms| {
      assert ms[..|ms| - 1][..n] == ms[..n];
      CheckSticks(mem, ms[..|ms| - 1], n);
    } else {
      assert ms[..n] == ms;
    }
  }

  method GroupByTarget(xs: seq<Granule>) returns (groups: map<Id, seq<nat>>)
    ensures GroupsOf(groups, xs)
  {
    groups := map[];
    for i := 0 to |xs|
      invariant GroupsOf(groups, xs[..i])
    {
      var (t, g) := xs[i];
      GroupNext(groups, xs, i);
      groups := groups[t := (if t in groups then groups[t] else []) + [g]];
    }
    assert xs[..|xs|] == xs;
  }

  lemma GroupNext(groups: map<Id, seq<nat>>, xs: seq<Granule>, i: nat)
    requires i < |xs| && GroupsOf(groups, xs[..i])
    ensures var (t, g) := xs[i];
      GroupsOf(groups[t := (if t in groups then groups[t] else []) + [g]], xs[..i + 1])
  {
    var (t, g) := xs[i];
    var was := if t in groups then groups[t] else [];
    assert xs[..i + 1][..i] == xs[..i];
    assert xs[..i + 1] == xs[..i] + [xs[i]];
    assert TargetsIn(xs[..i + 1]) == TargetsIn(xs[..i]) + {t};
    assert OnTarget(t, was + [g]) == OnTarget(t, was) + [(t, g)];
    if t !in groups {
      NoBlock(xs[..i], t);
    }
  }

  lemma NoBlock(xs: seq<Granule>, t: Id)
    requires t !in TargetsIn(xs)
    ensures Block(xs, t) == []
  {
    if Block(xs, t) != [] {
      BlockMember(xs, t, Block(xs, t)[0]);
    }
  }

  lemma {:induction false} FailureUnset(mem: Mem, ms: seq<Mutation>, kind: MutationKind, committed: set<Granule>)
    requires MutateAll(mem, ms, kind, committed).ok
    ensures MutateAll(mem, ms, kind, committed).failure == InvalidArgument
  {
    if ms != [] {
      FailureUnset(mem, ms[..|ms| - 1], kind, committed);
    }
  }

  /** The duplicate check made before anything is touched. */
  method AllDistinct(ms: seq<Mutation>) returns (distinct: bool)
    ensures distinct <==> DistinctIds(ms)
  {
    var unique := {};
    for i := 0 to |ms|
      invariant unique == MutatedIds(ms[..i]) && DistinctIds(ms[..i])
    {
      assert ms[..i + 1] == ms[..i] + [ms[i]];
      if ms[i].id in unique {
        var m :| m in ms[..i] && m.id == ms[i].id;
        return false;
      }
      assert forall j :: 0 <= j < i ==> ms[j] in ms[..i];
      unique := unique + {ms[i].id};
    }
    assert ms[..|ms|] == ms;
    return true;
  }
}
