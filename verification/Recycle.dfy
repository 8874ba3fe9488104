/** Handing out pre-made reservations, reclaiming granules of deleted objects, and expiring reservations. */
module Recycle {
  import opened Common
  import opened Spans
  import opened Records
  import opened Allocator

  // ---- claiming from a bin ----

  predicate Expired(r: Record, now: nat) {
    r.expiresAt > 0 && r.expiresAt <= now
  }

  predicate Claimable(res: Reservations, id: Id, now: nat) {
    id in res && res[id].state == Reserved && !Expired(res[id], now)
  }

  function Bumped(r: Record, expiry: nat): Record {
    if expiry > 0 then r.(expiresAt := expiry) else r
  }

  /** A queue being drained: what is left of it, the reservations, and the records handed out. */
  datatype Claim = Claim(queue: seq<Id>, res: Reservations, claimed: seq<Record>)

  /** Pops ids until `want` reservations are claimed; dead and expired ones are dropped on the way. */
  function Drain(queue: seq<Id>, res: Reservations, want: nat, now: nat, expiry: nat): Claim
    decreases |queue|
  {
    if want == 0 || queue == [] then Claim(queue, res, [])
    else if Claimable(res, queue[0], now) then
      var r := Bumped(res[queue[0]], expiry);
      var rest := Drain(queue[1..], res[queue[0] := r], want - 1, now, expiry);
      rest.(claimed := [r] + rest.claimed)
    else Drain(queue[1..], res, want, now, expiry)
  }

  function ClaimExpiry(now: nat, ttl: nat): nat {
    if ttl == 0 then 0 else SatAdd(now, ttl)
  }

  function ClaimFrom(mem: Mem, bin: Id, want: nat, now: nat, ttl: nat): (Mem, seq<Record>) {
    if bin !in mem.bins then (mem, [])
    else
      var c := Drain(mem.bins[bin], mem.reservations, want, now, ClaimExpiry(now, ttl));
      (Mem(mem.targets, c.res, if c.queue == [] then mem.bins - {bin} else mem.bins[bin := c.queue]), c.claimed)
  }

  function IdsOf(recs: seq<Record>): seq<Id> {
    seq(|recs|, i requires 0 <= i < |recs| => recs[i].id)
  }

  lemma IdsOfMembers(recs: seq<Record>)
    ensures forall r :: r in recs ==> r.id in IdsOf(recs)
  {
    forall r | r in recs ensures r.id in IdsOf(recs) {
      var i :| 0 <= i < |recs| && recs[i] == r;
      assert IdsOf(recs)[i] == r.id;
    }
  }

  /** A claimed record is the live one it was popped for, unexpired, with its expiry pushed out. */
  ghost predicate ClaimedFrom(res: Reservations, r: Record, now: nat, expiry: nat) {
    Claimable(res, r.id, now) && r == Bumped(res[r.id], expiry)
  }

  lemma {:induction false} InsertAllCons(res: Reservations, r: Record, recs: seq<Record>)
    ensures InsertAll(res, [r] + recs) == InsertAll(res[r.id := r], recs)
  {
    if recs == [] {
      assert [r] + recs == [r];
    } else {
      var front := recs[..|recs| - 1];
      InsertAllCons(res, r, front);
      assert ([r] + recs)[..|recs|] == [r] + front;
    }
  }

  /** Draining takes from the front, and stops short of `want` only when the queue is empty. */
  lemma {:induction false} DrainQueue(queue: seq<Id>, res: Reservations, want: nat, now: nat, expiry: nat)
    ensures var c := Drain(queue, res, want, now, expiry);
      && |c.claimed| <= want && |c.queue| <= |queue| && c.queue == queue[|queue| - |c.queue|..]
      && (|c.claimed| < want ==> c.queue == [])
    decreases |queue|
  {
    if want > 0 && queue != [] {
      if Claimable(res, queue[0], now) {
        DrainQueue(queue[1..], res[queue[0] := Bumped(res[queue[0]], expiry)], want - 1, now, expiry);
      } else {
        DrainQueue(queue[1..], res, want, now, expiry);
      }
    }
  }

  /** No reservation is handed out twice, and what is handed out has left the queue. */
  lemma {:induction false} DrainIds(queue: seq<Id>, res: Reservations, want: nat, now: nat, expiry: nat)
    requires NoDup(queue) && forall id :: id in res ==> res[id].id == id
    ensures var c := Drain(queue, res, want, now, expiry);
      && NoDup(IdsOf(c.claimed))
      && (forall id :: id in IdsOf(c.claimed) ==> id in queue && id !in c.queue)
    decreases |queue|
  {
    if want > 0 && queue != [] {
      var id, tail := queue[0], queue[1..];
      if Claimable(res, id, now) {
        var r := Bumped(res[id], expiry);
        DrainIds(tail, res[id := r], want - 1, now, expiry);
        DrainQueue(tail, res[id := r], want - 1, now, expiry);
        var c := Drain(tail, res[id := r], want - 1, now, expiry);
        assert id !in tail && forall x :: x in c.queue ==> x in tail;
        ConsIds(r, c.claimed);
      } else {
        DrainIds(tail, res, want, now, expiry);
      }
    }
  }

  lemma ConsIds(r: Record, recs: seq<Record>)
    ensures IdsOf([r] + recs) == [r.id] + IdsOf(recs)
    ensures forall id :: id in IdsOf([r] + recs) <==> id == r.id || id in IdsOf(recs)
    ensures NoDup(IdsOf(recs)) && r.id !in IdsOf(recs) ==> NoDup(IdsOf([r] + recs))
  {
    assert IdsOf([r] + recs) == [r.id] + IdsOf(recs);
    assert forall i :: 0 <= i < |recs| ==> IdsOf(recs)[i] in IdsOf(recs);
  }

  /** What is handed out is live and unexpired, and its new expiry is recorded in memory. */
  lemma {:induction false} DrainRecords(queue: seq<Id>, res: Reservations, want: nat, now: nat, expiry: nat)
    requires NoDup(queue) && forall id :: id in res ==> res[id].id == id
    ensures var c := Drain(queue, res, want, now, expiry);
      && (forall r :: r in c.claimed ==> ClaimedFrom(res, r, now, expiry))
      && c.res == InsertAll(res, c.claimed)
    decreases |queue|
  {
    if want > 0 && queue != [] {
      var id, tail := queue[0], queue[1..];
      if Claimable(res, id, now) {
        var r := Bumped(res[id], expiry);
        DrainRecords(tail, res[id := r], want - 1, now, expiry);
        DrainIds(tail, res[id := r], want - 1, now, expiry);
        var c := Drain(tail, res[id := r], want - 1, now, expiry);
        InsertAllCons(res, r, c.claimed);
        IdsOfMembers(c.claimed);
        assert id !in tail;
      } else {
        DrainRecords(tail, res, want, now, expiry);
      }
    }
  }

  /** The ids of a queue whose reservations exist, are Reserved and have not expired, in queue order. */
  ghost function LiveIds(queue: seq<Id>, res: Reservations, now: nat): seq<Id> {
    if queue == [] then []
    else
      var id := queue[0];
      var live := id in res && res[id].state == Reserved && (res[id].expiresAt == 0 || now < res[id].expiresAt);
      (if live then [id] else []) + LiveIds(queue[1..], res, now)
  }

  lemma {:induction false} LiveMember(queue: seq<Id>, res: Reservations, now: nat, id: Id)
    ensures id in LiveIds(queue, res, now) <==>
      id in queue && id in res && res[id].state == Reserved && (res[id].expiresAt == 0 || now < res[id].expiresAt)
  {
    if queue != [] {
      LiveMember(queue[1..], res, now, id);
      assert queue == [queue[0]] + queue[1..];
    }
  }

  lemma {:induction false} LiveElsewhere(queue: seq<Id>, res: Reservations, now: nat, id: Id, r: Record)
    requires id !in queue
    ensures LiveIds(queue, res[id := r], now) == LiveIds(queue, res, now)
  {
    if queue != [] {
      LiveElsewhere(queue[1..], res, now, id, r);
    }
  }

  lemma {:induction false} DrainSplits(queue: seq<Id>, res: Reservations, want: nat, now: nat, expiry: nat)
    requires NoDup(queue) && forall id :: id in res ==> res[id].id == id
    ensures var c := Drain(queue, res, want, now, expiry);
      LiveIds(queue, res, now) == IdsOf(c.claimed) + LiveIds(c.queue, res, now)
    decreases |queue|
  {
    if want > 0 && queue != [] {
      var id, tail := queue[0], queue[1..];
      if Claimable(res, id, now) {
        var r := Bumped(res[id], expiry);
        DrainSplits(tail, res[id := r], want - 1, now, expiry);
        SplitCons(tail, res, id, r, want - 1, now, expiry);
      } else {
        DrainSplits(tail, res, want, now, expiry);
      }
    } else {
      assert IdsOf([]) == [];
    }
  }

  lemma SplitCons(tail: seq<Id>, res: Reservations, id: Id, r: Record, want: nat, now: nat, expiry: nat)
    requires id !in tail && r.id == id
    requires var c := Drain(tail, res[id := r], want, now, expiry);
      LiveIds(tail, res[id := r], now) == IdsOf(c.claimed) + LiveIds(c.queue, res[id := r], now)
    ensures var c := Drain(tail, res[id := r], want, now, expiry);
      [id] + LiveIds(tail, res, now) == IdsOf([r] + c.claimed) + LiveIds(c.queue, res, now)
  {
    var c := Drain(tail, res[id := r], want, now, expiry);
    DrainQueue(tail, res[id := r], want, now, expiry);
    assert forall x :: x in c.queue ==> x in tail;
    LiveElsewhere(tail, res, now, id, r);
    LiveElsewhere(c.queue, res, now, id, r);
    ConsIds(r, c.claimed);
  }

  /** Nothing is popped after the last id that is handed out. */
  lemma {:induction false} DrainStops(queue: seq<Id>, res: Reservations, want: nat, now: nat, expiry: nat)
    requires forall id :: id in res ==> res[id].id == id
    ensures var c := Drain(queue, res, want, now, expiry);
      && (want == 0 ==> c.queue == queue)
      && (0 < want == |c.claimed| ==>
           |c.queue| < |queue| && queue[|queue| - |c.queue| - 1] == c.claimed[want - 1].id)
    decreases |queue|
  {
    if want > 0 && queue != [] {
      var id, tail := queue[0], queue[1..];
      if Claimable(res, id, now) {
        DrainStops(tail, res[id := Bumped(res[id], expiry)], want - 1, now, expiry);
        DrainQueue(tail, res[id := Bumped(res[id], expiry)], want - 1, now, expiry);
      } else {
        DrainStops(tail, res, want, now, expiry);
      }
    }
  }

  /**
   * Draining hands out the first `want` live ids of the queue, in order. It pops no further than the last
   * of them, so what it leaves holds all the other live ids.
   */
  lemma DrainServes(queue: seq<Id>, res: Reservations, want: nat, now: nat, expiry: nat)
    requires NoDup(queue) && forall id :: id in res ==> res[id].id == id
    ensures var c, live := Drain(queue, res, want, now, expiry), LiveIds(queue, res, now);
      IdsOf(c.claimed) == Take(live, want) && live == IdsOf(c.claimed) + LiveIds(c.queue, res, now)
  {
    DrainSplits(queue, res, want, now, expiry);
    DrainQueue(queue, res, want, now, expiry);
  }

  /** An id that is dropped without being handed out has no reservation, or a dead or an expired one. */
  lemma DroppedIsDead(queue: seq<Id>, res: Reservations, want: nat, now: nat, expiry: nat, id: Id)
    requires NoDup(queue) && forall id :: id in res ==> res[id].id == id
    requires var c := Drain(queue, res, want, now, expiry);
      id in queue && id !in c.queue && id !in IdsOf(c.claimed)
    ensures id !in res || res[id].state != Reserved || 0 < res[id].expiresAt <= now
  {
    var c := Drain(queue, res, want, now, expiry);
    DrainServes(queue, res, want, now, expiry);
    LiveMember(queue, res, now, id);
    LiveMember(c.queue, res, now, id);
  }

  /** The record that is handed out: as it was, or with its expiry `ttl` from now if that is given. */
  ghost predicate HandedOut(res: Reservations, r: Record, now: nat, ttl: nat) {
    && r.id in res
    && (ttl == 0 ==> r == res[r.id])
    && (ttl > 0 ==> r == res[r.id].(expiresAt := Min(now + ttl, U64_MAX)))
  }

  ghost function QueueIn(bins: Bins, bin: Id): seq<Id> {
    if bin in bins then bins[bin] else []
  }

  /**
   * The first `want` live ids of the queue are handed out, and what follows the last of them is left, or
   * nothing if there are too few.
   */
  ghost predicate Serves(queue: seq<Id>, res: Reservations, want: nat, now: nat, ttl: nat, claimed: seq<Record>, left: seq<Id>) {
    && IdsOf(claimed) == Take(LiveIds(queue, res, now), want)
    && (forall r :: r in claimed ==> HandedOut(res, r, now, ttl))
    && |left| <= |queue| && left == queue[|queue| - |left|..]
    && (|claimed| < want ==> left == [])
    && (want == 0 ==> left == queue)
    && (0 < want == |claimed| ==> |left| < |queue| && queue[|queue| - |left| - 1] == claimed[want - 1].id)
  }

  lemma DrainMeaning(queue: seq<Id>, res: Reservations, want: nat, now: nat, ttl: nat)
    requires NoDup(queue) && forall id :: id in res ==> res[id].id == id
    ensures var c := Drain(queue, res, want, now, ClaimExpiry(now, ttl));
      Serves(queue, res, want, now, ttl, c.claimed, c.queue) && c.res == InsertAll(res, c.claimed)
  {
    var expiry := ClaimExpiry(now, ttl);
    DrainServes(queue, res, want, now, expiry);
    DrainStops(queue, res, want, now, expiry);
    DrainQueue(queue, res, want, now, expiry);
    DrainRecords(queue, res, want, now, expiry);
  }

  /** A claim serves its bin, records what it hands out, and drops the bin when nothing is left in it. */
  lemma ClaimMeaning(mem: Mem, bin: Id, want: nat, now: nat, ttl: nat)
    requires NoDup(QueueIn(mem.bins, bin)) && forall id :: id in mem.reservations ==> mem.reservations[id].id == id
    ensures var (mem', claimed) := ClaimFrom(mem, bin, want, now, ttl);
      var left := QueueIn(mem'.bins, bin);
      && Serves(QueueIn(mem.bins, bin), mem.reservations, want, now, ttl, claimed, left)
      && mem'.targets == mem.targets && mem'.reservations == InsertAll(mem.reservations, claimed)
      && mem'.bins == if left == [] then mem.bins - {bin} else mem.bins[bin := left]
  {
    DrainMeaning(QueueIn(mem.bins, bin), mem.reservations, want, now, ttl);
  }

  /** Pushing out an expiry leaves who holds which granule as it was. */
  lemma {:induction false} BumpsKeepHoldings(res: Reservations, recs: seq<Record>, now: nat, expiry: nat)
    requires forall r :: r in recs ==> ClaimedFrom(res, r, now, expiry)
    ensures forall id, x :: HeldBy(InsertAll(res, recs), id, x) <==> HeldBy(res, id, x)
    ensures InsertAll(res, recs).Keys == res.Keys
    ensures forall id :: id in res ==>
      InsertAll(res, recs)[id] == res[id] || InsertAll(res, recs)[id] == Bumped(res[id], expiry)
  {
    if recs != [] {
      BumpsKeepHoldings(res, recs[..|recs| - 1], now, expiry);
      assert ClaimedFrom(res, recs[|recs| - 1], now, expiry);
    }
  }

  // ---- reclaiming granules of deleted objects ----

  datatype Reclaim = Reclaim(targets: Targets, dirty: set<Id>, count: nat, ok: bool, failure: Error)

  function ReclaimOne(r: Reclaim, x: Granule): Reclaim {
    if !r.ok then r
    else if x.0 !in r.targets then r.(ok := false, failure := NotFound)
    else if x.1 >= r.targets[x.0].target.granuleCount then r.(ok := false)
    else if IsFree(r.targets[x.0].spans, x.1) then r
    else
      var t := r.targets[x.0];
      r.(targets := r.targets[x.0 := WithSpans(t, AddGranule(t.spans, x.1))], dirty := r.dirty + {x.0}, count := r.count + 1)
  }

  /** `xs` is the order in which the granules are visited; the source groups them by target first. */
  function ReclaimAll(targets: Targets, xs: seq<Granule>): Reclaim {
    if xs == [] then Reclaim(targets, {}, 0, true, InvalidArgument)
    else ReclaimOne(ReclaimAll(targets, xs[..|xs| - 1]), xs[|xs| - 1])
  }

  ghost function NotFree(targets: Targets, xs: seq<Granule>): set<Granule> {
    set x | x in xs && !FreeAt(targets, x)
  }

  lemma NotFreeSnoc(targets: Targets, xs: seq<Granule>, x: Granule)
    ensures |NotFree(targets, xs + [x])| ==
      |NotFree(targets, xs)| + if FreeAt(targets, x) || x in xs then 0 else 1
  {
    var before, after := NotFree(targets, xs), NotFree(targets, xs + [x]);
    assert after == if FreeAt(targets, x) then before else before + {x};
  }

  lemma ReclaimOneFrees(r: Reclaim, x: Granule)
    requires r.ok && ValidTargets(r.targets) && InRange(r.targets, x)
    ensures var r' := ReclaimOne(r, x);
      && r'.ok && ValidTargets(r'.targets) && SameFleet(r.targets, r'.targets)
      && (forall y :: FreeAt(r'.targets, y) <==> FreeAt(r.targets, y) || y == x)
      && r.dirty <= r'.dirty
      && (forall t :: t in r.targets && t !in r'.dirty ==> r'.targets[t] == r.targets[t])
      && r'.count == r.count + if FreeAt(r.targets, x) then 0 else 1
  {
    var t := r.targets[x.0];
    FreeSetMember(t.spans, x.1);
    if !IsFree(t.spans, x.1) {
      ReleasedAdds(t.spans, x.1);
    }
  }

  /** The granules reclaim gets to: those before the first one that is out of range. */
  ghost function Visited(targets: Targets, xs: seq<Granule>): seq<Granule> {
    if xs == [] then []
    else
      var front := Visited(targets, xs[..|xs| - 1]);
      if |front| == |xs| - 1 && InRange(targets, xs[|xs| - 1]) then xs else front
  }

  lemma {:induction false} VisitedPrefix(targets: Targets, xs: seq<Granule>)
    ensures var n := |Visited(targets, xs)|;
      && n <= |xs| && Visited(targets, xs) == xs[..n]
      && (forall i :: 0 <= i < n ==> InRange(targets, xs[i]))
      && (n < |xs| ==> !InRange(targets, xs[n]))
  {
    if xs != [] {
      VisitedPrefix(targets, xs[..|xs| - 1]);
    }
  }

  /** `r` is what reclaiming leaves after it has visited `visited`. */
  ghost predicate Freed(targets: Targets, visited: seq<Granule>, r: Reclaim) {
    && ValidTargets(r.targets) && SameFleet(targets, r.targets)
    && (forall x :: FreeAt(r.targets, x) <==> FreeAt(targets, x) || x in visited)
    && (forall t :: t in targets && t !in r.dirty ==> r.targets[t] == targets[t])
    && r.count == |NotFree(targets, visited)|
  }

  lemma FreedNext(targets: Targets, visited: seq<Granule>, r: Reclaim, x: Granule)
    requires r.ok && Freed(targets, visited, r) && InRange(targets, x)
    ensures ReclaimOne(r, x).ok && Freed(targets, visited + [x], ReclaimOne(r, x))
  {
    ReclaimOneFrees(r, x);
    NotFreeSnoc(targets, visited, x);
  }

  /**
   * Reclaiming frees every granule up to the first that is out of range and counts the ones that were
   * not free already. It fails exactly when there is such a granule, and keeps what it freed before.
   */
  lemma {:induction false} ReclaimFrees(targets: Targets, xs: seq<Granule>)
    requires ValidTargets(targets)
    ensures var r, n := ReclaimAll(targets, xs), |Visited(targets, xs)|;
      && n <= |xs| && (r.ok <==> n == |xs|)
      && r.failure == (if n < |xs| && xs[n].0 !in targets then NotFound else InvalidArgument)
      && Freed(targets, Visited(targets, xs), r)
  {
    if xs != [] {
      var front, last := xs[..|xs| - 1], xs[|xs| - 1];
      assert xs == front + [last];
      ReclaimFrees(targets, front);
      VisitedPrefix(targets, front);
      var r := ReclaimAll(targets, front);
      assert last.0 in targets ==> targets[last.0].target.granuleCount == r.targets[last.0].target.granuleCount;
      if r.ok {
        assert Visited(targets, front) == front;
      }
      if r.ok && InRange(targets, last) {
        FreedNext(targets, front, r, last);
      }
    }
  }

  /** Reclaim does not look at reservations, so it is safe exactly when it visits no reserved granule. */
  lemma OrderSoundIff(targets: Targets, res: Reservations, xs: seq<Granule>)
    requires Sound(targets, res)
    ensures Sound(ReclaimAll(targets, xs).targets, res) <==>
      forall id, x :: x in Visited(targets, xs) ==> !HeldBy(res, id, x)
  {
    ReclaimFrees(targets, xs);
  }

  // ---- expiring reservations ----

  /** The reaper's batch: the first `limit` expired reservations in id order. */
  ghost predicate ExpiredBatch(res: Reservations, now: nat, limit: nat, ids: seq<Id>) {
    && SortedBy(ids, LexLess)
    && |ids| <= limit
    && (forall id :: id in ids ==> id in res && res[id].state == Reserved && 0 < res[id].expiresAt <= now)
    && (forall id :: id in res && res[id].state == Reserved && 0 < res[id].expiresAt <= now && id !in ids ==>
         |ids| == limit && forall other :: other in ids ==> LexLess(other, id))
  }

  function ReleaseWhole(ids: seq<Id>): seq<Mutation> {
    seq(|ids|, i requires 0 <= i < |ids| => Mutation(ids[i], []))
  }

  function Candidates(res: Reservations, ids: seq<Id>): set<Granule> {
    set id, p | id in ids && id in res && p in res[id].placements :: GranuleAt(p)
  }

  lemma WholeSelection(res: Reservations, id: Id)
    requires id in res
    ensures !BadIndexes(res, Mutation(id, [])) && SelectsAll(res, Mutation(id, []))
    ensures SelectedBy(res, Mutation(id, [])) == GranulesOf(res[id].placements)
  {
    var ps := res[id].placements;
    UpToMember(|ps|);
    NormalizeMeaning(|ps|, []);
    var sel := NormalizeIndexes(|ps|, []).value;
    assert sel == UpTo(|ps|);
    assert Selected(ps, sel) == ps;
  }

  ghost predicate HeldByAny(res: Reservations, ids: seq<Id>, x: Granule) {
    exists id :: id in ids && HeldBy(res, id, x)
  }

  /**
   * The reaper drops every reservation of its batch and frees their granules, except those with a
   * commit marker: they stay out of the free spans although their reservation is gone.
   */
  lemma ExpireMeaning(mem: Mem, ids: seq<Id>, markers: set<Granule>)
    requires SoundMem(mem) && NoDup(ids) && forall id :: id in ids ==> id in mem.reservations
    ensures var committed := markers * Candidates(mem.reservations, ids);
      var b := ApplyMutations(mem, ReleaseWhole(ids), Release, committed);
      && b.ok && SoundMem(b.mem) && SameFleet(mem.targets, b.mem.targets) && WritesMatch(mem, b)
      && (forall id :: id in ids ==> id !in b.mem.reservations)
      && (forall id :: id !in ids ==>
           (id in b.mem.reservations <==> id in mem.reservations)
           && (id in mem.reservations ==> b.mem.reservations[id] == mem.reservations[id]))
      && (forall x :: FreeAt(b.mem.targets, x) <==>
           FreeAt(mem.targets, x) || (x !in markers && HeldByAny(mem.reservations, ids, x)))
  {
    var committed := markers * Candidates(mem.reservations, ids);
    var ms := ReleaseWhole(ids);
    assert DistinctIds(ms);
    MutateAllMeans(mem, ms, Release, committed);
    var b := MutateAll(mem, ms, Release, committed);
    assert forall m :: m in ms <==> m.indexes == [] && m.id in ids by {
      forall m: Mutation | m.indexes == [] && m.id in ids ensures m in ms {
        var i :| 0 <= i < |ids| && ids[i] == m.id;
        assert ms[i] == m;
      }
    }
    forall id | id in ids
      ensures !BadIndexes(mem.reservations, Mutation(id, [])) && SelectsAll(mem.reservations, Mutation(id, []))
      ensures SelectedBy(mem.reservations, Mutation(id, [])) == GranulesOf(mem.reservations[id].placements)
    {
      WholeSelection(mem.reservations, id);
    }
    assert b.ok;
    assert MutatedIds(ms) == Elems(ids);
    forall id | id in ids ensures id !in b.mem.reservations {
      assert Mutation(id, []) in ms;
    }
    forall x ensures SelectedIn(mem.reservations, ms, x) <==> HeldByAny(mem.reservations, ids, x) {
      if m :| m in ms && x in SelectedBy(mem.reservations, m) {
        assert HeldBy(mem.reservations, m.id, x);
      }
      if id :| id in ids && HeldBy(mem.reservations, id, x) {
        assert Mutation(id, []) in ms;
      }
    }
    forall x | x !in committed && HeldByAny(mem.reservations, ids, x) ensures x !in markers {
      var id :| id in ids && HeldBy(mem.reservations, id, x);
      var p :| p in mem.reservations[id].placements && GranuleAt(p) == x;
    }
  }
}
