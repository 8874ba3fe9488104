/**
 * Any number of leader-resident KAS processes sharing one database. Steps of different processes
 * interleave freely and every clock reading is arbitrary.
 */
module Cluster {
  import opened Common
  import opened Records
  import opened Allocator
  import opened Recycle
  import opened Visits
  import opened Reserve
  import opened Leader
  import opened Batching

  /** A lease written, or a fenced batch committed, by `owner` under `epoch`. */
  datatype Event = Granted(owner: Id, epoch: nat) | Committed(owner: Id, epoch: nat)

  /** `handed` lists the reservation ids given to clients; `used` holds every id generated so far. */
  datatype Cluster = Cluster(db: Durable, nodes: map<Id, Node>, log: seq<Event>, handed: seq<Id>, used: set<Id>)

  datatype Step =
    | Join(n: Id)
    | Renewal(n: Id, clock: Clock, rpc: Rpc)
    | LoadTargets(n: Id)
    | LoadFull(n: Id)
    | LoadTorn(n: Id, seen: Mem, full: bool)
    | Reserving(n: Id, after: Targets, dirty: set<Id>, recs: seq<Record>)
    | Refilling(n: Id, bin: Id, after: Targets, dirty: set<Id>, recs: seq<Record>)
    | Claiming(n: Id, bin: Id, want: nat, now: nat, ttl: nat)
    | Finalizing(n: Id, ms: seq<Mutation>)
    | Releasing(n: Id, ms: seq<Mutation>)
    | Reclaiming(n: Id, xs: seq<Granule>, order: seq<Granule>)
    | Expiring(n: Id, now: nat, limit: nat, ids: seq<Id>)
    | Bookkeeping(n: Id)
    | Torn(n: Id, op: Step, layout: Layout, landed: nat)
    | Marking(marked: set<Granule>)
    | Unmarking(marked: set<Granule>)

  /** `n`'s term is the one in the lease record, so its commits pass the fence. */
  predicate Holds(c: Cluster, n: Id) {
    n in c.nodes && FencePasses(c.nodes[n], c.db)
  }

  predicate Serving(c: Cluster, n: Id) {
    n in c.nodes && c.nodes[n].term.Some? && c.nodes[n].targetsLoaded
  }

  predicate ServingFull(c: Cluster, n: Id) {
    Serving(c, n) && c.nodes[n].reservationsLoaded
  }

  /** What the planner promises of its plan, and that the ids it gave out are new. */
  ghost predicate Planned(c: Cluster, n: Id, after: Targets, dirty: set<Id>, recs: seq<Record>)
    requires n in c.nodes
  {
    var before := c.nodes[n].mem.targets;
    && (ValidTargets(before) ==> ReservedFrom(before, after, recs))
    && (forall t :: t in before && t !in dirty ==> t in after && after[t] == before[t])
    && NoDup(IdsOf(recs))
    && (forall id :: id in IdsOf(recs) ==> id !in c.used)
  }

  /**
   * A release that is carried out frees no marked granule, or the release is refused before it has
   * freed anything: it names a reservation twice, or selects nothing before its first bad index.
   */
  ghost predicate ReleaseSafe(reservations: Reservations, markers: set<Granule>, ms: seq<Mutation>) {
    || !DistinctIds(ms)
    || (forall m :: m in ms ==> !BadIndexes(reservations, m) && SelectedBy(reservations, m) !! markers)
    || (exists j :: 0 <= j < |ms| && BadIndexes(reservations, ms[j])
         && forall i :: 0 <= i < j ==> SelectedBy(reservations, ms[i]) == {})
  }

  /** Neither marked nor reserved. */
  ghost predicate Unclaimed(db: Durable, x: Granule) {
    x !in db.markers && forall id :: !HeldBy(db.reservations, id, x)
  }

  /**
   * A reclaim names a marked or reserved granule only behind one that is out of range on the same target,
   * where no order of the targets gets to it.
   */
  ghost predicate ReclaimSafe(db: Durable, xs: seq<Granule>) {
    forall x :: Reaches(db.targets, xs, x) ==> Unclaimed(db, x)
  }

  predicate Operation(s: Step) {
    s.Reserving? || s.Refilling? || s.Claiming? || s.Finalizing? || s.Releasing? || s.Reclaiming? || s.Expiring?
  }

  function ExpireMarkers(c: Cluster, n: Id, ids: seq<Id>): set<Granule>
    requires n in c.nodes
  {
    c.db.markers * Candidates(c.nodes[n].mem.reservations, ids)
  }

  /** What an operation asks to persist. */
  function WritesOf(c: Cluster, s: Step): Writes
    requires Operation(s) && s.n in c.nodes
  {
    var mem := c.nodes[s.n].mem;
    match s
    case Reserving(_, after, dirty, recs) => Writes(DirtyEntries(after, dirty), recs, [])
    case Refilling(_, _, after, dirty, recs) => Writes(DirtyEntries(after, dirty), recs, [])
    case Claiming(_, bin, want, now, ttl) => Writes(map[], ClaimFrom(mem, bin, want, now, ttl).1, [])
    case Finalizing(_, ms) => BatchWrites(ApplyMutations(mem, ms, Finalize, {}))
    case Releasing(_, ms) => BatchWrites(ApplyMutations(mem, ms, Release, {}))
    case Reclaiming(_, _, order) =>
      var r := ReclaimAll(mem.targets, order);
      if r.ok then Writes(DirtyEntries(r.targets, r.dirty), [], []) else NO_WRITES
    case Expiring(n, _, _, ids) => BatchWrites(ApplyMutations(mem, ReleaseWhole(ids), Release, ExpireMarkers(c, n, ids)))
    case _ => NO_WRITES
  }

  /** The unit that frees a granule and the unit that takes it from its reservation are in one transaction. */
  ghost predicate KeptTogether(reservations: Reservations, ms: seq<Mutation>, committed: set<Granule>, w: Writes, l: Layout) {
    forall m, x :: m in ms && x in SelectedBy(reservations, m) && x !in committed ==> CommittedTogether(w, l, m.id, x.0)
  }

  predicate CommittedTogether(w: Writes, l: Layout, id: Id, t: Id) {
    && TargetUnit(l, t) < |l.sizes| && RecordUnit(w, l, id) < |l.sizes|
    && SameBatch(l.sizes, TargetUnit(l, t), RecordUnit(w, l, id))
  }

  /** Releases are the operations that a stopped persist can leave half done. */
  ghost predicate TornSafe(c: Cluster, op: Step, l: Layout)
    requires Operation(op) && op.n in c.nodes
  {
    var mem := c.nodes[op.n].mem;
    match op
    case Releasing(_, ms) =>
      ApplyMutations(mem, ms, Release, {}).ok ==> KeptTogether(mem.reservations, ms, {}, WritesOf(c, op), l)
    case Expiring(n, _, _, ids) =>
      KeptTogether(mem.reservations, ReleaseWhole(ids), ExpireMarkers(c, n, ids), WritesOf(c, op), l)
    case _ => true
  }

  /** When a step may happen: the process's own checks, and what callers owe the process that holds the lease. */
  ghost predicate Enabled(c: Cluster, s: Step) {
    match s
    case Join(n) => n !in c.nodes
    case Renewal(n, _, _) => n in c.nodes
    case LoadTargets(n) => n in c.nodes
    case LoadFull(n) => n in c.nodes
    case LoadTorn(n, _, _) => n in c.nodes && !Holds(c, n)
    case Reserving(n, after, dirty, recs) => Serving(c, n) && Planned(c, n, after, dirty, recs)
    case Refilling(n, _, after, dirty, recs) => ServingFull(c, n) && Planned(c, n, after, dirty, recs)
    case Claiming(n, _, _, _, _) => ServingFull(c, n)
    case Finalizing(n, ms) => ServingFull(c, n)
    case Releasing(n, ms) =>
      ServingFull(c, n) && (Holds(c, n) ==> ReleaseSafe(c.nodes[n].mem.reservations, c.db.markers, ms))
    case Reclaiming(n, xs, order) =>
      ServingFull(c, n) && VisitOrder(xs, order) && (Holds(c, n) ==> ReclaimSafe(c.db, xs))
    case Expiring(n, now, limit, ids) =>
      ServingFull(c, n) && ExpiredBatch(c.nodes[n].mem.reservations, now, limit, ids)
    case Bookkeeping(n) => n in c.nodes
    case Torn(n, op, l, landed) =>
      && Operation(op) && op.n == n && Enabled(c, op) && Holds(c, n)
      && LaidOut(WritesOf(c, op), l) && Boundary(l.sizes, landed) && TornSafe(c, op, l)
    case Marking(xs) => forall x :: x in xs ==> exists id :: HeldBy(c.db.reservations, id, x)
    case Unmarking(_) => true
  }

  function Elect(c: Cluster, n: Id, e: Election): Cluster {
    c.(db := e.db, nodes := c.nodes[n := e.node],
       log := c.log + if e.granted.Some? then [Granted(n, e.granted.value)] else [])
  }

  function Settle<T>(c: Cluster, n: Id, o: Outcome<T>): Cluster {
    c.(db := o.db, nodes := c.nodes[n := o.node],
       log := c.log + if o.committed then [Committed(n, LeaseEpoch(c.db))] else [])
  }

  function Hand(c: Cluster, reply: Result<seq<Record>>): Cluster {
    c.(handed := c.handed + if reply.Ok? then IdsOf(reply.value) else [])
  }

  ghost function Use(c: Cluster, recs: seq<Record>): Cluster {
    c.(used := c.used + Elems(IdsOf(recs)))
  }

  /** The process dies before its persist is complete; its memory and its term are lost. */
  ghost function Tear(c: Cluster, n: Id, op: Step, part: Writes): Cluster {
    var c' := c.(db := ApplyWrites(c.db, part), nodes := c.nodes[n := NEW_NODE],
                 log := c.log + if NoWrites(part) then [] else [Committed(n, LeaseEpoch(c.db))]);
    if op.Reserving? || op.Refilling? then Use(c', op.recs) else c'
  }

  ghost function Do(c: Cluster, s: Step): Cluster
    requires Enabled(c, s)
  {
    match s
    case Join(n) => c.(nodes := c.nodes[n := NEW_NODE])
    case Renewal(n, clock, rpc) => Elect(c, n, Renew(n, c.nodes[n], c.db, clock, rpc))
    case LoadTargets(n) => c.(nodes := c.nodes[n := RefreshTargets(c.nodes[n], c.db)])
    case LoadFull(n) =>
      c.(nodes := c.nodes[n := RefreshFull(c.nodes[n], c.db)], db := c.db.(reservations := StillReserved(c.db.reservations)))
    case LoadTorn(n, seen, full) =>
      c.(nodes := c.nodes[n := c.nodes[n].(mem := seen.(bins := map[]), targetsLoaded := true, reservationsLoaded := full)])
    case Reserving(n, after, dirty, recs) =>
      var o := ReserveOp(c.nodes[n], c.db, after, dirty, recs);
      Hand(Use(Settle(c, n, o), recs), o.reply)
    case Refilling(n, bin, after, dirty, recs) =>
      Use(Settle(c, n, TopUpOp(c.nodes[n], c.db, bin, after, dirty, recs)), recs)
    case Claiming(n, bin, want, now, ttl) =>
      var o := ClaimOp(c.nodes[n], c.db, bin, want, now, ttl);
      Hand(Settle(c, n, o), o.reply)
    case Finalizing(n, ms) => Settle(c, n, FinalizeOp(c.nodes[n], c.db, ms))
    case Releasing(n, ms) => Settle(c, n, MutateOp(c.nodes[n], c.db, ms, Release, {}))
    case Reclaiming(n, _, order) => Settle(c, n, ReclaimOp(c.nodes[n], c.db, order))
    case Expiring(n, _, _, ids) => Settle(c, n, ExpireOp(c.nodes[n], c.db, ids))
    case Bookkeeping(n) =>
      Settle(c, n, Outcome(c.nodes[n], c.db, FencePasses(c.nodes[n], c.db), Ok(0)))
    case Torn(n, op, l, landed) => Tear(c, n, op, PartAt(WritesOf(c, op), l, landed))
    case Marking(xs) => c.(db := c.db.(markers := c.db.markers + xs))
    case Unmarking(xs) => c.(db := c.db.(markers := c.db.markers - xs))
  }

  ghost predicate Next(c: Cluster, s: Step, c': Cluster) {
    Enabled(c, s) && c' == Do(c, s)
  }

  /** A run: the states passed through and the step between each two. */
  ghost predicate Run(cs: seq<Cluster>, steps: seq<Step>) {
    && |cs| == |steps| + 1
    && Initial(cs[0])
    && forall i {:trigger steps[i]} :: 0 <= i < |steps| ==> Next(cs[i], steps[i], cs[i + 1])
  }

  /** No process yet and no lease; the database holds a sound fleet, possibly with reservations. */
  ghost predicate Initial(c: Cluster) {
    && c.db.lease == None && c.nodes == map[] && c.log == [] && c.handed == []
    && DurableSound(c.db)
  }

  /** No granule is in two reservations, none is both free and reserved, none is both free and committed. */
  ghost predicate DurableSound(db: Durable) {
    && Sound(db.targets, db.reservations)
    && forall x :: x in db.markers ==> !FreeAt(db.targets, x)
  }
}
