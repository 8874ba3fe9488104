/** One KAS process in leader-resident mode: its term, its cached state, and what each operation persists. */
module Leader {
  import opened Common
  import opened Records
  import opened Allocator
  import opened FastFinalize
  import opened Recycle

  /** The coordination lease record in the database. */
  datatype Lease = Lease(owner: Id, expiresAt: nat, epoch: nat)

  /** The term a process believes it holds. */
  datatype Term = Term(epoch: nat, expiresAt: nat)

  datatype Node = Node(term: Option<Term>, mem: Mem, targetsLoaded: bool, reservationsLoaded: bool)

  /** What is durable: the lease, the allocator state, and the commit markers written with object commits. */
  datatype Durable = Durable(
    lease: Option<Lease>, targets: Targets, reservations: Reservations, markers: set<Granule>)

  const LEASE_TTL: nat := 30_000
  const MIN_LEASE_TTL: nat := 1_000
  const RENEW_BEFORE: nat := LEASE_TTL / 2

  const NEW_NODE := Node(None, Mem(map[], map[], map[]), false, false)

  function SatSub(a: nat, b: nat): nat {
    if a > b then a - b else 0
  }

  // ---- the lease ----

  /** The epoch granted to `owner`, if any: kept on a live self-renewal, advanced on every other grant. */
  function DecideLeaseGrant(existing: Option<Lease>, owner: Id, now: nat): Option<nat> {
    match existing
    case None => Some(1)
    case Some(l) =>
      var live := l.expiresAt > now;
      if l.owner == owner && live then Some(l.epoch)
      else if !live then Some(SatAdd(l.epoch, 1))
      else None
  }

  /** The epoch the fence compares with; a missing record counts as epoch 0. */
  function LeaseEpoch(db: Durable): nat {
    match db.lease
    case None => 0
    case Some(l) => l.epoch
  }

  function TryAcquire(db: Durable, owner: Id, now: nat): (Durable, Option<nat>) {
    var ttl := if LEASE_TTL > MIN_LEASE_TTL then LEASE_TTL else MIN_LEASE_TTL;
    match DecideLeaseGrant(db.lease, owner, now)
    case None => (db, None)
    case Some(e) => (db.(lease := Some(Lease(owner, SatAdd(now, ttl), e))), Some(e))
  }

  /** The clock readings of one attempt: before it, inside the transaction's caller, and after it. */
  datatype Clock = Clock(check: nat, grant: nat, after: nat)

  /** Whether the lease transaction was answered, or failed on the way with or without having landed. */
  datatype Rpc = Answered | Lost(landed: bool)

  /** `granted` is the epoch written to the lease record, if one was. */
  datatype Election = Election(node: Node, db: Durable, granted: Option<nat>, reply: Result<bool>)

  function StepDown(node: Node): Node {
    node.(term := None, targetsLoaded := false, reservationsLoaded := false)
  }

  function Acquire(me: Id, node: Node, db: Durable, clock: Clock, rpc: Rpc): Election {
    var (db', granted) := TryAcquire(db, me, clock.grant);
    if rpc.Lost? then
      if rpc.landed then Election(node, db', granted, Err(Unavailable)) else Election(node, db, None, Err(Unavailable))
    else
      match granted
      case None => Election(StepDown(node), db', None, Ok(false))
      case Some(e) =>
        var changed := node.term.None? || node.term.value.epoch != e;
        var held := node.(term := Some(Term(e, SatAdd(clock.after, LEASE_TTL))));
        Election(if changed then held.(targetsLoaded := false, reservationsLoaded := false) else held,
                 db', granted, Ok(true))
  }

  function Renew(me: Id, node: Node, db: Durable, clock: Clock, rpc: Rpc): Election {
    match node.term
    case None => Acquire(me, node, db, clock, rpc)
    case Some(term) =>
      if SatSub(term.expiresAt, clock.check) > RENEW_BEFORE then Election(node, db, None, Ok(true))
      else
        var (db', granted) := TryAcquire(db, me, clock.grant);
        if rpc.Lost? then
          if rpc.landed then Election(StepDown(node), db', granted, Err(Unavailable))
          else Election(StepDown(node), db, None, Err(Unavailable))
        else if granted == Some(term.epoch) then
          Election(node.(term := Some(Term(term.epoch, SatAdd(clock.after, LEASE_TTL)))), db', granted, Ok(true))
        else Election(StepDown(node), db', granted, Err(Aborted))
  }

  // ---- loading ----

  function StillReserved(reservations: Reservations): Reservations {
    map id | id in reservations && reservations[id].state == Reserved :: reservations[id]
  }

  function RefreshTargets(node: Node, db: Durable): Node {
    node.(mem := Mem(db.targets, map[], map[]), targetsLoaded := true, reservationsLoaded := false)
  }

  function RefreshFull(node: Node, db: Durable): Node {
    node.(mem := Mem(db.targets, StillReserved(db.reservations), map[]), targetsLoaded := true, reservationsLoaded := true)
  }

  // ---- fenced commits ----

  datatype Writes = Writes(targets: Targets, sets: seq<Record>, deletes: seq<Id>)

  predicate NoWrites(w: Writes) {
    w.targets == map[] && w.sets == [] && w.deletes == []
  }

  function ApplyWrites(db: Durable, w: Writes): Durable {
    db.(targets := db.targets + w.targets,
        reservations := InsertAll(db.reservations, w.sets) - Elems(w.deletes))
  }

  const NO_WRITES := Writes(map[], [], [])

  /**
   * What may be durable when a persist stops between two of its commits: target writes come first, then
   * reservation records, then deletions.
   */
  ghost predicate Landed(w: Writes, part: Writes) {
    && (forall t :: t in part.targets ==> t in w.targets && part.targets[t] == w.targets[t])
    && part.sets <= w.sets && part.deletes <= w.deletes
    && (part.sets != [] || part.deletes != [] ==> part.targets == w.targets)
    && (part.deletes != [] ==> part.sets == w.sets)
  }

  /** How a persist is laid out: the dirty targets in the order they are written, and the size of every write unit. */
  datatype Layout = Layout(order: seq<Id>, sizes: seq<nat>)

  /** One unit for each target, record and deletion; bookkeeping units may follow. */
  ghost predicate LaidOut(w: Writes, l: Layout) {
    && NoDup(l.order) && Elems(l.order) == w.targets.Keys
    && |l.order| + |w.sets| + |w.deletes| <= |l.sizes|
  }

  /** What the first `n` units write. */
  function PartAt(w: Writes, l: Layout, n: nat): Writes {
    Writes(map t | t in Take(l.order, n) && t in w.targets :: w.targets[t],
           Take(w.sets, n - |l.order|), Take(w.deletes, n - |l.order| - |w.sets|))
  }

  function TargetUnit(l: Layout, t: Id): nat {
    IndexOf(l.order, t)
  }

  /** The unit that writes or deletes reservation `id`. */
  function RecordUnit(w: Writes, l: Layout, id: Id): nat {
    if id in IdsOf(w.sets) then |l.order| + IndexOf(IdsOf(w.sets), id)
    else |l.order| + |w.sets| + IndexOf(w.deletes, id)
  }

  predicate WroteTo(part: Writes, id: Id) {
    id in part.deletes || id in IdsOf(part.sets)
  }

  lemma PartLands(w: Writes, l: Layout, n: nat)
    requires LaidOut(w, l)
    ensures Landed(w, PartAt(w, l, n))
  {
    var part := PartAt(w, l, n);
    if n >= |l.order| {
      assert part.targets == w.targets;
    }
  }

  /** Which writes the first `n` units hold. */
  lemma PartHas(w: Writes, l: Layout, n: nat, t: Id, id: Id)
    requires LaidOut(w, l) && WroteTo(w, id) && (id in w.deletes ==> id !in IdsOf(w.sets))
    ensures t in PartAt(w, l, n).targets <==> t in w.targets && TargetUnit(l, t) < n
    ensures WroteTo(PartAt(w, l, n), id) <==> RecordUnit(w, l, id) < n
  {
    TakeHas(l.order, t, n);
    var sets := Take(w.sets, n - |l.order|);
    assert IdsOf(sets) == Take(IdsOf(w.sets), n - |l.order|);
    TakeHas(IdsOf(w.sets), id, n - |l.order|);
    TakeHas(w.deletes, id, n - |l.order| - |w.sets|);
  }

  /** `committed` says whether a fenced batch was applied; `reply` is what the caller gets. */
  datatype Outcome<T> = Outcome(node: Node, db: Durable, committed: bool, reply: Result<T>)

  predicate FencePasses(node: Node, db: Durable) {
    node.term.Some? && node.term.value.epoch == LeaseEpoch(db)
  }

  /** Persists `w` under the held epoch; memory has changed already and is not rolled back. */
  function Persist<T>(node: Node, db: Durable, w: Writes, value: T): Outcome<T> {
    if node.term.None? then Outcome(node, db, false, Err(Aborted))
    else if NoWrites(w) then Outcome(node, db, false, Ok(value))
    else if FencePasses(node, db) then
      Outcome(node.(targetsLoaded := true), ApplyWrites(db, w), true, Ok(value))
    else Outcome(node, db, false, Err(Aborted))
  }

  function DirtyEntries(targets: Targets, dirty: set<Id>): Targets {
    map t | t in targets && t in dirty :: targets[t]
  }

  // ---- operations ----

  /** Records a planned batch: `after` are the targets with the batch's granules taken. */
  function ReserveOp(node: Node, db: Durable, after: Targets, dirty: set<Id>, recs: seq<Record>): Outcome<seq<Record>> {
    var mem := node.mem.(targets := after, reservations := InsertAll(node.mem.reservations, recs));
    Persist(node.(mem := mem), db, Writes(DirtyEntries(after, dirty), recs, []), recs)
  }

  /** A refill pushes the new reservations onto a bin, but only once they are durable. */
  function TopUpOp(node: Node, db: Durable, bin: Id, after: Targets, dirty: set<Id>, recs: seq<Record>): Outcome<seq<Record>> {
    var o := ReserveOp(node, db, after, dirty, recs);
    if o.reply.Err? then o
    else
      var queue := if bin in o.node.mem.bins then o.node.mem.bins[bin] else [];
      o.(node := o.node.(mem := o.node.mem.(bins := o.node.mem.bins[bin := queue + IdsOf(recs)])))
  }

  function ClaimOp(node: Node, db: Durable, bin: Id, want: nat, now: nat, ttl: nat): Outcome<seq<Record>> {
    var (mem, claimed) := ClaimFrom(node.mem, bin, want, now, ttl);
    if claimed == [] then Outcome(node.(mem := mem), db, false, Ok([]))
    else Persist(node.(mem := mem), db, Writes(map[], claimed, []), claimed)
  }

  function BatchWrites(b: Batch): Writes {
    if b.ok then Writes(DirtyEntries(b.mem.targets, b.dirty), b.sets, b.deletes) else NO_WRITES
  }

  function SettleBatch(node: Node, db: Durable, b: Batch): Outcome<seq<Record>> {
    if !b.ok then Outcome(node.(mem := b.mem), db, false, Err(b.failure))
    else Persist(node.(mem := b.mem), db, Writes(DirtyEntries(b.mem.targets, b.dirty), b.sets, b.deletes), b.results)
  }

  function MutateOp(node: Node, db: Durable, ms: seq<Mutation>, kind: MutationKind, committed: set<Granule>): Outcome<seq<Record>> {
    if ms == [] then Outcome(node, db, false, Ok([]))
    else SettleBatch(node, db, ApplyMutations(node.mem, ms, kind, committed))
  }

  /** Finalize tries the metadata-only path first. */
  function FinalizeOp(node: Node, db: Durable, ms: seq<Mutation>): Outcome<seq<Record>> {
    if ms == [] then Outcome(node, db, false, Ok([]))
    else
      match TryFinalize(node.mem, ms)
      case Taken(b) => SettleBatch(node, db, b)
      case Refused => Outcome(node, db, false, Err(InvalidArgument))
      case NotTaken => MutateOp(node, db, ms, Finalize, {})
  }

  function ReclaimOp(node: Node, db: Durable, xs: seq<Granule>): Outcome<nat> {
    if xs == [] then Outcome(node, db, false, Ok(0))
    else
      var r := ReclaimAll(node.mem.targets, xs);
      var node' := node.(mem := node.mem.(targets := r.targets));
      if !r.ok then Outcome(node', db, false, Err(r.failure))
      else Persist(node', db, Writes(DirtyEntries(r.targets, r.dirty), [], []), r.count)
  }

  /** The reaper reads the commit markers of its candidates before it releases anything. */
  function ExpireOp(node: Node, db: Durable, ids: seq<Id>): Outcome<seq<Record>> {
    MutateOp(node, db, ReleaseWhole(ids), Release, db.markers * Candidates(node.mem.reservations, ids))
  }
}
