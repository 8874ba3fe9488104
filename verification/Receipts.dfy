/** What an answer is worth: `Ok` means that what it says is durable, and an error that nothing changed durably. */
module Receipts {
  import opened Common
  import opened Records
  import opened Allocator
  import opened Recycle
  import opened Leader
  import opened Cluster
  import opened Failover
  import opened Handout
  import opened Runs

  /**
   * `Ok` carries `value` and all of `w` is durable; an error leaves the database alone. Whoever passes the
   * fence gets `Ok`, and whoever does not, but has something to write, gets `Aborted`.
   */
  ghost predicate Acknowledged<T>(node: Node, db: Durable, w: Writes, value: T, o: Outcome<T>) {
    && (o.reply.Ok? ==> o.reply.value == value && o.db == ApplyWrites(db, w))
    && (o.reply.Err? ==> o.db == db)
    && (FencePasses(node, db) ==> o.reply.Ok?)
    && (!FencePasses(node, db) && !NoWrites(w) ==> o.reply == Err(Aborted))
  }

  lemma PersistAcknowledged<T>(node: Node, db: Durable, w: Writes, value: T)
    ensures Acknowledged(node, db, w, value, Persist(node, db, w, value))
  {
    NothingWritten(db, w);
  }

  // ---- reserving ----

  lemma ReserveAcknowledged(node: Node, db: Durable, after: Targets, dirty: set<Id>, recs: seq<Record>)
    ensures Acknowledged(node, db, Writes(DirtyEntries(after, dirty), recs, []), recs, ReserveOp(node, db, after, dirty, recs))
  {
    var mem := node.mem.(targets := after, reservations := InsertAll(node.mem.reservations, recs));
    PersistAcknowledged(node.(mem := mem), db, Writes(DirtyEntries(after, dirty), recs, []), recs);
  }

  /** A refill queues the new ids, in order and behind those that wait, exactly when it answers `Ok`. */
  lemma TopUpAcknowledged(node: Node, db: Durable, bin: Id, after: Targets, dirty: set<Id>, recs: seq<Record>)
    ensures var o := TopUpOp(node, db, bin, after, dirty, recs);
      && Acknowledged(node, db, Writes(DirtyEntries(after, dirty), recs, []), recs, o)
      && o.node.mem.bins == if o.reply.Ok? then node.mem.bins[bin := QueueIn(node.mem.bins, bin) + IdsOf(recs)] else node.mem.bins
  {
    ReserveAcknowledged(node, db, after, dirty, recs);
  }

  /** Every record is durable as it stands, and its granules are in no other reservation and not free. */
  ghost predicate AllDurable(db: Durable, recs: seq<Record>) {
    forall r :: r in recs ==> r.id in db.reservations && db.reservations[r.id] == r && Apart(db, r)
  }

  lemma InsertedDurably(db: Durable, w: Writes, r: Record)
    requires r in w.sets && NoDup(IdsOf(w.sets)) && w.deletes == []
    ensures var db' := ApplyWrites(db, w);
      r.id in db'.reservations && db'.reservations[r.id] == r
  {
    InsertedLast(db.reservations, w.sets, r);
    NoDeletes(InsertAll(db.reservations, w.sets));
  }

  lemma InsertedAll(db: Durable, w: Writes)
    requires NoDup(IdsOf(w.sets)) && w.deletes == [] && DurableSound(ApplyWrites(db, w))
    ensures AllDurable(ApplyWrites(db, w), w.sets)
  {
    forall r | r in w.sets
      ensures r.id in ApplyWrites(db, w).reservations && ApplyWrites(db, w).reservations[r.id] == r && Apart(ApplyWrites(db, w), r)
    {
      InsertedDurably(db, w, r);
      LiveApart(ApplyWrites(db, w), r.id);
    }
  }

  /** What an operation that plans `recs` answers, in the state before it and the one after it. */
  ghost predicate ReserveReceipt(c: Cluster, n: Id, recs: seq<Record>, reply: Result<seq<Record>>, c': Cluster) {
    && (reply.Ok? ==> reply.value == recs && AllDurable(c'.db, recs))
    && (reply.Err? ==> c'.db == c.db)
    && (Holds(c, n) ==> reply.Ok?)
    && (!Holds(c, n) && recs != [] ==> reply == Err(Aborted))
  }

  /** In every run, a reserve that answers `Ok` has made its whole batch durable, and a fenced one answers `Aborted`. */
  lemma ReservedIsDurable(cs: seq<Cluster>, steps: seq<Step>, i: nat)
    requires Run(cs, steps) && |steps| < U64_MAX && i < |steps| && steps[i].Reserving?
    ensures var s := steps[i];
      s.n in cs[i].nodes
      && ReserveReceipt(cs[i], s.n, s.recs, ReserveOp(cs[i].nodes[s.n], cs[i].db, s.after, s.dirty, s.recs).reply, cs[i + 1])
  {
    RunKeeps(cs, steps, i + 1);
    assert Next(cs[i], steps[i], cs[i + 1]);
    ReserveNext(cs[i], steps[i]);
  }

  lemma ReserveNext(c: Cluster, s: Step)
    requires Enabled(c, s) && s.Reserving? && DurableSound(Do(c, s).db)
    ensures ReserveReceipt(c, s.n, s.recs, ReserveOp(c.nodes[s.n], c.db, s.after, s.dirty, s.recs).reply, Do(c, s))
  {
    ReserveAcknowledged(c.nodes[s.n], c.db, s.after, s.dirty, s.recs);
    if ReserveOp(c.nodes[s.n], c.db, s.after, s.dirty, s.recs).reply.Ok? {
      InsertedAll(c.db, Writes(DirtyEntries(s.after, s.dirty), s.recs, []));
    }
  }

  /** The same for a refill; and only what is durable is queued. */
  lemma RefilledIsDurable(cs: seq<Cluster>, steps: seq<Step>, i: nat)
    requires Run(cs, steps) && |steps| < U64_MAX && i < |steps| && steps[i].Refilling?
    ensures var s := steps[i];
      && s.n in cs[i].nodes && s.n in cs[i + 1].nodes
      && var reply := TopUpOp(cs[i].nodes[s.n], cs[i].db, s.bin, s.after, s.dirty, s.recs).reply;
      var bins := cs[i].nodes[s.n].mem.bins;
      && ReserveReceipt(cs[i], s.n, s.recs, reply, cs[i + 1])
      && cs[i + 1].nodes[s.n].mem.bins == if reply.Ok? then bins[s.bin := QueueIn(bins, s.bin) + IdsOf(s.recs)] else bins
  {
    RunKeeps(cs, steps, i + 1);
    assert Next(cs[i], steps[i], cs[i + 1]);
    RefillNext(cs[i], steps[i]);
  }

  lemma RefillNext(c: Cluster, s: Step)
    requires Enabled(c, s) && s.Refilling? && DurableSound(Do(c, s).db)
    ensures ReserveReceipt(c, s.n, s.recs, TopUpOp(c.nodes[s.n], c.db, s.bin, s.after, s.dirty, s.recs).reply, Do(c, s))
    ensures var reply, bins := TopUpOp(c.nodes[s.n], c.db, s.bin, s.after, s.dirty, s.recs).reply, c.nodes[s.n].mem.bins;
      Do(c, s).nodes[s.n].mem.bins == if reply.Ok? then bins[s.bin := QueueIn(bins, s.bin) + IdsOf(s.recs)] else bins
  {
    TopUpAcknowledged(c.nodes[s.n], c.db, s.bin, s.after, s.dirty, s.recs);
    if TopUpOp(c.nodes[s.n], c.db, s.bin, s.after, s.dirty, s.recs).reply.Ok? {
      InsertedAll(c.db, Writes(DirtyEntries(s.after, s.dirty), s.recs, []));
    }
  }

  // ---- claiming ----

  lemma ClaimAcknowledged(node: Node, db: Durable, bin: Id, want: nat, now: nat, ttl: nat)
    ensures var claimed := ClaimFrom(node.mem, bin, want, now, ttl).1;
      Acknowledged(node, db, Writes(map[], claimed, []), claimed, ClaimOp(node, db, bin, want, now, ttl))
  {
    var (mem, claimed) := ClaimFrom(node.mem, bin, want, now, ttl);
    NothingWritten(db, Writes(map[], claimed, []));
    PersistAcknowledged(node.(mem := mem), db, Writes(map[], claimed, []), claimed);
  }

  /**
   * In every run, a claim at the holder answers with the first live reservations of the bin, all of them
   * durable with their new expiry, and leaves the rest waiting. At any other process a claim answers
   * `Aborted`, or with nothing, and makes nothing durable.
   */
  lemma ClaimedIsDurable(cs: seq<Cluster>, steps: seq<Step>, i: nat)
    requires Run(cs, steps) && |steps| < U64_MAX && i < |steps| && steps[i].Claiming?
    ensures var s := steps[i];
      && s.n in cs[i].nodes && s.n in cs[i + 1].nodes
      && var reply, mem := ClaimOp(cs[i].nodes[s.n], cs[i].db, s.bin, s.want, s.now, s.ttl).reply, cs[i].nodes[s.n].mem;
      && (Holds(cs[i], s.n) ==>
           && reply.Ok? && AllDurable(cs[i + 1].db, reply.value)
           && Serves(QueueIn(mem.bins, s.bin), mem.reservations, s.want, s.now, s.ttl, reply.value,
                     QueueIn(cs[i + 1].nodes[s.n].mem.bins, s.bin)))
      && (!Holds(cs[i], s.n) ==> cs[i + 1].db == cs[i].db && (reply == Ok([]) || reply == Err(Aborted)))
  {
    RunKeeps(cs, steps, i);
    RunKeeps(cs, steps, i + 1);
    assert Next(cs[i], steps[i], cs[i + 1]);
    var s := steps[i];
    if Holds(cs[i], s.n) {
      HolderClaims(cs[i], s);
    }
    FencedClaim(cs[i].nodes[s.n], cs[i].db, s.bin, s.want, s.now, s.ttl);
  }

  lemma FencedClaim(node: Node, db: Durable, bin: Id, want: nat, now: nat, ttl: nat)
    ensures var o := ClaimOp(node, db, bin, want, now, ttl);
      !FencePasses(node, db) ==> o.db == db && (o.reply == Ok([]) || o.reply == Err(Aborted))
  {
    ClaimAcknowledged(node, db, bin, want, now, ttl);
  }

  lemma HolderClaims(c: Cluster, s: Step)
    requires Inv(c) && Enabled(c, s) && s.Claiming? && Holds(c, s.n) && DurableSound(Do(c, s).db)
    ensures var reply, mem := ClaimOp(c.nodes[s.n], c.db, s.bin, s.want, s.now, s.ttl).reply, c.nodes[s.n].mem;
      && reply.Ok? && AllDurable(Do(c, s).db, reply.value)
      && Serves(QueueIn(mem.bins, s.bin), mem.reservations, s.want, s.now, s.ttl, reply.value,
                QueueIn(Do(c, s).nodes[s.n].mem.bins, s.bin))
  {
    var node := c.nodes[s.n];
    var claimed := ClaimFrom(node.mem, s.bin, s.want, s.now, s.ttl).1;
    assert Covers(node, c.db);
    SubmapSound(node.mem.targets, node.mem.reservations, c.db.reservations);
    ClaimMeaning(node.mem, s.bin, s.want, s.now, s.ttl);
    ClaimAcknowledged(node, c.db, s.bin, s.want, s.now, s.ttl);
    ClaimTakes(node.mem, s.bin, s.want, s.now, s.ttl);
    InsertedAll(c.db, Writes(map[], claimed, []));
  }
}
