/** When the lease is granted: never while another process's lease is live, and always otherwise. */
module Grants {
  import opened Common
  import opened Leader
  import opened Cluster
  import opened Runs

  /** Another process holds a lease that has not run out at the clock reading `now`. */
  predicate HeldByOther(db: Durable, me: Id, now: nat) {
    db.lease.Some? && db.lease.value.owner != me && db.lease.value.expiresAt > now
  }

  /** The epoch of a grant: the first one, the holder's own, or the next one after a lease that has run out. */
  function GrantedEpoch(db: Durable, now: nat): nat {
    if db.lease.None? then 1
    else if db.lease.value.expiresAt > now then db.lease.value.epoch
    else Min(db.lease.value.epoch + 1, U64_MAX)
  }

  /** A grant is refused exactly when another process's lease is live; a granted one runs for 30 seconds. */
  lemma GrantIff(db: Durable, me: Id, now: nat)
    ensures var (db', granted) := TryAcquire(db, me, now);
      if HeldByOther(db, me, now) then db' == db && granted == None
      else
        && granted == Some(GrantedEpoch(db, now))
        && db' == db.(lease := Some(Lease(me, Min(now + 30_000, U64_MAX), GrantedEpoch(db, now))))
  {
  }

  /**
   * While another process's lease is live, asking for it changes nothing in the database and grants
   * nothing; a process without a term is told so, and one with a term gives it up.
   */
  lemma LiveLeaseRefuses(me: Id, node: Node, db: Durable, clock: Clock, rpc: Rpc)
    requires HeldByOther(db, me, clock.grant)
    ensures var e := Renew(me, node, db, clock, rpc);
      && e.db == db && e.granted == None
      && (node.term.None? ==> e.node.term.None? && e.reply == if rpc.Answered? then Ok(false) else Err(Unavailable))
      && (node.term.Some? && node.term.value.expiresAt <= clock.check + 15_000 ==>
           && e.node.term.None? && !e.node.targetsLoaded && !e.node.reservationsLoaded
           && e.reply == if rpc.Answered? then Err(Aborted) else Err(Unavailable))
  {
    GrantIff(db, me, clock.grant);
  }

  /** With more than half of its term left a process does not ask at all. */
  lemma FreshTermWaits(me: Id, node: Node, db: Durable, clock: Clock, rpc: Rpc)
    requires node.term.Some? && node.term.value.expiresAt > clock.check + 15_000
    ensures Renew(me, node, db, clock, rpc) == Election(node, db, None, Ok(true))
  {
  }

  /** Without a term, and with no live lease of another process, an answered call makes the process leader. */
  lemma FreeLeaseGrants(me: Id, node: Node, db: Durable, clock: Clock)
    requires node.term.None? && !HeldByOther(db, me, clock.grant)
    ensures var e, epoch := Renew(me, node, db, clock, Answered), GrantedEpoch(db, clock.grant);
      && e.reply == Ok(true) && e.granted == Some(epoch)
      && e.db.lease == Some(Lease(me, Min(clock.grant + 30_000, U64_MAX), epoch))
      && e.node.term == Some(Term(epoch, Min(clock.after + 30_000, U64_MAX)))
      && !e.node.targetsLoaded && !e.node.reservationsLoaded
  {
    GrantIff(db, me, clock.grant);
  }

  /** A process that asks under a term keeps it exactly when it is granted the same epoch again. */
  lemma TermKeptIff(me: Id, node: Node, db: Durable, clock: Clock, rpc: Rpc)
    requires node.term.Some? && node.term.value.expiresAt <= clock.check + 15_000
    ensures var e, epoch := Renew(me, node, db, clock, rpc), node.term.value.epoch;
      && (e.reply.Ok? <==> rpc.Answered? && !HeldByOther(db, me, clock.grant) && GrantedEpoch(db, clock.grant) == epoch)
      && (e.reply.Ok? ==> e.node == node.(term := Some(Term(epoch, Min(clock.after + 30_000, U64_MAX)))))
      && (e.reply.Err? ==> e.node.term.None? && !e.node.targetsLoaded && !e.node.reservationsLoaded)
  {
    GrantIff(db, me, clock.grant);
  }

  // ---- over runs ----

  lemma LeaseStep(c: Cluster, s: Step)
    requires Enabled(c, s)
    ensures s.Renewal? ==> Do(c, s).db == Renew(s.n, c.nodes[s.n], c.db, s.clock, s.rpc).db
    ensures !s.Renewal? ==> Do(c, s).db.lease == c.db.lease
  {
    if Operation(s) {
      OperationKeepsLease(c, s);
    }
  }

  lemma GrantStep(c: Cluster, s: Step, m: Id, e: nat)
    requires Enabled(c, s) && Do(c, s).log == c.log + [Granted(m, e)]
    ensures s.Renewal? && s.n == m && Renew(m, c.nodes[m], c.db, s.clock, s.rpc).granted == Some(e)
  {
    assert Do(c, s).log[|c.log|] == Granted(m, e);
  }

  /**
   * In every run, a grant is recorded as the lease, for 30 seconds from the grant reading, and the lease
   * of any other process before it had run out at that reading.
   */
  lemma GrantWaitsForExpiry(cs: seq<Cluster>, steps: seq<Step>, i: nat, m: Id, e: nat)
    requires Run(cs, steps) && i < |steps| && cs[i + 1].log == cs[i].log + [Granted(m, e)]
    ensures steps[i].Renewal? && steps[i].n == m
    ensures var now, lease := steps[i].clock.grant, cs[i].db.lease;
      && cs[i + 1].db.lease == Some(Lease(m, Min(now + 30_000, U64_MAX), e))
      && (lease.Some? && lease.value.owner != m ==> lease.value.expiresAt <= now)
  {
    assert Next(cs[i], steps[i], cs[i + 1]);
    GrantStep(cs[i], steps[i], m, e);
    GrantIff(cs[i].db, m, steps[i].clock.grant);
  }

  /** No grant reading at step `k` is past the end of the lease that is recorded then. */
  ghost predicate ReadsBeforeExpiry(c: Cluster, s: Step) {
    s.Renewal? && c.db.lease.Some? ==> s.clock.grant < c.db.lease.value.expiresAt
  }

  /** As long as nobody reads a clock past its end, a lease keeps its owner and its epoch. */
  lemma {:induction false} LeaseStands(cs: seq<Cluster>, steps: seq<Step>, i: nat, j: nat)
    requires Run(cs, steps) && i <= j < |cs| && cs[i].db.lease.Some?
    requires forall k :: i <= k < j ==> ReadsBeforeExpiry(cs[k], steps[k])
    ensures var before, after := cs[i].db.lease, cs[j].db.lease;
      after.Some? && after.value.owner == before.value.owner && after.value.epoch == before.value.epoch
  {
    if i < j {
      LeaseStands(cs, steps, i, j - 1);
      assert Next(cs[j - 1], steps[j - 1], cs[j]);
      StandsNext(cs[j - 1], steps[j - 1]);
    }
  }

  lemma StandsNext(c: Cluster, s: Step)
    requires Enabled(c, s) && c.db.lease.Some? && ReadsBeforeExpiry(c, s)
    ensures var after := Do(c, s).db.lease;
      after.Some? && after.value.owner == c.db.lease.value.owner && after.value.epoch == c.db.lease.value.epoch
  {
    LeaseStep(c, s);
    if s.Renewal? {
      GrantIff(c.db, s.n, s.clock.grant);
    }
  }
}
