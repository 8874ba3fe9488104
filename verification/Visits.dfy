/**
 * The order in which a reclaim visits its granules. The caller's list is grouped by target into a hash
 * map: each target's granules keep their order, and the targets come in any order.
 */
module Visits {
  import opened Common
  import opened Records
  import opened Allocator
  import opened Recycle

  function TargetsIn(xs: seq<Granule>): set<Id> {
    set x | x in xs :: x.0
  }

  /** The granules of one target, in the caller's order. */
  function Block(xs: seq<Granule>, t: Id): seq<Granule> {
    if xs == [] then []
    else Block(xs[..|xs| - 1], t) + if xs[|xs| - 1].0 == t then [xs[|xs| - 1]] else []
  }

  function Blocks(xs: seq<Granule>, ts: seq<Id>): seq<Granule> {
    if ts == [] then [] else Blocks(xs, ts[..|ts| - 1]) + Block(xs, ts[|ts| - 1])
  }

  ghost predicate Lists(ts: seq<Id>, s: set<Id>) {
    NoDup(ts) && Elems(ts) == s
  }

  /** One block for each target named, in some order. */
  ghost predicate VisitOrder(xs: seq<Granule>, order: seq<Granule>) {
    exists ts :: Lists(ts, TargetsIn(xs)) && order == Blocks(xs, ts)
  }

  /** Granule `i` is in range, and so is every granule named before it on its target. */
  ghost predicate ReachedAt(targets: Targets, xs: seq<Granule>, i: nat) {
    i < |xs| && forall k :: 0 <= k <= i && xs[k].0 == xs[i].0 ==> InRange(targets, xs[k])
  }

  /** Some order of the targets gets to `x`. */
  ghost predicate Reaches(targets: Targets, xs: seq<Granule>, x: Granule) {
    exists i: nat :: ReachedAt(targets, xs, i) && xs[i] == x
  }

  // ---- blocks ----

  lemma {:induction false} BlockMember(xs: seq<Granule>, t: Id, x: Granule)
    ensures x in Block(xs, t) <==> x in xs && x.0 == t
  {
    if xs != [] {
      BlockMember(xs[..|xs| - 1], t, x);
      assert xs == xs[..|xs| - 1] + [xs[|xs| - 1]];
    }
  }

  lemma {:induction false} BlocksMember(xs: seq<Granule>, ts: seq<Id>, x: Granule)
    ensures x in Blocks(xs, ts) <==> x in xs && x.0 in ts
  {
    if ts != [] {
      BlocksMember(xs, ts[..|ts| - 1], x);
      BlockMember(xs, ts[|ts| - 1], x);
      assert ts == ts[..|ts| - 1] + [ts[|ts| - 1]];
    }
  }

  lemma {:induction false} BlocksConcat(xs: seq<Granule>, a: seq<Id>, b: seq<Id>)
    ensures Blocks(xs, a + b) == Blocks(xs, a) + Blocks(xs, b)
  {
    if b == [] {
      assert a + b == a;
    } else {
      BlocksConcat(xs, a, b[..|b| - 1]);
      assert (a + b)[..|a + b| - 1] == a + b[..|b| - 1];
    }
  }

  lemma BlocksOne(xs: seq<Granule>, t: Id)
    ensures Blocks(xs, [t]) == Block(xs, t)
  {
    assert [t][..0] == [];
  }

  /** A visiting order names the caller's granules. */
  lemma OrderMembers(xs: seq<Granule>, order: seq<Granule>)
    requires VisitOrder(xs, order)
    ensures forall x :: x in order <==> x in xs
    ensures xs != [] ==> order != []
  {
    var ts :| Lists(ts, TargetsIn(xs)) && order == Blocks(xs, ts);
    forall x ensures x in order <==> x in xs {
      BlocksMember(xs, ts, x);
      assert x in xs ==> x.0 in TargetsIn(xs) && x.0 in Elems(ts);
    }
    if xs != [] {
      assert xs[0] in order;
    }
  }

  lemma {:induction false} ListSet(s: set<Id>) returns (ts: seq<Id>)
    ensures Lists(ts, s)
    decreases s
  {
    if s == {} {
      ts := [];
    } else {
      var t :| t in s;
      var rest := ListSet(s - {t});
      assert forall u :: u in rest ==> u in Elems(rest);
      ts := rest + [t];
      ElemsSnoc(rest, t);
    }
  }

  // ---- what is visited ----

  lemma {:induction false} VisitedConcat(targets: Targets, a: seq<Granule>, b: seq<Granule>)
    ensures Visited(targets, a + b) ==
      if |Visited(targets, a)| == |a| then a + Visited(targets, b) else Visited(targets, a)
  {
    VisitedPrefix(targets, a);
    if b == [] {
      assert a + b == a;
    } else {
      var front := b[..|b| - 1];
      VisitedConcat(targets, a, front);
      VisitedPrefix(targets, a + front);
      VisitedPrefix(targets, front);
      assert (a + b)[..|a + b| - 1] == a + front;
      assert a + b == a + front + [b[|b| - 1]];
    }
  }

  lemma WholeVisited(targets: Targets, xs: seq<Granule>)
    ensures |Visited(targets, xs)| == |xs| <==> forall x :: x in xs ==> InRange(targets, x)
  {
    VisitedPrefix(targets, xs);
    var n := |Visited(targets, xs)|;
    if n < |xs| {
      assert xs[n] in xs;
    }
  }

  /** What is visited in the order of the targets is visited in its own block. */
  lemma {:induction false} VisitedInBlock(targets: Targets, xs: seq<Granule>, ts: seq<Id>, x: Granule)
    requires x in Visited(targets, Blocks(xs, ts))
    ensures x in Visited(targets, Block(xs, x.0))
  {
    var front, t := ts[..|ts| - 1], ts[|ts| - 1];
    VisitedConcat(targets, Blocks(xs, front), Block(xs, t));
    VisitedPrefix(targets, Blocks(xs, front));
    if x in Visited(targets, Blocks(xs, front)) {
      VisitedInBlock(targets, xs, front, x);
    } else {
      VisitedPrefix(targets, Block(xs, t));
      assert x in Block(xs, t);
      BlockMember(xs, t, x);
    }
  }

  lemma VisitedNext(targets: Targets, block: seq<Granule>, last: Granule, x: Granule)
    ensures x in Visited(targets, block + [last]) <==>
      || x in Visited(targets, block)
      || (x == last && InRange(targets, last) && forall y :: y in block ==> InRange(targets, y))
  {
    assert (block + [last])[..|block|] == block;
    WholeVisited(targets, block);
    VisitedPrefix(targets, block);
    if |Visited(targets, block)| == |block| {
      assert Visited(targets, block) == block;
    }
  }

  /** A target's own block, visited first, gets to exactly what some order gets to. */
  lemma {:induction false} ReachesIff(targets: Targets, xs: seq<Granule>, x: Granule)
    ensures Reaches(targets, xs, x) <==> x in Visited(targets, Block(xs, x.0))
  {
    if xs != [] {
      var front, last := xs[..|xs| - 1], xs[|xs| - 1];
      assert xs == front + [last];
      ReachesIff(targets, front, x);
      ReachesNext(targets, front, last, x);
      BlockInRange(targets, front, x.0);
      if last.0 == x.0 {
        assert Block(xs, x.0) == Block(front, x.0) + [last];
        VisitedNext(targets, Block(front, x.0), last, x);
      } else {
        assert Block(xs, x.0) == Block(front, x.0);
      }
    } else {
      assert Block(xs, x.0) == [] && Visited(targets, []) == [];
    }
  }

  lemma BlockInRange(targets: Targets, xs: seq<Granule>, t: Id)
    ensures (forall y :: y in Block(xs, t) ==> InRange(targets, y)) <==>
      forall k :: 0 <= k < |xs| && xs[k].0 == t ==> InRange(targets, xs[k])
  {
    forall y ensures y in Block(xs, t) <==> y in xs && y.0 == t {
      BlockMember(xs, t, y);
    }
    assert forall k :: 0 <= k < |xs| ==> xs[k] in xs;
  }

  lemma ReachedBefore(targets: Targets, front: seq<Granule>, last: Granule, i: nat)
    requires i < |front|
    ensures ReachedAt(targets, front + [last], i) <==> ReachedAt(targets, front, i)
  {
    var xs := front + [last];
    if ReachedAt(targets, front, i) {
      forall k | 0 <= k <= i && xs[k].0 == xs[i].0 ensures InRange(targets, xs[k]) {
        assert xs[k] == front[k] && front[k].0 == front[i].0;
      }
    }
    if ReachedAt(targets, xs, i) {
      forall k | 0 <= k <= i && front[k].0 == front[i].0 ensures InRange(targets, front[k]) {
        assert xs[k] == front[k] && xs[k].0 == xs[i].0;
      }
    }
  }

  lemma ReachedLast(targets: Targets, front: seq<Granule>, last: Granule)
    ensures ReachedAt(targets, front + [last], |front|) <==>
      InRange(targets, last) && forall k :: 0 <= k < |front| && front[k].0 == last.0 ==> InRange(targets, front[k])
  {
    var xs := front + [last];
    assert xs[|front|] == last;
    if ReachedAt(targets, xs, |front|) {
      forall k | 0 <= k < |front| && front[k].0 == last.0 ensures InRange(targets, front[k]) {
        assert xs[k] == front[k] && xs[k].0 == xs[|front|].0;
      }
    } else {
      var k :| 0 <= k <= |front| && xs[k].0 == xs[|front|].0 && !InRange(targets, xs[k]);
      assert k < |front| ==> xs[k] == front[k];
    }
  }

  lemma ReachesNext(targets: Targets, front: seq<Granule>, last: Granule, x: Granule)
    ensures Reaches(targets, front + [last], x) <==>
      || Reaches(targets, front, x)
      || (x == last && InRange(targets, last) && forall k :: 0 <= k < |front| && front[k].0 == x.0 ==> InRange(targets, front[k]))
  {
    var xs := front + [last];
    assert forall k :: 0 <= k < |front| ==> xs[k] == front[k];
    ReachedLast(targets, front, last);
    forall i: nat | i < |front| ensures ReachedAt(targets, xs, i) <==> ReachedAt(targets, front, i) {
      ReachedBefore(targets, front, last, i);
    }
    if Reaches(targets, front, x) {
      var i: nat :| ReachedAt(targets, front, i) && front[i] == x;
      assert ReachedAt(targets, xs, i) && xs[i] == x;
    }
    if Reaches(targets, xs, x) {
      var i: nat :| ReachedAt(targets, xs, i) && xs[i] == x;
      assert i < |front| ==> ReachedAt(targets, front, i) && front[i] == x;
    }
    if x == last && ReachedAt(targets, xs, |front|) {
      assert xs[|front|] == x;
    }
  }

  /** Whatever the order of the targets, only reached granules are visited. */
  lemma VisitedIsReached(targets: Targets, xs: seq<Granule>, order: seq<Granule>, x: Granule)
    requires VisitOrder(xs, order) && x in Visited(targets, order)
    ensures Reaches(targets, xs, x)
  {
    var ts :| Lists(ts, TargetsIn(xs)) && order == Blocks(xs, ts);
    VisitedInBlock(targets, xs, ts, x);
    ReachesIff(targets, xs, x);
  }

  /** And for each of them there is an order that visits it: its target first. */
  lemma ReachedIsVisited(targets: Targets, xs: seq<Granule>, x: Granule) returns (order: seq<Granule>)
    requires Reaches(targets, xs, x)
    ensures VisitOrder(xs, order) && x in Visited(targets, order)
  {
    ReachesIff(targets, xs, x);
    assert x.0 in TargetsIn(xs) by {
      var i: nat :| ReachedAt(targets, xs, i) && xs[i] == x;
      assert x in xs;
    }
    var rest := ListAfter(x.0, TargetsIn(xs));
    order := Blocks(xs, [x.0] + rest);
    BlocksConcat(xs, [x.0], rest);
    BlocksOne(xs, x.0);
    VisitedConcat(targets, Block(xs, x.0), Blocks(xs, rest));
    VisitedPrefix(targets, Block(xs, x.0));
  }

  /** The targets that are named, with the one of a reached granule first. */
  lemma ListAfter(t: Id, s: set<Id>) returns (rest: seq<Id>)
    requires t in s
    ensures Lists([t] + rest, s)
  {
    rest := ListSet(s - {t});
    assert forall u :: u in rest ==> u in Elems(rest);
    NoDupConcat([t], rest);
    assert Elems([t] + rest) == {t} + Elems(rest);
  }

  // ---- what that means for the caller ----

  /** Reclaim does not look at reservations: it is safe, in whatever order, exactly when it reaches no reserved granule. */
  lemma ReclaimSoundIff(targets: Targets, res: Reservations, xs: seq<Granule>)
    requires Sound(targets, res)
    ensures (forall order :: VisitOrder(xs, order) ==> Sound(ReclaimAll(targets, order).targets, res)) <==>
      forall id, x :: Reaches(targets, xs, x) ==> !HeldBy(res, id, x)
  {
    if id, x :| Reaches(targets, xs, x) && HeldBy(res, id, x) {
      var order := ReachedIsVisited(targets, xs, x);
      OrderSoundIff(targets, res, order);
    } else {
      forall order | VisitOrder(xs, order) ensures Sound(ReclaimAll(targets, order).targets, res) {
        forall x | x in Visited(targets, order) ensures Reaches(targets, xs, x) {
          VisitedIsReached(targets, xs, order, x);
        }
        OrderSoundIff(targets, res, order);
      }
    }
  }
}
