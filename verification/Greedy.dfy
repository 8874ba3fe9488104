/** The arithmetic of the greedy planner when every failure domain holds one target. */
module Greedy {
  import opened Common

  /** How many placements `heads` can supply to `rounds` reservations, one per round and head. */
  function Supply(heads: seq<nat>, rounds: nat): nat {
    if heads == [] then 0 else Min(heads[0], rounds) + Supply(heads[1..], rounds)
  }

  /** `rounds` reservations of `k` fragments fit into the supply. */
  predicate Feasible(heads: seq<nat>, k: nat, rounds: nat) {
    Supply(heads, rounds) >= k * rounds
  }

  function Positive(heads: seq<nat>): nat {
    if heads == [] then 0 else (if heads[0] > 0 then 1 else 0) + Positive(heads[1..])
  }

  ghost predicate Descending(heads: seq<nat>) {
    forall i, j :: 0 <= i < j < |heads| ==> heads[i] >= heads[j]
  }

  /** `after` is `before` with each of the first `k` heads used once. */
  ghost predicate TakesFirst(before: seq<nat>, after: seq<nat>, k: nat) {
    && |before| == |after|
    && k <= |before|
    && (forall i :: 0 <= i < k ==> before[i] == after[i] + 1)
    && (forall i :: k <= i < |before| ==> before[i] == after[i])
  }

  lemma {:induction false} SupplyWithout(heads: seq<nat>, i: nat, rounds: nat)
    requires i < |heads|
    ensures Supply(heads, rounds) == Min(heads[i], rounds) + Supply(heads[..i] + heads[i + 1..], rounds)
  {
    var rest := heads[..i] + heads[i + 1..];
    if i == 0 {
      assert rest == heads[1..];
    } else {
      SupplyWithout(heads[1..], i - 1, rounds);
      assert heads[1..][..i - 1] + heads[1..][i..] == rest[1..];
    }
  }

  /** The supply does not depend on the order of the heads. */
  lemma {:induction false} SupplyOfPermutation(s: seq<nat>, t: seq<nat>, rounds: nat)
    requires multiset(s) == multiset(t)
    ensures Supply(s, rounds) == Supply(t, rounds)
  {
    assert |multiset(s)| == |s| && |multiset(t)| == |t|;
    if s != [] {
      assert s[0] in multiset(t);
      var i :| 0 <= i < |t| && t[i] == s[0];
      RemoveMatching(s, t, i);
      SupplyOfPermutation(s[1..], t[..i] + t[i + 1..], rounds);
      SupplyWithout(t, i, rounds);
    }
  }

  lemma {:induction false} SupplyAtMost(heads: seq<nat>, rounds: nat)
    ensures Supply(heads, rounds) <= Positive(heads) * rounds
  {
    if heads != [] {
      SupplyAtMost(heads[1..], rounds);
      assert Positive(heads) == Positive(heads[1..]) + 1 ==>
        Positive(heads) * rounds == Positive(heads[1..]) * rounds + rounds;
    }
  }

  lemma TakesFirstTail(before: seq<nat>, after: seq<nat>, k: nat)
    requires TakesFirst(before, after, k) && before != []
    ensures TakesFirst(before[1..], after[1..], if k == 0 then 0 else k - 1)
  {
  }

  /** One round uses `k` placements and leaves the others for later rounds. */
  lemma {:induction false} RoundUses(before: seq<nat>, after: seq<nat>, k: nat, m: nat)
    requires TakesFirst(before, after, k)
    ensures Supply(before, m + 1) >= k + Supply(after, m)
  {
    if before != [] {
      TakesFirstTail(before, after, k);
      RoundUses(before[1..], after[1..], if k == 0 then 0 else k - 1, m);
    }
  }

  /** If no untouched head could have served every later round, the round costs exactly `k`. */
  lemma {:induction false} RoundUsesExactly(before: seq<nat>, after: seq<nat>, k: nat, m: nat)
    requires TakesFirst(before, after, k)
    requires forall i :: k <= i < |before| ==> before[i] <= m
    ensures Supply(before, m + 1) == k + Supply(after, m)
  {
    if before != [] {
      TakesFirstTail(before, after, k);
      RoundUsesExactly(before[1..], after[1..], if k == 0 then 0 else k - 1, m);
    }
  }

  /** Heads that can serve every round supply a full share each. */
  lemma {:induction false} FullShares(heads: seq<nat>, k: nat, m: nat)
    requires k <= |heads| && forall i :: 0 <= i < k ==> heads[i] >= m
    ensures Supply(heads, m) >= k * m
  {
    if k > 0 {
      FullShares(heads[1..], k - 1, m);
      assert k * m == (k - 1) * m + m;
    }
  }

  /** Using the `k` largest heads never spoils a schedule that was still possible. */
  lemma GreedyKeepsFeasible(before: seq<nat>, after: seq<nat>, k: nat, m: nat)
    requires TakesFirst(before, after, k) && Descending(before)
    requires Feasible(before, k, m + 1)
    ensures Feasible(after, k, m)
  {
    if k > 0 && before[k - 1] <= m {
      RoundUsesExactly(before, after, k, m);
      assert k * (m + 1) == k * m + k;
    } else {
      FullShares(after, k, m);
    }
  }

  /** What is known after `r` rounds that turned `start` into `now`. */
  ghost predicate Frontier(start: seq<nat>, now: seq<nat>, k: nat, r: nat) {
    && (forall m: nat :: Supply(start, r + m) >= k * r + Supply(now, m))
    && (forall m: nat :: Feasible(start, k, r + m) ==> Feasible(now, k, m))
  }

  lemma FrontierStart(start: seq<nat>, k: nat)
    ensures Frontier(start, start, k, 0)
  {
  }

  lemma FrontierPermuted(start: seq<nat>, now: seq<nat>, sorted: seq<nat>, k: nat, r: nat)
    requires Frontier(start, now, k, r) && multiset(now) == multiset(sorted)
    ensures Frontier(start, sorted, k, r)
  {
    forall m: nat
      ensures Supply(start, r + m) >= k * r + Supply(sorted, m)
      ensures Feasible(start, k, r + m) ==> Feasible(sorted, k, m)
    {
      SupplyOfPermutation(now, sorted, m);
      assert Feasible(start, k, r + m) ==> Feasible(now, k, m);
    }
  }

  lemma FrontierRound(start: seq<nat>, before: seq<nat>, after: seq<nat>, k: nat, r: nat)
    requires Frontier(start, before, k, r)
    requires TakesFirst(before, after, k) && Descending(before)
    ensures Frontier(start, after, k, r + 1)
  {
    assert k * (r + 1) == k * r + k;
    forall m: nat
      ensures Supply(start, r + 1 + m) >= k * (r + 1) + Supply(after, m)
      ensures Feasible(start, k, r + 1 + m) ==> Feasible(after, k, m)
    {
      assert r + 1 + m == r + (m + 1);
      RoundUses(before, after, k, m);
      if Feasible(start, k, r + (m + 1)) {
        GreedyKeepsFeasible(before, after, k, m);
      }
    }
  }

  /** The largest number of rounds, up to `batch`, that the supply suffices for. */
  ghost predicate Optimal(heads: seq<nat>, k: nat, batch: nat, rounds: nat) {
    && rounds <= batch
    && Feasible(heads, k, rounds)
    && forall more: nat :: rounds < more <= batch ==> !Feasible(heads, k, more)
  }

  lemma TooFewHeads(heads: seq<nat>, k: nat, m: nat)
    requires Positive(heads) < k && m > 0
    ensures !Feasible(heads, k, m)
  {
    SupplyAtMost(heads, m);
    LessTimes(Positive(heads), k, m);
  }

  lemma LessTimes(a: nat, b: nat, m: nat)
    requires a < b && m > 0
    ensures a * m < b * m
  {
  }

  /** A planner that stops only at the batch size or for want of heads is optimal. */
  lemma StopIsOptimal(start: seq<nat>, now: seq<nat>, k: nat, batch: nat, r: nat)
    requires Frontier(start, now, k, r) && r <= batch
    requires r == batch || Positive(now) < k
    ensures Optimal(start, k, batch, r)
  {
    assert Supply(start, r + 0) >= k * r + Supply(now, 0);
    forall more: nat | r < more <= batch ensures !Feasible(start, k, more) {
      TooFewHeads(now, k, more - r);
      assert !Feasible(start, k, r + (more - r));
    }
  }
}
