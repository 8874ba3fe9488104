/** How a persist cuts its write units into transactions. */
module Batching {

  const MAX_TXN_BYTES: nat := 4 * 1024 * 1024

  /** The bytes of units `i` up to `j`. */
  function SumBytes(sizes: seq<nat>, i: nat, j: nat): nat
    requires i <= j <= |sizes|
  {
    if i == j then 0 else SumBytes(sizes, i, j - 1) + sizes[j - 1]
  }

  lemma {:induction false} SumPart(sizes: seq<nat>, i: nat, j: nat)
    requires i <= j <= |sizes|
    ensures SumBytes(sizes, i, j) <= SumBytes(sizes, 0, j) <= SumBytes(sizes, 0, |sizes|)
    decreases |sizes| - i, j
  {
    SumGrows(sizes, j, |sizes|);
    if i < j {
      SumPart(sizes, i, j - 1);
    }
  }

  lemma {:induction false} SumGrows(sizes: seq<nat>, j: nat, k: nat)
    requires j <= k <= |sizes|
    ensures SumBytes(sizes, 0, j) <= SumBytes(sizes, 0, k)
  {
    if j < k {
      SumGrows(sizes, j, k - 1);
    }
  }

  /** Where the open batch begins once `i` units have been added: a unit that does not fit opens a new one. */
  function BatchStart(sizes: seq<nat>, i: nat): (s: nat)
    requires i <= |sizes|
    ensures s <= i && (i > 0 ==> s < i)
  {
    if i == 0 then 0
    else
      var s := BatchStart(sizes, i - 1);
      if s < i - 1 && SumBytes(sizes, s, i - 1) + sizes[i - 1] > MAX_TXN_BYTES then i - 1 else s
  }

  /** A persist can stop only before its first commit, between two of them, or after the last. */
  predicate Boundary(sizes: seq<nat>, n: nat) {
    n == 0 || n == |sizes| || (n < |sizes| && BatchStart(sizes, n + 1) == n)
  }

  predicate SameBatch(sizes: seq<nat>, i: nat, j: nat)
    requires i < |sizes| && j < |sizes|
  {
    BatchStart(sizes, i + 1) == BatchStart(sizes, j + 1)
  }

  lemma {:induction false} StartRises(sizes: seq<nat>, i: nat, j: nat)
    requires i <= j <= |sizes|
    ensures BatchStart(sizes, i) <= BatchStart(sizes, j)
  {
    if i < j {
      StartRises(sizes, i, j - 1);
    }
  }

  lemma {:induction false} StartIsBoundary(sizes: seq<nat>, i: nat)
    requires i <= |sizes|
    ensures Boundary(sizes, BatchStart(sizes, i))
  {
    if i > 0 {
      StartIsBoundary(sizes, i - 1);
    }
  }

  /** Two units are committed together exactly when no stop lies between them. */
  lemma SameBatchIff(sizes: seq<nat>, i: nat, j: nat)
    requires i <= j < |sizes|
    ensures SameBatch(sizes, i, j) <==> forall n :: i < n <= j ==> !Boundary(sizes, n)
  {
    var s := BatchStart(sizes, j + 1);
    StartRises(sizes, i + 1, j + 1);
    if s <= i {
      StartReaches(sizes, i, j);
    } else {
      StartIsBoundary(sizes, j + 1);
    }
    forall n | i < n <= j && Boundary(sizes, n) ensures !SameBatch(sizes, i, j) {
      StartRises(sizes, n + 1, j + 1);
    }
  }

  lemma {:induction false} StartReaches(sizes: seq<nat>, i: nat, j: nat)
    requires i <= j < |sizes| && BatchStart(sizes, j + 1) <= i
    ensures BatchStart(sizes, i + 1) == BatchStart(sizes, j + 1)
  {
    if i < j {
      StartReaches(sizes, i, j - 1);
    }
  }

  /** Units that fit one transaction are committed in one: the persist stops before it or after it. */
  lemma {:induction false} OneBatch(sizes: seq<nat>, i: nat)
    requires SumBytes(sizes, 0, |sizes|) <= MAX_TXN_BYTES && i <= |sizes|
    ensures BatchStart(sizes, i) == 0
  {
    if i > 0 {
      OneBatch(sizes, i - 1);
      SumGrows(sizes, i, |sizes|);
    }
  }

  lemma OneBatchStops(sizes: seq<nat>, n: nat)
    requires SumBytes(sizes, 0, |sizes|) <= MAX_TXN_BYTES && Boundary(sizes, n)
    ensures n == 0 || n == |sizes|
  {
    if n < |sizes| {
      OneBatch(sizes, n + 1);
    }
  }
}
