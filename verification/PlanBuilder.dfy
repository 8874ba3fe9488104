/** Building the decode plans, as the backend does once at start-up. */
module PlanBuilder {
  import opened Common
  import opened Galois
  import opened Linear
  import opened DecodePlans

  /** What is asked of the library's matrix inversion. */
  ghost predicate Inverts(f: Field, invert: Matrix -> Option<Matrix>) {
    forall s {:trigger invert(s)} :: |s| == K * K ==> Inverted(f, s, invert(s))
  }

  // ---- one decode row ----

  /** What the innermost loop has summed after `k` terms. */
  function ColumnTo(f: Field, c: Vector, t: Matrix, col: nat, k: nat): Octet
    requires |c| == K && |t| == K * K && col < K && k <= K
  {
    if k == 0 then ZERO else f.add(ColumnTo(f, c, t, col, k - 1), f.mul(t[(k - 1) * K + col], c[k - 1]))
  }

  lemma RowEntry(m: Matrix, r: nat, c: nat)
    requires (r + 1) * K <= |m| && c < K
    ensures Row(m, r)[c] == m[r * K + c]
  {
  }

  lemma {:induction false} ColumnIsCombination(f: Field, c: Vector, t: Matrix, col: nat, k: nat)
    requires Commutative(f) && |c| == K && |t| == K * K && col < K && k <= K
    ensures ColumnTo(f, c, t, col, k) == CombineTo(f, c, Rows(t), k)[col]
  {
    if k > 0 {
      ColumnIsCombination(f, c, t, col, k - 1);
      RowEntry(t, k - 1, col);
      assert Rows(t)[k - 1] == Row(t, k - 1);
    }
  }

  method ParityCoefficient(f: Field, t: Matrix, m: nat, column: nat) returns (value: Octet)
    requires Commutative(f) && |t| == K * K && m < TOTAL && column < K
    ensures value == Combine(f, GeneratorRow(f, m), Rows(t))[column]
  {
    var g := Generator(f);
    RowOfGenerator(f, m);
    value := ZERO;
    for inner := 0 to K
      invariant value == ColumnTo(f, GeneratorRow(f, m), t, column, inner)
    {
      RowEntry(g, m, inner);
      value := f.add(value, f.mul(t[inner * K + column], g[m * K + inner]));
    }
    ColumnIsCombination(f, GeneratorRow(f, m), t, column, K);
  }

  method FillRow(f: Field, t: Matrix, m: nat, a: array<Octet>, row: nat)
    requires Commutative(f) && |t| == K * K && m < TOTAL && (row + 1) * K <= a.Length
    modifies a
    ensures |DecodeRow(f, t, m)| == K && forall c :: 0 <= c < K ==> a[row * K + c] == DecodeRow(f, t, m)[c]
    ensures forall i :: 0 <= i < a.Length && !(row * K <= i < (row + 1) * K) ==> a[i] == old(a[i])
  {
    ghost var want := DecodeRow(f, t, m);
    var base := row * K;
    for column := 0 to K
      invariant forall c :: 0 <= c < column ==> a[base + c] == want[c]
      invariant forall i :: 0 <= i < a.Length && !(base <= i < base + K) ==> a[i] == old(a[i])
    {
      if m < K {
        RowEntry(t, m, column);
        a[base + column] := t[m * K + column];
      } else {
        var value := ParityCoefficient(f, t, m, column);
        a[base + column] := value;
      }
    }
  }

  // ---- one plan ----

  /** A plan for every erasure exists: no survivor matrix is singular. */
  method BuildDecodePlan(f: Field, invert: Matrix -> Option<Matrix>, missing: seq<nat>) returns (plan: Option<Plan>)
    requires Lawful(f) && Inverts(f, invert) && Erasure(missing)
    ensures plan.Some? && plan.value.missing == missing && PlanWorks(f, plan.value)
  {
    var sources := PickSources(missing);
    var survivors := SurvivorMatrix(f, sources);
    var inverted := invert(survivors);
    SurvivorsRegular(f, missing, sources);
    assert Inverted(f, survivors, inverted);
    if inverted.None? {
      return None;
    }
    var t := inverted.value;
    var matrix := DecodeMatrix(f, t, missing);
    plan := Some(Plan(|missing|, missing, sources, matrix));
    PlanRecovers(f, plan.value, t);
  }

  /** The first `n` rows of a decode matrix. */
  ghost predicate DecodesTo(f: Field, t: Matrix, missing: seq<nat>, m: Matrix, n: nat)
    requires |t| == K * K && n <= |missing| && |m| == |missing| * K
  {
    forall r, c :: 0 <= r < n && 0 <= c < K ==> EntryDecodes(f, t, missing, m, r, c)
  }

  ghost predicate EntryDecodes(f: Field, t: Matrix, missing: seq<nat>, m: Matrix, r: nat, c: nat)
    requires |t| == K * K && r < |missing| && c < K && |m| == |missing| * K
  {
    |DecodeRow(f, t, missing[r])| == K && m[r * K + c] == DecodeRow(f, t, missing[r])[c]
  }

  method DecodeMatrix(f: Field, t: Matrix, missing: seq<nat>) returns (matrix: Matrix)
    requires Commutative(f) && |t| == K * K && Erasure(missing)
    ensures |matrix| == |missing| * K
    ensures forall r :: 0 <= r < |missing| ==> Row(matrix, r) == DecodeRow(f, t, missing[r])
  {
    var a := new Octet[|missing| * K](i => ZERO);
    for row := 0 to |missing|
      invariant DecodesTo(f, t, missing, a[..], row)
    {
      ghost var before := a[..];
      FillRow(f, t, missing[row], a, row);
      RowFilled(f, t, missing, before, a[..], row);
    }
    matrix := a[..];
    forall r | 0 <= r < |missing| ensures Row(matrix, r) == DecodeRow(f, t, missing[r]) {
      RowDecoded(f, t, missing, matrix, r);
    }
  }

  lemma RowFilled(f: Field, t: Matrix, missing: seq<nat>, before: Matrix, after: Matrix, row: nat)
    requires |t| == K * K && row < |missing| && |before| == |after| == |missing| * K
    requires DecodesTo(f, t, missing, before, row)
    requires |DecodeRow(f, t, missing[row])| == K
    requires forall c :: 0 <= c < K ==> after[row * K + c] == DecodeRow(f, t, missing[row])[c]
    requires forall i :: 0 <= i < |after| && !(row * K <= i < (row + 1) * K) ==> after[i] == before[i]
    ensures DecodesTo(f, t, missing, after, row + 1)
  {
    forall r, c | 0 <= r < row + 1 && 0 <= c < K ensures EntryDecodes(f, t, missing, after, r, c) {
      if r < row {
        assert EntryDecodes(f, t, missing, before, r, c);
      }
    }
  }

  lemma RowDecoded(f: Field, t: Matrix, missing: seq<nat>, m: Matrix, r: nat)
    requires |t| == K * K && r < |missing| && |m| == |missing| * K && DecodesTo(f, t, missing, m, |missing|)
    ensures Row(m, r) == DecodeRow(f, t, missing[r])
  {
    assert EntryDecodes(f, t, missing, m, r, 0);
    forall c | 0 <= c < K ensures Row(m, r)[c] == DecodeRow(f, t, missing[r])[c] {
      RowEntry(m, r, c);
      assert EntryDecodes(f, t, missing, m, r, c);
    }
  }

  lemma PlanRecovers(f: Field, plan: Plan, t: Matrix)
    requires Lawful(f) && Erasure(plan.missing) && IsSources(plan.missing, plan.sources)
    requires plan.rows == |plan.missing| && |plan.matrix| == plan.rows * K
    requires IsInverse(f, t, Survivors(f, plan.sources))
    requires forall r :: 0 <= r < plan.rows ==> Row(plan.matrix, r) == DecodeRow(f, t, plan.missing[r])
    ensures PlanWorks(f, plan)
  {
    forall r, d | 0 <= r < plan.rows && |d| == K ensures RowWorks(f, plan, r, d) {
      DecodeRowRecovers(f, plan.sources, t, plan.missing[r], d);
    }
  }

  // ---- all plans ----

  /** A 16-bit mask, given by the bits that are set. */
  type Mask = set<nat>

  method ErasureKey(missing: seq<nat>) returns (key: Mask)
    ensures key == Elems(missing)
  {
    key := {};
    for i := 0 to |missing|
      invariant key == Elems(missing[..i])
    {
      assert missing[..i + 1] == missing[..i] + [missing[i]];
      key := key + {missing[i]};
    }
    assert missing[..|missing|] == missing;
  }

  /** Different erasures have different keys. */
  lemma KeysDiffer(a: seq<nat>, b: seq<nat>)
    requires Erasure(a) && Erasure(b) && Elems(a) == Elems(b)
    ensures a == b
  {
    NoDupSize(a);
    NoDupSize(b);
    forall i | 0 <= i < |a| ensures a[i] in b {
      assert a[i] in Elems(a);
    }
    assert |a| == 1 ==> a[0] == b[0];
    assert |a| == 2 ==> a[0] in b && a[1] in b;
  }

  ghost predicate PlannedFor(f: Field, plans: map<Mask, Plan>, missing: seq<nat>) {
    Elems(missing) in plans && plans[Elems(missing)].missing == missing && PlanWorks(f, plans[Elems(missing)])
  }

  /** Every erasure has its plan. */
  ghost predicate AllPlanned(f: Field, plans: map<Mask, Plan>) {
    forall missing :: Erasure(missing) && missing != [] ==> PlannedFor(f, plans, missing)
  }

  /** The erasures visited before the pair loop reaches (`first`, `second`). */
  ghost predicate Visited(missing: seq<nat>, first: nat, second: nat) {
    && Erasure(missing) && missing != []
    && (missing[0] < first || (missing[0] == first < second && (|missing| == 1 || missing[1] < second)))
  }

  ghost predicate PlannedUpTo(f: Field, plans: map<Mask, Plan>, first: nat, second: nat) {
    forall missing :: Visited(missing, first, second) ==> PlannedFor(f, plans, missing)
  }

  lemma PlanAdded(f: Field, plans: map<Mask, Plan>, plan: Plan, key: Mask, missing: seq<nat>)
    requires Erasure(plan.missing) && key == Elems(plan.missing) && PlanWorks(f, plan) && Erasure(missing)
    requires PlannedFor(f, plans, missing) || missing == plan.missing
    ensures PlannedFor(f, plans[key := plan], missing)
  {
    if Elems(missing) == key {
      KeysDiffer(missing, plan.missing);
    }
  }

  method AddPlan(f: Field, invert: Matrix -> Option<Matrix>, plans: map<Mask, Plan>, missing: seq<nat>) returns (plans': map<Mask, Plan>)
    requires Lawful(f) && Inverts(f, invert) && Erasure(missing)
    ensures forall other :: Erasure(other) && (PlannedFor(f, plans, other) || other == missing) ==> PlannedFor(f, plans', other)
  {
    var plan := BuildDecodePlan(f, invert, missing);
    var key := ErasureKey(missing);
    plans' := plans[key := plan.value];
    forall other | Erasure(other) && (PlannedFor(f, plans, other) || other == missing)
      ensures PlannedFor(f, plans', other)
    {
      PlanAdded(f, plans, plan.value, key, other);
    }
  }

  method BuildDecodePlans(f: Field, invert: Matrix -> Option<Matrix>) returns (plans: map<Mask, Plan>)
    requires Lawful(f) && Inverts(f, invert)
    ensures AllPlanned(f, plans)
  {
    plans := map[];
    for first := 0 to TOTAL
      invariant PlannedUpTo(f, plans, first, 0)
    {
      plans := AddPlan(f, invert, plans, [first]);
      SinglePlanned(f, plans, first);
      for second := first + 1 to TOTAL
        invariant PlannedUpTo(f, plans, first, second)
      {
        plans := AddPlan(f, invert, plans, [first, second]);
        PairPlanned(f, plans, first, second);
      }
      FirstPlanned(f, plans, first);
    }
    forall missing | Erasure(missing) && missing != [] ensures PlannedFor(f, plans, missing) {
      assert Visited(missing, TOTAL, 0);
    }
  }

  lemma SinglePlanned(f: Field, plans: map<Mask, Plan>, first: nat)
    requires forall m :: Visited(m, first, 0) || m == [first] ==> PlannedFor(f, plans, m)
    ensures PlannedUpTo(f, plans, first, first + 1)
  {
    forall m | Visited(m, first, first + 1) ensures PlannedFor(f, plans, m) {
      assert Visited(m, first, 0) || m == [first];
    }
  }

  lemma PairPlanned(f: Field, plans: map<Mask, Plan>, first: nat, second: nat)
    requires first < second && forall m :: Visited(m, first, second) || m == [first, second] ==> PlannedFor(f, plans, m)
    ensures PlannedUpTo(f, plans, first, second + 1)
  {
    forall m | Visited(m, first, second + 1) ensures PlannedFor(f, plans, m) {
      assert Visited(m, first, second) || m == [first, second];
    }
  }

  lemma FirstPlanned(f: Field, plans: map<Mask, Plan>, first: nat)
    requires PlannedUpTo(f, plans, first, TOTAL)
    ensures PlannedUpTo(f, plans, first + 1, 0)
  {
    forall m | Visited(m, first + 1, 0) ensures PlannedFor(f, plans, m) {
      assert Visited(m, first, TOTAL);
    }
  }
}
