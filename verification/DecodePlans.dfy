/** The 8+2 generator matrix and the prepared plan for every set of at most two missing fragments. */
module DecodePlans {
  import opened Galois
  import opened Linear

  const PARITY: nat := 2
  const TOTAL: nat := K + PARITY

  // ---- the generator ----

  /** The identity, a row of ones, and a row of powers of 2. */
  function Entry(f: Field, r: nat, c: nat): Octet {
    if r < K then (if c == r then ONE else ZERO) else if r == K then ONE else f.power(c)
  }

  function GeneratorRow(f: Field, r: nat): Vector {
    seq(K, c requires 0 <= c < K => Entry(f, r, c))
  }

  function Generator(f: Field): Matrix {
    seq(TOTAL * K, i requires 0 <= i < TOTAL * K => Entry(f, i / K, i % K))
  }

  lemma RowOfGenerator(f: Field, r: nat)
    requires r < TOTAL
    ensures Row(Generator(f), r) == GeneratorRow(f, r)
    ensures r < K ==> GeneratorRow(f, r) == UnitVector(r)
  {
    var row := Row(Generator(f), r);
    forall c | 0 <= c < K ensures row[c] == Entry(f, r, c) {
      assert (r * K + c) / K == r && (r * K + c) % K == c;
    }
  }

  /** The last row starts at 1, and each entry is the one before it times 2. */
  lemma GeneratorPowers(c: nat)
    requires c < K
    ensures Entry(GF256, K + 1, 0) == ONE
    ensures c + 1 < K ==> Entry(GF256, K + 1, c + 1) == GF256.mul(Entry(GF256, K + 1, c), Twice(ONE))
  {
    NextPower(c);
  }

  // ---- which fragments are read ----

  /** At most two missing fragments, in order. */
  ghost predicate Erasure(missing: seq<nat>) {
    && |missing| <= PARITY
    && (forall i :: 0 <= i < |missing| ==> missing[i] < TOTAL)
    && (|missing| == 2 ==> missing[0] < missing[1])
  }

  function Below(missing: seq<nat>, i: nat): nat {
    (if |missing| > 0 && missing[0] < i then 1 else 0) + (if |missing| > 1 && missing[1] < i then 1 else 0)
  }

  /** The first eight fragments that are not missing; fragment `i` is in slot `i - Below(missing, i)`. */
  ghost predicate IsSources(missing: seq<nat>, sources: seq<nat>) {
    && |sources| == K
    && (forall k :: 0 <= k < K ==> sources[k] < TOTAL && sources[k] !in missing)
    && (forall i :: 0 <= i < TOTAL && i !in missing && i - Below(missing, i) < K ==>
         0 <= i - Below(missing, i) && sources[i - Below(missing, i)] == i)
  }

  method PickSources(missing: seq<nat>) returns (sources: seq<nat>)
    requires Erasure(missing)
    ensures IsSources(missing, sources)
  {
    sources := [];
    var index := 0;
    while index < TOTAL && |sources| < K
      invariant 0 <= index <= TOTAL && |sources| <= K && |sources| == index - Below(missing, index)
      invariant forall k :: 0 <= k < |sources| ==> sources[k] < index && sources[k] !in missing
      invariant forall i :: 0 <= i < index && i !in missing ==>
        0 <= i - Below(missing, i) < |sources| && sources[i - Below(missing, i)] == i
    {
      if index !in missing {
        sources := sources + [index];
      }
      index := index + 1;
    }
  }

  function Survivors(f: Field, sources: seq<nat>): Matrix
    requires |sources| == K
  {
    seq(K * K, i requires 0 <= i < K * K => Entry(f, sources[i / K], i % K))
  }

  lemma RowOfSurvivors(f: Field, sources: seq<nat>, k: nat)
    requires |sources| == K && k < K
    ensures Row(Survivors(f, sources), k) == GeneratorRow(f, sources[k])
  {
    var row := Row(Survivors(f, sources), k);
    forall c | 0 <= c < K ensures row[c] == Entry(f, sources[k], c) {
      assert (k * K + c) / K == k && (k * K + c) % K == c;
    }
  }

  method SurvivorMatrix(f: Field, sources: seq<nat>) returns (m: Matrix)
    requires |sources| == K && forall k :: 0 <= k < K ==> sources[k] < TOTAL
    ensures m == Survivors(f, sources)
  {
    m := [];
    for k := 0 to K
      invariant |m| == k * K && m == Survivors(f, sources)[..k * K]
    {
      RowOfGenerator(f, sources[k]);
      RowOfSurvivors(f, sources, k);
      var all := Survivors(f, sources);
      assert all[..(k + 1) * K] == all[..k * K] + all[k * K..(k + 1) * K];
      m := m + Row(Generator(f), sources[k]);
    }
    assert Survivors(f, sources)[..K * K] == Survivors(f, sources);
  }

  // ---- no survivor matrix is singular ----

  lemma KernelRow(f: Field, sources: seq<nat>, x: Vector, k: nat)
    requires |sources| == K && InKernel(f, Survivors(f, sources), x) && k < K
    ensures Dot(f, GeneratorRow(f, sources[k]), x) == ZERO
  {
    var s := Survivors(f, sources);
    RowOfSurvivors(f, sources, k);
    assert Times(f, Rows(s), x)[k] == Null()[k];
  }

  /** A kernel vector is zero wherever the data fragment is present. */
  lemma KernelSparse(f: Field, missing: seq<nat>, sources: seq<nat>, x: Vector, j: nat)
    requires Adds(f) && Commutative(f) && Units(f) && Erasure(missing) && IsSources(missing, sources)
    requires InKernel(f, Survivors(f, sources), x) && j < K && j !in missing
    ensures x[j] == ZERO
  {
    var k := j - Below(missing, j);
    KernelRow(f, sources, x, k);
    RowOfGenerator(f, j);
    DotUnit(f, j, x);
  }

  lemma PairAlgebra(f: Field, a: nat, b: nat, u: Octet, v: Octet)
    requires Adds(f) && Units(f) && PowersApart(f) && a < b < K
    requires f.add(f.mul(ONE, u), f.mul(ONE, v)) == ZERO
    requires f.add(f.mul(f.power(a), u), f.mul(f.power(b), v)) == ZERO
    ensures u == ZERO && v == ZERO
  {
    assert f.mul(ONE, u) == u && f.mul(ONE, v) == v;
    assert u == v;
  }

  /** With two data fragments missing both parity rows are read, and together they fix both entries. */
  lemma KernelOfPair(f: Field, a: nat, b: nat, x: Vector)
    requires Adds(f) && Units(f) && PowersApart(f) && a < b < K && |x| == K && ZeroBut(x, a, b)
    requires Dot(f, GeneratorRow(f, K), x) == ZERO && Dot(f, GeneratorRow(f, K + 1), x) == ZERO
    ensures x[a] == ZERO && x[b] == ZERO
  {
    ParityOfSparse(f, K, a, b, x);
    ParityOfSparse(f, K + 1, a, b, x);
    PairAlgebra(f, a, b, x[a], x[b]);
  }

  lemma ParityOfSparse(f: Field, r: nat, a: nat, b: nat, x: Vector)
    requires Adds(f) && Units(f) && a <= b < K && |x| == K && ZeroBut(x, a, b)
    ensures Dot(f, GeneratorRow(f, r), x) ==
      f.add(f.mul(Entry(f, r, a), x[a]), if b != a then f.mul(Entry(f, r, b), x[b]) else ZERO)
  {
    DotSparse(f, GeneratorRow(f, r), x, a, b, K);
  }

  /** With one data fragment missing any parity row fixes its entry. */
  lemma KernelOfOne(f: Field, a: nat, x: Vector, r: nat)
    requires Adds(f) && Units(f) && PowersApart(f) && a < K && |x| == K && ZeroBut(x, a, a) && (r == K || r == K + 1)
    requires Dot(f, GeneratorRow(f, r), x) == ZERO
    ensures x[a] == ZERO
  {
    ParityOfSparse(f, r, a, a, x);
    OneAlgebra(f, Entry(f, r, a), a, x[a]);
  }

  lemma OneAlgebra(f: Field, e: Octet, a: nat, u: Octet)
    requires Adds(f) && Units(f) && PowersApart(f) && a < K && (e == ONE || e == f.power(a)) && f.add(f.mul(e, u), ZERO) == ZERO
    ensures u == ZERO
  {
    assert f.mul(ONE, u) == u;
  }

  lemma KernelZeroElsewhere(f: Field, missing: seq<nat>, sources: seq<nat>, x: Vector)
    requires Lawful(f) && Erasure(missing) && IsSources(missing, sources) && InKernel(f, Survivors(f, sources), x)
    ensures forall j :: 0 <= j < K && j !in missing ==> x[j] == ZERO
  {
    forall j | 0 <= j < K && j !in missing ensures x[j] == ZERO {
      KernelSparse(f, missing, sources, x, j);
    }
  }

  /** Which parity rows are read. */
  lemma ParitySources(missing: seq<nat>, sources: seq<nat>)
    requires Erasure(missing) && IsSources(missing, sources)
    ensures |missing| == 2 && missing[1] < K ==> sources[K - 2] == K && sources[K - 1] == K + 1
    ensures |missing| > 0 && missing[0] < K && (|missing| == 2 ==> missing[1] >= K) ==>
      sources[K - 1] == if K in missing then K + 1 else K
  {
    assert Below(missing, K + 1) <= 2;
    if |missing| > 0 && missing[0] < K {
      assert K !in missing ==> sources[K - Below(missing, K)] == K;
      assert K + 1 !in missing && Below(missing, K + 1) == 2 ==> sources[K + 1 - Below(missing, K + 1)] == K + 1;
    }
  }

  lemma KernelZero(f: Field, missing: seq<nat>, sources: seq<nat>, x: Vector)
    requires Lawful(f) && Erasure(missing) && IsSources(missing, sources) && InKernel(f, Survivors(f, sources), x)
    ensures forall j :: 0 <= j < K ==> x[j] == ZERO
  {
    KernelZeroElsewhere(f, missing, sources, x);
    ParitySources(missing, sources);
    KernelRow(f, sources, x, K - 2);
    KernelRow(f, sources, x, K - 1);
    MissingEntries(f, missing, sources, x);
  }

  lemma MissingEntries(f: Field, missing: seq<nat>, sources: seq<nat>, x: Vector)
    requires Adds(f) && Units(f) && PowersApart(f) && Erasure(missing) && |sources| == K && |x| == K
    requires forall j :: 0 <= j < K && j !in missing ==> x[j] == ZERO
    requires Dot(f, GeneratorRow(f, sources[K - 2]), x) == ZERO && Dot(f, GeneratorRow(f, sources[K - 1]), x) == ZERO
    requires |missing| == 2 && missing[1] < K ==> sources[K - 2] == K && sources[K - 1] == K + 1
    requires |missing| > 0 && missing[0] < K && (|missing| == 2 ==> missing[1] >= K) ==>
      sources[K - 1] == if K in missing then K + 1 else K
    ensures forall j :: 0 <= j < K ==> x[j] == ZERO
  {
    if |missing| == 2 && missing[1] < K {
      KernelOfPair(f, missing[0], missing[1], x);
    } else if |missing| > 0 && missing[0] < K {
      KernelOfOne(f, missing[0], x, sources[K - 1]);
    }
  }

  /** Eight rows that survive an erasure always form an invertible matrix. */
  lemma SurvivorsRegular(f: Field, missing: seq<nat>, sources: seq<nat>)
    requires Lawful(f) && Erasure(missing) && IsSources(missing, sources)
    ensures !Singular(f, Survivors(f, sources))
  {
    forall x | InKernel(f, Survivors(f, sources), x) ensures x == Null() {
      KernelZero(f, missing, sources, x);
    }
  }

  // ---- decoding ----

  datatype Plan = Plan(rows: nat, missing: seq<nat>, sources: seq<nat>, matrix: Matrix)

  /** What survives of a data vector. */
  function Surviving(f: Field, sources: seq<nat>, d: Vector): Vector
    requires |sources| == K && |d| == K
  {
    seq(K, k requires 0 <= k < K => Dot(f, GeneratorRow(f, sources[k]), d))
  }

  /** Each row of the plan computes its missing fragment's byte from the surviving bytes. */
  ghost predicate PlanWorks(f: Field, plan: Plan) {
    && Erasure(plan.missing) && IsSources(plan.missing, plan.sources)
    && plan.rows == |plan.missing| && |plan.matrix| == plan.rows * K
    && forall r, d {:trigger RowWorks(f, plan, r, d)} :: 0 <= r < plan.rows && |d| == K ==> RowWorks(f, plan, r, d)
  }

  ghost predicate RowWorks(f: Field, plan: Plan, r: nat, d: Vector)
    requires |plan.sources| == K && |plan.matrix| == plan.rows * K && r < plan.rows == |plan.missing| && |d| == K
  {
    Dot(f, Row(plan.matrix, r), Surviving(f, plan.sources, d)) == Dot(f, GeneratorRow(f, plan.missing[r]), d)
  }

  /** The row that recovers fragment `m` from the survivors, given the inverse of their matrix. */
  function DecodeRow(f: Field, t: Matrix, m: nat): Vector
    requires |t| == K * K
  {
    if m < K then Row(t, m) else Combine(f, GeneratorRow(f, m), Rows(t))
  }

  lemma SurvivingIsTimes(f: Field, sources: seq<nat>, d: Vector)
    requires |sources| == K && |d| == K
    ensures Surviving(f, sources, d) == Times(f, Rows(Survivors(f, sources)), d)
  {
    forall k | 0 <= k < K ensures Surviving(f, sources, d)[k] == Times(f, Rows(Survivors(f, sources)), d)[k] {
      RowOfSurvivors(f, sources, k);
    }
  }

  lemma InverseRow(f: Field, t: Matrix, s: Matrix, d: Vector, m: nat)
    requires IsInverse(f, t, s) && |d| == K && m < K && RowAssociates(f, Row(t, m), Rows(s), d)
    requires Dot(f, UnitVector(m), d) == d[m]
    ensures Dot(f, Row(t, m), Times(f, Rows(s), d)) == d[m]
  {
  }

  /** The inverse of the survivors' matrix gives back the data. */
  lemma InverseRecovers(f: Field, t: Matrix, s: Matrix, d: Vector)
    requires IsInverse(f, t, s) && |d| == K && UnitsPick(f, d)
    requires forall c {:trigger RowAssociates(f, c, Rows(s), d)} :: |c| == K ==> RowAssociates(f, c, Rows(s), d)
    ensures Times(f, Rows(t), Times(f, Rows(s), d)) == d
  {
    var y := Times(f, Rows(s), d);
    forall m | 0 <= m < K ensures Times(f, Rows(t), y)[m] == d[m] {
      assert RowAssociates(f, Row(t, m), Rows(s), d);
      InverseRow(f, t, s, d, m);
    }
  }

  /** Unit vectors pick out single entries. */
  ghost predicate UnitsPick(f: Field, d: Vector)
    requires |d| == K
  {
    forall m :: 0 <= m < K ==> Dot(f, UnitVector(m), d) == d[m]
  }

  lemma UnitsSelect(f: Field, d: Vector)
    requires Adds(f) && Commutative(f) && Units(f) && |d| == K
    ensures UnitsPick(f, d)
  {
    forall m | 0 <= m < K ensures Dot(f, UnitVector(m), d) == d[m] {
      DotUnit(f, m, d);
    }
  }

  lemma ParityRecovers(f: Field, t: Matrix, m: nat, y: Vector, d: Vector)
    requires |t| == K * K && |y| == K && RowAssociates(f, GeneratorRow(f, m), Rows(t), y) && Times(f, Rows(t), y) == d
    ensures Dot(f, Combine(f, GeneratorRow(f, m), Rows(t)), y) == Dot(f, GeneratorRow(f, m), d)
  {
  }

  lemma RowRecovers(f: Field, sources: seq<nat>, t: Matrix, m: nat, d: Vector)
    requires |sources| == K && IsInverse(f, t, Survivors(f, sources)) && m < TOTAL && |d| == K && UnitsPick(f, d)
    requires var rows := Rows(Survivors(f, sources));
      forall c {:trigger RowAssociates(f, c, rows, d)} :: |c| == K ==> RowAssociates(f, c, rows, d)
    requires RowAssociates(f, GeneratorRow(f, m), Rows(t), Times(f, Rows(Survivors(f, sources)), d))
    ensures |DecodeRow(f, t, m)| == K
    ensures Dot(f, DecodeRow(f, t, m), Surviving(f, sources, d)) == Dot(f, GeneratorRow(f, m), d)
  {
    var s := Survivors(f, sources);
    SurvivingIsTimes(f, sources, d);
    if m < K {
      RowOfGenerator(f, m);
      assert RowAssociates(f, Row(t, m), Rows(s), d);
      InverseRow(f, t, s, d, m);
    } else {
      InverseRecovers(f, t, s, d);
      ParityRecovers(f, t, m, Surviving(f, sources, d), d);
    }
  }

  lemma DecodeRowRecovers(f: Field, sources: seq<nat>, t: Matrix, m: nat, d: Vector)
    requires Lawful(f) && |sources| == K && IsInverse(f, t, Survivors(f, sources)) && m < TOTAL && |d| == K
    ensures |DecodeRow(f, t, m)| == K
    ensures Dot(f, DecodeRow(f, t, m), Surviving(f, sources, d)) == Dot(f, GeneratorRow(f, m), d)
  {
    var rows := Rows(Survivors(f, sources));
    MatricesAssociate(f, rows, d);
    MatricesAssociate(f, Rows(t), Times(f, rows, d));
    UnitsSelect(f, d);
    RowRecovers(f, sources, t, m, d);
  }
}
