/** Vectors and matrices over the field, with matrices stored row after row as the source stores them. */
module Linear {
  import opened Common
  import opened Galois

  /** The arithmetic of the codec, as the library that supplies it promises it. */
  datatype Field = Field(add: (Octet, Octet) -> Octet, mul: (Octet, Octet) -> Octet, power: nat -> Octet)

  ghost predicate Adds(f: Field) {
    && (forall a, b, c, d :: f.add(f.add(a, b), f.add(c, d)) == f.add(f.add(a, c), f.add(b, d)))
    && (forall a :: f.add(a, ZERO) == a && f.add(ZERO, a) == a)
    && (forall a, b :: f.add(a, b) == ZERO ==> a == b)
  }

  ghost predicate Commutative(f: Field) {
    forall a, b :: f.mul(a, b) == f.mul(b, a)
  }

  ghost predicate Associative(f: Field) {
    forall a, b, c :: f.mul(f.mul(a, b), c) == f.mul(a, f.mul(b, c))
  }

  ghost predicate Distributive(f: Field) {
    && (forall a, b, c :: f.mul(f.add(a, b), c) == f.add(f.mul(a, c), f.mul(b, c)))
    && (forall a, b, c :: f.mul(a, f.add(b, c)) == f.add(f.mul(a, b), f.mul(a, c)))
  }

  ghost predicate Units(f: Field) {
    forall a :: f.mul(ZERO, a) == ZERO && f.mul(a, ZERO) == ZERO && f.mul(ONE, a) == a && f.mul(a, ONE) == a
  }

  /** The powers of 2 up to the eighth are different, also as factors. */
  ghost predicate PowersApart(f: Field) {
    && (forall i, x :: 0 <= i < K && f.mul(f.power(i), x) == ZERO ==> x == ZERO)
    && (forall i, j, x :: 0 <= i < j < K && f.mul(f.power(i), x) == f.mul(f.power(j), x) ==> x == ZERO)
  }

  ghost predicate Lawful(f: Field) {
    Adds(f) && Commutative(f) && Associative(f) && Distributive(f) && Units(f) && PowersApart(f)
  }

  const GF256: Field := Field((a, b) => Add(a, b), (a, b) => Mul(a, b), (n: nat) => PowerOfTwo(n))

  /** GF(2^8) keeps all these laws. */
  lemma GF256IsLawful()
    ensures Lawful(GF256)
  {
    var f := GF256;
    forall a, b, c, d ensures f.add(f.add(a, b), f.add(c, d)) == f.add(f.add(a, c), f.add(b, d)) { Regroup(a, b, c, d); }
    forall a ensures f.add(a, ZERO) == a && f.add(ZERO, a) == a { AddZero(a); }
    forall a, b | f.add(a, b) == ZERO ensures a == b { AddCancels(a, b); }
    forall a, b ensures f.mul(a, b) == f.mul(b, a) { Commutes(a, b); }
    forall a, b, c ensures f.mul(f.mul(a, b), c) == f.mul(a, f.mul(b, c)) { Associates(a, b, c); }
    forall a, b, c ensures f.mul(f.add(a, b), c) == f.add(f.mul(a, c), f.mul(b, c)) { DistributesLeft(a, b, c); }
    forall a, b, c ensures f.mul(a, f.add(b, c)) == f.add(f.mul(a, b), f.mul(a, c)) { DistributesRight(a, b, c); }
    forall a ensures f.mul(ZERO, a) == ZERO && f.mul(a, ZERO) == ZERO && f.mul(ONE, a) == a && f.mul(a, ONE) == a {
      GF256Units(a);
    }
    forall i, x | 0 <= i < K && f.mul(f.power(i), x) == ZERO ensures x == ZERO { PowerNotZero(i, x); }
    forall i, j, x | 0 <= i < j < K && f.mul(f.power(i), x) == f.mul(f.power(j), x) ensures x == ZERO { PowersDiffer(i, j, x); }
  }

  lemma GF256Units(a: Octet)
    ensures Mul(ZERO, a) == ZERO && Mul(a, ZERO) == ZERO && Mul(ONE, a) == a && Mul(a, ONE) == a
  {
    MulZero(a);
    Commutes(a, ZERO);
    MulOne(a);
    Commutes(a, ONE);
  }

  // ---- vectors ----

  /** The number of columns of every matrix: one per data fragment. */
  const K: nat := 8

  type Vector = seq<Octet>

  function Null(): Vector {
    seq(K, i => ZERO)
  }

  function UnitVector(i: nat): Vector {
    seq(K, j => if j == i then ONE else ZERO)
  }

  /** The product of the first `k` entries. */
  function DotTo(f: Field, x: Vector, v: Vector, k: nat): Octet
    requires k <= |x| && k <= |v|
  {
    if k == 0 then ZERO else f.add(DotTo(f, x, v, k - 1), f.mul(x[k - 1], v[k - 1]))
  }

  function Dot(f: Field, x: Vector, v: Vector): Octet
    requires |x| == K && |v| == K
  {
    DotTo(f, x, v, K)
  }

  function VectorAdd(f: Field, x: Vector, y: Vector): Vector
    requires |x| == K && |y| == K
  {
    seq(K, i requires 0 <= i < K => f.add(x[i], y[i]))
  }

  function Scale(f: Field, c: Octet, x: Vector): Vector
    requires |x| == K
  {
    seq(K, i requires 0 <= i < K => f.mul(c, x[i]))
  }

  predicate Square(rows: seq<Vector>) {
    |rows| == K && forall i :: 0 <= i < K ==> |rows[i]| == K
  }

  /** The product of a matrix and a vector. */
  function Times(f: Field, rows: seq<Vector>, v: Vector): Vector
    requires Square(rows) && |v| == K
  {
    seq(K, i requires 0 <= i < K => Dot(f, rows[i], v))
  }

  /** The combination of the first `k` rows with coefficients `c`. */
  function CombineTo(f: Field, c: Vector, rows: seq<Vector>, k: nat): (r: Vector)
    requires |c| == K && Square(rows) && k <= K
    ensures |r| == K
  {
    if k == 0 then Null() else VectorAdd(f, CombineTo(f, c, rows, k - 1), Scale(f, c[k - 1], rows[k - 1]))
  }

  function Combine(f: Field, c: Vector, rows: seq<Vector>): Vector
    requires |c| == K && Square(rows)
  {
    CombineTo(f, c, rows, K)
  }

  // ---- products are linear ----

  lemma {:induction false} DotNull(f: Field, v: Vector, k: nat)
    requires Adds(f) && Units(f) && |v| == K && k <= K
    ensures DotTo(f, Null(), v, k) == ZERO
  {
    if k > 0 {
      DotNull(f, v, k - 1);
    }
  }

  lemma {:induction false} DotAdds(f: Field, x: Vector, y: Vector, v: Vector, k: nat)
    requires Adds(f) && Distributive(f) && |x| == K && |y| == K && |v| == K && k <= K
    ensures DotTo(f, VectorAdd(f, x, y), v, k) == f.add(DotTo(f, x, v, k), DotTo(f, y, v, k))
  {
    if k > 0 {
      DotAdds(f, x, y, v, k - 1);
    }
  }

  lemma {:induction false} DotScales(f: Field, c: Octet, x: Vector, v: Vector, k: nat)
    requires Associative(f) && Distributive(f) && Units(f) && |x| == K && |v| == K && k <= K
    ensures DotTo(f, Scale(f, c, x), v, k) == f.mul(c, DotTo(f, x, v, k))
  {
    if k > 0 {
      DotScales(f, c, x, v, k - 1);
    }
  }

  /** The product with `v` is linear in the other factor. */
  ghost predicate LinearIn(f: Field, v: Vector)
    requires |v| == K
  {
    && Dot(f, Null(), v) == ZERO
    && (forall x, y {:trigger VectorAdd(f, x, y)} :: |x| == K && |y| == K ==> Dot(f, VectorAdd(f, x, y), v) == f.add(Dot(f, x, v), Dot(f, y, v)))
    && (forall c, x {:trigger Scale(f, c, x)} :: |x| == K ==> Dot(f, Scale(f, c, x), v) == f.mul(c, Dot(f, x, v)))
  }

  lemma DotIsLinear(f: Field, v: Vector)
    requires Lawful(f) && |v| == K
    ensures LinearIn(f, v)
  {
    DotNull(f, v, K);
    forall x, y | |x| == K && |y| == K ensures Dot(f, VectorAdd(f, x, y), v) == f.add(Dot(f, x, v), Dot(f, y, v)) {
      DotAdds(f, x, y, v, K);
    }
    forall c, x | |x| == K ensures Dot(f, Scale(f, c, x), v) == f.mul(c, Dot(f, x, v)) {
      DotScales(f, c, x, v, K);
    }
  }

  lemma {:induction false} CombineThenDotTo(f: Field, c: Vector, rows: seq<Vector>, v: Vector, k: nat)
    requires |c| == K && Square(rows) && |v| == K && LinearIn(f, v) && k <= K
    ensures Dot(f, CombineTo(f, c, rows, k), v) == DotTo(f, c, Times(f, rows, v), k)
  {
    if k > 0 {
      CombineThenDotTo(f, c, rows, v, k - 1);
    }
  }

  /** Multiplying by a combination of the rows is combining the products. */
  ghost predicate RowAssociates(f: Field, c: Vector, rows: seq<Vector>, v: Vector)
    requires |c| == K && Square(rows) && |v| == K
  {
    Dot(f, Combine(f, c, rows), v) == Dot(f, c, Times(f, rows, v))
  }

  /** Matrix products associate. */
  lemma MatricesAssociate(f: Field, rows: seq<Vector>, v: Vector)
    requires Lawful(f) && Square(rows) && |v| == K
    ensures forall c {:trigger RowAssociates(f, c, rows, v)} :: |c| == K ==> RowAssociates(f, c, rows, v)
  {
    DotIsLinear(f, v);
    forall c | |c| == K ensures RowAssociates(f, c, rows, v) {
      CombineThenDotTo(f, c, rows, v, K);
    }
  }

  // ---- sparse vectors ----

  ghost predicate ZeroBut(v: Vector, a: nat, b: nat)
    requires |v| == K
  {
    forall j :: 0 <= j < K && j != a && j != b ==> v[j] == ZERO
  }

  /** What the first `k` entries contribute when only entries `a` and `b` can be nonzero. */
  function SparseTo(f: Field, x: Vector, v: Vector, a: nat, b: nat, k: nat): Octet
    requires |x| == K && |v| == K && a < K && b < K
  {
    f.add(if a < k then f.mul(x[a], v[a]) else ZERO, if b < k && b != a then f.mul(x[b], v[b]) else ZERO)
  }

  lemma {:induction false} DotSparse(f: Field, x: Vector, v: Vector, a: nat, b: nat, k: nat)
    requires Adds(f) && Units(f) && |x| == K && |v| == K && a <= b < K && ZeroBut(v, a, b) && k <= K
    ensures DotTo(f, x, v, k) == SparseTo(f, x, v, a, b, k)
  {
    if k > 0 {
      DotSparse(f, x, v, a, b, k - 1);
      SparseNext(f, x, v, a, b, k - 1);
    }
  }

  lemma SparseNext(f: Field, x: Vector, v: Vector, a: nat, b: nat, j: nat)
    requires Adds(f) && Units(f) && |x| == K && |v| == K && a <= b < K && ZeroBut(v, a, b) && j < K
    ensures f.add(SparseTo(f, x, v, a, b, j), f.mul(x[j], v[j])) == SparseTo(f, x, v, a, b, j + 1)
  {
    var p := f.mul(x[j], v[j]);
    if j == a {
      assert f.add(ZERO, ZERO) == ZERO && f.add(ZERO, p) == p && f.add(p, ZERO) == p;
    } else if j == b {
      assert f.add(f.mul(x[a], v[a]), ZERO) == f.mul(x[a], v[a]);
    } else {
      assert f.mul(x[j], ZERO) == ZERO;
    }
  }

  lemma DotUnit(f: Field, i: nat, v: Vector)
    requires Adds(f) && Commutative(f) && Units(f) && i < K && |v| == K
    ensures Dot(f, UnitVector(i), v) == v[i]
  {
    DotSwaps(f, UnitVector(i), v, K);
    DotSparse(f, v, UnitVector(i), i, i, K);
  }

  lemma {:induction false} DotSwaps(f: Field, x: Vector, v: Vector, k: nat)
    requires Commutative(f) && |x| == K && |v| == K && k <= K
    ensures DotTo(f, x, v, k) == DotTo(f, v, x, k)
  {
    if k > 0 {
      DotSwaps(f, x, v, k - 1);
    }
  }

  // ---- matrices stored flat ----

  type Matrix = seq<Octet>

  function Row(m: Matrix, r: nat): Vector
    requires (r + 1) * K <= |m|
  {
    m[r * K..(r + 1) * K]
  }

  function Rows(m: Matrix): (rows: seq<Vector>)
    requires |m| == K * K
    ensures Square(rows)
  {
    seq(K, r requires 0 <= r < K => Row(m, r))
  }

  /** `t` times `s` is the identity. */
  ghost predicate IsInverse(f: Field, t: Matrix, s: Matrix) {
    |t| == K * K && |s| == K * K && forall i :: 0 <= i < K ==> Combine(f, Row(t, i), Rows(s)) == UnitVector(i)
  }

  ghost predicate InKernel(f: Field, s: Matrix, x: Vector) {
    |s| == K * K && |x| == K && Times(f, Rows(s), x) == Null()
  }

  ghost predicate Singular(f: Field, s: Matrix) {
    exists x :: InKernel(f, s, x) && x != Null()
  }

  /** What is asked of matrix inversion: a true inverse, refused only to singular matrices. */
  ghost predicate Inverted(f: Field, s: Matrix, t: Option<Matrix>) {
    match t
    case Some(m) => IsInverse(f, m, s)
    case None => Singular(f, s)
  }
}
