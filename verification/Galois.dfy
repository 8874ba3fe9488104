/**
 * The field GF(2^8) with the polynomial 0x11d: bytes, given by their bits, under exclusive-or and
 * carry-less multiplication.
 */
module Galois {

  /** A byte, least significant bit first. */
  datatype Octet = Octet(b0: bool, b1: bool, b2: bool, b3: bool, b4: bool, b5: bool, b6: bool, b7: bool)

  const ZERO := Octet(false, false, false, false, false, false, false, false)
  const ONE := Octet(true, false, false, false, false, false, false, false)

  /** Exclusive or. */
  function Add(a: Octet, b: Octet): Octet {
    Octet(a.b0 != b.b0, a.b1 != b.b1, a.b2 != b.b2, a.b3 != b.b3, a.b4 != b.b4, a.b5 != b.b5, a.b6 != b.b6, a.b7 != b.b7)
  }

  /** A shift left, reduced by 0x1d when a bit falls out. */
  function Twice(a: Octet): Octet {
    Octet(a.b7, a.b0, a.b1 != a.b7, a.b2 != a.b7, a.b3 != a.b7, a.b4, a.b5, a.b6)
  }

  function Pick(t: bool, a: Octet): Octet {
    if t then a else ZERO
  }

  function Bit(b: Octet, i: nat): bool {
    if i == 0 then b.b0 else if i == 1 then b.b1 else if i == 2 then b.b2 else if i == 3 then b.b3
    else if i == 4 then b.b4 else if i == 5 then b.b5 else if i == 6 then b.b6 else b.b7
  }

  /** The sum of the multiples of `a` by the bits of `b` from `i` upwards. */
  function Masked(b: Octet, i: nat, a: Octet): Octet
    requires i <= 8
    decreases 8 - i
  {
    if i == 8 then ZERO else Add(Pick(Bit(b, i), a), Masked(b, i + 1, Twice(a)))
  }

  function Mul(a: Octet, b: Octet): Octet {
    Masked(b, 0, a)
  }

  // ---- addition ----

  lemma AddZero(a: Octet)
    ensures Add(a, ZERO) == a && Add(ZERO, a) == a && Add(a, a) == ZERO
  {
  }

  lemma AddCancels(a: Octet, b: Octet)
    requires Add(a, b) == ZERO
    ensures a == b
  {
  }

  lemma Regroup(a: Octet, b: Octet, c: Octet, d: Octet)
    ensures Add(Add(a, b), Add(c, d)) == Add(Add(a, c), Add(b, d))
  {
  }

  // ---- multiplication is bilinear ----

  lemma TwiceLinear(a: Octet, c: Octet)
    ensures Twice(Add(a, c)) == Add(Twice(a), Twice(c))
  {
  }

  lemma PickLinear(t: bool, a: Octet, c: Octet)
    ensures Pick(t, Add(a, c)) == Add(Pick(t, a), Pick(t, c))
    ensures Twice(Pick(t, a)) == Pick(t, Twice(a))
  {
  }

  lemma {:induction false} MaskedLinear(b: Octet, i: nat, a: Octet, c: Octet)
    requires i <= 8
    ensures Masked(b, i, Add(a, c)) == Add(Masked(b, i, a), Masked(b, i, c))
    decreases 8 - i
  {
    if i < 8 {
      TwiceLinear(a, c);
      PickLinear(Bit(b, i), a, c);
      MaskedLinear(b, i + 1, Twice(a), Twice(c));
      Regroup(Pick(Bit(b, i), a), Pick(Bit(b, i), c), Masked(b, i + 1, Twice(a)), Masked(b, i + 1, Twice(c)));
    }
  }

  lemma {:induction false} MaskedTwice(b: Octet, i: nat, a: Octet)
    requires i <= 8
    ensures Masked(b, i, Twice(a)) == Twice(Masked(b, i, a))
    decreases 8 - i
  {
    if i < 8 {
      MaskedTwice(b, i + 1, Twice(a));
      PickLinear(Bit(b, i), a, a);
      TwiceLinear(Pick(Bit(b, i), a), Masked(b, i + 1, Twice(a)));
    }
  }

  lemma {:induction false} MaskedZero(b: Octet, i: nat)
    requires i <= 8
    ensures Masked(b, i, ZERO) == ZERO
    decreases 8 - i
  {
    if i < 8 {
      MaskedZero(b, i + 1);
    }
  }

  lemma PickDiffer(p: bool, q: bool, a: Octet)
    ensures Pick(p != q, a) == Add(Pick(p, a), Pick(q, a))
  {
  }

  lemma {:induction false} MaskedSum(b: Octet, c: Octet, i: nat, a: Octet)
    requires i <= 8
    ensures Masked(Add(b, c), i, a) == Add(Masked(b, i, a), Masked(c, i, a))
    decreases 8 - i
  {
    if i < 8 {
      MaskedSum(b, c, i + 1, Twice(a));
      BitOfSum(b, c, i);
      PickDiffer(Bit(b, i), Bit(c, i), a);
      Regroup(Pick(Bit(b, i), a), Pick(Bit(c, i), a), Masked(b, i + 1, Twice(a)), Masked(c, i + 1, Twice(a)));
    }
  }

  lemma LowBitsOfSum(b: Octet, c: Octet)
    ensures Bit(Add(b, c), 0) == (Bit(b, 0) != Bit(c, 0))
    ensures Bit(Add(b, c), 1) == (Bit(b, 1) != Bit(c, 1))
    ensures Bit(Add(b, c), 2) == (Bit(b, 2) != Bit(c, 2))
    ensures Bit(Add(b, c), 3) == (Bit(b, 3) != Bit(c, 3))
  {
  }

  lemma HighBitsOfSum(b: Octet, c: Octet)
    ensures Bit(Add(b, c), 4) == (Bit(b, 4) != Bit(c, 4))
    ensures Bit(Add(b, c), 5) == (Bit(b, 5) != Bit(c, 5))
    ensures Bit(Add(b, c), 6) == (Bit(b, 6) != Bit(c, 6))
    ensures Bit(Add(b, c), 7) == (Bit(b, 7) != Bit(c, 7))
  {
  }

  lemma BitOfSum(b: Octet, c: Octet, i: nat)
    requires i < 8
    ensures Bit(Add(b, c), i) == (Bit(b, i) != Bit(c, i))
  {
    LowBitsOfSum(b, c);
    HighBitsOfSum(b, c);
    assert i == 0 || i == 1 || i == 2 || i == 3 || i == 4 || i == 5 || i == 6 || i == 7;
  }

  lemma DistributesLeft(a: Octet, b: Octet, c: Octet)
    ensures Mul(Add(a, b), c) == Add(Mul(a, c), Mul(b, c))
  {
    MaskedLinear(c, 0, a, b);
  }

  lemma DistributesRight(a: Octet, b: Octet, c: Octet)
    ensures Mul(a, Add(b, c)) == Add(Mul(a, b), Mul(a, c))
  {
    MaskedSum(b, c, 0, a);
  }

  lemma MulZero(a: Octet)
    ensures Mul(ZERO, a) == ZERO
  {
    MaskedZero(a, 0);
  }

  // ---- multiplication is commutative and associative ----

  /** The byte with only bit `k` set. */
  function Unit(k: nat): Octet {
    Octet(k == 0, k == 1, k == 2, k == 3, k == 4, k == 5, k == 6, k == 7)
  }

  /** The bits of a byte from `k` upwards. */
  function High(k: nat, a: Octet): Octet {
    Octet(k <= 0 && a.b0, k <= 1 && a.b1, k <= 2 && a.b2, k <= 3 && a.b3,
          k <= 4 && a.b4, k <= 5 && a.b5, k <= 6 && a.b6, k <= 7 && a.b7)
  }

  lemma HighNext(k: nat, a: Octet)
    requires k < 8
    ensures Add(Pick(Bit(a, k), Unit(k)), High(k + 1, a)) == High(k, a)
    ensures k < 7 ==> Twice(Unit(k)) == Unit(k + 1)
  {
  }

  lemma {:induction false} MaskedUnit(k: nat, a: Octet)
    requires k <= 8
    ensures k < 8 ==> Masked(a, k, Unit(k)) == High(k, a)
    decreases 8 - k
  {
    if k < 7 {
      MaskedUnit(k + 1, a);
      HighNext(k, a);
    } else if k == 7 {
      HighNext(7, a);
    }
  }

  lemma MulOne(a: Octet)
    ensures Mul(ONE, a) == a
  {
    MaskedUnit(0, a);
  }

  /** The sum that `Masked` computes, for any addition and doubling. */
  function MaskedBy(add: (Octet, Octet) -> Octet, double: Octet -> Octet, b: Octet, i: nat, a: Octet): Octet
    requires i <= 8
    decreases 8 - i
  {
    if i == 8 then ZERO else add(Pick(Bit(b, i), a), MaskedBy(add, double, b, i + 1, double(a)))
  }

  const PLUS: (Octet, Octet) -> Octet := (a, b) => Add(a, b)
  const DOUBLE: Octet -> Octet := a => Twice(a)

  lemma {:induction false} MaskedIsBy(b: Octet, i: nat, a: Octet)
    requires i <= 8
    ensures Masked(b, i, a) == MaskedBy(PLUS, DOUBLE, b, i, a)
    decreases 8 - i
  {
    if i < 8 {
      MaskedIsBy(b, i + 1, Twice(a));
    }
  }

  /** A map that respects addition and doubling goes through the sum. */
  lemma {:induction false} MaskedThrough(add: (Octet, Octet) -> Octet, double: Octet -> Octet, b: Octet, i: nat, x: Octet,
                                         g: Octet -> Octet)
    requires i <= 8 && g(ZERO) == ZERO
    requires (forall u, v :: g(add(u, v)) == add(g(u), g(v))) && (forall u :: g(double(u)) == double(g(u)))
    ensures MaskedBy(add, double, b, i, g(x)) == g(MaskedBy(add, double, b, i, x))
    decreases 8 - i
  {
    if i < 8 {
      MaskedThrough(add, double, b, i + 1, double(x), g);
      assert g(Pick(Bit(b, i), x)) == Pick(Bit(b, i), g(x));
    }
  }

  lemma MaskedProduct(b: Octet, i: nat, x: Octet, a: Octet)
    requires i <= 8
    ensures Masked(b, i, Mul(x, a)) == Mul(Masked(b, i, x), a)
  {
    var g := (u: Octet) => Mul(u, a);
    MulZero(a);
    forall u, v ensures g(PLUS(u, v)) == PLUS(g(u), g(v)) {
      DistributesLeft(u, v, a);
    }
    forall u ensures g(DOUBLE(u)) == DOUBLE(g(u)) {
      MulTwice(u, a);
    }
    MaskedThrough(PLUS, DOUBLE, b, i, x, g);
    MaskedIsBy(b, i, x);
    MaskedIsBy(b, i, Mul(x, a));
  }

  lemma MulTwice(a: Octet, b: Octet)
    ensures Mul(Twice(a), b) == Twice(Mul(a, b))
  {
    MaskedTwice(b, 0, a);
  }

  /** The order of two factors on the right does not matter. */
  lemma FactorsSwap(x: Octet, a: Octet, b: Octet)
    ensures Mul(Mul(x, a), b) == Mul(Mul(x, b), a)
  {
    MaskedProduct(b, 0, x, a);
  }

  lemma Commutes(a: Octet, b: Octet)
    ensures Mul(a, b) == Mul(b, a)
  {
    MulOne(a);
    MulOne(b);
    FactorsSwap(ONE, a, b);
  }

  lemma Associates(a: Octet, b: Octet, c: Octet)
    ensures Mul(Mul(a, b), c) == Mul(a, Mul(b, c))
  {
    Commutes(a, b);
    FactorsSwap(b, a, c);
    Commutes(Mul(b, c), a);
  }

  // ---- powers of 2 ----

  function Iterate(g: Octet -> Octet, n: nat, x: Octet): Octet {
    if n == 0 then x else g(Iterate(g, n - 1, x))
  }

  function TwiceTimes(n: nat, x: Octet): Octet {
    Iterate(DOUBLE, n, x)
  }

  function PowerOfTwo(n: nat): Octet {
    TwiceTimes(n, ONE)
  }

  /** Each power is the one before it, multiplied by 2. */
  lemma NextPower(n: nat)
    ensures PowerOfTwo(n + 1) == Mul(PowerOfTwo(n), Twice(ONE))
  {
    var p := PowerOfTwo(n);
    Commutes(p, Twice(ONE));
    MulTwice(ONE, p);
    MulOne(p);
  }

  lemma {:induction false} IterateMoves(f: Octet -> Octet, g: Octet -> Octet, n: nat, y: Octet)
    requires forall u :: f(g(u)) == g(f(u))
    ensures f(Iterate(g, n, y)) == Iterate(g, n, f(y))
  {
    if n > 0 {
      IterateMoves(f, g, n - 1, y);
    }
  }

  lemma MulPower(n: nat, y: Octet, x: Octet)
    ensures Mul(TwiceTimes(n, y), x) == TwiceTimes(n, Mul(y, x))
  {
    var f := (u: Octet) => Mul(u, x);
    forall u ensures f(DOUBLE(u)) == DOUBLE(f(u)) {
      MulTwice(u, x);
    }
    IterateMoves(f, DOUBLE, n, y);
  }

  lemma TwiceInjective(a: Octet, b: Octet)
    requires Twice(a) == Twice(b)
    ensures a == b
  {
  }

  lemma {:induction false} IterateAdds(g: Octet -> Octet, m: nat, n: nat, x: Octet)
    ensures Iterate(g, m + n, x) == Iterate(g, m, Iterate(g, n, x))
  {
    if m > 0 {
      IterateAdds(g, m - 1, n, x);
    }
  }

  lemma {:induction false} IterateInjective(g: Octet -> Octet, n: nat, a: Octet, b: Octet)
    requires Iterate(g, n, a) == Iterate(g, n, b) && forall u, v :: g(u) == g(v) ==> u == v
    ensures a == b
  {
    if n > 0 {
      IterateInjective(g, n - 1, a, b);
    }
  }

  lemma TwiceTimesInjective(n: nat, a: Octet, b: Octet)
    requires TwiceTimes(n, a) == TwiceTimes(n, b)
    ensures a == b
  {
    forall u, v | DOUBLE(u) == DOUBLE(v) ensures u == v {
      TwiceInjective(u, v);
    }
    IterateInjective(DOUBLE, n, a, b);
  }

  lemma TwiceTimesNext(n: nat, x: Octet)
    ensures TwiceTimes(0, x) == x && TwiceTimes(n + 1, x) == Twice(TwiceTimes(n, x))
  {
  }

  /** Doubling fewer than eight times leaves only zero where it was. */
  lemma NoFixpoint(n: nat, x: Octet)
    requires 0 < n < 8 && TwiceTimes(n, x) == x
    ensures x == ZERO
  {
    TwiceTimesNext(0, x);
    TwiceTimesNext(1, x);
    TwiceTimesNext(2, x);
    TwiceTimesNext(3, x);
    TwiceTimesNext(4, x);
    TwiceTimesNext(5, x);
    TwiceTimesNext(6, x);
  }

  lemma PowerActs(n: nat, x: Octet)
    ensures Mul(PowerOfTwo(n), x) == TwiceTimes(n, x)
  {
    MulPower(n, ONE, x);
    MulOne(x);
  }

  lemma DoublingsDiffer(i: nat, j: nat, x: Octet)
    requires i < j < 8 && TwiceTimes(i, x) == TwiceTimes(j, x)
    ensures x == ZERO
  {
    IterateAdds(DOUBLE, i, j - i, x);
    TwiceTimesInjective(i, x, TwiceTimes(j - i, x));
    NoFixpoint(j - i, x);
  }

  /** Different powers of 2 below 2^8 act differently on every byte but zero. */
  lemma PowersDiffer(i: nat, j: nat, x: Octet)
    requires i < j < 8 && Mul(PowerOfTwo(i), x) == Mul(PowerOfTwo(j), x)
    ensures x == ZERO
  {
    PowerActs(i, x);
    PowerActs(j, x);
    DoublingsDiffer(i, j, x);
  }

  lemma PowerNotZero(i: nat, x: Octet)
    requires Mul(PowerOfTwo(i), x) == ZERO
    ensures x == ZERO
  {
    PowerActs(i, x);
    ZeroFixed(i);
    TwiceTimesInjective(i, x, ZERO);
  }

  lemma {:induction false} ZeroFixed(n: nat)
    ensures TwiceTimes(n, ZERO) == ZERO
  {
    if n > 0 {
      ZeroFixed(n - 1);
    }
  }
}
