/** Shared vocabulary: options, byte strings with their lexicographic order, and sorting. */
module Common {

  datatype Option<+T> = None | Some(value: T)

  /** The status codes the store answers with. */
  datatype Error = InvalidArgument | NotFound | Aborted | Unavailable

  datatype Result<+T> = Ok(value: T) | Err(error: Error)

  type Byte = b: int | 0 <= b < 256

  /** Identifiers are Rust strings; only their bytes matter for equality and order. */
  type Id = seq<Byte>

  const U64_MAX: nat := 0xFFFF_FFFF_FFFF_FFFF

  function SatAdd(a: nat, b: nat): nat {
    if a + b > U64_MAX then U64_MAX else a + b
  }

  function Min(a: int, b: int): int {
    if a <= b then a else b
  }

  /** Byte-wise order of strings and of database keys. */
  predicate LexLess(a: seq<Byte>, b: seq<Byte>) {
    b != [] && (a == [] || a[0] < b[0] || (a[0] == b[0] && LexLess(a[1..], b[1..])))
  }

  predicate LexLeq(a: seq<Byte>, b: seq<Byte>) {
    a == b || LexLess(a, b)
  }

  lemma {:induction false} LexLessIrreflexive(a: seq<Byte>)
    ensures !LexLess(a, a)
  {
    if a != [] {
      LexLessIrreflexive(a[1..]);
    }
  }

  lemma {:induction false} LexLessTransitive(a: seq<Byte>, b: seq<Byte>, c: seq<Byte>)
    requires LexLess(a, b) && LexLess(b, c)
    ensures LexLess(a, c)
  {
    if a != [] && a[0] == b[0] == c[0] {
      LexLessTransitive(a[1..], b[1..], c[1..]);
    }
  }

  lemma {:induction false} LexLessTotal(a: seq<Byte>, b: seq<Byte>)
    ensures LexLess(a, b) || a == b || LexLess(b, a)
  {
    if a != [] && b != [] && a[0] == b[0] {
      LexLessTotal(a[1..], b[1..]);
      assert a[1..] == b[1..] ==> a == [a[0]] + a[1..] == [b[0]] + b[1..] == b;
    }
  }

  lemma LexOrder()
    ensures forall a: seq<Byte> :: !LexLess(a, a)
    ensures forall a: seq<Byte>, b: seq<Byte>, c: seq<Byte> :: LexLess(a, b) && LexLess(b, c) ==> LexLess(a, c)
    ensures forall a: seq<Byte>, b: seq<Byte> :: LexLess(a, b) || a == b || LexLess(b, a)
  {
    forall a: seq<Byte> ensures !LexLess(a, a) { LexLessIrreflexive(a); }
    forall a: seq<Byte>, b: seq<Byte>, c: seq<Byte> | LexLess(a, b) && LexLess(b, c) ensures LexLess(a, c) {
      LexLessTransitive(a, b, c);
    }
    forall a: seq<Byte>, b: seq<Byte> ensures LexLess(a, b) || a == b || LexLess(b, a) { LexLessTotal(a, b); }
  }

  // ---- sequences without repetition, permutations, sorting ----

  ghost predicate NoDup<T>(s: seq<T>) {
    forall i, j :: 0 <= i < j < |s| ==> s[i] != s[j]
  }

  lemma NoDupConcat<T>(a: seq<T>, b: seq<T>)
    requires NoDup(a) && NoDup(b) && forall x :: x in a ==> x !in b
    ensures NoDup(a + b)
  {
    var s := a + b;
    forall i, j | 0 <= i < j < |s| ensures s[i] != s[j] {
      if i < |a| <= j {
        assert a[i] in a && b[j - |a|] in b;
      }
    }
  }

  function Elems<T(==)>(s: seq<T>): set<T> {
    set x | x in s
  }

  /** A sequence has no repetition exactly when every element occurs once. */
  lemma {:induction false} NoDupCounts<T>(s: seq<T>)
    ensures NoDup(s) <==> forall x :: x in s ==> multiset(s)[x] == 1
  {
    if s != [] {
      var front, last := s[..|s| - 1], s[|s| - 1];
      assert s == front + [last];
      NoDupCounts(front);
      if NoDup(s) {
        assert NoDup(front) && last !in front;
        forall x | x in s ensures multiset(s)[x] == 1 {
          assert x in front || x == last;
        }
      }
      if forall x :: x in s ==> multiset(s)[x] == 1 {
        forall x | x in front ensures multiset(front)[x] == 1 {
          assert x in s && x in multiset(front);
        }
        assert last in s;
        assert last !in multiset(front);
      }
    }
  }

  lemma PermutationElems<T>(s: seq<T>, t: seq<T>)
    requires multiset(s) == multiset(t)
    ensures forall x :: x in s <==> x in t
  {
    forall x ensures x in s <==> x in t {
      assert x in s <==> x in multiset(s);
      assert x in t <==> x in multiset(t);
    }
  }

  lemma PermutationKeepsNoDup<T>(s: seq<T>, t: seq<T>)
    requires NoDup(s) && multiset(s) == multiset(t)
    ensures NoDup(t)
  {
    NoDupCounts(s);
    NoDupCounts(t);
    forall x | x in t ensures multiset(t)[x] == 1 {
      assert x in multiset(t);
      assert x in s;
    }
  }

  lemma {:induction false} NoDupSize<T>(s: seq<T>)
    requires NoDup(s)
    ensures |Elems(s)| == |s|
  {
    if s != [] {
      var front, last := s[..|s| - 1], s[|s| - 1];
      NoDupSize(front);
      assert Elems(s) == Elems(front) + {last} && last !in front;
    }
  }

  function Take<T>(s: seq<T>, n: int): seq<T> {
    if n <= 0 then [] else if n >= |s| then s else s[..n]
  }

  lemma TakeConcat<T>(a: seq<T>, b: seq<T>, n: int)
    ensures Take(a + b, n) == Take(a, n) + Take(b, n - |a|)
  {
  }

  /** The first position of `x`, or the length if it does not occur. */
  function IndexOf<T(==)>(s: seq<T>, x: T): (i: nat)
    ensures i <= |s| && (i < |s| ==> s[i] == x)
    ensures forall j :: 0 <= j < i ==> s[j] != x
  {
    if s == [] || s[0] == x then 0 else 1 + IndexOf(s[1..], x)
  }

  /** What a prefix holds. */
  lemma TakeHas<T>(s: seq<T>, x: T, n: int)
    ensures x in Take(s, n) <==> x in s && IndexOf(s, x) < n
  {
    if x in s && IndexOf(s, x) < n {
      assert Take(s, n)[IndexOf(s, x)] == x;
    }
    if x in Take(s, n) {
      var i :| 0 <= i < |Take(s, n)| && Take(s, n)[i] == x;
      assert s[i] == x;
    }
  }

  /** A subset is no larger, and is the whole set if it is as large. */
  lemma {:induction false} SubsetSize<T>(a: set<T>, b: set<T>)
    requires a <= b
    ensures |a| <= |b|
    ensures |a| == |b| ==> a == b
  {
    if x :| x in a {
      SubsetSize(a - {x}, b - {x});
    }
  }

  lemma RemoveMatching<T>(s: seq<T>, t: seq<T>, i: nat)
    requires multiset(s) == multiset(t) && s != [] && i < |t| && t[i] == s[0]
    ensures multiset(s[1..]) == multiset(t[..i] + t[i + 1..])
  {
    assert s == [s[0]] + s[1..];
    assert t == t[..i] + [t[i]] + t[i + 1..];
    assert multiset(s) == multiset{s[0]} + multiset(s[1..]);
    assert multiset(t) == multiset{s[0]} + multiset(t[..i] + t[i + 1..]);
    assert multiset(s[1..]) == multiset(s) - multiset{s[0]};
  }

  ghost function MapSeq<T, U>(s: seq<T>, f: T -> U): seq<U> {
    seq(|s|, i requires 0 <= i < |s| => f(s[i]))
  }

  lemma {:induction false} MapOfPermutation<T, U>(s: seq<T>, t: seq<T>, f: T -> U)
    requires multiset(s) == multiset(t)
    ensures multiset(MapSeq(s, f)) == multiset(MapSeq(t, f))
  {
    assert |multiset(s)| == |s| && |multiset(t)| == |t|;
    if s != [] {
      assert s[0] in multiset(t);
      var i :| 0 <= i < |t| && t[i] == s[0];
      var rest := t[..i] + t[i + 1..];
      RemoveMatching(s, t, i);
      MapOfPermutation(s[1..], rest, f);
      assert MapSeq(s, f) == [f(s[0])] + MapSeq(s[1..], f);
      assert MapSeq(t, f) == MapSeq(t, f)[..i] + [f(t[i])] + MapSeq(t, f)[i + 1..];
      assert MapSeq(rest, f) == MapSeq(t, f)[..i] + MapSeq(t, f)[i + 1..];
    }
  }

  /** Lists without repetition over the same elements are permutations of each other. */
  lemma NoDupPermutation<T>(s: seq<T>, t: seq<T>)
    requires NoDup(s) && NoDup(t) && Elems(s) == Elems(t)
    ensures multiset(s) == multiset(t)
  {
    NoDupCounts(s);
    NoDupCounts(t);
    forall x ensures multiset(s)[x] == multiset(t)[x] {
      assert x in s <==> x in Elems(s);
      assert x in t <==> x in Elems(t);
      assert x in s <==> x in multiset(s);
      assert x in t <==> x in multiset(t);
    }
  }

  /** Replacing one element, and reordering, replaces one member of the element set. */
  lemma ReplaceOne<T>(s: seq<T>, i: nat, y: T, t: seq<T>)
    requires NoDup(s) && i < |s| && (y in s ==> y == s[i])
    requires multiset(t) == multiset(s[i := y])
    ensures NoDup(t)
    ensures forall x :: x in t <==> x == y || (x in s && x != s[i])
  {
    var u := s[i := y];
    assert NoDup(u) by {
      forall a, b | 0 <= a < b < |u| ensures u[a] != u[b] {
        assert s[a] in s && s[b] in s && s[a] != s[b];
      }
    }
    PermutationKeepsNoDup(u, t);
    PermutationElems(u, t);
    forall x ensures x in t <==> x == y || (x in s && x != s[i]) {
      assert u[i] == y;
      if x in u {
        var a :| 0 <= a < |u| && u[a] == x;
        assert a == i || s[a] == x;
      }
      if x in s && x != s[i] {
        var a :| 0 <= a < |s| && s[a] == x;
        assert u[a] == x;
      }
    }
  }

  ghost predicate TotalPreorder<T(!new)>(before: (T, T) -> bool) {
    && (forall a, b :: before(a, b) || before(b, a))
    && (forall a, b, c :: before(a, b) && before(b, c) ==> before(a, c))
  }

  ghost predicate SortedBy<T>(s: seq<T>, before: (T, T) -> bool) {
    forall i, j :: 0 <= i < j < |s| ==> before(s[i], s[j])
  }

  lemma InsertKeepsSorted<T>(r: seq<T>, p: nat, x: T, before: (T, T) -> bool)
    requires p <= |r| && SortedBy(r, before)
    requires forall i :: 0 <= i < p ==> before(r[i], x)
    requires forall i :: p <= i < |r| ==> before(x, r[i])
    ensures SortedBy(r[..p] + [x] + r[p..], before)
    ensures multiset(r[..p] + [x] + r[p..]) == multiset(r) + multiset{x}
  {
    assert r == r[..p] + r[p..];
  }

  /** Where an element goes: everything before it may stay before it, everything after it may follow it. */
  method InsertionPoint<T(!new)>(r: seq<T>, x: T, before: (T, T) -> bool) returns (p: nat)
    requires TotalPreorder(before) && SortedBy(r, before)
    ensures p <= |r|
    ensures (forall i :: 0 <= i < p ==> before(r[i], x)) && (forall i :: p <= i < |r| ==> before(x, r[i]))
  {
    p := |r|;
    while p > 0 && !before(r[p - 1], x)
      invariant 0 <= p <= |r|
      invariant forall i :: p <= i < |r| ==> before(x, r[i])
    {
      p := p - 1;
    }
    forall i | 0 <= i < p ensures before(r[i], x) {
      assert i < p - 1 ==> before(r[i], r[p - 1]);
    }
  }

  /** The library sort that every `sort_by` in the source calls, by its contract. */
  method SortBy<T(!new)>(s: seq<T>, before: (T, T) -> bool) returns (r: seq<T>)
    requires TotalPreorder(before)
    ensures multiset(r) == multiset(s)
    ensures |r| == |s|
    ensures SortedBy(r, before)
  {
    r := [];
    for n := 0 to |s|
      invariant |r| == n && multiset(r) == multiset(s[..n])
      invariant SortedBy(r, before)
    {
      var x := s[n];
      var p := InsertionPoint(r, x, before);
      InsertKeepsSorted(r, p, x, before);
      assert s[..n + 1] == s[..n] + [x];
      r := r[..p] + [x] + r[p..];
    }
    assert s[..|s|] == s;
  }
}
