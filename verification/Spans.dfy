/** A target's free-span list: the in-memory form of its set of free granules. */
module Spans {
  import opened Common

  datatype Span = Span(start: nat, len: nat) {
    function End(): nat {
      start + len
    }

    predicate Has(g: nat) {
      start <= g < End()
    }
  }

  /** Sorted, non-empty, disjoint and never adjacent. */
  ghost predicate Canonical(s: seq<Span>) {
    s == [] || (s[0].len > 0 && (|s| > 1 ==> s[0].End() < s[1].start) && Canonical(s[1..]))
  }

  predicate IsFree(s: seq<Span>, g: nat) {
    exists i :: 0 <= i < |s| && s[i].Has(g)
  }

  function FreeCount(s: seq<Span>): nat {
    if s == [] then 0 else s[0].len + FreeCount(s[1..])
  }

  ghost function Range(sp: Span): set<nat> {
    set g: nat | g < sp.End() && sp.Has(g)
  }

  /** The free granules a span list stands for. */
  ghost function FreeSet(s: seq<Span>): set<nat> {
    if s == [] then {} else Range(s[0]) + FreeSet(s[1..])
  }

  lemma {:induction false} FreeSetMember(s: seq<Span>, g: nat)
    ensures g in FreeSet(s) <==> IsFree(s, g)
  {
    if s != [] {
      FreeSetMember(s[1..], g);
      if g in FreeSet(s[1..]) {
        var i :| 0 <= i < |s[1..]| && s[1..][i].Has(g);
        assert s[i + 1] == s[1..][i];
      }
      if IsFree(s, g) && g !in Range(s[0]) {
        var i :| 0 <= i < |s| && s[i].Has(g);
        assert s[1..][i - 1] == s[i];
      }
    }
  }

  lemma FreeSetMembers(s: seq<Span>)
    ensures forall g: nat :: g in FreeSet(s) <==> IsFree(s, g)
  {
    forall g: nat ensures g in FreeSet(s) <==> IsFree(s, g) { FreeSetMember(s, g); }
  }

  lemma {:induction false} FreeSetConcat(s: seq<Span>, t: seq<Span>)
    ensures FreeSet(s + t) == FreeSet(s) + FreeSet(t)
  {
    if s == [] {
      assert s + t == t;
    } else {
      FreeSetConcat(s[1..], t);
      assert (s + t)[1..] == s[1..] + t;
    }
  }

  lemma {:induction false} RangeSize(sp: Span)
    ensures |Range(sp)| == sp.len
    decreases sp.len
  {
    if sp.len == 0 {
      assert Range(sp) == {};
    } else {
      RangeSize(Span(sp.start, sp.len - 1));
      assert Range(sp) == Range(Span(sp.start, sp.len - 1)) + {sp.End() - 1};
    }
  }

  /** In a canonical list everything after the head lies strictly beyond the head. */
  lemma {:induction false} TailBeyond(s: seq<Span>, g: nat)
    requires Canonical(s) && s != [] && g in FreeSet(s[1..])
    ensures s[0].End() < g
  {
    if g !in Range(s[1]) {
      TailBeyond(s[1..], g);
    }
  }

  lemma {:induction false} CanonicalPairwise(s: seq<Span>)
    requires Canonical(s)
    ensures forall i :: 0 <= i < |s| ==> s[i].len > 0
    ensures forall i, j :: 0 <= i < j < |s| ==> s[i].End() < s[j].start
  {
    if |s| > 1 {
      CanonicalPairwise(s[1..]);
      assert forall i :: 0 <= i < |s| - 1 ==> s[i + 1] == s[1..][i];
    }
  }

  /** The recorded free count is the size of the free set. */
  lemma {:induction false} CountIsSize(s: seq<Span>)
    requires Canonical(s)
    ensures FreeCount(s) == |FreeSet(s)|
    ensures s == [] <==> FreeSet(s) == {}
  {
    if s != [] {
      CountIsSize(s[1..]);
      RangeSize(s[0]);
      assert s[0].start in Range(s[0]);
      forall g | g in Range(s[0]) && g in FreeSet(s[1..]) ensures false { TailBeyond(s, g); }
      assert Range(s[0]) !! FreeSet(s[1..]);
    }
  }

  lemma HeadIsLeast(s: seq<Span>)
    requires Canonical(s) && s != []
    ensures s[0].start in FreeSet(s)
    ensures forall g :: g in FreeSet(s) ==> s[0].start <= g
    ensures s[0].End() !in FreeSet(s)
  {
    assert s[0].Has(s[0].start);
    forall g | g in FreeSet(s[1..]) ensures s[0].End() < g { TailBeyond(s, g); }
  }

  lemma TailsAgree(s: seq<Span>, t: seq<Span>)
    requires Canonical(s) && Canonical(t) && FreeSet(s) == FreeSet(t) && s != [] && t != [] && s[0] == t[0]
    ensures FreeSet(s[1..]) == FreeSet(t[1..])
  {
    forall g ensures g in FreeSet(s[1..]) <==> g in FreeSet(t[1..]) {
      if g in FreeSet(s[1..]) { TailBeyond(s, g); }
      if g in FreeSet(t[1..]) { TailBeyond(t, g); }
    }
  }

  /** One free set has one canonical list, so the list carries no history. */
  lemma {:induction false} CanonicalUnique(s: seq<Span>, t: seq<Span>)
    requires Canonical(s) && Canonical(t) && FreeSet(s) == FreeSet(t)
    ensures s == t
  {
    CountIsSize(s);
    CountIsSize(t);
    if s != [] {
      HeadIsLeast(s);
      HeadIsLeast(t);
      var a, b := s[0], t[0];
      assert a.start == b.start;
      assert a.len > b.len ==> b.End() in Range(a);
      assert b.len > a.len ==> a.End() in Range(b);
      assert a == b;
      TailsAgree(s, t);
      CanonicalUnique(s[1..], t[1..]);
      assert s == [a] + s[1..] && t == [b] + t[1..];
    }
  }

  // ---- allocate ----

  /** Takes the least free granule, and takes exactly that one. */
  method AllocateOne(spans: seq<Span>) returns (granule: Option<nat>, rest: seq<Span>)
    requires Canonical(spans)
    ensures granule.None? <==> spans == []
    ensures granule.None? ==> rest == spans
    ensures granule.Some? ==> granule.value in FreeSet(spans)
    ensures granule.Some? ==> forall g :: g in FreeSet(spans) ==> granule.value <= g
    ensures granule.Some? ==> FreeSet(rest) == FreeSet(spans) - {granule.value}
    ensures Canonical(rest)
  {
    if spans == [] {
      return None, spans;
    }
    HeadIsLeast(spans);
    var first := Span(spans[0].start + 1, spans[0].len - 1);
    granule := Some(spans[0].start);
    assert forall g: nat :: first.Has(g) <==> spans[0].Has(g) && g != spans[0].start;
    assert Range(first) == Range(spans[0]) - {spans[0].start};
    forall g | g in FreeSet(spans[1..]) ensures g != spans[0].start { TailBeyond(spans, g); }
    if first.len == 0 {
      rest := spans[1..];
      assert Range(first) == {};
    } else {
      rest := [first] + spans[1..];
      assert rest[1..] == spans[1..];
    }
  }

  // ---- release ----

  /** The list after returning one granule. */
  function AddGranule(s: seq<Span>, g: nat): seq<Span> {
    if s == [] || g + 1 < s[0].start then
      [Span(g, 1)] + s
    else if g + 1 == s[0].start then
      [Span(g, s[0].len + 1)] + s[1..]
    else if g != s[0].End() then
      [s[0]] + AddGranule(s[1..], g)
    else if |s| > 1 && s[1].start == g + 1 then
      [Span(s[0].start, s[0].len + 1 + s[1].len)] + s[2..]
    else
      [Span(s[0].start, s[0].len + 1)] + s[1..]
  }

  lemma RangeJoin(a: Span, b: Span)
    requires a.End() == b.start
    ensures Range(Span(a.start, a.len + b.len)) == Range(a) + Range(b)
  {
    var c := Span(a.start, a.len + b.len);
    assert forall g: nat :: c.Has(g) <==> a.Has(g) || b.Has(g);
  }

  lemma NotFreeInTail(s: seq<Span>, g: nat)
    requires s != [] && !IsFree(s, g)
    ensures !s[0].Has(g) && !IsFree(s[1..], g)
  {
    FreeSetMember(s, g);
    FreeSetMember(s[1..], g);
  }

  lemma {:induction false} ReleasedFreeSet(s: seq<Span>, g: nat)
    ensures FreeSet(AddGranule(s, g)) == FreeSet(s) + {g}
  {
    var r, one := AddGranule(s, g), Span(g, 1);
    assert one.Has(g) && Range(one) == {g};
    if s == [] || g + 1 < s[0].start {
      assert r[1..] == s;
    } else if g + 1 == s[0].start {
      RangeJoin(one, s[0]);
      assert r[1..] == s[1..];
    } else if g != s[0].End() {
      ReleasedFreeSet(s[1..], g);
      assert r[1..] == AddGranule(s[1..], g);
    } else {
      RangeJoin(s[0], one);
      if |s| > 1 && s[1].start == g + 1 {
        RangeJoin(Span(s[0].start, s[0].len + 1), s[1]);
        assert s[1..][0] == s[1] && s[1..][1..] == s[2..] && r[1..] == s[2..];
      } else {
        assert r[1..] == s[1..];
      }
    }
  }

  lemma {:induction false} ReleasedCanonical(s: seq<Span>, g: nat)
    requires Canonical(s) && !IsFree(s, g)
    ensures Canonical(AddGranule(s, g))
    ensures AddGranule(s, g)[0].start == (if s == [] || g < s[0].start then g else s[0].start)
  {
    if s != [] {
      NotFreeInTail(s, g);
      if g + 1 > s[0].start && g != s[0].End() {
        ReleasedCanonical(s[1..], g);
        assert AddGranule(s, g)[1..] == AddGranule(s[1..], g);
      } else if g == s[0].End() && |s| > 1 && s[1].start == g + 1 {
        assert s[1..][1..] == s[2..] && AddGranule(s, g)[1..] == s[2..];
        assert |s| > 2 ==> s[1..][1] == s[2];
      } else {
        assert AddGranule(s, g)[1..] == s || AddGranule(s, g)[1..] == s[1..];
      }
    }
  }

  /** Releasing a granule that is not free adds exactly it and keeps the list canonical. */
  lemma ReleasedAdds(s: seq<Span>, g: nat)
    requires Canonical(s) && !IsFree(s, g)
    ensures Canonical(AddGranule(s, g))
    ensures FreeSet(AddGranule(s, g)) == FreeSet(s) + {g}
    ensures FreeCount(AddGranule(s, g)) == FreeCount(s) + 1
  {
    ReleasedCanonical(s, g);
    ReleasedFreeSet(s, g);
    FreeSetMember(s, g);
    CountIsSize(s);
    CountIsSize(AddGranule(s, g));
  }

  /** Allocating and giving back restores the list itself, not just its free set. */
  lemma AllocateThenRelease(s: seq<Span>, g: nat, rest: seq<Span>)
    requires Canonical(s) && g in FreeSet(s)
    requires Canonical(rest) && FreeSet(rest) == FreeSet(s) - {g}
    ensures AddGranule(rest, g) == s
  {
    FreeSetMember(rest, g);
    ReleasedAdds(rest, g);
    CanonicalUnique(AddGranule(rest, g), s);
  }

  lemma BothReleased(s: seq<Span>, a: nat, b: nat)
    requires Canonical(s) && a != b && !IsFree(s, a) && !IsFree(s, b)
    ensures Canonical(AddGranule(AddGranule(s, a), b))
    ensures FreeSet(AddGranule(AddGranule(s, a), b)) == FreeSet(s) + {a} + {b}
  {
    ReleasedAdds(s, a);
    FreeSetMember(s, b);
    FreeSetMember(AddGranule(s, a), b);
    ReleasedAdds(AddGranule(s, a), b);
  }

  lemma ReleaseOrderIrrelevant(s: seq<Span>, a: nat, b: nat)
    requires Canonical(s) && a != b && !IsFree(s, a) && !IsFree(s, b)
    ensures AddGranule(AddGranule(s, a), b) == AddGranule(AddGranule(s, b), a)
  {
    BothReleased(s, a, b);
    BothReleased(s, b, a);
    assert FreeSet(s) + {a} + {b} == FreeSet(s) + {b} + {a};
    CanonicalUnique(AddGranule(AddGranule(s, a), b), AddGranule(AddGranule(s, b), a));
  }

  lemma FreeSetOfPermutation(s: seq<Span>, t: seq<Span>)
    requires multiset(s) == multiset(t)
    ensures FreeSet(s) == FreeSet(t)
  {
    FreeSetMembers(s);
    FreeSetMembers(t);
    PermutationElems(s, t);
    forall g: nat ensures IsFree(s, g) <==> IsFree(t, g) {
      if i :| 0 <= i < |s| && s[i].Has(g) { assert s[i] in t; }
      if i :| 0 <= i < |t| && t[i].Has(g) { assert t[i] in s; }
    }
  }

  /** Spans in start order that may touch but do not overlap. */
  ghost predicate Tiled(s: seq<Span>) {
    && (forall i :: 0 <= i < |s| ==> s[i].len > 0)
    && (forall i, j :: 0 <= i < j < |s| ==> s[i].End() <= s[j].start)
  }

  /** Two different spans of a list with a new one-granule span do not overlap. */
  lemma NewSpanApart(s: seq<Span>, g: nat, a: Span, b: Span)
    requires Canonical(s) && !IsFree(s, g)
    requires a in s + [Span(g, 1)] && b in s + [Span(g, 1)] && a != b && a.start <= b.start
    ensures a.End() <= b.start && a.len > 0
  {
    CanonicalPairwise(s);
    assert forall i :: 0 <= i < |s| ==> !s[i].Has(g);
  }

  lemma SortedWithNewSpanIsTiled(s: seq<Span>, g: nat, sorted: seq<Span>)
    requires Canonical(s) && !IsFree(s, g)
    requires multiset(sorted) == multiset(s + [Span(g, 1)])
    requires SortedBy(sorted, (a: Span, b: Span) => a.start <= b.start)
    ensures Tiled(sorted)
  {
    var all := s + [Span(g, 1)];
    CanonicalPairwise(s);
    NewSpanOnce(s, g);
    PermutationKeepsNoDup(all, sorted);
    PermutationElems(all, sorted);
    forall i, j | 0 <= i < j < |sorted| ensures sorted[i].End() <= sorted[j].start {
      assert sorted[i] in sorted && sorted[j] in sorted && sorted[i] != sorted[j];
      assert sorted[i].start <= sorted[j].start;
      NewSpanApart(s, g, sorted[i], sorted[j]);
    }
    forall i | 0 <= i < |sorted| ensures sorted[i].len > 0 {
      assert sorted[i] in sorted;
    }
  }

  lemma NewSpanOnce(s: seq<Span>, g: nat)
    requires Canonical(s) && !IsFree(s, g)
    ensures NoDup(s + [Span(g, 1)])
  {
    CanonicalPairwise(s);
    assert forall i :: 0 <= i < |s| ==> !s[i].Has(g);
  }

  lemma {:induction false} AppendSpan(m: seq<Span>, sp: Span)
    requires Canonical(m) && sp.len > 0
    requires m != [] ==> m[|m| - 1].End() < sp.start
    ensures Canonical(m + [sp])
    ensures FreeSet(m + [sp]) == FreeSet(m) + Range(sp)
  {
    if m != [] {
      AppendSpan(m[1..], sp);
      assert (m + [sp])[1..] == m[1..] + [sp];
    }
  }

  lemma {:induction false} ExtendLast(m: seq<Span>, sp: Span)
    requires Canonical(m) && m != [] && m[|m| - 1].End() == sp.start
    ensures var last := Span(m[|m| - 1].start, m[|m| - 1].len + sp.len);
      Canonical(m[..|m| - 1] + [last]) && FreeSet(m[..|m| - 1] + [last]) == FreeSet(m) + Range(sp)
  {
    RangeJoin(m[|m| - 1], sp);
    if |m| > 1 {
      ExtendLast(m[1..], sp);
      var last := Span(m[|m| - 1].start, m[|m| - 1].len + sp.len);
      assert (m[..|m| - 1] + [last])[1..] == m[1..][..|m| - 2] + [last];
    }
  }

  /** One pass that joins neighbours that touch. */
  method MergeTouching(sorted: seq<Span>) returns (merged: seq<Span>)
    requires Tiled(sorted)
    ensures Canonical(merged)
    ensures FreeSet(merged) == FreeSet(sorted)
  {
    merged := [];
    for n := 0 to |sorted|
      invariant Canonical(merged)
      invariant FreeSet(merged) == FreeSet(sorted[..n])
      invariant n > 0 <==> merged != []
      invariant n > 0 ==> merged[|merged| - 1].End() == sorted[n - 1].End()
    {
      var span, m := sorted[n], |merged|;
      FreeSetConcat(sorted[..n], [span]);
      assert sorted[..n + 1] == sorted[..n] + [span];
      if m > 0 && merged[m - 1].End() == span.start {
        ExtendLast(merged, span);
        merged := merged[..m - 1] + [Span(merged[m - 1].start, merged[m - 1].len + span.len)];
      } else {
        AppendSpan(merged, span);
        merged := merged + [span];
      }
    }
    assert sorted[..|sorted|] == sorted;
  }

  /** Append, sort by start, merge neighbours that touch. */
  method ReleaseGranule(spans: seq<Span>, g: nat) returns (merged: seq<Span>)
    requires Canonical(spans) && !IsFree(spans, g)
    ensures merged == AddGranule(spans, g)
  {
    var sorted := SortBy(spans + [Span(g, 1)], (a: Span, b: Span) => a.start <= b.start);
    SortedWithNewSpanIsTiled(spans, g, sorted);
    merged := MergeTouching(sorted);
    FreeSetOfPermutation(sorted, spans + [Span(g, 1)]);
    FreeSetConcat(spans, [Span(g, 1)]);
    assert Span(g, 1).Has(g) && FreeSet([Span(g, 1)]) == {g};
    ReleasedAdds(spans, g);
    CanonicalUnique(merged, AddGranule(spans, g));
  }
}
