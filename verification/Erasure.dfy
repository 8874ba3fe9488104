/** Encoding an object into ten fragments, and rebuilding any two that are missing. */
module Erasure {
  import opened Common
  import opened Galois
  import opened Linear
  import opened DecodePlans
  import opened PlanBuilder

  type Fragment = seq<Octet>

  datatype KeeError =
    | InvalidProfile
    | PayloadTooLarge(actual: nat, maximum: nat)
    | FragmentCountMismatch(expected: nat, actual: nat)
    | TooManyFragmentsMissing(missing: nat, allowed: nat)
    | TooFewFragmentsPresent(present: nat, required: nat)
    | FragmentSizeMismatch(index: nat)
    | Codec

  datatype Reply<T> = Done(value: T) | Failed(error: KeeError)

  datatype EcProfile = EcProfile(id: string, codecId: string, data: nat, parity: nat, fragmentBytes: nat)

  /** The characters that trimming a Rust string removes. */
  predicate IsWhitespace(c: char) {
    var n := c as int;
    9 <= n <= 13 || n in {0x20, 0x85, 0xA0, 0x1680, 0x2028, 0x2029, 0x202F, 0x205F, 0x3000} || 0x2000 <= n <= 0x200A
  }

  predicate IsBlank(s: string) {
    forall i :: 0 <= i < |s| ==> IsWhitespace(s[i])
  }

  const MIN_FRAGMENT_BYTES: nat := 64 * 1024

  predicate IsPowerOfTwo(n: nat) {
    n == 1 || (n > 1 && n % 2 == 0 && IsPowerOfTwo(n / 2))
  }

  predicate ValidProfile(p: EcProfile) {
    && !IsBlank(p.id) && !IsBlank(p.codecId)
    && p.data > 0 && p.parity > 0 && p.data + p.parity <= 256
    && p.fragmentBytes >= MIN_FRAGMENT_BYTES && IsPowerOfTwo(p.fragmentBytes) && p.fragmentBytes % 4096 == 0
  }

  /** The shape the prepared backend is built for; every other profile takes another codec. */
  predicate Supported(p: EcProfile) {
    p.data == K && p.parity == PARITY
  }

  // ---- what encoding means ----

  function Zeros(n: nat): Fragment {
    seq(n, i => ZERO)
  }

  /** The part of the object that goes to data fragment `i`, padded with zeros. */
  function Padded(payload: Fragment, i: nat, len: nat): (r: Fragment)
    ensures |r| == len
  {
    seq(len, b requires 0 <= b < len => if i * len + b < |payload| then payload[i * len + b] else ZERO)
  }

  function Column(fragments: seq<Fragment>, b: nat): Vector
    requires |fragments| >= K && forall j :: 0 <= j < K ==> b < |fragments[j]|
  {
    seq(K, j requires 0 <= j < K => fragments[j][b])
  }

  /** The library's encoder: each output byte is a matrix row times the column of input bytes. */
  function EncodeData(f: Field, matrix: Matrix, rows: nat, sources: seq<Fragment>, len: nat): seq<Fragment>
    requires |matrix| == rows * K && |sources| == K && forall j :: 0 <= j < K ==> |sources[j]| == len
  {
    seq(rows, r requires 0 <= r < rows => seq(len, b requires 0 <= b < len => Dot(f, Row(matrix, r), Column(sources, b))))
  }

  function DataFragments(payload: Fragment, len: nat): seq<Fragment> {
    seq(K, i requires 0 <= i < K => Padded(payload, i, len))
  }

  function ParityRows(f: Field): Matrix {
    Generator(f)[K * K..]
  }

  /** The ten fragments of an object. */
  function Encoded(f: Field, payload: Fragment, len: nat): seq<Fragment> {
    DataFragments(payload, len) + EncodeData(f, ParityRows(f), PARITY, DataFragments(payload, len), len)
  }

  /** Every byte of every fragment is its generator row times the column of data bytes. */
  ghost predicate Codeword(f: Field, fragments: seq<Fragment>, len: nat) {
    && |fragments| == TOTAL && (forall i :: 0 <= i < TOTAL ==> |fragments[i]| == len)
    && forall i, b :: 0 <= i < TOTAL && 0 <= b < len ==> ByteFits(f, fragments, i, b)
  }

  ghost predicate ByteFits(f: Field, fragments: seq<Fragment>, i: nat, b: nat)
    requires i < |fragments| && |fragments| >= K && b < |fragments[i]| && forall j :: 0 <= j < K ==> b < |fragments[j]|
  {
    fragments[i][b] == Dot(f, GeneratorRow(f, i), Column(fragments, b))
  }

  lemma ParityRow(f: Field, r: nat)
    requires r < PARITY
    ensures Row(ParityRows(f), r) == GeneratorRow(f, K + r)
  {
    RowOfGenerator(f, K + r);
    var g := Generator(f);
    assert g[K * K..][r * K..(r + 1) * K] == g[(K + r) * K..(K + r + 1) * K];
  }

  lemma EncodedIsCodeword(f: Field, payload: Fragment, len: nat)
    requires Adds(f) && Commutative(f) && Units(f)
    ensures Codeword(f, Encoded(f, payload, len), len)
  {
    var fragments, data := Encoded(f, payload, len), DataFragments(payload, len);
    forall i, b | 0 <= i < TOTAL && 0 <= b < len ensures ByteFits(f, fragments, i, b) {
      assert Column(fragments, b) == Column(data, b);
      if i < K {
        RowOfGenerator(f, i);
        DotUnit(f, i, Column(data, b));
      } else {
        ParityRow(f, i - K);
      }
    }
  }

  // ---- preparing and encoding ----

  ghost predicate Prepared(shards: seq<Fragment>, payload: Fragment, len: nat) {
    && |shards| == TOTAL
    && (forall i :: 0 <= i < K ==> shards[i] == Padded(payload, i, len))
    && (forall i :: K <= i < TOTAL ==> shards[i] == Zeros(len))
  }

  /** Whatever the buffers held, they end up with the padded object and zeroed parity. */
  method PrepareShards(p: EcProfile, payload: Fragment, shards: array<Fragment>) returns (r: Reply<()>)
    requires Supported(p)
    modifies shards
    ensures r == if !ValidProfile(p) then Failed(InvalidProfile)
                 else if |payload| > K * p.fragmentBytes then Failed(PayloadTooLarge(|payload|, K * p.fragmentBytes))
                 else if shards.Length != TOTAL then Failed(FragmentCountMismatch(TOTAL, shards.Length))
                 else Done(())
    ensures r.Done? ==> Prepared(shards[..], payload, p.fragmentBytes)
    ensures r.Failed? ==> shards[..] == old(shards[..])
  {
    if !ValidProfile(p) {
      return Failed(InvalidProfile);
    }
    if |payload| > K * p.fragmentBytes {
      return Failed(PayloadTooLarge(|payload|, K * p.fragmentBytes));
    }
    if shards.Length != TOTAL {
      return Failed(FragmentCountMismatch(TOTAL, shards.Length));
    }
    var len := p.fragmentBytes;
    for i := 0 to TOTAL
      invariant forall k :: 0 <= k < i ==> shards[k] == Zeros(len)
    {
      shards[i] := Zeros(len);
    }
    CopyChunks(payload, len, shards);
    return Done(());
  }

  /** Copies the object chunk by chunk to the front of the zeroed shards. */
  method CopyChunks(payload: Fragment, len: nat, shards: array<Fragment>)
    requires len > 0 && |payload| <= K * len && shards.Length == TOTAL
    requires forall k :: 0 <= k < TOTAL ==> shards[k] == Zeros(len)
    modifies shards
    ensures Prepared(shards[..], payload, len)
  {
    var index, start := 0, 0;
    while start < |payload|
      invariant 0 <= index <= K && start == index * len && (start < |payload| ==> index < K)
      invariant forall k :: 0 <= k < index ==> shards[k] == Padded(payload, k, len)
      invariant forall k :: index <= k < TOTAL ==> shards[k] == Zeros(len)
    {
      var chunk := if start + len <= |payload| then payload[start..start + len] else payload[start..];
      assert chunk + shards[index][|chunk|..] == Padded(payload, index, len);
      shards[index] := chunk + shards[index][|chunk|..];
      NextChunkStart(index, len, |payload|);
      index, start := index + 1, start + len;
    }
    forall k | index <= k < K ensures shards[k] == Padded(payload, k, len) {
      ChunkPastEnd(payload, index, k, len);
    }
  }

  lemma NextChunkStart(index: nat, len: nat, n: nat)
    requires n <= K * len && index < K
    ensures (index + 1) * len == index * len + len && ((index + 1) * len < n ==> index + 1 < K)
  {
  }

  lemma ChunkPastEnd(payload: Fragment, index: nat, k: nat, len: nat)
    requires index <= k && |payload| <= index * len
    ensures Padded(payload, k, len) == Zeros(len)
  {
    assert k * len >= index * len;
  }

  method EncodeInto(f: Field, p: EcProfile, payload: Fragment, shards: array<Fragment>) returns (r: Reply<()>)
    requires Supported(p)
    modifies shards
    ensures r.Done? <==> ValidProfile(p) && |payload| <= K * p.fragmentBytes && shards.Length == TOTAL
    ensures r.Done? ==> shards[..] == Encoded(f, payload, p.fragmentBytes)
    ensures r.Failed? ==> shards[..] == old(shards[..])
  {
    r := PrepareShards(p, payload, shards);
    if r.Failed? {
      return;
    }
    var len := p.fragmentBytes;
    var data := shards[..K];
    assert data == DataFragments(payload, len);
    var parity := EncodeData(f, ParityRows(f), PARITY, data, len);
    shards[K], shards[K + 1] := parity[0], parity[1];
    assert shards[..] == data + parity;
  }

  /** The data fragments, joined and cut to the object's length, are the object. */
  lemma JoinedIsObject(f: Field, payload: Fragment, len: nat)
    requires len > 0 && |payload| <= K * len
    ensures Joined(Encoded(f, payload, len), K, len)[..|payload|] == payload
  {
    var joined := Joined(Encoded(f, payload, len), K, len);
    forall k | 0 <= k < |payload| ensures joined[k] == payload[k] {
      DivMod(k, len);
      JoinedByte(f, payload, len, k / len, k % len);
    }
  }

  lemma JoinedByte(f: Field, payload: Fragment, len: nat, i: nat, b: nat)
    requires i < K && b < len && i * len + b < |payload|
    ensures i * len + b < K * len && Joined(Encoded(f, payload, len), K, len)[i * len + b] == payload[i * len + b]
  {
    var fragments := Encoded(f, payload, len);
    JoinedAt(fragments, K, len, i, b);
    assert fragments[i] == Padded(payload, i, len);
  }

  function Joined(fragments: seq<Fragment>, n: nat, len: nat): (r: Fragment)
    requires n <= |fragments| && forall i :: 0 <= i < n ==> |fragments[i]| == len
    ensures |r| == n * len
  {
    if n == 0 then [] else Joined(fragments, n - 1, len) + fragments[n - 1]
  }

  lemma {:induction false} JoinedAt(fragments: seq<Fragment>, n: nat, len: nat, i: nat, b: nat)
    requires n <= |fragments| && (forall j :: 0 <= j < n ==> |fragments[j]| == len) && i < n && b < len
    ensures i * len + b < n * len && Joined(fragments, n, len)[i * len + b] == fragments[i][b]
  {
    if i < n - 1 {
      JoinedAt(fragments, n - 1, len, i, b);
    }
  }

  lemma DivMod(k: nat, len: nat)
    requires len > 0 && k < K * len
    ensures k == k / len * len + k % len && k / len < K
  {
  }

  // ---- rebuilding ----

  function MissingFrom(slots: seq<Option<Fragment>>, n: nat): seq<nat>
    requires n <= |slots|
  {
    if n == 0 then [] else MissingFrom(slots, n - 1) + if slots[n - 1].None? then [n - 1] else []
  }

  lemma {:induction false} MissingMeaning(slots: seq<Option<Fragment>>, n: nat)
    requires n <= |slots|
    ensures forall i :: i in MissingFrom(slots, n) <==> 0 <= i < n && slots[i].None?
    ensures forall i, j :: 0 <= i < j < |MissingFrom(slots, n)| ==> MissingFrom(slots, n)[i] < MissingFrom(slots, n)[j]
    ensures |MissingFrom(slots, n)| <= n
  {
    if n > 0 {
      MissingMeaning(slots, n - 1);
      var front := MissingFrom(slots, n - 1);
      assert forall i :: 0 <= i < |front| ==> front[i] in front;
    }
  }

  /** The first present fragment of the wrong size, if any. */
  function WrongSize(slots: seq<Option<Fragment>>, len: nat, i: nat): Option<nat>
    requires i <= |slots|
    decreases |slots| - i
  {
    if i == |slots| then None
    else if slots[i].Some? && |slots[i].value| != len then Some(i)
    else WrongSize(slots, len, i + 1)
  }

  lemma {:induction false} RightSizes(slots: seq<Option<Fragment>>, len: nat, i: nat)
    requires i <= |slots|
    ensures WrongSize(slots, len, i).None? <==>
      forall j :: i <= j < |slots| && slots[j].Some? ==> |slots[j].value| == len
    decreases |slots| - i
  {
    if i < |slots| {
      RightSizes(slots, len, i + 1);
    }
  }

  function SlotError(p: EcProfile, slots: seq<Option<Fragment>>): Option<KeeError> {
    if !ValidProfile(p) then Some(InvalidProfile)
    else if |slots| != TOTAL then Some(FragmentCountMismatch(TOTAL, |slots|))
    else
      var missing := |MissingFrom(slots, |slots|)|;
      if missing > PARITY then Some(TooManyFragmentsMissing(missing, PARITY))
      else
        match WrongSize(slots, p.fragmentBytes, 0)
        case Some(i) => Some(FragmentSizeMismatch(i))
        case None => None
  }

  /** The slots hold fragments of `whole`, and nothing else. */
  ghost predicate PartOf(slots: seq<Option<Fragment>>, whole: seq<Fragment>) {
    |slots| == |whole| && forall i :: 0 <= i < |slots| && slots[i].Some? ==> slots[i].value == whole[i]
  }

  /** The plan's rows, applied to the surviving fragments, give the missing ones. */
  lemma PlanRebuilds(f: Field, plan: Plan, whole: seq<Fragment>, len: nat, sources: seq<Fragment>, r: nat)
    requires PlanWorks(f, plan) && Codeword(f, whole, len) && r < plan.rows && |sources| == K
    requires forall k :: 0 <= k < K ==> sources[k] == whole[plan.sources[k]]
    ensures EncodeData(f, plan.matrix, plan.rows, sources, len)[r] == whole[plan.missing[r]]
  {
    var m := plan.missing[r];
    var out := EncodeData(f, plan.matrix, plan.rows, sources, len)[r];
    forall b | 0 <= b < len ensures out[b] == whole[m][b] {
      var d := Column(whole, b);
      forall k | 0 <= k < K ensures Column(sources, b)[k] == Surviving(f, plan.sources, d)[k] {
        assert ByteFits(f, whole, plan.sources[k], b);
      }
      assert Column(sources, b) == Surviving(f, plan.sources, d);
      assert RowWorks(f, plan, r, d);
      assert ByteFits(f, whole, m, b);
    }
  }

  /**
   * Rebuilds the missing fragments in place and hands all ten out. For every set of at most two missing
   * fragments of a codeword the answer is the codeword.
   */
  method Reconstruct(f: Field, plans: map<Mask, Plan>, p: EcProfile, slots: array<Option<Fragment>>, ghost whole: seq<Fragment>)
    returns (r: Reply<seq<Fragment>>)
    requires Supported(p) && AllPlanned(f, plans)
    modifies slots
    ensures SlotError(p, old(slots[..])).Some? ==>
      r == Failed(SlotError(p, old(slots[..])).value) && slots[..] == old(slots[..])
    ensures SlotError(p, old(slots[..])).None? && Codeword(f, whole, p.fragmentBytes) && PartOf(old(slots[..]), whole) ==>
      r == Done(whole) && forall i :: 0 <= i < slots.Length ==> slots[i] == None
  {
    var error := SlotError(p, slots[..]);
    if error.Some? {
      return Failed(error.value);
    }
    RightSizes(slots[..], p.fragmentBytes, 0);
    Rebuild(f, plans, p.fragmentBytes, slots, whole);
    r := TakeAll(slots);
    assert |r.value| == |whole| && (forall i :: 0 <= i < |whole| ==> r.value[i] == whole[i]) ==> r.value == whole;
  }

  method Rebuild(f: Field, plans: map<Mask, Plan>, len: nat, slots: array<Option<Fragment>>, ghost whole: seq<Fragment>)
    requires AllPlanned(f, plans) && slots.Length == TOTAL && |MissingFrom(slots[..], TOTAL)| <= PARITY
    requires forall i :: 0 <= i < TOTAL && slots[i].Some? ==> |slots[i].value| == len
    modifies slots
    ensures forall i :: 0 <= i < TOTAL ==> slots[i].Some?
    ensures Codeword(f, whole, len) && PartOf(old(slots[..]), whole) ==>
      forall i :: 0 <= i < TOTAL ==> slots[i] == Some(whole[i])
  {
    var missing := MissingFrom(slots[..], TOTAL);
    MissingMeaning(slots[..], TOTAL);
    if missing != [] {
      ErasureOf(missing);
      var key := ErasureKey(missing);
      assert PlannedFor(f, plans, missing);
      FillMissing(f, plans[key], len, slots, whole);
    }
  }

  lemma ErasureOf(missing: seq<nat>)
    requires |missing| <= PARITY && (forall i :: i in missing ==> i < TOTAL)
    requires forall i, j :: 0 <= i < j < |missing| ==> missing[i] < missing[j]
    ensures DecodePlans.Erasure(missing)
  {
    assert forall i :: 0 <= i < |missing| ==> missing[i] in missing;
  }

  method FillMissing(f: Field, plan: Plan, len: nat, slots: array<Option<Fragment>>, ghost whole: seq<Fragment>)
    requires PlanWorks(f, plan) && slots.Length == TOTAL
    requires forall i :: 0 <= i < TOTAL ==> (slots[i].None? <==> i in plan.missing)
    requires forall i :: 0 <= i < TOTAL && slots[i].Some? ==> |slots[i].value| == len
    modifies slots
    ensures forall i :: 0 <= i < TOTAL ==> slots[i].Some?
    ensures Codeword(f, whole, len) && PartOf(old(slots[..]), whole) ==>
      forall i :: 0 <= i < TOTAL ==> slots[i] == Some(whole[i])
  {
    var sources: seq<Fragment> := [];
    for k := 0 to K
      invariant |sources| == k && forall j :: 0 <= j < k ==> Some(sources[j]) == slots[plan.sources[j]]
    {
      sources := sources + [slots[plan.sources[k]].value];
    }
    var recovered := EncodeData(f, plan.matrix, plan.rows, sources, len);
    if Codeword(f, whole, len) && PartOf(slots[..], whole) {
      forall r | 0 <= r < plan.rows ensures recovered[r] == whole[plan.missing[r]] {
        PlanRebuilds(f, plan, whole, len, sources, r);
      }
    }
    for r := 0 to plan.rows
      invariant forall i :: 0 <= i < TOTAL && i !in plan.missing ==> slots[i] == old(slots[i])
      invariant forall q :: 0 <= q < r ==> slots[plan.missing[q]] == Some(recovered[q])
    {
      slots[plan.missing[r]] := Some(recovered[r]);
    }
  }

  method TakeAll(slots: array<Option<Fragment>>) returns (r: Reply<seq<Fragment>>)
    requires forall i :: 0 <= i < slots.Length ==> slots[i].Some?
    modifies slots
    ensures forall i :: 0 <= i < slots.Length ==> slots[i] == None
    ensures r.Done? && |r.value| == slots.Length
    ensures forall i :: 0 <= i < slots.Length ==> old(slots[i]) == Some(r.value[i])
  {
    var taken: seq<Fragment> := [];
    for i := 0 to slots.Length
      invariant |taken| == i
      invariant forall j :: 0 <= j < i ==> slots[j] == None && old(slots[j]) == Some(taken[j])
      invariant forall j :: i <= j < slots.Length ==> slots[j] == old(slots[j])
    {
      taken := taken + [slots[i].value];
      slots[i] := None;
    }
    return Done(taken);
  }

  // ---- the round trip ----

  lemma FewMissing(slots: seq<Option<Fragment>>, lost: set<nat>)
    requires forall i :: 0 <= i < |slots| ==> (slots[i].None? ==> i in lost)
    ensures |MissingFrom(slots, |slots|)| <= |lost|
  {
    var missing := MissingFrom(slots, |slots|);
    MissingMeaning(slots, |slots|);
    NoDupSize(missing);
    SubsetSize(Elems(missing), lost);
  }

  /** Encoding into any buffers, losing any two fragments and rebuilding gives back every fragment and the object. */
  method LoseAndRebuild(f: Field, invert: Matrix -> Option<Matrix>, p: EcProfile, payload: Fragment,
                        shards: array<Fragment>, lost: set<nat>) returns (r: Reply<seq<Fragment>>)
    requires Lawful(f) && Inverts(f, invert) && Supported(p) && ValidProfile(p)
    requires |payload| <= K * p.fragmentBytes && shards.Length == TOTAL && |lost| <= PARITY
    modifies shards
    ensures r == Done(Encoded(f, payload, p.fragmentBytes))
    ensures Joined(Encoded(f, payload, p.fragmentBytes), K, p.fragmentBytes)[..|payload|] == payload
  {
    var len := p.fragmentBytes;
    var plans := BuildDecodePlans(f, invert);
    var encoded := EncodeInto(f, p, payload, shards);
    ghost var whole := Encoded(f, payload, len);
    EncodedIsCodeword(f, payload, len);
    JoinedIsObject(f, payload, len);
    var slots := LoseSome(shards, lost);
    FewMissing(slots[..], lost);
    RightSizes(slots[..], len, 0);
    r := Reconstruct(f, plans, p, slots, whole);
  }

  method LoseSome(shards: array<Fragment>, lost: set<nat>) returns (slots: array<Option<Fragment>>)
    ensures fresh(slots) && slots.Length == shards.Length
    ensures forall i :: 0 <= i < slots.Length ==> slots[i] == if i in lost then None else Some(shards[i])
  {
    slots := new Option<Fragment>[shards.Length](i => None);
    for i := 0 to shards.Length
      invariant forall j :: 0 <= j < i ==> slots[j] == if j in lost then None else Some(shards[j])
    {
      slots[i] := if i in lost then None else Some(shards[i]);
    }
  }
}
