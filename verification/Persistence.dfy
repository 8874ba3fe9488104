/** Writing allocator state: chunked span lists, write units, and byte-bounded batches. */
module Persistence {
  import opened Common
  import opened Spans
  import opened Records
  import opened Keys

  /** One stored piece of a target's free-span list. */
  datatype Chunk = Chunk(target: Id, index: nat, spans: seq<Span>)

  /** Stored values, already decoded. */
  datatype Value =
    | TargetValue(target: TargetRecord)
    | ChunkValue(chunk: Chunk)
    | ReservationValue(reservation: Record)
    | OtherValue(bytes: seq<Byte>)

  type Rows = map<Key, Value>

  const SPANS_PER_CHUNK: nat := 1024

  // ---- chunks ----

  function ChunkCount(n: nat): (c: nat)
    ensures c > 0 && (c - 1) * SPANS_PER_CHUNK <= n <= c * SPANS_PER_CHUNK
  {
    if n == 0 then 1 else (n + SPANS_PER_CHUNK - 1) / SPANS_PER_CHUNK
  }

  /** Where chunk `i` of an `n`-element list ends. */
  function ChunkEnd(n: nat, i: nat): (e: nat)
    requires i < ChunkCount(n)
    ensures i * SPANS_PER_CHUNK <= e <= n
    ensures e == if i + 1 == ChunkCount(n) then n else (i + 1) * SPANS_PER_CHUNK
  {
    Min((i + 1) * SPANS_PER_CHUNK, n)
  }

  function ChunkAt(t: Id, spans: seq<Span>, i: nat): Chunk
    requires i < ChunkCount(|spans|)
  {
    Chunk(t, i, spans[i * SPANS_PER_CHUNK..ChunkEnd(|spans|, i)])
  }

  /** At least one chunk, so that an empty list still replaces what was stored. */
  function SplitIntoChunks(t: Id, spans: seq<Span>): seq<Chunk> {
    seq(ChunkCount(|spans|), i requires 0 <= i < ChunkCount(|spans|) => ChunkAt(t, spans, i))
  }

  // ---- chunk keys ----

  /** Decimal digits, zero-padded to `width`. */
  function Decimal(n: nat, width: nat): (r: Id)
    ensures |r| <= n + width
    decreases n, width
  {
    if n == 0 && width == 0 then []
    else Decimal(n / 10, if width > 0 then width - 1 else 0) + [48 + n % 10]
  }

  function Parse(digits: Id): int {
    if digits == [] then 0 else 10 * Parse(digits[..|digits| - 1]) + digits[|digits| - 1] - 48
  }

  lemma {:induction false} ParseDecimal(n: nat, width: nat)
    ensures Parse(Decimal(n, width)) == n
    decreases n, width
  {
    if n > 0 || width > 0 {
      var front := Decimal(n / 10, if width > 0 then width - 1 else 0);
      ParseDecimal(n / 10, if width > 0 then width - 1 else 0);
      assert (front + [48 + n % 10])[..|front|] == front;
    }
  }

  function OneKey(prefix: Byte, t: Id): Key {
    EncodeKey(prefix, [t])
  }

  function TargetKey(t: Id): Key {
    OneKey(PREFIX_TARGET, t)
  }

  function ReservationKey(id: Id): Key {
    OneKey(PREFIX_RESERVATION, id)
  }

  function SpanPrefix(t: Id): Key {
    EncodeKey(PREFIX_TARGET_SPAN, [t])
  }

  function ChunkKey(t: Id, i: nat): Key {
    EncodeKey(PREFIX_TARGET_SPAN, [t, Decimal(i, 10)])
  }

  predicate Short(t: Id) {
    |t| < U32
  }

  lemma OneKeyFacts(p: Byte, t: Id, q: Byte, u: Id)
    requires Short(t) && Short(u)
    ensures OneKey(p, t) == OneKey(q, u) <==> p == q && t == u
    ensures EncodeKey(p, []) <= OneKey(q, u) <==> p == q
  {
    KeyInjective(p, [t], q, [u]);
    KeyPrefixIff(p, [], q, [u]);
  }

  lemma ChunkKeyFacts(t: Id, i: nat, u: Id, j: nat)
    requires Short(t) && Short(u) && i < U32 - 10 && j < U32 - 10
    ensures ChunkKey(t, i) == ChunkKey(u, j) <==> t == u && i == j
    ensures SpanPrefix(t) <= ChunkKey(u, j) <==> t == u
    ensures EncodeKey(PREFIX_TARGET_SPAN, []) <= ChunkKey(u, j)
  {
    ParseDecimal(i, 10);
    ParseDecimal(j, 10);
    KeyInjective(PREFIX_TARGET_SPAN, [t, Decimal(i, 10)], PREFIX_TARGET_SPAN, [u, Decimal(j, 10)]);
    assert [t, Decimal(i, 10)] == [u, Decimal(j, 10)] ==> [t, Decimal(i, 10)][1] == [u, Decimal(j, 10)][1];
    KeyPrefixIff(PREFIX_TARGET_SPAN, [t], PREFIX_TARGET_SPAN, [u, Decimal(j, 10)]);
    assert t == u ==> [t] == [u, Decimal(j, 10)][..1];
    KeyPrefixIff(PREFIX_TARGET_SPAN, [], PREFIX_TARGET_SPAN, [u, Decimal(j, 10)]);
  }

  /** Chunk keys and one-segment keys of another kind never meet. */
  lemma KindsApart(p: Byte, t: Id, u: Id, j: nat)
    requires p != PREFIX_TARGET_SPAN && Short(t) && Short(u) && j < U32 - 10
    ensures OneKey(p, t) != ChunkKey(u, j)
    ensures !(EncodeKey(PREFIX_TARGET_SPAN, []) <= OneKey(p, t))
    ensures !(EncodeKey(p, []) <= ChunkKey(u, j))
    ensures !(SpanPrefix(u) <= OneKey(p, t))
  {
    KeyInjective(p, [t], PREFIX_TARGET_SPAN, [u, Decimal(j, 10)]);
    KeyPrefixIff(PREFIX_TARGET_SPAN, [], p, [t]);
    KeyPrefixIff(p, [], PREFIX_TARGET_SPAN, [u, Decimal(j, 10)]);
    KeyPrefixIff(PREFIX_TARGET_SPAN, [u], p, [t]);
  }

  // ---- write operations ----

  datatype WriteOp = Put(key: Key, value: Value) | Clear(key: Key) | ClearRange(begin: Key, end: Key)

  function ApplyOp(kv: Rows, op: WriteOp): Rows {
    match op
    case Put(k, v) => kv[k := v]
    case Clear(k) => kv - {k}
    case ClearRange(b, e) => map k | k in kv && !InSpan(b, e, k) :: kv[k]
  }

  function ApplyAll(kv: Rows, ops: seq<WriteOp>): Rows {
    if ops == [] then kv else ApplyOp(ApplyAll(kv, ops[..|ops| - 1]), ops[|ops| - 1])
  }

  lemma {:induction false} ApplyConcat(kv: Rows, a: seq<WriteOp>, b: seq<WriteOp>)
    ensures ApplyAll(kv, a + b) == ApplyAll(ApplyAll(kv, a), b)
  {
    if b == [] {
      assert a + b == a;
    } else {
      ApplyConcat(kv, a, b[..|b| - 1]);
      assert (a + b)[..|a + b| - 1] == a + b[..|b| - 1];
    }
  }

  function ChunkPuts(chunks: seq<Chunk>): seq<WriteOp> {
    seq(|chunks|, i requires 0 <= i < |chunks| => Put(ChunkKey(chunks[i].target, chunks[i].index), ChunkValue(chunks[i])))
  }

  /** The record is always written; the span chunks are cleared and rewritten only on request. */
  function TargetUnit(e: TargetState, rewrite: bool): seq<WriteOp> {
    var record := [Put(TargetKey(e.target.id), TargetValue(e.target))];
    if !rewrite then record
    else
      record + [ClearRange(SpanPrefix(e.target.id), RangeEnd(SpanPrefix(e.target.id)))]
      + ChunkPuts(SplitIntoChunks(e.target.id, e.spans))
  }

  // ---- what is stored ----

  /** Under `prefix` the database holds exactly the entries of `m`. */
  ghost predicate StoredAs(kv: Rows, prefix: Byte, m: map<Id, Value>) {
    && (forall t :: t in m ==> Short(t) && OneKey(prefix, t) in kv && kv[OneKey(prefix, t)] == m[t])
    && (forall k :: k in kv && EncodeKey(prefix, []) <= k ==> exists t :: t in m && k == OneKey(prefix, t))
  }

  type SpanLists = map<Id, seq<Span>>

  /** The keys of span chunks all start like this. */
  const ALL_SPANS: Key := EncodeKey(PREFIX_TARGET_SPAN, [])

  ghost predicate Storable(spans: SpanLists) {
    forall u :: u in spans ==> Short(u) && |spans[u]| < U32
  }

  /** The database holds exactly the chunks of these span lists. */
  ghost predicate StoredSpans(kv: Rows, spans: SpanLists) {
    && Storable(spans)
    && (forall u, i :: u in spans && 0 <= i < ChunkCount(|spans[u]|) ==>
         ChunkKey(u, i) in kv && kv[ChunkKey(u, i)] == ChunkValue(ChunkAt(u, spans[u], i)))
    && (forall k :: k in kv && ALL_SPANS <= k ==> SomeChunk(spans, k))
  }

  ghost predicate SomeChunk(spans: SpanLists, k: Key) {
    exists u, i :: u in spans && 0 <= i < ChunkCount(|spans[u]|) && k == ChunkKey(u, i)
  }

  // ---- what the operations do to it ----

  /** Operations on keys that do not start like span chunks. */
  predicate OutsideSpans(op: WriteOp) {
    !op.ClearRange? && !(ALL_SPANS <= op.key)
  }

  lemma OutsideKeepsSpans(kv: Rows, op: WriteOp, spans: SpanLists)
    requires StoredSpans(kv, spans) && OutsideSpans(op)
    ensures StoredSpans(ApplyOp(kv, op), spans)
  {
    forall u, i | u in spans && 0 <= i < ChunkCount(|spans[u]|) ensures ChunkKey(u, i) != op.key {
      ChunkKeyFacts(u, i, u, i);
    }
  }

  /** A span-neutral write touches no span key. */
  lemma RecordWriteIsOutside(e: TargetState)
    requires Short(e.target.id)
    ensures forall op :: op in TargetUnit(e, false) ==> OutsideSpans(op)
  {
    KindsApart(PREFIX_TARGET, e.target.id, e.target.id, 0);
  }

  lemma ClearSpansKeepsOthers(kv: Rows, t: Id, spans: SpanLists)
    requires StoredSpans(kv, spans) && Short(t)
    ensures StoredSpans(ApplyOp(kv, ClearRange(SpanPrefix(t), RangeEnd(SpanPrefix(t)))), spans - {t})
  {
    var kv' := ApplyOp(kv, ClearRange(SpanPrefix(t), RangeEnd(SpanPrefix(t))));
    forall k ensures k in kv' <==> k in kv && !(SpanPrefix(t) <= k) {
      EncodedRange(PREFIX_TARGET_SPAN, [t], k);
    }
    forall u, i | u in spans && u != t && 0 <= i < ChunkCount(|spans[u]|) ensures ChunkKey(u, i) in kv' {
      ChunkKeyFacts(t, i, u, i);
    }
    forall k | k in kv' && ALL_SPANS <= k ensures SomeChunk(spans - {t}, k) {
      var u, i :| u in spans && 0 <= i < ChunkCount(|spans[u]|) && k == ChunkKey(u, i);
      ChunkKeyFacts(t, i, u, i);
    }
  }

  /** The key of one of the first `n` chunks of `t`. */
  ghost predicate ChunkKeyBelow(t: Id, n: nat, k: Key) {
    exists i :: 0 <= i < n && k == ChunkKey(t, i)
  }

  /** `kv'` is `kv` with the first `n` chunks of a list written over it. */
  ghost predicate Overlaid(kv: Rows, kv': Rows, t: Id, list: seq<Span>, n: nat)
    requires n <= ChunkCount(|list|)
  {
    && (forall i :: 0 <= i < n ==> ChunkKey(t, i) in kv' && kv'[ChunkKey(t, i)] == ChunkValue(ChunkAt(t, list, i)))
    && (forall k :: k in kv' ==> (k in kv && kv'[k] == kv[k]) || ChunkKeyBelow(t, n, k))
    && (forall k :: k in kv ==> k in kv' && (kv'[k] == kv[k] || ChunkKeyBelow(t, n, k)))
  }

  lemma {:induction false} ChunkPutsOverlay(kv: Rows, t: Id, list: seq<Span>, n: nat) returns (kv': Rows)
    requires Short(t) && |list| < U32 && n <= ChunkCount(|list|)
    ensures kv' == ApplyAll(kv, ChunkPuts(SplitIntoChunks(t, list))[..n]) && Overlaid(kv, kv', t, list, n)
  {
    var puts := ChunkPuts(SplitIntoChunks(t, list));
    if n == 0 {
      kv' := kv;
    } else {
      var prev := ChunkPutsOverlay(kv, t, list, n - 1);
      kv' := ApplyOp(prev, puts[n - 1]);
      assert puts[..n][..n - 1] == puts[..n - 1];
      OverlayNext(kv, prev, t, list, n - 1, kv');
    }
  }

  lemma OverlayNext(kv: Rows, prev: Rows, t: Id, list: seq<Span>, n: nat, kv': Rows)
    requires Short(t) && |list| < U32 && n < ChunkCount(|list|) && Overlaid(kv, prev, t, list, n)
    requires kv' == prev[ChunkKey(t, n) := ChunkValue(ChunkAt(t, list, n))]
    ensures Overlaid(kv, kv', t, list, n + 1)
  {
    BelowNext(t, n);
    forall i | 0 <= i < n + 1 ensures ChunkKey(t, i) in kv' && kv'[ChunkKey(t, i)] == ChunkValue(ChunkAt(t, list, i)) {
      if i < n {
        ChunkKeyFacts(t, i, t, n);
      }
    }
  }

  lemma BelowNext(t: Id, n: nat)
    ensures ChunkKeyBelow(t, n + 1, ChunkKey(t, n))
    ensures forall k :: ChunkKeyBelow(t, n, k) ==> ChunkKeyBelow(t, n + 1, k)
  {
    forall k | ChunkKeyBelow(t, n, k) ensures ChunkKeyBelow(t, n + 1, k) {
      var i :| 0 <= i < n && k == ChunkKey(t, i);
      assert i < n + 1;
    }
    assert n < n + 1;
  }

  /** Rewriting a target's spans leaves exactly the new list under it, and every other list alone. */
  lemma RewriteStores(kv: Rows, t: Id, list: seq<Span>, spans: SpanLists)
    requires StoredSpans(kv, spans) && Short(t) && |list| < U32
    ensures StoredSpans(ApplyAll(ApplyOp(kv, ClearRange(SpanPrefix(t), RangeEnd(SpanPrefix(t)))),
                                 ChunkPuts(SplitIntoChunks(t, list))), spans[t := list])
  {
    var cleared := ApplyOp(kv, ClearRange(SpanPrefix(t), RangeEnd(SpanPrefix(t))));
    assert spans[t := list] - {t} == spans - {t};
    ClearSpansKeepsOthers(kv, t, spans);
    WrittenInFull(cleared, spans[t := list], t);
  }

  lemma WrittenInFull(kv: Rows, spans: SpanLists, t: Id)
    requires t in spans && StoredSpans(kv, spans - {t}) && Storable(spans)
    ensures StoredSpans(ApplyAll(kv, ChunkPuts(SplitIntoChunks(t, spans[t]))), spans)
  {
    var n := ChunkCount(|spans[t]|);
    var puts := ChunkPuts(SplitIntoChunks(t, spans[t]));
    assert puts[..n] == puts;
    var kv' := ChunkPutsOverlay(kv, t, spans[t], n);
    OverlayStores(kv, kv', spans, t);
  }

  lemma OverlayStores(kv: Rows, kv': Rows, spans: SpanLists, t: Id)
    requires t in spans && StoredSpans(kv, spans - {t}) && Storable(spans)
    requires Overlaid(kv, kv', t, spans[t], ChunkCount(|spans[t]|))
    ensures StoredSpans(kv', spans)
  {
    var n := ChunkCount(|spans[t]|);
    forall u, i | u in spans && u != t && 0 <= i < ChunkCount(|spans[u]|) ensures !ChunkKeyBelow(t, n, ChunkKey(u, i)) {
      forall j | 0 <= j < n ensures ChunkKey(t, j) != ChunkKey(u, i) {
        ChunkKeyFacts(t, j, u, i);
      }
    }
    forall k | k in kv' && ALL_SPANS <= k ensures SomeChunk(spans, k) {
      if !ChunkKeyBelow(t, n, k) {
        assert SomeChunk(spans - {t}, k);
      }
    }
  }

  // ---- one-segment entries ----

  lemma PutStores(kv: Rows, prefix: Byte, m: map<Id, Value>, t: Id, v: Value)
    requires StoredAs(kv, prefix, m) && Short(t)
    ensures StoredAs(ApplyOp(kv, Put(OneKey(prefix, t), v)), prefix, m[t := v])
  {
    var kv' := ApplyOp(kv, Put(OneKey(prefix, t), v));
    forall u | u in m[t := v] ensures OneKey(prefix, u) in kv' && kv'[OneKey(prefix, u)] == m[t := v][u] {
      OneKeyFacts(prefix, t, prefix, u);
    }
    forall k | k in kv' && EncodeKey(prefix, []) <= k ensures exists u :: u in m[t := v] && k == OneKey(prefix, u) {
      if k == OneKey(prefix, t) {
        assert t in m[t := v];
      } else {
        var u :| u in m && k == OneKey(prefix, u);
        assert u in m[t := v];
      }
    }
  }

  lemma ClearStores(kv: Rows, prefix: Byte, m: map<Id, Value>, t: Id)
    requires StoredAs(kv, prefix, m) && Short(t)
    ensures StoredAs(ApplyOp(kv, Clear(OneKey(prefix, t))), prefix, m - {t})
  {
    var kv' := ApplyOp(kv, Clear(OneKey(prefix, t)));
    forall u | u in m - {t} ensures OneKey(prefix, u) in kv' && kv'[OneKey(prefix, u)] == m[u] {
      OneKeyFacts(prefix, t, prefix, u);
    }
    forall k | k in kv' && EncodeKey(prefix, []) <= k ensures exists u :: u in m - {t} && k == OneKey(prefix, u) {
      var u :| u in m && k == OneKey(prefix, u);
      assert u in m - {t};
    }
  }

  /** An operation that leaves every key under `prefix` alone. */
  ghost predicate LeavesAlone(op: WriteOp, prefix: Byte) {
    match op
    case Put(k, _) => !(EncodeKey(prefix, []) <= k)
    case Clear(k) => !(EncodeKey(prefix, []) <= k)
    case ClearRange(b, e) => forall k :: InSpan(b, e, k) ==> !(EncodeKey(prefix, []) <= k)
  }

  lemma AloneKeepsStored(kv: Rows, op: WriteOp, prefix: Byte, m: map<Id, Value>)
    requires StoredAs(kv, prefix, m) && LeavesAlone(op, prefix)
    ensures StoredAs(ApplyOp(kv, op), prefix, m)
  {
    forall t | t in m ensures EncodeKey(prefix, []) <= OneKey(prefix, t) {
      OneKeyFacts(prefix, t, prefix, t);
    }
  }
}
