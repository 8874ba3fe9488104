/** Reading allocator state back: paged scans, chunk reassembly, and the save-and-load round trip. */
module Loading {
  import opened Common
  import opened Spans
  import opened Records
  import opened Keys
  import opened Persistence
  import opened Allocator
  import opened Saving
  import opened Batching
  import Leader

  const MAX_ROWS_PER_TXN: nat := 5_000
  const MAX_BYTES_PER_TXN: nat := 4 * 1024 * 1024

  // ---- range reads ----

  /** The keys of a range, in order. */
  ghost predicate Ordered(kv: Rows, begin: Key, end: Key, keys: seq<Key>) {
    && SortedBy(keys, LexLess)
    && forall k :: k in keys <==> k in kv && InSpan(begin, end, k)
  }

  lemma StrictOrder(keys: seq<Key>)
    requires NoDup(keys) && SortedBy(keys, LexLeq)
    ensures SortedBy(keys, LexLess)
  {
  }

  /** What the database answers to a range read. */
  method RangeKeys(kv: Rows, begin: Key, end: Key) returns (keys: seq<Key>)
    ensures Ordered(kv, begin, end, keys)
  {
    var found: seq<Key> := [];
    var todo := kv.Keys;
    while todo != {}
      invariant todo <= kv.Keys && NoDup(found)
      invariant forall k :: k in found <==> k in kv && k !in todo && InSpan(begin, end, k)
      decreases |todo|
    {
      var k :| k in todo;
      if InSpan(begin, end, k) {
        NoDupConcat(found, [k]);
        found := found + [k];
      }
      todo := todo - {k};
    }
    LexOrder();
    keys := SortBy(found, LexLeq);
    PermutationElems(found, keys);
    PermutationKeepsNoDup(found, keys);
    StrictOrder(keys);
  }

  /** One transaction's worth of a scan: whole range, or a non-empty beginning of it. */
  method ReadPage(kv: Rows, begin: Key, end: Key, size: (Key, Value) -> nat)
    returns (keys: seq<Key>, more: bool, ghost all: seq<Key>)
    ensures Ordered(kv, begin, end, all) && keys <= all
    ensures if more then keys != [] else keys == all
  {
    var range := RangeKeys(kv, begin, end);
    all := range;
    var stream := if |range| <= MAX_ROWS_PER_TXN then range else range[..MAX_ROWS_PER_TXN];
    keys, more := [], false;
    var bytes := 0;
    for i := 0 to |stream|
      invariant !more && keys == stream[..i] && (i == 0 || i < MAX_ROWS_PER_TXN)
    {
      assert stream[i] in range;
      bytes := bytes + size(stream[i], kv[stream[i]]);
      keys := keys + [stream[i]];
      if |keys| >= MAX_ROWS_PER_TXN || bytes >= MAX_BYTES_PER_TXN {
        more := true;
        return;
      }
    }
  }

  function ValuesOf(kv: Rows, keys: seq<Key>): seq<Value>
    requires forall k :: k in keys ==> k in kv
  {
    seq(|keys|, i requires 0 <= i < |keys| => assert keys[i] in keys; kv[keys[i]])
  }

  /** `last` with a zero byte is the next key after `last`. */
  lemma {:induction false} Successor(k: Key, last: Key)
    ensures LexLess(k, last + [0]) <==> LexLeq(k, last)
  {
    if k != [] && last != [] {
      Successor(k[1..], last[1..]);
      assert (last + [0])[1..] == last[1..] + [0];
      LeqStep(k, last);
    } else if k != [] {
      assert [0][1..] == [];
    }
  }

  /** The keys of the range that lie before `cursor`. */
  ghost predicate ScannedTo(kv: Rows, begin: Key, end: Key, cursor: Key, keys: seq<Key>) {
    && SortedBy(keys, LexLess)
    && LexLeq(begin, cursor)
    && forall k :: k in keys <==> k in kv && InSpan(begin, end, k) && LexLess(k, cursor)
  }

  ghost function Left(kv: Rows, cursor: Key, end: Key): set<Key> {
    set k | k in kv && InSpan(cursor, end, k)
  }

  lemma SortedConcat(a: seq<Key>, b: seq<Key>)
    requires SortedBy(a, LexLess) && SortedBy(b, LexLess) && forall x, y :: x in a && y in b ==> LexLess(x, y)
    ensures SortedBy(a + b, LexLess)
  {
    var s := a + b;
    forall i, j | 0 <= i < j < |s| ensures LexLess(s[i], s[j]) {
      if i < |a| <= j {
        assert a[i] in a && b[j - |a|] in b;
      }
    }
  }

  /** A beginning of an ordered list holds exactly the keys up to its last one. */
  lemma PageKeys(all: seq<Key>, page: seq<Key>)
    requires SortedBy(all, LexLess) && page <= all && page != []
    ensures SortedBy(page, LexLess)
    ensures forall k :: k in page <==> k in all && LexLeq(k, page[|page| - 1])
  {
    var last := page[|page| - 1];
    forall i | 0 <= i < |all| ensures all[i] in page <==> LexLeq(all[i], last) {
      if i < |page| {
        assert page[i] == all[i];
        assert i < |page| - 1 ==> LexLess(all[i], all[|page| - 1]);
      } else {
        BeyondPage(all, page, i);
      }
    }
    forall k | k in page ensures k in all {
      var i :| 0 <= i < |page| && page[i] == k;
      assert all[i] == k;
    }
  }

  lemma BeyondPage(all: seq<Key>, page: seq<Key>, i: nat)
    requires SortedBy(all, LexLess) && page <= all && page != [] && |page| <= i < |all|
    ensures all[i] !in page && !LexLeq(all[i], page[|page| - 1])
  {
    forall j | 0 <= j < |page| ensures all[i] != page[j] && !LexLess(all[i], page[j]) {
      assert page[j] == all[j] && LexLess(all[j], all[i]);
      LexLessIrreflexive(all[i]);
      if LexLess(all[i], all[j]) {
        LexLessTransitive(all[i], all[j], all[i]);
      }
    }
  }

  lemma NextCursor(kv: Rows, begin: Key, end: Key, cursor: Key, keys: seq<Key>, page: seq<Key>, all: seq<Key>)
    requires ScannedTo(kv, begin, end, cursor, keys) && Ordered(kv, cursor, end, all) && page <= all && page != []
    ensures ScannedTo(kv, begin, end, page[|page| - 1] + [0], keys + page)
    ensures Left(kv, page[|page| - 1] + [0], end) < Left(kv, cursor, end)
  {
    var last := page[|page| - 1];
    var next := last + [0];
    PageKeys(all, page);
    assert last in page;
    assert InSpan(cursor, end, last);
    forall x, y | x in keys && y in page ensures LexLess(x, y) {
      LessLeq(x, cursor, y);
    }
    SortedConcat(keys, page);
    LexLessIrreflexive(last);
    Successor(last, last);
    LeqLess(cursor, last, next);
    LeqLess(begin, cursor, next);
    forall k | k in kv ensures InSpan(begin, end, k) && LexLess(k, next) <==> k in keys || k in page {
      SplitAtCursor(begin, end, cursor, last, k);
    }
    forall k | k in Left(kv, next, end) ensures k in Left(kv, cursor, end) {
      LeqTrans(cursor, next, k);
    }
    LeqIsNotGreater(last, next);
    assert last in Left(kv, cursor, end) && last !in Left(kv, next, end);
  }

  lemma SplitAtCursor(begin: Key, end: Key, cursor: Key, last: Key, k: Key)
    requires LexLeq(begin, cursor) && LexLeq(cursor, last) && LexLess(last, end)
    ensures InSpan(begin, end, k) && LexLess(k, last + [0]) <==>
      (InSpan(begin, end, k) && LexLess(k, cursor)) || (InSpan(cursor, end, k) && LexLeq(k, last))
  {
    LexOrder();
    Successor(k, last);
  }

  lemma LessLeq(x: Key, y: Key, z: Key)
    requires LexLess(x, y) && LexLeq(y, z)
    ensures LexLess(x, z)
  {
    if y != z {
      LexLessTransitive(x, y, z);
    }
  }

  lemma LeqLess(x: Key, y: Key, z: Key)
    requires LexLeq(x, y) && LexLess(y, z)
    ensures LexLess(x, z)
  {
    if x != y {
      LexLessTransitive(x, y, z);
    }
  }

  lemma LeqTrans(x: Key, y: Key, z: Key)
    requires LexLeq(x, y) && LexLeq(y, z)
    ensures LexLeq(x, z)
  {
    if x != y {
      LessLeq(x, y, z);
    }
  }

  lemma LeqIsNotGreater(x: Key, y: Key)
    requires LexLess(x, y)
    ensures !LexLeq(y, x)
  {
    LexLessIrreflexive(x);
    if LexLess(y, x) {
      LexLessTransitive(x, y, x);
    }
  }

  lemma LastPage(kv: Rows, begin: Key, end: Key, cursor: Key, keys: seq<Key>, all: seq<Key>)
    requires ScannedTo(kv, begin, end, cursor, keys) && Ordered(kv, cursor, end, all)
    ensures Ordered(kv, begin, end, keys + all)
  {
    LexOrder();
    SortedConcat(keys, all);
  }

  lemma ValuesConcat(kv: Rows, a: seq<Key>, b: seq<Key>)
    requires forall k :: k in a + b ==> k in kv
    ensures (forall k :: k in a ==> k in kv) && (forall k :: k in b ==> k in kv)
    ensures ValuesOf(kv, a + b) == ValuesOf(kv, a) + ValuesOf(kv, b)
  {
    forall k | k in a || k in b ensures k in kv {
      assert k in a + b;
    }
  }

  /** A paged scan returns every value of the range once and in key order. */
  method ScanRangeValues(kv: Rows, begin: Key, end: Key, size: (Key, Value) -> nat)
    returns (values: seq<Value>, ghost keys: seq<Key>)
    ensures Ordered(kv, begin, end, keys) && values == ValuesOf(kv, keys)
  {
    values, keys := [], [];
    var cursor := begin;
    LexOrder();
    while true
      invariant ScannedTo(kv, begin, end, cursor, keys) && values == ValuesOf(kv, keys)
      decreases Left(kv, cursor, end)
    {
      var page, more;
      ghost var all;
      page, more, all := ReadPage(kv, cursor, end, size);
      assert forall k :: k in page ==> k in all;
      ValuesConcat(kv, keys, page);
      values := values + ValuesOf(kv, page);
      if !more {
        LastPage(kv, begin, end, cursor, keys, all);
        keys := keys + page;
        return;
      }
      NextCursor(kv, begin, end, cursor, keys, page, all);
      keys := keys + page;
      cursor := page[|page| - 1] + [0];
    }
  }

  // ---- chunk reassembly ----

  predicate ChunkLeq(a: Chunk, b: Chunk) {
    LexLess(a.target, b.target) || (a.target == b.target && a.index <= b.index)
  }

  predicate ChunkLess(a: Chunk, b: Chunk) {
    LexLess(a.target, b.target) || (a.target == b.target && a.index < b.index)
  }

  predicate IsChunkOf(spans: SpanLists, c: Chunk) {
    c.target in spans && c.index < ChunkCount(|spans[c.target]|) && c == ChunkAt(c.target, spans[c.target], c.index)
  }

  /** Each chunk of each list, once. */
  ghost predicate ChunksOf(chunks: seq<Chunk>, spans: SpanLists) {
    NoDup(chunks) && forall c :: c in chunks <==> IsChunkOf(spans, c)
  }

  /** Chunks in order, so those of a target are consecutive and in index order. */
  ghost predicate SortedChunks(sorted: seq<Chunk>, spans: SpanLists) {
    SortedBy(sorted, ChunkLess) && forall c :: c in sorted <==> IsChunkOf(spans, c)
  }

  lemma ChunkOrder()
    ensures TotalPreorder(ChunkLeq)
    ensures forall a, b, c :: ChunkLess(a, b) && ChunkLess(b, c) ==> ChunkLess(a, c)
    ensures forall a, b :: ChunkLess(a, b) ==> !ChunkLess(b, a)
  {
    LexOrder();
  }

  lemma SortedIsStrict(chunks: seq<Chunk>, sorted: seq<Chunk>, spans: SpanLists)
    requires ChunksOf(chunks, spans) && multiset(sorted) == multiset(chunks) && SortedBy(sorted, ChunkLeq)
    ensures SortedChunks(sorted, spans)
  {
    PermutationElems(chunks, sorted);
    PermutationKeepsNoDup(chunks, sorted);
    forall i, j | 0 <= i < j < |sorted| ensures ChunkLess(sorted[i], sorted[j]) {
      assert sorted[i] in sorted && sorted[j] in sorted && sorted[i] != sorted[j];
      assert ChunkLeq(sorted[i], sorted[j]);
    }
  }

  lemma NothingBetween(sorted: seq<Chunk>, spans: SpanLists, n: nat, c: Chunk)
    requires SortedChunks(sorted, spans) && IsChunkOf(spans, c) && n <= |sorted|
    requires n > 0 ==> ChunkLess(sorted[n - 1], c)
    ensures n < |sorted| && !ChunkLess(c, sorted[n])
  {
    ChunkOrder();
    assert c in sorted;
    forall j | 0 <= j < n ensures sorted[j] != c {
      assert j < n - 1 ==> ChunkLess(sorted[j], sorted[n - 1]);
    }
    var i :| 0 <= i < |sorted| && sorted[i] == c;
    assert i > n ==> ChunkLess(sorted[n], sorted[i]);
  }

  /** What follows a chunk: its successor, or the first chunk of the next list once its list is complete. */
  lemma Neighbours(sorted: seq<Chunk>, spans: SpanLists, n: nat)
    requires SortedChunks(sorted, spans) && 0 < n <= |sorted|
    ensures var last := sorted[n - 1];
      && last.target in spans && last.index < ChunkCount(|spans[last.target]|)
      && (n == |sorted| ==> last.index + 1 == ChunkCount(|spans[last.target]|))
      && (n < |sorted| ==> var c := sorted[n];
           if c.target == last.target then c.index == last.index + 1
           else LexLess(last.target, c.target) && c.index == 0 && last.index + 1 == ChunkCount(|spans[last.target]|))
  {
    var last := sorted[n - 1];
    assert last in sorted;
    if last.index + 1 < ChunkCount(|spans[last.target]|) {
      NothingBetween(sorted, spans, n, ChunkAt(last.target, spans[last.target], last.index + 1));
    }
    if n < |sorted| {
      var c := sorted[n];
      assert c in sorted && ChunkLess(last, c);
      LexLessIrreflexive(c.target);
      if c.target != last.target && c.index > 0 {
        NothingBetween(sorted, spans, n, ChunkAt(c.target, spans[c.target], 0));
      }
    }
  }

  lemma FirstChunk(sorted: seq<Chunk>, spans: SpanLists)
    requires SortedChunks(sorted, spans) && sorted != []
    ensures sorted[0].target in spans && sorted[0].index == 0
  {
    var c := sorted[0];
    assert c in sorted;
    LexLessIrreflexive(c.target);
    if c.index > 0 {
      NothingBetween(sorted, spans, 0, ChunkAt(c.target, spans[c.target], 0));
    }
  }

  ghost predicate SeenTarget(sorted: seq<Chunk>, n: nat, t: Id)
    requires n <= |sorted|
  {
    exists i :: 0 <= i < n && sorted[i].target == t
  }

  lemma SeenNext(sorted: seq<Chunk>, n: nat)
    requires n < |sorted|
    ensures forall t :: SeenTarget(sorted, n + 1, t) <==> SeenTarget(sorted, n, t) || t == sorted[n].target
  {
    forall t ensures SeenTarget(sorted, n + 1, t) <==> SeenTarget(sorted, n, t) || t == sorted[n].target {
      if SeenTarget(sorted, n, t) {
        var i :| 0 <= i < n && sorted[i].target == t;
        assert i < n + 1;
      }
      if t == sorted[n].target {
        assert n < n + 1;
      }
    }
  }

  /** After `n` chunks: the list being collected is complete up to the last chunk, the others are whole. */
  ghost predicate Assembled(sorted: seq<Chunk>, spans: SpanLists, n: nat, byTarget: SpanLists)
    requires n <= |sorted| && SortedChunks(sorted, spans)
  {
    && (forall t :: t in byTarget <==> SeenTarget(sorted, n, t))
    && (forall t :: t in byTarget ==> t in spans)
    && (n > 0 ==>
         var last := sorted[n - 1];
         && last in sorted
         && byTarget[last.target] == spans[last.target][..ChunkEnd(|spans[last.target]|, last.index)]
         && forall t :: t in byTarget && t != last.target ==> byTarget[t] == spans[t] && LexLess(t, last.target))
  }

  ghost function Collected(byTarget: SpanLists, t: Id): seq<Span> {
    if t in byTarget then byTarget[t] else []
  }

  lemma ChunkExtends(t: Id, list: seq<Span>, i: nat)
    requires i < ChunkCount(|list|)
    ensures list[..i * SPANS_PER_CHUNK] + ChunkAt(t, list, i).spans == list[..ChunkEnd(|list|, i)]
    ensures i > 0 ==> ChunkEnd(|list|, i - 1) == i * SPANS_PER_CHUNK
  {
  }

  /** What has been collected of a chunk's list when the chunk's turn comes is everything before it. */
  lemma CollectedBefore(sorted: seq<Chunk>, spans: SpanLists, n: nat, byTarget: SpanLists)
    requires n < |sorted| && SortedChunks(sorted, spans) && Assembled(sorted, spans, n, byTarget)
    ensures var c := sorted[n];
      && c in sorted && Collected(byTarget, c.target) + c.spans == spans[c.target][..ChunkEnd(|spans[c.target]|, c.index)]
      && forall t :: t in byTarget && t != c.target ==> byTarget[t] == spans[t] && LexLess(t, c.target)
  {
    var c := sorted[n];
    assert c in sorted;
    if n == 0 {
      FirstChunk(sorted, spans);
    } else {
      Neighbours(sorted, spans, n);
      var last := sorted[n - 1];
      if c.target != last.target {
        forall t | t in byTarget ensures LexLess(t, c.target) && t != c.target {
          LeqLess(t, last.target, c.target);
          LexLessIrreflexive(c.target);
        }
        assert byTarget[last.target] == spans[last.target];
      }
    }
    var list := spans[c.target];
    ChunkExtends(c.target, list, c.index);
    assert Collected(byTarget, c.target) == list[..c.index * SPANS_PER_CHUNK];
  }

  lemma AssembleNext(sorted: seq<Chunk>, spans: SpanLists, n: nat, byTarget: SpanLists)
    requires n < |sorted| && SortedChunks(sorted, spans) && Assembled(sorted, spans, n, byTarget)
    ensures var c := sorted[n];
      Assembled(sorted, spans, n + 1, byTarget[c.target := Collected(byTarget, c.target) + c.spans])
  {
    CollectedBefore(sorted, spans, n, byTarget);
    SeenNext(sorted, n);
  }

  method SortChunks(chunks: seq<Chunk>, ghost spans: SpanLists) returns (sorted: seq<Chunk>)
    requires ChunksOf(chunks, spans)
    ensures SortedChunks(sorted, spans)
  {
    ChunkOrder();
    sorted := SortBy(chunks, ChunkLeq);
    SortedIsStrict(chunks, sorted, spans);
  }

  method AssembleSpans(chunks: seq<Chunk>, ghost spans: SpanLists) returns (byTarget: SpanLists)
    requires ChunksOf(chunks, spans)
    ensures byTarget == spans
  {
    var sorted := SortChunks(chunks, spans);
    byTarget := map[];
    for n := 0 to |sorted|
      invariant Assembled(sorted, spans, n, byTarget)
    {
      var c := sorted[n];
      AssembleNext(sorted, spans, n, byTarget);
      byTarget := byTarget[c.target := (if c.target in byTarget then byTarget[c.target] else []) + c.spans];
    }
    AssembledAll(sorted, spans, byTarget);
  }

  lemma AssembledAll(sorted: seq<Chunk>, spans: SpanLists, byTarget: SpanLists)
    requires SortedChunks(sorted, spans) && Assembled(sorted, spans, |sorted|, byTarget)
    ensures byTarget == spans
  {
    forall t | t in spans ensures t in byTarget {
      EveryListCollected(sorted, spans, t);
    }
    if sorted != [] {
      Neighbours(sorted, spans, |sorted|);
      var last := sorted[|sorted| - 1];
      var list := spans[last.target];
      assert ChunkEnd(|list|, last.index) == |list| && list[..|list|] == list;
    }
  }

  lemma EveryListCollected(sorted: seq<Chunk>, spans: SpanLists, t: Id)
    requires SortedChunks(sorted, spans) && t in spans
    ensures SeenTarget(sorted, |sorted|, t)
  {
    var c := ChunkAt(t, spans[t], 0);
    assert IsChunkOf(spans, c);
    var i :| 0 <= i < |sorted| && sorted[i] == c;
    assert sorted[i].target == t;
  }

  // ---- loading ----

  ghost predicate KeyedById(image: Image) {
    && (forall t :: t in image.records ==> image.records[t].id == t)
    && (forall id :: id in image.reservations ==> image.reservations[id].id == id)
  }

  /** What loading a database with this content yields. */
  function Loaded(image: Image): Targets {
    map t | t in image.records :: TargetState(image.records[t], if t in image.spans then image.spans[t] else [])
  }

  lemma PrefixScan(kv: Rows, prefix: Byte, keys: seq<Key>)
    requires Ordered(kv, EncodeKey(prefix, []), RangeEnd(EncodeKey(prefix, [])), keys)
    ensures forall k :: k in keys <==> k in kv && EncodeKey(prefix, []) <= k
  {
    forall k ensures k in keys <==> k in kv && EncodeKey(prefix, []) <= k {
      EncodedRange(prefix, [], k);
    }
  }

  lemma OrderedNoDup(keys: seq<Key>)
    requires SortedBy(keys, LexLess)
    ensures NoDup(keys)
  {
    LexOrder();
  }

  ghost predicate EntryOf(m: map<Id, Value>, v: Value) {
    exists t :: t in m && m[t] == v
  }

  /** The values under a prefix are exactly the stored entries. */
  lemma ScannedEntries(kv: Rows, prefix: Byte, m: map<Id, Value>, keys: seq<Key>)
    requires StoredAs(kv, prefix, m)
    requires Ordered(kv, EncodeKey(prefix, []), RangeEnd(EncodeKey(prefix, [])), keys)
    ensures forall v :: v in ValuesOf(kv, keys) <==> EntryOf(m, v)
  {
    PrefixScan(kv, prefix, keys);
    var values := ValuesOf(kv, keys);
    forall v | EntryOf(m, v) ensures v in values {
      var t :| t in m && m[t] == v;
      OneKeyFacts(prefix, t, prefix, t);
      assert OneKey(prefix, t) in keys;
      var i :| 0 <= i < |keys| && keys[i] == OneKey(prefix, t);
      assert values[i] == v;
    }
    forall v | v in values ensures EntryOf(m, v) {
      var i :| 0 <= i < |values| && values[i] == v;
      assert keys[i] in keys;
      var t :| t in m && keys[i] == OneKey(prefix, t);
      assert m[t] == v;
    }
  }

  function ChunksIn(values: seq<Value>): seq<Chunk>
    requires forall i :: 0 <= i < |values| ==> values[i].ChunkValue?
  {
    seq(|values|, i requires 0 <= i < |values| => values[i].chunk)
  }

  /** The chunks a scan returns are exactly those of the stored lists, each once. */
  lemma ScannedChunks(kv: Rows, spans: SpanLists, keys: seq<Key>)
    requires StoredSpans(kv, spans) && Ordered(kv, ALL_SPANS, RangeEnd(ALL_SPANS), keys)
    ensures forall i :: 0 <= i < |keys| ==> ValuesOf(kv, keys)[i].ChunkValue?
    ensures ChunksOf(ChunksIn(ValuesOf(kv, keys)), spans)
  {
    PrefixScan(kv, PREFIX_TARGET_SPAN, keys);
    OrderedNoDup(keys);
    forall i | 0 <= i < |keys| ensures ScannedChunk(kv, spans, keys[i]) {
      assert keys[i] in keys;
      var u, j :| u in spans && 0 <= j < ChunkCount(|spans[u]|) && keys[i] == ChunkKey(u, j);
      assert IsChunkOf(spans, ChunkAt(u, spans[u], j));
    }
    var chunks := ChunksIn(ValuesOf(kv, keys));
    forall i, j | 0 <= i < j < |chunks| ensures chunks[i] != chunks[j] {
      assert ScannedChunk(kv, spans, keys[i]) && ScannedChunk(kv, spans, keys[j]);
    }
    forall c | IsChunkOf(spans, c) ensures c in chunks {
      ChunkKeyFacts(c.target, c.index, c.target, c.index);
      assert ChunkKey(c.target, c.index) in keys;
      var i :| 0 <= i < |keys| && keys[i] == ChunkKey(c.target, c.index);
      assert chunks[i] == c;
    }
    forall c | c in chunks ensures IsChunkOf(spans, c) {
      var i :| 0 <= i < |chunks| && chunks[i] == c;
      assert ScannedChunk(kv, spans, keys[i]);
    }
  }

  /** The row at `k` is the chunk its key names. */
  ghost predicate ScannedChunk(kv: Rows, spans: SpanLists, k: Key) {
    k in kv && kv[k].ChunkValue? && IsChunkOf(spans, kv[k].chunk) && k == ChunkKey(kv[k].chunk.target, kv[k].chunk.index)
  }

  method LoadAllTargets(kv: Rows, size: (Key, Value) -> nat, ghost image: Image) returns (targets: Targets)
    requires Stores(kv, image) && KeyedById(image)
    ensures targets == Loaded(image)
  {
    var begin, spanBegin := EncodeKey(PREFIX_TARGET, []), ALL_SPANS;
    var end := PrefixRangeEnd(begin);
    var records, recordKeys := ScanRangeValues(kv, begin, end, size);
    ScannedEntries(kv, PREFIX_TARGET, RecordRows(image.records), recordKeys);
    var spanEnd := PrefixRangeEnd(spanBegin);
    var chunkValues, chunkKeys := ScanRangeValues(kv, spanBegin, spanEnd, size);
    ScannedChunks(kv, image.spans, chunkKeys);
    var spans := AssembleSpans(ChunksIn(chunkValues), image.spans);
    targets := JoinSpans(records, spans, image);
  }

  /** The targets of the first `i` records, each with its span list. */
  ghost predicate Joined(image: Image, records: seq<Value>, i: nat, targets: Targets)
    requires i <= |records|
  {
    && (forall t :: t in targets <==> t in image.records && RecordRows(image.records)[t] in records[..i])
    && (forall t :: t in targets ==> targets[t] == Loaded(image)[t])
  }

  lemma JoinNext(image: Image, records: seq<Value>, i: nat, targets: Targets)
    requires KeyedById(image) && i < |records| && EntryOf(RecordRows(image.records), records[i]) && Joined(image, records, i, targets)
    ensures records[i].TargetValue?
    ensures var r := records[i].target;
      Joined(image, records, i + 1, targets[r.id := TargetState(r, if r.id in image.spans then image.spans[r.id] else [])])
  {
    var t :| t in image.records && RecordRows(image.records)[t] == records[i];
    var r := records[i].target;
    assert r == image.records[t] && r.id == t;
    assert records[..i + 1] == records[..i] + [records[i]];
    forall u | u in image.records
      ensures RecordRows(image.records)[u] in records[..i + 1] <==> RecordRows(image.records)[u] in records[..i] || u == t
    {
      assert RecordRows(image.records)[u] == TargetValue(image.records[u]);
    }
  }

  method JoinSpans(records: seq<Value>, spans: SpanLists, ghost image: Image) returns (targets: Targets)
    requires KeyedById(image) && spans == image.spans
    requires forall v :: v in records <==> EntryOf(RecordRows(image.records), v)
    ensures targets == Loaded(image)
  {
    targets := map[];
    for i := 0 to |records|
      invariant Joined(image, records, i, targets)
    {
      assert records[i] in records;
      JoinNext(image, records, i, targets);
      var r := records[i].target;
      targets := targets[r.id := TargetState(r, if r.id in spans then spans[r.id] else [])];
    }
    assert records[..|records|] == records;
    forall t | t in image.records ensures t in targets {
      assert EntryOf(RecordRows(image.records), RecordRows(image.records)[t]);
    }
  }

  /** After `i` values: the Reserved records among them, and the ids of the others. */
  ghost predicate Sifted(res: Reservations, values: seq<Value>, i: nat, active: seq<Record>, stale: seq<Id>)
    requires i <= |values|
  {
    && (forall r :: r in active <==> r.state == Reserved && ReservationValue(r) in values[..i])
    && (forall id :: id in stale <==> id in res && res[id].state != Reserved && ReservationValue(res[id]) in values[..i])
  }

  lemma SiftNext(res: Reservations, values: seq<Value>, i: nat, active: seq<Record>, stale: seq<Id>)
    requires forall id :: id in res ==> res[id].id == id
    requires i < |values| && EntryOf(ReservationRows(res), values[i]) && Sifted(res, values, i, active, stale)
    ensures values[i].ReservationValue?
    ensures var r := values[i].reservation;
      if r.state == Reserved then Sifted(res, values, i + 1, active + [r], stale)
      else Sifted(res, values, i + 1, active, stale + [r.id])
  {
    assert values[..i + 1] == values[..i] + [values[i]];
  }

  lemma {:induction false} InsertedFrom(recs: seq<Record>)
    ensures forall id :: id in InsertAll(map[], recs) ==> InsertAll(map[], recs)[id] in recs && InsertAll(map[], recs)[id].id == id
    ensures forall r :: r in recs ==> r.id in InsertAll(map[], recs)
  {
    if recs != [] {
      InsertedFrom(recs[..|recs| - 1]);
    }
  }

  /** Collected by id, the records are those that are still Reserved, and the ids are all the others. */
  lemma SiftedAll(res: Reservations, values: seq<Value>, active: seq<Record>, stale: seq<Id>)
    requires forall id :: id in res ==> res[id].id == id
    requires forall v :: v in values <==> EntryOf(ReservationRows(res), v)
    requires Sifted(res, values, |values|, active, stale)
    ensures InsertAll(map[], active) == Leader.StillReserved(res)
    ensures Elems(stale) == res.Keys - Leader.StillReserved(res).Keys
  {
    assert values[..|values|] == values;
    InsertedFrom(active);
    forall id | id in res ensures ReservationValue(res[id]) in values {
      assert ReservationRows(res)[id] == ReservationValue(res[id]);
    }
    forall r | r in active ensures r.id in res && res[r.id] == r && r.state == Reserved {
      var id :| id in ReservationRows(res) && ReservationRows(res)[id] == ReservationValue(r);
    }
  }

  /** Reads the reservations back: the live ones, and the ids of those to delete. */
  method LoadActiveReservations(kv: Rows, size: (Key, Value) -> nat, ghost image: Image)
    returns (active: seq<Record>, stale: seq<Id>)
    requires Stores(kv, image) && KeyedById(image)
    ensures InsertAll(map[], active) == Leader.StillReserved(image.reservations)
    ensures Elems(stale) == image.reservations.Keys - Leader.StillReserved(image.reservations).Keys
  {
    var begin := EncodeKey(PREFIX_RESERVATION, []);
    var end := PrefixRangeEnd(begin);
    var values, keys := ScanRangeValues(kv, begin, end, size);
    ghost var res := image.reservations;
    ScannedEntries(kv, PREFIX_RESERVATION, ReservationRows(res), keys);
    active, stale := [], [];
    for i := 0 to |values|
      invariant Sifted(res, values, i, active, stale)
    {
      assert values[i] in values;
      SiftNext(res, values, i, active, stale);
      var r := values[i].reservation;
      if r.state == Reserved {
        active := active + [r];
      } else {
        stale := stale + [r.id];
      }
    }
    SiftedAll(res, values, active, stale);
  }

  /** Deleting the stale reservations, even if it stops part-way, changes no target and no Reserved record. */
  lemma CleanupIsBenign(image: Image, stale: seq<Id>, n: nat)
    requires Elems(stale) == image.reservations.Keys - Leader.StillReserved(image.reservations).Keys
    ensures var s := Save([], false, [], stale, []);
      && Loaded(Saved(image, PartOf(s, n))) == Loaded(image)
      && Leader.StillReserved(Saved(image, PartOf(s, n)).reservations) == Leader.StillReserved(image.reservations)
      && Saved(image, s).reservations == Leader.StillReserved(image.reservations)
  {
    var s := Save([], false, [], stale, []);
    var part := PartOf(s, n);
    assert part.targets == [] && part.sets == [];
    forall id | id in part.deletes ensures id in Elems(stale) {
    }
    var all := Saved(image, s).reservations;
    assert all == image.reservations - Elems(stale);
  }

  // ---- the round trip ----

  function EntryMap(es: seq<TargetState>): Targets {
    if es == [] then map[] else EntryMap(es[..|es| - 1])[es[|es| - 1].target.id := es[|es| - 1]]
  }

  lemma LoadedAfterOne(image: Image, e: TargetState)
    ensures Loaded(SaveTarget(image, e, true)) == Loaded(image)[e.target.id := e]
  {
    assert e == TargetState(e.target, e.spans);
  }

  /** Saving targets with their spans overrides exactly those targets. */
  lemma {:induction false} LoadedAfterSave(image: Image, es: seq<TargetState>)
    ensures Loaded(SaveTargets(image, es, true)) == Loaded(image) + EntryMap(es)
  {
    if es != [] {
      var front, e := es[..|es| - 1], es[|es| - 1];
      LoadedAfterSave(image, front);
      LoadedAfterOne(SaveTargets(image, front, true), e);
      UpdateLast(Loaded(image), EntryMap(front), e);
    }
  }

  lemma UpdateLast(a: Targets, b: Targets, e: TargetState)
    ensures a + b[e.target.id := e] == (a + b)[e.target.id := e]
  {
  }

  /** Saving records alone changes no target's spans. */
  lemma {:induction false} SpansAfterRecordSave(image: Image, es: seq<TargetState>, t: Id)
    requires t in image.records
    ensures t in SaveTargets(image, es, false).records
    ensures Loaded(SaveTargets(image, es, false))[t].spans == Loaded(image)[t].spans
  {
    if es != [] {
      SpansAfterRecordSave(image, es[..|es| - 1], t);
    }
  }

  lemma {:induction false} SaveKeepsKeys(image: Image, es: seq<TargetState>, rewrite: bool)
    requires KeyedById(image)
    ensures KeyedById(SaveTargets(image, es, rewrite))
  {
    if es != [] {
      SaveKeepsKeys(image, es[..|es| - 1], rewrite);
    }
  }

  lemma {:induction false} InsertKeepsKeys(res: Reservations, recs: seq<Record>)
    requires forall id :: id in res ==> res[id].id == id
    ensures forall id :: id in InsertAll(res, recs) ==> InsertAll(res, recs)[id].id == id
  {
    if recs != [] {
      InsertKeepsKeys(res, recs[..|recs| - 1]);
    }
  }

  lemma SavedKeys(image: Image, s: Save)
    requires KeyedById(image)
    ensures KeyedById(Saved(image, s))
  {
    SaveKeepsKeys(image, s.targets, s.rewrite);
    InsertKeepsKeys(image.reservations, s.sets);
  }

  lemma UnitsNonEmpty(s: Save)
    ensures forall u :: u in Units(s) ==> u != []
  {
  }

  /** A part of a savable save is savable. */
  lemma PartSavable(s: Save, n: nat)
    requires Savable(s)
    ensures Savable(PartOf(s, n))
  {
  }

  /** Saving and loading, in terms of the content. */
  lemma LoadedAfter(image: Image, s: Save)
    ensures s.rewrite ==> Loaded(Saved(image, s)) == Loaded(image) + EntryMap(s.targets)
    ensures !s.rewrite ==> forall t :: t in image.records ==>
      t in Loaded(Saved(image, s)) && Loaded(Saved(image, s))[t].spans == Loaded(image)[t].spans
  {
    assert Loaded(Saved(image, s)) == Loaded(SaveTargets(image, s.targets, s.rewrite));
    if s.rewrite {
      LoadedAfterSave(image, s.targets);
    } else {
      forall t | t in image.records
        ensures t in Loaded(Saved(image, s)) && Loaded(Saved(image, s))[t].spans == Loaded(image)[t].spans
      {
        SpansAfterRecordSave(image, s.targets, t);
      }
    }
  }

  /**
   * Saving in batches and loading by paged scans gives every saved target exactly its record and span
   * list, every other target what it had, and a save without spans changes no span list; the loaded
   * reservations are exactly the saved ones that are Reserved. If a commit fails, the same holds for the
   * part of the save whose units had landed, and the save stopped at a boundary between two transactions.
   */
  method SaveAndReload(kv: Rows, s: Save, sizes: seq<nat>, size: (Key, Value) -> nat, allowed: Option<nat>, ghost image: Image)
    returns (kv': Rows, ok: bool, targets: Targets, active: seq<Record>, stale: seq<Id>, ghost landed: nat)
    requires Stores(kv, image) && KeyedById(image) && Savable(s)
    requires |sizes| == |Units(s)| && SumBytes(sizes, 0, |sizes|) <= U64_MAX
    ensures landed <= |Units(s)| && Boundary(sizes, landed) && (ok <==> landed == |Units(s)|) && (allowed.None? ==> ok)
    ensures Stores(kv', Saved(image, PartOf(s, landed))) && targets == Loaded(Saved(image, PartOf(s, landed)))
    ensures InsertAll(map[], active) == Leader.StillReserved(Saved(image, PartOf(s, landed)).reservations)
    ensures Elems(stale) == Saved(image, PartOf(s, landed)).reservations.Keys - Leader.StillReserved(Saved(image, PartOf(s, landed)).reservations).Keys
    ensures ok ==> PartOf(s, landed) == s
    ensures s.rewrite ==> targets == Loaded(image) + EntryMap(PartOf(s, landed).targets)
    ensures !s.rewrite ==> forall t :: t in image.records ==> t in targets && targets[t].spans == Loaded(image)[t].spans
  {
    UnitsNonEmpty(s);
    ghost var cuts;
    kv', ok, landed, cuts := PersistUnits(kv, Units(s), sizes, allowed);
    ghost var part := PartOf(s, landed);
    UnitsOfPart(s, landed);
    PartSavable(s, landed);
    SaveStores(kv, image, part);
    SavedKeys(image, part);
    targets := LoadAllTargets(kv', size, Saved(image, part));
    active, stale := LoadActiveReservations(kv', size, Saved(image, part));
    LoadedAfter(image, part);
  }

  /** A save of a leader's writes changes the database content as the failover model says. */
  lemma SavedIsApplied(image: Image, db: Leader.Durable, s: Save, w: Leader.Writes)
    requires Loaded(image) == db.targets && image.reservations == db.reservations
    requires s.rewrite && EntryMap(s.targets) == w.targets && s.sets == w.sets && s.deletes == w.deletes
    ensures Loaded(Saved(image, s)) == Leader.ApplyWrites(db, w).targets
    ensures Saved(image, s).reservations == Leader.ApplyWrites(db, w).reservations
  {
    LoadedAfter(image, s);
  }

  function TargetIds(es: seq<TargetState>): seq<Id> {
    seq(|es|, i requires 0 <= i < |es| => es[i].target.id)
  }

  lemma {:induction false} EntryMapAt(es: seq<TargetState>)
    requires NoDup(TargetIds(es))
    ensures EntryMap(es).Keys == Elems(TargetIds(es))
    ensures forall i :: 0 <= i < |es| ==> es[i].target.id in EntryMap(es) && EntryMap(es)[es[i].target.id] == es[i]
  {
    if es != [] {
      var front, last := es[..|es| - 1], es[|es| - 1];
      assert TargetIds(es) == TargetIds(front) + [last.target.id];
      assert forall i :: 0 <= i < |front| ==> TargetIds(front)[i] == TargetIds(es)[i];
      ElemsSnoc(TargetIds(front), last.target.id);
      EntryMapAt(front);
      forall i | 0 <= i < |front| ensures es[i].target.id != last.target.id && EntryMap(es)[es[i].target.id] == es[i] {
        assert TargetIds(es)[i] != TargetIds(es)[|es| - 1] && front[i] == es[i];
      }
    }
  }

  /** The first targets of a save are the first targets of the layout. */
  lemma FirstTargets(es: seq<TargetState>, n: nat)
    requires NoDup(TargetIds(es))
    ensures EntryMap(Take(es, n)) == (map t | t in Take(TargetIds(es), n) && t in EntryMap(es) :: EntryMap(es)[t])
  {
    var some := Take(es, n);
    assert TargetIds(some) == Take(TargetIds(es), n);
    EntryMapAt(es);
    EntryMapAt(some);
    forall t | t in EntryMap(some) ensures t in EntryMap(es) && EntryMap(some)[t] == EntryMap(es)[t] {
      SameEntry(es, some, t);
    }
  }

  lemma SameEntry(es: seq<TargetState>, some: seq<TargetState>, t: Id)
    requires NoDup(TargetIds(es)) && NoDup(TargetIds(some)) && some <= es && t in TargetIds(some)
    ensures t in EntryMap(es) && t in EntryMap(some) && EntryMap(some)[t] == EntryMap(es)[t]
  {
    EntryMapAt(es);
    EntryMapAt(some);
    var i :| 0 <= i < |some| && TargetIds(some)[i] == t;
    assert some[i] == es[i];
  }

  /**
   * What a save leaves when it stops after `n` units is what the failover model says landed: a layout
   * that lists the save's targets in order and sizes its units describes every place it can stop.
   */
  lemma PartIsLanded(image: Image, db: Leader.Durable, s: Save, w: Leader.Writes, l: Leader.Layout, n: nat)
    requires Loaded(image) == db.targets && image.reservations == db.reservations
    requires s.rewrite && EntryMap(s.targets) == w.targets && s.sets == w.sets && s.deletes == w.deletes
    requires l.order == TargetIds(s.targets) && NoDup(l.order) && |l.sizes| == |Units(s)|
    ensures Leader.LaidOut(w, l)
    ensures Loaded(Saved(image, PartOf(s, n))) == Leader.ApplyWrites(db, Leader.PartAt(w, l, n)).targets
    ensures Saved(image, PartOf(s, n)).reservations == Leader.ApplyWrites(db, Leader.PartAt(w, l, n)).reservations
  {
    EntryMapAt(s.targets);
    FirstTargets(s.targets, n);
    SavedIsApplied(image, db, PartOf(s, n), Leader.PartAt(w, l, n));
  }
}
