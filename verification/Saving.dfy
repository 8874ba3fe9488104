/** Saving a set of changes: what is stored afterwards, however the writes are batched. */
module Saving {
  import opened Common
  import opened Spans
  import opened Records
  import opened Keys
  import opened Persistence
  import opened Batching
  import opened Allocator

  /** The logical content of the database. */
  datatype Image = Image(records: map<Id, TargetRecord>, spans: SpanLists, reservations: Reservations)

  ghost function RecordRows(records: map<Id, TargetRecord>): map<Id, Value> {
    map t | t in records :: TargetValue(records[t])
  }

  ghost function ReservationRows(reservations: Reservations): map<Id, Value> {
    map id | id in reservations :: ReservationValue(reservations[id])
  }

  ghost predicate Stores(kv: Rows, image: Image) {
    && StoredAs(kv, PREFIX_TARGET, RecordRows(image.records))
    && StoredSpans(kv, image.spans)
    && StoredAs(kv, PREFIX_RESERVATION, ReservationRows(image.reservations))
  }

  // ---- one target ----

  function SaveTarget(image: Image, e: TargetState, rewrite: bool): Image {
    image.(records := image.records[e.target.id := e.target],
           spans := if rewrite then image.spans[e.target.id := e.spans] else image.spans)
  }

  lemma {:induction false} AloneAllKeeps(kv: Rows, ops: seq<WriteOp>, prefix: Byte, m: map<Id, Value>)
    requires StoredAs(kv, prefix, m) && forall op :: op in ops ==> LeavesAlone(op, prefix)
    ensures StoredAs(ApplyAll(kv, ops), prefix, m)
  {
    if ops != [] {
      var front, last := ops[..|ops| - 1], ops[|ops| - 1];
      assert forall op :: op in front ==> op in ops;
      assert last in ops;
      AloneAllKeeps(kv, front, prefix, m);
      AloneKeepsStored(ApplyAll(kv, front), last, prefix, m);
    }
  }

  /** Span writes stay clear of the records and the reservations. */
  lemma SpanWritesAlone(t: Id, list: seq<Span>, prefix: Byte)
    requires Short(t) && |list| < U32 && prefix != PREFIX_TARGET_SPAN
    ensures LeavesAlone(ClearRange(SpanPrefix(t), RangeEnd(SpanPrefix(t))), prefix)
    ensures forall op :: op in ChunkPuts(SplitIntoChunks(t, list)) ==> LeavesAlone(op, prefix)
  {
    forall k | InSpan(SpanPrefix(t), RangeEnd(SpanPrefix(t)), k) ensures !(EncodeKey(prefix, []) <= k) {
      EncodedRange(PREFIX_TARGET_SPAN, [t], k);
      assert EncodeKey(prefix, [])[5] == prefix && SpanPrefix(t)[5] == PREFIX_TARGET_SPAN;
    }
    var chunks := SplitIntoChunks(t, list);
    forall i | 0 <= i < |chunks| ensures LeavesAlone(ChunkPuts(chunks)[i], prefix) {
      KindsApart(prefix, t, t, i);
    }
  }

  lemma RecordPutAlone(prefix: Byte, other: Byte, t: Id, v: Value)
    requires Short(t) && prefix != other
    ensures LeavesAlone(Put(OneKey(prefix, t), v), other) && LeavesAlone(Clear(OneKey(prefix, t)), other)
    ensures prefix != PREFIX_TARGET_SPAN ==> OutsideSpans(Put(OneKey(prefix, t), v)) && OutsideSpans(Clear(OneKey(prefix, t)))
  {
    OneKeyFacts(other, t, prefix, t);
    if prefix != PREFIX_TARGET_SPAN {
      KindsApart(prefix, t, t, 0);
    }
  }

  lemma RowsOfUpdate(records: map<Id, TargetRecord>, t: Id, r: TargetRecord)
    ensures RecordRows(records[t := r]) == RecordRows(records)[t := TargetValue(r)]
  {
  }

  lemma RecordPutStores(kv: Rows, image: Image, t: TargetRecord)
    requires Stores(kv, image) && Short(t.id)
    ensures Stores(ApplyOp(kv, Put(TargetKey(t.id), TargetValue(t))), image.(records := image.records[t.id := t]))
  {
    var op := Put(TargetKey(t.id), TargetValue(t));
    RowsOfUpdate(image.records, t.id, t);
    PutStores(kv, PREFIX_TARGET, RecordRows(image.records), t.id, TargetValue(t));
    RecordPutAlone(PREFIX_TARGET, PREFIX_RESERVATION, t.id, TargetValue(t));
    OutsideKeepsSpans(kv, op, image.spans);
    AloneKeepsStored(kv, op, PREFIX_RESERVATION, ReservationRows(image.reservations));
  }

  lemma SpanRewriteStores(kv: Rows, image: Image, t: Id, list: seq<Span>)
    requires Stores(kv, image) && Short(t) && |list| < U32
    ensures Stores(ApplyAll(ApplyOp(kv, ClearRange(SpanPrefix(t), RangeEnd(SpanPrefix(t)))), ChunkPuts(SplitIntoChunks(t, list))),
                   image.(spans := image.spans[t := list]))
  {
    var clear, puts := ClearRange(SpanPrefix(t), RangeEnd(SpanPrefix(t))), ChunkPuts(SplitIntoChunks(t, list));
    RewriteStores(kv, t, list, image.spans);
    SpanWritesAlone(t, list, PREFIX_TARGET);
    SpanWritesAlone(t, list, PREFIX_RESERVATION);
    AloneKeepsStored(kv, clear, PREFIX_TARGET, RecordRows(image.records));
    AloneKeepsStored(kv, clear, PREFIX_RESERVATION, ReservationRows(image.reservations));
    AloneAllKeeps(ApplyOp(kv, clear), puts, PREFIX_TARGET, RecordRows(image.records));
    AloneAllKeeps(ApplyOp(kv, clear), puts, PREFIX_RESERVATION, ReservationRows(image.reservations));
  }

  /** A target's write unit stores its record, and its spans when asked to, and nothing else. */
  lemma TargetUnitStores(kv: Rows, image: Image, e: TargetState, rewrite: bool)
    requires Stores(kv, image) && Short(e.target.id) && |e.spans| < U32
    ensures Stores(ApplyAll(kv, TargetUnit(e, rewrite)), SaveTarget(image, e, rewrite))
  {
    var t := e.target.id;
    var record := Put(TargetKey(t), TargetValue(e.target));
    var clear, puts := ClearRange(SpanPrefix(t), RangeEnd(SpanPrefix(t))), ChunkPuts(SplitIntoChunks(t, e.spans));
    RecordPutStores(kv, image, e.target);
    var kv1 := ApplyOp(kv, record);
    OneOp(kv, record);
    if rewrite {
      SpanRewriteStores(kv1, image.(records := image.records[t := e.target]), t, e.spans);
      ApplyConcat(kv, [record] + [clear], puts);
      ApplyConcat(kv, [record], [clear]);
      OneOp(kv1, clear);
    }
  }

  lemma OneOp(kv: Rows, op: WriteOp)
    ensures ApplyAll(kv, [op]) == ApplyOp(kv, op)
  {
    assert [op][..0] == [];
  }

  // ---- a whole save ----

  /** The bookkeeping writes of a save. The bin members are write-only: no load reads them back. */
  datatype Extra =
    | ServiceInstance(id: Id, body: seq<Byte>)
    | BinDelete(bin: Id, id: Id)
    | BinAdd(bin: Id, id: Id)
    | StateStamp(shard: Option<Id>, body: seq<Byte>)

  const STAMP: Id := [115, 116, 97, 109, 112] // "stamp"

  function ExtraOp(e: Extra): WriteOp {
    match e
    case ServiceInstance(id, body) => Put(EncodeKey(PREFIX_SERVICE_INSTANCE, [id]), OtherValue(body))
    case BinDelete(bin, id) => Clear(EncodeKey(PREFIX_RESERVATION_BIN, [bin, id]))
    case BinAdd(bin, id) => Put(EncodeKey(PREFIX_RESERVATION_BIN, [bin, id]), OtherValue(id))
    case StateStamp(shard, body) =>
      Put(EncodeKey(PREFIX_ALLOCATOR_STATE, if shard.None? then [STAMP] else [STAMP, shard.value]), OtherValue(body))
  }

  /** What one call persists: targets, reservation records, deletions, and bookkeeping writes. */
  datatype Save = Save(targets: seq<TargetState>, rewrite: bool, sets: seq<Record>, deletes: seq<Id>, others: seq<Extra>)

  function SaveTargets(image: Image, es: seq<TargetState>, rewrite: bool): Image {
    if es == [] then image else SaveTarget(SaveTargets(image, es[..|es| - 1], rewrite), es[|es| - 1], rewrite)
  }

  /** The content after a save. */
  function Saved(image: Image, s: Save): Image {
    var saved := SaveTargets(image, s.targets, s.rewrite);
    saved.(reservations := InsertAll(image.reservations, s.sets) - Elems(s.deletes))
  }

  function TargetUnits(es: seq<TargetState>, rewrite: bool): seq<seq<WriteOp>> {
    seq(|es|, i requires 0 <= i < |es| => TargetUnit(es[i], rewrite))
  }

  function SetUnits(recs: seq<Record>): seq<seq<WriteOp>> {
    seq(|recs|, i requires 0 <= i < |recs| => [Put(ReservationKey(recs[i].id), ReservationValue(recs[i]))])
  }

  function DeleteUnits(ids: seq<Id>): seq<seq<WriteOp>> {
    seq(|ids|, i requires 0 <= i < |ids| => [Clear(ReservationKey(ids[i]))])
  }

  function ExtraUnits(extras: seq<Extra>): seq<seq<WriteOp>> {
    seq(|extras|, i requires 0 <= i < |extras| => [ExtraOp(extras[i])])
  }

  /** The write units in the order in which they are committed. */
  function Units(s: Save): seq<seq<WriteOp>> {
    TargetUnits(s.targets, s.rewrite) + SetUnits(s.sets) + DeleteUnits(s.deletes) + ExtraUnits(s.others)
  }

  lemma UnitsSnoc(es: seq<TargetState>, e: TargetState, rewrite: bool)
    ensures TargetUnits(es + [e], rewrite) == TargetUnits(es, rewrite) + [TargetUnit(e, rewrite)]
  {
  }

  lemma SetUnitsSnoc(recs: seq<Record>, r: Record)
    ensures SetUnits(recs + [r]) == SetUnits(recs) + [[Put(ReservationKey(r.id), ReservationValue(r))]]
  {
  }

  lemma DeleteUnitsSnoc(ids: seq<Id>, id: Id)
    ensures DeleteUnits(ids + [id]) == DeleteUnits(ids) + [[Clear(ReservationKey(id))]]
  {
  }

  lemma ExtraUnitsSnoc(extras: seq<Extra>, e: Extra)
    ensures ExtraUnits(extras + [e]) == ExtraUnits(extras) + [[ExtraOp(e)]]
  {
  }

  function Flatten(units: seq<seq<WriteOp>>): seq<WriteOp> {
    if units == [] then [] else Flatten(units[..|units| - 1]) + units[|units| - 1]
  }

  lemma {:induction false} FlattenConcat(a: seq<seq<WriteOp>>, b: seq<seq<WriteOp>>)
    ensures Flatten(a + b) == Flatten(a) + Flatten(b)
  {
    if b == [] {
      assert a + b == a;
    } else {
      FlattenConcat(a, b[..|b| - 1]);
      assert (a + b)[..|a + b| - 1] == a + b[..|b| - 1];
    }
  }

  /** A write that no target, span list or reservation is stored under. */
  ghost predicate Foreign(op: WriteOp) {
    OutsideSpans(op) && LeavesAlone(op, PREFIX_TARGET) && LeavesAlone(op, PREFIX_RESERVATION)
  }

  lemma ForeignKinds(prefix: Byte, segments: seq<Id>, v: Value)
    requires prefix != PREFIX_TARGET && prefix != PREFIX_RESERVATION && prefix != PREFIX_TARGET_SPAN
    ensures Foreign(Put(EncodeKey(prefix, segments), v)) && Foreign(Clear(EncodeKey(prefix, segments)))
  {
    assert EncodeKey(prefix, segments)[5] == prefix && ALL_SPANS[5] == PREFIX_TARGET_SPAN;
    assert EncodeKey(PREFIX_TARGET, [])[5] == PREFIX_TARGET && EncodeKey(PREFIX_RESERVATION, [])[5] == PREFIX_RESERVATION;
  }

  /** The save whose write units are the first `n` of a save. */
  function PartOf(s: Save, n: nat): Save {
    var sets := n - |s.targets|;
    var deletes := sets - |s.sets|;
    s.(targets := Take(s.targets, n), sets := Take(s.sets, sets), deletes := Take(s.deletes, deletes),
       others := Take(s.others, deletes - |s.deletes|))
  }

  lemma TakeUnits(s: Save, n: int)
    ensures TargetUnits(Take(s.targets, n), s.rewrite) == Take(TargetUnits(s.targets, s.rewrite), n)
    ensures SetUnits(Take(s.sets, n)) == Take(SetUnits(s.sets), n)
    ensures DeleteUnits(Take(s.deletes, n)) == Take(DeleteUnits(s.deletes), n)
    ensures ExtraUnits(Take(s.others, n)) == Take(ExtraUnits(s.others), n)
  {
  }

  lemma UnitsOfPart(s: Save, n: nat)
    requires n <= |Units(s)|
    ensures Units(PartOf(s, n)) == Units(s)[..n]
    ensures n == |Units(s)| ==> PartOf(s, n) == s
  {
    var a, b, c, d := TargetUnits(s.targets, s.rewrite), SetUnits(s.sets), DeleteUnits(s.deletes), ExtraUnits(s.others);
    TakeFour(a, b, c, d, n);
    TakeUnits(s, n);
    TakeUnits(s, n - |a|);
    TakeUnits(s, n - |a| - |b|);
    TakeUnits(s, n - |a| - |b| - |c|);
  }

  lemma TakeFour<T>(a: seq<T>, b: seq<T>, c: seq<T>, d: seq<T>, n: nat)
    requires n <= |a + b + c + d|
    ensures (a + b + c + d)[..n] ==
      Take(a, n) + Take(b, n - |a|) + Take(c, n - |a| - |b|) + Take(d, n - |a| - |b| - |c|)
  {
    TakeConcat(a + b + c, d, n);
    TakeConcat(a + b, c, n);
    TakeConcat(a, b, n);
    assert Take(a + b + c + d, n) == (a + b + c + d)[..n];
  }

  ghost predicate Savable(s: Save) {
    && (forall e :: e in s.targets ==> Short(e.target.id) && |e.spans| < U32)
    && (forall r :: r in s.sets ==> Short(r.id))
    && (forall d :: d in s.deletes ==> Short(d))
  }

  lemma {:induction false} TargetsStore(kv: Rows, image: Image, es: seq<TargetState>, rewrite: bool)
    returns (kv': Rows, image': Image)
    requires Stores(kv, image) && forall e :: e in es ==> Short(e.target.id) && |e.spans| < U32
    ensures kv' == ApplyAll(kv, Flatten(TargetUnits(es, rewrite))) && image' == SaveTargets(image, es, rewrite)
    ensures Stores(kv', image')
  {
    if es == [] {
      return kv, image;
    } else {
      var front, last := es[..|es| - 1], es[|es| - 1];
      assert es == front + [last];
      UnitsSnoc(front, last, rewrite);
      assert last in es;
      var kv1, image1 := TargetsStore(kv, image, front, rewrite);
      ApplyUnit(kv, TargetUnits(es, rewrite), TargetUnits(front, rewrite), TargetUnit(last, rewrite), kv1);
      TargetUnitStores(kv1, image1, last, rewrite);
      return ApplyAll(kv1, TargetUnit(last, rewrite)), SaveTarget(image1, last, rewrite);
    }
  }

  lemma ApplyUnit(kv: Rows, units: seq<seq<WriteOp>>, front: seq<seq<WriteOp>>, unit: seq<WriteOp>, kv1: Rows)
    requires units == front + [unit] && kv1 == ApplyAll(kv, Flatten(front))
    ensures ApplyAll(kv, Flatten(units)) == ApplyAll(kv1, unit)
    ensures |unit| == 1 ==> ApplyAll(kv, Flatten(units)) == ApplyOp(kv1, unit[0])
  {
    assert units[..|units| - 1] == front;
    ApplyConcat(kv, Flatten(front), unit);
    if |unit| == 1 {
      OneOp(kv1, unit[0]);
      assert unit == [unit[0]];
    }
  }

  lemma SetStores(kv: Rows, image: Image, r: Record)
    requires Stores(kv, image) && Short(r.id)
    ensures Stores(ApplyOp(kv, Put(ReservationKey(r.id), ReservationValue(r))),
                   image.(reservations := image.reservations[r.id := r]))
  {
    var op := Put(ReservationKey(r.id), ReservationValue(r));
    assert ReservationRows(image.reservations[r.id := r]) == ReservationRows(image.reservations)[r.id := ReservationValue(r)];
    PutStores(kv, PREFIX_RESERVATION, ReservationRows(image.reservations), r.id, ReservationValue(r));
    RecordPutAlone(PREFIX_RESERVATION, PREFIX_TARGET, r.id, ReservationValue(r));
    OutsideKeepsSpans(kv, op, image.spans);
    AloneKeepsStored(kv, op, PREFIX_TARGET, RecordRows(image.records));
  }

  lemma DeleteStores(kv: Rows, image: Image, id: Id)
    requires Stores(kv, image) && Short(id)
    ensures Stores(ApplyOp(kv, Clear(ReservationKey(id))), image.(reservations := image.reservations - {id}))
  {
    var op := Clear(ReservationKey(id));
    assert ReservationRows(image.reservations - {id}) == ReservationRows(image.reservations) - {id};
    ClearStores(kv, PREFIX_RESERVATION, ReservationRows(image.reservations), id);
    RecordPutAlone(PREFIX_RESERVATION, PREFIX_TARGET, id, OtherValue([]));
    OutsideKeepsSpans(kv, op, image.spans);
    AloneKeepsStored(kv, op, PREFIX_TARGET, RecordRows(image.records));
  }

  lemma {:induction false} SetsStore(kv: Rows, image: Image, recs: seq<Record>) returns (kv': Rows, image': Image)
    requires Stores(kv, image) && forall r :: r in recs ==> Short(r.id)
    ensures kv' == ApplyAll(kv, Flatten(SetUnits(recs)))
    ensures image' == image.(reservations := InsertAll(image.reservations, recs))
    ensures Stores(kv', image')
  {
    if recs == [] {
      return kv, image;
    } else {
      var front, last := recs[..|recs| - 1], recs[|recs| - 1];
      assert recs == front + [last];
      SetUnitsSnoc(front, last);
      assert last in recs;
      var kv1, image1 := SetsStore(kv, image, front);
      var op := Put(ReservationKey(last.id), ReservationValue(last));
      ApplyUnit(kv, SetUnits(recs), SetUnits(front), [op], kv1);
      SetStores(kv1, image1, last);
      return ApplyOp(kv1, op), image1.(reservations := image1.reservations[last.id := last]);
    }
  }

  lemma {:induction false} DeletesStore(kv: Rows, image: Image, ids: seq<Id>) returns (kv': Rows, image': Image)
    requires Stores(kv, image) && forall d :: d in ids ==> Short(d)
    ensures kv' == ApplyAll(kv, Flatten(DeleteUnits(ids)))
    ensures image' == image.(reservations := image.reservations - Elems(ids))
    ensures Stores(kv', image')
  {
    if ids == [] {
      assert image.reservations - Elems(ids) == image.reservations;
      return kv, image;
    } else {
      var front, last := ids[..|ids| - 1], ids[|ids| - 1];
      assert ids == front + [last];
      RemoveLast(image.reservations, front, last);
      DeleteUnitsSnoc(front, last);
      assert last in ids;
      var kv1, image1 := DeletesStore(kv, image, front);
      var op := Clear(ReservationKey(last));
      ApplyUnit(kv, DeleteUnits(ids), DeleteUnits(front), [op], kv1);
      DeleteStores(kv1, image1, last);
      return ApplyOp(kv1, op), image1.(reservations := image1.reservations - {last});
    }
  }

  lemma RemoveLast(res: Reservations, front: seq<Id>, last: Id)
    ensures res - Elems(front) - {last} == res - Elems(front + [last])
  {
  }

  lemma ExtraIsForeign(e: Extra)
    ensures Foreign(ExtraOp(e))
  {
    match e
    case ServiceInstance(id, body) => ForeignKinds(PREFIX_SERVICE_INSTANCE, [id], OtherValue(body));
    case BinDelete(bin, id) => ForeignKinds(PREFIX_RESERVATION_BIN, [bin, id], OtherValue([]));
    case BinAdd(bin, id) => ForeignKinds(PREFIX_RESERVATION_BIN, [bin, id], OtherValue(id));
    case StateStamp(shard, body) =>
      ForeignKinds(PREFIX_ALLOCATOR_STATE, if shard.None? then [STAMP] else [STAMP, shard.value], OtherValue(body));
  }

  lemma {:induction false} ExtrasStore(kv: Rows, image: Image, extras: seq<Extra>) returns (kv': Rows)
    requires Stores(kv, image)
    ensures kv' == ApplyAll(kv, Flatten(ExtraUnits(extras))) && Stores(kv', image)
  {
    if extras == [] {
      return kv;
    } else {
      var front, last := extras[..|extras| - 1], extras[|extras| - 1];
      assert extras == front + [last];
      ExtraUnitsSnoc(front, last);
      ExtraIsForeign(last);
      var kv1 := ExtrasStore(kv, image, front);
      var op := ExtraOp(last);
      ApplyUnit(kv, ExtraUnits(extras), ExtraUnits(front), [op], kv1);
      OutsideKeepsSpans(kv1, op, image.spans);
      AloneKeepsStored(kv1, op, PREFIX_TARGET, RecordRows(image.records));
      AloneKeepsStored(kv1, op, PREFIX_RESERVATION, ReservationRows(image.reservations));
      return ApplyOp(kv1, op);
    }
  }

  /** A save leaves exactly the saved content in the database. */
  lemma SaveStores(kv: Rows, image: Image, s: Save)
    requires Stores(kv, image) && Savable(s)
    ensures Stores(ApplyAll(kv, Flatten(Units(s))), Saved(image, s))
  {
    var a, b, c, d := TargetUnits(s.targets, s.rewrite), SetUnits(s.sets), DeleteUnits(s.deletes), ExtraUnits(s.others);
    FlattenConcat(a + b + c, d);
    FlattenConcat(a + b, c);
    FlattenConcat(a, b);
    ApplyConcat(kv, Flatten(a) + Flatten(b) + Flatten(c), Flatten(d));
    ApplyConcat(kv, Flatten(a) + Flatten(b), Flatten(c));
    ApplyConcat(kv, Flatten(a), Flatten(b));
    var kv1, image1 := TargetsStore(kv, image, s.targets, s.rewrite);
    SaveTargetsKeepsReservations(image, s.targets, s.rewrite);
    var kv2, image2 := SetsStore(kv1, image1, s.sets);
    var kv3, image3 := DeletesStore(kv2, image2, s.deletes);
    var _ := ExtrasStore(kv3, image3, s.others);
  }

  lemma {:induction false} SaveTargetsKeepsReservations(image: Image, es: seq<TargetState>, rewrite: bool)
    ensures SaveTargets(image, es, rewrite).reservations == image.reservations
    ensures !rewrite ==> SaveTargets(image, es, rewrite).spans == image.spans
  {
    if es != [] {
      SaveTargetsKeepsReservations(image, es[..|es| - 1], rewrite);
    }
  }

  // ---- batches ----

  method CommitOps(kv: Rows, ops: seq<WriteOp>) returns (kv': Rows)
    ensures kv' == ApplyAll(kv, ops)
  {
    kv' := kv;
    for i := 0 to |ops|
      invariant kv' == ApplyAll(kv, ops[..i])
    {
      assert ops[..i + 1][..i] == ops[..i];
      kv' := ApplyOp(kv', ops[i]);
    }
    assert ops[..|ops|] == ops;
  }

  /**
   * Commits units in order, a batch at a time; `allowed` is the number of commits that succeed before
   * one fails, if one does. What has landed ends at a batch boundary, and is everything without a failure.
   * A batch exceeds the transaction budget only if it is a single unit; `cuts` are where batches ended.
   */
  method PersistUnits(kv: Rows, units: seq<seq<WriteOp>>, sizes: seq<nat>, allowed: Option<nat>)
    returns (kv': Rows, ok: bool, ghost landed: nat, ghost cuts: seq<nat>)
    requires |sizes| == |units| && (forall u :: u in units ==> u != []) && SumBytes(sizes, 0, |sizes|) <= U64_MAX
    ensures landed <= |units| && kv' == ApplyAll(kv, Flatten(units[..landed]))
    ensures Cut(cuts, sizes, landed) && Boundary(sizes, landed)
    ensures SumBytes(sizes, 0, |sizes|) <= MAX_TXN_BYTES ==> landed == 0 || landed == |units|
    ensures ok <==> landed == |units|
    ensures allowed.None? ==> ok
    ensures allowed.Some? ==> |cuts| - 1 <= allowed.value && (!ok ==> |cuts| - 1 == allowed.value)
  {
    kv', cuts := kv, [0];
    var commits := 0;
    var batch: seq<WriteOp>, batchBytes: nat, start := [], 0, 0;
    for i := 0 to |units|
      invariant commits == |cuts| - 1 && (allowed.Some? ==> commits <= allowed.value)
      invariant Batched(kv, kv', units, sizes, cuts, start, i, batch, batchBytes) && start == BatchStart(sizes, i)
    {
      if batch != [] && SatAdd(batchBytes, sizes[i]) > MAX_TXN_BYTES {
        if allowed == Some(commits) {
          StoppedAt(sizes, i);
          return kv', false, start, cuts;
        }
        BatchFits(kv, kv', units, sizes, cuts, start, i, batch, batchBytes);
        cuts := cuts + [i];
        kv' := CommitOps(kv', batch);
        batch, batchBytes, start, commits := [], 0, i, commits + 1;
      }
      BatchNext(kv, kv', units, sizes, cuts, start, i, batch, batchBytes);
      batch, batchBytes := batch + units[i], SatAdd(batchBytes, sizes[i]);
    }
    if batch != [] {
      if allowed == Some(commits) {
        StoppedAt(sizes, |units|);
        return kv', false, start, cuts;
      }
      BatchFits(kv, kv', units, sizes, cuts, start, |units|, batch, batchBytes);
      cuts := cuts + [|units|];
      kv' := CommitOps(kv', batch);
    }
    return kv', true, |units|, cuts;
  }

  lemma StoppedAt(sizes: seq<nat>, i: nat)
    requires i <= |sizes|
    ensures Boundary(sizes, BatchStart(sizes, i))
    ensures SumBytes(sizes, 0, |sizes|) <= MAX_TXN_BYTES ==> BatchStart(sizes, i) == 0
  {
    StartIsBoundary(sizes, i);
    if SumBytes(sizes, 0, |sizes|) <= MAX_TXN_BYTES {
      OneBatch(sizes, i);
    }
  }

  /** After `i` units: those before `start` are committed, and the others wait in `batch`. */
  ghost predicate Batched(kv: Rows, kv': Rows, units: seq<seq<WriteOp>>, sizes: seq<nat>, cuts: seq<nat>,
                          start: nat, i: nat, batch: seq<WriteOp>, batchBytes: nat) {
    && |sizes| == |units| && start <= i <= |units| && (batch == [] <==> start == i)
    && Cut(cuts, sizes, start)
    && kv' == ApplyAll(kv, Flatten(units[..start]))
    && ApplyAll(kv', batch) == ApplyAll(kv, Flatten(units[..i]))
    && batchBytes == SumBytes(sizes, start, i)
    && (i - start > 1 ==> batchBytes <= MAX_TXN_BYTES)
  }

  /** Committing the waiting units leaves none waiting. */
  lemma BatchFits(kv: Rows, kv': Rows, units: seq<seq<WriteOp>>, sizes: seq<nat>, cuts: seq<nat>,
                  start: nat, i: nat, batch: seq<WriteOp>, batchBytes: nat)
    requires Batched(kv, kv', units, sizes, cuts, start, i, batch, batchBytes) && batch != []
    ensures Batched(kv, ApplyAll(kv', batch), units, sizes, cuts + [i], i, i, [], 0)
  {
    CutNext(cuts, sizes, start, i);
  }

  /** Another unit joins the waiting ones, if it fits. */
  lemma BatchNext(kv: Rows, kv': Rows, units: seq<seq<WriteOp>>, sizes: seq<nat>, cuts: seq<nat>,
                  start: nat, i: nat, batch: seq<WriteOp>, batchBytes: nat)
    requires Batched(kv, kv', units, sizes, cuts, start, i, batch, batchBytes) && i < |units|
    requires (forall u :: u in units ==> u != []) && SumBytes(sizes, 0, |sizes|) <= U64_MAX
    requires batch != [] ==> SatAdd(batchBytes, sizes[i]) <= MAX_TXN_BYTES
    ensures Batched(kv, kv', units, sizes, cuts, start, i + 1, batch + units[i], SatAdd(batchBytes, sizes[i]))
  {
    assert units[i] in units;
    SumPart(sizes, start, i + 1);
    NextUnit(kv, kv', units, i, batch);
  }

  lemma NextUnit(kv: Rows, kv': Rows, units: seq<seq<WriteOp>>, i: nat, batch: seq<WriteOp>)
    requires i < |units| && ApplyAll(kv', batch) == ApplyAll(kv, Flatten(units[..i]))
    ensures ApplyAll(kv', batch + units[i]) == ApplyAll(kv, Flatten(units[..i + 1]))
  {
    assert units[..i + 1] == units[..i] + [units[i]];
    ApplyUnit(kv, units[..i + 1], units[..i], units[i], ApplyAll(kv, Flatten(units[..i])));
    ApplyConcat(kv', batch, units[i]);
  }

  ghost predicate Cut(cuts: seq<nat>, sizes: seq<nat>, at: nat) {
    cuts != [] && cuts[0] == 0 && cuts[|cuts| - 1] == at && WellCut(cuts, sizes)
  }

  /** Every batch fits the budget or is one unit. */
  ghost predicate WellCut(cuts: seq<nat>, sizes: seq<nat>) {
    && (forall j :: 0 <= j < |cuts| ==> cuts[j] <= |sizes|)
    && forall j :: 0 < j < |cuts| ==>
         cuts[j - 1] < cuts[j] && (cuts[j] == cuts[j - 1] + 1 || SumBytes(sizes, cuts[j - 1], cuts[j]) <= MAX_TXN_BYTES)
  }

  lemma CutNext(cuts: seq<nat>, sizes: seq<nat>, at: nat, i: nat)
    requires Cut(cuts, sizes, at) && at < i <= |sizes|
    requires i == at + 1 || SumBytes(sizes, at, i) <= MAX_TXN_BYTES
    ensures Cut(cuts + [i], sizes, i)
  {
  }
}
