/** The client's byte paths: ranged reads through the stripe cache, and seeding a staged copy. */
module StripeReads {
  import opened Common

  type Bytes = seq<Byte>

  /** A ranged read clamped to the object's length. */
  function Clamped(obj: Bytes, offset: nat, len: nat): Bytes {
    if offset >= |obj| then []
    else if offset + len >= |obj| then obj[offset..]
    else obj[offset..offset + len]
  }

  /** Byte `i` of a clamped read is the object's byte `offset + i`, up to the end of the range or the object. */
  lemma ClampedMeaning(obj: Bytes, offset: nat, len: nat)
    ensures |Clamped(obj, offset, len)| == Min(len, if offset < |obj| then |obj| - offset else 0)
    ensures forall i :: 0 <= i < |Clamped(obj, offset, len)| ==> offset + i < |obj| && Clamped(obj, offset, len)[i] == obj[offset + i]
  {
  }

  function StripeOf(obj: Bytes, width: nat, index: nat): Bytes {
    Clamped(obj, index * width, width)
  }

  /** Every cached stripe is non-empty and holds exactly that stripe of its object. */
  ghost predicate ExactStripes(tierB: map<(Id, nat), Bytes>, store: map<Id, Bytes>, width: nat) {
    forall k, i :: (k, i) in tierB ==> k in store && tierB[(k, i)] == StripeOf(store[k], width, i) && tierB[(k, i)] != []
  }

  lemma StripeBounds(pos: nat, width: nat)
    requires width > 0
    ensures pos / width * width <= pos < pos / width * width + width
  {
  }

  /** What one pass of the read loop appends. */
  lemma TakeFromStripe(obj: Bytes, width: nat, offset: nat, pos: nat, end: nat, start: nat)
    requires start <= pos < start + width && offset <= pos < end
    ensures var stripe := Clamped(obj, start, width);
      if pos - start >= |stripe| then |obj| <= pos
      else var take := Min(end - pos, |stripe| - (pos - start));
        && pos + take <= |obj| && pos + take <= end
        && stripe[pos - start..pos - start + take] == obj[pos..pos + take]
        && (|stripe| < width ==> pos + take == end || pos + take == |obj|)
  {
    var stripe := Clamped(obj, start, width);
    if pos - start < |stripe| {
      var take := Min(end - pos, |stripe| - (pos - start));
      assert forall k :: 0 <= k < |stripe| ==> stripe[k] == obj[start + k];
      assert stripe[pos - start..pos - start + take] == obj[pos..pos + take];
    }
  }

  /** The bytes collected when the read has got to `pos`. */
  ghost predicate ReadTo(store: map<Id, Bytes>, key: Id, offset: nat, pos: nat, out: Bytes) {
    && offset <= pos
    && (pos == offset ==> out == [])
    && (pos > offset ==> key in store && pos <= |store[key]| && out == store[key][offset..pos])
  }

  ghost predicate ReadAll(store: map<Id, Bytes>, key: Id, offset: nat, end: nat, out: Bytes)
    requires offset <= end
  {
    out == if key in store then Clamped(store[key], offset, end - offset) else []
  }

  /** One pass of the read loop: either everything is read, or the read gets further. */
  lemma ReadStep(store: map<Id, Bytes>, key: Id, offset: nat, pos: nat, end: nat, width: nat, within: nat, out: Bytes)
    requires key in store && ReadTo(store, key, offset, pos, out) && pos < end && within <= pos && within < width
    ensures var stripe := Clamped(store[key], pos - within, width);
      if within >= |stripe| then ReadAll(store, key, offset, end, out)
      else
        var take := Min(end - pos, |stripe| - within);
        var next := out + stripe[within..within + take];
        && ReadTo(store, key, offset, pos + take, next)
        && (|stripe| < width || pos + take == end ==> ReadAll(store, key, offset, end, next))
  {
    var stripe := Clamped(store[key], pos - within, width);
    TakeFromStripe(store[key], width, offset, pos, end, pos - within);
    if within >= |stripe| {
      ReadDone(store[key], offset, end, pos, out);
    } else {
      var take := Min(end - pos, |stripe| - within);
      var more := stripe[within..within + take];
      ReadMore(store[key], offset, pos, take, out, more);
      if |stripe| < width || pos + take == end {
        ReadDone(store[key], offset, end, pos + take, out + more);
      }
    }
  }

  lemma ReadDone(obj: Bytes, offset: nat, end: nat, pos: nat, out: Bytes)
    requires offset <= pos <= end && (pos == end || pos >= |obj|)
    requires pos == offset ==> out == []
    requires pos > offset ==> pos <= |obj| && out == obj[offset..pos]
    ensures out == Clamped(obj, offset, end - offset)
  {
  }

  lemma ReadMore(obj: Bytes, offset: nat, pos: nat, take: nat, out: Bytes, more: Bytes)
    requires offset <= pos && pos + take <= |obj| && more == obj[pos..pos + take]
    requires pos == offset ==> out == []
    requires pos > offset ==> out == obj[offset..pos]
    ensures out + more == obj[offset..pos + take]
  {
  }

  /** The object store; `faulty` names offsets at which a fetch fails this time. */
  class Objects {
    const stripeWidth: nat
    var store: map<Id, Bytes>

    constructor (stripeWidth: nat)
      ensures this.stripeWidth == stripeWidth && store == map[]
    {
      this.stripeWidth, store := stripeWidth, map[];
    }

    method GetObjectRange(key: Id, offset: nat, len: nat, faulty: set<nat>) returns (r: Result<Bytes>, learned: nat)
      ensures learned == stripeWidth
      ensures r == if key !in store then Err(NotFound) else if offset in faulty then Err(Unavailable)
                   else Ok(Clamped(store[key], offset, len))
    {
      learned := stripeWidth;
      if key !in store {
        return Err(NotFound), learned;
      }
      if offset in faulty {
        return Err(Unavailable), learned;
      }
      return Ok(Clamped(store[key], offset, len)), learned;
    }
  }

  /** An open file: what has been written to it, if it was opened for writing, and whether that is uploaded. */
  class Handle {
    const key: Id
    const inode: nat
    const staged: Option<Bytes>
    var dirty: bool

    constructor (key: Id, inode: nat, staged: Option<Bytes>)
      ensures this.key == key && this.inode == inode && this.staged == staged && dirty == staged.Some?
    {
      this.key, this.inode, this.staged, dirty := key, inode, staged, staged.Some?;
    }
  }

  class KfcCore {
    const objects: Objects
    var width: nat
    var sizes: map<nat, nat>
    var tierB: map<(Id, nat), Bytes>
    var generation: nat

    constructor (objects: Objects)
      ensures this.objects == objects && width == 0 && sizes == map[] && tierB == map[] && generation == 0
    {
      this.objects, width, sizes, tierB, generation := objects, 0, map[], map[], 0;
    }

    ghost predicate Valid()
      reads this, objects
    {
      && (width == 0 || width == objects.stripeWidth)
      && (width == 0 ==> tierB == map[])
      && ExactStripes(tierB, objects.store, width)
    }

    method ObserveStripeWidth(learned: nat)
      modifies this`width
      ensures width == if learned > 0 then learned else old(width)
    {
      if learned > 0 {
        width := learned;
      }
    }

    /** Inserts unless an invalidation came between; may evict any other stripes. */
    method PutTierB(key: Id, index: nat, bytes: Bytes, genAtFetch: nat, evict: set<(Id, nat)>)
      modifies this`tierB
      ensures tierB == if generation != genAtFetch || bytes == [] then old(tierB)
                       else old(tierB)[(key, index) := bytes] - evict
    {
      if generation != genAtFetch || bytes == [] {
        return;
      }
      tierB := tierB[(key, index) := bytes];
      tierB := tierB - evict;
    }

    method FetchStripe(key: Id, index: nat, start: nat, stripeWidth: nat, faulty: set<nat>, evict: set<(Id, nat)>)
      returns (r: Result<Bytes>)
      requires Valid() && width > 0 && stripeWidth == width && start == index * width
      modifies this`width, this`tierB
      ensures Valid() && width == old(width)
      ensures r.Ok? ==> key in objects.store && r.value == StripeOf(objects.store[key], width, index)
      ensures r.Err? ==> key !in objects.store || start in faulty
    {
      if (key, index) in tierB {
        return Ok(tierB[(key, index)]);
      }
      var genAtFetch := generation;
      var payload, learned := objects.GetObjectRange(key, start, stripeWidth, faulty);
      if payload.Err? {
        return payload;
      }
      ObserveStripeWidth(learned);
      PutTierB(key, index, payload.value, genAtFetch, evict);
      return payload;
    }

    /**
     * Returns exactly the bytes from offset to the end of the range or of the object, from any mix of
     * cached and fetched stripes, and leaves every cached stripe exact.
     */
    method ReadRangedCached(key: Id, offset: nat, size: nat, faulty: set<nat>, evict: set<(Id, nat)>)
      returns (r: Result<Bytes>)
      requires Valid() && offset <= U64_MAX
      requires forall k :: k in objects.store ==> |objects.store[k]| <= U64_MAX
      modifies this`width, this`tierB
      ensures Valid()
      ensures size == 0 ==> r == Ok([])
      ensures r.Ok? ==> r.value == if key in objects.store then Clamped(objects.store[key], offset, size) else []
      ensures r.Err? ==> key !in objects.store || faulty != {}
    {
      if size == 0 {
        return Ok([]);
      }
      if width == 0 {
        var payload, learned := objects.GetObjectRange(key, offset, size, faulty);
        if payload.Ok? {
          ObserveStripeWidth(learned);
        }
        return payload;
      }
      r := ReadStripes(key, offset, SatAdd(offset, size), faulty, evict);
    }

    method ReadStripes(key: Id, offset: nat, end: nat, faulty: set<nat>, evict: set<(Id, nat)>) returns (r: Result<Bytes>)
      requires Valid() && width > 0 && offset <= end
      modifies this`width, this`tierB
      ensures Valid()
      ensures r.Ok? ==> ReadAll(objects.store, key, offset, end, r.value)
      ensures r.Err? ==> key !in objects.store || faulty != {}
    {
      var out: Bytes, pos: nat, done := [], offset, offset == end;
      while !done
        invariant pos <= end && Valid() && width == old(width) && (!done ==> pos < end)
        invariant ReadTo(objects.store, key, offset, pos, out)
        invariant done ==> ReadAll(objects.store, key, offset, end, out)
        decreases !done, end - pos
      {
        var fetched, within := StripeAround(key, pos, faulty, evict);
        if fetched.Err? {
          return fetched;
        }
        var taken;
        taken, done := TakeFrom(fetched.value, key, offset, pos, end, within, out);
        out, pos := out + taken, pos + |taken|;
      }
      return Ok(out);
    }

    /** The part of a stripe the read wants; `done` at the end of the range, of a short stripe, or past it. */
    method TakeFrom(stripe: Bytes, ghost key: Id, ghost offset: nat, pos: nat, end: nat, within: nat, ghost out: Bytes)
      returns (taken: Bytes, done: bool)
      requires pos < end && within <= pos && within < width
      requires key in objects.store && stripe == Clamped(objects.store[key], pos - within, width)
      requires ReadTo(objects.store, key, offset, pos, out)
      ensures pos + |taken| <= end && (!done ==> 0 < |taken| < end - pos)
      ensures ReadTo(objects.store, key, offset, pos + |taken|, out + taken)
      ensures done ==> ReadAll(objects.store, key, offset, end, out + taken)
    {
      ReadStep(objects.store, key, offset, pos, end, width, within, out);
      if within >= |stripe| {
        assert out + [] == out;
        return [], true;
      }
      var take := Min(end - pos, |stripe| - within);
      return stripe[within..within + take], |stripe| < width || pos + take == end;
    }

    /** The stripe that covers `pos`, and where `pos` lies in it. */
    method StripeAround(key: Id, pos: nat, faulty: set<nat>, evict: set<(Id, nat)>) returns (r: Result<Bytes>, within: nat)
      requires Valid() && width > 0
      modifies this`width, this`tierB
      ensures Valid() && width == old(width)
      ensures within <= pos && within < width
      ensures r.Ok? ==> key in objects.store && r.value == Clamped(objects.store[key], pos - within, width)
      ensures r.Err? ==> key !in objects.store || pos - within in faulty
    {
      var index := pos / width;
      var start := index * width;
      StripeBounds(pos, width);
      within := pos - start;
      if (key, index) in tierB {
        return Ok(tierB[(key, index)]), within;
      }
      r := FetchStripe(key, index, start, width, faulty, evict);
    }

    /** Bumps the generation first, then drops every stripe of the key. */
    method InvalidateKey(key: Id)
      modifies this`generation, this`tierB
      ensures generation == old(generation) + 1
      ensures forall e :: e in tierB <==> e in old(tierB) && e.0 != key
      ensures forall e :: e in tierB ==> tierB[e] == old(tierB)[e]
    {
      generation := generation + 1;
      tierB := map e | e in tierB && e.0 != key :: tierB[e];
    }

    /**
     * Publishes what a dirty handle has staged and invalidates the key, so every stripe left in the cache
     * is exact again. A clean handle, one without a staged buffer and a failed upload change nothing.
     */
    method CommitHandle(h: Handle, uploadFails: bool) returns (r: Result<()>)
      requires Valid()
      modifies this`generation, this`tierB, this`sizes, objects`store, h`dirty
      ensures Valid()
      ensures var commits := old(h.dirty) && h.staged.Some?;
        && r == (if commits && uploadFails then Err(Unavailable) else Ok(()))
        && (if commits && !uploadFails then
              && objects.store == old(objects.store)[h.key := h.staged.value] && generation == old(generation) + 1
              && sizes == (if h.inode in old(sizes) then old(sizes)[h.inode := |h.staged.value|] else old(sizes)) && !h.dirty
            else
              && objects.store == old(objects.store) && generation == old(generation)
              && tierB == old(tierB) && sizes == old(sizes) && h.dirty == old(h.dirty))
    {
      if !h.dirty || h.staged.None? {
        return Ok(());
      }
      if uploadFails {
        return Err(Unavailable);
      }
      objects.store := objects.store[h.key := h.staged.value];
      h.dirty := false;
      InvalidateKey(h.key);
      if h.inode in sizes {
        sizes := sizes[h.inode := |h.staged.value|];
      }
      return Ok(());
    }

    /** Copies an object window by window. */
    method SeedRmwBuffer(key: Id, faulty: set<nat>) returns (r: Result<Bytes>)
      requires forall k :: k in objects.store ==> |objects.store[k]| <= U64_MAX
      ensures r.Err? ==> key !in objects.store || faulty != {}
      ensures r.Ok? ==> key in objects.store && r.value == Seeded(objects.store[key], objects.stripeWidth)
    {
      var buffer: Bytes, offset: nat, window: nat := [], 0, WINDOW;
      ghost var w := objects.stripeWidth;
      while true
        invariant offset > 0 ==> key in objects.store && w <= WINDOW
        invariant window == WINDOW || (0 < w <= WINDOW && window == NextWindow(w))
        invariant key in objects.store ==> offset <= |objects.store[key]| && buffer == objects.store[key][..offset]
        decreases if key in objects.store then |objects.store[key]| - offset else 0
      {
        var fetched, stripeWidth := objects.GetObjectRange(key, offset, window, faulty);
        if fetched.Err? {
          return fetched;
        }
        var chunk := fetched.value;
        NextChunk(objects.store[key], offset, window);
        if chunk == [] {
          break;
        }
        var read := |chunk|;
        buffer := buffer + chunk;
        offset := SatAdd(offset, read);
        if stripeWidth > 0 {
          NextWindowBounds(stripeWidth);
          window := NextWindow(stripeWidth);
        }
        if read < window {
          break;
        }
      }
      return Ok(buffer);
    }
  }

  const WINDOW: nat := 4 * 1024 * 1024

  lemma NextWindowBounds(stripeWidth: nat)
    requires stripeWidth > 0
    ensures stripeWidth <= WINDOW ==> 0 < NextWindow(stripeWidth) <= WINDOW
    ensures stripeWidth > WINDOW ==> NextWindow(stripeWidth) == stripeWidth
  {
  }

  lemma NextChunk(obj: Bytes, offset: nat, window: nat)
    requires offset <= |obj|
    ensures var chunk := Clamped(obj, offset, window);
      && offset + |chunk| <= |obj| && obj[..offset] + chunk == obj[..offset + |chunk|]
      && |chunk| <= window && (|chunk| < window ==> offset + |chunk| == |obj|)
  {
  }

  /** The copy window once the stripe width is known. */
  function NextWindow(stripeWidth: nat): nat {
    var four := if stripeWidth * 4 > U64_MAX then U64_MAX else stripeWidth * 4;
    var top := if WINDOW > stripeWidth then WINDOW else stripeWidth;
    if four < stripeWidth then stripeWidth else if four > top then top else four
  }

  /** What a seed holds: everything, unless a stripe is wider than the first window. */
  function Seeded(obj: Bytes, stripeWidth: nat): Bytes {
    if stripeWidth <= WINDOW then obj else Clamped(obj, 0, WINDOW)
  }

  /** The seed is the whole object exactly when stripes, or the object, fit the first window. */
  lemma SeedCompleteIff(obj: Bytes, stripeWidth: nat)
    ensures Seeded(obj, stripeWidth) == obj <==> stripeWidth <= WINDOW || |obj| <= WINDOW
    ensures Seeded(obj, stripeWidth) != obj ==> Seeded(obj, stripeWidth) == obj[..4 * 1024 * 1024]
  {
    if stripeWidth > WINDOW && |obj| > WINDOW {
      assert |Seeded(obj, stripeWidth)| == WINDOW;
    }
  }

  /** A 5 MiB object in 8 MiB stripes is seeded with its first 4 MiB. */
  lemma SeedCutsShort(obj: Bytes)
    requires |obj| == 5 * 1024 * 1024
    ensures Seeded(obj, 8 * 1024 * 1024) == obj[..4 * 1024 * 1024] != obj
  {
    SeedCompleteIff(obj, 8 * 1024 * 1024);
  }
}
