/** Database keys: length-prefixed segments, and the key range that covers a prefix. */
module Keys {
  import opened Common

  type Key = seq<Byte>

  const NAMESPACE: Key := [75, 65, 83, 49] // "KAS1"
  const KEYSPACE_VERSION: Byte := 1
  const PREFIX_TARGET: Byte := 1
  const PREFIX_RESERVATION: Byte := 2
  const PREFIX_SERVICE_INSTANCE: Byte := 3
  const PREFIX_COORDINATION_LEASE: Byte := 4
  const PREFIX_RESERVATION_BIN: Byte := 5
  const PREFIX_ALLOCATOR_STATE: Byte := 6
  const PREFIX_TARGET_SPAN: Byte := 7

  const U32: nat := 0x1_0000_0000

  // ---- encoding ----

  function Digits256(n: nat, width: nat): (r: Key)
    ensures |r| == width
  {
    if width == 0 then [] else Digits256(n / 256, width - 1) + [n % 256]
  }

  /** Four big-endian bytes of a length cast to 32 bits. */
  function BigEndian(n: nat): (r: Key)
    ensures |r| == 4
  {
    Digits256(n % U32, 4)
  }

  function EncodeSegments(segments: seq<Id>): Key {
    if segments == [] then []
    else BigEndian(|segments[0]|) + segments[0] + EncodeSegments(segments[1..])
  }

  function EncodeKey(prefix: Byte, segments: seq<Id>): Key {
    NAMESPACE + [KEYSPACE_VERSION, prefix] + EncodeSegments(segments)
  }

  lemma {:induction false} EncodeSegmentsSnoc(segments: seq<Id>, s: Id)
    ensures EncodeSegments(segments + [s]) == EncodeSegments(segments) + (BigEndian(|s|) + s)
  {
    if segments == [] {
      assert segments + [s] == [s];
      assert EncodeSegments([s][1..]) == [];
    } else {
      EncodeSegmentsSnoc(segments[1..], s);
      assert (segments + [s])[1..] == segments[1..] + [s];
    }
  }

  lemma EncodeNext(prefix: Byte, segments: seq<Id>, i: nat)
    requires i < |segments|
    ensures EncodeKey(prefix, segments[..i + 1]) == EncodeKey(prefix, segments[..i]) + (BigEndian(|segments[i]|) + segments[i])
  {
    EncodeSegmentsSnoc(segments[..i], segments[i]);
    assert segments[..i + 1] == segments[..i] + [segments[i]];
  }

  method Encode(prefix: Byte, segments: seq<Id>) returns (encoded: Key)
    ensures encoded == EncodeKey(prefix, segments)
  {
    encoded := NAMESPACE + [KEYSPACE_VERSION, prefix];
    for i := 0 to |segments|
      invariant encoded == EncodeKey(prefix, segments[..i])
    {
      EncodeNext(prefix, segments, i);
      encoded := encoded + (BigEndian(|segments[i]|) + segments[i]);
    }
    assert segments[..|segments|] == segments;
  }

  function Power256(width: nat): nat {
    if width == 0 then 1 else 256 * Power256(width - 1)
  }

  lemma {:induction false} Digits256Injective(a: nat, b: nat, width: nat)
    requires a < Power256(width) && b < Power256(width) && Digits256(a, width) == Digits256(b, width)
    ensures a == b
  {
    if width > 0 {
      var da, db := Digits256(a, width), Digits256(b, width);
      assert da[..width - 1] == Digits256(a / 256, width - 1) && db[..width - 1] == Digits256(b / 256, width - 1);
      assert da[width - 1] == a % 256 && db[width - 1] == b % 256;
      Digits256Injective(a / 256, b / 256, width - 1);
    }
  }

  lemma BigEndianInjective(a: nat, b: nat)
    requires a < U32 && b < U32 && BigEndian(a) == BigEndian(b)
    ensures a == b
  {
    PowerFour();
    WholeBelow(a);
    WholeBelow(b);
    Digits256Injective(a, b, 4);
  }

  lemma PowerFour()
    ensures Power256(4) == U32
  {
    assert Power256(1) == 256;
    assert Power256(2) == 0x1_0000;
    assert Power256(3) == 0x100_0000;
  }

  lemma WholeBelow(n: nat)
    requires n < U32
    ensures n % U32 == n
  {
  }

  ghost predicate ShortSegments(segments: seq<Id>) {
    forall s :: s in segments ==> |s| < U32
  }

  lemma HeadPrefixIff(x: Id, xs: Key, y: Id, ys: Key)
    requires |x| < U32 && |y| < U32
    ensures BigEndian(|x|) + x + xs <= BigEndian(|y|) + y + ys <==> x == y && xs <= ys
  {
    var a, b := BigEndian(|x|) + x + xs, BigEndian(|y|) + y + ys;
    if a <= b {
      assert a[..4] == BigEndian(|x|) && b[..4] == BigEndian(|y|);
      assert a[..4] == b[..4];
      BigEndianInjective(|x|, |y|);
      assert a[4..4 + |x|] == x && b[4..4 + |x|] == y;
      assert a[4 + |x|..] == xs && b[4 + |x|..] == ys;
    }
  }

  /** An encoded segment list is a prefix of another exactly when the lists are. */
  lemma {:induction false} SegmentsPrefixIff(a: seq<Id>, b: seq<Id>)
    requires ShortSegments(a) && ShortSegments(b)
    ensures EncodeSegments(a) <= EncodeSegments(b) <==> a <= b
  {
    if a != [] && b != [] {
      SegmentsPrefixIff(a[1..], b[1..]);
      assert a[0] in a && b[0] in b;
      HeadPrefixIff(a[0], EncodeSegments(a[1..]), b[0], EncodeSegments(b[1..]));
      assert a == [a[0]] + a[1..] && b == [b[0]] + b[1..];
      assert a <= b <==> a[0] == b[0] && a[1..] <= b[1..];
    }
  }

  /** No encoded key is a prefix of another unless its segments are: keys of other ids never match. */
  lemma KeyPrefixIff(p: Byte, a: seq<Id>, q: Byte, b: seq<Id>)
    requires ShortSegments(a) && ShortSegments(b)
    ensures EncodeKey(p, a) <= EncodeKey(q, b) <==> p == q && a <= b
  {
    SegmentsPrefixIff(a, b);
    var ka, kb := EncodeKey(p, a), EncodeKey(q, b);
    assert ka[5] == p && kb[5] == q && ka[6..] == EncodeSegments(a) && kb[6..] == EncodeSegments(b);
    if p == q && a <= b {
      assert ka[..6] == kb[..6];
      assert ka == ka[..6] + ka[6..] && kb == kb[..6] + kb[6..];
    }
    if ka <= kb {
      assert ka[6..] <= kb[6..];
    }
  }

  lemma KeyInjective(p: Byte, a: seq<Id>, q: Byte, b: seq<Id>)
    requires ShortSegments(a) && ShortSegments(b)
    ensures EncodeKey(p, a) == EncodeKey(q, b) <==> p == q && a == b
  {
    KeyPrefixIff(p, a, q, b);
    KeyPrefixIff(q, b, p, a);
  }

  // ---- ranges ----

  predicate InSpan(begin: Key, end: Key, k: Key) {
    LexLeq(begin, k) && LexLess(k, end)
  }

  /** The least key beyond every extension of `p`, if there is one. */
  function Beyond(p: Key): Option<Key> {
    if p == [] then None
    else
      match Beyond(p[1..])
      case Some(e) => Some([p[0]] + e)
      case None => if p[0] == 255 then None else Some([p[0] + 1])
  }

  function RangeEnd(p: Key): Key {
    match Beyond(p)
    case Some(e) => e
    case None => p + [0]
  }

  lemma {:induction false} BeyondMeaning(p: Key)
    ensures Beyond(p).None? <==> forall i :: 0 <= i < |p| ==> p[i] == 255
  {
    if p != [] {
      BeyondMeaning(p[1..]);
      assert forall i :: 0 < i < |p| ==> p[i] == p[1..][i - 1];
    }
  }

  lemma {:induction false} BeyondAt(p: Key, i: nat)
    requires i < |p| && p[i] != 255 && forall j :: i < j < |p| ==> p[j] == 255
    ensures Beyond(p) == Some(p[..i] + [p[i] + 1])
  {
    BeyondMeaning(p[1..]);
    if i > 0 {
      BeyondAt(p[1..], i - 1);
      assert [p[0]] + (p[1..][..i - 1] + [p[i] + 1]) == p[..i] + [p[i] + 1];
    } else {
      assert forall j :: 0 <= j < |p[1..]| ==> p[1..][j] == p[j + 1];
      assert p[..0] + [p[0] + 1] == [p[0] + 1];
    }
  }

  method PrefixRangeEnd(prefix: Key) returns (end: Key)
    ensures end == RangeEnd(prefix)
  {
    end := prefix;
    var index := |prefix|;
    while index > 0
      invariant 0 <= index <= |prefix|
      invariant forall j :: index <= j < |prefix| ==> prefix[j] == 255
    {
      index := index - 1;
      if end[index] != 255 {
        BeyondAt(prefix, index);
        return end[..index] + [end[index] + 1];
      }
    }
    BeyondMeaning(prefix);
    return prefix + [0];
  }

  lemma {:induction false} MaxedLeq(p: Key, k: Key)
    requires Beyond(p).None?
    ensures LexLeq(p, k) <==> p <= k
  {
    if p != [] && k != [] {
      MaxedLeq(p[1..], k[1..]);
      LeqStep(p, k);
      assert p[0] == k[0] && p[1..] <= k[1..] ==> p <= k;
    }
  }

  lemma LeqStep(p: Key, k: Key)
    requires p != [] && k != []
    ensures LexLeq(p, k) <==> p[0] < k[0] || (p[0] == k[0] && LexLeq(p[1..], k[1..]))
  {
    LexLessIrreflexive(p);
    assert p == [p[0]] + p[1..] && k == [k[0]] + k[1..];
  }

  lemma {:induction false} CoversPrefix(p: Key, k: Key)
    requires Beyond(p).Some?
    ensures InSpan(p, Beyond(p).value, k) <==> p <= k
  {
    var e := Beyond(p).value;
    if k != [] {
      LeqStep(p, k);
      assert p <= k <==> p[0] == k[0] && p[1..] <= k[1..] by {
        assert p == [p[0]] + p[1..] && k == [k[0]] + k[1..];
      }
      if Beyond(p[1..]).Some? {
        CoversPrefix(p[1..], k[1..]);
        assert e[1..] == Beyond(p[1..]).value;
      } else {
        MaxedLeq(p[1..], k[1..]);
        assert e[1..] == [] && !LexLess(k[1..], []);
      }
    }
  }

  /** The range of a prefix is exactly its extensions, for every prefix that is not all 0xFF. */
  lemma RangeIsPrefixIff(p: Key)
    ensures (forall k :: InSpan(p, RangeEnd(p), k) <==> p <= k) <==> exists i :: 0 <= i < |p| && p[i] != 255
  {
    BeyondMeaning(p);
    if Beyond(p).Some? {
      forall k ensures InSpan(p, RangeEnd(p), k) <==> p <= k {
        CoversPrefix(p, k);
      }
    } else {
      var k := p + [0];
      LexLessIrreflexive(k);
      assert p <= k && !InSpan(p, RangeEnd(p), k);
    }
  }

  /** The range of the one-byte prefix 0xFF misses that byte followed by 1. */
  lemma TopPrefixMisses()
    ensures RangeEnd([255]) == [255, 0] && [255] <= [255, 1] && !InSpan([255], RangeEnd([255]), [255, 1])
  {
    BeyondMeaning([255]);
    assert [255] + [0] == [255, 0];
    assert [255, 1][1..] == [1] && [255, 0][1..] == [0];
    assert !LexLess([1], [0]) && !LexLess([255, 1], [255, 0]);
  }

  /** Every encoded prefix is covered, because the namespace has bytes below 0xFF. */
  lemma EncodedRange(prefix: Byte, segments: seq<Id>, k: Key)
    ensures InSpan(EncodeKey(prefix, segments), RangeEnd(EncodeKey(prefix, segments)), k) <==>
      EncodeKey(prefix, segments) <= k
  {
    var p := EncodeKey(prefix, segments);
    assert p[0] == 75;
    RangeIsPrefixIff(p);
  }
}
