/**
 * The invalidation generation against concurrent reads, with the disk tier off. Versions number the
 * immutable payloads of a key; readers, writers and invalidations interleave freely.
 */
module Coherence {
  import opened Common

  type Reader = nat

  /** A cached stripe: which version its bytes are, and when they were read. */
  datatype Entry = Entry(version: nat, readAt: nat)

  /** `floor` is the version that was current at the key's last invalidation when the read began. */
  datatype Read = Read(key: Id, stripe: nat, floor: nat, phase: Phase)

  datatype Phase =
    | Begun
    | Snapped(generation: nat)
    | Fetched(generation: nat, entry: Entry)
    | Served(version: nat)

  /**
   * `current` is the newest version of each key, `invalidatedAt` when its stripes were last dropped, and
   * `floors` the version that was current then. A key that was never put has version 0.
   */
  datatype State = State(
    clock: nat, generation: nat, tierB: map<(Id, nat), Entry>, flights: map<Reader, Read>,
    current: Id -> nat, invalidatedAt: Id -> nat, floors: Id -> nat)

  datatype Step =
    | Put(key: Id)
    | Invalidate(key: Id)
    | InvalidateAll
    | Evict(gone: set<(Id, nat)>)
    | Begin(r: Reader, key: Id, stripe: nat)
    | LookUp(r: Reader)
    | Snapshot(r: Reader)
    | Fetch(r: Reader)
    | Insert(r: Reader, skip: bool)

  predicate Enabled(s: State, step: Step) {
    match step
    case Begin(r, _, _) => r !in s.flights
    case LookUp(r) => r in s.flights && s.flights[r].phase.Begun? && (s.flights[r].key, s.flights[r].stripe) in s.tierB
    case Snapshot(r) => r in s.flights && s.flights[r].phase.Begun?
    case Fetch(r) => r in s.flights && s.flights[r].phase.Snapped?
    case Insert(r, _) => r in s.flights && s.flights[r].phase.Fetched?
    case _ => true
  }

  function Set(f: Id -> nat, key: Id, value: nat): Id -> nat {
    k => if k == key then value else f(k)
  }

  function WithPhase(s: State, r: Reader, phase: Phase): State
    requires r in s.flights
  {
    s.(flights := s.flights[r := s.flights[r].(phase := phase)])
  }

  /** Bump-and-drop and the guarded insert are each one step. */
  function Do(s: State, step: Step): State
    requires Enabled(s, step)
  {
    var s := s.(clock := s.clock + 1);
    match step
    case Put(key) => s.(current := Set(s.current, key, s.current(key) + 1))
    case Invalidate(key) =>
      s.(generation := s.generation + 1,
         tierB := map e | e in s.tierB && e.0 != key :: s.tierB[e],
         invalidatedAt := Set(s.invalidatedAt, key, s.clock),
         floors := Set(s.floors, key, s.current(key)))
    case InvalidateAll =>
      var now, current := s.clock, s.current;
      s.(generation := s.generation + 1, tierB := map[], invalidatedAt := _ => now, floors := current)
    case Evict(gone) => s.(tierB := s.tierB - gone)
    case Begin(r, key, stripe) => s.(flights := s.flights[r := Read(key, stripe, s.floors(key), Begun)])
    case LookUp(r) => WithPhase(s, r, Served(s.tierB[(s.flights[r].key, s.flights[r].stripe)].version))
    case Snapshot(r) => WithPhase(s, r, Snapped(s.generation))
    case Fetch(r) => WithPhase(s, r, Fetched(s.flights[r].phase.generation, Entry(s.current(s.flights[r].key), s.clock)))
    case Insert(r, skip) =>
      var read := s.flights[r];
      var served := WithPhase(s, r, Served(read.phase.entry.version));
      if skip || read.phase.generation != s.generation then served
      else served.(tierB := s.tierB[(read.key, read.stripe) := read.phase.entry])
  }

  ghost predicate Initial(s: State) {
    && s.clock == 0 && s.generation == 0 && s.tierB == map[] && s.flights == map[]
    && forall k :: s.current(k) == 0 && s.invalidatedAt(k) == 0 && s.floors(k) == 0
  }

  ghost predicate Run(ss: seq<State>, steps: seq<Step>) {
    && |ss| == |steps| + 1
    && Initial(ss[0])
    && forall i {:trigger steps[i]} :: 0 <= i < |steps| ==> Enabled(ss[i], steps[i]) && ss[i + 1] == Do(ss[i], steps[i])
  }

  // ---- what every step keeps ----

  /** Bytes read since the key was last invalidated, and no older than it was then. */
  ghost predicate Current(s: State, key: Id, e: Entry) {
    e.readAt > s.invalidatedAt(key) && e.readAt <= s.clock && s.floors(key) <= e.version <= s.current(key)
  }

  ghost predicate FlightSafe(s: State, read: Read) {
    && read.floor <= s.floors(read.key)
    && (read.phase.Snapped? ==> read.phase.generation <= s.generation)
    && (read.phase.Fetched? ==>
         && read.phase.generation <= s.generation
         && read.floor <= read.phase.entry.version
         && (read.phase.generation == s.generation ==> Current(s, read.key, read.phase.entry)))
    && (read.phase.Served? ==> read.floor <= read.phase.version)
  }

  ghost predicate Inv(s: State) {
    && (forall k :: s.floors(k) <= s.current(k) && s.invalidatedAt(k) <= s.clock)
    && (forall k, i :: (k, i) in s.tierB ==> Current(s, k, s.tierB[(k, i)]))
    && (forall r :: r in s.flights ==> FlightSafe(s, s.flights[r]))
  }

  lemma InvStep(s: State, step: Step)
    requires Inv(s) && Enabled(s, step)
    ensures Inv(Do(s, step))
  {
    var s' := Do(s, step);
    forall r | r in s'.flights ensures FlightSafe(s', s'.flights[r]) {
      FlightStep(s, step, r);
    }
  }

  lemma FlightStep(s: State, step: Step, r: Reader)
    requires Inv(s) && Enabled(s, step) && r in Do(s, step).flights
    ensures FlightSafe(Do(s, step), Do(s, step).flights[r])
  {
    if r in s.flights {
      assert FlightSafe(s, s.flights[r]);
    }
  }

  lemma {:induction false} RunKeeps(ss: seq<State>, steps: seq<Step>, i: nat)
    requires Run(ss, steps) && i < |ss|
    ensures Inv(ss[i])
  {
    if i > 0 {
      RunKeeps(ss, steps, i - 1);
      InvStep(ss[i - 1], steps[i - 1]);
      assert ss[i] == Do(ss[i - 1], steps[i - 1]);
    }
  }

  /** The cache never holds bytes read before the last invalidation of their key. */
  lemma NoStaleStripes(ss: seq<State>, steps: seq<Step>, i: nat, key: Id, stripe: nat)
    requires Run(ss, steps) && i < |ss| && (key, stripe) in ss[i].tierB
    ensures ss[i].tierB[(key, stripe)].readAt > ss[i].invalidatedAt(key)
    ensures ss[i].tierB[(key, stripe)].version >= ss[i].floors(key)
  {
    RunKeeps(ss, steps, i);
  }

  /**
   * A commit puts a version (step `p`) and then invalidates its key (step `q`). A read that begins after
   * that (step `b`) is never served an older version, whatever else runs in between.
   */
  lemma ReadsFollowCommits(ss: seq<State>, steps: seq<Step>, p: nat, q: nat, b: nat, i: nat, key: Id, r: Reader, stripe: nat)
    requires Run(ss, steps) && p < q < b < i < |ss|
    requires steps[p] == Put(key) && steps[q] == Invalidate(key) && steps[b] == Begin(r, key, stripe)
    requires r in ss[i].flights && ss[i].flights[r].phase.Served?
    ensures ss[i].flights[r].key == key && ss[i].flights[r].phase.version >= ss[p + 1].current(key)
  {
    VersionsRise(ss, steps, p + 1, q, key);
    assert ss[q + 1] == Do(ss[q], steps[q]);
    RunKeeps(ss, steps, q);
    FloorsRise(ss, steps, q + 1, b, key);
    assert ss[b + 1] == Do(ss[b], steps[b]);
    ReadKeepsFloor(ss, steps, b + 1, i, r);
    RunKeeps(ss, steps, i);
  }

  lemma {:induction false} VersionsRise(ss: seq<State>, steps: seq<Step>, i: nat, j: nat, key: Id)
    requires Run(ss, steps) && i <= j < |ss|
    ensures ss[i].current(key) <= ss[j].current(key)
  {
    if i < j {
      VersionsRise(ss, steps, i, j - 1, key);
      assert ss[j] == Do(ss[j - 1], steps[j - 1]);
    }
  }

  lemma {:induction false} FloorsRise(ss: seq<State>, steps: seq<Step>, i: nat, j: nat, key: Id)
    requires Run(ss, steps) && i <= j < |ss|
    ensures ss[i].floors(key) <= ss[j].floors(key)
  {
    if i < j {
      FloorsRise(ss, steps, i, j - 1, key);
      RunKeeps(ss, steps, j - 1);
      assert ss[j] == Do(ss[j - 1], steps[j - 1]);
    }
  }

  lemma {:induction false} ReadKeepsFloor(ss: seq<State>, steps: seq<Step>, i: nat, j: nat, r: Reader)
    requires Run(ss, steps) && i <= j < |ss| && r in ss[i].flights
    ensures r in ss[j].flights && ss[j].flights[r].floor == ss[i].flights[r].floor && ss[j].flights[r].key == ss[i].flights[r].key
  {
    if i < j {
      ReadKeepsFloor(ss, steps, i, j - 1, r);
      assert ss[j] == Do(ss[j - 1], steps[j - 1]);
    }
  }
}
