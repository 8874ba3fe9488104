/** The control-plane records the allocator keeps. */
module Records {
  import opened Common
  import opened Spans

  datatype Lifecycle = Unspecified | Active | Draining | Unhealthy | Retired

  datatype FailureDomain = AnyDomain | DriveDomainLab | NodeDomain | RackDomain

  datatype TargetRecord = TargetRecord(
    id: Id, server: Id, rack: Id, shard: Id,
    granuleCount: nat, freeGranules: nat, healthy: bool, lifecycle: Lifecycle)

  /** A target with its free spans. */
  datatype TargetState = TargetState(target: TargetRecord, spans: seq<Span>)

  datatype ReservationState = StateUnspecified | Reserved | Finalized | Released

  datatype Placement = Placement(target: Id, granule: nat, fragment: nat)

  datatype Record = Record(id: Id, state: ReservationState, placements: seq<Placement>, expiresAt: nat)

  /** A granule of a target. */
  type Granule = (Id, nat)

  function GranuleAt(p: Placement): Granule {
    (p.target, p.granule)
  }

  ghost function GranulesOf(ps: seq<Placement>): set<Granule> {
    set p | p in ps :: GranuleAt(p)
  }

  ghost predicate DistinctGranules(ps: seq<Placement>) {
    forall i, j :: 0 <= i < j < |ps| ==> GranuleAt(ps[i]) != GranuleAt(ps[j])
  }

  /** The spans are canonical, lie within the target, and the recorded count is right. */
  ghost predicate ValidTarget(t: TargetState) {
    && Canonical(t.spans)
    && t.target.freeGranules == FreeCount(t.spans)
    && forall g :: g in FreeSet(t.spans) ==> g < t.target.granuleCount
  }

  function WithSpans(t: TargetState, spans: seq<Span>): TargetState {
    TargetState(t.target.(freeGranules := FreeCount(spans)), spans)
  }

  const TARGET_TAG: Id := [116, 97, 114, 103, 101, 116, 58] // "target:"
  const NODE_TAG: Id := [110, 111, 100, 101, 58] // "node:"
  const RACK_TAG: Id := [114, 97, 99, 107, 58] // "rack:"

  /** The failure domain of a target; an unspecified domain has no grouping rule. */
  function DomainKey(domain: FailureDomain, t: TargetRecord): Option<Id> {
    match domain
    case AnyDomain => None
    case DriveDomainLab => Some(TARGET_TAG + t.id)
    case NodeDomain => Some(NODE_TAG + t.server)
    case RackDomain => Some(RACK_TAG + t.rack)
  }
}
