/**
 * Landmarks (map points) and the per-frame records that refer to them:
 * reprojection candidates and frame features.
 */
module Landmark {
  import opened Geometry

  /** Index of a landmark in the map's arena; stands for a `Point*`. */
  type PointId = nat

  datatype Option<T> = None | Some(value: T)

  /**
   * `Point::type_`. Constructors are listed in the enum's order, which the
   * quality comparator relies on: DELETED < CANDIDATE < UNKNOWN < GOOD.
   */
  datatype PointType = TypeDeleted | TypeCandidate | TypeUnknown | TypeGood

  /** Position of a point type in the enum order. */
  function Rank(t: PointType): nat {
    match t
    case TypeDeleted => 0
    case TypeCandidate => 1
    case TypeUnknown => 2
    case TypeGood => 3
  }

  /**
   * A landmark: its 3-D position, lifecycle type, the lifetime counters of
   * failed and successful reprojections, and the id of the last frame it was
   * projected into from a keyframe.
   */
  datatype Point = Point(
    pos: Vec3,
    kind: PointType,
    nFailed: nat,
    nSucceeded: nat,
    lastProjectedKfId: int)

  /** A point paired with the pixel it projected to, valid for one pass. */
  datatype Candidate = Candidate(pt: PointId, px: Pixel)

  datatype FeatureKind = Corner | Edgelet

  /** A frame's observation: pixel, pyramid level, observed point (NULL allowed) and type. */
  datatype Feature = Feature(px: Pixel, level: nat, point: Option<PointId>, kind: FeatureKind)

  /** An UNKNOWN point with more failed matches than this is deleted from the map. */
  const UnknownFailureLimit: nat := 15
  /** A CANDIDATE point with more failed reprojections than this is dropped. */
  const CandidateFailureLimit: nat := 30
  /** An UNKNOWN point with more successful matches than this becomes GOOD. */
  const PromotionThreshold: nat := 10
  /** Failure penalty of a queued candidate that does not even project into the frame. */
  const QueuePenalty: nat := 3

  /** Effect of a successful match on the matched point. */
  function Succeeded(p: Point): Point {
    var n := p.nSucceeded + 1;
    p.(nSucceeded := n, kind := if p.kind == TypeUnknown && n > PromotionThreshold then TypeGood else p.kind)
  }

  /**
   * How a point may change during a pass: same position, counters that only
   * grow, and a type that stays, becomes DELETED, or is promoted UNKNOWN -> GOOD.
   */
  predicate Evolves(a: Point, b: Point) {
    b.pos == a.pos &&
    b.nFailed >= a.nFailed &&
    b.nSucceeded >= a.nSucceeded &&
    (b.kind == a.kind || b.kind == TypeDeleted || (a.kind == TypeUnknown && b.kind == TypeGood))
  }

  /** A success evolves the point and leaves a DELETED point DELETED. */
  lemma SucceededEvolves(p: Point)
    ensures Evolves(p, Succeeded(p))
    ensures Succeeded(p).nSucceeded == p.nSucceeded + 1
    ensures Succeeded(p).nFailed == p.nFailed
  {
  }

  lemma EvolvesTransitive(a: Point, b: Point, c: Point)
    requires Evolves(a, b) && Evolves(b, c)
    ensures Evolves(a, c)
  {
  }
}
