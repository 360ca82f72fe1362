/**
 * The part of the map the reprojector touches: the landmark arena, the
 * shared queue of candidate points and the trash of deleted points. The
 * map's own storage is not part of this model; its deletion operations are
 * modelled on these three sequences.
 */
module MapStore {
  import opened Landmark

  datatype MapState = MapState(points: seq<Point>, candidates: seq<PointId>, trash: seq<PointId>)

  /** Every id in `ids` names a point of an arena of n points. */
  predicate IdsValid(ids: seq<PointId>, n: nat) {
    forall i :: 0 <= i < |ids| ==> ids[i] < n
  }

  /** The queue and the trash refer only to existing points. */
  predicate Consistent(m: MapState) {
    IdsValid(m.candidates, |m.points|) && IdsValid(m.trash, |m.points|)
  }

  /** Marks a point DELETED and moves it to the trash (`deletePoint`, `deleteCandidate`). */
  function Retire(m: MapState, pid: PointId): (r: MapState)
    requires pid < |m.points|
    ensures Consistent(m) ==> Consistent(r)
    ensures |r.points| == |m.points| && r.candidates == m.candidates
    ensures r.points[pid].kind == TypeDeleted
  {
    m.(points := m.points[pid := m.points[pid].(kind := TypeDeleted)], trash := m.trash + [pid])
  }

  /** Position of the first occurrence of x in s, or |s| when x does not occur. */
  function IndexOf(s: seq<PointId>, x: PointId): (i: nat)
    ensures i <= |s|
    ensures i < |s| ==> s[i] == x
    ensures forall j :: 0 <= j < i ==> s[j] != x
  {
    if s == [] then 0
    else if s[0] == x then 0
    else 1 + IndexOf(s[1..], x)
  }

  /**
   * `deleteCandidatePoint`: finds the first queue entry for the point; when
   * there is one, erases it and retires the point; otherwise nothing changes.
   */
  function RemoveCandidatePoint(m: MapState, pid: PointId): (r: MapState)
    requires pid < |m.points|
    ensures Consistent(m) ==> Consistent(r)
    ensures |r.points| == |m.points|
  {
    var i := IndexOf(m.candidates, pid);
    if i < |m.candidates| then
      var q := m.candidates[..i] + m.candidates[i + 1..];
      assert IdsValid(m.candidates, |m.points|) ==> IdsValid(q, |m.points|) by {
        if IdsValid(m.candidates, |m.points|) {
          forall k | 0 <= k < |q| ensures q[k] < |m.points| {
            if k < i { assert q[k] == m.candidates[k]; } else { assert q[k] == m.candidates[k + 1]; }
          }
        }
      }
      Retire(m.(candidates := q), pid)
    else m
  }

  /**
   * Removing a candidate point takes exactly one of its queue entries away and
   * deletes it when it was queued; an unqueued point is left as it was.
   */
  lemma RemoveCandidatePointEffect(m: MapState, pid: PointId)
    requires pid < |m.points|
    ensures var r := RemoveCandidatePoint(m, pid);
            multiset(r.candidates) == multiset(m.candidates) - multiset{pid} &&
            (pid in m.candidates ==> r.points[pid].kind == TypeDeleted && r.trash == m.trash + [pid]) &&
            (pid !in m.candidates ==> r == m)
  {
    var i := IndexOf(m.candidates, pid);
    if i < |m.candidates| {
      assert m.candidates == m.candidates[..i] + [pid] + m.candidates[i + 1..];
    } else {
      assert pid !in m.candidates;
    }
  }

  /** The map as the reprojector sees it. */
  class Map {
    var points: seq<Point>
    var candidates: seq<PointId>
    var trash: seq<PointId>

    function Abs(): MapState
      reads this
    {
      MapState(points, candidates, trash)
    }

    constructor (points: seq<Point>, candidates: seq<PointId>)
      ensures Abs() == MapState(points, candidates, [])
    {
      this.points := points;
      this.candidates := candidates;
      this.trash := [];
    }

    /**
     * `safeDeletePoint`: the point becomes DELETED and goes to the trash.
     * Unhooking it from the keyframes that observe it is not modelled.
     */
    method SafeDeletePoint(pid: PointId)
      requires pid < |points|
      modifies this
      ensures Abs() == Retire(old(Abs()), pid)
    {
      points := points[pid := points[pid].(kind := TypeDeleted)];
      trash := trash + [pid];
    }

    /** `deleteCandidate`: the candidate's point becomes DELETED and goes to the trash. */
    method DeleteCandidate(pid: PointId)
      requires pid < |points|
      modifies this
      ensures Abs() == Retire(old(Abs()), pid)
    {
      points := points[pid := points[pid].(kind := TypeDeleted)];
      trash := trash + [pid];
    }

    /** `deleteCandidatePoint`: erases the point's first queue entry, if any, and deletes it. */
    method DeleteCandidatePoint(pid: PointId)
      requires pid < |points|
      modifies this
      ensures Abs() == RemoveCandidatePoint(old(Abs()), pid)
    {
      var i := IndexOf(candidates, pid);
      if i < |candidates| {
        candidates := candidates[..i] + candidates[i + 1..];
        DeleteCandidate(pid);
      }
    }
  }
}
