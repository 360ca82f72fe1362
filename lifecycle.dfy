/**
 * The lifecycle of a landmark under reprojection: how failed and successful
 * matches move its counters and its type, after how many of them it is
 * deleted or promoted, and that nothing the reprojector does to a point
 * ever moves it, lowers a counter or brings a DELETED point back.
 */
module Lifecycle {
  import opened Landmark
  import opened MapStore
  import opened PassSpec

  /**
   * A failed match in a cell changes only the failing point: one more
   * failure; it becomes DELETED when it was UNKNOWN and passes 15 failures,
   * or when it was a queued CANDIDATE and passes 30 (losing one queue entry).
   * A CANDIDATE past 30 that is no longer queued stays a CANDIDATE.
   */
  lemma FailInCellEffect(m: MapState, pid: PointId)
    requires pid < |m.points|
    ensures var p := m.points[pid];
            var r := FailInCell(m, pid);
            var n := p.nFailed + 1;
            var evicted := p.kind == TypeCandidate && n > CandidateFailureLimit && pid in m.candidates;
            |r.points| == |m.points| &&
            r.points[pid].nFailed == n &&
            r.points[pid].nSucceeded == p.nSucceeded &&
            r.points[pid].pos == p.pos &&
            r.points[pid].kind == (if p.kind == TypeUnknown && n > UnknownFailureLimit then TypeDeleted
                                   else if evicted then TypeDeleted
                                   else p.kind) &&
            multiset(r.candidates) == multiset(m.candidates) - (if evicted then multiset{pid} else multiset{}) &&
            (forall q :: 0 <= q < |m.points| && q != pid ==> r.points[q] == m.points[q])
  {
    var m1 := AddFailures(m, pid, 1);
    var m2 := if m1.points[pid].kind == TypeUnknown && m1.points[pid].nFailed > UnknownFailureLimit
              then Retire(m1, pid) else m1;
    assert m2.candidates == m.candidates;
    if m2.points[pid].kind == TypeCandidate && m2.points[pid].nFailed > CandidateFailureLimit {
      RemoveCandidatePointEffect(m2, pid);
    } else {
      assert multiset(m2.candidates) == multiset(m.candidates);
    }
  }

  /** The failing point's own side of `FailInCellEffect`, for a result `r` named by the caller. */
  lemma FailInCellAt(m: MapState, pid: PointId, r: MapState)
    requires pid < |m.points| && r == FailInCell(m, pid)
    ensures var p := m.points[pid];
            var evicted := p.kind == TypeCandidate && p.nFailed + 1 > CandidateFailureLimit && pid in m.candidates;
            pid < |r.points| &&
            r.points[pid].nFailed == p.nFailed + 1 &&
            r.points[pid].kind == (if p.kind == TypeUnknown && p.nFailed + 1 > UnknownFailureLimit then TypeDeleted
                                   else if evicted then TypeDeleted
                                   else p.kind) &&
            multiset(r.candidates)[pid] == multiset(m.candidates)[pid] - (if evicted then 1 else 0)
  {
    FailInCellEffect(m, pid);
  }

  /** k failed matches of one point in a row. */
  function FailTimes(m: MapState, pid: PointId, k: nat): (r: MapState)
    requires pid < |m.points|
    ensures |r.points| == |m.points|
  {
    if k == 0 then m else FailInCell(FailTimes(m, pid, k - 1), pid)
  }

  /** A fresh UNKNOWN point survives 15 failed matches and is deleted by the 16th. */
  lemma {:induction false} UnknownFailureLifetime(m: MapState, pid: PointId, k: nat)
    requires pid < |m.points|
    requires m.points[pid].kind == TypeUnknown && m.points[pid].nFailed == 0
    ensures FailTimes(m, pid, k).points[pid].nFailed == k
    ensures FailTimes(m, pid, k).points[pid].kind == (if k <= UnknownFailureLimit then TypeUnknown else TypeDeleted)
  {
    if k > 0 {
      UnknownFailureLifetime(m, pid, k - 1);
      FailInCellAt(FailTimes(m, pid, k - 1), pid, FailTimes(m, pid, k));
    }
  }

  /**
   * A fresh CANDIDATE point with a queue entry survives 30 failed matches in
   * cells; the 31st deletes it and takes its entry out of the queue.
   */
  lemma {:induction false} CandidateFailureLifetime(m: MapState, pid: PointId, k: nat)
    requires pid < |m.points|
    requires m.points[pid].kind == TypeCandidate && m.points[pid].nFailed == 0
    requires multiset(m.candidates)[pid] == 1
    ensures FailTimes(m, pid, k).points[pid].nFailed == k
    ensures FailTimes(m, pid, k).points[pid].kind == (if k <= CandidateFailureLimit then TypeCandidate else TypeDeleted)
    ensures multiset(FailTimes(m, pid, k).candidates)[pid] == (if k <= CandidateFailureLimit then 1 else 0)
  {
    if k > 0 {
      CandidateFailureLifetime(m, pid, k - 1);
      var prev := FailTimes(m, pid, k - 1);
      FailInCellAt(prev, pid, FailTimes(m, pid, k));
      if k - 1 <= CandidateFailureLimit {
        assert pid in multiset(prev.candidates);
      } else {
        assert pid !in prev.candidates;
      }
    }
  }

  /** k successful matches of one point in a row. */
  function SucceedTimes(p: Point, k: nat): Point {
    if k == 0 then p else Succeeded(SucceedTimes(p, k - 1))
  }

  /** A fresh UNKNOWN point is promoted to GOOD by its 11th successful match, not before. */
  lemma {:induction false} PromotionAfterElevenSuccesses(p: Point, k: nat)
    requires p.kind == TypeUnknown && p.nSucceeded == 0
    ensures SucceedTimes(p, k).nSucceeded == k
    ensures SucceedTimes(p, k).kind == (if k > PromotionThreshold then TypeGood else TypeUnknown)
  {
    if k > 0 {
      PromotionAfterElevenSuccesses(p, k - 1);
    }
  }

  /**
   * What the candidate-queue scan does to a queued point that does not
   * project into the frame: 3 more failures, and DELETED once past 30.
   */
  function QueueMiss(p: Point): (r: Point)
    ensures r.nFailed == p.nFailed + QueuePenalty
    ensures r.kind == (if p.nFailed + QueuePenalty > CandidateFailureLimit then TypeDeleted else p.kind)
    ensures r.pos == p.pos && r.nSucceeded == p.nSucceeded && r.lastProjectedKfId == p.lastProjectedKfId
  {
    var q := p.(nFailed := p.nFailed + QueuePenalty);
    if q.nFailed > CandidateFailureLimit then q.(kind := TypeDeleted) else q
  }

  function QueueMissTimes(p: Point, k: nat): Point {
    if k == 0 then p else QueueMiss(QueueMissTimes(p, k - 1))
  }

  /**
   * A fresh CANDIDATE point that keeps missing the frame stays queued for
   * 10 scans (30 failures is not past 30) and is deleted by the 11th.
   */
  lemma {:induction false} QueueEvictionAtEleventhMiss(p: Point, k: nat)
    requires p.kind == TypeCandidate && p.nFailed == 0
    ensures QueueMissTimes(p, k).nFailed == QueuePenalty * k
    ensures QueueMissTimes(p, k).kind == (if k <= 10 then TypeCandidate else TypeDeleted)
  {
    if k > 0 {
      QueueEvictionAtEleventhMiss(p, k - 1);
    }
  }

  // ---------------------------------------------------------------------------
  // Monotone evolution of the map

  /**
   * The map b evolved from a: the same arena, each point evolved, the trash
   * only grew.
   */
  predicate WorldEvolves(a: MapState, b: MapState) {
    |b.points| == |a.points| &&
    (forall p :: 0 <= p < |a.points| ==> Evolves(a.points[p], b.points[p])) &&
    |a.trash| <= |b.trash| && b.trash[..|a.trash|] == a.trash
  }

  lemma WorldEvolvesRefl(a: MapState)
    ensures WorldEvolves(a, a)
  {
  }

  lemma {:induction false} WorldEvolvesTrans(a: MapState, b: MapState, c: MapState)
    requires WorldEvolves(a, b) && WorldEvolves(b, c)
    ensures WorldEvolves(a, c)
  {
    forall p | 0 <= p < |a.points| ensures Evolves(a.points[p], c.points[p]) {
      EvolvesTransitive(a.points[p], b.points[p], c.points[p]);
    }
    assert c.trash[..|b.trash|][..|a.trash|] == c.trash[..|a.trash|];
  }

  lemma RetireEvolves(m: MapState, pid: PointId)
    requires pid < |m.points|
    ensures WorldEvolves(m, Retire(m, pid))
  {
    assert Retire(m, pid).trash[..|m.trash|] == m.trash;
  }

  lemma RemoveCandidatePointEvolves(m: MapState, pid: PointId)
    requires pid < |m.points|
    ensures WorldEvolves(m, RemoveCandidatePoint(m, pid))
  {
    var i := IndexOf(m.candidates, pid);
    if i < |m.candidates| {
      RetireEvolves(m.(candidates := m.candidates[..i] + m.candidates[i + 1..]), pid);
    }
  }

  lemma {:induction false} FailInCellEvolves(m: MapState, pid: PointId)
    requires pid < |m.points|
    ensures WorldEvolves(m, FailInCell(m, pid))
  {
    var m1 := AddFailures(m, pid, 1);
    assert WorldEvolves(m, m1);
    var m2 := if m1.points[pid].kind == TypeUnknown && m1.points[pid].nFailed > UnknownFailureLimit
              then Retire(m1, pid) else m1;
    if m2 != m1 {
      RetireEvolves(m1, pid);
    }
    WorldEvolvesTrans(m, m1, m2);
    if m2.points[pid].kind == TypeCandidate && m2.points[pid].nFailed > CandidateFailureLimit {
      RemoveCandidatePointEvolves(m2, pid);
      WorldEvolvesTrans(m, m2, RemoveCandidatePoint(m2, pid));
    }
  }

  lemma SucceedInCellEvolves(m: MapState, pid: PointId)
    requires pid < |m.points|
    ensures WorldEvolves(m, SucceedInCell(m, pid))
  {
    SucceededEvolves(m.points[pid]);
  }
}
