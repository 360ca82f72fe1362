/**
 * Properties of the candidate-queue stage of a pass: the in-place scan that
 * buckets every queued point that projects into the frame and penalises, and
 * eventually evicts, every one that does not.
 */
module QueueScan {
  import opened Geometry
  import opened Landmark
  import opened MapStore
  import opened PassSpec
  import opened Lifecycle
  import opened Seeding

  /** The queued point pid passes the in-frame test of the current frame. */
  predicate Projects(w: MapState, e: Env, pid: PointId) {
    pid < |w.points| && InFrame(e.w2c(w.points[pid].pos), PatchMargin, e.grid.width, e.grid.height)
  }

  /** The queued point pid is not evicted by this scan: it projects, or 3 more failures keep it at 30 or below. */
  predicate Survives(w: MapState, e: Env, pid: PointId) {
    Projects(w, e, pid) || (pid < |w.points| && w.points[pid].nFailed + QueuePenalty <= CandidateFailureLimit)
  }

  /** The entries of l that stay in the queue, in order. */
  function Kept(w: MapState, e: Env, l: seq<PointId>): seq<PointId> {
    if l == [] then [] else (if Survives(w, e, l[0]) then [l[0]] else []) + Kept(w, e, l[1..])
  }

  /** The entries of l that are evicted, in order. */
  function Dropped(w: MapState, e: Env, l: seq<PointId>): seq<PointId> {
    if l == [] then [] else (if Survives(w, e, l[0]) then [] else [l[0]]) + Dropped(w, e, l[1..])
  }

  /** The entries of l that are bucketed, in order. */
  function Projecting(w: MapState, e: Env, l: seq<PointId>): seq<PointId> {
    if l == [] then [] else (if Projects(w, e, l[0]) then [l[0]] else []) + Projecting(w, e, l[1..])
  }

  /** Every queue entry is either kept or evicted. */
  lemma {:induction false} KeptDroppedPartition(w: MapState, e: Env, l: seq<PointId>)
    ensures multiset(Kept(w, e, l)) + multiset(Dropped(w, e, l)) == multiset(l)
  {
    if l != [] {
      KeptDroppedPartition(w, e, l[1..]);
      assert l == [l[0]] + l[1..];
    }
  }

  /** The three selections only look at the points that l names. */
  lemma {:induction false} SelectionsAgree(w1: MapState, w2: MapState, e: Env, l: seq<PointId>)
    requires |w1.points| == |w2.points|
    requires forall x :: x in l && x < |w1.points| ==> w1.points[x] == w2.points[x]
    ensures Kept(w1, e, l) == Kept(w2, e, l)
    ensures Dropped(w1, e, l) == Dropped(w2, e, l)
    ensures Projecting(w1, e, l) == Projecting(w2, e, l)
  {
    if l != [] {
      assert l[0] in l;
      assert forall x :: x in l[1..] ==> x in l;
      SelectionsAgree(w1, w2, e, l[1..]);
    }
  }

  /** What the scan leaves of the point pid, which the suffix `rest` of the queue may name. */
  function AfterScan(w: MapState, e: Env, rest: seq<PointId>, pid: PointId): Point
    requires pid < |w.points|
  {
    if pid in rest && !Projects(w, e, pid) then QueueMiss(w.points[pid]) else w.points[pid]
  }

  /** What a scan of the entries `rest` does to a point: a miss for a point that does not project, nothing otherwise. */
  function Scanned(w: MapState, e: Env, pid: PointId): Point
    requires pid < |w.points|
  {
    if Projects(w, e, pid) then w.points[pid] else QueueMiss(w.points[pid])
  }

  /** After scanning `rest`, the queue holds `done` then the survivors, and the trash gained the evicted. */
  predicate QueueAfter(w: MapState, e: Env, done: seq<PointId>, rest: seq<PointId>, rw: MapState) {
    rw.candidates == done + Kept(w, e, rest) && rw.trash == w.trash + Dropped(w, e, rest)
  }

  /** After scanning `rest`, each point is as `AfterScan` says. */
  predicate PointsAfter(w: MapState, e: Env, rest: seq<PointId>, rw: MapState) {
    |rw.points| == |w.points| &&
    forall p :: 0 <= p < |w.points| ==> rw.points[p] == AfterScan(w, e, rest, p)
  }

  /** After scanning `rest`, the grid gained the projecting points and nothing but the map and grid changed. */
  predicate OthersAfter(s: PassState, e: Env, rest: seq<PointId>, r: PassState) {
    r.fts == s.fts && r.matcher == s.matcher && r.nMatches == s.nMatches && r.nTrials == s.nTrials &&
    CellPoints(r.cells) == CellPoints(s.cells) + multiset(Projecting(s.world, e, rest))
  }

  predicate ScanResult(s: PassState, e: Env, j: nat, r: PassState)
    requires j <= |s.world.candidates|
  {
    var q := s.world.candidates;
    QueueAfter(s.world, e, q[..j], q[j..], r.world) &&
    PointsAfter(s.world, e, q[j..], r.world) &&
    OthersAfter(s, e, q[j..], r)
  }

  /** A duplicate-free queue suffix splits into its head, absent from the rest, and a duplicate-free rest. */
  lemma NoDupTail(q: seq<PointId>, j: nat)
    requires j < |q| && NoDup(q[j..])
    ensures q[j..] == [q[j]] + q[j + 1..]
    ensures NoDup(q[j + 1..]) && q[j] !in q[j + 1..]
  {
    var t := q[j..];
    assert q[j + 1..] == t[1..];
    forall i | 0 <= i < |t[1..]| ensures t[1..][i] != q[j] {
      assert t[1..][i] == t[i + 1] && t[0] == q[j];
    }
  }

  /** One entry, queue part: a survivor joins the kept prefix, an evicted entry goes to the trash. */
  lemma QueueStep(w: MapState, e: Env, done: seq<PointId>, pid: PointId, rest: seq<PointId>,
                  w1: MapState, done1: seq<PointId>, rw: MapState)
    requires pid < |w.points| && pid !in rest
    requires w1.points == w.points[pid := Scanned(w, e, pid)]
    requires done1 == done + (if Survives(w, e, pid) then [pid] else [])
    requires w1.trash == w.trash + (if Survives(w, e, pid) then [] else [pid])
    requires QueueAfter(w1, e, done1, rest, rw)
    ensures QueueAfter(w, e, done, [pid] + rest, rw)
  {
    assert ([pid] + rest)[1..] == rest;
    SelectionsAgree(w1, w, e, rest);
  }

  /** One entry, points part. */
  lemma PointsStep(w: MapState, e: Env, pid: PointId, rest: seq<PointId>, w1: MapState, rw: MapState)
    requires pid < |w.points| && pid !in rest
    requires w1.points == w.points[pid := Scanned(w, e, pid)]
    requires PointsAfter(w1, e, rest, rw)
    ensures PointsAfter(w, e, [pid] + rest, rw)
  {
    forall p | 0 <= p < |w.points| ensures rw.points[p] == AfterScan(w, e, [pid] + rest, p) {
      assert p in [pid] + rest <==> p == pid || p in rest;
      if p != pid {
        assert w1.points[p] == w.points[p];
      }
    }
  }

  /** One entry, grid and the rest. */
  lemma OthersStep(s: PassState, e: Env, pid: PointId, rest: seq<PointId>, s1: PassState, r: PassState)
    requires pid < |s.world.points| && pid !in rest
    requires s1.world.points == s.world.points[pid := Scanned(s.world, e, pid)]
    requires s1.fts == s.fts && s1.matcher == s.matcher && s1.nMatches == s.nMatches && s1.nTrials == s.nTrials
    requires CellPoints(s1.cells) == CellPoints(s.cells) + (if Projects(s.world, e, pid) then multiset{pid} else multiset{})
    requires OthersAfter(s1, e, rest, r)
    ensures OthersAfter(s, e, [pid] + rest, r)
  {
    assert ([pid] + rest)[1..] == rest;
    SelectionsAgree(s1.world, s.world, e, rest);
  }

  /** One entry of the scan, all parts: from the state after the entry at position j to the state before it. */
  lemma ScanStepBack(s: PassState, e: Env, j: nat, s1: PassState, j1: nat, r: PassState)
    requires j < |s.world.candidates| && NoDup(s.world.candidates[j..])
    requires var q, pid := s.world.candidates, s.world.candidates[j];
             pid < |s.world.points| &&
             s1.world.points == s.world.points[pid := Scanned(s.world, e, pid)] &&
             s1.fts == s.fts && s1.matcher == s.matcher && s1.nMatches == s.nMatches && s1.nTrials == s.nTrials &&
             CellPoints(s1.cells) == CellPoints(s.cells) + (if Projects(s.world, e, pid) then multiset{pid} else multiset{}) &&
             s1.world.trash == s.world.trash + (if Survives(s.world, e, pid) then [] else [pid]) &&
             j1 <= |s1.world.candidates| &&
             s1.world.candidates[..j1] == q[..j] + (if Survives(s.world, e, pid) then [pid] else []) &&
             s1.world.candidates[j1..] == q[j + 1..]
    requires ScanResult(s1, e, j1, r)
    ensures ScanResult(s, e, j, r)
  {
    var q, pid := s.world.candidates, s.world.candidates[j];
    NoDupTail(q, j);
    QueueStep(s.world, e, q[..j], pid, q[j + 1..], s1.world, s1.world.candidates[..j1], r.world);
    PointsStep(s.world, e, pid, q[j + 1..], s1.world, r.world);
    OthersStep(s, e, pid, q[j + 1..], s1, r);
  }

  /**
   * The scan of the queue from position j, when no point is queued twice
   * there: the entries before j are untouched, the surviving entries stay in
   * their order, the evicted ones go to the trash in their order, each queued
   * point that misses the frame takes exactly one `QueueMiss`, every other
   * point is unchanged, and the grid gains exactly the points that project.
   * The frame's features, the matcher and both counters are untouched.
   */
  lemma {:induction false} ScanQueueEffect(s: PassState, e: Env, j: nat)
    requires Sized(e.grid) && WellFormed(s, e.grid) && j <= |s.world.candidates|
    requires NoDup(s.world.candidates[j..])
    ensures ScanResult(s, e, j, ScanQueueFrom(s, e, j))
    decreases |s.world.candidates| - j
  {
    var w, q := s.world, s.world.candidates;
    if j == |q| {
      assert q[..j] == q && q[j..] == [];
      assert Kept(w, e, []) == [] && Dropped(w, e, []) == [] && Projecting(w, e, []) == [];
    } else {
      var pid := q[j];
      NoDupTail(q, j);
      var s1 := ProjectPoint(s, e, pid);
      if s1.1 {
        ScanQueueEffect(s1.0, e, j + 1);
        ProjectsCase(s, e, j, s1.0);
        assert ScanQueueFrom(s, e, j) == ScanQueueFrom(s1.0, e, j + 1);
      } else {
        var s2 := s.(world := AddFailures(w, pid, QueuePenalty));
        if s2.world.points[pid].nFailed > CandidateFailureLimit {
          var w2 := Retire(s2.world, pid);
          var s3 := s2.(world := w2.(candidates := EraseAt(w2.candidates, j)));
          ScanQueueEffect(s3, e, j);
          EvictsCase(s, e, j, s3);
          assert ScanQueueFrom(s, e, j) == ScanQueueFrom(s3, e, j);
        } else {
          ScanQueueEffect(s2, e, j + 1);
          KeepsCase(s, e, j, s2);
          assert ScanQueueFrom(s, e, j) == ScanQueueFrom(s2, e, j + 1);
        }
      }
    }
  }

  /** The part of `ProjectPointEffect` the queue scan needs. */
  lemma ProjectPointGrid(s: PassState, e: Env, pid: PointId)
    requires Sized(e.grid) && WellFormed(s, e.grid) && pid < |s.world.points|
    ensures var r := ProjectPoint(s, e, pid);
            (r.1 <==> Projects(s.world, e, pid)) &&
            CellPoints(r.0.cells) == CellPoints(s.cells) + (if r.1 then multiset{pid} else multiset{})
  {
    ProjectPointEffect(s, e, pid);
  }

  /** The entry at j projects and is bucketed. */
  lemma ProjectsCase(s: PassState, e: Env, j: nat, s1: PassState)
    requires Sized(e.grid) && WellFormed(s, e.grid) && j < |s.world.candidates|
    requires NoDup(s.world.candidates[j..])
    requires ProjectPoint(s, e, s.world.candidates[j]) == (s1, true)
    ensures j + 1 <= |s1.world.candidates|
    ensures forall r :: ScanResult(s1, e, j + 1, r) ==> ScanResult(s, e, j, r)
  {
    var w, q, pid := s.world, s.world.candidates, s.world.candidates[j];
    ProjectPointGrid(s, e, pid);
    assert s1.world.points == w.points[pid := Scanned(w, e, pid)];
    PrefixExtend(q, j);
    forall r | ScanResult(s1, e, j + 1, r) ensures ScanResult(s, e, j, r) {
      ScanStepBack(s, e, j, s1, j + 1, r);
    }
  }

  /** The entry at j misses and is evicted. */
  lemma EvictsCase(s: PassState, e: Env, j: nat, s3: PassState)
    requires Sized(e.grid) && WellFormed(s, e.grid) && j < |s.world.candidates|
    requires NoDup(s.world.candidates[j..])
    requires var pid := s.world.candidates[j];
             var s2 := s.(world := AddFailures(s.world, pid, QueuePenalty));
             var w2 := Retire(s2.world, pid);
             !ProjectPoint(s, e, pid).1 && s2.world.points[pid].nFailed > CandidateFailureLimit &&
             s3 == s2.(world := w2.(candidates := EraseAt(w2.candidates, j)))
    ensures j <= |s3.world.candidates|
    ensures forall r :: ScanResult(s3, e, j, r) ==> ScanResult(s, e, j, r)
  {
    var w, q, pid := s.world, s.world.candidates, s.world.candidates[j];
    ProjectPointGrid(s, e, pid);
    assert s3.world.points == w.points[pid := Scanned(w, e, pid)];
    assert s3.world.candidates[..j] == q[..j] && s3.world.candidates[j..] == q[j + 1..];
    forall r | ScanResult(s3, e, j, r) ensures ScanResult(s, e, j, r) {
      ScanStepBack(s, e, j, s3, j, r);
    }
  }

  /** The entry at j misses and stays queued. */
  lemma KeepsCase(s: PassState, e: Env, j: nat, s2: PassState)
    requires Sized(e.grid) && WellFormed(s, e.grid) && j < |s.world.candidates|
    requires NoDup(s.world.candidates[j..])
    requires var pid := s.world.candidates[j];
             s2 == s.(world := AddFailures(s.world, pid, QueuePenalty)) &&
             !ProjectPoint(s, e, pid).1 && s2.world.points[pid].nFailed <= CandidateFailureLimit
    ensures j + 1 <= |s2.world.candidates|
    ensures forall r :: ScanResult(s2, e, j + 1, r) ==> ScanResult(s, e, j, r)
  {
    var w, q, pid := s.world, s.world.candidates, s.world.candidates[j];
    ProjectPointGrid(s, e, pid);
    assert s2.world.points == w.points[pid := Scanned(w, e, pid)];
    PrefixExtend(q, j);
    forall r | ScanResult(s2, e, j + 1, r) ensures ScanResult(s, e, j, r) {
      ScanStepBack(s, e, j, s2, j + 1, r);
    }
  }

  /**
   * Whatever the queue holds, the scan only evolves the map: no point
   * changes position or loses counts, a type only becomes DELETED, and the
   * trash only grows. The frame's features, the matcher and the counters are
   * untouched.
   */
  lemma {:induction false} ScanQueueEvolves(s: PassState, e: Env, j: nat)
    requires Sized(e.grid) && WellFormed(s, e.grid) && j <= |s.world.candidates|
    ensures var r := ScanQueueFrom(s, e, j);
            WorldEvolves(s.world, r.world) &&
            r.fts == s.fts && r.matcher == s.matcher && r.nMatches == s.nMatches && r.nTrials == s.nTrials
    decreases |s.world.candidates| - j
  {
    var w, q := s.world, s.world.candidates;
    if j == |q| {
      WorldEvolvesRefl(w);
    } else {
      var pid := q[j];
      var s1 := ProjectPoint(s, e, pid);
      if s1.1 {
        ScanQueueEvolves(s1.0, e, j + 1);
      } else {
        var s2 := s1.0.(world := AddFailures(s1.0.world, pid, QueuePenalty));
        assert WorldEvolves(w, s2.world);
        if s2.world.points[pid].nFailed > CandidateFailureLimit {
          var w2 := Retire(s2.world, pid);
          var s3 := s2.(world := w2.(candidates := EraseAt(w2.candidates, j)));
          RetireEvolves(s2.world, pid);
          assert WorldEvolves(s2.world, s3.world);
          WorldEvolvesTrans(w, s2.world, s3.world);
          ScanQueueEvolves(s3, e, j);
          WorldEvolvesTrans(w, s3.world, ScanQueueFrom(s3, e, j).world);
        } else {
          ScanQueueEvolves(s2, e, j + 1);
          WorldEvolvesTrans(w, s2.world, ScanQueueFrom(s2, e, j + 1).world);
        }
      }
    }
  }
}
