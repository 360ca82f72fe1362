/**
 * Properties of the keyframe stage of a pass: where a projected point is
 * bucketed, that the frame-id stamp makes every point reach the grid at most
 * once however many keyframes observe it, and that the overlap counts are
 * exactly what the grid received.
 */
module Seeding {
  import opened Geometry
  import opened Landmark
  import opened MapStore
  import opened PassSpec

  /** The points of a candidate list, with multiplicity. */
  function Pts(l: seq<Candidate>): multiset<PointId> {
    if l == [] then multiset{} else multiset{l[0].pt} + Pts(l[1..])
  }

  /** The points of all cells of a grid, with multiplicity. */
  function CellPoints(cells: seq<seq<Candidate>>): multiset<PointId> {
    if cells == [] then multiset{} else Pts(cells[0]) + CellPoints(cells[1..])
  }

  /** All bucketed points of a keyframe stage, keyframe after keyframe. */
  function Flatten(logs: seq<seq<PointId>>): seq<PointId> {
    if logs == [] then [] else logs[0] + Flatten(logs[1..])
  }

  predicate NoDup(s: seq<PointId>) {
    forall i, j :: 0 <= i < j < |s| ==> s[i] != s[j]
  }

  /** Some feature of fts[j..] refers to point x. */
  predicate Observes(fts: seq<Feature>, j: nat, x: PointId) {
    exists k :: j <= k < |fts| && fts[k].point == Some(x)
  }

  /** Some feature of a keyframe of kfs[n..] refers to point x. */
  predicate ObservedBy(kfs: seq<seq<Feature>>, n: nat, x: PointId) {
    exists i :: n <= i < |kfs| && Observes(kfs[i], 0, x)
  }

  /** `reprojectPoint` would accept point x: its pixel is in frame with the 8-pixel margin. */
  predicate Accepted(s: PassState, e: Env, x: PointId) {
    x < |s.world.points| && InFrame(Projection(s, e, x), PatchMargin, e.grid.width, e.grid.height)
  }

  lemma {:induction false} PtsAppend(l: seq<Candidate>, c: Candidate)
    ensures Pts(l + [c]) == Pts(l) + multiset{c.pt}
  {
    if l != [] {
      assert (l + [c])[1..] == l[1..] + [c];
      PtsAppend(l[1..], c);
    } else {
      assert ([c])[1..] == [];
    }
  }

  /** Appending one candidate to one cell adds its point to the grid's points. */
  lemma {:induction false} CellPointsAppend(cells: seq<seq<Candidate>>, k: nat, c: Candidate)
    requires k < |cells|
    ensures CellPoints(cells[k := cells[k] + [c]]) == CellPoints(cells) + multiset{c.pt}
  {
    var u := cells[k := cells[k] + [c]];
    if k == 0 {
      assert u[1..] == cells[1..];
      PtsAppend(cells[0], c);
      calc {
        CellPoints(u);
        Pts(cells[0] + [c]) + CellPoints(cells[1..]);
        Pts(cells[0]) + multiset{c.pt} + CellPoints(cells[1..]);
        CellPoints(cells) + multiset{c.pt};
      }
    } else {
      var tail := cells[1..];
      assert u[1..] == tail[k - 1 := tail[k - 1] + [c]];
      CellPointsAppend(tail, k - 1, c);
      calc {
        CellPoints(u);
        Pts(cells[0]) + CellPoints(tail[k - 1 := tail[k - 1] + [c]]);
        Pts(cells[0]) + CellPoints(tail) + multiset{c.pt};
        CellPoints(cells) + multiset{c.pt};
      }
    }
  }

  /**
   * `reprojectPoint` buckets the point exactly when its pixel passes the
   * in-frame test with the 8-pixel margin; it then lands, as one new
   * candidate, at the end of the cell whose column and row bands contain the
   * pixel, and no other cell changes. Otherwise nothing changes.
   */
  lemma ProjectPointEffect(s: PassState, e: Env, pid: PointId)
    requires Sized(e.grid) && WellFormed(s, e.grid) && pid < |s.world.points|
    ensures var px := Projection(s, e, pid);
            var r := ProjectPoint(s, e, pid);
            (r.1 <==> InFrame(px, PatchMargin, e.grid.width, e.grid.height)) &&
            (!r.1 ==> r.0 == s) &&
            (r.1 ==> var k := CellIndex(px, e.grid);
                     0 <= k < |s.cells| &&
                     k / e.grid.nCols == px.y / e.grid.cellSize &&
                     k % e.grid.nCols == px.x / e.grid.cellSize &&
                     r.0.cells[k] == s.cells[k] + [Candidate(pid, px)] &&
                     (forall c :: 0 <= c < |s.cells| && c != k ==> r.0.cells[c] == s.cells[c])) &&
            CellPoints(r.0.cells) == CellPoints(s.cells) + (if r.1 then multiset{pid} else multiset{})
  {
    var px := Projection(s, e, pid);
    if InFrame(px, PatchMargin, e.grid.width, e.grid.height) {
      CellIndexInRange(px, PatchMargin, e.grid);
      CellIndexCoordinates(px, PatchMargin, e.grid);
      var k := CellIndex(px, e.grid);
      assert ProjectPoint(s, e, pid).0.cells == s.cells[k := s.cells[k] + [Candidate(pid, px)]];
      CellPointsAppend(s.cells, k, Candidate(pid, px));
    }
  }

  /** Point pid of the map carries the stamp of frame id. */
  predicate Stamped(m: MapState, pid: PointId, id: int) {
    pid < |m.points| && m.points[pid].lastProjectedKfId == id
  }

  /**
   * The keyframe stage changes the points only by stamping them with the
   * current frame's id, and changes nothing but the points and the cells.
   */
  predicate OnlyStamps(s: PassState, r: PassState, id: int) {
    r.fts == s.fts && r.matcher == s.matcher &&
    r.nMatches == s.nMatches && r.nTrials == s.nTrials &&
    r.world.candidates == s.world.candidates && r.world.trash == s.world.trash &&
    |r.world.points| == |s.world.points| &&
    forall p :: 0 <= p < |s.world.points| ==>
      r.world.points[p] == s.world.points[p].(lastProjectedKfId := r.world.points[p].lastProjectedKfId) &&
      (r.world.points[p].lastProjectedKfId == s.world.points[p].lastProjectedKfId ||
       r.world.points[p].lastProjectedKfId == id)
  }

  lemma OnlyStampsTrans(a: PassState, b: PassState, c: PassState, id: int)
    requires OnlyStamps(a, b, id) && OnlyStamps(b, c, id)
    ensures OnlyStamps(a, c, id)
  {
  }

  lemma NoDupConcat(a: seq<PointId>, b: seq<PointId>)
    requires NoDup(a) && NoDup(b) && forall x :: x in a ==> x !in b
    ensures NoDup(a + b)
  {
    forall i, j | 0 <= i < j < |a + b| ensures (a + b)[i] != (a + b)[j] {
      if i < |a| && j >= |a| {
        assert (a + b)[i] in a && (a + b)[j] == b[j - |a|];
      }
    }
  }

  // ---------------------------------------------------------------------------
  // One feature

  lemma SeedFeatureOnlyStamps(s: PassState, e: Env, f: Feature)
    requires Sized(e.grid) && WellFormed(s, e.grid)
    requires f.point.Some? ==> f.point.value < |s.world.points|
    ensures OnlyStamps(s, SeedFeature(s, e, f).0, e.frameId)
  {
  }

  lemma SeedFeatureStamps(s: PassState, e: Env, f: Feature)
    requires Sized(e.grid) && WellFormed(s, e.grid)
    requires f.point.Some? ==> f.point.value < |s.world.points|
    ensures var r := SeedFeature(s, e, f);
            (f.point.Some? ==> Stamped(r.0.world, f.point.value, e.frameId)) &&
            (forall x :: x in r.1 ==> !Stamped(s.world, x, e.frameId) && Stamped(r.0.world, x, e.frameId)) &&
            NoDup(r.1)
  {
  }

  lemma SeedFeatureGrid(s: PassState, e: Env, f: Feature)
    requires Sized(e.grid) && WellFormed(s, e.grid)
    requires f.point.Some? ==> f.point.value < |s.world.points|
    ensures var r := SeedFeature(s, e, f);
            CellPoints(r.0.cells) == CellPoints(s.cells) + multiset(r.1)
  {
    if f.point.Some? && s.world.points[f.point.value].lastProjectedKfId != e.frameId {
      var pid := f.point.value;
      ProjectPointEffect(s.(world := Stamp(s.world, pid, e.frameId)), e, pid);
    }
  }

  /**
   * Which point one feature buckets: its point, exactly when the feature has
   * one, that point is not yet stamped with this frame's id, and
   * `reprojectPoint` accepts it. The feature stamps exactly its own point,
   * and no point's acceptance changes.
   */
  lemma SeedFeatureBuckets(s: PassState, e: Env, f: Feature)
    requires Sized(e.grid) && WellFormed(s, e.grid)
    requires f.point.Some? ==> f.point.value < |s.world.points|
    ensures var r := SeedFeature(s, e, f);
            r.1 == (if f.point.Some? && !Stamped(s.world, f.point.value, e.frameId) && Accepted(s, e, f.point.value)
                    then [f.point.value] else []) &&
            (forall x: PointId :: Stamped(r.0.world, x, e.frameId) <==> Stamped(s.world, x, e.frameId) || f.point == Some(x)) &&
            (forall x: PointId :: Accepted(r.0, e, x) <==> Accepted(s, e, x))
  {
    var r := SeedFeature(s, e, f);
    if f.point.Some? && !Stamped(s.world, f.point.value, e.frameId) {
      var pid := f.point.value;
      var w := Stamp(s.world, pid, e.frameId);
      assert r.0.world == w;
      assert Projection(s.(world := w), e, pid) == Projection(s, e, pid);
      forall x: PointId | x < |s.world.points| ensures Projection(r.0, e, x) == Projection(s, e, x) {
      }
    } else {
      assert r == (s, []);
    }
  }

  // ---------------------------------------------------------------------------
  // The features of one keyframe

  lemma {:induction false} SeedFeaturesOnlyStamps(s: PassState, e: Env, fts: seq<Feature>, j: nat)
    requires Sized(e.grid) && WellFormed(s, e.grid) && FeaturesValid(fts, |s.world.points|) && j <= |fts|
    ensures OnlyStamps(s, SeedFeatures(s, e, fts, j).0, e.frameId)
    decreases |fts| - j
  {
    if j < |fts| {
      var s1 := SeedFeature(s, e, fts[j]).0;
      SeedFeatureOnlyStamps(s, e, fts[j]);
      SeedFeaturesOnlyStamps(s1, e, fts, j + 1);
      OnlyStampsTrans(s, s1, SeedFeatures(s1, e, fts, j + 1).0, e.frameId);
    }
  }

  /**
   * The features fts[j..] of one keyframe: every point they refer to ends
   * stamped with the frame's id; a point is bucketed only if it was not
   * stamped before, and at most once.
   */
  lemma {:induction false} SeedFeaturesStamps(s: PassState, e: Env, fts: seq<Feature>, j: nat)
    requires Sized(e.grid) && WellFormed(s, e.grid) && FeaturesValid(fts, |s.world.points|) && j <= |fts|
    ensures var r := SeedFeatures(s, e, fts, j);
            (forall k :: j <= k < |fts| && fts[k].point.Some? ==> Stamped(r.0.world, fts[k].point.value, e.frameId)) &&
            (forall x :: x in r.1 ==> !Stamped(s.world, x, e.frameId) && Stamped(r.0.world, x, e.frameId)) &&
            NoDup(r.1)
    decreases |fts| - j
  {
    if j < |fts| {
      var r1 := SeedFeature(s, e, fts[j]);
      var r2 := SeedFeatures(r1.0, e, fts, j + 1);
      var s1, a, s2, b := r1.0, r1.1, r2.0, r2.1;
      assert SeedFeatures(s, e, fts, j) == (s2, a + b);
      SeedFeatureStamps(s, e, fts[j]);
      SeedFeaturesStamps(s1, e, fts, j + 1);
      SeedFeaturesOnlyStamps(s1, e, fts, j + 1);
      NoDupConcat(a, b);
      forall k | j <= k < |fts| && fts[k].point.Some? ensures Stamped(s2.world, fts[k].point.value, e.frameId) {
        if k == j {
          assert Stamped(s1.world, fts[k].point.value, e.frameId);
        }
      }
    }
  }

  /** The grid gains exactly the points bucketed from fts[j..]. */
  lemma {:induction false} SeedFeaturesGrid(s: PassState, e: Env, fts: seq<Feature>, j: nat)
    requires Sized(e.grid) && WellFormed(s, e.grid) && FeaturesValid(fts, |s.world.points|) && j <= |fts|
    ensures var r := SeedFeatures(s, e, fts, j);
            CellPoints(r.0.cells) == CellPoints(s.cells) + multiset(r.1)
    decreases |fts| - j
  {
    if j < |fts| {
      var r1 := SeedFeature(s, e, fts[j]);
      var r2 := SeedFeatures(r1.0, e, fts, j + 1);
      var s1, a, b := r1.0, r1.1, r2.1;
      assert SeedFeatures(s, e, fts, j) == (r2.0, a + b);
      SeedFeatureGrid(s, e, fts[j]);
      SeedFeaturesGrid(s1, e, fts, j + 1);
      assert multiset(a + b) == multiset(a) + multiset(b);
    }
  }

  // ---------------------------------------------------------------------------
  // All selected keyframes

  lemma {:induction false} SeedKeyframesOnlyStamps(s: PassState, e: Env, kfs: seq<seq<Feature>>, n: nat)
    requires Sized(e.grid) && WellFormed(s, e.grid) && KeyframesValid(kfs, |s.world.points|) && n <= |kfs|
    ensures OnlyStamps(s, SeedKeyframes(s, e, kfs, n).0, e.frameId)
    decreases |kfs| - n
  {
    if n < |kfs| {
      var s1 := SeedFeatures(s, e, kfs[n], 0).0;
      SeedFeaturesOnlyStamps(s, e, kfs[n], 0);
      SeedKeyframesOnlyStamps(s1, e, kfs, n + 1);
      OnlyStampsTrans(s, s1, SeedKeyframes(s1, e, kfs, n + 1).0, e.frameId);
    }
  }

  /** The keyframe stage from keyframe n on stamps every point any of those keyframes observes. */
  lemma {:induction false} SeedKeyframesStampAll(s: PassState, e: Env, kfs: seq<seq<Feature>>, n: nat, t: PassState, logs: seq<seq<PointId>>)
    requires Sized(e.grid) && WellFormed(s, e.grid) && KeyframesValid(kfs, |s.world.points|) && n <= |kfs|
    requires SeedKeyframes(s, e, kfs, n) == (t, logs)
    ensures forall i, k :: n <= i < |kfs| && 0 <= k < |kfs[i]| && kfs[i][k].point.Some? ==>
                             Stamped(t.world, kfs[i][k].point.value, e.frameId)
    decreases |kfs| - n
  {
    if n < |kfs| {
      SeedKeyframesStep(s, e, kfs, n, t, logs);
      var s1 := SeedFeatures(s, e, kfs[n], 0).0;
      SeedFeaturesStamps(s, e, kfs[n], 0);
      SeedKeyframesStampAll(s1, e, kfs, n + 1, t, logs[1..]);
      SeedKeyframesOnlyStamps(s1, e, kfs, n + 1);
      forall k | 0 <= k < |kfs[n]| && kfs[n][k].point.Some?
        ensures Stamped(t.world, kfs[n][k].point.value, e.frameId)
      {
        assert Stamped(s1.world, kfs[n][k].point.value, e.frameId);
      }
    }
  }

  /**
   * No point is bucketed twice by the keyframe stage, even when several
   * keyframes observe it: a point is bucketed only while unstamped, and
   * bucketing stamps it.
   */
  lemma {:induction false} SeedKeyframesBucketOnce(s: PassState, e: Env, kfs: seq<seq<Feature>>, n: nat, t: PassState, logs: seq<seq<PointId>>)
    requires Sized(e.grid) && WellFormed(s, e.grid) && KeyframesValid(kfs, |s.world.points|) && n <= |kfs|
    requires SeedKeyframes(s, e, kfs, n) == (t, logs)
    ensures forall x :: x in Flatten(logs) ==> !Stamped(s.world, x, e.frameId) && Stamped(t.world, x, e.frameId)
    ensures NoDup(Flatten(logs))
    decreases |kfs| - n
  {
    if n < |kfs| {
      SeedKeyframesStep(s, e, kfs, n, t, logs);
      var s1, a, b := SeedFeatures(s, e, kfs[n], 0).0, logs[0], logs[1..];
      assert Flatten(logs) == a + Flatten(b);
      SeedFeaturesStamps(s, e, kfs[n], 0);
      SeedFeaturesOnlyStamps(s, e, kfs[n], 0);
      SeedKeyframesBucketOnce(s1, e, kfs, n + 1, t, b);
      SeedKeyframesOnlyStamps(s1, e, kfs, n + 1);
      NoDupConcat(a, Flatten(b));
      forall x | x in Flatten(logs) ensures !Stamped(s.world, x, e.frameId) && Stamped(t.world, x, e.frameId) {
        if x in a {
          assert Stamped(s1.world, x, e.frameId);
        } else {
          assert x in Flatten(b) && !Stamped(s1.world, x, e.frameId);
        }
      }
    }
  }

  /** The grid gains exactly the points bucketed from keyframes n on. */
  lemma {:induction false} SeedKeyframesGrid(s: PassState, e: Env, kfs: seq<seq<Feature>>, n: nat, t: PassState, logs: seq<seq<PointId>>)
    requires Sized(e.grid) && WellFormed(s, e.grid) && KeyframesValid(kfs, |s.world.points|) && n <= |kfs|
    requires SeedKeyframes(s, e, kfs, n) == (t, logs)
    ensures CellPoints(t.cells) == CellPoints(s.cells) + multiset(Flatten(logs))
    decreases |kfs| - n
  {
    if n < |kfs| {
      SeedKeyframesStep(s, e, kfs, n, t, logs);
      var s1, a, b := SeedFeatures(s, e, kfs[n], 0).0, logs[0], logs[1..];
      assert Flatten(logs) == a + Flatten(b);
      SeedFeaturesGrid(s, e, kfs[n], 0);
      SeedKeyframesGrid(s1, e, kfs, n + 1, t, b);
      assert multiset(a + Flatten(b)) == multiset(a) + multiset(Flatten(b));
    }
  }

  // ---------------------------------------------------------------------------
  // Which points the keyframe stage buckets

  lemma ObservesSplit(fts: seq<Feature>, j: nat)
    requires j < |fts|
    ensures forall x: PointId :: Observes(fts, j, x) <==> fts[j].point == Some(x) || Observes(fts, j + 1, x)
  {
    forall x: PointId | Observes(fts, j, x) && fts[j].point != Some(x) ensures Observes(fts, j + 1, x) {
      var k :| j <= k < |fts| && fts[k].point == Some(x);
      assert j + 1 <= k;
    }
  }

  /**
   * The features fts[j..] of one keyframe bucket exactly the points they
   * observe that were not yet stamped with this frame's id and that
   * `reprojectPoint` accepts; they stamp exactly the points they observe.
   * With `SeedFeaturesStamps` (no point twice), the keyframe's overlap count
   * is the number of such points.
   */
  lemma {:induction false} SeedFeaturesBuckets(s: PassState, e: Env, fts: seq<Feature>, j: nat, t: PassState, log: seq<PointId>)
    requires Sized(e.grid) && WellFormed(s, e.grid) && FeaturesValid(fts, |s.world.points|) && j <= |fts|
    requires SeedFeatures(s, e, fts, j) == (t, log)
    ensures forall x: PointId :: x in log <==> Observes(fts, j, x) && !Stamped(s.world, x, e.frameId) && Accepted(s, e, x)
    ensures forall x: PointId :: Stamped(t.world, x, e.frameId) <==> Stamped(s.world, x, e.frameId) || Observes(fts, j, x)
    ensures forall x: PointId :: Accepted(t, e, x) <==> Accepted(s, e, x)
    decreases |fts| - j
  {
    if j < |fts| {
      var r1 := SeedFeature(s, e, fts[j]);
      var r2 := SeedFeatures(r1.0, e, fts, j + 1);
      assert SeedFeatures(s, e, fts, j) == (r2.0, r1.1 + r2.1);
      SeedFeatureBuckets(s, e, fts[j]);
      SeedFeaturesBuckets(r1.0, e, fts, j + 1, r2.0, r2.1);
      ObservesSplit(fts, j);
    }
  }

  /** The distinct points of a list. */
  function PointSet(l: seq<PointId>): set<PointId> {
    set x | x in l
  }

  /** A list without repeats has as many elements as distinct points. */
  lemma {:induction false} NoDupCard(l: seq<PointId>)
    requires NoDup(l)
    ensures |PointSet(l)| == |l|
  {
    if l != [] {
      var t := l[1..];
      assert NoDup(t) by {
        forall i, j | 0 <= i < j < |t| ensures t[i] != t[j] {
          assert t[i] == l[i + 1] && t[j] == l[j + 1];
        }
      }
      NoDupCard(t);
      assert l[0] !in PointSet(t) by {
        forall k | 0 <= k < |t| ensures t[k] != l[0] {
          assert t[k] == l[k + 1];
        }
      }
      assert PointSet(l) == PointSet(t) + {l[0]};
    }
  }

  /**
   * The count of one keyframe's overlap entry: the number of distinct
   * points its features observe that were not yet stamped with this frame's
   * id and that `reprojectPoint` accepts.
   */
  lemma SeedFeaturesCount(s: PassState, e: Env, fts: seq<Feature>, t: PassState, log: seq<PointId>)
    requires Sized(e.grid) && WellFormed(s, e.grid) && FeaturesValid(fts, |s.world.points|)
    requires SeedFeatures(s, e, fts, 0) == (t, log)
    ensures |log| == |set x: PointId | x < |s.world.points| && Observes(fts, 0, x) &&
                                       !Stamped(s.world, x, e.frameId) && Accepted(s, e, x)|
  {
    SeedFeaturesBuckets(s, e, fts, 0, t, log);
    SeedFeaturesStamps(s, e, fts, 0);
    NoDupCard(log);
    assert PointSet(log) == set x: PointId | x < |s.world.points| && Observes(fts, 0, x) &&
                                                  !Stamped(s.world, x, e.frameId) && Accepted(s, e, x);
  }

  lemma ObservedBySplit(kfs: seq<seq<Feature>>, n: nat)
    requires n < |kfs|
    ensures forall x: PointId :: ObservedBy(kfs, n, x) <==> Observes(kfs[n], 0, x) || ObservedBy(kfs, n + 1, x)
  {
    forall x: PointId | ObservedBy(kfs, n, x) && !Observes(kfs[n], 0, x) ensures ObservedBy(kfs, n + 1, x) {
      var i :| n <= i < |kfs| && Observes(kfs[i], 0, x);
      assert n + 1 <= i;
    }
  }

  /**
   * The keyframe stage from keyframe n on buckets exactly the points some of
   * those keyframes observe, that were not stamped with this frame's id when
   * the stage began, and that `reprojectPoint` accepts.
   */
  lemma {:induction false} SeedKeyframesBuckets(s: PassState, e: Env, kfs: seq<seq<Feature>>, n: nat, t: PassState, logs: seq<seq<PointId>>)
    requires Sized(e.grid) && WellFormed(s, e.grid) && KeyframesValid(kfs, |s.world.points|) && n <= |kfs|
    requires SeedKeyframes(s, e, kfs, n) == (t, logs)
    ensures forall x: PointId :: x in Flatten(logs) <==> ObservedBy(kfs, n, x) && !Stamped(s.world, x, e.frameId) && Accepted(s, e, x)
    ensures forall x: PointId :: Stamped(t.world, x, e.frameId) <==> Stamped(s.world, x, e.frameId) || ObservedBy(kfs, n, x)
    ensures forall x: PointId :: Accepted(t, e, x) <==> Accepted(s, e, x)
    decreases |kfs| - n
  {
    if n < |kfs| {
      SeedKeyframesStep(s, e, kfs, n, t, logs);
      var r1 := SeedFeatures(s, e, kfs[n], 0);
      assert Flatten(logs) == logs[0] + Flatten(logs[1..]);
      SeedFeaturesBuckets(s, e, kfs[n], 0, r1.0, r1.1);
      SeedKeyframesBuckets(r1.0, e, kfs, n + 1, t, logs[1..]);
      ObservedBySplit(kfs, n);
    }
  }
}
