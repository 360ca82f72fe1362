/**
 * The reprojector as the object the visual-odometry front end drives: a grid
 * of candidate lists over the image, a fixed random visiting order of the
 * cells, the match counters, and references to the map and the matcher.
 * Every method is proved to compute the corresponding function of PassSpec.
 */
module Reprojection {
  import opened Geometry
  import opened Sorting
  import opened Landmark
  import opened MapStore
  import opened PassSpec

  /** The part of a frame the reprojector uses. */
  class Frame {
    const id: int
    /** World-to-camera projection followed by the cast to integer pixels. */
    const w2c: Vec3 -> Pixel
    var fts: seq<Feature>

    constructor (id: int, w2c: Vec3 -> Pixel, fts: seq<Feature>)
      ensures this.id == id && this.w2c == w2c && this.fts == fts
    {
      this.id := id;
      this.w2c := w2c;
      this.fts := fts;
    }

    /** `addFeature`: the feature is appended to the frame's list. */
    method AddFeature(f: Feature)
      modifies this
      ensures fts == old(fts) + [f]
    {
      fts := fts + [f];
    }
  }

  /**
   * The direct matcher, reduced to what the reprojector observes: whether a
   * call matches, the refined pixel, and the search level and reference
   * feature type it leaves behind. `script(n)` is the answer to call n.
   */
  class Matcher {
    var searchLevel: nat
    var refKind: FeatureKind
    var calls: nat
    const script: nat -> MatchOutcome

    function Abs(): MatcherState
      reads this
    {
      MatcherState(searchLevel, refKind, calls)
    }

    constructor (script: nat -> MatchOutcome)
      ensures Abs() == MatcherState(0, Corner, 0) && this.script == script
    {
      this.script := script;
      searchLevel, refKind, calls := 0, Corner, 0;
    }

    /** `findMatchDirect(pt, frame, px)`: px is refined in place on a match. */
    method FindMatchDirect(pt: PointId, frame: Frame, px: Pixel) returns (found: bool, refined: Pixel)
      modifies this
      ensures (Abs(), found, refined) == PassSpec.FindMatchDirect(old(Abs()), script, px)
    {
      var outcome := script(calls);
      calls := calls + 1;
      match outcome
      case NoMatch =>
        found, refined := false, px;
      case Match(p, level, kind) =>
        searchLevel, refKind := level, kind;
        found, refined := true, p;
    }
  }

  /** The feature lists of the given keyframes, in order. */
  function FeatureLists(kfs: seq<(Frame, real)>): (r: seq<seq<Feature>>)
    reads set x | x in kfs :: x.0
    ensures |r| == |kfs| && forall i :: 0 <= i < |kfs| ==> r[i] == kfs[i].0.fts
  {
    if kfs == [] then [] else [kfs[0].0.fts] + FeatureLists(kfs[1..])
  }

  /** Every feature of every listed keyframe refers to an existing point (or none). */
  predicate KeyframeFeaturesValid(kfs: seq<(Frame, real)>, n: nat)
    reads set x | x in kfs :: x.0
  {
    forall i :: 0 <= i < |kfs| ==> FeaturesValid(kfs[i].0.fts, n)
  }

  /** The overlap entries of a pass: each keyframe paired with how many of its points were bucketed. */
  function Overlaps(kfs: seq<(Frame, real)>, bucketed: seq<seq<PointId>>): (r: seq<(Frame, nat)>)
    requires |bucketed| == |kfs|
    ensures |r| == |kfs|
    ensures forall i :: 0 <= i < |kfs| ==> r[i] == (kfs[i].0, |bucketed[i]|)
  {
    seq(|kfs|, i requires 0 <= i < |kfs| => (kfs[i].0, |bucketed[i]|))
  }

  /** The selected keyframes are among the close ones, so their features are valid too. */
  lemma SelectedValid(close: seq<(Frame, real)>, maxN: nat)
    ensures forall x :: x in SelectKeyframes(close, maxN) ==> x in close
    ensures forall n :: KeyframeFeaturesValid(close, n) ==>
              KeyframesValid(FeatureLists(SelectKeyframes(close, maxN)), n)
  {
    var sel := SelectKeyframes(close, maxN);
    forall x | x in sel ensures x in close {
      assert x in multiset(sel);
    }
    forall n, i | KeyframeFeaturesValid(close, n) && 0 <= i < |sel|
      ensures FeaturesValid(FeatureLists(sel)[i], n)
    {
      assert sel[i] in multiset(close);
    }
  }

  /** The feature lists of the keyframes the pass selects from `close`. */
  function SelectedFeatureLists(close: seq<(Frame, real)>, maxN: nat): (r: seq<seq<Feature>>)
    reads set x | x in close :: x.0
    ensures |r| == Min(|close|, maxN)
    ensures forall n :: KeyframeFeaturesValid(close, n) ==> KeyframesValid(r, n)
  {
    SelectedValid(close, maxN);
    FeatureLists(SelectKeyframes(close, maxN))
  }

  class Reprojector {
    const store: Map
    const matcher: Matcher
    const cellSize: nat
    const nCols: nat
    const nRows: nat
    const width: nat
    const height: nat
    /** One candidate list per cell, row-major. */
    const cells: array<seq<Candidate>>
    /** The shuffled order in which cells are visited. */
    const cellOrder: seq<nat>
    const maxNKfs: nat
    const findMatchDirect: bool
    /** The feature budget `Config::maxFts()`. */
    const maxFts: nat
    var nMatches: nat
    var nTrials: nat

    function Dims(): GridDims {
      GridDims(cellSize, nCols, nRows, width, height)
    }

    function EnvFor(frame: Frame): Env {
      Env(Dims(), frame.id, frame.w2c, findMatchDirect, maxFts, matcher.script)
    }

    ghost function State(frame: Frame): PassState
      reads this, store, cells, matcher, frame
    {
      PassState(store.Abs(), cells[..], frame.fts, matcher.Abs(), nMatches, nTrials)
    }

    ghost predicate Valid()
      reads this, store, cells
    {
      Sized(Dims()) &&
      IsPermutation(cellOrder, cells.Length) &&
      GridConsistent(store.Abs(), cells[..], Dims())
    }

    /**
     * `initializeGrid`: ceil(width / cellSize) x ceil(height / cellSize)
     * empty cells, visited in some permutation of their indices.
     */
    constructor (width: nat, height: nat, cellSize: nat, maxNKfs: nat, findMatchDirect: bool,
                 maxFts: nat, store: Map, matcher: Matcher)
      requires cellSize > 0 && Consistent(store.Abs())
      ensures Valid()
      ensures this.store == store && this.matcher == matcher
      ensures this.width == width && this.height == height && this.cellSize == cellSize
      ensures this.maxNKfs == maxNKfs && this.findMatchDirect == findMatchDirect && this.maxFts == maxFts
      ensures nCols == CeilDiv(width, cellSize) && nRows == CeilDiv(height, cellSize)
      ensures cells.Length == nCols * nRows && IsPermutation(cellOrder, cells.Length)
      ensures forall c :: 0 <= c < cells.Length ==> cells[c] == []
      ensures nMatches == 0 && nTrials == 0
      ensures fresh(cells)
    {
      this.store := store;
      this.matcher := matcher;
      this.width := width;
      this.height := height;
      this.cellSize := cellSize;
      this.maxNKfs := maxNKfs;
      this.findMatchDirect := findMatchDirect;
      this.maxFts := maxFts;
      var cols := CeilDiv(width, cellSize);
      var rows := CeilDiv(height, cellSize);
      nCols := cols;
      nRows := rows;
      var n := cols * rows;
      cells := new seq<Candidate>[n](_ => []);
      var order := new nat[n];
      for i := 0 to n
        modifies order
        invariant forall k :: 0 <= k < i ==> order[k] == k
      {
        order[i] := i;
      }
      assert IsPermutation(order[..], n);
      // random_shuffle: any permutation of the identity order
      var shuffled :| IsPermutation(shuffled, n);
      cellOrder := shuffled;
      nMatches, nTrials := 0, 0;
      new;
      assert forall c :: 0 <= c < cells.Length ==> CandidatesValid(cells[c], |store.points|);
    }

    /** `resetGrid`: both counters zero and every cell empty; nothing else changes. */
    method ResetGrid()
      requires Valid()
      modifies this`nMatches, this`nTrials, cells
      ensures Valid()
      ensures nMatches == 0 && nTrials == 0
      ensures cells[..] == EmptyCells(cells.Length)
    {
      nMatches := 0;
      nTrials := 0;
      for c := 0 to cells.Length
        invariant nMatches == 0 && nTrials == 0
        invariant forall k :: 0 <= k < c ==> cells[k] == []
      {
        cells[c] := [];
      }
    }

    /**
     * `reprojectPoint`: projects the point into the frame and, when the pixel
     * passes the in-frame test, appends it to the pixel's cell.
     */
    method ReprojectPoint(frame: Frame, pid: PointId) returns (ok: bool)
      requires Valid() && pid < |store.points|
      modifies cells
      ensures Valid()
      ensures (State(frame), ok) == ProjectPoint(old(State(frame)), EnvFor(frame), pid)
    {
      var px := frame.w2c(store.points[pid].pos);
      if InFrame(px, PatchMargin, width, height) {
        CellIndexInRange(px, PatchMargin, Dims());
        var k := (px.y / cellSize) * nCols + px.x / cellSize;
        cells[k] := cells[k] + [Candidate(pid, px)];
        return true;
      }
      return false;
    }

    /**
     * One keyframe of `reprojectMap`: push an overlap entry for it with count
     * 0, then run the inner loop over its features (skip features without a
     * point and points already stamped with this frame, stamp the rest and
     * project them), adding one to the entry's count per point bucketed.
     */
    method SeedFromKeyframe(frame: Frame, ref: Frame, overlapIn: seq<(Frame, nat)>) returns (overlapKfs: seq<(Frame, nat)>)
      requires Valid() && FeaturesValid(ref.fts, |store.points|)
      modifies cells, store
      ensures Valid()
      ensures var r := SeedFeatures(old(State(frame)), EnvFor(frame), ref.fts, 0);
              State(frame) == r.0 && overlapKfs == overlapIn + [(ref, |r.1|)]
    {
      ghost var env := EnvFor(frame);
      ghost var target := SeedFeatures(State(frame), env, ref.fts, 0);
      overlapKfs := overlapIn + [(ref, 0)];
      var fts := ref.fts;
      for j := 0 to |fts|
        invariant Valid() && |store.points| == |old(store.points)|
        invariant var r := SeedFeatures(State(frame), env, fts, j);
                  r.0 == target.0 && |r.1| <= |target.1| &&
                  overlapKfs == overlapIn + [(ref, |target.1| - |r.1|)]
      {
        ghost var r := SeedFeatures(State(frame), env, fts, j);
        SeedFeaturesStep(State(frame), env, fts, j, r.0, r.1);
        var bucketed := SeedFromFeature(frame, fts[j]);
        var last := |overlapKfs| - 1;
        overlapKfs := overlapKfs[last := (ref, overlapKfs[last].1 + bucketed)];
      }
    }

    /**
     * The body of the feature loop on one feature: a point not yet stamped
     * with this frame's id is stamped and projected. Returns 1 when it was
     * bucketed, else 0.
     */
    method SeedFromFeature(frame: Frame, f: Feature) returns (bucketed: nat)
      requires Valid() && (f.point.Some? ==> f.point.value < |store.points|)
      modifies cells, store
      ensures Valid() && |store.points| == |old(store.points)|
      ensures var r := SeedFeature(old(State(frame)), EnvFor(frame), f);
              State(frame) == r.0 && bucketed == |r.1|
    {
      bucketed := 0;
      if f.point.Some? {
        var pid := f.point.value;
        if store.points[pid].lastProjectedKfId != frame.id {
          store.points := store.points[pid := store.points[pid].(lastProjectedKfId := frame.id)];
          var ok := ReprojectPoint(frame, pid);
          if ok {
            bucketed := 1;
          }
        }
      }
    }

    method SeedFromKeyframeList(frame: Frame, sel: seq<(Frame, real)>, overlapIn: seq<(Frame, nat)>)
      returns (overlapKfs: seq<(Frame, nat)>)
      requires Valid() && KeyframesValid(FeatureLists(sel), |store.points|)
      modifies cells, store
      ensures Valid()
      ensures var r := SeedKeyframes(old(State(frame)), EnvFor(frame), FeatureLists(sel), 0);
              State(frame) == r.0 && overlapKfs == overlapIn + Overlaps(sel, r.1)
    {
      ghost var env := EnvFor(frame);
      ghost var kfs := FeatureLists(sel);
      ghost var target := SeedKeyframes(State(frame), env, kfs, 0);
      ghost var overlaps := Overlaps(sel, target.1);
      overlapKfs := overlapIn;
      var n := 0;
      while n < |sel|
        invariant n <= |sel| == |kfs| == |target.1|
        invariant Valid() && |store.points| == |old(store.points)|
        invariant SeedKeyframes(State(frame), env, kfs, n) == (target.0, target.1[n..])
        invariant overlapKfs == overlapIn + overlaps[..n]
      {
        var refFrame := sel[n].0;
        SeedKeyframesStep(State(frame), env, kfs, n, target.0, target.1[n..]);
        assert target.1[n..][1..] == target.1[n + 1..];
        AppendNext(overlapIn, overlaps, n, overlapKfs);
        overlapKfs := SeedFromKeyframe(frame, refFrame, overlapKfs);
        n := n + 1;
      }
      assert overlaps[..n] == overlaps;
    }

    /**
     * The keyframe part of `reprojectMap`: the close keyframes sorted by
     * distance, at most `maxNKfs` of them, are seeded in that order.
     */
    method SeedFromKeyframes(frame: Frame, closeKfs: seq<(Frame, real)>, overlapIn: seq<(Frame, nat)>)
      returns (overlapKfs: seq<(Frame, nat)>)
      requires Valid() && KeyframeFeaturesValid(closeKfs, |store.points|)
      modifies cells, store
      ensures Valid()
      ensures var sel := SelectKeyframes(closeKfs, maxNKfs);
              var r := SeedKeyframes(old(State(frame)), EnvFor(frame), SelectedFeatureLists(closeKfs, maxNKfs), 0);
              State(frame) == r.0 && overlapKfs == overlapIn + Overlaps(sel, r.1)
    {
      var sel := SelectKeyframes(closeKfs, maxNKfs);
      assert SelectedFeatureLists(closeKfs, maxNKfs) == FeatureLists(sel);
      overlapKfs := SeedFromKeyframeList(frame, sel, overlapIn);
    }

    /**
     * The candidate-queue part of `reprojectMap`: every queued point is
     * projected; one that misses the frame gains 3 failures and, past 30,
     * is deleted and erased from the queue.
     */
    method ScanCandidateQueue(frame: Frame)
      requires Valid()
      modifies cells, store
      ensures Valid()
      ensures State(frame) == ScanQueueFrom(old(State(frame)), EnvFor(frame), 0)
    {
      ghost var env := EnvFor(frame);
      ghost var target := ScanQueueFrom(State(frame), env, 0);
      var j: nat := 0;
      while j < |store.candidates|
        invariant Valid() && j <= |store.candidates|
        invariant ScanQueueFrom(State(frame), env, j) == target
        decreases |store.candidates| - j
      {
        j := VisitQueueEntry(frame, j);
      }
    }

    /** The body of the queue loop on the entry at position j; returns the position of the next entry. */
    method VisitQueueEntry(frame: Frame, j: nat) returns (next: nat)
      requires Valid() && j < |store.candidates|
      modifies cells, store
      ensures Valid()
      ensures (State(frame), next) == QueueVisit(old(State(frame)), EnvFor(frame), j)
    {
      var pid := store.candidates[j];
      var ok := ReprojectPoint(frame, pid);
      next := j + 1;
      if !ok {
        store.points := store.points[pid := store.points[pid].(nFailed := store.points[pid].nFailed + QueuePenalty)];
        if store.points[pid].nFailed > CandidateFailureLimit {
          store.DeleteCandidate(pid);
          store.candidates := store.candidates[..j] + store.candidates[j + 1..];
          next := j;
        }
      }
    }

    /**
     * A failed match in `reprojectCell`: one more failure; an UNKNOWN point
     * past 15 failures is deleted from the map, and then a CANDIDATE point
     * past 30 is removed from the candidate queue.
     */
    method RecordFailure(pid: PointId)
      requires pid < |store.points|
      modifies store
      ensures store.Abs() == FailInCell(old(store.Abs()), pid)
    {
      store.points := store.points[pid := store.points[pid].(nFailed := store.points[pid].nFailed + 1)];
      if store.points[pid].kind == TypeUnknown && store.points[pid].nFailed > UnknownFailureLimit {
        store.SafeDeletePoint(pid);
      }
      if store.points[pid].kind == TypeCandidate && store.points[pid].nFailed > CandidateFailureLimit {
        store.DeleteCandidatePoint(pid);
      }
    }

    /** A successful match in `reprojectCell`: one more success; an UNKNOWN point past 10 becomes GOOD. */
    method RecordSuccess(pid: PointId)
      requires pid < |store.points|
      modifies store
      ensures store.Abs() == SucceedInCell(old(store.Abs()), pid)
    {
      store.points := store.points[pid := store.points[pid].(nSucceeded := store.points[pid].nSucceeded + 1)];
      if store.points[pid].kind == TypeUnknown && store.points[pid].nSucceeded > PromotionThreshold {
        store.points := store.points[pid := store.points[pid].(kind := TypeGood)];
      }
    }

    /**
     * One iteration of the loop of `reprojectCell` on the front candidate,
     * which is then erased; returns whether it was matched.
     */
    method TakeCandidate(idx: nat, frame: Frame) returns (found: bool)
      requires Valid() && idx < cells.Length && cells[idx] != []
      modifies cells, store, frame, matcher, this`nTrials
      ensures Valid()
      ensures (State(frame), found) == ScanStep(old(State(frame)), EnvFor(frame), idx)
    {
      ghost var r := ScanStep(State(frame), EnvFor(frame), idx);
      var c := cells[idx][0];
      nTrials := nTrials + 1;
      if store.points[c.pt].kind == TypeDeleted {
        cells[idx] := cells[idx][1..];
        return false;
      }
      var matched := true;
      var px := c.px;
      if findMatchDirect {
        matched, px := matcher.FindMatchDirect(c.pt, frame, c.px);
      }
      if !matched {
        RecordFailure(c.pt);
        cells[idx] := cells[idx][1..];
        return false;
      }
      RecordSuccess(c.pt);
      frame.AddFeature(Feature(px, matcher.searchLevel, Some(c.pt), matcher.refKind));
      cells[idx] := cells[idx][1..];
      return true;
    }

    /**
     * `reprojectCell`: sorts the cell by point quality, then takes candidates
     * from the front until one is matched or none is left. The candidate
     * taken is always the front one, since each step erases it or returns.
     */
    method ReprojectCell(idx: nat, frame: Frame) returns (found: bool)
      requires Valid() && idx < cells.Length
      modifies cells, store, frame, matcher, this`nTrials
      ensures Valid()
      ensures (State(frame), found) == ResolveCell(old(State(frame)), EnvFor(frame), idx)
    {
      ghost var env := EnvFor(frame);
      ghost var sortedState := SortCell(State(frame), Dims(), idx);
      cells[idx] := SortWith(cells[idx], QualityBefore(store.points));
      assert State(frame) == sortedState;
      ghost var target := ScanCell(State(frame), env, idx);
      while cells[idx] != []
        invariant Valid()
        invariant ScanCell(State(frame), env, idx) == target
        decreases |cells[idx]|
      {
        found := TakeCandidate(idx, frame);
        if found {
          return;
        }
      }
      return false;
    }

    /**
     * The cell loop of `reprojectMap`: cells in the shuffled order, each
     * match counted, stopping right after the count exceeds `maxFts`.
     */
    method ResolveCells(frame: Frame)
      requires Valid()
      modifies cells, store, frame, matcher, this`nMatches, this`nTrials
      ensures Valid()
      ensures State(frame) == PassSpec.ResolveCells(old(State(frame)), EnvFor(frame), cellOrder, 0).0
    {
      ghost var env := EnvFor(frame);
      ghost var target := PassSpec.ResolveCells(State(frame), env, cellOrder, 0);
      for i := 0 to cells.Length
        invariant Valid()
        invariant PassSpec.ResolveCells(State(frame), env, cellOrder, i) == target
      {
        ResolveCellsStep(State(frame), env, cellOrder, i, target);
        ghost var r := ResolveCell(State(frame), env, cellOrder[i]);
        var found := ReprojectCell(cellOrder[i], frame);
        assert State(frame) == r.0 && found == r.1;
        if found {
          nMatches := nMatches + 1;
        }
        ghost var next := CountMatch(r);
        assert State(frame) == next;
        if nMatches > maxFts {
          break;
        }
        assert PassSpec.ResolveCells(next, env, cellOrder, i + 1) == target;
      }
    }

    /**
     * `reprojectMap`: resets the grid, seeds it from the closest keyframes
     * (appending one overlap entry per keyframe used), scans the candidate
     * queue, then resolves cells in the shuffled order within the budget.
     */
    method ReprojectMap(frame: Frame, closeKfs: seq<(Frame, real)>, overlapIn: seq<(Frame, nat)>)
      returns (overlapKfs: seq<(Frame, nat)>)
      requires Valid() && KeyframeFeaturesValid(closeKfs, |store.points|)
      modifies cells, store, frame, matcher, this`nMatches, this`nTrials
      ensures Valid()
      ensures var r := PassSpec.ReprojectMap(old(State(frame)), EnvFor(frame),
                                             old(SelectedFeatureLists(closeKfs, maxNKfs)), cellOrder);
              State(frame) == r.state &&
              overlapKfs == overlapIn + Overlaps(SelectKeyframes(closeKfs, maxNKfs), r.bucketed)
    {
      ghost var env := EnvFor(frame);
      ghost var s := State(frame);
      ghost var kfs := SelectedFeatureLists(closeKfs, maxNKfs);
      ghost var s0 := PassSpec.ResetGrid(s, Dims());
      ghost var seeded := SeedKeyframes(s0, env, kfs, 0);
      ghost var s2 := ScanQueueFrom(seeded.0, env, 0);
      ghost var resolved := PassSpec.ResolveCells(s2, env, cellOrder, 0);
      assert PassSpec.ReprojectMap(s, env, kfs, cellOrder) == PassOutcome(resolved.0, seeded.1, resolved.1);
      ResetGrid();
      assert State(frame) == s0 && SelectedFeatureLists(closeKfs, maxNKfs) == kfs;
      overlapKfs := SeedFromKeyframes(frame, closeKfs, overlapIn);
      assert State(frame) == seeded.0;
      assert overlapKfs == overlapIn + Overlaps(SelectKeyframes(closeKfs, maxNKfs), seeded.1);
      ScanCandidateQueue(frame);
      assert State(frame) == s2;
      ResolveCells(frame);
      assert State(frame) == resolved.0;
    }
  }
}
