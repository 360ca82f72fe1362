/**
 * Properties of a whole pass: the budgeted loop over the cells and
 * `reprojectMap` from the grid reset to the last cell visited.
 */
module PassProps {
  import opened Geometry
  import opened Sorting
  import opened Landmark
  import opened MapStore
  import opened PassSpec
  import opened Lifecycle
  import opened Seeding
  import opened QueueScan
  import opened CellScan

  /**
   * The budgeted cell loop from position i: every match adds exactly one
   * feature and one to `n_matches_`, features already in the frame stay; a
   * loop that starts within the budget ends with at most `maxFts + 1`
   * matches; and it stops before the last cell only once the count exceeds
   * `maxFts`.
   */
  lemma {:induction false} ResolveCellsBudget(s: PassState, e: Env, order: seq<nat>, i: nat, t: (PassState, nat))
    requires WellFormed(s, e.grid) && IndicesBelow(order, |s.cells|) && i <= |order|
    requires ResolveCells(s, e, order, i) == t
    ensures s.nMatches <= t.0.nMatches
    ensures |t.0.fts| == |s.fts| + (t.0.nMatches - s.nMatches) && t.0.fts[..|s.fts|] == s.fts
    ensures s.nMatches <= e.maxFts ==> t.0.nMatches <= e.maxFts + 1
    ensures t.1 < |order| ==> t.0.nMatches > e.maxFts
    decreases |order| - i
  {
    if i < |order| {
      ResolveCellsStep(s, e, order, i, t);
      ResolveCellOutcome(s, e, order[i]);
      ResolveCellCounts(s, e, order[i]);
      var s2 := CountMatch(ResolveCell(s, e, order[i]));
      assert s2.nMatches == s.nMatches + (if ResolveCell(s, e, order[i]).1 then 1 else 0);
      assert |s2.fts| == |s.fts| + (s2.nMatches - s.nMatches) && s2.fts[..|s.fts|] == s.fts;
      if s2.nMatches <= e.maxFts {
        ResolveCellsBudget(s2, e, order, i + 1, t);
        assert t.0.fts[..|s.fts|] == t.0.fts[..|s2.fts|][..|s.fts|];
      }
    } else {
      assert s.fts[..|s.fts|] == s.fts;
    }
  }

  /**
   * With a visiting order that repeats no cell, the cells the loop did not
   * reach when it stopped are exactly as they were. The loop only evolves the
   * map, and with direct matching off it never asks the matcher.
   */
  lemma {:induction false} ResolveCellsUnvisited(s: PassState, e: Env, order: seq<nat>, i: nat, t: (PassState, nat))
    requires WellFormed(s, e.grid) && IndicesBelow(order, |s.cells|) && i <= |order|
    requires forall a, b :: i <= a < b < |order| ==> order[a] != order[b]
    requires ResolveCells(s, e, order, i) == t
    ensures forall k :: t.1 <= k < |order| ==> t.0.cells[order[k]] == s.cells[order[k]]
    ensures WorldEvolves(s.world, t.0.world)
    ensures !e.findMatchDirect ==> t.0.matcher == s.matcher
    decreases |order| - i
  {
    if i == |order| {
      WorldEvolvesRefl(s.world);
    } else {
      ResolveCellsStep(s, e, order, i, t);
      ResolveCellCounts(s, e, order[i]);
      var s2 := CountMatch(ResolveCell(s, e, order[i]));
      if s2.nMatches <= e.maxFts {
        ResolveCellsUnvisited(s2, e, order, i + 1, t);
        WorldEvolvesTrans(s.world, s2.world, t.0.world);
      }
    }
  }

  /**
   * Within the budget, a grid whose cells are all empty resolves to nothing:
   * the state is untouched and every cell is visited.
   */
  lemma {:induction false} EmptyGridResolves(s: PassState, e: Env, order: seq<nat>, i: nat)
    requires WellFormed(s, e.grid) && IndicesBelow(order, |s.cells|) && i <= |order|
    requires s.nMatches <= e.maxFts
    requires forall c :: 0 <= c < |s.cells| ==> s.cells[c] == []
    ensures ResolveCells(s, e, order, i) == (s, |order|)
    decreases |order| - i
  {
    if i < |order| {
      var idx := order[i];
      assert SortCell(s, e.grid, idx) == s by {
        assert s.cells[idx := SortWith([], QualityBefore(s.world.points))] == s.cells;
      }
      assert ResolveCell(s, e, idx) == (s, false);
      EmptyGridResolves(s, e, order, i + 1);
    }
  }

  lemma {:induction false} CellPointsEmpty(n: nat)
    ensures CellPoints(EmptyCells(n)) == multiset{}
  {
    if n > 0 {
      assert EmptyCells(n)[1..] == EmptyCells(n - 1);
      CellPointsEmpty(n - 1);
    }
  }

  /**
   * A whole pass starts from an empty grid and no matches; it ends with at
   * most `maxFts + 1` matches, each one a new feature of the frame appended
   * after the features it already had; it stops before the last cell only
   * past the budget; and the map only evolves.
   */
  lemma ReprojectMapBudget(s: PassState, e: Env, kfs: seq<seq<Feature>>, order: seq<nat>)
    requires Sized(e.grid) && WellFormed(s, e.grid)
    requires KeyframesValid(kfs, |s.world.points|) && IndicesBelow(order, |s.cells|)
    ensures var r := ReprojectMap(s, e, kfs, order);
            r.state.nMatches <= e.maxFts + 1 &&
            |r.state.fts| == |s.fts| + r.state.nMatches && r.state.fts[..|s.fts|] == s.fts &&
            (r.visited < |order| ==> r.state.nMatches > e.maxFts)
  {
    var s0 := ResetGrid(s, e.grid);
    SeedKeyframesOnlyStamps(s0, e, kfs, 0);
    var s1 := SeedKeyframes(s0, e, kfs, 0).0;
    ScanQueueEvolves(s1, e, 0);
    var s2 := ScanQueueFrom(s1, e, 0);
    ResolveCellsBudget(s2, e, order, 0, ResolveCells(s2, e, order, 0));
  }

  /** Over a whole pass the map only evolves: see `WorldEvolves`. */
  lemma ReprojectMapEvolves(s: PassState, e: Env, kfs: seq<seq<Feature>>, order: seq<nat>)
    requires Sized(e.grid) && WellFormed(s, e.grid)
    requires KeyframesValid(kfs, |s.world.points|) && IsPermutation(order, |s.cells|)
    ensures WorldEvolves(s.world, ReprojectMap(s, e, kfs, order).state.world)
  {
    var s0 := ResetGrid(s, e.grid);
    SeedKeyframesOnlyStamps(s0, e, kfs, 0);
    var s1 := SeedKeyframes(s0, e, kfs, 0).0;
    assert WorldEvolves(s.world, s1.world) by {
      assert s1.world.trash == s.world.trash;
    }
    ScanQueueEvolves(s1, e, 0);
    var s2 := ScanQueueFrom(s1, e, 0);
    ResolveCellsUnvisited(s2, e, order, 0, ResolveCells(s2, e, order, 0));
    WorldEvolvesTrans(s.world, s1.world, s2.world);
    WorldEvolvesTrans(s.world, s2.world, ResolveCells(s2, e, order, 0).0.world);
  }

  /**
   * When no point is queued twice, the grid the cell loop starts from holds
   * exactly the points bucketed from the keyframes and the queued points
   * that project into the frame.
   */
  lemma ReprojectMapGrid(s: PassState, e: Env, kfs: seq<seq<Feature>>, order: seq<nat>)
    requires Sized(e.grid) && WellFormed(s, e.grid)
    requires KeyframesValid(kfs, |s.world.points|) && IndicesBelow(order, |s.cells|)
    requires NoDup(s.world.candidates)
    ensures var s1 := SeedKeyframes(ResetGrid(s, e.grid), e, kfs, 0).0;
            var s2 := ScanQueueFrom(s1, e, 0);
            CellPoints(s2.cells) ==
              multiset(Flatten(ReprojectMap(s, e, kfs, order).bucketed)) +
              multiset(Projecting(s1.world, e, s.world.candidates))
  {
    var s0 := ResetGrid(s, e.grid);
    CellPointsEmpty(|s.cells|);
    SeedKeyframesGrid(s0, e, kfs, 0, SeedKeyframes(s0, e, kfs, 0).0, SeedKeyframes(s0, e, kfs, 0).1);
    SeedKeyframesOnlyStamps(s0, e, kfs, 0);
    var s1 := SeedKeyframes(s0, e, kfs, 0).0;
    assert s1.world.candidates == s.world.candidates;
    assert s1.world.candidates[0..] == s.world.candidates;
    ScanQueueEffect(s1, e, 0);
  }

  /**
   * The keyframe stage of a pass buckets exactly the points that some
   * selected keyframe observes, that no earlier stage of this frame stamped,
   * and that `reprojectPoint` accepts; every observed point ends stamped.
   */
  lemma ReprojectMapSeeds(s: PassState, e: Env, kfs: seq<seq<Feature>>, order: seq<nat>)
    requires Sized(e.grid) && WellFormed(s, e.grid)
    requires KeyframesValid(kfs, |s.world.points|) && IndicesBelow(order, |s.cells|)
    ensures var r := ReprojectMap(s, e, kfs, order);
            forall x: PointId :: x in Flatten(r.bucketed) <==>
              ObservedBy(kfs, 0, x) && !Stamped(s.world, x, e.frameId) && Accepted(s, e, x)
  {
    var s0 := ResetGrid(s, e.grid);
    var seeded := SeedKeyframes(s0, e, kfs, 0);
    SeedKeyframesBuckets(s0, e, kfs, 0, seeded.0, seeded.1);
    assert ReprojectMap(s, e, kfs, order).bucketed == seeded.1;
    forall x: PointId ensures Accepted(s0, e, x) <==> Accepted(s, e, x) {
      if x < |s.world.points| {
        assert Projection(s0, e, x) == Projection(s, e, x);
      }
    }
  }

  /**
   * A pass with no keyframe to seed from and an empty candidate queue
   * leaves the map and the frame's features as they were, finds no match
   * and visits every cell.
   */
  lemma EmptyPass(s: PassState, e: Env, order: seq<nat>)
    requires Sized(e.grid) && WellFormed(s, e.grid) && IndicesBelow(order, |s.cells|)
    requires s.world.candidates == []
    ensures var r := ReprojectMap(s, e, [], order);
            r.state.world == s.world && r.state.fts == s.fts && r.state.nMatches == 0 &&
            r.bucketed == [] && r.visited == |order|
  {
    var s0 := ResetGrid(s, e.grid);
    assert SeedKeyframes(s0, e, [], 0) == (s0, []);
    assert ScanQueueFrom(s0, e, 0) == s0;
    EmptyGridResolves(s0, e, order, 0);
  }
}
