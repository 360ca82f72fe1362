/**
 * Properties of `reprojectCell`: the quality sort of a cell, one step of the
 * scan over its candidates, the scan of a whole cell, and which candidate
 * wins the cell.
 */
module CellScan {
  import opened Geometry
  import opened Sorting
  import opened Landmark
  import opened MapStore
  import opened PassSpec
  import opened Lifecycle

  // ---------------------------------------------------------------------------
  // The quality sort

  /** The quality comparator is a strict weak order: it compares point types only. */
  lemma QualityStrictWeak(points: seq<Point>, dom: set<Candidate>)
    ensures StrictWeakOrder(QualityBefore(points), dom)
  {
    var before := QualityBefore(points);
    assert forall a, b :: before(a, b) == (KindRank(points, a.pt) > KindRank(points, b.pt));
  }

  /** A position at which a member of the sequence occurs. */
  lemma PositionOf<T>(l: seq<T>, x: T) returns (i: nat)
    requires x in multiset(l)
    ensures i < |l| && l[i] == x
  {
    assert x in l;
    i :| 0 <= i < |l| && l[i] == x;
  }

  /**
   * Sorting a cell reorders its candidates only and puts them in
   * non-increasing order of point type (GOOD, then UNKNOWN, then CANDIDATE,
   * then DELETED); it changes nothing else.
   */
  lemma SortCellOrdered(s: PassState, g: GridDims, idx: nat)
    requires WellFormed(s, g) && idx < |s.cells|
    ensures var r := SortCell(s, g, idx);
            multiset(r.cells[idx]) == multiset(s.cells[idx]) &&
            (forall i, j :: 0 <= i < j < |r.cells[idx]| ==>
               KindRank(s.world.points, r.cells[idx][i].pt) >= KindRank(s.world.points, r.cells[idx][j].pt)) &&
            (forall c :: 0 <= c < |s.cells| && c != idx ==> r.cells[c] == s.cells[c]) &&
            r == s.(cells := r.cells)
  {
    var cell := s.cells[idx];
    var before := QualityBefore(s.world.points);
    var sorted := SortWith(cell, before);
    var dom := set y | y in cell;
    QualityStrictWeak(s.world.points, dom);
    SortWithSorted(cell, before, dom);
    forall i, j | 0 <= i < j < |sorted|
      ensures KindRank(s.world.points, sorted[i].pt) >= KindRank(s.world.points, sorted[j].pt)
    {
      assert !before(sorted[j], sorted[i]);
    }
  }

  /**
   * The list sort is stable: candidates whose points have the same type keep
   * their relative order.
   */
  lemma SortCellStable(s: PassState, g: GridDims, idx: nat)
    requires WellFormed(s, g) && idx < |s.cells|
    ensures var r := SortCell(s, g, idx);
            var before := QualityBefore(s.world.points);
            forall x :: EquivalentTo(r.cells[idx], before, x) == EquivalentTo(s.cells[idx], before, x)
  {
    var cell := s.cells[idx];
    var before := QualityBefore(s.world.points);
    forall x ensures EquivalentTo(SortWith(cell, before), before, x) == EquivalentTo(cell, before, x) {
      var dom := (set y | y in cell) + {x};
      QualityStrictWeak(s.world.points, dom);
      SortWithStable(cell, before, x, dom);
    }
  }

  // ---------------------------------------------------------------------------
  // One step of the scan

  /**
   * One step takes the front candidate off the cell and counts a trial;
   * `n_matches_` and the other cells are untouched; the matcher is asked at
   * most once, and never with direct matching off. A candidate whose point
   * is DELETED is dropped without asking the matcher or touching the map. A match appends exactly
   * one feature, for the front candidate's point, which is not DELETED after
   * the match; with direct matching off it sits at the candidate's pixel. No
   * match leaves the features as they were. The map only evolves.
   */
  lemma ScanStepEffect(s: PassState, e: Env, idx: nat)
    requires WellFormed(s, e.grid) && idx < |s.cells| && s.cells[idx] != []
    ensures var r := ScanStep(s, e, idx);
            var c := s.cells[idx][0];
            r.0.nTrials == s.nTrials + 1 && r.0.nMatches == s.nMatches &&
            (forall k :: 0 <= k < |s.cells| && k != idx ==> r.0.cells[k] == s.cells[k]) &&
            r.0.matcher.calls <= s.matcher.calls + 1 &&
            (!e.findMatchDirect ==> r.0.matcher == s.matcher) &&
            (s.world.points[c.pt].kind == TypeDeleted ==>
               !r.1 && r.0.matcher == s.matcher && r.0.world == s.world && r.0.fts == s.fts) &&
            (r.1 ==> |r.0.fts| == |s.fts| + 1 && r.0.fts[..|s.fts|] == s.fts &&
                     r.0.fts[|s.fts|].point == Some(c.pt) &&
                     r.0.world.points[c.pt].kind != TypeDeleted &&
                     (!e.findMatchDirect ==> r.0.fts[|s.fts|].px == c.px)) &&
            (!r.1 ==> r.0.fts == s.fts) &&
            WorldEvolves(s.world, r.0.world)
  {
    var c := s.cells[idx][0];
    var s1 := s.(cells := s.cells[idx := s.cells[idx][1..]], nTrials := s.nTrials + 1);
    if s.world.points[c.pt].kind == TypeDeleted {
      WorldEvolvesRefl(s.world);
    } else {
      var found := if e.findMatchDirect then FindMatchDirect(s.matcher, e.script, c.px).1 else true;
      if found {
        SucceedInCellEvolves(s.world, c.pt);
        var r := ScanStep(s, e, idx);
        assert r.0.fts[..|s.fts|] == s.fts;
      } else {
        FailInCellEvolves(s.world, c.pt);
      }
    }
  }

  // ---------------------------------------------------------------------------
  // The scan of a cell

  /**
   * The scan of a cell consumes a prefix of it, one trial per candidate
   * consumed, and touches no other cell and not `n_matches_`.
   */
  lemma {:induction false} ScanCellConsumes(s: PassState, e: Env, idx: nat)
    requires WellFormed(s, e.grid) && idx < |s.cells|
    ensures var r := ScanCell(s, e, idx);
            var n, m := |s.cells[idx]|, |r.0.cells[idx]|;
            m <= n && r.0.cells[idx] == s.cells[idx][n - m..] &&
            r.0.nTrials == s.nTrials + (n - m) && r.0.nMatches == s.nMatches &&
            (forall k :: 0 <= k < |s.cells| && k != idx ==> r.0.cells[k] == s.cells[k])
    decreases |s.cells[idx]|
  {
    if s.cells[idx] != [] {
      ScanStepEffect(s, e, idx);
      var s1 := ScanStep(s, e, idx);
      if !s1.1 {
        ScanCellConsumes(s1.0, e, idx);
        var cell := s.cells[idx];
        var r := ScanCell(s1.0, e, idx);
        var m := |r.0.cells[idx]|;
        assert cell[1..][|cell| - 1 - m..] == cell[|cell| - m..];
      }
    }
  }

  /**
   * The scan of a cell ends either with a match, having appended exactly one
   * feature for the point of the last candidate it consumed, a point that is
   * not DELETED after the match; or with no match, the cell used up and the
   * features unchanged.
   */
  lemma {:induction false} ScanCellOutcome(s: PassState, e: Env, idx: nat)
    requires WellFormed(s, e.grid) && idx < |s.cells|
    ensures var r := ScanCell(s, e, idx);
            var n, m := |s.cells[idx]|, |r.0.cells[idx]|;
            m <= n &&
            (r.1 ==> m < n && |r.0.fts| == |s.fts| + 1 && r.0.fts[..|s.fts|] == s.fts &&
                     r.0.fts[|s.fts|].point == Some(s.cells[idx][n - m - 1].pt) &&
                     r.0.world.points[s.cells[idx][n - m - 1].pt].kind != TypeDeleted) &&
            (!r.1 ==> m == 0 && r.0.fts == s.fts)
    decreases |s.cells[idx]|
  {
    if s.cells[idx] != [] {
      ScanStepEffect(s, e, idx);
      var s1 := ScanStep(s, e, idx);
      if !s1.1 {
        ScanCellOutcome(s1.0, e, idx);
        var cell := s.cells[idx];
        var r := ScanCell(s1.0, e, idx);
        var m := |r.0.cells[idx]|;
        if r.1 {
          assert cell[1..][|cell| - 1 - m - 1] == cell[|cell| - m - 1];
        }
      }
    }
  }

  /**
   * The matcher is asked at most once per candidate consumed, and never with
   * direct matching off; the map only evolves.
   */
  lemma {:induction false} ScanCellMatcher(s: PassState, e: Env, idx: nat)
    requires WellFormed(s, e.grid) && idx < |s.cells|
    ensures var r := ScanCell(s, e, idx);
            r.0.matcher.calls <= s.matcher.calls + (r.0.nTrials - s.nTrials) &&
            (!e.findMatchDirect ==> r.0.matcher == s.matcher) &&
            WorldEvolves(s.world, r.0.world)
    decreases |s.cells[idx]|
  {
    if s.cells[idx] == [] {
      WorldEvolvesRefl(s.world);
    } else {
      ScanStepEffect(s, e, idx);
      var s1 := ScanStep(s, e, idx);
      if !s1.1 {
        ScanCellMatcher(s1.0, e, idx);
        WorldEvolvesTrans(s.world, s1.0.world, ScanCell(s1.0, e, idx).0.world);
      }
    }
  }

  /**
   * A cell whose candidates all name DELETED points yields no match: each is
   * skipped and only counted as a trial, and nothing else changes.
   */
  lemma {:induction false} ScanCellSkipsDeleted(s: PassState, e: Env, idx: nat)
    requires WellFormed(s, e.grid) && idx < |s.cells|
    requires forall k :: 0 <= k < |s.cells[idx]| ==> s.world.points[s.cells[idx][k].pt].kind == TypeDeleted
    ensures ScanCell(s, e, idx) == (s.(cells := s.cells[idx := []], nTrials := s.nTrials + |s.cells[idx]|), false)
    decreases |s.cells[idx]|
  {
    if s.cells[idx] != [] {
      var cell := s.cells[idx];
      var s1 := s.(cells := s.cells[idx := cell[1..]], nTrials := s.nTrials + 1);
      assert ScanStep(s, e, idx) == (s1, false);
      assert s1.cells[idx] == cell[1..];
      forall k | 0 <= k < |cell[1..]| ensures s1.world.points[cell[1..][k].pt].kind == TypeDeleted {
        assert cell[1..][k] == cell[k + 1];
      }
      ScanCellSkipsDeleted(s1, e, idx);
      assert ScanCell(s, e, idx) == ScanCell(s1, e, idx);
      assert s1.cells[idx := []] == s.cells[idx := []];
    } else {
      assert s.cells[idx := []] == s.cells;
    }
  }

  /**
   * `reprojectCell` touches no other cell and not `n_matches_`, spends at
   * most one trial per candidate of the cell, asks the matcher at most once
   * per trial and never with direct matching off, and only evolves the map.
   */
  lemma ResolveCellCounts(s: PassState, e: Env, idx: nat)
    requires WellFormed(s, e.grid) && idx < |s.cells|
    ensures var r := ResolveCell(s, e, idx);
            r.0.nMatches == s.nMatches &&
            (forall k :: 0 <= k < |s.cells| && k != idx ==> r.0.cells[k] == s.cells[k]) &&
            s.nTrials <= r.0.nTrials <= s.nTrials + |s.cells[idx]| &&
            r.0.matcher.calls <= s.matcher.calls + (r.0.nTrials - s.nTrials) &&
            (!e.findMatchDirect ==> r.0.matcher == s.matcher) &&
            WorldEvolves(s.world, r.0.world)
  {
    SortCellPermutes(s, e.grid, idx);
    var t := SortCell(s, e.grid, idx);
    assert ResolveCell(s, e, idx) == ScanCell(t, e, idx);
    assert |t.cells[idx]| == |multiset(t.cells[idx])| == |multiset(s.cells[idx])| == |s.cells[idx]|;
    ScanCellConsumes(t, e, idx);
    ScanCellMatcher(t, e, idx);
  }

  /** The quality sort only permutes the cell. */
  lemma SortCellPermutes(s: PassState, g: GridDims, idx: nat)
    requires WellFormed(s, g) && idx < |s.cells|
    ensures var t := SortCell(s, g, idx);
            t == s.(cells := t.cells) && multiset(t.cells[idx]) == multiset(s.cells[idx])
  {
  }

  /**
   * `reprojectCell` ends with a match that appends exactly one feature, for
   * a point that was a candidate of this cell and is not DELETED after the
   * match, or with no match, the cell used up and the features unchanged.
   */
  lemma ResolveCellOutcome(s: PassState, e: Env, idx: nat)
    requires WellFormed(s, e.grid) && idx < |s.cells|
    ensures var r := ResolveCell(s, e, idx);
            (r.1 ==> |r.0.fts| == |s.fts| + 1 && r.0.fts[..|s.fts|] == s.fts &&
                     (exists c :: c in s.cells[idx] && r.0.fts[|s.fts|].point == Some(c.pt) &&
                                  r.0.world.points[c.pt].kind != TypeDeleted)) &&
            (!r.1 ==> r.0.cells[idx] == [] && r.0.fts == s.fts)
  {
    SortCellPermutes(s, e.grid, idx);
    var t := SortCell(s, e.grid, idx);
    ScanCellOutcome(t, e, idx);
    var r := ScanCell(t, e, idx);
    assert ResolveCell(s, e, idx) == r;
    if r.1 {
      var sorted := t.cells[idx];
      var c := sorted[|sorted| - |r.0.cells[idx]| - 1];
      assert c in multiset(s.cells[idx]);
      assert c in s.cells[idx] && r.0.fts[|s.fts|].point == Some(c.pt) && r.0.world.points[c.pt].kind != TypeDeleted;
    }
  }

  // ---------------------------------------------------------------------------
  // Which candidate wins a cell

  /** The cell holds a candidate whose point is not DELETED. */
  predicate HasLive(points: seq<Point>, cell: seq<Candidate>)
    requires CandidatesValid(cell, |points|)
  {
    exists k :: 0 <= k < |cell| && points[cell[k].pt].kind != TypeDeleted
  }

  /** Candidate k of the cell has a point type no other candidate of the cell exceeds. */
  predicate IsBest(points: seq<Point>, cell: seq<Candidate>, k: nat)
    requires CandidatesValid(cell, |points|) && k < |cell|
  {
    forall k' :: 0 <= k' < |cell| ==> Rank(points[cell[k'].pt].kind) <= Rank(points[cell[k].pt].kind)
  }

  /** A reordering of a cell in non-increasing type order starts with a best candidate. */
  lemma RankOrderedFront(points: seq<Point>, cell: seq<Candidate>, sorted: seq<Candidate>)
    requires CandidatesValid(cell, |points|) && CandidatesValid(sorted, |points|)
    requires multiset(sorted) == multiset(cell)
    requires forall i, j :: 0 <= i < j < |sorted| ==> KindRank(points, sorted[i].pt) >= KindRank(points, sorted[j].pt)
    ensures |sorted| == |cell|
    ensures HasLive(points, cell) ==>
              points[sorted[0].pt].kind != TypeDeleted &&
              exists k :: 0 <= k < |cell| && cell[k] == sorted[0] && IsBest(points, cell, k)
    ensures !HasLive(points, cell) ==> forall k :: 0 <= k < |sorted| ==> points[sorted[k].pt].kind == TypeDeleted
  {
    assert |sorted| == |multiset(sorted)| == |multiset(cell)| == |cell|;
    if HasLive(points, cell) {
      var k :| 0 <= k < |cell| && points[cell[k].pt].kind != TypeDeleted;
      var i := PositionOf(sorted, cell[k]);
      assert KindRank(points, sorted[0].pt) >= KindRank(points, sorted[i].pt) > 0;
      var b := PositionOf(cell, sorted[0]);
      forall k' | 0 <= k' < |cell| ensures Rank(points[cell[k'].pt].kind) <= Rank(points[cell[b].pt].kind) {
        var i' := PositionOf(sorted, cell[k']);
        assert KindRank(points, sorted[0].pt) >= KindRank(points, sorted[i'].pt);
      }
    } else {
      forall k | 0 <= k < |sorted| ensures points[sorted[k].pt].kind == TypeDeleted {
        var i := PositionOf(cell, sorted[k]);
      }
    }
  }

  /**
   * After the quality sort, the front candidate is a best one of the cell;
   * it is not DELETED when the cell holds any live point, and otherwise every
   * candidate is DELETED.
   */
  lemma SortedFront(s: PassState, g: GridDims, idx: nat)
    requires WellFormed(s, g) && idx < |s.cells|
    ensures var sorted := SortCell(s, g, idx).cells[idx];
            var points, cell := s.world.points, s.cells[idx];
            |sorted| == |cell| &&
            (HasLive(points, cell) ==>
               points[sorted[0].pt].kind != TypeDeleted &&
               exists k :: 0 <= k < |cell| && cell[k] == sorted[0] && IsBest(points, cell, k)) &&
            (!HasLive(points, cell) ==>
               forall k :: 0 <= k < |sorted| ==> points[sorted[k].pt].kind == TypeDeleted)
  {
    SortCellOrdered(s, g, idx);
    RankOrderedFront(s.world.points, s.cells[idx], SortCell(s, g, idx).cells[idx]);
  }

  /**
   * With direct matching off, a cell holding any point that is not DELETED
   * yields a match at its first trial, and the match goes to a candidate of
   * the best point type in the cell. A cell holding only DELETED points
   * yields no match, is used up, one trial per candidate, and the features
   * are unchanged.
   */
  lemma ResolveCellPicksBest(s: PassState, e: Env, idx: nat)
    requires WellFormed(s, e.grid) && idx < |s.cells| && !e.findMatchDirect
    ensures var r := ResolveCell(s, e, idx);
            var points, cell := s.world.points, s.cells[idx];
            (HasLive(points, cell) ==>
               r.1 && r.0.nTrials == s.nTrials + 1 && |r.0.fts| == |s.fts| + 1 &&
               exists k :: 0 <= k < |cell| && r.0.fts[|s.fts|].point == Some(cell[k].pt) && IsBest(points, cell, k)) &&
            (!HasLive(points, cell) ==>
               !r.1 && r.0.cells[idx] == [] && r.0.fts == s.fts && r.0.nTrials == s.nTrials + |cell|)
  {
    SortedFront(s, e.grid, idx);
    var t := SortCell(s, e.grid, idx);
    assert t.world == s.world && t.fts == s.fts && t.nTrials == s.nTrials;
    if HasLive(s.world.points, s.cells[idx]) {
      ScanStepEffect(t, e, idx);
      assert ScanStep(t, e, idx).1;
      assert ScanCell(t, e, idx) == ScanStep(t, e, idx);
    } else {
      ScanCellSkipsDeleted(t, e, idx);
    }
  }
}
