/**
 * Specification of one reprojection pass as functions on the state the pass
 * changes. Each function mirrors one loop or step of the reprojector: the
 * class methods in reprojector.dfy are proved to compute exactly these.
 */
module PassSpec {
  import opened Geometry
  import opened Sorting
  import opened Landmark
  import opened MapStore

  /** What the direct matcher reports for one call: failure, or a refined pixel with the level and reference-feature type it used. */
  datatype MatchOutcome = NoMatch | Match(px: Pixel, level: nat, kind: FeatureKind)

  /** The matcher's state that leaks into new features, and how often it has been called. */
  datatype MatcherState = MatcherState(searchLevel: nat, refKind: FeatureKind, calls: nat)

  /**
   * What a pass reads and never changes: the grid shape, the current frame's
   * id and projection (`w2c` followed by the cast to integers), the
   * `find_match_direct` option, the feature budget `maxFts`, and the matcher's
   * answers, `script(n)` being the outcome of its n-th call.
   */
  datatype Env = Env(
    grid: GridDims,
    frameId: int,
    w2c: Vec3 -> Pixel,
    findMatchDirect: bool,
    maxFts: nat,
    script: nat -> MatchOutcome)

  /**
   * What a pass changes: the map (points, candidate queue, trash), the grid
   * cells, the current frame's features, the matcher, and the counters
   * `n_matches_` and `n_trials_`.
   */
  datatype PassState = PassState(
    world: MapState,
    cells: seq<seq<Candidate>>,
    fts: seq<Feature>,
    matcher: MatcherState,
    nMatches: nat,
    nTrials: nat)

  predicate CandidatesValid(l: seq<Candidate>, n: nat) {
    forall k :: 0 <= k < |l| ==> l[k].pt < n
  }

  /** One list per cell, and every reference into the arena is valid. */
  predicate GridConsistent(world: MapState, cells: seq<seq<Candidate>>, g: GridDims) {
    Consistent(world) &&
    |cells| == CellCount(g) &&
    forall c :: 0 <= c < |cells| ==> CandidatesValid(cells[c], |world.points|)
  }

  predicate WellFormed(s: PassState, g: GridDims) {
    GridConsistent(s.world, s.cells, g)
  }

  predicate FeaturesValid(fts: seq<Feature>, n: nat) {
    forall k :: 0 <= k < |fts| && fts[k].point.Some? ==> fts[k].point.value < n
  }

  lemma CandidatesValidPermuted(a: seq<Candidate>, b: seq<Candidate>, n: nat)
    requires multiset(a) == multiset(b) && CandidatesValid(a, n)
    ensures CandidatesValid(b, n)
  {
    forall k | 0 <= k < |b| ensures b[k].pt < n {
      assert b[k] in multiset(a);
    }
  }

  // ---------------------------------------------------------------------------
  // Collaborators

  /**
   * `findMatchDirect`: on a match the refined pixel replaces the candidate's
   * pixel and the matcher remembers the level and reference feature it used.
   */
  function FindMatchDirect(m: MatcherState, script: nat -> MatchOutcome, px: Pixel): (MatcherState, bool, Pixel) {
    match script(m.calls)
    case NoMatch => (m.(calls := m.calls + 1), false, px)
    case Match(refined, level, kind) => (MatcherState(level, kind, m.calls + 1), true, refined)
  }

  /** The integer pixel a point projects to in the current frame. */
  function Projection(s: PassState, e: Env, pid: PointId): Pixel
    requires pid < |s.world.points|
  {
    e.w2c(s.world.points[pid].pos)
  }

  // ---------------------------------------------------------------------------
  // Point state changes

  /** Stamps a point with the id of the frame it was last projected into. */
  function Stamp(m: MapState, pid: PointId, frameId: int): (r: MapState)
    requires pid < |m.points|
    ensures Consistent(m) ==> Consistent(r)
    ensures |r.points| == |m.points|
  {
    m.(points := m.points[pid := m.points[pid].(lastProjectedKfId := frameId)])
  }

  /** Adds `k` to a point's failure counter. */
  function AddFailures(m: MapState, pid: PointId, k: nat): (r: MapState)
    requires pid < |m.points|
    ensures Consistent(m) ==> Consistent(r)
    ensures |r.points| == |m.points|
  {
    m.(points := m.points[pid := m.points[pid].(nFailed := m.points[pid].nFailed + k)])
  }

  /**
   * A failed match in a cell: one more failure; an UNKNOWN point past 15
   * failures is deleted from the map, then a CANDIDATE point past 30 is removed
   * from the candidate queue.
   */
  function FailInCell(m: MapState, pid: PointId): (r: MapState)
    requires pid < |m.points|
    ensures Consistent(m) ==> Consistent(r)
    ensures |r.points| == |m.points|
  {
    var m1 := AddFailures(m, pid, 1);
    var m2 := if m1.points[pid].kind == TypeUnknown && m1.points[pid].nFailed > UnknownFailureLimit
              then Retire(m1, pid) else m1;
    if m2.points[pid].kind == TypeCandidate && m2.points[pid].nFailed > CandidateFailureLimit
    then RemoveCandidatePoint(m2, pid) else m2
  }

  /** A successful match: see `Succeeded`. */
  function SucceedInCell(m: MapState, pid: PointId): (r: MapState)
    requires pid < |m.points|
    ensures Consistent(m) ==> Consistent(r)
    ensures |r.points| == |m.points|
  {
    m.(points := m.points[pid := Succeeded(m.points[pid])])
  }

  // ---------------------------------------------------------------------------
  // reprojectPoint

  /**
   * `reprojectPoint`: when the projected pixel passes the in-frame test with
   * the patch margin, a candidate is appended to the pixel's cell.
   */
  function ProjectPoint(s: PassState, e: Env, pid: PointId): (r: (PassState, bool))
    requires Sized(e.grid) && WellFormed(s, e.grid) && pid < |s.world.points|
    ensures WellFormed(r.0, e.grid)
    ensures r.0.world == s.world && r.0.fts == s.fts && r.0.matcher == s.matcher
    ensures r.0.nMatches == s.nMatches && r.0.nTrials == s.nTrials
  {
    var px := Projection(s, e, pid);
    if InFrame(px, PatchMargin, e.grid.width, e.grid.height) then
      CellIndexInRange(px, PatchMargin, e.grid);
      var k := CellIndex(px, e.grid);
      (s.(cells := s.cells[k := s.cells[k] + [Candidate(pid, px)]]), true)
    else
      (s, false)
  }

  // ---------------------------------------------------------------------------
  // reprojectMap, keyframe part

  predicate KeyframesValid(kfs: seq<seq<Feature>>, n: nat) {
    forall i :: 0 <= i < |kfs| ==> FeaturesValid(kfs[i], n)
  }

  /** The comparator of the keyframe sort: ascending distance. */
  function ByDistance<F>(a: (F, real), b: (F, real)): bool {
    a.1 < b.1
  }

  function Min(a: nat, b: nat): nat {
    if a < b then a else b
  }

  lemma ByDistanceStrictWeak<F>(dom: set<(F, real)>)
    ensures StrictWeakOrder(ByDistance, dom)
  {
  }

  lemma PrefixMultiset<T>(s: seq<T>, n: nat)
    requires n <= |s|
    ensures multiset(s[..n]) <= multiset(s)
  {
    assert s == s[..n] + s[n..];
  }

  lemma PrefixExtend<T>(s: seq<T>, n: nat)
    requires n < |s|
    ensures s[..n + 1] == s[..n] + [s[n]]
  {
  }

  /** Appending s[n] to a list that ends with the prefix s[..n] makes it end with s[..n + 1]. */
  lemma AppendNext<T>(head: seq<T>, s: seq<T>, n: nat, acc: seq<T>)
    requires n < |s| && acc == head + s[..n]
    ensures acc + [s[n]] == head + s[..n + 1]
  {
    PrefixExtend(s, n);
  }

  /**
   * The first n entries of a list sorted by ascending distance are no
   * farther than any entry left out.
   */
  lemma SortedPrefixNearest<F>(sorted: seq<(F, real)>, n: nat)
    requires n <= |sorted| && SortedBy(sorted, ByDistance)
    ensures forall i, y :: 0 <= i < n && y in multiset(sorted) - multiset(sorted[..n]) ==> sorted[..n][i].1 <= y.1
  {
    assert sorted == sorted[..n] + sorted[n..];
    forall i, y | 0 <= i < n && y in multiset(sorted) - multiset(sorted[..n]) ensures sorted[..n][i].1 <= y.1 {
      assert y in multiset(sorted[n..]);
      var m :| 0 <= m < |sorted[n..]| && sorted[n..][m] == y;
      assert sorted[n + m] == y && !ByDistance(sorted[n + m], sorted[i]);
    }
  }

  /** The closest keyframes: sorted by ascending distance, at most `maxN` of them. */
  function SelectKeyframes<F(==)>(close: seq<(F, real)>, maxN: nat): (r: seq<(F, real)>)
    ensures |r| == Min(|close|, maxN)
    ensures forall i, j :: 0 <= i < j < |r| ==> r[i].1 <= r[j].1
    ensures multiset(r) <= multiset(close)
  {
    var sorted := SortWith(close, ByDistance);
    var dom := set x | x in close;
    ByDistanceStrictWeak(dom);
    SortWithSorted(close, ByDistance, dom);
    assert |sorted| == |multiset(sorted)| == |multiset(close)| == |close|;
    var n := Min(|sorted|, maxN);
    PrefixMultiset(sorted, n);
    sorted[..n]
  }

  /** No selected keyframe is farther than a close keyframe left out. */
  lemma SelectKeyframesNearest<F>(close: seq<(F, real)>, maxN: nat)
    ensures var r := SelectKeyframes(close, maxN);
            forall i, y :: 0 <= i < |r| && y in multiset(close) - multiset(r) ==> r[i].1 <= y.1
  {
    var sorted := SortWith(close, ByDistance);
    var dom := set x | x in close;
    ByDistanceStrictWeak(dom);
    SortWithSorted(close, ByDistance, dom);
    assert |sorted| == |multiset(sorted)| == |multiset(close)| == |close|;
    var n := Min(|sorted|, maxN);
    assert SelectKeyframes(close, maxN) == sorted[..n];
    SortedPrefixNearest(sorted, n);
  }

  /**
   * One feature of a keyframe: skipped when it has no point or its point was
   * already stamped with this frame's id; otherwise the point is stamped and
   * projected. The returned list holds the point when it was bucketed.
   */
  function SeedFeature(s: PassState, e: Env, f: Feature): (r: (PassState, seq<PointId>))
    requires Sized(e.grid) && WellFormed(s, e.grid)
    requires f.point.Some? ==> f.point.value < |s.world.points|
    ensures WellFormed(r.0, e.grid) && |r.0.world.points| == |s.world.points|
  {
    if f.point.None? then (s, [])
    else
      var pid := f.point.value;
      if s.world.points[pid].lastProjectedKfId == e.frameId then (s, [])
      else
        var s1 := s.(world := Stamp(s.world, pid, e.frameId));
        var (s2, ok) := ProjectPoint(s1, e, pid);
        (s2, if ok then [pid] else [])
  }

  /** The features fts[j..] of one keyframe in order; returns the points bucketed. */
  function SeedFeatures(s: PassState, e: Env, fts: seq<Feature>, j: nat): (r: (PassState, seq<PointId>))
    requires Sized(e.grid) && WellFormed(s, e.grid) && FeaturesValid(fts, |s.world.points|)
    requires j <= |fts|
    ensures WellFormed(r.0, e.grid) && |r.0.world.points| == |s.world.points|
    decreases |fts| - j
  {
    if j == |fts| then (s, [])
    else
      var (s1, a) := SeedFeature(s, e, fts[j]);
      var (s2, b) := SeedFeatures(s1, e, fts, j + 1);
      (s2, a + b)
  }

  /**
   * One step of the feature loop: if the features from j on give (t, log),
   * feature j gives a state from which the rest give t, and the two logs
   * together are as long as log.
   */
  lemma SeedFeaturesStep(s: PassState, e: Env, fts: seq<Feature>, j: nat, t: PassState, log: seq<PointId>)
    requires Sized(e.grid) && WellFormed(s, e.grid) && FeaturesValid(fts, |s.world.points|)
    requires j < |fts| && SeedFeatures(s, e, fts, j) == (t, log)
    ensures var step := SeedFeature(s, e, fts[j]);
            var rest := SeedFeatures(step.0, e, fts, j + 1);
            rest.0 == t && |log| == |step.1| + |rest.1|
  {
  }

  /** The selected keyframes kfs[n..] in order; one list of bucketed points per keyframe. */
  function SeedKeyframes(s: PassState, e: Env, kfs: seq<seq<Feature>>, n: nat): (r: (PassState, seq<seq<PointId>>))
    requires Sized(e.grid) && WellFormed(s, e.grid) && KeyframesValid(kfs, |s.world.points|)
    requires n <= |kfs|
    ensures WellFormed(r.0, e.grid) && |r.0.world.points| == |s.world.points|
    ensures |r.1| == |kfs| - n
    decreases |kfs| - n
  {
    if n == |kfs| then (s, [])
    else
      var (s1, a) := SeedFeatures(s, e, kfs[n], 0);
      var (s2, b) := SeedKeyframes(s1, e, kfs, n + 1);
      (s2, [a] + b)
  }

  /**
   * One step of the keyframe loop: if the keyframes from n on give (t, logs),
   * the n-th keyframe's features give logs[0] and the rest give (t, logs[1..]).
   */
  lemma SeedKeyframesStep(s: PassState, e: Env, kfs: seq<seq<Feature>>, n: nat, t: PassState, logs: seq<seq<PointId>>)
    requires Sized(e.grid) && WellFormed(s, e.grid) && KeyframesValid(kfs, |s.world.points|)
    requires n < |kfs| && SeedKeyframes(s, e, kfs, n) == (t, logs)
    ensures var step := SeedFeatures(s, e, kfs[n], 0);
            |logs| > 0 && logs[0] == step.1 && SeedKeyframes(step.0, e, kfs, n + 1) == (t, logs[1..])
  {
  }

  // ---------------------------------------------------------------------------
  // reprojectMap, candidate-queue part

  /** The queue without its entry at position j (`erase`). */
  function EraseAt(q: seq<PointId>, j: nat): (r: seq<PointId>)
    requires j < |q|
    ensures |r| == |q| - 1
    ensures forall n :: IdsValid(q, n) ==> IdsValid(r, n)
  {
    var r := q[..j] + q[j + 1..];
    assert forall k :: 0 <= k < |r| ==> r[k] == (if k < j then q[k] else q[k + 1]);
    r
  }

  /**
   * One entry of the locked queue scan, at position j: an entry that projects
   * is bucketed and stays; one that does not gains 3 failures and, once past
   * 30, is deleted and erased in place. Returns the state and the position of
   * the next entry.
   */
  function QueueVisit(s: PassState, e: Env, j: nat): (r: (PassState, nat))
    requires Sized(e.grid) && WellFormed(s, e.grid) && j < |s.world.candidates|
    ensures WellFormed(r.0, e.grid) && |r.0.world.points| == |s.world.points|
    ensures r.1 <= |r.0.world.candidates| && |r.0.world.candidates| - r.1 < |s.world.candidates| - j
  {
    var pid := s.world.candidates[j];
    var (s1, ok) := ProjectPoint(s, e, pid);
    if ok then (s1, j + 1)
    else
      var s2 := s1.(world := AddFailures(s1.world, pid, QueuePenalty));
      if s2.world.points[pid].nFailed > CandidateFailureLimit then
        var w := Retire(s2.world, pid);
        (s2.(world := w.(candidates := EraseAt(w.candidates, j))), j)
      else
        (s2, j + 1)
  }

  /** The locked scan of the candidate queue from position j to its end. */
  function ScanQueueFrom(s: PassState, e: Env, j: nat): (r: PassState)
    requires Sized(e.grid) && WellFormed(s, e.grid) && j <= |s.world.candidates|
    ensures WellFormed(r, e.grid) && |r.world.points| == |s.world.points|
    decreases |s.world.candidates| - j
  {
    if j == |s.world.candidates| then s
    else
      var t := QueueVisit(s, e, j);
      ScanQueueFrom(t.0, e, t.1)
  }

  // ---------------------------------------------------------------------------
  // reprojectCell

  /** The type rank of a point; ids outside the arena do not occur in a well-formed pass. */
  function KindRank(points: seq<Point>, pid: PointId): nat {
    if pid < |points| then Rank(points[pid].kind) else 0
  }

  /** `pointQualityComparator`: lhs goes first when its point type is greater. */
  function PointQualityComparator(points: seq<Point>, lhs: Candidate, rhs: Candidate): bool {
    KindRank(points, lhs.pt) > KindRank(points, rhs.pt)
  }

  function QualityBefore(points: seq<Point>): (Candidate, Candidate) -> bool {
    (lhs: Candidate, rhs: Candidate) => PointQualityComparator(points, lhs, rhs)
  }

  /** `cell.sort(pointQualityComparator)`. */
  function SortCell(s: PassState, g: GridDims, idx: nat): (r: PassState)
    requires WellFormed(s, g) && idx < |s.cells|
    ensures WellFormed(r, g)
    ensures r.world == s.world && |r.cells| == |s.cells|
  {
    var sorted := SortWith(s.cells[idx], QualityBefore(s.world.points));
    CandidatesValidPermuted(s.cells[idx], sorted, |s.world.points|);
    s.(cells := s.cells[idx := sorted])
  }

  /**
   * One iteration of the cell scan: counts a trial and erases the front
   * candidate. A DELETED point is skipped; otherwise the matcher is asked (or,
   * with direct matching off, the candidate counts as a match). A failure
   * updates the point; a match updates the point and adds a feature to the
   * frame. Returns whether a match was found.
   */
  function ScanStep(s: PassState, e: Env, idx: nat): (r: (PassState, bool))
    requires WellFormed(s, e.grid) && idx < |s.cells| && s.cells[idx] != []
    ensures WellFormed(r.0, e.grid) && |r.0.world.points| == |s.world.points|
    ensures |r.0.cells| == |s.cells| && r.0.cells[idx] == s.cells[idx][1..]
  {
    var cell := s.cells[idx];
    var c := cell[0];
    var s1 := s.(cells := s.cells[idx := cell[1..]], nTrials := s.nTrials + 1);
    assert CandidatesValid(cell[1..], |s.world.points|);
    if s.world.points[c.pt].kind == TypeDeleted then (s1, false)
    else
      var (m, found, px) :=
        if e.findMatchDirect then FindMatchDirect(s.matcher, e.script, c.px)
        else (s.matcher, true, c.px);
      if !found then
        (s1.(matcher := m, world := FailInCell(s1.world, c.pt)), false)
      else
        var ftr := Feature(px, m.searchLevel, Some(c.pt), m.refKind);
        (s1.(matcher := m, world := SucceedInCell(s1.world, c.pt), fts := s1.fts + [ftr]), true)
  }

  /** The scan of one (sorted) cell: steps until a match is found or the cell is empty. */
  function ScanCell(s: PassState, e: Env, idx: nat): (r: (PassState, bool))
    requires WellFormed(s, e.grid) && idx < |s.cells|
    ensures WellFormed(r.0, e.grid) && |r.0.world.points| == |s.world.points|
    ensures |r.0.cells| == |s.cells|
    decreases |s.cells[idx]|
  {
    if s.cells[idx] == [] then (s, false)
    else
      var (s1, found) := ScanStep(s, e, idx);
      if found then (s1, true) else ScanCell(s1, e, idx)
  }

  /** `reprojectCell`: sort the cell by point quality, then scan it. */
  function ResolveCell(s: PassState, e: Env, idx: nat): (r: (PassState, bool))
    requires WellFormed(s, e.grid) && idx < |s.cells|
    ensures WellFormed(r.0, e.grid) && |r.0.world.points| == |s.world.points|
    ensures |r.0.cells| == |s.cells|
  {
    ScanCell(SortCell(s, e.grid, idx), e, idx)
  }

  predicate IndicesBelow(order: seq<nat>, n: nat) {
    forall k :: 0 <= k < |order| ==> order[k] < n
  }

  /** `order` lists each of 0 .. n-1 exactly once. */
  predicate IsPermutation(order: seq<nat>, n: nat) {
    |order| == n && IndicesBelow(order, n) &&
    forall i, j :: 0 <= i < j < n ==> order[i] != order[j]
  }

  /** `++n_matches_` when the cell gave a match. */
  function CountMatch(r: (PassState, bool)): PassState {
    if r.1 then r.0.(nMatches := r.0.nMatches + 1) else r.0
  }

  /**
   * The budgeted cell loop from position i of the visiting order: a found
   * match counts, and the loop stops right after the count exceeds `maxFts`.
   * Also returns the position the loop stopped at.
   */
  function ResolveCells(s: PassState, e: Env, order: seq<nat>, i: nat): (r: (PassState, nat))
    requires WellFormed(s, e.grid) && IndicesBelow(order, |s.cells|) && i <= |order|
    ensures WellFormed(r.0, e.grid) && |r.0.world.points| == |s.world.points|
    ensures |r.0.cells| == |s.cells|
    ensures i <= r.1 <= |order|
    decreases |order| - i
  {
    if i == |order| then (s, i)
    else
      var s2 := CountMatch(ResolveCell(s, e, order[i]));
      if s2.nMatches > e.maxFts then (s2, i + 1)
      else ResolveCells(s2, e, order, i + 1)
  }

  /**
   * One step of the budgeted loop: if the loop from i on gives t, the cell
   * order[i] is resolved and counted, then the loop stops with t or goes on
   * from i + 1 to t.
   */
  lemma ResolveCellsStep(s: PassState, e: Env, order: seq<nat>, i: nat, t: (PassState, nat))
    requires WellFormed(s, e.grid) && IndicesBelow(order, |s.cells|) && i < |order|
    requires ResolveCells(s, e, order, i) == t
    ensures var s2 := CountMatch(ResolveCell(s, e, order[i]));
            (s2.nMatches > e.maxFts ==> t == (s2, i + 1)) &&
            (s2.nMatches <= e.maxFts ==> ResolveCells(s2, e, order, i + 1) == t)
  {
  }

  // ---------------------------------------------------------------------------
  // reprojectMap

  /** A grid of n empty cells. */
  function EmptyCells(n: nat): (r: seq<seq<Candidate>>)
    ensures |r| == n && forall k :: 0 <= k < n ==> r[k] == []
  {
    seq(n, _ => [])
  }

  /** `resetGrid`: every cell emptied, both counters zero. */
  function ResetGrid(s: PassState, g: GridDims): (r: PassState)
    requires WellFormed(s, g)
    ensures WellFormed(r, g)
  {
    s.(cells := EmptyCells(|s.cells|), nMatches := 0, nTrials := 0)
  }

  datatype PassOutcome = PassOutcome(state: PassState, bucketed: seq<seq<PointId>>, visited: nat)

  /**
   * A whole pass: reset, seed from the selected keyframes (given by their
   * feature lists), scan the candidate queue, resolve cells in `order`.
   */
  function ReprojectMap(s: PassState, e: Env, kfs: seq<seq<Feature>>, order: seq<nat>): (r: PassOutcome)
    requires Sized(e.grid) && WellFormed(s, e.grid)
    requires KeyframesValid(kfs, |s.world.points|) && IndicesBelow(order, |s.cells|)
    ensures WellFormed(r.state, e.grid) && |r.state.world.points| == |s.world.points|
    ensures |r.bucketed| == |kfs| && r.visited <= |order|
  {
    var s0 := ResetGrid(s, e.grid);
    var (s1, bucketed) := SeedKeyframes(s0, e, kfs, 0);
    var s2 := ScanQueueFrom(s1, e, 0);
    var (s3, visited) := ResolveCells(s2, e, order, 0);
    PassOutcome(s3, bucketed, visited)
  }
}
