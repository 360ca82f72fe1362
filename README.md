# Map reprojection in SVO, modelled in Dafny

This project models the map-reprojection step of the SVO visual odometry
front end (`Reprojector` in `GPU_version/vio/src/reprojector.cpp`). For each
new frame it decides which 3-D map points get a chance to be matched:

1. it sets up a grid over the image (`initializeGrid`) and clears it before
   each pass (`resetGrid`);
2. it projects the points seen by the closest keyframes into the frame and
   buckets each point that lands inside the image into its grid cell
   (`reprojectPoint`). A per-point frame stamp makes sure no point is
   projected twice;
3. it scans the shared queue of candidate points. A queued point that does
   not project is charged 3 failures, and once past 30 it is deleted and
   erased from the queue;
4. it visits the cells in a shuffled order. Each cell is sorted by point
   type (`pointQualityComparator`) and tried front to back until one
   candidate is matched (`reprojectCell`). The loop stops once the number
   of matches exceeds the feature budget.

The model follows the source's form. `Reprojection.Reprojector` is a class
whose fields are the grid (an array of candidate lists), the shuffled cell
order, the two counters and the options. The map is a class `MapStore.Map`
holding the landmark arena, the candidate queue and the trash. The frame and
the matcher are classes too. Every method of `Reprojector` is proved to
compute exactly a function of module `PassSpec` over a value `PassState`.
The methods of `MapStore.Map` are proved to compute `MapStore.Retire` and
`MapStore.RemoveCandidatePoint`, and `Frame.AddFeature` appends to the
frame's feature list. The properties are proved about those functions:

- `Lifecycle` proves the point type state machine;
- `Seeding` proves the keyframe stage;
- `QueueScan` proves the candidate queue scan;
- `CellScan` proves the cell stage;
- `PassProps` proves whole-pass properties.

Landmarks are the elements of an arena `seq<Point>`, and a `Point*` is an
index into it. Two candidates for the same point therefore see each other's
updates, as they do through the shared pointer in the source.

A queued candidate that misses the frame is charged 3 failures per scan and
evicted only once its count is strictly greater than 30. So 10 misses (30
failures) keep the point and the 11th evicts it
(`Lifecycle.QueueEvictionAtEleventhMiss`).

## Model

| member | source | states |
|---|---|---|
| Reprojection.Reprojector.constructor | GPU_version/vio/src/reprojector.cpp:49-60 | ceil(width/cs) x ceil(height/cs) empty cells; the cell order is a permutation of all cell indices |
| Geometry.CeilDiv | GPU_version/vio/src/reprojector.cpp:52-53 | the result is the least count of cells that covers the extent |
| Reprojection.Reprojector.ResetGrid | GPU_version/vio/src/reprojector.cpp:62-67 | every cell empty and both counters zero; the cell count and the cell order are unchanged |
| Reprojection.Reprojector.ReprojectPoint | GPU_version/vio/src/reprojector.cpp:347-358 | the grid and the result are exactly those of `ProjectPoint` |
| Seeding.ProjectPointEffect | GPU_version/vio/src/reprojector.cpp:347-358 | bucketed iff the pixel is in frame with margin 8; then one candidate is appended to the cell with row y/cs and column x/cs, and no other cell changes; otherwise nothing changes |
| Geometry.CellIndexInRange | GPU_version/vio/src/reprojector.cpp:350-354 | the cell index of an in-frame pixel is a valid cell |
| Geometry.CellIndexCoordinates | GPU_version/vio/src/reprojector.cpp:352-353 | the index decodes back to the pixel's row band and column band |
| Geometry.SameCellIff | GPU_version/vio/src/reprojector.cpp:352-353 | two in-frame pixels share a cell iff they share both bands |
| Geometry.VgaGridExample | GPU_version/vio/src/reprojector.cpp:52-54 | a 640x480 image with 32-pixel cells has 20 x 15 = 300 cells |
| PassSpec.SelectKeyframes | GPU_version/vio/src/reprojector.cpp:79-85 | as many close keyframes as there are, up to `max_n_kfs`, in ascending distance, drawn from the close ones |
| PassSpec.SelectKeyframesNearest | GPU_version/vio/src/reprojector.cpp:79-85 | no selected keyframe is farther than a close keyframe left out, so the selected ones are the nearest |
| Reprojection.Reprojector.SeedFromFeature | GPU_version/vio/src/reprojector.cpp:93-100 | one feature is handled exactly as `SeedFeature` says, and the count it adds is the number of points that feature bucketed (0 or 1) |
| Reprojection.Reprojector.SeedFromKeyframe | GPU_version/vio/src/reprojector.cpp:87-102 | one overlap entry is pushed for the keyframe and its count ends as the number of points `SeedFeatures` buckets; the state is that of `SeedFeatures` |
| Reprojection.Reprojector.SeedFromKeyframeList | GPU_version/vio/src/reprojector.cpp:84-103 | one overlap entry per selected keyframe, counting its bucketed points; the state is that of `SeedKeyframes` |
| Reprojection.Reprojector.SeedFromKeyframes | GPU_version/vio/src/reprojector.cpp:79-103 | the selected keyframes are seeded in distance order |
| Seeding.SeedFeatureStamps | GPU_version/vio/src/reprojector.cpp:93-100 | a feature's point ends stamped; a point is bucketed only if it was not stamped before |
| Seeding.SeedFeaturesStamps | GPU_version/vio/src/reprojector.cpp:90-102 | every point of the keyframe ends stamped; bucketed points were unstamped before, and none is bucketed twice |
| Seeding.SeedFeatureBuckets | GPU_version/vio/src/reprojector.cpp:93-100 | a feature buckets its point exactly when it has one, the point is not yet stamped with this frame, and `reprojectPoint` accepts it; it stamps exactly its own point |
| Seeding.SeedFeaturesBuckets | GPU_version/vio/src/reprojector.cpp:90-102 | a keyframe's features bucket exactly the observed points that were unstamped and are accepted, and stamp exactly the observed points |
| Seeding.SeedFeaturesCount | GPU_version/vio/src/reprojector.cpp:88-101 | a keyframe's overlap count is the number of distinct observed points that were unstamped and are accepted |
| Seeding.SeedKeyframesOnlyStamps | GPU_version/vio/src/reprojector.cpp:84-103 | the keyframe stage changes points only by stamping them with the frame id, and leaves the queue, trash, features and counters alone |
| Seeding.SeedKeyframesStampAll | GPU_version/vio/src/reprojector.cpp:84-103 | every point any selected keyframe observes ends stamped with the frame id |
| Seeding.SeedKeyframesBucketOnce | GPU_version/vio/src/reprojector.cpp:93-100 | no point is bucketed twice across all keyframes of a pass |
| Seeding.SeedKeyframesBuckets | GPU_version/vio/src/reprojector.cpp:84-103 | the keyframe stage buckets a point if and only if some selected keyframe observes it, it was unstamped when the stage began, and `reprojectPoint` accepts it |
| Seeding.SeedFeaturesGrid | GPU_version/vio/src/reprojector.cpp:98-100 | the grid gains exactly the points counted for the keyframe |
| Seeding.SeedKeyframesGrid | GPU_version/vio/src/reprojector.cpp:84-103 | the grid gains exactly the points counted across all keyframes |
| Reprojection.Reprojector.VisitQueueEntry | GPU_version/vio/src/reprojector.cpp:108-119 | one entry of the queue loop computes exactly `QueueVisit`: the new state and the position of the next entry |
| Reprojection.Reprojector.ScanCandidateQueue | GPU_version/vio/src/reprojector.cpp:104-121 | the state is that of `ScanQueueFrom` from the front of the queue |
| QueueScan.ScanQueueEffect | GPU_version/vio/src/reprojector.cpp:106-120 | survivors keep their relative order; evicted entries are exactly those that miss with more than 30 failures after +3, and go to the trash in order; each missing point takes exactly +3; the grid gains exactly the projecting points |
| QueueScan.KeptDroppedPartition | GPU_version/vio/src/reprojector.cpp:112-119 | every queue entry is either kept or evicted |
| QueueScan.ScanQueueEvolves | GPU_version/vio/src/reprojector.cpp:104-121 | the queue scan only evolves the map and leaves features, matcher and counters alone |
| Lifecycle.QueueEvictionAtEleventhMiss | GPU_version/vio/src/reprojector.cpp:111-112 | a fresh candidate survives 10 misses and is deleted by the 11th |
| PassSpec.PointQualityComparator | GPU_version/vio/src/reprojector.cpp:285-290 | lhs goes first iff its point type is greater |
| CellScan.QualityStrictWeak | GPU_version/vio/src/reprojector.cpp:285-290 | the comparator is a strict weak order, as a list sort requires |
| CellScan.SortCellOrdered | GPU_version/vio/src/reprojector.cpp:294 | sorting permutes the cell into non-increasing point type and changes nothing else |
| CellScan.SortCellStable | GPU_version/vio/src/reprojector.cpp:294 | candidates of equal type keep their relative order |
| Sorting.SortWithSorted | GPU_version/vio/src/reprojector.cpp:294 | the list sort yields a sorted permutation |
| Sorting.SortWithStable | GPU_version/vio/src/reprojector.cpp:294 | the list sort is stable |
| Reprojection.Reprojector.TakeCandidate | GPU_version/vio/src/reprojector.cpp:296-342 | one loop iteration computes exactly `ScanStep` |
| CellScan.ScanStepEffect | GPU_version/vio/src/reprojector.cpp:298-341 | one trial per step; a DELETED candidate is erased without the matcher; a match appends one feature for the front candidate's point, which stays live; no match leaves the features alone |
| Reprojection.Reprojector.ReprojectCell | GPU_version/vio/src/reprojector.cpp:292-344 | sort then scan compute exactly `ResolveCell` |
| CellScan.ScanCellConsumes | GPU_version/vio/src/reprojector.cpp:295-343 | the scan consumes a prefix of the cell, one trial per candidate, and no other cell |
| CellScan.ScanCellOutcome | GPU_version/vio/src/reprojector.cpp:295-343 | true iff one feature was appended for the last candidate consumed; false iff the cell was used up with the features unchanged |
| CellScan.ScanCellSkipsDeleted | GPU_version/vio/src/reprojector.cpp:300-304 | a cell of DELETED points only counts trials and ends empty |
| CellScan.ScanCellMatcher | GPU_version/vio/src/reprojector.cpp:305-307 | at most one matcher call per trial, none with direct matching off; the map only evolves |
| CellScan.ResolveCellCounts | GPU_version/vio/src/reprojector.cpp:292-344 | no other cell and not `n_matches_` changes; at most one trial per candidate |
| CellScan.ResolveCellOutcome | GPU_version/vio/src/reprojector.cpp:292-344 | at most one success per cell: a match appends exactly one feature, for a live candidate of the cell; otherwise the cell ends empty |
| CellScan.RankOrderedFront | GPU_version/vio/src/reprojector.cpp:285-300 | a type-ordered cell starts with a best candidate, which is live when any is |
| CellScan.SortedFront | GPU_version/vio/src/reprojector.cpp:294-300 | after the sort the front candidate is of the best type in the cell |
| CellScan.ResolveCellPicksBest | GPU_version/vio/src/reprojector.cpp:305-307 | with direct matching off, a cell with a live point matches at the first trial, on a point of the best type |
| Reprojection.Reprojector.RecordFailure | GPU_version/vio/src/reprojector.cpp:308-316 | the map becomes exactly `FailInCell` |
| Lifecycle.FailInCellEffect | GPU_version/vio/src/reprojector.cpp:310-314 | +1 failure; UNKNOWN past 15 is deleted; CANDIDATE past 30 is deleted and leaves the queue; other points unchanged |
| Lifecycle.UnknownFailureLifetime | GPU_version/vio/src/reprojector.cpp:310-312 | an UNKNOWN point survives 15 failures and is deleted by the 16th |
| Lifecycle.CandidateFailureLifetime | GPU_version/vio/src/reprojector.cpp:310-314 | a queued CANDIDATE survives 30 failures; the 31st deletes it and takes it off the queue |
| MapStore.RemoveCandidatePointEffect | GPU_version/vio/src/reprojector.cpp:313-314 | removing a queued candidate takes exactly one queue entry and deletes the point; an unqueued point is untouched |
| Reprojection.Reprojector.RecordSuccess | GPU_version/vio/src/reprojector.cpp:318-320 | the map becomes exactly `SucceedInCell` |
| Landmark.SucceededEvolves | GPU_version/vio/src/reprojector.cpp:318-320 | a success adds one success and no failure, and only evolves the point |
| Lifecycle.PromotionAfterElevenSuccesses | GPU_version/vio/src/reprojector.cpp:318-320 | an UNKNOWN point becomes GOOD at exactly the 11th success |
| Lifecycle.FailInCellEvolves | GPU_version/vio/src/reprojector.cpp:310-314 | a failure only evolves the map |
| Lifecycle.WorldEvolvesTrans | GPU_version/vio/src/reprojector.cpp:70-129 | map evolution composes across the steps of a pass |
| Reprojection.Reprojector.ResolveCells | GPU_version/vio/src/reprojector.cpp:122-128 | the cell loop computes exactly `ResolveCells` over the shuffled order |
| PassProps.ResolveCellsBudget | GPU_version/vio/src/reprojector.cpp:122-128 | each match adds one feature and one count; at most `maxFts + 1` matches; an early stop only past the budget |
| PassProps.ResolveCellsUnvisited | GPU_version/vio/src/reprojector.cpp:122-128 | cells after the stopping point keep their candidates; the map only evolves |
| PassProps.EmptyGridResolves | GPU_version/vio/src/reprojector.cpp:122-128 | an empty grid is visited in full and nothing changes |
| Reprojection.Reprojector.ReprojectMap | GPU_version/vio/src/reprojector.cpp:70-129 | the whole pass computes exactly `ReprojectMap`, and the overlap list gains one entry per selected keyframe |
| PassProps.ReprojectMapBudget | GPU_version/vio/src/reprojector.cpp:70-129 | a pass ends with at most `maxFts + 1` matches, one appended feature each, and stops early only past the budget |
| PassProps.ReprojectMapEvolves | GPU_version/vio/src/reprojector.cpp:70-129 | a pass never moves a point, never lowers a counter, only deletes or promotes types, and only grows the trash |
| PassProps.ReprojectMapSeeds | GPU_version/vio/src/reprojector.cpp:70-103 | over a pass, the bucketed points are exactly the points that a selected keyframe observes, that were not stamped with this frame before, and that land in frame |
| PassProps.ReprojectMapGrid | GPU_version/vio/src/reprojector.cpp:74-121 | before the cell loop the grid holds exactly the keyframe-bucketed points and the queued points that project |
| PassProps.EmptyPass | GPU_version/vio/src/reprojector.cpp:70-129 | with no keyframe and an empty queue, a pass changes neither the map nor the features and visits every cell |
| MapStore.Map.DeleteCandidatePoint | GPU_version/vio/src/reprojector.cpp:313-314 | the map becomes exactly `RemoveCandidatePoint` |
| MapStore.Map.SafeDeletePoint | GPU_version/vio/src/reprojector.cpp:311-312 | the point is marked DELETED and goes to the trash |
| MapStore.Map.DeleteCandidate | GPU_version/vio/src/reprojector.cpp:114 | the candidate's point is marked DELETED and goes to the trash |
| Reprojection.Matcher.FindMatchDirect | GPU_version/vio/src/reprojector.cpp:306-307 | one call to the matcher: the scripted outcome, the refined pixel on a match |
| Reprojection.Frame.AddFeature | GPU_version/vio/src/reprojector.cpp:322-323 | the feature is appended to the frame |

## Left out

- `reprojectMap1`, `reprojectMap2` and `reprojectPoint1` are not modelled. They depend on OpenCV feature detection and matching.
- The camera projection `w2c` and the direct patch matcher are not modelled as algorithms. The projection is a function of the point's position, giving the integer pixel after the cast to `int`. The matcher is a script: its n-th answer is a given outcome.
- The refined pixel is kept as an integer pixel. The source keeps it as a `double` vector; the cell index is computed the same way from either.
- The frame is assumed to use the camera the grid was built for.
- The edgelet gradient update of a new feature is not modelled. It is floating-point matrix arithmetic. Only the feature's type, taken from the matcher's reference feature, is kept.
- `random_shuffle` is modelled by its result only: some permutation of the cell indices, fixed when the reprojector is built.
- The mutex around the queue scan is left out; the scan is a sequential step.
- `getCloseKeyframes` is an input. The pass receives the close keyframes with their distances.
- `safeDeletePoint` does not model unhooking the point from the keyframes that observe it. It only marks the point DELETED and moves it to the trash.
- The cast of `maxFts` to an unsigned size is not modelled; the budget is a natural number.
- Every counter is an unbounded natural number. In the source `n_failed_reproj_` and `n_succeeded_reproj_` are `int`, and `n_matches_` and `n_trials_` are `size_t`. Overflow and wrap-around are not modelled.
- The counters `n_matches_` and `n_trials_` start at zero in the model's constructor. In the source they are first set by `resetGrid`, which every pass calls before reading them.
- QueueScan.ScanQueueEffect: stated only for a queue in which no point is queued twice. With duplicates, the second entry sees the first one's penalty. `QueueScan.ScanQueueEvolves` holds for every queue.
- PassProps.ReprojectMapGrid: stated only for a queue in which no point is queued twice, for the same reason.
- CellScan.ResolveCellPicksBest: stated only with direct matching off. With it on, which candidate wins depends on the matcher's answers.
