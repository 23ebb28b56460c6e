# Verified model of the warehouse planning and capture pipeline

These Dafny modules model the parts of the repository whose guarantees span loops,
functions and whole runs of a program, and prove them for all inputs and all runs.

* **Floor and routes** (`world/`). `LargestRectangle` is the histogram-stack search for the
  largest free rectangle; `Masks`, `LaneGeometry` and `Lanes` build the greedy lane cover and
  the patch pass on it, `LaneNumbers` says when two lanes get the same name. `Routing` and
  `Dijkstra` are the lazy-deletion shortest path on the 8-connected mask, `Polylines` and
  `DiverseRoutes` the menu of alternative routes.
  `Bottleneck` is Kruskal with path halving, for any number of cameras.
* **Capture protocol** (`pipeline/capture/`). `BatchChooser` picks one frame per camera;
  `CaptureEvents` is what reaches the node, `CaptureSteps` what it makes of that on values,
  `CaptureNode` the node itself with its clock, buffers and settle barrier, `CaptureMiss` a
  call that misses its batch; `CaptureIndex` is the index and its writer; `CaptureAudit` is
  the auditor; `CaptureLog`, `CaptureResume` and `CaptureRun` join writer and auditor over
  every sequence of starts, kills and resumes.
* **Selection and allocation**. `Maximin` (farthest-point thinning), `TopUp` (greedy top-up),
  `Presence` (robot-absent runs), `Quotas` (largest remainder), `Partition` (roles).
* **Fusion and ledger**. `Fusion` is information-form fusion of camera estimates; `Ledger` and
  `CampaignRunner` are the campaign ledger over crashes and restarts.
* `Grid`, `Options`, `Sorting`, `Filtering`, `Counting` and `RealAlgebra` are shared helpers.

Conventions. Stamps are integer nanoseconds and coordinates exact reals; distances are
compared through their squares, and the diagonal step is a positive real. A mask is an
`array2<bool>` whose meaning is the set of its True cells. Everything that comes from
outside a process - clock readings, frames, answers of the pose service, kills, verdicts of
a simulation run - is a parameter, so a statement about a method holds for every behaviour
of its surroundings. A session id or attempt id is new each time it is drawn.

Where the code does less than its documentation says or a reader may expect, the model follows
the code:

* `_closest_timestamp_batch` is documented as choosing the closest combination. It does so for
  every input exactly up to three cameras; from four on it stays within a factor of two
  (`BatchChooser.ExactExactlyUpToThreeCameras`). From four on it finds the closest combination
  within the limit on all inputs exactly if the frames of each camera are at least twice the
  limit apart, or the limit is at most one nanosecond
  (`BatchChooser.ExactExactlyAtTwiceTheLimit`). So from four cameras on a node can time out
  although the frames it waits for are all there (`CaptureMiss.MissesItsBatch`).
* `_run_key` joins task, condition and seed by double underscores. Names with an underscore at
  the border can give two cells one key (`Ledger.KeysCanAgree`); plain names cannot
  (`Ledger.KeysTellCells`).
* A negative settle time puts the barrier before the acknowledgement. Then, and only then, the
  auditor refuses what the writer wrote, once a batch has succeeded
  (`CaptureLog.AuditAcceptsWriter`), which it can for every plan with poses and a limit that is
  not negative (`CaptureLog.SomeIndexIsRefused`).
* Every start, even a refused resume, leaves the output directory behind, and a plain start is
  refused as soon as that exists. A capture that dies before its manifest or before its index,
  or whose first start was a mistaken resume, is therefore refused by both kinds of start from
  then on (`CaptureRun.NoStartIsLetIn`, `CaptureRun.ShutOutForGood`); a plain start is let in
  only as the very first one (`CaptureRun.CaptureCampaign`).
* The campaign runner reads its ledger before it takes the lease, and reads none without
  `--resume`. Its copy is replaced by the ledger at its first write, so only the first cell it
  attempts can lose its history. It does exactly if the copy does not list that cell's earlier
  attempts; in a plain start, exactly if the first cell of the matrix is in the ledger
  (`CampaignRunner.HistoryKeptExactlyIfFirstCellIsKnown`, `CampaignRunner.PlainStartKeepsHistory`).
* First-pass lanes are numbered by round, patches by count. So two lanes have one name exactly
  if the round number of a first-pass lane exceeds the count of first-pass lanes by at most the
  number of patches (`LaneNumbers.NumbersAgreeExactlyIfTaken`). Rounds and patches are those of
  the finished run, so this can be read off the lanes but not told from the mask alone; there
  is a floor in one piece on which it happens (`LaneNumbers.NumbersCanAgree`).

`dafny verify dfyconfig.toml` checks the whole project.

## Model

| member | source | states |
|---|---|---|
| LargestRectangle.LargestRect | world/coverage.py:142-161 | Returns None exactly when no cell is True; otherwise an all-True in-bounds rectangle, and no all-True rectangle anywhere in the grid has a larger area; of several as large it is the first to end, by row and column, and of those that end together the tallest |
| LargestRectangle.SweepRow | world/coverage.py:149-160 | One row of the histogram scan: every rectangle under the histogram of that row is smaller than the new best or not before it, and the new best is the old one or a larger rectangle standing on that row |
| LargestRectangle.PopBars | world/coverage.py:155-160 | Popping restores a strictly increasing stack below the new bar, reports every bar it removes, and hands back the leftmost column the new bar reaches |
| LargestRectangle.CutOffIsDominated | world/coverage.py:155-161 | A rectangle cut off by a lower bar is dominated by a bar the stack pops, so the scan cannot miss it |
| LargestRectangle.HistogramMeansFree | world/coverage.py:147-149 | The rectangles under the histogram of a row are exactly the all-True rectangles whose last row it is |
| LaneGeometry.GreedyRoundTakesLargest | world/coverage.py:176-181 | Each greedy round takes the first of the largest rectangles of the floor the earlier rounds left |
| LaneGeometry.GreedyBoxesAreFree | world/coverage.py:172-181 | All rectangles of the greedy pass lie inside the reachable mask |
| LaneGeometry.GreedyBoxesAreDisjoint | world/coverage.py:176-181 | The rectangles of the greedy pass are pairwise disjoint |
| LaneGeometry.GreedyAreasDoNotIncrease | world/coverage.py:176-181 | Their cell areas never increase from round to round |
| Lanes.GreedyPass | world/coverage.py:172-193 | Masks, lanes and rounds agree after the pass, and it ends only with the coverage target met, no free cell left or all rounds used |
| LaneGeometry.RoundNumbersIncrease | world/coverage.py:188-190 | First-pass lanes carry the increasing number of the round that found them, not of their place in the list |
| LaneGeometry.PatchLanesAreNumberedOn | world/coverage.py:203-252 | Patch lanes are numbered on from the count of first-pass lanes without a gap |
| LaneNumbers.NumbersAgreeExactlyIfTaken | world/coverage.py:188-252 | Two lanes get the same number if and only if the round of some first-pass lane exceeds the count of first-pass lanes by at most the number of patches |
| LaneNumbers.NumbersCanAgree | world/coverage.py:127-252 | A 4-connected floor with a dropped thin first round, one kept lane and one patch among three attempts: both lanes are number 2 |
| Lanes.Grow | world/coverage.py:215-237 | Growing one cell goes sweep by sweep, up, down, left, right, each side by one step where the floor allows it, and ends with a rectangle around it that no other all-reachable rectangle properly contains |
| LaneGeometry.StuckIsMaximal | world/coverage.py:220-237 | A free rectangle that cannot move any one side by one step is inclusion-maximal |
| LaneGeometry.GrowthIsMaximal | world/coverage.py:215-237 | What the sweeps of a free rectangle end with encloses it and is inclusion-maximal |
| LaneGeometry.RoundsKeptInCells | world/coverage.py:176-193 | On evenly spaced cells a round becomes a lane exactly if its rectangle has six cells on each side and thirty square cells between its corner centres, and no round follows a lane that brought the cover to 99.5 percent |
| LaneGeometry.AttemptsKeptInCells | world/coverage.py:238-253 | An attempt becomes a patch exactly if, besides, it brings fifty cells that no lane covers at that moment |
| LaneGeometry.PatchAttempt | world/coverage.py:213-237 | Every patch attempt starts from a reachable cell no lane covers at that moment and yields a maximal reachable rectangle around it |
| LaneGeometry.PatchesPayTheirWay | world/coverage.py:242-253 | Every kept patch adds at least MIN_PATCH_GAIN_M2 of floor that no earlier lane declares |
| LaneGeometry.PatchCountBound | world/coverage.py:242-253 | The number of patches times that gain is at most the floor the first pass left uncovered |
| Lanes.PatchLanes | world/coverage.py:207-253 | The patch pass covers exactly its kept rectangles and ends only with every reachable cell treated or 200 attempts made |
| LaneGeometry.UndeclaredFloorIsNotWorthAPatch | world/coverage.py:234-253 | Once every cell has been treated, a reachable cell that is not covered lies in a maximal reachable rectangle that is too small for a lane or adds less than MIN_PATCH_GAIN_M2, even against the final cover |
| LaneGeometry.TreatedInVain | world/coverage.py:207-253 | A treated cell that stays uncovered lies in the rectangle of an attempt that failed the tests of that moment |
| Lanes.UndeclaredFloorHasAReason | world/coverage.py:164-253 | A reachable cell that no returned lane declares was left out for that reason, unless all 200 attempts were made |
| LaneGeometry.LaneCoversItsBox | world/coverage.py:186-190 | With increasing cell centres a lane declares exactly the cells of the rectangle it was made from |
| Lanes.DeclaredFloorIsReachable | world/coverage.py:172-204 | Rasterising first pass and patches together gives exactly the covered mask, and that is a subset of the reachable mask |
| Lanes.AutoLanes | world/coverage.py:164-204 | The returned lanes are those of a greedy pass followed by a patch pass, and the floor they declare contains no unreachable cell |
| Lanes.LanesAreDetermined | world/coverage.py:142-253 | The mask determines the lanes, with their numbers and their order: any two derivations are the same |
| Lanes.LaneMask | world/coverage.py:256-261 | The lane mask is True exactly at the cells whose centre lies in some lane |
| Routing.NeighboursAreAdjacent | world/route_tasks.py:153-154 | The eight offsets reach exactly the adjacent cells |
| Routing.CostSplits | world/route_tasks.py:174-176 | Splitting a walk splits its length |
| Routing.CostCountsMoves | world/route_tasks.py:153-176 | The length of any walk is RES times its moves that change one coordinate plus the diagonal step times its moves that change both |
| Routing.NoWalkBeatsOctile | world/route_tasks.py:153-176 | With a diagonal step between RES and twice RES no walk is shorter than the octile distance between its ends |
| Routing.OpenFloorIsCrossedDirectly | world/route_tasks.py:157-185 | On a rectangle that is all free a shortest path has exactly the octile length |
| Dijkstra.WalksAreCovered | world/route_tasks.py:163-178 | Every walk from the start either ends in an expanded cell whose recorded distance it does not beat, or is already at least as long as every queued distance |
| Dijkstra.RelaxKeeps | world/route_tasks.py:174-178 | Lowering one neighbour keeps labels, queue and expanded cells consistent, and an expanded cell can never be lowered again |
| Dijkstra.PopKeeps | world/route_tasks.py:164-169 | The smallest entry that is not stale belongs to a cell not expanded before |
| Dijkstra.GoalPoppedDecides | world/route_tasks.py:167-168 | Stopping when the goal is popped is sound: no path beats its recorded distance |
| Dijkstra.EmptyQueueDecides | world/route_tasks.py:163-180 | When the queue runs empty, a cell without a distance has no path |
| Dijkstra.Trace | world/route_tasks.py:181-185 | The walk back along prev terminates and is a path of exactly the recorded length |
| Dijkstra.ShortestPath | world/route_tasks.py:157-185 | Returns None exactly when the goal cannot be reached, otherwise a path whose cells after the start are in the mask and than which no such path is shorter; of several it comes, at every step, from the first possible cell by distance, row and column; no cell is expanded twice |
| Dijkstra.ShortestPathIsDetermined | world/route_tasks.py:157-185 | That leaves one path: the one returned is determined by the mask, the ends and the step lengths |
| Polylines.HausdorffMeaning | world/route_tasks.py:196-199 | Two polylines are within a distance exactly when every vertex of each has a vertex of the other within it |
| Polylines.HausdorffSymmetric | world/route_tasks.py:196-199 | The distance does not depend on the order of the two polylines |
| DiverseRoutes.Disc | world/route_tasks.py:202-213 | The clipped stamp marks exactly the grid cells within the metric radius |
| DiverseRoutes.WindowHoldsDisc | world/route_tasks.py:204-206 | The square window of ceil(radius / RES) cells misses no cell of the disc |
| DiverseRoutes.AlternativeIsValid | world/route_tasks.py:237-240 | A shortest route of a trial mask is a route of the mask itself although start and goal were forced free, is no shorter than the base route, and meets the disc at most at start and goal |
| DiverseRoutes.AlternativeMissesCutCell | world/route_tasks.py:231-240 | The cell a cut is centred on lies on the base route and never on the alternative |
| DiverseRoutes.MenuGuarantees | world/route_tasks.py:216-247 | Every menu route is a valid path no shorter than the first, avoids the disc of its cut, and lies at least G3_MIN_SEP_M from every other |
| DiverseRoutes.Menu | world/route_tasks.py:216-247 | The menu is empty exactly when there is no route, has at most MAX_ROUTES members and begins with a shortest route; cuts come by radius and along the base path, one for every multiple of CUT_STEP that leaves CUT_STEP cells to the end; each cut before the last one kept, and every cut of a menu that is not full, is on the menu or was left out because of the routes before it |
| DiverseRoutes.CutCellsArePlaces | world/route_tasks.py:231-232 | The list of cut cells holds base[CUT_STEP], base[2 CUT_STEP] and so on as long as CUT_STEP cells are left, and no other cell |
| DiverseRoutes.MenuIsDetermined | world/route_tasks.py:216-247 | Two menus of one mask with these properties are equal |
| DiverseRoutes.DiscIsMetric | world/route_tasks.py:202-213 | On a grid of RES spacing the disc holds exactly the cells whose centres lie within the radius |
| DiverseRoutes.AlternativeKeepsClear | world/route_tasks.py:237-247 | In metres: every vertex of an alternative but its ends lies more than the radius of its cut from the cut cell |
| Bottleneck.HalvingKeepsRoots | world/camera_layout_gate.py:82-86 | Path halving changes no node's root |
| Bottleneck.Forest.Find | world/camera_layout_gate.py:82-86 | find terminates, returns the root and leaves every root as it was |
| Bottleneck.LinkMovesOneTree | world/camera_layout_gate.py:94-94 | Linking two roots moves exactly one tree |
| Bottleneck.ConnectedMeansSameRoot | world/camera_layout_gate.py:88-95 | Two cameras share a root exactly when the edges processed so far connect them |
| Bottleneck.LastSelectedIsThreshold | world/camera_layout_gate.py:89-98 | The edge whose selection first connects everything carries the largest threshold that still connects all cameras |
| Bottleneck.MaximumSpanningTreeBottleneck | world/camera_layout_gate.py:77-98 | Returns the largest threshold at which the edges of at least that area connect all cameras, and 0 when the given edges do not connect them |
| BatchChooser.ClosestTimestampBatch | pipeline/capture/capture_positions.py:110-142 | Returns None when a camera has no candidate; otherwise the batch of the best anchor, first by span and then the newest, unless it spans more than the limit |
| BatchChooser.AnchorList | pipeline/capture/capture_positions.py:122-122 | The anchors are the candidate stamps, each once, in increasing order |
| BatchChooser.NearestIsTheNewestClosest | pipeline/capture/capture_positions.py:127-131 | Each camera gives its frame closest to the anchor, of two equally close the newer, of two with one stamp the first |
| BatchChooser.SpanMeans | pipeline/capture/capture_positions.py:133-134 | The span of a batch is the largest difference of two of its stamps |
| BatchChooser.WinnerIsTheNewestClosest | pipeline/capture/capture_positions.py:135-138 | An anchor wins if and only if no anchor gives a smaller span, none of equal span a later oldest stamp, and no earlier one the same in both |
| BatchChooser.ReturnedBatchIsNewest | pipeline/capture/capture_positions.py:135-142 | No anchor gives a batch of the returned span that is newer |
| BatchChooser.ReturnedBatchFits | pipeline/capture/capture_positions.py:140-142 | A returned batch takes one candidate of every camera and spans at most the limit |
| BatchChooser.WithinTwiceTheMinimum | pipeline/capture/capture_positions.py:125-138 | The chosen span is at most twice the span of any combination |
| BatchChooser.HalfTheLimitIsAccepted | pipeline/capture/capture_positions.py:140-141 | No rejection while some combination spans at most half the limit |
| BatchChooser.SeparatedFramesAreExact | pipeline/capture/capture_positions.py:125-138 | When the frames of each camera are at least twice the limit apart, no combination within the limit beats the chosen one, not even by being newer |
| BatchChooser.FoundWhenSpaced | pipeline/capture/capture_positions.py:110-142 | With that spacing, at most three cameras, or a limit of one nanosecond, a batch is returned whenever one within the limit exists, and none has a smaller span |
| BatchChooser.ExactExactlyAtTwiceTheLimit | pipeline/capture/capture_positions.py:110-142 | For every number of cameras, limit and spacing: that holds for all inputs if and only if there are at most three cameras, the limit is at most one nanosecond, or the spacing is at least twice the limit |
| BatchChooser.FourCamerasCanMissTheMinimum | pipeline/capture/capture_positions.py:113-119 | For every number of cameras from four on and every limit of two nanoseconds or more there are frames a node can hand over (after any barrier, as many new ones per camera as asked for, in stamp order) on which every winner of the search spans at least twice the limit less one although a batch within the limit exists |
| BatchChooser.ExactOnFramesAtTwiceTheLimit | pipeline/capture/capture_positions.py:110-142 | The same condition decides when the inputs are only those a node can hand over, for every barrier and number of new frames |
| BatchChooser.ExactExactlyUpToThreeCameras | pipeline/capture/capture_positions.py:113-119 | The documented choice of the closest combination holds for all inputs exactly up to three cameras |
| CaptureNode.FiveCameraCapture.RgbCallback | pipeline/capture/capture_positions.py:199-208 | A frame whose stamp is not newer changes nothing; any other is counted and appended to the bounded buffer |
| CaptureNode.FiveCameraCapture.Spin | pipeline/capture/capture_positions.py:225-235 | One spin has exactly the effect of the one event it lets in, and fails exactly when the clock runs backwards |
| CaptureSteps.CandidateIsFresh | pipeline/capture/capture_positions.py:269-281 | A candidate is a buffered frame delivered after the settle barrier was reached, stamped after barrier and last use and not in the future |
| CaptureSteps.CandidatesWhenEnough | pipeline/capture/capture_positions.py:269-281 | A camera has candidates exactly if at least the number asked for of its fresh frames, and at least one, have different stamps |
| CaptureSteps.BuffersHoldTheLatest | pipeline/capture/capture_positions.py:199-208 | A buffer holds the latest frames of its camera, numbered without a gap, as many as there are and fit |
| CaptureSteps.EnoughWereSent | pipeline/capture/capture_positions.py:269-343 | When the chooser found a batch, that many frames of every camera were among the events of the wait |
| CaptureSteps.CallGivesOneThing | pipeline/capture/capture_positions.py:316-351 | What a call gives, and where it leaves the node, is fixed by where the node stands and what reaches it |
| CaptureSteps.CallsGiveOneThing | pipeline/capture/capture_positions.py:316-351 | So is every series of calls |
| CaptureNode.FiveCameraCapture.Deliver | pipeline/capture/capture_positions.py:302-314 | What the chooser says about the fresh frames is what happens, and a delivered batch is consumed in full |
| CaptureNode.FiveCameraCapture.Capture | pipeline/capture/capture_positions.py:316-351 | A capture delivers one frame per camera, each from after the barrier and newer than the last one used, or nothing; what it gives and where it leaves the node is what its events make of where it stood: it settles at the first clock reading at the barrier, delivers the first batch the chooser finds, and fails for a stated reason or when the chooser has found none to the end; a captured batch has waited for as many new frames of different stamps as asked for, at least one, of every camera |
| CaptureNode.FiveCameraCapture.Command | pipeline/capture/capture_positions.py:316-343 | Commanding a pose ends settled, with issue and ack the clock readings before and after it, 0 < issue <= ack and the clock past the barrier, or for a stated reason: clock not running, pose refused, barrier not reached after every event listed, clock running backwards |
| CaptureNode.FiveCameraCapture.WaitReady | pipeline/capture/capture_positions.py:237-251 | A fresh node gets ready if and only if, before the clock ever falls back, some spin ends with the pose service up, a frame of every camera received and the clock above zero; it is left as the events up to the first such spin make it |
| CaptureNode.CaptureSeries | pipeline/capture/capture_positions.py:199-351 | Over the whole life of a node, whatever it receives: every captured batch has 0 < issue <= ack, its barrier a settle time later, barrier < stamp <= clock for each frame and a span within the slop; during its wait at least the number of new frames asked for was sent by every camera, stamped after the barrier and not after the clock; a later batch is commanded after the earlier one was delivered and repeats no camera's frame; outcome by outcome it is what the events give; under a steady clock no call is aborted |
| CaptureNode.BatchesAreOrderedAcrossCameras | pipeline/capture/capture_positions.py:316-343 | With a non-negative settle time every frame of a later batch is newer than every frame of an earlier one, whatever the camera |
| CaptureMiss.BuffersFill | pipeline/capture/capture_positions.py:199-208 | After any events, the buffer of a camera that can hold them ends in exactly the frames it was sent, numbered on, behind older ones |
| CaptureMiss.SentBecomeCandidates | pipeline/capture/capture_positions.py:269-281 | Once the clock has passed them, exactly the frames sent since settling are candidates |
| CaptureMiss.WhatTheChooserSees | pipeline/capture/capture_positions.py:269-314 | Frames sent ahead of the clock are no candidates at any spin until the clock reading that passes them, and then all of them are |
| CaptureMiss.NoMissWhenExact | pipeline/capture/capture_positions.py:337-343 | With at most three cameras, a limit of one nanosecond or frames twice the limit apart, the chooser finds no batch only if none within the limit is there |
| CaptureMiss.MissesItsBatch | pipeline/capture/capture_positions.py:316-351 | Whatever a started node with four or more cameras has seen before, with a limit of two nanoseconds or more and room for two frames beyond those asked for: under some surroundings with a steady clock its call settles and times out although the frames let in since hold a batch within the limit |
| CaptureIndex.CaptureIndexWriter.WriteRow | src/unav_common/unav_common/capture_integrity.py:141-146 | Rows reach the file only as whole batches |
| CaptureAudit.GroupRows | pipeline/capture/audit_capture_resume.py:51-53 | Groups the rows by pose and repetition, keeping file order |
| CaptureAudit.ScanBatch | pipeline/capture/audit_capture_resume.py:98-108 | The running flag and the last stamps decide exactly whether the rows so far are identified and never reuse a frame |
| CaptureAudit.Audit | pipeline/capture/audit_capture_resume.py:39-119 | The loops accept exactly the indexes that satisfy the declarative rule: contiguous prefix, complete batches with one outcome and one commanded pose, poses within 1e-12 of the plan, timing and identity |
| CaptureAudit.CompleteBatchHasEachCameraOnce | pipeline/capture/audit_capture_resume.py:64-67 | A batch with as many rows as cameras and all cameras among them has each exactly once |
| CaptureAudit.AcceptedIndexIsExact | pipeline/capture/audit_capture_resume.py:53-83 | In any accepted index each camera of each batch before the resume point has exactly one row and no later batch has any |
| CaptureAudit.AcceptedRowIsSound | pipeline/capture/audit_capture_resume.py:53-108 | Every row of an accepted index lies in the plan, names its batch and is commanded to the pose of the plan within 1e-12; every successful one has 0 < issue <= ack <= barrier < stamp and names its own session, camera and stamp as its picture |
| CaptureAudit.AcceptedBatchAgrees | pipeline/capture/audit_capture_resume.py:53-119 | Two rows of one batch have one outcome and one commanded pose, and if they succeeded one session and command and stamps within the slop plus one nanosecond |
| CaptureAudit.AcceptedSpanIsTrue | pipeline/capture/audit_capture_resume.py:109-116 | The span a successful row records is that of its batch to a microsecond |
| CaptureAudit.AcceptedPicturesDiffer | pipeline/capture/audit_capture_resume.py:98-108 | No two successful rows share a picture |
| CaptureLog.FileIsInPlanOrder | pipeline/capture/capture_positions.py:870-976 | Whatever was interrupted, the file holds the first batches of the plan in plan order, and the next index is the first missing one |
| CaptureLog.FileGroupsBack | pipeline/capture/audit_capture_resume.py:52-53 | Grouping the written file gives back exactly the batches that were written |
| CaptureLog.OkFlatIncreases | pipeline/capture/audit_capture_resume.py:106-108 | Per session and camera the stamps of all written successful rows strictly increase |
| CaptureLog.AuditAcceptsWriter | pipeline/capture/audit_capture_resume.py:53-119 | Everything the writer can have written is accepted if and only if the settle time is not negative or no batch succeeded |
| CaptureLog.SomeIndexIsRefused | pipeline/capture/audit_capture_resume.py:98-108 | The writer can leave an index that the audit refuses if and only if the settle time is negative, the plan has poses and the limit is not negative |
| CaptureLog.FlattenAt | pipeline/capture/capture_positions.py:940-976 | Row b * cameras + c of the file is the row of camera c of batch b |
| CaptureLog.FinishedFileIsComplete | pipeline/capture/capture_positions.py:870-976 | A finished run holds every pose, repetition and camera exactly once, in plan order |
| CaptureRun.RowsAreAWriterBatch | pipeline/capture/capture_positions.py:897-975 | The rows made of a capture, or of its failure, form one complete batch with one outcome |
| CaptureRun.LogExtends | pipeline/capture/capture_positions.py:886-976 | Adding a batch of the running session keeps stamps of that session in sequence with everything written before |
| CaptureRun.TryBatch | pipeline/capture/capture_positions.py:877-896 | A batch is given up only after exactly the allowed number of attempts, at least one, all of which failed; the first success ends them earlier and is the result; only a clock running backwards, or the end of the process, aborts; the attempts give what their events give |
| CaptureRun.BatchRowsTell | pipeline/capture/capture_positions.py:897-975 | A batch is ok exactly if one of its attempts captured, and then row c has the stamp of the captured frame of camera c and its issue, ack and barrier; otherwise all its rows are failed and blank |
| CaptureRun.CaptureBatch | pipeline/capture/capture_positions.py:877-976 | What is written for a batch is what its attempts gave, and it is written in full or not at all |
| CaptureRun.WriteBatch | pipeline/capture/capture_positions.py:897-975 | The batch is in the file exactly when all its rows were handed over; a kill before that leaves the file as it was |
| CaptureRun.RunSession | pipeline/capture/capture_positions.py:869-981 | A session extends what it found by whole batches in plan order, each of which tells what its attempts gave as the events decided; with enough time for every attempt and no kill it stops early only if the clock runs backwards |
| CaptureRun.Open | pipeline/capture/capture_positions.py:721-829 | A resumed start goes on exactly if the manifest is running and the index can pass the audit, at the first missing batch; a plain start exactly if the output directory does not exist |
| CaptureRun.Process | pipeline/capture/capture_positions.py:721-996 | One start is refused exactly if the auditor, or an existing output directory, says so, and leaves that directory behind in any case; it finishes only with the whole plan written, and does finish if it is let in, is not killed, its node gets ready, every attempt has time enough and the clock never falls back; every batch it adds is ok exactly if an attempt captured one, with the frames and clock readings of that capture, as the events of the launch decide; a kill may come before the manifest, before the session is noted, in the batch loop or before the final manifest, and in every case the disk extends what was written by whole batches |
| CaptureRun.Work | pipeline/capture/capture_positions.py:851-994 | From the node on: a start whose node gets ready is stopped only by a kill or a clock that falls back; otherwise it writes the whole plan and closes the manifest, with failures exactly if a batch failed; all it adds to the log is what the node captured |
| CaptureRun.FullIndexOnlyNeedsItsManifest | pipeline/capture/capture_positions.py:976-996 | An index that is full under a running manifest passes the audit, and a resume that is not killed finishes it without another batch, as soon as its node gets ready |
| CaptureRun.NoStartIsLetIn | pipeline/capture/capture_positions.py:721-829 | Both kinds of start are refused exactly if the capture is finished, the output directory is there without a manifest, a manifest is there without an index, or a negative settle time spoiled a batch |
| CaptureRun.ShutOutForGood | pipeline/capture/capture_positions.py:721-829 | Once both kinds of start are refused, every later start is refused and nothing on disk changes |
| CaptureRun.CaptureCampaign | pipeline/capture/capture_positions.py:721-996 | Any sequence of starts, kills and resumes is a chain of such steps, each of which adds what its node captured; a plain start in it is refused exactly if it is not the first or the output directory was there before, and every disk state can be judged by the auditor |
| CaptureRun.WrittenBatchesStay | pipeline/capture/capture_positions.py:802-976 | No later start changes or loses a batch that was written |
| CaptureRun.FailedBatchesOfFile | pipeline/capture/capture_positions.py:812-813 | The failure count taken from the file is zero exactly when every batch in it succeeded |
| CaptureRun.ExistingIndexPassesTheAudit | pipeline/capture/capture_positions.py:802-811 | With a non-negative settle time every index that launches left behind passes the audit and the resume point is the first missing batch |
| CaptureResume.NextBatchKeepsTheAudit | pipeline/capture/audit_capture_resume.py:53-119 | Whoever wrote an index that passes the audit, it still passes after the writer's next batch, if that batch uses no frame of an earlier one |
| CaptureResume.ResumeKeepsTheAudit | pipeline/capture/audit_capture_resume.py:53-119 | So it does after any number of batches added under fresh session ids, and the resume point has moved on by that number |
| Maximin.Thin | pipeline/capture/location_regime.py:229-245 | Starts at the south-westernmost candidate and picks a first farthest candidate each time; None when there are too few |
| Maximin.StartsInTheSouthWest | pipeline/capture/location_regime.py:233-236 | The first pick is the lowest candidate, of several the leftmost, of several there the first |
| Maximin.PicksAreFarthest | pipeline/capture/location_regime.py:237-245 | If some candidate keeps a distance from all earlier picks, the next pick keeps at least that distance, and none before it in the list is as far |
| Maximin.ThinningIsDetermined | pipeline/capture/location_regime.py:229-245 | Two thinnings of one list to one number are the same |
| Maximin.Absorb | pipeline/capture/location_regime.py:243-245 | The incrementally kept array equals the true minimum squared distances to the selection |
| Maximin.CoveringRadiusIsBelowSeparation | pipeline/capture/location_regime.py:233-245 | The covering radius of the selection is at most the separation of every pair in it |
| Maximin.CoverIsWithinTwiceTheBest | pipeline/capture/location_regime.py:233-245 | The covering radius is at most twice that of any set of as many centres |
| Maximin.PicksAreDistinct | pipeline/capture/location_regime.py:233-245 | Distinct candidates give distinct picks |
| Fusion.Fuse | pipeline/final_audit_fusion.py:50-59 | The accumulating loop computes the fused estimate, and fails exactly where a matrix to be inverted is singular |
| Fusion.FusionSucceeds | pipeline/final_audit_fusion.py:55-59 | Positive definite covariances always fuse, and the fused covariance is positive definite |
| Fusion.CostAroundTheFusedPosition | pipeline/final_audit_fusion.py:56-59 | The summed squared Mahalanobis distance at any point is that at the fused position plus the squared length of the difference under the total precision |
| Fusion.FusedPositionIsOptimal | pipeline/final_audit_fusion.py:50-59 | The fused position is the one and only minimiser of the summed squared Mahalanobis distances |
| Fusion.FusedCovarianceIsSmallest | pipeline/final_audit_fusion.py:55-58 | The fused covariance is no larger, in matrix order, than that of any camera |
| Fusion.OrderDoesNotMatter | pipeline/final_audit_fusion.py:53-57 | Any order of the estimates gives the same result |
| Fusion.GroupingDoesNotMatter | pipeline/final_audit_fusion.py:50-59 | Fusing groups and then their results gives the same as fusing everything at once |
| Fusion.InverseReversesOrder | pipeline/final_audit_fusion.py:55-58 | Inverting positive definite matrices turns matrix order around |
| CampaignRunner.LedgerFile.Update | pipeline/campaign_runner.py:762-768 | Updating one key leaves all others unchanged and hands back the ledger as it is on disk |
| CampaignRunner.Runner.RunCell | pipeline/campaign_runner.py:2326-2662 | However far an attempt gets, its writes leave one entry that inherits the history of the run's own copy, a physical outcome is kept only if the entry passes the comparison itself, and the copy is the disk from then on |
| CampaignRunner.Runner.RunMatrix | pipeline/campaign_runner.py:2307-2662 | The pass keeps the accounting of every key but the first it attempts, whose history depends on the copy; under --resume a cell settled on disk is attempted again only as that first one; the pass is cut off only by a crash or by a settled entry of the ledger or of its copy that fails the comparison, given one cell per key; with an up-to-date copy it never gets past such an entry, and if it ends under distinct keys it has attempted, of each condition, exactly the first open cells up to the limit on new runs |
| Ledger.CommitAccounts | pipeline/campaign_runner.py:2385-2428 | A first write changes nothing about other keys; its own key lists all its attempts exactly if what it inherited did |
| Ledger.FirstStillDecides | pipeline/campaign_runner.py:2295-2428 | Only for the first cell a run attempts can the history be lost: from then on the copy in memory is the ledger |
| Ledger.SettledStaysAlone | pipeline/campaign_runner.py:2314-2326 | A cell the ledger shows settled is attempted at most as the first of the run, since from then on the copy shows it settled |
| CampaignRunner.HistoryKeptExactlyIfFirstCellIsKnown | pipeline/campaign_runner.py:2280-2326 | All attempts stay listed through a run if and only if it writes nothing or its copy, read before the lease was taken, lists the earlier attempts of the first cell it does not pass over; both sides of that condition are known before the run, given that the first attempt is committed |
| CampaignRunner.PlainStartKeepsHistory | pipeline/campaign_runner.py:2280-2314 | A start without --resume keeps the history if and only if the matrix is empty, its first attempt is never committed, or the first cell of the matrix is not in the ledger |
| CampaignRunner.FirstOpenIsFirst | pipeline/campaign_runner.py:2309-2326 | The first cell a run attempts is the first of the matrix that its copy does not show settled |
| CampaignRunner.Launch | pipeline/campaign_runner.py:2280-2680 | What it reads decides which cell comes first and, once the first attempt is committed, that it writes and whether the history survives; with an up-to-date copy and nothing in its way it ends, under distinct keys having attempted exactly the first open cells of each condition up to the limit; without a limit every cell of its matrix has an outcome on record then |
| CampaignRunner.Campaign | pipeline/campaign_runner.py:2280-2662 | Over any crashes and --resume restarts from a fresh log every cell's history and current entry list exactly its committed attempts in order, only attempts without a valid outcome were superseded, and under one configuration with distinct keys no run is stopped by what the campaign wrote itself; n runs with a limit of m new runs per condition whose attempts all succeed leave exactly the first n * m cells of each condition settled, if no two cells share a key |
| CampaignRunner.SpendsOne | pipeline/campaign_runner.py:2328-2331 | An attempt is counted for its condition, and the cells attempted so far stay exactly the first open ones of each condition up to the limit |
| CampaignRunner.RunSettlesItsRation | pipeline/campaign_runner.py:2314-2331 | A run of successful attempts moves the number of settled cells of every condition on by exactly the limit |
| CampaignRunner.OwnEntriesAreTrusted | pipeline/campaign_runner.py:2314-2326 | A settled entry that an earlier run of the same configuration wrote never makes a resume stop |
| CampaignRunner.SettledCellIsKept | pipeline/campaign_runner.py:2314-2326 | Under --resume a settled cell is attempted again if and only if it is the first cell the run attempts, which only an outdated copy can make it; otherwise it keeps its entry through the whole run |
| Ledger.HistoriesHaveNoRepeats | pipeline/campaign_runner.py:2385-2393 | No attempt is listed twice and none out of order |
| Ledger.KeysTellCells | pipeline/campaign_runner.py:673-674 | Cells that differ in the seed alone have different keys; so have all different cells whose task and condition have no two underscores in a row and do not end in one |
| Ledger.KeysCanAgree | pipeline/campaign_runner.py:673-674 | With an underscore at the border of two names two cells share a key |
| CampaignRunner.OnlyPhysicalOutcomesAreKept | pipeline/campaign_runner.py:2314-2326 | A resumed run without a limit leaves alone exactly the cells whose entry is goal_reached, timed_out, stuck or loiter_timeout |
| TopUp.PlanTopUp | pipeline/capture/plan_hard_views.py:126-158 | The loop over lazily cleared flags terminates with exactly the picks of the plain greedy rule, and stops only at zero deficit or when no open candidate helps |
| TopUp.NoPickTwice | pipeline/capture/plan_hard_views.py:145-146 | No candidate is picked twice and only initially available ones are picked |
| TopUp.AtMostFourHeadings | pipeline/capture/plan_hard_views.py:148-153 | At most MAX_HEADINGS picks per position |
| TopUp.PositionsAreSpaced | pipeline/capture/plan_hard_views.py:141-150 | Any two picks stand at the same position or at least MIN_SPACING apart |
| TopUp.PicksPayTheirWay | pipeline/capture/plan_hard_views.py:136-147 | There are no more picks than units of initial deficit |
| TopUp.DeficitStep | pipeline/capture/plan_hard_views.py:147-147 | What is left per camera is max(0, deficit - edge views picked) |
| TopUp.GainIsWhatTheTotalLoses | pipeline/capture/plan_hard_views.py:136-147 | The gain a pick is chosen by is exactly what the total deficit loses |
| TopUp.FlagsAfterPick | pipeline/capture/plan_hard_views.py:145-153 | Clearing flags late never hides an open candidate nor offers a used one |
| TopUp.GreedyIsDetermined | pipeline/capture/plan_hard_views.py:135-153 | The rule leaves no choice: two finished runs are equal |
| Presence.Scan | pipeline/dataset.py:212-224 | The incremental scan rejects exactly the poses in a run of consecutive empty poses of one session that spans enough distinct positions |
| Presence.RunContinues | pipeline/dataset.py:219-222 | One more empty pose adds to the rejected exactly the whole run that ends there, and only if it spans enough positions |
| Presence.PresenceRejects | pipeline/dataset.py:205-225 | The same for the rows of a whole data set, grouped and sorted |
| Presence.PoseOfRows | pipeline/dataset.py:208-219 | A pose is empty exactly if enough of its rows had the robot in frame and none saw it, and stands where its first row stood |
| Presence.PosesInOrder | pipeline/dataset.py:212-212 | Every row belongs to a pose, and the poses come by source, session and pose number |
| Presence.LongRunMeans | pipeline/dataset.py:214-224 | A run counts exactly if its poses are empty, of one source and session, and stand at enough different positions |
| Presence.OrderOfRowsDoesNotMatter | pipeline/dataset.py:208-212 | If source, session and pose number fix plan index and position, the order of the rows does not matter |
| Presence.LoadRows | pipeline/dataset.py:106-202 | The loader fails exactly if some row has no pose, disagrees with its pose on where the robot stood, or has no place in the plan; otherwise it returns every row that gets past the filters, in order |
| Presence.LoadRowChecks | pipeline/dataset.py:106-202 | A row loads exactly if its pose number lies in its pose file, it stands within 1e-6 of that pose on both axes and, for the v5 passes, position and heading are in the plan; its plan index is their last place there, the offset plus its pose number, or the repaired pose |
| Presence.LoadedRowsAreConsistent | pipeline/dataset.py:128-202 | Rows loaded from pose files under distinct source names agree on plan index and position wherever they share source and pose number |
| Presence.DatasetOrderDoesNotMatter | pipeline/dataset.py:205-225 | For the rows of the data set, in whatever order, the same poses are rejected |
| Quotas.LargestRemainder | pipeline/capture/plan_rebalance.py:85-92 | The quotas sum exactly to the total, each is its share rounded down or, if not whole, up, and larger remainders are served first |
| Quotas.RoundingLoss | pipeline/capture/plan_rebalance.py:88-90 | Rounding down loses at most one unit for each share that is not whole |
| Quotas.ServedHaveRemainders | pipeline/capture/plan_rebalance.py:90-91 | So a unit is only ever added to a share that is not whole, however ties are ordered |
| Quotas.QuotaIsFloorOrCeiling | pipeline/capture/plan_rebalance.py:88-92 | Every quota is less than one unit off its share, so it is its floor or its ceiling; whole shares are met exactly |
| Quotas.NoQuotasAreCloser | pipeline/capture/plan_rebalance.py:85-92 | No whole numbers with the same sum have a smaller summed distance to the shares |
| Quotas.HeavierNeverGetsLess | pipeline/capture/plan_rebalance.py:85-92 | A heavier stratum never gets less, however ties are broken |
| Partition.PartitionPool | pipeline/capture/partition_v11.py:57-81 | Fails exactly when a valid position has no stratum area; otherwise each stratum's valid positions, in key order, take the quotas one after the other |
| Partition.PartitionCoversThePool | pipeline/capture/partition_v11.py:57-81 | Every pool position has exactly one role, nothing else has one, and exactly those are excluded that do not have four headings or do not fit |
| Partition.RolesAlongTheQueue | pipeline/capture/partition_v11.py:72-81 | The valid positions of a stratum, in key order, are final audit, D_dev, D_R and D_mu by the four quotas, and unused after that |
| Partition.PositionsGetQuotaOrRest | pipeline/capture/partition_v11.py:72-80 | The number of positions of a stratum that hold a role is its quota or what the earlier roles leave of the valid ones, whichever is less |
| Partition.ShortageLeavesNothing | pipeline/capture/partition_v11.py:72-80 | If a role holds fewer positions of a stratum than its quota, no valid position there has a later role or is unused |
| Partition.OrderOfPoolDoesNotMatter | pipeline/capture/partition_v11.py:61-73 | Distinct order keys make the queues independent of the order in which the positions were captured |

## Left out

- Floating-point rounding: all arithmetic is exact, so ties and thresholds are decided exactly.
- The heap's internal order: the queue is a multiset of which a smallest entry is removed.
- `reachable_mask`, `free_mask`, erosion and component labelling: the reachable mask is an input.
- `snap` and `length_m`: single expressions.
- Lane names as text: lanes carry their numbers.
- The semantic-label mode of the capture node and the pairing of labels with images: only frames are modelled.
- The finiteness check of a commanded pose and the duplicate check of the camera list: cameras are 0..n-1.
- Image bytes, hashes and paths, read noise, disk-space and provenance checks of the auditor, and its manifest comparison: each is one branch.
- `capture_attempts.jsonl`: written only, never read back.
- Fsync and atomic rename: a flush of the index or of the ledger happens whole or not at all.
- Two capture writers or two campaign runners at once: lock and lease exclude them; a ledger copy that is older than the lease is modelled.
- `_terminal_summary_outcome`, the journal checks and `_existing_entry_matches_config`: their verdicts are parameters; the comparison gives the same answer whenever it is asked about the same entry.
- The three ledger writes of an attempt carry only identity, isolation and outcome of the entry.
- `--dry-run`, condition and cell filters, launch commands, process supervision and signals of the campaign runner.
- Camera views, collision clearance, grids and coverage of existing poses in the top-up plan: edge views and availability are inputs; the rounded position key is the position itself, since grid positions lie further apart than the rounding.
- The final sort of the thinned positions by coordinates, and the fixed number of positions: the number is a parameter.
- Covariances that are not symmetric: fusion is modelled on symmetric matrices.
- The names of sources and sessions in the robot-absent scan are given by their rank, and a row's two conditions as truth values; the filters before the scan are one predicate on rows.
- The SHA-256 order of position keys is an arbitrary ranking; areas of strata are not negative, and the rounding of density times area is an input.
- The order in which equal remainders are served is left open, as `argsort` leaves it.
- Quotas.LargestRemainder: weights that sum to zero are excluded, since the division by their sum has no result; an empty list gives an empty list.
