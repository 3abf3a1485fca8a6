# Touch pipeline, panel read and Type-C sideband: a verified model

Dafny models of five parts of the MateBook E Go drivers, with proofs of the properties their code
and comments rely on. `dafny verify dfyconfig.toml` checks everything.

**Touch tracking** (`hx-algo-track.c`). `Hungarian` states the assignment problem and proves weak
duality; `Assigner` is the in-place solver over the driver's dual, column and link arrays, proved
optimal, terminating and free of 64 bit overflow. `MatchCosts` prices pairs, `SlotCycle` and
`SlotGiving` describe the life of a slot over one frame and over runs, `Competition` and
`SplitGuard` the table that holds second contacts back, and `Tracker` is the class that does it all
in place. `Tracks` holds prediction and smoothing. How long a second contact may wait is bounded in
`Competition` and, for frames of the tracker, in `Admission`; `HoldingLimit` and `StarvedContact`
show that no smaller bound holds. `OwnPeak` says in distances which detection a track gets, `SecondLobe`
in zones, peaks and ages whom the guard holds back, `SlotReport` and `TouchLife` in the states of a run
how slots follow, wait, are reported and end.

**Detection** (`hx-algo-detect.c`). `Components` says what a region of a frame is; `ZoneDetector`
floods the frame into the shared arena and is proved to find exactly the regions. `Tables` has the
keep-the-strongest table, compaction and selection sort. `LocalMaxima`, `PeakFilters`, `PeakFinder`
and `PeakTable` are the peak stage; `FingerPeaks` says in samples of the frame which peaks it leaves.
`PeakIdentity` hands identities from frame to frame; `PeakMotion` says in grid steps to whom,
`IdentityReuse` how late one comes back.

**Coordinates** (`hx-algo-resolve.c`). `Regions` and `Resolver` grow a region per peak and take its
centroid; `Centroids` has the arithmetic, and `Footprint` says in samples what a contact is taken over and
which are handed on. `Ghosts` and `Pipeline` join contacts to the tracker, `TouchFrame` composes a frame
from zones to reported touches, and `WholeFrame` says what that makes of zones and peaks.

**Baseline** (`hx-algo.c`, `hx-algo-preprocess.c`). `BaselineCell` is the per-cell filter,
`CommonMode` the histogram median, `Instability` the comparison of grids, and `Baseline` the three
grids with a ghost history of every frame ever delivered. `LiveFrame` says in samples and grid values what
a live frame shows, learns and remembers. `Settling` says which grids a constant
finger-free sample levels, with the touch decision left to the driver.

**Panel read** (`dsi_host.c`): `LongRead`. A long reply is a 4 byte header, payload and checksum
(section 8.4 of the MIPI DSI specification); the host sees its last 16 bytes, four words big end
first.

**Sideband** (`ucsi_huawei_gaokun.c`): `Sideband`, a transition system in which notifier, three
kinds of work and the core interleave; `SidebandProgress` shows that an event nobody drops is
followed by a refresh, `SidebandPass` what one pass reads and completes, `SidebandLoss` the two ways
to drop one, and `SidebandRest` exactly when an event can stay without a refresh for good. Bits are
set and cleared one at a time; see the last section for what is read in one step.

Frames, firmware status, the clock and the replies of panel and controller are parameters. Tunables
are limited to the ranges user space may write (`himax-spi-sysfs.c`, lines 162 to 257); where they
may change between frames the statements hold for any sequence of settings. The 40 by 60 grid and
the table capacities are the driver's constants.

Where code and comment disagree the code is modelled: a plateau may yield more than one peak
(`LocalMaxima.ForkHasTwoPeaks`), output coordinates span 0..2560 by 0..1600, not 0..65535, and the
follow-up of a connector event does not always force the altmode
(`SidebandLoss.BlindGiveUpLosesAnEvent`).
Five claims one might expect are false of the code and come with a counterexample and the exact
condition under which they hold: one peak per plateau, levelling of the baseline under a constant
finger-free sample, one confirmation period per second contact, a positive growth threshold, and
a refresh after every connector event.

`Machine`, `Arithmetic`, `Grid`, `Firmware` and `Pigeonhole` hold integer widths, small functions,
the sensor grid, the finger status and counting facts. Large invariants are "sealed": they are stated
under a predicate of `Sealing`, so that a method carries them as one fact and a lemma opens them by
mentioning it.

## Model

| member | source | states |
|---|---|---|
| `Hungarian.TightIsCheapest` | drivers/touchscreen-hx83121a/hx-algo-track.c:91-158 | weak duality: a full assignment that is tight under feasible duals, with every unused column uncharged, costs no more than any other |
| `Hungarian.FreeDummy` | drivers/touchscreen-hx83121a/hx-algo-track.c:94-139 | while a track waits for a column, some dummy column is free |
| `Hungarian.DeltaCapped` | drivers/touchscreen-hx83121a/hx-algo-track.c:110-129 | the slack of a free dummy, and with it the least slack of any search step, stays within the price of leaving a track unmatched, far below the sentinel |
| `Hungarian.ShiftKeeps` | drivers/touchscreen-hx83121a/hx-algo-track.c:130-137 | moving the duals by the least slack keeps feasibility, tight pairs, the search tree and the bound on every dual |
| `Hungarian.AugmentKeeps` | drivers/touchscreen-hx83121a/hx-algo-track.c:140-145 | each step back along the search tree keeps columns and rows inverse to each other, all pairs tight |
| `Hungarian.SolvedIsCheapest` | drivers/touchscreen-hx83121a/hx-algo-track.c:91-158 | no one-to-one assignment, gated or not, is cheaper than a finished matching |
| `Hungarian.MatchedPairsAreCheap` | drivers/touchscreen-hx83121a/hx-algo-track.c:150-157 | a matched pair never costs more than giving its track up, so no forbidden pair is matched and the filter on half the sentinel drops nothing |
| `Assigner.Assigner.Relax` | drivers/touchscreen-hx83121a/hx-algo-track.c:116-129 | one pass over the unused columns: new slacks, their tree links, and the first column of least slack |
| `Assigner.Assigner.Shift` | drivers/touchscreen-hx83121a/hx-algo-track.c:130-137 | duals of used columns and slacks of the others move by delta; nothing overflows 64 bits |
| `Assigner.Assigner.Grow` | drivers/touchscreen-hx83121a/hx-algo-track.c:102-139 | one search terminates and ends at a free column, never back at column 0, with the search tree and all duals intact |
| `Assigner.Assigner.Augment` | drivers/touchscreen-hx83121a/hx-algo-track.c:140-145 | the new track is matched along the search tree and everything matched before stays matched |
| `Assigner.Assigner.Solve` | drivers/touchscreen-hx83121a/hx-algo-track.c:97-146 | all tracks matched, duals feasible, every pair tight |
| `Assigner.Assigner.Publish` | drivers/touchscreen-hx83121a/hx-algo-track.c:149-157 | the column table turned into detections by slot |
| `Assigner.Assigner.Assign` | drivers/touchscreen-hx83121a/hx-algo-track.c:91-158 | the result is one-to-one and of least total price over every one-to-one partial assignment, with the price of leaving a track unmatched counted per track; idle slots get none |
| `Tracks.PredictionFits` | drivers/touchscreen-hx83121a/hx-algo-track.c:15-25 | with on-screen coordinates neither the prediction nor the squared distance leaves its C type |
| `Tracks.Dist2MotionRay` | drivers/touchscreen-hx83121a/hx-algo-track.c:32-49 | the nearest of the prediction and three points further along the motion; a resting track has none |
| `Tracks.FilteredLandsBetween` | drivers/touchscreen-hx83121a/hx-algo-track.c:56-89 | smoothing always lands between the old filtered position and the new detection, and every slot stays on screen with bounded speed and filter state |
| `Tracks.BlendRests` | drivers/touchscreen-hx83121a/hx-algo-track.c:83-86 | where the filter comes to rest: at its target, or short of a larger one by less than 256 / alpha, and nowhere else |
| `Tracks.BlendFits` | drivers/touchscreen-hx83121a/hx-algo-track.c:80-86 | no product inside a filter step leaves 32 bits |
| `Tracks.AlphaGrows` | drivers/touchscreen-hx83121a/hx-algo-track.c:72-80 | the filter is slowest at rest and fastest from the threshold speed on, whichever way round its two settings are given, and never slower for a faster finger |
| `MatchCosts.PriceIsSmallExactlyWhenAllowed` | drivers/touchscreen-hx83121a/hx-algo-track.c:319-357 | within the tunables a pair has a small price if it is in the gate and, for a continuation-only contact, bound to that slot with no regular contact in reach; otherwise it has the sentinel |
| `MatchCosts.TableIsProblem` | drivers/touchscreen-hx83121a/hx-algo-track.c:319-360 | the cost table meets everything the solver needs |
| `MatchCosts.GreedyIsOneToOne` | drivers/touchscreen-hx83121a/hx-algo-track.c:363-377 | the greedy choice gives no detection away twice |
| `MatchCosts.OptimalNeverDearerThanGreedy` | drivers/touchscreen-hx83121a/hx-algo-track.c:361-377 | on the same table the optimal matcher never pays more than the greedy one |
| `Tracker.Tracker.MarkTarget` | drivers/touchscreen-hx83121a/hx-algo-track.c:297-318 | whether some regular detection, and one with the own peak, lies in the gate |
| `Tracker.Tracker.FillCosts` | drivers/touchscreen-hx83121a/hx-algo-track.c:319-360 | fills the table with exactly the prices and dummies specified |
| `Tracker.Tracker.Greedy` | drivers/touchscreen-hx83121a/hx-algo-track.c:363-377 | track by track the first cheapest detection nobody took before; on ties the lowest index |
| `Tracker.Tracker.Match` | drivers/touchscreen-hx83121a/hx-algo-track.c:319-377 | either matcher: one-to-one, every pair allowed, and cheapest or greedy on the cost table as configured; what that means in distances is `OwnPeak` |
| `OwnPeak.OwnPeakWins` | drivers/touchscreen-hx83121a/hx-algo-track.c:319-377 | with either matcher: while a detection of the own peak is free in the gate at squared distance a, a stranger at squared distance b from the way of the track gets it only if b plus the penalty, once, twice or three times by the age of the peak, is at most a |
| `OwnPeak.NearerWins` | drivers/touchscreen-hx83121a/hx-algo-track.c:319-377 | of two ordinary detections in the gate a track never takes the one that counts as farther while the other is free; between two of the same standing distance decides |
| `OwnPeak.NotLeftOut` | drivers/touchscreen-hx83121a/hx-algo-track.c:319-377 | no track goes without while an ordinary detection in its gate is free that counts as less than sixteen times the match distance |
| `OwnPeak.OnlyInReach` | drivers/touchscreen-hx83121a/hx-algo-track.c:297-357 | nothing outside the gate is followed; the gate grows with missed frames up to fourfold; a contact that may only continue a slot continues no other, and that one only when no ordinary one is in reach |
| `Tracker.Tracker.Follow` | drivers/touchscreen-hx83121a/hx-algo-track.c:379-426 | matched slots move to their detection; a jump empties the slot and leaves the detection unused |
| `Tracker.Tracker.AgeUnmatched` | drivers/touchscreen-hx83121a/hx-algo-track.c:428-448 | unmatched slots miss a frame, or are released |
| `TouchLife.FedFollows` | drivers/touchscreen-hx83121a/hx-algo-track.c:56-89 | a slot that a detection feeds takes the displacement as its speed; without the filter it is right there, with it each coordinate moves alpha parts in 256 of the way for the larger displacement; signal and peak are those of the contact, unless that has no identity |
| `TouchLife.CarriedExactlyWhile` | drivers/touchscreen-hx83121a/hx-algo-track.c:428-448 | a slot without a detection stays where it was exactly while it is reported and has missed fewer frames than allowed; else it is released |
| `SlotReport.MovesWithinJump` | drivers/touchscreen-hx83121a/hx-algo-track.c:386-404 | with jump detection on, a slot that goes on as the same touch never moves further than the jump distance in one frame |
| `SlotGiving.GivenFresh` | drivers/touchscreen-hx83121a/hx-algo-track.c:450-503 | new slots are made only of unused regular detections that were not held back, in slots that were free and not released by a jump, no two of the same detection |
| `SlotGiving.GivenComplete` | drivers/touchscreen-hx83121a/hx-algo-track.c:450-503 | a detection ends up without a home only when no slot is left |
| `SlotGiving.GivenLog` | drivers/touchscreen-hx83121a/hx-algo-track.c:450-461 | the guard looks at each contact at most once per frame, in order, and everyone held back was seen young |
| `Tracker.Tracker.GiveSlots` | drivers/touchscreen-hx83121a/hx-algo-track.c:450-503 | the loop over detections computes the specified outcome |
| `Tracker.Tracker.TrackContacts` | drivers/touchscreen-hx83121a/hx-algo-track.c:270-509 | one call: no detection feeds two slots, a jumped slot stays empty to the end, nobody is turned away while a slot is free, and the outcome is determined by the matches |
| `SlotCycle.TrackedSteady` | drivers/touchscreen-hx83121a/hx-algo-track.c:379-503 | a call keeps every slot invariant and leaves no slot missing for longer than allowed |
| `SlotCycle.GuardSparesReported` | drivers/touchscreen-hx83121a/hx-algo-track.c:439-447 | the guard against stray tracks never releases a reported one |
| `SlotCycle.StepKeepsGood` | drivers/touchscreen-hx83121a/hx-algo-track.c:576-698 | every frame keeps: reported slots are active, debounced and under an established touch; only reported slots miss frames, never more than the limit; free slots are all zero; a frame without a finger leaves no active slot |
| `SlotCycle.EveryStateGood` | drivers/touchscreen-hx83121a/hx-algo-track.c:576-698 | the same for every state of every run, with every coordinate on screen |
| `SlotCycle.LostExactlyAfter` | drivers/touchscreen-hx83121a/hx-algo-track.c:428-448 | a reported slot without a detection is carried over unchanged for exactly track_lost_frames frames and is gone after one more |
| `SlotReport.DebouncedExactlyAfter` | drivers/touchscreen-hx83121a/hx-algo-track.c:423-424 | over every run: a slot that detections keep feeding stays, and with debounce d left is debounced after exactly d such frames |
| `SlotReport.ReportedInTime` | drivers/touchscreen-hx83121a/hx-algo-track.c:576-698 | it is reported at the latest after d and the frames that establish a touch, when the number of reported slots is at least one, and never before d |
| `SlotReport.ReportedExactlyWhenDebounced` | drivers/touchscreen-hx83121a/hx-algo-track.c:664-698 | beside an established touch it is reported exactly when its debounce is over |
| `SlotReport.BornAs` | drivers/touchscreen-hx83121a/hx-algo-track.c:474-503 | a new slot starts at rest at its detection; its debounce is the basic one plus the extra frames for a weak and for an edge contact, and none for a lone edge contact right after the finger landed |
| `SlotReport.StrongContactReported` | drivers/touchscreen-hx83121a/hx-algo-track.c:450-698 | so a strong contact off the edge, once it has a slot and keeps being detected, is reported within the basic debounce and the frames that establish a touch |
| `TouchLife.EstablishedExactlyAfter` | drivers/touchscreen-hx83121a/hx-algo-track.c:664-676 | over every run a touch is established after exactly as many frames in a row with a debounced slot as the setting asks for, at least one |
| `TouchLife.EndsWithTheLast` | drivers/touchscreen-hx83121a/hx-algo-track.c:673-676 | it ends with the first frame without a debounced slot, in which nothing is reported |
| `TouchLife.LiftReleasesAll` | drivers/touchscreen-hx83121a/hx-algo-track.c:610-634 | a frame that says the finger is gone leaves no slot, no touch and nothing reported |
| `TouchLife.FingerAsLastSaid` | drivers/touchscreen-hx83121a/hx-algo-track.c:588-606 | what is remembered of the finger is what a frame last said about it |
| `Tracker.Tracker.Establish` | drivers/touchscreen-hx83121a/hx-algo-track.c:666-676 | a touch is established after enough frames with a debounced slot, and lost when there is none |
| `Tracker.Tracker.Report` | drivers/touchscreen-hx83121a/hx-algo-track.c:682-698 | debounced slots are reported and the result counts exactly the active reported ones |
| `Tracker.Tracker.ProcessFrame` | drivers/touchscreen-hx83121a/hx-algo-track.c:576-698 | one frame: keeps the invariant, satisfies the frame relation, exhibits what matcher, guard and slot giving did and that it is correct and determines the outcome, and returns the number of reported slots; over runs, in the states alone: `SlotReport` and `TouchLife` |
| `Tracker.Tracker.Clear` | drivers/touchscreen-hx83121a/hx-algo.c:137-175 | forgets every touch and competitor |
| `Competition.TouchedTwice` | drivers/touchscreen-hx83121a/hx-algo-track.c:232-247 | looking at one competitor against several tracks counts once |
| `Competition.FrameAges` | drivers/touchscreen-hx83121a/hx-algo-track.c:226-257 | a frame in which a competitor is held back either ages its entry by one in place or moves it further up among the first m, whatever else the table holds |
| `Competition.HoldingIsBounded` | drivers/touchscreen-hx83121a/hx-algo-track.c:160-268 | a competitor that keeps its peak is held back for at most m * (c - 1) frames in a row when at most m contacts compete per frame, starting from any table; c - 1 when it is alone |
| `HoldingLimit.LongestHolding` | drivers/touchscreen-hx83121a/hx-algo-track.c:226-257 | n frames are always enough to get through if and only if n is at least m * (c - 1): newcomers that take entries over reach the bound for every c and m |
| `HoldingLimit.OnePeriodExactlyWhenAlone` | drivers/touchscreen-hx83121a/hx-algo-track.c:226-257 | one confirmation period is enough for every second contact if and only if nobody else competes or nothing has to be confirmed |
| `StarvedContact.NewcomersStarveAContact` | drivers/touchscreen-hx83121a/hx-algo-track.c:160-268 | the same run as whole frames of the tracker: contacts given to it with one reported touch, newcomers and a followed contact that asks for a slot, in each of which it is held back, m * (c - 1) frames in a row |
| `SplitGuard.LimitIsApplied` | drivers/touchscreen-hx83121a/hx-algo-track.c:182-217 | every track a contact competes with applies the same one of the two confirmation settings |
| `SplitGuard.JudgeLooksOnce` | drivers/touchscreen-hx83121a/hx-algo-track.c:160-268 | however many tracks a contact competes with, its entry changes once, and it is held back only while younger than the setting that applies to it |
| `SplitGuard.DeferralIsBounded` | drivers/touchscreen-hx83121a/hx-algo-track.c:160-268 | the bound for contacts with distinct peak ids over runs of whole frames, from any table, under the settings that apply |
| `SecondLobe.HeldBackExactlyWhen` | drivers/touchscreen-hx83121a/hx-algo-track.c:160-268 | in zones, peaks and distances: a detection is held back if and only if it may be a second lobe of some reported touch (same zone, or the peak that touch left behind, or beside the only touch; nearby unless left behind) and its peak has been seen for fewer frames than that takes |
| `SecondLobe.AgeIsFramesSeen` | drivers/touchscreen-hx83121a/hx-algo-track.c:226-257 | the age it is judged by counts the frames its peak has competed, this one included |
| `SecondLobe.NotedExactlyWhen` | drivers/touchscreen-hx83121a/hx-algo-track.c:160-268 | the guard notes a detection down if and only if it may be a second lobe; as left behind only if some slot left its peak behind, and then always once it lets the detection pass |
| `SecondLobe.NotedAs` | drivers/touchscreen-hx83121a/hx-algo-track.c:226-250 | noting a peak down ages its entry once a frame and remembers for good that it was left behind; a new one takes the first entry that is empty or not yet needed in this frame |
| `Admission.HeldBackInFrame` | drivers/touchscreen-hx83121a/hx-algo-track.c:450-461 | the same in a whole frame of the tracker: exactly the detections that feed no slot and are no mere continuations are judged, each by the slots as given so far, the matches, and the peaks the slots followed before |
| `Admission.AdmittedInTime` | drivers/touchscreen-hx83121a/hx-algo-track.c:450-503 | among m * (c - 1) + 1 frames of the tracker in a row in which a contact that keeps its peak asks for a slot, there is one in which it continues a slot or gets one, unless all ten are taken |
| `StarvedContact.AdmittedExactlyFrom` | drivers/touchscreen-hx83121a/hx-algo-track.c:450-503 | n frames in a row always suffice for that if and only if n exceeds m * (c - 1), whichever contacts compete |
| `SplitGuard.Guard.Look` | drivers/touchscreen-hx83121a/hx-algo-track.c:226-257 | the table scan finds the own entry, or the first one that may be taken over |
| `SplitGuard.Guard.IsUnconfirmedSplit` | drivers/touchscreen-hx83121a/hx-algo-track.c:160-268 | the nested loops compute the specified verdict and table |
| `SplitGuard.Guard.BeginFrame` | drivers/touchscreen-hx83121a/hx-algo-track.c:284-285 | marks every entry unseen |
| `SplitGuard.Guard.EndFrame` | drivers/touchscreen-hx83121a/hx-algo-track.c:505-508 | clears exactly the unseen entries |
| `Ghosts.StrongestIsNoGhost` | drivers/touchscreen-hx83121a/hx-algo-track.c:522-567 | the strongest contact is never taken for a ghost, nor is one a track expects |
| `Ghosts.GhostExactlyWhen` | drivers/touchscreen-hx83121a/hx-algo-track.c:522-555 | a contact is a ghost if and only if no slot in use expects one within its gate and another contact stands in the same row, far enough away, and is so much stronger; of two equally strong ones the later goes |
| `Pipeline.Pipeline.MarkGhosts` | drivers/touchscreen-hx83121a/hx-algo-track.c:531-555 | marks exactly the weak partners of lopsided pairs that no track expects |
| `Pipeline.Squeeze` | drivers/touchscreen-hx83121a/hx-algo-track.c:556-566 | removes the marked contacts from contacts and positions, in step and in order |
| `Pipeline.HandedToTracker` | drivers/touchscreen-hx83121a/hx-algo-resolve.c:284-309 | resolved contacts meet what the tracker assumes: on screen, at most ten, distinct peaks still distinct |
| `Pipeline.Pipeline.Process` | drivers/touchscreen-hx83121a/hx-algo-track.c:641-698 | contacts, ghosts and tracking composed: the tracker gets the strongest accepted contacts of the peaks that are no ghosts, each of another peak, and matcher, guard and slots did what it promises |
| `TouchFrame.TouchFrame.Process` | drivers/touchscreen-hx83121a/hx-algo-track.c:576-698 | one frame from zones to reported touches: zones are whole components, the table keeps the strongest candidates of their cells, the peaks are those thinned stage by stage, with identities handed on from the last frame, and the contacts the tracker gets come from different peaks without further assumption |
| `WholeFrame.ZoneStaysExactlyWhen` | drivers/touchscreen-hx83121a/hx-algo-detect.c:91-121 | the zones peaks are looked for in are the strongest of all zones of the frame, all of them if they fit the table, without those taken for palms, and no others |
| `WholeFrame.StrongestCandidatesStay` | drivers/touchscreen-hx83121a/hx-algo-detect.c:346-367 | no candidate a full table dropped exceeds one it kept, and none is dropped while there is room |
| `WholeFrame.PeakExactlyWhen` | drivers/touchscreen-hx83121a/hx-algo-detect.c:475-745 | of the candidates that dip towards their neighbours the frame has exactly those as peaks that are no lone spikes, large enough or bound to a touch, in no palm box, and not weak on an edge column |
| `WholeFrame.PeakComesFrom` | drivers/touchscreen-hx83121a/hx-algo-detect.c:475-745 | and no others; each carries the sample of its cell |
| `WholeFrame.ContactHandedOn` | drivers/touchscreen-hx83121a/hx-algo-track.c:522-567 | the tracker gets every resolved contact that is no weak echo of another one in its row, with its place on the screen |
| `WholeFrame.ContactComesFrom` | drivers/touchscreen-hx83121a/hx-algo-track.c:522-567 | and nothing else |
| `Components.FloodGrows` | drivers/touchscreen-hx83121a/hx-algo-detect.c:73-88 | enqueueing an unvisited neighbour keeps the search invariant, and the queue has room for it |
| `Components.FloodEnds` | drivers/touchscreen-hx83121a/hx-algo-detect.c:47-89 | a search that ran dry enqueued exactly the 8-connected component of its seed |
| `Components.ComponentOfMember` | drivers/touchscreen-hx83121a/hx-algo-detect.c:47-89 | a component is the same whichever of its cells it is grown from |
| `Zones.SummaryDescribes` | drivers/touchscreen-hx83121a/hx-algo-detect.c:40-71 | the record built cell by cell is the area, positive sum and tight bounding box of the component |
| `ZoneDetector.ZonesPartitionTheFrame` | drivers/touchscreen-hx83121a/hx-algo-detect.c:30-105 | a cell is at or above the threshold exactly when it lies in a zone, and never in two |
| `ZoneDetector.ZonesAreComponents` | drivers/touchscreen-hx83121a/hx-algo-detect.c:30-105 | two cells share a zone exactly when a walk above the threshold joins them |
| `ZoneDetector.ArenaHasRoom` | drivers/touchscreen-hx83121a/hx-algo-detect.c:58-59 | the arena guard never drops a cell |
| `ZoneDetector.ZoneSignal` | drivers/touchscreen-hx83121a/hx-algo-detect.c:60-62 | every zone sum is positive and fits 32 bits |
| `ZoneDetector.ZoneDetector.Flood` | drivers/touchscreen-hx83121a/hx-algo-detect.c:40-89 | one flood adds a whole component to the arena, behind the ones before |
| `ZoneDetector.ZoneDetector.Scan` | drivers/touchscreen-hx83121a/hx-algo-detect.c:26-106 | the scan accounts for the whole frame and keeps the strongest zones |
| `ZoneDetector.ZoneDetector.Detect` | drivers/touchscreen-hx83121a/hx-algo-detect.c:19-122 | all of the above, strongest first |
| `Tables.Insert` | drivers/touchscreen-hx83121a/hx-algo-detect.c:91-104 | a full table gives up its weakest entry only for a stronger one: nothing dropped outranks anything kept |
| `Tables.SelectionSort` | drivers/touchscreen-hx83121a/hx-algo-detect.c:111-121 | sorted and a permutation |
| `Tables.FilterIsSubsequence` | drivers/touchscreen-hx83121a/hx-algo-detect.c:255-263 | compaction yields the accepted entries, all of them, in order |
| `Tables.Compact` | drivers/touchscreen-hx83121a/hx-algo-detect.c:255-263 | in-place compaction computes the filtered table |
| `PeakFinder.KeptZonesApart` | drivers/touchscreen-hx83121a/hx-algo-detect.c:196-264 | zones kept by the detector, after dropping any, still list no cell twice |
| `PeakFinder.RejectPalms` | drivers/touchscreen-hx83121a/hx-algo-detect.c:196-264 | whatever the verdicts, palm rejection leaves a sorted subsequence of whole components |
| `LocalMaxima.IsAsymmetricPeak` | drivers/touchscreen-hx83121a/hx-algo-detect.c:279-309 | the window scan decides the asymmetric maximum test |
| `LocalMaxima.PeaksApart` | drivers/touchscreen-hx83121a/hx-algo-detect.c:271-309 | two cells that pass are more than the radius apart |
| `LocalMaxima.FirstHighestIsPeak` | drivers/touchscreen-hx83121a/hx-algo-detect.c:271-309 | with radius 1 the first highest cell of every zone passes |
| `LocalMaxima.OnePeakExactlyWhen` | drivers/touchscreen-hx83121a/hx-algo-detect.c:274-309 | for every radius, a plateau whose windows show no other cell as high yields exactly one peak if and only if every cell but its first has an earlier one of it in its window; at radius 1 every plateau is of that kind |
| `LocalMaxima.ForkHasTwoPeaks` | drivers/touchscreen-hx83121a/hx-algo-detect.c:274-277 | the stated claim of one peak per plateau fails on a concrete three-cell plateau at the default radius |
| `LocalMaxima.ForkHasOnePeakInWiderWindows` | drivers/touchscreen-hx83121a/hx-algo-detect.c:274-309 | and holds for that plateau at every larger radius |
| `PeakFinder.CandidatesExact` | drivers/touchscreen-hx83121a/hx-algo-detect.c:481-526 | the candidates are exactly the zone cells that reach their threshold, are local maxima and no drift |
| `PeakFinder.FirstHighestIsCandidate` | drivers/touchscreen-hx83121a/hx-algo-detect.c:481-526 | with radius 1 the first highest cell of a zone is among them |
| `FingerPeaks.CandidatesInSamples` | drivers/touchscreen-hx83121a/hx-algo-detect.c:481-526 | in samples: a candidate reaches the threshold for its place, tops its window with ties going to the earlier cell, and records its sample and the sum of the positive samples of its eight neighbours |
| `FingerPeaks.CellIsCandidate` | drivers/touchscreen-hx83121a/hx-algo-detect.c:481-526 | and every zone cell like that is one |
| `PeakFinder.StrikeKeeps` | drivers/touchscreen-hx83121a/hx-algo-detect.c:531-570 | striking a peak out leaves the strongest peak of every zone alive and is justified by a shallow saddle to one at least as strong |
| `PeakFinder.AliveSeparated` | drivers/touchscreen-hx83121a/hx-algo-detect.c:531-581 | between any two survivors of a zone within the saddle radius there is a real dip |
| `FingerPeaks.RoundedIsNearest` | drivers/touchscreen-hx83121a/hx-algo-detect.c:538-549 | the cells looked at between two peaks are the nearest to the straight line, to within half a cell |
| `FingerPeaks.SurvivorsDip` | drivers/touchscreen-hx83121a/hx-algo-detect.c:531-581 | in samples: between two peaks of a zone within the saddle radius that both stay, every cell on the way is lower than the weaker one by the required drop |
| `FingerPeaks.GoneWithoutDip` | drivers/touchscreen-hx83121a/hx-algo-detect.c:531-581 | and a candidate goes only if one at least as strong lies that close without such a dip |
| `FingerPeaks.PassesIsolationExactlyWhen` | drivers/touchscreen-hx83121a/hx-algo-detect.c:583-599 | with the filter on a peak passes if and only if the positive samples of its eight neighbours add up to at least a thirty-second of it |
| `FingerPeaks.OneNeighbourIsEnough` | drivers/touchscreen-hx83121a/hx-algo-detect.c:583-599 | so a single neighbour of that size is enough |
| `FingerPeaks.NoLoneSpike` | drivers/touchscreen-hx83121a/hx-algo-detect.c:583-599 | and no peak of 32 or more with silent neighbours is ever in the final table |
| `PeakFilters.ContinuationIsBound` | drivers/touchscreen-hx83121a/hx-algo-detect.c:630-657 | a continuation-only peak is bound to the one reported track in its reach |
| `PeakFilters.StrongestOnEdgeStays` | drivers/touchscreen-hx83121a/hx-algo-detect.c:702-732 | the strongest peak of an edge column survives the edge filter |
| `PeakFinder.StagesKeepPeaksApart` | drivers/touchscreen-hx83121a/hx-algo-detect.c:528-732 | through every in-place filter the peaks stay on their cells, pairwise more than the radius apart |
| `FingerPeaks.FinalExactlyWhen` | drivers/touchscreen-hx83121a/hx-algo-detect.c:583-743 | a peak left by the saddle stage is in the final table if and only if it is no lone spike, is large enough or starts fast or continues the one touch that expects it, lies in no palm box and is not weak on an edge column |
| `FingerPeaks.FinalComesFrom` | drivers/touchscreen-hx83121a/hx-algo-detect.c:583-743 | nothing else is, and no stage changes what a peak says about its cell |
| `PeakTable.PeakTable.Scan` | drivers/touchscreen-hx83121a/hx-algo-detect.c:479-526 | the table keeps the strongest candidates |
| `PeakTable.PeakTable.SaddleOf` | drivers/touchscreen-hx83121a/hx-algo-detect.c:550-563 | the highest rounded midpoint sample between two peaks |
| `PeakTable.PeakTable.Strike` | drivers/touchscreen-hx83121a/hx-algo-detect.c:531-571 | the double loop strikes out as specified and decides every pair |
| `PeakTable.PeakTable.BindSmall` | drivers/touchscreen-hx83121a/hx-algo-detect.c:601-675 | small peaks are dropped, or bound to a track, or marked as a fast start |
| `PeakTable.PeakTable.TrimEdge` | drivers/touchscreen-hx83121a/hx-algo-detect.c:702-732 | weak peaks on one edge column go |
| `PeakTable.PeakTable.Detect` | drivers/touchscreen-hx83121a/hx-algo-detect.c:475-745 | the whole stage: what the scan of the zones kept, thinned stage by stage, apart, weakest first; on-grid peaks of those zones |
| `Peaks.ScoreFitsInt` | drivers/touchscreen-hx83121a/hx-algo-detect.c:427-442 | no score reaches the limit the search starts from |
| `PeakIdentity.GreedyGrows` | drivers/touchscreen-hx83121a/hx-algo-detect.c:409-465 | taking the cheapest pair left keeps the choice one-to-one and of rising score |
| `PeakIdentity.ChosenBounded` | drivers/touchscreen-hx83121a/hx-algo-detect.c:409-465 | the greedy loop ends |
| `PeakIdentity.ProgressEnds` | drivers/touchscreen-hx83121a/hx-algo-detect.c:409-465 | when it ends, every gated pair left out lost to a chosen pair of no higher score that shares a peak with it |
| `PeakIdentity.InheritedDistinct` | drivers/touchscreen-hx83121a/hx-algo-detect.c:450-465 | inherited identities are pairwise distinct |
| `PeakIdentity.RefusalsBounded` | drivers/touchscreen-hx83121a/hx-algo-detect.c:372-389 | fewer than 255 peaks cannot use up the cycle of identities |
| `PeakIdentity.PeakTracker.Inherit` | drivers/touchscreen-hx83121a/hx-algo-detect.c:409-465 | the loop hands identities over along a stable one-to-one choice |
| `PeakIdentity.PeakTracker.AllocateId` | drivers/touchscreen-hx83121a/hx-algo-detect.c:368-390 | the first free identity of the cycle; the final fallback is never reached |
| `PeakIdentity.PeakTracker.TrackIds` | drivers/touchscreen-hx83121a/hx-algo-detect.c:399-473 | every frame leaves non-zero pairwise distinct identities for the next one; peaks that continue none get the next free identities in turn |
| `IdentityReuse.ReusedLast` | drivers/touchscreen-hx83121a/hx-algo-detect.c:368-390 | over any run of frames an identity is not handed out again before each of the other 254 was handed out since or was found in use |
| `PeakMotion.ChosenByPenalty` | drivers/touchscreen-hx83121a/hx-algo-detect.c:394-442 | in grid steps and samples: only pairs at most ten steps apart or six from the prediction count, and such a pair goes without only for one of no higher penalty that shares a peak |
| `PeakMotion.HeirHeadsOn` | drivers/touchscreen-hx83121a/hx-algo-detect.c:450-465 | an heir takes the identity, ages by one up to 255, and its motion is the way it came |
| `PeakMotion.NewStartsOver` | drivers/touchscreen-hx83121a/hx-algo-detect.c:466-473 | a new peak starts with age 0 |
| `PeakMotion.SteadyMotionKeepsIdentity` | drivers/touchscreen-hx83121a/hx-algo-detect.c:394-473 | fingers that all keep their motion keep their identities, however close they come, as long as the predictions tell them apart |
| `BaselineCell.StepBounds` | drivers/touchscreen-hx83121a/hx-algo-preprocess.c:15-26 | a step goes towards the sample, never past it, never further than its limit |
| `BaselineCell.CellSafe` | drivers/touchscreen-hx83121a/hx-algo-preprocess.c:123-205 | every cell stays in range and moves at most the step allowed in its situation |
| `Settling.UntouchedRunLevels` | drivers/touchscreen-hx83121a/hx-algo-preprocess.c:123-205 | over live frames of one finger-free sample none of which counts as touched, every cell has reached the sample after a known number of frames if the tunables move differences as large as the first ones |
| `Settling.NarrowStartSettles` | drivers/touchscreen-hx83121a/hx-algo-preprocess.c:55-205 | if the first differences lie in a range narrower than the peak threshold, the driver itself never takes such a frame for touched, and every cell reaches the sample and stays there |
| `Settling.SettlesExactlyWhen` | drivers/touchscreen-hx83121a/hx-algo-preprocess.c:55-205 | every grid at or below the sample by at most hi settles if and only if hi is below the peak threshold and the tunables move every difference up to hi |
| `Settling.NeverLevel` | drivers/touchscreen-hx83121a/hx-algo-preprocess.c:96-163 | a cell alone above a level panel never reaches a constant finger-free sample if it stands out by the peak threshold, because it is frozen, or is too close for the shift to move |
| `CommonMode.MedianExists` | drivers/touchscreen-hx83121a/hx-algo-preprocess.c:61-93 | the exact median of the differences always exists |
| `CommonMode.EstimateNearMedian` | drivers/touchscreen-hx83121a/hx-algo-preprocess.c:61-93 | the common-mode estimate differs from it by at most 63 |
| `CommonMode.EstimateInHull` | drivers/touchscreen-hx83121a/hx-algo-preprocess.c:79-93 | and lies between the smallest and the largest of them |
| `CommonMode.FillHistogram` | drivers/touchscreen-hx83121a/hx-algo-preprocess.c:59-71 | counts the differences per bin; no index is ever clamped |
| `CommonMode.FindMiddleBin` | drivers/touchscreen-hx83121a/hx-algo-preprocess.c:72-78 | the scan always stops, in the non-empty bin that holds the median |
| `CommonMode.Measure` | drivers/touchscreen-hx83121a/hx-algo-preprocess.c:59-93 | the estimate and the largest difference |
| `Instability.Compare` | drivers/touchscreen-hx83121a/hx-algo.c:305-323 | counts jumping cells in all, by row and by column; no counter wraps |
| `Instability.UnstableExactlyWhen` | drivers/touchscreen-hx83121a/hx-algo.c:301-323 | two frames disagree if and only if more cells than allowed differ by more than the jump threshold, or as many as the limit for a line do in one row or one column |
| `Baseline.Baseline.BeginWake` | drivers/touchscreen-hx83121a/hx-algo.c:219-231 | forgets the window and every transient of the live path, keeps the learned grids |
| `Baseline.Baseline.FullReset` | drivers/touchscreen-hx83121a/hx-algo.c:186-208 | forgets everything learned: every grid, hold and counter is zero |
| `Baseline.Baseline.FingerFrame` | drivers/touchscreen-hx83121a/hx-algo.c:264-291 | a frame with a finger teaches nothing; enough of them in a row fall back to the safe grid, or to what there is |
| `Baseline.Baseline.AcceptFrame` | drivers/touchscreen-hx83121a/hx-algo.c:336-394 | an agreeing frame counts, and commits the candidate after as many frames as required |
| `Baseline.Baseline.QualifyWakeFrame` | drivers/touchscreen-hx83121a/hx-algo.c:233-395 | the exact verdict and next state for every frame; the safe grid always stems from an earlier frame without a finger; a commit under an intact window is the first frame of at least stableFrames stable finger-free frames, at least twice as many if it diverges from the safe grid before; nothing changes before a positive verdict, and which grid each positive verdict leaves |
| `Baseline.DivergesExactlyWhen` | drivers/touchscreen-hx83121a/hx-algo.c:345-369 | a candidate diverges if and only if more cells than allowed differ from the safe grid by more than twice the jump threshold once the mean difference is taken off |
| `Baseline.OutOfRangeCounts` | drivers/touchscreen-hx83121a/hx-algo.c:245-259 | the frames refused are those with more samples outside 0x1000..0xf000 than allowed |
| `Baseline.FingerEndsQualification` | drivers/touchscreen-hx83121a/hx-algo.c:264-291 | a finger that stays ends qualification in exactly the number of frames set for that, on the safe grid if there is one |
| `Baseline.FingerFramesInARow` | drivers/touchscreen-hx83121a/hx-algo.c:264-292 | only frames with a finger in a row count towards that |
| `Baseline.SteadyPanelQualifies` | drivers/touchscreen-hx83121a/hx-algo.c:233-395 | a panel that repeats one usable frame is qualified after exactly stableFrames frames, or 2 * stableFrames if the frame diverges from the valid safe grid |
| `Baseline.LiveFrameShortensTheWindow` | drivers/touchscreen-hx83121a/hx-algo-preprocess.c:211-218 | why live frames must stay out of a wake window: after one wake frame and one live frame, through the real operations, a single agreeing wake frame commits although two are required |
| `Baseline.Baseline.UpdateGrid` | drivers/touchscreen-hx83121a/hx-algo-preprocess.c:123-205 | every cell takes exactly one update |
| `Baseline.Baseline.FollowQuiet` | drivers/touchscreen-hx83121a/hx-algo-preprocess.c:211-260 | a run of quiet frames goes on, starts anew or ends; the safe grid changes only to the first frame of a long enough run |
| `Baseline.Baseline.CommittedExactlyWhen` | drivers/touchscreen-hx83121a/hx-algo-preprocess.c:211-255 | a still frame that agrees with the first of its run makes the run one longer, any other still frame starts one; a run of safeCommit frames and no shorter one puts its first frame into the safe grid |
| `Baseline.Baseline.ProcessLive` | drivers/touchscreen-hx83121a/hx-algo-preprocess.c:28-264 | one live frame is one step of the live state: what the grid starts from, drift, touch decision, adaptation, and safe commit only of a long enough run of still frames; what the frame shows and learns is `LiveFrame` |
| `LiveFrame.ShowsExactlyWhatStandsOut` | drivers/touchscreen-hx83121a/hx-algo-preprocess.c:134-205 | with the baseline on, a cell from 1 on is positive if and only if the frame counts as touched and the sample exceeds grid plus drift by at least the peak threshold, and then by that excess cut at 0x7fff; it is negative only while held and below -13; cell 0 is silent |
| `LiveFrame.ShowsRawWhenOff` | drivers/touchscreen-hx83121a/hx-algo-preprocess.c:134-137 | with the baseline off it shows the distance from the neutral level |
| `LiveFrame.DriftOfTheMany` | drivers/touchscreen-hx83121a/hx-algo-preprocess.c:55-93 | when all but a minority of the cells differ from the grid by lo to hi, the drift estimate lies between lo - 63 and hi + 63 |
| `LiveFrame.FingerShows` | drivers/touchscreen-hx83121a/hx-algo-preprocess.c:55-205 | a finger of at least the peak threshold plus 63 over a minority of the cells of a level panel shows to within 63 of its height in every cell, and level cells show nothing if the threshold exceeds 63 |
| `LiveFrame.LearnsExactly` | drivers/touchscreen-hx83121a/hx-algo-preprocess.c:139-202 | what every cell learns and how long it is held, as shares of the difference in powers of two with their limits: a cell that stands out follows the drift only, a held one waits, others learn their sample, faster without a touch or while recovering |
| `LiveFrame.RemembersExactly` | drivers/touchscreen-hx83121a/hx-algo-preprocess.c:96-120 | what the next frame remembers: whether this one was touched, whether a cell stood out, how many frames in a row recovered |
| `LiveFrame.HeldForExactly` | drivers/touchscreen-hx83121a/hx-algo-preprocess.c:139-163 | a cell that stood out keeps its grid value for exactly the configured number of frames in which it no longer does |
| `Centroids.CentroidInHull` | drivers/touchscreen-hx83121a/hx-algo-resolve.c:117-123 | a centroid lies between the centres of the outermost cells it was taken over |
| `Centroids.CentroidIsMean` | drivers/touchscreen-hx83121a/hx-algo-resolve.c:117-123 | it is the mean of the centres weighted by positive signal, rounded down to a 256th of a cell; without signal the centre of the own cell |
| `Centroids.CompensationMonotone` | drivers/touchscreen-hx83121a/hx-algo-resolve.c:199-235 | edge compensation keeps the order of positions and never leaves the sensor |
| `Centroids.CompensatesOnlyNearEdges` | drivers/touchscreen-hx83121a/hx-algo-resolve.c:199-235 | it acts only within the blend width of an edge, pushes outwards, most at the edge, and never past the rim |
| `Centroids.SensorOnScreen` | drivers/touchscreen-hx83121a/hx-algo-resolve.c:284-306 | every sensor position maps into 0..2560 by 0..1600; the clamps never act |
| `Centroids.ThresholdKeptExactlyWhen` | drivers/touchscreen-hx83121a/hx-algo-resolve.c:30-37 | for a peak of signal z the growth threshold survives narrowing to 16 bits if and only if min(peak threshold, z) * numer is below 0x8000 * 2^shift |
| `Centroids.ThresholdPositiveExactlyWhen` | drivers/touchscreen-hx83121a/hx-algo-resolve.c:30-37 | the threshold is positive, and as computed, for peaks of every signal if and only if peak threshold * numer is below 0x8000 * 2^shift |
| `Regions.SilentCellsStayOutExactlyWhen` | drivers/touchscreen-hx83121a/hx-algo-resolve.c:30-114 | under exactly that condition no cell without signal ever joins a region; otherwise some peak takes every cell within the radius, whatever the frame shows |
| `Footprint.ThresholdScales` | drivers/touchscreen-hx83121a/hx-algo-resolve.c:30-37 | while it fits, the threshold is the given fraction of min(peak threshold, z), rounded down, and at least 1 |
| `Centroids.ThresholdCanWrap` | drivers/touchscreen-hx83121a/hx-algo-resolve.c:30-37 | accepted tunables under which it turns negative |
| `Regions.SpotInHull` | drivers/touchscreen-hx83121a/hx-algo-resolve.c:57-185 | both coordinates of a contact lie in the hull of its cells |
| `Regions.WindowWithin` | drivers/touchscreen-hx83121a/hx-algo-resolve.c:142-168 | the fallback centroid is taken over cells next to the peak |
| `Regions.ResolvedOnSensor` | drivers/touchscreen-hx83121a/hx-algo-resolve.c:57-235 | every contact lies on the sensor, edge compensation included |
| `Resolver.Resolver.Grow` | drivers/touchscreen-hx83121a/hx-algo-resolve.c:57-123 | the region is the connected component of the seed among free cells that join; it is clean exactly when no neighbour belongs to another region |
| `Resolver.Resolver.SumWindow` | drivers/touchscreen-hx83121a/hx-algo-resolve.c:142-168 | sums over the positive cells of the window |
| `Resolver.Resolver.ResolvePeak` | drivers/touchscreen-hx83121a/hx-algo-resolve.c:237-262 | the contact of one peak, over its region or its window |
| `Resolver.Resolver.Cut` | drivers/touchscreen-hx83121a/hx-algo-resolve.c:264-282 | with more than ten contacts the ten strongest stay, otherwise all |
| `Resolver.Resolver.Place` | drivers/touchscreen-hx83121a/hx-algo-resolve.c:284-309 | weak contacts at the border are dropped, the others get their screen coordinates |
| `Resolver.Resolver.Resolve` | drivers/touchscreen-hx83121a/hx-algo-resolve.c:237-310 | at most ten contacts of different peaks, all on the screen |
| `Footprint.RegionIsLeast` | drivers/touchscreen-hx83121a/hx-algo-resolve.c:57-115 | in samples: a region is the smallest set with the peak that no free cell borders on which reaches the threshold, lies within the radius and, with cleanup on, has at least two of its eight neighbours reach it too |
| `Footprint.ContactSays` | drivers/touchscreen-hx83121a/hx-algo-resolve.c:57-262 | a contact is taken over its region while no cell next to that belongs to another one, else over the cells with signal right at the peak; what it says of position, area, signal, edge, identity, zone and binding |
| `Footprint.ScreenIsScaled` | drivers/touchscreen-hx83121a/hx-algo-resolve.c:284-306 | screen positions are grid positions scaled from 60 by 40 cells to 2560 by 1600, rounded down |
| `Footprint.RejectedExactlyWhen` | drivers/touchscreen-hx83121a/hx-algo-resolve.c:284-306 | a contact is dropped at the border if and only if it is weaker than required and nearer to a border than the margin |
| `Footprint.StrongestStay` | drivers/touchscreen-hx83121a/hx-algo-resolve.c:264-282 | no contact cut off has more signal than one that stays |
| `Resolver.ContactIdsDistinct` | drivers/touchscreen-hx83121a/hx-algo-resolve.c:131-133 | distinct peak identities stay distinct on the contacts handed on |
| `LongRead.Host.LoadWords` | drivers/panel-hx83121a/dsi_host.c:1489-1493 | registers read highest first restore stream order |
| `LongRead.Host.DmaRx` | drivers/panel-hx83121a/dsi_host.c:1456-1499 | copies exactly what is new of the registers; between 0 and 13 repeated bytes are skipped |
| `LongRead.Host.FirstPass` | drivers/panel-hx83121a/dsi_host.c:2253-2263 | a first reply shorter than the registers lands at their end |
| `LongRead.Host.LaterPass` | drivers/panel-hx83121a/dsi_host.c:2260-2286 | a later pass puts the new tail right behind what was there |
| `LongRead.Host.Advance` | drivers/panel-hx83121a/dsi_host.c:2268-2286 | pass k + 1 starts at offset 14 * k, and the last pass is the one that is counted |
| `LongRead.Host.ReadPasses` | drivers/panel-hx83121a/dsi_host.c:2215-2298 | the passes end, and leave the reply stitched together, or the first failing pass decides the result |
| `LongRead.Host.Deliver` | drivers/panel-hx83121a/dsi_host.c:1360-1399 | hands on the payload behind the header, or one or two short parameters, by packet type |
| `LongRead.Host.CmdRx` | drivers/panel-hx83121a/dsi_host.c:2188-2324 | a long read delivers exactly the payload bytes asked for; packets of other kinds, short answers, short reads, refused lengths and failed transmissions give the stated code and leave the rest of the buffer alone |
| `Sideband.StepKeepsInv` | drivers/gaokun-ec/ucsi_huawei_gaokun.c:400-751 | every step of every interleaving keeps: pending bits and queued works name ports, each pending bit has its work queued, about to be, or just started |
| `SidebandPass.DecodesFields` | drivers/gaokun-ec/ucsi_huawei_gaokun.c:230-288 | the byte of a port read as orientation and mux, and when that means disconnected |
| `SidebandPass.RefreshesNamedPorts` | drivers/gaokun-ec/ucsi_huawei_gaokun.c:298-329 | a refresh changes the registered ports it names, and no others |
| `SidebandPass.InfersExactly` | drivers/gaokun-ec/ucsi_huawei_gaokun.c:441-456 | a USB event that names no port completes a follow-up if and only if it is the only one pending, or that of the newest connector event |
| `SidebandPass.CompletesExactly` | drivers/gaokun-ec/ucsi_huawei_gaokun.c:597-602 | what a pass behind a USB event completes: the ports it named, else what it infers |
| `SidebandPass.OlderFollowUpStays` | drivers/gaokun-ec/ucsi_huawei_gaokun.c:597-602 | with two follow-ups pending, a pass that named no port leaves that of the older event alone |
| `SidebandPass.LastIsNewest` | drivers/gaokun-ec/ucsi_huawei_gaokun.c:709-745 | over every run the remembered connector is that of the newest event noted |
| `SidebandPass.UsbTakenExactlyWhen` | drivers/gaokun-ec/ucsi_huawei_gaokun.c:658-688 | over every run an idle notifier looks at a USB event if and only if a connector event was noted before, a follow-up is pending or some port runs DisplayPort |
| `Sideband.LogAfterAck` | drivers/gaokun-ec/ucsi_huawei_gaokun.c:473-500 | a port acknowledged by itself was refreshed and had its altmode handled in the same pass |
| `Sideband.ChargeLostExactlyByDrop` | drivers/gaokun-ec/ucsi_huawei_gaokun.c:519-751 | an unanswered event that somebody is in charge of is left to nobody exactly when the deferred worker clears its follow-up before the follow-up work took it, or the follow-up work gives up and no other follow-up is armed or about to be |
| `Sideband.TrackedExactlyUnlessDropped` | drivers/gaokun-ec/ucsi_huawei_gaokun.c:519-751 | a step keeps somebody in charge of every unanswered event if and only if it drops none of them in one of these two ways |
| `Sideband.EveryRun` | drivers/gaokun-ec/ucsi_huawei_gaokun.c:552-751 | the invariant over every run, and somebody in charge of every unanswered event in a run without such drops |
| `Sideband.OwedIsQueued` | drivers/gaokun-ec/ucsi_huawei_gaokun.c:690-751 | with notifier and follow-up work idle, an event that somebody is in charge of has its follow-up queued |
| `SidebandProgress.EveryStepAdvances` | drivers/gaokun-ec/ucsi_huawei_gaokun.c:552-751 | whatever the controller answers and whoever moves, the refresh owed to an event is never put further off, and each step of the context in charge brings it strictly closer, unless the step drops the event or a new one arrives on the port |
| `SidebandProgress.AnsweredInTime` | drivers/gaokun-ec/ucsi_huawei_gaokun.c:552-751 | an event that is not dropped does not outlive more turns of the contexts in charge of it than its rank: somebody refreshes |
| `SidebandProgress.IdleAgainMeansAnswered` | drivers/gaokun-ec/ucsi_huawei_gaokun.c:690-707 | when its follow-up work started, or was bound to refresh, and has run back to idle without dropping it, somebody has refreshed since the event |
| `SidebandProgress.PlacedEverywhere` | drivers/gaokun-ec/ucsi_huawei_gaokun.c:400-472 | in every reachable state the lock is held exactly by the one context that refreshes |
| `SidebandProgress.LockComesFree` | drivers/gaokun-ec/ucsi_huawei_gaokun.c:400-472 | whoever holds the lock can release it |
| `SidebandProgress.MovesOrWaits` | drivers/gaokun-ec/ucsi_huawei_gaokun.c:552-751 | the context in charge of an unanswered event can move, or waits for the lock |
| `SidebandRest.UnansweredForGoodExactlyWhen` | drivers/gaokun-ec/ucsi_huawei_gaokun.c:400-751 | in every state of every run, an unanswered event can stay so until the system is at rest if and only if nobody but the core holds the lock, no pass is refreshing, waiting or queued, and every follow-up taken, armed or about to be armed finds its port disconnected or can still be cleared by the deferred worker |
| `SidebandRest.TrylockDecides` | drivers/gaokun-ec/ucsi_huawei_gaokun.c:519-540 | right after an event, the attempt at the lock decides: once the notifier has it, or missed it because of another refresh, the system does not rest before somebody refreshes; after it missed it because of the core, exactly that condition decides |
| `SidebandRest.SnapshotAnswersAtOnce` | drivers/gaokun-ec/ucsi_huawei_gaokun.c:519-540 | a notifier that got the lock refreshes with its next step |
| `SidebandRest.UnansweredWasMissed` | drivers/gaokun-ec/ucsi_huawei_gaokun.c:519-540 | every event unanswered in a state from which the system can rest missed its snapshot because of the core, under that condition, and nobody refreshed since |
| `SidebandLoss.OwedMeansUnanswered` | drivers/gaokun-ec/ucsi_huawei_gaokun.c:690-751 | unanswered means: the run has a connector event on the port after which nobody tried to refresh |
| `SidebandLoss.GivesUpOnOldSnapshot` | drivers/gaokun-ec/ucsi_huawei_gaokun.c:690-707 | a follow-up work that gives up on an unanswered event judges by the snapshot held when the event arrived |
| `SidebandLoss.LostStaysLost` | drivers/gaokun-ec/ucsi_huawei_gaokun.c:519-751 | nobody takes a dropped event up again, short of a new event on the port or a refresh somebody makes for another reason |
| `SidebandLoss.StaleCompletionLosesAnEvent` | drivers/gaokun-ec/ucsi_huawei_gaokun.c:519-618 | a run from start-up in which no follow-up work gives up, and which ends with every context idle, nothing queued, and no refresh after the event |
| `SidebandLoss.BlindGiveUpLosesAnEvent` | drivers/gaokun-ec/ucsi_huawei_gaokun.c:690-707 | another one in which no pass completes a follow-up: the event behind the lock of the core is dropped by its own follow-up work |

## Left out

- Baseline.Baseline.QualifyWakeFrame: the statement about the whole window assumes that no live frame was processed since the window began (`intact`); `Baseline.LiveFrameShortensTheWindow` shows why. The caller runs wake frames before live frames.
- LongRead.Host.CmdRx: exact delivery assumes that the panel answers every request with the leading part of one payload at least as long as the read, and that the host clears its read-back registers; older hosts do not.
- Sideband.EveryRun: starts after registration; the branch that acknowledges everything before registration, the two second delay and the grace period after a connector event are not modelled (a late USB event may be looked at whenever one came before).
- Sideband.StepKeepsInv: reading the controller, acknowledging, reading the pending bits of all ports (with the last connector, to infer what a pass completes), and judging a USB event are single steps; a failed acknowledgement is only logged by the driver and is not distinguished.
- Settling.SettlesExactlyWhen: the condition is exact for grids at or below the sample; for grids on both sides of it `Settling.NarrowStartSettles` gives a sufficient one. A track that stays alive counts as touch and is excluded.
- StarvedContact.NewcomersStarveAContact: is about what the tracker is given; identity tracking hands a name on to a peak near its last place, so that newcomers come with new names is an assumption on where they appear.
- PeakFinder.RejectPalms: the palm score is a parameter; any verdict is allowed. Palm boxes are parameters of `PeakTable.PeakTable.Detect`; how they age and merge is not modelled.
- PeakTable.PeakTable.Detect: the pressure-drift test is a parameter, a set of cells it rejects.
- Baseline.Baseline.ProcessLive: whether a track is active is a parameter.
- Tracker.Tracker.ProcessFrame: whether two frames carry one finger is not a notion here; only the slots are.
- Resolver.Resolver.Resolve: nothing is claimed about the final owner map; a later peak may take over the cell of an earlier one.
- Edge boost, common-mode filter per row and column, temporal filter: numeric heuristics between baseline and detection.
- `hx_algo_is_exception_frame` and runtime reset policy.
- SPI, I2C and GPIO transport, register tables, reset sequences, interrupt and recovery flags: hardware access without device semantics in the source.
- Attributes, diagnostics and the trace ring; the diagnostics configuration is off.
- The rest of `dsi_host.c` (clocks, compression, power, interrupts) and the panel driver.
- Battery, keyboard and sensor parts of the embedded controller driver, and the altmode multiplexer states.
- Device trees, packaging, scripts and user interface tools.
