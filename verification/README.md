# Verified model of the robot workspace

A Dafny model of the logic of a ROS 2 robot workspace and proofs about it. The workspace navigates
a wheeled robot with a layered costmap and a collision monitor, corrects its map pose from images,
feeds a visual-inertial tracker, records image datasets for reconstruction, and drives the wheels.
The model covers the parts whose behaviour is decided by code of the workspace itself:

- **Obstacle inflation** (`DistanceRanks`, `NearestSeeds`, `Wavefront`, `InflationLayer`,
  `InflationTheorems`, `InflationValues`, `InflationExample`): a bucket-queue wavefront over a flat grid,
  ordered by an integer rank table instead of distances. What each reached cell ends as is stated in
  numbers. For any number of obstacles the update is proved sound, and proved exact under a condition on
  the map that is also necessary where no two obstacles are equally near.
- **Costmap grid** (`GridMath`, `Costmap2D`, `CostmapTheorems`, `ConvexFill`): the rolling-window
  shift over whole runs, world and map coordinates, Bresenham outlines, a backtracking sort and a
  column fill that appends to the vector it walks.
- **Collision monitor** (`PointInPolygon`, `CollisionMonitor`, `ZoneMotion`): ray crossing and its
  geometric meaning, forward simulation and the motion it stands for, the choice of the safest action,
  and when stops are published.
- **Image and IMU synchroniser** (`MonoInertial`, `MonoInertialTheorems`, `MonoImages`): two producers
  and one consumer, for every interleaving, from the samples' side and from the images'.
- **Capture pipeline** (`CameraContract`, `CaptureClock`, `Dataset`, `FrameThinning`, `ImageWriter`,
  `Recorder`, `RecorderTheorems`, `RecorderSelection`, `RecorderExample`, `CheckDataset`): frame
  selection, the capture's clock, the bounded writer thread, the recorder's callbacks and shutdown, and
  the independent checker. A complete recording holds the frames the thinning rule selects.
  What the recorder marks complete the checker accepts, for every interleaving, up to one exception that
  is stated exactly.
- **Pose export** (`TransformTables`, `FramePath`, `PoseComposition`, `PoseExport`): transform tables
  with conflict tracking, the path between two frames, bracketed interpolation, the camera's pose, and
  the report.
- **Map-to-odom algebra** (`HlocTransform`): quaternions, rigid transforms, and the chain that turns a
  measured camera pose into a frame correction.
- **Wheel hardware** (`DiffBotSystem`, `DiffBotTheorems`, `DiffBotHistory`, `DiffBotExample`): the
  watchdog with its latched fault, over runs from the initial state and told by their events alone.
- **Descriptor cache, correspondences and parallel filter** (`DescriptorCache`, `Correspondences`,
  `ParallelFilter`): fast forms that agree with simple ones.

Objects that the source updates in place are classes here; their methods are proved against pure
functions of the old state, and the theorems are about those functions. Protocols between threads
are state machines whose steps are the source's atomic sections; a run is any sequence of enabled
steps. Numbers that the source keeps as floating point are reals. The files check together with
`dafny verify dfyconfig.toml`.

## Conventions and assumptions

- Distances in the inflation layer are stored squared and compared with the squared radius, which
  orders them as the source's `hypot` does; the exponential branch of the cost is a parameter, a
  function of the squared distance. `CostModelFalls` takes that branch as the source writes it and
  assumes only that the exponential is positive, never falls, and is 1 at zero.
- The cosine and sine of the forward simulation and the square root are parameters. Of the former only the
  theorems on turning assume anything, namely the angle-addition laws, and that they start at 1 and 0 and
  lie on the unit circle; of the latter only that for `x >= 0` its square is `x` and it is not negative.
- The threshold of the obstacle filter, a sine computed from the largest slope, is an input.
- `std::sort`, `sorted` and set iteration may leave equal or unordered elements in any order; no proof
  depends on it.
- Clocks, failing file operations, the tracker, descriptor matching, transform lookup and message
  arrival are inputs, arbitrary unless stated.
- In the capture pipeline, conversion to `bgr8` keeps an image's size, an encoded PNG decodes to that
  size, and a calibration read back from its JSON file equals the one written. `str()` of an
  exception is one of the pipeline's own messages or any other text, possibly empty.
- The wheel hardware file holds two versions of its class between merge markers; the model follows
  the side labelled `feature/hloc-nav2-integration`.

## Where the code differs from what one might expect

- Inflation with several obstacles can miss a cell within the radius: a cell keeps the one source it was
  first reached from, and an obstacle's wave can be cut off by cells that belong to others.
  `SeveralSeedsMissACell` gives a map where that happens, `ExactExactly` the condition under which it
  does not, `IsolatedSeedExact` a simple case of it, and `MultiSeedSound` what holds in any case.
- Tracked image times can run backwards if an image with a negative stamp was tracked before:
  `TrackedTimesIncreaseExactly` gives the condition.
- An empty `capture_failure.json` counts as no error when the recorder writes the session status, and
  the checker still rejects the directory: `VerdictsAgreeExactly` and `EmptyFailureFileGoesUnnoticed`.
- The wheel position exposed after activation may already include a jump accumulated since the last
  state before activation: `BoundedSinceActivationExactly`, and `JumpFromBeforeActivation` for a run.
- A collision zone counts as full at its point limit when it is first tested, and only above the limit
  during the simulation: `GetCollisionTime` states both.
- The sequential obstacle filter leaves the width and height of its cloud at zero where the parallel one
  sets them; the point lists agree.

## Model

| member | source | states |
|---|---|---|
| DistanceRanks.GenerateIntegerDistances | src/external/navigation2-humble/nav2_costmap_2d/plugins/inflation_layer.cpp:390-428 | the table ranks any two offsets of the circle as their squared distances do, from 0 at the origin up to the returned level, whatever order the sort leaves equal distances in |
| DistanceRanks.SortedCircle | src/external/navigation2-humble/nav2_costmap_2d/plugins/inflation_layer.cpp:394-407 | the sorted list holds exactly the offsets of the circle, in order of distance |
| DistanceRanks.SortByNorm | src/external/navigation2-humble/nav2_costmap_2d/plugins/inflation_layer.cpp:404-407 | a permutation of its input, sorted by squared distance |
| DistanceRanks.RankOneMore | src/external/navigation2-humble/nav2_costmap_2d/plugins/inflation_layer.cpp:409-425 | giving the next point the running level, raised exactly when its distance is new, keeps ranks ordered as distances |
| DistanceRanks.RanksCoverCircle | src/external/navigation2-humble/nav2_costmap_2d/plugins/inflation_layer.cpp:409-428 | once every sorted point is ranked, the table orders the whole circle and starts at 0 |
| InflationLayer.FillTable | src/external/navigation2-humble/nav2_costmap_2d/plugins/inflation_layer.cpp:360-383 | a doubly nested fill leaves the given function at every entry |
| InflationLayer.InflationLayer.MatchSize | src/external/navigation2-humble/nav2_costmap_2d/plugins/inflation_layer.cpp:120-129 | radius adopted, tables rebuilt, one unseen flag for each cell |
| InflationLayer.InflationLayer.ComputeCaches | src/external/navigation2-humble/nav2_costmap_2d/plugins/inflation_layer.cpp:352-388 | afterwards every table agrees with the radius and the cost model, including a distance table kept from an earlier call with the same radius |
| InflationLayer.InflationLayer.DistanceLookup | src/external/navigation2-humble/nav2_costmap_2d/include/nav2_costmap_2d/inflation_layer.hpp:189-196 | reads the squared distance between cell and seed for every direction |
| InflationLayer.InflationLayer.CostLookup | src/external/navigation2-humble/nav2_costmap_2d/include/nav2_costmap_2d/inflation_layer.hpp:206-213 | reads the cost of that distance |
| InflationLayer.InflationLayer.Enqueue | src/external/navigation2-humble/nav2_costmap_2d/plugins/inflation_layer.cpp:328-350 | the entry goes to the bucket of its distance rank, in range, exactly if it was unseen and within the radius |
| InflationLayer.InflationLayer.ScanSeeds | src/external/navigation2-humble/nav2_costmap_2d/plugins/inflation_layer.cpp:241-260 | lists exactly the lethal (and, if asked, unknown) cells of the window, each its own source |
| InflationLayer.InflationLayer.WriteCost | src/external/navigation2-humble/nav2_costmap_2d/plugins/inflation_layer.cpp:284-298 | inside the box a known cell ends as the larger of its cost and the inflation cost at the seed's true distance, and an unknown one takes that cost if it is worth knowing; outside the box nothing changes |
| InflationLayer.InflationLayer.EnqueueNeighbours | src/external/navigation2-humble/nav2_costmap_2d/plugins/inflation_layer.cpp:300-313 | the four neighbours that exist, no wrap at the map's border |
| InflationLayer.InflationLayer.WalkBucket | src/external/navigation2-humble/nav2_costmap_2d/plugins/inflation_layer.cpp:264-315 | walking one bucket by index while later buckets grow: each cell is visited once and the wave invariant holds for the next bucket |
| InflationLayer.InflationLayer.Sweep | src/external/navigation2-humble/nav2_costmap_2d/plugins/inflation_layer.cpp:218-316 | every visited cell is charged to a real seed within the radius and was reached from a neighbour of the same source closer to it, every seed and every cell a chain joins to a seed is reached, no cell twice, and the map is the blend of those costs inside the box and unchanged outside |
| InflationLayer.InflationLayer.UpdateCosts | src/external/navigation2-humble/nav2_costmap_2d/plugins/inflation_layer.cpp:189-317 | the same for the whole call, with every charged cell of the box inflated by the cost of its distance and no other cell changed; nothing at all when disabled or with radius 0; and buckets left empty for the next call |
| Wavefront.VisitKeepsInv | src/external/navigation2-humble/nav2_costmap_2d/plugins/inflation_layer.cpp:264-315 | a first visit with its four enqueues keeps: entries sit in the bucket of their distance and beside a visited cell of their source, sources are seeds, and every reachable frontier cell is queued |
| Wavefront.SpreadLeavesBucket | src/external/navigation2-humble/nav2_costmap_2d/plugins/inflation_layer.cpp:264-315 | visiting never adds to the bucket being walked, so the walk by index ends |
| Wavefront.SettleNext | src/external/navigation2-humble/nav2_costmap_2d/plugins/inflation_layer.cpp:262-315 | once a bucket is done, every cell of its rank that a chain joins to a seed has been charged for that distance or less, whatever other seeds there are |
| Wavefront.NeighbourLevels | src/external/navigation2-humble/nav2_costmap_2d/plugins/inflation_layer.cpp:300-313 | a neighbour's distance to the same source never has the cell's own rank |
| Wavefront.FatherIsCloser | src/external/navigation2-humble/nav2_costmap_2d/plugins/inflation_layer.cpp:264-315 | a cell visited in its turn lies strictly farther out than the neighbour it was reached from |
| Wavefront.VisitKeepsProgress | src/external/navigation2-humble/nav2_costmap_2d/plugins/inflation_layer.cpp:264-315 | a visit in the bucket being walked undoes nothing that is settled and keeps every visited cell's way back to its source |
| NearestSeeds.IsolatedOwnsDisc | src/external/navigation2-humble/nav2_costmap_2d/plugins/inflation_layer.cpp:264-313 | if all other seeds are more than two radii away, a seed is strictly the nearest of every cell in its disc |
| NearestSeeds.IsolatedChains | src/external/navigation2-humble/nav2_costmap_2d/plugins/inflation_layer.cpp:300-313 | and every cell of that disc can be reached from it by four-neighbour steps over such cells |
| NearestSeeds.LinkedChains | src/external/navigation2-humble/nav2_costmap_2d/plugins/inflation_layer.cpp:300-313 | where each cell has one step toward its nearest seed onto a cell of that seed, the steps join into a chain |
| InflationTheorems.ChainedIsExact | src/external/navigation2-humble/nav2_costmap_2d/plugins/inflation_layer.cpp:222-309 | any number of seeds: a cell that a chain joins to a nearest seed within the radius is charged for its true distance, and inside the box holds exactly the inflation of it |
| InflationTheorems.IsolatedSeedExact | src/external/navigation2-humble/nav2_costmap_2d/plugins/inflation_layer.cpp:222-309 | an isolated seed, among any others, is the source of precisely the cells of its disc, each with the cost of its true distance |
| InflationTheorems.SingleSeedExact | src/external/navigation2-humble/nav2_costmap_2d/plugins/inflation_layer.cpp:222-309 | with one seed exactly the cells within the radius are reached and each cell of the box gets the cost of its true distance; all others keep their value |
| InflationTheorems.ExactWhenLinked | src/external/navigation2-humble/nav2_costmap_2d/plugins/inflation_layer.cpp:222-309 | if every cell within the radius is linked to a nearest seed, the whole box holds the inflation of each cell's nearest seed, ties included |
| InflationTheorems.LinkedWhenExact | src/external/navigation2-humble/nav2_costmap_2d/plugins/inflation_layer.cpp:222-309 | conversely, without ties, an update that charges every cell for its true distance only happens on a map that links them all |
| InflationTheorems.ExactExactly | src/external/navigation2-humble/nav2_costmap_2d/plugins/inflation_layer.cpp:222-309 | without ties, the update charges every cell within the radius for its true distance exactly if each such cell is a seed or has a neighbour, closer to its nearest seed, with the same strictly nearest seed: a condition on the map before the call |
| InflationExample.SeveralSeedsMissACell | src/external/navigation2-humble/nav2_costmap_2d/plugins/inflation_layer.cpp:264-313 | three obstacles on a six by seven map with radius five: a corner at distance five from one of them is never reached and keeps its value, whatever the settings and the order of equal distances |
| InflationTheorems.WindowCatchesSeeds | src/external/navigation2-humble/nav2_costmap_2d/plugins/inflation_layer.cpp:222-239 | growing the box by the radius misses no seed that could reach it |
| InflationTheorems.BoxedUpdateIsRestriction | src/external/navigation2-humble/nav2_costmap_2d/plugins/inflation_layer.cpp:222-309 | with any number of obstacles, as long as a chain joins each cell of the box to a nearest one, updating the box equals updating the whole map restricted to the box |
| InflationTheorems.IsolatedBoxIsChained | src/external/navigation2-humble/nav2_costmap_2d/plugins/inflation_layer.cpp:222-309 | pairwise isolated obstacles, such as a single one, meet that condition for every box |
| InflationTheorems.CostModelFalls | src/external/navigation2-humble/nav2_costmap_2d/include/nav2_costmap_2d/inflation_layer.hpp:148-161 | the cost never rises with distance, over all three branches, for any exponential that rises through 1 at zero and any square root |
| InflationTheorems.MultiSeedSound | src/external/navigation2-humble/nav2_costmap_2d/plugins/inflation_layer.cpp:241-309 | with any seeds: cells outside the box or beyond the radius of every seed are unchanged, recorded sources are seeds within the radius, nothing is lowered, nothing exceeds the inflation of its true nearest seed |
| InflationValues.CellsAfterUpdate | src/external/navigation2-humble/nav2_costmap_2d/plugins/inflation_layer.cpp:275-293 | the number in every cell: one of the box charged to a seed holds the larger of its prior and the cost of its distance from it, 254 at distance zero, 253 up to the inscribed radius and beyond it 252 times the exponential rounded down; an unknown one takes that cost if it is positive, or at least 253, as configured; every other cell is as before |
| InflationValues.SeedsExactly | src/external/navigation2-humble/nav2_costmap_2d/plugins/inflation_layer.cpp:222-251 | an update starts from exactly the lethal and, if asked, the unknown cells of the map no farther from the box than the radius along either axis |
| InflationValues.NearObstacleIsMarked | src/external/navigation2-humble/nav2_costmap_2d/plugins/inflation_layer.cpp:222-309 | where a chain reaches, no known cell of the box within the inscribed radius of a lethal cell stays below 253 |
| Costmap2D.WorldToMapExact | src/external/navigation2-humble/nav2_costmap_2d/src/costmap_2d.cpp:287-300 | a world point maps to a cell exactly if it lies in the window, and then to the cell that contains it |
| Costmap2D.MapWorldRoundTrip | src/external/navigation2-humble/nav2_costmap_2d/src/costmap_2d.cpp:281-300 | mapping a cell to its centre and back gives the cell |
| Costmap2D.CentreInCell | src/external/navigation2-humble/nav2_costmap_2d/src/costmap_2d.cpp:281-285 | the world point of a cell lies in it, as far from one side as from the other |
| Costmap2D.CopyMapRegion | src/external/navigation2-humble/nav2_costmap_2d/include/nav2_costmap_2d/costmap_2d.hpp:382-400 | row by row: the target region equals the source region and nothing else changes |
| Costmap2D.SaveResetRestoreShifts | src/external/navigation2-humble/nav2_costmap_2d/src/costmap_2d.cpp:355-383 | save the overlap, reset, write it back at the moved position: together a shift by any amount, also negative or larger than the map |
| Costmap2D.Costmap2D.ResetMaps | src/external/navigation2-humble/nav2_costmap_2d/src/costmap_2d.cpp:124-128 | every cell holds the default |
| Costmap2D.Costmap2D.UpdateOrigin | src/external/navigation2-humble/nav2_costmap_2d/src/costmap_2d.cpp:330-384 | the origin moves by whole cells toward the target, not past it and less than one cell short of it, and each cell holds the old cost of the same world cell, or the default if that was outside |
| Costmap2D.Costmap2D.SetConvexPolygonCost | src/external/navigation2-humble/nav2_costmap_2d/src/costmap_2d.cpp:386-413 | false without any change if a vertex is off the map; otherwise exactly the filled cells get the cost |
| CostmapTheorems.WindowFollowsTarget | src/external/navigation2-humble/nav2_costmap_2d/src/costmap_2d.cpp:330-384 | an update moves the window by whole cells from the old origin toward the target, never past it, and stops less than one cell away along either axis, also for negative moves; the cells shift by just that move |
| CostmapTheorems.MoveIsUnique | src/external/navigation2-humble/nav2_costmap_2d/src/costmap_2d.cpp:334-339 | which leaves one place where the window can go |
| CostmapTheorems.RunKeepsWorldCells | src/external/navigation2-humble/nav2_costmap_2d/src/costmap_2d.cpp:330-384 | over any run of updates a cell holds the original value of the world cell with the same centre exactly if it stayed inside every window, and the default otherwise |
| CostmapTheorems.RunCentres | src/external/navigation2-humble/nav2_costmap_2d/src/costmap_2d.cpp:281-285 | world centres are kept by any run, also for cells outside the map |
| CostmapTheorems.WorldPointKeepsCost | src/external/navigation2-humble/nav2_costmap_2d/src/costmap_2d.cpp:281-384 | a world point inside the window before and after an update reads the same cost |
| ConvexFill.Bresenham2D | src/external/navigation2-humble/nav2_costmap_2d/include/nav2_costmap_2d/costmap_2d.hpp:490-508 | one cell for each step along the dominant axis from the start, touching neighbours, never more than half a cell off the straight line; up to the far end, or cut off after the maximum length |
| ConvexFill.RaytraceLine | src/external/navigation2-humble/nav2_costmap_2d/include/nav2_costmap_2d/costmap_2d.hpp:430-483 | with the default lengths, a whole such line between any two cells of the map, in all octants |
| ConvexFill.PolygonOutlineCells | src/external/navigation2-humble/nav2_costmap_2d/src/costmap_2d.cpp:415-430 | one traced segment for each edge, in order, the last one closing the polygon |
| ConvexFill.OutlineCloses | src/external/navigation2-humble/nav2_costmap_2d/src/costmap_2d.cpp:415-430 | the outline is a closed walk in unit steps |
| ConvexFill.ExtremeColumnHasTwo | src/external/navigation2-humble/nav2_costmap_2d/src/costmap_2d.cpp:415-430 | a closed outline has two entries in its leftmost and rightmost column |
| ConvexFill.WalkCrosses | src/external/navigation2-humble/nav2_costmap_2d/src/costmap_2d.cpp:415-430 | a walk in unit steps meets every column between two of its cells |
| ConvexFill.OutlineHasTwoPerColumn | src/external/navigation2-humble/nav2_costmap_2d/src/costmap_2d.cpp:459-499 | every column between the extremes has at least two outline entries, as the fill loop assumes |
| ConvexFill.SwapRemovesInversion | src/external/navigation2-humble/nav2_costmap_2d/src/costmap_2d.cpp:443-457 | each exchange of the backtracking sort removes exactly one inversion |
| ConvexFill.SortByColumn | src/external/navigation2-humble/nav2_costmap_2d/src/costmap_2d.cpp:443-457 | the sort ends and leaves a permutation sorted by column |
| ConvexFill.ScanColumn | src/external/navigation2-humble/nav2_costmap_2d/src/costmap_2d.cpp:467-489 | finds the lowest and highest cell of the column and the start of the next, in a vector that grows meanwhile |
| ConvexFill.FillColumns | src/external/navigation2-humble/nav2_costmap_2d/src/costmap_2d.cpp:459-499 | appends exactly the cells between each column's lowest and highest cell |
| ConvexFill.ConvexFillCells | src/external/navigation2-humble/nav2_costmap_2d/src/costmap_2d.cpp:432-499 | the result is the outline, permuted, and every cell between two outline cells of its column; nothing for fewer than three vertices |
| PointInPolygon.EdgeCrosses | src/external/navigation2-humble/nav2_collision_monitor/src/polygon.cpp:399-412 | the answer is the crossing of the ray, and an edge that passes the comparison has a divisor that is not zero |
| PointInPolygon.IsPointInside | src/external/navigation2-humble/nav2_collision_monitor/src/polygon.cpp:387-417 | the loop computes the parity of the crossed edges of the closed polygon |
| PointInPolygon.CrossesByOrientation | src/external/navigation2-humble/nav2_collision_monitor/src/polygon.cpp:399-412 | an edge is crossed exactly if its ends straddle the ray and the point lies on the inner side, by the sign of an area |
| PointInPolygon.CrossesSymmetric | src/external/navigation2-humble/nav2_collision_monitor/src/polygon.cpp:399-412 | swapping an edge's ends changes nothing |
| PointInPolygon.InsideRotates | src/external/navigation2-humble/nav2_collision_monitor/src/polygon.cpp:387-417 | the answer does not depend on which vertex comes first |
| PointInPolygon.InsideReversed | src/external/navigation2-humble/nav2_collision_monitor/src/polygon.cpp:387-417 | nor on the direction of the vertex list |
| PointInPolygon.InsideAdditive | src/external/navigation2-humble/nav2_collision_monitor/src/polygon.cpp:387-417 | cut along any diagonal, a point is inside the whole exactly if it is inside exactly one of the parts |
| PointInPolygon.TriangleExact | src/external/navigation2-humble/nav2_collision_monitor/src/polygon.cpp:387-417 | for a triangle and a point off its edge lines the test answers strictly inside |
| PointInPolygon.InsideIsOddFan | src/external/navigation2-humble/nav2_collision_monitor/src/polygon.cpp:387-417 | for any polygon the test answers whether the point is in an odd number of the triangles fanned from a vertex |
| CollisionMonitor.GetPointsInside | src/external/navigation2-humble/nav2_collision_monitor/src/polygon.cpp:164-173 | counts the points inside |
| ZoneMotion.MotionExactly | src/external/navigation2-humble/nav2_collision_monitor/src/kinematics.cpp:44-68 | after k simulation steps the heading is k times the turn of one, the velocity is the commanded one turned by it, and the pose is where those steps lead |
| ZoneMotion.MotionInNumbers | src/external/navigation2-humble/nav2_collision_monitor/src/kinematics.cpp:44-68 | each of those steps adds to the pose the velocity turned by the heading so far, times the step |
| ZoneMotion.TransformInverts | src/external/navigation2-humble/nav2_collision_monitor/src/kinematics.cpp:22-42 | transforming a point into the robot's frame undoes placing it by the robot's pose, and the other way round |
| ZoneMotion.SimulationCountsZone | src/external/navigation2-humble/nav2_collision_monitor/src/polygon.cpp:191-205 | a simulation step counts exactly the obstacle points inside the zone placed at the pose reached, for any rotation |
| ZoneMotion.InsideMoves | src/external/navigation2-humble/nav2_collision_monitor/src/polygon.cpp:387-417 | a point is inside a moved polygon exactly if, moved back, it is inside the polygon |
| ZoneMotion.StraightCounts | src/external/navigation2-humble/nav2_collision_monitor/src/polygon.cpp:191-205 | without rotation step k counts exactly the points inside the zone moved by k + 1 steps of the velocity |
| ZoneMotion.StraightCollisionTime | src/external/navigation2-humble/nav2_collision_monitor/src/polygon.cpp:175-208 | the time reported for a robot driving straight, in terms of the moved zone: zero if the limit is already reached, else the first step up to the horizon that ends with more than the limit, else -1 |
| CollisionMonitor.GetCollisionTime | src/external/navigation2-humble/nav2_collision_monitor/src/polygon.cpp:175-208 | 0 if the zone is already full, else the first simulated time with more than the limit, else -1; the loop ends |
| CollisionMonitor.CollisionTimeRange | src/external/navigation2-humble/nav2_collision_monitor/src/polygon.cpp:175-208 | a reported time lies in the simulated horizon |
| CollisionMonitor.CollisionTimeUnique | src/external/navigation2-humble/nav2_collision_monitor/src/polygon.cpp:175-208 | the reported time is determined by the scene |
| CollisionMonitor.ProcessStopSlowdown | src/external/navigation2-humble/nav2_collision_monitor/src/collision_monitor_node.cpp:405-432 | the next action of a stop or slowdown zone, case by case |
| CollisionMonitor.ProcessApproach | src/external/navigation2-humble/nav2_collision_monitor/src/collision_monitor_node.cpp:434-458 | the next action of an approach zone, from the reported collision time |
| CollisionMonitor.ApproachRatio | src/external/navigation2-humble/nav2_collision_monitor/src/collision_monitor_node.cpp:434-458 | the ratio an approach zone scales by lies between 0 and 1 |
| CollisionMonitor.ChooseAction | src/external/navigation2-humble/nav2_collision_monitor/src/collision_monitor_node.cpp:363-389 | stop with zero velocity exactly if some enabled stop zone is triggered; otherwise the least of the input and all demands, and one of them |
| CollisionMonitor.OrderIrrelevant | src/external/navigation2-humble/nav2_collision_monitor/src/collision_monitor_node.cpp:363-389 | stopping and the resulting speed do not depend on the order or repetition of the zones |
| ZoneMotion.ActionMeans | src/external/navigation2-humble/nav2_collision_monitor/src/collision_monitor_node.cpp:363-458 | what the chosen action does to each component: zero exactly for a triggered stop zone, the command times the ratio of some triggered slowdown zone, the command times time over horizon of some approach zone, or the command itself |
| ZoneMotion.ActionIsSafest | src/external/navigation2-humble/nav2_collision_monitor/src/collision_monitor_node.cpp:363-458 | over all three components the action is no faster than the command, nor than what any triggered zone asks for |
| CollisionMonitor.CollisionMonitor.Process | src/external/navigation2-humble/nav2_collision_monitor/src/collision_monitor_node.cpp:343-403 | one command: the safest action, remembered, and published unless a stop has lasted past the timeout; nothing while inactive |
| CollisionMonitor.CollisionMonitor.PublishVelocity | src/external/navigation2-humble/nav2_collision_monitor/src/collision_monitor_node.cpp:160-181 | when a command is published, and when the stop stamp moves |
| CollisionMonitor.CollisionMonitor.Deactivate | src/external/navigation2-humble/nav2_collision_monitor/src/collision_monitor_node.cpp:99-122 | inactive, and the remembered action reset, so the next stop is published again |
| CollisionMonitor.CollisionMonitor.Activate | src/external/navigation2-humble/nav2_collision_monitor/src/collision_monitor_node.cpp:73-97 | active again, with the remembered action and stamp as they are |
| CollisionMonitor.StampIsStopTime | src/external/navigation2-humble/nav2_collision_monitor/src/collision_monitor_node.cpp:160-181 | in every run of commands, activations and deactivations: the remembered action is zero exactly while a stop is in progress, and the stamp is then the time of the command that began it |
| CollisionMonitor.PublicationOverARun | src/external/navigation2-humble/nav2_collision_monitor/src/collision_monitor_node.cpp:73-181 | in every such run, while active: every moving command and the first zero of a stop are published, also after a deactivation, and a later zero exactly while the stop is not older than the timeout |
| MonoInertial.MonoInertialNode.ImageCallback | src/orbslam3_ros2_bridge/src/mono_inertial_node.cpp:105-114 | the image is appended |
| MonoInertial.MonoInertialNode.ImuCallback | src/orbslam3_ros2_bridge/src/mono_inertial_node.cpp:116-125 | the sample is appended |
| MonoInertial.MonoInertialNode.PopBatch | src/orbslam3_ros2_bridge/src/mono_inertial_node.cpp:134-222 | the critical section: the oldest image leaves; if it is not newer than the last tracked one it is dropped, otherwise all samples up to its time leave the buffer and those after the last tracked image form its batch |
| MonoInertial.MonoInertialNode.DropUnconverted | src/orbslam3_ros2_bridge/src/mono_inertial_node.cpp:224-247 | a failed conversion loses the batch and leaves the last tracked time |
| MonoInertial.MonoInertialNode.TrackMonocular | src/orbslam3_ros2_bridge/src/mono_inertial_node.cpp:249-261 | the batch is tracked and its time remembered |
| MonoInertialTheorems.BatchesPartitionTheStream | src/orbslam3_ros2_bridge/src/mono_inertial_node.cpp:105-261 | for every interleaving with increasing sample stamps: finished batches, the one in flight and the waiting samples concatenate to what arrived, and no later sample is early enough for an earlier batch |
| MonoInertialTheorems.TrackedTimesIncrease | src/orbslam3_ros2_bridge/src/mono_inertial_node.cpp:127-261 | tracked image times strictly increase unless a negative stamp defeats the guard |
| MonoInertialTheorems.DefeatedRun | src/orbslam3_ros2_bridge/src/mono_inertial_node.cpp:127-261 | a run that tracks two images out of order, for any image stream that defeats the guard |
| MonoInertialTheorems.TrackedTimesIncreaseExactly | src/orbslam3_ros2_bridge/src/mono_inertial_node.cpp:127-261 | tracked times increase over every run exactly if no image with a negative stamp is followed by one that is not newer |
| MonoImages.DroppedExactly | src/orbslam3_ros2_bridge/src/mono_inertial_node.cpp:134-176 | in every run the worker takes the oldest image exactly when it can, and drops it exactly if the last tracked image has a time that is not negative and the image is not newer |
| MonoImages.BatchExactly | src/orbslam3_ros2_bridge/src/mono_inertial_node.cpp:177-222 | in every run, whatever the stamps: the samples up to the first later than the image leave the buffer, and those newer than the last tracked image form the batch, in order |
| MonoImages.NoImageIsLost | src/orbslam3_ros2_bridge/src/mono_inertial_node.cpp:105-261 | for images none of which comes after one that is not negative and not earlier: those of the finished batches, in flight and waiting are all that arrived, in order |
| MonoImages.StaleImageIsLost | src/orbslam3_ros2_bridge/src/mono_inertial_node.cpp:105-261 | a run that loses an image, for any other stream |
| MonoImages.ImagesKeptExactly | src/orbslam3_ros2_bridge/src/mono_inertial_node.cpp:105-261 | so every run keeps all images exactly for such streams |
| MonoImages.RunsUntilStopped | src/orbslam3_ros2_bridge/src/mono_inertial_node.cpp:127-145 | the worker runs until it is stopped, and takes nothing any more afterwards |
| HlocTransform.MultiplyAssociates | src/hloc_localizer/hloc_localizer/hloc_tf_publisher.py:79-112 | quaternion multiplication is associative |
| HlocTransform.NormMultiplies | src/hloc_localizer/hloc_localizer/hloc_tf_publisher.py:79-112 | the squared norm of a product is the product of the squared norms |
| HlocTransform.RotateComposes | src/hloc_localizer/hloc_localizer/hloc_tf_publisher.py:114-149 | rotating by a product is rotating twice |
| HlocTransform.RotationIsIsometry | src/hloc_localizer/hloc_localizer/hloc_tf_publisher.py:114-149 | rotation by a unit quaternion keeps lengths |
| HlocTransform.RotationIsPure | src/hloc_localizer/hloc_localizer/hloc_tf_publisher.py:114-149 | the rotated vector has no scalar part, which the code drops |
| HlocTransform.NormalizeExact | src/hloc_localizer/hloc_localizer/hloc_tf_publisher.py:35-61 | normalising fails exactly for the zero quaternion |
| HlocTransform.NormalizeProduct | src/hloc_localizer/hloc_localizer/hloc_tf_publisher.py:35-112 | normalising a product is multiplying normalised factors |
| HlocTransform.ComposeExact | src/hloc_localizer/hloc_localizer/hloc_tf_publisher.py:183-227 | the program's composition is composition of the normalised transforms |
| HlocTransform.InvertExact | src/hloc_localizer/hloc_localizer/hloc_tf_publisher.py:151-181 | the program's inverse is the inverse of the normalised transform |
| HlocTransform.ComposeAssociates | src/hloc_localizer/hloc_localizer/hloc_tf_publisher.py:183-227 | composition of unit transforms is associative |
| HlocTransform.RotateIsMatrix | src/hloc_localizer/hloc_localizer/hloc_tf_publisher.py:114-149 | rotating a vector is multiplying it by the quaternion's rotation matrix, entry by entry |
| HlocTransform.ComposeMoves | src/hloc_localizer/hloc_localizer/hloc_tf_publisher.py:183-227 | a composed transform takes a point where the second takes it and then the first |
| HlocTransform.InverseMoves | src/hloc_localizer/hloc_localizer/hloc_tf_publisher.py:151-181 | an inverted transform takes a point back, and the transform takes it forth again |
| HlocTransform.InverseCancels | src/hloc_localizer/hloc_localizer/hloc_tf_publisher.py:151-227 | a unit transform composed with its inverse is the identity, in either order |
| HlocTransform.MapToOdomExact | src/hloc_localizer/hloc_localizer/hloc_tf_publisher.py:430-552 | the chain succeeds exactly if no rotation is the zero quaternion, and following the published transform by odom-to-base and base-to-camera gives the measured pose back, translation and rotation |
| CameraContract.CameraContract.CheckPairNow | src/sfm_capture/sfm_capture/camera_contract.py:37-51 | whether image and calibration fit, with the full-frame rule |
| CameraContract.CameraContract.Observe | src/sfm_capture/sfm_capture/camera_contract.py:11-21 | the image is refused or becomes the signature, then the pair is checked |
| CameraContract.CameraContract.ObserveCalibration | src/sfm_capture/sfm_capture/camera_contract.py:23-35 | the calibration is refused or kept without its stamp, then the pair is checked |
| CameraContract.AcceptsExactlyConsistent | src/sfm_capture/sfm_capture/camera_contract.py:11-51 | a stream of observations is accepted to the end exactly if it is consistent, a condition that does not mention their order |
| Dataset.Dataset.CheckEligible | src/sfm_capture/sfm_capture/dataset.py:56-73 | selection, counting and refusal of one stamp |
| Dataset.Dataset.SaveFrame | src/sfm_capture/sfm_capture/dataset.py:75-101 | what each way of failing leaves on disk, and the file, row and counters of a success |
| Dataset.SavedExactly | src/sfm_capture/sfm_capture/dataset.py:75-101 | a saved frame gets the next number, its file holds the encoded image, each field of its row is that of the frame or of the file, and nothing else changes |
| Dataset.FailedExactly | src/sfm_capture/sfm_capture/dataset.py:75-101 | saving fails exactly for a changed resolution, a leftover temporary file or a failing step; then nothing counts as saved, earlier files and rows stay, and only files with the next number can appear |
| FrameThinning.RefusesExactly | src/sfm_capture/sfm_capture/dataset.py:56-63 | a stream is refused exactly if a stamp is not positive or runs backwards |
| FrameThinning.SelectsExactly | src/sfm_capture/sfm_capture/dataset.py:64-73 | a frame is selected exactly if it is the first or at least the interval after the last selected one |
| FrameThinning.CountersAddUp | src/sfm_capture/sfm_capture/dataset.py:56-73 | received = selected + thinned + duplicates, and duplicates are the stamps equal to the one before |
| FrameThinning.SelectionIsSpaced | src/sfm_capture/sfm_capture/dataset.py:64-73 | the selected stamps are a subsequence with pairwise distance at least the interval |
| FrameThinning.SelectionIsLongest | src/sfm_capture/sfm_capture/dataset.py:64-73 | no other subsequence with that spacing is longer, and none as long ends earlier |
| ImageWriter.ImageWriter.BeginSubmit | src/sfm_capture/sfm_capture/image_writer.py:21-25 | refused once closed or failed |
| ImageWriter.ImageWriter.EndSubmit | src/sfm_capture/sfm_capture/image_writer.py:26-30 | queued, or refused because the queue is full |
| ImageWriter.ImageWriter.TakeNext | src/sfm_capture/sfm_capture/image_writer.py:32-39 | the sentinel stops the worker, frames after an error are discarded |
| ImageWriter.ImageWriter.FinishFrame | src/sfm_capture/sfm_capture/image_writer.py:40-48 | saved, or the error is latched |
| ImageWriter.ImageWriter.EndClose | src/sfm_capture/sfm_capture/image_writer.py:50-56 | after joining, the latched error is raised |
| ImageWriter.SubmitExactly | src/sfm_capture/sfm_capture/image_writer.py:21-30 | an undisturbed submit is accepted exactly while the writer is open, has not failed and has room, and the frame is then last in the queue; otherwise nothing changes and the message names the reason |
| ImageWriter.PeakIsGreatest | src/sfm_capture/sfm_capture/image_writer.py:26-30 | over any run the peak is the greatest queue length read back |
| ImageWriter.LeadsKeepsInv | src/sfm_capture/sfm_capture/image_writer.py:21-56 | every step of every interleaving keeps the accounting of frames and the place of the sentinel |
| ImageWriter.SavedIsAPrefix | src/sfm_capture/sfm_capture/image_writer.py:21-56 | saved frames are a prefix, in order, of the submitted ones; without an error submitted = saved + in flight + queued; the queue keeps its bound |
| ImageWriter.NothingSavedAfterError | src/sfm_capture/sfm_capture/image_writer.py:21-48 | the first error stays and nothing is saved after it |
| ImageWriter.CloseReturnsExactlyWhenAllSaved | src/sfm_capture/sfm_capture/image_writer.py:50-56 | close returns normally exactly if every submitted frame was saved |
| ImageWriter.CloseNeverStuck | src/sfm_capture/sfm_capture/image_writer.py:32-56 | while closing some thread can always move, also with a full queue |
| ImageWriter.CloseTerminates | src/sfm_capture/sfm_capture/image_writer.py:32-56 | closing takes a bounded number of steps and ends joined |
| CheckDataset.CheckRow | src/sfm_capture/sfm_capture/check_dataset.py:31-53 | one manifest row against its place, stamps, file and resolution |
| CheckDataset.ObserveRow | src/sfm_capture/sfm_capture/check_dataset.py:54-55 | one row against the camera contract; a refusal is final |
| CheckDataset.Check | src/sfm_capture/sfm_capture/check_dataset.py:12-66 | accepts exactly the acceptable directories, stated without the loop: contiguous rows, increasing positive stamps that recombine, matching files, one resolution, a consistent contract, no extra file, matching counter |
| CheckDataset.AcceptedStampsIncrease | src/sfm_capture/sfm_capture/check_dataset.py:31-38 | an accepted manifest has strictly increasing positive stamps over any two rows |
| Recorder.Recorder.OnInfo | src/sfm_capture/sfm_capture/recorder.py:67-78 | the calibration callback and its failures |
| Recorder.Recorder.OnImage | src/sfm_capture/sfm_capture/recorder.py:92-113 | the image callback: the frame time is noted, the clock is read, and a warmed-up capture takes the image |
| Recorder.Recorder.TakeImage | src/sfm_capture/sfm_capture/recorder.py:100-110 | contract, zero simulation stamps, selection, and the checks of submit, with every way to fail |
| Recorder.Recorder.Elapsed | src/sfm_capture/sfm_capture/recorder.py:122-133 | the capture's age by wall clock or simulation clock, refused if the latter ran back |
| CaptureClock.ElapsedNeverFalls | src/sfm_capture/sfm_capture/recorder.py:122-133 | over any readings of a simulation clock the reported age is never negative and never falls |
| CaptureClock.ElapsedExactly | src/sfm_capture/sfm_capture/recorder.py:122-133 | what the next reading says: wall time since the start; in simulation the time since the first positive reading, refused exactly if an earlier one was later, and none exactly if no reading has been positive |
| Recorder.Recorder.OnSubmit | src/sfm_capture/sfm_capture/recorder.py:109-120 | the rest of the image callback |
| Recorder.Recorder.OnTimer | src/sfm_capture/sfm_capture/recorder.py:135-149 | clock, writer error, frame timeout, end of the capture, and whether an error leaves the callback |
| Recorder.Recorder.OnFinish | src/sfm_capture/sfm_capture/recorder.py:168-186 | the status written at the end |
| RecorderTheorems.SavingKeepsInv | src/sfm_capture/sfm_capture/dataset.py:75-101 | a frame saved, or failing at any stage, keeps manifest, files and counters in step |
| RecorderTheorems.StepKeepsInv | src/sfm_capture/sfm_capture/recorder.py:67-186 | every event of every interleaving keeps: offered frames strictly increase, all fit the one camera and the saved calibration, the store matches the saved frames |
| RecorderTheorems.CompleteExactlyAccepted | src/sfm_capture/sfm_capture/recorder.py:67-186 | in every run whose session is complete, the checker accepts the directory exactly if no failure file is present; a session that is not complete is never accepted |
| RecorderTheorems.VerdictsAgreeExactly | src/sfm_capture/sfm_capture/recorder.py:168-186 | right after finishing, recorder and checker agree exactly unless images were saved and the failure file is empty |
| RecorderSelection.OfferedExactly | src/sfm_capture/sfm_capture/recorder.py:92-120 | in every run the writer is offered exactly the frames the thinning rule selects from the images after warm-up, and once the capture ends perhaps all but the last |
| RecorderSelection.CompleteHoldsChosen | src/sfm_capture/sfm_capture/recorder.py:92-186 | a complete recording without a failure file holds exactly those frames, each row describing its frame and the file beside it |
| RecorderSelection.CalibrationIsFirst | src/sfm_capture/sfm_capture/recorder.py:67-78 | the calibration on disk is the first message of the run, there as soon as one came while the capture goes on |
| RecorderSelection.TimerExactly | src/sfm_capture/sfm_capture/recorder.py:135-153 | the timer ends the capture exactly for a clock that ran back, a failed writer, a frame timeout or a duration that is over, and the error it leaves names the last failing step |
| RecorderSelection.SubmitMeans | src/sfm_capture/sfm_capture/recorder.py:109-120 | queueing ends the capture exactly for a full queue or a failed update at the first queued frame, and after a successful one there is no further update |
| RecorderExample.EmptyFailureFileGoesUnnoticed | src/sfm_capture/sfm_capture/recorder.py:181-186 | a concrete run marked complete that the checker rejects, because the failure file's empty text counts as no error |
| TransformTables.ReadRecord | src/sfm_capture/sfm_capture/export_poses.py:88-117 | one recorded transform: parents, issues, samples and conflicts |
| TransformTables.LoadTables | src/sfm_capture/sfm_capture/export_poses.py:84-120 | the loop over the bag |
| TransformTables.ConflictsExactly | src/sfm_capture/sfm_capture/export_poses.py:112-117 | a stamp is flagged exactly if two of its samples differ, and the table holds one of its samples |
| TransformTables.ConflictsIgnoreOrder | src/sfm_capture/sfm_capture/export_poses.py:112-117 | so the flagged stamps do not depend on the order of the bag |
| TransformTables.ParentsExactly | src/sfm_capture/sfm_capture/export_poses.py:91-97 | each edge was recorded, and a child is flagged exactly if it had two parents |
| TransformTables.EdgesExactly | src/sfm_capture/sfm_capture/export_poses.py:98-117 | a child with an edge has a transform or an issue; static edges are those with a usable static record |
| TransformTables.StaticsExactly | src/sfm_capture/sfm_capture/export_poses.py:109-112 | a static edge holds one of its usable static records, and is flagged as changed exactly if two of them differ |
| TransformTables.IssuesExactly | src/sfm_capture/sfm_capture/export_poses.py:88-123 | the issues of a child are exactly those the bag shows: bad frames, two parents, bad numbers, a bad norm, changing static transforms, a negative stamp, or both topics |
| FramePath.Ancestors | src/sfm_capture/sfm_capture/export_poses.py:157-165 | ends on every table; returns the walk to the root, or reports exactly the cycles |
| FramePath.PathChildren | src/sfm_capture/sfm_capture/export_poses.py:156-170 | a path, no connection, or a cycle, each exactly when it is so |
| FramePath.PathIsShortest | src/sfm_capture/sfm_capture/export_poses.py:166-170 | no child twice; the children are exactly the frames above one end but not the other; every common ancestor lies above the common frame |
| FramePath.PathIsSymmetric | src/sfm_capture/sfm_capture/export_poses.py:156-170 | swapping the ends keeps the set of children, their number and the common frame |
| PoseExport.BisectLeft | src/sfm_capture/sfm_capture/export_poses.py:177-177 | the leftmost insertion point |
| PoseExport.LoadTransforms | src/sfm_capture/sfm_capture/export_poses.py:118-126 | fails exactly for a cycle or an issue on the path; otherwise the stamps are sorted and complete |
| PoseExport.EdgeGap | src/sfm_capture/sfm_capture/export_poses.py:174-187 | one edge is usable exactly if it has an unflagged sample at the stamp or unflagged neighbours around it, and the gap is their distance |
| PoseExport.InterpolationGap | src/sfm_capture/sfm_capture/export_poses.py:172-188 | a gap exactly if all edges are usable, and then the widest bracket |
| PoseExport.ExportRow | src/sfm_capture/sfm_capture/export_poses.py:230-247 | the status of one image, each status exactly when it applies, and the composed camera pose exactly when it is ok |
| PoseExport.ExportRows | src/sfm_capture/sfm_capture/export_poses.py:220-252 | every row right, counters equal to the rows of each status, the reported gap the greatest of the ok rows |
| PoseExport.CountsAddUp | src/sfm_capture/sfm_capture/export_poses.py:246-252 | the three counts add up to the number of images |
| PoseExport.SoundEdgeIsGrounded | src/sfm_capture/sfm_capture/export_poses.py:172-188 | a usable edge within the limit is supported by the raw records: one parent throughout, and either static only with records that agree, or an undisputed sample at the stamp, or two undisputed neighbours close enough with none between |
| PoseExport.ExportPoses | src/sfm_capture/sfm_capture/export_poses.py:191-252 | every row right, and every pose called ok is so supported on each edge of its path |
| PoseExport.ExportedPose | src/sfm_capture/sfm_capture/export_poses.py:235-249 | with a unit extrinsic an image gets a pose exactly if its edges are usable, the gap is within the limit, the frame's pose was found and its rotation can be normalised; the pose takes each point of the camera where the extrinsic and then the frame's normalised pose take it |
| PoseComposition.ComposePoseExact | src/sfm_capture/sfm_capture/export_poses.py:26-33 | the camera's pose is the rigid composition of the normalised frame pose with a unit extrinsic, itself unit, and fails exactly if the frame's rotation is too short to normalise |
| DiffBotSystem.DiffBotSystemHardware.ParseMessage | src/ros2_control_diff_drive/hardware/diffbot_system.cpp:337-345 | both wheels found by name and finite, or nothing |
| DiffBotHistory.ParseExactly | src/ros2_control_diff_drive/hardware/diffbot_system.cpp:337-346 | a message is understood exactly if it has two entries and tells each wheel's finite position and velocity at the first place its name stands |
| DiffBotHistory.ParseSwapped | src/ros2_control_diff_drive/hardware/diffbot_system.cpp:337-346 | listing the wheels the other way round changes nothing |
| DiffBotSystem.DiffBotSystemHardware.JointStateCallback | src/ros2_control_diff_drive/hardware/diffbot_system.cpp:335-364 | a late or jumping state latches the fault while active; the reading is stored either way |
| DiffBotSystem.DiffBotSystemHardware.PublishCommand | src/ros2_control_diff_drive/hardware/diffbot_system.cpp:366-382 | in operation a state or a command older than its timeout latches the fault; the command goes out only in operation without a fault, and zero otherwise |
| DiffBotSystem.DiffBotSystemHardware.StopMotion | src/ros2_control_diff_drive/hardware/diffbot_system.cpp:171-178 | inactive, commands cleared, a last zero published while the publisher exists |
| DiffBotSystem.DiffBotSystemHardware.OnConfigure | src/ros2_control_diff_drive/hardware/diffbot_system.cpp:103-145 | stops, then clears state, activity and fault; if the node cannot be created, stops once more, with another zero if the publisher existed by then |
| DiffBotSystem.DiffBotSystemHardware.OnActivate | src/ros2_control_diff_drive/hardware/diffbot_system.cpp:147-169 | succeeds exactly with a fresh state and no fault; positions restart at zero, and the command's age counts from a second reading of the clock |
| DiffBotSystem.DiffBotSystemHardware.ReadState | src/ros2_control_diff_drive/hardware/diffbot_system.cpp:384-398 | staleness latches the fault; otherwise the position relative to activation |
| DiffBotSystem.DiffBotSystemHardware.WriteCommands | src/ros2_control_diff_drive/hardware/diffbot_system.cpp:400-412 | a non-finite request latches the fault; otherwise the request is copied while active |
| DiffBotTheorems.CommandIsGiven | src/ros2_control_diff_drive/hardware/diffbot_system.cpp:103-178 | in every run a stored command that is not zero is the request copied by the last write, in force with the hardware active ever since |
| DiffBotTheorems.NonzeroOnlyWhenSafe | src/ros2_control_diff_drive/hardware/diffbot_system.cpp:366-412 | in every run a nonzero published command comes from an active, unfaulted hardware with fresh state and command, and equals the last finite request written |
| DiffBotTheorems.FaultLatches | src/ros2_control_diff_drive/hardware/diffbot_system.cpp:103-178 | until the next configure: the fault stays, only zero is published, read, write and activate fail, and the hardware cannot become active |
| DiffBotHistory.FaultExactly | src/ros2_control_diff_drive/hardware/diffbot_system.cpp:335-412 | in every run from the initial state the fault is latched exactly if, since the last configure, a tick in operation found the last state or command too old, a read found the state too old, a message came late or leapt, a request written was not finite, or the executor failed; all told by the events |
| DiffBotHistory.CauseSilences | src/ros2_control_diff_drive/hardware/diffbot_system.cpp:335-412 | after such an event, until the next configure, only zero is published, and read, write and activate fail |
| DiffBotHistory.TickExactly | src/ros2_control_diff_drive/hardware/diffbot_system.cpp:366-382 | in every run a tick publishes the request last written since activation while nothing of that kind has happened, and zero otherwise |
| DiffBotHistory.ReadExactly | src/ros2_control_diff_drive/hardware/diffbot_system.cpp:384-398 | a read succeeds exactly then; the controller sees how far the last message's positions are from those at activation, and its velocities |
| DiffBotHistory.WriteExactly | src/ros2_control_diff_drive/hardware/diffbot_system.cpp:400-412 | a write succeeds exactly then, and in operation puts the request in force |
| DiffBotHistory.ActivateExactly | src/ros2_control_diff_drive/hardware/diffbot_system.cpp:147-169 | an activation succeeds exactly with nothing of that kind and a message understood within the timeout, and changes nothing otherwise |
| DiffBotHistory.StopExactly | src/ros2_control_diff_drive/hardware/diffbot_system.cpp:103-178 | every stop ends operation and sends one last zero exactly while the publisher exists |
| DiffBotTheorems.StateIsPast | src/ros2_control_diff_drive/hardware/diffbot_system.cpp:335-364 | in every run from the initial state the last state was received no later than now |
| DiffBotTheorems.ActivationIsFresh | src/ros2_control_diff_drive/hardware/diffbot_system.cpp:147-169 | in every such run a successful activation leaves an unfaulted hardware with the positions of its last state as zero |
| DiffBotTheorems.ExposedPositionBounded | src/ros2_control_diff_drive/hardware/diffbot_system.cpp:335-398 | in every run from the initial state, since the last activation the exposed position has moved by at most 20 times the time since the last state before activation plus 0.1 for each message |
| DiffBotTheorems.LeapIsExposed | src/ros2_control_diff_drive/hardware/diffbot_system.cpp:335-398 | a first message that uses up the time before activation as well is accepted, and the next read exposes it |
| DiffBotTheorems.BoundedSinceActivationExactly | src/ros2_control_diff_drive/hardware/diffbot_system.cpp:335-398 | after an activation in any run from the initial state, the bound that counts only the time since activation holds for all continuations exactly if the last state came at the moment of activation, or was too old by the end of it |
| DiffBotExample.JumpFromBeforeActivation | src/ros2_control_diff_drive/hardware/diffbot_system.cpp:335-398 | a concrete run from the initial state in which the first read after activation exposes 2.5 where that bound allows 0.1 |
| DescriptorCache.DescriptorCache.GetReferenceDescriptors | src/hloc_localizer/hloc_localizer/sift_backend.py:301-350 | returns what the file holds, or nothing and leaves the cache alone; reorders and evicts accordingly; a negative size empties the cache and fails |
| DescriptorCache.RecencyOrders | src/hloc_localizer/hloc_localizer/sift_backend.py:301-350 | what recency order is: each name once, by its last lookup |
| DescriptorCache.CachesMostRecent | src/hloc_localizer/hloc_localizer/sift_backend.py:301-350 | after any lookups the cache holds exactly the most recent distinct names, oldest first |
| DescriptorCache.LargerCacheContains | src/hloc_localizer/hloc_localizer/sift_backend.py:301-350 | a larger cache always contains a smaller one's contents, as its newest part |
| DescriptorCache.LookUpAll | src/hloc_localizer/hloc_localizer/sift_backend.py:301-350 | every lookup of a run equals a direct read, whatever was cached |
| Correspondences.MatchedPoints | src/hloc_localizer/hloc_localizer/sift_backend.py:394-474 | exactly the query indices with a nonnegative, in-table match to a real point, in order |
| Correspondences.AddAll | src/hloc_localizer/hloc_localizer/sift_backend.py:480-490 | the dictionary of sets gains exactly the listed pairs, and no more pairs than list entries |
| Correspondences.Emit | src/hloc_localizer/hloc_localizer/sift_backend.py:492-507 | the dictionary is listed pair by pair, each once |
| Correspondences.BuildCorrespondences | src/hloc_localizer/hloc_localizer/sift_backend.py:356-512 | without repeats, exactly the pairs some usable reference gives, whatever the cache holds; the total counts every match of every listed reference; it fails exactly if the cache size is negative and a reference is present |
| Correspondences.CorrespondencesIgnoreOrder | src/hloc_localizer/hloc_localizer/sift_backend.py:356-512 | the pairs do not depend on the order or repetition of the references |
| ParallelFilter.KeptExactly | src/external/obstacle_cloud_to_scan-main/src/pcl_functions.cpp:223-237 | the kept indices are exactly those whose normal lies between the two thresholds, in order |
| ParallelFilter.ObstaclesExactly | src/external/obstacle_cloud_to_scan-main/src/pcl_functions.cpp:207-240 | the points kept are those at the kept indices, in order; none if the sizes differ |
| ParallelFilter.ObstacleIsSteep | src/external/obstacle_cloud_to_scan-main/src/pcl_functions.cpp:223-237 | with the threshold the cosine of the largest slope, a unit normal is kept exactly if its horizontal part is at least the sine of that slope |
| ParallelFilter.FilterObstacles | src/external/obstacle_cloud_to_scan-main/src/pcl_functions.cpp:207-240 | the kept points in order; nothing if cloud and normals differ in size |
| ParallelFilter.RangesPartition | src/external/obstacle_cloud_to_scan-main/src/pcl_functions.cpp:284-292 | the ranges start at 0, meet end to start, and end with the cloud |
| ParallelFilter.AnyScheduleMatches | src/external/obstacle_cloud_to_scan-main/src/pcl_functions.cpp:294-325 | however the threads are interleaved, once all are done the merged indices are those of the single pass |
| ParallelFilter.FilterObstaclesParallel | src/external/obstacle_cloud_to_scan-main/src/pcl_functions.cpp:243-338 | for every cloud, thread count and core count: the point list of the sequential filter |

## Left out

- InflationTheorems.MultiSeedSound: claims no exactness, because the wavefront is not exact on every map; when it is, is in ExactExactly.
- InflationTheorems.ExactExactly: excludes cells with two nearest obstacles, where what is reached depends on how equal distances are ordered; there ExactWhenLinked goes one way.
- InflationTheorems.BoxedUpdateIsRestriction: claimed where chains join the cells of the box to their obstacles; whether a cell without a chain gets the same cost from both updates is left open.
- ConvexFill.ConvexFillCells: starts from an empty vector, as its one caller passes; a vector with earlier contents is not modelled.
- ConvexFill.RaytraceLine: default lengths only; a maximum or minimum ray length is not modelled.
- CollisionMonitor.GetCollisionTime: needs a positive simulation step, without which the source's loop does not end.
- CollisionMonitor.ChooseAction: approach zones need a positive step and a horizon that is not zero, by which the source divides.
- CollisionMonitor.ProcessApproach: the vertices of the zone are those after the source's refresh, which is not modelled.
- CollisionMonitor.CollisionMonitor.Process: the obstacle points are an input, and the zones stay as they are; collecting the one and refreshing the other is not modelled.
- PointInPolygon.TriangleExact: says nothing of points on an edge line, where the source's answer depends on the direction.
- MonoInertialTheorems.BatchesPartitionTheStream: needs strictly increasing sample stamps, as those of one sensor are; for any stamps BatchExactly says what one batch is.
- Dataset.Dataset.SaveFrame: file contents are byte sequences, the hash and the decoder are parameters, and the text form of names and rows is not modelled.
- CheckDataset.Check: works on a manifest that has been parsed, with nine calibration entries, and does not look at recorded bags.
- ImageWriter.ImageWriter.TakeNext: one turn of the worker's loop; the loop itself is the sequence of its turns in a run.
- PoseExport.ExportPoses: the pose of the source frame comes from the transform library; its interpolation between samples and the reading of the image list are not modelled.
- DiffBotSystem.DiffBotSystemHardware.OnActivate: the wait itself is not modelled, only the moment it ends and what the clock says then.
- Circle polygons, dynamic parameters, visualisation and the sources' data collection in the collision monitor.
- Costmap layers other than inflation, copying windows between maps, and saving a map to a file.
- The localizer's node around the transform chain: subscriptions, staleness checks of its inputs and the publishing timer.
- Launch files, package setup, parameter declaration, logging, ROS transport and mutexes.
- Neural networks, pose solvers, point-cloud libraries, image codecs and camera drivers.
- Floating-point rounding, overflow of unsigned integers, and values that are not numbers, except where the source tests for them.
