# Spatial discovery pipeline of a sonar submarine game, in Dafny

This project models the core of a Flipper Zero submarine game in which the
player sees terrain only through sonar pings. The core has five parts:

- **Quadtree sonar chart** (`sonar_chart.c`): discovered points live in a fixed
  512-slot point pool. They are indexed by a quadtree over the int16_t plane, whose
  nodes come from a fixed 128-slot node pool. A leaf holds up to 8 points and
  splits into four quadrants when it overflows. Splitting stops at depth 6.
  Queries walk the tree into a bounded output buffer. Points fade through four
  15-second stages and are removed once gone.
- **Ray caster** (`raycaster.c`): casts a ray by integer line stepping from an
  origin towards the end point of a fixed-point direction, checking every cell
  against the caller's collision callback. It also casts whole patterns and adapts
  a quality level to the frame time.
- **Chunk manager** (`chunk_manager.c`): keeps a 2x2 window of 33x33 terrain tiles
  at and after the player's chunk, drawn from an 8-slot tile pool. When the
  player's chunk changes, tiles that stay in the window are reused.
- **Terrain generator** (`terrain.c`): diamond-square height generation from a
  32-bit linear congruential generator seeded with the chunk hash. An elevation
  threshold turns heights into land, and a despeckle filter then removes isolated
  land cells.
- **Hash-bucket chart** (`game.c`): the chart the game loop actually uses. It has
  256 buckets of up to 4 (x, y, time) entries, with a 30-second fade and a
  round-robin cleanup.

Files and modules:

| file | module | contents |
|---|---|---|
| `cint.dfy` | `CInt` | C integer semantics: int16_t/uint32_t wrap-around, truncating division, 32-bit xor |
| `pools.dfy` | `Pools` | cyclic first-free search and in-use counting, shared by all pools |
| `sonar_fade.dfy` | `SonarFade` | fade stages and opacity |
| `sonar_geometry.dfy` | `SonarGeometry` | rectangles, midlines, quadrants |
| `sonar_tree.dfy` | `SonarTree` | node and point records, and a ghost `Tree` mirroring the nodes reachable from a slot |
| `sonar_search.dfy` | `SonarSearch` | what a query reports (`Found`) and how a bounded buffer receives it (`Emitted`) |
| `sonar_sweep.dfy` | `SonarSweep` | what the fade sweep keeps (`Survivors`, `Swept`, `Restaged`) |
| `sonar_chart.dfy` | `SonarCharts` | the class `SonarChart`: both pools as arrays, and every quadtree operation as a method |
| `raycaster.dfy` | `Raycaster` | the stepper as written, the corrected stepper, `Cast`, and the class `RayCaster` |
| `terrain.dfy` | `Terrain` | the generator as functions of the seed, and the class `TerrainManager` with its two arrays |
| `chunks.dfy` | `Chunks` | coordinates and hash, the classes `ChunkPool` and `ChunkManager` |
| `hash_chart.dfy` | `HashChart` | the hash-bucket chart class `SonarChart` |

How state is modelled:

- **Quadtree.** The mutable state is held in arrays: node records, point records and
  in-use flags. Each recursive C function is a method that takes the ghost subtree
  rooted at its slot and returns the ghost subtree after the call. `Sound` ties that
  subtree to the arrays:
  - every node is in use and lies in its own slot;
  - children are nested one level down inside their parent;
  - every point lies inside its node;
  - no slot is used twice.

  `Stored` says that the points the tree holds are exactly the point slots in use,
  each held once. It is kept by every operation.
- **Time.** The tick the source reads from `furi_get_tick()` is a `now` parameter.
  Times are uint32_t values, and ages are differences modulo 2^32.

Where the code and its design documentation disagree, the model follows the code:

- **Quadrant overlap.** The quadrants of a split share the midlines
  (`sonar_chart.c:178-192`), so they overlap rather than partition the parent. A
  point on a midline goes to the first quadrant that contains it.
- **Full leaf at the depth limit.** It refuses the point. The "force insert" at
  `sonar_chart.c:252` is guarded by `point_count < 8` and never fires after a
  failed subdivision.
- **Sweeping internal nodes.** The fade sweep (`sonar_chart.c:319-345`) compacts
  leaves only. Points an internal node keeps in its own list are never swept.
- **Skipped rays.** The quality test in `raycaster_cast_pattern` comes after the
  cast, so every ray of the pattern is cast and stored.
- **Zero-length rays.** A ray whose direction is zero, or whose budget is 0,
  completes at distance 0. When a ray is stepped, the origin is the first cell
  checked and counts as step 1.
- **The chunk window.** It covers the player's chunk and the chunks after it
  (`center + {0,1}` on each axis), not a neighbourhood around the player. The
  manager starts centred on chunk (0, 0) with nothing loaded, so a first update
  inside chunk (0, 0) loads nothing.

## Model

| member | source | states |
|---|---|---|
| CInt.Wrap16 | raycaster.c:100-111 | storing into int16_t keeps the value modulo 2^16, read back signed; values already in range are unchanged |
| CInt.ToU32 | game.c:108 | conversion to uint32_t is the value modulo 2^32, in [0, 2^32) |
| CInt.CDiv | sonar_chart.c:173-174 | C division truncates toward zero: the remainder has the dividend's sign and is smaller in magnitude than the divisor |
| CInt.Xor32Laws | chunk_manager.c:23-25 | exclusive or on uint32_t has zero as identity, commutes and undoes itself |
| Pools.FirstFreeFrom | sonar_chart.c:45-59 | the cyclic scan from the cursor returns a free slot, or nothing when every slot it visits is in use |
| Pools.FirstFreeNoneIffFull | sonar_chart.c:45-59 | the cyclic scan fails exactly when every slot is in use |
| Pools.CountUpdate | sonar_chart.c:93-121 | taking a free slot raises the in-use count by one; releasing a used slot lowers it by one |
| Pools.CountFull | sonar_chart.c:93-111 | every slot is in use exactly when the count equals the pool size |
| Pools.MarkedMeans | sonar_chart.c:113-121 | the slots marked in use are exactly those whose flag is set, each once |
| Pools.NoneMarked | sonar_chart.c:80-83 | a freshly cleared pool has in-use count 0 and marks no slot |
| SonarFade.FadeOfAge | sonar_chart.c:124-133 | stage k covers ages from 15000 k up to 15000 (k + 1) ms, and every age from 60000 ms on is gone |
| SonarFade.FadeStateAt | sonar_chart.c:124-133 | a point younger than 15000 ms is full, and a discovery time ahead of the clock reads as gone through uint32_t wrap-around |
| SonarFade.FadeMonotone | sonar_chart.c:124-133 | an older point is never in an earlier stage |
| SonarFade.Opacity | sonar_chart.c:135-143 | opacity is 0 exactly for gone; full is 255 and each later stage k is 64 (4 - k) |
| SonarFade.OpacityFalls | sonar_chart.c:135-143 | each later stage is strictly fainter |
| SonarGeometry.IntersectIffSharedCell | sonar_chart.c:7-10 | two non-empty rectangles pass the overlap test exactly when some cell lies in both |
| SonarGeometry.Mid | sonar_chart.c:173-174 | the midline, by C's truncating division, lies between the bounds |
| SonarGeometry.ChildInside | sonar_chart.c:176-192 | every quadrant is a non-empty rectangle inside its parent |
| SonarGeometry.ChildrenCover | sonar_chart.c:176-192 | a cell lies in the parent exactly when it lies in some quadrant |
| SonarGeometry.MidpointInAllQuadrants | sonar_chart.c:178-192 | the midpoint cell lies in all four quadrants, so the quadrants overlap |
| SonarGeometry.FirstChild | sonar_chart.c:212-218 | the first quadrant in NW, NE, SW, SE order containing the cell; no earlier quadrant contains it |
| SonarGeometry.FirstChildExists | sonar_chart.c:212-218 | a cell of the parent always finds a quadrant, so redistribution loses no point |
| SonarGeometry.RootQuadrants | sonar_chart.c:173-174 | the root's midlines are column 0 and row 0 |
| SonarTree.HeldInside | sonar_chart.c:237-240 | every point held below a node lies inside that node's rectangle |
| SonarTree.Route | sonar_chart.c:208-232 | the points a subdividing node hands to quadrant q, in order |
| SonarTree.RouteSplits | sonar_chart.c:208-232 | the four quadrants together receive exactly the node's points, none lost and none duplicated |
| SonarTree.Split | sonar_chart.c:170-235 | the subtree after a successful subdivision: an inner node with empty list and four leaf children holding the routed points |
| SonarTree.SplitShape | sonar_chart.c:170-235 | a well-formed leaf below the depth limit splits into a well-formed inner node with children one level down |
| SonarTree.SplitHeld | sonar_chart.c:208-234 | splitting keeps the multiset of held points |
| SonarTree.KidSound | sonar_chart.c:309-313 | each child of a sound inner node is sound and nested in it |
| SonarTree.ReplaceKid | sonar_chart.c:262-266 | replacing a child by its updated subtree keeps the parent sound and changes its held points by the child's gain |
| SonarSearch.Matching | sonar_chart.c:286-294 | the points of a list lying in the window, in list order |
| SonarSearch.MatchingMeans | sonar_chart.c:286-294 | a point is among the matches exactly when it is in the list and in the window |
| SonarSearch.FoundMeans | sonar_chart.c:279-317 | a query reports exactly the held points inside the window, including points in internal nodes' own lists |
| SonarSearch.Pruned | sonar_chart.c:281-283 | a subtree whose rectangle misses the window has nothing to report |
| SonarSearch.FoundInner | sonar_chart.c:295-313 | an inner node reports its own matches first, then its four children's in order |
| SonarSearch.EmittedThen | sonar_chart.c:309-313 | two queries in a row into one buffer emit the concatenation of their findings, up to the limit |
| SonarSearch.EmittedCapped | sonar_chart.c:287 | once the buffer is full, nothing further changes what was emitted |
| SonarSearch.KidEmitted | sonar_chart.c:309-312 | after child q's query the buffer holds the earlier children's findings followed by child q's, up to the limit; a child that stops on a full buffer leaves all four children's findings cut at the limit |
| SonarSweep.Survivors | sonar_chart.c:320-338 | a leaf's list after the sweep: its points whose stage is not gone, in order |
| SonarSweep.SurvivorsCount | sonar_chart.c:323-337 | a live slot survives as often as it was listed, and a gone slot not at all |
| SonarSweep.SurvivorsAllAlive | sonar_chart.c:327-336 | a list of live points survives whole |
| SonarSweep.Swept | sonar_chart.c:319-345 | the tree after the sweep: leaves keep their survivors, inner nodes keep their own lists, and the shape is unchanged |
| SonarSweep.SweptShape | sonar_chart.c:319-345 | the sweep keeps the node slots, the links and the geometry |
| SonarSweep.SweptHeld | sonar_chart.c:319-345 | held points lose exactly the dropped ones; every dropped point was gone; every point left in a leaf is live; every live leaf point stays |
| SonarSweep.SweptTwice | sonar_chart.c:480-489 | a second sweep at the same time removes nothing more |
| SonarSweep.RestagedMeans | sonar_chart.c:331-336 | restaging a list one point at a time gives each survivor its current stage and moves no point |
| SonarCharts.StoredFreed | sonar_chart.c:327-330 | freeing the gone points of a stored list leaves the survivors exactly the in-use slots still held |
| SonarCharts.AreaFound | sonar_chart.c:473-478 | a root query fills the buffer with the first min(found, max) points found, each held and in the window |
| SonarCharts.CellFound | sonar_chart.c:443-471 | the 9-entry query at a cell finds a point exactly when one is held at that cell, and its first entry is the first point the cell query finds |
| SonarCharts.SplitDone | sonar_chart.c:206-234 | a split with four free slots that handed every point on leaves a sound subtree with the same held points, grown only into slots that were free |
| SonarCharts.Refreshed | sonar_chart.c:406-414 | a rediscovered point gets the new time and stage full; it stays terrain once terrain, and becomes terrain when the new sample is |
| SonarCharts.SonarChart.constructor | sonar_chart.c:348-373 | the chart is valid: empty point pool with count 0, the root leaf over the whole int16_t plane at depth 0 in node slot 0 (the only node in use, cursor at 1), holding no points, last fade update 0 |
| SonarCharts.SonarChart.AllocNode | sonar_chart.c:45-59 | none exactly when the node pool is full; otherwise the first free slot from the cursor, now in use and reset, with the cursor just past it |
| SonarCharts.SonarChart.FreeNode | sonar_chart.c:61-68 | the slot's flag is cleared and nothing else changes |
| SonarCharts.SonarChart.AllocPoint | sonar_chart.c:93-111 | none exactly when the active count reached 512; otherwise the first free slot from the cursor, zeroed, with the count one higher |
| SonarCharts.SonarChart.FreePoint | sonar_chart.c:113-121 | the slot's flag is cleared and the active count drops by one |
| SonarCharts.SonarChart.CreateNode | sonar_chart.c:146-156 | null exactly when the node pool is full; otherwise a fresh leaf with the given rectangle and depth in a slot that was free |
| SonarCharts.SonarChart.AttachChild | sonar_chart.c:178-192 | creation q stores a new child in pointer q when a slot was free, and NULL otherwise |
| SonarCharts.SonarChart.CreateChildren | sonar_chart.c:176-192 | after the four creations pointer q is set exactly when the pool still had a free slot for it, and the in-use count rose by the children made |
| SonarCharts.SonarChart.ReleaseChildren | sonar_chart.c:194-204 | a failed creation returns the children made so far to the pool and clears their pointers, restoring the in-use flags |
| SonarCharts.SonarChart.MakeChildren | sonar_chart.c:176-206 | the four children exist exactly when four node slots were free; otherwise the pool is as before |
| SonarCharts.SonarChart.Subdivide | sonar_chart.c:170-235 | an inner node or one at depth 6 is left alone; a leaf becomes `Split` exactly when four slots were free; the held points never change |
| SonarCharts.SonarChart.Divide | sonar_chart.c:206-234 | marks the node internal and redistributes its points, giving the `Split` subtree with the same held points |
| SonarCharts.SonarChart.Redistribute | sonar_chart.c:208-232 | each point of the former leaf, in order, is appended to the first child containing it |
| SonarCharts.SonarChart.HandOn | sonar_chart.c:212-218 | the recursive insert into a fresh child with room appends the point to that child only |
| SonarCharts.SonarChart.Append | sonar_chart.c:243-246 | a node's own list gains the point at its end, and the tree holds one more point |
| SonarCharts.SonarChart.Insert | sonar_chart.c:237-277 | a point outside the node is refused and nothing changes; a leaf with room appends it; a full leaf accepts it exactly when it can split; accepted points are held once more and refused ones leave the tree as it was |
| SonarCharts.SonarChart.InsertFull | sonar_chart.c:247-258 | a full leaf accepts exactly when it is above depth 6 and four node slots are free |
| SonarCharts.SonarChart.InsertInner | sonar_chart.c:261-276 | an accepted point is held once more and a refused one changes nothing in use; the node always accepts while its own list has room |
| SonarCharts.SonarChart.InsertIntoChildren | sonar_chart.c:261-266 | the first child whose insert succeeds holds the point; when all refuse, nothing in use changed |
| SonarCharts.SonarChart.TryChild | sonar_chart.c:262-265 | one child insert, keeping the parent sound |
| SonarCharts.SonarChart.ScanList | sonar_chart.c:286-294 | appends the list's points inside the window to the buffer, as many as fit; reports failure exactly when the buffer is full before the list ends |
| SonarCharts.SonarChart.ScanStep | sonar_chart.c:286-293 | one list element: written at `count` when it is in the window |
| SonarCharts.SonarChart.Query | sonar_chart.c:279-317 | the buffer receives the first points of `Found` that fit below the limit; success implies everything fitted, and everything fitting with room to spare implies success |
| SonarCharts.SonarChart.QueryKids | sonar_chart.c:308-313 | the children are queried in order, stopping at the first that reports a full buffer |
| SonarCharts.SonarChart.QueryKid | sonar_chart.c:309-312 | querying child q extends what was emitted by its findings |
| SonarCharts.SonarChart.QueryPoint | sonar_chart.c:443-471 | found exactly when a held point sits at the cell, and the returned slot is the first point the one-cell query finds, which is held at the cell |
| SonarCharts.SonarChart.QueryArea | sonar_chart.c:473-478 | returns min(found, max) and writes the first points found, each held and in the window |
| SonarCharts.SonarChart.AddPoint | sonar_chart.c:389-441 | a charted cell has its first found point refreshed in place; otherwise a new point is allocated and inserted, or given back on refusal; a full pool refuses; no call loses or moves a stored point |
| SonarCharts.SonarChart.AddNew | sonar_chart.c:417-440 | a new record is held exactly when allocation and insertion succeed, and the pool flags are restored otherwise |
| SonarCharts.SonarChart.NewRecord | sonar_chart.c:418-425 | nothing exactly when the point pool is full; otherwise a slot that was free now holds the new record and the count is one higher |
| SonarCharts.SonarChart.Place | sonar_chart.c:432-440 | the new record goes into the tree from the root; on success the tree holds the slot and the count is one up, on refusal the slot is freed and flags, count and held points are as before; the chart stays valid |
| SonarCharts.SonarChart.Plant | sonar_chart.c:433-435 | the insertion from the root keeps the tree sound and holds the new slot exactly when it succeeds |
| SonarCharts.SonarChart.GiveBack | sonar_chart.c:436-439 | a refused point's slot is freed, restoring the in-use flags and the count |
| SonarCharts.SonarChart.UpdateFade | sonar_chart.c:480-489 | within 1000 ms of the last run nothing changes; otherwise the tree becomes `Swept`, live leaf points get their current stage, and the active count drops by the points dropped |
| SonarCharts.SonarChart.SweepAll | sonar_chart.c:488 | the sweep from the root keeps every chart invariant, and the tree becomes `Swept` of the old one |
| SonarCharts.SonarChart.SweepRoot | sonar_chart.c:488 | the root sweep's result is sound, stored, and equal to `Swept` |
| SonarCharts.SonarChart.Sweep | sonar_chart.c:319-345 | a subtree becomes `Swept`: its gone leaf points are freed, the rest restaged, and the other held points stay stored |
| SonarCharts.SonarChart.SweepLeaf | sonar_chart.c:320-338 | a leaf keeps its `Survivors`, its gone points' slots are freed, and the survivors get their current stage |
| SonarCharts.SonarChart.SweepList | sonar_chart.c:323-337 | the read/write pass returns `Survivors`, frees exactly the gone slots, and restages the live ones |
| SonarCharts.SonarChart.SweepStep | sonar_chart.c:324-336 | one element: a gone point is freed, and a live one is restaged and kept |
| SonarCharts.SonarChart.Restock | sonar_chart.c:338 | the node's list becomes the kept points |
| SonarCharts.SonarChart.SweepKids | sonar_chart.c:339-344 | the four children are swept in order, and the node becomes `Swept` |
| SonarCharts.SonarChart.SweepKid | sonar_chart.c:341-343 | sweeping child q extends the swept prefix of the children by one |
| Raycaster.LineInit | raycaster.c:73-90 | the stepper starts at the origin with the absolute deltas and error dx - dy, both branches of the steep test alike |
| Raycaster.LineStep | raycaster.c:92-115 | outputs the current cell; stops exactly when both counters are 0; otherwise moves by the two error tests, decrementing the counters it also uses as deltas |
| Raycaster.LineStepShape | raycaster.c:100-112 | each axis either stays or moves one cell in its direction, its counter dropping by one |
| Raycaster.StepLowersCounters | raycaster.c:96-112 | while both counters are non-negative and not both 0, a step continues and lowers their sum |
| Raycaster.StepperStallsOffTarget | raycaster.c:92-115 | as written, the line from (0,0) to (2,3) reaches a fixed point at (1,5) that still reports moving, never reaching x = 2 |
| Raycaster.FixedStep | raycaster.c:100-112 | the intended step: fixed deltas, both tests reading the error before either update |
| Raycaster.FixedStepAdvances | raycaster.c:100-112 | off the target, an intended step keeps the no-overshoot invariant and shortens the remaining distance |
| Raycaster.LineTo | raycaster.h:48 | the intended stepper always ends on the target cell |
| Raycaster.EndPoint | raycaster.c:126-134 | the end point is `max` scaled steps along the direction, truncated toward zero, then clamped to int16_t |
| Raycaster.Walk | raycaster.c:139-162 | a complete result within the budget; a hit lies in the collision set; a null callback never hits |
| Raycaster.WalkHitIsFirstLand | raycaster.c:139-151 | a hit is the first land cell among the cells the loop checks (`Checked`, in stepper order), and its distance is that cell's position in the list |
| Raycaster.WalkMissFindsNoLand | raycaster.c:139-170 | a miss checked every cell of `Checked`, its distance is their number, and none of them is land |
| Raycaster.Cast | raycaster.c:118-171 | the ray's result is complete, within `max`, at distance >= 1 when it hits, and a hit cell is land |
| Raycaster.CastFindsFirstLand | raycaster.c:118-171 | a ray stops at the first land cell along it: a hit is the first land cell of the ray's checked cells (`CastCells`, the origin first), with its position as the distance; a miss counted every checked cell and none of them is land |
| Raycaster.OriginIsStepOne | raycaster.c:142-155 | the origin is checked first and counts as step 1: a ray from (64,32) hits (65,32) at distance 2 |
| Raycaster.ZeroLengthRay | raycaster.c:96-98 | a zero direction or zero budget completes at the origin, distance 0, without a hit |
| Raycaster.CastMissesTarget | raycaster.c:137-162 | as written, a ray aimed at (2,3) checks (0,0),(1,1),(1,2),(1,3) and ends at (1,4) |
| Raycaster.BudgetFor | raycaster.c:194-202 | the frame budget per level lies in 1..5 ms |
| Raycaster.BudgetShrinks | raycaster.c:194-202 | a higher level never has a larger budget |
| Raycaster.BudgetIsShift | raycaster.c:199-201 | the budget is `5 >> level` floored at 1 |
| Raycaster.RaysShrink | raycaster.c:204-212 | a higher quality level never picks a pattern with more rays |
| Raycaster.HitsAgree | raycaster.c:176-190 | the hit count depends only on the results counted |
| Raycaster.RayCaster.constructor | raycaster.c:231-250 | the tables are installed, the quality level is 1 and the budget 3 ms |
| Raycaster.RayCaster.CachedDirection | raycaster.c:19-22 | angle ids wrap around the 256-entry table |
| Raycaster.RayCaster.CastRay | raycaster.c:118-171 | returns whether the ray hit, and the result equal to `Cast`, which `CastFindsFirstLand` shows is the first land cell along the ray, or a miss over cells none of which is land |
| Raycaster.RayCaster.CastPattern | raycaster.c:173-191 | results 0..n-1 are the pattern's casts in direction order, and the return value counts their hits |
| Raycaster.RayCaster.CastInto | raycaster.c:178-183 | ray i is stored at index i and its hit added to the count |
| Raycaster.RayCaster.SetQualityLevel | raycaster.c:194-202 | the level is capped at 3 and the budget follows `BudgetFor` |
| Raycaster.RayCaster.AdaptivePattern | raycaster.c:204-212 | the pattern has 32 rays at level 0 without a performance preference, 16 at levels 0-1 otherwise, and 8 from level 2 on, with half the radius |
| Raycaster.RayCaster.UpdatePerformanceStats | raycaster.c:214-228 | at most once per 1000 ms the level moves by at most one: up exactly when the frame exceeds twice the budget below level 3, down exactly when otherwise under half the budget above level 0 |
| Chunks.WorldToChunk | chunk_manager.c:12-17 | floor division by 33 on both axes: the chunk's cells contain the position |
| Chunks.WorldToChunkExamples | chunk_manager.c:12-17 | -1, 32, 33 and 64 fall in chunks -1, 0, 1 and 1 |
| Chunks.WorldToChunkUnique | chunk_manager.c:12-17 | a chunk coordinate is the only one whose cells contain a position |
| Chunks.Hash | chunk_manager.c:23-25 | each coordinate times its prime, truncated to 32 bits, then xor-ed |
| Chunks.HashRecoversX | chunk_manager.c:23-25 | from the hash and the y term the x term is recovered |
| Chunks.HashSeparatesLines | chunk_manager.c:23-25 | two chunks of one row (one column) with equal seeds have columns (rows) a multiple of 2^32 apart, because both primes are invertible modulo 2^32 |
| Chunks.HashDistinctNearOrigin | chunk_manager.c:23-25 | chunks (0,0), (1,0) and (0,1) get distinct seeds |
| Chunks.ActiveIndex | chunk_manager.c:183-193 | rel_y*2 + rel_x inside the 2x2 window, else -1 |
| Chunks.ActiveIndexOfSlot | chunk_manager.c:183-193 | window slots and their coordinates correspond one to one |
| Chunks.PoolNotFull | chunk_manager.c:196-241 | while the window is rebuilt at most 7 tiles are held, so the 8-slot pool always has a free slot for the next load |
| Chunks.ChunkPool.constructor | chunk_manager.c:28-51 | every slot free, unloaded and empty, with the cursor at 0 |
| Chunks.ChunkPool.Alloc | chunk_manager.c:66-77 | the first free slot from the cursor, cyclically, now in use, with the cursor just past it; none when full |
| Chunks.ChunkPool.Free | chunk_manager.c:79-93 | the slot is released, its tile dropped and its flags cleared |
| Chunks.ChunkManager.constructor | chunk_manager.c:96-121 | an empty window centred on chunk (0,0) and an empty pool |
| Chunks.ChunkManager.LoadChunk | chunk_manager.c:144-172 | takes the first free slot and generates a tile with the coordinate's hash as seed and threshold 90; null when the pool is full |
| Chunks.ChunkManager.UnloadChunk | chunk_manager.c:174-180 | a missing chunk is ignored; any other slot goes back to the pool with its tile dropped and its loaded and dirty flags cleared, coordinate and seed kept |
| Chunks.ChunkManager.FindReusable | chunk_manager.c:216-224 | the first old tile with that coordinate, or -1 when none has it |
| Chunks.ChunkManager.Update | chunk_manager.c:196-241 | the centre becomes the player's chunk; an unchanged centre changes nothing; a new centre fills all four cells, and every coordinate in both windows keeps its old slot with its record (tile, coordinate, seed, access time) untouched |
| Chunks.ChunkManager.Recenter | chunk_manager.c:202-240 | the rebuild fills every cell; the tile of a coordinate in both windows moves to its new cell in the same slot, with its record untouched |
| Chunks.ChunkManager.ClearWindow | chunk_manager.c:204-208 | the old window is saved and every cell cleared, the centre becomes the new one, and every saved tile is pending reuse with its record as it was |
| Chunks.ChunkManager.RebuildWindow | chunk_manager.c:211-232 | each cell, in dy/dx order, reuses the old tile at its coordinate or loads a new one, never writing a reused tile's record |
| Chunks.ChunkManager.PlaceCell | chunk_manager.c:213-230 | one cell of the rebuild: the window invariant and the reuse bookkeeping advance by one cell, and the records of reused tiles are kept |
| Chunks.ChunkManager.ReuseCell | chunk_manager.c:226-227 | the cell takes the old tile found at its coordinate, which stops being pending; no pool record changes |
| Chunks.ChunkManager.LoadCell | chunk_manager.c:228-229 | with no old tile at the coordinate, a fresh tile goes into a free slot, which always exists, and no reused tile's record is written |
| Chunks.ChunkManager.ReleaseOld | chunk_manager.c:234-239 | every old tile not reused goes back to the pool, restoring the manager's invariant and leaving reused records alone |
| Chunks.ChunkManager.ReleaseSlot | chunk_manager.c:236-238 | an old cell still pending: its tile, if any, goes back to the pool and is no longer pending; the reused records are untouched |
| Chunks.ChunkManager.GetChunkAt | chunk_manager.c:243-252 | the tile of the window cell holding the position, if any; none means no window tile has that coordinate |
| Chunks.ChunkManager.CheckCollision | chunk_manager.c:254-264 | false outside the window, otherwise the tile's collision at the local position |
| Chunks.ChunkManager.CheckCollisionIsWorld | chunk_manager.c:254-264 | with generated tiles, the lookup is the world's collision map at that position |
| Terrain.NextSeed | terrain.c:22-25 | the LCG step `seed * 1103515245 + 12345` modulo 2^32 |
| Terrain.SeedByte | terrain.c:22-25 | bits 16..23 of the state, a byte |
| Terrain.RangeOffset | terrain.c:27-29 | a byte scaled into [-(range/2), range - range/2] |
| Terrain.DiamondAt | terrain.c:91-110 | the centre gets the truncated corner average plus one offset, clamped to 0..255; off-tile corners read 0 |
| Terrain.SquareAt | terrain.c:112-146 | the average of the in-bounds neighbours plus one offset, clamped; with no neighbour nothing is drawn or written |
| Terrain.StepsWriteOnlyTheirCell | terrain.c:91-146 | a diamond or square step writes at most its own cell |
| Terrain.RowParityIsQuotientParity | terrain.c:166-167 | the counted row parity is `(y / half) % 2` |
| Terrain.Passes | terrain.c:148-175 | passes while size >= 3; after each the size becomes size/2 + 1 and the roughness halves |
| Terrain.FivePasses | terrain.c:148-175 | a 33x33 tile runs sizes 33, 17, 9, 5, 3 with roughness 80, 40, 20, 10, 5 |
| Terrain.Corners | terrain.c:80-89 | reseed, then draw the four corners in order, each in 70..179 |
| Terrain.HeightsFor | terrain.c:31-56 | the generated height map is a function of the seed alone |
| Terrain.Despeckle | terrain.c:207-236 | a land cell survives exactly when one of its 8 neighbours was land before filtering |
| Terrain.CollisionFor | terrain.c:177-239 | the collision mask of a height map at a threshold |
| Terrain.LandIffRaisedWithRaisedNeighbour | terrain.c:177-239 | a cell is land exactly when it and one of its in-tile neighbours are above the threshold |
| Terrain.LowerThresholdMoreLand | terrain.c:177-239 | a lower threshold never removes land |
| Terrain.CheckCollision | terrain.c:241-246 | false for a missing tile or an off-tile cell; otherwise the mask entry at row y, column x (for a generated tile that is the generated map, as `Chunks.ChunkManager.CheckCollisionIsWorld` states) |
| Terrain.TerrainManager.constructor | terrain.c:31-56 | the tile is generated: heights `HeightsFor(seed)` and mask `CollisionFor` at the threshold |
| Terrain.TerrainManager.Srand | terrain.c:18-20 | the generator state becomes the given seed |
| Terrain.TerrainManager.SetHeightAt | terrain.c:73-78 | the height map is `SetHeight` of the old one: the cell is written when it is on the tile, otherwise nothing changes |
| Terrain.TerrainManager.Rand | terrain.c:22-25 | advances the state and returns bits 16..23 |
| Terrain.TerrainManager.RandRange | terrain.c:27-29 | one draw scaled into the symmetric range |
| Terrain.TerrainManager.InitCorners | terrain.c:80-89 | the height map and generator state become `Corners` |
| Terrain.TerrainManager.DiamondStep | terrain.c:91-110 | the state becomes `DiamondAt` |
| Terrain.TerrainManager.CornerTotal | terrain.c:95-101 | the sum of the four diagonal corners at distance half, each read as 0 off the tile (`CornerSum`) |
| Terrain.TerrainManager.SquareStep | terrain.c:112-146 | the state becomes `SquareAt` |
| Terrain.TerrainManager.GatherSquareSamples | terrain.c:114-133 | the sum and number of the orthogonal neighbours at distance half that lie on the tile (`SquareSamples`) |
| Terrain.TerrainManager.GenerateDiamondSquare | terrain.c:148-175 | the state becomes `Passes` from the corners at size 33, roughness 80 |
| Terrain.TerrainManager.DiamondSweep | terrain.c:159-163 | the state becomes the diamond half of the pass |
| Terrain.TerrainManager.SquareSweep | terrain.c:166-170 | the state becomes the square half of the pass |
| Terrain.TerrainManager.ApplyElevationThreshold | terrain.c:177-239 | the mask becomes `CollisionFor` of the heights at the threshold |
| Terrain.TerrainManager.ThresholdSweep | terrain.c:181-193 | a cell is land exactly when its height exceeds the threshold |
| Terrain.TerrainManager.DespeckleSweep | terrain.c:207-236 | clears exactly the land cells without a land neighbour in the snapshot |
| Terrain.TerrainManager.LandNeighbour | terrain.c:211-229 | true exactly when one of the 8 neighbours on the tile is land in the snapshot (`HasSetNeighbour`) |
| HashChart.SonarHash | game.c:14-16 | both coordinates cast to uint32_t, weighted by 73 and 151 with wrap-around, masked to 8 bits |
| HashChart.SonarHashIsWeightedSum | game.c:14-16 | the hash is `(73x + 151y) mod 256` for all coordinates |
| HashChart.NeighboursHashApart | game.c:14-16 | horizontally or vertically adjacent cells never share a bucket |
| HashChart.FirstMatch | game.c:51-56 | the first live entry at the cell, or -1 |
| HashChart.OldestUnique | game.c:65-73 | the replacement scan has exactly one answer |
| HashChart.AddedIsDiscovered | game.c:39-80 | after an add the cell is discovered, the bucket has at most 4 entries, and every other entry was there before |
| HashChart.RediscoveryKeepsSize | game.c:51-56 | a rediscovery keeps the bucket's size |
| HashChart.Unfaded | game.c:122-132 | the entries not yet faded, in order |
| HashChart.UnfadedMembers | game.c:122-132 | an entry is kept exactly when it was present and unfaded |
| HashChart.CompactionKeepsDiscovery | game.c:122-132 | compaction never changes whether a cell is discovered at that time |
| HashChart.CleanupKeepsDiscovery | game.c:104-136 | a cleanup run changes no discovery answer at its own time |
| HashChart.WindowStep | game.c:116-117 | step i of the cleanup visits the one bucket at distance i from the offset |
| HashChart.SonarChart.constructor | game.c:18-31 | zeroed buckets, last cleanup 0, offset 0 |
| HashChart.SonarChart.AddPoint | game.c:39-80 | out-of-range cells are ignored; otherwise only the cell's bucket changes, and the cell is discovered afterwards |
| HashChart.SonarChart.AddToBucket | game.c:50-79 | refreshes the cell's entry, else appends while there is room, else overwrites the oldest entry |
| HashChart.SonarChart.FindEntry | game.c:51-56 | returns `FirstMatch` |
| HashChart.SonarChart.OldestSlot | game.c:66-73 | returns the first entry with the smallest time when some entry is older than now, and 0 otherwise |
| HashChart.SonarChart.IsDiscovered | game.c:82-102 | true exactly when the cell is in range and an unfaded entry for it exists |
| HashChart.SonarChart.Compact | game.c:122-132 | the bucket's live entries become `Unfaded` of the old ones |
| HashChart.SonarChart.CompactStep | game.c:123-131 | one read position: an unfaded entry moves to the write position |
| HashChart.SonarChart.CleanupOldPoints | game.c:104-136 | within 2000 ms nothing changes; otherwise the next 64 buckets from the offset are compacted, the rest unchanged, and the offset advances by 64 modulo 256 |
| HashChart.SonarChart.CleanBucket | game.c:117-132 | compacting the bucket at distance i extends the cleaned range by one |

## Left out

- Floating point is not modelled:
  - angles, direction tables and pattern creation (`raycaster.c:11-70`): the tables are constructor parameters;
  - `sonar_chart_get_fade_level`;
  - float player positions: `chunk_manager_update` takes integer world positions, and `floorf(x / 33)` becomes floor division.
- Logging, per-frame statistics counters, `*_reset_frame_stats`, `*_log_performance` and `terrain_render_area` are left out because they are output only.
- malloc failure, `*_free` and `*_cleanup` are not modelled. Allocations in the model always succeed. `sonar_quad_free` becomes a pool release of the child slots, which is all `sonar_quad_subdivide` needs.
- `SonarCharts.SonarChart.constructor`: the point records, which `sonar_chart_alloc` leaves uninitialised, are zeros. `sonar_chart_free` is not modelled.
- The chunk cache (`chunk_manager_get_from_cache`, `chunk_manager_cache_chunk`) does nothing in the source and is not modelled.
- `SonarCharts.SonarChart.Query`: the success flag is stated one-sidedly. Success implies that everything fitted, and fitting with room to spare implies success. When the findings exactly fill the buffer the flag depends on where the last point was, and this is not stated.
- `SonarCharts.SonarChart.Insert`: where an accepted point ends up below an inner node is not stated. The contract gives the held points, soundness and growth.
- `SonarCharts.SonarChart.SweepLeaf`: the leaf's compaction in place is modelled as building the kept list and storing it in the node.
- `SonarCharts.SonarChart.AllocNode`: the pool cursors are subset-typed fields, so their range is a type fact rather than part of an invariant.
- `Raycaster.RayCaster.CastRay`: the Bresenham fields of the ray caster struct are local state of the cast. Their values after a cast are not kept in the object.
- `Raycaster.Cast`: the collision callback is the set of cells it reports as land. A callback with side effects or with context cannot be expressed.
- `Chunks.Hash`: the source multiplies in signed `int`, so `chunk_x * 73856093` overflows once |chunk_x| >= 30, and `chunk_y * 19349663` once |chunk_y| >= 111. That is undefined behaviour in C. The model takes the product modulo 2^32, as two's-complement hardware gives it, and does not model the undefined behaviour.
- `Chunks.ChunkManager.Update`: the manager does not track that each pool tile stays generated. `CheckCollisionIsWorld` takes that as its precondition.
- `Terrain.TerrainManager.constructor`: the uninitialised height buffer is modelled as zeros. The seeded generator is a field of the tile rather than the source's file-level static.
- `HashChart.SonarChart.CleanupOldPoints`: the function-level static `cleanup_offset` is a field of the chart.

## Findings

| source | as written | input that shows it | evidently intended | confidence | as-written member | corrected member |
|---|---|---|---|---|---|---|
| raycaster.c:92-115 | `bresham_dx`/`bresham_dy` serve both as error deltas and as remaining-step counters, so the error tests drift and a counter can pass zero; the target fields `bresham_x1`/`bresham_y1` (raycaster.h:48) are never set | a line from (0,0) to (2,3): the y counter goes negative, the stepper sits at (1,5) for ever reporting a move, and never reaches x = 2; a cast along (555, 832) over 4 cells ends at (1,4) instead of (2,3) | classic Bresenham with fixed deltas, ending on the target cell | high, not executed | Raycaster.StepperStallsOffTarget | Raycaster.LineTo |
