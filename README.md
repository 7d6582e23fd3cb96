# UselessEngine, modelled in Dafny

UselessEngine is a small 2D/2.5D game engine in Swift. It exists as two trees:
the Swift package under `Sources/` and the older app framework under
`UselessEngine/`. This project models the logic at the core of both trees. It
covers the broad-phase collision grids and their segment walk, the
axis-aligned boxes, the game-object trees with their cascading property
observers, and the command queues. From the older tree it also covers the
world (terrain, tiles, checkpoints and the per-tick update), the path-finding
graph with its A* search, the observer list, the flag allocator, the frame
animation, the collision delegate and component, the configuration and
settings values, and the exact arithmetic of vectors and positions.

Modules whose names start with `Package` model `Sources/`. Modules whose names
start with `Legacy` model `UselessEngine/`. `GridCells`, `Hierarchy`, `Flags`,
`Numeric`, `Sets`, `Sequences` and `Wrappers` hold what both trees share.

Some modelling choices apply throughout:

- Swift `Float` is modelled as `real`. `AABB.epsilon` is kept as a named constant.
- Reference objects (game objects, tiles, observers) are int handles.
- Swift structs are values. Each `mutating func` is a method, proved equal to the operator or function that specifies it.
- Classes whose fields the source updates in place are Dafny classes. Their methods state the new value of each field they change. The exceptions are listed under "Left out".
- A game-object tree is an arena class. It holds each stored property as a map from handle to value.
- The `didSet` cascades are methods over those maps.
- A ghost rank that grows from child to parent stands for "the links form a forest".
- Collaborators whose bodies are outside the core are parameters of the operations that call them. These are delegates, the graph's cost and heuristic, component updates and `UUID()`.

## Model

| member | source | states |
|---|---|---|
| PackageAabb.Make | Sources/Physics/AABB.swift:127-139 | the cached centre is `position + hw·2·(0.5 − anchor)` per axis, minimum is centre − halfwidths and maximum is centre + halfwidths |
| PackageAabb.UpdateRelativePositions | Sources/Physics/AABB.swift:127-139 | the recomputed box is consistent (derived corners agree with position, halfwidths and anchor) and keeps the three inputs |
| PackageAabb.Init | Sources/Physics/AABB.swift:38-56 | both initializers store the three inputs and leave the box consistent |
| PackageAabb.SetPosition | Sources/Physics/AABB.swift:12-16 | a position write stores the new position, keeps halfwidths and anchor, and re-derives centre, minimum and maximum |
| PackageAabb.SetHalfwidths | Sources/Physics/AABB.swift:19-23 | a halfwidths write stores the new halfwidths, keeps position and anchor, and re-derives the corners |
| PackageAabb.SetAnchor | Sources/Physics/AABB.swift:26-30 | an anchor write stores the new anchor, keeps position and halfwidths, and re-derives the corners |
| PackageAabb.DefaultAnchorCentersOnPosition | Sources/Physics/AABB.swift:47-56 | with the default anchor 0.5 the centre is the position and the minimum is position − halfwidths |
| PackageAabb.AnchorExtremes | Sources/Physics/AABB.swift:127-139 | anchor 0 puts the position on the minimum corner, anchor 1 on the maximum corner |
| PackageAabb.ContainsIsWithinHalfwidths | Sources/Physics/AABB.swift:66-80 | `contains(p)` holds iff p is within the halfwidths of the centre on x, y and z, bounds included |
| PackageAabb.CornersAreContained | Sources/Physics/AABB.swift:66-80 | containment is inclusive: minimum, maximum and centre are inside a box with non-negative halfwidths |
| PackageAabb.IntersectAsWritten | Sources/Physics/AABB.swift:82-105 | nil iff some axis penetration `(hwA+hwB) − abs(Δcentre)` is below 1e-6; a hit carries `(px·sx, py·sy)` and the normal `(sy, sy)` as written |
| PackageAabb.Intersect | Sources/Physics/AABB.swift:82-105 | the same hit test and delta, with the normal `(sx, sy)` the code evidently intends |
| PackageAabb.NormalFollowsDelta | Sources/Physics/AABB.swift:101-104 | each component of the corrected normal is negative exactly when the matching delta component is |
| PackageAabb.IntersectSwapped | Sources/Physics/AABB.swift:83-102 | swapping the boxes keeps hit/miss and `abs(delta)`, and flips the sign of each delta component unless the centres coincide on that axis |
| PackageAabb.MinkowskiDifference | Sources/Physics/AABB.swift:58-64 | the difference has the summed halfwidths, the default anchor and consistent corners |
| PackageAabb.MinkowskiContainsOriginIffOverlap | Sources/Physics/AABB.swift:58-64 | the difference is centred on the centre offset and contains the origin iff no axis penetration is negative, so whenever `intersect` hits |
| PackageAabb.MinkowskiMissesApartBoxes | Sources/Physics/AABB.swift:58-80 | boxes further apart on x or y than their halfwidths reach give a difference without the origin |
| PackageAabb.SlabInPlace | Sources/Physics/AABB.swift:141-177 | the slab helper with `inout tNear`/`tFar` returns true iff the slab step accepts, and then leaves the narrowed window in the two variables |
| PackageAabb.IntersectRay | Sources/Physics/AABB.swift:108-123 | the ray test with its early returns on x, y and (unless `ignoringZ`) z equals the specification `RayCast` |
| PackageAabb.FinishRay | Sources/Physics/AABB.swift:116-122 | picks `t = max(tNear, tFar)` when either is negative, else the minimum, and returns `position + t·direction` |
| PackageAabb.CrossingsBracket | Sources/Physics/AABB.swift:150-157 | t lies between the sorted plane crossings iff the point at t is between the slab's two planes |
| PackageAabb.NarrowSound | Sources/Physics/AABB.swift:159-173 | a window the narrowing step accepts lies inside the old window and the crossing interval |
| PackageAabb.NarrowComplete | Sources/Physics/AABB.swift:159-173 | narrowing keeps every non-negative parameter of the window that is between the crossings |
| PackageAabb.SlabKeepsSane | Sources/Physics/AABB.swift:141-177 | an accepting slab keeps the window sane; a slab parallel to the ray passes the window unchanged |
| PackageAabb.SlabSound | Sources/Physics/AABB.swift:141-177 | every parameter of an accepted slab's window gives a point inside that slab |
| PackageAabb.SlabComplete | Sources/Physics/AABB.swift:141-177 | a slab accepts and keeps every non-negative parameter of the window whose point is inside it |
| PackageAabb.SlabKeepsSaneWindow | Sources/Physics/AABB.swift:108-114 | the window after all tested slabs is sane |
| PackageAabb.ChosenInWindow | Sources/Physics/AABB.swift:116 | the chosen finite `t` of a sane window lies in the window and is not negative |
| PackageAabb.RayHitIsInside | Sources/Physics/AABB.swift:108-123 | a hit is the point at some `t ≥ 0` of the ray that is inside every tested slab |
| PackageAabb.RayCastFindsInsidePoint | Sources/Physics/AABB.swift:108-123 | if a point in front of the ray origin is inside every tested slab, the test does not miss |
| PackageAabb.RayNonFiniteIffParallel | Sources/Physics/AABB.swift:109-122 | the result is the non-finite point (t = ±infinity) iff no tested direction component is set and the origin is inside those slabs |
| PackageAabb.RayCastAtWindow | Sources/Physics/AABB.swift:116-122 | a window whose chosen parameter is t yields the point at t |
| PackageAabb.UnitSlab | Sources/Physics/AABB.swift:150-165 | on an axis with direction 1 the slab crosses its planes at `min − p` and `max − p` |
| PackageAabbExamples.AsWrittenNormalIgnoresX | Sources/Physics/AABB.swift:101-104 | as written, a box overlapping from the left still gets a normal whose x component is +1 |
| PackageAabbExamples.MinkowskiHitExample | Tests/UselessEngineTests/AABBTests.swift:22-31 | the boxes at (5, 5) and (5, 10) with halfwidths 5 give a difference containing the origin |
| PackageAabbExamples.BoxAtTenIsMade | Tests/UselessEngineTests/AABBTests.swift:34 | the constant box at (10, 10) is the one the initializer builds |
| PackageAabbExamples.MinkowskiMissesFarBox | Tests/UselessEngineTests/AABBTests.swift:33-43 | any box of halfwidth 5 more than 10 away on x or y misses the box at (10, 10) |
| PackageAabbExamples.MinkowskiMissExamples | Tests/UselessEngineTests/AABBTests.swift:33-43 | the four boxes 1e-5 beyond touching do not overlap the box at (10, 10) |
| PackageAabbExamples.SeparatingAxisExample | Tests/UselessEngineTests/AABBTests.swift:45-53 | the boxes at (10, 10) and (15, 15) intersect |
| PackageAabbExamples.RayMissExamples | Tests/UselessEngineTests/AABBTests.swift:55-58 | the two rays beside the cube miss it |
| PackageAabbExamples.RayHitFromMinimumCorner | Tests/UselessEngineTests/AABBTests.swift:59 | the diagonal ray from (−10, −10) hits the cube at its minimum corner |
| PackageAabbExamples.RayHitFromMaximumCorner | Tests/UselessEngineTests/AABBTests.swift:60 | the diagonal ray from (10, 10) hits the cube at its maximum corner |
| PackageAabbExamples.RayIgnoringZExample | Tests/UselessEngineTests/AABBTests.swift:63-68 | the rising ray hits the box at (6, 6) when z is ignored |
| PackageAabbExamples.RayWithZExample | Sources/Physics/AABB.swift:114 | the same ray misses the box when the z slab is tested |
| PackageAabbExamples.CubeIsMade | Tests/UselessEngineTests/AABBTests.swift:56 | the constant cube is the one the initializer builds |
| PackageAabbExamples.BoxAtSixIsMade | Tests/UselessEngineTests/AABBTests.swift:64 | the constant box at (6, 6) is the one the initializer builds |
| PackageAabbExamples.MinimumCornerWindow | Sources/Physics/AABB.swift:141-177 | the ray from the minimum corner keeps the window [0, 20] through every slab |
| PackageAabbExamples.MaximumCornerWindow | Sources/Physics/AABB.swift:141-177 | the ray from the maximum corner keeps the window [−20, 0] through every slab |
| PackageAabbExamples.OverBoxAtSixWindow | Sources/Physics/AABB.swift:141-177 | the x and y slabs narrow the rising ray to the window [1, 11] |
| LegacyAabb.Aabb.constructor | UselessEngine/Physics/AABB.swift:34-43 | stores position, halfwidths and anchor and derives the centre |
| LegacyAabb.Aabb.UpdateCenterPosition | UselessEngine/Physics/AABB.swift:77-83 | the centre becomes `position + 2·(0.5 − anchor)·hw` per axis |
| LegacyAabb.Aabb.SetPosition | UselessEngine/Physics/AABB.swift:12-20 | a position write shifts the centre by the same offset, so `centre − position` is unchanged |
| LegacyAabb.Aabb.SetAnchor | UselessEngine/Physics/AABB.swift:26-30 | an anchor write recomputes the centre; halfwidths and position stay |
| LegacyAabb.Overlap | UselessEngine/Physics/AABB.swift:45-75 | nil iff some axis penetration is ≤ 0; otherwise the x axis when `px < py`, else y, with the penetration signed toward the other centre, 0 on the other axis, the unit sign as normal, and the hit point on this box's face on that axis, level with the other centre |
| LegacyAabb.OverlapPicksShallowerAxis | UselessEngine/Physics/AABB.swift:58-74 | the reported offset is at most the smaller of the x and y penetrations and zero on the other axis, so z is never reported |
| LegacyAabb.OverlapSeparates | UselessEngine/Physics/AABB.swift:64-74 | moving the other box by the reported offset, further away from this one along that axis, leaves the boxes just touching, which is no hit |
| LegacyAabb.OverlapExample | UselessEngine/Physics/AABB.swift:64-68 | two concrete boxes report the shallower x overlap, pushing the other box right |
| LegacyAnimation.ClampElapsed | UselessEngine/Graphics/Animation.swift:23-27 | every stored `elapsed` lies in [0, 1] |
| LegacyAnimation.InitialRates | UselessEngine/Graphics/Animation.swift:70-77 | one rate per installed texture: the given rate where one is supplied, the default frame rate after it |
| LegacyAnimation.EmptyTexturesLeaveNoRate | UselessEngine/Graphics/Animation.swift:68-77 | as written, no textures give one placeholder texture but no rates; with rates supplied as well, the range `0...-1` traps |
| LegacyAnimation.InitialRatesAgreeWithTextures | UselessEngine/Graphics/Animation.swift:68-77 | with at least one texture the as-written rate set-up equals the corrected one |
| LegacyAnimation.Animation.HeadFrame | UselessEngine/Graphics/Animation.swift:48-60 | the head-frame initializer makes one frame with its rate, index 0, no time spent, and renders it |
| LegacyAnimation.Animation.Frames | UselessEngine/Graphics/Animation.swift:62-82 | the texture initializer installs the textures (a placeholder when none), one rate per texture, index 0 and time 0, and renders the first frame |
| LegacyAnimation.Animation.AddFrame | UselessEngine/Graphics/Animation.swift:103-106 | appends the texture and its rate, the default rate when 0 is given; index, time and shown frame stay |
| LegacyAnimation.Animation.Update | UselessEngine/Graphics/Animation.swift:113-133 | nothing once `elapsed ≥ 1`; otherwise time grows by rate·dt and on reaching 1 a non-last frame advances with time reset, the last frame wraps to 0 when repeating and stays finished otherwise; the index stays in range |
| LegacyAnimation.Animation.SetFrame | UselessEngine/Graphics/Animation.swift:135-142 | an index past the last frame is ignored; otherwise a negative index or time becomes 0, time is clamped to 1, and the frame is rendered only when asked |
| LegacyAnimation.Animation.Reset | UselessEngine/Graphics/Animation.swift:144-148 | back to index 0 with no time spent, rendered only when asked |
| LegacyAnimation.FillRates | UselessEngine/Graphics/Animation.swift:70-77 | the fill-then-overwrite loop produces exactly the specified per-texture rates |
| LegacyCollision.TestContact | UselessEngine/Physics/PhysicsCollisionDelegate.swift:29-38 | false without the other delegate; otherwise true iff the category/contact masks meet in either direction and the contact boxes intersect |
| LegacyCollision.TestCollision | UselessEngine/Physics/PhysicsCollisionDelegate.swift:43-52 | nil without the other delegate or when the collision masks do not meet; otherwise the box intersection result |
| LegacyCollision.BoxHitSymmetric | UselessEngine/Physics/AABB.swift:45-62 | whether two contact boxes overlap does not depend on which one asks |
| LegacyCollision.TestContactSymmetric | UselessEngine/Physics/PhysicsCollisionDelegate.swift:34-37 | swapping the two objects gives the same contact answer |
| LegacyCollision.NoMasksNoContact | UselessEngine/Physics/PhysicsCollisionDelegate.swift:34-51 | a delegate whose masks are all `.none` neither touches nor collides with anything |
| LegacyCollision.AllMeetsAnyCategory | UselessEngine/Physics/PhysicsCollisionDelegate.swift:35-36 | `.all` meets every non-empty category under the bitwise AND test |
| LegacyCollision.StockHandler | UselessEngine/Physics/PhysicsCollisionDelegate.swift:40-41 | the stock contact handler, and the stock collision handler of lines 54-55, which has the same empty body, leave the world unchanged |
| LegacyCollision.CollisionComponent.constructor | UselessEngine/GameObjectCollisionComponent.swift:26-34 | stores the category, both masks and the contact box, with both tests enabled, so both getters give the stored masks |
| LegacyCollision.CollisionComponent.ContactBitmask | UselessEngine/GameObjectCollisionComponent.swift:13-15 | the stored contact mask while contact is enabled, `.none` otherwise |
| LegacyCollision.CollisionComponent.CollisionBitmask | UselessEngine/GameObjectCollisionComponent.swift:17-19 | the stored collision mask while collision is enabled, `.none` otherwise |
| LegacyCollision.CollisionComponent.ToggleContact | UselessEngine/GameObjectCollisionComponent.swift:36-38 | sets the contact switch; the collision getter and every stored mask stay |
| LegacyCollision.CollisionComponent.ToggleCollision | UselessEngine/GameObjectCollisionComponent.swift:40-42 | sets the collision switch; the contact getter and every stored mask stay |
| LegacyCollision.DisabledContactOnlyByCategory | UselessEngine/Physics/PhysicsCollisionDelegate.swift:34-36 | with contact switched off, an object is contactable only through its category meeting the other's contact mask |
| PackageCommand.Level | Sources/GameObjectCommand.swift:11-16 | the synthesized `Comparable` order is declaration order low < medium < high < urgent, with urgent on top |
| PackageCommand.LevelIsInjective | Sources/GameObjectCommand.swift:11-16 | the order is total: distinct priorities have distinct levels |
| PackageCommandQueue.UniqueIdsByPosition | Sources/GameObjectCommand.swift:29-35 | in a queue without repeated ids, entries at two positions have different ids |
| PackageCommandQueue.WithoutCommand | Sources/GameObjectCommandQueueingComponent.swift:26 | `removeAll(where:)` keeps exactly the entries of other commands, in order, and never grows |
| PackageCommandQueue.Insert | Sources/GameObjectCommandQueueingComponent.swift:30-35 | inserting into a sorted queue keeps it sorted and adds exactly the one entry |
| PackageCommandQueue.CommandQueueingComponent.constructor | Sources/GameObjectCommandQueueingComponent.swift:14-18 | a new component has an empty queue |
| PackageCommandQueue.CommandQueueingComponent.Queue | Sources/GameObjectCommandQueueingComponent.swift:20-37 | urgent replaces the queue with exactly the new entry; otherwise the entries of the same command go, the new one is added and the queue is sorted by ascending priority, ties newest first; ids stay unique and length grows by at most one |
| PackageCommandQueue.CommandQueueingComponent.Update | Sources/GameObjectCommandQueueingComponent.swift:39-43 | pops and hands over the last entry; an empty queue stays empty and nothing is handed over |
| PackageCommandQueue.SortEntries | Sources/GameObjectCommandQueueingComponent.swift:30-35 | the sort yields a sorted permutation of its input |
| PackageCommandQueue.LastIsMostUrgent | Sources/GameObjectCommandQueueingComponent.swift:30-40 | the last entry of a sorted queue has the highest priority and is the oldest of that priority |
| LegacyCommandQueue.Above | UselessEngine/GameObjectCommandQueueingComponent.swift:24 | the filter keeps exactly the entries of strictly higher priority, in order |
| LegacyCommandQueue.AboveKeepsOrder | UselessEngine/GameObjectCommandQueueingComponent.swift:24 | filtering a queue of strictly increasing priority keeps it strictly increasing |
| LegacyCommandQueue.IncreasingIsShort | UselessEngine/GameObjectCommandQueueingComponent.swift:22-26 | a queue of strictly increasing priorities holds at most one entry per level |
| LegacyCommandQueue.CommandQueueingComponent.constructor | UselessEngine/GameObjectCommandQueueingComponent.swift:12-16 | a new component has an empty queue |
| LegacyCommandQueue.CommandQueueingComponent.Queue | UselessEngine/GameObjectCommandQueueingComponent.swift:18-28 | urgent makes the queue exactly the new entry; otherwise the new entry followed by the strictly higher-priority entries in order; priorities stay strictly increasing and the length at most 4 |
| LegacyCommandQueue.CommandQueueingComponent.Update | UselessEngine/GameObjectCommandQueueingComponent.swift:30-34 | pops the last, most urgent entry; an empty queue is a no-op |
| LegacyCommandComponent.RawValue | UselessEngine/GameObjectCommand.swift:11-15 | raw values are high = 1, medium = 2, low = 3 |
| LegacyCommandComponent.MoreUrgentMembers | UselessEngine/GameObjectCommandComponent.swift:23-27 | the backward removal keeps exactly the commands with a smaller raw value (more urgent) than the new one |
| LegacyCommandComponent.HighKeepsNothing | UselessEngine/GameObjectCommandComponent.swift:18-20 | the `.high` branch empties the queue, which is also what the removal loop would keep |
| LegacyCommandComponent.MoreUrgentKeepsOrder | UselessEngine/GameObjectCommandComponent.swift:23-27 | the kept commands stay in strictly decreasing raw-value order |
| LegacyCommandComponent.MoreUrgentStep | UselessEngine/GameObjectCommandComponent.swift:23-27 | one step of the backward loop: index i is dropped or kept in front of what is kept after it |
| LegacyCommandComponent.RemoveLessUrgent | UselessEngine/GameObjectCommandComponent.swift:23-27 | the loop of `remove(at:)` calls from the back yields exactly the more urgent commands in order |
| LegacyCommandComponent.DecreasingIsShort | UselessEngine/GameObjectCommandComponent.swift:23-30 | a queue of strictly decreasing raw values holds at most one command per priority |
| LegacyCommandComponent.CommandComponent.constructor | UselessEngine/GameObjectCommandComponent.swift:11-15 | a new component has an empty queue |
| LegacyCommandComponent.CommandComponent.Queue | UselessEngine/GameObjectCommandComponent.swift:17-31 | the new command goes to index 0 ahead of the strictly more urgent commands, in order; raw values stay strictly decreasing and the length at most 3 |
| LegacyCommandComponent.CommandComponent.DequeueAndDoCommand | UselessEngine/GameObjectCommandComponent.swift:33-41 | pops the last, most urgent command; an empty queue is a no-op |
| Flags.Bit | UselessEngine/GameObjectFlags.swift:32 | `1 << k` for k ≤ 63 is never `none` |
| Flags.SetThenContains | Sources/GameObject.swift:181-187 | after `set(flags:)` the set contains what was set and everything it held before |
| Flags.ClearThenLacks | Sources/GameObject.swift:189-191 | after `clear(flags:)` no bit of the cleared flags remains |
| Flags.ClearKeepsOthers | Sources/GameObject.swift:189-191 | `clear(flags:)` leaves the bits outside the cleared flags as they were |
| Flags.ClearKeepsContained | Sources/GameObject.swift:185-191 | a flag disjoint from the cleared ones is contained after `clear` exactly when it was before |
| Flags.ClearUndoesSet | Sources/GameObject.swift:181-191 | clearing undoes setting a flag that was absent |
| Flags.ContainsNone | UselessEngine/GameObjectFlags.swift:13 | every flag set contains `none` (raw value 0) |
| Flags.ShiftsDisjoint | UselessEngine/GameObjectFlags.swift:32 | one bit shifted by two different amounts below 64 gives disjoint results |
| Flags.BitsDisjoint | UselessEngine/GameObjectFlags.swift:23-33 | different indices give disjoint, different single-bit flags |
| Flags.FlagAllocator.constructor | UselessEngine/GameObjectFlags.swift:16-17 | the allocator starts at index 0 with no flag handed out |
| Flags.FlagAllocator.CreateFlag | UselessEngine/GameObjectFlags.swift:23-33 | while the index is at most 63, returns `1 << index` and advances the index by one; past 63 returns `none` and the index stays, as the `defer` is registered after the guard |
| Flags.CreatedDisjoint | UselessEngine/GameObjectFlags.swift:16-33 | the flags one allocator hands out are pairwise disjoint and none of them is `none` |
| LegacySettings.Configuration.WithSunAngleInDegrees | UselessEngine/GameWorldConfiguration.swift:17-25 | stores `clamp(v, 0, 180)` and the matching radians `degrees·π/180`; the other fields stay |
| LegacySettings.Configuration.WithSunAngleInRadians | UselessEngine/GameWorldConfiguration.swift:26-34 | stores `clamp(v, 0, π)` and the matching degrees `radians·180/π`; the other fields stay |
| LegacySettings.NewConfiguration | UselessEngine/GameWorldConfiguration.swift:36-49 | after `init` the degrees equal `clamp(input, 0, 180)` through the deferred setter, and tile size, cell size and gravity are the inputs |
| LegacySettings.DegreesRadiansRoundTrip | UselessEngine/GameWorldConfiguration.swift:17-34 | an in-range angle set in degrees reads back as the same angle in radians, and the other way round |
| LegacySettings.SunAngleClampExamples | UselessEngine/GameWorldConfiguration.swift:22-31 | −10° gives 0 rad, 400° gives π rad, 7 rad gives 180° |
| LegacySettings.NewCoefficients | UselessEngine/Physics/PhysicsCoefficients.swift:20-24 | friction and drag are `max(input, 0)`, bounce is `min(max(input, 0), 0.95)` |
| LegacySettings.NewCoefficientsIdempotent | UselessEngine/Physics/PhysicsCoefficients.swift:20-24 | coefficients already in range pass through unchanged |
| LegacySettings.Settings.constructor | UselessEngine/Settings.swift:13-16 | the shipped defaults are frame rate 10 and boost decay 0.1 |
| LegacySettings.Settings.SetDefaultAnimationFrameRate | UselessEngine/Settings.swift:25-28 | stores any `UInt8`, zero included; the boost default stays |
| LegacySettings.Settings.SetDefaultMinimumBoostDecayValue | UselessEngine/Settings.swift:30-37 | stores a positive value and ignores one ≤ 0; the frame-rate default stays |
| Numeric.Clamp | UselessEngine/GameWorldConfiguration.swift:22 | `clamp(v, lo, hi)` lies in [lo, hi], is v inside the range and the nearer end outside it |
| Numeric.Round | UselessEngine/GameWorldTerrain.swift:57-61 | Swift's `round` is within 0.5 of its argument and takes halves away from zero |
| Numeric.RoundOfInteger | UselessEngine/GameWorldTerrain.swift:57-61 | rounding an integer gives it back |
| Sequences.FirstIndex | UselessEngine/GameTile.swift:75-79 | `firstIndex(where: { $0 === o })` finds o and no earlier copy of it |
| Sequences.RemoveFirstCount | UselessEngine/GameTile.swift:75-79 | removing the first occurrence drops exactly one copy when there is one |
| Sequences.RemoveFirstAt | UselessEngine/GameTile.swift:75-79 | removing the first occurrence is `remove(at:)` at its index |
| Sequences.Reversed | UselessEngine/GameWorldGraph.swift:118-129 | `reversed()` lists the elements back to front |
| Sequences.ReversedTwice | UselessEngine/GameWorldGraph.swift:118-129 | reversing twice gives the sequence back |
| LegacyTile.RemoveFirstKeepsNoDuplicates | UselessEngine/GameTile.swift:67-79 | removing an object keeps a duplicate-free list duplicate-free |
| LegacyTile.GameTile.constructor | UselessEngine/GameTile.swift:35-42 | a new tile is at the origin with its elevation, no objects and no neighbour links |
| LegacyTile.GameTile.Add | UselessEngine/GameTile.swift:67-73 | returns true iff the object was not on the tile, and then appends it at the end; otherwise the list is unchanged; the list stays duplicate-free |
| LegacyTile.GameTile.Remove | UselessEngine/GameTile.swift:75-79 | drops only the first identical entry, so the object is gone and every other entry stays in order; an absent object changes nothing |
| LegacyTile.GameTile.Neighborhood | UselessEngine/GameTile.swift:55-65 | the visited tiles start with this tile, followed by u, u.r, r, r.d, d, d.l, l, l.u where linked |
| LegacyTile.GameTile.ExecuteOnObjectsAndNeighbors | UselessEngine/GameTile.swift:55-65 | `work` receives the objects of the tile and its linked neighbours, tile by tile in that order |
| LegacyTile.VisitArm | UselessEngine/GameTile.swift:57-64 | visiting one link and its corner appends their objects in that order, skipping missing tiles |
| LegacyTile.Visit | UselessEngine/GameTile.swift:56 | one `forEach` appends exactly that tile's objects |
| LegacyTile.ObjectsOfStartsWithFirst | UselessEngine/GameTile.swift:55-56 | the tile's own objects are visited first |
| LegacyTerrain.GridPositionOfMultiple | UselessEngine/GameWorldTerrain.swift:57-61 | whole multiples of the tile size key to the multiple |
| LegacyTerrain.RoundsToNearest | UselessEngine/GameWorldTerrain.swift:57-61 | keys use `round`, not floor: 1.4 keys to 1 and 1.5 to 2, −1.5 to −2 |
| LegacyTerrain.Terrain.constructor | UselessEngine/GameWorldTerrain.swift:18-22 | a new terrain has the tile size, no tiles and no keys |
| LegacyTerrain.Terrain.TileAt | UselessEngine/GameWorldTerrain.swift:42-44 | finds a tile iff the rounded key of the point is indexed, and every tile found is in `tiles` |
| LegacyTerrain.Terrain.Add | UselessEngine/GameWorldTerrain.swift:24-34 | returns false and changes nothing when the rounded key is taken; otherwise indexes the tile under its key and inserts it into `tiles`, so `tile(at:)` at its position returns it; every indexed tile stays in `tiles` |
| LegacyTerrain.Terrain.Elevation | UselessEngine/GameWorldTerrain.swift:46-53 | 0 where no tile is indexed; otherwise the tile's elevation at the point's offset from the tile position |
| LegacyGeometry.VectorAdd | UselessEngine/Physics/Vector.swift:52-56 | the mutating `add(b:)` leaves the componentwise sum `v + b` |
| LegacyGeometry.VectorAddScaled | UselessEngine/Physics/Vector.swift:58-62 | the mutating `add(b:scaled:)` leaves `v + s·b` |
| LegacyGeometry.VectorAddPosition | UselessEngine/Physics/Vector.swift:64-68 | `add(_: Position)` adds the position's coordinates as a vector |
| LegacyGeometry.VectorSubtract | UselessEngine/Physics/Vector.swift:70-74 | the mutating `subtract(b:)` leaves the componentwise difference `v − b` |
| LegacyGeometry.VectorScale | UselessEngine/Physics/Vector.swift:76-84 | `scale(by:)` leaves `scaled(by:)`, each component multiplied |
| LegacyGeometry.VectorFromComponents | UselessEngine/Physics/Vector.swift:29-44 | the subscript returns dx, dy, dz for .x, .y, .z, and `init` defaults dz to 0 |
| LegacyGeometry.AddThenSubtractRestoresVector | UselessEngine/Physics/Vector.swift:52-74 | `add(b:)` followed by `subtract(b:)` restores the vector |
| LegacyGeometry.ScaledIsRepeatedAddition | UselessEngine/Physics/Vector.swift:82-84 | scaling by 2 is adding the vector to itself, scaling by 0 gives zero |
| LegacyGeometry.DotSymmetric | UselessEngine/Physics/Vector.swift:106-108 | the dot product does not depend on argument order |
| LegacyGeometry.DotAndCrossExamples | UselessEngineTests/VectorTests.swift:22-38 | `(9,2,7)·(4,8,10) = 122`, `(1,1,0)·(−1,−1,0) < 0` and `(0,1,0)×(1,0,0) = (0,0,−1)` |
| LegacyGeometry.CrossAnticommutes | UselessEngine/Physics/Vector.swift:114-118 | swapping the factors of the cross product negates it |
| LegacyGeometry.CrossOrthogonal | UselessEngine/Physics/Vector.swift:106-118 | the cross product is orthogonal to both factors |
| LegacyGeometry.VectorEqualityOperators | UselessEngine/Physics/Vector.swift:130-138 | `==` is componentwise equality and `!=` its exact negation |
| LegacyGeometry.PositionAdd | UselessEngine/Physics/Position.swift:34-38 | `add(b:)` on a position translates it by b |
| LegacyGeometry.PositionAddScaled | UselessEngine/Physics/Position.swift:40-44 | `add(b:scaled:)` translates by `s·b` |
| LegacyGeometry.PositionSubtract | UselessEngine/Physics/Position.swift:46-50 | `subtract(b:)` translates by −b |
| LegacyGeometry.PositionFromComponents | UselessEngine/Physics/Position.swift:17-26 | the subscript returns x, y, z per axis |
| LegacyGeometry.PositionAddThenSubtractRestores | UselessEngine/Physics/Position.swift:34-50 | `add(b:)` then `subtract(b:)` restores the position |
| LegacyGeometry.DifferenceInvertsTranslate | UselessEngine/Physics/Position.swift:58-60 | Position − Position is the componentwise vector over all three axes and measures exactly a translation |
| LegacyGeometry.PlaneOperatorsDropZ | UselessEngine/Physics/Position.swift:62-76 | Position ± PlaneCoordinate, in either order, gives a position with z = 0; `+` agrees in both orders and `−` undoes `+` on x and y |
| LegacyGeometry.PositionSumAndDifference | UselessEngine/Physics/Position.swift:54-60 | Position + Position is symmetric, and translating b by `a − b` gives a |
| LegacyGeometry.PositionEqualityOperators | UselessEngine/Physics/Position.swift:78-86 | `==` is componentwise equality and `!=` its exact negation |
| PackageVector2d.AddComponents | Sources/Physics/Vector2d.swift:40-43 | `add(bx:by:)` adds the two components |
| PackageVector2d.Add | Sources/Physics/Vector2d.swift:45-48 | `add(b:)` leaves the componentwise sum |
| PackageVector2d.AddScaled | Sources/Physics/Vector2d.swift:50-53 | `add(b:scaled:)` leaves `v + s·b` |
| PackageVector2d.SubtractComponents | Sources/Physics/Vector2d.swift:55-58 | `subtract(bx:by:)` subtracts the two components |
| PackageVector2d.Subtract | Sources/Physics/Vector2d.swift:60-63 | `subtract(b:)` leaves the componentwise difference |
| PackageVector2d.Scale | Sources/Physics/Vector2d.swift:65-68 | `scale(_:)` multiplies both components |
| PackageVector2d.NonZeroMeansSomeComponent | Sources/Physics/Vector2d.swift:18-20 | `isNonZero` iff dx ≠ 0 or dy ≠ 0, that is iff the vector is not zero |
| PackageVector2d.AddThenSubtractRestores | Sources/Physics/Vector2d.swift:40-63 | `add` then `subtract`, by vector or by components, restores the vector |
| PackageVector2d.ScaledComponentwise | Sources/Physics/Vector2d.swift:50-68 | `add(b:scaled:)` adds `s·b` componentwise; scaling by 1 keeps and by 0 zeroes |
| PackageVector2d.PlusIsCommutative | Sources/Physics/Vector2d.swift:74-76 | `+` is componentwise, so commutative with zero as unit |
| PackageVector2d.EqualityOperators | Sources/Physics/Vector2d.swift:72-84 | `==` is componentwise equality and `!=` its exact negation |
| LegacyPosition2d.Add | UselessEngine/Physics/Position2d.swift:21-24 | `add(b:)` moves the position by b |
| LegacyPosition2d.AddScaled | UselessEngine/Physics/Position2d.swift:26-29 | `add(b:scaled:)` moves by `s·b` |
| LegacyPosition2d.OffsetIsPlaneDifference | UselessEngine/Physics/Position2d.swift:31-42 | `offset(toPosition: q)` is `self − q` componentwise, undone by `+ q`, and zero toward itself |
| LegacyPosition2d.PlaneOperatorsBothOrders | UselessEngine/Physics/Position2d.swift:37-51 | `+` with a PlaneCoordinate agrees in both orders, the reversed `−` is the negation, and `−` undoes `+` |
| LegacyPosition2d.MovedComponentwise | UselessEngine/Physics/Position2d.swift:21-29 | moving by b and then by −b restores the position; `add(b:scaled:)` is componentwise |
| LegacyPosition2d.EqualityOperators | UselessEngine/Physics/Position2d.swift:53-61 | `==` is componentwise equality and `!=` its exact negation |
| PackagePosition2d.Add | Sources/Physics/Position2d.swift:21-24 | `add(b:)` moves the position by b |
| PackagePosition2d.AddScaled | Sources/Physics/Position2d.swift:26-29 | `add(b:scaled:)` moves by `s·b` |
| PackagePosition2d.MovingByDistanceReachesTarget | Sources/Physics/Position2d.swift:21-33 | moving p by `distance(to: q)` lands on q; the distance to itself is zero and distances compose |
| PackagePosition2d.SumThenDifferenceRestores | Sources/Physics/Position2d.swift:37-43 | `(p + q) − q = p`, and `+` is symmetric |
| PackagePosition2d.EqualityOperators | Sources/Physics/Position2d.swift:45-53 | `==` is componentwise equality and `!=` its exact negation |
| LegacyObservers.ObserverNode.constructor | UselessEngine/Observers.swift:16 | a new node holds its observer and has no successor |
| LegacyObservers.ObserversOf | UselessEngine/Observers.swift:61-67 | the observers of a run of nodes, position by position |
| LegacyObservers.ChainWithout | UselessEngine/Observers.swift:37-40 | relinking around node i + 1 leaves a well-linked chain of the other nodes |
| LegacyObservers.ChainTail | UselessEngine/Observers.swift:27-30 | dropping the head leaves a well-linked chain of the other nodes |
| LegacyObservers.ChainLinked | UselessEngine/Observers.swift:13 | in a chain every node links to the next one and the last to nil |
| LegacyObservers.Observers.constructor | UselessEngine/Observers.swift:11-13 | a new list holds no observer |
| LegacyObservers.Observers.AddNode | UselessEngine/Observers.swift:15-20 | a fresh node holding the observer becomes the head, with the old head as its successor |
| LegacyObservers.Observers.RemoveNode | UselessEngine/Observers.swift:22-46 | an empty list is unchanged; otherwise only the first node whose observer is identical is unlinked, the others keep their order and the removed node's successor is cleared; an absent observer leaves the list unchanged |
| LegacyObservers.Observers.RemoveHead | UselessEngine/Observers.swift:27-33 | when the head holds the observer, its successor becomes the head and the old head's successor is cleared |
| LegacyObservers.Observers.UnlinkAfter | UselessEngine/Observers.swift:35-45 | the walk unlinks the first node after the head that holds the observer and clears its successor |
| LegacyObservers.Observers.RemoveAllNodes | UselessEngine/Observers.swift:48-59 | the head becomes nil and every former node loses its successor |
| LegacyObservers.Observers.Receive | UselessEngine/Observers.swift:61-67 | each node's observer is called exactly once, head to tail |
| LegacyGraph.GraphNode.constructor | UselessEngine/GameWorldGraphNode.swift:17-21 | a new node holds its fixed grid and world positions and no neighbours |
| LegacyGraph.GraphNode.AddNeighbor | UselessEngine/GameWorldGraphNode.swift:23-29 | nothing when the neighbour is listed (identity); otherwise each node is appended to the other's list, and a node added to itself is appended twice |
| LegacyGraph.Around | UselessEngine/GameWorldGraph.swift:72-75 | the four keys tried for a node (up, down, left, right) all differ from its own key |
| LegacyGraph.AroundIsAdjacent | UselessEngine/GameWorldGraph.swift:72-75 | a key is among the four tried iff it differs by 1 on exactly one axis, a symmetric relation |
| LegacyGraph.LeastAt | UselessEngine/GameWorldGraph.swift:93 | the queue order `$0.1 < $1.1` has a least entry in a non-empty queue |
| LegacyGraph.Dequeue | UselessEngine/GameWorldGraph.swift:101 | `dequeue()` hands out an entry whose priority is no greater than any queued one, and the rest is the queue less exactly that one entry (as a multiset) |
| LegacyGraph.Positions | UselessEngine/GameWorldGraph.swift:121 | a run of nodes maps to their world positions, in order |
| LegacyGraph.Graph.constructor | UselessEngine/GameWorldGraph.swift:21-24 | a new graph has no nodes and no spacing |
| LegacyGraph.Graph.NodeAt | UselessEngine/GameWorldGraph.swift:132-134 | `node(at:)` finds exactly the node stored under the key |
| LegacyGraph.Graph.WiredIsAdjacency | UselessEngine/GameWorldGraphNode.swift:23-29 | nodes joined through `add(neighbor:)` between distinct nodes have symmetric, irreflexive, repeat-free neighbour lists |
| LegacyGraph.Graph.CheckAndAddEdge | UselessEngine/GameWorldGraph.swift:56-66 | joins the node to the candidate key only when a node is there and `hasObject(between:)` finds nothing on the segment; the adjacency stays symmetric and repeat-free |
| LegacyGraph.Graph.Join | UselessEngine/GameWorldGraph.swift:63 | adding a distinct node as a neighbour wires the pair both ways and keeps the adjacency symmetric |
| LegacyGraph.Graph.Generate | UselessEngine/GameWorldGraph.swift:26-77 | refused iff the world is not wider and taller than two spacings, then nodes and spacing stay; otherwise old nodes are gone, a fresh node sits at (i, j) with 0 ≤ i ≤ ⌊w/dx⌋ and 0 ≤ j ≤ ⌊h/dy⌋ iff a tile is there and no matching object is at that point, its grid position is its key, and two nodes are neighbours iff their keys are adjacent and the segment between them is clear |
| LegacyGraph.Graph.JoinAll | UselessEngine/GameWorldGraph.swift:68-76 | after visiting every key, two nodes are neighbours iff their keys are adjacent and the segment between their sites is clear |
| LegacyGraph.Graph.VisitNode | UselessEngine/GameWorldGraph.swift:68-76 | the four `checkAndAddEdge` calls for one key add exactly that key's edges |
| LegacyGraph.Graph.VisitJoins | UselessEngine/GameWorldGraph.swift:72-75 | the edge set after one key equals the joined pairs with that key no longer pending |
| LegacyGraph.Graph.PlaceNodes | UselessEngine/GameWorldGraph.swift:36-54 | the grid loops make a fresh node exactly at each free tiled key, with its site as world position |
| LegacyGraph.Graph.PlaceRow | UselessEngine/GameWorldGraph.swift:42-53 | the inner loop adds exactly the free tiled keys of row j |
| LegacyGraph.Graph.PlaceAt | UselessEngine/GameWorldGraph.swift:43-52 | a fresh node is stored at the key iff a tile is there and no matching object is at the site; other entries stay |
| LegacyGraph.Graph.Path | UselessEngine/GameWorldGraph.swift:79-130 | [] before a successful `generate`, when either rounded key has no node, or from a node to itself; otherwise the positions of a walk of graph nodes ending at the goal that leaves the start along edges, or the goal alone |
| LegacyGraph.Graph.Search | UselessEngine/GameWorldGraph.swift:92-116 | the search loop keeps `cameFrom` a tree rooted at the start whose costs strictly fall toward the start |
| LegacyGraph.Graph.Relax | UselessEngine/GameWorldGraph.swift:107-115 | after the `forEach` over the neighbours: the tree and the start's origin are kept, every queued node is costed, no cost so far has risen, the old queue is a prefix of the new one, and every neighbour costs at most `current`'s cost plus its edge; the three maps are exactly `RelaxAll`, `EdgeUpdate` applied to each neighbour in order |
| LegacyGraph.RelaxAllStep | UselessEngine/GameWorldGraph.swift:107-115 | relaxing the first `i + 1` neighbours is relaxing the first `i`, then `EdgeUpdate` for neighbour `i` |
| LegacyGraph.RelaxAllElsewhere | UselessEngine/GameWorldGraph.swift:107-115 | a key that is none of the neighbours keeps its cost and its origin, present or absent, through the whole `forEach` |
| LegacyGraph.Graph.RelaxingEnds | UselessEngine/GameWorldGraph.swift:107-115 | once every neighbour is relaxed, the loop invariant gives all of `Relax`'s postcondition, the maps being `RelaxAll` over all the neighbours |
| LegacyGraph.Graph.RelaxingStep | UselessEngine/GameWorldGraph.swift:107-115 | one more neighbour relaxed keeps all of `Relax`'s loop invariant |
| LegacyGraph.BoundedStep | UselessEngine/GameWorldGraph.swift:107-115 | one more neighbour relaxed keeps costs no higher than at the start, the queue growing only at its end, and each neighbour so far within its edge |
| LegacyGraph.WithinEdgeStep | UselessEngine/GameWorldGraph.swift:108 | costs only falling, a neighbour within its edge stays so, measured against `current`'s cost at the start |
| LegacyGraph.RelaxEdge | UselessEngine/GameWorldGraph.swift:108-114 | exactly the update `EdgeUpdate`: when `next` has no cost or the new cost `(costSoFar[current] ?? 0) + cost` is lower, it gets that cost, `current` as origin and a queue entry at the new cost plus the heuristic; otherwise all three are unchanged |
| LegacyGraph.EdgeUpdateLowers | UselessEngine/GameWorldGraph.swift:108-114 | relaxing an edge raises no cost, leaves `next` costed at most `current`'s cost plus the edge, and only appends to the queue |
| LegacyGraph.Graph.EdgeUpdateKeepsTree | UselessEngine/GameWorldGraph.swift:108-114 | with positive edge costs, relaxing an edge out of a costed node keeps the tree, keeps every queued node costed, never re-roots the start, and leaves `current` costed |
| LegacyGraph.Graph.QueuedGrows | UselessEngine/GameWorldGraph.swift:111-112 | enqueuing a node of the graph with its new cost keeps every queued node costed |
| LegacyGraph.Graph.TreeGrows | UselessEngine/GameWorldGraph.swift:109-113 | given a new cost above `current`'s and below any cost `next` had, setting `next`'s origin to `current` and its cost to the new cost keeps `cameFrom` a tree rooted at the start whose costs strictly fall toward the start |
| LegacyGraph.Graph.Reconstruct | UselessEngine/GameWorldGraph.swift:118-129 | from the goal, follow `cameFrom` to the start (excluded) and reverse: [] when start is goal, else positions of a walk ending at the goal |
| LegacyGraph.ChainGrows | UselessEngine/GameWorldGraph.swift:120-124 | appending `current` and stepping to a node that lists it as neighbour keeps the chain followed back from the goal, with its positions |
| LegacyGraph.ReversedPositions | UselessEngine/GameWorldGraph.swift:129 | reversing the collected positions gives the positions of the reversed chain |
| LegacyGraph.ReversedChainWalks | UselessEngine/GameWorldGraph.swift:118-129 | a chain followed back from the goal to a neighbour of the start reverses into a walk leaving the start along edges |
| LegacyGraph.BelowShrinks | UselessEngine/GameWorldGraph.swift:120-127 | stepping to a strictly cheaper origin leaves fewer keys below, so the reconstruction loop ends |
| GridCells.BoxPointIsCovered | Sources/GameWorldCollisionGrid.swift:222-239 | every point of a box's xy-rectangle lies in one of the cells listed under the box |
| GridCells.CellMeetsInterval | Sources/GameWorldCollisionGrid.swift:224-229 | on one axis, each index between the floors of `lo/w` and `hi/w` holds a point of [lo, hi] |
| GridCells.CoveredCellMeetsBox | Sources/GameWorldCollisionGrid.swift:222-239 | every listed cell holds a point of the box, so the listed rectangle of cells is not too large |
| GridCells.StartWalk | Sources/GameWorldCollisionGrid.swift:34-73 | the branch-by-branch set-up yields the start cell, the increments, the error term and a count n ≥ 1 that agree with the walk specification |
| GridCells.StartIsCoherent | Sources/GameWorldCollisionGrid.swift:39-73 | the set-up gives n ≥ 1 and an error term consistent with the remaining moves on each axis |
| GridCells.StartCount | Sources/GameWorldCollisionGrid.swift:42-73 | the walk starts in `(⌊x0⌋, ⌊y0⌋)` and visits `1 + |⌊x1⌋−⌊x0⌋| + |⌊y1⌋−⌊y0⌋|` cells |
| GridCells.StartCells | Sources/GameWorldCollisionGrid.swift:34-73 | the set-up from world positions yields a walker whose first n cells are the specified walk |
| GridCells.CellsFromLength | Sources/GameWorldCollisionGrid.swift:76 | the `stride(from: n, to: 0, by: -1)` loop visits n cells, the first being the start cell |
| GridCells.CellsFromAdjacent | Sources/GameWorldCollisionGrid.swift:90-96 | each step of the loop moves to a cell adjacent along exactly one axis |
| GridCells.WalkShape | Sources/GameWorldCollisionGrid.swift:34-97 | `nextObject` examines `1 + |Δ⌊x⌋| + |Δ⌊y⌋|` cells, starting in the start cell, each step moving one cell along one axis |
| GridCells.ColumnCells | Sources/GameWorldCollisionGrid.swift:49-51 | with no x movement the walk stays in one column, moving one row per step |
| GridCells.RowCells | Sources/GameWorldCollisionGrid.swift:62-95 | with no y movement the walk stays in one row, moving one column per step |
| GridCells.AxisAlignedWalkEndsAtTarget | Sources/GameWorldCollisionGrid.swift:34-97 | a segment parallel to an axis is walked cell by cell from the start cell to the end cell |
| GridCells.HitDisplacement | Sources/GameWorldCollisionGrid.swift:75-80 | the value compared by magnitude is the hit point `start + t·(end − start)` with t ≥ 0, not its offset from the start |
| GridCells.UnitBoxIsMade | Sources/Physics/AABB.swift:47-56 | the unit test boxes are those `AABB(position:halfwidths:)` builds |
| GridCells.LeftwardWindow | Sources/Physics/AABB.swift:141-177 | the leftward ray enters a unit box centred at x at `t = (9.5 − x)/10` |
| GridCells.LeftwardHit | Sources/Physics/AABB.swift:108-123 | so the leftward ray meets that box on its face at x + 0.5 |
| GridCells.TwoBoxesHits | Sources/GameWorldCollisionGrid.swift:75-85 | walking from (10, 0) toward the origin, the box at 8 is hit first at (8.5, 0) and the box at 2 later at (2.5, 0) |
| GridCells.TwoBoxesRanks | Sources/GameWorldCollisionGrid.swift:80 | by magnitude of the hit point the ranks are 72.25 and 6.25 (squared); by parameter along the segment 0.15 and 0.75 |
| GridCells.OriginRankingPrefersLaterHit | Sources/GameWorldCollisionGrid.swift:77-87 | as written, of two hits in one cell the later one (2.5, 0) is kept, because its point is nearer the world origin |
| GridCells.ParameterRankingPrefersEarlierHit | Sources/GameWorldCollisionGrid.swift:77-87 | ranked by distance along the segment, the earlier hit (8.5, 0) is kept |
| PackageCollisionGrid.ReindexKeepsInverse | Sources/GameWorldCollisionGrid.swift:241-260 | re-indexing an object keeps `gameObjectsOnCell` and `lastKnownCellsBelowGameObject` mutual inverses, the object then lying on exactly its current cells |
| PackageCollisionGrid.ReindexMovesOnlyItsObject | Sources/GameWorldCollisionGrid.swift:249-257 | re-indexing one object changes no other object's cells |
| PackageCollisionGrid.RemoveKeepsInverse | Sources/GameWorldCollisionGrid.swift:209-215 | removing an object altogether keeps the indexes inverse and leaves it on no cell |
| PackageCollisionGrid.WithdrawnStep | Sources/GameWorldCollisionGrid.swift:211-213 | withdrawing from one more cell is one more `remove` on that cell, so the `forEach` order does not matter |
| PackageCollisionGrid.DepositedStep | Sources/GameWorldCollisionGrid.swift:253-257 | depositing into one more cell is one more insert-or-create on that cell, in any order |
| PackageCollisionGrid.DepositedNothing | Sources/GameWorldCollisionGrid.swift:253-257 | depositing into no cells leaves the index as it was |
| PackageCollisionGrid.RemoveFromKeepsInverse | Sources/GameWorldCollisionGrid.swift:218-219 | removing an object from one cell keeps the indexes inverse and touches no other cell and no other object |
| PackageCollisionGrid.FlatRangesOk | Sources/GameWorldCollisionGrid.swift:224-232 | a well-formed box never gives `currentCellPositions` an inverted range, so its closed ranges cannot trap |
| PackageCollisionGrid.PointQueryFindsIndexedBox | Sources/GameWorldCollisionGrid.swift:102-116 | `hasObject(at:)` misses nothing: a matching object indexed under its box is found at every point of that box |
| PackageCollisionGrid.PointQuerySound | Sources/GameWorldCollisionGrid.swift:112-115 | `hasObject(at:)` answers true only when some matching object's contact box contains the point |
| PackageCollisionGrid.Tests | Sources/GameWorldCollisionGrid.swift:173 | the objects tested, in the order the log tested them, never more than the log has events |
| PackageCollisionGrid.TestsAreTested | Sources/GameWorldCollisionGrid.swift:173 | an object is among the tested ones exactly when the log holds a `Tested` event for it |
| PackageCollisionGrid.TestsAppend | Sources/GameWorldCollisionGrid.swift:164-205 | the tests of a log grown by more events are the old tests followed by the new ones |
| PackageCollisionGrid.TestedSetAppend | Sources/GameWorldCollisionGrid.swift:203 | the set of tested objects of a joined log is the union of the two |
| PackageCollisionGrid.Untested | Sources/GameWorldCollisionGrid.swift:176-199 | a log of handler calls and re-indexing, with no `Tested` event, tests no object |
| PackageCollisionGrid.NoRepeatsAppend | Sources/GameWorldCollisionGrid.swift:166-203 | testing a neighbour not tested before keeps the tests free of repeats |
| PackageCollisionGrid.RecordKeepsBookkeeping | Sources/GameWorldCollisionGrid.swift:166-203 | recording a neighbour that neither side has checked keeps `collisionChecksPerformed[g]` equal to `g` plus the objects tested, with no pair tested twice |
| PackageCollisionGrid.WithdrawAll | Sources/GameWorldCollisionGrid.swift:211-251 | the `forEach` of `remove`s over a set of cells yields the index with `g` withdrawn from those cells |
| PackageCollisionGrid.DepositAll | Sources/GameWorldCollisionGrid.swift:253-257 | the `forEach` of insert-or-create yields the index with `g` on each of the cells |
| PackageCollisionGrid.MissedNext | Sources/GameWorldCollisionGrid.swift:76-97 | a cell without a candidate extends the run of cells the walk passes over |
| PackageCollisionGrid.HitAt | Sources/GameWorldCollisionGrid.swift:86-88 | returning the kept candidate of the first cell that holds one returns a first hit |
| PackageCollisionGrid.RankingsStopAtSameCell | Sources/GameWorldCollisionGrid.swift:76-97 | the ranking only picks among the candidates of one cell: under any two rankings the walk stops at the same cell, both returning nil or both a candidate |
| PackageCollisionGrid.FirstHitIsOnItsBox | Sources/GameWorldCollisionGrid.swift:75-88 | a returned object matches the criteria and its contact box contains the returned point, which lies ahead of the start on the segment's line |
| PackageCollisionGrid.NearestKept | Sources/GameWorldCollisionGrid.swift:77-85 | a candidate that does not rank strictly lower leaves the kept one standing |
| PackageCollisionGrid.NearestReplaced | Sources/GameWorldCollisionGrid.swift:77-85 | a candidate that ranks strictly lower, or the first one, becomes the kept one |
| PackageCollisionGrid.NearestOnCell | Sources/GameWorldCollisionGrid.swift:77-85 | the per-cell `forEach` keeps a candidate of lowest rank among the cell's candidates, or nil when there is none |
| PackageCollisionGrid.CastOver | Sources/GameWorldCollisionGrid.swift:30-100 | the walk returns the lowest-ranked candidate of the first walked cell holding one, and nil when no walked cell holds one |
| PackageCollisionGrid.CollisionGrid.constructor | Sources/GameWorldCollisionGrid.swift:23-28 | a new grid has the given cell size and delegate, empty indexes, no checks and frame 0 |
| PackageCollisionGrid.CollisionGrid.CurrentCellPositions | Sources/GameWorldCollisionGrid.swift:222-239 | the cells under a box are every cell from the bottom-left to the top-right cell |
| PackageCollisionGrid.CollisionGrid.UpdateCellPositions | Sources/GameWorldCollisionGrid.swift:241-260 | an object without physics changes nothing; otherwise it leaves the stale cells, joins its current cells, and its entry becomes those cells, the indexes staying inverse |
| PackageCollisionGrid.CollisionGrid.Remove | Sources/GameWorldCollisionGrid.swift:208-215 | `g` is withdrawn from every cell it was last known on and its entry is dropped |
| PackageCollisionGrid.CollisionGrid.RemoveFrom | Sources/GameWorldCollisionGrid.swift:208-219 | only cell `p` is forgotten, in both indexes |
| PackageCollisionGrid.CollisionGrid.WorldDidUpdate | Sources/GameWorldCollisionGrid.swift:139-143 | a new frame clears the checks performed and advances the frame counter by one, the indexes unchanged |
| PackageCollisionGrid.CollisionGrid.HasObjectAt | Sources/GameWorldCollisionGrid.swift:102-116 | true exactly when an object on the point's cell matches and its contact box contains the point |
| PackageCollisionGrid.CollisionGrid.Cast | Sources/GameWorldCollisionGrid.swift:30-100 | the walk over the grid's own cells returns a first hit under the given ranking |
| PackageCollisionGrid.CollisionGrid.NextObject | Sources/GameWorldCollisionGrid.swift:30-100 | the corrected search: the first walked cell's candidate hit earliest along the segment |
| PackageCollisionGrid.CollisionGrid.NextObjectAsWritten | Sources/GameWorldCollisionGrid.swift:30-100 | as written: the first walked cell's candidate whose hit point is nearest the world origin |
| PackageCollisionGrid.CollisionGrid.HasObjectBetween | Sources/GameWorldCollisionGrid.swift:118-123 | true exactly when some walked cell holds a matching object the segment's ray hits |
| PackageCollisionGrid.CollisionGrid.Resolve | Sources/GameWorldCollisionGrid.swift:145-206 | the frame stamp is always refreshed; an unmoved or already-resolved object changes nothing; otherwise `g` is first re-indexed on the cells under its box, each of those cells is then read once from the tables as they stood at that point, every object found there is tested unless it is `g` or its own `resolve` already checked `g`, no object twice, `checks[g]` becomes `g` plus the objects tested, and the recorded cells are those the re-indexing events leave; the reads and pair tests have the nested shape (`Nested`, `Closed`): each test comes after the read of the cell its object was found on and before the next read, and every object of a cell read that is not skipped is tested before the next read; after the re-indexing of `g`, the log and the returned contact boxes are exactly those of `RunActions` over those reads and pair tests in that order, each pair as `PairRun` |
| PackageCollisionGrid.CollisionGrid.CheckPair | Sources/GameWorldCollisionGrid.swift:165-203 | a pair already checked either way is skipped with nothing changed; otherwise exactly that neighbour is tested first and recorded, and the boxes and log are exactly `PairRun`: the test alone on a miss; on a hit the test, then `HitEvents`, with `HitBoxes` as the new boxes; the run's bookkeeping and faithful reads are kept, and the run of reads and pair tests grows by exactly that pair, or stays as it was when the pair is skipped |
| PackageCollisionGrid.CollisionGrid.RunActionsSnoc | Sources/GameWorldCollisionGrid.swift:164-205 | one more read or pair test runs from the boxes the earlier ones left, its events following theirs |
| PackageCollisionGrid.CollisionGrid.RanRead | Sources/GameWorldCollisionGrid.swift:164-165 | reading a cell extends the run by its `Scanned` event and changes no box |
| PackageCollisionGrid.CollisionGrid.RanPair | Sources/GameWorldCollisionGrid.swift:172-203 | a tested pair extends the run by its `PairRun` events and boxes |
| PackageCollisionGrid.CollisionGrid.HandleHit | Sources/GameWorldCollisionGrid.swift:173-199 | the log is exactly `HitEvents`: both contact handlers when contactable; when collidable the delegate's corrected boxes, both collision handlers, and re-indexing of each side whose correction is non-zero; the recorded cells follow those re-indexing events and the checks stay |
| PackageCollisionGrid.CollisionGrid.HitsAreQuiet | Sources/GameWorldCollisionGrid.swift:173-199 | the events of a hit neither test nor read a cell |
| PackageCollisionGrid.CollisionGrid.Reindex | Sources/GameWorldCollisionGrid.swift:193-198 | a side is re-indexed under its new box exactly when its correction is non-zero, the recorded cells following that one event |
| PackageCollisionGrid.CollisionGrid.ScanAll | Sources/GameWorldCollisionGrid.swift:164-205 | the outer `forEach` reads every cell below `g` once and keeps the run's bookkeeping and faithful reads; its log after `head` and its boxes are exactly `RunActions` of the reads and pair tests it made, and those keep the nested shape with every cell's tests finished (`Shaped`) |
| PackageCollisionGrid.CollisionGrid.ScanCell | Sources/GameWorldCollisionGrid.swift:165-204 | one cell's objects are read once, and afterwards every one of them not skipped has been tested; the run of reads and pair tests is the earlier run, then the read of this cell as the tables stood on entry, then pair tests only (`Block`), and it keeps the nested shape with this cell's tests finished (`Shaped`) |
| PackageCollisionGrid.NestedRead | Sources/GameWorldCollisionGrid.swift:164-165 | reading a cell after the previous cell's tests are finished keeps the nested shape, opens that cell's objects and tests nothing |
| PackageCollisionGrid.NestedPair | Sources/GameWorldCollisionGrid.swift:172-203 | testing an object of the open cell that is not `g`, not skipped and not yet tested keeps the nested shape and adds exactly that object to the tested ones |
| PackageCollisionGrid.OpenIsLastRead | Sources/GameWorldCollisionGrid.swift:164-205 | the open objects are those of the last read, and only pair tests follow it |
| PackageCollisionGrid.PairFollowsItsRead | Sources/GameWorldCollisionGrid.swift:164-205 | in a nested run every pair test comes after a read that found its object, with only pair tests between the two |
| PackageCollisionGrid.TestBeforeReadIsNotNested | Sources/GameWorldCollisionGrid.swift:164-205 | a pair test cannot come before the read of the cell its object is on |
| PackageCollisionGrid.BlockGrows | Sources/GameWorldCollisionGrid.swift:165-204 | a pair test extends the current cell's block of earlier steps, read, then pair tests |
| PackageCollisionGrid.InCellStarts | Sources/GameWorldCollisionGrid.swift:164-165 | reading a cell after finished cells starts that cell with all its objects left, and the log's tested objects still match the run's |
| PackageCollisionGrid.InCellStep | Sources/GameWorldCollisionGrid.swift:165-204 | checking one more object of the cell, skipped or tested, keeps the nested shape with that object no longer left and the log matching the run |
| PackageCollisionGrid.InCellEnds | Sources/GameWorldCollisionGrid.swift:165-204 | once no object of the cell is left, its tests are finished and the run is closed |
| PackageCollisionGrid.CollisionGrid.CheckNext | Sources/GameWorldCollisionGrid.swift:165-204 | one turn of the inner `forEach` checks one more object on the cell, keeping the cell's progress, the exact run, the cell's block and its nested shape (`InCell`), with one object fewer left |
| PackageCollisionGrid.ReplayAppend | Sources/GameWorldCollisionGrid.swift:158-198 | replaying a joined run is replaying its second part after its first |
| PackageCollisionGrid.ReplayQuiet | Sources/GameWorldCollisionGrid.swift:173-199 | one event replays as itself; a run with no re-indexing leaves the recorded cells as they were |
| PackageCollisionGrid.OccupantsMirror | Sources/GameWorldCollisionGrid.swift:165 | while the two indexes are inverse, a cell's entry in `gameObjectsOnCell` holds exactly the objects whose recorded cells include it |
| PackageCollisionGrid.ScansAppend | Sources/GameWorldCollisionGrid.swift:173-199 | events that read no cell keep the reads faithful and distinct and add no cell or object read |
| PackageCollisionGrid.ScanStep | Sources/GameWorldCollisionGrid.swift:164-165 | reading a cell from the current tables is a faithful read that adds that cell and its objects |
| PackageCollisionGrid.SkipWhenChecked | Sources/GameWorldCollisionGrid.swift:166-170 | during the run, the guard skips `n` exactly when `n` is `g`, was tested already, or had already checked `g` in its own `resolve` |
| PackageCollisionGrid.PairKeepsState | Sources/GameWorldCollisionGrid.swift:172-203 | a pair test and what follows it keep `checks[g]` equal to `g` plus the objects tested, the tables following the log, and the reads faithful |
| PackageCollisionGrid.ReadKeepsState | Sources/GameWorldCollisionGrid.swift:164-165 | reading a cell starts checking exactly its occupants with the run's state intact |
| PackageCollisionGrid.CellStep | Sources/GameWorldCollisionGrid.swift:165-204 | one more object checked on the cell, skipped or tested, keeps the cell's progress |
| PackageCollisionGrid.CellEnds | Sources/GameWorldCollisionGrid.swift:165-204 | with none of the cell's objects left, each one not skipped was tested |
| PackageCollisionGrid.ProgressStarts | Sources/GameWorldCollisionGrid.swift:158-164 | the run starts with the re-indexing of `g`, all cells still to read |
| PackageCollisionGrid.ProgressReady | Sources/GameWorldCollisionGrid.swift:164 | a cell still to read has not been read, and every object read so far was tested unless skipped |
| PackageCollisionGrid.ProgressStep | Sources/GameWorldCollisionGrid.swift:164-205 | reading and checking one more cell keeps the outer loop's progress |
| PackageCollisionGrid.ProgressEnds | Sources/GameWorldCollisionGrid.swift:164-205 | with no cell left, every cell below `g` was read |
| LegacyCollisionGrid.RowMajorConcat | UselessEngine/GameWorldCollisionGrid.swift:174-179 | appending a row that lies wholly after the rows built so far keeps the list in row-major order |
| LegacyCollisionGrid.RowOfShape | UselessEngine/GameWorldCollisionGrid.swift:176-178 | the inner loop appends one row: its length, exactly the cells of that row between the bounds, left to right |
| LegacyCollisionGrid.RowsOfLength | UselessEngine/GameWorldCollisionGrid.swift:175-179 | after the rows up to `y` the list has one entry per cell of those rows |
| LegacyCollisionGrid.RowsOfShape | UselessEngine/GameWorldCollisionGrid.swift:175-179 | the rows built so far hold exactly the rectangle's cells below `y`, in row-major order |
| LegacyCollisionGrid.RowMajorIsDistinct | UselessEngine/GameWorldCollisionGrid.swift:174-179 | a row-major list repeats no cell |
| LegacyCollisionGrid.GridPositionsShape | UselessEngine/GameWorldCollisionGrid.swift:164-182 | `gridPositions(below:)` lists each cell of the rectangle once, row by row, from the bottom-left corner to the top-right one |
| LegacyCollisionGrid.Without | UselessEngine/GameWorldCollisionGrid.swift:30-47 | `removeAll(where: { $0 == g })` drops every `g` and keeps every other object with its count |
| LegacyCollisionGrid.WithoutAppend | UselessEngine/GameWorldCollisionGrid.swift:30-47 | removing from a joined array is removing from each part |
| LegacyCollisionGrid.WithoutAbsent | UselessEngine/GameWorldCollisionGrid.swift:30-47 | removing an object no longer in the array changes nothing, so a cell listed twice is cleared harmlessly |
| LegacyCollisionGrid.ClearedStep | UselessEngine/GameWorldCollisionGrid.swift:29-31 | clearing one more listed cell empties `g` from that cell's array and from no other |
| LegacyCollisionGrid.AppendedStep | UselessEngine/GameWorldCollisionGrid.swift:33-38 | appending to one more cell of a list without repeats adds `g` at the end of that cell's array only |
| LegacyCollisionGrid.AppendedNothing | UselessEngine/GameWorldCollisionGrid.swift:33-38 | appending over no cells leaves the arrays as they were |
| LegacyCollisionGrid.ClearedAt | UselessEngine/GameWorldCollisionGrid.swift:29-48 | after the loop a listed cell's array is its old array without `g`, and an unlisted cell's array is unchanged |
| LegacyCollisionGrid.MoveKeepsIndexed | UselessEngine/GameWorldCollisionGrid.swift:28-41 | moving `g` from its recorded cells to a new list keeps each object in a cell's array exactly once when and only when the cell is on its list |
| LegacyCollisionGrid.ForgetKeepsIndexed | UselessEngine/GameWorldCollisionGrid.swift:45-50 | clearing `g` and dropping its list keeps arrays and lists in step, and so does keeping an empty list |
| LegacyCollisionGrid.ClearAll | UselessEngine/GameWorldCollisionGrid.swift:29-31 | the loop over the previous cells yields the arrays with `g` cleared from each of them |
| LegacyCollisionGrid.AppendAll | UselessEngine/GameWorldCollisionGrid.swift:33-38 | the loop over the current cells yields the arrays with `g` appended to each of them |
| LegacyCollisionGrid.NeighborCallsCount | UselessEngine/GameWorldCollisionGrid.swift:52-60 | `onNeighbors` never hands over `g` itself, and hands over every other object once per cell the two share |
| LegacyCollisionGrid.NeighborCallsMembers | UselessEngine/GameWorldCollisionGrid.swift:52-60 | an object is handed over exactly when it is not `g` and shares one of `g`'s recorded cells |
| LegacyCollisionGrid.SharedCountPositive | UselessEngine/GameWorldCollisionGrid.swift:53-54 | the count of shared cells is positive exactly when some cell is shared |
| LegacyCollisionGrid.NeighborCallsStep | UselessEngine/GameWorldCollisionGrid.swift:53-59 | one more cell adds the objects of its array other than `g`, in array order |
| LegacyCollisionGrid.CallOthers | UselessEngine/GameWorldCollisionGrid.swift:54-58 | the inner loop hands over the array's objects other than `g`, in order |
| LegacyCollisionGrid.SameListKeepsIndexed | UselessEngine/GameWorldCollisionGrid.swift:28-41 | recording the list an object already has keeps arrays and lists in step without touching the arrays |
| LegacyCollisionGrid.KeptIsNearest | UselessEngine/GameWorldCollisionGrid.swift:130-138 | the entry kept by the loop over an array is a candidate of least rank among the array's candidates |
| LegacyCollisionGrid.NearestInList | UselessEngine/GameWorldCollisionGrid.swift:130-138 | the loop keeps the first candidate of least rank in array order, or nothing when no object is a candidate |
| LegacyCollisionGrid.GridPositionsAreCellsUnder | UselessEngine/GameWorldCollisionGrid.swift:164-182 | the legacy list holds, each once, exactly the cells the package grid's `currentCellPositions` computes |
| LegacyCollisionGrid.PointHitFindsIndexedBox | UselessEngine/GameWorldCollisionGrid.swift:62-81 | `hasObject(at:)` misses nothing: a matching object recorded under its box's cells is found at every point of the box |
| LegacyCollisionGrid.NeighborSharingTwoCellsIsCalledTwice | UselessEngine/GameWorldCollisionGrid.swift:52-60 | two objects on the same two cells are each handed to the other's action twice |
| LegacyCollisionGrid.CollisionGrid.constructor | UselessEngine/GameWorldCollisionGrid.swift:15-19 | a new grid has the given cell size and empty tables |
| LegacyCollisionGrid.CollisionGrid.GridPositionsBelow | UselessEngine/GameWorldCollisionGrid.swift:164-182 | the loops build the row-major list of the cells from the bottom-left to the top-right cell under the box |
| LegacyCollisionGrid.CollisionGrid.Update | UselessEngine/GameWorldCollisionGrid.swift:21-43 | no collision box changes nothing; otherwise the new list is recorded, and the arrays are rewritten only when it differs from the recorded one, arrays and lists staying in step |
| LegacyCollisionGrid.CollisionGrid.Remove | UselessEngine/GameWorldCollisionGrid.swift:45-50 | `g` is cleared from its recorded cells, and its entry dropped only when the recorded list is not empty |
| LegacyCollisionGrid.CollisionGrid.OnNeighbors | UselessEngine/GameWorldCollisionGrid.swift:52-60 | the action receives, cell by cell and in array order, every object on `g`'s recorded cells other than `g` |
| LegacyCollisionGrid.CollisionGrid.HasObjectAt | UselessEngine/GameWorldCollisionGrid.swift:62-81 | true exactly when an object in the point's cell array matches and its collision box contains the point |
| LegacyCollisionGrid.CollisionGrid.Cast | UselessEngine/GameWorldCollisionGrid.swift:83-153 | the walk returns the kept entry of the first walked cell array that holds a candidate under the given ranking, nil when none does |
| LegacyCollisionGrid.CollisionGrid.NextObjectAsWritten | UselessEngine/GameWorldCollisionGrid.swift:83-153 | as written: the first walked cell's candidate whose hit point is nearest the world origin |
| LegacyCollisionGrid.CollisionGrid.NextObject | UselessEngine/GameWorldCollisionGrid.swift:83-153 | the corrected search: the first walked cell's candidate hit earliest along the segment |
| LegacyCollisionGrid.CollisionGrid.HasObjectBetween | UselessEngine/GameWorldCollisionGrid.swift:155-160 | true exactly when some walked cell array holds a matching object the segment's ray hits |
| Hierarchy.PlusMinus | Sources/GameObject.swift:309-346 | adding back the parent's position to the relative position taken from it gives the absolute position again, and the other way round |
| Hierarchy.Root | Sources/GameObject.swift:260-263 | the parent walk of `traverseFamily` ends at an object without a parent |
| Hierarchy.UnderRoot | Sources/GameObject.swift:260-263 | every object lies in the tree of the root its parent walk reaches |
| Hierarchy.ChildSubtree | Sources/GameObject.swift:231-233 | what lies under a child lies strictly under its parent, so the downward cascades reach it from the parent |
| Hierarchy.SiblingsApart | Sources/GameObject.swift:231-233 | the subtrees of two different children share nothing, so the per-child cascades touch disjoint objects |
| Hierarchy.TowardChild | Sources/GameObject.swift:259-292 | what lies under a child lies under its parent, on the way through that child |
| Hierarchy.UnderTransitive | Sources/GameObject.swift:259-292 | lying under is transitive along the parent links |
| PackageObjectTree.ShiftedTwice | Sources/GameObject.swift:323-327 | moving two disjoint sets of objects by the same offset, one after the other, moves their union |
| PackageObjectTree.FollowParent | Sources/GameObject.swift:323-327 | a child set to its parent's new position plus its relative position moves by the parent's offset, moves only when the parent did, and keeps its relative position |
| PackageObjectTree.AssignPosition | Sources/GameObject.swift:36-42 | re-assigning the same position changes nothing; a new position moves the object and everything anchored below it by the same offset, flags them and moves their contact boxes, the object taking the matching relative position |
| PackageObjectTree.PositionDidChange | Sources/GameObject.swift:309-331 | the relative position is made to agree with the new position, the contact box follows, the anchored children and what they carry move by the object's offset, and every moved object is flagged |
| PackageObjectTree.PreparedAt | Sources/GameObject.swift:36-42 | changing the moved object alone keeps everything below it as the children's loop expects |
| PackageObjectTree.MoveChildren | Sources/GameObject.swift:322-327 | the loop over the anchored children moves everything carried below the object by its offset, or nothing when it did not move |
| PackageObjectTree.ChildReady | Sources/GameObject.swift:323-327 | before a child's turn, the child and what it carries are untouched and the child's relative position still agrees with the parent's old position |
| PackageObjectTree.ChildDone | Sources/GameObject.swift:323-327 | after a child's turn, what it carries has moved and the loop's bookkeeping holds without that child |
| PackageObjectTree.MoveChild | Sources/GameObject.swift:324-326 | one child set to the parent's position plus its relative position moves with what it carries by the parent's offset |
| PackageObjectTree.ShiftedWithRoot | Sources/GameObject.swift:320-330 | the children's moves plus the object's own move and flag make up the whole move |
| PackageObjectTree.ChildrenCover | Sources/GameObject.swift:323 | everything an object carries, itself aside, is carried by one of its anchored children |
| PackageObjectTree.MoveKeepsPlaced | Sources/GameObject.swift:309-331 | after a move, every object's relative position agrees with its position again |
| PackageObjectTree.SamePlaces | Sources/GameObject.swift:181-191 | changes that touch no position and no relative position keep them agreeing |
| PackageObjectTree.ChildInTree | Sources/GameObject.swift:286-290 | a child of a member of the family is in the family |
| PackageObjectTree.TraverseFamily | Sources/GameObject.swift:259-292 | the breadth-first walk from the root visits every member of the family exactly once and nothing else, giving each the new family id and changing no other object |
| PackageObjectTree.SkipVisited | Sources/GameObject.swift:275-277 | skipping a visited node keeps the traversal's invariant |
| PackageObjectTree.Visit | Sources/GameObject.swift:280-290 | visiting the front of the queue and queueing its unvisited children keeps the traversal's invariant |
| PackageObjectTree.UpdateTree | Sources/GameObject.swift:227-249 | `update` clears `positionDidUpdate` on every object of the subtree and counts each one's frame once, changing nothing else |
| PackageObjectTree.TickDone | Sources/GameObject.swift:231-233 | one child updated with everything below it keeps the loop's bookkeeping |
| PackageObjectTree.TicksCover | Sources/GameObject.swift:231-233 | once every child is updated, everything strictly below the object is |
| PackageObjectTree.TickedWithRoot | Sources/GameObject.swift:228-248 | the object's own flag clearing and frame count complete the update of its subtree |
| PackageObjectTree.SelfAdoptionNeverReachesRoot | Sources/GameObject.swift:157-163 | `add(child:)` as written accepts an object as its own child, after which the parent walk of `traverseFamily` never reaches a root |
| PackageObjectTree.SelfLoopClimbs | Sources/GameObject.swift:261-263 | an object that is its own parent climbs to itself at every step |
| PackageObjectTree.AncestorOrSelf | Sources/GameObject.swift:157-160 | the corrected guard's walk up from `z` answers exactly whether `a` is `z` or one of its ancestors |
| PackageObjectTree.LinkInFamily | Sources/GameObject.swift:64-65 | a link has both ends in a family or neither |
| PackageObjectTree.RefamilyAgrees | Sources/GameObject.swift:294-296 | giving one family a new id keeps every linked pair sharing its family id |
| PackageObjectTree.OffsetFrom | Sources/GameObject.swift:343-345 | placing an object at `a + r` is the same as giving it the offset `r` from `a` |
| PackageObjectTree.RelativeFromAnchor | Sources/GameObject.swift:333-346 | the relative position that goes with `anchor + r` is `r` |
| PackageObjectTree.ParentDidChange | Sources/GameObject.swift:294-307 | the whole family gets the new id; an anchored object with a parent moves to the parent's position plus its relative position, carrying what is anchored below it; otherwise its relative position becomes its position; afterwards every relative position agrees and linked objects share a family |
| PackageObjectTree.AnchoredPlaced | Sources/GameObject.swift:298-302 | placing an anchored object at its parent's position plus its relative position leaves every object agreeing |
| PackageObjectTree.FreePlaced | Sources/GameObject.swift:303-306 | an object that does not follow a parent, taking its position as its relative position, agrees |
| PackageObjectTree.CreateForest | Sources/GameObject.swift:99-113 | a new object without links keeps the links a forest |
| PackageObjectTree.AdoptForest | Sources/GameObject.swift:157-163 | linking a root below an object it is not an ancestor of keeps the links a forest |
| PackageObjectTree.DetachForest | Sources/GameObject.swift:170-173 | unlinking an object from its parent keeps the links a forest |
| PackageObjectTree.PlacedElsewhere | Sources/GameObject.swift:17-30 | whether the objects other than `x` agree does not depend on `x`'s link, its anchor flag or its own pose |
| PackageGameObject.ReflagArena | Sources/GameObject.swift:181-191 | changing an object's flags keeps the scene well formed |
| PackageGameObject.CreateArena | Sources/GameObject.swift:99-113 | a new object at the origin, with no parent and no children, keeps the scene well formed |
| PackageGameObject.CreateKeyed | Sources/GameObject.swift:26-91 | a new object is given every stored property |
| PackageGameObject.CreatePlaced | Sources/GameObject.swift:36-87 | a new root at the origin with relative position zero agrees, and so does everything else |
| PackageGameObject.UnmarkLacks | Sources/GameObject.swift:228 | after `flags.remove(.positionDidUpdate)` the flags hold no bit of `positionDidUpdate` |
| PackageGameObject.UpdateScene | Sources/GameObject.swift:227-249 | `update` keeps the scene well formed and updates `x` and everything below it once |
| PackageGameObject.TickedArena | Sources/GameObject.swift:227-249 | an update that only clears flags and counts frames keeps the scene well formed |
| PackageGameObject.AdoptScene | Sources/GameObject.swift:157-164 | linking a root below an object that is not under it keeps the scene well formed and adopts it as the parent observer prescribes |
| PackageGameObject.AdoptReady | Sources/GameObject.swift:162-163 | once the child is linked the links are a forest, every other object still agrees, and only the child's family may disagree |
| PackageGameObject.AdoptMeets | Sources/GameObject.swift:294-307 | what the parent observer leaves is exactly the adoption: new family id on the joined family, the anchored child moved to the parent's position plus its old position, carrying what is anchored below it |
| PackageGameObject.ReanchorScene | Sources/GameObject.swift:26-30 | setting `anchorToParent` reruns the position observer in place: the relative position is recomputed for the new anchoring, the object is flagged, and nothing moves |
| PackageGameObject.ShiftByNothing | Sources/GameObject.swift:28 | an object shifted by no offset stays where it is |
| PackageGameObject.OffsetScene | Sources/GameObject.swift:45-56 | an equal relative position changes nothing; otherwise the object moves to its anchor position plus the new value, carrying what is anchored below it, and ends with that relative position |
| PackageGameObject.DetachScene | Sources/GameObject.swift:170-173 | detaching leaves the parent's children, drops the link, keeps the object's position as its relative position, and gives its tree a new family id |
| PackageGameObject.GameObjects.constructor | Sources/GameObject.swift:11-91 | an empty scene |
| PackageGameObject.GameObjects.Create | Sources/GameObject.swift:26-113 | a new object at the origin, anchored, without flags, attributes, parent or children, in a family of its own |
| PackageGameObject.GameObjects.SetWorld | Sources/GameObject.swift:253-255 | only whether the object is in a world changes |
| PackageGameObject.GameObjects.SetObjectFlags | Sources/GameObject.swift:181-187 | the flags become their union with `f`, after which they contain `f` |
| PackageGameObject.GameObjects.ClearObjectFlags | Sources/GameObject.swift:189-191 | the flags lose `f`, after which they hold no bit of it |
| PackageGameObject.GameObjects.SetValue | Sources/GameObject.swift:193-200 | `value(for: key)` is then `v`, with every other key keeping its value, and a missing key reading as 0 |
| PackageGameObject.GameObjects.SetPosition | Sources/GameObject.swift:36-42 | the object ends at `q`; an equal value changes nothing; a new one moves the object and everything anchored below it by the same offset, flagging them and moving their contact boxes, with every relative position agreeing afterwards |
| PackageGameObject.GameObjects.SetAnchorToParent | Sources/GameObject.swift:26-30 | the flag is set and the position observer runs in place |
| PackageGameObject.GameObjects.SetRelativePosition | Sources/GameObject.swift:45-56 | the object ends at relative position `r`, at its anchor position plus `r`, carrying what is anchored below it; an equal value changes nothing |
| PackageGameObject.GameObjects.AddChild | Sources/GameObject.swift:156-168 | the corrected guard: the child is refused with nothing changed when it is in a world, has a parent, or is the parent or one of its ancestors; otherwise it is adopted |
| PackageGameObject.GameObjects.RemoveFromParent | Sources/GameObject.swift:170-173 | nothing happens without a parent; otherwise the object is detached from it |
| PackageGameObject.GameObjects.Update | Sources/GameObject.swift:227-249 | `x` and every object below it are updated once, each with `positionDidUpdate` cleared and its frame counted, and nothing else changes |
| LegacyGameObject.MemberFlagsLaws | UselessEngine/GameWorldMember.swift:53-63 | after `set(flags: f)` the member contains `f` and every flag it had; after `clear(flags: f)` it holds no bit of `f` and keeps every bit outside it |
| LegacyGameObject.CarriedPlaced | UselessEngine/GameWorldMember.swift:126-131 | below a moved object, everything it carries is locked to its parent and sits at the parent's position plus its relative position |
| LegacyGameObject.MoveObject | UselessEngine/GameObject.swift:171-180 | the same position changes nothing; a new one moves the object and everything locked below it by the same offset, each recording `.position`, and gives the object its offset from its parent when it has one |
| LegacyGameObject.MoveKeepsFollowing | UselessEngine/GameWorldMember.swift:126-131 | after a move every locked object still sits at its parent's position plus its relative position |
| LegacyGameObject.ShiftKeepsNoContacts | UselessEngine/GameObject.swift:171-180 | a move gives no object a contact box of its own, the physics component following through its observer |
| LegacyGameObject.FollowsElsewhere | UselessEngine/GameObject.swift:17-23 | whether the objects other than `x` follow does not depend on `x`'s link or its relative position |
| LegacyGameObject.Resettled | UselessEngine/GameWorldMember.swift:17-23 | a move by the position setter leaves a well-formed scene |
| LegacyGameObject.MoveScene | UselessEngine/GameWorldMember.swift:17-23 | the position setter keeps the scene well formed and moves as the position observers prescribe |
| LegacyGameObject.MoveRecorded | UselessEngine/GameObject.swift:171-180 | a move records `.position` on every object it moves, lands the object at `q`, and keeps the offset to it of everything locked below it |
| LegacyGameObject.OffsetScene | UselessEngine/GameObject.swift:32-43 | an equal relative position changes nothing; otherwise the object moves to its parent's position (the origin without one) plus the new value, carrying what is locked below it, and ends with that relative position |
| LegacyGameObject.OffsetReady | UselessEngine/GameObject.swift:37-39 | with the new relative position stored, every other object still follows |
| LegacyGameObject.OffsetArena | UselessEngine/GameObject.swift:163-169 | the move to the parent's position plus `r` keeps the scene well formed |
| LegacyGameObject.OffsetMeets | UselessEngine/GameObject.swift:163-169 | that move gives exactly the outcome of the relative-position setter |
| LegacyGameObject.AdoptScene | UselessEngine/GameWorldMember.swift:97-108 | linking a root below an object that is not under it keeps the scene well formed and moves the child to the parent's position plus its relative position, carrying what is locked below it |
| LegacyGameObject.AdoptReady | UselessEngine/GameWorldMember.swift:102-103 | once the child is linked the links are a forest and every other object follows |
| LegacyGameObject.AdoptArena | UselessEngine/GameObject.swift:151-161 | the parent observer's move keeps the scene well formed |
| LegacyGameObject.AdoptMeets | UselessEngine/GameObject.swift:151-161 | the parent observer's move is exactly the adoption |
| LegacyGameObject.DetachScene | UselessEngine/GameObject.swift:111-114 | detaching leaves the parent's children, drops the link and zeroes the relative position without moving the object, the scene staying well formed |
| LegacyGameObject.DetachArena | UselessEngine/GameObject.swift:151-155 | unlinking and zeroing the relative position keeps the scene well formed |
| LegacyGameObject.Activate | UselessEngine/GameWorldMember.swift:78-95 | after `update` exactly `x` and the objects below it have been activated, in addition to what was active |
| LegacyGameObject.ActivatedChild | UselessEngine/GameWorldMember.swift:83-85 | one child updated activates it with everything below it |
| LegacyGameObject.SameFollowing | UselessEngine/GameObject.swift:97-109 | changes that keep every position and relative position keep every object following |
| LegacyGameObject.Record | UselessEngine/GameObject.swift:122 | `_changes.insert(c)` leaves `c` recorded on the object and changes nothing else |
| LegacyGameObject.SetVelocity | UselessEngine/GameObject.swift:46-52 | the velocity is stored, and `.velocity` is recorded exactly when it differs from the old one |
| LegacyGameObject.EnterState | UselessEngine/GameObject.swift:118-126 | the new state becomes current, `.state` is recorded, and no fallback changes |
| LegacyGameObject.PushState | UselessEngine/GameObject.swift:128-132 | the pushed state's fallback becomes the current state, then it is entered |
| LegacyGameObject.ExitState | UselessEngine/GameObject.swift:134-142 | the current state's fallback becomes current (no state stays no state) and `.state` is recorded |
| LegacyGameObject.PushThenExit | UselessEngine/GameObject.swift:128-142 | pushing a state and exiting it brings back the state the object had, with both steps recorded |
| LegacyGameObject.VelocityReported | UselessEngine/GameObject.swift:46-52 | from a reset tracker, a velocity write leaves exactly `.velocity` to report when the value changed and nothing otherwise |
| LegacyGameObject.KnownStateSet | UselessEngine/GameObject.swift:118-142 | giving an object a known state, or none, keeps every state known |
| LegacyGameObject.StatesStayKnown | UselessEngine/GameObject.swift:118-132 | entering or pushing a known state keeps every state known |
| LegacyGameObject.ExitKeepsKnown | UselessEngine/GameObject.swift:134-142 | exiting a state keeps every state known |
| LegacyGameObject.CreateArena | UselessEngine/GameObject.swift:59-86 | a new object keeps the scene well formed as a root |
| LegacyGameObject.CreateFramed | UselessEngine/GameObject.swift:59-86 | a new object keeps every property stored and every state known |
| LegacyGameObject.CreateKeyed | UselessEngine/GameWorldMember.swift:34-51 | a new object is given every stored property |
| LegacyGameObject.CreateFollows | UselessEngine/GameObject.swift:70-80 | a new object at the origin without a parent keeps every object following |
| LegacyGameObject.GameObjects.constructor | UselessEngine/GameObject.swift:11-55 | an empty scene |
| LegacyGameObject.GameObjects.Create | UselessEngine/GameObject.swift:59-86 | a new object at the origin with zero relative position and velocity, no state, no changes, no parent, no children, no flags, no attributes, inactive |
| LegacyGameObject.GameObjects.CreateState | UselessEngine/GameObject.swift:25 | a new state whose fallback is a known state or none |
| LegacyGameObject.GameObjects.SetWorld | UselessEngine/GameWorldMember.swift:13-28 | only whether the object is in a world changes |
| LegacyGameObject.GameObjects.SetObjectFlags | UselessEngine/GameWorldMember.swift:53-59 | the flags become their union with `f`, after which they contain `f` |
| LegacyGameObject.GameObjects.ClearObjectFlags | UselessEngine/GameWorldMember.swift:61-63 | the flags lose `f`, after which they hold no bit of it |
| LegacyGameObject.GameObjects.SetValue | UselessEngine/GameWorldMember.swift:65-72 | `value(for: key)` is then `v`, every other key keeping its value, a missing key reading as 0 |
| LegacyGameObject.GameObjects.SetPosition | UselessEngine/GameWorldMember.swift:17-23 | the scene stays well formed and the object moves as the position observers prescribe |
| LegacyGameObject.GameObjects.SetRelativePosition | UselessEngine/GameObject.swift:32-43 | the scene stays well formed and the object ends at the new relative position as the setter prescribes |
| LegacyGameObject.GameObjects.SetObjectVelocity | UselessEngine/GameObject.swift:46-52 | the velocity is stored and `.velocity` recorded exactly when it changed |
| LegacyGameObject.GameObjects.AddChild | UselessEngine/GameWorldMember.swift:97-108 | the corrected guard: refused, with nothing changed, for a child in a world, with a parent, or that is the parent or one of its ancestors; otherwise adopted |
| LegacyGameObject.GameObjects.RemoveFromParent | UselessEngine/GameObject.swift:111-114 | nothing happens without a parent; otherwise the object is detached |
| LegacyGameObject.GameObjects.Enter | UselessEngine/GameObject.swift:118-126 | entering a known state, the scene staying well formed |
| LegacyGameObject.GameObjects.Push | UselessEngine/GameObject.swift:128-132 | pushing a known state, the scene staying well formed |
| LegacyGameObject.GameObjects.Exit | UselessEngine/GameObject.swift:134-142 | exiting the current state, the scene staying well formed |
| LegacyGameObject.GameObjects.Update | UselessEngine/GameObject.swift:97-109 | `update` returns the changes recorded since the last one and resets them to none |
| LegacyGameObject.GameObjects.UpdateMember | UselessEngine/GameWorldMember.swift:78-95 | `x` and every object below it become active, nothing else changing |
| LegacyWorld.TieBreakNeverFires | UselessEngine/GameWorld.swift:107-117 | as written, the `addCheckpoint` comparator orders by `x` alone: its tie-break compares `$0.y` with itself |
| LegacyWorld.AsWrittenLeavesTiesUnordered | UselessEngine/GameWorld.swift:107-117 | as written, two checkpoints with equal `x` may stay in descending `y`, which the intended order forbids |
| LegacyWorld.SortedIsLexicographic | UselessEngine/GameWorld.swift:107-117 | sorted by the intended comparator means ordered by `x`, then by `y` among equal `x`, which is also sorted as written |
| LegacyWorld.InsertCheckpoint | UselessEngine/GameWorld.swift:105-118 | a sorted insertion exists: a permutation of the checkpoints plus the new one that is sorted |
| LegacyWorld.InsertFirst | UselessEngine/GameWorld.swift:105-118 | the new checkpoint may go first when the first one is not before it |
| LegacyWorld.InsertAfterFirst | UselessEngine/GameWorld.swift:105-118 | otherwise the first checkpoint stays ahead of the sorted rest that holds the new one |
| LegacyWorld.CellMemberIsRecorded | UselessEngine/GameWorld.swift:153 | an object handed over by `onNeighbors` has an entry in the grid, and so a contact box |
| LegacyWorld.GameWorld.constructor | UselessEngine/GameWorld.swift:28-53 | a new world is unpaused, with the given gravity, zero size, no objects, no checkpoints, an empty terrain of the tile size and an empty grid of the cell size |
| LegacyWorld.GameWorld.AddTile | UselessEngine/GameWorld.swift:61-75 | succeeds exactly when the tile's grid position is free; on success the size grows per axis to cover the tile and the tile is found there; on failure nothing changes |
| LegacyWorld.GameWorld.AddObject | UselessEngine/GameWorld.swift:77-92 | the object joins the set with its contact box; as `collisionGrid.update(for:)`, its recorded cells become those under the box, and the cell arrays are rewritten, cleared from the old list and appended on the new, only when the two lists differ; pause, gravity, size and terrain are unchanged |
| LegacyWorld.GameWorld.RemoveObject | UselessEngine/GameWorld.swift:120-129 | the object leaves the set and every grid cell; its recorded list is dropped when non-empty; pause, gravity, size and terrain are unchanged |
| LegacyWorld.GameWorld.AddCheckpoint | UselessEngine/GameWorld.swift:105-118 | the checkpoints become the old ones plus the new one, sorted by the intended comparator; objects, boxes, pause, gravity, size and terrain are unchanged |
| LegacyWorld.GameWorld.Update | UselessEngine/GameWorld.swift:131-192 | paused, nothing changes and `order` is empty; otherwise `order` visits every object once, and the events and the new boxes and grid are exactly those of `TickRun` over that order; every object that passes `matchCriteria` is updated exactly once and no other, and every event has its cause; the object set, checkpoints, pause, gravity, size and terrain are unchanged |
| LegacyWorld.GameWorld.UpdateObject | UselessEngine/GameWorld.swift:138-187 | the events and the new boxes and grid are exactly those of `UpdateRun`: the object is updated first and once, takes its new box, and only when moved is re-indexed and tested |
| LegacyWorld.GameWorld.TestMoved | UselessEngine/GameWorld.swift:148-186 | `collisionGrid.update(for: g)` under the new box, then `ObjectRun` over the cells under that box |
| LegacyWorld.GameWorld.TestRecordedCell | UselessEngine/GameWorld.swift:153-186 | the cell's array is read as it stands when the cell comes up, and the events and new state are those of `CellRun` over exactly that array |
| LegacyWorld.GameWorld.TestCell | UselessEngine/GameWorld.swift:153-186 | the events and new state are those of `CellRun`: `NeighborStep` for each object of the array other than `g`, in order |
| LegacyWorld.GameWorld.TestNeighbor | UselessEngine/GameWorld.swift:155-185 | the events and new state are exactly those of `NeighborStep`: the test, then on a hit of the as-written `intersect(_:)` (normal `(sy, sy)`) the contact when contactable, and when collidable the delegate's boxes, the collision, and the re-indexing of each side whose correction is non-zero |
| LegacyWorld.NeighborStep | UselessEngine/GameWorld.swift:155-185 | a neighbour test never adds or drops a contact box |
| LegacyWorld.CellRun | UselessEngine/GameWorld.swift:153-186 | neither does testing one cell's array |
| LegacyWorld.ObjectRun | UselessEngine/GameWorldCollisionGrid.swift:52-60 | nor does `onNeighbors` over a list of cells |
| LegacyWorld.UpdateRun | UselessEngine/GameWorld.swift:138-187 | an object's turn adds only its own contact box |
| LegacyWorld.CellRunStep | UselessEngine/GameWorldCollisionGrid.swift:54-58 | the array's `forEach` takes one more object through the action, skipping `g` |
| LegacyWorld.ObjectRunStep | UselessEngine/GameWorldCollisionGrid.swift:53-59 | the list's `forEach` reads one more cell's array as it then stands and runs through it |
| LegacyWorld.TickRunStep | UselessEngine/GameWorld.swift:138-188 | the set's `forEach` gives one more object its turn when it passes `matchCriteria` |
| LegacyWorld.ReportsAppend | UselessEngine/GameWorld.swift:138-188 | the updated and the tested objects of two runs of the loop are those of the first then those of the second |
| LegacyWorld.Unreported | UselessEngine/GameWorld.swift:159-184 | contacts and collisions report no update and no test |
| LegacyWorld.PassingMembers | UselessEngine/GameWorld.swift:138-142 | the objects passing `matchCriteria` are those of the visit order that pass it, without repeats when the order has none |
| LegacyWorld.TickReports | UselessEngine/GameWorld.swift:131-192 | a tick updates exactly the objects passing `matchCriteria`, in visit order, and every event it records has its cause |
| LegacyWorld.NeighborTested | UselessEngine/GameWorld.swift:153-156 | each neighbour test reports that neighbour, first, as tested, and no update |
| LegacyWorld.NeighborJustified | UselessEngine/GameWorld.swift:155-185 | each event of a neighbour test of a moved, matching object has its cause |
| LegacyWorld.CellRunTests | UselessEngine/GameWorld.swift:153-156 | testing one cell's array tests exactly its objects other than `g`, in order |
| LegacyWorld.CellRunJustified | UselessEngine/GameWorld.swift:153-186 | the events of testing one cell have their causes and report no update |
| LegacyWorld.ObjectRunJustified | UselessEngine/GameWorld.swift:153-186 | so do those of testing all recorded cells |
| LegacyWorld.TurnJustified | UselessEngine/GameWorld.swift:138-187 | an object's turn reports it as updated, first and only, and each of its events has its cause |
| LegacyWorld.RegridKeepsIndexed | UselessEngine/GameWorldCollisionGrid.swift:21-43 | `update(for:)` keeps the grid's arrays and lists in step |
| LegacyWorld.CellRunQuiet | UselessEngine/GameWorld.swift:165-184 | when the delegate lets `g` collide with nothing, testing a cell leaves boxes and grid unchanged |
| LegacyWorld.ObjectRunQuiet | UselessEngine/GameWorld.swift:153-186 | and then the objects tested are exactly those `onNeighbors` hands over, in order |
| LegacyWorld.QuietTurnTestsNeighbors | UselessEngine/GameWorld.swift:148-186 | a moved object that collides with nothing is re-indexed on exactly the cells under its new box, and every other object is tested against it once per such cell it lies on, itself never |

## Left out

- Rendering and UI: `Animation.renderFrame`, the sprite transforms and the graphics-component protocols. These are framework calls. The animation keeps only the texture it last handed to its sprite.
- Broadcasts and weak references: observer broadcasts, `NSHashTable` and the weak `world`/`parent` pointers. These are memory-management semantics. Links are optional handles, and a broadcast is not modelled beyond the state it leaves.
- Floating point: `Float` rounding, NaN and infinities. Values are `real`. The segment walk's `error` term is the one place where infinities matter, and there they are written out as an extended value.
- Square root and trigonometry: `magnitude`, `normalize`, angles, `theta` and `init(angle0:...)` of both vector types. Also the boost decay and the point-mass and spring integration. These are floating-point numerics. Where a length is compared, its square is used, which orders the same way.
- `Float.pi`: written as the decimal 3.1415927. The sun-angle conversions are proved for that constant.
- `UUID()` and `Date.timeIntervalSinceReferenceDate`: passed in as parameters. These are the fresh family id `fam` of a detach, the command's id, and the clock reading `now` of `queue(command:payload:)`.
- The collision delegate, state-machine handlers, physics/state/input component updates, the graph's `cost` and `heuristic`, and a tile's elevation function: bodies outside the core. They are function-valued parameters and their results are not interpreted.
- `PriorityQueue` from the UselessCommon package: modelled as a sequence from which an entry of least priority is taken. Ties may come out in any order.
- `clamp` from the same package: written out as `min(max(v, lo), hi)`.
- Iteration order of Swift `Dictionary` and `Set`: not specified by the language. Each step picks an arbitrary remaining element, and the contracts hold for every order.
- Swift's `sort(by:)`: not stable. The queues are stated as some sorted permutation, not a particular one.
- `UnitPosition`'s hash-based equality and its debug-only `|x|, |y| <= 32767` assertion: a cell is a plain pair of unbounded ints, so keys never collide or overflow.
- PackageCollisionGrid.CollisionGrid.Resolve: states `gameObjectsOnCell` through the `below` table it is the inverse of, so which cells keep an entry that has become empty is left open.
- LegacyWorld.NeighborStep: keeps the as-written `(sy, sy)` normal of the Findings table, because the legacy tick calls that `intersect(_:)`. The corrected `PackageAabb.Intersect` is not substituted into the legacy tick.
- LegacyGraph.Graph.Path: does not state that the goal-alone answer happens exactly when the search never reached the goal. It bounds the number of dequeues by `maxSteps`, because A* over real-valued costs has no termination measure of its own. It requires a positive `cost`, because that is what makes following `cameFrom` back to the start finite.
- LegacyGraph.Graph.Path: the priority uses `heuristic(current, next)` as the source writes it, not an estimate from `next` to the goal. No optimality of the path is claimed.
- LegacyGraph.Graph.Generate: requires positive node spacings. With a zero spacing the bound computation divides by zero. With a negative one the range `0...upper` traps.
- LegacyTerrain.Terrain.constructor: requires a non-zero tile size, because a zero size makes every key computation divide by zero.
- Package game-object state machine (`enter`, `push`, `exitState`) and components: outside the tree logic. `update(_:)` is modelled only for the flags and frame counters it changes. Collision resolution and the broadcast it starts are left out.
- Object trees: modelled as maps inside one arena. Updating one object's fields in place is captured, but aliasing between Swift references outside the arena is not.
- Flags a move leaves: passed to the cascades as a function from old flags to new flags (`MarkMoved`), not as a bit operation inside each quantified map.
- World staging in `add(child:)` (`stageEntry` and the world's `add(member:)`): the modelled tree operation leaves the world's object set unchanged.
- The `Scene` record of Sources: left out. It only groups a world and its objects.
- LegacyGameObject.GameObjects.Create: takes `lockToParent` as a parameter, and no modelled operation changes it. Its declaration is not part of this model.
- Legacy physics, graphics, input and hook components: not part of this model. The contact box is part of the pose, and `None` means the object has no collision component.
- The `inited` instance counter of the legacy `GameObject`: left out. It only feeds a debug print.
- Legacy parents that are plain `GameWorldMember`s rather than `GameObject`s: modelled as objects of the same arena.
- The world's `add(member:)` dispatch and `elevation(at:)`: the terrain part is modelled in `LegacyTerrain`. The dispatch on the member's dynamic type is not modelled.
- The terrain's own `update` in the world's tick: left out. It calls each tile's `update`, whose body is empty.
- Performance `measure` blocks and the randomised terrain set-up of the world tests: not part of this model.

## Findings

| source | as written | input that shows it | evidently intended | confidence | as-written member | corrected member |
|---|---|---|---|---|---|---|
| Sources/GameWorldCollisionGrid.swift:77-87 | `nextObject(between:and:)` keeps the candidate whose hit point has the smallest magnitude, that is the hit nearest the world origin | a segment from (10, 0) to the origin, with boxes of halfwidth 0.5 at x = 8 and x = 2 on one cell; as written the hit at (2.5, 0) wins over the first one met, at (8.5, 0) | the first object the segment meets, ranked by how far along the segment the hit lies | not executed | GridCells.OriginRankingPrefersLaterHit, PackageCollisionGrid.CollisionGrid.NextObjectAsWritten | GridCells.ParameterRankingPrefersEarlierHit, PackageCollisionGrid.CollisionGrid.NextObject |
| UselessEngine/GameWorldCollisionGrid.swift:130-140 | the same ranking by the magnitude of the hit point | the same two boxes and segment | the first object the segment meets | not executed | GridCells.OriginRankingPrefersLaterHit, LegacyCollisionGrid.CollisionGrid.NextObjectAsWritten | GridCells.ParameterRankingPrefersEarlierHit, LegacyCollisionGrid.CollisionGrid.NextObject |
| Sources/Physics/AABB.swift:101-104 | the hit normal is built as `(sy, sy)` | boxes of halfwidth 5 at the origin and at (-1, 1): delta x is negative, yet the normal's x is +1 | `(sx, sy)`, the normal following the sign of the delta on each axis | not executed | PackageAabbExamples.AsWrittenNormalIgnoresX, PackageAabb.IntersectAsWritten | PackageAabb.Intersect, PackageAabb.NormalFollowsDelta |
| UselessEngine/Graphics/Animation.swift:68-76 | with no textures, one placeholder texture is stored but the rates are sized by the empty argument; with rates given too, the range `0...-1` traps | `textures = []` with `rates = []` (no rate for the one texture) or `rates = [12]` (trap) | one rate per stored texture | not executed | LegacyAnimation.EmptyTexturesLeaveNoRate | LegacyAnimation.InitialRates, LegacyAnimation.InitialRatesAgreeWithTextures |
| UselessEngine/GameWorld.swift:112 | the checkpoint comparator's tie-break compares `$0.y` with itself, so it never fires | checkpoints (0, 1, 0) then (0, 0, 0) count as sorted | order by `x`, then by `y` among equal `x` | not executed | LegacyWorld.TieBreakNeverFires, LegacyWorld.AsWrittenLeavesTiesUnordered | LegacyWorld.GameWorld.AddCheckpoint, LegacyWorld.SortedIsLexicographic |
| Sources/GameObject.swift:157-160 | `add(child:)` rejects only a child that is in a world or has a parent, so an object can adopt itself or an ancestor | `x.add(child: x)` on a fresh object: `x` becomes its own parent and the root walk of `traverseFamily` never ends | reject a child that is the parent itself or one of its ancestors | not executed | PackageObjectTree.SelfAdoptionNeverReachesRoot | PackageGameObject.GameObjects.AddChild, PackageObjectTree.AncestorOrSelf |
| UselessEngine/GameWorldMember.swift:97-100 | the same guard in the legacy `add(child:)` | `x.add(child: x)` on a fresh object | reject a child that is the parent itself or one of its ancestors | not executed | PackageObjectTree.SelfAdoptionNeverReachesRoot | LegacyGameObject.GameObjects.AddChild, PackageObjectTree.AncestorOrSelf |
