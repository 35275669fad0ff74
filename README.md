# JourneyFactions territory core in Dafny

JourneyFactions draws faction territories on the JourneyMap minimap. Territory
is claimed chunk by chunk: a chunk is a 16×16-block cell addressed by integer
coordinates. This project models the part of the mod that turns sets of
claimed chunks into map geometry, and the tables and small state machines that
feed it. It then proves what that code promises.

- **Geometry** (`grid.dfy`, `regions.dfy`, `polygon_builder.dfy`,
  `label_anchors.dfy`):
  - The flood fill splits a chunk set into maximal 4-connected regions, and
    the regions can be sorted largest first.
  - `AdvancedPolygonBuilder` supersamples each chunk into 4×4 sub-cells and
    picks the lexicographically smallest start cell.
  - It walks the contour with Moore-neighbourhood tracing, capped at 10,000
    points.
  - It maps sub-cells to world blocks and applies a local simplifier, with a
    bounding-rectangle fallback.
  - The client `FactionOverlayManager` places labels with a multi-source BFS
    "farthest from the edge" anchor or with a bounding-box centre. It also
    builds the single-chunk, bounding and label rectangles.
- **Overlay bookkeeping** (`client_overlays.dfy`, `main_overlays.dfy`):
  - Which polygons a faction's visible territory yields.
  - How its territory and label overlays are named.
  - Which region and anchor each label gets.
  - The string-keyed overlay tables, which are filled per faction and pruned
    by faction id.
  - The main side's per-chunk outline builder.
- **Ownership** (`ownership.dfy`, `main_data.dfy`, `client_data.dfy`):
  - `ClientFaction` is modelled as a class updated in place.
  - There are two copies of `ClientFactionManager`, each with two tables:
    faction id → faction object, and chunk → owner id.
  - The client copy also keeps the set of discovered chunks.
- **State machines** (`discovery.dfy`, `display.dfy`, `polygon_config.dfy`):
  - The discovery tracker marks the chunks around the player when the
    player's chunk or the view distance changes.
  - The display on/off switch.
  - The threshold rule that picks a polygon method from a chunk count.

Where the source mutates, the model does too:
- `ClientFaction`, both `ClientFactionManager`s, both overlay managers, the
  discovery tracker and the display manager are classes. Their methods carry
  `modifies` clauses and state their whole new state.
- Loops in the source are `while`/`for` loops proved against specification
  functions. Examples: `UpdateChunkMapping` against `Remapped`,
  `SimplifyPolygon` against `Simplified`, the trace against `MooreTrace`.
- The properties of those functions are separate lemmas.

Choices that depend on hash iteration order are chosen with `:|`, so the
proofs hold for every order. They are:
- the BFS tie-break;
- `region.iterator().next()`;
- the order regions are found in;
- the order chunks are outlined in.

Floating point only appears in two tests, and both are exact integer tests:
- `distance(a, b) > 8` is `dx² + dz² > 64`;
- `isCollinear`'s `area < 1.0` is `|det| < 2`.

`computeHullCentroid` uses Java's truncating `/`, written out as `JavaDiv`.

Observations the proofs make explicit:
- **The raw trace is not closed.** `mooreBoundaryTrace` stops before it records
  the start cell again (`StartOnlyFirst`), and traced points are sub-cell
  corners: one chunk traces to world offsets 0..12, not 0..16. A traced outline
  may also have fewer than four points once simplified. Only the rectangles
  are closed, and the fallback is taken only for an empty grid.
- **The "no edge" branches of `computeInteriorLabelAnchor` are unreachable**
  (lines 85-88 and 108). Every non-empty finite region has an edge chunk
  (`EdgeExists`).
- **The emptiness check after `buildPolygonFromChunks` is unreachable**
  (main overlay manager, line 86). Every chunk adds five points.
- **Pruning overreaches.** `completelyRemoveFactionOverlays` removes every key
  that merely *contains* the faction id: removing `"red"` also drops
  `"redstone_label"` (`PruningReachesOtherFactions`). The `equals` and
  `startsWith` tests add nothing to `contains` (`RemovalMatchIsContains`).
- **`removeFaction` unmaps a chunk even when the table names another owner.**
  This happens when the faction's claimed set still lists the chunk, and the
  model states exactly this in its contract.
- **`setChunkOwner` with an unknown id** still maps the chunk to that id.
- **`getClaimedChunks` returns a copy.** Sets are values in the model, so a
  caller can never reach a faction's claims through the result.

## Model

Paths are relative to the repository root. APB stands for
`src/client/java/io/arona74/journeyfactions/journeymap/AdvancedPolygonBuilder.java`;
the other paths are written out.

| member | source | states |
|---|---|---|
| Grid.Neighbours | src/client/java/io/arona74/journeyfactions/journeymap/FactionOverlayManager.java:120-127 | four entries, and a chunk is among them exactly when it is 4-adjacent |
| Grid.MinX | src/client/java/io/arona74/journeyfactions/journeymap/AdvancedPolygonBuilder.java:259 | the stream minimum of x: attained by some chunk and no greater than any |
| Grid.MaxX | src/client/java/io/arona74/journeyfactions/journeymap/AdvancedPolygonBuilder.java:260 | the stream maximum of x: attained by some chunk and no smaller than any |
| Grid.MinZ | src/client/java/io/arona74/journeyfactions/journeymap/AdvancedPolygonBuilder.java:261 | the stream minimum of z: attained and a lower bound |
| Grid.MaxZ | src/client/java/io/arona74/journeyfactions/journeymap/AdvancedPolygonBuilder.java:262 | the stream maximum of z: attained and an upper bound |
| Grid.JavaDiv | src/client/java/io/arona74/journeyfactions/journeymap/FactionOverlayManager.java:228-229 | Java `/` rounds toward zero for every sign of dividend and divisor: the remainder `a - q·b` has the dividend's sign and is smaller in size than the divisor (which pins q); Euclidean on non-negative operands |
| Grid.JavaRem | src/client/java/io/arona74/journeyfactions/journeymap/AdvancedPolygonBuilder.java:193-194 | Java `%`: quotient·divisor + remainder = dividend, and the remainder takes the dividend's sign and is smaller in size than the divisor, for either sign of divisor |
| Regions.FloodFill | src/client/java/io/arona74/journeyfactions/journeymap/AdvancedPolygonBuilder.java:54-73 | the chunks it adds are exactly the newly visited ones; start is added iff it is in the set and unvisited; every in-set neighbour of an added chunk ends up visited; every added chunk is reached from start by a walk through added chunks |
| Regions.FindConnectedRegions | src/client/java/io/arona74/journeyfactions/journeymap/AdvancedPolygonBuilder.java:37-52 | the regions cover the input, are pairwise disjoint, and each is 4-connected and maximal |
| Regions.FilledRegionIsComponent | src/client/java/io/arona74/journeyfactions/journeymap/AdvancedPolygonBuilder.java:41-47 | a fill from an unvisited chunk of a closed visited set adds exactly one maximal connected region and leaves the visited set closed |
| Regions.InsertBySize | src/client/java/io/arona74/journeyfactions/journeymap/FactionOverlayManager.java:255 | inserting a region adds exactly that region to the multiset of regions |
| Regions.InsertBySizeOfSize | src/client/java/io/arona74/journeyfactions/journeymap/FactionOverlayManager.java:255 | the inserted region goes in front of every region of its own size |
| Regions.SortBySizeDescending | src/client/java/io/arona74/journeyfactions/journeymap/FactionOverlayManager.java:371 | the sorted list is a permutation of the input |
| Regions.SortBySizeStable | src/client/java/io/arona74/journeyfactions/journeymap/FactionOverlayManager.java:371 | `List.sort` is stable: for every size, the regions of that size keep their input order |
| Regions.TiesKeepOrder | src/client/java/io/arona74/journeyfactions/journeymap/FactionOverlayManager.java:371 | two regions of equal size come out in their input order |
| Regions.SortBySizeDescendingCorrect | src/client/java/io/arona74/journeyfactions/journeymap/FactionOverlayManager.java:254-255 | sizes never increase along the sorted list; it is a permutation; a partition stays a partition of the same set |
| Regions.SortedConnectedRegions | src/client/java/io/arona74/journeyfactions/journeymap/FactionOverlayManager.java:370-371 | the regions partition the chunks into maximal 4-connected regions, largest first |
| AdvancedPolygonBuilder.SubCellsMembership | src/client/java/io/arona74/journeyfactions/journeymap/AdvancedPolygonBuilder.java:119-125 | a sub-cell is in the grid exactly when its chunk (floor division by 4) is in the region |
| AdvancedPolygonBuilder.SingleChunkSubCells | src/client/java/io/arona74/journeyfactions/journeymap/AdvancedPolygonBuilder.java:120-125 | each chunk contributes 16 distinct sub-cells |
| AdvancedPolygonBuilder.SubCellsCount | src/client/java/io/arona74/journeyfactions/journeymap/AdvancedPolygonBuilder.java:115-129 | the grid has 16·\|region\| cells |
| AdvancedPolygonBuilder.CreateGrid | src/client/java/io/arona74/journeyfactions/journeymap/AdvancedPolygonBuilder.java:115-129 | the grid is exactly the sub-cells (4x+dx, 4z+dz), 0 ≤ dx, dz < 4, of the region's chunks, 16·\|region\| of them |
| AdvancedPolygonBuilder.FindStartPoint | src/client/java/io/arona74/journeyfactions/journeymap/AdvancedPolygonBuilder.java:131-135 | none exactly for an empty grid; otherwise a grid cell no greater (by x, then z) than any other |
| AdvancedPolygonBuilder.StartPointUnique | src/client/java/io/arona74/journeyfactions/journeymap/AdvancedPolygonBuilder.java:131-135 | the minimum is unique, so the start does not depend on iteration order |
| AdvancedPolygonBuilder.StartPointOfRegion | src/client/java/io/arona74/journeyfactions/journeymap/AdvancedPolygonBuilder.java:87-90 | a non-empty region's start is the north-west sub-cell of the northernmost chunk in its westernmost column |
| AdvancedPolygonBuilder.Step | src/client/java/io/arona74/journeyfactions/journeymap/AdvancedPolygonBuilder.java:144-145 | each direction offset leads to an 8-neighbour |
| AdvancedPolygonBuilder.StepCovers | src/client/java/io/arona74/journeyfactions/journeymap/AdvancedPolygonBuilder.java:143-145 | every 8-neighbour lies in one of the eight directions |
| AdvancedPolygonBuilder.SearchDirReaches | src/client/java/io/arona74/journeyfactions/journeymap/AdvancedPolygonBuilder.java:155-158 | the search from any starting direction tries every direction |
| AdvancedPolygonBuilder.SearchFrom | src/client/java/io/arona74/journeyfactions/journeymap/AdvancedPolygonBuilder.java:157-167 | the offset found is the first whose neighbour is occupied; all earlier ones are empty |
| AdvancedPolygonBuilder.SearchFailsOnlyWhenIsolated | src/client/java/io/arona74/journeyfactions/journeymap/AdvancedPolygonBuilder.java:157-171 | the search fails exactly when the cell has no occupied 8-neighbour |
| AdvancedPolygonBuilder.SearchNext | src/client/java/io/arona74/journeyfactions/journeymap/AdvancedPolygonBuilder.java:154-167 | starts at (direction + 6) mod 8 and returns the first occupied neighbour and its direction |
| AdvancedPolygonBuilder.MooreBoundaryTrace | src/client/java/io/arona74/journeyfactions/journeymap/AdvancedPolygonBuilder.java:140-182 | the do-while loop computes exactly the trace `MooreTrace` |
| AdvancedPolygonBuilder.TraceFromExtends | src/client/java/io/arona74/journeyfactions/journeymap/AdvancedPolygonBuilder.java:173-177 | each trace continues what was recorded and never exceeds 10,001 points |
| AdvancedPolygonBuilder.TraceFromInGrid | src/client/java/io/arona74/journeyfactions/journeymap/AdvancedPolygonBuilder.java:151-166 | every recorded point is an occupied cell |
| AdvancedPolygonBuilder.TraceFromSteps | src/client/java/io/arona74/journeyfactions/journeymap/AdvancedPolygonBuilder.java:157-166 | consecutive recorded points are 8-neighbours |
| AdvancedPolygonBuilder.TraceFromAvoidsStart | src/client/java/io/arona74/journeyfactions/journeymap/AdvancedPolygonBuilder.java:179 | the start is recorded only once, at the front: the trace is not closed |
| AdvancedPolygonBuilder.TraceFromStops | src/client/java/io/arona74/journeyfactions/journeymap/AdvancedPolygonBuilder.java:169-179 | the trace stops only at the cap, at a cell with no occupied neighbour, or next to the start with at least two points |
| AdvancedPolygonBuilder.MooreTraceProperties | src/client/java/io/arona74/journeyfactions/journeymap/AdvancedPolygonBuilder.java:140-182 | 1 to 10,001 points, starting at start, all occupied, 8-connected, start never repeated, and one of the three stop reasons holds |
| AdvancedPolygonBuilder.WorldCoordinate | src/client/java/io/arona74/journeyfactions/journeymap/AdvancedPolygonBuilder.java:193-194 | `(g/4)*16 + (g%4)*4` with Java's operators equals 4·g for every sign of g |
| AdvancedPolygonBuilder.Scaled | src/client/java/io/arona74/journeyfactions/journeymap/AdvancedPolygonBuilder.java:190-197 | point i goes to block (4·x, 64, 4·z) |
| AdvancedPolygonBuilder.ConvertToWorldCoordinates | src/client/java/io/arona74/journeyfactions/journeymap/AdvancedPolygonBuilder.java:187-201 | the simplified list of the scaled points |
| AdvancedPolygonBuilder.SquaredDistance | src/client/java/io/arona74/journeyfactions/journeymap/AdvancedPolygonBuilder.java:234-238 | non-negative, and zero exactly for points with the same x and z |
| AdvancedPolygonBuilder.IsCollinear | src/client/java/io/arona74/journeyfactions/journeymap/AdvancedPolygonBuilder.java:240-246 | the area test \|det\| / 2 < 1; three points two of which coincide are always collinear |
| AdvancedPolygonBuilder.CollinearReversed | src/client/java/io/arona74/journeyfactions/journeymap/AdvancedPolygonBuilder.java:240-246 | collinearity does not depend on reading direction |
| AdvancedPolygonBuilder.AxisLineCollinear | src/client/java/io/arona74/journeyfactions/journeymap/AdvancedPolygonBuilder.java:240-246 | three points on one axis-parallel line count as collinear |
| AdvancedPolygonBuilder.KeptIndices | src/client/java/io/arona74/journeyfactions/journeymap/AdvancedPolygonBuilder.java:215-228 | the kept interior indices lie strictly between 0 and the bound |
| AdvancedPolygonBuilder.KeptIndicesExactly | src/client/java/io/arona74/journeyfactions/journeymap/AdvancedPolygonBuilder.java:215-228 | kept indices strictly increase, and an interior index is kept iff its point passes the test against its original neighbours |
| AdvancedPolygonBuilder.SimplifiedIndices | src/client/java/io/arona74/journeyfactions/journeymap/AdvancedPolygonBuilder.java:212-230 | every selected index is a valid index of the input |
| AdvancedPolygonBuilder.SimplifiedSelects | src/client/java/io/arona74/journeyfactions/journeymap/AdvancedPolygonBuilder.java:206-232 | ≤ 3 points come back unchanged; otherwise a subsequence at increasing indices keeping the first and last point and exactly the interior points with d² > 64 to a neighbour or \|det\| ≥ 2 |
| AdvancedPolygonBuilder.StraightRunCollapses | src/client/java/io/arona74/journeyfactions/journeymap/AdvancedPolygonBuilder.java:215-231 | a run with no kept interior point collapses to its two ends |
| AdvancedPolygonBuilder.SimplifyPolygon | src/client/java/io/arona74/journeyfactions/journeymap/AdvancedPolygonBuilder.java:206-232 | the loop computes exactly `Simplified` |
| AdvancedPolygonBuilder.CreateFallbackBoundary | src/client/java/io/arona74/journeyfactions/journeymap/AdvancedPolygonBuilder.java:251-279 | empty iff the region is; otherwise 5 points at y = 64, closed, axis-aligned, enclosing every chunk, each side touching a chunk |
| AdvancedPolygonBuilder.TraceBoundary | src/client/java/io/arona74/journeyfactions/journeymap/AdvancedPolygonBuilder.java:78-109 | empty region → nothing; no start → fallback; otherwise the simplified world image of the trace |
| AdvancedPolygonBuilder.TracedBoundaryStart | src/client/java/io/arona74/journeyfactions/journeymap/AdvancedPolygonBuilder.java:86-103 | a non-empty region's outline is non-empty and begins at the north-west corner of the northernmost chunk of its westernmost column |
| AdvancedPolygonBuilder.TracedBoundaryNonEmpty | src/client/java/io/arona74/journeyfactions/journeymap/AdvancedPolygonBuilder.java:78-103 | a non-empty region never yields an empty outline |
| AdvancedPolygonBuilder.BuildPrecisePolygons | src/client/java/io/arona74/journeyfactions/journeymap/AdvancedPolygonBuilder.java:18-32 | one outline per region of a partition of the chunks into maximal connected regions, in order |
| AdvancedPolygonBuilder.TraceRegions | src/client/java/io/arona74/journeyfactions/journeymap/AdvancedPolygonBuilder.java:24-29 | the loop keeps the non-empty outlines of the regions, in order |
| AdvancedPolygonBuilder.OutlinesLength | src/client/java/io/arona74/journeyfactions/journeymap/AdvancedPolygonBuilder.java:24-29 | with no empty region, there are as many outlines as regions |
| AdvancedPolygonBuilder.OutlineAt | src/client/java/io/arona74/journeyfactions/journeymap/AdvancedPolygonBuilder.java:24-29 | outline i is region i's traced boundary, and it is non-empty |
| LabelAnchors.IsEdgeChunk | src/client/java/io/arona74/journeyfactions/journeymap/FactionOverlayManager.java:113-118 | not all four orthogonal neighbours are in the set; its properties are stated by `EdgeChunkMissingNeighbour` |
| LabelAnchors.ChunkCenter | src/client/java/io/arona74/journeyfactions/journeymap/FactionOverlayManager.java:108-110 | the block (16x+8, 70, 16z+8); its properties are stated by `ChunkCenterInChunk` |
| LabelAnchors.ChunkCenterInChunk | src/client/java/io/arona74/journeyfactions/journeymap/FactionOverlayManager.java:108-110 | the centre is at y = 70 inside its own chunk (x / 16 = chunk x, z / 16 = chunk z), 8 blocks from the chunk's low corner on both axes |
| LabelAnchors.EdgeChunkMissingNeighbour | src/client/java/io/arona74/journeyfactions/journeymap/FactionOverlayManager.java:113-118 | a chunk is an edge chunk iff some 4-neighbour is missing from the set; against the empty set every chunk is one |
| LabelAnchors.EdgeExists | src/client/java/io/arona74/journeyfactions/journeymap/FactionOverlayManager.java:78-88 | every non-empty region has an edge chunk, so the "no edge" fallback never runs |
| LabelAnchors.ComputeInteriorLabelAnchor | src/client/java/io/arona74/journeyfactions/journeymap/FactionOverlayManager.java:72-111 | none iff the region is empty; otherwise the centre (x·16+8, 70, z·16+8) of a chunk whose shortest-path distance to the edge is maximal, with all distances exact |
| LabelAnchors.DistancesToEdge | src/client/java/io/arona74/journeyfactions/journeymap/FactionOverlayManager.java:75-100 | the table labels exactly the region's chunks, each with its shortest 4-path distance to an edge chunk |
| LabelAnchors.EdgeSeeds | src/client/java/io/arona74/journeyfactions/journeymap/FactionOverlayManager.java:76-83 | exactly the edge chunks get distance 0 and are queued |
| LabelAnchors.SpreadInward | src/client/java/io/arona74/journeyfactions/journeymap/FactionOverlayManager.java:90-100 | after the BFS loop every region chunk holds its exact distance to the edge |
| LabelAnchors.VisitNeighbours | src/client/java/io/arona74/journeyfactions/journeymap/FactionOverlayManager.java:92-99 | one dequeue step keeps the BFS invariant and makes progress |
| LabelAnchors.LabelNeighbours | src/client/java/io/arona74/journeyfactions/journeymap/FactionOverlayManager.java:94-99 | every region neighbour of the current chunk is labelled, new ones at d+1 and appended to the queue |
| LabelAnchors.ReachedAll | src/client/java/io/arona74/journeyfactions/journeymap/FactionOverlayManager.java:91-100 | when the queue runs dry every region chunk has a distance |
| LabelAnchors.FarthestKey | src/client/java/io/arona74/journeyfactions/journeymap/FactionOverlayManager.java:103-107 | none iff the table is empty; otherwise a key with the largest value |
| LabelAnchors.FarthestChunk | src/client/java/io/arona74/journeyfactions/journeymap/FactionOverlayManager.java:102-108 | the chosen chunk is farthest from the edge |
| LabelAnchors.FarthestChosen | src/client/java/io/arona74/journeyfactions/journeymap/FactionOverlayManager.java:102-110 | a key with the largest exact distance is farthest from the edge |
| LabelAnchors.Midpoint | src/client/java/io/arona74/journeyfactions/journeymap/FactionOverlayManager.java:228-229 | Java `(lo + hi) / 2` lies in [lo, hi] and is the midpoint rounded toward zero |
| LabelAnchors.HullCentroid | src/client/java/io/arona74/journeyfactions/journeymap/FactionOverlayManager.java:221-231 | at y = 70, inside [minX·16, maxX·16+15] × [minZ·16, maxZ·16+15] |
| LabelAnchors.HullCentroidInChunkBox | src/client/java/io/arona74/journeyfactions/journeymap/FactionOverlayManager.java:221-231 | the centre lies in a chunk column and row within the region's chunk extents |
| LabelAnchors.ComputeHullCentroid | src/client/java/io/arona74/journeyfactions/journeymap/FactionOverlayManager.java:204-232 | (0, 70, 0) for an empty region; otherwise the truncated midpoint of the block bounding box |
| LabelAnchors.ExtentsFound | src/client/java/io/arona74/journeyfactions/journeymap/FactionOverlayManager.java:214-219 | extents that are attained and bound every chunk are the set's extents |
| LabelAnchors.Rectangle | src/client/java/io/arona74/journeyfactions/journeymap/FactionOverlayManager.java:502-506 | a closed axis-aligned rectangle at height y from corner (x0, z0) to corner (x1, z1), with the other two corners between them |
| LabelAnchors.ChunkRectangle | src/client/java/io/arona74/journeyfactions/journeymap/FactionOverlayManager.java:470-483 | a closed axis-aligned rectangle at y = 70 whose half-open span is exactly the chunk's blocks |
| LabelAnchors.BoundingRectangle | src/client/java/io/arona74/journeyfactions/journeymap/FactionOverlayManager.java:488-511 | a closed axis-aligned rectangle at y = 70 enclosing every chunk, each side touching a chunk; the empty set gives chunk (0, 0)'s square |
| LabelAnchors.SingletonRectangles | src/client/java/io/arona74/journeyfactions/journeymap/FactionOverlayManager.java:411-420 | on one chunk, the bounding rectangle and the chunk rectangle coincide |
| LabelAnchors.FallbackPolygon | src/client/java/io/arona74/journeyfactions/journeymap/FactionOverlayManager.java:406-421 | none iff the region is empty; otherwise the region's bounding rectangle |
| LabelAnchors.LabelSquare | src/client/java/io/arona74/journeyfactions/journeymap/FactionOverlayManager.java:36-46 | a closed axis-aligned 2×2-block square at y = 70 centred on the anchor, with all four corners at distance 1 on each axis |
| ClientOverlays.RegionPolygons | src/client/java/io/arona74/journeyfactions/journeymap/FactionOverlayManager.java:376-393 | the helper's polygons when it yields some; else the bounding rectangle of a non-empty region; else nothing |
| ClientOverlays.PolygonsCoverRegions | src/client/java/io/arona74/journeyfactions/journeymap/FactionOverlayManager.java:373-394 | at least one polygon per non-empty region |
| ClientOverlays.PolygonsMatchRegions | src/client/java/io/arona74/journeyfactions/journeymap/FactionOverlayManager.java:373-394 | with at most one helper polygon per region, polygon i is region i's own |
| ClientOverlays.SingleRegionPolygon | src/client/java/io/arona74/journeyfactions/journeymap/FactionOverlayManager.java:376-386 | such a region contributes exactly one polygon of its own |
| ClientOverlays.BuildPolygons | src/client/java/io/arona74/journeyfactions/journeymap/FactionOverlayManager.java:365-401 | the loop yields exactly `PolygonsFor` over the sorted regions |
| ClientOverlays.OverlayId | src/client/java/io/arona74/journeyfactions/journeymap/FactionOverlayManager.java:270 | the faction id, or `id + "_region_" + i` when the faction has several polygons; its properties are stated by `IdsStartWithFactionId`, `OverlayIdsDistinct` and `LabelIdsApart` |
| ClientOverlays.LabelId | src/client/java/io/arona74/journeyfactions/journeymap/FactionOverlayManager.java:331 | the overlay id followed by `"_label"`; its properties are stated by `IdsStartWithFactionId`, `LabelIdsApart` and `LabelIdsDistinct` |
| ClientOverlays.LabelText | src/client/java/io/arona74/journeyfactions/journeymap/FactionOverlayManager.java:291-293 | the display name, followed by `" #" + (i + 1)` when there are several polygons (the label-only overlay at lines 338-340 builds the same text); its properties are stated by `LabelTextNamed` |
| ClientOverlays.LabelTextNamed | src/client/java/io/arona74/journeyfactions/journeymap/FactionOverlayManager.java:291-293 | a label starts with the display name, and is exactly the display name iff the faction has at most one polygon |
| ClientOverlays.IdsStartWithFactionId | src/client/java/io/arona74/journeyfactions/journeymap/FactionOverlayManager.java:270 | overlay and label ids begin with the faction id; the overlay id is the bare faction id iff the faction has at most one polygon |
| ClientOverlays.OverlayIdsDistinct | src/client/java/io/arona74/journeyfactions/journeymap/FactionOverlayManager.java:270 | different polygons get different overlay ids |
| ClientOverlays.LabelIdsApart | src/client/java/io/arona74/journeyfactions/journeymap/FactionOverlayManager.java:331 | no label id equals an overlay id of the same faction |
| ClientOverlays.LabelIdsDistinct | src/client/java/io/arona74/journeyfactions/journeymap/FactionOverlayManager.java:331 | different polygons get different label ids |
| ClientOverlays.AnchorRegion | src/client/java/io/arona74/journeyfactions/journeymap/FactionOverlayManager.java:310 | region i when it exists, otherwise all visible chunks |
| ClientOverlays.AnchorRegionWithin | src/client/java/io/arona74/journeyfactions/journeymap/FactionOverlayManager.java:310 | over a partition of a non-empty set the anchor region is non-empty and inside the set |
| ClientOverlays.AnchorWithinExtents | src/client/java/io/arona74/journeyfactions/journeymap/FactionOverlayManager.java:315-329 | whatever the mode, the anchor is at y = 70 within the region's chunk extents |
| ClientOverlays.ChooseAnchor | src/client/java/io/arona74/journeyfactions/journeymap/FactionOverlayManager.java:315-329 | hull centroid, some chunk's centre, or a farthest-from-edge chunk's centre, by mode |
| ClientOverlays.PolygonEntries | src/client/java/io/arona74/journeyfactions/journeymap/FactionOverlayManager.java:306-349 | keys are the overlay id, plus the label id exactly when labels are separate |
| ClientOverlays.FactionEntriesKeys | src/client/java/io/arona74/journeyfactions/journeymap/FactionOverlayManager.java:269-351 | the keys written are the polygons' overlay ids, plus their label ids when labels are separate |
| ClientOverlays.PolygonKeysApart | src/client/java/io/arona74/journeyfactions/journeymap/FactionOverlayManager.java:270-331 | the keys of different polygons never collide |
| ClientOverlays.TerritoryStored | src/client/java/io/arona74/journeyfactions/journeymap/FactionOverlayManager.java:275-306 | polygon i is stored under its id, with the built-in label only when labels are not separate; nothing overwrites it |
| ClientOverlays.LabelStored | src/client/java/io/arona74/journeyfactions/journeymap/FactionOverlayManager.java:331-349 | with separate labels, the label square around anchor i and its text are stored under the label id |
| ClientOverlays.FactionEntriesMentionFaction | src/client/java/io/arona74/journeyfactions/journeymap/FactionOverlayManager.java:619-626 | every key a faction writes contains its id, so its removal catches all of them |
| ClientOverlays.RemovalMatchIsContains | src/client/java/io/arona74/journeyfactions/journeymap/FactionOverlayManager.java:621-623 | the three-way match is the same as `contains` |
| ClientOverlays.Pruned | src/client/java/io/arona74/journeyfactions/journeymap/FactionOverlayManager.java:613-664 | exactly the keys not containing the id remain, with their values |
| ClientOverlays.PruningReachesOtherFactions | src/client/java/io/arona74/journeyfactions/journeymap/FactionOverlayManager.java:623 | removing "red" also drops "redstone_label" |
| ClientOverlays.PruneAfterWrite | src/client/java/io/arona74/journeyfactions/journeymap/FactionOverlayManager.java:673-693 | pruning after a faction's write leaves what pruning before it left |
| ClientOverlays.RefreshLeavesNoStaleOverlay | src/client/java/io/arona74/journeyfactions/journeymap/FactionOverlayManager.java:673-693 | after a refresh the faction's keys are exactly the freshly written ones |
| ClientOverlays.OverlayTable.constructor | src/client/java/io/arona74/journeyfactions/journeymap/FactionOverlayManager.java:129-135 | the overlay table starts empty |
| ClientOverlays.OverlayTable.ClearAllOverlays | src/client/java/io/arona74/journeyfactions/journeymap/FactionOverlayManager.java:563-572 | the table is empty afterwards |
| ClientOverlays.OverlayTable.CompletelyRemoveFactionOverlays | src/client/java/io/arona74/journeyfactions/journeymap/FactionOverlayManager.java:613-664 | the table becomes `Pruned`: keys containing the id are gone, the rest untouched |
| ClientOverlays.OverlayTable.ForceRemoveContaining | src/client/java/io/arona74/journeyfactions/journeymap/FactionOverlayManager.java:649-661 | every key containing the id is dropped, the others kept |
| ClientOverlays.OverlayTable.CreateOrUpdateFactionOverlay | src/client/java/io/arona74/journeyfactions/journeymap/FactionOverlayManager.java:236-359 | no visible chunk → unchanged; otherwise largest-first regions partition the visible chunks, the polygons are theirs, the anchors fit, and exactly the faction's entries are added |
| ClientOverlays.OverlayTable.WriteFactionEntries | src/client/java/io/arona74/journeyfactions/journeymap/FactionOverlayManager.java:269-351 | the loop adds exactly the faction's entries, with every label anchor fitting its region |
| ClientOverlays.OverlayTable.EntryAnchor | src/client/java/io/arona74/journeyfactions/journeymap/FactionOverlayManager.java:309-329 | with separate labels the anchor fits polygon i's anchor region |
| ClientOverlays.OverlayTable.PutPolygonEntries | src/client/java/io/arona74/journeyfactions/journeymap/FactionOverlayManager.java:286-349 | the two puts add exactly polygon i's entries |
| ClientOverlays.OverlayTable.CompletelyRefreshFaction | src/client/java/io/arona74/journeyfactions/journeymap/FactionOverlayManager.java:673-699 | the table becomes the pruned table plus, when something is visible, the faction's fresh entries for a largest-first partition, with every label anchor fitting its region |
| JavaStrings.NatToString | src/client/java/io/arona74/journeyfactions/journeymap/FactionOverlayManager.java:270 | non-empty decimal digits without a leading zero |
| JavaStrings.DigitsRoundTrip | src/client/java/io/arona74/journeyfactions/journeymap/FactionOverlayManager.java:270 | reading the rendering back gives the number |
| JavaStrings.NatToStringInjective | src/client/java/io/arona74/journeyfactions/journeymap/FactionOverlayManager.java:270 | distinct numbers render differently |
| JavaStrings.ContainsOccurs | src/client/java/io/arona74/journeyfactions/journeymap/FactionOverlayManager.java:623 | `contains` holds iff the string occurs at some position |
| JavaStrings.StartsWithContains | src/client/java/io/arona74/journeyfactions/journeymap/FactionOverlayManager.java:621-623 | a string contains each of its prefixes |
| Ownership.ClientFaction.constructor | src/main/java/io/arona74/journeyfactions/data/ClientFaction.java:29-37 | displayName = name, no claims, type PLAYER |
| Ownership.ClientFaction.SetName | src/main/java/io/arona74/journeyfactions/data/ClientFaction.java:49-52 | the name changes, nothing else |
| Ownership.ClientFaction.SetDisplayName | src/main/java/io/arona74/journeyfactions/data/ClientFaction.java:54-57 | the display name changes, nothing else |
| Ownership.ClientFaction.SetType | src/main/java/io/arona74/journeyfactions/data/ClientFaction.java:64-67 | the type changes, nothing else |
| Ownership.ClientFaction.AddClaimedChunk | src/main/java/io/arona74/journeyfactions/data/ClientFaction.java:70-73 | hasChunk(c) afterwards; every other chunk as before |
| Ownership.ClientFaction.RemoveClaimedChunk | src/main/java/io/arona74/journeyfactions/data/ClientFaction.java:75-78 | not hasChunk(c) afterwards; every other chunk as before |
| Ownership.ClientFaction.SetClaimedChunks | src/main/java/io/arona74/journeyfactions/data/ClientFaction.java:80-84 | the claims equal the given set |
| Ownership.ClientFaction.HasChunk | src/main/java/io/arona74/journeyfactions/data/ClientFaction.java:86-88 | membership in the claimed set; a faction that has some chunk has a non-empty claim set |
| Ownership.ClientFaction.ClaimedChunkCount | src/main/java/io/arona74/journeyfactions/data/ClientFaction.java:90-92 | zero exactly when nothing is claimed |
| Ownership.ClientFaction.IsEmpty | src/main/java/io/arona74/journeyfactions/data/ClientFaction.java:105-107 | holds iff the claimed-chunk count is 0 |
| Ownership.ClientFaction.Equals | src/main/java/io/arona74/journeyfactions/data/ClientFaction.java:109-115 | equal exactly to a non-null faction with the same id, and then the two hash codes agree |
| Ownership.ClientFaction.HashCode | src/main/java/io/arona74/journeyfactions/data/ClientFaction.java:117-120 | the id's `String.hashCode`: a 32-bit signed value, 0 for the empty id |
| Ownership.StringHash | src/main/java/io/arona74/journeyfactions/data/ClientFaction.java:117-120 | Java's `String.hashCode`: a 32-bit fold over the UTF-16 code units, 0 for the empty id |
| Ownership.CodeUnits | src/main/java/io/arona74/journeyfactions/data/ClientFaction.java:117-120 | a character's UTF-16 units: itself below U+10000, otherwise a surrogate pair that recombines to it |
| Ownership.Utf16 | src/main/java/io/arona74/journeyfactions/data/ClientFaction.java:117-120 | between one and two 16-bit units per character |
| Ownership.SupplementaryHashedAsPair | src/main/java/io/arona74/journeyfactions/data/ClientFaction.java:117-120 | a character above U+FFFF is hashed as its two surrogate units |
| Ownership.EqualsAgreesWithHash | src/main/java/io/arona74/journeyfactions/data/ClientFaction.java:109-120 | equal factions (same id) have equal hashes |
| Ownership.EqualsIsEquivalence | src/main/java/io/arona74/journeyfactions/data/ClientFaction.java:109-115 | equality is reflexive, symmetric and transitive |
| Ownership.InitializeDefaultFactions | src/main/java/io/arona74/journeyfactions/data/ClientFactionManager.java:27-45 | exactly wilderness, safezone and warzone with their types, names and display names, no claims, keyed by id |
| Ownership.DefaultsCountNothing | src/main/java/io/arona74/journeyfactions/data/ClientFactionManager.java:161-171 | the defaults count no player faction and no claimed chunk |
| Ownership.Remapped | src/main/java/io/arona74/journeyfactions/data/ClientFactionManager.java:134-143 | exactly the claimed chunks name the id; other entries stay unless they named the id |
| Ownership.WithoutOwner | src/main/java/io/arona74/journeyfactions/data/ClientFactionManager.java:136-137 | exactly the entries not naming the id remain, unchanged |
| Ownership.UpdateChunkMapping | src/main/java/io/arona74/journeyfactions/data/ClientFactionManager.java:134-143 | the loop computes `Remapped` |
| Ownership.UnmapChunks | src/main/java/io/arona74/journeyfactions/data/ClientFactionManager.java:80 | none of the chunks stays mapped; every other entry unchanged |
| Ownership.OwnerOf | src/main/java/io/arona74/journeyfactions/data/ClientFactionManager.java:109 | the mapped id exactly when the chunk is mapped |
| Ownership.MovedClaims | src/main/java/io/arona74/journeyfactions/data/ClientFactionManager.java:107-128 | the new owner gains the chunk, the previous owner loses it, no other chunk moves |
| Ownership.PlayerIds | src/main/java/io/arona74/journeyfactions/data/ClientFactionManager.java:161-165 | exactly the ids of PLAYER factions |
| Ownership.ClaimSumRemove | src/main/java/io/arona74/journeyfactions/data/ClientFactionManager.java:167-171 | the sum does not depend on the order of the factions |
| Ownership.ClaimSumCoversUnion | src/main/java/io/arona74/journeyfactions/data/ClientFactionManager.java:167-171 | the total is at least the number of distinct claimed chunks |
| Ownership.CountPlayerFactions | src/main/java/io/arona74/journeyfactions/data/ClientFactionManager.java:161-165 | the loop that filters on the Player type and counts, one faction at a time, ends with exactly the number of player ids |
| Ownership.PlayersAmongRemove | src/main/java/io/arona74/journeyfactions/data/ClientFactionManager.java:161-165 | one faction taken out of the count lowers it by one exactly when it is a player faction |
| Ownership.SumClaimedChunks | src/main/java/io/arona74/journeyfactions/data/ClientFactionManager.java:167-171 | the loop sums the claim counts of all factions |
| MainData.ClientFactionManager.constructor | src/main/java/io/arona74/journeyfactions/data/ClientFactionManager.java:22-25 | exactly the three defaults and an empty chunk table |
| MainData.ClientFactionManager.AddOrUpdateFaction | src/main/java/io/arona74/journeyfactions/data/ClientFactionManager.java:48-74 | a known id keeps its object and takes the new fields; an unknown id stores the object; the chunks mapped to the id become exactly its claims |
| MainData.ClientFactionManager.RemoveFaction | src/main/java/io/arona74/journeyfactions/data/ClientFactionManager.java:76-85 | the id is gone and none of its claimed chunks stays mapped; an unknown id changes nothing |
| MainData.ClientFactionManager.GetFaction | src/main/java/io/arona74/journeyfactions/data/ClientFactionManager.java:87-89 | the stored faction, null exactly for an unknown id |
| MainData.ClientFactionManager.GetFactionAt | src/main/java/io/arona74/journeyfactions/data/ClientFactionManager.java:102-105 | the faction stored under the id the chunk table names, non-null exactly when that id is stored; an unmapped chunk gives the wilderness faction, non-null exactly when it is stored |
| MainData.ClientFactionManager.SetChunkOwner | src/main/java/io/arona74/journeyfactions/data/ClientFactionManager.java:107-132 | the chunk leaves the previous owner; null or wilderness unmaps it; any other id maps it, and a known faction gains it; no other claim and no name, display name or type changes |
| MainData.ClientFactionManager.Clear | src/main/java/io/arona74/journeyfactions/data/ClientFactionManager.java:146-153 | back to the three fresh defaults and an empty chunk table |
| MainData.ClientFactionManager.GetFactionCount | src/main/java/io/arona74/journeyfactions/data/ClientFactionManager.java:161-165 | counts only PLAYER factions |
| MainData.ClientFactionManager.GetTotalClaimedChunks | src/main/java/io/arona74/journeyfactions/data/ClientFactionManager.java:167-171 | the sum of claim counts, at least the number of distinct claimed chunks |
| ClientData.ClientFactionManager.constructor | src/client/java/io/arona74/journeyfactions/data/ClientFactionManager.java:24-27 | exactly the three defaults; nothing mapped or discovered |
| ClientData.ClientFactionManager.AddOrUpdateFaction | src/client/java/io/arona74/journeyfactions/data/ClientFactionManager.java:50-76 | as on the main side; discovery untouched |
| ClientData.ClientFactionManager.RemoveFaction | src/client/java/io/arona74/journeyfactions/data/ClientFactionManager.java:78-87 | the id is gone and none of its claimed chunks stays mapped; an unknown id changes nothing |
| ClientData.ClientFactionManager.GetFaction | src/client/java/io/arona74/journeyfactions/data/ClientFactionManager.java:89-91 | the stored faction, null exactly for an unknown id |
| ClientData.ClientFactionManager.GetFactionAt | src/client/java/io/arona74/journeyfactions/data/ClientFactionManager.java:104-107 | the faction stored under the id the chunk table names, non-null exactly when that id is stored; an unmapped chunk gives the wilderness faction, non-null exactly when it is stored |
| ClientData.ClientFactionManager.SetChunkOwner | src/client/java/io/arona74/journeyfactions/data/ClientFactionManager.java:109-134 | as on the main side (names, display names and types unchanged); discovery untouched |
| ClientData.ClientFactionManager.Clear | src/client/java/io/arona74/journeyfactions/data/ClientFactionManager.java:148-156 | three fresh defaults, nothing mapped, nothing discovered |
| ClientData.ClientFactionManager.GetFactionCount | src/client/java/io/arona74/journeyfactions/data/ClientFactionManager.java:165-169 | counts only PLAYER factions |
| ClientData.ClientFactionManager.GetTotalClaimedChunks | src/client/java/io/arona74/journeyfactions/data/ClientFactionManager.java:171-175 | the sum of claim counts, at least the number of distinct claimed chunks |
| ClientData.ClientFactionManager.IsChunkDiscovered | src/client/java/io/arona74/journeyfactions/data/ClientFactionManager.java:205-207 | membership in the discovered set; nothing is discovered while that set is empty |
| ClientData.ClientFactionManager.MarkChunkDiscovered | src/client/java/io/arona74/journeyfactions/data/ClientFactionManager.java:209-218 | null is ignored; otherwise the chunk is discovered, and listeners are notified exactly on the first insertion |
| ClientData.ClientFactionManager.ResetDiscoveredChunks | src/client/java/io/arona74/journeyfactions/data/ClientFactionManager.java:220-225 | nothing is discovered afterwards; the tables are untouched |
| ClientData.ClientFactionManager.GetDiscoveredClaims | src/client/java/io/arona74/journeyfactions/data/ClientFactionManager.java:227-239 | claimed ∩ discovered; empty for null |
| Discovery.Max | src/client/java/io/arona74/journeyfactions/data/ClientDiscoveryTracker.java:34 | `Math.max`: one of the two, and at least both |
| Discovery.CentreAlwaysDiscovered | src/client/java/io/arona74/journeyfactions/data/ClientDiscoveryTracker.java:57-73 | the centre is always marked; with radius ≤ 0 it is the only chunk marked |
| Discovery.EffectiveViewDistance | src/client/java/io/arona74/journeyfactions/data/ClientDiscoveryTracker.java:76-84 | 0 without options, otherwise the configured distance |
| Discovery.ClientDiscoveryTracker.constructor | src/client/java/io/arona74/journeyfactions/data/ClientDiscoveryTracker.java:15-17 | not initialised, no last chunk, radius -1 |
| Discovery.ClientDiscoveryTracker.Initialize | src/client/java/io/arona74/journeyfactions/data/ClientDiscoveryTracker.java:22-26 | the handlers are registered once; a second call does nothing |
| Discovery.ClientDiscoveryTracker.OnEndClientTick | src/client/java/io/arona74/journeyfactions/data/ClientDiscoveryTracker.java:29-41 | no player → nothing; otherwise a change of chunk or clamped radius records both and marks the square, and no change marks nothing |
| Discovery.ClientDiscoveryTracker.OnConnectionChange | src/client/java/io/arona74/journeyfactions/data/ClientDiscoveryTracker.java:44-54 | last chunk null, radius -1, nothing discovered, so the next tick always marks |
| Discovery.ClientDiscoveryTracker.MarkLoadedAreaDiscovered | src/client/java/io/arona74/journeyfactions/data/ClientDiscoveryTracker.java:57-74 | adds exactly the square of half-width max(radius, 0) around the centre |
| Display.StatusText | src/client/java/io/arona74/journeyfactions/journeymap/FactionDisplayManager.java:62-64 | "Hide Factions" iff enabled, "Show Factions" iff not |
| Display.Forward | src/client/java/io/arona74/journeyfactions/journeymap/FactionDisplayManager.java:53-57 | the state is sent once exactly when a manager is registered |
| Display.FactionDisplayManager.constructor | src/client/java/io/arona74/journeyfactions/journeymap/FactionDisplayManager.java:10-11 | enabled, no manager registered |
| Display.FactionDisplayManager.Initialize | src/client/java/io/arona74/journeyfactions/journeymap/FactionDisplayManager.java:16-19 | registers the manager; the state is unchanged |
| Display.FactionDisplayManager.ToggleFactionDisplay | src/client/java/io/arona74/journeyfactions/journeymap/FactionDisplayManager.java:31-36 | the state flips and the new value is forwarded |
| Display.FactionDisplayManager.SetFactionDisplayEnabled | src/client/java/io/arona74/journeyfactions/journeymap/FactionDisplayManager.java:41-48 | the state becomes the value; only a change is forwarded |
| Display.FactionDisplayManager.IsFactionDisplayEnabled | src/client/java/io/arona74/journeyfactions/journeymap/FactionDisplayManager.java:24-26 | enabled exactly when the toggle button reads "Hide Factions" |
| Display.FactionDisplayManager.UpdateAllOverlayVisibility | src/client/java/io/arona74/journeyfactions/journeymap/FactionDisplayManager.java:53-57 | forwards the state exactly when a manager is registered |
| Display.FactionDisplayManager.GetDisplayStatusText | src/client/java/io/arona74/journeyfactions/journeymap/FactionDisplayManager.java:62-64 | "Hide Factions" iff the display is enabled |
| PolygonConfig.GetPolygonMethod | src/client/java/io/arona74/journeyfactions/journeymap/PolygonConfig.java:34-52 | < 2 SIMPLE, 2..20 RECTANGLE_DETECTION, 21..50 ADVANCED, > 50 BOUNDING_RECTANGLE, each an iff |
| PolygonConfig.DisabledAlwaysSimple | src/client/java/io/arona74/journeyfactions/journeymap/PolygonConfig.java:35-37 | with advanced polygons off every count gives SIMPLE |
| PolygonConfig.NoDetectionMeansAdvanced | src/client/java/io/arona74/journeyfactions/journeymap/PolygonConfig.java:47-51 | without rectangle detection, 2..50 gives ADVANCED and nothing gives RECTANGLE_DETECTION |
| PolygonConfig.MethodMonotone | src/client/java/io/arona74/journeyfactions/journeymap/PolygonConfig.java:34-52 | the method only moves along the bands as the count grows |
| MainOverlays.ChunkBoundary | src/main/java/io/arona74/journeyfactions/journeymap/FactionOverlayManager.java:216-229 | 5 points at y = 64, closed, starting at the north-west corner, visiting all four corners along 16-block sides |
| MainOverlays.Blocks | src/main/java/io/arona74/journeyfactions/journeymap/FactionOverlayManager.java:207-211 | five points per chunk |
| MainOverlays.BlockAt | src/main/java/io/arona74/journeyfactions/journeymap/FactionOverlayManager.java:209-211 | block k of the points is the outline of the k-th chunk visited |
| MainOverlays.BuildPolygonFromChunks | src/main/java/io/arona74/journeyfactions/journeymap/FactionOverlayManager.java:202-214 | the outline of every chunk exactly once, in iteration order; 5·\|chunks\| points |
| MainOverlays.FactionOverlayManager.constructor | src/main/java/io/arona74/journeyfactions/journeymap/FactionOverlayManager.java:26-31 | the overlay table starts empty |
| MainOverlays.FactionOverlayManager.CreateOrUpdateFactionOverlay | src/main/java/io/arona74/journeyfactions/journeymap/FactionOverlayManager.java:68-115 | non-player factions are skipped; a player faction's old overlay is dropped and, if it claims chunks, replaced by one holding every chunk's outline and its display name |
| MainOverlays.FactionOverlayManager.RemoveOverlay | src/main/java/io/arona74/journeyfactions/journeymap/FactionOverlayManager.java:117-126 | the id's entry is gone, nothing else changes |
| MainOverlays.FactionOverlayManager.ClearAllOverlays | src/main/java/io/arona74/journeyfactions/journeymap/FactionOverlayManager.java:150-159 | the table is empty afterwards |

## Left out

- JourneyMap display calls: `jmAPI.show`, `jmAPI.remove` and the overlay
  styling (shape and text properties, colours, groups, UI contexts). The
  overlay tables keep only ids, points and label texts.
- `PolygonHelper.createChunksPolygon` is host code. It is a parameter: the
  number of polygons it returns for a region. Its polygons are opaque values
  (`Traced(region, k)`). A helper that throws or returns null is the
  zero-count case, which is what the source does with it.
- The client `createOrUpdateFactionOverlay` computes the sorted regions twice,
  at lines 254 and 370, from the same set. That gives the same list both
  times, so the model computes it once.
- Exception handlers that only fire on host failures are not modelled:
  `traceBoundary`'s catch, the outer catches of
  `buildPolygonsUsingJourneyMapHelper` and `createOrUpdateFactionOverlay`, and
  the removal catches. No modelled operation can throw. The one catch that
  also fires without a host failure is the main overlay manager's, on the
  no-world path named below.
- Listener registration and notification (`notifyFactionUpdated`,
  `notifyChunkChanged`, `notifyDataCleared`, `notifyChunkDiscovered`,
  `addListener`, `cleanup`) are left out. `MarkChunkDiscovered` returns whether
  it would notify.
- The client `onFactionUpdated` and `onChunkDiscovered` handlers only call
  `completelyRemoveFactionOverlays` or `completelyRefreshFaction`; those two
  are modelled.
- The main `onFactionUpdated`, `onFactionRemoved`, `onChunkChanged` and
  `onDataCleared` handlers only call the modelled overlay methods. Their
  `mc.world != null` check reads game state, which is not modelled.
- MainOverlays.FactionOverlayManager.CreateOrUpdateFactionOverlay: the path
  where `onChunkChanged` calls it while no world is loaded is not modelled.
  There `mc.world.getRegistryKey()` throws after the old overlay is removed,
  the catch swallows the error, and nothing is put back. The model always
  puts the new overlay back, because the loaded world is game state.
- `loadAllFactionOverlays`, `updateDisplay`, `onMappingStarted` and
  `onMappingStopped` (both overlay managers) are not modelled. Each is one loop
  over `getAllFactions` calling the modelled `createOrUpdateFactionOverlay`,
  or a call to `clearAllOverlays`.
- `getAllFactions`, `getPlayerFactions`, `getOverlayCount` and
  `ClientFaction.toString` are left out. They copy or print the tables.
  `PlayerIds` is the same filter as `getPlayerFactions`.
- The client overlay manager's `updateAllOverlayVisibility` only shows or hides
  every overlay on the map, and is left out. `Display.FactionDisplayManager`
  records the values forwarded to it.
- Colour (`setColor`, `getColor`, `generateColorFromName`,
  `getEffectiveColor`) and the `lastUpdated` time stamps are left out. Every
  setter also updates the time stamp.
- The client copy of `ClientFaction` is not part of this model. The main copy
  serves both managers.
- `Thread.sleep(100)` in `completelyRefreshFaction` is left out.
- The game client in the discovery tracker is left out. The caller passes the
  player's chunk (or none) and the configured view distance (or none). The
  registered handlers are counted by a ghost field.
- `getPolygonMethod` is modelled as written, but nothing else in the
  repository calls it.
- `Ownership.SumClaimedChunks`: the sum is an unbounded integer. Java's `int`
  sum would wrap past 2³¹ − 1 claimed chunks.
- `MainData.ClientFactionManager.GetTotalClaimedChunks`: the same unbounded
  sum, without Java's 32-bit wrap-around.
- `ClientData.ClientFactionManager.GetTotalClaimedChunks`: the same unbounded
  sum, without Java's 32-bit wrap-around.
- `LabelAnchors.ComputeHullCentroid`: requires chunk coordinates in the `int`
  range, as a `ChunkPos`'s are. The block coordinates `x * 16 + 15` are
  computed without 32-bit overflow. Minecraft chunk coordinates stay far
  inside the range where this matters.
- `ClientOverlays.OverlayTable.CreateOrUpdateFactionOverlay`: the same
  `int`-range requirement on the claimed chunks, for the hull-centroid anchor.
- `ClientOverlays.OverlayTable.CompletelyRefreshFaction`: the same `int`-range
  requirement on the claimed chunks, for the hull-centroid anchor.
- 32-bit wrap-around of the other coordinate arithmetic is not modelled: the
  `* 4` and `* 16` in the grid, the rectangles and the outlines.
- `Regions.FloodFill`: the recursive `floodFill` (AdvancedPolygonBuilder.java
  lines 54-73, and the client FactionOverlayManager.java lines 426-465) is
  modelled with unbounded recursion depth. In Java a large enough region
  overflows the call stack. The resulting `StackOverflowError` is an `Error`,
  which the surrounding `catch (Exception e)` does not catch, so it escapes the
  overlay update. The model always finishes the fill.
