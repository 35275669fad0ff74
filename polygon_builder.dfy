/**
 * `AdvancedPolygonBuilder`: the outline of each connected region of a chunk set,
 * traced on a 4x4 supersampled grid with Moore-neighbourhood contour following,
 * mapped to world blocks and thinned by a local simplifier, with a bounding
 * rectangle as fallback.
 */
module AdvancedPolygonBuilder {
  import opened Grid
  import opened Regions

  /** A sub-cell of the supersampled grid (the builder's private `Point`). */
  datatype Point = Point(x: int, z: int)

  /** Height at which traced and fallback outlines are placed. */
  const OutlineY: int := 64

  /** The trace stops once it holds more than this many points. */
  const TraceCap: int := 10000

  // ---------------------------------------------------------------------------
  // Supersampling: `createGrid`

  /** The chunk a sub-cell belongs to (floor division by 4 on both axes). */
  function ChunkOf(p: Point): Chunk {
    Chunk(p.x / 4, p.z / 4)
  }

  /** Sub-cell `(dx, dz)` of chunk `c`. */
  function Cell(c: Chunk, dx: int, dz: int): Point {
    Point(4 * c.x + dx, 4 * c.z + dz)
  }

  /** The sub-cells `(4x + dx, 4z + dz)`, `0 <= dx, dz < 4`, of every chunk of `region`. */
  ghost function SubCells(region: set<Chunk>): set<Point> {
    set c, dx, dz | c in region && 0 <= dx < 4 && 0 <= dz < 4 :: Cell(c, dx, dz)
  }

  lemma SubCellsMembership(region: set<Chunk>, p: Point)
    ensures p in SubCells(region) <==> ChunkOf(p) in region
  {
    var c := ChunkOf(p);
    if c in region {
      assert p == Cell(c, p.x - 4 * c.x, p.z - 4 * c.z);
    }
    if p in SubCells(region) {
      var d, dx, dz :| d in region && 0 <= dx < 4 && 0 <= dz < 4 && p == Cell(d, dx, dz);
      assert ChunkOf(p) == d;
    }
  }

  /** The four sub-cells of column `dx` of chunk `c`. */
  ghost function Column(c: Chunk, dx: int): set<Point> {
    {Cell(c, dx, 0), Cell(c, dx, 1), Cell(c, dx, 2), Cell(c, dx, 3)}
  }

  lemma ColumnFacts(c: Chunk, dx: int)
    ensures |Column(c, dx)| == 4
    ensures forall p :: p in Column(c, dx) ==> p.x == 4 * c.x + dx
  {
  }

  /** Each chunk contributes sixteen distinct sub-cells. */
  lemma SingleChunkSubCells(c: Chunk)
    ensures |SubCells({c})| == 16
  {
    ColumnFacts(c, 0);
    ColumnFacts(c, 1);
    ColumnFacts(c, 2);
    ColumnFacts(c, 3);
    var left := Column(c, 0) + Column(c, 1);
    assert Column(c, 0) !! Column(c, 1);
    var middle := left + Column(c, 2);
    assert left !! Column(c, 2);
    assert middle !! Column(c, 3);
    SingleChunkColumns(c);
  }

  lemma SingleChunkColumns(c: Chunk)
    ensures SubCells({c}) == Column(c, 0) + Column(c, 1) + Column(c, 2) + Column(c, 3)
  {
    forall p ensures p in SubCells({c}) <==> p in Column(c, 0) + Column(c, 1) + Column(c, 2) + Column(c, 3) {
      SubCellsMembership({c}, p);
      InChunk(p, c);
      ColumnMembership(c, 0, p);
      ColumnMembership(c, 1, p);
      ColumnMembership(c, 2, p);
      ColumnMembership(c, 3, p);
    }
  }

  /** A sub-cell lies in chunk `c` exactly when its offsets from the chunk's corner are in `0..3`. */
  lemma InChunk(p: Point, c: Chunk)
    ensures ChunkOf(p) == c <==> 0 <= p.x - 4 * c.x < 4 && 0 <= p.z - 4 * c.z < 4
  {
  }

  lemma ColumnMembership(c: Chunk, dx: int, p: Point)
    ensures p in Column(c, dx) <==> p.x == 4 * c.x + dx && 0 <= p.z - 4 * c.z < 4
  {
  }

  lemma {:induction false} SubCellsCount(region: set<Chunk>)
    ensures |SubCells(region)| == 16 * |region|
  {
    if region == {} {
      assert SubCells(region) == {};
    } else {
      var c :| c in region;
      var rest := region - {c};
      SubCellsCount(rest);
      SingleChunkSubCells(c);
      forall p ensures p in SubCells(region) <==> p in SubCells(rest) + SubCells({c}) {
        SubCellsMembership(region, p);
        SubCellsMembership(rest, p);
        SubCellsMembership({c}, p);
      }
      forall p | p in SubCells(rest) ensures p !in SubCells({c}) {
        SubCellsMembership(rest, p);
        SubCellsMembership({c}, p);
      }
      assert SubCells(region) == SubCells(rest) + SubCells({c});
      assert SubCells(rest) !! SubCells({c});
    }
  }

  /**
   * `createGrid`: every chunk of the region (in the set's iteration order)
   * becomes its 4x4 block of sub-cells. The Java map's values are always `true`,
   * so the grid is the set of its keys.
   */
  method CreateGrid(region: set<Chunk>) returns (grid: set<Point>)
    ensures forall p :: p in grid <==> ChunkOf(p) in region
    ensures grid == SubCells(region)
    ensures |grid| == 16 * |region|
  {
    grid := {};
    var rest := region;
    while rest != {}
      invariant rest <= region
      invariant forall p :: p in grid <==> ChunkOf(p) in region - rest
    {
      var chunk :| chunk in rest;
      for dx := 0 to 4
        invariant forall p :: p in grid <==>
          ChunkOf(p) in region - rest || (ChunkOf(p) == chunk && p.x - 4 * chunk.x < dx)
      {
        for dz := 0 to 4
          invariant forall p :: p in grid <==>
            ChunkOf(p) in region - rest ||
            (ChunkOf(p) == chunk && (p.x - 4 * chunk.x < dx || (p.x - 4 * chunk.x == dx && p.z - 4 * chunk.z < dz)))
        {
          grid := grid + {Point(chunk.x * 4 + dx, chunk.z * 4 + dz)};
        }
      }
      rest := rest - {chunk};
    }
    forall p ensures p in grid <==> p in SubCells(region) {
      SubCellsMembership(region, p);
    }
    SubCellsCount(region);
  }

  // ---------------------------------------------------------------------------
  // Start cell: `findStartPoint`

  /** The comparator of `findStartPoint`: by x, then by z. */
  predicate LexLeq(a: Point, b: Point) {
    a.x < b.x || (a.x == b.x && a.z <= b.z)
  }

  /** `p` is no greater than any cell of `grid`. */
  predicate IsLexMin(p: Point, grid: set<Point>) {
    forall q :: q in grid ==> LexLeq(p, q)
  }

  lemma {:induction false} LexMinExists(grid: set<Point>)
    requires grid != {}
    ensures exists p :: p in grid && IsLexMin(p, grid)
  {
    var x :| x in grid;
    if grid != {x} {
      LexMinExists(grid - {x});
      var m :| m in grid - {x} && IsLexMin(m, grid - {x});
      if LexLeq(m, x) {
        forall q | q in grid ensures LexLeq(m, q) {
          if q != x {
            assert q in grid - {x};
          }
        }
      } else {
        forall q | q in grid ensures LexLeq(x, q) {
          if q != x {
            assert q in grid - {x} && LexLeq(m, q);
          }
        }
      }
    } else {
      assert IsLexMin(x, grid);
    }
  }

  /**
   * `findStartPoint`: the smallest key by x then z, or `null` (here `None`)
   * for an empty grid. The minimum is unique, so the stream's visiting order
   * does not matter.
   */
  function FindStartPoint(grid: set<Point>): (r: Option<Point>)
    ensures r.None? <==> grid == {}
    ensures r.Some? ==> r.value in grid && IsLexMin(r.value, grid)
  {
    if grid == {} then None
    else
      LexMinExists(grid);
      var p :| p in grid && IsLexMin(p, grid);
      Some(p)
  }

  /** The minimum is unique, so the start does not depend on the grid's iteration order. */
  lemma StartPointUnique(grid: set<Point>, s: Point)
    requires s in grid && forall p :: p in grid ==> LexLeq(s, p)
    ensures FindStartPoint(grid) == Some(s)
  {
  }

  /**
   * The start cell of a non-empty region's grid is the north-west sub-cell of
   * the northernmost chunk in the region's westernmost column.
   */
  lemma StartPointOfRegion(region: set<Chunk>)
    requires region != {}
    ensures FindStartPoint(SubCells(region)).Some?
    ensures var s := FindStartPoint(SubCells(region)).value;
      var c := ChunkOf(s);
      c in region && s == Point(4 * c.x, 4 * c.z) && c.x == MinX(region) &&
      forall d :: d in region && d.x == c.x ==> c.z <= d.z
  {
    var grid := SubCells(region);
    var w :| w in region;
    SubCellsMembership(region, Point(4 * w.x, 4 * w.z));
    var s := FindStartPoint(grid).value;
    var c := ChunkOf(s);
    SubCellsMembership(region, s);
    SubCellsMembership(region, Point(4 * c.x, 4 * c.z));
    assert s == Point(4 * c.x, 4 * c.z);
    forall d | d in region ensures c.x <= d.x && (d.x == c.x ==> c.z <= d.z) {
      SubCellsMembership(region, Point(4 * d.x, 4 * d.z));
    }
  }

  // ---------------------------------------------------------------------------
  // Moore-neighbourhood tracing: `mooreBoundaryTrace`

  /** Direction offsets, indexed N, NE, E, SE, S, SW, W, NW (north is -z). */
  const DX: seq<int> := [0, 1, 1, 1, 0, -1, -1, -1]
  const DZ: seq<int> := [-1, -1, 0, 1, 1, 1, 0, -1]

  /** 8-adjacency: distinct cells that touch at a side or a corner. */
  predicate Touches(a: Point, b: Point) {
    a != b && -1 <= a.x - b.x <= 1 && -1 <= a.z - b.z <= 1
  }

  /** The neighbour of `p` in direction `d`. */
  function Step(p: Point, d: int): (q: Point)
    requires 0 <= d < 8
    ensures Touches(p, q)
  {
    Point(p.x + DX[d], p.z + DZ[d])
  }

  /** Every 8-neighbour lies in one of the eight directions. */
  lemma StepCovers(p: Point, q: Point)
    requires Touches(p, q)
    ensures exists d :: 0 <= d < 8 && Step(p, d) == q
  {
    var d :=
      if q.x == p.x then (if q.z < p.z then 0 else 4)
      else if q.x > p.x then (if q.z < p.z then 1 else if q.z == p.z then 2 else 3)
      else (if q.z > p.z then 5 else if q.z == p.z then 6 else 7);
    assert Step(p, d) == q;
  }

  /** The `i`-th direction tried when the search starts at `from`. */
  function SearchDir(from: int, i: int): int {
    (from + i) % 8
  }

  /** The search tries every direction: `d` is tried at offset `j`. */
  lemma SearchDirReaches(from: int, d: int) returns (j: int)
    requires 0 <= from < 8 && 0 <= d < 8
    ensures 0 <= j < 8 && SearchDir(from, j) == d
  {
    if d >= from {
      j := d - from;
      assert from + j == d;
    } else {
      j := d - from + 8;
      assert from + j == d + 8;
    }
  }

  /**
   * The inner search loop: the offset `k` of the first direction
   * `(from + k) % 8`, trying `k = i, ..., 7`, whose neighbour is occupied.
   */
  function SearchFrom(grid: set<Point>, current: Point, from: int, i: int): (r: Option<int>)
    requires 0 <= from < 8 && 0 <= i <= 8
    ensures r.Some? ==> i <= r.value < 8 && Step(current, SearchDir(from, r.value)) in grid
    ensures forall j :: i <= j < 8 && (r.None? || j < r.value) ==> Step(current, SearchDir(from, j)) !in grid
    decreases 8 - i
  {
    if i == 8 then None
    else if Step(current, SearchDir(from, i)) in grid then Some(i)
    else SearchFrom(grid, current, from, i + 1)
  }

  /** A search that finds nothing means the cell has no occupied 8-neighbour. */
  lemma SearchFailsOnlyWhenIsolated(grid: set<Point>, current: Point, from: int)
    requires 0 <= from < 8
    ensures SearchFrom(grid, current, from, 0).None? <==> forall q :: Touches(current, q) ==> q !in grid
  {
    if SearchFrom(grid, current, from, 0).None? {
      forall q | Touches(current, q) ensures q !in grid {
        StepCovers(current, q);
        var d :| 0 <= d < 8 && Step(current, d) == q;
        var j := SearchDirReaches(from, d);
      }
    }
  }

  /**
   * `searchDir = (direction + 6) % 8`, then `checkDir = (searchDir + i) % 8`
   * for `i = 0..7`, stopping at the first occupied neighbour.
   */
  method SearchNext(grid: set<Point>, current: Point, direction: int) returns (found: bool, next: Point, checkDir: int)
    requires 0 <= direction < 8
    ensures var r := SearchFrom(grid, current, (direction + 6) % 8, 0);
      (found <==> r.Some?) &&
      (found ==> checkDir == SearchDir((direction + 6) % 8, r.value) && next == Step(current, checkDir) && next in grid)
  {
    var searchDir := (direction + 6) % 8;
    for i := 0 to 8
      invariant SearchFrom(grid, current, searchDir, 0) == SearchFrom(grid, current, searchDir, i)
    {
      checkDir := SearchDir(searchDir, i);
      next := Step(current, checkDir);
      if next in grid {
        return true, next, checkDir;
      }
    }
    return false, current, direction;
  }

  /**
   * The rest of the trace once `acc` is recorded and the walk stands on
   * `current`, having arrived in direction `dir`: record `current`, search for
   * the next cell, stop when none is found, when more than `TraceCap` points are
   * recorded, or when the walk has come back onto `start` with at least two
   * points recorded.
   */
  function TraceFrom(grid: set<Point>, start: Point, current: Point, dir: int, acc: seq<Point>): seq<Point>
    requires 0 <= dir < 8 && |acc| <= TraceCap
    decreases TraceCap - |acc|
  {
    var acc' := acc + [current];
    match SearchFrom(grid, current, (dir + 6) % 8, 0)
    case None => acc'
    case Some(k) =>
      if |acc'| > TraceCap then acc'
      else
        var d := SearchDir((dir + 6) % 8, k);
        var next := Step(current, d);
        if next == start && |acc'| >= 2 then acc'
        else TraceFrom(grid, start, next, d, acc')
  }

  /** The raw outline traced from `start`, initially facing north. */
  function MooreTrace(grid: set<Point>, start: Point): seq<Point> {
    TraceFrom(grid, start, start, 0, [])
  }

  /**
   * `mooreBoundaryTrace`: the do-while loop, computing exactly `MooreTrace`
   * (whose properties are the lemmas below).
   */
  method MooreBoundaryTrace(grid: set<Point>, start: Point) returns (boundary: seq<Point>)
    ensures boundary == MooreTrace(grid, start)
  {
    boundary := [];
    var current := start;
    var direction := 0;
    while true
      invariant 0 <= direction < 8 && |boundary| <= TraceCap
      invariant TraceFrom(grid, start, current, direction, boundary) == MooreTrace(grid, start)
      decreases TraceCap - |boundary|
    {
      boundary := boundary + [current];
      var found, next, checkDir := SearchNext(grid, current, direction);
      if !found {
        break;
      }
      if |boundary| > TraceCap {
        break;
      }
      current, direction := next, checkDir;
      if current == start && |boundary| >= 2 {
        break;
      }
    }
  }

  /** `t` continues `acc` with `current` and stays within the cap. */
  ghost predicate ExtendsWith(t: seq<Point>, acc: seq<Point>, current: Point) {
    |acc| < |t| <= TraceCap + 1 && t[..|acc|] == acc && t[|acc|] == current
  }

  /** Every recorded point is an occupied cell. */
  ghost predicate InGrid(t: seq<Point>, grid: set<Point>) {
    forall i :: 0 <= i < |t| ==> t[i] in grid
  }

  /** Consecutive recorded points are 8-neighbours. */
  ghost predicate IsTrace(t: seq<Point>) {
    forall i :: 0 < i < |t| ==> Touches(t[i - 1], t[i])
  }

  /** `start` is recorded at most once, at the front. */
  ghost predicate StartOnlyFirst(t: seq<Point>, start: Point) {
    forall i :: 0 < i < |t| ==> t[i] != start
  }

  /** Why a trace stopped: the cap, a cell without occupied neighbours, or the walk reaching `start` again. */
  ghost predicate TraceStopped(grid: set<Point>, start: Point, t: seq<Point>)
    requires |t| > 0
  {
    |t| == TraceCap + 1 ||
    (forall q :: Touches(t[|t| - 1], q) ==> q !in grid) ||
    (|t| >= 2 && Touches(t[|t| - 1], start))
  }

  lemma {:induction false} TraceFromExtends(grid: set<Point>, start: Point, current: Point, dir: int, acc: seq<Point>)
    requires 0 <= dir < 8 && |acc| <= TraceCap
    ensures ExtendsWith(TraceFrom(grid, start, current, dir, acc), acc, current)
    decreases TraceCap - |acc|
  {
    var acc' := acc + [current];
    match SearchFrom(grid, current, (dir + 6) % 8, 0)
    case None =>
    case Some(k) =>
      var d := SearchDir((dir + 6) % 8, k);
      var next := Step(current, d);
      if |acc'| <= TraceCap && !(next == start && |acc'| >= 2) {
        TraceFromExtends(grid, start, next, d, acc');
        var t := TraceFrom(grid, start, next, d, acc');
        assert t[..|acc|] == t[..|acc'|][..|acc|];
      }
  }

  lemma {:induction false} TraceFromInGrid(grid: set<Point>, start: Point, current: Point, dir: int, acc: seq<Point>)
    requires 0 <= dir < 8 && |acc| <= TraceCap
    requires current in grid && InGrid(acc, grid)
    ensures InGrid(TraceFrom(grid, start, current, dir, acc), grid)
    decreases TraceCap - |acc|
  {
    var acc' := acc + [current];
    assert InGrid(acc', grid);
    match SearchFrom(grid, current, (dir + 6) % 8, 0)
    case None =>
    case Some(k) =>
      var d := SearchDir((dir + 6) % 8, k);
      var next := Step(current, d);
      if |acc'| <= TraceCap && !(next == start && |acc'| >= 2) {
        TraceFromInGrid(grid, start, next, d, acc');
      }
  }

  lemma {:induction false} TraceFromSteps(grid: set<Point>, start: Point, current: Point, dir: int, acc: seq<Point>)
    requires 0 <= dir < 8 && |acc| <= TraceCap
    requires IsTrace(acc + [current])
    ensures IsTrace(TraceFrom(grid, start, current, dir, acc))
    decreases TraceCap - |acc|
  {
    var acc' := acc + [current];
    match SearchFrom(grid, current, (dir + 6) % 8, 0)
    case None =>
    case Some(k) =>
      var d := SearchDir((dir + 6) % 8, k);
      var next := Step(current, d);
      if |acc'| <= TraceCap && !(next == start && |acc'| >= 2) {
        assert IsTrace(acc' + [next]) by {
          forall i | 0 < i < |acc' + [next]| ensures Touches((acc' + [next])[i - 1], (acc' + [next])[i]) {
            if i < |acc'| {
              assert (acc' + [next])[i - 1] == acc'[i - 1] && (acc' + [next])[i] == acc'[i];
            }
          }
        }
        TraceFromSteps(grid, start, next, d, acc');
      }
  }

  lemma {:induction false} TraceFromAvoidsStart(grid: set<Point>, start: Point, current: Point, dir: int, acc: seq<Point>)
    requires 0 <= dir < 8 && |acc| <= TraceCap
    requires |acc| == 0 ==> current == start
    requires |acc| > 0 ==> current != start
    requires StartOnlyFirst(acc, start)
    ensures StartOnlyFirst(TraceFrom(grid, start, current, dir, acc), start)
    decreases TraceCap - |acc|
  {
    var acc' := acc + [current];
    assert StartOnlyFirst(acc', start);
    match SearchFrom(grid, current, (dir + 6) % 8, 0)
    case None =>
    case Some(k) =>
      var d := SearchDir((dir + 6) % 8, k);
      var next := Step(current, d);
      if |acc'| <= TraceCap && !(next == start && |acc'| >= 2) {
        TraceFromAvoidsStart(grid, start, next, d, acc');
      }
  }

  lemma {:induction false} TraceFromStops(grid: set<Point>, start: Point, current: Point, dir: int, acc: seq<Point>)
    requires 0 <= dir < 8 && |acc| <= TraceCap
    ensures |TraceFrom(grid, start, current, dir, acc)| > 0
    ensures TraceStopped(grid, start, TraceFrom(grid, start, current, dir, acc))
    decreases TraceCap - |acc|
  {
    var acc' := acc + [current];
    match SearchFrom(grid, current, (dir + 6) % 8, 0)
    case None =>
      SearchFailsOnlyWhenIsolated(grid, current, (dir + 6) % 8);
    case Some(k) =>
      var d := SearchDir((dir + 6) % 8, k);
      var next := Step(current, d);
      if |acc'| <= TraceCap && !(next == start && |acc'| >= 2) {
        TraceFromStops(grid, start, next, d, acc');
      }
  }

  /**
   * What `mooreBoundaryTrace` promises: the trace begins at `start`, holds at
   * most 10,001 occupied cells, moves between 8-neighbours, never records
   * `start` a second time (the outline is not closed), and stops only at the
   * cap, at an isolated cell, or next to `start`.
   */
  lemma MooreTraceProperties(grid: set<Point>, start: Point)
    requires start in grid
    ensures 1 <= |MooreTrace(grid, start)| <= TraceCap + 1 && MooreTrace(grid, start)[0] == start
    ensures InGrid(MooreTrace(grid, start), grid)
    ensures IsTrace(MooreTrace(grid, start))
    ensures StartOnlyFirst(MooreTrace(grid, start), start)
    ensures TraceStopped(grid, start, MooreTrace(grid, start))
  {
    TraceFromExtends(grid, start, start, 0, []);
    TraceFromInGrid(grid, start, start, 0, []);
    TraceFromSteps(grid, start, start, 0, []);
    TraceFromAvoidsStart(grid, start, start, 0, []);
    TraceFromStops(grid, start, start, 0, []);
  }

  // ---------------------------------------------------------------------------
  // World coordinates: `convertToWorldCoordinates`

  /** Java's `(g / 4) * 16 + (g % 4) * 4`, which is `4 * g` for every sign of `g`. */
  function WorldCoordinate(g: int): (w: int)
    ensures w == 4 * g
  {
    JavaDiv(g, 4) * 16 + JavaRem(g, 4) * 4
  }

  /** The world block of a sub-cell corner, at `OutlineY`. */
  ghost function Scaled(points: seq<Point>): (r: seq<BlockPos>)
    ensures |r| == |points|
    ensures forall i :: 0 <= i < |r| ==> r[i] == BlockPos(4 * points[i].x, OutlineY, 4 * points[i].z)
  {
    seq(|points|, i requires 0 <= i < |points| => BlockPos(WorldCoordinate(points[i].x), OutlineY, WorldCoordinate(points[i].z)))
  }

  /** `convertToWorldCoordinates`: maps every point to blocks, then simplifies. */
  method ConvertToWorldCoordinates(gridPoints: seq<Point>) returns (worldBoundary: seq<BlockPos>)
    ensures worldBoundary == Simplified(Scaled(gridPoints))
  {
    var worldPoints: seq<BlockPos> := [];
    for i := 0 to |gridPoints|
      invariant worldPoints == Scaled(gridPoints)[..i]
    {
      var gridPoint := gridPoints[i];
      var worldX := WorldCoordinate(gridPoint.x);
      var worldZ := WorldCoordinate(gridPoint.z);
      worldPoints := worldPoints + [BlockPos(worldX, OutlineY, worldZ)];
    }
    assert worldPoints == Scaled(gridPoints);
    worldBoundary := SimplifyPolygon(worldPoints);
  }

  // ---------------------------------------------------------------------------
  // Simplification: `simplifyPolygon`, `distance`, `isCollinear`

  /** `distance(a, b)` squared; `distance(a, b) > 8` exactly when this exceeds 64. */
  function SquaredDistance(a: BlockPos, b: BlockPos): (d: int)
    ensures d >= 0
    ensures d == 0 <==> a.x == b.x && a.z == b.z
  {
    (a.x - b.x) * (a.x - b.x) + (a.z - b.z) * (a.z - b.z)
  }

  /** Twice the signed area of the triangle `a b c` in the x/z plane. */
  function Determinant(a: BlockPos, b: BlockPos, c: BlockPos): int {
    a.x * (b.z - c.z) + b.x * (c.z - a.z) + c.x * (a.z - b.z)
  }

  /** `isCollinear`: the triangle's area `|det| / 2.0` is below 1.0, i.e. `|det| < 2`. */
  predicate IsCollinear(a: BlockPos, b: BlockPos, c: BlockPos)
    ensures a == b || b == c || a == c ==> IsCollinear(a, b, c)
  {
    -2 < Determinant(a, b, c) < 2
  }

  /** Collinearity does not depend on the direction the three points are read in. */
  lemma CollinearReversed(a: BlockPos, b: BlockPos, c: BlockPos)
    ensures IsCollinear(a, b, c) <==> IsCollinear(c, b, a)
  {
    assert Determinant(c, b, a) == -Determinant(a, b, c);
  }

  /** Three points on one axis-parallel line are collinear. */
  lemma AxisLineCollinear(a: BlockPos, b: BlockPos, c: BlockPos)
    requires (a.x == b.x == c.x) || (a.z == b.z == c.z)
    ensures IsCollinear(a, b, c)
  {
    if a.x == b.x == c.x {
      assert Determinant(a, b, c) == a.x * ((b.z - c.z) + (c.z - a.z) + (a.z - b.z));
    } else {
      assert Determinant(a, b, c) == a.z * (c.x - b.x) + b.z * (a.x - c.x) + c.z * (b.x - a.x);
      assert Determinant(a, b, c) == a.z * ((c.x - b.x) + (a.x - c.x) + (b.x - a.x));
    }
  }

  /** The test of `simplifyPolygon`: an interior point stays when it is far from a neighbour or bends the line. */
  predicate Kept(prev: BlockPos, curr: BlockPos, next: BlockPos) {
    SquaredDistance(prev, curr) > 64 || SquaredDistance(curr, next) > 64 || !IsCollinear(prev, curr, next)
  }

  /** Whether interior point `j` is kept, against its original neighbours. */
  predicate KeptAt(points: seq<BlockPos>, j: int)
    requires 0 < j < |points| - 1
  {
    Kept(points[j - 1], points[j], points[j + 1])
  }

  /** The interior indices below `i` whose point is kept, measured against its original neighbours. */
  function KeptIndices(points: seq<BlockPos>, i: int): (idx: seq<int>)
    requires i < |points|
    ensures forall k :: 0 <= k < |idx| ==> 1 <= idx[k] < i
  {
    if i <= 1 then []
    else KeptIndices(points, i - 1) + (if KeptAt(points, i - 1) then [i - 1] else [])
  }

  /** The points at the given indices. */
  function Select(points: seq<BlockPos>, idx: seq<int>): seq<BlockPos>
    requires forall k :: 0 <= k < |idx| ==> 0 <= idx[k] < |points|
  {
    seq(|idx|, k requires 0 <= k < |idx| => points[idx[k]])
  }

  /** The indices `simplifyPolygon` keeps: the first, the kept interior ones, and the last. */
  function SimplifiedIndices(points: seq<BlockPos>): (idx: seq<int>)
    requires |points| > 3
    ensures forall k :: 0 <= k < |idx| ==> 0 <= idx[k] < |points|
  {
    [0] + KeptIndices(points, |points| - 1) + [|points| - 1]
  }

  /** The kept interior points below index `i`, in order. */
  function KeptPoints(points: seq<BlockPos>, i: int): seq<BlockPos>
    requires i < |points|
  {
    if i <= 1 then []
    else KeptPoints(points, i - 1) + (if KeptAt(points, i - 1) then [points[i - 1]] else [])
  }

  /** The result of `simplifyPolygon`. */
  function Simplified(points: seq<BlockPos>): seq<BlockPos> {
    if |points| <= 3 then points else [points[0]] + KeptPoints(points, |points| - 1) + [points[|points| - 1]]
  }

  lemma {:induction false} KeptPointsSelected(points: seq<BlockPos>, i: int)
    requires i < |points|
    ensures KeptPoints(points, i) == Select(points, KeptIndices(points, i))
  {
    if i > 1 {
      KeptPointsSelected(points, i - 1);
      var idx := KeptIndices(points, i - 1);
      if KeptAt(points, i - 1) {
        assert Select(points, idx + [i - 1]) == Select(points, idx) + [points[i - 1]];
      }
    }
  }

  lemma {:induction false} KeptIndicesExactly(points: seq<BlockPos>, i: int)
    requires i < |points|
    ensures var idx := KeptIndices(points, i);
      (forall k, l :: 0 <= k < l < |idx| ==> idx[k] < idx[l]) &&
      (forall j :: 0 < j < i ==> (j in idx <==> KeptAt(points, j)))
  {
    if i > 1 {
      KeptIndicesExactly(points, i - 1);
    }
  }

  /**
   * What `simplifyPolygon` promises: inputs of at most three points come back
   * unchanged; otherwise the result is the subsequence at strictly increasing
   * indices that starts with the first point, ends with the last, and contains
   * an interior point exactly when `Kept` holds against its original neighbours.
   */
  lemma SimplifiedSelects(points: seq<BlockPos>)
    ensures |points| <= 3 ==> Simplified(points) == points
    ensures |points| > 3 ==>
      Simplified(points) == Select(points, SimplifiedIndices(points)) &&
      SimplifiedIndices(points)[0] == 0 &&
      SimplifiedIndices(points)[|SimplifiedIndices(points)| - 1] == |points| - 1 &&
      (forall k, l :: 0 <= k < l < |SimplifiedIndices(points)| ==> SimplifiedIndices(points)[k] < SimplifiedIndices(points)[l]) &&
      (forall j :: 0 < j < |points| - 1 ==> (j in SimplifiedIndices(points) <==> KeptAt(points, j)))
  {
    if |points| > 3 {
      SimplifiedIsSelection(points);
      SimplifiedIndicesOrdered(points);
    }
  }

  lemma SimplifiedIsSelection(points: seq<BlockPos>)
    requires |points| > 3
    ensures Simplified(points) == Select(points, SimplifiedIndices(points))
  {
    KeptPointsSelected(points, |points| - 1);
    var inner := KeptIndices(points, |points| - 1);
    assert Select(points, SimplifiedIndices(points)) == [points[0]] + Select(points, inner) + [points[|points| - 1]];
  }

  lemma SimplifiedIndicesOrdered(points: seq<BlockPos>)
    requires |points| > 3
    ensures var idx := SimplifiedIndices(points);
      idx[0] == 0 && idx[|idx| - 1] == |points| - 1 &&
      (forall k, l :: 0 <= k < l < |idx| ==> idx[k] < idx[l]) &&
      (forall j :: 0 < j < |points| - 1 ==> (j in idx <==> KeptAt(points, j)))
  {
    KeptIndicesExactly(points, |points| - 1);
    var inner := KeptIndices(points, |points| - 1);
    var idx := SimplifiedIndices(points);
    assert idx == [0] + inner + [|points| - 1];
    forall j | 0 < j < |points| - 1 ensures j in idx <==> j in inner {
    }
  }

  /** A straight run whose points are all close together collapses to its two ends. */
  lemma StraightRunCollapses(points: seq<BlockPos>)
    requires |points| > 3
    requires forall j :: 0 < j < |points| - 1 ==> !KeptAt(points, j)
    ensures Simplified(points) == [points[0], points[|points| - 1]]
  {
    NothingKept(points, |points| - 1);
  }

  lemma {:induction false} NothingKept(points: seq<BlockPos>, i: int)
    requires 0 < i < |points|
    requires forall j :: 0 < j < i ==> !KeptAt(points, j)
    ensures KeptPoints(points, i) == []
  {
    if i > 1 {
      NothingKept(points, i - 1);
    }
  }

  /** `simplifyPolygon`: one pass over the interior points, keeping the ends. */
  method SimplifyPolygon(points: seq<BlockPos>) returns (simplified: seq<BlockPos>)
    ensures simplified == Simplified(points)
  {
    if |points| <= 3 {
      return points;
    }
    simplified := [points[0]];
    for i := 1 to |points| - 1
      invariant simplified == [points[0]] + KeptPoints(points, i)
    {
      var prev := points[i - 1];
      var curr := points[i];
      var next := points[i + 1];
      if SquaredDistance(prev, curr) > 64 || SquaredDistance(curr, next) > 64 || !IsCollinear(prev, curr, next) {
        simplified := simplified + [curr];
      }
    }
    simplified := simplified + [points[|points| - 1]];
  }

  // ---------------------------------------------------------------------------
  // Fallback and assembly: `createFallbackBoundary`, `traceBoundary`, `buildPrecisePolygons`

  /**
   * `createFallbackBoundary`: empty for an empty region, otherwise the closed
   * five-point bounding rectangle at y = 64 whose sides are chunk borders: it
   * encloses every chunk and each side touches one.
   */
  function CreateFallbackBoundary(region: set<Chunk>): (r: seq<BlockPos>)
    ensures region == {} <==> r == []
    ensures region != {} ==>
      |r| == 5 && r[0] == r[4] &&
      (forall i :: 0 <= i < 5 ==> r[i].y == OutlineY) &&
      r[1] == BlockPos(r[2].x, OutlineY, r[0].z) && r[3] == BlockPos(r[0].x, OutlineY, r[2].z) &&
      (forall c :: c in region ==>
        r[0].x <= ChunkSize * c.x && ChunkSize * c.x + ChunkSize <= r[2].x &&
        r[0].z <= ChunkSize * c.z && ChunkSize * c.z + ChunkSize <= r[2].z) &&
      (exists c :: c in region && r[0].x == ChunkSize * c.x) &&
      (exists c :: c in region && r[2].x == ChunkSize * c.x + ChunkSize) &&
      (exists c :: c in region && r[0].z == ChunkSize * c.z) &&
      (exists c :: c in region && r[2].z == ChunkSize * c.z + ChunkSize)
  {
    if region == {} then []
    else
      var worldMinX := MinX(region) * 16;
      var worldMaxX := (MaxX(region) + 1) * 16;
      var worldMinZ := MinZ(region) * 16;
      var worldMaxZ := (MaxZ(region) + 1) * 16;
      [BlockPos(worldMinX, OutlineY, worldMinZ), BlockPos(worldMaxX, OutlineY, worldMinZ),
       BlockPos(worldMaxX, OutlineY, worldMaxZ), BlockPos(worldMinX, OutlineY, worldMaxZ),
       BlockPos(worldMinX, OutlineY, worldMinZ)]
  }

  /**
   * The outline `traceBoundary` returns: nothing for an empty region; the
   * fallback rectangle when no start cell exists; otherwise the simplified
   * world image of the Moore trace from the start cell.
   */
  ghost function TracedBoundary(region: set<Chunk>): seq<BlockPos> {
    if region == {} then []
    else
      var grid := SubCells(region);
      match FindStartPoint(grid)
      case None => CreateFallbackBoundary(region)
      case Some(start) => Simplified(Scaled(MooreTrace(grid, start)))
  }

  /** `traceBoundary` (the exception handler is not modelled). */
  method TraceBoundary(region: set<Chunk>) returns (boundary: seq<BlockPos>)
    ensures boundary == TracedBoundary(region)
  {
    if region == {} {
      return [];
    }
    var grid := CreateGrid(region);
    var start := FindStartPoint(grid);
    if start.None? {
      return CreateFallbackBoundary(region);
    }
    var boundaryPoints := MooreBoundaryTrace(grid, start.value);
    boundary := ConvertToWorldCoordinates(boundaryPoints);
  }

  /**
   * A non-empty region always has an outline, and it begins at the north-west
   * corner of the northernmost chunk of the region's westernmost column.
   */
  lemma TracedBoundaryStart(region: set<Chunk>)
    requires region != {}
    ensures var b := TracedBoundary(region);
      b != [] &&
      exists c :: c in region && c.x == MinX(region) && b[0] == BlockPos(ChunkSize * c.x, OutlineY, ChunkSize * c.z) &&
        forall d :: d in region && d.x == c.x ==> c.z <= d.z
  {
    var grid := SubCells(region);
    StartPointOfRegion(region);
    var start := FindStartPoint(grid).value;
    SubCellsMembership(region, start);
    MooreTraceProperties(grid, start);
    var scaled := Scaled(MooreTrace(grid, start));
    SimplifiedSelects(scaled);
    var c := ChunkOf(start);
    assert TracedBoundary(region)[0] == scaled[0];
  }

  lemma TracedBoundaryNonEmpty(region: set<Chunk>)
    requires region != {}
    ensures TracedBoundary(region) != []
  {
    TracedBoundaryStart(region);
  }

  /**
   * `buildPrecisePolygons`: one outline per connected region, in the order the
   * regions were found; `regions` is that (ghost) partition.
   */
  method BuildPrecisePolygons(chunks: set<Chunk>) returns (polygons: seq<seq<BlockPos>>, ghost regions: seq<set<Chunk>>)
    ensures IsPartition(regions, chunks)
    ensures polygons == Outlines(regions) && |polygons| == |regions|
  {
    var found := FindConnectedRegions(chunks);
    regions := found;
    polygons := TraceRegions(found);
    assert forall k :: 0 <= k < |found| ==> found[k] != {} by {
      forall k | 0 <= k < |found| ensures found[k] != {} {
        assert IsComponent(found[k], chunks);
      }
    }
    OutlinesLength(found);
  }

  /** The outline of each region, in order, leaving out empty ones. */
  ghost function Outlines(rs: seq<set<Chunk>>): seq<seq<BlockPos>> {
    if rs == [] then []
    else
      var last := TracedBoundary(rs[|rs| - 1]);
      Outlines(rs[..|rs| - 1]) + (if last != [] then [last] else [])
  }

  lemma {:induction false} OutlinesLength(rs: seq<set<Chunk>>)
    requires forall k :: 0 <= k < |rs| ==> rs[k] != {}
    ensures |Outlines(rs)| == |rs|
  {
    if rs != [] {
      OutlinesLength(rs[..|rs| - 1]);
      TracedBoundaryNonEmpty(rs[|rs| - 1]);
    }
  }

  /** When no region is empty, every region contributes its outline at its own index. */
  lemma {:induction false} OutlineAt(rs: seq<set<Chunk>>, i: int)
    requires forall k :: 0 <= k < |rs| ==> rs[k] != {}
    requires 0 <= i < |rs|
    ensures |Outlines(rs)| == |rs|
    ensures Outlines(rs)[i] == TracedBoundary(rs[i]) && Outlines(rs)[i] != []
  {
    var init := rs[..|rs| - 1];
    TracedBoundaryNonEmpty(rs[|rs| - 1]);
    OutlinesLength(init);
    if i < |rs| - 1 {
      OutlineAt(init, i);
      assert init[i] == rs[i];
    }
  }

  /** The loop of `buildPrecisePolygons`: trace each region, keep the non-empty outlines. */
  method TraceRegions(found: seq<set<Chunk>>) returns (polygons: seq<seq<BlockPos>>)
    ensures polygons == Outlines(found)
  {
    polygons := [];
    for i := 0 to |found|
      invariant polygons == Outlines(found[..i])
    {
      var region := found[i];
      var boundary := TraceBoundary(region);
      if boundary != [] {
        polygons := polygons + [boundary];
      }
      assert found[..i + 1][..i] == found[..i];
    }
    assert found[..|found|] == found;
  }
}
