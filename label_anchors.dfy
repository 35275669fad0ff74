/**
 * Label anchors and fallback rectangles of the client overlay manager: edge
 * chunks, the multi-source breadth-first "farthest from the edge" anchor, the
 * bounding-box centre anchor, the tiny label square, and the single-chunk and
 * bounding rectangles used when no outline is available.
 */
module LabelAnchors {
  import opened Grid

  /** `LABEL_Y`: the height of labels and of the client fallback rectangles. */
  const LabelY: int := 70

  /** The centre block of a chunk at label height, `(x*16+8, 70, z*16+8)`. */
  function ChunkCenter(c: Chunk): BlockPos
  {
    BlockPos(c.x * ChunkSize + 8, LabelY, c.z * ChunkSize + 8)
  }

  /** The centre lies at label height inside its chunk, eight blocks from the chunk's low corner on both axes. */
  lemma ChunkCenterInChunk(c: Chunk)
    ensures ChunkCenter(c).y == LabelY
    ensures ChunkCenter(c).x / ChunkSize == c.x && ChunkCenter(c).z / ChunkSize == c.z
    ensures ChunkCenter(c).x % ChunkSize == ChunkSize / 2 && ChunkCenter(c).z % ChunkSize == ChunkSize / 2
  {
  }

  // ---------------------------------------------------------------------------
  // Edge chunks

  /** `isEdgeChunk`: not all four orthogonal neighbours belong to the set. */
  predicate IsEdgeChunk(c: Chunk, s: set<Chunk>)
  {
    !(Chunk(c.x + 1, c.z) in s && Chunk(c.x - 1, c.z) in s &&
      Chunk(c.x, c.z + 1) in s && Chunk(c.x, c.z - 1) in s)
  }

  /** A chunk is an edge chunk exactly when some 4-neighbour is missing from the set; against no set every chunk is one. */
  lemma EdgeChunkMissingNeighbour(c: Chunk, s: set<Chunk>)
    ensures s == {} ==> IsEdgeChunk(c, s)
    ensures IsEdgeChunk(c, s) <==> exists n :: Adjacent(c, n) && n !in s
  {
    var ns := Neighbours(c);
    if IsEdgeChunk(c, s) {
      if ns[0] !in s {
        assert Adjacent(c, ns[0]);
      } else if ns[1] !in s {
        assert Adjacent(c, ns[1]);
      } else if ns[2] !in s {
        assert Adjacent(c, ns[2]);
      } else {
        assert Adjacent(c, ns[3]);
      }
    } else {
      forall n | Adjacent(c, n) ensures n in s {
        assert n in ns;
      }
    }
  }

  /**
   * A non-empty finite set always has an edge chunk (its easternmost chunk
   * lacks its east neighbour), so the "no edge found" branch of
   * `computeInteriorLabelAnchor` can never be taken.
   */
  lemma EdgeExists(region: set<Chunk>)
    requires region != {}
    ensures exists c :: c in region && IsEdgeChunk(c, region)
  {
    var m := MaxX(region);
    var c :| c in region && c.x == m;
    assert Chunk(c.x + 1, c.z) !in region by {
      assert forall d :: d in region ==> d.x <= m;
    }
    assert IsEdgeChunk(c, region);
  }

  // ---------------------------------------------------------------------------
  // Distance to the edge

  /** Some walk of at most `k` steps inside the region leads from `c` to an edge chunk. */
  ghost predicate EdgeWithin(region: set<Chunk>, c: Chunk, k: int) {
    exists p {:trigger IsWalk(p, region)} :: IsWalk(p, region) && p[0] == c && IsEdgeChunk(p[|p| - 1], region) && |p| <= k + 1
  }

  /** `k` is the length of a shortest 4-path inside the region from `c` to an edge chunk. */
  ghost predicate IsEdgeDistance(region: set<Chunk>, c: Chunk, k: int) {
    EdgeWithin(region, c, k) && !EdgeWithin(region, c, k - 1)
  }

  /** The distance to the edge is unique. */
  lemma EdgeDistanceUnique(region: set<Chunk>, c: Chunk, k1: int, k2: int)
    requires IsEdgeDistance(region, c, k1) && IsEdgeDistance(region, c, k2)
    ensures k1 == k2
  {
  }

  /** `c` is a chunk of the region whose distance to the edge is the largest. */
  ghost predicate FarthestFromEdge(region: set<Chunk>, c: Chunk) {
    c in region &&
    exists k :: IsEdgeDistance(region, c, k) &&
      forall e, j :: e in region && IsEdgeDistance(region, e, j) ==> j <= k
  }

  /** One step back from a chunk that reaches the edge within `d` reaches it within `d + 1`. */
  lemma StepTowardEdge(region: set<Chunk>, n: Chunk, cur: Chunk, d: int)
    requires n in region && Adjacent(n, cur) && EdgeWithin(region, cur, d)
    ensures EdgeWithin(region, n, d + 1)
  {
    var p :| IsWalk(p, region) && p[0] == cur && IsEdgeChunk(p[|p| - 1], region) && |p| <= d + 1;
    var p' := [n] + p;
    assert p'[1..] == p;
    assert IsWalk(p', region) && p'[0] == n && p'[|p'| - 1] == p[|p| - 1];
  }

  /** Every key of the distance table is witnessed by a walk of that length to the edge. */
  ghost predicate Witnessed(region: set<Chunk>, dist: map<Chunk, nat>) {
    forall c {:trigger EdgeWithin(region, c, dist[c])} :: c in dist ==> EdgeWithin(region, c, dist[c])
  }

  /**
   * Every region neighbour of a processed chunk has a distance, and the
   * distances of 4-adjacent chunks differ by at most one.
   */
  ghost predicate Settled(region: set<Chunk>, dist: map<Chunk, nat>, done: set<Chunk>) {
    forall c, n {:trigger Adjacent(c, n)} :: c in done && c in dist && n in region && Adjacent(c, n) ==>
      n in dist && dist[n] <= dist[c] + 1 && dist[c] <= dist[n] + 1
  }

  /** Edge chunks, and only they, have distance 0; every edge chunk of the region has one. */
  ghost predicate EdgesAtZero(region: set<Chunk>, dist: map<Chunk, nat>) {
    (forall c {:trigger IsEdgeChunk(c, region)} :: c in region && IsEdgeChunk(c, region) ==> c in dist) &&
    (forall c :: c in dist ==> (dist[c] == 0 <==> IsEdgeChunk(c, region)))
  }

  /** The queue's distances never decrease and span at most one step. */
  predicate QueueOrdered(q: seq<Chunk>, dist: map<Chunk, nat>) {
    (forall i :: 0 <= i < |q| ==> q[i] in dist) &&
    (forall i, j :: 0 <= i <= j < |q| ==> dist[q[i]] <= dist[q[j]]) &&
    (|q| > 0 ==> dist[q[|q| - 1]] <= dist[q[0]] + 1)
  }

  /** Along any walk to an edge, a settled table never exceeds the walk's length. */
  lemma {:induction false} WalkBound(region: set<Chunk>, dist: map<Chunk, nat>, p: seq<Chunk>)
    requires region <= dist.Keys && Settled(region, dist, region) && EdgesAtZero(region, dist)
    requires IsWalk(p, region) && IsEdgeChunk(p[|p| - 1], region)
    ensures dist[p[0]] <= |p| - 1
  {
    if |p| > 1 {
      var tail := p[1..];
      assert IsWalk(tail, region) && tail[|tail| - 1] == p[|p| - 1];
      WalkBound(region, dist, tail);
      assert Adjacent(p[0], p[1]);
    }
  }

  /** `dist` labels exactly the region's chunks, each with its distance to the edge. */
  ghost predicate EdgeDistances(region: set<Chunk>, dist: map<Chunk, nat>) {
    dist.Keys == region && forall c :: c in region ==> IsEdgeDistance(region, c, dist[c])
  }

  /** A settled, witnessed table covering the region holds exactly the distances to the edge. */
  lemma DistancesExact(region: set<Chunk>, dist: map<Chunk, nat>)
    requires dist.Keys == region && Settled(region, dist, region) && EdgesAtZero(region, dist)
    requires Witnessed(region, dist)
    ensures EdgeDistances(region, dist)
  {
    forall c, p | c in region && IsWalk(p, region) && p[0] == c && IsEdgeChunk(p[|p| - 1], region)
      ensures dist[c] + 1 <= |p|
    {
      WalkBound(region, dist, p);
    }
  }

  /** Chunks whose eastward run reaches a processed chunk are processed themselves. */
  lemma {:induction false} ReachedEastward(region: set<Chunk>, dist: map<Chunk, nat>, c: Chunk)
    requires region != {} && c in region
    requires dist.Keys <= region && EdgesAtZero(region, dist) && Settled(region, dist, dist.Keys)
    ensures c in dist
    decreases MaxX(region) - c.x
  {
    if !IsEdgeChunk(c, region) {
      var east := Chunk(c.x + 1, c.z);
      ReachedEastward(region, dist, east);
      assert Adjacent(east, c);
    }
  }

  /** The distance of each chunk taken from the queue: the whole queue lies within `[d, d + 1]`. */
  predicate QueueBand(q: seq<Chunk>, dist: map<Chunk, nat>, d: int) {
    (forall i :: 0 <= i < |q| ==> q[i] in dist && d <= dist[q[i]] <= d + 1) &&
    (forall i, j :: 0 <= i <= j < |q| ==> dist[q[i]] <= dist[q[j]])
  }

  /**
   * `computeInteriorLabelAnchor`: a multi-source breadth-first search from the
   * edge chunks labels every region chunk with its distance to the edge; the
   * anchor is the centre of a chunk whose distance is the largest (which one,
   * among ties, follows the hash map's iteration order, an arbitrary choice
   * here). An empty region has no anchor.
   */
  method ComputeInteriorLabelAnchor(region: set<Chunk>) returns (anchor: Option<BlockPos>, ghost distances: map<Chunk, nat>)
    ensures anchor.None? <==> region == {}
    ensures anchor.Some? ==> exists best :: FarthestFromEdge(region, best) && anchor.value == ChunkCenter(best)
    ensures region != {} ==> EdgeDistances(region, distances)
  {
    if region == {} {
      return None, map[];
    }
    var dist := DistancesToEdge(region);
    distances := dist;
    var best := FarthestChunk(region, dist);
    anchor := Some(ChunkCenter(best));
  }

  /** The two passes of the search: edge detection, then the breadth-first spread inward. */
  method DistancesToEdge(region: set<Chunk>) returns (dist: map<Chunk, nat>)
    requires region != {}
    ensures EdgeDistances(region, dist)
  {
    var q;
    q, dist := EdgeSeeds(region);
    EdgeExists(region);
    if dist == map[] {
      // the "no edge found" fallback of the source: unreachable
      assert false;
    }
    dist := SpreadInward(region, q, dist);
  }

  /** The selection pass: a chunk with the largest distance in the table. */
  method FarthestChunk(region: set<Chunk>, dist: map<Chunk, nat>) returns (best: Chunk)
    requires region != {} && EdgeDistances(region, dist)
    ensures FarthestFromEdge(region, best)
  {
    var found := FarthestKey(dist);
    if found.None? {
      // `region.iterator().next()` of the source: unreachable
      assert false;
    }
    best := found.value;
    FarthestChosen(region, dist, best);
  }

  /** Edge detection: every edge chunk of the region gets distance 0 and is queued, in iteration order. */
  method EdgeSeeds(region: set<Chunk>) returns (q: seq<Chunk>, dist: map<Chunk, nat>)
    ensures Frontier(region, dist, {}, q)
    ensures forall c :: c in dist ==> dist[c] == 0
  {
    q, dist := [], map[];
    var rest := region;
    while rest != {}
      invariant rest <= region
      invariant forall c :: c in dist <==> c in region - rest && IsEdgeChunk(c, region)
      invariant forall c :: c in dist ==> dist[c] == 0
      invariant forall c :: c in dist <==> c in q
    {
      var c :| c in rest;
      rest := rest - {c};
      if IsEdgeChunk(c, region) {
        dist := dist[c := 0];
        q := q + [c];
      }
    }
    Seeded(region, q, dist);
  }

  /**
   * The breadth-first loop: takes chunks off the front of the queue and gives
   * every unlabelled region neighbour the next distance, queueing it at the
   * back. Afterwards every region chunk holds its distance to the edge.
   */
  method SpreadInward(region: set<Chunk>, q: seq<Chunk>, dist: map<Chunk, nat>) returns (dist': map<Chunk, nat>)
    requires region != {}
    requires Frontier(region, dist, {}, q)
    ensures EdgeDistances(region, dist')
  {
    var queue := q;
    dist' := dist;
    ghost var done: set<Chunk> := {};
    while |queue| > 0
      invariant Frontier(region, dist', done, queue)
      decreases |region| - |dist'|, |queue|
    {
      ghost var cur := queue[0];
      dist', queue := VisitNeighbours(region, dist', queue, done);
      done := done + {cur};
      KeysWithin(dist', region);
    }
    ReachedAll(region, dist');
    DistancesExact(region, dist');
  }

  /**
   * The breadth-first loop's invariant: labels are region chunks, exact on the
   * edge, witnessed by walks, and settled for every processed chunk; the
   * labelled chunks are the processed and the queued ones; the queue is ordered.
   */
  ghost predicate Frontier(region: set<Chunk>, dist: map<Chunk, nat>, done: set<Chunk>, queue: seq<Chunk>) {
    dist.Keys <= region && done <= dist.Keys &&
    EdgesAtZero(region, dist) && Witnessed(region, dist) &&
    (forall c :: c in dist <==> c in done || c in queue) &&
    QueueOrdered(queue, dist) &&
    Settled(region, dist, done)
  }

  /** The edge seeds establish the loop invariant. */
  lemma Seeded(region: set<Chunk>, q: seq<Chunk>, dist: map<Chunk, nat>)
    requires forall c :: c in dist <==> c in region && IsEdgeChunk(c, region)
    requires forall c :: c in dist ==> dist[c] == 0
    requires forall c :: c in dist <==> c in q
    ensures Frontier(region, dist, {}, q)
  {
    forall c | c in dist ensures EdgeWithin(region, c, dist[c]) {
      assert IsWalk([c], region);
    }
  }

  /**
   * One step of the breadth-first loop: the head `cur` of the queue is taken
   * off, and every region neighbour of it without a distance gets one more
   * than `cur`'s and joins the back of the queue.
   */
  method VisitNeighbours(region: set<Chunk>, dist: map<Chunk, nat>, queue: seq<Chunk>, ghost done: set<Chunk>)
    returns (dist': map<Chunk, nat>, queue': seq<Chunk>)
    requires queue != [] && Frontier(region, dist, done, queue)
    ensures Frontier(region, dist', done + {queue[0]}, queue')
    ensures (|dist'| == |dist| && queue' == queue[1..]) || |dist'| > |dist|
  {
    var cur := queue[0];
    var d := dist[cur];
    Dequeued(queue, dist);
    assert EdgeWithin(region, cur, dist[cur]);
    ghost var added;
    dist', queue', added := LabelNeighbours(region, cur, d, dist, queue[1..]);
    NeighboursWithinOne(region, dist, dist', done, queue[1..], cur, d);
    Extended(region, dist, dist', done, d);
    Settle(region, dist', done, cur, d);
    LabelsQueued(queue[1..], added, dist, dist', d);
  }

  /**
   * The loop over the four neighbours of `cur`, in the source's order: each
   * region neighbour without a distance gets `d + 1` and is appended to the queue.
   */
  method LabelNeighbours(region: set<Chunk>, cur: Chunk, d: nat, dist: map<Chunk, nat>, queue: seq<Chunk>)
    returns (dist': map<Chunk, nat>, queue': seq<Chunk>, ghost added: seq<Chunk>)
    requires EdgeWithin(region, cur, d)
    ensures Labelling(region, cur, d, dist, queue, dist', queue', added, 4)
    ensures forall n :: n in region && Adjacent(cur, n) ==> n in dist'
    ensures (|dist'| == |dist| && added == []) || |dist'| > |dist|
  {
    dist', queue', added := dist, queue, [];
    var ns := Neighbours(cur);
    for k := 0 to 4
      invariant Labelling(region, cur, d, dist, queue, dist', queue', added, k)
      invariant (|dist'| == |dist| && added == []) || |dist'| > |dist|
    {
      var n := ns[k];
      if n in region && n !in dist' {
        Labelled(region, cur, d, dist, queue, dist', queue', added, k);
        dist', queue', added := dist'[n := d + 1], queue' + [n], added + [n];
      }
    }
    forall n | n in region && Adjacent(cur, n) ensures n in dist' {
      var j :| 0 <= j < 4 && ns[j] == n;
    }
  }

  /**
   * The neighbour loop's invariant after the first `k` neighbours: `dist'`
   * extends `dist` with fresh labels `d + 1`, which are exactly the chunks
   * `added` to the back of the queue, and every region neighbour seen so far
   * is labelled.
   */
  ghost predicate Labelling(region: set<Chunk>, cur: Chunk, d: int, dist: map<Chunk, nat>, queue: seq<Chunk>,
                            dist': map<Chunk, nat>, queue': seq<Chunk>, added: seq<Chunk>, k: int)
  {
    Extends(dist, dist') && Fresh(region, dist, dist', d) &&
    queue' == queue + added &&
    (forall c :: c in dist' <==> c in dist || c in added) &&
    (forall i :: 0 <= i < |added| ==> added[i] in dist' && dist'[added[i]] == d + 1) &&
    (forall j :: 0 <= j < k && j < 4 && Neighbours(cur)[j] in region ==> Neighbours(cur)[j] in dist')
  }

  /** Labelling the next unlabelled region neighbour keeps the neighbour loop's invariant. */
  lemma Labelled(region: set<Chunk>, cur: Chunk, d: int, dist: map<Chunk, nat>, queue: seq<Chunk>,
                 dist': map<Chunk, nat>, queue': seq<Chunk>, added: seq<Chunk>, k: int)
    requires 0 <= k < 4 && EdgeWithin(region, cur, d)
    requires Labelling(region, cur, d, dist, queue, dist', queue', added, k)
    requires Neighbours(cur)[k] in region && Neighbours(cur)[k] !in dist'
    ensures d + 1 >= 0
    ensures Labelling(region, cur, d, dist, queue, dist'[Neighbours(cur)[k] := d + 1],
                      queue' + [Neighbours(cur)[k]], added + [Neighbours(cur)[k]], k + 1)
  {
    var n := Neighbours(cur)[k];
    assert Adjacent(cur, n) by { assert n in Neighbours(cur); }
    AdjacentSymmetric(cur, n);
    StepTowardEdge(region, n, cur, d);
  }

  /** After labelling, each region neighbour of `cur` is within one step of it. */
  lemma NeighboursWithinOne(region: set<Chunk>, dist: map<Chunk, nat>, dist': map<Chunk, nat>, done: set<Chunk>, queue: seq<Chunk>, cur: Chunk, d: nat)
    requires dist.Keys <= region && cur in dist && dist[cur] == d
    requires Settled(region, dist, done) && QueueBand(queue, dist, d)
    requires forall c :: c in dist <==> c in done || c == cur || c in queue
    requires Extends(dist, dist') && Fresh(region, dist, dist', d)
    requires forall n :: n in region && Adjacent(cur, n) ==> n in dist'
    ensures forall n :: n in region && Adjacent(cur, n) ==> WithinOne(dist', n, d)
  {
    forall n | n in region && Adjacent(cur, n) ensures WithinOne(dist', n, d) {
      if n in dist {
        AlreadyLabelled(region, dist, done, queue, cur, d, n);
      }
    }
  }

  /** `n`'s distance is within one of `d`. */
  ghost predicate WithinOne(dist: map<Chunk, nat>, n: Chunk, d: int) {
    n in dist && dist[n] <= d + 1 && d <= dist[n] + 1
  }

  /** A neighbour labelled before `cur` was taken off the queue is within one step of it. */
  lemma AlreadyLabelled(region: set<Chunk>, dist: map<Chunk, nat>, done: set<Chunk>, queue: seq<Chunk>, cur: Chunk, d: nat, n: Chunk)
    requires dist.Keys <= region && cur in dist && dist[cur] == d && n in region && n in dist && Adjacent(cur, n)
    requires Settled(region, dist, done) && QueueBand(queue, dist, d)
    requires forall c :: c in dist <==> c in done || c == cur || c in queue
    ensures WithinOne(dist, n, d)
  {
    if n in done {
      AdjacentSymmetric(cur, n);
    } else if n != cur {
      var i :| 0 <= i < |queue| && queue[i] == n;
    }
  }

  /** `after` keeps every entry of `before`. */
  ghost predicate Extends(before: map<Chunk, nat>, after: map<Chunk, nat>) {
    forall c :: c in before ==> c in after && after[c] == before[c]
  }

  /** The entries new in `after` are region chunks at distance `d + 1`, each witnessed. */
  ghost predicate Fresh(region: set<Chunk>, before: map<Chunk, nat>, after: map<Chunk, nat>, d: int) {
    (forall c :: c in after && c !in before ==> c in region && after[c] == d + 1) &&
    (forall c {:trigger EdgeWithin(region, c, after[c])} :: c in after && c !in before ==> EdgeWithin(region, c, after[c]))
  }

  /** Extending the table with fresh interior labels keeps its invariants. */
  lemma Extended(region: set<Chunk>, dist: map<Chunk, nat>, dist': map<Chunk, nat>, done: set<Chunk>, d: nat)
    requires dist.Keys <= region && done <= dist.Keys
    requires EdgesAtZero(region, dist) && Witnessed(region, dist) && Settled(region, dist, done)
    requires Extends(dist, dist') && Fresh(region, dist, dist', d)
    ensures dist'.Keys <= region && done <= dist'.Keys
    ensures EdgesAtZero(region, dist') && Witnessed(region, dist') && Settled(region, dist', done)
  {
    ExtendedEdges(region, dist, dist', d);
    ExtendedWitnessed(region, dist, dist', d);
    ExtendedSettled(region, dist, dist', done);
  }

  lemma ExtendedEdges(region: set<Chunk>, dist: map<Chunk, nat>, dist': map<Chunk, nat>, d: nat)
    requires EdgesAtZero(region, dist) && Extends(dist, dist') && Fresh(region, dist, dist', d)
    ensures EdgesAtZero(region, dist')
  {
    forall c | c in dist' && c !in dist ensures !IsEdgeChunk(c, region) {
    }
  }

  lemma ExtendedWitnessed(region: set<Chunk>, dist: map<Chunk, nat>, dist': map<Chunk, nat>, d: nat)
    requires Witnessed(region, dist) && Extends(dist, dist') && Fresh(region, dist, dist', d)
    ensures Witnessed(region, dist')
  {
    forall c | c in dist' ensures EdgeWithin(region, c, dist'[c]) {
      if c in dist {
        assert EdgeWithin(region, c, dist[c]);
      }
    }
  }

  lemma ExtendedSettled(region: set<Chunk>, dist: map<Chunk, nat>, dist': map<Chunk, nat>, done: set<Chunk>)
    requires done <= dist.Keys && Settled(region, dist, done) && Extends(dist, dist')
    ensures Settled(region, dist', done)
  {
  }

  /** The labels appended behind the current band keep the queue ordered. */
  lemma LabelsQueued(queue: seq<Chunk>, added: seq<Chunk>, dist: map<Chunk, nat>, dist': map<Chunk, nat>, d: nat)
    requires QueueBand(queue, dist, d) && Extends(dist, dist')
    requires forall i :: 0 <= i < |added| ==> added[i] in dist' && dist'[added[i]] == d + 1
    ensures QueueOrdered(queue + added, dist')
  {
    var q := queue + added;
    assert forall i :: 0 <= i < |q| ==> q[i] in dist' && d <= dist'[q[i]] <= d + 1 by {
      forall i | 0 <= i < |q| ensures q[i] in dist' && d <= dist'[q[i]] <= d + 1 {
        if i < |queue| {
          assert q[i] == queue[i];
        } else {
          assert q[i] == added[i - |queue|];
        }
      }
    }
    assert forall i, j :: 0 <= i <= j < |q| ==> dist'[q[i]] <= dist'[q[j]] by {
      forall i, j | 0 <= i <= j < |q| ensures dist'[q[i]] <= dist'[q[j]] {
        if j < |queue| {
          assert q[i] == queue[i] && q[j] == queue[j];
        } else if i >= |queue| {
          assert q[i] == added[i - |queue|] && q[j] == added[j - |queue|];
        }
      }
    }
  }

  /** A table whose keys are region chunks has at most as many entries as the region. */
  lemma {:induction false} KeysWithin(dist: map<Chunk, nat>, region: set<Chunk>)
    requires dist.Keys <= region
    ensures |dist| <= |region|
  {
    if dist != map[] {
      var c :| c in dist;
      var rest := map k | k in dist && k != c :: dist[k];
      assert rest.Keys == dist.Keys - {c};
      KeysWithin(rest, region - {c});
    }
  }

  /** The entry with the strictly largest value, met first in the map's iteration order. */
  method FarthestKey(dist: map<Chunk, nat>) returns (best: Option<Chunk>)
    ensures best.None? <==> dist == map[]
    ensures best.Some? ==> best.value in dist && forall c :: c in dist ==> dist[c] <= dist[best.value]
  {
    var entries := dist.Keys;
    best := None;
    var bestD := -1;
    while entries != {}
      invariant entries <= dist.Keys
      invariant best.None? <==> entries == dist.Keys
      invariant best.None? ==> bestD == -1
      invariant best.Some? ==> best.value in dist.Keys - entries && bestD == dist[best.value]
      invariant forall c :: c in dist.Keys - entries ==> dist[c] <= bestD
    {
      var e :| e in entries;
      entries := entries - {e};
      if dist[e] > bestD {
        bestD := dist[e];
        best := Some(e);
      }
    }
  }

  /** Taking the head off an ordered queue leaves the rest within one step above it. */
  lemma Dequeued(q: seq<Chunk>, dist: map<Chunk, nat>)
    requires QueueOrdered(q, dist) && q != []
    ensures QueueBand(q[1..], dist, dist[q[0]])
  {
  }

  /** The neighbours recorded while processing `cur` settle it. */
  lemma Settle(region: set<Chunk>, dist: map<Chunk, nat>, done: set<Chunk>, cur: Chunk, d: nat)
    requires Settled(region, dist, done) && cur in dist && dist[cur] == d
    requires forall n :: n in region && Adjacent(cur, n) ==> WithinOne(dist, n, d)
    ensures Settled(region, dist, done + {cur})
  {
  }

  /** When the queue runs dry every region chunk has been labelled. */
  lemma ReachedAll(region: set<Chunk>, dist: map<Chunk, nat>)
    requires region != {} && dist.Keys <= region && EdgesAtZero(region, dist) && Settled(region, dist, dist.Keys)
    ensures dist.Keys == region
  {
    forall c | c in region ensures c in dist {
      ReachedEastward(region, dist, c);
    }
  }

  /** A key with the largest table value is farthest from the edge. */
  lemma FarthestChosen(region: set<Chunk>, dist: map<Chunk, nat>, best: Chunk)
    requires EdgeDistances(region, dist) && best in region
    requires forall c :: c in region ==> dist[c] <= dist[best]
    ensures FarthestFromEdge(region, best)
  {
    forall e, j | e in region && IsEdgeDistance(region, e, j) ensures j <= dist[best] {
      EdgeDistanceUnique(region, e, j, dist[e]);
    }
  }

  // ---------------------------------------------------------------------------
  // Bounding-box centre anchor

  /** Java's `(lo + hi) / 2`: the midpoint rounded toward zero. */
  function Midpoint(lo: int, hi: int): (m: int)
    requires lo <= hi
    ensures lo <= m <= hi
    ensures lo + hi >= 0 ==> 2 * m == lo + hi || 2 * m == lo + hi - 1
    ensures lo + hi < 0 ==> 2 * m == lo + hi || 2 * m == lo + hi + 1
  {
    JavaDiv(lo + hi, 2)
  }

  /**
   * The centre of the block bounding box `[minX*16, maxX*16+15] x [minZ*16, maxZ*16+15]`
   * of a non-empty chunk set, at label height.
   */
  function HullCentroid(region: set<Chunk>): (b: BlockPos)
    requires region != {}
    ensures b.y == LabelY
    ensures MinX(region) * ChunkSize <= b.x <= MaxX(region) * ChunkSize + 15
    ensures MinZ(region) * ChunkSize <= b.z <= MaxZ(region) * ChunkSize + 15
  {
    BlockPos(Midpoint(MinX(region) * ChunkSize, MaxX(region) * ChunkSize + 15), LabelY,
             Midpoint(MinZ(region) * ChunkSize, MaxZ(region) * ChunkSize + 15))
  }

  /** The bounding-box centre lies inside the box of the chunk extents it is built from. */
  lemma HullCentroidInChunkBox(region: set<Chunk>)
    requires region != {}
    ensures var b := HullCentroid(region);
      MinX(region) <= b.x / ChunkSize <= MaxX(region) && MinZ(region) <= b.z / ChunkSize <= MaxZ(region)
  {
    var b := HullCentroid(region);
    DivBetween(b.x, MinX(region), MaxX(region));
    DivBetween(b.z, MinZ(region), MaxZ(region));
  }

  lemma DivBetween(v: int, lo: int, hi: int)
    requires lo * ChunkSize <= v <= hi * ChunkSize + 15
    ensures lo <= v / ChunkSize <= hi
  {
  }

  /**
   * `computeHullCentroid`: one pass over the region keeps the chunk extents,
   * starting from `Integer.MAX_VALUE` / `Integer.MIN_VALUE`; an empty region
   * gives `(0, 70, 0)`.
   */
  method ComputeHullCentroid(region: set<Chunk>) returns (anchor: BlockPos)
    requires ChunksInt32(region)
    ensures region == {} ==> anchor == BlockPos(0, LabelY, 0)
    ensures region != {} ==> anchor == HullCentroid(region)
  {
    if region == {} {
      return BlockPos(0, LabelY, 0);
    }
    var minChunkX, maxChunkX, minChunkZ, maxChunkZ := IntMax, IntMin, IntMax, IntMin;
    var rest := region;
    while rest != {}
      invariant rest <= region
      invariant forall c :: c in region - rest ==> minChunkX <= c.x <= maxChunkX && minChunkZ <= c.z <= maxChunkZ
      invariant region - rest != {} ==>
        (exists c :: c in region - rest && c.x == minChunkX) && (exists c :: c in region - rest && c.x == maxChunkX) &&
        (exists c :: c in region - rest && c.z == minChunkZ) && (exists c :: c in region - rest && c.z == maxChunkZ)
      invariant region - rest == {} ==> minChunkX == IntMax && maxChunkX == IntMin && minChunkZ == IntMax && maxChunkZ == IntMin
    {
      var c :| c in rest;
      rest := rest - {c};
      if c.x < minChunkX { minChunkX := c.x; }
      if c.x > maxChunkX { maxChunkX := c.x; }
      if c.z < minChunkZ { minChunkZ := c.z; }
      if c.z > maxChunkZ { maxChunkZ := c.z; }
    }
    ExtentsFound(region, minChunkX, maxChunkX, minChunkZ, maxChunkZ);
    var minBlockX := minChunkX * ChunkSize;
    var maxBlockX := maxChunkX * ChunkSize + 15;
    var minBlockZ := minChunkZ * ChunkSize;
    var maxBlockZ := maxChunkZ * ChunkSize + 15;
    anchor := BlockPos(JavaDiv(minBlockX + maxBlockX, 2), LabelY, JavaDiv(minBlockZ + maxBlockZ, 2));
  }

  /** Extents attained by some chunk and bounding all of them are the set's extents. */
  lemma ExtentsFound(region: set<Chunk>, minX: int, maxX: int, minZ: int, maxZ: int)
    requires region != {}
    requires forall c :: c in region ==> minX <= c.x <= maxX && minZ <= c.z <= maxZ
    requires (exists c :: c in region && c.x == minX) && (exists c :: c in region && c.x == maxX)
    requires (exists c :: c in region && c.z == minZ) && (exists c :: c in region && c.z == maxZ)
    ensures minX == MinX(region) && maxX == MaxX(region) && minZ == MinZ(region) && maxZ == MaxZ(region)
  {
    var a :| a in region && a.x == minX;
    var b :| b in region && b.x == maxX;
    var e :| e in region && e.z == minZ;
    var f :| f in region && f.z == maxZ;
    assert MinX(region) <= a.x && MaxX(region) >= b.x && MinZ(region) <= e.z && MaxZ(region) >= f.z;
  }

  // ---------------------------------------------------------------------------
  // Rectangles

  /** The chunk holding a block column (`x >> 4`, `z >> 4`: floor division). */
  function ChunkAt(bx: int, bz: int): Chunk {
    Chunk(bx / ChunkSize, bz / ChunkSize)
  }

  /**
   * Five points at height `y` tracing an axis-aligned rectangle from `r[0]`
   * to the opposite corner `r[2]` and back: `r[1]` shares `r[2]`'s x and
   * `r[0]`'s z, `r[3]` the other way round, and the last point closes it.
   */
  predicate ClosedRectangle(r: seq<BlockPos>, y: int) {
    |r| == 5 && r[4] == r[0] &&
    r[0].y == y && r[2].y == y &&
    r[1] == BlockPos(r[2].x, y, r[0].z) && r[3] == BlockPos(r[0].x, y, r[2].z)
  }

  /** A closed axis-aligned rectangle from corner (`x0`, `z0`) to corner (`x1`, `z1`) at height `y`. */
  function Rectangle(x0: int, z0: int, x1: int, z1: int, y: int): (r: seq<BlockPos>)
    ensures ClosedRectangle(r, y)
    ensures r[0] == BlockPos(x0, y, z0) && r[2] == BlockPos(x1, y, z1)
    ensures forall i :: 0 <= i < |r| ==> r[i].y == y
  {
    [BlockPos(x0, y, z0), BlockPos(x1, y, z0), BlockPos(x1, y, z1), BlockPos(x0, y, z1), BlockPos(x0, y, z0)]
  }

  /**
   * `createChunkRectangle`: a closed 5-point square at label height whose
   * half-open span is exactly the chunk's block footprint.
   */
  function ChunkRectangle(c: Chunk): (r: seq<BlockPos>)
    ensures ClosedRectangle(r, LabelY) && r[0].x < r[2].x && r[0].z < r[2].z
    ensures forall i :: 0 <= i < 5 ==> r[i].y == LabelY
    ensures forall bx, bz :: r[0].x <= bx < r[2].x && r[0].z <= bz < r[2].z <==> ChunkAt(bx, bz) == c
  {
    var x := c.x * ChunkSize;
    var z := c.z * ChunkSize;
    Rectangle(x, z, x + ChunkSize, z + ChunkSize, LabelY)
  }

  /** Java's `stream().min().orElse(0)` and friends over the chunk coordinates. */
  function MinXOrZero(s: set<Chunk>): int { if s == {} then 0 else MinX(s) }
  function MaxXOrZero(s: set<Chunk>): int { if s == {} then 0 else MaxX(s) }
  function MinZOrZero(s: set<Chunk>): int { if s == {} then 0 else MinZ(s) }
  function MaxZOrZero(s: set<Chunk>): int { if s == {} then 0 else MaxZ(s) }

  /**
   * `createBoundingRectangle`: a closed 5-point rectangle at label height that
   * encloses every chunk and touches each of its four sides with some chunk.
   * The empty set gives the square of chunk (0, 0).
   */
  function BoundingRectangle(chunks: set<Chunk>): (r: seq<BlockPos>)
    ensures ClosedRectangle(r, LabelY) && r[0].x < r[2].x && r[0].z < r[2].z
    ensures forall i :: 0 <= i < 5 ==> r[i].y == LabelY
    ensures forall c :: c in chunks ==>
      r[0].x <= c.x * ChunkSize && c.x * ChunkSize + ChunkSize <= r[2].x &&
      r[0].z <= c.z * ChunkSize && c.z * ChunkSize + ChunkSize <= r[2].z
    ensures chunks != {} ==>
      (exists c :: c in chunks && c.x * ChunkSize == r[0].x) &&
      (exists c :: c in chunks && c.x * ChunkSize + ChunkSize == r[2].x) &&
      (exists c :: c in chunks && c.z * ChunkSize == r[0].z) &&
      (exists c :: c in chunks && c.z * ChunkSize + ChunkSize == r[2].z)
    ensures chunks == {} ==> r == ChunkRectangle(Chunk(0, 0))
  {
    var worldMinX := MinXOrZero(chunks) * ChunkSize;
    var worldMaxX := (MaxXOrZero(chunks) + 1) * ChunkSize;
    var worldMinZ := MinZOrZero(chunks) * ChunkSize;
    var worldMaxZ := (MaxZOrZero(chunks) + 1) * ChunkSize;
    Rectangle(worldMinX, worldMinZ, worldMaxX, worldMaxZ, LabelY)
  }

  /** On a single chunk the bounding rectangle is that chunk's rectangle. */
  lemma SingletonRectangles(c: Chunk)
    ensures BoundingRectangle({c}) == ChunkRectangle(c)
  {
    var r := BoundingRectangle({c});
    assert r[0].x == c.x * ChunkSize && r[0].z == c.z * ChunkSize;
    assert r[2].x == c.x * ChunkSize + ChunkSize && r[2].z == c.z * ChunkSize + ChunkSize;
  }

  /**
   * `createFallbackPolygon`: nothing for an empty region, the chunk rectangle
   * for a single chunk, the bounding rectangle otherwise; in every non-empty
   * case this is the bounding rectangle of the region.
   */
  function FallbackPolygon(region: set<Chunk>): (r: Option<seq<BlockPos>>)
    ensures r.None? <==> region == {}
    ensures r.Some? ==> r.value == BoundingRectangle(region)
  {
    if region == {} then None
    else if |region| == 1 then
      SingletonElement(region);
      var c :| region == {c};
      SingletonRectangles(c);
      Some(ChunkRectangle(c))
    else Some(BoundingRectangle(region))
  }

  lemma SingletonElement(s: set<Chunk>)
    requires |s| == 1
    ensures exists c :: s == {c}
  {
    var c :| c in s;
    assert |s - {c}| == 0;
    assert s == {c};
  }

  /**
   * `createLabelOnlyOverlay`'s points: a closed 2x2-block square at label
   * height centred on the anchor.
   */
  function LabelSquare(anchor: BlockPos): (r: seq<BlockPos>)
    ensures ClosedRectangle(r, LabelY)
    ensures r[2].x - r[0].x == 2 && r[2].z - r[0].z == 2
    ensures r[0].x + r[2].x == 2 * anchor.x && r[0].z + r[2].z == 2 * anchor.z
  {
    Rectangle(anchor.x - 1, anchor.z - 1, anchor.x + 1, anchor.z + 1, LabelY)
  }
}
