/**
 * The main-side `FactionOverlayManager`: one overlay per player faction,
 * drawn as the outline of every claimed chunk one after the other
 * (`FactionPolygonBuilder`), kept in a table keyed by faction id. An overlay
 * is reduced to its id, points and label; styling and the JourneyMap
 * show/remove calls are not modelled.
 */
module MainOverlays {
  import opened Grid
  import opened Ownership

  const BoundaryY: int := 64

  /** One axis-aligned side of a chunk: 16 blocks along x or along z. */
  predicate ChunkSide(a: BlockPos, b: BlockPos) {
    (a.z == b.z && (b.x - a.x == ChunkSize || a.x - b.x == ChunkSize)) ||
    (a.x == b.x && (b.z - a.z == ChunkSize || a.z - b.z == ChunkSize))
  }

  /**
   * `getChunkBoundary`: the chunk's 16×16 square at y = 64, closed, starting
   * and ending at its north-west corner and visiting all four corners.
   */
  function ChunkBoundary(chunk: Chunk): (ps: seq<BlockPos>)
    ensures |ps| == 5 && ps[0] == ps[4]
    ensures ps[0] == BlockPos(chunk.x * ChunkSize, BoundaryY, chunk.z * ChunkSize)
    ensures forall i :: 0 <= i < |ps| ==> ps[i].y == BoundaryY
    ensures forall i :: 0 <= i < |ps| ==>
      chunk.x * ChunkSize <= ps[i].x <= chunk.x * ChunkSize + ChunkSize &&
      chunk.z * ChunkSize <= ps[i].z <= chunk.z * ChunkSize + ChunkSize
    ensures forall i :: 0 <= i < 4 ==> ChunkSide(ps[i], ps[i + 1])
    ensures BlockPos(chunk.x * ChunkSize + ChunkSize, BoundaryY, chunk.z * ChunkSize) in ps
    ensures BlockPos(chunk.x * ChunkSize + ChunkSize, BoundaryY, chunk.z * ChunkSize + ChunkSize) in ps
    ensures BlockPos(chunk.x * ChunkSize, BoundaryY, chunk.z * ChunkSize + ChunkSize) in ps
  {
    var worldX := chunk.x * 16;
    var worldZ := chunk.z * 16;
    var y := BoundaryY;
    [BlockPos(worldX, y, worldZ), BlockPos(worldX + 16, y, worldZ), BlockPos(worldX + 16, y, worldZ + 16),
     BlockPos(worldX, y, worldZ + 16), BlockPos(worldX, y, worldZ)]
  }

  /** The outlines of the chunks in `order`, one block of five points after another. */
  function Blocks(order: seq<Chunk>): (ps: seq<BlockPos>)
    ensures |ps| == 5 * |order|
  {
    if order == [] then [] else Blocks(order[..|order| - 1]) + ChunkBoundary(order[|order| - 1])
  }

  /** Block `k` of the output is the outline of the `k`-th chunk visited. */
  lemma {:induction false} BlockAt(order: seq<Chunk>, k: int)
    requires 0 <= k < |order|
    ensures Blocks(order)[5 * k..5 * k + 5] == ChunkBoundary(order[k])
  {
    var init := order[..|order| - 1];
    var front := Blocks(init);
    var last := ChunkBoundary(order[|order| - 1]);
    assert Blocks(order) == front + last;
    if k < |order| - 1 {
      BlockAt(init, k);
      SliceOfFront(front, last, 5 * k, 5 * k + 5);
    } else {
      SliceOfBack(front, last);
    }
  }

  /** A slice inside the first part of a concatenation is a slice of that part. */
  lemma SliceOfFront(front: seq<BlockPos>, back: seq<BlockPos>, i: int, j: int)
    requires 0 <= i <= j <= |front|
    ensures (front + back)[i..j] == front[i..j]
  {
  }

  /** The second part of a concatenation is its slice past the first part. */
  lemma SliceOfBack(front: seq<BlockPos>, back: seq<BlockPos>)
    ensures (front + back)[|front|..|front| + |back|] == back
  {
  }

  /**
   * `buildPolygonFromChunks`: nothing for no chunks; otherwise the outline of
   * every chunk, each exactly once, in the set's iteration order.
   */
  method BuildPolygonFromChunks(chunks: set<Chunk>) returns (allPoints: seq<BlockPos>, ghost order: seq<Chunk>)
    ensures |order| == |chunks| && forall c :: c in order <==> c in chunks
    ensures allPoints == Blocks(order)
    ensures |allPoints| == 5 * |chunks|
  {
    if chunks == {} {
      return [], [];
    }
    allPoints, order := [], [];
    var rest := chunks;
    while rest != {}
      invariant rest <= chunks
      invariant |order| == |chunks| - |rest|
      invariant forall c :: c in chunks <==> c in rest || c in order
      invariant forall c :: c in order ==> c !in rest
      invariant allPoints == Blocks(order)
      decreases rest
    {
      var chunk :| chunk in rest;
      allPoints := allPoints + ChunkBoundary(chunk);
      ghost var visited := order;
      order := order + [chunk];
      assert order[..|order| - 1] == visited;
      rest := rest - {chunk};
    }
  }

  /** An overlay in the table: its id, its points and its label text. */
  datatype PolygonOverlay = PolygonOverlay(overlayId: string, points: seq<BlockPos>, labelText: string)

  class FactionOverlayManager {
    var factionOverlays: map<string, PolygonOverlay>

    constructor ()
      ensures factionOverlays == map[]
    {
      factionOverlays := map[];
    }

    /**
     * `createOrUpdateFactionOverlay`: system factions are skipped; a player
     * faction's old overlay is dropped, and one claiming chunks gets a new
     * overlay under its id, labelled with its display name.
     */
    method CreateOrUpdateFactionOverlay(faction: ClientFaction) returns (ghost order: seq<Chunk>)
      modifies this
      ensures faction.factionType != Player ==> factionOverlays == old(factionOverlays)
      ensures faction.factionType == Player && faction.claimed == {} ==> factionOverlays == old(factionOverlays) - {faction.id}
      ensures faction.factionType == Player && faction.claimed != {} ==>
        |order| == |faction.claimed| && (forall c :: c in order <==> c in faction.claimed) &&
        factionOverlays == old(factionOverlays)[faction.id := PolygonOverlay(faction.id, Blocks(order), faction.displayName)]
    {
      order := [];
      var factionId := faction.id;
      if faction.factionType != Player {
        return;
      }
      RemoveOverlay(factionId);
      var claimedChunks := faction.claimed;
      if claimedChunks == {} {
        return;
      }
      var polygonPoints;
      polygonPoints, order := BuildPolygonFromChunks(claimedChunks);
      // the emptiness check after building never fires: each chunk adds five points
      assert polygonPoints != [];
      var overlay := PolygonOverlay(factionId, polygonPoints, faction.displayName);
      factionOverlays := factionOverlays[factionId := overlay];
    }

    /** `removeOverlay` (also `onFactionRemoved`): the faction's entry is gone, nothing else changes. */
    method RemoveOverlay(factionId: string)
      modifies this
      ensures factionOverlays == old(factionOverlays) - {factionId}
    {
      if factionId in factionOverlays {
        factionOverlays := factionOverlays - {factionId};
      }
    }

    /** `clearAllOverlays` (also `onDataCleared`): the table is empty afterwards. */
    method ClearAllOverlays()
      modifies this
      ensures factionOverlays == map[]
    {
      factionOverlays := map[];
    }
  }
}
