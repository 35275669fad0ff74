/**
 * The client overlay manager's bookkeeping: which polygons a faction's visible
 * territory yields, how its territory and label overlays are named, which
 * region and anchor each label gets, and the string-keyed overlay table that
 * is filled per faction and pruned by faction id. Overlays are kept as plain
 * values; showing and hiding them on the map is not modelled.
 */
module ClientOverlays {
  import opened Grid
  import opened JavaStrings
  import Regions
  import LabelAnchors

  /** `JourneyFactionsConfig.LabelAnchorMode`. */
  datatype LabelAnchorMode = FarthestInteriorChunk | HullCentroid | FirstChunkCenter

  /** The two configuration entries the overlay manager reads. */
  datatype OverlayConfig = OverlayConfig(separateLabelOverlay: bool, labelAnchorMode: LabelAnchorMode)

  /** The shipped defaults: a separate label overlay, anchored at the hull centroid. */
  const DefaultConfig: OverlayConfig := OverlayConfig(true, HullCentroid)

  /**
   * A territory polygon: the `index`-th polygon the host's chunk-polygon helper
   * produced for `region` (its shape is the host's business), or a fallback
   * outline computed here.
   */
  datatype Polygon = Traced(region: set<Chunk>, index: nat) | Outline(points: seq<BlockPos>)

  /**
   * An entry of the overlay table: a territory overlay (with its built-in label
   * when labels are not separate) or a label-only overlay on a tiny invisible square.
   */
  datatype Overlay = Territory(polygon: Polygon, builtInLabel: Option<string>) | LabelOnly(points: seq<BlockPos>, text: string)

  // ---------------------------------------------------------------------------
  // Polygons of the visible territory

  /**
   * The polygons one region contributes: the host helper's `count` polygons,
   * or, when it yields none (null, empty or failing), the fallback polygon.
   */
  function RegionPolygons(region: set<Chunk>, count: nat): (ps: seq<Polygon>)
    ensures count > 0 ==> |ps| == count && forall k :: 0 <= k < count ==> ps[k] == Traced(region, k)
    ensures count == 0 && region != {} ==> ps == [Outline(LabelAnchors.BoundingRectangle(region))]
    ensures count == 0 && region == {} ==> ps == []
  {
    if count > 0 then seq(count, k requires 0 <= k < count => Traced(region, k))
    else match LabelAnchors.FallbackPolygon(region)
      case Some(outline) => [Outline(outline)]
      case None => []
  }

  /** `buildPolygonsUsingJourneyMapHelper`'s result over the largest-first regions. */
  function PolygonsFor(regions: seq<set<Chunk>>, helper: set<Chunk> -> nat): seq<Polygon> {
    if regions == [] then []
    else PolygonsFor(regions[..|regions| - 1], helper) + RegionPolygons(regions[|regions| - 1], helper(regions[|regions| - 1]))
  }

  /** Every non-empty region yields at least one polygon, so a non-empty partition is never drawn empty. */
  lemma {:induction false} PolygonsCoverRegions(regions: seq<set<Chunk>>, helper: set<Chunk> -> nat)
    requires forall i :: 0 <= i < |regions| ==> regions[i] != {}
    ensures |PolygonsFor(regions, helper)| >= |regions|
  {
    if regions != [] {
      PolygonsCoverRegions(regions[..|regions| - 1], helper);
    }
  }

  /** The helper's single polygon of `region`, or the region's bounding rectangle. */
  predicate OfRegion(p: Polygon, region: set<Chunk>) {
    p == Traced(region, 0) || p == Outline(LabelAnchors.BoundingRectangle(region))
  }

  /**
   * When the helper yields at most one polygon per region, polygon `i` belongs
   * to region `i`: it is the helper's polygon of that region or its bounding rectangle.
   */
  lemma {:induction false} PolygonsMatchRegions(regions: seq<set<Chunk>>, helper: set<Chunk> -> nat)
    requires forall i :: 0 <= i < |regions| ==> regions[i] != {} && helper(regions[i]) <= 1
    ensures |PolygonsFor(regions, helper)| == |regions|
    ensures forall i :: 0 <= i < |regions| ==> OfRegion(PolygonsFor(regions, helper)[i], regions[i])
  {
    if regions != [] {
      var n := |regions|;
      var init := regions[..n - 1];
      var front := PolygonsFor(init, helper);
      var last := RegionPolygons(regions[n - 1], helper(regions[n - 1]));
      var all := PolygonsFor(regions, helper);
      assert all == front + last;
      PolygonsMatchRegions(init, helper);
      assert |last| == 1 && OfRegion(last[0], regions[n - 1]) by {
        SingleRegionPolygon(regions[n - 1], helper(regions[n - 1]));
      }
      forall i | 0 <= i < n ensures OfRegion(all[i], regions[i]) {
        if i < n - 1 {
          assert all[i] == front[i] && init[i] == regions[i];
        } else {
          assert all[i] == last[0];
        }
      }
    }
  }

  /** A non-empty region with at most one helper polygon contributes exactly one polygon of its own. */
  lemma SingleRegionPolygon(region: set<Chunk>, count: nat)
    requires region != {} && count <= 1
    ensures |RegionPolygons(region, count)| == 1 && OfRegion(RegionPolygons(region, count)[0], region)
  {
  }

  /**
   * `buildPolygonsUsingJourneyMapHelper` after the largest-first split: the
   * helper's polygons of each region, or that region's fallback polygon.
   * `helper(r)` is the number of polygons the host's helper returns for `r`.
   */
  method BuildPolygons(regions: seq<set<Chunk>>, helper: set<Chunk> -> nat) returns (polygons: seq<Polygon>)
    ensures polygons == PolygonsFor(regions, helper)
  {
    polygons := [];
    for i := 0 to |regions|
      invariant polygons == PolygonsFor(regions[..i], helper)
    {
      assert regions[..i + 1][..i] == regions[..i];
      var count := helper(regions[i]);
      if count > 0 {
        polygons := polygons + seq(count, k requires 0 <= k < count => Traced(regions[i], k));
      } else {
        var fallback := LabelAnchors.FallbackPolygon(regions[i]);
        if fallback.Some? {
          polygons := polygons + [Outline(fallback.value)];
        }
      }
    }
    assert regions[..|regions|] == regions;
  }

  // ---------------------------------------------------------------------------
  // Naming

  /** The overlay id of polygon `i` of `count`: the faction id alone, or `id + "_region_" + i`. */
  function OverlayId(factionId: string, count: nat, i: nat): (id: string)
  {
    if count > 1 then factionId + "_region_" + NatToString(i) else factionId
  }

  /** The id of a label-only overlay: `overlayId + "_label"`. */
  function LabelId(overlayId: string): (id: string)
  {
    overlayId + "_label"
  }

  /** A label's text: the display name, numbered `" #" + (i + 1)` when there are several polygons. */
  function LabelText(displayName: string, count: nat, i: nat): (text: string)
  {
    if count > 1 then displayName + " #" + NatToString(i + 1) else displayName
  }

  /** Both ids of a polygon begin with the faction id. */
  lemma IdsStartWithFactionId(factionId: string, count: nat, i: nat)
    ensures StartsWith(OverlayId(factionId, count, i), factionId)
    ensures StartsWith(LabelId(OverlayId(factionId, count, i)), factionId)
    ensures OverlayId(factionId, count, i) == factionId <==> count <= 1
  {
    var id := OverlayId(factionId, count, i);
    assert id[..|factionId|] == factionId;
    assert LabelId(id)[..|factionId|] == factionId;
    if count > 1 {
      assert |id| > |factionId|;
    }
  }

  /** A label shows the display name, numbered exactly when the faction has several polygons. */
  lemma LabelTextNamed(displayName: string, count: nat, i: nat)
    ensures StartsWith(LabelText(displayName, count, i), displayName)
    ensures LabelText(displayName, count, i) == displayName <==> count <= 1
  {
    var text := LabelText(displayName, count, i);
    assert text[..|displayName|] == displayName;
    if count > 1 {
      assert |text| > |displayName|;
    }
  }

  /** Different polygons of one faction get different overlay ids. */
  lemma OverlayIdsDistinct(factionId: string, count: nat, i: nat, j: nat)
    requires i < count && j < count && i != j
    ensures OverlayId(factionId, count, i) != OverlayId(factionId, count, j)
  {
    var prefix := factionId + "_region_";
    var a, b := prefix + NatToString(i), prefix + NatToString(j);
    if a == b {
      assert a[|prefix|..] == NatToString(i) && b[|prefix|..] == NatToString(j);
      NatToStringInjective(i, j);
    }
  }

  /** No label id of a faction's overlays coincides with one of its overlay ids. */
  lemma LabelIdsApart(factionId: string, count: nat, i: nat, j: nat)
    ensures LabelId(OverlayId(factionId, count, i)) != OverlayId(factionId, count, j)
  {
    var labelId := LabelId(OverlayId(factionId, count, i));
    var overlay := OverlayId(factionId, count, j);
    if count > 1 {
      // the label ends in 'l', the overlay id in a digit
      var digits := NatToString(j);
      assert overlay[|overlay| - 1] == digits[|digits| - 1];
      assert labelId[|labelId| - 1] == 'l';
    } else {
      assert |labelId| > |overlay|;
    }
  }

  /** Label ids of different polygons differ. */
  lemma LabelIdsDistinct(factionId: string, count: nat, i: nat, j: nat)
    requires i < count && j < count && i != j
    ensures LabelId(OverlayId(factionId, count, i)) != LabelId(OverlayId(factionId, count, j))
  {
    var a, b := OverlayId(factionId, count, i), OverlayId(factionId, count, j);
    OverlayIdsDistinct(factionId, count, i, j);
    assert LabelId(a)[..|a|] == a && LabelId(b)[..|b|] == b;
  }

  // ---------------------------------------------------------------------------
  // Label anchors

  /** The region a label is anchored in: region `i` when it exists, else all visible chunks. */
  function AnchorRegion(regions: seq<set<Chunk>>, visible: set<Chunk>, i: nat): (region: set<Chunk>)
    ensures i < |regions| ==> region == regions[i]
    ensures i >= |regions| ==> region == visible
  {
    if i < |regions| then regions[i] else visible
  }

  /** Over a partition of a non-empty set, the anchor region is never empty and never leaves the set. */
  lemma AnchorRegionWithin(regions: seq<set<Chunk>>, visible: set<Chunk>, i: nat)
    requires visible != {} && IsPartition(regions, visible)
    ensures AnchorRegion(regions, visible, i) != {} && AnchorRegion(regions, visible, i) <= visible
  {
  }

  /** What each anchor mode promises of the anchor of a non-empty region. */
  ghost predicate AnchorFits(mode: LabelAnchorMode, region: set<Chunk>, anchor: BlockPos) {
    match mode
    case HullCentroid => region != {} && anchor == LabelAnchors.HullCentroid(region)
    case FirstChunkCenter => exists c :: c in region && anchor == LabelAnchors.ChunkCenter(c)
    case FarthestInteriorChunk => exists c :: LabelAnchors.FarthestFromEdge(region, c) && anchor == LabelAnchors.ChunkCenter(c)
  }

  /** Whatever the mode, the anchor is at label height inside the region's chunk extents. */
  lemma AnchorWithinExtents(mode: LabelAnchorMode, region: set<Chunk>, anchor: BlockPos)
    requires AnchorFits(mode, region, anchor)
    ensures region != {} && anchor.y == LabelAnchors.LabelY
    ensures MinX(region) <= anchor.x / ChunkSize <= MaxX(region)
    ensures MinZ(region) <= anchor.z / ChunkSize <= MaxZ(region)
  {
    match mode
    case HullCentroid =>
      LabelAnchors.HullCentroidInChunkBox(region);
    case FirstChunkCenter =>
      var c :| c in region && anchor == LabelAnchors.ChunkCenter(c);
      assert anchor.x / ChunkSize == c.x && anchor.z / ChunkSize == c.z;
    case FarthestInteriorChunk =>
      var c :| LabelAnchors.FarthestFromEdge(region, c) && anchor == LabelAnchors.ChunkCenter(c);
      assert anchor.x / ChunkSize == c.x && anchor.z / ChunkSize == c.z;
  }

  /** Anchor `j` fits its anchor region for every `j`. */
  ghost predicate AnchorsFit(mode: LabelAnchorMode, regions: seq<set<Chunk>>, visible: set<Chunk>, anchors: seq<BlockPos>) {
    forall j :: 0 <= j < |anchors| ==> AnchorFits(mode, AnchorRegion(regions, visible, j), anchors[j])
  }

  lemma AnchorsFitExtended(mode: LabelAnchorMode, regions: seq<set<Chunk>>, visible: set<Chunk>, anchors: seq<BlockPos>, anchor: BlockPos)
    requires AnchorsFit(mode, regions, visible, anchors)
    requires AnchorFits(mode, AnchorRegion(regions, visible, |anchors|), anchor)
    ensures AnchorsFit(mode, regions, visible, anchors + [anchor])
  {
    var ext := anchors + [anchor];
    forall j | 0 <= j < |ext| ensures AnchorFits(mode, AnchorRegion(regions, visible, j), ext[j]) {
      if j < |anchors| {
        assert ext[j] == anchors[j];
      }
    }
  }

  /** The anchor switch of `createOrUpdateFactionOverlay`. */
  method ChooseAnchor(mode: LabelAnchorMode, region: set<Chunk>) returns (anchor: BlockPos)
    requires region != {} && ChunksInt32(region)
    ensures AnchorFits(mode, region, anchor)
  {
    match mode
    case HullCentroid =>
      anchor := LabelAnchors.ComputeHullCentroid(region);
    case FirstChunkCenter =>
      // `region.iterator().next()`: some chunk, in hash order
      var first :| first in region;
      anchor := LabelAnchors.ChunkCenter(first);
    case FarthestInteriorChunk =>
      var found, _ := LabelAnchors.ComputeInteriorLabelAnchor(region);
      if found.None? {
        // a non-empty region always has an anchor
        assert false;
      }
      anchor := found.value;
  }

  // ---------------------------------------------------------------------------
  // The entries one faction puts into the table

  /**
   * The entries polygon `i` of `count` is stored under: the territory overlay
   * under its overlay id and, with separate labels, the label square around
   * `anchor` under its label id.
   */
  function PolygonEntries(factionId: string, displayName: string, count: nat, i: nat, polygon: Polygon, anchor: BlockPos,
                          separate: bool): (m: map<string, Overlay>)
    ensures forall k :: k in m <==> k == OverlayId(factionId, count, i) || (separate && k == LabelId(OverlayId(factionId, count, i)))
  {
    var id := OverlayId(factionId, count, i);
    var text := LabelText(displayName, count, i);
    if separate then map[id := Territory(polygon, None), LabelId(id) := LabelOnly(LabelAnchors.LabelSquare(anchor), text)]
    else map[id := Territory(polygon, Some(text))]
  }

  /** The entries written for the first `n` polygons. */
  function FactionEntries(factionId: string, displayName: string, polygons: seq<Polygon>, anchors: seq<BlockPos>,
                          separate: bool, n: nat): map<string, Overlay>
    requires n <= |polygons| && |anchors| == |polygons|
  {
    if n == 0 then map[]
    else
      FactionEntries(factionId, displayName, polygons, anchors, separate, n - 1)
      + PolygonEntries(factionId, displayName, |polygons|, n - 1, polygons[n - 1], anchors[n - 1], separate)
  }

  /** The keys written: the overlay id of each polygon, plus its label id when labels are separate. */
  lemma {:induction false} FactionEntriesKeys(factionId: string, displayName: string, polygons: seq<Polygon>, anchors: seq<BlockPos>,
                                              separate: bool, n: nat)
    requires n <= |polygons| && |anchors| == |polygons|
    ensures forall k :: k in FactionEntries(factionId, displayName, polygons, anchors, separate, n) <==>
      exists i :: 0 <= i < n && (k == OverlayId(factionId, |polygons|, i) || (separate && k == LabelId(OverlayId(factionId, |polygons|, i))))
  {
    if n > 0 {
      FactionEntriesKeys(factionId, displayName, polygons, anchors, separate, n - 1);
    }
  }

  /** The keys of polygon `i` are not among those of a different polygon `j`. */
  lemma PolygonKeysApart(factionId: string, displayName: string, count: nat, i: nat, j: nat, polygon: Polygon, anchor: BlockPos, separate: bool)
    requires i < count && j < count && i != j
    ensures OverlayId(factionId, count, i) !in PolygonEntries(factionId, displayName, count, j, polygon, anchor, separate)
    ensures LabelId(OverlayId(factionId, count, i)) !in PolygonEntries(factionId, displayName, count, j, polygon, anchor, separate)
  {
    OverlayIdsDistinct(factionId, count, i, j);
    LabelIdsApart(factionId, count, j, i);
    LabelIdsApart(factionId, count, i, j);
    LabelIdsDistinct(factionId, count, i, j);
  }

  /** Polygon `i`'s territory overlay is stored under its overlay id; no later entry overwrites it. */
  lemma {:induction false} TerritoryStored(factionId: string, displayName: string, polygons: seq<Polygon>, anchors: seq<BlockPos>,
                                           separate: bool, n: nat, i: nat)
    requires n <= |polygons| && |anchors| == |polygons| && i < n
    ensures OverlayId(factionId, |polygons|, i) in FactionEntries(factionId, displayName, polygons, anchors, separate, n)
    ensures FactionEntries(factionId, displayName, polygons, anchors, separate, n)[OverlayId(factionId, |polygons|, i)]
      == Territory(polygons[i], if separate then None else Some(LabelText(displayName, |polygons|, i)))
  {
    var key := OverlayId(factionId, |polygons|, i);
    var prev := FactionEntries(factionId, displayName, polygons, anchors, separate, n - 1);
    var last := PolygonEntries(factionId, displayName, |polygons|, n - 1, polygons[n - 1], anchors[n - 1], separate);
    assert FactionEntries(factionId, displayName, polygons, anchors, separate, n) == prev + last;
    if i < n - 1 {
      TerritoryStored(factionId, displayName, polygons, anchors, separate, n - 1, i);
      PolygonKeysApart(factionId, displayName, |polygons|, i, n - 1, polygons[n - 1], anchors[n - 1], separate);
    } else {
      PolygonEntriesAt(factionId, displayName, |polygons|, i, polygons[i], anchors[i], separate);
    }
    UnionLookup(prev, last, key);
  }

  /** With separate labels, polygon `i`'s label square and text are stored under its label id. */
  lemma {:induction false} LabelStored(factionId: string, displayName: string, polygons: seq<Polygon>, anchors: seq<BlockPos>,
                                       n: nat, i: nat)
    requires n <= |polygons| && |anchors| == |polygons| && i < n
    ensures LabelId(OverlayId(factionId, |polygons|, i)) in FactionEntries(factionId, displayName, polygons, anchors, true, n)
    ensures FactionEntries(factionId, displayName, polygons, anchors, true, n)[LabelId(OverlayId(factionId, |polygons|, i))]
      == LabelOnly(LabelAnchors.LabelSquare(anchors[i]), LabelText(displayName, |polygons|, i))
  {
    var key := LabelId(OverlayId(factionId, |polygons|, i));
    var prev := FactionEntries(factionId, displayName, polygons, anchors, true, n - 1);
    var last := PolygonEntries(factionId, displayName, |polygons|, n - 1, polygons[n - 1], anchors[n - 1], true);
    assert FactionEntries(factionId, displayName, polygons, anchors, true, n) == prev + last;
    if i < n - 1 {
      LabelStored(factionId, displayName, polygons, anchors, n - 1, i);
      PolygonKeysApart(factionId, displayName, |polygons|, i, n - 1, polygons[n - 1], anchors[n - 1], true);
    } else {
      PolygonEntriesAt(factionId, displayName, |polygons|, i, polygons[i], anchors[i], true);
    }
    UnionLookup(prev, last, key);
  }

  /** The entries of one polygon hold its territory overlay, and with separate labels its label overlay. */
  lemma PolygonEntriesAt(factionId: string, displayName: string, count: nat, i: nat, polygon: Polygon, anchor: BlockPos,
                         separate: bool)
    ensures OverlayId(factionId, count, i) in PolygonEntries(factionId, displayName, count, i, polygon, anchor, separate)
    ensures PolygonEntries(factionId, displayName, count, i, polygon, anchor, separate)[OverlayId(factionId, count, i)]
      == Territory(polygon, if separate then None else Some(LabelText(displayName, count, i)))
    ensures separate ==>
      LabelId(OverlayId(factionId, count, i)) in PolygonEntries(factionId, displayName, count, i, polygon, anchor, separate) &&
      PolygonEntries(factionId, displayName, count, i, polygon, anchor, separate)[LabelId(OverlayId(factionId, count, i))]
        == LabelOnly(LabelAnchors.LabelSquare(anchor), LabelText(displayName, count, i))
  {
    LabelIdsApart(factionId, count, i, i);
  }

  /** A lookup in a union answers from the right-hand map when the key is there, else from the left. */
  lemma UnionLookup(a: map<string, Overlay>, b: map<string, Overlay>, k: string)
    ensures k in b ==> k in a + b && (a + b)[k] == b[k]
    ensures k !in b && k in a ==> k in a + b && (a + b)[k] == a[k]
  {
  }

  /** Every key a faction writes contains its id, so the faction-id pruning catches all of them. */
  lemma {:induction false} FactionEntriesMentionFaction(factionId: string, displayName: string, polygons: seq<Polygon>, anchors: seq<BlockPos>,
                                                        separate: bool, n: nat)
    requires n <= |polygons| && |anchors| == |polygons|
    ensures forall k :: k in FactionEntries(factionId, displayName, polygons, anchors, separate, n) ==> Contains(k, factionId)
  {
    FactionEntriesKeys(factionId, displayName, polygons, anchors, separate, n);
    forall k | k in FactionEntries(factionId, displayName, polygons, anchors, separate, n) ensures Contains(k, factionId) {
      var i :| 0 <= i < n && (k == OverlayId(factionId, |polygons|, i) || (separate && k == LabelId(OverlayId(factionId, |polygons|, i))));
      IdsStartWithFactionId(factionId, |polygons|, i);
      StartsWithContains(k, factionId);
    }
  }

  // ---------------------------------------------------------------------------
  // Pruning by faction id

  /**
   * The match of `completelyRemoveFactionOverlays`' first pass: the id itself,
   * a key starting with `id + "_"`, or any key containing the id.
   */
  predicate RemovalMatch(key: string, factionId: string) {
    key == factionId || StartsWith(key, factionId + "_") || Contains(key, factionId)
  }

  /** The three-way match is just `contains`: the first two tests add nothing. */
  lemma RemovalMatchIsContains(key: string, factionId: string)
    ensures RemovalMatch(key, factionId) <==> Contains(key, factionId)
  {
    if StartsWith(key, factionId + "_") {
      assert key[..|factionId|] == (factionId + "_")[..|factionId|];
      StartsWithContains(key, factionId);
    }
    if key == factionId {
      assert StartsWith(key, factionId);
    }
  }

  /** The table without every key that contains the faction id. */
  function Pruned(overlays: map<string, Overlay>, factionId: string): (m: map<string, Overlay>)
    ensures forall k :: k in m <==> k in overlays && !Contains(k, factionId)
    ensures forall k :: k in m ==> m[k] == overlays[k]
  {
    map k | k in overlays && !Contains(k, factionId) :: overlays[k]
  }

  /**
   * Pruning is indiscriminate: it also drops other factions' overlays whose
   * ids merely contain this one (removing faction `"red"` drops `"redstone_label"`).
   */
  lemma PruningReachesOtherFactions(overlay: Overlay)
    ensures "redstone_label" !in Pruned(map["redstone_label" := overlay], "red")
  {
    assert StartsWith("redstone_label", "red");
  }

  /** After a faction's entries are written, pruning by its id leaves what pruning left before. */
  lemma PruneAfterWrite(overlays: map<string, Overlay>, factionId: string, displayName: string, polygons: seq<Polygon>,
                        anchors: seq<BlockPos>, separate: bool)
    requires |anchors| == |polygons|
    ensures Pruned(overlays + FactionEntries(factionId, displayName, polygons, anchors, separate, |polygons|), factionId)
         == Pruned(overlays, factionId)
  {
    FactionEntriesMentionFaction(factionId, displayName, polygons, anchors, separate, |polygons|);
  }

  /**
   * After a refresh (prune, then write) the faction's keys are exactly the
   * freshly written ones: no stale overlay of it survives.
   */
  lemma RefreshLeavesNoStaleOverlay(overlays: map<string, Overlay>, factionId: string, displayName: string, polygons: seq<Polygon>,
                                    anchors: seq<BlockPos>, separate: bool)
    requires |anchors| == |polygons|
    ensures var entries := FactionEntries(factionId, displayName, polygons, anchors, separate, |polygons|);
      forall k :: k in Pruned(overlays, factionId) + entries && Contains(k, factionId) ==> k in entries
  {
  }

  // ---------------------------------------------------------------------------
  // The overlay table

  /** `factionOverlays`: overlay id to overlay. */
  class OverlayTable {
    var overlays: map<string, Overlay>

    constructor()
      ensures overlays == map[]
    {
      overlays := map[];
    }

    /** `clearAllOverlays`: every overlay is removed. */
    method ClearAllOverlays()
      modifies this
      ensures overlays == map[]
    {
      overlays := map[];
    }

    /**
     * `completelyRemoveFactionOverlays`: collect the matching keys, remove
     * them, then force-remove any remaining key that contains the id.
     */
    method CompletelyRemoveFactionOverlays(factionId: string)
      modifies this
      ensures overlays == Pruned(old(overlays), factionId)
    {
      var toRemove: set<string> := {};
      var keys := overlays.Keys;
      while keys != {}
        invariant keys <= overlays.Keys
        invariant forall k :: k in toRemove <==> k in overlays && k !in keys && RemovalMatch(k, factionId)
      {
        var k :| k in keys;
        keys := keys - {k};
        if RemovalMatch(k, factionId) {
          toRemove := toRemove + {k};
        }
      }
      var pending := toRemove;
      while pending != {}
        invariant pending <= toRemove
        invariant forall k :: k in overlays <==> k in old(overlays) && (k !in toRemove || k in pending)
        invariant forall k :: k in overlays ==> overlays[k] == old(overlays)[k]
      {
        var k :| k in pending;
        pending := pending - {k};
        if k in overlays {
          overlays := overlays - {k};
        }
      }
      ForceRemoveContaining(factionId);
      forall k ensures k in overlays <==> k in old(overlays) && !Contains(k, factionId) {
        RemovalMatchIsContains(k, factionId);
      }
    }

    /** The force pass of `completelyRemoveFactionOverlays`: every key containing the id is dropped. */
    method ForceRemoveContaining(factionId: string)
      modifies this
      ensures overlays == Pruned(old(overlays), factionId)
    {
      var rest := overlays.Keys;
      while rest != {}
        invariant rest <= overlays.Keys
        invariant forall k :: k in overlays <==> k in old(overlays) && (k in rest || !Contains(k, factionId))
        invariant forall k :: k in overlays ==> overlays[k] == old(overlays)[k]
      {
        var k :| k in rest;
        rest := rest - {k};
        if Contains(k, factionId) {
          overlays := overlays - {k};
        }
      }
    }

    /**
     * `createOrUpdateFactionOverlay` on the visible part (claimed and
     * discovered) of a faction's territory: nothing when it is empty;
     * otherwise its largest-first regions give the polygons, each stored
     * under its overlay id, with a label overlay beside it when labels are
     * separate. The ghost results name the choices hash order makes.
     */
    method CreateOrUpdateFactionOverlay(factionId: string, displayName: string, claimed: set<Chunk>, discovered: set<Chunk>,
                                        config: OverlayConfig, helper: set<Chunk> -> nat)
      returns (ghost regions: seq<set<Chunk>>, ghost polygons: seq<Polygon>, ghost anchors: seq<BlockPos>)
      requires ChunksInt32(claimed)
      modifies this
      ensures claimed * discovered == {} ==> overlays == old(overlays)
      ensures claimed * discovered != {} ==>
        IsPartition(regions, claimed * discovered) && Regions.SizeDescending(regions) &&
        polygons == PolygonsFor(regions, helper) && |anchors| == |polygons| &&
        (config.separateLabelOverlay ==> AnchorsFit(config.labelAnchorMode, regions, claimed * discovered, anchors)) &&
        overlays == old(overlays) + FactionEntries(factionId, displayName, polygons, anchors, config.separateLabelOverlay, |polygons|)
    {
      regions, polygons, anchors := [], [], [];
      if claimed == {} {
        return;
      }
      var visible := claimed * discovered;
      if visible == {} {
        return;
      }
      var sorted := Regions.SortedConnectedRegions(visible);
      var built := BuildPolygons(sorted, helper);
      regions, polygons := sorted, built;
      forall i | 0 <= i < |sorted| ensures sorted[i] != {} {
        assert IsComponent(sorted[i], visible);
      }
      PolygonsCoverRegions(sorted, helper);
      if built == [] {
        // a non-empty territory always yields a polygon
        assert false;
      }
      anchors := WriteFactionEntries(factionId, displayName, sorted, visible, built, config);
    }

    /**
     * The loop of `createOrUpdateFactionOverlay` over the polygons: each is
     * stored under its overlay id, and with separate labels its label overlay,
     * anchored in its region, under the label id.
     */
    method WriteFactionEntries(factionId: string, displayName: string, regions: seq<set<Chunk>>, visible: set<Chunk>,
                               polygons: seq<Polygon>, config: OverlayConfig)
      returns (ghost anchors: seq<BlockPos>)
      requires visible != {} && IsPartition(regions, visible) && ChunksInt32(visible)
      modifies this
      ensures |anchors| == |polygons|
      ensures config.separateLabelOverlay ==> AnchorsFit(config.labelAnchorMode, regions, visible, anchors)
      ensures overlays == old(overlays) + FactionEntries(factionId, displayName, polygons, anchors, config.separateLabelOverlay, |polygons|)
    {
      var count := |polygons|;
      anchors := [];
      for i := 0 to count
        invariant |anchors| == i
        invariant config.separateLabelOverlay ==> AnchorsFit(config.labelAnchorMode, regions, visible, anchors)
        invariant overlays == old(overlays) + FactionEntries(factionId, displayName, polygons, anchors + Padding(count - i), config.separateLabelOverlay, i)
      {
        var anchor := EntryAnchor(config, regions, visible, i);
        if config.separateLabelOverlay {
          AnchorsFitExtended(config.labelAnchorMode, regions, visible, anchors, anchor);
        }
        PutPolygonEntries(factionId, displayName, count, i, polygons[i], anchor, config.separateLabelOverlay);
        EntriesStep(old(overlays), factionId, displayName, polygons, anchors, anchor, config.separateLabelOverlay, i);
        anchors := anchors + [anchor];
      }
      assert anchors + Padding(0) == anchors;
    }

    /**
     * The anchor of polygon `i`'s label: chosen by the configured mode in its
     * anchor region when labels are separate (otherwise never read).
     */
    method EntryAnchor(config: OverlayConfig, regions: seq<set<Chunk>>, visible: set<Chunk>, i: nat) returns (anchor: BlockPos)
      requires visible != {} && IsPartition(regions, visible) && ChunksInt32(visible)
      ensures config.separateLabelOverlay ==> AnchorFits(config.labelAnchorMode, AnchorRegion(regions, visible, i), anchor)
    {
      anchor := BlockPos(0, LabelAnchors.LabelY, 0);
      if config.separateLabelOverlay {
        var region := AnchorRegion(regions, visible, i);
        AnchorRegionWithin(regions, visible, i);
        anchor := ChooseAnchor(config.labelAnchorMode, region);
      }
    }

    /**
     * The two `put`s for polygon `i`: its territory overlay under its overlay
     * id, with the label text built in unless labels are separate, and then
     * the separate label overlay under the label id.
     */
    method PutPolygonEntries(factionId: string, displayName: string, count: nat, i: nat, polygon: Polygon, anchor: BlockPos,
                             separate: bool)
      modifies this
      ensures overlays == old(overlays) + PolygonEntries(factionId, displayName, count, i, polygon, anchor, separate)
    {
      var overlayId := OverlayId(factionId, count, i);
      var text := LabelText(displayName, count, i);
      var territory := Territory(polygon, if separate then None else Some(text));
      overlays := overlays[overlayId := territory];
      if separate {
        var labelOverlay := LabelOnly(LabelAnchors.LabelSquare(anchor), text);
        overlays := overlays[LabelId(overlayId) := labelOverlay];
        LabelIdsApart(factionId, count, i, i);
        PutsAreUnion(old(overlays), overlayId, territory, LabelId(overlayId), labelOverlay);
      } else {
        PutIsUnion(old(overlays), overlayId, territory);
      }
    }

    /**
     * `completelyRefreshFaction` (and `onFactionUpdated`, which prunes alone
     * when no chunk is claimed): prune the faction's overlays, then draw it
     * again when it claims chunks. The 100 ms pause is not modelled.
     */
    method CompletelyRefreshFaction(factionId: string, displayName: string, claimed: set<Chunk>, discovered: set<Chunk>,
                                    config: OverlayConfig, helper: set<Chunk> -> nat)
      returns (ghost regions: seq<set<Chunk>>, ghost polygons: seq<Polygon>, ghost anchors: seq<BlockPos>)
      requires ChunksInt32(claimed)
      modifies this
      ensures claimed * discovered == {} ==> overlays == Pruned(old(overlays), factionId)
      ensures claimed * discovered != {} ==>
        IsPartition(regions, claimed * discovered) && Regions.SizeDescending(regions) &&
        polygons == PolygonsFor(regions, helper) && |anchors| == |polygons| &&
        (config.separateLabelOverlay ==> AnchorsFit(config.labelAnchorMode, regions, claimed * discovered, anchors)) &&
        overlays == Pruned(old(overlays), factionId) + FactionEntries(factionId, displayName, polygons, anchors, config.separateLabelOverlay, |polygons|)
    {
      CompletelyRemoveFactionOverlays(factionId);
      regions, polygons, anchors := [], [], [];
      if claimed != {} {
        regions, polygons, anchors := CreateOrUpdateFactionOverlay(factionId, displayName, claimed, discovered, config, helper);
      }
    }
  }

  /** Placeholder anchors for the polygons not yet visited (never read by the entries written so far). */
  function Padding(n: nat): (ps: seq<BlockPos>)
    ensures |ps| == n
  {
    seq(n, _ => BlockPos(0, LabelAnchors.LabelY, 0))
  }

  /** The entries for the first `i` polygons read only the first `i` anchors. */
  lemma {:induction false} EntriesPrefix(factionId: string, displayName: string, polygons: seq<Polygon>, a: seq<BlockPos>, b: seq<BlockPos>,
                                         separate: bool, i: nat)
    requires i <= |polygons| && |a| == |polygons| && |b| == |polygons|
    requires forall j :: 0 <= j < i ==> a[j] == b[j]
    ensures FactionEntries(factionId, displayName, polygons, a, separate, i) == FactionEntries(factionId, displayName, polygons, b, separate, i)
  {
    if i > 0 {
      EntriesPrefix(factionId, displayName, polygons, a, b, separate, i - 1);
    }
  }

  /** Extending the first `i` anchors by one keeps the entries' shape: the next polygon's entries are added. */
  lemma EntriesPaddingIrrelevant(factionId: string, displayName: string, polygons: seq<Polygon>, chosen: seq<BlockPos>, anchor: BlockPos,
                                 separate: bool, i: nat, count: nat)
    requires count == |polygons| && i < count && |chosen| == i
    ensures FactionEntries(factionId, displayName, polygons, chosen + [anchor] + Padding(count - i - 1), separate, i + 1) ==
      FactionEntries(factionId, displayName, polygons, chosen + Padding(count - i), separate, i)
      + PolygonEntries(factionId, displayName, count, i, polygons[i], anchor, separate)
  {
    var before := chosen + Padding(count - i);
    var after := chosen + [anchor] + Padding(count - i - 1);
    EntriesPrefix(factionId, displayName, polygons, before, after, separate, i);
    assert after[i] == anchor;
  }

  /** One pass of the write loop: polygon `i`'s entries, added to the table, extend the written prefix by one. */
  lemma EntriesStep(base: map<string, Overlay>, factionId: string, displayName: string, polygons: seq<Polygon>,
                    chosen: seq<BlockPos>, anchor: BlockPos, separate: bool, i: nat)
    requires i < |polygons| && |chosen| == i
    ensures base + FactionEntries(factionId, displayName, polygons, chosen + Padding(|polygons| - i), separate, i)
              + PolygonEntries(factionId, displayName, |polygons|, i, polygons[i], anchor, separate)
            == base + FactionEntries(factionId, displayName, polygons, chosen + [anchor] + Padding(|polygons| - (i + 1)), separate, i + 1)
  {
    var written := FactionEntries(factionId, displayName, polygons, chosen + Padding(|polygons| - i), separate, i);
    var entries := PolygonEntries(factionId, displayName, |polygons|, i, polygons[i], anchor, separate);
    UnionAssociative(base, written, entries);
    EntriesPaddingIrrelevant(factionId, displayName, polygons, chosen, anchor, separate, i, |polygons|);
  }

  /** A `put` adds a one-entry map to the table. */
  lemma PutIsUnion(base: map<string, Overlay>, id: string, v: Overlay)
    ensures base[id := v] == base + map[id := v]
  {
  }

  /** Two `put`s under different keys add a two-entry map to the table. */
  lemma PutsAreUnion(base: map<string, Overlay>, id: string, v: Overlay, labelId: string, l: Overlay)
    requires id != labelId
    ensures base[id := v][labelId := l] == base + map[id := v, labelId := l]
  {
  }

  /** Map union is associative. */
  lemma UnionAssociative(a: map<string, Overlay>, b: map<string, Overlay>, c: map<string, Overlay>)
    ensures (a + b) + c == a + (b + c)
  {
  }
}
