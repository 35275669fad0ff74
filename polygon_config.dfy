/**
 * `PolygonConfig.getPolygonMethod`: which outline method a region of a given
 * chunk count gets, from the configuration constants.
 */
module PolygonConfig {

  datatype PolygonMethod = Simple | RectangleDetection | Advanced | BoundingRectangle

  const UseAdvancedPolygons: bool := true
  const MinChunksForAdvanced: int := 2
  const MaxChunksForPrecise: int := 50
  const DetectRectangles: bool := true
  const MaxChunksForRectangleDetection: int := 20

  /** The decision chain, for any setting of the two switches. */
  function MethodFor(useAdvanced: bool, detectRectangles: bool, chunkCount: int): PolygonMethod {
    if !useAdvanced then Simple
    else if chunkCount < MinChunksForAdvanced then Simple
    else if chunkCount > MaxChunksForPrecise then BoundingRectangle
    else if detectRectangles && chunkCount <= MaxChunksForRectangleDetection then RectangleDetection
    else Advanced
  }

  /** `getPolygonMethod` under the shipped configuration: the four count bands. */
  function GetPolygonMethod(chunkCount: int): (m: PolygonMethod)
    ensures chunkCount < 2 <==> m == Simple
    ensures 2 <= chunkCount <= 20 <==> m == RectangleDetection
    ensures 21 <= chunkCount <= 50 <==> m == Advanced
    ensures chunkCount > 50 <==> m == BoundingRectangle
  {
    MethodFor(UseAdvancedPolygons, DetectRectangles, chunkCount)
  }

  /** With the advanced builder switched off, every count gets the simple method. */
  lemma DisabledAlwaysSimple(detectRectangles: bool, chunkCount: int)
    ensures MethodFor(false, detectRectangles, chunkCount) == Simple
  {
  }

  /** With rectangle detection switched off, the band it would take goes to the advanced builder. */
  lemma NoDetectionMeansAdvanced(chunkCount: int)
    ensures MethodFor(true, false, chunkCount) != RectangleDetection
    ensures 2 <= chunkCount <= 50 <==> MethodFor(true, false, chunkCount) == Advanced
  {
  }

  /** The position of each method's band, from the smallest chunk counts to the largest. */
  function Rank(m: PolygonMethod): nat {
    match m
    case Simple => 0
    case RectangleDetection => 1
    case Advanced => 2
    case BoundingRectangle => 3
  }

  /** The chosen method only moves along the bands as the chunk count grows. */
  lemma MethodMonotone(a: int, b: int)
    requires a <= b
    ensures Rank(GetPolygonMethod(a)) <= Rank(GetPolygonMethod(b))
  {
  }
}
