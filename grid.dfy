/**
 * Shared data model of the territory geometry: chunk coordinates, world block
 * positions, 4-adjacency, walks, connectivity, partitions, bounding extents and
 * Java's truncating integer division.
 */
module Grid {

  datatype Option<T> = None | Some(value: T)

  /** A chunk coordinate (Minecraft `ChunkPos`): one 16x16-block grid cell. */
  datatype Chunk = Chunk(x: int, z: int)

  /** A world block position (Minecraft `BlockPos`). */
  datatype BlockPos = BlockPos(x: int, y: int, z: int)

  /** Side of a chunk in world blocks. */
  const ChunkSize: int := 16

  const IntMin: int := -0x8000_0000
  const IntMax: int := 0x7fff_ffff

  /** The value fits in a Java `int`. */
  predicate IsInt32(v: int) {
    IntMin <= v <= IntMax
  }

  /** Every chunk coordinate of the set fits in a Java `int` (as `ChunkPos` fields do). */
  predicate ChunksInt32(s: set<Chunk>) {
    forall c :: c in s ==> IsInt32(c.x) && IsInt32(c.z)
  }

  /** The four orthogonal neighbours, in the order the source lists them: east, west, south, north. */
  function Neighbours(c: Chunk): (ns: seq<Chunk>)
    ensures |ns| == 4
    ensures forall n :: n in ns <==> Adjacent(c, n)
  {
    [Chunk(c.x + 1, c.z), Chunk(c.x - 1, c.z), Chunk(c.x, c.z + 1), Chunk(c.x, c.z - 1)]
  }

  /** 4-adjacency: the chunks share a side. */
  predicate Adjacent(a: Chunk, b: Chunk) {
    (a.z == b.z && (a.x - b.x == 1 || b.x - a.x == 1)) ||
    (a.x == b.x && (a.z - b.z == 1 || b.z - a.z == 1))
  }

  lemma AdjacentSymmetric(a: Chunk, b: Chunk)
    ensures Adjacent(a, b) <==> Adjacent(b, a)
  {
  }

  /** `p` is a non-empty walk of 4-adjacent steps that stays inside `s`. */
  ghost predicate IsWalk(p: seq<Chunk>, s: set<Chunk>) {
    |p| > 0 &&
    (forall i :: 0 <= i < |p| ==> p[i] in s) &&
    (forall i :: 0 < i < |p| ==> Adjacent(p[i - 1], p[i]))
  }

  /** Some walk inside `s` leads from `a` to `b`. */
  ghost predicate Joined(s: set<Chunk>, a: Chunk, b: Chunk) {
    exists p :: IsWalk(p, s) && p[0] == a && p[|p| - 1] == b
  }

  /** Any two chunks of `s` are joined by a walk inside `s` (4-connectivity). */
  ghost predicate Connected(s: set<Chunk>) {
    forall a, b {:trigger Joined(s, a, b)} :: a in s && b in s ==> Joined(s, a, b)
  }

  /** No chunk of `all` outside `s` is 4-adjacent to a chunk of `s`: `s` cannot be grown inside `all`. */
  ghost predicate Closed(s: set<Chunk>, all: set<Chunk>) {
    forall c, n :: c in s && n in all && Adjacent(c, n) ==> n in s
  }

  /** A maximal 4-connected region of `all`. */
  ghost predicate IsComponent(r: set<Chunk>, all: set<Chunk>) {
    r != {} && r <= all && Connected(r) && Closed(r, all)
  }

  /** Union of a list of chunk sets. */
  ghost function UnionAll(rs: seq<set<Chunk>>): set<Chunk> {
    set i, c | 0 <= i < |rs| && c in rs[i] :: c
  }

  /** `rs` splits `all` into pairwise disjoint maximal 4-connected regions. */
  ghost predicate IsPartition(rs: seq<set<Chunk>>, all: set<Chunk>) {
    UnionAll(rs) == all &&
    (forall i, j :: 0 <= i < j < |rs| ==> rs[i] !! rs[j]) &&
    (forall i :: 0 <= i < |rs| ==> IsComponent(rs[i], all))
  }

  lemma WalkReversed(p: seq<Chunk>, s: set<Chunk>) returns (q: seq<Chunk>)
    requires IsWalk(p, s)
    ensures IsWalk(q, s) && q[0] == p[|p| - 1] && q[|q| - 1] == p[0]
  {
    q := seq(|p|, i requires 0 <= i < |p| => p[|p| - 1 - i]);
    forall i | 0 < i < |q| ensures Adjacent(q[i - 1], q[i]) {
      AdjacentSymmetric(p[|p| - i], p[|p| - 1 - i]);
    }
  }

  lemma WalkJoined(p: seq<Chunk>, q: seq<Chunk>, s: set<Chunk>) returns (r: seq<Chunk>)
    requires IsWalk(p, s) && IsWalk(q, s) && p[|p| - 1] == q[0]
    ensures IsWalk(r, s) && r[0] == p[0] && r[|r| - 1] == q[|q| - 1]
  {
    r := p + q[1..];
    forall i | 0 < i < |r| ensures Adjacent(r[i - 1], r[i]) {
      if i == |p| {
        assert r[i - 1] == q[0] && r[i] == q[1];
      } else if i > |p| {
        assert r[i - 1] == q[i - |p|] && r[i] == q[i - |p| + 1];
      }
    }
  }

  lemma WalkWidened(p: seq<Chunk>, s: set<Chunk>, t: set<Chunk>)
    requires IsWalk(p, s) && s <= t
    ensures IsWalk(p, t)
  {
  }

  /**
   * A set in which every chunk is reached by a walk from one root is connected:
   * any two chunks are joined through the root.
   */
  lemma {:induction false} ConnectedFromRoot(s: set<Chunk>, root: Chunk, walks: map<Chunk, seq<Chunk>>)
    requires forall c :: c in s ==> c in walks && IsWalk(walks[c], s) && walks[c][0] == root && walks[c][|walks[c]| - 1] == c
    ensures Connected(s)
  {
    forall a, b | a in s && b in s ensures Joined(s, a, b) {
      var back := WalkReversed(walks[a], s);
      var p := WalkJoined(back, walks[b], s);
      assert IsWalk(p, s) && p[0] == a && p[|p| - 1] == b;
    }
  }

  // ---------------------------------------------------------------------------
  // Bounding extents of a non-empty chunk set (the stream min/max of the source)

  function MinX(s: set<Chunk>): (m: int)
    requires s != {}
    ensures exists c :: c in s && c.x == m
    ensures forall c :: c in s ==> m <= c.x
  {
    var c :| c in s;
    if s == {c} then c.x
    else
      var rest := MinX(s - {c});
      if c.x < rest then c.x else rest
  }

  function MaxX(s: set<Chunk>): (m: int)
    requires s != {}
    ensures exists c :: c in s && c.x == m
    ensures forall c :: c in s ==> c.x <= m
  {
    var c :| c in s;
    if s == {c} then c.x
    else
      var rest := MaxX(s - {c});
      if c.x > rest then c.x else rest
  }

  function MinZ(s: set<Chunk>): (m: int)
    requires s != {}
    ensures exists c :: c in s && c.z == m
    ensures forall c :: c in s ==> m <= c.z
  {
    var c :| c in s;
    if s == {c} then c.z
    else
      var rest := MinZ(s - {c});
      if c.z < rest then c.z else rest
  }

  function MaxZ(s: set<Chunk>): (m: int)
    requires s != {}
    ensures exists c :: c in s && c.z == m
    ensures forall c :: c in s ==> c.z <= m
  {
    var c :| c in s;
    if s == {c} then c.z
    else
      var rest := MaxZ(s - {c});
      if c.z > rest then c.z else rest
  }

  // ---------------------------------------------------------------------------
  // Java integer division and remainder (truncating toward zero)

  /** Java's `a / b`: the quotient rounded toward zero. */
  function JavaDiv(a: int, b: int): (q: int)
    requires b != 0
    ensures b > 0 && a >= 0 ==> q == a / b
    ensures a >= 0 ==> 0 <= a - q * b && (b > 0 ==> a - q * b < b) && (b < 0 ==> a - q * b < -b)
    ensures a < 0 ==> a - q * b <= 0 && (b > 0 ==> -b < a - q * b) && (b < 0 ==> b < a - q * b)
  {
    if a >= 0 then a / b
    else if b > 0 then -((-a) / b)
    else (-a) / (-b)
  }

  /** Java's `a % b`: the remainder takes the sign of `a`. */
  function JavaRem(a: int, b: int): (r: int)
    requires b != 0
    ensures JavaDiv(a, b) * b + r == a
    ensures a >= 0 ==> 0 <= r && (b > 0 ==> r < b) && (b < 0 ==> r < -b)
    ensures a < 0 ==> r <= 0 && (b > 0 ==> -b < r) && (b < 0 ==> b < r)
  {
    a - JavaDiv(a, b) * b
  }
}
