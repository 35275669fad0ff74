/**
 * Partition of a chunk set into maximal 4-connected regions by recursive flood
 * fill (`findConnectedRegions` / `floodFill`; the polygon builder and the client
 * overlay manager carry identical copies), and the largest-first ordering the
 * overlay manager applies to the result.
 */
module Regions {
  import opened Grid

  /**
   * `floodFill(start, allChunks, visited, region)`: the Java method mutates
   * `visited` and `region`; here they go in and come back out. Every chunk it
   * adds is 4-connected to `start` through added chunks (the ghost `walks` are
   * the witnesses), and every in-set neighbour of an added chunk is visited.
   */
  method FloodFill(start: Chunk, all: set<Chunk>, visited: set<Chunk>, region: set<Chunk>)
    returns (visited': set<Chunk>, region': set<Chunk>, ghost walks: map<Chunk, seq<Chunk>>)
    ensures visited <= visited' && visited' - visited <= all
    ensures region' == region + (visited' - visited)
    ensures start in visited' - visited <==> start in all && start !in visited
    ensures forall c, n :: c in visited' - visited && n in all && Adjacent(c, n) ==> n in visited'
    ensures forall c :: c in visited' - visited ==>
      c in walks && IsWalk(walks[c], visited' - visited) && walks[c][0] == start && walks[c][|walks[c]| - 1] == c
    decreases all - visited
  {
    if start in visited || start !in all {
      return visited, region, map[];
    }
    visited' := visited + {start};
    region' := region + {start};
    walks := map[start := [start]];
    var ns := Neighbours(start);
    for i := 0 to 4
      invariant visited + {start} <= visited' && visited' - visited <= all
      invariant region' == region + (visited' - visited)
      invariant forall j :: 0 <= j < i && ns[j] in all ==> ns[j] in visited'
      invariant forall c, n :: c in visited' - visited && c != start && n in all && Adjacent(c, n) ==> n in visited'
      invariant forall c :: c in visited' - visited ==>
        c in walks && IsWalk(walks[c], visited' - visited) && walks[c][0] == start && walks[c][|walks[c]| - 1] == c
    {
      ghost var before := visited';
      ghost var oldWalks := walks;
      ghost var sub: map<Chunk, seq<Chunk>>;
      visited', region', sub := FloodFill(ns[i], all, visited', region');
      walks := WalksExtended(start, ns[i], visited, before, visited', oldWalks, sub);
    }
  }

  /** The walks after one neighbour's fill: the old ones, and `start` put in front of the neighbour's. */
  lemma WalksExtended(start: Chunk, next: Chunk, visited: set<Chunk>, before: set<Chunk>, visited': set<Chunk>,
                      oldWalks: map<Chunk, seq<Chunk>>, sub: map<Chunk, seq<Chunk>>) returns (walks: map<Chunk, seq<Chunk>>)
    requires Adjacent(start, next) && visited <= before <= visited' && start in before - visited
    requires forall c :: c in before - visited ==>
      c in oldWalks && IsWalk(oldWalks[c], before - visited) && oldWalks[c][0] == start && oldWalks[c][|oldWalks[c]| - 1] == c
    requires forall c :: c in visited' - before ==>
      c in sub && IsWalk(sub[c], visited' - before) && sub[c][0] == next && sub[c][|sub[c]| - 1] == c
    ensures forall c :: c in visited' - visited ==>
      c in walks && IsWalk(walks[c], visited' - visited) && walks[c][0] == start && walks[c][|walks[c]| - 1] == c
  {
    walks := oldWalks + MapExtended(sub, start, visited' - before);
    forall c | c in visited' - visited
      ensures c in walks && IsWalk(walks[c], visited' - visited) && walks[c][0] == start && walks[c][|walks[c]| - 1] == c
    {
      if c in visited' - before {
        var w := sub[c];
        WalkWidened(w, visited' - before, visited' - visited);
        var p := [start] + w;
        assert p[1] == w[0];
        assert walks[c] == p;
        assert IsWalk(p, visited' - visited);
      } else {
        WalkWidened(oldWalks[c], before - visited, visited' - visited);
      }
    }
  }

  /** Each walk from the neighbour, with `start` put in front. */
  ghost function MapExtended(sub: map<Chunk, seq<Chunk>>, start: Chunk, added: set<Chunk>): (m: map<Chunk, seq<Chunk>>)
    requires forall c :: c in added ==> c in sub
    ensures m.Keys == added
    ensures forall c :: c in added ==> m[c] == [start] + sub[c]
  {
    map c | c in added :: [start] + sub[c]
  }

  /**
   * `findConnectedRegions`: visits the chunks in the set's iteration order
   * (an arbitrary choice here) and flood-fills from every unvisited one.
   * The result is a partition of the input into maximal 4-connected regions.
   */
  method FindConnectedRegions(chunks: set<Chunk>) returns (regions: seq<set<Chunk>>)
    ensures IsPartition(regions, chunks)
  {
    regions := [];
    var visited: set<Chunk> := {};
    var remaining := chunks;
    while remaining != {}
      invariant remaining <= chunks
      invariant visited == UnionAll(regions) && visited <= chunks
      invariant chunks - remaining <= visited
      invariant Closed(visited, chunks)
      invariant PairwiseDisjoint(regions)
      invariant forall i :: 0 <= i < |regions| ==> IsComponent(regions[i], chunks)
    {
      var chunk :| chunk in remaining;
      remaining := remaining - {chunk};
      if chunk !in visited {
        var region: set<Chunk> := {};
        var visited', region';
        ghost var walks;
        visited', region', walks := FloodFill(chunk, chunks, visited, region);
        RegionAdded(chunks, regions, visited, visited', region', chunk, walks);
        if region' != {} {
          regions := regions + [region'];
        }
        visited := visited';
      }
    }
  }

  /** The regions are pairwise disjoint. */
  ghost predicate PairwiseDisjoint(rs: seq<set<Chunk>>) {
    forall i, j :: 0 <= i < j < |rs| ==> rs[i] !! rs[j]
  }

  /**
   * What one flood fill from an unvisited chunk adds to a closed visited set is
   * a maximal 4-connected region, and the visited set stays closed.
   */
  lemma FilledRegionIsComponent(chunks: set<Chunk>, visited: set<Chunk>, visited': set<Chunk>, chunk: Chunk,
                                walks: map<Chunk, seq<Chunk>>)
    requires Closed(visited, chunks) && visited <= chunks
    requires chunk in chunks && chunk !in visited
    requires visited <= visited' && visited' - visited <= chunks
    requires chunk in visited' - visited
    requires forall c, n :: c in visited' - visited && n in chunks && Adjacent(c, n) ==> n in visited'
    requires forall c :: c in visited' - visited ==>
      c in walks && IsWalk(walks[c], visited' - visited) && walks[c][0] == chunk && walks[c][|walks[c]| - 1] == c
    ensures IsComponent(visited' - visited, chunks)
    ensures Closed(visited', chunks)
  {
    var region := visited' - visited;
    ConnectedFromRoot(region, chunk, walks);
    forall c, n | c in region && n in chunks && Adjacent(c, n) ensures n in region {
      AdjacentSymmetric(c, n);
      assert n in visited ==> c in visited;
    }
  }

  /** One step of `findConnectedRegions` keeps its loop invariant. */
  lemma RegionAdded(chunks: set<Chunk>, regions: seq<set<Chunk>>, visited: set<Chunk>, visited': set<Chunk>,
                    region': set<Chunk>, chunk: Chunk, walks: map<Chunk, seq<Chunk>>)
    requires visited == UnionAll(regions) && visited <= chunks && Closed(visited, chunks)
    requires PairwiseDisjoint(regions)
    requires forall i :: 0 <= i < |regions| ==> IsComponent(regions[i], chunks)
    requires chunk in chunks && chunk !in visited
    requires visited <= visited' && visited' - visited <= chunks
    requires region' == {} + (visited' - visited)
    requires chunk in visited' - visited
    requires forall c, n :: c in visited' - visited && n in chunks && Adjacent(c, n) ==> n in visited'
    requires forall c :: c in visited' - visited ==>
      c in walks && IsWalk(walks[c], visited' - visited) && walks[c][0] == chunk && walks[c][|walks[c]| - 1] == c
    ensures region' != {}
    ensures visited' == UnionAll(regions + [region']) && visited' <= chunks && Closed(visited', chunks)
    ensures PairwiseDisjoint(regions + [region'])
    ensures forall i :: 0 <= i < |regions + [region']| ==> IsComponent((regions + [region'])[i], chunks)
  {
    FilledRegionIsComponent(chunks, visited, visited', chunk, walks);
    assert region' == visited' - visited;
    assert visited' == visited + region';
    AppendDisjoint(regions, region', visited);
  }

  lemma AppendDisjoint(regions: seq<set<Chunk>>, r: set<Chunk>, visited: set<Chunk>)
    requires PairwiseDisjoint(regions) && visited == UnionAll(regions) && r !! visited
    ensures PairwiseDisjoint(regions + [r])
    ensures UnionAll(regions + [r]) == visited + r
  {
    var rs := regions + [r];
    forall i, j | 0 <= i < j < |rs| ensures rs[i] !! rs[j] {
      if j == |regions| {
        assert rs[i] == regions[i];
        assert forall c :: c in regions[i] ==> c in visited;
      }
    }
    forall c | c in UnionAll(rs) ensures c in visited + r {
      var i :| 0 <= i < |rs| && c in rs[i];
      if i < |regions| { assert rs[i] == regions[i]; }
    }
    forall c | c in visited + r ensures c in UnionAll(rs) {
      if c in r {
        assert rs[|regions|] == r;
      } else {
        var i :| 0 <= i < |regions| && c in regions[i];
        assert rs[i] == regions[i];
      }
    }
  }

  // ---------------------------------------------------------------------------
  // Largest-first ordering: `regions.sort((a, b) -> Integer.compare(b.size(), a.size()))`

  /** The sizes never increase along the list. */
  ghost predicate SizeDescending(rs: seq<set<Chunk>>) {
    forall i, j :: 0 <= i < j < |rs| ==> |rs[j]| <= |rs[i]|
  }

  /**
   * Places `r` before the first element that is no larger than it. Inserting
   * the list's elements back to front this way keeps equal-sized elements
   * in their original order.
   */
  function InsertBySize(r: set<Chunk>, rs: seq<set<Chunk>>): (out: seq<set<Chunk>>)
    ensures multiset(out) == multiset(rs) + multiset{r}
  {
    if rs == [] || |rs[0]| <= |r| then [r] + rs
    else
      assert rs == [rs[0]] + rs[1..];
      [rs[0]] + InsertBySize(r, rs[1..])
  }

  /** Insertion sort by descending size; stable, like Java's `List.sort` (`SortBySizeStable`). */
  function SortBySizeDescending(rs: seq<set<Chunk>>): (out: seq<set<Chunk>>)
    ensures multiset(out) == multiset(rs)
  {
    if rs == [] then []
    else
      assert rs == [rs[0]] + rs[1..];
      InsertBySize(rs[0], SortBySizeDescending(rs[1..]))
  }

  /** The elements of size `n`, in list order. */
  function OfSize(rs: seq<set<Chunk>>, n: nat): (out: seq<set<Chunk>>)
    ensures |out| <= |rs|
    ensures forall i :: 0 <= i < |out| ==> |out[i]| == n
  {
    if rs == [] then []
    else (if |rs[0]| == n then [rs[0]] else []) + OfSize(rs[1..], n)
  }

  /** Inserting `r` puts it in front of every element of its own size. */
  lemma {:induction false} InsertBySizeOfSize(r: set<Chunk>, rs: seq<set<Chunk>>, n: nat)
    ensures OfSize(InsertBySize(r, rs), n) == (if |r| == n then [r] else []) + OfSize(rs, n)
  {
    if rs == [] || |rs[0]| <= |r| {
      assert InsertBySize(r, rs) == [r] + rs;
      OfSizeCons(r, rs, n);
    } else {
      InsertBySizeOfSize(r, rs[1..], n);
      InsertPastLarger(r, rs, n);
    }
  }

  /** The step past an element larger than `r`: at most one of the two has size `n`. */
  lemma InsertPastLarger(r: set<Chunk>, rs: seq<set<Chunk>>, n: nat)
    requires rs != [] && |rs[0]| > |r|
    requires OfSize(InsertBySize(r, rs[1..]), n) == (if |r| == n then [r] else []) + OfSize(rs[1..], n)
    ensures OfSize(InsertBySize(r, rs), n) == (if |r| == n then [r] else []) + OfSize(rs, n)
  {
    var tail := InsertBySize(r, rs[1..]);
    var rest := OfSize(rs[1..], n);
    var hr: seq<set<Chunk>> := if |r| == n then [r] else [];
    var h0: seq<set<Chunk>> := if |rs[0]| == n then [rs[0]] else [];
    assert OfSize(InsertBySize(r, rs), n) == h0 + OfSize(tail, n) by {
      assert InsertBySize(r, rs) == [rs[0]] + tail;
      OfSizeCons(rs[0], tail, n);
    }
    assert OfSize(rs, n) == h0 + rest;
    SwapEmpty(h0, hr, rest);
  }

  /** Two prefixes of which one is empty can be swapped. */
  lemma SwapEmpty<T>(a: seq<T>, b: seq<T>, c: seq<T>)
    requires a == [] || b == []
    ensures a + (b + c) == b + (a + c)
  {
    if a == [] {
      assert a + (b + c) == b + c;
    } else {
      assert b + (a + c) == a + c;
    }
  }

  lemma OfSizeCons(x: set<Chunk>, rs: seq<set<Chunk>>, n: nat)
    ensures OfSize([x] + rs, n) == (if |x| == n then [x] else []) + OfSize(rs, n)
  {
    assert ([x] + rs)[0] == x && ([x] + rs)[1..] == rs;
  }

  /**
   * Stability: for every size, the elements of that size appear in the sorted
   * list in the same order as in the input. With `SortBySizeDescendingCorrect`
   * this is the whole promise of a stable sort by descending size.
   */
  lemma {:induction false} SortBySizeStable(rs: seq<set<Chunk>>, n: nat)
    ensures OfSize(SortBySizeDescending(rs), n) == OfSize(rs, n)
  {
    if rs != [] {
      SortBySizeStable(rs[1..], n);
      InsertBySizeOfSize(rs[0], SortBySizeDescending(rs[1..]), n);
    }
  }

  /** Two regions of the same size keep their input order. */
  lemma TiesKeepOrder()
    ensures SortBySizeDescending([{Chunk(0, 0)}, {Chunk(5, 5)}]) == [{Chunk(0, 0)}, {Chunk(5, 5)}]
  {
    var a, b := {Chunk(0, 0)}, {Chunk(5, 5)};
    assert [a, b][1..] == [b];
    assert [b][1..] == [];
    assert |a| == 1 && |b| == 1;
  }

  lemma {:induction false} InsertBySizeSorted(r: set<Chunk>, rs: seq<set<Chunk>>)
    requires SizeDescending(rs)
    ensures SizeDescending(InsertBySize(r, rs))
  {
    if rs == [] || |rs[0]| <= |r| {
    } else {
      InsertBySizeSorted(r, rs[1..]);
      var tail := InsertBySize(r, rs[1..]);
      InsertBySizeMembers(r, rs[1..]);
      forall k | 0 <= k < |tail| ensures |tail[k]| <= |rs[0]| {
        assert tail[k] in tail;
        if tail[k] != r {
          var m :| 0 <= m < |rs[1..]| && rs[1..][m] == tail[k];
          assert rs[m + 1] == tail[k];
        }
      }
    }
  }

  lemma {:induction false} InsertBySizeMembers(r: set<Chunk>, rs: seq<set<Chunk>>)
    ensures |InsertBySize(r, rs)| == |rs| + 1
    ensures forall x :: x in InsertBySize(r, rs) <==> x == r || x in rs
  {
    if rs != [] && |rs[0]| > |r| {
      InsertBySizeMembers(r, rs[1..]);
      ConsMembers(rs);
    }
  }

  /** A non-empty list's members are its head and the members of its tail. */
  lemma ConsMembers<T>(s: seq<T>)
    requires s != []
    ensures forall x :: x in s <==> x == s[0] || x in s[1..]
  {
    assert s == [s[0]] + s[1..];
  }

  lemma {:induction false} InsertBySizeDisjoint(r: set<Chunk>, rs: seq<set<Chunk>>)
    requires PairwiseDisjoint(rs)
    requires forall k :: 0 <= k < |rs| ==> r !! rs[k]
    ensures PairwiseDisjoint(InsertBySize(r, rs))
  {
    var out := InsertBySize(r, rs);
    if rs == [] || |rs[0]| <= |r| {
      forall i, j | 0 <= i < j < |out| ensures out[i] !! out[j] {
        if i > 0 {
          assert out[i] == rs[i - 1] && out[j] == rs[j - 1];
        }
      }
    } else {
      InsertBySizeDisjoint(r, rs[1..]);
      InsertBySizeMembers(r, rs[1..]);
      var tail := InsertBySize(r, rs[1..]);
      forall k | 0 <= k < |tail| ensures rs[0] !! tail[k] {
        assert tail[k] in tail;
        if tail[k] != r {
          var m :| 0 <= m < |rs[1..]| && rs[1..][m] == tail[k];
          assert rs[0] !! rs[m + 1];
        }
      }
      forall i, j | 0 <= i < j < |out| ensures out[i] !! out[j] {
        if i > 0 {
          assert out[i] == tail[i - 1] && out[j] == tail[j - 1];
        } else {
          assert out[j] == tail[j - 1];
        }
      }
    }
  }

  lemma {:induction false} SortBySizeMembers(rs: seq<set<Chunk>>)
    ensures |SortBySizeDescending(rs)| == |rs|
    ensures forall x :: x in SortBySizeDescending(rs) <==> x in rs
  {
    if rs != [] {
      SortBySizeMembers(rs[1..]);
      InsertBySizeMembers(rs[0], SortBySizeDescending(rs[1..]));
      ConsMembers(rs);
    }
  }

  lemma {:induction false} SortBySizeDisjoint(rs: seq<set<Chunk>>)
    requires PairwiseDisjoint(rs)
    ensures PairwiseDisjoint(SortBySizeDescending(rs))
  {
    if rs != [] {
      var rest := SortBySizeDescending(rs[1..]);
      assert PairwiseDisjoint(rs[1..]) by {
        forall i, j | 0 <= i < j < |rs[1..]| ensures rs[1..][i] !! rs[1..][j] {
          assert rs[i + 1] !! rs[j + 1];
        }
      }
      SortBySizeDisjoint(rs[1..]);
      SortBySizeMembers(rs[1..]);
      forall k | 0 <= k < |rest| ensures rs[0] !! rest[k] {
        assert rest[k] in rest;
        var m :| 0 <= m < |rs[1..]| && rs[1..][m] == rest[k];
        assert rs[0] !! rs[m + 1];
      }
      InsertBySizeDisjoint(rs[0], rest);
    }
  }

  /**
   * The sorted list is ordered largest first, is a permutation of the input,
   * and a partition stays a partition of the same set.
   */
  lemma {:induction false} SortBySizeDescendingCorrect(rs: seq<set<Chunk>>, all: set<Chunk>)
    ensures SizeDescending(SortBySizeDescending(rs))
    ensures multiset(SortBySizeDescending(rs)) == multiset(rs)
    ensures IsPartition(rs, all) ==> IsPartition(SortBySizeDescending(rs), all)
  {
    SortBySizeSorted(rs);
    if IsPartition(rs, all) {
      SortedPartition(rs, all);
    }
  }

  lemma {:induction false} SortBySizeSorted(rs: seq<set<Chunk>>)
    ensures SizeDescending(SortBySizeDescending(rs))
  {
    if rs != [] {
      SortBySizeSorted(rs[1..]);
      InsertBySizeSorted(rs[0], SortBySizeDescending(rs[1..]));
    }
  }

  lemma SortedPartition(rs: seq<set<Chunk>>, all: set<Chunk>)
    requires IsPartition(rs, all)
    ensures IsPartition(SortBySizeDescending(rs), all)
  {
    var qs := SortBySizeDescending(rs);
    assert UnionAll(qs) == all by {
      SortBySizeMembers(rs);
      UnionAllWithin(qs, rs);
      UnionAllWithin(rs, qs);
    }
    assert PairwiseDisjoint(qs) by {
      SortBySizeDisjoint(rs);
    }
    assert forall i :: 0 <= i < |qs| ==> IsComponent(qs[i], all) by {
      SortBySizeMembers(rs);
      ComponentsWithin(qs, rs, all);
    }
  }

  lemma ComponentsWithin(qs: seq<set<Chunk>>, rs: seq<set<Chunk>>, all: set<Chunk>)
    requires forall x :: x in qs ==> x in rs
    requires forall i :: 0 <= i < |rs| ==> IsComponent(rs[i], all)
    ensures forall i :: 0 <= i < |qs| ==> IsComponent(qs[i], all)
  {
    forall i | 0 <= i < |qs| ensures IsComponent(qs[i], all) {
      assert qs[i] in qs;
      var m :| 0 <= m < |rs| && rs[m] == qs[i];
    }
  }

  /** The union only depends on which sets occur in the list. */
  lemma UnionAllWithin(rs: seq<set<Chunk>>, qs: seq<set<Chunk>>)
    requires forall x :: x in rs ==> x in qs
    ensures UnionAll(rs) <= UnionAll(qs)
  {
    forall c | c in UnionAll(rs) ensures c in UnionAll(qs) {
      var i :| 0 <= i < |rs| && c in rs[i];
      assert rs[i] in rs;
      var m :| 0 <= m < |qs| && qs[m] == rs[i];
      assert c in qs[m];
    }
  }

  /**
   * Both call sites in the client overlay manager: partition, then sort
   * largest first.
   */
  method SortedConnectedRegions(chunks: set<Chunk>) returns (regions: seq<set<Chunk>>)
    ensures IsPartition(regions, chunks)
    ensures SizeDescending(regions)
  {
    var found := FindConnectedRegions(chunks);
    regions := SortBySizeDescending(found);
    SortBySizeDescendingCorrect(found, chunks);
  }
}
