/**
 * The route optimizer (utils/route_optimizer.py).
 *
 * optimize_route puts the start point in front of the waypoints, builds the complete graph over
 * their indices with the pairwise distances as weights, asks a travelling-salesman heuristic for
 * an open path from node 0 and maps the returned indices back to points.  Both the distance and
 * the heuristic are foreign code and are parameters here; the heuristic's promise (a permutation
 * of the node indices) is a hypothesis of the properties that need it, never an assumption.
 */
module RouteOptimizer {
  import opened Wrappers
  import opened GeoUtils

  /** A named location; the source passes these around as dictionaries. */
  datatype Point = Point(name: string, lat: real, lng: real) {
    function Position(): Coord {
      Coord(lat, lng)
    }
  }

  /**
   * The undirected weighted graph handed to the heuristic: node i carries a point, and the edge
   * between nodes i < j is stored under the key (i, j).
   */
  datatype Graph = Graph(nodes: map<nat, Point>, edges: map<(nat, nat), real>)

  /** The heuristic: maps a graph to a sequence of node indices, or to None when it raises. */
  type TspSolver = Graph -> Option<seq<nat>>

  /** The start point followed by the waypoints; position i is graph node i. */
  function AllPoints(start: Point, waypoints: seq<Point>): (all: seq<Point>)
    ensures |all| == |waypoints| + 1 && all[0] == start
    ensures forall k :: 0 <= k < |waypoints| ==> all[k + 1] == waypoints[k]
  {
    [start] + waypoints
  }

  /** The unordered pairs of distinct indices below n, each written smaller index first. */
  ghost function Pairs(n: nat): set<(nat, nat)> {
    set i: nat, j: nat | i < j < n :: (i, j)
  }

  /** The weight the source gives the edge between points i and j. */
  function Weight(points: seq<Point>, dist: Distance, i: nat, j: nat): real
    requires i < |points| && j < |points|
  {
    dist(points[i].Position(), points[j].Position())
  }

  /** The graph the two construction loops are meant to produce. */
  ghost function CompleteGraph(points: seq<Point>, dist: Distance): Graph {
    Graph(map i: nat | i < |points| :: points[i],
          map e | e in Pairs(|points|) :: Weight(points, dist, e.0, e.1))
  }

  /**
   * Node i carries points[i]; there is exactly one edge per unordered pair of distinct nodes,
   * none from a node to itself, and each weight is the distance between the endpoints' points.
   */
  lemma CompleteGraphShape(points: seq<Point>, dist: Distance)
    ensures var g := CompleteGraph(points, dist);
      && (forall i: nat :: i in g.nodes <==> i < |points|)
      && (forall i: nat :: i < |points| ==> g.nodes[i] == points[i])
      && (forall e :: e in g.edges ==> e.0 < e.1 < |points|)
      && (forall i: nat, j: nat :: i < j < |points| ==> (i, j) in g.edges && (j, i) !in g.edges)
      && (forall e :: e in g.edges ==>
            g.edges[e] == dist(g.nodes[e.0].Position(), g.nodes[e.1].Position()))
  {
    var g := CompleteGraph(points, dist);
    forall i: nat, j: nat | i < j < |points| ensures (i, j) in g.edges {
      assert (i, j) in Pairs(|points|);
    }
  }

  /** The pairs (i, k) for i < m, all sharing the second index k. */
  ghost function Column(m: nat, k: nat): set<(nat, nat)> {
    set i: nat | i < m :: (i, k)
  }

  lemma {:induction false} ColumnSize(m: nat, k: nat)
    ensures |Column(m, k)| == m
  {
    if m > 0 {
      ColumnSize(m - 1, k);
      assert Column(m, k) == Column(m - 1, k) + {(m - 1, k)};
    }
  }

  /** Going from n - 1 to n points adds the n - 1 pairs that end in node n - 1. */
  lemma PairsStep(n: nat)
    requires n > 0
    ensures |Pairs(n)| == |Pairs(n - 1)| + (n - 1)
  {
    ColumnSize(n - 1, n - 1);
    assert Pairs(n) == Pairs(n - 1) + Column(n - 1, n - 1);
    assert Pairs(n - 1) !! Column(n - 1, n - 1);
  }

  lemma {:induction false} PairsSize(n: nat)
    ensures 2 * |Pairs(n)| == n * (n - 1)
  {
    if n > 0 {
      PairsSize(n - 1);
      PairsStep(n);
      assert (n - 1) * (n - 2) + 2 * (n - 1) == n * (n - 1);
    }
  }

  /** A graph over N points has N * (N - 1) / 2 edges. */
  lemma EdgeCount(points: seq<Point>, dist: Distance)
    ensures |CompleteGraph(points, dist).edges| == |points| * (|points| - 1) / 2
  {
    var n := |points|;
    var g := CompleteGraph(points, dist);
    assert g.edges.Keys == Pairs(n);
    PairsSize(n);
  }

  /** The construction loops: one node per index, then one edge per pair i < j. */
  method BuildGraph(points: seq<Point>, dist: Distance) returns (g: Graph)
    ensures g == CompleteGraph(points, dist)
  {
    var n := |points|;
    var nodes: map<nat, Point> := map[];
    var i := 0;
    while i < n
      invariant 0 <= i <= n
      invariant forall k: nat :: k in nodes <==> k < i
      invariant forall k: nat :: k < i ==> nodes[k] == points[k]
    {
      nodes := nodes[i := points[i]];
      i := i + 1;
    }
    var edges: map<(nat, nat), real> := map[];
    i := 0;
    while i < n
      invariant 0 <= i <= n
      invariant forall e :: e in edges <==> e.0 < e.1 < n && e.0 < i
      invariant forall e :: e in edges ==> edges[e] == Weight(points, dist, e.0, e.1)
    {
      var j := i + 1;
      while j < n
        invariant i + 1 <= j <= n
        invariant forall e :: e in edges <==> e.0 < e.1 < n && (e.0 < i || (e.0 == i && e.1 < j))
        invariant forall e :: e in edges ==> edges[e] == Weight(points, dist, e.0, e.1)
      {
        edges := edges[(i, j) := Weight(points, dist, i, j)];
        j := j + 1;
      }
      i := i + 1;
    }
    g := Graph(nodes, edges);
    ghost var spec := CompleteGraph(points, dist);
    assert nodes == spec.nodes;
    assert edges.Keys == Pairs(n);
    assert edges == spec.edges;
  }

  /** Whether every index of path names one of n points. */
  predicate IndicesBelow(path: seq<nat>, n: nat) {
    forall k :: 0 <= k < |path| ==> path[k] < n
  }

  /** The points named by an index path, in the path's order. */
  function Pick<T>(items: seq<T>, path: seq<nat>): seq<T>
    requires IndicesBelow(path, |items|)
  {
    seq(|path|, k requires 0 <= k < |path| => items[path[k]])
  }

  /**
   * The remapping comprehension over the heuristic's path.  An index with no point behind it
   * raises IndexError in the source; that outcome is None.
   */
  function Remap<T>(items: seq<T>, path: seq<nat>): (r: Option<seq<T>>)
    ensures r.Some? <==> IndicesBelow(path, |items|)
    ensures r.Some? ==> |r.value| == |path|
    ensures r.Some? ==> forall k :: 0 <= k < |path| ==> r.value[k] == items[path[k]]
  {
    if path == [] then Some([])
    else if path[0] >= |items| then None
    else match Remap(items, path[1..])
      case None => None
      case Some(rest) => Some([items[path[0]]] + rest)
  }

  /** The indices 0 .. n-1 in increasing order. */
  function Range(n: nat): (r: seq<nat>)
    ensures |r| == n && forall k :: 0 <= k < n ==> r[k] == k
  {
    seq(n, k => k)
  }

  /** Whether path lists every node index below n exactly once. */
  predicate IsIndexPermutation(path: seq<nat>, n: nat) {
    multiset(path) == multiset(Range(n))
  }

  lemma PickConcat<T>(items: seq<T>, a: seq<nat>, b: seq<nat>)
    requires IndicesBelow(a, |items|) && IndicesBelow(b, |items|)
    ensures IndicesBelow(a + b, |items|)
    ensures Pick(items, a + b) == Pick(items, a) + Pick(items, b)
  {
  }

  /** Taking out the index at position j takes out one copy of it and one copy of its point. */
  lemma PickRemoveAt<T>(items: seq<T>, q: seq<nat>, j: nat)
    requires IndicesBelow(q, |items|) && j < |q|
    ensures IndicesBelow(q[..j] + q[j + 1..], |items|)
    ensures multiset(q[..j] + q[j + 1..]) == multiset(q) - multiset{q[j]}
    ensures multiset(Pick(items, q)) ==
            multiset(Pick(items, q[..j] + q[j + 1..])) + multiset{items[q[j]]}
  {
    var a, b := q[..j], q[j + 1..];
    assert q == a + [q[j]] + b;
    assert multiset(q) == multiset(a) + multiset{q[j]} + multiset(b);
    PickConcat(items, a, [q[j]]);
    PickConcat(items, a + [q[j]], b);
    PickConcat(items, a, b);
    assert Pick(items, [q[j]]) == [items[q[j]]];
    assert Pick(items, q) == Pick(items, a) + [items[q[j]]] + Pick(items, b);
  }

  /** Picking along two paths with the same indices yields the same points, counted alike. */
  lemma {:induction false} PickRespectsMultiset<T>(items: seq<T>, p: seq<nat>, q: seq<nat>)
    requires IndicesBelow(p, |items|) && IndicesBelow(q, |items|)
    requires multiset(p) == multiset(q)
    ensures multiset(Pick(items, p)) == multiset(Pick(items, q))
  {
    if p == [] {
      assert |q| == |multiset(q)| == 0;
    } else {
      var x := p[0];
      assert x in multiset(q) by { assert x in multiset(p); }
      var j :| 0 <= j < |q| && q[j] == x;
      var tail, rest := p[1..], q[..j] + q[j + 1..];
      assert p[..0] + p[1..] == tail;
      PickRemoveAt(items, p, 0);
      PickRemoveAt(items, q, j);
      assert multiset(tail) == multiset(p) - multiset{x};
      assert multiset(rest) == multiset(q) - multiset{x};
      PickRespectsMultiset(items, tail, rest);
    }
  }

  /**
   * When the heuristic's path is a permutation of the node indices, remapping it neither drops
   * nor duplicates a point.
   */
  lemma RemapPermutation<T>(items: seq<T>, path: seq<nat>)
    requires IsIndexPermutation(path, |items|)
    ensures Remap(items, path).Some?
    ensures multiset(Remap(items, path).value) == multiset(items)
  {
    var n := |items|;
    forall k | 0 <= k < |path| ensures path[k] < n {
      assert path[k] in multiset(Range(n));
    }
    PickRespectsMultiset(items, path, Range(n));
    assert Pick(items, Range(n)) == items;
    assert Remap(items, path).value == Pick(items, path);
  }

  /** What optimize_route returns for a heuristic and a distance: None when the heuristic
      raises or when its path names an index outside the points. */
  ghost function OptimizedRoute(start: Point, waypoints: seq<Point>, dist: Distance,
                                tsp: TspSolver): Option<seq<Point>>
  {
    if waypoints == [] then Some([start])
    else
      var all := AllPoints(start, waypoints);
      match tsp(CompleteGraph(all, dist))
      case None => None
      case Some(path) => Remap(all, path)
  }

  /** The heuristic's answer on the graph that optimize_route builds for these points. */
  ghost function TspPath(start: Point, waypoints: seq<Point>, dist: Distance,
                         tsp: TspSolver): Option<seq<nat>>
  {
    var all := AllPoints(start, waypoints);
    tsp(CompleteGraph(all, dist))
  }

  /** The heuristic returns, and its path is a permutation of the node indices. */
  ghost predicate SolverGivesPermutation(start: Point, waypoints: seq<Point>, dist: Distance,
                                         tsp: TspSolver)
  {
    var path := TspPath(start, waypoints, dist, tsp);
    path.Some? && IsIndexPermutation(path.value, |waypoints| + 1)
  }

  /**
   * With no waypoints the result is the start point alone; otherwise it fails when the
   * heuristic raises, and else follows the heuristic's path index by index; it is a permutation
   * of the start point and the waypoints whenever that path is a permutation of the node
   * indices.
   */
  lemma OptimizedRouteProperties(start: Point, waypoints: seq<Point>, dist: Distance,
                                 tsp: TspSolver)
    ensures waypoints == [] ==> OptimizedRoute(start, waypoints, dist, tsp) == Some([start])
    ensures waypoints != [] && TspPath(start, waypoints, dist, tsp).None? ==>
      OptimizedRoute(start, waypoints, dist, tsp).None?
    ensures waypoints != [] && TspPath(start, waypoints, dist, tsp).Some? ==>
      var path := TspPath(start, waypoints, dist, tsp).value;
      var all := AllPoints(start, waypoints);
      match OptimizedRoute(start, waypoints, dist, tsp)
      case None => !IndicesBelow(path, |all|)
      case Some(route) =>
        |route| == |path| && forall k :: 0 <= k < |path| ==> route[k] == all[path[k]]
    ensures waypoints != [] && SolverGivesPermutation(start, waypoints, dist, tsp) ==>
      var r := OptimizedRoute(start, waypoints, dist, tsp);
      r.Some? && multiset(r.value) == multiset([start] + waypoints)
  {
    if waypoints != [] && SolverGivesPermutation(start, waypoints, dist, tsp) {
      var all := AllPoints(start, waypoints);
      RemapPermutation(all, TspPath(start, waypoints, dist, tsp).value);
    }
  }

  /**
   * optimize_route: returns early with the start point alone, otherwise builds the graph,
   * runs the heuristic and maps its path back to points.
   */
  method OptimizeRoute(start: Point, waypoints: seq<Point>, dist: Distance, tsp: TspSolver)
    returns (route: Option<seq<Point>>)
    ensures route == OptimizedRoute(start, waypoints, dist, tsp)
    ensures waypoints == [] ==> route == Some([start])
    ensures waypoints != [] && TspPath(start, waypoints, dist, tsp).None? ==> route.None?
    ensures waypoints != [] && SolverGivesPermutation(start, waypoints, dist, tsp) ==>
      route.Some? && |route.value| == |waypoints| + 1
      && multiset(route.value) == multiset([start] + waypoints)
  {
    if waypoints == [] {
      return Some([start]);
    }
    var all := AllPoints(start, waypoints);
    var g := BuildGraph(all, dist);
    var answer := tsp(g);
    if answer.None? {
      return None;
    }
    var path := answer.value;
    route := Remap(all, path);
    if IsIndexPermutation(path, |all|) {
      RemapPermutation(all, path);
      assert |multiset(path)| == |path|;
    }
  }
}
