/** Simple paths (networkx all_simple_paths) and the causal-path queries built on
    them: get_causal_paths and get_path_nodes_and_their_parents. */
module SimplePaths {
  import opened Graphs

  predicate Distinct(p: seq<int>)
  {
    forall i, j :: 0 <= i < j < |p| ==> p[i] != p[j]
  }

  /** Consecutive nodes of `p` are joined by edges. */
  predicate Linked(g: Graph, p: seq<int>)
  {
    forall i :: 0 <= i < |p| - 1 ==> (p[i], p[i + 1]) in g.edges
  }

  predicate InRange(p: seq<int>, n: int)
  {
    forall i :: 0 <= i < |p| ==> 0 <= p[i] < n
  }

  /** A simple path from `s` to `t`: at least one edge, no node twice. */
  predicate IsSimplePath(g: Graph, p: seq<int>, s: int, t: int)
  {
    |p| >= 2 && p[0] == s && p[|p| - 1] == t && Distinct(p) && Linked(g, p)
  }

  /** The ids `0 .. n-1`. */
  function Range(n: nat): (r: set<int>)
    ensures forall i :: i in r <==> 0 <= i < n
    ensures |r| == n
  {
    if n == 0 then {} else Range(n - 1) + {n - 1}
  }

  lemma {:induction false} DistinctCard(p: seq<int>)
    requires Distinct(p)
    ensures |set x | x in p| == |p|
  {
    if p != [] {
      var rest := p[1..];
      assert Distinct(rest);
      DistinctCard(rest);
      assert (set x | x in p) == {p[0]} + (set x | x in rest);
      assert p[0] !in rest;
    }
  }

  /** Pigeonhole: a repetition-free sequence of node ids has at most nnodes entries. */
  lemma DistinctBound(p: seq<int>, n: nat)
    requires Distinct(p) && InRange(p, n)
    ensures |p| <= n
  {
    DistinctCard(p);
    var s := set x | x in p;
    assert s <= Range(n);
    assert |Range(n) - s| == |Range(n)| - |s|;
  }

  /** The depth-first enumeration of networkx: every simple path that extends
      `path` (whose last node is the current one) by a first step to a node `>= c`
      and then runs on to `t`. Successors are tried in id order; the order is not
      part of the model, the result is a set. */
  function Explore(g: Graph, t: int, path: seq<int>, c: nat): (r: set<seq<int>>)
    requires path != [] && Distinct(path) && InRange(path, g.nnodes)
    ensures forall q | q in r :: |path| < |q| && q[..|path|] == path && q[|q| - 1] == t
    decreases g.nnodes - |path|, g.nnodes - c
  {
    DistinctBound(path, g.nnodes);
    if c >= g.nnodes then {}
    else
      var rest := Explore(g, t, path, c + 1);
      if (path[|path| - 1], c) !in g.edges then rest
      else if c == t then {path + [c]} + rest
      else if c in path then rest
      else
        assert Distinct(path + [c]) && InRange(path + [c], g.nnodes);
        DistinctBound(path + [c], g.nnodes);
        Explore(g, t, path + [c], 0) + rest
  }

  /** The prefix the enumeration starts from is a chain that avoids the target. */
  predicate Prefix(g: Graph, t: int, path: seq<int>)
  {
    path != [] && Distinct(path) && InRange(path, g.nnodes) && Linked(g, path) && t !in path
  }

  /** Every enumerated sequence is a simple path to `t` extending `path`. */
  lemma {:induction false} ExploreSound(g: Graph, t: int, path: seq<int>, c: nat, q: seq<int>)
    requires Prefix(g, t, path)
    requires q in Explore(g, t, path, c)
    ensures IsSimplePath(g, q, path[0], t)
    ensures |q| > |path| && q[..|path|] == path && q[|path|] >= c
    decreases g.nnodes - |path|, g.nnodes - c
  {
    DistinctBound(path, g.nnodes);
    var u := path[|path| - 1];
    if q in Explore(g, t, path, c + 1) {
      ExploreSound(g, t, path, c + 1, q);
    } else if c == t {
      assert q == path + [c];
      assert Linked(g, q) by {
        forall i | 0 <= i < |q| - 1 ensures (q[i], q[i + 1]) in g.edges {
          if i < |path| - 1 {
            assert (path[i], path[i + 1]) in g.edges;
          }
        }
      }
      assert q[..|path|] == path;
    } else {
      var next := path + [c];
      assert Prefix(g, t, next) by {
        forall i | 0 <= i < |next| - 1 ensures (next[i], next[i + 1]) in g.edges {
          if i < |path| - 1 {
            assert (path[i], path[i + 1]) in g.edges;
          }
        }
      }
      DistinctBound(next, g.nnodes);
      ExploreSound(g, t, next, 0, q);
      assert q[..|path|] == q[..|next|][..|path|];
      assert q[|path|] == q[..|next|][|path|];
    }
  }

  /** Every simple path to `t` that extends `path` by a first step `>= c` is enumerated. */
  lemma {:induction false} ExploreComplete(g: Graph, t: int, path: seq<int>, c: nat, q: seq<int>)
    requires WellFormed(g) && Prefix(g, t, path)
    requires IsSimplePath(g, q, path[0], t)
    requires |q| > |path| && q[..|path|] == path && q[|path|] >= c
    ensures q in Explore(g, t, path, c)
    decreases g.nnodes - |path|, g.nnodes - c
  {
    DistinctBound(path, g.nnodes);
    var u := path[|path| - 1];
    var x := q[|path|];
    assert q[|path| - 1] == u;
    assert (u, x) in g.edges;
    if x != c {
      ExploreComplete(g, t, path, c + 1, q);
    } else if c == t {
      assert q[|path|] == q[|q| - 1];
      assert |q| == |path| + 1;
      assert q == path + [c];
    } else {
      forall k | 0 <= k < |path| ensures path[k] != c {
        assert q[k] == path[k];
      }
      var next := path + [c];
      assert |q| > |next|;
      assert q[..|next|] == next;
      assert Prefix(g, t, next) by {
        forall i | 0 <= i < |next| - 1 ensures (next[i], next[i + 1]) in g.edges {
          if i < |path| - 1 {
            assert (path[i], path[i + 1]) in g.edges;
          }
        }
      }
      assert (q[|next| - 1], q[|next|]) in g.edges;
      DistinctBound(next, g.nnodes);
      ExploreComplete(g, t, next, 0, q);
    }
  }

  /** nx.all_simple_paths(g, s, t): exactly the simple paths from `s` to `t`. */
  function AllSimplePaths(g: Graph, s: int, t: int): (r: set<seq<int>>)
    requires WellFormed(g) && 0 <= s < g.nnodes
    ensures forall q :: q in r <==> IsSimplePath(g, q, s, t)
  {
    if s == t then
      assert forall q :: !IsSimplePath(g, q, s, t) by {
        forall q | |q| >= 2 && q[0] == s && q[|q| - 1] == t ensures !Distinct(q) {
          assert q[0] == q[|q| - 1];
        }
      }
      {}
    else
      AllSimplePathsExact(g, s, t);
      Explore(g, t, [s], 0)
  }

  lemma AllSimplePathsExact(g: Graph, s: int, t: int)
    requires WellFormed(g) && 0 <= s < g.nnodes && s != t
    ensures forall q :: q in Explore(g, t, [s], 0) <==> IsSimplePath(g, q, s, t)
  {
    assert Prefix(g, t, [s]);
    forall q | q in Explore(g, t, [s], 0) ensures IsSimplePath(g, q, s, t) {
      ExploreSound(g, t, [s], 0, q);
    }
    forall q | IsSimplePath(g, q, s, t) ensures q in Explore(g, t, [s], 0) {
      assert q[..1] == [s];
      assert q[1] >= 0 by {
        assert (q[0], q[1]) in g.edges;
      }
      ExploreComplete(g, t, [s], 0, q);
    }
  }

  /** An edge between two distinct nodes is a simple path on its own. */
  lemma EdgeIsPath(g: Graph, a: int, b: int)
    requires WellFormed(g) && 0 <= a < g.nnodes && a != b && (a, b) in g.edges
    ensures [a, b] in AllSimplePaths(g, a, b)
  {
    assert IsSimplePath(g, [a, b], a, b);
  }

  /** get_causal_paths(nested=False): the nodes of every simple path with its
      last node (the target) dropped, deduplicated. */
  function PathNodes(g: Graph, s: int, t: int): (r: set<int>)
    requires WellFormed(g) && 0 <= s < g.nnodes
    ensures t !in r && InGraph(g, r)
  {
    var paths := AllSimplePaths(g, s, t);
    assert forall p, i | p in paths && 0 <= i < |p| - 1 :: p[i] != t && 0 <= p[i] < g.nnodes by {
      forall p, i | p in paths && 0 <= i < |p| - 1 ensures p[i] != t && 0 <= p[i] < g.nnodes {
        assert p[|p| - 1] == t;
        assert (p[i], p[i + 1]) in g.edges;
      }
    }
    set p, i | p in paths && 0 <= i < |p| - 1 :: p[i]
  }

  /** A node is a path node exactly when some simple path visits it before the target. */
  lemma PathNodesMember(g: Graph, s: int, t: int, n: int)
    requires WellFormed(g) && 0 <= s < g.nnodes
    ensures n in PathNodes(g, s, t) <==>
            exists p, i :: IsSimplePath(g, p, s, t) && 0 <= i < |p| - 1 && p[i] == n
  {
    var paths := AllSimplePaths(g, s, t);
    if exists p, i :: IsSimplePath(g, p, s, t) && 0 <= i < |p| - 1 && p[i] == n {
      var p, i :| IsSimplePath(g, p, s, t) && 0 <= i < |p| - 1 && p[i] == n;
      assert p in paths;
    }
  }

  /** The path nodes never hold the target, and hold the source exactly when
      some path exists; they all lie in the graph. */
  lemma PathNodesShape(g: Graph, s: int, t: int)
    requires WellFormed(g) && 0 <= s < g.nnodes
    ensures t !in PathNodes(g, s, t)
    ensures s in PathNodes(g, s, t) <==> AllSimplePaths(g, s, t) != {}
    ensures InGraph(g, PathNodes(g, s, t))
  {
    var paths := AllSimplePaths(g, s, t);
    if paths != {} {
      var p :| p in paths;
      assert p[0] == s;
    }
  }

  /** get_path_nodes_and_their_parents: the parents of the path nodes, and the path nodes. */
  function PathAndParents(g: Graph, s: int, t: int): (r: (set<int>, set<int>))
    requires WellFormed(g) && 0 <= s < g.nnodes
    ensures r.1 == PathNodes(g, s, t) && r.0 == Parents(g, r.1)
    ensures r.0 !! r.1
  {
    var c := PathNodes(g, s, t);
    (Parents(g, c), c)
  }
}
