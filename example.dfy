/** The network of the module's own demonstration: variable 0 has the parents
    (0,-1) and (1,-1), variable 1 has (0,0) and (1,-1). The demonstration uses ten
    lags; the causal paths from (1,-6) to (0,0) are the same for every horizon
    of at least six lags, and run through the five most recent layers. */
module Example {
  import opened Outcomes
  import opened NodeCodec
  import opened Graphs
  import opened SimplePaths
  import opened CausalNetwork
  import opened Queries

  const Decl: Declaration := [[Node(0, -1), Node(1, -1)], [Node(0, 0), Node(1, -1)]]

  /** The edges of the example by id: a node of variable 0 (an even id) has the
      parents two and three ids up, a node of variable 1 (an odd id) the node
      just below it and the node two ids up; parents past the last layer are
      dropped. */
  predicate DemoEdge(taumax: nat, a: int, b: int)
  {
    0 <= b && a < 2 * (taumax + 1) &&
    ((b % 2 == 0 && (a == b + 2 || a == b + 3)) || (b % 2 == 1 && (a == b - 1 || a == b + 2)))
  }

  lemma DemoEdges(taumax: nat, e: (int, int))
    ensures e in Edges(Decl, taumax) <==> DemoEdge(taumax, e.0, e.1)
  {
    EdgesMember(Decl, taumax, e);
    if DemoEdge(taumax, e.0, e.1) {
      var k := DemoEdgeDeclared(taumax, e);
    }
    if exists i, j, k :: EdgeAt(Decl, taumax, i, j, k, e) {
      var i, j, k :| EdgeAt(Decl, taumax, i, j, k, e);
      DeclaredDemoEdge(taumax, i, j, k, e);
    }
  }

  /** The parent ids the builder computes for layer `i` of the example. */
  lemma DeclStarts(i: nat)
    ensures Start(Decl, i, 0, 0) == 2 * i + 2 && Start(Decl, i, 0, 1) == 2 * i + 3
    ensures Start(Decl, i, 1, 0) == 2 * i && Start(Decl, i, 1, 1) == 2 * i + 3
  {
  }

  /** Each edge of `DemoEdge` is the edge of some declared parent. */
  lemma DemoEdgeDeclared(taumax: nat, e: (int, int)) returns (k: int)
    requires DemoEdge(taumax, e.0, e.1)
    ensures EdgeAt(Decl, taumax, e.1 / 2, e.1 % 2, k, e)
  {
    var i, j := e.1 / 2, e.1 % 2;
    assert e.1 == 2 * i + j;
    k := if (j == 0 && e.0 == e.1 + 2) || (j == 1 && e.0 == e.1 - 1) then 0 else 1;
    DeclStarts(i);
    assert i <= taumax;
  }

  /** Each edge of a declared parent is a `DemoEdge`. */
  lemma DeclaredDemoEdge(taumax: nat, i: int, j: int, k: int, e: (int, int))
    requires EdgeAt(Decl, taumax, i, j, k, e)
    ensures DemoEdge(taumax, e.0, e.1)
  {
    DeclStarts(i);
    assert e.1 == 2 * i + j && (2 * i + j) / 2 == i && (2 * i + j) % 2 == j;
  }

  /** The example network, built without lag weights. */
  function Demo(taumax: nat): (net: Network)
    requires taumax >= 1
    ensures Valid(net) && net.nvar == 2 && net.taumax == taumax
  {
    BuiltNetwork(Decl, None, taumax)
  }

  /** The example graph on ids, written out independently of the builder. */
  function DemoGraph(taumax: nat): (g: Graph)
    ensures WellFormed(g) && g.nnodes == 2 * (taumax + 1)
    ensures forall a, b :: (a, b) in g.edges <==> DemoEdge(taumax, a, b)
  {
    var n := 2 * (taumax + 1);
    var E := set a, b | a in Range(n) && b in Range(n) && DemoEdge(taumax, a, b) :: (a, b);
    forall a, b | DemoEdge(taumax, a, b) ensures (a, b) in E {
      assert a in Range(n) && b in Range(n);
    }
    Graph(n, E)
  }

  /** The builder produces the example graph. */
  lemma DemoBuilt(taumax: nat)
    requires taumax >= 1
    ensures Demo(taumax).g == DemoGraph(taumax)
  {
    var g, h := Demo(taumax).g, DemoGraph(taumax);
    forall e ensures e in g.edges <==> e in h.edges {
      DemoEdges(taumax, e);
    }
  }

  /** The ids reachable from id 13, that is (1,-6): everything up to 11, and 13. */
  predicate Reach(x: int)
  {
    0 <= x <= 11 || x == 13
  }

  /** A path from id 13 never leaves the reachable ids. */
  lemma {:induction false} PathStaysReachable(taumax: nat, p: seq<int>, i: nat)
    requires |p| >= 1 && p[0] == 13 && i < |p|
    requires forall k :: 0 <= k < |p| - 1 ==> DemoEdge(taumax, p[k], p[k + 1])
    ensures Reach(p[i])
  {
    if i > 0 {
      PathStaysReachable(taumax, p, i - 1);
      assert DemoEdge(taumax, p[i - 1], p[i]);
    }
  }

  /** The ids on the example's causal paths from 13 to 0: both nodes of the
      layers 1 to 5 (ids 2 to 11) and the source (id 13). */
  predicate OnPathId(x: int)
  {
    2 <= x <= 11 || x == 13
  }

  /** Every id on a causal path from 13 to 0 is an `OnPathId`: the path
      cannot leave the reachable ids, node 0 is its end, and node 1 has no
      child to continue from. */
  lemma DemoPathIdsWithin(taumax: nat, x: int)
    requires taumax >= 6 && x in PathNodes(DemoGraph(taumax), 13, 0)
    ensures OnPathId(x)
  {
    var g := DemoGraph(taumax);
    PathNodesMember(g, 13, 0, x);
    var p, i :| IsSimplePath(g, p, 13, 0) && 0 <= i < |p| - 1 && p[i] == x;
    DemoPathStep(taumax, p, i);
  }

  /** A node of a simple path from 13 to 0 other than its end is an `OnPathId`. */
  lemma DemoPathStep(taumax: nat, p: seq<int>, i: int)
    requires IsSimplePath(DemoGraph(taumax), p, 13, 0) && 0 <= i < |p| - 1
    ensures OnPathId(p[i])
  {
    var g := DemoGraph(taumax);
    assert forall k :: 0 <= k < |p| - 1 ==> DemoEdge(taumax, p[k], p[k + 1]) by {
      forall k | 0 <= k < |p| - 1 ensures DemoEdge(taumax, p[k], p[k + 1]) {
        assert (p[k], p[k + 1]) in g.edges;
      }
    }
    PathStaysReachable(taumax, p, i);
    assert DemoEdge(taumax, p[i], p[i + 1]);
    assert p[i] != p[|p| - 1];
  }

  /** A descending sequence of ids whose consecutive ids are example edges is
      a simple path of the example graph. */
  lemma DemoDescending(taumax: nat, p: seq<int>)
    requires |p| >= 2 && forall k :: 0 <= k < |p| - 1 ==> p[k] > p[k + 1] && DemoEdge(taumax, p[k], p[k + 1])
    ensures Distinct(p) && Linked(DemoGraph(taumax), p)
  {
    forall i, j | 0 <= i < j < |p| ensures p[i] > p[j] {
      DescendingFrom(p, i, j);
    }
  }

  /** In a sequence descending step by step, earlier entries are larger. */
  lemma {:induction false} DescendingFrom(p: seq<int>, i: int, j: int)
    requires forall k :: 0 <= k < |p| - 1 ==> p[k] > p[k + 1]
    requires 0 <= i < j < |p|
    ensures p[i] > p[j]
  {
    if j > i + 1 {
      DescendingFrom(p, i, j - 1);
    }
  }

  /** The even ids 10, 8, ..., 2 lie on a path from 13 to 0. */
  lemma DemoEvenPath(taumax: nat)
    requires taumax >= 6
    ensures IsSimplePath(DemoGraph(taumax), [13, 10, 8, 6, 4, 2, 0], 13, 0)
  {
    var p := [13, 10, 8, 6, 4, 2, 0];
    forall k | 0 <= k < |p| - 1 ensures p[k] > p[k + 1] && DemoEdge(taumax, p[k], p[k + 1]) {
      assert p[k] == if k == 0 then 13 else 12 - 2 * k;
      assert p[k + 1] == 10 - 2 * k;
    }
    DemoDescending(taumax, p);
  }

  /** The odd ids 11, 9, ..., 3 lie on a path from 13 to 0. */
  lemma DemoOddPath(taumax: nat)
    requires taumax >= 6
    ensures IsSimplePath(DemoGraph(taumax), [13, 11, 9, 7, 5, 3, 0], 13, 0)
  {
    var p := [13, 11, 9, 7, 5, 3, 0];
    forall k | 0 <= k < |p| - 1 ensures p[k] > p[k + 1] && DemoEdge(taumax, p[k], p[k + 1]) {
      assert p[k] == 13 - 2 * k;
      assert p[k + 1] == if k == 5 then 0 else 11 - 2 * k;
    }
    DemoDescending(taumax, p);
  }

  /** The ids on the example's causal paths: both nodes of the layers 1 to 5
      (ids 2 to 11) and the source (id 13). */
  lemma DemoPathIds(taumax: nat)
    requires taumax >= 6
    ensures forall x :: x in PathNodes(DemoGraph(taumax), 13, 0) <==> OnPathId(x)
  {
    var g := DemoGraph(taumax);
    forall x | x in PathNodes(g, 13, 0) ensures OnPathId(x) {
      DemoPathIdsWithin(taumax, x);
    }
    DemoEvenPath(taumax);
    DemoOddPath(taumax);
    var evens, odds := [13, 10, 8, 6, 4, 2, 0], [13, 11, 9, 7, 5, 3, 0];
    forall x | OnPathId(x) ensures x in PathNodes(g, 13, 0) {
      PathNodesMember(g, 13, 0, x);
      if x % 2 == 0 {
        assert evens[(12 - x) / 2] == x;
      } else {
        assert odds[(13 - x) / 2] == x;
      }
    }
  }

  /** The nodes the example's paths run through: the source (1,-6), and both
      variables at the lags -1 to -5. */
  predicate OnDemoPath(n: Node)
  {
    n == Node(1, -6) || (0 <= n.v <= 1 && -5 <= n.lag <= -1)
  }

  /** The example's path ids as a set. */
  function DemoIds(taumax: nat): (ids: set<int>)
    requires taumax >= 6
    ensures forall x :: x in ids <==> OnPathId(x)
  {
    set x | x in Range(2 * (taumax + 1)) && OnPathId(x)
  }

  /** The example's path nodes: its path ids, decoded. */
  function DemoPathNodes(taumax: nat): (ns: set<Node>)
    requires taumax >= 6
    ensures forall n :: n in ns <==> OnDemoPath(n)
  {
    var ns := NodesOfIds(DemoIds(taumax), 2);
    forall n ensures n in ns <==> OnDemoPath(n) {
      if OnDemoPath(n) {
        EncodeOnPath(n);
        assert n.v - 2 * n.lag in DemoIds(taumax);
      }
      if n in ns {
        var id :| id in DemoIds(taumax) && NodeSet(id, 2) == n;
        DecodeOnPath(id);
      }
    }
    ns
  }

  /** A path node is the decoding of its path id. */
  lemma EncodeOnPath(n: Node)
    requires OnDemoPath(n)
    ensures OnPathId(n.v - 2 * n.lag) && NodeSet(n.v - 2 * n.lag, 2) == n
  {
  }

  /** A path id decodes to a path node. */
  lemma DecodeOnPath(id: int)
    requires OnPathId(id)
    ensures OnDemoPath(NodeSet(id, 2))
  {
  }

  /** A node of the example network is looked up at `v + 2 * |lag|`. */
  lemma DemoLookup(net: Network, n: Node, id: int)
    requires Valid(net) && net.nvar == 2 && 0 <= n.v < 2 && -(net.taumax as int) <= n.lag <= 0
    requires id == n.v - 2 * n.lag
    ensures Lookup(net, n) == Ok(id)
  {
  }

  /** The source of the example, (1,-6), is id 13. */
  lemma DemoLookupSource(net: Network, s: Node)
    requires Valid(net) && net.nvar == 2 && net.taumax >= 6 && s.v == 1 && s.lag == -6
    ensures Lookup(net, s) == Ok(13)
  {
    DemoLookup(net, s, 13);
  }

  /** The target of the example, (0,0), is id 0. */
  lemma DemoLookupTarget(net: Network, t: Node)
    requires Valid(net) && net.nvar == 2 && t.v == 0 && t.lag == 0
    ensures Lookup(net, t) == Ok(0)
  {
    DemoLookup(net, t, 0);
  }

  /** With the source at id 13 and the target at id 0, the flat causal path
      nodes are the decoded path ids from 13 to 0. */
  lemma DemoFlatIds(net: Network, s: Node, t: Node)
    requires Valid(net) && Lookup(net, s) == Ok(13) && Lookup(net, t) == Ok(0)
    ensures CausalPathsFlat(net, s, t) == Ok(NodesOfIds(PathNodes(net.g, 13, 0), net.nvar))
  {
    assert LookupPair(net, s, t) == Ok((13, 0));
    CausalPathsFlatIds(net, s, t);
  }

  /** The builder's graph has the example's path ids. */
  lemma DemoBuiltPathIds(taumax: nat)
    requires taumax >= 6
    ensures PathNodes(Demo(taumax).g, 13, 0) == DemoIds(taumax)
  {
    DemoBuilt(taumax);
    DemoPathIds(taumax);
  }

  /** search_causalpaths((1,-6), (0,0), nested=False) on the example network
      succeeds with the example's path nodes, for any horizon of at least six
      lags (the demonstration uses ten). */
  lemma DemoCausalPaths(taumax: nat)
    requires taumax >= 6
    ensures CausalPathsFlat(Demo(taumax), Node(1, -6), Node(0, 0)) == Ok(DemoPathNodes(taumax))
  {
    var net := Demo(taumax);
    DemoLookupSource(net, Node(1, -6));
    DemoLookupTarget(net, Node(0, 0));
    DemoFlatIds(net, Node(1, -6), Node(0, 0));
    DemoBuiltPathIds(taumax);
  }

  /** The example's eleven path nodes, listed. */
  const DemoListed: set<Node> :=
    {Node(1, -6), Node(0, -1), Node(1, -1), Node(0, -2), Node(1, -2), Node(0, -3),
     Node(1, -3), Node(0, -4), Node(1, -4), Node(0, -5), Node(1, -5)}

  /** The example's path nodes are the listed ones: the source and both
      variables at lags 1 to 5, so not (0,-6), the other node of the source's
      layer. */
  lemma DemoPathNodesListed(taumax: nat)
    requires taumax >= 6
    ensures DemoPathNodes(taumax) == DemoListed
  {
    var ns := DemoPathNodes(taumax);
    forall n | n in ns ensures n in DemoListed {
      if n != Node(1, -6) {
        assert n == Node(n.v, n.lag);
        if n.v == 0 {
          assert n.lag == -1 || n.lag == -2 || n.lag == -3 || n.lag == -4 || n.lag == -5;
        } else {
          assert n.lag == -1 || n.lag == -2 || n.lag == -3 || n.lag == -4 || n.lag == -5;
        }
      }
    }
  }

  /** The eleven listed nodes are distinct. */
  lemma DemoListedCount()
    ensures |DemoListed| == 11 && Node(0, -6) !in DemoListed
  {
  }
}
