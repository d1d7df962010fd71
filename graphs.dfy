/** The directed graph over flat node ids and the adjacency helpers of
    causal_network.py (get_parents_from_nodes, get_children_from_nodes and the
    list/set helpers unique, intersect, union, exclude_intersection).

    The source passes node lists around, but every list it queries is built by
    `unique`/`set`, so the model uses `set<int>` for them; the helpers below
    state the set meaning of the list operations. */
module Graphs {

  /** A networkx DiGraph whose nodes are `range(nnodes)`, reduced to its edge set. */
  datatype Graph = Graph(nnodes: nat, edges: set<(int, int)>)

  /** Every edge joins two nodes of the graph (networkx refuses nothing else). */
  predicate WellFormed(g: Graph)
  {
    forall e | e in g.edges :: 0 <= e.0 < g.nnodes && 0 <= e.1 < g.nnodes
  }

  predicate InGraph(g: Graph, s: set<int>)
  {
    forall x | x in s :: 0 <= x < g.nnodes
  }

  /** The tails of the edges that end in `s`, and the heads of those that start there. */
  function EdgeTails(g: Graph, s: set<int>): set<int>
  {
    set e | e in g.edges && e.1 in s :: e.0
  }

  function EdgeHeads(g: Graph, s: set<int>): set<int>
  {
    set e | e in g.edges && e.0 in s :: e.1
  }

  lemma TailHasEdge(g: Graph, s: set<int>, p: int)
    requires p in EdgeTails(g, s)
    ensures exists c :: c in s && (p, c) in g.edges
  {
    var e :| e in g.edges && e.1 in s && e.0 == p;
    assert (p, e.1) == e;
    var c := e.1;
    assert c in s && (p, c) in g.edges;
  }

  lemma HeadHasEdge(g: Graph, s: set<int>, c: int)
    requires c in EdgeHeads(g, s)
    ensures exists p :: p in s && (p, c) in g.edges
  {
    var e :| e in g.edges && e.0 in s && e.1 == c;
    assert (e.0, c) == e;
    var p := e.0;
    assert p in s && (p, c) in g.edges;
  }

  lemma EdgeEnds(g: Graph, s: set<int>)
    ensures forall p :: p in EdgeTails(g, s) <==> exists c :: c in s && (p, c) in g.edges
    ensures forall c :: c in EdgeHeads(g, s) <==> exists p :: p in s && (p, c) in g.edges
  {
    forall p | p in EdgeTails(g, s) ensures exists c :: c in s && (p, c) in g.edges {
      TailHasEdge(g, s, p);
    }
    forall p, c | c in s && (p, c) in g.edges ensures p in EdgeTails(g, s) {
      var e := (p, c);
      assert e in g.edges && e.1 in s;
    }
    forall c | c in EdgeHeads(g, s) ensures exists p :: p in s && (p, c) in g.edges {
      HeadHasEdge(g, s, c);
    }
    forall p, c | p in s && (p, c) in g.edges ensures c in EdgeHeads(g, s) {
      var e := (p, c);
      assert e in g.edges && e.0 in s;
    }
  }

  /** get_parents_from_nodes: the predecessors of the nodes of `s`, without the
      members of `s` themselves. */
  function Parents(g: Graph, s: set<int>): (r: set<int>)
    ensures forall p :: p in r <==> p !in s && exists c :: c in s && (p, c) in g.edges
    ensures r !! s
    ensures WellFormed(g) ==> InGraph(g, r)
  {
    EdgeEnds(g, s);
    EdgeTails(g, s) - s
  }

  /** get_children_from_nodes: the successors of the nodes of `s`, without the
      members of `s` themselves. */
  function Children(g: Graph, s: set<int>): (r: set<int>)
    ensures forall c :: c in r <==> c !in s && exists p :: p in s && (p, c) in g.edges
    ensures r !! s
    ensures WellFormed(g) ==> InGraph(g, r)
  {
    EdgeEnds(g, s);
    EdgeHeads(g, s) - s
  }

  /** Parents and children are the two directions of one edge relation. */
  lemma ParentChildDual(g: Graph, p: int, c: int)
    requires p != c
    ensures p in Parents(g, {c}) <==> c in Children(g, {p})
    ensures p in Parents(g, {c}) <==> (p, c) in g.edges
  {
    if (p, c) in g.edges {
      assert c in {c} && (p, c) in g.edges;
      assert p in {p} && (p, c) in g.edges;
    }
  }

  /** Parents distribute over a union of node sets, up to the nodes of the union. */
  lemma ParentsOfUnion(g: Graph, a: set<int>, b: set<int>)
    ensures Parents(g, a + b) == (Parents(g, a) + Parents(g, b)) - (a + b)
  {
    forall p | p in (Parents(g, a) + Parents(g, b)) - (a + b)
      ensures p in Parents(g, a + b)
    {
      var c :| c in a + b && (p, c) in g.edges;
    }
  }

  /** unique: the distinct members of a list. */
  function Unique(a: seq<int>): (r: set<int>)
    ensures forall x :: x in r <==> x in a
    ensures |r| <= |a|
  {
    if a == [] then {} else
      var rest := Unique(a[1..]);
      assert forall x :: x in a <==> x == a[0] || x in a[1..];
      {a[0]} + rest
  }

  /** intersect: the members of both lists. */
  function Intersect(a: seq<int>, b: seq<int>): (r: set<int>)
    ensures forall x :: x in r <==> x in a && x in b
  {
    Unique(a) * Unique(b)
  }

  /** union: every member of any of the given collections. */
  function UnionAll(lists: seq<set<int>>): (r: set<int>)
    ensures forall x :: x in r <==> exists i :: 0 <= i < |lists| && x in lists[i]
  {
    if lists == [] then {} else
      var rest := UnionAll(lists[1..]);
      assert forall x :: x in rest <==> exists i :: 1 <= i < |lists| && x in lists[i] by {
        forall x | x in rest ensures exists i :: 1 <= i < |lists| && x in lists[i] {
          var k :| 0 <= k < |lists[1..]| && x in lists[1..][k];
          assert x in lists[k + 1];
        }
        forall x | exists i :: 1 <= i < |lists| && x in lists[i] ensures x in rest {
          var k :| 1 <= k < |lists| && x in lists[k];
          assert x in lists[1..][k - 1];
        }
      }
      lists[0] + rest
  }

  /** exclude_intersection: the list `a` without the members of `b`, keeping the
      order and the repetitions of `a`. */
  function ExcludeIntersection(a: seq<int>, b: seq<int>): (r: seq<int>)
    ensures forall x :: multiset(r)[x] == if x in b then 0 else multiset(a)[x]
  {
    if a == [] then [] else
      var rest := ExcludeIntersection(a[1..], b);
      assert a == [a[0]] + a[1..];
      assert multiset(a) == multiset{a[0]} + multiset(a[1..]);
      if a[0] in b then rest else
        assert multiset([a[0]] + rest) == multiset{a[0]} + multiset(rest);
        [a[0]] + rest
  }

  /** As sets, exclude_intersection is set difference. */
  lemma ExcludeIntersectionIsDifference(a: seq<int>, b: seq<int>)
    ensures Unique(ExcludeIntersection(a, b)) == Unique(a) - Unique(b)
  {
    var r := ExcludeIntersection(a, b);
    forall x ensures x in r <==> x in a && x !in b {
      assert x in r <==> multiset(r)[x] > 0;
      assert x in a <==> multiset(a)[x] > 0;
    }
  }
}
