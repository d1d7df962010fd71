/** The node queries of causal_network: __check_node, search_parents,
    search_children, search_causalpaths and check_links.

    A query node is a (variable, lag) pair. It passes __check_node when its
    variable is declared and its lag is not above taumax; its id is then looked
    up in the graph, which fails for a lag below -taumax. A positive lag passes
    the check and, through the absolute value of the codec, names the node of
    the negated lag. */
module Queries {
  import opened Outcomes
  import opened NodeCodec
  import opened Graphs
  import opened SimplePaths
  import opened CausalNetwork

  /** The node a query node names in the graph: the same variable, the lag made
      non-positive. */
  function Canon(n: Node): Node
  {
    Node(n.v, -(Abs(n.lag) as int))
  }

  /** The nodes of the unrolled graph, in (variable, lag) form. */
  predicate Present(net: Network, n: Node)
  {
    0 <= n.v < net.nvar && -(net.taumax as int) <= n.lag <= 0
  }

  /** __check_node: the variable must be declared, then the lag must not exceed
      taumax. The first failing test names the error. */
  function CheckNode(net: Network, n: Node): (r: Option<Error>)
    ensures r.None? <==> 0 <= n.v < net.nvar && n.lag <= net.taumax
    ensures r.Some? ==> r.value == (if 0 <= n.v < net.nvar then LagBeyondHorizon(n.lag) else InvalidVariable(n.v))
  {
    if !(0 <= n.v < net.nvar) then Some(InvalidVariable(n.v))
    else if n.lag > net.taumax then Some(LagBeyondHorizon(n.lag))
    else None
  }

  /** Ids of a layer: `v + nvar*m` is inside `nvar*(taumax+1)` nodes exactly when
      the layer `m` is at most taumax. */
  lemma LayerBound(v: int, m: nat, nvar: nat, taumax: nat)
    requires 0 <= v < nvar
    ensures v + nvar * m < nvar * (taumax + 1) <==> m <= taumax
  {
    if m <= taumax {
      MulLe(nvar, m, taumax);
      assert nvar * (taumax + 1) == nvar * taumax + nvar;
    } else {
      MulLe(nvar, taumax + 1, m);
    }
  }

  /** The graph lookup of a checked node: networkx refuses an id that is not a
      node; every other id decodes to the node's canonical form. */
  function Locate(net: Network, n: Node): (r: Result<int>)
    requires Valid(net) && CheckNode(net, n).None?
    ensures r.Ok? <==> -(net.taumax as int) <= n.lag
    ensures r.Err? ==> r.error == NodeNotInGraph
    ensures r.Ok? ==> 0 <= r.value < net.g.nnodes && NodeSet(r.value, net.nvar) == Canon(n)
    ensures r.Ok? ==> r.value == NodeNumber(Canon(n), net.nvar, 0)
  {
    var id := NodeNumber(n, net.nvar, 0);
    LayerBound(n.v, Abs(n.lag), net.nvar, net.taumax);
    if id < net.g.nnodes then
      EncodeDecode(Canon(n), net.nvar);
      Ok(id)
    else Err(NodeNotInGraph)
  }

  /** Check then look up one node. */
  function Lookup(net: Network, n: Node): (r: Result<int>)
    requires Valid(net)
    ensures r.Ok? <==> Present(net, Canon(n)) && n.lag <= net.taumax
    ensures r.Err? && CheckNode(net, n).Some? ==> r.error == CheckNode(net, n).value
    ensures r.Err? && CheckNode(net, n).None? ==> r.error == NodeNotInGraph
    ensures r.Ok? ==> 0 <= r.value < net.g.nnodes && NodeSet(r.value, net.nvar) == Canon(n)
    ensures r.Ok? ==> r.value == NodeNumber(Canon(n), net.nvar, 0)
  {
    match CheckNode(net, n)
    case Some(e) => Err(e)
    case None => Locate(net, n)
  }

  /** Check two nodes in order (source first), then look both up. */
  function LookupPair(net: Network, s: Node, t: Node): (r: Result<(int, int)>)
    requires Valid(net)
    ensures r.Ok? <==> Lookup(net, s).Ok? && Lookup(net, t).Ok?
    ensures r.Ok? ==> r.value == (Lookup(net, s).value, Lookup(net, t).value)
    ensures r.Err? && CheckNode(net, s).Some? ==> r.error == CheckNode(net, s).value
    ensures r.Err? && CheckNode(net, s).None? && CheckNode(net, t).Some? ==> r.error == CheckNode(net, t).value
    ensures r.Err? && CheckNode(net, s).None? && CheckNode(net, t).None? ==> r.error == NodeNotInGraph
  {
    match CheckNode(net, s)
    case Some(e) => Err(e)
    case None =>
      match CheckNode(net, t)
      case Some(e) => Err(e)
      case None =>
        var sid :- Locate(net, s);
        var tid :- Locate(net, t);
        Ok((sid, tid))
  }

  /** The id of a node of the graph. */
  lemma PresentId(net: Network, p: Node)
    requires Valid(net) && Present(net, p)
    ensures 0 <= NodeNumber(p, net.nvar, 0) < net.g.nnodes
    ensures NodeSet(NodeNumber(p, net.nvar, 0), net.nvar) == p
  {
    LayerBound(p.v, Abs(p.lag), net.nvar, net.taumax);
    EncodeDecode(p, net.nvar);
  }

  /** convert_nodes_to_listofset on a set of graph ids: a node is among the
      decoded ids exactly when it is a node of the graph whose id is among them. */
  lemma DecodedMember(net: Network, ids: set<int>, p: Node)
    requires Valid(net) && InGraph(net.g, ids)
    ensures p in NodesOfIds(ids, net.nvar) <==> Present(net, p) && NodeNumber(p, net.nvar, 0) in ids
  {
    var nvar := net.nvar;
    if p in NodesOfIds(ids, nvar) {
      var id :| id in ids && NodeSet(id, nvar) == p;
      DecodeEncode(id, nvar);
      LayerBound(p.v, Abs(p.lag), nvar, net.taumax);
    }
    if Present(net, p) && NodeNumber(p, nvar, 0) in ids {
      PresentId(net, p);
    }
  }

  /** Decoding graph ids commutes with the set operations the source applies
      to id lists before decoding them: union, difference, intersection. */
  lemma DecodeUnion(net: Network, a: set<int>, b: set<int>)
    requires Valid(net) && InGraph(net.g, a) && InGraph(net.g, b)
    ensures NodesOfIds(a + b, net.nvar) == NodesOfIds(a, net.nvar) + NodesOfIds(b, net.nvar)
  {
    forall p ensures p in NodesOfIds(a + b, net.nvar) <==> p in NodesOfIds(a, net.nvar) || p in NodesOfIds(b, net.nvar) {
      DecodedMember(net, a, p);
      DecodedMember(net, b, p);
      DecodedMember(net, a + b, p);
    }
  }

  lemma DecodeDiff(net: Network, a: set<int>, b: set<int>)
    requires Valid(net) && InGraph(net.g, a) && InGraph(net.g, b)
    ensures NodesOfIds(a - b, net.nvar) == NodesOfIds(a, net.nvar) - NodesOfIds(b, net.nvar)
  {
    forall p ensures p in NodesOfIds(a - b, net.nvar) <==> p in NodesOfIds(a, net.nvar) && p !in NodesOfIds(b, net.nvar) {
      DecodedMember(net, a, p);
      DecodedMember(net, b, p);
      DecodedMember(net, a - b, p);
    }
  }

  lemma DecodeMeet(net: Network, a: set<int>, b: set<int>)
    requires Valid(net) && InGraph(net.g, a) && InGraph(net.g, b)
    ensures NodesOfIds(a * b, net.nvar) == NodesOfIds(a, net.nvar) * NodesOfIds(b, net.nvar)
  {
    forall p ensures p in NodesOfIds(a * b, net.nvar) <==> p in NodesOfIds(a, net.nvar) && p in NodesOfIds(b, net.nvar) {
      DecodedMember(net, a, p);
      DecodedMember(net, b, p);
      DecodedMember(net, a * b, p);
    }
  }

  /** search_parents: the decoded parents of the node. */
  function SearchParents(net: Network, t: Node): (r: Result<set<Node>>)
    requires Valid(net)
    ensures r.Ok? <==> Lookup(net, t).Ok?
    ensures r.Err? ==> r.error == Lookup(net, t).error
    ensures r.Ok? ==> forall p | p in r.value :: Present(net, p)
  {
    var tid :- Lookup(net, t);
    var ps := Parents(net.g, {tid});
    forall p | p in NodesOfIds(ps, net.nvar) ensures Present(net, p) {
      DecodedMember(net, ps, p);
    }
    Ok(NodesOfIds(ps, net.nvar))
  }

  /** search_children: the decoded children of the node (an empty list when there
      are none, whatever the verbosity). */
  function SearchChildren(net: Network, t: Node): (r: Result<set<Node>>)
    requires Valid(net)
    ensures r.Ok? <==> Lookup(net, t).Ok?
    ensures r.Err? ==> r.error == Lookup(net, t).error
    ensures r.Ok? ==> forall c | c in r.value :: Present(net, c)
  {
    var tid :- Lookup(net, t);
    var cs := Children(net.g, {tid});
    forall c | c in NodesOfIds(cs, net.nvar) ensures Present(net, c) {
      DecodedMember(net, cs, c);
    }
    Ok(NodesOfIds(cs, net.nvar))
  }

  /** Distinct nodes of the graph have distinct ids. */
  lemma PresentInjective(net: Network, p: Node, q: Node)
    requires Valid(net) && Present(net, p) && Present(net, q)
    ensures NodeNumber(p, net.nvar, 0) == NodeNumber(q, net.nvar, 0) <==> p == q
  {
    PresentId(net, p);
    PresentId(net, q);
  }

  /** A node is reported as a parent exactly when it is another node of the graph
      with an edge into the queried one. */
  lemma SearchParentsMember(net: Network, t: Node, p: Node)
    requires Valid(net) && SearchParents(net, t).Ok?
    ensures p in SearchParents(net, t).value <==>
            Present(net, p) && p != Canon(t) &&
            (NodeNumber(p, net.nvar, 0), NodeNumber(t, net.nvar, 0)) in net.g.edges
  {
    var tid := Lookup(net, t).value;
    var ps := Parents(net.g, {tid});
    DecodedMember(net, ps, p);
    PresentId(net, Canon(t));
    if Present(net, p) {
      PresentInjective(net, p, Canon(t));
      if p != Canon(t) && (NodeNumber(p, net.nvar, 0), tid) in net.g.edges {
        assert tid in {tid};
      }
    }
  }

  /** A node is reported as a child exactly when it is another node of the graph
      with an edge from the queried one. */
  lemma SearchChildrenMember(net: Network, t: Node, c: Node)
    requires Valid(net) && SearchChildren(net, t).Ok?
    ensures c in SearchChildren(net, t).value <==>
            Present(net, c) && c != Canon(t) &&
            (NodeNumber(t, net.nvar, 0), NodeNumber(c, net.nvar, 0)) in net.g.edges
  {
    var tid := Lookup(net, t).value;
    var cs := Children(net.g, {tid});
    DecodedMember(net, cs, c);
    PresentId(net, Canon(t));
    if Present(net, c) {
      PresentInjective(net, c, Canon(t));
      if c != Canon(t) && (tid, NodeNumber(c, net.nvar, 0)) in net.g.edges {
        assert tid in {tid};
      }
    }
  }

  /** A path of ids in (variable, lag) form. */
  function DecodePath(p: seq<int>, nvar: nat): (q: seq<Node>)
    requires nvar > 0
    ensures |q| == |p| && forall i | 0 <= i < |p| :: q[i] == NodeSet(p[i], nvar)
  {
    if p == [] then [] else [NodeSet(p[0], nvar)] + DecodePath(p[1..], nvar)
  }

  /** search_causalpaths(nested=True): every simple path from the source to the
      target, decoded. */
  function CausalPathsNested(net: Network, s: Node, t: Node): (r: Result<set<seq<Node>>>)
    requires Valid(net)
    ensures r.Ok? <==> LookupPair(net, s, t).Ok?
    ensures r.Err? ==> r.error == LookupPair(net, s, t).error
    ensures r.Ok? ==> forall q | q in r.value :: |q| >= 2 && q[0] == Canon(s) && q[|q| - 1] == Canon(t)
  {
    var (sid, tid) :- LookupPair(net, s, t);
    var paths := AllSimplePaths(net.g, sid, tid);
    Ok(set p | p in paths :: DecodePath(p, net.nvar))
  }

  /** search_causalpaths(nested=False): the nodes of those paths before the
      target, decoded. */
  function CausalPathsFlat(net: Network, s: Node, t: Node): (r: Result<set<Node>>)
    requires Valid(net)
    ensures r.Ok? <==> LookupPair(net, s, t).Ok?
    ensures r.Err? ==> r.error == LookupPair(net, s, t).error
    ensures r.Ok? ==> Canon(t) !in r.value
  {
    var (sid, tid) :- LookupPair(net, s, t);
    var c := PathNodes(net.g, sid, tid);
    PathNodesShape(net.g, sid, tid);
    DecodedMember(net, c, Canon(t));
    PresentId(net, Canon(t));
    Ok(NodesOfIds(c, net.nvar))
  }

  /** The flat path nodes of a pair, in terms of its ids. */
  lemma CausalPathsFlatIds(net: Network, s: Node, t: Node)
    requires Valid(net) && LookupPair(net, s, t).Ok?
    ensures var ids := LookupPair(net, s, t).value;
            CausalPathsFlat(net, s, t) == Ok(NodesOfIds(PathNodes(net.g, ids.0, ids.1), net.nvar))
  {
  }

  /** A node is a flat path node exactly when it lies in the graph and some
      simple path from the source's id visits its id before reaching the
      target's. */
  lemma CausalPathsFlatMember(net: Network, s: Node, t: Node, n: Node)
    requires Valid(net) && LookupPair(net, s, t).Ok?
    ensures var (sid, tid) := LookupPair(net, s, t).value;
            n in CausalPathsFlat(net, s, t).value <==>
              Present(net, n) &&
              exists p, i :: IsSimplePath(net.g, p, sid, tid) && 0 <= i < |p| - 1 && p[i] == NodeNumber(n, net.nvar, 0)
  {
    var (sid, tid) := LookupPair(net, s, t).value;
    var c := PathNodes(net.g, sid, tid);
    CausalPathsFlatIds(net, s, t);
    PathNodesShape(net.g, sid, tid);
    DecodedMember(net, c, n);
    PathNodesMember(net.g, sid, tid, NodeNumber(n, net.nvar, 0));
  }

  /** The nested form of search_causalpaths is empty exactly when no simple
      path joins the two ids. */
  lemma NestedNonEmpty(net: Network, s: Node, t: Node)
    requires Valid(net) && LookupPair(net, s, t).Ok?
    ensures var ids := LookupPair(net, s, t).value;
            CausalPathsNested(net, s, t).value != {} <==> AllSimplePaths(net.g, ids.0, ids.1) != {}
  {
    var ids := LookupPair(net, s, t).value;
    var paths := AllSimplePaths(net.g, ids.0, ids.1);
    if paths != {} {
      var p :| p in paths;
      assert DecodePath(p, net.nvar) in CausalPathsNested(net, s, t).value;
    }
  }

  /** The flat form holds the source exactly when some simple path joins the
      two ids, and is empty otherwise. */
  lemma FlatHoldsSource(net: Network, s: Node, t: Node)
    requires Valid(net) && LookupPair(net, s, t).Ok?
    ensures var ids := LookupPair(net, s, t).value;
            (Canon(s) in CausalPathsFlat(net, s, t).value <==> AllSimplePaths(net.g, ids.0, ids.1) != {}) &&
            (CausalPathsFlat(net, s, t).value != {} <==> AllSimplePaths(net.g, ids.0, ids.1) != {})
  {
    var ids := LookupPair(net, s, t).value;
    var c := PathNodes(net.g, ids.0, ids.1);
    PathNodesShape(net.g, ids.0, ids.1);
    DecodedMember(net, c, Canon(s));
    PresentId(net, Canon(s));
    if AllSimplePaths(net.g, ids.0, ids.1) == {} {
      assert c == {};
    }
  }

  /** The answer of check_links. */
  datatype Link = Directed | CausalPath | NoLink

  /** check_links: 'directed' when the source (as given) is among the target's
      parents, else 'causalpath' when some simple path joins them, else None. The
      target is checked and looked up before the source is checked. */
  function CheckLinks(net: Network, s: Node, t: Node): (r: Result<Link>)
    requires Valid(net)
    ensures Lookup(net, t).Err? ==> r == Err(Lookup(net, t).error)
    ensures r.Ok? <==> LookupPair(net, s, t).Ok?
  {
    var pt :- SearchParents(net, t);
    if s in pt then
      SearchParentsMember(net, t, s);
      Ok(Directed)
    else
      var paths :- CausalPathsNested(net, s, t);
      Ok(if paths != {} then CausalPath else NoLink)
  }

  /** When check_links answers, the answer is `Directed` for a listed parent
      and otherwise reports whether the path search found anything. */
  lemma CheckLinksCases(net: Network, s: Node, t: Node)
    requires Valid(net) && CheckLinks(net, s, t).Ok?
    ensures SearchParents(net, t).Ok? && CausalPathsNested(net, s, t).Ok?
    ensures CheckLinks(net, s, t).value ==
              if s in SearchParents(net, t).value then Directed
              else if CausalPathsNested(net, s, t).value != {} then CausalPath
              else NoLink
  {
  }

  /** The link type is `Directed` exactly for a source written in graph form
      with an edge into the target. */
  lemma CheckLinksDirected(net: Network, s: Node, t: Node)
    requires Valid(net) && CheckLinks(net, s, t).Ok?
    ensures CheckLinks(net, s, t).value == Directed <==>
            s == Canon(s) && s != Canon(t) &&
            (NodeNumber(s, net.nvar, 0), NodeNumber(t, net.nvar, 0)) in net.g.edges
  {
    CheckLinksCases(net, s, t);
    SearchParentsMember(net, t, s);
    assert Present(net, Canon(s));
  }

  /** A source and a target are linked, directly or by a path, exactly when a
      simple path joins their ids. */
  lemma CheckLinksLinked(net: Network, s: Node, t: Node)
    requires Valid(net) && CheckLinks(net, s, t).Ok?
    ensures var (sid, tid) := LookupPair(net, s, t).value;
            CheckLinks(net, s, t).value != NoLink <==> AllSimplePaths(net.g, sid, tid) != {}
  {
    var (sid, tid) := LookupPair(net, s, t).value;
    CheckLinksCases(net, s, t);
    NestedNonEmpty(net, s, t);
    if s in SearchParents(net, t).value {
      SearchParentsMember(net, t, s);
      PresentInjective(net, s, Canon(t));
      EdgeIsPath(net.g, sid, tid);
    }
  }

  /** The link type is `CausalPath` exactly when the source is not a direct
      parent in graph form and yet some simple path joins the two ids. */
  lemma CheckLinksCausalPath(net: Network, s: Node, t: Node)
    requires Valid(net) && CheckLinks(net, s, t).Ok?
    ensures var (sid, tid) := LookupPair(net, s, t).value;
            CheckLinks(net, s, t).value == CausalPath <==>
              !(s == Canon(s) && s != Canon(t) &&
                (NodeNumber(s, net.nvar, 0), NodeNumber(t, net.nvar, 0)) in net.g.edges) &&
              AllSimplePaths(net.g, sid, tid) != {}
  {
    CheckLinksDirected(net, s, t);
    CheckLinksLinked(net, s, t);
  }

  /** A source written with a positive lag is never reported as a direct parent,
      although it names the same graph node as its negated lag. */
  lemma PositiveLagNeverDirected(net: Network, s: Node, t: Node)
    requires Valid(net) && s.lag > 0 && CheckLinks(net, s, t).Ok?
    ensures CheckLinks(net, s, t).value != Directed
  {
    CheckLinksDirected(net, s, t);
  }
}
