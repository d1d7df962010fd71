/** The conditioning sets of causal_network: search_mit_condition,
    search_mitp_condition, search_mpid_condition and search_bundled_components.

    Each derivation works on graph ids and decodes its answer at the end; the
    model keeps the ids in sets, as every list involved is deduplicated by
    `unique`, `union` or `set` before it is used. The optional weighted
    transitive reduction is `Reduce` on the network's weights. */
module Conditions {
  import opened Outcomes
  import opened NodeCodec
  import opened Graphs
  import opened SimplePaths
  import opened Reduction
  import opened CausalNetwork
  import opened Queries

  /** The weighted transitive reduction of `w` against the children of `w` that
      lie in `against`, as every derivation calls it. */
  function ReduceAgainst(net: Network, w: set<int>, against: set<int>): (r: set<int>)
    requires Valid(net)
    ensures r <= w
  {
    Reduce(net.weights, w, Children(net.g, w) * against)
  }

  function Decode(net: Network, ids: set<int>): set<Node>
    requires Valid(net)
  {
    NodesOfIds(ids, net.nvar)
  }

  // ---------------------------------------------------------------- MIT

  /** search_mit_condition: the parents of the source together with the parents
      of the target other than the source. The `transitive` flag of the source
      has no effect there and is not a parameter here. */
  function Mit(net: Network, s: Node, t: Node): (r: Result<set<Node>>)
    requires Valid(net)
    ensures r.Ok? <==> LookupPair(net, s, t).Ok?
    ensures r.Err? ==> r.error == LookupPair(net, s, t).error
  {
    var (sid, tid) :- LookupPair(net, s, t);
    var pt := Parents(net.g, {tid});
    Ok(Decode(net, Parents(net.g, {sid}) + (pt - {sid})))
  }

  /** The MIT condition is the union of the two parent queries, without the
      source itself. */
  lemma MitIsParentUnion(net: Network, s: Node, t: Node)
    requires Valid(net) && Mit(net, s, t).Ok?
    ensures SearchParents(net, s).Ok? && SearchParents(net, t).Ok?
    ensures Mit(net, s, t).value ==
            SearchParents(net, s).value + (SearchParents(net, t).value - {Canon(s)})
  {
    var (sid, tid) := LookupPair(net, s, t).value;
    var ps, pt := Parents(net.g, {sid}), Parents(net.g, {tid});
    DecodeUnion(net, ps, pt - {sid});
    DecodeDiff(net, pt, {sid});
    assert Decode(net, {sid}) == {Canon(s)};
  }

  /** The source is never among its own MIT conditions. */
  lemma MitExcludesSource(net: Network, s: Node, t: Node)
    requires Valid(net) && Mit(net, s, t).Ok?
    ensures Canon(s) !in Mit(net, s, t).value
  {
    MitIsParentUnion(net, s, t);
    SearchParentsMember(net, s, Canon(s));
  }

  // ---------------------------------------------------------------- MITP

  /** The MITP condition on ids: the parents of the path nodes and the parents
      of the target off the paths, optionally reduced against the path nodes. */
  function MitpIds(net: Network, sid: int, tid: int, transitive: bool): (w: set<int>)
    requires Valid(net) && 0 <= sid < net.g.nnodes && 0 <= tid < net.g.nnodes
    ensures InGraph(net.g, w)
    ensures w !! PathNodes(net.g, sid, tid)
  {
    var (pc, c) := PathAndParents(net.g, sid, tid);
    var w := pc + (Parents(net.g, {tid}) - c);
    if transitive then ReduceAgainst(net, w, c) else w
  }

  /** search_mitp_condition: no condition when check_links finds no link,
      otherwise the MITP condition of the paths from the source. */
  function Mitp(net: Network, s: Node, t: Node, transitive: bool): (r: Result<set<Node>>)
    requires Valid(net)
    ensures r.Ok? <==> LookupPair(net, s, t).Ok?
    ensures r.Err? ==> r.error == LookupPair(net, s, t).error
  {
    var (sid, tid) :- LookupPair(net, s, t);
    var link := CheckLinks(net, s, t).value;
    if link == NoLink then Ok({}) else Ok(Decode(net, MitpIds(net, sid, tid, transitive)))
  }

  /** Without a link there is nothing to condition on; with one, the condition
      never holds a node of the causal paths. */
  lemma MitpAvoidsPaths(net: Network, s: Node, t: Node, transitive: bool)
    requires Valid(net) && Mitp(net, s, t, transitive).Ok?
    ensures CheckLinks(net, s, t) == Ok(NoLink) ==> Mitp(net, s, t, transitive).value == {}
    ensures Mitp(net, s, t, transitive).value !! CausalPathsFlat(net, s, t).value
  {
    var (sid, tid) := LookupPair(net, s, t).value;
    var w := MitpIds(net, sid, tid, transitive);
    var c := PathNodes(net.g, sid, tid);
    PathNodesShape(net.g, sid, tid);
    NodesOfIdsDisjoint(w, c, net.nvar);
  }

  /** The reduction only removes conditions. */
  lemma MitpReductionShrinks(net: Network, s: Node, t: Node)
    requires Valid(net) && Mitp(net, s, t, false).Ok?
    ensures Mitp(net, s, t, true).value <= Mitp(net, s, t, false).value
  {
    var (sid, tid) := LookupPair(net, s, t).value;
    var c := PathNodes(net.g, sid, tid);
    PathNodesShape(net.g, sid, tid);
    DecodeSubset(net, MitpIds(net, sid, tid, true), MitpIds(net, sid, tid, false));
  }

  /** Decoding keeps inclusion. */
  /** Every decoded graph id is a node present in the network. */
  lemma DecodedPresent(net: Network, ids: set<int>)
    requires Valid(net) && InGraph(net.g, ids)
    ensures forall n | n in Decode(net, ids) :: Present(net, n)
  {
    forall n | n in Decode(net, ids) ensures Present(net, n) {
      DecodedMember(net, ids, n);
    }
  }

  lemma DecodeSubset(net: Network, a: set<int>, b: set<int>)
    requires Valid(net) && a <= b
    ensures Decode(net, a) <= Decode(net, b)
  {
  }

  /** Without the reduction, a linked pair is conditioned on every parent of the
      target off the paths and every parent of the path nodes. */
  lemma MitpCovers(net: Network, s: Node, t: Node)
    requires Valid(net) && Mitp(net, s, t, false).Ok? && CheckLinks(net, s, t) != Ok(NoLink)
    ensures var (sid, tid) := LookupPair(net, s, t).value;
            var (pc, c) := PathAndParents(net.g, sid, tid);
            Mitp(net, s, t, false).value == Decode(net, pc) + (SearchParents(net, t).value - Decode(net, c))
  {
    var (sid, tid) := LookupPair(net, s, t).value;
    var (pc, c) := PathAndParents(net.g, sid, tid);
    var pt := Parents(net.g, {tid});
    PathNodesShape(net.g, sid, tid);
    DecodeUnion(net, pc, pt - c);
    DecodeDiff(net, pt, c);
  }

  // ---------------------------------------------------------------- MPID

  /** The answer of search_mpid_condition: no condition when a source is not
      linked to the target, else the condition and the nodes of both sources'
      paths (`onlyw` only chooses whether the second is returned). */
  datatype MpidAnswer = Unlinked | Mpid(w: set<Node>, cpaths: set<Node>)

  /** The MPID condition on ids: the parents of the target off both paths and
      the parents of each path off the other one. */
  function MpidIds(net: Network, s1: int, s2: int, tid: int, transitive: bool): (w: set<int>)
    requires Valid(net) && 0 <= s1 < net.g.nnodes && 0 <= s2 < net.g.nnodes && 0 <= tid < net.g.nnodes
    ensures InGraph(net.g, w)
    ensures w !! PathNodes(net.g, s1, tid) + PathNodes(net.g, s2, tid)
  {
    var (pc1, c1) := PathAndParents(net.g, s1, tid);
    var (pc2, c2) := PathAndParents(net.g, s2, tid);
    var w := (Parents(net.g, {tid}) - (c1 + c2)) + (pc1 - c2) + (pc2 - c1);
    assert InGraph(net.g, w) by {
      assert InGraph(net.g, Parents(net.g, {tid})) && InGraph(net.g, pc1) && InGraph(net.g, pc2);
    }
    assert w !! c1 + c2 by {
      assert pc1 !! c1 && pc2 !! c2;
    }
    if transitive then ReduceAgainst(net, w, c1 + c2) else w
  }

  /** search_mpid_condition: the three nodes are checked in order, both links are
      looked for, and only two linked sources get a condition. */
  function MpidCondition(net: Network, s1: Node, s2: Node, t: Node, transitive: bool): (r: Result<MpidAnswer>)
    requires Valid(net)
    ensures r.Ok? ==> LookupPair(net, s1, t).Ok? && LookupPair(net, s2, t).Ok?
    ensures CheckNode(net, s1).Some? ==> r == Err(CheckNode(net, s1).value)
    ensures CheckNode(net, s1).None? && CheckNode(net, s2).Some? ==> r == Err(CheckNode(net, s2).value)
  {
    match CheckNode(net, s1)
    case Some(e) => Err(e)
    case None =>
      match CheckNode(net, s2)
      case Some(e) => Err(e)
      case None =>
        match CheckNode(net, t)
        case Some(e) => Err(e)
        case None =>
          var link1 :- CheckLinks(net, s1, t);
          var link2 :- CheckLinks(net, s2, t);
          if link1 == NoLink || link2 == NoLink then Ok(Unlinked)
          else
            var (sid1, tid) := LookupPair(net, s1, t).value;
            var sid2 := LookupPair(net, s2, t).value.0;
            var c := PathNodes(net.g, sid1, tid) + PathNodes(net.g, sid2, tid);
            Ok(Mpid(Decode(net, MpidIds(net, sid1, sid2, tid, transitive)), Decode(net, c)))
  }

  /** A pair gets no condition exactly when one of its sources is not linked
      to the target. */
  lemma MpidUnlinked(net: Network, s1: Node, s2: Node, t: Node, transitive: bool)
    requires Valid(net) && MpidCondition(net, s1, s2, t, transitive).Ok?
    ensures MpidCondition(net, s1, s2, t, transitive) == Ok(Unlinked) <==>
            CheckLinks(net, s1, t) == Ok(NoLink) || CheckLinks(net, s2, t) == Ok(NoLink)
    ensures var (sid1, tid) := LookupPair(net, s1, t).value;
            var sid2 := LookupPair(net, s2, t).value.0;
            MpidCondition(net, s1, s2, t, transitive) == Ok(Unlinked) <==>
              AllSimplePaths(net.g, sid1, tid) == {} || AllSimplePaths(net.g, sid2, tid) == {}
  {
    CheckLinksLinked(net, s1, t);
    CheckLinksLinked(net, s2, t);
  }

  /** The condition a linked pair gets, in terms of the ids of its nodes. */
  lemma MpidLinked(net: Network, s1: Node, s2: Node, t: Node, transitive: bool)
    requires Valid(net) && MpidCondition(net, s1, s2, t, transitive).Ok?
    requires MpidCondition(net, s1, s2, t, transitive).value.Mpid?
    ensures var (sid1, tid) := LookupPair(net, s1, t).value;
            var sid2 := LookupPair(net, s2, t).value.0;
            MpidCondition(net, s1, s2, t, transitive).value ==
              Mpid(Decode(net, MpidIds(net, sid1, sid2, tid, transitive)),
                   Decode(net, PathNodes(net.g, sid1, tid) + PathNodes(net.g, sid2, tid)))
  {
  }

  /** A linked pair's condition avoids every node of both sources' paths, and
      the paths it reports are those of search_causalpaths. */
  lemma MpidAvoidsPaths(net: Network, s1: Node, s2: Node, t: Node, transitive: bool)
    requires Valid(net) && MpidCondition(net, s1, s2, t, transitive).Ok?
    requires MpidCondition(net, s1, s2, t, transitive).value.Mpid?
    ensures var m := MpidCondition(net, s1, s2, t, transitive).value;
            m.w !! m.cpaths &&
            m.cpaths == CausalPathsFlat(net, s1, t).value + CausalPathsFlat(net, s2, t).value
  {
    var (sid1, tid) := LookupPair(net, s1, t).value;
    var sid2 := LookupPair(net, s2, t).value.0;
    var c1, c2 := PathNodes(net.g, sid1, tid), PathNodes(net.g, sid2, tid);
    PathNodesShape(net.g, sid1, tid);
    PathNodesShape(net.g, sid2, tid);
    var w := MpidIds(net, sid1, sid2, tid, transitive);
    MpidLinked(net, s1, s2, t, transitive);
    CausalPathsFlatIds(net, s1, t);
    CausalPathsFlatIds(net, s2, t);
    NodesOfIdsDisjoint(w, c1 + c2, net.nvar);
    DecodeUnion(net, c1, c2);
  }

  /** The reduction only removes conditions; the reported paths stay the same. */
  lemma MpidReductionShrinks(net: Network, s1: Node, s2: Node, t: Node)
    requires Valid(net) && MpidCondition(net, s1, s2, t, false).Ok?
    requires MpidCondition(net, s1, s2, t, false).value.Mpid?
    ensures MpidCondition(net, s1, s2, t, true).Ok? && MpidCondition(net, s1, s2, t, true).value.Mpid?
    ensures MpidCondition(net, s1, s2, t, true).value.w <= MpidCondition(net, s1, s2, t, false).value.w
    ensures MpidCondition(net, s1, s2, t, true).value.cpaths == MpidCondition(net, s1, s2, t, false).value.cpaths
  {
    var (sid1, tid) := LookupPair(net, s1, t).value;
    var sid2 := LookupPair(net, s2, t).value.0;
    DecodeSubset(net, MpidIds(net, sid1, sid2, tid, true), MpidIds(net, sid1, sid2, tid, false));
  }

  /** Without the reduction, a linked pair is conditioned on every parent of the
      target that lies on neither source's paths. */
  lemma MpidCoversTarget(net: Network, s1: Node, s2: Node, t: Node)
    requires Valid(net) && MpidCondition(net, s1, s2, t, false).Ok?
    requires MpidCondition(net, s1, s2, t, false).value.Mpid?
    ensures SearchParents(net, t).Ok?
    ensures var m := MpidCondition(net, s1, s2, t, false).value;
            SearchParents(net, t).value - m.cpaths <= m.w
  {
    var (sid1, tid) := LookupPair(net, s1, t).value;
    var sid2 := LookupPair(net, s2, t).value.0;
    var c := PathNodes(net.g, sid1, tid) + PathNodes(net.g, sid2, tid);
    var pt := Parents(net.g, {tid});
    PathNodesShape(net.g, sid1, tid);
    PathNodesShape(net.g, sid2, tid);
    DecodeDiff(net, pt, c);
    DecodeSubset(net, pt - c, MpidIds(net, sid1, sid2, tid, false));
  }

  /** The two sources play symmetric roles. */
  lemma MpidSymmetric(net: Network, s1: Node, s2: Node, t: Node, transitive: bool)
    requires Valid(net) && MpidCondition(net, s1, s2, t, transitive).Ok?
    ensures MpidCondition(net, s2, s1, t, transitive) == MpidCondition(net, s1, s2, t, transitive)
  {
    var r := MpidCondition(net, s1, s2, t, transitive);
    if r.value.Mpid? {
      var (sid1, tid) := LookupPair(net, s1, t).value;
      var sid2 := LookupPair(net, s2, t).value.0;
      var (pc1, c1) := PathAndParents(net.g, sid1, tid);
      var (pc2, c2) := PathAndParents(net.g, sid2, tid);
      var pt := Parents(net.g, {tid});
      assert (pt - (c1 + c2)) + (pc1 - c2) + (pc2 - c1) == (pt - (c2 + c1)) + (pc2 - c1) + (pc1 - c2);
      assert c1 + c2 == c2 + c1;
    }
  }

  /** With the same source twice, the MPID condition is the MITP condition. */
  lemma MpidOfOneSourceIsMitp(net: Network, s: Node, t: Node, transitive: bool)
    requires Valid(net) && MpidCondition(net, s, s, t, transitive).Ok?
    requires MpidCondition(net, s, s, t, transitive).value.Mpid?
    ensures Mitp(net, s, t, transitive).Ok?
    ensures MpidCondition(net, s, s, t, transitive).value.w == Mitp(net, s, t, transitive).value
  {
    var (sid, tid) := LookupPair(net, s, t).value;
    var (pc, c) := PathAndParents(net.g, sid, tid);
    var pt := Parents(net.g, {tid});
    assert (pt - (c + c)) + (pc - c) + (pc - c) == pc + (pt - c);
    assert c + c == c;
  }

  // ------------------------------------------------------ bundled sources

  /** The four lists of search_bundled_components: the distant history `w` of the
      bundle, the target's parents in the bundle's immediate history `ptc`, the
      condition `f` on the remaining variables, and the parents `pwptc` that
      the second-order approximation adds. */
  datatype Bundle = Bundle(w: set<Node>, ptc: set<Node>, f: set<Node>, pwptc: set<Node>)

  /** The first failing __check_node over `ns`, in order. */
  function FirstCheckError(net: Network, ns: seq<Node>): (r: Option<Error>)
    ensures r.None? <==> forall i | 0 <= i < |ns| :: CheckNode(net, ns[i]).None?
  {
    if ns == [] then None else
      match FirstCheckError(net, ns[..|ns| - 1])
      case Some(e) => Some(e)
      case None => CheckNode(net, ns[|ns| - 1])
  }

  /** The bundle's nodes at lag -tau, which the source checks and never looks up. */
  function BundleNodes(srcset: seq<int>, tau: int): (r: seq<Node>)
    ensures |r| == |srcset| && forall i | 0 <= i < |srcset| :: r[i] == Node(srcset[i], -tau)
  {
    seq(|srcset|, i requires 0 <= i < |srcset| => Node(srcset[i], -tau))
  }

  /** A node of the immediate causal history: a variable of the bundle at one of
      the lags -1 .. -tau. */
  predicate InHistory(srcset: seq<int>, tau: int, m: Node)
  {
    m.v in srcset && -tau <= m.lag <= -1
  }

  /** The immediate causal history as ids: the id of every node of the bundle's
      variables at lags -1 .. -tau, and nothing else. */
  function Immediate(srcset: seq<int>, nvar: nat, tau: int): (r: set<int>)
    ensures forall m | InHistory(srcset, tau, m) :: NodeNumber(m, nvar, 0) in r
    ensures forall x | x in r :: exists m :: InHistory(srcset, tau, m) && NodeNumber(m, nvar, 0) == x
  {
    var r := set v, i | v in srcset && i in Lags(tau) :: v + nvar * i;
    assert forall m | InHistory(srcset, tau, m) :: NodeNumber(m, nvar, 0) in r by {
      forall m | InHistory(srcset, tau, m) ensures NodeNumber(m, nvar, 0) in r {
        assert -m.lag in Lags(tau);
      }
    }
    assert forall x | x in r :: exists m :: InHistory(srcset, tau, m) && NodeNumber(m, nvar, 0) == x by {
      forall x | x in r ensures exists m :: InHistory(srcset, tau, m) && NodeNumber(m, nvar, 0) == x {
        var v, i :| v in srcset && i in Lags(tau) && x == v + nvar * i;
        assert InHistory(srcset, tau, Node(v, -i)) && NodeNumber(Node(v, -i), nvar, 0) == x;
      }
    }
    r
  }

  /** The lags 1 .. tau of the immediate history, by absolute value. */
  function Lags(tau: int): (r: set<int>)
    ensures forall i :: i in r <==> 1 <= i <= tau
    decreases tau
  {
    if tau <= 0 then {} else Lags(tau - 1) + {tau}
  }

  /** An id belongs to a variable of the bundle. */
  predicate InBundle(net: Network, srcset: seq<int>, id: int)
    requires Valid(net)
  {
    id % net.nvar in srcset
  }

  /** The parents of each node of `s` on its own (search_parents node by node):
      a node of `s` can be a parent of another one. */
  function EachParents(g: Graph, s: set<int>): (r: set<int>)
    ensures forall p :: p in r <==> exists c :: c in s && c != p && (p, c) in g.edges
  {
    var r := set e | e in g.edges && e.1 in s && e.0 != e.1 :: e.0;
    forall p | exists c :: c in s && c != p && (p, c) in g.edges ensures p in r {
      var c :| c in s && c != p && (p, c) in g.edges;
      var e := (p, c);
      assert e in g.edges && e.1 in s && e.0 != e.1;
    }
    r
  }

  /** Lines 537-542 on ids: the parents of the immediate history, kept when they
      belong to a variable of the bundle and lie in the distant history. */
  function DistantIds(net: Network, srcset: seq<int>, tau: int): (r: set<int>)
    requires Valid(net)
    ensures InGraph(net.g, r)
  {
    set p | p in Parents(net.g, Immediate(srcset, net.nvar, tau)) && p / net.nvar > tau && InBundle(net, srcset, p)
  }

  /** Lines 574-575 on ids: the parents of the nodes of `s`, node by node, that
      belong to no variable of the bundle. */
  function OutsideIds(net: Network, srcset: seq<int>, s: set<int>): (r: set<int>)
    requires Valid(net)
    ensures InGraph(net.g, r)
  {
    set p | p in EachParents(net.g, s) && !InBundle(net, srcset, p)
  }

  /** A node of the distant history that feeds the immediate one: a node of a
      bundled variable older than -tau with an edge into some node of the
      immediate history. */
  ghost predicate DistantParent(net: Network, srcset: seq<int>, tau: int, n: Node)
  {
    Present(net, n) && n.v in srcset && n.lag < -tau &&
    exists m :: InHistory(srcset, tau, m) && (NodeNumber(n, net.nvar, 0), NodeNumber(m, net.nvar, 0)) in net.g.edges
  }

  /** A parent outside the bundle of some other node of `s`. */
  predicate OutsideParent(net: Network, srcset: seq<int>, s: set<Node>, n: Node)
  {
    Present(net, n) && n.v !in srcset &&
    exists m :: m in s && m != n && (NodeNumber(n, net.nvar, 0), NodeNumber(m, net.nvar, 0)) in net.g.edges
  }

  /** The decoded distant ids are exactly the distant parents of the immediate
      history, once every variable of the bundle is declared. */
  lemma DistantMember(net: Network, srcset: seq<int>, tau: int, n: Node)
    requires Valid(net) && forall v | v in srcset :: 0 <= v < net.nvar
    ensures n in Decode(net, DistantIds(net, srcset, tau)) <==> DistantParent(net, srcset, tau, n)
  {
    var nvar, g := net.nvar, net.g;
    var ich := Immediate(srcset, nvar, tau);
    DecodedMember(net, DistantIds(net, srcset, tau), n);
    if Present(net, n) && n.v in srcset && n.lag < -tau {
      var id := NodeNumber(n, nvar, 0);
      EncodeDecode(n, nvar);
      forall m | InHistory(srcset, tau, m) ensures NodeNumber(m, nvar, 0) != id {
        EncodeDecode(m, nvar);
      }
      assert id !in ich;
      if exists m :: InHistory(srcset, tau, m) && (id, NodeNumber(m, nvar, 0)) in g.edges {
        var m :| InHistory(srcset, tau, m) && (id, NodeNumber(m, nvar, 0)) in g.edges;
        assert id in Parents(g, ich);
      }
      if id in Parents(g, ich) {
        var c :| c in ich && (id, c) in g.edges;
        var m :| InHistory(srcset, tau, m) && NodeNumber(m, nvar, 0) == c;
      }
    } else if Present(net, n) {
      EncodeDecode(n, nvar);
    }
  }

  /** The decoded outside ids of `s` are exactly the outside parents of the
      decoded nodes of `s`. */
  lemma OutsideMember(net: Network, srcset: seq<int>, s: set<int>, n: Node)
    requires Valid(net) && InGraph(net.g, s)
    ensures n in Decode(net, OutsideIds(net, srcset, s)) <==> OutsideParent(net, srcset, Decode(net, s), n)
  {
    var nvar, g := net.nvar, net.g;
    DecodedMember(net, OutsideIds(net, srcset, s), n);
    if Present(net, n) {
      var id := NodeNumber(n, nvar, 0);
      EncodeDecode(n, nvar);
      if id in EachParents(g, s) {
        var c :| c in s && c != id && (id, c) in g.edges;
        var m := NodeSet(c, nvar);
        DecodeEncode(c, nvar);
        assert m in Decode(net, s) && m != n;
      }
      if exists m :: m in Decode(net, s) && m != n && (id, NodeNumber(m, nvar, 0)) in g.edges {
        var m :| m in Decode(net, s) && m != n && (id, NodeNumber(m, nvar, 0)) in g.edges;
        DecodedMember(net, s, m);
        EncodeDecode(m, nvar);
        assert NodeNumber(m, nvar, 0) != id;
      }
    }
  }

  /** The id sets of search_bundled_components once the nodes are checked and
      looked up: `ich` the immediate history, `pt` the target's parents. */
  function BundleIds(net: Network, srcset: seq<int>, tid: int, tau: int, level: int, transitive: bool)
    : (r: Result<(set<int>, set<int>, set<int>, set<int>)>)
    requires Valid(net) && 0 <= tid < net.g.nnodes
    requires InGraph(net.g, Immediate(srcset, net.nvar, tau))
    ensures r.Err? <==> level !in {0, 1, 2} && |srcset| != net.nvar
    ensures r.Err? ==> r.error == UndefinedCondition
  {
    var g, nvar := net.g, net.nvar;
    var ich := Immediate(srcset, nvar, tau);
    var pt := Parents(g, {tid});
    var ptc := set p | p in pt && InBundle(net, srcset, p) && p / nvar <= tau;
    var w0 := DistantIds(net, srcset, tau);
    var w := if transitive then ReduceAgainst(net, w0, ich) else w0;
    var ptr := pt - ptc;
    var full := |srcset| == nvar;
    if !(level == 0 || full || level == 1 || level == 2) then Err(UndefinedCondition)
    else
      var pwptc :=
        if level == 0 || full || level == 1 then {}
        else OutsideIds(net, srcset, w + ptc);
      var f :=
        if level == 0 || full then {}
        else if level == 1 then ptr
        else pwptc + ptr;
      if transitive && level >= 2 then
        var reduced := ReduceAgainst(net, pwptc, ich + w);
        Ok((w, ptc, reduced + ptr, reduced))
      else Ok((w, ptc, f, pwptc))
  }

  /** search_bundled_components(srcset, target, tau, level, transitive). */
  function BundledComponents(net: Network, srcset: seq<int>, t: Node, tau: int, level: int, transitive: bool)
    : (r: Result<Bundle>)
    requires Valid(net)
    ensures FirstCheckError(net, BundleNodes(srcset, tau) + [t]).Some? ==>
              r == Err(FirstCheckError(net, BundleNodes(srcset, tau) + [t]).value)
  {
    match FirstCheckError(net, BundleNodes(srcset, tau) + [t])
    case Some(e) => Err(e)
    case None =>
      var tid :- Locate(net, t);
      var ich := Immediate(srcset, net.nvar, tau);
      if !InGraph(net.g, ich) then Err(NodeNotInGraph)
      else
        var (w, ptc, f, pwptc) :- BundleIds(net, srcset, tid, tau, level, transitive);
        Ok(Bundle(Decode(net, w), Decode(net, ptc), Decode(net, f), Decode(net, pwptc)))
  }

  /** A bundle query that answers has a present target and an immediate history
      inside the graph, and decodes the id sets of `BundleIds`. */
  lemma BundledOk(net: Network, srcset: seq<int>, t: Node, tau: int, level: int, transitive: bool)
    requires Valid(net) && BundledComponents(net, srcset, t, tau, level, transitive).Ok?
    ensures Lookup(net, t).Ok? && InGraph(net.g, Immediate(srcset, net.nvar, tau))
    ensures BundleIds(net, srcset, Lookup(net, t).value, tau, level, transitive).Ok?
    ensures var ids := BundleIds(net, srcset, Lookup(net, t).value, tau, level, transitive).value;
            BundledComponents(net, srcset, t, tau, level, transitive).value ==
              Bundle(Decode(net, ids.0), Decode(net, ids.1), Decode(net, ids.2), Decode(net, ids.3))
  {
    var ns := BundleNodes(srcset, tau) + [t];
    assert ns[|ns| - 1] == t;
  }

  /** An unknown approximation level is an error exactly when the length of
      `srcset` differs from `nvar` and nothing failed before. A `srcset` with
      repeated variables is judged by its length alone. */
  lemma BundledUndefined(net: Network, srcset: seq<int>, t: Node, tau: int, level: int, transitive: bool)
    requires Valid(net)
    ensures BundledComponents(net, srcset, t, tau, level, transitive) == Err(UndefinedCondition) <==>
            FirstCheckError(net, BundleNodes(srcset, tau) + [t]).None? &&
            Lookup(net, t).Ok? && InGraph(net.g, Immediate(srcset, net.nvar, tau)) &&
            level !in {0, 1, 2} && |srcset| != net.nvar
  {
    var ns := BundleNodes(srcset, tau) + [t];
    assert ns[|ns| - 1] == t;
    match FirstCheckError(net, ns)
    case Some(e) =>
      CheckErrorKind(net, ns);
    case None =>
      assert CheckNode(net, t).None?;
      assert Lookup(net, t) == Locate(net, t);
  }

  /** A failing check names a variable or a lag. */
  lemma {:induction false} CheckErrorKind(net: Network, ns: seq<Node>)
    requires FirstCheckError(net, ns).Some?
    ensures FirstCheckError(net, ns).value.InvalidVariable? || FirstCheckError(net, ns).value.LagBeyondHorizon?
  {
    if FirstCheckError(net, ns[..|ns| - 1]).Some? {
      CheckErrorKind(net, ns[..|ns| - 1]);
    }
  }

  /** A bundle query that answers has checked every variable of the bundle. */
  lemma BundleDeclared(net: Network, srcset: seq<int>, t: Node, tau: int, level: int, transitive: bool)
    requires Valid(net) && BundledComponents(net, srcset, t, tau, level, transitive).Ok?
    ensures forall v | v in srcset :: 0 <= v < net.nvar
  {
    var ns := BundleNodes(srcset, tau) + [t];
    forall v | v in srcset ensures 0 <= v < net.nvar {
      var i :| 0 <= i < |srcset| && srcset[i] == v;
      assert ns[i] == Node(v, -tau);
    }
  }

  /** The distant history `w` is the set of distant parents of the immediate
      history (a part of it under the reduction), and `ptc` is exactly the
      target's parents among the bundle's variables at lags -tau .. 0. */
  lemma BundledHistory(net: Network, srcset: seq<int>, t: Node, tau: int, level: int, transitive: bool)
    requires Valid(net) && BundledComponents(net, srcset, t, tau, level, transitive).Ok?
    ensures SearchParents(net, t).Ok?
    ensures var b := BundledComponents(net, srcset, t, tau, level, transitive).value;
            (forall n | n in b.w :: n.v in srcset && n.lag < -tau) &&
            b.ptc <= SearchParents(net, t).value &&
            (forall n | n in SearchParents(net, t).value :: n in b.ptc <==> n.v in srcset && -tau <= n.lag)
    ensures var b := BundledComponents(net, srcset, t, tau, level, transitive).value;
            (forall n | n in b.w :: DistantParent(net, srcset, tau, n)) &&
            (!transitive ==> forall n | DistantParent(net, srcset, tau, n) :: n in b.w)
  {
    BundledOk(net, srcset, t, tau, level, transitive);
    BundleDeclared(net, srcset, t, tau, level, transitive);
    var tid := Lookup(net, t).value;
    var ids := BundleIds(net, srcset, tid, tau, level, transitive).value;
    var w0 := DistantIds(net, srcset, tau);
    assert ids.0 <= w0 && (!transitive ==> ids.0 == w0);
    DecodeSubset(net, ids.0, w0);
    forall n ensures n in Decode(net, w0) <==> DistantParent(net, srcset, tau, n) {
      DistantMember(net, srcset, tau, n);
    }
    var pt := Parents(net.g, {tid});
    assert ids.1 <= pt;
    DecodeSubset(net, ids.1, pt);
    forall n | n in Decode(net, ids.0) ensures n.v in srcset && n.lag < -tau {
      var id :| id in ids.0 && NodeSet(id, net.nvar) == n;
    }
    forall n | n in Decode(net, pt) ensures n in Decode(net, ids.1) <==> n.v in srcset && -tau <= n.lag {
      var id :| id in pt && NodeSet(id, net.nvar) == n;
      DecodedMember(net, ids.1, n);
      DecodedMember(net, pt, n);
      DecodeEncode(id, net.nvar);
    }
  }

  /** The condition on the remaining variables by approximation level: nothing
      at level 0 or when `len(srcset) == nvar` (unless the reduction at level 2
      or more rebuilds it), the target's other parents at level 1, and at level
      2 those parents plus the parents outside the bundle. With the reduction at
      level 2 or more and `len(srcset) == nvar`, f is the target's other parents. */
  lemma BundledRemaining(net: Network, srcset: seq<int>, t: Node, tau: int, level: int, transitive: bool)
    requires Valid(net) && BundledComponents(net, srcset, t, tau, level, transitive).Ok?
    ensures SearchParents(net, t).Ok?
    ensures var b := BundledComponents(net, srcset, t, tau, level, transitive).value;
            var ptr := SearchParents(net, t).value - b.ptc;
            ((level == 0 || |srcset| == net.nvar) && !(transitive && level >= 2) ==> b.f == {} && b.pwptc == {}) &&
            (level == 1 && |srcset| != net.nvar ==> b.f == ptr && b.pwptc == {}) &&
            (transitive && level >= 2 && |srcset| == net.nvar ==> b.f == ptr) &&
            (level in {1, 2} && |srcset| != net.nvar ==> ptr <= b.f)
    ensures var b := BundledComponents(net, srcset, t, tau, level, transitive).value;
            var ptr := SearchParents(net, t).value - b.ptc;
            (level in {1, 2} && |srcset| != net.nvar) || (transitive && level >= 2) ==> b.f == b.pwptc + ptr
  {
    BundledOk(net, srcset, t, tau, level, transitive);
    var tid := Lookup(net, t).value;
    var ids := BundleIds(net, srcset, tid, tau, level, transitive).value;
    var pt := Parents(net.g, {tid});
    assert ids.1 <= pt;
    DecodeDiff(net, pt, ids.1);
    DecodeUnion(net, ids.3, pt - ids.1);
  }

  /** The parents outside the bundle, pwptc, are part of f, and each is a parent
      outside the bundle of a node of `w` or `ptc`; at level 2 without the
      reduction, and with `len(srcset) != nvar`, every such parent is in pwptc. */
  lemma BundledOutside(net: Network, srcset: seq<int>, t: Node, tau: int, level: int, transitive: bool)
    requires Valid(net) && BundledComponents(net, srcset, t, tau, level, transitive).Ok?
    ensures var b := BundledComponents(net, srcset, t, tau, level, transitive).value;
            b.pwptc <= b.f && forall n | n in b.pwptc :: n.v !in srcset
    ensures var b := BundledComponents(net, srcset, t, tau, level, transitive).value;
            (forall n | n in b.pwptc :: OutsideParent(net, srcset, b.w + b.ptc, n)) &&
            (level == 2 && !transitive && |srcset| != net.nvar ==>
               forall n | OutsideParent(net, srcset, b.w + b.ptc, n) :: n in b.pwptc)
  {
    BundledOk(net, srcset, t, tau, level, transitive);
    var tid := Lookup(net, t).value;
    var ids := BundleIds(net, srcset, tid, tau, level, transitive).value;
    var pt := Parents(net.g, {tid});
    var o := OutsideIds(net, srcset, ids.0 + ids.1);
    assert ids.3 <= o && (level == 2 && !transitive && |srcset| != net.nvar ==> ids.3 == o);
    DecodeSubset(net, ids.3, o);
    DecodeUnion(net, ids.0, ids.1);
    forall n ensures n in Decode(net, o) <==> OutsideParent(net, srcset, Decode(net, ids.0 + ids.1), n) {
      OutsideMember(net, srcset, ids.0 + ids.1, n);
    }
    DecodeUnion(net, ids.3, pt - ids.1);
    DecodeSubset(net, ids.3, ids.2);
    forall n | n in Decode(net, ids.3) ensures n.v !in srcset {
      var id :| id in ids.3 && NodeSet(id, net.nvar) == n;
    }
  }
}
