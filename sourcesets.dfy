/** The derivations over lists of sources: search_mpid_set_condition and
    search_cit_components. Both check every node first, keep the sources that
    check_links reports as linked to the target, and gather the causal paths of
    the kept sources with their parents; the methods do this with the loops of
    the source and are proved equal to the functions that specify them. */
module SourceSets {
  import opened Outcomes
  import opened NodeCodec
  import opened Graphs
  import opened SimplePaths
  import opened CausalNetwork
  import opened Queries
  import opened Conditions

  /** What check_links reports for each source and the target `t`. */
  function Links(net: Network, srcs: seq<Node>, t: Node): (r: seq<Result<Link>>)
    requires Valid(net)
    ensures |r| == |srcs| && forall i | 0 <= i < |srcs| :: r[i] == CheckLinks(net, srcs[i], t)
  {
    seq(|srcs|, i requires 0 <= i < |srcs| => CheckLinks(net, srcs[i], t))
  }

  /** The sources whose link is not NoLink, in their order; the first failed
      link search fails the whole list. */
  function Kept(srcs: seq<Node>, links: seq<Result<Link>>): Result<seq<Node>>
    requires |links| == |srcs|
  {
    if srcs == [] then Ok([]) else
      var kept :- Kept(srcs[..|srcs| - 1], links[..|links| - 1]);
      var link :- links[|links| - 1];
      Ok(if link == NoLink then kept else kept + [srcs[|srcs| - 1]])
  }

  /** The sources check_links reports as linked to `t`. */
  function LinkedSources(net: Network, srcs: seq<Node>, t: Node): Result<seq<Node>>
    requires Valid(net)
  {
    Kept(srcs, Links(net, srcs, t))
  }

  /** The kept list exists exactly when every link search succeeds. */
  lemma {:induction false} KeptOk(srcs: seq<Node>, links: seq<Result<Link>>)
    requires |links| == |srcs|
    ensures Kept(srcs, links).Ok? <==> forall i | 0 <= i < |links| :: links[i].Ok?
  {
    if srcs != [] {
      var init := links[..|links| - 1];
      KeptOk(srcs[..|srcs| - 1], init);
      assert forall i | 0 <= i < |init| :: init[i] == links[i];
    }
  }

  /** A node is kept exactly when it is a source whose link is not NoLink. */
  lemma {:induction false} KeptMember(srcs: seq<Node>, links: seq<Result<Link>>, n: Node)
    requires |links| == |srcs| && Kept(srcs, links).Ok?
    ensures n in Kept(srcs, links).value <==>
            exists i | 0 <= i < |srcs| :: srcs[i] == n && links[i] != Ok(NoLink)
  {
    if srcs != [] {
      var init, linit := srcs[..|srcs| - 1], links[..|links| - 1];
      KeptMember(init, linit, n);
      assert forall i | 0 <= i < |init| :: init[i] == srcs[i] && linit[i] == links[i];
    }
  }

  /** A failed kept list fails with the first failed link search. */
  lemma {:induction false} KeptPrefix(srcs: seq<Node>, links: seq<Result<Link>>, k: nat)
    requires |links| == |srcs| && k <= |srcs| && Kept(srcs[..k], links[..k]).Err?
    ensures Kept(srcs, links) == Kept(srcs[..k], links[..k])
    decreases |srcs| - k
  {
    if k < |srcs| {
      var init, linit := srcs[..|srcs| - 1], links[..|links| - 1];
      assert init[..k] == srcs[..k] && linit[..k] == links[..k];
      KeptPrefix(init, linit, k);
    } else {
      assert srcs[..k] == srcs && links[..k] == links;
    }
  }

  /** The positions of the links that are not NoLink, in increasing order. */
  function LinkedPositions(links: seq<Result<Link>>): (p: seq<int>)
    ensures forall k | 0 <= k < |p| :: 0 <= p[k] < |links| && links[p[k]].Ok? && links[p[k]].value != NoLink
    ensures forall k, l | 0 <= k < l < |p| :: p[k] < p[l]
    ensures forall i | 0 <= i < |links| && links[i].Ok? && links[i].value != NoLink :: i in p
  {
    if links == [] then [] else
      var init := links[..|links| - 1];
      var p := LinkedPositions(init);
      assert forall k | 0 <= k < |p| :: links[p[k]] == init[p[k]];
      if links[|links| - 1].Ok? && links[|links| - 1].value != NoLink then p + [|links| - 1] else p
  }

  /** The kept sources are the sources at the linked positions, in the order of
      the input. */
  lemma {:induction false} KeptInOrder(srcs: seq<Node>, links: seq<Result<Link>>)
    requires |links| == |srcs| && Kept(srcs, links).Ok?
    ensures var p := LinkedPositions(links);
            |Kept(srcs, links).value| == |p| &&
            forall k | 0 <= k < |p| :: Kept(srcs, links).value[k] == srcs[p[k]]
  {
    if srcs != [] {
      var init, linit := srcs[..|srcs| - 1], links[..|links| - 1];
      KeptInOrder(init, linit);
      var p := LinkedPositions(linit);
      assert forall k | 0 <= k < |p| :: init[p[k]] == srcs[p[k]];
    }
  }

  /** The list of linked sources exists exactly when every link search succeeds. */
  lemma LinkedSourcesOk(net: Network, srcs: seq<Node>, t: Node)
    requires Valid(net)
    ensures LinkedSources(net, srcs, t).Ok? <==> forall i | 0 <= i < |srcs| :: CheckLinks(net, srcs[i], t).Ok?
  {
    var links := Links(net, srcs, t);
    KeptOk(srcs, links);
    assert forall i | 0 <= i < |srcs| :: links[i].Ok? == CheckLinks(net, srcs[i], t).Ok?;
  }

  /** A node is kept exactly when it is one of the sources and is linked. */
  lemma LinkedSourcesMember(net: Network, srcs: seq<Node>, t: Node, n: Node)
    requires Valid(net) && LinkedSources(net, srcs, t).Ok?
    ensures n in LinkedSources(net, srcs, t).value <==> n in srcs && CheckLinks(net, n, t) != Ok(NoLink)
  {
    KeptMember(srcs, Links(net, srcs, t), n);
  }

  /** The linked sources keep the order of the input: they are the sources at
      the strictly increasing positions of the linked ones. */
  lemma LinkedSourcesInOrder(net: Network, srcs: seq<Node>, t: Node)
    requires Valid(net) && LinkedSources(net, srcs, t).Ok?
    ensures var p := LinkedPositions(Links(net, srcs, t));
            var kept := LinkedSources(net, srcs, t).value;
            |kept| == |p| && (forall k, l | 0 <= k < l < |p| :: p[k] < p[l]) &&
            (forall k | 0 <= k < |p| :: 0 <= p[k] < |srcs| && kept[k] == srcs[p[k]] &&
                                        CheckLinks(net, srcs[p[k]], t).Ok? &&
                                        CheckLinks(net, srcs[p[k]], t).value != NoLink) &&
            (forall i | 0 <= i < |srcs| && CheckLinks(net, srcs[i], t).Ok? &&
                        CheckLinks(net, srcs[i], t).value != NoLink :: i in p)
  {
    KeptInOrder(srcs, Links(net, srcs, t));
  }

  /** Every linked source, and the target when some source is linked, can be
      looked up. */
  lemma LinkedSourcesPresent(net: Network, srcs: seq<Node>, t: Node)
    requires Valid(net) && LinkedSources(net, srcs, t).Ok?
    ensures forall i | 0 <= i < |LinkedSources(net, srcs, t).value| ::
              Lookup(net, LinkedSources(net, srcs, t).value[i]).Ok?
    ensures LinkedSources(net, srcs, t).value != [] ==> Lookup(net, t).Ok?
  {
    var kept := LinkedSources(net, srcs, t).value;
    forall i | 0 <= i < |kept| ensures Lookup(net, kept[i]).Ok? && Lookup(net, t).Ok? {
      LinkedMemberPresent(net, srcs, t, kept[i]);
    }
    if kept != [] {
      LinkedMemberPresent(net, srcs, t, kept[0]);
    }
  }

  /** A linked source and the target can both be looked up. */
  lemma LinkedMemberPresent(net: Network, srcs: seq<Node>, t: Node, n: Node)
    requires Valid(net) && LinkedSources(net, srcs, t).Ok? && n in LinkedSources(net, srcs, t).value
    ensures Lookup(net, n).Ok? && Lookup(net, t).Ok?
  {
    LinkedSourcesMember(net, srcs, t, n);
    LinkedSourcesOk(net, srcs, t);
    var i :| 0 <= i < |srcs| && srcs[i] == n;
    assert CheckLinks(net, n, t).Ok?;
  }

  /** The union of the causal-path nodes of the sources (second component) and
      of the parents of each source's path nodes (first component). */
  function PathsFrom(net: Network, srcs: seq<Node>, tid: int): (r: (set<int>, set<int>))
    requires Valid(net) && 0 <= tid < net.g.nnodes
    requires forall i | 0 <= i < |srcs| :: Lookup(net, srcs[i]).Ok?
    ensures InGraph(net.g, r.0) && InGraph(net.g, r.1)
  {
    if srcs == [] then ({}, {}) else
      var (pc, c) := PathsFrom(net, srcs[..|srcs| - 1], tid);
      var sid := Lookup(net, srcs[|srcs| - 1]).value;
      PathNodesShape(net.g, sid, tid);
      var (pc', c') := PathAndParents(net.g, sid, tid);
      (pc + pc', c + c')
  }

  /** Every source's path nodes and their parents are gathered. */
  lemma {:induction false} PathsFromCovers(net: Network, srcs: seq<Node>, tid: int, i: int)
    requires Valid(net) && 0 <= tid < net.g.nnodes
    requires forall j | 0 <= j < |srcs| :: Lookup(net, srcs[j]).Ok?
    requires 0 <= i < |srcs|
    ensures PathAndParents(net.g, Lookup(net, srcs[i]).value, tid).0 <= PathsFrom(net, srcs, tid).0
    ensures PathAndParents(net.g, Lookup(net, srcs[i]).value, tid).1 <= PathsFrom(net, srcs, tid).1
  {
    if i < |srcs| - 1 {
      var init := srcs[..|srcs| - 1];
      assert init[i] == srcs[i];
      PathsFromCovers(net, init, tid, i);
    }
  }

  /** Nothing else is gathered: each node comes from some source's paths. */
  lemma {:induction false} PathsFromWithin(net: Network, srcs: seq<Node>, tid: int, x: int)
    requires Valid(net) && 0 <= tid < net.g.nnodes
    requires forall j | 0 <= j < |srcs| :: Lookup(net, srcs[j]).Ok?
    ensures x in PathsFrom(net, srcs, tid).0 ==>
              exists i | 0 <= i < |srcs| :: x in PathAndParents(net.g, Lookup(net, srcs[i]).value, tid).0
    ensures x in PathsFrom(net, srcs, tid).1 ==>
              exists i | 0 <= i < |srcs| :: x in PathAndParents(net.g, Lookup(net, srcs[i]).value, tid).1
  {
    if srcs != [] {
      var init := srcs[..|srcs| - 1];
      PathsFromWithin(net, init, tid, x);
      assert forall i | 0 <= i < |init| :: init[i] == srcs[i];
    }
  }

  /** With one source, the gathered nodes are that source's. */
  lemma PathsFromSingle(net: Network, s: Node, tid: int)
    requires Valid(net) && 0 <= tid < net.g.nnodes && Lookup(net, s).Ok?
    ensures PathsFrom(net, [s], tid) == PathAndParents(net.g, Lookup(net, s).value, tid)
  {
    var r := PathAndParents(net.g, Lookup(net, s).value, tid);
    assert [s][..0] == [];
    assert PathsFrom(net, [], tid) == ({}, {});
    assert PathsFrom(net, [s], tid) == ({} + r.0, {} + r.1);
    assert {} + r.0 == r.0 && {} + r.1 == r.1;
  }

  // ------------------------------------------------------------ MPID set

  /** What search_mpid_set_condition returns: the linked sources of each list
      and the condition. */
  datatype MpidSetAnswer = MpidSetAnswer(srcs1: seq<Node>, srcs2: seq<Node>, w: set<Node>)

  /** The MPID-set condition on ids as written: the parents of the target off
      the first list's paths, and the parents of those paths. */
  function MpidSetIds(net: Network, srcs1: seq<Node>, tid: int, transitive: bool): (w: set<int>)
    requires Valid(net) && 0 <= tid < net.g.nnodes
    requires forall i | 0 <= i < |srcs1| :: Lookup(net, srcs1[i]).Ok?
    ensures InGraph(net.g, w)
  {
    var (pc1, c1) := PathsFrom(net, srcs1, tid);
    var w := (Parents(net.g, {tid}) - c1) + pc1;
    if transitive then ReduceAgainst(net, w, c1) else w
  }

  /** search_mpid_set_condition as written: the paths of the second list are
      searched but never gathered, so only the first list's paths shape the
      condition. */
  function MpidSet(net: Network, sources1: seq<Node>, sources2: seq<Node>, t: Node, transitive: bool)
    : (r: Result<MpidSetAnswer>)
    requires Valid(net)
    ensures r.Ok? ==> Lookup(net, t).Ok? && forall n | n in r.value.w :: Present(net, n)
  {
    match FirstCheckError(net, sources1 + sources2 + [t])
    case Some(e) => Err(e)
    case None =>
      var srcs1 :- LinkedSources(net, sources1, t);
      var srcs2 :- LinkedSources(net, sources2, t);
      var tid :- Lookup(net, t);
      LinkedSourcesPresent(net, sources1, t);
      DecodedPresent(net, MpidSetIds(net, srcs1, tid, transitive));
      Ok(MpidSetAnswer(srcs1, srcs2, Decode(net, MpidSetIds(net, srcs1, tid, transitive))))
  }

  /** The query fails with the first failing check of the sources and target,
      in order, and otherwise reports the linked sources of each list. */
  lemma MpidSetChecksFirst(net: Network, sources1: seq<Node>, sources2: seq<Node>, t: Node, transitive: bool)
    requires Valid(net)
    ensures var e := FirstCheckError(net, sources1 + sources2 + [t]);
            e.Some? ==> MpidSet(net, sources1, sources2, t, transitive) == Err(e.value)
    ensures var r := MpidSet(net, sources1, sources2, t, transitive);
            r.Ok? ==> LinkedSources(net, sources1, t) == Ok(r.value.srcs1) &&
                      LinkedSources(net, sources2, t) == Ok(r.value.srcs2)
  {
  }

  /** The condition does not depend on the second list of sources. */
  lemma MpidSetIgnoresSecondList(net: Network, sources1: seq<Node>, sources2: seq<Node>, t: Node, transitive: bool)
    requires Valid(net) && MpidSet(net, sources1, sources2, t, transitive).Ok?
    ensures MpidSet(net, sources1, [], t, transitive).Ok?
    ensures MpidSet(net, sources1, sources2, t, transitive).value.w == MpidSet(net, sources1, [], t, transitive).value.w
  {
    var all, short := sources1 + sources2 + [t], sources1 + [] + [t];
    forall i | 0 <= i < |short| ensures CheckNode(net, short[i]).None? {
      if i < |sources1| {
        assert short[i] == all[i];
      } else {
        assert short[i] == all[|all| - 1];
      }
    }
  }

  /** Without the reduction, the condition holds every parent of the target off
      the first list's paths. */
  lemma MpidSetCoversTarget(net: Network, srcs1: seq<Node>, tid: int)
    requires Valid(net) && 0 <= tid < net.g.nnodes
    requires forall i | 0 <= i < |srcs1| :: Lookup(net, srcs1[i]).Ok?
    ensures Parents(net.g, {tid}) - PathsFrom(net, srcs1, tid).1 <= MpidSetIds(net, srcs1, tid, false)
  {
  }

  /** With one linked source in the first list, the condition is the MITP
      condition of that source. */
  lemma MpidSetOfOneSourceIsMitp(net: Network, s: Node, tid: int, transitive: bool)
    requires Valid(net) && 0 <= tid < net.g.nnodes && Lookup(net, s).Ok?
    ensures MpidSetIds(net, [s], tid, transitive) == MitpIds(net, Lookup(net, s).value, tid, transitive)
  {
    PathsFromSingle(net, s, tid);
    var (pc, c) := PathAndParents(net.g, Lookup(net, s).value, tid);
    assert (Parents(net.g, {tid}) - c) + pc == pc + (Parents(net.g, {tid}) - c);
  }

  // ------------------------------------------------------------------ CIT

  /** What search_cit_components returns: nothing when no source is linked,
      else the condition `w`, the linked sources, the target's parents on the
      paths `ptc` and the path nodes (`mpid` only chooses whether the sources or
      `ptc` are returned). */
  datatype CitAnswer =
    | NoLinkedSource
    | Cit(w: set<Node>, sources: seq<Node>, ptc: set<Node>, cpaths: set<Node>)

  /** The CIT condition on ids: the parents of the target and of the paths,
      both off the paths, optionally reduced against the paths. */
  function CitIds(net: Network, srcs: seq<Node>, tid: int, transitive: bool): (w: set<int>)
    requires Valid(net) && 0 <= tid < net.g.nnodes
    requires forall i | 0 <= i < |srcs| :: Lookup(net, srcs[i]).Ok?
    ensures InGraph(net.g, w)
    ensures w !! PathsFrom(net, srcs, tid).1
  {
    var (pc, c) := PathsFrom(net, srcs, tid);
    var w := (Parents(net.g, {tid}) - c) + (pc - c);
    if transitive then ReduceAgainst(net, w, c) else w
  }

  /** search_cit_components(sources, target, mpid, transitive). */
  function CitComponents(net: Network, sources: seq<Node>, t: Node, transitive: bool): (r: Result<CitAnswer>)
    requires Valid(net)
    ensures r.Ok? && r.value.Cit? ==>
              r.value.sources != [] && r.value.ptc <= r.value.cpaths && r.value.w !! r.value.cpaths
  {
    match FirstCheckError(net, sources + [t])
    case Some(e) => Err(e)
    case None =>
      var srcs :- LinkedSources(net, sources, t);
      if srcs == [] then Ok(NoLinkedSource) else
        LinkedSourcesPresent(net, sources, t);
        var tid := Lookup(net, t).value;
        var c := PathsFrom(net, srcs, tid).1;
        var w := CitIds(net, srcs, tid, transitive);
        DecodeSubset(net, Parents(net.g, {tid}) * c, c);
        NodesOfIdsDisjoint(w, c, net.nvar);
        Ok(Cit(Decode(net, w), srcs, Decode(net, Parents(net.g, {tid}) * c), Decode(net, c)))
  }

  /** A query with linked sources answers with the components of those sources. */
  lemma CitLinked(net: Network, sources: seq<Node>, t: Node, transitive: bool)
    requires Valid(net) && CitComponents(net, sources, t, transitive).Ok?
    requires CitComponents(net, sources, t, transitive).value.Cit?
    ensures LinkedSources(net, sources, t).Ok? && Lookup(net, t).Ok?
    ensures var srcs := LinkedSources(net, sources, t).value;
            (forall i | 0 <= i < |srcs| :: Lookup(net, srcs[i]).Ok?) &&
            var tid := Lookup(net, t).value;
            var c := PathsFrom(net, srcs, tid).1;
            CitComponents(net, sources, t, transitive).value ==
              Cit(Decode(net, CitIds(net, srcs, tid, transitive)), srcs,
                  Decode(net, Parents(net.g, {tid}) * c), Decode(net, c))
  {
    LinkedSourcesPresent(net, sources, t);
  }

  /** The query answers with no components exactly when every check and link
      search succeeds and no source is linked. */
  lemma CitNoLinkedSource(net: Network, sources: seq<Node>, t: Node, transitive: bool)
    requires Valid(net)
    ensures CitComponents(net, sources, t, transitive) == Ok(NoLinkedSource) <==>
            FirstCheckError(net, sources + [t]).None? &&
            (forall i | 0 <= i < |sources| :: CheckLinks(net, sources[i], t) == Ok(NoLink))
  {
    LinkedSourcesOk(net, sources, t);
    var r := LinkedSources(net, sources, t);
    if r.Ok? {
      if r.value == [] {
        forall i | 0 <= i < |sources| ensures CheckLinks(net, sources[i], t) == Ok(NoLink) {
          LinkedSourcesMember(net, sources, t, sources[i]);
        }
      } else {
        LinkedSourcesMember(net, sources, t, r.value[0]);
      }
    }
  }

  /** The query fails with the first failing check of the sources and target,
      in order, and otherwise reports the linked sources. */
  lemma CitChecksFirst(net: Network, sources: seq<Node>, t: Node, transitive: bool)
    requires Valid(net)
    ensures var e := FirstCheckError(net, sources + [t]);
            e.Some? ==> CitComponents(net, sources, t, transitive) == Err(e.value)
    ensures var r := CitComponents(net, sources, t, transitive);
            r.Ok? && r.value.Cit? ==> LinkedSources(net, sources, t) == Ok(r.value.sources)
  {
  }

  /** The condition avoids the path nodes, and the target's parents split into
      those on the paths (`ptc`) and those in the condition. */
  lemma CitPartition(net: Network, sources: seq<Node>, t: Node, transitive: bool)
    requires Valid(net) && CitComponents(net, sources, t, transitive).Ok?
    requires CitComponents(net, sources, t, transitive).value.Cit?
    ensures SearchParents(net, t).Ok?
    ensures var a := CitComponents(net, sources, t, transitive).value;
            a.w !! a.cpaths && a.ptc == SearchParents(net, t).value * a.cpaths &&
            (!transitive ==> SearchParents(net, t).value - a.ptc <= a.w)
  {
    CitLinked(net, sources, t, transitive);
    var srcs := LinkedSources(net, sources, t).value;
    var tid := Lookup(net, t).value;
    var c := PathsFrom(net, srcs, tid).1;
    var pt := Parents(net.g, {tid});
    var w := CitIds(net, srcs, tid, transitive);
    NodesOfIdsDisjoint(w, c, net.nvar);
    DecodeMeet(net, pt, c);
    if !transitive {
      DecodeDiff(net, pt, c);
      DecodeSubset(net, pt - c, w);
    }
  }

  /** The path nodes reported are those of search_causalpaths for every linked
      source, and nothing else. */
  lemma CitPathsAreSourcePaths(net: Network, sources: seq<Node>, t: Node, transitive: bool, x: int)
    requires Valid(net) && CitComponents(net, sources, t, transitive).Ok?
    requires CitComponents(net, sources, t, transitive).value.Cit?
    ensures Lookup(net, t).Ok?
    ensures var a := CitComponents(net, sources, t, transitive).value;
            forall i | 0 <= i < |a.sources| :: Lookup(net, a.sources[i]).Ok?
    ensures var a := CitComponents(net, sources, t, transitive).value;
            var tid := Lookup(net, t).value;
            a.cpaths == Decode(net, PathsFrom(net, a.sources, tid).1) &&
            (x in PathsFrom(net, a.sources, tid).1 <==>
              exists i | 0 <= i < |a.sources| :: x in PathNodes(net.g, Lookup(net, a.sources[i]).value, tid))
  {
    CitLinked(net, sources, t, transitive);
    var srcs := LinkedSources(net, sources, t).value;
    var tid := Lookup(net, t).value;
    PathsFromWithin(net, srcs, tid, x);
    forall i | 0 <= i < |srcs| && x in PathNodes(net.g, Lookup(net, srcs[i]).value, tid)
      ensures x in PathsFrom(net, srcs, tid).1
    {
      PathsFromCovers(net, srcs, tid, i);
    }
  }

  /** With one linked source, the CIT condition is the MITP condition. */
  lemma CitOfOneSourceIsMitp(net: Network, s: Node, tid: int, transitive: bool)
    requires Valid(net) && 0 <= tid < net.g.nnodes && Lookup(net, s).Ok?
    ensures CitIds(net, [s], tid, transitive) == MitpIds(net, Lookup(net, s).value, tid, transitive)
  {
    PathsFromSingle(net, s, tid);
    var (pc, c) := PathAndParents(net.g, Lookup(net, s).value, tid);
    var pt := Parents(net.g, {tid});
    assert (pt - c) + (pc - c) == pc + (pt - c);
  }

  // -------------------------------------------------------------- methods

  /** A failing check of a prefix is the failing check of the whole list. */
  lemma {:induction false} FirstCheckErrorPrefix(net: Network, ns: seq<Node>, k: nat)
    requires k <= |ns| && FirstCheckError(net, ns[..k]).Some?
    ensures FirstCheckError(net, ns) == FirstCheckError(net, ns[..k])
    decreases |ns| - k
  {
    if k < |ns| {
      var m := ns[..|ns| - 1];
      assert m[..k] == ns[..k];
      FirstCheckErrorPrefix(net, m, k);
    } else {
      assert ns[..k] == ns;
    }
  }

  /** The `for src in sources: __check_node(src)` loops: the first failure
      stops them. */
  method CheckAll(net: Network, ns: seq<Node>) returns (e: Option<Error>)
    ensures e == FirstCheckError(net, ns)
  {
    for i := 0 to |ns|
      invariant FirstCheckError(net, ns[..i]).None?
    {
      assert ns[..i + 1][..i] == ns[..i];
      var c := CheckNode(net, ns[i]);
      if c.Some? {
        FirstCheckErrorPrefix(net, ns, i + 1);
        return c;
      }
    }
    assert ns[..|ns|] == ns;
    return None;
  }

  /** The loop over the sources that keeps those check_links reports linked. */
  method FilterLinked(net: Network, srcs: seq<Node>, t: Node) returns (r: Result<seq<Node>>)
    requires Valid(net)
    ensures r == LinkedSources(net, srcs, t)
  {
    ghost var links := Links(net, srcs, t);
    var kept: seq<Node> := [];
    for i := 0 to |srcs|
      invariant Kept(srcs[..i], links[..i]) == Ok(kept)
    {
      assert srcs[..i + 1][..i] == srcs[..i] && links[..i + 1][..i] == links[..i];
      var link := CheckLinks(net, srcs[i], t);
      assert link == links[i];
      if link.Err? {
        KeptPrefix(srcs, links, i + 1);
        return Err(link.error);
      }
      if link.value != NoLink {
        kept := kept + [srcs[i]];
      }
    }
    assert srcs[..|srcs|] == srcs && links[..|links|] == links;
    return Ok(kept);
  }

  /** The loop gathering each source's path nodes and their parents. */
  method CollectPaths(net: Network, srcs: seq<Node>, tid: int) returns (pc: set<int>, c: set<int>)
    requires Valid(net) && 0 <= tid < net.g.nnodes
    requires forall i | 0 <= i < |srcs| :: Lookup(net, srcs[i]).Ok?
    ensures (pc, c) == PathsFrom(net, srcs, tid)
  {
    pc, c := {}, {};
    for i := 0 to |srcs|
      invariant (pc, c) == PathsFrom(net, srcs[..i], tid)
    {
      assert srcs[..i + 1][..i] == srcs[..i];
      var sid := Lookup(net, srcs[i]).value;
      var (pcpath, cpath) := PathAndParents(net.g, sid, tid);
      pc, c := pc + pcpath, c + cpath;
    }
    assert srcs[..|srcs|] == srcs;
  }

  /** search_mpid_set_condition with its loops, proved equal to `MpidSet`. */
  method SearchMpidSet(net: Network, sources1: seq<Node>, sources2: seq<Node>, t: Node, transitive: bool)
    returns (r: Result<MpidSetAnswer>)
    requires Valid(net)
    ensures r == MpidSet(net, sources1, sources2, t, transitive)
  {
    var e := CheckAll(net, sources1 + sources2 + [t]);
    if e.Some? {
      return Err(e.value);
    }
    var srcs1 := FilterLinked(net, sources1, t);
    if srcs1.Err? {
      return Err(srcs1.error);
    }
    var srcs2 := FilterLinked(net, sources2, t);
    if srcs2.Err? {
      return Err(srcs2.error);
    }
    var tid := Lookup(net, t);
    if tid.Err? {
      return Err(tid.error);
    }
    LinkedSourcesPresent(net, sources1, t);
    var pcpaths1, cpaths1 := CollectPaths(net, srcs1.value, tid.value);
    var w := (Parents(net.g, {tid.value}) - cpaths1) + pcpaths1;
    if transitive {
      w := ReduceAgainst(net, w, cpaths1);
    }
    r := Ok(MpidSetAnswer(srcs1.value, srcs2.value, Decode(net, w)));
  }

  /** search_cit_components with its loops, proved equal to `CitComponents`. */
  method SearchCitComponents(net: Network, sources: seq<Node>, t: Node, transitive: bool)
    returns (r: Result<CitAnswer>)
    requires Valid(net)
    ensures r == CitComponents(net, sources, t, transitive)
  {
    var e := CheckAll(net, sources + [t]);
    if e.Some? {
      return Err(e.value);
    }
    var linked := FilterLinked(net, sources, t);
    if linked.Err? {
      return Err(linked.error);
    }
    var sourcesnew := linked.value;
    if |sourcesnew| == 0 {
      return Ok(NoLinkedSource);
    }
    LinkedSourcesPresent(net, sources, t);
    var tid := Lookup(net, t).value;
    var pcpaths, cpaths := CollectPaths(net, sourcesnew, tid);
    var pt := Parents(net.g, {tid});
    var ptc := pt * cpaths;
    var w := (pt - cpaths) + (pcpaths - cpaths);
    if transitive {
      w := ReduceAgainst(net, w, cpaths);
    }
    r := Ok(Cit(Decode(net, w), sourcesnew, Decode(net, ptc), Decode(net, cpaths)));
  }
}
