# Causal network of the `info` package, in Dafny

This project models the causal-graph engine of the `info` package
(`info/utils/causal_network.py`) and the argument checks of its
information-measure object (`info/core/info.py`). It proves properties of
that model.

A causal network is built from a parent declaration `causalDict`. The entry
`causalDict[j]` lists the `(variable, lag)` parents of variable `j`. The
network unrolls the declaration over `taumax + 1` time layers into a directed
graph whose nodes are flat ids `variable + nvar * |lag|`. It also keeps a
dense matrix of the edge weights, shifted so that no weight is negative. On
top of this graph, the class answers several queries:

- the parents and children of a node;
- the simple causal paths between two nodes;
- whether two nodes are linked directly, by a path, or not at all;
- six conditioning sets for information-flow estimates: MIT, MITP, MPID,
  MPID-set, bundled and CIT;
- a max-min weighted transitive reduction that thins those sets.

Module by module:

- `NodeCodec` (`codec.dfy`): the flat-id codec `get_node_number` /
  `get_node_set`.
- `Graphs` (`graphs.dfy`): the graph as a node count and an edge set; the
  parent and child helpers; the list helpers `unique`, `intersect`, `union`
  and `exclude_intersection`.
- `SimplePaths` (`paths.dfy`): simple paths by their definition, and a
  depth-first enumerator proved equal to it. This stands in for
  `networkx.all_simple_paths`. The module also holds `get_causal_paths` and
  `get_path_nodes_and_their_parents`.
- `CausalNetwork` (`builder.dfy`): the constructor.
  - It is a function `BuiltNetwork`, used by every query.
  - It is also the method `Build`, whose nested loops add edges one parent at
    a time and fill a weight `array2`. `Build` is proved to return the
    function's network.
- `Queries` (`queries.dfy`): these three, each with its error path:
  - `__check_node` followed by the graph lookup;
  - `search_parents`, `search_children` and `search_causalpaths`;
  - `check_links`.
- `Reduction` (`reduction.dfy`): `transitive_reduction`.
  - A specification over sets states the meaning of the reduction.
  - An imperative version keeps the source's snapshot-per-round closure, the
    in-place pruning of the weights and the row sums. It is proved to equal
    the specification.
- `Conditions` (`conditions.dfy`): the MIT, MITP, MPID and bundled
  conditions.
- `SourceSets` (`sourcesets.dfy`): the MPID-set and CIT conditions. Each has
  a specification function, and a method with the source's loops over the
  source lists, proved equal to it.
- `InfoIndex` (`info_index.dfy`): the data-shape checks of `info.__init__`
  and `__check_xyindex`. The latter is a method of a class `Info` whose index
  fields it assigns.
- `Example` (`example.dfy`): the example at the end of
  `causal_network.py`, the paths from `(1,-6)` to `(0,0)`.
  - The node set is proved to be the eleven nodes `(1,-6)` and `(0,-k)`,
    `(1,-k)` for `1 <= k <= 5`.
  - The proof holds for every horizon of at least six, the demo's ten
    included.

Exceptions become values. `Outcomes.Error` has one constructor per raise
site, and every query returns a `Result`. The error raised first in the
source is the error returned.

## Model

| member | source | states |
|---|---|---|
| NodeCodec.NodeNumber | info/utils/causal_network.py:793-795 | the id exceeds variable plus shift by exactly `nvar` times the absolute lag; it is non-negative when the variable and the shift are |
| NodeCodec.NodeSet | info/utils/causal_network.py:798-806 | a decoded node has a variable in `0..nvar-1`, and a lag that is not positive when the id is not negative |
| NodeCodec.EncodeDecode | info/utils/causal_network.py:793-806 | decoding the id of a node with a variable in range and a non-positive lag gives that node back |
| NodeCodec.DecodeEncode | info/utils/causal_network.py:793-806 | encoding the node of any non-negative id gives that id back |
| NodeCodec.PositiveLagAliases | info/utils/causal_network.py:793-795 | a positive lag encodes to the same id as its negation (the `abs`) |
| NodeCodec.NodeSetInjective | info/utils/causal_network.py:798-806 | distinct non-negative ids decode to distinct nodes |
| NodeCodec.NodesOfIdsMember | info/utils/causal_network.py:788-790 | converting a set of ids to nodes keeps membership in both directions |
| NodeCodec.NodesOfIdsDisjoint | info/utils/causal_network.py:788-790 | disjoint sets of ids convert to disjoint sets of nodes |
| Graphs.Parents | info/utils/causal_network.py:855-864 | a node is a parent of the set iff it is outside the set and has an edge into it; the result is disjoint from the set and inside the graph |
| Graphs.Children | info/utils/causal_network.py:843-852 | a node is a child of the set iff it is outside the set and has an edge from it; the result is disjoint from the set and inside the graph |
| Graphs.ParentChildDual | info/utils/causal_network.py:843-864 | for distinct nodes, `p` is a parent of `{c}` iff `c` is a child of `{p}` iff the edge `p -> c` exists |
| Graphs.ParentsOfUnion | info/utils/causal_network.py:855-864 | the parents of a union are the union of the parents, less the union itself |
| Graphs.EdgeEnds | info/utils/causal_network.py:846-858 | the comprehensions over successors and predecessors collect exactly the edge ends next to the set |
| Graphs.Unique | info/utils/causal_network.py:868-870 | the result holds exactly the list's elements and is no longer than the list |
| Graphs.Intersect | info/utils/causal_network.py:873-875 | an element is in the result iff it is in both lists |
| Graphs.UnionAll | info/utils/causal_network.py:878-880 | an element is in the result iff some list holds it |
| Graphs.ExcludeIntersection | info/utils/causal_network.py:883-885 | every element of `b` is removed and every other element of `a` keeps its multiplicity |
| Graphs.ExcludeIntersectionIsDifference | info/utils/causal_network.py:883-885 | as sets, the result is the difference of the two lists |
| SimplePaths.Explore | info/utils/causal_network.py:822-825 | every sequence the depth-first search yields extends the prefix and ends at the target; ExploreSound and ExploreComplete state that these are exactly the simple paths |
| SimplePaths.ExploreSound | info/utils/causal_network.py:822-825 | every sequence the depth-first enumerator yields is a simple path to the target that extends the prefix |
| SimplePaths.ExploreComplete | info/utils/causal_network.py:822-825 | every simple path that extends the prefix is yielded by the enumerator |
| SimplePaths.AllSimplePaths | info/utils/causal_network.py:822-830 | a sequence is returned iff it is a simple path: at least two distinct nodes from source to target, joined by edges |
| SimplePaths.AllSimplePathsExact | info/utils/causal_network.py:822-825 | for a source different from the target, the enumerator yields exactly the simple paths |
| SimplePaths.EdgeIsPath | info/utils/causal_network.py:822-825 | an edge between distinct nodes is itself a simple path |
| SimplePaths.PathNodes | info/utils/causal_network.py:832-838 | the flattened path nodes never hold the target and lie in the graph; PathNodesMember states membership |
| SimplePaths.PathNodesMember | info/utils/causal_network.py:832-838 | a node is a flattened path node iff some simple path visits it before its last node |
| SimplePaths.PathNodesShape | info/utils/causal_network.py:832-838 | the flattened path nodes never hold the target, hold the source iff some path exists, and lie in the graph |
| SimplePaths.PathAndParents | info/utils/causal_network.py:809-819 | returns the path nodes and their parents, and the two sets are disjoint |
| CausalNetwork.Uniform | info/utils/causal_network.py:63-64 | the default lag tensor has shape `nvar x nvar x (taumax+1)` and every entry 1 |
| CausalNetwork.MinSeq | info/utils/causal_network.py:81 | the minimum of a non-empty sequence is at most every entry and equal to one of them |
| CausalNetwork.MinMatrix | info/utils/causal_network.py:81 | the minimum of a matrix with non-empty rows is at most every entry and equal to one of them |
| CausalNetwork.MinTensor | info/utils/causal_network.py:81 | numpy's `min()`: at most every entry of the tensor, and equal to one of them |
| CausalNetwork.MinOf | info/utils/causal_network.py:81 | the minimum of a shaped tensor is at most each of its entries and equal to one of them |
| CausalNetwork.Offset | info/utils/causal_network.py:81 | the offset is never positive, is at most every coupling, and is 0 or one of the couplings; so it is the least coupling when that is negative, and 0 otherwise |
| CausalNetwork.Shift | info/utils/causal_network.py:82 | every entry of the shifted tensor is the entry minus the offset, with the shape kept |
| CausalNetwork.OffsetAgrees | info/utils/causal_network.py:63-82 | the offset is the minimum of the lag tensor (given, or all ones) when that is negative, and 0 otherwise |
| CausalNetwork.EdgesMember | info/utils/causal_network.py:85-95 | an edge is in the graph iff some layer, child and parent produce it with a parent id below `nnodes` |
| CausalNetwork.EdgeAtDecodes | info/utils/causal_network.py:85-95 | an edge of layer `i` from parent `p` of child `j` decodes to variable `p.v` at layer `i + abs(p.lag)` and variable `j` at layer `i`, both inside the graph |
| CausalNetwork.Edges | info/utils/causal_network.py:85-95 | for a well-declared network every edge joins two ids in `range(nnodes)`; EdgesMember states which edges there are |
| CausalNetwork.EdgeIffParentInGraph | info/utils/causal_network.py:85-95 | the edge from a declared parent to its child in layer `i` exists iff the parent id is below `nnodes` |
| CausalNetwork.EdgesPointForward | info/utils/causal_network.py:85-95 | an edge's source layer is at least its child's layer, so no edge points back in time |
| CausalNetwork.WeightMatrix | info/utils/causal_network.py:98-101 | the matrix is `nnodes x nnodes`, and every entry without an edge is 0 |
| CausalNetwork.WeightMatrixNonNegative | info/utils/causal_network.py:81-101 | after the offset shift every weight entry is at least 0 |
| CausalNetwork.EdgeWeightIsShiftedLag | info/utils/causal_network.py:91-101 | the weight of each added edge is the lag coupling of its parent minus the offset |
| CausalNetwork.BuiltNetwork | info/utils/causal_network.py:48-109 | the network is valid and holds the declaration's size, horizon, edges, offset and shifted weights |
| CausalNetwork.Built | info/utils/causal_network.py:60-82 | the construction fails iff the declaration is empty (the minimum of an empty tensor), and otherwise gives a valid network with the declared edges |
| CausalNetwork.AddParents | info/utils/causal_network.py:90-95 | the inner loop adds exactly the edges of one child in one layer, each carrying its shifted coupling |
| CausalNetwork.AddLayer | info/utils/causal_network.py:86-95 | the middle loop adds exactly the edges of one layer |
| CausalNetwork.AddEdges | info/utils/causal_network.py:85-95 | the three loops add exactly the graph's edges, each with its shifted coupling as attribute |
| CausalNetwork.FillWeights | info/utils/causal_network.py:98-101 | the filled array holds each edge's attribute and 0 elsewhere |
| CausalNetwork.WeightsFromAttributes | info/utils/causal_network.py:95-101 | a matrix filled from the edge attributes equals the weight matrix of the specification |
| CausalNetwork.Build | info/utils/causal_network.py:48-109 | the loop-built network, or the error, is the one `Built` specifies |
| CausalNetwork.Assemble | info/utils/causal_network.py:82-101 | once the offset is known, shifting, adding the edges and filling the weights gives `BuiltNetwork` |
| Queries.CheckNode | info/utils/causal_network.py:111-124 | a node passes iff its variable is declared and its lag is at most `taumax`; the variable is checked first |
| Queries.Locate | info/utils/causal_network.py:111-124 | a checked node is in the graph iff its lag is at least `-taumax`; its id then decodes to the node, positive lags folded to negative |
| Queries.Lookup | info/utils/causal_network.py:111-150 | the lookup succeeds iff the folded node is in the graph and its lag is at most `taumax`; the error is the check's error when the check fails, and otherwise "node not in graph" |
| Queries.LookupPair | info/utils/causal_network.py:180-210 | both ids are found iff both lookups succeed; otherwise the source's check error comes first, then the target's, then "node not in graph" |
| Queries.DecodedMember | info/utils/causal_network.py:788-806 | a node is among the decoded ids iff it lies in the graph and its id is in the set |
| Queries.DecodeUnion | info/utils/causal_network.py:788-806 | decoding ids inside the graph commutes with union |
| Queries.DecodeDiff | info/utils/causal_network.py:788-806 | decoding ids inside the graph commutes with difference |
| Queries.DecodeMeet | info/utils/causal_network.py:788-806 | decoding ids inside the graph commutes with intersection |
| Queries.SearchParents | info/utils/causal_network.py:126-150 | succeeds iff the target's lookup does, failing with its error; every parent lies in the graph |
| Queries.SearchChildren | info/utils/causal_network.py:152-178 | succeeds iff the target's lookup does, failing with its error; every child lies in the graph |
| Queries.SearchParentsMember | info/utils/causal_network.py:126-150 | a node is returned iff it lies in the graph, is not the target, and has an edge to the target |
| Queries.SearchChildrenMember | info/utils/causal_network.py:152-178 | a node is returned iff it lies in the graph, is not the target, and has an edge from the target |
| Queries.CausalPathsNested | info/utils/causal_network.py:180-210 | succeeds iff both nodes are found, failing with the pair's error; every path starts at the source and ends at the target |
| Queries.CausalPathsFlat | info/utils/causal_network.py:180-210 | succeeds iff both nodes are found, failing with the pair's error; the target is never a path node |
| Queries.NestedNonEmpty | info/utils/causal_network.py:180-210 | the nested answer is empty iff no simple path joins the two ids |
| Queries.CausalPathsFlatMember | info/utils/causal_network.py:180-210 | a node is in the flat answer iff it is in the graph and some simple path from the source visits it before the target |
| Queries.FlatHoldsSource | info/utils/causal_network.py:180-210 | the flat answer holds the source iff some path exists, and is non-empty iff some path exists |
| Queries.CheckLinks | info/utils/causal_network.py:212-239 | a failed target lookup is reported first; the check succeeds iff both nodes are found |
| Queries.CheckLinksDirected | info/utils/causal_network.py:212-239 | the answer is "directed" iff the source is not a positive-lag alias, differs from the target, and has an edge to it |
| Queries.CheckLinksCausalPath | info/utils/causal_network.py:212-239 | the answer is "causalpath" iff the source is not a direct parent of the target and yet some simple path joins them |
| Queries.CheckLinksLinked | info/utils/causal_network.py:212-239 | the answer is a link iff some simple path joins source to target |
| Queries.PositiveLagNeverDirected | info/utils/causal_network.py:212-239 | a source with a positive lag is never "directed", since the returned parents carry non-positive lags |
| Reduction.Pruned | info/utils/causal_network.py:744 | a pruned entry is either 0 or the original weight |
| Reduction.ClosureAfter | info/utils/causal_network.py:735-742 | after any number of rounds, every closure entry is at least the original weight |
| Reduction.Closure | info/utils/causal_network.py:735-742 | every entry of the full max-min closure is at least the original weight; ClosureCoversTwoHops adds every two-hop detour |
| Reduction.ClosureMonotone | info/utils/causal_network.py:735-742 | later rounds of the closure never lower an entry |
| Reduction.ClosureCoversTwoHops | info/utils/causal_network.py:735-742 | every closure entry is at least the weaker hop of any two-edge detour |
| Reduction.TwoHopDetourPrunes | info/utils/causal_network.py:735-744 | an entry weaker than some two-hop detour is zeroed |
| Reduction.KeptIffUndominated | info/utils/causal_network.py:735-744 | an entry survives pruning iff it is non-zero and its closure equals it |
| Reduction.RowSumZero | info/utils/causal_network.py:761-767 | with non-negative weights a pruned row sum is non-negative, and is 0 iff every pruned entry of the row is 0 |
| Reduction.Reduce | info/utils/causal_network.py:716-784 | the reduction keeps a subset of `v1`, and keeps nothing when `v2` is empty |
| Reduction.ReduceAsWritten | info/utils/causal_network.py:761-784 | the ids kept by the row-sum test are members of `v1`, and none is kept when `v2` is empty |
| Reduction.ReduceAsWrittenIsReduce | info/utils/causal_network.py:761-784 | with non-negative weights, the sum-is-zero test as written keeps exactly the ids with a surviving positive entry into `v2` |
| Reduction.ReduceRowwise | info/utils/causal_network.py:761-767 | the decision is per member of `v1`: the reduction distributes over union and intersection of `v1` |
| Reduction.ReduceIdempotent | info/utils/causal_network.py:716-784 | reducing a reduced set again changes nothing |
| Reduction.ReduceMonotone | info/utils/causal_network.py:761-767 | a larger `v2` keeps at least as many members of `v1` |
| Reduction.ToArray | info/utils/causal_network.py:722-723 | the copy is a fresh array holding the matrix |
| Reduction.FromArray | info/utils/causal_network.py:722-723 | the matrix read back holds the array's entries |
| Reduction.CopyArray | info/utils/causal_network.py:735-737 | the snapshot is a fresh array with the same entries |
| Reduction.RelaxRound | info/utils/causal_network.py:736-742 | one round `k` of the loop, reading its snapshot, turns round `k` of the closure into round `k+1` |
| Reduction.ClosureInPlace | info/utils/causal_network.py:735-742 | the `k` loop leaves the full max-min closure in the array |
| Reduction.PruneInPlace | info/utils/causal_network.py:744 | the weights become the pruned matrix: entries the closure strictly exceeds are zeroed |
| Reduction.ZeroRows | info/utils/causal_network.py:761-767 | the removed ids are exactly the members of `v1` whose pruned row sums to 0 over `v2` |
| Reduction.RowOf | info/utils/causal_network.py:763 | the value computed is the pruned row sum over `v2` |
| Reduction.TransitiveReduction | info/utils/causal_network.py:716-784 | an id outside the graph fails the index lookup; otherwise the result is `v1` less the zero-sum rows, computed on copies |
| Conditions.Mit | info/utils/causal_network.py:241-278 | succeeds iff both nodes are found, failing with the pair's error |
| Conditions.MitIsParentUnion | info/utils/causal_network.py:241-278 | the MIT condition is the parents of the source together with the parents of the target other than the source |
| Conditions.MitExcludesSource | info/utils/causal_network.py:241-278 | the MIT condition never holds the source |
| Conditions.MitpIds | info/utils/causal_network.py:280-333 | the MITP condition lies in the graph and shares no node with the causal paths |
| Conditions.Mitp | info/utils/causal_network.py:280-333 | succeeds iff both nodes are found, failing with the pair's error |
| Conditions.MitpAvoidsPaths | info/utils/causal_network.py:300-333 | the condition is empty when the pair is unlinked, and is always disjoint from the causal-path nodes |
| Conditions.MitpReductionShrinks | info/utils/causal_network.py:318-324 | with `transitive`, the condition is a subset of the unreduced one |
| Conditions.MitpCovers | info/utils/causal_network.py:312-316 | for a linked pair, the condition is the parents of the paths plus the target's parents off the paths, with no special case for a direct link |
| Conditions.MpidIds | info/utils/causal_network.py:335-406 | the MPID condition lies in the graph and is disjoint from both sources' path nodes |
| Conditions.MpidCondition | info/utils/causal_network.py:351-353 | an answer implies every node was found; a failing check of source1, then of source2, is reported first |
| Conditions.MpidUnlinked | info/utils/causal_network.py:356-365 | the answer is "unlinked" iff either source has no link to the target, that is iff no simple path joins one of the sources to the target |
| Conditions.MpidAvoidsPaths | info/utils/causal_network.py:380-406 | the condition is disjoint from `cpath1 + cpath2`, which is the union of both flat causal paths |
| Conditions.MpidReductionShrinks | info/utils/causal_network.py:387-394 | the transitive reduction only removes nodes from the condition and leaves the path set unchanged |
| Conditions.MpidCoversTarget | info/utils/causal_network.py:380-383 | without reduction, the condition holds every parent of the target that lies on neither source's paths |
| Conditions.MpidSymmetric | info/utils/causal_network.py:335-406 | swapping the two sources gives the same answer |
| Conditions.MpidOfOneSourceIsMitp | info/utils/causal_network.py:280-406 | with the same source twice, the MPID condition is the MITP condition |
| Conditions.FirstCheckError | info/utils/causal_network.py:425-429 | no error is reported iff every node passes `__check_node` |
| Conditions.CheckErrorKind | info/utils/causal_network.py:111-124 | a reported check error is an undeclared variable or a lag beyond the horizon |
| Conditions.BundleNodes | info/utils/causal_network.py:514-519 | the checked sources are the `srcset` variables at lag `-tau`, in order |
| Conditions.Immediate | info/utils/causal_network.py:526-527 | the immediate history holds the id of every node of a bundled variable at lags `-1..-tau`, and nothing else |
| Conditions.Lags | info/utils/causal_network.py:526-527 | the lags are exactly `1..tau` |
| Conditions.EachParents | info/utils/causal_network.py:574-575 | a node is collected iff it has an edge to some other member of the set |
| Conditions.DistantMember | info/utils/causal_network.py:537-542 | a node is in the decoded distant history iff it belongs to a bundled variable, is older than `-tau`, and has an edge into the immediate history |
| Conditions.OutsideMember | info/utils/causal_network.py:574-575 | a node is in the decoded outside parents of a set iff its variable is outside `srcset` and it has an edge to another node of the set |
| Conditions.BundleIds | info/utils/causal_network.py:568-579 | fails with "undefined condition" iff the level is not 0, 1 or 2 and `len(srcset) != nvar` |
| Conditions.BundledComponents | info/utils/causal_network.py:498-519 | the first failing check of the sources and the target, in order, is the answer |
| Conditions.BundledUndefined | info/utils/causal_network.py:568-579 | the query fails on the unbound `pwlist`, read at line 579, iff all checks pass, the level is unknown and `len(srcset) != nvar` |
| Conditions.BundledHistory | info/utils/causal_network.py:526-562 | without the reduction, `w` is exactly the nodes of bundled variables older than `-tau` with an edge into the immediate history, and with it `w` is a part of them; `ptc` is exactly the target's parents with a variable in `srcset` and lag at least `-tau` |
| Conditions.BundledRemaining | info/utils/causal_network.py:562-593 | at level 0, or when `len(srcset) == nvar`, `flist` and `pwptc` are empty unless the reduction at level 2 or more applies; at level 1 with `len(srcset) != nvar` `flist` is `ptrlist`; with the reduction at level 2 or more and `len(srcset) == nvar` it is `ptrlist`; at level 2 with `len(srcset) != nvar`, and with the reduction at level 2 or more, `flist` is exactly `pwptc` plus `ptrlist` |
| Conditions.BundledOutside | info/utils/causal_network.py:573-593 | `pwptc` lies in `flist` and holds only parents, with variables outside `srcset`, of other nodes of `w` or `ptc`; at level 2 without the reduction and with `len(srcset) != nvar` it holds every such parent |
| SourceSets.Links | info/utils/causal_network.py:432-446 | position `i` holds `check_links` of source `i` |
| SourceSets.KeptOk | info/utils/causal_network.py:432-446 | the filter succeeds iff every link check does |
| SourceSets.KeptMember | info/utils/causal_network.py:432-446 | a node is kept iff some position holds it with a link |
| SourceSets.KeptPrefix | info/utils/causal_network.py:432-446 | an error in a prefix of the loop is the loop's error |
| SourceSets.LinkedPositions | info/utils/causal_network.py:432-446 | the positions are increasing, all linked, and include every linked position |
| SourceSets.KeptInOrder | info/utils/causal_network.py:432-446 | the kept list is the sources at the linked positions, in their original order |
| SourceSets.LinkedSourcesOk | info/utils/causal_network.py:432-446 | the filter succeeds iff every source's `check_links` does |
| SourceSets.LinkedSourcesMember | info/utils/causal_network.py:432-446 | a node is kept iff it is a source with a link to the target |
| SourceSets.LinkedSourcesInOrder | info/utils/causal_network.py:432-446 | the kept list is exactly the linked sources in their original order |
| SourceSets.LinkedSourcesPresent | info/utils/causal_network.py:432-446 | every kept source is in the graph, and so is the target when anything is kept |
| SourceSets.LinkedMemberPresent | info/utils/causal_network.py:432-446 | a kept source and the target are in the graph |
| SourceSets.PathsFrom | info/utils/causal_network.py:458-464 | the accumulated path nodes and their parents lie in the graph |
| SourceSets.PathsFromCovers | info/utils/causal_network.py:458-464 | each source's path nodes and parents are in the accumulated sets |
| SourceSets.PathsFromWithin | info/utils/causal_network.py:458-464 | every accumulated node comes from some source's paths or their parents |
| SourceSets.PathsFromSingle | info/utils/causal_network.py:458-464 | for one source, the accumulation is that source's paths and parents |
| SourceSets.MpidSetIds | info/utils/causal_network.py:473-487 | the MPID-set condition lies in the graph |
| SourceSets.MpidSet | info/utils/causal_network.py:409-495 | an answer has a present target and a condition of present nodes; the lemmas below state what the condition holds |
| SourceSets.MpidSetChecksFirst | info/utils/causal_network.py:425-446 | the first failing node check, over both lists then the target, is the answer; otherwise each list is reduced to its linked members in order |
| SourceSets.MpidSetIgnoresSecondList | info/utils/causal_network.py:466-476 | the condition is the same whatever the second list, since its paths are never gathered |
| SourceSets.MpidSetCoversTarget | info/utils/causal_network.py:473-476 | without reduction, the condition holds every parent of the target off the first list's paths |
| SourceSets.MpidSetOfOneSourceIsMitp | info/utils/causal_network.py:409-495 | with one source in the first list, the condition is that source's MITP condition |
| SourceSets.CitIds | info/utils/causal_network.py:663-683 | the CIT condition lies in the graph and is disjoint from the union of the causal paths |
| SourceSets.CitComponents | info/utils/causal_network.py:611-713 | an answer with components has at least one source, its `ptc` among the path nodes, and a condition disjoint from the path nodes |
| SourceSets.CitNoLinkedSource | info/utils/causal_network.py:645-646 | the answer is "no linked source" iff all checks pass and no source is linked |
| SourceSets.CitChecksFirst | info/utils/causal_network.py:630-643 | the first failing node check is the answer; the sources returned are the linked ones in order |
| SourceSets.CitPartition | info/utils/causal_network.py:663-683 | `w` is disjoint from the paths; `ptc` is the target's parents on the paths; without reduction the other parents lie in `w` |
| SourceSets.CitPathsAreSourcePaths | info/utils/causal_network.py:656-671 | the path nodes are the decoded union of each linked source's path nodes |
| SourceSets.CitOfOneSourceIsMitp | info/utils/causal_network.py:611-713 | with one linked source, the CIT condition is that source's MITP condition |
| SourceSets.FirstCheckErrorPrefix | info/utils/causal_network.py:425-429 | an error in a prefix of the checked nodes is the error of the whole check |
| SourceSets.CheckAll | info/utils/causal_network.py:425-429 | the loop returns the first failing node check |
| SourceSets.FilterLinked | info/utils/causal_network.py:432-446 | the loop returns the linked sources in order, or the first link error |
| SourceSets.CollectPaths | info/utils/causal_network.py:458-464 | the loop returns the accumulated path nodes and their parents |
| SourceSets.SearchMpidSet | info/utils/causal_network.py:409-495 | the method returns what `MpidSet` specifies |
| SourceSets.SearchCitComponents | info/utils/causal_network.py:611-713 | the method returns what `CitComponents` specifies |
| InfoIndex.DataShape | info/core/info.py:78-87 | an accepted shape has one or two dimensions, the first is the point count, and there are at least `case` columns |
| InfoIndex.DataShapeAccepts | info/core/info.py:78-87 | the shape is accepted iff it is a matrix, or a vector for case 1, with at least `case` columns; more than two dimensions is the first error; the counts are the shape |
| InfoIndex.XYIndexCheck | info/core/info.py:151-201 | without an index nothing raises; a raise happens only for cases 1 to 3; an argument that is no list passes only outside those cases and assigns nothing |
| InfoIndex.Conditioned3D | info/core/info.py:189-194 | conditioned case 3 accepts a list iff it has three strictly increasing entries, the last at most `ndim`; the three fields are then its entries |
| InfoIndex.TwoEntries | info/core/info.py:172-199 | conditioned case 2 and unconditioned case 3 accept a list iff it has two increasing entries, the last at most `ndim` |
| InfoIndex.OneEntry | info/core/info.py:158-181 | conditioned case 1 and unconditioned case 2 accept a list iff it has one entry at most `ndim`; unconditioned case 1 ignores a list |
| InfoIndex.DefaultsAndTypes | info/core/info.py:156-201 | for cases 1 to 3, an index of another type always raises; without an index the defaults 1, 2, 3 fill one field per variable group |
| InfoIndex.NoLowerBound | info/core/info.py:160-191 | only the upper bound is checked, so 0 and negative first indices are accepted |
| InfoIndex.ConstructedIndicesFit | info/core/info.py:78-94 | a constructed object holds one index per variable group (one fewer when unconditioned), increasing and within the data columns |
| InfoIndex.Info.constructor | info/core/info.py:72-90 | the object holds the case, the conditioning flag and the point count, with no index set |
| InfoIndex.Info.CheckXYIndex | info/core/info.py:151-201 | on an error the object is unchanged; otherwise exactly the fields the check assigns are set |
| InfoIndex.NewInfo | info/core/info.py:78-94 | the constructor fails with the shape or index error, and otherwise returns a fresh object with the counts and indices |
| Example.DemoEdges | info/utils/causal_network.py:921-926 | the demo's edges are exactly the self-lag, the cross-lag and the contemporaneous `0 -> 1` edges inside the horizon |
| Example.DemoBuilt | info/utils/causal_network.py:921-926 | the demo network's graph is the one `DemoGraph` describes |
| Example.DemoPathIds | info/utils/causal_network.py:921-928 | the ids on paths from `(1,-6)` to `(0,0)` are exactly 2 to 11 and 13 |
| Example.DemoPathNodes | info/utils/causal_network.py:921-928 | the decoded path set holds exactly `(1,-6)` and the nodes of both variables at lags -1 to -5 |
| Example.DemoCausalPaths | info/utils/causal_network.py:921-928 | the flattened `search_causalpaths` from `(1,-6)` to `(0,0)` returns exactly that set |
| Example.DemoPathNodesListed | info/utils/causal_network.py:921-928 | that set is the eleven nodes listed explicitly |
| Example.DemoListedCount | info/utils/causal_network.py:921-928 | the list has 11 nodes and excludes `(0,-6)` |

## Left out

- Text output is left out, with the `verbosity` argument. Every `print`,
  including the demo's final print, is diagnostics only.
- networkx is modelled by its meaning. A `DiGraph` is a node count and an edge
  set. `all_simple_paths` is modelled by its definition, with no enumeration
  order.
- For a source equal to the target, `all_simple_paths` is taken to yield no
  path (the networkx 2 behaviour).
- The order of returned lists is left out. They are modelled as sets, except
  the filtered source lists, whose order is kept and proved.
- `unique` returns `list(set(a))`, whose order Python leaves unspecified.
- The bundled query's `pwptclist` is modelled as a set. Its duplicates are not
  kept.
- Lag weights are Dafny reals, not IEEE floats. Only the offset subtraction,
  max, min, comparison and a sum compared to 0 are used on them.
- The declaration's variables are the keys `0 .. nvar-1`, in order.
  `CausalNetwork.WellDeclared` requires every parent to name a variable in
  `0 .. nvar-1` and a lag with `|lag| <= taumax`. The tensor lookup of line 91
  raises for a variable of at least `nvar` or below `-nvar` and for a lag
  beyond the horizon; the model leaves these out. A variable in `-nvar .. -1`
  is silently aliased by numpy to the last rows of the tensor, and its node
  number can fall below 0. In that case the source adds a node `-1` at line
  95, and line 101 writes its weight into the last row of `weights`. Such
  declarations are excluded from the model.
- `CausalNetwork.LagsFit` requires a given `lagfuncs` to have exactly the
  shape `nvar x nvar x (taumax+1)`. The source also accepts a larger tensor,
  whose entries that are never read can still set the offset through the
  minimum of line 81. It accepts a tensor that is short in a dimension no
  edge indexes. Neither is modelled.
- `CausalNetwork.Build` takes `taumax` as a `nat`, so negative horizons are
  left out. In the source they raise: `np.ones` at line 64, the minimum of an
  empty tensor at line 81, or `np.zeros` at line 98. The one exception is a
  given tensor with `taumax = -1`, which builds an empty network.
- `CausalNetwork.Build` returns the network as a value. The `weights` it fills
  in place are copied into that value.
- `transitive_reduction` always works on copies, so `self.weights` cannot
  change. This holds in the model because the network is a value.
- `Conditions.Mit` does not model the `transitive` argument, which the source
  accepts but never uses.
- The `returnRemovedEdges` lists of `transitive_reduction`, of the bundled
  query and of the CIT query are left out. They are diagnostics derived from
  the closure and do not feed back into the returned sets.
- The `onlyw` flag of the MPID query only selects what is returned.
  `MpidCondition` returns both the condition and the path set.
- The `mpid` flag of the CIT query only selects between returning the sources
  and `ptc`. `CitAnswer` holds both.
- The second source list of `search_mpid_set_condition` (lines 466-470) is
  modelled as written. Its paths are searched but never appended, so it
  contributes nothing to `w`.
- For an unknown level the bundled query leaves `pwlist` unbound and raises
  when line 579 reads it. This is modelled as the error `UndefinedCondition`.
- In `info.py`, the entropy, mutual-information and partial-information
  estimators are left out. They are floating-point numerics over numpy and
  scipy.
- Also left out in `info.py`: the approach dispatch, `del self.data` and the
  fields `base`, `specific` and `averaged`.
- `info.__check_xyindex`: any `xyindex` that is neither `None` nor a list is
  one value, `OtherType`.
- `Example`: the demo sets `taumax = 10`. The lemmas state the path set for
  every `taumax >= 6`, so the demo's horizon is one case of them.
