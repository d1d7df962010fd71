/** causal_network.__init__: the time-unrolled causal graph of a parent
    declaration, and its dense weight matrix.

    The declaration is the `causalDict` of the source with the keys
    `0 .. nvar-1`: `decl[j]` lists the (variable, lag) parents of variable `j`.
    Layer `i` (0 <= i <= taumax) holds the ids `nvar*i .. nvar*i + nvar-1`; the
    parent `p` of variable `j` in layer `i` has the id `p.v + nvar*(i + |p.lag|)`
    and is joined to `nvar*i + j` when that id is inside the graph. */
module CausalNetwork {
  import opened Outcomes
  import opened NodeCodec
  import opened Graphs
  import opened Reduction

  /** `decl[j]` is causalDict[j]. */
  type Declaration = seq<seq<Node>>

  /** lagfuncs: the coupling strength `t[parent var][child var][|lag|]`. */
  type Tensor = seq<seq<seq<real>>>

  /** The declaration the builder can index: every parent names a declared
      variable and a lag within the horizon (otherwise the tensor lookup of
      line 91 fails). */
  predicate WellDeclared(decl: Declaration, taumax: nat)
  {
    forall j, k | 0 <= j < |decl| && 0 <= k < |decl[j]| ::
      0 <= decl[j][k].v < |decl| && Abs(decl[j][k].lag) <= taumax
  }

  /** The shape `nvar x nvar x (taumax+1)` of a lag tensor. */
  predicate Shaped(t: Tensor, nvar: nat, taumax: nat)
  {
    |t| == nvar &&
    (forall a | 0 <= a < nvar :: |t[a]| == nvar) &&
    (forall a, b | 0 <= a < nvar && 0 <= b < nvar :: |t[a][b]| == taumax + 1)
  }

  /** np.ones([nvar, nvar, taumax+1]): the lag tensor used when none is given. */
  function Uniform(nvar: nat, taumax: nat): (t: Tensor)
    ensures Shaped(t, nvar, taumax)
    ensures forall a, b, c | 0 <= a < nvar && 0 <= b < nvar && 0 <= c <= taumax :: t[a][b][c] == 1.0
  {
    seq(nvar, a => seq(nvar, b => seq(taumax + 1, c => 1.0)))
  }

  /** The least entry of a non-empty sequence: at most every entry, and one of them. */
  function MinSeq(s: seq<real>): (m: real)
    requires s != []
    ensures forall c | 0 <= c < |s| :: m <= s[c]
    ensures exists c | 0 <= c < |s| :: m == s[c]
  {
    if |s| == 1 then s[0] else
      var rest := MinSeq(s[1..]);
      assert forall c | 1 <= c < |s| :: s[c] == s[1..][c - 1];
      if s[0] <= rest then s[0] else
        assert exists c | 0 <= c < |s| :: rest == s[c] by {
          var c :| 0 <= c < |s[1..]| && rest == s[1..][c];
          assert rest == s[c + 1];
        }
        rest
  }

  /** No row and no fibre of the tensor is empty. */
  predicate Full(t: Tensor)
  {
    t != [] &&
    (forall a | 0 <= a < |t| :: t[a] != []) &&
    (forall a, b | 0 <= a < |t| && 0 <= b < |t[a]| :: t[a][b] != [])
  }

  /** The least entry of a matrix with non-empty rows, attained by some entry. */
  function MinMatrix(M: seq<seq<real>>): (m: real)
    requires M != [] && forall a | 0 <= a < |M| :: M[a] != []
    ensures forall a, c | 0 <= a < |M| && 0 <= c < |M[a]| :: m <= M[a][c]
    ensures exists a, c | 0 <= a < |M| && 0 <= c < |M[a]| :: m == M[a][c]
  {
    var here := MinSeq(M[0]);
    if |M| == 1 then here else
      var rest := MinMatrix(M[1..]);
      assert forall a | 1 <= a < |M| :: M[a] == M[1..][a - 1];
      if here <= rest then here else
        assert exists a, c | 0 <= a < |M| && 0 <= c < |M[a]| :: rest == M[a][c] by {
          var a, c :| 0 <= a < |M[1..]| && 0 <= c < |M[1..][a]| && rest == M[1..][a][c];
          assert rest == M[a + 1][c];
        }
        rest
  }

  /** numpy's min() over a whole tensor: a lower bound of every entry, and an
      entry itself. */
  function MinTensor(t: Tensor): (m: real)
    requires Full(t)
    ensures forall a, b, c | 0 <= a < |t| && 0 <= b < |t[a]| && 0 <= c < |t[a][b]| :: m <= t[a][b][c]
    ensures exists a, b, c | 0 <= a < |t| && 0 <= b < |t[a]| && 0 <= c < |t[a][b]| :: m == t[a][b][c]
  {
    var here := MinMatrix(t[0]);
    if |t| == 1 then here else
      var rest := MinTensor(t[1..]);
      assert forall a | 1 <= a < |t| :: t[a] == t[1..][a - 1];
      if here <= rest then here else
        assert exists a, b, c | 0 <= a < |t| && 0 <= b < |t[a]| && 0 <= c < |t[a][b]| :: rest == t[a][b][c] by {
          var a, b, c :| 0 <= a < |t[1..]| && 0 <= b < |t[1..][a]| && 0 <= c < |t[1..][a][b]| && rest == t[1..][a][b][c];
          assert rest == t[a + 1][b][c];
        }
        rest
  }

  /** A lower bound of every entry is a lower bound of the minimum too. */
  lemma {:induction false} MinSeqAtLeast(s: seq<real>, x: real)
    requires s != [] && forall c | 0 <= c < |s| :: x <= s[c]
    ensures x <= MinSeq(s)
  {
    if |s| > 1 {
      MinSeqAtLeast(s[1..], x);
    }
  }

  lemma {:induction false} MinMatrixAtLeast(M: seq<seq<real>>, x: real)
    requires M != [] && forall a | 0 <= a < |M| :: M[a] != []
    requires forall a, c | 0 <= a < |M| && 0 <= c < |M[a]| :: x <= M[a][c]
    ensures x <= MinMatrix(M)
  {
    MinSeqAtLeast(M[0], x);
    if |M| > 1 {
      MinMatrixAtLeast(M[1..], x);
    }
  }

  lemma {:induction false} MinTensorAtLeast(t: Tensor, x: real)
    requires Full(t)
    requires forall a, b, c | 0 <= a < |t| && 0 <= b < |t[a]| && 0 <= c < |t[a][b]| :: x <= t[a][b][c]
    ensures x <= MinTensor(t)
  {
    MinMatrixAtLeast(t[0], x);
    if |t| > 1 {
      MinTensorAtLeast(t[1..], x);
    }
  }

  lemma ShapedFull(t: Tensor, nvar: nat, taumax: nat)
    requires nvar >= 1 && Shaped(t, nvar, taumax)
    ensures Full(t)
  {
  }

  function MinOf(t: Tensor, nvar: nat, taumax: nat): (m: real)
    requires nvar >= 1 && Shaped(t, nvar, taumax)
    ensures forall a, b, c | 0 <= a < nvar && 0 <= b < nvar && 0 <= c <= taumax :: m <= t[a][b][c]
    ensures exists a, b, c | 0 <= a < nvar && 0 <= b < nvar && 0 <= c <= taumax :: m == t[a][b][c]
  {
    ShapedFull(t, nvar, taumax);
    MinTensor(t)
  }

  /** The lags argument is absent or has the shape the builder indexes. */
  predicate LagsFit(lags: Option<Tensor>, nvar: nat, taumax: nat)
  {
    lags.Some? ==> Shaped(lags.value, nvar, taumax)
  }

  /** lagfuncs[a, b, c] before the shift: the given tensor, or 1.0 everywhere. */
  function Coupling(lags: Option<Tensor>, nvar: nat, taumax: nat, a: int, b: int, c: int): real
    requires LagsFit(lags, nvar, taumax)
    requires 0 <= a < nvar && 0 <= b < nvar && 0 <= c <= taumax
  {
    if lags.None? then 1.0 else lags.value[a][b][c]
  }

  /** Lines 81-82: the offset is the tensor's minimum when that is negative, else 0;
      it is never positive, never above any coupling, and when it is not 0 it is
      one of the couplings, so it is the least coupling whenever that is negative. */
  function Offset(lags: Option<Tensor>, nvar: nat, taumax: nat): (o: real)
    requires nvar >= 1 && LagsFit(lags, nvar, taumax)
    ensures o <= 0.0
    ensures forall a, b, c | 0 <= a < nvar && 0 <= b < nvar && 0 <= c <= taumax ::
              o <= Coupling(lags, nvar, taumax, a, b, c)
    ensures o == 0.0 || exists a, b, c | 0 <= a < nvar && 0 <= b < nvar && 0 <= c <= taumax ::
              o == Coupling(lags, nvar, taumax, a, b, c)
  {
    var m := if lags.None? then 1.0 else MinOf(lags.value, nvar, taumax);
    if m < 0.0 then
      assert exists a, b, c | 0 <= a < nvar && 0 <= b < nvar && 0 <= c <= taumax ::
               m == Coupling(lags, nvar, taumax, a, b, c) by {
        var a, b, c :| 0 <= a < nvar && 0 <= b < nvar && 0 <= c <= taumax && m == lags.value[a][b][c];
        assert m == Coupling(lags, nvar, taumax, a, b, c);
      }
      m
    else 0.0
  }

  /** `lagfuncs -= offset`, as numpy applies it to the whole tensor. */
  function Shift(t: Tensor, nvar: nat, taumax: nat, o: real): (r: Tensor)
    requires Shaped(t, nvar, taumax)
    ensures Shaped(r, nvar, taumax)
    ensures forall a, b, c | 0 <= a < nvar && 0 <= b < nvar && 0 <= c <= taumax :: r[a][b][c] == t[a][b][c] - o
  {
    seq(nvar, a requires 0 <= a < nvar => seq(nvar, b requires 0 <= b < nvar =>
      seq(taumax + 1, c requires 0 <= c <= taumax => t[a][b][c] - o)))
  }

  function Nnodes(decl: Declaration, taumax: nat): nat
  {
    |decl| * (taumax + 1)
  }

  /** Line 93: the id of the `k`-th parent of variable `j`, seen from layer `i`. */
  function Start(decl: Declaration, i: nat, j: nat, k: nat): int
    requires j < |decl| && k < |decl[j]|
  {
    NodeNumber(decl[j][k], |decl|, |decl| * i)
  }

  /** Line 89: the id of variable `j` in layer `i`. */
  function End(decl: Declaration, i: nat, j: nat): int
  {
    |decl| * i + j
  }

  /** The edge line 95 adds for layer `i`, variable `j` and its `k`-th parent. */
  predicate EdgeAt(decl: Declaration, taumax: nat, i: int, j: int, k: int, e: (int, int))
  {
    0 <= i <= taumax && 0 <= j < |decl| && 0 <= k < |decl[j]| &&
    Start(decl, i, j, k) < Nnodes(decl, taumax) && e == (Start(decl, i, j, k), End(decl, i, j))
  }

  /** The edges of the first `k` parents of variable `j` in layer `i`. */
  function ChildEdges(decl: Declaration, taumax: nat, i: nat, j: nat, k: nat): set<(int, int)>
    requires j < |decl| && k <= |decl[j]|
  {
    if k == 0 then {} else
      var start := Start(decl, i, j, k - 1);
      ChildEdges(decl, taumax, i, j, k - 1) +
        (if start < Nnodes(decl, taumax) then {(start, End(decl, i, j))} else {})
  }

  /** The edges of the first `j` variables of layer `i`. */
  function LayerEdges(decl: Declaration, taumax: nat, i: nat, j: nat): set<(int, int)>
    requires j <= |decl|
  {
    if j == 0 then {} else
      LayerEdges(decl, taumax, i, j - 1) + ChildEdges(decl, taumax, i, j - 1, |decl[j - 1]|)
  }

  /** The edges of the first `i` layers. */
  function EdgesUpTo(decl: Declaration, taumax: nat, i: nat): set<(int, int)>
  {
    if i == 0 then {} else
      EdgesUpTo(decl, taumax, i - 1) + LayerEdges(decl, taumax, i - 1, |decl|)
  }

  /** Every edge of the unrolled graph; for a well-declared network each one
      joins two of its nodes. */
  function Edges(decl: Declaration, taumax: nat): (r: set<(int, int)>)
    ensures WellDeclared(decl, taumax) ==> WellFormed(Graph(Nnodes(decl, taumax), r))
  {
    var r := EdgesUpTo(decl, taumax, taumax + 1);
    assert WellDeclared(decl, taumax) ==> WellFormed(Graph(Nnodes(decl, taumax), r)) by {
      if WellDeclared(decl, taumax) {
        forall e | e in r ensures 0 <= e.0 < Nnodes(decl, taumax) && 0 <= e.1 < Nnodes(decl, taumax) {
          EdgesUpToMember(decl, taumax, taumax + 1, e);
          var i, j, k :| EdgeAt(decl, taumax, i, j, k, e);
          EdgeAtDecodes(decl, taumax, i, j, k, e);
        }
      }
    }
    r
  }

  lemma {:induction false} ChildEdgesMember(decl: Declaration, taumax: nat, i: nat, j: nat, k: nat, e: (int, int))
    requires i <= taumax && j < |decl| && k <= |decl[j]|
    ensures e in ChildEdges(decl, taumax, i, j, k) <==>
            exists k' :: 0 <= k' < k && EdgeAt(decl, taumax, i, j, k', e)
  {
    if k > 0 {
      ChildEdgesMember(decl, taumax, i, j, k - 1, e);
      if EdgeAt(decl, taumax, i, j, k - 1, e) {
        assert e in ChildEdges(decl, taumax, i, j, k);
      }
    }
  }

  lemma {:induction false} LayerEdgesMember(decl: Declaration, taumax: nat, i: nat, j: nat, e: (int, int))
    requires i <= taumax && j <= |decl|
    ensures e in LayerEdges(decl, taumax, i, j) <==>
            exists j', k' :: 0 <= j' < j && EdgeAt(decl, taumax, i, j', k', e)
  {
    if j > 0 {
      LayerEdgesMember(decl, taumax, i, j - 1, e);
      ChildEdgesMember(decl, taumax, i, j - 1, |decl[j - 1]|, e);
      if exists j', k' :: 0 <= j' < j && EdgeAt(decl, taumax, i, j', k', e) {
        var j', k' :| 0 <= j' < j && EdgeAt(decl, taumax, i, j', k', e);
        if j' == j - 1 {
          assert e in ChildEdges(decl, taumax, i, j - 1, |decl[j - 1]|);
        }
      }
    }
  }

  lemma {:induction false} EdgesUpToMember(decl: Declaration, taumax: nat, i: nat, e: (int, int))
    requires i <= taumax + 1
    ensures e in EdgesUpTo(decl, taumax, i) <==>
            exists i', j', k' :: 0 <= i' < i && EdgeAt(decl, taumax, i', j', k', e)
  {
    if i > 0 {
      EdgesUpToMember(decl, taumax, i - 1, e);
      LayerEdgesMember(decl, taumax, i - 1, |decl|, e);
      if exists i', j', k' :: 0 <= i' < i && EdgeAt(decl, taumax, i', j', k', e) {
        var i', j', k' :| 0 <= i' < i && EdgeAt(decl, taumax, i', j', k', e);
        if i' == i - 1 {
          assert e in LayerEdges(decl, taumax, i - 1, |decl|);
        }
      }
    }
  }

  /** Lines 85-95: an edge is exactly a declared parent link of some layer whose
      parent id falls inside the graph. */
  lemma EdgesMember(decl: Declaration, taumax: nat, e: (int, int))
    ensures e in Edges(decl, taumax) <==>
            exists i, j, k :: EdgeAt(decl, taumax, i, j, k, e)
  {
    EdgesUpToMember(decl, taumax, taumax + 1, e);
  }

  /** The decoded form of a declared edge: the parent sits `|lag|` layers below
      the child, with the parent's variable, and the child with its own. */
  lemma EdgeAtDecodes(decl: Declaration, taumax: nat, i: int, j: int, k: int, e: (int, int))
    requires WellDeclared(decl, taumax) && EdgeAt(decl, taumax, i, j, k, e)
    ensures e.0 % |decl| == decl[j][k].v && e.0 / |decl| == i + Abs(decl[j][k].lag)
    ensures e.1 % |decl| == j && e.1 / |decl| == i
    ensures 0 <= e.0 < Nnodes(decl, taumax) && 0 <= e.1 < Nnodes(decl, taumax)
  {
    var nvar := |decl|;
    var p := decl[j][k];
    assert e.0 == p.v + nvar * (i + Abs(p.lag)) by {
      assert nvar * i + nvar * Abs(p.lag) == nvar * (i + Abs(p.lag));
    }
    DivModUnique(p.v, i + Abs(p.lag), nvar);
    DivModUnique(j, i, nvar);
    assert e.1 < Nnodes(decl, taumax) by {
      assert nvar * i + j < nvar * i + nvar == nvar * (i + 1);
      MulLe(nvar, i + 1, taumax + 1);
    }
    MulAtLeastZero(nvar, i);
  }

  lemma MulLe(a: nat, b: nat, c: nat)
    requires b <= c
    ensures a * b <= a * c
  {
    assert a * c == a * b + a * (c - b);
  }

  lemma MulAtLeastZero(a: nat, b: nat)
    ensures a * b >= 0
  {
  }

  /** Lines 91 and 98-101: the weight stored between `a` and `b`, read back from
      the ids as the shifted coupling of (parent variable, child variable,
      layer difference). */
  function LagWeight(lags: Option<Tensor>, o: real, nvar: nat, taumax: nat, a: int, b: int): real
    requires nvar >= 1 && LagsFit(lags, nvar, taumax)
  {
    var d := a / nvar - b / nvar;
    if 0 <= d <= taumax then Coupling(lags, nvar, taumax, a % nvar, b % nvar, d) - o else 0.0
  }

  /** The network the source object holds after __init__. */
  datatype Network = Network(
    nvar: nat,
    taumax: nat,
    g: Graph,
    weights: Matrix,
    offset: real)

  /** What __init__ guarantees of every network it builds. */
  predicate Valid(net: Network)
  {
    net.nvar >= 1 &&
    net.g.nnodes == net.nvar * (net.taumax + 1) &&
    WellFormed(net.g) &&
    |net.weights| == net.g.nnodes && Square(net.weights) && NonNegative(net.weights) &&
    (forall a, b | 0 <= a < net.g.nnodes && 0 <= b < net.g.nnodes && (a, b) !in net.g.edges ::
       net.weights[a][b] == 0.0) &&
    net.offset <= 0.0
  }

  /** The weight matrix of lines 98-101: the edge weight on every edge, 0 elsewhere. */
  function WeightMatrix(E: set<(int, int)>, lags: Option<Tensor>, o: real, nvar: nat, taumax: nat): (W: Matrix)
    requires nvar >= 1 && LagsFit(lags, nvar, taumax)
    ensures |W| == nvar * (taumax + 1) && Square(W)
    ensures forall a, b | 0 <= a < |W| && 0 <= b < |W| && (a, b) !in E :: W[a][b] == 0.0
  {
    var n := nvar * (taumax + 1);
    seq(n, a requires 0 <= a < n => seq(n, b requires 0 <= b < n =>
      if (a, b) in E then LagWeight(lags, o, nvar, taumax, a, b) else 0.0))
  }

  lemma WeightMatrixEntry(E: set<(int, int)>, lags: Option<Tensor>, o: real, nvar: nat, taumax: nat, a: int, b: int)
    requires nvar >= 1 && LagsFit(lags, nvar, taumax)
    requires 0 <= a < nvar * (taumax + 1) && 0 <= b < nvar * (taumax + 1)
    ensures WeightMatrix(E, lags, o, nvar, taumax)[a][b] ==
            if (a, b) in E then LagWeight(lags, o, nvar, taumax, a, b) else 0.0
  {
  }

  /** Shifting by the offset leaves no weight negative. */
  lemma WeightMatrixNonNegative(E: set<(int, int)>, lags: Option<Tensor>, nvar: nat, taumax: nat)
    requires nvar >= 1 && LagsFit(lags, nvar, taumax)
    ensures NonNegative(WeightMatrix(E, lags, Offset(lags, nvar, taumax), nvar, taumax))
  {
    var o := Offset(lags, nvar, taumax);
    var W := WeightMatrix(E, lags, o, nvar, taumax);
    forall a, b | 0 <= a < |W| && 0 <= b < |W[a]| ensures W[a][b] >= 0.0 {
      WeightMatrixEntry(E, lags, o, nvar, taumax, a, b);
    }
  }

  /** The network of a nonempty declaration. */
  function BuiltNetwork(decl: Declaration, lags: Option<Tensor>, taumax: nat): (net: Network)
    requires |decl| >= 1 && WellDeclared(decl, taumax) && LagsFit(lags, |decl|, taumax)
    ensures Valid(net)
    ensures net.nvar == |decl| && net.taumax == taumax && net.g.edges == Edges(decl, taumax)
    ensures net.offset == Offset(lags, |decl|, taumax)
    ensures net.weights == WeightMatrix(Edges(decl, taumax), lags, net.offset, |decl|, taumax)
  {
    var nvar := |decl|;
    var o := Offset(lags, nvar, taumax);
    var E := Edges(decl, taumax);
    var W := WeightMatrix(E, lags, o, nvar, taumax);
    WeightMatrixNonNegative(E, lags, nvar, taumax);
    assert |W| == Nnodes(decl, taumax);
    Network(nvar, taumax, Graph(Nnodes(decl, taumax), E), W, o)
  }

  /** causal_network(causalDict, lagfuncs, taumax): numpy's `min()` of the empty
      tensor of an empty declaration raises; otherwise the network of the
      unrolled declaration. */
  function Built(decl: Declaration, lags: Option<Tensor>, taumax: nat): (r: Result<Network>)
    requires WellDeclared(decl, taumax) && LagsFit(lags, |decl|, taumax)
    ensures r.Err? <==> |decl| == 0
    ensures r.Err? ==> r.error == EmptyDeclaration
    ensures r.Ok? ==> Valid(r.value)
    ensures r.Ok? ==> r.value.nvar == |decl| && r.value.taumax == taumax && r.value.g.edges == Edges(decl, taumax)
  {
    if |decl| == 0 then Err(EmptyDeclaration) else Ok(BuiltNetwork(decl, lags, taumax))
  }

  /** Lines 85-95: for layer `i`, variable `j` and its `k`-th parent, the edge from
      the parent's id to the child's id is in the graph exactly when the parent
      id is below nnodes. */
  lemma EdgeIffParentInGraph(decl: Declaration, lags: Option<Tensor>, taumax: nat, i: nat, j: nat, k: nat)
    requires WellDeclared(decl, taumax) && LagsFit(lags, |decl|, taumax)
    requires i <= taumax && j < |decl| && k < |decl[j]|
    ensures Built(decl, lags, taumax).Ok?
    ensures (Start(decl, i, j, k), End(decl, i, j)) in Built(decl, lags, taumax).value.g.edges <==>
            Start(decl, i, j, k) < Nnodes(decl, taumax)
  {
    var e := (Start(decl, i, j, k), End(decl, i, j));
    EdgesMember(decl, taumax, e);
    if Start(decl, i, j, k) < Nnodes(decl, taumax) {
      assert EdgeAt(decl, taumax, i, j, k, e);
    }
  }

  /** Every edge points forward in time: the parent's layer is at least the child's. */
  lemma EdgesPointForward(decl: Declaration, taumax: nat, a: int, b: int)
    requires WellDeclared(decl, taumax) && |decl| >= 1
    requires (a, b) in Edges(decl, taumax)
    ensures a / |decl| >= b / |decl|
    ensures NodeSet(a, |decl|).lag <= NodeSet(b, |decl|).lag
  {
    EdgesMember(decl, taumax, (a, b));
    var i, j, k :| EdgeAt(decl, taumax, i, j, k, (a, b));
    EdgeAtDecodes(decl, taumax, i, j, k, (a, b));
  }

  /** The weight stored for a declared edge is the coupling of that parent at
      that lag, shifted by the offset. */
  lemma EdgeWeightIsShiftedLag(decl: Declaration, lags: Option<Tensor>, taumax: nat, i: nat, j: nat, k: nat)
    requires WellDeclared(decl, taumax) && LagsFit(lags, |decl|, taumax)
    requires i <= taumax && j < |decl| && k < |decl[j]| && Start(decl, i, j, k) < Nnodes(decl, taumax)
    ensures 0 <= Start(decl, i, j, k) && 0 <= End(decl, i, j) < Nnodes(decl, taumax)
    ensures var net := BuiltNetwork(decl, lags, taumax);
            var p := decl[j][k];
            net.weights[Start(decl, i, j, k)][End(decl, i, j)] ==
              Coupling(lags, |decl|, taumax, p.v, j, Abs(p.lag)) - net.offset
  {
    var e := (Start(decl, i, j, k), End(decl, i, j));
    assert EdgeAt(decl, taumax, i, j, k, e);
    EdgesMember(decl, taumax, e);
    EdgeAtDecodes(decl, taumax, i, j, k, e);
    var net := BuiltNetwork(decl, lags, taumax);
    WeightMatrixEntry(Edges(decl, taumax), lags, net.offset, |decl|, taumax, e.0, e.1);
  }

  /** The weight attributes agree with the couplings. */
  predicate Attributed(attr: map<(int, int), real>, lags: Option<Tensor>, o: real, nvar: nat, taumax: nat)
    requires nvar >= 1 && LagsFit(lags, nvar, taumax)
  {
    forall e | e in attr :: attr[e] == LagWeight(lags, o, nvar, taumax, e.0, e.1)
  }

  /** `t` is the shifted lag tensor. */
  predicate ShiftedFrom(t: Tensor, lags: Option<Tensor>, o: real, nvar: nat, taumax: nat)
    requires LagsFit(lags, nvar, taumax)
  {
    Shaped(t, nvar, taumax) &&
    forall a, b, c | 0 <= a < nvar && 0 <= b < nvar && 0 <= c <= taumax ::
      t[a][b][c] == Coupling(lags, nvar, taumax, a, b, c) - o
  }

  /** The innermost loop of lines 90-95: the parents of variable `j` in layer `i`. */
  method AddParents(decl: Declaration, taumax: nat, t: Tensor, ghost lags: Option<Tensor>, ghost o: real,
                    i: nat, j: nat, edges0: set<(int, int)>, attr0: map<(int, int), real>)
    returns (edges: set<(int, int)>, attr: map<(int, int), real>)
    requires |decl| >= 1 && WellDeclared(decl, taumax) && LagsFit(lags, |decl|, taumax)
    requires ShiftedFrom(t, lags, o, |decl|, taumax)
    requires i <= taumax && j < |decl|
    requires attr0.Keys == edges0 && Attributed(attr0, lags, o, |decl|, taumax)
    ensures edges == edges0 + ChildEdges(decl, taumax, i, j, |decl[j]|)
    ensures attr.Keys == edges && Attributed(attr, lags, o, |decl|, taumax)
  {
    var nvar := |decl|;
    var nnodes := nvar * (taumax + 1);
    var gap := nvar * i;
    var end := gap + j;
    edges, attr := edges0, attr0;
    for k := 0 to |decl[j]|
      invariant edges == edges0 + ChildEdges(decl, taumax, i, j, k)
      invariant attr.Keys == edges && Attributed(attr, lags, o, nvar, taumax)
    {
      var parent := decl[j][k];
      var we := t[parent.v][j][Abs(parent.lag)];
      var start := NodeNumber(parent, nvar, gap);
      if start < nnodes {
        assert EdgeAt(decl, taumax, i, j, k, (start, end));
        EdgeAtDecodes(decl, taumax, i, j, k, (start, end));
        assert we == LagWeight(lags, o, nvar, taumax, start, end);
        edges := edges + {(start, end)};
        attr := attr[(start, end) := we];
      }
    }
  }

  /** One pass of the middle loop of lines 87-95: the variables of layer `i`. */
  method AddLayer(decl: Declaration, taumax: nat, t: Tensor, ghost lags: Option<Tensor>, ghost o: real,
                  i: nat, edges0: set<(int, int)>, attr0: map<(int, int), real>)
    returns (edges: set<(int, int)>, attr: map<(int, int), real>)
    requires |decl| >= 1 && WellDeclared(decl, taumax) && LagsFit(lags, |decl|, taumax)
    requires ShiftedFrom(t, lags, o, |decl|, taumax)
    requires i <= taumax
    requires attr0.Keys == edges0 && Attributed(attr0, lags, o, |decl|, taumax)
    ensures edges == edges0 + LayerEdges(decl, taumax, i, |decl|)
    ensures attr.Keys == edges && Attributed(attr, lags, o, |decl|, taumax)
  {
    edges, attr := edges0, attr0;
    for j := 0 to |decl|
      invariant edges == edges0 + LayerEdges(decl, taumax, i, j)
      invariant attr.Keys == edges && Attributed(attr, lags, o, |decl|, taumax)
    {
      edges, attr := AddParents(decl, taumax, t, lags, o, i, j, edges, attr);
    }
  }

  /** Lines 85-95 as loops: the edges are added layer by layer, variable by
      variable, parent by parent, each with its weight as an attribute. */
  method AddEdges(decl: Declaration, taumax: nat, t: Tensor, ghost lags: Option<Tensor>, ghost o: real)
    returns (edges: set<(int, int)>, attr: map<(int, int), real>)
    requires |decl| >= 1 && WellDeclared(decl, taumax) && LagsFit(lags, |decl|, taumax)
    requires ShiftedFrom(t, lags, o, |decl|, taumax)
    ensures edges == Edges(decl, taumax)
    ensures attr.Keys == edges && Attributed(attr, lags, o, |decl|, taumax)
  {
    edges, attr := {}, map[];
    for i := 0 to taumax + 1
      invariant edges == EdgesUpTo(decl, taumax, i)
      invariant attr.Keys == edges && Attributed(attr, lags, o, |decl|, taumax)
    {
      edges, attr := AddLayer(decl, taumax, t, lags, o, i, edges, attr);
    }
  }

  /** Lines 98-101: a zero matrix, then the weight of every edge at its place. */
  method FillWeights(edges: set<(int, int)>, attr: map<(int, int), real>, nnodes: nat) returns (w: array2<real>)
    requires attr.Keys == edges
    requires forall e | e in edges :: 0 <= e.0 < nnodes && 0 <= e.1 < nnodes
    ensures fresh(w) && w.Length0 == nnodes && w.Length1 == nnodes
    ensures forall a, b | 0 <= a < nnodes && 0 <= b < nnodes ::
              w[a, b] == if (a, b) in edges then attr[(a, b)] else 0.0
  {
    w := new real[nnodes, nnodes]((a, b) => 0.0);
    var rest := edges;
    while rest != {}
      invariant rest <= edges
      invariant forall a, b | 0 <= a < nnodes && 0 <= b < nnodes ::
                  w[a, b] == if (a, b) in edges - rest then attr[(a, b)] else 0.0
      decreases |rest|
    {
      var e :| e in rest;
      var start, end := e.0, e.1;
      if start < nnodes {
        w[start, end] := attr[e];
      }
      rest := rest - {e};
    }
  }

  /** The matrix read back from the filled array is the specified weight matrix. */
  lemma WeightsFromAttributes(weights: Matrix, edges: set<(int, int)>, attr: map<(int, int), real>,
                              lags: Option<Tensor>, o: real, nvar: nat, taumax: nat)
    requires nvar >= 1 && LagsFit(lags, nvar, taumax)
    requires attr.Keys == edges && Attributed(attr, lags, o, nvar, taumax)
    requires |weights| == nvar * (taumax + 1) && Square(weights)
    requires forall a, b | 0 <= a < |weights| && 0 <= b < |weights| ::
               weights[a][b] == if (a, b) in edges then attr[(a, b)] else 0.0
    ensures weights == WeightMatrix(edges, lags, o, nvar, taumax)
  {
    var W := WeightMatrix(edges, lags, o, nvar, taumax);
    forall a | 0 <= a < |W| ensures weights[a] == W[a] {
      forall b | 0 <= b < |W| ensures weights[a][b] == W[a][b] {
        WeightMatrixEntry(edges, lags, o, nvar, taumax, a, b);
      }
    }
  }

  /** The offset the builder computes from the tensor it fills in is `Offset`. */
  lemma OffsetAgrees(lags: Option<Tensor>, nvar: nat, taumax: nat)
    requires nvar >= 1 && LagsFit(lags, nvar, taumax)
    ensures var t := if lags.None? then Uniform(nvar, taumax) else lags.value;
            Full(t) &&
            (var m := MinTensor(t); (if m < 0.0 then m else 0.0) == Offset(lags, nvar, taumax))
  {
    var t := if lags.None? then Uniform(nvar, taumax) else lags.value;
    ShapedFull(t, nvar, taumax);
    if lags.None? {
      MinTensorAtLeast(t, 1.0);
    }
  }

  /** causal_network.__init__ proved against the builder's specification. */
  method Build(decl: Declaration, lags: Option<Tensor>, taumax: nat) returns (r: Result<Network>)
    requires WellDeclared(decl, taumax) && LagsFit(lags, |decl|, taumax)
    ensures r == Built(decl, lags, taumax)
  {
    var nvar := |decl|;
    if nvar == 0 {
      return Err(EmptyDeclaration);
    }
    var lagfuncs := if lags.None? then Uniform(nvar, taumax) else lags.value;
    OffsetAgrees(lags, nvar, taumax);
    var m := MinTensor(lagfuncs);
    var offset := if m < 0.0 then m else 0.0;
    var net := Assemble(decl, lags, taumax, lagfuncs, offset);
    r := Ok(net);
  }

  /** Lines 82-101 once the offset is known: shift the tensor, add the edges
      layer by layer and fill the weight matrix from their attributes. */
  method Assemble(decl: Declaration, lags: Option<Tensor>, taumax: nat, lagfuncs: Tensor, offset: real)
    returns (net: Network)
    requires |decl| >= 1 && WellDeclared(decl, taumax) && LagsFit(lags, |decl|, taumax)
    requires lagfuncs == if lags.None? then Uniform(|decl|, taumax) else lags.value
    requires offset == Offset(lags, |decl|, taumax)
    ensures net == BuiltNetwork(decl, lags, taumax)
  {
    var nvar := |decl|;
    var nnodes := nvar * (taumax + 1);
    var shifted := Shift(lagfuncs, nvar, taumax, offset);
    var edges, attr := AddEdges(decl, taumax, shifted, lags, offset);
    var w := FillWeights(edges, attr, nnodes);
    var weights := FromArray(w);
    WeightsFromAttributes(weights, edges, attr, lags, offset, nvar, taumax);
    net := Network(nvar, taumax, Graph(nnodes, edges), weights, offset);
  }
}
