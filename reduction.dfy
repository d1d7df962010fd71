/** The weighted transitive reduction of causal_network.transitive_reduction:
    a max-min all-pairs closure of the weight matrix, the pruning of every edge
    the closure strictly exceeds, and the removal of the members of `v1` whose
    remaining weight towards `v2` sums to zero. */
module Reduction {
  import opened Outcomes

  /** A dense weight matrix, row by row. */
  type Matrix = seq<seq<real>>

  predicate Square(M: Matrix)
  {
    forall i | 0 <= i < |M| :: |M[i]| == |M|
  }

  predicate NonNegative(M: Matrix)
  {
    forall i, j | 0 <= i < |M| && 0 <= j < |M[i]| :: M[i][j] >= 0.0
  }

  function Max(a: real, b: real): real { if a >= b then a else b }

  function Min(a: real, b: real): real { if a <= b then a else b }

  /** Entry `(i, j)` after the rounds `0 .. k-1` of the closure loop (lines
      735-742). Round `k` reads the snapshot of the previous round and makes the
      entry the larger of itself and the weaker of the two hops through `k`. */
  function ClosureAfter(W: Matrix, k: nat, i: int, j: int): (x: real)
    requires Square(W) && k <= |W| && 0 <= i < |W| && 0 <= j < |W|
    ensures W[i][j] <= x
    decreases k
  {
    if k == 0 then W[i][j] else
      var r := k - 1;
      Max(ClosureAfter(W, r, i, j), Min(ClosureAfter(W, r, i, r), ClosureAfter(W, r, r, j)))
  }

  /** The widest-path closure: all `nnodes` rounds. */
  function Closure(W: Matrix, i: int, j: int): (x: real)
    requires Square(W) && 0 <= i < |W| && 0 <= j < |W|
    ensures W[i][j] <= x
  {
    ClosureAfter(W, |W|, i, j)
  }

  /** Line 744: a weight the closure strictly exceeds is set to zero. */
  function Pruned(W: Matrix, i: int, j: int): (r: real)
    requires Square(W) && 0 <= i < |W| && 0 <= j < |W|
    ensures r == 0.0 || r == W[i][j]
  {
    if Closure(W, i, j) > W[i][j] then 0.0 else W[i][j]
  }

  /** Later rounds never lower an entry. */
  lemma {:induction false} ClosureMonotone(W: Matrix, k: nat, m: nat, i: int, j: int)
    requires Square(W) && k <= m <= |W| && 0 <= i < |W| && 0 <= j < |W|
    ensures ClosureAfter(W, m, i, j) >= ClosureAfter(W, k, i, j)
    decreases m - k
  {
    if k < m {
      ClosureMonotone(W, k, m - 1, i, j);
    }
  }

  /** The closure is at least as wide as every two-hop detour `i -> k -> j` of
      the original weights. */
  lemma ClosureCoversTwoHops(W: Matrix, i: int, k: int, j: int)
    requires Square(W) && 0 <= i < |W| && 0 <= k < |W| && 0 <= j < |W|
    ensures Closure(W, i, j) >= Min(W[i][k], W[k][j])
  {
    ClosureMonotone(W, 0, k, i, k);
    ClosureMonotone(W, 0, k, k, j);
    assert ClosureAfter(W, k + 1, i, j) >= Min(W[i][k], W[k][j]);
    ClosureMonotone(W, k + 1, |W|, i, j);
  }

  /** An edge that a two-hop detour beats strictly is pruned. */
  lemma TwoHopDetourPrunes(W: Matrix, i: int, k: int, j: int)
    requires Square(W) && 0 <= i < |W| && 0 <= k < |W| && 0 <= j < |W|
    requires Min(W[i][k], W[k][j]) > W[i][j]
    ensures Pruned(W, i, j) == 0.0
  {
    ClosureCoversTwoHops(W, i, k, j);
  }

  /** An edge survives exactly when it is nonzero and the closure does not
      beat it. */
  lemma KeptIffUndominated(W: Matrix, i: int, j: int)
    requires Square(W) && 0 <= i < |W| && 0 <= j < |W|
    ensures Pruned(W, i, j) != 0.0 <==> W[i][j] != 0.0 && Closure(W, i, j) == W[i][j]
  {
  }

  predicate IdsIn(ids: seq<int>, n: int)
  {
    forall i | 0 <= i < |ids| :: 0 <= ids[i] < n
  }

  /** `sum(weights[x, v2ind])`: the pruned weights from `x` to the listed nodes,
      counted with the repetitions of the list. */
  function RowSum(W: Matrix, x: int, ys: seq<int>): real
    requires Square(W) && 0 <= x < |W| && IdsIn(ys, |W|)
  {
    if ys == [] then 0.0 else
      RowSum(W, x, ys[..|ys| - 1]) + Pruned(W, x, ys[|ys| - 1])
  }

  /** With nonnegative weights, a row sum is zero exactly when every pruned
      weight in it is. */
  lemma {:induction false} RowSumZero(W: Matrix, x: int, ys: seq<int>)
    requires Square(W) && NonNegative(W) && 0 <= x < |W| && IdsIn(ys, |W|)
    ensures RowSum(W, x, ys) >= 0.0
    ensures RowSum(W, x, ys) == 0.0 <==> forall y | y in ys :: Pruned(W, x, y) == 0.0
  {
    if ys != [] {
      var init := ys[..|ys| - 1];
      RowSumZero(W, x, init);
      assert ys == init + [ys[|ys| - 1]];
      assert forall y :: y in ys <==> y in init || y == ys[|ys| - 1];
    }
  }

  /** transitive_reduction as written: the members of `v1` whose summed pruned
      weight towards `v2` is not zero. */
  function ReduceAsWritten(W: Matrix, v1: seq<int>, v2: seq<int>): (r: set<int>)
    requires Square(W) && IdsIn(v1, |W|) && IdsIn(v2, |W|)
    ensures forall x | x in r :: x in v1
    ensures v2 == [] ==> r == {}
  {
    set x | x in v1 && RowSum(W, x, v2) != 0.0
  }

  /** The meaning of the reduction: a member of `v1` stays when at least one of
      its edges into `v2` survives the pruning. */
  function Reduce(W: Matrix, v1: set<int>, v2: set<int>): (r: set<int>)
    requires Square(W)
    ensures r <= v1
    ensures v2 == {} ==> r == {}
  {
    set x | x in v1 && 0 <= x < |W| &&
            exists y :: y in v2 && 0 <= y < |W| && Pruned(W, x, y) != 0.0
  }

  /** With nonnegative weights the sum test is the per-edge test. */
  lemma ReduceAsWrittenIsReduce(W: Matrix, v1: seq<int>, v2: seq<int>)
    requires Square(W) && NonNegative(W) && IdsIn(v1, |W|) && IdsIn(v2, |W|)
    ensures ReduceAsWritten(W, v1, v2) == Reduce(W, set x | x in v1, set y | y in v2)
  {
    forall x | x in v1 {
      RowSumZero(W, x, v2);
    }
  }

  /** Each member is kept or dropped on its own row: reducing a part of `v1`
      gives that part of the reduction. */
  lemma ReduceRowwise(W: Matrix, a: set<int>, b: set<int>, v2: set<int>)
    requires Square(W)
    ensures Reduce(W, a + b, v2) == Reduce(W, a, v2) + Reduce(W, b, v2)
    ensures Reduce(W, a * b, v2) == Reduce(W, a, v2) * Reduce(W, b, v2)
  {
  }

  /** Reducing twice against the same `v2` changes nothing. */
  lemma ReduceIdempotent(W: Matrix, v1: set<int>, v2: set<int>)
    requires Square(W)
    ensures Reduce(W, Reduce(W, v1, v2), v2) == Reduce(W, v1, v2)
  {
  }

  /** A larger target set keeps at least as many members. */
  lemma ReduceMonotone(W: Matrix, v1: set<int>, v2: set<int>, v2': set<int>)
    requires Square(W) && v2 <= v2'
    ensures Reduce(W, v1, v2) <= Reduce(W, v1, v2')
  {
  }

  /** `a` holds the matrix `M`. */
  ghost predicate Holds(a: array2<real>, M: Matrix)
    reads a
  {
    a.Length0 == |M| && a.Length1 == |M| && Square(M) &&
    forall i, j | 0 <= i < |M| && 0 <= j < |M| :: a[i, j] == M[i][j]
  }

  /** np.copy of a matrix into a fresh array. */
  method ToArray(M: Matrix) returns (a: array2<real>)
    requires Square(M)
    ensures fresh(a) && Holds(a, M)
  {
    a := new real[|M|, |M|];
    for i := 0 to |M|
      invariant forall x, y | 0 <= x < i && 0 <= y < |M| :: a[x, y] == M[x][y]
    {
      for j := 0 to |M|
        invariant forall x, y | 0 <= x < i && 0 <= y < |M| :: a[x, y] == M[x][y]
        invariant forall y | 0 <= y < j :: a[i, y] == M[i][y]
      {
        a[i, j] := M[i][j];
      }
    }
  }

  /** The rows of an array, as a matrix. */
  method FromArray(a: array2<real>) returns (M: Matrix)
    requires a.Length0 == a.Length1
    ensures Holds(a, M)
  {
    M := [];
    for i := 0 to a.Length0
      invariant |M| == i
      invariant forall x | 0 <= x < i :: |M[x]| == a.Length1
      invariant forall x, y | 0 <= x < i && 0 <= y < a.Length1 :: M[x][y] == a[x, y]
    {
      var row: seq<real> := [];
      for j := 0 to a.Length1
        invariant |row| == j
        invariant forall y | 0 <= y < j :: row[y] == a[i, y]
      {
        row := row + [a[i, j]];
      }
      M := M + [row];
    }
  }

  /** np.copy of an array. */
  method CopyArray(a: array2<real>) returns (b: array2<real>)
    ensures fresh(b) && b.Length0 == a.Length0 && b.Length1 == a.Length1
    ensures forall i, j | 0 <= i < a.Length0 && 0 <= j < a.Length1 :: b[i, j] == a[i, j]
  {
    b := new real[a.Length0, a.Length1];
    for i := 0 to a.Length0
      invariant forall x, y | 0 <= x < i && 0 <= y < a.Length1 :: b[x, y] == a[x, y]
    {
      for j := 0 to a.Length1
        invariant forall x, y | 0 <= x < i && 0 <= y < a.Length1 :: b[x, y] == a[x, y]
        invariant forall y | 0 <= y < j :: b[i, y] == a[i, y]
      {
        b[i, j] := a[i, j];
      }
    }
  }

  /** `a` holds the entries after the rounds `0 .. k-1` of the closure. */
  ghost predicate HoldsRounds(a: array2<real>, W: Matrix, k: nat)
    reads a
  {
    Square(W) && k <= |W| && a.Length0 == |W| && a.Length1 == |W| &&
    forall i, j | 0 <= i < |W| && 0 <= j < |W| :: a[i, j] == ClosureAfter(W, k, i, j)
  }

  /** `a` holds the pruned weights. */
  ghost predicate HoldsPruned(a: array2<real>, W: Matrix)
    reads a
  {
    Square(W) && a.Length0 == |W| && a.Length1 == |W| &&
    forall i, j | 0 <= i < |W| && 0 <= j < |W| :: a[i, j] == Pruned(W, i, j)
  }

  /** One round `k` of lines 736-742: snapshot, then overwrite cell by cell. */
  method RelaxRound(a: array2<real>, k: nat, ghost W: Matrix)
    requires HoldsRounds(a, W, k) && k < |W|
    modifies a
    ensures HoldsRounds(a, W, k + 1)
  {
    var snapshot := CopyArray(a);
    var n := a.Length0;
    for i := 0 to n
      modifies a
      invariant forall x, y | 0 <= x < i && 0 <= y < n :: a[x, y] == ClosureAfter(W, k + 1, x, y)
    {
      for j := 0 to n
        modifies a
        invariant forall x, y | 0 <= x < i && 0 <= y < n :: a[x, y] == ClosureAfter(W, k + 1, x, y)
        invariant forall y | 0 <= y < j :: a[i, y] == ClosureAfter(W, k + 1, i, y)
      {
        a[i, j] := Max(snapshot[i, j], Min(snapshot[i, k], snapshot[k, j]));
      }
    }
  }

  /** Line 744: zero every entry of `w` that `c` strictly exceeds. */
  method PruneInPlace(w: array2<real>, c: array2<real>, ghost W: Matrix)
    requires Holds(w, W) && HoldsRounds(c, W, |W|) && w != c
    modifies w
    ensures HoldsPruned(w, W)
  {
    var n := w.Length0;
    for i := 0 to n
      invariant forall x, y | 0 <= x < i && 0 <= y < n :: w[x, y] == Pruned(W, x, y)
      invariant forall x, y | i <= x < n && 0 <= y < n :: w[x, y] == W[x][y]
    {
      for j := 0 to n
        invariant forall x, y | 0 <= x < i && 0 <= y < n :: w[x, y] == Pruned(W, x, y)
        invariant forall x, y | i < x < n && 0 <= y < n :: w[x, y] == W[x][y]
        invariant forall y | 0 <= y < j :: w[i, y] == Pruned(W, i, y)
        invariant forall y | j <= y < n :: w[i, y] == W[i][y]
      {
        if c[i, j] > w[i, j] {
          w[i, j] := 0.0;
        }
      }
    }
  }

  /** causal_network.transitive_reduction(v1, v2): an id outside the graph makes
      `range(nnodes).index` fail; otherwise the result is the reduction as
      written, computed on fresh copies of the weights. */
  method TransitiveReduction(W: Matrix, v1: seq<int>, v2: seq<int>) returns (r: Result<set<int>>)
    requires Square(W)
    ensures !(IdsIn(v1, |W|) && IdsIn(v2, |W|)) ==> r == Err(NotAGraphIndex)
    ensures IdsIn(v1, |W|) && IdsIn(v2, |W|) ==> r == Ok(ReduceAsWritten(W, v1, v2))
  {
    var n := |W|;
    if !(IdsIn(v1, n) && IdsIn(v2, n)) {
      return Err(NotAGraphIndex);
    }
    var weights := ToArray(W);
    var weightsNew := ToArray(W);
    ClosureInPlace(weightsNew, W);
    PruneInPlace(weights, weightsNew, W);
    var removed := ZeroRows(weights, W, v1, v2);
    var kept := (set x | x in v1) - (set x | x in removed);
    assert kept == ReduceAsWritten(W, v1, v2);
    r := Ok(kept);
  }

  /** Lines 735-742: the `k` loop of the closure, one round at a time. */
  method ClosureInPlace(a: array2<real>, ghost W: Matrix)
    requires Holds(a, W)
    modifies a
    ensures HoldsRounds(a, W, |W|)
  {
    for k := 0 to a.Length0
      invariant HoldsRounds(a, W, k)
    {
      RelaxRound(a, k, W);
    }
  }

  /** Lines 761-767: the members of `v1` whose pruned row sums to zero over `v2`. */
  method ZeroRows(weights: array2<real>, ghost W: Matrix, v1: seq<int>, v2: seq<int>)
    returns (removed: seq<int>)
    requires HoldsPruned(weights, W) && IdsIn(v1, |W|) && IdsIn(v2, |W|)
    ensures forall x :: x in removed <==> x in v1 && RowSum(W, x, v2) == 0.0
  {
    removed := [];
    for i := 0 to |v1|
      invariant forall x :: x in removed <==> x in v1[..i] && RowSum(W, x, v2) == 0.0
    {
      var x := v1[i];
      var s := RowOf(weights, W, x, v2);
      if s == 0.0 {
        removed := removed + [x];
      }
      assert v1[..i + 1] == v1[..i] + [x];
    }
    assert v1[..|v1|] == v1;
  }

  /** `sum(weights[x, v2ind])`, added left to right. */
  method RowOf(weights: array2<real>, ghost W: Matrix, x: int, v2: seq<int>) returns (s: real)
    requires HoldsPruned(weights, W) && 0 <= x < |W| && IdsIn(v2, |W|)
    ensures s == RowSum(W, x, v2)
  {
    s := 0.0;
    for j := 0 to |v2|
      invariant s == RowSum(W, x, v2[..j])
    {
      assert v2[..j + 1][..j] == v2[..j];
      s := s + weights[x, v2[j]];
    }
    assert v2[..|v2|] == v2;
  }
}
