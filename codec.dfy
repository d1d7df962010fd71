/** The node codec of causal_network.py: a node is a (variable, lag) pair and
    its flat id is `variable + shift + nvar * |lag|`. */
module NodeCodec {

  /** A node of the time-unrolled graph: a variable index and a lag (0 is the present). */
  datatype Node = Node(v: int, lag: int)

  function Abs(x: int): nat { if x < 0 then -x else x }

  /** get_node_number: the flat id of `n`, shifted by `shift` (the builder passes
      the layer offset `nvar * i`, every other caller 0). The lag enters by its
      absolute value, so a positive lag names the same id as its negation. */
  function NodeNumber(n: Node, nvar: nat, shift: int): (id: int)
    ensures 0 <= n.v && 0 <= shift ==> 0 <= id
    ensures id - n.v - shift == nvar * Abs(n.lag)
  {
    n.v + shift + nvar * Abs(n.lag)
  }

  /** get_node_set: the node of a flat id. Python 2 `%` and `/` on ints floor,
      which for a positive `nvar` agree with Dafny's Euclidean operators. */
  function NodeSet(id: int, nvar: nat): (n: Node)
    requires nvar > 0
    ensures 0 <= n.v < nvar
    ensures 0 <= id ==> n.lag <= 0
  {
    Node(id % nvar, -(id / nvar))
  }

  /** The nodes of a set of ids, each decoded by `NodeSet`. */
  function NodesOfIds(ids: set<int>, nvar: nat): set<Node>
    requires nvar > 0
  {
    set id | id in ids :: NodeSet(id, nvar)
  }

  /** A product with a factor of at least one is at least the other factor. */
  lemma MulAtLeast(a: int, b: int)
    requires a >= 1 && b >= 0
    ensures a * b >= b
  {
    assert a * b == (a - 1) * b + b;
  }

  /** Euclidean division by `nvar` recovers the layer and the variable. */
  lemma DivModUnique(x: int, m: int, nvar: int)
    requires 0 <= x < nvar
    ensures (x + nvar * m) / nvar == m
    ensures (x + nvar * m) % nvar == x
  {
    var n := x + nvar * m;
    var q, r := n / nvar, n % nvar;
    assert nvar * q + r == n;
    assert nvar * (q - m) == x - r by {
      assert nvar * (q - m) == nvar * q - nvar * m;
    }
    if q > m {
      MulAtLeast(q - m, nvar);
    } else if q < m {
      MulAtLeast(m - q, nvar);
    }
  }

  /** Decoding an encoded node gives it back, for every variable in range and
      every lag that is not positive. */
  lemma EncodeDecode(n: Node, nvar: nat)
    requires 0 <= n.v < nvar && n.lag <= 0
    ensures NodeSet(NodeNumber(n, nvar, 0), nvar) == n
  {
    DivModUnique(n.v, -n.lag, nvar);
  }

  /** Encoding a decoded id gives it back, for every id that is not negative. */
  lemma DecodeEncode(id: int, nvar: nat)
    requires 0 <= id && nvar > 0
    ensures NodeNumber(NodeSet(id, nvar), nvar, 0) == id
  {
    var n := NodeSet(id, nvar);
    assert id / nvar >= 0;
    assert Abs(n.lag) == id / nvar;
    assert id == id % nvar + nvar * (id / nvar);
  }

  /** A positive lag is an alias: it encodes to the id of the negated lag. */
  lemma PositiveLagAliases(v: int, lag: int, nvar: nat)
    requires lag > 0
    ensures NodeNumber(Node(v, lag), nvar, 0) == NodeNumber(Node(v, -lag), nvar, 0)
  {
  }

  /** Distinct non-negative ids decode to distinct nodes. */
  lemma NodeSetInjective(a: int, b: int, nvar: nat)
    requires 0 <= a && 0 <= b && nvar > 0
    requires NodeSet(a, nvar) == NodeSet(b, nvar)
    ensures a == b
  {
    DecodeEncode(a, nvar);
    DecodeEncode(b, nvar);
  }

  /** Decoding keeps set membership: an id is in `ids` exactly when its node is
      in the decoded set. */
  lemma NodesOfIdsMember(ids: set<int>, nvar: nat, id: int)
    requires nvar > 0 && 0 <= id
    requires forall x :: x in ids ==> 0 <= x
    ensures id in ids <==> NodeSet(id, nvar) in NodesOfIds(ids, nvar)
  {
    if NodeSet(id, nvar) in NodesOfIds(ids, nvar) {
      var x :| x in ids && NodeSet(x, nvar) == NodeSet(id, nvar);
      NodeSetInjective(x, id, nvar);
    }
  }

  /** Decoding maps disjoint sets of ids to disjoint sets of nodes. */
  lemma NodesOfIdsDisjoint(a: set<int>, b: set<int>, nvar: nat)
    requires nvar > 0 && a !! b
    requires forall x :: x in a ==> 0 <= x
    requires forall x :: x in b ==> 0 <= x
    ensures NodesOfIds(a, nvar) !! NodesOfIds(b, nvar)
  {
    forall x | x in a
      ensures NodeSet(x, nvar) !in NodesOfIds(b, nvar)
    {
      NodesOfIdsMember(b, nvar, x);
    }
  }
}
