/** Ginkgo outlines: trees of test nodes, their copies, and chains from a root to a node. */
module Outline {

  datatype Node = Node(name: string, text: string, start: int, end: int, spec: bool,
                       focused: bool, pending: bool, labels: seq<string>, nodes: seq<Node>)

  type NodeFilter = Node -> bool

  function CloneWithoutNodes(n: Node): (r: Node)
    ensures r == n.(nodes := [])
  {
    Node(n.name, n.text, n.start, n.end, n.spec, n.focused, n.pending, n.labels, [])
  }

  predicate PassesAll(filters: seq<NodeFilter>, n: Node) {
    forall i | 0 <= i < |filters| :: filters[i](n)
  }

  function Kept(ns: seq<Node>, filters: seq<NodeFilter>): (r: seq<Node>)
    ensures forall n :: n in r <==> n in ns && PassesAll(filters, n)
  {
    if ns == [] then []
    else (if PassesAll(filters, ns[0]) then [ns[0]] else []) + Kept(ns[1..], filters)
  }

  lemma {:induction false} KeptWithoutFilters(ns: seq<Node>)
    ensures Kept(ns, []) == ns
  {
    if ns != [] {
      KeptWithoutFilters(ns[1..]);
      assert ns == [ns[0]] + ns[1..];
    }
  }

  /** A copy whose filters only look at the direct children: deeper nodes are all copied. */
  function CloneWithNodes(n: Node, filters: seq<NodeFilter>): (r: Node)
    ensures r == n.(nodes := Kept(n.nodes, filters))
    decreases n, 1
  {
    Node(n.name, n.text, n.start, n.end, n.spec, n.focused, n.pending, n.labels, CloneChildren(n.nodes, filters))
  }

  function CloneChildren(ns: seq<Node>, filters: seq<NodeFilter>): (r: seq<Node>)
    ensures r == Kept(ns, filters)
    decreases ns, 0
  {
    if ns == [] then []
    else
      KeptWithoutFilters(ns[0].nodes);
      (if PassesAll(filters, ns[0]) then [CloneWithNodes(ns[0], [])] else []) + CloneChildren(ns[1..], filters)
  }

  /** `c` leads from one of `ns` downwards, each node a child of the one before. */
  ghost predicate IsChain(ns: seq<Node>, c: seq<Node>) {
    && c != []
    && c[0] in ns
    && forall i | 0 < i < |c| :: c[i] in c[i - 1].nodes
  }

  ghost function Last(c: seq<Node>): Node
    requires c != []
  {
    c[|c| - 1]
  }

  /** A chain that goes all the way down. */
  ghost predicate IsLeafChain(ns: seq<Node>, c: seq<Node>) {
    IsChain(ns, c) && Last(c).nodes == []
  }

  function Stripped(c: seq<Node>): (r: seq<Node>)
    ensures |r| == |c| && forall i | 0 <= i < |c| :: r[i] == CloneWithoutNodes(c[i])
  {
    seq(|c|, i requires 0 <= i < |c| => CloneWithoutNodes(c[i]))
  }

  lemma StrippedOfCons(n: Node, c: seq<Node>)
    ensures Stripped([n] + c) == [CloneWithoutNodes(n)] + Stripped(c)
  {
  }

  lemma ChainTail(ns: seq<Node>, c: seq<Node>)
    requires IsChain(ns, c) && |c| > 1
    ensures IsChain(c[0].nodes, c[1..]) && Last(c[1..]) == Last(c)
  {
    forall i | 0 < i < |c[1..]|
      ensures c[1..][i] in c[1..][i - 1].nodes
    {
      assert c[i + 1] in c[i].nodes;
    }
  }

  lemma ChainCons(ns: seq<Node>, n: Node, c: seq<Node>)
    requires n in ns && IsChain(n.nodes, c)
    ensures IsChain(ns, [n] + c) && Last([n] + c) == Last(c)
  {
  }
}
