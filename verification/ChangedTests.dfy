/** Mapping changed lines of a test file to the paths of the tests they touch. */
module ChangedTests {
  import opened Outline

  datatype CharRange = CharRange(start: int, end: int)

  /** The range ends inside the node. */
  predicate Hit(ranges: seq<CharRange>, n: Node) {
    exists r | r in ranges :: n.start <= r.end && r.end < n.end
  }

  function NotBy(n: Node): bool {
    n.name != "By"
  }

  /** The pruned copy of the outline: hit nodes only, but a hit node without hit children keeps
      all its content except its direct `By` steps. */
  function FindMatchingChildren(ranges: seq<CharRange>, nodes: seq<Node>): (r: seq<Node>)
    ensures r == [] <==> forall n | n in nodes :: !Hit(ranges, n)
  {
    if nodes == [] then []
    else
      var node := nodes[0];
      var rest := FindMatchingChildren(ranges, nodes[1..]);
      if !Hit(ranges, node) then rest
      else
        var matchingChildren := FindMatchingChildren(ranges, node.nodes);
        var clone :=
          if matchingChildren == [] then CloneWithNodes(node, [NotBy])
          else CloneWithoutNodes(node).(nodes := matchingChildren);
        [clone] + rest
  }

  function ExpandPaths(parents: seq<Node>, children: seq<Node>): (paths: seq<seq<Node>>)
    decreases children
  {
    if children == [] then []
    else
      var child := children[0];
      var first :=
        if |child.nodes| > 0 then ExpandPaths(parents + [CloneWithoutNodes(child)], child.nodes)
        else [parents + [child]];
      first + ExpandPaths(parents, children[1..])
  }

  function PathsForRanges(ranges: seq<CharRange>, outline: seq<Node>): seq<seq<Node>> {
    ExpandPaths([], FindMatchingChildren(ranges, outline))
  }

  // ----- what a changed-test path is, without computing any -----

  /** A chain from a root of the outline that is hit down to position `k`, where no child is hit.
      It goes on through an untouched copy of what lies below, whose first step is not a `By`,
      down to a node without children; or it stops at `k` when only `By` steps lie below. */
  ghost predicate IsChangedTest(ranges: seq<CharRange>, outline: seq<Node>, c: seq<Node>, k: nat) {
    && IsChain(outline, c)
    && k < |c|
    && (forall i | 0 <= i <= k :: Hit(ranges, c[i]))
    && (forall n | n in c[k].nodes :: !Hit(ranges, n))
    && if k == |c| - 1 then forall n | n in c[k].nodes :: n.name == "By"
       else c[k + 1].name != "By" && Last(c).nodes == []
  }

  // ----- expansion lists exactly the leaf chains -----

  lemma {:induction false} ExpansionIsSound(parents: seq<Node>, ns: seq<Node>, p: seq<Node>) returns (c: seq<Node>)
    requires p in ExpandPaths(parents, ns)
    ensures IsLeafChain(ns, c) && p == parents + Stripped(c)
    decreases ns
  {
    var child := ns[0];
    if p in ExpandPaths(parents, ns[1..]) {
      c := ExpansionIsSound(parents, ns[1..], p);
    } else if |child.nodes| > 0 {
      var c' := ExpansionIsSound(parents + [CloneWithoutNodes(child)], child.nodes, p);
      ChainCons(ns, child, c');
      c := [child] + c';
      StrippedOfCons(child, c');
      assert parents + [CloneWithoutNodes(child)] + Stripped(c') == parents + Stripped(c);
    } else {
      c := [child];
      assert Stripped(c) == [child];
    }
  }

  lemma {:induction false} ExpansionIsComplete(parents: seq<Node>, ns: seq<Node>, c: seq<Node>)
    requires IsLeafChain(ns, c)
    ensures parents + Stripped(c) in ExpandPaths(parents, ns)
    decreases ns
  {
    var child := ns[0];
    if c[0] == child {
      if |c| > 1 {
        ChainTail(ns, c);
        ExpansionIsComplete(parents + [CloneWithoutNodes(child)], child.nodes, c[1..]);
        assert c == [child] + c[1..];
        StrippedOfCons(child, c[1..]);
        assert parents + Stripped(c) == parents + [CloneWithoutNodes(child)] + Stripped(c[1..]);
      } else {
        assert Stripped(c) == [child];
      }
    } else {
      assert c[0] in ns[1..];
      ExpansionIsComplete(parents, ns[1..], c);
    }
  }

  // ----- the pruned outline -----

  function Image(ranges: seq<CharRange>, n: Node): Node {
    var matching := FindMatchingChildren(ranges, n.nodes);
    if matching == [] then CloneWithNodes(n, [NotBy]) else CloneWithoutNodes(n).(nodes := matching)
  }

  lemma {:induction false} MatchingIsImage(ranges: seq<CharRange>, ns: seq<Node>, m: Node)
    ensures m in FindMatchingChildren(ranges, ns) <==> exists n | n in ns :: Hit(ranges, n) && m == Image(ranges, n)
  {
    if ns != [] {
      MatchingIsImage(ranges, ns[1..], m);
      assert forall n :: n in ns <==> n == ns[0] || n in ns[1..];
    }
  }

  lemma NotByChildren(n: Node)
    ensures forall x :: x in CloneWithNodes(n, [NotBy]).nodes <==> x in n.nodes && x.name != "By"
    ensures (forall x | x in n.nodes :: x.name == "By") ==> CloneWithNodes(n, [NotBy]).nodes == []
  {
    var kept := CloneWithNodes(n, [NotBy]).nodes;
    assert kept != [] ==> kept[0] in kept;
    forall x
      ensures PassesAll([NotBy], x) <==> x.name != "By"
    {
      assert [NotBy][0](x) == NotBy(x);
    }
  }

  lemma StrippedCons(n: Node, m: Node, c: seq<Node>, d: seq<Node>)
    requires d != [] && CloneWithoutNodes(n) == CloneWithoutNodes(m) && d[0] == m
    requires Stripped(c) == Stripped(d[1..])
    ensures Stripped([n] + c) == Stripped(d)
  {
    assert d == [m] + d[1..];
    StrippedOfCons(n, c);
    StrippedOfCons(m, d[1..]);
  }

  /** Below the deepest hit node the pruned outline and the outline have the same chains, `By`
      steps apart. */
  lemma BottomIsSound(ranges: seq<CharRange>, ns: seq<Node>, n: Node, d: seq<Node>)
    requires n in ns && Hit(ranges, n) && forall x | x in n.nodes :: !Hit(ranges, x)
    requires d != [] && d[0] == CloneWithNodes(n, [NotBy]) && Last(d).nodes == []
    requires |d| > 1 ==> IsChain(d[0].nodes, d[1..])
    ensures IsChangedTest(ranges, ns, [n] + d[1..], 0)
  {
    NotByChildren(n);
    if |d| > 1 {
      assert IsChain(n.nodes, d[1..]);
      ChainCons(ns, n, d[1..]);
    }
  }

  lemma BottomIsComplete(ranges: seq<CharRange>, ns: seq<Node>, c: seq<Node>, image: Node, pruned: seq<Node>)
    requires IsChangedTest(ranges, ns, c, 0)
    requires image == CloneWithNodes(c[0], [NotBy]) && image in pruned
    ensures IsLeafChain(pruned, [image] + c[1..])
  {
    NotByChildren(c[0]);
    if |c| > 1 {
      ChainTail(ns, c);
      assert IsChain(image.nodes, c[1..]);
      ChainCons(pruned, image, c[1..]);
    }
  }

  /** Every leaf chain of the pruned outline comes from a changed test of the outline. */
  lemma {:induction false} PruningIsSound(ranges: seq<CharRange>, ns: seq<Node>, d: seq<Node>) returns (c: seq<Node>, k: nat)
    requires IsLeafChain(FindMatchingChildren(ranges, ns), d)
    ensures IsChangedTest(ranges, ns, c, k) && Stripped(c) == Stripped(d)
    decreases |d|
  {
    MatchingIsImage(ranges, ns, d[0]);
    var n :| n in ns && Hit(ranges, n) && d[0] == Image(ranges, n);
    var below := FindMatchingChildren(ranges, n.nodes);
    if |d| > 1 {
      ChainTail(FindMatchingChildren(ranges, ns), d);
    }
    if below == [] {
      c, k := [n] + d[1..], 0;
      BottomIsSound(ranges, ns, n, d);
      StrippedCons(n, d[0], d[1..], d);
    } else {
      assert IsLeafChain(below, d[1..]);
      var c', k' := PruningIsSound(ranges, n.nodes, d[1..]);
      c, k := PrunedChainCons(ranges, ns, n, c', k', d);
    }
  }

  lemma PrunedChainCons(ranges: seq<CharRange>, ns: seq<Node>, n: Node, c': seq<Node>, k': nat, d: seq<Node>)
    returns (c: seq<Node>, k: nat)
    requires n in ns && Hit(ranges, n) && IsChangedTest(ranges, n.nodes, c', k')
    requires d != [] && CloneWithoutNodes(n) == CloneWithoutNodes(d[0]) && Stripped(c') == Stripped(d[1..])
    ensures IsChangedTest(ranges, ns, c, k) && Stripped(c) == Stripped(d)
  {
    ChangedTestCons(ranges, ns, n, c', k');
    c, k := [n] + c', k' + 1;
    StrippedCons(n, d[0], c', d);
  }

  lemma ChangedTestCons(ranges: seq<CharRange>, ns: seq<Node>, n: Node, c: seq<Node>, k: nat)
    requires n in ns && Hit(ranges, n) && IsChangedTest(ranges, n.nodes, c, k)
    ensures IsChangedTest(ranges, ns, [n] + c, k + 1)
  {
    ChainCons(ns, n, c);
    forall i | 0 <= i <= k + 1
      ensures Hit(ranges, ([n] + c)[i])
    {
      assert i > 0 ==> ([n] + c)[i] == c[i - 1];
    }
  }

  lemma ChangedTestTail(ranges: seq<CharRange>, ns: seq<Node>, c: seq<Node>, k: nat)
    requires IsChangedTest(ranges, ns, c, k) && k > 0
    ensures IsChangedTest(ranges, c[0].nodes, c[1..], k - 1)
  {
    ChainTail(ns, c);
  }

  /** Every changed test of the outline is a leaf chain of the pruned outline. */
  lemma {:induction false} PruningIsComplete(ranges: seq<CharRange>, ns: seq<Node>, c: seq<Node>, k: nat) returns (d: seq<Node>)
    requires IsChangedTest(ranges, ns, c, k)
    ensures IsLeafChain(FindMatchingChildren(ranges, ns), d) && Stripped(d) == Stripped(c)
    decreases |c|
  {
    var n, image, pruned := c[0], Image(ranges, c[0]), FindMatchingChildren(ranges, ns);
    assert Hit(ranges, n);
    MatchingIsImage(ranges, ns, image);
    var tail;
    if k > 0 {
      assert c[1] in n.nodes && Hit(ranges, c[1]);
      ChangedTestTail(ranges, ns, c, k);
      tail := PruningIsComplete(ranges, n.nodes, c[1..], k - 1);
      ChainCons(pruned, image, tail);
    } else {
      tail := c[1..];
      BottomIsComplete(ranges, ns, c, image, pruned);
    }
    d := [image] + tail;
    StrippedCons(image, n, tail, c);
  }

  // ----- the main results -----

  lemma PathsAreSound(ranges: seq<CharRange>, outline: seq<Node>, p: seq<Node>) returns (c: seq<Node>, k: nat)
    requires p in PathsForRanges(ranges, outline)
    ensures IsChangedTest(ranges, outline, c, k) && p == Stripped(c)
  {
    var d := ExpansionIsSound([], FindMatchingChildren(ranges, outline), p);
    c, k := PruningIsSound(ranges, outline, d);
  }

  lemma PathsAreComplete(ranges: seq<CharRange>, outline: seq<Node>, c: seq<Node>, k: nat)
    requires IsChangedTest(ranges, outline, c, k)
    ensures Stripped(c) in PathsForRanges(ranges, outline)
  {
    var d := PruningIsComplete(ranges, outline, c, k);
    ExpansionIsComplete([], FindMatchingChildren(ranges, outline), d);
    assert [] + Stripped(d) == Stripped(c);
  }

  /** The returned paths are exactly the changed tests of the outline. */
  lemma PathsAreExactlyTheChangedTests(ranges: seq<CharRange>, outline: seq<Node>, p: seq<Node>)
    ensures p in PathsForRanges(ranges, outline) <==>
            exists c, k :: IsChangedTest(ranges, outline, c, k) && p == Stripped(c)
  {
    if p in PathsForRanges(ranges, outline) {
      var c, k := PathsAreSound(ranges, outline, p);
    }
    if c, k :| IsChangedTest(ranges, outline, c, k) && p == Stripped(c) {
      PathsAreComplete(ranges, outline, c, k);
    }
  }

  /** No hit node gets lost: every chain of nested hit nodes starts some returned path. Which nodes
      a changed line hits is another matter; one that ends on that line is not hit by it. */
  lemma EveryHitChainIsReported(ranges: seq<CharRange>, outline: seq<Node>, c: seq<Node>) returns (p: seq<Node>)
    requires IsChain(outline, c)
    requires forall n | n in c :: Hit(ranges, n)
    ensures p in PathsForRanges(ranges, outline) && Stripped(c) <= p
  {
    var c', k := ExtendToChangedTest(ranges, outline, c);
    p := Stripped(c');
    PathsAreComplete(ranges, outline, c', k);
  }

  /** A node that is not hit is in no returned path below a parent that has a hit child, unless that
      parent stands below the deepest hit node. */
  lemma SiblingsOfHitNodesAreLost(ranges: seq<CharRange>, outline: seq<Node>, c: seq<Node>, k: nat, i: nat, hit: Node)
    requires IsChangedTest(ranges, outline, c, k)
    requires i <= k && i + 1 < |c| && hit in c[i].nodes && Hit(ranges, hit)
    ensures Hit(ranges, c[i + 1])
  {
  }

  lemma {:induction false} ExtendToLeaf(ns: seq<Node>, n: Node) returns (c: seq<Node>)
    requires n in ns
    ensures IsLeafChain(ns, c) && c[0] == n
    decreases n
  {
    if n.nodes == [] {
      c := [n];
    } else {
      var c' := ExtendToLeaf(n.nodes, n.nodes[0]);
      ChainCons(ns, n, c');
      c := [n] + c';
    }
  }

  lemma {:induction false} ExtendToChangedTest(ranges: seq<CharRange>, ns: seq<Node>, c: seq<Node>) returns (r: seq<Node>, k: nat)
    requires IsChain(ns, c)
    requires forall n | n in c :: Hit(ranges, n)
    ensures IsChangedTest(ranges, ns, r, k) && c <= r
    decreases ns
  {
    var n := c[0];
    assert Hit(ranges, n);
    if |c| > 1 {
      ChainTail(ns, c);
      var r', k' := ExtendToChangedTest(ranges, n.nodes, c[1..]);
      ChangedTestCons(ranges, ns, n, r', k');
      r, k := [n] + r', k' + 1;
      assert c == [n] + c[1..];
    } else if child :| child in n.nodes && Hit(ranges, child) {
      var r', k' := ExtendToChangedTest(ranges, n.nodes, [child]);
      ChangedTestCons(ranges, ns, n, r', k');
      r, k := [n] + r', k' + 1;
    } else if child :| child in n.nodes && child.name != "By" {
      var r' := ExtendToLeaf(n.nodes, child);
      ChainCons(ns, n, r');
      r, k := [n] + r', 0;
    } else {
      r, k := [n], 0;
    }
    assert c[0] == r[0];
  }
}
