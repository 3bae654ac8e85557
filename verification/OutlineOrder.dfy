/** The nodes of an outline by where they stand: every path that is listed comes from its own place,
    and the places come in document order. */
module OutlineOrder {
  import opened Outline
  import opened ChangedTests
  import opened LabelStats

  /** The position among the roots, among the children of that root, and so on. */
  type Address = seq<nat>

  predicate IsAddress(ns: seq<Node>, a: Address) {
    a != [] && a[0] < |ns| && (|a| == 1 || IsAddress(ns[a[0]].nodes, a[1..]))
  }

  function PathAt(ns: seq<Node>, a: Address): seq<Node>
    requires IsAddress(ns, a)
  {
    [ns[a[0]]] + if |a| == 1 then [] else PathAt(ns[a[0]].nodes, a[1..])
  }

  /** In document order a node comes before what lies below it, and that before the next node. */
  predicate Before(a: Address, b: Address) {
    b != [] && (a == [] || a[0] < b[0] || (a[0] == b[0] && Before(a[1..], b[1..])))
  }

  /** A place in an outline, and one of the things that are listed there. */
  datatype Mark = Mark(address: Address, number: nat)

  predicate MarkBefore(m: Mark, n: Mark) {
    Before(m.address, n.address) || (m.address == n.address && m.number < n.number)
  }

  ghost predicate InOrder(ms: seq<Mark>) {
    forall i, k | 0 <= i < k < |ms| :: MarkBefore(ms[i], ms[k])
  }

  ghost predicate Ascends(ks: seq<nat>) {
    forall i, k | 0 <= i < k < |ks| :: ks[i] < ks[k]
  }

  /** What is to be listed at the end of a path. */
  type Listing = seq<Node> -> seq<nat>

  /** `ms` are the things to list in the outline, each once and in order. */
  ghost predicate Lists(ms: seq<Mark>, ns: seq<Node>, parents: seq<Node>, f: Listing) {
    && InOrder(ms)
    && forall m :: m in ms <==> IsAddress(ns, m.address) && m.number in f(parents + PathAt(ns, m.address))
  }

  // ----- going through an outline -----

  function Here(ks: seq<nat>): (r: seq<Mark>)
    ensures |r| == |ks| && forall i | 0 <= i < |r| :: r[i] == Mark([0], ks[i])
  {
    seq(|ks|, i requires 0 <= i < |ks| => Mark([0], ks[i]))
  }

  function Below(ms: seq<Mark>): (r: seq<Mark>)
    ensures |r| == |ms| && forall i | 0 <= i < |r| :: r[i] == Mark([0] + ms[i].address, ms[i].number)
  {
    seq(|ms|, i requires 0 <= i < |ms| => Mark([0] + ms[i].address, ms[i].number))
  }

  /** The address among the nodes after the first one. */
  function Next(a: Address): Address {
    if a == [] then [] else [a[0] + 1] + a[1..]
  }

  /** The address among the nodes after the first one, seen from there. */
  function Back(a: Address): Address
    requires a != [] && a[0] > 0
  {
    [a[0] - 1] + a[1..]
  }

  lemma BackOfNext(a: Address)
    ensures a != [] ==> Next(a) != [] && Next(a)[0] > 0 && Back(Next(a)) == a
    ensures a != [] && a[0] > 0 ==> Next(Back(a)) == a
  {
  }

  function Beside(ms: seq<Mark>): (r: seq<Mark>)
    ensures |r| == |ms| && forall i | 0 <= i < |r| :: r[i] == Mark(Next(ms[i].address), ms[i].number)
  {
    seq(|ms|, i requires 0 <= i < |ms| => Mark(Next(ms[i].address), ms[i].number))
  }

  function Visited(ns: seq<Node>, parents: seq<Node>, f: Listing): seq<Mark>
    decreases ns
  {
    if ns == [] then []
    else
      var path := parents + [ns[0]];
      Here(f(path)) + Below(Visited(ns[0].nodes, path, f)) + Beside(Visited(ns[1..], parents, f))
  }

  lemma AddressBelow(ns: seq<Node>, a: Address)
    requires ns != [] && a != []
    ensures IsAddress(ns, [0] + a) <==> IsAddress(ns[0].nodes, a)
    ensures IsAddress(ns, [0] + a) ==> PathAt(ns, [0] + a) == [ns[0]] + PathAt(ns[0].nodes, a)
  {
    assert ([0] + a)[1..] == a;
  }

  lemma AddressBeside(ns: seq<Node>, a: Address)
    requires ns != []
    ensures IsAddress(ns, Next(a)) <==> IsAddress(ns[1..], a)
    ensures IsAddress(ns, Next(a)) ==> PathAt(ns, Next(a)) == PathAt(ns[1..], a)
  {
    if a != [] {
      assert Next(a)[1..] == a[1..];
    }
  }

  /** A place is the first node, below it, or beside it. */
  lemma Places(a: Address)
    requires a != []
    ensures a == [0] || (|a| > 1 && a == [0] + a[1..]) || (a[0] > 0 && a == Next(Back(a)))
  {
  }

  ghost predicate IsToBeListed(m: Mark, ns: seq<Node>, parents: seq<Node>, f: Listing) {
    IsAddress(ns, m.address) && m.number in f(parents + PathAt(ns, m.address))
  }

  lemma VisitedBelow(ns: seq<Node>, parents: seq<Node>, f: Listing, m: Mark)
    requires ns != [] && |m.address| > 1 && m.address[0] == 0
    ensures IsToBeListed(m, ns, parents, f) <==> IsToBeListed(Mark(m.address[1..], m.number), ns[0].nodes, parents + [ns[0]], f)
  {
    var a := m.address[1..];
    assert m.address == [0] + a;
    AddressBelow(ns, a);
    if IsAddress(ns[0].nodes, a) {
      assert parents + ([ns[0]] + PathAt(ns[0].nodes, a)) == parents + [ns[0]] + PathAt(ns[0].nodes, a);
    }
  }

  lemma VisitedBeside(ns: seq<Node>, parents: seq<Node>, f: Listing, m: Mark)
    requires ns != [] && m.address != [] && m.address[0] > 0
    ensures IsToBeListed(m, ns, parents, f) <==>
            IsToBeListed(Mark(Back(m.address), m.number), ns[1..], parents, f)
  {
    var a := Back(m.address);
    assert m.address == Next(a);
    AddressBeside(ns, a);
  }

  lemma VisitedHere(ns: seq<Node>, parents: seq<Node>, f: Listing, m: Mark)
    requires ns != [] && m.address == [0]
    ensures IsToBeListed(m, ns, parents, f) <==> m.number in f(parents + [ns[0]])
  {
    assert PathAt(ns, [0]) == [ns[0]];
  }

  lemma InThree(m: Mark, a: seq<Mark>, b: seq<Mark>, c: seq<Mark>)
    ensures m in a + b + c <==> m in a || m in b || m in c
  {
  }

  lemma HereHas(m: Mark, ks: seq<nat>)
    ensures m in Here(ks) <==> m.address == [0] && m.number in ks
  {
    if m.address == [0] && m.number in ks {
      var i :| 0 <= i < |ks| && ks[i] == m.number;
      assert Here(ks)[i] == m;
    }
  }

  lemma BelowHas(m: Mark, ms: seq<Mark>)
    ensures m in Below(ms) <==> m.address != [] && m.address[0] == 0 && Mark(m.address[1..], m.number) in ms
  {
    if m.address != [] && m.address[0] == 0 && Mark(m.address[1..], m.number) in ms {
      var i :| 0 <= i < |ms| && ms[i] == Mark(m.address[1..], m.number);
      assert m.address == [0] + m.address[1..];
      assert Below(ms)[i] == m;
    }
  }

  lemma BesideHas(m: Mark, ms: seq<Mark>)
    requires forall n | n in ms :: n.address != []
    ensures m in Beside(ms) <==> m.address != [] && m.address[0] > 0 && Mark(Back(m.address), m.number) in ms
  {
    if i :| 0 <= i < |ms| && Beside(ms)[i] == m {
      assert ms[i] in ms;
      BackOfNext(ms[i].address);
    }
    if m.address != [] && m.address[0] > 0 {
      BackOfNext(m.address);
      if i :| 0 <= i < |ms| && ms[i] == Mark(Back(m.address), m.number) {
        assert Beside(ms)[i] == m;
      }
    }
  }

  lemma {:induction false} VisitedHas(ns: seq<Node>, parents: seq<Node>, f: Listing, m: Mark)
    ensures m in Visited(ns, parents, f) <==> IsToBeListed(m, ns, parents, f)
    decreases ns
  {
    if ns != [] {
      var path := parents + [ns[0]];
      var below, beside := Visited(ns[0].nodes, path, f), Visited(ns[1..], parents, f);
      InThree(m, Here(f(path)), Below(below), Beside(beside));
      HereHas(m, f(path));
      BelowHas(m, below);
      forall n | n in beside
        ensures n.address != []
      {
        VisitedHas(ns[1..], parents, f, n);
      }
      BesideHas(m, beside);
      if m.address == [0] {
        VisitedHere(ns, parents, f, m);
        VisitedHas(ns[0].nodes, path, f, Mark([], m.number));
      } else if m.address != [] && m.address[0] == 0 {
        VisitedBelow(ns, parents, f, m);
        VisitedHas(ns[0].nodes, path, f, Mark(m.address[1..], m.number));
      } else if m.address != [] {
        VisitedBeside(ns, parents, f, m);
        VisitedHas(ns[1..], parents, f, Mark(Back(m.address), m.number));
      }
    }
  }

  lemma OrderInThree(a: seq<Mark>, b: seq<Mark>, c: seq<Mark>)
    requires InOrder(a) && InOrder(b) && InOrder(c)
    requires forall m, n | m in a && n in b :: MarkBefore(m, n)
    requires forall m, n | (m in a || m in b) && n in c :: MarkBefore(m, n)
    ensures InOrder(a + b + c)
  {
  }

  lemma BelowInOrder(ms: seq<Mark>)
    requires InOrder(ms)
    ensures InOrder(Below(ms))
  {
    forall i, k | 0 <= i < k < |ms|
      ensures MarkBefore(Below(ms)[i], Below(ms)[k])
    {
      assert MarkBefore(ms[i], ms[k]);
      assert ([0] + ms[i].address)[1..] == ms[i].address && ([0] + ms[k].address)[1..] == ms[k].address;
    }
  }

  lemma BesideInOrder(ms: seq<Mark>)
    requires InOrder(ms) && forall m | m in ms :: m.address != []
    ensures InOrder(Beside(ms))
  {
    forall i, k | 0 <= i < k < |ms|
      ensures MarkBefore(Beside(ms)[i], Beside(ms)[k])
    {
      assert MarkBefore(ms[i], ms[k]) && ms[i] in ms && ms[k] in ms;
      assert Next(ms[i].address)[1..] == ms[i].address[1..] && Next(ms[k].address)[1..] == ms[k].address[1..];
    }
  }

  lemma {:induction false} VisitedInOrder(ns: seq<Node>, parents: seq<Node>, f: Listing)
    requires forall p :: Ascends(f(p))
    ensures InOrder(Visited(ns, parents, f))
    decreases ns
  {
    if ns != [] {
      var path := parents + [ns[0]];
      var below, beside := Visited(ns[0].nodes, path, f), Visited(ns[1..], parents, f);
      VisitedInOrder(ns[0].nodes, path, f);
      VisitedInOrder(ns[1..], parents, f);
      BelowInOrder(below);
      AddressesAreNotEmpty(ns[0].nodes, path, f);
      AddressesAreNotEmpty(ns[1..], parents, f);
      BesideInOrder(beside);
      assert Ascends(f(path));
      HereIsFirst(f(path), below, beside);
      OrderInThree(Here(f(path)), Below(below), Beside(beside));
    }
  }

  lemma HereIsFirst(ks: seq<nat>, below: seq<Mark>, beside: seq<Mark>)
    requires (forall m | m in below :: m.address != []) && forall m | m in beside :: m.address != []
    ensures forall m, n | m in Here(ks) && n in Below(below) :: MarkBefore(m, n)
    ensures forall m, n | (m in Here(ks) || m in Below(below)) && n in Beside(beside) :: MarkBefore(m, n)
  {
    forall m, n | m in Here(ks) && n in Below(below)
      ensures MarkBefore(m, n)
    {
      var i :| 0 <= i < |below| && n == Below(below)[i];
      assert below[i] in below && n.address[1..] == below[i].address;
    }
  }

  lemma AddressesAreNotEmpty(ns: seq<Node>, parents: seq<Node>, f: Listing)
    ensures forall m | m in Visited(ns, parents, f) :: m.address != []
  {
    forall m | m in Visited(ns, parents, f)
      ensures m.address != []
    {
      VisitedHas(ns, parents, f, m);
    }
  }

  lemma VisitedLists(ns: seq<Node>, parents: seq<Node>, f: Listing)
    requires forall p :: Ascends(f(p))
    ensures Lists(Visited(ns, parents, f), ns, parents, f)
  {
    VisitedInOrder(ns, parents, f);
    forall m
      ensures m in Visited(ns, parents, f) <==> IsAddress(ns, m.address) && m.number in f(parents + PathAt(ns, m.address))
    {
      VisitedHas(ns, parents, f, m);
    }
  }

  // ----- expanded paths -----

  function AtLeaves(): Listing {
    (path: seq<Node>) => if path != [] && path[|path| - 1].nodes == [] then [0] else []
  }

  /** Path number `i` is the one at mark number `i`. */
  ghost predicate PathsAreAt(paths: seq<seq<Node>>, before: seq<Node>, ms: seq<Mark>, ns: seq<Node>) {
    && |paths| == |ms|
    && forall i | 0 <= i < |ms| :: IsAddress(ns, ms[i].address) && paths[i] == before + Stripped(PathAt(ns, ms[i].address))
  }

  /** Expanding lists the leaves of the outline, each once and in document order. */
  lemma ExpansionIsInOrder(before: seq<Node>, ns: seq<Node>) returns (ms: seq<Mark>)
    ensures PathsAreAt(ExpandPaths(before, ns), before, ms, ns)
    ensures Lists(ms, ns, [], AtLeaves())
  {
    ms := Visited(ns, [], AtLeaves());
    ExpansionVisits(before, [], ns);
    VisitedLists(ns, [], AtLeaves());
  }

  lemma {:induction false} ExpansionVisits(before: seq<Node>, parents: seq<Node>, ns: seq<Node>)
    ensures PathsAreAt(ExpandPaths(before, ns), before, Visited(ns, parents, AtLeaves()), ns)
    decreases ns
  {
    if ns != [] {
      ExpansionVisits(before, parents, ns[1..]);
      PathsBeside(ExpandPaths(before, ns[1..]), before, Visited(ns[1..], parents, AtLeaves()), ns);
      if ns[0].nodes == [] {
        VisitedAtLeaf(ns, parents);
        OneLeaf(before, ns);
        PathsInConcat([before + [ns[0]]], ExpandPaths(before, ns[1..]), before, [Mark([0], 0)],
                      Beside(Visited(ns[1..], parents, AtLeaves())), ns);
      } else {
        var inner, path := before + [CloneWithoutNodes(ns[0])], parents + [ns[0]];
        ExpansionVisits(inner, path, ns[0].nodes);
        PathsBelow(ExpandPaths(inner, ns[0].nodes), before, Visited(ns[0].nodes, path, AtLeaves()), ns);
        VisitedAtInner(ns, parents);
        PathsInConcat(ExpandPaths(inner, ns[0].nodes), ExpandPaths(before, ns[1..]), before,
                      Below(Visited(ns[0].nodes, path, AtLeaves())), Beside(Visited(ns[1..], parents, AtLeaves())), ns);
      }
    }
  }

  lemma VisitedAtLeaf(ns: seq<Node>, parents: seq<Node>)
    requires ns != [] && ns[0].nodes == []
    ensures Visited(ns, parents, AtLeaves()) == [Mark([0], 0)] + Beside(Visited(ns[1..], parents, AtLeaves()))
  {
    var here := Here(AtLeaves()(parents + [ns[0]]));
    assert here == [Mark([0], 0)];
    assert here + Below([]) == here;
  }

  lemma VisitedAtInner(ns: seq<Node>, parents: seq<Node>)
    requires ns != [] && ns[0].nodes != []
    ensures Visited(ns, parents, AtLeaves())
         == Below(Visited(ns[0].nodes, parents + [ns[0]], AtLeaves())) + Beside(Visited(ns[1..], parents, AtLeaves()))
  {
    var below := Below(Visited(ns[0].nodes, parents + [ns[0]], AtLeaves()));
    assert Here(AtLeaves()(parents + [ns[0]])) == [];
    assert [] + below == below;
  }

  lemma OneLeaf(before: seq<Node>, ns: seq<Node>)
    requires ns != [] && ns[0].nodes == []
    ensures PathsAreAt([before + [ns[0]]], before, [Mark([0], 0)], ns)
  {
    assert PathAt(ns, [0]) == [ns[0]];
    assert Stripped([ns[0]]) == [ns[0]];
  }

  lemma PathsInConcat(p: seq<seq<Node>>, q: seq<seq<Node>>, before: seq<Node>, a: seq<Mark>, b: seq<Mark>, ns: seq<Node>)
    requires PathsAreAt(p, before, a, ns) && PathsAreAt(q, before, b, ns)
    ensures PathsAreAt(p + q, before, a + b, ns)
  {
  }

  lemma PathsBeside(paths: seq<seq<Node>>, before: seq<Node>, ms: seq<Mark>, ns: seq<Node>)
    requires ns != [] && PathsAreAt(paths, before, ms, ns[1..])
    ensures PathsAreAt(paths, before, Beside(ms), ns)
  {
    forall i | 0 <= i < |ms|
      ensures IsAddress(ns, Beside(ms)[i].address) && paths[i] == before + Stripped(PathAt(ns, Beside(ms)[i].address))
    {
      AddressBeside(ns, ms[i].address);
    }
  }

  lemma PathsBelow(paths: seq<seq<Node>>, before: seq<Node>, ms: seq<Mark>, ns: seq<Node>)
    requires ns != [] && PathsAreAt(paths, before + [CloneWithoutNodes(ns[0])], ms, ns[0].nodes)
    ensures PathsAreAt(paths, before, Below(ms), ns)
  {
    forall i | 0 <= i < |ms|
      ensures IsAddress(ns, Below(ms)[i].address) && paths[i] == before + Stripped(PathAt(ns, Below(ms)[i].address))
    {
      StrippedBelow(before, ns, ms[i].address);
    }
  }

  lemma StrippedBelow(before: seq<Node>, ns: seq<Node>, a: Address)
    requires ns != [] && IsAddress(ns[0].nodes, a)
    ensures IsAddress(ns, [0] + a)
    ensures before + Stripped(PathAt(ns, [0] + a)) == before + [CloneWithoutNodes(ns[0])] + Stripped(PathAt(ns[0].nodes, a))
  {
    AddressBelow(ns, a);
    var path := PathAt(ns[0].nodes, a);
    StrippedOfCons(ns[0], path);
    assert before + ([CloneWithoutNodes(ns[0])] + Stripped(path)) == before + [CloneWithoutNodes(ns[0])] + Stripped(path);
  }

  // ----- the pruned outline -----

  /** `at` are the positions in `ns` of the nodes that satisfy `p`, in order. */
  ghost predicate Positions(at: seq<nat>, ns: seq<Node>, p: Node -> bool) {
    && Ascends(at)
    && forall i: nat :: i in at <==> i < |ns| && p(ns[i])
  }

  function Shifted(at: seq<nat>): (r: seq<nat>)
    ensures |r| == |at| && forall i | 0 <= i < |at| :: r[i] == at[i] + 1
  {
    seq(|at|, i requires 0 <= i < |at| => at[i] + 1)
  }

  lemma PositionsCons(at: seq<nat>, ns: seq<Node>, p: Node -> bool)
    requires ns != [] && Positions(at, ns[1..], p)
    ensures Positions(if p(ns[0]) then [0] + Shifted(at) else Shifted(at), ns, p)
  {
    var all := if p(ns[0]) then [0] + Shifted(at) else Shifted(at);
    forall i: nat
      ensures i in all <==> i < |ns| && p(ns[i])
    {
      if i > 0 {
        assert i - 1 in at <==> i - 1 < |ns[1..]| && p(ns[1..][i - 1]);
        if k :| 0 <= k < |at| && at[k] == i - 1 {
          assert Shifted(at)[k] == i;
          assert Shifted(at)[k] in all;
        }
      }
    }
  }

  /** `r` holds the images of the nodes at the positions `at`. */
  ghost predicate ImagesAt(r: seq<Node>, at: seq<nat>, ns: seq<Node>, image: Node -> Node) {
    |r| == |at| && forall k | 0 <= k < |at| :: at[k] < |ns| && r[k] == image(ns[at[k]])
  }

  lemma ImagesCons(r: seq<Node>, at: seq<nat>, ns: seq<Node>, image: Node -> Node)
    requires ns != [] && ImagesAt(r, at, ns[1..], image)
    ensures ImagesAt(r, Shifted(at), ns, image)
    ensures ImagesAt([image(ns[0])] + r, [0] + Shifted(at), ns, image)
  {
  }

  function IsHit(ranges: seq<CharRange>): Node -> bool {
    n => Hit(ranges, n)
  }

  function Pruned(ranges: seq<CharRange>): Node -> Node {
    n => Image(ranges, n)
  }

  /** Pruning keeps the hit nodes of a level, each once and in order. */
  lemma {:induction false} PruningKeepsTheOrder(ranges: seq<CharRange>, ns: seq<Node>) returns (at: seq<nat>)
    ensures Positions(at, ns, IsHit(ranges))
    ensures ImagesAt(FindMatchingChildren(ranges, ns), at, ns, Pruned(ranges))
  {
    if ns == [] {
      at := [];
    } else {
      var rest := PruningKeepsTheOrder(ranges, ns[1..]);
      PositionsCons(rest, ns, IsHit(ranges));
      ImagesCons(FindMatchingChildren(ranges, ns[1..]), rest, ns, Pruned(ranges));
      at := if Hit(ranges, ns[0]) then [0] + Shifted(rest) else Shifted(rest);
    }
  }

  function Itself(n: Node): Node {
    n
  }

  /** The content of a hit node without hit children keeps its order without its direct By steps. */
  lemma ContentKeepsItsOrder(n: Node) returns (at: seq<nat>)
    ensures Positions(at, n.nodes, NotBy)
    ensures ImagesAt(CloneWithNodes(n, [NotBy]).nodes, at, n.nodes, Itself)
  {
    at := KeptInOrder(n.nodes);
  }

  lemma {:induction false} KeptInOrder(ns: seq<Node>) returns (at: seq<nat>)
    ensures Positions(at, ns, NotBy)
    ensures ImagesAt(Kept(ns, [NotBy]), at, ns, Itself)
  {
    if ns == [] {
      at := [];
    } else {
      var rest := KeptInOrder(ns[1..]);
      PositionsCons(rest, ns, NotBy);
      ImagesCons(Kept(ns[1..], [NotBy]), rest, ns, Itself);
      KeptCons(ns);
      at := if NotBy(ns[0]) then [0] + Shifted(rest) else Shifted(rest);
    }
  }

  lemma KeptCons(ns: seq<Node>)
    requires ns != []
    ensures Kept(ns, [NotBy]) == if NotBy(ns[0]) then [Itself(ns[0])] + Kept(ns[1..], [NotBy]) else Kept(ns[1..], [NotBy])
  {
    assert [NotBy][0](ns[0]) == NotBy(ns[0]);
    assert PassesAll([NotBy], ns[0]) <==> NotBy(ns[0]);
  }

  // ----- the entries of the label statistics -----

  function MatchingCategories(cs: seq<Pattern>, path: seq<Node>, n: nat): seq<nat>
    requires n <= |cs|
  {
    if n == 0 then [] else MatchingCategories(cs, path, n - 1) + (if cs[n - 1](TestName(path)) then [n - 1] else [])
  }

  lemma {:induction false} MatchingCategoriesHas(cs: seq<Pattern>, path: seq<Node>, n: nat)
    requires n <= |cs|
    ensures Ascends(MatchingCategories(cs, path, n))
    ensures forall k: nat :: k in MatchingCategories(cs, path, n) <==> k < n && cs[k](TestName(path))
  {
    if n > 0 {
      MatchingCategoriesHas(cs, path, n - 1);
      var front := MatchingCategories(cs, path, n - 1);
      assert forall i | 0 <= i < |front| :: front[i] in front;
    }
  }

  /** At a spec the categories that match its full name. */
  function AtMatches(cs: seq<Pattern>): Listing {
    (path: seq<Node>) => if path != [] && path[|path| - 1].spec then MatchingCategories(cs, path, |cs|) else []
  }

  ghost predicate EntriesAreAt(es: seq<PathStats>, parents: seq<Node>, ms: seq<Mark>, ns: seq<Node>) {
    && |es| == |ms|
    && forall i | 0 <= i < |ms| ::
      IsAddress(ns, ms[i].address) && es[i] == PathStats(Stripped(parents + PathAt(ns, ms[i].address)), ms[i].number)
  }

  ghost predicate IsMatchAt(cs: seq<Pattern>, ns: seq<Node>, m: Mark) {
    && IsAddress(ns, m.address)
    && var path := PathAt(ns, m.address);
    path[|path| - 1].spec && m.number < |cs| && cs[m.number](TestName(path))
  }

  /** The walk records every spec once for each category it matches, in document order and for one
      spec in the order of the categories. */
  lemma EntriesAreInOrder(cs: seq<Pattern>, outline: seq<Node>) returns (ms: seq<Mark>)
    ensures EntriesAreAt(Entries(cs, outline, []), [], ms, outline)
    ensures InOrder(ms) && forall m :: m in ms <==> IsMatchAt(cs, outline, m)
  {
    ms := Visited(outline, [], AtMatches(cs));
    EntriesVisit(cs, [], outline);
    forall p
      ensures Ascends(AtMatches(cs)(p))
    {
      MatchingCategoriesHas(cs, p, |cs|);
    }
    VisitedLists(outline, [], AtMatches(cs));
    forall m
      ensures m in ms <==> IsMatchAt(cs, outline, m)
    {
      if IsAddress(outline, m.address) {
        var path := PathAt(outline, m.address);
        assert [] + path == path;
        MatchingCategoriesHas(cs, path, |cs|);
      }
    }
  }

  /** The spec counter is the number of places that hold a spec. */
  lemma SpecsAreCounted(outline: seq<Node>) returns (places: seq<Mark>)
    ensures |places| == CountSpecs(outline) && InOrder(places)
    ensures forall m :: m in places <==> m.number == 0 && IsAddress(outline, m.address) && Last(PathAt(outline, m.address)).spec
  {
    var cs: seq<Pattern> := [_ => true];
    places := EntriesAreInOrder(cs, outline);
    SpecsAreCountedOnce(outline, []);
    forall m
      ensures IsMatchAt(cs, outline, m) <==> m.number == 0 && IsAddress(outline, m.address) && Last(PathAt(outline, m.address)).spec
    {
      assert cs[0] == _ => true;
    }
  }

  lemma {:induction false} EntriesHere(cs: seq<Pattern>, path: seq<Node>, n: nat)
    requires n <= |cs|
    ensures var ks := MatchingCategories(cs, path, n);
            var es := SpecEntries(cs, path, n);
            |es| == |ks| && forall i | 0 <= i < |ks| :: es[i] == PathStats(Stripped(path), ks[i])
  {
    if n > 0 {
      EntriesHere(cs, path, n - 1);
    }
  }

  lemma {:induction false} EntriesVisit(cs: seq<Pattern>, parents: seq<Node>, ns: seq<Node>)
    ensures EntriesAreAt(Entries(cs, ns, parents), parents, Visited(ns, parents, AtMatches(cs)), ns)
    decreases ns
  {
    if ns != [] {
      var path := parents + [ns[0]];
      var here, below, beside := AtMatches(cs)(path), Visited(ns[0].nodes, path, AtMatches(cs)), Visited(ns[1..], parents, AtMatches(cs));
      var own := if ns[0].spec then SpecEntries(cs, path, |cs|) else [];
      EntriesHere(cs, path, |cs|);
      assert PathAt(ns, [0]) == [ns[0]];
      assert EntriesAreAt(own, parents, Here(here), ns);
      EntriesVisit(cs, path, ns[0].nodes);
      EntriesBelow(Entries(cs, ns[0].nodes, path), parents, below, ns);
      EntriesVisit(cs, parents, ns[1..]);
      EntriesBeside(Entries(cs, ns[1..], parents), parents, beside, ns);
      EntriesInConcat(own, Entries(cs, ns[0].nodes, path), parents, Here(here), Below(below), ns);
      EntriesInConcat(own + Entries(cs, ns[0].nodes, path), Entries(cs, ns[1..], parents), parents, Here(here) + Below(below), Beside(beside), ns);
    }
  }

  lemma EntriesInConcat(d: seq<PathStats>, e: seq<PathStats>, parents: seq<Node>, a: seq<Mark>, b: seq<Mark>, ns: seq<Node>)
    requires EntriesAreAt(d, parents, a, ns) && EntriesAreAt(e, parents, b, ns)
    ensures EntriesAreAt(d + e, parents, a + b, ns)
  {
  }

  lemma EntriesBeside(es: seq<PathStats>, parents: seq<Node>, ms: seq<Mark>, ns: seq<Node>)
    requires ns != [] && EntriesAreAt(es, parents, ms, ns[1..])
    ensures EntriesAreAt(es, parents, Beside(ms), ns)
  {
    forall i | 0 <= i < |ms|
      ensures IsAddress(ns, Beside(ms)[i].address)
      ensures es[i] == PathStats(Stripped(parents + PathAt(ns, Beside(ms)[i].address)), ms[i].number)
    {
      AddressBeside(ns, ms[i].address);
    }
  }

  lemma EntriesBelow(es: seq<PathStats>, parents: seq<Node>, ms: seq<Mark>, ns: seq<Node>)
    requires ns != [] && EntriesAreAt(es, parents + [ns[0]], ms, ns[0].nodes)
    ensures EntriesAreAt(es, parents, Below(ms), ns)
  {
    forall i | 0 <= i < |ms|
      ensures IsAddress(ns, Below(ms)[i].address)
      ensures es[i] == PathStats(Stripped(parents + PathAt(ns, Below(ms)[i].address)), ms[i].number)
    {
      AddressBelow(ns, ms[i].address);
      assert parents + [ns[0]] + PathAt(ns[0].nodes, ms[i].address) == parents + PathAt(ns, Below(ms)[i].address);
    }
  }
}
