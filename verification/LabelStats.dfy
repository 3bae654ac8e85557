/** Counting specs and collecting the paths whose test names match a label category. */
module LabelStats {
  import opened Sums
  import opened Outline

  /** A category's regular expression, as the set of names it matches. */
  type Pattern = string -> bool

  datatype PathStats = PathStats(path: seq<Node>, category: nat)

  /** Texts joined the walker's way: every text is preceded by a blank. */
  function TestName(path: seq<Node>): string {
    if path == [] then "" else TestName(path[..|path| - 1]) + " " + path[|path| - 1].text
  }

  /** The name of a path is that of its parts, one after the other; one node gives a blank and its text. */
  lemma {:induction false} TestNameSpells(a: seq<Node>, b: seq<Node>, n: Node)
    ensures TestName(a + b) == TestName(a) + TestName(b)
    ensures TestName([n]) == " " + n.text
    decreases |b|
  {
    assert [n][..0] == [];
    if b == [] {
      assert a + b == a;
    } else {
      var front := b[..|b| - 1];
      assert (a + b)[..|a + b| - 1] == a + front;
      TestNameSpells(a, front, n);
    }
  }

  // ----- what the walk collects -----

  function CountSpecs(ns: seq<Node>): nat {
    if ns == [] then 0
    else (if ns[0].spec then 1 else 0) + CountSpecs(ns[0].nodes) + CountSpecs(ns[1..])
  }

  /** The entries of one spec, for the first `n` categories. */
  function SpecEntries(cs: seq<Pattern>, path: seq<Node>, n: nat): seq<PathStats>
    requires n <= |cs|
  {
    if n == 0 then []
    else SpecEntries(cs, path, n - 1) + (if cs[n - 1](TestName(path)) then [PathStats(Stripped(path), n - 1)] else [])
  }

  lemma {:induction false} SpecEntriesHas(cs: seq<Pattern>, path: seq<Node>, n: nat, e: PathStats)
    requires n <= |cs|
    ensures e in SpecEntries(cs, path, n) <==> e.category < n && cs[e.category](TestName(path)) && e.path == Stripped(path)
  {
    if n > 0 {
      SpecEntriesHas(cs, path, n - 1, e);
    }
  }

  lemma SpecEntriesNext(cs: seq<Pattern>, path: seq<Node>, n: nat)
    requires n < |cs|
    ensures SpecEntries(cs, path, n + 1) ==
            if cs[n](TestName(path)) then SpecEntries(cs, path, n) + [PathStats(Stripped(path), n)] else SpecEntries(cs, path, n)
  {
  }

  function Entries(cs: seq<Pattern>, ns: seq<Node>, parents: seq<Node>): seq<PathStats>
    decreases ns
  {
    if ns == [] then []
    else
      var path := parents + [ns[0]];
      (if ns[0].spec then SpecEntries(cs, path, |cs|) else [])
      + Entries(cs, ns[0].nodes, path)
      + Entries(cs, ns[1..], parents)
  }

  /** A chain of the outline that ends at a spec whose full name matches category `k`. */
  ghost predicate IsMatch(cs: seq<Pattern>, ns: seq<Node>, parents: seq<Node>, c: seq<Node>, k: nat) {
    IsChain(ns, c) && Last(c).spec && k < |cs| && cs[k](TestName(parents + c))
  }

  lemma {:induction false} EntriesAreMatches(cs: seq<Pattern>, ns: seq<Node>, parents: seq<Node>, e: PathStats)
    returns (c: seq<Node>)
    requires e in Entries(cs, ns, parents)
    ensures IsMatch(cs, ns, parents, c, e.category) && e.path == Stripped(parents + c)
    decreases ns
  {
    var n := ns[0];
    var path := parents + [n];
    SpecEntriesHas(cs, path, |cs|, e);
    if n.spec && e in SpecEntries(cs, path, |cs|) {
      c := [n];
    } else if e in Entries(cs, n.nodes, path) {
      var c' := EntriesAreMatches(cs, n.nodes, path, e);
      c := [n] + c';
      MatchBelow(cs, ns, parents, n, c', e.category);
    } else {
      c := EntriesAreMatches(cs, ns[1..], parents, e);
      MatchInRest(cs, ns, parents, c, e.category);
    }
  }

  lemma MatchBelow(cs: seq<Pattern>, ns: seq<Node>, parents: seq<Node>, n: Node, c: seq<Node>, k: nat)
    requires n in ns && IsMatch(cs, n.nodes, parents + [n], c, k)
    ensures IsMatch(cs, ns, parents, [n] + c, k) && parents + ([n] + c) == parents + [n] + c
  {
    ChainCons(ns, n, c);
    assert parents + ([n] + c) == parents + [n] + c;
  }

  lemma MatchInRest(cs: seq<Pattern>, ns: seq<Node>, parents: seq<Node>, c: seq<Node>, k: nat)
    requires ns != [] && IsMatch(cs, ns[1..], parents, c, k)
    ensures IsMatch(cs, ns, parents, c, k)
  {
    assert c[0] in ns[1..] ==> c[0] in ns;
  }

  lemma {:induction false} MatchesAreEntries(cs: seq<Pattern>, ns: seq<Node>, parents: seq<Node>, c: seq<Node>, k: nat)
    requires IsMatch(cs, ns, parents, c, k)
    ensures PathStats(Stripped(parents + c), k) in Entries(cs, ns, parents)
    decreases ns
  {
    var n := ns[0];
    var path := parents + [n];
    if c[0] != n {
      assert c[0] in ns[1..];
      MatchesAreEntries(cs, ns[1..], parents, c, k);
    } else if |c| == 1 {
      assert c == [n];
      SpecEntriesHas(cs, path, |cs|, PathStats(Stripped(path), k));
    } else {
      ChainTail(ns, c);
      assert path + c[1..] == parents + c;
      MatchesAreEntries(cs, n.nodes, path, c[1..], k);
    }
  }

  /** A path is recorded for a category exactly when it leads to a spec the category matches. */
  lemma RecordedIffMatching(cs: seq<Pattern>, outline: seq<Node>, e: PathStats)
    ensures e in Entries(cs, outline, []) <==>
            exists c :: IsMatch(cs, outline, [], c, e.category) && e.path == Stripped(c)
  {
    if e in Entries(cs, outline, []) {
      var c := EntriesAreMatches(cs, outline, [], e);
      assert [] + c == c;
    }
    if c :| IsMatch(cs, outline, [], c, e.category) && e.path == Stripped(c) {
      assert [] + c == c;
      MatchesAreEntries(cs, outline, [], c, e.category);
    }
  }

  /** The spec counter is the number of entries of a category that matches every name. */
  lemma {:induction false} SpecsAreCountedOnce(ns: seq<Node>, parents: seq<Node>)
    ensures |Entries([_ => true], ns, parents)| == CountSpecs(ns)
    decreases ns
  {
    if ns != [] {
      var cs: seq<Pattern> := [_ => true];
      assert SpecEntries(cs, parents + [ns[0]], 1) == SpecEntries(cs, parents + [ns[0]], 0) + [PathStats(Stripped(parents + [ns[0]]), 0)];
      SpecsAreCountedOnce(ns[0].nodes, parents + [ns[0]]);
      SpecsAreCountedOnce(ns[1..], parents);
    }
  }

  // ----- hits -----

  /** How many of the entries are of category `k`. */
  function HitsOf(es: seq<PathStats>, k: nat): nat {
    if es == [] then 0
    else HitsOf(es[..|es| - 1], k) + (if es[|es| - 1].category == k then 1 else 0)
  }

  lemma {:induction false} HitsAdd(a: seq<PathStats>, b: seq<PathStats>, k: nat)
    ensures HitsOf(a + b, k) == HitsOf(a, k) + HitsOf(b, k)
  {
    if b == [] {
      assert a + b == a;
    } else {
      assert (a + b)[..|a + b| - 1] == a + b[..|b| - 1];
      HitsAdd(a, b[..|b| - 1], k);
    }
  }

  /** Every category's counter grew by its number of entries. */
  ghost predicate Gained(before: seq<int>, after: seq<int>, es: seq<PathStats>) {
    |after| == |before| && forall k | 0 <= k < |before| :: after[k] == before[k] + HitsOf(es, k)
  }

  lemma GainOne(before: seq<int>, after: seq<int>, es: seq<PathStats>, e: PathStats)
    requires Gained(before, after, es) && e.category < |before|
    ensures Gained(before, after[e.category := after[e.category] + 1], es + [e])
  {
    assert (es + [e])[..|es|] == es;
  }

  /** Paths and hits after `es` has been recorded. */
  ghost predicate Recorded(paths: seq<PathStats>, hits: seq<int>, paths': seq<PathStats>, hits': seq<int>, es: seq<PathStats>) {
    paths' == paths + es && Gained(hits, hits', es)
  }

  lemma RecordOne(paths: seq<PathStats>, hits: seq<int>, paths': seq<PathStats>, hits': seq<int>, es: seq<PathStats>, e: PathStats)
    requires Recorded(paths, hits, paths', hits', es) && e.category < |hits|
    ensures Recorded(paths, hits, paths' + [e], hits'[e.category := hits'[e.category] + 1], es + [e])
  {
    GainOne(hits, hits', es, e);
  }

  lemma GainMore(before: seq<int>, middle: seq<int>, after: seq<int>, a: seq<PathStats>, b: seq<PathStats>)
    requires Gained(before, middle, a) && Gained(middle, after, b)
    ensures Gained(before, after, a + b)
  {
    forall k | 0 <= k < |before|
      ensures after[k] == before[k] + HitsOf(a + b, k)
    {
      HitsAdd(a, b, k);
    }
  }

  function Total(s: seq<int>): int {
    if s == [] then 0 else Total(s[..|s| - 1]) + s[|s| - 1]
  }

  lemma {:induction false} TotalBump(s: seq<int>, t: seq<int>, k: nat)
    requires |s| == |t| && k < |s| && t == s[k := s[k] + 1]
    ensures Total(t) == Total(s) + 1
  {
    if k < |s| - 1 {
      TotalBump(s[..|s| - 1], t[..|t| - 1], k);
    } else {
      assert s[..|s| - 1] == t[..|t| - 1];
    }
  }

  /** If every category gained its entries, all categories together gained all entries. */
  lemma {:induction false} HitsTotalIsPathCount(es: seq<PathStats>, before: seq<int>, after: seq<int>)
    requires forall e | e in es :: e.category < |before|
    requires Gained(before, after, es)
    ensures Total(after) == Total(before) + |es|
  {
    if es == [] {
      assert after == before;
    } else {
      var init, k := es[..|es| - 1], es[|es| - 1].category;
      assert es[|es| - 1] in es;
      var middle := after[k := after[k] - 1];
      HitsTotalIsPathCount(init, before, middle);
      TotalBump(middle, after, k);
    }
  }

  lemma {:induction false} EntryCategories(cs: seq<Pattern>, ns: seq<Node>, parents: seq<Node>)
    ensures forall e | e in Entries(cs, ns, parents) :: e.category < |cs|
    decreases ns
  {
    if ns != [] {
      forall e | e in SpecEntries(cs, parents + [ns[0]], |cs|)
        ensures e.category < |cs|
      {
        SpecEntriesHas(cs, parents + [ns[0]], |cs|, e);
      }
      EntryCategories(cs, ns[0].nodes, parents + [ns[0]]);
      EntryCategories(cs, ns[1..], parents);
    }
  }

  // ----- the walk -----

  /** The label configuration: its categories, and how often each has been hit so far. It is shared
      by all files and never reset. */
  class Config {
    const categories: seq<Pattern>
    var hits: seq<int>

    ghost predicate Valid()
      reads this
    {
      |hits| == |categories|
    }

    constructor (categories: seq<Pattern>, hits: seq<int>)
      requires |hits| == |categories|
      ensures Valid() && this.categories == categories && this.hits == hits
    {
      this.categories, this.hits := categories, hits;
    }
  }

  class TestStats {
    var specsTotal: nat
    var matchingSpecPaths: seq<PathStats>

    constructor ()
      ensures specsTotal == 0 && matchingSpecPaths == []
    {
      specsTotal, matchingSpecPaths := 0, [];
    }

    method MatchSpec(config: Config, path: seq<Node>)
      requires config.Valid()
      modifies `matchingSpecPaths, config`hits
      ensures config.Valid()
      ensures matchingSpecPaths == old(matchingSpecPaths) + SpecEntries(config.categories, path, |config.categories|)
      ensures Gained(old(config.hits), config.hits, SpecEntries(config.categories, path, |config.categories|))
    {
      var cs := config.categories;
      for i := 0 to |cs|
        invariant config.Valid()
        invariant Recorded(old(matchingSpecPaths), old(config.hits), matchingSpecPaths, config.hits, SpecEntries(cs, path, i))
      {
        SpecEntriesNext(cs, path, i);
        if cs[i](TestName(path)) {
          var e := PathStats(Stripped(path), i);
          RecordOne(old(matchingSpecPaths), old(config.hits), matchingSpecPaths, config.hits, SpecEntries(cs, path, i), e);
          matchingSpecPaths := matchingSpecPaths + [e];
          config.hits := config.hits[i := config.hits[i] + 1];
        }
      }
    }

    /** Every spec of the outline is counted once, and every category's hits grow by the number of
        paths recorded for it. */
    method TraverseNodesRecursively(config: Config, outline: seq<Node>, parents: seq<Node>)
      requires config.Valid()
      modifies this, config`hits
      ensures config.Valid()
      ensures specsTotal == old(specsTotal) + CountSpecs(outline)
      ensures matchingSpecPaths == old(matchingSpecPaths) + Entries(config.categories, outline, parents)
      ensures Gained(old(config.hits), config.hits, Entries(config.categories, outline, parents))
      decreases outline
    {
      var cs := config.categories;
      ghost var es := [];
      assert outline[0..] == outline;
      for i := 0 to |outline|
        invariant config.Valid()
        invariant es + Entries(cs, outline[i..], parents) == Entries(cs, outline, parents)
        invariant specsTotal + CountSpecs(outline[i..]) == old(specsTotal) + CountSpecs(outline)
        invariant matchingSpecPaths == old(matchingSpecPaths) + es
        invariant Gained(old(config.hits), config.hits, es)
      {
        ghost var more := NodeEntries(cs, outline[i], parents + [outline[i]]);
        ghost var before := config.hits;
        VisitNode(config, outline[i], parents + [outline[i]]);
        GainMore(old(config.hits), before, config.hits, es, more);
        NodeDone(cs, outline, i, parents, es);
        es := es + more;
      }
      assert es == Entries(cs, outline, parents);
    }

    method VisitNode(config: Config, node: Node, path: seq<Node>)
      requires config.Valid()
      modifies this, config`hits
      ensures config.Valid()
      ensures specsTotal == old(specsTotal) + (if node.spec then 1 else 0) + CountSpecs(node.nodes)
      ensures matchingSpecPaths == old(matchingSpecPaths) + NodeEntries(config.categories, node, path)
      ensures Gained(old(config.hits), config.hits, NodeEntries(config.categories, node, path))
      decreases node
    {
      var cs := config.categories;
      if node.spec {
        specsTotal := specsTotal + 1;
        MatchSpec(config, path);
      }
      ghost var own := if node.spec then SpecEntries(cs, path, |cs|) else [];
      ghost var before := config.hits;
      TraverseNodesRecursively(config, node.nodes, path);
      GainMore(old(config.hits), before, config.hits, own, Entries(cs, node.nodes, path));
    }
  }

  ghost function NodeEntries(cs: seq<Pattern>, n: Node, path: seq<Node>): seq<PathStats> {
    (if n.spec then SpecEntries(cs, path, |cs|) else []) + Entries(cs, n.nodes, path)
  }

  lemma NodeDone(cs: seq<Pattern>, ns: seq<Node>, i: nat, parents: seq<Node>, es: seq<PathStats>)
    requires i < |ns|
    ensures es + Entries(cs, ns[i..], parents) ==
            es + NodeEntries(cs, ns[i], parents + [ns[i]]) + Entries(cs, ns[i + 1..], parents)
    ensures CountSpecs(ns[i..]) == (if ns[i].spec then 1 else 0) + CountSpecs(ns[i].nodes) + CountSpecs(ns[i + 1..])
  {
    assert ns[i..][0] == ns[i] && ns[i..][1..] == ns[i + 1..];
  }

  /** The statistics of an outline. Each category gains the paths recorded for it, on top of the
      hits of the outlines before. */
  method GetStatsFromGinkgoOutline(config: Config, outline: seq<Node>) returns (stats: TestStats)
    requires config.Valid()
    modifies config`hits
    ensures fresh(stats) && config.Valid()
    ensures stats.specsTotal == CountSpecs(outline)
    ensures stats.matchingSpecPaths == Entries(config.categories, outline, [])
    ensures Gained(old(config.hits), config.hits, Entries(config.categories, outline, []))
    ensures Total(config.hits) == Total(old(config.hits)) + |stats.matchingSpecPaths|
  {
    stats := new TestStats();
    stats.TraverseNodesRecursively(config, outline, []);
    EntryCategories(config.categories, outline, []);
    HitsTotalIsPathCount(Entries(config.categories, outline, []), old(config.hits), config.hits);
  }

  // ----- many files, one configuration -----

  type Outlines = map<string, seq<Node>>

  function PathsOf(cs: seq<Pattern>, outlines: Outlines): string -> int {
    file => if file in outlines then |Entries(cs, outlines[file], [])| else 0
  }

  function CategoryPathsOf(cs: seq<Pattern>, outlines: Outlines, k: nat): string -> int {
    file => if file in outlines then HitsOf(Entries(cs, outlines[file], []), k) else 0
  }

  /** Every category has gained its paths in all files that are not in `todo`. */
  ghost predicate GainedFiles(cs: seq<Pattern>, outlines: Outlines, todo: set<string>, before: seq<int>, after: seq<int>) {
    && |after| == |before| == |cs|
    && Total(after) == Total(before) + SumOver(outlines.Keys - todo, PathsOf(cs, outlines))
    && forall k | 0 <= k < |cs| :: after[k] == before[k] + SumOver(outlines.Keys - todo, CategoryPathsOf(cs, outlines, k))
  }

  lemma NoFilesYet(cs: seq<Pattern>, outlines: Outlines, hits: seq<int>)
    requires |hits| == |cs|
    ensures GainedFiles(cs, outlines, outlines.Keys, hits, hits)
  {
    SumStartsAtZero(outlines.Keys, PathsOf(cs, outlines));
    forall k | 0 <= k < |cs|
      ensures SumOver(outlines.Keys - outlines.Keys, CategoryPathsOf(cs, outlines, k)) == 0
    {
      SumStartsAtZero(outlines.Keys, CategoryPathsOf(cs, outlines, k));
    }
  }

  lemma NextFile(cs: seq<Pattern>, outlines: Outlines, todo: set<string>, file: string, before: seq<int>, middle: seq<int>, after: seq<int>)
    requires file in todo && todo <= outlines.Keys && GainedFiles(cs, outlines, todo, before, middle)
    requires Gained(middle, after, Entries(cs, outlines[file], []))
    requires Total(after) == Total(middle) + |Entries(cs, outlines[file], [])|
    ensures GainedFiles(cs, outlines, todo - {file}, before, after)
  {
    SumVisits(outlines.Keys, todo, PathsOf(cs, outlines), file);
    forall k | 0 <= k < |cs|
      ensures after[k] == before[k] + SumOver(outlines.Keys - (todo - {file}), CategoryPathsOf(cs, outlines, k))
    {
      SumVisits(outlines.Keys, todo, CategoryPathsOf(cs, outlines, k), file);
    }
  }

  /** The files in any order: each has its own specs and paths; the categories' hits are, one by one
      and together, what was there before and the paths of all files. */
  method GenerateStatsFromOutlines(config: Config, outlines: Outlines) returns (stats: map<string, TestStats>)
    requires config.Valid()
    modifies config`hits
    ensures config.Valid() && stats.Keys == outlines.Keys
    ensures forall f | f in stats ::
              && stats[f].specsTotal == CountSpecs(outlines[f])
              && stats[f].matchingSpecPaths == Entries(config.categories, outlines[f], [])
    ensures GainedFiles(config.categories, outlines, {}, old(config.hits), config.hits)
  {
    stats := map[];
    var todo := outlines.Keys;
    NoFilesYet(config.categories, outlines, config.hits);
    while todo != {}
      invariant config.Valid() && todo <= outlines.Keys && stats.Keys == outlines.Keys - todo
      invariant forall f | f in stats ::
                  && stats[f].specsTotal == CountSpecs(outlines[f])
                  && stats[f].matchingSpecPaths == Entries(config.categories, outlines[f], [])
      invariant GainedFiles(config.categories, outlines, todo, old(config.hits), config.hits)
      decreases todo
    {
      var file :| file in todo;
      ghost var middle := config.hits;
      var fileStats := GetStatsFromGinkgoOutline(config, outlines[file]);
      NextFile(config.categories, outlines, todo, file, old(config.hits), middle, config.hits);
      stats := stats[file := fileStats];
      todo := todo - {file};
    }
  }
}
