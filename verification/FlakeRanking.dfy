/** Ranking failing tests by how severely they flake. */
module FlakeRanking {
  import opened Strings
  import opened Sorting
  import opened Counting
  import opened Sums

  datatype Severity = HeavilyFlaky | MostlyFlaky | ModeratelyFlaky | MildlyFlaky | Fine | Unimportant | Unset

  const SEVERITIES: seq<Severity> := [HeavilyFlaky, MostlyFlaky, ModeratelyFlaky, MildlyFlaky, Fine, Unimportant]

  datatype JobEntry = JobEntry(red: bool, buildNumber: nat, job: string, pr: int, batchPRs: seq<int>, commitID: string)

  datatype Details = Details(succeeded: nat, skipped: nat, failed: nat, severity: Severity, jobs: seq<JobEntry>, nonDeterministic: bool)

  /** A test on a lane; the nested maps of the report are one map keyed by the pair. */
  datatype Cell = Cell(test: string, lane: string)

  type Data = map<Cell, Details>

  // ----- severity of one cell -----

  /** The thresholds 0.5, 0.2, 0.1 and 0 for failed / succeeded, as integer comparisons. */
  function SeverityOf(failed: nat, succeeded: nat): Severity {
    if succeeded == 0 && failed == 0 then Unimportant
    else if succeeded == 0 || 2 * failed > succeeded then HeavilyFlaky
    else if 5 * failed > succeeded then MostlyFlaky
    else if 10 * failed > succeeded then ModeratelyFlaky
    else if failed > 0 then MildlyFlaky
    else Fine
  }

  lemma CrossMultiplied(f: real, s: real, threshold: real)
    requires s > 0.0
    ensures f / s > threshold <==> f > threshold * s
  {
    var q := f / s;
    assert q * s == f;
    ProductsCompare(threshold, q, s);
  }

  lemma ProductsCompare(x: real, y: real, s: real)
    requires s > 0.0
    ensures x < y <==> x * s < y * s
  {
    assert (y - x) * s == y * s - x * s;
    assert y - x > 0.0 <==> (y - x) * s > 0.0;
  }

  /** The severity by the ratio of failures to successes. */
  lemma SeverityByRatio(failed: nat, succeeded: nat)
    requires succeeded > 0
    ensures var severity, ratio := SeverityOf(failed, succeeded), failed as real / succeeded as real;
            && (severity == HeavilyFlaky <==> ratio > 0.5)
            && (severity == MostlyFlaky <==> 0.2 < ratio <= 0.5)
            && (severity == ModeratelyFlaky <==> 0.1 < ratio <= 0.2)
            && (severity == MildlyFlaky <==> 0.0 < ratio <= 0.1)
            && (severity == Fine <==> ratio == 0.0)
  {
    CrossMultiplied(failed as real, succeeded as real, 0.5);
    CrossMultiplied(failed as real, succeeded as real, 0.2);
    CrossMultiplied(failed as real, succeeded as real, 0.1);
    ZeroRatio(failed, succeeded);
  }

  lemma ZeroRatio(failed: nat, succeeded: nat)
    requires succeeded > 0
    ensures failed as real / succeeded as real >= 0.0
    ensures failed as real / succeeded as real == 0.0 <==> failed == 0
  {
    var f, s := failed as real, succeeded as real;
    assert f / s * s == f;
  }

  /** Without successes. */
  lemma SeverityWithoutSuccess(failed: nat)
    ensures SeverityOf(failed, 0) == if failed > 0 then HeavilyFlaky else Unimportant
  {
  }

  function Grade(s: Severity): nat {
    match s
    case HeavilyFlaky => 5
    case MostlyFlaky => 4
    case ModeratelyFlaky => 3
    case MildlyFlaky => 2
    case Fine => 1
    case Unimportant => 0
    case Unset => 0
  }

  /** More failures or fewer successes never make a failing test look better. */
  lemma SeverityIsMonotone(failed: nat, succeeded: nat, failed': nat, succeeded': nat)
    requires failed <= failed' && succeeded' <= succeeded && failed' > 0
    ensures Grade(SeverityOf(failed, succeeded)) <= Grade(SeverityOf(failed', succeeded'))
  {
  }

  /** Failures times a factor that depends on how they compare to the successes, rounded down. */
  function Weight(d: Details): nat {
    if d.failed > 3 * d.succeeded then 7 * d.failed / 4
    else if d.failed > d.succeeded then 3 * d.failed / 2
    else if d.failed < d.succeeded then 3 * d.failed / 4
    else d.failed
  }

  /** The factors of the code, rounded down once. */
  lemma WeightByFactor(d: Details)
    ensures Weight(d) == ((if d.failed > 3 * d.succeeded then 1.75
                           else if d.failed > d.succeeded then 1.5
                           else if d.failed == d.succeeded then 1.0
                           else 0.75) * d.failed as real).Floor
  {
    var f := d.failed as real;
    assert (7 * d.failed) as real == 7.0 * f && (3 * d.failed) as real == 3.0 * f;
    FloorOfQuotient(7 * d.failed);
    FloorOfQuotient(3 * d.failed);
  }

  lemma FloorOfQuotient(a: nat)
    ensures (a as real / 4.0).Floor == a / 4
    ensures (a as real / 2.0).Floor == a / 2
  {
  }

  // ----- the order -----

  datatype Ranked = Ranked(name: string, occurrences: seq<int>)

  /** Lexicographic on lists of equal length, shorter lists first. */
  predicate VectorLess(a: seq<int>, b: seq<int>) {
    if |a| != |b| then |a| < |b|
    else a != [] && (a[0] < b[0] || (a[0] == b[0] && VectorLess(a[1..], b[1..])))
  }

  lemma {:induction false} VectorOrder(a: seq<int>, b: seq<int>)
    ensures a == b || VectorLess(a, b) || VectorLess(b, a)
    ensures VectorLess(a, b) ==> !VectorLess(b, a) && a != b
  {
    if |a| == |b| && a != [] && a[0] == b[0] {
      VectorOrder(a[1..], b[1..]);
      assert a == [a[0]] + a[1..] && b == [b[0]] + b[1..];
    }
  }

  lemma {:induction false} VectorTransitive(a: seq<int>, b: seq<int>, c: seq<int>)
    requires VectorLess(a, b) && VectorLess(b, c)
    ensures VectorLess(a, c)
  {
    if |a| == |b| == |c| && a[0] == b[0] == c[0] {
      VectorTransitive(a[1..], b[1..], c[1..]);
    }
  }

  /** The first difference decides. */
  lemma {:induction false} FirstDifferenceDecides(a: seq<int>, b: seq<int>, k: nat)
    requires |a| == |b| && k < |a| && a[..k] == b[..k] && a[k] < b[k]
    ensures VectorLess(a, b)
  {
    if k > 0 {
      assert a[0] == a[..k][0] && b[0] == b[..k][0];
      assert a[1..][..k - 1] == a[..k][1..] && b[1..][..k - 1] == b[..k][1..];
      FirstDifferenceDecides(a[1..], b[1..], k - 1);
    }
  }

  /** The loop of the code's `Less`, which decides by the first difference. */
  method BySeverityLess(a: Ranked, b: Ranked) returns (less: bool)
    ensures less == (VectorLess(a.occurrences, b.occurrences) || (a.occurrences == b.occurrences && Less(b.name, a.name)))
  {
    if |a.occurrences| != |b.occurrences| {
      return |a.occurrences| < |b.occurrences|;
    }
    var i := 0;
    while i < |a.occurrences|
      invariant i <= |a.occurrences|
      invariant a.occurrences[..i] == b.occurrences[..i]
      invariant VectorLess(a.occurrences, b.occurrences) == VectorLess(a.occurrences[i..], b.occurrences[i..])
    {
      VectorOrder(a.occurrences, b.occurrences);
      if a.occurrences[i] < b.occurrences[i] {
        return true;
      } else if a.occurrences[i] > b.occurrences[i] {
        return false;
      }
      i := i + 1;
    }
    assert a.occurrences[..i] == a.occurrences && b.occurrences[..i] == b.occurrences;
    return Less(b.name, a.name);
  }

  /** More severe first; by name among equals. This is the reverse of `Less`. */
  predicate RankLe(a: Ranked, b: Ranked) {
    VectorLess(b.occurrences, a.occurrences) || (a.occurrences == b.occurrences && AtMost(a.name, b.name))
  }

  predicate RanksBefore(a: Ranked, b: Ranked) {
    VectorLess(b.occurrences, a.occurrences) || (a.occurrences == b.occurrences && Less(a.name, b.name))
  }

  lemma RankLeIsAnOrder()
    ensures TotalPreorder(RankLe)
    ensures forall a, b :: RankLe(a, b) && RankLe(b, a) ==> a == b
    ensures forall a, b :: RankLe(a, b) && a != b ==> RanksBefore(a, b)
  {
    forall a, b
      ensures RankLe(a, b) || RankLe(b, a)
      ensures RankLe(a, b) && RankLe(b, a) ==> a == b
      ensures RankLe(a, b) && a != b ==> RanksBefore(a, b)
    {
      VectorOrder(a.occurrences, b.occurrences);
      LessIsTotal(a.name, b.name);
      if Less(a.name, b.name) {
        LessIsAsymmetric(a.name, b.name);
      }
    }
    forall a, b, c | RankLe(a, b) && RankLe(b, c)
      ensures RankLe(a, c)
    {
      RankLeTransitive(a, b, c);
    }
  }

  lemma RankLeTransitive(a: Ranked, b: Ranked, c: Ranked)
    requires RankLe(a, b) && RankLe(b, c)
    ensures RankLe(a, c)
  {
    if VectorLess(b.occurrences, a.occurrences) && VectorLess(c.occurrences, b.occurrences) {
      VectorTransitive(c.occurrences, b.occurrences, a.occurrences);
    }
    if Less(c.name, a.name) {
      LessIsTotal(a.name, b.name);
      if Less(a.name, b.name) {
        LessIsTransitive(c.name, a.name, b.name);
      }
    }
  }

  // ----- occurrences of a test, whatever order the cells are visited in -----

  /** What a cell contributes to a test's count for a severity. */
  function Contribution(data: Data, test: string, s: Severity): Cell -> int {
    c => if c in data && c.test == test && data[c].severity == s then Weight(data[c]) else 0
  }

  ghost function Occurrence(data: Data, test: string, s: Severity): int {
    SumOver(data.Keys, Contribution(data, test, s))
  }

  ghost function Occurrences(data: Data, test: string): (v: seq<int>)
    ensures |v| == |SEVERITIES| && forall i | 0 <= i < |v| :: v[i] == Occurrence(data, test, SEVERITIES[i])
  {
    seq(|SEVERITIES|, i requires 0 <= i < |SEVERITIES| => Occurrence(data, test, SEVERITIES[i]))
  }

  ghost function Tests(data: Data): set<string> {
    set c | c in data :: c.test
  }

  ghost function RankOf(data: Data, test: string): Ranked {
    Ranked(test, Occurrences(data, test))
  }

  /** The ranking: every test of the data once, each strictly before the next in severity vector
      or, for equal vectors, in name; then the other tests in the order given, once each. */
  ghost predicate IsRanking(r: seq<string>, data: Data, tests: seq<string>) {
    exists n: nat | n <= |r| :: IsRankingAt(r, n, data, tests)
  }

  ghost predicate IsRankingAt(r: seq<string>, n: nat, data: Data, tests: seq<string>)
    requires n <= |r|
  {
    && (forall t :: t in r[..n] <==> t in Tests(data))
    && (forall i, j | 0 <= i < j < n :: RanksBefore(RankOf(data, r[i]), RankOf(data, r[j])))
    && r[n..] == Others(tests, Tests(data))
  }

  /** First occurrences of the tests outside `found`. */
  ghost function Others(tests: seq<string>, found: set<string>): seq<string> {
    if tests == [] then []
    else
      var front, t := Others(tests[..|tests| - 1], found), tests[|tests| - 1];
      if t in found || t in front then front else front + [t]
  }

  lemma {:induction false} OthersAreDistinct(tests: seq<string>, found: set<string>)
    ensures NoDuplicates(Others(tests, found))
    ensures forall t :: t in Others(tests, found) <==> t in tests && t !in found
  {
    if tests != [] {
      OthersAreDistinct(tests[..|tests| - 1], found);
      assert forall t :: t in tests <==> t in tests[..|tests| - 1] || t == tests[|tests| - 1];
    }
  }

  lemma RanksBeforeIsStrict(a: Ranked, b: Ranked)
    requires RanksBefore(a, b)
    ensures a.name != b.name || a.occurrences != b.occurrences
    ensures RankLe(a, b)
  {
    VectorOrder(b.occurrences, a.occurrences);
    if Less(a.name, b.name) {
      LessIsAsymmetric(a.name, b.name);
    }
  }

  /** A ranking lists every test of the data and of the list, and none twice. */
  lemma RankingIsAPermutation(r: seq<string>, data: Data, tests: seq<string>)
    requires IsRanking(r, data, tests)
    ensures forall t :: t in r <==> t in Tests(data) || t in tests
    ensures NoDuplicates(r)
  {
    var n: nat :| n <= |r| && IsRankingAt(r, n, data, tests);
    OthersAreDistinct(tests, Tests(data));
    assert r == r[..n] + r[n..];
    forall i, j | 0 <= i < j < |r|
      ensures r[i] != r[j]
    {
      if j < n {
        RanksBeforeIsStrict(RankOf(data, r[i]), RankOf(data, r[j]));
      } else if i < n {
        assert r[i] in r[..n] && r[j] == r[n..][j - n] && r[n..][j - n] in r[n..];
      } else {
        assert r[i] == r[n..][i - n] && r[j] == r[n..][j - n];
      }
    }
  }

  lemma RankedPartIsUnique(a: seq<string>, b: seq<string>, data: Data)
    requires forall t :: t in a <==> t in b
    requires forall i, j | 0 <= i < j < |a| :: RanksBefore(RankOf(data, a[i]), RankOf(data, a[j]))
    requires forall i, j | 0 <= i < j < |b| :: RanksBefore(RankOf(data, b[i]), RankOf(data, b[j]))
    ensures a == b
  {
    var le := (s: string, t: string) => RankLe(RankOf(data, s), RankOf(data, t));
    forall s, t
      ensures RanksBefore(RankOf(data, s), RankOf(data, t)) ==> le(s, t) && s != t
    {
      if RanksBefore(RankOf(data, s), RankOf(data, t)) {
        RanksBeforeIsStrict(RankOf(data, s), RankOf(data, t));
      }
    }
    RankLeIsAnOrder();
    forall s, t | le(s, t) && le(t, s)
      ensures s == t
    {
      assert RankOf(data, s) == RankOf(data, t);
    }
    DistinctSameElements(a, b);
    SortIsUnique(le, a, b);
  }

  /** The data and the list of tests determine the ranking: the order in which maps are iterated
      and the sort treats ties cannot matter. */
  lemma RankingIsUnique(r: seq<string>, r': seq<string>, data: Data, tests: seq<string>)
    requires IsRanking(r, data, tests) && IsRanking(r', data, tests)
    ensures r == r'
  {
    var n: nat :| n <= |r| && IsRankingAt(r, n, data, tests);
    var n': nat :| n' <= |r'| && IsRankingAt(r', n', data, tests);
    RankedPartIsUnique(r[..n], r'[..n'], data);
    SamePartsSameWhole(r, n, r', n');
  }

  lemma SamePartsSameWhole(r: seq<string>, n: nat, r': seq<string>, n': nat)
    requires n <= |r| && n' <= |r'| && r[..n] == r'[..n'] && r[n..] == r'[n'..]
    ensures r == r'
  {
    assert r == r[..n] + r[n..] && r' == r'[..n'] + r'[n'..];
  }

  /** Severities are looked at from the worst to the least. */
  lemma WorstSeverityFirst(i: nat, j: nat)
    requires i < j < |SEVERITIES|
    ensures Grade(SEVERITIES[i]) > Grade(SEVERITIES[j])
  {
  }

  /** Of two tests the one that weighs more in the worst severity they differ in ranks first. */
  lemma WorstDifferenceDecides(r: seq<string>, data: Data, tests: seq<string>, i: nat, j: nat, k: nat)
    requires IsRanking(r, data, tests) && i < |r| && j < |r| && r[i] in Tests(data) && r[j] in Tests(data)
    requires k < |SEVERITIES| && Occurrence(data, r[i], SEVERITIES[k]) > Occurrence(data, r[j], SEVERITIES[k])
    requires forall l | 0 <= l < k :: Occurrence(data, r[i], SEVERITIES[l]) == Occurrence(data, r[j], SEVERITIES[l])
    ensures i < j
  {
    var n: nat :| n <= |r| && IsRankingAt(r, n, data, tests);
    InRankedPart(r, n, data, tests, i);
    InRankedPart(r, n, data, tests, j);
    WorstDifferenceRanks(data, r[i], r[j], k);
    RankedInOrder(r, n, data, tests, i, j);
  }

  lemma WorstDifferenceRanks(data: Data, t: string, u: string, k: nat)
    requires k < |SEVERITIES| && Occurrence(data, t, SEVERITIES[k]) > Occurrence(data, u, SEVERITIES[k])
    requires forall l | 0 <= l < k :: Occurrence(data, t, SEVERITIES[l]) == Occurrence(data, u, SEVERITIES[l])
    ensures RanksBefore(RankOf(data, t), RankOf(data, u))
  {
    var a, b := Occurrences(data, t), Occurrences(data, u);
    assert b[..k] == a[..k];
    FirstDifferenceDecides(b, a, k);
  }

  lemma NotBothBefore(x: Ranked, y: Ranked)
    requires RanksBefore(x, y)
    ensures !RanksBefore(y, x) && x != y
  {
    VectorOrder(x.occurrences, y.occurrences);
    VectorOrder(y.occurrences, x.occurrences);
    if Less(x.name, y.name) {
      LessIsAsymmetric(x.name, y.name);
    }
  }

  lemma RankedInOrder(r: seq<string>, n: nat, data: Data, tests: seq<string>, i: nat, j: nat)
    requires n <= |r| && IsRankingAt(r, n, data, tests) && i < n && j < n
    requires RanksBefore(RankOf(data, r[i]), RankOf(data, r[j]))
    ensures i < j
  {
    NotBothBefore(RankOf(data, r[i]), RankOf(data, r[j]));
  }

  lemma InRankedPart(r: seq<string>, n: nat, data: Data, tests: seq<string>, i: nat)
    requires n <= |r| && IsRankingAt(r, n, data, tests) && i < |r| && r[i] in Tests(data)
    ensures i < n
  {
    OthersAreDistinct(tests, Tests(data));
    forall k | n <= k < |r|
      ensures r[k] !in Tests(data)
    {
      assert r[k] == r[n..][k - n] && r[k] in r[n..];
    }
  }

  // ----- the procedure -----

  type Counters = map<Severity, int>

  function Get(m: Counters, s: Severity): int {
    if s in m then m[s] else 0
  }

  /** The counters hold what the visited cells contribute. */
  ghost predicate Tallied(acc: map<string, Counters>, data: Data, visited: set<Cell>) {
    && (forall t :: t in acc <==> exists c | c in visited :: c.test == t)
    && (forall t, s | t in acc :: Get(acc[t], s) == SumOver(visited, Contribution(data, t, s)))
  }

  function Bumped(acc: map<string, Counters>, data: Data, c: Cell): map<string, Counters>
    requires c in data
  {
    var counters := if c.test in acc then acc[c.test] else map[];
    acc[c.test := counters[data[c].severity := Get(counters, data[c].severity) + Weight(data[c])]]
  }

  lemma BumpedGet(acc: map<string, Counters>, data: Data, c: Cell, t: string, s: Severity)
    requires c in data && (t in acc || t == c.test)
    ensures Get(Bumped(acc, data, c)[t], s) == (if t in acc then Get(acc[t], s) else 0) + Contribution(data, t, s)(c)
  {
  }

  lemma BumpedCounter(acc: map<string, Counters>, data: Data, visited: set<Cell>, c: Cell, t: string, s: Severity)
    requires Tallied(acc, data, visited) && c in data && c !in visited && (t in acc || t == c.test)
    ensures Get(Bumped(acc, data, c)[t], s) == SumOver(visited + {c}, Contribution(data, t, s))
  {
    BumpedGet(acc, data, c, t, s);
    SumAdds(visited, Contribution(data, t, s), c);
    if t !in acc {
      SumOfZeros(visited, Contribution(data, t, s));
    } else {
      assert Get(acc[t], s) == SumOver(visited, Contribution(data, t, s));
    }
  }

  lemma TallyOne(acc: map<string, Counters>, data: Data, visited: set<Cell>, c: Cell)
    requires Tallied(acc, data, visited) && c in data && c !in visited
    ensures Tallied(Bumped(acc, data, c), data, visited + {c})
  {
    var bumped := Bumped(acc, data, c);
    forall t, s | t in bumped
      ensures Get(bumped[t], s) == SumOver(visited + {c}, Contribution(data, t, s))
    {
      BumpedCounter(acc, data, visited, c, t, s);
    }
    forall t
      ensures t in bumped <==> exists x | x in visited + {c} :: x.test == t
    {
      assert c in visited + {c};
      assert forall x | x in visited :: x in visited + {c};
    }
  }

  method Tally(data: Data) returns (acc: map<string, Counters>)
    ensures Tallied(acc, data, data.Keys)
  {
    acc := map[];
    var todo := data.Keys;
    ghost var visited: set<Cell> := {};
    while todo != {}
      invariant visited == data.Keys - todo && todo <= data.Keys
      invariant Tallied(acc, data, visited)
      decreases todo
    {
      var c :| c in todo;
      TallyOne(acc, data, visited, c);
      acc := Bumped(acc, data, c);
      todo := todo - {c};
      visited := visited + {c};
    }
    assert visited == data.Keys;
  }

  method VectorOf(counters: Counters) returns (v: seq<int>)
    ensures |v| == |SEVERITIES| && forall i | 0 <= i < |v| :: v[i] == Get(counters, SEVERITIES[i])
  {
    v := [];
    for i := 0 to |SEVERITIES|
      invariant |v| == i
      invariant forall k | 0 <= k < i :: v[k] == Get(counters, SEVERITIES[k])
    {
      v := v + [Get(counters, SEVERITIES[i])];
    }
  }

  method BuildUpSortedTestsBySeverity(acc: map<string, Counters>, ghost data: Data) returns (sorted: seq<string>)
    requires Tallied(acc, data, data.Keys)
    ensures forall t :: t in sorted <==> t in Tests(data)
    ensures forall i, j | 0 <= i < j < |sorted| :: RanksBefore(RankOf(data, sorted[i]), RankOf(data, sorted[j]))
  {
    var ranked: seq<Ranked> := [];
    var todo := acc.Keys;
    while todo != {}
      invariant todo <= acc.Keys
      invariant forall x | x in ranked :: x.name in acc.Keys - todo && x == RankOf(data, x.name)
      invariant forall t | t in acc.Keys - todo :: RankOf(data, t) in ranked
      invariant NoDuplicates(ranked)
      decreases todo
    {
      var test :| test in todo;
      var v := VectorOf(acc[test]);
      assert v == Occurrences(data, test);
      assert forall x | x in ranked :: x.name != test;
      ranked := ranked + [Ranked(test, v)];
      todo := todo - {test};
    }
    sorted := SortedNames(ranked, data);
    forall t
      ensures t in sorted <==> t in Tests(data)
    {
      assert t in acc ==> RankOf(data, t) in ranked;
    }
  }

  function NameOf(x: Ranked): string {
    x.name
  }

  lemma NamesAreThoseRanked(names: seq<string>, sorted: seq<Ranked>, ranked: seq<Ranked>, data: Data, t: string)
    requires |names| == |sorted| && forall k | 0 <= k < |sorted| :: names[k] == sorted[k].name && sorted[k] == RankOf(data, names[k])
    requires forall x :: x in sorted <==> x in ranked
    ensures t in names <==> RankOf(data, t) in ranked
  {
    if RankOf(data, t) in ranked {
      var i :| 0 <= i < |sorted| && sorted[i] == RankOf(data, t);
      assert names[i] == t;
    }
    if t in names {
      var i :| 0 <= i < |names| && names[i] == t;
      assert sorted[i] in ranked;
    }
  }

  method SortRanked(ranked: seq<Ranked>) returns (sorted: seq<Ranked>)
    requires NoDuplicates(ranked)
    ensures forall x :: x in sorted <==> x in ranked
    ensures forall i, j | 0 <= i < j < |sorted| :: RanksBefore(sorted[i], sorted[j])
  {
    RankLeIsAnOrder();
    sorted := Sort(RankLe, ranked);
    MultisetMembers(sorted, ranked);
    DistinctSurvivesReordering((x: Ranked) => x, ranked, sorted);
    forall i, j | 0 <= i < j < |sorted|
      ensures RanksBefore(sorted[i], sorted[j])
    {
      assert RankLe(sorted[i], sorted[j]);
    }
  }

  method NamesOf(sorted: seq<Ranked>) returns (names: seq<string>)
    ensures |names| == |sorted| && forall k | 0 <= k < |names| :: names[k] == sorted[k].name
  {
    names := [];
    for i := 0 to |sorted|
      invariant |names| == i
      invariant forall k | 0 <= k < i :: names[k] == sorted[k].name
    {
      names := names + [sorted[i].name];
    }
  }

  method SortedNames(ranked: seq<Ranked>, ghost data: Data) returns (names: seq<string>)
    requires NoDuplicates(ranked) && forall x | x in ranked :: x == RankOf(data, x.name)
    ensures forall t :: t in names <==> RankOf(data, t) in ranked
    ensures forall i, j | 0 <= i < j < |names| :: RanksBefore(RankOf(data, names[i]), RankOf(data, names[j]))
  {
    var sorted := SortRanked(ranked);
    names := NamesOf(sorted);
    forall i | 0 <= i < |sorted|
      ensures sorted[i] == RankOf(data, names[i])
    {
      assert sorted[i] in ranked;
    }
    forall t
      ensures t in names <==> RankOf(data, t) in ranked
    {
      NamesAreThoseRanked(names, sorted, ranked, data, t);
    }
  }

  method SortTestsByRelevance(data: Data, tests: seq<string>) returns (relevant: seq<string>)
    ensures IsRanking(relevant, data, tests)
  {
    var acc := Tally(data);
    relevant := BuildUpSortedTestsBySeverity(acc, data);
    ghost var ranked := relevant;
    for i := 0 to |tests|
      invariant relevant == ranked + Others(tests[..i], Tests(data))
    {
      assert tests[..i + 1][..i] == tests[..i];
      if tests[i] !in relevant {
        relevant := relevant + [tests[i]];
      }
    }
    assert tests[..|tests|] == tests;
    assert relevant[..|ranked|] == ranked;
    assert IsRankingAt(relevant, |ranked|, data, tests);
  }
}
