/** Flake statistics over many daily reports: one failure count kept overall, per day and per lane. */
module FlakeStats {
  import opened Wrappers
  import opened Sums
  import opened FlakeRanking

  // ----- counters -----

  datatype ShareCategory = ShareCategory(cssClassName: string, minPercentage: real)

  const SHARE_CATEGORIES: seq<ShareCategory> :=
    [ShareCategory("lightyellow", 0.25), ShareCategory("yellow", 1.0), ShareCategory("orange", 2.5),
     ShareCategory("orangered", 5.0), ShareCategory("red", 10.0), ShareCategory("darkred", 25.0)]

  /** What a division of floats can give. */
  datatype Percentage = Finite(value: real) | NaN | PlusInf | MinusInf

  datatype Counter = Counter(count: nat, sum: int, avg: real, max: int, sharePercent: Percentage,
                             category: Option<ShareCategory>, prCount: int)

  const ZERO := Counter(0, 0, 0.0, 0, Finite(0.0), None, 0)

  function Add(c: Counter, value: int): Counter {
    c.(sum := c.sum + value,
       max := if value > c.max then value else c.max,
       avg := (value as real + c.count as real * c.avg) / (c.count + 1) as real,
       count := c.count + 1)
  }

  /** The running average times the count is the sum. */
  ghost predicate Averages(c: Counter) {
    c.avg * c.count as real == c.sum as real
  }

  lemma AddKeepsAverage(c: Counter, value: int)
    requires Averages(c)
    ensures Averages(Add(c, value))
  {
    var n := (c.count + 1) as real;
    var total := value as real + c.count as real * c.avg;
    assert total / n * n == total;
    assert c.count as real * c.avg == c.avg * c.count as real;
  }

  // ----- what a counter should hold -----

  ghost predicate IsGreatest<T(!new)>(max: int, entries: set<T>, value: T -> int) {
    && max >= 0
    && (forall x | x in entries :: value(x) <= max)
    && (max == 0 || exists x | x in entries :: value(x) == max)
  }

  /** The counter holds the number of the entries, and the sum, the mean and the maximum of their values. */
  ghost predicate Summarises<T(!new)>(c: Counter, entries: set<T>, value: T -> int) {
    && c.count == |entries|
    && c.sum == SumOver(entries, value)
    && Averages(c)
    && IsGreatest(c.max, entries, value)
  }

  lemma NothingSummarised<T(!new)>(value: T -> int, prCount: int)
    ensures Summarises(ZERO.(prCount := prCount), {}, value)
  {
  }

  /** Adding a value is adding an entry, whatever came before. */
  lemma AddSummarises<T(!new)>(c: Counter, entries: set<T>, value: T -> int, x: T)
    requires Summarises(c, entries, value) && x !in entries
    ensures Summarises(Add(c, value(x)), entries + {x}, value)
  {
    SumAdds(entries, value, x);
    AddKeepsAverage(c, value(x));
    GreatestOfMore(c.max, entries, value, x);
  }

  lemma GreatestOfMore<T(!new)>(max: int, entries: set<T>, value: T -> int, x: T)
    requires IsGreatest(max, entries, value)
    ensures IsGreatest(if value(x) > max then value(x) else max, entries + {x}, value)
  {
    if value(x) > max {
      assert x in entries + {x};
    } else if max != 0 {
      var y :| y in entries && value(y) == max;
      assert y in entries + {x};
    }
  }

  // ----- shares -----

  /** A float comparison: not a number reaches nothing. */
  predicate Reaches(share: Percentage, threshold: real) {
    match share
    case Finite(value) => threshold <= value
    case PlusInf => true
    case _ => false
  }

  /** The category with the highest threshold the share reaches; the one there was before if it
      reaches none. */
  ghost predicate IsCategoryOf(category: Option<ShareCategory>, before: Option<ShareCategory>, share: Percentage) {
    if !Reaches(share, 0.25) then category == before
    else
      && category.Some? && category.value in SHARE_CATEGORIES && Reaches(share, category.value.minPercentage)
      && forall c | c in SHARE_CATEGORIES && Reaches(share, c.minPercentage) :: c.minPercentage <= category.value.minPercentage
  }

  lemma CategoriesAscend()
    ensures SHARE_CATEGORIES[0].minPercentage == 0.25
    ensures forall k, l | 0 <= k < l < |SHARE_CATEGORIES| :: SHARE_CATEGORIES[k].minPercentage < SHARE_CATEGORIES[l].minPercentage
  {
  }

  /** The first `n` categories have been looked at. */
  ghost predicate CategoryAmong(n: nat, category: Option<ShareCategory>, before: Option<ShareCategory>, share: Percentage)
    requires n <= |SHARE_CATEGORIES|
  {
    if forall k | 0 <= k < n :: !Reaches(share, SHARE_CATEGORIES[k].minPercentage) then category == before
    else exists k | 0 <= k < n ::
        && category == Some(SHARE_CATEGORIES[k]) && Reaches(share, SHARE_CATEGORIES[k].minPercentage)
        && forall l | k < l < n :: !Reaches(share, SHARE_CATEGORIES[l].minPercentage)
  }

  lemma HighestIsCategory(category: Option<ShareCategory>, before: Option<ShareCategory>, share: Percentage)
    requires CategoryAmong(|SHARE_CATEGORIES|, category, before, share)
    ensures IsCategoryOf(category, before, share)
  {
    CategoriesAscend();
    if Reaches(share, 0.25) {
      assert Reaches(share, SHARE_CATEGORIES[0].minPercentage);
    }
  }

  /** Later categories overwrite earlier ones. */
  method CategoryOf(share: Percentage, before: Option<ShareCategory>) returns (category: Option<ShareCategory>)
    ensures IsCategoryOf(category, before, share)
  {
    category := before;
    for i := 0 to |SHARE_CATEGORIES|
      invariant CategoryAmong(i, category, before, share)
    {
      if Reaches(share, SHARE_CATEGORIES[i].minPercentage) {
        category := Some(SHARE_CATEGORIES[i]);
      }
    }
    HighestIsCategory(category, before, share);
  }

  function Share(sum: int, total: int): real
    requires total != 0
  {
    sum as real / total as real * 100.0
  }

  function SharePercent(sum: int, total: int): Percentage {
    if total != 0 then Finite(Share(sum, total))
    else if sum == 0 then NaN
    else if sum > 0 then PlusInf
    else MinusInf
  }

  /** Only the share and its category have been set. */
  ghost predicate ShareSet(before: Counter, after: Counter, total: int) {
    && after == before.(sharePercent := SharePercent(before.sum, total), category := after.category)
    && IsCategoryOf(after.category, before.category, after.sharePercent)
  }

  method SetShare(c: Counter, total: int) returns (r: Counter)
    ensures ShareSet(c, r, total)
  {
    var share := SharePercent(c.sum, total);
    var category := CategoryOf(share, c.category);
    r := c.(sharePercent := share, category := category);
  }

  // ----- counters of a test -----

  type Counters = map<string, Counter>

  function CounterSums(m: Counters): string -> int {
    k => if k in m then m[k].sum else 0
  }

  ghost function SumOfCounters(m: Counters): int {
    SumOver(m.Keys, CounterSums(m))
  }

  function At(m: Counters, key: string): Counter {
    if key in m then m[key] else ZERO
  }

  function Bump(m: Counters, key: string, value: int, prs: int): Counters {
    var c := At(m, key);
    m[key := Add(c.(prCount := c.prCount + prs), value)]
  }

  lemma BumpAdds(m: Counters, key: string, value: int, prs: int)
    ensures SumOfCounters(Bump(m, key, value, prs)) == SumOfCounters(m) + value
  {
    var bumped := Bump(m, key, value, prs);
    if key in m {
      assert bumped.Keys == m.Keys;
      SumChangesAt(m.Keys, CounterSums(m), CounterSums(bumped), key);
    } else {
      assert bumped.Keys == m.Keys + {key};
      SumAdds(m.Keys, CounterSums(bumped), key);
      SumOfEqual(m.Keys, CounterSums(m), CounterSums(bumped));
    }
  }

  datatype TestStats = TestStats(all: Counter, perDay: Counters, perLane: Counters)

  const NEW_TEST := TestStats(ZERO, map[], map[])

  /** Overall, per day and per lane the same failures are counted. */
  ghost predicate Consistent(t: TestStats) {
    t.all.sum == SumOfCounters(t.perDay) == SumOfCounters(t.perLane)
  }

  function Record(t: TestStats, day: string, lane: string, failed: int, prs: int): TestStats {
    TestStats(Add(t.all, failed), Bump(t.perDay, day, failed, prs), Bump(t.perLane, lane, failed, 0))
  }

  lemma RecordKeepsConsistency(t: TestStats, day: string, lane: string, failed: int, prs: int)
    requires Consistent(t)
    ensures Consistent(Record(t, day, lane, failed, prs))
  {
    BumpAdds(t.perDay, day, failed, prs);
    BumpAdds(t.perLane, lane, failed, 0);
  }

  // ----- aggregation of reports -----

  type Tests = map<string, TestStats>

  datatype Report = Report(startOfReport: string, tests: seq<string>, prs: nat, data: Data)

  /** What the options decide: the name tests are aggregated under, ignored tests, filtered lanes. */
  datatype Options = Options(normalize: string -> string, ignored: set<string>, keepsLane: string -> bool)

  /** One of the places a test's failures are counted in. */
  datatype Place = Everywhere | OnDay(day: string) | InLane(lane: string)

  function Lookup(m: Counters, key: string): Option<Counter> {
    if key in m then Some(m[key]) else None
  }

  function CounterIn(t: TestStats, p: Place): Option<Counter> {
    match p
    case Everywhere => Some(t.all)
    case OnDay(d) => Lookup(t.perDay, d)
    case InLane(l) => Lookup(t.perLane, l)
  }

  function CounterOf(tests: Tests, test: string, p: Place): Option<Counter> {
    if test in tests then CounterIn(tests[test], p) else None
  }

  // ----- what the statistics should hold -----

  /** A failing cell: the `position`-th test of report number `report` has failed in a lane. */
  datatype Hit = Hit(report: nat, position: nat, test: string, day: string, lane: string, failed: int, prs: nat)

  predicate Covers(p: Place, h: Hit) {
    match p
    case Everywhere => true
    case OnDay(d) => d == h.day
    case InLane(l) => l == h.lane
  }

  function HitsAt(hits: set<Hit>, test: string, p: Place): set<Hit> {
    set h | h in hits && h.test == test && Covers(p, h)
  }

  function Failed(): Hit -> int {
    (h: Hit) => h.failed
  }

  function PullRequests(): Hit -> int {
    (h: Hit) => h.prs
  }

  /** A counter is there exactly if there is something to count. It holds the number of the hits of
      its test and place, and the sum, mean and maximum of their failures; the counter of a day adds
      up the pull requests of its hits' reports. Shares come later. */
  ghost predicate CounterHolds(c: Option<Counter>, hits: set<Hit>, p: Place) {
    match c
    case None => hits == {}
    case Some(c) =>
      && hits != {}
      && Summarises(c, hits, Failed())
      && c.prCount == (if p.OnDay? then SumOver(hits, PullRequests()) else 0)
      && c.sharePercent == Finite(0.0) && c.category.None?
  }

  ghost predicate Holds(tests: Tests, hits: set<Hit>) {
    forall t, p :: HoldsAt(tests, hits, t, p)
  }

  ghost predicate HoldsAt(tests: Tests, hits: set<Hit>, test: string, p: Place) {
    CounterHolds(CounterOf(tests, test, p), HitsAt(hits, test, p), p)
  }

  /** The counter of a place after one more hit there. */
  function NextCounter(c: Option<Counter>, p: Place, h: Hit): Option<Counter> {
    var before := if c.Some? then c.value else ZERO;
    Some(Add(before.(prCount := before.prCount + (if p.OnDay? then h.prs else 0)), h.failed))
  }

  lemma CounterHoldsNext(c: Option<Counter>, hits: set<Hit>, p: Place, h: Hit, next: Option<Counter>)
    requires CounterHolds(c, hits, p) && h !in hits && next == NextCounter(c, p, h)
    ensures CounterHolds(next, hits + {h}, p)
  {
    var before := if c.Some? then c.value else ZERO;
    var prs := if p.OnDay? then h.prs else 0;
    PullRequestsAdd(before.prCount, hits, p, h);
    if c.None? {
      NothingSummarised(Failed(), 0);
    }
    HitSummarised(before, before.prCount + prs, hits, h);
    assert h in hits + {h};
  }

  lemma PullRequestsAdd(prCount: int, hits: set<Hit>, p: Place, h: Hit)
    requires h !in hits && prCount == if p.OnDay? then SumOver(hits, PullRequests()) else 0
    ensures prCount + (if p.OnDay? then h.prs else 0) == if p.OnDay? then SumOver(hits + {h}, PullRequests()) else 0
  {
    SumAdds(hits, PullRequests(), h);
    assert PullRequests()(h) == h.prs;
  }

  lemma HitSummarised(before: Counter, prCount: int, hits: set<Hit>, h: Hit)
    requires Summarises(before, hits, Failed()) && h !in hits
    ensures Summarises(Add(before.(prCount := prCount), h.failed), hits + {h}, Failed())
  {
    assert Failed()(h) == h.failed;
    AddSummarises(before.(prCount := prCount), hits, Failed(), h);
  }

  function Recorded(tests: Tests, h: Hit): Tests {
    var before := if h.test in tests then tests[h.test] else NEW_TEST;
    tests[h.test := Record(before, h.day, h.lane, h.failed, h.prs)]
  }

  lemma RecordedCounter(tests: Tests, h: Hit, p: Place)
    requires Covers(p, h)
    ensures CounterOf(Recorded(tests, h), h.test, p) == NextCounter(CounterOf(tests, h.test, p), p, h)
  {
  }

  lemma NothingElseRecorded(tests: Tests, h: Hit, t: string, p: Place)
    requires t != h.test || !Covers(p, h)
    ensures CounterOf(Recorded(tests, h), t, p) == CounterOf(tests, t, p)
  {
  }

  lemma HitsAtNext(hits: set<Hit>, h: Hit, t: string, p: Place)
    ensures HitsAt(hits + {h}, t, p) == if t == h.test && Covers(p, h) then HitsAt(hits, t, p) + {h} else HitsAt(hits, t, p)
  {
  }

  lemma RecordHoldsHere(tests: Tests, hits: set<Hit>, h: Hit, p: Place)
    requires HoldsAt(tests, hits, h.test, p) && h !in hits && Covers(p, h)
    ensures HoldsAt(Recorded(tests, h), hits + {h}, h.test, p)
  {
    var c, here := CounterOf(tests, h.test, p), HitsAt(hits, h.test, p);
    HitsAtNext(hits, h, h.test, p);
    RecordedCounter(tests, h, p);
    CounterHoldsNext(c, here, p, h, NextCounter(c, p, h));
  }

  lemma RecordHoldsElsewhere(tests: Tests, hits: set<Hit>, h: Hit, t: string, p: Place)
    requires HoldsAt(tests, hits, t, p) && (t != h.test || !Covers(p, h))
    ensures HoldsAt(Recorded(tests, h), hits + {h}, t, p)
  {
    HitsAtNext(hits, h, t, p);
    NothingElseRecorded(tests, h, t, p);
  }

  lemma RecordHolds(tests: Tests, hits: set<Hit>, h: Hit)
    requires Holds(tests, hits) && h !in hits
    ensures Holds(Recorded(tests, h), hits + {h})
  {
    forall t, p
      ensures HoldsAt(Recorded(tests, h), hits + {h}, t, p)
    {
      if t == h.test && Covers(p, h) {
        RecordHoldsHere(tests, hits, h, p);
      } else {
        RecordHoldsElsewhere(tests, hits, h, t, p);
      }
    }
  }

  /** A cell counts for a test of a report if it belongs to it, its lane is kept and something failed. */
  predicate Counts(opts: Options, report: Report, position: nat, c: Cell)
    requires position < |report.tests|
  {
    && c in report.data && c.test == report.tests[position]
    && opts.normalize(c.test) !in opts.ignored && opts.keepsLane(c.lane) && report.data[c].failed != 0
  }

  function HitOf(opts: Options, report: Report, r: nat, position: nat, c: Cell): Hit
    requires position < |report.tests| && c in report.data
  {
    Hit(r, position, opts.normalize(report.tests[position]), report.startOfReport, c.lane, report.data[c].failed, report.prs)
  }

  /** The failing cells of one test of report number `r`. */
  ghost function HitsOfTest(opts: Options, report: Report, r: nat, position: nat, cells: set<Cell>): set<Hit>
    requires position < |report.tests| && cells <= report.data.Keys
  {
    set c | c in cells && Counts(opts, report, position, c) :: HitOf(opts, report, r, position, c)
  }

  /** The failing cells of the first `n` tests of report number `r`. */
  ghost function HitsOfReport(opts: Options, report: Report, r: nat, n: nat): set<Hit>
    requires n <= |report.tests|
  {
    set i, c | 0 <= i < n && c in report.data && Counts(opts, report, i, c) :: HitOf(opts, report, r, i, c)
  }

  /** All failing cells of the reports. */
  ghost function AllHits(opts: Options, reports: seq<Report>): set<Hit> {
    set r, i, c | 0 <= r < |reports| && 0 <= i < |reports[r].tests| && c in reports[r].data && Counts(opts, reports[r], i, c)
      :: HitOf(opts, reports[r], r, i, c)
  }

  lemma HitsOfReportNext(opts: Options, report: Report, r: nat, n: nat)
    requires n < |report.tests|
    ensures HitsOfReport(opts, report, r, n + 1)
         == HitsOfReport(opts, report, r, n) + HitsOfTest(opts, report, r, n, report.data.Keys)
  {
  }

  lemma AllHitsNext(opts: Options, reports: seq<Report>, r: nat)
    requires r < |reports|
    ensures AllHits(opts, reports[..r + 1])
         == AllHits(opts, reports[..r]) + HitsOfReport(opts, reports[r], r, |reports[r].tests|)
  {
  }

  /** So the pull requests of a day are counted once for every failing cell of the test. */
  lemma PullRequestsCountPerLane(c: Counter, hits: set<Hit>, day: string, prs: nat)
    requires CounterHolds(Some(c), hits, OnDay(day)) && forall h | h in hits :: h.prs == prs
    ensures c.prCount == c.count * prs
  {
    SumOfConstant(hits, PullRequests(), prs);
  }

  class FlakeStats {
    const opts: Options
    var tests: Tests
    /** The failing cells recorded so far. */
    ghost var recorded: set<Hit>

    ghost predicate Valid()
      reads this
    {
      Holds(tests, recorded) && forall t | t in tests :: Consistent(tests[t])
    }

    constructor (opts: Options)
      ensures Valid() && tests == map[] && recorded == {} && this.opts == opts
    {
      this.opts, tests, recorded := opts, map[], {};
    }

    method RecordCell(normalized: string, day: string, lane: string, failed: int, prs: nat, ghost hit: Hit)
      requires Valid() && hit !in recorded
      requires hit == Hit(hit.report, hit.position, normalized, day, lane, failed, prs)
      modifies this
      ensures Valid() && recorded == old(recorded) + {hit}
    {
      var current := if normalized in tests then tests[normalized] else NEW_TEST;
      RecordKeepsConsistency(current, day, lane, failed, prs);
      ghost var before := tests;
      tests := tests[normalized := Record(current, day, lane, failed, prs)];
      RecordHolds(before, recorded, hit);
      recorded := recorded + {hit};
    }

    /** Everything recorded comes before a test of a report. */
    ghost predicate RecordedBefore(r: nat, position: nat)
      reads this
    {
      forall h | h in recorded :: h.report < r || (h.report == r && h.position < position)
    }

    /** The lanes of a test, in any order. */
    method AggregateFailuresPerJob(report: Report, original: string, normalized: string, ghost r: nat, ghost position: nat)
      requires Valid() && RecordedBefore(r, position)
      requires position < |report.tests| && original == report.tests[position]
      requires normalized == opts.normalize(original) && normalized !in opts.ignored
      modifies this
      ensures Valid() && recorded == old(recorded) + HitsOfTest(opts, report, r, position, report.data.Keys)
    {
      var todo := report.data.Keys;
      while todo != {}
        invariant todo <= report.data.Keys
        invariant Valid()
        invariant recorded == old(recorded) + HitsOfTest(opts, report, r, position, report.data.Keys - todo)
        decreases todo
      {
        var c :| c in todo;
        if c.test == original && opts.keepsLane(c.lane) && report.data[c].failed != 0 {
          ghost var hit := HitOf(opts, report, r, position, c);
          RecordCell(normalized, report.startOfReport, c.lane, report.data[c].failed, report.prs, hit);
        }
        todo := todo - {c};
      }
      VisitAll(report.data.Keys);
    }

    method AggregateReport(report: Report, ghost r: nat)
      requires Valid() && RecordedBefore(r, 0)
      modifies this
      ensures Valid() && recorded == old(recorded) + HitsOfReport(opts, report, r, |report.tests|)
    {
      for i := 0 to |report.tests|
        invariant Valid() && RecordedBefore(r, i)
        invariant recorded == old(recorded) + HitsOfReport(opts, report, r, i)
      {
        HitsOfReportNext(opts, report, r, i);
        var normalized := opts.normalize(report.tests[i]);
        if normalized in opts.ignored {
          continue;
        }
        AggregateFailuresPerJob(report, report.tests[i], normalized, r, i);
      }
    }

    /** After all reports every counter holds exactly the failing cells of its test and place. */
    method AggregateTopXTests(reports: seq<Report>)
      requires Valid() && tests == map[] && recorded == {}
      modifies this
      ensures Valid() && recorded == AllHits(opts, reports)
    {
      for i := 0 to |reports|
        invariant Valid() && RecordedBefore(i, 0)
        invariant recorded == AllHits(opts, reports[..i])
      {
        AllHitsNext(opts, reports, i);
        AggregateReport(reports[i], i);
      }
      assert reports[..|reports|] == reports;
    }

    /** The totals of all tests, and every test's share of them. */
    method CalculateShareFromTotalFailures() returns (overall: TestStats, ghost totals: TestStats)
      requires forall t | t in tests :: Consistent(tests[t])
      modifies `tests
      ensures Consistent(totals) && TotalsHold(totals, old(tests), old(tests).Keys)
      ensures SharesSet(old(tests), tests, totals.all.sum) && TestShares(totals, overall, totals.all.sum)
    {
      overall := Overall(tests);
      totals := overall;
      tests := SetAllShares(tests, overall.all.sum);
      overall := SetTestShares(overall, overall.all.sum);
    }
  }

  // ----- totals over all tests -----

  function SumsAt(tests: Tests, p: Place): string -> int {
    t => var c := CounterOf(tests, t, p); if c.Some? then c.value.sum else 0
  }

  /** The tests that have a counter at place `p`, among `names`. */
  function TestsAt(tests: Tests, p: Place, names: set<string>): set<string> {
    set t | t in names && CounterOf(tests, t, p).Some?
  }

  /** A total summarises the sums of the tests that have a counter at its place. It counts no pull requests. */
  ghost predicate TotalHolds(c: Option<Counter>, tests: Tests, p: Place, names: set<string>) {
    match c
    case None => TestsAt(tests, p, names) == {}
    case Some(c) =>
      && Summarises(c, TestsAt(tests, p, names), SumsAt(tests, p))
      && c.prCount == 0 && c.sharePercent == Finite(0.0) && c.category.None?
  }

  ghost predicate TotalsHold(overall: TestStats, tests: Tests, names: set<string>) {
    forall p :: TotalHolds(CounterIn(overall, p), tests, p, names)
  }

  /** `r` is `total` with the sums of the counters of `m` that are not in `todo` added, key by key. */
  ghost predicate CountersAdded(total: Counters, m: Counters, todo: set<string>, r: Counters) {
    && SumOfCounters(r) == SumOfCounters(total) + SumOver(m.Keys - todo, CounterSums(m))
    && forall k :: Lookup(r, k) == if k in m.Keys - todo then Some(Add(At(total, k), m[k].sum)) else Lookup(total, k)
  }

  lemma CountersAddedNext(total: Counters, m: Counters, todo: set<string>, k: string, r: Counters)
    requires k in todo && todo <= m.Keys && CountersAdded(total, m, todo, r)
    ensures CountersAdded(total, m, todo - {k}, Bump(r, k, m[k].sum, 0))
  {
    SumVisits(m.Keys, todo, CounterSums(m), k);
    BumpAdds(r, k, m[k].sum, 0);
    assert Lookup(r, k) == Lookup(total, k);
  }

  method AddCounters(total: Counters, m: Counters) returns (r: Counters)
    ensures CountersAdded(total, m, {}, r)
  {
    r := total;
    var todo := m.Keys;
    SumStartsAtZero(m.Keys, CounterSums(m));
    while todo != {}
      invariant todo <= m.Keys
      invariant CountersAdded(total, m, todo, r)
      decreases todo
    {
      var k :| k in todo;
      CountersAddedNext(total, m, todo, k, r);
      r := Bump(r, k, m[k].sum, 0);
      todo := todo - {k};
    }
  }

  /** The totals with a test added. */
  ghost predicate TestAdded(overall: TestStats, t: TestStats, r: TestStats) {
    && r.all == Add(overall.all, t.all.sum)
    && CountersAdded(overall.perDay, t.perDay, {}, r.perDay)
    && CountersAdded(overall.perLane, t.perLane, {}, r.perLane)
  }

  lemma AddedCounter(overall: TestStats, t: TestStats, r: TestStats, p: Place)
    requires TestAdded(overall, t, r)
    ensures var before, added := CounterIn(overall, p), CounterIn(t, p);
            CounterIn(r, p) == if added.Some? then Some(Add(if before.Some? then before.value else ZERO, added.value.sum)) else before
  {
  }

  lemma TestsAtNext(tests: Tests, p: Place, done: set<string>, t: string)
    ensures TestsAt(tests, p, done + {t})
         == if CounterOf(tests, t, p).Some? then TestsAt(tests, p, done) + {t} else TestsAt(tests, p, done)
  {
  }

  lemma TotalNext(before: Option<Counter>, tests: Tests, p: Place, done: set<string>, t: string)
    requires t in tests && t !in done && TotalHolds(before, tests, p, done)
    ensures var added := CounterIn(tests[t], p);
            var start := if before.Some? then before.value else ZERO;
            TotalHolds(if added.Some? then Some(Add(start, added.value.sum)) else before, tests, p, done + {t})
  {
    var names, value := TestsAt(tests, p, done), SumsAt(tests, p);
    TestsAtNext(tests, p, done, t);
    if CounterIn(tests[t], p).Some? {
      NothingSummarised(value, 0);
      AddSummarises(if before.Some? then before.value else ZERO, names, value, t);
    }
  }

  lemma TotalsNext(overall: TestStats, tests: Tests, done: set<string>, t: string, r: TestStats)
    requires t in tests && t !in done && TotalsHold(overall, tests, done)
    requires TestAdded(overall, tests[t], r)
    ensures TotalsHold(r, tests, done + {t})
  {
    forall p
      ensures TotalHolds(CounterIn(r, p), tests, p, done + {t})
    {
      AddedCounter(overall, tests[t], r, p);
      assert TotalHolds(CounterIn(overall, p), tests, p, done);
      TotalNext(CounterIn(overall, p), tests, p, done, t);
    }
  }

  lemma NoTotals(tests: Tests)
    ensures Consistent(NEW_TEST) && TotalsHold(NEW_TEST, tests, {})
  {
    forall p
      ensures TotalHolds(CounterIn(NEW_TEST, p), tests, p, {})
    {
      assert TestsAt(tests, p, {}) == {};
      NothingSummarised(SumsAt(tests, p), 0);
    }
  }

  method AddTest(overall: TestStats, tests: Tests, ghost done: set<string>, t: string) returns (r: TestStats)
    requires t in tests && t !in done && Consistent(tests[t])
    requires Consistent(overall) && TotalsHold(overall, tests, done)
    ensures Consistent(r) && TotalsHold(r, tests, done + {t})
  {
    var perDay := AddCounters(overall.perDay, tests[t].perDay);
    var perLane := AddCounters(overall.perLane, tests[t].perLane);
    r := TestStats(Add(overall.all, tests[t].all.sum), perDay, perLane);
    TotalsNext(overall, tests, done, t, r);
    SumStartsAtZero(tests[t].perDay.Keys, CounterSums(tests[t].perDay));
    SumStartsAtZero(tests[t].perLane.Keys, CounterSums(tests[t].perLane));
  }

  method Overall(tests: Tests) returns (overall: TestStats)
    requires forall t | t in tests :: Consistent(tests[t])
    ensures Consistent(overall) && TotalsHold(overall, tests, tests.Keys)
  {
    overall := NEW_TEST;
    var todo := tests.Keys;
    NoTotals(tests);
    VisitAll(tests.Keys);
    while todo != {}
      invariant todo <= tests.Keys
      invariant Consistent(overall) && TotalsHold(overall, tests, tests.Keys - todo)
      decreases todo
    {
      var t :| t in todo;
      overall := AddTest(overall, tests, tests.Keys - todo, t);
      VisitOne(tests.Keys, todo, t);
      todo := todo - {t};
    }
  }

  // ----- shares of all tests -----

  ghost predicate CounterShares(before: Counters, after: Counters, total: int)
  {
    && before.Keys == after.Keys
    && forall k | k in before :: ShareSet(before[k], after[k], total)
  }

  ghost predicate TestShares(before: TestStats, after: TestStats, total: int)
  {
    && ShareSet(before.all, after.all, total)
    && CounterShares(before.perDay, after.perDay, total)
    && CounterShares(before.perLane, after.perLane, total)
  }

  ghost predicate SharesSet(before: Tests, after: Tests, total: int)
  {
    before.Keys == after.Keys && forall t | t in before :: TestShares(before[t], after[t], total)
  }

  method SetCounterShares(m: Counters, total: int) returns (r: Counters)
    ensures CounterShares(m, r, total)
  {
    r := m;
    var todo := m.Keys;
    while todo != {}
      invariant todo <= m.Keys == r.Keys
      invariant forall k | k in m.Keys - todo :: ShareSet(m[k], r[k], total)
      invariant forall k | k in todo :: r[k] == m[k]
      decreases todo
    {
      var k :| k in todo;
      var c := SetShare(r[k], total);
      r := r[k := c];
      todo := todo - {k};
    }
  }

  method SetTestShares(t: TestStats, total: int) returns (r: TestStats)
    ensures TestShares(t, r, total)
  {
    var all := SetShare(t.all, total);
    var perLane := SetCounterShares(t.perLane, total);
    var perDay := SetCounterShares(t.perDay, total);
    r := TestStats(all, perDay, perLane);
  }

  method SetAllShares(tests: Tests, total: int) returns (r: Tests)
    ensures SharesSet(tests, r, total)
  {
    r := tests;
    var todo := tests.Keys;
    while todo != {}
      invariant todo <= tests.Keys == r.Keys
      invariant forall t | t in tests.Keys - todo :: TestShares(tests[t], r[t], total)
      invariant forall t | t in todo :: r[t] == tests[t]
      decreases todo
    {
      var t :| t in todo;
      var shared := SetTestShares(r[t], total);
      r := r[t := shared];
      todo := todo - {t};
    }
  }

  function Value(share: Percentage): real {
    if share.Finite? then share.value else 0.0
  }

  function SharesOfTests(tests: Tests): string -> real {
    t => if t in tests then Value(tests[t].all.sharePercent) else 0.0
  }

  function SharesOf(m: Counters): string -> real {
    k => if k in m then Value(m[k].sharePercent) else 0.0
  }

  function ShareOf(total: int): int -> real
    requires total != 0
  {
    (sum: int) => Share(sum, total)
  }

  lemma ShareAdds(a: int, b: int, total: int)
    requires total != 0
    ensures Share(a + b, total) == Share(a, total) + Share(b, total)
  {
    var x, y, n := a as real, b as real, total as real;
    assert (a + b) as real == x + y;
    assert (x + y) / n == x / n + y / n;
  }

  lemma SharesAreAdditive(total: int)
    requires total != 0
    ensures Additive(ShareOf(total))
  {
    forall a, b, c | c == a + b
      ensures ShareOf(total)(c) == ShareOf(total)(a) + ShareOf(total)(b)
    {
      ShareAdds(a, b, total);
    }
  }

  lemma HundredPercent(total: int)
    requires total != 0
    ensures Share(total, total) == 100.0
  {
    var n := total as real;
    assert n != 0.0;
    assert n / n == 1.0;
  }

  lemma TotalOfAll(tests: Tests, totals: TestStats)
    requires TotalsHold(totals, tests, tests.Keys)
    ensures totals.all.sum == SumOver(tests.Keys, SumsAt(tests, Everywhere))
  {
    assert TotalHolds(CounterIn(totals, Everywhere), tests, Everywhere, tests.Keys);
    assert TestsAt(tests, Everywhere, tests.Keys) == tests.Keys;
  }

  /** The shares of the tests add up to 100 percent. */
  lemma SharesAddUpTo100(before: Tests, totals: TestStats, after: Tests)
    requires TotalsHold(totals, before, before.Keys) && totals.all.sum != 0
    requires SharesSet(before, after, totals.all.sum)
    ensures SumOfReals(after.Keys, SharesOfTests(after)) == 100.0
  {
    var total := totals.all.sum;
    TotalOfAll(before, totals);
    SharesAreAdditive(total);
    assert forall t | t in before :: TestShares(before[t], after[t], total);
    SumOfImages(after.Keys, SumsAt(before, Everywhere), ShareOf(total), SharesOfTests(after));
    HundredPercent(total);
  }

  /** The shares of a test's lanes, and of its days, add up to the share of the test. */
  lemma PartsAddUpToTheirTest(before: TestStats, after: TestStats, total: int)
    requires total != 0 && Consistent(before) && TestShares(before, after, total)
    ensures SumOfReals(after.perLane.Keys, SharesOf(after.perLane)) == Value(after.all.sharePercent)
    ensures SumOfReals(after.perDay.Keys, SharesOf(after.perDay)) == Value(after.all.sharePercent)
  {
    CounterSharesAddUp(before.perLane, after.perLane, total);
    CounterSharesAddUp(before.perDay, after.perDay, total);
  }

  lemma CounterSharesAddUp(before: Counters, after: Counters, total: int)
    requires total != 0 && CounterShares(before, after, total)
    ensures SumOfReals(after.Keys, SharesOf(after)) == Share(SumOfCounters(before), total)
  {
    SharesAreAdditive(total);
    SumOfImages(after.Keys, CounterSums(before), ShareOf(total), SharesOf(after));
  }
}
