/** Building the flake report from the results of many builds. */
module FlakeReport {
  import opened Strings
  import opened Sorting
  import opened Counting
  import opened Sums
  import opened JUnitMerge
  import opened FlakeRanking

  datatype Run = Run(job: string, buildNumber: nat, pr: int, batchPRs: seq<int>, commitID: string)

  datatype JobResult = JobResult(run: Run, junit: seq<Suite>)

  datatype JobFailures = JobFailures(run: Run, failures: int)

  // ----- the test results as one list -----

  datatype Event = Event(run: Run, test: string, status: Status)

  function EventsOfTests(run: Run, tests: seq<Test>): (es: seq<Event>)
    ensures |es| == |tests| && forall i | 0 <= i < |es| :: es[i] == Event(run, tests[i].name, tests[i].status)
  {
    seq(|tests|, i requires 0 <= i < |tests| => Event(run, tests[i].name, tests[i].status))
  }

  function AllEvents(results: seq<JobResult>): seq<Event> {
    if results == [] then []
    else AllEvents(results[..|results| - 1])
         + EventsOfTests(results[|results| - 1].run, SuiteTests(results[|results| - 1].junit))
  }

  function Key(r: Run): string {
    r.job + "-" + Itoa(r.buildNumber)
  }

  function KeyOf(e: Event): string {
    Key(e.run)
  }

  function TestOf(e: Event): string {
    e.test
  }

  function LaneOf(e: Event): string {
    e.run.job
  }

  function CellOf(e: Event): Cell {
    Cell(e.test, e.run.job)
  }

  predicate Fails(e: Event) {
    e.status.Failed? || e.status.Error?
  }

  lemma {:induction false} LastSeparatorSplits(a: string, s: string, b: string, t: string, sep: char)
    requires sep !in s && sep !in t && a + [sep] + s == b + [sep] + t
    ensures a == b && s == t
    decreases |s|
  {
    var x := a + [sep] + s;
    assert x[|x| - 1] == if s == [] then sep else s[|s| - 1];
    assert x[|x| - 1] == if t == [] then sep else t[|t| - 1];
    assert x[..|x| - 1] == if s == [] then a else a + [sep] + s[..|s| - 1];
    assert x[..|x| - 1] == if t == [] then b else b + [sep] + t[..|t| - 1];
    if s != [] && t != [] {
      LastSeparatorSplits(a, s[..|s| - 1], b, t[..|t| - 1], sep);
      assert s == s[..|s| - 1] + [s[|s| - 1]] && t == t[..|t| - 1] + [t[|t| - 1]];
    }
  }

  /** The key of a build tells its job and its number. */
  lemma KeysAreInjective(q: Run, r: Run)
    requires Key(q) == Key(r)
    ensures q.job == r.job && q.buildNumber == r.buildNumber
  {
    assert '-' !in Itoa(q.buildNumber) && '-' !in Itoa(r.buildNumber) by {
      assert forall c | c in Itoa(q.buildNumber) :: IsDigit(c);
      assert forall c | c in Itoa(r.buildNumber) :: IsDigit(c);
    }
    LastSeparatorSplits(q.job, Itoa(q.buildNumber), r.job, Itoa(r.buildNumber), '-');
    ItoaIsInjective(q.buildNumber, r.buildNumber);
  }

  // ----- what the report should contain -----

  /** Failures of a key among the events. */
  function Failures<K(==)>(key: Event -> K, k: K, es: seq<Event>): nat {
    CountIf(WithKey(Fails, key, k), es)
  }

  /** Events of builds with a failure, of tests that failed somewhere. */
  ghost function Relevant(all: seq<Event>): Event -> bool {
    (e: Event) => Failures(KeyOf, Key(e.run), all) > 0 && Failures(TestOf, e.test, all) > 0
  }

  function HasOutcome(rel: Event -> bool, status: Status): Event -> bool {
    (e: Event) => rel(e) && e.status == status
  }

  function RanWithin(rel: Event -> bool): Event -> bool {
    (e: Event) => rel(e) && !e.status.Skipped?
  }

  function EntryOf(e: Event): JobEntry {
    JobEntry(!e.status.Passed?, e.run.buildNumber, e.run.job, e.run.pr, e.run.batchPRs, e.run.commitID)
  }

  /** The job entries of a cell in the order of the events. */
  function Entries(rel: Event -> bool, c: Cell, es: seq<Event>): seq<JobEntry> {
    if es == [] then []
    else Entries(rel, c, es[..|es| - 1])
         + (if RanWithin(rel)(es[|es| - 1]) && CellOf(es[|es| - 1]) == c then [EntryOf(es[|es| - 1])] else [])
  }

  // ----- first pass: failing tests -----

  /** Some result of this very run is a failure. */
  ghost predicate FailsIn(run: Run, done: seq<Event>) {
    exists e | e in done :: Fails(e) && e.run == run
  }

  lemma FailsInStill(run: Run, done: seq<Event>, e: Event)
    requires FailsIn(run, done) || (Fails(e) && e.run == run)
    ensures FailsIn(run, done + [e])
  {
    if Fails(e) && e.run == run {
      assert e in done + [e];
    } else {
      var f :| f in done && Fails(f) && f.run == run;
      assert f in done + [e];
    }
  }

  ghost predicate BuildsCounted(failures: map<string, JobFailures>, done: seq<Event>) {
    && (forall k :: k in failures <==> Failures(KeyOf, k, done) > 0)
    && (forall k | k in failures :: failures[k].failures == Failures(KeyOf, k, done) && Key(failures[k].run) == k)
    && (forall k | k in failures :: FailsIn(failures[k].run, done))
  }

  ghost predicate CellsCounted(data: Data, done: seq<Event>) {
    && (forall c :: c in data <==> Failures(CellOf, c, done) > 0)
    && (forall c | c in data :: data[c] == Details(0, 0, Failures(CellOf, c, done), Unset, [], false))
  }

  /** The names are those of the failing events, each once. */
  ghost predicate Listed(names: seq<string>, nameOf: Event -> string, done: seq<Event>) {
    NoDuplicates(names) && forall n :: n in names <==> Failures(nameOf, n, done) > 0
  }

  ghost predicate AfterFirst(data: Data, tests: seq<string>, headers: seq<string>, failures: map<string, JobFailures>, done: seq<Event>) {
    && BuildsCounted(failures, done)
    && CellsCounted(data, done)
    && Listed(tests, TestOf, done)
    && Listed(headers, LaneOf, done)
  }

  lemma FailuresSnoc<K>(key: Event -> K, done: seq<Event>, e: Event)
    ensures forall k :: Failures(key, k, done + [e]) == Failures(key, k, done) + (if Fails(e) && key(e) == k then 1 else 0)
  {
    assert (done + [e])[..|done|] == done;
  }

  lemma OtherOutcomesDoNotCount(data: Data, tests: seq<string>, headers: seq<string>, failures: map<string, JobFailures>, done: seq<Event>, e: Event)
    requires AfterFirst(data, tests, headers, failures, done) && !Fails(e)
    ensures AfterFirst(data, tests, headers, failures, done + [e])
  {
    FailuresSnoc(KeyOf, done, e);
    FailuresSnoc(TestOf, done, e);
    FailuresSnoc(LaneOf, done, e);
    FailuresSnoc(CellOf, done, e);
  }

  /** What the first pass leaves behind tells the relevant events. */
  lemma RelevanceAgrees(data: Data, tests: seq<string>, headers: seq<string>, failures: map<string, JobFailures>, all: seq<Event>, e: Event)
    requires AfterFirst(data, tests, headers, failures, all)
    ensures (Key(e.run) in failures && e.test in tests) == Relevant(all)(e)
  {
  }

  // ----- second pass: all runs of failing tests in failing builds -----

  ghost predicate AfterSecond(data: Data, base: Data, rel: Event -> bool, done: seq<Event>) {
    && (forall c :: c in data <==> c in base || CountIf(WithKey(rel, CellOf, c), done) > 0)
    && (forall c | c in data :: data[c] == Enriched(base, rel, c, done))
  }

  ghost function Enriched(base: Data, rel: Event -> bool, c: Cell, done: seq<Event>): Details {
    Details(CountIf(WithKey(HasOutcome(rel, Passed), CellOf, c), done),
            CountIf(WithKey(HasOutcome(rel, Skipped), CellOf, c), done),
            if c in base then base[c].failed else 0,
            Unset, Entries(rel, c, done), false)
  }

  function Enrich(d: Details, e: Event): Details {
    match e.status
    case Skipped => d.(skipped := d.skipped + 1)
    case Passed => d.(succeeded := d.succeeded + 1, jobs := d.jobs + [EntryOf(e)])
    case _ => d.(jobs := d.jobs + [EntryOf(e)])
  }

  const NO_DETAILS := Details(0, 0, 0, Unset, [], false)

  function EnrichData(data: Data, e: Event): Data {
    data[CellOf(e) := Enrich(if CellOf(e) in data then data[CellOf(e)] else NO_DETAILS, e)]
  }

  lemma CountSnoc(p: Event -> bool, done: seq<Event>, e: Event)
    ensures CountIf(p, done + [e]) == CountIf(p, done) + (if p(e) then 1 else 0)
  {
    assert (done + [e])[..|done|] == done;
  }

  lemma EnrichedSnoc(base: Data, rel: Event -> bool, c: Cell, done: seq<Event>, e: Event)
    ensures Enriched(base, rel, c, done + [e]) ==
            if rel(e) && CellOf(e) == c then Enrich(Enriched(base, rel, c, done), e) else Enriched(base, rel, c, done)
  {
    assert (done + [e])[..|done|] == done;
  }

  lemma {:induction false} NothingYet(base: Data, rel: Event -> bool, c: Cell, done: seq<Event>)
    requires CountIf(WithKey(rel, CellOf, c), done) == 0 && c !in base
    ensures Enriched(base, rel, c, done) == NO_DETAILS
  {
    if done != [] {
      NothingYet(base, rel, c, done[..|done| - 1]);
    }
  }

  lemma SecondStep(data: Data, base: Data, rel: Event -> bool, done: seq<Event>, e: Event)
    requires AfterSecond(data, base, rel, done)
    ensures AfterSecond(if rel(e) then EnrichData(data, e) else data, base, rel, done + [e])
  {
    var data' := if rel(e) then EnrichData(data, e) else data;
    forall c
      ensures c in data' <==> c in base || CountIf(WithKey(rel, CellOf, c), done + [e]) > 0
    {
      CountSnoc(WithKey(rel, CellOf, c), done, e);
    }
    forall c | c in data'
      ensures data'[c] == Enriched(base, rel, c, done + [e])
    {
      EnrichedSnoc(base, rel, c, done, e);
      if c !in data {
        NothingYet(base, rel, c, done);
      }
    }
  }

  // ----- third pass: severities -----

  ghost predicate AfterThird(data: Data, enriched: Data, rel: Event -> bool, done: seq<Event>) {
    && data.Keys == enriched.Keys
    && forall c | c in data ::
         data[c] == if CountIf(WithKey(rel, CellOf, c), done) > 0
                    then enriched[c].(severity := SeverityOf(enriched[c].failed, enriched[c].succeeded)) else enriched[c]
  }

  function WithSeverity(data: Data, c: Cell): Data {
    if c in data then data[c := data[c].(severity := SeverityOf(data[c].failed, data[c].succeeded))] else data
  }

  lemma ThirdStep(data: Data, enriched: Data, rel: Event -> bool, done: seq<Event>, e: Event)
    requires AfterThird(data, enriched, rel, done)
    ensures AfterThird(if rel(e) then WithSeverity(data, CellOf(e)) else data, enriched, rel, done + [e])
  {
    var data' := if rel(e) then WithSeverity(data, CellOf(e)) else data;
    assert data'.Keys == enriched.Keys;
    forall c | c in data'
      ensures data'[c] == if CountIf(WithKey(rel, CellOf, c), done + [e]) > 0
                          then enriched[c].(severity := SeverityOf(enriched[c].failed, enriched[c].succeeded)) else enriched[c]
    {
      CountSnoc(WithKey(rel, CellOf, c), done, e);
    }
  }

  // ----- the finished report -----

  /** One non-empty commit has both a red and a green entry. */
  ghost predicate Mixed(jobs: seq<JobEntry>) {
    exists a, b | a in jobs && b in jobs :: a.commitID == b.commitID != "" && a.red && !b.red
  }

  predicate BuildLe(a: JobEntry, b: JobEntry) {
    a.buildNumber <= b.buildNumber
  }

  /** What the report says about a cell. */
  ghost predicate CellIsRight(d: Details, c: Cell, all: seq<Event>) {
    var rel := Relevant(all);
    && d.failed == Failures(CellOf, c, all)
    && d.succeeded == CountIf(WithKey(HasOutcome(rel, Passed), CellOf, c), all)
    && d.skipped == CountIf(WithKey(HasOutcome(rel, Skipped), CellOf, c), all)
    && d.severity == SeverityOf(d.failed, d.succeeded)
    && IsSortOf(BuildLe, d.jobs, Entries(rel, c, all))
    && (d.nonDeterministic <==> Mixed(d.jobs))
  }

  /** The cells are those of the relevant events. */
  ghost predicate IsReport(data: Data, all: seq<Event>) {
    && (forall c :: c in data <==> CountIf(WithKey(Relevant(all), CellOf, c), all) > 0)
    && (forall c | c in data :: CellIsRight(data[c], c, all))
  }

  lemma FailingIsRelevant(all: seq<Event>, i: nat)
    requires i < |all| && Fails(all[i])
    ensures Relevant(all)(all[i])
  {
    CountIfBound(WithKey(Fails, KeyOf, KeyOf(all[i])), all);
    CountIfBound(WithKey(Fails, TestOf, TestOf(all[i])), all);
  }

  /** A cell with failures is touched by a relevant event. */
  lemma FailingCellsAreTouched(all: seq<Event>, c: Cell)
    requires Failures(CellOf, c, all) > 0
    ensures CountIf(WithKey(Relevant(all), CellOf, c), all) > 0
  {
    CountIfBound(WithKey(Fails, CellOf, c), all);
    CountIfBound(WithKey(Relevant(all), CellOf, c), all);
    var i :| 0 <= i < |all| && WithKey(Fails, CellOf, c)(all[i]);
    FailingIsRelevant(all, i);
  }

  // ----- conservation -----

  /** The failures of all builds, of all cells and of all results are the same number. */
  lemma FailuresAreConserved(failures: map<string, JobFailures>, data: Data, all: seq<Event>)
    requires forall k :: k in failures <==> Failures(KeyOf, k, all) > 0
    requires forall k | k in failures :: failures[k].failures == Failures(KeyOf, k, all)
    requires IsReport(data, all)
    ensures SumOver(failures.Keys, (k: string) => if k in failures then failures[k].failures else 0) == CountIf(Fails, all)
    ensures SumOver(data.Keys, (c: Cell) => if c in data then data[c].failed else 0) == CountIf(Fails, all)
  {
    forall i | 0 <= i < |all| && Fails(all[i])
      ensures KeyOf(all[i]) in failures.Keys && CellOf(all[i]) in data.Keys
    {
      CountIfBound(WithKey(Fails, KeyOf, KeyOf(all[i])), all);
      FailingIsRelevant(all, i);
      CountIfBound(WithKey(Relevant(all), CellOf, CellOf(all[i])), all);
    }
    CountsByKeyAddUp(Fails, KeyOf, all, failures.Keys);
    CountsByKeyAddUp(Fails, CellOf, all, data.Keys);
    SumOfEqual(failures.Keys, KeyCount(Fails, KeyOf, all), (k: string) => if k in failures then failures[k].failures else 0);
    SumOfEqual(data.Keys, KeyCount(Fails, CellOf, all), (c: Cell) => if c in data then data[c].failed else 0);
  }

  function IsRed(e: JobEntry): bool {
    e.red
  }

  function IsGreen(e: JobEntry): bool {
    !e.red
  }

  lemma {:induction false} EntriesByColour(rel: Event -> bool, c: Cell, es: seq<Event>)
    ensures CountIf(IsGreen, Entries(rel, c, es)) == CountIf(WithKey(HasOutcome(rel, Passed), CellOf, c), es)
    ensures CountIf(IsRed, Entries(rel, c, es)) ==
            CountIf(WithKey(HasOutcome(rel, Failed), CellOf, c), es) + CountIf(WithKey(HasOutcome(rel, Error), CellOf, c), es)
  {
    if es != [] {
      var front, e := es[..|es| - 1], es[|es| - 1];
      EntriesByColour(rel, c, front);
      var last := if RanWithin(rel)(e) && CellOf(e) == c then [EntryOf(e)] else [];
      CountIfConcat(IsGreen, Entries(rel, c, front), last);
      CountIfConcat(IsRed, Entries(rel, c, front), last);
    }
  }

  lemma {:induction false} FailedPlusError(rel: Event -> bool, c: Cell, es: seq<Event>)
    requires forall i | 0 <= i < |es| && Fails(es[i]) :: rel(es[i])
    ensures CountIf(WithKey(HasOutcome(rel, Failed), CellOf, c), es) + CountIf(WithKey(HasOutcome(rel, Error), CellOf, c), es)
            == Failures(CellOf, c, es)
  {
    if es != [] {
      FailedPlusError(rel, c, es[..|es| - 1]);
    }
  }

  /** Every cell has as many red entries as failures and as many green ones as successes. */
  lemma EntriesMatchCounters(d: Details, c: Cell, all: seq<Event>)
    requires CellIsRight(d, c, all)
    ensures CountIf(IsRed, d.jobs) == d.failed
    ensures CountIf(IsGreen, d.jobs) == d.succeeded
  {
    var rel := Relevant(all);
    forall i | 0 <= i < |all| && Fails(all[i])
      ensures rel(all[i])
    {
      FailingIsRelevant(all, i);
    }
    EntriesByColour(rel, c, all);
    FailedPlusError(rel, c, all);
    CountIfPermutation(IsRed, d.jobs, Entries(rel, c, all));
    CountIfPermutation(IsGreen, d.jobs, Entries(rel, c, all));
  }

  // ----- what the entries say -----

  ghost predicate SameBuild(q: Run, r: Run) {
    q.job == r.job && q.buildNumber == r.buildNumber
  }

  /** Relevant are the results of builds in which something failed, for tests that failed somewhere. */
  lemma RelevantIff(all: seq<Event>, e: Event)
    ensures Relevant(all)(e) <==>
              && (exists i | 0 <= i < |all| :: Fails(all[i]) && SameBuild(all[i].run, e.run))
              && (exists i | 0 <= i < |all| :: Fails(all[i]) && all[i].test == e.test)
  {
    CountIfBound(WithKey(Fails, KeyOf, Key(e.run)), all);
    CountIfBound(WithKey(Fails, TestOf, e.test), all);
    forall i | 0 <= i < |all|
      ensures WithKey(Fails, KeyOf, Key(e.run))(all[i]) <==> Fails(all[i]) && SameBuild(all[i].run, e.run)
      ensures WithKey(Fails, TestOf, e.test)(all[i]) <==> Fails(all[i]) && all[i].test == e.test
    {
      var x := all[i];
      assert WithKey(Fails, KeyOf, Key(e.run))(x) == (Fails(x) && KeyOf(x) == Key(e.run));
      assert WithKey(Fails, TestOf, e.test)(x) == (Fails(x) && TestOf(x) == e.test);
      if Key(x.run) == Key(e.run) {
        KeysAreInjective(x.run, e.run);
      }
    }
  }

  /** The entry stands for the result. */
  ghost predicate StandsFor(j: JobEntry, e: Event) {
    && j.buildNumber == e.run.buildNumber && j.job == e.run.job && j.pr == e.run.pr && j.batchPRs == e.run.batchPRs
    && j.commitID == e.run.commitID && (j.red <==> e.status.Failed? || e.status.Error?)
  }

  lemma {:induction false} EntriesHave(rel: Event -> bool, c: Cell, es: seq<Event>, j: JobEntry)
    ensures j in Entries(rel, c, es) <==>
            exists i | 0 <= i < |es| :: rel(es[i]) && !es[i].status.Skipped? && CellOf(es[i]) == c && j == EntryOf(es[i])
  {
    if es != [] {
      var front := es[..|es| - 1];
      EntriesHave(rel, c, front, j);
      assert forall i | 0 <= i < |front| :: front[i] == es[i];
    }
  }

  /** Every entry of a cell stands for a result of its test on its lane that ran, in a build in which
      something failed, of a test that failed somewhere. */
  lemma EntriesNameTheirRuns(d: Details, c: Cell, all: seq<Event>, j: JobEntry) returns (e: Event)
    requires CellIsRight(d, c, all) && j in d.jobs
    ensures e in all && StandsFor(j, e) && e.test == c.test && e.run.job == c.lane && !e.status.Skipped?
    ensures exists i | 0 <= i < |all| :: Fails(all[i]) && SameBuild(all[i].run, e.run)
    ensures exists i | 0 <= i < |all| :: Fails(all[i]) && all[i].test == c.test
  {
    MultisetMembers(d.jobs, Entries(Relevant(all), c, all));
    EntriesHave(Relevant(all), c, all, j);
    var i :| 0 <= i < |all| && Relevant(all)(all[i]) && !all[i].status.Skipped? && CellOf(all[i]) == c && j == EntryOf(all[i]);
    e := all[i];
    RelevantIff(all, e);
  }

  /** And every such result has its entry. */
  lemma EveryRunHasItsEntry(d: Details, c: Cell, all: seq<Event>, e: Event) returns (j: JobEntry)
    requires CellIsRight(d, c, all)
    requires e in all && e.test == c.test && e.run.job == c.lane && !e.status.Skipped?
    requires exists i | 0 <= i < |all| :: Fails(all[i]) && SameBuild(all[i].run, e.run)
    requires exists i | 0 <= i < |all| :: Fails(all[i]) && all[i].test == c.test
    ensures j in d.jobs && StandsFor(j, e)
  {
    RelevantIff(all, e);
    j := EntryOf(e);
    EntriesHave(Relevant(all), c, all, j);
    MultisetMembers(d.jobs, Entries(Relevant(all), c, all));
  }

  lemma EntriesAscend(d: Details, c: Cell, all: seq<Event>)
    requires CellIsRight(d, c, all)
    ensures forall i, k | 0 <= i < k < |d.jobs| :: d.jobs[i].buildNumber <= d.jobs[k].buildNumber
  {
    assert forall i, k | 0 <= i < k < |d.jobs| :: BuildLe(d.jobs[i], d.jobs[k]);
  }

  // ----- the procedures -----

  class FlakeReportBuilder {
    var data: Data
    var tests: seq<string>
    var headers: seq<string>
    var failuresForJobs: map<string, JobFailures>

    ghost predicate FirstDone(done: seq<Event>)
      reads this
    {
      AfterFirst(data, tests, headers, failuresForJobs, done)
    }

    constructor ()
      ensures FirstDone([])
    {
      data, tests, headers, failuresForJobs := map[], [], [], map[];
    }

    method CountBuild(run: Run, ghost done: seq<Event>, ghost e: Event)
      requires BuildsCounted(failuresForJobs, done) && Fails(e) && e.run == run
      modifies `failuresForJobs
      ensures BuildsCounted(failuresForJobs, done + [e])
    {
      FailuresSnoc(KeyOf, done, e);
      var key := Key(run);
      if key !in failuresForJobs {
        failuresForJobs := failuresForJobs[key := JobFailures(run, 0)];
      }
      failuresForJobs := failuresForJobs[key := failuresForJobs[key].(failures := failuresForJobs[key].failures + 1)];
      forall k | k in failuresForJobs
        ensures FailsIn(failuresForJobs[k].run, done + [e])
      {
        FailsInStill(failuresForJobs[k].run, done, e);
      }
    }

    method CountCell(cell: Cell, ghost done: seq<Event>, ghost e: Event)
      requires CellsCounted(data, done) && Fails(e) && CellOf(e) == cell
      modifies `data
      ensures CellsCounted(data, done + [e])
    {
      FailuresSnoc(CellOf, done, e);
      if cell !in data {
        data := data[cell := NO_DETAILS];
      }
      data := data[cell := data[cell].(failed := data[cell].failed + 1)];
    }

    static method ListName(names: seq<string>, name: string, ghost nameOf: Event -> string, ghost done: seq<Event>, ghost e: Event) returns (r: seq<string>)
      requires Listed(names, nameOf, done) && Fails(e) && nameOf(e) == name
      ensures Listed(r, nameOf, done + [e])
    {
      FailuresSnoc(nameOf, done, e);
      r := if name in names then names else names + [name];
    }

    method RecordFailure(run: Run, test: string, ghost done: seq<Event>, ghost e: Event)
      requires FirstDone(done) && Fails(e) && e.run == run && e.test == test
      modifies this
      ensures FirstDone(done + [e])
    {
      CountBuild(run, done, e);
      tests := ListName(tests, test, TestOf, done, e);
      headers := ListName(headers, run.job, LaneOf, done, e);
      CountCell(Cell(test, run.job), done, e);
    }

    method FirstPassOver(run: Run, suiteTests: seq<Test>, ghost done: seq<Event>)
      requires FirstDone(done)
      modifies this
      ensures FirstDone(done + EventsOfTests(run, suiteTests))
    {
      ghost var es := EventsOfTests(run, suiteTests);
      assert done + es[..0] == done;
      for i := 0 to |suiteTests|
        invariant FirstDone(done + es[..i])
      {
        TakeNextAfter(done, es, i);
        if suiteTests[i].status.Failed? || suiteTests[i].status.Error? {
          RecordFailure(run, suiteTests[i].name, done + es[..i], es[i]);
        } else {
          OtherOutcomesDoNotCount(data, tests, headers, failuresForJobs, done + es[..i], es[i]);
        }
      }
      assert es[..|es|] == es;
    }

    method FirstPass(results: seq<JobResult>)
      requires FirstDone([])
      modifies this
      ensures FirstDone(AllEvents(results))
    {
      for i := 0 to |results|
        invariant FirstDone(AllEvents(results[..i]))
      {
        assert results[..i + 1][..i] == results[..i];
        FirstPassOver(results[i].run, SuiteTests(results[i].junit), AllEvents(results[..i]));
      }
      assert results[..|results|] == results;
    }

    /** The code's own relevance test, on what the first pass left behind. */
    predicate IsRelevant(run: Run, test: string)
      reads this
    {
      Key(run) in failuresForJobs && test in tests
    }

    ghost predicate SecondDone(base: Data, all: seq<Event>, done: seq<Event>)
      reads this
    {
      && AfterFirst(base, tests, headers, failuresForJobs, all)
      && AfterSecond(data, base, Relevant(all), done)
    }

    method SecondPassOver(run: Run, suiteTests: seq<Test>, ghost base: Data, ghost all: seq<Event>, ghost done: seq<Event>)
      requires SecondDone(base, all, done)
      modifies `data
      ensures SecondDone(base, all, done + EventsOfTests(run, suiteTests))
    {
      ghost var es := EventsOfTests(run, suiteTests);
      assert done + es[..0] == done;
      for i := 0 to |suiteTests|
        invariant SecondDone(base, all, done + es[..i])
      {
        TakeNextAfter(done, es, i);
        SecondStep(data, base, Relevant(all), done + es[..i], es[i]);
        RelevanceAgrees(base, tests, headers, failuresForJobs, all, es[i]);
        if IsRelevant(run, suiteTests[i].name) {
          data := EnrichData(data, Event(run, suiteTests[i].name, suiteTests[i].status));
        }
      }
      assert es[..|es|] == es;
    }

    method SecondPass(results: seq<JobResult>, ghost base: Data, ghost all: seq<Event>)
      requires SecondDone(base, all, [])
      modifies `data
      ensures SecondDone(base, all, AllEvents(results))
    {
      for i := 0 to |results|
        invariant SecondDone(base, all, AllEvents(results[..i]))
      {
        assert results[..i + 1][..i] == results[..i];
        SecondPassOver(results[i].run, SuiteTests(results[i].junit), base, all, AllEvents(results[..i]));
      }
      assert results[..|results|] == results;
    }

    ghost predicate ThirdDone(base: Data, enriched: Data, all: seq<Event>, done: seq<Event>)
      reads this
    {
      && AfterFirst(base, tests, headers, failuresForJobs, all)
      && AfterThird(data, enriched, Relevant(all), done)
    }

    method ThirdPassOver(run: Run, suiteTests: seq<Test>, ghost base: Data, ghost enriched: Data, ghost all: seq<Event>, ghost done: seq<Event>)
      requires ThirdDone(base, enriched, all, done)
      modifies `data
      ensures ThirdDone(base, enriched, all, done + EventsOfTests(run, suiteTests))
    {
      ghost var es := EventsOfTests(run, suiteTests);
      assert done + es[..0] == done;
      for i := 0 to |suiteTests|
        invariant ThirdDone(base, enriched, all, done + es[..i])
      {
        TakeNextAfter(done, es, i);
        ThirdStep(data, enriched, Relevant(all), done + es[..i], es[i]);
        RelevanceAgrees(base, tests, headers, failuresForJobs, all, es[i]);
        if IsRelevant(run, suiteTests[i].name) {
          data := WithSeverity(data, Cell(suiteTests[i].name, run.job));
        }
      }
      assert es[..|es|] == es;
    }

    method ThirdPass(results: seq<JobResult>, ghost base: Data, ghost enriched: Data, ghost all: seq<Event>)
      requires ThirdDone(base, enriched, all, [])
      modifies `data
      ensures ThirdDone(base, enriched, all, AllEvents(results))
    {
      for i := 0 to |results|
        invariant ThirdDone(base, enriched, all, AllEvents(results[..i]))
      {
        assert results[..i + 1][..i] == results[..i];
        ThirdPassOver(results[i].run, SuiteTests(results[i].junit), base, enriched, all, AllEvents(results[..i]));
      }
      assert results[..|results|] == results;
    }

    /** The entries of every cell in the order of their build numbers. */
    method SortEntries()
      modifies `data
      ensures EntriesSorted(old(data), data)
    {
      ghost var before := data;
      var todo := data.Keys;
      while todo != {}
        invariant todo <= data.Keys == before.Keys
        invariant forall c | c in before.Keys - todo :: CellSorted(before[c], data[c])
        invariant forall c | c in todo :: data[c] == before[c]
        decreases todo
      {
        var c :| c in todo;
        assert TotalPreorder(BuildLe);
        data := data[c := data[c].(jobs := Sort(BuildLe, data[c].jobs))];
        todo := todo - {c};
      }
    }

    method MarkNonDeterministicTests()
      requires forall c | c in data :: !data[c].nonDeterministic
      modifies `data
      ensures EntriesMarked(old(data), data)
    {
      ghost var before := data;
      var todo := data.Keys;
      while todo != {}
        invariant todo <= data.Keys == before.Keys
        invariant forall c | c in before.Keys - todo :: CellMarked(before[c], data[c])
        invariant forall c | c in todo :: data[c] == before[c]
        decreases todo
      {
        var c :| c in todo;
        var mixed := HasMixedCommit(data[c].jobs);
        if mixed {
          data := data[c := data[c].(nonDeterministic := true)];
        }
        todo := todo - {c};
      }
    }
  }

  ghost predicate CellSorted(before: Details, after: Details) {
    after == before.(jobs := after.jobs) && IsSortOf(BuildLe, after.jobs, before.jobs)
  }

  ghost predicate EntriesSorted(before: Data, after: Data) {
    before.Keys == after.Keys && forall c | c in before :: CellSorted(before[c], after[c])
  }

  ghost predicate CellMarked(before: Details, after: Details) {
    after == before.(nonDeterministic := after.nonDeterministic) && (after.nonDeterministic <==> Mixed(before.jobs))
  }

  ghost predicate EntriesMarked(before: Data, after: Data) {
    before.Keys == after.Keys && forall c | c in before :: CellMarked(before[c], after[c])
  }

  // ----- commits with both outcomes -----

  /** Passed and failed entries counted per commit. */
  datatype Outcomes = Outcomes(passed: nat, failed: nat)

  function EntryFor(commit: string, red: bool): JobEntry -> bool {
    (e: JobEntry) => e.commitID == commit && e.red == red
  }

  ghost predicate OutcomesCounted(outcomes: map<string, Outcomes>, jobs: seq<JobEntry>) {
    && "" !in outcomes
    && (forall e | e in jobs && e.commitID != "" :: e.commitID in outcomes)
    && (forall c | c in outcomes ::
          outcomes[c] == Outcomes(CountIf(EntryFor(c, false), jobs), CountIf(EntryFor(c, true), jobs)))
  }

  lemma OutcomesSnoc(outcomes: map<string, Outcomes>, jobs: seq<JobEntry>, job: JobEntry)
    requires OutcomesCounted(outcomes, jobs)
    ensures job.commitID == "" ==> OutcomesCounted(outcomes, jobs + [job])
    ensures var out := if job.commitID in outcomes then outcomes[job.commitID] else Outcomes(0, 0);
            var more := if job.red then out.(failed := out.failed + 1) else out.(passed := out.passed + 1);
            job.commitID != "" ==> OutcomesCounted(outcomes[job.commitID := more], jobs + [job])
  {
    forall c, red
      ensures CountIf(EntryFor(c, red), jobs + [job]) == CountIf(EntryFor(c, red), jobs) + (if job.commitID == c && job.red == red then 1 else 0)
    {
      assert (jobs + [job])[..|jobs|] == jobs;
    }
    if job.commitID !in outcomes && job.commitID != "" {
      assert forall i | 0 <= i < |jobs| :: jobs[i] in jobs;
      CountIfBound(EntryFor(job.commitID, false), jobs);
      CountIfBound(EntryFor(job.commitID, true), jobs);
    }
  }

  method CountOutcomes(jobs: seq<JobEntry>) returns (outcomes: map<string, Outcomes>)
    ensures OutcomesCounted(outcomes, jobs)
  {
    outcomes := map[];
    for i := 0 to |jobs|
      invariant OutcomesCounted(outcomes, jobs[..i])
    {
      var job := jobs[i];
      OutcomesSnoc(outcomes, jobs[..i], job);
      TakeNext(jobs, i);
      if job.commitID == "" {
        continue;
      }
      var out := if job.commitID in outcomes then outcomes[job.commitID] else Outcomes(0, 0);
      out := if job.red then out.(failed := out.failed + 1) else out.(passed := out.passed + 1);
      outcomes := outcomes[job.commitID := out];
    }
    assert jobs[..|jobs|] == jobs;
  }

  method HasMixedCommit(jobs: seq<JobEntry>) returns (mixed: bool)
    ensures mixed == Mixed(jobs)
  {
    var outcomes := CountOutcomes(jobs);
    forall c | c in outcomes
      ensures outcomes[c].passed > 0 && outcomes[c].failed > 0 <==> MixedFor(jobs, c)
    {
      BothColours(jobs, c);
    }
    mixed := exists c | c in outcomes :: outcomes[c].passed > 0 && outcomes[c].failed > 0;
    if a, b :| a in jobs && b in jobs && a.commitID == b.commitID != "" && a.red && !b.red {
      assert MixedFor(jobs, a.commitID);
    }
    if mixed {
      var c :| c in outcomes && outcomes[c].passed > 0 && outcomes[c].failed > 0;
      assert MixedFor(jobs, c);
    }
  }

  ghost predicate MixedFor(jobs: seq<JobEntry>, commit: string) {
    exists a, b | a in jobs && b in jobs :: a.commitID == commit && b.commitID == commit && a.red && !b.red
  }

  lemma BothColours(jobs: seq<JobEntry>, commit: string)
    ensures CountIf(EntryFor(commit, false), jobs) > 0 && CountIf(EntryFor(commit, true), jobs) > 0 <==> MixedFor(jobs, commit)
  {
    CountIfBound(EntryFor(commit, false), jobs);
    CountIfBound(EntryFor(commit, true), jobs);
    if CountIf(EntryFor(commit, false), jobs) > 0 && CountIf(EntryFor(commit, true), jobs) > 0 {
      var i :| 0 <= i < |jobs| && EntryFor(commit, false)(jobs[i]);
      var j :| 0 <= j < |jobs| && EntryFor(commit, true)(jobs[j]);
      assert jobs[j] in jobs && jobs[i] in jobs;
    }
    if a, b :| a in jobs && b in jobs && a.commitID == commit && b.commitID == commit && a.red && !b.red {
      var i :| 0 <= i < |jobs| && jobs[i] == a;
      var j :| 0 <= j < |jobs| && jobs[j] == b;
      assert EntryFor(commit, true)(jobs[i]) && EntryFor(commit, false)(jobs[j]);
    }
  }

  // ----- the whole report -----

  lemma CellsEndUpRight(base: Data, enriched: Data, graded: Data, sorted: Data, final: Data, all: seq<Event>)
    requires CellsCounted(base, all) && AfterSecond(enriched, base, Relevant(all), all)
    requires AfterThird(graded, enriched, Relevant(all), all)
    requires EntriesSorted(graded, sorted) && EntriesMarked(sorted, final)
    ensures IsReport(final, all)
  {
    var rel := Relevant(all);
    forall c
      ensures c in final <==> CountIf(WithKey(rel, CellOf, c), all) > 0
    {
      if c in base {
        FailingCellsAreTouched(all, c);
      }
    }
    forall c | c in final
      ensures CellIsRight(final[c], c, all)
    {
      assert CountIf(WithKey(rel, CellOf, c), all) > 0;
      assert enriched[c] == Enriched(base, rel, c, all);
      assert CellSorted(graded[c], sorted[c]) && CellMarked(sorted[c], final[c]);
    }
  }

  /** The ranking looks at failures, successes and severities only. */
  lemma MarkingKeepsTheRanking(before: Data, after: Data, r: seq<string>, tests: seq<string>)
    requires EntriesMarked(before, after) && IsRanking(r, before, tests)
    ensures IsRanking(r, after, tests)
  {
    forall t
      ensures Occurrences(after, t) == Occurrences(before, t)
    {
      forall s
        ensures Occurrence(after, t, s) == Occurrence(before, t, s)
      {
        forall c | c in before.Keys
          ensures Contribution(after, t, s)(c) == Contribution(before, t, s)(c)
        {
          assert CellMarked(before[c], after[c]);
        }
        SumOfEqual(before.Keys, Contribution(after, t, s), Contribution(before, t, s));
      }
    }
    assert Tests(after) == Tests(before);
    var n: nat :| n <= |r| && IsRankingAt(r, n, before, tests);
    assert IsRankingAt(r, n, after, tests);
  }

  /** The tests of the cells are the failing tests. */
  lemma TestsAreTheFailingOnes(data: Data, all: seq<Event>)
    requires forall c :: c in data <==> CountIf(WithKey(Relevant(all), CellOf, c), all) > 0
    ensures forall t :: t in Tests(data) <==> Failures(TestOf, t, all) > 0
  {
    forall t
      ensures t in Tests(data) <==> Failures(TestOf, t, all) > 0
    {
      if Failures(TestOf, t, all) > 0 {
        CountIfBound(WithKey(Fails, TestOf, t), all);
        var i :| 0 <= i < |all| && WithKey(Fails, TestOf, t)(all[i]);
        assert TestOf(all[i]) == t;
        FailingIsRelevant(all, i);
        CountIfBound(WithKey(Relevant(all), CellOf, CellOf(all[i])), all);
        assert WithKey(Relevant(all), CellOf, CellOf(all[i]))(all[i]);
        assert CellOf(all[i]) in data && CellOf(all[i]).test == t;
      }
      if t in Tests(data) {
        var c :| c in data && c.test == t;
        CountIfBound(WithKey(Relevant(all), CellOf, c), all);
        var i :| 0 <= i < |all| && WithKey(Relevant(all), CellOf, c)(all[i]);
        assert Relevant(all)(all[i]) && CellOf(all[i]) == c;
      }
    }
  }

  lemma {:induction false} NoOthers(tests: seq<string>, found: set<string>)
    requires forall i | 0 <= i < |tests| :: tests[i] in found
    ensures Others(tests, found) == []
  {
    if tests != [] {
      NoOthers(tests[..|tests| - 1], found);
    }
  }

  lemma NothingElseToRank(r: seq<string>, data: Data, tests: seq<string>)
    requires IsRanking(r, data, tests) && forall t | t in tests :: t in Tests(data)
    ensures IsRanking(r, data, [])
  {
    NoOthers(tests, Tests(data));
    var n: nat :| n <= |r| && IsRankingAt(r, n, data, tests);
    assert IsRankingAt(r, n, data, []);
  }

  /** From any results: the cells are right, failures are counted per build, every failing test is
      ranked by the data alone, and the headers list the failing lanes. */
  method CreateFlakeReportData(results: seq<JobResult>) returns (data: Data, headers: seq<string>, tests: seq<string>, failuresForJobs: map<string, JobFailures>)
    ensures IsReport(data, AllEvents(results))
    ensures BuildsCounted(failuresForJobs, AllEvents(results))
    ensures IsRanking(tests, data, [])
    ensures forall t :: t in Tests(data) <==> Failures(TestOf, t, AllEvents(results)) > 0
    ensures Ordered(AtMost, headers) && forall l :: l in headers <==> Failures(LaneOf, l, AllEvents(results)) > 0
  {
    ghost var all := AllEvents(results);
    var b := new FlakeReportBuilder();
    b.FirstPass(results);
    ghost var base := b.data;
    b.SecondPass(results, base, all);
    ghost var enriched := b.data;
    b.ThirdPass(results, base, enriched, all);
    ghost var graded := b.data;
    AtMostIsTotal();
    headers := Sort(AtMost, b.headers);
    MultisetMembers(headers, b.headers);
    b.SortEntries();
    ghost var sorted := b.data;
    tests := SortTestsByRelevance(b.data, b.tests);
    GradedIsUnmarked(base, enriched, graded, sorted, all);
    b.MarkNonDeterministicTests();
    CellsEndUpRight(base, enriched, graded, sorted, b.data, all);
    MarkingKeepsTheRanking(sorted, b.data, tests, b.tests);
    TestsAreTheFailingOnes(b.data, all);
    NothingElseToRank(tests, b.data, b.tests);
    data, failuresForJobs := b.data, b.failuresForJobs;
  }

  lemma GradedIsUnmarked(base: Data, enriched: Data, graded: Data, sorted: Data, all: seq<Event>)
    requires AfterSecond(enriched, base, Relevant(all), all) && AfterThird(graded, enriched, Relevant(all), all)
    requires EntriesSorted(graded, sorted)
    ensures forall c | c in sorted :: !sorted[c].nonDeterministic
  {
    forall c | c in sorted
      ensures !sorted[c].nonDeterministic
    {
      assert CellSorted(graded[c], sorted[c]);
    }
  }
}
