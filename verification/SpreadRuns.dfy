/** Whole runs of the spreader: grouping, spreading each group, merging back, and what repeated
    runs do. */
module SpreadRuns {
  import opened Strings
  import opened Counting
  import opened SpreadModel

  // ----- the outcome of a run, job by job -----

  /** Distinct names, and frequencies for which the tool terminates. */
  ghost predicate WellFormed(jobs: seq<Job>) {
    && (forall i, j | 0 <= i < j < |jobs| :: jobs[i].name != jobs[j].name)
    && (forall i | 0 <= i < |jobs| :: 1 <= Freq(jobs[i]) <= 24)
  }

  function HasFreq(f: nat): Job -> bool {
    j => Freq(j) == f
  }

  function NamedBefore(f: nat, name: string): Job -> bool {
    j => Freq(j) == f && Less(j.name, name)
  }

  function GroupSize(jobs: seq<Job>, f: nat): nat {
    CountIf(HasFreq(f), jobs)
  }

  /** Position of a name among the jobs of its frequency. */
  function Rank(jobs: seq<Job>, f: nat, name: string): nat {
    CountIf(NamedBefore(f, name), jobs)
  }

  lemma RankIsBelowSize(jobs: seq<Job>, k: nat)
    requires k < |jobs|
    ensures var f := Freq(jobs[k]); Rank(jobs, f, jobs[k].name) < GroupSize(jobs, f)
  {
    var f := Freq(jobs[k]);
    if Less(jobs[k].name, jobs[k].name) {
      LessIsAsymmetric(jobs[k].name, jobs[k].name);
    }
    CountIfWeaker(NamedBefore(f, jobs[k].name), HasFreq(f), jobs);
  }

  function NewCron(jobs: seq<Job>, k: nat): CronInfo
    requires k < |jobs| && 1 <= Freq(jobs[k]) <= 24
  {
    RankIsBelowSize(jobs, k);
    var f := Freq(jobs[k]);
    Slot(f, GroupSize(jobs, f), Rank(jobs, f, jobs[k].name))
  }

  function SpreadAll(jobs: seq<Job>): (r: seq<Job>)
    requires forall i | 0 <= i < |jobs| :: 1 <= Freq(jobs[i]) <= 24
    ensures |r| == |jobs|
    ensures forall k | 0 <= k < |jobs| :: r[k] == Job(jobs[k].name, NewCron(jobs, k))
  {
    seq(|jobs|, k requires 0 <= k < |jobs| => Job(jobs[k].name, NewCron(jobs, k)))
  }

  /** After a run every job runs at the rounded frequency, and the jobs can be spread again. */
  lemma SpreadRounds(jobs: seq<Job>)
    requires WellFormed(jobs)
    ensures WellFormed(SpreadAll(jobs))
    ensures forall k | 0 <= k < |jobs| :: Freq(SpreadAll(jobs)[k]) == Rounded(Freq(jobs[k]))
  {
    forall k | 0 <= k < |jobs|
      ensures Freq(SpreadAll(jobs)[k]) == Rounded(Freq(jobs[k]))
    {
      RankIsBelowSize(jobs, k);
      var f := Freq(jobs[k]);
      SlotIsEven(f, GroupSize(jobs, f), Rank(jobs, f, jobs[k].name));
    }
  }

  /** A run only looks at names and frequencies. If those of `a` and `b` correspond, groups and
      positions do too. */
  lemma SameGroups(a: seq<Job>, b: seq<Job>, k: nat)
    requires |a| == |b| && k < |a|
    requires forall i | 0 <= i < |a| :: a[i].name == b[i].name
    requires forall i | 0 <= i < |a| :: Freq(a[i]) == Freq(a[k]) <==> Freq(b[i]) == Freq(b[k])
    ensures GroupSize(a, Freq(a[k])) == GroupSize(b, Freq(b[k]))
    ensures Rank(a, Freq(a[k]), a[k].name) == Rank(b, Freq(b[k]), b[k].name)
  {
    CountIfPointwise(HasFreq(Freq(a[k])), a, HasFreq(Freq(b[k])), b);
    CountIfPointwise(NamedBefore(Freq(a[k]), a[k].name), a, NamedBefore(Freq(b[k]), b[k].name), b);
  }

  /** From the second run on nothing changes any more, although groups may merge after the first. */
  lemma TwoRunsReachAFixedPoint(jobs: seq<Job>)
    requires WellFormed(jobs)
    ensures WellFormed(SpreadAll(jobs)) && WellFormed(SpreadAll(SpreadAll(jobs)))
    ensures SpreadAll(SpreadAll(SpreadAll(jobs))) == SpreadAll(SpreadAll(jobs))
  {
    var once := SpreadAll(jobs);
    SpreadRounds(jobs);
    SpreadRounds(once);
    var twice := SpreadAll(once);
    forall k | 0 <= k < |jobs|
      ensures Freq(twice[k]) == Freq(once[k])
    {
      RoundedTwice(Freq(jobs[k]));
    }
    forall k | 0 <= k < |jobs|
      ensures SpreadAll(twice)[k] == twice[k]
    {
      SameGroups(twice, once, k);
    }
  }

  /** No two different frequencies round to the same one, so no groups merge. */
  ghost predicate NoMerge(jobs: seq<Job>)
    requires WellFormed(jobs)
  {
    forall i, j | 0 <= i < |jobs| && 0 <= j < |jobs| && Rounded(Freq(jobs[i])) == Rounded(Freq(jobs[j])) ::
      Freq(jobs[i]) == Freq(jobs[j])
  }

  /** Then already the first run reaches the fixed point. */
  lemma OneRunSufficesWithoutMerge(jobs: seq<Job>)
    requires WellFormed(jobs) && NoMerge(jobs)
    ensures WellFormed(SpreadAll(jobs))
    ensures SpreadAll(SpreadAll(jobs)) == SpreadAll(jobs)
  {
    var once := SpreadAll(jobs);
    SpreadRounds(jobs);
    forall k | 0 <= k < |jobs|
      ensures SpreadAll(once)[k] == once[k]
    {
      SameGroups(once, jobs, k);
    }
  }

  lemma DividingFrequenciesDoNotMerge(jobs: seq<Job>)
    requires WellFormed(jobs)
    requires forall i | 0 <= i < |jobs| :: 24 % Freq(jobs[i]) == 0
    ensures NoMerge(jobs)
  {
    forall i | 0 <= i < |jobs|
      ensures Rounded(Freq(jobs[i])) == Freq(jobs[i])
    {
      RoundedTwice(Freq(jobs[i]));
    }
  }

  /** Five and six runs a day both become six: one run is not always enough. */
  lemma OneRunIsNotAlwaysEnough() returns (jobs: seq<Job>)
    ensures WellFormed(jobs) && WellFormed(SpreadAll(jobs))
    ensures SpreadAll(SpreadAll(jobs)) != SpreadAll(jobs)
  {
    var a, b := Job("a", CronInfo(0, [0, 1, 2, 3, 4])), Job("b", CronInfo(0, [0, 1, 2, 3, 4, 5]));
    jobs := [a, b];
    SpreadRounds(jobs);
    var once := SpreadAll(jobs);
    PeriodIsAPart(5);
    PeriodIsAPart(6);
    assert once == [once[0], once[1]];
    assert Less("a", "b") && !Less("b", "b");
    CountIfTwo(HasFreq(6), a, b);
    CountIfTwo(NamedBefore(6, "b"), a, b);
    CountIfTwo(HasFreq(6), once[0], once[1]);
    CountIfTwo(NamedBefore(6, "b"), once[0], once[1]);
    assert NewCron(jobs, 1) == Slot(6, 1, 0);
    assert NewCron(once, 1) == Slot(6, 2, 1);
    assert Stagger(6, 2) == 120;
    assert Slot(6, 1, 0).hours[0] == 0 && Slot(6, 2, 1).hours[0] == 2;
  }
}
