/** The spreader's procedures: grouping by frequency, spreading a group in place, merging back. */
module SpreadTool {
  import opened Wrappers
  import opened Strings
  import opened Sorting
  import opened Counting
  import opened SpreadModel
  import opened SpreadRuns

  datatype JobGroup = JobGroup(frequency: nat, jobs: seq<Job>)

  predicate NameLe(a: Job, b: Job) {
    AtMost(a.name, b.name)
  }

  predicate FrequencyGe(a: JobGroup, b: JobGroup) {
    a.frequency >= b.frequency
  }

  lemma NameLeIsTotal()
    ensures TotalPreorder(NameLe)
  {
    AtMostIsTotal();
    forall a: Job, b: Job, c: Job
      ensures NameLe(a, b) || NameLe(b, a)
      ensures NameLe(a, b) && NameLe(b, c) ==> NameLe(a, c)
    {
      assert AtMost(a.name, b.name) || AtMost(b.name, a.name);
      assert AtMost(a.name, b.name) && AtMost(b.name, c.name) ==> AtMost(a.name, c.name);
    }
  }

  /** The jobs of a frequency. */
  function JobsOf(f: nat, jobs: seq<Job>): seq<Job> {
    Filter(HasFreq(f), jobs)
  }

  /** Each frequency that occurs forms one group, holding the jobs of that frequency in the order
      of their names; higher frequencies come first. */
  ghost predicate IsGrouping(groups: seq<JobGroup>, jobs: seq<Job>) {
    && (forall i, k | 0 <= i < k < |groups| :: groups[i].frequency > groups[k].frequency)
    && (forall i | 0 <= i < |groups| :: groups[i].jobs != [] && IsSortOf(NameLe, groups[i].jobs, JobsOf(groups[i].frequency, jobs)))
    && (forall j | j in jobs :: exists i | 0 <= i < |groups| :: groups[i].frequency == Freq(j))
  }

  ghost predicate IsFrequencyMap(m: map<nat, seq<Job>>, jobs: seq<Job>) {
    && (forall f: nat :: JobsOf(f, jobs) == if f in m then m[f] else [])
    && (forall f | f in m :: m[f] != [])
  }

  lemma JobsOfSnoc(f: nat, jobs: seq<Job>, job: Job)
    ensures JobsOf(f, jobs + [job]) == JobsOf(f, jobs) + (if Freq(job) == f then [job] else [])
  {
    assert (jobs + [job])[..|jobs|] == jobs;
  }

  lemma FrequencyMapSnoc(m: map<nat, seq<Job>>, jobs: seq<Job>, job: Job)
    requires IsFrequencyMap(m, jobs)
    ensures var f := Freq(job);
            IsFrequencyMap(m[f := (if f in m then m[f] else []) + [job]], jobs + [job])
  {
    var f := Freq(job);
    var before := if f in m then m[f] else [];
    var m' := m[f := before + [job]];
    forall g: nat
      ensures JobsOf(g, jobs + [job]) == if g in m' then m'[g] else []
    {
      JobsOfSnoc(g, jobs, job);
      assert JobsOf(g, jobs) == if g in m then m[g] else [];
    }
  }

  method FrequencyMap(jobs: seq<Job>) returns (m: map<nat, seq<Job>>)
    ensures IsFrequencyMap(m, jobs)
  {
    m := map[];
    for i := 0 to |jobs|
      invariant IsFrequencyMap(m, jobs[..i])
    {
      var freq := Freq(jobs[i]);
      FrequencyMapSnoc(m, jobs[..i], jobs[i]);
      TakeNext(jobs, i);
      if freq in m {
        m := m[freq := m[freq] + [jobs[i]]];
      } else {
        assert [] + [jobs[i]] == [jobs[i]];
        m := m[freq := [jobs[i]]];
      }
    }
    assert jobs[..|jobs|] == jobs;
  }

  /** One group for each of the frequencies in `done`. */
  ghost predicate Collected(groups: seq<JobGroup>, done: set<nat>, jobs: seq<Job>) {
    && (forall g | g in groups :: IsGroup(g, jobs) && g.frequency in done)
    && (forall f | f in done :: exists g | g in groups :: g.frequency == f)
    && DistinctBy(FrequencyOf, groups)
  }

  lemma CollectOne(groups: seq<JobGroup>, done: set<nat>, jobs: seq<Job>, group: JobGroup)
    requires Collected(groups, done, jobs) && IsGroup(group, jobs) && group.frequency !in done
    ensures Collected(groups + [group], done + {group.frequency}, jobs)
  {
    var more := groups + [group];
    assert forall g :: g in more <==> g in groups || g == group;
    forall f | f in done + {group.frequency}
      ensures exists g | g in more :: g.frequency == f
    {
      if f != group.frequency {
        var g :| g in groups && g.frequency == f;
        assert g in more;
      } else {
        assert group in more;
      }
    }
    forall i, k | 0 <= i < k < |more|
      ensures FrequencyOf(more[i]) != FrequencyOf(more[k])
    {
      assert more[i] in groups;
    }
  }

  lemma AllCollected(groups: seq<JobGroup>, m: map<nat, seq<Job>>, jobs: seq<Job>)
    requires IsFrequencyMap(m, jobs) && Collected(groups, m.Keys, jobs)
    ensures forall j | j in jobs :: exists g | g in groups :: g.frequency == Freq(j)
  {
    forall j | j in jobs
      ensures exists g | g in groups :: g.frequency == Freq(j)
    {
      assert j in JobsOf(Freq(j), jobs);
      assert Freq(j) in m.Keys;
    }
  }

  method SortedGroup(freq: nat, m: map<nat, seq<Job>>, jobs: seq<Job>) returns (group: JobGroup)
    requires IsFrequencyMap(m, jobs) && freq in m
    ensures IsGroup(group, jobs) && group.frequency == freq
  {
    NameLeIsTotal();
    group := JobGroup(freq, Sort(NameLe, m[freq]));
    MultisetMembers(group.jobs, m[freq]);
    assert m[freq][0] in group.jobs;
  }

  method GroupByFrequency(jobs: seq<Job>) returns (groups: seq<JobGroup>)
    ensures IsGrouping(groups, jobs)
  {
    var frequencyMap := FrequencyMap(jobs);
    groups := [];
    var todo := frequencyMap.Keys;
    while todo != {}
      invariant todo <= frequencyMap.Keys
      invariant Collected(groups, frequencyMap.Keys - todo, jobs)
      decreases todo
    {
      var freq :| freq in todo;
      var group := SortedGroup(freq, frequencyMap, jobs);
      CollectOne(groups, frequencyMap.Keys - todo, jobs, group);
      assert frequencyMap.Keys - (todo - {freq}) == frequencyMap.Keys - todo + {freq};
      todo := todo - {freq};
      groups := groups + [group];
    }
    assert frequencyMap.Keys - {} == frequencyMap.Keys;
    AllCollected(groups, frequencyMap, jobs);
    groups := SortGroups(groups, jobs);
  }

  /** A group before the groups are ordered. */
  ghost predicate IsGroup(g: JobGroup, jobs: seq<Job>) {
    g.jobs != [] && IsSortOf(NameLe, g.jobs, JobsOf(g.frequency, jobs))
  }

  function FrequencyOf(g: JobGroup): nat {
    g.frequency
  }

  method SortGroups(groups: seq<JobGroup>, jobs: seq<Job>) returns (sorted: seq<JobGroup>)
    requires DistinctBy(FrequencyOf, groups)
    requires forall g | g in groups :: IsGroup(g, jobs)
    requires forall j | j in jobs :: exists g | g in groups :: g.frequency == Freq(j)
    ensures IsGrouping(sorted, jobs)
  {
    assert TotalPreorder(FrequencyGe);
    sorted := Sort(FrequencyGe, groups);
    MultisetMembers(sorted, groups);
    DistinctSurvivesReordering(FrequencyOf, groups, sorted);
    forall i, k | 0 <= i < k < |sorted|
      ensures sorted[i].frequency > sorted[k].frequency
    {
      assert FrequencyGe(sorted[i], sorted[k]) && FrequencyOf(sorted[i]) != FrequencyOf(sorted[k]);
    }
    forall i | 0 <= i < |sorted|
      ensures sorted[i].jobs != [] && IsSortOf(NameLe, sorted[i].jobs, JobsOf(sorted[i].frequency, jobs))
    {
      assert sorted[i] in groups;
    }
    forall j | j in jobs
      ensures exists i | 0 <= i < |sorted| :: sorted[i].frequency == Freq(j)
    {
      var g :| g in groups && g.frequency == Freq(j);
      assert g in sorted;
    }
  }

  /** The schedules of a group are overwritten in place, job by job. */
  method SpreadJobs(frequency: nat, jobs: array<Job>)
    requires 1 <= frequency <= 24
    modifies jobs
    ensures forall i | 0 <= i < jobs.Length ::
              jobs[i] == Job(old(jobs[i]).name, Slot(frequency, jobs.Length, i))
  {
    if jobs.Length == 0 {
      return;
    }
    PeriodIsAPart(frequency);
    var periodHours := 24 / frequency;
    var staggerMinutes := periodHours * 60 / jobs.Length;
    for i := 0 to jobs.Length
      invariant forall k | 0 <= k < i :: jobs[k] == Job(old(jobs[k]).name, Slot(frequency, jobs.Length, k))
      invariant forall k | i <= k < jobs.Length :: jobs[k] == old(jobs[k])
    {
      var offsetMinutes := i * staggerMinutes;
      StaggerFits(frequency, jobs.Length, i);
      var hours := HoursFrom(offsetMinutes / 60, periodHours);
      jobs[i] := Job(jobs[i].name, CronInfo(offsetMinutes % 60, hours));
    }
  }

  method HoursFrom(start: nat, period: nat) returns (hours: seq<int>)
    requires period > 0
    ensures hours == Hours(start, period)
  {
    hours := [];
    var h := start;
    while h < 24
      invariant hours + Hours(h, period) == Hours(start, period)
      decreases 24 - h
    {
      hours := hours + [h];
      h := h + period;
    }
  }

  lemma NamesAscend(group: seq<Job>, i: nat, k: nat)
    requires i < k < |group| && Ordered(NameLe, group) && group[i].name != group[k].name
    ensures Less(group[i].name, group[k].name) && !Less(group[k].name, group[i].name)
  {
    assert NameLe(group[i], group[k]);
    LessIsTotal(group[i].name, group[k].name);
  }

  lemma BeforeMeansEarlier(group: seq<Job>, i: nat, k: nat, f: nat)
    requires i < |group| && k < |group| && Ordered(NameLe, group) && DistinctBy(NameOf, group)
    requires Freq(group[k]) == f
    ensures NamedBefore(f, group[i].name)(group[k]) <==> k < i
  {
    if k < i {
      assert NameOf(group[k]) != NameOf(group[i]);
      NamesAscend(group, k, i);
    } else if i < k {
      assert NameOf(group[i]) != NameOf(group[k]);
      NamesAscend(group, i, k);
    } else if Less(group[i].name, group[i].name) {
      LessIsAsymmetric(group[i].name, group[i].name);
    }
  }

  function NameOf(j: Job): string {
    j.name
  }

  /** In a name-sorted group every job stands at its rank. */
  lemma PositionIsRank(group: seq<Job>, i: nat, f: nat)
    requires i < |group| && Ordered(NameLe, group) && DistinctBy(NameOf, group)
    requires forall k | 0 <= k < |group| :: Freq(group[k]) == f
    ensures CountIf(NamedBefore(f, group[i].name), group) == i
  {
    forall k | 0 <= k < |group|
      ensures NamedBefore(f, group[i].name)(group[k]) <==> k < i
    {
      BeforeMeansEarlier(group, i, k, f);
    }
    CountIfPrefix(NamedBefore(f, group[i].name), group, i);
  }

  /** The slot a group position gets is the one the job's rank among all jobs calls for. */
  lemma GroupPositionIsRank(groups: seq<JobGroup>, jobs: seq<Job>, g: nat, i: nat) returns (k: nat)
    requires WellFormed(jobs) && IsGrouping(groups, jobs)
    requires g < |groups| && i < |groups[g].jobs|
    ensures k < |jobs| && jobs[k] == groups[g].jobs[i]
    ensures Freq(jobs[k]) == groups[g].frequency
    ensures NewCron(jobs, k) == Slot(groups[g].frequency, |groups[g].jobs|, i)
  {
    var f, group := groups[g].frequency, groups[g].jobs;
    var members := Filter(HasFreq(f), jobs);
    MultisetMembers(group, members);
    assert group[i] in members;
    k :| 0 <= k < |jobs| && jobs[k] == group[i];
    DistinctSurvivesFilter(NameOf, HasFreq(f), jobs);
    DistinctSurvivesReordering(NameOf, members, group);
    forall l | 0 <= l < |group|
      ensures Freq(group[l]) == f
    {
      assert group[l] in members;
    }
    PositionIsRank(group, i, f);
    RankInGroup(jobs, f, group[i].name, group);
  }

  lemma RankInGroup(jobs: seq<Job>, f: nat, name: string, group: seq<Job>)
    requires multiset(group) == multiset(Filter(HasFreq(f), jobs))
    ensures GroupSize(jobs, f) == |group|
    ensures Rank(jobs, f, name) == CountIf(NamedBefore(f, name), group)
  {
    var members := Filter(HasFreq(f), jobs);
    MultisetMembers(group, members);
    FilterLength(HasFreq(f), jobs);
    CountIfFilter(HasFreq(f), NamedBefore(f, name), jobs);
    CountIfPermutation(NamedBefore(f, name), group, members);
  }

  // ----- spreading all groups and merging back -----

  /** Every job runs often enough and at most 24 times a day. */
  predicate Terminating(jobs: seq<Job>) {
    forall k | 0 <= k < |jobs| :: 1 <= Freq(jobs[k]) <= 24
  }

  /** The jobs of a group with their new schedules. */
  function SpreadOf(group: JobGroup): (r: seq<Job>)
    requires 1 <= group.frequency <= 24
    ensures |r| == |group.jobs|
    ensures forall i | 0 <= i < |r| :: r[i] == Job(group.jobs[i].name, Slot(group.frequency, |r|, i))
  {
    seq(|group.jobs|, i requires 0 <= i < |group.jobs| => Job(group.jobs[i].name, Slot(group.frequency, |group.jobs|, i)))
  }

  ghost predicate InRange(groups: seq<JobGroup>) {
    forall g | 0 <= g < |groups| :: 1 <= groups[g].frequency <= 24
  }

  /** What the groups hold after spreading, one after the other. */
  function SpreadOfAll(groups: seq<JobGroup>): seq<Job>
    requires InRange(groups)
  {
    if groups == [] then [] else SpreadOfAll(groups[..|groups| - 1]) + SpreadOf(groups[|groups| - 1])
  }

  /** The last schedule given to a name. */
  function LastCron(spread: seq<Job>, name: string): (c: Option<CronInfo>)
    ensures c.Some? ==> Job(name, c.value) in spread
    ensures c.None? ==> forall j | j in spread :: j.name != name
  {
    if spread == [] then None
    else if spread[|spread| - 1].name == name then Some(spread[|spread| - 1].cron)
    else LastCron(spread[..|spread| - 1], name)
  }

  ghost predicate IsMergeMap(m: map<string, CronInfo>, spread: seq<Job>) {
    forall name :: LastCron(spread, name) == if name in m then Some(m[name]) else None
  }

  lemma MergeMapSnoc(m: map<string, CronInfo>, spread: seq<Job>, j: Job)
    requires IsMergeMap(m, spread)
    ensures IsMergeMap(m[j.name := j.cron], spread + [j])
  {
    forall name
      ensures LastCron(spread + [j], name) == if j.name == name then Some(j.cron) else LastCron(spread, name)
    {
      assert (spread + [j])[..|spread|] == spread;
    }
  }

  method SpreadGroup(group: JobGroup) returns (spread: seq<Job>)
    requires 1 <= group.frequency <= 24
    ensures spread == SpreadOf(group)
  {
    var slice := new Job[|group.jobs|](i requires 0 <= i < |group.jobs| => group.jobs[i]);
    SpreadJobs(group.frequency, slice);
    return slice[..];
  }

  method MapGroup(group: seq<Job>, jobMap: map<string, CronInfo>, ghost before: seq<Job>) returns (m: map<string, CronInfo>)
    requires IsMergeMap(jobMap, before)
    ensures IsMergeMap(m, before + group)
  {
    m := jobMap;
    assert before + group[..0] == before;
    for i := 0 to |group|
      invariant IsMergeMap(m, before + group[..i])
    {
      TakeNextAfter(before, group, i);
      MergeMapSnoc(m, before + group[..i], group[i]);
      m := m[group[i].name := group[i].cron];
    }
    assert group[..|group|] == group;
  }

  method SpreadGroups(groups: seq<JobGroup>) returns (jobMap: map<string, CronInfo>)
    requires InRange(groups)
    ensures IsMergeMap(jobMap, SpreadOfAll(groups))
  {
    jobMap := map[];
    for g := 0 to |groups|
      invariant IsMergeMap(jobMap, SpreadOfAll(groups[..g]))
    {
      assert groups[..g + 1][..g] == groups[..g];
      var spread := SpreadGroup(groups[g]);
      jobMap := MapGroup(spread, jobMap, SpreadOfAll(groups[..g]));
    }
    assert groups[..|groups|] == groups;
  }

  function CronAfter(j: Job, spread: seq<Job>): CronInfo {
    var last := LastCron(spread, j.name);
    if last.Some? then last.value else j.cron
  }

  /** The matched jobs with the last schedule given to their names. */
  function Merged(jobs: seq<Job>, spread: seq<Job>): (r: seq<Job>)
    ensures |r| == |jobs|
    ensures forall k | 0 <= k < |jobs| ::
              r[k] == Job(jobs[k].name, CronAfter(jobs[k], spread))
  {
    seq(|jobs|, k requires 0 <= k < |jobs| => Job(jobs[k].name, CronAfter(jobs[k], spread)))
  }

  method MergeBack(jobs: seq<Job>, jobMap: map<string, CronInfo>, ghost spread: seq<Job>) returns (matched: seq<Job>)
    requires IsMergeMap(jobMap, spread)
    ensures matched == Merged(jobs, spread)
  {
    matched := jobs;
    for k := 0 to |jobs|
      invariant |matched| == |jobs|
      invariant forall l | 0 <= l < k :: matched[l] == Merged(jobs, spread)[l]
      invariant forall l | k <= l < |jobs| :: matched[l] == jobs[l]
    {
      assert LastCron(spread, jobs[k].name) == if jobs[k].name in jobMap then Some(jobMap[jobs[k].name]) else None;
      if matched[k].name in jobMap {
        matched := matched[k := Job(matched[k].name, jobMap[matched[k].name])];
      }
    }
  }

  lemma GroupedFrequency(groups: seq<JobGroup>, jobs: seq<Job>, g: nat)
    requires IsGrouping(groups, jobs) && g < |groups|
    ensures exists k | 0 <= k < |jobs| :: Freq(jobs[k]) == groups[g].frequency
  {
    MultisetMembers(groups[g].jobs, JobsOf(groups[g].frequency, jobs));
    assert groups[g].jobs[0] in JobsOf(groups[g].frequency, jobs);
  }

  lemma GroupingIsInRange(groups: seq<JobGroup>, jobs: seq<Job>)
    requires Terminating(jobs) && IsGrouping(groups, jobs)
    ensures InRange(groups)
  {
    forall g: nat | g < |groups|
      ensures 1 <= groups[g].frequency <= 24
    {
      GroupedFrequency(groups, jobs, g);
    }
  }

  // ----- with distinct names -----

  /** A spread group holds only jobs of the run's outcome. */
  lemma SpreadGroupIsInOutcome(groups: seq<JobGroup>, jobs: seq<Job>, g: nat)
    requires WellFormed(jobs) && IsGrouping(groups, jobs) && InRange(groups) && g < |groups|
    ensures forall j | j in SpreadOf(groups[g]) :: j in SpreadAll(jobs)
  {
    var spread := SpreadOf(groups[g]);
    forall i | 0 <= i < |spread|
      ensures spread[i] in SpreadAll(jobs)
    {
      var k := GroupPositionIsRank(groups, jobs, g, i);
      assert SpreadAll(jobs)[k] == spread[i];
    }
  }

  lemma {:induction false} InSomeGroup(groups: seq<JobGroup>, j: Job) returns (g: nat)
    requires InRange(groups) && j in SpreadOfAll(groups)
    ensures g < |groups| && j in SpreadOf(groups[g])
  {
    if j in SpreadOf(groups[|groups| - 1]) {
      g := |groups| - 1;
    } else {
      g := InSomeGroup(groups[..|groups| - 1], j);
    }
  }

  lemma {:induction false} GroupsAreIncluded(groups: seq<JobGroup>, g: nat, j: Job)
    requires InRange(groups) && g < |groups| && j in SpreadOf(groups[g])
    ensures j in SpreadOfAll(groups)
  {
    if g < |groups| - 1 {
      GroupsAreIncluded(groups[..|groups| - 1], g, j);
    }
  }

  lemma EveryJobIsGrouped(groups: seq<JobGroup>, jobs: seq<Job>, k: nat) returns (g: nat, i: nat)
    requires IsGrouping(groups, jobs) && k < |jobs|
    ensures g < |groups| && i < |groups[g].jobs| && groups[g].jobs[i] == jobs[k]
  {
    assert jobs[k] in jobs;
    g :| 0 <= g < |groups| && groups[g].frequency == Freq(jobs[k]);
    MultisetMembers(groups[g].jobs, JobsOf(groups[g].frequency, jobs));
    assert jobs[k] in groups[g].jobs;
    i :| 0 <= i < |groups[g].jobs| && groups[g].jobs[i] == jobs[k];
  }

  /** A job's frequency group and its rank in it decide its schedule. */
  lemma LastCronIsNew(groups: seq<JobGroup>, jobs: seq<Job>, k: nat)
    requires WellFormed(jobs) && IsGrouping(groups, jobs) && InRange(groups) && k < |jobs|
    ensures LastCron(SpreadOfAll(groups), jobs[k].name) == Some(NewCron(jobs, k))
  {
    var all, name := SpreadOfAll(groups), jobs[k].name;
    var g, i := EveryJobIsGrouped(groups, jobs, k);
    assert SpreadOf(groups[g])[i] in SpreadOf(groups[g]) && SpreadOf(groups[g])[i].name == name;
    GroupsAreIncluded(groups, g, SpreadOf(groups[g])[i]);
    var last := Job(name, LastCron(all, name).value);
    var h := InSomeGroup(groups, last);
    SpreadGroupIsInOutcome(groups, jobs, h);
    OutcomeByName(jobs, k, last);
  }

  lemma OutcomeByName(jobs: seq<Job>, k: nat, j: Job)
    requires WellFormed(jobs) && k < |jobs| && j in SpreadAll(jobs) && j.name == jobs[k].name
    ensures j == SpreadAll(jobs)[k]
  {
    var l :| 0 <= l < |jobs| && SpreadAll(jobs)[l] == j;
    assert jobs[l].name == jobs[k].name;
  }

  /** A run of the tool on the matched jobs, in their original order: each gets the last schedule
      given to its name. With distinct names that is the outcome job by job. */
  method RunSpread(jobs: seq<Job>) returns (matched: seq<Job>, ghost groups: seq<JobGroup>)
    requires Terminating(jobs)
    ensures IsGrouping(groups, jobs) && InRange(groups)
    ensures matched == Merged(jobs, SpreadOfAll(groups))
    ensures WellFormed(jobs) ==> matched == SpreadAll(jobs)
  {
    var byFrequency := GroupByFrequency(jobs);
    groups := byFrequency;
    GroupingIsInRange(groups, jobs);
    var jobMap := SpreadGroups(byFrequency);
    matched := MergeBack(jobs, jobMap, SpreadOfAll(groups));
    if WellFormed(jobs) {
      forall k | 0 <= k < |jobs|
        ensures matched[k] == SpreadAll(jobs)[k]
      {
        LastCronIsNew(groups, jobs, k);
      }
    }
  }
}
