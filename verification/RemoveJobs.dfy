/** Removing the lanes of a release that is no longer supported. */
module RemoveJobs {
  import opened Wrappers
  import opened Counting
  import opened Sorting
  import opened Versions
  import opened LatestMinors
  import opened JobNames
  import opened JobLifecycle
  import opened RequireJobs

  datatype CheckResult = NotAllJobsExist | NotAllJobsAreRequired | AllJobsAreRequired

  /** The first entry of the name; later ones are not looked at. */
  function FirstNamed(jobs: seq<Job>, name: string): (r: Option<Job>)
    ensures r.Some? <==> HasName(jobs, name)
    ensures r.Some? ==> r.value in jobs && r.value.name == name
  {
    if jobs == [] then None
    else
      var front := FirstNamed(jobs[..|jobs| - 1], name);
      if front.Some? then front
      else if jobs[|jobs| - 1].name == name then Some(jobs[|jobs| - 1])
      else None
  }

  function SigLane(m: Minor, k: nat): string
    requires k < |SIG_NAMES|
  {
    CreatePresubmitJobName(m, SIG_NAMES[k])
  }

  predicate IsSigLane(name: string, m: Minor) {
    exists k | 0 <= k < |SIG_NAMES| :: name == SigLane(m, k)
  }

  predicate IsSigPeriodic(name: string, m: Minor) {
    exists k | 0 <= k < |SIG_NAMES| :: name == CreatePeriodicJobName(m, SIG_NAMES[k])
  }

  function SigLanes(m: Minor): (r: set<string>)
    ensures forall name :: name in r <==> IsSigLane(name, m)
  {
    {SigLane(m, 0), SigLane(m, 1), SigLane(m, 2), SigLane(m, 3)}
  }

  predicate AllExist(jobs: seq<Job>, m: Minor) {
    forall k | 0 <= k < |SIG_NAMES| :: HasName(jobs, SigLane(m, k))
  }

  predicate FirstIsRequired(jobs: seq<Job>, name: string) {
    FirstNamed(jobs, name).Some? ==> IsRequired(FirstNamed(jobs, name).value)
  }

  function Check(jobs: seq<Job>, m: Minor): CheckResult {
    if !AllExist(jobs, m) then NotAllJobsExist
    else if forall k | 0 <= k < |SIG_NAMES| :: FirstIsRequired(jobs, SigLane(m, k)) then AllJobsAreRequired
    else NotAllJobsAreRequired
  }

  lemma FirstNamedSnoc(jobs: seq<Job>, j: Job, name: string)
    ensures FirstNamed(jobs + [j], name) ==
            if FirstNamed(jobs, name).Some? then FirstNamed(jobs, name) else if j.name == name then Some(j) else None
    ensures HasName(jobs + [j], name) <==> HasName(jobs, name) || j.name == name
  {
    assert (jobs + [j])[..|jobs|] == jobs;
    HasNameInConcat(jobs, [j], name);
  }

  ghost function Unseen(asked: set<string>, jobs: seq<Job>): set<string> {
    set name | name in asked && !HasName(jobs, name)
  }

  ghost predicate FirstsAreRequired(asked: set<string>, jobs: seq<Job>) {
    forall name | name in asked :: FirstIsRequired(jobs, name)
  }

  lemma NextIsSeen(asked: set<string>, jobs: seq<Job>, j: Job)
    ensures Unseen(asked, jobs + [j]) == Unseen(asked, jobs) - {j.name}
  {
    forall name
      ensures HasName(jobs + [j], name) <==> HasName(jobs, name) || j.name == name
    {
      FirstNamedSnoc(jobs, j, name);
    }
  }

  lemma NextIsFirstOrNot(jobs: seq<Job>, j: Job, name: string)
    ensures FirstIsRequired(jobs + [j], name) <==>
            FirstIsRequired(jobs, name) && (name == j.name && !HasName(jobs, name) ==> IsRequired(j))
  {
    FirstNamedSnoc(jobs, j, name);
  }

  lemma NextMustBeRequired(asked: set<string>, jobs: seq<Job>, j: Job)
    ensures FirstsAreRequired(asked, jobs + [j]) <==>
            FirstsAreRequired(asked, jobs) && (j.name in Unseen(asked, jobs) ==> IsRequired(j))
  {
    forall name
      ensures FirstIsRequired(jobs + [j], name) <==>
              FirstIsRequired(jobs, name) && (name == j.name && !HasName(jobs, name) ==> IsRequired(j))
    {
      NextIsFirstOrNot(jobs, j, name);
    }
  }

  lemma CheckByNames(jobs: seq<Job>, m: Minor)
    ensures Check(jobs, m) ==
            if Unseen(SigLanes(m), jobs) != {} then NotAllJobsExist
            else if FirstsAreRequired(SigLanes(m), jobs) then AllJobsAreRequired
            else NotAllJobsAreRequired
  {
    assert forall k | 0 <= k < |SIG_NAMES| :: SigLane(m, k) in SigLanes(m);
    if !AllExist(jobs, m) {
      var k :| 0 <= k < |SIG_NAMES| && !HasName(jobs, SigLane(m, k));
      assert SigLane(m, k) in Unseen(SigLanes(m), jobs);
    }
  }

  /** Names found are deleted from the set of names asked for. */
  method EnsureSigJobsAreRequired(jobs: seq<Job>, m: Minor) returns (result: CheckResult)
    ensures result == Check(jobs, m)
  {
    result := AllJobsAreRequired;
    ghost var asked := SigLanes(m);
    var missing := SigLanes(m);
    for i := 0 to |jobs|
      invariant missing == Unseen(asked, jobs[..i])
      invariant result == if FirstsAreRequired(asked, jobs[..i]) then AllJobsAreRequired else NotAllJobsAreRequired
    {
      var presubmit := jobs[i];
      TakeNext(jobs, i);
      NextIsSeen(asked, jobs[..i], presubmit);
      NextMustBeRequired(asked, jobs[..i], presubmit);
      if presubmit.name !in missing {
        continue;
      }
      missing := missing - {presubmit.name};
      if !presubmit.alwaysRun {
        result := NotAllJobsAreRequired;
      }
      if presubmit.optional {
        result := NotAllJobsAreRequired;
      }
    }
    assert jobs[..|jobs|] == jobs;
    CheckByNames(jobs, m);
    if missing != {} {
      result := NotAllJobsExist;
    }
  }

  method EnsureSigPresubmitJobsExistForReleases(jobs: seq<Job>, minors: seq<Minor>) returns (allJobsExist: bool)
    ensures allJobsExist <==> forall m | m in minors :: AllExist(jobs, m)
  {
    var asked: set<string> := {};
    for i := 0 to |minors|
      invariant forall name :: name in asked <==> exists m | m in minors[..i] :: IsSigLane(name, m)
    {
      TakeNext(minors, i);
      asked := asked + SigLanes(minors[i]);
    }
    assert minors[..|minors|] == minors;
    var missing := asked;
    for i := 0 to |jobs|
      invariant missing == Unseen(asked, jobs[..i])
    {
      TakeNext(jobs, i);
      NextIsSeen(asked, jobs[..i], jobs[i]);
      missing := missing - {jobs[i].name};
    }
    assert jobs[..|jobs|] == jobs;
    allJobsExist := |missing| == 0;
    if !allJobsExist {
      var name :| name in missing;
      var m :| m in minors && IsSigLane(name, m);
      assert !AllExist(jobs, m);
    } else {
      forall m, k | m in minors && 0 <= k < |SIG_NAMES|
        ensures HasName(jobs, SigLane(m, k))
      {
        assert IsSigLane(SigLane(m, k), m);
        assert SigLane(m, k) in asked && SigLane(m, k) !in missing;
      }
    }
  }

  // ----- deleting -----

  function Without(jobs: seq<Job>, names: set<string>): seq<Job> {
    if jobs == [] then []
    else
      Without(jobs[..|jobs| - 1], names) + (if jobs[|jobs| - 1].name in names then [] else [jobs[|jobs| - 1]])
  }

  lemma {:induction false} WithoutHas(jobs: seq<Job>, names: set<string>, j: Job)
    ensures j in Without(jobs, names) <==> j in jobs && j.name !in names
  {
    if jobs != [] {
      WithoutHas(jobs[..|jobs| - 1], names, j);
    }
  }

  lemma WithoutSnoc(jobs: seq<Job>, j: Job, names: set<string>)
    ensures Without(jobs + [j], names) == Without(jobs, names) + (if j.name in names then [] else [j])
  {
    assert (jobs + [j])[..|jobs|] == jobs;
  }

  lemma {:induction false} WithoutKeepsAll(jobs: seq<Job>, names: set<string>)
    ensures |Without(jobs, names)| <= |jobs|
    ensures |Without(jobs, names)| == |jobs| ==> Without(jobs, names) == jobs
  {
    if jobs != [] {
      var front, last := jobs[..|jobs| - 1], jobs[|jobs| - 1];
      WithoutKeepsAll(front, names);
      var kept := Without(front, names);
      assert Without(jobs, names) == kept + (if last.name in names then [] else [last]);
      if |kept| == |front| {
        TakeNext(jobs, |front|);
      }
    }
  }

  method DeleteLanes(jobs: seq<Job>, names: set<string>) returns (r: seq<Job>, updated: bool)
    ensures r == Without(jobs, names)
    ensures updated <==> |r| < |jobs|
    ensures !updated ==> r == jobs
  {
    r, updated := [], false;
    for i := 0 to |jobs|
      invariant r == Without(jobs[..i], names) && |r| <= i
      invariant updated <==> |r| < i
    {
      TakeNext(jobs, i);
      WithoutSnoc(jobs[..i], jobs[i], names);
      if jobs[i].name in names {
        updated := true;
        continue;
      }
      r := r + [jobs[i]];
    }
    assert jobs[..|jobs|] == jobs;
    WithoutKeepsAll(jobs, names);
  }

  function SigPeriodics(m: Minor): (r: set<string>)
    ensures forall name :: name in r <==> IsSigPeriodic(name, m)
  {
    {CreatePeriodicJobName(m, SIG_NAMES[0]), CreatePeriodicJobName(m, SIG_NAMES[1]),
     CreatePeriodicJobName(m, SIG_NAMES[2]), CreatePeriodicJobName(m, SIG_NAMES[3])}
  }

  // ----- the command -----

  datatype Plan = NothingToDo | NoTargetGiven | RemoveRelease(target: Minor)

  function Minors(vs: seq<Version>): (r: seq<Minor>)
    ensures |r| == |vs| && forall i | 0 <= i < |r| :: r[i] == MinorOf(vs[i])
  {
    seq(|vs|, i requires 0 <= i < |vs| => MinorOf(vs[i]))
  }

  /** The guard: four minors are known, the newest is required, the three newest all have lanes. */
  predicate MayRemove(presubmits: seq<Job>, releases: seq<Version>) {
    var latest := Latest(releases);
    && |latest| >= 4
    && Check(presubmits, MinorOf(latest[0])) == AllJobsAreRequired
    && forall i | 0 <= i < 3 :: AllExist(presubmits, MinorOf(latest[i]))
  }

  function Planned(presubmits: seq<Job>, releases: seq<Version>, force: bool, targetRelease: Option<Minor>): Plan {
    if !force && !MayRemove(presubmits, releases) then NothingToDo
    else if targetRelease.Some? then RemoveRelease(targetRelease.value)
    else if force then NoTargetGiven
    else RemoveRelease(MinorOf(Latest(releases)[3]))
  }

  method GuardPassed(presubmits: seq<Job>, releases: seq<Version>) returns (may: bool)
    ensures may == MayRemove(presubmits, releases)
  {
    var latest := GetLatestMinorReleases(releases);
    if |latest| < 4 {
      return false;
    }
    var result := EnsureSigJobsAreRequired(presubmits, MinorOf(latest[0]));
    if result != AllJobsAreRequired {
      return false;
    }
    var three := Minors(latest[0..3]);
    assert three == [MinorOf(latest[0]), MinorOf(latest[1]), MinorOf(latest[2])];
    may := EnsureSigPresubmitJobsExistForReleases(presubmits, three);
    assert may <==> AllExist(presubmits, three[0]) && AllExist(presubmits, three[1]) && AllExist(presubmits, three[2]);
  }

  method RemoveOldJobsIfNewOnesExist(config: JobConfig, releases: seq<Version>, force: bool, targetRelease: Option<Minor>) returns (plan: Plan)
    modifies config
    ensures plan == Planned(old(config.presubmits), releases, force, targetRelease)
    ensures config.presubmits == if plan.RemoveRelease? then Without(old(config.presubmits), SigLanes(plan.target)) else old(config.presubmits)
    ensures config.periodics == if plan.RemoveRelease? then Without(old(config.periodics), SigPeriodics(plan.target)) else old(config.periodics)
  {
    var target: Option<Minor> := None;
    if !force {
      var may := GuardPassed(config.presubmits, releases);
      if !may {
        return NothingToDo;
      }
      var latest := GetLatestMinorReleases(releases);
      target := Some(MinorOf(latest[3]));
    }
    if target.None? && targetRelease.None? {
      return NoTargetGiven;
    } else if targetRelease.Some? {
      target := targetRelease;
    }
    var periodics, periodicsUpdated := DeleteLanes(config.periodics, SigPeriodics(target.value));
    if periodicsUpdated {
      config.periodics := periodics;
    }
    var presubmits, presubmitsUpdated := DeleteLanes(config.presubmits, SigLanes(target.value));
    if presubmitsUpdated {
      config.presubmits := presubmits;
    }
    return RemoveRelease(target.value);
  }

  // ----- safety -----

  lemma OtherMinorsKeepTheirLanes(jobs: seq<Job>, m: Minor, target: Minor)
    requires IsNumeric(m) && IsNumeric(target) && m != target && AllExist(jobs, m)
    ensures AllExist(Without(jobs, SigLanes(target)), m)
  {
    forall k | 0 <= k < |SIG_NAMES|
      ensures HasName(Without(jobs, SigLanes(target)), SigLane(m, k))
    {
      var j :| j in jobs && j.name == SigLane(m, k);
      if IsSigLane(j.name, target) {
        var l :| 0 <= l < |SIG_NAMES| && j.name == SigLane(target, l);
        LaneNamesAreInjective("pull-kubevirt-e2e-k8s-", m, SIG_NAMES[k], target, SIG_NAMES[l]);
      }
      WithoutHas(jobs, SigLanes(target), j);
    }
  }

  lemma TargetLosesItsLanes(jobs: seq<Job>, target: Minor)
    ensures !AllExist(Without(jobs, SigLanes(target)), target)
  {
    var name := SigLane(target, 0);
    assert IsSigLane(name, target);
    if HasName(Without(jobs, SigLanes(target)), name) {
      var j :| j in Without(jobs, SigLanes(target)) && j.name == name;
      WithoutHas(jobs, SigLanes(target), j);
    }
  }

  /** Removal deletes lanes of the target only, and keeps everything else as it is. */
  lemma OnlyTargetLanesGo(jobs: seq<Job>, target: Minor, j: Job)
    ensures j in jobs && j !in Without(jobs, SigLanes(target)) <==> j in jobs && IsSigLane(j.name, target)
  {
    WithoutHas(jobs, SigLanes(target), j);
  }

  lemma CanonicalIsNumeric(v: Version)
    requires v.IsCanonical()
    ensures IsNumeric(MinorOf(v))
  {
  }

  /** Once the guard has been passed, the minors it looked at keep all their SIG presubmits if and
      only if the target is none of them. */
  lemma CheckedLanesStayIff(presubmits: seq<Job>, releases: seq<Version>, target: Minor)
    requires AllCanonical(releases) && Ordered(NotOlder, releases)
    requires MayRemove(presubmits, releases) && IsNumeric(target)
    ensures var latest := Latest(releases);
            (forall i | 0 <= i < 3 :: AllExist(Without(presubmits, SigLanes(target)), MinorOf(latest[i])))
            <==> (forall i | 0 <= i < 3 :: target != MinorOf(latest[i]))
  {
    var latest := Latest(releases);
    LatestDescends(releases);
    forall i | 0 <= i < 3
      ensures AllExist(Without(presubmits, SigLanes(target)), MinorOf(latest[i])) <==> target != MinorOf(latest[i])
    {
      assert latest[i] in latest && latest[i] in releases;
      CanonicalIsNumeric(latest[i]);
      if target != MinorOf(latest[i]) {
        OtherMinorsKeepTheirLanes(presubmits, MinorOf(latest[i]), target);
      } else {
        TargetLosesItsLanes(presubmits, target);
      }
    }
  }

  // ----- the newest minors of the releases -----

  predicate HasLane(jobs: seq<Job>, m: Minor) {
    exists j | j in jobs :: IsSigLane(j.name, m)
  }

  /** No SIG presubmit of the minor is deleted. */
  ghost predicate KeepsLanes(jobs: seq<Job>, target: Minor, m: Minor) {
    forall j | j in jobs && IsSigLane(j.name, m) :: j in Without(jobs, SigLanes(target))
  }

  /** No SIG periodic of the minor is deleted. */
  ghost predicate KeepsPeriodics(jobs: seq<Job>, target: Minor, m: Minor) {
    forall j | j in jobs && IsSigPeriodic(j.name, m) :: j in Without(jobs, SigPeriodics(target))
  }

  lemma KeepsLanesIff(jobs: seq<Job>, target: Minor, m: Minor)
    requires IsNumeric(m) && IsNumeric(target)
    ensures KeepsLanes(jobs, target, m) <==> target != m || !HasLane(jobs, m)
  {
    forall j | j in jobs && IsSigLane(j.name, m)
      ensures j in Without(jobs, SigLanes(target)) <==> target != m
    {
      WithoutHas(jobs, SigLanes(target), j);
      var k :| 0 <= k < |SIG_NAMES| && j.name == SigLane(m, k);
      if l :| 0 <= l < |SIG_NAMES| && j.name == SigLane(target, l) {
        LaneNamesAreInjective("pull-kubevirt-e2e-k8s-", m, SIG_NAMES[k], target, SIG_NAMES[l]);
      }
    }
  }

  lemma OtherMinorsKeepTheirPeriodics(jobs: seq<Job>, target: Minor, m: Minor)
    requires IsNumeric(m) && IsNumeric(target) && m != target
    ensures KeepsPeriodics(jobs, target, m)
  {
    forall j | j in jobs && IsSigPeriodic(j.name, m)
      ensures j in Without(jobs, SigPeriodics(target))
    {
      WithoutHas(jobs, SigPeriodics(target), j);
      var k :| 0 <= k < |SIG_NAMES| && j.name == CreatePeriodicJobName(m, SIG_NAMES[k]);
      if l :| 0 <= l < |SIG_NAMES| && j.name == CreatePeriodicJobName(target, SIG_NAMES[l]) {
        LaneNamesAreInjective("periodic-kubevirt-e2e-k8s-", m, SIG_NAMES[k], target, SIG_NAMES[l]);
      }
    }
  }

  lemma HeadIsNumeric(releases: seq<Version>, i: nat)
    requires AllCanonical(releases) && Ordered(NotOlder, releases) && i < |Heads(releases)|
    ensures Heads(releases)[i].IsCanonical() && IsNumeric(MinorOf(Heads(releases)[i]))
  {
    HeadsAreOnePerMinor(releases);
    assert Heads(releases)[i] in Heads(releases);
    CanonicalIsNumeric(Heads(releases)[i]);
  }

  /** Whatever target is given, the SIG presubmits of the three newest minors all stay in place if
      and only if the target is none of them that has lanes. */
  lemma SupportedLanesStayIff(presubmits: seq<Job>, releases: seq<Version>, target: Minor)
    requires AllCanonical(releases) && Ordered(NotOlder, releases)
    requires |Heads(releases)| >= 3 && IsNumeric(target)
    ensures var newest := Heads(releases);
            (forall i | 0 <= i < 3 :: KeepsLanes(presubmits, target, MinorOf(newest[i])))
            <==> (forall i | 0 <= i < 3 :: target != MinorOf(newest[i]) || !HasLane(presubmits, MinorOf(newest[i])))
  {
    forall i | 0 <= i < 3
      ensures KeepsLanes(presubmits, target, MinorOf(Heads(releases)[i])) <==>
              target != MinorOf(Heads(releases)[i]) || !HasLane(presubmits, MinorOf(Heads(releases)[i]))
    {
      HeadIsNumeric(releases, i);
      KeepsLanesIff(presubmits, target, MinorOf(Heads(releases)[i]));
    }
  }

  /** The fourth release kept is older than the three newest minors of the list. */
  lemma FourthKeptIsOlder(releases: seq<Version>, i: nat)
    requires AllCanonical(releases) && Ordered(NotOlder, releases) && |Latest(releases)| >= 4 && i < 3
    ensures |Heads(releases)| >= 4 && Latest(releases)[3].IsCanonical()
    ensures OlderMinor(Latest(releases)[3], Heads(releases)[i])
    ensures MinorOf(Latest(releases)[3]) != MinorOf(Heads(releases)[i])
  {
    KeptIsNotNewer(releases, 3);
    HeadsByAge(releases, i, 3);
    HeadIsNumeric(releases, i);
    LatestDescends(releases);
    assert Latest(releases)[3] in Latest(releases);
    SameMinorSameSpelling(Latest(releases)[3], Heads(releases)[i]);
  }

  /** Without force and without an explicit target the command never deletes a lane of the three
      newest minors of the releases, presubmit or periodic; and the three minors the guard looked
      at keep all their SIG presubmits. */
  lemma RemovalIsSafe(presubmits: seq<Job>, periodics: seq<Job>, releases: seq<Version>)
    requires AllCanonical(releases) && Ordered(NotOlder, releases)
    requires Planned(presubmits, releases, false, None).RemoveRelease?
    ensures |Latest(releases)| >= 4 && |Heads(releases)| >= 4
    ensures var target := Planned(presubmits, releases, false, None).target;
            forall i | 0 <= i < 3 ::
              && KeepsLanes(presubmits, target, MinorOf(Heads(releases)[i]))
              && KeepsPeriodics(periodics, target, MinorOf(Heads(releases)[i]))
              && AllExist(Without(presubmits, SigLanes(target)), MinorOf(Latest(releases)[i]))
  {
    var latest := Latest(releases);
    var target := MinorOf(latest[3]);
    KeptIsNotNewer(releases, 3);
    LatestDescends(releases);
    assert latest[3] in latest && latest[3] in releases;
    CanonicalIsNumeric(latest[3]);
    forall i | 0 <= i < 3
      ensures KeepsLanes(presubmits, target, MinorOf(Heads(releases)[i]))
      ensures KeepsPeriodics(periodics, target, MinorOf(Heads(releases)[i]))
      ensures target != MinorOf(latest[i])
    {
      FourthKeptIsOlder(releases, i);
      HeadIsNumeric(releases, i);
      KeepsLanesIff(presubmits, target, MinorOf(Heads(releases)[i]));
      OtherMinorsKeepTheirPeriodics(periodics, target, MinorOf(Heads(releases)[i]));
      assert latest[i] in latest && OlderMinor(latest[3], latest[i]);
      SameMinorSameSpelling(latest[3], latest[i]);
    }
    CheckedLanesStayIff(presubmits, releases, target);
  }

  /** What is removed is the fourth newest minor if and only if the four newest minors are spelled
      one lower than the other. Then the guard has looked at exactly the three newest. */
  lemma RemovesTheFourthNewestIff(presubmits: seq<Job>, releases: seq<Version>)
    requires AllCanonical(releases) && Ordered(NotOlder, releases)
    requires Planned(presubmits, releases, false, None).RemoveRelease?
    ensures |Heads(releases)| >= 4
    ensures var target := Planned(presubmits, releases, false, None).target;
            target == MinorOf(Heads(releases)[3]) <==> HeadsDescend(Heads(releases), 4)
    ensures HeadsDescend(Heads(releases), 4) ==> Latest(releases)[..4] == Heads(releases)[..4]
  {
    NthIsRightIff(releases, 4);
    HeadIsNumeric(releases, 3);
    LatestDescends(releases);
    assert Latest(releases)[3] in Latest(releases);
    SameMinorSameSpelling(Latest(releases)[3], Heads(releases)[3]);
  }

  /** If they are, every release is of a minor the guard looked at, of the target, or of a minor
      older than the target. */
  lemma NothingEscapesTheGuard(presubmits: seq<Job>, releases: seq<Version>, v: Version)
    requires AllCanonical(releases) && Ordered(NotOlder, releases) && v in releases
    requires Planned(presubmits, releases, false, None).RemoveRelease?
    requires |Heads(releases)| >= 4 && HeadsDescend(Heads(releases), 4)
    ensures (exists i | 0 <= i < 4 :: SameMinor(v, Latest(releases)[i])) || OlderMinor(v, Latest(releases)[3])
  {
    AmongTheNewest(releases, 4, v);
  }

  function RequiredLane(name: string): Job {
    Job(name, true, false, false, false, "", [[]], [], "")
  }

  function RequiredLanes(m: Minor): (r: seq<Job>)
    ensures forall j | j in r :: IsRequired(j) && IsSigLane(j.name, m)
    ensures AllExist(r, m)
  {
    var r := [RequiredLane(SigLane(m, 0)), RequiredLane(SigLane(m, 1)), RequiredLane(SigLane(m, 2)), RequiredLane(SigLane(m, 3))];
    assert r[0] in r && r[1] in r && r[2] in r && r[3] in r;
    r
  }

  lemma NoLaneOfAnother(jobs: seq<Job>, m: Minor, other: Minor)
    requires IsNumeric(m) && IsNumeric(other) && m != other && forall j | j in jobs :: IsSigLane(j.name, m)
    ensures !HasLane(jobs, other)
  {
    forall j | j in jobs
      ensures !IsSigLane(j.name, other)
    {
      var k :| 0 <= k < |SIG_NAMES| && j.name == SigLane(m, k);
      if l :| 0 <= l < |SIG_NAMES| && j.name == SigLane(other, l) {
        LaneNamesAreInjective("pull-kubevirt-e2e-k8s-", m, SIG_NAMES[k], other, SIG_NAMES[l]);
      }
    }
  }

  lemma RequiredLanesPassTheGuard(presubmits: seq<Job>, releases: seq<Version>)
    requires |Latest(releases)| >= 4
    requires forall j | j in presubmits :: IsRequired(j)
    requires forall i | 0 <= i < 3 :: AllExist(presubmits, MinorOf(Latest(releases)[i]))
    ensures MayRemove(presubmits, releases)
  {
  }

  lemma AllExistInConcat(a: seq<Job>, b: seq<Job>, m: Minor)
    requires AllExist(a, m) || AllExist(b, m)
    ensures AllExist(a + b, m)
  {
    forall k | 0 <= k < |SIG_NAMES|
      ensures HasName(a + b, SigLane(m, k))
    {
      HasNameInConcat(a, b, SigLane(m, k));
    }
  }

  /** The required lanes of three minors, and nothing else. */
  lemma LanesOfThree(x: Minor, y: Minor, z: Minor, other: Minor) returns (jobs: seq<Job>)
    requires IsNumeric(x) && IsNumeric(y) && IsNumeric(z) && IsNumeric(other) && other !in {x, y, z}
    ensures forall j | j in jobs :: IsRequired(j)
    ensures AllExist(jobs, x) && AllExist(jobs, y) && AllExist(jobs, z) && !HasLane(jobs, other)
  {
    var a, b, c := RequiredLanes(x), RequiredLanes(y), RequiredLanes(z);
    jobs := a + b + c;
    AllExistInConcat(a, b, x);
    AllExistInConcat(a, b, y);
    AllExistInConcat(a + b, c, x);
    AllExistInConcat(a + b, c, y);
    AllExistInConcat(a + b, c, z);
    NoLaneOfAnother(a, x, other);
    NoLaneOfAnother(b, y, other);
    NoLaneOfAnother(c, z, other);
    assert forall j | j in jobs :: j in a || j in b || j in c;
  }

  /** With 1.11, 1.10, 1.9, 1.8, 1.1 and 1.0 the command removes the lanes of the sixth newest minor,
      and it does so although 1.9 has no lanes yet. */
  lemma GuardCanSkipMinors() returns (presubmits: seq<Job>, releases: seq<Version>)
    ensures AllCanonical(releases) && Ordered(NotOlder, releases)
    ensures |Heads(releases)| == 6
    ensures Planned(presubmits, releases, false, None) == RemoveRelease(MinorOf(Heads(releases)[5]))
    ensures !HasLane(presubmits, MinorOf(Heads(releases)[2]))
  {
    releases := SkippedMinors();
    var latest := Latest(releases);
    forall i | 0 <= i < 6
      ensures IsNumeric(MinorOf(releases[i]))
    {
      CanonicalIsNumeric(releases[i]);
    }
    presubmits := LanesOfThree(MinorOf(latest[0]), MinorOf(latest[1]), MinorOf(latest[2]), MinorOf(releases[2]));
    RequiredLanesPassTheGuard(presubmits, releases);
  }

  /** The explicit target is not checked against the guard's releases: with it, the newest release
      loses its lanes. */
  lemma ExplicitTargetBypassesTheGuard(presubmits: seq<Job>, releases: seq<Version>)
    requires AllCanonical(releases) && Ordered(NotOlder, releases)
    requires MayRemove(presubmits, releases)
    ensures var newest := MinorOf(Latest(releases)[0]);
            && Planned(presubmits, releases, false, Some(newest)) == RemoveRelease(newest)
            && !AllExist(Without(presubmits, SigLanes(newest)), newest)
  {
    var newest := MinorOf(Latest(releases)[0]);
    TargetLosesItsLanes(presubmits, newest);
  }

  // ----- the whole rollout -----

  lemma NamesStay(jobs: seq<Job>, v: Version, name: string)
    requires v.IsFaithful() && HasName(jobs, name)
    ensures HasName(Required(jobs, v), name)
  {
    var j :| j in jobs && j.name == name;
    var i :| 0 <= i < |jobs| && jobs[i] == j;
    RunStepsLanes(jobs, v, i);
    assert Required(jobs, v)[i] in Required(jobs, v);
  }

  /** Copying the lanes of `source` and requiring twice opens the guard of the removal for the new
      release: every SIG lane exists and is required. */
  lemma RolloutOpensTheGuard(jobs: seq<Job>, v: Version, source: Minor)
    requires v.IsCanonical() && IsNumeric(source) && AllExist(jobs, source)
    requires forall j | j in jobs :: j.env != []
    ensures var copied := Copied(PRESUBMITS, jobs, MinorOf(v), source);
            Check(Required(Required(copied, v), v), MinorOf(v)) == AllJobsAreRequired
  {
    var m := MinorOf(v);
    var copied := Copied(PRESUBMITS, jobs, m, source);
    var once := Required(copied, v);
    var twice := Required(once, v);
    PresubmitsAreSound(jobs);
    forall k | 0 <= k < |SIG_NAMES|
      ensures HasName(twice, SigLane(m, k)) && FirstIsRequired(twice, SigLane(m, k))
    {
      assert HasName(jobs, SigLane(source, k));
      CopyCompletesLanes(PRESUBMITS, jobs, m, source, k);
      NamesStay(copied, v, SigLane(m, k));
      NamesStay(once, v, SigLane(m, k));
      assert LaneSigs()[k] == SIG_NAMES[k];
      LanesAreRequired(copied, v, SigLane(m, k));
    }
  }

  lemma LanesAreRequired(jobs: seq<Job>, v: Version, name: string)
    requires v.IsFaithful() && IsLane(name, MinorOf(v))
    ensures FirstIsRequired(Required(Required(jobs, v), v), name)
  {
    var twice := Required(Required(jobs, v), v);
    if FirstNamed(twice, name).Some? {
      var i :| 0 <= i < |twice| && twice[i] == FirstNamed(twice, name).value;
      assert |Required(jobs, v)| == |jobs|;
      RunStepsLanes(jobs, v, i);
      RunStepsLanes(Required(jobs, v), v, i);
      TwoRunsRequireEveryLane(jobs, v, i);
    }
  }
}
