/** What the guard of the removal asks of the job list, entry by entry. */
module RemovalGuard {
  import opened Wrappers
  import opened Versions
  import opened LatestMinors
  import opened JobNames
  import opened JobLifecycle
  import opened RemoveJobs

  const SIGS: set<string> := {"sig-compute", "sig-network", "sig-operator", "sig-storage"}

  /** The presubmit lane of a SIG for the minor of a release. */
  function Lane(v: Version, sig: string): string {
    "pull-kubevirt-e2e-k8s-" + v.major.text + "." + v.minor.text + "-" + sig
  }

  predicate IsThere(jobs: seq<Job>, name: string) {
    exists i | 0 <= i < |jobs| :: jobs[i].name == name
  }

  /** Entry `i` is the first one of the name. */
  predicate IsFirst(jobs: seq<Job>, i: nat, name: string)
    requires i < |jobs|
  {
    jobs[i].name == name && forall k | 0 <= k < i :: jobs[k].name != name
  }

  /** The first entry of the name always runs and is not optional. */
  predicate FirstGates(jobs: seq<Job>, name: string) {
    forall i: nat | i < |jobs| && IsFirst(jobs, i, name) :: jobs[i].alwaysRun && !jobs[i].optional
  }

  /** Four minors are known, the three newest have a lane for every SIG, and those of the newest gate. */
  ghost predicate GuardOpen(jobs: seq<Job>, releases: seq<Version>) {
    var latest := Latest(releases);
    && |latest| >= 4
    && (forall i, sig | 0 <= i < 3 && sig in SIGS :: IsThere(jobs, Lane(latest[i], sig)))
    && forall sig | sig in SIGS :: FirstGates(jobs, Lane(latest[0], sig))
  }

  lemma ThereIff(jobs: seq<Job>, name: string)
    ensures HasName(jobs, name) <==> IsThere(jobs, name)
  {
  }

  lemma {:induction false} FirstNamedIsFirst(jobs: seq<Job>, i: nat, name: string)
    requires i < |jobs| && IsFirst(jobs, i, name)
    ensures FirstNamed(jobs, name) == Some(jobs[i])
  {
    var front := jobs[..|jobs| - 1];
    if i < |front| {
      FirstNamedIsFirst(front, i, name);
    } else {
      ThereIff(front, name);
    }
  }

  lemma {:induction false} SomeIsFirst(jobs: seq<Job>, name: string) returns (i: nat)
    requires IsThere(jobs, name)
    ensures i < |jobs| && IsFirst(jobs, i, name)
  {
    var front := jobs[..|jobs| - 1];
    if IsThere(front, name) {
      i := SomeIsFirst(front, name);
    } else {
      i := |front|;
      forall k | 0 <= k < i
        ensures jobs[k].name != name
      {
        assert front[k] == jobs[k];
      }
    }
  }

  lemma GatesIff(jobs: seq<Job>, name: string)
    requires IsThere(jobs, name)
    ensures FirstIsRequired(jobs, name) <==> FirstGates(jobs, name)
  {
    var i := SomeIsFirst(jobs, name);
    FirstNamedIsFirst(jobs, i, name);
    forall k: nat | k < |jobs| && IsFirst(jobs, k, name)
      ensures jobs[k] == FirstNamed(jobs, name).value
    {
      FirstNamedIsFirst(jobs, k, name);
    }
  }

  lemma LaneIsSpelled(v: Version, sig: string)
    ensures CreatePresubmitJobName(MinorOf(v), sig) == Lane(v, sig)
  {
  }

  lemma SigsAreNamed(sig: string)
    ensures sig in SIGS <==> sig in SIG_NAMES
  {
    assert SIG_NAMES[0] == "sig-compute" && SIG_NAMES[1] == "sig-network" && SIG_NAMES[2] == "sig-operator" && SIG_NAMES[3] == "sig-storage";
  }

  lemma AllExistIff(jobs: seq<Job>, v: Version)
    ensures AllExist(jobs, MinorOf(v)) <==> forall sig | sig in SIGS :: IsThere(jobs, Lane(v, sig))
  {
    forall k | 0 <= k < |SIG_NAMES|
      ensures SIG_NAMES[k] in SIGS
      ensures HasName(jobs, SigLane(MinorOf(v), k)) <==> IsThere(jobs, Lane(v, SIG_NAMES[k]))
    {
      SigsAreNamed(SIG_NAMES[k]);
      LaneIsSpelled(v, SIG_NAMES[k]);
      ThereIff(jobs, SigLane(MinorOf(v), k));
    }
    forall sig | sig in SIGS
      ensures sig in SIG_NAMES
    {
      SigsAreNamed(sig);
    }
  }

  lemma RequiredIff(jobs: seq<Job>, v: Version)
    requires forall sig | sig in SIGS :: IsThere(jobs, Lane(v, sig))
    ensures Check(jobs, MinorOf(v)) == AllJobsAreRequired <==> forall sig | sig in SIGS :: FirstGates(jobs, Lane(v, sig))
  {
    AllExistIff(jobs, v);
    forall k | 0 <= k < |SIG_NAMES|
      ensures SIG_NAMES[k] in SIGS
      ensures FirstIsRequired(jobs, SigLane(MinorOf(v), k)) <==> FirstGates(jobs, Lane(v, SIG_NAMES[k]))
    {
      SigsAreNamed(SIG_NAMES[k]);
      LaneIsSpelled(v, SIG_NAMES[k]);
      GatesIff(jobs, Lane(v, SIG_NAMES[k]));
    }
    forall sig | sig in SIGS
      ensures sig in SIG_NAMES
    {
      SigsAreNamed(sig);
    }
  }

  lemma GuardIff(jobs: seq<Job>, releases: seq<Version>)
    ensures MayRemove(jobs, releases) <==> GuardOpen(jobs, releases)
  {
    var latest := Latest(releases);
    if |latest| >= 4 {
      forall i | 0 <= i < 3
        ensures AllExist(jobs, MinorOf(latest[i])) <==> forall sig | sig in SIGS :: IsThere(jobs, Lane(latest[i], sig))
      {
        AllExistIff(jobs, latest[i]);
      }
      if forall sig | sig in SIGS :: IsThere(jobs, Lane(latest[0], sig)) {
        RequiredIff(jobs, latest[0]);
      }
    }
  }

  /** Without force something is removed if and only if the guard is open; with force, if and only if
      a target is given. The target given is removed, and otherwise the fourth newest minor kept. */
  lemma WhatIsRemoved(jobs: seq<Job>, releases: seq<Version>, force: bool, target: Option<Minor>)
    ensures var plan := Planned(jobs, releases, force, target);
            && (plan.RemoveRelease? <==> if force then target.Some? else GuardOpen(jobs, releases))
            && (plan.NoTargetGiven? <==> force && target.None?)
            && (plan.RemoveRelease? && target.Some? ==> plan.target == target.value)
            && (plan.RemoveRelease? && target.None? ==> |Latest(releases)| >= 4 && plan.target == MinorOf(Latest(releases)[3]))
  {
    GuardIff(jobs, releases);
  }

  // ----- what is left -----

  /** What is left of a list in two parts is what is left of the parts, in that order; one job is left
      unless it has one of the names. */
  lemma {:induction false} PartsAreLeft(a: seq<Job>, b: seq<Job>, j: Job, names: set<string>)
    ensures Without(a + b, names) == Without(a, names) + Without(b, names)
    ensures Without([j], names) == if j.name in names then [] else [j]
  {
    assert [j][..0] == [];
    if b == [] {
      assert a + b == a;
    } else {
      var front, last := b[..|b| - 1], b[|b| - 1];
      assert (a + b)[..|a + b| - 1] == a + front;
      PartsAreLeft(a, front, j, names);
    }
  }

  /** The periodics deleted are exactly the SIG periodics of the target. */
  lemma OnlyTargetPeriodicsGo(periodics: seq<Job>, target: Minor, j: Job)
    requires j in periodics
    ensures j !in Without(periodics, SigPeriodics(target)) <==>
            exists sig | sig in SIGS :: j.name == "periodic-kubevirt-e2e-k8s-" + target.major + "." + target.minor + "-" + sig
  {
    WithoutHas(periodics, SigPeriodics(target), j);
    if k :| 0 <= k < |SIG_NAMES| && j.name == CreatePeriodicJobName(target, SIG_NAMES[k]) {
      SigsAreNamed(SIG_NAMES[k]);
    }
    if sig :| sig in SIGS && j.name == "periodic-kubevirt-e2e-k8s-" + target.major + "." + target.minor + "-" + sig {
      SigsAreNamed(sig);
      var k :| 0 <= k < |SIG_NAMES| && SIG_NAMES[k] == sig;
      assert j.name == CreatePeriodicJobName(target, SIG_NAMES[k]);
    }
  }

  /** The presubmits deleted are exactly the SIG lanes of the target. */
  lemma OnlyTargetPresubmitsGo(presubmits: seq<Job>, target: Version, j: Job)
    requires j in presubmits
    ensures j !in Without(presubmits, SigLanes(MinorOf(target))) <==> exists sig | sig in SIGS :: j.name == Lane(target, sig)
  {
    WithoutHas(presubmits, SigLanes(MinorOf(target)), j);
    if k :| 0 <= k < |SIG_NAMES| && j.name == SigLane(MinorOf(target), k) {
      SigsAreNamed(SIG_NAMES[k]);
      LaneIsSpelled(target, SIG_NAMES[k]);
    }
    if sig :| sig in SIGS && j.name == Lane(target, sig) {
      SigsAreNamed(sig);
      LaneIsSpelled(target, sig);
      var k :| 0 <= k < |SIG_NAMES| && SIG_NAMES[k] == sig;
      assert j.name == SigLane(MinorOf(target), k);
    }
  }
}
