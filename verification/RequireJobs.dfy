/** Making the lanes of the newest release required, one step per run. */
module RequireJobs {
  import opened Versions
  import opened JobNames
  import opened JobLifecycle

  function LaneSigs(): seq<string> {
    SIG_NAMES + [SERIAL]
  }

  /** The jobs the command looks at for a release. */
  predicate IsLane(name: string, m: Minor) {
    exists k | 0 <= k < |LaneSigs()| :: name == CreatePresubmitJobName(m, LaneSigs()[k])
  }

  lemma LanesAreSpelled(name: string, m: Minor)
    ensures IsLane(name, m) <==>
            exists sig | sig in {"sig-compute", "sig-compute-serial", "sig-network", "sig-operator", "sig-storage"} ::
              name == "pull-kubevirt-e2e-k8s-" + m.major + "." + m.minor + "-" + sig
  {
    var sigs := LaneSigs();
    assert sigs[0] == "sig-compute" && sigs[1] == "sig-network" && sigs[2] == "sig-operator" && sigs[3] == "sig-storage"
        && sigs[4] == "sig-compute-serial";
    forall k | 0 <= k < |sigs|
      ensures sigs[k] in {"sig-compute", "sig-compute-serial", "sig-network", "sig-operator", "sig-storage"}
      ensures CreatePresubmitJobName(m, sigs[k]) == "pull-kubevirt-e2e-k8s-" + m.major + "." + m.minor + "-" + sigs[k]
    {
    }
    if sig :| sig in {"sig-compute", "sig-compute-serial", "sig-network", "sig-operator", "sig-storage"}
              && name == "pull-kubevirt-e2e-k8s-" + m.major + "." + m.minor + "-" + sig {
      var k := if sig == sigs[0] then 0 else if sig == sigs[1] then 1 else if sig == sigs[2] then 2 else if sig == sigs[3] then 3 else 4;
      assert sig == sigs[k] && name == CreatePresubmitJobName(m, sigs[k]);
    }
  }

  datatype Phase = Phase1 | Phase2

  /** Phase 1 lets the job always run, phase 2 makes it required. */
  function Step(j: Job, m: Minor): Job {
    if !IsLane(j.name, m) then j
    else if !j.alwaysRun then j.(alwaysRun := true, skipReport := false)
    else if j.optional then j.(optional := false)
    else j
  }

  predicate Changes(j: Job, m: Minor) {
    Step(j, m) != j
  }

  function Steps(jobs: seq<Job>, m: Minor): (r: seq<Job>)
    ensures |r| == |jobs| && forall i | 0 <= i < |r| :: r[i] == Step(jobs[i], m)
  {
    seq(|jobs|, i requires 0 <= i < |jobs| => Step(jobs[i], m))
  }

  /** The phase of the last job that changed; phase 1 when none did. */
  function LastPhase(jobs: seq<Job>, m: Minor): Phase {
    if jobs == [] then Phase1
    else if Changes(jobs[|jobs| - 1], m) then (if jobs[|jobs| - 1].alwaysRun then Phase2 else Phase1)
    else LastPhase(jobs[..|jobs| - 1], m)
  }

  function BeforeMerge(j: Job, m: Minor): Job {
    if IsLane(j.name, m) then j.(alwaysRun := false, runBeforeMerge := true) else j
  }

  function AllBeforeMerge(jobs: seq<Job>, m: Minor): (r: seq<Job>)
    ensures |r| == |jobs| && forall i | 0 <= i < |r| :: r[i] == BeforeMerge(jobs[i], m)
  {
    seq(|jobs|, i requires 0 <= i < |jobs| => BeforeMerge(jobs[i], m))
  }

  /** One run of the command for the newest release. */
  function Required(jobs: seq<Job>, v: Version): seq<Job> {
    var stepped := Steps(jobs, MinorOf(v));
    if stepped == jobs then jobs
    else if LastPhase(jobs, MinorOf(v)) == Phase2 then AllBeforeMerge(stepped, Previous(v))
    else stepped
  }

  // ----- the procedures -----

  class JobConfig {
    var presubmits: seq<Job>
    var periodics: seq<Job>

    constructor (presubmits: seq<Job>, periodics: seq<Job>)
      ensures this.presubmits == presubmits && this.periodics == periodics
    {
      this.presubmits, this.periodics := presubmits, periodics;
    }

    static method CopyJobs(lanes: Lanes, jobs: seq<Job>, target: Minor, source: Minor) returns (r: seq<Job>, updated: bool)
      ensures r == Copied(lanes, jobs, target, source)
      ensures updated <==> r != jobs
    {
      r, updated := jobs, false;
      for k := 0 to |SIG_NAMES|
        invariant r == jobs + Missing(lanes, jobs, target, source, k)
        invariant updated <==> Missing(lanes, jobs, target, source, k) != []
      {
        var targetName := lanes.nameOf(target, SIG_NAMES[k]);
        var sourceName := lanes.nameOf(source, SIG_NAMES[k]);
        if HasName(jobs, targetName) {
          continue;
        }
        var from := LastNamed(jobs, sourceName);
        if from.None? {
          continue;
        }
        r := r + [lanes.clone(from.value, target, SIG_NAMES[k])];
        updated := true;
      }
    }

    /** The old jobs stay where they are; missing lanes are appended. */
    method CopyPresubmitJobsForNewProvider(target: Minor, source: Minor) returns (updated: bool)
      requires forall j | j in presubmits :: j.env != []
      modifies `presubmits
      ensures presubmits == Copied(PRESUBMITS, old(presubmits), target, source)
      ensures old(presubmits) <= presubmits
      ensures updated <==> presubmits != old(presubmits)
    {
      var jobs := presubmits;
      presubmits, updated := CopyJobs(PRESUBMITS, jobs, target, source);
    }

    method CopyPeriodicJobsForNewProvider(target: Minor, source: Minor, advance: string -> string) returns (updated: bool)
      modifies `periodics
      ensures periodics == Copied(PERIODICS(advance), old(periodics), target, source)
      ensures old(periodics) <= periodics
      ensures updated <==> periodics != old(periodics)
    {
      var jobs := periodics;
      periodics, updated := CopyJobs(PERIODICS(advance), jobs, target, source);
    }

    method UpdatePresubmitsAlwaysRunAndOptionalFields(m: Minor) returns (updated: bool, phase: Phase)
      modifies `presubmits
      ensures presubmits == Steps(old(presubmits), m)
      ensures updated <==> presubmits != old(presubmits)
      ensures phase == LastPhase(old(presubmits), m)
    {
      updated, phase := false, Phase1;
      ghost var before := presubmits;
      for i := 0 to |presubmits|
        invariant |presubmits| == |before|
        invariant forall k | 0 <= k < i :: presubmits[k] == Step(before[k], m)
        invariant forall k | i <= k < |before| :: presubmits[k] == before[k]
        invariant updated <==> exists k | 0 <= k < i :: presubmits[k] != before[k]
        invariant phase == LastPhase(before[..i], m)
      {
        assert before[..i + 1][..i] == before[..i];
        var job := presubmits[i];
        if !IsLane(job.name, m) {
          continue;
        }
        if !job.alwaysRun {
          presubmits := presubmits[i := job.(alwaysRun := true, skipReport := false)];
          updated, phase := true, Phase1;
          continue;
        }
        if job.optional {
          presubmits := presubmits[i := job.(optional := false)];
          updated, phase := true, Phase2;
        }
      }
      assert before[..|before|] == before;
    }

    method SetPresubmitsToRunBeforeMergeOnly(m: Minor)
      modifies `presubmits
      ensures presubmits == AllBeforeMerge(old(presubmits), m)
    {
      ghost var before := presubmits;
      for i := 0 to |presubmits|
        invariant |presubmits| == |before|
        invariant forall k | 0 <= k < i :: presubmits[k] == BeforeMerge(before[k], m)
        invariant forall k | i <= k < |before| :: presubmits[k] == before[k]
      {
        var job := presubmits[i];
        if !IsLane(job.name, m) {
          continue;
        }
        if job.alwaysRun {
          job := job.(alwaysRun := false);
        }
        if !job.runBeforeMerge {
          job := job.(runBeforeMerge := true);
        }
        presubmits := presubmits[i := job];
      }
    }

    /** A run for the newest release `v`. */
    method RequirePresubmits(v: Version) returns (written: bool)
      modifies `presubmits
      ensures presubmits == Required(old(presubmits), v)
      ensures v.IsFaithful() ==> (written <==> presubmits != old(presubmits))
    {
      if v.IsFaithful() {
        ChangesAreKept(presubmits, v);
      }
      var updated, phase := UpdatePresubmitsAlwaysRunAndOptionalFields(MinorOf(v));
      if !updated {
        return false;
      }
      if phase == Phase2 {
        SetPresubmitsToRunBeforeMergeOnly(Previous(v));
      }
      return true;
    }
  }

  // ----- what runs achieve -----

  predicate IsRequired(j: Job) {
    j.alwaysRun && !j.optional
  }

  lemma LanesOfPreviousAreOthers(v: Version, name: string)
    requires v.IsFaithful() && IsLane(name, MinorOf(v))
    ensures !IsLane(name, Previous(v))
  {
    var k :| 0 <= k < |LaneSigs()| && name == CreatePresubmitJobName(MinorOf(v), LaneSigs()[k]);
    forall l | 0 <= l < |LaneSigs()|
      ensures name != CreatePresubmitJobName(Previous(v), LaneSigs()[l])
    {
      PreviousIsOther(v, LaneSigs()[l], LaneSigs()[k]);
    }
  }

  /** A run moves every lane of the release one step, whatever happens to the previous release. */
  lemma RunStepsLanes(jobs: seq<Job>, v: Version, i: nat)
    requires v.IsFaithful() && i < |jobs|
    ensures |Required(jobs, v)| == |jobs| && Required(jobs, v)[i].name == jobs[i].name
    ensures IsLane(jobs[i].name, MinorOf(v)) ==> Required(jobs, v)[i] == Step(jobs[i], MinorOf(v))
    ensures !IsLane(jobs[i].name, MinorOf(v)) && !IsLane(jobs[i].name, Previous(v)) ==> Required(jobs, v)[i] == jobs[i]
  {
    if IsLane(jobs[i].name, MinorOf(v)) {
      LanesOfPreviousAreOthers(v, jobs[i].name);
    }
  }

  /** What the first phase changes is not undone by the second. */
  lemma ChangesAreKept(jobs: seq<Job>, v: Version)
    requires v.IsFaithful()
    ensures Required(jobs, v) == jobs <==> Steps(jobs, MinorOf(v)) == jobs
  {
    if i :| 0 <= i < |jobs| && Step(jobs[i], MinorOf(v)) != jobs[i] {
      RunStepsLanes(jobs, v, i);
    }
  }

  /** Two runs make every present lane of the release required, and change nothing else of it; one
      that did not run before reports from then on. */
  lemma TwoRunsRequireEveryLane(jobs: seq<Job>, v: Version, i: nat)
    requires v.IsFaithful() && i < |jobs| && IsLane(jobs[i].name, MinorOf(v))
    ensures var twice := Required(Required(jobs, v), v);
            && |twice| == |jobs|
            && twice[i] == jobs[i].(alwaysRun := true, optional := false, skipReport := jobs[i].alwaysRun && jobs[i].skipReport)
  {
    RunStepsLanes(jobs, v, i);
    RunStepsLanes(Required(jobs, v), v, i);
  }

  /** A run changes nothing exactly when every present lane is required. */
  lemma RequiredIsStable(jobs: seq<Job>, v: Version)
    requires v.IsFaithful()
    ensures Required(jobs, v) == jobs <==> forall i | 0 <= i < |jobs| && IsLane(jobs[i].name, MinorOf(v)) :: IsRequired(jobs[i])
  {
    var m := MinorOf(v);
    if i :| 0 <= i < |jobs| && IsLane(jobs[i].name, m) && !IsRequired(jobs[i]) {
      RunStepsLanes(jobs, v, i);
      assert Required(jobs, v)[i] != jobs[i];
    } else {
      assert Steps(jobs, m) == jobs;
    }
  }

  // ----- when the previous release steps back -----

  /** The run retires the always-run lanes of the previous release. */
  predicate Retires(jobs: seq<Job>, v: Version) {
    Steps(jobs, MinorOf(v)) != jobs && LastPhase(jobs, MinorOf(v)) == Phase2
  }

  lemma RetiredLanes(jobs: seq<Job>, v: Version, i: nat)
    requires v.IsFaithful() && i < |jobs| && IsLane(jobs[i].name, Previous(v)) && !IsLane(jobs[i].name, MinorOf(v))
    ensures Required(jobs, v)[i] == if Retires(jobs, v) then jobs[i].(alwaysRun := false, runBeforeMerge := true) else jobs[i]
  {
  }

  lemma {:induction false} AllRunningMeansPhase2(jobs: seq<Job>, m: Minor)
    requires forall i | 0 <= i < |jobs| && IsLane(jobs[i].name, m) :: jobs[i].alwaysRun
    ensures LastPhase(jobs, m) == Phase2 <==> exists i | 0 <= i < |jobs| :: Changes(jobs[i], m)
  {
    if jobs != [] {
      AllRunningMeansPhase2(jobs[..|jobs| - 1], m);
      assert forall i | 0 <= i < |jobs| - 1 :: jobs[..|jobs| - 1][i] == jobs[i];
    }
  }

  /** A lane fresh from copying. */
  predicate IsFresh(j: Job) {
    !j.alwaysRun && j.optional
  }

  lemma SecondRunRetiresIff(jobs: seq<Job>, v: Version)
    requires v.IsFaithful()
    ensures Retires(Required(jobs, v), v) <==> exists i | 0 <= i < |jobs| :: IsLane(jobs[i].name, MinorOf(v)) && IsFresh(jobs[i])
  {
    var m, once := MinorOf(v), Required(jobs, v);
    forall i | 0 <= i < |once|
      ensures once[i].name == jobs[i].name
      ensures IsLane(once[i].name, m) ==> once[i].alwaysRun
      ensures Changes(once[i], m) <==> IsLane(jobs[i].name, m) && IsFresh(jobs[i])
    {
      RunStepsLanes(jobs, v, i);
    }
    AllRunningMeansPhase2(once, m);
    if i :| 0 <= i < |once| && Changes(once[i], m) {
      assert Steps(once, m)[i] != once[i];
    }
  }

  /** If copying adds a lane for the release, the second run after it retires the previous lanes. */
  lemma CopyingLeadsToRetirement(jobs: seq<Job>, v: Version, source: Minor)
    requires v.IsFaithful()
    requires forall j | j in jobs :: j.env != []
    requires Copied(PRESUBMITS, jobs, MinorOf(v), source) != jobs
    ensures Retires(Required(Copied(PRESUBMITS, jobs, MinorOf(v), source), v), v)
  {
    var m := MinorOf(v);
    var added := Missing(PRESUBMITS, jobs, m, source, |SIG_NAMES|);
    var copied := Copied(PRESUBMITS, jobs, m, source);
    assert added != [] by {
      assert jobs + [] == jobs;
    }
    var from, k := CopiedPresubmitsStartOptional(jobs, m, source, added[0]);
    assert LaneSigs()[k] == SIG_NAMES[k];
    assert copied[|jobs|] == added[0];
    assert IsLane(copied[|jobs|].name, m) && IsFresh(copied[|jobs|]);
    SecondRunRetiresIff(copied, v);
  }

  /** Some lane of the release runs and is optional, and every lane listed after it runs. */
  ghost predicate EndsRunning(jobs: seq<Job>, m: Minor) {
    exists i | 0 <= i < |jobs| :: IsLastToStart(jobs, m, i)
  }

  ghost predicate IsLastToStart(jobs: seq<Job>, m: Minor, i: nat)
    requires i < |jobs|
  {
    && IsLane(jobs[i].name, m) && jobs[i].alwaysRun && jobs[i].optional
    && forall k | i < k < |jobs| && IsLane(jobs[k].name, m) :: jobs[k].alwaysRun
  }

  lemma {:induction false} LastPhaseIff(jobs: seq<Job>, m: Minor)
    ensures LastPhase(jobs, m) == Phase2 <==> EndsRunning(jobs, m)
  {
    if jobs != [] {
      var front, last := jobs[..|jobs| - 1], jobs[|jobs| - 1];
      LastPhaseIff(front, m);
      if EndsRunning(front, m) && (IsLane(last.name, m) ==> last.alwaysRun) {
        var i :| 0 <= i < |front| && IsLastToStart(front, m, i);
        assert IsLastToStart(jobs, m, i);
      }
      if i :| 0 <= i < |front| && IsLastToStart(jobs, m, i) {
        assert IsLastToStart(front, m, i);
      }
      if Changes(last, m) && last.alwaysRun {
        assert IsLastToStart(jobs, m, |jobs| - 1);
      }
    }
  }

  /** The list after `n` runs. */
  function RequiredTimes(jobs: seq<Job>, v: Version, n: nat): seq<Job> {
    if n == 0 then jobs else Required(RequiredTimes(jobs, v, n - 1), v)
  }

  /** Some run, sooner or later, retires the lanes of the previous release. */
  ghost predicate EverRetires(jobs: seq<Job>, v: Version) {
    exists n: nat :: Retires(RequiredTimes(jobs, v, n), v)
  }

  lemma {:induction false} LaterRunsChangeNothing(jobs: seq<Job>, v: Version, n: nat)
    requires v.IsFaithful() && n >= 2
    ensures RequiredTimes(jobs, v, n) == RequiredTimes(jobs, v, 2)
    ensures !Retires(RequiredTimes(jobs, v, n), v)
  {
    var twice := RequiredTimes(jobs, v, 2);
    assert RequiredTimes(jobs, v, 1) == Required(jobs, v);
    assert twice == Required(Required(jobs, v), v);
    forall i | 0 <= i < |twice| && IsLane(twice[i].name, MinorOf(v))
      ensures IsRequired(twice[i])
    {
      TwiceRequiredByName(jobs, v, i);
    }
    RequiredIsStable(twice, v);
    StableMeansNoChange(twice, v);
    if n > 2 {
      LaterRunsChangeNothing(jobs, v, n - 1);
    }
  }

  lemma TwiceRequiredByName(jobs: seq<Job>, v: Version, i: nat)
    requires v.IsFaithful() && i < |Required(Required(jobs, v), v)|
    requires IsLane(Required(Required(jobs, v), v)[i].name, MinorOf(v))
    ensures IsRequired(Required(Required(jobs, v), v)[i])
  {
    assert |Required(jobs, v)| == |jobs|;
    RunStepsLanes(jobs, v, i);
    RunStepsLanes(Required(jobs, v), v, i);
    TwoRunsRequireEveryLane(jobs, v, i);
  }

  lemma StableMeansNoChange(jobs: seq<Job>, v: Version)
    requires v.IsFaithful() && forall i | 0 <= i < |jobs| && IsLane(jobs[i].name, MinorOf(v)) :: IsRequired(jobs[i])
    ensures Steps(jobs, MinorOf(v)) == jobs && !Retires(jobs, v)
  {
  }

  /** However often the command runs, the previous release's lanes are retired in some run if and
      only if some lane of the release is fresh, or runs and is optional with only running lanes
      after it. */
  lemma PreviousLanesRetireIff(jobs: seq<Job>, v: Version)
    requires v.IsFaithful()
    ensures EverRetires(jobs, v) <==>
              || (exists i | 0 <= i < |jobs| :: IsLane(jobs[i].name, MinorOf(v)) && IsFresh(jobs[i]))
              || EndsRunning(jobs, MinorOf(v))
  {
    FirstRunRetiresIff(jobs, v);
    SecondRunRetiresIff(jobs, v);
    OnlyTheFirstTwoRetire(jobs, v);
  }

  lemma FirstRunRetiresIff(jobs: seq<Job>, v: Version)
    ensures Retires(jobs, v) <==> EndsRunning(jobs, MinorOf(v))
  {
    LastPhaseIff(jobs, MinorOf(v));
    if LastPhase(jobs, MinorOf(v)) == Phase2 {
      Phase2NeedsAChange(jobs, MinorOf(v));
    }
  }

  lemma OnlyTheFirstTwoRetire(jobs: seq<Job>, v: Version)
    requires v.IsFaithful()
    ensures EverRetires(jobs, v) <==> Retires(jobs, v) || Retires(Required(jobs, v), v)
  {
    forall n: nat
      ensures Retires(RequiredTimes(jobs, v, n), v) <==>
              (n == 0 && Retires(jobs, v)) || (n == 1 && Retires(Required(jobs, v), v))
    {
      RunRetiresIff(jobs, v, n);
    }
    assert Retires(jobs, v) ==> Retires(RequiredTimes(jobs, v, 0), v);
    assert Retires(Required(jobs, v), v) ==> Retires(RequiredTimes(jobs, v, 1), v);
  }

  lemma RunRetiresIff(jobs: seq<Job>, v: Version, n: nat)
    requires v.IsFaithful()
    ensures Retires(RequiredTimes(jobs, v, n), v) <==>
            (n == 0 && Retires(jobs, v)) || (n == 1 && Retires(Required(jobs, v), v))
  {
    if n >= 2 {
      LaterRunsChangeNothing(jobs, v, n);
    } else if n == 1 {
      assert RequiredTimes(jobs, v, 1) == Required(jobs, v);
    }
  }

  lemma EndsNotRunning(jobs: seq<Job>, m: Minor)
    requires |jobs| == 3 && jobs[0].alwaysRun
    requires IsLane(jobs[1].name, m) && !jobs[1].alwaysRun && !jobs[1].optional
    requires !IsLane(jobs[2].name, m)
    ensures !EndsRunning(jobs, m)
    ensures !exists i | 0 <= i < |jobs| :: IsLane(jobs[i].name, m) && IsFresh(jobs[i])
  {
    assert !IsLastToStart(jobs, m, 0);
    assert !IsLastToStart(jobs, m, 1);
  }

  /** A running optional lane followed by one that does not run and is not optional: the lanes of 1.1
      keep running however often those of 1.2 are required. */
  lemma PreviousLanesMayNeverRetire() returns (jobs: seq<Job>, v: Version)
    ensures v.IsFaithful() && |jobs| == 3
    ensures IsLane(jobs[0].name, MinorOf(v)) && jobs[0].alwaysRun && jobs[0].optional
    ensures IsLane(jobs[1].name, MinorOf(v)) && !jobs[1].alwaysRun && !jobs[1].optional
    ensures IsLane(jobs[2].name, Previous(v)) && jobs[2].alwaysRun
    ensures !EverRetires(jobs, v)
  {
    v := Version(NumeralOf("1"), NumeralOf("2"), NumeralOf("0"));
    var a, b := CreatePresubmitJobName(MinorOf(v), LaneSigs()[0]), CreatePresubmitJobName(MinorOf(v), LaneSigs()[1]);
    var c := CreatePresubmitJobName(Previous(v), LaneSigs()[0]);
    if IsLane(c, MinorOf(v)) {
      LanesOfPreviousAreOthers(v, c);
    }
    jobs := [Job(a, true, true, false, false, "", [], [], ""),
             Job(b, false, false, false, false, "", [], [], ""),
             Job(c, true, false, false, false, "", [], [], "")];
    EndsNotRunning(jobs, MinorOf(v));
    PreviousLanesRetireIff(jobs, v);
  }

  lemma {:induction false} Phase2NeedsAChange(jobs: seq<Job>, m: Minor)
    requires LastPhase(jobs, m) == Phase2
    ensures Steps(jobs, m) != jobs
  {
    var last := |jobs| - 1;
    if Changes(jobs[last], m) {
      assert Steps(jobs, m)[last] != jobs[last];
    } else {
      Phase2NeedsAChange(jobs[..last], m);
      assert Steps(jobs, m)[..last] == Steps(jobs[..last], m);
    }
  }
}
