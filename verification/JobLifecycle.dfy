/** The life of the SIG lanes in the job configuration: copied for a new release, required step by
    step, removed with the oldest release. What each command does to the list of jobs. */
module JobLifecycle {
  import opened Wrappers
  import opened JobNames

  datatype EnvVar = EnvVar(name: string, value: string)

  /** A presubmit or periodic job; `env` are the variables of its containers, `template` stands for
      all fields that copies take over unchanged. */
  datatype Job = Job(name: string, alwaysRun: bool, optional: bool, runBeforeMerge: bool, skipReport: bool,
                     cron: string, env: seq<seq<EnvVar>>, extraRefs: seq<string>, template: string)

  predicate HasName(jobs: seq<Job>, name: string) {
    exists j | j in jobs :: j.name == name
  }

  /** The entry of the name in a map filled from the list: the last one wins. */
  function LastNamed(jobs: seq<Job>, name: string): (r: Option<Job>)
    ensures r.Some? <==> HasName(jobs, name)
    ensures r.Some? ==> r.value in jobs && r.value.name == name
  {
    if jobs == [] then None
    else if jobs[|jobs| - 1].name == name then Some(jobs[|jobs| - 1])
    else LastNamed(jobs[..|jobs| - 1], name)
  }

  // ----- copying -----

  /** The first TARGET variable gets a new value. */
  function WithTarget(env: seq<EnvVar>, value: string): seq<EnvVar> {
    if env == [] then []
    else if env[0].name == "TARGET" then [EnvVar("TARGET", value)] + env[1..]
    else [env[0]] + WithTarget(env[1..], value)
  }

  function TargetOf(env: seq<EnvVar>): Option<string> {
    if env == [] then None
    else if env[0].name == "TARGET" then Some(env[0].value)
    else TargetOf(env[1..])
  }

  lemma {:induction false} WithTargetSetsIt(env: seq<EnvVar>, value: string)
    ensures TargetOf(WithTarget(env, value)) == if TargetOf(env).Some? then Some(value) else None
    ensures |WithTarget(env, value)| == |env|
    ensures forall i | 0 <= i < |env| && env[i].name != "TARGET" :: WithTarget(env, value)[i] == env[i]
  {
    if env != [] && env[0].name != "TARGET" {
      WithTargetSetsIt(env[1..], value);
    }
  }

  /** Only the first container is adjusted; extra refs are not taken over, because they are copied
      into an empty slice. */
  function ClonePresubmit(from: Job, name: string, value: string): Job
    requires from.env != []
  {
    Job(name, false, true, false, false, "", from.env[0 := WithTarget(from.env[0], value)], [], from.template)
  }

  function WithTargets(env: seq<seq<EnvVar>>, value: string): seq<seq<EnvVar>> {
    seq(|env|, i requires 0 <= i < |env| => WithTarget(env[i], value))
  }

  /** All containers are adjusted and extra refs are taken over; `cron` is the advanced schedule. */
  function ClonePeriodic(from: Job, name: string, value: string, cron: string): Job {
    Job(name, false, false, false, false, cron, WithTargets(from.env, value), from.extraRefs, from.template)
  }

  /** How lanes are named and cloned in a list of jobs. */
  datatype Lanes = Lanes(nameOf: (Minor, string) -> string, clone: (Job, Minor, string) -> Job)

  const PRESUBMITS := Lanes(CreatePresubmitJobName,
                            (j: Job, m: Minor, sig: string) =>
                              if j.env == [] then j
                              else ClonePresubmit(j, CreatePresubmitJobName(m, sig), CreatePresubmitTargetValue(m, sig)))

  function PERIODICS(advance: string -> string): Lanes {
    Lanes(CreatePeriodicJobName,
          (j: Job, m: Minor, sig: string) =>
            ClonePeriodic(j, CreatePeriodicJobName(m, sig), CreatePeriodicTargetValue(m, sig), advance(j.cron)))
  }

  /** The lanes missing for `target` among the first `n` SIGs that exist for `source`. */
  function Missing(lanes: Lanes, jobs: seq<Job>, target: Minor, source: Minor, n: nat): seq<Job>
    requires n <= |SIG_NAMES|
  {
    if n == 0 then []
    else
      var sig := SIG_NAMES[n - 1];
      var from := LastNamed(jobs, lanes.nameOf(source, sig));
      Missing(lanes, jobs, target, source, n - 1)
      + (if !HasName(jobs, lanes.nameOf(target, sig)) && from.Some? then [lanes.clone(from.value, target, sig)] else [])
  }

  function Copied(lanes: Lanes, jobs: seq<Job>, target: Minor, source: Minor): seq<Job> {
    jobs + Missing(lanes, jobs, target, source, |SIG_NAMES|)
  }

  /** Lane names tell release and SIG, and clones carry the name of their target. */
  ghost predicate Sound(lanes: Lanes, jobs: seq<Job>) {
    && (forall a, s, b, t | IsNumeric(a) && IsNumeric(b) && lanes.nameOf(a, s) == lanes.nameOf(b, t) :: a == b && s == t)
    && (forall j, m, sig | j in jobs :: lanes.clone(j, m, sig).name == lanes.nameOf(m, sig))
  }

  lemma PresubmitsAreSound(jobs: seq<Job>)
    requires forall j | j in jobs :: j.env != []
    ensures Sound(PRESUBMITS, jobs)
  {
    forall a, s, b, t | IsNumeric(a) && IsNumeric(b) && PRESUBMITS.nameOf(a, s) == PRESUBMITS.nameOf(b, t)
      ensures a == b && s == t
    {
      LaneNamesAreInjective("pull-kubevirt-e2e-k8s-", a, s, b, t);
    }
  }

  lemma PeriodicsAreSound(jobs: seq<Job>, advance: string -> string)
    ensures Sound(PERIODICS(advance), jobs)
  {
    forall a, s, b, t | IsNumeric(a) && IsNumeric(b) && PERIODICS(advance).nameOf(a, s) == PERIODICS(advance).nameOf(b, t)
      ensures a == b && s == t
    {
      LaneNamesAreInjective("periodic-kubevirt-e2e-k8s-", a, s, b, t);
    }
    forall j, m, sig | j in jobs
      ensures PERIODICS(advance).clone(j, m, sig).name == PERIODICS(advance).nameOf(m, sig)
    {
      var clone := PERIODICS(advance).clone;
      assert clone(j, m, sig) == ClonePeriodic(j, CreatePeriodicJobName(m, sig), CreatePeriodicTargetValue(m, sig), advance(j.cron));
      var nameOf := PERIODICS(advance).nameOf;
      assert nameOf(m, sig) == CreatePeriodicJobName(m, sig);
    }
  }

  lemma {:induction false} MissingAreNamed(lanes: Lanes, jobs: seq<Job>, target: Minor, source: Minor, n: nat, j: Job)
    requires Sound(lanes, jobs) && n <= |SIG_NAMES| && j in Missing(lanes, jobs, target, source, n)
    ensures exists k | 0 <= k < n :: j.name == lanes.nameOf(target, SIG_NAMES[k])
  {
    if j in Missing(lanes, jobs, target, source, n - 1) {
      MissingAreNamed(lanes, jobs, target, source, n - 1, j);
    }
  }

  lemma {:induction false} MissingHasAll(lanes: Lanes, jobs: seq<Job>, target: Minor, source: Minor, n: nat, k: nat)
    requires Sound(lanes, jobs) && k < n <= |SIG_NAMES|
    requires !HasName(jobs, lanes.nameOf(target, SIG_NAMES[k])) && HasName(jobs, lanes.nameOf(source, SIG_NAMES[k]))
    ensures HasName(Missing(lanes, jobs, target, source, n), lanes.nameOf(target, SIG_NAMES[k]))
  {
    var front, all := Missing(lanes, jobs, target, source, n - 1), Missing(lanes, jobs, target, source, n);
    if k < n - 1 {
      MissingHasAll(lanes, jobs, target, source, n - 1, k);
      var j :| j in front && j.name == lanes.nameOf(target, SIG_NAMES[k]);
      assert j in all;
    } else {
      assert all[|front|] in all && all[|front|].name == lanes.nameOf(target, SIG_NAMES[k]);
    }
  }

  lemma MissingNames(lanes: Lanes, jobs: seq<Job>, target: Minor, source: Minor, n: nat)
    requires Sound(lanes, jobs) && n <= |SIG_NAMES|
    ensures forall j | j in Missing(lanes, jobs, target, source, n) ::
              exists k | 0 <= k < n :: j.name == lanes.nameOf(target, SIG_NAMES[k])
    ensures forall k | 0 <= k < n && !HasName(jobs, lanes.nameOf(target, SIG_NAMES[k])) && HasName(jobs, lanes.nameOf(source, SIG_NAMES[k])) ::
              HasName(Missing(lanes, jobs, target, source, n), lanes.nameOf(target, SIG_NAMES[k]))
  {
    forall j | j in Missing(lanes, jobs, target, source, n)
      ensures exists k | 0 <= k < n :: j.name == lanes.nameOf(target, SIG_NAMES[k])
    {
      MissingAreNamed(lanes, jobs, target, source, n, j);
    }
    forall k | 0 <= k < n && !HasName(jobs, lanes.nameOf(target, SIG_NAMES[k])) && HasName(jobs, lanes.nameOf(source, SIG_NAMES[k]))
      ensures HasName(Missing(lanes, jobs, target, source, n), lanes.nameOf(target, SIG_NAMES[k]))
    {
      MissingHasAll(lanes, jobs, target, source, n, k);
    }
  }

  lemma {:induction false} NothingMissing(lanes: Lanes, jobs: seq<Job>, target: Minor, source: Minor, n: nat)
    requires n <= |SIG_NAMES|
    requires forall k | 0 <= k < n :: HasName(jobs, lanes.nameOf(target, SIG_NAMES[k])) || !HasName(jobs, lanes.nameOf(source, SIG_NAMES[k]))
    ensures Missing(lanes, jobs, target, source, n) == []
  {
    if n > 0 {
      NothingMissing(lanes, jobs, target, source, n - 1);
    }
  }

  lemma HasNameInConcat(a: seq<Job>, b: seq<Job>, name: string)
    ensures HasName(a + b, name) <==> HasName(a, name) || HasName(b, name)
  {
    assert forall j :: j in a + b <==> j in a || j in b;
  }

  /** After copying, a SIG has a lane for the target exactly if it had one, or had one to copy. */
  lemma CopyCompletesLanes(lanes: Lanes, jobs: seq<Job>, target: Minor, source: Minor, k: nat)
    requires Sound(lanes, jobs) && IsNumeric(target) && IsNumeric(source) && k < |SIG_NAMES|
    ensures var t, s := lanes.nameOf(target, SIG_NAMES[k]), lanes.nameOf(source, SIG_NAMES[k]);
            HasName(Copied(lanes, jobs, target, source), t) <==> HasName(jobs, t) || HasName(jobs, s)
  {
    var added := Missing(lanes, jobs, target, source, |SIG_NAMES|);
    var t := lanes.nameOf(target, SIG_NAMES[k]);
    MissingNames(lanes, jobs, target, source, |SIG_NAMES|);
    HasNameInConcat(jobs, added, t);
    if HasName(added, t) {
      AddedNeedASource(lanes, jobs, target, source, |SIG_NAMES|, k);
    }
  }

  lemma {:induction false} AddedNeedASource(lanes: Lanes, jobs: seq<Job>, target: Minor, source: Minor, n: nat, k: nat)
    requires Sound(lanes, jobs) && IsNumeric(target) && IsNumeric(source) && k < |SIG_NAMES| && n <= |SIG_NAMES|
    requires HasName(Missing(lanes, jobs, target, source, n), lanes.nameOf(target, SIG_NAMES[k]))
    ensures HasName(jobs, lanes.nameOf(source, SIG_NAMES[k]))
  {
    if n > 0 {
      var front := Missing(lanes, jobs, target, source, n - 1);
      if HasName(front, lanes.nameOf(target, SIG_NAMES[k])) {
        AddedNeedASource(lanes, jobs, target, source, n - 1, k);
      } else {
        assert SIG_NAMES[n - 1] == SIG_NAMES[k];
      }
    }
  }

  /** Every lane that is added is the clone of a lane of the source, for a SIG that lacked one. */
  lemma {:induction false} AddedAreClones(lanes: Lanes, jobs: seq<Job>, target: Minor, source: Minor, n: nat, j: Job)
    returns (from: Job, k: nat)
    requires n <= |SIG_NAMES| && j in Missing(lanes, jobs, target, source, n)
    ensures k < n && from in jobs && from.name == lanes.nameOf(source, SIG_NAMES[k])
    ensures !HasName(jobs, lanes.nameOf(target, SIG_NAMES[k]))
    ensures j == lanes.clone(from, target, SIG_NAMES[k])
  {
    if j in Missing(lanes, jobs, target, source, n - 1) {
      from, k := AddedAreClones(lanes, jobs, target, source, n - 1, j);
    } else {
      from, k := LastNamed(jobs, lanes.nameOf(source, SIG_NAMES[n - 1])).value, n - 1;
    }
  }

  /** A copied presubmit does not run by itself, is optional and reports; it is its source with
      another name and without extra refs and, where the source has a target, with the target of
      the new release. */
  lemma CopiedPresubmitsStartOptional(jobs: seq<Job>, target: Minor, source: Minor, j: Job) returns (from: Job, k: nat)
    requires forall i | i in jobs :: i.env != []
    requires j in Missing(PRESUBMITS, jobs, target, source, |SIG_NAMES|)
    ensures k < |SIG_NAMES| && from in jobs && from.name == CreatePresubmitJobName(source, SIG_NAMES[k])
    ensures j.name == CreatePresubmitJobName(target, SIG_NAMES[k]) && !HasName(jobs, j.name)
    ensures !j.alwaysRun && j.optional && !j.runBeforeMerge && !j.skipReport && j.extraRefs == []
    ensures j.template == from.template && |j.env| == |from.env| && j.env[1..] == from.env[1..]
    ensures TargetOf(from.env[0]).None? ==> TargetOf(j.env[0]).None?
    ensures TargetOf(from.env[0]).Some? ==>
              TargetOf(j.env[0]) == Some("k8s-" + target.major + "." + target.minor + "-"
                                         + (if SIG_NAMES[k] == "sig-compute" then "sig-compute-parallel" else SIG_NAMES[k]))
  {
    from, k := AddedAreClones(PRESUBMITS, jobs, target, source, |SIG_NAMES|, j);
    var sig := SIG_NAMES[k];
    assert j == ClonePresubmit(from, CreatePresubmitJobName(target, sig), CreatePresubmitTargetValue(target, sig));
    WithTargetSetsIt(from.env[0], CreatePresubmitTargetValue(target, sig));
  }

  /** A copied periodic is its source with another name, the advanced schedule and the target of
      the new release in every container that has a target. */
  lemma CopiedPeriodicsAreAdvanced(jobs: seq<Job>, advance: string -> string, target: Minor, source: Minor, j: Job)
    returns (from: Job, k: nat)
    requires j in Missing(PERIODICS(advance), jobs, target, source, |SIG_NAMES|)
    ensures k < |SIG_NAMES| && from in jobs && from.name == CreatePeriodicJobName(source, SIG_NAMES[k])
    ensures j.name == CreatePeriodicJobName(target, SIG_NAMES[k]) && !HasName(jobs, j.name)
    ensures j.cron == advance(from.cron) && j.extraRefs == from.extraRefs && j.template == from.template
    ensures !j.alwaysRun && !j.optional && !j.runBeforeMerge && !j.skipReport
    ensures |j.env| == |from.env|
    ensures forall c | 0 <= c < |j.env| ::
      && TargetOf(j.env[c]) == (if TargetOf(from.env[c]).Some?
                                then Some("k8s-" + target.major + "." + target.minor + "-" + SIG_NAMES[k]) else None)
      && |j.env[c]| == |from.env[c]|
      && forall i | 0 <= i < |j.env[c]| && from.env[c][i].name != "TARGET" :: j.env[c][i] == from.env[c][i]
  {
    from, k := AddedAreClones(PERIODICS(advance), jobs, target, source, |SIG_NAMES|, j);
    var sig := SIG_NAMES[k];
    var nameOf, clone := PERIODICS(advance).nameOf, PERIODICS(advance).clone;
    assert nameOf(source, sig) == CreatePeriodicJobName(source, sig) && nameOf(target, sig) == CreatePeriodicJobName(target, sig);
    assert clone(from, target, sig)
        == ClonePeriodic(from, CreatePeriodicJobName(target, sig), CreatePeriodicTargetValue(target, sig), advance(from.cron));
    forall c | 0 <= c < |from.env|
      ensures TargetOf(j.env[c])
           == if TargetOf(from.env[c]).Some? then Some("k8s-" + target.major + "." + target.minor + "-" + sig) else None
      ensures |j.env[c]| == |from.env[c]|
      ensures forall i | 0 <= i < |j.env[c]| && from.env[c][i].name != "TARGET" :: j.env[c][i] == from.env[c][i]
    {
      WithTargetSetsIt(from.env[c], CreatePeriodicTargetValue(target, sig));
    }
  }

  // ----- what the copies are -----

  predicate IsCopied(lanes: Lanes, jobs: seq<Job>, target: Minor, source: Minor, k: nat)
    requires k < |SIG_NAMES|
  {
    !HasName(jobs, lanes.nameOf(target, SIG_NAMES[k])) && HasName(jobs, lanes.nameOf(source, SIG_NAMES[k]))
  }

  lemma LastNamedSnoc(jobs: seq<Job>, j: Job, name: string)
    ensures LastNamed(jobs + [j], name) == if j.name == name then Some(j) else LastNamed(jobs, name)
  {
    assert (jobs + [j])[..|jobs|] == jobs;
  }

  /** The clone copying makes of the source's lane. */
  function CopyOf(lanes: Lanes, jobs: seq<Job>, target: Minor, source: Minor, k: nat): Job
    requires k < |SIG_NAMES| && HasName(jobs, lanes.nameOf(source, SIG_NAMES[k]))
  {
    lanes.clone(LastNamed(jobs, lanes.nameOf(source, SIG_NAMES[k])).value, target, SIG_NAMES[k])
  }

  lemma NextMissing(lanes: Lanes, jobs: seq<Job>, target: Minor, source: Minor, n: nat)
    requires n < |SIG_NAMES|
    ensures jobs + Missing(lanes, jobs, target, source, n + 1) ==
            if IsCopied(lanes, jobs, target, source, n)
            then jobs + Missing(lanes, jobs, target, source, n) + [CopyOf(lanes, jobs, target, source, n)]
            else jobs + Missing(lanes, jobs, target, source, n)
  {
  }

  lemma LanesDiffer(lanes: Lanes, jobs: seq<Job>, m: Minor, n: nat, k: nat)
    requires Sound(lanes, jobs) && IsNumeric(m) && n < |SIG_NAMES| && k < |SIG_NAMES|
    ensures lanes.nameOf(m, SIG_NAMES[n]) == lanes.nameOf(m, SIG_NAMES[k]) <==> n == k
  {
    assert n != k ==> SIG_NAMES[n] != SIG_NAMES[k];
  }

  /** Going through SIG number `n` changes its own lane only. */
  ghost predicate NextLaneIsRight(lanes: Lanes, jobs: seq<Job>, target: Minor, source: Minor, n: nat, k: nat)
    requires n < |SIG_NAMES| && k < |SIG_NAMES|
  {
    LastNamed(jobs + Missing(lanes, jobs, target, source, n + 1), lanes.nameOf(target, SIG_NAMES[k])) ==
    if n == k && IsCopied(lanes, jobs, target, source, k) then Some(CopyOf(lanes, jobs, target, source, k))
    else LastNamed(jobs + Missing(lanes, jobs, target, source, n), lanes.nameOf(target, SIG_NAMES[k]))
  }

  lemma NextLane(lanes: Lanes, jobs: seq<Job>, target: Minor, source: Minor, n: nat, k: nat)
    requires Sound(lanes, jobs) && IsNumeric(target) && n < |SIG_NAMES| && k < |SIG_NAMES|
    ensures NextLaneIsRight(lanes, jobs, target, source, n, k)
  {
    NextMissing(lanes, jobs, target, source, n);
    if IsCopied(lanes, jobs, target, source, n) {
      var clone := CopyOf(lanes, jobs, target, source, n);
      assert clone.name == lanes.nameOf(target, SIG_NAMES[n]);
      LastNamedSnoc(jobs + Missing(lanes, jobs, target, source, n), clone, lanes.nameOf(target, SIG_NAMES[k]));
      LanesDiffer(lanes, jobs, target, n, k);
    }
  }

  /** After the first `n` SIGs. */
  ghost predicate LaneIsRight(lanes: Lanes, jobs: seq<Job>, target: Minor, source: Minor, n: nat, k: nat)
    requires n <= |SIG_NAMES| && k < |SIG_NAMES|
  {
    LastNamed(jobs + Missing(lanes, jobs, target, source, n), lanes.nameOf(target, SIG_NAMES[k])) ==
    if k < n && IsCopied(lanes, jobs, target, source, k) then Some(CopyOf(lanes, jobs, target, source, k))
    else LastNamed(jobs, lanes.nameOf(target, SIG_NAMES[k]))
  }

  lemma {:induction false} LaneAmongTheFirst(lanes: Lanes, jobs: seq<Job>, target: Minor, source: Minor, n: nat, k: nat)
    requires n <= |SIG_NAMES| && k < |SIG_NAMES|
    requires forall i: nat | i < n :: NextLaneIsRight(lanes, jobs, target, source, i, k)
    ensures LaneIsRight(lanes, jobs, target, source, n, k)
  {
    if n == 0 {
      assert jobs + [] == jobs;
    } else {
      LaneAmongTheFirst(lanes, jobs, target, source, n - 1, k);
      assert NextLaneIsRight(lanes, jobs, target, source, n - 1, k);
    }
  }

  /** The lane of a SIG after copying: the clone of the source's lane where one was missing and there
      was one to copy, and otherwise what it was before. */
  lemma LaneAfterCopy(lanes: Lanes, jobs: seq<Job>, target: Minor, source: Minor, k: nat)
    requires Sound(lanes, jobs) && IsNumeric(target) && k < |SIG_NAMES|
    ensures LastNamed(Copied(lanes, jobs, target, source), lanes.nameOf(target, SIG_NAMES[k])) ==
            if IsCopied(lanes, jobs, target, source, k) then Some(CopyOf(lanes, jobs, target, source, k))
            else LastNamed(jobs, lanes.nameOf(target, SIG_NAMES[k]))
  {
    forall i: nat | i < |SIG_NAMES|
      ensures NextLaneIsRight(lanes, jobs, target, source, i, k)
    {
      NextLane(lanes, jobs, target, source, i, k);
    }
    LaneAmongTheFirst(lanes, jobs, target, source, |SIG_NAMES|, k);
  }

  /** The copy of a SIG's lane has the extra refs of its source. */
  ghost predicate RefsSurvive(lanes: Lanes, jobs: seq<Job>, target: Minor, source: Minor, k: nat)
    requires k < |SIG_NAMES| && HasName(jobs, lanes.nameOf(source, SIG_NAMES[k]))
  {
    var copy := LastNamed(Copied(lanes, jobs, target, source), lanes.nameOf(target, SIG_NAMES[k]));
    copy.Some? && copy.value.extraRefs == LastNamed(jobs, lanes.nameOf(source, SIG_NAMES[k])).value.extraRefs
  }

  /** A copied presubmit has the extra refs of its source if and only if the source has none. */
  lemma PresubmitRefsSurviveIff(jobs: seq<Job>, target: Minor, source: Minor, k: nat)
    requires forall j | j in jobs :: j.env != []
    requires IsNumeric(target) && k < |SIG_NAMES| && IsCopied(PRESUBMITS, jobs, target, source, k)
    ensures RefsSurvive(PRESUBMITS, jobs, target, source, k) <==>
            LastNamed(jobs, CreatePresubmitJobName(source, SIG_NAMES[k])).value.extraRefs == []
  {
    PresubmitsAreSound(jobs);
    LaneAfterCopy(PRESUBMITS, jobs, target, source, k);
  }

  /** A copied periodic always has them. */
  lemma PeriodicRefsSurvive(jobs: seq<Job>, advance: string -> string, target: Minor, source: Minor, k: nat)
    requires IsNumeric(target) && k < |SIG_NAMES| && IsCopied(PERIODICS(advance), jobs, target, source, k)
    ensures RefsSurvive(PERIODICS(advance), jobs, target, source, k)
  {
    PeriodicsAreSound(jobs, advance);
    LaneAfterCopy(PERIODICS(advance), jobs, target, source, k);
    var clone := PERIODICS(advance).clone;
    var from := LastNamed(jobs, PERIODICS(advance).nameOf(source, SIG_NAMES[k])).value;
    assert clone(from, target, SIG_NAMES[k]).extraRefs == from.extraRefs;
  }

  /** A lane of 1.31 with an extra ref, copied for 1.32 without it. */
  lemma CopyLosesAnExtraRef() returns (jobs: seq<Job>, target: Minor, source: Minor)
    ensures IsNumeric(target) && IsCopied(PRESUBMITS, jobs, target, source, 0)
    ensures forall j | j in jobs :: j.env != []
    ensures !RefsSurvive(PRESUBMITS, jobs, target, source, 0)
  {
    target, source := Minor("1", "32"), Minor("1", "31");
    var lane := Job(CreatePresubmitJobName(source, SIG_NAMES[0]), true, false, false, false, "", [[]], ["kubevirt/project-infra"], "");
    jobs := [lane];
    assert LastNamed(jobs, lane.name) == Some(lane);
    if CreatePresubmitJobName(target, SIG_NAMES[0]) == lane.name {
      LaneNamesAreInjective("pull-kubevirt-e2e-k8s-", target, SIG_NAMES[0], source, SIG_NAMES[0]);
    }
    PresubmitRefsSurviveIff(jobs, target, source, 0);
  }

  /** Copying a second time adds nothing. */
  lemma CopyIsIdempotent(lanes: Lanes, jobs: seq<Job>, target: Minor, source: Minor)
    requires Sound(lanes, jobs) && IsNumeric(target) && IsNumeric(source)
    ensures Copied(lanes, Copied(lanes, jobs, target, source), target, source) == Copied(lanes, jobs, target, source)
  {
    var added := Missing(lanes, jobs, target, source, |SIG_NAMES|);
    var once := jobs + added;
    MissingNames(lanes, jobs, target, source, |SIG_NAMES|);
    forall k | 0 <= k < |SIG_NAMES|
      ensures HasName(once, lanes.nameOf(target, SIG_NAMES[k])) || !HasName(once, lanes.nameOf(source, SIG_NAMES[k]))
    {
      var t, s := lanes.nameOf(target, SIG_NAMES[k]), lanes.nameOf(source, SIG_NAMES[k]);
      CopyCompletesLanes(lanes, jobs, target, source, k);
      HasNameInConcat(jobs, added, s);
      if HasName(added, s) {
        assert target == source;
      }
    }
    NothingMissing(lanes, once, target, source, |SIG_NAMES|);
    assert once + [] == once;
  }
}
