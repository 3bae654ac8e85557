/** The job configuration over time: copying, requiring and guarded removal, in any order, while
    Kubernetes keeps releasing. */
module Rollout {
  import opened Wrappers
  import opened Sorting
  import opened Versions
  import opened LatestMinors
  import opened JobNames
  import opened JobLifecycle
  import opened RequireJobs
  import opened RemoveJobs
  import opened Runs

  /** The presubmits and periodics, and the valid Kubernetes releases, newest first. */
  datatype State = State(presubmits: seq<Job>, periodics: seq<Job>, releases: seq<Version>)

  datatype Event =
    | CopyPresubmits(target: Minor, source: Minor)
    | CopyPeriodics(target: Minor, source: Minor, advance: string -> string)
    | Require
    | Remove
    | Publish

  ghost predicate Step(s: State, e: Event, s': State) {
    match e
    case CopyPresubmits(target, source) => s' == s.(presubmits := Copied(PRESUBMITS, s.presubmits, target, source))
    case CopyPeriodics(target, source, advance) => s' == s.(periodics := Copied(PERIODICS(advance), s.periodics, target, source))
    case Require => s' == s.(presubmits := if s.releases == [] then s.presubmits else Required(s.presubmits, s.releases[0]))
    case Remove => s' == Removed(s, Planned(s.presubmits, s.releases, false, None))
    case Publish => s' == s.(releases := s'.releases) && forall v | v in s.releases :: v in s'.releases
  }

  function Removed(s: State, plan: Plan): State {
    if plan.RemoveRelease? then
      s.(presubmits := Without(s.presubmits, SigLanes(plan.target)), periodics := Without(s.periodics, SigPeriodics(plan.target)))
    else s
  }

  /** Releases are listed newest first and spelled without leading zeros. */
  ghost predicate Listed(s: State) {
    AllCanonical(s.releases) && Ordered(NotOlder, s.releases)
  }

  ghost function Steps(): (State, Event, State) -> bool {
    (s: State, e: Event, s': State) => Step(s, e, s') && Listed(s) && Listed(s')
  }

  ghost predicate IsHistory(ss: seq<State>, es: seq<Event>) {
    IsRun(ss, es, Steps())
  }

  /** There are releases of three newer minors: the minor of `v` is not supported any more. */
  ghost predicate TooOld(releases: seq<Version>, v: Version) {
    exists a, b, c | a in releases && b in releases && c in releases ::
      OlderMinor(v, c) && OlderMinor(c, b) && OlderMinor(b, a)
  }

  lemma OlderByMinor(u: Version, v: Version, w: Version)
    requires SameMinor(u, v) && OlderMinor(v, w)
    ensures OlderMinor(u, w)
  {
  }

  /** Guarded removal aims at minors that are too old. */
  lemma TargetIsTooOld(s: State, v: Version)
    requires Listed(s) && v.IsCanonical() && Planned(s.presubmits, s.releases, false, None) == RemoveRelease(MinorOf(v))
    ensures TooOld(s.releases, v)
  {
    var latest := Latest(s.releases);
    LatestDescends(s.releases);
    assert latest[0] in latest && latest[1] in latest && latest[2] in latest && latest[3] in latest;
    SameMinorSameSpelling(v, latest[3]);
    OlderByMinor(v, latest[3], latest[2]);
  }

  lemma SupportedLaneSurvivesRemoval(s: State, v: Version, k: nat)
    requires Listed(s) && v.IsCanonical() && k < |SIG_NAMES| && !TooOld(s.releases, v)
    ensures var after := Removed(s, Planned(s.presubmits, s.releases, false, None));
            && (HasName(s.presubmits, SigLane(MinorOf(v), k)) ==> HasName(after.presubmits, SigLane(MinorOf(v), k)))
            && (HasName(s.periodics, CreatePeriodicJobName(MinorOf(v), SIG_NAMES[k])) ==>
                  HasName(after.periodics, CreatePeriodicJobName(MinorOf(v), SIG_NAMES[k])))
  {
    var plan := Planned(s.presubmits, s.releases, false, None);
    if plan.RemoveRelease? {
      if plan.target == MinorOf(v) {
        TargetIsTooOld(s, v);
      }
      LatestDescends(s.releases);
      var fourth := Latest(s.releases)[3];
      assert fourth in Latest(s.releases);
      CanonicalIsNumeric(v);
      CanonicalIsNumeric(fourth);
      LanesOfOthersStay(s.presubmits, s.periodics, plan.target, MinorOf(v), k);
    }
  }

  lemma LanesOfOthersStay(presubmits: seq<Job>, periodics: seq<Job>, target: Minor, m: Minor, k: nat)
    requires IsNumeric(target) && IsNumeric(m) && target != m && k < |SIG_NAMES|
    ensures HasName(presubmits, SigLane(m, k)) ==> HasName(Without(presubmits, SigLanes(target)), SigLane(m, k))
    ensures HasName(periodics, CreatePeriodicJobName(m, SIG_NAMES[k])) ==>
              HasName(Without(periodics, SigPeriodics(target)), CreatePeriodicJobName(m, SIG_NAMES[k]))
  {
    KeepsLanesIff(presubmits, target, m);
    OtherMinorsKeepTheirPeriodics(periodics, target, m);
    assert IsSigLane(SigLane(m, k), m) && IsSigPeriodic(CreatePeriodicJobName(m, SIG_NAMES[k]), m);
  }

  /** The lane of the minor is there, or the minor is too old. */
  ghost predicate Supports(s: State, v: Version, k: nat, presubmit: bool)
    requires k < |SIG_NAMES|
  {
    || TooOld(s.releases, v)
    || (if presubmit then HasName(s.presubmits, SigLane(MinorOf(v), k))
        else HasName(s.periodics, CreatePeriodicJobName(MinorOf(v), SIG_NAMES[k])))
  }

  lemma StepKeepsSupport(s: State, e: Event, s': State, v: Version, k: nat, presubmit: bool)
    requires Listed(s) && Listed(s') && Step(s, e, s') && v.IsCanonical() && k < |SIG_NAMES|
    requires Supports(s, v, k, presubmit)
    ensures Supports(s', v, k, presubmit)
  {
    if !TooOld(s.releases, v) {
      match e
      case CopyPresubmits(target, source) =>
        HasNameInConcat(s.presubmits, Missing(PRESUBMITS, s.presubmits, target, source, |SIG_NAMES|), SigLane(MinorOf(v), k));
      case CopyPeriodics(target, source, advance) =>
        HasNameInConcat(s.periodics, Missing(PERIODICS(advance), s.periodics, target, source, |SIG_NAMES|),
                        CreatePeriodicJobName(MinorOf(v), SIG_NAMES[k]));
      case Require =>
        if presubmit && s.releases != [] {
          NamesStay(s.presubmits, s.releases[0], SigLane(MinorOf(v), k));
        }
      case Remove => SupportedLaneSurvivesRemoval(s, v, k);
      case Publish =>
    }
  }

  /** Whatever commands run in whatever order while releases are published: a SIG lane that is in the
      configuration at some time, presubmit or periodic, is still there as long as its minor is
      supported. */
  lemma SupportedLanesStay(ss: seq<State>, es: seq<Event>, v: Version, k: nat, presubmit: bool, i: nat, j: nat)
    requires IsHistory(ss, es) && v.IsCanonical() && k < |SIG_NAMES| && i <= j <= |es|
    requires if presubmit then HasName(ss[i].presubmits, SigLane(MinorOf(v), k))
             else HasName(ss[i].periodics, CreatePeriodicJobName(MinorOf(v), SIG_NAMES[k]))
    requires !TooOld(ss[j].releases, v)
    ensures if presubmit then HasName(ss[j].presubmits, SigLane(MinorOf(v), k))
            else HasName(ss[j].periodics, CreatePeriodicJobName(MinorOf(v), SIG_NAMES[k]))
  {
    var step := Steps();
    var supports := (s: State) => Supports(s, v, k, presubmit);
    forall s, e, s' | supports(s) && step(s, e, s')
      ensures supports(s')
    {
      StepKeepsSupport(s, e, s', v, k, presubmit);
    }
    InvariantHolds(ss, es, step, supports, i, j);
  }

  /** The three newest minors of the list are supported. */
  lemma NewestAreSupported(releases: seq<Version>, i: nat)
    requires Ordered(NotOlder, releases) && i < 3 && i < |Heads(releases)|
    ensures !TooOld(releases, Heads(releases)[i])
  {
    var v := Heads(releases)[i];
    if a, b, c :| a in releases && b in releases && c in releases && OlderMinor(v, c) && OlderMinor(c, b) && OlderMinor(b, a) {
      var p := HeadOf(releases, a);
      var q := HeadOf(releases, b);
      var r := HeadOf(releases, c);
      HeadsByAge(releases, p, q);
      HeadsByAge(releases, q, r);
      HeadsByAge(releases, r, i);
    }
  }
}
