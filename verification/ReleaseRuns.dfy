/** Safety of the release automaton over whole histories of automatic runs. */
module ReleaseRuns {
  import opened Wrappers
  import opened ReleaseModel
  import opened Runs

  // ----- one automatic run and the world it acts on -----

  datatype World = World(releases: seq<Release>, branches: seq<Branch>)

  datatype RunInput = RunInput(cadence: Cadence, days: int, now: Instant, force: bool, answers: Answers)

  function AutoRun(w: World, inp: RunInput): Outcome {
    var detected := AutoDetected(FRESH, w.releases, inp.cadence, inp.days, inp.now, inp.answers.forDetect);
    if detected.Err? then Outcome(None, None, Some(detected.error))
    else Executed(detected.value, w.releases, w.branches, inp.force, inp.answers)
  }

  /** The pushed tag shows up as a new release, anywhere in the list, with any flags and date. */
  ghost predicate AutoStep(w: World, inp: RunInput, w': World) {
    var out := AutoRun(w, inp);
    && w'.branches == w.branches + (if out.cut.Some? then [out.cut.value] else [])
    && match out.pushed
       case None => w'.releases == w.releases
       case Some(t) => exists i: nat, r: Release :: Inserted(w.releases, i, r, w'.releases) && r.tag == t
  }

  ghost predicate Inserted(rs: seq<Release>, i: nat, r: Release, rs': seq<Release>) {
    i <= |rs| && rs' == rs[..i] + [r] + rs[i..]
  }

  // ----- the invariant -----

  /** Tags of the form x.y.0 and x.y.0-rc.n, the ones the automaton itself produces. */
  predicate IsCore(t: Tag) {
    t.Version? && t.patch == 0 && (t.pre.NoPre? || t.pre.Rc?)
  }

  ghost function CoreTags(rs: seq<Release>): set<Tag> {
    set r | r in rs && IsCore(r.tag) :: r.tag
  }

  lemma CoreTagsHas(rs: seq<Release>, t: Tag)
    requires IsCore(t)
    ensures t in CoreTags(rs) <==> HasTag(rs, t)
  {
  }

  /** The base release counts, and no other kind of x.y.0 pre-release is counted as official. */
  ghost predicate Sane(rs: seq<Release>, base: Series) {
    && (exists r | r in rs :: Counted(r) && r.tag == Official(base))
    && (forall r | r in rs && CountedMinor(r) :: r.tag.pre.NoPre?)
  }

  /** Between runs people may publish patch releases and pre-releases, reorder the list, upload
      assets and change flags; they leave the x.y.0 and x.y.0-rc.n tags to the automaton. */
  ghost predicate EnvironmentStep(w: World, w': World, base: Series) {
    CoreTags(w'.releases) == CoreTags(w.releases) && Sane(w'.releases, base)
  }

  /** `tags` is a history of series of one major version starting at `base`, the newest official
      one having minor number `hi`:
      every series from base to hi is official and, past base, had an rc.0;
      candidates past base are numbered without gaps and belong to series up to hi + 1. */
  ghost predicate History(tags: set<Tag>, base: Series, hi: nat) {
    && base.minor <= hi
    && (forall s: Series :: Official(s) in tags ==> SeriesLe(s, Series(base.major, hi)))
    && (forall m: nat | base.minor <= m <= hi :: Official(Series(base.major, m)) in tags)
    && (forall s: Series, n: nat :: Candidate(s, n) in tags && !SeriesLe(s, base) ==> s.major == base.major && s.minor <= hi + 1)
    && (forall s: Series, n: nat, k: nat :: Candidate(s, n) in tags && !SeriesLe(s, base) && k <= n ==> Candidate(s, k) in tags)
    && (forall m: nat | base.minor < m <= hi :: Candidate(Series(base.major, m), 0) in tags)
  }

  ghost predicate Inv(w: World, base: Series, hi: nat) {
    History(CoreTags(w.releases), base, hi) && Sane(w.releases, base)
  }

  /** What a run may push when the newest official series is `hi`. */
  ghost predicate LegalPush(t: Tag, tags: set<Tag>, base: Series, hi: nat) {
    var next := Series(base.major, hi + 1);
    || (exists n: nat :: t == Candidate(next, n) && t !in tags && (forall k: nat | k < n :: Candidate(next, k) in tags))
    || (t == Official(next) && t !in tags && Candidate(next, 0) in tags)
  }

  function NewHi(hi: nat, pushed: Option<Tag>): nat {
    if pushed.Some? && pushed.value.Version? && pushed.value.pre.NoPre? then hi + 1 else hi
  }

  // ----- what detection can decide under the invariant -----

  lemma CurrentIsInHistory(w: World, base: Series, hi: nat)
    requires Inv(w, base, hi)
    ensures CurrentSeries(w.releases).Some?
    ensures var c := CurrentSeries(w.releases).value; c.major == base.major && base.minor <= c.minor <= hi
    ensures HasTag(w.releases, Official(CurrentSeries(w.releases).value))
  {
    var rs := w.releases;
    var b :| b in rs && Counted(b) && b.tag == Official(base);
    assert CountedMinor(b);
    var c := CurrentSeries(rs).value;
    var r :| r in rs && CountedMinor(r) && SeriesOf(r.tag) == c;
    assert r.tag == Official(c);
    CoreTagsHas(rs, Official(c));
  }

  /** Below the newest official series the next one already exists, so nothing happens. */
  lemma BehindMeansIdle(w: World, base: Series, hi: nat, current: Series, inp: RunInput, blockers: Blockers)
    requires Inv(w, base, hi)
    requires current.major == base.major && base.minor <= current.minor < hi
    ensures Decide(w.releases, current, inp.cadence, inp.days, inp.now, blockers) == NoAction
  {
    CoreTagsHas(w.releases, Official(Next(current)));
  }

  ghost predicate LegalDecision(d: Decision, tags: set<Tag>, next: Series) {
    match d
    case NoAction => true
    case NewSeries(s, n) => s == next && n == 0 && forall k: nat :: Candidate(next, k) !in tags
    case NewCandidate(s, n) => s == next && Candidate(s, n) !in tags && forall k: nat | k < n :: Candidate(s, k) in tags
    case Promote(rc) => (exists n: nat :: rc == Candidate(next, n)) && Candidate(next, 0) in tags && Official(next) !in tags
  }

  /** The candidates of a series among the tags, and the highest release candidate listed. */
  lemma HighestAmongTags(rs: seq<Release>, next: Series)
    ensures var c := HighestCandidate(rs, next);
            if c.None? then forall n: nat :: Candidate(next, n) !in CoreTags(rs)
            else c.value.tag == Candidate(next, c.value.tag.pre.n) && c.value.tag in CoreTags(rs)
                 && forall n: nat | Candidate(next, n) in CoreTags(rs) :: n <= c.value.tag.pre.n
  {
    var c := HighestCandidate(rs, next);
    forall n: nat | Candidate(next, n) in CoreTags(rs)
      ensures c.Some? && n <= c.value.tag.pre.n
    {
      var r :| r in rs && r.tag == Candidate(next, n);
      assert IsCandidateFor(r, next);
    }
  }

  /** What each decision says about the list. */
  ghost predicate DecisionFits(d: Decision, rs: seq<Release>, next: Series) {
    var c := PromotionCandidate(rs, next);
    match d
    case NoAction => true
    case NewSeries(s, n) => s == next && !HasTag(rs, Official(next)) && !HasTag(rs, Candidate(next, 0)) && (c.None? ==> n == 0)
    case NewCandidate(s, n) => s == next && c.Some? && n == c.value.tag.pre.n + 1
    case Promote(rc) => c.Some? && rc == c.value.tag && !HasTag(rs, Official(next))
  }

  lemma DecideFits(rs: seq<Release>, current: Series, inp: RunInput, blockers: Blockers)
    ensures DecisionFits(Decide(rs, current, inp.cadence, inp.days, inp.now, blockers), rs, Next(current))
  {
  }

  lemma FittingIsLegal(d: Decision, rs: seq<Release>, base: Series, hi: nat)
    requires History(CoreTags(rs), base, hi) && DecisionFits(d, rs, Series(base.major, hi + 1))
    ensures LegalDecision(d, CoreTags(rs), Series(base.major, hi + 1))
  {
    var next := Series(base.major, hi + 1);
    CoreTagsHas(rs, Official(next));
    CoreTagsHas(rs, Candidate(next, 0));
    HighestAmongTags(rs, next);
    assert !SeriesLe(next, base);
  }

  lemma DecisionIsLegal(w: World, base: Series, hi: nat, inp: RunInput, blockers: Blockers)
    requires Inv(w, base, hi)
    ensures LegalDecision(Decide(w.releases, Series(base.major, hi), inp.cadence, inp.days, inp.now, blockers),
                          CoreTags(w.releases), Series(base.major, hi + 1))
  {
    DecideFits(w.releases, Series(base.major, hi), inp, blockers);
    FittingIsLegal(Decide(w.releases, Series(base.major, hi), inp.cadence, inp.days, inp.now, blockers), w.releases, base, hi);
  }

  /** The tag a decision leads to. */
  function TagOf(d: Decision): Option<Tag> {
    match d
    case NoAction => None
    case NewSeries(s, n) => Some(Candidate(s, n))
    case NewCandidate(s, n) => Some(Candidate(s, n))
    case Promote(rc) => if rc.Version? then Some(rc.(pre := NoPre)) else None
  }

  /** Whatever is pushed is the tag of the decision; verification can only stop it. */
  lemma OnlyTheDecisionIsPushed(rs: seq<Release>, branches: seq<Branch>, cache: Cache, d: Decision, force: bool, answers: Answers)
    ensures var out := Executed(Apply(FRESH.(cache := cache), d), rs, branches, force, answers);
            out.pushed.Some? ==> out.pushed == TagOf(d)
  {
  }

  /** The blockers detection sees. */
  function SeenBlockers(w: World, inp: RunInput, next: Series): Blockers {
    var raw := inp.answers.forDetect(ReleaseBranch(next));
    if PromotionCandidate(w.releases, next).Some? && raw.Ok? then Filtered(raw.value, ReleaseBranch(next))
    else Blockers([], [])
  }

  function RunDecision(w: World, inp: RunInput, current: Series): Decision {
    Decide(w.releases, current, inp.cadence, inp.days, inp.now, SeenBlockers(w, inp, Next(current)))
  }

  lemma PushComesFromDecision(w: World, inp: RunInput)
    requires AutoRun(w, inp).pushed.Some?
    ensures var current := CurrentSeries(w.releases);
            && current.Some? && !inp.cadence.UnknownCadence?
            && (PromotionCandidate(w.releases, Next(current.value)).Some? ==>
                  inp.answers.forDetect(ReleaseBranch(Next(current.value))).Ok?)
            && AutoRun(w, inp).pushed == TagOf(RunDecision(w, inp, current.value))
  {
    var rs := w.releases;
    var detected := AutoDetected(FRESH, rs, inp.cadence, inp.days, inp.now, inp.answers.forDetect);
    assert detected.Ok?;
    var current := CurrentSeries(rs);
    if current.None? {
      OnlyTheDecisionIsPushed(rs, w.branches, FRESH.cache, NoAction, inp.force, inp.answers);
    } else {
      var branch := ReleaseBranch(Next(current.value));
      var cache := if PromotionCandidate(rs, Next(current.value)).Some? then Remember(FRESH.cache, branch, inp.answers.forDetect) else FRESH.cache;
      var d := RunDecision(w, inp, current.value);
      assert detected.value == Apply(FRESH.(cache := cache), d);
      OnlyTheDecisionIsPushed(rs, w.branches, cache, d, inp.force, inp.answers);
    }
  }

  lemma PushIsLegal(w: World, base: Series, hi: nat, inp: RunInput)
    requires Inv(w, base, hi)
    requires AutoRun(w, inp).pushed.Some?
    ensures LegalPush(AutoRun(w, inp).pushed.value, CoreTags(w.releases), base, hi)
  {
    PushComesFromDecision(w, inp);
    CurrentIsInHistory(w, base, hi);
    var current := CurrentSeries(w.releases).value;
    var blockers := SeenBlockers(w, inp, Next(current));
    if current.minor < hi {
      BehindMeansIdle(w, base, hi, current, inp, blockers);
    } else {
      DecisionIsLegal(w, base, hi, inp, blockers);
    }
  }

  // ----- steps keep the invariant -----

  lemma CoreTagsAfterInsert(rs: seq<Release>, i: nat, r: Release, rs': seq<Release>)
    requires Inserted(rs, i, r, rs')
    ensures forall x :: x in rs' <==> x in rs || x == r
    ensures IsCore(r.tag) ==> CoreTags(rs') == CoreTags(rs) + {r.tag}
  {
    forall x
      ensures x in rs' <==> x in rs || x == r
    {
      assert rs == rs[..i] + rs[i..];
      assert x in rs <==> x in rs[..i] || x in rs[i..];
    }
    if IsCore(r.tag) {
      forall t
        ensures t in CoreTags(rs') <==> t in CoreTags(rs) + {r.tag}
      {
        if IsCore(t) {
          CoreTagsHas(rs, t);
          CoreTagsHas(rs', t);
        }
      }
    }
  }

  lemma LegalPushKeepsHistory(tags: set<Tag>, base: Series, hi: nat, t: Tag)
    requires History(tags, base, hi)
    requires LegalPush(t, tags, base, hi)
    ensures History(tags + {t}, base, NewHi(hi, Some(t)))
  {
  }

  lemma AutoStepKeepsInv(w: World, base: Series, hi: nat, inp: RunInput, w': World)
    requires Inv(w, base, hi)
    requires AutoStep(w, inp, w')
    ensures Inv(w', base, NewHi(hi, AutoRun(w, inp).pushed))
  {
    var out := AutoRun(w, inp);
    if out.pushed.Some? {
      var t := out.pushed.value;
      PushIsLegal(w, base, hi, inp);
      LegalPushKeepsHistory(CoreTags(w.releases), base, hi, t);
      var i: nat, r: Release :| Inserted(w.releases, i, r, w'.releases) && r.tag == t;
      CoreTagsAfterInsert(w.releases, i, r, w'.releases);
      var b :| b in w.releases && Counted(b) && b.tag == Official(base);
      assert b in w'.releases;
    }
  }

  // ----- whole histories -----

  datatype Event = Auto(inp: RunInput) | Environment

  function PushedBy(w: World, e: Event): Option<Tag> {
    match e
    case Auto(inp) => AutoRun(w, inp).pushed
    case Environment => None
  }

  /** The world and the minor number of the newest official series. */
  datatype State = State(world: World, hi: nat)

  ghost predicate Step(s: State, e: Event, s': State, base: Series) {
    && s'.hi == NewHi(s.hi, PushedBy(s.world, e))
    && match e
       case Auto(inp) => AutoStep(s.world, inp, s'.world)
       case Environment => EnvironmentStep(s.world, s'.world, base)
  }

  ghost function StepOf(base: Series): (State, Event, State) -> bool {
    (s: State, e: Event, s': State) => Step(s, e, s', base)
  }

  ghost predicate IsTrace(ss: seq<State>, es: seq<Event>, base: Series) {
    IsRun(ss, es, StepOf(base))
  }

  ghost predicate Safe(s: State, base: Series) {
    Inv(s.world, base, s.hi)
  }

  /** The event pushes nothing or the next legal tag. */
  ghost predicate PushesLegally(s: State, e: Event, base: Series) {
    var pushed := PushedBy(s.world, e);
    pushed.Some? ==> LegalPush(pushed.value, CoreTags(s.world.releases), base, s.hi)
  }

  lemma SafetyHolds(ss: seq<State>, es: seq<Event>, base: Series, n: nat)
    requires IsTrace(ss, es, base)
    requires n <= |es| && Safe(ss[0], base)
    ensures Safe(ss[n], base)
  {
    var step := StepOf(base);
    var safe := (s: State) => Safe(s, base);
    forall s, e, s' | safe(s) && step(s, e, s')
      ensures safe(s')
    {
      if e.Auto? {
        AutoStepKeepsInv(s.world, base, s.hi, e.inp, s'.world);
      }
    }
    InvariantHolds(ss, es, step, safe, 0, n);
  }

  /** Whatever happens between the runs, every state of the history satisfies the invariant and
      every tag that is pushed is the next legal one: new, without gap, and, when official, the
      successor of the newest series and preceded by its rc.0. */
  lemma HistoryIsSafe(ss: seq<State>, es: seq<Event>, base: Series, n: nat)
    requires IsTrace(ss, es, base)
    requires n <= |es| && Safe(ss[0], base)
    ensures Safe(ss[n], base)
    ensures n < |es| ==> PushesLegally(ss[n], es[n], base)
  {
    SafetyHolds(ss, es, base, n);
    if n < |es| && PushedBy(ss[n].world, es[n]).Some? {
      PushIsLegal(ss[n].world, base, ss[n].hi, es[n].inp);
    }
  }

  /** A list whose only x.y.0 release is the counted base, possibly with candidates of older
      series, is a good start. */
  lemma OneOfficialReleaseIsAStart(w: World, base: Series)
    requires Sane(w.releases, base)
    requires forall t | t in CoreTags(w.releases) :: t == Official(base) || (t.pre.Rc? && SeriesLe(SeriesOf(t), base))
    ensures Inv(w, base, base.minor)
  {
    CoreTagsHas(w.releases, Official(base));
    forall s: Series, n: nat | Candidate(s, n) in CoreTags(w.releases)
      ensures SeriesLe(s, base)
    {
      assert SeriesOf(Candidate(s, n)) == s;
    }
  }

  lemma StepKeepsTags(s: State, e: Event, s': State, base: Series)
    requires Step(s, e, s', base)
    ensures CoreTags(s.world.releases) <= CoreTags(s'.world.releases)
    ensures PushedBy(s.world, e).Some? ==> PushedBy(s.world, e).value in CoreTags(s'.world.releases)
  {
    if PushedBy(s.world, e).Some? {
      PushComesFromDecision(s.world, e.inp);
      var k: nat, r: Release :| Inserted(s.world.releases, k, r, s'.world.releases) && r.tag == PushedBy(s.world, e).value;
      CoreTagsAfterInsert(s.world.releases, k, r, s'.world.releases);
    }
  }

  lemma TagIsKept(ss: seq<State>, es: seq<Event>, base: Series, t: Tag, i: nat, j: nat)
    requires IsTrace(ss, es, base)
    requires i <= j <= |es| && t in CoreTags(ss[i].world.releases)
    ensures t in CoreTags(ss[j].world.releases)
  {
    var step := StepOf(base);
    var has := (s: State) => t in CoreTags(s.world.releases);
    forall s, e, s' | has(s) && step(s, e, s')
      ensures has(s')
    {
      StepKeepsTags(s, e, s', base);
    }
    InvariantHolds(ss, es, step, has, i, j);
  }

  /** No tag is ever pushed twice. */
  lemma PushesAreDistinct(ss: seq<State>, es: seq<Event>, base: Series, i: nat, j: nat)
    requires IsTrace(ss, es, base) && Safe(ss[0], base)
    requires i < j < |es|
    requires PushedBy(ss[i].world, es[i]).Some? && PushedBy(ss[j].world, es[j]).Some?
    ensures PushedBy(ss[i].world, es[i]) != PushedBy(ss[j].world, es[j])
  {
    assert StepOf(base)(ss[i], es[i], ss[i + 1]);
    StepKeepsTags(ss[i], es[i], ss[i + 1], base);
    TagIsKept(ss, es, base, PushedBy(ss[i].world, es[i]).value, i + 1, j);
    HistoryIsSafe(ss, es, base, j);
  }

  // ----- when a new series starts -----

  /** The first candidate of a series is cut only in a later period than the creation of the last
      official series, provided the clock is not behind that creation. */
  lemma NewSeriesWaitsForItsPeriod(w: World, base: Series, hi: nat, inp: RunInput)
    requires Inv(w, base, hi)
    requires AutoRun(w, inp).pushed == Some(Candidate(Series(base.major, hi + 1), 0))
    ensures exists r :: r in w.releases && r.tag == Official(Series(base.major, hi))
                        && (!LaterDay(r.createdAt.date, inp.now.date) ==> LaterPeriod(inp.cadence, inp.now.date, r.createdAt.date))
  {
    var rs := w.releases;
    PushComesFromDecision(w, inp);
    CurrentIsInHistory(w, base, hi);
    var current := CurrentSeries(rs).value;
    var blockers := SeenBlockers(w, inp, Next(current));
    if current.minor < hi {
      BehindMeansIdle(w, base, hi, current, inp, blockers);
    }
    DecisionIsLegal(w, base, hi, inp, blockers);
    var r :| r in rs && r.tag == Official(current) && TimeToCut(inp.cadence, inp.now.date, r.createdAt.date);
    if !LaterDay(r.createdAt.date, inp.now.date) {
      CutTestIsLaterPeriod(inp.cadence, inp.now.date, r.createdAt.date);
    }
  }

  /** A run whose clock is behind: 1.0.0 was released on the 10th of February, the clock shows the
      15th of January, and rc.0 of 1.1 is pushed. */
  lemma ABackwardClockCutsEarly() returns (w: World, inp: RunInput)
    ensures Inv(w, Series(1, 0), 0)
    ensures AutoRun(w, inp).pushed == Some(Candidate(Series(1, 1), 0))
    ensures forall r | r in w.releases :: !LaterPeriod(inp.cadence, inp.now.date, r.createdAt.date)
  {
    var base := Series(1, 0);
    var r := Release(Official(base), Instant(1581292800, Date(2020, 2, 10)), false, false, 1);
    var nothing: Github := b => Ok(Blockers([], []));
    w := World([r], []);
    inp := RunInput(Daily, 7, Instant(1579046400, Date(2020, 1, 15)), false, Answers(nothing, nothing, nothing, nothing));
    assert w.releases[0] == r && Counted(r) && CountedMinor(r);
    OneOfficialReleaseIsAStart(w, base);
    assert CurrentSeries(w.releases) == Some(base);
    assert PromotionCandidate(w.releases, Next(base)) == None;
    assert ShouldCutSeries(w.releases, base, Daily, inp.now);
    RunExecutesItsDecision(w, inp, base);
    assert RunDecision(w, inp, base) == NewSeries(Series(1, 1), 0);
  }

  // ----- promotions -----

  ghost predicate UniqueTags(rs: seq<Release>) {
    forall a, b | a in rs && b in rs && a.tag == b.tag :: a == b
  }

  /** No labelled issue or pull request is open, and none was closed after the candidate was cut. */
  ghost predicate NothingAgainst(raw: Blockers, branch: Branch, cut: Instant) {
    && (forall i | i in raw.issues && branch in i.blockerFor :: !i.open && (i.closedAt.Some? ==> i.closedAt.value <= cut.unix))
    && (forall p | p in raw.prs && branch in p.blockerFor :: !p.open && p.closedAt.Some? && p.closedAt.value <= cut.unix)
  }

  lemma NothingAgainstIsValid(raw: Blockers, branch: Branch, cut: Instant)
    ensures NothingAgainst(raw, branch, cut) <==> !Invalidated(Filtered(raw, branch), cut.unix)
  {
  }

  /** `c` is what automatic mode may promote: the highest candidate of the series after the current
      one, old enough, with nothing against it in GitHub's answer. */
  ghost predicate Promotable(w: World, inp: RunInput, next: Series, c: Release) {
    var branch := ReleaseBranch(next);
    var raw := inp.answers.forDetect(branch);
    && c in w.releases && IsCandidateFor(c, next)
    && (forall r | r in w.releases && IsCandidateFor(r, next) :: r.tag.pre.n <= c.tag.pre.n)
    && !HasTag(w.releases, Official(next))
    && inp.now.unix - c.createdAt.unix >= 86400 * inp.days - 10800
    && raw.Ok? && NothingAgainst(raw.value, branch, c.createdAt)
  }

  lemma PromoteDecisionIsEarned(w: World, inp: RunInput, current: Series)
    requires RunDecision(w, inp, current).Promote?
    requires inp.answers.forDetect(ReleaseBranch(Next(current))).Ok?
    ensures PromotionCandidate(w.releases, Next(current)).Some?
    ensures var c := PromotionCandidate(w.releases, Next(current)).value;
            Promotable(w, inp, Next(current), c) && RunDecision(w, inp, current) == Promote(c.tag)
  {
    var next := Next(current);
    var c := PromotionCandidate(w.releases, next).value;
    NothingAgainstIsValid(inp.answers.forDetect(ReleaseBranch(next)).value, ReleaseBranch(next), c.createdAt);
  }

  /** An official release is only pushed as the promotion of a promotable candidate. */
  lemma PromotionsAreEarned(w: World, inp: RunInput)
    requires AutoRun(w, inp).pushed.Some? && AutoRun(w, inp).pushed.value.Version?
    requires AutoRun(w, inp).pushed.value.pre.NoPre?
    ensures CurrentSeries(w.releases).Some?
    ensures AutoRun(w, inp).pushed.value == Official(Next(CurrentSeries(w.releases).value))
    ensures exists c :: Promotable(w, inp, Next(CurrentSeries(w.releases).value), c)
  {
    PushComesFromDecision(w, inp);
    var current := CurrentSeries(w.releases).value;
    var d := RunDecision(w, inp, current);
    assert TagOf(d) == AutoRun(w, inp).pushed;
    PromoteDecisionIsEarned(w, inp, current);
  }

  /** Once a candidate is promotable and no new series is due, the run pushes exactly the next
      minor release if its branch exists. The later phases reach the same verdict through the
      memoised blockers, whatever GitHub would answer by then. */
  lemma PromotionGoesThrough(w: World, inp: RunInput, current: Series, c: Release)
    requires !inp.cadence.UnknownCadence?
    requires UniqueTags(w.releases)
    requires CurrentSeries(w.releases) == Some(current)
    requires Promotable(w, inp, Next(current), c)
    requires !ShouldCutSeries(w.releases, current, inp.cadence, inp.now)
    ensures AutoRun(w, inp) ==
            if ReleaseBranch(Next(current)) in w.branches then Outcome(None, Some(Official(Next(current))), None)
            else Outcome(None, None, Some(BranchNotFound))
  {
    var rs := w.releases;
    var next := Next(current);
    var branch := ReleaseBranch(next);
    var raw := inp.answers.forDetect(branch).value;
    NothingAgainstIsValid(raw, branch, c.createdAt);
    assert HighestCandidate(rs, next) == Some(c);
    var st := FRESH.(cache := FRESH.cache[branch := Filtered(raw, branch)], promoteRC := Some(c.tag));
    assert AutoDetected(FRESH, rs, inp.cadence, inp.days, inp.now, inp.answers.forDetect) == Ok(st);
    var promoted := st.(tag := Some(Official(next)));
    assert PromotionVerified(st) == Ok(promoted);
    assert FirstWithTag(rs, c.tag) == Some(c);
    assert Remember(promoted.cache, branch, inp.answers.forVerify) == promoted.cache;
    assert EligibilityVerified(promoted, rs, branch, inp.answers.forVerify) == Ok(promoted);
  }

  /** A valid candidate means an unblocked branch: the promotion check is the stricter one. */
  lemma ValidCandidateMeansUnblockedBranch(b: Blockers, created: int)
    requires !Invalidated(b, created)
    ensures !HasOpen(b.issues) && !HasOpen(b.prs)
  {
  }

  // ----- recuts and first candidates -----

  /** No labelled item is open, but one was closed after the candidate was cut. */
  ghost predicate OnlyClosedSince(raw: Blockers, branch: Branch, cut: Instant) {
    && (forall i | i in raw.issues && branch in i.blockerFor :: !i.open)
    && (forall p | p in raw.prs && branch in p.blockerFor :: !p.open && p.closedAt.Some?)
    && (exists i | i in raw.issues + raw.prs :: branch in i.blockerFor && i.closedAt.Some? && i.closedAt.value > cut.unix)
  }

  lemma OnlyClosedSinceMeansRecut(raw: Blockers, branch: Branch, cut: Instant)
    ensures OnlyClosedSince(raw, branch, cut) <==>
            Invalidated(Filtered(raw, branch), cut.unix) && !BlocksNewRC(Filtered(raw, branch))
  {
    var b := Filtered(raw, branch);
    assert forall i :: i in raw.issues + raw.prs <==> i in raw.issues || i in raw.prs;
    if OnlyClosedSince(raw, branch, cut) {
      var i :| i in raw.issues + raw.prs && branch in i.blockerFor && i.closedAt.Some? && i.closedAt.value > cut.unix;
      assert i in b.issues || i in b.prs;
    }
    if Invalidated(b, cut.unix) && !BlocksNewRC(b) {
      if i :| i in b.issues && ClosedAfter(i, cut.unix) {
        assert i in raw.issues + raw.prs;
      } else if p :| p in b.prs && ClosedAfter(p, cut.unix) {
        assert p in raw.issues + raw.prs;
      }
    }
  }

  /** `c` is what automatic mode may replace: the highest candidate of the series after the current
      one, with blockers that have all been closed, at least one of them after it was cut. */
  ghost predicate Replaceable(w: World, inp: RunInput, next: Series, c: Release) {
    var raw := inp.answers.forDetect(ReleaseBranch(next));
    && c in w.releases && IsCandidateFor(c, next)
    && (forall r | r in w.releases && IsCandidateFor(r, next) :: r.tag.pre.n <= c.tag.pre.n)
    && !HasTag(w.releases, Official(next))
    && raw.Ok? && OnlyClosedSince(raw.value, ReleaseBranch(next), c.createdAt)
  }

  lemma RecutDecisionIsEarned(w: World, inp: RunInput, current: Series, n: nat)
    requires TagOf(RunDecision(w, inp, current)) == Some(Candidate(Next(current), n)) && n > 0
    requires PromotionCandidate(w.releases, Next(current)).Some? ==> inp.answers.forDetect(ReleaseBranch(Next(current))).Ok?
    ensures PromotionCandidate(w.releases, Next(current)).Some?
    ensures var c := PromotionCandidate(w.releases, Next(current)).value;
            Replaceable(w, inp, Next(current), c) && n == c.tag.pre.n + 1
  {
    var next := Next(current);
    assert PromotionCandidate(w.releases, next).Some?;
    var c := PromotionCandidate(w.releases, next).value;
    OnlyClosedSinceMeansRecut(inp.answers.forDetect(ReleaseBranch(next)).value, ReleaseBranch(next), c.createdAt);
  }

  /** A candidate with a number above 0 is only pushed to replace the highest one, whose blockers
      have been closed since it was cut. */
  lemma RecutsAreEarned(w: World, inp: RunInput, s: Series, n: nat)
    requires AutoRun(w, inp).pushed == Some(Candidate(s, n)) && n > 0
    ensures CurrentSeries(w.releases).Some? && s == Next(CurrentSeries(w.releases).value)
    ensures exists c :: Replaceable(w, inp, s, c) && n == c.tag.pre.n + 1
  {
    PushComesFromDecision(w, inp);
    var current := CurrentSeries(w.releases).value;
    PushedSeriesIsNext(w, inp, current, s, n);
    RecutDecisionIsEarned(w, inp, current, n);
  }

  lemma PushedSeriesIsNext(w: World, inp: RunInput, current: Series, s: Series, n: nat)
    requires TagOf(RunDecision(w, inp, current)) == Some(Candidate(s, n))
    ensures s == Next(current)
    ensures n == 0 ==> RunDecision(w, inp, current).NewSeries?
  {
  }

  /** No open item carries the label of the branch. */
  ghost predicate NothingOpen(raw: Blockers, branch: Branch) {
    && (forall i | i in raw.issues && branch in i.blockerFor :: !i.open)
    && (forall p | p in raw.prs && branch in p.blockerFor :: !p.open)
  }

  lemma UnblockedMeansNothingOpen(cache: Cache, branch: Branch, github: Github)
    requires branch !in cache && BranchBlocked(cache, branch, false, github) == Ok(false)
    ensures github(branch).Ok? && NothingOpen(github(branch).value, branch)
  {
    var b := Filtered(github(branch).value, branch);
    forall i | i in github(branch).value.issues && branch in i.blockerFor
      ensures !i.open
    {
      assert i in b.issues;
    }
    forall p | p in github(branch).value.prs && branch in p.blockerFor
      ensures !p.open
    {
      assert p in b.prs;
    }
  }

  lemma NewSeriesNeedsMain(rs: seq<Release>, branches: seq<Branch>, cache: Cache, s: Series, n: nat, answers: Answers)
    requires MAIN_BRANCH !in cache
    requires Executed(Apply(FRESH.(cache := cache), NewSeries(s, n)), rs, branches, false, answers).pushed.Some?
    ensures BranchBlocked(cache, MAIN_BRANCH, false, answers.forMain) == Ok(false)
  {
  }

  /** The first candidate of a series, without force, is only pushed while nothing blocks the main
      branch. */
  lemma FirstCandidatesNeedMain(w: World, inp: RunInput, s: Series)
    requires AutoRun(w, inp).pushed == Some(Candidate(s, 0)) && !inp.force
    ensures inp.answers.forMain(MAIN_BRANCH).Ok?
    ensures NothingOpen(inp.answers.forMain(MAIN_BRANCH).value, MAIN_BRANCH)
  {
    PushComesFromDecision(w, inp);
    var current := CurrentSeries(w.releases).value;
    PushedSeriesIsNext(w, inp, current, s, 0);
    var cache := CacheAfterDetection(w, inp, current);
    RunExecutesItsDecision(w, inp, current);
    NewSeriesNeedsMain(w.releases, w.branches, cache, s, RunDecision(w, inp, current).n, inp.answers);
    UnblockedMeansNothingOpen(cache, MAIN_BRANCH, inp.answers.forMain);
  }

  function CacheAfterDetection(w: World, inp: RunInput, current: Series): Cache {
    var branch := ReleaseBranch(Next(current));
    if PromotionCandidate(w.releases, Next(current)).Some? then Remember(FRESH.cache, branch, inp.answers.forDetect) else FRESH.cache
  }

  lemma RunExecutesItsDecision(w: World, inp: RunInput, current: Series)
    requires !inp.cadence.UnknownCadence? && CurrentSeries(w.releases) == Some(current)
    requires PromotionCandidate(w.releases, Next(current)).Some? ==> inp.answers.forDetect(ReleaseBranch(Next(current))).Ok?
    ensures AutoRun(w, inp) ==
            Executed(Apply(FRESH.(cache := CacheAfterDetection(w, inp, current)), RunDecision(w, inp, current)),
                     w.releases, w.branches, inp.force, inp.answers)
    ensures MAIN_BRANCH !in CacheAfterDetection(w, inp, current)
  {
  }
}
