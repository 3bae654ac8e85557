/** The values the release tool decides on: tags, releases, clocks and blockers, and what the
    decision should be, stated without loops. */
module ReleaseModel {
  import opened Wrappers

  // ----- tags -----

  datatype Pre = NoPre | Rc(n: nat) | Alpha(n: nat) | Beta(n: nat) | OtherPre(text: string)

  /** A git tag: a semantic version, or a name that does not parse as one. */
  datatype Tag =
    | Version(major: nat, minor: nat, patch: nat, pre: Pre)
    | NotSemver(name: string)

  /** A release series x.y. */
  datatype Series = Series(major: nat, minor: nat)

  predicate SeriesLe(a: Series, b: Series) {
    a.major < b.major || (a.major == b.major && a.minor <= b.minor)
  }

  function Next(s: Series): Series {
    Series(s.major, s.minor + 1)
  }

  function Official(s: Series): Tag {
    Version(s.major, s.minor, 0, NoPre)
  }

  function Candidate(s: Series, n: nat): Tag {
    Version(s.major, s.minor, 0, Rc(n))
  }

  // ----- clocks -----

  datatype Date = Date(year: int, month: int, day: int)

  /** A point in time: seconds since the epoch, and the calendar date it falls on. */
  datatype Instant = Instant(unix: int, date: Date)

  predicate LaterDay(a: Date, b: Date) {
    a.year > b.year || (a.year == b.year && (a.month > b.month || (a.month == b.month && a.day > b.day)))
  }

  predicate LaterMonth(a: Date, b: Date) {
    a.year > b.year || (a.year == b.year && a.month > b.month)
  }

  datatype Cadence = Daily | Monthly | UnknownCadence(name: string)

  /** The tool's own test whether the current series is old enough to be followed. */
  predicate TimeToCut(cadence: Cadence, now: Date, created: Date) {
    || (cadence.Daily? && now.day > created.day)
    || ((cadence.Daily? || cadence.Monthly?) && now.month > created.month)
    || ((cadence.Daily? || cadence.Monthly?) && now.year > created.year)
  }

  /** What the cadence names promise. */
  predicate LaterPeriod(cadence: Cadence, now: Date, created: Date) {
    match cadence
    case Daily => LaterDay(now, created)
    case Monthly => LaterMonth(now, created)
    case UnknownCadence(_) => false
  }

  // ----- releases -----

  datatype Release = Release(tag: Tag, createdAt: Instant, draft: bool, prerelease: bool, assets: nat)

  /** The releases that take part in finding the current series. */
  predicate Counted(r: Release) {
    && !r.draft && !r.prerelease && r.assets > 0
    && r.tag.Version? && !r.tag.pre.Rc?
  }

  predicate CountedMinor(r: Release) {
    Counted(r) && r.tag.patch == 0
  }

  function SeriesOf(t: Tag): Series
    requires t.Version?
  {
    Series(t.major, t.minor)
  }

  predicate HasTag(rs: seq<Release>, t: Tag) {
    exists r | r in rs :: r.tag == t
  }

  /** `s` is the greatest series with a counted x.y.0 release. */
  ghost predicate IsCurrentSeries(rs: seq<Release>, s: Series) {
    && (exists r | r in rs :: CountedMinor(r) && SeriesOf(r.tag) == s)
    && (forall r | r in rs && CountedMinor(r) :: SeriesLe(SeriesOf(r.tag), s))
  }

  function CurrentSeries(rs: seq<Release>): (c: Option<Series>)
    ensures c.Some? ==> IsCurrentSeries(rs, c.value)
    ensures c.None? ==> forall r | r in rs :: !CountedMinor(r)
  {
    if rs == [] then None
    else
      var last := rs[|rs| - 1];
      assert forall r :: r in rs <==> r in rs[..|rs| - 1] || r == last;
      var c := CurrentSeries(rs[..|rs| - 1]);
      if CountedMinor(last) && (c.None? || SeriesLe(c.value, SeriesOf(last.tag))) then Some(SeriesOf(last.tag)) else c
  }

  predicate IsCandidateFor(r: Release, s: Series) {
    r.tag.Version? && r.tag.pre.Rc? && r.tag == Candidate(s, r.tag.pre.n)
  }

  /** The release candidate with the highest number; the later entry wins a tie. */
  function HighestCandidate(rs: seq<Release>, s: Series): (c: Option<Release>)
    ensures c.None? <==> forall r | r in rs :: !IsCandidateFor(r, s)
    ensures c.Some? ==> c.value in rs && IsCandidateFor(c.value, s)
    ensures c.Some? ==> forall r | r in rs && IsCandidateFor(r, s) :: r.tag.pre.n <= c.value.tag.pre.n
  {
    if rs == [] then None
    else
      var last := rs[|rs| - 1];
      assert forall r :: r in rs <==> r in rs[..|rs| - 1] || r == last;
      var c := HighestCandidate(rs[..|rs| - 1], s);
      if IsCandidateFor(last, s) && (c.None? || last.tag.pre.n >= c.value.tag.pre.n) then Some(last) else c
  }

  function PromotionCandidate(rs: seq<Release>, s: Series): Option<Release> {
    if HasTag(rs, Official(s)) then None else HighestCandidate(rs, s)
  }

  predicate ShouldCutSeries(rs: seq<Release>, current: Series, cadence: Cadence, now: Instant) {
    && !HasTag(rs, Official(Next(current)))
    && !HasTag(rs, Candidate(Next(current), 0))
    && exists r | r in rs :: r.tag == Official(current) && TimeToCut(cadence, now.date, r.createdAt.date)
  }

  // ----- blockers -----

  datatype Branch = ReleaseBranch(series: Series) | NamedBranch(name: string)

  const MAIN_BRANCH := NamedBranch("main")

  /** A GitHub issue or pull request with the branches whose release-blocker label it carries. */
  datatype Item = Item(blockerFor: set<Branch>, open: bool, closedAt: Option<int>)

  datatype Blockers = Blockers(issues: seq<Item>, prs: seq<Item>)

  datatype ToolError =
    | GithubError
    | UnknownCadenceError
    | TagAndPromoteConflict
    | NotACandidateTag
    | MalformedBranch
    | NotSemverTag
    | CandidateNotFound
    | CandidateBlocked
    | MustBeCandidate
    | BranchNotFound
    | BranchIsBlocked

  /** What GitHub would answer to a listing of blockers for a branch. */
  type Github = Branch -> Result<Blockers, ToolError>

  type Cache = map<Branch, Blockers>

  function Labelled(items: seq<Item>, b: Branch): (r: seq<Item>)
    ensures forall i :: i in r <==> i in items && b in i.blockerFor
  {
    if items == [] then []
    else
      var last := items[|items| - 1];
      assert forall i :: i in items <==> i in items[..|items| - 1] || i == last;
      Labelled(items[..|items| - 1], b) + if b in last.blockerFor then [last] else []
  }

  function Filtered(raw: Blockers, b: Branch): Blockers {
    Blockers(Labelled(raw.issues, b), Labelled(raw.prs, b))
  }

  function Lookup(cache: Cache, b: Branch, github: Github): Result<Blockers, ToolError> {
    if b in cache then Ok(cache[b])
    else
      var raw :- github(b);
      Ok(Filtered(raw, b))
  }

  function Remember(cache: Cache, b: Branch, github: Github): Cache {
    var l := Lookup(cache, b, github);
    if l.Ok? then cache[b := l.value] else cache
  }

  predicate PrCountsAsOpen(pr: Item) {
    pr.closedAt.None? || pr.open
  }

  predicate ClosedAfter(i: Item, created: int) {
    i.closedAt.Some? && i.closedAt.value > created
  }

  /** Something stops a new release candidate: an open blocker. */
  predicate BlocksNewRC(b: Blockers) {
    (exists i | i in b.issues :: i.open) || (exists p | p in b.prs :: PrCountsAsOpen(p))
  }

  /** Something stops the promotion: an open blocker, or one closed after the candidate was cut. */
  predicate Invalidated(b: Blockers, created: int) {
    || BlocksNewRC(b)
    || (exists i | i in b.issues :: ClosedAfter(i, created))
    || (exists p | p in b.prs :: ClosedAfter(p, created))
  }

  predicate HasOpen(items: seq<Item>) {
    exists i | i in items :: i.open
  }

  // ----- the automatic decision -----

  const TOLERANCE := 3 * 60 * 60

  predicate OldEnough(now: Instant, created: Instant, days: int) {
    now.unix - created.unix >= 86400 * days - TOLERANCE
  }

  datatype Decision =
    | NoAction
    | NewSeries(series: Series, n: nat)
    | NewCandidate(series: Series, n: nat)
    | Promote(rc: Tag)

  /** The decision once the current series is known. `blockers` is only consulted when there is a
      promotion candidate. */
  function Decide(rs: seq<Release>, current: Series, cadence: Cadence, days: int, now: Instant,
                  blockers: Blockers): Decision
  {
    var next := Next(current);
    var c := PromotionCandidate(rs, next);
    var recut := c.Some? && Invalidated(blockers, c.value.createdAt.unix) && !BlocksNewRC(blockers);
    var n := if recut then c.value.tag.pre.n + 1 else 0;
    if ShouldCutSeries(rs, current, cadence, now) then NewSeries(next, n)
    else if recut then NewCandidate(next, n)
    else if c.Some? && !Invalidated(blockers, c.value.createdAt.unix) && OldEnough(now, c.value.createdAt, days) then
      Promote(c.value.tag)
    else NoAction
  }

  // ----- the run of the tool, as values -----

  /** The mutable part of the tool's `releaseData`. */
  datatype State = State(newBranch: Option<Branch>, tagBranch: Option<Branch>, tag: Option<Tag>,
                         promoteRC: Option<Tag>, cache: Cache)

  const FRESH := State(None, None, None, None, map[])

  function Apply(st: State, d: Decision): State {
    match d
    case NoAction => st
    case NewSeries(s, n) =>
      st.(tag := Some(Candidate(s, n)), newBranch := Some(ReleaseBranch(s)), tagBranch := Some(ReleaseBranch(s)))
    case NewCandidate(s, n) =>
      st.(tag := Some(Candidate(s, n)), tagBranch := Some(ReleaseBranch(s)))
    case Promote(rc) =>
      st.(promoteRC := Some(rc))
  }

  /** Blockers are only looked up when there is a promotion candidate. */
  function AutoDetected(st: State, rs: seq<Release>, cadence: Cadence, days: int, now: Instant,
                        github: Github): Result<State, ToolError>
  {
    var current := CurrentSeries(rs);
    if cadence.UnknownCadence? then Err(UnknownCadenceError)
    else if current.None? then Ok(st)
    else
      var branch := ReleaseBranch(Next(current.value));
      if PromotionCandidate(rs, Next(current.value)).None? then
        Ok(Apply(st, Decide(rs, current.value, cadence, days, now, Blockers([], []))))
      else
        var blockers :- Lookup(st.cache, branch, github);
        Ok(Apply(st.(cache := Remember(st.cache, branch, github)),
                 Decide(rs, current.value, cadence, days, now, blockers)))
  }

  function PromotionVerified(st: State): Result<State, ToolError>
    requires st.promoteRC.Some?
  {
    var rc := st.promoteRC.value;
    if st.tag.Some? then Err(TagAndPromoteConflict)
    else if !(rc.Version? && rc.pre.Rc?) then Err(NotACandidateTag)
    else Ok(st.(tag := Some(rc.(pre := NoPre))))
  }

  function FirstWithTag(rs: seq<Release>, t: Tag): (r: Option<Release>)
    ensures r.None? <==> !HasTag(rs, t)
    ensures r.Some? ==> r.value in rs && r.value.tag == t
  {
    if rs == [] then None
    else if rs[0].tag == t then Some(rs[0])
    else FirstWithTag(rs[1..], t)
  }

  function ExpectedBranch(st: State): Branch
    requires st.tag.Some? && st.tag.value.Version?
  {
    if st.tagBranch.Some? then st.tagBranch.value else ReleaseBranch(SeriesOf(st.tag.value))
  }

  function TagVerified(st: State, rs: seq<Release>, branches: seq<Branch>, force: bool,
                       github: Github): Result<State, ToolError>
    requires st.tag.Some?
  {
    var t := st.tag.value;
    if !t.Version? then Err(NotSemverTag)
    else if HasTag(rs, t) then Ok(st)
    else
      var expected := ExpectedBranch(st);
      var st1 :- if st.promoteRC.Some? then EligibilityVerified(st, rs, expected, github)
                 else if t.pre.NoPre? || t.pre.OtherPre? then
                   if t.patch == 0 && !force then Err(MustBeCandidate) else Ok(st)
                 else Ok(st);
      if st1.tagBranch.None? && expected !in branches then Err(BranchNotFound)
      else Ok(st1.(tagBranch := Some(expected)))
  }

  /** The memo after the tag has been checked, whatever the verdict. */
  function CacheAfterTagCheck(st: State, rs: seq<Release>, github: Github): Cache
    requires st.tag.Some?
  {
    if st.tag.value.Version? && !HasTag(rs, st.tag.value) && st.promoteRC.Some? && HasTag(rs, st.promoteRC.value)
    then Remember(st.cache, ExpectedBranch(st), github)
    else st.cache
  }

  function EligibilityVerified(st: State, rs: seq<Release>, branch: Branch, github: Github): Result<State, ToolError>
    requires st.promoteRC.Some?
  {
    var r := FirstWithTag(rs, st.promoteRC.value);
    if r.None? then Err(CandidateNotFound)
    else
      var blockers :- Lookup(st.cache, branch, github);
      if Invalidated(blockers, r.value.createdAt.unix) then Err(CandidateBlocked)
      else Ok(st.(cache := Remember(st.cache, branch, github)))
  }

  function BranchBlocked(cache: Cache, b: Branch, force: bool, github: Github): Result<bool, ToolError> {
    var blockers :- Lookup(cache, b, github);
    Ok((HasOpen(blockers.prs) || HasOpen(blockers.issues)) && !force)
  }

  /** What a run left behind: a branch it cut, a tag it pushed, and the error it ended with. */
  datatype Outcome = Outcome(cut: Option<Branch>, pushed: Option<Tag>, error: Option<ToolError>)

  /** GitHub's answers in the phases of one run; they may differ from phase to phase. */
  datatype Answers = Answers(forDetect: Github, forMain: Github, forVerify: Github, forTag: Github)

  function BranchOrEmpty(b: Option<Branch>): Branch {
    if b.Some? then b.value else NamedBranch("")
  }

  function BranchPhase(st: State, branches: seq<Branch>, force: bool, github: Github): Result<(State, Option<Branch>), ToolError> {
    if st.newBranch.None? then Ok((st, None))
    else if st.newBranch.value !in branches && !st.newBranch.value.ReleaseBranch? then Err(MalformedBranch)
    else
      var blocked :- BranchBlocked(st.cache, MAIN_BRANCH, force, github);
      if blocked then Err(BranchIsBlocked)
      else Ok((st.(cache := Remember(st.cache, MAIN_BRANCH, github)),
               if st.newBranch.value in branches then None else st.newBranch))
  }

  function TagPhase(st: State, rs: seq<Release>, branches: seq<Branch>, force: bool, answers: Answers): Result<Option<Tag>, ToolError> {
    if st.tag.None? then Ok(None)
    else
      var st1 :- TagVerified(st, rs, branches, force, answers.forVerify);
      var blocked :- BranchBlocked(st1.cache, BranchOrEmpty(st1.tagBranch), force, answers.forTag);
      if blocked then Err(BranchIsBlocked) else Ok(st1.tag)
  }

  /** Everything after option parsing and detection. */
  function Executed(st: State, rs: seq<Release>, branches: seq<Branch>, force: bool, answers: Answers): Outcome {
    var promoted := if st.promoteRC.Some? then PromotionVerified(st) else Ok(st);
    if promoted.Err? then Outcome(None, None, Some(promoted.error))
    else
      var cut := BranchPhase(promoted.value, branches, force, answers.forMain);
      if cut.Err? then Outcome(None, None, Some(cut.error))
      else
        var pushed := TagPhase(cut.value.0, rs, branches, force, answers);
        if pushed.Err? then Outcome(cut.value.1, None, Some(pushed.error))
        else Outcome(cut.value.1, pushed.value, None)
  }

  // ----- calendar facts -----

  /** With a clock that is not behind the last release, the tool's date test is exactly "a later
      calendar day" (daily) or "a later month" (monthly). */
  lemma CutTestIsLaterPeriod(cadence: Cadence, now: Date, created: Date)
    requires !LaterDay(created, now)
    ensures TimeToCut(cadence, now, created) <==> LaterPeriod(cadence, now, created)
  {
  }

  /** With a clock behind the last release no later period has begun, and the test is still
      passed exactly when the day (daily) or the month number is larger. */
  lemma CutTestWithClockBehind(cadence: Cadence, now: Date, created: Date)
    requires LaterDay(created, now)
    ensures !LaterPeriod(cadence, now, created)
    ensures TimeToCut(cadence, now, created) <==>
              || (cadence.Daily? && now.day > created.day)
              || (!cadence.UnknownCadence? && now.month > created.month)
  {
  }

  /** The date test tells a later period if and only if the clock is not behind the last release,
      or shows no larger day (daily) and no larger month than it. */
  lemma CutTestIsRightIff(cadence: Cadence, now: Date, created: Date)
    ensures (TimeToCut(cadence, now, created) <==> LaterPeriod(cadence, now, created)) <==>
              || cadence.UnknownCadence? || !LaterDay(created, now)
              || ((cadence.Daily? ==> now.day <= created.day) && now.month <= created.month)
  {
  }

  lemma CutTestFailsOnBackwardClock()
    ensures TimeToCut(Daily, Date(2020, 1, 15), Date(2020, 2, 10))
    ensures !LaterPeriod(Daily, Date(2020, 1, 15), Date(2020, 2, 10))
  {
  }
}
