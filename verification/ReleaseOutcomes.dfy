/** What an automatic run does, in every case, told from the releases, branches and GitHub's answers. */
module ReleaseOutcomes {
  import opened Wrappers
  import opened ReleaseModel
  import opened ReleaseRuns

  // ----- the cases -----

  /** The series after the current one is due: it has no release and no rc.0, and the current one is
      old enough. */
  ghost predicate Due(w: World, inp: RunInput, current: Series) {
    && (forall r | r in w.releases :: r.tag != Official(Next(current)) && r.tag != Candidate(Next(current), 0))
    && (exists r | r in w.releases :: r.tag == Official(current) && TimeToCut(inp.cadence, inp.now.date, r.createdAt.date))
  }

  lemma DueIffShouldCut(w: World, inp: RunInput, current: Series)
    ensures Due(w, inp, current) <==> ShouldCutSeries(w.releases, current, inp.cadence, inp.now)
  {
  }

  /** Why a branch may not be released from, judged by one listing of its blockers. */
  ghost function Objection(github: Github, branch: Branch, force: bool): Option<ToolError> {
    var raw := github(branch);
    if raw.Err? then Some(raw.error)
    else if !force && !NothingOpen(raw.value, branch) then Some(BranchIsBlocked)
    else None
  }

  /** The check of a branch that has not been listed before. */
  lemma FreshCheck(cache: Cache, branch: Branch, force: bool, github: Github)
    requires branch !in cache
    ensures var b := BranchBlocked(cache, branch, force, github);
            Objection(github, branch, force) == if b.Err? then Some(b.error) else if b.value then Some(BranchIsBlocked) else None
  {
    if github(branch).Ok? {
      OpenItems(github(branch).value, branch);
    }
  }

  lemma OpenItems(raw: Blockers, branch: Branch)
    ensures var b := Filtered(raw, branch);
            NothingOpen(raw, branch) <==> !HasOpen(b.prs) && !HasOpen(b.issues)
  {
    var b := Filtered(raw, branch);
    if NothingOpen(raw, branch) {
      assert forall i | i in b.issues :: i in raw.issues;
      assert forall p | p in b.prs :: p in raw.prs;
    } else if i :| i in raw.issues && branch in i.blockerFor && i.open {
      assert i in b.issues;
    } else {
      var p :| p in raw.prs && branch in p.blockerFor && p.open;
      assert p in b.prs;
    }
  }

  /** The check of the branch whose candidate has been judged: the same listing decides. */
  lemma MemoisedCheck(raw: Blockers, branch: Branch, force: bool, github: Github, cache: Cache)
    requires branch in cache && cache[branch] == Filtered(raw, branch)
    ensures BranchBlocked(cache, branch, force, github) == Ok(!force && !NothingOpen(raw, branch))
  {
    OpenItems(raw, branch);
  }

  // ----- a new candidate -----

  lemma NewCandidateRun(w: World, inp: RunInput, next: Series, n: nat, raw: Blockers)
    requires !HasTag(w.releases, Candidate(next, n))
    requires NothingOpen(raw, ReleaseBranch(next))
    ensures Executed(Apply(FRESH.(cache := map[ReleaseBranch(next) := Filtered(raw, ReleaseBranch(next))]), NewCandidate(next, n)),
                     w.releases, w.branches, inp.force, inp.answers)
            == Outcome(None, Some(Candidate(next, n)), None)
  {
    var cache: Cache := map[ReleaseBranch(next) := Filtered(raw, ReleaseBranch(next))];
    MemoisedCheck(raw, ReleaseBranch(next), inp.force, inp.answers.forTag, cache);
  }

  /** The candidate the tool looks at. */
  lemma HighestIsThe(w: World, next: Series, c: Release)
    requires UniqueTags(w.releases) && c in w.releases && IsCandidateFor(c, next)
    requires forall r | r in w.releases && IsCandidateFor(r, next) :: r.tag.pre.n <= c.tag.pre.n
    ensures HighestCandidate(w.releases, next) == Some(c)
  {
    var h := HighestCandidate(w.releases, next).value;
    assert h.tag == c.tag;
  }

  lemma NextNumberIsFree(w: World, next: Series, n: nat)
    requires forall r | r in w.releases && IsCandidateFor(r, next) :: r.tag.pre.n < n
    ensures !HasTag(w.releases, Candidate(next, n))
  {
    forall r | r in w.releases
      ensures r.tag != Candidate(next, n)
    {
      assert r.tag == Candidate(next, n) ==> IsCandidateFor(r, next);
    }
  }

  lemma CacheWithCandidate(w: World, inp: RunInput, current: Series, c: Release)
    requires PromotionCandidate(w.releases, Next(current)) == Some(c)
    requires inp.answers.forDetect(ReleaseBranch(Next(current))).Ok?
    ensures var branch := ReleaseBranch(Next(current));
            && CacheAfterDetection(w, inp, current) == map[branch := Filtered(inp.answers.forDetect(branch).value, branch)]
            && SeenBlockers(w, inp, Next(current)) == Filtered(inp.answers.forDetect(branch).value, branch)
  {
  }

  /** If the highest candidate has been invalidated by blockers that are all closed by now, and no new
      series is due, the next candidate is pushed. */
  lemma RecutGoesThrough(w: World, inp: RunInput, current: Series, c: Release)
    requires !inp.cadence.UnknownCadence? && UniqueTags(w.releases)
    requires CurrentSeries(w.releases) == Some(current)
    requires Replaceable(w, inp, Next(current), c) && !Due(w, inp, current)
    ensures AutoRun(w, inp) == Outcome(None, Some(Candidate(Next(current), c.tag.pre.n + 1)), None)
  {
    var next := Next(current);
    var raw := inp.answers.forDetect(ReleaseBranch(next)).value;
    DueIffShouldCut(w, inp, current);
    HighestIsThe(w, next, c);
    NextNumberIsFree(w, next, c.tag.pre.n + 1);
    CacheWithCandidate(w, inp, current, c);
    OnlyClosedSinceMeansRecut(raw, ReleaseBranch(next), c.createdAt);
    RunExecutesItsDecision(w, inp, current);
    assert RunDecision(w, inp, current) == NewCandidate(next, c.tag.pre.n + 1);
    NewCandidateRun(w, inp, next, c.tag.pre.n + 1, raw);
  }

  // ----- a new series -----

  /** The number a new series starts with: above 0 only when a candidate without rc.0 is replaced. */
  ghost function StartNumber(w: World, inp: RunInput, next: Series): nat {
    var c := HighestCandidate(w.releases, next);
    var raw := inp.answers.forDetect(ReleaseBranch(next));
    if c.Some? && raw.Ok? && OnlyClosedSince(raw.value, ReleaseBranch(next), c.value.createdAt) then c.value.tag.pre.n + 1 else 0
  }

  /** Main must be free of open blockers, then the missing branch is cut, then the branch itself must
      be free of them, then its candidate is pushed. */
  ghost function DueOutcome(w: World, inp: RunInput, next: Series): Outcome {
    var branch := ReleaseBranch(next);
    var main := Objection(inp.answers.forMain, MAIN_BRANCH, inp.force);
    var cut := if branch in w.branches then None else Some(branch);
    var candidates := HighestCandidate(w.releases, next).Some?;
    var own := Objection(if candidates then inp.answers.forDetect else inp.answers.forTag, branch, inp.force);
    if candidates && inp.answers.forDetect(branch).Err? then Outcome(None, None, Some(inp.answers.forDetect(branch).error))
    else if main.Some? then Outcome(None, None, main)
    else if own.Some? then Outcome(cut, None, own)
    else Outcome(cut, Some(Candidate(next, StartNumber(w, inp, next))), None)
  }

  lemma NewSeriesRun(w: World, inp: RunInput, next: Series, n: nat, cache: Cache)
    requires MAIN_BRANCH !in cache && !HasTag(w.releases, Candidate(next, n))
    ensures var branch := ReleaseBranch(next);
            var main := Objection(inp.answers.forMain, MAIN_BRANCH, inp.force);
            var cut := if branch in w.branches then None else Some(branch);
            var own := BranchBlocked(cache, branch, inp.force, inp.answers.forTag);
            Executed(Apply(FRESH.(cache := cache), NewSeries(next, n)), w.releases, w.branches, inp.force, inp.answers) ==
            if main.Some? then Outcome(None, None, main)
            else if own.Err? then Outcome(cut, None, Some(own.error))
            else if own.value then Outcome(cut, None, Some(BranchIsBlocked))
            else Outcome(cut, Some(Candidate(next, n)), None)
  {
    var branch := ReleaseBranch(next);
    FreshCheck(cache, MAIN_BRANCH, inp.force, inp.answers.forMain);
    var later := Remember(cache, MAIN_BRANCH, inp.answers.forMain);
    assert Lookup(later, branch, inp.answers.forTag) == Lookup(cache, branch, inp.answers.forTag);
  }

  lemma DueDecision(w: World, inp: RunInput, current: Series)
    requires !inp.cadence.UnknownCadence? && CurrentSeries(w.releases) == Some(current) && Due(w, inp, current)
    requires HighestCandidate(w.releases, Next(current)).Some? ==> inp.answers.forDetect(ReleaseBranch(Next(current))).Ok?
    ensures RunDecision(w, inp, current) == NewSeries(Next(current), StartNumber(w, inp, Next(current)))
    ensures !HasTag(w.releases, Candidate(Next(current), StartNumber(w, inp, Next(current))))
  {
    var next := Next(current);
    DueIffShouldCut(w, inp, current);
    var c := HighestCandidate(w.releases, next);
    assert PromotionCandidate(w.releases, next) == c;
    if c.Some? {
      OnlyClosedSinceMeansRecut(inp.answers.forDetect(ReleaseBranch(next)).value, ReleaseBranch(next), c.value.createdAt);
      NextNumberIsFree(w, next, c.value.tag.pre.n + 1);
    }
  }

  /** When a series is due, this is what happens. */
  lemma DueSeriesGoesThrough(w: World, inp: RunInput, current: Series)
    requires !inp.cadence.UnknownCadence? && CurrentSeries(w.releases) == Some(current) && Due(w, inp, current)
    ensures AutoRun(w, inp) == DueOutcome(w, inp, Next(current))
  {
    var next, branch := Next(current), ReleaseBranch(Next(current));
    var c := HighestCandidate(w.releases, next);
    assert PromotionCandidate(w.releases, next) == c;
    if c.None? || inp.answers.forDetect(branch).Ok? {
      RunExecutesItsDecision(w, inp, current);
      DueDecision(w, inp, current);
      var cache := CacheAfterDetection(w, inp, current);
      NewSeriesRun(w, inp, next, StartNumber(w, inp, next), cache);
      if c.Some? {
        CacheWithCandidate(w, inp, current, c.value);
        MemoisedCheck(inp.answers.forDetect(branch).value, branch, inp.force, inp.answers.forTag, cache);
      } else {
        FreshCheck(cache, branch, inp.force, inp.answers.forTag);
      }
    }
  }

  // ----- nothing to do -----

  /** Without anything due, to replace or to promote, the run ends without a trace, or with the error
      of the listing it needed. */
  lemma OtherwiseNothingHappens(w: World, inp: RunInput, current: Series)
    requires !inp.cadence.UnknownCadence? && CurrentSeries(w.releases) == Some(current) && !Due(w, inp, current)
    requires forall c :: !Replaceable(w, inp, Next(current), c) && !Promotable(w, inp, Next(current), c)
    ensures var raw := inp.answers.forDetect(ReleaseBranch(Next(current)));
            var candidates := (exists c | c in w.releases :: IsCandidateFor(c, Next(current)))
                              && forall r | r in w.releases :: r.tag != Official(Next(current));
            AutoRun(w, inp) == Outcome(None, None, if candidates && raw.Err? then Some(raw.error) else None)
  {
    var next, branch := Next(current), ReleaseBranch(Next(current));
    var c := PromotionCandidate(w.releases, next);
    DueIffShouldCut(w, inp, current);
    if c.None? || inp.answers.forDetect(branch).Ok? {
      RunExecutesItsDecision(w, inp, current);
      if c.Some? {
        CacheWithCandidate(w, inp, current, c.value);
        OnlyClosedSinceMeansRecut(inp.answers.forDetect(branch).value, branch, c.value.createdAt);
        NothingAgainstIsValid(inp.answers.forDetect(branch).value, branch, c.value.createdAt);
        assert !Replaceable(w, inp, next, c.value) && !Promotable(w, inp, next, c.value);
      }
      assert RunDecision(w, inp, current) == NoAction;
    }
  }

  /** Without a counted x.y.0 release, or with a cadence it does not know, the tool does nothing. */
  lemma NoSeriesNoAction(w: World, inp: RunInput)
    requires inp.cadence.UnknownCadence? || forall r | r in w.releases :: !CountedMinor(r)
    ensures AutoRun(w, inp) == Outcome(None, None, if inp.cadence.UnknownCadence? then Some(UnknownCadenceError) else None)
  {
    if CurrentSeries(w.releases).Some? {
      assert IsCurrentSeries(w.releases, CurrentSeries(w.releases).value);
    }
  }

  // ----- runs by hand -----

  /** A new tag given by hand is pushed if and only if it is a patch release or a marked pre-release,
      or forced, its release branch exists, and nothing blocks that branch. */
  lemma ManualTagIff(t: Tag, rs: seq<Release>, branches: seq<Branch>, force: bool, answers: Answers)
    requires !HasTag(rs, t)
    ensures Executed(FRESH.(tag := Some(t)), rs, branches, force, answers).pushed == Some(t) <==>
              && t.Version?
              && (t.patch != 0 || t.pre.Rc? || t.pre.Alpha? || t.pre.Beta? || force)
              && ReleaseBranch(Series(t.major, t.minor)) in branches
              && Objection(answers.forTag, ReleaseBranch(Series(t.major, t.minor)), force).None?
  {
    if t.Version? {
      FreshCheck(map[], ReleaseBranch(Series(t.major, t.minor)), force, answers.forTag);
    }
  }

  /** A candidate named by hand is promoted to its release if and only if it is listed, nothing is
      against it, and its release branch exists. */
  lemma ManualPromotionIff(rc: Tag, r: Release, rs: seq<Release>, branches: seq<Branch>, force: bool, answers: Answers)
    requires rc.Version? && rc.pre.Rc? && UniqueTags(rs)
    requires r.tag == rc && (HasTag(rs, rc) ==> r in rs)
    requires !HasTag(rs, Version(rc.major, rc.minor, rc.patch, NoPre))
    ensures var branch := ReleaseBranch(Series(rc.major, rc.minor));
            Executed(FRESH.(promoteRC := Some(rc)), rs, branches, force, answers).pushed == Some(Version(rc.major, rc.minor, rc.patch, NoPre)) <==>
              && r in rs && branch in branches
              && answers.forVerify(branch).Ok? && NothingAgainst(answers.forVerify(branch).value, branch, r.createdAt)
  {
    var branch := ReleaseBranch(Series(rc.major, rc.minor));
    if r in rs && answers.forVerify(branch).Ok? {
      var raw := answers.forVerify(branch).value;
      assert FirstWithTag(rs, rc) == Some(r);
      NothingAgainstIsValid(raw, branch, r.createdAt);
      var cache: Cache := map[branch := Filtered(raw, branch)];
      MemoisedCheck(raw, branch, force, answers.forTag, cache);
      if NothingAgainst(raw, branch, r.createdAt) {
        ValidCandidateMeansUnblockedBranch(Filtered(raw, branch), r.createdAt.unix);
        OpenItems(raw, branch);
      }
    }
  }

  /** Tags that are no candidates cannot be promoted, and a tag and a candidate cannot both be given. */
  lemma NoOtherPromotions(tag: Option<Tag>, rc: Tag, rs: seq<Release>, branches: seq<Branch>, force: bool, answers: Answers)
    requires tag.Some? || !rc.Version? || !rc.pre.Rc?
    ensures Executed(FRESH.(tag := tag, promoteRC := Some(rc)), rs, branches, force, answers) ==
            Outcome(None, None, Some(if tag.Some? then TagAndPromoteConflict else NotACandidateTag))
  {
  }

  /** A branch given by hand is cut if and only if it is missing and well formed and nothing blocks
      main. */
  lemma ManualBranchIff(b: Branch, rs: seq<Release>, branches: seq<Branch>, force: bool, answers: Answers)
    ensures Executed(FRESH.(newBranch := Some(b)), rs, branches, force, answers).cut == Some(b) <==>
              b.ReleaseBranch? && b !in branches && Objection(answers.forMain, MAIN_BRANCH, force).None?
  {
    FreshCheck(map[], MAIN_BRANCH, force, answers.forMain);
  }

  // ----- which releases count -----

  /** Drafts, pre-releases, candidates, releases without assets and tags that are no versions have no
      influence on the current series, and neither have patch releases. */
  lemma OthersDoNotCount(rs: seq<Release>, r: Release)
    requires r.draft || r.prerelease || r.assets == 0 || !r.tag.Version? || r.tag.pre.Rc? || r.tag.patch != 0
    ensures CurrentSeries(rs + [r]) == CurrentSeries(rs)
  {
    assert (rs + [r])[..|rs|] == rs;
  }

  /** Any other release of a series not before the current one makes its series the current one. */
  lemma NewerSeriesCounts(rs: seq<Release>, r: Release)
    requires !r.draft && !r.prerelease && r.assets > 0 && r.tag.Version? && !r.tag.pre.Rc? && r.tag.patch == 0
    requires CurrentSeries(rs).Some? ==> SeriesLe(CurrentSeries(rs).value, SeriesOf(r.tag))
    ensures CurrentSeries(rs + [r]) == Some(Series(r.tag.major, r.tag.minor))
  {
    assert (rs + [r])[..|rs|] == rs;
  }
}
