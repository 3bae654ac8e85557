/** The release tool itself: the object whose fields its phases update. */
module ReleaseTool {
  import opened Wrappers
  import opened Sorting
  import opened ReleaseModel
  import ReleaseRuns

  predicate VersionGe(a: Tag, b: Tag) {
    match (a, b)
    case (NotSemver(_), _) => true
    case (Version(_, _, _, _), NotSemver(_)) => false
    case (Version(m, n, p, _), Version(m', n', p', _)) => m > m' || (m == m' && (n > n' || (n == n' && p >= p')))
  }

  /** Newest first; versions that differ only in their pre-release part come in any order. */
  method SortVersions(vs: seq<Tag>) returns (r: seq<Tag>)
    ensures IsSortOf(VersionGe, r, vs)
  {
    assert TotalPreorder(VersionGe);
    r := Sort(VersionGe, vs);
  }

  class ReleaseData {
    var newBranch: Option<Branch>
    var tagBranch: Option<Branch>
    var tag: Option<Tag>
    var promoteRC: Option<Tag>
    var blockerListCache: Cache
    const allReleases: seq<Release>
    const allBranches: seq<Branch>
    const force: bool
    const now: Instant

    function Snapshot(): State
      reads this
    {
      State(newBranch, tagBranch, tag, promoteRC, blockerListCache)
    }

    constructor (releases: seq<Release>, branches: seq<Branch>, force: bool, now: Instant)
      ensures Snapshot() == FRESH
      ensures allReleases == releases && allBranches == branches && this.force == force && this.now == now
    {
      newBranch, tagBranch, tag, promoteRC, blockerListCache := None, None, None, None, map[];
      allReleases, allBranches, this.force, this.now := releases, branches, force, now;
    }

    method GetBlockers(branch: Branch, github: Github) returns (r: Result<Blockers, ToolError>)
      modifies `blockerListCache
      ensures r == Lookup(old(blockerListCache), branch, github)
      ensures blockerListCache == Remember(old(blockerListCache), branch, github)
      ensures r.Ok? ==> branch in blockerListCache && blockerListCache[branch] == r.value
    {
      if branch in blockerListCache {
        assert blockerListCache[branch := blockerListCache[branch]] == blockerListCache;
        return Ok(blockerListCache[branch]);
      }
      var raw := github(branch);
      if raw.Err? {
        return raw;
      }
      var issues := FilterLabelled(raw.value.issues, branch);
      var prs := FilterLabelled(raw.value.prs, branch);
      blockerListCache := blockerListCache[branch := Blockers(issues, prs)];
      return Ok(blockerListCache[branch]);
    }

    static method FilterLabelled(items: seq<Item>, branch: Branch) returns (r: seq<Item>)
      ensures r == Labelled(items, branch)
    {
      r := [];
      for i := 0 to |items|
        invariant r == Labelled(items[..i], branch)
      {
        assert items[..i + 1][..i] == items[..i];
        if branch in items[i].blockerFor {
          r := r + [items[i]];
        }
      }
      assert items[..|items|] == items;
    }

    method IsRCInvalid(release: Release, branch: Branch, github: Github)
      returns (r: Result<(bool, bool), ToolError>)
      modifies `blockerListCache
      ensures blockerListCache == Remember(old(blockerListCache), branch, github)
      ensures var l := Lookup(old(blockerListCache), branch, github);
              r == if l.Err? then Err(l.error)
                   else Ok((Invalidated(l.value, release.createdAt.unix), BlocksNewRC(l.value)))
    {
      var entry := GetBlockers(branch, github);
      if entry.Err? {
        return Err(entry.error);
      }
      var releaseTime := release.createdAt.unix;
      var isInvalid, blocksNewRC := false, false;
      var issues, prs := entry.value.issues, entry.value.prs;
      for i := 0 to |issues|
        invariant blocksNewRC == exists x | x in issues[..i] :: x.open
        invariant isInvalid == exists x | x in issues[..i] :: x.open || ClosedAfter(x, releaseTime)
      {
        assert issues[..i + 1] == issues[..i] + [issues[i]];
        if issues[i].open {
          isInvalid, blocksNewRC := true, true;
        } else if ClosedAfter(issues[i], releaseTime) {
          isInvalid := true;
        }
      }
      assert issues[..|issues|] == issues;
      ghost var issuesBlock, issuesInvalidate := blocksNewRC, isInvalid;
      for i := 0 to |prs|
        invariant blocksNewRC == (issuesBlock || exists x | x in prs[..i] :: PrCountsAsOpen(x))
        invariant isInvalid == (issuesInvalidate || exists x | x in prs[..i] :: PrCountsAsOpen(x) || ClosedAfter(x, releaseTime))
      {
        assert prs[..i + 1] == prs[..i] + [prs[i]];
        if PrCountsAsOpen(prs[i]) {
          isInvalid, blocksNewRC := true, true;
        } else if ClosedAfter(prs[i], releaseTime) {
          isInvalid := true;
        }
      }
      assert prs[..|prs|] == prs;
      return Ok((isInvalid, blocksNewRC));
    }

    static method AnyOpen(items: seq<Item>) returns (found: bool)
      ensures found == HasOpen(items)
    {
      found := false;
      for i := 0 to |items|
        invariant found == HasOpen(items[..i])
      {
        assert items[..i + 1] == items[..i] + [items[i]];
        if items[i].open {
          found := true;
        }
      }
      assert items[..|items|] == items;
    }

    method HasOpenBlockerPRs(branch: Branch, github: Github) returns (r: Result<bool, ToolError>)
      modifies `blockerListCache
      ensures blockerListCache == Remember(old(blockerListCache), branch, github)
      ensures var l := Lookup(old(blockerListCache), branch, github);
              r == if l.Err? then Err(l.error) else Ok(HasOpen(l.value.prs))
    {
      var entry := GetBlockers(branch, github);
      if entry.Err? {
        return Err(entry.error);
      }
      var found := AnyOpen(entry.value.prs);
      return Ok(found);
    }

    method HasOpenBlockerIssues(branch: Branch, github: Github) returns (r: Result<bool, ToolError>)
      modifies `blockerListCache
      ensures blockerListCache == Remember(old(blockerListCache), branch, github)
      ensures var l := Lookup(old(blockerListCache), branch, github);
              r == if l.Err? then Err(l.error) else Ok(HasOpen(l.value.issues))
    {
      var entry := GetBlockers(branch, github);
      if entry.Err? {
        return Err(entry.error);
      }
      var found := AnyOpen(entry.value.issues);
      return Ok(found);
    }

    /** The issue check reuses the list the pull request check fetched: `later`, GitHub's answer by
        then, has no influence. */
    method IsBranchBlocked(branch: Branch, github: Github, later: Github) returns (r: Result<bool, ToolError>)
      modifies `blockerListCache
      ensures r == BranchBlocked(old(blockerListCache), branch, force, github)
      ensures blockerListCache == Remember(old(blockerListCache), branch, github)
    {
      var prBlocked := HasOpenBlockerPRs(branch, github);
      if prBlocked.Err? {
        return prBlocked;
      }
      var issueBlocked := HasOpenBlockerIssues(branch, later);
      assert blockerListCache == Remember(old(blockerListCache), branch, github);
      if issueBlocked.value || prBlocked.value {
        return Ok(!force);
      }
      return Ok(false);
    }

    method VerifyPromoteRC() returns (r: Option<ToolError>)
      requires promoteRC.Some?
      modifies `tag
      ensures var v := PromotionVerified(old(Snapshot()));
              if v.Ok? then r == None && Snapshot() == v.value else r == Some(v.error) && tag == old(tag)
    {
      if tag.Some? {
        return Some(TagAndPromoteConflict);
      }
      var rc := promoteRC.value;
      if !(rc.Version? && rc.pre.Rc?) {
        return Some(NotACandidateTag);
      }
      tag := Some(Version(rc.major, rc.minor, rc.patch, NoPre));
      return None;
    }

    method DoesBranchExist() returns (found: bool)
      requires newBranch.Some?
      ensures found == (newBranch.value in allBranches)
    {
      for i := 0 to |allBranches|
        invariant newBranch.value !in allBranches[..i]
      {
        assert allBranches[..i + 1] == allBranches[..i] + [allBranches[i]];
        if allBranches[i] == newBranch.value {
          return true;
        }
      }
      assert allBranches[..|allBranches|] == allBranches;
      return false;
    }

    method VerifyBranch() returns (r: Option<ToolError>)
      requires newBranch.Some?
      ensures r == if newBranch.value in allBranches || newBranch.value.ReleaseBranch? then None else Some(MalformedBranch)
    {
      var found := DoesBranchExist();
      if found {
        return None;
      }
      if !newBranch.value.ReleaseBranch? {
        return Some(MalformedBranch);
      }
      return None;
    }

    // ----- automatic detection -----

    method FindCurrentSeries() returns (current: Option<Series>)
      ensures current == CurrentSeries(allReleases)
    {
      var vs: seq<Tag> := [];
      for i := 0 to |allReleases|
        invariant forall t :: t in vs <==> exists r | r in allReleases[..i] :: Counted(r) && r.tag == t
      {
        assert allReleases[..i + 1] == allReleases[..i] + [allReleases[i]];
        if Counted(allReleases[i]) {
          vs := vs + [allReleases[i].tag];
        }
      }
      assert allReleases[..|allReleases|] == allReleases;
      var sorted := SortVersions(vs);
      MultisetMembers(sorted, vs);
      assert forall j | 0 <= j < |sorted| :: sorted[j] in vs;
      current := None;
      var i := 0;
      while i < |sorted|
        invariant i <= |sorted|
        invariant current.None?
        invariant forall j | 0 <= j < i :: sorted[j].patch != 0
      {
        if sorted[i].patch == 0 {
          current := Some(Series(sorted[i].major, sorted[i].minor));
          break;
        }
        i := i + 1;
      }
      assert current.Some? ==> forall j | 0 <= j < |sorted| :: j < i || VersionGe(sorted[i], sorted[j]);
      SeriesFoundIsCurrent(sorted, vs, i, current);
    }

    lemma SeriesFoundIsCurrent(sorted: seq<Tag>, vs: seq<Tag>, i: nat, current: Option<Series>)
      requires forall t :: t in sorted <==> t in vs
      requires forall t :: t in vs <==> exists r | r in allReleases :: Counted(r) && r.tag == t
      requires forall j | 0 <= j < |sorted| :: sorted[j].Version?
      requires i <= |sorted| && forall j | 0 <= j < i :: sorted[j].patch != 0
      requires current.Some? ==> i < |sorted| && sorted[i].patch == 0 && current.value == SeriesOf(sorted[i])
      requires current.Some? ==> forall j | 0 <= j < |sorted| :: j < i || VersionGe(sorted[i], sorted[j])
      requires current.None? ==> i == |sorted|
      ensures current == CurrentSeries(allReleases)
    {
      if current.Some? {
        assert sorted[i] in vs;
        forall r | r in allReleases && CountedMinor(r)
          ensures SeriesLe(SeriesOf(r.tag), current.value)
        {
          assert r.tag in sorted;
        }
      } else {
        forall r | r in allReleases
          ensures !CountedMinor(r)
        {
          assert Counted(r) ==> r.tag in sorted;
        }
      }
    }

    method DetectNewSeries(current: Series, cadence: Cadence) returns (should: bool)
      ensures should == ShouldCutSeries(allReleases, current, cadence, now)
    {
      var next := Next(current);
      should := false;
      for i := 0 to |allReleases|
        invariant !HasTag(allReleases[..i], Official(next)) && !HasTag(allReleases[..i], Candidate(next, 0))
        invariant should == exists r | r in allReleases[..i] :: r.tag == Official(current) && TimeToCut(cadence, now.date, r.createdAt.date)
      {
        var release := allReleases[i];
        assert allReleases[..i + 1] == allReleases[..i] + [allReleases[i]];
        if release.tag == Candidate(next, 0) || release.tag == Official(next) {
          return false;
        } else if release.tag == Official(current) {
          var createdAt := release.createdAt.date;
          if cadence.Daily? && now.date.day > createdAt.day {
            should := true;
          } else if (cadence.Daily? || cadence.Monthly?) && now.date.month > createdAt.month {
            should := true;
          } else if (cadence.Daily? || cadence.Monthly?) && now.date.year > createdAt.year {
            should := true;
          }
        }
      }
      assert allReleases[..|allReleases|] == allReleases;
    }

    method FindPromotionCandidate(next: Series) returns (candidate: Option<Release>, highestRC: nat)
      ensures candidate == PromotionCandidate(allReleases, next)
      ensures highestRC == if candidate.Some? then candidate.value.tag.pre.n else 0
    {
      candidate, highestRC := None, 0;
      for i := 0 to |allReleases|
        invariant !HasTag(allReleases[..i], Official(next))
        invariant candidate == HighestCandidate(allReleases[..i], next)
        invariant highestRC == if candidate.Some? then candidate.value.tag.pre.n else 0
      {
        var release := allReleases[i];
        assert allReleases[..i + 1] == allReleases[..i] + [allReleases[i]];
        assert allReleases[..i + 1][..i] == allReleases[..i];
        if release.tag == Official(next) {
          return None, 0;
        } else if IsCandidateFor(release, next) && release.tag.pre.n >= highestRC {
          highestRC := release.tag.pre.n;
          candidate := Some(release);
        }
      }
      assert allReleases[..|allReleases|] == allReleases;
    }

    method AutoDetectData(cadence: Cadence, days: int, github: Github) returns (r: Option<ToolError>)
      modifies this
      ensures var d := AutoDetected(old(Snapshot()), allReleases, cadence, days, now, github);
              if d.Ok? then r == None && Snapshot() == d.value else r == Some(d.error) && Snapshot() == old(Snapshot())
    {
      if cadence.UnknownCadence? {
        return Some(UnknownCadenceError);
      }
      var current := FindCurrentSeries();
      if current.None? {
        return None;
      }
      var next := Next(current.value);
      var nextRC := Candidate(next, 0);
      var shouldMakeNewMinorRelease := DetectNewSeries(current.value, cadence);
      var shouldMakeNewRC, shouldPromoteRC := false, false;
      var candidate, highestRC := FindPromotionCandidate(next);
      if candidate.Some? {
        var verdict := IsRCInvalid(candidate.value, ReleaseBranch(next), github);
        if verdict.Err? {
          return Some(verdict.error);
        }
        var (invalidated, blocksNewRC) := verdict.value;
        var promoteAfterSeconds := 86400 * days - TOLERANCE;
        var secondsDiff := now.unix - candidate.value.createdAt.unix;
        if invalidated {
          if !blocksNewRC {
            highestRC := highestRC + 1;
            nextRC := Candidate(next, highestRC);
            shouldMakeNewRC := true;
          }
        } else if secondsDiff >= promoteAfterSeconds {
          shouldPromoteRC := true;
        }
      }
      ghost var blockers := if candidate.Some? then Lookup(old(blockerListCache), ReleaseBranch(next), github).value else Blockers([], []);
      ghost var decision := Decide(allReleases, current.value, cadence, days, now, blockers);
      assert AutoDetected(old(Snapshot()), allReleases, cadence, days, now, github) == Ok(Apply(Snapshot(), decision));
      if shouldMakeNewMinorRelease {
        tag, newBranch, tagBranch := Some(nextRC), Some(ReleaseBranch(next)), Some(ReleaseBranch(next));
      } else if shouldMakeNewRC {
        tag, tagBranch := Some(nextRC), Some(ReleaseBranch(next));
      } else if shouldPromoteRC {
        promoteRC := Some(candidate.value.tag);
      }
      return None;
    }

    // ----- verification of the tag -----

    method VerifyTag(github: Github) returns (r: Option<ToolError>)
      requires tag.Some?
      modifies this
      ensures var v := TagVerified(old(Snapshot()), allReleases, allBranches, force, github);
              if v.Ok? then r == None && Snapshot() == v.value else r == Some(v.error)
      ensures r.Some? ==> Snapshot() == old(Snapshot()).(cache := CacheAfterTagCheck(old(Snapshot()), allReleases, github))
    {
      var t := tag.value;
      if !t.Version? {
        return Some(NotSemverTag);
      }
      var expectedBranch := ExpectedBranch(Snapshot());
      var i := 0;
      while i < |allReleases|
        invariant i <= |allReleases|
        invariant !HasTag(allReleases[..i], t)
      {
        assert allReleases[..i + 1] == allReleases[..i] + [allReleases[i]];
        if allReleases[i].tag == t {
          return None;
        }
        i := i + 1;
      }
      assert allReleases[..|allReleases|] == allReleases;
      if promoteRC.Some? {
        var e := VerifyEligibility(expectedBranch, github);
        if e.Some? {
          return e;
        }
      } else {
        if (t.pre.NoPre? || t.pre.OtherPre?) && t.patch == 0 && !force {
          return Some(MustBeCandidate);
        }
      }
      if tagBranch.None? {
        if expectedBranch !in allBranches {
          return Some(BranchNotFound);
        }
        tagBranch := Some(expectedBranch);
      }
      return None;
    }

    method VerifyEligibility(branch: Branch, github: Github) returns (r: Option<ToolError>)
      requires promoteRC.Some?
      modifies `blockerListCache
      ensures var v := EligibilityVerified(old(Snapshot()), allReleases, branch, github);
              if v.Ok? then r == None && Snapshot() == v.value else r == Some(v.error)
      ensures blockerListCache == if HasTag(allReleases, promoteRC.value) then Remember(old(blockerListCache), branch, github)
                                  else old(blockerListCache)
    {
      var found := FindByTag(promoteRC.value);
      if found.None? {
        return Some(CandidateNotFound);
      }
      var verdict := IsRCInvalid(found.value, branch, github);
      if verdict.Err? {
        return Some(verdict.error);
      }
      if verdict.value.0 {
        return Some(CandidateBlocked);
      }
      return None;
    }

    method FindByTag(t: Tag) returns (r: Option<Release>)
      ensures r == FirstWithTag(allReleases, t)
    {
      var i := 0;
      while i < |allReleases|
        invariant i <= |allReleases|
        invariant FirstWithTag(allReleases, t) == FirstWithTag(allReleases[i..], t)
      {
        if allReleases[i].tag == t {
          return Some(allReleases[i]);
        }
        i := i + 1;
      }
      return None;
    }

    // ----- one run -----

    /** Verification and publication, in the tool's order. `later` are GitHub's answers to second
        listings of the same branch. */
    method Execute(answers: Answers, later: Github) returns (out: Outcome)
      modifies this
      ensures out == Executed(old(Snapshot()), allReleases, allBranches, force, answers)
    {
      var cut: Option<Branch> := None;
      if promoteRC.Some? {
        var e := VerifyPromoteRC();
        if e.Some? {
          return Outcome(None, None, e);
        }
      }
      if newBranch.Some? {
        var e := VerifyBranch();
        if e.Some? {
          return Outcome(None, None, e);
        }
        var blocked := IsBranchBlocked(MAIN_BRANCH, answers.forMain, later);
        if blocked.Err? {
          return Outcome(None, None, Some(blocked.error));
        } else if blocked.value {
          return Outcome(None, None, Some(BranchIsBlocked));
        }
        var found := DoesBranchExist();
        if !found {
          cut := newBranch;
        }
      }
      if tag.Some? {
        var e := VerifyTag(answers.forVerify);
        if e.Some? {
          return Outcome(cut, None, e);
        }
        var blocked := IsBranchBlocked(BranchOrEmpty(tagBranch), answers.forTag, later);
        if blocked.Err? {
          return Outcome(cut, None, Some(blocked.error));
        } else if blocked.value {
          return Outcome(cut, None, Some(BranchIsBlocked));
        }
        return Outcome(cut, tag, None);
      }
      return Outcome(cut, None, None);
    }
  }

  /** A whole automatic run on a fresh object. */
  method RunAuto(w: ReleaseRuns.World, inp: ReleaseRuns.RunInput, later: Github) returns (out: Outcome)
    ensures out == ReleaseRuns.AutoRun(w, inp)
  {
    var r := new ReleaseData(w.releases, w.branches, inp.force, inp.now);
    var e := r.AutoDetectData(inp.cadence, inp.days, inp.answers.forDetect);
    if e.Some? {
      return Outcome(None, None, e);
    }
    out := r.Execute(inp.answers, later);
  }
}
