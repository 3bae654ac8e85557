/** Merging JUnit results of several runs into one result per test. */
module JUnitMerge {
  import opened Wrappers
  import opened Sums
  import opened Counting

  datatype Status = Skipped | Passed | Error | Failed

  datatype Test = Test(name: string, status: Status, duration: int)

  datatype Suite = Suite(tests: seq<Test>)

  /** The order in which results outrank each other. */
  function Level(s: Status): nat {
    match s
    case Skipped => 0
    case Passed => 1
    case Error => 2
    case Failed => 3
  }

  // ----- one result after the other -----

  datatype Merged = Merged(byName: map<string, Test>, conflicts: seq<(Test, Test)>)

  const NOTHING := Merged(map[], [])

  predicate KeepsPrevious(previous: Test, t: Test) {
    !previous.status.Skipped? && (previous.status.Failed? || t.status.Passed? || t.status.Skipped?)
  }

  function Add(m: Merged, t: Test): Merged {
    if t.name in m.byName && !m.byName[t.name].status.Skipped? then
      var previous := m.byName[t.name];
      var conflicts := if t.status.Skipped? then m.conflicts else m.conflicts + [(previous, t)];
      if KeepsPrevious(previous, t) then Merged(m.byName, conflicts)
      else Merged(m.byName[t.name := t], conflicts)
    else Merged(m.byName[t.name := t], m.conflicts)
  }

  function AddAll(ts: seq<Test>): Merged {
    if ts == [] then NOTHING else Add(AddAll(ts[..|ts| - 1]), ts[|ts| - 1])
  }

  // ----- which result wins -----

  function Named(name: string): Test -> bool {
    (t: Test) => t.name == name
  }

  function Results(ts: seq<Test>, name: string): seq<Test> {
    Filter(Named(name), ts)
  }

  /** The winner has the highest level of all results. Among equals a pass or a failure is reported
      by its first occurrence, a skip or an error by its last. */
  ghost predicate IsWinner(w: Test, results: seq<Test>) {
    && (forall t | t in results :: Level(t.status) <= Level(w.status))
    && exists i | 0 <= i < |results| :: results[i] == w &&
         if w.status.Passed? || w.status.Failed? then forall j | 0 <= j < i :: results[j].status != w.status
         else forall j | i < j < |results| :: results[j].status != w.status
  }

  lemma ResultsSnoc(ts: seq<Test>, t: Test, name: string)
    ensures Results(ts + [t], name) == Results(ts, name) + (if t.name == name then [t] else [])
  {
    assert (ts + [t])[..|ts|] == ts;
  }

  lemma FirstWins(t: Test)
    ensures IsWinner(t, [t])
  {
    assert [t][0] == t;
  }

  lemma ChallengerLoses(w: Test, results: seq<Test>, t: Test)
    requires IsWinner(w, results)
    requires Level(t.status) < Level(w.status) || (t.status == w.status && (w.status.Passed? || w.status.Failed?))
    ensures IsWinner(w, results + [t])
  {
    var i :| 0 <= i < |results| && results[i] == w &&
             if w.status.Passed? || w.status.Failed? then forall j | 0 <= j < i :: results[j].status != w.status
             else forall j | i < j < |results| :: results[j].status != w.status;
    assert (results + [t])[i] == w;
  }

  lemma ChallengerWins(w: Test, results: seq<Test>, t: Test)
    requires IsWinner(w, results)
    requires Level(t.status) > Level(w.status) || (t.status == w.status && !w.status.Passed? && !w.status.Failed?)
    ensures IsWinner(t, results + [t])
  {
    assert (results + [t])[|results|] == t;
    forall j | 0 <= j < |results|
      ensures Level(results[j].status) <= Level(w.status)
    {
      assert results[j] in results;
    }
  }

  /** What the map should say about a name whose results are `results`. */
  ghost predicate KeptFor(name: string, m: map<string, Test>, results: seq<Test>) {
    && (name in m <==> results != [])
    && (name in m ==> m[name].name == name && IsWinner(m[name], results))
  }

  lemma AddKeepsWinner(m: Merged, name: string, results: seq<Test>, t: Test)
    requires KeptFor(name, m.byName, results)
    ensures KeptFor(name, Add(m, t).byName, results + (if t.name == name then [t] else []))
  {
    if t.name != name {
      assert results + [] == results;
    } else if name !in m.byName {
      FirstWins(t);
      assert results + [t] == [t];
    } else if KeepsPrevious(m.byName[name], t) {
      ChallengerLoses(m.byName[name], results, t);
    } else {
      ChallengerWins(m.byName[name], results, t);
    }
  }

  /** Every name that occurs is kept with the winner of its results, and no other. */
  lemma {:induction false} WinnersAreKept(ts: seq<Test>, name: string)
    ensures KeptFor(name, AddAll(ts).byName, Results(ts, name))
  {
    if ts != [] {
      var front, t := ts[..|ts| - 1], ts[|ts| - 1];
      assert ts == front + [t];
      WinnersAreKept(front, name);
      ResultsSnoc(front, t, name);
      AddKeepsWinner(AddAll(front), name, Results(front, name), t);
    }
  }

  // ----- order and batches do not matter -----

  /** The status of a test after merging; names that do not occur have none. */
  function MergedStatus(ts: seq<Test>, name: string): Option<Status> {
    var m := AddAll(ts).byName;
    if name in m then Some(m[name].status) else None
  }

  /** The merged status is the highest of all results of that name. */
  lemma StatusIsMaximum(ts: seq<Test>, name: string)
    ensures MergedStatus(ts, name).None? <==> forall t | t in ts :: t.name != name
    ensures MergedStatus(ts, name).Some? ==>
              && (exists t | t in ts :: t.name == name && t.status == MergedStatus(ts, name).value)
              && (forall t | t in ts && t.name == name :: Level(t.status) <= Level(MergedStatus(ts, name).value))
  {
    WinnersAreKept(ts, name);
    var rs := Results(ts, name);
    assert rs != [] ==> rs[0] in rs;
    assert forall t | t in ts && t.name == name :: t in rs;
  }

  /** So a test has failed if any of its results has; if none has, it has an error if any of them has;
      else it has passed if any of them has, and otherwise it was skipped. */
  lemma StatusByResults(ts: seq<Test>, name: string)
    ensures MergedStatus(ts, name) ==
            if exists t | t in ts :: t.name == name && t.status.Failed? then Some(Failed)
            else if exists t | t in ts :: t.name == name && t.status.Error? then Some(Error)
            else if exists t | t in ts :: t.name == name && t.status.Passed? then Some(Passed)
            else if exists t | t in ts :: t.name == name then Some(Skipped)
            else None
  {
    StatusIsMaximum(ts, name);
  }

  ghost predicate Occurs(ts: seq<Test>, name: string, status: Status) {
    exists t | t in ts :: t.name == name && t.status == status
  }

  lemma MoreResultsMoreSevere(a: seq<Test>, b: seq<Test>, name: string)
    requires forall s | Occurs(a, name, s) :: Occurs(b, name, s)
    requires MergedStatus(a, name).Some?
    ensures MergedStatus(b, name).Some? && Level(MergedStatus(a, name).value) <= Level(MergedStatus(b, name).value)
  {
    StatusIsMaximum(a, name);
    StatusIsMaximum(b, name);
    assert Occurs(a, name, MergedStatus(a, name).value);
    var u :| u in b && u.name == name && u.status == MergedStatus(a, name).value;
  }

  /** So it only depends on which statuses occur. */
  lemma StatusDependsOnResultsOnly(a: seq<Test>, b: seq<Test>, name: string)
    requires forall s :: Occurs(a, name, s) <==> Occurs(b, name, s)
    ensures MergedStatus(a, name) == MergedStatus(b, name)
  {
    if MergedStatus(a, name).Some? {
      MoreResultsMoreSevere(a, b, name);
    }
    if MergedStatus(b, name).Some? {
      MoreResultsMoreSevere(b, a, name);
    }
    assert forall s, s' :: Level(s) == Level(s') ==> s == s';
  }

  lemma OrderDoesNotMatter(a: seq<Test>, b: seq<Test>, name: string)
    requires multiset(a) == multiset(b)
    ensures MergedStatus(a, name) == MergedStatus(b, name)
  {
    assert forall t :: t in a <==> t in multiset(a);
    assert forall t :: t in b <==> t in multiset(b);
    StatusDependsOnResultsOnly(a, b, name);
  }

  /** `ts` lists the values of `m` in the arbitrary order of Go's map iteration. */
  ghost predicate Lists(ts: seq<Test>, m: map<string, Test>) {
    && (forall t | t in ts :: t.name in m && m[t.name] == t)
    && (forall name | name in m :: m[name] in ts)
    && (forall i, j | 0 <= i < j < |ts| :: ts[i] != ts[j])
  }

  function Concat(batches: seq<seq<Test>>): (r: seq<Test>)
    ensures forall t :: t in r <==> exists i | 0 <= i < |batches| :: t in batches[i]
  {
    if batches == [] then []
    else
      var front := batches[..|batches| - 1];
      assert forall i | 0 <= i < |batches| - 1 :: batches[i] == front[i];
      Concat(front) + batches[|batches| - 1]
  }

  /** Merging batches first and then the merged lists gives every test the same status. */
  lemma BatchingDoesNotMatter(batches: seq<seq<Test>>, merged: seq<seq<Test>>, name: string)
    requires |batches| == |merged|
    requires forall i | 0 <= i < |batches| :: Lists(merged[i], AddAll(batches[i]).byName)
    ensures MergedStatus(Concat(merged), name) == MergedStatus(Concat(batches), name)
  {
    if MergedStatus(Concat(merged), name).Some? {
      forall s | Occurs(Concat(merged), name, s)
        ensures Occurs(Concat(batches), name, s)
      {
        var t :| t in Concat(merged) && t.name == name && t.status == s;
        var i :| 0 <= i < |merged| && t in merged[i];
        StatusIsMaximum(batches[i], name);
      }
      MoreResultsMoreSevere(Concat(merged), Concat(batches), name);
    }
    if MergedStatus(Concat(batches), name).Some? {
      BatchedIsNotLess(batches, merged, name);
    }
    assert forall s, s' :: Level(s) == Level(s') ==> s == s';
  }

  lemma BatchedIsNotLess(batches: seq<seq<Test>>, merged: seq<seq<Test>>, name: string)
    requires |batches| == |merged|
    requires forall i | 0 <= i < |batches| :: Lists(merged[i], AddAll(batches[i]).byName)
    requires MergedStatus(Concat(batches), name).Some?
    ensures MergedStatus(Concat(merged), name).Some?
    ensures Level(MergedStatus(Concat(batches), name).value) <= Level(MergedStatus(Concat(merged), name).value)
  {
    StatusIsMaximum(Concat(batches), name);
    StatusIsMaximum(Concat(merged), name);
    var t :| t in Concat(batches) && t.name == name && t.status == MergedStatus(Concat(batches), name).value;
    var i :| 0 <= i < |batches| && t in batches[i];
    StatusIsMaximum(batches[i], name);
    var w := AddAll(batches[i]).byName[name];
    WinnersAreKept(batches[i], name);
    assert w in merged[i] && w in Concat(merged);
  }

  // ----- conflicts -----

  /** Results other than skips. */
  function Ran(name: string): Test -> bool {
    (t: Test) => t.name == name && !t.status.Skipped?
  }

  function Runs(ts: seq<Test>, name: string): nat {
    CountIf(Ran(name), ts)
  }

  function Surplus(ts: seq<Test>): string -> int {
    name => if Runs(ts, name) == 0 then 0 else Runs(ts, name) - 1
  }

  ghost function Names(ts: seq<Test>): set<string> {
    set t | t in ts :: t.name
  }

  lemma {:induction false} KeptStatusTellsRuns(ts: seq<Test>, name: string)
    ensures Runs(ts, name) > 0 <==> name in AddAll(ts).byName && !AddAll(ts).byName[name].status.Skipped?
  {
    if ts != [] {
      KeptStatusTellsRuns(ts[..|ts| - 1], name);
    }
  }

  /** There is one conflict for every run of a test after its first, skips not counted. */
  lemma {:induction false} ConflictsCountSurplusRuns(ts: seq<Test>)
    ensures |AddAll(ts).conflicts| == SumOver(Names(ts), Surplus(ts))
  {
    if ts == [] {
      assert Names(ts) == {};
    } else {
      var front, t := ts[..|ts| - 1], ts[|ts| - 1];
      ConflictsCountSurplusRuns(front);
      KeptStatusTellsRuns(front, t.name);
      assert ts == front + [t];
      assert Names(ts) == Names(front) + {t.name};
      SurplusSnoc(front, t);
    }
  }

  /** Result number `i` is a run, and not the first one of its test. */
  predicate IsSurplusRun(ts: seq<Test>, i: nat)
    requires i < |ts|
  {
    !ts[i].status.Skipped? && exists k | 0 <= k < i :: ts[k].name == ts[i].name && !ts[k].status.Skipped?
  }

  ghost predicate IsConflictAt(ts: seq<Test>, conflict: (Test, Test), i: nat)
    requires i < |ts|
  {
    conflict.1 == ts[i] && IsWinner(conflict.0, Results(ts[..i], ts[i].name))
  }

  /** `at` are the positions of the surplus runs, in order. */
  ghost predicate SurplusAt(ts: seq<Test>, at: seq<nat>) {
    && (forall i, k | 0 <= i < k < |at| :: at[i] < at[k])
    && forall i: nat :: i in at <==> i < |ts| && IsSurplusRun(ts, i)
  }

  ghost predicate ConflictsAt(ts: seq<Test>, conflicts: seq<(Test, Test)>, at: seq<nat>) {
    |at| == |conflicts| && forall k | 0 <= k < |at| :: at[k] < |ts| && IsConflictAt(ts, conflicts[k], at[k])
  }

  /** The conflicts pair every surplus run, in order, with the winner of the results before it. */
  lemma {:induction false} ConflictsPairSurplusRuns(ts: seq<Test>) returns (at: seq<nat>)
    ensures SurplusAt(ts, at) && ConflictsAt(ts, AddAll(ts).conflicts, at)
  {
    if ts == [] {
      at := [];
    } else {
      var front, t := ts[..|ts| - 1], ts[|ts| - 1];
      var before := ConflictsPairSurplusRuns(front);
      assert ts == front + [t];
      SurplusAtNext(front, before, t);
      NextConflict(front, before, t);
      at := if IsSurplusRun(ts, |front|) then before + [|front|] else before;
    }
  }

  lemma ConflictOfNext(front: seq<Test>, t: Test)
    ensures IsSurplusRun(front + [t], |front|) ==> t.name in AddAll(front).byName
    ensures AddAll(front + [t]).conflicts
         == AddAll(front).conflicts + if IsSurplusRun(front + [t], |front|) then [(AddAll(front).byName[t.name], t)] else []
  {
    LastIsSurplus(front + [t]);
    AddAllSnoc(front, t);
    assert (front + [t])[..|front|] == front;
  }

  lemma {:induction false} NextConflict(front: seq<Test>, at: seq<nat>, t: Test)
    requires ConflictsAt(front, AddAll(front).conflicts, at)
    ensures ConflictsAt(front + [t], AddAll(front + [t]).conflicts, if IsSurplusRun(front + [t], |front|) then at + [|front|] else at)
  {
    var conflicts := AddAll(front).conflicts;
    ConflictsAtLonger(front, conflicts, at, t);
    ConflictOfNext(front, t);
    if IsSurplusRun(front + [t], |front|) {
      LastConflict(front, t);
      ConflictsAtBoth(front + [t], conflicts, at, (AddAll(front).byName[t.name], t), |front|);
    } else {
      assert conflicts + [] == conflicts;
    }
  }

  lemma ConflictsAtBoth(ts: seq<Test>, conflicts: seq<(Test, Test)>, at: seq<nat>, conflict: (Test, Test), i: nat)
    requires ConflictsAt(ts, conflicts, at) && i < |ts| && IsConflictAt(ts, conflict, i)
    ensures ConflictsAt(ts, conflicts + [conflict], at + [i])
  {
  }

  lemma SurplusOfPrefix(front: seq<Test>, t: Test, i: nat)
    requires i < |front|
    ensures IsSurplusRun(front + [t], i) <==> IsSurplusRun(front, i)
  {
    var ts := front + [t];
    assert forall k | 0 <= k <= i :: ts[k] == front[k];
    if k :| 0 <= k < i && front[k].name == front[i].name && !front[k].status.Skipped? {
      assert ts[k].name == ts[i].name && !ts[k].status.Skipped?;
    }
  }

  lemma SurplusAtNext(front: seq<Test>, at: seq<nat>, t: Test)
    requires SurplusAt(front, at)
    ensures SurplusAt(front + [t], if IsSurplusRun(front + [t], |front|) then at + [|front|] else at)
  {
    var ts, n := front + [t], |front|;
    var all := if IsSurplusRun(ts, n) then at + [n] else at;
    forall i, k | 0 <= i < k < |all|
      ensures all[i] < all[k]
    {
      assert at[i] in at;
    }
    forall i: nat
      ensures i in all <==> i < |ts| && IsSurplusRun(ts, i)
    {
      assert i in all <==> i in at || (IsSurplusRun(ts, n) && i == n);
      if i < n {
        SurplusOfPrefix(front, t, i);
      }
    }
  }

  lemma ConflictsAtLonger(front: seq<Test>, conflicts: seq<(Test, Test)>, at: seq<nat>, t: Test)
    requires ConflictsAt(front, conflicts, at)
    ensures ConflictsAt(front + [t], conflicts, at)
  {
    forall k | 0 <= k < |at|
      ensures IsConflictAt(front + [t], conflicts[k], at[k])
    {
      assert IsConflictAt(front, conflicts[k], at[k]);
      assert (front + [t])[..at[k]] == front[..at[k]];
    }
  }

  lemma LastConflict(front: seq<Test>, t: Test)
    requires t.name in AddAll(front).byName
    ensures IsConflictAt(front + [t], (AddAll(front).byName[t.name], t), |front|)
  {
    WinnersAreKept(front, t.name);
    assert (front + [t])[..|front|] == front;
  }

  lemma LastIsSurplus(ts: seq<Test>)
    requires ts != []
    ensures var n := |ts| - 1;
            var m := AddAll(ts[..n]).byName;
            IsSurplusRun(ts, n) <==> !ts[n].status.Skipped? && ts[n].name in m && !m[ts[n].name].status.Skipped?
  {
    var n := |ts| - 1;
    StatusByResults(ts[..n], ts[n].name);
    assert forall t :: t in ts[..n] <==> exists k | 0 <= k < n :: ts[k] == t;
  }

  lemma SurplusSnoc(front: seq<Test>, t: Test)
    ensures SumOver(Names(front) + {t.name}, Surplus(front + [t])) ==
            SumOver(Names(front), Surplus(front)) + (if !t.status.Skipped? && Runs(front, t.name) > 0 then 1 else 0)
  {
    var ts := front + [t];
    assert ts[..|ts| - 1] == front;
    forall name
      ensures Runs(ts, name) == Runs(front, name) + (if name == t.name && !t.status.Skipped? then 1 else 0)
    {
    }
    if t.name !in Names(front) {
      assert forall i | 0 <= i < |front| :: front[i] in front;
      CountIfBound(Ran(t.name), front);
    }
    SumWithoutZeros(Names(front), Names(front) + {t.name}, Surplus(front));
    SumChangesAt(Names(front) + {t.name}, Surplus(front), Surplus(ts), t.name);
  }

  /** A merged list has one run of a test that ran at all. */
  lemma ListedRuns(ts: seq<Test>, listed: seq<Test>, name: string)
    requires Lists(listed, AddAll(ts).byName)
    ensures Runs(listed, name) == if Runs(ts, name) > 0 then 1 else 0
  {
    KeptStatusTellsRuns(ts, name);
    forall i, j | 0 <= i < j < |listed|
      ensures !(Ran(name)(listed[i]) && Ran(name)(listed[j]))
    {
      assert listed[i] in listed && listed[j] in listed;
    }
    OnceCountsOne(Ran(name), listed);
    CountIfBound(Ran(name), listed);
    assert forall i | 0 <= i < |listed| :: listed[i] in listed;
    if Runs(ts, name) > 0 {
      var w := AddAll(ts).byName[name];
      WinnersAreKept(ts, name);
      assert w in listed;
      var i :| 0 <= i < |listed| && listed[i] == w;
      assert Ran(name)(listed[i]);
    }
  }

  lemma ListedNames(ts: seq<Test>, listed: seq<Test>)
    requires Lists(listed, AddAll(ts).byName)
    ensures Names(listed) == Names(ts)
  {
    forall name
      ensures name in Names(listed) <==> name in Names(ts)
    {
      StatusIsMaximum(ts, name);
      WinnersAreKept(ts, name);
      if name in AddAll(ts).byName {
        assert AddAll(ts).byName[name] in listed;
      }
    }
  }

  /** The names may be widened: a name that does not occur has no surplus. */
  lemma ConflictsOver(ts: seq<Test>, all: set<string>)
    requires Names(ts) <= all
    ensures |AddAll(ts).conflicts| == SumOver(all, Surplus(ts))
  {
    ConflictsCountSurplusRuns(ts);
    forall name | name in all - Names(ts)
      ensures Surplus(ts)(name) == 0
    {
      assert forall i | 0 <= i < |ts| :: ts[i] in ts;
      CountIfBound(Ran(name), ts);
    }
    SumWithoutZeros(Names(ts), all, Surplus(ts));
  }

  /** Merging in batches reports every conflict exactly once, in a batch or between batches. */
  lemma BatchesKeepConflicts(a: seq<Test>, b: seq<Test>, ma: seq<Test>, mb: seq<Test>)
    requires Lists(ma, AddAll(a).byName) && Lists(mb, AddAll(b).byName)
    ensures |AddAll(a).conflicts| + |AddAll(b).conflicts| + |AddAll(ma + mb).conflicts| == |AddAll(a + b).conflicts|
  {
    var all := Names(a + b);
    ListedNames(a, ma);
    ListedNames(b, mb);
    assert Names(ma + mb) == Names(ma) + Names(mb) == all;
    ConflictsOver(a, all);
    ConflictsOver(b, all);
    ConflictsOver(ma + mb, all);
    ConflictsOver(a + b, all);
    forall name
      ensures Surplus(a + b)(name) == Surplus(a)(name) + Surplus(b)(name) + Surplus(ma + mb)(name)
    {
      CountIfConcat(Ran(name), a, b);
      CountIfConcat(Ran(name), ma, mb);
      ListedRuns(a, ma, name);
      ListedRuns(b, mb, name);
    }
    var inside := (name: string) => Surplus(a)(name) + Surplus(b)(name);
    SumOfSums(all, Surplus(a), Surplus(b), inside);
    SumOfSums(all, inside, Surplus(ma + mb), Surplus(a + b));
  }

  // ----- the procedure -----

  function SuiteTests(suites: seq<Suite>): seq<Test> {
    if suites == [] then [] else SuiteTests(suites[..|suites| - 1]) + suites[|suites| - 1].tests
  }

  function AllTests(suitesOfSuites: seq<seq<Suite>>): seq<Test> {
    if suitesOfSuites == [] then []
    else AllTests(suitesOfSuites[..|suitesOfSuites| - 1]) + SuiteTests(suitesOfSuites[|suitesOfSuites| - 1])
  }

  /** Results are merged in the order in which suites and their tests are listed. */
  lemma {:induction false} TestsOfParts(a: seq<seq<Suite>>, b: seq<seq<Suite>>)
    ensures AllTests(a + b) == AllTests(a) + AllTests(b)
  {
    if b == [] {
      assert a + b == a;
    } else {
      assert (a + b)[..|a + b| - 1] == a + b[..|b| - 1];
      TestsOfParts(a, b[..|b| - 1]);
    }
  }

  lemma {:induction false} TestsOfSuites(a: seq<Suite>, b: seq<Suite>)
    ensures SuiteTests(a + b) == SuiteTests(a) + SuiteTests(b)
    ensures AllTests([a]) == SuiteTests(a)
    ensures |a| == 1 ==> SuiteTests(a) == a[0].tests
  {
    assert [a][..0] == [];
    assert |a| == 1 ==> a[..0] == [];
    if b == [] {
      assert a + b == a;
    } else {
      assert (a + b)[..|a + b| - 1] == a + b[..|b| - 1];
      TestsOfSuites(a, b[..|b| - 1]);
    }
  }

  lemma AddAllSnoc(ts: seq<Test>, t: Test)
    ensures AddAll(ts + [t]) == Add(AddAll(ts), t)
  {
    assert (ts + [t])[..|ts|] == ts;
  }

  method AddTests(m: Merged, ghost done: seq<Test>, tests: seq<Test>) returns (r: Merged)
    requires m == AddAll(done)
    ensures r == AddAll(done + tests)
  {
    r := m;
    assert done + tests[..0] == done;
    for i := 0 to |tests|
      invariant r == AddAll(done + tests[..i])
    {
      var test := tests[i];
      AddAllSnoc(done + tests[..i], test);
      assert done + tests[..i] + [test] == done + tests[..i + 1];
      var byName, conflicts := r.byName, r.conflicts;
      if test.name in byName && !byName[test.name].status.Skipped? {
        var previous := byName[test.name];
        if !test.status.Skipped? {
          conflicts := conflicts + [(previous, test)];
        }
        if !(previous.status.Failed? || test.status.Passed? || test.status.Skipped?) {
          byName := byName[test.name := test];
        }
      } else {
        byName := byName[test.name := test];
      }
      r := Merged(byName, conflicts);
    }
    assert tests[..|tests|] == tests;
  }

  method AddSuites(m: Merged, ghost done: seq<Test>, suites: seq<Suite>) returns (r: Merged)
    requires m == AddAll(done)
    ensures r == AddAll(done + SuiteTests(suites))
  {
    r := m;
    assert done + SuiteTests(suites[..0]) == done;
    for j := 0 to |suites|
      invariant r == AddAll(done + SuiteTests(suites[..j]))
    {
      assert suites[..j + 1][..j] == suites[..j];
      r := AddTests(r, done + SuiteTests(suites[..j]), suites[j].tests);
      assert done + SuiteTests(suites[..j]) + suites[j].tests == done + SuiteTests(suites[..j + 1]);
    }
    assert suites[..|suites|] == suites;
  }

  datatype Totals = Totals(tests: int, passed: int, skipped: int, failed: int, error: int, duration: int)

  function HasStatus(s: Status): Test -> bool {
    (t: Test) => t.status == s
  }

  function Duration(ts: seq<Test>): int {
    if ts == [] then 0 else Duration(ts[..|ts| - 1]) + ts[|ts| - 1].duration
  }

  ghost predicate AddUp(totals: Totals, ts: seq<Test>) {
    && totals.passed == CountIf(HasStatus(Passed), ts)
    && totals.skipped == CountIf(HasStatus(Skipped), ts)
    && totals.failed == CountIf(HasStatus(Failed), ts)
    && totals.error == CountIf(HasStatus(Error), ts)
    && totals.duration == Duration(ts)
    && totals.tests == |ts|
  }

  lemma AddUpSnoc(totals: Totals, ts: seq<Test>, t: Test)
    requires AddUp(totals, ts)
    ensures AddUp(Totals(totals.tests + 1,
                        totals.passed + (if t.status.Passed? then 1 else 0),
                        totals.skipped + (if t.status.Skipped? then 1 else 0),
                        totals.failed + (if t.status.Failed? then 1 else 0),
                        totals.error + (if t.status.Error? then 1 else 0),
                        totals.duration + t.duration), ts + [t])
  {
    assert (ts + [t])[..|ts|] == ts;
  }

  method Summarise(byName: map<string, Test>) returns (allTests: seq<Test>, totals: Totals)
    requires forall name | name in byName :: byName[name].name == name
    ensures Lists(allTests, byName)
    ensures AddUp(totals, allTests) && totals.tests == |byName|
  {
    allTests, totals := [], Totals(0, 0, 0, 0, 0, 0);
    var todo := byName.Keys;
    while todo != {}
      invariant todo <= byName.Keys
      invariant forall t | t in allTests :: t.name in byName.Keys - todo && byName[t.name] == t
      invariant forall name | name in byName.Keys - todo :: byName[name] in allTests
      invariant forall i, j | 0 <= i < j < |allTests| :: allTests[i] != allTests[j]
      invariant AddUp(totals, allTests)
      invariant |allTests| + |todo| == |byName.Keys|
      decreases todo
    {
      var name :| name in todo;
      var test := byName[name];
      AddUpSnoc(totals, allTests, test);
      totals := Totals(totals.tests + 1,
                       totals.passed + (if test.status.Passed? then 1 else 0),
                       totals.skipped + (if test.status.Skipped? then 1 else 0),
                       totals.failed + (if test.status.Failed? then 1 else 0),
                       totals.error + (if test.status.Error? then 1 else 0),
                       totals.duration + test.duration);
      assert test !in allTests;
      allTests := allTests + [test];
      todo := todo - {name};
    }
    assert |byName.Keys| == |byName|;
  }

  lemma NamesAreKept(ts: seq<Test>)
    ensures var byName := AddAll(ts).byName;
            byName.Keys == Names(ts) && forall name | name in byName :: byName[name].name == name
  {
    forall name
      ensures var byName := AddAll(ts).byName;
              (name in byName ==> byName[name].name == name) && (name in byName <==> name in Names(ts))
    {
      WinnersAreKept(ts, name);
      StatusIsMaximum(ts, name);
    }
  }

  /** The merged suite lists every test once, with totals; conflicts are reported on the side. */
  method Merge(suitesOfSuites: seq<seq<Suite>>) returns (merged: Suite, totals: Totals, conflicts: seq<(Test, Test)>, hasConflicts: bool)
    ensures Lists(merged.tests, AddAll(AllTests(suitesOfSuites)).byName)
    ensures conflicts == AddAll(AllTests(suitesOfSuites)).conflicts
    ensures hasConflicts <==> conflicts != []
    ensures AddUp(totals, merged.tests)
    ensures totals.tests == totals.passed + totals.skipped + totals.failed + totals.error == |Names(AllTests(suitesOfSuites))|
  {
    var m := NOTHING;
    for i := 0 to |suitesOfSuites|
      invariant m == AddAll(AllTests(suitesOfSuites[..i]))
    {
      assert suitesOfSuites[..i + 1][..i] == suitesOfSuites[..i];
      m := AddSuites(m, AllTests(suitesOfSuites[..i]), suitesOfSuites[i]);
    }
    assert suitesOfSuites[..|suitesOfSuites|] == suitesOfSuites;
    ghost var ts := AllTests(suitesOfSuites);
    NamesAreKept(ts);
    var allTests;
    allTests, totals := Summarise(m.byName);
    StatusesAddUp(allTests);
    return Suite(allTests), totals, m.conflicts, |m.conflicts| > 0;
  }

  lemma {:induction false} StatusesAddUp(ts: seq<Test>)
    ensures CountIf(HasStatus(Passed), ts) + CountIf(HasStatus(Skipped), ts)
            + CountIf(HasStatus(Failed), ts) + CountIf(HasStatus(Error), ts) == |ts|
  {
    if ts != [] {
      StatusesAddUp(ts[..|ts| - 1]);
    }
  }
}
