# Verified model of KubeVirt's CI and release tooling

This project models, in Dafny 4.11, the stateful and arithmetic parts of the KubeVirt project
infrastructure tools and proves what they keep over whole runs:

- **Release automaton** (`ReleaseModel`, `ReleaseTool`, `ReleaseRuns`, `ReleaseOutcomes`). Tags are a datatype, the
  tool's `releaseData` is a class whose phases update its fields, and its methods are proved against
  a decision function that has no loops. Histories alternate automatic runs (arbitrary clocks,
  cadences, blockers, `--force`) with environment steps (patch releases, uploads, reordering of the
  list). Every state of every history keeps the numbering invariant and every pushed tag is the next
  legal one; and for every list, clock and blockers it is stated what a run does.
- **Changed-test mapper** (`Outline`, `ChangedTests`, `LineModel`, `LabelStats`, `OutlineOrder`). The paths returned
  for changed lines are characterised without computing any: chains of the outline that are hit down
  to some node and then continue through its untouched content. Line tables tile the file, and the
  label analyzer's running line counter is compared with them. What is listed comes from its own place in
  the outline, in document order.
- **Jenkins fetch** (`WorkerProtocol`, `JenkinsBuilds`) and **circuit breaker** (`CircuitBreakers`,
  `BreakerCallers`). Goroutines are step relations; safety is proved in every reachable state,
  termination by a rank that every step uses up, and completeness of the backward search.
- **Cron spreader** (`SpreadModel`, `SpreadRuns`, `SpreadDistances`, `SpreadFixedPoint`, `SpreadTool`,
  `SpreadCron`).
  Slots on the 1440-minute circle, the largest possible distance between starts, the fixed point of repeated runs and when one run reaches it, the
  procedures on arrays and maps, and the printer and parser.
- **Flake report** (`FlakeRanking`, `FlakeReport`) and **flake statistics** (`FlakeStats`). Three
  mutating passes are proved against counts over the list of all test results; the ranking is proved
  to be a function of the data alone. The statistics are proved against the set of failing cells.
- **JUnit merge** (`JUnitMerge`): an overwrite loop that computes a maximum, in any order and batching.
- **Version selection and job rollout** (`Versions`, `LatestMinors`, `JobNames`, `JobLifecycle`,
  `RequireJobs`, `RemoveJobs`, `RemovalGuard`, `Rollout`): early-exit scans against direct specifications, the copy,
  require and remove commands, and histories in which they interleave while releases are published.

`Wrappers`, `Strings`, `Sorting`, `Counting`, `Sums` and `Runs` are shared: results, numerals and
string order, sorting with uniqueness of the sorted list, counting over lists, sums over sets that do
not depend on the order of iteration, and induction along runs. Iteration over Go maps is an arbitrary choice (`:|`) everywhere, so
every result about such a loop holds for all iteration orders.

Run `dafny verify dfyconfig.toml` to check the project.

## Where the code differs from what its names or documentation say

The model follows the code. Each difference is stated as the exact condition under which the intended
property holds, or as what the code computes in its place, and where a property fails a concrete case
is proved.

- The release tool compares day, month and year separately, so with a clock behind the last release a
  series can be cut too early (`CutTestIsRightIff`, `ABackwardClockCutsEarly`).
- A changed line hits the nodes that end on a later line (`LineHitsIff`), so a test on one changed line
  is lost when a test beside it is hit (`OneLineNodesAreNeverHit`, `ATouchedTestCanBeLost`).
- The breaker documentation says a call without an error closes the breaker. A success reported while
  another caller's block window runs is dropped (`SuccessClosesIff`, `ASuccessCanBeLost`).
- Jenkins' milliseconds are passed on as nanoseconds. The window test is still exact for every build
  if and only if the report starts at most one nanosecond after a full second or in a second's last
  millisecond (`WindowTestIsExactIff`).
- Latest minors are found by comparing numerals as strings. On a descending list that is right if and
  only if the spelling descends wherever the minor changes (`LatestIsRightIff`); 1.10 hides 1.9
  (`DoubleDigitsHideSingleDigits`), equal widths suffice (`EqualWidthIsEnough`). The removal guard
  looks at the three newest minors, and removes the fourth, if and only if the four newest descend in
  spelling (`RemovesTheFourthNewestIff`, `GuardCanSkipMinors`); the three newest keep their lanes in
  any case (`RemovalIsSafe`).
- The last three minors are told apart by their spelling, which leading zeros can change
  (`LastThreeMinor`, `TwoSpellings`).
- The require command retires the previous release's lanes only in a run whose last changed lane was in
  phase 2, so they may never be retired (`PreviousLanesRetireIff`, `PreviousLanesMayNeverRetire`).
- Copying a presubmit drops its extra refs, because they are copied into an empty slice; copying a
  periodic keeps them (`PresubmitRefsSurviveIff`, `CopyLosesAnExtraRef`, `PeriodicRefsSurvive`).
- An explicit target release passes the removal guard of other releases. The lanes of the three newest
  minors stay if and only if the target is none of them that has lanes (`SupportedLanesStayIff`,
  `ExplicitTargetBypassesTheGuard`).
- A frequency that does not divide 24 is rounded up, so groups can merge between runs. Two runs always
  reach a fixed point; one run does if and only if every group that merges has all starts at offset 0
  (`TwoRunsReachAFixedPoint`, `OneRunSufficesIff`, `OneRunIsNotAlwaysEnough`).
- The early stop of the Jenkins search assumes build times in the order of build numbers. For any
  times it misses nothing if and only if no wanted build is on a later page than a stopping one
  (`SearchIsCompleteIff`, `AnEarlyBuildHidesAnother`).
- A day's pull requests are counted once for every failing lane of a test (`PullRequestsCountPerLane`).

## Model

| member | source | states |
|---|---|---|
| `ReleaseRuns.HistoryIsSafe` | releng/release-tool/release-tool.go:846-1047 | In every state of every history the official series are consecutive from the base and candidates have no gaps; whatever a run pushes is new and either the next rc of the next series or its x.y.0 after an rc.0 |
| `ReleaseRuns.PushesAreDistinct` | releng/release-tool/release-tool.go:1199-1348 | Two runs of one history never push the same tag |
| `ReleaseRuns.AutoStepKeepsInv` | releng/release-tool/release-tool.go:846-1047 | One automatic run with any clock, cadence and blockers keeps the numbering invariant, wherever its tag appears in the list |
| `ReleaseRuns.PushIsLegal` | releng/release-tool/release-tool.go:885-1047 | Under the invariant a pushed tag is the next rc number of the next series with all lower ones present, or its unused official tag with rc.0 present |
| `ReleaseRuns.OneOfficialReleaseIsAStart` | releng/release-tool/release-tool.go:885-925 | A list whose only x.y.0 release is one counted release, with candidates of no later series, satisfies the invariant |
| `ReleaseRuns.NewSeriesWaitsForItsPeriod` | releng/release-tool/release-tool.go:927-949 | The first rc of a series is pushed only on a later day (daily) or month (monthly) than the last official series, unless the clock is behind it |
| `ReleaseRuns.PromotionsAreEarned` | releng/release-tool/release-tool.go:951-1043 | An official tag is pushed only for the highest candidate of the next series, at least 86400 * days - 10800 seconds old, with no blocker open or closed after its creation |
| `ReleaseRuns.RecutsAreEarned` | releng/release-tool/release-tool.go:978-1037 | A candidate with a number above 0 is pushed only to follow the highest one, with nothing labelled open and something labelled closed after it was created |
| `ReleaseRuns.FirstCandidatesNeedMain` | releng/release-tool/release-tool.go:1302-1316 | Without force rc.0 is pushed only while no labelled item for the main branch is open |
| `ReleaseRuns.PromotionGoesThrough` | releng/release-tool/release-tool.go:1049-1168 | A promotable candidate with its branch present is promoted to exactly the next minor: the later phases reach the same verdict through the memoised blockers, whatever GitHub answers by then |
| `ReleaseOutcomes.RecutGoesThrough` | releng/release-tool/release-tool.go:1001-1039 | If the highest candidate has blockers closed after it was created and none open, and no series is due, a run pushes exactly the candidate with the next number |
| `ReleaseOutcomes.DueSeriesGoesThrough` | releng/release-tool/release-tool.go:1024-1043 | If a series is due, main must be free of open items (or forced), the missing branch is cut, then the branch itself must be free, then the candidate is pushed: rc.0, or the next number where a candidate without rc.0 is replaced; each failing listing ends the run with its error |
| `ReleaseOutcomes.DueIffShouldCut` | releng/release-tool/release-tool.go:927-949 | A series is due exactly if the next one has no official release and no rc.0 and some release of the current one is of an earlier day or month by the date test |
| `ReleaseOutcomes.OtherwiseNothingHappens` | releng/release-tool/release-tool.go:951-1047 | With nothing due, to replace or to promote, the run ends without a trace or with the error of the listing it needed |
| `ReleaseOutcomes.NoSeriesNoAction` | releng/release-tool/release-tool.go:846-925 | Without a counted x.y.0 release, or with an unknown cadence, nothing happens |
| `ReleaseOutcomes.ManualTagIff` | releng/release-tool/release-tool.go:1049-1168 | A new tag given by hand is pushed if and only if it is a patch release, a marked pre-release or forced, its release branch exists and nothing blocks that branch |
| `ReleaseOutcomes.ManualPromotionIff` | releng/release-tool/release-tool.go:673-693 | A candidate named by hand is promoted if and only if it is listed, its branch exists, and no labelled item is open or closed after it was created |
| `ReleaseOutcomes.NoOtherPromotions` | releng/release-tool/release-tool.go:673-693 | What is no candidate cannot be promoted, and a tag and a candidate cannot both be given |
| `ReleaseOutcomes.ManualBranchIff` | releng/release-tool/release-tool.go:695-729 | A branch given by hand is cut if and only if it is missing, well formed and nothing blocks main |
| `ReleaseOutcomes.OthersDoNotCount` | releng/release-tool/release-tool.go:885-925 | Drafts, pre-releases, candidates, releases without assets, tags that are no versions and patch releases have no influence on the current series |
| `ReleaseOutcomes.NewerSeriesCounts` | releng/release-tool/release-tool.go:885-925 | Any other x.y.0 release that is not older than the current series makes its series the current one |
| `ReleaseRuns.ValidCandidateMeansUnblockedBranch` | releng/release-tool/release-tool.go:567-633 | A blocker list that does not invalidate a candidate does not block its branch |
| `ReleaseRuns.NothingAgainstIsValid` | releng/release-tool/release-tool.go:567-609 | A candidate is valid exactly when no labelled item is open and none was closed after its creation |
| `ReleaseModel.CutTestIsLaterPeriod` | releng/release-tool/release-tool.go:935-948 | With a clock not behind the last release the date test is exactly "a later day" or "a later month" |
| `ReleaseModel.CutTestWithClockBehind` | releng/release-tool/release-tool.go:935-948 | With a clock behind it no later period has begun and the test passes exactly on a larger day or month number |
| `ReleaseModel.CutTestIsRightIff` | releng/release-tool/release-tool.go:935-948 | The date test tells a later period if and only if the clock is not behind the last release, or shows no larger day (daily) and no larger month |
| `ReleaseModel.CutTestFailsOnBackwardClock` | releng/release-tool/release-tool.go:935-948 | A concrete clock for which the test passes although no later day has begun |
| `ReleaseRuns.ABackwardClockCutsEarly` | releng/release-tool/release-tool.go:927-949 | A run with a clock behind the last release that pushes rc.0 although no later day has begun |
| `ReleaseTool.RunAuto` | releng/release-tool/release-tool.go:1199-1348 | A whole automatic run, phase by phase on a fresh object, has the outcome the histories reason about |
| `ReleaseTool.ReleaseData.AutoDetectData` | releng/release-tool/release-tool.go:846-1047 | The flag-setting loops leave exactly the fields the decision over the whole list calls for; on an error nothing has changed |
| `ReleaseTool.ReleaseData.FindCurrentSeries` | releng/release-tool/release-tool.go:885-925 | The scan of the sorted versions finds the greatest series with a counted x.y.0 release |
| `ReleaseTool.ReleaseData.DetectNewSeries` | releng/release-tool/release-tool.go:927-949 | A series is due exactly when the next one has neither official release nor rc.0 and some release of the current one is old enough |
| `ReleaseTool.ReleaseData.FindPromotionCandidate` | releng/release-tool/release-tool.go:951-976 | The candidate is the highest rc of the next series, the later entry among equals, and none once its official release exists |
| `ReleaseTool.ReleaseData.GetBlockers` | releng/release-tool/release-tool.go:731-808 | The memo answers for a branch once listed; otherwise the labelled items are stored and returned, and errors store nothing |
| `ReleaseTool.ReleaseData.IsRCInvalid` | releng/release-tool/release-tool.go:567-609 | The two verdicts: something open, or something open or closed after the release |
| `ReleaseTool.ReleaseData.IsBranchBlocked` | releng/release-tool/release-tool.go:611-671 | An open item blocks unless forced; the second listing cannot change the verdict |
| `ReleaseTool.ReleaseData.VerifyPromoteRC` | releng/release-tool/release-tool.go:673-693 | A candidate tag becomes its official tag; a tag already set or a tag that is no candidate is refused |
| `ReleaseTool.ReleaseData.VerifyBranch` | releng/release-tool/release-tool.go:695-729 | Exactly existing branches and well-formed release branches pass |
| `ReleaseTool.ReleaseData.VerifyTag` | releng/release-tool/release-tool.go:1049-1168 | Existing tags pass untouched; otherwise eligibility, the candidate rule and the branch check decide, and the tag branch is set; after an error only the memo may have changed, and how |
| `ReleaseTool.ReleaseData.Execute` | releng/release-tool/release-tool.go:1285-1348 | Promotion, branch and tag phases in the tool's order: what was cut and pushed, and the error a run ends with |
| `ChangedTests.PathsAreExactlyTheChangedTests` | robots/ginkgo-tests/cmd/extract-changed.go:388-440 | A path is returned if and only if it is a chain of the outline hit down to a deepest node and then continued inside its content without direct By steps, ending childless or at a node with only By children |
| `ChangedTests.PathsAreSound` | robots/ginkgo-tests/cmd/extract-changed.go:402-440 | Every returned path is such a chain, nodes stripped of their children |
| `ChangedTests.PathsAreComplete` | robots/ginkgo-tests/cmd/extract-changed.go:402-440 | Every such chain is returned |
| `ChangedTests.EveryHitChainIsReported` | robots/ginkgo-tests/cmd/extract-changed.go:388-414 | Every chain of nested hit nodes from a root is a prefix of some returned path |
| `ChangedTests.SiblingsOfHitNodesAreLost` | robots/ginkgo-tests/cmd/extract-changed.go:416-440 | Down to the deepest hit node, a path leads past a parent with a hit child only into hit children: siblings that are not hit are in no path |
| `ChangedTests.PruningIsSound` | robots/ginkgo-tests/cmd/extract-changed.go:416-440 | Every root-to-leaf chain of the pruned outline comes from a changed test of the outline |
| `ChangedTests.PruningIsComplete` | robots/ginkgo-tests/cmd/extract-changed.go:416-440 | Every changed test of the outline is a root-to-leaf chain of the pruned outline |
| `ChangedTests.ExpansionIsSound` | robots/ginkgo-tests/cmd/extract-changed.go:402-414 | Every expanded path is the given parents followed by a root-to-leaf chain |
| `ChangedTests.ExpansionIsComplete` | robots/ginkgo-tests/cmd/extract-changed.go:402-414 | Every root-to-leaf chain is expanded |
| `OutlineOrder.ExpansionIsInOrder` | robots/ginkgo-tests/cmd/extract-changed.go:402-414 | Expanding lists every leaf of an outline once, each from its own place, in document order |
| `OutlineOrder.PruningKeepsTheOrder` | robots/ginkgo-tests/cmd/extract-changed.go:416-440 | Pruning keeps the hit nodes of a level, each once and in order |
| `OutlineOrder.ContentKeepsItsOrder` | pkg/ginkgo/ginkgo.go:50-71 | The content of a hit node without hit children keeps its order, direct By steps dropped |
| `ChangedTests.NotByChildren` | pkg/ginkgo/ginkgo.go:50-71 | The filtered clone keeps exactly the direct children that are no By steps |
| `LineModel.NewLineModel` | robots/ginkgo-tests/cmd/extract-changed.go:356-366 | The tables built from line lengths tile the file: each line between its bounds, one newline between neighbours, first at 0, last ending at the end |
| `LineModel.GetPathsForLines` | robots/ginkgo-tests/cmd/extract-changed.go:388-400 | The result is that of the given lines' ranges; the sorting before has no influence |
| `LineModel.SameHitsSamePruning` | robots/ginkgo-tests/cmd/extract-changed.go:416-440 | Ranges that hit the same nodes prune the same, so order and repetition of changed lines do not matter |
| `LineModel.LineHitsIff` | robots/ginkgo-tests/cmd/extract-changed.go:368-440 | A changed line hits exactly the nodes that start on it or before and end on a later line |
| `LineModel.ChangedLinesHitIff` | robots/ginkgo-tests/cmd/extract-changed.go:368-440 | The same for a list of changed lines |
| `LineModel.OneLineNodesAreNeverHit` | robots/ginkgo-tests/cmd/extract-changed.go:368-440 | A node that starts and ends on one line is hit by no changed line |
| `LineModel.ATouchedTestCanBeLost` | robots/ginkgo-tests/cmd/extract-changed.go:368-440 | A file with two changed lines in which a test lying wholly on one of them is in no returned path |
| `LineModel.NewlineCount` | robots/test-label-analyzer/cmd/stats.go:349-357 | The counting loop counts the newlines of a section, also when it reaches past the end |
| `LineModel.LineOfAgreesWithTheTables` | robots/ginkgo-tests/cmd/extract-changed.go:356-373 | Counting newlines up to an offset and looking it up in the tables give the same line, for every offset of the file |
| `LineModel.LinesOfPath` | robots/test-label-analyzer/cmd/stats.go:300-308 | The running offset and line number compute the incremental line numbers of a path |
| `LineModel.RunningLineIsLate` | robots/test-label-analyzer/cmd/stats.go:300-308 | The running line number falls behind by one for each earlier node that starts on a newline |
| `LineModel.RunningLinesAreRightIff` | robots/test-label-analyzer/cmd/stats.go:300-308 | All line numbers of a path are right if and only if no node but the last starts on a newline |
| `LineModel.RunningLinesAreRight` | robots/test-label-analyzer/cmd/stats.go:300-308 | So they are right when no node starts on a newline character, as in every Ginkgo outline |
| `LabelStats.TestStats.TraverseNodesRecursively` | pkg/test-label-analyzer/stats.go:81-108 | The walk counts the specs of the outline, records their matching paths in order and raises every category's hits by its number of paths |
| `LabelStats.GetStatsFromGinkgoOutline` | pkg/test-label-analyzer/stats.go:73-79 | Specs and paths of the outline; every category of the shared configuration, and all together, gain exactly the recorded paths on top of their hits so far |
| `LabelStats.GenerateStatsFromOutlines` | robots/test-label-analyzer/cmd/stats.go:287-291 | Over many files in any order with one configuration: each file has its own specs and paths; the hits, per category and together, are those before and the paths of all files |
| `LabelStats.RecordedIffMatching` | pkg/test-label-analyzer/stats.go:81-108 | A path is recorded for a category if and only if it leads to a spec whose full name the category matches |
| `LabelStats.SpecsAreCountedOnce` | pkg/test-label-analyzer/stats.go:81-108 | The spec counter equals the entries of a category that matches every name |
| `OutlineOrder.EntriesAreInOrder` | pkg/test-label-analyzer/stats.go:81-108 | The walk records every spec, identified by its place, once for each category it matches, in document order and then in the order of the categories |
| `OutlineOrder.SpecsAreCounted` | pkg/test-label-analyzer/stats.go:86-87 | The spec counter is the number of places of the outline that hold a spec |
| `LabelStats.TestNameSpells` | pkg/test-label-analyzer/stats.go:89-92 | The full name is the texts of the whole path in order, each after a blank |
| `LabelStats.HitsTotalIsPathCount` | pkg/test-label-analyzer/stats.go:88-104 | The hits of all categories add up to the number of recorded paths |
| `WorkerProtocol.RunsAreSafe` | pkg/jenkins/builds.go:61-101 | In every state of every run nothing was sent on the closed channel, it was closed at most once, and answers came at most once and only from workers that sent |
| `WorkerProtocol.RunsAreShort` | pkg/jenkins/builds.go:61-101 | Every run has at most 3n + 4 steps: each step uses up one |
| `WorkerProtocol.SomeoneCanMove` | pkg/jenkins/builds.go:61-101 | No deadlock: until everything is over some step is possible |
| `WorkerProtocol.StuckRunsAreComplete` | pkg/jenkins/builds.go:61-101 | A run that cannot go on has closed once and collected exactly one answer of every worker |
| `JenkinsBuilds.FetchPage` | pkg/jenkins/builds.go:108-151 | For any arrival order a page adds exactly its wanted builds, each once, and stops exactly when one of its completed builds is too early |
| `JenkinsBuilds.GetFilteredBuild` | pkg/jenkins/builds.go:153-178 | A build counts if it is there with result SUCCESS or UNSTABLE; it is wanted if its converted time is not before the start and otherwise stops the search |
| `JenkinsBuilds.FetchCompletedBuilds` | pkg/jenkins/builds.go:103-128 | For every page size the search returns exactly the wanted builds of the pages it looked at, each once; it ends below 1 or with the first page that holds a stopping build |
| `JenkinsBuilds.FetchForReport` | pkg/jenkins/builds.go:103-178 | The result is exactly the completed builds in 1..last that are not before the start, each once, if and only if none of them is on a later page than a stopping build; with times that follow build numbers it always is |
| `JenkinsBuilds.EarlyStopMissesNothing` | pkg/jenkins/builds.go:112-127 | With times that follow build numbers nothing wanted lies below the point where the search stopped |
| `JenkinsBuilds.SearchIsCompleteIff` | pkg/jenkins/builds.go:112-127 | For any build times the pages looked at hold every wanted build if and only if no wanted build is on a later page than a stopping one |
| `JenkinsBuilds.AnEarlyBuildHidesAnother` | pkg/jenkins/builds.go:112-127 | Build times out of order for which that condition fails |
| `JenkinsBuilds.WindowTestIsExactIff` | pkg/jenkins/builds.go:258-260 | The window test on converted times is the test on exact milliseconds for all builds if and only if the start is at most one nanosecond after a full second or in the last millisecond of one |
| `CircuitBreakers.CircuitBreaker.Call` | pkg/circuitbreaker/circuitbreaker.go:64-85 | A lone caller is invoked exactly when no window runs, otherwise gets the error that opened it; its result decides open, lastErr and the window |
| `CircuitBreakers.CircuitBreaker.UpdateState` | pkg/circuitbreaker/circuitbreaker.go:93-110 | Inside a window nothing changes; otherwise an opening error opens and sets the window, any other result closes |
| `CircuitBreakers.CircuitBreaker.IsOpenAndNotFeasibleForRetry` | pkg/circuitbreaker/circuitbreaker.go:87-91 | Open and inside the window, with the last error |
| `BreakerCallers.BlockedMeansOpen` | pkg/circuitbreaker/circuitbreaker.go:73-114 | In every interleaving a running window implies open, with an error that opens |
| `BreakerCallers.WindowFreezesTheBreaker` | pkg/circuitbreaker/circuitbreaker.go:93-110 | Until a window ends open, lastErr and blockedUntil do not change, whatever callers do |
| `BreakerCallers.InvocationsPassUnblocked` | pkg/circuitbreaker/circuitbreaker.go:75-114 | A check lets its caller invoke the function if and only if there is no blocked time or the clock is past it |
| `BreakerCallers.NoInvocationInsideAWindow` | pkg/circuitbreaker/circuitbreaker.go:75-91 | From the moment a window is set until it ends no check passes |
| `BreakerCallers.BlockedUntilGrows` | pkg/circuitbreaker/circuitbreaker.go:93-110 | The blocked time only grows along a run |
| `BreakerCallers.OpeningsSetTheWindow` | pkg/circuitbreaker/circuitbreaker.go:93-110 | A new window comes from an update outside any window that reports an opening error, and lasts retryAfter from its clock reading |
| `BreakerCallers.OpeningsAreApart` | pkg/circuitbreaker/circuitbreaker.go:93-110 | Two openings are more than retryAfter apart |
| `BreakerCallers.InvokedIffNoRecentOpening` | pkg/circuitbreaker/circuitbreaker.go:73-114 | Over any history, a caller gets to invoke the function if and only if every opening so far is more than retryAfter ago |
| `BreakerCallers.WindowIsOfTheLastOpening` | pkg/circuitbreaker/circuitbreaker.go:100-102 | The blocked time is retryAfter after the last opening, and there is none before the first |
| `BreakerCallers.UndisturbedResultDecides` | pkg/circuitbreaker/circuitbreaker.go:73-110 | If nobody reports between a caller's check and its update, its result decides the state |
| `BreakerCallers.SuccessClosesIff` | pkg/circuitbreaker/circuitbreaker.go:66-85 | A reported success leaves the breaker closed if and only if no window is running |
| `BreakerCallers.ASuccessCanBeLost` | pkg/circuitbreaker/circuitbreaker.go:66-85 | A run of two callers in which the success of the second leaves the breaker open |
| `SpreadModel.SlotIsEven` | cmd/periodic-jobs/cmd/spread.go:283-317 | Every job gets exactly 24 / (24 / f) hours in 0..23, its starts one period apart all around the clock from its stagger offset |
| `SpreadModel.StartsAreApart` | cmd/periodic-jobs/cmd/spread.go:283-317 | Any two different starts of a group are at least the stagger interval apart on the 1440-minute circle; the interval itself is pinned by the two rows below |
| `SpreadDistances.RunSpreadsEvenly` | cmd/periodic-jobs/cmd/spread.go:288-302 | In every group there is a distance, the largest whole number of minutes that fits the period once for every job, by which a run separates any two different starts; a job first starts that distance times the number of jobs of its group with lesser names after midnight, and then every 24 / f hours |
| `SpreadDistances.NoLargerDistance` | cmd/periodic-jobs/cmd/spread.go:291-292 | No choice of first starts separates the jobs of a group by more minutes |
| `SpreadDistances.CircleIsLongEnough` | cmd/periodic-jobs/cmd/spread.go:291-292 | Around a clock of any length n starts d apart take n * d minutes |
| `SpreadModel.RoundedTwice` | cmd/periodic-jobs/cmd/spread.go:288-306 | Rounding a frequency is idempotent, and changes nothing exactly when it divides 24 |
| `SpreadRuns.SpreadRounds` | cmd/periodic-jobs/cmd/spread.go:102-125 | After a run every job runs at its rounded frequency and the jobs can be spread again |
| `SpreadRuns.TwoRunsReachAFixedPoint` | cmd/periodic-jobs/cmd/spread.go:102-125 | From the second run on nothing changes, although groups may merge after the first |
| `SpreadRuns.OneRunSufficesWithoutMerge` | cmd/periodic-jobs/cmd/spread.go:102-125 | If no two frequencies round to the same one, the first run is the fixed point |
| `SpreadRuns.DividingFrequenciesDoNotMerge` | cmd/periodic-jobs/cmd/spread.go:254-306 | Frequencies that divide 24 never merge |
| `SpreadRuns.OneRunIsNotAlwaysEnough` | cmd/periodic-jobs/cmd/spread.go:254-306 | Jobs for which a second run still changes schedules |
| `SpreadFixedPoint.OneRunSufficesIff` | cmd/periodic-jobs/cmd/spread.go:102-125 | One run is the fixed point if and only if every group that merges with another one has all starts at offset 0, before the merge and after it |
| `SpreadTool.GroupByFrequency` | cmd/periodic-jobs/cmd/spread.go:254-281 | Grouping partitions the jobs by frequency, groups in descending frequency, jobs in the order of their names, for any map order |
| `SpreadTool.SpreadJobs` | cmd/periodic-jobs/cmd/spread.go:283-317 | Overwriting in place gives position i of the group slot i and keeps the names; what the slots are is stated by `SlotIsEven` and `RunSpreadsEvenly` |
| `SpreadTool.RunSpread` | cmd/periodic-jobs/cmd/spread.go:102-125 | Group, spread, map by name and merge back: every matched job gets the last schedule given to its name; with distinct names that is the outcome its frequency group and its rank decide |
| `SpreadCron.ParseSpreadCron` | cmd/periodic-jobs/cmd/spread.go:212-252 | The parsed schedule or the first error in the order of the checks |
| `SpreadCron.WhatIsRead` | cmd/periodic-jobs/cmd/spread.go:212-252 | An accepted expression of words is read if and only if it has five of them, the first is a number in 0..59 and the second a list of numbers in 0..23; it is read as that minute and those hours in ascending order |
| `SpreadCron.FieldsOfPrinted` | cmd/periodic-jobs/cmd/spread.go:319-334 | A printed schedule consists of minute, comma-separated hours and three stars |
| `SpreadCron.UpdateCronNodes` | cmd/periodic-jobs/cmd/spread.go:319-334 | Every job node gets the printed form of its own schedule, hours joined in order |
| `SpreadCron.ParsePrinted` | cmd/periodic-jobs/cmd/spread.go:212-252 | Parsing a printed schedule gives its minute and its hours in ascending order |
| `SpreadCron.RoundTripIff` | cmd/periodic-jobs/cmd/spread.go:319-334 | For a schedule on the clock the round trip is exact if and only if its hours ascend |
| `SpreadCron.SpreadSchedulesRoundTrip` | cmd/periodic-jobs/cmd/spread.go:283-334 | Every schedule the spreader produces survives printing and parsing |
| `SpreadCron.ParsedSchedulesAreStable` | cmd/periodic-jobs/cmd/spread.go:212-252 | What was read is on the clock and can be written and read again unchanged |
| `SpreadCron.DistinctHoursAreAtMost24` | cmd/periodic-jobs/cmd/spread.go:254-262 | Duplicate-free hours give a frequency between 1 and 24 |
| `JUnitMerge.Merge` | pkg/flakefinder/junit-merge/merge.go:30-79 | The merged suite lists each kept test once with matching totals that add up to the number of distinct names; conflicts are reported exactly when there are some |
| `JUnitMerge.WinnersAreKept` | pkg/flakefinder/junit-merge/merge.go:33-47 | The overwrite loop keeps for every name the winner of all its results and nothing else |
| `JUnitMerge.StatusIsMaximum` | pkg/flakefinder/junit-merge/merge.go:33-47 | The merged status is the maximum of all statuses of the name under skipped, passed, error, failed |
| `JUnitMerge.StatusByResults` | pkg/flakefinder/junit-merge/merge.go:33-47 | A test has failed if any result has; else it has an error if any has; else it has passed if any has; else it was skipped |
| `JUnitMerge.OrderDoesNotMatter` | pkg/flakefinder/junit-merge/merge.go:30-79 | Reordering the results changes no merged status |
| `JUnitMerge.BatchingDoesNotMatter` | pkg/flakefinder/junit-merge/merge.go:30-79 | Merging batches first and then the merged lists, in any map order, gives every test the same status |
| `JUnitMerge.ConflictsCountSurplusRuns` | pkg/flakefinder/junit-merge/merge.go:36-43 | The number of conflicts is the sum over names of the runs after the first, skips not counted |
| `JUnitMerge.ConflictsPairSurplusRuns` | pkg/flakefinder/junit-merge/merge.go:36-40 | The conflicts pair every run after the first of its test, in order, with the winner of the results before it |
| `JUnitMerge.TestsOfParts` | pkg/flakefinder/junit-merge/merge.go:33-35 | Results are merged in the order in which they are listed |
| `JUnitMerge.BatchesKeepConflicts` | pkg/flakefinder/junit-merge/merge.go:30-79 | Conflicts of two batches and of the merge of their results add up to those of merging at once |
| `Versions.CompareIsAnOrder` | pkg/querier/queries.go:125-161 | Comparison looks at major, minor and patch in this order, is antisymmetric and transitive and zero exactly on equal numbers, as the precedence of normal versions demands |
| `Versions.ParsedTags` | pkg/querier/queries.go:13 | Exactly the tags v, three non-empty digit strings joined by dots, parse, to these numerals |
| `Versions.ValidReleases` | pkg/querier/queries.go:18-34 | Exactly the published, parsable releases, each as often as listed, in descending precedence |
| `Versions.LastPatchOf` | pkg/querier/queries.go:44-70 | With its early exits the scan finds the greatest patch of a series, and nothing exactly when the series has no release |
| `Versions.LastThreeMinor` | pkg/querier/queries.go:72-102 | With its early exits the scan finds the three greatest minors of a major, each at its greatest patch, if and only if the releases of each of the two greatest minors are spelled alike |
| `Versions.CanonicalIsSpelledAlike` | pkg/querier/queries.go:72-102 | Numerals without leading zeros meet that condition |
| `Versions.TwoSpellings` | pkg/querier/queries.go:72-102 | Two releases of one minor that do not |
| `LatestMinors.GetLatestMinorReleases` | pkg/kubevirt/release/release.go:24-31 | The loop keeps a release whenever its major or minor is spelled lower than the last kept |
| `LatestMinors.LatestIsRightIff` | pkg/kubevirt/release/release.go:24-31 | On a descending list of canonical versions the result is one newest release per minor if and only if the spelling descends wherever the minor changes |
| `LatestMinors.EqualWidthIsEnough` | pkg/kubevirt/release/release.go:24-31 | Numerals of equal width meet that condition |
| `LatestMinors.DoubleDigitsHideSingleDigits` | pkg/kubevirt/release/release.go:24-31 | A descending list in which a minor is lost |
| `LatestMinors.NthIsRightIff` | pkg/kubevirt/release/release.go:24-31 | The n-th release kept is of the n-th newest minor if and only if the n newest minors are spelled one lower than the other; then the first n kept are their newest releases |
| `LatestMinors.KeptIsNotNewer` | pkg/kubevirt/release/release.go:24-31 | The n-th release kept is never of a newer minor than the n-th newest one |
| `LatestMinors.DescendingSpellingDescends` | pkg/kubevirt/release/release.go:24-31 | A spelling that descends throughout meets that condition for every n |
| `LatestMinors.SkippedMinors` | pkg/kubevirt/release/release.go:24-31 | Of 1.11, 1.10, 1.9, 1.8, 1.1 and 1.0 exactly 1.11, 1.10, 1.1 and 1.0 are kept |
| `LatestMinors.HeadsAreOnePerMinor` | pkg/kubevirt/release/release.go:24-31 | The first release of each run of equal minors is the newest of its minor |
| `JobNames.LaneNamesAreInjective` | pkg/kubevirt/prowjobconfigs/jobconfig.go:46-65 | A lane name determines its release and its SIG |
| `JobNames.PreviousIsOther` | pkg/kubevirt/cmd/require/presubmits.go:118-121 | Lanes of the previous release never carry names of the release itself |
| `JobNames.PreviousIsOneBelow` | pkg/kubevirt/cmd/require/presubmits.go:118-121 | The previous release is spelled like the one of the same major and the minor one below |
| `JobLifecycle.CopyCompletesLanes` | pkg/kubevirt/cmd/copy/jobs.go:201-325 | After copying, a SIG has a lane for the target exactly if it had one or had one to copy |
| `JobLifecycle.CopyIsIdempotent` | pkg/kubevirt/cmd/copy/jobs.go:201-325 | Copying again adds nothing |
| `JobLifecycle.CopiedPresubmitsStartOptional` | pkg/kubevirt/cmd/copy/jobs.go:208-258 | Every added presubmit is the clone of a source lane for a SIG that had none: optional, not running, same content, the new release as target, and no extra refs |
| `JobLifecycle.CopiedPeriodicsAreAdvanced` | pkg/kubevirt/cmd/copy/jobs.go:279-316 | Every added periodic is its source with the advanced schedule, the target of the new release in every container that has one, and extra refs and template unchanged |
| `JobLifecycle.LaneAfterCopy` | pkg/kubevirt/cmd/copy/jobs.go:201-325 | The lane of a SIG after copying is the clone of the source lane where one was missing and could be copied, and otherwise what it was |
| `JobLifecycle.PresubmitRefsSurviveIff` | pkg/kubevirt/cmd/copy/jobs.go:224-234 | A copied presubmit has the extra refs of its source if and only if the source has none |
| `JobLifecycle.PeriodicRefsSurvive` | pkg/kubevirt/cmd/copy/jobs.go:286-306 | A copied periodic always has the extra refs of its source |
| `JobLifecycle.CopyLosesAnExtraRef` | pkg/kubevirt/cmd/copy/jobs.go:224-234 | A lane with an extra ref whose copy has none |
| `JobLifecycle.PeriodicsAreSound` | pkg/kubevirt/cmd/copy/jobs.go:263-325 | Periodic names determine release and SIG and clones carry the name of their target, so the copy results hold for periodics |
| `JobLifecycle.PresubmitsAreSound` | pkg/kubevirt/cmd/copy/jobs.go:201-261 | The same for presubmits with at least one container |
| `JobLifecycle.WithTargetSetsIt` | pkg/kubevirt/cmd/copy/jobs.go:244-252 | The first TARGET variable gets the new value, all other variables stay |
| `RequireJobs.JobConfig.CopyPresubmitJobsForNewProvider` | pkg/kubevirt/cmd/copy/jobs.go:201-261 | The old presubmits stay as a prefix, missing lanes are appended, and updated tells whether the list changed |
| `RequireJobs.JobConfig.CopyPeriodicJobsForNewProvider` | pkg/kubevirt/cmd/copy/jobs.go:263-325 | The same for periodics, with the advanced schedule |
| `RequireJobs.JobConfig.UpdatePresubmitsAlwaysRunAndOptionalFields` | pkg/kubevirt/cmd/require/presubmits.go:150-186 | Every lane of the release moves one step, updated tells whether the list changed, the phase is that of the last change |
| `RequireJobs.JobConfig.SetPresubmitsToRunBeforeMergeOnly` | pkg/kubevirt/cmd/require/presubmits.go:188-210 | Exactly the previous release's lanes run before merge only |
| `RequireJobs.JobConfig.RequirePresubmits` | pkg/kubevirt/cmd/require/presubmits.go:84-141 | One run of the command on the job list; it reports a change exactly if the list has changed |
| `RequireJobs.TwoRunsRequireEveryLane` | pkg/kubevirt/cmd/require/presubmits.go:150-186 | After two runs every present lane of the release always runs and is not optional, reports if it did not run before, and is otherwise unchanged |
| `RequireJobs.LanesAreSpelled` | pkg/kubevirt/cmd/require/presubmits.go:151-155 | The lanes looked at are those of five SIGs, spelled out |
| `RequireJobs.RequiredIsStable` | pkg/kubevirt/cmd/require/presubmits.go:150-186 | A run changes nothing if and only if every present lane is required |
| `RequireJobs.RetiredLanes` | pkg/kubevirt/cmd/require/presubmits.go:188-210 | A run turns a lane of the previous release to before-merge only if it retires, and otherwise leaves it as it is |
| `RequireJobs.SecondRunRetiresIff` | pkg/kubevirt/cmd/require/presubmits.go:113-121 | The second run retires the previous lanes if and only if some lane was neither running nor required before the first |
| `RequireJobs.PreviousLanesRetireIff` | pkg/kubevirt/cmd/require/presubmits.go:113-121 | Over any number of runs the previous lanes are retired if and only if some lane of the release is fresh, or runs and is optional with only running lanes after it |
| `RequireJobs.PreviousLanesMayNeverRetire` | pkg/kubevirt/cmd/require/presubmits.go:113-121 | A list whose previous lanes keep running however often the command runs |
| `RequireJobs.LastPhaseIff` | pkg/kubevirt/cmd/require/presubmits.go:150-186 | The phase returned is phase 2 exactly if some lane runs and is optional and every lane after it runs |
| `RequireJobs.CopyingLeadsToRetirement` | pkg/kubevirt/cmd/require/presubmits.go:113-121 | If copying added a lane for the release, the second require run after it retires the previous lanes |
| `RemoveJobs.EnsureSigJobsAreRequired` | pkg/kubevirt/cmd/remove/jobs.go:277-304 | The name-deleting loop tells whether all SIG lanes exist and whether the first of each name is required |
| `RemoveJobs.EnsureSigPresubmitJobsExistForReleases` | pkg/kubevirt/cmd/remove/jobs.go:242-267 | True exactly if every SIG lane of every listed release exists |
| `RemoveJobs.DeleteLanes` | pkg/kubevirt/cmd/remove/jobs.go:175-219 | The rebuilt list is the old one without the named lanes, and updated tells whether any went |
| `RemoveJobs.RemoveOldJobsIfNewOnesExist` | pkg/kubevirt/cmd/remove/jobs.go:119-173 | The guard decides; both lists lose exactly the lanes of the planned release or stay as they are |
| `RemovalGuard.WhatIsRemoved` | pkg/kubevirt/cmd/remove/jobs.go:126-153 | Without force something is removed if and only if four minors are kept, every SIG lane of the three newest exists, and for every SIG the first entry of the newest one's lane always runs and is not optional; with force, if and only if a target is given. What goes is the target given, and otherwise the fourth minor kept |
| `RemovalGuard.GuardIff` | pkg/kubevirt/cmd/remove/jobs.go:126-146 | The guard in terms of the entries of the job list |
| `RemovalGuard.PartsAreLeft` | pkg/kubevirt/cmd/remove/jobs.go:175-219 | What is left of a list keeps its order and its repetitions |
| `RemovalGuard.OnlyTargetPresubmitsGo` | pkg/kubevirt/cmd/remove/jobs.go:175-196 | The presubmits that go are exactly those with one of the four lane names of the target, spelled out |
| `RemovalGuard.OnlyTargetPeriodicsGo` | pkg/kubevirt/cmd/remove/jobs.go:198-219 | The same for periodics |
| `RemoveJobs.RemovalIsSafe` | pkg/kubevirt/cmd/remove/jobs.go:119-173 | Without force and target no lane of the three newest minors of the releases is deleted, presubmit or periodic, and the three minors the guard looked at keep every SIG presubmit |
| `RemoveJobs.SupportedLanesStayIff` | pkg/kubevirt/cmd/remove/jobs.go:126-153 | Whatever target is given, no presubmit of the three newest minors of the releases is deleted if and only if the target is none of them that has lanes |
| `RemoveJobs.CheckedLanesStayIff` | pkg/kubevirt/cmd/remove/jobs.go:126-153 | Once the guard is passed the three minors it looked at keep all their presubmits if and only if the target is none of them |
| `RemoveJobs.RemovesTheFourthNewestIff` | pkg/kubevirt/cmd/remove/jobs.go:126-146 | What is removed is the fourth newest minor of the releases if and only if the four newest minors are spelled one lower than the other; then the guard has looked at the three newest |
| `RemoveJobs.NothingEscapesTheGuard` | pkg/kubevirt/cmd/remove/jobs.go:126-146 | Under that condition every release is of a minor the guard looked at, of the target, or older than the target |
| `RemoveJobs.GuardCanSkipMinors` | pkg/kubevirt/cmd/remove/jobs.go:126-146 | With 1.11, 1.10, 1.9, 1.8, 1.1 and 1.0 the lanes of the sixth newest minor are removed although 1.9 has none yet |
| `RemoveJobs.OnlyTargetLanesGo` | pkg/kubevirt/cmd/remove/jobs.go:175-196 | A job disappears exactly if it is a SIG lane of the target |
| `RemoveJobs.ExplicitTargetBypassesTheGuard` | pkg/kubevirt/cmd/remove/jobs.go:147-153 | Naming the newest release as target removes its lanes although the guard was passed for the fourth newest |
| `LatestMinors.LatestDescends` | pkg/kubevirt/release/release.go:24-31 | The kept releases are members of the list and of strictly descending minors |
| `RemoveJobs.RolloutOpensTheGuard` | pkg/kubevirt/cmd/remove/jobs.go:126-146 | Copying all lanes and requiring twice makes every SIG lane of the new release exist and be required |
| `Rollout.SupportedLanesStay` | pkg/kubevirt/cmd/remove/jobs.go:119-173 | Whatever copy, require and guarded removal commands run in whatever order while releases are published, a SIG lane that is there at some time stays as long as its minor is supported |
| `Rollout.TargetIsTooOld` | pkg/kubevirt/cmd/remove/jobs.go:126-146 | Guarded removal aims only at minors with releases of three newer minors |
| `Rollout.NewestAreSupported` | pkg/kubevirt/cmd/remove/jobs.go:139-145 | The three newest minors of the releases are supported |
| `FlakeRanking.SortTestsByRelevance` | pkg/flakefinder/report_data.go:294-359 | Tally, sort and append yield the ranking of the data and the list of tests, for any map order |
| `FlakeRanking.RankingIsAPermutation` | pkg/flakefinder/report_data.go:294-359 | A ranking lists every test of the data and of the list, none twice |
| `FlakeRanking.RankingIsUnique` | pkg/flakefinder/report_data.go:361-411 | Data and list determine the ranking: map iteration and unstable sorting cannot matter |
| `FlakeRanking.BySeverityLess` | pkg/flakefinder/report_data.go:369-381 | The comparison loop is the lexicographic order of the severity vectors, then the reverse order of names |
| `FlakeRanking.RankLeIsAnOrder` | pkg/flakefinder/report_data.go:369-381 | The reversed comparison is a total order that separates different tests |
| `FlakeRanking.SeverityIsMonotone` | pkg/flakefinder/report_data.go:269-287 | More failures or fewer successes never make a failing test look better |
| `FlakeRanking.SeverityByRatio` | pkg/flakefinder/report_data.go:269-287 | With successes each grade is given if and only if the real ratio of failures to successes lies in its range: above 0.5, 0.2, 0.1, 0, or at 0 |
| `FlakeRanking.SeverityWithoutSuccess` | pkg/flakefinder/report_data.go:269-287 | Without successes a cell is heavily flaky if something failed and unimportant otherwise |
| `FlakeRanking.WeightByFactor` | pkg/flakefinder/report_data.go:320-331 | A cell weighs its failures times 1.75, 1.5, 1 or 0.75, rounded down once |
| `FlakeRanking.WorstDifferenceDecides` | pkg/flakefinder/report_data.go:361-411 | Of two tests the one that weighs more in the worst severity they differ in is listed first |
| `FlakeReport.CreateFlakeReportData` | pkg/flakefinder/report_data.go:63-194 | From any results the three passes leave exactly the right counters, entries, severities and marks in every cell, count failures per build, list the failing lanes and rank the failing tests |
| `FlakeReport.FailuresAreConserved` | pkg/flakefinder/report_data.go:74-113 | The failures of all builds and those of all cells add up to the same total: all failing results |
| `FlakeReport.EntriesMatchCounters` | pkg/flakefinder/report_data.go:115-139 | Every cell has as many red entries as failures and as many green ones as successes |
| `FlakeReport.EntriesNameTheirRuns` | pkg/flakefinder/report_data.go:94-139 | Every entry of a cell stands for a result of its test and lane that ran, in a build in which something failed, of a test that failed somewhere |
| `FlakeReport.EveryRunHasItsEntry` | pkg/flakefinder/report_data.go:94-139 | Every such result has its entry |
| `FlakeReport.EntriesAscend` | pkg/flakefinder/report_data.go:141-194 | The entries of a cell are in the order of their build numbers |
| `FlakeReport.HasMixedCommit` | pkg/flakefinder/report_data.go:447-486 | A cell is non-deterministic exactly if one non-empty commit has a red and a green entry |
| `FlakeReport.KeysAreInjective` | pkg/flakefinder/report_data.go:70-92 | The key of a build determines its job and number, so builds are not mixed up |
| `FlakeStats.FlakeStats.AggregateTopXTests` | pkg/flake-stats/report.go:172-236 | After all reports there is a counter for a test at a place (overall, a day, a lane) exactly if one of its cells failed there, and it holds the number of these cells and the sum, mean and maximum of their failures; a day's counter adds up the pull requests of its cells' reports |
| `FlakeStats.FlakeStats.RecordCell` | pkg/flake-stats/report.go:224-267 | Recording a failing cell adds exactly it to what the counters hold |
| `FlakeStats.PullRequestsCountPerLane` | pkg/flake-stats/report.go:242-256 | The pull requests of a day are counted once for every failing cell of the test on that day |
| `FlakeStats.RecordKeepsConsistency` | pkg/flake-stats/report.go:238-267 | Recording keeps overall sum, sum over days and sum over lanes equal |
| `FlakeStats.AddSummarises` | pkg/flake-stats/types.go:225-232 | A counter that holds number, sum, mean and maximum of some entries holds those of one entry more after adding its value |
| `FlakeStats.RecordHolds` | pkg/flake-stats/report.go:224-267 | If every counter holds exactly the cells recorded at its test and place, it still does after one more cell |
| `FlakeStats.AllHitsNext` | pkg/flake-stats/report.go:172-205 | The cells that count are those of each report in turn, a test that is listed twice counting twice |
| `FlakeStats.CategoryOf` | pkg/flake-stats/types.go:234-241 | The category with the highest threshold the share reaches; the one there was before if it reaches none or is not a number |
| `FlakeStats.FlakeStats.CalculateShareFromTotalFailures` | pkg/flake-stats/types.go:124-195 | The total at a place holds the number of tests that have a counter there, and the sum, mean and maximum of their sums, and no pull requests; then only shares and categories change, each to its share of the total, also for a total of zero |
| `FlakeStats.SharesAddUpTo100` | pkg/flake-stats/types.go:163-165 | The shares of all tests add up to 100 |
| `FlakeStats.PartsAddUpToTheirTest` | pkg/flake-stats/types.go:187-195 | The shares of a test's lanes, and of its days, add up to its own |

## Left out

- Tag spellings: tags are parsed values. Spellings Go's parser accepts beside the canonical one (leading zeros, `v1.0`, `-rc.+5`), and tags such as `v1.01.0` that equal another tag as versions, are not distinguished.
- Release notes, previous tags, branch checkout, `forkProwJobs`, tagging commands: git, GitHub and prow configuration. A branch that is cut and a tag that is pushed are the outcome of a run.
- GitHub, GCS, Jenkins and git answers are parameters: lists, maps and functions. A run sees GitHub's blockers as one answer per phase.
- `getReleases` and `getBranches` fetch again while the stored list is empty; the model takes one list for a run.
- retry-go backoff around the breaker and fatal exits on unexpected Jenkins errors: a build number has one answer.
- `JenkinsBuilds.FetchForReport`: assumes that Jenkins has no builds with numbers below 1, which the last page may ask for.
- `JenkinsBuilds.FetchCompletedBuilds`: requires a positive page size; with page size 0 the source does not terminate.
- `CircuitBreakers.CircuitBreaker.Call`: assumes ordered clock readings, as Go's monotonic clock gives.
- Float rounding: averages and shares are reals; the severity ratios are integer comparisons and the weights integer divisions. Widths of int and int64 are not modelled.
- `FlakeStats.FlakeStats.CalculateShareFromTotalFailures`: the totals over all tests leave pull requests out, as the source does.
- `TopXTests.Less`, quarantine marks, URLs, HTML, CSV, JSON and YAML output, metrics, plugins and command-line flags.
- `FlakeReport` and `FlakeStats` hold the nested maps of pointers as one map of values keyed by test and lane; aliasing of `*Details` and `*FailureCounter` is not modelled.
- The cron library's own validation is the parameter `accepted`; blanks are the only white space in cron expressions, and strings are sequences of characters.
- `AdvanceCronExpression` is the parameter `advance` of the periodic lanes.
- `SpreadTool.RunSpread`: requires frequencies 1 to 24; with a frequency above 24 the source does not terminate.
- Two categories of the label configuration that are one object in memory: every category has its own counter.
- `Rollout.SupportedLanesStay`: forced removal, explicit targets and edits by hand are not steps of the histories.
- The Ginkgo outline is given as a tree; `OutlineFromFile`, git blame and file reading are left out, as is the panic on line numbers outside the file.
- Regular expressions (test name normalisation, lane filters, label categories) are parameters: functions and predicates.
- Calendar page, image bumping (`LatestSkopeoTag`), label lookups, permalinks and ages: input and output, or easy members.
