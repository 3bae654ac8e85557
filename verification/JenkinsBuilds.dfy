/** Fetching the completed builds of a Jenkins job, newest page first. */
module JenkinsBuilds {
  import opened Counting
  import opened WorkerProtocol

  /** Jenkins' answer for a build number; failing requests end the program. */
  datatype Answer = Missing | Build(result: string, timestamp: nat)

  type Jenkins = int -> Answer

  const NANOS := 1_000_000_000

  /** Nanoseconds since the epoch, as the tool converts Jenkins' milliseconds. */
  function MsecsToTime(msecs: nat): nat {
    msecs / 1000 * NANOS + msecs % 1000
  }

  predicate Completed(a: Answer) {
    a.Build? && (a.result == "SUCCESS" || a.result == "UNSTABLE")
  }

  predicate TooEarly(a: Answer, startOfReport: int)
    requires a.Build?
  {
    MsecsToTime(a.timestamp) < startOfReport
  }

  /** The builds the report wants. */
  predicate Wanted(j: Jenkins, startOfReport: int, n: int) {
    Completed(j(n)) && !TooEarly(j(n), startOfReport)
  }

  /** The builds that end the search. */
  predicate Stops(j: Jenkins, startOfReport: int, n: int) {
    Completed(j(n)) && TooEarly(j(n), startOfReport)
  }

  datatype BuildStop = BuildStop(buildNumber: int, build: bool, stop: bool)

  /** Builds that succeeded or are unstable count: they are wanted if they are young enough, and
      otherwise end the search. */
  method GetFilteredBuild(j: Jenkins, startOfReport: int, n: int) returns (r: BuildStop)
    ensures r == BuildStop(n, Wanted(j, startOfReport, n), Stops(j, startOfReport, n))
    ensures r.build || r.stop <==> j(n).Build? && j(n).result in {"SUCCESS", "UNSTABLE"}
    ensures r.build ==> j(n).timestamp / 1000 * 1_000_000_000 + j(n).timestamp % 1000 >= startOfReport
    ensures r.stop ==> j(n).timestamp / 1000 * 1_000_000_000 + j(n).timestamp % 1000 < startOfReport
  {
    var build := j(n);
    if build.Missing? {
      return BuildStop(n, false, false);
    }
    if build.result != "SUCCESS" && build.result != "UNSTABLE" {
      return BuildStop(n, false, false);
    }
    if MsecsToTime(build.timestamp) < startOfReport {
      return BuildStop(n, false, true);
    }
    return BuildStop(n, true, false);
  }

  function Below(n: nat): (r: set<nat>)
    ensures forall i: nat :: i in r <==> i < n
  {
    if n == 0 then {} else Below(n - 1) + {n - 1}
  }

  /** The order in which the collector receives the answers of a page: any. */
  method ArrivalOrder(n: nat) returns (order: seq<nat>)
    ensures IsPermutation(order, n)
  {
    order := [];
    var waiting := Below(n);
    while waiting != {}
      invariant NoDuplicates(order)
      invariant forall i: nat :: i in order <==> i < n && i !in waiting
      invariant forall i | i in waiting :: i < n
      decreases waiting
    {
      var i :| i in waiting;
      waiting := waiting - {i};
      order := order + [i];
    }
  }

  /** One page, from `top` downwards, merged into what was found before. */
  method FetchPage(j: Jenkins, startOfReport: int, top: int, size: nat, found: seq<int>)
    returns (builds: seq<int>, stop: bool)
    requires NoDuplicates(found) && forall n | n in found :: n > top
    ensures NoDuplicates(builds)
    ensures forall n :: n in builds <==> n in found || (top - size < n <= top && Wanted(j, startOfReport, n))
    ensures stop <==> exists n | top - size < n <= top :: Stops(j, startOfReport, n)
  {
    var order := ArrivalOrder(size);
    builds, stop := found, false;
    for k := 0 to |order|
      invariant NoDuplicates(builds)
      invariant forall n :: n in builds <==> n in found || (top - n in order[..k] && Wanted(j, startOfReport, n))
      invariant stop <==> exists m | 0 <= m < k :: Stops(j, startOfReport, top - order[m])
    {
      TakeNext(order, k);
      assert order[k] in order && order[k] !in order[..k];
      var r := GetFilteredBuild(j, startOfReport, top - order[k]);
      if r.build {
        assert top - order[k] !in builds;
        builds := builds + [r.buildNumber];
      }
      if r.stop {
        stop := true;
      }
    }
    assert order[..|order|] == order;
    if n :| top - size < n <= top && Stops(j, startOfReport, n) {
      var i: nat := top - n;
      assert i in order;
      var m :| 0 <= m < |order| && order[m] == i;
      assert Stops(j, startOfReport, top - order[m]);
    }
    if m :| 0 <= m < |order| && Stops(j, startOfReport, top - order[m]) {
      assert order[m] in order;
    }
  }

  /** The page, counted from 0 at the newest build, that asks for build `n`. */
  function PageOf(last: int, size: nat, n: int): int
    requires size > 0
  {
    (last - n) / size
  }

  /** The search ends after `pages` pages: before the numbers run out only if the last of these pages
      holds a stopping build, and none before it does. */
  ghost predicate EndsAfter(j: Jenkins, startOfReport: int, last: int, size: nat, pages: nat)
    requires size > 0
  {
    && (pages > 0 ==> last - (pages - 1) * size > 0)
    && (forall s | s <= last && Stops(j, startOfReport, s) :: PageOf(last, size, s) >= pages - 1)
    && (last - pages * size <= 0 || exists s | s <= last && Stops(j, startOfReport, s) :: PageOf(last, size, s) == pages - 1)
  }

  lemma InFirstPages(last: int, size: nat, pages: nat, n: int)
    requires size > 0 && n <= last
    ensures PageOf(last, size, n) >= 0
    ensures PageOf(last, size, n) < pages <==> last - pages * size < n
  {
    var d, q := last - n, PageOf(last, size, n);
    assert q * size <= d < q * size + size;
    PagesCompare(q, pages, size);
  }

  lemma PagesCompare(q: int, pages: int, size: int)
    requires size > 0
    ensures q < pages ==> q * size + size <= pages * size
    ensures q >= pages ==> q * size >= pages * size
  {
    if q < pages {
      assert (q + 1) * size <= pages * size;
    }
  }

  lemma PagesLooked(last: int, size: nat, pages: nat)
    requires size > 0
    ensures forall n | n <= last :: PageOf(last, size, n) < pages <==> last - pages * size < n
  {
    forall n | n <= last
      ensures PageOf(last, size, n) < pages <==> last - pages * size < n
    {
      InFirstPages(last, size, pages, n);
    }
  }

  /** The search: pages of `size` from the newest build down, until one of them holds a completed
      build that is too early. `reached` is the number up to which nothing was looked at. */
  method FetchCompletedBuilds(j: Jenkins, startOfReport: int, last: int, size: nat)
    returns (builds: seq<int>, ghost reached: int, ghost pages: nat)
    requires size > 0
    ensures NoDuplicates(builds)
    ensures forall n :: n in builds <==> reached < n <= last && Wanted(j, startOfReport, n)
    ensures reached == last - pages * size && EndsAfter(j, startOfReport, last, size, pages)
    ensures reached <= 0 || exists n | reached < n <= last :: Stops(j, startOfReport, n)
  {
    builds := [];
    var buildNumber := last;
    reached, pages := last, 0;
    while buildNumber > 0
      invariant reached == buildNumber == last - pages * size && buildNumber <= last
      invariant pages > 0 ==> last - (pages - 1) * size > 0
      invariant NoDuplicates(builds)
      invariant forall n :: n in builds <==> buildNumber < n <= last && Wanted(j, startOfReport, n)
      invariant forall n | buildNumber < n <= last :: !Stops(j, startOfReport, n)
    {
      var stop;
      builds, stop := FetchPage(j, startOfReport, buildNumber, size, builds);
      reached, pages := buildNumber - size, pages + 1;
      assert reached == last - pages * size && last - (pages - 1) * size == buildNumber;
      if stop {
        StopsAfter(j, startOfReport, last, size, pages);
        return;
      }
      buildNumber := buildNumber - size;
    }
    PagesLooked(last, size, pages);
  }

  /** A stopping build on the last page looked at, and none on the pages before, end the search. */
  lemma StopsAfter(j: Jenkins, startOfReport: int, last: int, size: nat, pages: nat)
    requires size > 0 && pages > 0 && last - (pages - 1) * size > 0
    requires exists n | last - pages * size < n <= last - (pages - 1) * size :: Stops(j, startOfReport, n)
    requires forall n | last - (pages - 1) * size < n <= last :: !Stops(j, startOfReport, n)
    ensures EndsAfter(j, startOfReport, last, size, pages)
  {
    var s :| last - pages * size < s <= last - (pages - 1) * size && Stops(j, startOfReport, s);
    assert (pages - 1) * size >= 0;
    PagesLooked(last, size, pages);
    PagesLooked(last, size, pages - 1);
  }

  /** Completed builds do not get older with growing numbers. */
  ghost predicate TimesFollowNumbers(j: Jenkins) {
    forall m, n | m <= n && Completed(j(m)) && Completed(j(n)) :: j(m).timestamp <= j(n).timestamp
  }

  /** Then the early stop misses nothing: below it no build is wanted. */
  lemma EarlyStopMissesNothing(j: Jenkins, startOfReport: int, last: int, reached: int)
    requires TimesFollowNumbers(j)
    requires reached <= 0 || exists n | reached < n <= last :: Stops(j, startOfReport, n)
    ensures forall n | 1 <= n <= reached :: !Wanted(j, startOfReport, n)
  {
    forall n | 1 <= n <= reached
      ensures !Wanted(j, startOfReport, n)
    {
      var s :| reached < s <= last && Stops(j, startOfReport, s);
      if Completed(j(n)) {
        TimeIsMonotone(j(n).timestamp, j(s).timestamp);
      }
    }
  }

  lemma TimeIsMonotone(a: nat, b: nat)
    requires a <= b
    ensures MsecsToTime(a) <= MsecsToTime(b)
  {
  }

  /** No wanted build is on a later page than a stopping one. */
  ghost predicate NoneBehindAStop(j: Jenkins, startOfReport: int, last: int, size: nat)
    requires size > 0
  {
    forall n, s | 1 <= n <= last && s <= last && Wanted(j, startOfReport, n) && Stops(j, startOfReport, s) ::
      PageOf(last, size, n) <= PageOf(last, size, s)
  }

  /** For any build times: the search is complete exactly when no wanted build is on a later page
      than a stopping one. */
  lemma SearchIsCompleteIff(j: Jenkins, startOfReport: int, last: int, size: nat, pages: nat)
    requires size > 0 && EndsAfter(j, startOfReport, last, size, pages)
    ensures (forall n | 1 <= n <= last && Wanted(j, startOfReport, n) :: last - pages * size < n)
            <==> NoneBehindAStop(j, startOfReport, last, size)
  {
    PagesLooked(last, size, pages);
  }

  /** The search returns exactly the wanted builds of 1..last, each once, if and only if none of them
      is on a later page than a stopping one; for ordered build times it always does, for every page
      size. */
  method FetchForReport(j: Jenkins, startOfReport: int, last: int, size: nat) returns (builds: seq<int>)
    requires size > 0
    requires forall n | n <= 0 :: j(n).Missing?
    ensures NoDuplicates(builds)
    ensures (forall n :: n in builds <==> 1 <= n <= last && Wanted(j, startOfReport, n))
            <==> NoneBehindAStop(j, startOfReport, last, size)
    ensures TimesFollowNumbers(j) ==> forall n :: n in builds <==> 1 <= n <= last && Wanted(j, startOfReport, n)
  {
    ghost var reached, pages;
    builds, reached, pages := FetchCompletedBuilds(j, startOfReport, last, size);
    SearchIsCompleteIff(j, startOfReport, last, size, pages);
    if TimesFollowNumbers(j) {
      EarlyStopMissesNothing(j, startOfReport, last, reached);
    }
  }

  /** With pages of one build, build 2 finished too early hides build 1, which is wanted. */
  lemma AnEarlyBuildHidesAnother() returns (j: Jenkins, startOfReport: int)
    ensures forall n | n <= 0 :: j(n).Missing?
    ensures Wanted(j, startOfReport, 1) && Stops(j, startOfReport, 2)
    ensures !NoneBehindAStop(j, startOfReport, 2, 1)
  {
    j := n => if n == 1 then Build("SUCCESS", 7000) else if n == 2 then Build("SUCCESS", 3000) else Missing;
    startOfReport := 5 * NANOS;
    assert PageOf(2, 1, 1) > PageOf(2, 1, 2);
  }

  // ----- the millisecond conversion -----

  /** The report's test of a build time is the test on exact milliseconds. */
  ghost predicate TestIsExact(startOfReport: nat) {
    forall msecs: nat :: MsecsToTime(msecs) < startOfReport <==> msecs * 1_000_000 < startOfReport
  }

  /** The conversion treats the milliseconds of a second as nanoseconds. The test is still exact for
      every build when the report starts at most one nanosecond after a full second, or in the last
      millisecond of one, and only then. */
  lemma WindowTestIsExactIff(startOfReport: nat)
    ensures TestIsExact(startOfReport) <==> startOfReport % NANOS <= 1 || startOfReport % NANOS > 999_000_000
  {
    var q, r := startOfReport / NANOS, startOfReport % NANOS;
    if r <= 1 || r > 999_000_000 {
      forall msecs: nat
        ensures MsecsToTime(msecs) < startOfReport <==> msecs * 1_000_000 < startOfReport
      {
        ExactOn(startOfReport, msecs);
      }
    } else {
      // a build 1 or 999 milliseconds into the second tells the two tests apart
      var ms := if r <= 1_000_000 then 1 else 999;
      var msecs := q * 1000 + ms;
      assert msecs / 1000 == q && msecs % 1000 == ms;
      assert !(MsecsToTime(msecs) < startOfReport <==> msecs * 1_000_000 < startOfReport);
    }
  }

  lemma ExactOn(startOfReport: nat, msecs: nat)
    requires startOfReport % NANOS <= 1 || startOfReport % NANOS > 999_000_000
    ensures MsecsToTime(msecs) < startOfReport <==> msecs * 1_000_000 < startOfReport
  {
    var q, r := startOfReport / NANOS, startOfReport % NANOS;
    var s, k := msecs / 1000, msecs % 1000;
    assert msecs * 1_000_000 == s * NANOS + k * 1_000_000;
  }
}
