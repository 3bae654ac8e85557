/** Callers of one breaker on different goroutines: check, invocation and update interleave. */
module BreakerCallers {
  import opened Wrappers
  import opened CircuitBreakers

  /** What a caller is doing: outside, inside the wrapped function, or about to report its result. */
  datatype Phase = Outside | Invoked | Returned(result: Option<Err>)

  datatype System = System(breaker: Breaker, now: int, callers: seq<Phase>)

  datatype Action =
    | Tick(to: int)
    | Check(caller: nat)
    | Return(caller: nat, result: Option<Err>)
    | Update(caller: nat, stamp: int)

  predicate PassesCheck(s: System) {
    !(s.breaker.open && RetryBlocked(s.breaker, s.now))
  }

  ghost predicate Step(cfg: Config, s: System, a: Action, s': System) {
    match a
    case Tick(to) => s.now <= to && s' == s.(now := to)
    case Check(i) =>
      i < |s.callers| && s.callers[i].Outside?
      && s' == s.(callers := s.callers[i := if PassesCheck(s) then Invoked else Outside])
    case Return(i, result) =>
      i < |s.callers| && s.callers[i].Invoked? && s' == s.(callers := s.callers[i := Returned(result)])
    case Update(i, stamp) =>
      i < |s.callers| && s.callers[i].Returned? && s.now <= stamp
      && s' == System(Updated(cfg, s.breaker, s.callers[i].result, s.now, stamp), stamp, s.callers[i := Outside])
  }

  ghost predicate IsRun(cfg: Config, ss: seq<System>, acts: seq<Action>) {
    && cfg.retryAfter > 0
    && |ss| == |acts| + 1
    && ss[0].breaker == CLOSED
    && (forall i | 0 <= i < |ss[0].callers| :: ss[0].callers[i].Outside?)
    && forall i | 0 <= i < |acts| :: Step(cfg, ss[i], acts[i], ss[i + 1])
  }

  /** In every state of every run a blocked breaker is open and reports an error that opens it. */
  lemma {:induction false} BlockedMeansOpen(cfg: Config, ss: seq<System>, acts: seq<Action>, n: nat)
    requires IsRun(cfg, ss, acts) && n <= |acts|
    ensures Consistent(cfg, ss[n].breaker, ss[n].now)
  {
    if n > 0 {
      BlockedMeansOpen(cfg, ss, acts, n - 1);
      assert Step(cfg, ss[n - 1], acts[n - 1], ss[n]);
    }
  }

  lemma {:induction false} ClockIsMonotone(cfg: Config, ss: seq<System>, acts: seq<Action>, i: nat, j: nat)
    requires IsRun(cfg, ss, acts) && i <= j <= |acts|
    ensures ss[i].now <= ss[j].now
    decreases j
  {
    if i < j {
      ClockIsMonotone(cfg, ss, acts, i, j - 1);
      assert Step(cfg, ss[j - 1], acts[j - 1], ss[j]);
    }
  }

  /** Inside a block window nothing about the breaker changes. */
  lemma {:induction false} WindowFreezesTheBreaker(cfg: Config, ss: seq<System>, acts: seq<Action>, i: nat, j: nat)
    requires IsRun(cfg, ss, acts) && i <= j <= |acts|
    requires RetryBlocked(ss[i].breaker, ss[j].now)
    ensures ss[j].breaker == ss[i].breaker
    decreases j
  {
    if i < j {
      ClockIsMonotone(cfg, ss, acts, j - 1, j);
      WindowFreezesTheBreaker(cfg, ss, acts, i, j - 1);
      assert Step(cfg, ss[j - 1], acts[j - 1], ss[j]);
    }
  }

  /** Whoever gets to invoke the wrapped function passed the check while no window was running. A
      window ends after its last moment. */
  lemma InvocationsPassUnblocked(cfg: Config, ss: seq<System>, acts: seq<Action>, n: nat)
    requires IsRun(cfg, ss, acts) && n < |acts| && acts[n].Check?
    ensures ss[n + 1].callers[acts[n].caller].Invoked? <==>
            ss[n].breaker.blockedUntil.None? || ss[n].now > ss[n].breaker.blockedUntil.value
  {
    BlockedMeansOpen(cfg, ss, acts, n);
    assert Step(cfg, ss[n], acts[n], ss[n + 1]);
  }

  /** Nobody is invoked from the moment a window is set until it is over. */
  lemma NoInvocationInsideAWindow(cfg: Config, ss: seq<System>, acts: seq<Action>, i: nat, j: nat)
    requires IsRun(cfg, ss, acts) && i <= j < |acts| && acts[j].Check?
    requires RetryBlocked(ss[i].breaker, ss[j].now)
    ensures !ss[j + 1].callers[acts[j].caller].Invoked?
  {
    WindowFreezesTheBreaker(cfg, ss, acts, i, j);
    InvocationsPassUnblocked(cfg, ss, acts, j);
  }

  // ----- openings -----

  /** Action `n` opens the breaker for a new window. */
  ghost predicate OpensAt(cfg: Config, ss: seq<System>, acts: seq<Action>, n: nat)
    requires IsRun(cfg, ss, acts)
  {
    n < |acts| && ss[n + 1].breaker.blockedUntil != ss[n].breaker.blockedUntil
  }

  predicate NotBefore(a: Option<int>, b: Option<int>) {
    a.Some? ==> b.Some? && a.value <= b.value
  }

  lemma {:induction false} BlockedUntilGrows(cfg: Config, ss: seq<System>, acts: seq<Action>, i: nat, j: nat)
    requires IsRun(cfg, ss, acts) && i <= j <= |acts|
    ensures NotBefore(ss[i].breaker.blockedUntil, ss[j].breaker.blockedUntil)
    decreases j
  {
    if i < j {
      BlockedUntilGrows(cfg, ss, acts, i, j - 1);
      assert Step(cfg, ss[j - 1], acts[j - 1], ss[j]);
    }
  }

  /** A window is set by an update that reports an opening error, and lasts retryAfter from there. */
  lemma OpeningsSetTheWindow(cfg: Config, ss: seq<System>, acts: seq<Action>, n: nat)
    requires IsRun(cfg, ss, acts) && OpensAt(cfg, ss, acts, n)
    ensures acts[n].Update? && !RetryBlocked(ss[n].breaker, ss[n].now)
    ensures ss[n + 1].breaker.open && Opens(cfg, ss[n + 1].breaker.lastErr)
    ensures ss[n + 1].breaker.blockedUntil == Some(ss[n + 1].now + cfg.retryAfter)
  {
    assert Step(cfg, ss[n], acts[n], ss[n + 1]);
  }

  /** Two openings are more than retryAfter apart. */
  lemma OpeningsAreApart(cfg: Config, ss: seq<System>, acts: seq<Action>, i: nat, j: nat)
    requires IsRun(cfg, ss, acts) && i < j && OpensAt(cfg, ss, acts, i) && OpensAt(cfg, ss, acts, j)
    ensures ss[j + 1].now > ss[i + 1].now + cfg.retryAfter
  {
    OpeningsSetTheWindow(cfg, ss, acts, i);
    OpeningsSetTheWindow(cfg, ss, acts, j);
    BlockedUntilGrows(cfg, ss, acts, i + 1, j);
    ClockIsMonotone(cfg, ss, acts, j, j + 1);
  }

  /** The window is that of the last opening. */
  lemma {:induction false} WindowIsOfTheLastOpening(cfg: Config, ss: seq<System>, acts: seq<Action>, n: nat)
    requires IsRun(cfg, ss, acts) && n <= |acts|
    ensures var until := ss[n].breaker.blockedUntil;
            && (until.None? <==> forall i: nat | i < n :: !OpensAt(cfg, ss, acts, i))
            && (until.Some? ==> exists i: nat | i < n && OpensAt(cfg, ss, acts, i) :: until.value == ss[i + 1].now + cfg.retryAfter)
            && forall i: nat | i < n && OpensAt(cfg, ss, acts, i) :: until.Some? && ss[i + 1].now + cfg.retryAfter <= until.value
  {
    if n > 0 {
      WindowIsOfTheLastOpening(cfg, ss, acts, n - 1);
      if OpensAt(cfg, ss, acts, n - 1) {
        OpeningsSetTheWindow(cfg, ss, acts, n - 1);
        BlockedUntilGrows(cfg, ss, acts, n - 1, n);
      }
    }
  }

  /** A caller gets to invoke the function if and only if every opening so far is more than
      retryAfter ago. */
  lemma InvokedIffNoRecentOpening(cfg: Config, ss: seq<System>, acts: seq<Action>, n: nat)
    requires IsRun(cfg, ss, acts) && n < |acts| && acts[n].Check?
    ensures ss[n + 1].callers[acts[n].caller].Invoked? <==>
            forall i: nat | i < n && OpensAt(cfg, ss, acts, i) :: ss[n].now > ss[i + 1].now + cfg.retryAfter
  {
    InvocationsPassUnblocked(cfg, ss, acts, n);
    WindowIsOfTheLastOpening(cfg, ss, acts, n);
  }

  // ----- which results decide -----

  lemma {:induction false} NoUpdateNoChange(cfg: Config, ss: seq<System>, acts: seq<Action>, i: nat, j: nat)
    requires IsRun(cfg, ss, acts) && i <= j <= |acts|
    requires forall k | i <= k < j :: !acts[k].Update?
    ensures ss[j].breaker == ss[i].breaker
    decreases j
  {
    if i < j {
      NoUpdateNoChange(cfg, ss, acts, i, j - 1);
      assert Step(cfg, ss[j - 1], acts[j - 1], ss[j]);
    }
  }

  /** If nobody else reports between a caller's check and its update, its result decides the state. */
  lemma UndisturbedResultDecides(cfg: Config, ss: seq<System>, acts: seq<Action>, i: nat, j: nat)
    requires IsRun(cfg, ss, acts) && i < j < |acts|
    requires acts[i].Check? && PassesCheck(ss[i]) && acts[j].Update? && acts[j].caller == acts[i].caller
    requires forall k | i <= k < j :: !acts[k].Update?
    ensures acts[j].caller < |ss[j].callers| && ss[j].callers[acts[j].caller].Returned?
    ensures var result := ss[j].callers[acts[j].caller].result;
            ss[j + 1].breaker.lastErr == result && ss[j + 1].breaker.open == Opens(cfg, result)
  {
    BlockedMeansOpen(cfg, ss, acts, i);
    NoUpdateNoChange(cfg, ss, acts, i, j);
    ClockIsMonotone(cfg, ss, acts, i, j);
    assert Step(cfg, ss[j], acts[j], ss[j + 1]);
  }

  /** In general a reported success closes the breaker exactly when no window is running at the
      report; the documentation promises it always. */
  lemma SuccessClosesIff(cfg: Config, ss: seq<System>, acts: seq<Action>, n: nat)
    requires IsRun(cfg, ss, acts) && n < |acts| && acts[n].Update?
    requires acts[n].caller < |ss[n].callers| && ss[n].callers[acts[n].caller] == Returned(None)
    ensures !ss[n + 1].breaker.open <==> !RetryBlocked(ss[n].breaker, ss[n].now)
  {
    BlockedMeansOpen(cfg, ss, acts, n);
    assert Step(cfg, ss[n], acts[n], ss[n + 1]);
  }

  /** Two callers invoked together, the first fails and opens, the success of the second is lost. */
  lemma ASuccessCanBeLost(cfg: Config) returns (ss: seq<System>, acts: seq<Action>)
    requires cfg.retryAfter > 0 && cfg.shouldOpen("504")
    ensures IsRun(cfg, ss, acts) && |acts| > 0
    ensures acts[|acts| - 1] == Update(1, 0) && ss[|acts| - 1].callers == [Outside, Returned(None)]
    ensures ss[|acts|].breaker.open
  {
    acts := [Check(0), Check(1), Return(0, Some("504")), Return(1, None), Update(0, 0), Update(1, 0)];
    var tripped := Breaker(true, Some(cfg.retryAfter), Some("504"));
    ss := [System(CLOSED, 0, [Outside, Outside]),
           System(CLOSED, 0, [Invoked, Outside]),
           System(CLOSED, 0, [Invoked, Invoked]),
           System(CLOSED, 0, [Returned(Some("504")), Invoked]),
           System(CLOSED, 0, [Returned(Some("504")), Returned(None)]),
           System(tripped, 0, [Outside, Returned(None)]),
           System(tripped, 0, [Outside, Outside])];
  }
}
