/** The circuit breaker around Jenkins requests. */
module CircuitBreakers {
  import opened Wrappers

  type Err = string

  /** The state behind the mutex. No blocked time is Go's zero time. */
  datatype Breaker = Breaker(open: bool, blockedUntil: Option<int>, lastErr: Option<Err>)

  datatype Config = Config(retryAfter: int, shouldOpen: Err -> bool)

  const CLOSED := Breaker(false, None, None)

  predicate RetryBlocked(b: Breaker, now: int) {
    b.blockedUntil.Some? && now <= b.blockedUntil.value
  }

  predicate Opens(cfg: Config, result: Option<Err>) {
    result.Some? && cfg.shouldOpen(result.value)
  }

  /** The state after a result has been reported; `seen` and `stamp` are the two clock readings. */
  function Updated(cfg: Config, b: Breaker, result: Option<Err>, seen: int, stamp: int): Breaker {
    if RetryBlocked(b, seen) then b
    else if Opens(cfg, result) then Breaker(true, Some(stamp + cfg.retryAfter), result)
    else Breaker(false, b.blockedUntil, result)
  }

  /** Inside a block window the breaker is open, because of the error it reports. */
  predicate Consistent(cfg: Config, b: Breaker, now: int) {
    RetryBlocked(b, now) ==> b.open && Opens(cfg, b.lastErr)
  }

  class CircuitBreaker {
    var lastErr: Option<Err>
    var open: bool
    var blockedUntil: Option<int>
    const cfg: Config

    function State(): Breaker
      reads this
    {
      Breaker(open, blockedUntil, lastErr)
    }

    constructor (retryAfter: int, shouldOpen: Err -> bool)
      requires retryAfter > 0
      ensures State() == CLOSED && cfg == Config(retryAfter, shouldOpen)
    {
      lastErr, open, blockedUntil := None, false, None;
      cfg := Config(retryAfter, shouldOpen);
    }

    predicate IsRetryBlocked(now: int)
      reads this
      ensures IsRetryBlocked(now) == RetryBlocked(State(), now)
    {
      blockedUntil.Some? && !(now > blockedUntil.value)
    }

    method IsOpenAndNotFeasibleForRetry(now: int) returns (stayOpen: bool, err: Option<Err>)
      ensures stayOpen == (State().open && RetryBlocked(State(), now))
      ensures err == State().lastErr
    {
      return open && IsRetryBlocked(now), lastErr;
    }

    method UpdateState(result: Option<Err>, seen: int, stamp: int)
      modifies this
      ensures State() == Updated(cfg, old(State()), result, seen, stamp)
    {
      if IsRetryBlocked(seen) {
        return;
      }
      if result.Some? && cfg.shouldOpen(result.value) {
        open := true;
        blockedUntil := Some(stamp + cfg.retryAfter);
      } else {
        open := false;
      }
      lastErr := result;
    }

    /** One call of the wrapped function by a lone caller. `outcome` is what the function returns
        if it is invoked; the clock is read at the check and twice at the update. */
    method Call(outcome: Option<Err>, checkedAt: int, seen: int, stamp: int) returns (result: Option<Err>, invoked: bool)
      requires checkedAt <= seen <= stamp
      requires cfg.retryAfter > 0
      requires Consistent(cfg, State(), checkedAt)
      modifies this
      ensures invoked <==> old(blockedUntil).None? || checkedAt > old(blockedUntil).value
      ensures !invoked ==> State() == old(State()) && Opens(cfg, result) && result == old(lastErr)
      ensures invoked ==> result == outcome && lastErr == outcome && open == Opens(cfg, outcome)
      ensures invoked ==> blockedUntil == if Opens(cfg, outcome) then Some(stamp + cfg.retryAfter) else old(blockedUntil)
      ensures forall later | later >= stamp :: Consistent(cfg, State(), later)
    {
      var shouldStayOpen, last := IsOpenAndNotFeasibleForRetry(checkedAt);
      if shouldStayOpen {
        return last, false;
      }
      UpdateState(outcome, seen, stamp);
      return outcome, true;
    }
  }
}
