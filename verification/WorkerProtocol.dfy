/** One page of requests: a goroutine per request sends its answer on an unbuffered channel, a
    closer waits for all of them and closes the channel, a collector receives until it is closed. */
module WorkerProtocol {
  import opened Counting

  /** A worker's life: sending blocks until the collector takes the answer, `Done` comes after. */
  datatype Worker = NotStarted | Running | Sent | Finished

  datatype Closer = Spawning(next: nat) | Waiting | Closing | Exited

  datatype System = System(workers: seq<Worker>, waitGroup: int, closer: Closer, closes: nat,
                           sentOnClosed: bool, collecting: bool, collected: seq<nat>)

  function Start(n: nat): System {
    System(seq(n, i => NotStarted), n, Spawning(0), 0, false, true, [])
  }

  datatype Action = Spawn | Wait | Resume | Close | Send(i: nat) | Done(i: nat) | StopCollecting

  ghost predicate Step(s: System, a: Action, s': System) {
    match a
    case Spawn =>
      s.closer.Spawning? && s.closer.next < |s.workers| && s.workers[s.closer.next].NotStarted?
      && s' == s.(workers := s.workers[s.closer.next := Running], closer := Spawning(s.closer.next + 1))
    case Wait =>
      s.closer.Spawning? && s.closer.next == |s.workers| && s' == s.(closer := Waiting)
    case Resume =>
      s.closer.Waiting? && s.waitGroup == 0 && s' == s.(closer := Closing)
    case Close =>
      s.closer.Closing? && s' == s.(closer := Exited, closes := s.closes + 1)
    case Send(i) =>
      i < |s.workers| && s.workers[i].Running? && s.collecting
      && s' == s.(workers := s.workers[i := Sent], collected := s.collected + [i],
                  sentOnClosed := s.sentOnClosed || s.closes > 0)
    case Done(i) =>
      i < |s.workers| && s.workers[i].Sent?
      && s' == s.(workers := s.workers[i := Finished], waitGroup := s.waitGroup - 1)
    case StopCollecting =>
      s.collecting && s.closes > 0 && s' == s.(collecting := false)
  }

  ghost predicate IsRun(n: nat, ss: seq<System>, acts: seq<Action>) {
    && |ss| == |acts| + 1
    && ss[0] == Start(n)
    && forall i | 0 <= i < |acts| :: Step(ss[i], acts[i], ss[i + 1])
  }

  predicate AllOver(s: System) {
    s.closer.Exited? && !s.collecting
  }

  /** The number of workers that still owe a `Done`. */
  function Unfinished(ws: seq<Worker>): nat {
    if ws == [] then 0 else Unfinished(ws[..|ws| - 1]) + (if ws[|ws| - 1].Finished? then 0 else 1)
  }

  ghost predicate Inv(s: System, n: nat) {
    && |s.workers| == n
    && s.waitGroup == Unfinished(s.workers)
    && !s.sentOnClosed
    && s.closes == (if s.closer.Exited? then 1 else 0)
    && (!s.collecting ==> s.closes > 0)
    && (s.closer.Spawning? ==> s.closer.next <= n && forall i | s.closer.next <= i < n :: s.workers[i].NotStarted?)
    && (forall i | 0 <= i < n && s.workers[i].NotStarted? :: s.closer.Spawning? && s.closer.next <= i)
    && (s.closer.Closing? || s.closer.Exited? ==> forall i | 0 <= i < n :: s.workers[i].Finished?)
    && NoDuplicates(s.collected)
    && (forall i | i in s.collected :: i < n)
    && (forall i | 0 <= i < n :: i in s.collected <==> s.workers[i].Sent? || s.workers[i].Finished?)
  }

  lemma {:induction false} UnfinishedAfter(ws: seq<Worker>, i: nat, w: Worker)
    requires i < |ws| && !ws[i].Finished?
    ensures Unfinished(ws[i := w]) == Unfinished(ws) - (if w.Finished? then 1 else 0)
  {
    var front, last := ws[..|ws| - 1], ws[|ws| - 1];
    if i < |front| {
      assert ws[i := w][..|ws| - 1] == front[i := w];
      UnfinishedAfter(front, i, w);
    } else {
      assert ws[i := w][..|ws| - 1] == front;
    }
  }

  lemma {:induction false} NoneUnfinished(ws: seq<Worker>)
    ensures Unfinished(ws) == 0 <==> forall i | 0 <= i < |ws| :: ws[i].Finished?
  {
    if ws != [] {
      NoneUnfinished(ws[..|ws| - 1]);
      assert forall i | 0 <= i < |ws| - 1 :: ws[..|ws| - 1][i] == ws[i];
    }
  }

  lemma {:induction false} FreshWorkersAreUnfinished(n: nat)
    ensures Unfinished(seq(n, i => NotStarted)) == n
  {
    if n > 0 {
      FreshWorkersAreUnfinished(n - 1);
      assert seq(n, i => NotStarted)[..n - 1] == seq(n - 1, i => NotStarted);
    }
  }

  lemma StepKeepsInv(s: System, a: Action, s': System, n: nat)
    requires Inv(s, n) && Step(s, a, s')
    ensures Inv(s', n)
  {
    match a
    case Spawn => UnfinishedAfter(s.workers, s.closer.next, Running);
    case Send(i) => UnfinishedAfter(s.workers, i, Sent);
    case Done(i) => UnfinishedAfter(s.workers, i, Finished);
    case Resume => NoneUnfinished(s.workers);
    case _ =>
  }

  /** In every state of every run: nothing is sent on the closed channel, it is closed at most
      once, and each worker's answer was received at most once and only from workers that sent. */
  lemma {:induction false} RunsAreSafe(n: nat, ss: seq<System>, acts: seq<Action>, k: nat)
    requires IsRun(n, ss, acts) && k <= |acts|
    ensures Inv(ss[k], n)
  {
    if k == 0 {
      FreshWorkersAreUnfinished(n);
    } else {
      RunsAreSafe(n, ss, acts, k - 1);
      assert Step(ss[k - 1], acts[k - 1], ss[k]);
      StepKeepsInv(ss[k - 1], acts[k - 1], ss[k], n);
    }
  }

  // ----- every run ends, and ends well -----

  function Rank(w: Worker): nat {
    match w
    case NotStarted => 3
    case Running => 2
    case Sent => 1
    case Finished => 0
  }

  function Ranks(ws: seq<Worker>): nat {
    if ws == [] then 0 else Ranks(ws[..|ws| - 1]) + Rank(ws[|ws| - 1])
  }

  function Remaining(s: System): nat {
    Ranks(s.workers)
    + (match s.closer case Spawning(_) => 3 case Waiting => 2 case Closing => 1 case Exited => 0)
    + (if s.collecting then 1 else 0)
  }

  lemma {:induction false} RanksAfter(ws: seq<Worker>, i: nat, w: Worker)
    requires i < |ws|
    ensures Ranks(ws[i := w]) == Ranks(ws) - Rank(ws[i]) + Rank(w)
  {
    var front := ws[..|ws| - 1];
    if i < |front| {
      assert ws[i := w][..|ws| - 1] == front[i := w];
      RanksAfter(front, i, w);
    } else {
      assert ws[i := w][..|ws| - 1] == front;
    }
  }

  lemma StepUsesUp(s: System, a: Action, s': System)
    requires Step(s, a, s')
    ensures Remaining(s') + 1 == Remaining(s)
  {
    match a
    case Spawn => RanksAfter(s.workers, s.closer.next, Running);
    case Send(i) => RanksAfter(s.workers, i, Sent);
    case Done(i) => RanksAfter(s.workers, i, Finished);
    case _ =>
  }

  lemma {:induction false} FreshRanks(n: nat)
    ensures Ranks(seq(n, i => NotStarted)) == 3 * n
  {
    if n > 0 {
      FreshRanks(n - 1);
      assert seq(n, i => NotStarted)[..n - 1] == seq(n - 1, i => NotStarted);
    }
  }

  /** A run has as many actions as it used up, at most 3n + 4. */
  lemma {:induction false} RunsAreShort(n: nat, ss: seq<System>, acts: seq<Action>, k: nat)
    requires IsRun(n, ss, acts) && k <= |acts|
    ensures k + Remaining(ss[k]) == 3 * n + 4
  {
    if k == 0 {
      FreshRanks(n);
    } else {
      RunsAreShort(n, ss, acts, k - 1);
      assert Step(ss[k - 1], acts[k - 1], ss[k]);
      StepUsesUp(ss[k - 1], acts[k - 1], ss[k]);
    }
  }

  /** No deadlock: some action is possible until everything is over. */
  lemma SomeoneCanMove(s: System, n: nat) returns (a: Action, s': System)
    requires Inv(s, n) && !AllOver(s)
    ensures Step(s, a, s')
  {
    if s.closer.Spawning? {
      if s.closer.next < n {
        a, s' := Spawn, s.(workers := s.workers[s.closer.next := Running], closer := Spawning(s.closer.next + 1));
      } else {
        a, s' := Wait, s.(closer := Waiting);
      }
    } else if s.closer.Waiting? && s.waitGroup != 0 {
      NoneUnfinished(s.workers);
      var i :| 0 <= i < n && !s.workers[i].Finished?;
      if s.workers[i].Running? {
        a, s' := Send(i), s.(workers := s.workers[i := Sent], collected := s.collected + [i],
                             sentOnClosed := s.sentOnClosed || s.closes > 0);
      } else {
        a, s' := Done(i), s.(workers := s.workers[i := Finished], waitGroup := s.waitGroup - 1);
      }
    } else if s.closer.Waiting? {
      a, s' := Resume, s.(closer := Closing);
    } else if s.closer.Closing? {
      a, s' := Close, s.(closer := Exited, closes := s.closes + 1);
    } else {
      a, s' := StopCollecting, s.(collecting := false);
    }
  }

  /** A run that cannot go on has closed the channel once and collected exactly one answer of
      every worker, in some order. */
  lemma StuckRunsAreComplete(n: nat, ss: seq<System>, acts: seq<Action>)
    requires IsRun(n, ss, acts)
    requires forall a, s' :: !Step(ss[|acts|], a, s')
    ensures var s := ss[|acts|];
            AllOver(s) && s.closes == 1 && !s.sentOnClosed && s.waitGroup == 0
    ensures IsPermutation(ss[|acts|].collected, n)
    ensures |acts| == 3 * n + 4
  {
    var s := ss[|acts|];
    RunsAreSafe(n, ss, acts, |acts|);
    if !AllOver(s) {
      var a, s' := SomeoneCanMove(s, n);
    }
    NoneUnfinished(s.workers);
    RunsAreShort(n, ss, acts, |acts|);
    AllFinishedRanks(s.workers);
  }

  lemma {:induction false} AllFinishedRanks(ws: seq<Worker>)
    requires forall i | 0 <= i < |ws| :: ws[i].Finished?
    ensures Ranks(ws) == 0
  {
    if ws != [] {
      AllFinishedRanks(ws[..|ws| - 1]);
    }
  }

  /** Every index below `n` exactly once. */
  ghost predicate IsPermutation(order: seq<nat>, n: nat) {
    NoDuplicates(order) && forall i: nat :: i in order <==> i < n
  }
}
