/** How far apart a run of the spreader puts the jobs of a group, and that no schedule does better. */
module SpreadDistances {
  import opened Counting
  import opened SpreadModel
  import opened SpreadRuns
  import opened SpreadFixedPoint

  // ----- the best possible distance -----

  /** Start times that repeat every `period` minutes, any two of them at least `d` minutes apart
      around the clock. */
  ghost predicate AllApart(starts: seq<int>, period: nat, d: nat)
    requires period > 0
  {
    && d <= period
    && forall i, j | 0 <= i < |starts| && 0 <= j < |starts| && i != j :: (starts[i] - starts[j]) % period >= d
  }

  /** On a line, from a lowest to a highest point. */
  ghost predicate OnLine(s: seq<int>, lo: int, hi: int, d: nat) {
    && (forall i | 0 <= i < |s| :: lo <= s[i] <= hi)
    && forall i, j | 0 <= i < |s| && 0 <= j < |s| && i != j :: s[i] - s[j] >= d || s[j] - s[i] >= d
  }

  lemma {:induction false} Greatest(s: seq<int>) returns (m: nat)
    requires s != []
    ensures m < |s| && forall i | 0 <= i < |s| :: s[i] <= s[m]
  {
    if |s| == 1 {
      m := 0;
    } else {
      var k := Greatest(s[1..]);
      m := if s[0] <= s[k + 1] then k + 1 else 0;
      forall i | 0 <= i < |s|
        ensures s[i] <= s[m]
      {
        assert i > 0 ==> s[i] == s[1..][i - 1];
      }
    }
  }

  lemma OneMore(n: int, d: int)
    ensures (n + 1) * d == n * d + d
  {
  }

  lemma {:induction false} LineIsLongEnough(s: seq<int>, lo: int, hi: int, d: nat)
    requires s != [] && OnLine(s, lo, hi, d)
    ensures |s| * d <= hi - lo + d
    decreases |s|
  {
    if |s| == 1 {
      assert lo <= s[0] <= hi;
    } else {
      var m := Greatest(s);
      var rest := s[..m] + s[m + 1..];
      assert forall i | 0 <= i < |rest| :: rest[i] == s[if i < m then i else i + 1];
      LineIsLongEnough(rest, lo, s[m] - d, d);
      OneMore(|rest|, d);
      assert s[m] <= hi && |s| == |rest| + 1;
    }
  }

  lemma DifferenceOfResidues(x: int, y: int, period: nat)
    requires period > 0
    ensures (x - y) % period == (x % period - y % period) % period
  {
    var a, b := x % period, y % period;
    assert x - y == a - b + (x / period - y / period) * period;
    ModOfMultiple(a - b, x / period - y / period, period);
  }

  lemma ResiduesDiffer(x: int, y: int, period: nat, d: nat)
    requires period > 0 && (x - y) % period >= d && (y - x) % period >= d
    ensures x % period - y % period >= d || y % period - x % period >= d
    ensures y % period <= x % period ==> x % period <= y % period + period - d
  {
    DifferenceOfResidues(x, y, period);
    DifferenceOfResidues(y, x, period);
    SmallMod(x % period - y % period, period);
    SmallMod(y % period - x % period, period);
  }

  lemma SmallMod(x: int, period: nat)
    requires period > 0 && 0 - period < x < period
    ensures x % period == if x < 0 then x + period else x
  {
    if x < 0 {
      ModOfMultiple(x + period, -1, period);
    }
  }

  lemma {:induction false} ModOfMultiple(x: int, k: int, period: nat)
    requires period > 0
    ensures (x + k * period) % period == x % period
  {
    var q, r := x / period, x % period;
    assert x + k * period == (q + k) * period + r;
    QuotientIsUnique(x + k * period, q + k, r, period);
  }

  lemma QuotientIsUnique(x: int, q: int, r: int, period: nat)
    requires period > 0 && x == q * period + r && 0 <= r < period
    ensures x % period == r
  {
    var p := x / period;
    if p < q {
      assert (p + 1) * period == p * period + period;
      MulCancels(p + 1, q, period);
    } else if p > q {
      assert (q + 1) * period == q * period + period;
      MulCancels(q + 1, p, period);
    }
  }

  /** Around the clock `n` starts `d` apart take `n * d` minutes. */
  lemma CircleIsLongEnough(starts: seq<int>, period: nat, d: nat)
    requires period > 0 && AllApart(starts, period, d)
    ensures |starts| * d <= period
  {
    if starts != [] {
      var residues := seq(|starts|, i requires 0 <= i < |starts| => starts[i] % period);
      var negated := seq(|starts|, i requires 0 <= i < |starts| => -residues[i]);
      var m := Greatest(negated);
      var lo := residues[m];
      forall i | 0 <= i < |residues|
        ensures lo <= residues[i] <= lo + period - d
      {
        assert negated[i] <= negated[m];
        if i != m {
          ResiduesDiffer(starts[i], starts[m], period, d);
        }
      }
      forall i, j | 0 <= i < |residues| && 0 <= j < |residues| && i != j
        ensures residues[i] - residues[j] >= d || residues[j] - residues[i] >= d
      {
        ResiduesDiffer(starts[i], starts[j], period, d);
      }
      LineIsLongEnough(residues, lo, lo + period - d, d);
    }
  }

  // ----- what a run attains -----

  /** A job starts at minute `first` and then again every `period` minutes. */
  ghost predicate StartsEvery(j: Job, first: int, period: int) {
    forall k | 0 <= k < |j.cron.hours| :: j.cron.hours[k] * 60 + j.cron.minute == first + k * period
  }

  /** No start of `a` is closer than `d` to one of `b`; for `same`, to another one of its own. */
  ghost predicate JobsApart(a: Job, b: Job, same: bool, d: nat) {
    forall k, l | 0 <= k < |a.cron.hours| && 0 <= l < |b.cron.hours| && !(same && k == l) ::
      Apart(a.cron.hours[k] * 60 + a.cron.minute, b.cron.hours[l] * 60 + b.cron.minute, d)
  }

  /** In every group there is a distance by which a run separates any two different starts of the
      group, whichever jobs they belong to. It is the largest whole number of minutes that fits the
      period once for every job. The first start of a job is that distance times the number of jobs
      of its group with lesser names, and it comes again every period. */
  lemma RunSpreadsEvenly(jobs: seq<Job>, f: nat) returns (d: nat)
    requires WellFormed(jobs) && 1 <= f <= 24 && GroupSize(jobs, f) > 0
    ensures GroupSize(jobs, f) * d <= 24 / f * 60 < GroupSize(jobs, f) * (d + 1)
    ensures forall i | 0 <= i < |jobs| && Freq(jobs[i]) == f ::
      StartsEvery(SpreadAll(jobs)[i], CountIf(NamedBefore(f, jobs[i].name), jobs) * d, 24 / f * 60)
    ensures forall i, j | 0 <= i < |jobs| && 0 <= j < |jobs| && Freq(jobs[i]) == f == Freq(jobs[j]) ::
      JobsApart(SpreadAll(jobs)[i], SpreadAll(jobs)[j], i == j, d)
  {
    var n := GroupSize(jobs, f);
    d := Stagger(f, n);
    StaggerIsLargest(f, n);
    forall i | 0 <= i < |jobs| && Freq(jobs[i]) == f
      ensures StartsEvery(SpreadAll(jobs)[i], CountIf(NamedBefore(f, jobs[i].name), jobs) * d, 24 / f * 60)
    {
      StartsOfJob(jobs, i);
    }
    forall i, j | 0 <= i < |jobs| && 0 <= j < |jobs| && Freq(jobs[i]) == f == Freq(jobs[j])
      ensures JobsApart(SpreadAll(jobs)[i], SpreadAll(jobs)[j], i == j, d)
    {
      StartsOfGroupAreApart(jobs, i, j);
    }
  }

  lemma StartsOfJob(jobs: seq<Job>, i: nat)
    requires WellFormed(jobs) && i < |jobs|
    ensures var f := Freq(jobs[i]);
            && GroupSize(jobs, f) > 0
            && StartsEvery(SpreadAll(jobs)[i], CountIf(NamedBefore(f, jobs[i].name), jobs) * Stagger(f, GroupSize(jobs, f)), 24 / f * 60)
  {
    RankIsBelowSize(jobs, i);
    var f := Freq(jobs[i]);
    SlotStarts(f, GroupSize(jobs, f), Rank(jobs, f, jobs[i].name));
  }

  lemma SlotStarts(f: nat, n: nat, r: nat)
    requires 1 <= f <= 24 && r < n
    ensures var c := Slot(f, n, r);
            forall k | 0 <= k < |c.hours| :: c.hours[k] * 60 + c.minute == r * Stagger(f, n) + k * (24 / f * 60)
  {
    forall k | 0 <= k < |Slot(f, n, r).hours|
      ensures Slot(f, n, r).hours[k] * 60 + Slot(f, n, r).minute == r * Stagger(f, n) + k * (24 / f * 60)
    {
      StartAt(f, n, r, k);
      TimesAssociate(k, Period(f), 60);
    }
  }

  lemma TimesAssociate(a: int, b: int, c: int)
    ensures a * b * c == a * (b * c)
  {
  }

  lemma StartsOfGroupAreApart(jobs: seq<Job>, i: nat, j: nat)
    requires WellFormed(jobs) && i < |jobs| && j < |jobs| && Freq(jobs[i]) == Freq(jobs[j])
    ensures var f := Freq(jobs[i]);
            GroupSize(jobs, f) > 0 && JobsApart(SpreadAll(jobs)[i], SpreadAll(jobs)[j], i == j, Stagger(f, GroupSize(jobs, f)))
  {
    RankIsBelowSize(jobs, i);
    RankIsBelowSize(jobs, j);
    var f := Freq(jobs[i]);
    assert i != j ==> Rank(jobs, f, jobs[i].name) != Rank(jobs, f, jobs[j].name) by {
      if i != j {
        RanksDiffer(jobs, f, i, j);
      }
    }
    SlotsApart(f, GroupSize(jobs, f), Rank(jobs, f, jobs[i].name), Rank(jobs, f, jobs[j].name));
  }

  lemma SlotsApart(f: nat, n: nat, r: nat, q: nat)
    requires 1 <= f <= 24 && r < n && q < n
    ensures var a, b := Slot(f, n, r), Slot(f, n, q);
            forall k, l | 0 <= k < |a.hours| && 0 <= l < |b.hours| && !(r == q && k == l) ::
              Apart(a.hours[k] * 60 + a.minute, b.hours[l] * 60 + b.minute, Stagger(f, n))
  {
    var a, b := Slot(f, n, r), Slot(f, n, q);
    forall k, l | 0 <= k < |a.hours| && 0 <= l < |b.hours| && !(r == q && k == l)
      ensures Apart(a.hours[k] * 60 + a.minute, b.hours[l] * 60 + b.minute, Stagger(f, n))
    {
      StartsAreApart(f, n, r, k, q, l);
    }
  }

  /** No choice of first starts for the jobs of a group separates them further: if its starts,
      repeated every period, are all `e` apart, a run has them at least `e` apart as well. */
  lemma NoLargerDistance(jobs: seq<Job>, f: nat, starts: seq<int>, e: nat, d: nat)
    requires WellFormed(jobs) && 1 <= f <= 24 && GroupSize(jobs, f) > 0
    requires GroupSize(jobs, f) * d <= 24 / f * 60 < GroupSize(jobs, f) * (d + 1)
    requires |starts| == GroupSize(jobs, f) && AllApart(starts, 24 / f * 60, e)
    ensures e <= d
  {
    CircleIsLongEnough(starts, 24 / f * 60, e);
    if e > d {
      MulCancels(d + 1, e, GroupSize(jobs, f));
    }
  }
}
