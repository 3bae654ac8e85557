/** Spreading periodic jobs over the day: what one run of the tool does to the schedules. */
module SpreadModel {

  datatype CronInfo = CronInfo(minute: int, hours: seq<int>)

  datatype Job = Job(name: string, cron: CronInfo)

  /** How often a job runs per day. */
  function Freq(j: Job): nat {
    |j.cron.hours|
  }

  // ----- one job's slot -----

  function Period(f: nat): nat
    requires 1 <= f <= 24
  {
    24 / f
  }

  function Stagger(f: nat, n: nat): nat
    requires 1 <= f <= 24 && n > 0
  {
    Period(f) * 60 / n
  }

  /** start, start + period, ... below 24 */
  function Hours(start: nat, period: nat): seq<int>
    requires period > 0
    decreases 24 - start
  {
    if start >= 24 then [] else [start] + Hours(start + period, period)
  }

  /** The schedule of job number `i` of `n` jobs with frequency `f`. */
  function Slot(f: nat, n: nat, i: nat): CronInfo
    requires 1 <= f <= 24 && n > 0
  {
    PeriodIsAPart(f);
    var offset := i * Stagger(f, n);
    CronInfo(offset % 60, Hours(offset / 60, Period(f)))
  }

  // ----- arithmetic of the period -----

  lemma MulCancels(a: int, b: int, p: int)
    requires p > 0
    ensures a * p < b * p <==> a < b
    ensures a * p <= b * p <==> a <= b
  {
  }

  /** The period is a whole part of the day even when the frequency is not. */
  lemma PeriodIsAPart(f: nat)
    requires 1 <= f <= 24
    ensures Period(f) == if f == 1 then 24 else if f == 2 then 12 else if f == 3 then 8 else if f == 4 then 6
                         else if f <= 6 then 4 else if f <= 8 then 3 else if f <= 12 then 2 else 1
  {
  }

  /** The frequency after a run: runs per day at the rounded-down period. */
  function Rounded(f: nat): (r: nat)
    requires 1 <= f <= 24
    ensures 1 <= r <= 24 && f <= r
    ensures Period(r) == Period(f)
    ensures r * Period(f) == 24
  {
    PeriodIsAPart(f);
    var r := 24 / Period(f);
    PeriodIsAPart(r);
    r
  }

  lemma RoundedTwice(f: nat)
    requires 1 <= f <= 24
    ensures Rounded(Rounded(f)) == Rounded(f)
    ensures 24 % f == 0 <==> Rounded(f) == f
  {
    PeriodIsAPart(f);
  }

  // ----- properties of a slot -----

  lemma {:induction false} HourAt(start: nat, period: nat, k: nat)
    requires period > 0 && k < |Hours(start, period)|
    ensures Hours(start, period)[k] == start + k * period < 24
    decreases k
  {
    if k > 0 {
      HourAt(start + period, period, k - 1);
      assert k * period == (k - 1) * period + period;
    }
  }

  lemma {:induction false} HoursReachMidnight(start: nat, period: nat)
    requires period > 0
    ensures start + |Hours(start, period)| * period >= 24
    decreases 24 - start
  {
    if start < 24 {
      HoursReachMidnight(start + period, period);
      var n := |Hours(start + period, period)|;
      assert (n + 1) * period == n * period + period;
    }
  }

  lemma Fits(bound: nat, st: nat, n: nat, i: nat)
    requires i < n && n * st <= bound
    ensures i * st + st <= bound
  {
    assert (i + 1) * st == i * st + st;
    assert (i + 1) * st <= n * st;
  }

  /** The interval is the largest whole number of minutes that fits the period once for every job. */
  lemma StaggerIsLargest(f: nat, n: nat)
    requires 1 <= f <= 24 && n > 0
    ensures n * Stagger(f, n) <= 24 / f * 60 < n * (Stagger(f, n) + 1)
  {
    var st := Stagger(f, n);
    assert n * (st + 1) == n * st + n;
  }

  lemma StaggerFits(f: nat, n: nat, i: nat)
    requires 1 <= f <= 24 && i < n
    ensures i * Stagger(f, n) + Stagger(f, n) <= Period(f) * 60
    ensures i * Stagger(f, n) < Period(f) * 60
  {
    PeriodIsAPart(f);
    var st := Stagger(f, n);
    assert n * st <= Period(f) * 60;
    Fits(Period(f) * 60, st, n, i);
    assert st == 0 ==> i * st == 0;
  }

  /** Every job gets exactly Rounded(f) starts, one period apart all around the clock, the first
      one at its stagger offset. */
  lemma SlotIsEven(f: nat, n: nat, i: nat)
    requires 1 <= f <= 24 && i < n
    ensures var c := Slot(f, n, i);
            && |c.hours| == Rounded(f)
            && 0 <= c.minute < 60
            && (forall k | 0 <= k < |c.hours| :: 0 <= c.hours[k] < 24)
            && (forall k | 0 <= k < |c.hours| :: c.hours[k] * 60 + c.minute == i * Stagger(f, n) + k * Period(f) * 60)
            && c.hours[0] + 24 - c.hours[|c.hours| - 1] == Period(f)
  {
    PeriodIsAPart(f);
    StaggerFits(f, n, i);
    var offset, p := i * Stagger(f, n), Period(f);
    HoursCount(offset / 60, p, Rounded(f));
    var hours := Slot(f, n, i).hours;
    assert (Rounded(f) - 1) * p == 24 - p;
    forall k | 0 <= k < |hours|
      ensures 0 <= hours[k] < 24 && hours[k] * 60 + offset % 60 == offset + k * p * 60
    {
      HourAt(offset / 60, p, k);
    }
  }

  lemma HoursCount(start: nat, p: nat, q: nat)
    requires start < p <= 24 && q * p == 24
    ensures |Hours(start, p)| == q
  {
    var n := |Hours(start, p)|;
    assert q < n + 1 by {
      HoursReachMidnight(start, p);
      assert (n + 1) * p == n * p + p;
      MulCancels(q, n + 1, p);
    }
    assert n - 1 < q by {
      HourAt(start, p, n - 1);
      MulCancels(n - 1, q, p);
    }
  }

  /** On the 1440-minute circle. */
  predicate Apart(t: int, u: int, distance: int) {
    (t - u) % 1440 >= distance && (u - t) % 1440 >= distance
  }

  /** The first start of job `i`. */
  function Offset(f: nat, n: nat, i: nat): nat
    requires 1 <= f <= 24 && i < n
  {
    i * Stagger(f, n)
  }

  /** Where on the circle start `k` of job `i` is. */
  lemma StartAt(f: nat, n: nat, i: nat, k: nat)
    requires 1 <= f <= 24 && i < n && k < |Slot(f, n, i).hours|
    ensures var c := Slot(f, n, i);
            c.hours[k] * 60 + c.minute == Offset(f, n, i) + k * Period(f) * 60
    ensures k * Period(f) < 24
    ensures Offset(f, n, i) + Stagger(f, n) <= Period(f) * 60
  {
    SlotIsEven(f, n, i);
    HourInDay(f, k);
    StaggerFits(f, n, i);
  }

  /** Any two different starts in a group are at least the stagger interval apart. */
  lemma StartsAreApart(f: nat, n: nat, i: nat, k: nat, j: nat, l: nat)
    requires 1 <= f <= 24 && i < n && j < n && (i != j || k != l)
    requires k < |Slot(f, n, i).hours| && l < |Slot(f, n, j).hours|
    ensures var a, b := Slot(f, n, i), Slot(f, n, j);
            Apart(a.hours[k] * 60 + a.minute, b.hours[l] * 60 + b.minute, Stagger(f, n))
  {
    StartAt(f, n, i, k);
    StartAt(f, n, j, l);
    OffsetsDiffer(f, n, i, j);
    PeriodIsAPart(f);
    PositionsApart(Period(f), Offset(f, n, i), k, Offset(f, n, j), l, Stagger(f, n));
  }

  lemma HourInDay(f: nat, k: nat)
    requires 1 <= f <= 24 && k < Rounded(f)
    ensures k * Period(f) < 24
  {
    PeriodIsAPart(f);
    Fits(24, Period(f), Rounded(f), k);
  }

  lemma OffsetsDiffer(f: nat, n: nat, i: nat, j: nat)
    requires 1 <= f <= 24 && i < n && j < n
    ensures i < j ==> Offset(f, n, j) - Offset(f, n, i) >= Stagger(f, n)
    ensures j < i ==> Offset(f, n, i) - Offset(f, n, j) >= Stagger(f, n)
  {
    var st := Stagger(f, n);
    if i < j {
      Fits(j * st, st, j, i);
    } else if j < i {
      Fits(i * st, st, i, j);
    }
  }

  lemma PositionsApart(p: nat, a: nat, k: nat, b: nat, l: nat, st: nat)
    requires p in {1, 2, 3, 4, 6, 8, 12, 24}
    requires a + st <= p * 60 && b + st <= p * 60 && k * p < 24 && l * p < 24
    requires a - b >= st || b - a >= st || k != l
    ensures Apart(a + k * p * 60, b + l * p * 60, st)
  {
    var x := a + k * p * 60 - (b + l * p * 60);
    assert st == 0 || st <= x <= 1440 - st || st <= -x <= 1440 - st by {
      if p == 1 {
      } else if p == 2 {
      } else if p == 3 {
      } else if p == 4 {
      } else if p == 6 {
      } else if p == 8 {
      } else if p == 12 {
      } else {
      }
    }
    Around(x, st);
  }

  lemma Around(x: int, st: nat)
    requires st == 0 || st <= x <= 1440 - st || st <= -x <= 1440 - st
    ensures x % 1440 >= st && (-x) % 1440 >= st
  {
  }
}
