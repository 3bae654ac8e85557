/** When a single run of the spreader already reaches its fixed point. */
module SpreadFixedPoint {
  import opened Strings
  import opened Counting
  import opened SpreadModel
  import opened SpreadRuns

  function RoundsTo(r: nat): Job -> bool {
    j => 1 <= Freq(j) <= 24 && Rounded(Freq(j)) == r
  }

  /** How many jobs the second run finds at frequency `r`. */
  function MergedSize(jobs: seq<Job>, r: nat): nat {
    CountIf(RoundsTo(r), jobs)
  }

  /** Jobs `i` and `j` are in different groups before the first run and in one group after it. */
  ghost predicate Merge(jobs: seq<Job>, i: nat, j: nat)
    requires WellFormed(jobs) && i < |jobs| && j < |jobs|
  {
    Freq(jobs[i]) != Freq(jobs[j]) && Rounded(Freq(jobs[i])) == Rounded(Freq(jobs[j]))
  }

  /** All starts of the group of job `i` are at offset 0, alone and when merged. */
  ghost predicate StaysAtZero(jobs: seq<Job>, i: nat)
    requires WellFormed(jobs) && i < |jobs|
  {
    var f := Freq(jobs[i]);
    var r := Rounded(f);
    && MergedSize(jobs, r) > 0 && GroupSize(jobs, f) > 0
    && Stagger(r, MergedSize(jobs, r)) == 0
    && (GroupSize(jobs, f) == 1 || Stagger(f, GroupSize(jobs, f)) == 0)
  }

  // ----- slots and offsets -----

  lemma SlotsAgree(f: nat, n: nat, i: nat, g: nat, m: nat, j: nat)
    requires 1 <= f <= 24 && i < n && 1 <= g <= 24 && j < m && Period(f) == Period(g)
    ensures Slot(f, n, i) == Slot(g, m, j) <==> Offset(f, n, i) == Offset(g, m, j)
  {
    SlotIsEven(f, n, i);
    SlotIsEven(g, m, j);
    StartAt(f, n, i, 0);
    StartAt(g, m, j, 0);
  }

  lemma ZeroOffset(f: nat, n: nat, i: nat)
    requires 1 <= f <= 24 && i < n
    ensures Offset(f, n, i) == 0 <==> i == 0 || Stagger(f, n) == 0
  {
    var st := Stagger(f, n);
    if i > 0 && st > 0 {
      assert i * st >= 1 * st;
    }
  }

  // ----- ranks -----

  lemma RanksDiffer(jobs: seq<Job>, f: nat, i: nat, j: nat)
    requires i < |jobs| && j < |jobs| && jobs[i].name != jobs[j].name
    requires Freq(jobs[i]) == f && Freq(jobs[j]) == f
    ensures Rank(jobs, f, jobs[i].name) != Rank(jobs, f, jobs[j].name)
  {
    LessIsTotal(jobs[i].name, jobs[j].name);
    if Less(jobs[i].name, jobs[j].name) {
      EarlierRank(jobs, f, i, j);
    } else {
      EarlierRank(jobs, f, j, i);
    }
  }

  lemma EarlierRank(jobs: seq<Job>, f: nat, i: nat, j: nat)
    requires i < |jobs| && j < |jobs| && Less(jobs[i].name, jobs[j].name) && Freq(jobs[i]) == f
    ensures Rank(jobs, f, jobs[i].name) < Rank(jobs, f, jobs[j].name)
  {
    var a, b := jobs[i].name, jobs[j].name;
    if Less(a, a) {
      LessIsAsymmetric(a, a);
    }
    forall k | 0 <= k < |jobs| && NamedBefore(f, a)(jobs[k])
      ensures NamedBefore(f, b)(jobs[k])
    {
      LessIsTransitive(jobs[k].name, a, b);
    }
    CountIfWeaker(NamedBefore(f, a), NamedBefore(f, b), jobs);
  }

  /** Every group has a first job. */
  lemma {:induction false} FirstOfGroup(jobs: seq<Job>, i: nat) returns (j: nat)
    requires i < |jobs|
    ensures j < |jobs| && Freq(jobs[j]) == Freq(jobs[i])
    ensures Rank(jobs, Freq(jobs[j]), jobs[j].name) == 0
    decreases Rank(jobs, Freq(jobs[i]), jobs[i].name)
  {
    var f := Freq(jobs[i]);
    CountIfBound(NamedBefore(f, jobs[i].name), jobs);
    if Rank(jobs, f, jobs[i].name) == 0 {
      j := i;
    } else {
      var k :| 0 <= k < |jobs| && NamedBefore(f, jobs[i].name)(jobs[k]);
      EarlierRank(jobs, f, k, i);
      j := FirstOfGroup(jobs, k);
    }
  }

  /** A group of several jobs has one that is not the first. */
  lemma LaterInGroup(jobs: seq<Job>, f: nat) returns (j: nat)
    requires WellFormed(jobs) && GroupSize(jobs, f) > 1
    ensures j < |jobs| && Freq(jobs[j]) == f && Rank(jobs, f, jobs[j].name) > 0
  {
    if forall i, k | 0 <= i < k < |jobs| :: !(HasFreq(f)(jobs[i]) && HasFreq(f)(jobs[k])) {
      OnceCountsOne(HasFreq(f), jobs);
    }
    var i, k :| 0 <= i < k < |jobs| && HasFreq(f)(jobs[i]) && HasFreq(f)(jobs[k]);
    RanksDiffer(jobs, f, i, k);
    j := if Rank(jobs, f, jobs[i].name) > 0 then i else k;
  }

  // ----- a job in the first and in the second run -----

  /** The offset of job `k` after one run. */
  function OffsetOnce(jobs: seq<Job>, k: nat): nat
    requires k < |jobs| && 1 <= Freq(jobs[k]) <= 24
  {
    RankIsBelowSize(jobs, k);
    var f := Freq(jobs[k]);
    Offset(f, GroupSize(jobs, f), Rank(jobs, f, jobs[k].name))
  }

  lemma AtZeroIff(jobs: seq<Job>, k: nat)
    requires k < |jobs| && 1 <= Freq(jobs[k]) <= 24
    ensures var f := Freq(jobs[k]);
            && GroupSize(jobs, f) > 0
            && (OffsetOnce(jobs, k) == 0 <==> Rank(jobs, f, jobs[k].name) == 0 || Stagger(f, GroupSize(jobs, f)) == 0)
  {
    RankIsBelowSize(jobs, k);
    var f := Freq(jobs[k]);
    ZeroOffset(f, GroupSize(jobs, f), Rank(jobs, f, jobs[k].name));
  }

  /** Its schedule stays the same in the second run if its offset does. */
  lemma SameSlotIff(jobs: seq<Job>, k: nat)
    requires WellFormed(jobs) && WellFormed(SpreadAll(jobs)) && k < |jobs|
    ensures SpreadAll(SpreadAll(jobs))[k] == SpreadAll(jobs)[k] <==> OffsetOnce(SpreadAll(jobs), k) == OffsetOnce(jobs, k)
  {
    var once := SpreadAll(jobs);
    SpreadRounds(jobs);
    RankIsBelowSize(jobs, k);
    RankIsBelowSize(once, k);
    var f, r := Freq(jobs[k]), Freq(once[k]);
    SlotsAgree(r, GroupSize(once, r), Rank(once, r, once[k].name), f, GroupSize(jobs, f), Rank(jobs, f, jobs[k].name));
  }

  lemma MergedGroupSize(jobs: seq<Job>, k: nat)
    requires WellFormed(jobs) && k < |jobs|
    ensures var r := Rounded(Freq(jobs[k]));
            Freq(SpreadAll(jobs)[k]) == r && GroupSize(SpreadAll(jobs), r) == MergedSize(jobs, r)
  {
    SpreadRounds(jobs);
    var r := Rounded(Freq(jobs[k]));
    CountIfPointwise(HasFreq(r), SpreadAll(jobs), RoundsTo(r), jobs);
  }

  /** A job whose group does not merge keeps its offset. */
  lemma UnmergedKeepsItsOffset(jobs: seq<Job>, k: nat)
    requires WellFormed(jobs) && WellFormed(SpreadAll(jobs)) && k < |jobs|
    requires forall j: nat | j < |jobs| :: !Merge(jobs, k, j)
    ensures OffsetOnce(SpreadAll(jobs), k) == OffsetOnce(jobs, k)
  {
    var once := SpreadAll(jobs);
    SpreadRounds(jobs);
    forall i | 0 <= i < |jobs|
      ensures Freq(once[i]) == Freq(once[k]) <==> Freq(jobs[i]) == Freq(jobs[k])
    {
      assert !Merge(jobs, k, i);
    }
    SameGroups(once, jobs, k);
  }

  lemma AtZeroKeepsItsOffset(jobs: seq<Job>, k: nat)
    requires WellFormed(jobs) && WellFormed(SpreadAll(jobs)) && k < |jobs| && StaysAtZero(jobs, k)
    ensures OffsetOnce(SpreadAll(jobs), k) == OffsetOnce(jobs, k) == 0
  {
    var once := SpreadAll(jobs);
    MergedGroupSize(jobs, k);
    AtZeroIff(jobs, k);
    AtZeroIff(once, k);
    RankIsBelowSize(jobs, k);
  }

  /** In a merged group one of the former firsts is not first any more; if it keeps its offset, all
      offsets of the merged group are 0. */
  lemma MergedStaggerIsZero(jobs: seq<Job>, i: nat, j: nat)
    requires WellFormed(jobs) && WellFormed(SpreadAll(jobs)) && i < |jobs| && j < |jobs| && Merge(jobs, i, j)
    requires forall k: nat | k < |jobs| :: OffsetOnce(SpreadAll(jobs), k) == OffsetOnce(jobs, k)
    ensures var r := Rounded(Freq(jobs[i])); MergedSize(jobs, r) > 0 && Stagger(r, MergedSize(jobs, r)) == 0
  {
    var once := SpreadAll(jobs);
    var a := FirstOfGroup(jobs, i);
    var b := FirstOfGroup(jobs, j);
    MergedGroupSize(jobs, a);
    MergedGroupSize(jobs, b);
    var r := Rounded(Freq(jobs[i]));
    RanksDiffer(once, r, a, b);
    var c := if Rank(once, r, once[a].name) > 0 then a else b;
    AtZeroIff(jobs, c);
    AtZeroIff(once, c);
    assert OffsetOnce(once, c) == OffsetOnce(jobs, c) == 0;
  }

  lemma MergingStaysAtZero(jobs: seq<Job>, i: nat, j: nat)
    requires WellFormed(jobs) && WellFormed(SpreadAll(jobs)) && i < |jobs| && j < |jobs| && Merge(jobs, i, j)
    requires forall k: nat | k < |jobs| :: OffsetOnce(SpreadAll(jobs), k) == OffsetOnce(jobs, k)
    ensures StaysAtZero(jobs, i)
  {
    MergedStaggerIsZero(jobs, i, j);
    AtZeroIff(jobs, i);
    var once, f := SpreadAll(jobs), Freq(jobs[i]);
    if GroupSize(jobs, f) > 1 {
      var k := LaterInGroup(jobs, f);
      MergedGroupSize(jobs, k);
      AtZeroIff(jobs, k);
      AtZeroIff(once, k);
      assert OffsetOnce(once, k) == OffsetOnce(jobs, k);
    }
  }

  /** One run reaches the fixed point if and only if every group that merges with another one has
      all its starts at offset 0, before and after. */
  lemma OneRunSufficesIff(jobs: seq<Job>)
    requires WellFormed(jobs)
    ensures WellFormed(SpreadAll(jobs))
    ensures SpreadAll(SpreadAll(jobs)) == SpreadAll(jobs) <==>
            forall i: nat, j: nat | i < |jobs| && j < |jobs| && Merge(jobs, i, j) :: StaysAtZero(jobs, i)
  {
    var once := SpreadAll(jobs);
    SpreadRounds(jobs);
    forall k: nat | k < |jobs|
      ensures SpreadAll(once)[k] == once[k] <==> OffsetOnce(once, k) == OffsetOnce(jobs, k)
    {
      SameSlotIff(jobs, k);
    }
    if SpreadAll(once) == once {
      forall i: nat, j: nat | i < |jobs| && j < |jobs| && Merge(jobs, i, j)
        ensures StaysAtZero(jobs, i)
      {
        MergingStaysAtZero(jobs, i, j);
      }
    }
    if forall i: nat, j: nat | i < |jobs| && j < |jobs| && Merge(jobs, i, j) :: StaysAtZero(jobs, i) {
      forall k: nat | k < |jobs|
        ensures OffsetOnce(once, k) == OffsetOnce(jobs, k)
      {
        if j: nat :| j < |jobs| && Merge(jobs, k, j) {
          AtZeroKeepsItsOffset(jobs, k);
        } else {
          UnmergedKeepsItsOffset(jobs, k);
        }
      }
    }
  }
}
