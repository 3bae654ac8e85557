/** Counting the elements of a sequence that satisfy a predicate. */
module Counting {
  lemma TakeNext<T>(s: seq<T>, i: nat)
    requires i < |s|
    ensures s[..i + 1] == s[..i] + [s[i]]
  {
  }

  lemma TakeNextAfter<T>(done: seq<T>, s: seq<T>, i: nat)
    requires i < |s|
    ensures done + s[..i + 1] == done + s[..i] + [s[i]]
  {
  }

  function CountIf<T>(p: T -> bool, s: seq<T>): nat {
    if s == [] then 0 else CountIf(p, s[..|s| - 1]) + (if p(s[|s| - 1]) then 1 else 0)
  }

  lemma {:induction false} CountIfConcat<T>(p: T -> bool, a: seq<T>, b: seq<T>)
    ensures CountIf(p, a + b) == CountIf(p, a) + CountIf(p, b)
  {
    if b == [] {
      assert a + b == a;
    } else {
      assert (a + b)[..|a + b| - 1] == a + b[..|b| - 1];
      CountIfConcat(p, a, b[..|b| - 1]);
    }
  }

  lemma CountIfTwo<T>(p: T -> bool, x: T, y: T)
    ensures CountIf(p, [x, y]) == (if p(x) then 1 else 0) + (if p(y) then 1 else 0)
  {
    CountIfConcat(p, [x], [y]);
    assert [x] + [y] == [x, y];
    assert forall z: T :: [z][..0] == [];
  }

  lemma CountIfSplit<T>(p: T -> bool, s: seq<T>, i: nat)
    requires i < |s|
    ensures CountIf(p, s) == CountIf(p, s[..i]) + (if p(s[i]) then 1 else 0) + CountIf(p, s[i + 1..])
  {
    assert s == s[..i + 1] + s[i + 1..];
    assert s[..i + 1][..i] == s[..i];
    CountIfConcat(p, s[..i + 1], s[i + 1..]);
  }

  lemma WithoutAt<T>(s: seq<T>, i: nat)
    requires i < |s|
    ensures multiset(s[..i] + s[i + 1..]) == multiset(s) - multiset{s[i]}
  {
    assert s == s[..i] + [s[i]] + s[i + 1..];
  }

  lemma {:induction false} CountIfPermutation<T>(p: T -> bool, a: seq<T>, b: seq<T>)
    requires multiset(a) == multiset(b)
    ensures CountIf(p, a) == CountIf(p, b)
    decreases |a|
  {
    assert |a| == |multiset(a)| == |multiset(b)| == |b|;
    if a != [] {
      var last := |a| - 1;
      assert a[last] in multiset(b);
      var i :| 0 <= i < |b| && b[i] == a[last];
      WithoutAt(a, last);
      WithoutAt(b, i);
      assert a[..last] + a[last + 1..] == a[..last];
      CountIfPermutation(p, a[..last], b[..i] + b[i + 1..]);
      CountIfSplit(p, b, i);
      CountIfConcat(p, b[..i], b[i + 1..]);
    }
  }

  lemma {:induction false} CountIfPointwise<T, U>(p: T -> bool, a: seq<T>, q: U -> bool, b: seq<U>)
    requires |a| == |b| && forall i | 0 <= i < |a| :: p(a[i]) == q(b[i])
    ensures CountIf(p, a) == CountIf(q, b)
  {
    if a != [] {
      CountIfPointwise(p, a[..|a| - 1], q, b[..|b| - 1]);
    }
  }

  lemma {:induction false} CountIfBound<T>(p: T -> bool, s: seq<T>)
    ensures CountIf(p, s) <= |s|
    ensures CountIf(p, s) == 0 <==> forall i | 0 <= i < |s| :: !p(s[i])
    ensures CountIf(p, s) == |s| <==> forall i | 0 <= i < |s| :: p(s[i])
  {
    if s != [] {
      CountIfBound(p, s[..|s| - 1]);
      assert forall i | 0 <= i < |s| - 1 :: s[..|s| - 1][i] == s[i];
    }
  }

  lemma {:induction false} CountIfWeaker<T>(p: T -> bool, q: T -> bool, s: seq<T>)
    requires forall i | 0 <= i < |s| :: p(s[i]) ==> q(s[i])
    ensures CountIf(p, s) <= CountIf(q, s)
    ensures (exists i | 0 <= i < |s| :: q(s[i]) && !p(s[i])) ==> CountIf(p, s) < CountIf(q, s)
  {
    if s != [] {
      CountIfWeaker(p, q, s[..|s| - 1]);
      if i :| 0 <= i < |s| && q(s[i]) && !p(s[i]) {
        assert i < |s| - 1 ==> s[..|s| - 1][i] == s[i];
      }
    }
  }

  lemma {:induction false} CountIfPrefix<T>(p: T -> bool, s: seq<T>, i: nat)
    requires i <= |s| && forall k | 0 <= k < |s| :: p(s[k]) <==> k < i
    ensures CountIf(p, s) == i
  {
    if s != [] {
      CountIfPrefix(p, s[..|s| - 1], if i == |s| then i - 1 else i);
    }
  }

  function Filter<T(!new)>(p: T -> bool, s: seq<T>): (r: seq<T>)
    ensures forall x :: x in r <==> x in s && p(x)
  {
    if s == [] then []
    else
      assert forall x :: x in s <==> x in s[..|s| - 1] || x == s[|s| - 1];
      Filter(p, s[..|s| - 1]) + (if p(s[|s| - 1]) then [s[|s| - 1]] else [])
  }

  /** Filtering does not change the count of anything narrower. */
  lemma {:induction false} CountIfFilter<T(!new)>(p: T -> bool, q: T -> bool, s: seq<T>)
    requires forall x :: q(x) ==> p(x)
    ensures CountIf(q, Filter(p, s)) == CountIf(q, s)
  {
    if s != [] {
      var front, x := s[..|s| - 1], s[|s| - 1];
      CountIfFilter(p, q, front);
      CountIfConcat(q, Filter(p, front), if p(x) then [x] else []);
    }
  }

  lemma {:induction false} FilterLength<T(!new)>(p: T -> bool, s: seq<T>)
    ensures |Filter(p, s)| == CountIf(p, s)
  {
    if s != [] {
      FilterLength(p, s[..|s| - 1]);
    }
  }

  ghost predicate DistinctBy<T, K>(key: T -> K, s: seq<T>) {
    forall i, j | 0 <= i < j < |s| :: key(s[i]) != key(s[j])
  }

  lemma TwiceCountsTwo<T>(p: T -> bool, s: seq<T>, i: nat, j: nat)
    requires i < j < |s| && p(s[i]) && p(s[j])
    ensures CountIf(p, s) >= 2
  {
    CountIfSplit(p, s, j);
    CountIfSplit(p, s[..j], i);
  }

  lemma {:induction false} OnceCountsOne<T>(p: T -> bool, s: seq<T>)
    requires forall i, j | 0 <= i < j < |s| :: !(p(s[i]) && p(s[j]))
    ensures CountIf(p, s) <= 1
  {
    if s != [] {
      OnceCountsOne(p, s[..|s| - 1]);
      if p(s[|s| - 1]) {
        CountIfBound(p, s[..|s| - 1]);
      }
    }
  }

  /** Reordering keeps keys distinct. */
  lemma DistinctSurvivesReordering<T, K>(key: T -> K, a: seq<T>, b: seq<T>)
    requires DistinctBy(key, a) && multiset(a) == multiset(b)
    ensures DistinctBy(key, b)
  {
    forall i, j | 0 <= i < j < |b|
      ensures key(b[i]) != key(b[j])
    {
      var p := (x: T) => key(x) == key(b[i]);
      CountIfPermutation(p, a, b);
      OnceCountsOne(p, a);
      if p(b[j]) {
        TwiceCountsTwo(p, b, i, j);
      }
    }
  }

  lemma {:induction false} DistinctSurvivesFilter<T(!new), K>(key: T -> K, p: T -> bool, s: seq<T>)
    requires DistinctBy(key, s)
    ensures DistinctBy(key, Filter(p, s))
  {
    if s != [] {
      var front, last := s[..|s| - 1], s[|s| - 1];
      DistinctSurvivesFilter(key, p, front);
      var kept := Filter(p, front);
      forall i | 0 <= i < |kept|
        ensures key(kept[i]) != key(last)
      {
        assert kept[i] in front;
      }
    }
  }

  ghost predicate NoDuplicates<T>(s: seq<T>) {
    forall i, j | 0 <= i < j < |s| :: s[i] != s[j]
  }

  lemma {:induction false} MultiplicityOfDistinct<T>(s: seq<T>, x: T)
    requires NoDuplicates(s)
    ensures multiset(s)[x] == if x in s then 1 else 0
  {
    if s != [] {
      var front, last := s[..|s| - 1], s[|s| - 1];
      assert s == front + [last];
      MultiplicityOfDistinct(front, x);
    }
  }

  lemma DistinctSameElements<T>(a: seq<T>, b: seq<T>)
    requires NoDuplicates(a) && NoDuplicates(b)
    requires forall x :: x in a <==> x in b
    ensures multiset(a) == multiset(b)
  {
    forall x
      ensures multiset(a)[x] == multiset(b)[x]
    {
      MultiplicityOfDistinct(a, x);
      MultiplicityOfDistinct(b, x);
    }
  }
}
