/** Sums over finite sets, whatever order the elements are visited in. */
module Sums {
  import opened Counting

  ghost function SumOver<T(!new)>(s: set<T>, f: T -> int): int {
    if s == {} then 0
    else
      var x :| x in s;
      f(x) + SumOver(s - {x}, f)
  }

  lemma {:induction false} SumSplitsOff<T(!new)>(s: set<T>, f: T -> int, x: T)
    requires x in s
    ensures SumOver(s, f) == f(x) + SumOver(s - {x}, f)
    decreases |s|
  {
    var y :| y in s && SumOver(s, f) == f(y) + SumOver(s - {y}, f);
    if x != y {
      SumSplitsOff(s - {y}, f, x);
      SumSplitsOff(s - {x}, f, y);
      assert s - {y} - {x} == s - {x} - {y};
    }
  }

  lemma {:induction false} SumOfEqual<T(!new)>(s: set<T>, f: T -> int, g: T -> int)
    requires forall x | x in s :: f(x) == g(x)
    ensures SumOver(s, f) == SumOver(s, g)
    decreases |s|
  {
    if s != {} {
      var x :| x in s;
      SumSplitsOff(s, f, x);
      SumSplitsOff(s, g, x);
      SumOfEqual(s - {x}, f, g);
    }
  }

  /** Changing the summand at one place changes the sum by the difference there. */
  lemma SumChangesAt<T(!new)>(s: set<T>, f: T -> int, g: T -> int, x: T)
    requires x in s && forall y | y in s && y != x :: f(y) == g(y)
    ensures SumOver(s, g) == SumOver(s, f) - f(x) + g(x)
  {
    SumSplitsOff(s, f, x);
    SumSplitsOff(s, g, x);
    SumOfEqual(s - {x}, f, g);
  }

  lemma {:induction false} SumOfZeros<T(!new)>(s: set<T>, f: T -> int)
    requires forall x | x in s :: f(x) == 0
    ensures SumOver(s, f) == 0
    decreases |s|
  {
    if s != {} {
      var x :| x in s;
      SumSplitsOff(s, f, x);
      SumOfZeros(s - {x}, f);
    }
  }

  lemma {:induction false} SumOfConstant<T(!new)>(s: set<T>, f: T -> int, k: int)
    requires forall x | x in s :: f(x) == k
    ensures SumOver(s, f) == |s| * k
    decreases |s|
  {
    if s != {} {
      var x :| x in s;
      SumSplitsOff(s, f, x);
      SumOfConstant(s - {x}, f, k);
      assert |s| * k == (|s| - 1) * k + k;
    }
  }

  lemma SumAdds<T(!new)>(s: set<T>, f: T -> int, x: T)
    requires x !in s
    ensures SumOver(s + {x}, f) == SumOver(s, f) + f(x)
  {
    SumSplitsOff(s + {x}, f, x);
    assert s + {x} - {x} == s;
  }

  lemma VisitAll<T>(all: set<T>)
    ensures all - all == {} && all - {} == all
  {
  }

  lemma VisitOne<T>(all: set<T>, todo: set<T>, x: T)
    requires x in todo && todo <= all
    ensures all - (todo - {x}) == all - todo + {x}
  {
  }

  /** Visiting one more element of `all`, `todo` being those left. */
  lemma SumVisits<T(!new)>(all: set<T>, todo: set<T>, f: T -> int, x: T)
    requires x in todo && todo <= all
    ensures SumOver(all - (todo - {x}), f) == SumOver(all - todo, f) + f(x)
  {
    SumAdds(all - todo, f, x);
    VisitOne(all, todo, x);
  }

  lemma SumStartsAtZero<T(!new)>(all: set<T>, f: T -> int)
    ensures SumOver(all - all, f) == 0 && SumOver(all - {}, f) == SumOver(all, f)
  {
    assert all - {} == all;
  }

  /** Elements without a contribution may be left out. */
  lemma {:induction false} SumWithoutZeros<T(!new)>(s: set<T>, t: set<T>, f: T -> int)
    requires s <= t && forall x | x in t - s :: f(x) == 0
    ensures SumOver(s, f) == SumOver(t, f)
    decreases |t|
  {
    var rest := t - s;
    if rest != {} {
      var x :| x in rest;
      SumSplitsOff(t, f, x);
      SumWithoutZeros(s, t - {x}, f);
    } else {
      assert s == t by {
        assert forall x | x in t :: x in rest || x in s;
      }
    }
  }

  lemma {:induction false} SumOfSums<T(!new)>(s: set<T>, f: T -> int, g: T -> int, h: T -> int)
    requires forall x | x in s :: h(x) == f(x) + g(x)
    ensures SumOver(s, h) == SumOver(s, f) + SumOver(s, g)
    decreases |s|
  {
    if s != {} {
      var x :| x in s;
      SumSplitsOff(s, f, x);
      SumSplitsOff(s, g, x);
      SumSplitsOff(s, h, x);
      SumOfSums(s - {x}, f, g, h);
    }
  }

  /** The elements of `es` that satisfy `p` and have key `k`. */
  function WithKey<E, K(==)>(p: E -> bool, key: E -> K, k: K): E -> bool {
    e => p(e) && key(e) == k
  }

  function KeyCount<E, K(==)>(p: E -> bool, key: E -> K, es: seq<E>): K -> int {
    k => CountIf(WithKey(p, key, k), es)
  }

  /** Counting key by key counts everything once. */
  lemma {:induction false} CountsByKeyAddUp<E, K(!new)>(p: E -> bool, key: E -> K, es: seq<E>, keys: set<K>)
    requires forall i | 0 <= i < |es| && p(es[i]) :: key(es[i]) in keys
    ensures SumOver(keys, KeyCount(p, key, es)) == CountIf(p, es)
  {
    if es == [] {
      SumOfZeros(keys, KeyCount(p, key, es));
    } else {
      var front, e := es[..|es| - 1], es[|es| - 1];
      CountsByKeyAddUp(p, key, front, keys);
      if p(e) {
        SumChangesAt(keys, KeyCount(p, key, front), KeyCount(p, key, es), key(e));
      } else {
        SumOfEqual(keys, KeyCount(p, key, front), KeyCount(p, key, es));
      }
    }
  }

  // ----- sums of reals -----

  ghost function SumOfReals<T(!new)>(s: set<T>, f: T -> real): real {
    if s == {} then 0.0
    else
      var x :| x in s;
      f(x) + SumOfReals(s - {x}, f)
  }

  lemma FirstOfReals<T(!new)>(s: set<T>, g: T -> real) returns (x: T)
    requires s != {}
    ensures x in s && SumOfReals(s, g) == g(x) + SumOfReals(s - {x}, g)
  {
    x :| x in s && SumOfReals(s, g) == g(x) + SumOfReals(s - {x}, g);
  }

  ghost predicate Additive(scale: int -> real) {
    scale(0) == 0.0 && forall a, b, c | c == a + b :: scale(c) == scale(a) + scale(b)
  }

  lemma ScaleAdds(scale: int -> real, a: int, b: int, c: int)
    requires Additive(scale) && c == a + b
    ensures scale(0) == 0.0 && scale(c) == scale(a) + scale(b)
  {
  }

  lemma ImageOfSum<T(!new)>(s: set<T>, f: T -> int, scale: int -> real, x: T)
    requires Additive(scale) && x in s
    ensures scale(SumOver(s, f)) == scale(f(x)) + scale(SumOver(s - {x}, f))
  {
    SumSplitsOff(s, f, x);
    ScaleAdds(scale, f(x), SumOver(s - {x}, f), SumOver(s, f));
  }

  /** An additive function of every summand applies to the sum. */
  lemma {:induction false} SumOfImages<T(!new)>(s: set<T>, f: T -> int, scale: int -> real, g: T -> real)
    requires Additive(scale) && forall x | x in s :: g(x) == scale(f(x))
    ensures SumOfReals(s, g) == scale(SumOver(s, f))
    decreases |s|
  {
    if s == {} {
      ScaleAdds(scale, 0, 0, 0);
    } else {
      var x := FirstOfReals(s, g);
      SumOfImages(s - {x}, f, scale, g);
      ImageOfSum(s, f, scale, x);
    }
  }
}
