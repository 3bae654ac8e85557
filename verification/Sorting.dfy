/** Sorting as Go's `sort` package promises it: an ordered permutation, nothing about ties. */
module Sorting {
  import opened Strings

  ghost predicate TotalPreorder<T(!new)>(le: (T, T) -> bool) {
    && (forall a, b :: le(a, b) || le(b, a))
    && (forall a, b, c :: le(a, b) && le(b, c) ==> le(a, c))
  }

  /** `le` separates any two different elements of `s`. */
  ghost predicate AntisymmetricOn<T>(le: (T, T) -> bool, s: seq<T>) {
    forall a, b | a in s && b in s && le(a, b) && le(b, a) :: a == b
  }

  ghost predicate Ordered<T>(le: (T, T) -> bool, s: seq<T>) {
    forall i, j | 0 <= i < j < |s| :: le(s[i], s[j])
  }

  ghost predicate IsSortOf<T>(le: (T, T) -> bool, r: seq<T>, s: seq<T>) {
    Ordered(le, r) && multiset(r) == multiset(s)
  }

  lemma MultisetMembers<T>(a: seq<T>, b: seq<T>)
    requires multiset(a) == multiset(b)
    ensures |a| == |b|
    ensures forall x :: x in a <==> x in b
  {
    assert |a| == |multiset(a)| == |multiset(b)| == |b|;
    forall x
      ensures x in a <==> x in b
    {
      assert x in a <==> x in multiset(a);
      assert x in b <==> x in multiset(b);
    }
  }

  function Insert<T(!new)>(le: (T, T) -> bool, x: T, s: seq<T>): (r: seq<T>)
    requires TotalPreorder(le)
    requires Ordered(le, s)
    ensures Ordered(le, r)
    ensures multiset(r) == multiset(s) + multiset{x}
  {
    if s == [] then [x]
    else if le(x, s[0]) then
      assert forall j | 0 <= j < |s| :: le(x, s[j]) by {
        forall j | 0 <= j < |s|
          ensures le(x, s[j])
        {
          assert j > 0 ==> le(s[0], s[j]);
        }
      }
      [x] + s
    else
      var t := Insert(le, x, s[1..]);
      assert s == [s[0]] + s[1..];
      assert forall j | 0 <= j < |t| :: le(s[0], t[j]) by {
        forall j | 0 <= j < |t|
          ensures le(s[0], t[j])
        {
          assert t[j] in multiset(t);
          assert t[j] == x || t[j] in multiset(s[1..]);
        }
      }
      [s[0]] + t
  }

  /** Any total preorder can be sorted by; callers may only use the contract. */
  function Sort<T(!new)>(le: (T, T) -> bool, s: seq<T>): (r: seq<T>)
    requires TotalPreorder(le)
    ensures IsSortOf(le, r, s)
  {
    if s == [] then []
    else
      assert s == [s[0]] + s[1..];
      Insert(le, s[0], Sort(le, s[1..]))
  }

  lemma LeastFirst<T>(le: (T, T) -> bool, a: seq<T>, x: T)
    requires Ordered(le, a) && x in a
    ensures x == a[0] || le(a[0], x)
  {
  }

  /** When the order separates the elements, every correct sort returns the same list: the
      algorithm and the order of the input do not matter. */
  lemma {:induction false} SortIsUnique<T>(le: (T, T) -> bool, a: seq<T>, b: seq<T>)
    requires multiset(a) == multiset(b)
    requires Ordered(le, a) && Ordered(le, b)
    requires AntisymmetricOn(le, a)
    ensures a == b
  {
    MultisetMembers(a, b);
    if a != [] {
      LeastFirst(le, a, b[0]);
      LeastFirst(le, b, a[0]);
      SortIsUniqueTail(le, a, b);
      SortIsUnique(le, a[1..], b[1..]);
    }
  }

  lemma SortIsUniqueTail<T>(le: (T, T) -> bool, a: seq<T>, b: seq<T>)
    requires a != [] && b != [] && a[0] == b[0]
    requires multiset(a) == multiset(b)
    ensures multiset(a[1..]) == multiset(b[1..])
    ensures a == [a[0]] + a[1..] && b == [b[0]] + b[1..]
  {
    assert a == [a[0]] + a[1..] && b == [b[0]] + b[1..];
    assert multiset(a[1..]) == multiset(a) - multiset{a[0]};
    assert multiset(b[1..]) == multiset(b) - multiset{b[0]};
  }

  predicate IntLe(a: int, b: int) {
    a <= b
  }

  function SortInts(s: seq<int>): (r: seq<int>)
    ensures IsSortOf(IntLe, r, s)
  {
    Sort(IntLe, s)
  }

  lemma AtMostIsTotal()
    ensures TotalPreorder(AtMost)
  {
    forall a: string, b: string
      ensures AtMost(a, b) || AtMost(b, a)
    {
      if Less(a, b) {
        LessIsAsymmetric(a, b);
      }
    }
    forall a: string, b: string, c: string | AtMost(a, b) && AtMost(b, c)
      ensures AtMost(a, c)
    {
      if Less(c, a) {
        LessIsTotal(a, b);
        if Less(a, b) {
          LessIsTransitive(c, a, b);
        }
      }
    }
  }
}
