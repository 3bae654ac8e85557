/** The string operations of Go's `strings` and `strconv` packages that the models need.
    Strings are sequences of characters; one character stands for one byte. */
module Strings {
  import opened Wrappers

  // ----- order -----

  /** Go's `<` on strings. */
  predicate Less(a: string, b: string) {
    b != [] && (a == [] || a[0] < b[0] || (a[0] == b[0] && Less(a[1..], b[1..])))
  }

  predicate AtMost(a: string, b: string) {
    !Less(b, a)
  }

  lemma {:induction false} LessIsTotal(a: string, b: string)
    ensures a == b || Less(a, b) || Less(b, a)
  {
    if a != [] && b != [] && a[0] == b[0] {
      LessIsTotal(a[1..], b[1..]);
      assert a == [a[0]] + a[1..] && b == [b[0]] + b[1..];
    }
  }

  lemma {:induction false} LessIsTransitive(a: string, b: string, c: string)
    requires Less(a, b) && Less(b, c)
    ensures Less(a, c)
  {
    if a != [] && a[0] == b[0] == c[0] {
      LessIsTransitive(a[1..], b[1..], c[1..]);
    }
  }

  lemma {:induction false} LessIsAsymmetric(a: string, b: string)
    requires Less(a, b)
    ensures !Less(b, a) && a != b
  {
    if a != [] && a[0] == b[0] {
      LessIsAsymmetric(a[1..], b[1..]);
    }
  }

  // ----- splitting and joining -----

  function Split(s: string, sep: char): (parts: seq<string>)
    ensures |parts| >= 1
  {
    if s == [] then [[]]
    else
      var rest := Split(s[1..], sep);
      if s[0] == sep then [[]] + rest else [[s[0]] + rest[0]] + rest[1..]
  }

  function Join(parts: seq<string>, sep: char): string {
    if parts == [] then []
    else if |parts| == 1 then parts[0]
    else parts[0] + [sep] + Join(parts[1..], sep)
  }

  lemma {:induction false} SplitParts(s: string, sep: char)
    ensures Join(Split(s, sep), sep) == s
    ensures forall p | p in Split(s, sep) :: sep !in p
  {
    if s != [] {
      SplitParts(s[1..], sep);
      var rest := Split(s[1..], sep);
      assert s == [s[0]] + s[1..];
      if s[0] == sep {
        assert Split(s, sep)[1..] == rest;
      } else {
        assert Split(s, sep)[1..] == rest[1..];
        assert rest[0] in rest;
        assert forall p | p in Split(s, sep) :: p == [s[0]] + rest[0] || p in rest;
      }
    }
  }

  lemma {:induction false} SplitAfterPart(p: string, s: string, sep: char)
    requires sep !in p
    ensures Split(p + [sep] + s, sep) == [p] + Split(s, sep)
    ensures Split(p, sep) == [p]
  {
    if p == [] {
      assert p + [sep] + s == [sep] + s;
      assert ([sep] + s)[1..] == s;
    } else {
      SplitAfterPart(p[1..], s, sep);
      assert (p + [sep] + s)[1..] == p[1..] + [sep] + s;
      assert p == [p[0]] + p[1..];
    }
  }

  lemma {:induction false} SplitOfJoin(parts: seq<string>, sep: char)
    requires parts != []
    requires forall p | p in parts :: sep !in p
    ensures Split(Join(parts, sep), sep) == parts
  {
    assert parts[0] in parts;
    SplitAfterPart(parts[0], Join(parts[1..], sep), sep);
    if |parts| > 1 {
      SplitOfJoin(parts[1..], sep);
      assert parts == [parts[0]] + parts[1..];
    } else {
      assert parts == [parts[0]];
    }
  }

  // ----- decimal numerals -----

  predicate IsDigit(c: char) {
    '0' <= c <= '9'
  }

  predicate AllDigits(s: string) {
    forall c | c in s :: IsDigit(c)
  }

  function DigitOf(d: nat): char
    requires d < 10
    ensures IsDigit(DigitOf(d)) && ValueOfDigit(DigitOf(d)) == d
  {
    '0' + d as char
  }

  function ValueOfDigit(c: char): nat
    requires IsDigit(c)
  {
    c as int - '0' as int
  }

  /** The value of a digit string. */
  function Value(s: string): nat
    requires AllDigits(s)
  {
    if s == [] then 0 else 10 * Value(s[..|s| - 1]) + ValueOfDigit(s[|s| - 1])
  }

  function Itoa(n: nat): (s: string)
    ensures s != [] && AllDigits(s)
    ensures Value(s) == n
  {
    if n < 10 then [DigitOf(n)]
    else
      var front := Itoa(n / 10);
      var s := front + [DigitOf(n % 10)];
      assert s[..|s| - 1] == front;
      s
  }

  /** Go's `strconv.Atoi`, with its optional sign. */
  function Atoi(s: string): Option<int> {
    if s != [] && (s[0] == '-' || s[0] == '+') then
      if |s| == 1 || !AllDigits(s[1..]) then None
      else
        var v: int := Value(s[1..]);
        Some(if s[0] == '-' then -v else v)
    else if s == [] || !AllDigits(s) then None
    else Some(Value(s))
  }

  lemma AtoiOfItoa(n: nat)
    ensures Atoi(Itoa(n)) == Some(n)
  {
    assert Itoa(n)[0] in Itoa(n);
  }

  lemma ItoaIsInjective(m: nat, n: nat)
    requires Itoa(m) == Itoa(n)
    ensures m == n
  {
    assert Value(Itoa(m)) == m && Value(Itoa(n)) == n;
  }

  /** No leading zero. */
  predicate Canonical(s: string) {
    s != [] && AllDigits(s) && (s[0] == '0' ==> s == "0")
  }

  lemma {:induction false} ItoaIsCanonical(n: nat)
    ensures Canonical(Itoa(n)) && (n > 0 ==> Itoa(n)[0] != '0')
  {
    if n >= 10 {
      ItoaIsCanonical(n / 10);
    }
  }

  /** Canonical numerals are equal as strings exactly when their values are. */
  lemma {:induction false} CanonicalByValue(s: string)
    requires Canonical(s)
    ensures s == Itoa(Value(s))
  {
    var front := s[..|s| - 1];
    var last := s[|s| - 1];
    assert s == front + [last] && last in s;
    if front == [] {
      assert DigitOf(ValueOfDigit(last)) == last;
    } else {
      assert front[0] == s[0];
      assert AllDigits(front);
      CanonicalByValue(front);
      ItoaIsCanonical(Value(front));
      assert Value(front) > 0;
      assert Value(s) / 10 == Value(front) && Value(s) % 10 == ValueOfDigit(last);
    }
  }
}
