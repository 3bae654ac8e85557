/** The newest release of every minor version, found by comparing numerals as strings. */
module LatestMinors {
  import opened Strings
  import opened Sorting
  import opened Versions

  ghost function Last(vs: seq<Version>): Version
    requires vs != []
  {
    vs[|vs| - 1]
  }

  /** The code's test whether a release starts an older minor than the last one kept. */
  predicate SpelledLower(a: Version, b: Version) {
    Less(a.major.text, b.major.text) || Less(a.minor.text, b.minor.text)
  }

  method GetLatestMinorReleases(releases: seq<Version>) returns (latest: seq<Version>)
    ensures latest == Latest(releases)
  {
    latest := [];
    for i := 0 to |releases|
      invariant latest == Latest(releases[..i])
    {
      assert releases[..i + 1][..i] == releases[..i];
      if |latest| == 0 || Less(releases[i].major.text, latest[|latest| - 1].major.text)
         || Less(releases[i].minor.text, latest[|latest| - 1].minor.text) {
        latest := latest + [releases[i]];
      }
    }
    assert releases[..|releases|] == releases;
  }

  function Latest(vs: seq<Version>): (r: seq<Version>)
    ensures r == [] <==> vs == []
  {
    if vs == [] then []
    else
      var kept := Latest(vs[..|vs| - 1]);
      var v := vs[|vs| - 1];
      if kept == [] || SpelledLower(v, kept[|kept| - 1]) then kept + [v] else kept
  }

  // ----- what is wanted -----

  /** In a descending list: the first release of every minor, by value. */
  function Heads(vs: seq<Version>): (r: seq<Version>)
    ensures r == [] <==> vs == []
  {
    if vs == [] then []
    else
      var heads := Heads(vs[..|vs| - 1]);
      if |vs| == 1 || !SameMinor(vs[|vs| - 2], vs[|vs| - 1]) then heads + [vs[|vs| - 1]] else heads
  }

  ghost predicate OlderMinor(a: Version, b: Version) {
    CompareMajorMinor(a, b) < 0
  }

  /** Exactly one release of every minor, the newest one, newest minor first. */
  ghost predicate OnePerMinor(heads: seq<Version>, vs: seq<Version>) {
    && (forall h | h in heads :: h in vs)
    && (forall i, j | 0 <= i < j < |heads| :: OlderMinor(heads[j], heads[i]))
    && (forall v | v in vs :: NewestKept(v, heads))
  }

  ghost predicate NewestKept(v: Version, heads: seq<Version>) {
    exists h | h in heads :: SameMinor(v, h) && NotOlder(h, v)
  }

  /** The heads cover the list, the last one its end. */
  ghost predicate HeadsCover(vs: seq<Version>)
    requires vs != []
  {
    && OnePerMinor(Heads(vs), vs)
    && SameMinor(Last(Heads(vs)), Last(vs)) && NotOlder(Last(Heads(vs)), Last(vs))
  }

  lemma {:induction false} HeadsAreOnePerMinor(vs: seq<Version>)
    requires Ordered(NotOlder, vs)
    ensures OnePerMinor(Heads(vs), vs)
    ensures vs != [] ==> HeadsCover(vs)
  {
    if |vs| == 1 {
      SingleHead(vs);
    } else if vs != [] {
      HeadsAreOnePerMinor(vs[..|vs| - 1]);
      HeadsCoverNext(vs);
    }
  }

  lemma SingleHead(vs: seq<Version>)
    requires |vs| == 1
    ensures HeadsCover(vs)
  {
    assert Heads(vs[..0]) == [] && Heads(vs) == vs;
  }

  lemma HeadsCoverNext(vs: seq<Version>)
    requires |vs| > 1 && HeadsCover(vs[..|vs| - 1]) && NotOlder(vs[|vs| - 2], vs[|vs| - 1])
    ensures HeadsCover(vs)
  {
    var front, v := vs[..|vs| - 1], Last(vs);
    assert vs == front + [v];
    LatestSnoc(front, v);
    if SameMinor(Last(front), v) {
      LastHeadCovers(Heads(front), front, v);
    } else {
      NewHeadIsOlder(Heads(front), front, v);
    }
  }

  lemma LastHeadCovers(heads: seq<Version>, front: seq<Version>, v: Version)
    requires heads != [] && OnePerMinor(heads, front)
    requires SameMinor(v, Last(heads)) && NotOlder(Last(heads), v)
    ensures OnePerMinor(heads, front + [v])
  {
    var h := Last(heads);
    assert h in heads;
    assert NewestKept(v, heads);
  }

  lemma NewHeadIsOlder(heads: seq<Version>, front: seq<Version>, v: Version)
    requires front != [] && heads != [] && OnePerMinor(heads, front)
    requires SameMinor(Last(heads), Last(front)) && NotOlder(Last(front), v) && !SameMinor(Last(front), v)
    ensures OnePerMinor(heads + [v], front + [v])
  {
    var more := heads + [v];
    forall i, j | 0 <= i < j < |more|
      ensures OlderMinor(more[j], more[i])
    {
      assert i < |heads| - 1 ==> OlderMinor(Last(heads), heads[i]);
    }
    forall u | u in front + [v]
      ensures NewestKept(u, more)
    {
      if u != v {
        var h :| h in heads && SameMinor(u, h) && NotOlder(h, u);
        assert h in more;
      } else {
        assert v in more && SameMinor(v, v) && NotOlder(v, v);
      }
    }
  }

  // ----- when comparing strings is good enough -----

  /** Wherever the list passes to another minor, the new one is spelled lower. */
  ghost predicate SpellingDescends(vs: seq<Version>) {
    forall i | 0 < i < |vs| && !SameMinor(vs[i - 1], vs[i]) :: SpelledLower(vs[i], vs[i - 1])
  }

  ghost predicate AllCanonical(vs: seq<Version>) {
    forall i | 0 <= i < |vs| :: vs[i].IsCanonical()
  }

  predicate SameSpelling(a: Version, b: Version) {
    a.major.text == b.major.text && a.minor.text == b.minor.text
  }

  lemma SameMinorSameSpelling(a: Version, b: Version)
    requires a.IsCanonical() && b.IsCanonical()
    ensures SameMinor(a, b) <==> SameSpelling(a, b)
  {
    CanonicalNumerals(a.major, b.major);
    CanonicalNumerals(a.minor, b.minor);
  }

  lemma SameSpellingIsNotLower(a: Version, b: Version)
    requires SameSpelling(a, b)
    ensures !SpelledLower(a, b)
  {
    if Less(a.major.text, a.major.text) {
      LessIsAsymmetric(a.major.text, a.major.text);
    }
    if Less(a.minor.text, a.minor.text) {
      LessIsAsymmetric(a.minor.text, a.minor.text);
    }
  }

  lemma SpellingSnoc(front: seq<Version>, v: Version)
    requires front != []
    ensures SpellingDescends(front + [v]) <==>
              SpellingDescends(front) && (SameMinor(Last(front), v) || SpelledLower(v, Last(front)))
  {
    var vs := front + [v];
    assert vs[|front|] == v && vs[|front| - 1] == Last(front);
    if SpellingDescends(vs) {
      forall i | 0 < i < |front| && !SameMinor(front[i - 1], front[i])
        ensures SpelledLower(front[i], front[i - 1])
      {
        assert SpelledLower(vs[i], vs[i - 1]);
      }
    }
  }

  lemma LatestSnoc(front: seq<Version>, v: Version)
    requires front != []
    ensures Latest(front + [v]) == Latest(front) + (if SpelledLower(v, Last(Latest(front))) then [v] else [])
    ensures Heads(front + [v]) == Heads(front) + (if SameMinor(Last(front), v) then [] else [v])
  {
    assert (front + [v])[..|front|] == front;
  }

  /** The code keeps at most the heads. It keeps as many exactly when the spelling descends, and
      then keeps the heads themselves. */
  lemma {:induction false} KeptComparedToHeads(vs: seq<Version>)
    requires AllCanonical(vs)
    ensures |Latest(vs)| <= |Heads(vs)|
    ensures |Latest(vs)| == |Heads(vs)| <==> SpellingDescends(vs)
    ensures SpellingDescends(vs) ==> Latest(vs) == Heads(vs)
    ensures SpellingDescends(vs) && vs != [] ==> SameSpelling(Last(Latest(vs)), Last(vs))
    ensures vs != [] ==> !SpelledLower(Last(vs), Last(Latest(vs)))
  {
    if |vs| == 1 {
      assert Latest(vs[..0]) == [] && Heads(vs[..0]) == [];
      SameSpellingIsNotLower(vs[0], vs[0]);
    } else if vs != [] {
      var front, v := vs[..|vs| - 1], Last(vs);
      assert vs == front + [v];
      KeptComparedToHeads(front);
      SpellingSnoc(front, v);
      LatestSnoc(front, v);
      SameMinorSameSpelling(Last(front), v);
      SameSpellingIsNotLower(v, v);
    }
  }

  /** On a descending list of canonical versions the code returns exactly one newest release per
      minor if and only if the spelling descends wherever the minor changes. */
  lemma LatestIsRightIff(vs: seq<Version>)
    requires AllCanonical(vs) && Ordered(NotOlder, vs)
    ensures OnePerMinor(Latest(vs), vs) <==> SpellingDescends(vs)
  {
    HeadsAreOnePerMinor(vs);
    KeptComparedToHeads(vs);
    if OnePerMinor(Latest(vs), vs) {
      AsManyAsMinors(Heads(vs), Latest(vs));
    }
  }

  /** A list that covers every minor is at least as long as one that repeats none. */
  lemma {:induction false} AsManyAsMinors(heads: seq<Version>, kept: seq<Version>)
    requires forall h | h in heads :: NewestKept(h, kept)
    requires forall i, j | 0 <= i < j < |heads| :: OlderMinor(heads[j], heads[i])
    ensures |heads| <= |kept|
  {
    if heads != [] {
      var h, front := Last(heads), heads[..|heads| - 1];
      assert h in heads && NewestKept(h, kept);
      var k :| k in kept && SameMinor(h, k) && NotOlder(k, h);
      var p :| 0 <= p < |kept| && kept[p] == k;
      var rest := kept[..p] + kept[p + 1..];
      assert kept == kept[..p] + [k] + kept[p + 1..];
      forall g | g in front
        ensures NewestKept(g, rest)
      {
        assert g in heads && OlderMinor(h, g);
        var l :| l in kept && SameMinor(g, l) && NotOlder(l, g);
        OtherMinorOtherHead(g, l, h, k);
        assert l in rest;
      }
      AsManyAsMinors(front, rest);
    }
  }

  lemma OtherMinorOtherHead(g: Version, l: Version, h: Version, k: Version)
    requires OlderMinor(h, g) && SameMinor(g, l) && SameMinor(h, k)
    ensures l != k
  {
  }

  // ----- which minors the first entries are of -----

  ghost predicate Descends(kept: seq<Version>) {
    forall i, j | 0 <= i < j < |kept| :: OlderMinor(kept[j], kept[i])
  }

  lemma DescendsSnoc(kept: seq<Version>, v: Version)
    requires Descends(kept) && (kept != [] ==> OlderMinor(v, kept[|kept| - 1]))
    ensures Descends(kept + [v])
  {
    forall i, j | 0 <= i < j < |kept + [v]|
      ensures OlderMinor((kept + [v])[j], (kept + [v])[i])
    {
      assert j == |kept| && i < |kept| - 1 ==> OlderMinor(kept[|kept| - 1], kept[i]);
    }
  }

  /** The kept releases are of different minors, newest first. */
  lemma {:induction false} LatestDescends(vs: seq<Version>)
    requires AllCanonical(vs) && Ordered(NotOlder, vs)
    ensures forall h | h in Latest(vs) :: h in vs
    ensures Descends(Latest(vs))
  {
    if vs != [] {
      var front, v := vs[..|vs| - 1], vs[|vs| - 1];
      var kept := Latest(front);
      LatestDescends(front);
      assert vs == front + [v];
      if kept != [] && SpelledLower(v, kept[|kept| - 1]) {
        var last := kept[|kept| - 1];
        assert last in kept && last in front;
        var i :| 0 <= i < |front| && front[i] == last;
        assert NotOlder(vs[i], vs[|vs| - 1]) && vs[i].IsCanonical();
        SameMinorSameSpelling(v, last);
        SameMinorIsNotLower(v, last);
        DescendsSnoc(kept, v);
      }
    }
  }

  lemma SameMinorIsNotLower(a: Version, b: Version)
    requires SameMinor(a, b) ==> SameSpelling(a, b)
    ensures SameMinor(a, b) ==> !SpelledLower(a, b)
  {
    if SameMinor(a, b) {
      SameSpellingIsNotLower(a, b);
    }
  }

  lemma {:induction false} KeptAreSpelledLower(vs: seq<Version>)
    ensures forall i | 0 < i < |Latest(vs)| :: SpelledLower(Latest(vs)[i], Latest(vs)[i - 1])
  {
    if vs != [] {
      KeptAreSpelledLower(vs[..|vs| - 1]);
    }
  }

  /** The first `n` heads are spelled one lower than the other. */
  ghost predicate HeadsDescend(heads: seq<Version>, n: nat)
    requires n <= |heads|
  {
    forall i | 0 < i < n :: SpelledLower(heads[i], heads[i - 1])
  }

  lemma FrontDescends(heads: seq<Version>, more: seq<Version>, n: nat, m: nat)
    requires n <= |heads + more| && HeadsDescend(heads + more, n) && m <= n && m <= |heads|
    ensures HeadsDescend(heads, m)
  {
    forall i | 0 < i < m
      ensures SpelledLower(heads[i], heads[i - 1])
    {
      assert SpelledLower((heads + more)[i], (heads + more)[i - 1]);
    }
  }

  /** The first `n` entries are the same. */
  ghost predicate AgreeUpTo(a: seq<Version>, b: seq<Version>, n: nat) {
    n <= |a| && n <= |b| && forall i | 0 <= i < n :: a[i] == b[i]
  }

  lemma AgreeStill(a: seq<Version>, b: seq<Version>, n: nat, x: seq<Version>, y: seq<Version>)
    requires AgreeUpTo(a, b, n)
    ensures AgreeUpTo(a + x, b + y, n)
  {
  }

  lemma {:induction false} DescendingHeadsAreKept(vs: seq<Version>, n: nat)
    requires AllCanonical(vs) && n <= |Heads(vs)| && HeadsDescend(Heads(vs), n)
    ensures AgreeUpTo(Latest(vs), Heads(vs), n)
  {
    if |vs| == 1 {
      assert Latest(vs[..0]) == [] && Heads(vs[..0]) == [];
    } else if vs != [] {
      var front := vs[..|vs| - 1];
      assert vs == front + [Last(vs)];
      LatestSnoc(front, Last(vs));
      var newHead := if SameMinor(Last(front), Last(vs)) then [] else [Last(vs)];
      var m := if n <= |Heads(front)| then n else n - 1;
      FrontDescends(Heads(front), newHead, n, m);
      DescendingHeadsAreKept(front, m);
      if m == n {
        AgreeStill(Latest(front), Heads(front), n, if SpelledLower(Last(vs), Last(Latest(front))) then [Last(vs)] else [], newHead);
      } else {
        LastHeadIsKept(front, Last(vs), n);
      }
    }
  }

  lemma LastHeadIsKept(front: seq<Version>, v: Version, n: nat)
    requires front != [] && AllCanonical(front) && !SameMinor(Last(front), v)
    requires n == |Heads(front)| + 1 && AgreeUpTo(Latest(front), Heads(front), n - 1)
    requires HeadsDescend(Heads(front) + [v], n)
    ensures AgreeUpTo(Latest(front + [v]), Heads(front + [v]), n)
  {
    KeptComparedToHeads(front);
    assert Latest(front) == Heads(front);
    assert SpelledLower((Heads(front) + [v])[n - 1], (Heads(front) + [v])[n - 2]);
    LatestSnoc(front, v);
  }

  /** The head of the minor of `v`. */
  lemma HeadOf(vs: seq<Version>, v: Version) returns (q: nat)
    requires Ordered(NotOlder, vs) && v in vs
    ensures q < |Heads(vs)| && SameMinor(v, Heads(vs)[q]) && NotOlder(Heads(vs)[q], v)
  {
    HeadsAreOnePerMinor(vs);
    assert NewestKept(v, Heads(vs));
    q := IndexOfNewest(v, Heads(vs));
  }

  lemma IndexOfNewest(v: Version, heads: seq<Version>) returns (q: nat)
    requires NewestKept(v, heads)
    ensures q < |heads| && SameMinor(v, heads[q]) && NotOlder(heads[q], v)
  {
    var h :| h in heads && SameMinor(v, h) && NotOlder(h, v);
    q :| 0 <= q < |heads| && heads[q] == h;
  }

  lemma HeadsByAge(vs: seq<Version>, q: nat, p: nat)
    requires Ordered(NotOlder, vs) && q < |Heads(vs)| && p < |Heads(vs)|
    ensures q < p <==> OlderMinor(Heads(vs)[p], Heads(vs)[q])
  {
    HeadsAreOnePerMinor(vs);
    if p < q {
      assert OlderMinor(Heads(vs)[q], Heads(vs)[p]);
    }
  }

  /** The release kept at position `j` is of no newer minor than the `j`-th newest one. */
  lemma {:induction false} KeptIsNotNewer(vs: seq<Version>, j: nat)
    requires AllCanonical(vs) && Ordered(NotOlder, vs) && j < |Latest(vs)|
    ensures j < |Heads(vs)| && CompareMajorMinor(Latest(vs)[j], Heads(vs)[j]) <= 0
  {
    LatestDescends(vs);
    var kept, heads := Latest(vs), Heads(vs);
    assert kept[j] in kept;
    var q := HeadOf(vs, kept[j]);
    if j > 0 {
      KeptIsNotNewer(vs, j - 1);
      assert OlderMinor(kept[j], kept[j - 1]);
      HeadsByAge(vs, j - 1, q);
    }
    HeadsByAge(vs, q, j);
  }

  /** If the `n`-th one kept is of the `n`-th newest minor, so are those before. */
  lemma {:induction false} NothingSkippedBefore(vs: seq<Version>, n: nat, j: nat)
    requires AllCanonical(vs) && Ordered(NotOlder, vs) && j < n <= |Latest(vs)| && n <= |Heads(vs)|
    requires SameMinor(Latest(vs)[n - 1], Heads(vs)[n - 1])
    ensures SameMinor(Latest(vs)[j], Heads(vs)[j])
    decreases n - j
  {
    if j < n - 1 {
      NothingSkippedBefore(vs, n, j + 1);
      LatestDescends(vs);
      var kept := Latest(vs);
      assert kept[j] in kept && OlderMinor(kept[j + 1], kept[j]);
      var q := HeadOf(vs, kept[j]);
      HeadsByAge(vs, q, j + 1);
      HeadsByAge(vs, q, j);
      KeptIsNotNewer(vs, j);
    }
  }

  /** The `n`-th release kept is of the `n`-th newest minor if and only if the `n` newest minors are
      spelled one lower than the other; then the first `n` kept are their newest releases. */
  lemma NthIsRightIff(vs: seq<Version>, n: nat)
    requires AllCanonical(vs) && Ordered(NotOlder, vs) && 0 < n <= |Latest(vs)|
    ensures n <= |Heads(vs)|
    ensures SameMinor(Latest(vs)[n - 1], Heads(vs)[n - 1]) <==> HeadsDescend(Heads(vs), n)
    ensures HeadsDescend(Heads(vs), n) ==> Latest(vs)[..n] == Heads(vs)[..n]
  {
    KeptIsNotNewer(vs, n - 1);
    var kept, heads := Latest(vs), Heads(vs);
    if HeadsDescend(heads, n) {
      DescendingHeadsAreKept(vs, n);
    }
    if SameMinor(kept[n - 1], heads[n - 1]) {
      KeptAreSpelledLower(vs);
      forall i | 0 < i < n
        ensures SpelledLower(heads[i], heads[i - 1])
      {
        NothingSkippedBefore(vs, n, i);
        NothingSkippedBefore(vs, n, i - 1);
        KeptAndHeadsAreSpelledAlike(vs, i);
        KeptAndHeadsAreSpelledAlike(vs, i - 1);
      }
    }
  }

  lemma KeptAndHeadsAreSpelledAlike(vs: seq<Version>, j: nat)
    requires AllCanonical(vs) && Ordered(NotOlder, vs) && j < |Latest(vs)| && j < |Heads(vs)|
    requires SameMinor(Latest(vs)[j], Heads(vs)[j])
    ensures SameSpelling(Latest(vs)[j], Heads(vs)[j])
  {
    LatestDescends(vs);
    HeadsAreOnePerMinor(vs);
    assert Latest(vs)[j] in Latest(vs) && Heads(vs)[j] in Heads(vs);
    SameMinorSameSpelling(Latest(vs)[j], Heads(vs)[j]);
  }

  /** A release of the list is of one of the `n` newest minors, or older than all of them. */
  lemma AmongTheNewest(vs: seq<Version>, n: nat, v: Version)
    requires AllCanonical(vs) && Ordered(NotOlder, vs) && v in vs
    requires 0 < n <= |Latest(vs)| && n <= |Heads(vs)| && HeadsDescend(Heads(vs), n)
    ensures (exists i | 0 <= i < n :: SameMinor(v, Latest(vs)[i])) || OlderMinor(v, Latest(vs)[n - 1])
  {
    NthIsRightIff(vs, n);
    var q := HeadOf(vs, v);
    if q < n {
      assert Latest(vs)[q] == Latest(vs)[..n][q] == Heads(vs)[..n][q];
    } else {
      assert Latest(vs)[n - 1] == Latest(vs)[..n][n - 1] == Heads(vs)[..n][n - 1];
      HeadsByAge(vs, n - 1, q);
    }
  }

  lemma {:induction false} DescendingSpellingDescends(vs: seq<Version>)
    requires AllCanonical(vs) && SpellingDescends(vs)
    ensures HeadsDescend(Heads(vs), |Heads(vs)|)
  {
    KeptComparedToHeads(vs);
    KeptAreSpelledLower(vs);
  }

  // ----- equal width -----

  lemma {:induction false} LessByLastDigit(a: string, b: string, x: char, y: char)
    requires |a| == |b|
    ensures Less(a + [x], b + [y]) <==> Less(a, b) || (a == b && x < y)
  {
    if a != [] {
      assert (a + [x])[1..] == a[1..] + [x] && (b + [y])[1..] == b[1..] + [y];
      LessByLastDigit(a[1..], b[1..], x, y);
      assert a == [a[0]] + a[1..] && b == [b[0]] + b[1..];
      if a[0] == b[0] && Less(a, b) {
        LessIsAsymmetric(a, b);
      }
    }
  }

  /** Numerals of the same width compare as strings as they do as numbers. */
  lemma {:induction false} EqualWidthComparesByValue(a: string, b: string)
    requires AllDigits(a) && AllDigits(b) && |a| == |b|
    ensures Less(a, b) <==> Value(a) < Value(b)
    ensures a == b <==> Value(a) == Value(b)
  {
    if a != [] {
      var a', b', x, y := a[..|a| - 1], b[..|b| - 1], a[|a| - 1], b[|b| - 1];
      assert a == a' + [x] && b == b' + [y];
      assert x in a && y in b;
      EqualWidthComparesByValue(a', b');
      LessByLastDigit(a', b', x, y);
    }
  }

  /** All majors have one width and all minors have one width. */
  ghost predicate EqualWidth(vs: seq<Version>) {
    forall i, j | 0 <= i < |vs| && 0 <= j < |vs| ::
      |vs[i].major.text| == |vs[j].major.text| && |vs[i].minor.text| == |vs[j].minor.text|
  }

  lemma EqualWidthIsEnough(vs: seq<Version>)
    requires AllCanonical(vs) && Ordered(NotOlder, vs) && EqualWidth(vs)
    ensures OnePerMinor(Latest(vs), vs)
  {
    forall i | 0 < i < |vs| && !SameMinor(vs[i - 1], vs[i])
      ensures SpelledLower(vs[i], vs[i - 1])
    {
      assert NotOlder(vs[i - 1], vs[i]);
      EqualWidthComparesByValue(vs[i].major.text, vs[i - 1].major.text);
      EqualWidthComparesByValue(vs[i].minor.text, vs[i - 1].minor.text);
    }
    LatestIsRightIff(vs);
  }

  /** 1.10 hides 1.9: read as strings, "9" is not lower than "10". */
  lemma DoubleDigitsHideSingleDigits() returns (vs: seq<Version>)
    ensures AllCanonical(vs) && Ordered(NotOlder, vs)
    ensures |vs| == 2 && Latest(vs) == [vs[0]] && !SameMinor(vs[0], vs[1])
  {
    var one, ten, nine, zero := NumeralOf("1"), NumeralOf("10"), NumeralOf("9"), NumeralOf("0");
    assert Value("10") == 10 by {
      assert "10"[..1] == "1" && "1"[..0] == "";
    }
    assert Value("1") == 1 && Value("9") == 9 && Value("0") == 0 by {
      assert "1"[..0] == "" && "9"[..0] == "" && "0"[..0] == "";
    }
    vs := [Version(one, ten, zero), Version(one, nine, zero)];
    assert vs[..1] == [vs[0]] && vs[..1][..0] == [];
    assert !Less("9", "10") && !Less("1", "1");
  }

  function MinorRelease(minor: string): Version
    requires minor != [] && AllDigits(minor)
  {
    Version(NumeralOf("1"), NumeralOf(minor), NumeralOf("0"))
  }

  lemma SmallNumerals()
    ensures Value("0") == 0 && Value("1") == 1 && Value("8") == 8 && Value("9") == 9
    ensures Value("10") == 10 && Value("11") == 11
  {
    assert "0"[..0] == "" && "1"[..0] == "" && "8"[..0] == "" && "9"[..0] == "";
    assert "10"[..1] == "1" && "11"[..1] == "1";
  }

  lemma SixReleases(a: Version, b: Version, c: Version, d: Version, e: Version, f: Version)
    requires SpelledLower(b, a) && !SpelledLower(c, b) && !SpelledLower(d, b) && SpelledLower(e, b) && SpelledLower(f, e)
    requires !SameMinor(a, b) && !SameMinor(b, c) && !SameMinor(c, d) && !SameMinor(d, e) && !SameMinor(e, f)
    ensures Latest([a, b, c, d, e, f]) == [a, b, e, f]
    ensures Heads([a, b, c, d, e, f]) == [a, b, c, d, e, f]
  {
    assert [a][..0] == [];
    assert Latest([a]) == [a] && Heads([a]) == [a];
    LatestSnoc([a], b);
    assert [a] + [b] == [a, b];
    LatestSnoc([a, b], c);
    assert [a, b] + [c] == [a, b, c];
    LatestSnoc([a, b, c], d);
    assert [a, b, c] + [d] == [a, b, c, d];
    LatestSnoc([a, b, c, d], e);
    assert [a, b, c, d] + [e] == [a, b, c, d, e];
    LatestSnoc([a, b, c, d, e], f);
    assert [a, b, c, d, e] + [f] == [a, b, c, d, e, f];
  }

  lemma MinorReleases(m: string, n: string)
    requires Canonical(m) && Canonical(n)
    ensures MinorRelease(m).IsCanonical()
    ensures SpelledLower(MinorRelease(m), MinorRelease(n)) <==> Less(m, n)
    ensures SameMinor(MinorRelease(m), MinorRelease(n)) <==> Value(m) == Value(n)
    ensures Value(m) >= Value(n) ==> NotOlder(MinorRelease(m), MinorRelease(n))
  {
    SmallNumerals();
    assert !Less("1", "1");
  }

  const SKIPPED: seq<string> := ["11", "10", "9", "8", "1", "0"]

  lemma SkippedSpelling()
    ensures forall i | 0 <= i < |SKIPPED| :: Canonical(SKIPPED[i])
    ensures forall i, j | 0 <= i < j < |SKIPPED| :: Value(SKIPPED[i]) > Value(SKIPPED[j])
    ensures Less(SKIPPED[1], SKIPPED[0]) && Less(SKIPPED[4], SKIPPED[1]) && Less(SKIPPED[5], SKIPPED[4])
    ensures !Less(SKIPPED[2], SKIPPED[1]) && !Less(SKIPPED[3], SKIPPED[1])
  {
    SmallNumerals();
  }

  lemma MinorsDescend(minors: seq<string>, vs: seq<Version>)
    requires |vs| == |minors| && forall i | 0 <= i < |minors| :: Canonical(minors[i]) && vs[i] == MinorRelease(minors[i])
    requires forall i, j | 0 <= i < j < |minors| ::
               Canonical(minors[i]) && Canonical(minors[j]) && Value(minors[i]) > Value(minors[j])
    ensures AllCanonical(vs) && Ordered(NotOlder, vs)
    ensures forall i, j | 0 <= i < j < |vs| :: !SameMinor(vs[i], vs[j]) && vs[i].minor.text != vs[j].minor.text
  {
    forall i, j | 0 <= i < j < |vs|
      ensures vs[i].IsCanonical() && vs[j].IsCanonical() && NotOlder(vs[i], vs[j]) && !SameMinor(vs[i], vs[j])
      ensures vs[i].minor.text != vs[j].minor.text
    {
      MinorReleases(minors[i], minors[j]);
      MinorReleases(minors[j], minors[i]);
    }
    forall i | 0 <= i < |vs|
      ensures vs[i].IsCanonical()
    {
      MinorReleases(minors[i], minors[i]);
    }
  }

  /** Of 1.11, 1.10, 1.9, 1.8, 1.1 and 1.0 the code keeps 1.11, 1.10, 1.1 and 1.0. */
  lemma SkippedMinors() returns (vs: seq<Version>)
    ensures AllCanonical(vs) && Ordered(NotOlder, vs) && |vs| == 6
    ensures Heads(vs) == vs && Latest(vs) == [vs[0], vs[1], vs[4], vs[5]]
    ensures forall i, j | 0 <= i < j < 6 :: vs[i].minor.text != vs[j].minor.text
  {
    SkippedSpelling();
    vs := seq(6, i requires 0 <= i < 6 => MinorRelease(SKIPPED[i]));
    MinorsDescend(SKIPPED, vs);
    MinorReleases(SKIPPED[1], SKIPPED[0]);
    MinorReleases(SKIPPED[2], SKIPPED[1]);
    MinorReleases(SKIPPED[3], SKIPPED[1]);
    MinorReleases(SKIPPED[4], SKIPPED[1]);
    MinorReleases(SKIPPED[5], SKIPPED[4]);
    SixReleases(vs[0], vs[1], vs[2], vs[3], vs[4], vs[5]);
    assert vs == [vs[0], vs[1], vs[2], vs[3], vs[4], vs[5]];
  }
}
