/** Selecting releases by version. */
module Versions {
  import opened Wrappers
  import opened Strings
  import opened Sorting
  import opened Counting

  /** A decimal numeral as it is spelled, and its value. */
  datatype Numeral = Numeral(text: string, value: nat) {
    predicate IsFaithful() {
      text != [] && AllDigits(text) && value == Value(text)
    }

    predicate IsCanonical() {
      Canonical(text) && value == Value(text)
    }
  }

  datatype Version = Version(major: Numeral, minor: Numeral, patch: Numeral) {
    predicate IsFaithful() {
      major.IsFaithful() && minor.IsFaithful() && patch.IsFaithful()
    }

    predicate IsCanonical() {
      major.IsCanonical() && minor.IsCanonical() && patch.IsCanonical()
    }
  }

  function NumeralOf(text: string): (n: Numeral)
    requires text != [] && AllDigits(text)
    ensures n.IsFaithful()
  {
    Numeral(text, Value(text))
  }

  lemma CanonicalNumerals(a: Numeral, b: Numeral)
    requires a.IsCanonical() && b.IsCanonical()
    ensures a.text == b.text <==> a.value == b.value
  {
    CanonicalByValue(a.text);
    CanonicalByValue(b.text);
  }

  /** A release as GitHub lists it. */
  datatype Release = Release(tagName: string, published: bool)

  lemma JoinThree(parts: seq<string>, sep: char)
    requires |parts| == 3
    ensures Join(parts, sep) == parts[0] + [sep] + parts[1] + [sep] + parts[2]
  {
    assert parts[1..][1..] == [parts[2]];
    assert Join(parts[1..][1..], sep) == parts[2];
  }

  /** The tags `v1.2.3` with unsigned numerals. */
  function ParseTag(tag: string): (v: Option<Version>)
    ensures v.Some? ==> v.value.IsFaithful()
    ensures v.Some? ==> tag == "v" + v.value.major.text + "." + v.value.minor.text + "." + v.value.patch.text
  {
    if tag == [] || tag[0] != 'v' then None
    else
      var parts := Split(tag[1..], '.');
      if |parts| != 3 then None
      else
        SplitParts(tag[1..], '.');
        JoinThree(parts, '.');
        if forall i | 0 <= i < 3 :: parts[i] != [] && AllDigits(parts[i]) then
          Some(Version(NumeralOf(parts[0]), NumeralOf(parts[1]), NumeralOf(parts[2])))
        else None
  }

  /** Exactly these parse, to the numerals they are made of. */
  lemma ParsedTags(tag: string, v: Version)
    ensures ParseTag(tag) == Some(v) <==>
            v.IsFaithful() && tag == "v" + v.major.text + "." + v.minor.text + "." + v.patch.text
  {
    if v.IsFaithful() && tag == "v" + v.major.text + "." + v.minor.text + "." + v.patch.text {
      var parts := [v.major.text, v.minor.text, v.patch.text];
      JoinThree(parts, '.');
      assert tag == "v" + Join(parts, '.');
      assert tag[1..] == Join(parts, '.');
      forall p | p in parts
        ensures '.' !in p
      {
        assert AllDigits(p);
      }
      SplitOfJoin(parts, '.');
    }
  }

  function Compare(a: Version, b: Version): int {
    if a.major.value != b.major.value then (if a.major.value > b.major.value then 1 else -1)
    else if a.minor.value != b.minor.value then (if a.minor.value > b.minor.value then 1 else -1)
    else if a.patch.value != b.patch.value then (if a.patch.value > b.patch.value then 1 else -1)
    else 0
  }

  function CompareMajorMinor(a: Version, b: Version): int {
    if a.major.value != b.major.value then (if a.major.value > b.major.value then 1 else -1)
    else if a.minor.value != b.minor.value then (if a.minor.value > b.minor.value then 1 else -1)
    else 0
  }

  /** `Compare` looks at the major first, then the minor, then the patch. It is a total order on
      versions up to spelling, and on canonical versions it is 0 only for identical ones. */
  lemma CompareIsAnOrder(a: Version, b: Version, c: Version)
    ensures Compare(a, b) > 0 <==>
              || a.major.value > b.major.value
              || (a.major.value == b.major.value && a.minor.value > b.minor.value)
              || (a.major.value == b.major.value && a.minor.value == b.minor.value && a.patch.value > b.patch.value)
    ensures Compare(a, b) == -Compare(b, a)
    ensures Compare(a, b) >= 0 && Compare(b, c) >= 0 ==> Compare(a, c) >= 0
    ensures a.IsCanonical() && b.IsCanonical() && Compare(a, b) == 0 ==> a == b
  {
    if a.IsCanonical() && b.IsCanonical() && Compare(a, b) == 0 {
      CanonicalNumerals(a.major, b.major);
      CanonicalNumerals(a.minor, b.minor);
      CanonicalNumerals(a.patch, b.patch);
    }
  }

  predicate SameMinor(a: Version, b: Version) {
    CompareMajorMinor(a, b) == 0
  }

  predicate NotOlder(a: Version, b: Version) {
    Compare(a, b) >= 0
  }

  // ----- the valid releases, newest first -----

  /** The versions of the published releases that parse, as they are listed. */
  function Parsed(releases: seq<Release>): seq<Version> {
    if releases == [] then []
    else
      var last := releases[|releases| - 1];
      Parsed(releases[..|releases| - 1])
      + (if last.published && ParseTag(last.tagName).Some? then [ParseTag(last.tagName).value] else [])
  }

  lemma {:induction false} ParsedHas(releases: seq<Release>, v: Version)
    ensures v in Parsed(releases) <==> IsRelease(v, releases)
  {
    if releases != [] {
      var front, last := releases[..|releases| - 1], releases[|releases| - 1];
      ParsedHas(front, v);
      assert forall r :: r in releases <==> r in front || r == last;
    }
  }

  /** Sorted in descending precedence, each as often as it is listed. */
  method ValidReleases(releases: seq<Release>) returns (valid: seq<Version>)
    ensures IsSortOf(NotOlder, valid, Parsed(releases))
    ensures forall v :: v in valid <==> IsRelease(v, releases)
  {
    var found: seq<Version> := [];
    for i := 0 to |releases|
      invariant found == Parsed(releases[..i])
    {
      assert releases[..i + 1][..i] == releases[..i];
      var v := ParseTag(releases[i].tagName);
      if releases[i].published && v.Some? {
        found := found + [v.value];
      }
    }
    assert releases[..|releases|] == releases;
    assert TotalPreorder(NotOlder);
    valid := Sort(NotOlder, found);
    MultisetMembers(valid, found);
    forall v
      ensures v in valid <==> IsRelease(v, releases)
    {
      ParsedHas(releases, v);
    }
  }

  ghost predicate IsRelease(v: Version, releases: seq<Release>) {
    exists r | r in releases :: r.published && ParseTag(r.tagName) == Some(v)
  }

  predicate InSeries(v: Version, major: nat, minor: nat) {
    v.major.value == major && v.minor.value == minor
  }

  /** The scan stops at the first release below the series, and still finds the greatest patch. */
  method LastPatchOf(major: nat, minor: nat, releases: seq<Release>) returns (r: Option<Version>)
    ensures r.None? <==> forall v | IsRelease(v, releases) :: !InSeries(v, major, minor)
    ensures r.Some? ==> IsRelease(r.value, releases) && InSeries(r.value, major, minor)
    ensures r.Some? ==> forall v | IsRelease(v, releases) && InSeries(v, major, minor) :: v.patch.value <= r.value.patch.value
  {
    var valid := ValidReleases(releases);
    for i := 0 to |valid|
      invariant forall k | 0 <= k < i :: !InSeries(valid[k], major, minor)
    {
      var v := valid[i];
      assert forall k | i <= k < |valid| :: NotOlder(v, valid[k]);
      if v.major.value < major {
        return None;
      }
      if v.major.value == major {
        if v.minor.value < minor {
          return None;
        }
        if v.minor.value == minor {
          assert IsRelease(v, releases) && InSeries(v, major, minor);
          return Some(v);
        }
      }
    }
    return None;
  }

  // ----- the newest release of each of the three newest minors -----

  /** `minors` are the newest releases of the greatest minors of `major` among `vs`, greatest first;
      fewer than `n` only when there are no more minors. */
  ghost predicate NewestMinors(minors: seq<Version>, vs: seq<Version>, major: nat, n: nat) {
    && |minors| <= n
    && (forall m | m in minors :: m in vs && m.major.value == major)
    && (forall i, j | 0 <= i < j < |minors| :: minors[i].minor.value > minors[j].minor.value)
    && (forall v | v in vs && v.major.value == major :: Represented(v, minors) || (|minors| == n && BelowAll(v, minors)))
  }

  /** The newest release of the minor of `v` is listed. */
  ghost predicate Represented(v: Version, minors: seq<Version>) {
    exists m | m in minors :: SameMinor(v, m) && v.patch.value <= m.patch.value
  }

  ghost predicate BelowAll(v: Version, minors: seq<Version>) {
    forall m | m in minors :: v.minor.value < m.minor.value
  }

  /** The next version in descending order is at most as new as the last minor listed. */
  lemma NextIsNotNewer(minors: seq<Version>, vs: seq<Version>, major: nat, n: nat, v: Version)
    requires NewestMinors(minors, vs, major, n) && minors != []
    requires forall u | u in vs :: NotOlder(u, v)
    requires v.major.value == major
    ensures forall m | m in minors :: m.minor.value >= minors[|minors| - 1].minor.value >= v.minor.value
    ensures minors[|minors| - 1].minor.value == v.minor.value ==> Represented(v, minors)
  {
    var last := minors[|minors| - 1];
    assert last in minors && last in vs && NotOlder(last, v);
  }

  lemma KeepMinors(minors: seq<Version>, vs: seq<Version>, major: nat, n: nat, v: Version)
    requires NewestMinors(minors, vs, major, n)
    requires v.major.value == major ==> Represented(v, minors) || (|minors| == n && BelowAll(v, minors))
    ensures NewestMinors(minors, vs + [v], major, n)
  {
  }

  lemma NextMinorIsKept(minors: seq<Version>, vs: seq<Version>, major: nat, n: nat, v: Version)
    requires NewestMinors(minors, vs, major, n) && n > 0
    requires forall u | u in vs :: NotOlder(u, v)
    requires v.major.value == major
    requires |minors| == n || (minors != [] && minors[|minors| - 1].minor.value == v.minor.value)
    ensures NewestMinors(minors, vs + [v], major, n)
  {
    NextIsNotNewer(minors, vs, major, n, v);
    KeepMinors(minors, vs, major, n, v);
  }

  lemma NextMinorIsAdded(minors: seq<Version>, vs: seq<Version>, major: nat, n: nat, v: Version)
    requires NewestMinors(minors, vs, major, n) && |minors| < n
    requires forall u | u in vs :: NotOlder(u, v)
    requires v.major.value == major
    requires minors != [] ==> minors[|minors| - 1].minor.value != v.minor.value
    ensures NewestMinors(minors + [v], vs + [v], major, n)
  {
    var more := minors + [v];
    forall i, j | 0 <= i < j < |more|
      ensures more[i].minor.value > more[j].minor.value
    {
      if j == |minors| {
        NextIsNotNewer(minors, vs, major, n, v);
        assert more[i] in minors;
      }
    }
    forall u | u in vs + [v] && u.major.value == major
      ensures Represented(u, more)
    {
      if u != v {
        assert u in vs;
        assert Represented(u, minors);
      }
      RepresentedStill(u, minors, v);
    }
  }

  lemma RepresentedStill(u: Version, minors: seq<Version>, v: Version)
    requires u == v || Represented(u, minors)
    ensures Represented(u, minors + [v])
  {
    if u == v {
      assert v in minors + [v] && SameMinor(v, v);
    } else {
      var m :| m in minors && SameMinor(u, m) && u.patch.value <= m.patch.value;
      assert m in minors + [v];
    }
  }

  /** Nothing that follows can change the result once it is full or the major has been passed. */
  lemma {:induction false} RestAddsNothing(minors: seq<Version>, valid: seq<Version>, i: nat, major: nat, n: nat)
    requires Ordered(NotOlder, valid) && i <= |valid| && n > 0
    requires NewestMinors(minors, valid[..i], major, n)
    requires |minors| == n || (i < |valid| && valid[i].major.value < major)
    ensures NewestMinors(minors, valid, major, n)
    decreases |valid| - i
  {
    if i == |valid| {
      assert valid[..i] == valid;
    } else {
      var v := valid[i];
      TakeNext(valid, i);
      if v.major.value == major {
        NextMinorIsKept(minors, valid[..i], major, n, v);
      } else {
        KeepMinors(minors, valid[..i], major, n, v);
      }
      if |minors| < n && i + 1 == |valid| {
        assert valid[..i + 1] == valid;
      } else {
        assert i + 1 < |valid| ==> NotOlder(v, valid[i + 1]);
        RestAddsNothing(minors, valid, i + 1, major, n);
      }
    }
  }

  /** What the scan remembers of the last minor listed. */
  predicate LastMinorIs(minors: seq<Version>, text: string) {
    if minors == [] then text == "" else text == minors[|minors| - 1].minor.text
  }

  /** Comparing the numerals tells whether the next version starts a new minor. */
  lemma NewTextIsNewMinor(minors: seq<Version>, lastMinor: string, vs: seq<Version>, major: nat, n: nat, v: Version)
    requires NewestMinors(minors, vs, major, n) && |minors| < n && LastMinorIs(minors, lastMinor)
    requires v.minor.text != "" && minors != [] ==>
               (v.minor.text == lastMinor <==> v.minor.value == minors[|minors| - 1].minor.value)
    requires v.minor.text != ""
    requires forall u | u in vs :: NotOlder(u, v)
    requires v.major.value == major
    ensures v.minor.text != lastMinor ==> NewestMinors(minors + [v], vs + [v], major, n)
    ensures v.minor.text == lastMinor ==> NewestMinors(minors, vs + [v], major, n)
  {
    if v.minor.text != lastMinor {
      NextMinorIsAdded(minors, vs, major, n, v);
    } else {
      NextMinorIsKept(minors, vs, major, n, v);
    }
  }

  // ----- spelling -----

  predicate Above(a: Version, b: Version, v: Version, major: nat) {
    a.major.value == major && b.major.value == major && a.minor.value > b.minor.value > v.minor.value
  }

  /** No two greater minors of the major are listed. */
  ghost predicate AtTheTop(v: Version, vs: seq<Version>, major: nat) {
    forall a, b {:trigger Above(a, b, v, major)} | a in vs && b in vs :: !Above(a, b, v, major)
  }

  predicate Twins(v: Version, w: Version, major: nat) {
    v.major.value == major && w.major.value == major && v.minor.value == w.minor.value
  }

  /** The releases of each of the two greatest minors of the major are spelled alike. */
  ghost predicate SpelledAlike(vs: seq<Version>, major: nat) {
    forall v, w {:trigger Twins(v, w, major)} | v in vs && w in vs && Twins(v, w, major) && AtTheTop(v, vs, major) ::
      v.minor.text == w.minor.text
  }

  ghost predicate AllFaithful(vs: seq<Version>) {
    forall v | v in vs :: v.IsFaithful()
  }

  /** While fewer than three minors are listed, the last one is among the two greatest. */
  lemma LastIsAtTheTop(minors: seq<Version>, valid: seq<Version>, i: nat, major: nat)
    requires Ordered(NotOlder, valid) && i < |valid| && valid[i].major.value == major
    requires NewestMinors(minors, valid[..i], major, 3) && 0 < |minors| < 3
    requires valid[i].minor.value == minors[|minors| - 1].minor.value
    ensures AtTheTop(minors[|minors| - 1], valid, major)
  {
    var last := minors[|minors| - 1];
    forall a, b | a in valid && b in valid
      ensures !Above(a, b, last, major)
    {
      if Above(a, b, last, major) {
        var p := PlaceOf(minors, valid, i, major, a);
        var q := PlaceOf(minors, valid, i, major, b);
        NoTwoAbove(minors, p, q);
      }
    }
  }

  lemma NoTwoAbove(minors: seq<Version>, p: nat, q: nat)
    requires 0 < |minors| < 3 && p < |minors| && q < |minors|
    requires forall i, j | 0 <= i < j < |minors| :: minors[i].minor.value > minors[j].minor.value
    ensures !(minors[p].minor.value > minors[q].minor.value > minors[|minors| - 1].minor.value)
  {
  }

  lemma PlaceOf(minors: seq<Version>, valid: seq<Version>, i: nat, major: nat, a: Version) returns (p: nat)
    requires Ordered(NotOlder, valid) && i < |valid| && valid[i].major.value == major
    requires NewestMinors(minors, valid[..i], major, 3) && |minors| < 3
    requires a in valid && a.major.value == major && a.minor.value > valid[i].minor.value
    ensures p < |minors| && minors[p].minor.value == a.minor.value
  {
    NewerIsBefore(valid, i, a);
    assert Represented(a, minors);
    p := PlaceIn(minors, a);
  }

  lemma NewerIsBefore(valid: seq<Version>, i: nat, a: Version)
    requires Ordered(NotOlder, valid) && i < |valid| && a in valid
    requires a.major.value == valid[i].major.value && a.minor.value > valid[i].minor.value
    ensures a in valid[..i]
  {
    var k :| 0 <= k < |valid| && valid[k] == a;
    assert k > i ==> NotOlder(valid[i], valid[k]);
    assert a == valid[..i][k];
  }

  lemma PlaceIn(minors: seq<Version>, a: Version) returns (p: nat)
    requires Represented(a, minors)
    ensures p < |minors| && minors[p].minor.value == a.minor.value
  {
    var m :| m in minors && SameMinor(a, m) && a.patch.value <= m.patch.value;
    p :| 0 <= p < |minors| && minors[p] == m;
  }

  /** With a spelling alike at the top, numerals can be compared as strings. */
  lemma TextTellsTheMinor(minors: seq<Version>, valid: seq<Version>, i: nat, major: nat)
    requires Ordered(NotOlder, valid) && SpelledAlike(valid, major) && AllFaithful(valid)
    requires i < |valid| && valid[i].major.value == major
    requires NewestMinors(minors, valid[..i], major, 3) && 0 < |minors| < 3
    ensures valid[i].minor.text == minors[|minors| - 1].minor.text <==> valid[i].minor.value == minors[|minors| - 1].minor.value
  {
    var last := minors[|minors| - 1];
    assert last in minors && last in valid[..i] && last in valid && valid[i] in valid;
    assert last.IsFaithful() && valid[i].IsFaithful();
    if valid[i].minor.value == last.minor.value {
      LastIsAtTheTop(minors, valid, i, major);
      assert Twins(last, valid[i], major);
    }
  }

  /** What the scan has seen is listed by its spelling. */
  ghost predicate Scanned(minors: seq<Version>, vs: seq<Version>, major: nat) {
    && (forall m | m in minors :: m in vs && m.major.value == major)
    && (forall u | u in vs && u.major.value == major :: TextListed(u, minors))
  }

  /** Releases of the major that the scan has not seen are not above the three it has listed. */
  ghost predicate RestIsBelow(minors: seq<Version>, valid: seq<Version>, n: nat, major: nat) {
    forall k | n <= k < |valid| && valid[k].major.value == major ::
      |minors| == 3 && valid[k].minor.value <= minors[2].minor.value
  }

  ghost predicate TextListed(u: Version, minors: seq<Version>) {
    exists m | m in minors :: m.minor.text == u.minor.text
  }

  lemma ScannedNext(minors: seq<Version>, vs: seq<Version>, major: nat, v: Version, more: seq<Version>)
    requires Scanned(minors, vs, major)
    requires more == minors || (more == minors + [v] && v.major.value == major)
    requires v.major.value == major ==> TextListed(v, more)
    ensures Scanned(more, vs + [v], major)
  {
    forall u | u in vs + [v] && u.major.value == major
      ensures TextListed(u, more)
    {
      if u != v {
        assert TextListed(u, minors);
        var m :| m in minors && m.minor.text == u.minor.text;
        assert m in more;
      }
    }
  }

  /** If the scan was right and has seen all releases of the major that could be at the top, these are
      spelled alike. */
  lemma RightMeansSpelledAlike(minors: seq<Version>, valid: seq<Version>, n: nat, major: nat)
    requires n <= |valid| && AllFaithful(valid)
    requires Scanned(minors, valid[..n], major) && NewestMinors(minors, valid, major, 3) && RestIsBelow(minors, valid, n, major)
    ensures SpelledAlike(valid, major)
  {
    forall v, w | v in valid && w in valid && Twins(v, w, major) && AtTheTop(v, valid, major)
      ensures v.minor.text == w.minor.text
    {
      TwinIsAtTheTop(v, w, valid, major);
      var p := TextAtTheTop(minors, valid, n, major, v);
      var q := TextAtTheTop(minors, valid, n, major, w);
      SameValueSamePlace(minors, p, q);
    }
  }

  lemma TwinIsAtTheTop(v: Version, w: Version, vs: seq<Version>, major: nat)
    requires Twins(v, w, major) && AtTheTop(v, vs, major)
    ensures AtTheTop(w, vs, major)
  {
    forall a, b | a in vs && b in vs
      ensures !Above(a, b, w, major)
    {
      assert !Above(a, b, v, major);
    }
  }

  lemma SameValueSamePlace(minors: seq<Version>, p: nat, q: nat)
    requires forall i, j | 0 <= i < j < |minors| :: minors[i].minor.value > minors[j].minor.value
    requires p < |minors| && q < |minors| && minors[p].minor.value == minors[q].minor.value
    ensures p == q
  {
  }

  lemma TextAtTheTop(minors: seq<Version>, valid: seq<Version>, n: nat, major: nat, v: Version) returns (p: nat)
    requires n <= |valid| && AllFaithful(valid)
    requires Scanned(minors, valid[..n], major) && NewestMinors(minors, valid, major, 3) && RestIsBelow(minors, valid, n, major)
    requires v in valid && v.major.value == major && AtTheTop(v, valid, major)
    ensures p < |minors| && minors[p].minor.text == v.minor.text && minors[p].minor.value == v.minor.value
  {
    TopIsScanned(minors, valid, n, major, v);
    assert TextListed(v, minors);
    p := PlaceOfText(minors, v);
    assert minors[p] in minors && minors[p] in valid;
    assert minors[p].IsFaithful() && v.IsFaithful();
  }

  lemma PlaceOfText(minors: seq<Version>, v: Version) returns (p: nat)
    requires TextListed(v, minors)
    ensures p < |minors| && minors[p].minor.text == v.minor.text
  {
    var m :| m in minors && m.minor.text == v.minor.text;
    p :| 0 <= p < |minors| && minors[p] == m;
  }

  lemma TopIsScanned(minors: seq<Version>, valid: seq<Version>, n: nat, major: nat, v: Version)
    requires n <= |valid| && NewestMinors(minors, valid, major, 3) && RestIsBelow(minors, valid, n, major)
    requires v in valid && v.major.value == major && AtTheTop(v, valid, major)
    ensures v in valid[..n]
  {
    var k :| 0 <= k < |valid| && valid[k] == v;
    if k < n {
      assert v == valid[..n][k];
    } else {
      assert |minors| == 3;
      NotAtTheTop(minors, valid, major, v);
    }
  }

  lemma NotAtTheTop(minors: seq<Version>, valid: seq<Version>, major: nat, v: Version)
    requires NewestMinors(minors, valid, major, 3) && |minors| == 3 && v.minor.value <= minors[2].minor.value
    ensures !AtTheTop(v, valid, major)
  {
    assert minors[0] in minors && minors[1] in minors;
    assert Above(minors[0], minors[1], v, major);
  }

  /** The scan before version `i`. */
  ghost predicate Scanning(minors: seq<Version>, lastMinor: string, valid: seq<Version>, i: nat, major: nat)
    requires i <= |valid|
  {
    && |minors| <= 3 && Scanned(minors, valid[..i], major) && LastMinorIs(minors, lastMinor)
    && (SpelledAlike(valid, major) ==> NewestMinors(minors, valid[..i], major, 3))
  }

  /** The scan goes wrong exactly when one of the two greatest minors is spelled in two ways. */
  ghost predicate RightIffAlike(minors: seq<Version>, valid: seq<Version>, major: nat) {
    && |minors| <= 3 && (forall m | m in minors :: m in valid && m.major.value == major)
    && (NewestMinors(minors, valid, major, 3) <==> SpelledAlike(valid, major))
  }

  method ScanMinors(major: nat, valid: seq<Version>) returns (minors: seq<Version>)
    requires Ordered(NotOlder, valid) && AllFaithful(valid)
    ensures RightIffAlike(minors, valid, major)
  {
    minors := [];
    var lastMinor: string := "";
    for i := 0 to |valid|
      invariant |minors| < 3 && Scanning(minors, lastMinor, valid, i, major)
    {
      var v := valid[i];
      if v.major.value > major {
        Skip(minors, lastMinor, valid, i, major);
        continue;
      }
      if v.major.value < major {
        StopBelow(minors, lastMinor, valid, i, major);
        return;
      }
      ghost var before := minors;
      if v.minor.text != lastMinor {
        minors := minors + [v];
      }
      Consider(before, lastMinor, valid, i, major, minors);
      if |minors| == 3 {
        StopFull(before, lastMinor, valid, i, major, minors);
        return;
      }
      lastMinor := v.minor.text;
    }
    StopAtTheEnd(minors, lastMinor, valid, major);
  }

  lemma Skip(minors: seq<Version>, lastMinor: string, valid: seq<Version>, i: nat, major: nat)
    requires i < |valid| && valid[i].major.value > major && Scanning(minors, lastMinor, valid, i, major)
    ensures Scanning(minors, lastMinor, valid, i + 1, major)
  {
    TakeNext(valid, i);
    ScannedNext(minors, valid[..i], major, valid[i], minors);
    if NewestMinors(minors, valid[..i], major, 3) {
      KeepMinors(minors, valid[..i], major, 3, valid[i]);
    }
  }

  /** One version of the major, compared by its numeral. */
  lemma Consider(minors: seq<Version>, lastMinor: string, valid: seq<Version>, i: nat, major: nat, more: seq<Version>)
    requires Ordered(NotOlder, valid) && AllFaithful(valid)
    requires i < |valid| && valid[i].major.value == major && |minors| < 3 && Scanning(minors, lastMinor, valid, i, major)
    requires more == if valid[i].minor.text != lastMinor then minors + [valid[i]] else minors
    ensures Scanning(more, valid[i].minor.text, valid, i + 1, major)
  {
    var v := valid[i];
    TakeNext(valid, i);
    NumeralIsNotEmpty(valid, i);
    assert TextListed(v, more) by {
      assert more[|more| - 1] in more && more[|more| - 1].minor.text == v.minor.text;
    }
    ScannedNext(minors, valid[..i], major, v, more);
    if SpelledAlike(valid, major) {
      ConsiderAlike(minors, lastMinor, valid, i, major);
    }
  }

  lemma NumeralIsNotEmpty(valid: seq<Version>, i: nat)
    requires AllFaithful(valid) && i < |valid|
    ensures valid[i].minor.text != ""
  {
    assert valid[i] in valid;
  }

  lemma ConsiderAlike(minors: seq<Version>, lastMinor: string, valid: seq<Version>, i: nat, major: nat)
    requires Ordered(NotOlder, valid) && AllFaithful(valid) && SpelledAlike(valid, major)
    requires i < |valid| && valid[i].major.value == major && |minors| < 3
    requires NewestMinors(minors, valid[..i], major, 3) && LastMinorIs(minors, lastMinor)
    ensures var more := if valid[i].minor.text != lastMinor then minors + [valid[i]] else minors;
            NewestMinors(more, valid[..i] + [valid[i]], major, 3)
  {
    NumeralIsNotEmpty(valid, i);
    if minors != [] {
      TextTellsTheMinor(minors, valid, i, major);
    }
    OlderThanTheFront(valid, i);
    NewTextIsNewMinor(minors, lastMinor, valid[..i], major, 3, valid[i]);
  }

  lemma OlderThanTheFront(valid: seq<Version>, i: nat)
    requires Ordered(NotOlder, valid) && i < |valid|
    ensures forall u | u in valid[..i] :: NotOlder(u, valid[i])
  {
  }

  lemma StopAtTheEnd(minors: seq<Version>, lastMinor: string, valid: seq<Version>, major: nat)
    requires AllFaithful(valid) && Scanning(minors, lastMinor, valid, |valid|, major)
    ensures RightIffAlike(minors, valid, major)
  {
    assert valid[..|valid|] == valid;
    if NewestMinors(minors, valid, major, 3) {
      RightMeansSpelledAlike(minors, valid, |valid|, major);
    }
  }

  lemma StopBelow(minors: seq<Version>, lastMinor: string, valid: seq<Version>, i: nat, major: nat)
    requires Ordered(NotOlder, valid) && AllFaithful(valid)
    requires i < |valid| && valid[i].major.value < major && Scanning(minors, lastMinor, valid, i, major)
    ensures RightIffAlike(minors, valid, major)
  {
    if SpelledAlike(valid, major) {
      RestAddsNothing(minors, valid, i, major, 3);
    }
    if NewestMinors(minors, valid, major, 3) {
      BelowTheMajor(minors, valid, i, major);
      RightMeansSpelledAlike(minors, valid, i, major);
    }
  }

  lemma BelowTheMajor(minors: seq<Version>, valid: seq<Version>, i: nat, major: nat)
    requires Ordered(NotOlder, valid) && i < |valid| && valid[i].major.value < major
    ensures RestIsBelow(minors, valid, i, major)
  {
    forall k | i <= k < |valid|
      ensures valid[k].major.value < major
    {
      assert k == i || NotOlder(valid[i], valid[k]);
    }
  }

  lemma StopFull(before: seq<Version>, lastMinor: string, valid: seq<Version>, i: nat, major: nat, minors: seq<Version>)
    requires Ordered(NotOlder, valid) && AllFaithful(valid)
    requires i < |valid| && valid[i].major.value == major && |before| < 3
    requires minors == before + [valid[i]] && |minors| == 3
    requires Scanning(minors, valid[i].minor.text, valid, i + 1, major)
    ensures RightIffAlike(minors, valid, major)
  {
    if SpelledAlike(valid, major) {
      RestAddsNothing(minors, valid, i + 1, major, 3);
    }
    if NewestMinors(minors, valid, major, 3) {
      RestAfterTheThird(minors, valid, i + 1, major);
      RightMeansSpelledAlike(minors, valid, i + 1, major);
    }
  }

  lemma RestAfterTheThird(minors: seq<Version>, valid: seq<Version>, n: nat, major: nat)
    requires Ordered(NotOlder, valid) && 0 < n <= |valid| && |minors| == 3 && minors[2] == valid[n - 1]
    requires valid[n - 1].major.value == major
    ensures RestIsBelow(minors, valid, n, major)
  {
    forall k | n <= k < |valid| && valid[k].major.value == major
      ensures valid[k].minor.value <= minors[2].minor.value
    {
      assert NotOlder(valid[n - 1], valid[k]);
    }
  }

  /** The releases that count are spelled alike within each of the two greatest minors. */
  ghost predicate ReleasesSpelledAlike(releases: seq<Release>, major: nat) {
    SpelledAlike(Parsed(releases), major)
  }

  /** The scan with its early exits finds the three greatest minors, each at its greatest patch, if
      and only if the releases of each of the two greatest minors are spelled alike. */
  method LastThreeMinor(major: nat, releases: seq<Release>) returns (minors: seq<Version>)
    ensures |minors| <= 3 && forall m | m in minors :: IsRelease(m, releases) && m.major.value == major
    ensures NewestMinors(minors, Parsed(releases), major, 3) <==> ReleasesSpelledAlike(releases, major)
  {
    var valid := ValidReleases(releases);
    forall v | v in valid
      ensures v.IsFaithful()
    {
      assert IsRelease(v, releases);
    }
    minors := ScanMinors(major, valid);
    MultisetMembers(valid, Parsed(releases));
    SameMembers(minors, valid, Parsed(releases), major);
  }

  lemma SameMembers(minors: seq<Version>, vs: seq<Version>, ws: seq<Version>, major: nat)
    requires forall v :: v in vs <==> v in ws
    ensures NewestMinors(minors, vs, major, 3) <==> NewestMinors(minors, ws, major, 3)
    ensures SpelledAlike(vs, major) <==> SpelledAlike(ws, major)
  {
    forall v
      ensures AtTheTop(v, vs, major) <==> AtTheTop(v, ws, major)
    {
    }
  }

  lemma CanonicalIsSpelledAlike(vs: seq<Version>, major: nat)
    requires forall v | v in vs :: v.minor.IsCanonical()
    ensures SpelledAlike(vs, major)
  {
    forall v, w | v in vs && w in vs && v.minor.value == w.minor.value
      ensures v.minor.text == w.minor.text
    {
      CanonicalNumerals(v.minor, w.minor);
    }
  }

  /** 1.2.1 and 1.02.0 are of one minor, spelled in two ways. */
  lemma TwoSpellings() returns (vs: seq<Version>)
    ensures AllFaithful(vs) && Ordered(NotOlder, vs) && !SpelledAlike(vs, 1)
  {
    assert Value("0") == 0 && Value("1") == 1 && Value("2") == 2 by {
      assert "0"[..0] == "" && "1"[..0] == "" && "2"[..0] == "";
    }
    assert Value("02") == 2 by {
      assert "02"[..1] == "0";
    }
    var a := Version(NumeralOf("1"), NumeralOf("2"), NumeralOf("1"));
    var b := Version(NumeralOf("1"), NumeralOf("02"), NumeralOf("0"));
    vs := [a, b];
    assert vs[0] == a && vs[1] == b && a.minor.text != b.minor.text;
    forall x, y | x in vs && y in vs
      ensures !Above(x, y, a, 1)
    {
    }
    assert AtTheTop(a, vs, 1) && Twins(a, b, 1);
  }
}
