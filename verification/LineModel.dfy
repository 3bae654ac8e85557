/** Line tables of a file, and the line numbers computed by counting newlines on the way. */
module LineModel {
  import opened Strings
  import opened Sorting
  import opened Outline
  import opened ChangedTests

  datatype Lines = Lines(lines: seq<string>, start: seq<nat>, end: seq<nat>)

  /** Line `i` is the text between its bounds and has no newline in it. */
  ghost predicate LineAt(content: string, m: Lines, i: nat)
    requires i < |m.lines| == |m.start| == |m.end|
  {
    && m.start[i] <= m.end[i] <= |content|
    && content[m.start[i]..m.end[i]] == m.lines[i]
    && '\n' !in m.lines[i]
  }

  /** Between line `i` and the next there is exactly one newline. */
  ghost predicate NewlineAfter(content: string, m: Lines, i: nat)
    requires i + 1 < |m.lines| == |m.start| == |m.end|
  {
    m.end[i] + 1 == m.start[i + 1] && NewlineAt(content, m.end[i])
  }

  /** The lines tile the file. */
  ghost predicate Tiles(content: string, m: Lines) {
    && |m.lines| == |m.start| == |m.end| > 0
    && (forall i | 0 <= i < |m.lines| :: LineAt(content, m, i))
    && (forall i | 0 <= i < |m.lines| - 1 :: NewlineAfter(content, m, i))
    && m.start[0] == 0
    && m.end[|m.end| - 1] == |content|
  }

  /** Offset of line `i` when every line is followed by one newline. */
  function OffsetOf(lines: seq<string>, i: nat): nat
    requires i <= |lines|
  {
    if i == 0 then 0 else OffsetOf(lines, i - 1) + |lines[i - 1]| + 1
  }

  lemma {:induction false} OffsetHolds(content: string, lines: seq<string>, i: nat)
    requires lines != [] && content == Join(lines, '\n') && i < |lines|
    ensures OffsetOf(lines, i) <= |content|
    ensures content[OffsetOf(lines, i)..] == Join(lines[i..], '\n')
  {
    if i == 0 {
      assert lines[0..] == lines;
    } else {
      OffsetHolds(content, lines, i - 1);
      var o := OffsetOf(lines, i - 1);
      assert lines[i - 1..][1..] == lines[i..];
      assert content[o..] == lines[i - 1] + ['\n'] + Join(lines[i..], '\n');
      assert content[o..][|lines[i - 1]| + 1..] == content[OffsetOf(lines, i)..];
    }
  }

  /** The first entries of the tables, for the first |start| lines. */
  ghost predicate Tabulated(lines: seq<string>, start: seq<nat>, end: seq<nat>) {
    && |start| == |end| <= |lines|
    && (forall j | 0 <= j < |start| :: start[j] == OffsetOf(lines, j))
    && (forall j | 0 <= j < |end| :: end[j] == OffsetOf(lines, j) + |lines[j]|)
  }

  lemma TabulatedAt(lines: seq<string>, start: seq<nat>, end: seq<nat>, i: nat)
    requires Tabulated(lines, start, end) && i < |start|
    ensures start[i] == OffsetOf(lines, i) && end[i] == OffsetOf(lines, i) + |lines[i]|
    ensures i + 1 < |start| ==> start[i + 1] == OffsetOf(lines, i) + |lines[i]| + 1
  {
  }

  /** What the file holds from the offset of line `i` on. */
  ghost predicate HasLineAt(content: string, o: nat, line: string, last: bool) {
    && o + |line| <= |content| && content[o..o + |line|] == line
    && if last then o + |line| == |content| else NewlineAt(content, o + |line|)
  }

  lemma LineText(content: string, lines: seq<string>, i: nat)
    requires i < |lines| && content == Join(lines, '\n')
    ensures HasLineAt(content, OffsetOf(lines, i), lines[i], i == |lines| - 1)
  {
    OffsetHolds(content, lines, i);
    JoinFrom(lines, i);
    SliceAt(content, OffsetOf(lines, i), lines[i], AfterLine(lines, i));
  }

  lemma TileFromText(content: string, m: Lines, i: nat, o: nat)
    requires i < |m.lines| == |m.start| == |m.end|
    requires m.start[i] == o && m.end[i] == o + |m.lines[i]|
    requires i + 1 < |m.lines| ==> m.start[i + 1] == o + |m.lines[i]| + 1
    requires HasLineAt(content, o, m.lines[i], i == |m.lines| - 1) && '\n' !in m.lines[i]
    ensures LineAt(content, m, i)
    ensures i < |m.lines| - 1 ==> NewlineAfter(content, m, i)
    ensures i == |m.lines| - 1 ==> m.end[i] == |content|
  {
  }

  lemma OffsetsTileAt(content: string, m: Lines, i: nat)
    requires m.lines == Split(content, '\n')
    requires |m.start| == |m.lines| && Tabulated(m.lines, m.start, m.end)
    requires i < |m.lines|
    ensures LineAt(content, m, i)
    ensures i < |m.lines| - 1 ==> NewlineAfter(content, m, i)
    ensures i == |m.lines| - 1 ==> m.end[i] == |content|
  {
    SplitParts(content, '\n');
    assert m.lines[i] in m.lines;
    LineText(content, m.lines, i);
    TabulatedAt(m.lines, m.start, m.end, i);
    TileFromText(content, m, i, OffsetOf(m.lines, i));
  }

  function AfterLine(lines: seq<string>, i: nat): string
    requires i < |lines|
  {
    if i == |lines| - 1 then [] else ['\n'] + Join(lines[i + 1..], '\n')
  }

  lemma JoinFrom(lines: seq<string>, i: nat)
    requires i < |lines|
    ensures Join(lines[i..], '\n') == lines[i] + AfterLine(lines, i)
  {
    assert lines[i..][0] == lines[i];
    assert lines[i..][1..] == lines[i + 1..];
  }

  lemma SliceAt(content: string, o: nat, line: string, after: string)
    requires o <= |content| && content[o..] == line + after
    ensures |content| == o + |line| + |after|
    ensures content[o..o + |line|] == line
    ensures after != [] ==> content[o + |line|] == after[0]
  {
    assert content[o..o + |line|] == content[o..][..|line|];
    assert after != [] ==> content[o..][|line|] == after[0];
  }

  lemma OffsetsTile(content: string, m: Lines)
    requires m.lines == Split(content, '\n')
    requires |m.start| == |m.lines| && Tabulated(m.lines, m.start, m.end)
    ensures Tiles(content, m)
  {
    forall i | 0 <= i < |m.lines|
      ensures LineAt(content, m, i)
      ensures i < |m.lines| - 1 ==> NewlineAfter(content, m, i)
      ensures i == |m.lines| - 1 ==> m.end[i] == |content|
    {
      OffsetsTileAt(content, m, i);
    }
  }

  lemma TabulatedSnoc(lines: seq<string>, start: seq<nat>, end: seq<nat>)
    requires Tabulated(lines, start, end) && |start| < |lines|
    ensures var o := OffsetOf(lines, |start|);
            Tabulated(lines, start + [o], end + [o + |lines[|start|]|])
  {
    var n := |start|;
    var o := OffsetOf(lines, n);
    forall j | 0 <= j <= n
      ensures (start + [o])[j] == OffsetOf(lines, j)
      ensures (end + [o + |lines[n]|])[j] == OffsetOf(lines, j) + |lines[j]|
    {
      if j < n {
        assert start[j] == OffsetOf(lines, j) && end[j] == OffsetOf(lines, j) + |lines[j]|;
      }
    }
  }

  /** The tables are built from the lengths of the split lines alone. */
  method NewLineModel(content: string) returns (m: Lines)
    ensures m.lines == Split(content, '\n')
    ensures Tiles(content, m)
  {
    var lines := Split(content, '\n');
    var start: seq<nat>, end: seq<nat> := [], [];
    var charIndex: nat := 0;
    for i := 0 to |lines|
      invariant |start| == i && charIndex == OffsetOf(lines, i)
      invariant Tabulated(lines, start, end)
    {
      TabulatedSnoc(lines, start, end);
      start := start + [charIndex];
      end := end + [charIndex + |lines[i]|];
      charIndex := charIndex + |lines[i]| + 1;
    }
    m := Lines(lines, start, end);
    OffsetsTile(content, m);
  }

  // ----- changed lines to paths -----

  function CharRangeForLine(m: Lines, lineNo: nat): CharRange
    requires 1 <= lineNo <= |m.start| == |m.end|
  {
    CharRange(m.start[lineNo - 1], m.end[lineNo - 1])
  }

  /** The line numbers exist; the table lookup panics on others. */
  predicate LinesExist(m: Lines, lines: seq<int>) {
    |m.start| == |m.end| && forall i | 0 <= i < |lines| :: 1 <= lines[i] <= |m.start|
  }

  function RangesFor(m: Lines, lines: seq<int>): (r: seq<CharRange>)
    requires LinesExist(m, lines)
    ensures |r| == |lines| && forall i | 0 <= i < |r| :: r[i] == CharRangeForLine(m, lines[i])
  {
    seq(|lines|, i requires 0 <= i < |lines| => CharRangeForLine(m, lines[i]))
  }

  /** The end of one of the lines lies inside the node. */
  ghost predicate HitByLine(m: Lines, lines: seq<int>, n: Node)
    requires LinesExist(m, lines)
  {
    exists i | 0 <= i < |lines| :: n.start <= m.end[lines[i] - 1] < n.end
  }

  lemma HitIsHitByLine(m: Lines, lines: seq<int>, n: Node)
    requires LinesExist(m, lines)
    ensures Hit(RangesFor(m, lines), n) <==> HitByLine(m, lines, n)
  {
    var rs := RangesFor(m, lines);
    if HitByLine(m, lines, n) {
      var i :| 0 <= i < |lines| && n.start <= m.end[lines[i] - 1] < n.end;
      assert rs[i] in rs;
    }
    if Hit(rs, n) {
      var r :| r in rs && n.start <= r.end && r.end < n.end;
      var i :| 0 <= i < |rs| && rs[i] == r;
      assert n.start <= m.end[lines[i] - 1] < n.end;
    }
  }

  lemma SameLinesSameHits(m: Lines, a: seq<int>, b: seq<int>, n: Node)
    requires LinesExist(m, a) && LinesExist(m, b)
    requires forall l :: l in a <==> l in b
    ensures HitByLine(m, a, n) ==> HitByLine(m, b, n)
  {
    if i :| 0 <= i < |a| && n.start <= m.end[a[i] - 1] < n.end {
      assert a[i] in b;
      var j :| 0 <= j < |b| && b[j] == a[i];
    }
  }

  /** Order and repetition of the ranges do not matter. */
  lemma {:induction false} SameHitsSamePruning(a: seq<CharRange>, b: seq<CharRange>, nodes: seq<Node>)
    requires forall n :: Hit(a, n) <==> Hit(b, n)
    ensures FindMatchingChildren(a, nodes) == FindMatchingChildren(b, nodes)
  {
    if nodes != [] {
      SameHitsSamePruning(a, b, nodes[0].nodes);
      SameHitsSamePruning(a, b, nodes[1..]);
    }
  }

  method GetPathsForLines(m: Lines, outline: seq<Node>, lines: seq<int>) returns (paths: seq<seq<Node>>)
    requires LinesExist(m, lines)
    ensures paths == PathsForRanges(RangesFor(m, lines), outline)
  {
    var sorted := SortInts(lines);
    MultisetMembers(sorted, lines);
    forall i | 0 <= i < |sorted|
      ensures 1 <= sorted[i] <= |m.start|
    {
      assert sorted[i] in lines;
    }
    var charRanges := [];
    for i := 0 to |sorted|
      invariant charRanges == RangesFor(m, sorted[..i])
    {
      charRanges := charRanges + [CharRangeForLine(m, sorted[i])];
    }
    assert sorted[..|sorted|] == sorted;
    forall n
      ensures Hit(charRanges, n) <==> Hit(RangesFor(m, lines), n)
    {
      HitIsHitByLine(m, sorted, n);
      HitIsHitByLine(m, lines, n);
      SameLinesSameHits(m, sorted, lines, n);
      SameLinesSameHits(m, lines, sorted, n);
    }
    SameHitsSamePruning(charRanges, RangesFor(m, lines), outline);
    paths := ExpandPaths([], FindMatchingChildren(charRanges, outline));
  }

  // ----- counting newlines -----

  predicate NewlineAt(s: string, i: int) {
    0 <= i < |s| && s[i] == '\n'
  }

  /** Newlines of `s` in [from, to). */
  function Newlines(s: string, from: nat, to: int): nat
    decreases to - from
  {
    if from >= to then 0 else (if NewlineAt(s, to - 1) then 1 else 0) + Newlines(s, from, to - 1)
  }

  method NewlineCount(s: string, start: nat, end: int) returns (n: nat)
    ensures n == Newlines(s, start, end)
  {
    n := 0;
    var i := start;
    while i < |s| && i < end
      invariant start <= i
      invariant start < end ==> i <= end
      invariant start >= end ==> i == start
      invariant n == Newlines(s, start, i)
    {
      if s[i] == '\n' {
        n := n + 1;
      }
      i := i + 1;
    }
    if start < end {
      NoNewlinesAfterTheEnd(s, start, i, end);
    }
  }

  lemma {:induction false} NoNewlinesAfterTheEnd(s: string, start: nat, i: nat, end: int)
    requires start <= i <= end && (i >= |s| || i >= end)
    ensures Newlines(s, start, i) == Newlines(s, start, end)
    decreases end - i
  {
    if i < end {
      NoNewlinesAfterTheEnd(s, start, i + 1, end);
    }
  }

  lemma {:induction false} NewlinesAdd(s: string, a: nat, b: nat, c: int)
    requires a <= b <= c
    ensures Newlines(s, a, c) == Newlines(s, a, b) + Newlines(s, b, c)
    decreases c
  {
    if b < c {
      NewlinesAdd(s, a, b, c - 1);
    }
  }

  lemma {:induction false} NoNewlinesIn(s: string, a: nat, b: nat)
    requires forall i | a <= i < b :: !NewlineAt(s, i)
    ensures Newlines(s, a, b) == 0
    decreases b
  {
    if a < b {
      NoNewlinesIn(s, a, b - 1);
    }
  }

  /** The 1-based number of the line that holds offset `o`. */
  function LineOf(s: string, o: nat): nat {
    1 + Newlines(s, 0, o)
  }

  lemma {:induction false} LineStartsAfterItsNewlines(s: string, m: Lines, i: nat, o: nat)
    requires Tiles(s, m) && i < |m.lines| && m.start[i] <= o <= m.end[i]
    ensures LineOf(s, o) == i + 1
    decreases i
  {
    assert LineAt(s, m, i);
    forall k | m.start[i] <= k < o
      ensures !NewlineAt(s, k)
    {
      assert s[k] == s[m.start[i]..m.end[i]][k - m.start[i]] == m.lines[i][k - m.start[i]];
    }
    NoNewlinesIn(s, m.start[i], o);
    NewlinesAdd(s, 0, m.start[i], o);
    if i > 0 {
      assert NewlineAfter(s, m, i - 1) && LineAt(s, m, i - 1);
      LineStartsAfterItsNewlines(s, m, i - 1, m.end[i - 1]);
    }
  }

  lemma {:induction false} SomeLineHolds(s: string, m: Lines, i: nat, o: nat) returns (l: nat)
    requires Tiles(s, m) && i < |m.lines| && m.start[i] <= o <= |s|
    ensures l < |m.lines| && m.start[l] <= o <= m.end[l]
    decreases |m.lines| - i
  {
    assert LineAt(s, m, i);
    assert i < |m.lines| - 1 ==> NewlineAfter(s, m, i);
    if o <= m.end[i] {
      l := i;
    } else {
      l := SomeLineHolds(s, m, i + 1, o);
    }
  }

  /** Counting newlines and looking into the tables agree on every offset of the file. */
  lemma LineOfAgreesWithTheTables(s: string, m: Lines, o: nat, i: nat)
    requires Tiles(s, m) && o <= |s| && i < |m.lines|
    ensures LineOf(s, o) == i + 1 <==> m.start[i] <= o <= m.end[i]
  {
    var l := SomeLineHolds(s, m, 0, o);
    LineStartsAfterItsNewlines(s, m, l, o);
    if m.start[i] <= o <= m.end[i] {
      LineStartsAfterItsNewlines(s, m, i, o);
    }
  }

  // ----- which changed lines hit a node -----

  lemma {:induction false} LinesGrow(s: string, o: nat, p: nat)
    requires o <= p
    ensures LineOf(s, o) <= LineOf(s, p)
  {
    NewlinesAdd(s, 0, o, p);
  }

  /** The end of line `l` lies before `o` exactly when `o` is on a later line. */
  lemma LineEndsBefore(s: string, m: Lines, l: nat, o: nat)
    requires Tiles(s, m) && 1 <= l <= |m.lines| && o <= |s|
    ensures m.end[l - 1] < o <==> l < LineOf(s, o)
  {
    var e := m.end[l - 1];
    assert LineAt(s, m, l - 1);
    LineStartsAfterItsNewlines(s, m, l - 1, e);
    if o <= e {
      LinesGrow(s, o, e);
    } else {
      assert NewlineAfter(s, m, l - 1) && LineAt(s, m, l);
      LineStartsAfterItsNewlines(s, m, l, m.start[l]);
      LinesGrow(s, m.start[l], o);
    }
  }

  /** A changed line hits the nodes that start on it or before and end on a later line. */
  lemma LineHitsIff(s: string, m: Lines, l: nat, n: Node)
    requires Tiles(s, m) && 1 <= l <= |m.lines|
    requires 0 <= n.start <= |s| && 0 <= n.end <= |s|
    ensures Hit([CharRangeForLine(m, l)], n) <==> LineOf(s, n.start) <= l < LineOf(s, n.end)
  {
    LineEndsBefore(s, m, l, n.start);
    LineEndsBefore(s, m, l, n.end);
    var r := CharRangeForLine(m, l);
    assert [r][0] == r && forall x | x in [r] :: x == r;
  }

  lemma ChangedLinesHitIff(s: string, m: Lines, lines: seq<int>, n: Node)
    requires Tiles(s, m) && LinesExist(m, lines)
    requires 0 <= n.start <= |s| && 0 <= n.end <= |s|
    ensures Hit(RangesFor(m, lines), n) <==> exists i | 0 <= i < |lines| :: LineOf(s, n.start) <= lines[i] < LineOf(s, n.end)
  {
    HitIsHitByLine(m, lines, n);
    forall i | 0 <= i < |lines|
      ensures n.start <= m.end[lines[i] - 1] < n.end <==> LineOf(s, n.start) <= lines[i] < LineOf(s, n.end)
    {
      LineEndsBefore(s, m, lines[i], n.start);
      LineEndsBefore(s, m, lines[i], n.end);
    }
  }

  /** So changing the only line of a node never hits it, and it is reported only as part of an
      enclosing node none of whose children is hit. */
  lemma OneLineNodesAreNeverHit(s: string, m: Lines, lines: seq<int>, n: Node)
    requires Tiles(s, m) && LinesExist(m, lines)
    requires 0 <= n.start <= |s| && 0 <= n.end <= |s| && LineOf(s, n.start) == LineOf(s, n.end)
    ensures !Hit(RangesFor(m, lines), n)
  {
    ChangedLinesHitIff(s, m, lines, n);
  }

  function Leaf(start: int, end: int): Node {
    Node("It", "", start, end, true, false, false, [], [])
  }

  lemma ExpandOne(parents: seq<Node>, n: Node)
    ensures ExpandPaths(parents, [n]) ==
            if n.nodes == [] then [parents + [n]] else ExpandPaths(parents + [CloneWithoutNodes(n)], n.nodes)
  {
    assert [n][1..] == [];
  }

  lemma PruneOne(ranges: seq<CharRange>, n: Node)
    requires Hit(ranges, n)
    ensures FindMatchingChildren(ranges, [n]) == [Image(ranges, n)]
  {
    assert [n][1..] == [];
  }

  lemma PruneTwo(ranges: seq<CharRange>, a: Node, b: Node)
    requires a.nodes == [] && Hit(ranges, a) && !Hit(ranges, b)
    ensures FindMatchingChildren(ranges, [a, b]) == [a]
  {
    assert [a, b][1..] == [b] && [b][1..] == [];
    assert Image(ranges, a) == a;
  }

  lemma PathsOfTwo(ranges: seq<CharRange>, d: Node, a: Node, b: Node)
    requires d.nodes == [a, b] && a.nodes == [] && Hit(ranges, d) && Hit(ranges, a) && !Hit(ranges, b)
    ensures PathsForRanges(ranges, [d]) == [[CloneWithoutNodes(d), a]]
  {
    PruneTwo(ranges, a, b);
    PruneOne(ranges, d);
    var clone := Image(ranges, d);
    assert clone == CloneWithoutNodes(d).(nodes := [a]) && CloneWithoutNodes(clone) == CloneWithoutNodes(d);
    ExpandOne([], clone);
    assert [] + [CloneWithoutNodes(clone)] == [CloneWithoutNodes(d)];
    ExpandOne([CloneWithoutNodes(d)], a);
    assert [CloneWithoutNodes(d)] + [a] == [CloneWithoutNodes(d), a];
    assert clone.nodes == [a];
    assert FindMatchingChildren(ranges, [d]) == [clone];
  }

  lemma ThreeLines() returns (s: string, m: Lines)
    ensures Tiles(s, m) && |s| == 6 && m.start == [0, 3, 5] && m.end == [2, 4, 6]
    ensures LineOf(s, 0) == 1 && LineOf(s, 1) == 1 && LineOf(s, 3) == 2 && LineOf(s, 4) == 2 && LineOf(s, 6) == 3
  {
    var lines := ["ab", "c", "d"];
    SplitOfJoin(lines, '\n');
    s := Join(lines, '\n');
    m := Lines(lines, [0, 3, 5], [2, 4, 6]);
    OffsetsOfThree(lines);
    OffsetsTile(s, m);
    LineStartsAfterItsNewlines(s, m, 0, 0);
    LineStartsAfterItsNewlines(s, m, 0, 1);
    LineStartsAfterItsNewlines(s, m, 1, 3);
    LineStartsAfterItsNewlines(s, m, 1, 4);
    LineStartsAfterItsNewlines(s, m, 2, 6);
  }

  /** Lines 1 and 2 changed, the second test lies wholly on line 2, and only the first is reported. */
  lemma ATouchedTestCanBeLost() returns (s: string, m: Lines, d: Node, a: Node, b: Node)
    ensures Tiles(s, m) && LinesExist(m, [1, 2])
    ensures d.nodes == [a, b] && 0 <= b.start < b.end <= |s| && LineOf(s, b.start) == LineOf(s, b.end) == 2
    ensures PathsForRanges(RangesFor(m, [1, 2]), [d]) == [[CloneWithoutNodes(d), a]]
  {
    s, m := ThreeLines();
    a, b := Leaf(1, 3), Leaf(3, 4);
    d := Node("Describe", "", 0, 6, false, false, false, [], [a, b]);
    var lines := [1, 2];
    assert lines[0] == 1 && LinesExist(m, lines);
    ChangedLinesHitIff(s, m, lines, a);
    ChangedLinesHitIff(s, m, lines, b);
    ChangedLinesHitIff(s, m, lines, d);
    PathsOfTwo(RangesFor(m, lines), d, a, b);
  }

  lemma OffsetsOfThree(lines: seq<string>)
    requires |lines| == 3
    ensures OffsetOf(lines, 0) == 0
    ensures OffsetOf(lines, 1) == |lines[0]| + 1
    ensures OffsetOf(lines, 2) == |lines[0]| + |lines[1]| + 2
  {
  }

  // ----- line numbers along a path -----

  /** The line numbers the running counter assigns to nodes starting at `starts`. */
  function RunningLines(s: string, starts: seq<nat>, offset: nat, lineNo: nat): (r: seq<nat>)
    ensures |r| == |starts|
  {
    if starts == [] then []
    else
      var l := lineNo + Newlines(s, offset, starts[0]);
      [l] + RunningLines(s, starts[1..], starts[0] + 1, l)
  }

  lemma RunningNext(s: string, starts: seq<nat>, i: nat, offset: nat, lineNo: nat)
    requires i < |starts|
    ensures var l := lineNo + Newlines(s, offset, starts[i]);
            RunningLines(s, starts[i..], offset, lineNo) == [l] + RunningLines(s, starts[i + 1..], starts[i] + 1, l)
  {
    assert starts[i..][1..] == starts[i + 1..];
  }

  method LinesOfPath(content: string, path: seq<Node>) returns (lineNos: seq<nat>)
    requires forall i | 0 <= i < |path| :: path[i].start >= 0
    ensures lineNos == RunningLines(content, seq(|path|, i requires 0 <= i < |path| => path[i].start), 0, 1)
  {
    ghost var starts: seq<nat> := seq(|path|, i requires 0 <= i < |path| => path[i].start);
    lineNos := [];
    var offset: nat := 0;
    var lineNo := 1;
    for i := 0 to |path|
      invariant lineNos + RunningLines(content, starts[i..], offset, lineNo) == RunningLines(content, starts, 0, 1)
    {
      var n := NewlineCount(content, offset, path[i].start);
      lineNo := lineNo + n;
      RunningNext(content, starts, i, offset, lineNo - n);
      lineNos := lineNos + [lineNo];
      offset := path[i].start + 1;
    }
  }

  ghost predicate Increasing(starts: seq<nat>) {
    forall i | 0 < i < |starts| :: starts[i - 1] < starts[i]
  }

  /** How many of the first `n` nodes start on a newline character. */
  function OnNewline(s: string, starts: seq<nat>, n: nat): nat
    requires n <= |starts|
  {
    if n == 0 then 0 else (if NewlineAt(s, starts[n - 1]) then 1 else 0) + OnNewline(s, starts, n - 1)
  }

  /** The counter falls behind by one for every earlier node that starts on a newline. */
  lemma {:induction false} RunningLineIsLate(s: string, starts: seq<nat>, i: nat)
    requires Increasing(starts) && i < |starts|
    ensures RunningLines(s, starts, 0, 1)[i] + OnNewline(s, starts, i) == LineOf(s, starts[i])
  {
    if i > 0 {
      RunningLineIsLate(s, starts, i - 1);
      RunningStep(s, starts, 0, 1, i);
      NewlinesAdd(s, 0, starts[i - 1] + 1, starts[i]);
    }
  }

  lemma {:induction false} RunningStep(s: string, starts: seq<nat>, offset: nat, lineNo: nat, i: nat)
    requires 0 < i < |starts|
    ensures var r := RunningLines(s, starts, offset, lineNo);
            r[i] == r[i - 1] + Newlines(s, starts[i - 1] + 1, starts[i])
  {
    if i > 1 {
      RunningStep(s, starts[1..], starts[0] + 1, lineNo + Newlines(s, offset, starts[0]), i - 1);
    }
  }

  lemma {:induction false} NoneOnNewline(s: string, starts: seq<nat>, n: nat)
    requires n <= |starts|
    ensures OnNewline(s, starts, n) == 0 <==> forall j | 0 <= j < n :: !NewlineAt(s, starts[j])
  {
    if n > 0 {
      NoneOnNewline(s, starts, n - 1);
    }
  }

  /** All line numbers along a path are right exactly when no node but the last starts on a
      newline character. */
  lemma RunningLinesAreRightIff(s: string, starts: seq<nat>)
    requires Increasing(starts)
    ensures (forall i | 0 <= i < |starts| :: RunningLines(s, starts, 0, 1)[i] == LineOf(s, starts[i]))
            <==> (forall j | 0 <= j < |starts| - 1 :: !NewlineAt(s, starts[j]))
  {
    forall i | 0 <= i < |starts|
      ensures RunningLines(s, starts, 0, 1)[i] == LineOf(s, starts[i]) <==> forall j | 0 <= j < i :: !NewlineAt(s, starts[j])
    {
      RunningLineIsLate(s, starts, i);
      NoneOnNewline(s, starts, i);
    }
    if starts != [] && RunningLines(s, starts, 0, 1)[|starts| - 1] == LineOf(s, starts[|starts| - 1]) {
      assert forall j | 0 <= j < |starts| - 1 :: !NewlineAt(s, starts[j]);
    }
  }

  /** So they are right for an outline, whose nodes start at the first character of a call. */
  lemma RunningLinesAreRight(s: string, starts: seq<nat>, i: nat)
    requires Increasing(starts) && i < |starts|
    requires forall j | 0 <= j < |starts| :: !NewlineAt(s, starts[j])
    ensures RunningLines(s, starts, 0, 1)[i] == LineOf(s, starts[i])
  {
    RunningLinesAreRightIff(s, starts);
  }
}
