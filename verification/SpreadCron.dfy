/** Reading and writing the cron expressions of the spread jobs. */
module SpreadCron {
  import opened Wrappers
  import opened Strings
  import opened Sorting
  import opened SpreadModel

  datatype CronError = InvalidExpression | TooFewFields | InvalidMinute | MinuteOutOfRange | InvalidHour | HourOutOfRange

  // ----- printing -----

  function HourStrings(hours: seq<int>): (r: seq<string>)
    requires forall i | 0 <= i < |hours| :: hours[i] >= 0
    ensures |r| == |hours| && forall i | 0 <= i < |r| :: r[i] == Itoa(hours[i])
  {
    seq(|hours|, i requires 0 <= i < |hours| => Itoa(hours[i]))
  }

  method FormatHours(hours: seq<int>) returns (s: string)
    requires forall i | 0 <= i < |hours| :: hours[i] >= 0
    ensures s == Join(HourStrings(hours), ',')
  {
    var parts := [];
    for i := 0 to |hours|
      invariant parts == HourStrings(hours)[..i]
    {
      parts := parts + [Itoa(hours[i])];
    }
    assert parts == HourStrings(hours);
    s := Join(parts, ',');
  }

  function Printed(c: CronInfo): string
    requires c.minute >= 0 && forall i | 0 <= i < |c.hours| :: c.hours[i] >= 0
  {
    Itoa(c.minute) + " " + Join(HourStrings(c.hours), ',') + " * * *"
  }

  method UpdateCronNodes(jobs: seq<Job>) returns (expressions: seq<string>)
    requires forall j | j in jobs :: j.cron.minute >= 0 && forall i | 0 <= i < |j.cron.hours| :: j.cron.hours[i] >= 0
    ensures |expressions| == |jobs|
    ensures forall k | 0 <= k < |jobs| :: jobs[k] in jobs && expressions[k] == Printed(jobs[k].cron)
  {
    expressions := [];
    for k := 0 to |jobs|
      invariant |expressions| == k
      invariant forall l | 0 <= l < k :: jobs[l] in jobs && expressions[l] == Printed(jobs[l].cron)
    {
      assert jobs[k] in jobs;
      var hours := FormatHours(jobs[k].cron.hours);
      expressions := expressions + [Itoa(jobs[k].cron.minute) + " " + hours + " * * *"];
    }
  }

  // ----- parsing -----

  /** Go's `strings.Fields`, for blanks. */
  function NonEmpty(parts: seq<string>): seq<string> {
    if parts == [] then [] else (if parts[0] == [] then [] else [parts[0]]) + NonEmpty(parts[1..])
  }

  function Fields(s: string): seq<string> {
    NonEmpty(Split(s, ' '))
  }

  function ParsedHour(s: string): Result<int, CronError> {
    var h := Atoi(s);
    if h.None? then Err(InvalidHour)
    else if h.value < 0 || h.value > 23 then Err(HourOutOfRange)
    else Ok(h.value)
  }

  function ParsedHours(parts: seq<string>): (r: Result<seq<int>, CronError>)
    ensures r.Ok? ==> |r.value| == |parts| && forall i | 0 <= i < |parts| :: ParsedHour(parts[i]) == Ok(r.value[i])
  {
    if parts == [] then Ok([])
    else
      var front :- ParsedHours(parts[..|parts| - 1]);
      var last :- ParsedHour(parts[|parts| - 1]);
      Ok(front + [last])
  }

  /** The parsed schedule; `accepted` is the verdict of the cron library on the whole expression. */
  function Parsed(expr: string, accepted: bool): Result<CronInfo, CronError> {
    var parts := Fields(expr);
    if !accepted then Err(InvalidExpression)
    else if |parts| < 5 then Err(TooFewFields)
    else
      var minute := Atoi(parts[0]);
      if minute.None? then Err(InvalidMinute)
      else if minute.value < 0 || minute.value > 59 then Err(MinuteOutOfRange)
      else
        var hours :- ParsedHours(Split(parts[1], ','));
        Ok(CronInfo(minute.value, SortInts(hours)))
  }

  lemma {:induction false} FirstBadHourDecides(parts: seq<string>, i: nat)
    requires i < |parts| && ParsedHours(parts[..i]).Ok? && ParsedHour(parts[i]).Err?
    ensures ParsedHours(parts) == Err(ParsedHour(parts[i]).error)
    decreases |parts|
  {
    if i < |parts| - 1 {
      assert parts[..|parts| - 1][..i] == parts[..i];
      FirstBadHourDecides(parts[..|parts| - 1], i);
    }
  }

  method ParseSpreadCron(expr: string, accepted: bool) returns (r: Result<CronInfo, CronError>)
    ensures r == Parsed(expr, accepted)
  {
    if !accepted {
      return Err(InvalidExpression);
    }
    var parts := Fields(expr);
    if |parts| < 5 {
      return Err(TooFewFields);
    }
    var minute := Atoi(parts[0]);
    if minute.None? {
      return Err(InvalidMinute);
    }
    if minute.value < 0 || minute.value > 59 {
      return Err(MinuteOutOfRange);
    }
    var hourParts := Split(parts[1], ',');
    var hours: seq<int> := [];
    for i := 0 to |hourParts|
      invariant ParsedHours(hourParts[..i]) == Ok(hours)
    {
      assert hourParts[..i + 1][..i] == hourParts[..i];
      var h := Atoi(hourParts[i]);
      if h.None? {
        FirstBadHourDecides(hourParts, i);
        return Err(InvalidHour);
      }
      if h.value < 0 || h.value > 23 {
        FirstBadHourDecides(hourParts, i);
        return Err(HourOutOfRange);
      }
      hours := hours + [h.value];
    }
    assert hourParts[..|hourParts|] == hourParts;
    return Ok(CronInfo(minute.value, SortInts(hours)));
  }

  // ----- round trips -----

  /** A schedule within the clock. */
  predicate OnTheClock(c: CronInfo) {
    0 <= c.minute <= 59 && c.hours != [] && forall i | 0 <= i < |c.hours| :: 0 <= c.hours[i] <= 23
  }

  lemma DigitsAreNoSeparators(n: nat)
    ensures ' ' !in Itoa(n) && ',' !in Itoa(n)
  {
    assert forall c | c in Itoa(n) :: IsDigit(c);
  }

  lemma {:induction false} NotInJoin(parts: seq<string>, sep: char, c: char)
    requires c != sep && forall i | 0 <= i < |parts| :: c !in parts[i]
    ensures c !in Join(parts, sep)
  {
    if |parts| > 1 {
      NotInJoin(parts[1..], sep, c);
    }
  }

  lemma {:induction false} JoinIsNonempty(parts: seq<string>, sep: char)
    requires parts != [] && parts[0] != []
    ensures Join(parts, sep) != []
  {
  }

  lemma FieldsOfPrinted(c: CronInfo)
    requires OnTheClock(c)
    ensures Fields(Printed(c)) == [Itoa(c.minute), Join(HourStrings(c.hours), ','), "*", "*", "*"]
  {
    var m, h := Itoa(c.minute), Join(HourStrings(c.hours), ',');
    DigitsAreNoSeparators(c.minute);
    forall i | 0 <= i < |c.hours|
      ensures ' ' !in HourStrings(c.hours)[i]
    {
      DigitsAreNoSeparators(c.hours[i]);
    }
    NotInJoin(HourStrings(c.hours), ',', ' ');
    JoinIsNonempty(HourStrings(c.hours), ',');
    FiveFields(m, h);
  }

  lemma FiveFields(m: string, h: string)
    requires m != [] && h != [] && ' ' !in m && ' ' !in h
    ensures Fields(m + " " + h + " * * *") == [m, h, "*", "*", "*"]
  {
    assert m + " " + h + " * * *" == m + [' '] + (h + [' '] + "* * *");
    SplitAfterPart(m, h + [' '] + "* * *", ' ');
    SplitAfterPart(h, "* * *", ' ');
    assert "* * *" == "*" + [' '] + ("*" + [' '] + "*");
    SplitAfterPart("*", "*" + [' '] + "*", ' ');
    SplitAfterPart("*", "*", ' ');
    var parts := [m, h, "*", "*", "*"];
    assert Split(m + " " + h + " * * *", ' ') == parts;
    NothingToDrop(parts);
  }

  /** Words with a blank between any two. */
  ghost predicate AreWords(words: seq<string>) {
    words != [] && forall i | 0 <= i < |words| :: words[i] != [] && ' ' !in words[i]
  }

  lemma FieldsOfWords(words: seq<string>)
    requires AreWords(words)
    ensures Fields(Join(words, ' ')) == words
  {
    SplitOfJoin(words, ' ');
    NothingToDrop(words);
  }

  predicate IsBetween(s: string, lo: int, hi: int) {
    Atoi(s).Some? && lo <= Atoi(s).value <= hi
  }

  lemma {:induction false} HoursAreReadIff(parts: seq<string>)
    ensures ParsedHours(parts).Ok? <==> forall i | 0 <= i < |parts| :: IsBetween(parts[i], 0, 23)
    ensures ParsedHours(parts).Ok? ==> forall i | 0 <= i < |parts| :: Atoi(parts[i]) == Some(ParsedHours(parts).value[i])
  {
    if parts != [] {
      HoursAreReadIff(parts[..|parts| - 1]);
    }
  }

  /** An accepted expression of words is read if and only if it has five of them, the first is a
      minute and the second a list of hours; it is read as that minute and, in order, those hours. */
  lemma WhatIsRead(words: seq<string>, accepted: bool)
    requires AreWords(words)
    ensures var r := Parsed(Join(words, ' '), accepted);
            && (r.Ok? <==> accepted && |words| >= 5 && IsBetween(words[0], 0, 59)
                           && forall h | h in Split(words[1], ',') :: IsBetween(h, 0, 23))
            && (r.Ok? ==> |words| >= 5 && r.value.minute == Atoi(words[0]).value && Ordered(IntLe, r.value.hours)
                          && forall h :: h in r.value.hours <==> exists p | p in Split(words[1], ',') :: Atoi(p) == Some(h))
  {
    FieldsOfWords(words);
    if |words| >= 5 {
      var parts := Split(words[1], ',');
      HoursAreReadIff(parts);
      if ParsedHours(parts).Ok? {
        var hours := ParsedHours(parts).value;
        MultisetMembers(SortInts(hours), hours);
        HoursHave(parts, hours);
      }
    }
  }

  lemma HoursHave(parts: seq<string>, hours: seq<int>)
    requires |parts| == |hours| && forall i | 0 <= i < |parts| :: Atoi(parts[i]) == Some(hours[i])
    ensures forall h :: h in hours <==> exists p | p in parts :: Atoi(p) == Some(h)
  {
    forall h
      ensures h in hours <==> exists p | p in parts :: Atoi(p) == Some(h)
    {
      if h in hours {
        var i :| 0 <= i < |hours| && hours[i] == h;
        assert parts[i] in parts;
      }
    }
  }

  lemma {:induction false} NothingToDrop(parts: seq<string>)
    requires forall i | 0 <= i < |parts| :: parts[i] != []
    ensures NonEmpty(parts) == parts
  {
    if parts != [] {
      NothingToDrop(parts[1..]);
    }
  }

  lemma {:induction false} HoursOfStrings(hours: seq<int>)
    requires forall i | 0 <= i < |hours| :: 0 <= hours[i] <= 23
    ensures ParsedHours(HourStrings(hours)) == Ok(hours)
  {
    if hours != [] {
      var front := hours[..|hours| - 1];
      HoursOfStrings(front);
      assert HourStrings(hours)[..|hours| - 1] == HourStrings(front);
      AtoiOfItoa(hours[|hours| - 1]);
      assert hours == front + [hours[|hours| - 1]];
    }
  }

  lemma HoursOfPrinted(c: CronInfo)
    requires OnTheClock(c)
    ensures ParsedHours(Split(Join(HourStrings(c.hours), ','), ',')) == Ok(c.hours)
  {
    forall p | p in HourStrings(c.hours)
      ensures ',' !in p
    {
      var i :| 0 <= i < |c.hours| && p == Itoa(c.hours[i]);
      DigitsAreNoSeparators(c.hours[i]);
    }
    SplitOfJoin(HourStrings(c.hours), ',');
    HoursOfStrings(c.hours);
  }

  /** Parsing what was printed gives the minute back, and the hours in ascending order. */
  lemma ParsePrinted(c: CronInfo)
    requires OnTheClock(c)
    ensures Parsed(Printed(c), true) == Ok(CronInfo(c.minute, SortInts(c.hours)))
  {
    FieldsOfPrinted(c);
    AtoiOfItoa(c.minute);
    HoursOfPrinted(c);
  }

  /** The round trip is exact for a schedule on the clock precisely when its hours ascend. */
  lemma RoundTripIff(c: CronInfo)
    requires OnTheClock(c)
    ensures Parsed(Printed(c), true) == Ok(c) <==> Ordered(IntLe, c.hours)
  {
    ParsePrinted(c);
    if Ordered(IntLe, c.hours) {
      SortIsUnique(IntLe, SortInts(c.hours), c.hours);
    }
  }

  /** Every schedule the spreader produces survives being written and read. */
  lemma SpreadSchedulesRoundTrip(f: nat, n: nat, i: nat)
    requires 1 <= f <= 24 && i < n
    ensures OnTheClock(Slot(f, n, i))
    ensures Parsed(Printed(Slot(f, n, i)), true) == Ok(Slot(f, n, i))
  {
    SlotIsEven(f, n, i);
    PeriodIsAPart(f);
    var c := Slot(f, n, i);
    forall a, b | 0 <= a < b < |c.hours|
      ensures IntLe(c.hours[a], c.hours[b])
    {
      assert c.hours[a] * 60 + c.minute == i * Stagger(f, n) + a * Period(f) * 60;
      assert c.hours[b] * 60 + c.minute == i * Stagger(f, n) + b * Period(f) * 60;
      MulCancels(a, b, Period(f));
    }
    RoundTripIff(c);
  }

  /** Whatever is read can be written and read again without a change. */
  lemma ParsedSchedulesAreStable(expr: string, accepted: bool)
    requires Parsed(expr, accepted).Ok?
    ensures OnTheClock(Parsed(expr, accepted).value)
    ensures Parsed(Printed(Parsed(expr, accepted).value), true) == Parsed(expr, accepted)
  {
    ParsedIsOnTheClock(expr, accepted);
    RoundTripIff(Parsed(expr, accepted).value);
  }

  lemma ParsedIsOnTheClock(expr: string, accepted: bool)
    requires Parsed(expr, accepted).Ok?
    ensures OnTheClock(Parsed(expr, accepted).value) && Ordered(IntLe, Parsed(expr, accepted).value.hours)
  {
    SortedHours(Split(Fields(expr)[1], ','));
  }

  lemma SortedHours(parts: seq<string>)
    requires parts != [] && ParsedHours(parts).Ok?
    ensures var hours := SortInts(ParsedHours(parts).value);
            hours != [] && Ordered(IntLe, hours) && forall i | 0 <= i < |hours| :: 0 <= hours[i] <= 23
  {
    var read := ParsedHours(parts).value;
    var hours := SortInts(read);
    HoursAreReadIff(parts);
    MultisetMembers(hours, read);
    forall i | 0 <= i < |hours|
      ensures 0 <= hours[i] <= 23
    {
      assert hours[i] in read;
      var k :| 0 <= k < |read| && read[k] == hours[i];
      assert IsBetween(parts[k], 0, 23) && Atoi(parts[k]) == Some(read[k]);
    }
  }

  /** Duplicate-free hours keep the frequency within the range the spreader terminates for. */
  lemma DistinctHoursAreAtMost24(c: CronInfo)
    requires OnTheClock(c)
    requires forall i, j | 0 <= i < j < |c.hours| :: c.hours[i] != c.hours[j]
    ensures 1 <= |c.hours| <= 24
  {
    DistinctBelow(c.hours, 24);
  }

  lemma {:induction false} DistinctBelow(s: seq<int>, n: nat)
    requires forall i | 0 <= i < |s| :: 0 <= s[i] < n
    requires forall i, j | 0 <= i < j < |s| :: s[i] != s[j]
    ensures |s| <= n
  {
    assert s != [] ==> 0 <= s[0] < n;
    if i :| 0 <= i < |s| && s[i] == n - 1 {
      DistinctBelow(s[..i] + s[i + 1..], n - 1);
    } else if n > 0 {
      DistinctBelow(s, n - 1);
    }
  }
}
