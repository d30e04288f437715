/** How weekday lists and times of day are written to their columns and read back, and the weekday list's own check. */
module Codecs {
  import opened Common
  import opened Schedule
  import opened Text

  predicate IsInt16(n: int) { -0x8000 <= n < 0x8000 }

  const INT64_MIN := -0x8000_0000_0000_0000
  const INT64_MAX := 0x7FFF_FFFF_FFFF_FFFF

  // ---- smallint[] ----

  function Itoas(numbers: seq<int>): seq<string> {
    seq(|numbers|, i requires 0 <= i < |numbers| => Itoa(numbers[i]))
  }

  function ArrayLiteral(numbers: seq<int>): string {
    if numbers == [] then "{}" else "{" + Join(Itoas(numbers), ',') + "}"
  }

  function ParseAll(parts: seq<string>): Option<seq<int>> {
    if parts == [] then Some([])
    else
      var front := ParseAll(parts[..|parts| - 1]);
      var last := ParseInt(TrimSpace(parts[|parts| - 1]), -0x8000, 0x7FFF);
      if front.None? || last.None? then None else Some(front.value + [last.value])
  }

  function ArrayOf(literal: string): Option<seq<int>> {
    var body := Trim(TrimSpace(literal), IsBrace);
    if body == "" then Some([]) else ParseAll(Split(body, ','))
  }

  method WriteArray(numbers: seq<int>) returns (literal: string)
    ensures literal == ArrayLiteral(numbers)
  {
    if |numbers| == 0 { return "{}"; }
    var parts: seq<string> := [];
    for i := 0 to |numbers|
      invariant parts == Itoas(numbers[..i])
    {
      parts := parts + [Itoa(numbers[i])];
    }
    assert numbers[..|numbers|] == numbers;
    return "{" + Join(parts, ',') + "}";
  }

  method ReadArray(literal: string) returns (numbers: Option<seq<int>>)
    ensures numbers == ArrayOf(literal)
  {
    var body := Trim(TrimSpace(literal), IsBrace);
    if body == "" { return Some([]); }
    var parts := Split(body, ',');
    var parsed: seq<int> := [];
    for i := 0 to |parts|
      invariant ParseAll(parts[..i]) == Some(parsed)
    {
      assert parts[..i + 1][..i] == parts[..i];
      var number := ParseInt(TrimSpace(parts[i]), -0x8000, 0x7FFF);
      if number.None? {
        FailureStays(parts, i + 1);
        return None;
      }
      parsed := parsed + [number.value];
    }
    assert parts[..|parts|] == parts;
    return Some(parsed);
  }

  lemma {:induction false} FailureStays(parts: seq<string>, n: nat)
    requires n <= |parts| && ParseAll(parts[..n]).None?
    ensures ParseAll(parts).None?
    decreases |parts| - n
  {
    if n < |parts| {
      assert parts[..n + 1][..n] == parts[..n];
      FailureStays(parts, n + 1);
    } else {
      assert parts[..n] == parts;
    }
  }

  /** A number's text is never empty and holds only digits and a minus sign. */
  predicate IsNumeral(s: string) { |s| >= 1 && forall i :: 0 <= i < |s| ==> IsDigit(s[i]) || s[i] == '-' }

  lemma ItoaIsNumeral(n: int)
    ensures IsNumeral(Itoa(n)) && Free(Itoa(n), ',') && TrimSpace(Itoa(n)) == Itoa(n)
  {
  }

  lemma ParseOfNumeral(n: int)
    requires IsInt16(n)
    ensures ParseInt(TrimSpace(Itoa(n)), -0x8000, 0x7FFF) == Some(n)
  {
    ItoaIsNumeral(n);
    ParseOfItoa(n, -0x8000, 0x7FFF);
  }

  predicate Reads(part: string, n: int) { ParseInt(TrimSpace(part), -0x8000, 0x7FFF) == Some(n) }

  lemma ItoasRead(numbers: seq<int>)
    requires forall i :: 0 <= i < |numbers| ==> IsInt16(numbers[i])
    ensures forall i :: 0 <= i < |numbers| ==> Reads(Itoas(numbers)[i], numbers[i])
  {
    forall i | 0 <= i < |numbers| ensures Reads(Itoas(numbers)[i], numbers[i]) {
      ParseOfNumeral(numbers[i]);
    }
  }

  lemma {:induction false} ParseAllReads(parts: seq<string>, numbers: seq<int>)
    requires |parts| == |numbers| && forall i :: 0 <= i < |parts| ==> Reads(parts[i], numbers[i])
    ensures ParseAll(parts) == Some(numbers)
    decreases |parts|
  {
    if parts != [] {
      var last := |parts| - 1;
      ParseAllReads(parts[..last], numbers[..last]);
      assert Reads(parts[last], numbers[last]);
      assert numbers == numbers[..last] + [numbers[last]];
    }
  }

  predicate EndsClean(s: string) {
    |s| >= 1 && !IsSpace(s[0]) && !IsBrace(s[0]) && !IsSpace(s[|s| - 1]) && !IsBrace(s[|s| - 1])
  }

  lemma ItoasAreClean(numbers: seq<int>)
    ensures forall i :: 0 <= i < |numbers| ==> EndsClean(Itoas(numbers)[i]) && Free(Itoas(numbers)[i], ',')
  {
    forall i | 0 <= i < |numbers| ensures EndsClean(Itoas(numbers)[i]) && Free(Itoas(numbers)[i], ',') {
      ItoaIsNumeral(numbers[i]);
    }
  }

  lemma {:induction false} JoinEndsClean(parts: seq<string>)
    requires parts != [] && forall i :: 0 <= i < |parts| ==> EndsClean(parts[i])
    ensures EndsClean(Join(parts, ','))
    decreases |parts|
  {
    if |parts| > 1 { JoinEndsClean(parts[1..]); }
  }

  lemma TrimBraces(body: string)
    requires EndsClean(body)
    ensures Trim(TrimSpace("{" + body + "}"), IsBrace) == body
  {
    var literal := "{" + body + "}";
    assert TrimSpace(literal) == literal;
    assert literal[1..] == body + "}";
    assert (body + "}")[..|body|] == body;
    assert Trim(body + "}", IsBrace) == Trim(body, IsBrace) == body;
  }

  /** Reading undoes writing for every list of int16. */
  lemma ArrayRoundTrip(numbers: seq<int>)
    requires forall i :: 0 <= i < |numbers| ==> IsInt16(numbers[i])
    ensures ArrayOf(ArrayLiteral(numbers)) == Some(numbers)
  {
    if numbers == [] {
      assert "{}"[1..] == "}" && "}"[1..] == "";
    } else {
      ItoasAreClean(numbers);
      JoinEndsClean(Itoas(numbers));
      TrimBraces(Join(Itoas(numbers), ','));
      SplitOfJoin(Itoas(numbers), ',');
      ItoasRead(numbers);
      ParseAllReads(Itoas(numbers), numbers);
    }
  }

  /** The literal is Postgres's: braces around the numbers in decimal, parted by commas. */
  lemma LiteralsAsPostgresWritesThem()
    ensures ArrayLiteral([]) == "{}" && ArrayLiteral([30]) == "{30}" && ArrayLiteral([1, -2]) == "{1,-2}"
  {
    assert Digits(30) == Digits(3) + [DigitChar(0)] == "30";
    assert Itoa(30) == "30" && Itoa(1) == "1" && Itoa(-2) == "-2";
    assert Itoas([30]) == ["30"];
    assert Itoas([1, -2]) == ["1", "-2"];
    assert ["1", "-2"][1..] == ["-2"];
  }

  // ---- time ----

  function ClockText(minutes: nat): string { Pad2(minutes / 60) + ":" + Pad2(minutes % 60) }

  function ClockValue(minutes: nat): string { ClockText(minutes) + ":00" }

  /** Two or three parts, of which a third may be anything at all. */
  function ParseClock(value: string): Option<int> {
    var parts := Split(TrimSpace(value), ':');
    if |parts| < 2 || |parts| > 3 then None
    else
      var hours := ParseInt(parts[0], INT64_MIN, INT64_MAX);
      var minutes := ParseInt(parts[1], INT64_MIN, INT64_MAX);
      if hours.None? || minutes.None? || hours.value < 0 || hours.value > 23 || minutes.value < 0 || minutes.value > 59
      then None else Some(hours.value * 60 + minutes.value)
  }

  lemma ParsedClockIsClock(value: string)
    ensures ParseClock(value).Some? ==> IsClock(ParseClock(value).value)
  {
  }

  lemma Pad2IsNumeral(n: nat)
    ensures IsNumeral(Pad2(n)) && Free(Pad2(n), ':') && !IsSpace(Pad2(n)[0]) && !IsSpace(Pad2(n)[|Pad2(n)| - 1])
  {
  }

  lemma SplitClock(hours: string, minutes: string)
    requires IsNumeral(hours) && IsNumeral(minutes) && Free(hours, ':') && Free(minutes, ':')
    ensures Split(hours + ":" + minutes, ':') == [hours, minutes]
    ensures Split(hours + ":" + minutes + ":00", ':') == [hours, minutes, "00"]
  {
    SplitOfJoin([hours, minutes], ':');
    assert Join([hours, minutes], ':') == hours + ":" + minutes;
    SplitOfJoin([hours, minutes, "00"], ':');
    assert [hours, minutes, "00"][1..] == [minutes, "00"] && [minutes, "00"][1..] == ["00"];
    assert Join([minutes, "00"], ':') == minutes + ":00";
    assert hours + (":" + (minutes + ":00")) == hours + ":" + minutes + ":00";
  }

  /** A time is written as five characters, two digits either side of a colon, and ":00" after them for the column. */
  lemma ClockTextIs(minutes: nat)
    requires IsClock(minutes)
    ensures ClockText(minutes)
            == [DigitChar(minutes / 600), DigitChar(minutes / 60 % 10), ':',
                DigitChar(minutes % 60 / 10), DigitChar(minutes % 10)]
    ensures ClockValue(minutes) == ClockText(minutes) + ":00"
  {
    var h, m := minutes / 60, minutes % 60;
    Pad2Is(h);
    Pad2Is(m);
    assert h / 10 == minutes / 600 && m % 10 == minutes % 10;
  }

  lemma Pad2Is(n: nat)
    requires n < 100
    ensures Pad2(n) == [DigitChar(n / 10), DigitChar(n % 10)]
  {
    if n >= 10 { assert Digits(n / 10) == [DigitChar(n / 10)]; }
  }

  /** Two numbers parted by a colon are a time exactly when they are an hour and a minute, with or without seconds. */
  lemma ClockParts(hours: nat, minutes: nat)
    ensures var expected := if hours <= 23 && minutes <= 59 then Some(hours * 60 + minutes) else None;
            && ParseClock(Pad2(hours) + ":" + Pad2(minutes)) == expected
            && ParseClock(Pad2(hours) + ":" + Pad2(minutes) + ":00") == expected
  {
    Pad2IsNumeral(hours);
    Pad2IsNumeral(minutes);
    SplitClock(Pad2(hours), Pad2(minutes));
    ParseOfPad2(hours, INT64_MIN, INT64_MAX);
    ParseOfPad2(minutes, INT64_MIN, INT64_MAX);
    var short := Pad2(hours) + ":" + Pad2(minutes);
    assert TrimSpace(short) == short;
    assert TrimSpace(short + ":00") == short + ":00";
  }

  /** Parsing undoes both the API's text and the column's, for every minute of the day. */
  lemma ClockRoundTrip(minutes: nat)
    requires IsClock(minutes)
    ensures ParseClock(ClockText(minutes)) == Some(minutes)
    ensures ParseClock(ClockValue(minutes)) == Some(minutes)
  {
    ClockParts(minutes / 60, minutes % 60);
  }

  // ---- the weekday list ----

  ghost predicate Increasing(s: seq<int>) { forall i, j :: 0 <= i < j < |s| ==> s[i] < s[j] }

  ghost predicate Sorted(s: seq<int>) { forall i, j :: 0 <= i && j == i + 1 && j < |s| ==> s[i] <= s[j] }

  function Insert(sorted: seq<int>, day: int): (inserted: seq<int>)
    ensures inserted != [] && inserted[0] == if sorted == [] || day <= sorted[0] then day else sorted[0]
  {
    if sorted == [] || day <= sorted[0] then [day] + sorted else [sorted[0]] + Insert(sorted[1..], day)
  }

  lemma {:induction false} InsertSorts(sorted: seq<int>, day: int)
    requires Sorted(sorted)
    ensures Sorted(Insert(sorted, day))
    decreases |sorted|
  {
    if sorted != [] && sorted[0] < day {
      var rest := sorted[1..];
      assert Sorted(rest) by { assert forall i :: 0 <= i < |rest| ==> rest[i] == sorted[i + 1]; }
      InsertSorts(rest, day);
    }
  }

  lemma {:induction false} InsertAddsOne(sorted: seq<int>, day: int)
    ensures forall x :: x in Insert(sorted, day) <==> x == day || x in sorted
    decreases |sorted|
  {
    if sorted != [] && sorted[0] < day {
      InsertAddsOne(sorted[1..], day);
      assert sorted == [sorted[0]] + sorted[1..];
    }
  }

  /** Stands for the library's sort: the same members in order. */
  function Sort(days: seq<int>): seq<int> {
    if days == [] then [] else Insert(Sort(days[..|days| - 1]), days[|days| - 1])
  }

  lemma {:induction false} SortSorts(days: seq<int>)
    ensures Sorted(Sort(days)) && forall day :: day in Sort(days) <==> day in days
    decreases |days|
  {
    if days != [] {
      var rest, last := days[..|days| - 1], days[|days| - 1];
      SortSorts(rest);
      InsertSorts(Sort(rest), last);
      InsertAddsOne(Sort(rest), last);
      assert days == rest + [last];
    }
  }

  lemma AppendIncreasing(s: seq<int>, day: int)
    requires Increasing(s) && (s != [] ==> s[|s| - 1] < day)
    ensures Increasing(s + [day])
  {
  }

  /** Drops repeats from a sorted list. */
  method Compact(sorted: seq<int>) returns (kept: seq<int>)
    requires Sorted(sorted)
    ensures Increasing(kept) && forall day :: day in kept <==> day in sorted
  {
    kept := [];
    for i := 0 to |sorted|
      invariant |kept| <= i && (i > 0 ==> kept != [] && kept[|kept| - 1] == sorted[i - 1])
      invariant Increasing(kept)
      invariant forall day :: day in kept <==> day in sorted[..i]
    {
      assert sorted[..i + 1] == sorted[..i] + [sorted[i]];
      if i == 0 || sorted[i - 1] != sorted[i] {
        assert i > 0 ==> sorted[i - 1] < sorted[i];
        AppendIncreasing(kept, sorted[i]);
        kept := kept + [sorted[i]];
      } else {
        assert sorted[i] == sorted[..i][i - 1];
      }
    }
    assert sorted[..|sorted|] == sorted;
  }

  /** Refuses an empty list and a day outside 1..7, and otherwise keeps each day once, in order. */
  method CheckWorkdays(workdays: seq<int>) returns (kept: Result<seq<int>>)
    ensures kept.Err? <==> workdays == [] || exists day :: day in workdays && !(1 <= day <= 7)
    ensures kept.Ok? ==> Increasing(kept.value) && forall day :: day in kept.value <==> day in workdays
  {
    if |workdays| == 0 { return Err(Invalid); }
    SortSorts(workdays);
    var days := Compact(Sort(workdays));
    for i := 0 to |days|
      invariant forall k :: 0 <= k < i ==> 1 <= days[k] <= 7
    {
      if days[i] < 1 || days[i] > 7 {
        assert days[i] in days;
        return Err(Invalid);
      }
    }
    return Ok(days);
  }

  lemma HasAMember(s: seq<int>)
    ensures s != [] ==> exists day: int :: day in s
  {
    if s != [] {
      var first: int := s[0];
      assert first in s;
    }
  }

  /** So two lists of the same days are stored alike: an increasing list is decided by its members. */
  lemma {:induction false} SameDaysSameList(a: seq<int>, b: seq<int>)
    requires Increasing(a) && Increasing(b) && forall day :: day in a <==> day in b
    ensures a == b
    decreases |a|
  {
    if a == [] {
      HasAMember(b);
    } else if b == [] {
      HasAMember(a);
    } else {
      var x, y := a[|a| - 1], b[|b| - 1];
      assert x in b && y in a;
      assert x == y;
      var p, q := a[..|a| - 1], b[..|b| - 1];
      forall day ensures day in p <==> day in q {
        assert day in p <==> day in a && day != x;
        assert day in q <==> day in b && day != y;
      }
      SameDaysSameList(p, q);
    }
  }
}
