/**
 Dates are whole days counted from 0001-01-01, instants are microseconds counted from that day's UTC midnight, and the
 company's zone is a constant offset of less than a day.
 */
module Calendar {
  const MINUTE := 60_000_000
  const HOUR := 60 * MINUTE
  const DAY := 24 * HOUR

  predicate IsOffset(offset: int) { -DAY < offset < DAY }

  /** The day an instant belongs to, read off a wall clock in the zone. */
  function DateIn(at: int, offset: int): int { (at + offset) / DAY }

  /** The instant a date's midnight falls on in the zone. */
  function Midnight(date: int, offset: int): int { date * DAY - offset }

  lemma DateInBounds(at: int, offset: int)
    ensures Midnight(DateIn(at, offset), offset) <= at < Midnight(DateIn(at, offset) + 1, offset)
  {
  }

  /** January 1st of a year of the proleptic Gregorian calendar. */
  function Jan1(year: int): int {
    365 * (year - 1) + (year - 1) / 4 - (year - 1) / 100 + (year - 1) / 400
  }

  function Dec31(year: int): int { Jan1(year + 1) - 1 }

  lemma Quarter(y: int)
    ensures (y + 1) / 4 - y / 4 == if (y + 1) % 4 == 0 then 1 else 0
  {
  }

  lemma Century(y: int)
    ensures (y + 1) / 100 - y / 100 == if (y + 1) % 100 == 0 then 1 else 0
    ensures (y + 1) % 100 == 0 ==> (y + 1) % 4 == 0
  {
  }

  lemma Cycle(y: int)
    ensures (y + 1) / 400 - y / 400 == if (y + 1) % 400 == 0 then 1 else 0
    ensures (y + 1) % 400 == 0 ==> (y + 1) % 100 == 0
  {
  }

  lemma YearLength(year: int)
    ensures Jan1(year) + 365 <= Jan1(year + 1) <= Jan1(year) + 366
  {
    Quarter(year - 1);
    Century(year - 1);
    Cycle(year - 1);
  }

  lemma {:induction false} YearsAscend(a: int, b: int)
    requires a <= b
    ensures Jan1(a) + 365 * (b - a) <= Jan1(b)
    decreases b - a
  {
    if a < b {
      YearLength(a);
      YearsAscend(a + 1, b);
    }
  }

  /** The year a date falls in, found from the 400-year cycle it belongs to. */
  function Year(date: int): (year: int)
    ensures Jan1(year) <= date <= Dec31(year)
  {
    var first := 400 * (date / 146097) + 1;
    assert Jan1(first) == 146097 * (date / 146097);
    YearFrom(date, first)
  }

  function YearFrom(date: int, year: int): (found: int)
    requires Jan1(year) <= date
    ensures Jan1(found) <= date <= Dec31(found)
    decreases date - Jan1(year)
  {
    YearLength(year);
    if date < Jan1(year + 1) then year else YearFrom(date, year + 1)
  }

  /** A date lies between January 1st and December 31st of exactly one year, its own. */
  lemma BetweenIsYear(date: int, year: int)
    ensures Jan1(year) <= date <= Dec31(year) <==> Year(date) == year
  {
    var own := Year(date);
    if own < year {
      YearsAscend(own + 1, year);
    } else if year < own {
      YearsAscend(year + 1, own);
    }
  }

  lemma YearMonotone(a: int, b: int)
    requires a <= b
    ensures Year(a) <= Year(b)
  {
    if Year(b) < Year(a) {
      YearsAscend(Year(b) + 1, Year(a));
    }
  }

  /** The weekday as Go numbers it: 0 is Sunday. 0001-01-01 was a Monday. */
  function GoWeekday(date: int): int { (date + 1) % 7 }
}
