/** From a date and its hours to instants, and from an instant back to the date it should count for. */
module Shift {
  import opened Common
  import opened Calendar
  import opened Schedule

  const CHECK_IN_OPENS_BEFORE := 4 * HOUR

  datatype Placed = Placed(date: int, hours: Option<WorkSchedule>, start: int, end: int) {
    function ScheduleID(): Option<int> { if hours.Some? then Some(hours.value.id) else None }

    function Minutes(): int { Quot(end - start, MINUTE) }

    /** A minute only begun does not count, the grace is free, and nobody is later than their shift is long. */
    function LateMinutes(at: int): int {
      if hours.None? then 0
      else Min(Minutes(), Max(0, Quot(at - start, MINUTE) - hours.value.graceMinutes))
    }

    /** The same at the other end, with no grace. */
    function EarlyLeaveMinutes(at: int): int {
      if hours.None? then 0 else Min(Minutes(), Max(0, Quot(end - at, MINUTE)))
    }
  }

  /** Both clock times as instants; one that ends no later than it starts ends on the next date. */
  function Place(date: int, hours: Option<WorkSchedule>, offset: int): Placed {
    match hours
    case None => Placed(date, None, 0, 0)
    case Some(h) =>
      Placed(date, hours,
             Midnight(date, offset) + h.startTime * MINUTE,
             Midnight(if h.CrossesMidnight() then date + 1 else date, offset) + h.endTime * MINUTE)
  }

  // ---- minutes ----

  lemma MinutesIsLength(date: int, hours: WorkSchedule, offset: int)
    requires hours.Valid()
    ensures Place(date, Some(hours), offset).Minutes() == Length(hours.startTime, hours.endTime)
    ensures 1 <= Length(hours.startTime, hours.endTime) <= MINUTES_PER_DAY
  {
  }

  /** A shift starts on its date at the start time in the zone, and ends at the end time, within a day of it. */
  lemma PlacedByTheClock(date: int, hours: WorkSchedule, offset: int)
    requires hours.Valid()
    ensures var shift := Place(date, Some(hours), offset);
            && shift.date == date && shift.hours == Some(hours)
            && (shift.start + offset) / DAY == date && (shift.start + offset) % DAY == hours.startTime * MINUTE
            && (shift.end + offset) % DAY == hours.endTime * MINUTE
            && shift.start < shift.end <= shift.start + DAY
  {
  }

  /** Late is a whole minute past the grace, and not before. */
  lemma LateExactlyWhen(date: int, hours: WorkSchedule, offset: int, at: int)
    requires hours.Valid()
    ensures var shift := Place(date, Some(hours), offset);
            shift.LateMinutes(at) > 0 <==> at >= shift.start + (hours.graceMinutes + 1) * MINUTE
  {
    MinutesIsLength(date, hours, offset);
  }

  /** Early is a whole minute or more left, with no grace. */
  lemma EarlyExactlyWhen(date: int, hours: WorkSchedule, offset: int, at: int)
    requires hours.Valid()
    ensures var shift := Place(date, Some(hours), offset);
            shift.EarlyLeaveMinutes(at) > 0 <==> at + MINUTE <= shift.end
  {
    MinutesIsLength(date, hours, offset);
  }

  /** `n` is how many whole minutes a span holds. */
  predicate WholeMinutes(n: int, span: int) { n * MINUTE <= span < (n + 1) * MINUTE }

  /** `n` is the whole minutes from the end of the grace to `at`: none before it, and no more than the shift has. */
  predicate LateBy(shift: Placed, at: int, n: int) {
    match shift.hours
    case None => n == 0
    case Some(h) =>
      var ungraced := at - h.graceMinutes * MINUTE;
      && (ungraced <= shift.start ==> n == 0)
      && (shift.start <= ungraced <= shift.end ==> WholeMinutes(n, ungraced - shift.start))
      && (shift.end <= ungraced ==> WholeMinutes(n, shift.end - shift.start))
  }

  /** `n` is the whole minutes from `at` to the end: all of the shift before its start, and none after its end. */
  predicate EarlyBy(shift: Placed, at: int, n: int) {
    if shift.hours.None? then n == 0
    else
      && (at <= shift.start ==> WholeMinutes(n, shift.end - shift.start))
      && (shift.start <= at <= shift.end ==> WholeMinutes(n, shift.end - at))
      && (shift.end <= at ==> n == 0)
  }

  /** Whatever the moment, both counts are exactly the whole minutes late and early, and no other number is. */
  lemma MinutesAreExact(date: int, hours: Option<WorkSchedule>, offset: int, at: int, n: int)
    requires hours.Some? ==> hours.value.Valid()
    ensures var shift := Place(date, hours, offset);
            && (n == shift.LateMinutes(at) <==> LateBy(shift, at, n))
            && (n == shift.EarlyLeaveMinutes(at) <==> EarlyBy(shift, at, n))
  {
    if hours.Some? {
      MinutesIsLength(date, hours.value, offset);
      var shift := Place(date, hours, offset);
      assert shift.end - shift.start == shift.Minutes() * MINUTE;
      LateIsExact(shift, at, n);
      EarlyIsExact(shift, at, n);
    }
  }

  lemma LateIsExact(shift: Placed, at: int, n: int)
    requires shift.hours.Some? && shift.hours.value.graceMinutes >= 0
    requires shift.end - shift.start == shift.Minutes() * MINUTE && shift.Minutes() > 0
    ensures n == shift.LateMinutes(at) <==> LateBy(shift, at, n)
  {
    var whole := Quot(at - shift.start, MINUTE);
    if at >= shift.start { assert WholeMinutes(whole, at - shift.start); }
  }

  lemma EarlyIsExact(shift: Placed, at: int, n: int)
    requires shift.hours.Some? && shift.end - shift.start == shift.Minutes() * MINUTE && shift.Minutes() > 0
    ensures n == shift.EarlyLeaveMinutes(at) <==> EarlyBy(shift, at, n)
  {
    var whole := Quot(shift.end - at, MINUTE);
    if at <= shift.end { assert WholeMinutes(whole, shift.end - at); }
  }

  /** Nobody is charged more than the shift: late and early minutes together never exceed it. */
  lemma LatePlusEarlyFitsTheShift(date: int, hours: Option<WorkSchedule>, offset: int, checkIn: int, checkOut: int)
    requires hours.Some? ==> hours.value.Valid()
    requires checkIn <= checkOut
    ensures var shift := Place(date, hours, offset);
            0 <= shift.LateMinutes(checkIn) + shift.EarlyLeaveMinutes(checkOut) <= shift.Minutes()
  {
    if hours.Some? {
      var shift := Place(date, hours, offset);
      MinutesIsLength(date, hours.value, offset);
      assert shift.end - shift.start == shift.Minutes() * MINUTE;
    }
  }

  /** One minute later is at most one minute more, and never fewer: both counts follow the clock. */
  lemma MinutesFollowTheClock(date: int, hours: Option<WorkSchedule>, offset: int, at: int, later: int)
    requires at <= later
    ensures var shift := Place(date, hours, offset);
            && shift.LateMinutes(at) <= shift.LateMinutes(later)
            && shift.EarlyLeaveMinutes(later) <= shift.EarlyLeaveMinutes(at)
  {
    QuotMonotone(at - Place(date, hours, offset).start, later - Place(date, hours, offset).start);
    QuotMonotone(Place(date, hours, offset).end - later, Place(date, hours, offset).end - at);
  }

  lemma QuotMonotone(a: int, b: int)
    requires a <= b
    ensures Quot(a, MINUTE) <= Quot(b, MINUTE)
  {
  }

  // ---- which date a check-in counts for ----

  /** The day works, and its window, from four hours before the start to the end, holds `now`. */
  predicate Holds(day: Day, now: int, offset: int) {
    && day.working
    && var shift := Place(day.date, day.schedule, offset);
       shift.start - CHECK_IN_OPENS_BEFORE <= now <= shift.end
  }

  function Distance(day: Day, now: int, offset: int): int { Abs(now - Place(day.date, day.schedule, offset).start) }

  /** A roster over all dates, as rule A resolves it. */
  ghost predicate IsRoster(roster: int -> Day) {
    forall d :: roster(d).date == d
      && (roster(d).working <==> roster(d).schedule.Some?)
      && (roster(d).working ==> roster(d).schedule.value.Valid())
  }

  /** Of all the dates whose window holds `now`, the one with the nearest start, the earliest of equals. */
  ghost predicate IsNearest(roster: int -> Day, now: int, offset: int, d: int) {
    && Holds(roster(d), now, offset)
    && forall e :: Holds(roster(e), now, offset) ==>
         Distance(roster(d), now, offset) < Distance(roster(e), now, offset)
         || (Distance(roster(d), now, offset) == Distance(roster(e), now, offset) && d <= e)
  }

  /** Nothing holds `now`, and today still lies ahead. */
  ghost predicate NotOpenYet(roster: int -> Day, now: int, offset: int) {
    && (forall d :: !Holds(roster(d), now, offset))
    && var today := Place(DateIn(now, offset), roster(DateIn(now, offset)).schedule, offset);
       today.hours.Some? && now < today.start - CHECK_IN_OPENS_BEFORE
  }

  /** The date a check-in at `now` counts for, when it is not too early. */
  ghost predicate CountsFor(roster: int -> Day, now: int, offset: int, d: int) {
    IsNearest(roster, now, offset, d) || ((forall e :: !Holds(roster(e), now, offset)) && d == DateIn(now, offset))
  }

  /** A day holds `now` from four hours before its start time to its end time, the next date's for a night shift. */
  lemma HoldsByTheClock(day: Day, now: int, offset: int)
    requires day.working ==> day.schedule.Some?
    ensures Holds(day, now, offset) <==>
              && day.working
              && var h := day.schedule.value;
                 day.date * DAY + h.startTime * MINUTE - 4 * HOUR <= now + offset
                   <= (if h.startTime < h.endTime then day.date else day.date + 1) * DAY + h.endTime * MINUTE
  {
  }

  /** No date that holds `now` has a start nearer to it than the date it counts for. */
  lemma NearestByTheClock(roster: int -> Day, now: int, offset: int, d: int, e: int)
    requires IsRoster(roster) && CountsFor(roster, now, offset, d) && Holds(roster(e), now, offset)
    ensures roster(d).schedule.Some?
    ensures var (mine, other) := (roster(d).schedule.value.startTime, roster(e).schedule.value.startTime);
            Abs(now + offset - (d * DAY + mine * MINUTE)) <= Abs(now + offset - (e * DAY + other * MINUTE))
  {
    assert roster(d).date == d && roster(e).date == e;
  }

  /** A window reaches at most from the evening before its date to the evening after: no other day can hold `now`. */
  lemma OnlyThreeDaysCanHold(roster: int -> Day, now: int, offset: int, d: int)
    requires IsRoster(roster) && Holds(roster(d), now, offset)
    ensures DateIn(now, offset) - 1 <= d <= DateIn(now, offset) + 1
  {
    DateInBounds(now, offset);
    var shift := Place(d, roster(d).schedule, offset);
    assert Midnight(d, offset) <= shift.start && shift.end < Midnight(d + 2, offset);
  }

  /**
   Three days stand in for the whole roster: the pick is the nearest of all the days that hold `now`. When no day does it
   falls back on today, which is refused only while it still lies ahead.
   */
  method PickShift(now: int, offset: int, days: seq<Day>, ghost roster: int -> Day) returns (picked: Result<Placed>)
    requires IsRoster(roster)
    requires |days| == 3 && forall i :: 0 <= i < 3 ==> days[i] == roster(DateIn(now, offset) - 1 + i)
    ensures (exists d :: Holds(roster(d), now, offset)) ==>
              && picked.Ok? && IsNearest(roster, now, offset, picked.value.date)
              && picked.value == Place(picked.value.date, roster(picked.value.date).schedule, offset)
    ensures (forall d :: !Holds(roster(d), now, offset)) ==>
              var today := Place(DateIn(now, offset), roster(DateIn(now, offset)).schedule, offset);
              picked == if today.hours.Some? && now < today.start - CHECK_IN_OPENS_BEFORE then Err(Invalid)
                        else Ok(today)
  {
    ghost var first := DateIn(now, offset) - 1;
    var best: Option<Placed> := None;
    for i := 0 to |days|
      invariant best.None? ==> forall k :: 0 <= k < i ==> !Holds(days[k], now, offset)
      invariant best.Some? ==>
                  var d := best.value.date;
                  && first <= d < first + i && Holds(roster(d), now, offset)
                  && best.value == Place(d, roster(d).schedule, offset)
                  && forall k :: 0 <= k < i && Holds(days[k], now, offset) ==>
                       Distance(roster(d), now, offset) < Distance(days[k], now, offset)
                       || (Distance(roster(d), now, offset) == Distance(days[k], now, offset) && d <= first + k)
    {
      if !days[i].working { continue; }
      var candidate := Place(days[i].date, days[i].schedule, offset);
      if now < candidate.start - CHECK_IN_OPENS_BEFORE || now > candidate.end { continue; }
      if best.None? || Abs(now - candidate.start) < Abs(now - best.value.start) {
        best := Some(candidate);
      }
    }
    forall d | Holds(roster(d), now, offset) ensures first <= d <= first + 2 && roster(d) == days[d - first] {
      OnlyThreeDaysCanHold(roster, now, offset, d);
    }
    if best.Some? {
      return Ok(best.value);
    }
    var today := Place(days[1].date, days[1].schedule, offset);
    if today.hours.Some? && now < today.start - CHECK_IN_OPENS_BEFORE {
      return Err(Invalid);
    }
    return Ok(today);
  }
}
