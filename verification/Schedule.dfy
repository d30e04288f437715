/** Rule A: which hours, if any, a person works on a date. */
module Schedule {
  import opened Common
  import opened Calendar

  const MINUTES_PER_DAY := 24 * 60
  const MAX_RANGE_DAYS := 366

  predicate IsClock(minutes: int) { 0 <= minutes < MINUTES_PER_DAY }

  datatype WorkSchedule = WorkSchedule(
    id: int, startTime: int, endTime: int, graceMinutes: int, workdays: seq<int>, observesHolidays: bool)
  {
    predicate CrossesMidnight() { endTime <= startTime }

    predicate Valid() { IsClock(startTime) && IsClock(endTime) && graceMinutes >= 0 }
  }

  /** Minutes between two clock times, the second being the next day's unless it is the greater. */
  function Length(startTime: int, endTime: int): int {
    if endTime > startTime then endTime - startTime else MINUTES_PER_DAY - startTime + endTime
  }

  /** A roster row; without a schedule it gives the person the date off. */
  datatype Assignment = Assignment(userID: int, workDate: int, scheduleID: Option<int>)

  datatype Holiday = Holiday(date: int, name: string)

  datatype Employee = Employee(defaultScheduleID: Option<int>, deleted: bool)

  datatype Plan = Plan(
    employees: map<int, Employee>, roster: seq<Assignment>, holidays: seq<Holiday>, schedules: map<int, WorkSchedule>)

  datatype Reason = Shift | Default | AssignedOff | PublicHoliday | NotAWorkday

  datatype Day = Day(date: int, working: bool, reason: Reason, schedule: Option<WorkSchedule>, holiday: string)

  datatype Inputs = Inputs(
    assignment: Option<Assignment>, rostered: Option<WorkSchedule>, standard: Option<WorkSchedule>, holiday: string)

  predicate WorksOn(schedule: WorkSchedule, date: int) {
    var weekday := if GoWeekday(date) == 0 then 7 else GoWeekday(date);
    weekday in schedule.workdays
  }

  /** Rule A as a function of what was looked up for the date. */
  function Resolve(date: int, inputs: Inputs): Day {
    if inputs.assignment.Some? && inputs.rostered.None? then Day(date, false, AssignedOff, None, inputs.holiday)
    else if inputs.assignment.Some? then Observed(date, inputs.rostered.value, Shift, inputs.holiday)
    else if inputs.standard.Some? && WorksOn(inputs.standard.value, date) then
      Observed(date, inputs.standard.value, Default, inputs.holiday)
    else Day(date, false, NotAWorkday, None, inputs.holiday)
  }

  function Observed(date: int, schedule: WorkSchedule, reason: Reason, holiday: string): Day {
    if holiday != "" && schedule.observesHolidays then Day(date, false, PublicHoliday, None, holiday)
    else Day(date, true, reason, Some(schedule), holiday)
  }

  /** The hours a date would have without holidays: the roster's, or the person's own on one of its weekdays. */
  function Planned(date: int, inputs: Inputs): Option<WorkSchedule> {
    if inputs.assignment.Some? then inputs.rostered
    else if inputs.standard.Some? && WorksOn(inputs.standard.value, date) then inputs.standard
    else None
  }

  /** A day works exactly when it has planned hours no observed holiday turns off, and exactly then carries them. */
  lemma WorkingCarriesHours(date: int, inputs: Inputs)
    ensures var (day, hours) := (Resolve(date, inputs), Planned(date, inputs));
            && day.date == date && day.holiday == inputs.holiday
            && (day.working <==> hours.Some? && !(inputs.holiday != "" && hours.value.observesHolidays))
            && day.schedule == (if day.working then hours else None)
            && (day.reason == PublicHoliday <==> !day.working && hours.Some?)
            && (day.reason == Shift <==> day.working && inputs.assignment.Some?)
            && (day.reason == AssignedOff <==> inputs.assignment.Some? && hours.None?)
  {
  }

  // ---- the rows rule A reads ----

  function Filter<T>(rows: seq<T>, keep: T -> bool): (kept: seq<T>)
    ensures forall i :: 0 <= i < |kept| ==> keep(kept[i]) && kept[i] in rows
  {
    if rows == [] then []
    else
      var kept := Filter(rows[..|rows| - 1], keep);
      if keep(rows[|rows| - 1]) then kept + [rows[|rows| - 1]] else kept
  }

  /** The roster row of a person and date; the table holds at most one, and a map filled row by row keeps the last. */
  function Entry(roster: seq<Assignment>, userID: int, date: int): Option<Assignment> {
    if roster == [] then None
    else
      var last := roster[|roster| - 1];
      if last.userID == userID && last.workDate == date then Some(last)
      else Entry(roster[..|roster| - 1], userID, date)
  }

  function HolidayName(holidays: seq<Holiday>, date: int): string {
    if holidays == [] then ""
    else
      var last := holidays[|holidays| - 1];
      if last.date == date then last.name else HolidayName(holidays[..|holidays| - 1], date)
  }

  lemma {:induction false} FilteredEntry(roster: seq<Assignment>, keep: Assignment -> bool, userID: int, date: int)
    requires forall row :: row in roster && row.userID == userID && row.workDate == date ==> keep(row)
    ensures Entry(Filter(roster, keep), userID, date) == Entry(roster, userID, date)
    decreases |roster|
  {
    if roster != [] {
      var rest := roster[..|roster| - 1];
      FilteredEntry(rest, keep, userID, date);
      if keep(roster[|roster| - 1]) {
        assert Filter(roster, keep)[..|Filter(rest, keep)|] == Filter(rest, keep);
      }
    }
  }

  lemma {:induction false} FilteredHoliday(holidays: seq<Holiday>, keep: Holiday -> bool, date: int)
    requires forall row :: row in holidays && row.date == date ==> keep(row)
    ensures HolidayName(Filter(holidays, keep), date) == HolidayName(holidays, date)
    decreases |holidays|
  {
    if holidays != [] {
      var rest := holidays[..|holidays| - 1];
      FilteredHoliday(rest, keep, date);
      if keep(holidays[|holidays| - 1]) {
        assert Filter(holidays, keep)[..|Filter(rest, keep)|] == Filter(rest, keep);
      }
    }
  }

  lemma {:induction false} EntryIsARow(roster: seq<Assignment>, userID: int, date: int)
    requires Entry(roster, userID, date).Some?
    ensures var row := Entry(roster, userID, date).value; row in roster && row.userID == userID && row.workDate == date
    decreases |roster|
  {
    var last := roster[|roster| - 1];
    if !(last.userID == userID && last.workDate == date) { EntryIsARow(roster[..|roster| - 1], userID, date); }
  }

  function Lookup(schedules: map<int, WorkSchedule>, id: Option<int>): Option<WorkSchedule> {
    if id.Some? && id.value in schedules then Some(schedules[id.value]) else None
  }

  /** The retired ones included: history keeps reading back. */
  function SchedulesByID(schedules: map<int, WorkSchedule>, ids: seq<int>): map<int, WorkSchedule> {
    map id | id in schedules && id in ids :: schedules[id]
  }

  /** The same with every lookup made on the full tables: what indexed answers are compared with. */
  function RuleA(plan: Plan, userID: int, standard: Option<int>, date: int): Day {
    var entry := Entry(plan.roster, userID, date);
    Resolve(date, Inputs(entry, Lookup(plan.schedules, if entry.Some? then entry.value.scheduleID else None),
                         Lookup(plan.schedules, standard), HolidayName(plan.holidays, date)))
  }

  /** The zero date counts as missing. */
  function CheckRange(first: int, last: int): Option<Error> {
    if first == 0 || last == 0 then Some(Invalid)
    else if last < first then Some(Invalid)
    else if last - first + 1 > MAX_RANGE_DAYS then Some(Invalid)
    else None
  }

  // ---- rule A read straight off the tables ----

  /** The unique keys of both tables: a person has one roster row a date at most, and a date one holiday. */
  ghost predicate OneRowEach(plan: Plan) {
    && (forall i, j :: 0 <= i < j < |plan.roster| ==>
          !(plan.roster[i].userID == plan.roster[j].userID && plan.roster[i].workDate == plan.roster[j].workDate))
    && (forall i, j :: 0 <= i < j < |plan.holidays| ==> plan.holidays[i].date != plan.holidays[j].date)
  }

  ghost predicate Rostered(plan: Plan, userID: int, date: int) {
    exists row :: row in plan.roster && row.userID == userID && row.workDate == date
  }

  /** Some holiday with a name falls on the date. */
  ghost predicate Festive(plan: Plan, date: int) {
    exists row :: row in plan.holidays && row.date == date && row.name != ""
  }

  lemma {:induction false} EntryIsTheRow(roster: seq<Assignment>, k: nat)
    requires k < |roster|
    requires forall j :: k < j < |roster| ==>
               !(roster[j].userID == roster[k].userID && roster[j].workDate == roster[k].workDate)
    ensures Entry(roster, roster[k].userID, roster[k].workDate) == Some(roster[k])
    decreases |roster|
  {
    if k < |roster| - 1 { EntryIsTheRow(roster[..|roster| - 1], k); }
  }

  lemma {:induction false} HolidayIsTheRow(holidays: seq<Holiday>, k: nat)
    requires k < |holidays|
    requires forall j :: k < j < |holidays| ==> holidays[j].date != holidays[k].date
    ensures HolidayName(holidays, holidays[k].date) == holidays[k].name
    decreases |holidays|
  {
    if k < |holidays| - 1 { HolidayIsTheRow(holidays[..|holidays| - 1], k); }
  }

  lemma {:induction false} HolidayIsARow(holidays: seq<Holiday>, date: int)
    requires HolidayName(holidays, date) != ""
    ensures exists row :: row in holidays && row.date == date && row.name == HolidayName(holidays, date)
    decreases |holidays|
  {
    var last := holidays[|holidays| - 1];
    if last.date == date {
      assert last in holidays;
    } else {
      HolidayIsARow(holidays[..|holidays| - 1], date);
    }
  }

  lemma FestiveIsNamed(plan: Plan, date: int)
    requires OneRowEach(plan)
    ensures Festive(plan, date) <==> HolidayName(plan.holidays, date) != ""
  {
    if row :| row in plan.holidays && row.date == date && row.name != "" {
      var k :| 0 <= k < |plan.holidays| && plan.holidays[k] == row;
      HolidayIsTheRow(plan.holidays, k);
    }
    if HolidayName(plan.holidays, date) != "" { HolidayIsARow(plan.holidays, date); }
  }

  lemma RosteredIsEntered(plan: Plan, userID: int, date: int)
    requires OneRowEach(plan)
    ensures Entry(plan.roster, userID, date).Some? <==> Rostered(plan, userID, date)
    ensures forall row :: row in plan.roster && row.userID == userID && row.workDate == date ==>
              Entry(plan.roster, userID, date) == Some(row)
  {
    if Entry(plan.roster, userID, date).Some? { EntryIsARow(plan.roster, userID, date); }
    forall row | row in plan.roster && row.userID == userID && row.workDate == date
      ensures Entry(plan.roster, userID, date) == Some(row)
    {
      var k :| 0 <= k < |plan.roster| && plan.roster[k] == row;
      EntryIsTheRow(plan.roster, k);
    }
  }

  /**
   Rule A off the tables alone: a person works some hours on a date exactly when the roster row for it names them, or
   there is no row, the hours are the person's own and the date's weekday, Monday being 1, is among their workdays; and
   when no named holiday falls on the date or those hours do not observe any.
   */
  lemma RuleAByTheTables(plan: Plan, userID: int, standard: Option<int>, date: int, hours: WorkSchedule)
    requires OneRowEach(plan)
    ensures var day := RuleA(plan, userID, standard, date);
            day.working && day.schedule == Some(hours) <==>
            && !(hours.observesHolidays && Festive(plan, date))
            && if Rostered(plan, userID, date) then
                 exists row :: row in plan.roster && row.userID == userID && row.workDate == date
                               && row.scheduleID.Some? && row.scheduleID.value in plan.schedules
                               && plan.schedules[row.scheduleID.value] == hours
               else
                 && standard.Some? && standard.value in plan.schedules && plan.schedules[standard.value] == hours
                 && date % 7 + 1 in hours.workdays
  {
    FestiveIsNamed(plan, date);
    RosteredIsEntered(plan, userID, date);
    if Entry(plan.roster, userID, date).Some? { EntryIsARow(plan.roster, userID, date); }
  }

  /** The one date of the week from `first` on a weekday, Monday being 1, falls on. */
  function DateOfWeekday(first: int, weekday: int): (date: int)
    ensures first <= date < first + 7
    ensures 1 <= weekday <= 7 ==> date % 7 + 1 == weekday
  {
    first + (weekday - 1 - first) % 7
  }

  lemma OnItsDate(first: int, weekday: int, d: int)
    requires 1 <= weekday <= 7 && first <= d < first + 7
    ensures d % 7 + 1 == weekday <==> d == DateOfWeekday(first, weekday)
  {
  }

  function DatesOn(first: int, weekdays: seq<int>): set<int> {
    set d | first <= d < first + 7 && d % 7 + 1 in weekdays
  }

  lemma OneMoreWeekday(first: int, weekdays: seq<int>, weekday: int)
    requires 1 <= weekday <= 7 && weekday !in weekdays
    ensures |DatesOn(first, weekdays + [weekday])| == |DatesOn(first, weekdays)| + 1
  {
    var date, dates := DateOfWeekday(first, weekday), DatesOn(first, weekdays);
    forall d | first <= d < first + 7 ensures d % 7 + 1 == weekday <==> d == date {
      OnItsDate(first, weekday, d);
    }
    assert date !in dates && DatesOn(first, weekdays + [weekday]) == dates + {date};
  }

  lemma {:induction false} EachWeekdayHasItsDate(first: int, weekdays: seq<int>)
    requires forall i, j :: 0 <= i < j < |weekdays| ==> weekdays[i] < weekdays[j]
    requires forall i :: 0 <= i < |weekdays| ==> 1 <= weekdays[i] <= 7
    ensures |DatesOn(first, weekdays)| == |weekdays|
    decreases |weekdays|
  {
    if weekdays == [] {
      assert DatesOn(first, weekdays) == {};
    } else {
      var rest, last := weekdays[..|weekdays| - 1], weekdays[|weekdays| - 1];
      assert weekdays == rest + [last];
      EachWeekdayHasItsDate(first, rest);
      OneMoreWeekday(first, rest, last);
    }
  }

  /**
   In any week the roster and the observed holidays leave alone, a person works on exactly as many dates as their own
   hours have workdays.
   */
  lemma AWeekHasItsWorkdays(plan: Plan, userID: int, standard: Option<int>, first: int)
    requires OneRowEach(plan) && standard.Some? && standard.value in plan.schedules
    requires var days := plan.schedules[standard.value].workdays;
             && (forall i, j :: 0 <= i < j < |days| ==> days[i] < days[j])
             && forall i :: 0 <= i < |days| ==> 1 <= days[i] <= 7
    requires forall d :: first <= d < first + 7 ==>
               && !Rostered(plan, userID, d)
               && !(plan.schedules[standard.value].observesHolidays && Festive(plan, d))
    ensures |set d | first <= d < first + 7 && RuleA(plan, userID, standard, d).working|
            == |plan.schedules[standard.value].workdays|
  {
    var hours := plan.schedules[standard.value];
    forall d | first <= d < first + 7
      ensures RuleA(plan, userID, standard, d).working <==> d % 7 + 1 in hours.workdays
    {
      RuleAByTheTables(plan, userID, standard, d, hours);
      RosteredIsEntered(plan, userID, d);
    }
    EachWeekdayHasItsDate(first, hours.workdays);
    assert (set d | first <= d < first + 7 && RuleA(plan, userID, standard, d).working)
           == DatesOn(first, hours.workdays);
  }

  method IndexByDate(assignments: seq<Assignment>, userID: int) returns (byDate: map<int, Assignment>, wanted: seq<int>)
    requires forall row :: row in assignments ==> row.userID == userID
    ensures forall d :: (if d in byDate then Some(byDate[d]) else None) == Entry(assignments, userID, d)
    ensures forall row :: row in assignments && row.scheduleID.Some? ==> row.scheduleID.value in wanted
  {
    byDate, wanted := map[], [];
    for i := 0 to |assignments|
      invariant forall d :: (if d in byDate then Some(byDate[d]) else None) == Entry(assignments[..i], userID, d)
      invariant forall row :: row in assignments[..i] && row.scheduleID.Some? ==> row.scheduleID.value in wanted
    {
      assert assignments[..i + 1][..i] == assignments[..i];
      byDate := byDate[assignments[i].workDate := assignments[i]];
      if assignments[i].scheduleID.Some? { wanted := wanted + [assignments[i].scheduleID.value]; }
    }
    assert assignments[..|assignments|] == assignments;
  }

  method IndexHolidays(holidays: seq<Holiday>) returns (named: map<int, string>)
    ensures forall d :: (if d in named then named[d] else "") == HolidayName(holidays, d)
  {
    named := map[];
    for i := 0 to |holidays|
      invariant forall d :: (if d in named then named[d] else "") == HolidayName(holidays[..i], d)
    {
      assert holidays[..i + 1][..i] == holidays[..i];
      named := named[holidays[i].date := holidays[i].name];
    }
    assert holidays[..|holidays|] == holidays;
  }

  predicate InSpan(first: int, last: int, userID: int, row: Assignment) {
    first <= row.workDate <= last && row.userID == userID
  }

  predicate OnSpan(first: int, last: int, row: Holiday) { first <= row.date <= last }

  function IndexedDay(
    byDate: map<int, Assignment>, named: map<int, string>, schedules: map<int, WorkSchedule>, standard: Option<int>,
    date: int): Day
  {
    var entry := if date in byDate then Some(byDate[date]) else None;
    var scheduleID := if entry.Some? then entry.value.scheduleID else None;
    Resolve(date, Inputs(entry, Lookup(schedules, scheduleID), Lookup(schedules, standard),
                         if date in named then named[date] else ""))
  }

  function RowsOf(plan: Plan, userID: int, first: int, last: int): seq<Assignment> {
    Filter(plan.roster, row => InSpan(first, last, userID, row))
  }

  function HolidaysOf(plan: Plan, first: int, last: int): seq<Holiday> {
    Filter(plan.holidays, row => OnSpan(first, last, row))
  }

  /** What the indexes hold, and what was loaded for them, is enough for every date of the span. */
  lemma IndexedDayIsRuleA(
    plan: Plan, userID: int, standard: Option<int>, first: int, last: int, date: int,
    byDate: map<int, Assignment>, named: map<int, string>, wanted: seq<int>)
    requires first <= date <= last
    requires (if date in byDate then Some(byDate[date]) else None)
             == Entry(RowsOf(plan, userID, first, last), userID, date)
    requires forall row ::
               row in RowsOf(plan, userID, first, last) && row.scheduleID.Some? ==> row.scheduleID.value in wanted
    requires (if date in named then named[date] else "") == HolidayName(HolidaysOf(plan, first, last), date)
    requires standard.Some? ==> standard.value in wanted
    ensures IndexedDay(byDate, named, SchedulesByID(plan.schedules, wanted), standard, date)
            == RuleA(plan, userID, standard, date)
  {
    var rows := RowsOf(plan, userID, first, last);
    if Entry(rows, userID, date).Some? { EntryIsARow(rows, userID, date); }
    FilteredEntry(plan.roster, row => InSpan(first, last, userID, row), userID, date);
    FilteredHoliday(plan.holidays, row => OnSpan(first, last, row), date);
  }

  /** One day per date, in order. */
  method ResolveDates(
    byDate: map<int, Assignment>, named: map<int, string>, schedules: map<int, WorkSchedule>, standard: Option<int>,
    first: int, last: int) returns (days: seq<Day>)
    requires first <= last
    ensures |days| == last - first + 1
    ensures forall i :: 0 <= i < |days| ==> days[i] == IndexedDay(byDate, named, schedules, standard, first + i)
  {
    days := [];
    for date := first to last + 1
      invariant |days| == date - first
      invariant forall i :: 0 <= i < |days| ==> days[i] == IndexedDay(byDate, named, schedules, standard, first + i)
    {
      days := days + [IndexedDay(byDate, named, schedules, standard, date)];
    }
  }

  /** Loads the span's rows, indexes them, and answers each of its dates from the indexes alone. */
  method Days(plan: Plan, userID: int, first: int, last: int) returns (days: Result<seq<Day>>)
    ensures days.Err? <==>
              || first == 0 || last == 0 || last < first || last - first >= MAX_RANGE_DAYS
              || userID !in plan.employees || plan.employees[userID].deleted
    ensures days.Err? ==> days.error == if CheckRange(first, last).Some? then Invalid else NotFound
    ensures days.Ok? ==>
              && |days.value| == last - first + 1
              && forall i :: 0 <= i < |days.value| ==>
                   days.value[i] == RuleA(plan, userID, plan.employees[userID].defaultScheduleID, first + i)
  {
    if CheckRange(first, last).Some? { return Err(Invalid); }
    if userID !in plan.employees || plan.employees[userID].deleted { return Err(NotFound); }
    var standard := plan.employees[userID].defaultScheduleID;
    var byDate, wanted := IndexByDate(RowsOf(plan, userID, first, last), userID);
    var named := IndexHolidays(HolidaysOf(plan, first, last));
    if standard.Some? { wanted := wanted + [standard.value]; }

    forall date | first <= date <= last
      ensures IndexedDay(byDate, named, SchedulesByID(plan.schedules, wanted), standard, date)
              == RuleA(plan, userID, standard, date)
    {
      IndexedDayIsRuleA(plan, userID, standard, first, last, date, byDate, named, wanted);
    }
    var resolved := ResolveDates(byDate, named, SchedulesByID(plan.schedules, wanted), standard, first, last);
    days := Ok(resolved);
  }
}
