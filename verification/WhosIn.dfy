/** Rule B: where each person stands on each date, resolved for many at once from rows loaded and indexed once. */
module WhosIn {
  import opened Common
  import opened Calendar
  import opened Schedule
  import opened Shift
  import Attendance
  import Requests = Leave

  datatype Status = Present | Late | OnLeave | OnHoliday | Off | NotYet | Absent

  datatype Person = Person(
    id: int, fullName: string, departmentID: Option<int>, defaultScheduleID: Option<int>, joinDate: int,
    deletedAt: Option<int>)

  datatype Attended = Attended(userID: int, workDate: int, checkIn: int, checkOut: Option<int>, lateMinutes: int)

  /** An approved leave. */
  datatype Leave = Leave(userID: int, startDate: int, endDate: int)

  datatype Presence = Presence(
    userID: int, fullName: string, departmentID: Option<int>, date: int, status: Status, attendance: Option<Attended>)

  datatype Tables = Tables(attendances: seq<Attended>, leaves: seq<Leave>, plan: Plan)

  // ---- rule B, straight from the tables ----

  /** Employed from the join date to the calendar date, in the zone, of the removal. */
  predicate Employed(member: Person, date: int, offset: int) {
    member.joinDate <= date && (member.deletedAt.Some? ==> date <= DateIn(member.deletedAt.value, offset))
  }

  /** The attendance of a person and date; the table holds at most one, and a map filled row by row keeps the last. */
  function AttendedOn(rows: seq<Attended>, userID: int, date: int): Option<Attended> {
    if rows == [] then None
    else
      var last := rows[|rows| - 1];
      if last.userID == userID && last.workDate == date then Some(last)
      else AttendedOn(rows[..|rows| - 1], userID, date)
  }

  predicate Away(leaves: seq<Leave>, userID: int, date: int) {
    exists i :: 0 <= i < |leaves| && leaves[i].userID == userID && leaves[i].startDate <= date <= leaves[i].endDate
  }

  /** What nobody turning up means: nothing on a free day, and otherwise a matter of whether the grace has run out. */
  function Standing(day: Day, at: int, offset: int): Status
    requires day.working ==> day.schedule.Some?
  {
    if !day.working && day.holiday != "" then OnHoliday
    else if !day.working then Off
    else if at < Place(day.date, day.schedule, offset).start + day.schedule.value.graceMinutes * MINUTE then NotYet
    else Absent
  }

  /** Attendance first, then approved leave, then what rule A made of the day. */
  function RuleB(attended: Option<Attended>, away: bool, day: Day, at: int, offset: int): Status
    requires day.working ==> day.schedule.Some?
  {
    if attended.Some? then (if attended.value.lateMinutes > 0 then Late else Present)
    else if away then OnLeave
    else Standing(day, at, offset)
  }

  function PresenceOn(data: Tables, member: Person, date: int, at: int, offset: int): Presence {
    var attended := AttendedOn(data.attendances, member.id, date);
    var day := RuleA(data.plan, member.id, member.defaultScheduleID, date);
    Presence(member.id, member.fullName, member.departmentID, date,
             RuleB(attended, Away(data.leaves, member.id, date), day, at, offset), attended)
  }

  /** As time passes a working day nobody came to can only turn from not-yet to absent; nothing else moves. */
  lemma StandingOnlyTurnsAbsent(day: Day, at: int, later: int, offset: int)
    requires (day.working ==> day.schedule.Some?) && at <= later
    ensures Standing(day, later, offset) == Standing(day, at, offset)
            || (Standing(day, at, offset) == NotYet && Standing(day, later, offset) == Absent)
  {
  }

  /**
   Whoever is not expected yet and checks in at that moment is not late. The converse fails for exactly one minute: from
   the end of the grace a person is absent, but only a whole minute later would a check-in be late.
   */
  lemma NotYetIsNotLate(day: Day, at: int, offset: int)
    requires day.working && day.schedule.Some? && day.schedule.value.Valid()
    ensures var shift := Place(day.date, day.schedule, offset);
            var graceEnds := shift.start + day.schedule.value.graceMinutes * MINUTE;
            && (Standing(day, at, offset) == NotYet ==> shift.LateMinutes(at) == 0)
            && (Standing(day, at, offset) == Absent && shift.LateMinutes(at) == 0 <==>
                graceEnds <= at < graceEnds + MINUTE)
  {
    LateExactlyWhen(day.date, day.schedule.value, offset, at);
  }

  /** Rule B's statuses without attendance or leave are rule A's reasons: working, a holiday, or off. */
  lemma StandingFollowsRuleA(date: int, inputs: Inputs, at: int, offset: int)
    ensures var day := Resolve(date, inputs);
            && (day.working ==> day.schedule.Some?)
            && var standing := Standing(day, at, offset);
            && (standing == NotYet || standing == Absent <==> day.reason == Reason.Shift || day.reason == Default)
            && (day.reason == PublicHoliday ==> standing == OnHoliday)
            && (standing == Off <==> inputs.holiday == "" && (day.reason == AssignedOff || day.reason == NotAWorkday))
  {
  }

  /** An attendance row as rule B reads it. */
  function AttendedBy(key: Attendance.Key, row: Attendance.Row): Attended {
    Attended(key.userID, key.date, row.checkIn, row.checkOut, row.late)
  }

  /**
   Whatever check-ins, check-outs and corrections led to it, a stored attendance stands as late exactly when its check-in
   is a whole minute past the grace of the hours it kept, and as present otherwise, even on a day of leave.
   */
  lemma LateIsByTheClock(
    co: Attendance.Company, actions: seq<Attendance.Action>, key: Attendance.Key, away: bool, day: Day, at: int)
    requires key in Attendance.Run(co, Attendance.EMPTY, actions).rows
    requires forall id :: id in co.schedules ==> co.schedules[id].Valid()
    requires day.working ==> day.schedule.Some?
    ensures var row := Attendance.Run(co, Attendance.EMPTY, actions).rows[key];
            var shift := Attendance.Measured(co, key, row.scheduleID);
            var status := RuleB(Some(AttendedBy(key, row)), away, day, at, co.offset);
            && (status == Late <==>
                shift.hours.Some? && row.checkIn >= shift.start + (shift.hours.value.graceMinutes + 1) * MINUTE)
            && (status != Late ==> status == Present)
  {
    Attendance.StoredMinutesAreNeverStale(co, actions, key);
    var row := Attendance.Run(co, Attendance.EMPTY, actions).rows[key];
    var hours := Lookup(co.schedules, row.scheduleID);
    if hours.Some? {
      var id: int := row.scheduleID.value;
      assert hours.value == co.schedules[id] && co.schedules[id].Valid();
      LateExactlyWhen(key.date, hours.value, co.offset, row.checkIn);
    }
  }

  // ---- rule B read straight off the tables ----

  lemma {:induction false} AttendedIsTheRow(rows: seq<Attended>, k: nat)
    requires k < |rows|
    requires forall j :: k < j < |rows| ==> !(rows[j].userID == rows[k].userID && rows[j].workDate == rows[k].workDate)
    ensures AttendedOn(rows, rows[k].userID, rows[k].workDate) == Some(rows[k])
    decreases |rows|
  {
    if k < |rows| - 1 { AttendedIsTheRow(rows[..|rows| - 1], k); }
  }

  lemma {:induction false} AttendedIsARow(rows: seq<Attended>, userID: int, date: int)
    requires AttendedOn(rows, userID, date).Some?
    ensures var row := AttendedOn(rows, userID, date).value; row in rows && row.userID == userID && row.workDate == date
    decreases |rows|
  {
    var last := rows[|rows| - 1];
    if !(last.userID == userID && last.workDate == date) { AttendedIsARow(rows[..|rows| - 1], userID, date); }
  }

  /** The unique key of the attendances: one row a person and date at most. */
  ghost predicate OneAttendanceEach(rows: seq<Attended>) {
    forall i, j :: 0 <= i < j < |rows| ==> !(rows[i].userID == rows[j].userID && rows[i].workDate == rows[j].workDate)
  }

  ghost predicate Came(rows: seq<Attended>, userID: int, date: int) {
    exists row :: row in rows && row.userID == userID && row.workDate == date
  }

  ghost predicate CameLate(rows: seq<Attended>, userID: int, date: int) {
    exists row :: row in rows && row.userID == userID && row.workDate == date && row.lateMinutes > 0
  }

  lemma AttendedIsCame(rows: seq<Attended>, userID: int, date: int)
    requires OneAttendanceEach(rows)
    ensures AttendedOn(rows, userID, date).Some? <==> Came(rows, userID, date)
    ensures AttendedOn(rows, userID, date).Some? && AttendedOn(rows, userID, date).value.lateMinutes > 0
            <==> CameLate(rows, userID, date)
  {
    if AttendedOn(rows, userID, date).Some? { AttendedIsARow(rows, userID, date); }
    forall row | row in rows && row.userID == userID && row.workDate == date
      ensures AttendedOn(rows, userID, date) == Some(row)
    {
      var k :| 0 <= k < |rows| && rows[k] == row;
      AttendedIsTheRow(rows, k);
    }
  }

  /** The leaves rule B reads: of all requests, the approved. */
  function ApprovedLeaves(requests: seq<Requests.Row>): seq<Leave> {
    if requests == [] then []
    else
      var last := requests[|requests| - 1];
      ApprovedLeaves(requests[..|requests| - 1])
      + if last.status == Requests.Approved then [Leave(last.userID, last.startDate, last.endDate)] else []
  }

  ghost predicate OnApproved(requests: seq<Requests.Row>, id: nat, userID: int, date: int) {
    && id < |requests| && requests[id].userID == userID && requests[id].status == Requests.Approved
    && requests[id].startDate <= date <= requests[id].endDate
  }

  lemma {:induction false} AwayIsApproved(requests: seq<Requests.Row>, userID: int, date: int)
    ensures Away(ApprovedLeaves(requests), userID, date) <==> exists id :: OnApproved(requests, id, userID, date)
    decreases |requests|
  {
    if requests != [] {
      var n := |requests| - 1;
      var last := requests[n];
      var own := if last.status == Requests.Approved then [Leave(last.userID, last.startDate, last.endDate)] else [];
      AwayIsApproved(requests[..n], userID, date);
      forall id: nat | id < n
        ensures OnApproved(requests[..n], id, userID, date) <==> OnApproved(requests, id, userID, date)
      {
      }
      AwayAppend(ApprovedLeaves(requests[..n]), own, userID, date);
      assert own != [] ==> own[0].userID == last.userID;
      assert Away(own, userID, date) <==> OnApproved(requests, n, userID, date);
    }
  }

  lemma AwayAppend(a: seq<Leave>, b: seq<Leave>, userID: int, date: int)
    ensures Away(a + b, userID, date) <==> Away(a, userID, date) || Away(b, userID, date)
  {
    forall i | 0 <= i < |a| ensures (a + b)[i] == a[i] {}
    forall i | 0 <= i < |b| ensures (a + b)[|a| + i] == b[i] {}
  }

  /**
   Rule B off the tables and the requests any run of leave led to. An attendance decides first, by its late minutes;
   without one, exactly those with an approved request over the date are on leave, and by one request alone; otherwise a
   day rule A works is absent from the end of its grace on, and any other a holiday when it has a name.
   */
  lemma RuleBByTheTables(
    data: Tables, rules: Requests.Rules, actions: seq<Requests.Action>, member: Person, date: int, at: int, offset: int)
    requires OneAttendanceEach(data.attendances)
    requires data.leaves == ApprovedLeaves(Requests.Run(rules, Requests.EMPTY, actions).rows)
    ensures var status := PresenceOn(data, member, date, at, offset).status;
            var requests := Requests.Run(rules, Requests.EMPTY, actions).rows;
            var day := RuleA(data.plan, member.id, member.defaultScheduleID, date);
            var came := Came(data.attendances, member.id, date);
            var onLeave := exists id :: OnApproved(requests, id, member.id, date);
            && (status == Late <==> CameLate(data.attendances, member.id, date))
            && (status == Present <==> came && !CameLate(data.attendances, member.id, date))
            && (status == OnLeave <==> !came && onLeave)
            && (forall id, other ::
                  OnApproved(requests, id, member.id, date) && OnApproved(requests, other, member.id, date) ==>
                    id == other)
            && (!came && !onLeave && day.working ==>
                  && day.schedule.Some?
                  && var h := day.schedule.value;
                     status == if at + offset >= date * DAY + (h.startTime + h.graceMinutes) * MINUTE then Absent
                               else NotYet)
            && (!came && !onLeave && !day.working ==>
                  status == if HolidayName(data.plan.holidays, date) != "" then OnHoliday else Off)
  {
    var requests := Requests.Run(rules, Requests.EMPTY, actions).rows;
    AttendedIsCame(data.attendances, member.id, date);
    AwayIsApproved(requests, member.id, date);
    forall id, other | OnApproved(requests, id, member.id, date) && OnApproved(requests, other, member.id, date)
      ensures id == other
    {
      Requests.NobodyIsOnTwoLeavesAtOnce(rules, actions, id, other, date);
    }
  }

  // ---- which entries there are ----

  /** A person's index and a date. */
  type Slot = (nat, int)

  function DateSlots(member: Person, p: nat, first: int, until: int, offset: int): seq<Slot>
    decreases until - first
  {
    if until <= first then []
    else
      DateSlots(member, p, first, until - 1, offset)
      + if Employed(member, until - 1, offset) then [(p, until - 1)] else []
  }

  function Slots(people: seq<Person>, first: int, last: int, offset: int): seq<Slot> {
    if people == [] then []
    else
      var p := |people| - 1;
      Slots(people[..p], first, last, offset) + DateSlots(people[p], p, first, last + 1, offset)
  }

  predicate Before(a: Slot, b: Slot) { a.0 < b.0 || (a.0 == b.0 && a.1 < b.1) }

  ghost predicate Ascending(slots: seq<Slot>) {
    forall i, j :: 0 <= i < j < |slots| ==> Before(slots[i], slots[j])
  }

  lemma {:induction false} DateSlotsExact(member: Person, p: nat, first: int, until: int, offset: int)
    ensures var slots := DateSlots(member, p, first, until, offset);
            && Ascending(slots)
            && forall q, d :: (q, d) in slots <==> q == p && first <= d < until && Employed(member, d, offset)
    decreases until - first
  {
    if first < until { DateSlotsExact(member, p, first, until - 1, offset); }
  }

  /** One slot for every person and date employed, and no other, in people order then date order. */
  lemma {:induction false} SlotsExact(people: seq<Person>, first: int, last: int, offset: int)
    ensures var slots := Slots(people, first, last, offset);
            && Ascending(slots)
            && forall p: nat, d ::
                 (p, d) in slots <==> p < |people| && first <= d <= last && Employed(people[p], d, offset)
    decreases |people|
  {
    if people != [] {
      var n := |people| - 1;
      SlotsExact(people[..n], first, last, offset);
      DateSlotsExact(people[n], n, first, last + 1, offset);
      var earlier, own := Slots(people[..n], first, last, offset), DateSlots(people[n], n, first, last + 1, offset);
      AscendingJoin(earlier, own, n);
      forall p: nat, d
        ensures (p, d) in earlier + own <==> p < |people| && first <= d <= last && Employed(people[p], d, offset)
      {
        assert (p, d) in earlier + own <==> (p, d) in earlier || (p, d) in own;
      }
    }
  }

  lemma AscendingJoin(earlier: seq<Slot>, own: seq<Slot>, n: nat)
    requires Ascending(earlier) && Ascending(own)
    requires forall p: nat, d: int :: (p, d) in earlier ==> p < n
    requires forall p: nat, d: int :: (p, d) in own ==> p == n
    ensures Ascending(earlier + own)
  {
    forall i, j | 0 <= i < |earlier| && 0 <= j < |own| ensures Before(earlier[i], own[j]) {
      var (p, d) := earlier[i];
      var (q, e) := own[j];
      assert (p, d) == earlier[i] && (q, e) == own[j];
    }
  }

  // ---- the prefilter ----

  /** The query's own bound on removals is UTC midnight of the day before the span, whatever the zone. */
  predicate IsStaff(member: Person, first: int, last: int) {
    member.joinDate <= last && (member.deletedAt.Some? ==> (first - 1) * DAY <= member.deletedAt.value)
  }

  /** Nobody employed on some date of the span is filtered out, in any zone within a day of UTC. */
  lemma StaffDropsNobody(member: Person, first: int, last: int, date: int, offset: int)
    requires IsOffset(offset) && first <= date <= last && Employed(member, date, offset)
    ensures IsStaff(member, first, last)
  {
    if member.deletedAt.Some? { DateInBounds(member.deletedAt.value, offset); }
  }

  /** The day early is needed: east of UTC, someone removed on the span's first morning left the day before in UTC. */
  lemma TheDayEarlyIsNeeded(first: int)
    ensures exists member: Person, offset :: IsOffset(offset) && Employed(member, first, offset)
              && member.deletedAt.Some? && member.deletedAt.value < first * DAY
  {
    var member := Person(1, "", None, None, first, Some(first * DAY - HOUR));
    assert DateIn(member.deletedAt.value, 7 * HOUR) == first;
    assert Employed(member, first, 7 * HOUR);
  }

  // ---- what the batch loads and indexes ----

  predicate InScope(scope: Option<set<int>>, userID: int) { scope.Some? ==> userID in scope.value }

  predicate AttendedWithin(scope: Option<set<int>>, first: int, last: int, row: Attended) {
    InScope(scope, row.userID) && first <= row.workDate <= last
  }

  predicate LeaveWithin(scope: Option<set<int>>, first: int, last: int, row: Leave) {
    InScope(scope, row.userID) && row.startDate <= last && first <= row.endDate
  }

  predicate AssignedWithin(first: int, last: int, row: Assignment) { first <= row.workDate <= last }

  lemma {:induction false} FilteredAttended(rows: seq<Attended>, keep: Attended -> bool, userID: int, date: int)
    requires forall row :: row in rows && row.userID == userID && row.workDate == date ==> keep(row)
    ensures AttendedOn(Filter(rows, keep), userID, date) == AttendedOn(rows, userID, date)
    decreases |rows|
  {
    if rows != [] {
      var rest := rows[..|rows| - 1];
      FilteredAttended(rest, keep, userID, date);
      if keep(rows[|rows| - 1]) {
        assert Filter(rows, keep)[..|Filter(rest, keep)|] == Filter(rest, keep);
      }
    }
  }

  lemma {:induction false} FilterKeeps<T>(rows: seq<T>, keep: T -> bool, row: T)
    requires row in rows && keep(row)
    ensures row in Filter(rows, keep)
    decreases |rows|
  {
    var last := |rows| - 1;
    if row != rows[last] { FilterKeeps(rows[..last], keep, row); }
  }

  lemma FilteredAway(leaves: seq<Leave>, keep: Leave -> bool, userID: int, date: int)
    requires forall row :: row in leaves && row.userID == userID && row.startDate <= date <= row.endDate ==> keep(row)
    ensures Away(Filter(leaves, keep), userID, date) <==> Away(leaves, userID, date)
  {
    if Away(leaves, userID, date) {
      var i :| 0 <= i < |leaves| && leaves[i].userID == userID && leaves[i].startDate <= date <= leaves[i].endDate;
      FilterKeeps(leaves, keep, leaves[i]);
    }
  }

  method IndexAttended(rows: seq<Attended>) returns (attended: map<(int, int), Attended>)
    ensures forall u, d :: (if (u, d) in attended then Some(attended[(u, d)]) else None) == AttendedOn(rows, u, d)
  {
    attended := map[];
    for i := 0 to |rows|
      invariant forall u, d ::
                  (if (u, d) in attended then Some(attended[(u, d)]) else None) == AttendedOn(rows[..i], u, d)
    {
      assert rows[..i + 1][..i] == rows[..i];
      attended := attended[(rows[i].userID, rows[i].workDate) := rows[i]];
    }
    assert rows[..|rows|] == rows;
  }

  function Taken(away: map<int, seq<Leave>>, userID: int): seq<Leave> { if userID in away then away[userID] else [] }

  function LeavesOf(leaves: seq<Leave>, userID: int): seq<Leave> {
    Filter(leaves, (row: Leave) => row.userID == userID)
  }

  method IndexLeaves(leaves: seq<Leave>) returns (away: map<int, seq<Leave>>)
    ensures forall u :: Taken(away, u) == LeavesOf(leaves, u)
  {
    away := map[];
    for i := 0 to |leaves|
      invariant forall u :: Taken(away, u) == LeavesOf(leaves[..i], u)
    {
      assert leaves[..i + 1][..i] == leaves[..i];
      ghost var before := away;
      away := away[leaves[i].userID := Taken(away, leaves[i].userID) + [leaves[i]]];
      forall u ensures Taken(away, u) == LeavesOf(leaves[..i + 1], u) {
        assert Taken(before, u) == LeavesOf(leaves[..i], u);
      }
    }
    assert leaves[..|leaves|] == leaves;
  }

  /** Whether any of one person's leaves includes the date. */
  predicate Covered(leaves: seq<Leave>, date: int) {
    exists row :: row in leaves && row.startDate <= date <= row.endDate
  }

  method IndexRoster(roster: seq<Assignment>) returns (rostered: map<(int, int), Assignment>, wanted: seq<int>)
    ensures forall u, d :: (if (u, d) in rostered then Some(rostered[(u, d)]) else None) == Entry(roster, u, d)
    ensures forall row :: row in roster && row.scheduleID.Some? ==> row.scheduleID.value in wanted
  {
    rostered, wanted := map[], [];
    for i := 0 to |roster|
      invariant forall u, d :: (if (u, d) in rostered then Some(rostered[(u, d)]) else None) == Entry(roster[..i], u, d)
      invariant forall row :: row in roster[..i] && row.scheduleID.Some? ==> row.scheduleID.value in wanted
    {
      assert roster[..i + 1][..i] == roster[..i];
      rostered := rostered[(roster[i].userID, roster[i].workDate) := roster[i]];
      if roster[i].scheduleID.Some? { wanted := wanted + [roster[i].scheduleID.value]; }
    }
    assert roster[..|roster|] == roster;
  }

  method DefaultsOf(people: seq<Person>) returns (wanted: seq<int>)
    ensures forall member :: member in people && member.defaultScheduleID.Some? ==>
              member.defaultScheduleID.value in wanted
  {
    wanted := [];
    for i := 0 to |people|
      invariant forall member :: member in people[..i] && member.defaultScheduleID.Some? ==>
                  member.defaultScheduleID.value in wanted
    {
      assert people[..i + 1] == people[..i] + [people[i]];
      if people[i].defaultScheduleID.Some? { wanted := wanted + [people[i].defaultScheduleID.value]; }
    }
    assert people[..|people|] == people;
  }

  const ZERO_SCHEDULE := WorkSchedule(0, 0, 0, 0, [], false)

  /** Unlike rule A's own lookup, an id that was not loaded reads as a zero schedule, not as none. */
  function Pick(schedules: map<int, WorkSchedule>, id: Option<int>): Option<WorkSchedule> {
    if id.None? then None else Some(if id.value in schedules then schedules[id.value] else ZERO_SCHEDULE)
  }

  function ResolvedBy(
    find: Option<int> -> Option<WorkSchedule>, entry: Option<Assignment>, standard: Option<int>, holiday: string,
    date: int): Day
  {
    Resolve(date, Inputs(entry, if entry.Some? then find(entry.value.scheduleID) else None, find(standard), holiday))
  }

  /**
   The two lookups give a person's day alike exactly when the roster row names a schedule that exists: a dangling one
   would be a day off to rule A and a working day of no hours to the batch. A dangling default changes nothing.
   */
  lemma OnlyADanglingRosterDiffers(
    schedules: map<int, WorkSchedule>, entry: Option<Assignment>, standard: Option<int>, holiday: string, date: int)
    ensures ResolvedBy(id => Pick(schedules, id), entry, standard, holiday, date)
            == ResolvedBy(id => Lookup(schedules, id), entry, standard, holiday, date)
            <==> (entry.Some? && entry.value.scheduleID.Some? ==> entry.value.scheduleID.value in schedules)
  {
  }

  /** The roster's foreign key: every schedule a row names exists. */
  ghost predicate ReferencesHold(data: Tables) {
    forall row :: row in data.plan.roster && row.scheduleID.Some? ==> row.scheduleID.value in data.plan.schedules
  }

  /** Everything `Standings` has in hand when it comes to a person and a date. */
  datatype Indexes = Indexes(
    attended: map<(int, int), Attended>, away: map<int, seq<Leave>>, named: map<int, string>,
    rostered: map<(int, int), Assignment>, schedules: map<int, WorkSchedule>)

  function IndexedDay(x: Indexes, member: Person, date: int): Day {
    var key := (member.id, date);
    var entry := if key in x.rostered then Some(x.rostered[key]) else None;
    var holiday := if date in x.named then x.named[date] else "";
    ResolvedBy(id => Pick(x.schedules, id), entry, member.defaultScheduleID, holiday, date)
  }

  function Indexed(x: Indexes, member: Person, date: int, at: int, offset: int): Presence {
    var key := (member.id, date);
    var attended := if key in x.attended then Some(x.attended[key]) else None;
    Presence(member.id, member.fullName, member.departmentID, date,
             RuleB(attended, Covered(Taken(x.away, member.id), date), IndexedDay(x, member, date), at, offset), attended)
  }

  // The scoped, spanned queries over the tables.

  function AttendedRows(data: Tables, scope: Option<set<int>>, first: int, last: int): seq<Attended> {
    Filter(data.attendances, row => AttendedWithin(scope, first, last, row))
  }

  function LeaveRows(data: Tables, scope: Option<set<int>>, first: int, last: int): seq<Leave> {
    Filter(data.leaves, row => LeaveWithin(scope, first, last, row))
  }

  function RosterRows(data: Tables, first: int, last: int): seq<Assignment> {
    Filter(data.plan.roster, row => AssignedWithin(first, last, row))
  }

  function HolidayRows(data: Tables, first: int, last: int): seq<Holiday> {
    Filter(data.plan.holidays, row => OnSpan(first, last, row))
  }

  /** The indexes hold what the queries returned. */
  ghost predicate Loaded(x: Indexes, data: Tables, scope: Option<set<int>>, first: int, last: int) {
    && (forall u, d :: (if (u, d) in x.attended then Some(x.attended[(u, d)]) else None)
                       == AttendedOn(AttendedRows(data, scope, first, last), u, d))
    && (forall u :: Taken(x.away, u) == LeavesOf(LeaveRows(data, scope, first, last), u))
    && (forall d :: (if d in x.named then x.named[d] else "") == HolidayName(HolidayRows(data, first, last), d))
    && (forall u, d :: (if (u, d) in x.rostered then Some(x.rostered[(u, d)]) else None)
                       == Entry(RosterRows(data, first, last), u, d))
  }

  /** And every schedule they or the people name was loaded with them. */
  ghost predicate SchedulesLoaded(x: Indexes, data: Tables, people: seq<Person>, first: int, last: int) {
    && (forall row :: row in RosterRows(data, first, last) ==>
          && Lookup(x.schedules, row.scheduleID) == Lookup(data.plan.schedules, row.scheduleID)
          && (row.scheduleID.Some? ==> row.scheduleID.value in x.schedules))
    && (forall m :: m in people ==>
          Lookup(x.schedules, m.defaultScheduleID) == Lookup(data.plan.schedules, m.defaultScheduleID))
  }

  lemma LoadedAttended(
    x: Indexes, data: Tables, scope: Option<set<int>>, first: int, last: int, userID: int, date: int)
    requires Loaded(x, data, scope, first, last) && InScope(scope, userID) && first <= date <= last
    ensures (if (userID, date) in x.attended then Some(x.attended[(userID, date)]) else None)
            == AttendedOn(data.attendances, userID, date)
  {
    FilteredAttended(data.attendances, row => AttendedWithin(scope, first, last, row), userID, date);
  }

  lemma OwnLeavesCover(leaves: seq<Leave>, userID: int, date: int)
    ensures Covered(LeavesOf(leaves, userID), date) <==> Away(leaves, userID, date)
  {
    if Away(leaves, userID, date) {
      var i :| 0 <= i < |leaves| && leaves[i].userID == userID && leaves[i].startDate <= date <= leaves[i].endDate;
      FilterKeeps(leaves, (row: Leave) => row.userID == userID, leaves[i]);
    }
  }

  lemma LoadedAway(
    x: Indexes, data: Tables, scope: Option<set<int>>, first: int, last: int, userID: int, date: int)
    requires Loaded(x, data, scope, first, last) && InScope(scope, userID) && first <= date <= last
    ensures Covered(Taken(x.away, userID), date) <==> Away(data.leaves, userID, date)
  {
    FilteredAway(data.leaves, row => LeaveWithin(scope, first, last, row), userID, date);
    OwnLeavesCover(LeaveRows(data, scope, first, last), userID, date);
  }

  lemma LoadedDay(
    x: Indexes, data: Tables, people: seq<Person>, scope: Option<set<int>>, first: int, last: int, member: Person,
    date: int)
    requires Loaded(x, data, scope, first, last) && SchedulesLoaded(x, data, people, first, last)
    requires member in people && first <= date <= last
    ensures IndexedDay(x, member, date) == RuleA(data.plan, member.id, member.defaultScheduleID, date)
  {
    FilteredHoliday(data.plan.holidays, row => OnSpan(first, last, row), date);
    FilteredEntry(data.plan.roster, row => AssignedWithin(first, last, row), member.id, date);
    var roster := RosterRows(data, first, last);
    var entry := Entry(roster, member.id, date);
    if entry.Some? { EntryIsARow(roster, member.id, date); }
    OnlyADanglingRosterDiffers(
      x.schedules, entry, member.defaultScheduleID, HolidayName(data.plan.holidays, date), date);
  }

  /** The batch's status is rule B over the person's own rule A day, though it never asks for that person's days. */
  lemma IndexedIsRuleB(
    x: Indexes, data: Tables, people: seq<Person>, scope: Option<set<int>>, first: int, last: int, member: Person,
    date: int, at: int, offset: int)
    requires Loaded(x, data, scope, first, last) && SchedulesLoaded(x, data, people, first, last)
    requires member in people && InScope(scope, member.id) && first <= date <= last
    ensures Indexed(x, member, date, at, offset) == PresenceOn(data, member, date, at, offset)
  {
    LoadedAttended(x, data, scope, first, last, member.id, date);
    LoadedAway(x, data, scope, first, last, member.id, date);
    LoadedDay(x, data, people, scope, first, last, member, date);
  }

  method Load(data: Tables, people: seq<Person>, scope: Option<set<int>>, first: int, last: int) returns (x: Indexes)
    requires ReferencesHold(data)
    ensures Loaded(x, data, scope, first, last) && SchedulesLoaded(x, data, people, first, last)
  {
    var attended := IndexAttended(AttendedRows(data, scope, first, last));
    var away := IndexLeaves(LeaveRows(data, scope, first, last));
    var named := IndexHolidays(HolidayRows(data, first, last));
    var rostered, wanted := IndexRoster(RosterRows(data, first, last));
    var defaults := DefaultsOf(people);
    x := Indexes(attended, away, named, rostered, SchedulesByID(data.plan.schedules, wanted + defaults));
  }

  /** A slot and what is reported of it. */
  ghost predicate Answer(
    data: Tables, people: seq<Person>, first: int, last: int, at: int, offset: int, slot: Slot, presence: Presence)
  {
    && slot.0 < |people| && first <= slot.1 <= last
    && presence == PresenceOn(data, people[slot.0], slot.1, at, offset)
  }

  ghost predicate Answers(
    data: Tables, people: seq<Person>, first: int, last: int, at: int, offset: int, slots: seq<Slot>,
    presences: seq<Presence>)
  {
    && |presences| == |slots|
    && forall i :: 0 <= i < |slots| ==> Answer(data, people, first, last, at, offset, slots[i], presences[i])
  }

  lemma AnswersJoin(
    data: Tables, people: seq<Person>, first: int, last: int, at: int, offset: int, slots: seq<Slot>,
    presences: seq<Presence>, moreSlots: seq<Slot>, more: seq<Presence>)
    requires Answers(data, people, first, last, at, offset, slots, presences)
    requires Answers(data, people, first, last, at, offset, moreSlots, more)
    ensures Answers(data, people, first, last, at, offset, slots + moreSlots, presences + more)
  {
  }

  /** What is looked up for a person on any date of the span is rule B. */
  ghost predicate Faithful(x: Indexes, data: Tables, member: Person, first: int, last: int, at: int, offset: int) {
    forall date :: first <= date <= last ==>
      Indexed(x, member, date, at, offset) == PresenceOn(data, member, date, at, offset)
  }

  function IndexedDates(x: Indexes, member: Person, first: int, until: int, at: int, offset: int): seq<Presence>
    decreases until - first
  {
    if until <= first then []
    else
      IndexedDates(x, member, first, until - 1, at, offset)
      + if Employed(member, until - 1, offset) then [Indexed(x, member, until - 1, at, offset)] else []
  }

  lemma {:induction false} IndexedDatesAnswer(
    x: Indexes, data: Tables, people: seq<Person>, first: int, last: int, at: int, offset: int, p: nat, until: int)
    requires p < |people| && Faithful(x, data, people[p], first, last, at, offset) && until <= last + 1
    ensures Answers(data, people, first, last, at, offset, DateSlots(people[p], p, first, until, offset),
                    IndexedDates(x, people[p], first, until, at, offset))
    decreases until - first
  {
    if first < until {
      IndexedDatesAnswer(x, data, people, first, last, at, offset, p, until - 1);
      var presence := Indexed(x, people[p], until - 1, at, offset);
      assert Answer(data, people, first, last, at, offset, (p, until - 1), presence);
      AnswersJoin(data, people, first, last, at, offset, DateSlots(people[p], p, first, until - 1, offset),
                  IndexedDates(x, people[p], first, until - 1, at, offset), [(p, until - 1)], [presence]);
    }
  }

  /** One person's dates, in order. */
  method DatesOf(x: Indexes, member: Person, first: int, last: int, at: int, offset: int)
    returns (presences: seq<Presence>)
    ensures presences == IndexedDates(x, member, first, last + 1, at, offset)
  {
    presences := [];
    var date := first;
    while date <= last
      invariant first <= date && (date <= last + 1 || date == first)
      invariant presences == IndexedDates(x, member, first, date, at, offset)
    {
      if Employed(member, date, offset) {
        presences := presences + [Indexed(x, member, date, at, offset)];
      }
      date := date + 1;
    }
  }

  /** Answers the slots of everyone listed, each person's in one go, from indexes built once. */
  method Standings(
    data: Tables, scope: Option<set<int>>, people: seq<Person>, first: int, last: int, at: int, offset: int)
    returns (presences: seq<Presence>)
    requires ReferencesHold(data)
    requires forall member :: member in people ==> InScope(scope, member.id)
    ensures Answers(data, people, first, last, at, offset, Slots(people, first, last, offset), presences)
  {
    var x := Load(data, people, scope, first, last);
    presences := [];
    for p := 0 to |people|
      invariant Answers(data, people, first, last, at, offset, Slots(people[..p], first, last, offset), presences)
    {
      assert people[..p + 1][..p] == people[..p];
      forall date | first <= date <= last
        ensures Indexed(x, people[p], date, at, offset) == PresenceOn(data, people[p], date, at, offset)
      {
        IndexedIsRuleB(x, data, people, scope, first, last, people[p], date, at, offset);
      }
      IndexedDatesAnswer(x, data, people, first, last, at, offset, p, last + 1);
      var dates := DatesOf(x, people[p], first, last, at, offset);
      AnswersJoin(data, people, first, last, at, offset, Slots(people[..p], first, last, offset), presences,
                  DateSlots(people[p], p, first, last + 1, offset), dates);
      presences := presences + dates;
    }
    assert people[..|people|] == people;
  }
}
