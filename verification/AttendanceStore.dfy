/** The attendance store as it is written: each method is one step of `Attendance.Step`, rows and history alike. */
module AttendanceStore {
  import opened Common
  import opened Calendar
  import opened Schedule
  import opened Shift
  import opened Attendance

  /** The unbounded roster that picking a shift is judged against. */
  function RosterOf(plan: Plan, userID: int): int -> Day {
    d => RuleA(plan, userID, Standard(plan, userID), d)
  }

  function Standard(plan: Plan, userID: int): Option<int> {
    if userID in plan.employees then plan.employees[userID].defaultScheduleID else None
  }

  ghost predicate SchedulesOk(schedules: map<int, WorkSchedule>) {
    forall id: int :: id in schedules ==> schedules[id].id == id && schedules[id].Valid()
  }

  lemma RosterOfIsRoster(plan: Plan, userID: int)
    requires SchedulesOk(plan.schedules)
    ensures IsRoster(RosterOf(plan, userID))
    ensures forall d ::
              var hours := RosterOf(plan, userID)(d).schedule;
              hours.Some? ==> Lookup(plan.schedules, Some(hours.value.id)) == hours
  {
    var roster := RosterOf(plan, userID);
    var standard := Standard(plan, userID);
    forall d
      ensures roster(d).date == d && (roster(d).working <==> roster(d).schedule.Some?)
      ensures roster(d).schedule.Some? ==>
                && roster(d).schedule.value.Valid()
                && Lookup(plan.schedules, Some(roster(d).schedule.value.id)) == roster(d).schedule
    {
      assert roster(d) == RuleA(plan, userID, standard, d);
      var entry := Entry(plan.roster, userID, d);
      var rostered := if entry.Some? then entry.value.scheduleID else None;
      LookupOk(plan.schedules, rostered);
      LookupOk(plan.schedules, standard);
      WorkingCarriesHours(d, Inputs(entry, Lookup(plan.schedules, rostered), Lookup(plan.schedules, standard),
                                    HolidayName(plan.holidays, d)));
    }
  }

  lemma LookupOk(schedules: map<int, WorkSchedule>, id: Option<int>)
    requires SchedulesOk(schedules)
    ensures var found := Lookup(schedules, id);
            found.Some? ==> found.value.Valid() && Lookup(schedules, Some(found.value.id)) == found
  {
    if Lookup(schedules, id).Some? {
      var key: int := id.value;
      assert schedules[key].id == key && schedules[key].Valid();
    }
  }

  lemma OneDateCounts(roster: int -> Day, now: int, offset: int, d: int)
    requires CountsFor(roster, now, offset, d)
    ensures forall e :: CountsFor(roster, now, offset, e) <==> e == d
  {
  }

  /**
   A check-in just made is late exactly from a whole minute past the grace: on a date rule A works, by the clock of the
   zone and the hours it gives there, and never on one it does not.
   */
  lemma CheckInIsLateExactlyWhen(co: Company, s: State, plan: Plan, userID: int, at: int, date: int)
    requires plan.schedules == co.schedules && SchedulesOk(co.schedules) && Key(userID, date) !in s.rows
    ensures var day := RuleA(plan, userID, Standard(plan, userID), date);
            var id := if day.schedule.Some? then Some(day.schedule.value.id) else None;
            var t := Step(co, s, Action.CheckIn(userID, at, date, id));
            && Key(userID, date) in t.rows
            && (t.rows[Key(userID, date)].late > 0 <==>
                  && day.working && day.schedule.Some?
                  && var h := day.schedule.value;
                     at + co.offset >= date * DAY + (h.startTime + h.graceMinutes + 1) * MINUTE)
  {
    RosterOfIsRoster(plan, userID);
    var day := RosterOf(plan, userID)(date);
    assert day == RuleA(plan, userID, Standard(plan, userID), date);
    if day.schedule.Some? { LateExactlyWhen(date, day.schedule.value, co.offset, at); }
  }

  /** The check-in and check-out that proposed times leave, laid over those held. */
  function Resulting(rows: map<Key, Row>, key: Key, proposedIn: Option<int>, proposedOut: Option<int>):
    (Option<int>, Option<int>)
  {
    if key in rows then
      (if proposedIn.Some? then proposedIn else Some(rows[key].checkIn),
       if proposedOut.Some? then proposedOut else rows[key].checkOut)
    else (proposedIn, proposedOut)
  }

  /** Rule A's hours for a date, by id; refused for the zero date and for nobody the plan employs. */
  function RuleAHours(plan: Plan, key: Key): Result<Option<int>> {
    if key.date == 0 then Err(Invalid)
    else if key.userID !in plan.employees || plan.employees[key.userID].deleted then Err(NotFound)
    else
      var schedule := RuleA(plan, key.userID, Standard(plan, key.userID), key.date).schedule;
      Ok(if schedule.Some? then Some(schedule.value.id) else None)
  }

  function HoursOf(plan: Plan, corrections: seq<Correction>, id: nat): Result<Option<int>> {
    if id < |corrections| then RuleAHours(plan, corrections[id].key) else Err(NotFound)
  }

  lemma RuleAHoursAreKept(plan: Plan, key: Key)
    requires SchedulesOk(plan.schedules) && RuleAHours(plan, key).Ok?
    ensures var id := RuleAHours(plan, key).value;
            && Lookup(plan.schedules, id) == RosterOf(plan, key.userID)(key.date).schedule
            && (id.Some? ==> id.value in plan.schedules)
  {
    RosterOfIsRoster(plan, key.userID);
    assert RosterOf(plan, key.userID)(key.date) == RuleA(plan, key.userID, Standard(plan, key.userID), key.date);
  }

  /** Who may approve what: a supervisor above, not of oneself, something pending whose times hold together. */
  ghost predicate Approvable(
    co: Company, plan: Plan, rows: map<Key, Row>, corrections: seq<Correction>, claims: Claims, reaches: bool, id: nat)
  {
    && claims.role >= SUPERVISOR && reaches && id < |corrections|
    && var c := corrections[id];
       var (resultIn, resultOut) := Resulting(rows, c.key, c.proposedIn, c.proposedOut);
       && c.status.Pending? && c.key.userID != claims.userID
       && resultIn.Some? && (resultOut.Some? ==> resultIn.value < resultOut.value)
       && if c.key in rows then References(co, rows[c.key].scheduleID)
          else c.key.date != 0 && c.key.userID in plan.employees && !plan.employees[c.key.userID].deleted
  }

  /**
   `after` holds the resulting times, measured exactly against the hours kept or else rule A's, and nothing else new;
   `done` names who decided and the times replaced.
   */
  ghost predicate IsApproval(
    co: Company, plan: Plan, c: Correction, reviewer: int, before: map<Key, Row>, after: map<Key, Row>, done: Correction)
  {
    && c.key in after && after == before[c.key := after[c.key]]
    && var row := after[c.key];
       var hours := Lookup(co.schedules, row.scheduleID);
       var shift := Place(c.key.date, hours, co.offset);
       && (Some(row.checkIn), row.checkOut) == Resulting(before, c.key, c.proposedIn, c.proposedOut)
       && LateBy(shift, row.checkIn, row.late)
       && (row.checkOut.Some? ==> EarlyBy(shift, row.checkOut.value, row.early))
       && if c.key in before then
            var held := before[c.key];
            && row.scheduleID == held.scheduleID && (row.checkOut.None? ==> row.early == held.early)
            && done == Correction(c.key, c.requestedBy, c.proposedIn, c.proposedOut, Some(held.checkIn), held.checkOut,
                                  Approved, Some(reviewer))
          else
            && hours == RosterOf(plan, c.key.userID)(c.key.date).schedule && (row.checkOut.None? ==> row.early == 0)
            && done == c.(status := Approved, reviewedBy := Some(reviewer))
  }

  lemma ApprovableIsApproved(co: Company, plan: Plan, s: State, claims: Claims, reaches: bool, id: nat)
    requires plan.schedules == co.schedules && SchedulesOk(co.schedules)
    ensures ApprovedBy(co, s, claims, reaches, id, HoursOf(plan, s.corrections, id)).1.None?
            <==> Approvable(co, plan, s.rows, s.corrections, claims, reaches, id)
  {
    if id < |s.corrections| && RuleAHours(plan, s.corrections[id].key).Ok? {
      RuleAHoursAreKept(plan, s.corrections[id].key);
    }
  }

  lemma ApprovalMeasures(co: Company, plan: Plan, s: State, claims: Claims, reaches: bool, id: nat)
    requires plan.schedules == co.schedules && SchedulesOk(co.schedules)
    requires ApprovedBy(co, s, claims, reaches, id, HoursOf(plan, s.corrections, id)).1.None?
    ensures var t := ApprovedBy(co, s, claims, reaches, id, HoursOf(plan, s.corrections, id)).0;
            && id < |s.corrections| == |t.corrections|
            && t.corrections == s.corrections[id := t.corrections[id]]
            && IsApproval(co, plan, s.corrections[id], claims.userID, s.rows, t.rows, t.corrections[id])
  {
    var c := s.corrections[id];
    var held := HeldAt(s, c.key);
    var t := ApprovedBy(co, s, claims, reaches, id, HoursOf(plan, s.corrections, id)).0;
    var row, done := t.rows[c.key], t.corrections[id];
    assert t.rows == s.rows[c.key := row] && done == ApprovedCorrection(c, held, claims.userID);
    assert row == ApprovedRow(co, c.key, held, row.scheduleID, (row.checkIn, row.checkOut));
    assert (Some(row.checkIn), row.checkOut) == Resulting(s.rows, c.key, c.proposedIn, c.proposedOut);
    RowIsMeasured(co, c.key, row);
    if held.None? { RuleAHoursAreKept(plan, c.key); }
  }

  lemma RowIsMeasured(co: Company, key: Key, row: Row)
    requires SchedulesOk(co.schedules)
    ensures var shift := Measured(co, key, row.scheduleID);
            && (row.late == shift.LateMinutes(row.checkIn) ==> LateBy(shift, row.checkIn, row.late))
            && (row.checkOut.Some? && row.early == shift.EarlyLeaveMinutes(row.checkOut.value) ==>
                  EarlyBy(shift, row.checkOut.value, row.early))
  {
    LookupOk(co.schedules, row.scheduleID);
    var hours := Lookup(co.schedules, row.scheduleID);
    MinutesAreExact(key.date, hours, co.offset, row.checkIn, row.late);
    if row.checkOut.Some? { MinutesAreExact(key.date, hours, co.offset, row.checkOut.value, row.early); }
  }

  class Store {
    const co: Company
    var rows: map<Key, Row>
    var corrections: seq<Correction>
    var closing: map<int, Closing>
    ghost var checkedIn: map<Key, int>
    ghost var history: map<Key, seq<nat>>

    ghost function Snapshot(): State
      reads this
    {
      State(rows, corrections, closing, checkedIn, history)
    }

    constructor (co: Company)
      ensures Snapshot() == EMPTY && this.co == co
    {
      this.co := co;
      rows, corrections, closing, checkedIn, history := map[], [], map[], map[], map[];
    }

    /** Stores a row on the date an unbounded search for the nearest shift would give, or on today when none is open. */
    method CheckIn(plan: Plan, userID: int, at: int) returns (stored: Result<Key>)
      requires plan.schedules == co.schedules && SchedulesOk(co.schedules)
      modifies this
      ensures stored.Err? ==> Snapshot() == old(Snapshot())
      ensures stored.Err? <==>
              var roster, today := RosterOf(plan, userID), DateIn(at, co.offset);
              || today - 1 == 0 || today + 1 == 0 || userID !in plan.employees || plan.employees[userID].deleted
              || NotOpenYet(roster, at, co.offset)
              || exists d :: CountsFor(roster, at, co.offset, d) && Key(userID, d) in old(rows)
      ensures stored.Ok? ==>
                var roster := RosterOf(plan, userID);
                var date := stored.value.date;
                && stored.value == Key(userID, date) && stored.value !in old(rows)
                && Snapshot() == Step(co, old(Snapshot()), Action.CheckIn(userID, at, date,
                                      Place(date, roster(date).schedule, co.offset).ScheduleID()))
                && CountsFor(roster, at, co.offset, date)
                && stored.value in rows
                && var (hours, late) := (roster(date).schedule, rows[stored.value].late);
                   rows == old(rows)[stored.value :=
                     Row(if hours.Some? then Some(hours.value.id) else None, at, None, late, 0)]
                   && LateBy(Place(date, hours, co.offset), at, late)
    {
      var today := DateIn(at, co.offset);
      var days := Days(plan, userID, today - 1, today + 1);
      if days.Err? { return Err(days.error); }
      RosterOfIsRoster(plan, userID);
      var picked := PickShift(at, co.offset, days.value, RosterOf(plan, userID));
      if picked.Err? { return Err(picked.error); }
      OneDateCounts(RosterOf(plan, userID), at, co.offset, picked.value.date);
      var key := Key(userID, picked.value.date);
      assert picked.value == Place(key.date, RosterOf(plan, userID)(key.date).schedule, co.offset);
      assert picked.value == Measured(co, key, picked.value.ScheduleID());
      if key in rows { return Err(Conflict); }
      MinutesAreExact(key.date, picked.value.hours, co.offset, at, picked.value.LateMinutes(at));
      rows := rows[key := Row(picked.value.ScheduleID(), at, None, picked.value.LateMinutes(at), 0)];
      checkedIn := checkedIn[key := at];
      return Ok(key);
    }

    /** The latest open check-in, if one is recent enough. */
    method OpenCheckIn(userID: int, at: int) returns (open: Option<Key>)
      ensures open.Some? ==> open.value.userID == userID && IsOpenCheckIn(Snapshot(), open.value, at)
      ensures open.None? ==> forall key: Key :: key.userID == userID ==> !IsOpenCheckIn(Snapshot(), key, at)
      ensures open.None? <==> forall k | k in rows && k.userID == userID ::
                rows[k].checkOut.Some? || rows[k].checkIn < at - 24 * HOUR
      ensures open.Some? ==>
                && open.value in rows && rows[open.value].checkOut.None? && at <= rows[open.value].checkIn + 24 * HOUR
                && forall k | k in rows && k.userID == userID && rows[k].checkOut.None? ::
                     rows[k].checkIn <= rows[open.value].checkIn
    {
      open := None;
      var keys := rows.Keys;
      while keys != {}
        invariant keys <= rows.Keys
        invariant open.Some? ==>
                    && open.value in rows && open.value.userID == userID && rows[open.value].checkOut.None?
                    && rows[open.value].checkIn >= at - MAX_OPEN_CHECK_IN
        invariant forall k |
                    && k in rows && k !in keys && k.userID == userID && rows[k].checkOut.None?
                    && rows[k].checkIn >= at - MAX_OPEN_CHECK_IN
                  :: open.Some? && rows[k].checkIn <= rows[open.value].checkIn
        decreases |keys|
      {
        var k :| k in keys;
        keys := keys - {k};
        if k.userID == userID && rows[k].checkOut.None? && rows[k].checkIn >= at - MAX_OPEN_CHECK_IN
           && (open.None? || rows[open.value].checkIn < rows[k].checkIn) {
          open := Some(k);
        }
      }
    }

    /** The first half of a check-out: reads the open check-in and measures how early `at` is. */
    method BeginCheckOut(call: int, userID: int, at: int) returns (key: Result<Key>)
      modifies this
      ensures key.Ok? ==>
                && IsOpenCheckIn(old(Snapshot()), key.value, at) && Closable(co, old(Snapshot()), key.value, at)
                && Snapshot() == Step(co, old(Snapshot()), ReadOpen(call, key.value, at))
                && rows == old(rows)
                && var shift := Place(key.value.date, Lookup(co.schedules, rows[key.value].scheduleID), co.offset);
                   && (shift.hours.Some? ==> at <= shift.end + 8 * HOUR)
                   && call in closing && closing == old(closing)[call := Closing(key.value, at, closing[call].early)]
                   && (SchedulesOk(co.schedules) ==> EarlyBy(shift, at, closing[call].early))
      ensures key.Err? ==> Snapshot() == old(Snapshot())
      ensures key.Err? ==>
                forall k: Key :: k.userID == userID && IsOpenCheckIn(old(Snapshot()), k, at) ==>
                  exists tied: Key :: tied.userID == userID && IsOpenCheckIn(old(Snapshot()), tied, at)
                                      && !Closable(co, old(Snapshot()), tied, at)
    {
      var found := OpenCheckIn(userID, at);
      if found.None? { return Err(Invalid); }
      var row := rows[found.value];
      var measured := Place(found.value.date, Lookup(co.schedules, row.scheduleID), co.offset);
      if measured.hours.Some? && at > measured.end + CHECK_OUT_CLOSES_AFTER { return Err(Invalid); }
      if SchedulesOk(co.schedules) {
        LookupOk(co.schedules, row.scheduleID);
        MinutesAreExact(found.value.date, measured.hours, co.offset, at, measured.EarlyLeaveMinutes(at));
      }
      closing := closing[call := Closing(found.value, at, measured.EarlyLeaveMinutes(at))];
      return Ok(found.value);
    }

    /** The second half: the conditional write, which a faster check-out or an approval may have beaten. */
    method EndCheckOut(call: int) returns (refused: Option<Error>)
      requires call in closing && closing[call].key in rows
      modifies this
      ensures Snapshot() == Step(co, old(Snapshot()), WriteCheckOut(call))
      ensures var c := old(closing[call]); var row := old(rows)[c.key];
              refused.None? <==> row.checkOut.None? && row.checkIn < c.at
      ensures var c := old(closing[call]); var row := old(rows)[c.key];
              rows == if refused.Some? then old(rows)
                      else old(rows)[c.key := row.(checkOut := Some(c.at), early := c.early)]
    {
      var c := closing[call];
      closing := closing - {call};
      if rows[c.key].checkOut.Some? || rows[c.key].checkIn >= c.at { return Some(Invalid); }
      rows := rows[c.key := rows[c.key].(checkOut := Some(c.at), early := c.early)];
      return None;
    }

    /** Files for oneself, or for anyone as hr_admin, what could be approved against the attendance as it stands. */
    method RequestCorrection(claims: Claims, key: Key, proposedIn: Option<int>, proposedOut: Option<int>, now: int)
      returns (refused: Option<Error>)
      modifies this
      ensures refused == Some(Forbidden) <==> key.userID != claims.userID && claims.role < HR_ADMIN
      ensures Snapshot() == if refused == Some(Forbidden) then old(Snapshot())
                            else Step(co, old(Snapshot()), File(key, claims.userID, proposedIn, proposedOut, now))
      ensures var (resultIn, resultOut) := Resulting(old(rows), key, proposedIn, proposedOut);
              refused.None? <==>
                && (key.userID == claims.userID || claims.role >= HR_ADMIN)
                && key.date != 0 && key.date * DAY <= now + co.offset && (proposedIn.Some? || proposedOut.Some?)
                && NearItsDate(co, key.date, proposedIn) && NearItsDate(co, key.date, proposedOut)
                && (proposedIn.Some? ==> proposedIn.value <= now) && (proposedOut.Some? ==> proposedOut.value <= now)
                && resultIn.Some? && (resultOut.Some? ==> resultIn.value < resultOut.value)
                && forall c :: c in old(corrections) && c.key == key ==> !c.status.Pending?
      ensures corrections == old(corrections) + if refused.Some? then [] else
                [Correction(key, claims.userID, proposedIn, proposedOut, None, None, Pending, None)]
      ensures rows == old(rows)
    {
      if key.userID != claims.userID && claims.role < HR_ADMIN { return Some(Forbidden); }
      if !ProposalOk(co, key.date, proposedIn, proposedOut, now) { return Some(Invalid); }
      var held := if key in rows then Some(rows[key]) else None;
      if Corrected(held, proposedIn, proposedOut).Err? { return Some(Invalid); }
      if PendingFor(corrections, key) { return Some(Conflict); }
      corrections := corrections +
        [Correction(key, claims.userID, proposedIn, proposedOut, None, None, Pending, None)];
      return None;
    }

    /** The hours of an approval that has no attendance to take them from: rule A's for that one date. */
    method HoursFor(plan: Plan, key: Key) returns (hours: Result<Option<int>>)
      ensures hours == RuleAHours(plan, key)
    {
      var days := Days(plan, key.userID, key.date, key.date);
      if days.Err? { return Err(days.error); }
      var schedule := days.value[0].schedule;
      return Ok(if schedule.Some? then Some(schedule.value.id) else None);
    }

    /** Approves in one transaction; a refusal, whatever its cause, leaves attendance and correction as they were. */
    method ApproveCorrection(plan: Plan, claims: Claims, reaches: bool, id: nat) returns (refused: Option<Error>)
      requires plan.schedules == co.schedules && SchedulesOk(co.schedules)
      modifies this
      ensures Snapshot()
              == Step(co, old(Snapshot()), Action.Approve(claims, reaches, id, HoursOf(plan, old(corrections), id)))
      ensures refused.Some? ==> Snapshot() == old(Snapshot())
      ensures refused == ApprovedBy(co, old(Snapshot()), claims, reaches, id, HoursOf(plan, old(corrections), id)).1
    {
      if claims.role < SUPERVISOR { return Some(Forbidden); }
      if id >= |corrections| { return Some(NotFound); }
      var c := corrections[id];
      if c.key.userID == claims.userID || !reaches { return Some(Forbidden); }
      if !c.status.Pending? { return Some(Conflict); }
      var held := if c.key in rows then Some(rows[c.key]) else None;
      var times := Corrected(held, c.proposedIn, c.proposedOut);
      if times.Err? { return Some(times.error); }
      var hours := Ok(None);
      if held.Some? { hours := Ok(held.value.scheduleID); } else { hours := HoursFor(plan, c.key); }
      if hours.Err? { return Some(hours.error); }
      if hours.value.Some? && hours.value.value !in co.schedules { return Some(Invalid); }

      var (checkIn, checkOut) := times.value;
      var measured := Place(c.key.date, Lookup(co.schedules, hours.value), co.offset);
      var early := if held.Some? then held.value.early else 0;
      var next := Row(hours.value, checkIn, checkOut, measured.LateMinutes(checkIn), early);
      if checkOut.Some? { next := next.(early := measured.EarlyLeaveMinutes(checkOut.value)); }
      assert next == ApprovedRow(co, c.key, held, hours.value, times.value);
      var decided := c.(status := Approved, reviewedBy := Some(claims.userID));
      if held.Some? {
        decided := decided.(oldIn := Some(held.value.checkIn), oldOut := held.value.checkOut);
      }
      assert decided == ApprovedCorrection(c, held, claims.userID);
      rows := rows[c.key := next];
      corrections := corrections[id := decided];
      history := history[c.key := HistoryOf(old(Snapshot()), c.key) + [id]];
      return None;
    }

    /** Withdraws for the employee or whoever filed it, or rejects as one who may judge it; only what is pending. */
    method SettleCorrection(claims: Claims, reaches: bool, id: nat, withdraw: bool) returns (refused: Option<Error>)
      modifies this
      ensures Snapshot()
              == Step(co, old(Snapshot()), if withdraw then Withdraw(claims, id) else Reject(claims, reaches, id))
      ensures refused.None? <==>
                && id < old(|corrections|)
                && var c := old(corrections)[id];
                   && c.status.Pending?
                   && if withdraw then claims.userID == c.key.userID || claims.userID == c.requestedBy
                      else claims.role >= SUPERVISOR && reaches && claims.userID != c.key.userID
      ensures rows == old(rows)
      ensures corrections
              == if refused.Some? then old(corrections)
                 else old(corrections)[id :=
                   old(corrections)[id].(status := if withdraw then Cancelled else Rejected,
                                         reviewedBy := if withdraw then None else Some(claims.userID))]
    {
      if !withdraw && claims.role < SUPERVISOR { return Some(Forbidden); }
      if id >= |corrections| { return Some(NotFound); }
      var c := corrections[id];
      if withdraw && claims.userID != c.key.userID && claims.userID != c.requestedBy { return Some(Forbidden); }
      if !withdraw && (c.key.userID == claims.userID || !reaches) { return Some(Forbidden); }
      if !c.status.Pending? { return Some(Conflict); }
      corrections := corrections[id := if withdraw then c.(status := Cancelled, reviewedBy := None)
                                       else c.(status := Rejected, reviewedBy := Some(claims.userID))];
      return None;
    }

    /** The verdict of someone above: an approval stores what was asked, measured anew, and a rejection nothing. */
    method DecideCorrection(plan: Plan, claims: Claims, reaches: bool, id: nat, approve: bool)
      returns (refused: Option<Error>)
      requires plan.schedules == co.schedules && SchedulesOk(co.schedules)
      modifies this
      ensures refused.Some? ==> Snapshot() == old(Snapshot())
      ensures approve ==> (refused.None? <==> Approvable(co, plan, old(rows), old(corrections), claims, reaches, id))
      ensures !approve ==>
                (refused.None? <==>
                  && claims.role >= SUPERVISOR && reaches && id < old(|corrections|)
                  && old(corrections)[id].key.userID != claims.userID && old(corrections)[id].status.Pending?)
      ensures refused.None? ==>
                && id < old(|corrections|) == |corrections|
                && corrections == old(corrections)[id := corrections[id]]
                && var c := old(corrections)[id];
                   if approve then IsApproval(co, plan, c, claims.userID, old(rows), rows, corrections[id])
                   else rows == old(rows)
                        && corrections[id] == c.(status := Rejected, reviewedBy := Some(claims.userID))
    {
      if approve {
        ghost var s := Snapshot();
        ApprovableIsApproved(co, plan, s, claims, reaches, id);
        refused := ApproveCorrection(plan, claims, reaches, id);
        if refused.None? { ApprovalMeasures(co, plan, s, claims, reaches, id); }
      } else {
        refused := SettleCorrection(claims, reaches, id, false);
      }
    }
  }
}
