/** The roster and the holidays as they are written: each method is one step of `Roster.Step`, and its audit entries. */
module RosterStore {
  import opened Common
  import opened Schedule
  import opened Roster

  method CheckAssignments(batch: seq<Assignment>) returns (refused: bool)
    ensures refused <==> !BatchOk(batch)
    ensures refused <==>
            || batch == [] || |batch| > 500
            || (exists i :: 0 <= i < |batch| && (batch[i].userID < 1 || batch[i].workDate == 0))
            || exists i, j :: 0 <= i < j < |batch| && batch[i].userID == batch[j].userID
                              && batch[i].workDate == batch[j].workDate
  {
    if |batch| == 0 || |batch| > MAX_BULK_ASSIGNED { return true; }
    var seen: set<Slot> := {};
    for i := 0 to |batch|
      invariant forall slot :: slot in seen <==> exists k :: 0 <= k < i && SlotOf(batch[k]) == slot
      invariant forall k :: 0 <= k < i ==> RowOk(batch[k])
      invariant SlotsDistinct(batch[..i])
    {
      assert batch[i] in batch;
      if batch[i].userID < 1 || batch[i].workDate == 0 { return true; }
      if SlotOf(batch[i]) in seen {
        ghost var k :| 0 <= k < i && SlotOf(batch[k]) == SlotOf(batch[i]);
        assert batch[k].userID == batch[i].userID;
        return true;
      }
      seen := seen + {SlotOf(batch[i])};
    }
    assert batch[..|batch|] == batch;
    forall i, j | 0 <= i < j < |batch|
      ensures !(batch[i].userID == batch[j].userID && batch[i].workDate == batch[j].workDate)
    {
      assert SlotOf(batch[i]) != SlotOf(batch[j]);
    }
    return false;
  }

  class Store {
    var roster: map<Slot, Row>
    var holidays: map<int, Holiday>
    var nextID: int
    var calls: map<int, Call>
    var log: seq<Entry>

    ghost function Snapshot(): State
      reads this
    {
      State(roster, holidays, nextID, calls, log)
    }

    constructor ()
      ensures Snapshot() == EMPTY
    {
      roster, holidays, nextID, calls, log := map[], map[], 1, map[], [];
    }

    function At(call: int): Call
      reads this
    {
      if call in calls then calls[call] else Idle
    }

    method Abort(call: int)
      modifies this
      ensures Snapshot() == Step(old(Snapshot()), Action.Abort(call))
    {
      calls := calls[call := Idle];
    }

    /** Checks the batch and, if it reaches into the past, reads and locks the rows it will replace. */
    method BeginAssign(call: int, claims: Claims, batch: seq<Assignment>, today: int)
      returns (refused: Option<Error>, waits: bool)
      requires At(call).Idle?
      modifies this
      ensures Snapshot() == Step(old(Snapshot()), Assign(call, claims, batch, today))
      ensures refused.None? <==> claims.role >= HR_ADMIN && BatchOk(batch)
      ensures refused.None? && !waits ==>
                && At(call).Assigning? && At(call).batch == batch && At(call).today == today
                && At(call).actorID == claims.userID
                && var past := exists i :: 0 <= i < |batch| && batch[i].workDate < today;
                   At(call).before == if past then Present(roster, batch) else map[]
      ensures waits ==> exists i :: 0 <= i < |batch| && batch[i].workDate < today
      ensures refused.Some? || waits ==> Snapshot() == old(Snapshot())
    {
      waits := false;
      if claims.role < HR_ADMIN { return Some(Forbidden), false; }
      var invalid := CheckAssignments(batch);
      if invalid { return Some(Invalid), false; }
      var before: map<Slot, Option<int>> := map[];
      if AnyPast(batch, today) {
        if AnyLocked(calls, call, batch) { return None, true; }
        before := LockAssignments(batch);
      }
      calls := calls[call := Assigning(claims.userID, batch, before, today)];
      return None, false;
    }

    method LockAssignments(batch: seq<Assignment>) returns (before: map<Slot, Option<int>>)
      ensures before == Present(roster, batch)
    {
      before := map[];
      for i := 0 to |batch|
        invariant forall slot :: slot in before <==> slot in roster && InBatch(batch[..i], slot)
        invariant forall slot :: slot in before ==> before[slot] == roster[slot].scheduleID
      {
        var slot := SlotOf(batch[i]);
        forall x ensures InBatch(batch[..i + 1], x) <==> InBatch(batch[..i], x) || x == slot {
          assert batch[..i + 1] == batch[..i] + [batch[i]];
          InBatchAppend(batch[..i], batch[i], x);
        }
        if slot in roster { before := before[slot := roster[slot].scheduleID]; }
      }
      assert batch[..|batch|] == batch;
    }

    /** Upserts the batch row by row and writes the entries built from the rows read. */
    method EndAssign(call: int) returns (waits: bool)
      requires At(call).Assigning? && Valid(Snapshot())
      modifies this
      ensures Snapshot() == Step(old(Snapshot()), Write(call))
      ensures waits <==> old(AnyLocked(calls, call, At(call).batch))
      ensures waits ==> Snapshot() == old(Snapshot())
      ensures !waits ==> var c := old(At(call)); log == old(log) + AuditAssigned(c.actorID, c.batch, c.before, c.today)
      ensures !waits ==> forall slot :: !old(InBatch(At(call).batch, slot)) ==>
                (slot in roster <==> slot in old(roster)) && (slot in roster ==> roster[slot] == old(roster)[slot])
      ensures !waits ==> forall i :: 0 <= i < old(|At(call).batch|) ==>
                var row := old(At(call).batch)[i]; RosterAt(roster, SlotOf(row)) == Some(row.scheduleID)
    {
      var Assigning(actorID, batch, before, today) := calls[call];
      if AnyLocked(calls, call, batch) { return true; }
      var entries: seq<Entry> := [];
      var written := roster;
      for i := 0 to |batch|
        invariant entries == AuditAssigned(actorID, batch[..i], before, today)
        invariant written == Upserted(roster, batch[..i], nextID)
        invariant Snapshot() == old(Snapshot())
      {
        assert batch[..i + 1][..i] == batch[..i];
        var slot := SlotOf(batch[i]);
        if IsPast(slot.date, today) {
          var was := if slot in before then Some(before[slot]) else None;
          entries := entries + [ShiftEntry(actorID, slot, was, Some(batch[i].scheduleID))];
        }
        var id := if slot in written then written[slot].id else nextID + i;
        written := written[slot := Row(id, batch[i].scheduleID)];
      }
      assert batch[..|batch|] == batch;
      assert SlotsDistinct(batch) by { assert Snapshot().At(call).Assigning?; }
      forall i | 0 <= i < |batch| ensures RosterAt(written, SlotOf(batch[i])) == Some(batch[i].scheduleID) {
        UpsertedAt(roster, batch, nextID, SlotOf(batch[i]));
      }
      forall slot | !InBatch(batch, slot)
        ensures (slot in written <==> slot in roster) && (slot in written ==> written[slot] == roster[slot])
      {
        UpsertedAt(roster, batch, nextID, slot);
      }
      roster, nextID := written, nextID + |batch|;
      log := log + entries;
      calls := calls[call := Idle];
      return false;
    }

    method BeginUnassign(call: int, claims: Claims, slot: Slot, today: int) returns (refused: Option<Error>)
      requires At(call).Idle?
      modifies this
      ensures Snapshot() == Step(old(Snapshot()), Unassign(call, claims, slot, today))
      ensures refused.None? <==> claims.role >= HR_ADMIN && slot in roster
      ensures refused.None? ==> At(call) == Removing(claims.userID, slot, roster[slot], today)
      ensures roster == old(roster) && log == old(log)
    {
      if claims.role < HR_ADMIN { return Some(Forbidden); }
      if slot !in roster { return Some(NotFound); }
      calls := calls[call := Removing(claims.userID, slot, roster[slot], today)];
      return None;
    }

    method EndUnassign(call: int) returns (refused: Option<Error>, waits: bool)
      requires At(call).Removing?
      modifies this
      ensures Snapshot() == Step(old(Snapshot()), Write(call))
      ensures var c := old(At(call));
              refused.None? && !waits <==>
              old(!Locked(calls, call, c.slot)) && c.slot in old(roster) && old(roster)[c.slot].id == c.row.id
      ensures refused.None? && !waits ==> roster == old(roster) - {old(At(call)).slot}
      ensures var c := old(At(call));
              refused.None? && !waits ==>
                log == old(log) + if c.slot.date >= c.today then []
                                  else [ShiftEntry(c.actorID, c.slot, Some(c.row.scheduleID), None)]
      ensures refused.Some? || waits ==> roster == old(roster) && log == old(log)
    {
      var Removing(actorID, slot, was, today) := calls[call];
      if Locked(calls, call, slot) { return None, true; }
      calls := calls[call := Idle];
      if slot !in roster || roster[slot].id != was.id { return Some(NotFound), false; }
      roster := roster - {slot};
      if IsPast(slot.date, today) {
        log := log + [ShiftEntry(actorID, slot, Some(was.scheduleID), None)];
      }
      return None, false;
    }

    method CreateHoliday(claims: Claims, date: int, name: string, today: int) returns (created: Result<int>)
      requires Valid(Snapshot())
      modifies this
      ensures Valid(Snapshot()) && Snapshot() == Step(old(Snapshot()), Declare(claims, date, name, today))
      ensures created.Err? ==> Snapshot() == old(Snapshot())
      ensures created.Ok? <==>
                && claims.role >= HR_ADMIN && name != "" && date != 0
                && forall id :: id in old(holidays) ==> old(holidays)[id].date != date
      ensures created.Ok? ==>
                log == old(log) + if date >= today then []
                                  else [HolidayEntry(claims.userID, created.value, None, Some(Holiday(date, name)))]
      ensures created.Ok? ==>
                created.value !in old(holidays) && holidays == old(holidays)[created.value := Holiday(date, name)]
    {
      StepKeepsValid(Snapshot(), Declare(claims, date, name, today));
      var error := HolidayError(claims, date, name);
      if error.Some? { return Err(error.value); }
      if DateTaken(holidays, date, nextID) { return Err(Conflict); }
      holidays := holidays[nextID := Holiday(date, name)];
      if IsPast(date, today) {
        log := log + [HolidayEntry(claims.userID, nextID, None, Some(Holiday(date, name)))];
      }
      nextID := nextID + 1;
      return Ok(nextID - 1);
    }

    method BeginReplaceHoliday(call: int, claims: Claims, id: int, date: int, name: string, today: int)
      returns (refused: Option<Error>)
      requires At(call).Idle?
      modifies this
      ensures Snapshot() == Step(old(Snapshot()), Redeclare(call, claims, id, date, name, today))
      ensures refused.None? <==> claims.role >= HR_ADMIN && name != "" && date != 0 && id in holidays
      ensures refused.None? ==>
                At(call) == Redating(claims.userID, id, holidays[id], Holiday(date, name), today)
      ensures holidays == old(holidays) && log == old(log)
    {
      var error := HolidayError(claims, date, name);
      if error.Some? { return error; }
      if id !in holidays { return Some(NotFound); }
      calls := calls[call := Redating(claims.userID, id, holidays[id], Holiday(date, name), today)];
      return None;
    }

    /** Updates by id alone, and logs what was read. */
    method EndReplaceHoliday(call: int) returns (refused: Option<Error>)
      requires At(call).Redating?
      modifies this
      ensures Snapshot() == Step(old(Snapshot()), Write(call))
      ensures var c := old(At(call));
              refused.None? <==>
                && c.id in old(holidays)
                && forall id :: id in old(holidays) && id != c.id ==> old(holidays)[id].date != c.becomes.date
      ensures refused.None? ==>
                var c := old(At(call));
                && holidays == old(holidays)[c.id := c.becomes]
                && log == old(log) + if c.was.date >= c.today && c.becomes.date >= c.today then []
                                     else [HolidayEntry(c.actorID, c.id, Some(c.was), Some(c.becomes))]
      ensures refused.Some? ==> holidays == old(holidays) && log == old(log)
    {
      var Redating(actorID, id, was, becomes, today) := calls[call];
      calls := calls[call := Idle];
      if id !in holidays { return Some(NotFound); }
      if DateTaken(holidays, becomes.date, id) { return Some(Conflict); }
      holidays := holidays[id := becomes];
      if IsPast(was.date, today) || IsPast(becomes.date, today) {
        log := log + [HolidayEntry(actorID, id, Some(was), Some(becomes))];
      }
      return None;
    }

    method BeginDeleteHoliday(call: int, claims: Claims, id: int, today: int) returns (refused: Option<Error>)
      requires At(call).Idle?
      modifies this
      ensures Snapshot() == Step(old(Snapshot()), Revoke(call, claims, id, today))
      ensures refused.None? <==> claims.role >= HR_ADMIN && id in holidays
      ensures refused.None? ==> At(call) == Revoking(claims.userID, id, holidays[id], today)
      ensures holidays == old(holidays) && log == old(log)
    {
      if claims.role < HR_ADMIN { return Some(Forbidden); }
      if id !in holidays { return Some(NotFound); }
      calls := calls[call := Revoking(claims.userID, id, holidays[id], today)];
      return None;
    }

    method EndDeleteHoliday(call: int) returns (refused: Option<Error>)
      requires At(call).Revoking?
      modifies this
      ensures Snapshot() == Step(old(Snapshot()), Write(call))
      ensures refused.None? <==> old(At(call)).id in old(holidays)
      ensures refused.None? ==>
                var c := old(At(call));
                && holidays == old(holidays) - {c.id}
                && log == old(log) + if c.was.date >= c.today then []
                                     else [HolidayEntry(c.actorID, c.id, Some(c.was), None)]
      ensures refused.Some? ==> holidays == old(holidays) && log == old(log)
    {
      var Revoking(actorID, id, was, today) := calls[call];
      calls := calls[call := Idle];
      if id !in holidays { return Some(NotFound); }
      holidays := holidays - {id};
      if IsPast(was.date, today) {
        log := log + [HolidayEntry(actorID, id, Some(was), None)];
      }
      return None;
    }
  }
}
