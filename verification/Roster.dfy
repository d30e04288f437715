/**
 Writing the roster and the holiday calendar, and the audit log kept of every change to a date already past.

 Removing a roster row and editing or removing a holiday read the row, and settle what to log, before the transaction
 that writes; a bulk assign reads and locks the rows it replaces inside its transaction, but a row not there yet cannot
 be locked. So each is a read and a later write, and a `Run` is any interleaving of such steps by any number of calls.
 */
module Roster {
  import opened Common
  import opened Schedule

  const MAX_BULK_ASSIGNED := 500

  datatype Slot = Slot(userID: int, date: int)

  datatype Entry =
    | ShiftEntry(actorID: int, slot: Slot, before: Option<Option<int>>, after: Option<Option<int>>)
    | HolidayEntry(actorID: int, id: int, was: Option<Holiday>, becomes: Option<Holiday>)

  /** A roster row keeps its id when it is written over, and one made anew on the same slot has another. */
  datatype Row = Row(id: int, scheduleID: Option<int>)

  /** What a call has read and not yet written; `before` are the rows a bulk assign found and holds locked. */
  datatype Call =
    | Idle
    | Assigning(actorID: int, batch: seq<Assignment>, before: map<Slot, Option<int>>, today: int)
    | Removing(actorID: int, slot: Slot, row: Row, today: int)
    | Redating(actorID: int, id: int, was: Holiday, becomes: Holiday, today: int)
    | Revoking(actorID: int, id: int, was: Holiday, today: int)

  /** One roster row per person and date; holidays have unique dates; ids come from one counter. */
  datatype State = State(
    roster: map<Slot, Row>, holidays: map<int, Holiday>, nextID: int, calls: map<int, Call>, log: seq<Entry>)
  {
    function At(call: int): Call { if call in calls then calls[call] else Idle }
  }

  const EMPTY := State(map[], map[], 1, map[], [])

  datatype Action =
    | Assign(call: int, claims: Claims, batch: seq<Assignment>, today: int)
    | Unassign(call: int, claims: Claims, slot: Slot, today: int)
    | Redeclare(call: int, claims: Claims, id: int, date: int, name: string, today: int)
    | Revoke(call: int, claims: Claims, id: int, today: int)
    | Declare(claims: Claims, date: int, name: string, today: int)
    | Write(call: int)
    | Abort(call: int)

  function SlotOf(row: Assignment): Slot { Slot(row.userID, row.workDate) }

  predicate IsPast(date: int, today: int) { date < today }

  function RosterAt(roster: map<Slot, Row>, slot: Slot): Option<Option<int>> {
    if slot in roster then Some(roster[slot].scheduleID) else None
  }

  function HolidayAt(holidays: map<int, Holiday>, id: int): Option<Holiday> {
    if id in holidays then Some(holidays[id]) else None
  }

  /** Nobody is assigned twice on one date. */
  ghost predicate SlotsDistinct(batch: seq<Assignment>) {
    forall i, j :: 0 <= i < j < |batch| ==> SlotOf(batch[i]) != SlotOf(batch[j])
  }

  predicate RowOk(row: Assignment) { row.userID >= 1 && row.workDate != 0 }

  ghost predicate BatchOk(batch: seq<Assignment>) {
    0 < |batch| <= MAX_BULK_ASSIGNED && (forall row :: row in batch ==> RowOk(row)) && SlotsDistinct(batch)
  }

  predicate InBatch(batch: seq<Assignment>, slot: Slot) { exists i :: 0 <= i < |batch| && SlotOf(batch[i]) == slot }

  predicate AnyPast(batch: seq<Assignment>, today: int) {
    exists i :: 0 <= i < |batch| && IsPast(batch[i].workDate, today)
  }

  lemma InBatchAppend(batch: seq<Assignment>, row: Assignment, slot: Slot)
    ensures InBatch(batch + [row], slot) <==> InBatch(batch, slot) || SlotOf(row) == slot
  {
    var longer := batch + [row];
    assert longer[|batch|] == row && forall i :: 0 <= i < |batch| ==> longer[i] == batch[i];
    if InBatch(batch, slot) {
      var i :| 0 <= i < |batch| && SlotOf(batch[i]) == slot;
      assert SlotOf(longer[i]) == slot;
    }
    if InBatch(longer, slot) {
      var i :| 0 <= i < |longer| && SlotOf(longer[i]) == slot;
      assert i < |batch| ==> SlotOf(batch[i]) == slot;
    }
  }

  /** The rows a batch is about to replace. */
  function Present(roster: map<Slot, Row>, batch: seq<Assignment>): map<Slot, Option<int>> {
    map slot | slot in roster && InBatch(batch, slot) :: roster[slot].scheduleID
  }

  function Kept(before: map<Slot, Option<int>>, slot: Slot): Option<Option<int>> {
    if slot in before then Some(before[slot]) else None
  }

  function Upserted(roster: map<Slot, Row>, batch: seq<Assignment>, nextID: int): map<Slot, Row> {
    if batch == [] then roster
    else
      var last := batch[|batch| - 1];
      var rest := Upserted(roster, batch[..|batch| - 1], nextID);
      var id := if SlotOf(last) in rest then rest[SlotOf(last)].id else nextID + |batch| - 1;
      rest[SlotOf(last) := Row(id, last.scheduleID)]
  }

  /** One entry per row on a past date, in batch order, naming what was found there. */
  function AuditAssigned(actorID: int, batch: seq<Assignment>, before: map<Slot, Option<int>>, today: int): seq<Entry> {
    if batch == [] then []
    else
      var last := batch[|batch| - 1];
      var entries := AuditAssigned(actorID, batch[..|batch| - 1], before, today);
      if IsPast(last.workDate, today)
      then entries + [ShiftEntry(actorID, SlotOf(last), Kept(before, SlotOf(last)), Some(last.scheduleID))]
      else entries
  }

  /** A batch is logged row by row: each on a date already past has its own entry, in batch order, and no other has. */
  lemma {:induction false} OneEntryPerPastRow(
    actorID: int, batch: seq<Assignment>, before: map<Slot, Option<int>>, today: int) returns (at: seq<nat>)
    ensures var entries := AuditAssigned(actorID, batch, before, today);
            && |entries| == |at|
            && (forall k :: 0 <= k < |at| ==>
                  && at[k] < |batch|
                  && var row := batch[at[k]];
                     var slot := Slot(row.userID, row.workDate);
                     entries[k] == ShiftEntry(actorID, slot, if slot in before then Some(before[slot]) else None,
                                              Some(row.scheduleID)))
    ensures forall j, k :: 0 <= j < k < |at| ==> at[j] < at[k]
    ensures forall i :: 0 <= i < |batch| ==> (i in at <==> batch[i].workDate < today)
    decreases |batch|
  {
    if batch == [] {
      at := [];
    } else {
      var last := |batch| - 1;
      at := OneEntryPerPastRow(actorID, batch[..last], before, today);
      forall i | 0 <= i < last ensures i in at <==> batch[i].workDate < today { assert batch[..last][i] == batch[i]; }
      if batch[last].workDate < today { at := at + [last]; }
    }
  }

  predicate DateTaken(holidays: map<int, Holiday>, date: int, except: int) {
    exists id :: id in holidays && id != except && holidays[id].date == date
  }

  function HolidayError(claims: Claims, date: int, name: string): Option<Error> {
    if claims.role < HR_ADMIN then Some(Forbidden) else if name == "" || date == 0 then Some(Invalid) else None
  }

  // ---- the reads ----

  /** Another call holds the slot's row locked until it commits. */
  predicate Locked(calls: map<int, Call>, call: int, slot: Slot) {
    exists other :: other in calls && other != call && calls[other].Assigning? && slot in calls[other].before
  }

  predicate AnyLocked(calls: map<int, Call>, call: int, batch: seq<Assignment>) {
    exists i :: 0 <= i < |batch| && Locked(calls, call, SlotOf(batch[i]))
  }

  function Began(s: State, call: int, c: Call): State { s.(calls := s.calls[call := c]) }

  /** Only a batch with a past date reads, and locks, what it replaces; it waits for rows others hold. */
  ghost function BeganAssign(s: State, a: Action): State
    requires a.Assign?
  {
    if a.claims.role < HR_ADMIN || !BatchOk(a.batch) then s
    else if !AnyPast(a.batch, a.today) then Began(s, a.call, Assigning(a.claims.userID, a.batch, map[], a.today))
    else if AnyLocked(s.calls, a.call, a.batch) then s
    else Began(s, a.call, Assigning(a.claims.userID, a.batch, Present(s.roster, a.batch), a.today))
  }

  function BeganUnassign(s: State, a: Action): State
    requires a.Unassign?
  {
    if a.claims.role < HR_ADMIN || a.slot !in s.roster then s
    else Began(s, a.call, Removing(a.claims.userID, a.slot, s.roster[a.slot], a.today))
  }

  function BeganRedeclare(s: State, a: Action): State
    requires a.Redeclare?
  {
    if HolidayError(a.claims, a.date, a.name).Some? || a.id !in s.holidays then s
    else Began(s, a.call, Redating(a.claims.userID, a.id, s.holidays[a.id], Holiday(a.date, a.name), a.today))
  }

  function BeganRevoke(s: State, a: Action): State
    requires a.Revoke?
  {
    if a.claims.role < HR_ADMIN || a.id !in s.holidays then s
    else Began(s, a.call, Revoking(a.claims.userID, a.id, s.holidays[a.id], a.today))
  }

  // ---- the writes ----

  /** A new holiday replaces nothing, so its one transaction is one step. */
  function Declared(s: State, a: Action): State
    requires a.Declare?
  {
    if HolidayError(a.claims, a.date, a.name).Some? || DateTaken(s.holidays, a.date, s.nextID) then s
    else
      var entry := HolidayEntry(a.claims.userID, s.nextID, None, Some(Holiday(a.date, a.name)));
      s.(holidays := s.holidays[s.nextID := Holiday(a.date, a.name)], nextID := s.nextID + 1,
         log := if IsPast(a.date, a.today) then s.log + [entry] else s.log)
  }

  /** The write still finds what it changes, by id, and no constraint refuses it. */
  predicate Takes(s: State, call: int) {
    match s.At(call)
    case Idle => false
    case Assigning(_, batch, _, _) => !AnyLocked(s.calls, call, batch)
    case Removing(_, slot, was, _) => !Locked(s.calls, call, slot) && slot in s.roster && s.roster[slot].id == was.id
    case Redating(_, id, _, becomes, _) => id in s.holidays && !DateTaken(s.holidays, becomes.date, id)
    case Revoking(_, id, _, _) => id in s.holidays
  }

  /** A write held up by a lock waits; any other that does not take is refused and ends its call. */
  predicate Waits(s: State, call: int) {
    match s.At(call)
    case Assigning(_, batch, _, _) => AnyLocked(s.calls, call, batch)
    case Removing(_, slot, _, _) => Locked(s.calls, call, slot)
    case _ => false
  }

  /** The entries a call writes, settled by what it read and not by what it writes over. */
  function EntriesOf(c: Call): seq<Entry> {
    match c
    case Idle => []
    case Assigning(actorID, batch, before, today) => AuditAssigned(actorID, batch, before, today)
    case Removing(actorID, slot, was, today) =>
      if IsPast(slot.date, today) then [ShiftEntry(actorID, slot, Some(was.scheduleID), None)] else []
    case Redating(actorID, id, was, becomes, today) =>
      if IsPast(was.date, today) || IsPast(becomes.date, today)
      then [HolidayEntry(actorID, id, Some(was), Some(becomes))] else []
    case Revoking(actorID, id, was, today) =>
      if IsPast(was.date, today) then [HolidayEntry(actorID, id, Some(was), None)] else []
  }

  function Ended(s: State, call: int): State { s.(calls := s.calls[call := Idle]) }

  function Written(s: State, call: int): State
    requires Takes(s, call)
  {
    var c := s.At(call);
    var t := Ended(s, call).(log := s.log + EntriesOf(c));
    match c
    case Assigning(_, batch, _, _) => t.(roster := Upserted(s.roster, batch, s.nextID), nextID := s.nextID + |batch|)
    case Removing(_, slot, _, _) => t.(roster := s.roster - {slot})
    case Redating(_, id, _, becomes, _) => t.(holidays := s.holidays[id := becomes])
    case Revoking(_, id, _, _) => t.(holidays := s.holidays - {id})
  }

  ghost function Step(s: State, a: Action): State {
    match a
    case Assign(call, _, _, _) => if s.At(call).Idle? then BeganAssign(s, a) else s
    case Unassign(call, _, _, _) => if s.At(call).Idle? then BeganUnassign(s, a) else s
    case Redeclare(call, _, _, _, _, _) => if s.At(call).Idle? then BeganRedeclare(s, a) else s
    case Revoke(call, _, _, _) => if s.At(call).Idle? then BeganRevoke(s, a) else s
    case Declare(_, _, _, _) => Declared(s, a)
    case Write(call) => if Takes(s, call) then Written(s, call) else if Waits(s, call) then s else Ended(s, call)
    case Abort(call) => Ended(s, call)
  }

  ghost function Run(s: State, actions: seq<Action>): State
    decreases |actions|
  {
    if actions == [] then s else Run(Step(s, actions[0]), actions[1..])
  }

  // ---- a batch is a map override, whatever its order ----

  /** A slot is in a batch as its last row's or in the rest, and not both. */
  lemma BatchSplits(batch: seq<Assignment>, slot: Slot)
    requires batch != [] && SlotsDistinct(batch)
    ensures var rest, last := batch[..|batch| - 1], SlotOf(batch[|batch| - 1]);
            && (InBatch(batch, slot) <==> InBatch(rest, slot) || last == slot)
            && !(InBatch(rest, slot) && last == slot)
  {
    var rest, last := batch[..|batch| - 1], batch[|batch| - 1];
    assert batch == rest + [last];
    InBatchAppend(rest, last, slot);
    if InBatch(rest, slot) {
      var i :| 0 <= i < |rest| && SlotOf(rest[i]) == slot;
      assert SlotOf(batch[i]) != SlotOf(batch[|batch| - 1]);
    }
  }

  lemma {:induction false} UpsertedAt(roster: map<Slot, Row>, batch: seq<Assignment>, nextID: int, slot: Slot)
    requires SlotsDistinct(batch)
    ensures var after := Upserted(roster, batch, nextID);
            !InBatch(batch, slot) ==>
              (slot in after <==> slot in roster) && (slot in roster ==> after[slot] == roster[slot])
    ensures forall i :: 0 <= i < |batch| && SlotOf(batch[i]) == slot ==>
              RosterAt(Upserted(roster, batch, nextID), slot) == Some(batch[i].scheduleID)
    decreases |batch|
  {
    if batch != [] {
      var rest := batch[..|batch| - 1];
      UpsertedAt(roster, rest, nextID, slot);
      BatchSplits(batch, slot);
    }
  }

  lemma BatchOrderIsIrrelevant(
    roster: map<Slot, Row>, one: seq<Assignment>, other: seq<Assignment>, nextID: int, slot: Slot)
    requires SlotsDistinct(one) && SlotsDistinct(other) && forall row :: row in one <==> row in other
    ensures RosterAt(Upserted(roster, one, nextID), slot) == RosterAt(Upserted(roster, other, nextID), slot)
  {
    UpsertedAt(roster, one, nextID, slot);
    UpsertedAt(roster, other, nextID, slot);
    InBatchOfSameRows(one, other, slot);
    InBatchOfSameRows(other, one, slot);
    if InBatch(one, slot) {
      var i :| 0 <= i < |one| && SlotOf(one[i]) == slot;
      assert one[i] in other;
      var j :| 0 <= j < |other| && other[j] == one[i];
    }
  }

  lemma InBatchOfSameRows(one: seq<Assignment>, other: seq<Assignment>, slot: Slot)
    requires forall row :: row in one ==> row in other
    ensures InBatch(one, slot) ==> InBatch(other, slot)
  {
    if InBatch(one, slot) {
      var i :| 0 <= i < |one| && SlotOf(one[i]) == slot;
      assert one[i] in other;
    }
  }

  // ---- what the log says of a date ----

  /** What the log is about: what one person was rostered on a date, or the holiday on a date. */
  datatype Subject = RosterOf(slot: Slot) | HolidayOn(date: int) {
    function Date(): int { if RosterOf? then slot.date else date }
  }

  datatype Content = Hours(scheduleID: Option<int>) | Name(name: string)

  ghost predicate DatesUnique(holidays: map<int, Holiday>) {
    forall i, j :: i in holidays && j in holidays && holidays[i].date == holidays[j].date ==> i == j
  }

  ghost predicate Valid(s: State) {
    && DatesUnique(s.holidays)
    && (forall id :: id in s.holidays ==> id < s.nextID)
    && (forall call :: s.At(call).Assigning? ==> SlotsDistinct(s.At(call).batch))
  }

  ghost function Stored(s: State, subject: Subject): Option<Content> {
    match subject
    case RosterOf(slot) => Hour(RosterAt(s.roster, slot))
    case HolidayOn(date) => NameOn(s.holidays, date)
  }

  ghost function NameOn(holidays: map<int, Holiday>, date: int): Option<Content> {
    if id :| id in holidays && holidays[id].date == date then Some(Name(holidays[id].name)) else None
  }

  function Side(holiday: Option<Holiday>, date: int): Option<Content> {
    if holiday.Some? && holiday.value.date == date then Some(Name(holiday.value.name)) else None
  }

  function Hour(schedule: Option<Option<int>>): Option<Content> {
    if schedule.Some? then Some(Hours(schedule.value)) else None
  }

  predicate Concerns(e: Entry, subject: Subject) {
    match e
    case ShiftEntry(_, slot, _, _) => subject == RosterOf(slot)
    case HolidayEntry(_, _, was, becomes) =>
      subject.HolidayOn? && (Side(was, subject.date).Some? || Side(becomes, subject.date).Some?)
  }

  function BeforeOf(e: Entry, subject: Subject): Option<Content> {
    if e.ShiftEntry? then Hour(e.before) else if subject.HolidayOn? then Side(e.was, subject.date) else None
  }

  function AfterOf(e: Entry, subject: Subject): Option<Content> {
    if e.ShiftEntry? then Hour(e.after) else if subject.HolidayOn? then Side(e.becomes, subject.date) else None
  }

  /** What the entries say a subject came to, from what it was. */
  function Replayed(entries: seq<Entry>, subject: Subject, start: Option<Content>): Option<Content> {
    if entries == [] then start
    else
      var last := entries[|entries| - 1];
      if Concerns(last, subject) then AfterOf(last, subject) else Replayed(entries[..|entries| - 1], subject, start)
  }

  /** Each entry on the subject names what it really replaced. */
  predicate Honest(entries: seq<Entry>, subject: Subject, start: Option<Content>) {
    if entries == [] then true
    else
      var rest := entries[..|entries| - 1];
      var last := entries[|entries| - 1];
      && Honest(rest, subject, start)
      && (Concerns(last, subject) ==> BeforeOf(last, subject) == Replayed(rest, subject, start))
  }

  lemma {:induction false} ReplayConcat(a: seq<Entry>, b: seq<Entry>, subject: Subject, start: Option<Content>)
    ensures Replayed(a + b, subject, start) == Replayed(b, subject, Replayed(a, subject, start))
    ensures Honest(a + b, subject, start) <==>
            Honest(a, subject, start) && Honest(b, subject, Replayed(a, subject, start))
    decreases |b|
  {
    if b == [] {
      assert a + b == a;
    } else {
      ReplayConcat(a, b[..|b| - 1], subject, start);
      assert (a + b)[..|a + b| - 1] == a + b[..|b| - 1];
    }
  }

  lemma ReplayAppend(entries: seq<Entry>, e: Entry, subject: Subject, start: Option<Content>)
    ensures Replayed(entries + [e], subject, start)
            == if Concerns(e, subject) then AfterOf(e, subject) else Replayed(entries, subject, start)
    ensures Honest(entries + [e], subject, start) <==>
            && Honest(entries, subject, start)
            && (Concerns(e, subject) ==> BeforeOf(e, subject) == Replayed(entries, subject, start))
  {
    assert (entries + [e])[..|entries|] == entries;
  }

  /** The entries written between two states. */
  function Since(s: State, t: State): seq<Entry>
    requires s.log <= t.log
  {
    t.log[|s.log|..]
  }

  /** Replaying them turns what was stored into what is stored. */
  ghost predicate Replays(s: State, t: State, subject: Subject) {
    s.log <= t.log && Replayed(Since(s, t), subject, Stored(s, subject)) == Stored(t, subject)
  }

  /** And each names what it replaced. */
  ghost predicate Accounted(s: State, t: State, subject: Subject) {
    Replays(s, t, subject) && Honest(Since(s, t), subject, Stored(s, subject))
  }

  lemma Nothing(s: State, t: State, subject: Subject)
    requires t.log == s.log && Stored(t, subject) == Stored(s, subject)
    ensures Accounted(s, t, subject)
  {
    assert Since(s, t) == [];
  }

  lemma OneEntry(s: State, t: State, e: Entry, subject: Subject)
    requires t.log == s.log + [e]
    ensures Replays(s, t, subject) <==>
            Stored(t, subject) == if Concerns(e, subject) then AfterOf(e, subject) else Stored(s, subject)
    ensures Accounted(s, t, subject) <==>
            Replays(s, t, subject) && (Concerns(e, subject) ==> BeforeOf(e, subject) == Stored(s, subject))
  {
    assert Since(s, t) == [] + [e];
    ReplayAppend([], e, subject, Stored(s, subject));
  }

  // ---- what a write has read, and what it writes over ----

  predicate Names(c: Call, subject: Subject) {
    match c
    case Idle => false
    case Assigning(_, batch, _, _) => subject.RosterOf? && InBatch(batch, subject.slot)
    case Removing(_, slot, _, _) => subject == RosterOf(slot)
    case _ => subject.HolidayOn?
  }

  /** What the call read says of a subject it names. */
  function ReadOf(c: Call, subject: Subject): Option<Content>
    requires Names(c, subject)
  {
    match c
    case Assigning(_, _, before, _) => Hour(Kept(before, subject.slot))
    case Removing(_, _, was, _) => Some(Hours(was.scheduleID))
    case Redating(_, _, was, _, _) => Side(Some(was), subject.date)
    case Revoking(_, _, was, _) => Side(Some(was), subject.date)
  }

  /** What the row it writes over says of it now. */
  function WrittenOver(s: State, c: Call, subject: Subject): Option<Content>
    requires Names(c, subject)
  {
    match c
    case Assigning(_, _, _, _) => Hour(RosterAt(s.roster, subject.slot))
    case Removing(_, _, _, _) => Hour(RosterAt(s.roster, subject.slot))
    case Redating(_, id, _, _, _) => Side(HolidayAt(s.holidays, id), subject.date)
    case Revoking(_, id, _, _) => Side(HolidayAt(s.holidays, id), subject.date)
  }

  /** The row read and the row written over say the same of the subject. */
  predicate Fresh(s: State, call: int, subject: Subject) {
    var c := s.At(call);
    Names(c, subject) ==> ReadOf(c, subject) == WrittenOver(s, c, subject)
  }

  lemma {:induction false} BatchReplays(
    actorID: int, batch: seq<Assignment>, before: map<Slot, Option<int>>, roster: map<Slot, Row>, nextID: int,
    today: int, slot: Slot)
    requires SlotsDistinct(batch) && IsPast(slot.date, today)
    ensures var entries := AuditAssigned(actorID, batch, before, today);
            var start := Hour(RosterAt(roster, slot));
            && Replayed(entries, RosterOf(slot), start) == Hour(RosterAt(Upserted(roster, batch, nextID), slot))
            && (Honest(entries, RosterOf(slot), start) <==>
                (InBatch(batch, slot) ==> Hour(Kept(before, slot)) == start))
    decreases |batch|
  {
    if batch != [] {
      var rest, last := batch[..|batch| - 1], batch[|batch| - 1];
      BatchReplays(actorID, rest, before, roster, nextID, today, slot);
      BatchSplits(batch, slot);
      if SlotOf(last) == slot { UpsertedAt(roster, rest, nextID, slot); }
      var entry := ShiftEntry(actorID, SlotOf(last), Kept(before, SlotOf(last)), Some(last.scheduleID));
      ReplayAppend(AuditAssigned(actorID, rest, before, today), entry, RosterOf(slot), Hour(RosterAt(roster, slot)));
    }
  }

  lemma {:induction false} ShiftEntriesLeaveHolidays(
    actorID: int, batch: seq<Assignment>, before: map<Slot, Option<int>>, today: int, date: int, start: Option<Content>)
    ensures var entries := AuditAssigned(actorID, batch, before, today);
            Replayed(entries, HolidayOn(date), start) == start && Honest(entries, HolidayOn(date), start)
    decreases |batch|
  {
    if batch != [] {
      var rest, last := batch[..|batch| - 1], batch[|batch| - 1];
      ShiftEntriesLeaveHolidays(actorID, rest, before, today, date, start);
      var entry := ShiftEntry(actorID, SlotOf(last), Kept(before, SlotOf(last)), Some(last.scheduleID));
      ReplayAppend(AuditAssigned(actorID, rest, before, today), entry, HolidayOn(date), start);
    }
  }

  lemma AssignWrites(s: State, call: int, subject: Subject)
    requires Valid(s) && s.At(call).Assigning? && Takes(s, call) && IsPast(subject.Date(), s.At(call).today)
    ensures var t := Written(s, call);
            && (subject.RosterOf? ==> Replays(s, t, subject))
            && (Accounted(s, t, subject) <==> Fresh(s, call, subject))
  {
    var t, c := Written(s, call), s.At(call);
    assert Since(s, t) == EntriesOf(c);
    match subject
    case RosterOf(slot) => BatchReplays(c.actorID, c.batch, c.before, s.roster, s.nextID, c.today, slot);
    case HolidayOn(date) => ShiftEntriesLeaveHolidays(c.actorID, c.batch, c.before, c.today, date, Stored(s, subject));
  }

  lemma UnassignWrites(s: State, call: int, subject: Subject)
    requires Valid(s) && s.At(call).Removing? && Takes(s, call) && IsPast(subject.Date(), s.At(call).today)
    ensures var t := Written(s, call);
            && (subject.RosterOf? ==> Replays(s, t, subject))
            && (Accounted(s, t, subject) <==> Fresh(s, call, subject))
  {
    var t, c := Written(s, call), s.At(call);
    assert subject.HolidayOn? ==> Stored(t, subject) == Stored(s, subject);
    if IsPast(c.slot.date, c.today) {
      OneEntry(s, t, EntriesOf(c)[0], subject);
    } else {
      Nothing(s, t, subject);
    }
  }

  ghost predicate SameExcept(before: map<int, Holiday>, after: map<int, Holiday>, id: int) {
    forall i :: i != id ==> (i in before <==> i in after) && (i in before ==> after[i] == before[i])
  }

  /** One holiday row changes: the date it leaves and the one it lands on change with it, and no other. */
  lemma HolidayChange(before: map<int, Holiday>, after: map<int, Holiday>, id: int, date: int)
    requires DatesUnique(before) && DatesUnique(after) && SameExcept(before, after, id)
    ensures var cur, becomes := Side(HolidayAt(before, id), date), Side(HolidayAt(after, id), date);
            && (cur.Some? ==> NameOn(before, date) == cur)
            && (becomes.Some? ==> NameOn(after, date) == becomes)
            && (cur.Some? && becomes.None? ==> NameOn(after, date) == None)
            && (cur.None? && becomes.Some? ==> NameOn(before, date) == None)
            && (cur.None? && becomes.None? ==> NameOn(after, date) == NameOn(before, date))
  {
  }

  /**
   When replaying stays true to a holiday's date: the write puts a holiday there; or the row read and the row written
   over both stood there, or neither did; or the row read stood there and by now no holiday does.
   */
  predicate ReplaysHoliday(
    read: Option<Content>, over: Option<Content>, becomes: Option<Content>, now: Option<Content>)
  {
    becomes.Some? || (read.Some? <==> over.Some?) || (read.Some? && now.None?)
  }

  function Becomes(c: Call): Option<Holiday> { if c.Redating? then Some(c.becomes) else None }

  lemma HolidayWrites(s: State, call: int, date: int)
    requires Valid(s) && (s.At(call).Redating? || s.At(call).Revoking?) && Takes(s, call)
    requires IsPast(date, s.At(call).today)
    ensures var t, c, subject := Written(s, call), s.At(call), HolidayOn(date);
            && DatesUnique(t.holidays)
            && (Replays(s, t, subject) <==>
                ReplaysHoliday(ReadOf(c, subject), WrittenOver(s, c, subject), Side(Becomes(c), date),
                               Stored(s, subject)))
            && (Accounted(s, t, subject) <==> Fresh(s, call, subject))
  {
    var t, c, subject := Written(s, call), s.At(call), HolidayOn(date);
    HolidayChange(s.holidays, t.holidays, c.id, date);
    if EntriesOf(c) == [] {
      assert t.log == s.log && Since(s, t) == [];
    } else {
      OneEntry(s, t, EntriesOf(c)[0], subject);
    }
  }

  /**
   The log accounts for a write exactly when the row it read and the row it writes over say the same of the date. For a
   bulk assign that is a slot found empty and filled since; for the others, any edit since they read.
   */
  lemma WriteIsAccountedExactlyWhen(s: State, call: int, subject: Subject)
    requires Valid(s) && Takes(s, call) && IsPast(subject.Date(), s.At(call).today)
    ensures Accounted(s, Step(s, Write(call)), subject) <==> Fresh(s, call, subject)
  {
    var c, t := s.At(call), Written(s, call);
    if c.Assigning? {
      AssignWrites(s, call, subject);
    } else if c.Removing? {
      UnassignWrites(s, call, subject);
    } else if subject.HolidayOn? {
      HolidayWrites(s, call, subject.date);
    } else if EntriesOf(c) == [] {
      Nothing(s, t, subject);
    } else {
      OneEntry(s, t, EntriesOf(c)[0], subject);
    }
  }

  // ---- every other step ----

  predicate Reads(a: Action) { a.Assign? || a.Unassign? || a.Redeclare? || a.Revoke? }

  lemma QuietStep(s: State, a: Action)
    requires Valid(s) && (Reads(a) || a.Abort? || (a.Write? && !Takes(s, a.call)))
    ensures var t := Step(s, a);
            t.log == s.log && t.roster == s.roster && t.holidays == s.holidays && t.nextID == s.nextID && Valid(t)
  {
    var t := Step(s, a);
    forall call | t.At(call).Assigning? ensures SlotsDistinct(t.At(call).batch) {
      assert s.At(call).Assigning? ==> SlotsDistinct(s.At(call).batch);
    }
  }

  lemma DeclareAccounts(s: State, a: Action, subject: Subject)
    requires Valid(s) && a.Declare? && IsPast(subject.Date(), a.today)
    ensures Valid(Step(s, a)) && Accounted(s, Step(s, a), subject)
  {
    var t := Step(s, a);
    assert forall call :: t.At(call) == s.At(call);
    if subject.HolidayOn? { HolidayChange(s.holidays, t.holidays, s.nextID, subject.date); }
    if t.log == s.log {
      Nothing(s, t, subject);
    } else {
      OneEntry(s, t, t.log[|s.log|], subject);
    }
  }

  lemma WriteKeepsValid(s: State, call: int)
    requires Valid(s) && Takes(s, call)
    ensures Valid(Written(s, call))
  {
    var t := Written(s, call);
    forall other | t.At(other).Assigning? ensures SlotsDistinct(t.At(other).batch) {
      assert s.At(other).Assigning?;
    }
  }

  lemma StepKeepsValid(s: State, a: Action)
    requires Valid(s)
    ensures Valid(Step(s, a)) && s.log <= Step(s, a).log
  {
    if a.Declare? {
      DeclareAccounts(s, a, HolidayOn(a.today - 1));
    } else if a.Write? && Takes(s, a.call) {
      WriteKeepsValid(s, a.call);
    } else {
      QuietStep(s, a);
    }
  }

  // ---- whole runs: the roster replays whatever happens ----

  /** No call in flight looked at the calendar before the date was past, and none will. */
  ghost predicate CallsPast(s: State, date: int) {
    forall call :: !s.At(call).Idle? ==> IsPast(date, s.At(call).today)
  }

  predicate TodayPast(a: Action, date: int) { Reads(a) || a.Declare? ==> IsPast(date, a.today) }

  lemma StepKeepsCallsPast(s: State, a: Action, date: int)
    requires CallsPast(s, date) && TodayPast(a, date)
    ensures CallsPast(Step(s, a), date)
  {
    var t := Step(s, a);
    forall call | !t.At(call).Idle? ensures IsPast(date, t.At(call).today) {
      assert !s.At(call).Idle? ==> IsPast(date, s.At(call).today);
    }
  }

  lemma RosterStepReplays(s: State, a: Action, slot: Slot)
    requires Valid(s) && CallsPast(s, slot.date) && TodayPast(a, slot.date)
    ensures Replays(s, Step(s, a), RosterOf(slot))
  {
    var subject := RosterOf(slot);
    if a.Declare? {
      DeclareAccounts(s, a, subject);
    } else if a.Write? && Takes(s, a.call) {
      if s.At(a.call).Assigning? {
        AssignWrites(s, a.call, subject);
      } else if s.At(a.call).Removing? {
        UnassignWrites(s, a.call, subject);
      } else {
        WriteIsAccountedExactlyWhen(s, a.call, subject);
      }
    } else {
      QuietStep(s, a);
      Nothing(s, Step(s, a), subject);
    }
  }

  lemma ReplaysThrough(s: State, t: State, u: State, subject: Subject)
    requires s.log <= t.log <= u.log
    ensures Replays(s, t, subject) ==> (Replays(s, u, subject) <==> Replays(t, u, subject))
    ensures Accounted(s, t, subject) ==> (Accounted(s, u, subject) <==> Accounted(t, u, subject))
  {
    assert Since(s, u) == Since(s, t) + Since(t, u);
    ReplayConcat(Since(s, t), Since(t, u), subject, Stored(s, subject));
  }

  /** However calls interleave, replaying the log over a past date's roster gives the roster it has. */
  lemma {:induction false} TheRosterAlwaysReplays(s: State, actions: seq<Action>, slot: Slot)
    requires Valid(s) && CallsPast(s, slot.date) && forall i :: 0 <= i < |actions| ==> TodayPast(actions[i], slot.date)
    ensures Replays(s, Run(s, actions), RosterOf(slot))
    decreases |actions|
  {
    if actions == [] {
      Nothing(s, s, RosterOf(slot));
    } else {
      var t := Step(s, actions[0]);
      StepKeepsValid(s, actions[0]);
      StepKeepsCallsPast(s, actions[0], slot.date);
      RosterStepReplays(s, actions[0], slot);
      TheRosterAlwaysReplays(t, actions[1..], slot);
      ReplaysThrough(s, t, Run(t, actions[1..]), RosterOf(slot));
    }
  }

  // ---- whole runs: exactly when the past is audited ----

  /** A write that takes finds its subject as the call had read it. */
  predicate StepFresh(s: State, a: Action, subject: Subject) {
    a.Write? && Takes(s, a.call) ==> Fresh(s, a.call, subject)
  }

  ghost predicate AllFresh(s: State, actions: seq<Action>, subject: Subject)
    decreases |actions|
  {
    actions != [] ==> StepFresh(s, actions[0], subject) && AllFresh(Step(s, actions[0]), actions[1..], subject)
  }

  lemma StepIsAccountedExactlyWhen(s: State, a: Action, subject: Subject)
    requires Valid(s) && CallsPast(s, subject.Date()) && TodayPast(a, subject.Date())
    ensures Accounted(s, Step(s, a), subject) <==> StepFresh(s, a, subject)
  {
    if a.Declare? {
      DeclareAccounts(s, a, subject);
    } else if a.Write? && Takes(s, a.call) {
      WriteIsAccountedExactlyWhen(s, a.call, subject);
    } else {
      QuietStep(s, a);
      Nothing(s, Step(s, a), subject);
    }
  }

  /** The log is right about the subject at every moment of the run. */
  ghost predicate AlwaysAccounted(s: State, actions: seq<Action>, subject: Subject) {
    forall k :: 0 <= k <= |actions| ==> Accounted(s, Run(s, actions[..k]), subject)
  }

  lemma RunFirst(s: State, actions: seq<Action>, k: nat)
    requires 1 <= k <= |actions|
    ensures Run(s, actions[..k]) == Run(Step(s, actions[0]), actions[1..][..k - 1])
  {
    assert actions[..k][1..] == actions[1..][..k - 1];
  }

  lemma {:induction false} RunKeepsValid(s: State, actions: seq<Action>)
    requires Valid(s)
    ensures Valid(Run(s, actions)) && s.log <= Run(s, actions).log
    decreases |actions|
  {
    if actions != [] {
      StepKeepsValid(s, actions[0]);
      RunKeepsValid(Step(s, actions[0]), actions[1..]);
    }
  }

  lemma AccountedFromTheStep(s: State, actions: seq<Action>, k: nat, subject: Subject)
    requires Valid(s) && 1 <= k <= |actions| && Accounted(s, Step(s, actions[0]), subject)
    ensures var t := Step(s, actions[0]);
            Accounted(s, Run(s, actions[..k]), subject) <==> Accounted(t, Run(t, actions[1..][..k - 1]), subject)
  {
    var t := Step(s, actions[0]);
    StepKeepsValid(s, actions[0]);
    RunKeepsValid(t, actions[1..][..k - 1]);
    RunFirst(s, actions, k);
    ReplaysThrough(s, t, Run(t, actions[1..][..k - 1]), subject);
  }

  /**
   Once a date is past, the log accounts for it at every moment of a run if and only if every write that takes finds what
   its call had read of the date: every change is then in the log, naming what it replaced, and replaying the entries
   gives what is stored.
   */
  lemma {:induction false} ThePastIsAudited(s: State, actions: seq<Action>, subject: Subject)
    requires Valid(s) && CallsPast(s, subject.Date())
    requires forall i :: 0 <= i < |actions| ==> TodayPast(actions[i], subject.Date())
    ensures AlwaysAccounted(s, actions, subject) <==> AllFresh(s, actions, subject)
    decreases |actions|
  {
    Nothing(s, s, subject);
    assert actions[..0] == [];
    if actions != [] {
      var t, rest := Step(s, actions[0]), actions[1..];
      StepKeepsValid(s, actions[0]);
      StepKeepsCallsPast(s, actions[0], subject.Date());
      StepIsAccountedExactlyWhen(s, actions[0], subject);
      ThePastIsAudited(t, rest, subject);
      RunFirst(s, actions, 1);
      assert rest[..0] == [];
      if Accounted(s, t, subject) {
        forall k | 1 <= k <= |actions|
          ensures Accounted(s, Run(s, actions[..k]), subject) <==> Accounted(t, Run(t, rest[..k - 1]), subject)
        {
          AccountedFromTheStep(s, actions, k, subject);
        }
        ShiftByOne(s, t, actions, subject);
      } else {
        assert !Accounted(s, Run(s, actions[..1]), subject);
      }
    }
  }

  lemma ShiftByOne(s: State, t: State, actions: seq<Action>, subject: Subject)
    requires actions != [] && Accounted(s, s, subject)
    requires forall k :: 1 <= k <= |actions| ==>
               (Accounted(s, Run(s, actions[..k]), subject) <==> Accounted(t, Run(t, actions[1..][..k - 1]), subject))
    ensures AlwaysAccounted(s, actions, subject) <==> AlwaysAccounted(t, actions[1..], subject)
  {
    var rest := actions[1..];
    assert actions[..0] == [];
    if AlwaysAccounted(s, actions, subject) {
      forall k | 0 <= k <= |rest| ensures Accounted(t, Run(t, rest[..k]), subject) {
        assert Accounted(s, Run(s, actions[..k + 1]), subject);
        assert rest[..k + 1 - 1] == rest[..k];
      }
    }
    if AlwaysAccounted(t, rest, subject) {
      forall k | 0 <= k <= |actions| ensures Accounted(s, Run(s, actions[..k]), subject) {
        if k > 0 { assert Accounted(t, Run(t, rest[..k - 1]), subject); }
      }
    }
  }

  /** After any history at all: `earlier` is all that happened before the date was past, `later` all since. */
  lemma AnyHistoryIsAudited(earlier: seq<Action>, later: seq<Action>, subject: Subject)
    requires CallsPast(Run(EMPTY, earlier), subject.Date())
    requires forall i :: 0 <= i < |later| ==> TodayPast(later[i], subject.Date())
    ensures var s := Run(EMPTY, earlier); AlwaysAccounted(s, later, subject) <==> AllFresh(s, later, subject)
  {
    RunKeepsValid(EMPTY, earlier);
    ThePastIsAudited(Run(EMPTY, earlier), later, subject);
  }

  // ---- a condition that needs no look at what was read ----

  predicate TouchesSlot(c: Call, slot: Slot) {
    (c.Assigning? && InBatch(c.batch, slot)) || (c.Removing? && c.slot == slot)
  }

  predicate TouchesHoliday(c: Call, id: int) { (c.Redating? || c.Revoking?) && c.id == id }

  ghost predicate Meets(c: Call, d: Call) {
    || (exists slot :: TouchesSlot(c, slot) && TouchesSlot(d, slot))
    || (exists id :: TouchesHoliday(c, id) && TouchesHoliday(d, id))
  }

  /** The write changes no row that another call in flight has read. */
  ghost predicate DisturbsNobody(s: State, call: int) {
    forall other :: other != call ==> !Meets(s.At(call), s.At(other))
  }

  ghost predicate Undisturbed(s: State, actions: seq<Action>)
    decreases |actions|
  {
    actions != [] ==>
      && (actions[0].Write? && Takes(s, actions[0].call) ==> DisturbsNobody(s, actions[0].call))
      && Undisturbed(Step(s, actions[0]), actions[1..])
  }

  /** What a call has read is what is there. */
  ghost predicate Remembers(s: State, c: Call) {
    match c
    case Idle => true
    case Assigning(_, batch, before, today) =>
      AnyPast(batch, today) ==> forall slot :: InBatch(batch, slot) ==> Kept(before, slot) == RosterAt(s.roster, slot)
    case Removing(_, slot, was, _) => slot in s.roster && s.roster[slot] == was
    case Redating(_, id, was, _, _) => HolidayAt(s.holidays, id) == Some(was)
    case Revoking(_, id, was, _) => HolidayAt(s.holidays, id) == Some(was)
  }

  ghost predicate AllRemember(s: State) { forall call :: Remembers(s, s.At(call)) }

  lemma ReadRemembers(s: State, a: Action)
    requires AllRemember(s) && (Reads(a) || a.Abort? || (a.Write? && !Takes(s, a.call)))
    ensures AllRemember(Step(s, a))
  {
    var t := Step(s, a);
    assert t.roster == s.roster && t.holidays == s.holidays;
    forall call ensures Remembers(t, t.At(call)) {
      assert Remembers(s, s.At(call));
    }
  }

  lemma WriteKeepsMemories(s: State, call: int, other: int)
    requires Valid(s) && Takes(s, call) && DisturbsNobody(s, call) && other != call && Remembers(s, s.At(other))
    ensures Remembers(Written(s, call), s.At(other))
  {
    var t, c, d := Written(s, call), s.At(call), s.At(other);
    assert !Meets(c, d);
    if c.Assigning? {
      forall slot | TouchesSlot(d, slot)
        ensures (slot in t.roster <==> slot in s.roster) && (slot in s.roster ==> t.roster[slot] == s.roster[slot])
      {
        assert !TouchesSlot(c, slot);
        UpsertedAt(s.roster, c.batch, s.nextID, slot);
      }
      assert d.Assigning? ==> forall slot :: InBatch(d.batch, slot) ==> TouchesSlot(d, slot);
      assert d.Removing? ==> TouchesSlot(d, d.slot);
    } else if c.Removing? {
      assert TouchesSlot(c, c.slot) && !TouchesSlot(d, c.slot);
    } else {
      assert TouchesHoliday(c, c.id) && !TouchesHoliday(d, c.id);
    }
  }

  lemma StepKeepsMemories(s: State, a: Action)
    requires Valid(s) && AllRemember(s) && (a.Write? && Takes(s, a.call) ==> DisturbsNobody(s, a.call))
    ensures AllRemember(Step(s, a))
  {
    var t := Step(s, a);
    if a.Declare? {
      forall call ensures Remembers(t, t.At(call)) {
        assert Remembers(s, s.At(call)) && t.At(call) == s.At(call);
      }
    } else if a.Write? && Takes(s, a.call) {
      forall call ensures Remembers(t, t.At(call)) {
        assert Remembers(s, s.At(call));
        if call != a.call { WriteKeepsMemories(s, a.call, call); }
      }
    } else {
      ReadRemembers(s, a);
    }
  }

  lemma RememberedIsFresh(s: State, call: int, subject: Subject)
    requires Remembers(s, s.At(call)) && !s.At(call).Idle? && IsPast(subject.Date(), s.At(call).today)
    ensures Fresh(s, call, subject)
  {
    var c := s.At(call);
    if c.Assigning? && Names(c, subject) {
      var i :| 0 <= i < |c.batch| && SlotOf(c.batch[i]) == subject.slot;
      assert IsPast(c.batch[i].workDate, c.today);
    }
  }

  /** Nobody writing what another call in flight has read is enough, whatever the date. */
  lemma {:induction false} UndisturbedIsFresh(s: State, actions: seq<Action>, subject: Subject)
    requires Valid(s) && AllRemember(s) && CallsPast(s, subject.Date()) && Undisturbed(s, actions)
    requires forall i :: 0 <= i < |actions| ==> TodayPast(actions[i], subject.Date())
    ensures AllFresh(s, actions, subject)
    decreases |actions|
  {
    if actions != [] {
      var a := actions[0];
      if a.Write? && Takes(s, a.call) {
        assert Remembers(s, s.At(a.call));
        RememberedIsFresh(s, a.call, subject);
      }
      StepKeepsValid(s, a);
      StepKeepsCallsPast(s, a, subject.Date());
      StepKeepsMemories(s, a);
      UndisturbedIsFresh(Step(s, a), actions[1..], subject);
    }
  }

  // ---- and what happens otherwise ----

  /**
   Two calls read a holiday of the future. The first moves it to a past date, which is logged; the second, settled by
   what it read not to log, moves it off that date again. The log then leaves a holiday on a date that has none.
   */
  lemma AnEditInBetweenEscapesTheLog(s: State, first: int, second: int, date: int)
    requires Valid(s) && first != second && s.At(first).Redating? && s.At(second).Redating?
    requires var c, d := s.At(first), s.At(second);
             && c.id == d.id && HolidayAt(s.holidays, c.id) == Some(c.was) && d.was == c.was
             && IsPast(date, c.today) && c.becomes.date == date && !DateTaken(s.holidays, date, c.id)
             && !IsPast(d.was.date, d.today) && !IsPast(d.becomes.date, d.today)
             && d.was.date != date && d.becomes.date != date && !DateTaken(s.holidays, d.becomes.date, d.id)
    ensures var t := Step(s, Write(first));
            var u := Step(t, Write(second));
            && Accounted(s, t, HolidayOn(date)) && Stored(t, HolidayOn(date)) == Some(Name(s.At(first).becomes.name))
            && u.log == t.log && Stored(u, HolidayOn(date)) == None && !Replays(s, u, HolidayOn(date))
  {
    var c, d := s.At(first), s.At(second);
    assert Takes(s, first);
    var t := Written(s, first);
    HolidayWrites(s, first, date);
    HolidayChange(s.holidays, t.holidays, c.id, date);
    assert t.At(second) == d && Takes(t, second);
    var u := Written(t, second);
    HolidayChange(t.holidays, u.holidays, c.id, date);
    assert EntriesOf(d) == [] && u.log == t.log;
    assert Since(s, u) == Since(s, t);
  }

  /** Two bulk assigns that found a slot empty locked nothing there: both log that it was, and one of them is wrong. */
  lemma TwoAssignsBothFindItEmpty(s: State, first: int, second: int, slot: Slot)
    requires Valid(s) && first != second && s.At(first).Assigning? && s.At(second).Assigning?
    requires var c, d := s.At(first), s.At(second);
             && |c.batch| == 1 == |d.batch| && SlotOf(c.batch[0]) == slot == SlotOf(d.batch[0])
             && slot !in s.roster && slot !in c.before && slot !in d.before
             && IsPast(slot.date, c.today) && IsPast(slot.date, d.today)
             && !Locked(s.calls, first, slot) && !Locked(s.calls, second, slot)
    ensures var (c, d, u) := (s.At(first), s.At(second), Step(Step(s, Write(first)), Write(second)));
            && u.log == s.log + [ShiftEntry(c.actorID, slot, None, Some(c.batch[0].scheduleID)),
                                 ShiftEntry(d.actorID, slot, None, Some(d.batch[0].scheduleID))]
            && Replays(s, u, RosterOf(slot)) && !Accounted(s, u, RosterOf(slot))
  {
    var c, d, subject := s.At(first), s.At(second), RosterOf(slot);
    OneRowWrite(s, first, slot);
    var t := Step(s, Write(first));
    assert t.At(second) == d;
    OneRowWrite(t, second, slot);
    var u := Step(t, Write(second));
    ReplaysThrough(s, t, u, subject);
    var one := ShiftEntry(c.actorID, slot, None, Some(c.batch[0].scheduleID));
    var two := ShiftEntry(d.actorID, slot, None, Some(d.batch[0].scheduleID));
    BothLogNone(one, two, slot);
    assert Since(s, u) == [one, two];
  }

  lemma OneRowWrite(s: State, call: int, slot: Slot)
    requires Valid(s) && s.At(call).Assigning? && !Locked(s.calls, call, slot)
    requires var c := s.At(call);
             |c.batch| == 1 && SlotOf(c.batch[0]) == slot && IsPast(slot.date, c.today) && slot !in c.before
    ensures Takes(s, call) && Valid(Written(s, call))
    ensures var (c, t) := (s.At(call), Written(s, call));
            && t.log == s.log + [ShiftEntry(c.actorID, slot, None, Some(c.batch[0].scheduleID))]
            && t.calls == s.calls[call := Idle] && Replays(s, t, RosterOf(slot))
  {
    var c := s.At(call);
    assert Takes(s, call);
    WriteKeepsValid(s, call);
    AssignWrites(s, call, RosterOf(slot));
    AuditOfOne(c.actorID, c.batch, c.before, c.today);
  }

  lemma AuditOfOne(actorID: int, batch: seq<Assignment>, before: map<Slot, Option<int>>, today: int)
    requires |batch| == 1 && IsPast(batch[0].workDate, today)
    ensures AuditAssigned(actorID, batch, before, today)
            == [ShiftEntry(actorID, SlotOf(batch[0]), Kept(before, SlotOf(batch[0])), Some(batch[0].scheduleID))]
  {
    assert batch[..0] == [];
  }

  lemma BothLogNone(one: Entry, two: Entry, slot: Slot)
    requires one.ShiftEntry? && two.ShiftEntry? && one.slot == slot == two.slot
    requires one.after.Some? && two.before.None?
    ensures !Honest([one, two], RosterOf(slot), None)
  {
    assert [one, two] == [one] + [two] && [one] == [] + [one];
    ReplayAppend([], one, RosterOf(slot), None);
    ReplayAppend([one], two, RosterOf(slot), None);
  }

  const HR := Claims(1, HR_ADMIN)

  lemma Unrolled(s: State, a: Action, rest: seq<Action>)
    ensures Run(s, [a] + rest) == Run(Step(s, a), rest)
  {
    assert ([a] + rest)[1..] == rest;
  }

  lemma {:induction false} RunConcat(s: State, a: seq<Action>, b: seq<Action>)
    ensures Run(s, a + b) == Run(Run(s, a), b)
    decreases |a|
  {
    if a == [] {
      assert a + b == b;
    } else {
      assert (a + b)[1..] == a[1..] + b;
      RunConcat(Step(s, a[0]), a[1..], b);
    }
  }

  /** Both writes, one after the other. */
  lemma TwoWrites(s: State, actions: seq<Action>)
    ensures Run(s, actions + [Write(1), Write(2)]) == Step(Step(Run(s, actions), Write(1)), Write(2))
  {
    var t := Run(s, actions);
    RunConcat(s, actions, [Write(1), Write(2)]);
    assert [Write(1), Write(2)] == [Write(1)] + ([Write(2)] + []);
    Unrolled(t, Write(1), [Write(2)] + []);
    Unrolled(Step(t, Write(1)), Write(2), []);
  }

  /** Both situations arise, from nothing. */
  lemma TwoRedatingsAreReached() returns (actions: seq<Action>)
    ensures var s := Run(EMPTY, actions);
            && s.holidays == map[1 := Holiday(110, "Founders")] && s.calls.Keys == {1, 2}
            && s.At(1) == Redating(1, 1, Holiday(110, "Founders"), Holiday(90, "Founders"), 100)
            && s.At(2) == Redating(1, 1, Holiday(110, "Founders"), Holiday(120, "Founders"), 100)
  {
    var declare, left := Declare(HR, 110, "Founders", 100), Redeclare(1, HR, 1, 90, "Founders", 100);
    var right := Redeclare(2, HR, 1, 120, "Founders", 100);
    actions := [declare] + ([left] + ([right] + []));
    var s := Step(EMPTY, declare);
    assert s.holidays == map[1 := Holiday(110, "Founders")];
    Unrolled(EMPTY, declare, [left] + ([right] + []));
    Unrolled(s, left, [right] + []);
    Unrolled(Step(s, left), right, []);
  }

  lemma TwoAssigningsAreReached() returns (actions: seq<Action>)
    ensures var s := Run(EMPTY, actions);
            && s.roster == map[] && s.log == [] && s.calls.Keys == {1, 2}
            && s.At(1) == Assigning(1, [Assignment(7, 90, Some(5))], map[], 100)
            && s.At(2) == Assigning(1, [Assignment(7, 90, Some(6))], map[], 100)
  {
    var five, six := [Assignment(7, 90, Some(5))], [Assignment(7, 90, Some(6))];
    var one, two := Assign(1, HR, five, 100), Assign(2, HR, six, 100);
    assert IsPast(five[0].workDate, 100) && IsPast(six[0].workDate, 100);
    var s := Step(EMPTY, one);
    assert s.At(1) == Assigning(1, five, map[], 100) && s.roster == map[];
    actions := [one] + ([two] + []);
    Unrolled(EMPTY, one, [two] + []);
    Unrolled(s, two, []);
  }

  /** From nothing to a log that keeps a holiday on day 90, which has none: every call looked on day 100. */
  lemma AHolidayTheDateLacks() returns (earlier: seq<Action>)
    ensures var s := Run(EMPTY, earlier);
            var u := Run(EMPTY, earlier + [Write(1), Write(2)]);
            CallsPast(s, 90) && Stored(u, HolidayOn(90)) == None && !Replays(s, u, HolidayOn(90))
  {
    earlier := TwoRedatingsAreReached();
    RunKeepsValid(EMPTY, earlier);
    AnEditInBetweenEscapesTheLog(Run(EMPTY, earlier), 1, 2, 90);
    TwoWrites(EMPTY, earlier);
  }

  /** From nothing to a log whose second entry says that the slot was still empty. */
  lemma AnEntryThatIsWrong() returns (earlier: seq<Action>)
    ensures var s := Run(EMPTY, earlier);
            var u := Run(EMPTY, earlier + [Write(1), Write(2)]);
            && u.log == [ShiftEntry(1, Slot(7, 90), None, Some(Some(5))),
                         ShiftEntry(1, Slot(7, 90), None, Some(Some(6)))]
            && CallsPast(s, 90) && Replays(s, u, RosterOf(Slot(7, 90))) && !Accounted(s, u, RosterOf(Slot(7, 90)))
  {
    earlier := TwoAssigningsAreReached();
    RunKeepsValid(EMPTY, earlier);
    var s := Run(EMPTY, earlier);
    assert forall call :: !Locked(s.calls, call, Slot(7, 90));
    TwoAssignsBothFindItEmpty(s, 1, 2, Slot(7, 90));
    TwoWrites(EMPTY, earlier);
  }
}
