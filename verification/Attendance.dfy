/**
 Attendance and its corrections. A check-out reads the open check-in and later writes it back only if it is still open;
 an approval holds both rows for the whole of its transaction, so it is one step; a check-in is one insert. A `Run` is
 any interleaving of these, with the work schedules held fixed.
 */
module Attendance {
  import opened Common
  import opened Calendar
  import opened Schedule
  import opened Shift

  const MAX_OPEN_CHECK_IN := 24 * HOUR
  const CHECK_OUT_CLOSES_AFTER := 8 * HOUR
  const CORRECTION_SLACK := 12 * HOUR

  datatype Key = Key(userID: int, date: int)

  datatype Row = Row(scheduleID: Option<int>, checkIn: int, checkOut: Option<int>, late: int, early: int)

  datatype Status = Pending | Approved | Rejected | Cancelled

  datatype Correction = Correction(
    key: Key, requestedBy: int, proposedIn: Option<int>, proposedOut: Option<int>,
    oldIn: Option<int>, oldOut: Option<int>, status: Status, reviewedBy: Option<int>)
  {
    /** The check-in, and the check-out, an approved correction left behind. */
    function ResultIn(): Option<int> { if proposedIn.Some? then proposedIn else oldIn }

    function ResultOut(): Option<int> { if proposedOut.Some? then proposedOut else oldOut }
  }

  /** A check-out that has read its row but not written it yet. */
  datatype Closing = Closing(key: Key, at: int, early: int)

  datatype Company = Company(offset: int, schedules: map<int, WorkSchedule>)

  /**
   `checkedIn` keeps the moment each check-in was made and `history` the corrections approved for a work date in order;
   both are history, and no step reads them.
   */
  datatype State = State(
    rows: map<Key, Row>, corrections: seq<Correction>, closing: map<int, Closing>,
    checkedIn: map<Key, int>, history: map<Key, seq<nat>>)

  const EMPTY := State(map[], [], map[], map[], map[])

  datatype Action =
    | CheckIn(userID: int, at: int, date: int, scheduleID: Option<int>)
    | ReadOpen(call: int, key: Key, at: int)
    | WriteCheckOut(call: int)
    | File(key: Key, requestedBy: int, proposedIn: Option<int>, proposedOut: Option<int>, now: int)
    | Approve(claims: Claims, reaches: bool, id: nat, ruleA: Result<Option<int>>)
    | Reject(claims: Claims, reaches: bool, id: nat)
    | Withdraw(claims: Claims, id: nat)

  /** The hours a row kept, placed on its work date. */
  function Measured(co: Company, key: Key, scheduleID: Option<int>): Placed {
    Place(key.date, Lookup(co.schedules, scheduleID), co.offset)
  }

  predicate References(co: Company, scheduleID: Option<int>) { scheduleID.Some? ==> scheduleID.value in co.schedules }

  function CheckedIn(co: Company, s: State, key: Key, scheduleID: Option<int>, at: int): State {
    if key in s.rows || !References(co, scheduleID) then s
    else
      s.(rows := s.rows[key := Row(scheduleID, at, None, Measured(co, key, scheduleID).LateMinutes(at), 0)],
         checkedIn := s.checkedIn[key := at])
  }

  /** The row a check-out at that moment would close: of its owner's open rows the newest, and at most a day old. */
  ghost predicate IsOpenCheckIn(s: State, key: Key, at: int) {
    && key in s.rows && s.rows[key].checkOut.None? && s.rows[key].checkIn >= at - MAX_OPEN_CHECK_IN
    && forall k :: k in s.rows && k.userID == key.userID && s.rows[k].checkOut.None? ==>
         s.rows[k].checkIn <= s.rows[key].checkIn
  }

  predicate Closable(co: Company, s: State, key: Key, at: int)
    requires key in s.rows
  {
    var shift := Measured(co, key, s.rows[key].scheduleID);
    shift.hours.Some? ==> at <= shift.end + CHECK_OUT_CLOSES_AFTER
  }

  ghost function OpenRead(co: Company, s: State, call: int, key: Key, at: int): State {
    if !IsOpenCheckIn(s, key, at) || !Closable(co, s, key, at) then s
    else
      var early := Measured(co, key, s.rows[key].scheduleID).EarlyLeaveMinutes(at);
      s.(closing := s.closing[call := Closing(key, at, early)])
  }

  /** The conditional update takes only on a row still open, and the check constraint only a time past its check-in. */
  function CheckedOut(s: State, call: int): State {
    if call !in s.closing then s
    else
      var c := s.closing[call];
      if c.key in s.rows && s.rows[c.key].checkOut.None? && s.rows[c.key].checkIn < c.at then
        s.(rows := s.rows[c.key := s.rows[c.key].(checkOut := Some(c.at), early := c.early)],
           closing := s.closing - {call})
      else s.(closing := s.closing - {call})
  }

  /** A correction's times laid over those held: the check-in and check-out it would leave. */
  function Corrected(held: Option<Row>, proposedIn: Option<int>, proposedOut: Option<int>): Result<(int, Option<int>)> {
    var checkIn := if proposedIn.Some? then proposedIn else if held.Some? then Some(held.value.checkIn) else None;
    var checkOut := if proposedOut.Some? then proposedOut else if held.Some? then held.value.checkOut else None;
    if checkIn.None? || (checkOut.Some? && checkOut.value <= checkIn.value) then Err(Invalid)
    else Ok((checkIn.value, checkOut))
  }

  function HeldAt(s: State, key: Key): Option<Row> { if key in s.rows then Some(s.rows[key]) else None }

  /** A work date that is not ahead, and some time; each past, and at most twelve hours off the date's midnights. */
  predicate ProposalOk(co: Company, date: int, proposedIn: Option<int>, proposedOut: Option<int>, now: int) {
    && date != 0 && (proposedIn.Some? || proposedOut.Some?)
    && date <= DateIn(now, co.offset)
    && TimeOk(co, date, proposedIn, now) && TimeOk(co, date, proposedOut, now)
  }

  predicate TimeOk(co: Company, date: int, at: Option<int>, now: int) {
    at.Some? ==>
      && at.value <= now
      && Midnight(date, co.offset) - CORRECTION_SLACK <= at.value <= Midnight(date + 1, co.offset) + CORRECTION_SLACK
  }

  predicate PendingFor(corrections: seq<Correction>, key: Key) {
    exists i :: 0 <= i < |corrections| && corrections[i].key == key && corrections[i].status.Pending?
  }

  function NewCorrection(a: Action): Correction
    requires a.File?
  {
    Correction(a.key, a.requestedBy, a.proposedIn, a.proposedOut, None, None, Pending, None)
  }

  function Filed(co: Company, s: State, a: Action): (State, Option<Error>)
    requires a.File?
  {
    if !ProposalOk(co, a.key.date, a.proposedIn, a.proposedOut, a.now)
       || Corrected(HeldAt(s, a.key), a.proposedIn, a.proposedOut).Err? then (s, Some(Invalid))
    else if PendingFor(s.corrections, a.key) then (s, Some(Conflict))
    else (s.(corrections := s.corrections + [NewCorrection(a)]), None)
  }

  /** Who may settle someone's correction by judging it; `reaches` is rule D's answer about the employee. */
  function CheckDecider(s: State, claims: Claims, reaches: bool, id: nat): Option<Error> {
    if claims.role < SUPERVISOR then Some(Forbidden)
    else if id >= |s.corrections| then Some(NotFound)
    else if s.corrections[id].key.userID == claims.userID || !reaches then Some(Forbidden)
    else None
  }

  function SettledAs(s: State, id: nat, status: Status, reviewer: Option<int>): State
    requires id < |s.corrections|
  {
    s.(corrections := s.corrections[id := s.corrections[id].(status := status, reviewedBy := reviewer)])
  }

  function HistoryOf(s: State, key: Key): seq<nat> { if key in s.history then s.history[key] else [] }

  /** The row an approval leaves: without a check-out, the early minutes are those held. */
  function ApprovedRow(co: Company, key: Key, held: Option<Row>, scheduleID: Option<int>, times: (int, Option<int>)): Row
  {
    var shift := Measured(co, key, scheduleID);
    var early := if times.1.Some? then shift.EarlyLeaveMinutes(times.1.value)
                 else if held.Some? then held.value.early else 0;
    Row(scheduleID, times.0, times.1, shift.LateMinutes(times.0), early)
  }

  /** The correction as it is settled, naming the times it replaced. */
  function ApprovedCorrection(c: Correction, held: Option<Row>, reviewer: int): Correction {
    var decided := c.(status := Approved, reviewedBy := Some(reviewer));
    if held.Some? then decided.(oldIn := Some(held.value.checkIn), oldOut := held.value.checkOut) else decided
  }

  /**
   An approval from first check to commit: attendance, correction and history change together or not at all. Without an
   attendance to take them from, the hours are `ruleA`.
   */
  function ApprovedBy(co: Company, s: State, claims: Claims, reaches: bool, id: nat, ruleA: Result<Option<int>>):
    (State, Option<Error>)
  {
    var refused := CheckDecider(s, claims, reaches, id);
    if refused.Some? then (s, refused)
    else
      var c := s.corrections[id];
      var held := HeldAt(s, c.key);
      var times := Corrected(held, c.proposedIn, c.proposedOut);
      var hours := if held.Some? then Ok(held.value.scheduleID) else ruleA;
      if !c.status.Pending? then (s, Some(Conflict))
      else if times.Err? then (s, Some(times.error))
      else if hours.Err? then (s, Some(hours.error))
      else if !References(co, hours.value) then (s, Some(Invalid))
      else
        (s.(rows := s.rows[c.key := ApprovedRow(co, c.key, held, hours.value, times.value)],
            corrections := s.corrections[id := ApprovedCorrection(c, held, claims.userID)],
            history := s.history[c.key := HistoryOf(s, c.key) + [id]]), None)
  }

  function RejectedBy(s: State, claims: Claims, reaches: bool, id: nat): State {
    if CheckDecider(s, claims, reaches, id).Some? || !s.corrections[id].status.Pending? then s
    else SettledAs(s, id, Rejected, Some(claims.userID))
  }

  function Withdrawn(s: State, claims: Claims, id: nat): State {
    if id >= |s.corrections| || !s.corrections[id].status.Pending? then s
    else if claims.userID != s.corrections[id].key.userID && claims.userID != s.corrections[id].requestedBy then s
    else SettledAs(s, id, Cancelled, None)
  }

  ghost function Step(co: Company, s: State, a: Action): State {
    match a
    case CheckIn(userID, at, date, scheduleID) => CheckedIn(co, s, Key(userID, date), scheduleID, at)
    case ReadOpen(call, key, at) => OpenRead(co, s, call, key, at)
    case WriteCheckOut(call) => CheckedOut(s, call)
    case File(_, _, _, _, _) => Filed(co, s, a).0
    case Approve(claims, reaches, id, ruleA) => ApprovedBy(co, s, claims, reaches, id, ruleA).0
    case Reject(claims, reaches, id) => RejectedBy(s, claims, reaches, id)
    case Withdraw(claims, id) => Withdrawn(s, claims, id)
  }

  ghost function Run(co: Company, s: State, actions: seq<Action>): State
    decreases |actions|
  {
    if actions == [] then s else Run(co, Step(co, s, actions[0]), actions[1..])
  }

  // ---- the derived columns stay derived ----

  /** The stored minutes are what the work date, the kept schedule and the current times give. */
  ghost predicate Derived(co: Company, key: Key, row: Row) {
    var shift := Measured(co, key, row.scheduleID);
    && References(co, row.scheduleID)
    && row.late == shift.LateMinutes(row.checkIn)
    && row.early == (if row.checkOut.Some? then shift.EarlyLeaveMinutes(row.checkOut.value) else 0)
    && (row.checkOut.Some? ==> row.checkIn < row.checkOut.value)
  }

  ghost predicate AllDerived(co: Company, s: State) {
    && (forall key :: key in s.rows ==> Derived(co, key, s.rows[key]))
    && forall call :: call in s.closing ==>
         var c := s.closing[call];
         c.key in s.rows && c.early == Measured(co, c.key, s.rows[c.key].scheduleID).EarlyLeaveMinutes(c.at)
  }

  lemma ApproveKeepsDerived(co: Company, s: State, a: Action)
    requires AllDerived(co, s) && a.Approve?
    ensures AllDerived(co, Step(co, s, a))
  {
    var (t, refused) := ApprovedBy(co, s, a.claims, a.reaches, a.id, a.ruleA);
    if refused.None? {
      var key := s.corrections[a.id].key;
      assert key in s.rows ==> Derived(co, key, s.rows[key]) && t.rows[key].scheduleID == s.rows[key].scheduleID;
      assert Derived(co, key, t.rows[key]);
    }
  }

  lemma CheckInKeepsDerived(co: Company, s: State, key: Key, scheduleID: Option<int>, at: int)
    requires AllDerived(co, s)
    ensures AllDerived(co, CheckedIn(co, s, key, scheduleID, at))
  {
  }

  lemma CheckOutKeepsDerived(co: Company, s: State, call: int)
    requires AllDerived(co, s)
    ensures AllDerived(co, CheckedOut(s, call))
  {
  }

  lemma OpenReadKeepsDerived(co: Company, s: State, call: int, key: Key, at: int)
    requires AllDerived(co, s)
    ensures AllDerived(co, OpenRead(co, s, call, key, at))
  {
  }

  lemma StepKeepsDerived(co: Company, s: State, a: Action)
    requires AllDerived(co, s)
    ensures AllDerived(co, Step(co, s, a))
  {
    match a
    case CheckIn(userID, at, date, scheduleID) => CheckInKeepsDerived(co, s, Key(userID, date), scheduleID, at);
    case ReadOpen(call, key, at) => OpenReadKeepsDerived(co, s, call, key, at);
    case WriteCheckOut(call) => CheckOutKeepsDerived(co, s, call);
    case Approve(_, _, _, _) => ApproveKeepsDerived(co, s, a);
    case _ => SettledCorrections(co, s, a);
  }

  lemma {:induction false} RunKeepsDerived(co: Company, s: State, actions: seq<Action>)
    requires AllDerived(co, s)
    ensures AllDerived(co, Run(co, s, actions))
    decreases |actions|
  {
    if actions != [] {
      StepKeepsDerived(co, s, actions[0]);
      RunKeepsDerived(co, Step(co, s, actions[0]), actions[1..]);
    }
  }

  /** However check-ins, check-outs and approvals interleave, no stored minute count is stale, or above the shift. */
  lemma StoredMinutesAreNeverStale(co: Company, actions: seq<Action>, key: Key)
    requires key in Run(co, EMPTY, actions).rows
    requires forall id :: id in co.schedules ==> co.schedules[id].Valid()
    ensures var row := Run(co, EMPTY, actions).rows[key];
            var shift := Measured(co, key, row.scheduleID);
            && Derived(co, key, row) && row.late + row.early <= shift.Minutes()
            && LateBy(shift, row.checkIn, row.late)
            && (if row.checkOut.Some? then EarlyBy(shift, row.checkOut.value, row.early) else row.early == 0)
  {
    RunKeepsDerived(co, EMPTY, actions);
    var row := Run(co, EMPTY, actions).rows[key];
    var hours := Lookup(co.schedules, row.scheduleID);
    if hours.Some? {
      var id: int := row.scheduleID.value;
      assert id in co.schedules && hours.value == co.schedules[id];
    }
    var end := Place(key.date, hours, co.offset).end;
    var until := if row.checkOut.Some? then row.checkOut.value else Max(row.checkIn, end);
    LatePlusEarlyFitsTheShift(key.date, hours, co.offset, row.checkIn, until);
    MinutesAreExact(key.date, hours, co.offset, row.checkIn, row.late);
    if row.checkOut.Some? { MinutesAreExact(key.date, hours, co.offset, row.checkOut.value, row.early); }
  }

  // ---- the corrections of a work date are an unbroken history ----

  /** `h` lists the approved corrections of a key, each once. */
  ghost predicate Lists(c: seq<Correction>, key: Key, h: seq<nat>) {
    && (forall i :: 0 <= i < |h| ==> h[i] < |c| && c[h[i]].key == key && c[h[i]].status.Approved?)
    && (forall id :: 0 <= id < |c| && c[id].key == key && c[id].status.Approved? ==> id in h)
    && (forall i, j :: 0 <= i < j < |h| ==> h[i] != h[j])
  }

  /** The next correction replaced what this one left; only a check-out may have come between, where there was none. */
  predicate Continues(earlier: Correction, later: Correction) {
    && later.oldIn == earlier.ResultIn()
    && (earlier.ResultOut().Some? ==> later.oldOut == earlier.ResultOut())
  }

  predicate Leaves(last: Correction, row: Row) {
    && last.ResultIn() == Some(row.checkIn)
    && (last.ResultOut().Some? ==> row.checkOut == last.ResultOut())
  }

  ghost predicate Unbroken(c: seq<Correction>, h: seq<nat>)
    requires forall i :: 0 <= i < |h| ==> h[i] < |c|
  {
    forall i, j :: 0 <= i && j == i + 1 && j < |h| ==> Continues(c[h[i]], c[h[j]])
  }

  /** From the check-in made, if one was, through every approved correction to what is stored. */
  ghost predicate Trail(c: seq<Correction>, key: Key, h: seq<nat>, checkedIn: Option<int>, row: Option<Row>) {
    && Lists(c, key, h)
    && Unbroken(c, h)
    && (checkedIn.Some? ==> row.Some?)
    && (h == [] && row.Some? ==> checkedIn == Some(row.value.checkIn))
    && (h != [] ==> c[h[0]].oldIn == checkedIn && row.Some? && Leaves(c[h[|h| - 1]], row.value))
  }

  function CheckedInAt(s: State, key: Key): Option<int> {
    if key in s.checkedIn then Some(s.checkedIn[key]) else None
  }

  ghost predicate HistoryOk(s: State, key: Key) {
    Trail(s.corrections, key, HistoryOf(s, key), CheckedInAt(s, key), HeldAt(s, key))
  }

  ghost predicate HistoriesOk(s: State) { forall key :: HistoryOk(s, key) }

  /** Corrections that are filed, or settled without being approved for this key, leave its trail alone. */
  lemma TrailIgnoresTheRest(
    c: seq<Correction>, d: seq<Correction>, key: Key, h: seq<nat>, checkedIn: Option<int>, row: Option<Row>)
    requires Trail(c, key, h, checkedIn, row)
    requires |c| <= |d|
    requires forall id :: 0 <= id < |c| && c[id].key == key && c[id].status.Approved? ==> d[id] == c[id]
    requires forall id :: 0 <= id < |d| && d[id].key == key && d[id].status.Approved? ==> id < |c| && c[id] == d[id]
    ensures Trail(d, key, h, checkedIn, row)
  {
  }

  /** An approval appends itself: it records what it replaces and leaves what it stores. */
  lemma TrailGrows(
    c: seq<Correction>, key: Key, h: seq<nat>, checkedIn: Option<int>, row: Option<Row>, id: nat, done: Correction,
    next: Row)
    requires Trail(c, key, h, checkedIn, row)
    requires id < |c| && c[id].key == key && !c[id].status.Approved?
    requires done.key == key && done.status.Approved?
    requires row.Some? ==> done.oldIn == Some(row.value.checkIn) && done.oldOut == row.value.checkOut
    requires row.None? ==> done.oldIn.None? && done.oldOut.None?
    requires Leaves(done, next)
    ensures Trail(c[id := done], key, h + [id], checkedIn, Some(next))
  {
    var d := c[id := done];
    var g := h + [id];
    assert id !in h;
    forall i, j | 0 <= i && j == i + 1 && j < |g| ensures Continues(d[g[i]], d[g[j]]) {
      if j < |h| { assert Continues(c[h[i]], c[h[j]]); }
    }
  }

  /** What is pending has replaced nothing yet. */
  ghost predicate PendingBlank(s: State) {
    forall id :: 0 <= id < |s.corrections| && s.corrections[id].status.Pending? ==>
      s.corrections[id].oldIn.None? && s.corrections[id].oldOut.None?
  }

  /** What an approval does to its own work date, and that it leaves every other one alone. */
  lemma ApprovalOf(co: Company, s: State, a: Action, key: Key)
    requires a.Approve? && ApprovedBy(co, s, a.claims, a.reaches, a.id, a.ruleA).1.None?
    ensures var t := Step(co, s, a);
            && a.id < |s.corrections| && s.corrections[a.id].status.Pending?
            && t.checkedIn == s.checkedIn
            && var c := s.corrections[a.id];
            && t.corrections == s.corrections[a.id := ApprovedCorrection(c, HeldAt(s, c.key), a.claims.userID)]
            && (c.key == key ==>
                  && HistoryOf(t, key) == HistoryOf(s, key) + [a.id] && key in t.rows
                  && Some(t.rows[key].checkIn)
                     == (if c.proposedIn.Some? then c.proposedIn else Some(s.rows[key].checkIn))
                  && t.rows[key].checkOut
                     == if c.proposedOut.Some? then c.proposedOut
                        else if key in s.rows then s.rows[key].checkOut else None)
            && (c.key != key ==> HistoryOf(t, key) == HistoryOf(s, key) && HeldAt(t, key) == HeldAt(s, key))
  {
  }

  lemma ApproveKeepsHistory(co: Company, s: State, a: Action, key: Key)
    requires HistoryOk(s, key) && PendingBlank(s) && a.Approve?
    ensures HistoryOk(Step(co, s, a), key)
  {
    if ApprovedBy(co, s, a.claims, a.reaches, a.id, a.ruleA).1.None? {
      var t := Step(co, s, a);
      var c := s.corrections[a.id];
      var done := ApprovedCorrection(c, HeldAt(s, c.key), a.claims.userID);
      ApprovalOf(co, s, a, key);
      if c.key == key {
        TrailGrows(s.corrections, key, HistoryOf(s, key), CheckedInAt(s, key), HeldAt(s, key), a.id, done, t.rows[key]);
      } else {
        TrailIgnoresTheRest(
          s.corrections, t.corrections, key, HistoryOf(s, key), CheckedInAt(s, key), HeldAt(s, key));
      }
    }
  }

  /** A correction filed is added pending; one rejected or withdrawn was pending and ends neither that nor approved. */
  lemma SettledCorrections(co: Company, s: State, a: Action)
    requires a.File? || a.Reject? || a.Withdraw?
    ensures var t := Step(co, s, a);
            && t.rows == s.rows && t.history == s.history && t.checkedIn == s.checkedIn && t.closing == s.closing
            && (|| t.corrections == s.corrections
                || (a.File? && t.corrections == s.corrections + [NewCorrection(a)])
                || (!a.File? && a.id < |s.corrections| && s.corrections[a.id].status.Pending?
                    && |t.corrections| == |s.corrections|
                    && t.corrections == s.corrections[a.id := t.corrections[a.id]]
                    && IsSettled(s.corrections[a.id], t.corrections[a.id], a)))
  {
  }

  predicate IsSettled(before: Correction, after: Correction, a: Action) {
    match a
    case Reject(claims, _, _) => before.key.userID != claims.userID
                                 && after == before.(status := Rejected, reviewedBy := Some(claims.userID))
    case Withdraw(_, _) => after == before.(status := Cancelled, reviewedBy := None)
    case _ => false
  }

  lemma SettledLeavesApproved(co: Company, s: State, a: Action, key: Key)
    requires a.File? || a.Reject? || a.Withdraw?
    ensures var c, d := s.corrections, Step(co, s, a).corrections;
            && |c| <= |d|
            && (forall id :: 0 <= id < |c| && c[id].key == key && c[id].status.Approved? ==> d[id] == c[id])
            && (forall id :: 0 <= id < |d| && d[id].key == key && d[id].status.Approved? ==> id < |c| && c[id] == d[id])
  {
    SettledCorrections(co, s, a);
  }

  lemma SettleKeepsHistory(co: Company, s: State, a: Action, key: Key)
    requires HistoryOk(s, key) && (a.File? || a.Reject? || a.Withdraw?)
    ensures HistoryOk(Step(co, s, a), key)
  {
    SettledCorrections(co, s, a);
    SettledLeavesApproved(co, s, a, key);
    TrailIgnoresTheRest(
      s.corrections, Step(co, s, a).corrections, key, HistoryOf(s, key), CheckedInAt(s, key), HeldAt(s, key));
  }

  /** A check-in opens a work date that had none; a check-out fills one that was open; nothing else touches the date. */
  lemma RowStepOf(co: Company, s: State, a: Action, key: Key)
    requires a.CheckIn? || a.ReadOpen? || a.WriteCheckOut?
    ensures var t := Step(co, s, a);
            && t.corrections == s.corrections && HistoryOf(t, key) == HistoryOf(s, key)
            && (|| (HeldAt(t, key) == HeldAt(s, key) && CheckedInAt(t, key) == CheckedInAt(s, key))
                || (HeldAt(s, key).None? && HeldAt(t, key).Some? && CheckedInAt(t, key) == Some(t.rows[key].checkIn))
                || (HeldAt(s, key).Some? && HeldAt(t, key).Some? && CheckedInAt(t, key) == CheckedInAt(s, key)
                    && s.rows[key].checkOut.None? && t.rows[key].checkIn == s.rows[key].checkIn))
  {
    match a
    case CheckIn(userID, at, date, scheduleID) => assert Step(co, s, a).corrections == s.corrections;
    case ReadOpen(call, open, at) => assert Step(co, s, a).rows == s.rows;
    case WriteCheckOut(call) => assert Step(co, s, a).checkedIn == s.checkedIn;
    case _ =>
  }

  lemma RowStepKeepsHistory(co: Company, s: State, a: Action, key: Key)
    requires HistoryOk(s, key) && (a.CheckIn? || a.ReadOpen? || a.WriteCheckOut?)
    ensures HistoryOk(Step(co, s, a), key)
  {
    RowStepOf(co, s, a, key);
  }

  lemma StepKeepsHistories(co: Company, s: State, a: Action)
    requires HistoriesOk(s) && PendingBlank(s)
    ensures HistoriesOk(Step(co, s, a)) && PendingBlank(Step(co, s, a))
  {
    forall key ensures HistoryOk(Step(co, s, a), key) {
      if a.Approve? { ApproveKeepsHistory(co, s, a, key); }
      else if a.File? || a.Reject? || a.Withdraw? { SettleKeepsHistory(co, s, a, key); }
      else { RowStepKeepsHistory(co, s, a, key); }
    }
  }

  lemma {:induction false} RunKeepsHistories(co: Company, s: State, actions: seq<Action>)
    requires HistoriesOk(s) && PendingBlank(s)
    ensures HistoriesOk(Run(co, s, actions))
    decreases |actions|
  {
    if actions != [] {
      StepKeepsHistories(co, s, actions[0]);
      RunKeepsHistories(co, Step(co, s, actions[0]), actions[1..]);
    }
  }

  /**
   The approved corrections of a work date account for it whole: the first replaced the check-in made, or nothing; each
   replaced what the one before left; and the last left what is stored.
   */
  lemma CorrectionsAreTheirOwnAuditTrail(co: Company, actions: seq<Action>, key: Key)
    ensures var s := Run(co, EMPTY, actions);
            Trail(s.corrections, key, HistoryOf(s, key), CheckedInAt(s, key), HeldAt(s, key))
  {
    assert HistoriesOk(EMPTY);
    RunKeepsHistories(co, EMPTY, actions);
    assert HistoryOk(Run(co, EMPTY, actions), key);
  }

  // ---- what no step undoes ----

  /** Work dates stay, with the hours they kept; a check-out once set stays set; a settled correction never changes. */
  ghost predicate Keeps(s: State, t: State) {
    && (forall key :: key in s.rows ==> key in t.rows && RowKeeps(s.rows[key], t.rows[key]))
    && |s.corrections| <= |t.corrections|
    && (forall id :: 0 <= id < |s.corrections| ==> CorrectionKeeps(s.corrections[id], t.corrections[id]))
  }

  predicate RowKeeps(before: Row, after: Row) {
    after.scheduleID == before.scheduleID && (before.checkOut.Some? ==> after.checkOut.Some?)
  }

  predicate CorrectionKeeps(before: Correction, after: Correction) {
    && after.key == before.key && after.proposedIn == before.proposedIn && after.proposedOut == before.proposedOut
    && (before.status.Pending? || after == before)
    && (after.status.Approved? || after.status.Rejected? ==>
          after == before || (after.reviewedBy.Some? && after.reviewedBy.value != after.key.userID))
  }

  lemma ApprovalKeeps(co: Company, s: State, a: Action)
    requires a.Approve?
    ensures Keeps(s, Step(co, s, a))
  {
    var (t, refused) := ApprovedBy(co, s, a.claims, a.reaches, a.id, a.ruleA);
    if refused.None? {
      var key := s.corrections[a.id].key;
      assert key in s.rows ==> RowKeeps(s.rows[key], t.rows[key]);
      assert t.corrections == s.corrections[a.id := t.corrections[a.id]];
      assert CorrectionKeeps(s.corrections[a.id], t.corrections[a.id]);
    }
  }

  lemma SettlingKeeps(co: Company, s: State, a: Action)
    requires a.File? || a.Reject? || a.Withdraw?
    ensures Keeps(s, Step(co, s, a))
  {
    SettledCorrections(co, s, a);
  }

  lemma RowStepKeeps(co: Company, s: State, a: Action)
    requires a.CheckIn? || a.ReadOpen? || a.WriteCheckOut?
    ensures Keeps(s, Step(co, s, a))
  {
    assert Step(co, s, a).corrections == s.corrections;
  }

  lemma StepKeeps(co: Company, s: State, a: Action)
    ensures Keeps(s, Step(co, s, a))
  {
    if a.Approve? { ApprovalKeeps(co, s, a); }
    else if a.File? || a.Reject? || a.Withdraw? { SettlingKeeps(co, s, a); }
    else { RowStepKeeps(co, s, a); }
  }

  lemma {:induction false} RunKeeps(co: Company, s: State, actions: seq<Action>)
    ensures Keeps(s, Run(co, s, actions))
    decreases |actions|
  {
    if actions != [] {
      var t := Step(co, s, actions[0]);
      StepKeeps(co, s, actions[0]);
      RunKeeps(co, t, actions[1..]);
      var u := Run(co, t, actions[1..]);
      forall key | key in s.rows ensures key in u.rows && RowKeeps(s.rows[key], u.rows[key]) {
        assert key in t.rows && RowKeeps(s.rows[key], t.rows[key]);
      }
      forall id | 0 <= id < |s.corrections| ensures CorrectionKeeps(s.corrections[id], u.corrections[id]) {
        assert CorrectionKeeps(s.corrections[id], t.corrections[id]);
      }
    }
  }

  /** A work date has one correction waiting at most, so two approvals cannot race over the same times. */
  ghost predicate OnePending(c: seq<Correction>) {
    forall i, j :: 0 <= i < j < |c| && c[i].status.Pending? && c[j].status.Pending? ==> c[i].key != c[j].key
  }

  lemma OnePendingWithout(c: seq<Correction>, id: nat, settled: Correction)
    requires OnePending(c) && id < |c| && !settled.status.Pending?
    ensures OnePending(c[id := settled])
  {
  }

  lemma OnePendingWith(c: seq<Correction>, filed: Correction)
    requires OnePending(c) && !PendingFor(c, filed.key)
    ensures OnePending(c + [filed])
  {
  }

  lemma StepKeepsOnePending(co: Company, s: State, a: Action)
    requires OnePending(s.corrections)
    ensures OnePending(Step(co, s, a).corrections)
  {
    var t := Step(co, s, a);
    if t.corrections != s.corrections {
      if a.File? {
        OnePendingWith(s.corrections, t.corrections[|s.corrections|]);
      } else {
        OnePendingWithout(s.corrections, a.id, t.corrections[a.id]);
      }
    }
  }

  lemma {:induction false} RunKeepsOnePending(co: Company, s: State, actions: seq<Action>)
    requires OnePending(s.corrections)
    ensures OnePending(Run(co, s, actions).corrections)
    decreases |actions|
  {
    if actions != [] {
      StepKeepsOnePending(co, s, actions[0]);
      RunKeepsOnePending(co, Step(co, s, actions[0]), actions[1..]);
    }
  }

  // ---- what a correction may claim ----

  predicate NearItsDate(co: Company, date: int, at: Option<int>) {
    at.Some? ==> date * DAY - 12 * HOUR <= at.value + co.offset <= (date + 1) * DAY + 12 * HOUR
  }

  predicate ClaimOk(co: Company, c: Correction) {
    && (c.proposedIn.Some? || c.proposedOut.Some?)
    && NearItsDate(co, c.key.date, c.proposedIn) && NearItsDate(co, c.key.date, c.proposedOut)
    && (c.proposedIn.Some? && c.proposedOut.Some? ==> c.proposedIn.value < c.proposedOut.value)
  }

  ghost predicate ClaimsOk(co: Company, c: seq<Correction>) { forall id :: 0 <= id < |c| ==> ClaimOk(co, c[id]) }

  lemma StepKeepsClaims(co: Company, s: State, a: Action)
    requires ClaimsOk(co, s.corrections)
    ensures ClaimsOk(co, Step(co, s, a).corrections)
  {
    var t := Step(co, s, a);
    StepKeeps(co, s, a);
    forall id | 0 <= id < |t.corrections| ensures ClaimOk(co, t.corrections[id]) {
      if id < |s.corrections| {
        assert ClaimOk(co, s.corrections[id]) && CorrectionKeeps(s.corrections[id], t.corrections[id]);
      }
    }
  }

  /** No correction ever filed names a time over twelve hours off its work date, or a check-out before its check-in. */
  lemma {:induction false} RunKeepsClaims(co: Company, s: State, actions: seq<Action>)
    requires ClaimsOk(co, s.corrections)
    ensures ClaimsOk(co, Run(co, s, actions).corrections)
    decreases |actions|
  {
    if actions != [] {
      StepKeepsClaims(co, s, actions[0]);
      RunKeepsClaims(co, Step(co, s, actions[0]), actions[1..]);
    }
  }

  // ---- when a check-out may be made ----

  /** A check-out at `at` comes no later than eight hours past its shift's end, and a day past its check-in. */
  ghost predicate OutInTime(co: Company, key: Key, row: Row, at: int) {
    var shift := Measured(co, key, row.scheduleID);
    at <= row.checkIn + 24 * HOUR && (shift.hours.Some? ==> at <= shift.end + 8 * HOUR)
  }

  /** Where no correction was approved, every check-out stored or under way is in time. */
  ghost predicate AllInTime(co: Company, s: State) {
    && (forall key :: key in s.rows && HistoryOf(s, key) == [] && s.rows[key].checkOut.Some? ==>
          var row := s.rows[key];
          row.checkIn < row.checkOut.value && OutInTime(co, key, row, row.checkOut.value))
    && (forall call :: call in s.closing ==>
          var c := s.closing[call];
          c.key in s.rows && (HistoryOf(s, c.key) == [] ==> OutInTime(co, c.key, s.rows[c.key], c.at)))
  }

  lemma ApproveKeepsInTime(co: Company, s: State, a: Action)
    requires AllInTime(co, s) && a.Approve?
    ensures AllInTime(co, Step(co, s, a))
  {
    if ApprovedBy(co, s, a.claims, a.reaches, a.id, a.ruleA).1.None? {
      var t := Step(co, s, a);
      forall key ensures HistoryOf(t, key) == [] ==> HistoryOf(s, key) == [] && HeldAt(t, key) == HeldAt(s, key) {
        ApprovalOf(co, s, a, key);
      }
    }
  }

  lemma CheckInKeepsInTime(co: Company, s: State, key: Key, scheduleID: Option<int>, at: int)
    requires AllInTime(co, s)
    ensures AllInTime(co, CheckedIn(co, s, key, scheduleID, at))
  {
  }

  lemma OpenReadKeepsInTime(co: Company, s: State, call: int, key: Key, at: int)
    requires AllInTime(co, s)
    ensures AllInTime(co, OpenRead(co, s, call, key, at))
  {
  }

  lemma CheckOutKeepsInTime(co: Company, s: State, call: int)
    requires AllInTime(co, s)
    ensures AllInTime(co, CheckedOut(s, call))
  {
  }

  lemma StepKeepsInTime(co: Company, s: State, a: Action)
    requires AllInTime(co, s)
    ensures AllInTime(co, Step(co, s, a))
  {
    match a
    case CheckIn(userID, at, date, scheduleID) => CheckInKeepsInTime(co, s, Key(userID, date), scheduleID, at);
    case ReadOpen(call, key, at) => OpenReadKeepsInTime(co, s, call, key, at);
    case WriteCheckOut(call) => CheckOutKeepsInTime(co, s, call);
    case Approve(_, _, _, _) => ApproveKeepsInTime(co, s, a);
    case _ => SettledCorrections(co, s, a);
  }

  lemma {:induction false} RunKeepsInTime(co: Company, s: State, actions: seq<Action>)
    requires AllInTime(co, s)
    ensures AllInTime(co, Run(co, s, actions))
    decreases |actions|
  {
    if actions != [] {
      StepKeepsInTime(co, s, actions[0]);
      RunKeepsInTime(co, Step(co, s, actions[0]), actions[1..]);
    }
  }

  /** Nobody closes a shift over eight hours past its end, or a check-in over a day old, but by a correction. */
  lemma CheckOutsAreInTime(co: Company, actions: seq<Action>, key: Key)
    requires var s := Run(co, EMPTY, actions); key in s.rows && s.rows[key].checkOut.Some?
    ensures var s := Run(co, EMPTY, actions);
            var (row, shift) := (s.rows[key], Measured(co, key, s.rows[key].scheduleID));
            || (exists id :: 0 <= id < |s.corrections| && s.corrections[id].key == key
                             && s.corrections[id].status.Approved?)
            || (&& row.checkIn < row.checkOut.value <= row.checkIn + 24 * HOUR
                && (shift.hours.Some? ==> row.checkOut.value <= shift.end + 8 * HOUR))
  {
    RunKeepsInTime(co, EMPTY, actions);
    CorrectionsAreTheirOwnAuditTrail(co, actions, key);
    var s := Run(co, EMPTY, actions);
    if HistoryOf(s, key) != [] { assert s.corrections[HistoryOf(s, key)[0]].status.Approved?; }
  }
}
