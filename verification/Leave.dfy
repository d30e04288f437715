/**
 Leave requests and the yearly quota they are held to (rule C).

 Every call is cut into the steps the database lets others run between: a filing under a quota type locks its user,
 reads the balance and only then inserts; a cancellation or a decision reads the request and later writes it with a
 compare-and-set on the status it read. A `Run` is any interleaving of such steps by any number of calls, with the leave
 types and quota rows held fixed.
 */
module Leave {
  import opened Common
  import opened Calendar
  import Schedule

  datatype Status = Pending | Approved | Rejected | Cancelled {
    /** Charged to an allowance. */
    predicate Live() { Pending? || Approved? }
  }

  datatype LeaveType = LeaveType(
    quotaDaysPerYear: Option<nat>,
    maxWorkingDaysPerRequest: Option<nat>,
    attachmentRequiredFromDays: Option<nat>,
    autoApprove: bool)

  datatype Quota = Quota(quotaDays: nat, carriedOverDays: nat)

  /** What one allowance is charged to. */
  datatype Key = Key(userID: int, typeID: int, year: int)

  datatype Rules = Rules(types: map<int, LeaveType>, quotas: map<Key, Quota>) {
    predicate HasQuota(typeID: int) { typeID in types && types[typeID].quotaDaysPerYear.Some? }
  }

  datatype Row = Row(
    userID: int, typeID: int, startDate: int, endDate: int, workingDays: nat, status: Status,
    attachment: bool, reviewedBy: Option<int>, cancelledBy: Option<int>)
  {
    function Charge(): Key { Key(userID, typeID, Year(startDate)) }

    predicate Overlaps(other: Row) {
      userID == other.userID && startDate <= other.endDate && other.startDate <= endDate
    }
  }

  datatype Balance = Balance(year: int, quotaDays: nat, carriedOverDays: nat, usedDays: nat, pendingDays: nat) {
    function RemainingDays(): int { quotaDays + carriedOverDays - usedDays - pendingDays }
  }

  datatype Filing = Filing(typeID: int, startDate: int, endDate: int, workingDays: nat, attachment: bool)

  // ---- rule C: balances are aggregates, never stored ----

  /** The days of one status a request contributes to the aggregate for a person, type and year. */
  function Contribution(row: Row, key: Key, status: Status): nat {
    if row.userID == key.userID && row.typeID == key.typeID && row.status == status
       && Jan1(key.year) <= row.startDate <= Dec31(key.year)
    then row.workingDays else 0
  }

  function Days(rows: seq<Row>, key: Key, status: Status): nat {
    if rows == [] then 0
    else Days(rows[..|rows| - 1], key, status) + Contribution(rows[|rows| - 1], key, status)
  }

  function QuotaDays(rules: Rules, key: Key): nat {
    if key in rules.quotas then rules.quotas[key].quotaDays
    else if rules.HasQuota(key.typeID) then rules.types[key.typeID].quotaDaysPerYear.value
    else 0
  }

  function CarriedOverDays(rules: Rules, key: Key): nat {
    if key in rules.quotas then rules.quotas[key].carriedOverDays else 0
  }

  function Balances(rules: Rules, rows: seq<Row>, key: Key): Balance {
    Balance(key.year, QuotaDays(rules, key), CarriedOverDays(rules, key),
            Days(rows, key, Approved), Days(rows, key, Pending))
  }

  function Allowance(rules: Rules, key: Key): nat { QuotaDays(rules, key) + CarriedOverDays(rules, key) }

  /** The days a person's pending and approved requests of a type hold in a year. */
  function Charged(rows: seq<Row>, key: Key): nat { Days(rows, key, Approved) + Days(rows, key, Pending) }

  /** What one request holds of a key: its working days, while it is live, and of its own key only. */
  function Held(row: Row, key: Key): nat {
    if row.status.Live() && row.Charge() == key then row.workingDays else 0
  }

  lemma HeldIsContributed(row: Row, key: Key)
    ensures Held(row, key) == Contribution(row, key, Approved) + Contribution(row, key, Pending)
  {
    BetweenIsYear(row.startDate, key.year);
  }

  lemma ChargedAppend(rows: seq<Row>, row: Row, key: Key)
    ensures Charged(rows + [row], key) == Charged(rows, key) + Held(row, key)
  {
    assert (rows + [row])[..|rows|] == rows;
    HeldIsContributed(row, key);
  }

  lemma {:induction false} ChargedUpdate(rows: seq<Row>, id: nat, row: Row, key: Key)
    requires id < |rows|
    ensures Charged(rows[id := row], key) == Charged(rows, key) - Held(rows[id], key) + Held(row, key)
  {
    var last := |rows| - 1;
    if id == last {
      assert rows[id := row][..last] == rows[..last];
      HeldIsContributed(row, key);
      HeldIsContributed(rows[id], key);
    } else {
      assert rows[id := row][..last] == rows[..last][id := row];
      ChargedUpdate(rows[..last], id, row, key);
    }
  }

  // ---- the checks a call makes before it touches the store ----

  /** The request's own limits: the range, the working days, one year per quota charge, the caps of its type. */
  function CheckRequest(rules: Rules, filing: Filing, today: int): Option<Error> {
    if Schedule.CheckRange(filing.startDate, filing.endDate).Some? then Some(Invalid)
    else if filing.typeID !in rules.types then Some(Invalid)
    else
      var kind := rules.types[filing.typeID];
      if filing.workingDays == 0 then Some(Invalid)
      else if kind.quotaDaysPerYear.Some? && Year(filing.startDate) != Year(filing.endDate) then Some(Invalid)
      else if kind.quotaDaysPerYear.Some? && Year(filing.startDate) < Year(today) then Some(Invalid)
      else if kind.maxWorkingDaysPerRequest.Some? && filing.workingDays > kind.maxWorkingDaysPerRequest.value then
        Some(Invalid)
      else if kind.attachmentRequiredFromDays.Some? && filing.workingDays >= kind.attachmentRequiredFromDays.value
              && !filing.attachment then Some(Invalid)
      else None
  }

  /** An admin's privilege stops at the admin's own requests. */
  function CheckCancel(row: Row, claims: Claims, today: int): Option<Error> {
    var override := claims.role >= HR_ADMIN && row.userID != claims.userID;
    if row.userID != claims.userID && !override then Some(Forbidden)
    else if !row.status.Live() then Some(Conflict)
    else if row.status.Approved? && !override && row.startDate <= today then Some(Forbidden)
    else None
  }

  /** `reaches` is rule D's answer for the caller and the request's owner. */
  function CheckDecide(row: Row, claims: Claims, reaches: bool): Option<Error> {
    if row.userID == claims.userID || !reaches then Some(Forbidden) else None
  }

  /** A filing that is accepted under a quota type is charged whole to one year, and never to a closed one. */
  lemma AcceptedFilingHasOneYear(rules: Rules, filing: Filing, today: int, date: int)
    requires CheckRequest(rules, filing, today).None? && rules.HasQuota(filing.typeID)
    requires filing.startDate <= date <= filing.endDate
    ensures Year(date) == Year(filing.startDate) >= Year(today)
  {
    YearMonotone(filing.startDate, date);
    YearMonotone(date, filing.endDate);
  }

  // ---- the store and the calls in flight ----

  datatype Call =
    | Idle
    | Asked(row: Row)                                        // checked, nothing read from the store yet
    | Locked(row: Row)                                       // holds its user's row lock
    | Informed(row: Row, held: Balance)                      // has read the balance under that lock
    | Settling(id: nat, from: Status, to: Status, actor: int, seenOn: int) // has read the request in `from`, that day

  datatype Event =
    | Filed(id: nat, key: Key, days: nat, status: Status)
    | Moved(id: nat, from: Status, to: Status, key: Key, days: nat, actor: int, seenOn: int)

  /** `locks` maps a user to the call holding their row; `log` is history, and no step reads it. */
  datatype State = State(rows: seq<Row>, locks: map<int, int>, calls: map<int, Call>, log: seq<Event>) {
    function At(call: int): Call { if call in calls then calls[call] else Idle }
  }

  const EMPTY := State([], map[], map[], [])

  datatype Action =
    | Request(call: int, userID: int, filing: Filing, today: int)
    | Lock(call: int)
    | Read(call: int)
    | Insert(call: int)
    | Cancel(call: int, claims: Claims, id: nat, today: int)
    | Decide(call: int, claims: Claims, reaches: bool, id: nat, approve: bool, today: int)
    | Settle(call: int)
    | Abort(call: int)

  function Finish(s: State, call: int): State {
    s.(calls := s.calls[call := Idle], locks := map user | user in s.locks && s.locks[user] != call :: s.locks[user])
  }

  /** The exclusion constraint would refuse the row: one of the same person's live rows meets it. */
  predicate Clashes(rows: seq<Row>, row: Row) {
    row.status.Live() && exists i :: 0 <= i < |rows| && rows[i].status.Live() && rows[i].Overlaps(row)
  }

  function Stored(s: State, row: Row): State {
    if Clashes(s.rows, row) then s
    else s.(rows := s.rows + [row], log := s.log + [Filed(|s.rows|, row.Charge(), row.workingDays, row.status)])
  }

  function Decided(row: Row, to: Status, actor: int): Row {
    if to == Cancelled then row.(status := to, cancelledBy := Some(actor))
    else row.(status := to, reviewedBy := Some(actor))
  }

  function NewRow(rules: Rules, userID: int, filing: Filing): Row
    requires filing.typeID in rules.types
  {
    var status := if rules.types[filing.typeID].autoApprove then Approved else Pending;
    Row(userID, filing.typeID, filing.startDate, filing.endDate, filing.workingDays, status, filing.attachment,
        None, None)
  }

  function Requested(rules: Rules, s: State, a: Action): State
    requires a.Request?
  {
    if !s.At(a.call).Idle? || CheckRequest(rules, a.filing, a.today).Some? then s
    else s.(calls := s.calls[a.call := Asked(NewRow(rules, a.userID, a.filing))])
  }

  /** Unlimited types go straight in; the rest insert under their lock, and only what the balance read still allows. */
  function Inserted(rules: Rules, s: State, call: int): State {
    match s.At(call)
    case Asked(row) => if rules.HasQuota(row.typeID) then s else Finish(Stored(s, row), call)
    case Informed(row, held) =>
      if row.workingDays > held.RemainingDays() then Finish(s, call) else Finish(Stored(s, row), call)
    case _ => s
  }

  function Settled(s: State, call: int): State {
    match s.At(call)
    case Settling(id, from, to, actor, seenOn) =>
      if id < |s.rows| && s.rows[id].status == from then
        var row := s.rows[id];
        Finish(s.(rows := s.rows[id := Decided(row, to, actor)],
                  log := s.log + [Moved(id, from, to, row.Charge(), row.workingDays, actor, seenOn)]), call)
      else Finish(s, call)
    case _ => s
  }

  /** One step; an action that is not enabled changes nothing. */
  function Step(rules: Rules, s: State, a: Action): State {
    match a
    case Request(_, _, _, _) => Requested(rules, s, a)
    case Lock(call) =>
      var c := s.At(call);
      if c.Asked? && rules.HasQuota(c.row.typeID) && c.row.userID !in s.locks
      then s.(locks := s.locks[c.row.userID := call], calls := s.calls[call := Locked(c.row)]) else s
    case Read(call) =>
      var c := s.At(call);
      if c.Locked? then s.(calls := s.calls[call := Informed(c.row, Balances(rules, s.rows, c.row.Charge()))]) else s
    case Insert(call) => Inserted(rules, s, call)
    case Cancel(call, claims, id, today) =>
      if s.At(call).Idle? && id < |s.rows| && CheckCancel(s.rows[id], claims, today).None?
      then s.(calls := s.calls[call := Settling(id, s.rows[id].status, Cancelled, claims.userID, today)]) else s
    case Decide(call, claims, reaches, id, approve, today) =>
      if s.At(call).Idle? && claims.role >= SUPERVISOR && id < |s.rows|
         && CheckDecide(s.rows[id], claims, reaches).None?
      then
        var verdict := if approve then Approved else Rejected;
        s.(calls := s.calls[call := Settling(id, Pending, verdict, claims.userID, today)])
      else s
    case Settle(call) => Settled(s, call)
    case Abort(call) => Finish(s, call)
  }

  function Run(rules: Rules, s: State, actions: seq<Action>): State
    decreases |actions|
  {
    if actions == [] then s else Run(rules, Step(rules, s, actions[0]), actions[1..])
  }

  // ---- safety: no interleaving spends an allowance twice ----

  predicate Holds(c: Call) { c.Locked? || c.Informed? }

  ghost predicate CallOk(rules: Rules, s: State, call: int) {
    var c := s.At(call);
    && (Holds(c) ==> c.row.userID in s.locks && s.locks[c.row.userID] == call && rules.HasQuota(c.row.typeID))
    && (c.Informed? ==>
      && c.held.quotaDays + c.held.carriedOverDays == Allowance(rules, c.row.Charge())
      && Charged(s.rows, c.row.Charge()) <= c.held.usedDays + c.held.pendingDays)
  }

  ghost predicate WithinQuota(rules: Rules, rows: seq<Row>) {
    forall key: Key :: rules.HasQuota(key.typeID) ==> Charged(rows, key) <= Allowance(rules, key)
  }

  ghost predicate Safe(rules: Rules, s: State) {
    && WithinQuota(rules, s.rows)
    && forall call :: CallOk(rules, s, call)
  }

  /** A settled request never raises what any key is charged: only filings need the lock. */
  lemma SettlingOnlyReleases(s: State, call: int, key: Key)
    requires CallsFair(s)
    ensures Charged(Settled(s, call).rows, key) <= Charged(s.rows, key)
  {
    var c := s.At(call);
    if c.Settling? && s.rows[c.id].status == c.from {
      assert Fair(s.rows, c.id, c.from, c.to, c.actor, c.seenOn);
      ChargedUpdate(s.rows, c.id, Decided(s.rows[c.id], c.to, c.actor), key);
    }
  }

  /** The moves a request may make. */
  predicate Legal(from: Status, to: Status) {
    (from.Pending? && !to.Pending?) || (from.Approved? && to.Cancelled?)
  }

  /**
   A move nobody may object to: a legal one; an owner cancels an approved leave only when it had not started on the date
   of the check; and only someone else decides, and only what is pending.
   */
  ghost predicate Fair(rows: seq<Row>, id: nat, from: Status, to: Status, actor: int, seenOn: int) {
    && id < |rows|
    && Legal(from, to)
    && (from.Approved? && actor == rows[id].userID ==> seenOn < rows[id].startDate)
    && (!to.Cancelled? ==> from.Pending? && actor != rows[id].userID)
  }

  ghost predicate CallsFair(s: State) {
    forall call :: var c := s.At(call);
      c.Settling? ==> Fair(s.rows, c.id, c.from, c.to, c.actor, c.seenOn)
  }

  /** What a request was filed as never changes, and its status only moves along legal moves. */
  ghost predicate Evolves(before: seq<Row>, after: seq<Row>) {
    && |before| <= |after|
    && forall i :: 0 <= i < |before| ==>
      && after[i].(status := before[i].status, reviewedBy := before[i].reviewedBy, cancelledBy := before[i].cancelledBy)
         == before[i]
      && (after[i].status == before[i].status || Legal(before[i].status, after[i].status))
  }

  /** A later table keeps a move fair: who asked for the leave and when it starts never change. */
  lemma FairLater(before: seq<Row>, after: seq<Row>, id: nat, from: Status, to: Status, actor: int, seenOn: int)
    requires Fair(before, id, from, to, actor, seenOn) && Evolves(before, after)
    ensures Fair(after, id, from, to, actor, seenOn)
  {
  }

  lemma RowsEvolve(rules: Rules, s: State, a: Action)
    requires CallsFair(s)
    ensures Evolves(s.rows, Step(rules, s, a).rows)
  {
    var c := s.At(a.call);
    if a.Settle? && c.Settling? {
      assert Fair(s.rows, c.id, c.from, c.to, c.actor, c.seenOn);
    }
  }

  /** What a cancellation or a decision sets out to do was fair when it read the request. */
  lemma NewSettlingIsFair(rules: Rules, s: State, a: Action)
    requires a.Cancel? || a.Decide?
    ensures var c := Step(rules, s, a).At(a.call);
            c == s.At(a.call) || (c.Settling? && Fair(s.rows, c.id, c.from, c.to, c.actor, c.seenOn))
  {
  }

  lemma StepEvolves(rules: Rules, s: State, a: Action)
    requires CallsFair(s)
    ensures Evolves(s.rows, Step(rules, s, a).rows) && CallsFair(Step(rules, s, a))
  {
    var t := Step(rules, s, a);
    RowsEvolve(rules, s, a);
    if a.Cancel? || a.Decide? { NewSettlingIsFair(rules, s, a); }
    forall call | t.At(call).Settling?
      ensures var c := t.At(call); Fair(t.rows, c.id, c.from, c.to, c.actor, c.seenOn)
    {
      var c := t.At(call);
      if c == s.At(call) { FairLater(s.rows, t.rows, c.id, c.from, c.to, c.actor, c.seenOn); }
    }
  }

  lemma InsertKeepsQuota(rules: Rules, s: State, call: int, key: Key)
    requires Safe(rules, s) && rules.HasQuota(key.typeID)
    ensures Charged(Inserted(rules, s, call).rows, key) <= Allowance(rules, key)
  {
    var c := s.At(call);
    assert CallOk(rules, s, call);
    if c.Asked? || c.Informed? {
      ChargedAppend(s.rows, c.row, key);
    }
  }

  /** An insert ends its own call, stores at most its row, and lets go of no other call's lock. */
  lemma InsertTouches(rules: Rules, s: State, call: int)
    ensures var c, t := s.At(call), Inserted(rules, s, call);
            && (t == s || t.At(call).Idle?)
            && (t.rows == s.rows ||
                (t.rows == s.rows + [c.row] && (c.Informed? || (c.Asked? && !rules.HasQuota(c.row.typeID)))))
            && (forall other :: other != call ==> t.At(other) == s.At(other))
            && (forall user :: user in s.locks && s.locks[user] != call ==>
                  user in t.locks && t.locks[user] == s.locks[user])
  {
  }

  /** Whoever else has read a balance holds another user's lock, and so charges another key. */
  lemma InsertKeepsCall(rules: Rules, s: State, call: int, other: int)
    requires Safe(rules, s)
    ensures CallOk(rules, Inserted(rules, s, call), other)
  {
    var c, d := s.At(call), s.At(other);
    InsertTouches(rules, s, call);
    assert CallOk(rules, s, call) && CallOk(rules, s, other);
    if other != call && d.Informed? && (c.Asked? || c.Informed?) {
      ChargedAppend(s.rows, c.row, d.row.Charge());
    }
  }

  lemma QuietStepKeepsCall(rules: Rules, s: State, a: Action, call: int)
    requires CallOk(rules, s, call) && CallOk(rules, s, a.call) && !a.Insert?
    requires forall key: Key :: Charged(Step(rules, s, a).rows, key) <= Charged(s.rows, key)
    ensures CallOk(rules, Step(rules, s, a), call)
  {
  }

  lemma StepKeepsSafe(rules: Rules, s: State, a: Action)
    requires Safe(rules, s) && CallsFair(s)
    ensures Safe(rules, Step(rules, s, a))
  {
    var t := Step(rules, s, a);
    if a.Insert? {
      forall key: Key | rules.HasQuota(key.typeID) ensures Charged(t.rows, key) <= Allowance(rules, key) {
        InsertKeepsQuota(rules, s, a.call, key);
      }
      forall call ensures CallOk(rules, t, call) { InsertKeepsCall(rules, s, a.call, call); }
    } else {
      forall key: Key ensures Charged(t.rows, key) <= Charged(s.rows, key) {
        if a.Settle? { SettlingOnlyReleases(s, a.call, key); }
      }
      forall call ensures CallOk(rules, t, call) { QuietStepKeepsCall(rules, s, a, call); }
    }
  }

  lemma {:induction false} RunKeepsSafe(rules: Rules, s: State, actions: seq<Action>)
    requires Safe(rules, s) && CallsFair(s)
    ensures Safe(rules, Run(rules, s, actions))
    decreases |actions|
  {
    if actions != [] {
      StepKeepsSafe(rules, s, actions[0]);
      StepEvolves(rules, s, actions[0]);
      RunKeepsSafe(rules, Step(rules, s, actions[0]), actions[1..]);
    }
  }

  /**
   In every interleaving, the working days a person holds of a quota type in a year stay within the allowance: the
   person's own quota and carried-over days, or without those the type's.
   */
  lemma QuotaIsNeverExceeded(rules: Rules, actions: seq<Action>, key: Key)
    requires key.typeID in rules.types && rules.types[key.typeID].quotaDaysPerYear.Some?
    ensures Charged(Run(rules, EMPTY, actions).rows, key)
            <= if key in rules.quotas then rules.quotas[key].quotaDays + rules.quotas[key].carriedOverDays
               else rules.types[key.typeID].quotaDaysPerYear.value
    ensures Balances(rules, Run(rules, EMPTY, actions).rows, key).RemainingDays() >= 0
  {
    RunKeepsSafe(rules, EMPTY, actions);
  }

  // ---- a lock goes with the call that took it ----

  ghost predicate LocksHeld(s: State) {
    forall user :: user in s.locks ==> var c := s.At(s.locks[user]); Holds(c) && c.row.userID == user
  }

  lemma StepKeepsLocksHeld(rules: Rules, s: State, a: Action)
    requires LocksHeld(s)
    ensures LocksHeld(Step(rules, s, a))
  {
    var t := Step(rules, s, a);
    forall user | user in t.locks ensures var c := t.At(t.locks[user]); Holds(c) && c.row.userID == user {
      assert user in s.locks ==> var c := s.At(s.locks[user]); Holds(c) && c.row.userID == user;
    }
  }

  /** No user is left locked: whoever holds a row has yet to insert, and once nobody files no lock is held. */
  lemma {:induction false} RunKeepsLocksHeld(rules: Rules, s: State, actions: seq<Action>)
    requires LocksHeld(s)
    ensures LocksHeld(Run(rules, s, actions))
    decreases |actions|
  {
    if actions != [] {
      StepKeepsLocksHeld(rules, s, actions[0]);
      RunKeepsLocksHeld(rules, Step(rules, s, actions[0]), actions[1..]);
    }
  }

  // ---- the life of a request ----

  /** From any state a run can be in, every later one keeps each request and has moved it legally if at all. */
  lemma {:induction false} RunEvolves(rules: Rules, s: State, actions: seq<Action>)
    requires CallsFair(s)
    ensures Evolves(s.rows, Run(rules, s, actions).rows) && CallsFair(Run(rules, s, actions))
    decreases |actions|
  {
    if actions != [] {
      StepEvolves(rules, s, actions[0]);
      RunEvolves(rules, Step(rules, s, actions[0]), actions[1..]);
    }
  }

  ghost predicate LogFair(s: State) {
    forall i :: 0 <= i < |s.log| && s.log[i].Moved? ==>
      var e := s.log[i]; Fair(s.rows, e.id, e.from, e.to, e.actor, e.seenOn)
  }

  lemma NewMoveIsTheCalls(rules: Rules, s: State, a: Action, i: nat)
    requires var t := Step(rules, s, a); i < |t.log| && t.log[i].Moved?
    ensures var (e, c) := (Step(rules, s, a).log[i], s.At(a.call));
            || (i < |s.log| && e == s.log[i])
            || (c.Settling? && (e.id, e.from, e.to, e.actor, e.seenOn) == (c.id, c.from, c.to, c.actor, c.seenOn))
  {
  }

  lemma StepKeepsLogFair(rules: Rules, s: State, a: Action)
    requires CallsFair(s) && LogFair(s)
    ensures LogFair(Step(rules, s, a))
  {
    var t := Step(rules, s, a);
    RowsEvolve(rules, s, a);
    forall i | 0 <= i < |t.log| && t.log[i].Moved?
      ensures var e := t.log[i]; Fair(t.rows, e.id, e.from, e.to, e.actor, e.seenOn)
    {
      var e := t.log[i];
      NewMoveIsTheCalls(rules, s, a, i);
      FairLater(s.rows, t.rows, e.id, e.from, e.to, e.actor, e.seenOn);
    }
  }

  lemma {:induction false} RunKeepsLogFair(rules: Rules, s: State, actions: seq<Action>)
    requires CallsFair(s) && LogFair(s)
    ensures LogFair(Run(rules, s, actions))
    decreases |actions|
  {
    if actions != [] {
      StepEvolves(rules, s, actions[0]);
      StepKeepsLogFair(rules, s, actions[0]);
      RunKeepsLogFair(rules, Step(rules, s, actions[0]), actions[1..]);
    }
  }

  /** Every move any run ever makes is fair, however the reads and the writes behind it were interleaved. */
  lemma EveryMoveIsFair(rules: Rules, actions: seq<Action>, i: nat)
    requires var s := Run(rules, EMPTY, actions); i < |s.log| && s.log[i].Moved?
    ensures var s := Run(rules, EMPTY, actions); var e := s.log[i];
            Fair(s.rows, e.id, e.from, e.to, e.actor, e.seenOn)
  {
    RunKeepsLogFair(rules, EMPTY, actions);
  }

  // ---- conservation: nothing is stored but the requests, so nothing can drift ----

  function FiledDays(log: seq<Event>, key: Key): nat {
    if log == [] then 0
    else
      var e := log[|log| - 1];
      FiledDays(log[..|log| - 1], key) + if e.Filed? && e.key == key then e.days else 0
  }

  function ReleasedDays(log: seq<Event>, key: Key): nat {
    if log == [] then 0
    else
      var e := log[|log| - 1];
      ReleasedDays(log[..|log| - 1], key) + if e.Moved? && !e.to.Live() && e.key == key then e.days else 0
  }

  ghost predicate Conserved(s: State, key: Key) {
    Charged(s.rows, key) + ReleasedDays(s.log, key) == FiledDays(s.log, key)
  }

  /** What a filing carries towards its insert will hold days once stored. */
  predicate CallLive(c: Call) { c.Asked? || c.Locked? || c.Informed? ==> c.row.status.Live() }

  ghost predicate CallsLive(s: State) { forall call :: CallLive(s.At(call)) }

  lemma StepKeepsCallsLive(rules: Rules, s: State, a: Action)
    requires CallsLive(s)
    ensures CallsLive(Step(rules, s, a))
  {
    forall call ensures CallLive(Step(rules, s, a).At(call)) {
      assert CallLive(s.At(call)) && CallLive(s.At(a.call));
    }
  }

  lemma LogAppend(log: seq<Event>, e: Event, key: Key)
    ensures FiledDays(log + [e], key) == FiledDays(log, key) + if e.Filed? && e.key == key then e.days else 0
    ensures ReleasedDays(log + [e], key)
            == ReleasedDays(log, key) + if e.Moved? && !e.to.Live() && e.key == key then e.days else 0
  {
    assert (log + [e])[..|log|] == log;
  }

  lemma StoredConserves(s: State, row: Row, key: Key)
    requires row.status.Live() && Conserved(s, key)
    ensures Conserved(Stored(s, row), key)
  {
    if !Clashes(s.rows, row) {
      ChargedAppend(s.rows, row, key);
      LogAppend(s.log, Filed(|s.rows|, row.Charge(), row.workingDays, row.status), key);
    }
  }

  lemma InsertConserves(rules: Rules, s: State, call: int, key: Key)
    requires CallsLive(s) && Conserved(s, key)
    ensures Conserved(Inserted(rules, s, call), key)
  {
    var c := s.At(call);
    if c.Asked? || c.Informed? {
      StoredConserves(s, c.row, key);
    }
  }

  lemma SettleConserves(s: State, call: int, key: Key)
    requires CallsFair(s) && Conserved(s, key)
    ensures Conserved(Settled(s, call), key)
  {
    var c := s.At(call);
    if c.Settling? && c.id < |s.rows| && s.rows[c.id].status == c.from {
      var row := s.rows[c.id];
      assert Fair(s.rows, c.id, c.from, c.to, c.actor, c.seenOn);
      LogAppend(s.log, Moved(c.id, c.from, c.to, row.Charge(), row.workingDays, c.actor, c.seenOn), key);
      ChargedUpdate(s.rows, c.id, Decided(row, c.to, c.actor), key);
    }
  }

  lemma StepConserves(rules: Rules, s: State, a: Action, key: Key)
    requires CallsFair(s) && CallsLive(s) && Conserved(s, key)
    ensures CallsLive(Step(rules, s, a)) && Conserved(Step(rules, s, a), key)
  {
    StepKeepsCallsLive(rules, s, a);
    InsertConserves(rules, s, a.call, key);
    SettleConserves(s, a.call, key);
  }

  lemma {:induction false} RunConserves(rules: Rules, s: State, actions: seq<Action>, key: Key)
    requires CallsFair(s) && CallsLive(s) && Conserved(s, key)
    ensures Conserved(Run(rules, s, actions), key)
    decreases |actions|
  {
    if actions != [] {
      StepEvolves(rules, s, actions[0]);
      StepConserves(rules, s, actions[0], key);
      RunConserves(rules, Step(rules, s, actions[0]), actions[1..], key);
    }
  }

  /**
   What remains is the person's own quota and carried-over days, or the type's quota, or nothing, less every day filed,
   plus every day a rejection or cancellation gave back.
   */
  lemma RemainingIsAllowanceLessFiledPlusReleased(rules: Rules, actions: seq<Action>, key: Key)
    ensures var s := Run(rules, EMPTY, actions);
            Balances(rules, s.rows, key).RemainingDays()
            == (if key in rules.quotas then rules.quotas[key].quotaDays + rules.quotas[key].carriedOverDays
                else if key.typeID in rules.types && rules.types[key.typeID].quotaDaysPerYear.Some?
                then rules.types[key.typeID].quotaDaysPerYear.value
                else 0)
               - FiledDays(s.log, key) + ReleasedDays(s.log, key)
  {
    RunConserves(rules, EMPTY, actions, key);
  }

  // ---- and each status has its own account ----

  predicate Enters(e: Event, key: Key, status: Status) {
    e.key == key && (if e.Filed? then e.status == status else e.to == status)
  }

  predicate Leaves(e: Event, key: Key, status: Status) { e.key == key && e.Moved? && e.from == status }

  /** The days of requests that came into a status, and of those that went out of it. */
  function EnteredDays(log: seq<Event>, key: Key, status: Status): nat {
    if log == [] then 0
    else EnteredDays(log[..|log| - 1], key, status)
         + if Enters(log[|log| - 1], key, status) then log[|log| - 1].days else 0
  }

  function LeftDays(log: seq<Event>, key: Key, status: Status): nat {
    if log == [] then 0
    else LeftDays(log[..|log| - 1], key, status)
         + if Leaves(log[|log| - 1], key, status) then log[|log| - 1].days else 0
  }

  ghost predicate Balanced(s: State, key: Key, status: Status) {
    Days(s.rows, key, status) + LeftDays(s.log, key, status) == EnteredDays(s.log, key, status)
  }

  /** What a request adds under a status: its days, if that is its status and the key its own. */
  function Counts(row: Row, key: Key, status: Status): nat {
    if row.Charge() == key && row.status == status then row.workingDays else 0
  }

  lemma ContributionIsTheKeys(row: Row, key: Key, status: Status)
    ensures Contribution(row, key, status) == Counts(row, key, status)
  {
    BetweenIsYear(row.startDate, key.year);
  }

  lemma DaysAppend(rows: seq<Row>, row: Row, key: Key, status: Status)
    ensures Days(rows + [row], key, status) == Days(rows, key, status) + Counts(row, key, status)
  {
    assert (rows + [row])[..|rows|] == rows;
    ContributionIsTheKeys(row, key, status);
  }

  lemma {:induction false} DaysUpdate(rows: seq<Row>, id: nat, row: Row, key: Key, status: Status)
    requires id < |rows|
    ensures Days(rows[id := row], key, status)
            == Days(rows, key, status) - Counts(rows[id], key, status) + Counts(row, key, status)
    decreases |rows|
  {
    var last := |rows| - 1;
    if id == last {
      assert rows[id := row][..last] == rows[..last];
      ContributionIsTheKeys(row, key, status);
      ContributionIsTheKeys(rows[id], key, status);
    } else {
      assert rows[id := row][..last] == rows[..last][id := row];
      DaysUpdate(rows[..last], id, row, key, status);
    }
  }

  lemma AccountAppend(log: seq<Event>, e: Event, key: Key, status: Status)
    ensures EnteredDays(log + [e], key, status)
            == EnteredDays(log, key, status) + if Enters(e, key, status) then e.days else 0
    ensures LeftDays(log + [e], key, status) == LeftDays(log, key, status) + if Leaves(e, key, status) then e.days else 0
  {
    assert (log + [e])[..|log|] == log;
  }

  lemma StoredBalances(s: State, row: Row, key: Key, status: Status)
    requires Balanced(s, key, status)
    ensures Balanced(Stored(s, row), key, status)
  {
    if !Clashes(s.rows, row) {
      DaysAppend(s.rows, row, key, status);
      AccountAppend(s.log, Filed(|s.rows|, row.Charge(), row.workingDays, row.status), key, status);
    }
  }

  lemma MovedBalances(
    rows: seq<Row>, log: seq<Event>, id: nat, to: Status, actor: int, e: Event, key: Key, status: Status)
    requires id < |rows| && e.Moved? && e.from == rows[id].status && e.to == to
    requires e.key == rows[id].Charge() && e.days == rows[id].workingDays
    requires Days(rows, key, status) + LeftDays(log, key, status) == EnteredDays(log, key, status)
    ensures Days(rows[id := Decided(rows[id], to, actor)], key, status) + LeftDays(log + [e], key, status)
            == EnteredDays(log + [e], key, status)
  {
    var next := Decided(rows[id], to, actor);
    assert next.Charge() == rows[id].Charge() && next.workingDays == rows[id].workingDays && next.status == to;
    DaysUpdate(rows, id, next, key, status);
    AccountAppend(log, e, key, status);
  }

  lemma SettledBalances(s: State, call: int, key: Key, status: Status)
    requires Balanced(s, key, status)
    ensures Balanced(Settled(s, call), key, status)
  {
    var c := s.At(call);
    if c.Settling? && c.id < |s.rows| && s.rows[c.id].status == c.from {
      var row := s.rows[c.id];
      var e := Moved(c.id, c.from, c.to, row.Charge(), row.workingDays, c.actor, c.seenOn);
      MovedBalances(s.rows, s.log, c.id, c.to, c.actor, e, key, status);
    }
  }

  lemma InsertedBalances(rules: Rules, s: State, call: int, key: Key, status: Status)
    requires Balanced(s, key, status)
    ensures Balanced(Inserted(rules, s, call), key, status)
  {
    var c := s.At(call);
    if c.Asked? || c.Informed? { StoredBalances(s, c.row, key, status); }
  }

  lemma StepBalances(rules: Rules, s: State, a: Action, key: Key, status: Status)
    requires Balanced(s, key, status)
    ensures Balanced(Step(rules, s, a), key, status)
  {
    match a
    case Insert(call) => InsertedBalances(rules, s, call, key, status);
    case Settle(call) => SettledBalances(s, call, key, status);
    case _ => assert Step(rules, s, a).rows == s.rows && Step(rules, s, a).log == s.log;
  }

  lemma {:induction false} RunBalances(rules: Rules, s: State, actions: seq<Action>, key: Key, status: Status)
    requires Balanced(s, key, status)
    ensures Balanced(Run(rules, s, actions), key, status)
    decreases |actions|
  {
    if actions != [] {
      StepBalances(rules, s, actions[0], key, status);
      RunBalances(rules, Step(rules, s, actions[0]), actions[1..], key, status);
    }
  }

  /** Over every run the days used are those approved less those approved and since cancelled, and so for the pending. */
  lemma BalanceIsItsHistory(rules: Rules, actions: seq<Action>, key: Key)
    ensures var s := Run(rules, EMPTY, actions);
            var held := Balances(rules, s.rows, key);
            && held.usedDays == EnteredDays(s.log, key, Approved) - LeftDays(s.log, key, Approved)
            && held.pendingDays == EnteredDays(s.log, key, Pending) - LeftDays(s.log, key, Pending)
  {
    RunBalances(rules, EMPTY, actions, key, Approved);
    RunBalances(rules, EMPTY, actions, key, Pending);
  }

  /** Types and years do not draw on each other: no step moves what two keys are charged. */
  lemma AStepChargesOneKey(rules: Rules, s: State, a: Action, one: Key, other: Key)
    requires one != other
    ensures var t := Step(rules, s, a);
            Charged(t.rows, one) == Charged(s.rows, one) || Charged(t.rows, other) == Charged(s.rows, other)
  {
    var t := Step(rules, s, a);
    var c := s.At(a.call);
    if t.rows != s.rows {
      if a.Insert? {
        ChargedAppend(s.rows, c.row, one);
        ChargedAppend(s.rows, c.row, other);
      } else {
        var row := Decided(s.rows[c.id], c.to, c.actor);
        ChargedUpdate(s.rows, c.id, row, one);
        ChargedUpdate(s.rows, c.id, row, other);
      }
    }
  }

  // ---- every stored request stays within its limits ----

  predicate WithinLimits(rules: Rules, row: Row) {
    && row.typeID in rules.types
    && row.startDate <= row.endDate < row.startDate + Schedule.MAX_RANGE_DAYS
    && row.workingDays >= 1
    && (rules.types[row.typeID].maxWorkingDaysPerRequest.Some? ==>
          row.workingDays <= rules.types[row.typeID].maxWorkingDaysPerRequest.value)
    && (rules.types[row.typeID].attachmentRequiredFromDays.Some? && !row.attachment ==>
          row.workingDays < rules.types[row.typeID].attachmentRequiredFromDays.value)
    && (rules.HasQuota(row.typeID) ==> Year(row.startDate) == Year(row.endDate))
  }

  predicate CallWithin(rules: Rules, c: Call) {
    c.Asked? || c.Locked? || c.Informed? ==> WithinLimits(rules, c.row)
  }

  ghost predicate AllWithin(rules: Rules, s: State) {
    && (forall i :: 0 <= i < |s.rows| ==> WithinLimits(rules, s.rows[i]))
    && (forall call :: CallWithin(rules, s.At(call)))
  }

  lemma StepKeepsCallLimits(rules: Rules, s: State, a: Action, call: int)
    requires CallWithin(rules, s.At(call)) && CallWithin(rules, s.At(a.call))
    ensures CallWithin(rules, Step(rules, s, a).At(call))
  {
  }

  lemma StepKeepsRowLimits(rules: Rules, s: State, a: Action, i: nat)
    requires AllWithin(rules, s) && i < |Step(rules, s, a).rows|
    ensures WithinLimits(rules, Step(rules, s, a).rows[i])
  {
    assert CallWithin(rules, s.At(a.call));
    if a.Insert? {
      InsertTouches(rules, s, a.call);
    } else if i < |s.rows| {
      assert WithinLimits(rules, s.rows[i]);
    }
  }

  lemma StepKeepsLimits(rules: Rules, s: State, a: Action)
    requires AllWithin(rules, s)
    ensures AllWithin(rules, Step(rules, s, a))
  {
    var t := Step(rules, s, a);
    forall i | 0 <= i < |t.rows| ensures WithinLimits(rules, t.rows[i]) { StepKeepsRowLimits(rules, s, a, i); }
    forall call ensures CallWithin(rules, t.At(call)) { StepKeepsCallLimits(rules, s, a, call); }
  }

  lemma {:induction false} RunKeepsLimits(rules: Rules, s: State, actions: seq<Action>)
    requires AllWithin(rules, s)
    ensures AllWithin(rules, Run(rules, s, actions))
    decreases |actions|
  {
    if actions != [] {
      StepKeepsLimits(rules, s, actions[0]);
      RunKeepsLimits(rules, Step(rules, s, actions[0]), actions[1..]);
    }
  }

  /**
   Whatever becomes of a request, it stays within the range and the day limits it was filed under, and every date of one
   under a quota type falls in the year it is charged to.
   */
  lemma StoredRequestsAreWithinLimits(rules: Rules, actions: seq<Action>, i: nat, date: int)
    requires var rows := Run(rules, EMPTY, actions).rows;
             i < |rows| && rows[i].startDate <= date <= rows[i].endDate
    ensures var row := Run(rules, EMPTY, actions).rows[i];
            WithinLimits(rules, row) && (rules.HasQuota(row.typeID) ==> Year(date) == row.Charge().year)
  {
    RunKeepsLimits(rules, EMPTY, actions);
    var row := Run(rules, EMPTY, actions).rows[i];
    assert WithinLimits(rules, row);
    YearMonotone(row.startDate, date);
    YearMonotone(date, row.endDate);
  }

  // ---- live requests of one person share no date ----

  ghost predicate NoOverlap(rows: seq<Row>) {
    forall i, j :: 0 <= i < j < |rows| && rows[i].status.Live() && rows[j].status.Live() ==> !rows[i].Overlaps(rows[j])
  }

  lemma SettledKeepsNoOverlap(s: State, call: int)
    requires CallsFair(s) && NoOverlap(s.rows)
    ensures NoOverlap(Settled(s, call).rows)
  {
    var c := s.At(call);
    assert c.Settling? ==> Fair(s.rows, c.id, c.from, c.to, c.actor, c.seenOn);
  }

  lemma InsertedKeepsNoOverlap(rules: Rules, s: State, call: int)
    requires NoOverlap(s.rows)
    ensures NoOverlap(Inserted(rules, s, call).rows)
  {
    InsertTouches(rules, s, call);
  }

  lemma {:induction false} RunKeepsNoOverlap(rules: Rules, s: State, actions: seq<Action>)
    requires CallsFair(s) && NoOverlap(s.rows)
    ensures NoOverlap(Run(rules, s, actions).rows)
    decreases |actions|
  {
    if actions != [] {
      StepEvolves(rules, s, actions[0]);
      InsertedKeepsNoOverlap(rules, s, actions[0].call);
      SettledKeepsNoOverlap(s, actions[0].call);
      RunKeepsNoOverlap(rules, Step(rules, s, actions[0]), actions[1..]);
    }
  }

  lemma NobodyIsOnTwoLeavesAtOnce(rules: Rules, actions: seq<Action>, i: nat, j: nat, date: int)
    requires var rows := Run(rules, EMPTY, actions).rows;
             && i < |rows| && j < |rows| && rows[i].userID == rows[j].userID
             && rows[i].status.Live() && rows[j].status.Live()
             && rows[i].startDate <= date <= rows[i].endDate && rows[j].startDate <= date <= rows[j].endDate
    ensures i == j
  {
    RunKeepsNoOverlap(rules, EMPTY, actions);
  }
}
