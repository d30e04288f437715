/** The leave store as it is written: each method is one step of `Leave.Step` on the rows, the locks and the calls. */
module LeaveStore {
  import opened Common
  import opened Calendar
  import opened Leave

  /** The working days rule A finds in a range, one flag a date. */
  function WorkingDays(days: seq<bool>): nat {
    if days == [] then 0 else WorkingDays(days[..|days| - 1]) + if days[|days| - 1] then 1 else 0
  }

  method CountWorking(days: seq<bool>) returns (working: nat)
    ensures working == WorkingDays(days)
    ensures working == |set i | 0 <= i < |days| && days[i]|
  {
    working := 0;
    ghost var seen: set<int> := {};
    for i := 0 to |days|
      invariant working == WorkingDays(days[..i])
      invariant seen == (set k | 0 <= k < i && days[k]) && working == |seen|
    {
      assert days[..i + 1][..i] == days[..i];
      if days[i] {
        working := working + 1;
        seen := seen + {i};
      }
    }
    assert days[..|days|] == days;
    assert seen == set i | 0 <= i < |days| && days[i];
  }

  class Store {
    const rules: Rules
    var rows: seq<Row>
    var locks: map<int, int>
    var calls: map<int, Call>
    ghost var log: seq<Event>

    ghost function State(): State
      reads this
    {
      Leave.State(rows, locks, calls, log)
    }

    constructor (rules: Rules)
      ensures State() == EMPTY && this.rules == rules
    {
      this.rules := rules;
      rows, locks, calls, log := [], map[], map[], [];
    }

    function At(call: int): Call
      reads this
    {
      if call in calls then calls[call] else Idle
    }

    method Release(call: int)
      modifies this
      ensures State() == Finish(old(State()), call)
    {
      calls := calls[call := Idle];
      locks := map user | user in locks && locks[user] != call :: locks[user];
    }

    method Request(call: int, userID: int, filing: Filing, today: int) returns (refused: Option<Error>)
      requires At(call).Idle?
      modifies this
      ensures State() == Step(rules, old(State()), Action.Request(call, userID, filing, today))
      ensures refused == CheckRequest(rules, filing, today)
      ensures refused.None? ==>
                && At(call).Asked?
                && var row := At(call).row;
                && row.userID == userID && row.startDate == filing.startDate && row.endDate == filing.endDate
                && row.typeID == filing.typeID && row.workingDays == filing.workingDays
                && row.attachment == filing.attachment && row.reviewedBy.None? && row.cancelledBy.None?
                && row.status == if rules.types[filing.typeID].autoApprove then Approved else Pending
    {
      refused := CheckRequest(rules, filing, today);
      if refused.Some? { return; }
      calls := calls[call := Asked(NewRow(rules, userID, filing))];
    }

    /** SELECT ... FOR NO KEY UPDATE: waits, here `false`, while another call holds the user's row. */
    method LockUser(call: int) returns (locked: bool)
      requires At(call).Asked? && rules.HasQuota(At(call).row.typeID)
      modifies this
      ensures State() == Step(rules, old(State()), Lock(call))
      ensures locked <==> old(At(call).row.userID !in locks)
      ensures rows == old(rows)
    {
      var row := calls[call].row;
      locked := row.userID !in locks;
      if locked {
        locks := locks[row.userID := call];
        calls := calls[call := Locked(row)];
      }
    }

    method ReadBalance(call: int) returns (held: Balance)
      requires At(call).Locked?
      modifies this
      ensures State() == Step(rules, old(State()), Read(call))
      ensures var key := old(At(call)).row.Charge();
              held.RemainingDays() == Allowance(rules, key) - Charged(rows, key)
      ensures rows == old(rows) && locks == old(locks)
    {
      var row := calls[call].row;
      held := Balances(rules, rows, row.Charge());
      calls := calls[call := Informed(row, held)];
    }

    /** Insert and commit: the lock goes either way, and a refusal leaves the rows alone. */
    method Insert(call: int) returns (filed: Result<nat>)
      requires At(call).Informed? || (At(call).Asked? && !rules.HasQuota(At(call).row.typeID))
      modifies this
      ensures State() == Step(rules, old(State()), Action.Insert(call))
      ensures filed.Ok? ==> filed.value == old(|rows|) && rows == old(rows) + [old(At(call)).row]
      ensures filed.Err? ==> rows == old(rows)
      ensures filed == Err(Invalid) <==>
              old(At(call)).Informed? && old(At(call)).row.workingDays > old(At(call)).held.RemainingDays()
    {
      var row := calls[call].row;
      if calls[call].Informed? && row.workingDays > calls[call].held.RemainingDays() {
        filed := Err(Invalid);
      } else if Clashes(rows, row) {
        filed := Err(Conflict);
      } else {
        filed := Ok(|rows|);
        log := log + [Filed(|rows|, row.Charge(), row.workingDays, row.status)];
        rows := rows + [row];
      }
      Release(call);
    }

    method Cancel(call: int, claims: Claims, id: nat, today: int) returns (refused: Option<Error>)
      requires At(call).Idle?
      modifies this
      ensures State() == Step(rules, old(State()), Action.Cancel(call, claims, id, today))
      ensures refused == if id < |rows| then CheckCancel(rows[id], claims, today) else Some(NotFound)
      ensures refused.None? ==> At(call) == Settling(id, rows[id].status, Cancelled, claims.userID, today)
      ensures rows == old(rows)
    {
      if id >= |rows| { return Some(NotFound); }
      refused := CheckCancel(rows[id], claims, today);
      if refused.Some? { return; }
      calls := calls[call := Settling(id, rows[id].status, Cancelled, claims.userID, today)];
    }

    method Decide(call: int, claims: Claims, reaches: bool, id: nat, approve: bool, today: int)
      returns (refused: Option<Error>)
      requires At(call).Idle?
      modifies this
      ensures State() == Step(rules, old(State()), Action.Decide(call, claims, reaches, id, approve, today))
      ensures rows == old(rows)
      ensures refused.None? <==>
              id < |rows| && claims.userID != rows[id].userID && claims.role >= SUPERVISOR && reaches
      ensures refused.None? ==>
                && At(call).Settling? && At(call).id == id && At(call).from == Pending
                && At(call).actor == claims.userID
                && At(call).to == if approve then Approved else Rejected
    {
      if claims.role < SUPERVISOR { return Some(Forbidden); }
      if id >= |rows| { return Some(NotFound); }
      refused := CheckDecide(rows[id], claims, reaches);
      if refused.Some? { return; }
      var verdict := if approve then Approved else Rejected;
      calls := calls[call := Settling(id, Pending, verdict, claims.userID, today)];
    }

    /** The compare-and-set: UPDATE ... WHERE id = ? AND status = ?. */
    method Settle(call: int) returns (settled: Result<Row>)
      requires At(call).Settling?
      modifies this
      ensures State() == Step(rules, old(State()), Action.Settle(call))
      ensures var c := old(At(call));
              if c.id < old(|rows|) && old(rows)[c.id].status == c.from
              then settled == Ok(rows[c.id]) && rows == old(rows)[c.id := rows[c.id]] && rows[c.id].status == c.to
                   && (if c.to == Cancelled then rows[c.id].cancelledBy else rows[c.id].reviewedBy) == Some(c.actor)
              else settled == Err(Conflict) && rows == old(rows)
    {
      var Settling(id, from, to, actor, seenOn) := calls[call];
      if id >= |rows| || rows[id].status != from {
        settled := Err(Conflict);
      } else {
        var row := rows[id];
        log := log + [Moved(id, from, to, row.Charge(), row.workingDays, actor, seenOn)];
        rows := rows[id := Decided(row, to, actor)];
        settled := Ok(rows[id]);
      }
      Release(call);
    }
  }

  predicate AwayOn(row: Row, userID: int, date: int) {
    row.userID == userID && (row.status == Pending || row.status == Approved) && row.startDate <= date <= row.endDate
  }

  /** A live request of the person shares a date with the range. */
  ghost predicate Taken(rows: seq<Row>, userID: int, startDate: int, endDate: int) {
    exists i, date :: 0 <= i < |rows| && AwayOn(rows[i], userID, date) && startDate <= date <= endDate
  }

  lemma TakenIsClashing(rows: seq<Row>, row: Row)
    requires row.status.Live() && row.startDate <= row.endDate
    requires forall i :: 0 <= i < |rows| ==> rows[i].startDate <= rows[i].endDate
    ensures Taken(rows, row.userID, row.startDate, row.endDate) <==> Clashes(rows, row)
  {
    if Clashes(rows, row) {
      var i :| 0 <= i < |rows| && rows[i].status.Live() && rows[i].Overlaps(row);
      var date := Max(rows[i].startDate, row.startDate);
      assert AwayOn(rows[i], row.userID, date);
    }
  }

  /** Every limit a filing is held to, balance and dates aside. */
  predicate Fits(rules: Rules, filing: Filing, today: int) {
    && filing.typeID in rules.types && filing.startDate != 0 && filing.endDate != 0
    && filing.startDate <= filing.endDate < filing.startDate + 366 && filing.workingDays >= 1
    && var kind := rules.types[filing.typeID];
    && (kind.maxWorkingDaysPerRequest.Some? ==> filing.workingDays <= kind.maxWorkingDaysPerRequest.value)
    && (kind.attachmentRequiredFromDays.Some? ==>
          filing.workingDays < kind.attachmentRequiredFromDays.value || filing.attachment)
    && (kind.quotaDaysPerYear.Some? ==> Year(today) <= Year(filing.startDate) == Year(filing.endDate))
  }

  /**
   A filing nothing interferes with is stored, as it was filed, exactly when it fits its limits, what remains of a quota
   covers it, and its dates are free; otherwise nothing changes.
   */
  lemma FilingAlone(rules: Rules, s: State, call: int, userID: int, filing: Filing, today: int)
    requires s.At(call).Idle? && userID !in s.locks
    requires forall i :: 0 <= i < |s.rows| ==> s.rows[i].startDate <= s.rows[i].endDate
    ensures var steps := [Action.Request(call, userID, filing, today), Lock(call), Read(call), Action.Insert(call)];
            var t := Run(rules, s, steps);
            if Fits(rules, filing, today) && !Taken(s.rows, userID, filing.startDate, filing.endDate)
               && (rules.types[filing.typeID].quotaDaysPerYear.Some? ==>
                     filing.workingDays
                     <= Balances(rules, s.rows, Key(userID, filing.typeID, Year(filing.startDate))).RemainingDays())
            then t.rows == s.rows
                 + [Row(userID, filing.typeID, filing.startDate, filing.endDate, filing.workingDays,
                        if rules.types[filing.typeID].autoApprove then Approved else Pending, filing.attachment,
                        None, None)]
            else t.rows == s.rows
  {
    var request := Action.Request(call, userID, filing, today);
    FourSteps(rules, s, request, Lock(call), Read(call), Action.Insert(call));
    FitsIsAccepted(rules, filing, today);
    var s1 := Step(rules, s, request);
    if Fits(rules, filing, today) {
      var row := NewRow(rules, userID, filing);
      TakenIsClashing(s.rows, row);
      AskedIsInserted(rules, s1, call, row);
    } else {
      assert s1 == s;
    }
  }

  lemma FitsIsAccepted(rules: Rules, filing: Filing, today: int)
    ensures Fits(rules, filing, today) <==> CheckRequest(rules, filing, today).None?
  {
  }

  /** Lock, read and insert of a call that has asked, with its user's row free. */
  lemma AskedIsInserted(rules: Rules, s: State, call: int, row: Row)
    requires s.At(call) == Asked(row) && row.userID !in s.locks
    ensures var t := Step(rules, Step(rules, Step(rules, s, Lock(call)), Read(call)), Action.Insert(call));
            t.rows == if rules.HasQuota(row.typeID)
                         && row.workingDays > Balances(rules, s.rows, row.Charge()).RemainingDays()
                      then s.rows else Stored(s, row).rows
  {
    var t := Step(rules, s, Lock(call));
    assert t.rows == s.rows;
    if rules.HasQuota(row.typeID) {
      var u := Step(rules, t, Read(call));
      assert u.At(call) == Informed(row, Balances(rules, s.rows, row.Charge())) && u.rows == s.rows;
    }
  }

  lemma FourSteps(rules: Rules, s: State, a: Action, b: Action, c: Action, d: Action)
    ensures Run(rules, s, [a, b, c, d]) == Step(rules, Step(rules, Step(rules, Step(rules, s, a), b), c), d)
  {
    RunStep(rules, s, [a, b, c, d]);
    RunStep(rules, Step(rules, s, a), [b, c, d]);
    RunStep(rules, Step(rules, Step(rules, s, a), b), [c, d]);
    RunStep(rules, Step(rules, Step(rules, Step(rules, s, a), b), c), [d]);
  }

  lemma RunStep(rules: Rules, s: State, actions: seq<Action>)
    requires actions != []
    ensures Run(rules, s, actions) == Run(rules, Step(rules, s, actions[0]), actions[1..])
  {
  }

  /**
   A decision nothing interferes with approves or rejects, as it was told to, exactly when the request is pending and the
   caller a supervisor or above who reaches the owner and is not the owner; it names the caller and changes nothing
   else.
   */
  lemma DecisionAlone(
    rules: Rules, s: State, call: int, claims: Claims, reaches: bool, id: nat, approve: bool, today: int)
    requires s.At(call).Idle?
    ensures var begun := Step(rules, s, Action.Decide(call, claims, reaches, id, approve, today));
            var t := Step(rules, begun, Action.Settle(call));
            if id < |s.rows| && s.rows[id].status == Pending && claims.role >= SUPERVISOR && reaches
               && claims.userID != s.rows[id].userID
            then t.rows == s.rows[id := s.rows[id].(status := if approve then Approved else Rejected,
                                                    reviewedBy := Some(claims.userID))]
            else t.rows == s.rows
  {
  }

  /**
   A cancellation nothing interferes with takes back a pending request, or an approved one that has not started, of the
   caller's own, or any pending or approved one of someone else for hr_admin; it names the caller and changes nothing
   else.
   */
  lemma CancellationAlone(rules: Rules, s: State, call: int, claims: Claims, id: nat, today: int)
    requires s.At(call).Idle?
    ensures var t := Step(rules, Step(rules, s, Action.Cancel(call, claims, id, today)), Action.Settle(call));
            if id < |s.rows| && (s.rows[id].status == Pending || s.rows[id].status == Approved)
               && (if claims.userID != s.rows[id].userID then claims.role >= HR_ADMIN
                   else s.rows[id].status == Pending || today < s.rows[id].startDate)
            then t.rows == s.rows[id := s.rows[id].(status := Cancelled, cancelledBy := Some(claims.userID))]
            else t.rows == s.rows
  {
  }
}
