/** Creating, moving and removing employees, one call after another, and what each does to who is above whom. */
module Directory {
  import opened Common
  import opened Hierarchy

  const EMPLOYEE := 1

  datatype Company = Company(users: Users, nextID: int)

  const NOBODY := Company(map[], 1)

  datatype Op =
    | Create(claims: Claims, managerID: Option<int>)
    | Replace(claims: Claims, id: int, managerID: Option<int>, active: bool)
    | Delete(claims: Claims, id: int)
    | ChangeRole(claims: Claims, id: int, role: int)

  /** Whether making `m` manager of `id` would dangle or close a loop; a new user has the id 0, which nobody has. */
  ghost function ManagerRefused(users: Users, id: int, managerID: Option<int>): bool {
    match managerID
    case None => false
    case Some(m) => m == id || !Live(users, m) || Below(users, id, m)
  }

  // ---- what each accepted edit does to the table ----

  function Hired(c: Company, managerID: Option<int>): Company {
    Company(c.users[c.nextID := User(managerID, false, EMPLOYEE, true)], c.nextID + 1)
  }

  function Moved(users: Users, id: int, managerID: Option<int>, active: bool): Users
    requires id in users
  {
    users[id := users[id].(managerID := managerID, active := active)]
  }

  /** The leaver's reports move up to the leaver's own manager, and the row stays, marked deleted. */
  function Removed(users: Users, id: int): Users
    requires id in users
  {
    map x | x in users ::
      if x == id then users[id].(deleted := true)
      else if ReportsTo(users, x, id) then users[x].(managerID := users[id].managerID)
      else users[x]
  }

  ghost function Refused(c: Company, op: Op): Option<Error> {
    match op
    case Create(claims, managerID) =>
      if claims.role < HR_ADMIN then Some(Forbidden)
      else if ManagerRefused(c.users, 0, managerID) then Some(Invalid) else None
    case Replace(claims, id, managerID, active) =>
      if claims.role < HR_ADMIN then Some(Forbidden)
      else if id == claims.userID && !active then Some(Invalid)
      else if !Live(c.users, id) then Some(NotFound)
      else if claims.role < c.users[id].role then Some(Forbidden)
      else if ManagerRefused(c.users, id, managerID) then Some(Invalid) else None
    case Delete(claims, id) =>
      if claims.role < HR_ADMIN then Some(Forbidden)
      else if id == claims.userID then Some(Invalid)
      else if !Live(c.users, id) then Some(NotFound)
      else if claims.role < c.users[id].role then Some(Forbidden) else None
    case ChangeRole(claims, id, role) =>
      if claims.role < SUPER_ADMIN then Some(Forbidden)
      else if role < EMPLOYEE || role > SUPER_ADMIN || id == claims.userID then Some(Invalid)
      else if !Live(c.users, id) then Some(NotFound) else None
  }

  ghost function Apply(c: Company, op: Op): Company {
    if Refused(c, op).Some? then c
    else
      match op
      case Create(_, managerID) => Hired(c, managerID)
      case Replace(_, id, managerID, active) => c.(users := Moved(c.users, id, managerID, active))
      case Delete(_, id) => c.(users := Removed(c.users, id))
      case ChangeRole(_, id, role) => c.(users := c.users[id := c.users[id].(role := role)])
  }

  ghost function Run(c: Company, ops: seq<Op>): Company
    decreases |ops|
  {
    if ops == [] then c else Run(Apply(c, ops[0]), ops[1..])
  }

  // ---- the invariant: managers are live, and someone's rank is always above their manager's ----

  ghost predicate ManagersLive(users: Users) {
    forall x, m :: ReportsTo(users, x, m) ==> Live(users, m)
  }

  ghost predicate Ranked(users: Users, rank: map<int, nat>) {
    && (forall x :: x in users ==> x in rank)
    && forall x, m :: ReportsTo(users, x, m) ==> m in users && rank[m] < rank[x]
  }

  ghost predicate Valid(c: Company) {
    && c.nextID >= 1
    && (forall x :: x in c.users ==> 1 <= x < c.nextID)
    && (forall x :: x in c.users && c.users[x].managerID.Some? ==> c.users[x].managerID.value in c.users)
    && ManagersLive(c.users)
    && exists rank :: Ranked(c.users, rank)
  }

  /** Nobody is above themselves. */
  ghost predicate Acyclic(users: Users) { forall x :: !Below(users, x, x) }

  lemma {:induction false} ClimbRaises(users: Users, rank: map<int, nat>, id: int, top: int, steps: nat)
    requires Ranked(users, rank) && Climbs(users, id, top, steps)
    ensures id in users && top in users && rank[top] < rank[id]
    decreases steps
  {
    var m := users[id].managerID.value;
    assert ReportsTo(users, id, m);
    if steps > 1 { ClimbRaises(users, rank, m, top, steps - 1); }
  }

  lemma BelowRaises(users: Users, rank: map<int, nat>, id: int, top: int)
    requires Ranked(users, rank) && Below(users, top, id)
    ensures id in users && top in users && rank[top] < rank[id]
  {
    var steps: nat :| Climbs(users, id, top, steps);
    ClimbRaises(users, rank, id, top, steps);
  }

  lemma ValidIsAcyclic(c: Company)
    requires Valid(c)
    ensures Acyclic(c.users)
  {
    var rank :| Ranked(c.users, rank);
    forall x ensures !Below(c.users, x, x) {
      if Below(c.users, x, x) { BelowRaises(c.users, rank, x, x); }
    }
  }

  lemma HiredIsValid(c: Company, managerID: Option<int>)
    requires Valid(c) && !ManagerRefused(c.users, 0, managerID)
    ensures Valid(Hired(c, managerID))
  {
    var rank :| Ranked(c.users, rank);
    var d := Hired(c, managerID);
    var above := if managerID.Some? then rank[managerID.value] else 0;
    forall x, m | ReportsTo(d.users, x, m) ensures Live(d.users, m) && m != c.nextID {
      if x != c.nextID { assert ReportsTo(c.users, x, m); }
    }
    assert Ranked(d.users, rank[c.nextID := above + 1]) by {
      forall x, m | ReportsTo(d.users, x, m) ensures rank[c.nextID := above + 1][m] < rank[c.nextID := above + 1][x] {
        if x != c.nextID { assert ReportsTo(c.users, x, m); }
      }
    }
  }

  /** Ranks for the edited table: the moved branch is lifted above its new manager. */
  lemma MovedIsRanked(users: Users, id: int, managerID: Option<int>, active: bool, rank: map<int, nat>)
    returns (lifted: map<int, nat>)
    requires Ranked(users, rank) && Live(users, id) && !ManagerRefused(users, id, managerID)
    ensures Ranked(Moved(users, id, managerID, active), lifted)
  {
    var after := Moved(users, id, managerID, active);
    var lift := if managerID.Some? then rank[managerID.value] + 1 else 0;
    lifted := map x | x in users :: if x == id || Below(users, id, x) then rank[x] + lift else rank[x];
    forall x, m | ReportsTo(after, x, m) ensures m in after && lifted[m] < lifted[x] {
      if x != id {
        assert ReportsTo(users, x, m);
        BelowThroughManager(users, id, x);
      }
    }
  }

  lemma MovedIsValid(c: Company, id: int, managerID: Option<int>, active: bool)
    requires Valid(c) && Live(c.users, id) && !ManagerRefused(c.users, id, managerID)
    ensures Valid(c.(users := Moved(c.users, id, managerID, active)))
  {
    var rank :| Ranked(c.users, rank);
    var d := c.(users := Moved(c.users, id, managerID, active));
    forall x, m | ReportsTo(d.users, x, m) ensures Live(d.users, m) {
      if x != id { assert ReportsTo(c.users, x, m); }
    }
    forall x | x in d.users && d.users[x].managerID.Some? ensures d.users[x].managerID.value in d.users {
      if x != id { assert c.users[x].managerID.value in c.users; }
    }
    assert ManagersLive(d.users);
    var lifted := MovedIsRanked(c.users, id, managerID, active, rank);
    assert Ranked(d.users, lifted);
  }

  lemma RemovedIsValid(c: Company, id: int)
    requires Valid(c) && Live(c.users, id)
    ensures Valid(c.(users := Removed(c.users, id)))
  {
    var rank :| Ranked(c.users, rank);
    var users := Removed(c.users, id);
    forall x, m | ReportsTo(users, x, m) ensures Live(users, m) && rank[m] < rank[x] {
      if ReportsTo(c.users, x, id) {
        assert ReportsTo(c.users, id, m);
      } else {
        assert ReportsTo(c.users, x, m);
      }
    }
    assert Ranked(users, rank);
  }

  lemma ApplyKeepsValid(c: Company, op: Op)
    requires Valid(c)
    ensures Valid(Apply(c, op))
  {
    if Refused(c, op).None? {
      match op
      case Create(_, managerID) => HiredIsValid(c, managerID);
      case Replace(_, id, managerID, active) => MovedIsValid(c, id, managerID, active);
      case Delete(_, id) => RemovedIsValid(c, id);
      case ChangeRole(_, id, role) =>
        var d := Apply(c, op);
        forall x, m ensures ReportsTo(d.users, x, m) <==> ReportsTo(c.users, x, m) {}
        var rank :| Ranked(c.users, rank);
        assert Ranked(d.users, rank);
    }
  }

  lemma {:induction false} RunKeepsValid(c: Company, ops: seq<Op>)
    requires Valid(c)
    ensures Valid(Run(c, ops))
    decreases |ops|
  {
    if ops != [] {
      ApplyKeepsValid(c, ops[0]);
      RunKeepsValid(Apply(c, ops[0]), ops[1..]);
    }
  }

  /** Starting with nobody, every sequence of edits keeps the hierarchy free of loops and every manager live. */
  lemma HierarchyStaysSound(ops: seq<Op>)
    ensures Acyclic(Run(NOBODY, ops).users) && ManagersLive(Run(NOBODY, ops).users)
  {
    var rank: map<int, nat> := map[];
    assert Ranked(NOBODY.users, rank);
    RunKeepsValid(NOBODY, ops);
    ValidIsAcyclic(Run(NOBODY, ops));
  }

  /** So no history of edits lets two people without an admin's role decide about each other. */
  lemma ReachIsOneWay(ops: seq<Op>, one: Claims, other: Claims)
    requires one.role < HR_ADMIN && other.role < HR_ADMIN && one.userID != other.userID
    requires Reaches(Run(NOBODY, ops).users, one, other.userID)
    ensures !Reaches(Run(NOBODY, ops).users, other, one.userID)
  {
    HierarchyStaysSound(ops);
    var users := Run(NOBODY, ops).users;
    if Below(users, other.userID, one.userID) {
      BelowIsTransitive(users, one.userID, other.userID, one.userID);
    }
  }

  // ---- removing someone changes nothing between the rest ----

  lemma {:induction false} RemovedKeepsClimbs(users: Users, rank: map<int, nat>, id: int, x: int, top: int, steps: nat)
    requires Ranked(users, rank) && id in users && x != id && top != id && Climbs(users, x, top, steps)
    ensures Below(Removed(users, id), top, x)
    decreases steps
  {
    var after := Removed(users, id);
    var m := users[x].managerID.value;
    assert ReportsTo(users, x, m);
    if m == id {
      var up := users[id].managerID.value;
      assert Climbs(users, id, top, steps - 1) && ReportsTo(users, id, up);
      if steps > 2 { RemovedKeepsClimbs(users, rank, id, up, top, steps - 2); }
    } else if steps > 1 {
      RemovedKeepsClimbs(users, rank, id, m, top, steps - 1);
    }
    BelowThroughManager(after, top, x);
  }

  lemma {:induction false} RemovedAddsNoClimbs(users: Users, id: int, x: int, top: int, steps: nat)
    requires Live(users, id) && x != id && Climbs(Removed(users, id), x, top, steps)
    ensures Below(users, top, x)
    decreases steps
  {
    var after := Removed(users, id);
    var m := after[x].managerID.value;
    if steps > 1 {
      assert Climbs(after, m, top, steps - 1);
      assert m != id;
      RemovedAddsNoClimbs(users, id, m, top, steps - 1);
    }
    if ReportsTo(users, x, id) { BelowThroughManager(users, top, id); }
    BelowThroughManager(users, top, x);
  }

  /** Deleting someone leaves "a is above b" as it was for everyone who remains. */
  lemma RemovedKeepsEveryoneElse(c: Company, id: int, top: int, x: int)
    requires Valid(c) && Live(c.users, id) && top != id && x != id
    ensures Below(Removed(c.users, id), top, x) <==> Below(c.users, top, x)
  {
    var rank :| Ranked(c.users, rank);
    if Below(c.users, top, x) {
      var steps: nat :| Climbs(c.users, x, top, steps);
      RemovedKeepsClimbs(c.users, rank, id, x, top, steps);
    }
    if Below(Removed(c.users, id), top, x) {
      var steps: nat :| Climbs(Removed(c.users, id), x, top, steps);
      RemovedAddsNoClimbs(c.users, id, x, top, steps);
    }
  }

  /** And nobody is below, or above, the one who left. */
  lemma RemovedIsOut(c: Company, id: int, x: int)
    requires Valid(c) && Live(c.users, id)
    ensures !Below(Removed(c.users, id), id, x) && !Below(Removed(c.users, id), x, id)
  {
    var d := c.(users := Removed(c.users, id));
    RemovedIsValid(c, id);
    if Below(d.users, id, x) {
      var steps: nat :| Climbs(d.users, x, id, steps);
      LastStepUp(d.users, x, id, steps);
    }
  }

  lemma {:induction false} LastStepUp(users: Users, x: int, top: int, steps: nat)
    requires Climbs(users, x, top, steps)
    ensures exists y :: ReportsTo(users, y, top)
    decreases steps
  {
    if steps == 1 {
      assert ReportsTo(users, x, top);
    } else {
      LastStepUp(users, users[x].managerID.value, top, steps - 1);
    }
  }

  // ---- moving someone moves their branch with them, and only that ----

  lemma {:induction false} MovedKeepsClimbs(before: Users, after: Users, id: int, x: int, top: int, steps: nat)
    requires x != id && !Below(before, id, x)
    requires forall y :: y != id ==> (y in before <==> y in after) && (y in before ==> after[y] == before[y])
    requires Climbs(before, x, top, steps) || Climbs(after, x, top, steps)
    ensures Climbs(before, x, top, steps) && Climbs(after, x, top, steps)
    decreases steps
  {
    var m := before[x].managerID.value;
    BelowThroughManager(before, id, x);
    if steps > 1 { MovedKeepsClimbs(before, after, id, m, top, steps - 1); }
  }

  /** Someone outside the moved branch keeps everyone above them; whoever moved is below their new line only. */
  lemma MovedChangesTheBranchOnly(c: Company, id: int, managerID: Option<int>, active: bool, top: int, x: int)
    requires Valid(c) && Live(c.users, id) && !ManagerRefused(c.users, id, managerID)
    ensures var after := Moved(c.users, id, managerID, active);
            && (x != id && !Below(c.users, id, x) ==> (Below(after, top, x) <==> Below(c.users, top, x)))
            && (Below(after, top, id) <==>
                managerID.Some? && (top == managerID.value || Below(c.users, top, managerID.value)))
  {
    var after := Moved(c.users, id, managerID, active);
    MovedOutside(c.users, after, id, top, x);
    if managerID.Some? {
      BelowThroughManager(after, top, id);
      MovedOutside(c.users, after, id, top, managerID.value);
    }
  }

  /** Above someone in the moved branch: whoever was between, the one who moved, and the new line of that one. */
  lemma MovedTakesTheBranchAlong(c: Company, id: int, managerID: Option<int>, active: bool, top: int, x: int)
    requires Valid(c) && Live(c.users, id) && !ManagerRefused(c.users, id, managerID) && Below(c.users, id, x)
    ensures Below(Moved(c.users, id, managerID, active), top, x) <==>
              || top == id
              || (Below(c.users, id, top) && Below(c.users, top, x))
              || (managerID.Some? && (top == managerID.value || Below(c.users, top, managerID.value)))
  {
    var steps: nat :| Climbs(c.users, x, id, steps);
    MovedBranchClimb(c, id, managerID, active, top, x, steps);
  }

  lemma {:induction false} MovedBranchClimb(
    c: Company, id: int, managerID: Option<int>, active: bool, top: int, x: int, steps: nat)
    requires Valid(c) && Live(c.users, id) && !ManagerRefused(c.users, id, managerID) && Climbs(c.users, x, id, steps)
    ensures Below(Moved(c.users, id, managerID, active), top, x) <==>
              || top == id
              || (Below(c.users, id, top) && Below(c.users, top, x))
              || (managerID.Some? && (top == managerID.value || Below(c.users, top, managerID.value)))
    decreases steps
  {
    var after := Moved(c.users, id, managerID, active);
    ValidIsAcyclic(c);
    assert Below(c.users, id, x) && x != id;
    var m := c.users[x].managerID.value;
    BelowThroughManager(after, top, x);
    BelowThroughManager(c.users, top, x);
    if steps == 1 {
      MovedChangesTheBranchOnly(c, id, managerID, active, top, x);
      if Below(c.users, id, top) && Below(c.users, top, id) { BelowIsTransitive(c.users, id, top, id); }
    } else {
      MovedBranchClimb(c, id, managerID, active, top, m, steps - 1);
      assert Climbs(c.users, m, id, steps - 1);
    }
  }

  lemma MovedOutside(before: Users, after: Users, id: int, top: int, x: int)
    requires forall y :: y != id ==> (y in before <==> y in after) && (y in before ==> after[y] == before[y])
    ensures x != id && !Below(before, id, x) ==> (Below(after, top, x) <==> Below(before, top, x))
  {
    if x != id && !Below(before, id, x) {
      if Below(before, top, x) {
        var steps: nat :| Climbs(before, x, top, steps);
        MovedKeepsClimbs(before, after, id, x, top, steps);
      }
      if Below(after, top, x) {
        var steps: nat :| Climbs(after, x, top, steps);
        MovedKeepsClimbs(before, after, id, x, top, steps);
      }
    }
  }

  // ---- the last super_admin ----

  /** Able to sign in, and to grant roles. */
  predicate InCharge(users: Users, id: int) { Live(users, id) && users[id].active && users[id].role == SUPER_ADMIN }

  ghost predicate Governed(users: Users) { exists id :: InCharge(users, id) }

  ghost predicate RolesKnown(users: Users) { forall id :: id in users ==> EMPLOYEE <= users[id].role <= SUPER_ADMIN }

  /** What an edit would have to do to `id` to leave nobody in charge, were `id` the only one. */
  ghost predicate Unseats(c: Company, op: Op, id: int) {
    match op
    case Create(_, _) => false
    case Replace(_, target, managerID, active) => target == id && !active && !ManagerRefused(c.users, id, managerID)
    case Delete(_, target) => target == id
    case ChangeRole(_, target, role) => target == id && EMPLOYEE <= role < SUPER_ADMIN
  }

  /**
   An edit leaves nobody in charge exactly when a caller whose claims still say super_admin unseats the only one who is,
   and is not that one.
   */
  lemma LosesTheLastExactlyWhen(c: Company, op: Op, last: int)
    requires Valid(c) && RolesKnown(c.users) && InCharge(c.users, last)
    ensures RolesKnown(Apply(c, op).users)
    ensures !Governed(Apply(c, op).users) <==>
              && (forall id :: InCharge(c.users, id) ==> id == last)
              && Unseats(c, op, last) && op.claims.role >= SUPER_ADMIN && op.claims.userID != last
  {
    var d := Apply(c, op);
    forall id | InCharge(c.users, id) && !Unseats(c, op, id) ensures InCharge(d.users, id) {}
    if op.claims.role >= SUPER_ADMIN && op.claims.userID != last && Unseats(c, op, last) {
      forall id ensures InCharge(d.users, id) <==> id != last && InCharge(c.users, id) {}
    } else {
      assert InCharge(d.users, last);
    }
  }

  /** Callers who are who their claims say they are, as the table stands when each edit comes. */
  ghost predicate CallersAsStored(c: Company, ops: seq<Op>)
    decreases |ops|
  {
    ops != [] ==>
      var caller := ops[0].claims;
      && Live(c.users, caller.userID) && c.users[caller.userID].active && c.users[caller.userID].role == caller.role
      && CallersAsStored(Apply(c, ops[0]), ops[1..])
  }

  /** No sequence of edits by callers as stored ever removes, disables or demotes the last super_admin. */
  lemma {:induction false} SomeoneStaysInCharge(c: Company, ops: seq<Op>)
    requires Valid(c) && RolesKnown(c.users) && Governed(c.users) && CallersAsStored(c, ops)
    ensures Governed(Run(c, ops).users)
    decreases |ops|
  {
    if ops != [] {
      var last :| InCharge(c.users, last);
      LosesTheLastExactlyWhen(c, ops[0], last);
      ApplyKeepsValid(c, ops[0]);
      if ops[0].claims.role >= SUPER_ADMIN { assert InCharge(c.users, ops[0].claims.userID); }
      SomeoneStaysInCharge(Apply(c, ops[0]), ops[1..]);
    }
  }

  /** An access token outlives the role it names: two super_admins can demote each other, and nobody is left. */
  lemma StaleClaimsLoseTheLast() returns (c: Company, ops: seq<Op>)
    ensures Valid(c) && RolesKnown(c.users) && InCharge(c.users, 1) && InCharge(c.users, 2)
    ensures ops == [ChangeRole(Claims(1, SUPER_ADMIN), 2, EMPLOYEE)] + [ChangeRole(Claims(2, SUPER_ADMIN), 1, EMPLOYEE)]
    ensures !Governed(Run(c, ops).users)
  {
    var admin := User(None, false, SUPER_ADMIN, true);
    c := Company(map[1 := admin, 2 := admin], 3);
    var first := ChangeRole(Claims(1, SUPER_ADMIN), 2, EMPLOYEE);
    var second := ChangeRole(Claims(2, SUPER_ADMIN), 1, EMPLOYEE);
    ops := [first] + [second];
    assert Ranked(c.users, map[1 := 0, 2 := 0]);
    var d := Apply(c, first);
    assert InCharge(d.users, 1) && !InCharge(d.users, 2);
    assert ops[1..] == [second];
    var e := Apply(d, second);
    assert Run(d, [second]) == Run(e, [second][1..]) == e;
    assert e.users.Keys == {1, 2};
  }

  // ---- the repository, updated in place ----

  predicate HasManager(users: Users, id: int, managerID: Option<int>) {
    Live(users, id) && users[id].managerID == managerID
  }

  class Repository {
    var users: Users
    var nextID: int

    ghost function State(): Company
      reads this
    {
      Company(users, nextID)
    }

    constructor ()
      ensures State() == NOBODY
    {
      users, nextID := map[], 1;
    }

    method CheckManagerFor(id: int, managerID: Option<int>) returns (refused: bool)
      ensures refused <==> ManagerRefused(users, id, managerID)
    {
      if managerID.None? { return false; }
      if managerID.value == id || !Live(users, managerID.value) { return true; }
      refused := InSubtree(users, id, managerID.value);
    }

    method Create(claims: Claims, managerID: Option<int>) returns (created: Result<int>)
      modifies this
      ensures State() == Apply(old(State()), Op.Create(claims, managerID))
      ensures created.Err? ==> State() == old(State())
      ensures created.Ok? <==> claims.role >= HR_ADMIN && !ManagerRefused(old(users), 0, managerID)
      ensures created.Ok? ==>
                && created.value == old(nextID) && HasManager(users, created.value, managerID)
                && users == old(users)[created.value := User(managerID, false, EMPLOYEE, true)]
    {
      if claims.role < HR_ADMIN { return Err(Forbidden); }
      var refused := CheckManagerFor(0, managerID);
      if refused { return Err(Invalid); }
      users := users[nextID := User(managerID, false, EMPLOYEE, true)];
      nextID := nextID + 1;
      return Ok(nextID - 1);
    }

    method Replace(claims: Claims, id: int, managerID: Option<int>, active: bool) returns (refused: Option<Error>)
      modifies this
      ensures State() == Apply(old(State()), Op.Replace(claims, id, managerID, active))
      ensures refused == Refused(old(State()), Op.Replace(claims, id, managerID, active))
      ensures refused.None? <==>
                && claims.role >= HR_ADMIN && (id == claims.userID ==> active) && Live(old(users), id)
                && claims.role >= old(users)[id].role && !ManagerRefused(old(users), id, managerID)
      ensures refused.None? ==> users == old(users)[id := old(users)[id].(managerID := managerID, active := active)]
      ensures refused.Some? ==> State() == old(State())
    {
      if claims.role < HR_ADMIN { return Some(Forbidden); }
      if id == claims.userID && !active { return Some(Invalid); }
      if !Live(users, id) { return Some(NotFound); }
      if claims.role < users[id].role { return Some(Forbidden); }
      var invalid := CheckManagerFor(id, managerID);
      if invalid { return Some(Invalid); }
      users := users[id := users[id].(managerID := managerID, active := active)];
      return None;
    }

    method ChangeRole(claims: Claims, id: int, role: int) returns (refused: Option<Error>)
      modifies this
      ensures State() == Apply(old(State()), Op.ChangeRole(claims, id, role))
      ensures refused == Refused(old(State()), Op.ChangeRole(claims, id, role))
      ensures refused.None? <==>
                claims.role >= SUPER_ADMIN && id != claims.userID && Live(old(users), id) && role in {1, 2, 3, 4}
      ensures users == if refused.None? then old(users)[id := old(users)[id].(role := role)] else old(users)
    {
      if claims.role < SUPER_ADMIN { return Some(Forbidden); }
      if role < EMPLOYEE || role > SUPER_ADMIN { return Some(Invalid); }
      if id == claims.userID { return Some(Invalid); }
      if !Live(users, id) { return Some(NotFound); }
      users := users[id := users[id].(role := role)];
      return None;
    }

    method Delete(claims: Claims, id: int) returns (refused: Option<Error>)
      modifies this
      ensures State() == Apply(old(State()), Op.Delete(claims, id))
      ensures refused == Refused(old(State()), Op.Delete(claims, id))
      ensures refused.None? <==>
                && claims.role >= HR_ADMIN && id != claims.userID
                && Live(old(users), id) && claims.role >= old(users)[id].role
      ensures refused.None? ==> users == Removed(old(users), id)
      ensures refused.Some? ==> State() == old(State())
    {
      if claims.role < HR_ADMIN { return Some(Forbidden); }
      if id == claims.userID { return Some(Invalid); }
      if !Live(users, id) { return Some(NotFound); }
      if claims.role < users[id].role { return Some(Forbidden); }
      SoftDelete(id);
      return None;
    }

    /** Two updates in one transaction: the reports move up first, then the row is marked. */
    method SoftDelete(id: int)
      requires Live(users, id)
      modifies this
      ensures users == Removed(old(users), id) && nextID == old(nextID)
    {
      var leaver := users[id];
      users := map x | x in users ::
        if ReportsTo(users, x, id) then users[x].(managerID := leaver.managerID) else users[x];
      users := users[id := users[id].(deleted := true)];
    }
  }
}
