/**
 The manager hierarchy: who is below whom, and the recursive query that lists a subtree.
 */
module Hierarchy {
  import opened Common

  datatype User = User(managerID: Option<int>, deleted: bool, role: int, active: bool)

  type Users = map<int, User>

  predicate Live(users: Users, id: int) { id in users && !users[id].deleted }

  predicate ReportsTo(users: Users, id: int, managerID: int) {
    Live(users, id) && users[id].managerID == Some(managerID)
  }

  /** `id` reaches `top` by going up `steps` managers, live users all the way until `top` itself. */
  ghost predicate Climbs(users: Users, id: int, top: int, steps: nat)
    decreases steps
  {
    && steps >= 1
    && Live(users, id)
    && users[id].managerID.Some?
    && (if steps == 1 then users[id].managerID.value == top
        else Climbs(users, users[id].managerID.value, top, steps - 1))
  }

  ghost predicate Below(users: Users, top: int, id: int) { exists steps: nat :: Climbs(users, id, top, steps) }

  lemma ReportIsBelow(users: Users, top: int, id: int)
    requires ReportsTo(users, id, top)
    ensures Below(users, top, id)
  {
    assert Climbs(users, id, top, 1);
  }

  /** Anyone but a direct report is below through their own manager, and conversely. */
  lemma BelowThroughManager(users: Users, top: int, id: int)
    requires Live(users, id) && users[id].managerID.Some?
    ensures Below(users, top, id) <==> users[id].managerID.value == top || Below(users, top, users[id].managerID.value)
  {
    var m := users[id].managerID.value;
    if Below(users, top, id) {
      var steps: nat :| Climbs(users, id, top, steps);
      if steps > 1 { assert Climbs(users, m, top, steps - 1); }
    }
    if m == top { ReportIsBelow(users, top, id); }
    if Below(users, top, m) {
      var steps: nat :| Climbs(users, m, top, steps);
      assert Climbs(users, id, top, steps + 1);
    }
  }

  lemma {:induction false} ClimbsOn(users: Users, id: int, middle: int, top: int, steps: nat)
    requires Climbs(users, id, middle, steps) && Below(users, top, middle)
    ensures Below(users, top, id)
    decreases steps
  {
    if steps > 1 { ClimbsOn(users, users[id].managerID.value, middle, top, steps - 1); }
    BelowThroughManager(users, top, id);
  }

  lemma BelowIsTransitive(users: Users, top: int, middle: int, id: int)
    requires Below(users, top, middle) && Below(users, middle, id)
    ensures Below(users, top, id)
  {
    var steps: nat :| Climbs(users, id, middle, steps);
    ClimbsOn(users, id, middle, top, steps);
  }

  // ---- the recursive query ----

  /**
   A row of the recursive query as its CYCLE clause builds it: the path holds every id visited, and a row whose id the
   path before it already held is marked and goes no further.
   */
  datatype PathRow = PathRow(id: int, isCycle: bool, path: seq<int>)

  function First(id: int): PathRow { PathRow(id, false, [id]) }

  function Next(row: PathRow, id: int): PathRow { PathRow(id, id in row.path, row.path + [id]) }

  predicate Distinct(path: seq<int>) { forall i, j :: 0 <= i < j < |path| ==> path[i] != path[j] }

  predicate DistinctFront(path: seq<int>) { forall i, j :: 0 <= i < j < |path| - 1 ==> path[i] != path[j] }

  /** A path down from `top`: each id is a live user who reports to the one before it. */
  ghost predicate IsPath(users: Users, top: int, path: seq<int>) {
    && (path != [] ==> ReportsTo(users, path[0], top))
    && forall i, j :: 0 <= i && j == i + 1 && j < |path| ==> ReportsTo(users, path[j], path[i])
  }

  ghost predicate RowOk(users: Users, top: int, row: PathRow) {
    && row.path != [] && row.id == row.path[|row.path| - 1]
    && IsPath(users, top, row.path)
    && DistinctFront(row.path)
    && (!row.isCycle <==> Distinct(row.path))
  }

  lemma PathAppend(users: Users, top: int, path: seq<int>, id: int)
    requires path != []
    ensures IsPath(users, top, path + [id]) <==> IsPath(users, top, path) && ReportsTo(users, id, path[|path| - 1])
  {
    var longer := path + [id];
    assert longer[|path|] == id && longer[|path| - 1] == path[|path| - 1];
    assert forall i :: 0 <= i < |path| ==> longer[i] == path[i];
  }

  lemma DistinctAppend(path: seq<int>, id: int)
    ensures Distinct(path + [id]) <==> Distinct(path) && id !in path
  {
    var longer := path + [id];
    assert forall i :: 0 <= i < |path| ==> longer[i] == path[i];
    assert longer[|path|] == id;
  }

  lemma NextIsOk(users: Users, top: int, row: PathRow, id: int)
    requires RowOk(users, top, row) && !row.isCycle && ReportsTo(users, id, row.id)
    ensures RowOk(users, top, Next(row, id))
  {
    PathAppend(users, top, row.path, id);
    DistinctAppend(row.path, id);
    assert forall i :: 0 <= i < |row.path| ==> Next(row, id).path[i] == row.path[i];
  }

  lemma {:induction false} DistinctFits(path: seq<int>, ids: set<int>)
    requires Distinct(path) && forall i :: 0 <= i < |path| ==> path[i] in ids
    ensures |path| <= |ids|
    decreases |path|
  {
    if path != [] {
      var last := path[|path| - 1];
      DistinctFits(path[..|path| - 1], ids - {last});
    }
  }

  /** Every loopless path of at most `depth` ids has its row among those found. */
  ghost predicate Complete(users: Users, top: int, found: set<PathRow>, depth: nat) {
    forall path :: 0 < |path| <= depth && IsPath(users, top, path) && Distinct(path) ==>
      PathRow(path[|path| - 1], false, path) in found
  }

  /** The base rows, and the join of the last round's rows with the live users reporting to them. */
  function Base(users: Users, top: int): set<PathRow> {
    set id | id in users.Keys && ReportsTo(users, id, top) :: First(id)
  }

  function Join(users: Users, working: set<PathRow>): set<PathRow> {
    set id, row | id in users.Keys && row in working && !row.isCycle && ReportsTo(users, id, row.id) :: Next(row, id)
  }

  /** What holds after each round: round `depth` added exactly the rows whose path is that long. */
  ghost predicate Round(users: Users, top: int, found: set<PathRow>, working: set<PathRow>, depth: nat) {
    && depth >= 1
    && (working != {} ==> depth <= |users.Keys| + 1)
    && (forall row :: row in found ==> RowOk(users, top, row) && |row.path| <= depth)
    && (forall row :: row in working <==> row in found && |row.path| == depth)
    && Complete(users, top, found, depth)
  }

  lemma FirstRound(users: Users, top: int)
    ensures Round(users, top, Base(users, top), Base(users, top), 1)
  {
    forall path | |path| == 1 && IsPath(users, top, path)
      ensures PathRow(path[0], false, path) in Base(users, top)
    {
      assert path == [path[0]] && ReportsTo(users, path[0], top);
      assert First(path[0]) in Base(users, top);
    }
  }

  lemma JoinIsOk(users: Users, top: int, found: set<PathRow>, working: set<PathRow>, depth: nat)
    requires Round(users, top, found, working, depth)
    ensures forall row :: row in Join(users, working) ==> RowOk(users, top, row) && |row.path| == depth + 1
    ensures Join(users, working) != {} ==> depth <= |users.Keys|
  {
    forall next | next in Join(users, working)
      ensures RowOk(users, top, next) && |next.path| == depth + 1 && depth <= |users.Keys|
    {
      var id, row :|
        id in users.Keys && row in working && !row.isCycle && ReportsTo(users, id, row.id) && next == Next(row, id);
      NextIsOk(users, top, row, id);
      PathFits(users, top, row.path);
    }
  }

  lemma PathFits(users: Users, top: int, path: seq<int>)
    requires IsPath(users, top, path) && Distinct(path)
    ensures |path| <= |users.Keys|
  {
    forall i | 0 <= i < |path| ensures path[i] in users.Keys {
      if i > 0 { assert ReportsTo(users, path[i], path[i - 1]); }
    }
    DistinctFits(path, users.Keys);
  }

  /** A path one longer than the rounds so far is the next row of one they found. */
  lemma LongerPathIsJoined(
    users: Users, top: int, found: set<PathRow>, working: set<PathRow>, depth: nat, path: seq<int>)
    requires Round(users, top, found, working, depth)
    requires |path| == depth + 1 && IsPath(users, top, path) && Distinct(path)
    ensures PathRow(path[depth], false, path) in Join(users, working)
  {
    var front, last := path[..depth], path[depth];
    assert path == front + [last];
    PathAppend(users, top, front, last);
    DistinctAppend(front, last);
    var row := PathRow(front[depth - 1], false, front);
    assert row in working;
    assert Next(row, last) in Join(users, working);
  }

  lemma JoinIsComplete(users: Users, top: int, found: set<PathRow>, working: set<PathRow>, depth: nat)
    requires Round(users, top, found, working, depth)
    ensures Complete(users, top, found + Join(users, working), depth + 1)
  {
    forall path | 0 < |path| <= depth + 1 && IsPath(users, top, path) && Distinct(path)
      ensures PathRow(path[|path| - 1], false, path) in found + Join(users, working)
    {
      if |path| == depth + 1 {
        LongerPathIsJoined(users, top, found, working, depth, path);
      }
    }
  }

  lemma NextRound(users: Users, top: int, found: set<PathRow>, working: set<PathRow>, depth: nat)
    requires Round(users, top, found, working, depth)
    ensures var next := Join(users, working); Round(users, top, found + next, next - found, depth + 1)
  {
    JoinIsOk(users, top, found, working, depth);
    JoinIsComplete(users, top, found, working, depth);
  }

  lemma LastRoundIsExact(users: Users, top: int, found: set<PathRow>, depth: nat)
    requires Round(users, top, found, {}, depth)
    ensures forall id :: id in (set row | row in found :: row.id) <==> Below(users, top, id)
  {
    var ids := set row | row in found :: row.id;
    forall id ensures id in ids <==> Below(users, top, id) {
      if id in ids {
        var row :| row in found && row.id == id;
        PathIsBelow(users, top, row.path);
      }
      if Below(users, top, id) {
        var path := LooplessPath(users, top, id);
        ExhaustedIsComplete(users, top, found, depth, path);
        assert PathRow(id, false, path) in found;
      }
    }
  }

  /**
   WITH RECURSIVE ... UNION ... CYCLE id SET is_cycle USING path: each round joins only the rows the last one added, and
   stops when it adds none. It ends on every graph, loops included, because a path that goes on never repeats an id.
   */
  method Subtree(users: Users, top: int) returns (ids: set<int>)
    ensures forall id :: id in ids <==> Below(users, top, id)
  {
    var found := Base(users, top);
    var working := found;
    ghost var depth := 1;
    FirstRound(users, top);
    while working != {}
      invariant Round(users, top, found, working, depth)
      decreases |users.Keys| + 2 - depth
    {
      NextRound(users, top, found, working, depth);
      var next := Join(users, working);
      found, working := found + next, next - found;
      depth := depth + 1;
    }
    LastRoundIsExact(users, top, found, depth);
    ids := set row | row in found :: row.id;
  }

  /** Once a depth has no loopless path left, no greater depth has one either. */
  lemma ExhaustedIsComplete(users: Users, top: int, found: set<PathRow>, depth: nat, path: seq<int>)
    requires depth >= 1 && Complete(users, top, found, depth)
    requires forall row :: row in found ==> |row.path| != depth
    requires IsPath(users, top, path) && Distinct(path) && path != []
    ensures PathRow(path[|path| - 1], false, path) in found
  {
    var prefix := path[..Min(|path|, depth)];
    assert IsPath(users, top, prefix) && Distinct(prefix);
    assert prefix == path || |prefix| == depth;
  }

  lemma {:induction false} PathIsBelow(users: Users, top: int, path: seq<int>)
    requires IsPath(users, top, path) && path != []
    ensures Below(users, top, path[|path| - 1])
    decreases |path|
  {
    var last := |path| - 1;
    if last == 0 {
      ReportIsBelow(users, top, path[0]);
    } else {
      PathIsBelow(users, top, path[..last]);
      BelowThroughManager(users, top, path[last]);
    }
  }

  lemma LooplessPath(users: Users, top: int, id: int) returns (path: seq<int>)
    requires Below(users, top, id)
    ensures IsPath(users, top, path) && Distinct(path) && path != [] && path[|path| - 1] == id
  {
    var steps: nat :| Climbs(users, id, top, steps);
    var least := LeastClimb(users, id, top, steps);
    path := ShortestPath(users, id, top, least);
  }

  lemma {:induction false} LeastClimb(users: Users, id: int, top: int, steps: nat) returns (least: nat)
    requires Climbs(users, id, top, steps)
    ensures Climbs(users, id, top, least) && forall fewer: nat :: fewer < least ==> !Climbs(users, id, top, fewer)
    decreases steps
  {
    if fewer: nat :| fewer < steps && Climbs(users, id, top, fewer) {
      least := LeastClimb(users, id, top, fewer);
    } else {
      least := steps;
    }
  }

  /** The shortest way up, read downwards, visits nobody twice. */
  lemma {:induction false} ShortestPath(users: Users, id: int, top: int, steps: nat) returns (path: seq<int>)
    requires Climbs(users, id, top, steps)
    requires forall fewer: nat :: fewer < steps ==> !Climbs(users, id, top, fewer)
    ensures |path| == steps && path[steps - 1] == id && IsPath(users, top, path) && Distinct(path)
    ensures forall i :: 0 <= i < steps ==> Climbs(users, path[i], top, i + 1)
    decreases steps
  {
    if steps == 1 {
      path := [id];
    } else {
      var m := users[id].managerID.value;
      forall fewer: nat | fewer < steps - 1 ensures !Climbs(users, m, top, fewer) {
        ClimbFromManager(users, id, top, fewer);
      }
      var rest := ShortestPath(users, m, top, steps - 1);
      NotOnTheWay(users, id, top, steps, rest);
      PathAppend(users, top, rest, id);
      DistinctAppend(rest, id);
      path := rest + [id];
    }
  }

  lemma ClimbFromManager(users: Users, id: int, top: int, steps: nat)
    requires Live(users, id) && users[id].managerID.Some?
    ensures Climbs(users, users[id].managerID.value, top, steps) ==> Climbs(users, id, top, steps + 1)
  {
  }

  /** Someone met before the end of the climb would be a shorter one. */
  lemma NotOnTheWay(users: Users, id: int, top: int, steps: nat, rest: seq<int>)
    requires |rest| == steps - 1 && forall i :: 0 <= i < steps - 1 ==> Climbs(users, rest[i], top, i + 1)
    requires forall fewer: nat :: fewer < steps ==> !Climbs(users, id, top, fewer)
    ensures id !in rest
  {
    forall i | 0 <= i < |rest| ensures rest[i] != id {
      var met: nat := i + 1;
      assert Climbs(users, rest[i], top, met) && !Climbs(users, id, top, met);
    }
  }

  method InSubtree(users: Users, managerID: int, userID: int) returns (below: bool)
    ensures below <==> Below(users, managerID, userID)
  {
    var ids := Subtree(users, managerID);
    below := userID in ids;
  }

  /** Rule D: whose records the caller may see. */
  ghost predicate Reaches(users: Users, claims: Claims, id: int) {
    || claims.userID == id
    || claims.role >= HR_ADMIN
    || (claims.role >= SUPERVISOR && Below(users, claims.userID, id))
  }

  method Reach(users: Users, claims: Claims, id: int) returns (reached: bool)
    ensures reached <==> Reaches(users, claims, id)
    ensures reached <==>
            claims.userID == id || claims.role >= HR_ADMIN
            || (claims.role == SUPERVISOR && Below(users, claims.userID, id))
  {
    if claims.userID == id || claims.role >= HR_ADMIN { return true; }
    if claims.role < SUPERVISOR { return false; }
    reached := InSubtree(users, claims.userID, id);
  }
}
