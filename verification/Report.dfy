/** Each person's totals over the days a report lists, folded in one pass over days that come grouped by person. */
module Report {
  import opened Common
  import opened Calendar
  import opened Schedule
  import opened WhosIn

  datatype Total = Total(
    userID: int, fullName: string, departmentID: Option<int>,
    present: nat, late: nat, onLeave: nat, absent: nat, workedMinutes: int)

  /** What an attendance adds to its person's worked time; an open one adds nothing. */
  function Worked(day: Presence): int {
    if day.attendance.None? || day.attendance.value.checkOut.None? then 0
    else Quot(day.attendance.value.checkOut.value - day.attendance.value.checkIn, MINUTE)
  }

  // ---- what the totals should be ----

  function CountOf(days: seq<Presence>, userID: int, status: Status): nat {
    if days == [] then 0
    else
      var day := days[|days| - 1];
      CountOf(days[..|days| - 1], userID, status) + if day.userID == userID && day.status == status then 1 else 0
  }

  function WorkedBy(days: seq<Presence>, userID: int): int {
    if days == [] then 0
    else
      var day := days[|days| - 1];
      WorkedBy(days[..|days| - 1], userID) + if day.userID == userID then Worked(day) else 0
  }

  function ListedFor(days: seq<Presence>, userID: int): nat {
    if days == [] then 0
    else ListedFor(days[..|days| - 1], userID) + if days[|days| - 1].userID == userID then 1 else 0
  }

  /** Worked minutes are the whole minutes between check-in and check-out. */
  lemma WorkedIsWholeMinutes(day: Presence)
    requires day.attendance.Some? && day.attendance.value.checkOut.Some?
    requires day.attendance.value.checkIn <= day.attendance.value.checkOut.value
    ensures var w, span := Worked(day), day.attendance.value.checkOut.value - day.attendance.value.checkIn;
            w * MINUTE <= span < (w + 1) * MINUTE
  {
  }

  /** The time between check-in and check-out over all of a person's closed days. */
  function TimeBy(days: seq<Presence>, userID: int): int {
    if days == [] then 0
    else
      var day := days[|days| - 1];
      TimeBy(days[..|days| - 1], userID)
      + if day.userID == userID && day.attendance.Some? && day.attendance.value.checkOut.Some? then
          day.attendance.value.checkOut.value - day.attendance.value.checkIn
        else 0
  }

  /** A total is the time itself to within a minute a day: what a day's last minute begun leaves out is all it loses. */
  lemma {:induction false} TotalsLoseUnderAMinuteADay(days: seq<Presence>, userID: int)
    requires forall i :: 0 <= i < |days| && days[i].attendance.Some? && days[i].attendance.value.checkOut.Some? ==>
               days[i].attendance.value.checkIn <= days[i].attendance.value.checkOut.value
    ensures WorkedBy(days, userID) * MINUTE <= TimeBy(days, userID)
            <= WorkedBy(days, userID) * MINUTE + ListedFor(days, userID) * (MINUTE - 1)
    decreases |days|
  {
    if days != [] {
      var day := days[|days| - 1];
      TotalsLoseUnderAMinuteADay(days[..|days| - 1], userID);
      if day.attendance.Some? && day.attendance.value.checkOut.Some? { WorkedIsWholeMinutes(day); }
    }
  }

  predicate Listed(days: seq<Presence>, userID: int) { exists i :: 0 <= i < |days| && days[i].userID == userID }

  predicate ListedAs(days: seq<Presence>, total: Total) {
    exists i :: 0 <= i < |days| && days[i].userID == total.userID && days[i].fullName == total.fullName
                && days[i].departmentID == total.departmentID
  }

  /** Nobody's days are interrupted by someone else's. */
  ghost predicate Grouped(days: seq<Presence>) {
    forall i, j, k :: 0 <= i < j < k < |days| && days[i].userID == days[k].userID ==> days[j].userID == days[i].userID
  }

  ghost predicate TotalOk(days: seq<Presence>, total: Total) {
    && Listed(days, total.userID) && ListedAs(days, total)
    && total.present == CountOf(days, total.userID, Present)
    && total.late == CountOf(days, total.userID, Late)
    && total.onLeave == CountOf(days, total.userID, OnLeave)
    && total.absent == CountOf(days, total.userID, Absent)
    && total.workedMinutes == WorkedBy(days, total.userID)
  }

  function UsersOf(days: seq<Presence>): seq<int> { seq(|days|, i requires 0 <= i < |days| => days[i].userID) }

  function IdsOf(people: seq<Total>): seq<int> { seq(|people|, p requires 0 <= p < |people| => people[p].userID) }

  /** Each user once, all of them and no other, in the order of their days. */
  ghost predicate ListsEach(users: seq<int>, ids: seq<int>) {
    && (forall id :: id in ids <==> id in users)
    && (forall a, b :: 0 <= a < b < |ids| ==> ids[a] != ids[b])
    && (forall a, b, i, j |
          0 <= a < b < |ids| && 0 <= i < |users| && 0 <= j < |users| && users[i] == ids[a] && users[j] == ids[b]
        :: i < j)
    && (users != [] ==> ids != [] && ids[|ids| - 1] == users[|users| - 1])
  }

  ghost predicate TotalsOk(days: seq<Presence>, people: seq<Total>) {
    && (forall p :: 0 <= p < |people| ==> TotalOk(days, people[p]))
    && ListsEach(UsersOf(days), IdsOf(people))
  }

  lemma ListsSame(users: seq<int>, ids: seq<int>, u: int)
    requires ListsEach(users, ids) && ids != [] && ids[|ids| - 1] == u
    ensures ListsEach(users + [u], ids)
  {
  }

  lemma ListsNew(users: seq<int>, ids: seq<int>, u: int)
    requires ListsEach(users, ids) && u !in users
    ensures ListsEach(users + [u], ids + [u])
  {
  }

  function OpenedTotal(day: Presence): Total { Total(day.userID, day.fullName, day.departmentID, 0, 0, 0, 0, 0) }

  function Added(total: Total, day: Presence): Total {
    var counted := match day.status
      case Present => total.(present := total.present + 1)
      case Late => total.(late := total.late + 1)
      case OnLeave => total.(onLeave := total.onLeave + 1)
      case Absent => total.(absent := total.absent + 1)
      case _ => total;
    counted.(workedMinutes := counted.workedMinutes + Worked(day))
  }

  lemma {:induction false} UnlistedIsZero(days: seq<Presence>, userID: int)
    requires !Listed(days, userID)
    ensures forall status :: CountOf(days, userID, status) == 0
    ensures WorkedBy(days, userID) == 0
    decreases |days|
  {
    if days != [] {
      var rest := days[..|days| - 1];
      assert !Listed(rest, userID);
      assert days[|days| - 1].userID != userID;
      UnlistedIsZero(rest, userID);
    }
  }

  /** Under grouping, whoever is not the last one counted has not been seen before. */
  lemma NewcomerIsUnlisted(days: seq<Presence>, i: nat)
    requires i < |days| && Grouped(days)
    requires i == 0 || days[i - 1].userID != days[i].userID
    ensures !Listed(days[..i], days[i].userID)
  {
  }

  lemma AddedKeepsTotal(days: seq<Presence>, i: nat, total: Total)
    requires i < |days|
    requires TotalOk(days[..i], total)
    ensures TotalOk(days[..i + 1], if total.userID == days[i].userID then Added(total, days[i]) else total)
  {
    var k :| 0 <= k < i && days[..i][k].userID == total.userID && days[..i][k].fullName == total.fullName
             && days[..i][k].departmentID == total.departmentID;
    assert days[..i + 1][k] == days[..i][k];
    assert days[..i + 1][..i] == days[..i];
  }

  lemma AddedOpensTotal(days: seq<Presence>, i: nat)
    requires i < |days| && !Listed(days[..i], days[i].userID)
    ensures TotalOk(days[..i + 1], Added(OpenedTotal(days[i]), days[i]))
  {
    UnlistedIsZero(days[..i], days[i].userID);
    assert days[..i + 1][i] == days[i];
    assert days[..i + 1][..i] == days[..i];
  }

  /** What one more day makes of the totals. */
  ghost predicate IsNext(days: seq<Presence>, i: nat, before: seq<Total>, after: seq<Total>)
    requires i < |days|
  {
    var day := days[i];
    var last := |before| - 1;
    if before != [] && before[last].userID == day.userID then after == before[last := Added(before[last], day)]
    else
      && !Listed(days[..i], day.userID)
      && after == before + [Added(OpenedTotal(day), day)]
  }

  /** One more day changes the total of its own person only, or opens that person's. */
  lemma NextAt(days: seq<Presence>, i: nat, before: seq<Total>, after: seq<Total>, p: nat)
    requires i < |days| && IsNext(days, i, before, after) && p < |after|
    requires p < |before| ==> Listed(days[..i], before[p].userID)
    requires forall q, r :: 0 <= q < r < |before| ==> before[q].userID != before[r].userID
    ensures after[p] == if p >= |before| then Added(OpenedTotal(days[i]), days[i])
                        else if before[p].userID == days[i].userID then Added(before[p], days[i])
                        else before[p]
    ensures p >= |before| ==> !Listed(days[..i], days[i].userID)
  {
  }

  lemma NextCount(days: seq<Presence>, i: nat, before: seq<Total>, after: seq<Total>, p: nat)
    requires i < |days| && TotalsOk(days[..i], before) && IsNext(days, i, before, after) && p < |after|
    ensures TotalOk(days[..i + 1], after[p])
  {
    forall q, r | 0 <= q < r < |before| ensures before[q].userID != before[r].userID {
      assert IdsOf(before)[q] != IdsOf(before)[r];
    }
    NextAt(days, i, before, after, p);
    if p < |before| {
      AddedKeepsTotal(days, i, before[p]);
    } else {
      AddedOpensTotal(days, i);
    }
  }

  lemma NextLists(days: seq<Presence>, i: nat, before: seq<Total>, after: seq<Total>)
    requires i < |days| && ListsEach(UsersOf(days[..i]), IdsOf(before)) && IsNext(days, i, before, after)
    ensures ListsEach(UsersOf(days[..i + 1]), IdsOf(after))
  {
    var users := UsersOf(days[..i]);
    var u := days[i].userID;
    assert UsersOf(days[..i + 1]) == users + [u];
    if before != [] && before[|before| - 1].userID == u {
      assert IdsOf(after) == IdsOf(before);
      ListsSame(users, IdsOf(before), u);
    } else {
      assert IdsOf(after) == IdsOf(before) + [u];
      assert u !in users;
      ListsNew(users, IdsOf(before), u);
    }
  }

  lemma NextTotals(days: seq<Presence>, i: nat, before: seq<Total>, after: seq<Total>)
    requires i < |days| && TotalsOk(days[..i], before) && IsNext(days, i, before, after)
    ensures TotalsOk(days[..i + 1], after)
  {
    forall p | 0 <= p < |after| ensures TotalOk(days[..i + 1], after[p]) { NextCount(days, i, before, after, p); }
    NextLists(days, i, before, after);
  }

  /** A person the last total is not for is one no day before was for. */
  lemma NotLastIsNew(days: seq<Presence>, i: nat, people: seq<Total>)
    requires i < |days| && Grouped(days) && TotalsOk(days[..i], people)
    requires people == [] || people[|people| - 1].userID != days[i].userID
    ensures !Listed(days[..i], days[i].userID)
  {
    assert i > 0 ==> IdsOf(people) != [] && IdsOf(people)[|people| - 1] == UsersOf(days[..i])[i - 1];
    NewcomerIsUnlisted(days, i);
  }

  /** The totals with one more day counted. */
  function Counted(people: seq<Total>, day: Presence): seq<Total> {
    var isNew := people == [] || people[|people| - 1].userID != day.userID;
    var grown := if isNew then people + [OpenedTotal(day)] else people;
    var last := |grown| - 1;
    grown[last := Added(grown[last], day)]
  }

  lemma CountedIsOk(days: seq<Presence>, i: nat, people: seq<Total>)
    requires i < |days| && Grouped(days) && TotalsOk(days[..i], people)
    ensures TotalsOk(days[..i + 1], Counted(people, days[i]))
  {
    if people == [] || people[|people| - 1].userID != days[i].userID { NotLastIsNew(days, i, people); }
    assert IsNext(days, i, people, Counted(people, days[i]));
    NextTotals(days, i, people, Counted(people, days[i]));
  }

  /** One entry per person listed, in the order of their days, with that person's counts and minutes. */
  method Totals(days: seq<Presence>) returns (people: seq<Total>)
    requires Grouped(days)
    ensures TotalsOk(days, people)
  {
    people := [];
    for i := 0 to |days|
      invariant TotalsOk(days[..i], people)
    {
      CountedIsOk(days, i, people);
      ghost var before := people;
      if |people| == 0 || people[|people| - 1].userID != days[i].userID {
        people := people + [OpenedTotal(days[i])];
      }
      var last := |people| - 1;
      people := people[last := Added(people[last], days[i])];
      assert people == Counted(before, days[i]);
    }
    assert days[..|days|] == days;
  }

  // ---- the counts leave no day out ----

  lemma {:induction false} EveryDayHasOneStatus(days: seq<Presence>, userID: int)
    ensures CountOf(days, userID, Present) + CountOf(days, userID, Late) + CountOf(days, userID, OnLeave)
            + CountOf(days, userID, Absent) + CountOf(days, userID, OnHoliday) + CountOf(days, userID, Off)
            + CountOf(days, userID, NotYet) == ListedFor(days, userID)
    decreases |days|
  {
    if days != [] { EveryDayHasOneStatus(days[..|days| - 1], userID); }
  }

  function ListedForAll(days: seq<Presence>, ids: seq<int>): nat {
    if ids == [] then 0 else ListedForAll(days, ids[..|ids| - 1]) + ListedFor(days, ids[|ids| - 1])
  }

  lemma {:induction false} OneMoreDay(days: seq<Presence>, day: Presence, ids: seq<int>)
    requires forall a, b :: 0 <= a < b < |ids| ==> ids[a] != ids[b]
    ensures ListedForAll(days + [day], ids) == ListedForAll(days, ids) + if day.userID in ids then 1 else 0
    decreases |ids|
  {
    assert (days + [day])[..|days|] == days;
    if ids != [] {
      var last := ids[|ids| - 1];
      OneMoreDay(days, day, ids[..|ids| - 1]);
      assert ids == ids[..|ids| - 1] + [last];
    }
  }

  lemma {:induction false} NoDays(ids: seq<int>)
    ensures ListedForAll([], ids) == 0
    decreases |ids|
  {
    if ids != [] { NoDays(ids[..|ids| - 1]); }
  }

  lemma {:induction false} EveryDayIsSomeones(days: seq<Presence>, ids: seq<int>)
    requires forall a, b :: 0 <= a < b < |ids| ==> ids[a] != ids[b]
    requires forall i :: 0 <= i < |days| ==> days[i].userID in ids
    ensures ListedForAll(days, ids) == |days|
    decreases |days|
  {
    if days == [] {
      NoDays(ids);
    } else {
      var rest := days[..|days| - 1];
      EveryDayIsSomeones(rest, ids);
      OneMoreDay(rest, days[|days| - 1], ids);
      assert days == rest + [days[|days| - 1]];
    }
  }

  /** The listed days of the people totalled add up to all the days the report covers. */
  lemma TotalsCoverEveryDay(days: seq<Presence>, people: seq<Total>)
    requires TotalsOk(days, people)
    ensures ListedForAll(days, IdsOf(people)) == |days|
  {
    forall i | 0 <= i < |days| ensures days[i].userID in IdsOf(people) {
      assert UsersOf(days)[i] in UsersOf(days);
    }
    EveryDayIsSomeones(days, IdsOf(people));
  }

  // ---- the report: the standings, filtered, then totalled ----

  lemma {:induction false} FilterPositions<T>(rows: seq<T>, keep: T -> bool) returns (at: seq<nat>)
    ensures |at| == |Filter(rows, keep)|
    ensures forall i :: 0 <= i < |at| ==> at[i] < |rows| && Filter(rows, keep)[i] == rows[at[i]]
    ensures forall i, j :: 0 <= i < j < |at| ==> at[i] < at[j]
    decreases |rows|
  {
    if rows == [] {
      at := [];
    } else {
      at := FilterPositions(rows[..|rows| - 1], keep);
      if keep(rows[|rows| - 1]) { at := at + [|rows| - 1]; }
    }
  }

  lemma FilterKeepsGrouped(days: seq<Presence>, keep: Presence -> bool)
    requires Grouped(days)
    ensures Grouped(Filter(days, keep))
  {
    var at := FilterPositions(days, keep);
    var kept := Filter(days, keep);
    forall i, j, k | 0 <= i < j < k < |kept| && kept[i].userID == kept[k].userID
      ensures kept[j].userID == kept[i].userID
    {
      assert at[i] < at[j] < at[k];
    }
  }

  /** Standings come grouped, since people come one after the other and no two share an id. */
  lemma StandingsAreGrouped(
    data: Tables, people: seq<Person>, first: int, last: int, at: int, offset: int, days: seq<Presence>)
    requires Answers(data, people, first, last, at, offset, Slots(people, first, last, offset), days)
    requires forall p, q :: 0 <= p < q < |people| ==> people[p].id != people[q].id
    ensures Grouped(days)
  {
    var slots := Slots(people, first, last, offset);
    SlotsExact(people, first, last, offset);
    forall i, j, k | 0 <= i < j < k < |days| && days[i].userID == days[k].userID
      ensures days[j].userID == days[i].userID
    {
      assert days[i].userID == people[slots[i].0].id && days[k].userID == people[slots[k].0].id;
      assert slots[i].0 == slots[k].0;
      assert Before(slots[i], slots[j]) && Before(slots[j], slots[k]);
    }
  }

  /** Lists the standings, narrowed to a status if one is asked for, and folds exactly what it lists. */
  method Attendance(
    data: Tables, scope: Option<set<int>>, people: seq<Person>, first: int, last: int, at: int, offset: int,
    status: Option<Status>) returns (days: seq<Presence>, totals: seq<Total>)
    requires ReferencesHold(data)
    requires forall member :: member in people ==> InScope(scope, member.id)
    requires forall p, q :: 0 <= p < q < |people| ==> people[p].id != people[q].id
    ensures exists all ::
              && Answers(data, people, first, last, at, offset, Slots(people, first, last, offset), all)
              && days == if status.None? then all else Filter(all, (day: Presence) => day.status == status.value)
    ensures TotalsOk(days, totals) && ListedForAll(days, IdsOf(totals)) == |days|
  {
    var all := Standings(data, scope, people, first, last, at, offset);
    StandingsAreGrouped(data, people, first, last, at, offset, all);
    days := all;
    if status.Some? {
      FilterKeepsGrouped(all, (day: Presence) => day.status == status.value);
      days := Filter(all, (day: Presence) => day.status == status.value);
    }
    totals := Totals(days);
    TotalsCoverEveryDay(days, totals);
  }
}
