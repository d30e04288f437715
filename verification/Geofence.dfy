/** The office a mark is placed at, with the distance to each office left uninterpreted. */
module Geofence {
  import opened Common

  datatype Office = Office(id: int, radius: real)

  ghost predicate Inside(offices: seq<Office>, distance: Office -> real, i: int)
    requires 0 <= i < |offices|
  {
    distance(offices[i]) <= offices[i].radius
  }

  /** `i` is the nearest of the offices considered, the first of equals: those holding the point, or all of them. */
  ghost predicate IsNearest(offices: seq<Office>, distance: Office -> real, holding: bool, i: int)
    requires 0 <= i < |offices|
  {
    && (holding ==> Inside(offices, distance, i))
    && forall k :: 0 <= k < |offices| && (holding ==> Inside(offices, distance, k)) ==>
         distance(offices[i]) < distance(offices[k]) || (distance(offices[i]) == distance(offices[k]) && i <= k)
  }

  /** One pass over the offices, where one that holds the point displaces any that does not. */
  method Locate(offices: seq<Office>, distance: Office -> real) returns (officeID: Option<int>, within: bool)
    ensures officeID.None? <==> offices == []
    ensures within <==> exists i :: 0 <= i < |offices| && distance(offices[i]) <= offices[i].radius
    ensures offices != [] ==>
              exists i ::
                0 <= i < |offices| && officeID == Some(offices[i].id) && IsNearest(offices, distance, within, i)
  {
    officeID, within := None, false;
    var nearest: Option<real> := None; // None is +Inf
    ghost var at := -1;
    for i := 0 to |offices|
      invariant i == 0 <==> at == -1
      invariant at == -1 ==> officeID.None? && nearest.None? && !within
      invariant at != -1 ==>
                  && 0 <= at < i && officeID == Some(offices[at].id) && nearest == Some(distance(offices[at]))
                  && (within <==> Inside(offices, distance, at))
      invariant !within ==> forall k :: 0 <= k < i ==> !Inside(offices, distance, k)
      invariant forall k :: 0 <= k < i && (within ==> Inside(offices, distance, k)) ==>
                  || distance(offices[at]) < distance(offices[k])
                  || (distance(offices[at]) == distance(offices[k]) && at <= k)
    {
      var d := distance(offices[i]);
      var inside := d <= offices[i].radius;
      if (inside && !within) || (inside == within && (nearest.None? || d < nearest.value)) {
        officeID, within, nearest := Some(offices[i].id), inside, Some(d);
        at := i;
      }
    }
    assert offices != [] ==> IsNearest(offices, distance, within, at);
    assert within ==> distance(offices[at]) <= offices[at].radius;
    forall i | 0 <= i < |offices| && distance(offices[i]) <= offices[i].radius ensures within {
      assert Inside(offices, distance, i);
    }
  }
}
