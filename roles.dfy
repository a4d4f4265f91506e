/**
 * Study roles: the role a member holds for the hours studied this month,
 * the role that comes next and how many hours are still missing to it.
 *
 * The configured roles come in order, each with the monthly hours at which
 * it begins; their names are the keys of the configuration dictionary.
 */
module Roles {
  import opened Common

  /** A study role and the monthly hours at which it begins. */
  datatype Role = Role(name: string, beginHours: real)

  /** Names are dictionary keys, so no two roles share one. */
  predicate DistinctNames(roles: seq<Role>) {
    forall i, j :: 0 <= i < j < |roles| ==> roles[i].name != roles[j].name
  }

  /** Each role begins at more hours than the one before it. */
  predicate StrictlyIncreasing(roles: seq<Role>) {
    forall i, j :: 0 <= i < j < |roles| ==> roles[i].beginHours < roles[j].beginHours
  }

  /**
   * The dictionary from role name to begin hours. A later entry with the
   * same name would replace an earlier one, as in a dictionary comprehension.
   */
  function BeginHoursByName(roles: seq<Role>): (m: map<string, real>)
    ensures forall i :: 0 <= i < |roles| ==> roles[i].name in m
    ensures DistinctNames(roles) ==> forall i :: 0 <= i < |roles| ==> m[roles[i].name] == roles[i].beginHours
  {
    if |roles| == 0 then map[]
    else
      var last := roles[|roles| - 1];
      var m := BeginHoursByName(roles[..|roles| - 1]);
      assert forall i :: 0 <= i < |roles| - 1 ==> roles[..|roles| - 1][i] == roles[i];
      m[last.name := last.beginHours]
  }

  /** The dictionary has no key but the role names. */
  lemma {:induction false} BeginHoursByNameKeys(roles: seq<Role>)
    ensures forall name :: name in BeginHoursByName(roles) ==> exists i :: 0 <= i < |roles| && roles[i].name == name
  {
    if |roles| > 0 {
      var init := roles[..|roles| - 1];
      BeginHoursByNameKeys(init);
      forall name | name in BeginHoursByName(roles)
        ensures exists i :: 0 <= i < |roles| && roles[i].name == name
      {
        if name != roles[|roles| - 1].name {
          assert name in BeginHoursByName(init);
          var i :| 0 <= i < |init| && init[i].name == name;
          assert roles[i].name == name;
        }
      }
    }
  }

  /**
   * The position of the first role whose begin hours exceed `hours`, or the
   * number of roles when `hours` reaches every threshold.
   */
  function FirstAbove(roles: seq<Role>, hours: real): (k: nat)
    ensures k <= |roles|
    ensures forall j :: 0 <= j < k ==> roles[j].beginHours <= hours
    ensures k < |roles| ==> hours < roles[k].beginHours
  {
    if |roles| == 0 || hours < roles[0].beginHours then 0
    else 1 + FirstAbove(roles[1..], hours)
  }

  /** FirstAbove is the only position with its two defining properties. */
  lemma FirstAboveUnique(roles: seq<Role>, hours: real, i: nat)
    requires i <= |roles|
    requires forall j :: 0 <= j < i ==> roles[j].beginHours <= hours
    requires i < |roles| ==> hours < roles[i].beginHours
    ensures FirstAbove(roles, hours) == i
  {
  }

  /**
   * The scan of get_role_status: the roles are visited in order, each one
   * reached becoming the current role, until the first one not yet reached,
   * which becomes the next role. The names start as the first two roles'.
   */
  method ScanRoles(roles: seq<Role>, begin: map<string, real>, hours: real) returns (curName: string, nextName: string)
    requires 2 <= |roles| && DistinctNames(roles)
    requires begin == BeginHoursByName(roles)
    ensures var k := FirstAbove(roles, hours);
            && curName == roles[if k == 0 then 0 else k - 1].name
            && nextName == roles[if k == |roles| then 1 else k].name
    ensures curName == roles[|roles| - 1].name <==> FirstAbove(roles, hours) == |roles|
  {
    curName := roles[0].name;
    nextName := roles[1].name;
    var i := 0;
    while i < |roles|
      invariant 0 <= i <= |roles|
      invariant forall j :: 0 <= j < i ==> roles[j].beginHours <= hours
      invariant curName == roles[if i == 0 then 0 else i - 1].name
      invariant nextName == roles[1].name
    {
      if begin[roles[i].name] <= hours {
        curName := roles[i].name;
      } else {
        nextName := roles[i].name;
        break;
      }
      i := i + 1;
    }
    assert i < |roles| ==> hours < roles[i].beginHours && nextName == roles[i].name;
    ScanStops(roles, hours, i);
  }

  /**
   * get_role_status: below the first threshold there is no current role and
   * the next role is the first one; at the top role there is no next role.
   * Looking up a role name in `objects` is the source's role_name_to_obj,
   * which is consulted for the current role and, below the top, the next one.
   */
  method GetRoleStatus<R>(roles: seq<Role>, objects: map<string, R>, hours: real)
    returns (current: Option<R>, next: Option<R>, timeToNext: Option<real>)
    requires 2 <= |roles| && DistinctNames(roles)
    requires roles[if FirstAbove(roles, hours) == 0 then 0 else FirstAbove(roles, hours) - 1].name in objects
    requires FirstAbove(roles, hours) < |roles| ==> roles[FirstAbove(roles, hours)].name in objects
    ensures var k := FirstAbove(roles, hours);
            && current == (if k == 0 then None else Some(objects[roles[k - 1].name]))
            && next == (if k == |roles| then None else Some(objects[roles[k].name]))
            && timeToNext == (if k == |roles| then None else Some(roles[k].beginHours - hours))
    ensures current.None? <==> hours < roles[0].beginHours
    ensures current.None? ==> next == Some(objects[roles[0].name])
    ensures next.None? <==> timeToNext.None?
    ensures timeToNext.Some? ==> timeToNext.value > 0.0
  {
    var begin := BeginHoursByName(roles);
    var curName, nextName := ScanRoles(roles, begin, hours);
    ghost var k := FirstAbove(roles, hours);
    ghost var c := if k == 0 then 0 else k - 1;
    assert begin[curName] == roles[c].beginHours;

    current := Some(objects[curName]);
    if hours < begin[curName] {
      current := None;
    }
    if curName != roles[|roles| - 1].name {
      assert k < |roles| && nextName == roles[k].name;
      assert begin[nextName] == roles[k].beginHours;
      next, timeToNext := Some(objects[nextName]), Some(begin[nextName] - hours);
    } else {
      next, timeToNext := None, None;
    }
  }

  /**
   * Where the scan stops: the position FirstAbove names, whose current role is
   * the top role exactly when the scan ran off the end.
   */
  lemma ScanStops(roles: seq<Role>, hours: real, i: nat)
    requires 2 <= |roles| && DistinctNames(roles)
    requires i <= |roles|
    requires forall j :: 0 <= j < i ==> roles[j].beginHours <= hours
    requires i < |roles| ==> hours < roles[i].beginHours
    ensures FirstAbove(roles, hours) == i
    ensures roles[if i == 0 then 0 else i - 1].name == roles[|roles| - 1].name <==> i == |roles|
  {
    FirstAboveUnique(roles, hours, i);
    var c := if i == 0 then 0 else i - 1;
    if i < |roles| {
      assert c < |roles| - 1 && roles[c].name != roles[|roles| - 1].name;
    }
  }

  /**
   * With increasing thresholds a role is reached exactly when it comes before
   * the first role not reached: the current role is the last one whose begin
   * hours are at most `hours`, the boundary itself included.
   */
  lemma ReachedRolesArePrefix(roles: seq<Role>, hours: real)
    requires StrictlyIncreasing(roles)
    ensures forall j :: 0 <= j < |roles| ==> (roles[j].beginHours <= hours <==> j < FirstAbove(roles, hours))
  {
    var k := FirstAbove(roles, hours);
    forall j | 0 <= j < |roles|
      ensures roles[j].beginHours <= hours <==> j < k
    {
      if k < j {
        assert roles[k].beginHours < roles[j].beginHours;
      }
    }
  }

  /** Novice from 0, scholar from 10, sage from 30 hours: at exactly 10 hours one is a scholar. */
  lemma ScholarAtBoundary()
    ensures var roles := [Role("novice", 0.0), Role("scholar", 10.0), Role("sage", 30.0)];
            FirstAbove(roles, 10.0) == 2 && roles[FirstAbove(roles, 10.0)].beginHours - 10.0 == 20.0
  {
    var roles := [Role("novice", 0.0), Role("scholar", 10.0), Role("sage", 30.0)];
    assert roles[1..] == [Role("scholar", 10.0), Role("sage", 30.0)];
    assert roles[1..][1..] == [Role("sage", 30.0)];
  }
}
