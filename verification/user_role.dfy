/** The role model of `src/hooks/useUserRole.ts`: the five application roles and their
    ranks, the highest role of a role list, `hasRole`, `isAtLeast`, and the defaults
    applied to the fetched role list. */
module UserRole {
  import opened Common

  datatype AppRole = Student | Counsellor | Mentor | Admin | SuperAdmin

  /** The role's name in the `app_role` enumeration. */
  function RoleName(r: AppRole): string
  {
    match r
    case Student => "student"
    case Counsellor => "counsellor"
    case Mentor => "mentor"
    case Admin => "admin"
    case SuperAdmin => "super_admin"
  }

  /** `roleHierarchy`. */
  function Rank(r: AppRole): (n: nat)
    ensures 1 <= n <= 5
  {
    match r
    case Student => 1
    case Counsellor => 2
    case Mentor => 3
    case Admin => 4
    case SuperAdmin => 5
  }

  /** Ranks are distinct and ordered student < counsellor < mentor < admin < super admin. */
  lemma RanksAreDistinct(a: AppRole, b: AppRole)
    ensures Rank(a) == Rank(b) <==> a == b
    ensures Rank(Student) < Rank(Counsellor) < Rank(Mentor) < Rank(Admin) < Rank(SuperAdmin)
  {
  }

  /** The reduction step: keep `highest` unless `current` ranks strictly higher. */
  function HigherOf(highest: AppRole, current: AppRole): (r: AppRole)
    ensures r == highest || r == current
    ensures Rank(r) >= Rank(highest) && Rank(r) >= Rank(current)
  {
    if Rank(current) > Rank(highest) then current else highest
  }

  /** The fold of `HigherOf` over the roles from the left, seeded with `acc`. */
  function Reduce(acc: AppRole, rest: seq<AppRole>): (r: AppRole)
    ensures r == acc || r in rest
    ensures Rank(r) >= Rank(acc)
    ensures forall i :: 0 <= i < |rest| ==> Rank(r) >= Rank(rest[i])
    decreases |rest|
  {
    if |rest| == 0 then acc else Reduce(HigherOf(acc, rest[0]), rest[1..])
  }

  /** `role`: the highest-ranked role held, or none for an empty list. */
  function HighestRole(roles: seq<AppRole>): (r: Option<AppRole>)
    ensures r.None? <==> |roles| == 0
    ensures r.Some? ==> r.value in roles
    ensures r.Some? ==> forall x :: x in roles ==> Rank(x) <= Rank(r.value)
  {
    if |roles| == 0 then None else Some(Reduce(roles[0], roles[1..]))
  }

  /** The highest role does not depend on the order or repetition of the list. */
  lemma HighestRoleIgnoresOrder(a: seq<AppRole>, b: seq<AppRole>)
    requires forall x :: x in a <==> x in b
    ensures HighestRole(a) == HighestRole(b)
  {
    var ra := HighestRole(a);
    var rb := HighestRole(b);
    if ra.Some? {
      assert rb.Some? by { assert ra.value in b; }
      RanksAreDistinct(ra.value, rb.value);
    }
  }

  /** `hasRole`: plain membership. */
  function HasRole(roles: seq<AppRole>, r: AppRole): (b: bool)
    ensures b <==> exists i :: 0 <= i < |roles| && roles[i] == r
  {
    r in roles
  }

  /** `isAtLeast`: false without a role, otherwise a rank comparison of the highest role. */
  function IsAtLeast(roles: seq<AppRole>, minRole: AppRole): (b: bool)
    ensures b <==> exists x :: x in roles && Rank(x) >= Rank(minRole)
  {
    match HighestRole(roles)
    case None => false
    case Some(top) => Rank(top) >= Rank(minRole)
  }

  /** `isAtLeast` is downward closed: meeting a rank meets every lower rank. */
  lemma IsAtLeastDownwardClosed(roles: seq<AppRole>, hi: AppRole, lo: AppRole)
    requires Rank(lo) <= Rank(hi)
    ensures IsAtLeast(roles, hi) ==> IsAtLeast(roles, lo)
  {
  }

  /** Holding a role implies being at least that role. */
  lemma HasRoleImpliesAtLeast(roles: seq<AppRole>, r: AppRole)
    ensures HasRole(roles, r) ==> IsAtLeast(roles, r)
  {
  }

  /** Result of `fetchRoles`: the new role list and the error text, if any. */
  datatype FetchResult = FetchResult(roles: seq<AppRole>, error: Option<string>)

  /** `fetchRoles`: nobody signed in gives no roles and leaves the previous error text
      alone; otherwise the error is cleared first, a failed query gives ['student'] and
      an error text, and a missing or empty answer also gives ['student']. */
  function FetchRoles(signedIn: bool, previousError: Option<string>, reply: Reply<Option<seq<AppRole>>>): (f: FetchResult)
    ensures !signedIn ==> f.roles == [] && f.error == previousError
    ensures signedIn ==> |f.roles| >= 1
    ensures signedIn && reply.Err? ==>
              f.roles == [Student] && f.error == Some(ErrorText(reply.error, "Failed to fetch roles"))
    ensures signedIn && reply.Ok? ==> f.error.None?
    ensures signedIn && reply.Ok? && reply.value.Some? && |reply.value.value| > 0 ==> f.roles == reply.value.value
    ensures signedIn && reply.Ok? && (reply.value.None? || |reply.value.value| == 0) ==> f.roles == [Student]
  {
    if !signedIn then FetchResult([], previousError)
    else match reply
      case Err(e) => FetchResult([Student], Some(ErrorText(e, "Failed to fetch roles")))
      case Ok(data) =>
        var userRoles := if data.Some? then data.value else [Student];
        FetchResult(if |userRoles| > 0 then userRoles else [Student], None)
  }

  /** A signed-in user always ends up with a role after a fetch, at least a student. */
  lemma SignedInUserHasRole(previousError: Option<string>, reply: Reply<Option<seq<AppRole>>>)
    ensures HighestRole(FetchRoles(true, previousError, reply).roles).Some?
    ensures IsAtLeast(FetchRoles(true, previousError, reply).roles, Student)
  {
  }
}
