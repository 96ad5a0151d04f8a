/** The user list of `src/hooks/useAllUsers.ts`: profiles joined with their role rows,
    and the role assignment and removal calls. Backend calls are oracle replies. */
module AllUsers {
  import opened Common
  import opened UserRole

  datatype Profile = Profile(
    id: string,
    userId: string,
    fullName: Option<string>,
    avatarUrl: Option<string>,
    rollNumber: Option<string>,
    course: Option<string>,
    semester: Option<int>,
    createdAt: string)

  /** A row of the `user_roles` table. */
  datatype RoleRow = RoleRow(userId: string, role: AppRole)

  /** A profile with its roles (`{ ...p, roles }`). */
  datatype UserWithRole = UserWithRole(profile: Profile, roles: seq<AppRole>)

  datatype UsersState = UsersState(users: seq<UserWithRole>, loading: bool, error: Option<string>)

  /** Whether a user holds role `r`. */
  function Holding(r: AppRole): UserWithRole -> bool
  {
    (u: UserWithRole) => r in u.roles
  }

  function ForUser(u: string): RoleRow -> bool
  {
    (r: RoleRow) => r.userId == u
  }

  function RolesIn(rows: seq<RoleRow>): (r: seq<AppRole>)
    ensures |r| == |rows|
    ensures forall i :: 0 <= i < |rows| ==> r[i] == rows[i].role
  {
    if |rows| == 0 then [] else [rows[0].role] + RolesIn(rows[1..])
  }

  lemma {:induction false} RolesInConcat(a: seq<RoleRow>, b: seq<RoleRow>)
    ensures RolesIn(a + b) == RolesIn(a) + RolesIn(b)
  {
    if |a| == 0 {
      assert a + b == b;
    } else {
      assert (a + b)[1..] == a[1..] + b;
      RolesInConcat(a[1..], b);
    }
  }

  /** The roles of one user, in the order their rows arrived. */
  function RolesOf(rows: seq<RoleRow>, u: string): seq<AppRole>
  {
    RolesIn(Filter(rows, ForUser(u)))
  }

  /** The `forEach` that builds `rolesMap`: each row appends its role to its user's
      list. */
  function GroupRoles(rows: seq<RoleRow>): (m: map<string, seq<AppRole>>)
  {
    if |rows| == 0 then map[]
    else
      var m := GroupRoles(rows[..|rows| - 1]);
      var r := rows[|rows| - 1];
      m[r.userId := (if r.userId in m then m[r.userId] else []) + [r.role]]
  }

  /** Appending a row appends its role to its user's roles and to no other user's. */
  lemma RolesOfSnoc(p: seq<RoleRow>, r: RoleRow, u: string)
    ensures RolesOf(p + [r], u) == RolesOf(p, u) + (if r.userId == u then [r.role] else [])
  {
    FilterConcat(p, [r], ForUser(u));
    RolesInConcat(Filter(p, ForUser(u)), Filter([r], ForUser(u)));
  }

  /** The map holds an entry exactly for the users with a role row. */
  lemma {:induction false} GroupRolesKeys(rows: seq<RoleRow>)
    ensures forall u :: u in GroupRoles(rows) <==> exists i :: 0 <= i < |rows| && rows[i].userId == u
  {
    if |rows| > 0 {
      var p := rows[..|rows| - 1];
      GroupRolesKeys(p);
      forall u
        ensures u in GroupRoles(rows) <==> exists i :: 0 <= i < |rows| && rows[i].userId == u
      {
        if exists i :: 0 <= i < |rows| && rows[i].userId == u {
          var i :| 0 <= i < |rows| && rows[i].userId == u;
          if i < |p| { assert p[i].userId == u; }
        }
        if exists i :: 0 <= i < |p| && p[i].userId == u {
          var i :| 0 <= i < |p| && p[i].userId == u;
          assert rows[i].userId == u;
        }
      }
    }
  }

  /** Each entry of the map is that user's roles in arrival order, so it is never
      empty. */
  lemma {:induction false} GroupRolesGroups(rows: seq<RoleRow>)
    ensures forall u :: u in GroupRoles(rows) ==> GroupRoles(rows)[u] == RolesOf(rows, u) && |GroupRoles(rows)[u]| > 0
  {
    if |rows| > 0 {
      var p := rows[..|rows| - 1];
      var r := rows[|rows| - 1];
      GroupRolesGroups(p);
      assert rows == p + [r];
      forall u | u in GroupRoles(rows)
        ensures GroupRoles(rows)[u] == RolesOf(rows, u)
      {
        RolesOfSnoc(p, r, u);
        if u !in GroupRoles(p) {
          GroupRolesKeys(p);
          FilterKeepsNone(p, ForUser(u));
        }
      }
    }
  }

  /** One user per profile, in profile order: the grouped roles, or `['student']`. */
  function AttachRoles(profiles: seq<Profile>, m: map<string, seq<AppRole>>): (r: seq<UserWithRole>)
    ensures |r| == |profiles|
    ensures forall i :: 0 <= i < |profiles| ==>
              r[i].profile == profiles[i]
              && r[i].roles == (if profiles[i].userId in m then m[profiles[i].userId] else [Student])
  {
    if |profiles| == 0 then [] else [UserWithRole(profiles[0], if profiles[0].userId in m then m[profiles[0].userId] else [Student])] + AttachRoles(profiles[1..], m)
  }

  /** `fetchUsers`: either query failing keeps the users and records the error;
      otherwise every profile is listed with its roles, `['student']` when it has none. */
  function FetchUsers(st: UsersState, profiles: Reply<Option<seq<Profile>>>, roles: Reply<Option<seq<RoleRow>>>): (r: UsersState)
    ensures !r.loading
    ensures profiles.Err? ==> r == UsersState(st.users, false, Some(ErrorText(profiles.error, "Failed to fetch users")))
    ensures profiles.Ok? && roles.Err? ==> r == UsersState(st.users, false, Some(ErrorText(roles.error, "Failed to fetch users")))
    ensures profiles.Ok? && roles.Ok? ==>
              var ps := if profiles.value.Some? then profiles.value.value else [];
              var rows := if roles.value.Some? then roles.value.value else [];
              r.error.None? && |r.users| == |ps|
              && forall i :: 0 <= i < |ps| ==>
                   r.users[i].profile == ps[i]
                   && |r.users[i].roles| > 0
                   && (RolesOf(rows, ps[i].userId) != [] ==> r.users[i].roles == RolesOf(rows, ps[i].userId))
                   && (RolesOf(rows, ps[i].userId) == [] ==> r.users[i].roles == [Student])
  {
    match profiles
    case Err(e) => UsersState(st.users, false, Some(ErrorText(e, "Failed to fetch users")))
    case Ok(pd) =>
      match roles
      case Err(e) => UsersState(st.users, false, Some(ErrorText(e, "Failed to fetch users")))
      case Ok(rd) =>
        var ps := if pd.Some? then pd.value else [];
        var rows := if rd.Some? then rd.value else [];
        GroupRolesKeys(rows);
        GroupRolesGroups(rows);
        UsersState(AttachRoles(ps, GroupRoles(rows)), false, None)
  }

  /** A profile without any role row is listed as a student. */
  lemma NoRowsMeansStudent(st: UsersState, ps: seq<Profile>, rows: seq<RoleRow>, i: nat)
    requires i < |ps| && forall j :: 0 <= j < |rows| ==> rows[j].userId != ps[i].userId
    ensures FetchUsers(st, Ok(Some(ps)), Ok(Some(rows))).users[i].roles == [Student]
  {
    FilterKeepsNone(rows, ForUser(ps[i].userId));
  }

  /** The Postgres unique-violation code. */
  const DuplicateKey: string := "23505"

  /** `assignRole`: a duplicate counts as success without a refetch; another failure
      records the error and returns false; a success refetches and returns true. */
  function AssignRole(st: UsersState, insert: Reply<()>, profiles: Reply<Option<seq<Profile>>>,
                      roles: Reply<Option<seq<RoleRow>>>): (r: (UsersState, bool))
    ensures r.1 <==> insert.Ok? || insert.error.code == DuplicateKey
    ensures insert.Err? && insert.error.code == DuplicateKey ==> r.0 == st
    ensures insert.Err? && insert.error.code != DuplicateKey ==>
              r.0 == st.(error := Some(ErrorText(insert.error, "Failed to assign role")))
    ensures insert.Ok? ==> r.0 == FetchUsers(st, profiles, roles)
  {
    match insert
    case Err(e) =>
      if e.code == DuplicateKey then (st, true)
      else (st.(error := Some(ErrorText(e, "Failed to assign role"))), false)
    case Ok(_) => (FetchUsers(st, profiles, roles), true)
  }

  /** `removeRole`: a failure records the error and returns false; a success refetches. */
  function RemoveRole(st: UsersState, delete: Reply<()>, profiles: Reply<Option<seq<Profile>>>,
                      roles: Reply<Option<seq<RoleRow>>>): (r: (UsersState, bool))
    ensures r.1 <==> delete.Ok?
    ensures delete.Err? ==> r.0 == st.(error := Some(ErrorText(delete.error, "Failed to remove role")))
    ensures delete.Ok? ==> r.0 == FetchUsers(st, profiles, roles)
  {
    match delete
    case Err(e) => (st.(error := Some(ErrorText(e, "Failed to remove role"))), false)
    case Ok(_) => (FetchUsers(st, profiles, roles), true)
  }

  /** A successful call reports success even when the refetch that follows fails: the
      refetch's failure shows only as the error text. */
  lemma RefetchFailureStillSucceeds(st: UsersState, e: BackendError, roles: Reply<Option<seq<RoleRow>>>)
    ensures AssignRole(st, Ok(()), Err(e), roles).1
    ensures AssignRole(st, Ok(()), Err(e), roles).0.error == Some(ErrorText(e, "Failed to fetch users"))
    ensures AssignRole(st, Ok(()), Err(e), roles).0.users == st.users
  {
  }
}
