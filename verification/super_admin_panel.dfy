/** The derived values and guards of `src/pages/SuperAdminPanel.tsx`: the user table's
    search and role filter, the statistics cards, the role assignment handler, the
    badges that offer role removal, and the page's role guard. */
module SuperAdminPanel {
  import opened Common
  import opened UserRole
  import opened RoleGuard
  import AllUsers
  import Skills

  /** The search: the full name or the roll number contains it, ignoring case; a null
      field never matches. */
  predicate MatchesSearch(u: AllUsers.UserWithRole, search: string)
  {
    OptionalIncludes(u.profile.fullName, search) || OptionalIncludes(u.profile.rollNumber, search)
  }

  /** The role filter: "all", or one of the user's role names. */
  predicate MatchesRole(u: AllUsers.UserWithRole, roleFilter: string)
  {
    roleFilter == "all" || exists r :: r in u.roles && RoleName(r) == roleFilter
  }

  function UserShownBy(search: string, roleFilter: string): AllUsers.UserWithRole -> bool
  {
    (u: AllUsers.UserWithRole) => MatchesSearch(u, search) && MatchesRole(u, roleFilter)
  }

  /** `filteredUsers`: the users passing both tests, in list order. */
  function FilteredUsers(users: seq<AllUsers.UserWithRole>, search: string, roleFilter: string): (r: seq<AllUsers.UserWithRole>)
    ensures |r| <= |users|
    ensures forall u :: u in r <==>
              u in users
              && (OptionalIncludes(u.profile.fullName, search) || OptionalIncludes(u.profile.rollNumber, search))
              && (roleFilter == "all" || exists x :: x in u.roles && RoleName(x) == roleFilter)
  {
    Filter(users, UserShownBy(search, roleFilter))
  }

  /** A user with neither a name nor a roll number is never listed, not even for the
      empty search. */
  lemma NamelessUsersNeverListed(users: seq<AllUsers.UserWithRole>, u: AllUsers.UserWithRole, search: string, roleFilter: string)
    requires u.profile.fullName.None? && u.profile.rollNumber.None?
    ensures u !in FilteredUsers(users, search, roleFilter)
  {
  }

  /** With the empty search and "all", the table lists exactly the users with a name or
      a roll number. */
  lemma EmptySearchListsNamedUsers(users: seq<AllUsers.UserWithRole>)
    ensures forall u :: u in FilteredUsers(users, "", "all") <==>
              u in users && (u.profile.fullName.Some? || u.profile.rollNumber.Some?)
  {
    forall u | u in users
      ensures MatchesSearch(u, "") <==> u.profile.fullName.Some? || u.profile.rollNumber.Some?
    {
      if u.profile.fullName.Some? { IncludesEmpty(Lower(u.profile.fullName.value)); }
      if u.profile.rollNumber.Some? { IncludesEmpty(Lower(u.profile.rollNumber.value)); }
    }
  }

  /** Role names are distinct, so filtering by a role's name is membership of that role. */
  lemma RoleFilterIsMembership(u: AllUsers.UserWithRole, r: AppRole)
    ensures MatchesRole(u, RoleName(r)) <==> r in u.roles
  {
  }

  predicate IsAdminLike(u: AllUsers.UserWithRole)
  {
    Admin in u.roles || SuperAdmin in u.roles
  }

  predicate HoldsBoth(u: AllUsers.UserWithRole)
  {
    Admin in u.roles && SuperAdmin in u.roles
  }

  datatype SuperAdminStats = SuperAdminStats(totalUsers: nat, students: nat, mentors: nat, admins: nat, pendingSkills: nat)

  /** `stats`: over all users and skills, whatever the search and filter show. */
  function Stats(users: seq<AllUsers.UserWithRole>, skills: seq<Skills.Skill>): (r: SuperAdminStats)
    ensures r.totalUsers == |users|
    ensures r.students <= |users| && r.mentors <= |users| && r.admins <= |users|
    ensures forall u :: u in Filter(users, IsAdminLike) <==> u in users && (Admin in u.roles || SuperAdmin in u.roles)
    ensures r.admins == |Filter(users, IsAdminLike)|
    ensures forall u :: u in Filter(users, AllUsers.Holding(Student)) <==> u in users && Student in u.roles
    ensures r.students == |Filter(users, AllUsers.Holding(Student))|
    ensures forall u :: u in Filter(users, AllUsers.Holding(Mentor)) <==> u in users && Mentor in u.roles
    ensures r.mentors == |Filter(users, AllUsers.Holding(Mentor))|
    ensures r.pendingSkills <= |skills|
    ensures forall s :: s in Filter(skills, Skills.IsPending) <==> s in skills && s.status == Skills.Pending
    ensures r.pendingSkills == |Filter(skills, Skills.IsPending)|
  {
    SuperAdminStats(|users|, Count(users, AllUsers.Holding(Student)), Count(users, AllUsers.Holding(Mentor)),
                    Count(users, IsAdminLike), Count(skills, Skills.IsPending))
  }

  /** The admins card counts each user once: a user holding both admin roles is
      counted once, not twice (inclusion and exclusion). */
  lemma {:induction false} AdminsCountedOnce(users: seq<AllUsers.UserWithRole>)
    ensures Stats(users, []).admins + Count(users, HoldsBoth)
         == Count(users, AllUsers.Holding(Admin)) + Count(users, AllUsers.Holding(SuperAdmin))
  {
    if |users| > 0 {
      AdminsCountedOnce(users[1..]);
    }
  }

  /** The user chosen for a new role and the role chosen (none before a choice). */
  datatype RoleDialog = RoleDialog(selected: Option<AllUsers.UserWithRole>, newRole: Option<AppRole>)

  /** `handleAssignRole`: without a selected user and a chosen role nothing happens;
      otherwise `assignRole` is called and, on success, the dialog is cleared. */
  function HandleAssignRole(dlg: RoleDialog, st: AllUsers.UsersState, insert: Reply<()>,
                            profiles: Reply<Option<seq<AllUsers.Profile>>>,
                            roles: Reply<Option<seq<AllUsers.RoleRow>>>): (r: (RoleDialog, AllUsers.UsersState))
    ensures dlg.selected.None? || dlg.newRole.None? ==> r == (dlg, st)
    ensures dlg.selected.Some? && dlg.newRole.Some? ==>
              var (st2, ok) := AllUsers.AssignRole(st, insert, profiles, roles);
              r.1 == st2 && (ok ==> r.0 == RoleDialog(None, None)) && (!ok ==> r.0 == dlg)
  {
    if dlg.selected.None? || dlg.newRole.None? then (dlg, st)
    else
      var (st2, ok) := AllUsers.AssignRole(st, insert, profiles, roles);
      if ok then (RoleDialog(None, None), st2) else (dlg, st2)
  }

  /** Assigning a role the user already holds (a duplicate) clears the dialog without
      touching the list. */
  lemma DuplicateRoleClearsDialog(dlg: RoleDialog, st: AllUsers.UsersState, message: string, isError: bool,
                                  profiles: Reply<Option<seq<AllUsers.Profile>>>, roles: Reply<Option<seq<AllUsers.RoleRow>>>)
    requires dlg.selected.Some? && dlg.newRole.Some?
    ensures HandleAssignRole(dlg, st, Err(BackendError(AllUsers.DuplicateKey, message, isError)), profiles, roles) == (RoleDialog(None, None), st)
  {
  }

  predicate IsStudentRole(x: AppRole) { x == Student }
  predicate NotStudentRole(x: AppRole) { x != Student }

  /** The roles whose badge offers a remove button: all but student, in badge order. */
  function RemovableRoles(u: AllUsers.UserWithRole): (r: seq<AppRole>)
    ensures forall x :: x in r <==> x in u.roles && x != Student
  {
    Filter(u.roles, NotStudentRole)
  }

  /** Every badge but the student ones offers removal: the removable badges and the
      student badges together are all of the user's badges. */
  lemma {:induction false} BadgesSplitAtStudent(roles: seq<AppRole>)
    ensures |Filter(roles, NotStudentRole)| + Count(roles, IsStudentRole) == |roles|
  {
    if |roles| > 0 {
      BadgesSplitAtStudent(roles[1..]);
    }
  }

  /** A user whose only role is student is offered no removal, and one holding every
      role once is offered all but one. */
  lemma RemovableRolesExamples(p: AllUsers.Profile)
    ensures RemovableRoles(AllUsers.UserWithRole(p, [Student])) == []
    ensures |RemovableRoles(AllUsers.UserWithRole(p, [Student, Counsellor, Mentor, Admin, SuperAdmin]))| == 4
  {
    BadgesSplitAtStudent([Student, Counsellor, Mentor, Admin, SuperAdmin]);
  }

  /** The page behind its guard (default fallback path): only super admins. */
  function SuperAdminView(loading: bool, roles: seq<AppRole>): (v: View)
    ensures v == Children <==> !loading && SuperAdmin in roles
    ensures !loading && v != Children ==> v == Redirect("/")
  {
    assert SuperAdmin in roles ==> SuperAdmin in [SuperAdmin] && HasRole(roles, SuperAdmin);
    Guard(loading, roles, [SuperAdmin], None)
  }

  /** An admin without the super-admin role is turned away. */
  lemma AdminIsNotEnough()
    ensures SuperAdminView(false, [Admin]) == Redirect("/")
  {
  }
}
