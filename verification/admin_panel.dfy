/** The derived values and guards of `src/pages/AdminPanel.tsx`: the student and mentor
    lists, the skill table's filter, the statistics cards, the review and
    mentor-assignment handlers, and the page's role guard. */
module AdminPanel {
  import opened Common
  import opened UserRole
  import opened RoleGuard
  import AllUsers
  import Skills
  import MentorAssignments

  /** The student list: the users holding the student role, in list order. */
  function StudentsOf(users: seq<AllUsers.UserWithRole>): (r: seq<AllUsers.UserWithRole>)
    ensures forall u :: u in r <==> u in users && Student in u.roles
  {
    Filter(users, AllUsers.Holding(Student))
  }

  /** The mentor list: the users holding the mentor role, in list order. */
  function MentorsOf(users: seq<AllUsers.UserWithRole>): (r: seq<AllUsers.UserWithRole>)
    ensures forall u :: u in r <==> u in users && Mentor in u.roles
  {
    Filter(users, AllUsers.Holding(Mentor))
  }

  /** The two lists are not a partition: a user holding both roles is in both, and a
      user holding neither is in neither. */
  lemma StudentAndMentorListsOverlap(users: seq<AllUsers.UserWithRole>, u: AllUsers.UserWithRole)
    requires u in users
    ensures u in StudentsOf(users) && u in MentorsOf(users) <==> Student in u.roles && Mentor in u.roles
    ensures u !in StudentsOf(users) && u !in MentorsOf(users) <==> Student !in u.roles && Mentor !in u.roles
  {
  }

  /** The status name the status filter compares with. */
  function StatusName(s: Skills.Status): string
  {
    match s
    case Pending => "pending"
    case Verified => "verified"
    case Rejected => "rejected"
  }

  predicate SkillShown(s: Skills.Skill, search: string, statusFilter: string)
  {
    (statusFilter == "all" || StatusName(s.status) == statusFilter)
    && Includes(Lower(s.title), Lower(search))
  }

  function SkillShownBy(search: string, statusFilter: string): Skills.Skill -> bool
  {
    (s: Skills.Skill) => SkillShown(s, search, statusFilter)
  }

  /** `filteredSkills`: the skills whose status matches (or any, on "all") and whose
      title contains the search, ignoring case; in list order. */
  function FilteredSkills(skills: seq<Skills.Skill>, search: string, statusFilter: string): (r: seq<Skills.Skill>)
    ensures |r| <= |skills|
    ensures forall s :: s in r <==>
              s in skills && (statusFilter == "all" || StatusName(s.status) == statusFilter)
              && Includes(Lower(s.title), Lower(search))
  {
    Filter(skills, SkillShownBy(search, statusFilter))
  }

  /** The skill filter keeps the list order. */
  lemma FilteredSkillsKeepOrder(a: seq<Skills.Skill>, b: seq<Skills.Skill>, search: string, statusFilter: string)
    ensures FilteredSkills(a + b, search, statusFilter) == FilteredSkills(a, search, statusFilter) + FilteredSkills(b, search, statusFilter)
  {
    FilterConcat(a, b, SkillShownBy(search, statusFilter));
  }

  /** The "pending" filter with an empty search lists exactly the skills awaiting review. */
  lemma PendingFilterListsPending(skills: seq<Skills.Skill>)
    ensures forall s :: s in FilteredSkills(skills, "", "pending") <==> s in skills && s.status == Skills.Pending
  {
    forall s | s in skills
      ensures Includes(Lower(s.title), Lower(""))
    {
      IncludesEmpty(Lower(s.title));
    }
  }

  datatype AdminStats = AdminStats(totalStudents: nat, totalMentors: nat, pendingSkills: nat, verifiedSkills: nat)

  /** `stats`: over all users and skills, whatever the search and filter show. */
  function Stats(users: seq<AllUsers.UserWithRole>, skills: seq<Skills.Skill>): (r: AdminStats)
    ensures r.totalStudents == |StudentsOf(users)| && r.totalMentors == |MentorsOf(users)|
    ensures r.totalStudents <= |users| && r.totalMentors <= |users|
    ensures r.pendingSkills == |Filter(skills, Skills.IsPending)| && r.verifiedSkills == |Filter(skills, Skills.IsVerified)|
    ensures forall s :: s in Filter(skills, Skills.IsPending) <==> s in skills && s.status == Skills.Pending
    ensures forall s :: s in Filter(skills, Skills.IsVerified) <==> s in skills && s.status == Skills.Verified
  {
    AdminStats(|StudentsOf(users)|, |MentorsOf(users)|, Count(skills, Skills.IsPending), Count(skills, Skills.IsVerified))
  }

  /** Every skill is pending, verified or rejected, so the two skill cards and the
      rejected count add up to the number of skills. */
  lemma {:induction false} SkillCountsPartition(skills: seq<Skills.Skill>)
    ensures Stats([], skills).pendingSkills + Stats([], skills).verifiedSkills + Count(skills, Skills.IsRejected) == |skills|
  {
    if |skills| > 0 {
      SkillCountsPartition(skills[1..]);
    }
  }

  /** The Verify button is offered only for pending skills. */
  predicate VerifyOffered(s: Skills.Skill)
  {
    s.status == Skills.Pending
  }

  /** The skill selected for review and the notes typed for it. */
  datatype Review = Review(selected: Option<Skills.Skill>, notes: string)

  /** `handleVerify`: without a selected skill nothing happens; a successful review
      clears the selection and the notes and asks for a refetch; a failed one keeps
      them. The third component says whether the skills are refetched. */
  function HandleVerify(rv: Review, st: Skills.SkillsState, signedIn: Option<string>, d: Skills.Decision,
                        now: string, reply: Reply<()>): (r: (Review, Skills.SkillsState, bool))
    ensures rv.selected.None? ==> r == (rv, st, false)
    ensures rv.selected.Some? ==>
              var (st2, ok) := Skills.VerifySkill(st, signedIn, rv.selected.value.id, d, Some(rv.notes), now, reply);
              r.1 == st2 && r.2 == ok && (ok ==> r.0 == Review(None, "")) && (!ok ==> r.0 == rv)
  {
    if rv.selected.None? then (rv, st, false)
    else
      var (st2, ok) := Skills.VerifySkill(st, signedIn, rv.selected.value.id, d, Some(rv.notes), now, reply);
      if ok then (Review(None, ""), st2, true) else (rv, st2, false)
  }

  /** After a successful review the reviewed skill is no longer offered for review. */
  lemma ReviewedSkillNotOfferedAgain(rv: Review, st: Skills.SkillsState, reviewer: string, d: Skills.Decision, now: string, i: nat)
    requires rv.selected.Some? && i < |st.skills| && st.skills[i].id == rv.selected.value.id
    ensures var r := HandleVerify(rv, st, Some(reviewer), d, now, Ok(()));
            r.2 && i < |r.1.skills| && !VerifyOffered(r.1.skills[i])
  {
  }

  /** The mentor-assignment dialog: whether it is open and the two selections. */
  datatype AssignDialog = AssignDialog(open: bool, mentor: string, student: string)

  const SelectBoth: string := "Please select both mentor and student"
  const Assigned: string := "Student assigned to mentor"

  /** `handleAssignMentor`: without both selections it only complains and calls
      nothing; otherwise it calls `assignStudent` and, on success, closes the dialog
      and clears the selections. The third component is the notice shown, if any. */
  function HandleAssignMentor(dlg: AssignDialog, st: MentorAssignments.AssignmentsState, insert: Reply<()>,
                              reply: Reply<Option<seq<MentorAssignments.Assignment>>>,
                              profiles: Option<seq<MentorAssignments.ProfileRow>>): (r: (AssignDialog, MentorAssignments.AssignmentsState, Option<string>))
    ensures dlg.mentor == "" || dlg.student == "" ==> r == (dlg, st, Some(SelectBoth))
    ensures dlg.mentor != "" && dlg.student != "" && insert.Ok? ==>
              r.0 == AssignDialog(false, "", "") && r.2 == Some(Assigned)
              && r.1 == MentorAssignments.FetchAssignments(st, reply, profiles)
    ensures dlg.mentor != "" && dlg.student != "" && insert.Err? ==>
              r.0 == dlg && r.2.None? && r.1.assignments == st.assignments && r.1.error.Some?
  {
    if dlg.mentor == "" || dlg.student == "" then (dlg, st, Some(SelectBoth))
    else
      var (st2, ok) := MentorAssignments.AssignStudent(st, insert, reply, profiles);
      if ok then (AssignDialog(false, "", ""), st2, Some(Assigned)) else (dlg, st2, None)
  }

  /** Assigning the same pair again reports that the student is already assigned and
      leaves the dialog open with its selections. */
  lemma DuplicateAssignmentKeepsDialog(dlg: AssignDialog, st: MentorAssignments.AssignmentsState, message: string, isError: bool,
                                       reply: Reply<Option<seq<MentorAssignments.Assignment>>>,
                                       profiles: Option<seq<MentorAssignments.ProfileRow>>)
    requires dlg.mentor != "" && dlg.student != ""
    ensures var r := HandleAssignMentor(dlg, st, Err(BackendError(MentorAssignments.DuplicateKey, message, isError)), reply, profiles);
            r.0 == dlg && r.1.error == Some(MentorAssignments.AlreadyAssigned)
  {
  }

  /** The roles the page admits. */
  const AdminRoles: seq<AppRole> := [Admin, SuperAdmin]

  lemma AdminAccessMembers(roles: seq<AppRole>)
    ensures HasAccess(roles, AdminRoles) <==> Admin in roles || SuperAdmin in roles
  {
    if Admin in roles { assert Admin in AdminRoles && HasRole(roles, Admin); }
    if SuperAdmin in roles { assert SuperAdmin in AdminRoles && HasRole(roles, SuperAdmin); }
  }

  /** The page behind its guard (default fallback path). */
  function AdminView(loading: bool, roles: seq<AppRole>): (v: View)
    ensures v == Children <==> !loading && (Admin in roles || SuperAdmin in roles)
    ensures !loading && v != Children ==> v == Redirect("/")
  {
    AdminAccessMembers(roles);
    Guard(loading, roles, AdminRoles, None)
  }

  /** Because admin and super admin are the two highest ranks, admission by membership
      coincides with being at least an admin. */
  lemma AdminAccessIsRank(roles: seq<AppRole>)
    ensures AdminView(false, roles) == Children <==> IsAtLeast(roles, Admin)
  {
  }
}
