/** The derived values and guard of `src/pages/MentorPanel.tsx`: the search over the
    mentor's assigned students, the statistics cards, and the page's role guard. */
module MentorPanel {
  import opened Common
  import opened UserRole
  import opened RoleGuard
  import MentorAssignments

  /** The search: the student's name or roll number contains it, ignoring case. A
      missing profile or a null field never matches. */
  predicate MatchesSearch(a: MentorAssignments.Enriched, search: string)
  {
    a.studentProfile.Some?
    && (OptionalIncludes(a.studentProfile.value.fullName, search)
        || OptionalIncludes(a.studentProfile.value.rollNumber, search))
  }

  function ShownBy(search: string): MentorAssignments.Enriched -> bool
  {
    (a: MentorAssignments.Enriched) => MatchesSearch(a, search)
  }

  /** `filteredAssignments`: the assignments whose student matches, in list order. */
  function FilteredAssignments(assignments: seq<MentorAssignments.Enriched>, search: string): (r: seq<MentorAssignments.Enriched>)
    ensures |r| <= |assignments|
    ensures forall a :: a in r <==>
              a in assignments && a.studentProfile.Some?
              && (OptionalIncludes(a.studentProfile.value.fullName, search)
                  || OptionalIncludes(a.studentProfile.value.rollNumber, search))
  {
    Filter(assignments, ShownBy(search))
  }

  /** An assignment whose student profile is missing, or has neither a name nor a roll
      number, is never listed, not even for the empty search. */
  lemma UnnamedStudentsNeverListed(assignments: seq<MentorAssignments.Enriched>, a: MentorAssignments.Enriched, search: string)
    requires a.studentProfile.None? || (a.studentProfile.value.fullName.None? && a.studentProfile.value.rollNumber.None?)
    ensures a !in FilteredAssignments(assignments, search)
  {
  }

  /** The empty search lists every assignment whose student has a name. */
  lemma EmptySearchListsNamedStudents(assignments: seq<MentorAssignments.Enriched>)
    requires forall i :: 0 <= i < |assignments| ==>
               assignments[i].studentProfile.Some? && assignments[i].studentProfile.value.fullName.Some?
    ensures FilteredAssignments(assignments, "") == assignments
  {
    forall i | 0 <= i < |assignments|
      ensures MatchesSearch(assignments[i], "")
    {
      IncludesEmpty(Lower(assignments[i].studentProfile.value.fullName.value));
    }
    FilterKeepsAll(assignments, ShownBy(""));
  }

  datatype MentorStats = MentorStats(totalStudents: nat, recentFeedback: nat)

  /** `stats`: every assignment counts, whatever the search shows; the feedback card is
      always 0. */
  function Stats(assignments: seq<MentorAssignments.Enriched>): (r: MentorStats)
    ensures r.totalStudents == |assignments| && r.recentFeedback == 0
  {
    MentorStats(|assignments|, 0)
  }

  /** The search never shows more students than the card counts. */
  lemma ListedWithinTotal(assignments: seq<MentorAssignments.Enriched>, search: string)
    ensures |FilteredAssignments(assignments, search)| <= Stats(assignments).totalStudents
  {
  }

  /** The roles the page admits. */
  const MentorRoles: seq<AppRole> := [Mentor, Admin, SuperAdmin]

  lemma MentorAccessMembers(roles: seq<AppRole>)
    ensures HasAccess(roles, MentorRoles) <==> Mentor in roles || Admin in roles || SuperAdmin in roles
  {
    if Mentor in roles { assert Mentor in MentorRoles && HasRole(roles, Mentor); }
    if Admin in roles { assert Admin in MentorRoles && HasRole(roles, Admin); }
    if SuperAdmin in roles { assert SuperAdmin in MentorRoles && HasRole(roles, SuperAdmin); }
  }

  /** The page behind its guard (default fallback path). */
  function MentorView(loading: bool, roles: seq<AppRole>): (v: View)
    ensures v == Children <==> !loading && (Mentor in roles || Admin in roles || SuperAdmin in roles)
    ensures !loading && v != Children ==> v == Redirect("/")
  {
    MentorAccessMembers(roles);
    Guard(loading, roles, MentorRoles, None)
  }

  /** The admitted roles are exactly the ranks from mentor up, so admission coincides
      with being at least a mentor; a counsellor is turned away. */
  lemma MentorAccessIsRank(roles: seq<AppRole>)
    ensures MentorView(false, roles) == Children <==> IsAtLeast(roles, Mentor)
    ensures MentorView(false, [Counsellor]) == Redirect("/")
  {
    if IsAtLeast(roles, Mentor) {
      var x :| x in roles && Rank(x) >= Rank(Mentor);
      assert x == Mentor || x == Admin || x == SuperAdmin;
    }
  }
}
