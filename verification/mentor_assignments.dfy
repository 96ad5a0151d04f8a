/** The assignment list of `src/hooks/useMentorAssignments.ts`: assignments joined with
    the profiles of their mentor and student, the assignment insert with its duplicate
    check, and removal. Backend calls are oracle replies. */
module MentorAssignments {
  import opened Common

  datatype Assignment = Assignment(
    id: string,
    mentorId: string,
    studentId: string,
    assignedBy: Option<string>,
    assignedAt: string,
    notes: Option<string>)

  /** The profile columns the join selects. */
  datatype ProfileRow = ProfileRow(userId: string, fullName: Option<string>, rollNumber: Option<string>, course: Option<string>)

  /** An assignment with its looked-up profiles (`undefined` when absent). */
  datatype Enriched = Enriched(assignment: Assignment, mentorProfile: Option<ProfileRow>, studentProfile: Option<ProfileRow>)

  datatype AssignmentsState = AssignmentsState(assignments: seq<Enriched>, loading: bool, error: Option<string>)

  function MentorIds(data: seq<Assignment>): (r: seq<string>)
    ensures |r| == |data| && forall i :: 0 <= i < |data| ==> r[i] == data[i].mentorId
  {
    if |data| == 0 then [] else [data[0].mentorId] + MentorIds(data[1..])
  }

  function StudentIds(data: seq<Assignment>): (r: seq<string>)
    ensures |r| == |data| && forall i :: 0 <= i < |data| ==> r[i] == data[i].studentId
  {
    if |data| == 0 then [] else [data[0].studentId] + StudentIds(data[1..])
  }

  /** The ids whose profiles the fetch requests: the distinct mentor ids, then the
      student ids not already listed, each once. The request itself goes to the
      backend, whose answer `FetchAssignments` takes as a parameter. */
  function ProfileIds(data: seq<Assignment>): (r: seq<string>)
    ensures NoDuplicates(r)
    ensures forall x :: x in r <==> exists i :: 0 <= i < |data| && (data[i].mentorId == x || data[i].studentId == x)
  {
    var r := Dedup(Dedup(MentorIds(data)) + Dedup(StudentIds(data)));
    assert forall x :: x in r ==> exists i :: 0 <= i < |data| && (data[i].mentorId == x || data[i].studentId == x) by {
      forall x | x in r
        ensures exists i :: 0 <= i < |data| && (data[i].mentorId == x || data[i].studentId == x)
      {
        if x in MentorIds(data) {
          var i :| 0 <= i < |data| && MentorIds(data)[i] == x;
        } else {
          var i :| 0 <= i < |data| && StudentIds(data)[i] == x;
        }
      }
    }
    assert forall i :: 0 <= i < |data| ==> data[i].mentorId in r && data[i].studentId in r by {
      forall i | 0 <= i < |data|
        ensures data[i].mentorId in r && data[i].studentId in r
      {
        assert MentorIds(data)[i] == data[i].mentorId;
        assert StudentIds(data)[i] == data[i].studentId;
      }
    }
    r
  }

  /** The profile map keyed by user id, built entry by entry in profile order. */
  function ProfileMap(ps: seq<ProfileRow>): (m: map<string, ProfileRow>)
  {
    if |ps| == 0 then map[] else ProfileMap(ps[..|ps| - 1])[ps[|ps| - 1].userId := ps[|ps| - 1]]
  }

  /** The map has an entry exactly for the user ids among the profiles. */
  lemma {:induction false} ProfileMapKeys(ps: seq<ProfileRow>)
    ensures forall u :: u in ProfileMap(ps) <==> exists i :: 0 <= i < |ps| && ps[i].userId == u
  {
    if |ps| > 0 {
      var p := ps[..|ps| - 1];
      ProfileMapKeys(p);
      forall u
        ensures u in ProfileMap(ps) <==> exists i :: 0 <= i < |ps| && ps[i].userId == u
      {
        if exists i :: 0 <= i < |ps| && ps[i].userId == u {
          var i :| 0 <= i < |ps| && ps[i].userId == u;
          if i < |p| { assert p[i].userId == u; }
        }
        if u in ProfileMap(p) {
          var i :| 0 <= i < |p| && p[i].userId == u;
          assert ps[i].userId == u;
        }
      }
    }
  }

  /** Each entry is a profile of the user it is filed under. */
  lemma {:induction false} ProfileMapFilesByUser(ps: seq<ProfileRow>)
    ensures forall u :: u in ProfileMap(ps) ==> ProfileMap(ps)[u].userId == u && ProfileMap(ps)[u] in ps
  {
    if |ps| > 0 {
      var p := ps[..|ps| - 1];
      ProfileMapFilesByUser(p);
      assert forall x :: x in p ==> x in ps;
    }
  }

  /** A later profile with the same user id replaces an earlier one: the last profile
      of a user is the one the map keeps. */
  lemma {:induction false} ProfileMapLastWins(ps: seq<ProfileRow>, i: nat)
    requires i < |ps| && forall j :: i < j < |ps| ==> ps[j].userId != ps[i].userId
    ensures ps[i].userId in ProfileMap(ps) && ProfileMap(ps)[ps[i].userId] == ps[i]
  {
    if i < |ps| - 1 {
      var p := ps[..|ps| - 1];
      assert forall j :: i < j < |p| ==> p[j] == ps[j];
      ProfileMapLastWins(p, i);
    }
  }

  /** `p` is the last of the returned profiles that belongs to user `u`. */
  ghost predicate LastProfileOf(ps: seq<ProfileRow>, u: string, p: ProfileRow)
  {
    exists j :: 0 <= j < |ps| && ps[j] == p && p.userId == u
                && forall k :: j < k < |ps| ==> ps[k].userId != u
  }

  /** Every entry of the map is the last profile returned for its user. */
  lemma {:induction false} ProfileMapHoldsLast(ps: seq<ProfileRow>)
    ensures forall u :: u in ProfileMap(ps) ==> LastProfileOf(ps, u, ProfileMap(ps)[u])
  {
    if |ps| > 0 {
      var p := ps[..|ps| - 1];
      var last := ps[|ps| - 1];
      ProfileMapHoldsLast(p);
      forall u | u in ProfileMap(ps)
        ensures LastProfileOf(ps, u, ProfileMap(ps)[u])
      {
        if u == last.userId {
          assert ps[|ps| - 1] == ProfileMap(ps)[u];
        } else {
          assert LastProfileOf(p, u, ProfileMap(p)[u]);
          var j :| 0 <= j < |p| && p[j] == ProfileMap(p)[u] && ProfileMap(p)[u].userId == u
                   && forall k :: j < k < |p| ==> p[k].userId != u;
          assert ps[j] == ProfileMap(ps)[u];
          assert forall k :: j < k < |ps| ==> ps[k].userId != u by {
            forall k | j < k < |ps|
              ensures ps[k].userId != u
            {
              if k < |p| { assert ps[k] == p[k]; }
            }
          }
        }
      }
    }
  }

  function Lookup(m: map<string, ProfileRow>, u: string): Option<ProfileRow>
  {
    if u in m then Some(m[u]) else None
  }

  /** One enriched row per assignment, in order, with the profiles of its mentor and
      student. */
  function Enrich(data: seq<Assignment>, m: map<string, ProfileRow>): (r: seq<Enriched>)
    ensures |r| == |data|
    ensures forall i :: 0 <= i < |data| ==>
              r[i].assignment == data[i]
              && (r[i].mentorProfile.Some? <==> data[i].mentorId in m)
              && (r[i].mentorProfile.Some? ==> r[i].mentorProfile.value == m[data[i].mentorId])
              && (r[i].studentProfile.Some? <==> data[i].studentId in m)
              && (r[i].studentProfile.Some? ==> r[i].studentProfile.value == m[data[i].studentId])
  {
    if |data| == 0 then []
    else [Enriched(data[0], Lookup(m, data[0].mentorId), Lookup(m, data[0].studentId))] + Enrich(data[1..], m)
  }

  /** `fetchAssignments`: a failed assignment query keeps the list and records the
      error; the profile query's error is not checked, so a missing answer just leaves
      every profile undefined. */
  function FetchAssignments(st: AssignmentsState, reply: Reply<Option<seq<Assignment>>>, profiles: Option<seq<ProfileRow>>): (r: AssignmentsState)
    ensures !r.loading
    ensures reply.Err? ==> r == AssignmentsState(st.assignments, false, Some(ErrorText(reply.error, "Failed to fetch assignments")))
    ensures reply.Ok? ==>
              var data := if reply.value.Some? then reply.value.value else [];
              var ps := if profiles.Some? then profiles.value else [];
              r.error.None? && |r.assignments| == |data|
              && forall i :: 0 <= i < |data| ==>
                   r.assignments[i].assignment == data[i]
                   && (r.assignments[i].studentProfile.Some? <==> exists j :: 0 <= j < |ps| && ps[j].userId == data[i].studentId)
                   && (r.assignments[i].mentorProfile.Some? <==> exists j :: 0 <= j < |ps| && ps[j].userId == data[i].mentorId)
                   && (r.assignments[i].studentProfile.Some? ==>
                         LastProfileOf(ps, data[i].studentId, r.assignments[i].studentProfile.value))
                   && (r.assignments[i].mentorProfile.Some? ==>
                         LastProfileOf(ps, data[i].mentorId, r.assignments[i].mentorProfile.value))
  {
    match reply
    case Err(e) => AssignmentsState(st.assignments, false, Some(ErrorText(e, "Failed to fetch assignments")))
    case Ok(d) =>
      var data := if d.Some? then d.value else [];
      var ps := if profiles.Some? then profiles.value else [];
      ProfileMapKeys(ps);
      ProfileMapHoldsLast(ps);
      AssignmentsState(Enrich(data, ProfileMap(ps)), false, None)
  }

  /** Whatever the profile answer holds, a profile attached to a row belongs to one of
      the requested ids: profiles of users outside the request never show. */
  lemma AttachedProfilesWereRequested(st: AssignmentsState, data: seq<Assignment>, profiles: Option<seq<ProfileRow>>, i: nat)
    requires i < |data|
    ensures var r := FetchAssignments(st, Ok(Some(data)), profiles);
            (r.assignments[i].studentProfile.Some? ==> r.assignments[i].studentProfile.value.userId in ProfileIds(data))
            && (r.assignments[i].mentorProfile.Some? ==> r.assignments[i].mentorProfile.value.userId in ProfileIds(data))
  {
    var ps := if profiles.Some? then profiles.value else [];
    var m := ProfileMap(ps);
    var rows := Enrich(data, m);
    assert FetchAssignments(st, Ok(Some(data)), profiles).assignments == rows;
    ProfileMapFilesByUser(ps);
    assert rows[i].studentProfile.Some? ==> rows[i].studentProfile.value.userId == data[i].studentId;
    assert rows[i].mentorProfile.Some? ==> rows[i].mentorProfile.value.userId == data[i].mentorId;
    assert data[i].studentId in ProfileIds(data);
    assert data[i].mentorId in ProfileIds(data);
  }

  /** Without any profile answer every assignment is still listed, with no profiles. */
  lemma MissingProfilesLeaveRowsBare(st: AssignmentsState, data: seq<Assignment>, i: nat)
    requires i < |data|
    ensures var r := FetchAssignments(st, Ok(Some(data)), None);
            |r.assignments| == |data| && r.assignments[i].studentProfile.None? && r.assignments[i].mentorProfile.None?
  {
  }

  /** The row `assignStudent` inserts; the id and time are filled in by the database. */
  datatype NewAssignment = NewAssignment(mentorId: string, studentId: string, assignedBy: Option<string>, notes: Option<string>)

  /** The insert payload: the signed-in user as assigner, and the notes, or null when they are empty or absent. */
  function InsertRow(mentorId: string, studentId: string, signedIn: Option<string>, notes: Option<string>): (r: NewAssignment)
    ensures r.mentorId == mentorId && r.studentId == studentId && r.assignedBy == signedIn
    ensures r.notes.None? <==> notes.None? || notes.value == ""
    ensures r.notes.Some? ==> r.notes == notes
  {
    NewAssignment(mentorId, studentId, signedIn, if notes.Some? && notes.value != "" then notes else None)
  }

  const DuplicateKey: string := "23505"

  const AlreadyAssigned: string := "This student is already assigned to this mentor"

  /** `assignStudent`: a duplicate pair reports that the student is already assigned;
      another failure records its message; a success refetches. Only a success returns
      true. */
  function AssignStudent(st: AssignmentsState, insert: Reply<()>, reply: Reply<Option<seq<Assignment>>>,
                         profiles: Option<seq<ProfileRow>>): (r: (AssignmentsState, bool))
    ensures r.1 <==> insert.Ok?
    ensures insert.Err? && insert.error.code == DuplicateKey ==> r.0 == st.(error := Some(AlreadyAssigned))
    ensures insert.Err? && insert.error.code != DuplicateKey ==>
              r.0 == st.(error := Some(ErrorText(insert.error, "Failed to assign student")))
    ensures insert.Ok? ==> r.0 == FetchAssignments(st, reply, profiles)
  {
    match insert
    case Err(e) =>
      if e.code == DuplicateKey then (st.(error := Some(AlreadyAssigned)), false)
      else (st.(error := Some(ErrorText(e, "Failed to assign student"))), false)
    case Ok(_) => (FetchAssignments(st, reply, profiles), true)
  }

  function NotAssignment(id: string): Enriched -> bool
  {
    (a: Enriched) => a.assignment.id != id
  }

  /** `removeAssignment`: a success removes exactly the rows with that id, keeping the
      order of the rest; a failure keeps the list. */
  function RemoveAssignment(st: AssignmentsState, id: string, delete: Reply<()>): (r: (AssignmentsState, bool))
    ensures r.1 <==> delete.Ok?
    ensures delete.Err? ==> r.0 == st.(error := Some(ErrorText(delete.error, "Failed to remove assignment")))
    ensures delete.Ok? ==>
              r.0.error == st.error
              && (forall a :: a in r.0.assignments <==> a in st.assignments && a.assignment.id != id)
              && r.0.assignments == Filter(st.assignments, NotAssignment(id))
  {
    match delete
    case Err(e) => (st.(error := Some(ErrorText(e, "Failed to remove assignment"))), false)
    case Ok(_) => (st.(assignments := Filter(st.assignments, NotAssignment(id))), true)
  }

  /** Removing an id that is not listed changes nothing; removing twice is removing once. */
  lemma RemoveAssignmentIdempotent(st: AssignmentsState, id: string)
    ensures var once := RemoveAssignment(st, id, Ok(())).0;
            RemoveAssignment(once, id, Ok(())).0 == once
  {
    var once := RemoveAssignment(st, id, Ok(())).0;
    FilterKeepsAll(once.assignments, NotAssignment(id));
  }
}
