/** The local list state of `src/hooks/useSkills.ts`. Each backend call is an oracle
    reply; the model states what the hook does with the list, the error text and the
    value it returns for each reply. The clock reading is a
    parameter. */
module Skills {
  import opened Common

  datatype SkillType = Certificate | Internship | Achievement | Extracurricular

  datatype Status = Pending | Verified | Rejected

  /** The two outcomes a reviewer can choose. */
  datatype Decision = Approve | Reject

  datatype Skill = Skill(
    id: string,
    userId: string,
    kind: SkillType,
    title: string,
    description: Option<string>,
    issuingAuthority: Option<string>,
    category: Option<string>,
    url: Option<string>,
    dateObtained: Option<string>,
    status: Status,
    verifiedBy: Option<string>,
    verifiedAt: Option<string>,
    verificationNotes: Option<string>,
    createdAt: string,
    updatedAt: string)

  /** A partial skill input: a field given in the patch overrides the skill's. */
  datatype SkillPatch = SkillPatch(
    kind: Option<SkillType>,
    title: Option<string>,
    description: Option<string>,
    issuingAuthority: Option<string>,
    category: Option<string>,
    url: Option<string>,
    dateObtained: Option<string>)

  predicate IsPending(s: Skill) { s.status == Pending }
  predicate IsVerified(s: Skill) { s.status == Verified }
  predicate IsRejected(s: Skill) { s.status == Rejected }

  datatype SkillsState = SkillsState(skills: seq<Skill>, loading: bool, error: Option<string>)

  /** A string is truthy in JavaScript when it is present and non-empty. */
  predicate Truthy(s: Option<string>)
  {
    s.Some? && s.value != ""
  }

  /** The user whose skills are listed: the given user id when truthy, otherwise the
      signed-in user. */
  function TargetUser(userId: Option<string>, signedIn: Option<string>): (r: Option<string>)
    ensures Truthy(userId) ==> r == userId
    ensures !Truthy(userId) ==> r == signedIn
  {
    if Truthy(userId) then userId else signedIn
  }

  /** `fetchSkills`: with no target user the list is emptied; a failure keeps the list
      and records the error; a success replaces the list (null reads as empty). */
  function FetchSkills(st: SkillsState, target: Option<string>, reply: Reply<Option<seq<Skill>>>): (r: SkillsState)
    ensures !r.loading
    ensures !Truthy(target) ==> r.skills == [] && r.error == st.error
    ensures Truthy(target) && reply.Err? ==>
              r.skills == st.skills && r.error == Some(ErrorText(reply.error, "Failed to fetch skills"))
    ensures Truthy(target) && reply.Ok? ==>
              r.error.None? && r.skills == (if reply.value.Some? then reply.value.value else [])
  {
    if !Truthy(target) then st.(skills := [], loading := false)
    else match reply
      case Err(e) => SkillsState(st.skills, false, Some(ErrorText(e, "Failed to fetch skills")))
      case Ok(data) => SkillsState(if data.Some? then data.value else [], false, None)
  }

  /** `addSkill`: nobody signed in returns null without a call; a success puts the
      stored row first; a failure records the error and returns null. */
  function AddSkill(st: SkillsState, signedIn: Option<string>, reply: Reply<Skill>): (r: (SkillsState, Option<Skill>))
    ensures signedIn.None? ==> r == (st, None)
    ensures signedIn.Some? && reply.Err? ==>
              r.1.None? && r.0 == st.(error := Some(ErrorText(reply.error, "Failed to add skill")))
    ensures signedIn.Some? && reply.Ok? ==>
              r.1 == Some(reply.value) && r.0.error == st.error
              && |r.0.skills| == |st.skills| + 1 && r.0.skills[0] == reply.value && r.0.skills[1..] == st.skills
  {
    if signedIn.None? then (st, None)
    else match reply
      case Err(e) => (st.(error := Some(ErrorText(e, "Failed to add skill"))), None)
      case Ok(row) => (st.(skills := [row] + st.skills), Some(row))
  }

  /** The skill with the patch spread over it: the patch's fields win. */
  function Merge(s: Skill, p: SkillPatch): (r: Skill)
    ensures r.id == s.id && r.userId == s.userId && r.status == s.status
    ensures r.verifiedBy == s.verifiedBy && r.verificationNotes == s.verificationNotes
    ensures p.title.Some? ==> r.title == p.title.value
    ensures p.title.None? ==> r.title == s.title
    ensures p.kind.Some? ==> r.kind == p.kind.value
    ensures p.kind.None? ==> r.kind == s.kind
    ensures r.description == (if p.description.Some? then p.description else s.description)
    ensures r.issuingAuthority == (if p.issuingAuthority.Some? then p.issuingAuthority else s.issuingAuthority)
    ensures r.category == (if p.category.Some? then p.category else s.category)
    ensures r.url == (if p.url.Some? then p.url else s.url)
    ensures r.dateObtained == (if p.dateObtained.Some? then p.dateObtained else s.dateObtained)
    ensures r.verifiedAt == s.verifiedAt && r.createdAt == s.createdAt && r.updatedAt == s.updatedAt
  {
    Skill(s.id, s.userId, Pick(p.kind, s.kind), Pick(p.title, s.title),
          Override(p.description, s.description), Override(p.issuingAuthority, s.issuingAuthority),
          Override(p.category, s.category), Override(p.url, s.url), Override(p.dateObtained, s.dateObtained),
          s.status, s.verifiedBy, s.verifiedAt, s.verificationNotes, s.createdAt, s.updatedAt)
  }

  /** The patch's value for a required field when it has one, else the skill's. */
  function Pick<T>(patch: Option<T>, current: T): T
  {
    if patch.Some? then patch.value else current
  }

  /** The patch's value for an optional field when it has one, else the skill's. */
  function Override<T>(patch: Option<T>, current: Option<T>): Option<T>
  {
    if patch.Some? then patch else current
  }

  /** Merging the same patch twice is merging it once; an empty patch changes nothing. */
  lemma MergeIdempotent(s: Skill, p: SkillPatch)
    ensures Merge(Merge(s, p), p) == Merge(s, p)
    ensures Merge(s, SkillPatch(None, None, None, None, None, None, None)) == s
  {
  }

  /** The list with `f` applied to the skills with that id and the others kept. */
  function UpdateWhere(skills: seq<Skill>, id: string, f: Skill -> Skill): (r: seq<Skill>)
    ensures |r| == |skills|
    ensures forall i :: 0 <= i < |skills| && skills[i].id != id ==> r[i] == skills[i]
    ensures forall i :: 0 <= i < |skills| && skills[i].id == id ==> r[i] == f(skills[i])
  {
    if |skills| == 0 then []
    else [if skills[0].id == id then f(skills[0]) else skills[0]] + UpdateWhere(skills[1..], id, f)
  }

  function MergeWith(p: SkillPatch): Skill -> Skill
  {
    (s: Skill) => Merge(s, p)
  }

  /** `updateSkill`: a success merges the updates into the skills with that id and
      into no other; a failure keeps the list, records the error and returns false. */
  function UpdateSkill(st: SkillsState, id: string, p: SkillPatch, reply: Reply<()>): (r: (SkillsState, bool))
    ensures r.1 <==> reply.Ok?
    ensures reply.Err? ==> r.0 == st.(error := Some(ErrorText(reply.error, "Failed to update skill")))
    ensures reply.Ok? ==>
              r.0.error == st.error && |r.0.skills| == |st.skills|
              && forall i :: 0 <= i < |st.skills| ==>
                   r.0.skills[i].id == st.skills[i].id
                   && r.0.skills[i] == (if st.skills[i].id == id then Merge(st.skills[i], p) else st.skills[i])
  {
    match reply
    case Err(e) => (st.(error := Some(ErrorText(e, "Failed to update skill"))), false)
    case Ok(_) => (st.(skills := UpdateWhere(st.skills, id, MergeWith(p))), true)
  }

  /** Repeating a successful update changes nothing more. */
  lemma UpdateSkillIdempotent(st: SkillsState, id: string, p: SkillPatch)
    ensures var once := UpdateSkill(st, id, p, Ok(())).0;
            UpdateSkill(once, id, p, Ok(())).0 == once
  {
    var once := UpdateSkill(st, id, p, Ok(())).0;
    var twice := UpdateSkill(once, id, p, Ok(())).0;
    forall i | 0 <= i < |st.skills|
      ensures twice.skills[i] == once.skills[i]
    {
      MergeIdempotent(st.skills[i], p);
    }
  }

  function NotId(id: string): Skill -> bool
  {
    (s: Skill) => s.id != id
  }

  /** `deleteSkill`: a success removes exactly the skills with that id and keeps the
      order of the rest; a failure keeps the list and records the error. */
  function DeleteSkill(st: SkillsState, id: string, reply: Reply<()>): (r: (SkillsState, bool))
    ensures r.1 <==> reply.Ok?
    ensures reply.Err? ==> r.0 == st.(error := Some(ErrorText(reply.error, "Failed to delete skill")))
    ensures reply.Ok? ==>
              r.0.error == st.error
              && (forall s :: s in r.0.skills <==> s in st.skills && s.id != id)
              && r.0.skills == Filter(st.skills, NotId(id))
  {
    match reply
    case Err(e) => (st.(error := Some(ErrorText(e, "Failed to delete skill"))), false)
    case Ok(_) => (st.(skills := Filter(st.skills, NotId(id))), true)
  }

  /** Adding a skill with a fresh id and then deleting it gives back the list. */
  lemma AddThenDelete(st: SkillsState, user: string, row: Skill)
    requires forall i :: 0 <= i < |st.skills| ==> st.skills[i].id != row.id
    ensures var added := AddSkill(st, Some(user), Ok(row)).0;
            DeleteSkill(added, row.id, Ok(())).0.skills == st.skills
  {
    FilterConcat([row], st.skills, NotId(row.id));
    FilterKeepsAll(st.skills, NotId(row.id));
  }

  /** The status a decision stores. */
  function StatusOf(d: Decision): Status
  {
    match d
    case Approve => Verified
    case Reject => Rejected
  }

  /** The fields a review writes: the decision, the reviewer, the time, and the notes
      (empty or absent notes are stored as null). */
  function Review(d: Decision, reviewer: string, now: string, notes: Option<string>): Skill -> Skill
  {
    (s: Skill) => s.(status := StatusOf(d), verifiedBy := Some(reviewer), verifiedAt := Some(now),
                     verificationNotes := if Truthy(notes) then notes else None)
  }

  /** `verifySkill`: nobody signed in returns false without a call; a success records
      the decision on the skills with that id only; a failure keeps the list. */
  function VerifySkill(st: SkillsState, signedIn: Option<string>, id: string, d: Decision, notes: Option<string>,
                       now: string, reply: Reply<()>): (r: (SkillsState, bool))
    ensures r.1 <==> signedIn.Some? && reply.Ok?
    ensures signedIn.None? ==> r.0 == st
    ensures signedIn.Some? && reply.Err? ==> r.0 == st.(error := Some(ErrorText(reply.error, "Failed to verify skill")))
    ensures r.1 ==>
              r.0.error == st.error && |r.0.skills| == |st.skills|
              && forall i :: 0 <= i < |st.skills| ==>
                   if st.skills[i].id == id then
                     r.0.skills[i] == st.skills[i].(status := StatusOf(d), verifiedBy := signedIn,
                                                    verifiedAt := Some(now),
                                                    verificationNotes := if Truthy(notes) then notes else None)
                   else r.0.skills[i] == st.skills[i]
    ensures r.1 ==> forall i :: 0 <= i < |st.skills| && st.skills[i].id == id ==>
              (r.0.skills[i].verificationNotes.None? <==> !Truthy(notes))
  {
    if signedIn.None? then (st, false)
    else match reply
      case Err(e) => (st.(error := Some(ErrorText(e, "Failed to verify skill"))), false)
      case Ok(_) => (st.(skills := UpdateWhere(st.skills, id, Review(d, signedIn.value, now, notes))), true)
  }

  /** Empty review notes are stored as null, like absent ones. */
  lemma EmptyNotesBecomeNull(st: SkillsState, reviewer: string, id: string, d: Decision, now: string)
    ensures VerifySkill(st, Some(reviewer), id, d, Some(""), now, Ok(())).0
         == VerifySkill(st, Some(reviewer), id, d, None, now, Ok(())).0
  {
  }
}
