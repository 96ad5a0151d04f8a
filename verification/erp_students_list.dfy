/** The derived values of `src/components/ERPStudentsList.tsx`: the branch choices, the
    search and filter predicate of the table, and the at-risk count. */
module ErpStudentsList {
  import opened Common
  import opened ErpClient

  /** The status text the status filter compares with. */
  function StatusName(s: Status): string
  {
    match s
    case Regular => "Regular"
    case LowAttendance => "Low Attendance"
    case Detained => "Detained"
  }

  function BranchesOf(students: seq<ErpStudent>): (r: seq<string>)
    ensures |r| == |students| && forall i :: 0 <= i < |students| ==> r[i] == students[i].branch
  {
    if |students| == 0 then [] else [students[0].branch] + BranchesOf(students[1..])
  }

  /** `branches`: each branch once, in the order of its first student. */
  function Branches(students: seq<ErpStudent>): (r: seq<string>)
    ensures NoDuplicates(r)
    ensures forall b :: b in r <==> exists i :: 0 <= i < |students| && students[i].branch == b
    ensures forall b :: b in r <==> b in BranchesOf(students)
    ensures forall i, j :: 0 <= i < j < |r| ==> FirstIndex(BranchesOf(students), r[i]) < FirstIndex(BranchesOf(students), r[j])
  {
    var names := BranchesOf(students);
    DedupFirstOccurrenceOrder(names);
    assert forall b :: b in names ==> exists i :: 0 <= i < |students| && students[i].branch == b by {
      forall b | b in names
        ensures exists i :: 0 <= i < |students| && students[i].branch == b
      {
        var i :| 0 <= i < |names| && names[i] == b;
      }
    }
    Dedup(names)
  }

  /** Case-insensitive substring match on the name or the roll number. */
  predicate MatchesSearch(s: ErpStudent, search: string)
  {
    Includes(Lower(s.name), Lower(search)) || Includes(Lower(s.rollNo), Lower(search))
  }

  /** The three tests of `filteredStudents`; the filters pass everything on "all". */
  predicate Shown(s: ErpStudent, search: string, branchFilter: string, statusFilter: string)
  {
    MatchesSearch(s, search)
    && (branchFilter == "all" || s.branch == branchFilter)
    && (statusFilter == "all" || StatusName(s.status) == statusFilter)
  }

  function ShownBy(search: string, branchFilter: string, statusFilter: string): ErpStudent -> bool
  {
    (s: ErpStudent) => Shown(s, search, branchFilter, statusFilter)
  }

  /** `filteredStudents`: the students passing all three tests, in list order. */
  function FilteredStudents(students: seq<ErpStudent>, search: string, branchFilter: string, statusFilter: string): (r: seq<ErpStudent>)
    ensures |r| <= |students|
    ensures forall s :: s in r <==>
              s in students && MatchesSearch(s, search)
              && (branchFilter == "all" || s.branch == branchFilter)
              && (statusFilter == "all" || StatusName(s.status) == statusFilter)
  {
    Filter(students, ShownBy(search, branchFilter, statusFilter))
  }

  /** Filtering keeps the table's order: the filtered rows of a concatenation are the
      filtered rows of each part, in turn. */
  lemma FilteredKeepsOrder(a: seq<ErpStudent>, b: seq<ErpStudent>, search: string, branchFilter: string, statusFilter: string)
    ensures FilteredStudents(a + b, search, branchFilter, statusFilter)
         == FilteredStudents(a, search, branchFilter, statusFilter) + FilteredStudents(b, search, branchFilter, statusFilter)
  {
    FilterConcat(a, b, ShownBy(search, branchFilter, statusFilter));
  }

  /** The initial view (empty search, both filters "all") lists every student. */
  lemma InitialViewShowsAll(students: seq<ErpStudent>)
    ensures FilteredStudents(students, "", "all", "all") == students
  {
    forall i | 0 <= i < |students|
      ensures Shown(students[i], "", "all", "all")
    {
      IncludesEmpty(Lower(students[i].name));
    }
    FilterKeepsAll(students, ShownBy("", "all", "all"));
  }

  /** A status filter naming no status lists nobody. */
  lemma UnknownStatusFilterShowsNone(students: seq<ErpStudent>, search: string, statusFilter: string)
    requires statusFilter != "all" && statusFilter != "Regular" && statusFilter != "Low Attendance" && statusFilter != "Detained"
    ensures FilteredStudents(students, search, "all", statusFilter) == []
  {
    FilterKeepsNone(students, ShownBy(search, "all", statusFilter));
  }

  predicate IsRegular(s: ErpStudent)
  {
    s.status == Regular
  }

  /** `atRiskCount`: computed over all students, whatever the filters show. */
  function AtRiskCount(students: seq<ErpStudent>): (n: nat)
    ensures n <= |students|
    ensures n == |GetAtRiskStudents(students)|
  {
    Count(students, IsAtRisk)
  }

  /** Every student is either regular or at risk: the at-risk count and the regular
      count add up to the number of students. */
  lemma {:induction false} AtRiskComplementsRegular(students: seq<ErpStudent>)
    ensures AtRiskCount(students) + Count(students, IsRegular) == |students|
  {
    if |students| > 0 {
      AtRiskComplementsRegular(students[1..]);
    }
  }
}
