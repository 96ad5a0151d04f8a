# Student well-being app: a Dafny model of its decision and data logic

This project models the deterministic core of a student well-being application: the
risk and well-being rules a student sees, the role model that decides which pages a
user may open, the two browser-storage database shims (a BigQuery-like table engine and
a Firestore-like document store) with the analytics built on them, the focus timer,
and the list state and filters of the hooks and admin pages. Each source file of that
core is one Dafny module; `Common` holds the shared vocabulary.

The model is functional. Every store is a value: an operation takes the stored data and
returns the data it would save. Every backend call (a Supabase query, insert, update or
delete, the ERP fetch, the language-model call) is an oracle parameter of type
`Reply<T>` or `Option<T>`, and the model states what the caller does with each possible
reply. Clocks and generated ids are parameters too.

| module | source file |
|---|---|
| `Common` | shared helpers: `filter`, `[...new Set]`, `toLowerCase`, `includes`, `indexOf`, number printing |
| `StudentStore` | src/lib/store.ts |
| `ErpClient` | src/integrations/erp/client.ts |
| `ErpStudentsList` | src/components/ERPStudentsList.tsx |
| `PredictRisk` | supabase/functions/predict-risk/index.ts |
| `Correlation` | src/components/MoodAcademicsCorrelation.tsx |
| `WellBeingTips` | src/components/WellBeingTips.tsx |
| `UserRole` | src/hooks/useUserRole.ts |
| `RoleGuard` | src/components/RoleGuard.tsx |
| `MockBigQuery` | src/integrations/bigquery/mockBigQuery.ts |
| `StudentAnalytics` | src/integrations/bigquery/studentAnalytics.ts |
| `MockFirestore` | src/integrations/firebase/mockFirestore.ts |
| `FocusMode` | src/components/FocusMode.tsx |
| `Skills` | src/hooks/useSkills.ts |
| `AllUsers` | src/hooks/useAllUsers.ts |
| `MentorAssignments` | src/hooks/useMentorAssignments.ts |
| `AdminPanel` | src/pages/AdminPanel.tsx |
| `SuperAdminPanel` | src/pages/SuperAdminPanel.tsx |
| `MentorPanel` | src/pages/MentorPanel.tsx |

JavaScript semantics are written out where the code relies on them: `x || d` defaults
on falsy values, `===` equality, `{ ...a, ...b }` merges, a `Map` built from pairs
keeping the last value per key, `[...new Set(s)]` keeping first occurrences in order,
`slice(0, n)` with a negative `n`, `a < b` comparing strings by code unit and other
values as numbers (NaN comparing false), and `Math.round` of a ratio computed exactly.

## Model

| member | source | states |
|---|---|---|
| Common.Filter | src/components/ERPStudentsList.tsx:47-54 | `filter` keeps exactly the elements passing the test, in order, never more than given |
| Common.FilterConcat | src/components/ERPStudentsList.tsx:47-54 | `filter` keeps order: filtering a concatenation filters each part in turn |
| Common.FilterCounts | src/integrations/bigquery/mockBigQuery.ts:98-108 | each passing element keeps its number of occurrences and each failing one has none, so a filter (the `where` clause of a query) keeps a sub-multiset of its input |
| Common.Dedup | src/components/ERPStudentsList.tsx:45 | `[...new Set(s)]` holds exactly the values of `s`, each once |
| Common.DedupFirstOccurrenceOrder | src/components/ERPStudentsList.tsx:45 | `[...new Set(s)]` lists the values in the order of their first occurrence |
| Common.LowerIdempotent | src/components/ERPStudentsList.tsx:49-50 | lower-casing is idempotent and leaves no upper-case ASCII letter |
| Common.Includes | src/components/ERPStudentsList.tsx:49-50 | `includes` holds exactly when the needle occurs at some position of the text |
| Common.IncludesEmpty | src/components/ERPStudentsList.tsx:48-50 | every text includes the empty search |
| Common.IndexOf | supabase/functions/predict-risk/index.ts:104 | the position found holds the character and no earlier position does; none is found exactly when the character is absent |
| Common.FindIndex | src/lib/store.ts:130 | the position found satisfies the test and no earlier position does; none is found exactly when no element satisfies it |
| Common.FindIndexFinds | src/lib/store.ts:143 | an element passing the test with none passing before it is the one found, whatever follows |
| Common.FindIndexAfterUpdate | src/lib/store.ts:130-132 | overwriting the element found with another element passing the test leaves it the one found |
| Common.GetOrEmpty | src/integrations/bigquery/mockBigQuery.ts:15-18 | a key with nothing stored reads as an empty dataset or collection; a stored one reads as what was stored |
| Common.LastIndexOf | supabase/functions/predict-risk/index.ts:104 | the position found holds the character and no later position does; none is found exactly when the character is absent |
| Common.NatToDecimal | src/components/FocusMode.tsx:74 | `toString` of a whole number is a non-empty digit string, one digit long exactly below 10 |
| Common.DecimalRoundTrip | src/components/FocusMode.tsx:74 | reading back the printed number gives the number |
| StudentStore.CalculateRiskLevel | src/lib/store.ts:156-186 | the level is high exactly when the score reaches 5, medium exactly for a score of 3 or 4, and low below 3; the score adds the attendance ladder, the marks ladder and the latest record's well-being points |
| StudentStore.EmptyHistoriesAreHighRisk | src/lib/store.ts:157-171 | with no attendance and no marks records both latest values read as 0, and the two ladders alone make the student high risk |
| StudentStore.WellBeingContributionBounded | src/lib/store.ts:173-181 | the well-being part of the score is at most 4, and zero without a well-being record |
| StudentStore.LowerAttendanceNeverLowersRisk | src/lib/store.ts:163-166 | lowering the latest attendance percentage never lowers the risk level |
| StudentStore.LowerMarksNeverLowersRisk | src/lib/store.ts:168-171 | lowering the latest marks average never lowers the risk level |
| StudentStore.RiskLevelExamples | src/lib/store.ts:161-185 | attendance 60 with marks 45 is high; 90 and 80 with a calm, rested record is low; 60 with marks 90 and no record is medium |
| StudentStore.GetRiskMessage | src/lib/store.ts:188-201 | low and high get their fixed texts; medium gets the attendance text exactly when the latest attendance, 0 if missing, is below 80, and the general text otherwise |
| StudentStore.RiskMessageIdentifiesLevel | src/lib/store.ts:191-200 | the messages are pairwise distinct, so the level can be read back from any message |
| StudentStore.AddWellBeingRecord | src/lib/store.ts:125-139 | if a record is dated today, the first such record (no earlier record has today's date) is replaced in place and the length and every other record are kept; otherwise the dated check-in is appended; nothing else in the data changes |
| StudentStore.AddWellBeingAt | src/lib/store.ts:130-132 | with the first record dated today at position k, the check-in is exactly the replacement of that record |
| StudentStore.UpsertKeepsDatesUnique | src/lib/store.ts:129-135 | if dates were unique they stay unique, and exactly one record carries today's date: the submitted one |
| StudentStore.CheckInTwiceSameDay | src/lib/store.ts:125-139 | a second check-in on the same day keeps the length and gives the same data as checking in only with the second answers |
| StudentStore.ToggleAssignment | src/lib/store.ts:141-154 | only the first assignment with the id flips; the goal counter rises by one capped at the weekly target when it becomes completed, falls by one floored at 0 otherwise; an unknown id changes nothing |
| StudentStore.ToggleAt | src/lib/store.ts:143-150 | with the first assignment of the id at position k, the toggle is exactly: flip that assignment, then move the goal counter up (capped) if it was open or down (floored at 0) if it was completed |
| StudentStore.ToggleKeepsGoalInRange | src/lib/store.ts:146-150 | a goal counter within [0, weeklyTarget] stays within it |
| StudentStore.ToggleTwiceRestoresAssignments | src/lib/store.ts:143-145 | toggling the same id twice restores every assignment |
| StudentStore.ToggleTwiceRestores | src/lib/store.ts:143-150 | toggling the same id twice restores the whole data when neither toggle hit the cap or the floor |
| ErpClient.FetchStudents | src/integrations/erp/client.ts:7-29 | a failed request reads as an empty student list; a successful one is the list returned |
| ErpClient.Split | src/integrations/erp/client.ts:59 | `split('/')` yields at least one piece and no piece contains the separator |
| ErpClient.SplitJoin | src/integrations/erp/client.ts:59 | joining the pieces with the separator gives back the text, so splitting loses nothing |
| ErpClient.RoundPercent | src/integrations/erp/client.ts:61 | the result r is `Math.round(o / t * 100)` on exact arithmetic: r - 1/2 <= 100·o/t < r + 1/2, and 0 <= r <= 100 when o <= t |
| ErpClient.ParseCIEMarks | src/integrations/erp/client.ts:58-62 | a total piece that reads as zero gives 0, whatever the obtained piece holds |
| ErpClient.ParseCIEMarksOfNumerals | src/integrations/erp/client.ts:58-62 | "o/t" written in decimal parses to the rounded percentage when t > 0 and to 0 when t = 0; the percentage lies in [0, 100] when o <= t |
| ErpClient.ParseCIEMarksExample | src/integrations/erp/client.ts:58-62 | "18/20" parses to 90 |
| ErpClient.ErpRisk | src/integrations/erp/client.ts:65-77 | Detained, attendance below 65 or marks below 50 give high; Low Attendance never gives low; the level is low exactly for Regular with attendance at least 75 and marks not below 60 |
| ErpClient.CalculateErpRiskLevel | src/integrations/erp/client.ts:65-77 | a student is high risk exactly when detained, below 65% attendance or below 50% on the parsed CIE marks, and low risk exactly when regular, at least 75% present and not below 60% on the marks |
| ErpClient.ErpRiskOfNumerals | src/integrations/erp/client.ts:57-77 | for a regular student with at least 75% attendance and marks written o/t, the level follows the rounded percentage: high below 50, medium from 50 to 59, low from 60 |
| ErpClient.ErpRiskAntitoneInAttendance | src/integrations/erp/client.ts:68-76 | for a fixed status and marks, more attendance never raises the level |
| ErpClient.ErpRiskAntitoneInMarks | src/integrations/erp/client.ts:68-76 | for a fixed status and attendance, higher marks never raise the level |
| ErpClient.UnreadableMarksCountAsFine | src/integrations/erp/client.ts:66-72 | a NaN percentage fails both marks comparisons, so it ranks like 100% |
| ErpClient.FindStudentByRollNo | src/integrations/erp/client.ts:40-43 | the first student whose roll number equals the given one, or none exactly when no student has it |
| ErpClient.GetAtRiskStudents | src/integrations/erp/client.ts:52-55 | exactly the students whose status is not Regular |
| ErpClient.AtRiskKeepsOrder | src/integrations/erp/client.ts:54 | the at-risk list of a concatenation is the concatenation of the at-risk lists, so the order is kept |
| ErpClient.GetStudentsByBranch | src/integrations/erp/client.ts:46-49 | exactly the students of the branch |
| ErpStudentsList.BranchesOf | src/components/ERPStudentsList.tsx:45 | one branch per student, in order |
| ErpStudentsList.Branches | src/components/ERPStudentsList.tsx:45 | the branch choices are exactly the students' branches, each once, in the order of each branch's first student |
| ErpStudentsList.FilteredStudents | src/components/ERPStudentsList.tsx:47-54 | a student is listed exactly when the name or roll number contains the search ignoring case, the branch filter is "all" or the student's branch, and the status filter is "all" or the student's status |
| ErpStudentsList.FilteredKeepsOrder | src/components/ERPStudentsList.tsx:47-54 | the table keeps the students' order: filtering a concatenation filters each part in turn |
| ErpStudentsList.InitialViewShowsAll | src/components/ERPStudentsList.tsx:41-54 | the initial empty search with both filters on "all" lists every student, in order |
| ErpStudentsList.UnknownStatusFilterShowsNone | src/components/ERPStudentsList.tsx:52 | a status filter naming none of the three statuses lists nobody |
| ErpStudentsList.AtRiskCount | src/components/ERPStudentsList.tsx:56 | the at-risk count is the number of students the client reports at risk, over all students whatever the filters show |
| ErpStudentsList.AtRiskComplementsRegular | src/components/ERPStudentsList.tsx:56 | the at-risk and the regular students together are all the students |
| PredictRisk.OrDefault | supabase/functions/predict-risk/index.ts:137-138 | `x \|\| d` on a number: a present non-zero value is kept; a missing value or 0 gives the default |
| PredictRisk.IntOrDefault | supabase/functions/predict-risk/index.ts:139 | the same falsiness default for the pending count |
| PredictRisk.FallbackLevel | supabase/functions/predict-risk/index.ts:145-160 | high exactly when attendance < 60, marks < 40 or pending > 5; medium exactly when not high and attendance < 75, marks < 60 or pending > 2; low exactly when attendance >= 75, marks >= 60 and pending <= 2 |
| PredictRisk.FallbackRecommendations | supabase/functions/predict-risk/index.ts:143-160 | never empty; on high and on medium there is one recommendation per triggered condition of that branch, each text is present exactly when its condition holds, and they come in the order attendance, marks, pending (attendance first, pending last); low gives exactly the two fixed texts |
| PredictRisk.SubjectRiskOf | supabase/functions/predict-risk/index.ts:166-170 | the subject keeps its name; its risk is the overall ladder with the pending count left out; the reason is "Low attendance" exactly below 75% attendance, "Low marks" exactly for enough attendance and marks below 60, and "Good performance" exactly for a low risk |
| PredictRisk.MapSubjectRisks | supabase/functions/predict-risk/index.ts:166-170 | one entry per subject, in input order |
| PredictRisk.CalculateFallbackRisk | supabase/functions/predict-risk/index.ts:136-172 | the inputs are defaulted by falsiness (75, 60, 0) before the ladder; each level has its own explanation text, and the text identifies the level; the subject list is empty without subjects and otherwise has one entry per subject, in order |
| PredictRisk.ZeroAttendanceIsNotPenalised | supabase/functions/predict-risk/index.ts:137 | a zero or missing overall attendance gives the same assessment as an explicit 75% |
| PredictRisk.BoundaryIsLow | supabase/functions/predict-risk/index.ts:145-157 | 75% attendance, 60% marks and 2 pending assignments is low risk |
| PredictRisk.RecommendationsNeverEmpty | supabase/functions/predict-risk/index.ts:145-160 | every assessment carries at least one recommendation |
| PredictRisk.SubjectRiskIgnoresPending | supabase/functions/predict-risk/index.ts:168-169 | a subject's pending count does not affect its risk or reason |
| PredictRisk.SubjectRisksKeepOrder | supabase/functions/predict-risk/index.ts:166 | the subject risks of a concatenation are the concatenation of the subject risks |
| PredictRisk.ExtractJsonSpan | supabase/functions/predict-risk/index.ts:104 | a span exists exactly when some '}' follows some '{'; it runs from the first '{' to the last '}' |
| PredictRisk.ResolveAssessment | supabase/functions/predict-risk/index.ts:101-114 | the model's object is used exactly when the reply text exists, holds a span and the span parses; otherwise the rule-based assessment is used |
| PredictRisk.ExtractIgnoresSurroundingProse | supabase/functions/predict-risk/index.ts:104-106 | prose without braces around a braced object, nested braces included, does not change the extracted text |
| Correlation.DotSymmetric | src/components/MoodAcademicsCorrelation.tsx:20 | the cross sum `pSum` is symmetric in its two series |
| Correlation.SpreadNonNegative | src/components/MoodAcademicsCorrelation.tsx:23 | n·Σx² >= (Σx)² for every series, so each factor under the square root is non-negative on exact arithmetic |
| Correlation.Spread | src/components/MoodAcademicsCorrelation.tsx:23 | `sumSq - sum ** 2 / n` is never negative |
| Correlation.Correlate | src/components/MoodAcademicsCorrelation.tsx:12-26 | 0 for series of different lengths or with fewer than two points; 0 when a series has no spread; otherwise the result has the sign of `pSum - sum1·sum2/n` |
| Correlation.CorrelateSymmetric | src/components/MoodAcademicsCorrelation.tsx:12-26 | corr(a, b) == corr(b, a) |
| Correlation.ConstantSeriesHasNoCorrelation | src/components/MoodAcademicsCorrelation.tsx:22-25 | a series whose points are all equal makes the denominator 0, and the result is 0 |
| Correlation.LastSix | src/components/MoodAcademicsCorrelation.tsx:35-37 | `slice(-6)`: the last min(6, n) elements, in order |
| Correlation.Moods | src/components/MoodAcademicsCorrelation.tsx:40 | the mood of each record, in order |
| Correlation.InvertedStress | src/components/MoodAcademicsCorrelation.tsx:41 | `5 - stress` for each record, in order |
| Correlation.Sleeps | src/components/MoodAcademicsCorrelation.tsx:42 | the sleep answer of each record, in order |
| Correlation.Percentages | src/components/MoodAcademicsCorrelation.tsx:43 | the attendance percentage of each record, in order |
| Correlation.Averages | src/components/MoodAcademicsCorrelation.tsx:44 | the marks average of each record, in order |
| Correlation.Insights | src/components/MoodAcademicsCorrelation.tsx:50-96 | one to three lines; each line is present exactly when its threshold is crossed; the default line is present exactly when no rule fires, and then it is the only line |
| Correlation.InsightsOrdered | src/components/MoodAcademicsCorrelation.tsx:53-87 | the lines come in rule order: sleep, then mood, then stress |
| Correlation.NegativeMoodIsSilent | src/components/MoodAcademicsCorrelation.tsx:67-73 | a mood correlation below -0.3 produces no mood line |
| Correlation.CardInsights | src/components/MoodAcademicsCorrelation.tsx:34-96 | the card built from the last six records shows one to three lines |
| Correlation.FewCheckInsGiveDefault | src/components/MoodAcademicsCorrelation.tsx:89-96 | with fewer than two check-ins only the default line is shown |
| Correlation.MismatchedHistoriesGiveDefault | src/components/MoodAcademicsCorrelation.tsx:89-96 | when the recent well-being series differs in length from both the attendance and the marks series, only the default line is shown |
| WellBeingTips.ConcernTips | src/components/WellBeingTips.tsx:13-49 | at most four tips; each concern's tip is present exactly when its strict threshold is crossed (stress > 3, sleep < 3, motivation < 3, mood < 3); no concern gives no tips; the encouraging tip is never among them |
| WellBeingTips.ConcernTipsOrdered | src/components/WellBeingTips.tsx:15-49 | the tips come in push order, the breathing tip first when stress is high |
| WellBeingTips.ConcernTipsAllFour | src/components/WellBeingTips.tsx:15-49 | all four tips are present exactly when all four concerns are, in push order |
| WellBeingTips.GetTipsForWellBeing | src/components/WellBeingTips.tsx:12-61 | one to three tips in push order; a concern's tip is shown exactly when its threshold is crossed, except that the self-care tip is cut when all four fire; "You're Doing Great!" is shown exactly when no concern fires, and then alone |
| WellBeingTips.MiddleAnswersAreFine | src/components/WellBeingTips.tsx:15-42 | a check-in answering 3 everywhere gets only the encouraging tip |
| WellBeingTips.AllConcernsDropSelfCare | src/components/WellBeingTips.tsx:42-60 | with all four concerns the breathing, sleep and Pomodoro tips are kept and the self-care tip is cut |
| UserRole.Rank | src/hooks/useUserRole.ts:17-23 | every rank lies between 1 and 5 |
| UserRole.RanksAreDistinct | src/hooks/useUserRole.ts:17-23 | ranks are distinct and ordered student < counsellor < mentor < admin < super admin |
| UserRole.HigherOf | src/hooks/useUserRole.ts:65-67 | the reduction step keeps one of its two roles, one ranked at least as high as both |
| UserRole.Reduce | src/hooks/useUserRole.ts:65-67 | the left reduction returns its seed or an element of the list, ranked at least as high as all of them |
| UserRole.HighestRole | src/hooks/useUserRole.ts:63-68 | `role` is null exactly for an empty list; otherwise it is a held role ranked at least as high as every held role |
| UserRole.HighestRoleIgnoresOrder | src/hooks/useUserRole.ts:63-68 | lists holding the same roles, in any order and with any repetition, have the same highest role |
| UserRole.HasRole | src/hooks/useUserRole.ts:70-72 | `hasRole` is membership of the list |
| UserRole.IsAtLeast | src/hooks/useUserRole.ts:74-77 | `isAtLeast(r)` holds exactly when some held role ranks at least as high as r, so it is false for an empty list |
| UserRole.IsAtLeastDownwardClosed | src/hooks/useUserRole.ts:74-77 | meeting a rank meets every lower rank |
| UserRole.HasRoleImpliesAtLeast | src/hooks/useUserRole.ts:70-77 | holding a role implies being at least that role |
| UserRole.FetchRoles | src/hooks/useUserRole.ts:31-57 | nobody signed in gives no roles and keeps the previous error; a failed query gives ['student'] and the error text; a missing or empty answer gives ['student']; a non-empty answer is taken as it is |
| UserRole.SignedInUserHasRole | src/hooks/useUserRole.ts:49-68 | after a fetch for a signed-in user there is always a highest role, at least student |
| RoleGuard.EffectivePath | src/components/RoleGuard.tsx:12 | an omitted fallback path is '/'; a given one, even empty, is kept |
| RoleGuard.Guard | src/components/RoleGuard.tsx:12-52 | while loading only the checking view; otherwise the children exactly when some allowed role is held; a redirect to the path exactly when access fails and the path is non-empty; the "Access Denied" panel exactly when access fails and the path is empty, naming the highest role or student |
| RoleGuard.DefaultPathRedirectsHome | src/components/RoleGuard.tsx:12-31 | without an explicit path a denied user is always sent to '/' |
| RoleGuard.AccessIsNotHierarchical | src/components/RoleGuard.tsx:26 | a super admin is at least a mentor by rank, yet a page admitting only mentors turns them away |
| RoleGuard.AccessMonotoneInRoles | src/components/RoleGuard.tsx:26 | adding roles to a user never revokes access |
| MockBigQuery.CreateDataset | src/integrations/bigquery/mockBigQuery.ts:27-32 | afterwards the dataset exists; an existing dataset is kept untouched, a missing one is added empty |
| MockBigQuery.CreateDatasetIdempotent | src/integrations/bigquery/mockBigQuery.ts:27-32 | creating a dataset a second time changes nothing |
| MockBigQuery.CreateTable | src/integrations/bigquery/mockBigQuery.ts:37-46 | the named table exists, empty, with the given schema; every other dataset and every other table of the dataset is unchanged, and nothing else appears |
| MockBigQuery.CreateTableNoop | src/integrations/bigquery/mockBigQuery.ts:42-44 | re-creating a table that is already empty with the same schema leaves the store as it was |
| MockBigQuery.Stamp | src/integrations/bigquery/mockBigQuery.ts:63-66 | the stamped row carries the insertion time under `_inserted_at`, overriding a field of that name, and keeps every other field |
| MockBigQuery.StampAll | src/integrations/bigquery/mockBigQuery.ts:63-66 | one stamped row per given row, in the same order, the i-th carrying the i-th clock reading |
| MockBigQuery.InsertRows | src/integrations/bigquery/mockBigQuery.ts:51-73 | the call fails, with the not-found message, exactly when the table is missing; otherwise the rows are appended after the existing ones, each stamped with the clock reading taken for it, the schema and all other tables and datasets are unchanged, and the reported count is the number of rows given |
| MockBigQuery.GetTableSchema | src/integrations/bigquery/mockBigQuery.ts:136-147 | fails exactly when the table is missing, and otherwise returns the stored schema |
| MockBigQuery.TruncateTable | src/integrations/bigquery/mockBigQuery.ts:152-165 | fails exactly when the table is missing; otherwise the table has no rows and keeps its schema, and nothing else in the store changes |
| MockBigQuery.ListTables | src/integrations/bigquery/mockBigQuery.ts:170-173 | a name is listed exactly when the dataset holds a table of that name |
| MockBigQuery.ClearMockBigQuery | src/integrations/bigquery/mockBigQuery.ts:178-186 | a missing or empty id removes every dataset; any other id removes that dataset and keeps every other one as it was |
| MockBigQuery.ClearThenQuery | src/integrations/bigquery/mockBigQuery.ts:178-186 | after clearing, a cleared dataset lists no table and every query, schema read and truncation on it fails as for a missing table; a dataset not named answers every query as before |
| MockBigQuery.Lookup | src/integrations/bigquery/mockBigQuery.ts:99 | a field reads as a value exactly when the row has it, and as `undefined` otherwise |
| MockBigQuery.StrLessIrreflexive | src/integrations/bigquery/mockBigQuery.ts:120 | no string sorts before itself under JavaScript's string `<` |
| MockBigQuery.StrLessTransitive | src/integrations/bigquery/mockBigQuery.ts:120 | JavaScript's string `<` is transitive |
| MockBigQuery.StrLessTotal | src/integrations/bigquery/mockBigQuery.ts:120 | of two different strings exactly one sorts before the other |
| MockBigQuery.EqualityWhere | src/integrations/bigquery/mockBigQuery.ts:101 | an '=' test passes exactly the rows holding that very value in that field |
| MockBigQuery.MissingFieldFailsRelational | src/integrations/bigquery/mockBigQuery.ts:102-105 | a row lacking the field fails every relational test against a number |
| MockBigQuery.ApplyWhere | src/integrations/bigquery/mockBigQuery.ts:96-109 | without a where clause every row is kept; with one, a row is kept exactly when it is in the table and passes the test, in table order; either way no row is invented or duplicated |
| MockBigQuery.Compare | src/integrations/bigquery/mockBigQuery.ts:114-122 | the comparator answers -1, 0 or 1, and 0 exactly for identical values |
| MockBigQuery.NullsLast | src/integrations/bigquery/mockBigQuery.ts:118-119 | a null sorts after every other value in both directions |
| MockBigQuery.JsLessTrichotomy | src/integrations/bigquery/mockBigQuery.ts:120 | of two distinct non-null values of one kind exactly one is less than the other |
| MockBigQuery.JsLessTransitive | src/integrations/bigquery/mockBigQuery.ts:120 | `<` is transitive on non-null values of one kind |
| MockBigQuery.CompareAntisymmetric | src/integrations/bigquery/mockBigQuery.ts:114-122 | on a column of one kind, swapping the arguments negates the comparator |
| MockBigQuery.CompareTransitive | src/integrations/bigquery/mockBigQuery.ts:114-122 | on a column of one kind the comparator is transitive, so it is a consistent sort order |
| MockBigQuery.Insert | src/integrations/bigquery/mockBigQuery.ts:114 | inserting a row adds exactly that row to the multiset of rows |
| MockBigQuery.SortRows | src/integrations/bigquery/mockBigQuery.ts:112-123 | sorting is a permutation of the rows |
| MockBigQuery.ConsSorted | src/integrations/bigquery/mockBigQuery.ts:114-122 | a row no later than every row of a sorted list can be put in front of it |
| MockBigQuery.InsertElements | src/integrations/bigquery/mockBigQuery.ts:114 | insertion brings in no row but the inserted one |
| MockBigQuery.HeadBound | src/integrations/bigquery/mockBigQuery.ts:114-122 | a row no later than the head of a sorted list of one kind is no later than any of its rows |
| MockBigQuery.InsertSorted | src/integrations/bigquery/mockBigQuery.ts:114-122 | inserting into a sorted list of one kind keeps it sorted |
| MockBigQuery.UniformColumnPermutation | src/integrations/bigquery/mockBigQuery.ts:112-123 | permuting the rows keeps the order column of one kind |
| MockBigQuery.SortRowsSorted | src/integrations/bigquery/mockBigQuery.ts:112-123 | on a column of one kind (nulls allowed) the result is ordered by the comparator |
| MockBigQuery.EqualKeysKeepOrder | src/integrations/bigquery/mockBigQuery.ts:114-117 | rows sharing one order-field value keep their original order |
| MockBigQuery.SliceFront | src/integrations/bigquery/mockBigQuery.ts:127 | `slice(0, n)` is a prefix of length min(n, length), and a negative n drops that many rows from the back |
| MockBigQuery.Limit | src/integrations/bigquery/mockBigQuery.ts:126-128 | the result is a prefix of the rows; a missing or zero limit keeps them all; a positive limit keeps the first min(limit, length); a negative limit drops the last -limit rows, or all of them |
| MockBigQuery.RunQuery | src/integrations/bigquery/mockBigQuery.ts:93-130 | the result invents and duplicates no row and every row passes the where test; without a limit it holds exactly the matching rows, with a positive limit the first min(limit, matches) of them, with a negative limit all but the last -limit rows (the end index counts from the back); without an order it is a prefix of the filtered rows in table order |
| MockBigQuery.PrefixSubMultiset | src/integrations/bigquery/mockBigQuery.ts:127 | a prefix of the rows holds no row more often than the rows do |
| MockBigQuery.QueryTable | src/integrations/bigquery/mockBigQuery.ts:78-131 | the query fails, with the not-found message, exactly when the table is missing, and otherwise runs over the stored rows |
| MockBigQuery.OrderedQuerySorted | src/integrations/bigquery/mockBigQuery.ts:111-128 | an ordered query over a column of one kind returns its rows in comparator order |
| MockBigQuery.CreateInsertQuery | src/integrations/bigquery/mockBigQuery.ts:37-131 | rows inserted into a freshly created table come back, stamped and in insertion order, from a plain query |
| MockBigQuery.TruncateEmpties | src/integrations/bigquery/mockBigQuery.ts:136-165 | after truncation every query returns no rows and the schema is unchanged |
| StudentAnalytics.InitializeStudentAnalytics | src/integrations/bigquery/studentAnalytics.ts:70-122 | afterwards the dataset holds the five history tables, each empty with its own schema; every other dataset is unchanged and no other dataset appears |
| StudentAnalytics.ReinitialiseDiscardsRows | src/integrations/bigquery/studentAnalytics.ts:74-115 | after initialisation every query on any of the five tables returns no rows, whatever had been inserted before |
| StudentAnalytics.InitializeIdempotent | src/integrations/bigquery/studentAnalytics.ts:70-122 | initialising twice gives the same store as initialising once |
| StudentAnalytics.InsertAfterInitialize | src/integrations/bigquery/studentAnalytics.ts:127-167 | after initialisation each insert wrapper succeeds and reports the number of rows given |
| StudentAnalytics.GetHistory | src/integrations/bigquery/studentAnalytics.ts:172-227 | a history fails exactly when its table is missing; otherwise every row belongs to the student and none is invented or duplicated; without a limit it holds every one of the student's rows, with a positive limit min(limit, the student's rows) of them, with a negative limit all but the last -limit of them |
| StudentAnalytics.HistoryWithinLimitIsComplete | src/integrations/bigquery/mockBigQuery.ts:125-127 | a limit no smaller than the number of the student's rows cuts nothing: the history holds all of them |
| StudentAnalytics.HistoryNewestFirst | src/integrations/bigquery/studentAnalytics.ts:176-180 | when the dates are strings, no row's date sorts before the date of a row listed after it: newest first |
| StudentAnalytics.RunQueryNewestFirst | src/integrations/bigquery/mockBigQuery.ts:111-128 | a query ordered descending on a string column lists its rows with non-increasing strings |
| StudentAnalytics.SubMultisetKeepsStrings | src/integrations/bigquery/mockBigQuery.ts:93-128 | rows drawn from a table whose field is a string still hold a string there |
| StudentAnalytics.DescendingStrings | src/integrations/bigquery/mockBigQuery.ts:114-122 | on a string column the descending comparator order means no earlier string is smaller than a later one |
| StudentAnalytics.SumOptFinite | src/integrations/bigquery/studentAnalytics.ts:259-271 | the running sum stays a number exactly when every term is a number, and is then their sum |
| StudentAnalytics.Mean | src/integrations/bigquery/studentAnalytics.ts:258-272 | no rows give 0; otherwise the mean is a number exactly when every term is, and is then the sum over the count |
| StudentAnalytics.MeanBounds | src/integrations/bigquery/studentAnalytics.ts:262-264 | a mean of values within a range lies in that range |
| StudentAnalytics.AttendanceRate | src/integrations/bigquery/studentAnalytics.ts:255-256 | no rows give 0; otherwise the rate is the share of 'present' rows as a percentage, so it lies between 0 and 100 |
| StudentAnalytics.RateBounds | src/integrations/bigquery/studentAnalytics.ts:256 | a count out of a positive total, as a percentage, lies between 0 and 100 |
| StudentAnalytics.RateIsHundred | src/integrations/bigquery/studentAnalytics.ts:256 | the percentage is 100 exactly when the count is the whole total |
| StudentAnalytics.AttendanceRateFull | src/integrations/bigquery/studentAnalytics.ts:255-256 | the rate is 100 exactly when every row is 'present'; one late or absent row lowers it |
| StudentAnalytics.StudentRows | src/integrations/bigquery/studentAnalytics.ts:241-252 | a per-student query fails exactly when its table is missing, and otherwise yields the student's rows in table order |
| StudentAnalytics.CalculateStudentFeatures | src/integrations/bigquery/studentAnalytics.ts:232-282 | the features fail exactly when one of the four tables is missing; otherwise the intervention count is the number of the student's intervention rows and the attendance lies between 0 and 100 |
| StudentAnalytics.FeaturesAreMeans | src/integrations/bigquery/studentAnalytics.ts:255-272 | each feature is computed from the student's own rows: the attendance rate, the mean mark percentage, and the means of mood, stress and sleep |
| StudentAnalytics.Aggregate | src/integrations/bigquery/studentAnalytics.ts:255-281 | the intervention count is the number of intervention rows; attendance is the present share in [0, 100], 0 without rows; each mean is 0 without rows and otherwise a number exactly when every term is |
| StudentAnalytics.MarkRatio | src/integrations/bigquery/studentAnalytics.ts:259 | a mark percentage is a number exactly when score and maximum are numbers and the maximum is not 0; it is then the percentage whose share of 100 equals score over maximum |
| StudentAnalytics.NoRowsGiveZeroFeatures | src/integrations/bigquery/studentAnalytics.ts:256-280 | on freshly initialised tables every feature of any student is 0 |
| StudentAnalytics.MoodAverageOnScale | src/integrations/bigquery/studentAnalytics.ts:262-264 | mood scores on the 1-5 scale average to a value on that scale |
| MockFirestore.CreateTimestamp | src/integrations/firebase/mockFirestore.ts:10-17 | the seconds and the nanoseconds together give back the clock reading in milliseconds, with the nanoseconds a whole number of milliseconds below one second |
| MockFirestore.AddDoc | src/integrations/firebase/mockFirestore.ts:41-57 | the reference carries the new id and the path `collection/id`; the document is stored with both timestamps set; every other document and collection is unchanged and nothing else appears |
| MockFirestore.GetDoc | src/integrations/firebase/mockFirestore.ts:59-71 | the snapshot exists exactly when the id is stored, carries that document then and null otherwise, and always echoes the id |
| MockFirestore.GetDocs | src/integrations/firebase/mockFirestore.ts:73-89 | an entry is returned exactly when it is a stored document of the collection and, when a clause is given, its field is strictly equal to the clause's value |
| MockFirestore.UpdateDoc | src/integrations/firebase/mockFirestore.ts:91-109 | fails, with the not-found message, exactly when the document is missing; otherwise updated fields take the new values, other fields keep theirs, `updatedAt` is refreshed, and every other document and collection is unchanged |
| MockFirestore.DeleteDoc | src/integrations/firebase/mockFirestore.ts:111-123 | fails exactly when the document is missing; otherwise exactly that id disappears and everything else is unchanged |
| MockFirestore.ClearMockFirestore | src/integrations/firebase/mockFirestore.ts:126-134 | a missing or empty name removes every collection; any other name removes that collection and keeps the rest as they were |
| MockFirestore.ClearThenGet | src/integrations/firebase/mockFirestore.ts:126-134 | after clearing, no document of a cleared collection exists, listing it gives nothing and deleting in it fails; a collection not named reads as before |
| MockFirestore.AddThenGet | src/integrations/firebase/mockFirestore.ts:41-71 | a document read back after being added exists and carries every added field other than the two timestamps |
| MockFirestore.DeleteThenGet | src/integrations/firebase/mockFirestore.ts:59-123 | a deleted document reads as missing and a second delete of it fails |
| MockFirestore.UpdateIsolated | src/integrations/firebase/mockFirestore.ts:59-109 | updating one document leaves the reading of every other document unchanged |
| MockFirestore.StampsNeverMatch | src/integrations/firebase/mockFirestore.ts:83-84 | a timestamp field never passes a `where` clause, because an object is never strictly equal to a value |
| FocusMode.Initial | src/components/FocusMode.tsx:20-25 | the first render shows the chooser with the first subject's code (or the empty code), 25 minutes, 1500 seconds and no sessions, and is a valid timer |
| FocusMode.Step | src/components/FocusMode.tsx:29-69 | every event keeps the timer valid (a duration offered on screen, the time within the session, never active and completed at once); a session is recorded at most once per event, and exactly when a running, unpaused timer ticks from its last second and completes |
| FocusMode.StartFillsTimer | src/components/FocusMode.tsx:43-48 | starting from the chooser runs an unpaused timer filled with the chosen duration |
| FocusMode.TickCountsDown | src/components/FocusMode.tsx:30-33 | a tick of a running, unpaused timer takes exactly one second off and changes nothing else |
| FocusMode.PausedTimerHolds | src/components/FocusMode.tsx:30 | a paused timer ignores ticks |
| FocusMode.PauseResumeToggles | src/components/FocusMode.tsx:50-52 | pause/resume flips only the paused flag, so doing it twice restores the timer |
| FocusMode.ResetRestores | src/components/FocusMode.tsx:54-59 | reset from the running or completed view returns to the chooser with a full timer, keeping the subject, the duration and the recorded sessions |
| FocusMode.ChooseDurationSetsTime | src/components/FocusMode.tsx:123-126 | choosing an offered duration in the chooser sets both the duration and the time left; outside the chooser the choice changes nothing |
| FocusMode.Ticks | src/components/FocusMode.tsx:29-41 | any number of ticks keeps the timer valid |
| FocusMode.RunToCompletion | src/components/FocusMode.tsx:29-69 | a running, unpaused session completes after exactly as many ticks as seconds remain, and is recorded once under the subject and duration it started with |
| FocusMode.StartedSessionIsRecorded | src/components/FocusMode.tsx:29-69 | starting from the chooser and letting every second pass completes the session and records it once |
| FocusMode.Progress | src/components/FocusMode.tsx:77 | the progress lies between 0 and 100, and is 0 when the timer is not active or has just started |
| FocusMode.TickAdvancesProgress | src/components/FocusMode.tsx:30-77 | each tick of a running session raises the progress |
| FocusMode.Pad2 | src/components/FocusMode.tsx:74 | padding keeps the numeral's value and makes it at least two digits long |
| FocusMode.FormatTime | src/components/FocusMode.tsx:71-75 | the display is at least five characters: digits, a colon, then exactly two digits |
| FocusMode.FormatTimeReadsBack | src/components/FocusMode.tsx:71-75 | the text reads back as the time: the digits before the colon are whole minutes, the two after are seconds below 60, and minutes times 60 plus seconds is the input |
| FocusMode.FormatTimeWidth | src/components/FocusMode.tsx:71-75 | below 100 minutes the text is exactly five characters, "mm:ss" |
| FocusMode.FormatTimeExample | src/components/FocusMode.tsx:71-75 | the initial 1500 seconds display as "25:00" |
| Skills.TargetUser | src/hooks/useSkills.ts:50 | a non-empty user id given to the hook wins; otherwise the signed-in user is the target |
| Skills.FetchSkills | src/hooks/useSkills.ts:52-83 | loading always ends; with no target the list is emptied and the error kept; a failure keeps the list and records the error text; a success clears the error and replaces the list, a null reply reading as empty |
| Skills.AddSkill | src/hooks/useSkills.ts:89-110 | nobody signed in gives null and no change; a failure gives null and records the error; a success returns the stored row and puts it in front of the unchanged list |
| Skills.Merge | src/hooks/useSkills.ts:121 | merging keeps the id, the owner, the verification fields and the timestamps, and takes each of the seven editable fields from the patch when the patch has it and from the skill otherwise |
| Skills.MergeIdempotent | src/hooks/useSkills.ts:121 | merging a patch twice is merging it once, and an empty patch changes nothing |
| Skills.UpdateWhere | src/hooks/useSkills.ts:121-176 | the list keeps its length; entries with the id are transformed and every other entry is untouched |
| Skills.UpdateSkill | src/hooks/useSkills.ts:112-127 | the result is true exactly on success; a success merges the patch into the skills with that id and no other, keeping every id; a failure only records the error |
| Skills.UpdateSkillIdempotent | src/hooks/useSkills.ts:112-127 | repeating a successful update changes nothing more |
| Skills.DeleteSkill | src/hooks/useSkills.ts:129-144 | the result is true exactly on success; a success leaves exactly the skills with another id, in their order; a failure only records the error |
| Skills.AddThenDelete | src/hooks/useSkills.ts:89-144 | adding a skill with a fresh id and then deleting it gives back the original list |
| Skills.VerifySkill | src/hooks/useSkills.ts:146-182 | the result is true exactly when someone is signed in and the call succeeds; then each skill with that id is that skill with the decision's status, the reviewer, the time and the given notes (null when empty or absent) and no other field changed, and every other skill is untouched; otherwise the list is unchanged |
| Skills.EmptyNotesBecomeNull | src/hooks/useSkills.ts:160-173 | empty review notes are stored exactly as absent ones |
| AllUsers.RolesIn | src/hooks/useAllUsers.ts:52-57 | one role per role row, in row order |
| AllUsers.RolesInConcat | src/hooks/useAllUsers.ts:52-57 | the roles of concatenated rows are the roles of each part in turn |
| AllUsers.RolesOfSnoc | src/hooks/useAllUsers.ts:52-57 | a further role row adds its role to its own user's list, at the end, and to no other user's |
| AllUsers.GroupRolesKeys | src/hooks/useAllUsers.ts:52-57 | the grouping has an entry exactly for the users with at least one role row |
| AllUsers.GroupRolesGroups | src/hooks/useAllUsers.ts:52-57 | each entry lists exactly that user's roles in arrival order, so none is empty |
| AllUsers.AttachRoles | src/hooks/useAllUsers.ts:59-62 | one user per profile in profile order, with the grouped roles or the student role when there are none |
| AllUsers.FetchUsers | src/hooks/useAllUsers.ts:31-70 | loading always ends; a failure of either query keeps the users and records the error; otherwise every profile is listed in order with its own roles, or as a student when it has none, so no user is without a role |
| AllUsers.NoRowsMeansStudent | src/hooks/useAllUsers.ts:59-62 | a profile with no role row is listed with the student role only |
| AllUsers.AssignRole | src/hooks/useAllUsers.ts:76-96 | the result is true exactly when the insert succeeds or reports a duplicate; a duplicate changes nothing; another failure records the error; a success refetches |
| AllUsers.RemoveRole | src/hooks/useAllUsers.ts:98-114 | the result is true exactly when the delete succeeds; a failure records the error; a success refetches |
| AllUsers.RefetchFailureStillSucceeds | src/hooks/useAllUsers.ts:76-96 | a successful assignment reports success even when the refetch fails, which shows only as the error text, with the user list kept |
| MentorAssignments.MentorIds | src/hooks/useMentorAssignments.ts:56 | one mentor id per assignment, in order |
| MentorAssignments.StudentIds | src/hooks/useMentorAssignments.ts:57 | one student id per assignment, in order |
| MentorAssignments.ProfileIds | src/hooks/useMentorAssignments.ts:56-58 | the ids whose profiles are requested are exactly the mentors and students of the assignments, each once |
| MentorAssignments.ProfileMapKeys | src/hooks/useMentorAssignments.ts:65 | the profile map has an entry exactly for the user ids among the returned profiles |
| MentorAssignments.ProfileMapFilesByUser | src/hooks/useMentorAssignments.ts:65 | every entry is one of the returned profiles, filed under its own user id |
| MentorAssignments.ProfileMapLastWins | src/hooks/useMentorAssignments.ts:65 | when a user has several profiles the map keeps the last of them |
| MentorAssignments.ProfileMapHoldsLast | src/hooks/useMentorAssignments.ts:65 | every entry of the map is the last returned profile of the user it is filed under |
| MentorAssignments.Enrich | src/hooks/useMentorAssignments.ts:67-71 | one row per assignment in order, each carrying its mentor's and student's profile exactly when the map has one |
| MentorAssignments.FetchAssignments | src/hooks/useMentorAssignments.ts:37-79 | loading always ends; a failed query keeps the list and records the error; otherwise every assignment is listed in order, and it carries a student or mentor profile exactly when a returned profile belongs to that user, that profile being the last one returned for the user |
| MentorAssignments.AttachedProfilesWereRequested | src/hooks/useMentorAssignments.ts:58-71 | whatever profiles the backend returns, a profile attached to a row belongs to one of the requested ids |
| MentorAssignments.MissingProfilesLeaveRowsBare | src/hooks/useMentorAssignments.ts:60-71 | without a profile answer every assignment is still listed, with neither profile |
| MentorAssignments.InsertRow | src/hooks/useMentorAssignments.ts:93-98 | the inserted row carries the pair and the signed-in user as assigner, and its notes are null exactly when none or empty notes were given |
| MentorAssignments.AssignStudent | src/hooks/useMentorAssignments.ts:85-114 | the result is true exactly when the insert succeeds; a duplicate pair records the already-assigned message; another failure records its message; a success refetches |
| MentorAssignments.RemoveAssignment | src/hooks/useMentorAssignments.ts:116-131 | the result is true exactly on success; a success leaves exactly the rows with another id, in their order; a failure only records the error |
| MentorAssignments.RemoveAssignmentIdempotent | src/hooks/useMentorAssignments.ts:116-131 | removing the same id a second time changes nothing |
| AdminPanel.StudentsOf | src/pages/AdminPanel.tsx:65 | a user is in the student list exactly when they hold the student role |
| AdminPanel.MentorsOf | src/pages/AdminPanel.tsx:66 | a user is in the mentor list exactly when they hold the mentor role |
| AdminPanel.StudentAndMentorListsOverlap | src/pages/AdminPanel.tsx:65-66 | the two lists are no partition: a user is in both exactly when holding both roles, and in neither exactly when holding neither |
| AdminPanel.FilteredSkills | src/pages/AdminPanel.tsx:68-72 | a skill is listed exactly when its status matches the filter (any on "all") and its title contains the search, ignoring case |
| AdminPanel.FilteredSkillsKeepOrder | src/pages/AdminPanel.tsx:68-72 | the skill table keeps the list order |
| AdminPanel.PendingFilterListsPending | src/pages/AdminPanel.tsx:68-72 | the "pending" filter with an empty search lists exactly the skills awaiting review |
| AdminPanel.Stats | src/pages/AdminPanel.tsx:74-79 | the cards count the student and mentor lists and exactly the pending and the verified skills, over everything whatever the filters show |
| AdminPanel.SkillCountsPartition | src/pages/AdminPanel.tsx:77-78 | the pending and verified cards plus the rejected skills account for every skill exactly once |
| AdminPanel.HandleVerify | src/pages/AdminPanel.tsx:81-90 | without a selected skill nothing happens; otherwise the review is sent with the typed notes, and only on success are the selection and notes cleared and the skills refetched |
| AdminPanel.ReviewedSkillNotOfferedAgain | src/pages/AdminPanel.tsx:81-90 | after a successful review the reviewed skill no longer offers the Verify button |
| AdminPanel.HandleAssignMentor | src/pages/AdminPanel.tsx:93-106 | without both selections the page only complains; otherwise the assignment is sent, a success closes the dialog, clears both selections and announces it, and a failure keeps the dialog and the list and records an error |
| AdminPanel.DuplicateAssignmentKeepsDialog | src/pages/AdminPanel.tsx:93-106 | assigning an already assigned pair keeps the dialog open with its selections and reports the student as already assigned |
| AdminPanel.AdminAccessMembers | src/pages/AdminPanel.tsx:411 | the page's role list admits exactly the admins and super admins |
| AdminPanel.AdminView | src/pages/AdminPanel.tsx:409-415 | the page shows exactly when the roles are loaded and include admin or super admin; anyone else is redirected home |
| AdminPanel.AdminAccessIsRank | src/pages/AdminPanel.tsx:411 | admission coincides with holding a role ranked admin or higher |
| SuperAdminPanel.FilteredUsers | src/pages/SuperAdminPanel.tsx:62-68 | a user is listed exactly when the full name or roll number is present and contains the search ignoring case, and the role filter is "all" or names one of the user's roles |
| SuperAdminPanel.NamelessUsersNeverListed | src/pages/SuperAdminPanel.tsx:63-65 | a user with neither a name nor a roll number is never listed, not even for the empty search |
| SuperAdminPanel.EmptySearchListsNamedUsers | src/pages/SuperAdminPanel.tsx:62-68 | the empty search on "all" lists exactly the users with a name or a roll number |
| SuperAdminPanel.RoleFilterIsMembership | src/pages/SuperAdminPanel.tsx:66 | filtering by a role's name keeps exactly the users holding that role |
| SuperAdminPanel.Stats | src/pages/SuperAdminPanel.tsx:70-76 | the user card counts every user; the student, mentor and admin cards count exactly the users holding the student role, the mentor role, and admin or super admin, none exceeding the number of users; the pending card counts exactly the skills awaiting review |
| SuperAdminPanel.AdminsCountedOnce | src/pages/SuperAdminPanel.tsx:74 | the admin card counts a user holding both admin roles once: it is the admin holders plus the super-admin holders minus those holding both |
| SuperAdminPanel.HandleAssignRole | src/pages/SuperAdminPanel.tsx:78-87 | without a selected user and a chosen role nothing happens; otherwise the role is assigned, and only on success is the dialog cleared |
| SuperAdminPanel.DuplicateRoleClearsDialog | src/pages/SuperAdminPanel.tsx:78-87 | assigning a role the user already holds clears the dialog and leaves the user list as it was |
| SuperAdminPanel.RemovableRoles | src/pages/SuperAdminPanel.tsx:212-226 | a badge offers a remove button exactly for the user's roles other than student |
| SuperAdminPanel.BadgesSplitAtStudent | src/pages/SuperAdminPanel.tsx:212-226 | the badges offering removal and the student badges together account for every badge of the user |
| SuperAdminPanel.RemovableRolesExamples | src/pages/SuperAdminPanel.tsx:218 | a student-only user is offered no removal; a user holding each of the five roles once is offered four |
| SuperAdminPanel.SuperAdminView | src/pages/SuperAdminPanel.tsx:293-298 | the page shows exactly when the roles are loaded and include super admin; anyone else is redirected home |
| SuperAdminPanel.AdminIsNotEnough | src/pages/SuperAdminPanel.tsx:295 | an admin without the super-admin role is redirected home |
| MentorPanel.FilteredAssignments | src/pages/MentorPanel.tsx:37-40 | an assignment is listed exactly when its student profile is present and its name or roll number is present and contains the search, ignoring case |
| MentorPanel.UnnamedStudentsNeverListed | src/pages/MentorPanel.tsx:37-40 | an assignment whose student profile is missing, or has neither name nor roll number, is never listed, not even for the empty search |
| MentorPanel.EmptySearchListsNamedStudents | src/pages/MentorPanel.tsx:37-40 | when every student has a name, the empty search lists every assignment in order |
| MentorPanel.Stats | src/pages/MentorPanel.tsx:42-45 | the total card counts every assigned student whatever the search shows, and the feedback card is always 0 |
| MentorPanel.ListedWithinTotal | src/pages/MentorPanel.tsx:37-45 | the search never lists more students than the total card counts |
| MentorPanel.MentorAccessMembers | src/pages/MentorPanel.tsx:173 | the page's role list admits exactly mentors, admins and super admins |
| MentorPanel.MentorView | src/pages/MentorPanel.tsx:171-176 | the page shows exactly when the roles are loaded and include mentor, admin or super admin; anyone else is redirected home |
| MentorPanel.MentorAccessIsRank | src/pages/MentorPanel.tsx:173 | admission coincides with holding a role ranked mentor or higher, so a counsellor is redirected home |

## Left out

- Rendering: JSX, styling, icons, dialogs, toasts and the other notices are not modelled; the handlers' notices appear only as a returned message where the text matters (`AdminPanel.HandleAssignMentor`).
- Persistence: `localStorage` reads and writes and JSON (de)serialisation are replaced by passing the stored value in and out; `getStudentData` (with its fallback for corrupt data), `saveStudentData` and `updateProfile` in src/lib/store.ts are only storage and a spread, so they are not modelled.
- Backends: Supabase queries and auth sessions, the ERP HTTP fetch, the language-model gateway call, its HTTP status mapping and CORS headers are oracles or outside the model. Filters the server applies (`.eq`, `.in`, `.order`) are part of the oracle's answer, not checked.
- `fetchProgress` and `fetchNotices` in the ERP client: each only forwards the fetch oracle's answer, exactly like `fetchStudents`, which is modelled.
- `JSON.parse` of the extracted span in predict-risk is a parameter; only the brace-span extraction is modelled.
- Floating point: averages, percentages and correlations are exact reals. NaN and infinities appear only as "no finite number" (`None`) where the code can produce them; `Math.sqrt` is a parameter assumed positive on positive arguments and 0 at 0; `toFixed` display formatting is left out.
- ErpClient.RoundPercent: `Math.round(obtained / total * 100)` is computed exactly as round-half-up of the true ratio; IEEE rounding of the division can differ at exact .5 boundaries.
- `Number(s)` on strings: only digit strings (and the empty string, which is 0) read as numbers; signs, decimals, exponents and surrounding whitespace read as NaN in this model.
- StudentAnalytics.Mean: a string mood, stress or sleep value makes its mean `None`; JavaScript's `+` would concatenate the string into the running sum and the final division would convert the text, giving NaN or a number depending on it.
- StudentAnalytics.MarkRatio: a string score or maximum gives `None`; the division converts it with `Number` first, so a numeric string such as "80" counts as its number and the empty string as 0.
- `toLowerCase` is ASCII-only; strings are sequences of Unicode scalar values, so string comparison agrees with JavaScript's UTF-16 code-unit order only inside the Basic Multilingual Plane.
- MockBigQuery.SortRowsSorted: sortedness is proved only when the order column holds one kind of value (nulls allowed); on mixed kinds the comparator is not a consistent order and the engine's output order is left unstated. `OrderedQuerySorted`, `CompareAntisymmetric` and `CompareTransitive` carry the same restriction.
- StudentAnalytics.HistoryNewestFirst: newest-first is stated for date columns holding strings only, the form the service writes.
- Sorting is modelled as a stable insertion sort; `Array.prototype.sort` is stable, and rows equal under the comparator keep their order in both.
- MockFirestore.GetDocs: the result is a set; the order of `Object.entries` is not modelled.
- MockBigQuery.CreateTable: a table named `__proto__` replaces the dataset object's prototype instead of adding a key, so the saved JSON does not hold it; the model creates it like any other name.
- MockBigQuery.InsertRows: a table name inherited from `Object.prototype` (such as `constructor` or `toString`) passes the presence test and then fails with a TypeError on the missing `rows`; the model fails with the not-found message.
- MockBigQuery.QueryTable: an inherited table name such as `constructor` fails with a TypeError on spreading the missing `rows`, not with the not-found message the model gives.
- MockBigQuery.GetTableSchema: an inherited table name such as `constructor` returns `undefined` in the code; the model fails.
- MockBigQuery.TruncateTable: an inherited table name such as `constructor` succeeds in the code and saves the dataset unchanged; the model fails.
- MockFirestore.GetDoc: an inherited id such as `toString` reports `exists: true` with the inherited function as its data; the model reports it missing.
- MockFirestore.UpdateDoc: an inherited id such as `toString` passes the presence test and creates a document holding the updates and `updatedAt` (`__proto__` instead replaces the prototype and saves nothing); the model fails.
- MockFirestore.DeleteDoc: an inherited id such as `toString` passes the presence test and the delete removes nothing, so the call succeeds and saves the collection unchanged; the model fails.
- MockBigQuery.ListTables: the result is the set of table names rather than an array; the key order of `Object.keys` (integer-like names ascending, then the others in creation order) is not modelled, because a dataset is a map.
- MockFirestore.AddDoc: `createdAt` and `updatedAt` are taken at one clock reading, although the code reads the clock twice.
- Generated document ids are parameters; the code never checks them for collisions, and the model assumes nothing about them.
- FocusMode: the interval, its cleanup and React's batching become discrete `Tick` events each followed by the completion effect; `addFocusSession` and the completion toast are not part of this model (a completed session is appended to a log instead). `ChooseSubject` stores any code, as the code does not check it against the subject list.
- `getSubjectRisk`, `addFocusSession` and the other symbols imported from src/lib/store.ts but not defined there are not part of this model; `useRiskPrediction` is left out because it reads a field the student data does not have.
- SuperAdminPanel's `handleRemoveRole` only forwards to `removeRole` (modelled as `AllUsers.RemoveRole`) and shows a notice.
- The refetch that `AdminPanel.HandleVerify` triggers after a successful review is reported as a flag, not performed.
- The thin hooks and services over libraries that are not shown (`userService`, `useFirestoreUsers`, `useBigQueryAnalytics`, `useERPData`) and the presentation-only components and pages are not part of this model.
- Concurrency: stale or overlapping async responses are not modelled; each call completes before the next starts.
