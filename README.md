# Academic planner and assessment mirror — a Dafny model

This project models the academic planner of the school portal's back end
(`backend/api.php`). Each class and subject has a **plan**. A plan is a list of
**plan items**: syllabus topics, assignments and quizzes. An item can have
dated **sessions**. Each assessment-type item is mirrored into the class's
**assessment rows** (`class_assignments` / `class_quizzes`), which carry their
own sequence number. It is also mirrored into one **student row** per student
of the class (`student_assignments` / `student_quizzes`), where marks are later
recorded.

The model keeps the five tables as the fields of one object, `Planner.PlannerStore`:
- plans, items and sessions;
- class rows of both kinds, each kind with its own id counter;
- student rows of both kinds.

Every request handler is a method of that object. It checks the request in
the code's order and answers `BadRequest`, `Forbidden`, `NotFound` or
`Conflict` before writing anything. On success it performs the code's
writes in the code's order. Each write is specified by a pure function of
the old tables, and the handler's `ensures` ties the new state to that
function. The properties the code promises are proved as lemmas about those
functions:
- the sweep is idempotent;
- numbers stay unique per scope and are stable once assigned;
- the mirror is exact and idempotent;
- sessions are resynchronised exactly;
- the deferral rule holds;
- covered rows are never overdue;
- plain staff get the admin override.

The store's invariant (`PlannerStore.Valid`) has four parts:
- plan and item ids are unique and below their counters;
- an item that is not deferred has no deferral date;
- sessions are unique on (item, date);
- class-row numbers are unique within each (class, subject) and row ids are distinct.

Every handler preserves it.

Modules follow the structure of the code:

| module | covers |
|---|---|
| `Common` | PHP's `trim`, `strtolower`, `?:`, `??`; the date normalisers |
| `Enums` | the enumerated columns and the words accepted for them |
| `Rows` | the table rows |
| `Authorization` | `canManagePlanner`, `map_role_and_super`, `compute_role` |
| `Catalog` | `normalize_level`, `termTableFor`, the ticket categories of `createTicket` |
| `Sorting` | the `ORDER BY` clauses |
| `Sessions` | `upsertPlannerSessions` |
| `Numbering` | `upsertClassAssignmentForPlanItem` / `upsertClassQuizForPlanItem` |
| `Mirror` | the student tables: mirror, coverage, detach, completion, marks summary |
| `Items` | the sweep, the item field merge, the status update, the read order |
| `Plans` | plan selection and the plan save |
| `Coverage` | the class-assessment view, the assessment save, the completion update |
| `Planner` | the store and its handlers |

Dates and datetimes are integers that order as the canonical text does.
`strtotime`/`date` is a parameter (`parse`). The clock, the
teacher-assignment table and each class's roster come in `Planner.Env`.

Where the code and the behaviour its comments and names suggest differ, the model follows the code:
- the 409 of the assessment save, which cannot be reached;
- an empty roster, which keeps stale student mirrors;
- a save that lets a deferral without any date through.

## Model

| member | source | states |
|---|---|---|
| Common.CleanText | backend/api.php:2136-2143 | a missing value is null; a present one is trimmed, and null if nothing is left |
| Common.NormalizeDateTime | backend/api.php:1071-1084 | missing or blank input is null; otherwise the trimmed text goes to the parser, whose failure is null |
| Common.NormalizeDate | backend/api.php:1086-1099 | the same rule for calendar dates |
| Common.DateTimeKey | backend/api.php:2145-2151 | an absent key keeps the fallback (the stored value); a present key, even one holding null, is normalised |
| Enums.ParseItemStatus | backend/api.php:2291-2292 | accepts exactly the four stored status words (case-sensitive) and rejects every other string |
| Enums.ParseItemType | backend/api.php:2131-2134 | accepts exactly `syllabus`, `assignment`, `quiz` |
| Enums.ParseSessionStatus | backend/api.php:2067-2070 | accepts exactly `scheduled`, `covered`, `cancelled` |
| Enums.ParseFrequency | backend/api.php:1931-1935 | accepts exactly `Daily`, `Weekly`, `Monthly`, `Custom` |
| Enums.ParsePlanStatus | backend/api.php:1940-1943 | accepts exactly `active`, `archived` |
| Enums.ParseNamesRoundTrip | backend/api.php:2156 | every stored enum word parses back to the value it names |
| Authorization.ManageDecision | backend/api.php:1114-1147 | the gate's six outcomes, each exactly characterised: super admin; wrong role; no user id; assignment found; admin override; teacher without assignment |
| Authorization.CanManagePlanner | backend/api.php:1114-1147 | super admins may manage; non-staff and non-positive ids may not; an assigned teacher or admin may; any admin may; an unassigned teacher may not |
| Authorization.MapRoleAndSuper | backend/api.php:2796-2807 | the label "teacher" maps to a non-super Admin, "admin" to a super Admin, and every other label to Student |
| Authorization.ComputeRole | backend/api.php:3508-3529 | an admins-table row wins and carries its super flag; then the teachers table gives Admin; everyone else is Student |
| Authorization.ComputedTeacherManagesEverything | backend/api.php:1139-1143 | a teacher, whose computed role is Admin, is never denied for lack of an assignment and may manage every class and subject |
| Authorization.ComputedStudentNeverManages | backend/api.php:1121-1124 | a user outside the admins and teachers tables can never manage a plan |
| Catalog.Compact | backend/api.php:3487 | the result holds no space, underscore or dash |
| Catalog.CompactIgnoresSeparator | backend/api.php:3487 | removing one separator anywhere leaves the compacted form unchanged |
| Catalog.LevelOfWord | backend/api.php:3488-3501 | each level matches exactly its aliases |
| Catalog.NormalizeLevel | backend/api.php:3483-3501 | missing is null; otherwise the alias lookup of the trimmed, lower-cased, compacted text |
| Catalog.NormalizeLevelRoundTrip | backend/api.php:3483-3501 | every level's stored name normalises back to that level |
| Catalog.TermTableFor | backend/api.php:164-173 | first/mid names select the first-term table, final names the final-term table, and nothing else selects a table |
| Catalog.TicketSubcategories | backend/api.php:714-718 | an unknown first-level category allows no second-level one |
| Catalog.CreateTicket | backend/api.php:701-723 | non-students other than super admins get 403; otherwise the ticket is accepted, with its fields as read (categories trimmed and lower-cased, content trimmed), exactly when the first category is known, the second is one of its subcategories, and the content is not blank; every other payload gets 400 |
| Common.WordIdempotent | backend/api.php:710-711 | reading an already-read word (trim, then lower-case) again gives the same word |
| Catalog.CreateTicketResubmit | backend/api.php:710-723 | an accepted ticket, submitted again with its stored fields, is accepted with the same fields |
| Sorting.InsertBy | backend/api.php:1197 | inserting into an ordered sequence keeps it ordered and adds exactly the one element |
| Sorting.SortBy | backend/api.php:1197 | the result is ordered by the key and is a permutation of the input |
| Sessions.CleanSession | backend/api.php:2059-2070 | an input is used iff its date normalises; notes are cleaned; an invalid status becomes `scheduled` |
| Sessions.CleanSessions | backend/api.php:2058-2073 | the rows the loop upserts all belong to the item, and there are no more of them than inputs |
| Sessions.CleanSessionsMembers | backend/api.php:2058-2073 | a row is upserted exactly when some input whose date normalises asks for it |
| Sessions.ProcessedDates | backend/api.php:2058-2073 | a date is processed exactly when some input's date normalises to it |
| Sessions.SyncedDatesFromInputs | backend/api.php:2051-2086 | afterwards the item has a session on a date exactly when some input's date normalises to it |
| Sessions.UpsertSession | backend/api.php:2053-2057 | the upsert keeps the (item, date) key unique and replaces exactly the row with the same key |
| Sessions.Prune | backend/api.php:2075-2085 | keeps exactly the other items' sessions and this item's sessions on processed dates |
| Sessions.PruneUnique | backend/api.php:2075-2085 | the delete keeps the table unique on (item, date) |
| Sessions.Desired | backend/api.php:2058-2073 | each processed date maps to one of the processed rows for that date |
| Sessions.DesiredDates | backend/api.php:2058-2073 | the dates that end up with a session are exactly the processed dates |
| Sessions.DesiredLast | backend/api.php:2071 | the last input for a date decides its notes and status |
| Sessions.SyncSessionsExact | backend/api.php:2051-2086 | afterwards the item's sessions are exactly the processed dates, each with its last input's row; other items' sessions are untouched; the key stays unique |
| Sessions.SyncSessionsEmpty | backend/api.php:2075-2079 | with no usable date every session of the item is deleted and no other |
| Numbering.MaxNumber | backend/api.php:1299-1301 | null for an empty scope; otherwise the largest number in the scope |
| Numbering.NextNumber | backend/api.php:1299-1301 | above every number in the scope; 1 for an empty scope; otherwise one more than the scope's maximum |
| Numbering.FindLinked | backend/api.php:1276-1278 | finds the first row linked to the item, or reports that none is |
| Numbering.RowName | backend/api.php:1280 | the title when truthy, else the text when truthy, else "Assignment" / "Quiz" |
| Numbering.UpsertForPlanItem | backend/api.php:1267-1320 | invalid ids change nothing and return no number; a linked row keeps id, number and scope and only has name, description, deadline and status rewritten; otherwise one row is appended in the plan's scope, with the next id, the next number, the item link, the fallback name, the description, deadline and status, and no completion, teacher or author |
| Numbering.UpsertKeepsInvariants | backend/api.php:1267-1320 | the upsert keeps numbers unique per scope and ids distinct and below the counter |
| Numbering.NumberStable | backend/api.php:1283-1297 | a second save of the same item returns the same number and row id |
| Numbering.SameKeysKeepInvariants | backend/api.php:1283-1297 | a rewrite that keeps ids, numbers and scopes keeps both table invariants |
| Numbering.AppendKeepsInvariants | backend/api.php:1303-1319 | appending a row with the next id and a free number keeps both invariants |
| Mirror.FilterMembers | backend/api.php:1792 | the delete keeps exactly the rows not linked to the item |
| Mirror.FiltersOfSplit | backend/api.php:1792-1810 | a table of unlinked rows followed by linked rows filters back into its two parts |
| Mirror.MirrorRows | backend/api.php:1798-1810 | one row per roster entry, in roster order, each built from the item |
| Mirror.SyncMirror | backend/api.php:1774-1835 | invalid ids, an empty roster or a missing number leave the table as it was |
| Mirror.MirrorSplit | backend/api.php:1792-1810 | after a sync the rows linked to the item are the new mirror rows and the rest are the old unlinked rows |
| Mirror.MirrorExact | backend/api.php:1786-1833 | after a sync the item's rows are exactly one per roster student, with the class row's number, the item's status as coverage and no marks; other rows keep their order |
| Mirror.MirrorIdempotent | backend/api.php:1774-1835 | syncing twice with the same inputs equals syncing once |
| Mirror.EmptyRosterKeepsStaleMirrors | backend/api.php:1781-1784 | with an empty roster the item's old mirror rows stay, however stale |
| Mirror.SetCoverage | backend/api.php:1230-1238 | only the coverage of rows linked to the item changes; an empty status changes nothing |
| Mirror.Detach | backend/api.php:2378-2381 | linked rows lose the link and fall back to `scheduled`; marks, student and number stay; other rows are untouched |
| Mirror.DetachedRowsSurviveSync | backend/api.php:2378-2381 | a detached row survives any later sync of the item |
| Mirror.CompleteStudentRows | backend/api.php:59-60 | rows of the number take the status; `graded_at` is filled in, never replaced, when the status is `covered`; marks and other rows stay |
| Mirror.Group | backend/api.php:1385-1387 | one GROUP BY group: exactly the students' rows of that class, subject and number |
| Mirror.GradedCount | backend/api.php:1383 | counts rows with marks; equals the group size iff all rows are graded, and is zero iff none is |
| Mirror.LatestUpdate | backend/api.php:1384 | the maximum `updated_at` of the group |
| Mirror.SummaryFor | backend/api.php:1377-1415 | no summary iff no student row has the number; otherwise the student count is the group size, the graded count counts the group's marked rows, and the latest update is the group's latest `updated_at` |
| Items.Sweep | backend/api.php:1168-1178 | items of the plan that are scheduled and due become ready for verification, stamped now; every other item is unchanged |
| Items.SweepIdempotent | backend/api.php:1168-1178 | sweeping twice at once is sweeping once |
| Items.SweepOnlyAdvances | backend/api.php:1170-1175 | the sweep only moves scheduled to ready; identity, plan and dates never change; an item changes iff it was due |
| Items.MergeText | backend/api.php:2136-2143 | a given text is trimmed and cleaned; otherwise the stored text is kept; never the empty string |
| Items.MergeType | backend/api.php:2131-2134 | a valid word wins; otherwise the stored type, else `syllabus` |
| Items.MergeStatus | backend/api.php:2153-2159 | a valid word wins; otherwise the stored status, else `scheduled` |
| Items.ResolveDeferredTo | backend/api.php:2169-2173 | only a deferred item keeps a deferral date; a deferral without one takes `scheduled_for` |
| Items.MergeItemFields | backend/api.php:2131-2173 | every written field is the merge of request and stored item; a non-deferred item never has a deferral date |
| Items.SaveAllowsUndatedDeferral | backend/api.php:2166-2173 | a deferral with no date at all is saved, with no deferral date |
| Items.StampNeverMovesAsWritten | backend/api.php:2190-2191 | as written, `status_changed_at` never moves on update |
| Items.StampAsWrittenCounterexample | backend/api.php:2190-2191 | a scheduled item saved as covered keeps its old stamp |
| Items.StampOnChange | backend/api.php:2191 | the intended stamp moves to now exactly when the status changes |
| Items.UpdatedItem | backend/api.php:2183-2208 | identity, plan and creation time are kept; fields come from the merge; the stamp follows StampOnChange; everything else equals the as-written update |
| Items.NewItem | backend/api.php:2224-2244 | the inserted item has the new id and the plan; its type, title, topic, description, schedule and verification notes are the merged fields; it has the merged status and deferral, and is stamped, created and updated now |
| Items.RequestedDeferral | backend/api.php:2307 | a given `deferred_to` is normalised; when deferring, else the given `scheduled_for` or the stored one |
| Items.ApplyStatusUpdate | backend/api.php:2291-2334 | 400 for an unknown status or an undated deferral; otherwise the status is stamped now, notes are overwritten, the deferral date is set iff deferred, dates change only where their keys are present, and all else stays |
| Items.ItemsOfPlan | backend/api.php:1195-1196 | exactly the plan's items |
| Items.SessionsOfItem | backend/api.php:1181 | exactly the item's sessions |
| Items.SessionsByDate | backend/api.php:1180-1191 | the item's sessions, ordered by date |
| Items.LoadPlannerItems | backend/api.php:1193-1206 | a permutation of the plan's items, undated last, then by date and creation time, each with its own sessions by date |
| Plans.SelectPlan | backend/api.php:1155-1166 | null iff no plan matches; otherwise a matching plan that no other match outranks (active first, then most recently updated) |
| Plans.SelectPrefersActive | backend/api.php:1162 | whenever an active plan matches, an active plan is chosen |
| Plans.FindPlan | backend/api.php:1149-1153 | the plan with the id, or none has it |
| Plans.ClampFrequency | backend/api.php:1931-1935 | a valid word wins, else `Custom` |
| Plans.ClampPlanStatus | backend/api.php:1940-1943 | a valid word wins, else `active` |
| Plans.ResolveAssignmentTeacher | backend/api.php:1220-1228 | null for a null or zero id; otherwise the teacher of an assignment row with that id; found whenever such a row exists |
| Plans.RequestedOwner | backend/api.php:1949-1958 | a non-super staff requester with an id owns the plan; otherwise the assignment's teacher |
| Plans.NewPlan | backend/api.php:2020-2039 | the inserted plan carries the request's clamped and normalised fields, created and updated now |
| Plans.UpdatedPlan | backend/api.php:1961-2007 | id, scope and creation time are kept; a missing assignment key keeps the stored assignment; a null owner keeps the stored owner; every other column comes from the request |
| Plans.UpdatePlanIdempotent | backend/api.php:1970-2007 | saving the same request twice equals saving it once, but for `updated_at` |
| Coverage.JoinedItem | backend/api.php:1439 | the LEFT JOIN: the linked item if it exists, else none |
| Coverage.ViewOf | backend/api.php:1470-1504 | title and description are the linked item's when truthy, else the row's; the topic is the item's; the linked item's status wins; the deadline falls back to the item's schedule; the row is overdue iff it is dated, not covered and past; the counts exist iff a student row has the number, and are then the group's size, graded count and latest update; without them the update time is the item's |
| Coverage.CoveredNeverOverdue | backend/api.php:1477-1484 | a covered assessment is never overdue, and an uncovered one past its deadline always is |
| Coverage.ScopeRows | backend/api.php:1440 | exactly the rows of the class and subject |
| Coverage.OrderedScope | backend/api.php:1441 | the scope's rows, permuted into deadline order (undated last, then number) |
| Coverage.FetchClassAssessments | backend/api.php:1417-1508 | one view per scope row, in query order, each of the requested kind |
| Coverage.AssessmentStatus | backend/api.php:1564-1568 | a valid status word wins, else `scheduled` |
| Coverage.PositiveOrNull | backend/api.php:1591-1599 | a non-positive id becomes null |
| Coverage.AssessmentName | backend/api.php:1626-1631 | the title; else (assignment) the description or "Assignment"; else (quiz) the topic, the description or "Quiz" |
| Coverage.AssessmentFieldsOf | backend/api.php:1564-1631 | the written values: the fallback name, the description (a quiz's topic first), the deadline normalised from `deadline` or `scheduled_at`, the clamped status, a positive link or null, the teacher as given, and the requester's id as author when positive, else null |
| Coverage.FindInScopeById | backend/api.php:1637-1646 | a row with that id in the scope, or none exists |
| Coverage.FindByNumber | backend/api.php:1648-1656 | a row with that number in the scope, or none exists |
| Coverage.ChooseTarget | backend/api.php:1636-1704 | 404 iff a positive id is not in the scope; an update hits the row with that id or number; an insert uses a number free in the scope (the given one, or the next); the conflict is never chosen |
| Coverage.UpdatedAssessmentRow | backend/api.php:1658-1685 | name, description, deadline and status are the new fields; id, number, scope, completion and author are kept; link and teacher change only when supplied |
| Coverage.NewAssessmentRow | backend/api.php:1706-1722 | the inserted row has the new id, the chosen number and the scope; name, description, deadline, status, link, teacher and author are the fields; there is no completion |
| Coverage.ApplySave | backend/api.php:1658-1722 | an update rewrites exactly the target row; an insert appends exactly the new row; nothing else changes |
| Coverage.SaveKeepsInvariants | backend/api.php:1636-1722 | a save keeps numbers unique per scope and ids distinct |
| Coverage.CompletionKind | backend/api.php:24 | exactly `assignment` and `quiz` (trimmed, lower-cased) are kinds |
| Coverage.CompletionStatus | backend/api.php:29 | a valid status word wins, else `covered` |
| Coverage.CompletionTime | backend/api.php:44 | a truthy trimmed time is parsed (possibly to null); otherwise now |
| Coverage.CompleteClassRows | backend/api.php:51-73 | exactly the scope's rows selected by link or by number take the status and completion time; every other row is unchanged |
| Coverage.CompleteKeepsInvariants | backend/api.php:51-73 | completion keeps numbers unique and ids distinct |
| Planner.FindItem | backend/api.php:1208-1218 | the item with the id, or none has it |
| Planner.FetchPlannerPlanItem | backend/api.php:1208-1218 | the item joined to its plan; not found iff the item or its plan is missing |
| Planner.ReplaceItem | backend/api.php:2183-2208 | only rows with the item's id are replaced |
| Planner.RemoveItem | backend/api.php:2382-2383 | exactly the items with other ids remain |
| Planner.ReplacePlan | backend/api.php:1985-2007 | only rows with the plan's id are replaced |
| Planner.ReplaceItemValid | backend/api.php:2183-2208 | rewriting an item that obeys the deferral rule keeps the item invariant |
| Planner.AppendItemValid | backend/api.php:2224-2245 | appending an item with the next id keeps the item invariant |
| Planner.ReplacePlanValid | backend/api.php:1985-2007 | rewriting a plan keeps the plan invariant |
| Planner.AppendPlanValid | backend/api.php:2020-2041 | appending a plan with the next id keeps the plan invariant |
| Planner.ItemSaveTarget | backend/api.php:2089-2122 | 400 with neither id; 404 for an unknown item or a missing plan; otherwise the stored item (or none) and its plan |
| Planner.StatusUpdateResult | backend/api.php:2265-2315 | 400, 404, 403 and the status checks in the code's order; a successful update keeps the deferral date set iff deferred |
| Planner.DeleteResult | backend/api.php:2350-2373 | 400 for a bad id, 404 for an unknown item, 403 for a non-manager, else the delete goes ahead |
| Planner.PlanSaveTarget | backend/api.php:1917-1968 | 400, 403, and 404 for a plan id outside the class and subject; else update that plan, or insert |
| Planner.AssessmentSaveDecision | backend/api.php:1550-1704 | 400 for bad scope ids, 403, 400 for an unresolvable teacher assignment, 404 for an unknown id; otherwise the chosen target with the values to write |
| Planner.SavedOf | backend/api.php:1687 | an update answers the row's id and number; an insert answers the new id and number, marked created |
| Planner.CompleteTables | backend/api.php:51-73 | the kind's class rows are completed; with a number its student rows too; the other kind and the counters stay |
| Planner.CheckCompletion | backend/api.php:24-45 | 400 for an unknown kind or bad scope ids; 403 for a non-manager; otherwise the parsed kind, status and time |
| Planner.PlannerStore.AutoAdvancePlannerStatuses | backend/api.php:1168-1178 | the items become the sweep of the old items |
| Planner.PlannerStore.UpsertPlannerSessions | backend/api.php:2051-2086 | the loop upserts each usable input and records its date, then prunes; the result is SyncSessions of the old table and stays unique |
| Planner.PlannerStore.UpsertClassRowForPlanItem | backend/api.php:1267-1375 | the kind's table and counter become UpsertForPlanItem's result; the returned number and id are its; the other kind is untouched |
| Planner.PlannerStore.SyncLinkedAssessmentCoverage | backend/api.php:1230-1238 | both student tables become SetCoverage of the old ones |
| Planner.PlannerStore.ReplaceMirrors | backend/api.php:1792-1810 | the delete, then the per-student insert loop, yield SyncMirror of the old table |
| Planner.PlannerStore.SyncPlannerItemToStudentTables | backend/api.php:1774-1835 | only the table of the item's type is re-mirrored; the other is left as it was |
| Planner.PlannerStore.WritePlanItem | backend/api.php:2183-2245 | an update replaces the stored item; an insert appends a new item with the next id |
| Planner.PlannerStore.WriteItemClassRows | backend/api.php:2210-2214 | only the class table of the item's type is upserted |
| Planner.PlannerStore.PersistPlannerItem | backend/api.php:2209-2254 | the code's write sequence: item, sessions, class row, coverage, mirror |
| Planner.PlannerStore.PersistItemAssessments | backend/api.php:2210-2217 | the assessment tables become ItemAssessmentWrites of the old ones |
| Planner.PlannerStore.SavePlannerItem | backend/api.php:2088-2262 | errors in the code's order write nothing; a manager's save performs the whole write sequence with the merged fields |
| Planner.PlannerStore.UpdatePlannerItemStatus | backend/api.php:2264-2347 | errors write nothing; on success the item is rewritten and the coverage of its student rows follows; class rows are untouched |
| Planner.PlannerStore.WriteItem | backend/api.php:2334-2338 | the stored item is replaced |
| Planner.PlannerStore.DeletePlannerItem | backend/api.php:2349-2395 | errors write nothing; on success the student rows are detached and the item is removed |
| Planner.PlannerStore.GetPlannerData | backend/api.php:1837-1900 | 400, then 403 unless manager or viewer; the selected plan and its items; only a manager's read sweeps due items |
| Planner.PlannerStore.SavePlannerPlan | backend/api.php:1902-2049 | errors write nothing; an update replaces the plan with UpdatedPlan; an insert appends NewPlan with the next id |
| Planner.PlannerStore.ListClassAssessments | backend/api.php:1510-1545 | 400, then 403 unless manager or viewer; otherwise both kinds' views of the class and subject |
| Planner.PlannerStore.SaveClassAssessment | backend/api.php:1547-1734 | errors write nothing; otherwise the kind's table becomes ApplySave along the chosen target, the answer is SavedOf, the counter moves only on insert, and the other kind is untouched |
| Planner.PlannerStore.UpsertAssessmentCompletion | backend/api.php:23-84 | errors write nothing; otherwise the tables become CompleteTables of the old ones and the answer holds the status and time |
| Planner.PlannerStore.CompleteRows | backend/api.php:51-73 | the writes of the completion, as CompleteTables describes |
| Planner.PlannerStore.CompleteClassTable | backend/api.php:52-58 | the kind's class rows become CompleteClassRows of the old ones |

## Left out

- HTTP plumbing is not modelled: routing, JSON encoding, response bodies and `$_GET` parsing. Each handler instead returns a `Result` whose error names the status code.
- Store failures (PDO exceptions, the 500 answers) and transactions are not modelled. Every handler is treated as atomic.
- `strtotime`/`date` are foreign code. They are the `parse` parameter, and only the "missing or blank is null" rule is modelled.
- `getStudentUserIdsForClassId` and `resolveClassNameById` are not part of this model. The roster is the function `Env.roster`, and class names are not used.
- The teacher-assignment table is a read-only directory (`Env.directory`).
- `ensureAssessmentSchema` (schema patching) and `plannerLog` (logging) have no effect on the tables and are left out. `fetchPlannerPlanRow` is `Plans.FindPlan`.
- `total_marks` and every other floating-point mark are left out. Marks are tracked only as present or absent.
- `updated_at` / `created_at` of class and student rows are not modelled, except the student row's `updated_at`, which the marks summary reads. The insert stamp `NOW()` is `Env.now`.
- `student_assignments` / `student_quizzes` columns the engine never writes (obtained marks, feedback) are not modelled beyond presence.
- Foreign-key cascades of the schema are not modelled. The delete detaches student rows by hand but leaves the item's sessions and class rows in place, and so does the model.
- The mirror's number test `is_int || ctype_digit` is modelled as "a number was returned". The numbers the upsert returns are always integers.
- `Sorting.SortBy` fixes one order for rows with equal keys, while the database may return such rows in any order. The contracts state only ordering and permutation.
- Plan rows returned by `getPlannerData` are the selected row as a whole; the JSON shape of items and sessions is not modelled.
- Handlers outside the planner core (users, attendance, tickets beyond `createTicket`'s checks, marks, uploads, the chat and PDF helpers) are not modelled.
- Planner.PlannerStore.SavePlannerItem: an update stores the corrected stamp (`Items.UpdatedItem`, `Items.StampOnChange`), which moves when the status changes. The code as written never moves it (`Items.UpdatedItemAsWritten`, see Findings). `Items.UpdatedItem` proves that the two rows differ only in `statusChangedAt`.
- Planner.PlannerStore.PersistPlannerItem: the item it writes on update has the corrected stamp, as for `SavePlannerItem` above. In every other column it matches the code.
- Planner.PlannerStore.WritePlanItem: the replacement row has the corrected stamp, as for `SavePlannerItem` above.
- The 409 answer of the assessment save (a number already taken in the scope) cannot be reached, because the lookup by number before it turns such a save into an update. The model keeps the `TargetConflict` case, and `Coverage.ChooseTarget` proves it is never chosen.

## Findings

| source | as written | input that shows it | evidently intended | confidence | as-written member | corrected member |
|---|---|---|---|---|---|---|
| backend/api.php:2190-2191 | MySQL evaluates single-table `UPDATE ... SET` assignments left to right. `status = :status` is therefore already in force when `CASE WHEN status <> :status` is evaluated, so `status_changed_at` never moves when a save changes an item's status | a stored item with status `scheduled` and stamp 100, saved at time 200 with status `covered`: the status becomes `covered` and the stamp stays 100 | the stamp moves to now exactly when the status changes (compare with the status the row had before the update) | not executed | Items.UpdatedItemAsWritten, Items.StampAsWrittenCounterexample | Items.StampOnChange, Items.UpdatedItem |
