/**
 * Class assessments and their coverage: the merged view of
 * fetchClassAssessments, the row saveClassAssessment targets and writes, and
 * the completion update of upsertAssessmentCompletion on the class tables.
 */
module Coverage {
  import opened Common
  import opened Enums
  import opened Rows
  import opened Sorting
  import opened Numbering
  import opened Mirror

  // ---------------------------------------------------------------------
  // The merged view (fetchClassAssessments)
  // ---------------------------------------------------------------------

  /** The plan item a class row is joined to (`LEFT JOIN ... ON pi.id = a.plan_item_id`). */
  function JoinedItem(items: seq<PlanItem>, link: Option<int>): (r: Option<PlanItem>)
    ensures link.None? ==> r.None?
    ensures r.Some? ==> r.value in items && Some(r.value.id) == link
    ensures link.Some? && r.None? ==> forall it :: it in items ==> it.id != link.value
  {
    if link.None? || items == [] then None
    else if items[0].id == link.value then Some(items[0])
    else JoinedItem(items[1..], link)
  }

  /** The plan item's status when the row is linked to one, else the row's own. */
  function EffectiveStatus(item: Option<PlanItem>, row: ClassRow): ItemStatus
  {
    if item.Some? then item.value.status else row.status
  }

  /** The row's deadline, else the item's scheduled_for. */
  function EffectiveDeadline(item: Option<PlanItem>, row: ClassRow): Option<DateTime>
  {
    Coalesce(row.deadline, if item.Some? then item.value.scheduledFor else None)
  }

  /** The view of one class row. */
  datatype AssessmentView = AssessmentView(
    id: int,
    kind: Kind,
    planItemId: Option<int>,
    number: int,
    title: Option<string>,
    description: Option<string>,
    topic: Option<string>,
    deadline: Option<DateTime>,
    status: ItemStatus,
    isOverdue: bool,
    studentCount: Option<nat>,
    gradedCount: Option<nat>,
    updatedAt: Option<DateTime>,
    completedAt: Option<DateTime>)

  /**
   * One row of fetchClassAssessments: the linked item's text and status win
   * over the row's, the deadline falls back to the item's schedule, overdue
   * means dated, not covered and past, and the marks counts come from the
   * students' rows of the same number.
   */
  function ViewOf(k: Kind, row: ClassRow, items: seq<PlanItem>, students: seq<StudentRow>, now: DateTime): (v: AssessmentView)
    ensures v.id == row.id && v.kind == k && v.number == row.number && v.completedAt == row.completedAt
    ensures v.planItemId.Some? <==> row.planItemId.Some? && row.planItemId.value != 0
    ensures v.status == EffectiveStatus(JoinedItem(items, row.planItemId), row)
    ensures v.deadline == EffectiveDeadline(JoinedItem(items, row.planItemId), row)
    ensures v.isOverdue <==> v.deadline.Some? && v.status != Covered && v.deadline.value < now
    ensures v.title.Some?
    ensures var item := JoinedItem(items, row.planItemId);
            && v.title == Elvis(if item.Some? then item.value.title else None, Some(row.name))
            && v.description == Elvis(if item.Some? then item.value.description else None, row.description)
            && v.topic == (if item.Some? then item.value.topic else None)
    ensures v.studentCount.Some? <==> exists x :: x in students && InGroup(x, row.classId, row.subjectId, row.number)
    ensures v.studentCount.Some? <==> v.gradedCount.Some?
    ensures v.studentCount.Some? ==> 0 < v.studentCount.value && v.gradedCount.value <= v.studentCount.value
    ensures var g := Group(students, row.classId, row.subjectId, row.number);
            v.studentCount.Some? ==> g != [] && v.studentCount == Some(|g|) && v.gradedCount == Some(GradedCount(g))
                                     && v.updatedAt == Some(LatestUpdate(g))
    ensures var item := JoinedItem(items, row.planItemId);
            v.studentCount.None? ==> v.updatedAt == (if item.Some? then Some(item.value.updatedAt) else None)
  {
    var item := JoinedItem(items, row.planItemId);
    var status := EffectiveStatus(item, row);
    var deadline := EffectiveDeadline(item, row);
    var summary := SummaryFor(students, row.classId, row.subjectId, row.number);
    AssessmentView(
      row.id, k,
      if row.planItemId.Some? && row.planItemId.value != 0 then row.planItemId else None,
      row.number,
      Elvis(if item.Some? then item.value.title else None, Some(row.name)),
      Elvis(if item.Some? then item.value.description else None, row.description),
      if item.Some? then item.value.topic else None,
      deadline, status,
      deadline.Some? && status != Covered && deadline.value < now,
      if summary.Some? then Some(summary.value.studentCount) else None,
      if summary.Some? then Some(summary.value.gradedCount) else None,
      if summary.Some? then Some(summary.value.updatedAt) else if item.Some? then Some(item.value.updatedAt) else None,
      row.completedAt)
  }

  /** A covered assessment is never overdue; an uncovered one whose deadline passed always is. */
  lemma CoveredNeverOverdue(k: Kind, row: ClassRow, items: seq<PlanItem>, students: seq<StudentRow>, now: DateTime)
    ensures var v := ViewOf(k, row, items, students, now);
            (v.status == Covered ==> !v.isOverdue)
            && (v.status != Covered && v.deadline.Some? && v.deadline.value < now ==> v.isOverdue)
  {
  }

  /** `WHERE class_id = ? AND subject_id = ?`. */
  function ScopeRows(rows: seq<ClassRow>, classId: int, subjectId: int): (r: seq<ClassRow>)
    ensures forall x :: x in r <==> x in rows && InScope(x, classId, subjectId)
  {
    if rows == [] then []
    else
      var rest := ScopeRows(rows[1..], classId, subjectId);
      assert rows == [rows[0]] + rows[1..];
      if InScope(rows[0], classId, subjectId) then [rows[0]] + rest else rest
  }

  /** `ORDER BY deadline IS NULL, deadline ASC, number ASC` (the row's own deadline). */
  function RowKey(r: ClassRow): SortKey
  {
    SortKey(if r.deadline.None? then 1 else 0, if r.deadline.Some? then r.deadline.value else 0, r.number)
  }

  /** The scope's rows in the query's order. */
  function OrderedScope(rows: seq<ClassRow>, classId: int, subjectId: int): (r: seq<ClassRow>)
    ensures multiset(r) == multiset(ScopeRows(rows, classId, subjectId))
    ensures SortedBy(r, RowKey)
    ensures forall x :: x in r <==> x in rows && InScope(x, classId, subjectId)
  {
    var s := ScopeRows(rows, classId, subjectId);
    var r := SortBy(s, RowKey);
    assert forall x :: x in r <==> x in multiset(s);
    r
  }

  /** fetchClassAssessments: the view of every row of the scope, in the query's order. */
  function FetchClassAssessments(k: Kind, rows: seq<ClassRow>, items: seq<PlanItem>, students: seq<StudentRow>,
                                 classId: int, subjectId: int, now: DateTime): (r: seq<AssessmentView>)
    ensures |r| == |OrderedScope(rows, classId, subjectId)|
    ensures forall i :: 0 <= i < |r| ==> r[i] == ViewOf(k, OrderedScope(rows, classId, subjectId)[i], items, students, now)
    ensures forall i :: 0 <= i < |r| ==> r[i].kind == k && (exists x :: x in rows && InScope(x, classId, subjectId) && x.id == r[i].id)
  {
    var ordered := OrderedScope(rows, classId, subjectId);
    assert forall i :: 0 <= i < |ordered| ==> ordered[i] in ordered;
    seq(|ordered|, i requires 0 <= i < |ordered| => ViewOf(k, ordered[i], items, students, now))
  }

  // ---------------------------------------------------------------------
  // Saving a class assessment (saveClassAssessment)
  // ---------------------------------------------------------------------

  /** The fields of an assessment request; missing or null fields are None,
      missing `id` and `number` read as 0. */
  datatype AssessmentInput = AssessmentInput(
    classId: int,
    subjectId: int,
    status: Option<string>,
    deadline: Option<string>,
    scheduledAt: Option<string>,
    title: Option<string>,
    description: Option<string>,
    topic: Option<string>,
    planItemId: Option<int>,
    teacherAssignmentId: Option<int>,
    id: int,
    number: int)

  /** status: a valid trimmed name, else scheduled. */
  function AssessmentStatus(raw: Option<string>): (s: ItemStatus)
    ensures raw.Some? && ParseItemStatus(Trim(raw.value)).Some? ==> Some(s) == ParseItemStatus(Trim(raw.value))
    ensures (raw.None? || ParseItemStatus(Trim(raw.value)).None?) ==> s == Scheduled
  {
    if raw.None? then Scheduled
    else match ParseItemStatus(Trim(raw.value)) case Some(s) => s case None => Scheduled
  }

  /** An id that is not positive is no id. */
  function PositiveOrNull(v: Option<int>): (r: Option<int>)
    ensures r.Some? <==> v.Some? && v.value > 0
    ensures r.Some? ==> r == v
  {
    if v.Some? && v.value > 0 then v else None
  }

  /** The stored name: the title, else (assignments) the description or
      "Assignment", (quizzes) the topic, the description or "Quiz". */
  function AssessmentName(k: Kind, title: Option<string>, description: Option<string>, topic: Option<string>): (name: string)
    ensures title.Some? ==> name == title.value
    ensures title.None? && k == AssignmentKind ==> name == (if description.Some? then description.value else "Assignment")
    ensures title.None? && k == QuizKind ==>
              name == (if topic.Some? then topic.value else if description.Some? then description.value else "Quiz")
  {
    Coalesce(title, if k == AssignmentKind then Coalesce(description, Some("Assignment"))
                    else Coalesce(topic, Coalesce(description, Some("Quiz")))).value
  }

  /** What a save writes into the chosen row. */
  datatype AssessmentFields = AssessmentFields(
    name: string,
    description: Option<string>,
    deadline: Option<DateTime>,
    status: ItemStatus,
    planItemId: Option<int>,
    teacherUserId: Option<int>,
    createdBy: Option<int>)

  /** The values a save writes; the topic is only read for quizzes, where it
      also takes the place of the description. */
  function AssessmentFieldsOf(k: Kind, input: AssessmentInput, teacherUserId: Option<int>, requesterId: int,
                              parse: string -> Option<DateTime>): (f: AssessmentFields)
    ensures f.name == AssessmentName(k, CleanText(input.title), CleanText(input.description),
                                     if k == QuizKind then CleanText(input.topic) else None)
    ensures k == AssignmentKind ==> f.description == CleanText(input.description)
    ensures k == QuizKind ==> f.description == Coalesce(CleanText(input.topic), CleanText(input.description))
    ensures f.deadline == NormalizeDateTime(Coalesce(input.deadline, input.scheduledAt), parse)
    ensures f.status == AssessmentStatus(input.status)
    ensures f.planItemId == PositiveOrNull(input.planItemId)
    ensures f.teacherUserId == teacherUserId
    ensures f.createdBy == (if requesterId > 0 then Some(requesterId) else None)
  {
    var title := CleanText(input.title);
    var description := CleanText(input.description);
    var topic := if k == QuizKind then CleanText(input.topic) else None;
    AssessmentFields(
      AssessmentName(k, title, description, topic),
      if k == QuizKind then Coalesce(topic, description) else description,
      NormalizeDateTime(Coalesce(input.deadline, input.scheduledAt), parse),
      AssessmentStatus(input.status),
      PositiveOrNull(input.planItemId),
      teacherUserId,
      PositiveOrNull(Some(requesterId)))
  }

  /** `SELECT ... WHERE id = ? AND class_id = ? AND subject_id = ? LIMIT 1`. */
  function FindInScopeById(rows: seq<ClassRow>, id: int, classId: int, subjectId: int): (i: Option<nat>)
    ensures i.Some? ==> i.value < |rows| && rows[i.value].id == id && InScope(rows[i.value], classId, subjectId)
    ensures i.None? ==> forall x :: x in rows ==> !(x.id == id && InScope(x, classId, subjectId))
  {
    if rows == [] then None
    else if rows[0].id == id && InScope(rows[0], classId, subjectId) then Some(0)
    else match FindInScopeById(rows[1..], id, classId, subjectId)
      case None => None
      case Some(k) => Some(k + 1)
  }

  /** `SELECT ... WHERE class_id = ? AND subject_id = ? AND number = ? LIMIT 1`. */
  function FindByNumber(rows: seq<ClassRow>, classId: int, subjectId: int, number: int): (i: Option<nat>)
    ensures i.Some? ==> i.value < |rows| && rows[i.value].number == number && InScope(rows[i.value], classId, subjectId)
    ensures i.None? ==> forall x :: x in rows ==> !(x.number == number && InScope(x, classId, subjectId))
  {
    if rows == [] then None
    else if rows[0].number == number && InScope(rows[0], classId, subjectId) then Some(0)
    else match FindByNumber(rows[1..], classId, subjectId, number)
      case None => None
      case Some(k) => Some(k + 1)
  }

  /** Where a save lands: an existing row to update, a new row with a number,
      404 for an id not in the scope, or 409 for a taken number. */
  datatype Target = UpdateRow(index: nat) | InsertRow(number: int) | TargetNotFound | TargetConflict

  /**
   * The target choice as the handler makes it: a positive id must name a row
   * of the scope; otherwise a positive number reuses the row holding it;
   * otherwise a row is inserted, with the given number after checking it is
   * free, or with the scope's next number. The free-number check repeats the
   * lookup that just failed, so the conflict answer is never given.
   */
  function ChooseTarget(rows: seq<ClassRow>, classId: int, subjectId: int, id: int, number: int): (t: Target)
    ensures t == TargetNotFound <==> id > 0 && forall x :: x in rows ==> !(x.id == id && InScope(x, classId, subjectId))
    ensures t.UpdateRow? ==> t.index < |rows| && InScope(rows[t.index], classId, subjectId)
    ensures t.UpdateRow? && id > 0 ==> rows[t.index].id == id
    ensures t.UpdateRow? && id <= 0 ==> number > 0 && rows[t.index].number == number
    ensures t.InsertRow? ==> id <= 0 && forall x :: x in rows && InScope(x, classId, subjectId) ==> x.number != t.number
    ensures t.InsertRow? && number > 0 ==> t.number == number
    ensures t.InsertRow? && number <= 0 ==> t.number == NextNumber(rows, classId, subjectId)
    ensures t != TargetConflict
  {
    var n := if number < 0 then 0 else number;
    if id > 0 then
      match FindInScopeById(rows, id, classId, subjectId)
      case None => TargetNotFound
      case Some(i) => UpdateRow(i)
    else if n > 0 && FindByNumber(rows, classId, subjectId, n).Some? then
      UpdateRow(FindByNumber(rows, classId, subjectId, n).value)
    else if n <= 0 then InsertRow(NextNumber(rows, classId, subjectId))
    else if FindByNumber(rows, classId, subjectId, n).Some? then TargetConflict
    else InsertRow(n)
  }

  /** The updated row: name, description, deadline and status rewritten; the
      link and the teacher only when the request supplies them. */
  function UpdatedAssessmentRow(row: ClassRow, f: AssessmentFields): (r: ClassRow)
    ensures r.id == row.id && r.number == row.number && InScope(r, row.classId, row.subjectId)
    ensures r.completedAt == row.completedAt && r.createdBy == row.createdBy
    ensures r.name == f.name && r.description == f.description && r.deadline == f.deadline && r.status == f.status
    ensures r.planItemId == Coalesce(f.planItemId, row.planItemId)
    ensures r.teacherUserId == Coalesce(f.teacherUserId, row.teacherUserId)
  {
    row.(name := f.name, description := f.description, deadline := f.deadline, status := f.status,
         planItemId := Coalesce(f.planItemId, row.planItemId), teacherUserId := Coalesce(f.teacherUserId, row.teacherUserId))
  }

  /** The inserted row (never completed). */
  function NewAssessmentRow(id: int, classId: int, subjectId: int, number: int, f: AssessmentFields): (r: ClassRow)
    ensures r.id == id && r.number == number && InScope(r, classId, subjectId) && r.completedAt.None?
    ensures r.name == f.name && r.description == f.description && r.deadline == f.deadline && r.status == f.status
    ensures r.planItemId == f.planItemId && r.teacherUserId == f.teacherUserId && r.createdBy == f.createdBy
  {
    ClassRow(id, classId, subjectId, f.planItemId, number, f.name, f.description, f.deadline, f.status, None,
             f.teacherUserId, f.createdBy)
  }

  /** The table after a save along the chosen target. */
  function ApplySave(rows: seq<ClassRow>, nextId: int, classId: int, subjectId: int, t: Target, f: AssessmentFields): (r: seq<ClassRow>)
    requires t.UpdateRow? ==> t.index < |rows|
    ensures t.UpdateRow? ==> |r| == |rows| && r[t.index] == UpdatedAssessmentRow(rows[t.index], f)
                             && forall j :: 0 <= j < |rows| && j != t.index ==> r[j] == rows[j]
    ensures t.InsertRow? ==> |r| == |rows| + 1 && r[..|rows|] == rows
                             && r[|rows|] == NewAssessmentRow(nextId, classId, subjectId, t.number, f)
    ensures !t.UpdateRow? && !t.InsertRow? ==> r == rows
  {
    match t
    case UpdateRow(i) => rows[i := UpdatedAssessmentRow(rows[i], f)]
    case InsertRow(n) => rows + [NewAssessmentRow(nextId, classId, subjectId, n, f)]
    case _ => rows
  }

  /** A save keeps numbers unique within each scope and row ids distinct. */
  lemma SaveKeepsInvariants(rows: seq<ClassRow>, nextId: int, classId: int, subjectId: int, id: int, number: int, f: AssessmentFields)
    requires NumbersUnique(rows) && IdsBelow(rows, nextId)
    ensures var t := ChooseTarget(rows, classId, subjectId, id, number);
            var r := ApplySave(rows, nextId, classId, subjectId, t, f);
            NumbersUnique(r) && IdsBelow(r, if t.InsertRow? then nextId + 1 else nextId)
  {
    var t := ChooseTarget(rows, classId, subjectId, id, number);
    var r := ApplySave(rows, nextId, classId, subjectId, t, f);
    if t.UpdateRow? {
      SameKeysKeepInvariants(rows, r, nextId);
    } else if t.InsertRow? {
      AppendKeepsInvariants(rows, nextId, NewAssessmentRow(nextId, classId, subjectId, t.number, f));
    }
  }

  // ---------------------------------------------------------------------
  // Completion (upsertAssessmentCompletion)
  // ---------------------------------------------------------------------

  /** `kind`, trimmed and lower-cased. */
  function CompletionKind(raw: Option<string>): (k: Option<Kind>)
    ensures k == Some(AssignmentKind) <==> raw.Some? && Word(raw.value) == "assignment"
    ensures k == Some(QuizKind) <==> raw.Some? && Word(raw.value) == "quiz"
  {
    if raw.None? then None
    else if Word(raw.value) == "assignment" then Some(AssignmentKind)
    else if Word(raw.value) == "quiz" then Some(QuizKind)
    else None
  }

  /** status: a valid trimmed name, else covered. */
  function CompletionStatus(raw: Option<string>): (s: ItemStatus)
    ensures raw.Some? && ParseItemStatus(Trim(raw.value)).Some? ==> Some(s) == ParseItemStatus(Trim(raw.value))
    ensures (raw.None? || ParseItemStatus(Trim(raw.value)).None?) ==> s == Covered
  {
    if raw.None? then Covered
    else match ParseItemStatus(Trim(raw.value)) case Some(s) => s case None => Covered
  }

  /** completed_at: the given time when it is a truthy string (it may fail to
      parse, giving null), else now. */
  function CompletionTime(raw: Option<string>, parse: string -> Option<DateTime>, now: DateTime): (t: Option<DateTime>)
    ensures raw.None? ==> t == Some(now)
    ensures raw.Some? && !Truthy(Some(Trim(raw.value))) ==> t == Some(now)
    ensures raw.Some? && Truthy(Some(Trim(raw.value))) ==> t == parse(Trim(raw.value))
  {
    var trimmed := if raw.Some? then Some(Trim(raw.value)) else None;
    if Truthy(trimmed) then
      TrimIdempotent(raw.value);
      NormalizeDateTime(trimmed, parse)
    else Some(now)
  }

  /** The rows either completion update reaches. */
  predicate CompletionTarget(r: ClassRow, classId: int, subjectId: int, planItemId: int, number: Option<int>)
  {
    InScope(r, classId, subjectId)
    && ((planItemId > 0 && r.planItemId == Some(planItemId)) || (number.Some? && r.number == number.value))
  }

  /** `UPDATE ... SET status, completed_at WHERE plan_item_id = ? AND class_id = ? AND subject_id = ?`. */
  function CompleteByItem(rows: seq<ClassRow>, classId: int, subjectId: int, planItemId: int,
                          status: ItemStatus, at: Option<DateTime>): (r: seq<ClassRow>)
    ensures |r| == |rows|
  {
    seq(|rows|, k requires 0 <= k < |rows| =>
          if InScope(rows[k], classId, subjectId) && rows[k].planItemId == Some(planItemId)
          then rows[k].(status := status, completedAt := at) else rows[k])
  }

  /** `UPDATE ... SET status, completed_at WHERE number = ? AND class_id = ? AND subject_id = ?`. */
  function CompleteByNumber(rows: seq<ClassRow>, classId: int, subjectId: int, number: int,
                            status: ItemStatus, at: Option<DateTime>): (r: seq<ClassRow>)
    ensures |r| == |rows|
  {
    seq(|rows|, k requires 0 <= k < |rows| =>
          if InScope(rows[k], classId, subjectId) && rows[k].number == number
          then rows[k].(status := status, completedAt := at) else rows[k])
  }

  /**
   * The two updates of the handler in turn (by link when the item id is
   * positive, then by number when one is given): together they complete
   * exactly the rows of the scope that either selects, and touch nothing else.
   */
  function CompleteClassRows(rows: seq<ClassRow>, classId: int, subjectId: int, planItemId: int, number: Option<int>,
                             status: ItemStatus, at: Option<DateTime>): (r: seq<ClassRow>)
    ensures |r| == |rows|
    ensures forall k :: 0 <= k < |rows| && CompletionTarget(rows[k], classId, subjectId, planItemId, number) ==>
              r[k] == rows[k].(status := status, completedAt := at)
    ensures forall k :: 0 <= k < |rows| && !CompletionTarget(rows[k], classId, subjectId, planItemId, number) ==>
              r[k] == rows[k]
    ensures forall k :: 0 <= k < |rows| ==>
              r[k].id == rows[k].id && r[k].number == rows[k].number && InScope(r[k], rows[k].classId, rows[k].subjectId)
  {
    var first := if planItemId > 0 then CompleteByItem(rows, classId, subjectId, planItemId, status, at) else rows;
    assert forall k :: 0 <= k < |rows| ==> first[k].classId == rows[k].classId && first[k].subjectId == rows[k].subjectId
                                           && first[k].number == rows[k].number;
    if number.Some? then CompleteByNumber(first, classId, subjectId, number.value, status, at) else first
  }

  /** Completion keeps numbers unique within each scope and row ids distinct. */
  lemma CompleteKeepsInvariants(rows: seq<ClassRow>, nextId: int, classId: int, subjectId: int, planItemId: int,
                                number: Option<int>, status: ItemStatus, at: Option<DateTime>)
    requires NumbersUnique(rows) && IdsBelow(rows, nextId)
    ensures var r := CompleteClassRows(rows, classId, subjectId, planItemId, number, status, at);
            NumbersUnique(r) && IdsBelow(r, nextId)
  {
    SameKeysKeepInvariants(rows, CompleteClassRows(rows, classId, subjectId, planItemId, number, status, at), nextId);
  }
}
