/**
 * The planner store: the plan, item, session, class-assessment and
 * student-assessment tables, and the handlers that change them.
 *
 * Each handler checks its request in the source's order (bad input, missing
 * rows, authorisation) and answers with an `Error` before touching anything;
 * on success it runs the same sequence of table writes as the source, each
 * specified by the functions of the other modules.
 */
module Planner {
  import opened Common
  import opened Enums
  import opened Rows
  import opened Authorization
  import opened Sessions
  import opened Numbering
  import opened Mirror
  import opened Items
  import opened Plans
  import opened Coverage

  /** What lies outside the tables: the clock, the date parsers, the
      teacher-assignment directory and each class's student roster. */
  datatype Env = Env(
    now: DateTime,
    parseDateTime: string -> Option<DateTime>,
    parseDate: string -> Option<Date>,
    directory: seq<TeacherAssignment>,
    roster: int -> seq<int>)

  /** Readers of plans and coverage: managers, and students, parents and guardians. */
  predicate MayRead(req: Requester, classId: int, subjectId: int, dir: seq<TeacherAssignment>)
  {
    var manage := CanManagePlanner(req, classId, subjectId, dir);
    manage || CanViewOnly(req, manage)
  }

  /** Plan ids are positive, below the counter, and no two plans share one. */
  ghost predicate PlansValid(plans: seq<Plan>, nextId: int)
  {
    0 < nextId
    && (forall p :: p in plans ==> 0 < p.id < nextId)
    && (forall p, q :: p in plans && q in plans && p.id == q.id ==> p == q)
  }

  /** Item ids are positive, below the counter, and no two items share one;
      only a deferred item has a deferral date. */
  ghost predicate ItemsValid(items: seq<PlanItem>, nextId: int)
  {
    0 < nextId
    && (forall x :: x in items ==> 0 < x.id < nextId)
    && (forall x, y :: x in items && y in items && x.id == y.id ==> x == y)
    && (forall x :: x in items && x.status != Deferred ==> x.deferredTo.None?)
  }

  /** The first item with the id. */
  function FindItem(items: seq<PlanItem>, id: int): (r: Option<PlanItem>)
    ensures r.Some? ==> r.value in items && r.value.id == id
    ensures r.None? ==> forall it :: it in items ==> it.id != id
  {
    if items == [] then None
    else if items[0].id == id then Some(items[0])
    else FindItem(items[1..], id)
  }

  /** fetchPlannerPlanItem: the item joined to its plan; an item whose plan is gone is not found. */
  function FetchPlannerPlanItem(items: seq<PlanItem>, plans: seq<Plan>, id: int): (r: Option<(PlanItem, Plan)>)
    ensures r.Some? ==> r.value.0 in items && r.value.0.id == id && r.value.1 in plans && r.value.1.id == r.value.0.planId
    ensures r.None? <==> FindItem(items, id).None? || FindPlan(plans, FindItem(items, id).value.planId).None?
  {
    match FindItem(items, id)
    case None => None
    case Some(it) =>
      match FindPlan(plans, it.planId)
      case None => None
      case Some(p) => Some((it, p))
  }

  /** `UPDATE ... WHERE id = ?` on the items table. */
  function ReplaceItem(items: seq<PlanItem>, it: PlanItem): (r: seq<PlanItem>)
    ensures |r| == |items|
    ensures forall k :: 0 <= k < |items| && items[k].id == it.id ==> r[k] == it
    ensures forall k :: 0 <= k < |items| && items[k].id != it.id ==> r[k] == items[k]
    ensures forall x :: x in r ==> x == it || (x in items && x.id != it.id)
  {
    var r := seq(|items|, k requires 0 <= k < |items| => if items[k].id == it.id then it else items[k]);
    assert forall x :: x in r ==> exists k :: 0 <= k < |items| && r[k] == x;
    r
  }

  /** `DELETE ... WHERE id = ?` on the items table. */
  function RemoveItem(items: seq<PlanItem>, id: int): (r: seq<PlanItem>)
    ensures forall x :: x in r <==> x in items && x.id != id
    ensures |r| <= |items|
  {
    if items == [] then []
    else
      var rest := RemoveItem(items[1..], id);
      assert items == [items[0]] + items[1..];
      if items[0].id != id then [items[0]] + rest else rest
  }

  /** Rewriting an item in place keeps the item invariant when the new row obeys the deferral rule. */
  lemma ReplaceItemValid(items: seq<PlanItem>, nextId: int, it: PlanItem)
    requires ItemsValid(items, nextId)
    requires 0 < it.id < nextId
    requires it.status != Deferred ==> it.deferredTo.None?
    ensures ItemsValid(ReplaceItem(items, it), nextId)
  {
  }

  /** Appending an item with the next id keeps the item invariant when the new row obeys the deferral rule. */
  lemma AppendItemValid(items: seq<PlanItem>, nextId: int, it: PlanItem)
    requires ItemsValid(items, nextId)
    requires it.id == nextId
    requires it.status != Deferred ==> it.deferredTo.None?
    ensures ItemsValid(items + [it], nextId + 1)
  {
  }

  /** Rewriting a stored plan in place keeps the plan invariant. */
  lemma ReplacePlanValid(plans: seq<Plan>, nextId: int, p: Plan)
    requires PlansValid(plans, nextId)
    requires 0 < p.id < nextId
    ensures PlansValid(ReplacePlan(plans, p), nextId)
  {
  }

  /** Appending a plan with the next id keeps the plan invariant. */
  lemma AppendPlanValid(plans: seq<Plan>, nextId: int, p: Plan)
    requires PlansValid(plans, nextId)
    requires p.id == nextId
    ensures PlansValid(plans + [p], nextId + 1)
  {
  }

  /** `UPDATE ... WHERE id = ?` on the plans table. */
  function ReplacePlan(plans: seq<Plan>, p: Plan): (r: seq<Plan>)
    ensures |r| == |plans|
    ensures forall k :: 0 <= k < |plans| && plans[k].id == p.id ==> r[k] == p
    ensures forall k :: 0 <= k < |plans| && plans[k].id != p.id ==> r[k] == plans[k]
    ensures forall x :: x in r ==> x == p || (x in plans && x.id != p.id)
  {
    var r := seq(|plans|, k requires 0 <= k < |plans| => if plans[k].id == p.id then p else plans[k]);
    assert forall x :: x in r ==> exists k :: 0 <= k < |plans| && r[k] == x;
    r
  }

  /** Where savePlannerItem writes: the stored item (None on insert) and its
      plan, or the 400 / 404 it answers first. */
  function ItemSaveTarget(items: seq<PlanItem>, plans: seq<Plan>, input: ItemInput): (r: Result<(Option<PlanItem>, Plan)>)
    ensures input.planId <= 0 && input.id <= 0 ==> r == Err(BadRequest)
    ensures input.id > 0 && FetchPlannerPlanItem(items, plans, input.id).None? ==> r == Err(NotFound)
    ensures input.id <= 0 && input.planId > 0 && FindPlan(plans, input.planId).None? ==> r == Err(NotFound)
    ensures r.Ok? && input.id > 0 ==> r.value.0 == Some(FetchPlannerPlanItem(items, plans, input.id).value.0)
    ensures r.Ok? && input.id <= 0 ==> r.value.0.None? && r.value.1.id == input.planId
    ensures r.Ok? ==> r.value.1 in plans
    ensures r.Ok? && r.value.0.Some? ==> r.value.0.value in items && r.value.0.value.planId == r.value.1.id
  {
    if input.planId <= 0 && input.id <= 0 then Err(BadRequest)
    else if input.id > 0 then
      match FetchPlannerPlanItem(items, plans, input.id)
      case None => Err(NotFound)
      case Some(found) =>
        // the plan is fetched again by the item's plan_id
        match FindPlan(plans, found.0.planId)
        case None => Err(NotFound)
        case Some(p) => Ok((Some(found.0), p))
    else
      match FindPlan(plans, input.planId)
      case None => Err(NotFound)
      case Some(p) => Ok((None, p))
  }

  /** updatePlannerItemStatus's decision: 400 for a bad id or an empty
      status, 404 for an unknown item, 403 for a non-manager, the status
      update's own 400s, else the rewritten item. */
  function StatusUpdateResult(items: seq<PlanItem>, plans: seq<Plan>, req: Requester, input: StatusInput, env: Env)
    : (r: Result<PlanItem>)
    ensures input.id <= 0 || StatusWord(input) == "" ==> r == Err(BadRequest)
    ensures var found := FetchPlannerPlanItem(items, plans, input.id);
            input.id > 0 && StatusWord(input) != "" ==>
              && (found.None? ==> r == Err(NotFound))
              && (found.Some? && !CanManagePlanner(req, found.value.1.classId, found.value.1.subjectId, env.directory) ==>
                    r == Err(Forbidden))
              && (found.Some? && CanManagePlanner(req, found.value.1.classId, found.value.1.subjectId, env.directory) ==>
                    r == ApplyStatusUpdate(found.value.0, input, env.parseDateTime, env.now))
    ensures r.Ok? ==> r.value.id == input.id && FindItem(items, input.id).Some?
    ensures r.Ok? ==> (r.value.status == Deferred <==> r.value.deferredTo.Some?)
  {
    if input.id <= 0 || StatusWord(input) == "" then Err(BadRequest)
    else match FetchPlannerPlanItem(items, plans, input.id)
      case None => Err(NotFound)
      case Some(found) =>
        if !CanManagePlanner(req, found.1.classId, found.1.subjectId, env.directory) then Err(Forbidden)
        else ApplyStatusUpdate(found.0, input, env.parseDateTime, env.now)
  }

  /** deletePlannerItem's decision: 400 for a bad id, 404 for an unknown
      item, 403 for a non-manager, else the id to delete. */
  function DeleteResult(items: seq<PlanItem>, plans: seq<Plan>, req: Requester, itemId: int, dir: seq<TeacherAssignment>)
    : (r: Result<int>)
    ensures itemId <= 0 ==> r == Err(BadRequest)
    ensures var found := FetchPlannerPlanItem(items, plans, itemId);
            itemId > 0 ==>
              && (found.None? ==> r == Err(NotFound))
              && (found.Some? && !CanManagePlanner(req, found.value.1.classId, found.value.1.subjectId, dir) ==> r == Err(Forbidden))
              && (found.Some? && CanManagePlanner(req, found.value.1.classId, found.value.1.subjectId, dir) ==> r == Ok(itemId))
  {
    if itemId <= 0 then Err(BadRequest)
    else match FetchPlannerPlanItem(items, plans, itemId)
      case None => Err(NotFound)
      case Some(found) =>
        if !CanManagePlanner(req, found.1.classId, found.1.subjectId, dir) then Err(Forbidden) else Ok(itemId)
  }

  /** savePlannerPlan's decision: 400 for a non-positive class or subject,
      403 for a non-manager, 404 for a plan id not found in that class and
      subject; else the plan to update (None: insert a new one). */
  function PlanSaveTarget(plans: seq<Plan>, req: Requester, input: PlanInput, dir: seq<TeacherAssignment>)
    : (r: Result<Option<Plan>>)
    ensures input.classId <= 0 || input.subjectId <= 0 ==> r == Err(BadRequest)
    ensures input.classId > 0 && input.subjectId > 0 && !CanManagePlanner(req, input.classId, input.subjectId, dir) ==>
              r == Err(Forbidden)
    ensures var existing := FindPlan(plans, input.planId);
            input.classId > 0 && input.subjectId > 0 && CanManagePlanner(req, input.classId, input.subjectId, dir) ==>
              && ((input.planId > 0 && (existing.None? || existing.value.classId != input.classId
                                        || existing.value.subjectId != input.subjectId)) ==> r == Err(NotFound))
              && ((input.planId > 0 && existing.Some? && existing.value.classId == input.classId
                   && existing.value.subjectId == input.subjectId) ==> r == Ok(existing))
              && (input.planId <= 0 ==> r == Ok(None))
    ensures r.Ok? && r.value.Some? ==> r.value.value in plans && r.value.value.id == input.planId
  {
    if input.classId <= 0 || input.subjectId <= 0 then Err(BadRequest)
    else if !CanManagePlanner(req, input.classId, input.subjectId, dir) then Err(Forbidden)
    else if input.planId <= 0 then Ok(None)
    else match FindPlan(plans, input.planId)
      case None => Err(NotFound)
      case Some(p) => if p.classId != input.classId || p.subjectId != input.subjectId then Err(NotFound) else Ok(Some(p))
  }

  /** saveClassAssessment's decision for one kind: 400 for a non-positive
      class or subject, 403 for a non-manager, 400 for a teacher assignment
      that does not resolve, 404 for an id not in the scope; else where the
      save lands and the column values it writes. */
  function AssessmentSaveDecision(k: Kind, rows: seq<ClassRow>, req: Requester, input: AssessmentInput, env: Env)
    : (r: Result<(Target, AssessmentFields)>)
    ensures input.classId <= 0 || input.subjectId <= 0 ==> r == Err(BadRequest)
    ensures input.classId > 0 && input.subjectId > 0 && !CanManagePlanner(req, input.classId, input.subjectId, env.directory) ==>
              r == Err(Forbidden)
    ensures var aid := PositiveOrNull(input.teacherAssignmentId);
            var teacher := ResolveAssignmentTeacher(env.directory, aid);
            var t := ChooseTarget(rows, input.classId, input.subjectId, input.id, input.number);
            input.classId > 0 && input.subjectId > 0 && CanManagePlanner(req, input.classId, input.subjectId, env.directory) ==>
              && (aid.Some? && teacher.None? ==> r == Err(BadRequest))
              && (!(aid.Some? && teacher.None?) && t == TargetNotFound ==> r == Err(NotFound))
              && (!(aid.Some? && teacher.None?) && t != TargetNotFound ==>
                    r == Ok((t, AssessmentFieldsOf(k, input, teacher, req.id, env.parseDateTime))))
    ensures r.Ok? ==> r.value.0 == ChooseTarget(rows, input.classId, input.subjectId, input.id, input.number)
                      && (r.value.0.UpdateRow? || r.value.0.InsertRow?)
  {
    if input.classId <= 0 || input.subjectId <= 0 then Err(BadRequest)
    else if !CanManagePlanner(req, input.classId, input.subjectId, env.directory) then Err(Forbidden)
    else
      var aid := PositiveOrNull(input.teacherAssignmentId);
      var teacher := ResolveAssignmentTeacher(env.directory, aid);
      if aid.Some? && teacher.None? then Err(BadRequest)
      else
        var t := ChooseTarget(rows, input.classId, input.subjectId, input.id, input.number);
        if t == TargetNotFound then Err(NotFound)
        else if t == TargetConflict then Err(Conflict)
        else Ok((t, AssessmentFieldsOf(k, input, teacher, req.id, env.parseDateTime)))
  }

  /** The answer of a save: the row's id and number, and whether it was inserted. */
  function SavedOf(rows: seq<ClassRow>, nextId: int, t: Target): (s: Saved)
    requires t.UpdateRow? || t.InsertRow?
    requires t.UpdateRow? ==> t.index < |rows|
    ensures t.UpdateRow? ==> s == Saved(rows[t.index].id, rows[t.index].number, false)
    ensures t.InsertRow? ==> s == Saved(nextId, t.number, true)
  {
    if t.UpdateRow? then Saved(rows[t.index].id, rows[t.index].number, false) else Saved(nextId, t.number, true)
  }

  datatype PlannerData = PlannerData(plan: Option<Plan>, items: seq<ItemView>)
  datatype Saved = Saved(id: int, number: int, created: bool)
  datatype Completion = Completion(status: ItemStatus, completedAt: Option<DateTime>)
  datatype CompletionInput = CompletionInput(
    kind: Option<string>,
    classId: int,
    subjectId: int,
    planItemId: int,
    number: Option<int>,
    status: Option<string>,
    completedAt: Option<string>)

  /** The class-assessment and student-assessment tables with their id counters. */
  datatype AssessmentTables = AssessmentTables(
    classAssignments: seq<ClassRow>,
    nextAssignmentId: int,
    classQuizzes: seq<ClassRow>,
    nextQuizId: int,
    studentAssignments: seq<StudentRow>,
    studentQuizzes: seq<StudentRow>)
  {
    function ClassRowsOf(k: Kind): seq<ClassRow>
    {
      if k == AssignmentKind then classAssignments else classQuizzes
    }

    function StudentRowsOf(k: Kind): seq<StudentRow>
    {
      if k == AssignmentKind then studentAssignments else studentQuizzes
    }
  }

  /**
   * What upsertAssessmentCompletion does to the tables of kind `k`: the class
   * rows linked to the item, then those holding the number, take the status
   * and completion time; with a number, the students' rows of that number
   * take the status too. The counters and the other kind stay as they were.
   */
  function CompleteTables(t: AssessmentTables, k: Kind, classId: int, subjectId: int, planItemId: int, number: Option<int>,
                          status: ItemStatus, at: Option<DateTime>): (r: AssessmentTables)
    ensures r.ClassRowsOf(k) == CompleteClassRows(t.ClassRowsOf(k), classId, subjectId, planItemId, number, status, at)
    ensures number.Some? ==> r.StudentRowsOf(k) == CompleteStudentRows(t.StudentRowsOf(k), classId, subjectId, number.value, status, at)
    ensures number.None? ==> r.StudentRowsOf(k) == t.StudentRowsOf(k)
    ensures r.ClassRowsOf(OtherKind(k)) == t.ClassRowsOf(OtherKind(k)) && r.StudentRowsOf(OtherKind(k)) == t.StudentRowsOf(OtherKind(k))
    ensures r.nextAssignmentId == t.nextAssignmentId && r.nextQuizId == t.nextQuizId
  {
    var cr := CompleteClassRows(t.ClassRowsOf(k), classId, subjectId, planItemId, number, status, at);
    var sr := if number.Some? then CompleteStudentRows(t.StudentRowsOf(k), classId, subjectId, number.value, status, at)
              else t.StudentRowsOf(k);
    if k == AssignmentKind then t.(classAssignments := cr, studentAssignments := sr)
    else t.(classQuizzes := cr, studentQuizzes := sr)
  }

  /** The validated completion request: its kind, status and completion time. */
  datatype CompletionRequest = CompletionRequest(kind: Kind, status: ItemStatus, completedAt: Option<DateTime>)

  /** upsertAssessmentCompletion's checks: 400 for an unknown kind or a
      non-positive class or subject, 403 for a requester who may not manage. */
  function CheckCompletion(req: Requester, input: CompletionInput, env: Env): (r: Result<CompletionRequest>)
    ensures CompletionKind(input.kind).None? || input.classId <= 0 || input.subjectId <= 0 ==> r == Err(BadRequest)
    ensures (CompletionKind(input.kind).Some? && input.classId > 0 && input.subjectId > 0
             && !CanManagePlanner(req, input.classId, input.subjectId, env.directory)) ==> r == Err(Forbidden)
    ensures r.Ok? ==> CanManagePlanner(req, input.classId, input.subjectId, env.directory)
                      && Some(r.value.kind) == CompletionKind(input.kind)
                      && r.value.status == CompletionStatus(input.status)
                      && r.value.completedAt == CompletionTime(input.completedAt, env.parseDateTime, env.now)
  {
    var kind := CompletionKind(input.kind);
    if kind.None? || input.classId <= 0 || input.subjectId <= 0 then Err(BadRequest)
    else if !CanManagePlanner(req, input.classId, input.subjectId, env.directory) then Err(Forbidden)
    else Ok(CompletionRequest(kind.value, CompletionStatus(input.status), CompletionTime(input.completedAt, env.parseDateTime, env.now)))
  }

  /**
   * What savePlannerItem does to the assessment tables once the item `id` is
   * written: the class row of the item's own type is upserted, every student
   * row linked to the item takes its status, and the student table of its
   * type is re-mirrored with the class row's number (the other type, which
   * has no number, is left as coverage made it).
   */
  function ItemAssessmentWrites(t: AssessmentTables, plan: Plan, f: ItemFields, id: int, roster: seq<int>, now: DateTime)
    : AssessmentTables
  {
    var ua := UpsertForPlanItem(AssignmentKind, t.classAssignments, t.nextAssignmentId, plan.classId, plan.subjectId,
                                id, f.title, f.description, f.scheduledFor, f.status);
    var uq := UpsertForPlanItem(QuizKind, t.classQuizzes, t.nextQuizId, plan.classId, plan.subjectId,
                                id, f.title, f.topic, f.scheduledFor, f.status);
    var assignmentNumber := if f.itemType == Assignment then ua.number else None;
    var quizNumber := if f.itemType == Quiz then uq.number else None;
    AssessmentTables(
      if f.itemType == Assignment then ua.rows else t.classAssignments,
      if f.itemType == Assignment then ua.nextId else t.nextAssignmentId,
      if f.itemType == Quiz then uq.rows else t.classQuizzes,
      if f.itemType == Quiz then uq.nextId else t.nextQuizId,
      SyncMirror(SetCoverage(t.studentAssignments, id, Some(f.status)),
                 MirrorSource(plan.classId, plan.subjectId, id, assignmentNumber, f.title, f.description, f.scheduledFor, f.status),
                 roster, now),
      SyncMirror(SetCoverage(t.studentQuizzes, id, Some(f.status)),
                 MirrorSource(plan.classId, plan.subjectId, id, quizNumber, f.title, f.topic, f.scheduledFor, f.status),
                 roster, now))
  }

  class PlannerStore {
    var plans: seq<Plan>
    var items: seq<PlanItem>
    var sessions: seq<SessionRow>
    var classAssignments: seq<ClassRow>
    var classQuizzes: seq<ClassRow>
    var studentAssignments: seq<StudentRow>
    var studentQuizzes: seq<StudentRow>
    var nextPlanId: int
    var nextItemId: int
    var nextAssignmentId: int
    var nextQuizId: int

    ghost predicate Valid()
      reads this`plans, this`nextPlanId, this`items, this`nextItemId, this`sessions,
            this`classAssignments, this`nextAssignmentId, this`classQuizzes, this`nextQuizId
    {
      && PlansValid(plans, nextPlanId)
      && ItemsValid(items, nextItemId)
      && Unique(sessions)
      && NumbersUnique(classAssignments) && IdsBelow(classAssignments, nextAssignmentId)
      && NumbersUnique(classQuizzes) && IdsBelow(classQuizzes, nextQuizId)
    }

    constructor()
      ensures Valid()
      ensures plans == [] && items == [] && sessions == [] && classAssignments == [] && classQuizzes == []
      ensures studentAssignments == [] && studentQuizzes == []
    {
      plans := [];
      items := [];
      sessions := [];
      classAssignments := [];
      classQuizzes := [];
      studentAssignments := [];
      studentQuizzes := [];
      nextPlanId := 1;
      nextItemId := 1;
      nextAssignmentId := 1;
      nextQuizId := 1;
    }

    function ClassRows(k: Kind): seq<ClassRow>
      reads this
    {
      if k == AssignmentKind then classAssignments else classQuizzes
    }

    function NextClassId(k: Kind): int
      reads this
    {
      if k == AssignmentKind then nextAssignmentId else nextQuizId
    }

    function StudentRows(k: Kind): seq<StudentRow>
      reads this
    {
      if k == AssignmentKind then studentAssignments else studentQuizzes
    }

    /** Writes one kind's class table and counter. */
    method StoreClassRows(k: Kind, rows: seq<ClassRow>, nextId: int)
      requires Valid() && NumbersUnique(rows) && IdsBelow(rows, nextId)
      modifies this`classAssignments, this`classQuizzes, this`nextAssignmentId, this`nextQuizId
      ensures Valid()
      ensures ClassRows(k) == rows && NextClassId(k) == nextId
      ensures ClassRows(OtherKind(k)) == old(ClassRows(OtherKind(k))) && NextClassId(OtherKind(k)) == old(NextClassId(OtherKind(k)))
    {
      if k == AssignmentKind {
        classAssignments, nextAssignmentId := rows, nextId;
      } else {
        classQuizzes, nextQuizId := rows, nextId;
      }
    }

    /** Writes one kind's student table. */
    method StoreStudentRows(k: Kind, rows: seq<StudentRow>)
      modifies this`studentAssignments, this`studentQuizzes
      ensures old(Valid()) ==> Valid()
      ensures StudentRows(k) == rows && StudentRows(OtherKind(k)) == old(StudentRows(OtherKind(k)))
    {
      if k == AssignmentKind {
        studentAssignments := rows;
      } else {
        studentQuizzes := rows;
      }
    }

    // -------------------------------------------------------------------
    // Plan items
    // -------------------------------------------------------------------

    /** autoAdvancePlannerStatuses. */
    method AutoAdvancePlannerStatuses(planId: int, now: DateTime)
      requires Valid()
      modifies this`items
      ensures items == Sweep(old(items), planId, now)
      ensures Valid()
    {
      items := Sweep(items, planId, now);
    }

    /** upsertPlannerSessions: the loop upserts each input with a usable date,
        remembering the date, then the item's other sessions are deleted. */
    method UpsertPlannerSessions(itemId: int, inputs: seq<SessionInput>, parse: string -> Option<Date>)
      requires Unique(sessions)
      modifies this`sessions
      ensures Unique(old(sessions)) && sessions == SyncSessions(old(sessions), itemId, CleanSessions(itemId, inputs, parse))
      ensures Unique(sessions)
    {
      var processedDates: seq<Date> := [];
      ghost var processed: seq<SessionRow> := [];
      var i := 0;
      while i < |inputs|
        invariant 0 <= i <= |inputs|
        invariant Unique(old(sessions))
        invariant processed == CleanSessions(itemId, inputs[..i], parse)
        invariant sessions == UpsertAll(old(sessions), processed)
        invariant processedDates == DatesOf(processed)
      {
        var cleaned := CleanSession(itemId, inputs[i], parse);
        if cleaned.None? {
          CleanSessionsSkip(itemId, inputs, i, parse);
        } else {
          var row := cleaned.value;
          CleanSessionsTake(itemId, inputs, i, parse, row);
          UpsertAllStep(old(sessions), processed, row);
          sessions := UpsertSession(sessions, row);
          DatesOfAppend(processed, row);
          processed := processed + [row];
          processedDates := processedDates + [row.date];
        }
        i := i + 1;
      }
      assert inputs[..|inputs|] == inputs;
      // with no processed date this deletes every session of the item
      sessions := Prune(sessions, itemId, processedDates);
      PruneUnique(UpsertAll(old(sessions), processed), itemId, processedDates);
    }

    /** upsertClassAssignmentForPlanItem / upsertClassQuizForPlanItem. */
    method UpsertClassRowForPlanItem(k: Kind, plan: Plan, itemId: int, title: Option<string>, text: Option<string>,
                                     deadline: Option<DateTime>, status: ItemStatus)
      returns (number: Option<int>, rowId: Option<int>)
      requires Valid()
      modifies this`classAssignments, this`classQuizzes, this`nextAssignmentId, this`nextQuizId
      ensures var u := UpsertForPlanItem(k, old(ClassRows(k)), old(NextClassId(k)), plan.classId, plan.subjectId, itemId,
                                         title, text, deadline, status);
              ClassRows(k) == u.rows && NextClassId(k) == u.nextId && number == u.number && rowId == u.rowId
      ensures ClassRows(OtherKind(k)) == old(ClassRows(OtherKind(k))) && NextClassId(OtherKind(k)) == old(NextClassId(OtherKind(k)))
      ensures Valid()
    {
      ghost var u := UpsertForPlanItem(k, ClassRows(k), NextClassId(k), plan.classId, plan.subjectId, itemId, title, text, deadline, status);
      UpsertKeepsInvariants(k, ClassRows(k), NextClassId(k), plan.classId, plan.subjectId, itemId, title, text, deadline, status);
      if plan.classId <= 0 || plan.subjectId <= 0 || itemId <= 0 {
        return None, None;
      }
      var rows := ClassRows(k);
      var nextId := NextClassId(k);
      var name := RowName(k, title, text);
      var linked := FindLinked(rows, itemId);
      if linked.Some? {
        var i := linked.value;
        number, rowId := Some(rows[i].number), Some(rows[i].id);
        rows := rows[i := rows[i].(name := name, description := Elvis(text, None), deadline := deadline, status := status)];
      } else {
        var n := NextNumber(rows, plan.classId, plan.subjectId);
        rows := rows + [ClassRow(nextId, plan.classId, plan.subjectId, Some(itemId), n, name, Elvis(text, None), deadline, status, None, None, None)];
        number, rowId := Some(n), Some(nextId);
        nextId := nextId + 1;
      }
      assert rows == u.rows && nextId == u.nextId;
      StoreClassRows(k, rows, nextId);
    }

    /** syncLinkedAssessmentCoverage. */
    method SyncLinkedAssessmentCoverage(itemId: int, status: Option<ItemStatus>)
      modifies this`studentAssignments, this`studentQuizzes
      ensures studentAssignments == SetCoverage(old(studentAssignments), itemId, status)
      ensures studentQuizzes == SetCoverage(old(studentQuizzes), itemId, status)
    {
      if status.None? {
        return;
      }
      studentAssignments := SetCoverage(studentAssignments, itemId, status);
      studentQuizzes := SetCoverage(studentQuizzes, itemId, status);
    }

    /** One kind's mirror: delete the item's rows, then insert one per student. */
    method ReplaceMirrors(k: Kind, m: MirrorSource, roster: seq<int>, now: DateTime)
      requires MirrorApplies(m, roster)
      modifies this`studentAssignments, this`studentQuizzes
      ensures StudentRows(k) == SyncMirror(old(StudentRows(k)), m, roster, now)
      ensures StudentRows(OtherKind(k)) == old(StudentRows(OtherKind(k)))
    {
      StoreStudentRows(k, Unlinked(StudentRows(k), m.itemId));
      var i := 0;
      while i < |roster|
        invariant 0 <= i <= |roster|
        invariant StudentRows(k) == Unlinked(old(StudentRows(k)), m.itemId) + MirrorRows(m, roster[..i], now)
        invariant StudentRows(OtherKind(k)) == old(StudentRows(OtherKind(k)))
      {
        assert roster[..i + 1][..i] == roster[..i];
        StoreStudentRows(k, StudentRows(k) + [MirrorRow(m, roster[i], now)]);
        i := i + 1;
      }
      assert roster[..|roster|] == roster;
    }

    /** syncPlannerItemToStudentTables: only the table of the item's type is
        mirrored, and only with valid ids, a non-empty roster and a number. */
    method SyncPlannerItemToStudentTables(plan: Plan, itemId: int, itemType: ItemType, title: Option<string>,
                                          topic: Option<string>, description: Option<string>,
                                          scheduledFor: Option<DateTime>, status: ItemStatus,
                                          assignmentNumber: Option<int>, quizNumber: Option<int>,
                                          roster: seq<int>, now: DateTime)
      modifies this`studentAssignments, this`studentQuizzes
      ensures studentAssignments ==
                if itemType == Assignment
                then SyncMirror(old(studentAssignments),
                                MirrorSource(plan.classId, plan.subjectId, itemId, assignmentNumber, title, description, scheduledFor, status),
                                roster, now)
                else old(studentAssignments)
      ensures studentQuizzes ==
                if itemType == Quiz
                then SyncMirror(old(studentQuizzes),
                                MirrorSource(plan.classId, plan.subjectId, itemId, quizNumber, title, topic, scheduledFor, status),
                                roster, now)
                else old(studentQuizzes)
    {
      if plan.classId <= 0 || plan.subjectId <= 0 || itemId <= 0 {
        return;
      }
      if roster == [] {
        return;
      }
      if itemType == Assignment {
        if assignmentNumber.None? {
          return;
        }
        ReplaceMirrors(AssignmentKind,
                       MirrorSource(plan.classId, plan.subjectId, itemId, assignmentNumber, title, description, scheduledFor, status),
                       roster, now);
      } else if itemType == Quiz {
        if quizNumber.None? {
          return;
        }
        ReplaceMirrors(QuizKind,
                       MirrorSource(plan.classId, plan.subjectId, itemId, quizNumber, title, topic, scheduledFor, status),
                       roster, now);
      }
    }

    /** The writes of a successful savePlannerItem, from the old state to the new. */
    twostate predicate SavedItem(plan: Plan, existing: Option<PlanItem>, f: ItemFields, sessionInputs: seq<SessionInput>,
                                 env: Env, id: int)
      reads this
    {
      && (existing.Some? ==>
            id == existing.value.id && items == ReplaceItem(old(items), UpdatedItem(existing.value, f, env.now))
            && nextItemId == old(nextItemId))
      && (existing.None? ==>
            id == old(nextItemId) && items == old(items) + [NewItem(id, plan.id, f, env.now)]
            && nextItemId == old(nextItemId) + 1)
      && Unique(old(sessions))
      && sessions == SyncSessions(old(sessions), id, CleanSessions(id, sessionInputs, env.parseDate))
      && Tables() == ItemAssessmentWrites(old(Tables()), plan, f, id, env.roster(plan.classId), env.now)
    }

    /** The class and student tables, as one value. */
    function Tables(): AssessmentTables
      reads this`classAssignments, this`nextAssignmentId, this`classQuizzes, this`nextQuizId,
            this`studentAssignments, this`studentQuizzes
    {
      AssessmentTables(classAssignments, nextAssignmentId, classQuizzes, nextQuizId, studentAssignments, studentQuizzes)
    }

    /** The item row savePlannerItem writes: the stored one updated, or a new one. */
    method WritePlanItem(planId: int, existing: Option<PlanItem>, f: ItemFields, now: DateTime) returns (id: int)
      requires Valid()
      requires existing.Some? ==> existing.value in items
      requires f.status != Deferred ==> f.deferredTo.None?
      modifies this`items, this`nextItemId
      ensures Valid()
      ensures existing.Some? ==> id == existing.value.id && items == ReplaceItem(old(items), UpdatedItem(existing.value, f, now))
                                 && nextItemId == old(nextItemId)
      ensures existing.None? ==> id == old(nextItemId) && items == old(items) + [NewItem(id, planId, f, now)]
                                 && nextItemId == old(nextItemId) + 1
    {
      if existing.Some? {
        id := existing.value.id;
        ReplaceItemValid(items, nextItemId, UpdatedItem(existing.value, f, now));
        items := ReplaceItem(items, UpdatedItem(existing.value, f, now));
      } else {
        id := nextItemId;
        AppendItemValid(items, nextItemId, NewItem(id, planId, f, now));
        items := items + [NewItem(id, planId, f, now)];
        nextItemId := nextItemId + 1;
      }
    }

    /** The class row of a saved item: only the table of its own type is written. */
    method WriteItemClassRows(plan: Plan, id: int, f: ItemFields) returns (assignmentNumber: Option<int>, quizNumber: Option<int>)
      requires Valid()
      modifies this`classAssignments, this`classQuizzes, this`nextAssignmentId, this`nextQuizId
      ensures Valid()
      ensures var ua := UpsertForPlanItem(AssignmentKind, old(classAssignments), old(nextAssignmentId), plan.classId, plan.subjectId,
                                          id, f.title, f.description, f.scheduledFor, f.status);
              && assignmentNumber == (if f.itemType == Assignment then ua.number else None)
              && (if f.itemType == Assignment then classAssignments == ua.rows && nextAssignmentId == ua.nextId
                  else classAssignments == old(classAssignments) && nextAssignmentId == old(nextAssignmentId))
      ensures var uq := UpsertForPlanItem(QuizKind, old(classQuizzes), old(nextQuizId), plan.classId, plan.subjectId,
                                          id, f.title, f.topic, f.scheduledFor, f.status);
              && quizNumber == (if f.itemType == Quiz then uq.number else None)
              && (if f.itemType == Quiz then classQuizzes == uq.rows && nextQuizId == uq.nextId
                  else classQuizzes == old(classQuizzes) && nextQuizId == old(nextQuizId))
    {
      assignmentNumber, quizNumber := None, None;
      if f.itemType == Assignment {
        var rowId;
        assignmentNumber, rowId := UpsertClassRowForPlanItem(AssignmentKind, plan, id, f.title, f.description, f.scheduledFor, f.status);
      } else if f.itemType == Quiz {
        var rowId;
        quizNumber, rowId := UpsertClassRowForPlanItem(QuizKind, plan, id, f.title, f.topic, f.scheduledFor, f.status);
      }
    }

    /** The write sequence of savePlannerItem: the item row, its sessions, its
        class row (assessment types only), the coverage of its student rows
        and their mirror. */
    method PersistPlannerItem(plan: Plan, existing: Option<PlanItem>, f: ItemFields, sessionInputs: seq<SessionInput>, env: Env)
      returns (id: int)
      requires Valid()
      requires existing.Some? ==> existing.value in items
      requires f.status != Deferred ==> f.deferredTo.None?
      modifies this`items, this`nextItemId, this`sessions, this`classAssignments, this`classQuizzes,
               this`nextAssignmentId, this`nextQuizId, this`studentAssignments, this`studentQuizzes
      ensures SavedItem(plan, existing, f, sessionInputs, env, id)
      ensures Valid()
    {
      id := WritePlanItem(plan.id, existing, f, env.now);
      UpsertPlannerSessions(id, sessionInputs, env.parseDate);
      PersistItemAssessments(plan, f, id, env.roster(plan.classId), env.now);
    }

    /** The assessment-table writes of savePlannerItem. */
    method PersistItemAssessments(plan: Plan, f: ItemFields, id: int, roster: seq<int>, now: DateTime)
      requires Valid()
      modifies this`classAssignments, this`classQuizzes, this`nextAssignmentId, this`nextQuizId,
               this`studentAssignments, this`studentQuizzes
      ensures Tables() == ItemAssessmentWrites(old(Tables()), plan, f, id, roster, now)
      ensures Valid()
    {
      ghost var w := ItemAssessmentWrites(Tables(), plan, f, id, roster, now);
      var assignmentNumber, quizNumber := WriteItemClassRows(plan, id, f);
      assert classAssignments == w.classAssignments && nextAssignmentId == w.nextAssignmentId;
      assert classQuizzes == w.classQuizzes && nextQuizId == w.nextQuizId;
      SyncLinkedAssessmentCoverage(id, Some(f.status));
      ghost var sa, sq := studentAssignments, studentQuizzes;
      ghost var ma := MirrorSource(plan.classId, plan.subjectId, id, assignmentNumber, f.title, f.description, f.scheduledFor, f.status);
      ghost var mq := MirrorSource(plan.classId, plan.subjectId, id, quizNumber, f.title, f.topic, f.scheduledFor, f.status);
      assert w.studentAssignments == SyncMirror(sa, ma, roster, now) && w.studentQuizzes == SyncMirror(sq, mq, roster, now);
      SyncPlannerItemToStudentTables(plan, id, f.itemType, f.title, f.topic, f.description, f.scheduledFor, f.status,
                                     assignmentNumber, quizNumber, roster, now);
      assert studentAssignments == w.studentAssignments by {
        if f.itemType != Assignment {
          assert !MirrorApplies(ma, roster);
        }
      }
      assert studentQuizzes == w.studentQuizzes by {
        if f.itemType != Quiz {
          assert !MirrorApplies(mq, roster);
        }
      }
    }

    /** savePlannerItem. */
    method SavePlannerItem(req: Requester, input: ItemInput, env: Env) returns (r: Result<int>)
      requires Valid()
      modifies this`items, this`nextItemId, this`sessions, this`classAssignments, this`classQuizzes,
               this`nextAssignmentId, this`nextQuizId, this`studentAssignments, this`studentQuizzes
      ensures Valid()
      ensures var t := old(ItemSaveTarget(items, plans, input));
              && (t.Err? ==> r == Err(t.error))
              && (t.Ok? && !CanManagePlanner(req, t.value.1.classId, t.value.1.subjectId, env.directory) ==> r == Err(Forbidden))
              && (t.Ok? && CanManagePlanner(req, t.value.1.classId, t.value.1.subjectId, env.directory) ==>
                    r.Ok? && SavedItem(t.value.1, t.value.0, MergeItemFields(t.value.0, input, env.parseDateTime), input.sessions, env, r.value))
      ensures r.Err? ==> items == old(items) && sessions == old(sessions) && classAssignments == old(classAssignments)
                         && classQuizzes == old(classQuizzes) && studentAssignments == old(studentAssignments)
                         && studentQuizzes == old(studentQuizzes) && nextItemId == old(nextItemId)
                         && nextAssignmentId == old(nextAssignmentId) && nextQuizId == old(nextQuizId)
    {
      var t := ItemSaveTarget(items, plans, input);
      if t.Err? {
        return Err(t.error);
      }
      var (existing, plan) := t.value;
      if !CanManagePlanner(req, plan.classId, plan.subjectId, env.directory) {
        return Err(Forbidden);
      }
      var f := MergeItemFields(existing, input, env.parseDateTime);
      var id := PersistPlannerItem(plan, existing, f, input.sessions, env);
      r := Ok(id);
    }

    /** updatePlannerItemStatus. */
    method UpdatePlannerItemStatus(req: Requester, input: StatusInput, env: Env) returns (r: Result<ItemStatus>)
      requires Valid()
      modifies this`items, this`studentAssignments, this`studentQuizzes
      ensures Valid()
      ensures var u := old(StatusUpdateResult(items, plans, req, input, env));
              && (u.Err? ==> r == Err(u.error))
              && (u.Ok? ==> r == Ok(u.value.status) && items == ReplaceItem(old(items), u.value)
                            && studentAssignments == SetCoverage(old(studentAssignments), input.id, Some(u.value.status))
                            && studentQuizzes == SetCoverage(old(studentQuizzes), input.id, Some(u.value.status)))
      ensures r.Err? ==> items == old(items) && studentAssignments == old(studentAssignments) && studentQuizzes == old(studentQuizzes)
    {
      var u := StatusUpdateResult(items, plans, req, input, env);
      if u.Err? {
        return Err(u.error);
      }
      WriteItem(u.value);
      SyncLinkedAssessmentCoverage(input.id, Some(u.value.status));
      r := Ok(u.value.status);
    }

    /** `UPDATE ... WHERE id = ?` of a stored item. */
    method WriteItem(it: PlanItem)
      requires Valid()
      requires FindItem(items, it.id).Some?
      requires it.status != Deferred ==> it.deferredTo.None?
      modifies this`items
      ensures Valid()
      ensures items == ReplaceItem(old(items), it)
    {
      assert FindItem(items, it.id).value in items;
      ReplaceItemValid(items, nextItemId, it);
      items := ReplaceItem(items, it);
    }

    /** deletePlannerItem: mirrors are detached, the item row goes; its
        sessions and class rows are left in place. */
    method DeletePlannerItem(req: Requester, itemId: int, env: Env) returns (r: Result<int>)
      requires Valid()
      modifies this`items, this`studentAssignments, this`studentQuizzes
      ensures Valid()
      ensures r == old(DeleteResult(items, plans, req, itemId, env.directory))
      ensures r.Ok? ==> items == RemoveItem(old(items), itemId)
                        && studentAssignments == Detach(old(studentAssignments), itemId)
                        && studentQuizzes == Detach(old(studentQuizzes), itemId)
      ensures r.Err? ==> items == old(items) && studentAssignments == old(studentAssignments) && studentQuizzes == old(studentQuizzes)
    {
      r := DeleteResult(items, plans, req, itemId, env.directory);
      if r.Err? {
        return;
      }
      studentAssignments := Detach(studentAssignments, itemId);
      studentQuizzes := Detach(studentQuizzes, itemId);
      items := RemoveItem(items, itemId);
    }

    // -------------------------------------------------------------------
    // Plans
    // -------------------------------------------------------------------

    /** getPlannerData: a manager's read first sweeps due items; viewers only read. */
    method GetPlannerData(req: Requester, classId: int, subjectId: int, assignmentId: Option<int>, env: Env)
      returns (r: Result<PlannerData>)
      requires Valid()
      modifies this`items
      ensures Valid()
      ensures r.Ok? <==> classId > 0 && subjectId > 0 && MayRead(req, classId, subjectId, env.directory)
      ensures r.Err? ==> r.error == (if classId <= 0 || subjectId <= 0 then BadRequest else Forbidden)
      ensures r.Ok? ==> r.value.plan == SelectPlan(plans, classId, subjectId, assignmentId)
      ensures r.Ok? && r.value.plan.Some? && CanManagePlanner(req, classId, subjectId, env.directory) ==>
                items == Sweep(old(items), r.value.plan.value.id, env.now)
      ensures r.Ok? && r.value.plan.Some? ==> r.value.items == LoadPlannerItems(items, sessions, r.value.plan.value.id)
      ensures r.Ok? && r.value.plan.None? ==> r.value.items == []
      ensures r.Err? || r.value.plan.None? || !CanManagePlanner(req, classId, subjectId, env.directory) ==> items == old(items)
    {
      if classId <= 0 || subjectId <= 0 {
        return Err(BadRequest);
      }
      var canManage := CanManagePlanner(req, classId, subjectId, env.directory);
      if !canManage && !CanViewOnly(req, canManage) {
        return Err(Forbidden);
      }
      var plan := SelectPlan(plans, classId, subjectId, assignmentId);
      if plan.None? {
        return Ok(PlannerData(None, []));
      }
      if canManage {
        AutoAdvancePlannerStatuses(plan.value.id, env.now);
      }
      r := Ok(PlannerData(plan, LoadPlannerItems(items, sessions, plan.value.id)));
    }

    /** savePlannerPlan. */
    method SavePlannerPlan(req: Requester, input: PlanInput, env: Env) returns (r: Result<int>)
      requires Valid()
      modifies this`plans, this`nextPlanId
      ensures Valid()
      ensures var t := old(PlanSaveTarget(plans, req, input, env.directory));
              var owner := RequestedOwner(req, AssignmentIdOf(input.teacherAssignment), env.directory);
              && (t.Err? ==> r == Err(t.error) && plans == old(plans) && nextPlanId == old(nextPlanId))
              && (t.Ok? && t.value.Some? ==>
                    r == Ok(input.planId)
                    && plans == ReplacePlan(old(plans), UpdatedPlan(t.value.value, input, owner, env.parseDate, env.now))
                    && nextPlanId == old(nextPlanId))
              && (t.Ok? && t.value.None? ==>
                    r == Ok(old(nextPlanId))
                    && plans == old(plans) + [NewPlan(old(nextPlanId), input, owner, env.parseDate, env.now)]
                    && nextPlanId == old(nextPlanId) + 1)
    {
      var t := PlanSaveTarget(plans, req, input, env.directory);
      if t.Err? {
        return Err(t.error);
      }
      var owner := RequestedOwner(req, AssignmentIdOf(input.teacherAssignment), env.directory);
      if t.value.Some? {
        ReplacePlanValid(plans, nextPlanId, UpdatedPlan(t.value.value, input, owner, env.parseDate, env.now));
        plans := ReplacePlan(plans, UpdatedPlan(t.value.value, input, owner, env.parseDate, env.now));
        return Ok(input.planId);
      }
      var id := nextPlanId;
      AppendPlanValid(plans, nextPlanId, NewPlan(id, input, owner, env.parseDate, env.now));
      plans := plans + [NewPlan(id, input, owner, env.parseDate, env.now)];
      nextPlanId := nextPlanId + 1;
      r := Ok(id);
    }

    // -------------------------------------------------------------------
    // Class assessments
    // -------------------------------------------------------------------

    /** listClassAssessments: both kinds' views for a reader of the class. */
    function ListClassAssessments(req: Requester, classId: int, subjectId: int, env: Env)
      : (r: Result<(seq<AssessmentView>, seq<AssessmentView>)>)
      reads this
      ensures r.Ok? <==> classId > 0 && subjectId > 0 && MayRead(req, classId, subjectId, env.directory)
      ensures r.Err? ==> r.error == (if classId <= 0 || subjectId <= 0 then BadRequest else Forbidden)
      ensures r.Ok? ==>
                r.value.0 == FetchClassAssessments(AssignmentKind, classAssignments, items, studentAssignments, classId, subjectId, env.now)
                && r.value.1 == FetchClassAssessments(QuizKind, classQuizzes, items, studentQuizzes, classId, subjectId, env.now)
    {
      if classId <= 0 || subjectId <= 0 then Err(BadRequest)
      else if !MayRead(req, classId, subjectId, env.directory) then Err(Forbidden)
      else Ok((FetchClassAssessments(AssignmentKind, classAssignments, items, studentAssignments, classId, subjectId, env.now),
               FetchClassAssessments(QuizKind, classQuizzes, items, studentQuizzes, classId, subjectId, env.now)))
    }

    /** saveClassAssessment for one kind. */
    method SaveClassAssessment(k: Kind, req: Requester, input: AssessmentInput, env: Env) returns (r: Result<Saved>)
      requires Valid()
      modifies this`classAssignments, this`classQuizzes, this`nextAssignmentId, this`nextQuizId
      ensures Valid()
      ensures var d := old(AssessmentSaveDecision(k, ClassRows(k), req, input, env));
              && (d.Err? ==> r == Err(d.error) && ClassRows(k) == old(ClassRows(k)) && NextClassId(k) == old(NextClassId(k)))
              && (d.Ok? ==>
                    var t := d.value.0;
                    && (t.UpdateRow? || t.InsertRow?)
                    && r == Ok(SavedOf(old(ClassRows(k)), old(NextClassId(k)), t))
                    && ClassRows(k) == ApplySave(old(ClassRows(k)), old(NextClassId(k)), input.classId, input.subjectId, t, d.value.1)
                    && NextClassId(k) == (if t.InsertRow? then old(NextClassId(k)) + 1 else old(NextClassId(k))))
      ensures ClassRows(OtherKind(k)) == old(ClassRows(OtherKind(k))) && NextClassId(OtherKind(k)) == old(NextClassId(OtherKind(k)))
    {
      var d := AssessmentSaveDecision(k, ClassRows(k), req, input, env);
      if d.Err? {
        return Err(d.error);
      }
      var (t, f) := d.value;
      var rows := ClassRows(k);
      var nextId := NextClassId(k);
      SaveKeepsInvariants(rows, nextId, input.classId, input.subjectId, input.id, input.number, f);
      r := Ok(SavedOf(rows, nextId, t));
      StoreClassRows(k, ApplySave(rows, nextId, input.classId, input.subjectId, t, f), if t.InsertRow? then nextId + 1 else nextId);
    }

    /** upsertAssessmentCompletion: marks the class rows (by link, then by
        number) and, with a number, the students' rows. */
    method UpsertAssessmentCompletion(req: Requester, input: CompletionInput, env: Env) returns (r: Result<Completion>)
      requires Valid()
      modifies this`classAssignments, this`classQuizzes, this`nextAssignmentId, this`nextQuizId,
               this`studentAssignments, this`studentQuizzes
      ensures Valid()
      ensures var c := CheckCompletion(req, input, env);
              && (c.Err? ==> r == Err(c.error) && Tables() == old(Tables()))
              && (c.Ok? ==> r == Ok(Completion(c.value.status, c.value.completedAt))
                            && Tables() == CompleteTables(old(Tables()), c.value.kind, input.classId, input.subjectId,
                                                          input.planItemId, input.number, c.value.status, c.value.completedAt))
    {
      var c := CheckCompletion(req, input, env);
      if c.Err? {
        return Err(c.error);
      }
      CompleteRows(c.value.kind, input.classId, input.subjectId, input.planItemId, input.number, c.value.status, c.value.completedAt);
      r := Ok(Completion(c.value.status, c.value.completedAt));
    }

    /** The writes of upsertAssessmentCompletion. */
    method CompleteRows(k: Kind, classId: int, subjectId: int, planItemId: int, number: Option<int>,
                        status: ItemStatus, at: Option<DateTime>)
      requires Valid()
      modifies this`classAssignments, this`classQuizzes, this`nextAssignmentId, this`nextQuizId,
               this`studentAssignments, this`studentQuizzes
      ensures Valid()
      ensures Tables() == CompleteTables(old(Tables()), k, classId, subjectId, planItemId, number, status, at)
    {
      CompleteClassTable(k, classId, subjectId, planItemId, number, status, at);
      if number.Some? {
        StoreStudentRows(k, CompleteStudentRows(StudentRows(k), classId, subjectId, number.value, status, at));
      }
    }

    /** The class-table write of upsertAssessmentCompletion. */
    method CompleteClassTable(k: Kind, classId: int, subjectId: int, planItemId: int, number: Option<int>,
                              status: ItemStatus, at: Option<DateTime>)
      requires Valid()
      modifies this`classAssignments, this`classQuizzes, this`nextAssignmentId, this`nextQuizId
      ensures Valid()
      ensures ClassRows(k) == CompleteClassRows(old(ClassRows(k)), classId, subjectId, planItemId, number, status, at)
      ensures ClassRows(OtherKind(k)) == old(ClassRows(OtherKind(k)))
      ensures nextAssignmentId == old(nextAssignmentId) && nextQuizId == old(nextQuizId)
    {
      var rows := ClassRows(k);
      var nextId := NextClassId(k);
      CompleteKeepsInvariants(rows, nextId, classId, subjectId, planItemId, number, status, at);
      StoreClassRows(k, CompleteClassRows(rows, classId, subjectId, planItemId, number, status, at), nextId);
    }
  }
}
