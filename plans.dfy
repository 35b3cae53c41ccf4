/**
 * Plans: which plan a (class, subject[, assignment]) context reads
 * (fetchPlannerPlanByContext), and the values savePlannerPlan writes.
 */
module Plans {
  import opened Common
  import opened Enums
  import opened Rows
  import opened Authorization

  // ---------------------------------------------------------------------
  // Plan by context
  // ---------------------------------------------------------------------

  /** The `WHERE` of the lookup; a null or zero assignment filter is no filter. */
  predicate MatchesContext(p: Plan, classId: int, subjectId: int, assignmentId: Option<int>)
  {
    p.classId == classId && p.subjectId == subjectId
    && (assignmentId.None? || assignmentId.value == 0 || p.teacherAssignmentId == assignmentId)
  }

  /** `ORDER BY status = 'active' DESC, updated_at DESC`: does `p` come strictly before `q`? */
  predicate RanksAbove(p: Plan, q: Plan)
  {
    (p.status == Active && q.status != Active)
    || ((p.status == Active) == (q.status == Active) && p.updatedAt > q.updatedAt)
  }

  /**
   * The plan the context reads: a matching plan that no other matching plan
   * outranks — an active one whenever one exists, then the most recently
   * updated. Among equals the first in table order is taken.
   */
  function SelectPlan(plans: seq<Plan>, classId: int, subjectId: int, assignmentId: Option<int>): (r: Option<Plan>)
    ensures r.None? <==> forall q :: q in plans ==> !MatchesContext(q, classId, subjectId, assignmentId)
    ensures r.Some? ==> r.value in plans && MatchesContext(r.value, classId, subjectId, assignmentId)
    ensures r.Some? ==> forall q :: q in plans && MatchesContext(q, classId, subjectId, assignmentId) ==> !RanksAbove(q, r.value)
  {
    if plans == [] then None
    else
      var rest := SelectPlan(plans[1..], classId, subjectId, assignmentId);
      assert plans == [plans[0]] + plans[1..];
      if !MatchesContext(plans[0], classId, subjectId, assignmentId) then rest
      else if rest.None? || !RanksAbove(rest.value, plans[0]) then Some(plans[0])
      else rest
  }

  /** An active matching plan always wins over archived ones. */
  lemma SelectPrefersActive(plans: seq<Plan>, classId: int, subjectId: int, assignmentId: Option<int>, q: Plan)
    requires q in plans && MatchesContext(q, classId, subjectId, assignmentId) && q.status == Active
    ensures SelectPlan(plans, classId, subjectId, assignmentId).Some?
    ensures SelectPlan(plans, classId, subjectId, assignmentId).value.status == Active
  {
    var r := SelectPlan(plans, classId, subjectId, assignmentId);
    assert r.Some?;
    assert !RanksAbove(q, r.value);
  }

  /** `SELECT * FROM class_subject_plans WHERE id = ? LIMIT 1`. */
  function FindPlan(plans: seq<Plan>, id: int): (r: Option<Plan>)
    ensures r.Some? ==> r.value in plans && r.value.id == id
    ensures r.None? ==> forall p :: p in plans ==> p.id != id
  {
    if plans == [] then None
    else if plans[0].id == id then Some(plans[0])
    else FindPlan(plans[1..], id)
  }

  // ---------------------------------------------------------------------
  // Saving a plan
  // ---------------------------------------------------------------------

  /** The fields of a plan request (missing or null fields are None; the
      assignment is the only key tested with `array_key_exists`). */
  datatype PlanInput = PlanInput(
    planId: int,
    classId: int,
    subjectId: int,
    teacherAssignment: Key<int>,
    frequency: Option<string>,
    singleDate: Option<string>,
    rangeStart: Option<string>,
    rangeEnd: Option<string>,
    status: Option<string>,
    termLabel: Option<string>)

  /** frequency: a valid trimmed (case-sensitive) name, else Custom. */
  function ClampFrequency(raw: Option<string>): (f: Frequency)
    ensures raw.Some? && ParseFrequency(Trim(raw.value)).Some? ==> Some(f) == ParseFrequency(Trim(raw.value))
    ensures (raw.None? || ParseFrequency(Trim(raw.value)).None?) ==> f == Custom
  {
    if raw.None? then Custom
    else match ParseFrequency(Trim(raw.value)) case Some(f) => f case None => Custom
  }

  /** status: `active` or `archived` (trimmed, case-sensitive), else active. */
  function ClampPlanStatus(raw: Option<string>): (s: PlanStatus)
    ensures raw.Some? && ParsePlanStatus(Trim(raw.value)).Some? ==> Some(s) == ParsePlanStatus(Trim(raw.value))
    ensures (raw.None? || ParsePlanStatus(Trim(raw.value)).None?) ==> s == Active
  {
    if raw.None? then Active
    else match ParsePlanStatus(Trim(raw.value)) case Some(s) => s case None => Active
  }

  /** `$assignmentProvided && $input[...] !== null ? intval(...) : null`. */
  function AssignmentIdOf(k: Key<int>): Option<int>
  {
    match k
    case Missing => None
    case Given(v) => v
  }

  /** resolveAssignmentTeacherUserId: the teacher of the assignment row with
      that id; null for a null or zero id or an unknown one. */
  function ResolveAssignmentTeacher(dir: seq<TeacherAssignment>, assignmentId: Option<int>): (r: Option<int>)
    ensures assignmentId.None? || assignmentId.value == 0 ==> r.None?
    ensures r.Some? ==> exists a :: a in dir && Some(a.id) == assignmentId && a.teacherUserId == r.value
    ensures assignmentId.Some? && assignmentId.value != 0 && (exists a :: a in dir && a.id == assignmentId.value) ==> r.Some?
  {
    if assignmentId.None? || assignmentId.value == 0 || dir == [] then None
    else if dir[0].id == assignmentId.value then Some(dir[0].teacherUserId)
    else
      assert forall a :: a in dir[1..] ==> a in dir;
      ResolveAssignmentTeacher(dir[1..], assignmentId)
  }

  /** The owner the request itself supplies: a non-super admin or teacher owns
      the plan they save (a zero id owns nothing), else the assignment's teacher. */
  function RequestedOwner(req: Requester, assignmentId: Option<int>, dir: seq<TeacherAssignment>): (r: Option<int>)
    ensures IsStaffRole(RoleWord(req)) && !IsSuperAdmin(req) && req.id != 0 ==> r == Some(req.id)
    ensures !(IsStaffRole(RoleWord(req)) && !IsSuperAdmin(req) && req.id != 0) ==> r == ResolveAssignmentTeacher(dir, assignmentId)
  {
    var own := if IsStaffRole(RoleWord(req)) && !IsSuperAdmin(req) && req.id != 0 then Some(req.id) else None;
    if own.None? then ResolveAssignmentTeacher(dir, assignmentId) else own
  }

  /** The plan row savePlannerPlan inserts (`created_at = updated_at = NOW()`). */
  function NewPlan(id: int, input: PlanInput, owner: Option<int>, parse: string -> Option<Date>, now: DateTime): (p: Plan)
    ensures p.id == id && p.classId == input.classId && p.subjectId == input.subjectId
    ensures p.teacherUserId == owner && p.teacherAssignmentId == AssignmentIdOf(input.teacherAssignment)
    ensures p.frequency == ClampFrequency(input.frequency) && p.status == ClampPlanStatus(input.status)
    ensures p.termLabel == CleanText(input.termLabel)
    ensures p.singleDate == NormalizeDate(input.singleDate, parse) && p.rangeStart == NormalizeDate(input.rangeStart, parse)
    ensures p.rangeEnd == NormalizeDate(input.rangeEnd, parse)
    ensures p.createdAt == now && p.updatedAt == now
  {
    Plan(id, input.classId, input.subjectId, owner, AssignmentIdOf(input.teacherAssignment), CleanText(input.termLabel),
         ClampFrequency(input.frequency), NormalizeDate(input.singleDate, parse), NormalizeDate(input.rangeStart, parse),
         NormalizeDate(input.rangeEnd, parse), ClampPlanStatus(input.status), now, now)
  }

  /**
   * The plan row after savePlannerPlan's update: a missing assignment key
   * keeps the stored assignment, a null owner keeps the stored owner, and
   * every other column is rewritten from the request.
   */
  function UpdatedPlan(existing: Plan, input: PlanInput, owner: Option<int>, parse: string -> Option<Date>, now: DateTime): (p: Plan)
    ensures p.id == existing.id && p.classId == existing.classId && p.subjectId == existing.subjectId
    ensures p.createdAt == existing.createdAt && p.updatedAt == now
    ensures input.teacherAssignment.Missing? ==> p.teacherAssignmentId == existing.teacherAssignmentId
    ensures input.teacherAssignment.Given? ==> p.teacherAssignmentId == input.teacherAssignment.value
    ensures p.teacherUserId == Coalesce(owner, existing.teacherUserId)
    ensures p.frequency == ClampFrequency(input.frequency) && p.status == ClampPlanStatus(input.status)
    ensures p.termLabel == CleanText(input.termLabel)
    ensures p.singleDate == NormalizeDate(input.singleDate, parse) && p.rangeStart == NormalizeDate(input.rangeStart, parse)
    ensures p.rangeEnd == NormalizeDate(input.rangeEnd, parse)
  {
    existing.(termLabel := CleanText(input.termLabel), frequency := ClampFrequency(input.frequency),
              singleDate := NormalizeDate(input.singleDate, parse), rangeStart := NormalizeDate(input.rangeStart, parse),
              rangeEnd := NormalizeDate(input.rangeEnd, parse), status := ClampPlanStatus(input.status),
              teacherUserId := Coalesce(owner, existing.teacherUserId),
              teacherAssignmentId := if input.teacherAssignment.Missing? then existing.teacherAssignmentId
                                     else AssignmentIdOf(input.teacherAssignment),
              updatedAt := now)
  }

  /** Saving the same request twice in a row leaves the plan as the first save did, but for updated_at. */
  lemma UpdatePlanIdempotent(existing: Plan, input: PlanInput, owner: Option<int>, parse: string -> Option<Date>, now: DateTime, later: DateTime)
    ensures var once := UpdatedPlan(existing, input, owner, parse, now);
            UpdatedPlan(once, input, owner, parse, later) == once.(updatedAt := later)
  {
  }
}
