/**
 * The rows of the five planner tables, as the engine reads and writes them.
 *
 * Only the columns the engine looks at are kept. Integer columns hold the
 * value after PHP's `intval`; nullable columns are `Option`s.
 */
module Rows {
  import opened Common
  import opened Enums

  /** class_subject_plans. */
  datatype Plan = Plan(
    id: int,
    classId: int,
    subjectId: int,
    teacherUserId: Option<int>,
    teacherAssignmentId: Option<int>,
    termLabel: Option<string>,
    frequency: Frequency,
    singleDate: Option<Date>,
    rangeStart: Option<Date>,
    rangeEnd: Option<Date>,
    status: PlanStatus,
    createdAt: DateTime,
    updatedAt: DateTime)

  /** class_subject_plan_items. */
  datatype PlanItem = PlanItem(
    id: int,
    planId: int,
    itemType: ItemType,
    title: Option<string>,
    topic: Option<string>,
    description: Option<string>,
    scheduledFor: Option<DateTime>,
    scheduledUntil: Option<DateTime>,
    status: ItemStatus,
    statusChangedAt: Option<DateTime>,
    verificationNotes: Option<string>,
    deferredTo: Option<DateTime>,
    createdAt: DateTime,
    updatedAt: DateTime)

  /** class_subject_plan_sessions: one calendar occurrence of an item. */
  datatype SessionRow = SessionRow(itemId: int, date: Date, notes: Option<string>, status: SessionStatus)

  /** The two assessment kinds, each with its own class table and student table. */
  datatype Kind = AssignmentKind | QuizKind

  function KindName(k: Kind): string
  {
    match k
    case AssignmentKind => "assignment"
    case QuizKind => "quiz"
  }

  function OtherKind(k: Kind): (o: Kind)
    ensures o != k
  {
    match k
    case AssignmentKind => QuizKind
    case QuizKind => AssignmentKind
  }

  /** A class_assignments / class_quizzes row. `name` is assignment_name or
      quiz_name, `number` assignment_number or quiz_number. */
  datatype ClassRow = ClassRow(
    id: int,
    classId: int,
    subjectId: int,
    planItemId: Option<int>,
    number: int,
    name: string,
    description: Option<string>,
    deadline: Option<DateTime>,
    status: ItemStatus,
    completedAt: Option<DateTime>,
    teacherUserId: Option<int>,
    createdBy: Option<int>)

  /** A student_assignments / student_quizzes row. `text` is the description
      (assignments) or the topic (quizzes); `deadline` is deadline or
      scheduled_at. The marks themselves are only tracked as present or not. */
  datatype StudentRow = StudentRow(
    classId: int,
    subjectId: int,
    studentId: int,
    number: Option<int>,
    title: Option<string>,
    text: Option<string>,
    deadline: Option<DateTime>,
    planItemId: Option<int>,
    coverage: ItemStatus,
    obtainedMarks: Option<int>,
    gradedAt: Option<DateTime>,
    updatedAt: DateTime)
}
