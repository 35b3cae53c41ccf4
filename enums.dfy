/**
 * The enumerated columns of the planner tables and the exact words the
 * handlers accept for them (`in_array(..., true)`: case-sensitive, no
 * trimming beyond what the caller already did).
 *
 * Each `Parse...` function is the inverse of the matching `...Name`: it
 * accepts exactly the stored words and nothing else.
 */
module Enums {
  import opened Common

  /** Lifecycle of a plan item, also used as the coverage status of
      class and student assessment rows. */
  datatype ItemStatus = Scheduled | ReadyForVerification | Covered | Deferred

  function ItemStatusName(s: ItemStatus): string
  {
    match s
    case Scheduled => "scheduled"
    case ReadyForVerification => "ready_for_verification"
    case Covered => "covered"
    case Deferred => "deferred"
  }

  function ParseItemStatus(w: string): (r: Option<ItemStatus>)
    ensures r.Some? ==> ItemStatusName(r.value) == w
    ensures r.None? ==> forall s: ItemStatus :: ItemStatusName(s) != w
  {
    if w == "scheduled" then Some(Scheduled)
    else if w == "ready_for_verification" then Some(ReadyForVerification)
    else if w == "covered" then Some(Covered)
    else if w == "deferred" then Some(Deferred)
    else None
  }

  datatype ItemType = Syllabus | Assignment | Quiz

  function ItemTypeName(t: ItemType): string
  {
    match t
    case Syllabus => "syllabus"
    case Assignment => "assignment"
    case Quiz => "quiz"
  }

  function ParseItemType(w: string): (r: Option<ItemType>)
    ensures r.Some? ==> ItemTypeName(r.value) == w
    ensures r.None? ==> forall t: ItemType :: ItemTypeName(t) != w
  {
    if w == "syllabus" then Some(Syllabus)
    else if w == "assignment" then Some(Assignment)
    else if w == "quiz" then Some(Quiz)
    else None
  }

  /** Status of one calendar occurrence of a plan item. */
  datatype SessionStatus = SessionScheduled | SessionCovered | SessionCancelled

  function SessionStatusName(s: SessionStatus): string
  {
    match s
    case SessionScheduled => "scheduled"
    case SessionCovered => "covered"
    case SessionCancelled => "cancelled"
  }

  function ParseSessionStatus(w: string): (r: Option<SessionStatus>)
    ensures r.Some? ==> SessionStatusName(r.value) == w
    ensures r.None? ==> forall s: SessionStatus :: SessionStatusName(s) != w
  {
    if w == "scheduled" then Some(SessionScheduled)
    else if w == "covered" then Some(SessionCovered)
    else if w == "cancelled" then Some(SessionCancelled)
    else None
  }

  datatype Frequency = Daily | Weekly | Monthly | Custom

  function FrequencyName(f: Frequency): string
  {
    match f
    case Daily => "Daily"
    case Weekly => "Weekly"
    case Monthly => "Monthly"
    case Custom => "Custom"
  }

  function ParseFrequency(w: string): (r: Option<Frequency>)
    ensures r.Some? ==> FrequencyName(r.value) == w
    ensures r.None? ==> forall f: Frequency :: FrequencyName(f) != w
  {
    if w == "Daily" then Some(Daily)
    else if w == "Weekly" then Some(Weekly)
    else if w == "Monthly" then Some(Monthly)
    else if w == "Custom" then Some(Custom)
    else None
  }

  datatype PlanStatus = Active | Archived

  function PlanStatusName(s: PlanStatus): string
  {
    match s
    case Active => "active"
    case Archived => "archived"
  }

  function ParsePlanStatus(w: string): (r: Option<PlanStatus>)
    ensures r.Some? ==> PlanStatusName(r.value) == w
    ensures r.None? ==> forall s: PlanStatus :: PlanStatusName(s) != w
  {
    if w == "active" then Some(Active)
    else if w == "archived" then Some(Archived)
    else None
  }

  /** Every stored word reads back as the value it names. */
  lemma ParseNamesRoundTrip(s: ItemStatus, t: ItemType, ss: SessionStatus, f: Frequency, p: PlanStatus)
    ensures ParseItemStatus(ItemStatusName(s)) == Some(s)
    ensures ParseItemType(ItemTypeName(t)) == Some(t)
    ensures ParseSessionStatus(SessionStatusName(ss)) == Some(ss)
    ensures ParseFrequency(FrequencyName(f)) == Some(f)
    ensures ParsePlanStatus(PlanStatusName(p)) == Some(p)
  {
  }
}
