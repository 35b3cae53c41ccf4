/**
 * Plan items: the field merge of savePlannerItem, the deferred_to rule, the
 * status-change timestamp, the direct status update of
 * updatePlannerItemStatus, the time-driven sweep of autoAdvancePlannerStatuses
 * and the read order of loadPlannerItems / loadPlannerSessions.
 */
module Items {
  import opened Common
  import opened Enums
  import opened Rows
  import opened Sorting
  import opened Sessions

  // ---------------------------------------------------------------------
  // Sweep (autoAdvancePlannerStatuses)
  // ---------------------------------------------------------------------

  /** The rows the sweep's `WHERE` selects. */
  predicate Due(it: PlanItem, planId: int, now: DateTime)
  {
    it.planId == planId && it.status == Scheduled && it.scheduledFor.Some? && it.scheduledFor.value <= now
  }

  /** Scheduled items of the plan whose start has passed become ready for
      verification (stamped now); every other item is left as it was. */
  function Sweep(items: seq<PlanItem>, planId: int, now: DateTime): (r: seq<PlanItem>)
    ensures |r| == |items|
    ensures forall k :: 0 <= k < |items| && Due(items[k], planId, now) ==>
              r[k] == items[k].(status := ReadyForVerification, statusChangedAt := Some(now))
    ensures forall k :: 0 <= k < |items| && !Due(items[k], planId, now) ==> r[k] == items[k]
  {
    seq(|items|, k requires 0 <= k < |items| =>
          if Due(items[k], planId, now) then items[k].(status := ReadyForVerification, statusChangedAt := Some(now))
          else items[k])
  }

  /** Running the sweep twice at the same instant is running it once. */
  lemma SweepIdempotent(items: seq<PlanItem>, planId: int, now: DateTime)
    ensures Sweep(Sweep(items, planId, now), planId, now) == Sweep(items, planId, now)
  {
    var once := Sweep(items, planId, now);
    assert forall k :: 0 <= k < |once| ==> !Due(once[k], planId, now);
  }

  /** The sweep only ever moves `scheduled` to `ready_for_verification` and
      never touches an item's identity, plan or dates. */
  lemma SweepOnlyAdvances(items: seq<PlanItem>, planId: int, now: DateTime, k: int)
    requires 0 <= k < |items|
    ensures var r := Sweep(items, planId, now)[k];
            && (r.status == items[k].status || (items[k].status == Scheduled && r.status == ReadyForVerification))
            && r.id == items[k].id && r.planId == items[k].planId && r.scheduledFor == items[k].scheduledFor
            && r.deferredTo == items[k].deferredTo
            && (r != items[k] <==> Due(items[k], planId, now))
  {
  }

  // ---------------------------------------------------------------------
  // Field merge (savePlannerItem)
  // ---------------------------------------------------------------------

  /** The fields of a planner-item request; a field that is missing or null
      reads as None, except for the keys tested with `array_key_exists`. */
  datatype ItemInput = ItemInput(
    planId: int,
    id: int,
    itemType: Option<string>,
    title: Option<string>,
    topic: Option<string>,
    description: Option<string>,
    scheduledFor: Key<string>,
    scheduledUntil: Key<string>,
    status: Option<string>,
    verificationNotes: Option<string>,
    deferredTo: Key<string>,
    sessions: seq<SessionInput>)

  /** The values an item is written with. */
  datatype ItemFields = ItemFields(
    itemType: ItemType,
    title: Option<string>,
    topic: Option<string>,
    description: Option<string>,
    scheduledFor: Option<DateTime>,
    scheduledUntil: Option<DateTime>,
    status: ItemStatus,
    verificationNotes: Option<string>,
    deferredTo: Option<DateTime>)

  /** A text field: the trimmed input when given, else the previous value; empty becomes null. */
  function MergeText(given: Option<string>, previous: Option<string>): (r: Option<string>)
    ensures given.Some? ==> r == CleanText(given)
    ensures given.None? ==> r == NonEmptyOrNull(previous)
    ensures r.Some? ==> r.value != ""
  {
    NonEmptyOrNull(if given.Some? then Some(Trim(given.value)) else previous)
  }

  /** item_type: a valid (trimmed, lower-cased) input word, else the existing type, else syllabus. */
  function MergeType(given: Option<string>, existing: Option<PlanItem>): (t: ItemType)
    ensures given.Some? && ParseItemType(Word(given.value)).Some? ==> Some(t) == ParseItemType(Word(given.value))
    ensures (given.None? || ParseItemType(Word(given.value)).None?) && existing.Some? ==> t == existing.value.itemType
    ensures (given.None? || ParseItemType(Word(given.value)).None?) && existing.None? ==> t == Syllabus
  {
    var fallback := if existing.Some? then existing.value.itemType else Syllabus;
    if given.Some? then
      match ParseItemType(Word(given.value)) case Some(t) => t case None => fallback
    else fallback
  }

  /** status: a valid (trimmed, case-sensitive) input word, else the existing status, else scheduled. */
  function MergeStatus(given: Option<string>, existing: Option<PlanItem>): (s: ItemStatus)
    ensures given.Some? && ParseItemStatus(Trim(given.value)).Some? ==> Some(s) == ParseItemStatus(Trim(given.value))
    ensures (given.None? || ParseItemStatus(Trim(given.value)).None?) && existing.Some? ==> s == existing.value.status
    ensures (given.None? || ParseItemStatus(Trim(given.value)).None?) && existing.None? ==> s == Scheduled
  {
    var fallback := if existing.Some? then existing.value.status else Scheduled;
    if given.Some? then
      match ParseItemStatus(Trim(given.value)) case Some(s) => s case None => fallback
    else fallback
  }

  /** The deferred_to rule: only a deferred item has a deferral date, and a
      deferral without one takes the item's scheduled_for. */
  function ResolveDeferredTo(status: ItemStatus, deferredTo: Option<DateTime>, scheduledFor: Option<DateTime>): (r: Option<DateTime>)
    ensures status != Deferred ==> r.None?
    ensures status == Deferred && deferredTo.Some? ==> r == deferredTo
    ensures status == Deferred && deferredTo.None? ==> r == scheduledFor
  {
    if status != Deferred then None
    else if deferredTo.None? && scheduledFor.Some? then scheduledFor
    else deferredTo
  }

  function Previous<T>(existing: Option<PlanItem>, f: PlanItem -> Option<T>): Option<T>
  {
    if existing.Some? then f(existing.value) else None
  }

  /** The merged values savePlannerItem writes, given the stored item (None on insert). */
  function MergeItemFields(existing: Option<PlanItem>, input: ItemInput, parse: string -> Option<DateTime>): (f: ItemFields)
    ensures f.itemType == MergeType(input.itemType, existing)
    ensures f.status == MergeStatus(input.status, existing)
    ensures f.title == MergeText(input.title, Previous(existing, (it: PlanItem) => it.title))
    ensures f.topic == MergeText(input.topic, Previous(existing, (it: PlanItem) => it.topic))
    ensures f.description == MergeText(input.description, Previous(existing, (it: PlanItem) => it.description))
    ensures f.verificationNotes == MergeText(input.verificationNotes, Previous(existing, (it: PlanItem) => it.verificationNotes))
    ensures f.scheduledFor == DateTimeKey(input.scheduledFor, Previous(existing, (it: PlanItem) => it.scheduledFor), parse)
    ensures f.scheduledUntil == DateTimeKey(input.scheduledUntil, Previous(existing, (it: PlanItem) => it.scheduledUntil), parse)
    ensures f.status != Deferred ==> f.deferredTo.None?
    ensures f.status == Deferred ==>
              f.deferredTo == Coalesce(DateTimeKey(input.deferredTo, Previous(existing, (it: PlanItem) => it.deferredTo), parse), f.scheduledFor)
  {
    var scheduledFor := DateTimeKey(input.scheduledFor, Previous(existing, (it: PlanItem) => it.scheduledFor), parse);
    var status := MergeStatus(input.status, existing);
    var deferredTo := DateTimeKey(input.deferredTo, Previous(existing, (it: PlanItem) => it.deferredTo), parse);
    ItemFields(
      MergeType(input.itemType, existing),
      MergeText(input.title, Previous(existing, (it: PlanItem) => it.title)),
      MergeText(input.topic, Previous(existing, (it: PlanItem) => it.topic)),
      MergeText(input.description, Previous(existing, (it: PlanItem) => it.description)),
      scheduledFor,
      DateTimeKey(input.scheduledUntil, Previous(existing, (it: PlanItem) => it.scheduledUntil), parse),
      status,
      MergeText(input.verificationNotes, Previous(existing, (it: PlanItem) => it.verificationNotes)),
      ResolveDeferredTo(status, deferredTo, scheduledFor))
  }

  /** A new deferred item with neither a deferral date nor a scheduled date is
      let through by the save, without a deferral date (unlike the direct
      status update, which refuses it). */
  lemma SaveAllowsUndatedDeferral(input: ItemInput, parse: string -> Option<DateTime>)
    requires input.status.Some? && ParseItemStatus(Trim(input.status.value)) == Some(Deferred)
    requires input.scheduledFor.Missing? && input.deferredTo.Missing?
    ensures var f := MergeItemFields(None, input, parse);
            f.status == Deferred && f.scheduledFor.None? && f.deferredTo.None?
  {
  }

  // ---------------------------------------------------------------------
  // status_changed_at on update
  // ---------------------------------------------------------------------

  /**
   * The item UPDATE as MySQL runs it: single-table SET assignments are
   * evaluated left to right, so `status = :status` is in force when
   * `CASE WHEN status <> :status` is evaluated.
   */
  function UpdatedItemAsWritten(it: PlanItem, f: ItemFields, now: DateTime): PlanItem
  {
    var step := it.(itemType := f.itemType, title := f.title, topic := f.topic, description := f.description,
                    scheduledFor := f.scheduledFor, scheduledUntil := f.scheduledUntil, status := f.status);
    var stamped := step.(statusChangedAt := if step.status != f.status then Some(now) else step.statusChangedAt);
    stamped.(verificationNotes := f.verificationNotes, deferredTo := f.deferredTo, updatedAt := now)
  }

  /** As written, the timestamp never moves on update, even when the status changes. */
  lemma StampNeverMovesAsWritten(it: PlanItem, f: ItemFields, now: DateTime)
    ensures UpdatedItemAsWritten(it, f, now).statusChangedAt == it.statusChangedAt
  {
  }

  /** A concrete case: a scheduled item saved as covered keeps its old stamp. */
  lemma StampAsWrittenCounterexample()
    ensures var it := PlanItem(7, 1, Syllabus, None, None, None, None, None, Scheduled, Some(100), None, None, 50, 100);
            var f := ItemFields(Syllabus, None, None, None, None, None, Covered, None, None);
            var r := UpdatedItemAsWritten(it, f, 200);
            r.status != it.status && r.statusChangedAt == Some(100)
  {
  }

  /** The intended stamp: moved to now exactly when the status changes. */
  function StampOnChange(oldStatus: ItemStatus, newStatus: ItemStatus, oldStamp: Option<DateTime>, now: DateTime): (r: Option<DateTime>)
    ensures oldStatus != newStatus ==> r == Some(now)
    ensures oldStatus == newStatus ==> r == oldStamp
  {
    if oldStatus != newStatus then Some(now) else oldStamp
  }

  /** The item after savePlannerItem's update, with the comparison made
      against the status the row had before the update. */
  function UpdatedItem(it: PlanItem, f: ItemFields, now: DateTime): (r: PlanItem)
    ensures r.id == it.id && r.planId == it.planId && r.createdAt == it.createdAt
    ensures r.status == f.status && r.deferredTo == f.deferredTo && r.updatedAt == now
    ensures r.statusChangedAt == StampOnChange(it.status, f.status, it.statusChangedAt, now)
    ensures r.(statusChangedAt := it.statusChangedAt) == UpdatedItemAsWritten(it, f, now)
  {
    it.(itemType := f.itemType, title := f.title, topic := f.topic, description := f.description,
        scheduledFor := f.scheduledFor, scheduledUntil := f.scheduledUntil, status := f.status,
        statusChangedAt := StampOnChange(it.status, f.status, it.statusChangedAt, now),
        verificationNotes := f.verificationNotes, deferredTo := f.deferredTo, updatedAt := now)
  }

  /** The item savePlannerItem inserts: stamped, created and updated now. */
  function NewItem(id: int, planId: int, f: ItemFields, now: DateTime): (r: PlanItem)
    ensures r.id == id && r.planId == planId && r.status == f.status && r.deferredTo == f.deferredTo
    ensures r.itemType == f.itemType && r.title == f.title && r.topic == f.topic && r.description == f.description
    ensures r.scheduledFor == f.scheduledFor && r.scheduledUntil == f.scheduledUntil
    ensures r.verificationNotes == f.verificationNotes
    ensures r.statusChangedAt == Some(now) && r.createdAt == now && r.updatedAt == now
  {
    PlanItem(id, planId, f.itemType, f.title, f.topic, f.description, f.scheduledFor, f.scheduledUntil,
             f.status, Some(now), f.verificationNotes, f.deferredTo, now, now)
  }

  // ---------------------------------------------------------------------
  // Direct status update (updatePlannerItemStatus)
  // ---------------------------------------------------------------------

  datatype StatusInput = StatusInput(
    id: int,
    status: Option<string>,
    verificationNotes: Option<string>,
    scheduledFor: Key<string>,
    scheduledUntil: Key<string>,
    deferredTo: Key<string>)

  /** `isset($input['status']) ? trim(...) : ''`. */
  function StatusWord(input: StatusInput): string
  {
    if input.status.Some? then Trim(input.status.value) else ""
  }

  /** The deferral date the update resolves before its check: the given
      deferred_to, else (when deferring) the given scheduled_for or the stored one. */
  function RequestedDeferral(it: PlanItem, input: StatusInput, status: ItemStatus, parse: string -> Option<DateTime>): (r: Option<DateTime>)
    ensures input.deferredTo.Given? ==> r == NormalizeDateTime(input.deferredTo.value, parse)
    ensures input.deferredTo.Missing? && status != Deferred ==> r.None?
    ensures input.deferredTo.Missing? && status == Deferred ==>
              r == Coalesce(DateTimeKey(input.scheduledFor, None, parse), it.scheduledFor)
  {
    match input.deferredTo
    case Given(v) => NormalizeDateTime(v, parse)
    case Missing => if status == Deferred then Coalesce(DateTimeKey(input.scheduledFor, None, parse), it.scheduledFor) else None
  }

  /**
   * The part of updatePlannerItemStatus after the item is found and the
   * requester authorised: an unknown status and a deferral without a
   * resolvable date are rejected; otherwise status, stamp, notes and
   * deferral are written, and the dates only where their keys are present.
   * Unlike the save, the successful update keeps deferred_to set exactly when
   * the status is deferred.
   */
  function ApplyStatusUpdate(it: PlanItem, input: StatusInput, parse: string -> Option<DateTime>, now: DateTime): (r: Result<PlanItem>)
    ensures ParseItemStatus(StatusWord(input)).None? ==> r == Err(BadRequest)
    ensures ParseItemStatus(StatusWord(input)) == Some(Deferred) && RequestedDeferral(it, input, Deferred, parse).None? ==>
              r == Err(BadRequest)
    ensures r.Err? ==> r.error == BadRequest
    ensures r.Ok? ==> Some(r.value.status) == ParseItemStatus(StatusWord(input))
    ensures r.Ok? ==> (r.value.status == Deferred <==> r.value.deferredTo.Some?)
    ensures r.Ok? && r.value.status == Deferred ==> r.value.deferredTo == RequestedDeferral(it, input, Deferred, parse)
    ensures r.Ok? ==> r.value.statusChangedAt == Some(now) && r.value.updatedAt == now
    ensures r.Ok? ==> r.value.verificationNotes == CleanText(input.verificationNotes)
    ensures r.Ok? ==> r.value.scheduledFor == DateTimeKey(input.scheduledFor, it.scheduledFor, parse)
    ensures r.Ok? ==> r.value.scheduledUntil == DateTimeKey(input.scheduledUntil, it.scheduledUntil, parse)
    ensures r.Ok? ==> r.value.id == it.id && r.value.planId == it.planId && r.value.itemType == it.itemType
                      && r.value.title == it.title && r.value.topic == it.topic && r.value.description == it.description
                      && r.value.createdAt == it.createdAt
  {
    match ParseItemStatus(StatusWord(input))
    case None => Err(BadRequest)
    case Some(status) =>
      var deferredTo := RequestedDeferral(it, input, status, parse);
      if status == Deferred && deferredTo.None? then Err(BadRequest)
      else
        Ok(it.(status := status, statusChangedAt := Some(now), verificationNotes := CleanText(input.verificationNotes),
               deferredTo := if status == Deferred then deferredTo else None, updatedAt := now,
               scheduledFor := DateTimeKey(input.scheduledFor, it.scheduledFor, parse),
               scheduledUntil := DateTimeKey(input.scheduledUntil, it.scheduledUntil, parse)))
  }

  // ---------------------------------------------------------------------
  // Reading a plan (loadPlannerItems / loadPlannerSessions)
  // ---------------------------------------------------------------------

  /** `ORDER BY (scheduled_for IS NULL), scheduled_for, created_at`. */
  function ItemKey(it: PlanItem): SortKey
  {
    SortKey(if it.scheduledFor.None? then 1 else 0, if it.scheduledFor.Some? then it.scheduledFor.value else 0, it.createdAt)
  }

  /** `ORDER BY session_date`. */
  function SessionKey(s: SessionRow): SortKey
  {
    SortKey(0, s.date, 0)
  }

  function ItemsOfPlan(items: seq<PlanItem>, planId: int): (r: seq<PlanItem>)
    ensures forall x :: x in r <==> x in items && x.planId == planId
    ensures multiset(r) <= multiset(items)
  {
    if items == [] then []
    else
      var rest := ItemsOfPlan(items[1..], planId);
      assert items == [items[0]] + items[1..];
      if items[0].planId == planId then [items[0]] + rest else rest
  }

  function SessionsOfItem(sessions: seq<SessionRow>, itemId: int): (r: seq<SessionRow>)
    ensures forall x :: x in r <==> x in sessions && x.itemId == itemId
  {
    if sessions == [] then []
    else
      var rest := SessionsOfItem(sessions[1..], itemId);
      assert sessions == [sessions[0]] + sessions[1..];
      if sessions[0].itemId == itemId then [sessions[0]] + rest else rest
  }

  /** loadPlannerSessions: the item's sessions by date. */
  function SessionsByDate(sessions: seq<SessionRow>, itemId: int): (r: seq<SessionRow>)
    ensures forall x :: x in r <==> x in sessions && x.itemId == itemId
    ensures SortedBy(r, SessionKey)
  {
    var ss := SessionsOfItem(sessions, itemId);
    var r := SortBy(ss, SessionKey);
    assert forall x :: x in r <==> x in multiset(ss);
    r
  }

  /** An item as getPlannerData returns it: with its sessions by date. */
  datatype ItemView = ItemView(item: PlanItem, sessions: seq<SessionRow>)

  function ItemsOf(vs: seq<ItemView>): (r: seq<PlanItem>)
    ensures |r| == |vs| && forall k :: 0 <= k < |vs| ==> r[k] == vs[k].item
  {
    seq(|vs|, k requires 0 <= k < |vs| => vs[k].item)
  }

  /** loadPlannerItems: a permutation of the plan's items, undated ones last,
      each with its own sessions. */
  function LoadPlannerItems(items: seq<PlanItem>, sessions: seq<SessionRow>, planId: int): (r: seq<ItemView>)
    ensures multiset(ItemsOf(r)) == multiset(ItemsOfPlan(items, planId))
    ensures SortedBy(ItemsOf(r), ItemKey)
    ensures forall k :: 0 <= k < |r| ==> r[k].item.planId == planId
    ensures forall k :: 0 <= k < |r| ==> r[k].sessions == SessionsByDate(sessions, r[k].item.id)
  {
    var sorted := SortBy(ItemsOfPlan(items, planId), ItemKey);
    var r := seq(|sorted|, k requires 0 <= k < |sorted| => ItemView(sorted[k], SessionsByDate(sessions, sorted[k].id)));
    assert ItemsOf(r) == sorted;
    assert forall k :: 0 <= k < |sorted| ==> sorted[k] in multiset(ItemsOfPlan(items, planId));
    r
  }
}
