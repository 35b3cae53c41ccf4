/**
 * The per-student assessment rows (student_assignments / student_quizzes):
 * the mirror that syncPlannerItemToStudentTables rebuilds from the class
 * roster, the coverage propagation of syncLinkedAssessmentCoverage, the
 * detachment done by deletePlannerItem, the completion update of
 * upsertAssessmentCompletion and the marks summary of
 * fetchAssessmentMarksSummary.
 *
 * Marks (obtained_marks, graded_at) are managed elsewhere; the sync never
 * writes them.
 */
module Mirror {
  import opened Common
  import opened Enums
  import opened Rows

  /** The rows the mirror's `DELETE ... WHERE plan_item_id = ?` keeps, in table order. */
  function Unlinked(rows: seq<StudentRow>, itemId: int): (r: seq<StudentRow>)
    ensures |r| <= |rows|
  {
    if rows == [] then []
    else
      var rest := Unlinked(rows[1..], itemId);
      if rows[0].planItemId != Some(itemId) then [rows[0]] + rest else rest
  }

  /** The rows linked to the item, in table order. */
  function LinkedTo(rows: seq<StudentRow>, itemId: int): (r: seq<StudentRow>)
    ensures |r| <= |rows|
  {
    if rows == [] then []
    else
      var rest := LinkedTo(rows[1..], itemId);
      if rows[0].planItemId == Some(itemId) then [rows[0]] + rest else rest
  }

  /** The rows kept by each filter are exactly the rows of the table on its side of the link. */
  lemma {:induction false} FilterMembers(rows: seq<StudentRow>, itemId: int)
    ensures forall x :: x in Unlinked(rows, itemId) <==> x in rows && x.planItemId != Some(itemId)
    ensures forall x :: x in LinkedTo(rows, itemId) <==> x in rows && x.planItemId == Some(itemId)
  {
    if rows != [] {
      FilterMembers(rows[1..], itemId);
      assert rows == [rows[0]] + rows[1..];
    }
  }

  /** Filtering a table made of rows not linked to the item followed by rows
      linked to it gives back the two parts. */
  lemma {:induction false} FiltersOfSplit(u: seq<StudentRow>, l: seq<StudentRow>, itemId: int)
    requires forall k :: 0 <= k < |u| ==> u[k].planItemId != Some(itemId)
    requires forall k :: 0 <= k < |l| ==> l[k].planItemId == Some(itemId)
    ensures Unlinked(u + l, itemId) == u && LinkedTo(u + l, itemId) == l
  {
    if u == [] {
      assert u + l == l;
      FiltersOfLinked(l, itemId);
    } else {
      FiltersOfSplit(u[1..], l, itemId);
      assert (u + l)[0] == u[0] && (u + l)[1..] == u[1..] + l;
      assert u == [u[0]] + u[1..];
    }
  }

  lemma {:induction false} FiltersOfLinked(rows: seq<StudentRow>, itemId: int)
    requires forall k :: 0 <= k < |rows| ==> rows[k].planItemId == Some(itemId)
    ensures Unlinked(rows, itemId) == [] && LinkedTo(rows, itemId) == rows
  {
    if rows != [] {
      FiltersOfLinked(rows[1..], itemId);
      assert rows == [rows[0]] + rows[1..];
    }
  }

  /** What the class's assessment-type plan item is mirrored as. `text` is the
      description (assignments) or topic (quizzes); `deadline` is the item's
      scheduled_for. */
  datatype MirrorSource = MirrorSource(
    classId: int,
    subjectId: int,
    itemId: int,
    number: Option<int>,
    title: Option<string>,
    text: Option<string>,
    deadline: Option<DateTime>,
    status: ItemStatus)

  /** The row inserted for one student. */
  function MirrorRow(m: MirrorSource, studentId: int, now: DateTime): StudentRow
    requires m.number.Some?
  {
    StudentRow(m.classId, m.subjectId, studentId, m.number, NonEmptyOrNull(m.title), NonEmptyOrNull(m.text),
               m.deadline, Some(m.itemId), m.status, None, None, now)
  }

  /** The rows the insert loop adds, one per roster entry, in roster order. */
  function MirrorRows(m: MirrorSource, roster: seq<int>, now: DateTime): (r: seq<StudentRow>)
    requires m.number.Some?
    ensures |r| == |roster|
    ensures forall k :: 0 <= k < |r| ==> r[k] == MirrorRow(m, roster[k], now)
  {
    if roster == [] then [] else MirrorRows(m, roster[..|roster| - 1], now) + [MirrorRow(m, roster[|roster| - 1], now)]
  }

  /** Whether the mirror goes ahead: valid ids, a non-empty roster and a number. */
  predicate MirrorApplies(m: MirrorSource, roster: seq<int>)
  {
    m.classId > 0 && m.subjectId > 0 && m.itemId > 0 && roster != [] && m.number.Some?
  }

  /**
   * syncPlannerItemToStudentTables on one student table: the old mirrors of
   * the item are deleted and one row per roster student is appended. With an
   * invalid id, an empty roster or no number the function returns before
   * touching anything.
   */
  function SyncMirror(rows: seq<StudentRow>, m: MirrorSource, roster: seq<int>, now: DateTime): (r: seq<StudentRow>)
    ensures !MirrorApplies(m, roster) ==> r == rows
  {
    if !MirrorApplies(m, roster) then rows
    else Unlinked(rows, m.itemId) + MirrorRows(m, roster, now)
  }

  /** A sync that applies leaves the untouched rows in front and the mirror behind. */
  lemma {:induction false} MirrorSplit(rows: seq<StudentRow>, m: MirrorSource, roster: seq<int>, now: DateTime)
    requires MirrorApplies(m, roster)
    ensures var r := SyncMirror(rows, m, roster, now);
            LinkedTo(r, m.itemId) == MirrorRows(m, roster, now) && Unlinked(r, m.itemId) == Unlinked(rows, m.itemId)
  {
    var id := m.itemId;
    var u := Unlinked(rows, id);
    var mr := MirrorRows(m, roster, now);
    assert forall k :: 0 <= k < |mr| ==> mr[k].planItemId == Some(id);
    assert forall k :: 0 <= k < |u| ==> u[k].planItemId != Some(id) by {
      FilterMembers(rows, id);
      assert forall k :: 0 <= k < |u| ==> u[k] in u;
    }
    FiltersOfSplit(u, mr, id);
    assert SyncMirror(rows, m, roster, now) == u + mr;
  }

  /** After a sync that applies, the rows linked to the item are exactly one
      freshly built row per roster entry (marks empty, coverage = the item's
      status), and the rows linked to anything else are the old ones, in the
      old order. */
  lemma MirrorExact(rows: seq<StudentRow>, m: MirrorSource, roster: seq<int>, now: DateTime)
    requires MirrorApplies(m, roster)
    ensures var r := SyncMirror(rows, m, roster, now);
            && LinkedTo(r, m.itemId) == MirrorRows(m, roster, now)
            && Unlinked(r, m.itemId) == Unlinked(rows, m.itemId)
            && |LinkedTo(r, m.itemId)| == |roster|
            && (forall k :: 0 <= k < |roster| ==>
                  var x := LinkedTo(r, m.itemId)[k];
                  x.studentId == roster[k] && x.number == m.number && x.coverage == m.status
                  && x.obtainedMarks.None? && x.gradedAt.None?)
  {
    MirrorSplit(rows, m, roster, now);
  }

  /** Re-running the sync with the same inputs changes nothing. */
  lemma MirrorIdempotent(rows: seq<StudentRow>, m: MirrorSource, roster: seq<int>, now: DateTime)
    ensures SyncMirror(SyncMirror(rows, m, roster, now), m, roster, now) == SyncMirror(rows, m, roster, now)
  {
    if MirrorApplies(m, roster) {
      MirrorSplit(rows, m, roster, now);
    }
  }

  /** An empty roster leaves the previous mirrors in place, however stale. */
  lemma EmptyRosterKeepsStaleMirrors(rows: seq<StudentRow>, m: MirrorSource, now: DateTime)
    ensures LinkedTo(SyncMirror(rows, m, [], now), m.itemId) == LinkedTo(rows, m.itemId)
  {
  }

  /** syncLinkedAssessmentCoverage on one student table: the coverage of every
      row linked to the item becomes the status; an empty status is a no-op. */
  function SetCoverage(rows: seq<StudentRow>, itemId: int, status: Option<ItemStatus>): (r: seq<StudentRow>)
    ensures |r| == |rows|
    ensures status.None? ==> r == rows
    ensures forall k :: 0 <= k < |rows| && rows[k].planItemId == Some(itemId) && status.Some? ==>
              r[k] == rows[k].(coverage := status.value)
    ensures forall k :: 0 <= k < |rows| && rows[k].planItemId != Some(itemId) ==> r[k] == rows[k]
  {
    if status.None? then rows
    else seq(|rows|, k requires 0 <= k < |rows| =>
               if rows[k].planItemId == Some(itemId) then rows[k].(coverage := status.value) else rows[k])
  }

  /** deletePlannerItem on one student table: rows linked to the item lose the
      link and fall back to `scheduled`; marks and every other column stay. */
  function Detach(rows: seq<StudentRow>, itemId: int): (r: seq<StudentRow>)
    ensures |r| == |rows|
    ensures forall k :: 0 <= k < |rows| ==> r[k].planItemId != Some(itemId)
    ensures forall k :: 0 <= k < |rows| ==>
              r[k].obtainedMarks == rows[k].obtainedMarks && r[k].gradedAt == rows[k].gradedAt
              && r[k].studentId == rows[k].studentId && r[k].number == rows[k].number
    ensures forall k :: 0 <= k < |rows| && rows[k].planItemId == Some(itemId) ==>
              r[k] == rows[k].(planItemId := None, coverage := Scheduled)
    ensures forall k :: 0 <= k < |rows| && rows[k].planItemId != Some(itemId) ==> r[k] == rows[k]
  {
    seq(|rows|, k requires 0 <= k < |rows| =>
          if rows[k].planItemId == Some(itemId) then rows[k].(planItemId := None, coverage := Scheduled) else rows[k])
  }

  /** A detached row is no longer a mirror: later syncs of the item leave it alone. */
  lemma DetachedRowsSurviveSync(rows: seq<StudentRow>, m: MirrorSource, roster: seq<int>, now: DateTime)
    ensures forall x :: x in Detach(rows, m.itemId) ==> x in SyncMirror(Detach(rows, m.itemId), m, roster, now)
  {
    FilterMembers(Detach(rows, m.itemId), m.itemId);
  }

  predicate InGroup(x: StudentRow, classId: int, subjectId: int, number: int)
  {
    x.classId == classId && x.subjectId == subjectId && x.number == Some(number)
  }

  /** upsertAssessmentCompletion on one student table: the rows of the number
      get the status as coverage, and `graded_at` is filled in (never
      replaced) when the status is `covered`. */
  function CompleteStudentRows(rows: seq<StudentRow>, classId: int, subjectId: int, number: int,
                               status: ItemStatus, completedAt: Option<DateTime>): (r: seq<StudentRow>)
    ensures |r| == |rows|
    ensures forall k :: 0 <= k < |rows| ==> r[k].obtainedMarks == rows[k].obtainedMarks
    ensures forall k :: 0 <= k < |rows| && rows[k].gradedAt.Some? ==> r[k].gradedAt == rows[k].gradedAt
    ensures forall k :: 0 <= k < |rows| && InGroup(rows[k], classId, subjectId, number) ==>
              r[k].coverage == status
              && r[k].gradedAt == (if status == Covered then Coalesce(rows[k].gradedAt, completedAt) else rows[k].gradedAt)
              && r[k] == rows[k].(coverage := r[k].coverage, gradedAt := r[k].gradedAt)
    ensures forall k :: 0 <= k < |rows| && !InGroup(rows[k], classId, subjectId, number) ==> r[k] == rows[k]
  {
    seq(|rows|, k requires 0 <= k < |rows| =>
          if InGroup(rows[k], classId, subjectId, number) then
            rows[k].(coverage := status, gradedAt := if status == Covered then Coalesce(rows[k].gradedAt, completedAt) else rows[k].gradedAt)
          else rows[k])
  }

  // ---------------------------------------------------------------------
  // Marks summary (fetchAssessmentMarksSummary)
  // ---------------------------------------------------------------------

  /** The rows of one number of a (class, subject): one `GROUP BY` group. */
  function Group(rows: seq<StudentRow>, classId: int, subjectId: int, number: int): (g: seq<StudentRow>)
    ensures forall x :: x in g <==> x in rows && InGroup(x, classId, subjectId, number)
    ensures |g| <= |rows|
  {
    if rows == [] then []
    else
      var rest := Group(rows[1..], classId, subjectId, number);
      assert rows == [rows[0]] + rows[1..];
      if InGroup(rows[0], classId, subjectId, number) then [rows[0]] + rest else rest
  }

  /** `SUM(CASE WHEN obtained_marks IS NOT NULL THEN 1 ELSE 0 END)`. */
  function GradedCount(g: seq<StudentRow>): (n: nat)
    ensures n <= |g|
    ensures n == |g| <==> forall k :: 0 <= k < |g| ==> g[k].obtainedMarks.Some?
    ensures n == 0 <==> forall k :: 0 <= k < |g| ==> g[k].obtainedMarks.None?
  {
    if g == [] then 0
    else (if g[0].obtainedMarks.Some? then 1 else 0) + GradedCount(g[1..])
  }

  /** `MAX(updated_at)`. */
  function LatestUpdate(g: seq<StudentRow>): (t: DateTime)
    requires g != []
    ensures forall k :: 0 <= k < |g| ==> g[k].updatedAt <= t
    ensures exists k :: 0 <= k < |g| && g[k].updatedAt == t
  {
    if |g| == 1 then g[0].updatedAt
    else
      var rest := LatestUpdate(g[1..]);
      assert forall k :: 1 <= k < |g| ==> g[k] == g[1..][k - 1];
      if g[0].updatedAt >= rest then g[0].updatedAt else rest
  }

  datatype MarksSummary = MarksSummary(studentCount: nat, gradedCount: nat, updatedAt: DateTime)

  /** The summary of one number; a number with no student row has none (`isset` fails). */
  function SummaryFor(rows: seq<StudentRow>, classId: int, subjectId: int, number: int): (s: Option<MarksSummary>)
    ensures s.None? <==> forall x :: x in rows ==> !InGroup(x, classId, subjectId, number)
    ensures s.Some? ==> 0 < s.value.studentCount && s.value.gradedCount <= s.value.studentCount
    ensures s.Some? ==> s.value.studentCount == |Group(rows, classId, subjectId, number)|
    ensures s.Some? ==> s.value.gradedCount == GradedCount(Group(rows, classId, subjectId, number))
    ensures s.Some? ==> Group(rows, classId, subjectId, number) != []
                        && s.value.updatedAt == LatestUpdate(Group(rows, classId, subjectId, number))
  {
    var g := Group(rows, classId, subjectId, number);
    if g == [] then None
    else
      assert g[0] in g;
      Some(MarksSummary(|g|, GradedCount(g), LatestUpdate(g)))
  }
}
