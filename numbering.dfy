/**
 * Class assessment rows and their sequence numbers
 * (upsertClassAssignmentForPlanItem / upsertClassQuizForPlanItem).
 *
 * A number is scoped to (class_id, subject_id): a new row gets
 * `COALESCE(MAX(number), 0) + 1` of its scope, and a row already linked to the
 * plan item keeps its number and only has its name, description, deadline
 * and status rewritten.
 */
module Numbering {
  import opened Common
  import opened Enums
  import opened Rows

  predicate InScope(r: ClassRow, classId: int, subjectId: int)
  {
    r.classId == classId && r.subjectId == subjectId
  }

  /** Numbers are unique within each (class, subject) scope. */
  predicate NumbersUnique(rows: seq<ClassRow>)
  {
    forall i, j :: 0 <= i < j < |rows| && rows[i].classId == rows[j].classId && rows[i].subjectId == rows[j].subjectId
      ==> rows[i].number != rows[j].number
  }

  /** Row ids are distinct, positive and below the next auto-increment value. */
  predicate IdsBelow(rows: seq<ClassRow>, nextId: int)
  {
    0 < nextId
    && (forall i :: 0 <= i < |rows| ==> 0 < rows[i].id < nextId)
    && (forall i, j :: 0 <= i < j < |rows| ==> rows[i].id != rows[j].id)
  }

  /** Rows that keep their ids, numbers and scopes keep both invariants. */
  lemma SameKeysKeepInvariants(rows: seq<ClassRow>, r: seq<ClassRow>, nextId: int)
    requires NumbersUnique(rows) && IdsBelow(rows, nextId)
    requires |r| == |rows|
    requires forall i :: 0 <= i < |rows| ==>
               r[i].id == rows[i].id && r[i].number == rows[i].number
               && r[i].classId == rows[i].classId && r[i].subjectId == rows[i].subjectId
    ensures NumbersUnique(r) && IdsBelow(r, nextId)
  {
  }

  /** Appending a row with the next id and a number free in its scope keeps both invariants. */
  lemma AppendKeepsInvariants(rows: seq<ClassRow>, nextId: int, x: ClassRow)
    requires NumbersUnique(rows) && IdsBelow(rows, nextId)
    requires x.id == nextId
    requires forall y :: y in rows && InScope(y, x.classId, x.subjectId) ==> y.number != x.number
    ensures NumbersUnique(rows + [x]) && IdsBelow(rows + [x], nextId + 1)
  {
    var r := rows + [x];
    forall i, j | 0 <= i < j < |r|
      ensures r[i].id != r[j].id
      ensures r[i].classId == r[j].classId && r[i].subjectId == r[j].subjectId ==> r[i].number != r[j].number
    {
      assert r[i] == rows[i];
      if j == |rows| {
        assert r[j] == x && rows[i] in rows;
      } else {
        assert r[j] == rows[j];
      }
    }
    assert forall i :: 0 <= i < |rows| ==> r[i] == rows[i];
  }

  /** `MAX(number)` over a scope, null when the scope is empty. */
  function MaxNumber(rows: seq<ClassRow>, classId: int, subjectId: int): (m: Option<int>)
    ensures m.None? <==> forall r :: r in rows ==> !InScope(r, classId, subjectId)
    ensures m.Some? ==> forall r :: r in rows && InScope(r, classId, subjectId) ==> r.number <= m.value
    ensures m.Some? ==> exists r :: r in rows && InScope(r, classId, subjectId) && r.number == m.value
  {
    if rows == [] then None
    else
      var rest := MaxNumber(rows[1..], classId, subjectId);
      assert rows == [rows[0]] + rows[1..];
      if !InScope(rows[0], classId, subjectId) then rest
      else if rest.None? || rest.value < rows[0].number then Some(rows[0].number)
      else rest
  }

  /** `COALESCE(MAX(number), 0) + 1`. */
  function NextNumber(rows: seq<ClassRow>, classId: int, subjectId: int): (n: int)
    ensures forall r :: r in rows && InScope(r, classId, subjectId) ==> r.number < n
    ensures (forall r :: r in rows ==> !InScope(r, classId, subjectId)) ==> n == 1
    ensures (exists r :: r in rows && InScope(r, classId, subjectId)) ==>
              exists r :: r in rows && InScope(r, classId, subjectId) && r.number == n - 1
  {
    match MaxNumber(rows, classId, subjectId)
    case None => 1
    case Some(m) => m + 1
  }

  /** `SELECT ... WHERE plan_item_id = ? LIMIT 1`: the first row linked to the item (in any scope). */
  function FindLinked(rows: seq<ClassRow>, itemId: int): (i: Option<nat>)
    ensures i.Some? ==> i.value < |rows| && rows[i.value].planItemId == Some(itemId)
    ensures i.Some? ==> forall k :: 0 <= k < i.value ==> rows[k].planItemId != Some(itemId)
    ensures i.None? ==> forall k :: 0 <= k < |rows| ==> rows[k].planItemId != Some(itemId)
  {
    if rows == [] then None
    else if rows[0].planItemId == Some(itemId) then Some(0)
    else match FindLinked(rows[1..], itemId)
      case None => None
      case Some(k) => Some(k + 1)
  }

  /** `$title ?: ($text ?: 'Assignment')` (or `'Quiz'`): never null. */
  function RowName(k: Kind, title: Option<string>, text: Option<string>): (name: string)
    ensures Truthy(title) ==> name == title.value
    ensures !Truthy(title) && Truthy(text) ==> name == text.value
    ensures !Truthy(title) && !Truthy(text) ==> name == (if k == AssignmentKind then "Assignment" else "Quiz")
  {
    Elvis(title, Elvis(text, Some(if k == AssignmentKind then "Assignment" else "Quiz"))).value
  }

  /** The outcome of the upsert: the new table, the next auto-increment id and
      the `[number, id]` pair the PHP function returns. */
  datatype Upserted = Upserted(rows: seq<ClassRow>, nextId: int, number: Option<int>, rowId: Option<int>)

  /**
   * The class row an assessment-type plan item is mirrored to. Non-positive
   * ids return `[null, null]` and change nothing. A row already linked to the
   * item keeps its id, number, scope and link, only its name, description,
   * deadline and status are rewritten, and no other row changes. Otherwise a
   * row is appended in the plan's scope with the next number of that scope,
   * the same name, description, deadline and status, no completion, no
   * teacher and no author.
   */
  function UpsertForPlanItem(k: Kind, rows: seq<ClassRow>, nextId: int, classId: int, subjectId: int, itemId: int,
                             title: Option<string>, text: Option<string>, deadline: Option<DateTime>, status: ItemStatus): (u: Upserted)
    ensures classId <= 0 || subjectId <= 0 || itemId <= 0 ==> u == Upserted(rows, nextId, None, None)
    ensures classId > 0 && subjectId > 0 && itemId > 0 && FindLinked(rows, itemId).Some? ==>
              var i := FindLinked(rows, itemId).value;
              && |u.rows| == |rows| && u.nextId == nextId
              && u.number == Some(rows[i].number) && u.rowId == Some(rows[i].id)
              && u.rows[i] == rows[i].(name := RowName(k, title, text), description := Elvis(text, None), deadline := deadline, status := status)
              && (forall j :: 0 <= j < |rows| && j != i ==> u.rows[j] == rows[j])
    ensures classId > 0 && subjectId > 0 && itemId > 0 && FindLinked(rows, itemId).None? ==>
              && |u.rows| == |rows| + 1 && u.rows[..|rows|] == rows
              && u.number == Some(NextNumber(rows, classId, subjectId)) && u.rowId == Some(nextId) && u.nextId == nextId + 1
              && u.rows[|rows|] == ClassRow(nextId, classId, subjectId, Some(itemId), NextNumber(rows, classId, subjectId),
                                            RowName(k, title, text), Elvis(text, None), deadline, status, None, None, None)
  {
    if classId <= 0 || subjectId <= 0 || itemId <= 0 then Upserted(rows, nextId, None, None)
    else
      var name := RowName(k, title, text);
      var desc := Elvis(text, None);
      match FindLinked(rows, itemId)
      case Some(i) =>
        var r := rows[i];
        Upserted(rows[i := r.(name := name, description := desc, deadline := deadline, status := status)],
                 nextId, Some(r.number), Some(r.id))
      case None =>
        var n := NextNumber(rows, classId, subjectId);
        Upserted(rows + [ClassRow(nextId, classId, subjectId, Some(itemId), n, name, desc, deadline, status, None, None, None)],
                 nextId + 1, Some(n), Some(nextId))
  }

  /** The upsert keeps numbers unique per scope and ids distinct. */
  lemma UpsertKeepsInvariants(k: Kind, rows: seq<ClassRow>, nextId: int, classId: int, subjectId: int, itemId: int,
                              title: Option<string>, text: Option<string>, deadline: Option<DateTime>, status: ItemStatus)
    requires NumbersUnique(rows) && IdsBelow(rows, nextId)
    ensures var u := UpsertForPlanItem(k, rows, nextId, classId, subjectId, itemId, title, text, deadline, status);
            NumbersUnique(u.rows) && IdsBelow(u.rows, u.nextId)
  {
    var u := UpsertForPlanItem(k, rows, nextId, classId, subjectId, itemId, title, text, deadline, status);
    if classId > 0 && subjectId > 0 && itemId > 0 {
      if FindLinked(rows, itemId).Some? {
        SameKeysKeepInvariants(rows, u.rows, nextId);
      } else {
        assert u.rows == rows + [u.rows[|rows|]];
        AppendKeepsInvariants(rows, nextId, u.rows[|rows|]);
      }
    }
  }

  /** Saving the same item twice yields the same number and the same row: the
      number is stable once assigned. */
  lemma NumberStable(k: Kind, rows: seq<ClassRow>, nextId: int, classId: int, subjectId: int, itemId: int,
                     title: Option<string>, text: Option<string>, deadline: Option<DateTime>, status: ItemStatus,
                     title2: Option<string>, text2: Option<string>, deadline2: Option<DateTime>, status2: ItemStatus)
    ensures var u1 := UpsertForPlanItem(k, rows, nextId, classId, subjectId, itemId, title, text, deadline, status);
            var u2 := UpsertForPlanItem(k, u1.rows, u1.nextId, classId, subjectId, itemId, title2, text2, deadline2, status2);
            u2.number == u1.number && u2.rowId == u1.rowId && |u2.rows| == |u1.rows|
  {
    var u1 := UpsertForPlanItem(k, rows, nextId, classId, subjectId, itemId, title, text, deadline, status);
    if classId > 0 && subjectId > 0 && itemId > 0 {
      match FindLinked(rows, itemId)
      case Some(i) =>
        assert FindLinked(u1.rows, itemId) == Some(i) by {
          assert forall j :: 0 <= j < |rows| ==> u1.rows[j].planItemId == rows[j].planItemId;
        }
      case None =>
        assert FindLinked(u1.rows, itemId) == Some(|rows|) by {
          assert forall j :: 0 <= j < |rows| ==> u1.rows[j].planItemId == rows[j].planItemId;
          assert u1.rows[|rows|].planItemId == Some(itemId);
        }
    }
  }
}
