/**
 * upsertPlannerSessions: the calendar occurrences of one plan item are
 * resynchronised from the request's `sessions` array.
 *
 * Each input whose date normalises is upserted on the unique key
 * (plan_item_id, session_date) — a new date is inserted, a known date gets
 * the new notes and status — and afterwards every session of the item whose
 * date was not among the processed ones is deleted (all of them when none was
 * processed).
 */
module Sessions {
  import opened Common
  import opened Enums
  import opened Rows

  /** One element of the request's `sessions` array; a missing or null field is None. */
  datatype SessionInput = SessionInput(date: Option<string>, notes: Option<string>, status: Option<string>)

  predicate SameKey(a: SessionRow, b: SessionRow)
  {
    a.itemId == b.itemId && a.date == b.date
  }

  /** The table's unique key (plan_item_id, session_date). */
  predicate Unique(rows: seq<SessionRow>)
  {
    forall i, j :: 0 <= i < j < |rows| ==> !SameKey(rows[i], rows[j])
  }

  /** The row one input asks for; None when its date is unset or does not parse (the loop's `continue`). */
  function CleanSession(itemId: int, s: SessionInput, parse: string -> Option<Date>): (r: Option<SessionRow>)
    ensures r.Some? <==> NormalizeDate(s.date, parse).Some?
    ensures r.Some? ==> r.value.itemId == itemId && NormalizeDate(s.date, parse) == Some(r.value.date)
    ensures r.Some? ==> r.value.notes == CleanText(s.notes)
    ensures r.Some? && s.status.Some? && ParseSessionStatus(Trim(s.status.value)).Some? ==>
              Some(r.value.status) == ParseSessionStatus(Trim(s.status.value))
    ensures r.Some? && (s.status.None? || ParseSessionStatus(Trim(s.status.value)).None?) ==>
              r.value.status == SessionScheduled
  {
    match NormalizeDate(s.date, parse)
    case None => None
    case Some(d) =>
      var word := if s.status.Some? then Trim(s.status.value) else "scheduled";
      var status := match ParseSessionStatus(word) case Some(st) => st case None => SessionScheduled;
      Some(SessionRow(itemId, d, CleanText(s.notes), status))
  }

  /** The rows the loop upserts, in input order. */
  function CleanSessions(itemId: int, inputs: seq<SessionInput>, parse: string -> Option<Date>): (ps: seq<SessionRow>)
    ensures forall k :: 0 <= k < |ps| ==> ps[k].itemId == itemId
    ensures |ps| <= |inputs|
  {
    if inputs == [] then []
    else
      var init := CleanSessions(itemId, inputs[..|inputs| - 1], parse);
      match CleanSession(itemId, inputs[|inputs| - 1], parse)
      case None => init
      case Some(r) => init + [r]
  }

  /** `INSERT ... ON DUPLICATE KEY UPDATE notes, status`. */
  function UpsertSession(rows: seq<SessionRow>, r: SessionRow): (res: seq<SessionRow>)
    requires Unique(rows)
    ensures Unique(res)
    ensures r in res
    ensures forall x :: x in res ==> x == r || (x in rows && !SameKey(x, r))
    ensures forall x :: x in rows && !SameKey(x, r) ==> x in res
  {
    if rows == [] then [r]
    else if SameKey(rows[0], r) then
      assert forall k :: 1 <= k < |rows| ==> !SameKey(rows[0], rows[k]);
      [r] + rows[1..]
    else
      var rest := UpsertSession(rows[1..], r);
      assert forall k :: 1 <= k < |rows| ==> !SameKey(rows[0], rows[k]);
      assert forall x :: x in rest ==> !SameKey(rows[0], x);
      assert rows == [rows[0]] + rows[1..];
      [rows[0]] + rest
  }

  /** The upserts of the loop, one after the other. */
  function UpsertAll(rows: seq<SessionRow>, ps: seq<SessionRow>): (res: seq<SessionRow>)
    requires Unique(rows)
    ensures Unique(res)
  {
    if ps == [] then rows else UpsertSession(UpsertAll(rows, ps[..|ps| - 1]), ps[|ps| - 1])
  }

  /** An input whose date does not normalise is skipped. */
  lemma CleanSessionsSkip(itemId: int, inputs: seq<SessionInput>, i: int, parse: string -> Option<Date>)
    requires 0 <= i < |inputs| && CleanSession(itemId, inputs[i], parse).None?
    ensures CleanSessions(itemId, inputs[..i + 1], parse) == CleanSessions(itemId, inputs[..i], parse)
  {
    assert inputs[..i + 1][..i] == inputs[..i];
  }

  /** An input whose date normalises adds its row. */
  lemma CleanSessionsTake(itemId: int, inputs: seq<SessionInput>, i: int, parse: string -> Option<Date>, row: SessionRow)
    requires 0 <= i < |inputs| && CleanSession(itemId, inputs[i], parse) == Some(row)
    ensures CleanSessions(itemId, inputs[..i + 1], parse) == CleanSessions(itemId, inputs[..i], parse) + [row]
  {
    assert inputs[..i + 1][..i] == inputs[..i];
  }

  /** One more processed row is one more upsert. */
  lemma UpsertAllStep(rows: seq<SessionRow>, ps: seq<SessionRow>, r: SessionRow)
    requires Unique(rows)
    ensures UpsertAll(rows, ps + [r]) == UpsertSession(UpsertAll(rows, ps), r)
  {
    assert (ps + [r])[..|ps|] == ps;
  }

  function DatesOf(ps: seq<SessionRow>): (ds: seq<Date>)
    ensures |ds| == |ps| && forall k :: 0 <= k < |ps| ==> ds[k] == ps[k].date
  {
    seq(|ps|, k requires 0 <= k < |ps| => ps[k].date)
  }

  lemma DatesOfAppend(ps: seq<SessionRow>, r: SessionRow)
    ensures DatesOf(ps + [r]) == DatesOf(ps) + [r.date]
  {
    assert forall k :: 0 <= k < |ps| ==> (ps + [r])[k] == ps[k];
  }

  /** `DELETE ... WHERE plan_item_id = ? AND session_date NOT IN (...)`. */
  function Prune(rows: seq<SessionRow>, itemId: int, dates: seq<Date>): (res: seq<SessionRow>)
    ensures forall x :: x in res <==> x in rows && (x.itemId != itemId || x.date in dates)
    ensures |res| <= |rows|
  {
    if rows == [] then []
    else
      var rest := Prune(rows[1..], itemId, dates);
      assert rows == [rows[0]] + rows[1..];
      if rows[0].itemId != itemId || rows[0].date in dates then [rows[0]] + rest else rest
  }

  /** A row whose key no row of a unique table shares can go in front of it. */
  lemma UniqueCons(x: SessionRow, rest: seq<SessionRow>)
    requires Unique(rest)
    requires forall y :: y in rest ==> !SameKey(x, y)
    ensures Unique([x] + rest)
  {
    var t := [x] + rest;
    forall i, j | 0 <= i < j < |t| ensures !SameKey(t[i], t[j]) {
      assert t[j] == rest[j - 1] && rest[j - 1] in rest;
      if i > 0 {
        assert t[i] == rest[i - 1];
      }
    }
  }

  lemma {:induction false} PruneUnique(rows: seq<SessionRow>, itemId: int, dates: seq<Date>)
    requires Unique(rows)
    ensures Unique(Prune(rows, itemId, dates))
  {
    if rows != [] {
      var tail := rows[1..];
      assert Unique(tail) by {
        forall i, j | 0 <= i < j < |tail| ensures !SameKey(tail[i], tail[j]) {
          assert tail[i] == rows[i + 1] && tail[j] == rows[j + 1];
        }
      }
      PruneUnique(tail, itemId, dates);
      var rest := Prune(tail, itemId, dates);
      if rows[0].itemId != itemId || rows[0].date in dates {
        forall y | y in rest ensures !SameKey(rows[0], y) {
          var k :| 0 <= k < |tail| && tail[k] == y;
          assert y == rows[k + 1];
        }
        UniqueCons(rows[0], rest);
      }
    }
  }

  /** The whole resync: the upserts, then the delete of the dates not processed. */
  function SyncSessions(rows: seq<SessionRow>, itemId: int, ps: seq<SessionRow>): (res: seq<SessionRow>)
    requires Unique(rows)
  {
    Prune(UpsertAll(rows, ps), itemId, DatesOf(ps))
  }

  /** The session each date ends up with: the last processed input for that date. */
  function Desired(ps: seq<SessionRow>): (m: map<Date, SessionRow>)
    ensures forall d :: d in m ==> m[d].date == d && m[d] in ps
  {
    if ps == [] then map[]
    else
      var m0 := Desired(ps[..|ps| - 1]);
      assert forall d :: d in m0 ==> m0[d] in ps;
      m0[ps[|ps| - 1].date := ps[|ps| - 1]]
  }

  /** The dates that survive are exactly the processed dates. */
  lemma {:induction false} DesiredDates(ps: seq<SessionRow>)
    ensures forall d :: d in Desired(ps) <==> d in DatesOf(ps)
  {
    if ps != [] {
      var init := ps[..|ps| - 1];
      DesiredDates(init);
      assert forall k :: 0 <= k < |init| ==> DatesOf(ps)[k] == DatesOf(init)[k];
      assert DatesOf(ps) == DatesOf(init) + [ps[|ps| - 1].date];
    }
  }

  /** Last write wins: a date's session carries the notes and status of the
      last input with that date. */
  lemma {:induction false} DesiredLast(ps: seq<SessionRow>, i: int)
    requires 0 <= i < |ps|
    requires forall j :: i < j < |ps| ==> ps[j].date != ps[i].date
    ensures ps[i].date in Desired(ps) && Desired(ps)[ps[i].date] == ps[i]
  {
    if i < |ps| - 1 {
      var init := ps[..|ps| - 1];
      DesiredLast(init, i);
    }
  }

  /** What the upserts alone leave behind. */
  lemma {:induction false} UpsertAllFacts(rows: seq<SessionRow>, itemId: int, ps: seq<SessionRow>)
    requires Unique(rows)
    requires forall k :: 0 <= k < |ps| ==> ps[k].itemId == itemId
    ensures var u := UpsertAll(rows, ps);
            && (forall d :: d in Desired(ps) ==> Desired(ps)[d] in u)
            && (forall x :: x in u && x.itemId == itemId && x.date in Desired(ps) ==> x == Desired(ps)[x.date])
            && (forall x :: x in u && (x.itemId != itemId || x.date !in Desired(ps)) ==> x in rows)
            && (forall x :: x in rows && x.itemId != itemId ==> x in u)
  {
    if ps != [] {
      var init := ps[..|ps| - 1];
      var last := ps[|ps| - 1];
      UpsertAllFacts(rows, itemId, init);
      var u0 := UpsertAll(rows, init);
      var u := UpsertSession(u0, last);
      assert u == UpsertAll(rows, ps);
      var m0 := Desired(init);
      var m := Desired(ps);
      assert m == m0[last.date := last];
      forall d | d in m
        ensures m[d] in u
      {
        if d != last.date {
          assert m[d] == m0[d] && m0[d] in u0;
          assert !SameKey(m0[d], last);
        }
      }
      forall x | x in u && x.itemId == itemId && x.date in m
        ensures x == m[x.date]
      {
        if x != last {
          assert x in u0 && !SameKey(x, last);
          assert x.date != last.date;
        }
      }
    }
  }

  /**
   * After the resync the item's sessions are exactly the processed dates,
   * each with the row its last input asked for, and the sessions of every
   * other item are untouched. The table stays unique on (item, date).
   */
  lemma SyncSessionsExact(rows: seq<SessionRow>, itemId: int, ps: seq<SessionRow>)
    requires Unique(rows)
    requires forall k :: 0 <= k < |ps| ==> ps[k].itemId == itemId
    ensures var res := SyncSessions(rows, itemId, ps);
            && Unique(res)
            && (forall d :: d in Desired(ps) <==> d in DatesOf(ps))
            && (forall d :: d in Desired(ps) ==> Desired(ps)[d] in res)
            && (forall x :: x in res && x.itemId == itemId ==> x.date in Desired(ps) && x == Desired(ps)[x.date])
            && (forall x: SessionRow :: x.itemId != itemId ==> (x in res <==> x in rows))
  {
    UpsertAllFacts(rows, itemId, ps);
    DesiredDates(ps);
    PruneUnique(UpsertAll(rows, ps), itemId, DatesOf(ps));
  }

  /** Every upserted row comes from an input whose date normalises. */
  lemma {:induction false} CleanSessionsSound(itemId: int, inputs: seq<SessionInput>, parse: string -> Option<Date>, x: SessionRow)
    requires x in CleanSessions(itemId, inputs, parse)
    ensures exists i :: 0 <= i < |inputs| && CleanSession(itemId, inputs[i], parse) == Some(x)
  {
    if inputs != [] {
      var n := |inputs| - 1;
      var init := inputs[..n];
      if x in CleanSessions(itemId, init, parse) {
        CleanSessionsSound(itemId, init, parse, x);
        var i :| 0 <= i < |init| && CleanSession(itemId, init[i], parse) == Some(x);
        assert init[i] == inputs[i];
      } else {
        assert CleanSession(itemId, inputs[n], parse) == Some(x);
      }
    }
  }

  /** Every input whose date normalises is upserted. */
  lemma {:induction false} CleanSessionsComplete(itemId: int, inputs: seq<SessionInput>, parse: string -> Option<Date>, i: int, x: SessionRow)
    requires 0 <= i < |inputs| && CleanSession(itemId, inputs[i], parse) == Some(x)
    ensures x in CleanSessions(itemId, inputs, parse)
  {
    var n := |inputs| - 1;
    var init := inputs[..n];
    if i == n {
      CleanSessionsTake(itemId, inputs, n, parse, x);
      assert inputs[..n + 1] == inputs;
    } else {
      assert init[i] == inputs[i];
      CleanSessionsComplete(itemId, init, parse, i, x);
      assert inputs[..n + 1] == inputs;
      match CleanSession(itemId, inputs[n], parse)
      case None => CleanSessionsSkip(itemId, inputs, n, parse);
      case Some(r) => CleanSessionsTake(itemId, inputs, n, parse, r);
    }
  }

  /** The rows the loop upserts are exactly the rows of the inputs whose date normalises. */
  lemma CleanSessionsMembers(itemId: int, inputs: seq<SessionInput>, parse: string -> Option<Date>)
    ensures forall x :: x in CleanSessions(itemId, inputs, parse) <==>
              exists i :: 0 <= i < |inputs| && CleanSession(itemId, inputs[i], parse) == Some(x)
  {
    forall x | x in CleanSessions(itemId, inputs, parse)
      ensures exists i :: 0 <= i < |inputs| && CleanSession(itemId, inputs[i], parse) == Some(x)
    {
      CleanSessionsSound(itemId, inputs, parse, x);
    }
    forall x, i | 0 <= i < |inputs| && CleanSession(itemId, inputs[i], parse) == Some(x)
      ensures x in CleanSessions(itemId, inputs, parse)
    {
      CleanSessionsComplete(itemId, inputs, parse, i, x);
    }
  }

  /** A date is processed exactly when some input's date normalises to it. */
  lemma ProcessedDates(itemId: int, inputs: seq<SessionInput>, parse: string -> Option<Date>, d: Date)
    ensures d in DatesOf(CleanSessions(itemId, inputs, parse)) <==>
              exists i :: 0 <= i < |inputs| && NormalizeDate(inputs[i].date, parse) == Some(d)
  {
    var ps := CleanSessions(itemId, inputs, parse);
    CleanSessionsMembers(itemId, inputs, parse);
    if d in DatesOf(ps) {
      var k :| 0 <= k < |ps| && DatesOf(ps)[k] == d;
      assert ps[k] in ps;
      var i :| 0 <= i < |inputs| && CleanSession(itemId, inputs[i], parse) == Some(ps[k]);
      assert NormalizeDate(inputs[i].date, parse) == Some(d);
    }
    if exists i :: 0 <= i < |inputs| && NormalizeDate(inputs[i].date, parse) == Some(d) {
      var i :| 0 <= i < |inputs| && NormalizeDate(inputs[i].date, parse) == Some(d);
      var r := CleanSession(itemId, inputs[i], parse).value;
      assert r in ps;
      var k :| 0 <= k < |ps| && ps[k] == r;
      assert DatesOf(ps)[k] == d;
    }
  }

  /** After upsertPlannerSessions the item has a session on a date exactly when
      some input's date normalises to it. */
  lemma SyncedDatesFromInputs(rows: seq<SessionRow>, itemId: int, inputs: seq<SessionInput>,
                              parse: string -> Option<Date>, d: Date)
    requires Unique(rows)
    ensures var res := SyncSessions(rows, itemId, CleanSessions(itemId, inputs, parse));
            (exists x :: x in res && x.itemId == itemId && x.date == d) <==>
              exists i :: 0 <= i < |inputs| && NormalizeDate(inputs[i].date, parse) == Some(d)
  {
    var ps := CleanSessions(itemId, inputs, parse);
    var res := SyncSessions(rows, itemId, ps);
    SyncSessionsExact(rows, itemId, ps);
    ProcessedDates(itemId, inputs, parse, d);
    if d in DatesOf(ps) {
      var x := Desired(ps)[d];
      assert x in ps;
      assert x in res && x.itemId == itemId && x.date == d;
    }
  }

  /** An empty (or wholly unparseable) `sessions` array deletes every session of the item. */
  lemma SyncSessionsEmpty(rows: seq<SessionRow>, itemId: int)
    requires Unique(rows)
    ensures forall x :: x in SyncSessions(rows, itemId, []) <==> x in rows && x.itemId != itemId
  {
  }
}
