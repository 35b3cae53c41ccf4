/**
 * Small lookup tables used around the planner: school levels
 * (normalize_level), the term-marks table a term name selects (termTableFor)
 * and the two-level classification of support tickets (createTicket).
 */
module Catalog {
  import opened Common
  import opened Authorization

  datatype Level = EarlyYears | Primary | Secondary

  function LevelName(l: Level): string
  {
    match l
    case EarlyYears => "EarlyYears"
    case Primary => "Primary"
    case Secondary => "Secondary"
  }

  predicate IsSeparator(c: char)
  {
    c == ' ' || c == '_' || c == '-'
  }

  /** `str_replace([' ', '_', '-'], '', $r)`. */
  function Compact(s: string): (r: string)
    ensures forall i :: 0 <= i < |r| ==> !IsSeparator(r[i])
    ensures |r| <= |s|
  {
    if s == [] then []
    else if IsSeparator(s[0]) then Compact(s[1..])
    else [s[0]] + Compact(s[1..])
  }

  /** The aliases each level accepts once lower-cased and compacted. */
  function LevelOfWord(w: string): (r: Option<Level>)
    ensures r == Some(EarlyYears) <==> w in {"earlyyears", "earlyyear", "ey"}
    ensures r == Some(Primary) <==> w in {"primary", "pri"}
    ensures r == Some(Secondary) <==> w in {"secondary", "sec"}
  {
    if w == "earlyyears" || w == "earlyyear" || w == "ey" then Some(EarlyYears)
    else if w == "primary" || w == "pri" then Some(Primary)
    else if w == "secondary" || w == "sec" then Some(Secondary)
    else None
  }

  /** normalize_level: trim, lower-case, drop spaces, underscores and dashes,
      then match an alias; anything else (and a missing value) is null. */
  function NormalizeLevel(raw: Option<string>): (r: Option<Level>)
    ensures raw.None? ==> r.None?
    ensures raw.Some? ==> r == LevelOfWord(Compact(Word(raw.value)))
  {
    match raw
    case None => None
    case Some(s) => LevelOfWord(Compact(Word(s)))
  }

  /** A separator anywhere in the text does not change its compacted form. */
  lemma {:induction false} CompactIgnoresSeparator(x: string, c: char, y: string)
    requires IsSeparator(c)
    ensures Compact(x + [c] + y) == Compact(x + y)
  {
    if x == [] {
      assert x + [c] + y == [c] + y && x + y == y;
      assert ([c] + y)[0] == c && ([c] + y)[1..] == y;
    } else {
      CompactIgnoresSeparator(x[1..], c, y);
      assert (x + [c] + y)[1..] == x[1..] + [c] + y;
      assert (x + y)[1..] == x[1..] + y;
    }
  }

  lemma {:induction false} CompactWithoutSeparators(s: string)
    requires forall i :: 0 <= i < |s| ==> !IsSeparator(s[i])
    ensures Compact(s) == s
  {
    if s != [] {
      CompactWithoutSeparators(s[1..]);
    }
  }

  /** The word of a level name: trimming leaves it alone and lower-casing gives `lower`. */
  lemma WordOfName(name: string, lower: string)
    requires name != [] && !IsTrimmable(name[0]) && !IsTrimmable(name[|name| - 1])
    requires |lower| == |name| && forall i :: 0 <= i < |name| ==> LowerChar(name[i]) == lower[i]
    ensures Word(name) == lower
  {
    assert TrimLeft(name) == name;
    assert TrimRight(name) == name;
  }

  /** A level's name, lower-cased. */
  function LowerName(l: Level): string
  {
    match l
    case EarlyYears => "earlyyears"
    case Primary => "primary"
    case Secondary => "secondary"
  }

  /** Reading a level's name as a word lower-cases it. */
  lemma WordOfLevelName(l: Level)
    ensures Word(LevelName(l)) == LowerName(l)
  {
    match l
    case EarlyYears => WordOfName(LevelName(l), LowerName(l));
    case Primary => WordOfName(LevelName(l), LowerName(l));
    case Secondary => WordOfName(LevelName(l), LowerName(l));
  }

  /** A lower-cased level name has nothing to compact. */
  lemma CompactLowerName(l: Level)
    ensures Compact(LowerName(l)) == LowerName(l)
  {
    match l
    case EarlyYears => CompactWithoutSeparators(LowerName(l));
    case Primary => CompactWithoutSeparators(LowerName(l));
    case Secondary => CompactWithoutSeparators(LowerName(l));
  }

  /** Every level's own name is accepted, so the normaliser is the inverse of LevelName. */
  lemma NormalizeLevelRoundTrip(l: Level)
    ensures NormalizeLevel(Some(LevelName(l))) == Some(l)
  {
    WordOfLevelName(l);
    CompactLowerName(l);
  }

  /** The two term-marks tables. */
  datatype TermTable = FirstTermMarks | FinalTermMarks

  /** termTableFor: first/mid names select the first-term table, final names
      the final-term table, after trimming and lower-casing; anything else is null. */
  function TermTableFor(termType: string): (r: Option<TermTable>)
    ensures r == Some(FirstTermMarks) <==> Word(termType) in {"first", "first_term", "mid", "mid_term"}
    ensures r == Some(FinalTermMarks) <==> Word(termType) in {"final", "final_term"}
  {
    var w := Word(termType);
    if w == "first" || w == "first_term" || w == "mid" || w == "mid_term" then Some(FirstTermMarks)
    else if w == "final" || w == "final_term" then Some(FinalTermMarks)
    else None
  }

  /** The second-level categories allowed under each first-level category. */
  function TicketSubcategories(level1: string): (r: seq<string>)
    ensures level1 !in {"request", "query", "complaint"} ==> r == []
  {
    if level1 == "request" then ["fee concession", "fines waiver"]
    else if level1 == "query" then ["subject related", "portal not working"]
    else if level1 == "complaint" then ["teacher", "student"]
    else []
  }

  datatype TicketPayload = TicketPayload(level1: string, level2: string, content: string)

  /** A category field as read: `isset($x) ? strtolower(trim($x)) : ''`. */
  function TicketWord(raw: Option<string>): string
  {
    if raw.Some? then Word(raw.value) else ""
  }

  /** The content as read: `isset($x) ? trim($x) : ''`. */
  function TicketText(raw: Option<string>): string
  {
    if raw.Some? then Trim(raw.value) else ""
  }

  /** A known (level1, level2) pair and non-blank content. */
  predicate ValidTicket(level1: string, level2: string, content: string)
  {
    level1 in {"request", "query", "complaint"} && content != "" && level2 in TicketSubcategories(level1)
  }

  /** createTicket's checks: only students (or a super admin) may file a ticket;
      such a ticket is accepted, with its fields as read, exactly when it is valid. */
  function CreateTicket(req: Requester, level1: Option<string>, level2: Option<string>, content: Option<string>): (r: Result<TicketPayload>)
    ensures !(RoleWord(req) == "student" || IsSuperAdmin(req)) ==> r == Err(Forbidden)
    ensures (RoleWord(req) == "student" || IsSuperAdmin(req))
            && ValidTicket(TicketWord(level1), TicketWord(level2), TicketText(content)) ==>
              r == Ok(TicketPayload(TicketWord(level1), TicketWord(level2), TicketText(content)))
    ensures (RoleWord(req) == "student" || IsSuperAdmin(req))
            && !ValidTicket(TicketWord(level1), TicketWord(level2), TicketText(content)) ==>
              r == Err(BadRequest)
    ensures r.Ok? ==> ValidTicket(r.value.level1, r.value.level2, r.value.content)
  {
    if !(RoleWord(req) == "student" || IsSuperAdmin(req)) then Err(Forbidden)
    else
      var l1 := TicketWord(level1);
      var l2 := TicketWord(level2);
      var body := TicketText(content);
      if l1 !in {"request", "query", "complaint"} || body == "" || l2 !in TicketSubcategories(l1) then Err(BadRequest)
      else Ok(TicketPayload(l1, l2, body))
  }

  /** An accepted ticket submitted again verbatim is accepted unchanged: the
      stored fields are already in the form the handler reads them into. */
  lemma CreateTicketResubmit(req: Requester, level1: Option<string>, level2: Option<string>, content: Option<string>)
    ensures var r := CreateTicket(req, level1, level2, content);
            r.Ok? ==> CreateTicket(req, Some(r.value.level1), Some(r.value.level2), Some(r.value.content)) == r
  {
    var r := CreateTicket(req, level1, level2, content);
    if r.Ok? {
      if level1.Some? { WordIdempotent(level1.value); }
      if level2.Some? { WordIdempotent(level2.value); }
      if content.Some? { TrimIdempotent(content.value); }
    }
  }
}
