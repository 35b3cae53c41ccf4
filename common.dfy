/**
 * Shared vocabulary of the planner model: optional values, request fields,
 * the text helpers the handlers apply to every string input (PHP's `trim`,
 * `strtolower` and the truthiness of `?:`), and the date normaliser.
 *
 * Dates and datetimes are modelled by their canonical values: an `int` that
 * orders exactly as the canonical 'Y-m-d H:i:s' / 'Y-m-d' text does. Parsing
 * free text into such a value (PHP's strtotime/date) is foreign code; it is a
 * parameter of every operation that needs it.
 */
module Common {

  datatype Option<T> = None | Some(value: T)

  /** The handlers' error responses: 400, 403, 404 and 409. Store failures
      (500) are not modelled: every call is atomic. */
  datatype Error = BadRequest | Forbidden | NotFound | Conflict

  datatype Result<T> = Ok(value: T) | Err(error: Error)

  /** A request field tested with `array_key_exists`: a key can be missing,
      present with JSON null, or present with a value. */
  datatype Key<T> = Missing | Given(value: Option<T>)

  /** Canonical datetime, ordered as time. */
  type DateTime = int

  /** Canonical calendar date, ordered as time. */
  type Date = int

  // ---------------------------------------------------------------------
  // PHP text helpers
  // ---------------------------------------------------------------------

  /** The characters PHP's `trim` strips by default: space, \t, \n, \r, \0, \x0B. */
  predicate IsTrimmable(c: char)
  {
    c == ' ' || c == '\t' || c == '\n' || c == '\r' || c == 0 as char || c == 11 as char
  }

  function TrimLeft(s: string): (r: string)
    ensures |r| <= |s| && r == s[|s| - |r|..]
    ensures r == [] || !IsTrimmable(r[0])
    ensures forall i :: 0 <= i < |s| - |r| ==> IsTrimmable(s[i])
  {
    if s != [] && IsTrimmable(s[0]) then TrimLeft(s[1..]) else s
  }

  function TrimRight(s: string): (r: string)
    ensures |r| <= |s| && r == s[..|r|]
    ensures r == [] || !IsTrimmable(r[|r| - 1])
    ensures forall i :: |r| <= i < |s| ==> IsTrimmable(s[i])
  {
    if s != [] && IsTrimmable(s[|s| - 1]) then TrimRight(s[..|s| - 1]) else s
  }

  /** PHP `trim`: the longest infix with no trimmable character at either end. */
  function Trim(s: string): (r: string)
    ensures r == [] || (!IsTrimmable(r[0]) && !IsTrimmable(r[|r| - 1]))
    ensures |r| <= |s|
  {
    TrimRight(TrimLeft(s))
  }

  lemma TrimIdempotent(s: string)
    ensures Trim(Trim(s)) == Trim(s)
  {
    var t := Trim(s);
    if t != [] {
      assert TrimLeft(t) == t;
      assert TrimRight(t) == t;
    }
  }

  function LowerChar(c: char): char
  {
    if 'A' <= c <= 'Z' then (c as int + 32) as char else c
  }

  /** PHP 8 `strtolower`: ASCII letters only. */
  function Lower(s: string): (r: string)
    ensures |r| == |s|
    ensures forall i :: 0 <= i < |s| ==> r[i] == LowerChar(s[i])
  {
    seq(|s|, i requires 0 <= i < |s| => LowerChar(s[i]))
  }

  /** `strtolower(trim((string)$x))`, the usual way the handlers read an enumerated word. */
  function Word(s: string): string
  {
    Lower(Trim(s))
  }

  /** Reading an already-read word again changes nothing: lower-casing keeps
      the trimmed ends non-blank, and lower-case letters stay as they are. */
  lemma WordIdempotent(s: string)
    ensures Word(Word(s)) == Word(s)
  {
    var t := Trim(s);
    var l := Lower(t);
    assert forall i :: 0 <= i < |l| ==> (IsTrimmable(l[i]) <==> IsTrimmable(t[i]));
    if l != [] {
      assert TrimLeft(l) == l;
      assert TrimRight(l) == l;
    }
    assert Trim(l) == l;
    assert Lower(l) == l;
  }

  /** PHP truthiness of a string-or-null: null, "" and "0" are falsy (`?:` and `if ($x)`). */
  predicate Truthy(s: Option<string>)
  {
    s.Some? && s.value != "" && s.value != "0"
  }

  /** PHP `$a ?: $b` on strings. */
  function Elvis(a: Option<string>, b: Option<string>): (r: Option<string>)
    ensures Truthy(a) ==> r == a
    ensures !Truthy(a) ==> r == b
  {
    if Truthy(a) then a else b
  }

  /** PHP `$a ?? $b`: only null falls through ("" and "0" are kept). */
  function Coalesce<T>(a: Option<T>, b: Option<T>): (r: Option<T>)
    ensures a.Some? ==> r == a
    ensures a.None? ==> r == b
  {
    if a.Some? then a else b
  }

  /** `isset($x) ? trim((string)$x) : null`, followed by `if ($x === '') $x = null;`. */
  function CleanText(raw: Option<string>): (r: Option<string>)
    ensures raw.None? ==> r.None?
    ensures raw.Some? && Trim(raw.value) == "" ==> r.None?
    ensures raw.Some? && Trim(raw.value) != "" ==> r == Some(Trim(raw.value))
  {
    match raw
    case None => None
    case Some(s) => if Trim(s) == "" then None else Some(Trim(s))
  }

  /** Text is kept only when it is a non-empty string: `($x !== null && $x !== '') ? $x : null`. */
  function NonEmptyOrNull(s: Option<string>): (r: Option<string>)
    ensures r.Some? <==> s.Some? && s.value != ""
    ensures r.Some? ==> r == s
  {
    if s.Some? && s.value != "" then s else None
  }

  // ---------------------------------------------------------------------
  // Time normaliser (normalizePlannerDateTime / normalizePlannerDate)
  // ---------------------------------------------------------------------

  /** A missing or blank value is "unset" (null); otherwise the trimmed text is
      handed to the foreign parser, whose failure is also "unset". */
  function NormalizeDateTime(raw: Option<string>, parse: string -> Option<DateTime>): (r: Option<DateTime>)
    ensures raw.None? ==> r.None?
    ensures raw.Some? && Trim(raw.value) == "" ==> r.None?
    ensures raw.Some? && Trim(raw.value) != "" ==> r == parse(Trim(raw.value))
  {
    match raw
    case None => None
    case Some(s) => if Trim(s) == "" then None else parse(Trim(s))
  }

  function NormalizeDate(raw: Option<string>, parse: string -> Option<Date>): (r: Option<Date>)
    ensures raw.None? ==> r.None?
    ensures raw.Some? && Trim(raw.value) == "" ==> r.None?
    ensures raw.Some? && Trim(raw.value) != "" ==> r == parse(Trim(raw.value))
  {
    match raw
    case None => None
    case Some(s) => if Trim(s) == "" then None else parse(Trim(s))
  }

  /** `array_key_exists($k, $input) ? normalize($input[$k]) : $fallback`. */
  function DateTimeKey(k: Key<string>, fallback: Option<DateTime>, parse: string -> Option<DateTime>): (r: Option<DateTime>)
    ensures k.Missing? ==> r == fallback
    ensures k.Given? ==> r == NormalizeDateTime(k.value, parse)
  {
    match k
    case Missing => fallback
    case Given(v) => NormalizeDateTime(v, parse)
  }
}
