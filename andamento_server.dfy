/**
 * The `Andamento` HTTP service: it reads its settings from a `.env` file,
 * accepts `GET /api/get-andamento` (or `/get-andamento`) with a bearer token,
 * checks the optional `startDate`/`finalDate` query parameters and answers
 * with the rows of a database query.  The file system, the query and the
 * clock are parameters.
 */
module AndamentoServer {
  import opened Base
  import opened Js
  import Cal = SyncScheduler

  // ---------------------------------------------------------------------
  // loadEnvFile
  // ---------------------------------------------------------------------

  /** The first position of `c` in `s`, if any (`indexOf`). */
  function IndexOf(s: string, c: char): (r: Option<nat>)
    ensures r.Some? ==> r.value < |s| && s[r.value] == c && !HasChar(s[..r.value], c)
    ensures r.None? ==> !HasChar(s, c)
  {
    if s == [] then None
    else if s[0] == c then Some(0)
    else
      match IndexOf(s[1..], c)
      case None => None
      case Some(i) =>
        assert s[..i + 1] == [s[0]] + s[1..][..i];
        Some(i + 1)
  }

  /** A value wrapped in matching double or single quotes loses them. */
  function Unquote(value: string): (r: string)
    ensures |r| <= |value|
  {
    if (StartsWith(value, "\"") && EndsWith(value, "\"")) || (StartsWith(value, "'") && EndsWith(value, "'")) then
      (if |value| < 2 then "" else value[1..|value| - 1])
    else value
  }

  lemma UnquoteQuoted(q: char, v: string)
    requires q == '"' || q == '\''
    ensures Unquote([q] + v + [q]) == v
  {
    var w := [q] + v + [q];
    assert w[..1] == [q] && w[|w| - 1..] == [q];
    assert w[1..|w| - 1] == v;
  }

  /** One line of the file: the `(key, value)` it sets, or `None` when it is skipped. */
  function ParseEnvLine(line: string): (r: Option<(string, string)>)
    ensures r.None? <==> JsTrim(line) == [] || JsTrim(line)[0] == '#' || !HasChar(JsTrim(line), '=')
    ensures r.Some? ==> !HasChar(r.value.0, '=')
    ensures r.Some? ==> r.value.0 == [] || (!IsJsSpace(r.value.0[0]) && !IsJsSpace(r.value.0[|r.value.0| - 1]))
  {
    ParseAssignment(JsTrim(line))
  }

  /** A trimmed line: skipped when blank, a comment or without `=`; else the trimmed key and the unquoted value. */
  function ParseAssignment(trimmed: string): (r: Option<(string, string)>)
    ensures r.None? <==> trimmed == [] || trimmed[0] == '#' || !HasChar(trimmed, '=')
    ensures r.Some? ==> !HasChar(r.value.0, '=')
    ensures r.Some? ==> r.value.0 == [] || (!IsJsSpace(r.value.0[0]) && !IsJsSpace(r.value.0[|r.value.0| - 1]))
  {
    if trimmed == [] || trimmed[0] == '#' then None
    else
      match IndexOf(trimmed, '=')
      case None => None
      case Some(idx) =>
        var key := JsTrim(trimmed[..idx]);
        TrimKeepsOut(trimmed[..idx], '=');
        Some((key, Unquote(JsTrim(trimmed[idx + 1..]))))
  }

  /** Trimming adds no character: a character absent from the text is absent from its trim. */
  lemma TrimKeepsOut(s: string, c: char)
    requires !HasChar(s, c)
    ensures !HasChar(JsTrim(s), c)
  {
    if HasChar(JsTrim(s), c) {
      TrimIsInfix(s, IsJsSpace);
    }
  }

  /** The characters of a trim are characters of the text. */
  lemma TrimIsInfix(s: string, ws: char -> bool)
    ensures forall i :: 0 <= i < |Trim(s, ws)| ==> Trim(s, ws)[i] in s
  {
    var a := LeadingCount(s, ws);
    var t := s[a..];
    var b := TrailingCount(t, ws);
    assert Trim(s, ws) == t[..|t| - b];
  }

  /** `raw.replace(/^﻿/, '')`. */
  function StripBom(raw: string): (r: string)
    ensures r == raw || (raw != [] && raw[0] == '\U{FEFF}' && r == raw[1..])
  {
    if raw != [] && raw[0] == '\U{FEFF}' then raw[1..] else raw
  }

  function EnvLines(raw: string): seq<string> { SplitLines(StripBom(raw)) }

  /**
   * The object a sequence of assignments builds, in order: a later
   * assignment to a key overwrites an earlier one.
   */
  function Assignments<T>(xs: seq<T>, assign: T -> Option<(string, string)>): map<string, string>
  {
    if xs == [] then map[]
    else
      var env := Assignments(xs[..|xs| - 1], assign);
      match assign(xs[|xs| - 1])
      case None => env
      case Some(kv) => env[kv.0 := kv.1]
  }

  /** A key is set exactly when some element assigns it. */
  lemma {:induction false} AssignedKeys<T>(xs: seq<T>, assign: T -> Option<(string, string)>, key: string)
    ensures key in Assignments(xs, assign) <==> exists i :: 0 <= i < |xs| && assign(xs[i]).Some? && assign(xs[i]).value.0 == key
  {
    if xs != [] {
      var init := xs[..|xs| - 1];
      AssignedKeys(init, assign, key);
      assert forall i :: 0 <= i < |init| ==> init[i] == xs[i];
    }
  }

  /** The value of a key is the one of the last element that assigns it. */
  lemma {:induction false} LastAssignmentWins<T>(xs: seq<T>, assign: T -> Option<(string, string)>, i: nat)
    requires i < |xs| && assign(xs[i]).Some?
    requires forall j :: i < j < |xs| && assign(xs[j]).Some? ==> assign(xs[j]).value.0 != assign(xs[i]).value.0
    ensures assign(xs[i]).value.0 in Assignments(xs, assign)
    ensures Assignments(xs, assign)[assign(xs[i]).value.0] == assign(xs[i]).value.1
  {
    AssignedKeys(xs, assign, assign(xs[i]).value.0);
    var init := xs[..|xs| - 1];
    if i < |xs| - 1 {
      assert forall j :: i < j < |init| ==> init[j] == xs[j];
      LastAssignmentWins(init, assign, i);
    }
  }

  /** One more element applies its assignment, if any, on top of the earlier ones. */
  lemma AssignmentsSnoc<T>(xs: seq<T>, assign: T -> Option<(string, string)>, i: nat)
    requires i < |xs|
    ensures Assignments(xs[..i + 1], assign) ==
      match assign(xs[i]) case None => Assignments(xs[..i], assign) case Some(kv) => Assignments(xs[..i], assign)[kv.0 := kv.1]
  {
    assert xs[..i + 1][..i] == xs[..i];
  }

  function EnvOf(lines: seq<string>): map<string, string>
  {
    Assignments(lines, ParseEnvLine)
  }

  /** A key is set exactly when some line sets it; skipped lines set nothing. */
  lemma EnvKeys(lines: seq<string>, key: string)
    ensures key in EnvOf(lines) <==> exists i :: 0 <= i < |lines| && ParseEnvLine(lines[i]).Some? && ParseEnvLine(lines[i]).value.0 == key
  {
    AssignedKeys(lines, ParseEnvLine, key);
  }

  /** Later lines overwrite earlier ones: a key holds the value of the last line that sets it. */
  lemma LaterLineWins(lines: seq<string>, i: nat)
    requires i < |lines| && ParseEnvLine(lines[i]).Some?
    requires forall j :: i < j < |lines| && ParseEnvLine(lines[j]).Some? ==> ParseEnvLine(lines[j]).value.0 != ParseEnvLine(lines[i]).value.0
    ensures ParseEnvLine(lines[i]).value.0 in EnvOf(lines)
    ensures EnvOf(lines)[ParseEnvLine(lines[i]).value.0] == ParseEnvLine(lines[i]).value.1
  {
    LastAssignmentWins(lines, ParseEnvLine, i);
  }

  /** `loadEnvFile`: `None` stands for a missing file. */
  method LoadEnvFile(file: Option<string>) returns (env: map<string, string>)
    ensures file.None? ==> env == map[]
    ensures file.Some? ==> env == EnvOf(EnvLines(file.value))
  {
    env := map[];
    if file.None? {
      return;
    }
    var lines := EnvLines(file.value);
    var i := 0;
    while i < |lines|
      invariant 0 <= i <= |lines|
      invariant env == EnvOf(lines[..i])
    {
      AssignmentsSnoc(lines, ParseEnvLine, i);
      match ParseEnvLine(lines[i]) {
        case None =>
        case Some(kv) => env := env[kv.0 := kv.1];
      }
      i := i + 1;
    }
    assert lines[..|lines|] == lines;
  }

  // ---------------------------------------------------------------------
  // isValidDate
  // ---------------------------------------------------------------------

  /** `/^\d{4}-\d{2}-\d{2}$/`. */
  predicate DateShape(s: string) {
    |s| == 10 && s[4] == '-' && s[7] == '-'
    && AllDigits(s[..4]) && AllDigits(s[5..7]) && AllDigits(s[8..])
  }

  datatype Ymd = Ymd(year: int, month: int, day: int)

  predicate RealDate(d: Ymd) {
    1 <= d.month <= 12 && 1 <= d.day <= Cal.DaysInMonth(d.year, d.month)
  }

  /** The month before `(y, m)`. */
  function PrevMonth(y: int, m: int): (int, int)
    requires 1 <= m <= 12
  {
    if m == 1 then (y - 1, 12) else (y, m - 1)
  }

  /**
   * How a `Date` built from a day of month outside `1..DaysInMonth` moves
   * into the neighbouring months: day 0 is the last day of the previous
   * month, day 32 of a 31-day month the first day of the next one.
   */
  function CarryDay(y: int, m: int, d: int): (r: Ymd)
    requires 1 <= m <= 12
    ensures RealDate(r)
    ensures 1 <= d <= Cal.DaysInMonth(y, m) ==> r == Ymd(y, m, d)
    ensures d >= 0 ==> r.year >= y - 1
    decreases if d < 1 then 1 - d else 0, if d < 1 then 0 else d
  {
    if d < 1 then
      var (py, pm) := PrevMonth(y, m);
      CarryDay(py, pm, d + Cal.DaysInMonth(py, pm))
    else if d > Cal.DaysInMonth(y, m) then
      CarryDay(if m == 12 then y + 1 else y, if m == 12 then 1 else m + 1, d - Cal.DaysInMonth(y, m))
    else Ymd(y, m, d)
  }

  /**
   * The calendar fields of `new Date(Date.UTC(year, monthIndex, day))`: a
   * year from 0 to 99 means 1900 to 1999, a month index outside `0..11`
   * carries into the year, and the day carries into the months.
   */
  function UtcFields(year: int, monthIndex: int, day: int): (r: Ymd)
    ensures RealDate(r)
  {
    var y := if 0 <= year <= 99 then 1900 + year else year;
    CarryDay(y + monthIndex / 12, monthIndex % 12 + 1, day)
  }

  function FieldsOf(s: string): Ymd
    requires DateShape(s)
  {
    Ymd(ParseNat(s[..4]), ParseNat(s[5..7]), ParseNat(s[8..]))
  }

  /** `isValidDate`: the shape matches and the UTC date built from the fields gives them back. */
  predicate IsValidDate(s: string) {
    DateShape(s) &&
    var f := FieldsOf(s);
    UtcFields(f.year, f.month - 1, f.day) == f
  }

  /**
   * `isValidDate` accepts exactly the `YYYY-MM-DD` texts that name a real
   * date of a year from 0100 on; years 0000 to 0099 are always rejected,
   * because the UTC constructor reads them as 1900 to 1999.
   */
  lemma IsValidDateIff(s: string)
    ensures IsValidDate(s) <==> DateShape(s) && FieldsOf(s).year >= 100 && RealDate(FieldsOf(s))
  {
    if DateShape(s) {
      var f := FieldsOf(s);
      if f.year < 100 {
        UtcMovesSmallYear(f);
      } else if RealDate(f) {
        UtcKeepsRealDate(f);
      }
    }
  }

  /** From year 100 on, a real date survives the UTC constructor unchanged. */
  lemma UtcKeepsRealDate(f: Ymd)
    requires RealDate(f) && f.year >= 100
    ensures UtcFields(f.year, f.month - 1, f.day) == f
  {
    assert (f.month - 1) / 12 == 0 && (f.month - 1) % 12 == f.month - 1;
  }

  /** A year from 0 to 99 comes back from the UTC constructor as 1898 or later. */
  lemma UtcMovesSmallYear(f: Ymd)
    requires 0 <= f.year < 100 && f.month >= 0 && f.day >= 0
    ensures UtcFields(f.year, f.month - 1, f.day) != f
  {
    var u := UtcFields(f.year, f.month - 1, f.day);
    assert (f.month - 1) / 12 >= -1;
    assert u.year >= 1900 + f.year - 2;
  }

  // ---------------------------------------------------------------------
  // isAuthorized
  // ---------------------------------------------------------------------

  /** `isAuthorized`: `Bearer <token>`, where the token is the configured API token. */
  predicate IsAuthorized(authorization: JsValue, apiToken: string) {
    var header := ToStr(Or(authorization, JStr("")));
    var parts := Split(header, ' ');
    parts[0] == "Bearer" && |parts| >= 2 && parts[1] != [] && parts[1] == apiToken
  }

  /** Splitting `a + [c] + b` where `a` has no `c` gives `a` first. */
  lemma {:induction false} SplitAfterWord(a: string, c: char, b: string)
    requires !HasChar(a, c)
    ensures Split(a + [c] + b, c) == [a] + Split(b, c)
  {
    if a == [] {
      assert [c] + b == a + [c] + b;
      assert ([c] + b)[1..] == b;
    } else {
      assert (a + [c] + b)[1..] == a[1..] + [c] + b;
      assert !HasChar(a[1..], c) by {
        forall i | 0 <= i < |a[1..]| ensures a[1..][i] != c { assert a[1..][i] == a[i + 1]; }
      }
      SplitAfterWord(a[1..], c, b);
      assert a == [a[0]] + a[1..];
    }
  }

  /** The first part of `a + rest`, when `rest` is empty or starts with the separator, is `a`. */
  lemma FirstPart(a: string, c: char, rest: string)
    requires !HasChar(a, c) && (rest == [] || rest[0] == c)
    ensures Split(a + rest, c)[0] == a
  {
    if rest == [] {
      SplitNoSep(a, c);
      assert a + rest == a;
    } else {
      SplitAfterWord(a, c, rest[1..]);
      assert a + rest == a + [c] + rest[1..];
    }
  }

  /**
   * A header `Bearer <token>` (optionally followed by a space and more text)
   * is accepted exactly when `<token>` is the non-empty API token without
   * spaces (section 2.1 of RFC 6750).
   */
  lemma AuthorizedHeader(token: string, apiToken: string, rest: string)
    requires !HasChar(token, ' ') && (rest == [] || rest[0] == ' ')
    ensures IsAuthorized(JStr("Bearer " + token + rest), apiToken) <==> token != [] && token == apiToken
  {
    var header := "Bearer " + token + rest;
    assert header == "Bearer" + [' '] + (token + rest);
    assert !HasChar("Bearer", ' ');
    SplitAfterWord("Bearer", ' ', token + rest);
    FirstPart(token, ' ', rest);
  }

  /** Conversely, an accepted header is `Bearer <apiToken>`, possibly followed by a space and more. */
  lemma AuthorizedShape(authorization: JsValue, apiToken: string)
    requires IsAuthorized(authorization, apiToken)
    ensures apiToken != []
    ensures StartsWith(ToStr(Or(authorization, JStr(""))), "Bearer " + apiToken)
  {
    var header := ToStr(Or(authorization, JStr("")));
    var parts := Split(header, ' ');
    JoinSplit(header, ' ');
    JoinTwo(parts, ' ');
    assert header == "Bearer" + [' '] + apiToken + Join(parts[2..], ' ') || header == "Bearer" + [' '] + apiToken + [' '] + Join(parts[2..], ' ');
  }

  lemma JoinTwo(parts: seq<string>, c: char)
    requires |parts| >= 2
    ensures |parts| == 2 ==> Join(parts, c) == parts[0] + [c] + parts[1]
    ensures |parts| > 2 ==> Join(parts, c) == parts[0] + [c] + parts[1] + [c] + Join(parts[2..], c)
  {
    assert parts[1..][1..] == parts[2..];
  }

  // ---------------------------------------------------------------------
  // The request handler
  // ---------------------------------------------------------------------

  datatype Answer =
    | NoContent
    | Unauthorized
    | BadDate
    | NotFound
    | Queried(startDate: string, finalDate: string, succeeded: bool)

  function StatusCode(a: Answer): int
  {
    match a
    case NoContent => 204
    case Unauthorized => 401
    case BadDate => 400
    case NotFound => 404
    case Queried(_, _, ok) => if ok then 200 else 500
  }

  /** A query parameter that is present and not empty (`param && …`). */
  predicate Supplied(param: Option<string>) { param.Some? && param.value != [] }

  /** A GET on the andamento route, under either of its two paths. */
  predicate AndamentoRoute(httpMethod: string, path: string) {
    httpMethod == "GET" && (path == "/api/get-andamento" || path == "/get-andamento")
  }

  /** Some supplied date parameter is not a valid date. */
  predicate BadDates(startParam: Option<string>, finalParam: Option<string>) {
    (Supplied(startParam) && !IsValidDate(startParam.value)) || (Supplied(finalParam) && !IsValidDate(finalParam.value))
  }

  /**
   * The handler, for a request with the given method, path, `Authorization`
   * header and query parameters.  `fallback` is the current month's range
   * (`defaultRange`) and `querySucceeds` the database's answer.
   */
  function Handle(httpMethod: string, path: string, authorization: JsValue, apiToken: string,
                  startParam: Option<string>, finalParam: Option<string>,
                  fallback: (string, string), querySucceeds: bool): (r: Answer)
    ensures httpMethod == "OPTIONS" ==> r == NoContent
    ensures AndamentoRoute(httpMethod, path) && !IsAuthorized(authorization, apiToken) ==> r == Unauthorized
    ensures AndamentoRoute(httpMethod, path) && IsAuthorized(authorization, apiToken) ==>
      (r == BadDate <==> BadDates(startParam, finalParam))
    ensures AndamentoRoute(httpMethod, path) && IsAuthorized(authorization, apiToken) && !BadDates(startParam, finalParam) ==>
      r.Queried? && r.succeeded == querySucceeds
    ensures r.Queried? ==> AndamentoRoute(httpMethod, path) && IsAuthorized(authorization, apiToken)
    ensures r.Queried? ==> (Supplied(startParam) ==> IsValidDate(startParam.value)) && (Supplied(finalParam) ==> IsValidDate(finalParam.value))
    ensures r.Queried? ==> r.startDate == (if Supplied(startParam) then startParam.value else fallback.0)
    ensures r.Queried? ==> r.finalDate == (if Supplied(finalParam) then finalParam.value else fallback.1)
    ensures httpMethod != "OPTIONS" && !AndamentoRoute(httpMethod, path) ==> r == NotFound
  {
    if httpMethod == "OPTIONS" then NoContent
    else if AndamentoRoute(httpMethod, path) then
      if !IsAuthorized(authorization, apiToken) then Unauthorized
      else if BadDates(startParam, finalParam) then BadDate
      else
        Queried(if Supplied(startParam) then startParam.value else fallback.0,
                if Supplied(finalParam) then finalParam.value else fallback.1, querySucceeds)
    else NotFound
  }
}
