/**
 * The helpers of the presence-query page (`ConsultaPresenca`): picking a
 * field under one of several names, reading yes/no and duration cells,
 * masking logins, normalising batch CPFs, writing and reading
 * semicolon-separated files, and grouping batch rows per uploaded file.
 */
module ConsultaPresenca {
  import opened Base
  import opened Js

  // ---------------------------------------------------------------------
  // pick
  // ---------------------------------------------------------------------

  /** A value `pick` accepts: present, not `null`, and not blank once rendered. */
  predicate Usable(v: JsValue) { !IsNullish(v) && JsTrim(ToStr(v)) != [] }

  /** `pick(row, keys, fallback)`: the value under the first key that holds a usable one. */
  function Pick(row: JsValue, keys: seq<string>, fallback: JsValue): (r: JsValue)
    ensures (forall i :: 0 <= i < |keys| ==> !Usable(Get(row, keys[i]))) ==> r == fallback
    ensures (exists i :: 0 <= i < |keys| && Usable(Get(row, keys[i]))) ==>
      exists i :: 0 <= i < |keys| && Usable(Get(row, keys[i])) && r == Get(row, keys[i])
        && forall j :: 0 <= j < i ==> !Usable(Get(row, keys[j]))
  {
    var vs := Props(row, keys);
    match FirstWhere(vs, Usable)
    case None => fallback
    case Some(i) => vs[i]
  }

  // ---------------------------------------------------------------------
  // parseNullableBoolean
  // ---------------------------------------------------------------------

  function Token(v: JsValue): string { Lower(JsTrim(ToStr(v))) }

  const TRUE_TOKENS: set<string> := {"true", "1", "sim"}
  const FALSE_TOKENS: set<string> := {"false", "0", "nao", "não"}

  /** The verdict on a trimmed, lower-cased token. */
  function TokenVerdict(token: string): (r: Option<bool>)
    ensures r == Some(true) <==> token in TRUE_TOKENS
    ensures r == Some(false) <==> token in FALSE_TOKENS
  {
    if token == [] then None
    else if token in TRUE_TOKENS then Some(true)
    else if token in FALSE_TOKENS then Some(false)
    else None
  }

  /** `parseNullableBoolean`: `None` is `null`. */
  function ParseNullableBoolean(v: JsValue): (r: Option<bool>)
    ensures IsNullish(v) ==> r == None
    ensures !IsNullish(v) ==> (r == Some(true) <==> Token(v) in TRUE_TOKENS)
    ensures !IsNullish(v) ==> (r == Some(false) <==> Token(v) in FALSE_TOKENS)
  {
    if IsNullish(v) then None else TokenVerdict(Token(v))
  }

  /** A JSON boolean reads as itself. */
  lemma ParseNullableBooleanOfBool(b: bool)
    ensures ParseNullableBoolean(JBool(b)) == Some(b)
  {
    TokenOfBool(b);
  }

  lemma TokenOfBool(b: bool)
    ensures Token(JBool(b)) == (if b then "true" else "false")
  {
    if b {
      TokenOfPlain(JBool(b), "true");
    } else {
      TokenOfPlain(JBool(b), "false");
    }
  }

  /** A value whose text has no surrounding space and no capital letter is its own token. */
  lemma TokenOfPlain(v: JsValue, t: string)
    requires ToStr(v) == t && t != [] && !IsJsSpace(t[0]) && !IsJsSpace(t[|t| - 1])
    requires forall i :: 0 <= i < |t| ==> 'a' <= t[i] <= 'z'
    ensures Token(v) == t
  {
    TrimOfTrimmed(t, IsJsSpace);
    assert Lower(t) == t;
  }

  // ---------------------------------------------------------------------
  // maskLogin
  // ---------------------------------------------------------------------

  /** `maskLogin`: the first three characters stay and every other one becomes `*`; up to three are all masked. */
  function MaskLogin(v: JsValue): (r: string)
    ensures TextOf(v) == [] ==> r == "-"
    ensures TextOf(v) != [] ==> |r| == |TextOf(v)|
    ensures 0 < |TextOf(v)| <= 3 ==> forall i :: 0 <= i < |r| ==> r[i] == '*'
    ensures |TextOf(v)| > 3 ==> forall i :: 0 <= i < |r| ==> r[i] == (if i < 3 then TextOf(v)[i] else '*')
  {
    var txt := TextOf(v);
    if txt == [] then "-"
    else if |txt| <= 3 then Repeat('*', |txt|)
    else txt[..3] + Repeat('*', |txt| - 3)
  }

  // ---------------------------------------------------------------------
  // parseDurationToMs
  // ---------------------------------------------------------------------

  /** What `parseDurationToMs` yields: `null`, a whole number of milliseconds, or a decimal numeral. */
  datatype Duration = NoDuration | Ms(ms: int) | DecimalText(text: string)

  /** `/^\d+(\.\d+)?$/` with a fractional part. */
  predicate IsDecimalFraction(s: string) {
    exists k :: 0 < k < |s| - 1 && s[k] == '.' && AllDigits(s[..k]) && AllDigits(s[k + 1..])
  }

  /** `/^\d{1,2}:\d{2}$/`: minutes and seconds. */
  predicate IsMinSec(s: string) {
    (|s| == 4 || |s| == 5) && s[|s| - 3] == ':' && AllDigits(s[..|s| - 3]) && AllDigits(s[|s| - 2..])
  }

  /** `/^\d{1,2}:\d{2}:\d{2}$/`: hours, minutes and seconds. */
  predicate IsHourMinSec(s: string) {
    (|s| == 7 || |s| == 8) && s[|s| - 6] == ':' && s[|s| - 3] == ':'
    && AllDigits(s[..|s| - 6]) && AllDigits(s[|s| - 5..|s| - 3]) && AllDigits(s[|s| - 2..])
  }

  function ParseDurationToMs(v: JsValue): (r: Duration)
    ensures IsNullish(v) || v == JStr("") ==> r == NoDuration
    ensures v.JNum? ==> r == Ms(v.n)
    ensures v.JStr? && v.s != [] ==> r == DurationText(JsTrim(v.s))
  {
    if IsNullish(v) || v == JStr("") then NoDuration
    else if v.JNum? then Ms(v.n)
    else DurationText(JsTrim(ToStr(v)))
  }

  /** `parseDurationToMs` on the trimmed text of a value that is not a number. */
  function DurationText(str: string): (r: Duration)
  {
    if str == [] then NoDuration
    else if AllDigits(str) then Ms(ParseNat(str))
    else if IsDecimalFraction(str) then DecimalText(str)
    else if IsMinSec(str) then
      Ms((ParseNat(str[..|str| - 3]) * 60 + ParseNat(str[|str| - 2..])) * 1000)
    else if IsHourMinSec(str) then
      Ms((ParseNat(str[..|str| - 6]) * 3600 + ParseNat(str[|str| - 5..|str| - 3]) * 60 + ParseNat(str[|str| - 2..])) * 1000)
    else NoDuration
  }

  /** Two decimal digits. */
  function TwoDigits(n: nat): (r: string)
    requires n < 100
    ensures |r| == 2 && AllDigits(r) && ParseNat(r) == n
  {
    var r := [DigitChar(n / 10), DigitChar(n % 10)];
    assert r[..1] == [DigitChar(n / 10)] && r[..1][..0] == [];
    assert ParseNat(r[..1]) == n / 10;
    r
  }

  /** Text holding a colon is neither a whole number nor a decimal numeral. */
  lemma ColonTextNotDecimal(s: string, k: nat)
    requires k < |s| && s[k] == ':'
    ensures !AllDigits(s) && !IsDecimalFraction(s)
  {
    assert !IsDigit(s[k]);
    forall j | 0 < j < |s| - 1 && s[j] == '.' ensures !AllDigits(s[..j]) || !AllDigits(s[j + 1..]) {
      if k < j { assert s[..j][k] == ':'; } else { assert s[j + 1..][k - j - 1] == ':'; }
    }
  }

  /** `m:ss` reads as `(m * 60 + s) * 1000` milliseconds. */
  lemma MinSecDuration(m: nat, s: nat)
    requires m < 100 && s < 60
    ensures DurationText(TwoDigits(m) + ":" + TwoDigits(s)) == Ms((m * 60 + s) * 1000)
  {
    var str := TwoDigits(m) + ":" + TwoDigits(s);
    assert str[2] == ':';
    ColonTextNotDecimal(str, 2);
    assert str[..2] == TwoDigits(m) && str[3..] == TwoDigits(s);
    assert IsMinSec(str);
  }

  /** `h:mm:ss` reads as `(h * 3600 + m * 60 + s) * 1000` milliseconds. */
  lemma HourMinSecDuration(h: nat, m: nat, s: nat)
    requires h < 100 && m < 60 && s < 60
    ensures DurationText(TwoDigits(h) + ":" + TwoDigits(m) + ":" + TwoDigits(s)) == Ms((h * 3600 + m * 60 + s) * 1000)
  {
    var str := TwoDigits(h) + ":" + TwoDigits(m) + ":" + TwoDigits(s);
    assert str[2] == ':' && str[5] == ':';
    ColonTextNotDecimal(str, 2);
    assert str[..2] == TwoDigits(h) && str[3..5] == TwoDigits(m) && str[6..] == TwoDigits(s);
    assert !IsMinSec(str);
    assert IsHourMinSec(str);
  }

  /** Surrounding spaces do not matter: a text value is read through its trimmed form. */
  lemma DurationOfPaddedText(pad: string, str: string)
    requires forall i :: 0 <= i < |pad| ==> IsJsSpace(pad[i])
    requires str != [] && !IsJsSpace(str[0]) && !IsJsSpace(str[|str| - 1])
    ensures ParseDurationToMs(JStr(pad + str + pad)) == DurationText(str)
  {
    var t := pad + str + pad;
    assert LeadingCount(t, IsJsSpace) == |pad| by {
      assert t[|pad|] == str[0];
    }
    assert t[|pad|..] == str + pad;
    assert TrailingCount(str + pad, IsJsSpace) == |pad| by {
      assert (str + pad)[|str| - 1] == str[|str| - 1];
    }
    assert (str + pad)[..|str|] == str;
  }

  // ---------------------------------------------------------------------
  // normalizeCpfBatch
  // ---------------------------------------------------------------------

  /**
   * `normalizeCpfBatch`: the digits, left-padded with zeros to 11; more than
   * 11 digits, or none, give the empty text.
   */
  function NormalizeCpfBatch(v: JsValue): (r: string)
    ensures r == [] || (|r| == 11 && AllDigits(r))
    ensures 0 < |Digits(JsTrim(TextOf(v)))| <= 11 ==> r == PadStart(Digits(JsTrim(TextOf(v))), 11, '0')
    ensures |Digits(JsTrim(TextOf(v)))| > 11 || Digits(JsTrim(TextOf(v))) == [] ==> r == []
  {
    var raw := JsTrim(TextOf(v));
    if raw == [] then ""
    else
      var digits := Digits(raw);
      if digits == [] then ""
      else
        var padded := if |digits| < 11 then PadStart(digits, 11, '0') else digits;
        PadStartDigits(digits, 11);
        if |padded| > 11 then "" else padded
  }

  /** A CPF that already has 11 digits comes back unchanged. */
  lemma NormalizeCpfBatchKeepsCpf(cpf: string)
    requires |cpf| == 11 && AllDigits(cpf)
    ensures NormalizeCpfBatch(JStr(cpf)) == cpf
  {
    assert forall i :: 0 <= i < |cpf| ==> !IsJsSpace(cpf[i]);
    TrimOfTrimmed(cpf, IsJsSpace);
    DigitsOfDigits(cpf);
  }

  // ---------------------------------------------------------------------
  // toCsvCell
  // ---------------------------------------------------------------------

  predicate IsBreak(c: char) { c == '\r' || c == '\n' }

  /** `replace(/\r\n/g, ' | ')`. */
  function ReplaceCrLf(s: string): (r: string)
    decreases |s|
  {
    if s == [] then []
    else if |s| >= 2 && s[0] == '\r' && s[1] == '\n' then " | " + ReplaceCrLf(s[2..])
    else [s[0]] + ReplaceCrLf(s[1..])
  }

  /** The length of the run of line breaks at the start of `s`. */
  function BreakRun(s: string): (k: nat)
    ensures 0 < k <= |s| || (k == 0 && (s == [] || !IsBreak(s[0])))
    ensures k < |s| ==> !IsBreak(s[k])
    ensures forall i :: 0 <= i < k ==> IsBreak(s[i])
  {
    if s == [] || !IsBreak(s[0]) then 0 else 1 + BreakRun(s[1..])
  }

  /** `replace(/[\r\n]+/g, ' | ')`. */
  function ReplaceBreakRuns(s: string): (r: string)
    ensures forall i :: 0 <= i < |r| ==> !IsBreak(r[i])
    decreases |s|
  {
    if s == [] then []
    else if IsBreak(s[0]) then " | " + ReplaceBreakRuns(s[BreakRun(s)..])
    else [s[0]] + ReplaceBreakRuns(s[1..])
  }

  /** `replace(/\t/g, ' ')`. */
  function ReplaceTabs(s: string): (r: string)
    ensures |r| == |s|
    ensures forall i :: 0 <= i < |r| ==> r[i] != '\t' && (IsBreak(r[i]) <==> IsBreak(s[i]))
    ensures forall i :: 0 <= i < |r| ==> (r[i] == '"' <==> s[i] == '"') && (r[i] == ';' <==> s[i] == ';')
  {
    seq(|s|, i requires 0 <= i < |s| => if s[i] == '\t' then ' ' else s[i])
  }

  /** The cell text once line breaks and tabs are flattened. */
  function CellText(v: JsValue): (r: string)
    ensures forall i :: 0 <= i < |r| ==> !IsBreak(r[i]) && r[i] != '\t'
  {
    ReplaceTabs(ReplaceBreakRuns(ReplaceCrLf(TextOf(v))))
  }

  /** Every `"` written twice. */
  function DoubleQuotes(s: string): (r: string)
    ensures forall i :: 0 <= i < |r| ==> r[i] in s
  {
    if s == [] then []
    else (if s[0] == '"' then "\"\"" else [s[0]]) + DoubleQuotes(s[1..])
  }

  /** `"…"` with inner quotes doubled. */
  function Quoted(s: string): string { "\"" + DoubleQuotes(s) + "\"" }

  predicate NeedsQuotes(s: string) { HasChar(s, '"') || HasChar(s, ';') }

  /** `toCsvCell`: the flattened text, quoted when it holds a quote or a semicolon. */
  function ToCsvCell(v: JsValue): (r: string)
    ensures forall i :: 0 <= i < |r| ==> !IsBreak(r[i]) && r[i] != '\t'
    ensures NeedsQuotes(CellText(v)) ==> r == Quoted(CellText(v))
    ensures !NeedsQuotes(CellText(v)) ==> r == CellText(v)
  {
    var s := CellText(v);
    if HasChar(s, '"') || HasChar(s, ';') || HasChar(s, '\r') || HasChar(s, '\n') then Quoted(s) else s
  }

  // ---------------------------------------------------------------------
  // parseDelimited: one line
  // ---------------------------------------------------------------------

  /**
   * The fields of the rest of a line, given the field being read and
   * whether the scan is inside quotes: a quote toggles quoting, two quotes
   * inside quotes stand for one, and the delimiter outside quotes ends a field.
   */
  function Scan(rest: string, delim: char, cur: string, inQuotes: bool): (fields: seq<string>)
    ensures |fields| > 0
    decreases |rest|
  {
    if rest == [] then [cur]
    else if rest[0] == '"' then
      if inQuotes && |rest| > 1 && rest[1] == '"' then Scan(rest[2..], delim, cur + "\"", inQuotes)
      else Scan(rest[1..], delim, cur, !inQuotes)
    else if !inQuotes && rest[0] == delim then [cur] + Scan(rest[1..], delim, [], false)
    else Scan(rest[1..], delim, cur + [rest[0]], inQuotes)
  }

  /** The raw fields of a line, before trimming. */
  function Fields(line: string, delim: char): seq<string> { Scan(line, delim, [], false) }

  function TrimAll(xs: seq<string>): (r: seq<string>)
    ensures |r| == |xs| && forall i :: 0 <= i < |xs| ==> r[i] == JsTrim(xs[i])
  {
    seq(|xs|, i requires 0 <= i < |xs| => JsTrim(xs[i]))
  }

  /** `parseLine`: the character loop of `parseDelimited`. */
  method ParseLine(line: string, delim: char) returns (out: seq<string>)
    ensures out == TrimAll(Fields(line, delim))
  {
    var fields: seq<string> := [];
    var cur: string := [];
    var inQuotes := false;
    var i := 0;
    while i < |line|
      invariant 0 <= i <= |line|
      invariant fields + Scan(line[i..], delim, cur, inQuotes) == Fields(line, delim)
      decreases |line| - i
    {
      var ch := line[i];
      if ch == '"' {
        if inQuotes && i + 1 < |line| && line[i + 1] == '"' {
          assert line[i..][2..] == line[i + 2..];
          cur := cur + "\"";
          i := i + 2;
        } else {
          assert line[i..][1..] == line[i + 1..];
          inQuotes := !inQuotes;
          i := i + 1;
        }
      } else if !inQuotes && ch == delim {
        assert line[i..][1..] == line[i + 1..];
        fields := fields + [cur];
        cur := [];
        i := i + 1;
      } else {
        assert line[i..][1..] == line[i + 1..];
        cur := cur + [ch];
        i := i + 1;
      }
    }
    fields := fields + [cur];
    out := TrimAll(fields);
  }

  /** Inside quotes, a doubled-quote text followed by the closing quote reads back as the text. */
  lemma {:induction false} ScanQuoted(s: string, rest: string, delim: char, cur: string)
    requires rest == [] || rest[0] != '"'
    ensures Scan(DoubleQuotes(s) + "\"" + rest, delim, cur, true) == Scan(rest, delim, cur + s, false)
    decreases |s|
  {
    if s == [] {
      ScanClose(rest, delim, cur);
      assert cur + s == cur;
    } else {
      ScanQuoted(s[1..], rest, delim, cur + [s[0]]);
      assert cur + [s[0]] + s[1..] == cur + s;
      ScanQuotedHead(s, rest, delim, cur);
    }
  }

  /** The closing quote, not followed by another, ends the quoted part. */
  lemma ScanClose(rest: string, delim: char, cur: string)
    requires rest == [] || rest[0] != '"'
    ensures Scan(DoubleQuotes([]) + "\"" + rest, delim, cur, true) == Scan(rest, delim, cur, false)
  {
    assert DoubleQuotes([]) + "\"" + rest == "\"" + rest;
    assert ("\"" + rest)[1..] == rest;
  }

  /** Inside quotes the escaped first character of `s` is read back as itself. */
  lemma ScanQuotedHead(s: string, rest: string, delim: char, cur: string)
    requires s != []
    ensures Scan(DoubleQuotes(s) + "\"" + rest, delim, cur, true)
      == Scan(DoubleQuotes(s[1..]) + "\"" + rest, delim, cur + [s[0]], true)
  {
    var tail := DoubleQuotes(s[1..]) + "\"" + rest;
    if s[0] == '"' {
      assert DoubleQuotes(s) + "\"" + rest == "\"\"" + tail;
      ScanEscapedQuote(tail, delim, cur);
    } else {
      assert DoubleQuotes(s) + "\"" + rest == [s[0]] + tail;
      ScanPlainChar(s[0], tail, delim, cur);
    }
  }

  lemma ScanEscapedQuote(tail: string, delim: char, cur: string)
    ensures Scan("\"\"" + tail, delim, cur, true) == Scan(tail, delim, cur + "\"", true)
  {
    assert ("\"\"" + tail)[2..] == tail;
  }

  lemma ScanPlainChar(c: char, tail: string, delim: char, cur: string)
    requires c != '"'
    ensures Scan([c] + tail, delim, cur, true) == Scan(tail, delim, cur + [c], true)
  {
    assert ([c] + tail)[1..] == tail;
  }

  /**
   * What `toCsvCell` quotes, `parseDelimited` reads back as one field: a
   * doubled quote gives one quote and a delimiter inside quotes does not split.
   */
  lemma QuotedFieldRoundTrip(s: string, delim: char)
    ensures Fields(Quoted(s), delim) == [s]
  {
    assert Quoted(s) == "\"" + (DoubleQuotes(s) + "\"" + []);
    assert Quoted(s)[1..] == DoubleQuotes(s) + "\"" + [];
    ScanQuoted(s, [], delim, []);
    assert [] + s == s;
  }

  /** A written cell is read back as its flattened text (trimmed, as every field is). */
  lemma CsvCellRoundTrip(v: JsValue)
    requires NeedsQuotes(CellText(v))
    ensures TrimAll(Fields(ToCsvCell(v), ';')) == [JsTrim(CellText(v))]
  {
    var s := CellText(v);
    assert ToCsvCell(v) == Quoted(s);
    QuotedTextRoundTrip(s);
  }

  lemma QuotedTextRoundTrip(s: string)
    ensures TrimAll(Fields(Quoted(s), ';')) == [JsTrim(s)]
  {
    QuotedFieldRoundTrip(s, ';');
  }

  // ---------------------------------------------------------------------
  // parseDelimited: the whole text
  // ---------------------------------------------------------------------

  /** `replace(/\r\n/g, '\n').replace(/\r/g, '\n')`. */
  function NormalizeNewlines(s: string): (r: string)
    ensures forall i :: 0 <= i < |r| ==> r[i] != '\r'
    decreases |s|
  {
    if s == [] then []
    else if |s| >= 2 && s[0] == '\r' && s[1] == '\n' then "\n" + NormalizeNewlines(s[2..])
    else (if s[0] == '\r' then "\n" else [s[0]]) + NormalizeNewlines(s[1..])
  }

  predicate NotBlank(line: string) { JsTrim(line) != [] }

  /** The non-blank lines of the text. */
  function DataLines(text: JsValue): (lines: seq<string>)
    ensures forall k :: 0 <= k < |lines| ==> NotBlank(lines[k])
  {
    Filter(Split(NormalizeNewlines(TextOf(text)), '\n'), NotBlank)
  }

  function StripLeadingBom(s: string): string
  {
    if s != [] && s[0] == '\U{FEFF}' then s[1..] else s
  }

  /** The header names: trimmed and lower-cased. */
  function Headers(headerLine: string, delim: char): (hs: seq<string>)
    ensures |hs| == |Fields(StripLeadingBom(headerLine), delim)|
    ensures forall k :: 0 <= k < |hs| ==> hs[k] == Lower(JsTrim(TrimAll(Fields(StripLeadingBom(headerLine), delim))[k]))
  {
    var cols := TrimAll(Fields(StripLeadingBom(headerLine), delim));
    seq(|cols|, k requires 0 <= k < |cols| => Lower(JsTrim(cols[k])))
  }

  predicate AllBlank(cols: seq<string>) { forall c :: 0 <= c < |cols| ==> JsTrim(cols[c]) == [] }

  /** `cols[c] ?? ''`. */
  function Column(cols: seq<string>, c: nat): string { if c < |cols| then cols[c] else "" }

  /** The object built from one data line: each named header gets its column, a later header winning. */
  function RowObject(headers: seq<string>, cols: seq<string>): (obj: map<string, string>)
    ensures forall key :: key in obj <==> key != [] && key in headers
    decreases |headers|
  {
    if headers == [] then map[]
    else
      var prev := RowObject(headers[..|headers| - 1], cols);
      var key := headers[|headers| - 1];
      assert forall k :: k in headers <==> k in headers[..|headers| - 1] || k == key;
      if key == [] then prev else prev[key := Column(cols, |headers| - 1)]
  }

  /** The rows `parseDelimited` returns for the data lines after the header. */
  function DataRows(headers: seq<string>, lines: seq<string>, delim: char): (rows: seq<map<string, string>>)
    ensures |rows| <= |lines|
    ensures forall k :: 0 <= k < |rows| ==> forall key :: key in rows[k] <==> key != [] && key in headers
    decreases |lines|
  {
    if lines == [] then []
    else
      var prev := DataRows(headers, lines[..|lines| - 1], delim);
      var cols := TrimAll(Fields(lines[|lines| - 1], delim));
      if AllBlank(cols) then prev else prev + [RowObject(headers, cols)]
  }

  /** `parseDelimited(text, delimiter)`, as a value. */
  function Delimited(text: JsValue, delim: char): (rows: seq<map<string, string>>)
    ensures DataLines(text) == [] ==> rows == []
    ensures DataLines(text) != [] ==> |rows| <= |DataLines(text)| - 1
  {
    var lines := DataLines(text);
    if lines == [] then []
    else DataRows(Headers(lines[0], delim), lines[1..], delim)
  }

  /** Every row has exactly the non-empty header names as keys, all of them lower case. */
  lemma DelimitedKeys(text: JsValue, delim: char, k: nat, key: string)
    requires DataLines(text) != [] && k < |Delimited(text, delim)|
    ensures key in Delimited(text, delim)[k] <==> key != [] && key in Headers(DataLines(text)[0], delim)
    ensures key in Delimited(text, delim)[k] ==> Lower(key) == key
  {
    var lines := DataLines(text);
    var hs := Headers(lines[0], delim);
    assert Delimited(text, delim) == DataRows(hs, lines[1..], delim);
    if key in hs {
      HeadersLower(lines[0], delim, key);
    }
  }

  /** Header names are already lower case. */
  lemma HeadersLower(line: string, delim: char, key: string)
    requires key in Headers(line, delim)
    ensures Lower(key) == key
  {
    var hs := Headers(line, delim);
    var c :| 0 <= c < |hs| && hs[c] == key;
    LowerIdempotent(JsTrim(TrimAll(Fields(StripLeadingBom(line), delim))[c]));
  }

  lemma DataRowsSnoc(headers: seq<string>, data: seq<string>, i: nat, delim: char)
    requires i < |data|
    ensures DataRows(headers, data[..i + 1], delim) ==
      DataRows(headers, data[..i], delim)
        + (if AllBlank(TrimAll(Fields(data[i], delim))) then [] else [RowObject(headers, TrimAll(Fields(data[i], delim)))])
  {
    assert data[..i + 1][..i] == data[..i];
  }

  /** The loop over the data lines of `parseDelimited`. */
  method ParseDataLines(headers: seq<string>, data: seq<string>, delim: char) returns (rows: seq<map<string, string>>)
    ensures rows == DataRows(headers, data, delim)
  {
    rows := [];
    var i := 0;
    while i < |data|
      invariant 0 <= i <= |data|
      invariant rows == DataRows(headers, data[..i], delim)
    {
      rows := AddDataLine(headers, data, i, delim, rows);
      i := i + 1;
    }
    assert data[..|data|] == data;
  }

  /** One step of the loop: the row of data line `i`, unless all its fields are blank. */
  method AddDataLine(headers: seq<string>, data: seq<string>, i: nat, delim: char, rows0: seq<map<string, string>>)
    returns (rows: seq<map<string, string>>)
    requires i < |data| && rows0 == DataRows(headers, data[..i], delim)
    ensures rows == DataRows(headers, data[..i + 1], delim)
  {
    var cols := ParseLine(data[i], delim);
    DataRowsSnoc(headers, data, i, delim);
    rows := rows0 + (if AllBlank(cols) then [] else [RowObject(headers, cols)]);
  }

  /** The header names of `parseDelimited`. */
  method ParseHeaders(headerLine: string, delim: char) returns (headers: seq<string>)
    ensures headers == Headers(headerLine, delim)
  {
    var cols := ParseLine(StripLeadingBom(headerLine), delim);
    headers := seq(|cols|, k requires 0 <= k < |cols| => Lower(JsTrim(cols[k])));
  }

  /** `parseDelimited`. */
  method ParseDelimited(text: JsValue, delim: char) returns (rows: seq<map<string, string>>)
    ensures rows == Delimited(text, delim)
  {
    var lines := DataLines(text);
    if |lines| == 0 {
      return [];
    }
    var headers := ParseHeaders(lines[0], delim);
    rows := ParseDataLines(headers, lines[1..], delim);
  }
}
