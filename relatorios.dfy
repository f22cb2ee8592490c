/**
 * The CSV export of the reports page (src/pages/Relatorios.jsx): every value
 * quoted with inner quotes doubled, a header of every key any row carries
 * (each once, in the order first seen), one line per row, and a file name
 * made only of file-safe characters.  Also the `YYYY-MM-DD` → `DD/MM/YYYY`
 * date display.
 */
module Relatorios {
  import opened Base
  import opened Js
  import Grouping
  import ConsultaPresenca

  // ---------------------------------------------------------------------
  // formatDateDisplay
  // ---------------------------------------------------------------------

  /**
   * `formatDateDisplay`: a falsy value shows as `-`; a text whose first three
   * `-`-separated parts are all non-empty shows as day/month/year; anything
   * else is shown unchanged.
   */
  function FormatDateDisplay(v: JsValue): (r: JsValue)
    ensures !Truthy(v) ==> r == JStr("-")
    ensures Truthy(v) ==> Truthy(r)
    ensures r != v ==> r.JStr?
  {
    if !Truthy(v) then JStr("-")
    else
      var parts := Split(ToStr(v), '-');
      if |parts| < 3 || parts[0] == [] || parts[1] == [] || parts[2] == [] then v
      else JStr(parts[2] + "/" + parts[1] + "/" + parts[0])
  }

  /** An ISO date `y-m-d` is shown as `d/m/y`, and reading the display back on `/` gives the parts. */
  lemma FormatIsoDate(y: string, m: string, d: string)
    requires y != [] && m != [] && d != []
    requires !HasChar(y, '-') && !HasChar(m, '-') && !HasChar(d, '-')
    requires !HasChar(y, '/') && !HasChar(m, '/') && !HasChar(d, '/')
    ensures FormatDateDisplay(JStr(y + "-" + m + "-" + d)) == JStr(d + "/" + m + "/" + y)
    ensures Split(d + "/" + m + "/" + y, '/') == [d, m, y]
  {
    SplitThree(y, m, d, '-');
    SplitThree(d, m, y, '/');
  }

  /** Three parts without the separator, joined by it, split back into the three parts. */
  lemma SplitThree(a: string, b: string, c: string, sep: char)
    requires !HasChar(a, sep) && !HasChar(b, sep) && !HasChar(c, sep)
    ensures Split(a + [sep] + b + [sep] + c, sep) == [a, b, c]
  {
    assert a + [sep] + b + [sep] + c == a + [sep] + (b + [sep] + c);
    SplitAround(a, sep, b + [sep] + c);
    SplitAround(b, sep, c);
    SplitNoSep(c, sep);
  }

  /** A truthy text without `-` is not a date and is shown as it is. */
  lemma FormatDateDisplayPassThrough(s: string)
    requires s != [] && !HasChar(s, '-')
    ensures FormatDateDisplay(JStr(s)) == JStr(s)
  {
    SplitNoSep(s, '-');
  }

  // ---------------------------------------------------------------------
  // escapeCsvValue
  // ---------------------------------------------------------------------

  /** The text a cell holds: `null` and `undefined` are empty, anything else is `String(value)`. */
  function CsvText(v: JsValue): (r: string)
    ensures IsNullish(v) ==> r == ""
    ensures v.JStr? ==> r == v.s
  {
    if IsNullish(v) then "" else ToStr(v)
  }

  /** `escapeCsvValue`: always quoted, inner quotes doubled. */
  function EscapeCsvValue(v: JsValue): (r: string)
    ensures |r| >= 2 && r[0] == '"' && r[|r| - 1] == '"'
  {
    ConsultaPresenca.Quoted(CsvText(v))
  }

  /** A quote-aware reader gives the cell's text back as exactly one field, whatever it holds. */
  lemma EscapeRoundTrip(v: JsValue)
    ensures ConsultaPresenca.Fields(EscapeCsvValue(v), ';') == [CsvText(v)]
  {
    ConsultaPresenca.QuotedFieldRoundTrip(CsvText(v), ';');
  }

  /** Each text quoted. */
  function QuoteAll(texts: seq<string>): (r: seq<string>)
    ensures |r| == |texts|
  {
    if texts == [] then [] else [ConsultaPresenca.Quoted(texts[0])] + QuoteAll(texts[1..])
  }

  /** One CSV line: the texts quoted and joined with `;`. */
  function Line(texts: seq<string>): string
  {
    Join(QuoteAll(texts), ';')
  }

  /** A line reads back, field by field, as the texts it was written from. */
  lemma {:induction false} LineRoundTrip(texts: seq<string>)
    requires texts != []
    ensures ConsultaPresenca.Fields(Line(texts), ';') == texts
  {
    var q := ConsultaPresenca.Quoted(texts[0]);
    if |texts| == 1 {
      assert Line(texts) == q;
      ConsultaPresenca.QuotedFieldRoundTrip(texts[0], ';');
    } else {
      var rest := Line(texts[1..]);
      assert QuoteAll(texts)[1..] == QuoteAll(texts[1..]);
      assert Line(texts) == q + [';'] + rest;
      LineRoundTrip(texts[1..]);
      QuotedThenFields(texts[0], rest);
      assert [texts[0]] + texts[1..] == texts;
    }
  }

  /** A quoted cell followed by `;` reads back as its text, then the fields after it. */
  lemma QuotedThenFields(s: string, rest: string)
    ensures ConsultaPresenca.Fields(ConsultaPresenca.Quoted(s) + [';'] + rest, ';') ==
      [s] + ConsultaPresenca.Fields(rest, ';')
  {
    var tail := [';'] + rest;
    var body := ConsultaPresenca.DoubleQuotes(s) + "\"" + tail;
    assert ConsultaPresenca.Quoted(s) + [';'] + rest == "\"" + body;
    assert ("\"" + body)[1..] == body;
    ConsultaPresenca.ScanQuoted(s, tail, ';', []);
    assert tail[1..] == rest;
    assert [] + s == s;
  }

  // ---------------------------------------------------------------------
  // buildCsv
  // ---------------------------------------------------------------------

  /** `Object.keys(row)` for the rows that count (`row && typeof row === 'object'`). */
  function RowKeys(row: JsValue): (ks: seq<string>)
    ensures !row.JObj? && !row.JArr? ==> ks == []
  {
    match row
    case JObj(entries) => seq(|entries|, i requires 0 <= i < |entries| => entries[i].0)
    case JArr(items) => seq(|items|, i requires 0 <= i < |items| => NatToString(i))
    case _ => []
  }

  /** The keys of the first `n` rows, one after the other, repeats included. */
  function AllKeys(rows: seq<JsValue>, keysOf: JsValue -> seq<string>, n: nat): seq<string>
    requires n <= |rows|
  {
    if n == 0 then [] else AllKeys(rows, keysOf, n - 1) + keysOf(rows[n - 1])
  }

  lemma {:induction false} AllKeysPrefix(rows: seq<JsValue>, keysOf: JsValue -> seq<string>, n: nat, m: nat)
    requires n <= m <= |rows|
    ensures |AllKeys(rows, keysOf, n)| <= |AllKeys(rows, keysOf, m)|
    ensures AllKeys(rows, keysOf, m)[..|AllKeys(rows, keysOf, n)|] == AllKeys(rows, keysOf, n)
    decreases m - n
  {
    if n < m {
      AllKeysPrefix(rows, keysOf, n, m - 1);
    }
  }

  /** A key is in the first `n` rows' keys exactly when one of those rows has it. */
  lemma {:induction false} AllKeysMembers(rows: seq<JsValue>, keysOf: JsValue -> seq<string>, n: nat, k: string)
    requires n <= |rows|
    ensures k in AllKeys(rows, keysOf, n) <==> exists i :: 0 <= i < n && k in keysOf(rows[i])
  {
    if n > 0 {
      AllKeysMembers(rows, keysOf, n - 1, k);
      assert k in AllKeys(rows, keysOf, n) <==> k in AllKeys(rows, keysOf, n - 1) || k in keysOf(rows[n - 1]);
    }
  }

  function Self(k: string): string { k }

  /** The header: every key of every row, each once, in the order first seen. */
  function Headers(rows: seq<JsValue>): (hs: seq<string>)
    ensures Distinct(hs)
  {
    var all := AllKeys(rows, RowKeys, |rows|);
    Grouping.GroupKeys(all, Self, |all|)
  }

  /** A key is a header exactly when some row has it. */
  lemma HeadersExact(rows: seq<JsValue>, k: string)
    ensures k in Headers(rows) <==> exists i :: 0 <= i < |rows| && k in RowKeys(rows[i])
  {
    var all := AllKeys(rows, RowKeys, |rows|);
    AllKeysMembers(rows, RowKeys, |rows|, k);
    if k in Headers(rows) {
      Grouping.GroupKeysOnlyRows(all, Self, |all|, k);
    }
    if k in all {
      var j :| 0 <= j < |all| && all[j] == k;
      assert Self(all[j]) == k;
    }
  }

  /**
   * The headers come in the order their keys are first seen: the rows'
   * keys before the first occurrence of header `t` are all earlier headers.
   */
  lemma HeadersFirstSeen(rows: seq<JsValue>, t: nat) returns (j: nat)
    requires t < |Headers(rows)|
    ensures j < |AllKeys(rows, RowKeys, |rows|)| && AllKeys(rows, RowKeys, |rows|)[j] == Headers(rows)[t]
    ensures forall j' :: 0 <= j' < j ==> AllKeys(rows, RowKeys, |rows|)[j'] in Headers(rows)[..t]
  {
    var all := AllKeys(rows, RowKeys, |rows|);
    j := Grouping.GroupKeyFirst(all, Self, |all|, t);
  }

  /** The property `key` of a row: an own entry of an object, an index or `length` of an array or a text. */
  function PropertyOf(row: JsValue, key: string): (r: JsValue)
    ensures row.JObj? ==> r == Get(row, key)
    ensures IsNullish(row) ==> r == JUndefined
  {
    match row
    case JObj(_) => Get(row, key)
    case JArr(items) =>
      if key == "length" then JNum(|items|)
      else if key != [] && AllDigits(key) && NatToString(ParseNat(key)) == key && ParseNat(key) < |items|
      then items[ParseNat(key)] else JUndefined
    case JStr(s) =>
      if key == "length" then JNum(|s|)
      else if key != [] && AllDigits(key) && NatToString(ParseNat(key)) == key && ParseNat(key) < |s|
      then JStr([s[ParseNat(key)]]) else JUndefined
    case _ => JUndefined
  }

  /** The texts of one row's cells, one per header. */
  function RowTexts(row: JsValue, hs: seq<string>): (r: seq<string>)
    ensures |r| == |hs|
    ensures forall j :: 0 <= j < |hs| ==> r[j] == CsvText(PropertyOf(row, hs[j]))
  {
    if hs == [] then [] else [CsvText(PropertyOf(row, hs[0]))] + RowTexts(row, hs[1..])
  }

  /** The lines of the first `n` rows. */
  function RowLines(rows: seq<JsValue>, hs: seq<string>, n: nat): (r: seq<string>)
    requires n <= |rows|
    ensures |r| == n
    ensures forall i :: 0 <= i < n ==> r[i] == Line(RowTexts(rows[i], hs))
  {
    if n == 0 then []
    else
      var prev := RowLines(rows, hs, n - 1);
      var last := Line(RowTexts(rows[n - 1], hs));
      assert forall i :: 0 <= i < n - 1 ==> (prev + [last])[i] == prev[i];
      prev + [last]
  }

  /** `lines.join(sep)` for a text separator. */
  function JoinWith(parts: seq<string>, sep: string): string
  {
    if parts == [] then []
    else if |parts| == 1 then parts[0]
    else parts[0] + sep + JoinWith(parts[1..], sep)
  }

  /** The lines of the export: the header line, then one line per row. */
  function CsvLines(rows: seq<JsValue>): (lines: seq<string>)
    ensures |lines| == |rows| + 1
  {
    [Line(Headers(rows))] + RowLines(rows, Headers(rows), |rows|)
  }

  /** `buildCsv`: no keys at all gives the empty text; otherwise the lines joined with CRLF. */
  function Csv(rows: seq<JsValue>): (csv: string)
    ensures csv == [] <==> Headers(rows) == []
  {
    if Headers(rows) == [] then []
    else
      var lines := CsvLines(rows);
      assert lines[0] == Join(QuoteAll(Headers(rows)), ';');
      assert lines[0] != [] by {
        assert QuoteAll(Headers(rows))[0] == ConsultaPresenca.Quoted(Headers(rows)[0]);
      }
      JoinWith(lines, "\r\n")
  }

  /**
   * Read back with a quote-aware reader, the header line gives the header
   * names and the line of row `i` gives that row's value under each header.
   */
  lemma CsvLinesRead(rows: seq<JsValue>, i: nat)
    requires Headers(rows) != [] && i < |rows|
    ensures ConsultaPresenca.Fields(CsvLines(rows)[0], ';') == Headers(rows)
    ensures ConsultaPresenca.Fields(CsvLines(rows)[i + 1], ';') == RowTexts(rows[i], Headers(rows))
  {
    LineRoundTrip(Headers(rows));
    LineRoundTrip(RowTexts(rows[i], Headers(rows)));
  }

  /** The elements of a list, as a set. */
  function SetOf(xs: seq<string>): (r: set<string>)
    ensures forall k :: k in r <==> k in xs
  {
    set k | k in xs
  }

  /** The keys of `all[..n]`, each once, in the order first seen: the loop's own view of `GroupKeys`. */
  function FirstSeen(all: seq<string>, n: nat): seq<string>
    requires n <= |all|
  {
    if n == 0 then []
    else
      var prev := FirstSeen(all, n - 1);
      if all[n - 1] in prev then prev else prev + [all[n - 1]]
  }

  lemma {:induction false} FirstSeenKeys(all: seq<string>, n: nat)
    requires n <= |all|
    ensures FirstSeen(all, n) == Grouping.GroupKeys(all, Self, n)
  {
    if n > 0 {
      FirstSeenKeys(all, n - 1);
      assert Self(all[n - 1]) == all[n - 1];
    }
  }

  /** The inner loop of the header collection: the keys of one row, added unless already seen. */
  method AddKeys(ghost all: seq<string>, ghost off: nat, keys: seq<string>, headers0: seq<string>, seen0: set<string>)
    returns (headers: seq<string>, seen: set<string>)
    requires off + |keys| <= |all| && all[off..off + |keys|] == keys
    requires headers0 == FirstSeen(all, off)
    requires seen0 == SetOf(headers0)
    ensures headers == FirstSeen(all, off + |keys|)
    ensures seen == SetOf(headers)
  {
    headers, seen := headers0, seen0;
    var j := 0;
    while j < |keys|
      invariant 0 <= j <= |keys|
      invariant headers == FirstSeen(all, off + j)
      invariant seen == SetOf(headers)
    {
      assert all[off..off + |keys|][j] == all[off + j];
      headers, seen := AddKey(all, off + j, keys[j], headers, seen);
      j := j + 1;
    }
  }

  /** One key of the inner loop: appended and marked seen unless already seen. */
  method AddKey(ghost all: seq<string>, ghost n: nat, key: string, headers0: seq<string>, seen0: set<string>)
    returns (headers: seq<string>, seen: set<string>)
    requires n < |all| && all[n] == key
    requires headers0 == FirstSeen(all, n)
    requires seen0 == SetOf(headers0)
    ensures headers == FirstSeen(all, n + 1)
    ensures seen == SetOf(headers)
  {
    if key in seen0 {
      headers, seen := headers0, seen0;
    } else {
      SetOfSnoc(headers0, key);
      headers, seen := headers0 + [key], seen0 + {key};
    }
  }

  lemma SetOfSnoc(xs: seq<string>, k: string)
    ensures SetOf(xs + [k]) == SetOf(xs) + {k}
  {
  }

  /** Where the keys of row `i` sit among the keys of all rows. */
  lemma RowKeysAt(rows: seq<JsValue>, keysOf: JsValue -> seq<string>, i: nat)
    requires i < |rows|
    ensures |AllKeys(rows, keysOf, i)| + |keysOf(rows[i])| == |AllKeys(rows, keysOf, i + 1)| <= |AllKeys(rows, keysOf, |rows|)|
    ensures AllKeys(rows, keysOf, |rows|)[|AllKeys(rows, keysOf, i)|..|AllKeys(rows, keysOf, i + 1)|] == keysOf(rows[i])
  {
    AllKeysPrefix(rows, keysOf, i + 1, |rows|);
    var all := AllKeys(rows, keysOf, |rows|);
    var pre := AllKeys(rows, keysOf, i);
    assert AllKeys(rows, keysOf, i + 1) == pre + keysOf(rows[i]);
    assert all[|pre|..|pre| + |keysOf(rows[i])|] == all[..|pre| + |keysOf(rows[i])|][|pre|..];
  }

  /** The header loop: a `seen` set and the list of keys in the order first seen. */
  method CollectKeys(rows: seq<JsValue>, keysOf: JsValue -> seq<string>) returns (headers: seq<string>)
    ensures headers == Grouping.GroupKeys(AllKeys(rows, keysOf, |rows|), Self, |AllKeys(rows, keysOf, |rows|)|)
  {
    ghost var all := AllKeys(rows, keysOf, |rows|);
    ghost var off: nat := 0;
    headers := [];
    var seen: set<string> := {};
    var i := 0;
    while i < |rows|
      invariant 0 <= i <= |rows|
      invariant off == |AllKeys(rows, keysOf, i)| <= |all|
      invariant headers == FirstSeen(all, off)
      invariant seen == SetOf(headers)
    {
      RowKeysAt(rows, keysOf, i);
      var keys := keysOf(rows[i]);
      headers, seen := AddKeys(all, off, keys, headers, seen);
      off := |AllKeys(rows, keysOf, i + 1)|;
      i := i + 1;
    }
    FirstSeenKeys(all, |all|);
  }

  /** The header loop of `buildCsv`, over `Object.keys` of each row. */
  method CollectHeaders(rows: seq<JsValue>) returns (headers: seq<string>)
    ensures headers == Headers(rows)
  {
    headers := CollectKeys(rows, RowKeys);
  }

  /** The line loop of `buildCsv`: the header line, then one line per row. */
  method BuildLines(rows: seq<JsValue>, headers: seq<string>) returns (lines: seq<string>)
    ensures lines == [Line(headers)] + RowLines(rows, headers, |rows|)
  {
    lines := [Line(headers)];
    var i := 0;
    while i < |rows|
      invariant 0 <= i <= |rows|
      invariant lines == [Line(headers)] + RowLines(rows, headers, i)
    {
      lines := lines + [Line(RowTexts(rows[i], headers))];
      i := i + 1;
    }
  }

  /** `buildCsv`. */
  method BuildCsv(rows: seq<JsValue>) returns (csv: string)
    ensures csv == Csv(rows)
  {
    var headers := CollectHeaders(rows);
    if |headers| == 0 {
      return "";
    }
    var lines := BuildLines(rows, headers);
    assert lines == CsvLines(rows);
    csv := JoinWith(lines, "\r\n");
  }

  // ---------------------------------------------------------------------
  // sanitizeFilePart and buildDownloadFileName
  // ---------------------------------------------------------------------

  /** `[\w.-]`: ASCII letters, digits, `_`, `.` and `-`. */
  predicate IsFileChar(c: char) { IsWordChar(c) || c == '.' || c == '-' }

  /** The length of the run of characters `[^\w.-]` at the start of `s`. */
  function BadRun(s: string): (k: nat)
    ensures k <= |s|
    ensures forall i :: 0 <= i < k ==> !IsFileChar(s[i])
    ensures k < |s| ==> IsFileChar(s[k])
  {
    if s == [] || IsFileChar(s[0]) then 0 else 1 + BadRun(s[1..])
  }

  /** `replace(/[^\w.-]+/g, '_')`: each run of other characters becomes one `_`. */
  function ReplaceRuns(s: string): (r: string)
    ensures AllIn(r, IsFileChar)
    ensures s != [] ==> r != []
    decreases |s|
  {
    if s == [] then []
    else if IsFileChar(s[0]) then [s[0]] + ReplaceRuns(s[1..])
    else "_" + ReplaceRuns(s[BadRun(s)..])
  }

  /** `sanitizeFilePart`: the trimmed text with unsafe runs replaced; blank gives the empty text. */
  function SanitizeFilePart(v: JsValue): (r: string)
    ensures AllIn(r, IsFileChar)
    ensures r == [] <==> JsTrim(TextOf(v)) == []
  {
    var raw := JsTrim(TextOf(v));
    if raw == [] then [] else ReplaceRuns(raw)
  }

  /** A text of file-safe characters is left as it is. */
  lemma {:induction false} ReplaceRunsOfSafe(s: string)
    requires AllIn(s, IsFileChar)
    ensures ReplaceRuns(s) == s
  {
    if s != [] {
      ReplaceRunsOfSafe(s[1..]);
      assert [s[0]] + s[1..] == s;
    }
  }

  /** Sanitising twice is sanitising once. */
  lemma SanitizeIdempotent(v: JsValue)
    ensures SanitizeFilePart(JStr(SanitizeFilePart(v))) == SanitizeFilePart(v)
  {
    var r := SanitizeFilePart(v);
    assert TextOf(JStr(r)) == r;
    SafeIsTrimmed(r);
    if r != [] {
      ReplaceRunsOfSafe(r);
    }
  }

  /** File-safe characters are never JavaScript whitespace, so trimming keeps a safe text. */
  lemma SafeIsTrimmed(r: string)
    requires AllIn(r, IsFileChar)
    ensures JsTrim(r) == r
  {
    if r != [] {
      assert IsFileChar(r[0]) && IsFileChar(r[|r| - 1]);
    }
    TrimOfTrimmed(r, IsJsSpace);
  }

  /** The characters the replacement never touches: file-safe, other than the `_` it writes. */
  predicate Kept(c: char) { IsFileChar(c) && c != '_' }

  lemma {:induction false} FilterSkipsRun(s: string, k: nat)
    requires k <= |s| && forall i :: 0 <= i < k ==> !IsFileChar(s[i])
    ensures Filter(s, Kept) == Filter(s[k..], Kept)
  {
    if k > 0 {
      assert s[1..][k - 1..] == s[k..];
      FilterSkipsRun(s[1..], k - 1);
    }
  }

  /** Every file-safe character other than `_` comes through, in order, and nothing else is added. */
  lemma {:induction false} ReplaceRunsKeeps(s: string)
    ensures Filter(ReplaceRuns(s), Kept) == Filter(s, Kept)
    decreases |s|
  {
    if s != [] {
      if IsFileChar(s[0]) {
        ReplaceRunsKeeps(s[1..]);
        assert ([s[0]] + ReplaceRuns(s[1..]))[1..] == ReplaceRuns(s[1..]);
      } else {
        var k := BadRun(s);
        ReplaceRunsKeeps(s[k..]);
        FilterSkipsRun(s, k);
        assert ("_" + ReplaceRuns(s[k..]))[1..] == ReplaceRuns(s[k..]);
      }
    }
  }

  /** `DEFAULT_EMPRESA_OPTION`. */
  const DefaultEmpresa: JsValue := JStr("all")

  /** Whether the file name names the company: a truthy choice other than "all". */
  predicate NamesEmpresa(empresa: JsValue) { Truthy(empresa) && empresa != DefaultEmpresa }

  /** The start/end part of the name, with the `inicio`/`fim` fallbacks. */
  function RangePart(range: JsValue): (r: string)
    ensures AllIn(r, IsFileChar)
    ensures StartsWith(r, "andamento_")
  {
    var start := SanitizeFilePart(Or(Get(range, "startDate"), JStr("inicio")));
    var end := SanitizeFilePart(Or(Get(range, "finalDate"), JStr("fim")));
    LiteralsSafe();
    SafeJoin("andamento_", start, "_", end);
    PrefixKept("andamento_", start, "_", end);
    "andamento_" + start + "_" + end
  }

  lemma PrefixKept(a: string, b: string, c: string, d: string)
    ensures StartsWith(a + b + c + d, a)
  {
    assert (a + b + c + d)[..|a|] == a;
  }

  /** The fixed parts of the file name are file-safe. */
  lemma LiteralsSafe()
    ensures AllIn("andamento_", IsFileChar) && AllIn("_", IsFileChar) && AllIn("_empresa-", IsFileChar)
    ensures AllIn(".csv", IsFileChar) && AllIn("", IsFileChar)
  {
    var a := "andamento_";
    forall i | 0 <= i < |a| ensures IsFileChar(a[i]) {
      assert a[i] == '_' || IsAsciiLower(a[i]);
    }
    var b := "_empresa-";
    forall i | 0 <= i < |b| ensures IsFileChar(b[i]) {
      assert b[i] == '_' || b[i] == '-' || IsAsciiLower(b[i]);
    }
    var c := ".csv";
    forall i | 0 <= i < |c| ensures IsFileChar(c[i]) {
      assert c[i] == '.' || IsAsciiLower(c[i]);
    }
  }

  /** Four file-safe texts in a row make a file-safe text. */
  lemma SafeAppend(a: string, b: string)
    requires AllIn(a, IsFileChar) && AllIn(b, IsFileChar)
    ensures AllIn(a + b, IsFileChar)
  {
    forall i | 0 <= i < |a + b| ensures IsFileChar((a + b)[i]) {
      if i < |a| { assert (a + b)[i] == a[i]; } else { assert (a + b)[i] == b[i - |a|]; }
    }
  }

  lemma SafeJoin(a: string, b: string, c: string, d: string)
    requires AllIn(a, IsFileChar) && AllIn(b, IsFileChar) && AllIn(c, IsFileChar) && AllIn(d, IsFileChar)
    ensures AllIn(a + b + c + d, IsFileChar)
  {
    var s := a + b + c + d;
    forall i | 0 <= i < |s| ensures IsFileChar(s[i]) {
      if i < |a| { assert s[i] == a[i]; }
      else if i < |a| + |b| { assert s[i] == b[i - |a|]; }
      else if i < |a| + |b| + |c| { assert s[i] == c[i - |a| - |b|]; }
      else { assert s[i] == d[i - |a| - |b| - |c|]; }
    }
  }

  /** The company part of the name: present only when a company is chosen. */
  function EmpresaPart(empresa: JsValue): (r: string)
    ensures AllIn(r, IsFileChar)
    ensures NamesEmpresa(empresa) ==> r == "_empresa-" + SanitizeFilePart(empresa)
    ensures !NamesEmpresa(empresa) ==> r == ""
  {
    LiteralsSafe();
    SafeAppend("_empresa-", SanitizeFilePart(empresa));
    if NamesEmpresa(empresa) then "_empresa-" + SanitizeFilePart(empresa) else ""
  }

  /** `buildDownloadFileName`. */
  function BuildDownloadFileName(range: JsValue, empresa: JsValue): (r: string)
    ensures AllIn(r, IsFileChar)
    ensures r == RangePart(range) + EmpresaPart(empresa) + ".csv"
  {
    var prefix := RangePart(range);
    var empresaPart := EmpresaPart(empresa);
    LiteralsSafe();
    SafeAppend(prefix, empresaPart);
    SafeAppend(prefix + empresaPart, ".csv");
    prefix + empresaPart + ".csv"
  }

  /** Every file name is `andamento_….csv`. */
  lemma FileNameShape(range: JsValue, empresa: JsValue)
    ensures StartsWith(BuildDownloadFileName(range, empresa), "andamento_")
    ensures EndsWith(BuildDownloadFileName(range, empresa), ".csv")
  {
    Framed(RangePart(range), EmpresaPart(empresa), "andamento_", ".csv");
  }

  lemma Framed(p: string, q: string, pre: string, suf: string)
    requires StartsWith(p, pre)
    ensures StartsWith(p + q + suf, pre) && EndsWith(p + q + suf, suf)
  {
    assert (p + q + suf)[..|pre|] == p[..|pre|];
    assert (p + q + suf)[|p + q + suf| - |suf|..] == suf;
  }

  /** Choosing "all" companies or none gives the same file name. */
  lemma DefaultEmpresaUnnamed(range: JsValue)
    ensures BuildDownloadFileName(range, DefaultEmpresa) == BuildDownloadFileName(range, JUndefined)
    ensures |BuildDownloadFileName(range, DefaultEmpresa)| == |RangePart(range)| + 4
  {
  }
}
