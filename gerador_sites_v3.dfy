/**
 * The business-manager list of the site generator: reading the webhook's
 * response text into objects (one JSON document, balanced `{...}` blocks cut
 * out of the text, or one object per line), removing rows with a repeated
 * id, and the labels shown for a WhatsApp sending tier, a phone number and
 * the number of connections a tier allows.
 *
 * `JSON.parse` is the parameter `parse`: `None` stands for a text it
 * rejects.
 */
module GeradorSitesV3 {
  import opened Base
  import opened Js
  import opened Keyed

  // ---------------------------------------------------------------------
  // Brace scanner
  // ---------------------------------------------------------------------

  /** The brace depth after the first `k` characters: each `{` adds one, each `}` takes one away. */
  function Depth(raw: string, k: nat): int
    requires k <= |raw|
  {
    if k == 0 then 0
    else Depth(raw, k - 1) + (if raw[k - 1] == '{' then 1 else if raw[k - 1] == '}' then -1 else 0)
  }

  /** The last place at or before `k` where the depth is zero. */
  function LastZero(raw: string, k: nat): (p: nat)
    requires k <= |raw|
    ensures p <= k && Depth(raw, p) == 0
    ensures forall q :: p < q <= k ==> Depth(raw, q) != 0
  {
    if Depth(raw, k) == 0 then k else LastZero(raw, k - 1)
  }

  /**
   * `raw[s..e]` is a block: it opens at depth zero, stays above zero inside
   * and comes back to zero at its end.
   */
  predicate IsBlock(raw: string, s: nat, e: nat) {
    s < e <= |raw| && raw[s] == '{' && Depth(raw, s) == 0 && Depth(raw, e) == 0 &&
    forall k :: s < k < e ==> Depth(raw, k) > 0
  }

  /** The character before position `k` closes a block. */
  predicate Closes(raw: string, k: nat)
    requires 0 < k <= |raw|
  {
    raw[k - 1] == '}' && Depth(raw, k) == 0 && Depth(raw, k - 1) > 0
  }

  /** The blocks that end within the first `n` characters, in order. */
  function Blocks(raw: string, n: nat): (spans: seq<(nat, nat)>)
    requires n <= |raw|
    ensures forall j :: 0 <= j < |spans| ==> spans[j].1 <= n
  {
    if n == 0 then []
    else Blocks(raw, n - 1) + (if Closes(raw, n) then [(LastZero(raw, n - 1), n)] else [])
  }

  /** From a positive depth back to the last zero, the depth stays positive. */
  lemma {:induction false} PositiveSinceZero(raw: string, p: nat, k: nat)
    requires p < k <= |raw| && Depth(raw, k) > 0
    requires forall q :: p < q <= k ==> Depth(raw, q) != 0
    ensures forall q :: p < q <= k ==> Depth(raw, q) > 0
    decreases k - p
  {
    if p < k - 1 {
      assert Depth(raw, k - 1) != 0;
      PositiveSinceZero(raw, p, k - 1);
    }
  }

  /** Every listed span is a block, and spans come in increasing order. */
  lemma {:induction false} BlocksAreBlocks(raw: string, n: nat)
    requires n <= |raw|
    ensures forall j :: 0 <= j < |Blocks(raw, n)| ==> IsBlock(raw, Blocks(raw, n)[j].0, Blocks(raw, n)[j].1)
    ensures forall a, b :: 0 <= a < b < |Blocks(raw, n)| ==> Blocks(raw, n)[a].1 <= Blocks(raw, n)[b].0
  {
    if n > 0 {
      BlocksAreBlocks(raw, n - 1);
      if Closes(raw, n) {
        var p := LastZero(raw, n - 1);
        PositiveSinceZero(raw, p, n - 1);
        assert Depth(raw, p + 1) > 0;
        ClosedBefore(raw, n - 1, p);
      }
    }
  }

  /** The blocks ending within the first `n` characters end at or before any later zero-depth opening. */
  lemma {:induction false} ClosedBefore(raw: string, n: nat, p: nat)
    requires p <= n <= |raw| && forall q :: p < q <= n ==> Depth(raw, q) > 0
    ensures forall j :: 0 <= j < |Blocks(raw, n)| ==> Blocks(raw, n)[j].1 <= p
  {
    if n > p {
      ClosedBefore(raw, n - 1, p);
    }
  }

  /** Every block is listed. */
  lemma {:induction false} BlocksComplete(raw: string, n: nat, s: nat, e: nat)
    requires n <= |raw| && e <= n && IsBlock(raw, s, e)
    ensures (s, e) in Blocks(raw, n)
  {
    if e < n {
      BlocksComplete(raw, n - 1, s, e);
    } else {
      assert Depth(raw, s + 1) == 1;
      assert Depth(raw, e - 1) > 0;
      assert Closes(raw, n);
      var p := LastZero(raw, n - 1);
      assert Depth(raw, p) == 0 && Depth(raw, s) == 0;
    }
  }

  /** A block's text starts with `{` and ends with the `}` that brings the depth back to zero. */
  lemma BlockBraces(raw: string, s: nat, e: nat)
    requires IsBlock(raw, s, e)
    ensures raw[s] == '{' && raw[e - 1] == '}'
  {
    assert Depth(raw, s + 1) == 1;
    assert Depth(raw, e - 1) > 0;
  }

  /** The scanning loop of `parseResponseToArray`: the spans of the balanced blocks, in order. */
  method ScanBlocks(raw: string) returns (spans: seq<(nat, nat)>)
    ensures spans == Blocks(raw, |raw|)
  {
    spans := [];
    var depth := 0;
    var start := -1;
    var i := 0;
    while i < |raw|
      invariant 0 <= i <= |raw|
      invariant depth == Depth(raw, i)
      invariant spans == Blocks(raw, i)
      invariant depth > 0 ==> start == LastZero(raw, i)
    {
      var ch := raw[i];
      if ch == '{' {
        if depth == 0 {
          start := i;
        }
        depth := depth + 1;
      } else if ch == '}' {
        depth := depth - 1;
        if depth == 0 && start != -1 {
          spans := spans + [(start, i + 1)];
        }
      }
      i := i + 1;
    }
  }

  function SpanText(raw: string, span: (nat, nat)): string {
    if span.0 <= span.1 <= |raw| then raw[span.0..span.1] else ""
  }

  function BlockTexts(raw: string, spans: seq<(nat, nat)>): (ts: seq<string>)
    ensures |ts| == |spans| && forall j :: 0 <= j < |spans| ==> ts[j] == SpanText(raw, spans[j])
  {
    seq(|spans|, j requires 0 <= j < |spans| => SpanText(raw, spans[j]))
  }

  // ---------------------------------------------------------------------
  // parseResponseToArray
  // ---------------------------------------------------------------------

  /** A line of the one-object-per-line fallback: trimmed, trailing commas removed, kept when braced. */
  function LineObject(line: string, parse: string -> Option<JsValue>): Option<JsValue> {
    var t := DropTrailing(JsTrim(line), ',');
    if StartsWith(t, "{") && EndsWith(t, "}") then parse(t) else None
  }

  /** `s.replace(/c+$/, '')`. */
  function DropTrailing(s: string, c: char): (r: string)
    ensures |r| <= |s|
    ensures r == s[..|r|] && (r == [] || r[|r| - 1] != c)
    ensures forall i :: |r| <= i < |s| ==> s[i] == c
  {
    if s != [] && s[|s| - 1] == c then DropTrailing(s[..|s| - 1], c) else s
  }

  function LineParser(parse: string -> Option<JsValue>): string -> Option<JsValue> {
    (line: string) => LineObject(line, parse)
  }

  /**
   * `parseResponseToArray`: nothing for an empty text; the array, or the
   * object, the whole text parses to; otherwise the blocks that parse; when
   * none does, the lines that hold an object.
   */
  function ParseResponse(raw: string, parse: string -> Option<JsValue>): (items: seq<JsValue>)
    ensures raw == [] ==> items == []
    ensures raw != [] && parse(raw).Some? && parse(raw).value.JArr? ==> items == parse(raw).value.items
    ensures raw != [] && parse(raw).Some? && parse(raw).value.JObj? ==> items == [parse(raw).value]
  {
    if raw == [] then []
    else if parse(raw).Some? && parse(raw).value.JArr? then parse(raw).value.items
    else if parse(raw).Some? && parse(raw).value.JObj? then [parse(raw).value]
    else
      var items := FilterMap(BlockTexts(raw, Blocks(raw, |raw|)), parse);
      if items != [] then items else FilterMap(SplitLines(raw), LineParser(parse))
  }

  /** Every object the scanner reads comes from the text of a balanced block. */
  lemma ScannedFromBlocks(raw: string, parse: string -> Option<JsValue>, v: JsValue) returns (s: nat, e: nat)
    requires v in FilterMap(BlockTexts(raw, Blocks(raw, |raw|)), parse)
    ensures IsBlock(raw, s, e) && parse(raw[s..e]) == Some(v)
  {
    var texts := BlockTexts(raw, Blocks(raw, |raw|));
    var j := FilterMapSource(texts, parse, v);
    BlocksAreBlocks(raw, |raw|);
    s, e := Blocks(raw, |raw|)[j].0, Blocks(raw, |raw|)[j].1;
    assert texts[j] == raw[s..e];
  }

  /** The source of an element of a `FilterMap`. */
  lemma {:induction false} FilterMapSource<T, U>(xs: seq<T>, f: T -> Option<U>, v: U) returns (j: nat)
    requires v in FilterMap(xs, f)
    ensures j < |xs| && f(xs[j]) == Some(v)
  {
    var k :| 0 <= k < |FilterMap(xs, f)| && FilterMap(xs, f)[k] == v;
    FilterMapFrom(xs, f, k);
    j :| 0 <= j < |xs| && f(xs[j]) == Some(v);
  }

  method ParseResponseToArray(raw: string, parse: string -> Option<JsValue>) returns (items: seq<JsValue>)
    ensures items == ParseResponse(raw, parse)
  {
    if raw == [] {
      return [];
    }
    var whole := parse(raw);
    if whole.Some? && whole.value.JArr? {
      return whole.value.items;
    }
    if whole.Some? && whole.value.JObj? {
      return [whole.value];
    }
    var spans := ScanBlocks(raw);
    items := ParseAll(BlockTexts(raw, spans), parse);
    if items == [] {
      items := ParseAll(SplitLines(raw), LineParser(parse));
    }
  }

  /** The `try { items.push(JSON.parse(text)) } catch {}` loop. */
  method ParseAll(texts: seq<string>, parse: string -> Option<JsValue>) returns (items: seq<JsValue>)
    ensures items == FilterMap(texts, parse)
  {
    items := [];
    var i := 0;
    while i < |texts|
      invariant 0 <= i <= |texts|
      invariant items == FilterMap(texts[..i], parse)
    {
      FilterMapSnoc(texts, parse, i);
      match parse(texts[i]) {
        case Some(v) => items := items + [v];
        case None =>
      }
      i := i + 1;
    }
    assert texts[..|texts|] == texts;
  }

  // ---------------------------------------------------------------------
  // dedupeById
  // ---------------------------------------------------------------------

  /** `(r.id ?? '').toString().trim()`. */
  function IdKey(row: JsValue): string { JsTrim(TextOf(Get(row, "id"))) }

  predicate HasIdKey(row: JsValue) { IdKey(row) != [] }

  /** `dedupeById`: the first row per non-empty id, every row without one, in order. */
  method DedupeById(rows: seq<JsValue>) returns (out: seq<JsValue>)
    ensures out == DedupeFirst(rows, IdKey, HasIdKey)
  {
    out := DedupeFirstLoop(rows, IdKey, HasIdKey);
  }

  /**
   * The rows `dedupeById` keeps carry distinct ids, cover every id of the
   * input, and keeping them again changes nothing.
   */
  lemma DedupeByIdUnique(rows: seq<JsValue>)
    ensures var out := DedupeFirst(rows, IdKey, HasIdKey);
      (forall a, b :: 0 <= a < b < |out| && HasIdKey(out[a]) && HasIdKey(out[b]) ==> IdKey(out[a]) != IdKey(out[b])) &&
      KeySet(out, IdKey, HasIdKey) == KeySet(rows, IdKey, HasIdKey) &&
      DedupeFirst(out, IdKey, HasIdKey) == out
  {
    DedupeFirstDistinct(rows, IdKey, HasIdKey);
    DedupeFirstKeys(rows, IdKey, HasIdKey);
    DedupeFirstIdempotent(rows, IdKey, HasIdKey);
  }

  // ---------------------------------------------------------------------
  // Labels
  // ---------------------------------------------------------------------

  /** `mapWhatsappLimit`: "-" when missing, the tier names spelled out, anything else unchanged. */
  function MapWhatsappLimit(value: JsValue): (r: JsValue)
    ensures IsNullish(value) || value == JStr("") ==> r == JStr("-")
    ensures !(IsNullish(value) || value == JStr("")) && Upper(ToStr(value)) == "TIER_2K" ==> r == JStr("2.000")
    ensures !(IsNullish(value) || value == JStr("")) && Upper(ToStr(value)) == "TIER_250" ==> r == JStr("250")
    ensures r == JStr("-") || r == JStr("2.000") || r == JStr("250") || r == value
  {
    if IsNullish(value) || value == JStr("") then JStr("-")
    else
      var s := Upper(ToStr(value));
      if s == "TIER_2K" then JStr("2.000")
      else if s == "TIER_250" then JStr("250")
      else value
  }

  /** `/^\d{10}$/`-style shape tests on the digits. */
  predicate IsUsTollNumber(d: string) { AllDigits(d) && |d| == 11 && d[0] == '1' }

  /** "+1 ddd-ddd-dddd" for ten digits, or for eleven after their leading 1. */
  function NanpMask(d: string): string
    requires AllDigits(d) && (|d| == 10 || |d| == 11)
  {
    var k := if |d| == 11 then 1 else 0;
    "+1 " + d[k..k + 3] + "-" + d[k + 3..k + 6] + "-" + d[k + 6..]
  }

  /** `formatPhoneTitle`: a North American number as "+1 ddd-ddd-dddd", otherwise the text or "Sem Telefone". */
  function FormatPhoneTitle(phone: JsValue): (r: string)
    ensures var d := Digits(JsTrim(TextOf(phone)));
      !IsUsTollNumber(d) && |d| != 10 ==> r == (if JsTrim(TextOf(phone)) == [] then "Sem Telefone" else JsTrim(TextOf(phone)))
  {
    var str := JsTrim(TextOf(phone));
    var digits := Digits(str);
    if IsUsTollNumber(digits) || |digits| == 10 then NanpMask(digits)
    else if str == [] then "Sem Telefone"
    else str
  }

  /** The digits of the mask: the eleven digits of "1" and the national number. */
  lemma NanpMaskDigits(d: string)
    requires IsUsTollNumber(d) || (AllDigits(d) && |d| == 10)
    ensures Digits(NanpMask(d)) == (if |d| == 11 then d else "1" + d)
  {
    var k := if |d| == 11 then 1 else 0;
    var a, b, c := d[k..k + 3], d[k + 3..k + 6], d[k + 6..];
    CountryCodeDigits();
    NoDigits("-");
    DigitsTitle("+1 ", a, "-", b, c);
    NationalParts(d, k);
  }

  lemma CountryCodeDigits()
    ensures Digits("+1 ") == "1"
  {
    assert "+1 "[1..] == "1 " && "1 "[1..] == " ";
    assert Digits(" ") == [] by { assert " "[1..] == []; }
  }

  /** The three groups of the mask cover the national number, after the leading 1 if there is one. */
  lemma NationalParts(d: string, k: nat)
    requires IsUsTollNumber(d) || (AllDigits(d) && |d| == 10)
    requires k == if |d| == 11 then 1 else 0
    ensures (if |d| == 11 then d else "1" + d) == "1" + d[k..k + 3] + d[k + 3..k + 6] + d[k + 6..]
  {
    assert d[k..] == d[k..k + 3] + d[k + 3..k + 6] + d[k + 6..];
    if k == 1 {
      assert d == [d[0]] + d[1..];
    } else {
      assert d == d[k..];
    }
  }

  /** Ten digits, or eleven starting with 1, come out as the eleven digits of "1" and the number. */
  lemma FormatPhoneTitleDigits(phone: JsValue)
    requires var d := Digits(JsTrim(TextOf(phone))); IsUsTollNumber(d) || |d| == 10
    ensures var d := Digits(JsTrim(TextOf(phone)));
      Digits(FormatPhoneTitle(phone)) == (if |d| == 11 then d else "1" + d)
  {
    NanpMaskDigits(Digits(JsTrim(TextOf(phone))));
  }

  lemma DigitsTitle(p1: string, a: string, sep: string, b: string, c: string)
    requires AllDigits(a) && AllDigits(b) && AllDigits(c) && Digits(sep) == []
    ensures Digits(p1 + a + sep + b + sep + c) == Digits(p1) + a + b + c
  {
    var s1 := p1 + a + sep;
    var s2 := s1 + b + sep;
    DigitsAfter(p1, a, sep);
    DigitsAfter(s1, b, sep);
    DigitsAppend(s2, c);
    DigitsOfDigits(c);
  }

  /** `connectionCapacity`: 2 connections for the 250 tier, 5 for the 2K tier, no limit (`None`) otherwise. */
  function ConnectionCapacity(limitRaw: JsValue): (r: Option<nat>)
    ensures r == None || r == Some(2) || r == Some(5)
    ensures var s := Upper(JsTrim(TextOf(limitRaw)));
      (r == Some(2) <==> s == "TIER_250" || s == "250") &&
      (r == Some(5) <==> s == "TIER_2K" || s == "2000" || s == "2K" || s == "2.000")
  {
    var s := Upper(JsTrim(TextOf(limitRaw)));
    if s == "TIER_250" || s == "250" then Some(2)
    else if s == "TIER_2K" || s == "2000" || s == "2K" || s == "2.000" then Some(5)
    else None
  }

  /** The warning of `renderConexoesCell`: more numbers connected than the tier recommends. */
  predicate Overflow(connected: nat, limitRaw: JsValue) {
    var cap := ConnectionCapacity(limitRaw);
    cap.Some? && connected > cap.value
  }

  /**
   * The warning is monotone: connecting more numbers never clears it, and
   * a higher tier (2K over 250, unlimited over both) never raises it.
   */
  lemma OverflowMonotone(c1: nat, c2: nat, lower: JsValue, higher: JsValue)
    requires c1 <= c2
    requires ConnectionCapacity(lower).Some?
    requires ConnectionCapacity(higher).None? || ConnectionCapacity(higher).value >= ConnectionCapacity(lower).value
    ensures Overflow(c1, lower) ==> Overflow(c2, lower)
    ensures Overflow(c1, higher) ==> Overflow(c1, lower)
    ensures !Overflow(c2, lower) ==> !Overflow(c1, higher)
  {
  }

  /** The capacity matches the label `mapWhatsappLimit` shows for a tier name. */
  lemma CapacityOfLabel(value: JsValue)
    requires value.JStr? && MapWhatsappLimit(value) != JStr("-")
    ensures MapWhatsappLimit(value) == JStr("2.000") ==> ConnectionCapacity(MapWhatsappLimit(value)) == Some(5)
    ensures MapWhatsappLimit(value) == JStr("250") ==> ConnectionCapacity(MapWhatsappLimit(value)) == Some(2)
  {
    CapacityOfText("2.000");
    CapacityOfText("250");
  }

  /** A label without spaces or lower-case letters is read as it is written. */
  lemma CapacityOfText(s: string)
    requires s == "2.000" || s == "250"
    ensures Upper(JsTrim(TextOf(JStr(s)))) == s
  {
    TrimOfTrimmed(s, IsJsSpace);
    UpperOfNoLower(s);
  }
}
