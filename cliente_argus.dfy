/**
 * The formatters of the Argus client page: CPF and benefit masks, the date
 * and CEP normalisers, the count of filled fields, the removal of zero
 * cents, and the competence date.
 */
module ClienteArgus {
  import opened Base
  import opened Js

  /** `String(value || '').replace(/\D/g, '')`: a falsy value reads as no digits. */
  function InputDigits(value: JsValue): (r: string)
    ensures AllDigits(r)
  {
    Digits(ToStr(Or(value, JStr(""))))
  }

  // ---------------------------------------------------------------------
  // CPF and benefit number
  // ---------------------------------------------------------------------

  /** Digits of two digit runs around a separator: the runs, together. */
  lemma DigitsAroundRuns(a: string, c: char, b: string)
    requires AllDigits(a) && AllDigits(b) && !IsDigit(c)
    ensures Digits(a + [c] + b) == a + b
  {
    DigitsAround(a, c, b);
    DigitsOfDigits(b);
  }

  /** Up to three groups of three digits, joined by dots. */
  function DottedGroups(v: string): (out: string)
    requires AllDigits(v)
    ensures Digits(out) == Take(v, 9)
  {
    if |v| > 6 then
      var a, b, c := v[..3], v[3..6], Slice(v, 6, 9);
      DigitsAroundRuns(b, '.', c);
      DigitsAround(a, '.', b + ['.'] + c);
      assert a + ['.'] + (b + ['.'] + c) == a + "." + b + "." + c;
      assert a + (b + c) == Take(v, 9);
      a + "." + b + "." + c
    else if |v| > 3 then
      var a, b := v[..3], v[3..];
      DigitsAroundRuns(a, '.', b);
      assert a + b == v;
      a + "." + b
    else
      DigitsOfDigits(v);
      v
  }

  /** The dotted groups, and the rest of at most 11 digits after a dash. */
  function CpfMask(v: string): (r: string)
    requires AllDigits(v) && |v| <= 11
    ensures Digits(r) == v
  {
    var out := DottedGroups(v);
    if |v| > 9 then
      NoDigits("-");
      DigitsPush(out, "-", v[9..]);
      assert v[..9] + v[9..] == v;
      out + "-" + v[9..]
    else
      out
  }

  /**
   * `formatCpf`: the first 11 digits, grouped `ddd.ddd.ddd-dd` as far as
   * they go.
   */
  function FormatCpf(value: JsValue): (r: string)
  {
    CpfMask(Take(InputDigits(value), 11))
  }

  /** The mask only adds separators: its digits are the first 11 of the input. */
  lemma FormatCpfDigits(value: JsValue)
    ensures Digits(FormatCpf(value)) == Take(InputDigits(value), 11)
  {
  }

  /** Eleven digits fill the whole mask `ddd.ddd.ddd-dd`. */
  lemma FormatCpfFull(value: JsValue)
    requires |Take(InputDigits(value), 11)| == 11
    ensures var v := Take(InputDigits(value), 11);
      FormatCpf(value) == v[..3] + "." + v[3..6] + "." + v[6..9] + "-" + v[9..]
  {
  }

  /**
   * `formatBeneficio`: the first 10 digits, grouped `ddd.ddd.ddd-d` as far
   * as they go.
   */
  function FormatBeneficio(value: JsValue): (r: string)
  {
    var v := Take(InputDigits(value), 10);
    var p1, p2, p3, p4 := Slice(v, 0, 3), Slice(v, 3, 6), Slice(v, 6, 9), Slice(v, 9, 10);
    if p4 != [] then p1 + "." + p2 + "." + p3 + "-" + p4
    else if p3 != [] then p1 + "." + p2 + "." + p3
    else if p2 != [] then p1 + "." + p2
    else p1
  }

  /** The benefit mask is the CPF mask laid over at most ten digits. */
  lemma BeneficioIsCpfMask(value: JsValue)
    ensures FormatBeneficio(value) == CpfMask(Take(InputDigits(value), 10))
  {
  }

  /** The benefit mask only adds separators: its digits are the first 10 of the input. */
  lemma FormatBeneficioDigits(value: JsValue)
    ensures Digits(FormatBeneficio(value)) == Take(InputDigits(value), 10)
  {
    BeneficioIsCpfMask(value);
  }

  /** Ten digits fill the whole mask `ddd.ddd.ddd-d`. */
  lemma FormatBeneficioFull(value: JsValue)
    requires |Take(InputDigits(value), 10)| == 10
    ensures var v := Take(InputDigits(value), 10);
      FormatBeneficio(value) == v[..3] + "." + v[3..6] + "." + v[6..9] + "-" + v[9..]
  {
  }

  // ---------------------------------------------------------------------
  // Dates, CEP and amounts
  // ---------------------------------------------------------------------

  /** `String(value ?? '').trim()`. */
  function Raw(value: JsValue): (r: string)
    ensures r == [] || (!IsJsSpace(r[0]) && !IsJsSpace(r[|r| - 1]))
  {
    JsTrim(TextOf(value))
  }

  /** `/^\d{8}$/`. */
  predicate IsCompactDate(s: string) { |s| == 8 && AllDigits(s) }

  /** `YYYY-MM-DD` from the eight digits of `YYYYMMDD`. */
  function DashedDate(raw: string): (r: string)
    requires IsCompactDate(raw)
    ensures |r| == 10 && r[4] == '-' && r[7] == '-' && Digits(r) == raw
  {
    var a, b, c := raw[..4], raw[4..6], raw[6..];
    DigitsAroundRuns(b, '-', c);
    DigitsAround(a, '-', b + ['-'] + c);
    assert a + ['-'] + (b + ['-'] + c) == a + "-" + b + "-" + c;
    assert a + (b + c) == raw;
    a + "-" + b + "-" + c
  }

  /** `normalizeDateInput`: `YYYYMMDD` becomes `YYYY-MM-DD`; any other text comes back trimmed. */
  function NormalizeDateInput(value: JsValue): (r: string)
    ensures IsCompactDate(Raw(value)) ==>
      |r| == 10 && r[4] == '-' && r[7] == '-' && Digits(r) == Raw(value)
    ensures !IsCompactDate(Raw(value)) ==> r == Raw(value)
  {
    var raw := Raw(value);
    if raw == [] then []
    else if IsCompactDate(raw) then DashedDate(raw)
    else raw
  }

  /** A normalised date input normalises to itself. */
  lemma NormalizeDateInputIdempotent(value: JsValue)
    ensures NormalizeDateInput(JStr(NormalizeDateInput(value))) == NormalizeDateInput(value)
  {
    var r := NormalizeDateInput(value);
    assert r == [] || (!IsJsSpace(r[0]) && !IsJsSpace(r[|r| - 1])) by {
      if IsCompactDate(Raw(value)) {
        assert IsDigit(r[0]) && IsDigit(r[9]);
      }
    }
    RawOfTrimmed(r);
  }

  /** Text without surrounding whitespace is its own raw text. */
  lemma RawOfTrimmed(s: string)
    requires s == [] || (!IsJsSpace(s[0]) && !IsJsSpace(s[|s| - 1]))
    ensures Raw(JStr(s)) == s
  {
    TrimOfTrimmed(s, IsJsSpace);
  }

  /**
   * The digits of a CEP: a trailing `00` is dropped from a longer run, and
   * the run is cut to 8.
   */
  function CepDigits(raw: string): (d: string)
    ensures |d| <= 8 && AllDigits(d)
  {
    var digits := Digits(raw);
    var dropped := if |digits| > 8 && EndsWith(digits, "00") then digits[..|digits| - 2] else digits;
    Take(dropped, 8)
  }

  /** `NNNNN-NNN` for eight digits. */
  function CepMask(d: string): (r: string)
    requires |d| == 8 && AllDigits(d)
    ensures |r| == 9 && r[5] == '-' && Digits(r) == d
  {
    NoDigits("-");
    DigitsPush(d[..5], "-", d[5..]);
    DigitsOfDigits(d[..5]);
    assert d[..5] + d[5..] == d;
    d[..5] + "-" + d[5..]
  }

  /** `formatCep`: 8 digits render as `NNNNN-NNN`; otherwise the raw text; nothing gives `-`. */
  function FormatCep(value: JsValue): (r: string)
    ensures IsNullish(value) || value == JStr("") || JsTrim(ToStr(value)) == [] ==> r == "-"
    ensures !IsNullish(value) && |CepDigits(JsTrim(ToStr(value)))| == 8 ==>
      |r| == 9 && r[5] == '-' && Digits(r) == CepDigits(JsTrim(ToStr(value)))
    ensures !IsNullish(value) && value != JStr("") && |CepDigits(JsTrim(ToStr(value)))| != 8 ==>
      r == (if JsTrim(ToStr(value)) == [] then "-" else JsTrim(ToStr(value)))
  {
    if IsNullish(value) || value == JStr("") then "-"
    else
      var raw := JsTrim(ToStr(value));
      if raw == [] then "-"
      else
        var digits := CepDigits(raw);
        if |digits| == 8 then CepMask(digits) else raw
  }

  /** A CEP written `NNNNN-NNN` formats to itself. */
  lemma FormatCepFixed(d: string)
    requires |d| == 8 && AllDigits(d)
    ensures var r := CepMask(d);
      JsTrim(r) == r && CepDigits(r) == d && FormatCep(JStr(r)) == r
  {
    var r := CepMask(d);
    assert IsDigit(r[0]) && IsDigit(r[8]);
    TrimOfTrimmed(r, IsJsSpace);
    assert CepDigits(r) == d by {
      assert Digits(r) == d;
      assert Take(d, 8) == d;
    }
  }

  /** `hasValue`: neither `null` nor `undefined`, and not blank once printed. */
  predicate HasValue(v: JsValue) { !IsNullish(v) && JsTrim(ToStr(v)) != [] }

  /** `countFilled`: how many of the keys hold a value. */
  function CountFilled(record: JsValue, keys: seq<string>): (n: nat)
    ensures n <= |keys|
  {
    Count(keys, k => HasValue(Get(record, k)))
  }

  /** Every key is filled exactly when the count reaches the number of keys. */
  lemma {:induction false} CountAllIff<T>(xs: seq<T>, p: T -> bool)
    ensures Count(xs, p) == |xs| <==> forall i :: 0 <= i < |xs| ==> p(xs[i])
    ensures Count(xs, p) == 0 <==> forall i :: 0 <= i < |xs| ==> !p(xs[i])
  {
    if xs != [] {
      CountAllIff(xs[1..], p);
      assert forall i :: 1 <= i < |xs| ==> xs[i] == xs[1..][i - 1];
    }
  }

  lemma CountFilledAll(record: JsValue, keys: seq<string>)
    ensures CountFilled(record, keys) == |keys| <==> forall i :: 0 <= i < |keys| ==> HasValue(Get(record, keys[i]))
    ensures CountFilled(record, keys) == 0 <==> forall i :: 0 <= i < |keys| ==> !HasValue(Get(record, keys[i]))
  {
    CountAllIff(keys, k => HasValue(Get(record, k)));
  }

  /** `/^-?\d+$/`. */
  predicate IsIntegerText(s: string)
  {
    (|s| > 0 && AllDigits(s)) || (|s| > 1 && s[0] == '-' && AllDigits(s[1..]))
  }

  /** `/^-?\d+[.,]00$/`. */
  predicate HasZeroCents(s: string)
  {
    |s| >= 4 && (s[|s| - 3] == '.' || s[|s| - 3] == ',') && s[|s| - 2] == '0' && s[|s| - 1] == '0'
    && IsIntegerText(s[..|s| - 3])
  }

  /** `stripZeroCents`: `.00` or `,00` is removed from an integer amount; other text comes back trimmed. */
  function StripZeroCents(value: JsValue): (r: string)
    ensures HasZeroCents(Raw(value)) ==> r == Raw(value)[..|Raw(value)| - 3] && IsIntegerText(r)
    ensures !HasZeroCents(Raw(value)) ==> r == Raw(value)
  {
    var raw := Raw(value);
    if raw == [] then []
    else if HasZeroCents(raw) then raw[..|raw| - 3]
    else raw
  }

  /** An integer amount written with zero cents loses them. */
  lemma StripZeroCentsOfAmount(n: string, sep: char)
    requires IsIntegerText(n) && (sep == '.' || sep == ',')
    ensures StripZeroCents(JStr(n + [sep, '0', '0'])) == n
  {
    AmountStripped(n, sep, n + [sep, '0', '0']);
  }

  lemma AmountStripped(n: string, sep: char, s: string)
    requires IsIntegerText(n) && (sep == '.' || sep == ',') && s == n + [sep, '0', '0']
    ensures StripZeroCents(JStr(s)) == n
  {
    AmountParts(n, sep, s);
    StripTrimmedZeroCents(s, n);
  }

  /** The amount text needs no trimming, has zero cents, and without its last three characters is the integer. */
  lemma AmountParts(n: string, sep: char, s: string)
    requires IsIntegerText(n) && (sep == '.' || sep == ',') && s == n + [sep, '0', '0']
    ensures JsTrim(s) == s && HasZeroCents(s) && s[..|s| - 3] == n
  {
    AmountEndsTrimmed(n, [sep, '0', '0']);
    ZeroCentsTail(n, sep, s);
  }

  lemma StripTrimmedZeroCents(s: string, n: string)
    requires s == [] || (!IsJsSpace(s[0]) && !IsJsSpace(s[|s| - 1]))
    requires HasZeroCents(s) && s[..|s| - 3] == n
    ensures StripZeroCents(JStr(s)) == n
  {
    RawOfTrimmed(s);
    StripZeroCentsOfRaw(JStr(s), n);
  }

  lemma StripZeroCentsOfRaw(value: JsValue, n: string)
    requires HasZeroCents(Raw(value)) && Raw(value)[..|Raw(value)| - 3] == n
    ensures StripZeroCents(value) == n
  {
  }

  /** An integer followed by a separator and two zeros has zero cents, and dropping three characters gives the integer back. */
  lemma ZeroCentsTail(n: string, sep: char, s: string)
    requires IsIntegerText(n) && (sep == '.' || sep == ',') && s == n + [sep, '0', '0']
    ensures HasZeroCents(s) && s[..|s| - 3] == n
  {
    assert |s| == |n| + 3;
    assert s[|s| - 3] == sep;
    assert s[|s| - 2] == '0';
    assert s[|s| - 1] == '0';
    assert s[..|s| - 3] == n;
  }

  /** An amount starts with a digit or a minus sign and ends with a digit, so trimming leaves it. */
  lemma AmountEndsTrimmed(n: string, tail: string)
    requires IsIntegerText(n) && tail != [] && tail[|tail| - 1] == '0'
    ensures JsTrim(n + tail) == n + tail
  {
    var s := n + tail;
    assert s[0] == n[0];
    assert s[|s| - 1] == '0';
    assert IsDigit(n[0]) || n[0] == '-';
    TrimOfTrimmed(s, IsJsSpace);
  }

  /** An integer amount is left as it is, so stripping twice is stripping once. */
  lemma StripZeroCentsOfInteger(n: string)
    requires IsIntegerText(n)
    ensures StripZeroCents(JStr(n)) == n
  {
    assert !IsJsSpace(n[0]) && !IsJsSpace(n[|n| - 1]);
    TrimOfTrimmed(n, IsJsSpace);
    assert !HasZeroCents(n) by {
      if |n| >= 4 { assert IsDigit(n[|n| - 3]); }
    }
  }

  // ---------------------------------------------------------------------
  // Competence
  // ---------------------------------------------------------------------

  predicate IsLeapYear(y: int) { (y % 4 == 0 && y % 100 != 0) || y % 400 == 0 }

  /** `new Date(Date.UTC(year, month, 0)).getUTCDate()`: the last day of `month` (1-12). */
  function MonthLength(y: int, m: int): (d: int)
    requires 1 <= m <= 12
    ensures 28 <= d <= 31
  {
    if m == 2 then (if IsLeapYear(y) then 29 else 28)
    else if m == 4 || m == 6 || m == 9 || m == 11 then 30
    else 31
  }

  /** `/^(\d{4})-(\d{2})-(\d{2})$/`. */
  predicate IsIsoDate(s: string)
  {
    |s| == 10 && AllDigits(s[..4]) && s[4] == '-' && AllDigits(s[5..7]) && s[7] == '-' && AllDigits(s[8..])
  }

  predicate InRangeYearMonth(year: nat, month: nat) { 1900 <= year <= 2100 && 1 <= month <= 12 }

  /** `DD/MM/YYYY` from the day, month and year digits. */
  function DateDisplay(dd: string, mm: string, yyyy: string): (r: string)
    requires |dd| == 2 && |mm| == 2 && |yyyy| == 4
    ensures |r| == 10 && r[2] == '/' && r[5] == '/'
  {
    dd + "/" + mm + "/" + yyyy
  }

  /**
   * The competence of the trimmed text `raw`: `YYYYMM` becomes `01/MM/YYYY`
   * and `YYYY-MM-DD` becomes `DD/MM/YYYY`, when the year is 1900-2100, the
   * month 1-12 and the day within the month; anything else gives `-`.
   */
  function Competencia(raw: string): (r: string)
    ensures r == "-" || (|r| == 10 && r[2] == '/' && r[5] == '/')
    ensures |raw| == 6 && AllDigits(raw) ==>
      (r != "-" <==> InRangeYearMonth(ParseNat(raw[..4]), ParseNat(raw[4..])))
    ensures IsIsoDate(raw) ==>
      (r != "-" <==>
        InRangeYearMonth(ParseNat(raw[..4]), ParseNat(raw[5..7]))
        && 1 <= ParseNat(raw[8..]) <= MonthLength(ParseNat(raw[..4]), ParseNat(raw[5..7])))
    ensures raw == [] || (!(|raw| == 6 && AllDigits(raw)) && !IsIsoDate(raw)) ==> r == "-"
    ensures r != "-" && |raw| == 6 && AllDigits(raw) ==> r[..2] == "01" && r[3..5] == raw[4..] && r[6..] == raw[..4]
    ensures r != "-" && IsIsoDate(raw) ==> r[..2] == raw[8..] && r[3..5] == raw[5..7] && r[6..] == raw[..4]
  {
    if raw == [] then "-"
    else if |raw| == 6 && AllDigits(raw) then
      var year, month := ParseNat(raw[..4]), ParseNat(raw[4..]);
      if !InRangeYearMonth(year, month) then "-"
      else DateDisplay("01", raw[4..], raw[..4])
    else if IsIsoDate(raw) then
      var year, month, day := ParseNat(raw[..4]), ParseNat(raw[5..7]), ParseNat(raw[8..]);
      if !InRangeYearMonth(year, month) then "-"
      else if day < 1 || day > MonthLength(year, month) then "-"
      else DateDisplay(raw[8..], raw[5..7], raw[..4])
    else "-"
  }

  /** `formatCompetencia`: the competence of the value's trimmed text. */
  function FormatCompetencia(value: JsValue): (r: string)
    ensures r == "-" || (|r| == 10 && r[2] == '/' && r[5] == '/')
    ensures Raw(value) == [] ==> r == "-"
  {
    Competencia(Raw(value))
  }
}
