/**
 * Shared vocabulary of the model: optional values, character classes of the
 * JavaScript, Python and SQL Server runtimes, trimming, ASCII/Latin-1 case
 * mapping, accent folding, digit filtering and decimal rendering.
 */
module Base {

  datatype Option<T> = None | Some(value: T)

  // ---------------------------------------------------------------------
  // Character classes
  // ---------------------------------------------------------------------

  /** `\d` in JavaScript and Python regular expressions over ASCII text. */
  predicate IsDigit(c: char) { '0' <= c <= '9' }

  predicate AllDigits(s: string) { forall i :: 0 <= i < |s| ==> IsDigit(s[i]) }

  predicate IsAsciiUpper(c: char) { 'A' <= c <= 'Z' }
  predicate IsAsciiLower(c: char) { 'a' <= c <= 'z' }

  /** Latin-1 upper-case letters (À..Þ without ×). */
  predicate IsLatinUpper(c: char) { 'À' <= c <= 'Þ' && c != '×' }
  /** Latin-1 lower-case letters (ß..þ without ÷, ß has no single upper-case form). */
  predicate IsLatinLower(c: char) { 'à' <= c <= 'þ' && c != '÷' }

  /** `str.isalpha()` restricted to ASCII and Latin-1 letters. */
  predicate IsAlpha(c: char) {
    IsAsciiUpper(c) || IsAsciiLower(c) || IsLatinUpper(c) || IsLatinLower(c) || c == 'ß'
      || c == 'ª' || c == 'µ' || c == 'º'
  }

  /** `\w` in JavaScript regular expressions without the `u` flag. */
  predicate IsWordChar(c: char) { IsAsciiUpper(c) || IsAsciiLower(c) || IsDigit(c) || c == '_' }

  /** The characters `String.prototype.trim` removes (WhiteSpace and LineTerminator). */
  predicate IsJsSpace(c: char) {
    ('\t' <= c <= '\r') || c == ' ' || c == '\U{00A0}' || c == '\U{1680}'
      || ('\U{2000}' <= c <= '\U{200A}') || c == '\U{2028}' || c == '\U{2029}'
      || c == '\U{202F}' || c == '\U{205F}' || c == '\U{3000}' || c == '\U{FEFF}'
  }

  /** The characters Python's `str.strip()` removes (`str.isspace()`). */
  predicate IsPySpace(c: char) {
    ('\t' <= c <= '\r') || ('\U{001C}' <= c <= '\U{001F}') || c == ' ' || c == '\U{0085}'
      || c == '\U{00A0}' || c == '\U{1680}' || ('\U{2000}' <= c <= '\U{200A}')
      || c == '\U{2028}' || c == '\U{2029}' || c == '\U{202F}' || c == '\U{205F}' || c == '\U{3000}'
  }

  /** SQL Server `LTRIM`/`RTRIM` remove the space character only. */
  predicate IsSqlSpace(c: char) { c == ' ' }

  // ---------------------------------------------------------------------
  // Trimming, generic in the whitespace class
  // ---------------------------------------------------------------------

  /** Number of leading characters in the class `ws`. */
  function LeadingCount(s: string, ws: char -> bool): (k: nat)
    ensures k <= |s|
    ensures forall i :: 0 <= i < k ==> ws(s[i])
    ensures k == |s| || !ws(s[k])
  {
    if s == [] || !ws(s[0]) then 0 else 1 + LeadingCount(s[1..], ws)
  }

  /** Number of trailing characters in the class `ws`. */
  function TrailingCount(s: string, ws: char -> bool): (k: nat)
    ensures k <= |s|
    ensures forall i :: |s| - k <= i < |s| ==> ws(s[i])
    ensures k == |s| || !ws(s[|s| - 1 - k])
  {
    if s == [] || !ws(s[|s| - 1]) then 0 else 1 + TrailingCount(s[..|s| - 1], ws)
  }

  function TrimStart(s: string, ws: char -> bool): (r: string)
    ensures |r| <= |s| && r == s[|s| - |r|..]
    ensures forall i :: 0 <= i < |s| - |r| ==> ws(s[i])
    ensures r == [] || !ws(r[0])
  {
    s[LeadingCount(s, ws)..]
  }

  function TrimEnd(s: string, ws: char -> bool): (r: string)
    ensures |r| <= |s| && r == s[..|r|]
    ensures forall i :: |r| <= i < |s| ==> ws(s[i])
    ensures r == [] || !ws(r[|r| - 1])
  {
    s[..|s| - TrailingCount(s, ws)]
  }

  /**
   * Both ends stripped: the result is a contiguous piece of `s`, everything
   * removed is whitespace, and the result neither starts nor ends with it.
   */
  function Trim(s: string, ws: char -> bool): (r: string)
    ensures |r| <= |s|
    ensures r == [] || (!ws(r[0]) && !ws(r[|r| - 1]))
  {
    TrimEnd(TrimStart(s, ws), ws)
  }

  predicate AllIn(s: string, ws: char -> bool) { forall i :: 0 <= i < |s| ==> ws(s[i]) }

  /** Trimming gives the empty text exactly when the text is all whitespace. */
  lemma TrimEmptyIff(s: string, ws: char -> bool)
    ensures Trim(s, ws) == [] <==> AllIn(s, ws)
  {
    var t := TrimStart(s, ws);
    if AllIn(s, ws) {
      assert LeadingCount(s, ws) == |s|;
    }
    if Trim(s, ws) == [] {
      if t != [] {
        assert false;
      }
    }
  }

  /** Where the trimmed text starts in `s`. */
  lemma TrimOffset(s: string, ws: char -> bool) returns (a: nat)
    ensures a + |Trim(s, ws)| <= |s| && Trim(s, ws) == s[a..a + |Trim(s, ws)|]
    ensures AllIn(s[..a], ws) && AllIn(s[a + |Trim(s, ws)|..], ws)
  {
    var t := TrimStart(s, ws);
    a := |s| - |t|;
    assert Trim(s, ws) == t[..|Trim(s, ws)|];
    forall i | a + |Trim(s, ws)| <= i < |s| ensures ws(s[i]) {
      assert s[i] == t[i - a];
    }
  }

  /** A text that neither starts nor ends with whitespace is its own trim. */
  lemma TrimOfTrimmed(s: string, ws: char -> bool)
    requires s == [] || (!ws(s[0]) && !ws(s[|s| - 1]))
    ensures Trim(s, ws) == s
  {
  }

  lemma TrimIdempotent(s: string, ws: char -> bool)
    ensures Trim(Trim(s, ws), ws) == Trim(s, ws)
  {
    TrimOfTrimmed(Trim(s, ws), ws);
  }

  function JsTrim(s: string): (r: string)
    ensures |r| <= |s|
    ensures r == [] || (!IsJsSpace(r[0]) && !IsJsSpace(r[|r| - 1]))
  {
    Trim(s, IsJsSpace)
  }

  function PyStrip(s: string): (r: string)
    ensures |r| <= |s|
    ensures r == [] || (!IsPySpace(r[0]) && !IsPySpace(r[|r| - 1]))
  {
    Trim(s, IsPySpace)
  }

  /** `LTRIM(RTRIM(x))` in SQL Server. */
  function SqlTrim(s: string): (r: string)
    ensures |r| <= |s|
    ensures r == [] || (r[0] != ' ' && r[|r| - 1] != ' ')
  {
    Trim(s, IsSqlSpace)
  }

  // ---------------------------------------------------------------------
  // Case mapping and accent folding (ASCII and Latin-1)
  // ---------------------------------------------------------------------

  function LowerChar(c: char): (r: char)
    ensures IsAsciiUpper(c) ==> IsAsciiLower(r)
    ensures !IsAsciiUpper(c) && !IsLatinUpper(c) ==> r == c
  {
    if IsAsciiUpper(c) || IsLatinUpper(c) then (c as int + 32) as char else c
  }

  function UpperChar(c: char): (r: char)
    ensures IsAsciiLower(c) ==> IsAsciiUpper(r)
    ensures !IsAsciiLower(c) && !IsLatinLower(c) ==> r == c
  {
    if IsAsciiLower(c) then (c as int - 32) as char
    else if IsLatinLower(c) && c != 'ÿ' then (c as int - 32) as char
    else c
  }

  /** `toLowerCase()` / `str.lower()` on ASCII and Latin-1 text. */
  function Lower(s: string): (r: string)
    ensures |r| == |s| && forall i :: 0 <= i < |s| ==> r[i] == LowerChar(s[i])
  {
    seq(|s|, i requires 0 <= i < |s| => LowerChar(s[i]))
  }

  /** `toUpperCase()` / `str.upper()` on ASCII and Latin-1 text. */
  function Upper(s: string): (r: string)
    ensures |r| == |s| && forall i :: 0 <= i < |s| ==> r[i] == UpperChar(s[i])
  {
    seq(|s|, i requires 0 <= i < |s| => UpperChar(s[i]))
  }

  lemma LowerChar_Idempotent(c: char)
    ensures LowerChar(LowerChar(c)) == LowerChar(c)
  {
  }

  lemma LowerIdempotent(s: string)
    ensures Lower(Lower(s)) == Lower(s)
  {
    forall i | 0 <= i < |s| ensures Lower(Lower(s))[i] == Lower(s)[i] {
      LowerChar_Idempotent(s[i]);
    }
  }

  /** Unicode combining diacritical marks (general category Mn, U+0300..U+036F). */
  predicate IsCombiningMark(c: char) { '\U{0300}' <= c <= '\U{036F}' }

  /**
   * What NFD decomposition followed by dropping combining marks leaves of one
   * Latin-1 character: precomposed Latin-1 letters lose their accent, and the
   * Latin-1 letters without a decomposition (Æ, Ð, Ø, Þ, ß and their
   * lower-case forms) stay as they are. Letters beyond Latin-1 (č, ş, ő, ...)
   * are not folded here, although NFD would decompose them: the model's
   * accent folding is exact on Latin-1 text only.
   */
  function BaseLetter(c: char): (r: char)
    ensures c < 'À' ==> r == c
    ensures r == c || r < '\U{0080}'
  {
    if 'À' <= c <= 'Å' then 'A' else if c == 'Ç' then 'C'
    else if 'È' <= c <= 'Ë' then 'E' else if 'Ì' <= c <= 'Ï' then 'I'
    else if c == 'Ñ' then 'N' else if 'Ò' <= c <= 'Ö' then 'O'
    else if 'Ù' <= c <= 'Ü' then 'U' else if c == 'Ý' then 'Y'
    else if 'à' <= c <= 'å' then 'a' else if c == 'ç' then 'c'
    else if 'è' <= c <= 'ë' then 'e' else if 'ì' <= c <= 'ï' then 'i'
    else if c == 'ñ' then 'n' else if 'ò' <= c <= 'ö' then 'o'
    else if 'ù' <= c <= 'ü' then 'u' else if c == 'ý' || c == 'ÿ' then 'y'
    else c
  }

  /** `normalize('NFD')` then removal of the combining marks. */
  function StripAccents(s: string): (r: string)
    ensures |r| <= |s|
    ensures forall i :: 0 <= i < |r| ==> !IsCombiningMark(r[i])
  {
    if s == [] then []
    else (if IsCombiningMark(s[0]) then [] else [BaseLetter(s[0])]) + StripAccents(s[1..])
  }

  /** ASCII letters, digits and punctuation survive accent stripping. */
  lemma {:induction false} StripAccentsAscii(s: string)
    requires forall i :: 0 <= i < |s| ==> s[i] < '\U{0080}'
    ensures StripAccents(s) == s
  {
    if s != [] {
      StripAccentsAscii(s[1..]);
      assert s == [s[0]] + s[1..];
    }
  }

  /** Lower-casing a letter and removing its accent can be done in either order. */
  lemma LowerBaseLetter(c: char)
    ensures LowerChar(BaseLetter(c)) == BaseLetter(LowerChar(c))
    ensures IsCombiningMark(LowerChar(c)) <==> IsCombiningMark(c)
  {
  }

  lemma {:induction false} LowerStripAccents(s: string)
    ensures Lower(StripAccents(s)) == StripAccents(Lower(s))
  {
    if s != [] {
      var t := StripAccents(s[1..]);
      var head := if IsCombiningMark(s[0]) then [] else [BaseLetter(s[0])];
      assert StripAccents(s) == head + t;
      LowerStripAccents(s[1..]);
      LowerBaseLetter(s[0]);
      LowerAppend(head, t);
      var ls := Lower(s);
      assert ls[0] == LowerChar(s[0]);
      assert ls[1..] == Lower(s[1..]);
      assert Lower(head) == if IsCombiningMark(ls[0]) then [] else [BaseLetter(ls[0])];
    }
  }

  lemma LowerAppend(a: string, b: string)
    ensures Lower(a + b) == Lower(a) + Lower(b)
  {
  }

  /** A text that contains `p` contains the first character of `p`. */
  lemma {:induction false} ContainsHasFirst(s: string, p: string)
    requires p != [] && Contains(s, p)
    ensures HasChar(s, p[0])
  {
    if StartsWith(s, p) {
      assert s[0] == p[0];
    } else {
      ContainsHasFirst(s[1..], p);
      var i :| 0 <= i < |s[1..]| && s[1..][i] == p[0];
      assert s[i + 1] == p[0];
    }
  }

  // ---------------------------------------------------------------------
  // Digits
  // ---------------------------------------------------------------------

  /** `replace(/\D/g, '')` and `re.sub(r'\D+', '', s)`: the digits of `s`, in order. */
  function Digits(s: string): (r: string)
    ensures AllDigits(r) && |r| <= |s|
  {
    if s == [] then [] else (if IsDigit(s[0]) then [s[0]] else []) + Digits(s[1..])
  }

  lemma {:induction false} DigitsOfDigits(s: string)
    requires AllDigits(s)
    ensures Digits(s) == s
  {
    if s != [] { DigitsOfDigits(s[1..]); }
  }

  lemma {:induction false} DigitsAppend(a: string, b: string)
    ensures Digits(a + b) == Digits(a) + Digits(b)
  {
    if a == [] {
      assert a + b == b;
    } else {
      var head: string := if IsDigit(a[0]) then [a[0]] else [];
      assert (a + b)[0] == a[0] && (a + b)[1..] == a[1..] + b;
      assert Digits(a + b) == head + Digits(a[1..] + b);
      DigitsAppend(a[1..], b);
      assert Digits(a) == head + Digits(a[1..]);
      assert head + (Digits(a[1..]) + Digits(b)) == (head + Digits(a[1..])) + Digits(b);
    }
  }

  /** Digits around a separator: the separator drops out. */
  lemma {:induction false} DigitsAround(a: string, c: char, rest: string)
    requires AllDigits(a) && !IsDigit(c)
    ensures Digits(a + [c] + rest) == a + Digits(rest)
    decreases |a|
  {
    var s := a + [c] + rest;
    if a == [] {
      assert s[0] == c && s[1..] == rest;
    } else {
      assert s[0] == a[0] && s[1..] == a[1..] + [c] + rest;
      DigitsAround(a[1..], c, rest);
      assert [a[0]] + a[1..] == a;
    }
  }

  /** A text without digits has no digits to keep. */
  lemma NoDigits(sep: string)
    requires forall i :: 0 <= i < |sep| ==> !IsDigit(sep[i])
    ensures Digits(sep) == []
  {
    DigitsEmptyIff(sep);
  }

  /** A digit run placed after a separator without digits adds exactly that run to the digits. */
  lemma DigitsPush(out: string, sep: string, p: string)
    requires AllDigits(p) && Digits(sep) == []
    ensures Digits(out + sep + p) == Digits(out) + p
  {
    DigitsAppend(out + sep, p);
    DigitsAppend(out, sep);
    DigitsOfDigits(p);
  }

  /** Digits of `x + d + sep`, for digits `d` and a separator without digits. */
  lemma DigitsAfter(x: string, d: string, sep: string)
    requires AllDigits(d) && Digits(sep) == []
    ensures Digits(x + d + sep) == Digits(x) + d
  {
    DigitsAppend(x + d, sep);
    DigitsAppend(x, d);
    DigitsOfDigits(d);
  }

  /** Digits of four digit runs, each behind a separator without digits: the runs, together. */
  lemma DigitsInterleaved(p1: string, d1: string, p2: string, d2: string, p3: string, d3: string, p4: string, d4: string)
    requires AllDigits(d1) && AllDigits(d2) && AllDigits(d3) && AllDigits(d4)
    requires Digits(p1) == [] && Digits(p2) == [] && Digits(p3) == [] && Digits(p4) == []
    ensures Digits(p1 + d1 + p2 + d2 + p3 + d3 + p4 + d4) == d1 + d2 + d3 + d4
  {
    var s1 := p1 + d1 + p2;
    var s3 := s1 + d2 + p3;
    var s5 := s3 + d3 + p4;
    DigitsBetween(p1, d1, p2);
    DigitsAfter(s1, d2, p3);
    DigitsAfter(s3, d3, p4);
    DigitsAppend(s5, d4);
    DigitsOfDigits(d4);
  }

  /** Digits of a digit run between two separators without digits. */
  lemma DigitsBetween(pre: string, d: string, sep: string)
    requires AllDigits(d) && Digits(pre) == [] && Digits(sep) == []
    ensures Digits(pre + d + sep) == d
  {
    DigitsAfter(pre, d, sep);
  }

  /** Upper-casing leaves a text without lower-case letters unchanged. */
  lemma UpperOfNoLower(s: string)
    requires forall i :: 0 <= i < |s| ==> !IsAsciiLower(s[i]) && !IsLatinLower(s[i])
    ensures Upper(s) == s
  {
  }

  lemma DigitsIdempotent(s: string)
    ensures Digits(Digits(s)) == Digits(s)
  {
    DigitsOfDigits(Digits(s));
  }

  /** Digits of a text made only of non-digits is empty. */
  lemma {:induction false} DigitsEmptyIff(s: string)
    ensures Digits(s) == [] <==> forall i :: 0 <= i < |s| ==> !IsDigit(s[i])
  {
    if s != [] {
      DigitsEmptyIff(s[1..]);
      assert forall i :: 1 <= i < |s| ==> s[i] == s[1..][i - 1];
    }
  }

  // ---------------------------------------------------------------------
  // Slices and search
  // ---------------------------------------------------------------------

  /** `s.slice(0, n)` / `s[:n]` for a non-negative `n`. */
  function Take<T>(s: seq<T>, n: nat): (r: seq<T>)
    ensures |r| == (if n < |s| then n else |s|) && r == s[..|r|]
  {
    if n < |s| then s[..n] else s
  }

  /** `s.slice(a, b)` for non-negative bounds: both clamped to the length. */
  function Slice<T>(s: seq<T>, a: nat, b: nat): (r: seq<T>)
    ensures a <= b <= |s| ==> r == s[a..b]
    ensures |r| <= |s|
  {
    var hi := if b < |s| then b else |s|;
    var lo := if a < hi then a else hi;
    s[lo..hi]
  }

  /** `s.slice(-n)` / `s[-n:]` for a positive `n`. */
  function TakeLast<T>(s: seq<T>, n: nat): (r: seq<T>)
    ensures |r| == (if n < |s| then n else |s|) && r == s[|s| - |r|..]
  {
    if n < |s| then s[|s| - n..] else s
  }

  /** A bound of `slice` for a sequence of length `len`: a negative one counts from the end; both are clamped. */
  function SliceIndex(i: int, len: nat): (r: nat)
    ensures r <= len
    ensures 0 <= i <= len ==> r == i
    ensures i < 0 && 0 <= len + i ==> r as int == len + i
  {
    if i < 0 then (if len + i < 0 then 0 else len + i) else if i < len then i else len
  }

  /** `s.slice(a, b)` with JavaScript's bounds; empty when the start is not before the end. */
  function JsSlice<T>(s: seq<T>, a: int, b: int): (r: seq<T>)
    ensures |r| <= |s|
    ensures SliceIndex(a, |s|) <= SliceIndex(b, |s|) ==> r == s[SliceIndex(a, |s|)..SliceIndex(b, |s|)]
  {
    var lo := SliceIndex(a, |s|);
    var hi := SliceIndex(b, |s|);
    if lo < hi then s[lo..hi] else []
  }

  predicate StartsWith(s: string, p: string) { |p| <= |s| && s[..|p|] == p }
  predicate EndsWith(s: string, p: string) { |p| <= |s| && s[|s| - |p|..] == p }

  /** `s.includes(sub)`. */
  predicate Contains(s: string, sub: string) {
    StartsWith(s, sub) || (s != [] && Contains(s[1..], sub))
  }

  /** `s.includes(c)` for one character. */
  predicate HasChar(s: string, c: char) { exists i | 0 <= i < |s| :: s[i] == c }

  function Repeat(c: char, n: nat): (r: string)
    ensures |r| == n && forall i :: 0 <= i < n ==> r[i] == c
  {
    seq(n, _ => c)
  }

  /** `s.padStart(n, c)`. */
  function PadStart(s: string, n: nat, c: char): (r: string)
    ensures |r| == (if |s| < n then n else |s|)
    ensures r[|r| - |s|..] == s
    ensures forall i :: 0 <= i < |r| - |s| ==> r[i] == c
  {
    if |s| < n then Repeat(c, n - |s|) + s else s
  }

  lemma PadStartDigits(s: string, n: nat)
    requires AllDigits(s)
    ensures AllDigits(PadStart(s, n, '0'))
  {
    var r := PadStart(s, n, '0');
    forall i | 0 <= i < |r| ensures IsDigit(r[i]) {
      if i >= |r| - |s| { assert r[i] == s[i - (|r| - |s|)]; }
    }
  }

  // ---------------------------------------------------------------------
  // Decimal numbers
  // ---------------------------------------------------------------------

  function DigitChar(d: nat): (c: char)
    requires d < 10
    ensures IsDigit(c)
  {
    ('0' as int + d) as char
  }

  function DigitValue(c: char): (d: nat)
    requires IsDigit(c)
    ensures d < 10 && DigitChar(d) == c
  {
    c as int - '0' as int
  }

  /** Decimal rendering of a natural number without leading zeros. */
  function NatToString(n: nat): (r: string)
    ensures |r| > 0 && AllDigits(r)
    ensures |r| > 1 ==> r[0] != '0'
  {
    if n < 10 then [DigitChar(n)] else NatToString(n / 10) + [DigitChar(n % 10)]
  }

  /** `String(n)` / `str(n)` for an integer. */
  function IntToString(n: int): (r: string)
    ensures |r| > 0
  {
    if n < 0 then "-" + NatToString(-n) else NatToString(n)
  }

  /** The value of a decimal digit string (leading zeros allowed). */
  function ParseNat(s: string): (n: nat)
    requires AllDigits(s)
  {
    if s == [] then 0 else ParseNat(s[..|s| - 1]) * 10 + DigitValue(s[|s| - 1])
  }

  lemma {:induction false} ParseNatToString(n: nat)
    ensures ParseNat(NatToString(n)) == n
  {
    if n >= 10 {
      var r := NatToString(n);
      assert r[..|r| - 1] == NatToString(n / 10);
      ParseNatToString(n / 10);
    }
  }

  // ---------------------------------------------------------------------
  // Splitting and joining on one character
  // ---------------------------------------------------------------------

  /** `s.split(c)` for a one-character separator: never empty, no part holds `c`. */
  function Split(s: string, c: char): (parts: seq<string>)
    ensures |parts| > 0
    ensures forall k :: 0 <= k < |parts| ==> !HasChar(parts[k], c)
  {
    if s == [] then [[]]
    else if s[0] == c then [[]] + Split(s[1..], c)
    else
      var rest := Split(s[1..], c);
      [[s[0]] + rest[0]] + rest[1..]
  }

  /** `parts.join(c)`. */
  function Join(parts: seq<string>, c: char): (r: string)
  {
    if parts == [] then []
    else if |parts| == 1 then parts[0]
    else parts[0] + [c] + Join(parts[1..], c)
  }

  /** Splitting and joining again gives the text back. */
  lemma {:induction false} JoinSplit(s: string, c: char)
    ensures Join(Split(s, c), c) == s
  {
    if s != [] {
      JoinSplit(s[1..], c);
      var rest := Split(s[1..], c);
      if s[0] != c {
        if |rest| == 1 {
          assert s == [s[0]] + rest[0];
        } else {
          assert Join(rest, c) == rest[0] + [c] + Join(rest[1..], c);
          assert s == [s[0]] + s[1..];
        }
      } else {
        assert s == [c] + s[1..];
      }
    }
  }

  /** A text without the separator splits into just itself. */
  lemma {:induction false} SplitNoSep(s: string, c: char)
    requires !HasChar(s, c)
    ensures Split(s, c) == [s]
  {
    if s != [] {
      assert s[0] != c;
      assert s == [s[0]] + s[1..];
      assert !HasChar(s[1..], c) by {
        forall i | 0 <= i < |s[1..]| ensures s[1..][i] != c { assert s[1..][i] == s[i + 1]; }
      }
      SplitNoSep(s[1..], c);
    }
  }

  /** A part without the separator, then the separator, splits off as the first part. */
  lemma {:induction false} SplitAround(a: string, c: char, b: string)
    requires !HasChar(a, c)
    ensures Split(a + [c] + b, c) == [a] + Split(b, c)
  {
    if a == [] {
      assert a + [c] + b == [c] + b;
      assert ([c] + b)[1..] == b;
    } else {
      var s := a + [c] + b;
      assert s[0] == a[0] && a[0] != c;
      assert s[1..] == a[1..] + [c] + b;
      assert !HasChar(a[1..], c) by {
        forall i | 0 <= i < |a[1..]| ensures a[1..][i] != c { assert a[1..][i] == a[i + 1]; }
      }
      SplitAround(a[1..], c, b);
      assert [a[0]] + a[1..] == a;
    }
  }

  /** `s.split(/\r?\n/)`: split on LF and drop one CR before each LF. */
  function SplitLines(s: string): (lines: seq<string>)
    ensures |lines| == |Split(s, '\n')|
  {
    var parts := Split(s, '\n');
    seq(|parts|, k requires 0 <= k < |parts| =>
      if k < |parts| - 1 && parts[k] != [] && parts[k][|parts[k]| - 1] == '\r'
      then parts[k][..|parts[k]| - 1] else parts[k])
  }

  // ---------------------------------------------------------------------
  // Sequences
  // ---------------------------------------------------------------------

  function Sum(xs: seq<int>): int
  {
    if xs == [] then 0 else Sum(xs[..|xs| - 1]) + xs[|xs| - 1]
  }

  function Filter<T>(xs: seq<T>, p: T -> bool): (r: seq<T>)
    ensures |r| <= |xs|
    ensures forall i :: 0 <= i < |r| ==> p(r[i])
    ensures forall i :: 0 <= i < |xs| && p(xs[i]) ==> xs[i] in r
    ensures forall i :: 0 <= i < |r| ==> r[i] in xs
  {
    if xs == [] then [] else
    (if p(xs[0]) then [xs[0]] else []) + Filter(xs[1..], p)
  }

  lemma {:induction false} FilterAppend<T>(a: seq<T>, b: seq<T>, p: T -> bool)
    ensures Filter(a + b, p) == Filter(a, p) + Filter(b, p)
  {
    if a != [] {
      assert (a + b)[1..] == a[1..] + b;
      FilterAppend(a[1..], b, p);
    } else {
      assert a + b == b;
    }
  }

  /** An element is kept as many times as it occurs when it passes, and never otherwise. */
  lemma {:induction false} FilterMultiplicity<T>(xs: seq<T>, p: T -> bool, x: T)
    ensures multiset(Filter(xs, p))[x] == if p(x) then multiset(xs)[x] else 0
  {
    if xs != [] {
      var rest := Filter(xs[1..], p);
      FilterMultiplicity(xs[1..], p, x);
      assert xs == [xs[0]] + xs[1..];
      assert multiset(xs) == multiset{xs[0]} + multiset(xs[1..]);
      if p(xs[0]) {
        assert Filter(xs, p) == [xs[0]] + rest;
        assert multiset(Filter(xs, p)) == multiset{xs[0]} + multiset(rest);
      } else {
        assert Filter(xs, p) == rest;
      }
    }
  }

  /** Nothing is kept when no element passes. */
  lemma {:induction false} FilterNone<T>(xs: seq<T>, p: T -> bool)
    requires forall i :: 0 <= i < |xs| ==> !p(xs[i])
    ensures Filter(xs, p) == []
  {
    if xs != [] {
      FilterNone(xs[1..], p);
    }
  }

  /** An element that fails the test makes the result shorter. */
  lemma {:induction false} FilterDropsOne<T>(xs: seq<T>, p: T -> bool, i: nat)
    requires i < |xs| && !p(xs[i])
    ensures |Filter(xs, p)| < |xs|
  {
    if i > 0 {
      assert xs[1..][i - 1] == xs[i];
      FilterDropsOne(xs[1..], p, i - 1);
    }
  }

  /** Everything is kept when every element passes. */
  lemma {:induction false} FilterAll<T>(xs: seq<T>, p: T -> bool)
    requires forall i :: 0 <= i < |xs| ==> p(xs[i])
    ensures Filter(xs, p) == xs
  {
    if xs != [] {
      FilterAll(xs[1..], p);
    }
  }

  /** Filtering by a narrower test after a wider one is filtering by the narrower one alone. */
  lemma {:induction false} FilterFilter<T>(xs: seq<T>, wide: T -> bool, narrow: T -> bool)
    requires forall x :: narrow(x) ==> wide(x)
    ensures Filter(Filter(xs, wide), narrow) == Filter(xs, narrow)
  {
    if xs != [] {
      FilterFilter(xs[1..], wide, narrow);
      var rest := Filter(xs[1..], wide);
      if wide(xs[0]) {
        assert Filter(xs, wide) == [xs[0]] + rest;
        assert ([xs[0]] + rest)[1..] == rest;
      } else {
        assert Filter(xs, wide) == rest;
      }
      assert Filter(xs, narrow) == (if narrow(xs[0]) then [xs[0]] else []) + Filter(xs[1..], narrow);
    }
  }

  /** `a * b` grows with `a`. */
  lemma MulMono(a: int, b: int, c: nat)
    requires a <= b
    ensures a * c <= b * c
  {
  }

  /** `(k * cur) / total` stays below `k` while `cur < total`, and reaches it at `cur == total`. */
  lemma ScaledQuotient(k: nat, cur: int, total: int)
    requires 0 <= cur <= total && total > 0
    ensures 0 <= (k * cur) / total <= k
    ensures cur < total && k > 0 ==> (k * cur) / total < k
    ensures cur == total ==> (k * cur) / total == k
  {
    MulMono(cur, total, k);
    assert k * cur <= total * k;
    QuotientAtMost(k * cur, total, k);
    if cur < total && k > 0 {
      MulMono(cur, total - 1, k);
      assert k * cur <= (total - 1) * k;
      QuotientBelow(k * cur, total, k);
    }
    if cur == total {
      QuotientExact(k, total);
    }
  }

  /** A quotient of at most `t * k` by `t` is between 0 and `k`. */
  lemma QuotientAtMost(p: int, t: int, k: nat)
    requires 0 <= p <= t * k && t > 0
    ensures 0 <= p / t <= k
  {
    var q, rem := p / t, p % t;
    var u: nat := t;
    assert p == q * t + rem && 0 <= rem < t;
    assert (k + 1) * t == k * t + t;
    if q < 0 {
      MulMono(q, -1, u);
      assert false;
    }
    if q > k {
      MulMono(k + 1, q, u);
      assert false;
    }
  }

  /** A quotient of at most `(t - 1) * k` by `t` is below `k`. */
  lemma QuotientBelow(p: int, t: int, k: nat)
    requires 0 <= p <= (t - 1) * k && t > 0 && k > 0
    ensures p / t < k
  {
    var q, rem := p / t, p % t;
    var u: nat := t;
    assert p == q * t + rem && 0 <= rem < t;
    assert (t - 1) * k == t * k - k;
    if q >= k {
      MulMono(k, q, u);
      assert false;
    }
  }

  /** `(k * t) / t` is `k`. */
  lemma QuotientExact(k: nat, t: int)
    requires t > 0
    ensures (k * t) / t == k
  {
    var p := k * t;
    var q, rem := p / t, p % t;
    var u: nat := t;
    assert p == q * t + rem && 0 <= rem < t;
    assert (k - 1) * t == k * t - t;
    assert (k + 1) * t == k * t + t;
    if q < k {
      MulMono(q, k - 1, u);
      assert false;
    }
    if q > k {
      MulMono(k + 1, q, u);
      assert false;
    }
  }

  function Count<T>(xs: seq<T>, p: T -> bool): (n: nat)
    ensures n <= |xs|
  {
    if xs == [] then 0 else (if p(xs[0]) then 1 else 0) + Count(xs[1..], p)
  }

  lemma {:induction false} CountAppend<T>(a: seq<T>, b: seq<T>, p: T -> bool)
    ensures Count(a + b, p) == Count(a, p) + Count(b, p)
  {
    if a == [] {
      assert a + b == b;
    } else {
      assert (a + b)[1..] == a[1..] + b;
      CountAppend(a[1..], b, p);
    }
  }

  /** Counting one more element of a prefix. */
  lemma CountSnoc<T>(xs: seq<T>, p: T -> bool, i: nat)
    requires i < |xs|
    ensures Count(xs[..i + 1], p) == Count(xs[..i], p) + (if p(xs[i]) then 1 else 0)
  {
    assert xs[..i + 1] == xs[..i] + [xs[i]];
    CountAppend(xs[..i], [xs[i]], p);
  }

  predicate Distinct<T(==)>(xs: seq<T>) {
    forall i, j :: 0 <= i < j < |xs| ==> xs[i] != xs[j]
  }

  /** `xs` keeps some of the elements of `ys`, in their order. */
  predicate IsSubsequence<T(==)>(xs: seq<T>, ys: seq<T>)
  {
    if xs == [] then true
    else if ys == [] then false
    else if xs[0] == ys[0] then IsSubsequence(xs[1..], ys[1..])
    else IsSubsequence(xs, ys[1..])
  }

  lemma {:induction false} FilterIsSubsequence<T>(xs: seq<T>, p: T -> bool)
    ensures IsSubsequence(Filter(xs, p), xs)
  {
    if xs != [] {
      var f := Filter(xs[1..], p);
      FilterIsSubsequence(xs[1..], p);
      if !p(xs[0]) {
        assert Filter(xs, p) == f;
        SubsequenceDropHead(f, xs);
      } else {
        assert Filter(xs, p) == [xs[0]] + f;
        assert ([xs[0]] + f)[1..] == f;
      }
    }
  }

  /** A subsequence of the tail is a subsequence of the whole. */
  lemma {:induction false} SubsequenceDropHead<T>(xs: seq<T>, ys: seq<T>)
    requires ys != [] && IsSubsequence(xs, ys[1..])
    ensures IsSubsequence(xs, ys)
    decreases |xs| + |ys|
  {
    if xs != [] && xs[0] == ys[0] {
      SubsequenceDropFirst(xs, ys[1..]);
    }
  }

  /** Dropping the first kept element keeps a subsequence. */
  lemma {:induction false} SubsequenceDropFirst<T>(xs: seq<T>, t: seq<T>)
    requires xs != [] && IsSubsequence(xs, t)
    ensures IsSubsequence(xs[1..], t)
    decreases |xs| + |t|
  {
    assert t != [];
    if xs[0] == t[0] {
      if xs[1..] != [] { SubsequenceDropHead(xs[1..], t); }
    } else {
      SubsequenceDropFirst(xs, t[1..]);
      if xs[1..] != [] { SubsequenceDropHead(xs[1..], t); }
    }
  }

  /** The defined results of `f` over `xs`, in order (a `for` loop that pushes what it keeps). */
  function FilterMap<T, U>(xs: seq<T>, f: T -> Option<U>): (r: seq<U>)
    ensures |r| <= |xs|
  {
    if xs == [] then []
    else FilterMap(xs[..|xs| - 1], f) + (match f(xs[|xs| - 1]) case Some(u) => [u] case None => [])
  }

  predicate StrictlyIncreasing(idx: seq<nat>) {
    forall a, b :: 0 <= a < b < |idx| ==> idx[a] < idx[b]
  }

  /**
   * The positions `FilterMap` keeps: strictly increasing, each the source of
   * the result at the same place, and covering every element `f` accepts.
   */
  lemma FilterMapPositions<T, U>(xs: seq<T>, f: T -> Option<U>) returns (idx: seq<nat>)
    ensures |idx| == |FilterMap(xs, f)|
    ensures StrictlyIncreasing(idx)
    ensures forall k :: 0 <= k < |idx| ==> idx[k] < |xs| && f(xs[idx[k]]) == Some(FilterMap(xs, f)[k])
    ensures forall j :: 0 <= j < |xs| && f(xs[j]).Some? ==> j in idx
  {
    idx := KeptPositions(xs, f);
    KeptPositionsSources(xs, f);
    KeptPositionsIncreasing(xs, f);
    KeptPositionsCover(xs, f);
  }

  ghost function KeptPositions<T, U>(xs: seq<T>, f: T -> Option<U>): seq<nat>
  {
    if xs == [] then []
    else KeptPositions(xs[..|xs| - 1], f) + (if f(xs[|xs| - 1]).Some? then [|xs| - 1] else [])
  }

  lemma {:induction false} KeptPositionsSources<T, U>(xs: seq<T>, f: T -> Option<U>)
    ensures |KeptPositions(xs, f)| == |FilterMap(xs, f)|
    ensures forall k :: 0 <= k < |KeptPositions(xs, f)| ==>
      KeptPositions(xs, f)[k] < |xs| && f(xs[KeptPositions(xs, f)[k]]) == Some(FilterMap(xs, f)[k])
  {
    if xs != [] {
      var init := xs[..|xs| - 1];
      var n := |xs| - 1;
      KeptPositionsSources(init, f);
      var prev, idx := KeptPositions(init, f), KeptPositions(xs, f);
      var r, kept := FilterMap(init, f), FilterMap(xs, f);
      assert |kept| == |idx| && kept[..|r|] == r && idx[..|prev|] == prev by {
        if f(xs[n]).Some? {
          assert kept == r + [f(xs[n]).value] && idx == prev + [n];
        } else {
          assert kept == r && idx == prev;
        }
      }
      forall k | 0 <= k < |idx| ensures idx[k] < |xs| && f(xs[idx[k]]) == Some(kept[k]) {
        if k < |prev| {
          assert idx[k] == prev[k] && kept[k] == r[k];
          assert xs[prev[k]] == init[prev[k]];
        }
      }
    }
  }

  lemma {:induction false} KeptPositionsIncreasing<T, U>(xs: seq<T>, f: T -> Option<U>)
    ensures StrictlyIncreasing(KeptPositions(xs, f))
    ensures forall k :: 0 <= k < |KeptPositions(xs, f)| ==> KeptPositions(xs, f)[k] < |xs|
  {
    if xs != [] {
      var init := xs[..|xs| - 1];
      KeptPositionsIncreasing(init, f);
    }
  }

  lemma {:induction false} KeptPositionsCover<T, U>(xs: seq<T>, f: T -> Option<U>)
    ensures forall j :: 0 <= j < |xs| && f(xs[j]).Some? ==> j in KeptPositions(xs, f)
  {
    if xs != [] {
      var init := xs[..|xs| - 1];
      KeptPositionsCover(init, f);
      forall j | 0 <= j < |init| ensures xs[j] == init[j] {}
    }
  }

  /** `xs.findIndex(p)`, with `None` for -1. */
  function FirstWhere<T>(xs: seq<T>, p: T -> bool): (r: Option<nat>)
    ensures r.Some? ==> r.value < |xs| && p(xs[r.value]) && forall j :: 0 <= j < r.value ==> !p(xs[j])
    ensures r.None? ==> forall j :: 0 <= j < |xs| ==> !p(xs[j])
  {
    if xs == [] then None
    else if p(xs[0]) then Some(0)
    else match FirstWhere(xs[1..], p)
      case None => None
      case Some(i) => Some(i + 1)
  }

  /** The first element `p` accepts is the one found. */
  lemma FirstWhereAt<T>(xs: seq<T>, p: T -> bool, i: nat)
    requires i < |xs| && p(xs[i]) && forall j :: 0 <= j < i ==> !p(xs[j])
    ensures FirstWhere(xs, p) == Some(i)
  {
  }

  /** Nothing is found when `p` accepts no element. */
  lemma FirstWhereNone<T>(xs: seq<T>, p: T -> bool)
    requires forall j :: 0 <= j < |xs| ==> !p(xs[j])
    ensures FirstWhere(xs, p) == None
  {
  }

  /** Something is found when `p` accepts some element. */
  lemma FirstWhereSome<T>(xs: seq<T>, p: T -> bool, j: nat)
    requires j < |xs| && p(xs[j])
    ensures FirstWhere(xs, p).Some?
  {
  }

  /** Every kept result comes from an element of the input. */
  lemma FilterMapFrom<T, U>(xs: seq<T>, f: T -> Option<U>, k: nat)
    requires k < |FilterMap(xs, f)|
    ensures exists j :: 0 <= j < |xs| && f(xs[j]) == Some(FilterMap(xs, f)[k])
  {
    var idx := FilterMapPositions(xs, f);
    assert f(xs[idx[k]]) == Some(FilterMap(xs, f)[k]);
  }

  /** Nothing is kept when `f` accepts no element. */
  lemma {:induction false} FilterMapNone<T, U>(xs: seq<T>, f: T -> Option<U>)
    requires forall j :: 0 <= j < |xs| ==> f(xs[j]).None?
    ensures FilterMap(xs, f) == []
  {
    if xs != [] {
      FilterMapNone(xs[..|xs| - 1], f);
    }
  }

  /** An element `f` accepts has its result kept. */
  lemma FilterMapKeeps<T, U>(xs: seq<T>, f: T -> Option<U>, j: nat)
    requires j < |xs| && f(xs[j]).Some?
    ensures f(xs[j]).value in FilterMap(xs, f)
  {
    var idx := FilterMapPositions(xs, f);
    var k :| 0 <= k < |idx| && idx[k] == j;
    assert f(xs[idx[k]]) == Some(FilterMap(xs, f)[k]);
  }

  /** Everything is kept, in order, when `f` accepts every element. */
  lemma {:induction false} FilterMapAll<T, U>(xs: seq<T>, f: T -> Option<U>)
    requires forall j :: 0 <= j < |xs| ==> f(xs[j]).Some?
    ensures |FilterMap(xs, f)| == |xs|
    ensures forall j :: 0 <= j < |xs| ==> Some(FilterMap(xs, f)[j]) == f(xs[j])
  {
    if xs != [] {
      FilterMapAll(xs[..|xs| - 1], f);
    }
  }

  /** One more element of the input adds its result, if any, at the end. */
  lemma FilterMapSnoc<T, U>(xs: seq<T>, f: T -> Option<U>, i: nat)
    requires i < |xs|
    ensures FilterMap(xs[..i + 1], f) == FilterMap(xs[..i], f) + (if f(xs[i]).Some? then [f(xs[i]).value] else [])
  {
    assert xs[..i + 1][..i] == xs[..i];
  }

  // ---------------------------------------------------------------------
  // Sorting
  // ---------------------------------------------------------------------

  /** `le(a, b)`: `a` may come before `b`. */
  ghost predicate TotalBy<T(!new)>(le: (T, T) -> bool) {
    forall a, b :: le(a, b) || le(b, a)
  }

  /** Each element may come before the next one. */
  predicate SortedBy<T>(xs: seq<T>, le: (T, T) -> bool) {
    forall i :: 0 < i < |xs| ==> le(xs[i - 1], xs[i])
  }

  /** `x` placed after the leading elements that may come before it. */
  function InsertBy<T>(x: T, ys: seq<T>, le: (T, T) -> bool): (r: seq<T>)
    ensures |r| == |ys| + 1
    ensures r[0] == x || (ys != [] && r[0] == ys[0])
    ensures multiset(r) == multiset(ys) + multiset{x}
  {
    if ys == [] || !le(ys[0], x) then [x] + ys
    else
      assert ys == [ys[0]] + ys[1..];
      [ys[0]] + InsertBy(x, ys[1..], le)
  }

  /**
   * `Array.prototype.sort` with a comparison function: a stable sort in
   * which `le(a, b)` holds when the comparison of `a` with `b` is at most 0.
   */
  function SortBy<T>(xs: seq<T>, le: (T, T) -> bool): (r: seq<T>)
    ensures |r| == |xs|
    ensures multiset(r) == multiset(xs)
  {
    if xs == [] then []
    else
      assert xs == xs[..|xs| - 1] + [xs[|xs| - 1]];
      InsertBy(xs[|xs| - 1], SortBy(xs[..|xs| - 1], le), le)
  }

  lemma {:induction false} InsertBySorted<T(!new)>(x: T, ys: seq<T>, le: (T, T) -> bool)
    requires TotalBy(le) && SortedBy(ys, le)
    ensures SortedBy(InsertBy(x, ys, le), le)
  {
    if ys != [] && le(ys[0], x) {
      var tail := ys[1..];
      assert SortedBy(tail, le) by {
        forall i | 0 < i < |tail| ensures le(tail[i - 1], tail[i]) {
          assert tail[i - 1] == ys[i] && tail[i] == ys[i + 1];
        }
      }
      InsertBySorted(x, tail, le);
      var rest := InsertBy(x, tail, le);
      var r := [ys[0]] + rest;
      forall i | 0 < i < |r| ensures le(r[i - 1], r[i]) {
        if i == 1 {
          if tail != [] && rest[0] == tail[0] {
            assert tail[0] == ys[1];
          }
        } else {
          assert r[i - 1] == rest[i - 2] && r[i] == rest[i - 1];
        }
      }
    }
  }

  /** With a total comparison the result is sorted, and it is always a permutation. */
  lemma {:induction false} SortBySorted<T(!new)>(xs: seq<T>, le: (T, T) -> bool)
    requires TotalBy(le)
    ensures SortedBy(SortBy(xs, le), le)
  {
    if xs != [] {
      SortBySorted(xs[..|xs| - 1], le);
      InsertBySorted(xs[|xs| - 1], SortBy(xs[..|xs| - 1], le), le);
    }
  }

  /** Elements already in an order the comparison accepts are left where they are. */
  lemma {:induction false} SortByInOrder<T>(xs: seq<T>, le: (T, T) -> bool)
    requires forall i, j :: 0 <= i < j < |xs| ==> le(xs[i], xs[j])
    ensures SortBy(xs, le) == xs
  {
    if xs != [] {
      var init := xs[..|xs| - 1];
      forall i, j | 0 <= i < j < |init| ensures le(init[i], init[j]) {
        assert init[i] == xs[i] && init[j] == xs[j];
      }
      SortByInOrder(init, le);
      SortByLastInPlace(xs, le);
    }
  }

  /** A last element that every earlier one may come before stays last. */
  lemma SortByLastInPlace<T>(xs: seq<T>, le: (T, T) -> bool)
    requires xs != [] && SortBy(xs[..|xs| - 1], le) == xs[..|xs| - 1]
    requires forall i :: 0 <= i < |xs| - 1 ==> le(xs[i], xs[|xs| - 1])
    ensures SortBy(xs, le) == xs
  {
    InsertByLastOf(xs, le);
  }

  /** `InsertByLast` for the last element of a sequence and the elements before it. */
  lemma InsertByLastOf<T>(xs: seq<T>, le: (T, T) -> bool)
    requires xs != []
    requires forall i :: 0 <= i < |xs| - 1 ==> le(xs[i], xs[|xs| - 1])
    ensures InsertBy(xs[|xs| - 1], xs[..|xs| - 1], le) == xs
  {
    var init := xs[..|xs| - 1];
    forall i | 0 <= i < |init| ensures le(init[i], xs[|xs| - 1]) {
      assert init[i] == xs[i];
    }
    InsertByLast(xs[|xs| - 1], init, le);
    assert init + [xs[|xs| - 1]] == xs;
  }

  /** An element that every element may come before goes to the end. */
  lemma {:induction false} InsertByLast<T>(x: T, ys: seq<T>, le: (T, T) -> bool)
    requires forall i :: 0 <= i < |ys| ==> le(ys[i], x)
    ensures InsertBy(x, ys, le) == ys + [x]
  {
    if ys != [] {
      var tail := ys[1..];
      forall i | 0 <= i < |tail| ensures le(tail[i], x) {
        assert tail[i] == ys[i + 1];
      }
      InsertByLast(x, tail, le);
      assert ys == [ys[0]] + tail;
    }
  }

  /** Sorting elements that are pairwise different keeps them pairwise different. */
  lemma {:induction false} SortByDistinct<T>(xs: seq<T>, le: (T, T) -> bool)
    requires Distinct(xs)
    ensures Distinct(SortBy(xs, le))
  {
    if xs != [] {
      var init := xs[..|xs| - 1];
      var last := xs[|xs| - 1];
      assert Distinct(init) by {
        forall i, j | 0 <= i < j < |init| ensures init[i] != init[j] {
          assert init[i] == xs[i] && init[j] == xs[j];
        }
      }
      SortByDistinct(init, le);
      assert last !in init by {
        forall i | 0 <= i < |init| ensures init[i] != last {
          assert init[i] == xs[i];
        }
      }
      assert last !in multiset(SortBy(init, le));
      InsertByDistinct(last, SortBy(init, le), le);
    }
  }

  lemma {:induction false} InsertByDistinct<T>(x: T, ys: seq<T>, le: (T, T) -> bool)
    requires Distinct(ys) && x !in ys
    ensures Distinct(InsertBy(x, ys, le))
  {
    var r := InsertBy(x, ys, le);
    if ys != [] && le(ys[0], x) {
      var tail := ys[1..];
      assert Distinct(tail) by {
        forall i, j | 0 <= i < j < |tail| ensures tail[i] != tail[j] {
          assert tail[i] == ys[i + 1] && tail[j] == ys[j + 1];
        }
      }
      InsertByDistinct(x, tail, le);
      var rest := InsertBy(x, tail, le);
      assert ys[0] !in multiset(tail) + multiset{x} by {
        forall i | 0 <= i < |tail| ensures tail[i] != ys[0] {
          assert tail[i] == ys[i + 1];
        }
      }
      forall i, j | 0 <= i < j < |r| ensures r[i] != r[j] {
        if i == 0 {
          assert r[j] == rest[j - 1];
          assert rest[j - 1] in multiset(rest);
        } else {
          assert r[i] == rest[i - 1] && r[j] == rest[j - 1];
        }
      }
    } else {
      forall i, j | 0 <= i < j < |r| ensures r[i] != r[j] {
        if i == 0 {
          assert r[j] == ys[j - 1];
        } else {
          assert r[i] == ys[i - 1] && r[j] == ys[j - 1];
        }
      }
    }
  }

  /** The UTF-16 code units of one character: itself below 0x10000, else a lead and a trail surrogate. */
  function Utf16Units(c: char): (us: seq<int>)
    ensures |us| == 1 || |us| == 2
  {
    var n := c as int;
    if n < 0x10000 then [n] else [0xD800 + (n - 0x10000) / 0x400, 0xDC00 + (n - 0x10000) % 0x400]
  }

  /** The UTF-16 encoding of a string, the units JavaScript compares. */
  function Utf16(s: string): seq<int> {
    if s == [] then [] else Utf16Units(s[0]) + Utf16(s[1..])
  }

  /** Lexicographic order of two sequences of code units, a prefix first. */
  predicate UnitsLe(x: seq<int>, y: seq<int>) {
    x == [] || (y != [] && (x[0] < y[0] || (x[0] == y[0] && UnitsLe(x[1..], y[1..]))))
  }

  /**
   * Where a character's first code unit places it: characters below the
   * surrogate range keep their value, characters above 0xFFFF (whose lead
   * surrogates come next) follow them, and the rest of the basic plane
   * (from 0xE000) sorts last.
   */
  function Utf16Rank(c: char): int {
    var n := c as int;
    if n < 0xD800 then n else if n >= 0x10000 then n - 0x10000 + 0xD800 else n + 0x100000
  }

  /**
   * UTF-16 code-unit order of two strings, the default order of
   * `Array.prototype.sort`, compared a character at a time.
   */
  predicate CodeUnitLe(a: string, b: string) {
    a == [] || (b != [] && (Utf16Rank(a[0]) < Utf16Rank(b[0]) || (a[0] == b[0] && CodeUnitLe(a[1..], b[1..]))))
  }

  /** Comparing a character at a time by rank is comparing the UTF-16 encodings. */
  lemma {:induction false} CodeUnitLeUnits(a: string, b: string)
    ensures CodeUnitLe(a, b) <==> UnitsLe(Utf16(a), Utf16(b))
  {
    if a != [] && b != [] {
      CodeUnitLeUnits(a[1..], b[1..]);
      if a[0] == b[0] {
        UnitsLeSamePrefix(Utf16Units(a[0]), Utf16(a[1..]), Utf16(b[1..]));
      } else {
        UnitsLeFirstChar(a[0], b[0], Utf16(a[1..]), Utf16(b[1..]));
      }
    }
  }

  lemma {:induction false} UnitsLeSamePrefix(p: seq<int>, x: seq<int>, y: seq<int>)
    ensures UnitsLe(p + x, p + y) <==> UnitsLe(x, y)
  {
    if p != [] {
      assert (p + x)[0] == p[0] == (p + y)[0];
      assert (p + x)[1..] == p[1..] + x && (p + y)[1..] == p[1..] + y;
      UnitsLeSamePrefix(p[1..], x, y);
    } else {
      assert p + x == x && p + y == y;
    }
  }

  /** Two different characters are ordered by their first differing unit, which their ranks order the same way. */
  lemma UnitsLeFirstChar(c: char, d: char, x: seq<int>, y: seq<int>)
    requires c != d
    ensures UnitsLe(Utf16Units(c) + x, Utf16Units(d) + y) <==> Utf16Rank(c) < Utf16Rank(d)
  {
    var u, v := Utf16Units(c) + x, Utf16Units(d) + y;
    var n, m := c as int, d as int;
    assert u[0] == Utf16Units(c)[0] && v[0] == Utf16Units(d)[0];
    if n >= 0x10000 && m >= 0x10000 && (n - 0x10000) / 0x400 == (m - 0x10000) / 0x400 {
      assert (n - 0x10000) % 0x400 != (m - 0x10000) % 0x400;
      assert u[1..][0] == u[1] == 0xDC00 + (n - 0x10000) % 0x400;
      assert v[1..][0] == v[1] == 0xDC00 + (m - 0x10000) % 0x400;
    }
  }

  lemma {:induction false} CodeUnitLeTotal(a: string, b: string)
    ensures CodeUnitLe(a, b) || CodeUnitLe(b, a)
  {
    if a != [] && b != [] && a[0] == b[0] {
      CodeUnitLeTotal(a[1..], b[1..]);
    }
  }

  lemma {:induction false} CodeUnitLeTransitive(a: string, b: string, c: string)
    requires CodeUnitLe(a, b) && CodeUnitLe(b, c)
    ensures CodeUnitLe(a, c)
  {
    if a != [] && a[0] == b[0] && b[0] == c[0] {
      CodeUnitLeTransitive(a[1..], b[1..], c[1..]);
    }
  }

  /** Two strings that each sort no later than the other are equal. */
  lemma {:induction false} CodeUnitLeAntisymmetric(a: string, b: string)
    requires CodeUnitLe(a, b) && CodeUnitLe(b, a)
    ensures a == b
  {
    if a != [] {
      CodeUnitLeAntisymmetric(a[1..], b[1..]);
      assert a == [a[0]] + a[1..] && b == [b[0]] + b[1..];
    }
  }
}
