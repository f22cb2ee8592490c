/**
 * Field coercions of the proposal sync pipeline (API-NewCorban-RT.py): how
 * raw JSON values from the partner API become the text stored in the
 * staging table, the ordered fallback lookup across nested objects, the
 * phone-entry selection, the progress/ETA renderers and the 20/50-minute
 * alignment and operating-hours gate of the scheduler.
 */
module SyncFields {
  import opened Base
  import opened Py

  // ---------------------------------------------------------------------
  // Text coercion
  // ---------------------------------------------------------------------

  /** Text that survives `str.strip()` unchanged and is not blank. */
  predicate IsStrippedText(t: string) {
    t != [] && !IsPySpace(t[0]) && !IsPySpace(t[|t| - 1])
  }

  lemma IntTextIsStripped(i: int)
    ensures IsStrippedText(IntToString(i))
  {
    var t := IntToString(i);
    if i < 0 {
      assert t[0] == '-';
      assert t[|t| - 1] == NatToString(-i)[|NatToString(-i)| - 1];
    }
  }

  /**
   * normalize_value_text: None stays None, booleans become '1'/'0', integers
   * their decimal text, anything else its stripped `str()`, blank giving None.
   */
  function NormalizeValueText(v: PyValue): (r: Option<string>)
    ensures v.PNone? ==> r == None
    ensures v.PBool? ==> r == Some(if v.b then "1" else "0")
    ensures v.PInt? ==> r == Some(IntToString(v.i))
    ensures v.PStr? ==> (r == None <==> AllIn(v.s, IsPySpace))
    ensures v.PStr? && r.Some? ==> r.value == PyStrip(v.s)
    ensures r.Some? ==> IsStrippedText(r.value)
  {
    match v
    case PNone => None
    case PBool(b) => Some(if b then "1" else "0")
    case PInt(i) => IntTextIsStripped(i); Some(IntToString(i))
    case _ =>
      var s := PyStrip(Str(v));
      TrimEmptyIff(Str(v), IsPySpace);
      if s != [] then Some(s) else None
  }

  /** Normalising the stored text again gives it back unchanged. */
  lemma NormalizeValueTextIdempotent(v: PyValue)
    requires NormalizeValueText(v).Some?
    ensures NormalizeValueText(PStr(NormalizeValueText(v).value)) == NormalizeValueText(v)
  {
    StrippedTextKept(NormalizeValueText(v).value);
  }

  /** A text already stripped and non-empty is stored as it is. */
  lemma StrippedTextKept(t: string)
    requires IsStrippedText(t)
    ensures NormalizeValueText(PStr(t)) == Some(t)
  {
    TrimOfTrimmed(t, IsPySpace);
    assert !AllIn(t, IsPySpace) by { assert !IsPySpace(t[0]); }
  }

  const MAX_TEXT: nat := 4000

  /** normalize_4000: the normalised text cut to at most 4000 characters. */
  function Normalize4000(v: PyValue): (r: Option<string>)
    ensures r.None? <==> NormalizeValueText(v).None?
    ensures r.Some? ==> |r.value| <= MAX_TEXT && StartsWith(NormalizeValueText(v).value, r.value)
    ensures r.Some? && |NormalizeValueText(v).value| <= MAX_TEXT ==> r == NormalizeValueText(v)
  {
    if v.PNone? then None
    else
      match NormalizeValueText(v)
      case None => None
      case Some(t) => Some(if |t| <= MAX_TEXT then t else t[..MAX_TEXT])
  }

  /** The values Python's `in (True, 1, '1', 'true', 'True')` accepts (True == 1). */
  predicate IsTrueToken(v: PyValue) {
    v == PBool(true) || v == PInt(1) || v == PStr("1") || v == PStr("true") || v == PStr("True")
  }

  /**
   * The tri-state flag coercion used for every bit column: '1' for the true
   * tokens, None for None or '', '0' for anything else.
   */
  function BitFlag(v: PyValue): (r: Option<string>)
    ensures r == Some("1") <==> IsTrueToken(v)
    ensures r == None <==> (v == PNone || v == PStr(""))
    ensures r == None || r == Some("0") || r == Some("1")
  {
    if IsTrueToken(v) then Some("1")
    else if v != PNone && v != PStr("") then Some("0")
    else None
  }

  /** Re-coercing a stored flag keeps it. */
  lemma BitFlagStable(v: PyValue)
    requires BitFlag(v).Some?
    ensures BitFlag(PStr(BitFlag(v).value)) == BitFlag(v)
  {
  }

  /** The proposal id: None for None, '' or an empty list, else the stripped `str()`. */
  function ProposalId(v: PyValue): (r: Option<string>)
    ensures r.None? <==> (v == PNone || v == PStr("") || v == PList([]))
    ensures r.Some? ==> r.value == [] || IsStrippedText(r.value)
  {
    if v == PNone || v == PStr("") || v == PList([]) then None else Some(PyStrip(Str(v)))
  }

  // ---------------------------------------------------------------------
  // Digit-only fields
  // ---------------------------------------------------------------------

  /** digits_only: '' for None, else the digits of `str(v)`. */
  function DigitsOnly(v: PyValue): (r: string)
    ensures AllDigits(r)
    ensures v.PStr? ==> r == Digits(v.s)
  {
    if v.PNone? then "" else Digits(Str(v))
  }

  /**
   * normalize_digits: None when there are no digits, otherwise the digits,
   * cut to `maxLen` when a limit is given (0 stands for no limit).
   */
  function NormalizeDigits(v: PyValue, maxLen: nat): (r: Option<string>)
    ensures r.None? <==> DigitsOnly(v) == []
    ensures r.Some? ==> AllDigits(r.value) && StartsWith(DigitsOnly(v), r.value)
    ensures r.Some? && maxLen > 0 ==> |r.value| == (if |DigitsOnly(v)| < maxLen then |DigitsOnly(v)| else maxLen)
    ensures r.Some? && maxLen == 0 ==> r.value == DigitsOnly(v)
  {
    var d := DigitsOnly(v);
    if d == [] then None
    else if maxLen == 0 || |d| <= maxLen then Some(d)
    else Some(d[..maxLen])
  }

  /** The per-column length limits of LENGTH_LIMITS. */
  const LENGTH_LIMITS: map<string, nat> := map[
    "estado" := 2, "cep" := 8, "cliente_sexo" := 1, "telefone_ddd" := 4,
    "telefone_numero" := 20, "agencia" := 20, "agencia_digito" := 5,
    "conta" := 30, "conta_digito" := 5]

  // ---------------------------------------------------------------------
  // State names and codes
  // ---------------------------------------------------------------------

  /** UF_BY_NAME: accent-free upper-case state name to its two-letter code. */
  const UF_BY_NAME: seq<(string, string)> := [
    ("ACRE", "AC"), ("ALAGOAS", "AL"), ("AMAPA", "AP"), ("AMAZONAS", "AM"), ("BAHIA", "BA"),
    ("CEARA", "CE"), ("DISTRITO FEDERAL", "DF"), ("ESPIRITO SANTO", "ES"), ("GOIAS", "GO"),
    ("MARANHAO", "MA"), ("MATO GROSSO", "MT"), ("MATO GROSSO DO SUL", "MS"), ("MINAS GERAIS", "MG"),
    ("PARA", "PA"), ("PARAIBA", "PB"), ("PARANA", "PR"), ("PERNAMBUCO", "PE"), ("PIAUI", "PI"),
    ("RIO DE JANEIRO", "RJ"), ("RIO GRANDE DO NORTE", "RN"), ("RONDONIA", "RO"),
    ("RIO GRANDE DO SUL", "RS"), ("RORAIMA", "RR"), ("SANTA CATARINA", "SC"), ("SERGIPE", "SE"),
    ("SAO PAULO", "SP"), ("TOCANTINS", "TO")]

  predicate IsUfCode(s: string) { exists k | 0 <= k < |UF_BY_NAME| :: UF_BY_NAME[k].1 == s }

  /** `UF_BY_NAME.get(name)`. */
  function UfByName(name: string): (r: Option<string>)
    ensures r.Some? ==> IsUfCode(r.value)
  {
    LookupName(UF_BY_NAME, name)
  }

  function LookupName(table: seq<(string, string)>, name: string): (r: Option<string>)
    requires forall k :: 0 <= k < |table| ==> table[k] in UF_BY_NAME
    ensures r.Some? ==> IsUfCode(r.value)
    ensures r.None? <==> forall k :: 0 <= k < |table| ==> table[k].0 != name
    ensures r.Some? ==> exists k :: 0 <= k < |table| && table[k] == (name, r.value)
  {
    if table == [] then None
    else if table[0].0 == name then Some(table[0].1)
    else LookupName(table[1..], name)
  }

  predicate NotPySpace(c: char) { !IsPySpace(c) }

  /** `str.split()` with no argument: the maximal runs of non-whitespace. */
  function Words(s: string): (ws: seq<string>)
    ensures forall k :: 0 <= k < |ws| ==> ws[k] != []
    decreases |s|
  {
    var t := TrimStart(s, IsPySpace);
    if t == [] then []
    else
      var n := LeadingCount(t, NotPySpace);
      FirstWordNonEmpty(t);
      [t[..n]] + Words(t[n..])
  }

  lemma FirstWordNonEmpty(t: string)
    requires t != [] && !IsPySpace(t[0])
    ensures LeadingCount(t, NotPySpace) >= 1
  {
    assert NotPySpace(t[0]);
  }

  /** `' '.join(s.split())`: whitespace runs collapsed to one space, ends stripped. */
  function CollapseSpaces(s: string): string
  {
    Join(Words(s), ' ')
  }

  /** Every character that is neither a letter nor whitespace becomes a space. */
  function LettersAndSpaces(s: string): (r: string)
    ensures |r| == |s|
    ensures forall i :: 0 <= i < |s| ==> r[i] == (if IsAlpha(s[i]) || IsPySpace(s[i]) then s[i] else ' ')
  {
    seq(|s|, i requires 0 <= i < |s| => if IsAlpha(s[i]) || IsPySpace(s[i]) then s[i] else ' ')
  }

  /**
   * normalize_uf: a two-letter code (any case, accents ignored) passes
   * through; otherwise the cleaned, upper-cased name is looked up; anything
   * else gives None.
   */
  function NormalizeUf(v: PyValue): (r: Option<string>)
    ensures r.Some? ==> IsUfCode(r.value)
    ensures v.PNone? ==> r.None?
    ensures v.PStr? && AllIn(v.s, IsPySpace) ==> r.None?
  {
    if v.PNone? then None
    else
      var s := PyStrip(Str(v));
      TrimEmptyIff(Str(v), IsPySpace);
      if s == [] then None
      else
        var s2 := Upper(StripAccents(s));
        if |s2| == 2 && IsUfCode(s2) then Some(s2)
        else UfByName(CollapseSpaces(PyStrip(LettersAndSpaces(s2))))
  }

  /** Upper-case ASCII letters and single inner spaces: the shape of a UF_BY_NAME key. */
  predicate IsPlainName(s: string) {
    && (forall i :: 0 <= i < |s| ==> IsAsciiUpper(s[i]) || s[i] == ' ')
    && (s != [] ==> s[0] != ' ')
    && (forall i :: 0 <= i < |s| ==> SpaceThenLetter(s, i))
  }

  /** A space at `i` is followed by a letter. */
  predicate SpaceThenLetter(s: string, i: nat)
    requires i < |s|
  {
    s[i] == ' ' ==> i + 1 < |s| && IsAsciiUpper(s[i + 1])
  }

  /** A plain name is unchanged by stripping, accent removal and upper-casing. */
  lemma PlainNameFixed(s: string)
    requires IsPlainName(s)
    ensures PyStrip(s) == s
    ensures StripAccents(s) == s
    ensures Upper(s) == s
    ensures LettersAndSpaces(s) == s
  {
    PlainStrip(s);
    PlainAccents(s);
    PlainUpper(s);
    PlainLetters(s);
  }

  lemma PlainStrip(s: string)
    requires IsPlainName(s)
    ensures PyStrip(s) == s
  {
    if s != [] {
      assert SpaceThenLetter(s, |s| - 1);
    }
    TrimOfTrimmed(s, IsPySpace);
  }

  lemma PlainAccents(s: string)
    requires IsPlainName(s)
    ensures StripAccents(s) == s
  {
    StripAccentsAscii(s);
  }

  lemma PlainUpper(s: string)
    requires IsPlainName(s)
    ensures Upper(s) == s
  {
  }

  lemma PlainLetters(s: string)
    requires IsPlainName(s)
    ensures LettersAndSpaces(s) == s
  {
  }

  lemma PlainNoLeadingSpace(s: string)
    requires IsPlainName(s) && s != []
    ensures TrimStart(s, IsPySpace) == s
  {
    assert IsAsciiUpper(s[0]);
    assert LeadingCount(s, IsPySpace) == 0;
  }

  lemma PlainTail(s: string, n: nat)
    requires IsPlainName(s) && n < |s| && s[n] == ' '
    ensures n + 1 < |s| && s[n + 1] != ' ' && IsPlainName(s[n + 1..])
  {
    var rest := s[n + 1..];
    assert SpaceThenLetter(s, n);
    forall i | 0 <= i < |rest| ensures SpaceThenLetter(rest, i) {
      assert SpaceThenLetter(s, n + 1 + i);
    }
  }

  lemma SpaceThenWord(s: string, n: nat)
    requires n + 1 < |s| && s[n] == ' ' && IsAsciiUpper(s[n + 1])
    ensures TrimStart(s[n..], IsPySpace) == s[n + 1..]
  {
    var t := s[n..];
    assert t[0] == ' ' && t[1] == s[n + 1];
    assert !IsPySpace(t[1]);
    assert t[1..] == s[n + 1..];
    assert LeadingCount(t[1..], IsPySpace) == 0;
    assert LeadingCount(t, IsPySpace) == 1;
  }

  /** A plain name has no leading whitespace and its first word is not empty. */
  lemma PlainNameFirstWord(s: string)
    requires IsPlainName(s) && s != []
    ensures TrimStart(s, IsPySpace) == s
    ensures LeadingCount(s, NotPySpace) > 0
  {
    PlainNoLeadingSpace(s);
    UpperNotSpace(s[0]);
  }

  /** Where the first word of a plain name stops: a space, then a plain rest. */
  lemma PlainWordStop(s: string, n: nat)
    requires IsPlainName(s) && n < |s| && !NotPySpace(s[n])
    ensures n + 1 < |s| && s[n] == ' ' && IsPlainName(s[n + 1..])
    ensures TrimStart(s[n..], IsPySpace) == s[n + 1..]
  {
    PlainStopIsSpace(s, n);
    PlainTail(s, n);
    SpaceThenWord(s, n);
  }

  lemma UpperNotSpace(c: char)
    requires IsAsciiUpper(c)
    ensures NotPySpace(c)
  {
  }

  /** Inside a plain name the only whitespace is the plain space. */
  lemma PlainStopIsSpace(s: string, n: nat)
    requires IsPlainName(s) && n < |s| && !NotPySpace(s[n])
    ensures s[n] == ' '
  {
    if s[n] != ' ' {
      UpperNotSpace(s[n]);
    }
  }

  lemma WordsAfterTrim(x: string, y: string)
    requires TrimStart(x, IsPySpace) == TrimStart(y, IsPySpace)
    ensures Words(x) == Words(y)
  {
  }

  lemma JoinCons(w: string, ws: seq<string>, c: char)
    requires ws != []
    ensures Join([w] + ws, c) == w + [c] + Join(ws, c)
  {
    assert ([w] + ws)[1..] == ws;
  }

  lemma WordsUnfold(s: string)
    requires s != [] && TrimStart(s, IsPySpace) == s
    ensures Words(s) == [s[..LeadingCount(s, NotPySpace)]] + Words(s[LeadingCount(s, NotPySpace)..])
  {
  }

  /** Collapsing the spaces of a plain name gives the name back. */
  lemma {:induction false} CollapsePlainName(s: string)
    requires IsPlainName(s)
    ensures CollapseSpaces(s) == s
    decreases |s|, 1
  {
    if s != [] {
      PlainNameFirstWord(s);
      var n := LeadingCount(s, NotPySpace);
      if n == |s| {
        CollapseOneWord(s);
      } else {
        PlainWordStop(s, n);
        CollapsePlainRest(s, n);
      }
    }
  }

  /** The induction step: the first word, one space, and the collapsed plain rest. */
  lemma {:induction false} CollapsePlainRest(s: string, n: nat)
    requires s != [] && TrimStart(s, IsPySpace) == s && n == LeadingCount(s, NotPySpace)
    requires n + 1 < |s| && s[n] == ' ' && IsPlainName(s[n + 1..])
    requires TrimStart(s[n..], IsPySpace) == s[n + 1..]
    ensures CollapseSpaces(s) == s
    decreases |s|, 0
  {
    var rest := s[n + 1..];
    CollapsePlainName(rest);
    PlainNoLeadingSpace(rest);
    CollapseJoin(s, n, rest);
  }

  lemma CollapseOneWord(s: string)
    requires s != [] && TrimStart(s, IsPySpace) == s && LeadingCount(s, NotPySpace) == |s|
    ensures CollapseSpaces(s) == s
  {
    WordsOneWord(s);
  }

  lemma WordsOneWord(s: string)
    requires s != [] && TrimStart(s, IsPySpace) == s && LeadingCount(s, NotPySpace) == |s|
    ensures Words(s) == [s]
  {
    WordsUnfold(s);
    assert s[|s|..] == [] && s[..|s|] == s;
  }

  lemma CollapseJoin(s: string, n: nat, rest: string)
    requires s != [] && TrimStart(s, IsPySpace) == s
    requires n == LeadingCount(s, NotPySpace) && n + 1 < |s| && s[n] == ' '
    requires rest == s[n + 1..] && TrimStart(rest, IsPySpace) == rest
    requires TrimStart(s[n..], IsPySpace) == rest
    requires CollapseSpaces(rest) == rest
    ensures CollapseSpaces(s) == s
  {
    CollapseStep(s, n, rest);
    SplitAround(s, n);
  }

  lemma SplitAround(s: string, n: nat)
    requires n < |s| && s[n] == ' '
    ensures s == s[..n] + [' '] + s[n + 1..]
  {
  }

  lemma CollapseStep(s: string, n: nat, rest: string)
    requires s != [] && TrimStart(s, IsPySpace) == s
    requires n == LeadingCount(s, NotPySpace) && n < |s|
    requires rest == s[n + 1..] && rest != [] && TrimStart(rest, IsPySpace) == rest
    requires TrimStart(s[n..], IsPySpace) == rest
    ensures CollapseSpaces(s) == s[..n] + [' '] + CollapseSpaces(rest)
  {
    WordsStep(s, n, rest);
    WordsNonEmpty(rest);
    JoinCons(s[..n], Words(rest), ' ');
  }

  lemma WordsStep(s: string, n: nat, rest: string)
    requires s != [] && TrimStart(s, IsPySpace) == s
    requires n == LeadingCount(s, NotPySpace) && n < |s|
    requires rest == s[n + 1..] && TrimStart(s[n..], IsPySpace) == rest
    ensures Words(s) == [s[..n]] + Words(rest)
  {
    WordsUnfold(s);
    WordsAfterTrim(s[n..], rest);
  }

  lemma WordsNonEmpty(s: string)
    requires s != [] && TrimStart(s, IsPySpace) == s
    ensures Words(s) != []
  {
    WordsUnfold(s);
  }

  lemma UfCodesArePlain()
    ensures forall k :: 0 <= k < |UF_BY_NAME| ==> |UF_BY_NAME[k].1| == 2 && IsPlainName(UF_BY_NAME[k].1)
  {
  }

  /** Every valid code passes through normalize_uf. */
  lemma NormalizeUfCode(k: nat)
    requires k < |UF_BY_NAME|
    ensures NormalizeUf(PStr(UF_BY_NAME[k].1)) == Some(UF_BY_NAME[k].1)
  {
    UfCodesArePlain();
    PlainNameFixed(UF_BY_NAME[k].1);
  }

  lemma UfNamesPlain0()
    ensures IsPlainName("ACRE")
         && IsPlainName("ALAGOAS")
         && IsPlainName("AMAPA")
         && IsPlainName("AMAZONAS")
         && IsPlainName("BAHIA")
         && IsPlainName("CEARA")
  {
  }

  lemma UfNamesPlain1()
    ensures IsPlainName("DISTRITO FEDERAL")
         && IsPlainName("ESPIRITO SANTO")
         && IsPlainName("GOIAS")
         && IsPlainName("MARANHAO")
  {
  }

  lemma UfNamesPlain2()
    ensures IsPlainName("MATO GROSSO")
         && IsPlainName("MATO GROSSO DO SUL")
         && IsPlainName("MINAS GERAIS")
  {
  }

  lemma UfNamesPlain3()
    ensures IsPlainName("PARA")
         && IsPlainName("PARAIBA")
         && IsPlainName("PARANA")
         && IsPlainName("PERNAMBUCO")
         && IsPlainName("PIAUI")
  {
  }

  lemma UfNamesPlain4()
    ensures IsPlainName("RIO DE JANEIRO")
         && IsPlainName("RIO GRANDE DO NORTE")
  {
  }

  lemma UfNamesPlain5()
    ensures IsPlainName("RONDONIA")
         && IsPlainName("RIO GRANDE DO SUL")
         && IsPlainName("RORAIMA")
  {
  }

  lemma UfNamesPlain6()
    ensures IsPlainName("SANTA CATARINA")
         && IsPlainName("SERGIPE")
         && IsPlainName("SAO PAULO")
         && IsPlainName("TOCANTINS")
  {
  }

  lemma UfNamesDistinct()
    ensures forall j, k :: 0 <= j < k < |UF_BY_NAME| ==> UF_BY_NAME[j].0 != UF_BY_NAME[k].0
  {
  }

  lemma UfNamesArePlain()
    ensures forall k :: 0 <= k < |UF_BY_NAME| ==> |UF_BY_NAME[k].0| > 2 && IsPlainName(UF_BY_NAME[k].0)
  {
    UfNamesPlain0();
    UfNamesPlain1();
    UfNamesPlain2();
    UfNamesPlain3();
    UfNamesPlain4();
    UfNamesPlain5();
    UfNamesPlain6();
  }

  lemma {:induction false} LookupDistinct(table: seq<(string, string)>, k: nat)
    requires k < |table|
    requires forall j :: 0 <= j < |table| ==> table[j] in UF_BY_NAME
    requires forall i, j :: 0 <= i < j < |table| ==> table[i].0 != table[j].0
    ensures LookupName(table, table[k].0) == Some(table[k].1)
  {
    if k > 0 {
      LookupDistinct(table[1..], k - 1);
    }
  }

  /** Every state name of the table maps to its code. */
  lemma NormalizeUfName(k: nat)
    requires k < |UF_BY_NAME|
    ensures NormalizeUf(PStr(UF_BY_NAME[k].0)) == Some(UF_BY_NAME[k].1)
  {
    UfNamesArePlain();
    NormalizeUfPlain(UF_BY_NAME[k].0);
    UfNamesDistinct();
    LookupDistinct(UF_BY_NAME, k);
  }

  /** A plain name longer than a code is looked up as it stands. */
  lemma NormalizeUfPlain(name: string)
    requires IsPlainName(name) && |name| > 2
    ensures NormalizeUf(PStr(name)) == UfByName(name)
  {
    PlainNameFixed(name);
    CollapsePlainName(name);
  }

  // ---------------------------------------------------------------------
  // Ordered fallback lookup
  // ---------------------------------------------------------------------

  /** A value get_first_value accepts: not None and not blank text. */
  predicate Usable(v: PyValue) {
    !v.PNone? && !(v.PStr? && PyStrip(v.s) == [])
  }

  /** A key that is a list or tuple is a path; anything else is a one-step path. */
  function KeyPath(key: PyValue): seq<PyValue>
  {
    if key.PList? then key.items else [key]
  }

  /** Following a path; None as soon as a step is taken from something that is not a dict. */
  function Walk(value: PyValue, parts: seq<PyValue>): (r: Option<PyValue>)
    ensures parts != [] && !IsDict(value) ==> r.None?
    decreases |parts|
  {
    if parts == [] then Some(value)
    else if !IsDict(value) then None
    else Walk(Get(value, parts[0]), parts[1..])
  }

  /** What one (source, key) pair contributes: PNone when it is skipped. */
  function Resolve(src: PyValue, key: PyValue): (r: PyValue)
    ensures !IsDict(src) || key.PNone? ==> r == PNone
  {
    if !IsDict(src) || key.PNone? then PNone
    else match Walk(src, KeyPath(key)) case None => PNone case Some(x) => x
  }

  /** All (source, key) pairs in scanning order: every key of a source before the next source. */
  function Candidates(sources: seq<PyValue>, keys: seq<PyValue>): (c: seq<PyValue>)
    ensures |c| == |sources| * |keys|
  {
    if sources == [] then []
    else seq(|keys|, j requires 0 <= j < |keys| => Resolve(sources[0], keys[j])) + Candidates(sources[1..], keys)
  }

  /** The first usable candidate, PNone when there is none. */
  function FirstUsable(c: seq<PyValue>): (r: PyValue)
    ensures r == PNone || Usable(r)
    ensures r == PNone <==> forall m :: 0 <= m < |c| ==> !Usable(c[m])
    ensures r != PNone ==> exists n :: 0 <= n < |c| && c[n] == r && forall m :: 0 <= m < n ==> !Usable(c[m])
  {
    if c == [] then PNone
    else if Usable(c[0]) then c[0]
    else
      var r := FirstUsable(c[1..]);
      FirstUsableTail(c, r);
      r
  }

  /** Skipping an unusable head keeps the first usable candidate of the tail. */
  lemma FirstUsableTail(c: seq<PyValue>, r: PyValue)
    requires c != [] && !Usable(c[0])
    requires r == PNone <==> forall m :: 0 <= m < |c[1..]| ==> !Usable(c[1..][m])
    requires r != PNone ==> exists n :: 0 <= n < |c[1..]| && c[1..][n] == r && forall m :: 0 <= m < n ==> !Usable(c[1..][m])
    ensures r == PNone <==> forall m :: 0 <= m < |c| ==> !Usable(c[m])
    ensures r != PNone ==> exists n :: 0 <= n < |c| && c[n] == r && forall m :: 0 <= m < n ==> !Usable(c[m])
  {
    var t := c[1..];
    assert forall m :: 1 <= m < |c| ==> c[m] == t[m - 1];
    if r != PNone {
      var n :| 0 <= n < |t| && t[n] == r && forall m :: 0 <= m < n ==> !Usable(t[m]);
      assert c[n + 1] == r;
      assert forall m :: 0 <= m < n + 1 ==> !Usable(c[m]);
    }
  }

  /** `isinstance(x, (list, tuple))` or wrap. */
  function AsList(v: PyValue): seq<PyValue>
  {
    if v.PList? then v.items else [v]
  }

  /** get_first_value(sources, keys). */
  function GetFirstValue(sources: PyValue, keys: PyValue): (r: PyValue)
    ensures r == PNone || Usable(r)
  {
    FirstUsable(Candidates(AsList(sources), AsList(keys)))
  }

  /** A usable value under any key of the first source wins over every later source. */
  lemma {:induction false} FirstSourceWins(sources: seq<PyValue>, keys: seq<PyValue>, j: nat)
    requires sources != [] && j < |keys| && Usable(Resolve(sources[0], keys[j]))
    ensures FirstUsable(Candidates(sources, keys))
         == FirstUsable(seq(|keys|, i requires 0 <= i < |keys| => Resolve(sources[0], keys[i])))
  {
    var row := seq(|keys|, i requires 0 <= i < |keys| => Resolve(sources[0], keys[i]));
    FirstUsablePrefix(row, Candidates(sources[1..], keys), j);
  }

  lemma {:induction false} FirstUsablePrefix(a: seq<PyValue>, b: seq<PyValue>, j: nat)
    requires j < |a| && Usable(a[j])
    ensures FirstUsable(a + b) == FirstUsable(a)
  {
    if !Usable(a[0]) {
      assert (a + b)[1..] == a[1..] + b;
      FirstUsablePrefix(a[1..], b, j - 1);
    }
  }

  /** A source that is not a dict contributes nothing. */
  lemma NonDictSourceSkipped(src: PyValue, rest: seq<PyValue>, keys: seq<PyValue>)
    requires !IsDict(src)
    ensures FirstUsable(Candidates([src] + rest, keys)) == FirstUsable(Candidates(rest, keys))
  {
    var row := seq(|keys|, i requires 0 <= i < |keys| => Resolve(src, keys[i]));
    assert ([src] + rest)[1..] == rest;
    assert Candidates([src] + rest, keys) == row + Candidates(rest, keys);
    FirstUsableSkip(row, Candidates(rest, keys));
  }

  lemma {:induction false} FirstUsableSkip(a: seq<PyValue>, b: seq<PyValue>)
    requires forall m :: 0 <= m < |a| ==> !Usable(a[m])
    ensures FirstUsable(a + b) == FirstUsable(b)
  {
    if a == [] {
      assert a + b == b;
    } else {
      assert (a + b)[0] == a[0];
      assert (a + b)[1..] == a[1..] + b;
      FirstUsableSkip(a[1..], b);
    }
  }

  // ---------------------------------------------------------------------
  // Phone entry selection
  // ---------------------------------------------------------------------

  /** The first dict among `values`, or an empty dict. */
  function FirstDict(values: seq<PyValue>): (r: PyValue)
    ensures IsDict(r)
    ensures r == PDict([]) || r in values
    ensures (forall i :: 0 <= i < |values| ==> !IsDict(values[i])) ==> r == PDict([])
    ensures (exists i :: 0 <= i < |values| && IsDict(values[i])) ==>
      exists i :: 0 <= i < |values| && values[i] == r && forall j :: 0 <= j < i ==> !IsDict(values[j])
  {
    if values == [] then PDict([])
    else if IsDict(values[0]) then values[0]
    else FirstDict(values[1..])
  }

  /** `d.values()` of a decoded object: the value of each key once, in key order. */
  function DictValues(entries: seq<(string, PyValue)>): (vs: seq<PyValue>)
    ensures |vs| == |DictKeys(entries)|
    ensures forall i :: 0 <= i < |vs| ==> vs[i] == Lookup(entries, DictKeys(entries)[i])
  {
    var es := DictEntries(entries);
    seq(|es|, i requires 0 <= i < |es| => es[i].1)
  }

  /** The id a phone entry carries: `telefone_id or id or telefoneId`. */
  function PhoneEntryId(tel: PyValue): PyValue
  {
    Or(Or(GetStr(tel, "telefone_id"), GetStr(tel, "id")), GetStr(tel, "telefoneId"))
  }

  predicate MatchesId(tel: PyValue, idText: string) {
    PhoneEntryId(tel) != PNone && Str(PhoneEntryId(tel)) == idText
  }

  /** The first candidate whose id, as text, equals `idText`. */
  function FindById(cands: seq<PyValue>, idText: string): (r: Option<PyValue>)
    ensures r.Some? ==> r.value in cands && MatchesId(r.value, idText)
    ensures r.None? <==> forall i :: 0 <= i < |cands| ==> !MatchesId(cands[i], idText)
  {
    if cands == [] then None
    else if MatchesId(cands[0], idText) then Some(cands[0])
    else FindById(cands[1..], idText)
  }

  /** `tels.get(tel_id)` raises TypeError for a list or dict id: those are unhashable. */
  predicate Unhashable(v: PyValue) { v.PList? || v.PDict? }

  /**
   * pick_phone_entry: the phone entry of a client. A dict of phones is
   * indexed by the client's telefone_id; a list is searched for an entry
   * whose id has the same text; otherwise the first dict, or `{}`. None
   * stands for the TypeError a list or dict telefone_id raises on a dict
   * of phones.
   */
  function PickPhoneEntry(cli: PyValue): (r: Option<PyValue>)
    ensures r.Some? ==> IsDict(r.value)
    ensures !IsDict(cli) ==> r == Some(PDict([]))
    ensures r.None? <==>
      IsDict(cli) && Or(GetStr(cli, "telefones"), PDict([])).PDict? && Unhashable(GetStr(cli, "telefone_id"))
  {
    if !IsDict(cli) then Some(PDict([]))
    else
      var telId := GetStr(cli, "telefone_id");
      var tels := Or(GetStr(cli, "telefones"), PDict([]));
      if tels.PDict? then PickFromDict(tels.entries, telId)
      else if tels.PList? then Some(PickFromList(tels.items, telId))
      else Some(PDict([]))
  }

  /**
   * Phones held as a dict: the entry under the client's id when it is a dict,
   * else the first dict among the decoded dict's values; None when the id is
   * unhashable.
   */
  function PickFromDict(entries: seq<(string, PyValue)>, telId: PyValue): (r: Option<PyValue>)
    ensures r.None? <==> Unhashable(telId)
    ensures r.Some? ==> IsDict(r.value)
    ensures r.Some? && telId != PNone && IsDict(Get(PDict(entries), telId)) ==> r.value == Get(PDict(entries), telId)
    ensures r.Some? && !(telId != PNone && IsDict(Get(PDict(entries), telId))) ==>
      r.value == PDict([]) || exists k :: k in DictKeys(entries) && r.value == Lookup(entries, k)
    ensures r.Some? && !(telId != PNone && IsDict(Get(PDict(entries), telId))) && r.value != PDict([]) ==>
      FirstDictValue(entries, r.value)
  {
    if Unhashable(telId) then None
    else if telId != PNone && IsDict(Get(PDict(entries), telId)) then Some(Get(PDict(entries), telId))
    else
      FirstDictOfValues(entries);
      Some(FirstDict(DictValues(entries)))
  }

  /** `v` is the value of the first key, in key order, whose value is a dict. */
  predicate FirstDictValue(entries: seq<(string, PyValue)>, v: PyValue) {
    exists i :: 0 <= i < |DictKeys(entries)| && v == Lookup(entries, DictKeys(entries)[i])
      && forall j :: 0 <= j < i ==> !IsDict(Lookup(entries, DictKeys(entries)[j]))
  }

  lemma FirstDictOfValues(entries: seq<(string, PyValue)>)
    ensures FirstDict(DictValues(entries)) != PDict([]) ==> FirstDictValue(entries, FirstDict(DictValues(entries)))
  {
    var ks, vs := DictKeys(entries), DictValues(entries);
    var r := FirstDict(vs);
    if r != PDict([]) {
      var i0 :| 0 <= i0 < |vs| && vs[i0] == r;
      assert IsDict(vs[i0]);
      var i :| 0 <= i < |vs| && vs[i] == r && forall j :: 0 <= j < i ==> !IsDict(vs[j]);
      assert r == Lookup(entries, ks[i]);
      forall j | 0 <= j < i ensures !IsDict(Lookup(entries, ks[j])) {
        assert vs[j] == Lookup(entries, ks[j]);
      }
    }
  }

  /**
   * A repeated key of the phones dict exposes only its last value: with
   * `{"a": {"x": 1}, "a": 5}` and telefone_id "a", `tels.get("a")` is 5 and
   * `tels.values()` holds 5 alone, so the pick is `{}`.
   */
  lemma PickFromDictRepeatedKey()
    ensures PickFromDict([("a", PDict([("x", PInt(1))])), ("a", PInt(5))], PStr("a")) == Some(PDict([]))
  {
    var entries := [("a", PDict([("x", PInt(1))])), ("a", PInt(5))];
    assert Grouping.GroupKeys(entries, EntryKey, 1) == ["a"];
    assert DictKeys(entries) == ["a"];
    assert DictValues(entries) == [PInt(5)];
  }

  /** Phones held as a list: the first dict whose id has the client's id as text, else the first dict. */
  function PickFromList(items: seq<PyValue>, telId: PyValue): (r: PyValue)
    ensures IsDict(r)
  {
    var cands := Filter(items, IsDict);
    if telId != PNone && FindById(cands, Str(telId)).Some? then FindById(cands, Str(telId)).value
    else FirstDict(cands)
  }

  /** In a phone list, an entry whose id matches the client's telefone_id is preferred. */
  lemma PickFromListMatches(items: seq<PyValue>, telId: PyValue, i: nat)
    requires telId != PNone
    requires i < |items| && IsDict(items[i]) && MatchesId(items[i], Str(telId))
    ensures PickFromList(items, telId) in items
    ensures MatchesId(PickFromList(items, telId), Str(telId))
  {
    var cands := Filter(items, IsDict);
    assert items[i] in cands;
    FindByIdFinds(cands, Str(telId), items[i]);
  }

  lemma {:induction false} FindByIdFinds(cands: seq<PyValue>, idText: string, x: PyValue)
    requires x in cands && MatchesId(x, idText)
    ensures FindById(cands, idText).Some?
  {
    if cands[0] != x {
      FindByIdFinds(cands[1..], idText, x);
    }
  }

  /** pick_phone_entry on a client whose phones are a list holding a matching entry. */
  lemma PickPhoneEntryMatches(cli: PyValue, i: nat)
    requires IsDict(cli)
    requires GetStr(cli, "telefones").PList? && GetStr(cli, "telefone_id") != PNone
    requires i < |GetStr(cli, "telefones").items|
    requires IsDict(GetStr(cli, "telefones").items[i])
    requires MatchesId(GetStr(cli, "telefones").items[i], Str(GetStr(cli, "telefone_id")))
    ensures PickPhoneEntry(cli).Some? && PickPhoneEntry(cli).value in GetStr(cli, "telefones").items
    ensures MatchesId(PickPhoneEntry(cli).value, Str(GetStr(cli, "telefone_id")))
  {
    var tels := GetStr(cli, "telefones");
    assert tels.items != [];
    assert Or(tels, PDict([])) == tels;
    PickFromListMatches(tels.items, GetStr(cli, "telefone_id"), i);
  }

  /** get_phone_field: the first field whose value is neither None nor ''. */
  function GetPhoneField(entry: PyValue, keys: seq<string>): (r: PyValue)
    ensures r != PStr("")
    ensures r != PNone ==> exists i :: 0 <= i < |keys| && GetStr(entry, keys[i]) == r
    ensures r == PNone <==> forall i :: 0 <= i < |keys| ==> GetStr(entry, keys[i]) in {PNone, PStr("")}
  {
    if !IsDict(entry) || keys == [] then PNone
    else if GetStr(entry, keys[0]) !in {PNone, PStr("")} then GetStr(entry, keys[0])
    else
      var r := GetPhoneField(entry, keys[1..]);
      assert forall i :: 1 <= i < |keys| ==> keys[i] == keys[1..][i - 1];
      r
  }

  // ---------------------------------------------------------------------
  // Progress and ETA rendering
  // ---------------------------------------------------------------------

  /** `int(width * cur / total)` for 0 <= cur <= total, forced to `width` when cur == total. */
  function FilledCells(cur: int, total: int, width: nat): (f: nat)
    requires 0 <= cur <= total && total > 0
    ensures f <= width
    ensures f == width <==> (cur == total || width == 0)
  {
    ScaledQuotient(width, cur, total);
    if cur == total then width else (width * cur) / total
  }

  /** `int(100 * cur / total)`. */
  function Percent(cur: int, total: int): (p: nat)
    requires 0 <= cur <= total && total > 0
    ensures p <= 100
    ensures p == 100 <==> cur == total
  {
    ScaledQuotient(100, cur, total);
    (100 * cur) / total
  }

  function Clamp(x: int, lo: int, hi: int): (r: int)
    requires lo <= hi
    ensures lo <= r <= hi
    ensures lo <= x <= hi ==> r == x
  {
    if x < lo then lo else if x > hi then hi else x
  }

  /** format_progress: `[###---] cur/total (pct%)`, the bar `width` cells wide. */
  function FormatProgress(current: int, total: int, width: nat): (r: string)
    ensures |r| > width + 1 && r[0] == '[' && r[width + 1] == ']'
    ensures forall i :: 1 <= i <= width ==> r[i] == '#' || r[i] == '-'
    ensures total <= 0 ==> forall i :: 1 <= i <= width ==> r[i] == '-'
    ensures total > 0 ==> forall i :: 1 <= i <= width ==>
      (r[i] == '#' <==> i <= FilledCells(Clamp(current, 0, total), total, width))
  {
    if total <= 0 then "[" + Repeat('-', width) + "] 0/0 (0%)"
    else
      var cur := Clamp(current, 0, total);
      var f := FilledCells(cur, total, width);
      "[" + Repeat('#', f) + Repeat('-', width - f) + "] "
        + IntToString(cur) + "/" + IntToString(total) + " (" + NatToString(Percent(cur, total)) + "%)"
  }

  /** Hours, minutes and seconds of a non-negative number of seconds. */
  function EtaParts(seconds: int): (hms: (nat, nat, nat))
    ensures hms.1 < 60 && hms.2 < 60
    ensures hms.0 * 3600 + hms.1 * 60 + hms.2 == (if seconds < 0 then 0 else seconds)
  {
    var total := if seconds < 0 then 0 else seconds;
    (total / 3600, (total % 3600) / 60, total % 60)
  }

  /** `f"{n:02d}"`. */
  function Pad2(n: nat): (r: string)
    ensures |r| >= 2 && AllDigits(r)
    ensures n < 100 ==> |r| == 2
  {
    PadStartDigits(NatToString(n), 2);
    NatToStringBelow100(n);
    PadStart(NatToString(n), 2, '0')
  }

  lemma NatToStringBelow100(n: nat)
    ensures n < 100 ==> |NatToString(n)| <= 2
  {
    if 10 <= n < 100 { assert NatToString(n) == NatToString(n / 10) + [DigitChar(n % 10)]; }
  }

  /** `a:b:c` with two-character b and c splits back into its three fields. */
  lemma ColonFields(a: string, b: string, c: string)
    requires |b| == 2 && |c| == 2
    ensures var r := a + ":" + b + ":" + c;
      |r| == |a| + 6 && r[|r| - 3] == ':' && r[|r| - 6] == ':'
      && r[..|r| - 6] == a && r[|r| - 5..|r| - 3] == b && r[|r| - 2..] == c
  {
  }

  /** The zero-padded text reads back as the number. */
  lemma Pad2ReadsBack(n: nat)
    ensures ParseNat(Pad2(n)) == n
  {
    if n < 10 {
      var r := Pad2(n);
      assert r == ['0', DigitChar(n)];
      assert r[..1] == ['0'];
      assert ParseNat(r[..1]) == 0 by { assert r[..1][..0] == []; }
    } else {
      ParseNatToString(n);
    }
  }

  /** `r` is `H:MM:SS` text whose hours, minutes and seconds fields read back as h, m and s:
      colons three and six places from the end, digits in between. */
  predicate ClockFields(r: string, h: nat, m: nat, s: nat)
  {
    |r| >= 8 && r[|r| - 3] == ':' && r[|r| - 6] == ':'
    && AllDigits(r[..|r| - 6]) && AllDigits(r[|r| - 5..|r| - 3]) && AllDigits(r[|r| - 2..])
    && ParseNat(r[..|r| - 6]) == h && ParseNat(r[|r| - 5..|r| - 3]) == m && ParseNat(r[|r| - 2..]) == s
  }

  /** The `HH:MM:SS` text of two-digit minutes and seconds splits back into the three numbers. */
  lemma {:induction false} ClockFieldsReadBack(h: nat, m: nat, s: nat)
    requires m < 60 && s < 60
    ensures ClockFields(Pad2(h) + ":" + Pad2(m) + ":" + Pad2(s), h, m, s)
  {
    Pad2ReadsBack(h);
    Pad2ReadsBack(m);
    Pad2ReadsBack(s);
    ColonFields(Pad2(h), Pad2(m), Pad2(s));
  }

  /** format_eta: `HH:MM:SS` of the seconds, negative counted as zero: two colons
      three and six places from the end, and the hours, minutes and seconds fields
      read back as EtaParts(seconds). */
  function FormatEta(seconds: int): (r: string)
    ensures ClockFields(r, EtaParts(seconds).0, EtaParts(seconds).1, EtaParts(seconds).2)
  {
    var p := EtaParts(seconds);
    ClockFieldsReadBack(p.0, p.1, p.2);
    Pad2(p.0) + ":" + Pad2(p.1) + ":" + Pad2(p.2)
  }

  // ---------------------------------------------------------------------
  // Scheduler arithmetic
  // ---------------------------------------------------------------------

  /** A local wall-clock time within an hour. */
  datatype ClockTime = ClockTime(minute: int, second: int, microsecond: int)
  {
    predicate Valid() { 0 <= minute < 60 && 0 <= second < 60 && 0 <= microsecond < 1000000 }
    /** Microseconds since the start of the hour. */
    function Micros(): int { (minute * 60 + second) * 1000000 + microsecond }
  }

  /** Whether the time is exactly hh:20:00.000000 or hh:50:00.000000. */
  predicate Aligned(t: ClockTime) {
    (t.minute == 20 || t.minute == 50) && t.second == 0 && t.microsecond == 0
  }

  /** Microseconds from the start of the hour to the next alignment target. */
  function TargetMicros(t: ClockTime): int
  {
    if t.minute < 20 then 20 * 60 * 1000000
    else if t.minute < 50 then 50 * 60 * 1000000
    else (60 + 20) * 60 * 1000000
  }

  /**
   * seconds_until_next_half_hour: 0 when already aligned, else the whole
   * seconds (at least 1) to the next minute 20 or 50.
   */
  function SecondsUntilAlignment(t: ClockTime): (r: nat)
    requires t.Valid()
    ensures r == 0 <==> Aligned(t)
    ensures r <= 1800
    ensures !Aligned(t) ==> t.Micros() + r * 1000000 <= TargetMicros(t) < t.Micros() + (r + 1) * 1000000 || r == 1
  {
    if Aligned(t) then 0
    else
      var delta := (TargetMicros(t) - t.Micros()) / 1000000;
      if delta < 1 then 1 else delta
  }

  /** Sleeping the returned seconds from a whole second lands on minute 20 or 50 of some hour. */
  lemma AlignmentLandsOnTarget(t: ClockTime)
    requires t.Valid() && t.microsecond == 0 && !Aligned(t)
    ensures (t.minute * 60 + t.second + SecondsUntilAlignment(t)) % 3600 == 1200
         || (t.minute * 60 + t.second + SecondsUntilAlignment(t)) % 3600 == 3000
  {
    var now := t.minute * 60 + t.second;
    var r := SecondsUntilAlignment(t);
    assert t.Micros() == now * 1000000;
    if t.minute < 20 {
      assert r == 1200 - now;
    } else if t.minute < 50 {
      assert r == 3000 - now;
    } else {
      assert r == 4800 - now;
    }
  }

  const WINDOW_START: (int, int) := (7, 50)
  const WINDOW_END: (int, int) := (20, 50)

  predicate TupleLe(a: (int, int), b: (int, int)) { a.0 < b.0 || (a.0 == b.0 && a.1 <= b.1) }

  /**
   * The operating gate of run_loop: Monday..Saturday (weekday() <= 5) when
   * restricted to weekdays, and (hour, minute) between 07:50 and 20:50.
   */
  predicate InOperatingWindow(weekday: int, hour: int, minute: int, weekdaysOnly: bool)
  {
    (!weekdaysOnly || weekday <= 5) && TupleLe(WINDOW_START, (hour, minute)) && TupleLe((hour, minute), WINDOW_END)
  }

  /** The gate in minutes of the day: from 470 (07:50) to 1250 (20:50) inclusive, Sunday excluded. */
  lemma OperatingWindowMinutes(weekday: int, hour: int, minute: int, weekdaysOnly: bool)
    requires 0 <= weekday <= 6 && 0 <= hour < 24 && 0 <= minute < 60
    ensures InOperatingWindow(weekday, hour, minute, weekdaysOnly)
        <==> (!weekdaysOnly || weekday != 6) && 470 <= hour * 60 + minute <= 1250
  {
  }
}
