/**
 * The helpers of the V8 consultations page: CPF, phone and name
 * normalisation, the semicolon CSV reader behind the batch upload, the
 * identity key that folds repeated consultations together, the merge of a
 * refreshed list into the one on screen, the limit summary and the filter by
 * user.
 */
module ConsultasV8 {
  import opened Base
  import opened Js
  import opened Keyed
  import ConsultaPresenca

  // ---------------------------------------------------------------------
  // CPF and phone
  // ---------------------------------------------------------------------

  /**
   * `normalizeCpf11`: no digits give the empty text; otherwise exactly 11
   * digits, the last 11 when there are more, zero-padded when fewer.
   */
  function NormalizeCpf11(v: JsValue): (r: string)
    ensures r == [] <==> OnlyDigits(v) == []
    ensures r != [] ==> |r| == 11 && AllDigits(r)
    ensures |OnlyDigits(v)| >= 11 ==> r == OnlyDigits(v)[|OnlyDigits(v)| - 11..]
    ensures 0 < |OnlyDigits(v)| < 11 ==>
      r[11 - |OnlyDigits(v)|..] == OnlyDigits(v) && forall i :: 0 <= i < 11 - |OnlyDigits(v)| ==> r[i] == '0'
  {
    var digits := OnlyDigits(v);
    if digits == [] then ""
    else
      var base := TakeLast(digits, 11);
      PadStartDigits(base, 11);
      PadStart(base, 11, '0')
  }

  /** A normalised CPF normalises to itself. */
  lemma NormalizeCpf11Idempotent(v: JsValue)
    ensures NormalizeCpf11(JStr(NormalizeCpf11(v))) == NormalizeCpf11(v)
  {
    var r := NormalizeCpf11(v);
    DigitsOfDigits(r);
    CpfOfDigits(r);
  }

  /** A text of digits alone normalises through its own digits. */
  lemma CpfOfDigits(r: string)
    requires AllDigits(r) && Digits(r) == r
    ensures OnlyDigits(JStr(r)) == r
  {
  }

  /**
   * `normalizeProvidedPhone`: the digits of the value, cut to the last 11;
   * no digits give the empty text.
   */
  function NormalizeProvidedPhone(v: JsValue): (r: string)
    ensures AllDigits(r)
    ensures r == [] <==> OnlyDigits(v) == []
    ensures |r| == (if |OnlyDigits(v)| < 11 then |OnlyDigits(v)| else 11)
    ensures EndsWith(OnlyDigits(v), r)
  {
    var digits := OnlyDigits(v);
    if digits == [] then "" else TakeLast(digits, 11)
  }

  lemma NormalizeProvidedPhoneIdempotent(v: JsValue)
    ensures NormalizeProvidedPhone(JStr(NormalizeProvidedPhone(v))) == NormalizeProvidedPhone(v)
  {
    var r := NormalizeProvidedPhone(v);
    DigitsOfDigits(r);
    assert OnlyDigits(JStr(r)) == r;
  }

  /** `normalizeOrGenerateBatchPhone`: the provided phone, or `generated` when it has no digits. */
  function PhoneOrGenerated(raw: string, generated: string): (r: string)
    ensures OnlyDigits(JStr(raw)) != [] ==> r == NormalizeProvidedPhone(JStr(raw))
    ensures OnlyDigits(JStr(raw)) == [] ==> r == generated
  {
    var provided := NormalizeProvidedPhone(JStr(raw));
    if provided != [] then provided else generated
  }

  // ---------------------------------------------------------------------
  // Names and header tokens
  // ---------------------------------------------------------------------

  /** `replace(/\s+/g, ' ')`: every run of whitespace becomes one space. */
  function SqueezeSpaces(s: string): (r: string)
    ensures r == [] <==> s == []
    ensures s != [] && !IsJsSpace(s[0]) ==> r[0] == s[0]
    ensures s != [] && IsJsSpace(s[0]) ==> r[0] == ' '
    ensures Squeezed(r)
    ensures AllAlnumOrSpace(s) ==> AllAlnumOrBlank(r)
    decreases |s|
  {
    if s == [] then []
    else if IsJsSpace(s[0]) then
      var k := LeadingCount(s, IsJsSpace);
      " " + SqueezeSpaces(s[k..])
    else [s[0]] + SqueezeSpaces(s[1..])
  }

  predicate IsAsciiAlnum(c: char) { IsAsciiUpper(c) || IsAsciiLower(c) || IsDigit(c) }

  predicate AllAlnumOrSpace(s: string) { forall i :: 0 <= i < |s| ==> IsAsciiAlnum(s[i]) || IsJsSpace(s[i]) }

  predicate AllAlnumOrBlank(s: string) { forall i :: 0 <= i < |s| ==> IsAsciiAlnum(s[i]) || s[i] == ' ' }

  /** The only whitespace is the plain space, and no two spaces are adjacent. */
  predicate Squeezed(s: string) {
    && (forall i :: 0 <= i < |s| && IsJsSpace(s[i]) ==> s[i] == ' ')
    && (forall i :: 0 <= i < |s| - 1 && s[i] == ' ' ==> s[i + 1] != ' ')
  }

  /** Squeezing leaves a squeezed text as it is. */
  lemma {:induction false} SqueezeSqueezed(s: string)
    requires Squeezed(s)
    ensures SqueezeSpaces(s) == s
    decreases |s|
  {
    if s != [] {
      assert Squeezed(s[1..]);
      SqueezeSqueezed(s[1..]);
      if IsJsSpace(s[0]) {
        assert LeadingCount(s, IsJsSpace) == 1 by {
          if |s| > 1 { assert !IsJsSpace(s[1]); }
        }
      }
      assert s == [s[0]] + s[1..];
    }
  }

  /** `replace(/[^A-Za-z0-9\s]/g, ' ')`. */
  function ScrubSymbols(s: string): (r: string)
    ensures |r| == |s| && AllAlnumOrSpace(r)
    ensures forall i :: 0 <= i < |s| ==> r[i] == (if IsAsciiAlnum(s[i]) || IsJsSpace(s[i]) then s[i] else ' ')
  {
    seq(|s|, i requires 0 <= i < |s| => if IsAsciiAlnum(s[i]) || IsJsSpace(s[i]) then s[i] else ' ')
  }

  /** The shape `normalizeClientName` produces: upper-case letters, digits and single inner spaces. */
  predicate IsClientName(s: string) {
    && (forall i :: 0 <= i < |s| ==> IsAsciiUpper(s[i]) || IsDigit(s[i]) || s[i] == ' ')
    && Squeezed(s)
    && (s == [] || (s[0] != ' ' && s[|s| - 1] != ' '))
  }

  /**
   * `normalizeClientName`: trimmed and squeezed, accents removed, every
   * other symbol turned into a space, squeezed and trimmed again, upper-cased.
   */
  function NormalizeClientName(v: JsValue): (r: string)
    ensures IsClientName(r)
  {
    CleanName(SqueezeSpaces(JsTrim(TextOf(v))))
  }

  /** The second half of `normalizeClientName`, on the trimmed and squeezed text. */
  function CleanName(txt: string): (r: string)
    ensures IsClientName(r)
  {
    if txt == [] then []
    else
      var cleaned := JsTrim(SqueezeSpaces(ScrubSymbols(StripAccents(txt))));
      TrimOfSqueezed(SqueezeSpaces(ScrubSymbols(StripAccents(txt))));
      UpperClientName(cleaned);
      Upper(cleaned)
  }

  /** Trimming a squeezed text of letters, digits and spaces keeps that shape and drops the end spaces. */
  lemma TrimOfSqueezed(s: string)
    requires Squeezed(s) && AllAlnumOrBlank(s)
    ensures var t := JsTrim(s);
      Squeezed(t) && AllAlnumOrBlank(t) && (t == [] || (t[0] != ' ' && t[|t| - 1] != ' '))
  {
    var t := JsTrim(s);
    var a := TrimOffset(s, IsJsSpace);
    assert forall i :: 0 <= i < |t| ==> t[i] == s[a + i];
  }

  lemma UpperClientName(s: string)
    requires Squeezed(s) && AllAlnumOrBlank(s) && (s == [] || (s[0] != ' ' && s[|s| - 1] != ' '))
    ensures IsClientName(Upper(s))
  {
    var u := Upper(s);
    assert forall i :: 0 <= i < |s| ==> (u[i] == ' ' <==> s[i] == ' ');
  }

  /** A normalised name normalises to itself. */
  lemma NormalizeClientNameIdempotent(v: JsValue)
    ensures NormalizeClientName(JStr(NormalizeClientName(v))) == NormalizeClientName(v)
  {
    ClientNameFixed(NormalizeClientName(v));
  }

  lemma ClientNameFixed(s: string)
    requires IsClientName(s)
    ensures NormalizeClientName(JStr(s)) == s
  {
    assert TextOf(JStr(s)) == s;
    ClientNameTrimmed(s);
    SqueezeSqueezed(s);
    CleanNameFixed(s);
  }

  lemma ClientNameTrimmed(s: string)
    requires IsClientName(s)
    ensures JsTrim(s) == s
  {
    if s != [] {
      assert s[0] != ' ' && s[|s| - 1] != ' ';
      assert !IsJsSpace(s[0]) && !IsJsSpace(s[|s| - 1]);
    }
    TrimOfTrimmed(s, IsJsSpace);
  }

  lemma CleanNameFixed(s: string)
    requires IsClientName(s)
    ensures CleanName(s) == s
  {
    if s != [] {
      assert StripAccents(s) == s by { ClientNameAscii(s); }
      assert ScrubSymbols(s) == s by { ClientNameScrubbed(s); }
      assert SqueezeSpaces(s) == s by { SqueezeSqueezed(s); }
      assert JsTrim(s) == s by { ClientNameTrimmed(s); }
      assert Upper(s) == s by { ClientNameUpper(s); }
    }
  }

  lemma ClientNameAscii(s: string)
    requires IsClientName(s)
    ensures StripAccents(s) == s
  {
    assert forall i :: 0 <= i < |s| ==> s[i] < '\U{0080}';
    StripAccentsAscii(s);
  }

  lemma ClientNameScrubbed(s: string)
    requires IsClientName(s)
    ensures ScrubSymbols(s) == s
  {
    var r := ScrubSymbols(s);
    forall i | 0 <= i < |s| ensures r[i] == s[i] {
      assert IsAsciiUpper(s[i]) || IsDigit(s[i]) || s[i] == ' ';
    }
  }

  lemma ClientNameUpper(s: string)
    requires IsClientName(s)
    ensures Upper(s) == s
  {
    var r := Upper(s);
    forall i | 0 <= i < |s| ensures r[i] == s[i] {
      assert IsAsciiUpper(s[i]) || IsDigit(s[i]) || s[i] == ' ';
    }
  }

  /** `normalizeHeaderToken`: trimmed, accents removed, lower-cased. */
  function NormalizeHeaderToken(cell: string): (r: string)
    ensures JsTrim(cell) == [] ==> r == []
    ensures forall i :: 0 <= i < |r| ==> !IsAsciiUpper(r[i]) && !IsCombiningMark(r[i])
  {
    var txt := JsTrim(cell);
    if txt == [] then []
    else
      var s := StripAccents(txt);
      assert forall i :: 0 <= i < |s| ==> !IsCombiningMark(LowerChar(s[i])) by {
        forall i | 0 <= i < |s| ensures !IsCombiningMark(LowerChar(s[i])) {
          LowerBaseLetter(s[i]);
        }
      }
      Lower(s)
  }

  /** A header written in plain ASCII without surrounding spaces is matched ignoring case. */
  lemma HeaderTokenOfAscii(cell: string)
    requires forall i :: 0 <= i < |cell| ==> cell[i] < '\U{0080}'
    requires cell == [] || (!IsJsSpace(cell[0]) && !IsJsSpace(cell[|cell| - 1]))
    ensures NormalizeHeaderToken(cell) == Lower(cell)
  {
    TrimOfTrimmed(cell, IsJsSpace);
    StripAccentsAscii(cell);
  }

  /** `normalizeNameToken`: trimmed, accents removed, upper-cased. */
  function NameToken(v: JsValue): (r: string)
    ensures TrimmedText(v) == [] ==> r == []
    ensures |r| <= |TrimmedText(v)|
  {
    var txt := TrimmedText(v);
    if txt == [] then [] else Upper(StripAccents(txt))
  }

  /** A normalised client name is its own name token. */
  lemma NameTokenOfClientName(s: string)
    requires IsClientName(s)
    ensures NameToken(JStr(s)) == s
  {
    ClientNameTrimmed(s);
    assert TrimmedText(JStr(s)) == s;
    ClientNameAscii(s);
    ClientNameUpper(s);
  }

  // ---------------------------------------------------------------------
  // Identity of a consultation row
  // ---------------------------------------------------------------------

  function RowCpf(row: JsValue): string { NormalizeCpf11(Coalesce(Get(row, "cliente_cpf"), Get(row, "cpf"))) }

  function RowNameToken(row: JsValue): string { NameToken(Coalesce(Get(row, "cliente_nome"), Get(row, "nome"))) }

  function RowPhone(row: JsValue): string
  {
    OnlyDigits(Coalesce(Coalesce(Get(row, "telefone"), Get(row, "phone")), Get(row, "celular")))
  }

  /** The key from the three identity parts, or the fallback from the id and the two timestamps. */
  function IdentityOf(cpf: string, nome: string, phone: string, id: string, created: string, updated: string): string
  {
    if cpf != [] || nome != [] || phone != [] then cpf + "|" + nome + "|" + phone
    else "fallback|" + id + "|" + created + "|" + updated
  }

  /** `getV8RowIdentityKey`. */
  function IdentityKey(row: JsValue): string
  {
    IdentityOf(RowCpf(row), RowNameToken(row), RowPhone(row),
      TrimmedText(Get(row, "id")),
      TrimmedText(Coalesce(Get(row, "created_at"), Get(row, "createdAt"))),
      TrimmedText(Coalesce(Get(row, "updated_at"), Get(row, "updatedAt"))))
  }

  predicate HasIdentity(row: JsValue) { RowCpf(row) != [] || RowNameToken(row) != [] || RowPhone(row) != [] }

  /** Splitting `a|m|t` is unambiguous when `a` and `t` hold no bar. */
  lemma BarJoinInjective(a1: string, m1: string, t1: string, a2: string, m2: string, t2: string)
    requires !HasChar(a1, '|') && !HasChar(a2, '|') && !HasChar(t1, '|') && !HasChar(t2, '|')
    requires a1 + "|" + m1 + "|" + t1 == a2 + "|" + m2 + "|" + t2
    ensures a1 == a2 && m1 == m2 && t1 == t2
  {
    var s := a1 + "|" + m1 + "|" + t1;
    var s2 := a2 + "|" + m2 + "|" + t2;
    assert s[|a1|] == '|' && s2[|a2|] == '|';
    assert forall i :: 0 <= i < |a1| ==> s[i] == a1[i];
    assert forall i :: 0 <= i < |a2| ==> s2[i] == a2[i];
    assert |a1| == |a2|;
    assert a1 == s[..|a1|] && a2 == s2[..|a2|];
    assert s[|s| - |t1| - 1] == '|' && s2[|s2| - |t2| - 1] == '|';
    assert forall i :: 0 <= i < |t1| ==> s[|s| - |t1| + i] == t1[i];
    assert forall i :: 0 <= i < |t2| ==> s2[|s2| - |t2| + i] == t2[i];
    assert |t1| == |t2|;
    assert t1 == s[|s| - |t1|..] && t2 == s2[|s2| - |t2|..];
    assert m1 == s[|a1| + 1..|s| - |t1| - 1];
    assert m2 == s2[|a2| + 1..|s2| - |t2| - 1];
  }

  /**
   * Two rows with identity fields share a key exactly when their CPF, name
   * token and phone digits agree.
   */
  lemma IdentityKeySame(r1: JsValue, r2: JsValue)
    requires HasIdentity(r1) && HasIdentity(r2)
    ensures IdentityKey(r1) == IdentityKey(r2) <==>
      RowCpf(r1) == RowCpf(r2) && RowNameToken(r1) == RowNameToken(r2) && RowPhone(r1) == RowPhone(r2)
  {
    if IdentityKey(r1) == IdentityKey(r2) {
      NoBarInDigits(RowCpf(r1));
      NoBarInDigits(RowCpf(r2));
      NoBarInDigits(RowPhone(r1));
      NoBarInDigits(RowPhone(r2));
      BarJoinInjective(RowCpf(r1), RowNameToken(r1), RowPhone(r1), RowCpf(r2), RowNameToken(r2), RowPhone(r2));
    }
  }

  lemma NoBarInDigits(s: string)
    requires AllDigits(s)
    ensures !HasChar(s, '|')
  {
    assert forall i :: 0 <= i < |s| ==> s[i] != '|';
  }

  /** A row with identity fields never shares its key with a row that has none. */
  lemma IdentityKeyFallbackApart(r1: JsValue, r2: JsValue)
    requires HasIdentity(r1) && !HasIdentity(r2)
    ensures IdentityKey(r1) != IdentityKey(r2)
  {
    IdentityOfApart(RowCpf(r1), RowNameToken(r1), RowPhone(r1),
      TrimmedText(Get(r1, "id")),
      TrimmedText(Coalesce(Get(r1, "created_at"), Get(r1, "createdAt"))),
      TrimmedText(Coalesce(Get(r1, "updated_at"), Get(r1, "updatedAt"))),
      RowCpf(r2), RowNameToken(r2), RowPhone(r2),
      TrimmedText(Get(r2, "id")),
      TrimmedText(Coalesce(Get(r2, "created_at"), Get(r2, "createdAt"))),
      TrimmedText(Coalesce(Get(r2, "updated_at"), Get(r2, "updatedAt"))));
  }

  lemma IdentityOfApart(cpf: string, nome: string, phone: string, id: string, created: string, updated: string,
                        cpf2: string, nome2: string, phone2: string, id2: string, created2: string, updated2: string)
    requires AllDigits(cpf) && (cpf != [] || nome != [] || phone != [])
    requires cpf2 == [] && nome2 == [] && phone2 == []
    ensures IdentityOf(cpf, nome, phone, id, created, updated) != IdentityOf(cpf2, nome2, phone2, id2, created2, updated2)
  {
    var k2 := IdentityOf(cpf2, nome2, phone2, id2, created2, updated2);
    assert k2[0] == 'f';
    JoinedKeyStart(cpf, nome, phone);
  }

  /** A joined identity key starts with a digit of the CPF or with the bar. */
  lemma JoinedKeyStart(cpf: string, nome: string, phone: string)
    requires AllDigits(cpf)
    ensures (cpf + "|" + nome + "|" + phone)[0] != 'f'
  {
    if cpf != [] {
      assert (cpf + "|" + nome + "|" + phone)[0] == cpf[0];
    } else {
      assert (cpf + "|" + nome + "|" + phone)[0] == '|';
    }
  }

  /**
   * `dedupeRowsByIdentityLatest`: one row per identity key, the one with the
   * latest time (`ts` stands for the parsed `created_at`/`updated_at`); a
   * later row wins a tie; every key of the list is kept.
   */
  method DedupeRowsByIdentityLatest(rows: JsValue, ts: JsValue -> int) returns (out: seq<JsValue>)
    ensures out == DedupeLatest(ArrayOrEmpty(rows), IdentityKey, ts)
  {
    out := DedupeLatestLoop(ArrayOrEmpty(rows), IdentityKey, ts);
  }

  // ---------------------------------------------------------------------
  // Merging a refreshed list by id
  // ---------------------------------------------------------------------

  /** `String(row?.id ?? '').trim()`. */
  function RowId(row: JsValue): string { TrimmedText(Get(row, "id")) }

  /** The rows whose `id` is not empty, in order. */
  function WithId<T>(xs: seq<T>, id: T -> string): (r: seq<T>)
    ensures forall i :: 0 <= i < |r| ==> r[i] in xs && id(r[i]) != []
  {
    if xs == [] then []
    else WithId(xs[..|xs| - 1], id) + (if id(xs[|xs| - 1]) != [] then [xs[|xs| - 1]] else [])
  }

  /** The rows whose `id` is empty, in order. */
  function WithoutId<T>(xs: seq<T>, id: T -> string): (r: seq<T>)
    ensures forall i :: 0 <= i < |r| ==> r[i] in xs && id(r[i]) == []
  {
    if xs == [] then []
    else WithoutId(xs[..|xs| - 1], id) + (if id(xs[|xs| - 1]) == [] then [xs[|xs| - 1]] else [])
  }

  /** One time for every row: a later `Map.set` always replaces. */
  function SameTime<T>(row: T): int { 0 }

  /**
   * `mergeRowsPreservingPreviousById` over any rows, given their id, their
   * identity key and their time: when both lists have rows, one row per id
   * in the order the ids first appear (previous list first), then the rows
   * without id, next before previous, folded by identity.
   */
  function MergeById<T>(prevList: seq<T>, nextList: seq<T>, id: T -> string, ident: T -> string, ts: T -> int): seq<T>
  {
    if prevList == [] then nextList
    else if nextList == [] then prevList
    else
      DedupeLatest(WithId(prevList, id) + WithId(nextList, id), id, SameTime)
        + DedupeLatest(WithoutId(nextList, id) + WithoutId(prevList, id), ident, ts)
  }

  function MergeRowsById(previousRows: JsValue, nextRows: JsValue, ts: JsValue -> int): seq<JsValue>
  {
    MergeById(ArrayOrEmpty(previousRows), ArrayOrEmpty(nextRows), RowId, IdentityKey, ts)
  }

  /**
   * One of the two loops of `mergeRowsPreservingPreviousById`: the rows
   * with an id go on to the `Map` in order, the others to their own list.
   */
  method SplitById<T>(xs: seq<T>, id: T -> string) returns (withId: seq<T>, noId: seq<T>)
    ensures withId == WithId(xs, id) && noId == WithoutId(xs, id)
  {
    withId := [];
    noId := [];
    var i := 0;
    while i < |xs|
      invariant 0 <= i <= |xs|
      invariant withId == WithId(xs[..i], id) && noId == WithoutId(xs[..i], id)
    {
      assert xs[..i + 1][..i] == xs[..i];
      if id(xs[i]) == [] {
        noId := noId + [xs[i]];
      } else {
        withId := withId + [xs[i]];
      }
      i := i + 1;
    }
    assert xs[..i] == xs;
  }

  /**
   * `mergeRowsPreservingPreviousById`: the `Map.set` calls of both loops
   * together are the latest-per-id fold of the rows with an id, previous
   * list first, every later `set` replacing the row held.
   */
  method MergeRowsPreservingPreviousById<T>(prevList: seq<T>, nextList: seq<T>, id: T -> string, ident: T -> string, ts: T -> int)
    returns (merged: seq<T>)
    ensures merged == MergeById(prevList, nextList, id, ident, ts)
  {
    if prevList == [] {
      return nextList;
    }
    if nextList == [] {
      return prevList;
    }
    var prevWithId, prevNoId := SplitById(prevList, id);
    var nextWithId, nextNoId := SplitById(nextList, id);
    var byId := DedupeLatestLoop(prevWithId + nextWithId, id, SameTime);
    var mergedNoId := DedupeLatestLoop(nextNoId + prevNoId, ident, ts);
    merged := byId + mergedNoId;
  }

  /** The ids of the rows that have one. */
  ghost function Ids<T>(rows: seq<T>, id: T -> string): set<string>
  {
    set r | r in rows && id(r) != [] :: id(r)
  }

  lemma {:induction false} IdsWithId<T>(xs: seq<T>, id: T -> string)
    ensures Ids(WithId(xs, id), id) == Ids(xs, id)
  {
    if xs != [] {
      var init := xs[..|xs| - 1];
      var x := xs[|xs| - 1];
      IdsWithId(init, id);
      assert xs == init + [x];
      IdsSnoc(init, x, id);
      IdsSnoc(WithId(init, id), x, id);
      if id(x) == [] {
        assert WithId(xs, id) == WithId(init, id) + [];
      }
    }
  }

  lemma IdsSnoc<T>(xs: seq<T>, x: T, id: T -> string)
    ensures Ids(xs + [x], id) == Ids(xs, id) + (if id(x) != [] then {id(x)} else {})
  {
    var l := Ids(xs + [x], id);
    var r := Ids(xs, id) + (if id(x) != [] then {id(x)} else {});
    forall k | k in l ensures k in r {
      var y :| y in xs + [x] && id(y) != [] && id(y) == k;
      if y != x {
        assert y in xs;
      }
    }
    forall k | k in r ensures k in l {
      if k in Ids(xs, id) {
        var y :| y in xs && id(y) != [] && id(y) == k;
        assert y in xs + [x];
      } else {
        assert x in xs + [x];
      }
    }
  }

  /** Rows drawn from `ys` carry only ids of `ys`. */
  lemma SubsetIds<T>(xs: seq<T>, ys: seq<T>, id: T -> string)
    requires forall i :: 0 <= i < |xs| ==> xs[i] in ys
    ensures Ids(xs, id) <= Ids(ys, id)
  {
  }

  lemma NoIds<T>(xs: seq<T>, id: T -> string)
    requires forall i :: 0 <= i < |xs| ==> id(xs[i]) == []
    ensures Ids(xs, id) == {}
  {
  }

  function IdEmpty<T>(id: T -> string): T -> bool { r => id(r) == [] }

  /** The rows without id, folded by identity, still have no id. */
  lemma RestWithoutId<T>(nextList: seq<T>, prevList: seq<T>, id: T -> string, ident: T -> string, ts: T -> int)
    ensures var rest := DedupeLatest(WithoutId(nextList, id) + WithoutId(prevList, id), ident, ts);
      forall i :: 0 <= i < |rest| ==> id(rest[i]) == []
  {
    var noId := WithoutId(nextList, id) + WithoutId(prevList, id);
    assert forall j :: 0 <= j < |noId| ==> IdEmpty(id)(noId[j]);
    DedupeLatestKeeps(noId, ident, ts, IdEmpty(id));
  }

  /** The merged list holds exactly the ids of both lists. */
  lemma MergeIdsUnion<T>(prevList: seq<T>, nextList: seq<T>, id: T -> string, ident: T -> string, ts: T -> int)
    ensures Ids(MergeById(prevList, nextList, id, ident, ts), id) == Ids(prevList, id) + Ids(nextList, id)
  {
    if prevList != [] && nextList != [] {
      var withId := WithId(prevList, id) + WithId(nextList, id);
      var byId := DedupeLatest(withId, id, SameTime);
      var rest := DedupeLatest(WithoutId(nextList, id) + WithoutId(prevList, id), ident, ts);
      assert MergeById(prevList, nextList, id, ident, ts) == byId + rest;
      RestWithoutId(nextList, prevList, id, ident, ts);
      IdsAppendNoId(byId, rest, id);
      IdsWithId(prevList, id);
      IdsWithId(nextList, id);
      IdsAppend(WithId(prevList, id), WithId(nextList, id), id);
      DedupeIds(withId, id);
    }
  }

  lemma IdsAppendNoId<T>(a: seq<T>, b: seq<T>, id: T -> string)
    requires forall i :: 0 <= i < |b| ==> id(b[i]) == []
    ensures Ids(a + b, id) == Ids(a, id)
  {
    forall k | k in Ids(a + b, id) ensures k in Ids(a, id) {
      var y :| y in a + b && id(y) != [] && id(y) == k;
      assert y !in b;
    }
  }

  lemma IdsAppend<T>(a: seq<T>, b: seq<T>, id: T -> string)
    ensures Ids(a + b, id) == Ids(a, id) + Ids(b, id)
  {
    forall k | k in Ids(a + b, id) ensures k in Ids(a, id) + Ids(b, id) {
      var y :| y in a + b && id(y) != [] && id(y) == k;
    }
    forall k | k in Ids(a, id) + Ids(b, id) ensures k in Ids(a + b, id) {
      if k in Ids(a, id) {
        var y :| y in a && id(y) != [] && id(y) == k;
        assert y in a + b;
      } else {
        var y :| y in b && id(y) != [] && id(y) == k;
        assert y in a + b;
      }
    }
  }

  /** Keeping the latest row per id keeps the set of ids. */
  lemma DedupeIds<T>(xs: seq<T>, id: T -> string)
    ensures Ids(DedupeLatest(xs, id, SameTime), id) == Ids(xs, id)
  {
    var r := DedupeLatest(xs, id, SameTime);
    DedupeLatestFrom(xs, id, SameTime);
    SubsetIds(r, xs, id);
    forall k | k in Ids(xs, id) ensures k in Ids(r, id) {
      var y :| y in xs && id(y) != [] && id(y) == k;
      var j :| 0 <= j < |xs| && xs[j] == y;
      var i := DedupeLatestCoversAt(xs, id, SameTime, j);
      assert r[i] in r;
    }
  }

  /**
   * When both lists have rows, the row kept for an id the next list has is
   * the last row of the next list with that id.
   */
  lemma MergeNextWins<T>(prevList: seq<T>, nextList: seq<T>, id: T -> string, ident: T -> string, ts: T -> int, i: nat)
    requires prevList != [] && nextList != []
    requires i < |MergeById(prevList, nextList, id, ident, ts)|
    requires id(MergeById(prevList, nextList, id, ident, ts)[i]) in Ids(nextList, id)
    ensures var row := MergeById(prevList, nextList, id, ident, ts)[i];
      var nexts := WithId(nextList, id);
      exists j :: 0 <= j < |nexts| && nexts[j] == row &&
        forall l :: j < l < |nexts| ==> id(nexts[l]) != id(row)
  {
    var prevs := WithId(prevList, id);
    var nexts := WithId(nextList, id);
    var withId := prevs + nexts;
    var byId := DedupeLatest(withId, id, SameTime);
    var rest := DedupeLatest(WithoutId(nextList, id) + WithoutId(prevList, id), ident, ts);
    var merged := MergeById(prevList, nextList, id, ident, ts);
    assert merged == byId + rest;
    var row := merged[i];
    RestWithoutId(nextList, prevList, id, ident, ts);
    IdsWithId(nextList, id);
    var k := id(row);
    assert k != [] && k in Ids(nexts, id);
    assert i < |byId|;
    assert row == byId[i];
    LastOfNext(prevs, nexts, id, i);
  }

  lemma LastOfNext<T>(prevs: seq<T>, nexts: seq<T>, id: T -> string, i: nat)
    requires i < |DedupeLatest(prevs + nexts, id, SameTime)|
    requires id(DedupeLatest(prevs + nexts, id, SameTime)[i]) in Ids(nexts, id)
    ensures var row := DedupeLatest(prevs + nexts, id, SameTime)[i];
      exists j :: 0 <= j < |nexts| && nexts[j] == row &&
        forall l :: j < l < |nexts| ==> id(nexts[l]) != id(row)
  {
    var withId := prevs + nexts;
    var row := DedupeLatest(withId, id, SameTime)[i];
    DedupeLatestNewest(withId, id, SameTime);
    var pos := LatestPositions(withId, id, SameTime);
    var p := pos[i];
    assert row == withId[p];
    var r :| r in nexts && id(r) != [] && id(r) == id(row);
    var q :| 0 <= q < |nexts| && nexts[q] == r;
    assert withId[|prevs| + q] == r;
    assert p >= |prevs|;
    var j := p - |prevs|;
    assert nexts[j] == row;
    forall l | j < l < |nexts| ensures id(nexts[l]) != id(row) {
      assert withId[|prevs| + l] == nexts[l];
    }
  }

  /** The rows with an id end up with distinct ids when both lists have rows. */
  lemma MergeIdsDistinct<T>(prevList: seq<T>, nextList: seq<T>, id: T -> string, ident: T -> string, ts: T -> int)
    requires prevList != [] && nextList != []
    ensures var m := MergeById(prevList, nextList, id, ident, ts);
      forall a, b :: 0 <= a < b < |m| && id(m[a]) != [] && id(m[b]) != [] ==> id(m[a]) != id(m[b])
  {
    var withId := WithId(prevList, id) + WithId(nextList, id);
    var byId := DedupeLatest(withId, id, SameTime);
    var rest := DedupeLatest(WithoutId(nextList, id) + WithoutId(prevList, id), ident, ts);
    assert MergeById(prevList, nextList, id, ident, ts) == byId + rest;
    DedupeLatestKeysDistinct(withId, id, SameTime);
    RestWithoutId(nextList, prevList, id, ident, ts);
    ConcatIdsDistinct(byId, rest, id);
  }

  lemma ConcatIdsDistinct<T>(a: seq<T>, b: seq<T>, id: T -> string)
    requires forall x, y :: 0 <= x < y < |a| ==> id(a[x]) != id(a[y])
    requires forall i :: 0 <= i < |b| ==> id(b[i]) == []
    ensures var m := a + b;
      forall x, y :: 0 <= x < y < |m| && id(m[x]) != [] && id(m[y]) != [] ==> id(m[x]) != id(m[y])
  {
    var m := a + b;
    forall x, y | 0 <= x < y < |m| && id(m[x]) != [] && id(m[y]) != [] ensures id(m[x]) != id(m[y]) {
      assert y < |a| by {
        assert forall z :: |a| <= z < |m| ==> m[z] == b[z - |a|];
      }
      assert m[x] == a[x] && m[y] == a[y];
    }
  }

  // ---------------------------------------------------------------------
  // The semicolon CSV of the batch upload
  // ---------------------------------------------------------------------

  /**
   * `parseSemicolonCsvLine`: the fields of the line under the quote rules of
   * `parseDelimited`, each trimmed, with a byte-order mark removed from the
   * first.  Trimming already removes the mark (it is whitespace to
   * `trim`), so every cell is the trimmed field.
   */
  function SemicolonCells(line: string): (cells: seq<string>)
    ensures |cells| == |ConsultaPresenca.Fields(line, ';')| > 0
    ensures forall i :: 0 <= i < |cells| ==> cells[i] == JsTrim(ConsultaPresenca.Fields(line, ';')[i])
  {
    var t := ConsultaPresenca.TrimAll(ConsultaPresenca.Fields(line, ';'));
    assert IsJsSpace('\U{FEFF}');
    t[0 := ConsultaPresenca.StripLeadingBom(t[0])]
  }

  /** The character loop of `parseSemicolonCsvLine`. */
  method ParseSemicolonCsvLine(line: string) returns (cells: seq<string>)
    ensures cells == SemicolonCells(line)
  {
    cells := ConsultaPresenca.ParseLine(line, ';');
    cells := cells[0 := ConsultaPresenca.StripLeadingBom(cells[0])];
  }

  /** A quoted cell is read back as one cell, even when it holds `;` or quotes. */
  lemma SemicolonQuotedCell(s: string)
    ensures SemicolonCells(ConsultaPresenca.Quoted(s)) == [JsTrim(s)]
  {
    ConsultaPresenca.QuotedFieldRoundTrip(s, ';');
  }

  predicate NonEmpty(line: string) { line != [] }

  /** The lines of the file: mark removed, split on line breaks, trimmed, blank ones dropped. */
  function CsvLines(raw: JsValue): (lines: seq<string>)
    ensures forall k :: 0 <= k < |lines| ==> lines[k] != [] && JsTrim(lines[k]) == lines[k]
  {
    var split := SplitLines(ConsultaPresenca.StripLeadingBom(TextOf(raw)));
    TrimmedLinesFixed(split);
    Filter(ConsultaPresenca.TrimAll(split), NonEmpty)
  }

  /** The non-blank trimmed lines are non-empty and trimmed already. */
  lemma TrimmedLinesFixed(xs: seq<string>)
    ensures var lines := Filter(ConsultaPresenca.TrimAll(xs), NonEmpty);
      forall k :: 0 <= k < |lines| ==> lines[k] != [] && JsTrim(lines[k]) == lines[k]
  {
    var trimmed := ConsultaPresenca.TrimAll(xs);
    var lines := Filter(trimmed, NonEmpty);
    forall k | 0 <= k < |lines| ensures lines[k] != [] && JsTrim(lines[k]) == lines[k] {
      var j :| 0 <= j < |trimmed| && trimmed[j] == lines[k];
      TrimIdempotent(xs[j], IsJsSpace);
    }
  }

  /** Where the `cpf`, `nome` and phone columns are. */
  datatype Columns = Columns(cpf: nat, nome: nat, telefone: Option<nat>)

  predicate IsPhoneHeader(token: string) { token == "telefone" || token == "phone" || token == "celular" }

  function HeaderTokens(cells: seq<string>): (tokens: seq<string>)
    ensures |tokens| == |cells| && forall i :: 0 <= i < |cells| ==> tokens[i] == NormalizeHeaderToken(cells[i])
  {
    seq(|cells|, i requires 0 <= i < |cells| => NormalizeHeaderToken(cells[i]))
  }

  /**
   * `indexOf('cpf')`, `indexOf('nome')` and the first phone header: found
   * exactly when both required tokens are present, each index the first
   * holding its token.
   */
  function FindColumns(tokens: seq<string>): (r: Option<Columns>)
    ensures r.Some? <==> "cpf" in tokens && "nome" in tokens
    ensures r.Some? ==> var c := r.value;
      c.cpf < |tokens| && tokens[c.cpf] == "cpf" && (forall j :: 0 <= j < c.cpf ==> tokens[j] != "cpf")
      && c.nome < |tokens| && tokens[c.nome] == "nome" && (forall j :: 0 <= j < c.nome ==> tokens[j] != "nome")
      && (c.telefone.Some? ==> c.telefone.value < |tokens| && IsPhoneHeader(tokens[c.telefone.value]))
      && (c.telefone.None? ==> forall j :: 0 <= j < |tokens| ==> !IsPhoneHeader(tokens[j]))
  {
    var cpf := FirstWhere(tokens, t => t == "cpf");
    var nome := FirstWhere(tokens, t => t == "nome");
    var phone := FirstWhere(tokens, IsPhoneHeader);
    if cpf.None? || nome.None? then None
    else Some(Columns(cpf.value, nome.value, phone))
  }

  /** `cells[i] ?? ''`. */
  function Cell(cells: seq<string>, i: nat): string { if i < |cells| then cells[i] else "" }

  /**
   * The two numbers `generateRandomPhone11` draws: `ddd` stands for
   * `Math.floor(Math.random() * 89)` and `tail` for the draw behind the
   * eight-digit tail; each is taken modulo the size of its range.
   */
  datatype PhoneDraw = PhoneDraw(ddd: nat, tail: nat)

  /** `generateRandomPhone11`: an area code 11-99, a `9`, and eight digits. */
  function GeneratedPhone(d: PhoneDraw): (r: string)
    ensures |r| == 11 && AllDigits(r) && r[2] == '9'
  {
    var ddd := d.ddd % 89 + 11;
    var tail := d.tail % 88888889 + 11111111;
    var area := NatToString(ddd);
    var rest := PadStart(NatToString(tail), 8, '0');
    Pow10Eight();
    NatToStringShort(ddd, 2);
    NatToStringShort(tail, 8);
    PadStartDigits(NatToString(tail), 8);
    PhoneShape(area, rest);
    area + "9" + rest
  }

  lemma Pow10Eight()
    ensures Pow10(2) == 100 && Pow10(8) == 100000000
  {
    assert Pow10(1) == 10;
    assert Pow10(4) == 10000 by { assert Pow10(3) == 1000; }
    assert Pow10(8) == 100000000 by { assert Pow10(6) == 1000000; }
  }

  lemma PhoneShape(area: string, rest: string)
    requires |area| == 2 && AllDigits(area) && |rest| == 8 && AllDigits(rest)
    ensures var r := area + "9" + rest; |r| == 11 && AllDigits(r) && r[2] == '9'
  {
  }

  /** Printing `n` below `10^k` takes at most `k` digits, and two digits from 10 on. */
  lemma {:induction false} NatToStringShort(n: nat, k: nat)
    requires 1 <= k && n < Pow10(k)
    ensures |NatToString(n)| <= k
    ensures n >= 10 ==> |NatToString(n)| >= 2
  {
    if n >= 10 {
      assert Pow10(1) == 10;
      assert k != 1;
      assert n / 10 < Pow10(k - 1);
      NatToStringShort(n / 10, k - 1);
    }
  }

  function Pow10(k: nat): (p: nat)
    ensures p >= 1
  {
    if k == 0 then 1 else 10 * Pow10(k - 1)
  }

  /** A valid line of the upload. */
  datatype BatchRow = BatchRow(line: nat, cpf: string, nome: string, telefone: string)

  /** A rejected line, with its raw cells. */
  datatype InvalidRow = InvalidRow(line: nat, cpf: string, nome: string, telefone: string)

  datatype LineOutcome = Valid(row: BatchRow) | Invalid(bad: InvalidRow)

  /** A valid row: an 11-digit CPF, a normalised non-empty name, a phone of 1 to 11 digits. */
  predicate GoodBatchRow(r: BatchRow)
  {
    |r.cpf| == 11 && AllDigits(r.cpf) && r.nome != [] && IsClientName(r.nome)
    && 0 < |r.telefone| <= 11 && AllDigits(r.telefone)
  }

  /**
   * One data line (`idx` counts from 0, the header being line 0): valid
   * exactly when the CPF cell has a digit and the name cell normalises to a
   * non-empty name.  The reported line number is `idx + 1`.
   */
  function ReadBatchLine(line: string, idx: nat, cols: Columns, draw: PhoneDraw): (o: LineOutcome)
    ensures var cells := SemicolonCells(line);
      o.Valid? <==> OnlyDigits(JStr(Cell(cells, cols.cpf))) != [] && NormalizeClientName(JStr(Cell(cells, cols.nome))) != []
    ensures o.Valid? ==> GoodBatchRow(o.row) && o.row.line == idx + 1
    ensures o.Invalid? ==>
      o.bad.line == idx + 1 && o.bad.cpf == Cell(SemicolonCells(line), cols.cpf) && o.bad.nome == Cell(SemicolonCells(line), cols.nome)
  {
    var cells := SemicolonCells(line);
    var rawCpf := Cell(cells, cols.cpf);
    var rawNome := Cell(cells, cols.nome);
    var rawTelefone := if cols.telefone.Some? then Cell(cells, cols.telefone.value) else "";
    var cpf := NormalizeCpf11(JStr(rawCpf));
    var nome := NormalizeClientName(JStr(rawNome));
    var telefone := PhoneOrGenerated(rawTelefone, GeneratedPhone(draw));
    if cpf == [] || nome == [] then Invalid(InvalidRow(idx + 1, rawCpf, rawNome, rawTelefone))
    else Valid(BatchRow(idx + 1, cpf, nome, telefone))
  }

  /** The outcome of every data line, the header excluded. */
  function LineOutcomes(lines: seq<string>, cols: Columns, draw: nat -> PhoneDraw): (os: seq<LineOutcome>)
    requires lines != []
    ensures |os| == |lines| - 1
    ensures forall i :: 0 <= i < |os| ==> os[i] == ReadBatchLine(lines[i + 1], i + 1, cols, draw(i + 1))
  {
    seq(|lines| - 1, i requires 0 <= i < |lines| - 1 => DataLine(lines, cols, draw, i))
  }

  /** The outcome of the data line after the header at position `i`. */
  function DataLine(lines: seq<string>, cols: Columns, draw: nat -> PhoneDraw, i: nat): LineOutcome
    requires i + 1 < |lines|
  {
    ReadBatchLine(lines[i + 1], i + 1, cols, draw(i + 1))
  }

  predicate AllGood(os: seq<LineOutcome>) { forall i :: 0 <= i < |os| && os[i].Valid? ==> GoodBatchRow(os[i].row) }

  lemma LineOutcomesGood(lines: seq<string>, cols: Columns, draw: nat -> PhoneDraw)
    requires lines != []
    ensures AllGood(LineOutcomes(lines, cols, draw))
  {
    var os := LineOutcomes(lines, cols, draw);
    forall i | 0 <= i < |os| && os[i].Valid? ensures GoodBatchRow(os[i].row) {
      var o := ReadBatchLine(lines[i + 1], i + 1, cols, draw(i + 1));
      assert os[i] == o;
    }
  }

  /** The valid rows, in order. */
  function ValidRows(os: seq<LineOutcome>): seq<BatchRow>
  {
    if os == [] then []
    else ValidRows(os[..|os| - 1]) + (if os[|os| - 1].Valid? then [os[|os| - 1].row] else [])
  }

  /** Lines that all read as good rows give only good rows. */
  lemma {:induction false} ValidRowsGood(os: seq<LineOutcome>)
    requires AllGood(os)
    ensures forall i :: 0 <= i < |ValidRows(os)| ==> GoodBatchRow(ValidRows(os)[i])
  {
    if os != [] {
      var init := os[..|os| - 1];
      assert AllGood(init) by {
        forall i | 0 <= i < |init| && init[i].Valid? ensures GoodBatchRow(init[i].row) {
          assert init[i] == os[i];
        }
      }
      ValidRowsGood(init);
    }
  }

  /** The rejected rows, in order. */
  function InvalidRows(os: seq<LineOutcome>): (rows: seq<InvalidRow>)
  {
    if os == [] then []
    else InvalidRows(os[..|os| - 1]) + (if os[|os| - 1].Invalid? then [os[|os| - 1].bad] else [])
  }

  /** Every data line ends up valid or rejected. */
  lemma {:induction false} RowsPartitionLines(os: seq<LineOutcome>)
    ensures |ValidRows(os)| + |InvalidRows(os)| == |os|
  {
    if os != [] {
      RowsPartitionLines(os[..|os| - 1]);
    }
  }

  /**
   * The row object pushed to `validRows` has only `line`, `cpf`, `nome` and
   * `telefone`, so `getV8RowIdentityKey` reads those three (no id, no
   * timestamps), and `getRowSortTimestamp` gives every such row the same time.
   */
  function BatchIdentity(r: BatchRow): string
  {
    IdentityOf(NormalizeCpf11(JStr(r.cpf)), NameToken(JStr(r.nome)), OnlyDigits(JStr(r.telefone)), "", "", "")
  }

  /** For a valid row the identity is its CPF, name and phone joined by bars. */
  lemma BatchIdentityOfGood(r: BatchRow)
    requires GoodBatchRow(r)
    ensures BatchIdentity(r) == r.cpf + "|" + r.nome + "|" + r.telefone
  {
    DigitsOfDigits(r.cpf);
    DigitsOfDigits(r.telefone);
    assert OnlyDigits(JStr(r.cpf)) == r.cpf;
    assert OnlyDigits(JStr(r.telefone)) == r.telefone;
    NameTokenOfClientName(r.nome);
  }

  datatype BatchResult =
    | Rejected(error: string)
    | Parsed(totalRows: nat, validRows: seq<BatchRow>, invalidRows: seq<InvalidRow>)

  const EmptyFile := "Arquivo CSV vazio."
  const BadSeparator := "CSV invalido. Use separador ; e colunas cpf;nome."
  const MissingColumns := "CSV precisa ter as colunas obrigatorias: cpf e nome."
  const NoValidRow := "Nenhuma linha valida encontrada no CSV."

  /** The header checks and the row loop, on the lines of the file. */
  function ParseBatchLines(lines: seq<string>, draw: nat -> PhoneDraw): (r: BatchResult)
    ensures lines == [] <==> r == Rejected(EmptyFile)
    ensures lines != [] && |SemicolonCells(lines[0])| < 2 ==> r == Rejected(BadSeparator)
    ensures lines != [] && |SemicolonCells(lines[0])| >= 2 && !r.Parsed? ==> r == Rejected(MissingColumns)
    ensures r.Parsed? <==>
      lines != [] && |SemicolonCells(lines[0])| >= 2
      && "cpf" in HeaderTokens(SemicolonCells(lines[0])) && "nome" in HeaderTokens(SemicolonCells(lines[0]))
    ensures r.Parsed? ==>
      r.totalRows == |lines| - 1 && |r.invalidRows| <= r.totalRows && |r.validRows| <= r.totalRows - |r.invalidRows|
  {
    if lines == [] then Rejected(EmptyFile)
    else
      var header := SemicolonCells(lines[0]);
      if |header| < 2 then Rejected(BadSeparator)
      else
        var cols := FindColumns(HeaderTokens(header));
        if cols.None? then Rejected(MissingColumns)
        else
          var os := LineOutcomes(lines, cols.value, draw);
          RowsPartitionLines(os);
          DedupeLatestShorter(ValidRows(os), BatchIdentity, SameTime);
          Parsed(|lines| - 1, DedupeLatest(ValidRows(os), BatchIdentity, SameTime), InvalidRows(os))
  }

  /** `parseBatchCsvFile` (the file name is only echoed back and is left out). */
  function ParseBatchCsv(raw: JsValue, draw: nat -> PhoneDraw): BatchResult
  {
    ParseBatchLines(CsvLines(raw), draw)
  }

  /** `ok`: parsed with at least one valid row. */
  predicate BatchOk(r: BatchResult) { r.Parsed? && r.validRows != [] }

  /** The error the page shows, if any. */
  function BatchError(r: BatchResult): (e: Option<string>)
    ensures e.None? <==> BatchOk(r)
  {
    if r.Rejected? then Some(r.error)
    else if r.validRows == [] then Some(NoValidRow)
    else None
  }

  /** The valid rows of the lines, before the fold by identity. */
  function AllValidRows(lines: seq<string>, draw: nat -> PhoneDraw): seq<BatchRow>
    requires ParseBatchLines(lines, draw).Parsed?
  {
    ValidRows(LineOutcomes(lines, FindColumns(HeaderTokens(SemicolonCells(lines[0]))).value, draw))
  }

  /**
   * The rows handed on are valid, one per CPF, name and phone, and each is
   * the last line of the file with that identity.
   */
  lemma BatchValidRowsUnique(lines: seq<string>, draw: nat -> PhoneDraw)
    requires ParseBatchLines(lines, draw).Parsed?
    ensures var rows := ParseBatchLines(lines, draw).validRows;
      (forall i :: 0 <= i < |rows| ==> GoodBatchRow(rows[i]))
      && forall a, b :: 0 <= a < b < |rows| ==>
        (rows[a].cpf, rows[a].nome, rows[a].telefone) != (rows[b].cpf, rows[b].nome, rows[b].telefone)
  {
    var cols := FindColumns(HeaderTokens(SemicolonCells(lines[0]))).value;
    var valid := AllValidRows(lines, draw);
    LineOutcomesGood(lines, cols, draw);
    ValidRowsGood(LineOutcomes(lines, cols, draw));
    assert ParseBatchLines(lines, draw).validRows == DedupeLatest(valid, BatchIdentity, SameTime);
    DedupeLatestKeeps(valid, BatchIdentity, SameTime, GoodBatchRow);
    DedupeLatestKeysDistinct(valid, BatchIdentity, SameTime);
  }

  /** Of the valid lines sharing an identity, the last one is kept. */
  lemma BatchLastLineWins(lines: seq<string>, draw: nat -> PhoneDraw, i: nat) returns (p: nat)
    requires ParseBatchLines(lines, draw).Parsed? && i < |ParseBatchLines(lines, draw).validRows|
    ensures var valid := AllValidRows(lines, draw);
      p < |valid| && valid[p] == ParseBatchLines(lines, draw).validRows[i]
      && forall j :: p < j < |valid| ==> BatchIdentity(valid[j]) != BatchIdentity(valid[p])
  {
    var valid := AllValidRows(lines, draw);
    assert ParseBatchLines(lines, draw).validRows == DedupeLatest(valid, BatchIdentity, SameTime);
    DedupeLatestNewest(valid, BatchIdentity, SameTime);
    p := LatestPositions(valid, BatchIdentity, SameTime)[i];
  }

  lemma RowsSnoc(os: seq<LineOutcome>, n: nat)
    requires n < |os|
    ensures ValidRows(os[..n + 1]) == ValidRows(os[..n]) + (if os[n].Valid? then [os[n].row] else [])
    ensures InvalidRows(os[..n + 1]) == InvalidRows(os[..n]) + (if os[n].Invalid? then [os[n].bad] else [])
  {
    assert os[..n + 1][..n] == os[..n];
  }

  /** One pass of the loop of `parseBatchCsvFile`. */
  method ReadLine(line: string, idx: nat, cols: Columns, draw: PhoneDraw) returns (o: LineOutcome)
    ensures o == ReadBatchLine(line, idx, cols, draw)
  {
    var cells := ParseSemicolonCsvLine(line);
    var rawCpf := Cell(cells, cols.cpf);
    var rawNome := Cell(cells, cols.nome);
    var rawTelefone := if cols.telefone.Some? then Cell(cells, cols.telefone.value) else "";
    var cpf := NormalizeCpf11(JStr(rawCpf));
    var nome := NormalizeClientName(JStr(rawNome));
    var telefone := PhoneOrGenerated(rawTelefone, GeneratedPhone(draw));
    if cpf == [] || nome == [] {
      o := Invalid(InvalidRow(idx + 1, rawCpf, rawNome, rawTelefone));
    } else {
      o := Valid(BatchRow(idx + 1, cpf, nome, telefone));
    }
  }

  /** The loop of `parseBatchCsvFile` over the data lines. */
  method ReadDataLines(lines: seq<string>, cols: Columns, draw: nat -> PhoneDraw)
    returns (valid: seq<BatchRow>, invalid: seq<InvalidRow>)
    requires lines != []
    ensures valid == ValidRows(LineOutcomes(lines, cols, draw))
    ensures invalid == InvalidRows(LineOutcomes(lines, cols, draw))
  {
    ghost var os := LineOutcomes(lines, cols, draw);
    valid := [];
    invalid := [];
    var idx := 1;
    while idx < |lines|
      invariant 1 <= idx <= |lines|
      invariant valid == ValidRows(os[..idx - 1])
      invariant invalid == InvalidRows(os[..idx - 1])
    {
      var o := ReadLine(lines[idx], idx, cols, draw(idx));
      ghost var n := idx - 1;
      assert os[n] == o;
      RowsSnoc(os, n);
      if o.Invalid? {
        invalid := invalid + [o.bad];
      } else {
        valid := valid + [o.row];
      }
      idx := idx + 1;
    }
    assert os[..idx - 1] == os;
  }

  /** `parseBatchCsvFile`. */
  method ParseBatchCsvFile(raw: JsValue, draw: nat -> PhoneDraw) returns (result: BatchResult)
    ensures result == ParseBatchCsv(raw, draw)
  {
    var lines := CsvLines(raw);
    if lines == [] {
      return Rejected(EmptyFile);
    }
    var header := ParseSemicolonCsvLine(lines[0]);
    if |header| < 2 {
      return Rejected(BadSeparator);
    }
    var found := FindColumns(HeaderTokens(header));
    if found.None? {
      return Rejected(MissingColumns);
    }
    var valid, invalid := ReadDataLines(lines, found.value, draw);
    var unique := DedupeLatestLoop(valid, BatchIdentity, SameTime);
    result := Parsed(|lines| - 1, unique, invalid);
  }

  // ---------------------------------------------------------------------
  // Limit summary
  // ---------------------------------------------------------------------

  /** The summary card: `NoLimit` is the default with dashes in every field. */
  datatype LimitSummary = NoLimit | Limit(total: int, usado: int, restantes: int)

  /** `toNumberOrNull(row?.total ?? row?.limite)`. */
  function ParseTotal(row: JsValue): Option<int> { NumberOrNull(Coalesce(Get(row, "total"), Get(row, "limite"))) }

  /** `toNumberOrNull(row?.consultados ?? row?.usado)`. */
  function ParseUsado(row: JsValue): Option<int> { NumberOrNull(Coalesce(Get(row, "consultados"), Get(row, "usado"))) }

  predicate HasNumber(row: JsValue) { ParseTotal(row).Some? || ParseUsado(row).Some? }

  /** The aggregate row: id `0`, or e-mail (else login) `TOTAL` ignoring case. */
  predicate IsAggregate(row: JsValue)
  {
    TrimmedText(Get(row, "id")) == "0" || Upper(TrimmedText(Coalesce(Get(row, "email"), Get(row, "login")))) == "TOTAL"
  }

  /** The row `find` picks: an aggregate row carrying a number. */
  predicate IsTotalRow(row: JsValue) { IsAggregate(row) && HasNumber(row) }

  function ValueOrZero(o: Option<int>): int { if o.Some? then o.value else 0 }

  /** The card for a total and a used count: what remains, never below zero. */
  function Summarize(total: int, usado: int): (s: LimitSummary)
    ensures s.Limit? && s.total == total && s.usado == usado
    ensures s.restantes >= 0 && s.restantes >= total - usado
    ensures s.restantes == 0 || s.restantes == total - usado
  {
    Limit(total, usado, if total - usado > 0 then total - usado else 0)
  }

  /** The sum of the numbers `f` reads from the first `n` rows, rows without one counting 0. */
  function SumOf<T>(list: seq<T>, f: T -> Option<int>, n: nat): int
    requires n <= |list|
  {
    if n == 0 then 0 else SumOf(list, f, n - 1) + ValueOrZero(f(list[n - 1]))
  }

  /**
   * `buildLimitSummaryFromRows`: the first aggregate row with a number
   * decides the card; otherwise the totals and used counts of all rows are
   * summed.  The card stays empty exactly when no row carries a number.
   */
  function LimitSummaryOf(rows: JsValue): (s: LimitSummary)
    ensures s.Limit? ==> s.restantes == (if s.total > s.usado then s.total - s.usado else 0)
    ensures s.NoLimit? <==> forall i :: 0 <= i < |ArrayOrEmpty(rows)| ==> !HasNumber(ArrayOrEmpty(rows)[i])
  {
    var list := ArrayOrEmpty(rows);
    if list == [] then NoLimit
    else
      var found := FirstWhere(list, IsTotalRow);
      if found.Some? then Summarize(ValueOrZero(ParseTotal(list[found.value])), ValueOrZero(ParseUsado(list[found.value])))
      else if FirstWhere(list, HasNumber).None? then NoLimit
      else Summarize(SumOf(list, ParseTotal, |list|), SumOf(list, ParseUsado, |list|))
  }

  /** The first aggregate row with a number overrides the sums. */
  lemma LimitFromAggregate(rows: JsValue, i: nat)
    requires i < |ArrayOrEmpty(rows)| && IsTotalRow(ArrayOrEmpty(rows)[i])
    requires forall j :: 0 <= j < i ==> !IsTotalRow(ArrayOrEmpty(rows)[j])
    ensures var row := ArrayOrEmpty(rows)[i];
      LimitSummaryOf(rows) == Summarize(ValueOrZero(ParseTotal(row)), ValueOrZero(ParseUsado(row)))
  {
    var list := ArrayOrEmpty(rows);
    var found := FirstWhere(list, IsTotalRow);
    assert found.Some?;
    assert found.value <= i;
  }

  /** Without an aggregate row, the card sums the numbers of every row. */
  lemma LimitFromSums(rows: JsValue)
    requires forall j :: 0 <= j < |ArrayOrEmpty(rows)| ==> !IsTotalRow(ArrayOrEmpty(rows)[j])
    requires exists j :: 0 <= j < |ArrayOrEmpty(rows)| && HasNumber(ArrayOrEmpty(rows)[j])
    ensures var list := ArrayOrEmpty(rows);
      LimitSummaryOf(rows) == Summarize(SumOf(list, ParseTotal, |list|), SumOf(list, ParseUsado, |list|))
  {
    var list := ArrayOrEmpty(rows);
    var j :| 0 <= j < |list| && HasNumber(list[j]);
    FirstWhereNone(list, IsTotalRow);
    FirstWhereSome(list, HasNumber, j);
    LimitOfSearches(rows);
  }

  /** The sums decide the card once neither search found an aggregate row and some row has a number. */
  lemma LimitOfSearches(rows: JsValue)
    requires FirstWhere(ArrayOrEmpty(rows), IsTotalRow).None? && FirstWhere(ArrayOrEmpty(rows), HasNumber).Some?
    ensures var list := ArrayOrEmpty(rows);
      LimitSummaryOf(rows) == Summarize(SumOf(list, ParseTotal, |list|), SumOf(list, ParseUsado, |list|))
  {
    assert ArrayOrEmpty(rows) != [];
  }

  /**
   * The `for` loop of `buildLimitSummaryFromRows`: both sums, and whether
   * any row had either number.
   */
  method SumNumbers<T>(list: seq<T>, totalOf: T -> Option<int>, usadoOf: T -> Option<int>)
    returns (total: int, usado: int, hasAnyNumeric: bool)
    ensures total == SumOf(list, totalOf, |list|) && usado == SumOf(list, usadoOf, |list|)
    ensures hasAnyNumeric <==> exists j :: 0 <= j < |list| && (totalOf(list[j]).Some? || usadoOf(list[j]).Some?)
  {
    total := 0;
    usado := 0;
    hasAnyNumeric := false;
    var i := 0;
    while i < |list|
      invariant 0 <= i <= |list|
      invariant total == SumOf(list, totalOf, i) && usado == SumOf(list, usadoOf, i)
      invariant hasAnyNumeric <==> exists j :: 0 <= j < i && (totalOf(list[j]).Some? || usadoOf(list[j]).Some?)
    {
      var totalValue := totalOf(list[i]);
      var usadoValue := usadoOf(list[i]);
      if totalValue.Some? {
        total := total + totalValue.value;
        hasAnyNumeric := true;
      }
      if usadoValue.Some? {
        usado := usado + usadoValue.value;
        hasAnyNumeric := true;
      }
      i := i + 1;
    }
  }

  /** `buildLimitSummaryFromRows`. */
  method BuildLimitSummary(rows: JsValue) returns (s: LimitSummary)
    ensures s == LimitSummaryOf(rows)
  {
    var list := ArrayOrEmpty(rows);
    if list == [] {
      return NoLimit;
    }
    var found := FirstWhere(list, IsTotalRow);
    if found.Some? {
      var row := list[found.value];
      return Summarize(ValueOrZero(ParseTotal(row)), ValueOrZero(ParseUsado(row)));
    }
    var total, usado, hasAnyNumeric := SumNumbers(list, ParseTotal, ParseUsado);
    var some := FirstWhere(list, HasNumber);
    if !hasAnyNumeric {
      assert forall j :: 0 <= j < |list| ==> !HasNumber(list[j]);
      return NoLimit;
    }
    var j :| 0 <= j < |list| && (ParseTotal(list[j]).Some? || ParseUsado(list[j]).Some?);
    assert HasNumber(list[j]);
    s := Summarize(total, usado);
  }

  // ---------------------------------------------------------------------
  // Filter by user
  // ---------------------------------------------------------------------

  /** `toNumberOrNull(row?.id_user ?? row?.idUser)`. */
  function RowUserId(row: JsValue): Option<int> { NumberOrNull(Coalesce(Get(row, "id_user"), Get(row, "idUser"))) }

  /** The rows whose user id `uid` reads as `u`, in order. */
  function OwnRows<T>(list: seq<T>, uid: T -> Option<int>, u: Option<int>): (r: seq<T>)
    ensures IsSubsequence(r, list)
    ensures forall i :: 0 <= i < |r| ==> uid(r[i]) == u
    ensures forall i :: 0 <= i < |list| && uid(list[i]) == u ==> list[i] in r
  {
    var own := (row: T) => uid(row) == u;
    FilterIsSubsequence(list, own);
    Filter(list, own)
  }

  /**
   * `filterConsultasByUser`: user 1 and an unknown user see every row; any
   * other user sees, in order, exactly the rows carrying their id.
   */
  function FilterByUser(rows: JsValue, userId: JsValue): (r: seq<JsValue>)
    ensures var u := NumberOrNull(userId);
      u.None? || u == Some(1) ==> r == ArrayOrEmpty(rows)
    ensures var u := NumberOrNull(userId);
      u.Some? && u != Some(1) ==> r == OwnRows(ArrayOrEmpty(rows), RowUserId, u)
  {
    var list := ArrayOrEmpty(rows);
    var u := NumberOrNull(userId);
    if u.None? || u == Some(1) then list else OwnRows(list, RowUserId, u)
  }

  // ---------------------------------------------------------------------
  // De-duplication of exported CSV rows
  // ---------------------------------------------------------------------

  const CsvKeyFields: seq<string> :=
    ["cliente_cpf", "cliente_nome", "telefone", "mensagem", "tipoConsulta",
     "status_consulta_v8", "valor_liberado", "created_at", "updated_at"]

  /** One part of the key: the field's text, trimmed and lower-cased. */
  function CsvKeyPart(v: JsValue): string { Lower(JsTrim(TextOf(v))) }

  /** The nine parts joined by `|`. */
  function CsvRowKey(row: JsValue): string
  {
    Join(seq(|CsvKeyFields|, i requires 0 <= i < |CsvKeyFields| => CsvKeyPart(Get(row, CsvKeyFields[i]))), '|')
  }

  /** Every row has a key. */
  predicate AlwaysKeyed(row: JsValue) { true }

  /** `dedupeV8CsvRows`: the loop with a `Set` of seen keys. */
  method DedupeV8CsvRows(rows: JsValue) returns (out: seq<JsValue>)
    ensures out == DedupeFirst(ArrayOrEmpty(rows), CsvRowKey, AlwaysKeyed)
  {
    out := DedupeFirstLoop(ArrayOrEmpty(rows), CsvRowKey, AlwaysKeyed);
  }

  /**
   * The rows kept have distinct keys, cover every key of the input, and
   * de-duplicating them again changes nothing.
   */
  lemma DedupeV8CsvRowsUnique(rows: JsValue)
    ensures var r := DedupeFirst(ArrayOrEmpty(rows), CsvRowKey, AlwaysKeyed);
      (forall a, b :: 0 <= a < b < |r| ==> CsvRowKey(r[a]) != CsvRowKey(r[b]))
      && KeySet(r, CsvRowKey, AlwaysKeyed) == KeySet(ArrayOrEmpty(rows), CsvRowKey, AlwaysKeyed)
      && DedupeFirst(r, CsvRowKey, AlwaysKeyed) == r
  {
    var list := ArrayOrEmpty(rows);
    DedupeFirstDistinct(list, CsvRowKey, AlwaysKeyed);
    DedupeFirstKeys(list, CsvRowKey, AlwaysKeyed);
    DedupeFirstIdempotent(list, CsvRowKey, AlwaysKeyed);
  }
}
