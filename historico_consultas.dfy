/**
 * The IN100 query history page: the rows the log service returns, shown
 * 50 to a page, counted into success / failure / pending cards, with CPF
 * and benefit numbers masked for display and a cleaned-up name in the
 * CSV export.
 */
module HistoricoConsultas {
  import opened Base
  import opened Js

  // ---------------------------------------------------------------------
  // Document masks
  // ---------------------------------------------------------------------

  const CpfPlaceholder: string := "xxx.xxx.xxx-xx"
  const NbPlaceholder: string := "xxx.xxx.xxx-x"

  /** The digit runs of `d` at `[0,3)`, `[3,6)`, `[6,9)` and the rest, joined as `ddd.ddd.ddd-r`. */
  function DottedMask(d: string): (r: string)
    requires AllDigits(d) && |d| >= 9
    ensures Digits(r) == d
    ensures |r| == |d| + 3 && r[3] == '.' && r[7] == '.' && r[11] == '-'
  {
    NoDigits(".");
    NoDigits("-");
    NoDigits("");
    DigitsInterleaved("", d[..3], ".", d[3..6], ".", d[6..9], "-", d[9..]);
    assert d[..3] + d[3..6] + d[6..9] + d[9..] == d;
    assert "" + d[..3] + "." + d[3..6] + "." + d[6..9] + "-" + d[9..] == d[..3] + "." + d[3..6] + "." + d[6..9] + "-" + d[9..];
    d[..3] + "." + d[3..6] + "." + d[6..9] + "-" + d[9..]
  }

  /**
   * `fmtCPF`: no digits gives the placeholder, exactly eleven digits are
   * masked as `ddd.ddd.ddd-dd`, any other count is shown as bare digits.
   */
  function FmtCpf(v: JsValue): (r: string)
    ensures OnlyDigits(v) == [] ==> r == CpfPlaceholder
    ensures |OnlyDigits(v)| == 11 ==> |r| == 14 && Digits(r) == OnlyDigits(v) && r[3] == '.' && r[7] == '.' && r[11] == '-'
    ensures OnlyDigits(v) != [] && |OnlyDigits(v)| != 11 ==> r == OnlyDigits(v)
  {
    var d := OnlyDigits(v);
    if d == [] then CpfPlaceholder
    else if |d| == 11 then DottedMask(d)
    else d
  }

  /**
   * `fmtNB`: no digits gives the placeholder, exactly ten digits are
   * masked as `ddd.ddd.ddd-d`, any other count is shown as bare digits.
   */
  function FmtNb(v: JsValue): (r: string)
    ensures OnlyDigits(v) == [] ==> r == NbPlaceholder
    ensures |OnlyDigits(v)| == 10 ==> |r| == 13 && Digits(r) == OnlyDigits(v) && r[3] == '.' && r[7] == '.' && r[11] == '-'
    ensures OnlyDigits(v) != [] && |OnlyDigits(v)| != 10 ==> r == OnlyDigits(v)
  {
    var d := OnlyDigits(v);
    if d == [] then NbPlaceholder
    else if |d| == 10 then DottedMask(d)
    else d
  }

  lemma CpfPlaceholderHasNoDigits()
    ensures Digits(CpfPlaceholder) == []
  {
    NoDigits(CpfPlaceholder);
  }

  lemma NbPlaceholderHasNoDigits()
    ensures Digits(NbPlaceholder) == []
  {
    NoDigits(NbPlaceholder);
  }

  /** Masking a masked CPF changes nothing: the mask keeps exactly the digits it was given. */
  lemma FmtCpfIdempotent(v: JsValue)
    ensures FmtCpf(JStr(FmtCpf(v))) == FmtCpf(v)
  {
    var d := OnlyDigits(v);
    var r := FmtCpf(v);
    assert OnlyDigits(JStr(r)) == Digits(r);
    if d == [] {
      CpfPlaceholderHasNoDigits();
    } else if |d| != 11 {
      DigitsOfDigits(d);
    }
  }

  /** Masking a masked benefit number changes nothing. */
  lemma FmtNbIdempotent(v: JsValue)
    ensures FmtNb(JStr(FmtNb(v))) == FmtNb(v)
  {
    var d := OnlyDigits(v);
    var r := FmtNb(v);
    assert OnlyDigits(JStr(r)) == Digits(r);
    if d == [] {
      NbPlaceholderHasNoDigits();
    } else if |d| != 10 {
      DigitsOfDigits(d);
    }
  }

  // ---------------------------------------------------------------------
  // Rows
  // ---------------------------------------------------------------------

  /**
   * The list inside a decoded response: the array itself, else its `data`
   * or `rows` array, else a lone object as a list of one; anything else is
   * empty.
   */
  function RowsOf(data: JsValue): (r: seq<JsValue>)
    ensures data.JArr? ==> r == data.items
    ensures data.JObj? && Get(data, "data").JArr? ==> r == Get(data, "data").items
    ensures data.JObj? && !Get(data, "data").JArr? && Get(data, "rows").JArr? ==> r == Get(data, "rows").items
    ensures data.JObj? && !Get(data, "data").JArr? && !Get(data, "rows").JArr? ==> r == [data]
    ensures !data.JArr? && !data.JObj? ==> r == []
  {
    if data.JArr? then data.items
    else if Get(data, "data").JArr? then Get(data, "data").items
    else if Get(data, "rows").JArr? then Get(data, "rows").items
    else if Truthy(data) && IsObjectType(data) then [data]
    else []
  }

  // ---------------------------------------------------------------------
  // Cards
  // ---------------------------------------------------------------------

  predicate IsSucesso(r: JsValue) { Get(r, "status_api") == JStr("Sucesso") }

  /** A row that is not a success and has no status or a response of "pendente" (any case). */
  predicate IsPendente(r: JsValue)
  {
    !IsSucesso(r) && (IsNullish(Get(r, "status_api")) || Lower(ToStr(Or(Get(r, "resposta_api"), JStr("")))) == "pendente")
  }

  datatype Stats = Stats(total: nat, sucesso: nat, falhas: nat, pendentes: nat)

  /** No row is both a success and pending, so the two counts fit in the total. */
  lemma {:induction false} CountExclusive(items: seq<JsValue>)
    ensures Count(items, IsSucesso) + Count(items, IsPendente) <= |items|
  {
    if items != [] {
      CountExclusive(items[1..]);
    }
  }

  /**
   * `stats`: one pass over the rows counts successes and pending rows; the
   * failures are the rest, so the three cards add up to the total.
   */
  method StatsOf(items: seq<JsValue>) returns (s: Stats)
    ensures s.total == |items|
    ensures s.sucesso == Count(items, IsSucesso)
    ensures s.pendentes == Count(items, IsPendente)
    ensures s.sucesso + s.falhas + s.pendentes == s.total
  {
    var sucesso, pendentes := 0, 0;
    var i := 0;
    while i < |items|
      invariant 0 <= i <= |items|
      invariant sucesso == Count(items[..i], IsSucesso)
      invariant pendentes == Count(items[..i], IsPendente)
    {
      var r := items[i];
      CountSnoc(items, IsSucesso, i);
      CountSnoc(items, IsPendente, i);
      var status := Get(r, "status_api");
      var resp := Lower(ToStr(Or(Get(r, "resposta_api"), JStr(""))));
      if status == JStr("Sucesso") {
        sucesso := sucesso + 1;
      } else if IsNullish(status) || resp == "pendente" {
        pendentes := pendentes + 1;
      }
      i := i + 1;
    }
    assert items[..i] == items;
    CountExclusive(items);
    var rest := |items| - sucesso - pendentes;
    s := Stats(|items|, sucesso, if rest < 0 then 0 else rest, pendentes);
  }

  // ---------------------------------------------------------------------
  // Pages
  // ---------------------------------------------------------------------

  const PageSize: nat := 50

  /** `pages`: `Math.max(1, Math.ceil(len / 50))`. */
  function Pages(len: nat): (n: nat)
    ensures n >= 1
    ensures n * PageSize >= len
    ensures n > 1 ==> (n - 1) * PageSize < len
  {
    var c := (len + PageSize - 1) / PageSize;
    if c < 1 then 1 else c
  }

  /** The rows of page `page` (counted from 1): at most 50, taken from the matching positions. */
  function PageItems(items: seq<JsValue>, page: int): (r: seq<JsValue>)
    ensures |r| <= PageSize
    ensures page >= 1 ==> forall t :: 0 <= t < |r| ==> (page - 1) * PageSize + t < |items| && r[t] == items[(page - 1) * PageSize + t]
  {
    var start := (page - 1) * PageSize;
    JsSlice(items, start, start + PageSize)
  }

  /** `startIndex` and `endIndex`: the first and last row numbers shown, counted from 1. */
  function StartIndex(page: int): int { (page - 1) * PageSize + 1 }

  function EndIndex(page: int, len: nat): int
  {
    if page * PageSize < len then page * PageSize else len
  }

  /**
   * The "showing a-b of n" line agrees with the page: on any page of a
   * non-empty list the range counts exactly the rows shown.
   */
  lemma ShownRangeMatches(items: seq<JsValue>, page: int)
    requires 1 <= page <= Pages(|items|) && items != []
    ensures EndIndex(page, |items|) - StartIndex(page) + 1 == |PageItems(items, page)|
    ensures 1 <= StartIndex(page) <= EndIndex(page, |items|) <= |items|
  {
  }

  /**
   * The requested page.  It starts at 1 and goes back to 1 when a new list
   * arrives; the page shown is the requested one, capped at the last page.
   */
  class HistoryPager {
    var page: int

    predicate Valid()
      reads this
    {
      page >= 1
    }

    constructor ()
      ensures Valid() && page == 1
    {
      page := 1;
    }

    /** `currentPage`: the requested page, never past the last one. */
    function CurrentPage(len: nat): (p: int)
      requires Valid()
      reads this
      ensures 1 <= p <= Pages(len)
      ensures page <= Pages(len) ==> p == page
    {
      if page < Pages(len) then page else Pages(len)
    }

    /** A change in the number of rows shows the first page. */
    method Reset()
      modifies this
      ensures Valid() && page == 1
    {
      page := 1;
    }

    /** "‹": one page back, never before the first. */
    method Previous()
      requires Valid()
      modifies this
      ensures Valid()
      ensures page == if old(page) > 1 then old(page) - 1 else 1
    {
      page := if page - 1 < 1 then 1 else page - 1;
    }

    /** "›": one page on, never past the last. */
    method Next(len: nat)
      requires Valid()
      modifies this
      ensures Valid() && page <= Pages(len)
      ensures old(page) < Pages(len) ==> page == old(page) + 1
      ensures old(page) >= Pages(len) ==> page == Pages(len)
    {
      var pages := Pages(len);
      page := if pages < page + 1 then pages else page + 1;
    }

    /** A page number button (the first, the last, or one near the current page). */
    method Select(p: int)
      requires p >= 1
      modifies this
      ensures Valid() && page == p
    {
      page := p;
    }
  }

  // ---------------------------------------------------------------------
  // Export name
  // ---------------------------------------------------------------------

  predicate IsNameSep(c: char) { c == ',' || c == ' ' }

  /** The login column: `login`, else `usuario_nome`, else empty. */
  function LoginOf(row: JsValue): string
  {
    ToStr(Or(Or(Get(row, "login"), Get(row, "usuario_nome")), JStr("")))
  }

  function NomeOf(row: JsValue): string
  {
    ToStr(Or(Get(row, "nome"), JStr("")))
  }

  /** The name with the login dropped from its end, when it ends with it. */
  function WithoutLogin(nome: string, login: string): (r: string)
    ensures |r| <= |nome| && nome == r + nome[|r|..]
    ensures login != [] && EndsWith(nome, login) ==> nome == r + login
    ensures !(login != [] && EndsWith(nome, login)) ==> r == nome
  {
    if login != [] && EndsWith(nome, login) then nome[..|nome| - |login|] else nome
  }

  /**
   * The name written to the CSV export: the login is cut from its end, then
   * trailing commas and spaces, and an empty result is shown as "-".
   */
  function ExportName(row: JsValue): (r: string)
    ensures r != []
    ensures r == "-" || (StartsWith(NomeOf(row), r) && !IsNameSep(r[|r| - 1]))
  {
    var cut := WithoutLogin(NomeOf(row), LoginOf(row));
    var nome := TrimEnd(cut, IsNameSep);
    if nome == [] then "-" else nome
  }

  /**
   * What the export removes is exactly the login (when the name ends with
   * it) and the separators before it: the raw name is the exported name
   * followed by commas and spaces and then, possibly, the login.
   */
  lemma ExportNameSplits(row: JsValue)
    requires ExportName(row) != "-"
    ensures exists seps: string :: AllIn(seps, IsNameSep) && (NomeOf(row) == ExportName(row) + seps || (LoginOf(row) != [] && NomeOf(row) == ExportName(row) + seps + LoginOf(row)))
  {
    var nome, login := NomeOf(row), LoginOf(row);
    var seps := CutSplits(nome, login);
    assert ExportName(row) == TrimEnd(WithoutLogin(nome, login), IsNameSep);
  }

  /** The text cut from a name: separators, then possibly the login. */
  lemma CutSplits(nome: string, login: string) returns (seps: string)
    ensures AllIn(seps, IsNameSep)
    ensures var kept := TrimEnd(WithoutLogin(nome, login), IsNameSep);
      nome == kept + seps || (login != [] && nome == kept + seps + login)
  {
    var cut := WithoutLogin(nome, login);
    var kept := TrimEnd(cut, IsNameSep);
    seps := cut[|kept|..];
    assert cut == kept + seps;
    assert AllIn(seps, IsNameSep) by {
      forall i | 0 <= i < |seps| ensures IsNameSep(seps[i]) {
        assert seps[i] == cut[|kept| + i];
      }
    }
    if login != [] && EndsWith(nome, login) {
      assert nome == kept + seps + login;
    } else {
      assert nome == kept + seps;
    }
  }

  /** A name without the login at its end and without trailing separators is exported as it is. */
  lemma ExportNameKeeps(row: JsValue)
    requires NomeOf(row) != [] && !IsNameSep(NomeOf(row)[|NomeOf(row)| - 1])
    requires LoginOf(row) == [] || !EndsWith(NomeOf(row), LoginOf(row))
    ensures ExportName(row) == NomeOf(row)
  {
  }
}
