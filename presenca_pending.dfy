/**
 * The `POST /api/presenca/pending` handler: it checks the request, keeps the
 * rows whose CPF, name and mobile phone are well formed, and bulk-inserts
 * them as pending presence queries.  The credentials lookup and the database
 * insert are parameters (whether the credentials are configured, whether the
 * insert succeeded).
 */
module PresencaPending {
  import opened Base
  import opened Js

  const MAX_ROWS := 2000

  datatype CleanRow = CleanRow(cpf: string, nome: string, telefone: string)

  /** A Brazilian mobile number: 10 or 11 digits whose third digit (after the area code) is 9. */
  predicate IsMobile(telefone: string) {
    AllDigits(telefone) && 10 <= |telefone| <= 11 && telefone[2] == '9'
  }

  predicate IsValidRow(c: CleanRow) {
    |c.cpf| == 11 && AllDigits(c.cpf) && c.nome != [] && IsMobile(c.telefone)
  }

  /** One iteration of the cleaning loop: the sanitised row, or `None` when it is skipped. */
  function Accept(row: JsValue): (r: Option<CleanRow>)
    ensures r.Some? ==> IsValidRow(r.value)
    ensures r.Some? ==> r.value.nome == TrimmedText(Get(Or(row, JObj([])), "nome"))
  {
    var src := Or(row, JObj([]));
    var cpf := OnlyDigits(Get(src, "cpf"));
    var nome := TrimmedText(Get(src, "nome"));
    var telefone := OnlyDigits(Get(src, "telefone"));
    if |cpf| != 11 then None
    else if nome == [] then None
    else if |telefone| < 10 || |telefone| > 11 then None
    else if telefone[2] != '9' then None
    else Some(CleanRow(cpf, nome, telefone))
  }

  /** The rows the loop keeps, in input order. */
  function Cleaned(rows: seq<JsValue>): seq<CleanRow>
  {
    FilterMap(rows, Accept)
  }

  /** Every cleaned row has an 11-digit CPF, a name and a mobile number. */
  lemma CleanedValid(rows: seq<JsValue>)
    ensures forall k :: 0 <= k < |Cleaned(rows)| ==> IsValidRow(Cleaned(rows)[k])
  {
    forall k | 0 <= k < |Cleaned(rows)| ensures IsValidRow(Cleaned(rows)[k]) {
      FilterMapFrom(rows, Accept, k);
    }
  }

  /**
   * The cleaned rows are an order-preserving selection of the input: each
   * comes from a row at a strictly later position than the one before, and
   * every acceptable row is kept.
   */
  lemma CleanedInOrder(rows: seq<JsValue>) returns (idx: seq<nat>)
    ensures |idx| == |Cleaned(rows)| && StrictlyIncreasing(idx)
    ensures forall k :: 0 <= k < |idx| ==> idx[k] < |rows| && Accept(rows[idx[k]]) == Some(Cleaned(rows)[k])
    ensures forall j :: 0 <= j < |rows| && Accept(rows[j]).Some? ==> j in idx
  {
    idx := FilterMapPositions(rows, Accept);
  }

  /** An input without a single acceptable row yields no rows. */
  lemma NoValidRowsNothingKept(rows: seq<JsValue>)
    requires forall j :: 0 <= j < |rows| ==> Accept(rows[j]) == None
    ensures Cleaned(rows) == []
  {
    FilterMapNone(rows, Accept);
  }

  /** The loop that builds `clean`. */
  method CleanRows(rows: seq<JsValue>) returns (clean: seq<CleanRow>)
    ensures clean == Cleaned(rows)
  {
    clean := [];
    var i := 0;
    while i < |rows|
      invariant 0 <= i <= |rows|
      invariant clean == Cleaned(rows[..i])
    {
      FilterMapSnoc(rows, Accept, i);
      var row := Accept(rows[i]);
      if row.Some? {
        clean := clean + [row.value];
      }
      i := i + 1;
    }
    assert rows[..|rows|] == rows;
  }

  /** `String(req.body?.loginP ?? '').trim()`. */
  function LoginP(body: JsValue): string { TrimmedText(Get(body, "loginP")) }

  /** `String(req.body?.tipoConsulta ?? req.body?.fileName ?? '').trim()`. */
  function TipoConsulta(body: JsValue): string
  {
    TrimmedText(Coalesce(Get(body, "tipoConsulta"), Get(body, "fileName")))
  }

  function Rows(body: JsValue): seq<JsValue> { ArrayOrEmpty(Get(body, "rows")) }

  /**
   * The handler.  `status` is the HTTP status it answers with and `inserted`
   * the rows handed to the bulk insert (none when it answers before).
   */
  method Handle(httpMethod: string, credentialsSet: bool, body: JsValue, insertSucceeds: bool)
    returns (status: int, inserted: seq<CleanRow>)
    ensures httpMethod != "POST" ==> status == 405
    ensures httpMethod == "POST" && !credentialsSet ==> status == 500
    ensures httpMethod == "POST" && credentialsSet && LoginP(body) == [] ==> status == 400
    ensures httpMethod == "POST" && credentialsSet && LoginP(body) != [] && TipoConsulta(body) == [] ==> status == 400
    ensures httpMethod == "POST" && credentialsSet && LoginP(body) != [] && TipoConsulta(body) != [] ==>
      (Rows(body) == [] ==> status == 400) && (|Rows(body)| > MAX_ROWS ==> status == 413)
    ensures inserted != [] <==>
      httpMethod == "POST" && credentialsSet && LoginP(body) != [] && TipoConsulta(body) != []
      && 0 < |Rows(body)| <= MAX_ROWS && Cleaned(Rows(body)) != []
    ensures inserted != [] ==> inserted == Cleaned(Rows(body)) && (status == if insertSucceeds then 200 else 500)
    ensures (inserted == [] && httpMethod == "POST" && credentialsSet && LoginP(body) != [] && TipoConsulta(body) != []
      && 0 < |Rows(body)| <= MAX_ROWS) ==> status == 400
    ensures status == 200 ==> 0 < |inserted| <= MAX_ROWS
  {
    inserted := [];
    if httpMethod != "POST" {
      return 405, [];
    }
    if !credentialsSet {
      return 500, [];
    }
    var loginP := LoginP(body);
    var tipoConsulta := TipoConsulta(body);
    var rows := Rows(body);
    if loginP == [] {
      return 400, [];
    }
    if tipoConsulta == [] {
      return 400, [];
    }
    if |rows| == 0 {
      return 400, [];
    }
    if |rows| > MAX_ROWS {
      return 413, [];
    }
    var clean := CleanRows(rows);
    if |clean| == 0 {
      return 400, [];
    }
    inserted := clean;
    status := if insertSucceeds then 200 else 500;
  }
}
