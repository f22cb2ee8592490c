/**
 * The BM registry page: the webhook answers with flat rows, one per
 * telefone, which the page groups into BMs, each BM into portfolios and
 * each portfolio into its telefones; the edit form masks the phone and the
 * limit, and turns the edited portfolios back into the payload it posts.
 *
 * The page fills one `Map` of BMs whose entries hold a `Map` of portfolios.
 * Here the BM of each row is found first and the BM's own rows are then
 * grouped by portfolio: the rows reach each portfolio in the same order,
 * so the result is the same.
 */
module UsuariosBmControles {
  import opened Base
  import opened Js
  import opened Grouping
  import opened IndexedRows

  /** The BM a row belongs to: its `id`, else its `id_bm`, else `row-<position>`. */
  function BmId(x: Indexed): (r: JsValue)
    ensures Truthy(r)
  {
    Or(Get(x.row, "id"), Or(Get(x.row, "id_bm"), JStr("row-" + NatToString(x.idx))))
  }

  /** The portfolio name of a row: `portifolio`, else `nome_portifolio`, else `-`. */
  function PortNome(x: Indexed): (r: JsValue)
    ensures Truthy(r)
  {
    Or(Get(x.row, "portifolio"), Or(Get(x.row, "nome_portifolio"), JStr("-")))
  }

  /** The portfolio key, `<bmId>::<portNome>`. */
  function PortKey(x: Indexed): string {
    ToStr(BmId(x)) + "::" + ToStr(PortNome(x))
  }

  datatype Telefone = Telefone(phone: JsValue, phoneStatus: JsValue, cartao: JsValue, idPhone: JsValue)

  datatype Portfolio = Portfolio(nome: JsValue, statusPort: JsValue, limite: JsValue, criacaoPort: JsValue,
                                 telefones: seq<Telefone>, idPort: JsValue)

  datatype Bm = Bm(id: JsValue, nome: JsValue, criacaoBm: JsValue, portfolios: seq<Portfolio>)

  /** The telefone a row carries; missing texts read `-`, a missing id `null`. */
  function TelefoneOf(x: Indexed): (t: Telefone)
    ensures Truthy(t.phone) && Truthy(t.phoneStatus) && Truthy(t.cartao)
    ensures Truthy(Get(x.row, "phone")) ==> t.phone == Get(x.row, "phone")
  {
    var r := x.row;
    Telefone(Or(Get(r, "phone"), JStr("-")),
             Or(Get(r, "phone_status"), Or(Get(r, "status_phone"), JStr("-"))),
             Or(Get(r, "cartao"), JStr("-")),
             Or(Get(r, "id_phone"), Or(Get(r, "phone_id"), Or(Get(r, "id_telefone"), Or(Get(r, "telefone_id"), JNull)))))
  }

  /** The portfolio entry the first row of a portfolio creates, holding that row's telefone. */
  function PortfolioEntry(x: Indexed): (p: Portfolio)
    ensures p.nome == PortNome(x) && p.telefones == [TelefoneOf(x)]
  {
    var r := x.row;
    Portfolio(PortNome(x), Or(Get(r, "status_port"), JStr("-")), Or(Get(r, "limite"), JStr("-")),
              Or(Get(r, "criacao_port"), JNull), [TelefoneOf(x)],
              Or(Get(r, "id_port"), Or(Get(r, "id_portifolio"), Or(Get(r, "portifolio_id"), JNull))))
  }

  // The portfolio map: `None` while a key is absent.

  function PortInit(k: string): Option<Portfolio> { None }

  /** A row of an existing portfolio only adds its telefone; a new key starts an entry. */
  function PortAdd(o: Option<Portfolio>, x: Indexed): Option<Portfolio> {
    match o
    case None => Some(PortfolioEntry(x))
    case Some(p) => Some(p.(telefones := p.telefones + [TelefoneOf(x)]))
  }

  function PortSize(o: Option<Portfolio>): nat {
    match o
    case None => 0
    case Some(p) => |p.telefones|
  }

  /** The entry of a present key (every listed key is present). */
  function Present(o: Option<Portfolio>): Portfolio {
    match o
    case Some(p) => p
    case None => Portfolio(JStr("-"), JStr("-"), JStr("-"), JNull, [], JNull)
  }

  /** The portfolios of one BM's rows, in the order first seen. */
  function Portfolios(rows: seq<Indexed>): seq<Portfolio> {
    MapSeq(Groups(rows, PortKey, PortInit, PortAdd), Present)
  }

  // The BM map: a BM keeps what its first row says and collects its rows.

  datatype BmEntry = BmEntry(id: JsValue, nome: JsValue, criacaoBm: JsValue, rows: seq<Indexed>)

  function BmInit(k: JsValue): Option<BmEntry> { None }

  function BmAdd(o: Option<BmEntry>, x: Indexed): Option<BmEntry> {
    match o
    case None =>
      Some(BmEntry(BmId(x), Or(Get(x.row, "nome"), Or(Get(x.row, "nome_bm"), JStr("BM"))),
                   Or(Get(x.row, "criacao_bm"), JNull), [x]))
    case Some(e) => Some(e.(rows := e.rows + [x]))
  }

  function BmRows(o: Option<BmEntry>): seq<Indexed> {
    match o
    case None => []
    case Some(e) => e.rows
  }

  function BmSize(o: Option<BmEntry>): nat { |BmRows(o)| }

  function BmOf(o: Option<BmEntry>): Bm {
    match o
    case Some(e) => Bm(e.id, e.nome, e.criacaoBm, Portfolios(e.rows))
    case None => Bm(JNull, JStr("BM"), JNull, [])
  }

  function BmGroups(items: seq<JsValue>): seq<Option<BmEntry>> {
    Groups(Positions(items), BmId, BmInit, BmAdd)
  }

  /**
   * `normalizeRows`: anything but an array gives no BMs; a `null` or
   * `undefined` row makes the page throw (`None`).
   */
  function NormalizeRows(raw: JsValue): (r: Option<seq<Bm>>)
    ensures !raw.JArr? ==> r == Some([])
    ensures raw.JArr? ==> (r.None? <==> exists i :: 0 <= i < |raw.items| && IsNullish(raw.items[i]))
  {
    if !raw.JArr? then Some([])
    else if exists i :: 0 <= i < |raw.items| && IsNullish(raw.items[i]) then None
    else Some(MapSeq(BmGroups(raw.items), BmOf))
  }

  // ---------------------------------------------------------------------
  // Every row becomes exactly one telefone
  // ---------------------------------------------------------------------

  function PortPhones(p: Portfolio): nat { |p.telefones| }

  function BmPhones(b: Bm): nat { SumSizes(b.portfolios, PortPhones) }

  /** The telefones of all portfolios of all BMs. */
  function TelefoneCount(bms: seq<Bm>): nat { SumSizes(bms, BmPhones) }

  /** A BM holds one telefone per row it collected, and none of its portfolios is empty. */
  lemma BmPhonesOfRows(o: Option<BmEntry>)
    ensures BmPhones(BmOf(o)) == BmSize(o)
    ensures forall s :: 0 <= s < |BmOf(o).portfolios| ==> BmOf(o).portfolios[s].telefones != []
  {
    if o.Some? {
      var rows := o.value.rows;
      var gs := Groups(rows, PortKey, PortInit, PortAdd);
      GroupsPartition(rows, PortKey, PortInit, PortAdd, PortSize);
      SumSizesMap(gs, Present, PortSize, PortPhones);
    }
  }

  /** Every response row turns into exactly one telefone, and every portfolio has one. */
  lemma TelefonesPerRow(raw: JsValue, bms: seq<Bm>)
    requires raw.JArr? && NormalizeRows(raw) == Some(bms)
    ensures TelefoneCount(bms) == |raw.items|
    ensures forall t, s :: 0 <= t < |bms| && 0 <= s < |bms[t].portfolios| ==> bms[t].portfolios[s].telefones != []
  {
    var gs := BmGroups(raw.items);
    GroupsPartition(Positions(raw.items), BmId, BmInit, BmAdd, BmSize);
    forall o { BmPhonesOfRows(o); }
    SumSizesMap(gs, BmOf, BmSize, BmPhones);
  }

  // ---------------------------------------------------------------------
  // One BM per id, one portfolio per name within a BM
  // ---------------------------------------------------------------------

  function Ids(bms: seq<Bm>): (r: seq<JsValue>)
    ensures |r| == |bms| && forall t :: 0 <= t < |bms| ==> r[t] == bms[t].id
  {
    MapSeq(bms, (b: Bm) => b.id)
  }

  /** A BM entry of key `k`, if present, has id `k`. */
  function IdIs(k: JsValue): Option<BmEntry> -> bool {
    (o: Option<BmEntry>) => o.None? || o.value.id == k
  }

  /** The entry of the `t`-th BM key is present, has that key as id and holds exactly the rows of that key. */
  lemma BmEntryOf(items: seq<JsValue>, t: nat)
    requires t < |BmGroups(items)|
    ensures BmGroups(items)[t].Some?
    ensures BmGroups(items)[t].value.id == GroupKeys(Positions(items), BmId, |items|)[t]
    ensures BmGroups(items)[t].value.rows == Members(Positions(items), BmId, GroupKeys(Positions(items), BmId, |items|)[t])
  {
    var xs := Positions(items);
    var k := GroupKeys(xs, BmId, |items|)[t];
    assert BmGroups(items)[t] == Fold(xs, BmId, BmInit, BmAdd, |items|, k);
    GroupsPartition(xs, BmId, BmInit, BmAdd, BmSize);
    BmAddKeepsId(xs, k);
    FoldKeepsKeyed(xs, BmId, BmInit, BmAdd, IdIs(k), |items|, k);
    BmAddRows();
    FoldRows(xs, BmId, BmInit, BmAdd, BmRows, |items|, k);
    assert xs[..|items|] == xs;
  }

  /** A BM entry built from rows of key `k` has id `k`. */
  lemma BmAddKeepsId(xs: seq<Indexed>, k: JsValue)
    ensures IdIs(k)(BmInit(k))
    ensures forall a, j :: 0 <= j < |xs| && BmId(xs[j]) == k && IdIs(k)(a) ==> IdIs(k)(BmAdd(a, xs[j]))
  {
  }

  /** Adding a row to a BM entry appends it to the entry's rows. */
  lemma BmAddRows()
    ensures forall k :: BmRows(BmInit(k)) == []
    ensures forall a, x :: BmRows(BmAdd(a, x)) == BmRows(a) + [x]
  {
  }

  /** BM ids are distinct, and they are exactly the ids of the rows. */
  lemma BmIdsExact(raw: JsValue, bms: seq<Bm>)
    requires raw.JArr? && NormalizeRows(raw) == Some(bms)
    ensures Distinct(Ids(bms))
    ensures forall i :: 0 <= i < |raw.items| ==> BmId(Indexed(i, raw.items[i])) in Ids(bms)
    ensures forall t :: 0 <= t < |bms| ==> exists i :: 0 <= i < |raw.items| && BmId(Indexed(i, raw.items[i])) == bms[t].id
  {
    var xs := Positions(raw.items);
    var ks := GroupKeys(xs, BmId, |xs|);
    forall t | 0 <= t < |bms|
      ensures bms[t].id == ks[t]
    {
      BmEntryOf(raw.items, t);
    }
    assert Ids(bms) == ks;
    forall t | 0 <= t < |bms|
      ensures exists i :: 0 <= i < |raw.items| && BmId(Indexed(i, raw.items[i])) == bms[t].id
    {
      var j := GroupKeyWitness(xs, BmId, |xs|, t);
      assert xs[j] == Indexed(j, raw.items[j]);
    }
  }

  /** A portfolio entry of key `k`, if present, is named so that `<bm>::<name>` is `k`. */
  function NamedFor(bm: JsValue, k: string): Option<Portfolio> -> bool {
    (o: Option<Portfolio>) => o.None? || ToStr(bm) + "::" + ToStr(o.value.nome) == k
  }

  /** Within rows of one BM, the `s`-th portfolio is named after its key. */
  lemma PortfolioNamedAfterKey(rows: seq<Indexed>, bm: JsValue, s: nat)
    requires forall i :: 0 <= i < |rows| ==> BmId(rows[i]) == bm
    requires s < |Portfolios(rows)|
    ensures ToStr(bm) + "::" + ToStr(Portfolios(rows)[s].nome) == GroupKeys(rows, PortKey, |rows|)[s]
  {
    var gs := Groups(rows, PortKey, PortInit, PortAdd);
    PortfolioGroupNamed(rows, bm, s);
    assert Portfolios(rows)[s] == gs[s].value;
  }

  /** The `s`-th portfolio group holds an entry, named after the group's key. */
  lemma PortfolioGroupNamed(rows: seq<Indexed>, bm: JsValue, s: nat)
    requires forall i :: 0 <= i < |rows| ==> BmId(rows[i]) == bm
    requires s < |Groups(rows, PortKey, PortInit, PortAdd)|
    ensures Groups(rows, PortKey, PortInit, PortAdd)[s].Some?
    ensures NamedFor(bm, GroupKeys(rows, PortKey, |rows|)[s])(Groups(rows, PortKey, PortInit, PortAdd)[s])
  {
    var k := GroupKeys(rows, PortKey, |rows|)[s];
    var gs := Groups(rows, PortKey, PortInit, PortAdd);
    GroupsNonEmpty(rows, PortKey, PortInit, PortAdd, PortSize);
    assert gs[s] == Fold(rows, PortKey, PortInit, PortAdd, |rows|, k);
    NamedForStep(rows, bm, k);
    FoldKeepsKeyed(rows, PortKey, PortInit, PortAdd, NamedFor(bm, k), |rows|, k);
    assert PortSize(gs[s]) > 0;
  }

  /** Adding a row of key `k` of the BM keeps the entry named after `k`. */
  lemma NamedForStep(rows: seq<Indexed>, bm: JsValue, k: string)
    requires forall i :: 0 <= i < |rows| ==> BmId(rows[i]) == bm
    ensures forall a, j :: 0 <= j < |rows| && PortKey(rows[j]) == k && NamedFor(bm, k)(a) ==> NamedFor(bm, k)(PortAdd(a, rows[j]))
  {
  }

  /** Two portfolios of the rows of one BM never share a name (as text). */
  lemma PortfolioNamesDistinctIn(rows: seq<Indexed>, bm: JsValue, s1: nat, s2: nat)
    requires forall i :: 0 <= i < |rows| ==> BmId(rows[i]) == bm
    requires s1 < s2 < |Portfolios(rows)|
    ensures ToStr(Portfolios(rows)[s1].nome) != ToStr(Portfolios(rows)[s2].nome)
  {
    PortfolioNamedAfterKey(rows, bm, s1);
    PortfolioNamedAfterKey(rows, bm, s2);
    var ks := GroupKeys(rows, PortKey, |rows|);
    assert ks[s1] != ks[s2];
  }

  /** Two portfolios of one BM never share a name (as text). */
  lemma PortfolioNamesDistinct(raw: JsValue, bms: seq<Bm>, t: nat, s1: nat, s2: nat)
    requires raw.JArr? && NormalizeRows(raw) == Some(bms)
    requires t < |bms| && s1 < s2 < |bms[t].portfolios|
    ensures ToStr(bms[t].portfolios[s1].nome) != ToStr(bms[t].portfolios[s2].nome)
  {
    var gs := BmGroups(raw.items);
    assert bms[t] == BmOf(gs[t]);
    BmRowsShareId(raw.items, t);
    var e := gs[t].value;
    PortfolioNamesDistinctIn(e.rows, e.id, s1, s2);
  }

  /** Every row grouped under a BM carries that BM's id. */
  lemma BmRowsShareId(items: seq<JsValue>, t: nat)
    requires t < |BmGroups(items)|
    ensures BmGroups(items)[t].Some?
    ensures forall i :: 0 <= i < |BmGroups(items)[t].value.rows| ==>
      BmId(BmGroups(items)[t].value.rows[i]) == BmGroups(items)[t].value.id
  {
    BmEntryOf(items, t);
  }

  // ---------------------------------------------------------------------
  // The grouping loops
  // ---------------------------------------------------------------------

  /** `normalizeRows` as the page runs it: a pass that fails on a nullish row, then the two groupings. */
  method NormalizeRowsLoop(raw: JsValue) returns (out: Option<seq<Bm>>)
    ensures out == NormalizeRows(raw)
  {
    if !raw.JArr? {
      return Some([]);
    }
    var items := raw.items;
    var anyNullish := HasNullish(items);
    if anyNullish {
      return None;
    }
    var groups := GroupBy(Positions(items), BmId, BmInit, BmAdd);
    var bms := BmsOfGroups(groups);
    out := Some(bms);
  }

  /** The first pass of `normalizeRows`: whether some row is `null` or `undefined`. */
  method HasNullish(items: seq<JsValue>) returns (found: bool)
    ensures found <==> exists i :: 0 <= i < |items| && IsNullish(items[i])
  {
    var i := 0;
    while i < |items|
      invariant 0 <= i <= |items|
      invariant forall j :: 0 <= j < i ==> !IsNullish(items[j])
    {
      if IsNullish(items[i]) {
        return true;
      }
      i := i + 1;
    }
    return false;
  }

  /** The second pass of `normalizeRows`: each BM group with its portfolios grouped. */
  method BmsOfGroups(groups: seq<Option<BmEntry>>) returns (bms: seq<Bm>)
    ensures bms == MapSeq(groups, BmOf)
  {
    bms := [];
    var t := 0;
    while t < |groups|
      invariant 0 <= t <= |groups|
      invariant bms == MapSeq(groups[..t], BmOf)
    {
      var b := BmOf(None);
      match groups[t] {
        case Some(e) =>
          var ports := GroupBy(e.rows, PortKey, PortInit, PortAdd);
          b := Bm(e.id, e.nome, e.criacaoBm, MapSeq(ports, Present));
        case None =>
      }
      assert groups[..t + 1][..t] == groups[..t];
      bms := bms + [b];
      t := t + 1;
    }
    assert groups[..t] == groups;
  }

  // ---------------------------------------------------------------------
  // Form masks
  // ---------------------------------------------------------------------

  /** The phone mask for up to eleven digits: `(DD) NNNNN-NNNN` as far as the digits go. */
  function PhoneMask(d: string): (r: string)
    requires AllDigits(d)
    ensures Digits(r) == d
  {
    DigitsOfDigits(d);
    if |d| <= 2 then d
    else if |d| <= 7 then
      DigitsInterleaved("(", d[..2], ") ", d[2..], "", "", "", "");
      assert "(" + d[..2] + ") " + d[2..] + "" + "" + "" + "" == "(" + d[..2] + ") " + d[2..];
      "(" + d[..2] + ") " + d[2..]
    else
      DigitsInterleaved("(", d[..2], ") ", d[2..7], "-", d[7..], "", "");
      assert "(" + d[..2] + ") " + d[2..7] + "-" + d[7..] + "" + "" == "(" + d[..2] + ") " + d[2..7] + "-" + d[7..];
      "(" + d[..2] + ") " + d[2..7] + "-" + d[7..]
  }

  /** The first eleven digits of what was typed. */
  function TypedDigits(value: JsValue): (d: string)
    ensures AllDigits(d) && |d| <= 11
  {
    Take(Digits(ToStr(Or(value, JStr("")))), 11)
  }

  /** `formatPhoneInput`: the digits shown are the first eleven digits typed. */
  function FormatPhoneInput(value: JsValue): (r: string)
    ensures Digits(r) == TypedDigits(value)
  {
    PhoneMask(TypedDigits(value))
  }

  /** Masking a masked phone again changes nothing. */
  lemma FormatPhoneInputIdempotent(value: JsValue)
    ensures FormatPhoneInput(JStr(FormatPhoneInput(value))) == FormatPhoneInput(value)
  {
    var r := FormatPhoneInput(value);
    assert ToStr(Or(JStr(r), JStr(""))) == r;
    assert Take(TypedDigits(value), 11) == TypedDigits(value);
  }

  /** `normalizeLimiteInput`: one million, as text or number, shows as `Ilimitado`; a nullish limit as `0`. */
  function NormalizeLimiteInput(value: JsValue): (r: string)
    ensures value == JStr("1000000") || value == JNum(1000000) ==> r == "Ilimitado"
    ensures IsNullish(value) ==> r == "0"
    ensures value.JStr? && value.s != "1000000" ==> r == value.s
  {
    if value == JStr("1000000") || value == JNum(1000000) then "Ilimitado"
    else ToStr(Coalesce(value, JStr("0")))
  }

  /** The limit the payload sends: `Ilimitado` back to one million, a falsy limit as `0`. */
  function LimitePayload(limite: JsValue): (r: string)
    ensures limite == JStr("Ilimitado") ==> r == "1000000"
    ensures !Truthy(limite) ==> r == "0"
    ensures limite.JStr? && limite.s != [] && limite.s != "Ilimitado" ==> r == limite.s
  {
    if limite == JStr("Ilimitado") then "1000000" else ToStr(Or(limite, JStr("0")))
  }

  /** A limit loaded into the form and sent back unedited is sent as loaded (blank becomes `0`). */
  lemma LimiteLoadedThenSent(s: string)
    ensures LimitePayload(JStr(NormalizeLimiteInput(JStr(s)))) ==
      (if s == "Ilimitado" || s == "1000000" then "1000000" else if s == [] then "0" else s)
  {
  }

  /** A limit sent and loaded back shows as it was typed (one million shows as `Ilimitado`). */
  lemma LimiteSentThenLoaded(s: string)
    ensures NormalizeLimiteInput(JStr(LimitePayload(JStr(s)))) ==
      (if s == "Ilimitado" || s == "1000000" then "Ilimitado" else if s == [] then "0" else s)
  {
  }

  // ---------------------------------------------------------------------
  // Payload
  // ---------------------------------------------------------------------

  datatype PhonePayload = PhonePayload(phone: string, status: string, cartao: string, idPhone: Option<JsValue>)

  /** The digits of a form telefone's `numero`. */
  function NumeroDigits(t: JsValue): (d: string)
    ensures AllDigits(d)
  {
    Digits(ToStr(Or(Get(t, "numero"), JStr(""))))
  }

  /** One telefone of the payload; a telefone without digits is dropped. */
  function TelefonePayload(t: JsValue): (r: Option<PhonePayload>)
    ensures r.Some? <==> NumeroDigits(t) != []
    ensures r.Some? ==> r.value.phone == NumeroDigits(t)
    ensures r.Some? ==> (r.value.idPhone.Some? <==> Truthy(Get(t, "id_phone")))
  {
    var digits := NumeroDigits(t);
    if digits == [] then None
    else
      Some(PhonePayload(digits, Lower(ToStr(Or(Get(t, "status"), JStr("")))), Lower(ToStr(Or(Get(t, "cartao"), JStr("")))),
                        if Truthy(Get(t, "id_phone")) then Some(Get(t, "id_phone")) else None))
  }

  /** `(v || '').toLowerCase()` and `(v || '').trim()` throw a TypeError on a truthy value that is not text. */
  predicate TextMethodThrows(v: JsValue) { Truthy(v) && !v.JStr? }

  /**
   * Building a telefone's payload throws: `t.numero` on a null or undefined
   * telefone, `.toLowerCase()` on a truthy status or cartao that is not text.
   */
  predicate TelefoneThrows(t: JsValue) {
    IsNullish(t) || TextMethodThrows(Get(t, "status")) || TextMethodThrows(Get(t, "cartao"))
  }

  /**
   * `payloadTelefones`: every telefone is mapped before the filter runs, so
   * one that throws makes the whole payload throw (None).
   */
  function PayloadTelefones(list: seq<JsValue>): Option<seq<PhonePayload>> {
    if exists j :: 0 <= j < |list| && TelefoneThrows(list[j]) then None
    else Some(FilterMap(list, TelefonePayload))
  }

  /**
   * The payload throws exactly when some listed telefone throws, whether or
   * not it would be filtered out. Otherwise every telefone sent has a phone of
   * digits taken from a listed telefone, and every listed telefone with digits
   * is sent.
   */
  lemma PayloadTelefonesExact(list: seq<JsValue>)
    ensures PayloadTelefones(list).None? <==> exists j :: 0 <= j < |list| && TelefoneThrows(list[j])
    ensures PayloadTelefones(list).Some? ==> forall k :: 0 <= k < |PayloadTelefones(list).value| ==>
      AllDigits(PayloadTelefones(list).value[k].phone) && PayloadTelefones(list).value[k].phone != []
    ensures PayloadTelefones(list).Some? ==> forall k :: 0 <= k < |PayloadTelefones(list).value| ==>
      exists j :: 0 <= j < |list| && NumeroDigits(list[j]) == PayloadTelefones(list).value[k].phone
    ensures PayloadTelefones(list).Some? ==> forall j :: 0 <= j < |list| && NumeroDigits(list[j]) != [] ==>
      TelefonePayload(list[j]).value in PayloadTelefones(list).value
  {
    if PayloadTelefones(list).None? { return; }
    var out := PayloadTelefones(list).value;
    forall k | 0 <= k < |out|
      ensures AllDigits(out[k].phone) && out[k].phone != []
      ensures exists j :: 0 <= j < |list| && NumeroDigits(list[j]) == out[k].phone
    {
      FilterMapFrom(list, TelefonePayload, k);
      var j :| 0 <= j < |list| && TelefonePayload(list[j]) == Some(out[k]);
      assert NumeroDigits(list[j]) == out[k].phone;
    }
    forall j | 0 <= j < |list| && NumeroDigits(list[j]) != []
      ensures TelefonePayload(list[j]).value in out
    {
      FilterMapKeeps(list, TelefonePayload, j);
    }
  }

  datatype PortPayload = PortPayload(nome: string, limite: string, statusPort: JsValue, criacaoPort: JsValue,
                                     telefones: seq<PhonePayload>, idPort: Option<JsValue>)

  /** The trimmed name of a form portfolio. */
  function PortName(p: JsValue): (r: string)
    ensures r == [] || (!IsJsSpace(r[0]) && !IsJsSpace(r[|r| - 1]))
  {
    JsTrim(ToStr(Or(Get(p, "nome"), JStr(""))))
  }

  /** `payloadTelefones(p.telefones || [])`: `.map` throws on truthy telefones that are not an array. */
  function PortTelefones(p: JsValue): Option<seq<PhonePayload>> {
    var tels := Or(Get(p, "telefones"), JArr([]));
    if tels.JArr? then PayloadTelefones(tels.items) else None
  }

  /**
   * Building a portfolio's payload throws: `p.nome` on a null or undefined
   * portfolio, `.trim()` on a truthy name that is not text, or its telefones.
   */
  predicate PortfolioThrows(p: JsValue) {
    IsNullish(p) || TextMethodThrows(Get(p, "nome")) || PortTelefones(p).None?
  }

  /** One portfolio of the payload; one with a blank name is dropped. */
  function PortfolioPayload(p: JsValue, criacaoPort: JsValue): (r: Option<PortPayload>)
    ensures r.Some? <==> PortName(p) != []
    ensures r.Some? ==> r.value.nome == PortName(p) && r.value.limite == LimitePayload(Get(p, "limite"))
    ensures r.Some? && PortTelefones(p).Some? ==> r.value.telefones == PortTelefones(p).value
    ensures r.Some? ==> r.value.criacaoPort == Or(Get(p, "criacao_port"), criacaoPort)
  {
    var nome := PortName(p);
    if nome == [] then None
    else
      Some(PortPayload(nome, LimitePayload(Get(p, "limite")), Or(Get(p, "status"), JStr("")),
                       Or(Get(p, "criacao_port"), criacaoPort),
                       if PortTelefones(p).Some? then PortTelefones(p).value else [],
                       if Truthy(Get(p, "id_port")) then Some(Get(p, "id_port")) else None))
  }

  function PortfolioPayloadAt(criacaoPort: JsValue): JsValue -> Option<PortPayload> {
    (p: JsValue) => PortfolioPayload(p, criacaoPort)
  }

  /** `payloadPortifolios`: as for telefones, one portfolio that throws makes the whole payload throw. */
  function PayloadPortifolios(list: seq<JsValue>, criacaoPort: JsValue): Option<seq<PortPayload>> {
    if exists j :: 0 <= j < |list| && PortfolioThrows(list[j]) then None
    else Some(FilterMap(list, PortfolioPayloadAt(criacaoPort)))
  }

  /**
   * The payload throws exactly when some listed portfolio throws. Otherwise
   * every portfolio sent has a non-blank trimmed name taken from a listed
   * portfolio and only telefones with digits; every listed portfolio with a
   * non-blank name is sent.
   */
  lemma PayloadPortifoliosExact(list: seq<JsValue>, criacaoPort: JsValue)
    ensures PayloadPortifolios(list, criacaoPort).None? <==> exists j :: 0 <= j < |list| && PortfolioThrows(list[j])
    ensures PayloadPortifolios(list, criacaoPort).Some? ==> PortfoliosSent(list, criacaoPort, PayloadPortifolios(list, criacaoPort).value)
  {
    if PayloadPortifolios(list, criacaoPort).Some? {
      PortfoliosSentHolds(list, criacaoPort);
    }
  }

  /** The portfolios sent: named after a listed portfolio, only telefones with digits, every named portfolio present. */
  predicate PortfoliosSent(list: seq<JsValue>, criacaoPort: JsValue, out: seq<PortPayload>) {
    (forall k :: 0 <= k < |out| ==> exists j :: 0 <= j < |list| && PortName(list[j]) == out[k].nome)
    && (forall k :: 0 <= k < |out| ==> out[k].nome != [])
    && (forall k, m :: 0 <= k < |out| && 0 <= m < |out[k].telefones| ==> out[k].telefones[m].phone != [])
    && (forall j :: 0 <= j < |list| && PortName(list[j]) != [] ==> PortfolioPayload(list[j], criacaoPort).value in out)
  }

  lemma PortfoliosSentHolds(list: seq<JsValue>, criacaoPort: JsValue)
    requires forall j :: 0 <= j < |list| ==> !PortfolioThrows(list[j])
    ensures PortfoliosSent(list, criacaoPort, FilterMap(list, PortfolioPayloadAt(criacaoPort)))
  {
    var f := PortfolioPayloadAt(criacaoPort);
    var out := FilterMap(list, f);
    forall k | 0 <= k < |out|
      ensures exists j :: 0 <= j < |list| && PortName(list[j]) == out[k].nome
      ensures out[k].nome != []
      ensures forall m :: 0 <= m < |out[k].telefones| ==> out[k].telefones[m].phone != []
    {
      SentPortfolioAt(list, criacaoPort, k);
    }
    forall j | 0 <= j < |list| && PortName(list[j]) != []
      ensures PortfolioPayload(list[j], criacaoPort).value in out
    {
      FilterMapKeeps(list, f, j);
    }
  }

  /** The `k`-th portfolio sent comes from a listed one, is named, and carries only telefones with digits. */
  lemma SentPortfolioAt(list: seq<JsValue>, criacaoPort: JsValue, k: nat)
    requires forall j :: 0 <= j < |list| ==> !PortfolioThrows(list[j])
    requires k < |FilterMap(list, PortfolioPayloadAt(criacaoPort))|
    ensures var out := FilterMap(list, PortfolioPayloadAt(criacaoPort));
      (exists j :: 0 <= j < |list| && PortName(list[j]) == out[k].nome) && out[k].nome != []
      && forall m :: 0 <= m < |out[k].telefones| ==> out[k].telefones[m].phone != []
  {
    var f := PortfolioPayloadAt(criacaoPort);
    var out := FilterMap(list, f);
    FilterMapFrom(list, f, k);
    var j :| 0 <= j < |list| && f(list[j]) == Some(out[k]);
    SentPortfolioFacts(list[j], criacaoPort);
  }

  /** A portfolio that does not throw and is sent carries only telefones with digits. */
  lemma SentPortfolioFacts(p: JsValue, criacaoPort: JsValue)
    requires !PortfolioThrows(p) && PortfolioPayload(p, criacaoPort).Some?
    ensures forall m :: 0 <= m < |PortfolioPayload(p, criacaoPort).value.telefones| ==>
      PortfolioPayload(p, criacaoPort).value.telefones[m].phone != []
  {
    var tels := Or(Get(p, "telefones"), JArr([]));
    PayloadTelefonesExact(tels.items);
  }
}
