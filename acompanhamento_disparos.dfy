/**
 * The tracking page of mass WhatsApp sends: the status codes a tracking
 * row can carry, the template label, the fields a row is read from (several
 * spellings per field), the grouping of rows into campaigns with their
 * counters, and the progress percentage shown per campaign.
 *
 * Status codes: 0 pending, 1 sent, 2 error, 3 in progress, 4 no template.
 */
module AcompanhamentoDisparos {
  import opened Base
  import opened Js
  import opened Grouping

  const NoTemplate: string := "Sem template"
  const NoName: string := "Sem nome"

  // ---------------------------------------------------------------------
  // Status codes
  // ---------------------------------------------------------------------

  /** The status a lower-cased, trimmed word stands for: exact words first, then fragments. */
  function StatusWord(str: string): (r: Option<int>)
    ensures r.Some? ==> 0 <= r.value <= 4
    ensures str == [] || str == "null" ==> r.None?
  {
    if str == [] || str == "null" then None
    else if str == "sem template" || str == "sem_template" || str == "no template" || str == "no_template" then Some(4)
    else if str == "enviado" || str == "enviada" || str == "sent" || str == "success" || str == "sucesso" || str == "ok" then Some(1)
    else if str == "erro" || str == "error" || str == "falha" || str == "failed" || str == "failure" then Some(2)
    else if str == "trabalhando" || str == "processando" || str == "working" || str == "enviando" || str == "em andamento" then Some(3)
    else if str == "pendente" || str == "pending" || str == "aguardando" || str == "agendado" || str == "scheduled" then Some(0)
    else if Contains(str, "envi") then Some(1)
    else if Contains(str, "erro") || Contains(str, "fail") || Contains(str, "falha") then Some(2)
    else if Contains(str, "trabal") || Contains(str, "process") || Contains(str, "andamento") || Contains(str, "enviando") then Some(3)
    else if Contains(str, "pend") || Contains(str, "agend") || Contains(str, "aguard") then Some(0)
    else None
  }

  /**
   * `normalizeStatus`: nothing for `null`/`undefined`; a value `Number`
   * reads is kept as that number (so blank text is 0); any other value is
   * read as a status word.
   */
  function NormalizeStatus(v: JsValue): (r: Option<int>)
    ensures IsNullish(v) ==> r.None?
    ensures !IsNullish(v) && NumberOf(v).Some? ==> r == NumberOf(v)
    ensures NumberOf(v).None? ==> r.None? || 0 <= r.value <= 4
  {
    if IsNullish(v) then None
    else if NumberOf(v).Some? then NumberOf(v)
    else StatusWord(Lower(JsTrim(ToStr(v))))
  }

  /** A number is its own status, and blank text counts as status 0 (pending). */
  lemma NormalizeStatusNumbers(n: int, blank: string)
    requires JsTrim(blank) == []
    ensures NormalizeStatus(JNum(n)) == Some(n)
    ensures NormalizeStatus(JStr(blank)) == Some(0)
  {
    assert NumberOf(JStr(blank)) == NumberText(blank);
  }

  /** A status code read back from its own number is unchanged. */
  lemma NormalizeStatusIdempotent(v: JsValue)
    requires NormalizeStatus(v).Some?
    ensures NormalizeStatus(JNum(NormalizeStatus(v).value)) == NormalizeStatus(v)
  {
  }

  // ---------------------------------------------------------------------
  // Template label and field picking
  // ---------------------------------------------------------------------

  /** A value that names something: present, not blank and not the text "null" in any case. */
  predicate Usable(v: JsValue) {
    !IsNullish(v) && JsTrim(ToStr(v)) != [] && Lower(JsTrim(ToStr(v))) != "null"
  }

  /** `normalizeTemplate`: the trimmed text of a usable value, otherwise "Sem template". */
  function NormalizeTemplate(v: JsValue): (r: string)
    ensures r != []
    ensures Usable(v) ==> r == JsTrim(ToStr(v))
    ensures !Usable(v) ==> r == NoTemplate
  {
    if IsNullish(v) then NoTemplate
    else
      var str := JsTrim(ToStr(v));
      if str == [] || Lower(str) == "null" then NoTemplate else str
  }

  /** The label never needs normalising again. */
  lemma NormalizeTemplateIdempotent(v: JsValue)
    ensures NormalizeTemplate(JStr(NormalizeTemplate(v))) == NormalizeTemplate(v)
  {
    if Usable(v) {
      TrimmedTemplateKept(JsTrim(ToStr(v)), ToStr(v));
    } else {
      NoTemplateKept();
    }
  }

  /** The fallback label is itself a usable label. */
  lemma NoTemplateKept()
    ensures NormalizeTemplate(JStr(NoTemplate)) == NoTemplate
  {
    TrimOfTrimmed(NoTemplate, IsJsSpace);
    assert |Lower(NoTemplate)| != |"null"|;
    assert Usable(JStr(NoTemplate));
  }

  /** A usable text, once trimmed, normalises to itself. */
  lemma TrimmedTemplateKept(t: string, s: string)
    requires t == JsTrim(s) && t != [] && Lower(t) != "null"
    ensures NormalizeTemplate(JStr(t)) == t
  {
    TrimIdempotent(s, IsJsSpace);
    assert JsTrim(t) == t;
    assert Usable(JStr(t));
  }

  /** `pickNonEmpty(...values)`: the first usable value, or `null` when there is none. */
  function PickNonEmpty(vs: seq<JsValue>): (r: JsValue)
    ensures r == JNull || Usable(r)
  {
    match FirstWhere(vs, Usable)
    case None => JNull
    case Some(i) => vs[i]
  }

  /** The value picked is the first usable one. */
  lemma PickNonEmptyFirst(vs: seq<JsValue>, i: nat)
    requires i < |vs| && Usable(vs[i]) && forall j :: 0 <= j < i ==> !Usable(vs[j])
    ensures PickNonEmpty(vs) == vs[i]
  {
    FirstWhereAt(vs, Usable, i);
  }

  /** With no usable value, `null` is picked. */
  lemma PickNonEmptyNone(vs: seq<JsValue>)
    requires forall i :: 0 <= i < |vs| ==> !Usable(vs[i])
    ensures PickNonEmpty(vs) == JNull
  {
    assert FirstWhere(vs, Usable).None?;
  }


  const CampaignKeys: seq<string> := ["campanha", "nameBatch", "batchName", "nomeBatch", "campaign"]
  const TemplateKeys: seq<string> := ["template", "modelo_nome", "templateName", "nomeTemplate", "template_nome"]
  const StatusKeys: seq<string> := ["sendStatus", "status", "send_status", "status_envio"]
  const PhoneKeys: seq<string> := ["phone_client", "phoneClient", "phone", "telefone", "numero"]
  const NameKeys: seq<string> := ["nomeCliente", "name", "nome", "cliente"]
  const ScheduleKeys: seq<string> := ["agendamento", "scheduledDateTime", "scheduled_date_time", "dataAgendada", "data_agendada"]
  const CreatedKeys: seq<string> := ["criado_em", "createdAt", "created_at", "dataCriacao", "data_criacao"]

  /** The fields of a tracking row the page reads; the row's other properties pass through unchanged. */
  datatype TrackingItem = TrackingItem(
    nameBatch: JsValue,
    template: JsValue,
    sendStatus: int,
    phone: JsValue,
    name: JsValue,
    scheduledDateTime: JsValue,
    criadoEm: JsValue)

  function TemplateRaw(raw: JsValue): JsValue { PickNonEmpty(Props(raw, TemplateKeys)) }
  function StatusRaw(raw: JsValue): JsValue { PickNonEmpty(Props(raw, StatusKeys)) }

  /** `String(pickNonEmpty(...) || '').trim()` over the campaign spellings. */
  function CampaignText(raw: JsValue): string {
    JsTrim(ToStr(Or(PickNonEmpty(Props(raw, CampaignKeys)), JStr(""))))
  }

  /**
   * `normalizeTrackingItem`: each field from the first of its spellings that
   * holds a usable value.  A row without a usable template is status 4;
   * otherwise the status read from the row, or 0 when it reads as nothing.
   */
  function NormalizeTrackingItem(raw: JsValue): (t: TrackingItem)
    ensures TemplateRaw(raw) == JNull ==> t.sendStatus == 4
    ensures NormalizeTemplate(TemplateRaw(raw)) != NoTemplate ==>
      t.sendStatus == (if NormalizeStatus(StatusRaw(raw)).Some? then NormalizeStatus(StatusRaw(raw)).value else 0)
    ensures t.template == Coalesce(TemplateRaw(raw), Get(raw, "template"))
    ensures CampaignText(raw) != [] ==> t.nameBatch == JStr(CampaignText(raw))
    ensures CampaignText(raw) == [] ==> t.nameBatch == Get(raw, "nameBatch")
    ensures !IsNullish(t.phone) && !IsNullish(t.name)
  {
    Assemble(raw, CampaignText(raw), TemplateRaw(raw), NormalizeTemplate(TemplateRaw(raw)), NormalizeStatus(StatusRaw(raw)),
      PickNonEmpty(Props(raw, PhoneKeys)), PickNonEmpty(Props(raw, NameKeys)),
      PickNonEmpty(Props(raw, ScheduleKeys)), PickNonEmpty(Props(raw, CreatedKeys)))
  }

  /** The tracking row from the values picked for each field. */
  function Assemble(raw: JsValue, campanha: string, templateRaw: JsValue, template: string, statusCode: Option<int>,
                    phone: JsValue, name: JsValue, scheduled: JsValue, created: JsValue): (t: TrackingItem)
    ensures template == NoTemplate ==> t.sendStatus == 4
    ensures template != NoTemplate ==> t.sendStatus == (if statusCode.Some? then statusCode.value else 0)
    ensures t.template == Coalesce(templateRaw, Get(raw, "template"))
    ensures campanha != [] ==> t.nameBatch == JStr(campanha)
    ensures campanha == [] ==> t.nameBatch == Get(raw, "nameBatch")
    ensures !IsNullish(t.phone) && !IsNullish(t.name)
  {
    TrackingItem(
      if campanha != [] then JStr(campanha) else Get(raw, "nameBatch"),
      Coalesce(templateRaw, Get(raw, "template")),
      if template == NoTemplate then 4 else if statusCode.Some? then statusCode.value else 0,
      Or(phone, JStr("")),
      Or(name, JStr("")),
      Coalesce(scheduled, Get(raw, "scheduledDateTime")),
      Coalesce(created, Get(raw, "criado_em")))
  }

  /** A row whose status field is not numeric text ends with one of the five codes. */
  lemma TrackingStatusInRange(raw: JsValue)
    requires NumberOf(StatusRaw(raw)).None?
    ensures 0 <= NormalizeTrackingItem(raw).sendStatus <= 4
  {
  }

  // ---------------------------------------------------------------------
  // Campaigns
  // ---------------------------------------------------------------------

  /** One campaign card: its rows and how many are sent, failed, pending or without a template. */
  datatype Campaign<T> = Campaign(
    nome: string, total: nat, enviados: nat, erros: nat, pendentes: nat, semTemplate: nat, items: seq<T>)

  /** The counters of a campaign add up to no more than its rows. */
  predicate Consistent<T>(c: Campaign<T>) {
    |c.items| == c.total && c.enviados + c.erros + c.pendentes + c.semTemplate <= c.total
  }

  function EmptyCampaign<T>(nome: string): Campaign<T> {
    Campaign(nome, 0, 0, 0, 0, 0, [])
  }

  /** Adds one row with status `s`: 1 sent, 2 error, 0 or 3 pending, 4 no template, any other code only in the total. */
  function AddItem<T>(c: Campaign<T>, item: T, s: int): (d: Campaign<T>)
    ensures d.nome == c.nome && d.total == c.total + 1 && d.items == c.items + [item]
    ensures Consistent(c) ==> Consistent(d)
    ensures 0 <= s <= 4 ==>
      d.enviados + d.erros + d.pendentes + d.semTemplate == c.enviados + c.erros + c.pendentes + c.semTemplate + 1
  {
    var c := c.(total := c.total + 1, items := c.items + [item]);
    if s == 1 then c.(enviados := c.enviados + 1)
    else if s == 2 then c.(erros := c.erros + 1)
    else if s == 0 || s == 3 then c.(pendentes := c.pendentes + 1)
    else if s == 4 then c.(semTemplate := c.semTemplate + 1)
    else c
  }

  /** The row-adding step of the grouping, reading each row's status with `status`. */
  function Adder<T>(status: T -> int): (Campaign<T>, T) -> Campaign<T> {
    (c: Campaign<T>, x: T) => AddItem(c, x, status(x))
  }

  /** The accumulator of `buildCampanhasFromItems`: one card per campaign name, in first-appearance order. */
  function CardsInOrder<T>(items: seq<T>, name: T -> string, status: T -> int): seq<Campaign<T>> {
    Groups(items, name, EmptyCampaign, Adder(status))
  }

  /** Two cards in the order an object lists their names. */
  function CardOrder<T>(): (Campaign<T>, Campaign<T>) -> bool {
    (a: Campaign<T>, b: Campaign<T>) => KeyOrderLe(a.nome, b.nome)
  }

  /**
   * `Object.values(grouped)`: the cards in the order the accumulator object
   * lists its keys, names that are array indices first.
   */
  function Campaigns<T>(items: seq<T>, name: T -> string, status: T -> int): seq<Campaign<T>> {
    SortBy(CardsInOrder(items, name, status), CardOrder())
  }

  /**
   * The cards returned are the accumulated ones, each once, those named by
   * array indices first and in numeric order; when no name is an array
   * index they come in first-appearance order.
   */
  lemma CampaignsInKeyOrder<T(!new)>(items: seq<T>, name: T -> string, status: T -> int)
    ensures multiset(Campaigns(items, name, status)) == multiset(CardsInOrder(items, name, status))
    ensures forall t :: 0 < t < |Campaigns(items, name, status)| ==>
      KeyOrderLe(Campaigns(items, name, status)[t - 1].nome, Campaigns(items, name, status)[t].nome)
    ensures (forall j :: 0 <= j < |items| ==> !IsArrayIndex(name(items[j]))) ==>
      Campaigns(items, name, status) == CardsInOrder(items, name, status)
  {
    var cards := CardsInOrder(items, name, status);
    var le := CardOrder<T>();
    assert TotalBy(le) by {
      forall a: Campaign<T>, b: Campaign<T> ensures le(a, b) || le(b, a) {
        KeyOrderTotal(a.nome, b.nome);
      }
    }
    SortBySorted(cards, le);
    if forall j :: 0 <= j < |items| ==> !IsArrayIndex(name(items[j])) {
      forall t | 0 <= t < |cards| ensures !IsArrayIndex(cards[t].nome) {
        CampaignCard(items, name, status, t);
        var j := GroupKeyWitness(items, name, |items|, t);
      }
      SortByInOrder(cards, le);
    }
  }

  /** The card of campaign `k`. */
  function Tally<T>(items: seq<T>, name: T -> string, status: T -> int, k: string): Campaign<T> {
    Fold(items, name, EmptyCampaign, Adder(status), |items|, k)
  }

  /** Every row lands in exactly one card: the totals add up to the number of rows, and no card is empty. */
  lemma CampaignsPartition<T>(items: seq<T>, name: T -> string, status: T -> int)
    ensures SumSizes(CardsInOrder(items, name, status), (c: Campaign<T>) => c.total) == |items|
    ensures forall t :: 0 <= t < |CardsInOrder(items, name, status)| ==> CardsInOrder(items, name, status)[t].total > 0
  {
    GroupsPartition(items, name, EmptyCampaign, Adder(status), (c: Campaign<T>) => c.total);
  }

  /**
   * The card at place `t` is named after its key, holds exactly the rows of
   * that name and counts no more sent, failed, pending and template-less
   * rows than it holds; names are distinct.
   */
  lemma CampaignCard<T>(items: seq<T>, name: T -> string, status: T -> int, t: nat)
    requires t < |CardsInOrder(items, name, status)|
    ensures var c := CardsInOrder(items, name, status)[t];
      c.nome == GroupKeys(items, name, |items|)[t] && Consistent(c) &&
      c.items == Members(items, name, c.nome)
  {
    var k := GroupKeys(items, name, |items|)[t];
    assert CardsInOrder(items, name, status)[t] == Tally(items, name, status, k);
    TallyShape(items, name, status, k);
  }

  lemma TallyShape<T>(items: seq<T>, name: T -> string, status: T -> int, k: string)
    ensures var c := Tally(items, name, status, k);
      c.nome == k && Consistent(c) && c.items == Members(items, name, k)
  {
    var inv := (c: Campaign<T>) => c.nome == k && Consistent(c);
    FoldKeeps(items, name, EmptyCampaign, Adder(status), inv, |items|, k);
    FoldRows(items, name, EmptyCampaign, Adder(status), (c: Campaign<T>) => c.items, |items|, k);
    assert items[..|items|] == items;
  }

  /** No two cards share a name. */
  lemma CampaignNamesDistinct<T>(items: seq<T>, name: T -> string, status: T -> int)
    ensures forall a, b :: 0 <= a < b < |CardsInOrder(items, name, status)| ==>
      CardsInOrder(items, name, status)[a].nome != CardsInOrder(items, name, status)[b].nome
  {
    forall a, b | 0 <= a < b < |CardsInOrder(items, name, status)|
      ensures CardsInOrder(items, name, status)[a].nome != CardsInOrder(items, name, status)[b].nome
    {
      CampaignCard(items, name, status, a);
      CampaignCard(items, name, status, b);
    }
  }

  /** When every row of a campaign has one of the five codes, its counters add up to its total. */
  lemma {:induction false} TallyComplete<T>(items: seq<T>, name: T -> string, status: T -> int, n: nat, k: string)
    requires n <= |items|
    requires forall j :: 0 <= j < n && name(items[j]) == k ==> 0 <= status(items[j]) <= 4
    ensures var c := Fold(items, name, EmptyCampaign, Adder(status), n, k);
      c.enviados + c.erros + c.pendentes + c.semTemplate == c.total
  {
    if n > 0 {
      TallyComplete(items, name, status, n - 1, k);
    }
  }

  /** The campaign a row belongs to: its trimmed `nameBatch` text, or "Sem nome". */
  function CampaignName(item: JsValue): (r: string)
    ensures r != []
  {
    var s := JsTrim(ToStr(Or(Get(item, "nameBatch"), JStr(""))));
    if s == [] then NoName else s
  }

  /** The status a row is counted under: its normalised `sendStatus`, or 0. */
  function ItemStatus(item: JsValue): int {
    match NormalizeStatus(Get(item, "sendStatus"))
    case None => 0
    case Some(s) => s
  }

  /**
   * A campaign named after a property of `Object.prototype` finds that
   * inherited value in the accumulator instead of a card, and pushing the
   * row onto its missing `items` throws.
   */
  predicate InheritedName(item: JsValue) { CampaignName(item) in ObjectPrototypeNames }

  /**
   * The campaign cards of a list of tracking rows; anything but an array is
   * an empty list, and a row whose campaign name is inherited by plain
   * objects makes the whole build throw (`None`).
   */
  method BuildCampanhasFromItems(list: JsValue) returns (out: Option<seq<Campaign<JsValue>>>)
    ensures out.None? <==> exists j :: 0 <= j < |ArrayOrEmpty(list)| && InheritedName(ArrayOrEmpty(list)[j])
    ensures out.Some? ==> out.value == Campaigns(ArrayOrEmpty(list), CampaignName, ItemStatus)
  {
    var items := ArrayOrEmpty(list);
    if exists j :: 0 <= j < |items| && InheritedName(items[j]) {
      out := None;
    } else {
      var cards := GroupBy(items, CampaignName, EmptyCampaign, Adder(ItemStatus));
      out := Some(SortBy(cards, CardOrder()));
    }
  }

  // ---------------------------------------------------------------------
  // Progress
  // ---------------------------------------------------------------------

  /** Relative error bound of the two IEEE-754 double roundings in `(enviados / total) * 100`. */
  const DOUBLE_ERROR: real := 1.0 / 2251799813685248.0

  /** The exact share as a percentage. */
  function Share(enviados: nat, total: nat): real
    requires total > 0
  {
    100.0 * (enviados as real) / (total as real)
  }

  /**
   * `q` is a value the double computation `(enviados / total) * 100` may
   * yield: the exact share up to the relative error of two roundings.
   */
  predicate DoubleShare(enviados: nat, total: nat, q: real) {
    total > 0 && Share(enviados, total) * (1.0 - DOUBLE_ERROR) <= q <= Share(enviados, total) * (1.0 + DOUBLE_ERROR)
  }

  /**
   * `calcularProgresso`: 0 for an empty campaign, otherwise `Math.round`
   * of the double share `q`, the nearest integer with halves rounded up.
   */
  function Progress(enviados: nat, total: nat, q: real): (r: int)
    requires total > 0 ==> DoubleShare(enviados, total, q)
    ensures total == 0 ==> r == 0
    ensures total > 0 ==> r as real <= q + 0.5 < r as real + 1.0
  {
    if total == 0 then 0 else (q + 0.5).Floor
  }

  /** The exact share rounded half up. */
  function HalfUp(enviados: nat, total: nat): int
    requires total > 0
  {
    (200 * enviados + total) / (2 * total)
  }

  /** The percentage lies between 0 and 100 while the sent rows are part of the total, and is exact at both ends. */
  lemma ProgressBounds(enviados: nat, total: nat, q: real)
    requires enviados <= total && (total > 0 ==> DoubleShare(enviados, total, q))
    ensures 0 <= Progress(enviados, total, q) <= 100
    ensures enviados == 0 ==> Progress(enviados, total, q) == 0
    ensures total > 0 && enviados == total ==> Progress(enviados, total, q) == 100
  {
    if total > 0 {
      var x := Share(enviados, total);
      ShareAtMost(enviados, total);
      assert q <= x * (1.0 + DOUBLE_ERROR) <= 100.0 * (1.0 + DOUBLE_ERROR);
      assert 0.0 <= x * (1.0 - DOUBLE_ERROR) <= q;
      ShareTimesTotal(enviados, total);
      if enviados == 0 {
        assert x * (total as real) == 0.0 * (total as real);
        CancelFactor(x, 0.0, total as real);
      }
      if enviados == total {
        assert x * (total as real) == 100.0 * (total as real);
        CancelFactor(x, 100.0, total as real);
      }
    }
  }

  lemma ShareTimesTotal(enviados: nat, total: nat)
    requires total > 0
    ensures Share(enviados, total) * (total as real) == 100.0 * (enviados as real)
  {
  }

  lemma ShareAtMost(enviados: nat, total: nat)
    requires enviados <= total && total > 0
    ensures 0.0 <= Share(enviados, total) <= 100.0
  {
    var x := Share(enviados, total);
    var t := total as real;
    ShareTimesTotal(enviados, total);
    FactorNonneg(x, t);
    FactorNonneg(100.0 - x, t);
  }

  /** A product with a positive factor is non-negative only when the other factor is. */
  lemma FactorNonneg(a: real, t: real)
    requires t > 0.0
    ensures a * t >= 0.0 ==> a >= 0.0
  {
  }

  /**
   * Away from an exact half the double rounding cannot matter (for fewer
   * than 10^12 rows): `calcularProgresso` agrees with the exact share
   * rounded half up.
   */
  lemma ProgressIsHalfUp(enviados: nat, total: nat, q: real)
    requires enviados <= total && 0 < total <= 1000000000000
    requires DoubleShare(enviados, total, q)
    requires (200 * enviados + total) % (2 * total) != 0
    ensures Progress(enviados, total, q) == HalfUp(enviados, total)
  {
    var n := 200 * enviados + total;
    var d := 2 * total;
    var h := HalfUp(enviados, total);
    assert h * d + 1 <= n <= (h + 1) * d - 1;
    var x := Share(enviados, total);
    ShareAtMost(enviados, total);
    HalfShare(enviados, total);
    assert x + 0.5 == (n as real) / (d as real);
    WithinHalf(n, d, h);
    assert (h as real) + 1.0 / (d as real) <= x + 0.5 <= (h as real) + 1.0 - 1.0 / (d as real);
    ErrorBelowGap(x, total, q);
  }

  lemma HalfShare(enviados: nat, total: nat)
    requires total > 0
    ensures Share(enviados, total) + 0.5 == ((200 * enviados + total) as real) / ((2 * total) as real)
  {
    var e := enviados as real;
    var t := total as real;
    var lhs := 100.0 * e / t + 0.5;
    var rhs := (200.0 * e + t) / (2.0 * t);
    assert 100.0 * e / t * t == 100.0 * e;
    assert lhs * (2.0 * t) == 200.0 * e + t;
    assert rhs * (2.0 * t) == 200.0 * e + t;
    CancelFactor(lhs, rhs, 2.0 * t);
  }

  lemma CancelFactor(a: real, b: real, c: real)
    requires c > 0.0 && a * c == b * c
    ensures a == b
  {
    assert (a - b) * c == 0.0;
  }

  lemma WithinHalf(n: int, d: int, h: int)
    requires d > 0 && h * d + 1 <= n <= (h + 1) * d - 1
    ensures (h as real) + 1.0 / (d as real) <= (n as real) / (d as real) <= (h as real) + 1.0 - 1.0 / (d as real)
  {
    var dr := d as real;
    var hr := h as real;
    var nr := n as real;
    assert nr / dr - hr - 1.0 / dr == (nr - hr * dr - 1.0) / dr;
    assert nr - hr * dr - 1.0 >= 0.0;
    assert hr + 1.0 - 1.0 / dr - nr / dr == (hr * dr + dr - 1.0 - nr) / dr;
    assert hr * dr + dr - 1.0 - nr >= 0.0;
  }

  /** The rounding error of the double share is smaller than the gap to the next half. */
  lemma ErrorBelowGap(x: real, total: nat, q: real)
    requires 0 < total <= 1000000000000 && 0.0 <= x <= 100.0
    requires x * (1.0 - DOUBLE_ERROR) <= q <= x * (1.0 + DOUBLE_ERROR)
    ensures x - 1.0 / ((2 * total) as real) < q < x + 1.0 / ((2 * total) as real)
  {
    assert x * DOUBLE_ERROR <= 100.0 * DOUBLE_ERROR;
    assert 1.0 / ((2 * total) as real) >= 1.0 / 2000000000000.0;
  }

  /**
   * At an exact half the double share may fall just below it: 23 of 40 is
   * 57.5%, `(23 / 40) * 100` is 57.49999999999999 in doubles, and
   * `Math.round` gives 57 where rounding the exact share gives 58.
   */
  lemma ProgressMayRoundHalfDown()
    ensures DoubleShare(23, 40, 57.49999999999999)
    ensures Progress(23, 40, 57.49999999999999) == 57 && HalfUp(23, 40) == 58
  {
    assert Share(23, 40) == 57.5;
  }
}
