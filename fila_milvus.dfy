/**
 * The Milvus help-desk queue page: tickets fetched from the help-desk API
 * are narrowed to the planning desk, counted into three cards (queue, in
 * progress, waiting on the user), coloured by priority and sorted for the
 * table.
 */
module FilaMilvus {
  import opened Base
  import opened Js

  // ---------------------------------------------------------------------
  // Keys
  // ---------------------------------------------------------------------

  predicate NotJsSpace(c: char) { !IsJsSpace(c) }

  /**
   * `normalizeKey` on a text: accents stripped (NFD, marks dropped), all
   * whitespace removed, lower-cased.
   */
  function NormalizeKey(s: string): string
  {
    Lower(Filter(StripAccents(s), NotJsSpace))
  }

  /**
   * `normalizeKey(value)` on a value: `undefined` takes the default `''`,
   * `null` has no `toString` and throws (`None`), anything else is
   * rendered as text first.
   */
  function KeyOf(v: JsValue): (r: Option<string>)
    ensures r.None? <==> v == JNull
    ensures v == JUndefined ==> r == Some(NormalizeKey(""))
  {
    if v == JNull then None
    else if v == JUndefined then Some(NormalizeKey(""))
    else Some(NormalizeKey(ToStr(v)))
  }

  // ---------------------------------------------------------------------
  // Tickets
  // ---------------------------------------------------------------------

  const DeskFilter: string := "Setor Planejamento"

  datatype Ticket = Ticket(
    codigo: JsValue,
    cliente: JsValue,
    descricao: JsValue,
    status: JsValue,
    prioridade: JsValue,
    ultimaAtualizacao: JsValue,
    tecnico: JsValue,
    mesaTrabalho: JsValue)

  /** `item?.mesa_trabalho ?? item?.mesaTrabalho ?? ''`. */
  function DeskOf(item: JsValue): (d: JsValue)
    ensures !IsNullish(d)
  {
    Coalesce(Coalesce(Get(item, "mesa_trabalho"), Get(item, "mesaTrabalho")), JStr(""))
  }

  /** The first of two fields that is present, else a fallback. */
  function First2(item: JsValue, a: string, b: string, fallback: JsValue): (r: JsValue)
    ensures !IsNullish(fallback) ==> !IsNullish(r)
    ensures !IsNullish(Get(item, a)) ==> r == Get(item, a)
  {
    Coalesce(Coalesce(Get(item, a), Get(item, b)), fallback)
  }

  /** The ticket a raw item becomes, with the page's fallbacks for missing fields. */
  function Adapt(item: JsValue): (t: Ticket)
    ensures t.mesaTrabalho == DeskOf(item)
    ensures !IsNullish(t.codigo) && !IsNullish(t.cliente) && !IsNullish(t.status) && !IsNullish(t.prioridade) && !IsNullish(t.tecnico)
    ensures !IsNullish(Get(item, "status")) ==> t.status == Get(item, "status")
  {
    var status := Coalesce(Get(item, "status"), JStr("Sem status"));
    var prioridade := Coalesce(Get(item, "prioridade"), JStr("Sem prioridade"));
    var codigo := First2(item, "codigo", "id", JStr("Sem codigo"));
    var cliente := First2(item, "setor", "cliente", JStr("Nao informado"));
    var descricao := Coalesce(First2(item, "titulo", "assunto", Get(item, "descricao")), JStr(""));
    var atualizacao := First2(item, "data_modificacao", "data", JStr(""));
    var tecnico := First2(item, "tecnico", "responsavel", JStr("Agurdando tÃ©cnico"));
    Ticket(
      codigo := codigo,
      cliente := cliente,
      descricao := descricao,
      status := status,
      prioridade := prioridade,
      ultimaAtualizacao := atualizacao,
      tecnico := tecnico,
      mesaTrabalho := DeskOf(item))
  }

  /**
   * The filter of `adaptTickets`: a finished ticket is dropped, and so is
   * one from any desk but the planning desk.
   */
  predicate Keep(item: JsValue)
  {
    match KeyOf(Get(item, "status"))
    case None => false
    case Some(k) => k != "finalizado" && KeyOf(DeskOf(item)) == Some(NormalizeKey(DeskFilter))
  }

  predicate StatusReadable(item: JsValue) { Get(item, "status") != JNull }

  /** A kept item's ticket (`filter` then `map` in one step). */
  function KeepAdapt(item: JsValue): (r: Option<Ticket>)
    ensures r.Some? <==> Keep(item)
    ensures r.Some? ==> r.value == Adapt(item)
  {
    if Keep(item) then Some(Adapt(item)) else None
  }

  /**
   * `adaptTickets`: an item with a `null` status makes the key function
   * throw, which fails the whole load (`None`); otherwise the kept items,
   * in order, each adapted.
   */
  function AdaptTickets(items: seq<JsValue>): (r: Option<seq<Ticket>>)
    ensures r.None? <==> exists j :: 0 <= j < |items| && !StatusReadable(items[j])
    ensures r.Some? ==> |r.value| <= |items|
  {
    if exists j :: 0 <= j < |items| && !StatusReadable(items[j]) then None
    else Some(FilterMap(items, KeepAdapt))
  }

  /** Each ticket comes from a kept item. */
  lemma AdaptedFromKept(items: seq<JsValue>, k: nat)
    requires AdaptTickets(items).Some? && k < |AdaptTickets(items).value|
    ensures exists j :: 0 <= j < |items| && Keep(items[j]) && AdaptTickets(items).value[k] == Adapt(items[j])
  {
    FilterMapFrom(items, KeepAdapt, k);
    var j :| 0 <= j < |items| && KeepAdapt(items[j]) == Some(FilterMap(items, KeepAdapt)[k]);
    assert Keep(items[j]);
  }

  /** Every kept item's ticket is loaded. */
  lemma KeptAreAdapted(items: seq<JsValue>, j: nat)
    requires AdaptTickets(items).Some? && j < |items| && Keep(items[j])
    ensures Adapt(items[j]) in AdaptTickets(items).value
  {
    FilterMapKeeps(items, KeepAdapt, j);
  }

  /** Every ticket shown sits at the planning desk and was not finished when loaded. */
  lemma AdaptedArePlanning(items: seq<JsValue>, t: Ticket)
    requires AdaptTickets(items).Some? && t in AdaptTickets(items).value
    ensures KeyOf(t.mesaTrabalho) == Some(NormalizeKey(DeskFilter))
    ensures KeyOf(t.status) != Some("finalizado")
  {
    var r := AdaptTickets(items).value;
    var k :| 0 <= k < |r| && r[k] == t;
    AdaptedFromKept(items, k);
    var j :| 0 <= j < |items| && Keep(items[j]) && r[k] == Adapt(items[j]);
    if IsNullish(Get(items[j], "status")) {
      NoStatusNotFinished();
    }
  }

  /** The placeholder status of a ticket without one does not read as finished. */
  lemma NoStatusNotFinished()
    ensures KeyOf(JStr("Sem status")) != Some("finalizado")
  {
    ShortKey("Sem status");
  }

  lemma ShortKey(s: string)
    requires |s| == 10 && s[3] == ' ' && forall i :: 0 <= i < |s| ==> s[i] < '\U{0080}'
    ensures |NormalizeKey(s)| < 10
  {
    StripAccentsAscii(s);
    FilterDropsOne(s, NotJsSpace, 3);
  }

  /** The list inside one field of the response: an array, or an object's `data`, `lista` or `items` array. */
  function UnwrapList(input: JsValue): (r: Option<seq<JsValue>>)
    ensures input.JArr? ==> r == Some(input.items)
    ensures !input.JArr? && !input.JObj? ==> r.None?
  {
    if !Truthy(input) then None
    else if input.JArr? then Some(input.items)
    else if input.JObj? then
      if Get(input, "data").JArr? then Some(Get(input, "data").items)
      else if Get(input, "lista").JArr? then Some(Get(input, "lista").items)
      else if Get(input, "items").JArr? then Some(Get(input, "items").items)
      else None
    else None
  }

  /** `rawList`: the first field of the response holding a list, else the response itself when it is an array, else nothing. */
  function RawList(payload: JsValue): (r: seq<JsValue>)
    ensures UnwrapList(Get(payload, "lista")).Some? ==> r == UnwrapList(Get(payload, "lista")).value
    ensures (forall f :: f in ["lista", "dados", "data", "resultados", "conteudo"] ==> UnwrapList(Get(payload, f)).None?)
      ==> r == ArrayOrEmpty(payload)
  {
    var fields := ["lista", "dados", "data", "resultados", "conteudo"];
    FirstList(payload, fields)
  }

  function FirstList(payload: JsValue, fields: seq<string>): (r: seq<JsValue>)
    ensures fields != [] && UnwrapList(Get(payload, fields[0])).Some? ==> r == UnwrapList(Get(payload, fields[0])).value
    ensures (forall f :: f in fields ==> UnwrapList(Get(payload, f)).None?) ==> r == ArrayOrEmpty(payload)
  {
    if fields == [] then ArrayOrEmpty(payload)
    else match UnwrapList(Get(payload, fields[0]))
      case Some(list) => list
      case None => FirstList(payload, fields[1..])
  }

  // ---------------------------------------------------------------------
  // Cards
  // ---------------------------------------------------------------------

  /** `patterns.some(p => key.includes(p))`. */
  predicate AnyIn(key: string, patterns: seq<string>)
  {
    patterns != [] && (Contains(key, patterns[0]) || AnyIn(key, patterns[1..]))
  }

  const QueueKeywords: seq<string> := ["fila"]
  const WaitingKeywords: seq<string> := ["aguard", "pendent", "pausad", "pausa", "paus"]
  const ActiveKeywords: seq<string> := ["atendimento", "execucao", "atendendo"]

  /** Which card a ticket counts towards, decided by its status key in this order. */
  datatype Card = Queue | Waiting | Active | NoCard

  function CardOf(t: Ticket): (c: Card)
    ensures !IsNullish(t.status) && NormalizeKey(ToStr(t.status)) == [] ==> c == NoCard
  {
    var key := KeyOf(t.status);
    if key.None? || key.value == [] then NoCard
    else if AnyIn(key.value, QueueKeywords) then Queue
    else if AnyIn(key.value, WaitingKeywords) then Waiting
    else if AnyIn(key.value, ActiveKeywords) then Active
    else NoCard
  }

  predicate IsQueue(t: Ticket) { CardOf(t) == Queue }
  predicate IsWaiting(t: Ticket) { CardOf(t) == Waiting }
  predicate IsActive(t: Ticket) { CardOf(t) == Active }

  /** Each ticket counts towards one card at most, so the cards never add up to more than the tickets. */
  lemma {:induction false} CardsFit(tickets: seq<Ticket>)
    ensures Count(tickets, IsQueue) + Count(tickets, IsActive) + Count(tickets, IsWaiting) <= |tickets|
  {
    if tickets != [] {
      CardsFit(tickets[1..]);
    }
  }

  datatype Metrics = Metrics(queue: nat, active: nat, waiting: nat)

  /** `metrics`: one pass over the tickets, adding each to the first card its status matches. */
  method MetricsOf(tickets: seq<Ticket>) returns (m: Metrics)
    ensures m.queue == Count(tickets, IsQueue)
    ensures m.active == Count(tickets, IsActive)
    ensures m.waiting == Count(tickets, IsWaiting)
    ensures m.queue + m.active + m.waiting <= |tickets|
  {
    var queue, active, waiting := 0, 0, 0;
    var i := 0;
    while i < |tickets|
      invariant 0 <= i <= |tickets|
      invariant queue == Count(tickets[..i], IsQueue)
      invariant active == Count(tickets[..i], IsActive)
      invariant waiting == Count(tickets[..i], IsWaiting)
    {
      CountSnoc(tickets, IsQueue, i);
      CountSnoc(tickets, IsActive, i);
      CountSnoc(tickets, IsWaiting, i);
      queue, active, waiting := Tally(queue, active, waiting, tickets[i]);
      i := i + 1;
    }
    assert tickets[..i] == tickets;
    CardsFit(tickets);
    m := Metrics(queue, active, waiting);
  }

  /** The loop body of `metrics`: one ticket added to the first card its status matches. */
  method Tally(queue0: nat, active0: nat, waiting0: nat, t: Ticket) returns (queue: nat, active: nat, waiting: nat)
    ensures queue == queue0 + (if IsQueue(t) then 1 else 0)
    ensures active == active0 + (if IsActive(t) then 1 else 0)
    ensures waiting == waiting0 + (if IsWaiting(t) then 1 else 0)
  {
    queue, active, waiting := queue0, active0, waiting0;
    var card := CardOf(t);
    if card == Queue {
      queue := queue + 1;
    } else if card == Waiting {
      waiting := waiting + 1;
    } else if card == Active {
      active := active + 1;
    }
  }

  // ---------------------------------------------------------------------
  // Colours
  // ---------------------------------------------------------------------

  /** The first entry of a table whose key is exactly `key`. */
  function ExactEntry(key: string, table: seq<(string, string)>): (r: Option<string>)
    ensures r.Some? ==> exists i :: 0 <= i < |table| && table[i] == (key, r.value)
    ensures r.None? ==> forall i :: 0 <= i < |table| ==> table[i].0 != key
  {
    if table == [] then None
    else if table[0].0 == key then Some(table[0].1)
    else ExactEntry(key, table[1..])
  }

  /** The first entry of a table whose key occurs in `key`. */
  function ContainedEntry(key: string, table: seq<(string, string)>): (r: Option<string>)
    ensures r.Some? ==> exists i :: 0 <= i < |table| && table[i].1 == r.value && Contains(key, table[i].0)
    ensures r.None? ==> forall i :: 0 <= i < |table| ==> !Contains(key, table[i].0)
  {
    if table == [] then None
    else if Contains(key, table[0].0) then Some(table[0].1)
    else ContainedEntry(key, table[1..])
  }

  /**
   * A variant lookup: the entry for the exact key, else the first entry
   * whose key occurs in it, else the default.
   */
  function Variant(key: string, table: seq<(string, string)>, default: string): (r: string)
    ensures r == default || exists i :: 0 <= i < |table| && table[i].1 == r
    ensures (forall i :: 0 <= i < |table| ==> table[i].0 != key && !Contains(key, table[i].0)) ==> r == default
    ensures (exists i :: 0 <= i < |table| && table[i].0 == key) ==> ExactEntry(key, table).Some? && r == ExactEntry(key, table).value
  {
    match ExactEntry(key, table)
    case Some(v) => v
    case None =>
      match ContainedEntry(key, table)
      case Some(v) => v
      case None => default
  }

  const PriorityVariants: seq<(string, string)> := [("alta", "danger"), ("media", "primary"), ("baixa", "success")]

  /** What `getPriorityVariant` returns: a class name, or a value inherited from `Object.prototype`. */
  datatype VariantValue = ClassName(name: string) | InheritedValue(prop: string)

  /** `getPriorityVariant`: the variant of the normalised key. */
  function PriorityVariant(value: JsValue): VariantValue
    requires value != JNull
  {
    PriorityOfKey(KeyOf(value).value)
  }

  /**
   * The lookup of `getPriorityVariant`: "danger", "primary" or "success",
   * and "primary" when the key names no priority.  A key that is the name
   * of a property of `Object.prototype` reads that inherited value from the
   * table, which is truthy and returned as it is.
   */
  function PriorityOfKey(key: string): (r: VariantValue)
    ensures key in ObjectPrototypeNames ==> r == InheritedValue(key)
    ensures key !in ObjectPrototypeNames ==> r.ClassName? && r.name in {"danger", "primary", "success"}
    ensures (key !in ObjectPrototypeNames &&
      forall i :: 0 <= i < |PriorityVariants| ==> !Contains(key, PriorityVariants[i].0)) ==> r == ClassName("primary")
  {
    if key in ObjectPrototypeNames then InheritedValue(key)
    else
      var r := Variant(key, PriorityVariants, "primary");
      assert r == "primary" || r == "danger" || r == "success";
      ClassName(r)
  }

  // ---------------------------------------------------------------------
  // Order
  // ---------------------------------------------------------------------

  /** `hasResponsavel`: a technician other than the team placeholder. */
  predicate HasResponsavel(v: JsValue)
  {
    Truthy(v) && var key := NormalizeKey(ToStr(v)); |key| > 0 && key != "equipemilvus"
  }

  predicate IsAtendendo(t: Ticket)
  {
    var key := if t.status == JNull then "" else KeyOf(t.status).value;
    Contains(key, "atendendo") || Contains(key, "atendimento")
  }

  /**
   * The comparator of the table: tickets being handled first, then those
   * with a technician, then the most recently updated, then codes in
   * descending collation order.  `timeOf` is `new Date(v).getTime() || 0`
   * and `collate` is `localeCompare`, both given to the model.
   */
  function Compare(a: Ticket, b: Ticket, timeOf: JsValue -> int, collate: (string, string) -> int): int
  {
    if IsAtendendo(a) != IsAtendendo(b) then (if IsAtendendo(a) then -1 else 1)
    else if HasResponsavel(a.tecnico) != HasResponsavel(b.tecnico) then (if HasResponsavel(a.tecnico) then -1 else 1)
    else if timeOf(a.ultimaAtualizacao) != timeOf(b.ultimaAtualizacao) then timeOf(b.ultimaAtualizacao) - timeOf(a.ultimaAtualizacao)
    else collate(ToStr(b.codigo), ToStr(a.codigo))
  }

  /** A ticket being handled goes first; among equals, one with a technician; among those, the newer. */
  lemma CompareOrder(a: Ticket, b: Ticket, timeOf: JsValue -> int, collate: (string, string) -> int)
    ensures IsAtendendo(a) && !IsAtendendo(b) ==> Compare(a, b, timeOf, collate) < 0
    ensures (IsAtendendo(a) == IsAtendendo(b) && HasResponsavel(a.tecnico) && !HasResponsavel(b.tecnico))
      ==> Compare(a, b, timeOf, collate) < 0
    ensures (IsAtendendo(a) == IsAtendendo(b) && HasResponsavel(a.tecnico) == HasResponsavel(b.tecnico)
      && timeOf(a.ultimaAtualizacao) > timeOf(b.ultimaAtualizacao)) ==> Compare(a, b, timeOf, collate) < 0
  {
  }

  /** With an antisymmetric collation the comparator is antisymmetric: swapping the tickets flips the sign. */
  lemma CompareAntisymmetric(a: Ticket, b: Ticket, timeOf: JsValue -> int, collate: (string, string) -> int)
    requires forall x, y :: collate(x, y) == -collate(y, x)
    ensures Compare(a, b, timeOf, collate) == -Compare(b, a, timeOf, collate)
  {
  }
}
