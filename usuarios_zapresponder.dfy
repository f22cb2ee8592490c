/**
 * The ZapResponder users page: the webhook answers with one row per user
 * and department, which the page groups into one entry per user (keyed by
 * e-mail, else name, else position), sums up in a few totals and filters
 * by a search text and a department.
 *
 * Dates are read through `timeOf`, which stands for
 * `new Date(v).getTime()`: `None` is the `NaN` of a date that does not
 * parse, against which every comparison is false.
 */
module UsuariosZapresponder {
  import opened Base
  import opened Js
  import opened Grouping
  import opened IndexedRows

  /** One user as the page shows it. */
  datatype ZUser = ZUser(nome: JsValue, email: JsValue, atualizadoEm: JsValue, departamentos: seq<JsValue>)

  // ---------------------------------------------------------------------
  // grouped
  // ---------------------------------------------------------------------

  /** Falsy rows are skipped. */
  predicate KeptRow(x: Indexed) { Truthy(x.row) }

  /** The rows that take part, each with its position in the response. */
  function Items(rows: seq<JsValue>): (r: seq<Indexed>)
    ensures forall k :: 0 <= k < |r| ==> Truthy(r[k].row) && r[k].idx < |rows| && rows[r[k].idx] == r[k].row
    ensures forall i :: 0 <= i < |rows| && Truthy(rows[i]) ==> Indexed(i, rows[i]) in r
  {
    var ps := Positions(rows);
    var r := Filter(ps, KeptRow);
    assert forall k :: 0 <= k < |r| ==> r[k] in ps;
    r
  }

  /** The user key: the e-mail, else the name, else `row-<position>`. */
  function UserKey(x: Indexed): (r: JsValue)
    ensures Truthy(r)
  {
    Or(Get(x.row, "email"), Or(Get(x.row, "usuario_nome"), JStr("row-" + NatToString(x.idx))))
  }

  function Stamp(x: Indexed): JsValue { Get(x.row, "atualizado_em") }

  /** The department a row adds: its name, else `-`. */
  function DeptOf(x: Indexed): (r: JsValue)
    ensures Truthy(r)
  {
    Or(Get(x.row, "departamento_nome"), JStr("-"))
  }

  /** The entry the first row of a user creates, before that row is added. */
  function Fresh(x: Indexed): (u: ZUser)
    ensures u.departamentos == []
  {
    ZUser(Or(Get(x.row, "usuario_nome"), JStr("Usuário")), Or(Get(x.row, "email"), JStr("-")),
          Or(Stamp(x), JNull), [])
  }

  /** `current.atualizadoEm ? time(current.atualizadoEm) : 0`. */
  function TimeOrZero(v: JsValue, timeOf: JsValue -> Option<int>): Option<int> {
    if Truthy(v) then timeOf(v) else Some(0)
  }

  /** `next > prev`, false when either is `NaN`. */
  predicate Later(next: Option<int>, prev: Option<int>) {
    next.Some? && prev.Some? && next.value > prev.value
  }

  /** A row with a date later than the entry's replaces the entry's date. */
  function Bump(u: ZUser, t: JsValue, timeOf: JsValue -> Option<int>): (r: ZUser)
    ensures r.nome == u.nome && r.email == u.email && r.departamentos == u.departamentos
    ensures r.atualizadoEm == u.atualizadoEm || r.atualizadoEm == t
  {
    if Truthy(t) && Later(timeOf(t), TimeOrZero(u.atualizadoEm, timeOf)) then u.(atualizadoEm := t) else u
  }

  /** One row of the `forEach`: find or create the entry, push the department, keep the later date. */
  function AddRow(o: Option<ZUser>, x: Indexed, timeOf: JsValue -> Option<int>): (r: Option<ZUser>)
    ensures r.Some?
  {
    var cur := if o.Some? then o.value else Fresh(x);
    var pushed := cur.(departamentos := cur.departamentos + [DeptOf(x)]);
    Some(Bump(pushed, Stamp(x), timeOf))
  }

  function Adder(timeOf: JsValue -> Option<int>): (Option<ZUser>, Indexed) -> Option<ZUser> {
    (o: Option<ZUser>, x: Indexed) => AddRow(o, x, timeOf)
  }

  function NoUser(k: JsValue): Option<ZUser> { None }

  function Present(o: Option<ZUser>): ZUser {
    match o
    case Some(u) => u
    case None => ZUser(JStr("Usuário"), JStr("-"), JNull, [])
  }

  function DeptSize(o: Option<ZUser>): nat {
    match o
    case Some(u) => |u.departamentos|
    case None => 0
  }

  /** The distinct user keys, in the order first seen. */
  function Keys(rows: seq<JsValue>): (ks: seq<JsValue>)
    ensures Distinct(ks)
    ensures forall k :: 0 <= k < |Items(rows)| ==> UserKey(Items(rows)[k]) in ks
  {
    GroupKeys(Items(rows), UserKey, |Items(rows)|)
  }

  /** `grouped` before the sort by name: one entry per key, in the order the keys were first seen. */
  function GroupedByKey(rows: seq<JsValue>, timeOf: JsValue -> Option<int>): (gs: seq<ZUser>)
    ensures |gs| == |Keys(rows)|
  {
    MapSeq(Groups(Items(rows), UserKey, NoUser, Adder(timeOf)), Present)
  }

  /** `a.nome.localeCompare(b.nome) <= 0`, with `collate` standing for `localeCompare`. */
  function ByName(collate: (string, string) -> int): (ZUser, ZUser) -> bool {
    (a: ZUser, b: ZUser) => collate(ToStr(a.nome), ToStr(b.nome)) <= 0
  }

  /** `grouped`: the entries sorted by name. */
  function Grouped(rows: seq<JsValue>, timeOf: JsValue -> Option<int>, collate: (string, string) -> int): seq<ZUser> {
    SortBy(GroupedByKey(rows, timeOf), ByName(collate))
  }

  /**
   * `grouped` holds exactly the entries of the grouping, one per key, and
   * with a collation that orders any two names each name collates no
   * later than the next one.
   */
  lemma GroupedSortedByName(rows: seq<JsValue>, timeOf: JsValue -> Option<int>, collate: (string, string) -> int)
    requires forall a, b :: collate(a, b) <= 0 || collate(b, a) <= 0
    ensures multiset(Grouped(rows, timeOf, collate)) == multiset(GroupedByKey(rows, timeOf))
    ensures |Grouped(rows, timeOf, collate)| == |Keys(rows)|
    ensures forall t :: 0 < t < |Grouped(rows, timeOf, collate)| ==>
      collate(ToStr(Grouped(rows, timeOf, collate)[t - 1].nome), ToStr(Grouped(rows, timeOf, collate)[t].nome)) <= 0
  {
    var le := ByName(collate);
    assert TotalBy(le) by {
      forall a: ZUser, b: ZUser ensures le(a, b) || le(b, a) {
        assert collate(ToStr(a.nome), ToStr(b.nome)) <= 0 || collate(ToStr(b.nome), ToStr(a.nome)) <= 0;
      }
    }
    SortBySorted(GroupedByKey(rows, timeOf), le);
  }

  /** The entry built from the rows `xs` of one user, in order. */
  function Entry(xs: seq<Indexed>, timeOf: JsValue -> Option<int>): ZUser {
    Present(FoldSeq(xs, None, Adder(timeOf)))
  }

  /** The grouping loop of the page. */
  method GroupedLoop(rows: seq<JsValue>, timeOf: JsValue -> Option<int>, collate: (string, string) -> int)
    returns (out: seq<ZUser>)
    ensures out == Grouped(rows, timeOf, collate)
  {
    var items: seq<Indexed> := [];
    var i := 0;
    while i < |rows|
      invariant 0 <= i <= |rows|
      invariant items == Filter(Positions(rows)[..i], KeptRow)
    {
      var x := Indexed(i, rows[i]);
      assert Positions(rows)[..i + 1] == Positions(rows)[..i] + [x];
      FilterSnoc(Positions(rows)[..i], x, KeptRow);
      if Truthy(rows[i]) {
        items := items + [x];
      }
      i := i + 1;
    }
    assert Positions(rows)[..i] == Positions(rows);
    var groups := GroupBy(items, UserKey, NoUser, Adder(timeOf));
    out := SortBy(MapSeq(groups, Present), ByName(collate));
  }

  /** The `t`-th entry is built from exactly the rows of the `t`-th key, and there is at least one. */
  lemma EntryOfKey(rows: seq<JsValue>, timeOf: JsValue -> Option<int>, t: nat)
    requires t < |GroupedByKey(rows, timeOf)|
    ensures Members(Items(rows), UserKey, Keys(rows)[t]) != []
    ensures GroupedByKey(rows, timeOf)[t] == Entry(Members(Items(rows), UserKey, Keys(rows)[t]), timeOf)
  {
    var xs := Items(rows);
    var k := Keys(rows)[t];
    var j := GroupKeyWitness(xs, UserKey, |xs|, t);
    assert xs[j] in Members(xs, UserKey, k);
    FoldMembers(xs, UserKey, NoUser, Adder(timeOf), |xs|, k);
    assert xs[..|xs|] == xs;
  }

  /** The departments of one user's entry are those of its rows, in order; its name and e-mail come from the first row. */
  lemma {:induction false} EntryContents(xs: seq<Indexed>, timeOf: JsValue -> Option<int>)
    requires xs != []
    ensures FoldSeq(xs, None, Adder(timeOf)).Some?
    ensures Entry(xs, timeOf).departamentos == MapSeq(xs, DeptOf)
    ensures Entry(xs, timeOf).nome == Or(Get(xs[0].row, "usuario_nome"), JStr("Usuário"))
    ensures Entry(xs, timeOf).email == Or(Get(xs[0].row, "email"), JStr("-"))
  {
    var n := |xs|;
    if n > 1 {
      EntryContents(xs[..n - 1], timeOf);
    }
  }

  /** Every row that has a date has one that parses. */
  predicate DatesParse(xs: seq<Indexed>, timeOf: JsValue -> Option<int>) {
    forall i :: 0 <= i < |xs| && Truthy(Stamp(xs[i])) ==> timeOf(Stamp(xs[i])).Some?
  }

  /** The date `v` parses and no row of `xs` has a later one. */
  predicate NoLaterRow(xs: seq<Indexed>, v: JsValue, timeOf: JsValue -> Option<int>) {
    TimeOrZero(v, timeOf).Some? &&
    forall i :: 0 <= i < |xs| && Truthy(Stamp(xs[i])) ==>
      timeOf(Stamp(xs[i])).Some? && timeOf(Stamp(xs[i])).value <= TimeOrZero(v, timeOf).value
  }

  /** The date `v` is `null` or the date of one of the rows. */
  predicate DateOfSomeRow(xs: seq<Indexed>, v: JsValue) {
    v == JNull || exists i :: 0 <= i < |xs| && Truthy(Stamp(xs[i])) && v == Stamp(xs[i])
  }

  /** Keeping the later date never moves the date back, and leaves it no earlier than the row's. */
  lemma BumpStep(u: ZUser, t: JsValue, timeOf: JsValue -> Option<int>)
    requires TimeOrZero(u.atualizadoEm, timeOf).Some?
    requires Truthy(t) ==> timeOf(t).Some?
    ensures var r := Bump(u, t, timeOf).atualizadoEm;
      TimeOrZero(r, timeOf).Some? && TimeOrZero(u.atualizadoEm, timeOf).value <= TimeOrZero(r, timeOf).value &&
      (Truthy(t) ==> timeOf(t).value <= TimeOrZero(r, timeOf).value) &&
      (r == u.atualizadoEm || (r == t && Truthy(t)))
  {
  }

  /** The entry of `xs + [x]` is the entry of `xs` (or a fresh one) with `x` added. */
  lemma EntrySnoc(xs: seq<Indexed>, x: Indexed, timeOf: JsValue -> Option<int>)
    ensures var cur := if xs == [] then Fresh(x) else Entry(xs, timeOf);
      Entry(xs + [x], timeOf) == Bump(cur.(departamentos := cur.departamentos + [DeptOf(x)]), Stamp(x), timeOf)
  {
    var ys := xs + [x];
    assert ys[..|ys| - 1] == xs && ys[|ys| - 1] == x;
    var prev := FoldSeq(xs, None, Adder(timeOf));
    assert FoldSeq(ys, None, Adder(timeOf)) == AddRow(prev, x, timeOf);
    if xs != [] {
      EntryContents(xs, timeOf);
      assert prev == Some(Entry(xs, timeOf));
    }
  }

  /**
   * When every date of a user's rows parses, the entry's date is the
   * latest of them: no row's date is later, and it is `null` or the date of
   * one of the rows.
   */
  lemma {:induction false} EntryLatest(xs: seq<Indexed>, timeOf: JsValue -> Option<int>)
    requires xs != [] && DatesParse(xs, timeOf)
    ensures NoLaterRow(xs, Entry(xs, timeOf).atualizadoEm, timeOf)
    ensures DateOfSomeRow(xs, Entry(xs, timeOf).atualizadoEm)
  {
    var n := |xs|;
    var x := xs[n - 1];
    var init := xs[..n - 1];
    assert xs == init + [x];
    assert forall i :: 0 <= i < n - 1 ==> init[i] == xs[i];
    var cur := if init == [] then Fresh(x) else Entry(init, timeOf);
    if init != [] {
      EntryLatest(init, timeOf);
    }
    assert TimeOrZero(cur.atualizadoEm, timeOf).Some?;
    assert NoLaterRow(init, cur.atualizadoEm, timeOf);
    assert DateOfSomeRow(xs, cur.atualizadoEm);
    EntrySnoc(init, x, timeOf);
    var pushed := cur.(departamentos := cur.departamentos + [DeptOf(x)]);
    BumpStep(pushed, Stamp(x), timeOf);
  }

  // ---------------------------------------------------------------------
  // Properties of grouped
  // ---------------------------------------------------------------------

  /** Each user entry holds one department per row of that user, in order. */
  lemma DepartmentsOfEntry(rows: seq<JsValue>, timeOf: JsValue -> Option<int>, t: nat)
    requires t < |GroupedByKey(rows, timeOf)|
    ensures GroupedByKey(rows, timeOf)[t].departamentos == MapSeq(Members(Items(rows), UserKey, Keys(rows)[t]), DeptOf)
  {
    EntryOfKey(rows, timeOf, t);
    EntryContents(Members(Items(rows), UserKey, Keys(rows)[t]), timeOf);
  }

  function DeptCount(u: ZUser): nat { |u.departamentos| }

  /** The department lists of all users together hold one department per kept row; no user is empty. */
  lemma DepartmentsPartitionRows(rows: seq<JsValue>, timeOf: JsValue -> Option<int>)
    ensures SumSizes(GroupedByKey(rows, timeOf), DeptCount) == |Items(rows)|
    ensures forall t :: 0 <= t < |GroupedByKey(rows, timeOf)| ==> GroupedByKey(rows, timeOf)[t].departamentos != []
  {
    var gs := Groups(Items(rows), UserKey, NoUser, Adder(timeOf));
    GroupsPartition(Items(rows), UserKey, NoUser, Adder(timeOf), DeptSize);
    SumSizesMap(gs, Present, DeptSize, DeptCount);
    forall t | 0 <= t < |gs| ensures DeptCount(Present(gs[t])) > 0 {
      assert DeptSize(gs[t]) > 0;
    }
  }

  /** When every date parses, each user's date is the latest date among that user's rows. */
  lemma EntryDateIsLatest(rows: seq<JsValue>, timeOf: JsValue -> Option<int>, t: nat)
    requires t < |GroupedByKey(rows, timeOf)|
    requires DatesParse(Items(rows), timeOf)
    ensures NoLaterRow(Members(Items(rows), UserKey, Keys(rows)[t]), GroupedByKey(rows, timeOf)[t].atualizadoEm, timeOf)
    ensures DateOfSomeRow(Members(Items(rows), UserKey, Keys(rows)[t]), GroupedByKey(rows, timeOf)[t].atualizadoEm)
  {
    var xs := Members(Items(rows), UserKey, Keys(rows)[t]);
    EntryOfKey(rows, timeOf, t);
    forall i | 0 <= i < |xs| && Truthy(Stamp(xs[i])) ensures timeOf(Stamp(xs[i])).Some? {
      assert xs[i] in Items(rows);
    }
    EntryLatest(xs, timeOf);
  }

  // ---------------------------------------------------------------------
  // totals
  // ---------------------------------------------------------------------

  datatype Totals = Totals(usuarios: nat, departamentos: nat, atualizadoEm: Option<int>, depList: seq<JsValue>)

  /** The departments of all users, user after user. */
  function AllDepartments(gs: seq<ZUser>): seq<JsValue> {
    if gs == [] then [] else AllDepartments(gs[..|gs| - 1]) + gs[|gs| - 1].departamentos
  }

  /** The `reduce` step: a parsed date later than the accumulator replaces it. */
  function LaterOf(acc: int, ts: Option<int>): int {
    if ts.Some? && ts.value > acc then ts.value else acc
  }

  /** `lastUpdated`: the latest user date, or `0` when none is later than the epoch. */
  function LastUpdated(gs: seq<ZUser>, timeOf: JsValue -> Option<int>): (r: int)
    ensures r >= 0
    ensures forall t :: 0 <= t < |gs| && TimeOrZero(gs[t].atualizadoEm, timeOf).Some? ==>
      TimeOrZero(gs[t].atualizadoEm, timeOf).value <= r
    ensures r == 0 || exists t :: 0 <= t < |gs| && TimeOrZero(gs[t].atualizadoEm, timeOf) == Some(r)
  {
    if gs == [] then 0
    else
      var n := |gs|;
      var prev := LastUpdated(gs[..n - 1], timeOf);
      assert forall t :: 0 <= t < n - 1 ==> gs[..n - 1][t] == gs[t];
      LaterOf(prev, TimeOrZero(gs[n - 1].atualizadoEm, timeOf))
  }

  /** One more user folds its date into the latest one. */
  lemma LastUpdatedSnoc(gs: seq<ZUser>, t: nat, timeOf: JsValue -> Option<int>)
    requires t < |gs|
    ensures LastUpdated(gs[..t + 1], timeOf) == LaterOf(LastUpdated(gs[..t], timeOf), TimeOrZero(gs[t].atualizadoEm, timeOf))
  {
    assert gs[..t + 1][..t] == gs[..t];
  }

  /** The default order of `sort()`: the values' texts in code-unit order. */
  function DeptOrder(): (JsValue, JsValue) -> bool {
    (a: JsValue, b: JsValue) => CodeUnitLe(ToStr(a), ToStr(b))
  }

  /**
   * The `depSet` loops and `Array.from(depSet).sort()`: every department of
   * every user, each once, in code-unit order of their texts.
   */
  method DepartmentList(gs: seq<ZUser>) returns (depList: seq<JsValue>)
    ensures Distinct(depList)
    ensures forall d :: d in depList <==> d in AllDepartments(gs)
    ensures forall i :: 0 < i < |depList| ==> CodeUnitLe(ToStr(depList[i - 1]), ToStr(depList[i]))
  {
    var seen := DepartmentSet(gs);
    depList := SortBy(seen, DeptOrder());
    SortByDistinct(seen, DeptOrder());
    DeptOrderTotal();
    SortBySorted(seen, DeptOrder());
    forall d ensures d in depList <==> d in seen {
      assert d in depList <==> d in multiset(depList);
    }
  }

  lemma DeptOrderTotal()
    ensures TotalBy(DeptOrder())
  {
    forall a: JsValue, b: JsValue ensures DeptOrder()(a, b) || DeptOrder()(b, a) {
      CodeUnitLeTotal(ToStr(a), ToStr(b));
    }
  }

  /** The `depSet` loops: every department of every user, each once, in the order first seen. */
  method DepartmentSet(gs: seq<ZUser>) returns (depList: seq<JsValue>)
    ensures Distinct(depList)
    ensures forall d :: d in depList <==> d in AllDepartments(gs)
  {
    depList := [];
    var t := 0;
    while t < |gs|
      invariant 0 <= t <= |gs|
      invariant Distinct(depList)
      invariant forall d :: d in depList <==> d in AllDepartments(gs[..t])
    {
      var ds := gs[t].departamentos;
      var i := 0;
      while i < |ds|
        invariant 0 <= i <= |ds|
        invariant Distinct(depList)
        invariant forall d :: d in depList <==> d in AllDepartments(gs[..t]) + ds[..i]
      {
        assert ds[..i + 1] == ds[..i] + [ds[i]];
        if ds[i] !in depList {
          depList := depList + [ds[i]];
        }
        i := i + 1;
      }
      assert ds[..i] == ds;
      assert gs[..t + 1][..t] == gs[..t];
      t := t + 1;
    }
    assert gs[..t] == gs;
  }

  /**
   * `totals`: the number of users, the distinct departments (each once)
   * and their number, and the latest date (`None` when it is `0`).
   */
  method TotalsOf(gs: seq<ZUser>, timeOf: JsValue -> Option<int>) returns (r: Totals)
    ensures r.usuarios == |gs|
    ensures Distinct(r.depList) && r.departamentos == |r.depList|
    ensures forall d :: d in r.depList <==> d in AllDepartments(gs)
    ensures r.atualizadoEm.None? <==> LastUpdated(gs, timeOf) == 0
    ensures r.atualizadoEm.Some? ==> r.atualizadoEm.value == LastUpdated(gs, timeOf)
  {
    var depList := DepartmentList(gs);
    var last := 0;
    var t := 0;
    while t < |gs|
      invariant 0 <= t <= |gs|
      invariant last == LastUpdated(gs[..t], timeOf)
    {
      LastUpdatedSnoc(gs, t, timeOf);
      last := LaterOf(last, TimeOrZero(gs[t].atualizadoEm, timeOf));
      t := t + 1;
    }
    assert gs[..t] == gs;
    r := Totals(|gs|, |depList|, if last != 0 then Some(last) else None, depList);
  }

  /** There is one user per distinct key of the kept rows, so `usuarios` counts the keys. */
  lemma UsuariosCountsKeys(rows: seq<JsValue>, timeOf: JsValue -> Option<int>)
    ensures |GroupedByKey(rows, timeOf)| == |Keys(rows)| && Distinct(Keys(rows))
    ensures forall i :: 0 <= i < |rows| && Truthy(rows[i]) ==> UserKey(Indexed(i, rows[i])) in Keys(rows)
    ensures forall k :: k in Keys(rows) ==> exists j :: 0 <= j < |Items(rows)| && UserKey(Items(rows)[j]) == k
  {
    var xs := Items(rows);
    forall i | 0 <= i < |rows| && Truthy(rows[i]) ensures UserKey(Indexed(i, rows[i])) in Keys(rows) {
      var j :| 0 <= j < |xs| && xs[j] == Indexed(i, rows[i]);
    }
    forall k | k in Keys(rows) ensures exists j :: 0 <= j < |xs| && UserKey(xs[j]) == k {
      GroupKeysOnlyRows(xs, UserKey, |xs|, k);
    }
  }

  /** When every date parses, the latest date of the totals is no earlier than any row's date. */
  lemma LastUpdatedCoversRows(rows: seq<JsValue>, timeOf: JsValue -> Option<int>, collate: (string, string) -> int, i: nat)
    requires DatesParse(Items(rows), timeOf)
    requires i < |rows| && Truthy(rows[i]) && Truthy(Get(rows[i], "atualizado_em"))
    ensures timeOf(Get(rows[i], "atualizado_em")).value <= LastUpdated(Grouped(rows, timeOf, collate), timeOf)
  {
    var t := EntryOfRow(rows, timeOf, i);
    var gs := GroupedByKey(rows, timeOf);
    var g := gs[t];
    var sorted := Grouped(rows, timeOf, collate);
    assert g in multiset(gs);
    assert multiset(sorted) == multiset(gs);
    var u :| 0 <= u < |sorted| && sorted[u] == g;
    assert TimeOrZero(sorted[u].atualizadoEm, timeOf).Some?;
  }

  /** The entry of the user of row `i` carries a date no earlier than the row's. */
  lemma EntryOfRow(rows: seq<JsValue>, timeOf: JsValue -> Option<int>, i: nat) returns (t: nat)
    requires DatesParse(Items(rows), timeOf)
    requires i < |rows| && Truthy(rows[i]) && Truthy(Get(rows[i], "atualizado_em"))
    ensures t < |GroupedByKey(rows, timeOf)|
    ensures TimeOrZero(GroupedByKey(rows, timeOf)[t].atualizadoEm, timeOf).Some?
    ensures timeOf(Get(rows[i], "atualizado_em")).value <= TimeOrZero(GroupedByKey(rows, timeOf)[t].atualizadoEm, timeOf).value
  {
    var xs := Items(rows);
    var x := Indexed(i, rows[i]);
    var j :| 0 <= j < |xs| && xs[j] == x;
    var ks := Keys(rows);
    t :| 0 <= t < |ks| && ks[t] == UserKey(x);
    var ms := Members(xs, UserKey, ks[t]);
    var m :| 0 <= m < |ms| && ms[m] == x;
    EntryDateIsLatest(rows, timeOf, t);
  }

  // ---------------------------------------------------------------------
  // filtered
  // ---------------------------------------------------------------------

  /** `${user.nome} ${user.email}`, lower-cased, contains the query (an empty query always matches). */
  predicate MatchesText(u: ZUser, q: string) {
    q == [] || Contains(Lower(ToStr(u.nome) + " " + ToStr(u.email)), q)
  }

  /** Some department of the user equals the filter, ignoring case (an empty filter always matches). */
  predicate MatchesDept(u: ZUser, dept: string) {
    dept == [] || exists i :: 0 <= i < |u.departamentos| && Lower(ToStr(Or(u.departamentos[i], JStr("")))) == Lower(dept)
  }

  function Query(search: string): string { Lower(JsTrim(search)) }

  predicate Shown(u: ZUser, search: string, dept: string) {
    MatchesText(u, Query(search)) && MatchesDept(u, dept)
  }

  function ShownBy(search: string, dept: string): ZUser -> bool {
    (u: ZUser) => Shown(u, search, dept)
  }

  /**
   * `filtered`: the users matching both filters, in the order of `grouped`;
   * a user shown is shown as many times as `grouped` lists it.
   */
  function Filtered(gs: seq<ZUser>, search: string, dept: string): (r: seq<ZUser>)
    ensures forall u :: u in r <==> u in gs && Shown(u, search, dept)
    ensures forall u :: multiset(r)[u] == if Shown(u, search, dept) then multiset(gs)[u] else 0
    ensures IsSubsequence(r, gs)
  {
    var r := Filter(gs, ShownBy(search, dept));
    FilterIsSubsequence(gs, ShownBy(search, dept));
    forall u ensures multiset(r)[u] == if Shown(u, search, dept) then multiset(gs)[u] else 0 {
      FilterMultiplicity(gs, ShownBy(search, dept), u);
    }
    r
  }

  /** With no search text and no department chosen every user is shown. */
  lemma FilteredAllWhenBlank(gs: seq<ZUser>, search: string)
    requires AllIn(search, IsJsSpace)
    ensures Filtered(gs, search, "") == gs
  {
    TrimEmptyIff(search, IsJsSpace);
    assert Query(search) == [];
    FilterAll(gs, ShownBy(search, ""));
  }
}
