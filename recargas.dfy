/**
 * The top-up ("recarga") page: each balance row the service returns is
 * read into a record, the rows are shown 100 to a page with a compact list
 * of page buttons, and the visible rows are summed into four cards.
 */
module Recargas {
  import opened Base
  import opened Js

  // ---------------------------------------------------------------------
  // Rows
  // ---------------------------------------------------------------------

  /**
   * One balance row.  `data` keeps the raw timestamp value when there is
   * one; turning it into a date is not part of this model.
   */
  datatype Recarga = Recarga(
    id: JsValue,
    equipeId: JsValue,
    equipeNome: JsValue,
    total: int,
    limite: int,
    consultas: int,
    data: Option<JsValue>)

  const DeletedTeam: string := "Equipe Excluída"

  /** `parseRow`: numbers that are missing or not numeric count as 0, a missing team name reads as deleted. */
  function ParseRow(raw: JsValue): (r: Recarga)
    ensures NumberOf(Get(raw, "total_carregado")).None? ==> r.total == 0
    ensures NumberOf(Get(raw, "limite_disponivel")).None? ==> r.limite == 0
    ensures NumberOf(Get(raw, "consultas_realizada")).None? ==> r.consultas == 0
    ensures Get(raw, "total_carregado").JNum? ==> r.total == Get(raw, "total_carregado").n
    ensures Get(raw, "limite_disponivel").JNum? ==> r.limite == Get(raw, "limite_disponivel").n
    ensures Get(raw, "consultas_realizada").JNum? ==> r.consultas == Get(raw, "consultas_realizada").n
    ensures r.id == JNull <==> IsNullish(Get(raw, "saldo_id")) && IsNullish(Get(raw, "id"))
    ensures !IsNullish(Get(raw, "saldo_id")) ==> r.id == Get(raw, "saldo_id")
    ensures !IsNullish(r.id) || r.id == JNull
    ensures IsNullish(Get(raw, "equipe_id")) ==> r.equipeId == JNull
    ensures Truthy(r.equipeNome)
    ensures !Truthy(Get(raw, "equipe_nome")) ==> r.equipeNome == JStr(DeletedTeam)
    ensures r.data.Some? <==> Truthy(Get(raw, "data_saldo_carregado"))
    ensures !raw.JObj? ==> r.total == 0 && r.limite == 0 && r.consultas == 0 && r.id == JNull && r.data.None?
  {
    var when := Get(raw, "data_saldo_carregado");
    Recarga(
      id := Coalesce(Coalesce(Get(raw, "saldo_id"), Get(raw, "id")), JNull),
      equipeId := Coalesce(Get(raw, "equipe_id"), JNull),
      equipeNome := Or(Get(raw, "equipe_nome"), JStr(DeletedTeam)),
      total := NumberOrZero(Get(raw, "total_carregado")),
      limite := NumberOrZero(Get(raw, "limite_disponivel")),
      consultas := NumberOrZero(Get(raw, "consultas_realizada")),
      data := if Truthy(when) then Some(when) else None)
  }

  /** A parsed row, kept only when it has an id (`.filter(r => r.id != null)`). */
  function Keep(raw: JsValue): Option<Recarga>
  {
    var r := ParseRow(raw);
    if r.id == JNull then None else Some(r)
  }

  /**
   * The rows the page loads: a response that is not an array is an error
   * (`None`), otherwise every element is parsed and the rows without an id
   * are dropped.
   */
  function LoadRows(data: JsValue): (r: Option<seq<Recarga>>)
    ensures r.None? <==> !data.JArr?
    ensures r.Some? ==> |r.value| <= |data.items|
  {
    if data.JArr? then Some(FilterMap(data.items, Keep)) else None
  }

  /** A raw row carries a `saldo_id` or an `id`. */
  predicate HasId(raw: JsValue) { !(IsNullish(Get(raw, "saldo_id")) && IsNullish(Get(raw, "id"))) }

  /** Every loaded row has an id, and every element with a `saldo_id` or an `id` is loaded. */
  lemma LoadRowsExact(data: JsValue)
    requires data.JArr?
    ensures forall r :: r in LoadRows(data).value ==> r.id != JNull
    ensures forall j :: 0 <= j < |data.items| && HasId(data.items[j]) ==> ParseRow(data.items[j]) in LoadRows(data).value
  {
    var rows := LoadRows(data).value;
    forall r | r in rows
      ensures r.id != JNull
    {
      var k :| 0 <= k < |rows| && rows[k] == r;
      FilterMapFrom(data.items, Keep, k);
    }
    forall j | 0 <= j < |data.items| && HasId(data.items[j])
      ensures ParseRow(data.items[j]) in rows
    {
      FilterMapKeeps(data.items, Keep, j);
    }
  }

  // ---------------------------------------------------------------------
  // Cards
  // ---------------------------------------------------------------------

  /** `rows.reduce((acc, row) => acc + f(row), 0)`. */
  function SumOf(rows: seq<Recarga>, f: Recarga -> int): int
  {
    if rows == [] then 0 else SumOf(rows[..|rows| - 1], f) + f(rows[|rows| - 1])
  }

  /** The key a row's team is counted under: its id, or its name when it has none. */
  function TeamKey(row: Recarga): JsValue { Coalesce(row.equipeId, row.equipeNome) }

  /** The distinct team keys of the rows (`new Set(rows.map(...))`). */
  function TeamKeys(rows: seq<Recarga>): (keys: set<JsValue>)
    ensures forall j :: 0 <= j < |rows| ==> TeamKey(rows[j]) in keys
    ensures forall k :: k in keys ==> exists j :: 0 <= j < |rows| && TeamKey(rows[j]) == k
  {
    if rows == [] then {}
    else
      var prev := TeamKeys(rows[..|rows| - 1]);
      assert forall j :: 0 <= j < |rows| - 1 ==> rows[..|rows| - 1][j] == rows[j];
      prev + {TeamKey(rows[|rows| - 1])}
  }

  /** There are no more team keys than rows, and at least one when there is a row. */
  lemma {:induction false} TeamKeysBound(rows: seq<Recarga>)
    ensures |TeamKeys(rows)| <= |rows|
    ensures rows != [] ==> TeamKeys(rows) != {}
  {
    if rows != [] {
      var prev := rows[..|rows| - 1];
      TeamKeysBound(prev);
      assert TeamKeys(rows) == TeamKeys(prev) + {TeamKey(rows[|rows| - 1])};
    }
  }

  datatype Stats = Stats(totalCarregado: int, limiteDisponivel: int, consultas: int, totalEquipes: nat)

  /** The four summary cards over the visible rows. */
  function StatsOf(rows: seq<Recarga>): (s: Stats)
    ensures s.totalEquipes <= |rows|
    ensures s.totalEquipes == 0 <==> rows == []
  {
    TeamKeysBound(rows);
    Stats(
      SumOf(rows, (r: Recarga) => r.total),
      SumOf(rows, (r: Recarga) => r.limite),
      SumOf(rows, (r: Recarga) => r.consultas),
      |TeamKeys(rows)|)
  }

  lemma {:induction false} SumOfAppend(a: seq<Recarga>, b: seq<Recarga>, f: Recarga -> int)
    ensures SumOf(a + b, f) == SumOf(a, f) + SumOf(b, f)
    decreases |b|
  {
    if b == [] {
      assert a + b == a;
    } else {
      assert (a + b)[..|a + b| - 1] == a + b[..|b| - 1];
      SumOfAppend(a, b[..|b| - 1], f);
    }
  }

  /** The sums are additive: the cards of two lists of rows add up to the cards of both together. */
  lemma StatsAppend(a: seq<Recarga>, b: seq<Recarga>)
    ensures StatsOf(a + b).totalCarregado == StatsOf(a).totalCarregado + StatsOf(b).totalCarregado
    ensures StatsOf(a + b).limiteDisponivel == StatsOf(a).limiteDisponivel + StatsOf(b).limiteDisponivel
    ensures StatsOf(a + b).consultas == StatsOf(a).consultas + StatsOf(b).consultas
    ensures StatsOf(a + b).totalEquipes <= StatsOf(a).totalEquipes + StatsOf(b).totalEquipes
  {
    SumOfAppend(a, b, (r: Recarga) => r.total);
    SumOfAppend(a, b, (r: Recarga) => r.limite);
    SumOfAppend(a, b, (r: Recarga) => r.consultas);
    var ka, kb, kab := TeamKeys(a), TeamKeys(b), TeamKeys(a + b);
    forall k | k in kab
      ensures k in ka + kb
    {
      var j :| 0 <= j < |a + b| && TeamKey((a + b)[j]) == k;
      if j < |a| {
        assert (a + b)[j] == a[j];
      } else {
        assert (a + b)[j] == b[j - |a|];
      }
    }
    assert kab <= ka + kb;
    SubsetCard(kab, ka + kb);
  }

  lemma SubsetCard<T>(a: set<T>, b: set<T>)
    requires a <= b
    ensures |a| <= |b|
  {
    assert b == a + (b - a);
  }

  /** A row whose numbers are all non-negative keeps every sum non-negative. */
  lemma {:induction false} SumOfNonNegative(rows: seq<Recarga>, f: Recarga -> int)
    requires forall j :: 0 <= j < |rows| ==> f(rows[j]) >= 0
    ensures SumOf(rows, f) >= 0
  {
    if rows != [] {
      SumOfNonNegative(rows[..|rows| - 1], f);
    }
  }

  // ---------------------------------------------------------------------
  // Pages
  // ---------------------------------------------------------------------

  const RowsPerPage: nat := 100

  /** `Math.ceil(len / ROWS_PER_PAGE)`. */
  function PageCount(len: nat): (n: nat)
    ensures n * RowsPerPage >= len
    ensures n > 0 ==> (n - 1) * RowsPerPage < len
  {
    (len + RowsPerPage - 1) / RowsPerPage
  }

  /** `totalPages`: at least one page, even when there are no rows. */
  function TotalPages(len: nat): (n: nat)
    ensures n >= 1
    ensures n == 1 <==> len <= RowsPerPage
    ensures len > 0 ==> n == PageCount(len)
  {
    if PageCount(len) < 1 then 1 else PageCount(len)
  }

  /** `hasPagination` holds exactly when there is more than one page. */
  lemma HasPaginationIff(len: nat)
    ensures len > RowsPerPage <==> TotalPages(len) > 1
    ensures len > RowsPerPage <==> PageCount(len) > 1
  {
  }

  /**
   * `paginatedRows`: the page `page` (counted from 1) holds at most 100
   * rows, the ones at the matching positions of the list, and any page
   * between 1 and the last one of a non-empty list holds at least one row.
   */
  function PageRows<T>(rows: seq<T>, page: int): (r: seq<T>)
    ensures |r| <= RowsPerPage
    ensures page >= 1 ==> forall t :: 0 <= t < |r| ==> (page - 1) * RowsPerPage + t < |rows| && r[t] == rows[(page - 1) * RowsPerPage + t]
    ensures 1 <= page <= TotalPages(|rows|) && rows != [] ==> r != []
  {
    var start := (page - 1) * RowsPerPage;
    JsSlice(rows, start, start + RowsPerPage)
  }

  /**
   * The current page of the table.  It starts at 1, goes back to 1 when
   * the search or the dates change, and is pulled down to the last page
   * when the list shrinks below it.
   */
  class Pager {
    var currentPage: int

    predicate Valid()
      reads this
    {
      currentPage >= 1
    }

    constructor ()
      ensures Valid() && currentPage == 1
    {
      currentPage := 1;
    }

    /** A new search or date range shows the first page again. */
    method Reset()
      modifies this
      ensures Valid() && currentPage == 1
    {
      currentPage := 1;
    }

    /** The effect that keeps the page within the list: a page past the end becomes the last page. */
    method Clamp(len: nat)
      requires Valid()
      modifies this
      ensures Valid()
      ensures 1 <= currentPage <= TotalPages(len)
      ensures old(currentPage) <= TotalPages(len) ==> currentPage == old(currentPage)
      ensures old(currentPage) > TotalPages(len) ==> currentPage == TotalPages(len)
    {
      var total := TotalPages(len);
      if currentPage > total {
        currentPage := total;
      }
    }

    /** The "previous" button: one page back, never before the first. */
    method Previous()
      requires Valid()
      modifies this
      ensures Valid()
      ensures currentPage == if old(currentPage) - 1 < 1 then 1 else old(currentPage) - 1
    {
      currentPage := if currentPage - 1 < 1 then 1 else currentPage - 1;
    }

    /** The "next" button: one page on, never past the last. */
    method Next(len: nat)
      requires Valid()
      modifies this
      ensures Valid()
      ensures currentPage <= TotalPages(len)
      ensures old(currentPage) < TotalPages(len) ==> currentPage == old(currentPage) + 1
      ensures old(currentPage) >= TotalPages(len) ==> currentPage == TotalPages(len)
    {
      var total := TotalPages(len);
      currentPage := if total < currentPage + 1 then total else currentPage + 1;
    }

    /** A page button: it only offers pages of the list, so the page stays valid. */
    method Select(page: int)
      requires page >= 1
      modifies this
      ensures Valid() && currentPage == page
    {
      currentPage := page;
    }
  }

  // ---------------------------------------------------------------------
  // Page buttons
  // ---------------------------------------------------------------------

  /** A button of the pager: a page number, or an ellipsis standing for the pages between two shown ones. */
  datatype PageItem = Page(page: int) | Ellipsis(prev: int, next: int)

  /** The pages offered: the first, the last, the current one and up to two on each side of it strictly inside the range. */
  function ShownPages(total: int, current: int): (s: set<int>)
    ensures 1 in s && total in s && current in s
    ensures forall p :: p in s ==> p == 1 || p == total || p == current || (current - 2 <= p <= current + 2 && 1 < p < total)
  {
    {1, total, current} + Window(current - 2, current + 3, total)
  }

  /** The pages in `[lo, hi)` strictly between the first and the last page. */
  function Window(lo: int, hi: int, total: int): (s: set<int>)
    ensures forall p :: p in s <==> lo <= p < hi && 1 < p < total
    decreases hi - lo
  {
    if hi <= lo then {}
    else Window(lo, hi - 1, total) + (if 1 < hi - 1 < total then {hi - 1} else {})
  }

  /** The elements of `s` in `[lo, hi]`, in ascending order (`Array.from(set).sort((a, b) => a - b)`). */
  function Ascending(s: set<int>, lo: int, hi: int): (r: seq<int>)
    ensures forall a, b :: 0 <= a < b < |r| ==> r[a] < r[b]
    ensures forall t :: 0 <= t < |r| ==> r[t] in s && lo <= r[t] <= hi
    ensures forall p :: p in s && lo <= p <= hi ==> p in r
    decreases hi - lo
  {
    if hi < lo then []
    else
      var rest := Ascending(s, lo, hi - 1);
      if hi in s then rest + [hi] else rest
  }

  /** The pager items for a list of ascending pages: each page, with an ellipsis before it when pages were skipped. */
  function Items(pages: seq<int>): (r: seq<PageItem>)
  {
    if pages == [] then []
    else
      var n := |pages|;
      Items(pages[..n - 1])
        + (if n > 1 && pages[n - 1] - pages[n - 2] > 1 then [Ellipsis(pages[n - 2], pages[n - 1])] else [])
        + [Page(pages[n - 1])]
  }

  /** The page numbers of a list of items, in order. */
  function PagesOf(items: seq<PageItem>): seq<int>
  {
    if items == [] then []
    else PagesOf(items[..|items| - 1]) + (if items[|items| - 1].Page? then [items[|items| - 1].page] else [])
  }

  lemma {:induction false} PagesOfAppend(a: seq<PageItem>, b: seq<PageItem>)
    ensures PagesOf(a + b) == PagesOf(a) + PagesOf(b)
    decreases |b|
  {
    if b == [] {
      assert a + b == a;
    } else {
      assert (a + b)[..|a + b| - 1] == a + b[..|b| - 1];
      PagesOfAppend(a, b[..|b| - 1]);
    }
  }

  /** The page buttons list exactly the given pages, in order. */
  lemma {:induction false} ItemsPages(pages: seq<int>)
    ensures PagesOf(Items(pages)) == pages
  {
    if pages != [] {
      var n := |pages|;
      var gap := if n > 1 && pages[n - 1] - pages[n - 2] > 1 then [Ellipsis(pages[n - 2], pages[n - 1])] else [];
      ItemsPages(pages[..n - 1]);
      PagesOfAppend(Items(pages[..n - 1]) + gap, [Page(pages[n - 1])]);
      PagesOfAppend(Items(pages[..n - 1]), gap);
      assert pages[..n - 1] + [pages[n - 1]] == pages;
    }
  }

  /** The last item of a non-empty list of items is the last page. */
  lemma {:induction false} ItemsLast(pages: seq<int>)
    requires pages != []
    ensures Items(pages) != [] && Items(pages)[|Items(pages)| - 1] == Page(pages[|pages| - 1])
  {
  }

  /**
   * Ellipses sit only between two pages with a gap, and two pages next to
   * each other in the list are consecutive numbers.
   */
  predicate WellSpaced(items: seq<PageItem>)
  {
    (forall t :: 0 <= t < |items| && items[t].Ellipsis? ==>
      0 < t < |items| - 1 && items[t - 1] == Page(items[t].prev) && items[t + 1] == Page(items[t].next)
      && items[t].next - items[t].prev > 1)
    && (forall t :: 0 <= t < |items| - 1 && items[t].Page? && items[t + 1].Page? ==> items[t + 1].page == items[t].page + 1)
    && (items != [] ==> items[0].Page? && items[|items| - 1].Page?)
  }

  lemma {:induction false} ItemsWellSpaced(pages: seq<int>)
    requires forall a, b :: 0 <= a < b < |pages| ==> pages[a] < pages[b]
    ensures WellSpaced(Items(pages))
  {
    if pages != [] {
      var n := |pages|;
      var init := pages[..n - 1];
      var prev := Items(init);
      ItemsWellSpaced(init);
      if n > 1 {
        ItemsLast(init);
        assert prev[|prev| - 1] == Page(pages[n - 2]);
      }
      var gap := if n > 1 && pages[n - 1] - pages[n - 2] > 1 then [Ellipsis(pages[n - 2], pages[n - 1])] else [];
      assert Items(pages) == prev + gap + [Page(pages[n - 1])];
      AppendPageWellSpaced(prev, gap, pages[n - 1]);
    }
  }

  /** The gap written before page `p` when the previous page is `q`. */
  function GapBefore(q: int, p: int): seq<PageItem> {
    if p - q > 1 then [Ellipsis(q, p)] else []
  }

  /** Page `p` is above the last page of `prev`, and `gap` is the ellipsis their distance needs. */
  predicate FitsAfter(prev: seq<PageItem>, gap: seq<PageItem>, p: int) {
    if prev == [] then gap == []
    else prev[|prev| - 1].Page? && prev[|prev| - 1].page < p && gap == GapBefore(prev[|prev| - 1].page, p)
  }

  /** A page above the last one, after the ellipsis its gap needs, keeps the list well spaced. */
  lemma AppendPageWellSpaced(prev: seq<PageItem>, gap: seq<PageItem>, p: int)
    requires WellSpaced(prev) && FitsAfter(prev, gap, p)
    ensures WellSpaced(prev + gap + [Page(p)])
  {
    AppendEllipsesPlaced(prev, gap, p);
    AppendPagesConsecutive(prev, gap, p);
  }

  lemma AppendEllipsesPlaced(prev: seq<PageItem>, gap: seq<PageItem>, p: int)
    requires WellSpaced(prev) && FitsAfter(prev, gap, p)
    ensures var all := prev + gap + [Page(p)];
      forall t :: 0 <= t < |all| && all[t].Ellipsis? ==>
        0 < t < |all| - 1 && all[t - 1] == Page(all[t].prev) && all[t + 1] == Page(all[t].next)
        && all[t].next - all[t].prev > 1
  {
    var all := prev + gap + [Page(p)];
    forall t | 0 <= t < |all| && all[t].Ellipsis?
      ensures 0 < t < |all| - 1 && all[t - 1] == Page(all[t].prev) && all[t + 1] == Page(all[t].next)
      ensures all[t].next - all[t].prev > 1
    {
      if t < |prev| {
        assert all[t - 1] == prev[t - 1];
        assert t + 1 < |prev|;
        assert all[t + 1] == prev[t + 1];
      }
    }
  }

  lemma AppendPagesConsecutive(prev: seq<PageItem>, gap: seq<PageItem>, p: int)
    requires WellSpaced(prev) && FitsAfter(prev, gap, p)
    ensures var all := prev + gap + [Page(p)];
      forall t :: 0 <= t < |all| - 1 && all[t].Page? && all[t + 1].Page? ==> all[t + 1].page == all[t].page + 1
  {
    var all := prev + gap + [Page(p)];
    forall t | 0 <= t < |all| - 1 && all[t].Page? && all[t + 1].Page?
      ensures all[t + 1].page == all[t].page + 1
    {
      if t + 1 < |prev| {
        assert all[t] == prev[t] && all[t + 1] == prev[t + 1];
      } else {
        assert gap == [];
        assert t == |prev| - 1;
      }
    }
  }

  /**
   * `paginationItems`: nothing when there is at most one page; otherwise
   * the shown pages in ascending order, with an ellipsis wherever pages
   * are skipped.
   */
  method PaginationItems(len: nat, currentPage: int) returns (items: seq<PageItem>)
    ensures items == Pagination(len, currentPage)
  {
    var total := PageCount(len);
    if total <= 1 {
      return [];
    }
    var pages := WindowLoop(total, currentPage);
    var sorted := Ascending(pages, Lowest(currentPage), Highest(total, currentPage));
    assert sorted == PageList(total, currentPage);
    items := ItemsLoop(sorted);
  }

  /** The set of pages to show, built as the page does: the three fixed pages, then the window around the current one. */
  method WindowLoop(total: int, currentPage: int) returns (pages: set<int>)
    ensures pages == ShownPages(total, currentPage)
  {
    pages := {1, total, currentPage};
    var i := currentPage - 2;
    while i <= currentPage + 2
      invariant currentPage - 2 <= i <= currentPage + 3
      invariant pages == {1, total, currentPage} + Window(currentPage - 2, i, total)
      decreases currentPage + 2 - i
    {
      if i > 1 && i < total {
        pages := pages + {i};
      }
      i := i + 1;
    }
  }

  /** The loop that turns ascending pages into pager items. */
  method ItemsLoop(sorted: seq<int>) returns (items: seq<PageItem>)
    ensures items == Items(sorted)
  {
    items := [];
    var k := 0;
    while k < |sorted|
      invariant 0 <= k <= |sorted|
      invariant items == Items(sorted[..k])
    {
      var page := sorted[k];
      assert sorted[..k + 1][..k] == sorted[..k];
      if k > 0 {
        var prev := sorted[k - 1];
        if page - prev > 1 {
          items := items + [Ellipsis(prev, page)];
        }
      }
      items := items + [Page(page)];
      k := k + 1;
    }
    assert sorted[..k] == sorted;
  }

  /** The items `paginationItems` lists for a list of `len` rows, as a value. */
  function Pagination(len: nat, currentPage: int): seq<PageItem>
  {
    var total := PageCount(len);
    if total <= 1 then [] else Items(PageList(total, currentPage))
  }

  /** The smallest page that can be shown. */
  function Lowest(current: int): int { if current < 1 then current else 1 }

  /** The largest page that can be shown. */
  function Highest(total: int, current: int): int { if current > total then current else total }

  /** The pages shown for `total` pages with `current` the current one, in ascending order. */
  function PageList(total: int, current: int): seq<int>
  {
    Ascending(ShownPages(total, current), Lowest(current), Highest(total, current))
  }

  /** An ascending list that holds `a` and `b` and nothing outside `[a, b]` starts at `a` and ends at `b`. */
  lemma AscendingEnds(pages: seq<int>, a: int, b: int)
    requires forall x, y :: 0 <= x < y < |pages| ==> pages[x] < pages[y]
    requires a in pages && b in pages
    requires forall t :: 0 <= t < |pages| ==> a <= pages[t] <= b
    ensures pages != [] && pages[0] == a && pages[|pages| - 1] == b
  {
    var i :| 0 <= i < |pages| && pages[i] == a;
    assert pages[0] <= pages[i];
    var j :| 0 <= j < |pages| && pages[j] == b;
    assert pages[j] <= pages[|pages| - 1];
  }

  /** For a current page within the list, the shown pages run from 1 to the last page and include the neighbours. */
  lemma PageListShape(total: int, current: int)
    requires 1 <= current <= total && total > 1
    ensures var pages := PageList(total, current);
      && pages != [] && pages[0] == 1 && pages[|pages| - 1] == total
      && (forall a, b :: 0 <= a < b < |pages| ==> pages[a] < pages[b])
      && (forall p :: current - 2 <= p <= current + 2 && 1 <= p <= total ==> p in pages)
      && (forall p :: p in pages ==> 1 <= p <= total)
  {
    var s := ShownPages(total, current);
    var pages := PageList(total, current);
    assert Lowest(current) == 1 && Highest(total, current) == total;
    assert 1 in pages && total in pages;
    AscendingEnds(pages, 1, total);
    forall p | current - 2 <= p <= current + 2 && 1 <= p <= total
      ensures p in pages
    {
      assert p in s;
    }
  }

  /**
   * What the page buttons promise: for a list with more than one page the
   * pages are strictly increasing, start at 1 and end at the last page,
   * include the current page and its neighbours, and an ellipsis appears
   * only across a gap.
   */
  lemma PaginationShape(len: nat, currentPage: int)
    requires 1 <= currentPage <= PageCount(len)
    ensures Pagination(len, currentPage) == [] <==> PageCount(len) <= 1
    ensures WellSpaced(Pagination(len, currentPage))
    ensures PageCount(len) > 1 ==> PagesOf(Pagination(len, currentPage)) == PageList(PageCount(len), currentPage)
  {
    var total := PageCount(len);
    if total > 1 {
      var pages := PageList(total, currentPage);
      PageListShape(total, currentPage);
      ItemsWellSpaced(pages);
      ItemsPages(pages);
      ItemsLast(pages);
    }
  }
}
