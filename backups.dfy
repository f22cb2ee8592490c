/**
 * The backups health page (src/pages/Backups.jsx): the status badge of a
 * server, the duration text of a backup period, the list of backed-up
 * tables merged from the two lists a server reports, and the totals shown
 * over all servers.
 */
module Backups {
  import opened Base
  import opened Js

  // ---------------------------------------------------------------------
  // formatTimerHours
  // ---------------------------------------------------------------------

  /** `Math.round(hours * 3600)`: half a second rounds up. */
  function RoundSeconds(hours: real): (t: int)
    ensures t as real - 0.5 <= hours * 3600.0 < t as real + 0.5
    ensures hours > 0.0 ==> t >= 0
  {
    (hours * 3600.0 + 0.5).Floor
  }

  /** A duration in whole hours, minutes below an hour and seconds below a minute. */
  datatype Clock = Clock(h: nat, m: nat, s: nat)

  /** The hours/minutes/seconds split of a number of seconds. */
  function Decompose(total: nat): (c: Clock)
    ensures c.h * 3600 + c.m * 60 + c.s == total
    ensures c.m < 60 && c.s < 60
  {
    DecomposeParts(total);
    Clock(total / 3600, (total % 3600) / 60, total % 60)
  }

  lemma DecomposeParts(total: nat)
    ensures (total / 3600) * 3600 + ((total % 3600) / 60) * 60 + total % 60 == total
    ensures (total % 3600) / 60 < 60
  {
    var h, r := total / 3600, total % 3600;
    assert total == h * 3600 + r;
    var m, s := r / 60, r % 60;
    assert r == m * 60 + s && s < 60;
    assert total == (h * 60 + m) * 60 + s;
    DivMod60(total, h * 60 + m, s);
  }

  /** The split is the only one with minutes and seconds below 60. */
  lemma DecomposeUnique(total: nat, c: Clock)
    requires c.h * 3600 + c.m * 60 + c.s == total && c.m < 60 && c.s < 60
    ensures Decompose(total) == c
  {
    var r := c.m * 60 + c.s;
    DivMod3600(total, c.h, r);
    DivMod60(r, c.m, c.s);
    DivMod60(total, c.h * 60 + c.m, c.s);
  }

  /** Division by 3600 with remainder has one answer. */
  lemma DivMod3600(n: nat, q: nat, r: nat)
    requires r < 3600 && n == q * 3600 + r
    ensures n / 3600 == q && n % 3600 == r
  {
  }

  /** Division by 60 with remainder has one answer. */
  lemma DivMod60(n: nat, q: nat, r: nat)
    requires r < 60 && n == q * 60 + r
    ensures n / 60 == q && n % 60 == r
  {
  }

  /** The largest nonzero unit: hours (with minutes when there are any), else minutes, else seconds. */
  function ClockText(c: Clock): (r: string)
    ensures EndsWith(r, "h") <==> c.h > 0 && c.m == 0
    ensures EndsWith(r, "min") <==> c.m > 0
    ensures EndsWith(r, "s") <==> c.h == 0 && c.m == 0
  {
    var n :=
      if c.h > 0 then (if c.m > 0 then NatToString(c.h) + "h " + NatToString(c.m) else NatToString(c.h))
      else if c.m > 0 then NatToString(c.m) else NatToString(c.s);
    var unit := if c.m > 0 then "min" else if c.h > 0 then "h" else "s";
    UnitEnds(n, unit);
    n + unit
  }

  /** A number followed by its unit ends with that unit and with no other. */
  lemma UnitEnds(n: string, unit: string)
    requires n != [] && IsDigit(n[|n| - 1])
    requires unit == "h" || unit == "min" || unit == "s"
    ensures EndsWith(n + unit, "h") <==> unit == "h"
    ensures EndsWith(n + unit, "min") <==> unit == "min"
    ensures EndsWith(n + unit, "s") <==> unit == "s"
  {
    var r := n + unit;
    assert r[|r| - |unit|..] == unit;
    assert r[|r| - 1] == unit[|unit| - 1];
    if unit != "min" && |r| >= 3 {
      assert r[|r| - 3..][2] == r[|r| - 1];
    }
  }

  /**
   * `formatTimerHours`: `-` when the hours are not a finite number, `0min`
   * when they are not positive, otherwise the rounded number of seconds
   * shown by its largest nonzero unit.
   */
  function FormatTimerHours(hours: Option<real>): (r: string)
    ensures hours.None? ==> r == "-"
    ensures hours.Some? && hours.value <= 0.0 ==> r == "0min"
    ensures hours.Some? && hours.value > 0.0 ==> r == ClockText(Decompose(RoundSeconds(hours.value)))
  {
    match hours
    case None => "-"
    case Some(x) =>
      if x <= 0.0 then "0min"
      else
        var total := RoundSeconds(x);
        var hs := total / 3600;
        var ms := (total % 3600) / 60;
        var ss := total % 60;
        ClockText(Clock(hs, ms, ss))
  }

  /** A positive duration under half a second shows as `0s`; a whole number of hours shows as hours alone. */
  lemma FormatTimerExamples(n: nat)
    ensures FormatTimerHours(Some(0.0001)) == "0s"
    ensures n > 0 ==> FormatTimerHours(Some(n as real)) == NatToString(n) + "h"
  {
    if n > 0 {
      assert RoundSeconds(n as real) == n * 3600;
      DecomposeUnique(n * 3600, Clock(n, 0, 0));
    }
  }

  // ---------------------------------------------------------------------
  // getStatusMeta
  // ---------------------------------------------------------------------

  datatype StatusMeta = StatusMeta(caption: string, color: string)

  const Critical := StatusMeta("Crítico", "#ff4d4f")
  const Attention := StatusMeta("Atenção", "#f7c948")
  const Healthy := StatusMeta("OK", "#22c55e")

  /** `getStatusMeta`: any error is critical; otherwise any pending table needs attention; otherwise OK. */
  function GetStatusMeta(pendingCount: nat, errorsCount: nat): (r: StatusMeta)
    ensures r == Critical <==> errorsCount > 0
    ensures r == Attention <==> errorsCount == 0 && pendingCount > 0
    ensures r == Healthy <==> errorsCount == 0 && pendingCount == 0
  {
    if errorsCount > 0 then Critical
    else if pendingCount > 0 then Attention
    else Healthy
  }

  function Severity(m: StatusMeta): nat {
    if m == Critical then 2 else if m == Attention then 1 else 0
  }

  /** More errors or more pending tables never make the badge less severe. */
  lemma StatusMonotone(p1: nat, e1: nat, p2: nat, e2: nat)
    requires p1 <= p2 && e1 <= e2
    ensures Severity(GetStatusMeta(p1, e1)) <= Severity(GetStatusMeta(p2, e2))
  {
  }

  // ---------------------------------------------------------------------
  // normalizeBackedUpTables
  // ---------------------------------------------------------------------

  /** `a?.[k1] ?? a?.[k2] ?? … ?? ''`: the first property that is not `null`/`undefined`. */
  function FirstPresent(item: JsValue, keys: seq<string>): (r: JsValue)
    ensures !IsNullish(r)
    ensures keys != [] && !IsNullish(Get(item, keys[0])) ==> r == Get(item, keys[0])
  {
    if keys == [] then JStr("") else Coalesce(Get(item, keys[0]), FirstPresent(item, keys[1..]))
  }

  const NameKeys: seq<string> := ["name_database", "database", "table", "tabela", "name"]
  const BackupKeys: seq<string> := ["last_backup", "latest_backup", "lastead_backup", "backup_at", "datetime"]

  /** `normalizeTableName`. */
  function TableName(item: JsValue): string { JsTrim(ToStr(FirstPresent(item, NameKeys))) }

  /** `normalizeTableLastBackup`. */
  function TableBackup(item: JsValue): string { JsTrim(ToStr(FirstPresent(item, BackupKeys))) }

  /** `normalizeTableKey` of a text: trimmed and lower-cased. */
  function TableKey(s: string): (r: string)
    ensures |r| == |JsTrim(s)|
  {
    Lower(JsTrim(s))
  }

  /** `item && typeof item === 'object'`. */
  predicate IsObjectItem(item: JsValue) { Truthy(item) && IsObjectType(item) }

  /** What the page reads from one entry of a table list: whether it is an object, its name, name key and backup time. */
  datatype Listing = Listing(isObject: bool, name: string, key: string, backup: string)

  function ListingOf(item: JsValue): (l: Listing)
    ensures l.key == TableKey(l.name)
  {
    Listing(IsObjectItem(item), TableName(item), TableKey(TableName(item)), TableBackup(item))
  }

  /** An entry the lookup map keeps: an object with a name and a backup time. */
  predicate Listed(l: Listing) { l.isObject && l.key != [] && l.backup != [] }

  /**
   * The lookup map after the first `n` entries: the first backup time listed
   * for each key wins.  `info` is what the page reads from an entry.
   */
  function LastBackupMap(src: seq<JsValue>, info: JsValue -> Listing, n: nat): (m: map<string, string>)
    requires n <= |src|
    ensures forall k :: k in m ==> m[k] != []
  {
    if n == 0 then map[]
    else
      var m := LastBackupMap(src, info, n - 1);
      var l := info(src[n - 1]);
      if !Listed(l) || l.key in m then m else m[l.key := l.backup]
  }

  /**
   * A key in the map comes from the first entry that lists it, and maps to
   * that entry's backup time.
   */
  lemma {:induction false} LastBackupFirst(src: seq<JsValue>, info: JsValue -> Listing, n: nat, k: string) returns (i: nat)
    requires n <= |src| && k in LastBackupMap(src, info, n)
    ensures i < n && Listed(info(src[i])) && info(src[i]).key == k
    ensures LastBackupMap(src, info, n)[k] == info(src[i]).backup
    ensures forall j :: 0 <= j < i ==> !(Listed(info(src[j])) && info(src[j]).key == k)
  {
    var m := LastBackupMap(src, info, n - 1);
    if k in m {
      i := LastBackupFirst(src, info, n - 1, k);
    } else {
      i := n - 1;
      forall j | 0 <= j < i ensures !(Listed(info(src[j])) && info(src[j]).key == k) {
        if Listed(info(src[j])) {
          LastBackupListed(src, info, n - 1, j);
        }
      }
    }
  }

  /** Every listed entry's key is in the map. */
  lemma {:induction false} LastBackupListed(src: seq<JsValue>, info: JsValue -> Listing, n: nat, j: nat)
    requires j < n <= |src| && Listed(info(src[j]))
    ensures info(src[j]).key in LastBackupMap(src, info, n)
  {
    if j < n - 1 {
      LastBackupListed(src, info, n - 1, j);
    }
  }

  /** The first loop of `normalizeBackedUpTables`, over what is read from each entry. */
  method FirstBackups(src: seq<JsValue>, info: JsValue -> Listing) returns (m: map<string, string>)
    ensures m == LastBackupMap(src, info, |src|)
  {
    m := map[];
    var i := 0;
    while i < |src|
      invariant 0 <= i <= |src|
      invariant m == LastBackupMap(src, info, i)
    {
      var l := info(src[i]);
      if l.isObject && l.key != [] && l.backup != [] && l.key !in m {
        m := m[l.key := l.backup];
      }
      i := i + 1;
    }
  }

  datatype TableRow = TableRow(key: string, name: string, lastBackup: string)

  /** `String(lastBackupMap.get(key) || '')`. */
  function MapGet(m: map<string, string>, key: string): string {
    if key in m then m[key] else ""
  }

  /** The row one entry of the table list gives, or none when it names nothing. */
  function PrimaryRow(item: JsValue, idx: nat, m: map<string, string>): (r: Option<TableRow>)
    ensures r.Some? && IsObjectItem(item) ==> r.value.name != []
    ensures r.Some? && !IsObjectItem(item) ==> r.value.name == JsTrim(TextOf(item)) != []
  {
    if IsObjectItem(item) then
      var name := TableName(item);
      var direct := TableBackup(item);
      if name == [] && direct == [] then None
      else
        var key := TableKey(name);
        Some(TableRow(
          "obj-" + NatToString(idx) + "-" + (if name != [] then name else direct),
          if name != [] then name else "Tabela " + NatToString(idx + 1),
          if direct != [] then direct else if key != [] then MapGet(m, key) else ""))
    else
      var rawName := JsTrim(TextOf(item));
      if rawName == [] then None
      else
        var key := TableKey(rawName);
        Some(TableRow("str-" + NatToString(idx) + "-" + rawName, rawName, if key != [] then MapGet(m, key) else ""))
  }

  /** The rows of the first `n` entries of the table list (`map` then `filter(Boolean)`). */
  function PrimaryRows(tables: seq<JsValue>, m: map<string, string>, n: nat): (rows: seq<TableRow>)
    requires n <= |tables|
    ensures |rows| <= n
  {
    if n == 0 then []
    else PrimaryRows(tables, m, n - 1) + (match PrimaryRow(tables[n - 1], n - 1, m) case Some(r) => [r] case None => [])
  }

  /** The normalized names of some rows. */
  function KeysOf(rows: seq<TableRow>): set<string> {
    set i | 0 <= i < |rows| :: TableKey(rows[i].name)
  }

  /** The rows so far and the `existing` set of normalized names. */
  datatype Acc = Acc(rows: seq<TableRow>, existing: set<string>)

  /** One entry of the last-backup list in the fallback pass: a named table not yet listed is added. */
  function FallbackStep(a: Acc, l: Listing, idx: nat): (b: Acc)
  {
    if !l.isObject || l.key == [] || l.key in a.existing then a
    else Acc(a.rows + [TableRow("fallback-" + NatToString(idx) + "-" + l.name, l.name, l.backup)], a.existing + {l.key})
  }

  /** The fallback pass over the first `n` entries of the last-backup list. */
  function Fallback(src: seq<JsValue>, info: JsValue -> Listing, n: nat, start: Acc): Acc
    requires n <= |src|
  {
    if n == 0 then start else FallbackStep(Fallback(src, info, n - 1, start), info(src[n - 1]), n - 1)
  }

  /** The rows the table list gives, with backup times looked up in the last-backup list. */
  function Primary(tables: seq<JsValue>, src: seq<JsValue>): seq<TableRow>
  {
    PrimaryRows(tables, LastBackupMap(src, ListingOf, |src|), |tables|)
  }

  /** `normalizeBackedUpTables`. */
  function NormalizeBackedUpTables(tables: seq<JsValue>, src: seq<JsValue>): seq<TableRow>
  {
    var primary := Primary(tables, src);
    Fallback(src, ListingOf, |src|, Acc(primary, KeysOf(primary))).rows
  }

  /** The fallback loop of `normalizeBackedUpTables`. */
  method FallbackPass(src: seq<JsValue>, info: JsValue -> Listing, rows0: seq<TableRow>) returns (rows: seq<TableRow>)
    ensures rows == Fallback(src, info, |src|, Acc(rows0, KeysOf(rows0))).rows
  {
    rows := rows0;
    var existing := KeysOf(rows0);
    var i := 0;
    while i < |src|
      invariant 0 <= i <= |src|
      invariant Acc(rows, existing) == Fallback(src, info, i, Acc(rows0, KeysOf(rows0)))
    {
      var l := info(src[i]);
      if l.isObject && l.key != [] && l.key !in existing {
        rows := rows + [TableRow("fallback-" + NatToString(i) + "-" + l.name, l.name, l.backup)];
        existing := existing + {l.key};
      }
      i := i + 1;
    }
  }

  /** `normalizeBackedUpTables`: the lookup map, the rows of the table list, then the fallback pass. */
  method NormalizeTables(tables: JsValue, lastBackups: JsValue) returns (rows: seq<TableRow>)
    ensures rows == NormalizeBackedUpTables(ArrayOrEmpty(tables), ArrayOrEmpty(lastBackups))
  {
    var src := ArrayOrEmpty(lastBackups);
    var m := FirstBackups(src, ListingOf);
    var primary := PrimaryRows(ArrayOrEmpty(tables), m, |ArrayOrEmpty(tables)|);
    rows := FallbackPass(src, ListingOf, primary);
  }

  /** What is read from an entry names its key after its name. */
  ghost predicate Coherent(info: JsValue -> Listing) {
    forall x :: info(x).key == TableKey(info(x).name)
  }

  /**
   * What the fallback pass keeps between `start` and `a`: the starting rows
   * come first, `existing` names the rows, and the added rows have names
   * that are new and pairwise different.
   */
  ghost predicate FreshFrom(start: Acc, a: Acc) {
    a.existing == KeysOf(a.rows) && start.existing <= a.existing &&
    |start.rows| <= |a.rows| && a.rows[..|start.rows|] == start.rows &&
    (forall j :: |start.rows| <= j < |a.rows| ==> TableKey(a.rows[j].name) !in start.existing) &&
    (forall j, j' :: |start.rows| <= j < j' < |a.rows| ==> TableKey(a.rows[j].name) != TableKey(a.rows[j'].name))
  }

  /** One step of the fallback pass keeps `FreshFrom`. */
  lemma StepFresh(start: Acc, a: Acc, l: Listing, idx: nat)
    requires FreshFrom(start, a) && l.key == TableKey(l.name)
    ensures FreshFrom(start, FallbackStep(a, l, idx))
  {
    var b := FallbackStep(a, l, idx);
    if b != a {
      SnocFresh(start, a, TableRow("fallback-" + NatToString(idx) + "-" + l.name, l.name, l.backup));
    }
  }

  /** Adding a row whose name is not yet in `existing` keeps `FreshFrom`. */
  lemma SnocFresh(start: Acc, a: Acc, row: TableRow)
    requires FreshFrom(start, a) && TableKey(row.name) !in a.existing
    ensures FreshFrom(start, Acc(a.rows + [row], a.existing + {TableKey(row.name)}))
  {
    SnocKeys(start, a, row);
    SnocPrefix(start, a, row);
    SnocNew(start, a, row);
    SnocDistinct(start, a, row);
  }

  lemma SnocKeys(start: Acc, a: Acc, row: TableRow)
    requires a.existing == KeysOf(a.rows) && start.existing <= a.existing
    ensures a.existing + {TableKey(row.name)} == KeysOf(a.rows + [row])
    ensures start.existing <= a.existing + {TableKey(row.name)}
  {
    KeysOfSnoc(a.rows, row);
  }

  lemma SnocPrefix(start: Acc, a: Acc, row: TableRow)
    requires |start.rows| <= |a.rows| && a.rows[..|start.rows|] == start.rows
    ensures |start.rows| <= |a.rows + [row]| && (a.rows + [row])[..|start.rows|] == start.rows
  {
    assert (a.rows + [row])[..|start.rows|] == a.rows[..|start.rows|];
  }

  lemma SnocNew(start: Acc, a: Acc, row: TableRow)
    requires FreshFrom(start, a) && TableKey(row.name) !in a.existing
    ensures forall j :: |start.rows| <= j < |a.rows| + 1 ==> TableKey((a.rows + [row])[j].name) !in start.existing
  {
    var rows := a.rows + [row];
    forall j | |start.rows| <= j < |rows| ensures TableKey(rows[j].name) !in start.existing {
      if j < |a.rows| { assert rows[j] == a.rows[j]; }
    }
  }

  lemma SnocDistinct(start: Acc, a: Acc, row: TableRow)
    requires FreshFrom(start, a) && TableKey(row.name) !in a.existing
    ensures forall j, j' :: |start.rows| <= j < j' < |a.rows| + 1 ==>
      TableKey((a.rows + [row])[j].name) != TableKey((a.rows + [row])[j'].name)
  {
    var rows := a.rows + [row];
    forall j, j' | |start.rows| <= j < j' < |rows| ensures TableKey(rows[j].name) != TableKey(rows[j'].name) {
      assert rows[j] == a.rows[j];
      if j' < |a.rows| {
        assert rows[j'] == a.rows[j'];
      } else {
        assert TableKey(a.rows[j].name) in KeysOf(a.rows);
      }
    }
  }

  /** The fallback pass keeps the rows it starts from and adds only rows with new, distinct names. */
  lemma FallbackFresh(src: seq<JsValue>, info: JsValue -> Listing, n: nat, start: Acc)
    requires n <= |src| && start.existing == KeysOf(start.rows) && Coherent(info)
    ensures FreshFrom(start, Fallback(src, info, n, start))
  {
    FreshFromStart(start);
    var a := start;
    var i := 0;
    while i < n
      invariant i <= n && a == Fallback(src, info, i, start) && FreshFrom(start, a)
    {
      var l := info(src[i]);
      assert l.key == TableKey(l.name);
      StepFresh(start, a, l, i);
      a := FallbackStep(a, l, i);
      i := i + 1;
    }
  }

  /** Before the pass nothing is added. */
  lemma FreshFromStart(start: Acc)
    requires start.existing == KeysOf(start.rows)
    ensures FreshFrom(start, start)
  {
    assert start.rows[..|start.rows|] == start.rows;
  }

  lemma KeysOfSnoc(rows: seq<TableRow>, row: TableRow)
    ensures KeysOf(rows + [row]) == KeysOf(rows) + {TableKey(row.name)}
  {
    var b := rows + [row];
    forall k | k in KeysOf(b) ensures k in KeysOf(rows) + {TableKey(row.name)} {
      var i :| 0 <= i < |b| && TableKey(b[i].name) == k;
      if i < |rows| { assert b[i] == rows[i]; }
    }
    forall k | k in KeysOf(rows) ensures k in KeysOf(b) {
      var i :| 0 <= i < |rows| && TableKey(rows[i].name) == k;
      assert b[i] == rows[i];
    }
    assert TableKey(b[|rows|].name) == TableKey(row.name);
  }

  /** The key of every object entry with a name ends up in `existing`. */
  lemma {:induction false} FallbackCovers(src: seq<JsValue>, info: JsValue -> Listing, n: nat, start: Acc, i: nat)
    requires i < n <= |src| && info(src[i]).isObject && info(src[i]).key != []
    ensures info(src[i]).key in Fallback(src, info, n, start).existing
  {
    if i < n - 1 {
      FallbackCovers(src, info, n - 1, start, i);
    }
  }

  /** Some row carries the normalized name `k`. */
  predicate Shown(rows: seq<TableRow>, k: string) {
    exists j :: 0 <= j < |rows| && TableKey(rows[j].name) == k
  }

  /** Every named entry of the last-backup list is shown: some row carries its normalized name. */
  lemma NamedEntriesShown(tables: seq<JsValue>, src: seq<JsValue>, i: nat)
    requires i < |src| && IsObjectItem(src[i]) && TableKey(TableName(src[i])) != []
    ensures Shown(NormalizeBackedUpTables(tables, src), TableKey(TableName(src[i])))
  {
    var primary := Primary(tables, src);
    var start := Acc(primary, KeysOf(primary));
    FallbackFresh(src, ListingOf, |src|, start);
    FallbackCovers(src, ListingOf, |src|, start, i);
    var a := Fallback(src, ListingOf, |src|, start);
    assert TableKey(TableName(src[i])) in KeysOf(a.rows);
  }

  /**
   * The fallback pass adds no duplicate: the rows after those of the table
   * list have names that are new and pairwise different once normalized.
   */
  lemma FallbackNoDuplicates(tables: seq<JsValue>, src: seq<JsValue>)
    ensures var primary := Primary(tables, src);
      var rows := NormalizeBackedUpTables(tables, src);
      |primary| <= |rows| && rows[..|primary|] == primary &&
      (forall j :: |primary| <= j < |rows| ==> TableKey(rows[j].name) !in KeysOf(primary)) &&
      (forall j, j' :: |primary| <= j < j' < |rows| ==> TableKey(rows[j].name) != TableKey(rows[j'].name))
  {
    var primary := Primary(tables, src);
    FallbackFresh(src, ListingOf, |src|, Acc(primary, KeysOf(primary)));
  }

  /** A table row without its own backup time takes the one first listed for its name. */
  lemma PrimaryBackupFromFirst(src: seq<JsValue>, k: string) returns (i: nat)
    requires k in LastBackupMap(src, ListingOf, |src|)
    ensures i < |src| && IsObjectItem(src[i]) && TableKey(TableName(src[i])) == k
    ensures MapGet(LastBackupMap(src, ListingOf, |src|), k) == TableBackup(src[i]) != []
    ensures forall j :: 0 <= j < i ==> !(Listed(ListingOf(src[j])) && TableKey(TableName(src[j])) == k)
  {
    i := LastBackupFirst(src, ListingOf, |src|, k);
  }

  // ---------------------------------------------------------------------
  // summary
  // ---------------------------------------------------------------------

  /** `Number(x || 0)`; `None` is `NaN`. */
  function NumberOrZeroText(v: JsValue): Option<int> { NumberOf(Or(v, JNum(0))) }

  /** `a + b` where `NaN` absorbs everything. */
  function AddNumber(a: Option<int>, b: Option<int>): (r: Option<int>)
    ensures r.Some? <==> a.Some? && b.Some?
  {
    if a.Some? && b.Some? then Some(a.value + b.value) else None
  }

  /** `servers.reduce((sum, row) => sum + value(row), 0)` for a numeric reading. */
  function SumNumbers(servers: seq<JsValue>, value: JsValue -> Option<int>): Option<int>
  {
    if servers == [] then Some(0)
    else AddNumber(SumNumbers(servers[..|servers| - 1], value), value(servers[|servers| - 1]))
  }

  /** `servers.reduce((sum, row) => sum + len(row), 0)` for a list length. */
  function SumLengths(servers: seq<JsValue>, len: JsValue -> nat): nat
  {
    if servers == [] then 0
    else SumLengths(servers[..|servers| - 1], len) + len(servers[|servers| - 1])
  }

  function Quantity(row: JsValue): Option<int> { NumberOrZeroText(Get(row, "quantity_databases")) }
  function Running(row: JsValue): Option<int> { NumberOrZeroText(Get(row, "running_backup_count")) }
  function Pending(row: JsValue): nat { |ArrayOrEmpty(Get(row, "pending"))| }
  function Errors(row: JsValue): nat { |ArrayOrEmpty(Get(row, "errors"))| }

  datatype Summary = Summary(totalServidores: nat, totalBases: Option<int>, totalPendencias: nat,
                             totalErros: nat, totalExecucao: Option<int>)

  /** The `summary` memo of the page. */
  function SummaryOf(servers: seq<JsValue>): (s: Summary)
    ensures s.totalServidores == |servers|
  {
    Summary(|servers|, SumNumbers(servers, Quantity), SumLengths(servers, Pending),
            SumLengths(servers, Errors), SumNumbers(servers, Running))
  }

  /** The totals of two lists of servers together are the sums of their totals. */
  lemma {:induction false} SumsAppend(a: seq<JsValue>, b: seq<JsValue>, len: JsValue -> nat, value: JsValue -> Option<int>)
    ensures SumLengths(a + b, len) == SumLengths(a, len) + SumLengths(b, len)
    ensures SumNumbers(a + b, value) == AddNumber(SumNumbers(a, value), SumNumbers(b, value))
    decreases |b|
  {
    if b == [] {
      assert a + b == a;
    } else {
      var b' := b[..|b| - 1];
      SumsAppend(a, b', len, value);
      assert (a + b)[..|a + b| - 1] == a + b';
      assert (a + b)[|a + b| - 1] == b[|b| - 1];
    }
  }

  /** The summary of two lists of servers together adds up their summaries. */
  lemma SummaryAppend(a: seq<JsValue>, b: seq<JsValue>)
    ensures SummaryOf(a + b).totalServidores == SummaryOf(a).totalServidores + SummaryOf(b).totalServidores
    ensures SummaryOf(a + b).totalPendencias == SummaryOf(a).totalPendencias + SummaryOf(b).totalPendencias
    ensures SummaryOf(a + b).totalErros == SummaryOf(a).totalErros + SummaryOf(b).totalErros
    ensures SummaryOf(a + b).totalBases == AddNumber(SummaryOf(a).totalBases, SummaryOf(b).totalBases)
    ensures SummaryOf(a + b).totalExecucao == AddNumber(SummaryOf(a).totalExecucao, SummaryOf(b).totalExecucao)
  {
    SumsAppend(a, b, Pending, Quantity);
    SumsAppend(a, b, Errors, Running);
  }

  /** A length total is zero exactly when every server's list is empty. */
  lemma {:induction false} SumLengthsZero(servers: seq<JsValue>, len: JsValue -> nat)
    ensures SumLengths(servers, len) == 0 <==> forall i :: 0 <= i < |servers| ==> len(servers[i]) == 0
  {
    if servers != [] {
      var init := servers[..|servers| - 1];
      SumLengthsZero(init, len);
      assert forall i :: 0 <= i < |init| ==> init[i] == servers[i];
    }
  }

  /** A `NaN` from one server makes the whole total `NaN`; otherwise the total is a number. */
  lemma {:induction false} SumNumbersDefined(servers: seq<JsValue>, value: JsValue -> Option<int>)
    ensures SumNumbers(servers, value).Some? <==> forall i :: 0 <= i < |servers| ==> value(servers[i]).Some?
  {
    if servers != [] {
      var init := servers[..|servers| - 1];
      SumNumbersDefined(init, value);
      assert forall i :: 0 <= i < |init| ==> init[i] == servers[i];
    }
  }

  /** The badge of one server, as its table row computes it. */
  function ServerStatus(row: JsValue): StatusMeta {
    GetStatusMeta(Pending(row), Errors(row))
  }

  /** No pending table and no error in the totals means every server shows OK, and conversely. */
  lemma AllClear(servers: seq<JsValue>)
    ensures SummaryOf(servers).totalPendencias == 0 && SummaryOf(servers).totalErros == 0 <==>
      forall i :: 0 <= i < |servers| ==> ServerStatus(servers[i]) == Healthy
  {
    SumLengthsZero(servers, Pending);
    SumLengthsZero(servers, Errors);
  }
}
