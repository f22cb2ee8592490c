/**
 * The batch summary of the presence-query page (`groupLoteRows` and the two
 * status tests it uses): the rows of batch queries are grouped per login and
 * uploaded file, and each group counts its rows, its distinct CPFs, its
 * pending, finished and failed rows, and the rows with a released value.
 */
module ConsultaLote {
  import opened Base
  import opened Js
  import opened ConsultaPresenca
  import Grouping

  // ---------------------------------------------------------------------
  // isDoneLoteStatus / isPendingLoteStatus
  // ---------------------------------------------------------------------

  const DONE_STATUSES: set<string> := {"concluído", "concluido", "ok"}

  /** `isDoneLoteStatus`: the trimmed, lower-cased status is one of the finished words. */
  predicate IsDoneLote(status: string) { Lower(JsTrim(status)) in DONE_STATUSES }

  /** The text `isPendingLoteStatus` searches: trimmed, accents removed, lower case. */
  function PendingToken(status: string): (r: string)
    ensures forall i :: 0 <= i < |r| ==> !IsCombiningMark(r[i]) && !IsAsciiUpper(r[i])
  {
    var s := StripAccents(JsTrim(status));
    assert forall i :: 0 <= i < |s| ==> !IsCombiningMark(s[i]);
    Lower(s)
  }

  /** `isPendingLoteStatus`: the token mentions "pendente" or "process". */
  predicate IsPendingLote(status: string) {
    Contains(PendingToken(status), "pendente") || Contains(PendingToken(status), "process")
  }

  /** Removing accents never produces a 'p' that was not there. */
  lemma {:induction false} StripAccentsNoP(s: string)
    requires forall i :: 0 <= i < |s| ==> s[i] != 'p'
    ensures forall i :: 0 <= i < |StripAccents(s)| ==> StripAccents(s)[i] != 'p'
  {
    if s != [] {
      StripAccentsNoP(s[1..]);
      var head := if IsCombiningMark(s[0]) then [] else [BaseLetter(s[0])];
      assert StripAccents(s) == head + StripAccents(s[1..]);
    }
  }

  lemma DoneWordsHaveNoP(w: string)
    requires w in DONE_STATUSES
    ensures forall i :: 0 <= i < |w| ==> w[i] != 'p'
  {
    if w == "concluído" {
    } else if w == "concluido" {
    } else {
      assert w == "ok";
    }
  }

  /** A status is never both finished and pending, so each row counts once. */
  lemma DoneNotPending(status: string)
    requires IsDoneLote(status)
    ensures !IsPendingLote(status)
  {
    var w := Lower(JsTrim(status));
    LowerStripAccents(JsTrim(status));
    DoneWordsHaveNoP(w);
    StripAccentsNoP(w);
    var t := PendingToken(status);
    assert t == StripAccents(w);
    if Contains(t, "pendente") {
      ContainsHasFirst(t, "pendente");
    }
    if Contains(t, "process") {
      ContainsHasFirst(t, "process");
    }
  }

  // ---------------------------------------------------------------------
  // One batch row
  // ---------------------------------------------------------------------

  /** What `groupLoteRows` reads from one row it keeps. */
  datatype LoteRow = LoteRow(
    key: string, file: string, loginP: string,
    idUser: Option<int>, idEquipe: Option<int>,
    pending: bool, success: bool, okByValue: bool, cpfKey: string)

  /** A row is never pending and finished at once. */
  predicate ValidRow(r: LoteRow) { !(r.pending && r.success) }

  function Field(row: JsValue, keys: seq<string>): string
  {
    JsTrim(ToStr(Pick(row, keys, JStr(""))))
  }

  function StatusOf(row: JsValue): string
  {
    JsTrim(ToStr(Pick(row, ["status", "final_status", "situacao", "status_presenca"], JStr("Pendente"))))
  }

  /** `row?.cpf ?? row?.CPF ?? row?.Cpf ?? ''`, normalised. */
  function CpfKey(row: JsValue): string
  {
    NormalizeCpfBatch(Coalesce(Coalesce(Coalesce(Get(row, "cpf"), Get(row, "CPF")), Get(row, "Cpf")), JStr("")))
  }

  /** The grouping key: the login and the file name, both lower case. */
  function GroupKey(loginP: string, file: string): string
  {
    Lower(loginP) + "|" + Lower(file)
  }

  /**
   * One row as the loop reads it, or `None` when the loop skips it (an
   * individual query, or no file name).  `hasValue` stands for
   * `parseMoneyValue(v) > 0` on the released-value field.
   */
  function ReadRow(row: JsValue, hasValue: JsValue -> bool): (r: Option<LoteRow>)
    ensures r == None <==>
      Lower(Field(row, ["tipoConsulta", "tipo_consulta", "tipo"])) == "individual"
      || Field(row, ["nomeArquivo", "nome_arquivo", "tipoConsulta", "name", "fileName"]) == []
    ensures r.Some? ==> ValidRow(r.value) && r.value.file != []
    ensures r.Some? ==> r.value.key == GroupKey(r.value.loginP, r.value.file)
    ensures r.Some? ==> (r.value.pending <==> IsPendingLote(StatusOf(row)))
    ensures r.Some? ==> (r.value.success <==> IsDoneLote(StatusOf(row)))
  {
    var tipo := Lower(Field(row, ["tipoConsulta", "tipo_consulta", "tipo"]));
    var file := Field(row, ["nomeArquivo", "nome_arquivo", "tipoConsulta", "name", "fileName"]);
    if tipo == "individual" || file == [] then None
    else
      var loginP := Field(row, ["loginP", "login", "usuario_login"]);
      var status := StatusOf(row);
      var success := IsDoneLote(status);
      assert success ==> !IsPendingLote(status) by {
        if success { DoneNotPending(status); }
      }
      Some(LoteRow(
        GroupKey(loginP, file), file, loginP,
        NumberOrNull(Pick(row, ["id_user", "idUser", "user_id"], JNull)),
        NumberOrNull(Pick(row, ["equipe_id", "equipeId", "id_equipe", "idEquipe"], JNull)),
        IsPendingLote(status), success,
        hasValue(Pick(row, ["valorLiberado", "valor_liberado", "valor"], JNum(0))),
        CpfKey(row)))
  }

  // ---------------------------------------------------------------------
  // Groups
  // ---------------------------------------------------------------------

  datatype LoteGroup = LoteGroup(
    id: string, file: string, loginP: string,
    idUser: Option<int>, idEquipe: Option<int>,
    total: nat, totalRows: nat, pending: nat, success: nat, error: nat,
    okByValue: nat, noValue: nat, statusOtherCount: nat, cpfs: set<string>)

  /**
   * The counters of a group agree: every row is pending, finished or failed,
   * with or without a value; the distinct CPFs plus the rows without a CPF
   * make up `total`, which never exceeds the row count.
   */
  predicate Wf(g: LoteGroup) {
    g.pending + g.success + g.error == g.totalRows
    && g.okByValue + g.noValue == g.totalRows
    && g.statusOtherCount == g.error
    && |g.cpfs| <= g.total <= g.totalRows
    && "" !in g.cpfs
  }

  /** The entry created for the first row of a key. */
  function NewGroup(key: string, file: string): (g: LoteGroup)
    ensures Wf(g) && g.totalRows == 0 && g.id == key && g.file == file
  {
    LoteGroup(key, file, "", None, None, 0, 0, 0, 0, 0, 0, 0, 0, {})
  }

  function Inc(b: bool): nat { if b then 1 else 0 }

  /** One pass of the loop body on the entry of the row's key. */
  function AddRow(g: LoteGroup, r: LoteRow): (g': LoteGroup)
    ensures g'.id == g.id && g'.file == g.file && g'.totalRows == g.totalRows + 1
    ensures g'.pending == g.pending + Inc(r.pending) && g'.success == g.success + Inc(r.success)
    ensures g'.okByValue == g.okByValue + Inc(r.okByValue)
    ensures g'.cpfs == if r.cpfKey == "" then g.cpfs else g.cpfs + {r.cpfKey}
    ensures g.loginP != "" ==> g'.loginP == g.loginP
    ensures g.idUser.Some? ==> g'.idUser == g.idUser
    ensures g.idEquipe.Some? ==> g'.idEquipe == g.idEquipe
  {
    var err := !r.pending && !r.success;
    LoteGroup(
      g.id, g.file,
      FirstText(g.loginP, r.loginP), FirstId(g.idUser, r.idUser), FirstId(g.idEquipe, r.idEquipe),
      g.total + Inc(r.cpfKey == "" || r.cpfKey !in g.cpfs),
      g.totalRows + 1,
      g.pending + Inc(r.pending), g.success + Inc(r.success), g.error + Inc(err),
      g.okByValue + Inc(r.okByValue), g.noValue + Inc(!r.okByValue),
      g.statusOtherCount + Inc(err),
      WithCpf(g.cpfs, r.cpfKey))
  }

  /** `if (!prev.x && x) prev.x = x` for a text field. */
  function FirstText(kept: string, seen: string): string {
    if kept == "" && seen != "" then seen else kept
  }

  /** `if (prev.x === null && x !== null) prev.x = x` for a numeric id. */
  function FirstId(kept: Option<int>, seen: Option<int>): Option<int> {
    if kept == None && seen.Some? then seen else kept
  }

  /** The CPFs seen, with the row's CPF when it has one. */
  function WithCpf(cpfs: set<string>, k: string): set<string> {
    if k == "" then cpfs else cpfs + {k}
  }

  /** A valid row keeps the counters of an entry in agreement. */
  lemma AddRowWf(g: LoteGroup, r: LoteRow)
    requires Wf(g) && ValidRow(r)
    ensures Wf(AddRow(g, r))
  {
    AddCpfSize(g.cpfs, r.cpfKey);
  }

  /** Adding a CPF already seen changes nothing; adding a new one adds one. */
  lemma AddCpfSize(cpfs: set<string>, k: string)
    ensures k in cpfs ==> cpfs + {k} == cpfs
    ensures k !in cpfs ==> |cpfs + {k}| == |cpfs| + 1
  {
  }

  predicate AllValid(rs: seq<LoteRow>) { forall k :: 0 <= k < |rs| ==> ValidRow(rs[k]) }

  /** The entry after the loop has passed over `rs`, starting from `g`. */
  function Fold(g: LoteGroup, rs: seq<LoteRow>): LoteGroup
  {
    if rs == [] then g else AddRow(Fold(g, rs[..|rs| - 1]), rs[|rs| - 1])
  }

  /** The entry of a key whose rows, in order, are `rs`. */
  function GroupOf(rs: seq<LoteRow>): LoteGroup
    requires rs != []
  {
    Fold(NewGroup(rs[0].key, rs[0].file), rs)
  }

  predicate PendingRow(r: LoteRow) { r.pending }
  predicate DoneRow(r: LoteRow) { r.success }
  predicate ValuedRow(r: LoteRow) { r.okByValue }

  /** The number of rows of `rs` that satisfy `p`. */
  function CountRows(rs: seq<LoteRow>, p: LoteRow -> bool): nat
  {
    if rs == [] then 0 else CountRows(rs[..|rs| - 1], p) + Inc(p(rs[|rs| - 1]))
  }

  /** The CPFs of `rs` that are not blank. */
  function CpfsOf(rs: seq<LoteRow>): set<string>
  {
    if rs == [] then {} else
      var last := rs[|rs| - 1].cpfKey;
      CpfsOf(rs[..|rs| - 1]) + (if last == "" then {} else {last})
  }

  lemma {:induction false} FoldCounts(g: LoteGroup, rs: seq<LoteRow>)
    ensures AllValid(rs) && Wf(g) ==> Wf(Fold(g, rs))
    ensures Fold(g, rs).id == g.id && Fold(g, rs).file == g.file
    ensures Fold(g, rs).totalRows == g.totalRows + |rs|
    ensures Fold(g, rs).pending == g.pending + CountRows(rs, PendingRow)
    ensures Fold(g, rs).success == g.success + CountRows(rs, DoneRow)
    ensures Fold(g, rs).okByValue == g.okByValue + CountRows(rs, ValuedRow)
    ensures Fold(g, rs).cpfs == g.cpfs + CpfsOf(rs)
  {
    if rs != [] {
      var init := rs[..|rs| - 1];
      assert AllValid(rs) ==> AllValid(init) by {
        if AllValid(rs) {
          forall k | 0 <= k < |init| ensures ValidRow(init[k]) { assert init[k] == rs[k]; }
        }
      }
      FoldCounts(g, init);
      if AllValid(rs) && Wf(g) {
        AddRowWf(Fold(g, init), rs[|rs| - 1]);
      }
    }
  }

  /**
   * A group made from rows `rs` keeps its counters in agreement, counts every
   * row once and is named after its first row.
   */
  lemma GroupOfWf(rs: seq<LoteRow>)
    requires rs != [] && AllValid(rs)
    ensures Wf(GroupOf(rs))
    ensures GroupOf(rs).id == rs[0].key && GroupOf(rs).file == rs[0].file
    ensures GroupOf(rs).totalRows == |rs|
  {
    FoldCounts(NewGroup(rs[0].key, rs[0].file), rs);
  }

  /**
   * A group made from rows `rs` counts its pending and finished rows and its
   * rows with a value, and keeps their distinct non-blank CPFs.
   */
  lemma GroupOfTallies(rs: seq<LoteRow>)
    requires rs != []
    ensures GroupOf(rs).pending == CountRows(rs, PendingRow)
    ensures GroupOf(rs).success == CountRows(rs, DoneRow)
    ensures GroupOf(rs).okByValue == CountRows(rs, ValuedRow)
    ensures GroupOf(rs).cpfs == CpfsOf(rs)
  {
    FoldCounts(NewGroup(rs[0].key, rs[0].file), rs);
  }

  lemma GroupOfSnoc(rs: seq<LoteRow>, r: LoteRow)
    requires rs != []
    ensures GroupOf(rs + [r]) == AddRow(GroupOf(rs), r)
  {
    var rs' := rs + [r];
    assert rs'[..|rs'| - 1] == rs;
    assert rs'[0] == rs[0];
  }

  lemma GroupOfSingle(r: LoteRow)
    ensures GroupOf([r]) == AddRow(NewGroup(r.key, r.file), r)
  {
    var rs := [r];
    assert rs[..0] == [];
    assert Fold(NewGroup(r.key, r.file), []) == NewGroup(r.key, r.file);
  }

  /** The rows among `kept` whose key is `key`, in order. */
  function KeyRows(kept: seq<LoteRow>, key: string): (r: seq<LoteRow>)
    ensures forall k :: 0 <= k < |r| ==> r[k].key == key
  {
    if kept == [] then []
    else KeyRows(kept[..|kept| - 1], key) + (if kept[|kept| - 1].key == key then [kept[|kept| - 1]] else [])
  }

  lemma {:induction false} KeyRowsValid(kept: seq<LoteRow>, key: string)
    requires AllValid(kept)
    ensures AllValid(KeyRows(kept, key))
  {
    if kept != [] {
      var init := kept[..|kept| - 1];
      assert AllValid(init) by {
        forall k | 0 <= k < |init| ensures ValidRow(init[k]) { assert init[k] == kept[k]; }
      }
      KeyRowsValid(init, key);
    }
  }

  /** The rows `groupLoteRows` keeps, read. */
  function Kept(list: seq<JsValue>, hasValue: JsValue -> bool): seq<LoteRow>
  {
    FilterMap(list, row => ReadRow(row, hasValue))
  }

  lemma KeptValid(list: seq<JsValue>, hasValue: JsValue -> bool)
    ensures AllValid(Kept(list, hasValue))
  {
    forall k | 0 <= k < |Kept(list, hasValue)| ensures ValidRow(Kept(list, hasValue)[k]) {
      FilterMapFrom(list, row => ReadRow(row, hasValue), k);
    }
  }

  ghost predicate IsKey(kept: seq<LoteRow>, key: string) { exists k :: 0 <= k < |kept| && kept[k].key == key }

  ghost predicate HasGroup(groups: seq<LoteGroup>, key: string) {
    exists i :: 0 <= i < |groups| && groups[i].id == key
  }

  function LoteKey(r: LoteRow): string { r.key }

  /** The keys of the kept rows, each once, in the order their first row appears. */
  function FirstSeenKeys(kept: seq<LoteRow>): seq<string>
  {
    Grouping.GroupKeys(kept, LoteKey, |kept|)
  }

  /**
   * Every group in `groups` is the group of its key's rows, and the groups
   * come in the order their keys are first seen (`Map` insertion order).
   */
  ghost predicate GroupsOf(groups: seq<LoteGroup>, kept: seq<LoteRow>)
  {
    (forall i, j :: 0 <= i < j < |groups| ==> groups[i].id != groups[j].id)
    && |groups| == |FirstSeenKeys(kept)|
    && (forall i :: 0 <= i < |groups| ==> groups[i].id == FirstSeenKeys(kept)[i])
    && (forall i :: 0 <= i < |groups| ==> IsKey(kept, groups[i].id))
    && (forall k :: 0 <= k < |kept| ==> HasGroup(groups, kept[k].key))
    && forall i :: 0 <= i < |groups| ==>
      KeyRows(kept, groups[i].id) != [] && groups[i] == GroupOf(KeyRows(kept, groups[i].id))
  }

  /** Every group the grouping returns keeps its counters in agreement and holds at least one row. */
  lemma GroupsWf(groups: seq<LoteGroup>, kept: seq<LoteRow>)
    requires AllValid(kept) && GroupsOf(groups, kept)
    ensures forall i :: 0 <= i < |groups| ==> Wf(groups[i]) && groups[i].totalRows > 0
  {
    forall i | 0 <= i < |groups| ensures Wf(groups[i]) && groups[i].totalRows > 0 {
      KeyRowsValid(kept, groups[i].id);
      GroupOfWf(KeyRows(kept, groups[i].id));
    }
  }

  /** The state of the loop over `kept`: a key order and a map from key to entry. */
  ghost predicate LoopState(order: seq<string>, byFile: map<string, LoteGroup>, kept: seq<LoteRow>)
  {
    Distinct(order)
    && (forall i :: 0 <= i < |order| ==> order[i] in byFile)
    && (forall key :: key in byFile ==> key in order)
    && (forall key :: key in byFile <==> KeyRows(kept, key) != [])
    && forall key :: key in byFile ==> byFile[key] == GroupOf(KeyRows(kept, key))
  }

  lemma KeyRowsNonEmpty(kept: seq<LoteRow>, k: nat)
    requires k < |kept|
    ensures KeyRows(kept, kept[k].key) != []
    decreases |kept|
  {
    if k < |kept| - 1 {
      assert kept[..|kept| - 1][k] == kept[k];
      KeyRowsNonEmpty(kept[..|kept| - 1], k);
    }
  }

  lemma KeyRowsOnlyKeys(kept: seq<LoteRow>, key: string)
    requires KeyRows(kept, key) != []
    ensures IsKey(kept, key)
    decreases |kept|
  {
    var init := kept[..|kept| - 1];
    if kept[|kept| - 1].key != key {
      KeyRowsOnlyKeys(init, key);
      var k :| 0 <= k < |init| && init[k].key == key;
      assert kept[k] == init[k];
    }
  }

  lemma KeyRowsSnoc(kept: seq<LoteRow>, r: LoteRow, key: string)
    ensures KeyRows(kept + [r], key) == KeyRows(kept, key) + (if r.key == key then [r] else [])
  {
    assert (kept + [r])[..|kept|] == kept;
  }

  /** A row whose key already has an entry is added to that entry. */
  lemma LoopStepKnown(order: seq<string>, byFile: map<string, LoteGroup>, kept: seq<LoteRow>, r: LoteRow)
    requires LoopState(order, byFile, kept) && r.key in byFile
    ensures LoopState(order, byFile[r.key := AddRow(byFile[r.key], r)], kept + [r])
  {
    var kept' := kept + [r];
    var byFile' := byFile[r.key := AddRow(byFile[r.key], r)];
    forall key ensures key in byFile' <==> KeyRows(kept', key) != [] {
      KeyRowsSnoc(kept, r, key);
    }
    forall key | key in byFile' ensures byFile'[key] == GroupOf(KeyRows(kept', key)) {
      KeyRowsSnoc(kept, r, key);
      if key == r.key {
        var rs := KeyRows(kept, key);
        assert rs != [] && byFile[key] == GroupOf(rs);
        GroupOfSnoc(rs, r);
        assert KeyRows(kept', key) == rs + [r];
        assert byFile'[key] == AddRow(GroupOf(rs), r);
        assert byFile'[key] == GroupOf(KeyRows(kept', key));
      } else {
        assert key in byFile && byFile'[key] == byFile[key];
        assert byFile[key] == GroupOf(KeyRows(kept, key));
        assert KeyRows(kept', key) == KeyRows(kept, key);
        assert byFile'[key] == GroupOf(KeyRows(kept', key));
      }
    }
  }

  /** A row with a new key opens an entry at the end of the order. */
  lemma LoopStepNew(order: seq<string>, byFile: map<string, LoteGroup>, kept: seq<LoteRow>, r: LoteRow)
    requires LoopState(order, byFile, kept) && r.key !in byFile
    ensures LoopState(order + [r.key], byFile[r.key := AddRow(NewGroup(r.key, r.file), r)], kept + [r])
  {
    var kept' := kept + [r];
    var order' := order + [r.key];
    var byFile' := byFile[r.key := AddRow(NewGroup(r.key, r.file), r)];
    forall key ensures key in byFile' <==> KeyRows(kept', key) != [] {
      KeyRowsSnoc(kept, r, key);
    }
    forall key | key in byFile' ensures byFile'[key] == GroupOf(KeyRows(kept', key)) {
      KeyRowsSnoc(kept, r, key);
      if key == r.key {
        assert KeyRows(kept, key) == [];
        GroupOfSingle(r);
        assert KeyRows(kept', key) == [r];
      } else {
        assert key in byFile && byFile'[key] == byFile[key];
        assert byFile[key] == GroupOf(KeyRows(kept, key));
        assert KeyRows(kept', key) == KeyRows(kept, key);
        assert byFile'[key] == GroupOf(KeyRows(kept', key));
      }
    }
    forall key | key in byFile' ensures key in order' {
      if key != r.key { assert key in order; }
    }
    assert Distinct(order') by {
      forall i, j | 0 <= i < j < |order'| ensures order'[i] != order'[j] {
        if j == |order'| - 1 { assert order'[i] == order[i]; }
      }
    }
  }

  /** The loop appends a key to `order` exactly when it is seen for the first time. */
  lemma OrderStep(order: seq<string>, byFile: map<string, LoteGroup>, kept: seq<LoteRow>, r: LoteRow)
    requires LoopState(order, byFile, kept) && order == FirstSeenKeys(kept)
    ensures FirstSeenKeys(kept + [r]) == if r.key in byFile then order else order + [r.key]
  {
    assert r.key in byFile <==> r.key in order;
    Grouping.GroupKeysSnoc(kept, r, LoteKey);
  }

  /** The entry of the `j`-th key is the group of that key's rows. */
  lemma EntryOfKey(order: seq<string>, byFile: map<string, LoteGroup>, kept: seq<LoteRow>, j: nat)
    requires LoopState(order, byFile, kept) && j < |order|
    ensures byFile[order[j]].id == order[j] && IsKey(kept, order[j])
    ensures KeyRows(kept, order[j]) != [] && byFile[order[j]] == GroupOf(KeyRows(kept, order[j]))
  {
    var rs := KeyRows(kept, order[j]);
    FoldCounts(NewGroup(rs[0].key, rs[0].file), rs);
    KeyRowsOnlyKeys(kept, order[j]);
  }

  /** The groups listed in `order` satisfy `GroupsOf` once the loop is over. */
  lemma LoopStateGroups(order: seq<string>, byFile: map<string, LoteGroup>, kept: seq<LoteRow>, groups: seq<LoteGroup>)
    requires LoopState(order, byFile, kept) && order == FirstSeenKeys(kept)
    requires |groups| == |order| && forall j :: 0 <= j < |order| ==> groups[j] == byFile[order[j]]
    ensures GroupsOf(groups, kept)
  {
    forall j | 0 <= j < |groups|
      ensures groups[j].id == order[j] && IsKey(kept, groups[j].id)
      ensures KeyRows(kept, groups[j].id) != [] && groups[j] == GroupOf(KeyRows(kept, groups[j].id))
    {
      EntryOfKey(order, byFile, kept, j);
    }
    GroupsCover(order, byFile, kept, groups);
  }

  /** Every kept row's key has a group among those listed in `order`. */
  lemma GroupsCover(order: seq<string>, byFile: map<string, LoteGroup>, kept: seq<LoteRow>, groups: seq<LoteGroup>)
    requires LoopState(order, byFile, kept)
    requires |groups| == |order| && forall j :: 0 <= j < |order| ==> groups[j].id == order[j]
    ensures forall k :: 0 <= k < |kept| ==> HasGroup(groups, kept[k].key)
  {
    forall k | 0 <= k < |kept| ensures HasGroup(groups, kept[k].key) {
      KeyRowsNonEmpty(kept, k);
      var j :| 0 <= j < |order| && order[j] == kept[k].key;
      assert groups[j].id == kept[k].key;
    }
  }

  /** The loop body on a kept row: a new key is appended to the order, and the row is added to its key's entry. */
  method AddToGroup(order0: seq<string>, byFile0: map<string, LoteGroup>, ghost kept: seq<LoteRow>, r: LoteRow)
    returns (order: seq<string>, byFile: map<string, LoteGroup>)
    requires LoopState(order0, byFile0, kept) && order0 == FirstSeenKeys(kept)
    ensures LoopState(order, byFile, kept + [r]) && order == FirstSeenKeys(kept + [r])
  {
    OrderStep(order0, byFile0, kept, r);
    if r.key in byFile0 {
      LoopStepKnown(order0, byFile0, kept, r);
      order, byFile := order0, byFile0[r.key := AddRow(byFile0[r.key], r)];
    } else {
      LoopStepNew(order0, byFile0, kept, r);
      order, byFile := order0 + [r.key], byFile0[r.key := AddRow(NewGroup(r.key, r.file), r)];
    }
  }

  method GroupRows(list: seq<JsValue>, read: JsValue -> Option<LoteRow>) returns (groups: seq<LoteGroup>)
    ensures GroupsOf(groups, FilterMap(list, read))
  {
    var order, byFile := ScanRows(list, read);
    groups := seq(|order|, j requires 0 <= j < |order| => byFile[order[j]]);
    LoopStateGroups(order, byFile, FilterMap(list, read), groups);
  }

  /** The `forEach` over the rows: the keys in first-seen order and the entry of each key. */
  method ScanRows(list: seq<JsValue>, read: JsValue -> Option<LoteRow>)
    returns (order: seq<string>, byFile: map<string, LoteGroup>)
    ensures LoopState(order, byFile, FilterMap(list, read))
    ensures order == FirstSeenKeys(FilterMap(list, read))
  {
    order, byFile := [], map[];
    ghost var kept: seq<LoteRow> := [];
    var i := 0;
    while i < |list|
      invariant 0 <= i <= |list|
      invariant kept == FilterMap(list[..i], read)
      invariant LoopState(order, byFile, kept) && order == FirstSeenKeys(kept)
    {
      FilterMapSnoc(list, read, i);
      var row := read(list[i]);
      if row.Some? {
        order, byFile := AddToGroup(order, byFile, kept, row.value);
        kept := kept + [row.value];
      }
      i := i + 1;
    }
    assert list[..|list|] == list;
  }

  /**
   * `groupLoteRows`: one entry per login and file, in the order their first
   * row appears, each holding the counts of exactly the rows of its key.
   */
  method GroupLoteRows(rows: JsValue, hasValue: JsValue -> bool) returns (groups: seq<LoteGroup>)
    ensures GroupsOf(groups, Kept(ArrayOrEmpty(rows), hasValue))
    ensures forall i :: 0 <= i < |groups| ==> Wf(groups[i]) && groups[i].totalRows > 0
  {
    groups := GroupRows(ArrayOrEmpty(rows), row => ReadRow(row, hasValue));
    KeptValid(ArrayOrEmpty(rows), hasValue);
    GroupsWf(groups, Kept(ArrayOrEmpty(rows), hasValue));
  }
}
