/**
 * Staging and merging one window of proposals into the target table:
 * insert_into_stage sends the rows in batches of 500, the dedup statement
 * keeps one staged row per merge key, and the MERGE statement updates the
 * target rows whose key matches a staged row and inserts the staged rows
 * no target row matches.
 */
module SyncMerge {
  import opened Base
  import opened Py
  import opened SyncFields

  /** The stage and target table columns, in insertion order. */
  const COLUMNS: seq<string> := [
    "empresa", "data_formalizacao", "data_cadastro", "cadastro", "data_pagamento", "pagamento",
    "data_status_api", "data_atualizacao_api", "dt_ultima_tentativa_api", "status_api",
    "status_api_descricao", "banco_averbacao", "agencia", "agencia_digito", "conta",
    "conta_digito", "pix", "tipo_liberacao", "inclusao", "cancelado", "concluido", "averbacao",
    "retorno_saldo", "banco_id", "banco_nome", "convenio_id", "convenio_nome", "link_formalizacao",
    "orgao", "prazo", "promotora_id", "promotora_nome", "produto_id", "produto_nome",
    "proposta_id", "proposta_id_banco", "proposta_reference_api", "valor_financiado",
    "valor_liberado", "valor_parcela", "valor_referencia", "valor_meta",
    "valor_total_comissionado", "valor_total_repassado_vendedor", "valor_total_estornado",
    "valor_total_comissao_liq", "valor_total_comissao_franquia", "valor_total_repasse_franquia",
    "tabela_id", "tabela_nome", "flag_aumento", "srcc", "seguro", "proposta_duplicada", "taxa",
    "usuariobanco", "franquia_id", "indicacao_id", "enviado_quali", "equipe_id", "equipe_nome",
    "franquia_nome", "origem", "origem_id", "status_id", "substatus", "status_nome",
    "tipo_cadastro", "usuario_id", "vendedor_nome", "vendedor_id", "digitador_id",
    "digitador_nome", "vendedor_cargo_id", "vendedor_participante", "vendedor_participante_nome",
    "formalizador", "formalizador_nome", "cliente_id", "cliente_cpf", "cliente_sexo", "nascimento",
    "analfabeto", "nao_perturbe", "cliente_nome", "cep", "cidade", "estado", "telefone_id",
    "documento_id", "beneficio_id", "endereco_id", "matricula", "nome_mae", "renda", "especie",
    "ddb", "possui_representante", "logradouro", "endereco_numero", "bairro", "telefone_ddd",
    "telefone_numero", "banco_refinanciador", "beneficio", "id_proposta_banco"]

  /** Columns staged as they come (dates and flags are already text or None). */
  const DATE_COLUMNS: set<string> := {
    "data_formalizacao", "data_cadastro", "cadastro", "data_pagamento", "pagamento",
    "data_status_api", "data_atualizacao_api", "dt_ultima_tentativa_api", "inclusao", "cancelado",
    "concluido", "averbacao", "retorno_saldo", "nascimento"}

  const BIT_COLUMNS: set<string> := {
    "flag_aumento", "srcc", "seguro", "proposta_duplicada", "enviado_quali", "analfabeto",
    "nao_perturbe", "possui_representante", "vendedor_participante", "pix"}

  /** Positions in COLUMNS of data_formalizacao, data_cadastro, cadastro, data_pagamento, pagamento and proposta_id. */
  const KEY_POSITIONS: seq<nat> := [1, 2, 3, 4, 5, 34]

  const BATCH_SIZE: nat := 500

  /** A row built by the fetch step: column name to value, a missing column reading as None. */
  type Row = map<string, Option<string>>

  /** One staged row: a value per column of COLUMNS. */
  type Tuple = seq<Option<string>>

  function Cell(r: Row, c: string): Option<string>
  {
    if c in r then r[c] else None
  }

  function AsPy(v: Option<string>): PyValue
  {
    match v
    case None => PNone
    case Some(s) => PStr(s)
  }

  predicate StagedRaw(c: string) {
    c in DATE_COLUMNS || c in BIT_COLUMNS || c == "proposta_id"
  }

  /** The value staged for column `c`: raw for date, flag and proposta_id columns, else cut to 4000 characters. */
  function StageValue(r: Row, c: string): (v: Option<string>)
    ensures StagedRaw(c) ==> v == Cell(r, c)
    ensures !StagedRaw(c) ==> v.None? || |v.value| <= MAX_TEXT
    ensures !StagedRaw(c) && Cell(r, c).None? ==> v.None?
  {
    if StagedRaw(c) then Cell(r, c) else Normalize4000(AsPy(Cell(r, c)))
  }

  /** The tuple staged for a row, one value per column. */
  function StageTuple(r: Row): (t: Tuple)
    ensures |t| == |COLUMNS|
  {
    seq(|COLUMNS|, i requires 0 <= i < |COLUMNS| => StageValue(r, COLUMNS[i]))
  }

  function StageTuples(rows: seq<Row>): (ts: seq<Tuple>)
    ensures |ts| == |rows|
  {
    seq(|rows|, i requires 0 <= i < |rows| => StageTuple(rows[i]))
  }

  /** The rows of consecutive batches, in order. */
  function Flatten(batches: seq<seq<Tuple>>): seq<Tuple>
  {
    if batches == [] then [] else Flatten(batches[..|batches| - 1]) + batches[|batches| - 1]
  }

  lemma FlattenAppend(batches: seq<seq<Tuple>>, b: seq<Tuple>)
    ensures Flatten(batches + [b]) == Flatten(batches) + b
  {
    assert (batches + [b])[..|batches|] == batches;
  }

  /** Building the tuple of one row, column by column (run over COLUMNS). */
  method BuildTuple(r: Row, columns: seq<string>) returns (vals: Tuple)
    ensures |vals| == |columns|
    ensures forall i :: 0 <= i < |columns| ==> vals[i] == StageValue(r, columns[i])
    ensures forall i :: 0 <= i < |columns| && StagedRaw(columns[i]) ==> vals[i] == Cell(r, columns[i])
  {
    vals := [];
    var j := 0;
    while j < |columns|
      invariant 0 <= j <= |columns| && |vals| == j
      invariant forall i :: 0 <= i < j ==> vals[i] == StageValue(r, columns[i])
    {
      var c := columns[j];
      var v;
      if StagedRaw(c) {
        v := Cell(r, c);
      } else {
        v := Normalize4000(AsPy(Cell(r, c)));
      }
      assert v == StageValue(r, c);
      vals := vals + [v];
      j := j + 1;
    }
  }

  /** A tuple holding the staged value of every column, in order, is the row's staged tuple. */
  lemma StageTupleOf(r: Row, vals: Tuple)
    requires |vals| == |COLUMNS| && forall i :: 0 <= i < |COLUMNS| ==> vals[i] == StageValue(r, COLUMNS[i])
    ensures vals == StageTuple(r)
  {
  }

  /**
   * insert_into_stage: the batches handed to executemany, in order, and the
   * number of rows inserted. Every batch but the last holds exactly 500 rows.
   */
  method InsertIntoStage(rows: seq<Row>) returns (batches: seq<seq<Tuple>>, total: nat)
    ensures total == |rows|
    ensures Flatten(batches) == StageTuples(rows)
    ensures forall k :: 0 <= k < |batches| ==> 0 < |batches[k]| <= BATCH_SIZE
    ensures forall k :: 0 <= k < |batches| - 1 ==> |batches[k]| == BATCH_SIZE
    ensures |batches| == (|rows| + BATCH_SIZE - 1) / BATCH_SIZE
  {
    batches := [];
    total := 0;
    if rows == [] {
      return;
    }
    var batch: seq<Tuple> := [];
    var i := 0;
    while i < |rows|
      invariant 0 <= i <= |rows|
      invariant Flatten(batches) + batch == StageTuples(rows)[..i]
      invariant |batch| < BATCH_SIZE
      invariant forall k :: 0 <= k < |batches| ==> |batches[k]| == BATCH_SIZE
      invariant total == BATCH_SIZE * |batches| && total + |batch| == i
    {
      var vals := BuildTuple(rows[i], COLUMNS);
      StageTupleOf(rows[i], vals);
      batch := batch + [vals];
      assert StageTuples(rows)[..i + 1] == StageTuples(rows)[..i] + [vals];
      if |batch| >= BATCH_SIZE {
        FlattenAppend(batches, batch);
        batches := batches + [batch];
        total := total + |batch|;
        batch := [];
      }
      i := i + 1;
    }
    if batch != [] {
      FlattenAppend(batches, batch);
      batches := batches + [batch];
      total := total + |batch|;
    }
    assert StageTuples(rows)[..|rows|] == StageTuples(rows);
  }

  // ---------------------------------------------------------------------
  // Merge keys
  // ---------------------------------------------------------------------

  /**
   * `LTRIM(RTRIM(ISNULL(v, '')))` as the key comparison sees it: the key
   * columns are compared under a case-insensitive collation, modelled by
   * upper-casing the value (ASCII and Latin-1 letters) before the trim.
   */
  function KeyPart(v: Option<string>): (k: string)
    ensures v.None? ==> k == []
    ensures k == [] || (k[0] != ' ' && k[|k| - 1] != ' ')
  {
    SqlTrim(Upper(match v case None => "" case Some(s) => s))
  }

  /** Upper-casing a value leaves its key part unchanged. */
  lemma KeyPartOfUpper(s: string)
    ensures KeyPart(Some(Upper(s))) == KeyPart(Some(s))
  {
    forall i | 0 <= i < |s| ensures Upper(Upper(s))[i] == Upper(s)[i] {
      UpperCharIdempotent(s[i]);
    }
    assert Upper(Upper(s)) == Upper(s);
  }

  /** Lower-casing a value leaves its key part unchanged. */
  lemma KeyPartOfLower(s: string)
    ensures KeyPart(Some(Lower(s))) == KeyPart(Some(s))
  {
    forall i | 0 <= i < |s| ensures Upper(Lower(s))[i] == Upper(s)[i] {
      UpperOfLowerChar(s[i]);
    }
    assert Upper(Lower(s)) == Upper(s);
  }

  lemma UpperCharIdempotent(c: char)
    ensures UpperChar(UpperChar(c)) == UpperChar(c)
  {
  }

  lemma UpperOfLowerChar(c: char)
    ensures UpperChar(LowerChar(c)) == UpperChar(c)
  {
  }

  /** The six trimmed key values of a staged or target row. */
  function Key(t: Tuple): (k: seq<string>)
    ensures |k| == |KEY_POSITIONS|
  {
    seq(|KEY_POSITIONS|, j requires 0 <= j < |KEY_POSITIONS| =>
      if KEY_POSITIONS[j] < |t| then KeyPart(t[KEY_POSITIONS[j]]) else "")
  }

  /** A NULL key column and a blank one match each other. */
  lemma NullMatchesBlank(t: Tuple, u: Tuple, j: nat)
    requires j < |KEY_POSITIONS| && KEY_POSITIONS[j] < |t| && KEY_POSITIONS[j] < |u|
    requires t[KEY_POSITIONS[j]] == None && u[KEY_POSITIONS[j]] == Some("  ")
    ensures Key(t)[j] == Key(u)[j]
  {
    assert SqlTrim("  ") == [];
  }

  predicate HasKey(rows: seq<Tuple>, k: seq<string>) {
    exists i :: 0 <= i < |rows| && Key(rows[i]) == k
  }

  /** At most one row per key. */
  predicate UniqueKeys(rows: seq<Tuple>) {
    forall i, j :: 0 <= i < j < |rows| ==> Key(rows[i]) != Key(rows[j])
  }

  /**
   * The dedup statement: of the staged rows sharing a key, one is kept and
   * the others are deleted. `ROW_NUMBER() ... ORDER BY (SELECT 0)` leaves to
   * the engine which row of a key group is numbered first, so the choice is
   * a parameter: going through the stage in order, `prefer(held, next)`
   * says whether `next` displaces the row `held` so far for its key. Every
   * choice of one row per key arises from some `prefer` (DedupMayKeepAny).
   */
  function Dedup(stage: seq<Tuple>, prefer: (Tuple, Tuple) -> bool): (r: seq<Tuple>)
    ensures UniqueKeys(r)
    ensures |r| <= |stage|
    ensures forall i :: 0 <= i < |r| ==> r[i] in stage
    ensures forall k :: HasKey(r, k) <==> HasKey(stage, k)
  {
    if stage == [] then []
    else
      var init := stage[..|stage| - 1];
      var last := stage[|stage| - 1];
      assert init + [last] == stage;
      HasKeySnoc(init, last);
      DedupStep(Dedup(init, prefer), last, prefer)
  }

  /** One staged row meets the rows kept so far. */
  function DedupStep(prev: seq<Tuple>, last: Tuple, prefer: (Tuple, Tuple) -> bool): (r: seq<Tuple>)
    requires UniqueKeys(prev)
    ensures UniqueKeys(r)
    ensures |r| <= |prev| + 1
    ensures forall i :: 0 <= i < |r| ==> r[i] in prev || r[i] == last
    ensures forall k :: HasKey(r, k) <==> HasKey(prev, k) || Key(last) == k
  {
    if !HasKey(prev, Key(last)) then
      HasKeySnoc(prev, last);
      UniqueSnoc(prev, last);
      prev + [last]
    else if prefer(FindKey(prev, Key(last)).value, last) then
      var rest := WithoutKey(prev, Key(last));
      WithoutKeyUnique(prev, Key(last));
      HasKeySnoc(rest, last);
      UniqueSnoc(rest, last);
      rest + [last]
    else prev
  }

  predicate OtherKey(k: seq<string>, t: Tuple) { Key(t) != k }

  /** The rows of a table that do not carry key `k`. */
  function WithoutKey(rows: seq<Tuple>, k: seq<string>): (r: seq<Tuple>)
    ensures |r| <= |rows|
    ensures forall i :: 0 <= i < |r| ==> r[i] in rows
    ensures !HasKey(r, k)
    ensures forall k' :: k' != k ==> (HasKey(r, k') <==> HasKey(rows, k'))
  {
    var p := t => OtherKey(k, t);
    forall k' | k' != k ensures HasKey(Filter(rows, p), k') <==> HasKey(rows, k') {
      assert forall t :: Key(t) == k' ==> p(t);
      if HasKey(rows, k') {
        FilterKeepsKey(rows, p, k');
      }
      FilterKeyFrom(rows, p, k');
    }
    FilterDropsKey(rows, p, k);
    Filter(rows, p)
  }

  lemma FilterKeepsKey(rows: seq<Tuple>, p: Tuple -> bool, k: seq<string>)
    requires forall t :: Key(t) == k ==> p(t)
    ensures HasKey(rows, k) ==> HasKey(Filter(rows, p), k)
  {
    var r := Filter(rows, p);
    if HasKey(rows, k) {
      var i :| 0 <= i < |rows| && Key(rows[i]) == k;
      var m :| 0 <= m < |r| && r[m] == rows[i];
    }
  }

  lemma FilterKeyFrom(rows: seq<Tuple>, p: Tuple -> bool, k: seq<string>)
    ensures HasKey(Filter(rows, p), k) ==> HasKey(rows, k)
  {
    var r := Filter(rows, p);
    if HasKey(r, k) {
      var i :| 0 <= i < |r| && Key(r[i]) == k;
      var m :| 0 <= m < |rows| && rows[m] == r[i];
    }
  }

  lemma FilterDropsKey(rows: seq<Tuple>, p: Tuple -> bool, k: seq<string>)
    requires forall t :: p(t) ==> Key(t) != k
    ensures !HasKey(Filter(rows, p), k)
  {
  }

  lemma WithoutKeyUnique(rows: seq<Tuple>, k: seq<string>)
    requires UniqueKeys(rows)
    ensures UniqueKeys(WithoutKey(rows, k))
  {
    FilterUnique(rows, t => OtherKey(k, t));
  }

  /** The keys of a table with one more row: those it had, and the new row's. */
  lemma HasKeySnoc(rows: seq<Tuple>, x: Tuple)
    ensures forall k :: HasKey(rows + [x], k) <==> HasKey(rows, k) || Key(x) == k
  {
    var r := rows + [x];
    forall k ensures HasKey(r, k) ==> HasKey(rows, k) || Key(x) == k {
      if HasKey(r, k) {
        var i :| 0 <= i < |r| && Key(r[i]) == k;
        if i < |rows| {
          assert r[i] == rows[i];
        }
      }
    }
    forall k ensures HasKey(rows, k) ==> HasKey(r, k) {
      if HasKey(rows, k) {
        var i :| 0 <= i < |rows| && Key(rows[i]) == k;
        assert r[i] == rows[i];
      }
    }
    assert r[|rows|] == x;
  }

  /** A row whose key is new keeps the keys distinct. */
  lemma UniqueSnoc(rows: seq<Tuple>, x: Tuple)
    requires UniqueKeys(rows) && !HasKey(rows, Key(x))
    ensures UniqueKeys(rows + [x])
  {
    var r := rows + [x];
    forall i, j | 0 <= i < j < |r| ensures Key(r[i]) != Key(r[j]) {
      assert r[i] == rows[i];
      if j < |rows| {
        assert r[j] == rows[j];
      }
    }
  }

  /** Rows that already have distinct keys are left as they are, whatever the choice. */
  lemma {:induction false} DedupOfUnique(stage: seq<Tuple>, prefer: (Tuple, Tuple) -> bool)
    requires UniqueKeys(stage)
    ensures Dedup(stage, prefer) == stage
  {
    if stage != [] {
      var init := stage[..|stage| - 1];
      var last := stage[|stage| - 1];
      UniqueInit(stage);
      DedupOfUnique(init, prefer);
      LastKeyFresh(stage);
      assert init + [last] == stage;
    }
  }

  lemma UniqueInit(stage: seq<Tuple>)
    requires UniqueKeys(stage) && stage != []
    ensures UniqueKeys(stage[..|stage| - 1])
  {
    var init := stage[..|stage| - 1];
    forall i, j | 0 <= i < j < |init| ensures Key(init[i]) != Key(init[j]) {
      assert init[i] == stage[i] && init[j] == stage[j];
    }
  }

  lemma LastKeyFresh(stage: seq<Tuple>)
    requires UniqueKeys(stage) && stage != []
    ensures !HasKey(stage[..|stage| - 1], Key(stage[|stage| - 1]))
  {
    var init := stage[..|stage| - 1];
    forall i | 0 <= i < |init| ensures Key(init[i]) != Key(stage[|stage| - 1]) {
      assert init[i] == stage[i];
    }
  }

  /** Two rows of a table with distinct keys that share a key are the same row. */
  lemma UniqueSameKey(rows: seq<Tuple>, a: nat, b: nat)
    requires UniqueKeys(rows) && a < |rows| && b < |rows|
    requires Key(rows[a]) == Key(rows[b])
    ensures a == b
  {
  }

  /** Running the dedup statement twice deletes nothing more, whichever rows each run keeps. */
  lemma DedupIdempotent(stage: seq<Tuple>, p1: (Tuple, Tuple) -> bool, p2: (Tuple, Tuple) -> bool)
    ensures Dedup(Dedup(stage, p1), p2) == Dedup(stage, p1)
  {
    DedupOfUnique(Dedup(stage, p1), p2);
  }

  /** Choosing the rows equal to `stage[i]` keeps `stage[i]`: any staged row may be the survivor. */
  lemma DedupMayKeepAny(stage: seq<Tuple>, i: nat)
    requires i < |stage|
    ensures stage[i] in Dedup(stage, (held: Tuple, next: Tuple) => next == stage[i])
  {
    DedupKeepsPreferred(stage, (held: Tuple, next: Tuple) => next == stage[i], i);
  }

  lemma DedupKeepsPreferred(stage: seq<Tuple>, prefer: (Tuple, Tuple) -> bool, i: nat)
    requires i < |stage|
    requires forall held, next :: prefer(held, next) <==> next == stage[i]
    ensures stage[i] in Dedup(stage, prefer)
  {
    KeptUpTo(stage, prefer, i, |stage|);
    assert stage[..|stage|] == stage;
  }

  lemma {:induction false} KeptUpTo(stage: seq<Tuple>, prefer: (Tuple, Tuple) -> bool, i: nat, n: nat)
    requires i < n <= |stage|
    requires forall held, next :: prefer(held, next) <==> next == stage[i]
    ensures KeptAt(stage, n, prefer, stage[i])
    decreases n
  {
    if n == i + 1 {
      KeptOnceSeen(stage, i, prefer);
    } else {
      KeptUpTo(stage, prefer, i, n - 1);
      KeptStays(stage, n - 1, prefer, stage[i]);
    }
  }

  /** `x` survives the dedup of the first `n` staged rows. */
  predicate KeptAt(stage: seq<Tuple>, n: nat, prefer: (Tuple, Tuple) -> bool, x: Tuple)
    requires n <= |stage|
  {
    x in Dedup(stage[..n], prefer)
  }

  /** When the preferred row is staged, it is kept. */
  lemma KeptOnceSeen(stage: seq<Tuple>, i: nat, prefer: (Tuple, Tuple) -> bool)
    requires i < |stage|
    requires forall held :: prefer(held, stage[i])
    ensures KeptAt(stage, i + 1, prefer, stage[i])
  {
    assert stage[..i + 1][..i] == stage[..i];
    StepKeepsPreferred(Dedup(stage[..i], prefer), stage[i], prefer);
  }

  lemma StepKeepsPreferred(prev: seq<Tuple>, x: Tuple, prefer: (Tuple, Tuple) -> bool)
    requires UniqueKeys(prev)
    requires forall held :: prefer(held, x)
    ensures x in DedupStep(prev, x, prefer)
  {
    var r := DedupStep(prev, x, prefer);
    assert r[|r| - 1] == x;
  }

  /** A kept row that the choice always prefers stays kept when one more row is staged. */
  lemma KeptStays(stage: seq<Tuple>, n: nat, prefer: (Tuple, Tuple) -> bool, x: Tuple)
    requires n < |stage| && KeptAt(stage, n, prefer, x)
    requires forall held, next :: prefer(held, next) ==> next == x
    ensures KeptAt(stage, n + 1, prefer, x)
  {
    assert stage[..n + 1][..n] == stage[..n];
    StepKeepsHeld(Dedup(stage[..n], prefer), stage[n], prefer, x);
  }

  lemma StepKeepsHeld(prev: seq<Tuple>, last: Tuple, prefer: (Tuple, Tuple) -> bool, x: Tuple)
    requires UniqueKeys(prev) && x in prev
    requires forall held, next :: prefer(held, next) ==> next == x
    ensures x in DedupStep(prev, last, prefer)
  {
    var r := DedupStep(prev, last, prefer);
    if HasKey(prev, Key(last)) && prefer(FindKey(prev, Key(last)).value, last) {
      assert r[|r| - 1] == last;
    } else if !HasKey(prev, Key(last)) {
      assert r == prev + [last];
    }
  }

  // ---------------------------------------------------------------------
  // MERGE
  // ---------------------------------------------------------------------

  /** The first staged row with key `k`. */
  function FindKey(stage: seq<Tuple>, k: seq<string>): (r: Option<Tuple>)
    ensures r.Some? <==> HasKey(stage, k)
    ensures r.Some? ==> r.value in stage && Key(r.value) == k
  {
    if stage == [] then None
    else if Key(stage[0]) == k then Some(stage[0])
    else
      HasKeyTail(stage, k);
      FindKey(stage[1..], k)
  }

  /** A key the first row does not carry is in the table exactly when it is in the rest. */
  lemma HasKeyTail(rows: seq<Tuple>, k: seq<string>)
    requires rows != [] && Key(rows[0]) != k
    ensures HasKey(rows, k) <==> HasKey(rows[1..], k)
  {
    if HasKey(rows, k) {
      var i :| 0 <= i < |rows| && Key(rows[i]) == k;
      assert rows[1..][i - 1] == rows[i];
    }
    if HasKey(rows[1..], k) {
      var i :| 0 <= i < |rows[1..]| && Key(rows[1..][i]) == k;
      assert rows[i + 1] == rows[1..][i];
    }
  }

  lemma {:induction false} FindKeyUnique(stage: seq<Tuple>, i: nat)
    requires UniqueKeys(stage) && i < |stage|
    ensures FindKey(stage, Key(stage[i])) == Some(stage[i])
  {
    if i > 0 {
      assert Key(stage[0]) != Key(stage[i]);
      assert stage[1..][i - 1] == stage[i];
      FindKeyUnique(stage[1..], i - 1);
    }
  }

  /** Some target row is matched by two different staged rows: SQL Server refuses such a MERGE. */
  predicate Ambiguous(target: seq<Tuple>, stage: seq<Tuple>) {
    exists i, j1, j2 :: 0 <= i < |target| && 0 <= j1 < j2 < |stage|
      && Key(stage[j1]) == Key(target[i]) && Key(stage[j2]) == Key(target[i])
  }

  datatype MergeResult = Merged(rows: seq<Tuple>) | MultipleMatches

  /** WHEN MATCHED THEN UPDATE: every column of the target row takes the staged row's value. */
  function Updated(target: seq<Tuple>, stage: seq<Tuple>): (r: seq<Tuple>)
    ensures |r| == |target|
    ensures forall i :: 0 <= i < |target| && !HasKey(stage, Key(target[i])) ==> r[i] == target[i]
    ensures forall i :: 0 <= i < |target| && HasKey(stage, Key(target[i])) ==> r[i] in stage
    ensures forall i :: 0 <= i < |target| ==> Key(r[i]) == Key(target[i])
  {
    seq(|target|, i requires 0 <= i < |target| =>
      match FindKey(stage, Key(target[i])) case Some(s) => s case None => target[i])
  }

  predicate NotInTarget(target: seq<Tuple>, s: Tuple) {
    !HasKey(target, Key(s))
  }

  /** WHEN NOT MATCHED BY TARGET THEN INSERT: the staged rows whose key no target row has. */
  function Inserted(target: seq<Tuple>, stage: seq<Tuple>): (r: seq<Tuple>)
    ensures forall i :: 0 <= i < |r| ==> r[i] in stage && !HasKey(target, Key(r[i]))
    ensures forall j :: 0 <= j < |stage| && !HasKey(target, Key(stage[j])) ==> stage[j] in r
  {
    Filter(stage, s => NotInTarget(target, s))
  }

  /** The MERGE statement: the updated target rows followed by the inserted ones. */
  function Merge(target: seq<Tuple>, stage: seq<Tuple>): (r: MergeResult)
    ensures r.MultipleMatches? <==> Ambiguous(target, stage)
    ensures r.Merged? ==> |target| <= |r.rows| <= |target| + |stage|
  {
    if Ambiguous(target, stage) then MultipleMatches
    else Merged(Updated(target, stage) + Inserted(target, stage))
  }

  /** After the dedup statement the MERGE never meets a target row matched twice. */
  lemma DedupedMergeSucceeds(target: seq<Tuple>, stage: seq<Tuple>, prefer: (Tuple, Tuple) -> bool)
    ensures Merge(target, Dedup(stage, prefer)).Merged?
  {
  }

  /** A target row whose key no staged row carries is left as it was. */
  lemma MergeLeavesOthers(target: seq<Tuple>, stage: seq<Tuple>, i: nat)
    requires Merge(target, stage).Merged? && i < |target|
    requires !HasKey(stage, Key(target[i]))
    ensures Merge(target, stage).rows[i] == target[i]
  {
  }

  /** A matched target row becomes the staged row with its key, column for column. */
  lemma MergeUpdatesMatched(target: seq<Tuple>, stage: seq<Tuple>, i: nat, j: nat)
    requires Merge(target, stage).Merged? && i < |target| && j < |stage|
    requires Key(stage[j]) == Key(target[i])
    ensures Merge(target, stage).rows[i] == stage[j]
  {
    FindKeyOnly(stage, Key(target[i]), j);
  }

  /** When only row `j` carries key `k`, it is the one found. */
  lemma {:induction false} FindKeyOnly(stage: seq<Tuple>, k: seq<string>, j: nat)
    requires j < |stage| && Key(stage[j]) == k
    requires forall a, b :: 0 <= a < b < |stage| ==> Key(stage[a]) != k || Key(stage[b]) != k
    ensures FindKey(stage, k) == Some(stage[j])
  {
    if j > 0 {
      assert Key(stage[0]) != k;
      var tail := stage[1..];
      forall a, b | 0 <= a < b < |tail| ensures Key(tail[a]) != k || Key(tail[b]) != k {
        assert tail[a] == stage[a + 1] && tail[b] == stage[b + 1];
      }
      assert tail[j - 1] == stage[j];
      FindKeyOnly(tail, k, j - 1);
    }
  }

  /** Every staged row ends up in the target: as an update or as an insert. */
  lemma MergeContainsStage(target: seq<Tuple>, stage: seq<Tuple>, j: nat)
    requires Merge(target, stage).Merged? && j < |stage|
    ensures stage[j] in Merge(target, stage).rows
  {
    var rows := Merge(target, stage).rows;
    if HasKey(target, Key(stage[j])) {
      var i :| 0 <= i < |target| && Key(target[i]) == Key(stage[j]);
      MergeUpdatesMatched(target, stage, i, j);
      assert rows[i] == stage[j];
    } else {
      assert stage[j] in Inserted(target, stage);
    }
  }

  /** With distinct keys on both sides, the merged table still has one row per key. */
  lemma MergeKeepsKeysUnique(target: seq<Tuple>, stage: seq<Tuple>)
    requires UniqueKeys(target) && UniqueKeys(stage)
    ensures Merge(target, stage).Merged?
    ensures UniqueKeys(Merge(target, stage).rows)
  {
    var up := Updated(target, stage);
    var ins := Inserted(target, stage);
    var rows := up + ins;
    InsertedUnique(target, stage);
    forall i, j | 0 <= i < j < |rows| ensures Key(rows[i]) != Key(rows[j]) {
      if j < |up| {
        assert Key(rows[i]) == Key(target[i]) && Key(rows[j]) == Key(target[j]);
      } else if i < |up| {
        assert Key(rows[i]) == Key(target[i]);
        assert rows[j] == ins[j - |up|];
      } else {
        assert rows[i] == ins[i - |up|] && rows[j] == ins[j - |up|];
      }
    }
  }

  lemma InsertedUnique(target: seq<Tuple>, stage: seq<Tuple>)
    requires UniqueKeys(stage)
    ensures UniqueKeys(Inserted(target, stage))
  {
    FilterUnique(stage, s => NotInTarget(target, s));
  }

  lemma {:induction false} FilterUnique(xs: seq<Tuple>, p: Tuple -> bool)
    requires UniqueKeys(xs)
    ensures UniqueKeys(Filter(xs, p))
  {
    if xs != [] {
      var tail := xs[1..];
      UniqueTail(xs);
      FilterUnique(tail, p);
      var rest := Filter(tail, p);
      var r := Filter(xs, p);
      if p(xs[0]) {
        assert r == [xs[0]] + rest;
        forall j | 0 < j < |r| ensures Key(r[0]) != Key(r[j]) {
          assert r[j] == rest[j - 1];
          HeadKeyFresh(xs, rest[j - 1]);
        }
      } else {
        assert r == rest;
      }
    }
  }

  lemma UniqueTail(xs: seq<Tuple>)
    requires UniqueKeys(xs) && xs != []
    ensures UniqueKeys(xs[1..])
  {
    var tail := xs[1..];
    forall i, j | 0 <= i < j < |tail| ensures Key(tail[i]) != Key(tail[j]) {
      assert tail[i] == xs[i + 1] && tail[j] == xs[j + 1];
    }
  }

  /** In a table with distinct keys, no later row shares the first row's key. */
  lemma HeadKeyFresh(xs: seq<Tuple>, y: Tuple)
    requires UniqueKeys(xs) && xs != [] && y in xs[1..]
    ensures Key(xs[0]) != Key(y)
  {
    var m :| 0 <= m < |xs[1..]| && xs[1..][m] == y;
    assert xs[m + 1] == y;
  }

  /** Merging the same deduplicated stage a second time changes nothing. */
  lemma MergeIdempotent(target: seq<Tuple>, stage: seq<Tuple>)
    requires UniqueKeys(stage)
    ensures Merge(target, stage).Merged?
    ensures Merge(Merge(target, stage).rows, stage) == Merge(target, stage)
  {
    var rows := Merge(target, stage).rows;
    UniqueNotAmbiguous(rows, stage);
    UpdateAgainChangesNothing(target, stage);
    InsertAgainAddsNothing(target, stage);
    assert rows + [] == rows;
  }

  lemma UniqueNotAmbiguous(target: seq<Tuple>, stage: seq<Tuple>)
    requires UniqueKeys(stage)
    ensures !Ambiguous(target, stage)
  {
  }

  lemma UpdateAgainChangesNothing(target: seq<Tuple>, stage: seq<Tuple>)
    requires UniqueKeys(stage)
    ensures Merge(target, stage).Merged?
    ensures Updated(Merge(target, stage).rows, stage) == Merge(target, stage).rows
  {
    var rows := Merge(target, stage).rows;
    var up := Updated(rows, stage);
    forall i | 0 <= i < |rows| ensures up[i] == rows[i] {
      if HasKey(stage, Key(rows[i])) {
        var j :| 0 <= j < |stage| && Key(stage[j]) == Key(rows[i]);
        FindKeyUnique(stage, j);
        RowWithStageKey(target, stage, i, j);
      }
    }
  }

  /** A merged row carrying the key of staged row `j` is that staged row. */
  lemma RowWithStageKey(target: seq<Tuple>, stage: seq<Tuple>, i: nat, j: nat)
    requires UniqueKeys(stage) && j < |stage|
    requires Merge(target, stage).Merged? && i < |Merge(target, stage).rows|
    requires Key(Merge(target, stage).rows[i]) == Key(stage[j])
    ensures Merge(target, stage).rows[i] == stage[j]
  {
    var rows := Merge(target, stage).rows;
    if i < |target| {
      MergeUpdatesMatched(target, stage, i, j);
    } else {
      var ins := Inserted(target, stage);
      assert rows[i] == ins[i - |target|];
      var m :| 0 <= m < |stage| && stage[m] == rows[i];
      UniqueSameKey(stage, m, j);
    }
  }

  lemma InsertAgainAddsNothing(target: seq<Tuple>, stage: seq<Tuple>)
    requires UniqueKeys(stage)
    ensures Merge(target, stage).Merged?
    ensures Inserted(Merge(target, stage).rows, stage) == []
  {
    var rows := Merge(target, stage).rows;
    forall j | 0 <= j < |stage| ensures HasKey(rows, Key(stage[j])) {
      MergeContainsStage(target, stage, j);
      var i :| 0 <= i < |rows| && rows[i] == stage[j];
    }
    FilterNone(stage, s => NotInTarget(rows, s));
  }

  lemma {:induction false} FilterNone(xs: seq<Tuple>, p: Tuple -> bool)
    requires forall i :: 0 <= i < |xs| ==> !p(xs[i])
    ensures Filter(xs, p) == []
  {
    if xs != [] {
      FilterNone(xs[1..], p);
    }
  }

  // ---------------------------------------------------------------------
  // One window
  // ---------------------------------------------------------------------

  datatype WindowOutcome = Skipped | Done(inserted: nat, table: seq<Tuple>)

  /**
   * merge_window_to_target after the fetch: nothing happens when the fetch
   * returned no rows; otherwise the rows are staged, deduplicated (keeping
   * the rows `prefer` picks) and merged.
   */
  function MergeWindow(target: seq<Tuple>, rows: seq<Row>, prefer: (Tuple, Tuple) -> bool): (r: WindowOutcome)
  {
    if rows == [] then Skipped
    else
      match Merge(target, Dedup(StageTuples(rows), prefer))
      case Merged(table) => Done(|rows|, table)
      case MultipleMatches => Skipped
  }

  /** A window with rows always merges, reports every fetched row as staged, and keeps one row per key. */
  lemma MergeWindowOutcome(target: seq<Tuple>, rows: seq<Row>, prefer: (Tuple, Tuple) -> bool)
    ensures MergeWindow(target, rows, prefer).Skipped? <==> rows == []
    ensures MergeWindow(target, rows, prefer).Done? ==> MergeWindow(target, rows, prefer).inserted == |rows|
    ensures MergeWindow(target, rows, prefer).Done? && UniqueKeys(target) ==>
      UniqueKeys(MergeWindow(target, rows, prefer).table)
    ensures MergeWindow(target, rows, prefer).Done? ==>
      forall k :: HasKey(StageTuples(rows), k) ==> HasKey(MergeWindow(target, rows, prefer).table, k)
  {
    var stage := Dedup(StageTuples(rows), prefer);
    DedupedMergeSucceeds(target, StageTuples(rows), prefer);
    if rows != [] {
      var table := Merge(target, stage).rows;
      if UniqueKeys(target) {
        MergeKeepsKeysUnique(target, stage);
      }
      forall k | HasKey(StageTuples(rows), k) ensures HasKey(table, k) {
        assert HasKey(stage, k);
        var j :| 0 <= j < |stage| && Key(stage[j]) == k;
        MergeContainsStage(target, stage, j);
        var i :| 0 <= i < |table| && table[i] == stage[j];
      }
    }
  }

  /**
   * Re-running a window whose fetched rows carry distinct keys, on the
   * table it produced, changes nothing, whichever rows either run keeps.
   */
  lemma MergeWindowIdempotent(target: seq<Tuple>, rows: seq<Row>, p1: (Tuple, Tuple) -> bool,
                              p2: (Tuple, Tuple) -> bool)
    requires rows != [] && UniqueKeys(StageTuples(rows))
    ensures MergeWindow(target, rows, p1).Done?
    ensures MergeWindow(MergeWindow(target, rows, p1).table, rows, p2) == MergeWindow(target, rows, p1)
  {
    var stage := StageTuples(rows);
    DedupOfUnique(stage, p1);
    DedupOfUnique(stage, p2);
    MergeIdempotent(target, stage);
  }

  /**
   * Re-running any window on the table it produced inserts nothing: the
   * table keeps its length and the key of every row, though a key group
   * with several staged rows may now take another of them.
   */
  lemma MergeWindowRerunKeepsKeys(target: seq<Tuple>, rows: seq<Row>, p1: (Tuple, Tuple) -> bool,
                                  p2: (Tuple, Tuple) -> bool)
    requires rows != []
    ensures MergeWindow(target, rows, p1).Done?
    ensures MergeWindow(MergeWindow(target, rows, p1).table, rows, p2).Done?
    ensures |MergeWindow(MergeWindow(target, rows, p1).table, rows, p2).table|
         == |MergeWindow(target, rows, p1).table|
    ensures forall i :: 0 <= i < |MergeWindow(target, rows, p1).table| ==>
      Key(MergeWindow(MergeWindow(target, rows, p1).table, rows, p2).table[i])
        == Key(MergeWindow(target, rows, p1).table[i])
  {
    MergeWindowOutcome(target, rows, p1);
    var table := MergeWindow(target, rows, p1).table;
    var stage := Dedup(StageTuples(rows), p2);
    DedupedMergeSucceeds(table, StageTuples(rows), p2);
    forall j | 0 <= j < |stage| ensures !NotInTarget(table, stage[j]) {
      assert HasKey(stage, Key(stage[j]));
    }
    FilterNone(stage, s => NotInTarget(table, s));
    assert Merge(table, stage).rows == Updated(table, stage) + [];
  }
}
