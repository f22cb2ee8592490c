/**
 * The client of the V8 CSV-import endpoints: reading the job id out of a
 * response, normalising the job's status text and classifying it as done,
 * failed or pending.  The HTTP exchange itself is a parameter: the model
 * receives the status code and the decoded body.
 */
module V8Client {
  import opened Base
  import opened Js

  /** `payload.jobId ?? payload.job_id ?? payload.id ?? ''`. */
  function IdField(payload: JsValue): JsValue
  {
    Coalesce(Coalesce(Coalesce(Get(payload, "jobId"), Get(payload, "job_id")), Get(payload, "id")), JStr(""))
  }

  /**
   * `extractJobId`: the trimmed top-level id, or else the one inside
   * `payload.data`; the empty text for anything that is not an object.
   */
  function ExtractJobId(payload: JsValue): (r: string)
    ensures !Truthy(payload) || !IsObjectType(payload) ==> r == ""
    ensures Truthy(payload) && IsObjectType(payload) && Truthy(IdField(payload)) ==> r == JsTrim(ToStr(IdField(payload)))
    ensures r == [] || (!IsJsSpace(r[0]) && !IsJsSpace(r[|r| - 1]))
  {
    if !Truthy(payload) || !IsObjectType(payload) then ""
    else
      var direct := IdField(payload);
      var data := Get(payload, "data");
      var nested := if Truthy(data) && IsObjectType(data) then IdField(data) else JStr("");
      TrimmedText(Or(direct, nested))
  }

  /** A top-level text id wins over the nested one, whatever `data` holds. */
  lemma DirectIdWins(id: string, rest: seq<(string, JsValue)>)
    requires id != []
    ensures ExtractJobId(JObj([("jobId", JStr(id))] + rest)) == JsTrim(id) || exists i :: 0 <= i < |rest| && rest[i].0 == "jobId"
  {
    if forall i :: 0 <= i < |rest| ==> rest[i].0 != "jobId" {
      DirectIdUsed(id, rest);
    }
  }

  lemma DirectIdUsed(id: string, rest: seq<(string, JsValue)>)
    requires id != [] && forall i :: 0 <= i < |rest| ==> rest[i].0 != "jobId"
    ensures ExtractJobId(JObj([("jobId", JStr(id))] + rest)) == JsTrim(id)
  {
    var p := JObj([("jobId", JStr(id))] + rest);
    LookupFirstOnly(id, rest);
    assert Get(p, "jobId") == JStr(id);
    assert IdField(p) == JStr(id);
    assert Truthy(p) && IsObjectType(p) && Truthy(JStr(id));
    assert ToStr(JStr(id)) == id;
  }

  lemma {:induction false} LookupFirstOnly(id: string, rest: seq<(string, JsValue)>)
    requires forall i :: 0 <= i < |rest| ==> rest[i].0 != "jobId"
    ensures Lookup([("jobId", JStr(id))] + rest, "jobId") == JStr(id)
    decreases |rest|
  {
    if rest != [] {
      var all := [("jobId", JStr(id))] + rest;
      assert all[..|all| - 1] == [("jobId", JStr(id))] + rest[..|rest| - 1];
      LookupFirstOnly(id, rest[..|rest| - 1]);
    }
  }

  /** When no top-level id is present, the id comes from `data`. */
  lemma NestedIdUsed(inner: seq<(string, JsValue)>)
    requires Truthy(IdField(JObj(inner)))
    ensures ExtractJobId(JObj([("data", JObj(inner))])) == JsTrim(ToStr(IdField(JObj(inner))))
  {
    var p := JObj([("data", JObj(inner))]);
    var nested := IdField(JObj(inner));
    assert Get(p, "data") == JObj(inner);
    assert IdField(p) == JStr("") by {
      assert Get(p, "jobId") == JUndefined && Get(p, "job_id") == JUndefined && Get(p, "id") == JUndefined;
    }
    NestedOnly(p, nested);
  }

  /** Without a truthy top-level id (absent, empty, 0, false or null), the nested one is read. */
  lemma NestedOnly(p: JsValue, nested: JsValue)
    requires p.JObj? && Truthy(nested) && !Truthy(IdField(p))
    requires Truthy(Get(p, "data")) && IsObjectType(Get(p, "data")) && IdField(Get(p, "data")) == nested
    ensures ExtractJobId(p) == JsTrim(ToStr(nested))
  {
    assert Truthy(p) && IsObjectType(p);
    assert Or(IdField(p), nested) == nested;
    assert ExtractJobId(p) == TrimmedText(nested);
    NotNullishText(nested);
  }

  /** A truthy value reads as its own text. */
  lemma NotNullishText(v: JsValue)
    requires Truthy(v)
    ensures TrimmedText(v) == JsTrim(ToStr(v))
  {
    assert !IsNullish(v);
  }

  /** `normalizeStatusToken`: trimmed, accents removed, lower case. */
  function NormalizeStatusToken(value: JsValue): (r: string)
    ensures |r| <= |TextOf(value)|
    ensures forall i :: 0 <= i < |r| ==> !IsCombiningMark(r[i]) && !IsAsciiUpper(r[i])
  {
    var s := StripAccents(TrimmedText(value));
    var r := Lower(s);
    assert forall i :: 0 <= i < |r| ==> r[i] == LowerChar(s[i]) && !IsCombiningMark(s[i]);
    r
  }

  const DONE_WORDS: seq<string> := ["done", "completed", "concluido", "concluido_com_sucesso", "success", "sucesso"]
  const FAILED_WORDS: seq<string> := ["error", "erro", "failed", "falha"]

  predicate ContainsAny(token: string, words: seq<string>) {
    exists k :: 0 <= k < |words| && Contains(token, words[k])
  }

  predicate IsDone(token: string) { ContainsAny(token, DONE_WORDS) }
  predicate IsFailed(token: string) { ContainsAny(token, FAILED_WORDS) }

  datatype JobStatus = JobStatus(done: bool, failed: bool, pending: bool)

  /** The classification of a status token; a job is pending when it is neither done nor failed. */
  function Classify(token: string): (r: JobStatus)
    ensures r.done <==> IsDone(token)
    ensures r.failed <==> IsFailed(token)
    ensures r.pending <==> !r.done && !r.failed
  {
    var done := IsDone(token);
    var failed := IsFailed(token);
    JobStatus(done, failed, !done && !failed)
  }

  /** A text containing `p + q` contains `p`. */
  lemma {:induction false} ContainsPrefix(s: string, p: string, q: string)
    requires Contains(s, p + q)
    ensures Contains(s, p)
  {
    if StartsWith(s, p + q) {
      assert s[..|p|] == (p + q)[..|p|] == p;
    } else {
      ContainsPrefix(s[1..], p, q);
    }
  }

  /** "error" and "concluido_com_sucesso" are redundant: they contain "erro" and "concluido". */
  lemma FailedIff(token: string)
    ensures IsFailed(token) <==> Contains(token, "erro") || Contains(token, "failed") || Contains(token, "falha")
  {
    if Contains(token, "error") {
      assert "error" == "erro" + "r";
      ContainsPrefix(token, "erro", "r");
    }
    if Contains(token, "erro") { assert Contains(token, FAILED_WORDS[1]); }
    if Contains(token, "failed") { assert Contains(token, FAILED_WORDS[2]); }
    if Contains(token, "falha") { assert Contains(token, FAILED_WORDS[3]); }
  }

  lemma DoneIff(token: string)
    ensures IsDone(token) <==>
      Contains(token, "done") || Contains(token, "completed") || Contains(token, "concluido")
      || Contains(token, "success") || Contains(token, "sucesso")
  {
    if Contains(token, "concluido_com_sucesso") {
      assert "concluido_com_sucesso" == "concluido" + "_com_sucesso";
      ContainsPrefix(token, "concluido", "_com_sucesso");
    }
    if Contains(token, "done") { assert Contains(token, DONE_WORDS[0]); }
    if Contains(token, "completed") { assert Contains(token, DONE_WORDS[1]); }
    if Contains(token, "concluido") { assert Contains(token, DONE_WORDS[2]); }
    if Contains(token, "success") { assert Contains(token, DONE_WORDS[4]); }
    if Contains(token, "sucesso") { assert Contains(token, DONE_WORDS[5]); }
  }

  /** The outcome of `importarCsvV8` once the response is in. */
  datatype ImportOutcome =
    | ImportFailed(message: string)
    | ImportAccepted(statusCode: int, accepted: bool, jobId: string)

  /** `data?.error || \`HTTP ${status}\``, as the thrown error's message. */
  function ErrorMessage(status: int, data: JsValue): string
  {
    ToStr(Or(Get(data, "error"), JStr("HTTP " + IntToString(status))))
  }

  function ImportResult(status: int, data: JsValue): (r: ImportOutcome)
    ensures r.ImportAccepted? <==> status in {200, 201, 202} && Get(data, "ok") != JBool(false)
    ensures r.ImportAccepted? ==> r.statusCode == status && (r.accepted <==> status == 202) && r.jobId == ExtractJobId(data)
  {
    if status !in {200, 201, 202} || Get(data, "ok") == JBool(false) then ImportFailed(ErrorMessage(status, data))
    else ImportAccepted(status, status == 202, ExtractJobId(data))
  }

  /** The job id a status request is sent with, or `None` when it fails before any request. */
  function StatusRequestId(jobId: JsValue): (r: Option<string>)
    ensures r == None <==> TrimmedText(jobId) == []
    ensures r.Some? ==> r.value == TrimmedText(jobId)
  {
    var id := TrimmedText(jobId);
    if id == [] then None else Some(id)
  }

  datatype StatusOutcome =
    | StatusFailed(message: string)
    | StatusReport(statusCode: int, jobId: string, status: JobStatus, token: string)

  /** The status token: `status`, `state`, `situacao`, `jobStatus`, then `data.status`. */
  function StatusField(data: JsValue): JsValue
  {
    Coalesce(Coalesce(Coalesce(Coalesce(Coalesce(Get(data, "status"), Get(data, "state")),
      Get(data, "situacao")), Get(data, "jobStatus")), Get(Get(data, "data"), "status")), JStr(""))
  }

  /** `consultarImportacaoCsvV8Status` once the response to a request for `id` is in. */
  function StatusResult(id: string, status: int, data: JsValue): (r: StatusOutcome)
    requires id != []
    ensures r.StatusReport? <==> 200 <= status <= 299 && Get(data, "ok") != JBool(false)
    ensures r.StatusReport? ==> (r.status.pending <==> !r.status.done && !r.status.failed)
    ensures r.StatusReport? ==> r.jobId != []
    ensures r.StatusReport? && ExtractJobId(data) == [] ==> r.jobId == id
    ensures r.StatusReport? && ExtractJobId(data) != [] ==> r.jobId == ExtractJobId(data)
    ensures r.StatusReport? ==> r.token == NormalizeStatusToken(StatusField(data)) && r.status == Classify(r.token)
  {
    if !(200 <= status <= 299) || Get(data, "ok") == JBool(false) then StatusFailed(ErrorMessage(status, data))
    else
      var token := NormalizeStatusToken(StatusField(data));
      var extracted := ExtractJobId(data);
      StatusReport(status, if extracted != [] then extracted else id, Classify(token), token)
  }
}
