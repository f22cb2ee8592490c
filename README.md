# NewCorban proposal sync and operations console — Dafny model

This project models the core of a system that keeps a SQL Server table of loan proposals
("propostas") in step with the partner API of the NewCorban platform, together with the pure
helpers of the React operations console and its small Node services that sit around that table
(batch CPF queries, the V8 credit-limit consultations, WhatsApp channel status and bulk sends,
backups, users and permissions, reports, top-ups and ticket queues).

One module per core file, plus shared modules:

- Base (base.dfy): Option/Result, character classes, trimming, case folding, digit helpers shared by all modules.
- Py (pyvalue.dfy): Python values as the sync script sees them (None, bool, int, str, dict, list).
- Js (jsvalue.dfy): JavaScript values (null, undefined, booleans, integer numbers, strings, arrays, objects) with `String(x)`, `Number(x)`, truthiness and `??`.
- Keyed, Grouping, IndexedRows (keyed.dfy, grouping.dfy, indexed_rows.dfy): first-seen grouping, keep-last-by-key and indexed rows used by several pages.
- SyncFields (sync_fields.dfy): from `API-NewCorban-RT.py`, field normalisation, the fallback lookup across nested objects, phone-entry selection, progress and ETA text, the 20/50-minute alignment and the operating-hours gate.
- SyncMerge (sync_merge.dfy): the staging insert, the ROW_NUMBER dedup and the MERGE into the target table.
- SyncScheduler (sync_scheduler.dfy): the half-month ("quinzena") window sweep of `run_loop`, `load_state` and `save_state`.
- ConsultaPresenca, ConsultaLote (consulta_presenca.dfy, consulta_lote.dfy): `src/pages/ConsultaPresenca.jsx`: CSV reading and writing, CPF batch normalisation, lot grouping.
- ConsultasV8 (consultas_v8.dfy): `src/pages/ConsultasV8.jsx`.
- ClienteArgus (cliente_argus.dfy): `src/pages/ClienteArgus.jsx`.
- AcompanhamentoDisparos (acompanhamento_disparos.dfy): `src/pages/AcompanhamentoDisparos.jsx`.
- StatusWhatsapp (status_whatsapp.dfy): `src/pages/StatusWhatsapp.jsx`.
- GeradorSitesV3, GeradorSites (gerador_sites_v3.dfy, gerador_sites.dfy): `src/pages/GeradorSitesV3.jsx`, `src/pages/GeradorSites.jsx`.
- Relatorios (relatorios.dfy): `src/pages/Relatorios.jsx`.
- Backups (backups.dfy): `src/pages/Backups.jsx`.
- UsuariosBmControles, Usuarios (usuarios_bm_controles.dfy, usuarios.dfy): `src/pages/UsuariosBmControles.jsx`, `src/pages/Usuarios.jsx` (the permission drafts as a class).
- MultiploDisparos (multiplo_disparos.dfy): `src/pages/MultiploDisparos.jsx` (batch-size and interval state as classes).
- Recargas, HistoricoConsultas (recargas.dfy, historico_consultas.dfy): the two paginated pages (pagers as classes).
- PresencaPending (presenca_pending.dfy): `api/presenca/pending.js`.
- AndamentoServer (andamento_server.dfy): `Andamento/server.js`.
- V8Client (v8_client.dfy): `src/services/v8Client.js`.
- LoadingContext (loading_context.dfy): `src/context/LoadingContext.jsx` (the counter provider as a class).
- FilaMilvus, UsuariosZapresponder (fila_milvus.dfy, usuarios_zapresponder.dfy): `src/pages/FilaMilvus.jsx`, `src/pages/UsuariosZapresponder.jsx`.

Loops of the source (the window sweep, the staging insert, CSV scanners, groupings, the pending-row
validation) are methods with loop invariants, proved against the functions that specify them;
React state updates on a component's fields are classes whose methods modify those fields.

## Model

| member | source | states |
|---|---|---|

| SyncFields.NormalizeValueText | API-NewCorban-RT.py:129-137 | None stays None; a bool gives '1'/'0'; an int its decimal text; other text is stripped, and blank text gives None; every non-None result is stripped, non-blank text |
| SyncFields.NormalizeValueTextIdempotent | API-NewCorban-RT.py:129-137 | normalising a stored value a second time returns it unchanged |
| SyncFields.Normalize4000 | API-NewCorban-RT.py:139-145 | None exactly when the normalised text is None; otherwise a prefix of the normalised text of at most 4000 characters, the whole text when it already fits |
| SyncFields.BitFlag | API-NewCorban-RT.py:606-609 | tri-state flag: '1' exactly for True, 1, '1', 'true', 'True'; None exactly for None and ''; '0' for anything else |
| SyncFields.BitFlagStable | API-NewCorban-RT.py:606-609 | re-coercing a stored flag text gives the same flag |
| SyncFields.ProposalId | API-NewCorban-RT.py:537-538 | None exactly for None, '' and an empty list; otherwise stripped text |
| SyncFields.DigitsOnly | API-NewCorban-RT.py:172-176 | the result is all digits, and for text it is exactly the text's digits in order |
| SyncFields.NormalizeDigits | API-NewCorban-RT.py:178-182 | None exactly when the value has no digits; otherwise a digit prefix of them, of length min(digits, max_len), or all of them when no limit is given |
| SyncFields.NormalizeUf | API-NewCorban-RT.py:153-170 | every result is one of the 27 UF codes; None, blank text give None |
| SyncFields.NormalizeUfCode | API-NewCorban-RT.py:163-164 | every valid two-letter code passes through unchanged |
| SyncFields.NormalizeUfName | API-NewCorban-RT.py:159-170 | every state name of the table maps to its own code |
| SyncFields.NormalizeUfPlain | API-NewCorban-RT.py:165-170 | a plain upper-case name longer than two letters is looked up as it stands, so an unknown name gives None |
| SyncFields.CollapsePlainName | API-NewCorban-RT.py:166-169 | `' '.join(s.split())` leaves a name with single inner spaces unchanged |
| SyncFields.FirstUsable | API-NewCorban-RT.py:233-254 | the first candidate that is neither None nor blank text, with every earlier candidate unusable; None exactly when no candidate is usable |
| SyncFields.Candidates | API-NewCorban-RT.py:233-236 | one candidate per (source, key) pair, every key of a source before the next source |
| SyncFields.Walk | API-NewCorban-RT.py:239-247 | following a nested key path fails as soon as a step starts from something that is not a dict |
| SyncFields.Resolve | API-NewCorban-RT.py:234-237 | a source that is not a dict, or a None key, contributes nothing |
| SyncFields.GetFirstValue | API-NewCorban-RT.py:228-254 | the result is None or a usable value (not None, not blank text) |
| SyncFields.FirstSourceWins | API-NewCorban-RT.py:233-252 | a usable value under any key of the first source wins over every later source |
| SyncFields.NonDictSourceSkipped | API-NewCorban-RT.py:234-235 | a source that is not a dict is skipped |
| SyncFields.FirstDict | API-NewCorban-RT.py:262-266 | the first dict among the values, or an empty dict when there is none |
| SyncFields.FindById | API-NewCorban-RT.py:279-283 | the first candidate whose telefone_id/id/telefoneId has the client's id as text; none exactly when no candidate matches |
| SyncFields.PickPhoneEntry | API-NewCorban-RT.py:256-285 | always a dict when it does not fail; `{}` when the client is not a dict; fails (None, Python's TypeError) exactly when the client's phones are a dict and its telefone_id is a list or dict |
| SyncFields.PickFromDict | API-NewCorban-RT.py:268-273 | phones held as a dict: fails exactly when the telefone_id is unhashable (a list or dict); otherwise the entry under the id when that is a dict, else the first dict among the dict's values in key order, or `{}` when it is not; a repeated key reads as its last value |
| SyncFields.PickFromDictRepeatedKey | API-NewCorban-RT.py:268-273 | about `PickFromDict`: with the key "a" written twice, the first time with a dict, the later plain value shadows it and the result is `{}` |
| Py.Lookup | API-NewCorban-RT.py:270 | `tels.get(key)`: the value bound last to the key in the decoded object, None when the key is absent |
| Py.DictEntriesExact | API-NewCorban-RT.py:273 | about `DictEntries` and `DictKeys`: the dict a decoded object gives holds every key written, each once, with the value `get` returns for it, which is what `values()` and `str` see |
| SyncFields.PickFromList | API-NewCorban-RT.py:275-283 | phones held as a list: always a dict |
| SyncFields.PickFromListMatches | API-NewCorban-RT.py:275-283 | in a phone list, an entry whose id matches the client's telefone_id is chosen over the first dict |
| SyncFields.PickPhoneEntryMatches | API-NewCorban-RT.py:256-283 | a client whose phone list holds a matching entry gets an entry of that list whose id matches |
| SyncFields.GetPhoneField | API-NewCorban-RT.py:287-294 | the value of the first key whose value is neither None nor ''; None exactly when every key is missing or empty |
| SyncFields.FilledCells | API-NewCorban-RT.py:189-191 | `int(width*cur/total)` is at most width and equals width exactly when cur == total |
| SyncFields.Percent | API-NewCorban-RT.py:193 | the percentage is at most 100 and is 100 exactly when cur == total |
| SyncFields.Clamp | API-NewCorban-RT.py:188 | the current count is clamped into [0, total] and left alone inside it |
| SyncFields.FormatProgress | API-NewCorban-RT.py:184-194 | a bar of exactly `width` '#'/'-' cells between brackets; all '-' when total <= 0; the first `filled` cells are '#' otherwise |
| SyncFields.EtaParts | API-NewCorban-RT.py:196-202 | hours, minutes < 60 and seconds < 60 that add back up to the clamped seconds |
| SyncFields.Pad2ReadsBack | API-NewCorban-RT.py:202 | the `{n:02d}` text of n reads back as n |
| SyncFields.ClockFieldsReadBack | API-NewCorban-RT.py:202 | about `ClockFields`: with minutes and seconds below 60, the `h:m:s` text has colons three and six places from the end and its three digit fields read back as h, m and s |
| SyncFields.FormatEta | API-NewCorban-RT.py:196-202 | HH:MM:SS text: colons three and six places from the end, two-digit minutes and seconds, and the hours, minutes and seconds fields read back as EtaParts(seconds) (`total // 3600`, `(total % 3600) // 60`, `total % 60`) |
| SyncFields.SecondsUntilAlignment | API-NewCorban-RT.py:207-226 | 0 exactly at hh:20:00 or hh:50:00; otherwise the whole seconds (at least 1, at most 1800) that reach the next minute 20 or 50 |
| SyncFields.AlignmentLandsOnTarget | API-NewCorban-RT.py:213-225 | from a whole second, sleeping the returned seconds lands on minute 20 or 50 |
| SyncFields.OperatingWindowMinutes | API-NewCorban-RT.py:706-712 | the gate is open exactly from 07:50 to 20:50 inclusive, and on Monday to Saturday when restricted to weekdays |
| SyncMerge.StageValue | API-NewCorban-RT.py:408-412 | date, flag and proposta_id columns are staged raw; every other column is cut to at most 4000 characters, a missing value staying None |
| SyncMerge.StageTuple | API-NewCorban-RT.py:407-413 | one staged value per column |
| SyncMerge.BuildTuple | API-NewCorban-RT.py:407-413 | the column loop builds, for each column in order, the value StageValue defines |
| SyncMerge.StageTupleOf | API-NewCorban-RT.py:407-413 | a tuple holding each column's staged value is the row's staged tuple |
| SyncMerge.InsertIntoStage | API-NewCorban-RT.py:396-425 | the batches sent, concatenated, are the staged rows in order; each batch holds 1 to 500 rows, all but the last exactly 500; total is the row count; ceil(n/500) batches |
| SyncMerge.KeyPart | API-NewCorban-RT.py:460 | `LTRIM(RTRIM(ISNULL(v,'')))` under a case-insensitive collation: NULL gives the empty key; the key has no surrounding spaces |
| SyncMerge.KeyPartOfUpper | API-NewCorban-RT.py:472-475 | values differing only in letter case compare equal (upper-cased form) |
| SyncMerge.KeyPartOfLower | API-NewCorban-RT.py:472-475 | values differing only in letter case compare equal (lower-cased form) |
| SyncMerge.Key | API-NewCorban-RT.py:72-73 | six key parts, one per merge-key column |
| SyncMerge.NullMatchesBlank | API-NewCorban-RT.py:460 | a NULL key column and a blank one fall into the same partition |
| SyncMerge.Dedup | API-NewCorban-RT.py:456-466 | the surviving stage rows are staged rows, at most one per key, and every key of the stage is still present |
| SyncMerge.DedupStep | API-NewCorban-RT.py:459-465 | one more staged row keeps keys unique and adds exactly its own key |
| SyncMerge.WithoutKey | API-NewCorban-RT.py:465 | deleting the rows of one key removes that key and keeps every other key |
| SyncMerge.DedupOfUnique | API-NewCorban-RT.py:456-466 | a stage that already has one row per key is left as it is, whatever row the engine would prefer |
| SyncMerge.DedupIdempotent | API-NewCorban-RT.py:456-466 | running the dedup twice deletes nothing more, whichever rows each run keeps |
| SyncMerge.DedupMayKeepAny | API-NewCorban-RT.py:461 | any staged row can be the survivor of its key group, as ORDER BY (SELECT 0) allows |
| SyncMerge.FindKey | API-NewCorban-RT.py:472-475 | a staged row with the given key, found exactly when one exists |
| SyncMerge.Merge | API-NewCorban-RT.py:477-484 | the MERGE fails exactly when a target row is matched by two staged rows; otherwise the table grows by at most the stage size |
| SyncMerge.Updated | API-NewCorban-RT.py:479-480 | matched target rows become a staged row with their key; unmatched target rows are unchanged |
| SyncMerge.Inserted | API-NewCorban-RT.py:481-483 | exactly the staged rows whose key no target row has are inserted |
| SyncMerge.DedupedMergeSucceeds | API-NewCorban-RT.py:456-484 | after the dedup statement the MERGE never meets a target row matched twice |
| SyncMerge.MergeLeavesOthers | API-NewCorban-RT.py:477-484 | a target row with no staged row of its key is untouched |
| SyncMerge.MergeUpdatesMatched | API-NewCorban-RT.py:479-480 | a matched target row becomes the staged row, column for column |
| SyncMerge.MergeContainsStage | API-NewCorban-RT.py:477-484 | every staged row ends up in the table, as an update or an insert |
| SyncMerge.MergeKeepsKeysUnique | API-NewCorban-RT.py:477-484 | with one row per key on both sides, the merged table still has one row per key |
| SyncMerge.MergeIdempotent | API-NewCorban-RT.py:477-484 | merging the same deduplicated stage again changes nothing |
| SyncMerge.MergeWindowOutcome | API-NewCorban-RT.py:428-495 | a window is skipped exactly when the fetch returned nothing; otherwise it reports every fetched row, keeps one row per key and holds every staged key |
| SyncMerge.MergeWindowIdempotent | API-NewCorban-RT.py:428-495 | re-running a window whose rows have distinct keys on its own result changes nothing, whatever rows either run keeps |
| SyncMerge.MergeWindowRerunKeepsKeys | API-NewCorban-RT.py:428-495 | re-running any window inserts nothing: the table keeps its length and every row keeps its key |
| SyncScheduler.DaysInMonth | API-NewCorban-RT.py:733-735 | 28 to 31 days; 29 exactly for February of a leap year, 30 exactly for April, June, September, November |
| SyncScheduler.NextDay | API-NewCorban-RT.py:746 | the next valid date, with no valid date in between |
| SyncScheduler.PrevDay | API-NewCorban-RT.py:735 | the previous valid date; none only before 0001-01-01 |
| SyncScheduler.NextPrevInverse | API-NewCorban-RT.py:734-735 | stepping a day back and forward returns the same date, and the other way round |
| SyncScheduler.MinusDays | API-NewCorban-RT.py:729 | n days back is a valid date not after the start, strictly before it when n > 0 |
| SyncScheduler.WindowStart | API-NewCorban-RT.py:752-762 | the 1st of the month for days 1 to 15, the 16th otherwise, never after the date |
| SyncScheduler.WindowEnd | API-NewCorban-RT.py:752-766 | the 15th or the month's last day, clipped to today, never before the date |
| SyncScheduler.NextWindowStarts | API-NewCorban-RT.py:750-775 | after a window that does not end today, the next date opens a new half-month |
| SyncScheduler.Windows | API-NewCorban-RT.py:750-775 | the windows from the one holding base_date to today; none exactly when base_date is after today |
| SyncScheduler.WindowsShape | API-NewCorban-RT.py:750-775 | every window is a half-month inside one month, each starts the day after the previous one ends, the first holds base_date and the last ends today |
| SyncScheduler.WindowsCover | API-NewCorban-RT.py:750-775 | every date from base_date to today lies in a window |
| SyncScheduler.CountWindows | API-NewCorban-RT.py:729-746 | total_windows equals the number of windows the processing loop visits |
| SyncScheduler.ProcessWindows | API-NewCorban-RT.py:747-775 | the windows handed to process_window, in order, are exactly Windows(base, today), with one progress line per window |
| SyncScheduler.RunCycle | API-NewCorban-RT.py:728-775 | a cycle processes the windows from today minus 90 days to today, and its last progress line reports all windows done |
| SyncScheduler.LastProgressIsFull | API-NewCorban-RT.py:771 | the last progress line of a cycle shows a full bar |
| SyncScheduler.CycleCoversLast90Days | API-NewCorban-RT.py:728-775 | a cycle's windows start no later than base_date and reach today |
| SyncScheduler.FormatIsoDate | API-NewCorban-RT.py:691-696 | save_state's `%Y-%m-%d` text |
| SyncScheduler.ParseIsoDate | API-NewCorban-RT.py:683 | `strptime('%Y-%m-%d')` accepts only text naming a valid date |
| SyncScheduler.ParseFormatRoundTrip | API-NewCorban-RT.py:683-694 | a cursor written for a four-digit year reads back as the same date |
| SyncScheduler.LoadState | API-NewCorban-RT.py:677-689 | the result lies in [base_date, today]; anything but a readable in-range cursor yields base_date |
| SyncScheduler.SaveLoadRoundTrip | API-NewCorban-RT.py:677-696 | what save_state writes, load_state reads back while it stays in range |
| ConsultaPresenca.Pick | src/pages/ConsultaPresenca.jsx:601-607 | the value under the first key whose value is present and not blank; the fallback when no key has one |
| ConsultaPresenca.TokenVerdict | src/pages/ConsultaPresenca.jsx:642-646 | true exactly for true/1/sim, false exactly for false/0/nao/não |
| ConsultaPresenca.ParseNullableBoolean | src/pages/ConsultaPresenca.jsx:640-647 | null/undefined give null; otherwise true exactly when the trimmed lower-cased text is true/1/sim and false exactly when it is false/0/nao/não; blank and other text give null |
| ConsultaPresenca.ParseNullableBooleanOfBool | src/pages/ConsultaPresenca.jsx:640-647 | a JSON boolean reads as itself |
| ConsultaPresenca.MaskLogin | src/pages/ConsultaPresenca.jsx:505-510 | empty gives '-'; otherwise the length is kept, the first three characters are kept and all others are '*'; three or fewer characters are all '*' |
| ConsultaPresenca.ParseDurationToMs | src/pages/ConsultaPresenca.jsx:69-89 | null, undefined and '' give null; a number is kept; text is read through its trimmed form |
| ConsultaPresenca.MinSecDuration | src/pages/ConsultaPresenca.jsx:79-84 | "m:ss" reads as (m*60+s)*1000 milliseconds |
| ConsultaPresenca.HourMinSecDuration | src/pages/ConsultaPresenca.jsx:79-84 | "h:mm:ss" reads as (h*3600+m*60+s)*1000 milliseconds |
| ConsultaPresenca.ColonTextNotDecimal | src/pages/ConsultaPresenca.jsx:74-79 | text with a colon never takes the decimal-number branch |
| ConsultaPresenca.DurationOfPaddedText | src/pages/ConsultaPresenca.jsx:72-73 | surrounding whitespace does not change the duration read |
| ConsultaPresenca.NormalizeCpfBatch | src/pages/ConsultaPresenca.jsx:342-364 | '' or exactly 11 digits: 1 to 11 digits are left-padded with zeros to 11; no digits or more than 11 give '' |
| ConsultaPresenca.NormalizeCpfBatchKeepsCpf | src/pages/ConsultaPresenca.jsx:342-364 | an 11-digit CPF comes back unchanged |
| ConsultaPresenca.ReplaceBreakRuns | src/pages/ConsultaPresenca.jsx:286-287 | after replacing runs of CR/LF with a bar separator no line break is left |
| ConsultaPresenca.ReplaceTabs | src/pages/ConsultaPresenca.jsx:288 | tabs become spaces; every other character stays where it was |
| ConsultaPresenca.CellText | src/pages/ConsultaPresenca.jsx:285-288 | the flattened cell text holds no CR, LF or tab |
| ConsultaPresenca.ToCsvCell | src/pages/ConsultaPresenca.jsx:284-291 | no CR, LF or tab in the output; quoted with inner quotes doubled exactly when the text holds '"' or ';', else the flattened text itself |
| ConsultaPresenca.ParseLine | src/pages/ConsultaPresenca.jsx:298-320 | the character loop yields exactly the trimmed fields of the quote-aware scan |
| ConsultaPresenca.ScanQuoted | src/pages/ConsultaPresenca.jsx:304-311 | inside quotes, a doubled quote reads as one quote and the closing quote ends quoting |
| ConsultaPresenca.QuotedFieldRoundTrip | src/pages/ConsultaPresenca.jsx:284-320 | a quoted, quote-doubled text reads back as one field equal to the text: a delimiter inside quotes does not split |
| ConsultaPresenca.CsvCellRoundTrip | src/pages/ConsultaPresenca.jsx:284-320 | a cell that toCsvCell quotes reads back through parseLine as its flattened, trimmed text |
| ConsultaPresenca.NormalizeNewlines | src/pages/ConsultaPresenca.jsx:294 | no CR is left after the newline normalisation |
| ConsultaPresenca.DataLines | src/pages/ConsultaPresenca.jsx:294-296 | only non-blank lines are kept |
| ConsultaPresenca.Headers | src/pages/ConsultaPresenca.jsx:322-323 | one header per field of the BOM-stripped first line, trimmed and lower-cased |
| ConsultaPresenca.HeadersLower | src/pages/ConsultaPresenca.jsx:323 | every header name is already lower case |
| ConsultaPresenca.RowObject | src/pages/ConsultaPresenca.jsx:329-334 | a row object has exactly the non-empty header names as keys |
| ConsultaPresenca.DataRows | src/pages/ConsultaPresenca.jsx:326-336 | at most one row per data line, each keyed by the non-empty headers |
| ConsultaPresenca.Delimited | src/pages/ConsultaPresenca.jsx:293-340 | no non-blank lines give no rows; otherwise at most one row per data line after the header |
| ConsultaPresenca.DelimitedKeys | src/pages/ConsultaPresenca.jsx:322-338 | every row's keys are exactly the non-empty, lower-case header names |
| ConsultaPresenca.ParseDataLines | src/pages/ConsultaPresenca.jsx:326-337 | the loop over data lines returns the rows DataRows defines, all-blank lines skipped |
| ConsultaPresenca.ParseHeaders | src/pages/ConsultaPresenca.jsx:322-323 | the header loop returns Headers of the first line |
| ConsultaPresenca.ParseDelimited | src/pages/ConsultaPresenca.jsx:293-340 | the whole reader returns Delimited(text) |
| ConsultaLote.PendingToken | src/pages/ConsultaPresenca.jsx:556-562 | the searched text holds no combining mark and no ASCII capital |
| ConsultaLote.DoneNotPending | src/pages/ConsultaPresenca.jsx:551-563 | about `IsDoneLote` and `IsPendingLote`: a finished status is never also pending, so each row counts in one of pending, success or error |
| ConsultaLote.ReadRow | src/pages/ConsultaPresenca.jsx:193-210 | a row is skipped exactly for 'individual' queries or a blank file name; a kept row is never both pending and finished, and carries the login-and-file key |
| ConsultaLote.NewGroup | src/pages/ConsultaPresenca.jsx:216-234 | a fresh entry has all counters zero and consistent |
| ConsultaLote.AddRow | src/pages/ConsultaPresenca.jsx:236-265 | one row adds one to totalRows and to exactly the counters its status and value select |
| ConsultaLote.AddRowWf | src/pages/ConsultaPresenca.jsx:236-265 | adding a row that is not both pending and finished keeps pending+success+error and okByValue+noValue equal to totalRows, the distinct CPFs at most total, and total at most totalRows |
| ConsultaLote.FoldCounts | src/pages/ConsultaPresenca.jsx:193-268 | after the rows of a key: totalRows, pending, success and okByValue are the counts of those rows |
| ConsultaLote.GroupOfWf | src/pages/ConsultaPresenca.jsx:236-265 | per group pending+success+error = totalRows, okByValue+noValue = totalRows, and total <= totalRows |
| ConsultaLote.GroupOfTallies | src/pages/ConsultaPresenca.jsx:243-260 | per group the counters count the pending, finished and valued rows, and the CPF set is the distinct non-blank CPFs |
| ConsultaLote.KeyRowsValid | src/pages/ConsultaPresenca.jsx:193-268 | every kept row of a key is a valid row |
| ConsultaLote.GroupsWf | src/pages/ConsultaPresenca.jsx:189-282 | every group returned keeps its counters consistent and holds at least one row |
| ConsultaLote.GroupRows | src/pages/ConsultaPresenca.jsx:193-268 | the Map loop yields one entry per key in first-seen order, each the group of exactly its key's rows |
| ConsultaLote.GroupLoteRows | src/pages/ConsultaPresenca.jsx:189-282 | one entry per login and file, each counting exactly its rows, with consistent counters and at least one row |
| ConsultasV8.NormalizeCpf11 | src/pages/ConsultasV8.jsx:239-246 | empty exactly when the value has no digit; otherwise exactly 11 digits: the last 11 digits when there are more, the digits left-padded with zeros when fewer |
| ConsultasV8.NormalizeCpf11Idempotent | src/pages/ConsultasV8.jsx:241-246 | a normalised CPF normalises to itself |
| ConsultasV8.NormalizeProvidedPhone | src/pages/ConsultasV8.jsx:673-677 | digits only; empty exactly when the value has no digit; at most 11 long and a suffix of the value's digits (all of them when fewer than 11) |
| ConsultasV8.NormalizeProvidedPhoneIdempotent | src/pages/ConsultasV8.jsx:673-677 | a normalised phone normalises to itself |
| ConsultasV8.PhoneOrGenerated | src/pages/ConsultasV8.jsx:685-689 | the provided phone when the cell has a digit, otherwise the generated one |
| ConsultasV8.GeneratedPhone | src/pages/ConsultasV8.jsx:679-683 | a generated phone is 11 digits with a 9 in third place (area code 11-99 then 9 then eight digits) |
| ConsultasV8.SqueezeSpaces | src/pages/ConsultasV8.jsx:249 | runs of whitespace collapse to one space: empty stays empty, the first character is kept or becomes a space, the result has no two adjacent spaces and no other whitespace |
| ConsultasV8.SqueezeSqueezed | src/pages/ConsultasV8.jsx:249 | squeezing an already squeezed text changes nothing |
| ConsultasV8.ScrubSymbols | src/pages/ConsultasV8.jsx:254 | same length; each ASCII letter, digit or whitespace kept and every other character replaced by a space |
| ConsultasV8.NormalizeClientName | src/pages/ConsultasV8.jsx:248-258 | the result is a client name: upper-case ASCII letters and digits separated by single inner spaces, no space at either end |
| ConsultasV8.NormalizeClientNameIdempotent | src/pages/ConsultasV8.jsx:248-258 | a normalised name normalises to itself |
| ConsultasV8.ClientNameFixed | src/pages/ConsultasV8.jsx:248-258 | every text of the normalised shape is a fixed point of the normaliser |
| ConsultasV8.NormalizeHeaderToken | src/pages/ConsultasV8.jsx:691-698 | blank cell gives the empty token; the token has no upper-case ASCII letter and no combining mark |
| ConsultasV8.HeaderTokenOfAscii | src/pages/ConsultasV8.jsx:691-698 | a plain-ASCII header without surrounding spaces is matched ignoring case (its token is its lower-case form) |
| ConsultasV8.NameToken | src/pages/ConsultasV8.jsx:487-494 | blank value gives the empty token; the token is never longer than the trimmed text |
| ConsultasV8.NameTokenOfClientName | src/pages/ConsultasV8.jsx:487-494 | a normalised client name is its own name token |
| ConsultasV8.IdentityKeySame | src/pages/ConsultasV8.jsx:532-544 | about `IdentityKey`: two rows with identity fields share a key if and only if their CPF, name token and phone digits all agree |
| ConsultasV8.IdentityKeyFallbackApart | src/pages/ConsultasV8.jsx:532-544 | a row with any identity field never shares its key with a row that has none (fallback keys cannot collide with identity keys) |
| ConsultasV8.DedupeRowsByIdentityLatest | src/pages/ConsultasV8.jsx:546-564 | the Map loop returns the latest-per-identity fold of the list: one row per key, the one with the largest time, a later row winning a tie, keys in first-seen order |
| ConsultasV8.SplitById | src/pages/ConsultasV8.jsx:644-660 | the loop splits the rows into those with a non-empty trimmed id and those without, each in order |
| ConsultasV8.MergeRowsPreservingPreviousById | src/pages/ConsultasV8.jsx:634-664 | about `MergeById`: an empty side returns the other list; otherwise the rows with id folded by id (later set replacing, previous list first) followed by the id-less rows, next before previous, folded by identity |
| ConsultasV8.MergeIdsUnion | src/pages/ConsultasV8.jsx:634-664 | the merged list carries exactly the ids of both lists |
| ConsultasV8.MergeNextWins | src/pages/ConsultasV8.jsx:653-663 | for an id present in the next list the merged row is the last row of the next list with that id |
| ConsultasV8.MergeIdsDistinct | src/pages/ConsultasV8.jsx:640-663 | when both lists are non-empty no id appears twice in the merged list |
| ConsultasV8.SemicolonCells | src/pages/ConsultasV8.jsx:700-731 | at least one cell; the cells are the semicolon fields of the line under the quote rules, each trimmed (which also drops a leading byte-order mark) |
| ConsultasV8.ParseSemicolonCsvLine | src/pages/ConsultasV8.jsx:700-731 | the character loop with its quote flag yields exactly the specified cells |
| ConsultasV8.SemicolonQuotedCell | src/pages/ConsultasV8.jsx:700-731 | a quoted cell, holding semicolons or doubled quotes, reads back as the one trimmed cell |
| ConsultasV8.CsvLines | src/pages/ConsultasV8.jsx:734-738 | every line kept is non-empty and already trimmed |
| ConsultasV8.HeaderTokens | src/pages/ConsultasV8.jsx:749 | one token per header cell, each the cell's normalised token |
| ConsultasV8.FindColumns | src/pages/ConsultasV8.jsx:750-755 | columns found if and only if both cpf and nome are present; each index is the first holding its token; the phone column is the first telefone/phone/celular header, absent exactly when none is |
| ConsultasV8.ReadBatchLine | src/pages/ConsultasV8.jsx:760-786 | a data line is valid if and only if its CPF cell has a digit and its name cell normalises to a non-empty name; valid rows are well-formed and carry line idx+1; invalid rows carry line idx+1 and the raw cells |
| ConsultasV8.LineOutcomes | src/pages/ConsultasV8.jsx:760-786 | one outcome per data line, the header excluded, each the reading of that line |
| ConsultasV8.ValidRowsGood | src/pages/ConsultasV8.jsx:777-786 | every valid row collected has an 11-digit CPF, a normalised non-empty name and a phone of 1 to 11 digits |
| ConsultasV8.RowsPartitionLines | src/pages/ConsultasV8.jsx:760-786 | every data line ends up either valid or invalid: the two counts add up to the number of data lines |
| ConsultasV8.BatchIdentityOfGood | src/pages/ConsultasV8.jsx:532-544 | the identity of a valid upload row is its CPF, name and phone joined by bars |
| ConsultasV8.ParseBatchLines | src/pages/ConsultasV8.jsx:740-807 | no line gives the empty-file error; fewer than two header cells the separator error; a header of two or more cells that does not parse gives the missing-columns error; the lines parse if and only if the header has cpf and nome; then totalRows is the data-line count and the valid plus invalid rows never exceed it |
| ConsultasV8.BatchError | src/pages/ConsultasV8.jsx:790-807 | an error is shown if and only if the file did not parse or has no valid row |
| ConsultasV8.BatchValidRowsUnique | src/pages/ConsultasV8.jsx:788 | the rows handed on are all well-formed and no two share CPF, name and phone |
| ConsultasV8.BatchLastLineWins | src/pages/ConsultasV8.jsx:788 | each row handed on is a valid line with no later valid line of the same identity |
| ConsultasV8.ReadLine | src/pages/ConsultasV8.jsx:761-786 | one pass of the row loop reads the line as specified |
| ConsultasV8.ReadDataLines | src/pages/ConsultasV8.jsx:757-786 | the loop collects exactly the valid rows and the invalid rows of the data lines, in order |
| ConsultasV8.ParseBatchCsvFile | src/pages/ConsultasV8.jsx:733-808 | about `ParseBatchCsv`: the imperative parser returns exactly the specified batch result |
| ConsultasV8.Summarize | src/pages/ConsultasV8.jsx:134-139 | the card keeps total and usado; restantes is total minus usado, or 0 when that is negative |
| ConsultasV8.LimitSummaryOf | src/pages/ConsultasV8.jsx:117-166 | restantes is never negative and equals total-usado when positive; the default card is returned if and only if no row carries a total or used number |
| ConsultasV8.LimitFromAggregate | src/pages/ConsultasV8.jsx:124-140 | the first aggregate row (id 0 or e-mail TOTAL) with a number decides the card, missing numbers counting 0 |
| ConsultasV8.LimitFromSums | src/pages/ConsultasV8.jsx:142-165 | without such a row and with some number present the card holds the sums of all totals and used counts |
| ConsultasV8.SumNumbers | src/pages/ConsultasV8.jsx:146-157 | the loop computes both sums and sets the flag if and only if some row carries either number |
| ConsultasV8.BuildLimitSummary | src/pages/ConsultasV8.jsx:117-166 | the imperative version returns exactly the specified card |
| ConsultasV8.OwnRows | src/pages/ConsultasV8.jsx:111-114 | an in-order subsequence of the list holding exactly the rows whose user id equals the given one |
| ConsultasV8.FilterByUser | src/pages/ConsultasV8.jsx:106-115 | an unknown user or user 1 sees the whole list; any other user sees exactly their own rows, in order |
| ConsultasV8.DedupeV8CsvRows | src/pages/ConsultasV8.jsx:901-925 | the seen-set loop keeps exactly the first row of each nine-field key, in order |
| ConsultasV8.DedupeV8CsvRowsUnique | src/pages/ConsultasV8.jsx:901-925 | kept rows have distinct keys, every key of the input survives, and de-duplicating again changes nothing |
| Keyed.DedupeFirstDistinct | src/pages/ConsultasV8.jsx:905-922 | first-occurrence de-duplication leaves no two keyed rows with the same key |
| Keyed.DedupeFirstKeys | src/pages/ConsultasV8.jsx:905-922 | the set of keys is unchanged by first-occurrence de-duplication |
| Keyed.DedupeFirstIdempotent | src/pages/ConsultasV8.jsx:901-925 | de-duplicating twice equals de-duplicating once |
| Keyed.DistinctIsFixed | src/pages/ConsultasV8.jsx:901-925 | a list whose keys are already distinct is returned unchanged |
| Keyed.DedupeFirstLoop | src/pages/ConsultasV8.jsx:905-922 | the seen-set loop computes exactly the first occurrence of each key, in order |
| Keyed.DedupeLatestLoop | src/pages/ConsultasV8.jsx:546-564 | the Map loop (replace when the new time is at least the held one) computes exactly the latest-per-key fold, in first-seen key order |
| Keyed.DedupeLatestSpec | src/pages/ConsultasV8.jsx:546-564 | one row per key; each kept row comes from the list and has the latest time of its key; every key of the list is kept |
| Keyed.DedupeLatestIdempotent | src/pages/ConsultasV8.jsx:546-564 | folding the folded list again changes nothing |
| Keyed.DedupeLatestNewest | src/pages/ConsultasV8.jsx:555-560 | the row kept for a key is strictly newer than every later row with that key (with equal times it is the last one) |
| Keyed.DedupeLatestKeysDistinct | src/pages/ConsultasV8.jsx:546-564 | the kept rows have pairwise different keys |
| Keyed.DedupeLatestCoversAt | src/pages/ConsultasV8.jsx:546-564 | the key of every input row is the key of some kept row |
| ClienteArgus.InputDigits | src/pages/ClienteArgus.jsx:11 | the digits of the value, a falsy value reading as none; only digits |
| ClienteArgus.CpfMask | src/pages/ClienteArgus.jsx:12-21 | the mask only adds separators: its digits are exactly the digits it was given |
| ClienteArgus.FormatCpfDigits | src/pages/ClienteArgus.jsx:10-22 | about `FormatCpf`: the CPF mask's digits are the first 11 digits of the input |
| ClienteArgus.FormatCpfFull | src/pages/ClienteArgus.jsx:10-22 | eleven digits fill the whole mask ddd.ddd.ddd-dd |
| ClienteArgus.BeneficioIsCpfMask | src/pages/ClienteArgus.jsx:24-36 | the benefit mask is the CPF mask laid over the first ten digits |
| ClienteArgus.FormatBeneficioDigits | src/pages/ClienteArgus.jsx:24-36 | about `FormatBeneficio`: the benefit mask's digits are the first 10 digits of the input |
| ClienteArgus.FormatBeneficioFull | src/pages/ClienteArgus.jsx:24-36 | ten digits fill the whole mask ddd.ddd.ddd-d |
| ClienteArgus.DashedDate | src/pages/ClienteArgus.jsx:133 | YYYYMMDD becomes a ten-character YYYY-MM-DD with the same digits |
| ClienteArgus.NormalizeDateInput | src/pages/ClienteArgus.jsx:129-136 | eight trimmed digits become YYYY-MM-DD with the same digits; any other text comes back trimmed |
| ClienteArgus.NormalizeDateInputIdempotent | src/pages/ClienteArgus.jsx:129-136 | a normalised date input normalises to itself |
| ClienteArgus.CepDigits | src/pages/ClienteArgus.jsx:198-204 | at most 8 digits, after dropping a trailing 00 from a longer run |
| ClienteArgus.FormatCep | src/pages/ClienteArgus.jsx:194-209 | nullish, empty or blank gives '-'; eight CEP digits render as NNNNN-NNN with those digits; otherwise the trimmed text |
| ClienteArgus.FormatCepFixed | src/pages/ClienteArgus.jsx:194-209 | a CEP already written NNNNN-NNN formats to itself |
| ClienteArgus.CountFilled | src/pages/ClienteArgus.jsx:211-216 | the count of filled keys never exceeds the number of keys |
| ClienteArgus.CountFilledAll | src/pages/ClienteArgus.jsx:211-216 | the count equals the number of keys if and only if every key holds a value; it is 0 if and only if none does |
| ClienteArgus.StripZeroCents | src/pages/ClienteArgus.jsx:297-302 | an integer amount with .00 or ,00 loses the last three characters and is an integer; any other text comes back trimmed |
| ClienteArgus.StripZeroCentsOfAmount | src/pages/ClienteArgus.jsx:297-302 | an integer written with zero cents (either separator) strips back to the integer |
| ClienteArgus.StripZeroCentsOfInteger | src/pages/ClienteArgus.jsx:297-302 | an integer amount is left as it is, so stripping twice is stripping once |
| ClienteArgus.MonthLength | src/pages/ClienteArgus.jsx:343 | the last day of a month is between 28 and 31 |
| ClienteArgus.Competencia | src/pages/ClienteArgus.jsx:323-346 | '-' or a DD/MM/YYYY text; YYYYMM is accepted if and only if year 1900-2100 and month 1-12, giving 01/MM/YYYY; YYYY-MM-DD if and only if also the day is within the month, giving DD/MM/YYYY; anything else gives '-' |
| ClienteArgus.FormatCompetencia | src/pages/ClienteArgus.jsx:323-325 | '-' or a DD/MM/YYYY text; blank input gives '-' |
| AcompanhamentoDisparos.StatusWord | src/pages/AcompanhamentoDisparos.jsx:86-143 | a recognised status word maps to one of the codes 0 to 4; empty text and 'null' map to nothing |
| AcompanhamentoDisparos.NormalizeStatus | src/pages/AcompanhamentoDisparos.jsx:86-143 | null/undefined give nothing; a value Number reads is kept as that number; anything else is read as a status word and gives nothing or a code 0 to 4 |
| AcompanhamentoDisparos.NormalizeStatusNumbers | src/pages/AcompanhamentoDisparos.jsx:86-143 | a number is its own status, and blank text reads as status 0 (pending) |
| AcompanhamentoDisparos.NormalizeStatusIdempotent | src/pages/AcompanhamentoDisparos.jsx:86-143 | a status code read back from its own number is unchanged |
| AcompanhamentoDisparos.NormalizeTemplate | src/pages/AcompanhamentoDisparos.jsx:145-152 | never empty; a usable value (present, not blank, not 'null' in any case) gives its trimmed text, anything else 'Sem template' |
| AcompanhamentoDisparos.NormalizeTemplateIdempotent | src/pages/AcompanhamentoDisparos.jsx:145-152 | a template label normalises to itself |
| AcompanhamentoDisparos.PickNonEmpty | src/pages/AcompanhamentoDisparos.jsx:154-162 | the result is null or a usable value |
| AcompanhamentoDisparos.PickNonEmptyFirst | src/pages/AcompanhamentoDisparos.jsx:154-162 | the value picked is the first usable one |
| AcompanhamentoDisparos.PickNonEmptyNone | src/pages/AcompanhamentoDisparos.jsx:154-162 | with no usable value null is picked |
| AcompanhamentoDisparos.NormalizeTrackingItem | src/pages/AcompanhamentoDisparos.jsx:164-188 | no usable template forces status 4; otherwise the status read from the row or 0; template, campaign name, phone and name are taken from the first usable spelling with the documented fallbacks; phone and name are never nullish |
| AcompanhamentoDisparos.TrackingStatusInRange | src/pages/AcompanhamentoDisparos.jsx:169-171 | a row whose status is not numeric text ends with one of the five codes 0 to 4 |
| AcompanhamentoDisparos.AddItem | src/pages/AcompanhamentoDisparos.jsx:206-213 | adding a row bumps the total and appends the row; counters never exceed the total; a code 0 to 4 bumps exactly one counter |
| AcompanhamentoDisparos.CampaignsInKeyOrder | src/pages/AcompanhamentoDisparos.jsx:218 | the cards returned are the accumulated ones, each once, in object key order (array-index names first in numeric order); with no index-like name, in first-appearance order |
| AcompanhamentoDisparos.CampaignsPartition | src/pages/AcompanhamentoDisparos.jsx:190-219 | every row lands in exactly one card: the totals add up to the number of rows and no card is empty |
| AcompanhamentoDisparos.CampaignCard | src/pages/AcompanhamentoDisparos.jsx:192-216 | each card is named after its key, holds exactly the rows of that campaign and counts no more sent, failed, pending and template-less rows than it holds |
| AcompanhamentoDisparos.CampaignNamesDistinct | src/pages/AcompanhamentoDisparos.jsx:192-216 | no two cards share a name |
| AcompanhamentoDisparos.TallyComplete | src/pages/AcompanhamentoDisparos.jsx:206-213 | when every row of a campaign has a code 0 to 4 its four counters add up to its total |
| AcompanhamentoDisparos.CampaignName | src/pages/AcompanhamentoDisparos.jsx:193 | a row's campaign name is never empty (trimmed nameBatch or 'Sem nome') |
| AcompanhamentoDisparos.BuildCampanhasFromItems | src/pages/AcompanhamentoDisparos.jsx:190-219 | the build throws if and only if some row's campaign name is inherited by plain objects; otherwise it returns the grouped cards in object key order |
| AcompanhamentoDisparos.Progress | src/pages/AcompanhamentoDisparos.jsx:458-461 | 0 for an empty campaign; otherwise the nearest integer to the double share, halves rounded up |
| AcompanhamentoDisparos.ProgressBounds | src/pages/AcompanhamentoDisparos.jsx:458-461 | while sent rows are part of the total the percentage is within 0 to 100, exactly 0 with none sent and exactly 100 with all sent |
| AcompanhamentoDisparos.ProgressIsHalfUp | src/pages/AcompanhamentoDisparos.jsx:458-461 | away from an exact half, and below 10^12 rows, the percentage equals the exact share rounded half up |
| AcompanhamentoDisparos.ProgressMayRoundHalfDown | src/pages/AcompanhamentoDisparos.jsx:460 | at an exact half the double share can round down: 23 of 40 gives 57 where the exact share rounds to 58 |
| StatusWhatsapp.NormalizeString | src/pages/StatusWhatsapp.jsx:50-53 | null and undefined give the empty text |
| StatusWhatsapp.ToStatusCode | src/pages/StatusWhatsapp.jsx:55-58 | always a key of the status table: the upper-cased token when it is one, UNKNOWN otherwise |
| StatusWhatsapp.ToCode | src/pages/StatusWhatsapp.jsx:55-63 | the upper-cased trimmed token when it is one of the table's codes, UNKNOWN otherwise |
| StatusWhatsapp.ToQualityCode | src/pages/StatusWhatsapp.jsx:60-63 | always a key of the quality table: the upper-cased token when it is one, UNKNOWN otherwise |
| StatusWhatsapp.CodesRanked | src/pages/StatusWhatsapp.jsx:11-47 | every status code has a priority; every quality code but GRAY has one |
| StatusWhatsapp.Rank | src/pages/StatusWhatsapp.jsx:46-47 | the first place of a code in a priority list, or the list length when absent |
| StatusWhatsapp.Aggregate | src/pages/StatusWhatsapp.jsx:67 | UNKNOWN or one of the codes given |
| StatusWhatsapp.AggregateEarliest | src/pages/StatusWhatsapp.jsx:65-73 | for ranked codes the aggregate of a non-empty list is one of its codes and ranks no later than any of them; an empty list gives UNKNOWN |
| StatusWhatsapp.AggregateRanked | src/pages/StatusWhatsapp.jsx:65-73 | codes without a rank are passed over: when some code is ranked the aggregate is one of the codes and ranks no later than every ranked code; when none is, UNKNOWN |
| StatusWhatsapp.AggregateStatus | src/pages/StatusWhatsapp.jsx:65-68 | no entries give UNKNOWN; otherwise the worst status among the entries' status codes |
| StatusWhatsapp.AggregateQuality | src/pages/StatusWhatsapp.jsx:70-73 | no entries give UNKNOWN; when some entry's code is not GRAY the result is one of the entries' codes and ranks no later than every such code (the worst quality present); entries that are all GRAY give UNKNOWN |
| StatusWhatsapp.CountTones | src/pages/StatusWhatsapp.jsx:144-154 | each counter is the number of entries of that tone |
| StatusWhatsapp.CountTonesTotal | src/pages/StatusWhatsapp.jsx:144-154 | the four tone counters add up to the number of entries |
| StatusWhatsapp.AccountKey | src/pages/StatusWhatsapp.jsx:128 | the account key is never empty (lower-cased name or 'sem-nome') |
| StatusWhatsapp.AddChannel | src/pages/StatusWhatsapp.jsx:129-136 | appending a channel keeps the key, and the group stays named after its first channel |
| StatusWhatsapp.ViewOf | src/pages/StatusWhatsapp.jsx:139-163 | a group view counts its channels, and its status and quality counters each add up to that count |
| StatusWhatsapp.GroupedChannels | src/pages/StatusWhatsapp.jsx:125-165 | the Map loop yields one view per account in first-appearance order |
| StatusWhatsapp.ChannelGroupShape | src/pages/StatusWhatsapp.jsx:125-137 | the group at each place holds exactly its account's channels in order, is named after the first of them and is not empty |
| StatusWhatsapp.ChannelGroupsPartition | src/pages/StatusWhatsapp.jsx:125-137 | every channel is in exactly one account group, no group is empty, and there are no more groups than channels |
| StatusWhatsapp.SummaryOf | src/pages/StatusWhatsapp.jsx:167-183 | the channel and account counts, with status and quality tone counts each adding up to the number of channels; accounts never outnumber channels |
| StatusWhatsapp.FormatPhoneAsWritten | src/pages/StatusWhatsapp.jsx:75-85 | blank gives a dash; the formatter as written, including its ten-digit case |
| StatusWhatsapp.FormatPhoneAsWrittenTenDigits | src/pages/StatusWhatsapp.jsx:80 | a ten-digit number is shown with 19 digits and not behind 55: nine of its digits become the country code |
| StatusWhatsapp.FormatPhone | src/pages/StatusWhatsapp.jsx:75-85 | blank gives a dash; fewer than ten digits give the text itself |
| StatusWhatsapp.FormatPhoneDigits | src/pages/StatusWhatsapp.jsx:75-85 | a formatted phone carries every digit of the value, behind 55 when there is no country code |
| GeradorSitesV3.LastZero | src/pages/GeradorSitesV3.jsx:29-43 | the last position at or before k where the brace depth is zero, with non-zero depth after it |
| GeradorSitesV3.Blocks | src/pages/GeradorSitesV3.jsx:29-43 | the spans of the blocks closed within the first n characters all end within them |
| GeradorSitesV3.BlocksAreBlocks | src/pages/GeradorSitesV3.jsx:29-43 | every span listed is a balanced block (opens at depth zero and stays above zero until it closes) and spans come in increasing order |
| GeradorSitesV3.BlocksComplete | src/pages/GeradorSitesV3.jsx:29-43 | every balanced block of the text is listed |
| GeradorSitesV3.BlockBraces | src/pages/GeradorSitesV3.jsx:33-39 | a block's text starts with '{' and ends with the '}' that brings the depth back to zero |
| GeradorSitesV3.ScanBlocks | src/pages/GeradorSitesV3.jsx:28-43 | the depth/start loop returns exactly the spans of the balanced blocks, in order |
| GeradorSitesV3.DropTrailing | src/pages/GeradorSitesV3.jsx:48 | the text with its trailing run of the character removed: a prefix, not ending in that character, the removed part made only of it |
| GeradorSitesV3.ParseResponse | src/pages/GeradorSitesV3.jsx:18-56 | empty text gives no items; a text that parses to an array gives its items; one that parses to an object gives that object alone |
| GeradorSitesV3.ScannedFromBlocks | src/pages/GeradorSitesV3.jsx:27-43 | every object the scanner yields is the parse of the text of a balanced block |
| GeradorSitesV3.ParseResponseToArray | src/pages/GeradorSitesV3.jsx:18-56 | the imperative parser returns exactly the specified items |
| GeradorSitesV3.ParseAll | src/pages/GeradorSitesV3.jsx:40 | the try/push loop keeps exactly the texts that parse, in order |
| GeradorSitesV3.DedupeById | src/pages/GeradorSitesV3.jsx:101-113 | the seen-set loop keeps the first row per non-empty trimmed id and every row without an id, in order |
| GeradorSitesV3.DedupeByIdUnique | src/pages/GeradorSitesV3.jsx:101-113 | the rows kept carry distinct ids, cover every id of the input, and de-duplicating again changes nothing |
| GeradorSitesV3.MapWhatsappLimit | src/pages/GeradorSitesV3.jsx:115-121 | missing or empty gives '-'; TIER_2K in any case gives '2.000'; TIER_250 gives '250'; anything else comes back unchanged |
| GeradorSitesV3.FormatPhoneTitle | src/pages/GeradorSitesV3.jsx:147-157 | a number that is neither 1 plus ten digits nor ten digits shows as its trimmed text, or 'Sem Telefone' when blank |
| GeradorSitesV3.NanpMaskDigits | src/pages/GeradorSitesV3.jsx:150-155 | the +1 ddd-ddd-dddd mask carries exactly the digits 1 and the national number |
| GeradorSitesV3.FormatPhoneTitleDigits | src/pages/GeradorSitesV3.jsx:147-157 | ten digits or eleven starting with 1 come out as the eleven digits of 1 and the number |
| GeradorSitesV3.ConnectionCapacity | src/pages/GeradorSitesV3.jsx:291-296 | 2 exactly for the 250 tier spellings; 5 exactly for the 2K tier spellings; otherwise unlimited |
| GeradorSitesV3.OverflowMonotone | src/pages/GeradorSitesV3.jsx:298-301 | the overflow warning is monotone: more connected numbers never clear it and a higher tier never raises it |
| GeradorSitesV3.CapacityOfLabel | src/pages/GeradorSitesV3.jsx:115-121 | the capacity of a tier label agrees with its tier: '2.000' gives 5 and '250' gives 2 |
| Relatorios.FormatDateDisplay | src/pages/Relatorios.jsx:22-27 | a falsy value shows as '-'; a truthy value stays truthy; anything changed becomes text |
| Relatorios.FormatIsoDate | src/pages/Relatorios.jsx:22-27 | an ISO date y-m-d is shown as d/m/y and reading that back on '/' gives the three parts |
| Relatorios.FormatDateDisplayPassThrough | src/pages/Relatorios.jsx:22-27 | a truthy text without '-' is shown unchanged |
| Relatorios.CsvText | src/pages/Relatorios.jsx:68 | null and undefined give the empty text; a text is itself |
| Relatorios.EscapeCsvValue | src/pages/Relatorios.jsx:67-70 | the escaped value is always wrapped in quotes |
| Relatorios.EscapeRoundTrip | src/pages/Relatorios.jsx:67-70 | a quote-aware reader gives back the value's text as exactly one field, whatever it holds |
| Relatorios.LineRoundTrip | src/pages/Relatorios.jsx:84-87 | a written line reads back field by field as the texts it was written from |
| Relatorios.RowKeys | src/pages/Relatorios.jsx:76-77 | rows that are not objects contribute no keys |
| Relatorios.AllKeysMembers | src/pages/Relatorios.jsx:75-82 | a key is among the collected keys if and only if one of the rows has it |
| Relatorios.Headers | src/pages/Relatorios.jsx:73-82 | the header has no repeated key |
| Relatorios.HeadersExact | src/pages/Relatorios.jsx:73-82 | a key is a header if and only if some row has it |
| Relatorios.HeadersFirstSeen | src/pages/Relatorios.jsx:73-82 | headers come in the order their keys are first seen |
| Relatorios.PropertyOf | src/pages/Relatorios.jsx:86 | an object's property is its own entry; a nullish row gives undefined |
| Relatorios.RowTexts | src/pages/Relatorios.jsx:86 | one text per header, each the row's value under that header |
| Relatorios.RowLines | src/pages/Relatorios.jsx:85-88 | one line per row, each the quoted texts of that row under the headers |
| Relatorios.CsvLines | src/pages/Relatorios.jsx:84-88 | the header line plus one line per row |
| Relatorios.Csv | src/pages/Relatorios.jsx:72-90 | the export is empty if and only if no row has a key |
| Relatorios.CsvLinesRead | src/pages/Relatorios.jsx:72-90 | read back, the header line gives the header names and the line of row i gives that row's value under each header |
| Relatorios.SetOf | src/pages/Relatorios.jsx:74 | the seen set holds exactly the elements of the list |
| Relatorios.AddKeys | src/pages/Relatorios.jsx:77-81 | the inner loop adds each unseen key once, keeping headers in first-seen order and seen equal to the header set |
| Relatorios.CollectKeys | src/pages/Relatorios.jsx:73-82 | the header loop yields every key once in first-seen order |
| Relatorios.CollectHeaders | src/pages/Relatorios.jsx:73-82 | the header loop over the rows' own keys yields exactly the specified headers |
| Relatorios.BuildLines | src/pages/Relatorios.jsx:84-88 | the line loop yields the header line then one line per row |
| Relatorios.BuildCsv | src/pages/Relatorios.jsx:72-90 | the imperative export returns exactly the specified CSV text |
| Relatorios.BadRun | src/pages/Relatorios.jsx:95 | the length of the leading run of unsafe characters, followed by a safe one or the end |
| Relatorios.ReplaceRuns | src/pages/Relatorios.jsx:95 | the result has only file-safe characters and is empty only for empty input |
| Relatorios.SanitizeFilePart | src/pages/Relatorios.jsx:92-96 | only letters, digits, '_', '.' and '-'; empty if and only if the trimmed text is blank |
| Relatorios.ReplaceRunsOfSafe | src/pages/Relatorios.jsx:95 | a file-safe text is left unchanged |
| Relatorios.SanitizeIdempotent | src/pages/Relatorios.jsx:92-96 | sanitising twice is sanitising once |
| Relatorios.ReplaceRunsKeeps | src/pages/Relatorios.jsx:95 | every file-safe character other than '_' comes through in order and no other is added |
| Relatorios.RangePart | src/pages/Relatorios.jsx:99-102 | the date-range part is file-safe and starts with andamento_ |
| Relatorios.EmpresaPart | src/pages/Relatorios.jsx:101 | a chosen company other than 'all' adds _empresa- and its sanitised name; otherwise nothing |
| Relatorios.BuildDownloadFileName | src/pages/Relatorios.jsx:98-103 | the file name is file-safe: the range part then the company part then .csv |
| Relatorios.FileNameShape | src/pages/Relatorios.jsx:98-103 | every file name starts with andamento_ and ends with .csv |
| Relatorios.DefaultEmpresaUnnamed | src/pages/Relatorios.jsx:101 | choosing 'all' companies gives the same name as choosing none, four characters longer than the range part |
| Backups.RoundSeconds | src/pages/Backups.jsx:61 | the rounded number of seconds is within half a second of the exact one (halves up) and never negative for positive hours |
| Backups.Decompose | src/pages/Backups.jsx:62-64 | hours times 3600 plus minutes times 60 plus seconds give back the total, with minutes and seconds below 60 |
| Backups.DecomposeUnique | src/pages/Backups.jsx:62-64 | that split is the only one with minutes and seconds below 60 |
| Backups.ClockText | src/pages/Backups.jsx:65-70 | the text ends in h exactly when there are hours and no minutes, in min exactly when there are minutes, in s exactly when there are neither hours nor minutes |
| Backups.FormatTimerHours | src/pages/Backups.jsx:57-71 | a non-finite reading gives '-'; zero or less gives '0min'; otherwise the rounded seconds shown by their largest nonzero unit |
| Backups.FormatTimerExamples | src/pages/Backups.jsx:57-71 | a positive duration under half a second shows as 0s; a whole number of hours shows as hours alone |
| Backups.GetStatusMeta | src/pages/Backups.jsx:73-90 | Crítico if and only if there is an error; Atenção if and only if no error and some pending table; OK if and only if neither |
| Backups.StatusMonotone | src/pages/Backups.jsx:73-90 | more errors or more pending tables never make the badge less severe |
| Backups.FirstPresent | src/pages/Backups.jsx:97-113 | the first property of the list that is not null or undefined, or the empty text; never nullish |
| Backups.TableKey | src/pages/Backups.jsx:115 | the key is the trimmed text lower-cased, of the same length |
| Backups.ListingOf | src/pages/Backups.jsx:120-123 | an entry's key is the normalised key of its name |
| Backups.LastBackupMap | src/pages/Backups.jsx:118-126 | every backup time stored in the lookup map is non-empty |
| Backups.LastBackupFirst | src/pages/Backups.jsx:118-126 | a key in the map comes from the first entry listing it with a name and a backup time, and maps to that entry's time |
| Backups.LastBackupListed | src/pages/Backups.jsx:118-126 | every entry with a name key and a backup time has its key in the map |
| Backups.FirstBackups | src/pages/Backups.jsx:118-126 | the first loop builds exactly the specified lookup map |
| Backups.PrimaryRow | src/pages/Backups.jsx:129-150 | a row from an object entry has a non-empty name; a row from a text entry is named by its non-empty trimmed text |
| Backups.PrimaryRows | src/pages/Backups.jsx:128-151 | the table list gives at most one row per entry |
| Backups.FallbackPass | src/pages/Backups.jsx:153-166 | the fallback loop yields exactly the specified rows |
| Backups.NormalizeTables | src/pages/Backups.jsx:117-169 | about `NormalizeBackedUpTables`: the imperative version returns exactly the specified table rows |
| Backups.FallbackFresh | src/pages/Backups.jsx:153-166 | the fallback pass keeps the rows it starts from and adds only rows whose normalised names are new and pairwise different |
| Backups.NamedEntriesShown | src/pages/Backups.jsx:117-169 | every named object entry of the last-backup list is shown: some row carries its normalised name |
| Backups.FallbackNoDuplicates | src/pages/Backups.jsx:153-166 | the rows added after the table list have names new to it and pairwise different once normalised |
| Backups.PrimaryBackupFromFirst | src/pages/Backups.jsx:138-148 | a table row without its own backup time takes the one first listed for its name |
| Backups.AddNumber | src/pages/Backups.jsx:268-271 | the sum is a number if and only if both operands are (NaN absorbs) |
| Backups.SummaryOf | src/pages/Backups.jsx:266-273 | the server count is the number of servers |
| Backups.SumsAppend | src/pages/Backups.jsx:266-273 | totals over two lists of servers are the sums of their totals |
| Backups.SummaryAppend | src/pages/Backups.jsx:266-273 | the summary of two lists together adds up their summaries field by field |
| Backups.SumLengthsZero | src/pages/Backups.jsx:269-270 | a length total is zero if and only if every server's list is empty |
| Backups.SumNumbersDefined | src/pages/Backups.jsx:268-271 | a numeric total is a number if and only if every server's reading is |
| Backups.AllClear | src/pages/Backups.jsx:266-273 | no pending table and no error in the totals if and only if every server shows OK |
| UsuariosBmControles.BmId | src/pages/UsuariosBmControles.jsx:29 | a row's BM key is always truthy: its id, else id_bm, else row-<position> |
| UsuariosBmControles.PortNome | src/pages/UsuariosBmControles.jsx:32 | a row's portfolio name is always truthy: portifolio, else nome_portifolio, else '-' |
| UsuariosBmControles.TelefoneOf | src/pages/UsuariosBmControles.jsx:35-40 | the telefone a row carries has truthy phone, status and cartao, and keeps the row's phone when it has one |
| UsuariosBmControles.PortfolioEntry | src/pages/UsuariosBmControles.jsx:42-49 | the entry a portfolio's first row creates is named after the row's portfolio and holds exactly that row's telefone |
| UsuariosBmControles.NormalizeRows | src/pages/UsuariosBmControles.jsx:24-68 | anything but an array gives no BMs; an array fails (the page throws) exactly when one of its rows is null or undefined |
| UsuariosBmControles.BmPhonesOfRows | src/pages/UsuariosBmControles.jsx:51-58 | a BM holds one telefone per row grouped under it and none of its portfolios is empty |
| UsuariosBmControles.TelefonesPerRow | src/pages/UsuariosBmControles.jsx:24-68 | every response row becomes exactly one telefone of one portfolio, and every portfolio has a telefone |
| UsuariosBmControles.BmEntryOf | src/pages/UsuariosBmControles.jsx:51-59 | the t-th BM entry exists, has the t-th distinct key as id and holds exactly the rows of that key in order |
| UsuariosBmControles.BmIdsExact | src/pages/UsuariosBmControles.jsx:24-68 | the BMs' ids are distinct and are exactly the BM keys of the rows |
| UsuariosBmControles.PortfolioNamedAfterKey | src/pages/UsuariosBmControles.jsx:32-33 | within one BM the s-th portfolio is named so that <bmId>::<name> is the s-th distinct portfolio key |
| UsuariosBmControles.PortfolioNamesDistinctIn | src/pages/UsuariosBmControles.jsx:52-57 | two portfolios built from one BM's rows never share a name as text |
| UsuariosBmControles.PortfolioNamesDistinct | src/pages/UsuariosBmControles.jsx:24-68 | two portfolios of one normalised BM never share a name as text |
| UsuariosBmControles.BmRowsShareId | src/pages/UsuariosBmControles.jsx:51-59 | every row grouped under a BM has that BM's key |
| UsuariosBmControles.NormalizeRowsLoop | src/pages/UsuariosBmControles.jsx:24-68 | the forEach pass with its two Maps computes normalizeRows |
| UsuariosBmControles.PhoneMask | src/pages/UsuariosBmControles.jsx:89-91 | the mask of up to eleven digits shows exactly those digits |
| UsuariosBmControles.TypedDigits | src/pages/UsuariosBmControles.jsx:88 | the digits kept are digits and at most eleven |
| UsuariosBmControles.FormatPhoneInput | src/pages/UsuariosBmControles.jsx:87-92 | the digits of the masked phone are the first eleven digits typed |
| UsuariosBmControles.FormatPhoneInputIdempotent | src/pages/UsuariosBmControles.jsx:87-92 | masking a masked phone again changes nothing |
| UsuariosBmControles.NormalizeLimiteInput | src/pages/UsuariosBmControles.jsx:96 | one million as text or number shows as Ilimitado; a nullish limit as '0'; any other text as typed |
| UsuariosBmControles.LimitePayload | src/pages/UsuariosBmControles.jsx:233 | Ilimitado is sent as 1000000, a falsy limit as '0' and any other non-empty text as typed |
| UsuariosBmControles.LimiteLoadedThenSent | src/pages/UsuariosBmControles.jsx:96 | a limit loaded into the form and sent back unedited is sent as loaded, a blank one as '0' |
| UsuariosBmControles.LimiteSentThenLoaded | src/pages/UsuariosBmControles.jsx:233 | a limit sent and loaded back shows as typed, one million as Ilimitado |
| UsuariosBmControles.NumeroDigits | src/pages/UsuariosBmControles.jsx:217 | the telefone's numero reduced to digits holds only digits |
| UsuariosBmControles.TelefonePayload | src/pages/UsuariosBmControles.jsx:216-224 | for a telefone whose building does not throw, it is sent exactly when its numero has digits; it sends those digits and an id_phone exactly when it has a truthy one |
| UsuariosBmControles.PayloadTelefonesExact | src/pages/UsuariosBmControles.jsx:214-226 | about `PayloadTelefones` and `TelefoneThrows`: the payload throws exactly when some listed telefone is null or undefined or has a truthy status or cartao that is not text, even one the filter would drop; otherwise every telefone sent comes from a listed one and carries its digits, and every listed telefone with digits is sent |
| UsuariosBmControles.PortName | src/pages/UsuariosBmControles.jsx:231 | the trimmed portfolio name neither starts nor ends with white space (a truthy name that is not text makes the payload throw, see PayloadPortifoliosExact) |
| UsuariosBmControles.PortfolioPayload | src/pages/UsuariosBmControles.jsx:229-239 | a portfolio is sent exactly when its trimmed name is non-blank, with that name, its limit as sent, its telefones' payload when that does not throw, and its creation date falling back to the form's |
| UsuariosBmControles.PayloadPortifoliosExact | src/pages/UsuariosBmControles.jsx:228-241 | about `PayloadPortifolios`, `PortTelefones` and `PortfolioThrows`: the payload throws exactly when some listed portfolio is null or undefined, has a truthy name that is not text, truthy telefones that are not an array, or telefones whose payload throws; otherwise every portfolio sent has a non-blank name from a listed one and only telefones with digits; every listed portfolio with a non-blank name is sent |
| Usuarios.StateOver | src/pages/Usuarios.jsx:56-59 | the permission object has exactly the given codes as keys, each true exactly when enabled |
| Usuarios.MakeState | src/pages/Usuarios.jsx:56-59 | makeState covers exactly the known menu and button codes, each true exactly when listed |
| Usuarios.MakeStateLoop | src/pages/Usuarios.jsx:56-59 | the reduce that fills the object one code at a time computes makeState |
| Usuarios.PresetCoversCodes | src/pages/Usuarios.jsx:65-82 | about `Preset`: every role's preset covers exactly the known codes and enables every button |
| Usuarios.MasterHasEveryMenu | src/pages/Usuarios.jsx:69-70 | a master starts with every menu |
| Usuarios.MenuNotButton | src/pages/Usuarios.jsx:49-53 | no menu code is a button code |
| Usuarios.OperadorMenus | src/pages/Usuarios.jsx:75-78 | any role but master, administrador and supervisor starts with exactly the dashboard and the consultas menus |
| Usuarios.PresetsNested | src/pages/Usuarios.jsx:65-82 | what an operador is granted a supervisor is, what a supervisor is an administrador is, and what an administrador is a master is |
| Usuarios.CanToggleUser | src/pages/Usuarios.jsx:290 | about `CanChangePassword`: nobody toggles themself; a toggle needs the right to change the target's password; a super user toggles anyone else |
| Usuarios.CanDeleteUser | src/pages/Usuarios.jsx:288 | deletion is allowed exactly to a super user acting on someone else, and implies the toggle right |
| Usuarios.Current | src/pages/Usuarios.jsx:308 | a user's current permissions are its draft when it has one, else its role's preset |
| Usuarios.SelectedPermissions | src/pages/Usuarios.jsx:296-301 | a selected user without a usable id always shows its role's preset |
| Usuarios.Flip | src/pages/Usuarios.jsx:313 | the clicked code ends up present and flipped (absent counts as off); every other code is untouched |
| Usuarios.ToggleDrafts | src/pages/Usuarios.jsx:302-317 | without the editor's rights or a usable selected id nothing changes; otherwise only the selected user's draft changes and no draft is lost |
| Usuarios.ToggleSelected | src/pages/Usuarios.jsx:302-317 | a click by the editor shows the selected user's permissions with the clicked code flipped |
| Usuarios.ToggleFlipsOnlyCode | src/pages/Usuarios.jsx:307-316 | a click flips exactly the clicked code of the selected user and leaves its other codes as they were |
| Usuarios.ToggleKeepsOthers | src/pages/Usuarios.jsx:307-316 | every user whose id differs from the selected one shows the same permissions after a click |
| Usuarios.ToggleTwiceRestores | src/pages/Usuarios.jsx:302-317 | two clicks on a code the user already has leave the permissions shown as they were |
| Usuarios.FlipTwice | src/pages/Usuarios.jsx:313 | flipping a present code twice gives back the same object |
| Usuarios.PermissionDrafts.Permissions | src/pages/Usuarios.jsx:296-301 | the permissions shown for a selected user without a usable id are its role's preset |
| Usuarios.PermissionDrafts.TogglePermission | src/pages/Usuarios.jsx:302-317 | the drafts become the toggled drafts, and a click by the editor flips the clicked code of the selected user |
| Usuarios.BaseUsuarios | src/pages/Usuarios.jsx:221-227 | the base list is drawn from the users; masters, administradores and the master team see everyone; others with a team see exactly that team's users |
| Usuarios.Chain | src/pages/Usuarios.jsx:228-267 | a user survives the chained filters exactly when it is listed and passes every active step |
| Usuarios.FilteredWithinBase | src/pages/Usuarios.jsx:221-267 | about `Filtered`: nothing outside the users is ever listed and a team-scoped viewer sees only its own team |
| Usuarios.CollapseSeps | src/pages/Usuarios.jsx:325 | after the first replacement only word characters and single spaces remain |
| Usuarios.CollapseKeepsWords | src/pages/Usuarios.jsx:325 | collapsing separators keeps every word character in order |
| Usuarios.LoginIsLowerWordChars | src/pages/Usuarios.jsx:321-329 | about `ToLoginFromName`: the suggested login is exactly the name's word characters, accents removed, lower-cased |
| Usuarios.LowerWordsFixed | src/pages/Usuarios.jsx:321-329 | lower-cased word characters are already a login |
| Usuarios.LoginIdempotent | src/pages/Usuarios.jsx:321-329 | a suggested login suggests itself |
| MultiploDisparos.Chunk | src/pages/MultiploDisparos.jsx:169-171 | the chunks joined back are the input in order; none is empty or longer than the chunk size and all but the last are exactly that size |
| MultiploDisparos.FlattenNext | src/pages/MultiploDisparos.jsx:170 | pushing the next slice extends the joined prefix by that slice |
| MultiploDisparos.ChunkSize | src/pages/MultiploDisparos.jsx:168 | the chunk size is at least 1 and is the given size whenever that is a number of at least 1 |
| MultiploDisparos.ChunkIds | src/pages/MultiploDisparos.jsx:166-172 | a non-array gives no chunks; an array's chunks joined back give the array, none empty or above the chunk size, all but the last exactly that size |
| MultiploDisparos.BatchInput | src/pages/MultiploDisparos.jsx:671-680 | the box stores '' exactly when no digit was typed, else the typed digits' value clamped to 1..1000 |
| MultiploDisparos.Clamp | src/pages/MultiploDisparos.jsx:678 | the clamped size lies in 1..1000 and a size already there is kept |
| MultiploDisparos.BatchSizes.Change | src/pages/MultiploDisparos.jsx:671-680 | only the channel's entry changes, to the stored input, and every entry stays blank or within 1..1000 |
| MultiploDisparos.BatchSizes.Blur | src/pages/MultiploDisparos.jsx:682-690 | a missing or blank size becomes the default 100; any other state is kept |
| MultiploDisparos.BatchSizes.BatchSize | src/pages/MultiploDisparos.jsx:692-696 | the size used is always positive: 100 for a missing or unparsable entry, the stored value otherwise |
| MultiploDisparos.QualityRank | src/pages/MultiploDisparos.jsx:111-126 | green and high rank 0, yellow, orange and medium 1, red and low 2, anything else 3, after trimming and lower-casing |
| MultiploDisparos.LowerJsTrim | src/pages/MultiploDisparos.jsx:112 | lower-casing commutes with trimming |
| MultiploDisparos.QualityRankIgnoresCase | src/pages/MultiploDisparos.jsx:112 | the rank is the same for a rating in any case |
| MultiploDisparos.Last4Digits | src/pages/MultiploDisparos.jsx:90-93 | the result is empty exactly when the value has fewer than four digits, else it is the four digits the value's digits end with |
| MultiploDisparos.Last4Idempotent | src/pages/MultiploDisparos.jsx:90-93 | taking the last four digits twice gives the same four |
| MultiploDisparos.IntervalForm.SetMin | src/pages/MultiploDisparos.jsx:1005-1012 | the minimum becomes the slider's value and the maximum is raised to it when passed, keeping min at most max |
| MultiploDisparos.IntervalForm.SetMax | src/pages/MultiploDisparos.jsx:1024-1031 | the maximum becomes the slider's value and the minimum is lowered to it when passed, keeping min at most max |
| MultiploDisparos.IntervalForm.constructor | src/pages/MultiploDisparos.jsx:36-37 | the form starts at 15 and 30 seconds, within range and ordered |
| MultiploDisparos.BatchSizes.constructor | src/pages/MultiploDisparos.jsx:40 | the page starts with no stored batch sizes |
| Recargas.ParseRow | src/pages/Recargas.jsx:18-33 | a missing or non-numeric total, limit or consultas count reads 0, and a numeric one keeps its value |
| Recargas.LoadRows | src/pages/Recargas.jsx:60-62 | a response that is not an array is an error; otherwise no more rows are loaded than were returned |
| Recargas.LoadRowsExact | src/pages/Recargas.jsx:62 | about `Keep`: every loaded row has an id, and every returned element with a saldo_id or an id is loaded |
| Recargas.TeamKeys | src/pages/Recargas.jsx:217 | the team keys are exactly the rows' equipeId, or equipeNome when the id is nullish |
| Recargas.TeamKeysBound | src/pages/Recargas.jsx:217 | there are no more teams than rows and at least one when there is a row |
| Recargas.StatsOf | src/pages/Recargas.jsx:213-219 | the team count is at most the row count and zero exactly when there are no rows |
| Recargas.SumOfAppend | src/pages/Recargas.jsx:214-216 | the reduce sum over two lists joined is the sum of their sums |
| Recargas.StatsAppend | src/pages/Recargas.jsx:213-219 | the three sums of two lists joined add up, and the team count is at most the two counts together |
| Recargas.SumOfNonNegative | src/pages/Recargas.jsx:214-216 | rows with non-negative numbers give a non-negative sum |
| Recargas.PageCount | src/pages/Recargas.jsx:192 | the ceiling of the rows over 100: enough pages for every row and no empty last page |
| Recargas.TotalPages | src/pages/Recargas.jsx:183 | at least one page; exactly one when there are at most 100 rows; otherwise the ceiling |
| Recargas.HasPaginationIff | src/pages/Recargas.jsx:183-184 | the pager shows exactly when there is more than one page |
| Recargas.PageRows | src/pages/Recargas.jsx:186-189 | a page holds at most 100 rows, the ones at its positions in the list, and a page within range of a non-empty list holds at least one |
| Recargas.Pager.Reset | src/pages/Recargas.jsx:174 | a new search or date range goes back to page 1 |
| Recargas.Pager.Clamp | src/pages/Recargas.jsx:176-181 | the page ends within 1..total pages: kept when already within, pulled to the last page otherwise |
| Recargas.Pager.Previous | src/pages/Recargas.jsx:324 | one page back, never before the first |
| Recargas.Pager.Next | src/pages/Recargas.jsx:352 | one page on, never past the last page |
| Recargas.Pager.Select | src/pages/Recargas.jsx:342 | a page button sets that page |
| Recargas.Pager.constructor | src/pages/Recargas.jsx:46 | the table starts on page 1 |
| Recargas.ShownPages | src/pages/Recargas.jsx:194-197 | the shown pages include the first, the last and the current page, and besides them only pages within two of the current one strictly inside the range |
| Recargas.Window | src/pages/Recargas.jsx:195-197 | the window holds exactly the pages of the range strictly between the first and the last page |
| Recargas.Ascending | src/pages/Recargas.jsx:198 | the sorted pages are strictly increasing and are exactly the set's members in range |
| Recargas.PagesOfAppend | src/pages/Recargas.jsx:199-209 | the page numbers of two item lists joined are their page numbers joined |
| Recargas.ItemsPages | src/pages/Recargas.jsx:199-209 | the buttons list exactly the sorted pages, in order |
| Recargas.ItemsLast | src/pages/Recargas.jsx:199-209 | the last button is the last page |
| Recargas.ItemsWellSpaced | src/pages/Recargas.jsx:199-209 | for increasing pages an ellipsis sits only between two pages with a gap and adjacent page buttons are consecutive numbers |
| Recargas.PaginationItems | src/pages/Recargas.jsx:191-211 | the memo computes the pagination items of the list |
| Recargas.WindowLoop | src/pages/Recargas.jsx:194-197 | the set built from the three fixed pages and the window loop is the shown set |
| Recargas.ItemsLoop | src/pages/Recargas.jsx:199-209 | the item loop turns the sorted pages into the buttons with their ellipses |
| Recargas.AscendingEnds | src/pages/Recargas.jsx:198 | an increasing list holding a and b and nothing outside [a, b] starts at a and ends at b |
| Recargas.PageListShape | src/pages/Recargas.jsx:194-198 | for a page within range the shown pages run from 1 to the last and include the current page and its neighbours |
| Recargas.PaginationShape | src/pages/Recargas.jsx:191-211 | no buttons exactly when there is at most one page; otherwise increasing pages from 1 to the last, including the current page, with an ellipsis only across a gap |
| HistoricoConsultas.DottedMask | src/pages/HistoricoConsultas.jsx:24 | the mask keeps exactly the given digits and puts dots after the third and sixth and a dash after the ninth |
| HistoricoConsultas.FmtCpf | src/pages/HistoricoConsultas.jsx:21-26 | no digits gives xxx.xxx.xxx-xx; exactly eleven digits are masked ddd.ddd.ddd-dd; any other count shows the bare digits |
| HistoricoConsultas.FmtNb | src/pages/HistoricoConsultas.jsx:27-32 | no digits gives xxx.xxx.xxx-x; exactly ten digits are masked ddd.ddd.ddd-d; any other count shows the bare digits |
| HistoricoConsultas.CpfPlaceholderHasNoDigits | src/pages/HistoricoConsultas.jsx:23 | the CPF placeholder holds no digit |
| HistoricoConsultas.NbPlaceholderHasNoDigits | src/pages/HistoricoConsultas.jsx:29 | the benefit placeholder holds no digit |
| HistoricoConsultas.FmtCpfIdempotent | src/pages/HistoricoConsultas.jsx:21-26 | formatting a formatted CPF changes nothing |
| HistoricoConsultas.FmtNbIdempotent | src/pages/HistoricoConsultas.jsx:27-32 | formatting a formatted benefit number changes nothing |
| HistoricoConsultas.RowsOf | src/pages/HistoricoConsultas.jsx:75-79 | an array is the list itself; an object's data array, else its rows array, is the list; an object with neither is a list of one; anything else is empty |
| HistoricoConsultas.CountExclusive | src/pages/HistoricoConsultas.jsx:111-112 | no row counts both as a success and as pending, so the two counts fit in the total |
| HistoricoConsultas.StatsOf | src/pages/HistoricoConsultas.jsx:104-116 | the total is the row count, successes and pending rows are counted by their tests, and success plus failures plus pending is the total |
| HistoricoConsultas.Pages | src/pages/HistoricoConsultas.jsx:92 | at least one page, enough for every row, with no empty last page beyond the first |
| HistoricoConsultas.PageItems | src/pages/HistoricoConsultas.jsx:94-97 | a page holds at most 50 rows, the ones at its positions in the list |
| HistoricoConsultas.ShownRangeMatches | src/pages/HistoricoConsultas.jsx:98-99 | on any page of a non-empty list the shown range counts exactly the rows shown and lies within the list |
| HistoricoConsultas.HistoryPager.CurrentPage | src/pages/HistoricoConsultas.jsx:93 | the page shown lies in 1..pages and is the requested one when that is not past the end |
| HistoricoConsultas.HistoryPager.Reset | src/pages/HistoricoConsultas.jsx:102 | a change in the number of rows shows page 1 (new rows of the same count keep the page) |
| HistoricoConsultas.HistoryPager.Previous | src/pages/HistoricoConsultas.jsx:208 | one page back, never before the first |
| HistoricoConsultas.HistoryPager.Next | src/pages/HistoricoConsultas.jsx:220 | one page on, never past the last |
| HistoricoConsultas.HistoryPager.Select | src/pages/HistoricoConsultas.jsx:209-218 | a page button requests that page |
| HistoricoConsultas.HistoryPager.constructor | src/pages/HistoricoConsultas.jsx:50 | the page starts at 1 |
| HistoricoConsultas.WithoutLogin | src/pages/HistoricoConsultas.jsx:123-125 | the name loses exactly the login from its end when it ends with a non-empty login, and is kept otherwise |
| HistoricoConsultas.ExportName | src/pages/HistoricoConsultas.jsx:121-128 | the exported name is never empty; it is '-' or a prefix of the name that does not end in a comma or space |
| HistoricoConsultas.ExportNameSplits | src/pages/HistoricoConsultas.jsx:121-128 | the raw name is the exported name followed by commas and spaces and then possibly the login |
| HistoricoConsultas.ExportNameKeeps | src/pages/HistoricoConsultas.jsx:121-128 | a name without the login at its end and without trailing separators is exported unchanged |
| GeradorSites.LooseTextOfText | src/pages/GeradorSites.jsx:30 | a typed text is read back as that text |
| GeradorSites.CnpjDigits | src/pages/GeradorSites.jsx:30 | the digits kept are digits and at most fourteen |
| GeradorSites.PushPart | src/pages/GeradorSites.jsx:37-41 | appending a digit run adds exactly those digits, with the separator only when something came before |
| GeradorSites.CnpjMaskDigits | src/pages/GeradorSites.jsx:31-42 | the digits of the mask are exactly the digits it was laid over |
| GeradorSites.CnpjMaskFull | src/pages/GeradorSites.jsx:31-42 | fourteen digits render as NN.NNN.NNN/NNNN-NN |
| GeradorSites.CnpjMaskShape | src/pages/GeradorSites.jsx:31-42 | fourteen digits give eighteen characters with the dots, slash and dash in place |
| GeradorSites.FormatCnpj | src/pages/GeradorSites.jsx:29-43 | the digits shown are the first fourteen typed, and fourteen digits show in the full NN.NNN.NNN/NNNN-NN shape |
| GeradorSites.CnpjPieces | src/pages/GeradorSites.jsx:31-35 | the five slices of at most fourteen digits put back together are the digits |
| GeradorSites.CnpjDigitsOfMasked | src/pages/GeradorSites.jsx:29-43 | retyping a masked CNPJ reads back the same digits |
| GeradorSites.FormatCnpjIdempotent | src/pages/GeradorSites.jsx:29-43 | formatting a formatted CNPJ changes nothing |
| GeradorSites.NationalDigits | src/pages/GeradorSites.jsx:46-48 | the national number is digits, without a leading 55, at most eleven of them |
| GeradorSites.PushAlways | src/pages/GeradorSites.jsx:54-56 | appending a digit run adds exactly those digits and keeps what came before in front |
| GeradorSites.CountryCodeDigits | src/pages/GeradorSites.jsx:53 | the country prefix +55 holds the digits 55 |
| GeradorSites.PhoneMaskDigits | src/pages/GeradorSites.jsx:50-57 | the mask starts with +55 and its digits are 55 followed by the national number |
| GeradorSites.PhonePieces | src/pages/GeradorSites.jsx:50-52 | the three slices of at most eleven digits are digits and put back together give the number |
| GeradorSites.PushThree | src/pages/GeradorSites.jsx:54-56 | three appended runs add their digits in order and keep the prefix in front |
| GeradorSites.FormatPhoneBr | src/pages/GeradorSites.jsx:45-58 | nothing exactly when no national digit is left; otherwise it starts with +55 and its digits are 55 and the first eleven national digits |
| GeradorSites.FormatPhoneBrIdempotent | src/pages/GeradorSites.jsx:45-58 | formatting a formatted phone changes nothing |
| GeradorSites.FilledIff | src/pages/GeradorSites.jsx:172 | a field counts as filled exactly when it holds something other than white space |
| GeradorSites.CanProceedIff | src/pages/GeradorSites.jsx:168-175 | about `CanProceed`: step 1 goes on exactly when razão, CNPJ, endereço and WhatsApp and the company (typed or chosen) hold non-blank text; any other step always goes on |
| PresencaPending.Accept | api/presenca/pending.js:54-64 | a kept row has an 11-digit CPF, a non-empty trimmed name and a 10- or 11-digit mobile number whose third digit is 9, and keeps the trimmed name |
| PresencaPending.CleanedValid | api/presenca/pending.js:52-65 | about `Cleaned`: every cleaned row is well formed |
| PresencaPending.CleanedInOrder | api/presenca/pending.js:52-65 | the cleaned rows are an order-preserving selection of the input, and every acceptable row is kept |
| PresencaPending.NoValidRowsNothingKept | api/presenca/pending.js:52-65 | an input without an acceptable row keeps nothing |
| PresencaPending.CleanRows | api/presenca/pending.js:52-65 | the loop builds exactly the cleaned rows |
| PresencaPending.Handle | api/presenca/pending.js:11-120 | 405 for anything but POST, 500 without credentials, 400 without loginP, tipoConsulta or rows or with no valid row, 413 above 2000 rows; otherwise exactly the cleaned rows are inserted and the answer is 200, or 500 when the insert fails |
| AndamentoServer.IndexOf | Andamento/server.js:17-18 | the position found holds the character and none before it does; no position means the character is absent |
| AndamentoServer.Unquote | Andamento/server.js:21-23 | removing the quotes never lengthens the value |
| AndamentoServer.UnquoteQuoted | Andamento/server.js:21-23 | a value wrapped in matching double or single quotes gives back exactly what is inside |
| AndamentoServer.ParseEnvLine | Andamento/server.js:15-24 | a line is skipped exactly when it is blank, a comment or has no '='; otherwise its key holds no '=' and is trimmed |
| AndamentoServer.ParseAssignment | Andamento/server.js:16-24 | a trimmed line is skipped exactly when blank, a comment or without '='; otherwise the key holds no '=' and is trimmed |
| AndamentoServer.TrimIsInfix | Andamento/server.js:15 | every character of a trimmed text comes from the text |
| AndamentoServer.StripBom | Andamento/server.js:13 | the text is kept, or loses exactly one leading byte-order mark |
| AndamentoServer.AssignedKeys | Andamento/server.js:14-25 | a key is set exactly when some line assigns it |
| AndamentoServer.LastAssignmentWins | Andamento/server.js:24 | a key holds the value of the last line that assigns it |
| AndamentoServer.AssignmentsSnoc | Andamento/server.js:14-25 | one more line applies its assignment on top of the earlier ones |
| AndamentoServer.EnvKeys | Andamento/server.js:10-27 | a key is in the environment exactly when some non-skipped line sets it |
| AndamentoServer.LaterLineWins | Andamento/server.js:10-27 | a later line overwrites an earlier one with the same key |
| AndamentoServer.LoadEnvFile | Andamento/server.js:10-27 | a missing file gives no settings; an existing one gives the settings its lines set |
| AndamentoServer.CarryDay | Andamento/server.js:117 | an out-of-range day carries into the neighbouring months and yields a real date; an in-range day is kept |
| AndamentoServer.UtcFields | Andamento/server.js:117-118 | the fields read back from the UTC date always form a real date |
| AndamentoServer.IsValidDateIff | Andamento/server.js:114-119 | about `IsValidDate`: a date is accepted exactly when it has the YYYY-MM-DD shape, names a real date and its year is 0100 or later |
| AndamentoServer.SplitAfterWord | Andamento/server.js:153 | splitting at the first separator yields the part before it first |
| AndamentoServer.FirstPart | Andamento/server.js:153 | the first part of a header is the word before the first space |
| AndamentoServer.AuthorizedHeader | Andamento/server.js:151-156 | about `IsAuthorized`: Bearer <token>, optionally followed by a space and more, is accepted exactly when the token is the non-empty API token |
| AndamentoServer.AuthorizedShape | Andamento/server.js:151-156 | an accepted header starts with Bearer followed by the API token, which is non-empty |
| AndamentoServer.JoinTwo | Andamento/server.js:153 | joining parts puts the separator between the first two and the rest |
| AndamentoServer.Handle | Andamento/server.js:158-203 | OPTIONS gets 204; a GET on the andamento path gets 401 without authorization, 400 exactly when a supplied date is invalid, and is otherwise queried with the supplied dates or the current month's, answering 200 or 500 as the query succeeds; any other request gets 404 |
| V8Client.ExtractJobId | src/services/v8Client.js:12-20 | anything but an object gives ''; a truthy top-level id is used trimmed; the result is always trimmed |
| V8Client.DirectIdWins | src/services/v8Client.js:14-18 | a top-level jobId wins over the nested one whatever data holds |
| V8Client.LookupFirstOnly | src/services/v8Client.js:14 | a field listed once is read as its value |
| V8Client.NestedIdUsed | src/services/v8Client.js:15-18 | without a top-level id the id comes from data |
| V8Client.NestedOnly | src/services/v8Client.js:15-19 | without a truthy top-level id (absent, empty, 0, false or null) the nested one is read, trimmed |
| V8Client.NotNullishText | src/services/v8Client.js:19 | a truthy value reads as its own trimmed text |
| V8Client.NormalizeStatusToken | src/services/v8Client.js:22-28 | the token is no longer than the text and holds no combining mark or upper-case letter |
| V8Client.Classify | src/services/v8Client.js:86-88 | done when the token contains a done word, failed when it contains a failure word, and pending exactly when neither |
| V8Client.ContainsPrefix | src/services/v8Client.js:86-87 | a text that contains p followed by q contains p |
| V8Client.FailedIff | src/services/v8Client.js:87 | failed exactly when the token contains erro, failed or falha |
| V8Client.DoneIff | src/services/v8Client.js:86 | done exactly when the token contains done, completed, concluido, success or sucesso |
| V8Client.ImportResult | src/services/v8Client.js:51-63 | the import is accepted exactly for status 200, 201 or 202 without ok false, and then reports that status, accepted exactly for 202, and the job id read from the body |
| V8Client.StatusRequestId | src/services/v8Client.js:67-68 | a blank job id fails before any request; otherwise the trimmed id is sent |
| V8Client.StatusResult | src/services/v8Client.js:73-99 | a status is reported exactly for a 2xx answer without ok false; the token is the normalised status field and is classified by Classify (pending exactly when neither done nor failed); the job id is the response's own when it has one, else the requested one |
| LoadingContext.AfterBegin | src/context/LoadingContext.jsx:9-12 | begin opens one more operation and shows the overlay |
| LoadingContext.AfterEnd | src/context/LoadingContext.jsx:13-16 | end closes one operation but never goes below zero; the overlay hides when none is left and is never shown by end |
| LoadingContext.ApplyKeepsConsistent | src/context/LoadingContext.jsx:9-16 | both calls keep the overlay shown exactly while an operation is open |
| LoadingContext.RunKeepsConsistent | src/context/LoadingContext.jsx:9-16 | any sequence of calls keeps the overlay in step with the counter |
| LoadingContext.BeginEndRestores | src/context/LoadingContext.jsx:9-16 | begin then end restores the counter, and the whole state when it was consistent |
| LoadingContext.RunSnoc | src/context/LoadingContext.jsx:9-16 | running one more call applies it to the state reached |
| LoadingContext.RunCounter | src/context/LoadingContext.jsx:9-16 | without underflow the counter is the start plus the begins minus the ends |
| LoadingContext.BalancedHides | src/context/LoadingContext.jsx:9-16 | from the initial state a balanced sequence ends with the counter at zero and the overlay hidden |
| LoadingContext.LoadingProvider.constructor | src/context/LoadingContext.jsx:6-7 | the provider starts with no operation open and the overlay hidden |
| LoadingContext.LoadingProvider.Begin | src/context/LoadingContext.jsx:9-12 | the provider's state becomes the state after begin |
| LoadingContext.LoadingProvider.End | src/context/LoadingContext.jsx:13-16 | the provider's state becomes the state after end, hidden when the counter reaches zero |
| LoadingContext.LoadingProvider.ShowFor | src/context/LoadingContext.jsx:17-20 | showFor opens an operation now, like begin |
| FilaMilvus.KeyOf | src/pages/FilaMilvus.jsx:23-29 | about `NormalizeKey`: normalizeKey fails exactly on null (no toString), and undefined takes the default empty text |
| FilaMilvus.DeskOf | src/pages/FilaMilvus.jsx:83 | the desk read from an item is never nullish |
| FilaMilvus.First2 | src/pages/FilaMilvus.jsx:91-97 | the first present field wins, and with a present fallback the result is never nullish |
| FilaMilvus.Adapt | src/pages/FilaMilvus.jsx:88-100 | the ticket keeps the item's desk, its status when present, and never has a nullish code, client, status, priority or technician |
| FilaMilvus.KeepAdapt | src/pages/FilaMilvus.jsx:79-100 | about `Keep`: an item gives a ticket exactly when the filter keeps it, and that ticket is its adaptation |
| FilaMilvus.AdaptTickets | src/pages/FilaMilvus.jsx:79-100 | the load fails exactly when some item has a null status; otherwise no more tickets than items |
| FilaMilvus.AdaptedFromKept | src/pages/FilaMilvus.jsx:79-100 | every ticket is the adaptation of a kept item |
| FilaMilvus.KeptAreAdapted | src/pages/FilaMilvus.jsx:79-100 | every kept item's ticket is loaded |
| FilaMilvus.AdaptedArePlanning | src/pages/FilaMilvus.jsx:81-87 | every ticket shown sits at the planning desk and was not finished when loaded |
| FilaMilvus.NoStatusNotFinished | src/pages/FilaMilvus.jsx:94 | the placeholder status of a ticket without one is not read as finished |
| FilaMilvus.UnwrapList | src/pages/FilaMilvus.jsx:12-21 | an array is its own list; anything but an array or object gives no list |
| FilaMilvus.RawList | src/pages/FilaMilvus.jsx:130-136 | the lista field's list wins; with none of the five fields holding a list the payload itself is used when it is an array |
| FilaMilvus.FirstList | src/pages/FilaMilvus.jsx:130-136 | the first field holding a list gives the list; with none the payload array or nothing |
| FilaMilvus.CardOf | src/pages/FilaMilvus.jsx:226-241 | a ticket whose status key is empty counts towards no card |
| FilaMilvus.CardsFit | src/pages/FilaMilvus.jsx:223-248 | each ticket counts towards one card at most, so queue, active and waiting add up to at most the tickets |
| FilaMilvus.MetricsOf | src/pages/FilaMilvus.jsx:223-248 | the loop counts exactly the queue, active and waiting tickets, and they add up to at most the tickets |
| FilaMilvus.ExactEntry | src/pages/FilaMilvus.jsx:67 | the exact lookup finds an entry of the table with that key, or none exists |
| FilaMilvus.ContainedEntry | src/pages/FilaMilvus.jsx:68 | the fallback finds an entry whose key occurs in the key, or none exists |
| FilaMilvus.Variant | src/pages/FilaMilvus.jsx:65-70 | the variant is the default or a table value; no match gives the default; an exact key gives its own entry |
| FilaMilvus.PriorityOfKey | src/pages/FilaMilvus.jsx:65-70 | about `PriorityVariant`: a key naming an Object.prototype property reads the inherited value; any other key gives danger, primary or success, and primary when it names no priority |
| FilaMilvus.CompareOrder | src/pages/FilaMilvus.jsx:198-220 | about `Compare`: a ticket being handled sorts first; among equals one with a technician; among those the newer |
| FilaMilvus.CompareAntisymmetric | src/pages/FilaMilvus.jsx:198-220 | with an antisymmetric collation swapping the tickets flips the comparison's sign |
| UsuariosZapresponder.Items | src/pages/UsuariosZapresponder.jsx:55-56 | the rows that take part are exactly the truthy rows, each with its position |
| UsuariosZapresponder.UserKey | src/pages/UsuariosZapresponder.jsx:57 | the user key is always truthy: e-mail, else name, else row-<position> |
| UsuariosZapresponder.DeptOf | src/pages/UsuariosZapresponder.jsx:64 | the department a row adds is always truthy |
| UsuariosZapresponder.Fresh | src/pages/UsuariosZapresponder.jsx:58-63 | a new entry starts with no departments |
| UsuariosZapresponder.Bump | src/pages/UsuariosZapresponder.jsx:65-69 | only the date may change, and only to the row's date |
| UsuariosZapresponder.AddRow | src/pages/UsuariosZapresponder.jsx:58-70 | after a row the user's entry exists |
| UsuariosZapresponder.Keys | src/pages/UsuariosZapresponder.jsx:54-71 | the user keys are distinct and include the key of every row that takes part |
| UsuariosZapresponder.GroupedByKey | src/pages/UsuariosZapresponder.jsx:54-71 | there is one entry per distinct key |
| UsuariosZapresponder.GroupedSortedByName | src/pages/UsuariosZapresponder.jsx:72 | about `Grouped`: the sorted list is a permutation of the entries, one per key, with names in collation order |
| UsuariosZapresponder.GroupedLoop | src/pages/UsuariosZapresponder.jsx:52-73 | the forEach over the rows with its Map and the final sort computes grouped |
| UsuariosZapresponder.EntryOfKey | src/pages/UsuariosZapresponder.jsx:54-71 | the t-th entry is built from exactly the rows of the t-th key, and there is at least one |
| UsuariosZapresponder.EntryContents | src/pages/UsuariosZapresponder.jsx:58-64 | an entry's departments are its rows' departments in order, and its name and e-mail come from its first row |
| UsuariosZapresponder.BumpStep | src/pages/UsuariosZapresponder.jsx:65-69 | keeping the later date never moves it back and leaves it no earlier than the row's |
| UsuariosZapresponder.EntrySnoc | src/pages/UsuariosZapresponder.jsx:58-70 | the entry of one more row is the previous entry (or a fresh one) with that row added |
| UsuariosZapresponder.EntryLatest | src/pages/UsuariosZapresponder.jsx:65-69 | when every date parses an entry's date is the latest of its rows' and is null or one of them |
| UsuariosZapresponder.DepartmentsOfEntry | src/pages/UsuariosZapresponder.jsx:64 | each entry holds one department per row of its user, in order |
| UsuariosZapresponder.DepartmentsPartitionRows | src/pages/UsuariosZapresponder.jsx:52-73 | the department counts sum to the number of rows that take part and no entry is empty |
| UsuariosZapresponder.EntryDateIsLatest | src/pages/UsuariosZapresponder.jsx:65-69 | when every date parses each user's date is the latest among that user's rows |
| UsuariosZapresponder.LastUpdated | src/pages/UsuariosZapresponder.jsx:78-81 | the latest date is never negative, no user's date is later, and it is 0 or some user's date |
| UsuariosZapresponder.LastUpdatedSnoc | src/pages/UsuariosZapresponder.jsx:78-81 | one more user folds its date into the latest one |
| UsuariosZapresponder.DepartmentList | src/pages/UsuariosZapresponder.jsx:86 | depList holds every department of every user exactly once, sorted in the UTF-16 code-unit order of their texts (`Base.CodeUnitLe`) |
| Base.CodeUnitLeUnits | src/pages/UsuariosZapresponder.jsx:86 | the character-by-character order of `sort()` is exactly the lexicographic order of the two strings' UTF-16 code units (`Base.Utf16`), so characters above U+FFFF sort between U+D7FF and U+E000 |
| UsuariosZapresponder.DeptOrderTotal | src/pages/UsuariosZapresponder.jsx:86 | the default sort order is total |
| UsuariosZapresponder.DepartmentSet | src/pages/UsuariosZapresponder.jsx:76-77 | the set loops collect every department of every user exactly once |
| UsuariosZapresponder.TotalsOf | src/pages/UsuariosZapresponder.jsx:75-88 | usuarios is the number of users; depList has no duplicates and is exactly the users' departments, and departamentos is its length; the date is absent exactly when the latest is 0 |
| UsuariosZapresponder.UsuariosCountsKeys | src/pages/UsuariosZapresponder.jsx:52-73 | there is one user per distinct key, and the keys are exactly those of the rows that take part |
| UsuariosZapresponder.LastUpdatedCoversRows | src/pages/UsuariosZapresponder.jsx:65-81 | when every date parses the totals' date is no earlier than any row's date |
| UsuariosZapresponder.EntryOfRow | src/pages/UsuariosZapresponder.jsx:54-70 | the entry of a row's user has a date no earlier than the row's |
| UsuariosZapresponder.Filtered | src/pages/UsuariosZapresponder.jsx:90-97 | a user is shown exactly when it matches the text and the department, as many times as grouped lists it, and in the order of grouped |
| UsuariosZapresponder.FilteredAllWhenBlank | src/pages/UsuariosZapresponder.jsx:90-97 | with a blank search and no department every user is shown |

## Left out

- Network, database and file I/O: the partner API requests and token login, the SQL Server connection, its retry, liveness check, reconnect and rollback, the `fetch` calls of the pages, React rendering, timers, console logging and sleeping are not modelled. Where an outcome steers the code it is a parameter. `insertSucceeds` and `credentialsSet` stand for the database in `PresencaPending.Handle`. The `.env` file text and the query outcome are inputs of `AndamentoServer`. The HTTP status and decoded body are inputs of `V8Client`. `parse` stands for `JSON.parse` in `GeradorSitesV3`. `PhoneDraw` stands for `Math.random` in `ConsultasV8`. `timeOf` and `collate` stand for `Date` parsing and `localeCompare`. `hasValue` stands for `parseMoneyValue(...) > 0` in `ConsultaLote`.
- Floating point: JavaScript and Python numbers are integers here. `Js.NumberText` reads decimal integer text only; fractions, exponents and hexadecimal read as not a number, and `Infinity` is absent. The members below therefore differ from the source on fractional input.
- Js.Get: reads an object's own properties only. JavaScript's `row?.[key]` also finds the properties every object inherits from `Object.prototype`, so a key such as "constructor" reads a function in the page and undefined in the model. Relatorios.PropertyOf, Relatorios.RowTexts, Relatorios.RowLines and Relatorios.BuildCsv differ on such a header: for the rows `[{"constructor":1},{}]` the page writes the function's source text in the second row, where the model writes an empty cell. FilaMilvus.PriorityOfKey and AcompanhamentoDisparos.InheritedName do model the inherited reads of their pages. Values are also compared by structure, where a JavaScript `Map` or `Set` compares objects by identity: in UsuariosZapresponder.Grouped and UsuariosZapresponder.DepartmentList two equal non-text keys or departments merge in the model and stay apart in the page. UsuariosZapresponder.Grouped sorts by the text of each name, where the page's `a.nome.localeCompare` throws when a truthy `usuario_nome` is not a string.
- Py.ReprStr: wraps text in single quotes as it stands. Python's `repr` switches to double quotes when the text holds a single quote and no double quote, and escapes backslashes, the quote it uses and control characters. `Py.Str` of a list or dict holding such text therefore differs, and with it SyncFields.NormalizeValueText, SyncFields.Normalize4000, SyncFields.DigitsOnly and SyncFields.PickPhoneEntry on such a container.
- Recargas.ParseRow: a fractional amount such as "150.50" counts as 0 in the model, where `Number` gives 150.5; the top-up date is kept as the given value rather than parsed with `new Date`.
- ConsultasV8.LimitSummaryOf: totals and used amounts are integers; fractional limits are not summed as the page sums them.
- AcompanhamentoDisparos.NormalizeStatus: numeric-looking text is read as an integer; "1.0" or "2e0" is not recognised as a number.
- Backups.SummaryOf: the base and running counts are summed as integers; a fractional count reads as not a number.
- Backups.FormatTimerHours: takes the already converted `Number(...)` as an optional real, so the text-to-number step is outside it.
- Usuarios.EquipeWanted: the team filter compares `Number(...)` of integer text only.
- Usuarios.SameTeam: team ids are compared as integers.
- AcompanhamentoDisparos.Progress: `Math.round(sent / total * 100)` is computed over doubles. The model takes the double product as a parameter `q` bounded as double division and multiplication guarantee, and `ProgressMayRoundHalfDown` exhibits the half-down case (23 of 40 gives 57 in JavaScript).
- Relatorios.RowKeys: takes a parsed object's entries in stored order; JavaScript's `Object.keys` lists array-index keys ("0", "17") first, and the model does not reorder them.
- Unicode: `Base.StripAccents` folds the Latin-1 accented letters only, not every NFD decomposition, and `Base.Lower`/`Base.Upper` map ASCII and Latin-1 letters only, where JavaScript's `toLowerCase`/`toUpperCase` and Python's `lower`/`upper` map every cased letter. Even within Latin-1, `Base.Upper` leaves 'ß', 'µ' and 'ÿ' unchanged (the source gives "SS", 'Μ' and 'Ÿ'); outside it the model leaves 'ı' (dotless i) and 'ſ' (long s) as they are where upper-casing gives 'I' and 'S', and leaves 'İ' and the Kelvin sign where lower-casing gives "i̇" (two code units) and 'k'. Every member built on these helpers differs from the source on such letters. Built on `Base.Lower`: AcompanhamentoDisparos.NormalizeStatus, AcompanhamentoDisparos.StatusWord, AcompanhamentoDisparos.NormalizeTemplate, AcompanhamentoDisparos.Usable, Backups.TableKey, ConsultaLote.GroupKey, ConsultaLote.IsDoneLote, ConsultaLote.PendingToken, ConsultaLote.ReadRow, ConsultaPresenca.Headers, ConsultaPresenca.ParseHeaders, ConsultaPresenca.Token, ConsultasV8.CsvKeyPart, ConsultasV8.NormalizeHeaderToken, FilaMilvus.NormalizeKey, HistoricoConsultas.IsPendente, HistoricoConsultas.StatsOf, MultiploDisparos.RatingKey, StatusWhatsapp.AccountKey, Usuarios.IsScopedManager, Usuarios.IsSuperUser, Usuarios.LowerField, Usuarios.NomeTerm, Usuarios.RoleName, Usuarios.SearchTerm, Usuarios.SeesEveryone, Usuarios.TipoWanted, Usuarios.Chain, Usuarios.ToLoginFromName, UsuariosBmControles.TelefonePayload, UsuariosZapresponder.MatchesDept, UsuariosZapresponder.MatchesText, UsuariosZapresponder.Query, UsuariosZapresponder.Filtered and V8Client.NormalizeStatusToken. Built on `Base.Upper`: ConsultasV8.CleanName, ConsultasV8.IsAggregate, ConsultasV8.NameToken, GeradorSitesV3.ConnectionCapacity, GeradorSitesV3.MapWhatsappLimit, StatusWhatsapp.ToCode, StatusWhatsapp.ToQualityCode, StatusWhatsapp.ToStatusCode, SyncFields.NormalizeUf and SyncMerge.KeyPart. Built on `Base.StripAccents`: ConsultaLote.PendingToken, ConsultasV8.CleanName, ConsultasV8.NameToken, ConsultasV8.NormalizeHeaderToken, FilaMilvus.NormalizeKey, SyncFields.NormalizeUf, Usuarios.ToLoginFromName and V8Client.NormalizeStatusToken. Python's `isalpha`, `\D` and `isspace` are Unicode-wide, where `Base.IsAlpha` and `Base.IsDigit` know ASCII and Latin-1 letters and ASCII digits: SyncFields.LettersAndSpaces, SyncFields.NormalizeUf, SyncFields.DigitsOnly and SyncFields.NormalizeDigits inherit this. Lengths and slices of text count characters, where JavaScript counts UTF-16 code units; the two differ only for characters above U+FFFF.
- SyncFields.PickPhoneEntry: fails (None) where Python raises TypeError; that the `except` at API-NewCorban-RT.py:664-666 then skips the rest of the company's items is not modelled, because that loop runs over fetched data.
- SyncFields.DigitsOnly: keeps the ASCII digits only. Python's `re.sub(r'\D+', '', ...)` on text keeps every Unicode decimal digit, so for "١٢" (Arabic-Indic one and two) the source returns both characters and the model returns ""; the promise that the result is all ASCII digits holds for the model only.
- SyncFields.NormalizeDigits: inherits DigitsOnly's ASCII-only digits, so text holding only non-ASCII decimal digits gives None in the model and those digits in the source.
- SyncFields.NormalizeUf: upper-cases and strips accents with the Latin-1 helpers, so "pıauı" (dotless i, which Python upper-cases to 'I') gives None in the model where the source gives "PI"; every result is still one of the 27 codes in both.
- ConsultaPresenca.MaskLogin: counts characters, where the page's `length` and `slice(0, 3)` count UTF-16 code units; a login holding a character above U+FFFF masks one '*' per character in the model and two in the page, and the page can cut such a character in half.
- ConsultasV8.NormalizeHeaderToken: strips accents and lower-cases with the Latin-1 helpers; a header spelled with other accented or cased letters gives a different token, so a column the page recognises can be missed by the model.
- ConsultasV8.NameToken: strips accents and upper-cases with the Latin-1 helpers; names with 'ı', 'ſ', 'ß' or accents outside Latin-1 give a different token than in the page, so the name lookups built on it can differ.
- AcompanhamentoDisparos.StatusWord: receives text lower-cased by `Base.Lower`, so "OK" written with the Kelvin sign, which the page lower-cases to "ok" (sent), is not recognised by the model.
- StatusWhatsapp.ToCode: upper-cases with `Base.Upper`, so a token written with 'ı' or 'ſ', which the page upper-cases to 'I' or 'S', can match a code in the page and give UNKNOWN in the model. StatusWhatsapp.ToStatusCode and StatusWhatsapp.ToQualityCode inherit this.
- StatusWhatsapp.ToStatusCode: as ToCode, for the status table.
- StatusWhatsapp.ToQualityCode: as ToCode, for the quality table.
- GeradorSitesV3.MapWhatsappLimit: upper-cases with `Base.Upper`, so "tıer_2k" (dotless i) gives '2.000' in the page and comes back unchanged in the model.
- GeradorSitesV3.ConnectionCapacity: as MapWhatsappLimit, "tıer_250" gives 2 in the page and unlimited in the model.
- Backups.TableKey: keeps the trimmed text's length only because `Base.Lower` maps Latin-1 letters one to one; JavaScript lower-cases 'İ' to two code units, so the page's key can be longer, and it lower-cases the Kelvin sign to 'k', so two names the model keeps apart can share a key in the page.
- Usuarios.Chain: the type, name and search steps compare text lower-cased by `Base.Lower`, so a filter typed in a different case with letters outside Latin-1 (the Kelvin sign, Greek or Cyrillic letters) matches in the page and not in the model.
- UsuariosZapresponder.Filtered: as Usuarios.Chain, the search and the department filter compare `Base.Lower` text.
- UsuariosBmControles.NormalizeRows: groups rows into BMs by the structure of their id, where the page's `Map` compares an object or array id by identity; two rows whose ids are equal objects make one BM in the model and two in the page (each parsed row holds its own object). UsuariosBmControles.NormalizeRowsLoop inherits this.
- UsuariosBmControles.PayloadTelefones and UsuariosBmControles.PayloadPortifolios: a payload that throws is None; the page's exception itself and what the save handler does with it are not modelled.
- SyncMerge.KeyPart: the MERGE and dedup keys compare under the table's case-insensitive SQL Server collation; the model upper-cases the trimmed text, which agrees for ASCII and Latin-1 letters but not for accent-insensitive or other collation rules.
- SyncMerge.Dedup: `ROW_NUMBER() OVER (... ORDER BY (SELECT 0))` keeps an unspecified row per key; the kept row is a parameter `prefer`, and only properties that hold for every choice are proved.
- SyncScheduler.LoadState: `run_loop` never calls `load_state`, so every cycle restarts the sweep at today minus 90 days; the model follows the code, and `LoadState` is stated on its own.
- SyncScheduler.Valid: dates have no upper year limit, where `datetime.date` stops at year 9999.
- SyncFields.InOperatingWindow: the conversion of the clock to the configured time zone (`RT_TZ`) is not modelled; the gate is stated on the local weekday, hour and minute it is given.
- ConsultaPresenca.NormalizeCpfBatch: the branch for spreadsheet scientific notation (text matching `/[eE]/` read with `Number` and `Math.trunc`) is not modelled; the model takes the digits of such text, so its contract does not describe inputs containing "e" or "E".
- ConsultaLote.GroupLoteRows: each lot's `created` date and `avgDurationMs` need `Date` parsing and are not modelled; the counters are.
- HistoricoConsultas.RowsOf: takes the decoded response; the `parseLooseList` repair of malformed JSON is not modelled.
- Recargas: the search and date-range filter feeding the page list is not modelled; pagination and stats are stated over whatever list it gives.
- FilaMilvus: `filteredTickets`, `statusOptions`, `getStatusVariant` and `formatDateTime` are display-only and are not modelled.
- AndamentoServer: merging the file's values with `process.env`, `requireEnv`, the CORS headers and the SQL text are not modelled.
- PresencaPending.Handle: `getEnv` and the database client are not modelled; whether the credentials are set and whether the insert succeeds are parameters.
- V8Client: `parseJsonResponse` is not modelled; the decoded body is an input.
- UsuariosBmControles: `formatPhoneBR` (display only) is not modelled.
- GeradorSitesV3.ParseResponse: its ensures cover the `JSON.parse` path; the brace-scanner fallback is stated by `GeradorSitesV3.ScannedFromBlocks`.

## Findings

| source | as written | input that shows it | evidently intended | confidence | as-written member | corrected member |
|---|---|---|---|---|---|---|
| src/pages/StatusWhatsapp.jsx:80 | the country code is `digits.slice(0, digits.length - 11) \|\| '55'` | a number with exactly 10 digits: the end index is -1, so nine digits become the country code and the text shows 19 digits | the country code is "55" whenever the number has at most 11 digits | not executed | StatusWhatsapp.FormatPhoneAsWrittenTenDigits | StatusWhatsapp.FormatPhoneDigits |
