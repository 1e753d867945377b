/** The column-mapping upload component (`AdvanceBulkUpload`): it loads a
    file's rows, maps its columns onto the list's fields, validates lookup
    values, and posts one typed payload per row in batches of ten, one
    attempt per row. */
module AdvanceBulkUpload {
  import opened Wrappers
  import opened Seqs
  import opened JsText
  import opened Records
  import opened Schema
  import opened Logs
  import opened Batching
  import opened ColumnMapper
  import opened Payload
  import opened Mismatch

  /** `const batchSize = 10`. */
  const BatchSize: nat := 10

  /** The answers of the list to the create calls: `respond(k, 1)` is whether
      the single call for the row at position `k` got an ok response. */
  type Oracle = (nat, nat) -> bool

  /** The log line for the row at position `k`; messages number rows from 1. */
  function RowOutcome(respond: Oracle, k: nat): (e: LogEntry)
    ensures e.Success() <==> respond(k, 1)
    ensures e.RowUploaded? || e.RowFailed?
    ensures e.rowIndex == k + 1
  {
    if respond(k, 1) then RowUploaded(k + 1) else RowFailed(k + 1)
  }

  /** The log after the first `n` rows, one line per row in row order. */
  function RowsLog(respond: Oracle, n: nat): (log: seq<LogEntry>)
    ensures |log| == n
    ensures forall k :: 0 <= k < n ==> log[k] == RowOutcome(respond, k)
  {
    if n == 0 then [] else RowsLog(respond, n - 1) + [RowOutcome(respond, n - 1)]
  }

  /** The payload of every row, in row order. */
  function Payloads(rows: seq<Row>, mapping: seq<ColumnMapping>, fields: seq<FieldMeta>, lookups: LookupCache)
    : (bodies: seq<Item>)
    ensures |bodies| == |rows|
  {
    seq(|rows|, k requires 0 <= k < |rows| => PayloadOf(rows[k], mapping, fields, lookups))
  }

  /** The create calls for the first `n` rows: one per row, carrying that
      row's body. */
  function RowsPosts(bodies: seq<Item>, n: nat): (posts: seq<Post<Item>>)
    requires n <= |bodies|
    ensures |posts| == n
  {
    if n == 0 then [] else RowsPosts(bodies, n - 1) + [Post(n - 1, 1, bodies[n - 1])]
  }

  /** The call for the row at position `k` is its only one, attempt 1, and
      carries that row's body. */
  lemma {:induction false} RowsPostsAt(bodies: seq<Item>, n: nat)
    requires n <= |bodies|
    ensures forall k :: 0 <= k < n ==> RowsPosts(bodies, n)[k] == Post(k, 1, bodies[k])
  {
    if n > 0 {
      RowsPostsAt(bodies, n - 1);
    }
  }

  /** What `handleUpload` does: refuse with a warning, or run to the end
      with its log, its create calls and the progress values it set. */
  datatype UploadRun =
    | Refused(warning: LogEntry)
    | Completed(log: seq<LogEntry>, posts: seq<Post<Item>>, progress: seq<nat>)

  function UploadOutcome(rows: seq<Row>, mapping: seq<ColumnMapping>, fields: seq<FieldMeta>, lookups: LookupCache, respond: Oracle)
    : UploadRun
  {
    if |rows| == 0 then Refused(NoData)
    else if HasUnmapped(mapping) then Refused(NotMapped)
    else Completed(RowsLog(respond, |rows|), RowsPosts(Payloads(rows, mapping, fields, lookups), |rows|), ProgressTrace(|rows|))
  }

  /** No rows, or an unmapped column, refuses the upload with the matching
      warning and no create call; otherwise every row is posted exactly once
      with its own payload, logged once under its 1-based number as uploaded
      exactly when the call was answered ok, and progress climbs without
      ever decreasing to 100. */
  lemma UploadSpec(rows: seq<Row>, mapping: seq<ColumnMapping>, fields: seq<FieldMeta>, lookups: LookupCache, respond: Oracle)
    ensures var run := UploadOutcome(rows, mapping, fields, lookups, respond);
      && (|rows| == 0 ==> run == Refused(NoData))
      && (|rows| > 0 && HasUnmapped(mapping) ==> run == Refused(NotMapped))
      && (run.Completed? <==> |rows| > 0 && !HasUnmapped(mapping))
    ensures var run := UploadOutcome(rows, mapping, fields, lookups, respond);
      run.Completed? ==>
        && |run.log| == |rows| && |run.posts| == |rows| && |run.progress| == |rows|
        && (forall k :: 0 <= k < |rows| ==>
              && run.log[k].rowIndex == k + 1
              && (run.log[k].Success() <==> respond(k, 1))
              && run.posts[k].record == k && run.posts[k].attempt == 1
              && run.posts[k].body == PayloadOf(rows[k], mapping, fields, lookups))
        && (forall i, j :: 0 <= i <= j < |rows| ==> run.progress[i] <= run.progress[j] <= 100)
        && run.progress[|rows| - 1] == 100
  {
    ProgressTraceFacts(|rows|);
    RowsPostsAt(Payloads(rows, mapping, fields, lookups), |rows|);
  }

  /** The same per-row facts without the order of the lines, which is what
      holds however the answers within a batch interleave: row `k` has one
      uploaded line when its call was answered ok and one failed line when
      not, and every line is a row line of the run. */
  lemma UploadLogCounts(rows: seq<Row>, mapping: seq<ColumnMapping>, fields: seq<FieldMeta>, lookups: LookupCache,
                        respond: Oracle, k: nat)
    requires k < |rows| && !HasUnmapped(mapping)
    ensures var log := UploadOutcome(rows, mapping, fields, lookups, respond).log;
      && multiset(log)[RowUploaded(k + 1)] == (if respond(k, 1) then 1 else 0)
      && multiset(log)[RowFailed(k + 1)] == (if respond(k, 1) then 0 else 1)
      && (forall e :: e in log ==> (e.RowUploaded? || e.RowFailed?) && 1 <= e.rowIndex <= |rows|)
  {
    var log := RowsLog(respond, |rows|);
    var hit := RowOutcome(respond, k);
    var miss := if respond(k, 1) then RowFailed(k + 1) else RowUploaded(k + 1);
    MultisetOnce(log, hit, k);
    assert miss !in log;
  }

  function Min(a: nat, b: nat): nat
  {
    if a < b then a else b
  }

  /** The log, the create calls and the progress values of a run over
      `total` rows with the given bodies, after its first `n` rows. */
  ghost predicate RunAfter(total: nat, bodies: seq<Item>, respond: Oracle, n: nat,
                           log: seq<LogEntry>, posts: seq<Post<Item>>, trace: seq<nat>)
  {
    && n <= total == |bodies|
    && log == RowsLog(respond, n)
    && posts == RowsPosts(bodies, n)
    && trace == ProgressTrace(total)[..n]
  }

  /** One row of a batch: its payload built and posted once, its outcome
      logged under its 1-based number, `processed` advanced and the
      progress recomputed. */
  method UploadRow(rows: seq<Row>, k: nat, mapping: seq<ColumnMapping>, fields: seq<FieldMeta>,
                   lookups: LookupCache, respond: Oracle, ghost bodies: seq<Item>,
                   log0: seq<LogEntry>, posts0: seq<Post<Item>>, trace0: seq<nat>)
    returns (log: seq<LogEntry>, posts: seq<Post<Item>>, trace: seq<nat>)
    requires k < |rows|
    requires RunAfter(|rows|, bodies, respond, k, log0, posts0, trace0)
    requires bodies[k] == PayloadOf(rows[k], mapping, fields, lookups)
    ensures RunAfter(|rows|, bodies, respond, k + 1, log, posts, trace)
  {
    var item := CreateItemPayload(rows[k], mapping, fields, lookups);
    var rowIndex := k + 1;
    posts := posts0 + [Post(k, 1, item)];
    if respond(k, 1) {
      log := log0 + [RowUploaded(rowIndex)];
    } else {
      log := log0 + [RowFailed(rowIndex)];
    }
    ProgressTraceStep(|rows|, k);
    trace := trace0 + [Percent(k + 1, |rows|)];
  }

  /** One batch, `rows.slice(start, end)`: every row of it through
      `UploadRow`, taking the run from its first `start` rows to its first
      `end`. */
  method UploadBatch(rows: seq<Row>, start: nat, end: nat, mapping: seq<ColumnMapping>, fields: seq<FieldMeta>,
                     lookups: LookupCache, respond: Oracle, ghost bodies: seq<Item>,
                     log0: seq<LogEntry>, posts0: seq<Post<Item>>, trace0: seq<nat>)
    returns (log: seq<LogEntry>, posts: seq<Post<Item>>, trace: seq<nat>)
    requires start <= end <= |rows|
    requires RunAfter(|rows|, bodies, respond, start, log0, posts0, trace0)
    requires forall k {:trigger PayloadOf(rows[k], mapping, fields, lookups)} :: start <= k < end ==> bodies[k] == PayloadOf(rows[k], mapping, fields, lookups)
    ensures RunAfter(|rows|, bodies, respond, end, log, posts, trace)
  {
    log, posts, trace := log0, posts0, trace0;
    var idx := 0;
    while start + idx < end
      invariant start + idx <= end
      invariant RunAfter(|rows|, bodies, respond, start + idx, log, posts, trace)
    {
      log, posts, trace := UploadRow(rows, start + idx, mapping, fields, lookups, respond, bodies, log, posts, trace);
      idx := idx + 1;
    }
  }

  /** The batch loop of `handleUpload`, after its two guards: `i` advances
      by ten and every slice goes through `UploadBatch`. The ghost `batches`
      are the slices in the order the loop took them. */
  method UploadRows(rows: seq<Row>, mapping: seq<ColumnMapping>, fields: seq<FieldMeta>, lookups: LookupCache, respond: Oracle)
    returns (run: UploadRun, ghost batches: seq<seq<Row>>)
    ensures run == UploadOutcome(rows, mapping, fields, lookups, respond)
    ensures run.Completed? ==> batches == Slices(rows, BatchSize)
  {
    batches := [];
    if |rows| == 0 {
      return Refused(NoData), batches;
    }
    if HasUnmapped(mapping) {
      return Refused(NotMapped), batches;
    }
    ghost var bodies := Payloads(rows, mapping, fields, lookups);
    var total := |rows|;
    var log: seq<LogEntry> := [];
    var posts: seq<Post<Item>> := [];
    var trace: seq<nat> := [];
    var processed := 0;
    var i := 0;
    while i < total
      invariant processed == Min(i, total)
      invariant RunAfter(total, bodies, respond, processed, log, posts, trace)
      invariant batches + Slices(rows[processed..], BatchSize) == Slices(rows, BatchSize)
      decreases total - i
    {
      var end := Min(i + BatchSize, total);
      SlicesAdvance(rows, BatchSize, batches, i, end);
      log, posts, trace := UploadBatch(rows, i, end, mapping, fields, lookups, respond, bodies, log, posts, trace);
      processed := end;
      batches := batches + [rows[i..end]];
      i := i + BatchSize;
    }
    assert rows[processed..] == [];
    assert ProgressTrace(total)[..processed] == ProgressTrace(total);
    run := Completed(log, posts, trace);
  }

  /** The file types the upload input accepts, by the lower-cased name's
      extension. */
  datatype FileKind = Spreadsheet | JsonFile | Unsupported

  function KindOfFile(name: string): FileKind
  {
    var n := Lower(name);
    if EndsWith(n, ".xlsx") || EndsWith(n, ".xls") then Spreadsheet
    else if EndsWith(n, ".json") then JsonFile
    else Unsupported
  }

  /** The spreadsheet extensions are tested first, the JSON one only when
      neither matches. */
  lemma KindOfFileSpec(name: string)
    ensures KindOfFile(name) == Spreadsheet <==> EndsWith(Lower(name), ".xlsx") || EndsWith(Lower(name), ".xls")
    ensures KindOfFile(name) == JsonFile <==>
      !EndsWith(Lower(name), ".xlsx") && !EndsWith(Lower(name), ".xls") && EndsWith(Lower(name), ".json")
    ensures KindOfFile(name) == Unsupported <==>
      !EndsWith(Lower(name), ".xlsx") && !EndsWith(Lower(name), ".xls") && !EndsWith(Lower(name), ".json")
  {
  }

  /** The extension test ignores case: a name and its lower-cased form are
      of the same kind. */
  lemma KindOfFileIgnoresCase(name: string)
    ensures KindOfFile(Lower(name)) == KindOfFile(name)
  {
    assert Lower(Lower(name)) == Lower(name);
  }

  /** A name's kind is decided by its extension, whatever comes before it. */
  lemma KindOfFileByExtension(base: string)
    ensures KindOfFile(base + ".json") == JsonFile
    ensures KindOfFile(base + ".xlsx") == Spreadsheet
    ensures KindOfFile(base + ".xls") == Spreadsheet
  {
    LowerAppend(base, ".json");
    LowerAppend(base, ".xlsx");
    LowerAppend(base, ".xls");
    var j, l := Lower(base + ".json"), Lower(base + ".xls");
    assert j[|j| - 1] == 'n' && j[|j| - 4] == 'j';
    assert l[|l| - 1] == 's';
  }

  lemma LowerAppend(a: string, ext: string)
    requires NoUpper(ext)
    ensures Lower(a + ext)[|a|..] == ext
  {
  }

  /** What `JSON.parse` made of a JSON file's text. */
  datatype JsonDoc = JsonArray(items: seq<Row>) | JsonNonArray | JsonSyntaxError

  /** The component's state slots. */
  class Session {
    var fileColumns: seq<string>
    var rows: seq<Row>
    var listFields: seq<FieldMeta>
    var lookupValues: LookupCache
    var columnMapping: seq<ColumnMapping>
    var logs: seq<LogEntry>
    var mismatchSummary: seq<MismatchSummary>
    var isUploading: bool
    var progress: nat

    constructor()
      ensures fileColumns == [] && rows == [] && listFields == [] && lookupValues == map[]
      ensures columnMapping == [] && logs == [] && mismatchSummary == []
      ensures !isUploading && progress == 0
    {
      fileColumns := [];
      rows := [];
      listFields := [];
      lookupValues := map[];
      columnMapping := [];
      logs := [];
      mismatchSummary := [];
      isUploading := false;
      progress := 0;
    }

    /** `handleFileUpload` for a chosen file: `sheet` is the first sheet's
        rows when it is read as a workbook, `doc` what `JSON.parse` makes of
        its text. A spreadsheet sets the rows and then the columns from the
        first row, which throws when there is none; a JSON file must be a
        non-empty array. Returns whether the field fetch is started. */
    method HandleFileUpload(name: string, sheet: seq<Row>, doc: JsonDoc) returns (fetches: bool)
      modifies this
      ensures KindOfFile(name) == Spreadsheet ==>
        && rows == sheet && logs == old(logs) && (fetches <==> sheet != [])
        && fileColumns == (if sheet != [] then Keys(sheet[0]) else old(fileColumns))
      ensures KindOfFile(name) == JsonFile ==> fetches
      ensures KindOfFile(name) == JsonFile && doc.JsonArray? && doc.items != [] ==>
        rows == doc.items && fileColumns == Keys(doc.items[0]) && logs == old(logs)
      ensures KindOfFile(name) == JsonFile && !(doc.JsonArray? && doc.items != []) ==>
        && rows == old(rows) && fileColumns == old(fileColumns)
        && logs == old(logs) + [if doc == JsonSyntaxError then InvalidJson else NotAnArray]
      ensures KindOfFile(name) == Unsupported ==>
        fetches && rows == old(rows) && fileColumns == old(fileColumns) && logs == old(logs) + [UnsupportedFile]
      ensures listFields == old(listFields) && lookupValues == old(lookupValues)
      ensures columnMapping == old(columnMapping) && mismatchSummary == old(mismatchSummary)
      ensures isUploading == old(isUploading) && progress == old(progress)
    {
      var kind := KindOfFile(name);
      if kind == Spreadsheet {
        fetches := LoadSheet(sheet);
      } else if kind == JsonFile {
        LoadJson(doc);
        fetches := true;
      } else {
        logs := logs + [UnsupportedFile];
        fetches := true;
      }
    }

    /** The spreadsheet branch: `setRows`, then the columns of the first
        row, which throws when the sheet has none. Returns whether the
        handler gets as far as the field fetch. */
    method LoadSheet(sheet: seq<Row>) returns (fetches: bool)
      modifies this
      ensures rows == sheet && (fetches <==> sheet != [])
      ensures fileColumns == (if sheet != [] then Keys(sheet[0]) else old(fileColumns))
      ensures logs == old(logs) && listFields == old(listFields) && lookupValues == old(lookupValues)
      ensures columnMapping == old(columnMapping) && mismatchSummary == old(mismatchSummary)
      ensures isUploading == old(isUploading) && progress == old(progress)
    {
      rows := sheet;
      if sheet == [] {
        return false;
      }
      fileColumns := Keys(sheet[0]);
      return true;
    }

    /** The JSON branch: a non-empty array sets the rows and the columns of
        its first element; anything else logs why it was refused. */
    method LoadJson(doc: JsonDoc)
      modifies this
      ensures doc.JsonArray? && doc.items != [] ==>
        rows == doc.items && fileColumns == Keys(doc.items[0]) && logs == old(logs)
      ensures !(doc.JsonArray? && doc.items != []) ==>
        && rows == old(rows) && fileColumns == old(fileColumns)
        && logs == old(logs) + [if doc == JsonSyntaxError then InvalidJson else NotAnArray]
      ensures listFields == old(listFields) && lookupValues == old(lookupValues)
      ensures columnMapping == old(columnMapping) && mismatchSummary == old(mismatchSummary)
      ensures isUploading == old(isUploading) && progress == old(progress)
    {
      match doc {
        case JsonArray(items) =>
          if |items| > 0 {
            rows := items;
            fileColumns := Keys(items[0]);
          } else {
            logs := logs + [NotAnArray];
          }
        case JsonNonArray =>
          logs := logs + [NotAnArray];
        case JsonSyntaxError =>
          logs := logs + [InvalidJson];
      }
    }

    /** The state updates of `fetchListFields` once its requests have been
        answered: the schema replaces the fields, and the fetched lookup
        entries are merged over the cached ones. */
    method FieldsFetched(fields: seq<FieldMeta>, fetched: LookupCache)
      modifies this
      ensures listFields == fields && lookupValues == old(lookupValues) + fetched
      ensures forall k :: k in fetched ==> lookupValues[k] == fetched[k]
      ensures forall k :: k in old(lookupValues) && k !in fetched ==> lookupValues[k] == old(lookupValues)[k]
      ensures fileColumns == old(fileColumns) && rows == old(rows) && columnMapping == old(columnMapping)
      ensures logs == old(logs) && mismatchSummary == old(mismatchSummary)
      ensures isUploading == old(isUploading) && progress == old(progress)
    {
      listFields := fields;
      lookupValues := lookupValues + fetched;
    }

    /** The failure path of `fetchListFields`: one error line. */
    method FetchError()
      modifies this
      ensures logs == old(logs) + [FetchFailed]
      ensures fileColumns == old(fileColumns) && rows == old(rows) && listFields == old(listFields)
      ensures lookupValues == old(lookupValues) && columnMapping == old(columnMapping)
      ensures mismatchSummary == old(mismatchSummary) && isUploading == old(isUploading) && progress == old(progress)
    {
      logs := logs + [FetchFailed];
    }

    /** The auto-map effect: with both columns and fields present, the
        mapping is replaced by the automatic one; otherwise it stays. */
    method AutoMapEffect()
      modifies this
      ensures var auto := AutoMap(old(fileColumns), old(listFields));
        columnMapping == (if auto.Some? then auto.value else old(columnMapping))
      ensures fileColumns == old(fileColumns) && rows == old(rows) && listFields == old(listFields)
      ensures lookupValues == old(lookupValues) && logs == old(logs)
      ensures mismatchSummary == old(mismatchSummary) && isUploading == old(isUploading) && progress == old(progress)
    {
      var auto := AutoMap(fileColumns, listFields);
      if auto.Some? {
        columnMapping := auto.value;
      }
    }

    /** The lookup-validation effect: stores the summaries unless it returns
        early. */
    method LookupValidationEffect()
      modifies this
      ensures var v := Validation(old(rows), old(columnMapping), old(listFields), old(lookupValues));
        mismatchSummary == (if v.Some? then v.value else old(mismatchSummary))
      ensures fileColumns == old(fileColumns) && rows == old(rows) && listFields == old(listFields)
      ensures lookupValues == old(lookupValues) && columnMapping == old(columnMapping)
      ensures logs == old(logs) && isUploading == old(isUploading) && progress == old(progress)
    {
      var v := LookupValidation(rows, columnMapping, listFields, lookupValues);
      if v.Some? {
        mismatchSummary := v.value;
      }
    }

    /** `handleMappingChange(idx, value)`: entry `idx` now points at `value`.
        For an index outside the mapping the updater throws a `TypeError`
        when React runs it; the result `false` marks that error, and the
        state is left as it was. */
    method HandleMappingChange(idx: int, value: string) returns (applied: bool)
      modifies this
      ensures applied <==> 0 <= idx < |old(columnMapping)|
      ensures columnMapping == if applied then WithListField(old(columnMapping), idx, value) else old(columnMapping)
      ensures fileColumns == old(fileColumns) && rows == old(rows) && listFields == old(listFields)
      ensures lookupValues == old(lookupValues) && logs == old(logs) && mismatchSummary == old(mismatchSummary)
      ensures isUploading == old(isUploading) && progress == old(progress)
    {
      if 0 <= idx < |columnMapping| {
        columnMapping := WithListField(columnMapping, idx, value);
        return true;
      }
      return false;
    }

    /** `handleUpload`: a refusal appends its warning and changes nothing
        else; a run replaces the log with the run's lines, leaves progress at
        100 and the upload flag off, and returns the create calls made. */
    method HandleUpload(respond: Oracle) returns (sent: seq<Post<Item>>)
      modifies this
      ensures var run := UploadOutcome(old(rows), old(columnMapping), old(listFields), old(lookupValues), respond);
        && (run.Refused? ==>
              logs == old(logs) + [run.warning] && sent == []
              && progress == old(progress) && isUploading == old(isUploading))
        && (run.Completed? ==> logs == run.log && sent == run.posts && progress == 100 && !isUploading)
      ensures fileColumns == old(fileColumns) && rows == old(rows) && listFields == old(listFields)
      ensures lookupValues == old(lookupValues) && columnMapping == old(columnMapping)
      ensures mismatchSummary == old(mismatchSummary)
    {
      var run, batches := UploadRows(rows, columnMapping, listFields, lookupValues, respond);
      match run {
        case Refused(w) =>
          logs := logs + [w];
          sent := [];
        case Completed(log, posts, trace) =>
          isUploading := true;
          logs := [];
          progress := 0;
          ProgressTraceFacts(|rows|);
          logs := log;
          progress := trace[|trace| - 1];
          sent := posts;
          isUploading := false;
      }
    }
  }
}
