/** The simple bulk upload component (`AdvancedBulkUpload`): it seeds an
    identity column mapping from the file's first row, copies each row's
    mapped cells into an item, and posts those items in batches with up to
    three attempts per item. */
module AdvancedBulkUpload {
  import opened Wrappers
  import opened Seqs
  import opened JsText
  import opened Records
  import opened Logs
  import opened Batching
  import opened Retry

  /** `handleBulkUpload(batchSize = 50)`; the button calls it without an
      argument. */
  const DefaultBatchSize: nat := 50

  /** `Object.keys(row).map(col => ({ fileColumn: col, listField: col }))`. */
  function IdentityMapping(columns: seq<string>): (m: seq<ColumnMapping>)
    ensures |m| == |columns|
    ensures forall i :: 0 <= i < |columns| ==> m[i].fileColumn == columns[i] && m[i].listField == columns[i]
  {
    seq(|columns|, i requires 0 <= i < |columns| => ColumnMapping(columns[i], columns[i]))
  }

  /** The item object: each key holds `row[map.fileColumn]`, `None` standing
      for `undefined`. */
  type Item = map<string, Option<Cell>>

  /** The writes `columnMapping.forEach(map => item[map.listField] = ...)`
      makes, in mapping order. */
  function ItemWrites(row: Row, mapping: seq<ColumnMapping>): (ws: seq<Option<(string, Option<Cell>)>>)
    ensures |ws| == |mapping|
  {
    seq(|mapping|, j requires 0 <= j < |mapping| => Some((mapping[j].listField, Get(row, mapping[j].fileColumn))))
  }

  /** Write `j` puts entry `j`'s cell under entry `j`'s list field. */
  lemma ItemWritesAt(row: Row, mapping: seq<ColumnMapping>)
    ensures forall j :: 0 <= j < |mapping| ==>
      ItemWrites(row, mapping)[j] == Some((mapping[j].listField, Get(row, mapping[j].fileColumn)))
  {
  }

  function ItemOf(row: Row, mapping: seq<ColumnMapping>): Item
  {
    Assemble(ItemWrites(row, mapping))
  }

  /** The `forEach` that fills `item`. */
  method BuildItem(row: Row, mapping: seq<ColumnMapping>) returns (item: Item)
    ensures item == ItemOf(row, mapping)
  {
    ghost var ws := ItemWrites(row, mapping);
    item := map[];
    for j := 0 to |mapping|
      invariant item == Assemble(ws[..j])
    {
      assert ws[..j + 1][..j] == ws[..j];
      item := item[mapping[j].listField := Get(row, mapping[j].fileColumn)];
    }
    assert ws[..|mapping|] == ws;
  }

  /** The item has a key for every mapped list field and no other. */
  lemma ItemKeys(row: Row, mapping: seq<ColumnMapping>, k: string)
    ensures k in ItemOf(row, mapping) <==> exists i :: 0 <= i < |mapping| && mapping[i].listField == k
  {
    var ws := ItemWrites(row, mapping);
    ItemWritesAt(row, mapping);
    AssembleKeys(ws, k);
    if exists i :: 0 <= i < |mapping| && mapping[i].listField == k {
      var i :| 0 <= i < |mapping| && mapping[i].listField == k;
      assert ws[i].Some? && ws[i].value.0 == k;
    }
  }

  /** Each key holds the cell of the last entry that maps onto it, so a
      later entry overwrites an earlier one. */
  lemma ItemLastWins(row: Row, mapping: seq<ColumnMapping>, j: nat)
    requires j < |mapping|
    requires forall i :: j < i < |mapping| ==> mapping[i].listField != mapping[j].listField
    ensures mapping[j].listField in ItemOf(row, mapping)
    ensures ItemOf(row, mapping)[mapping[j].listField] == Get(row, mapping[j].fileColumn)
  {
    var ws := ItemWrites(row, mapping);
    ItemWritesAt(row, mapping);
    forall i | j < i < |ws| && ws[i].Some?
      ensures ws[i].value.0 != ws[j].value.0
    {
    }
    AssembleLastWins(ws, j);
  }

  /** With the identity mapping of a row whose keys are distinct (as
      `Object.keys` gives them), the item is the row itself: the same keys,
      each with its own cell. */
  lemma IdentityItemCopiesRow(row: Row, k: string)
    requires NoDuplicates(Keys(row))
    ensures k in ItemOf(row, IdentityMapping(Keys(row))) <==> k in Keys(row)
    ensures k in Keys(row) ==> ItemOf(row, IdentityMapping(Keys(row)))[k] == Get(row, k)
  {
    var cols := Keys(row);
    var m := IdentityMapping(cols);
    ItemKeys(row, m, k);
    if k in cols {
      var j :| 0 <= j < |cols| && cols[j] == k;
      ItemLastWins(row, m, j);
    }
  }

  /** The items of all rows, one per row. */
  function Items(rows: seq<Row>, mapping: seq<ColumnMapping>): (items: seq<Item>)
    ensures |items| == |rows|
  {
    seq(|rows|, k requires 0 <= k < |rows| => ItemOf(rows[k], mapping))
  }

  /** Item `k` is the item of row `k`. */
  lemma ItemsAt(rows: seq<Row>, mapping: seq<ColumnMapping>)
    ensures forall k :: 0 <= k < |rows| ==> Items(rows, mapping)[k] == ItemOf(rows[k], mapping)
  {
  }

  /** What `handleBulkUpload` does: refuse when there are no rows, or run
      to the end with its log lines, its create calls and the progress
      values it set. */
  datatype BulkRun =
    | NoRows
    | Ran(log: seq<LogEntry>, posts: seq<Post<Item>>, progress: seq<nat>)

  function BulkOutcome(rows: seq<Row>, mapping: seq<ColumnMapping>, respond: Oracle): BulkRun
  {
    if |rows| == 0 then NoRows
    else Ran(RunLog(respond, |rows|) + [UploadComplete], RunPosts(respond, Items(rows, mapping)), ProgressTrace(|rows|))
  }

  /** Every row's item ends with exactly one outcome line: created when one
      of its three attempts was answered ok, the final failure line when none
      was. */
  lemma BulkOutcomes(rows: seq<Row>, mapping: seq<ColumnMapping>, respond: Oracle, r: nat)
    requires r < |rows|
    ensures var run := BulkOutcome(rows, mapping, respond);
      && multiset(run.log)[Created(r)] == (if Succeeds(respond, r) then 1 else 0)
      && multiset(run.log)[GaveUp(r)] == (if Succeeds(respond, r) then 0 else 1)
  {
    var log := RunLog(respond, |rows|);
    RunLogOutcomes(respond, |rows|, r);
    MultisetAppend(log, [UploadComplete], Created(r));
    MultisetAppend(log, [UploadComplete], GaveUp(r));
  }

  /** Every create call posts its own row's item, as attempt 1, 2 or 3. */
  lemma BulkPosts(rows: seq<Row>, mapping: seq<ColumnMapping>, respond: Oracle)
    requires |rows| > 0
    ensures forall p :: p in BulkOutcome(rows, mapping, respond).posts ==>
      p.record < |rows| && p.body == ItemOf(rows[p.record], mapping) && 1 <= p.attempt <= MaxAttempts
  {
    RunPostsFacts(respond, Items(rows, mapping));
    ItemsAt(rows, mapping);
  }

  /** Each row gets exactly the calls for attempts 1 up to its number of
      attempts, each once and carrying that row's item. */
  lemma BulkPostsCount(rows: seq<Row>, mapping: seq<ColumnMapping>, respond: Oracle, r: nat, a: nat)
    requires r < |rows|
    ensures multiset(BulkOutcome(rows, mapping, respond).posts)[Post(r, a, ItemOf(rows[r], mapping))] ==
      if 1 <= a <= Attempts(respond, r) then 1 else 0
  {
    var items := Items(rows, mapping);
    ItemsAt(rows, mapping);
    assert items[r] == ItemOf(rows[r], mapping);
    RunPostsCount(respond, items, r, a);
  }

  /** The completion line is logged once, after every record's lines, and
      progress never decreases and ends at 100. */
  lemma BulkCompletion(rows: seq<Row>, mapping: seq<ColumnMapping>, respond: Oracle)
    requires |rows| > 0
    ensures var run := BulkOutcome(rows, mapping, respond);
      && multiset(run.log)[UploadComplete] == 1 && run.log[|run.log| - 1] == UploadComplete
      && |run.progress| == |rows| && run.progress[|rows| - 1] == 100
      && (forall i, j :: 0 <= i <= j < |rows| ==> run.progress[i] <= run.progress[j])
  {
    var log := RunLog(respond, |rows|);
    RunLogLines(respond, |rows|);
    assert UploadComplete !in log;
    MultisetAppend(log, [UploadComplete], UploadComplete);
    ProgressTraceFacts(|rows|);
  }

  /** The log, the create calls and the progress values of a run over
      `total` rows with the given items, after its first `n` rows. */
  ghost predicate BulkAfter(total: nat, items: seq<Item>, respond: Oracle, n: nat,
                            log: seq<LogEntry>, posts: seq<Post<Item>>, trace: seq<nat>)
  {
    && n <= total == |items|
    && log == RunLog(respond, n)
    && posts == RunPosts(respond, items[..n])
    && trace == ProgressTrace(total)[..n]
  }

  /** One row of a batch: its item built and posted with retries,
      `completed` advanced and the progress recomputed. */
  method BulkRow(rows: seq<Row>, k: nat, mapping: seq<ColumnMapping>, respond: Oracle, ghost items: seq<Item>,
                 log0: seq<LogEntry>, posts0: seq<Post<Item>>, trace0: seq<nat>)
    returns (log: seq<LogEntry>, posts: seq<Post<Item>>, trace: seq<nat>)
    requires k < |rows|
    requires BulkAfter(|rows|, items, respond, k, log0, posts0, trace0)
    requires items[k] == ItemOf(rows[k], mapping)
    ensures BulkAfter(|rows|, items, respond, k + 1, log, posts, trace)
  {
    var item := BuildItem(rows[k], mapping);
    var success, recordLog, recordPosts := PostWithRetry(respond, k, item);
    assert items[..k + 1][..k] == items[..k];
    log := log0 + recordLog;
    posts := posts0 + recordPosts;
    ProgressTraceStep(|rows|, k);
    trace := trace0 + [Percent(k + 1, |rows|)];
  }

  /** One batch, `dataRows.slice(start, end)`: every row of it through
      `BulkRow`, taking the run from its first `start` rows to its first
      `end`. */
  method BulkBatch(rows: seq<Row>, start: nat, end: nat, mapping: seq<ColumnMapping>, respond: Oracle,
                   ghost items: seq<Item>, log0: seq<LogEntry>, posts0: seq<Post<Item>>, trace0: seq<nat>)
    returns (log: seq<LogEntry>, posts: seq<Post<Item>>, trace: seq<nat>)
    requires start <= end <= |rows|
    requires BulkAfter(|rows|, items, respond, start, log0, posts0, trace0)
    requires forall k {:trigger ItemOf(rows[k], mapping)} :: start <= k < end ==> items[k] == ItemOf(rows[k], mapping)
    ensures BulkAfter(|rows|, items, respond, end, log, posts, trace)
  {
    log, posts, trace := log0, posts0, trace0;
    var completed := start;
    while completed < end
      invariant start <= completed <= end
      invariant BulkAfter(|rows|, items, respond, completed, log, posts, trace)
    {
      log, posts, trace := BulkRow(rows, completed, mapping, respond, items, log, posts, trace);
      completed := completed + 1;
    }
  }

  /** `handleBulkUpload(batchSize)`: the guard, then the batch loop advancing
      `i` by `batchSize`, then the completion line. The ghost `batches` are
      the slices in the order the loop took them. */
  method BulkUpload(rows: seq<Row>, mapping: seq<ColumnMapping>, batchSize: nat, respond: Oracle)
    returns (run: BulkRun, ghost batches: seq<seq<Row>>)
    requires batchSize > 0
    ensures run == BulkOutcome(rows, mapping, respond)
    ensures run.NoRows? <==> |rows| == 0
    ensures run.Ran? ==> batches == Slices(rows, batchSize)
  {
    batches := [];
    if |rows| == 0 {
      return NoRows, batches;
    }
    ghost var items := Items(rows, mapping);
    ItemsAt(rows, mapping);
    var total := |rows|;
    var log: seq<LogEntry> := [];
    var posts: seq<Post<Item>> := [];
    var trace: seq<nat> := [];
    var completed := 0;
    var i := 0;
    while i < total
      invariant completed == (if i < total then i else total)
      invariant BulkAfter(total, items, respond, completed, log, posts, trace)
      invariant batches + Slices(rows[completed..], batchSize) == Slices(rows, batchSize)
      decreases total - i
    {
      var end := if i + batchSize < total then i + batchSize else total;
      SlicesAdvance(rows, batchSize, batches, i, end);
      log, posts, trace := BulkBatch(rows, i, end, mapping, respond, items, log, posts, trace);
      completed := end;
      batches := batches + [rows[i..end]];
      i := i + batchSize;
    }
    assert rows[completed..] == [];
    assert items[..completed] == items;
    assert ProgressTrace(total)[..completed] == ProgressTrace(total);
    run := Ran(log + [UploadComplete], posts, trace);
  }

  /** The component's state slots (the sheet list and the drag state are
      not modelled). */
  class Session {
    var uploading: bool
    var progress: nat
    var totalItems: nat
    var statusLog: seq<LogEntry>
    var dataRows: seq<Row>
    var fileColumns: seq<string>
    var columnMapping: seq<ColumnMapping>

    constructor()
      ensures !uploading && progress == 0 && totalItems == 0 && statusLog == []
      ensures dataRows == [] && fileColumns == [] && columnMapping == []
    {
      uploading := false;
      progress := 0;
      totalItems := 0;
      statusLog := [];
      dataRows := [];
      fileColumns := [];
      columnMapping := [];
    }

    /** `resetState`. */
    method ResetState()
      modifies this
      ensures !uploading && progress == 0 && totalItems == 0 && statusLog == []
      ensures dataRows == [] && fileColumns == [] && columnMapping == []
    {
      uploading := false;
      progress := 0;
      totalItems := 0;
      statusLog := [];
      dataRows := [];
      fileColumns := [];
      columnMapping := [];
    }

    /** Loading decoded rows, as the JSON branch and `loadSheet` both do:
        the rows, the first row's keys as the columns, the identity mapping
        over them and the row count. Starts from the reset state, where an
        empty file leaves the columns and the mapping empty. */
    method LoadRows(rows: seq<Row>)
      modifies this
      requires fileColumns == [] && columnMapping == []
      ensures dataRows == rows && totalItems == |rows|
      ensures fileColumns == (if rows == [] then [] else Keys(rows[0]))
      ensures columnMapping == IdentityMapping(fileColumns)
      ensures uploading == old(uploading) && progress == old(progress) && statusLog == old(statusLog)
    {
      dataRows := rows;
      if rows != [] {
        fileColumns := Keys(rows[0]);
        columnMapping := IdentityMapping(fileColumns);
      }
      totalItems := |rows|;
    }

    /** `handleFileUpload` for a chosen file named `name`: `parsed` is what
        `JSON.parse` makes of its text (`None` when it throws) and `sheet`
        the first sheet's rows when it is read as a workbook. The kind is
        decided by where `.json`, `.xlsx` or `.xls` occurs in the name. */
    method HandleFileUpload(name: string, parsed: Option<seq<Row>>, sheet: seq<Row>)
      modifies this
      ensures !uploading && progress == 0
      ensures Contains(name, ".json") && parsed.Some? ==>
        && dataRows == parsed.value && totalItems == |parsed.value| && statusLog == []
        && fileColumns == (if parsed.value == [] then [] else Keys(parsed.value[0]))
        && columnMapping == IdentityMapping(fileColumns)
      ensures Contains(name, ".json") && parsed.None? ==>
        dataRows == [] && totalItems == 0 && fileColumns == [] && columnMapping == [] && statusLog == [ReadFailed]
      ensures !Contains(name, ".json") && (Contains(name, ".xlsx") || Contains(name, ".xls")) ==>
        && dataRows == sheet && totalItems == |sheet| && statusLog == []
        && fileColumns == (if sheet == [] then [] else Keys(sheet[0]))
        && columnMapping == IdentityMapping(fileColumns)
      ensures !Contains(name, ".json") && !Contains(name, ".xlsx") && !Contains(name, ".xls") ==>
        dataRows == [] && totalItems == 0 && fileColumns == [] && columnMapping == [] && statusLog == [UnsupportedFile]
    {
      ResetState();
      uploading := true;
      if Contains(name, ".json") {
        match parsed {
          case Some(rows) => LoadRows(rows);
          case None => statusLog := statusLog + [ReadFailed];
        }
      } else if Contains(name, ".xlsx") || Contains(name, ".xls") {
        LoadRows(sheet);
      } else {
        statusLog := statusLog + [UnsupportedFile];
      }
      uploading := false;
    }

    /** `handleMappingChange(index, listField)`: entry `index` now points at
        `listField`; an index outside the mapping throws before the state is
        set, which leaves the mapping as it was. */
    method HandleMappingChange(index: int, listField: string) returns (applied: bool)
      modifies this
      ensures applied <==> 0 <= index < |old(columnMapping)|
      ensures columnMapping == if applied then WithListField(old(columnMapping), index, listField) else old(columnMapping)
      ensures uploading == old(uploading) && progress == old(progress) && totalItems == old(totalItems)
      ensures statusLog == old(statusLog) && dataRows == old(dataRows) && fileColumns == old(fileColumns)
    {
      if 0 <= index < |columnMapping| {
        columnMapping := WithListField(columnMapping, index, listField);
        return true;
      }
      return false;
    }

    /** The upload button: `handleBulkUpload()` with the default batch
        size. Without rows it appends the error line and posts nothing;
        otherwise it appends the run's lines to the log, leaves progress at
        100 and the upload flag off, and returns the create calls made. */
    method HandleBulkUpload(respond: Oracle) returns (sent: seq<Post<Item>>)
      modifies this
      ensures var run := BulkOutcome(old(dataRows), old(columnMapping), respond);
        && (run.NoRows? ==> statusLog == old(statusLog) + [NoData] && sent == []
                            && progress == old(progress) && uploading == old(uploading))
        && (run.Ran? ==> statusLog == old(statusLog) + run.log && sent == run.posts && progress == 100 && !uploading)
      ensures dataRows == old(dataRows) && fileColumns == old(fileColumns)
      ensures columnMapping == old(columnMapping) && totalItems == old(totalItems)
    {
      var run, batches := BulkUpload(dataRows, columnMapping, DefaultBatchSize, respond);
      match run {
        case NoRows =>
          statusLog := statusLog + [NoData];
          sent := [];
        case Ran(log, posts, trace) =>
          uploading := true;
          ProgressTraceFacts(|dataRows|);
          statusLog := statusLog + log;
          progress := trace[|trace| - 1];
          sent := posts;
          uploading := false;
      }
    }
  }
}
