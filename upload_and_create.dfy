/** The direct upload component (`UploadAndCreate`): every record of a JSON
    file, or of every sheet of a workbook, is posted as it is, one record at
    a time, with up to three attempts per record. */
module UploadAndCreate {
  import opened Wrappers
  import opened Seqs
  import opened JsText
  import opened Records
  import opened Logs
  import opened Batching
  import opened Retry

  /** What `createItems(records)` does: the lines it appends, the create
      calls it makes, and the progress values it sets. */
  function CreateLog(respond: Oracle, n: nat): seq<LogEntry>
  {
    RunLog(respond, n) + [UploadComplete]
  }

  /** `createItems`: records strictly in input order, each through the
      retry loop, `completed` advanced and the progress recomputed after
      each, and the completion line at the end. */
  method CreateItems(records: seq<Row>, respond: Oracle)
    returns (log: seq<LogEntry>, posts: seq<Post<Row>>, completed: nat, trace: seq<nat>)
    ensures log == CreateLog(respond, |records|)
    ensures posts == RunPosts(respond, records)
    ensures completed == |records|
    ensures trace == ProgressTrace(|records|)
  {
    log, posts, trace := [], [], [];
    completed := 0;
    while completed < |records|
      invariant completed <= |records|
      invariant log == RunLog(respond, completed)
      invariant posts == RunPosts(respond, records[..completed])
      invariant trace == ProgressTrace(|records|)[..completed]
    {
      var record := records[completed];
      var success, recordLog, recordPosts := PostWithRetry(respond, completed, record);
      assert records[..completed + 1][..completed] == records[..completed];
      log := log + recordLog;
      posts := posts + recordPosts;
      completed := completed + 1;
      trace := trace + [Percent(completed, |records|)];
      assert ProgressTrace(|records|)[..completed]
        == ProgressTrace(|records|)[..completed - 1] + [Percent(completed, |records|)];
    }
    assert records[..completed] == records;
    assert ProgressTrace(|records|)[..completed] == ProgressTrace(|records|);
    log := log + [UploadComplete];
  }

  /** Every record ends with exactly one outcome line, created when one of
      its three attempts was answered ok and the final failure line when
      none was, and the completion line comes once, last. */
  lemma CreateLogSpec(respond: Oracle, n: nat, r: nat)
    requires r < n
    ensures multiset(CreateLog(respond, n))[Created(r)] == (if Succeeds(respond, r) then 1 else 0)
    ensures multiset(CreateLog(respond, n))[GaveUp(r)] == (if Succeeds(respond, r) then 0 else 1)
    ensures multiset(CreateLog(respond, n))[UploadComplete] == 1
    ensures CreateLog(respond, n)[|CreateLog(respond, n)| - 1] == UploadComplete
  {
    var log := RunLog(respond, n);
    RunLogOutcomes(respond, n, r);
    MultisetAppend(log, [UploadComplete], Created(r));
    MultisetAppend(log, [UploadComplete], GaveUp(r));
    RunLogLines(respond, n);
    assert UploadComplete !in log;
    MultisetAppend(log, [UploadComplete], UploadComplete);
  }

  /** The record lines appear record by record: every line of the run up to
      record `r`'s end belongs to a record up to `r`. */
  lemma CreateLogInOrder(respond: Oracle, n: nat, r: nat)
    requires r < n
    ensures |RunLog(respond, r + 1)| <= |RunLog(respond, n)|
    ensures RunLog(respond, r + 1) == RunLog(respond, n)[..|RunLog(respond, r + 1)|]
    ensures forall e :: e in RunLog(respond, r + 1) ==>
      (e.AttemptFailed? || e.Created? || e.GaveUp?) && e.record <= r
  {
    RunLogPrefix(respond, r + 1, n);
    RunLogLines(respond, r + 1);
  }

  lemma {:induction false} RunLogPrefix(respond: Oracle, m: nat, n: nat)
    requires m <= n
    ensures |RunLog(respond, m)| <= |RunLog(respond, n)|
    ensures RunLog(respond, m) == RunLog(respond, n)[..|RunLog(respond, m)|]
    decreases n - m
  {
    if m < n {
      RunLogPrefix(respond, m, n - 1);
      assert RunLog(respond, n) == RunLog(respond, n - 1) + RecordLog(respond, n - 1);
    }
  }

  /** A decoded workbook: its sheet names in order and each named sheet's
      rows. */
  datatype Workbook = Workbook(sheetNames: seq<string>, sheets: map<string, seq<Row>>)

  /** `sheet_to_json(workbook.Sheets[name])`, which is empty for a name
      without a sheet. */
  function SheetRows(wb: Workbook, name: string): seq<Row>
  {
    if name in wb.sheets then wb.sheets[name] else []
  }

  /** The rows of every sheet, in sheet-name order. */
  function SheetParts(wb: Workbook): (parts: seq<seq<Row>>)
    ensures |parts| == |wb.sheetNames|
    ensures forall i :: 0 <= i < |parts| ==> parts[i] == SheetRows(wb, wb.sheetNames[i])
  {
    seq(|wb.sheetNames|, i requires 0 <= i < |wb.sheetNames| => SheetRows(wb, wb.sheetNames[i]))
  }

  /** `workbook.SheetNames.forEach(name => allData.push(...rows))`. */
  method CollectSheets(wb: Workbook) returns (allData: seq<Row>)
    ensures allData == Flatten(SheetParts(wb))
  {
    ghost var parts := SheetParts(wb);
    allData := [];
    for i := 0 to |wb.sheetNames|
      invariant allData == Flatten(parts[..i])
    {
      assert parts[..i + 1][..i] == parts[..i];
      allData := allData + SheetRows(wb, wb.sheetNames[i]);
    }
    assert parts[..|wb.sheetNames|] == parts;
  }

  /** The collected rows are the sheets' rows concatenated in sheet-name
      order: sheet `i`'s rows sit right after those of the sheets before it,
      and the count is the sum of the sheets' row counts. */
  lemma CollectSheetsSpec(wb: Workbook, i: nat)
    requires i < |wb.sheetNames|
    ensures |Flatten(SheetParts(wb))| == TotalLength(SheetParts(wb))
    ensures var at := |Flatten(SheetParts(wb)[..i])|;
      && at + |SheetRows(wb, wb.sheetNames[i])| <= |Flatten(SheetParts(wb))|
      && Flatten(SheetParts(wb))[at..at + |SheetRows(wb, wb.sheetNames[i])|] == SheetRows(wb, wb.sheetNames[i])
  {
    FlattenLength(SheetParts(wb));
    FlattenSlot(SheetParts(wb), i);
  }

  /** The component's state slots. */
  class State {
    var progress: nat
    var totalItems: nat
    var statusLog: seq<LogEntry>
    var uploading: bool

    constructor()
      ensures progress == 0 && totalItems == 0 && statusLog == [] && !uploading
    {
      progress := 0;
      totalItems := 0;
      statusLog := [];
      uploading := false;
    }

    /** `resetState`. */
    method ResetState()
      modifies this
      ensures progress == 0 && totalItems == 0 && statusLog == []
      ensures uploading == old(uploading)
    {
      progress := 0;
      totalItems := 0;
      statusLog := [];
    }

    /** Runs `createItems` over `records` after `setTotalItems`: the log
        gains the run's lines, progress ends at the last value set (100
        with records, unchanged without), and the calls are returned. */
    method Upload(records: seq<Row>, respond: Oracle) returns (sent: seq<Post<Row>>)
      modifies this
      ensures totalItems == |records|
      ensures statusLog == old(statusLog) + CreateLog(respond, |records|)
      ensures sent == RunPosts(respond, records)
      ensures progress == if records == [] then old(progress) else 100
      ensures uploading == old(uploading)
    {
      totalItems := |records|;
      var log, posts, completed, trace := CreateItems(records, respond);
      statusLog := statusLog + log;
      if trace != [] {
        ProgressTraceFacts(|records|);
        progress := trace[|trace| - 1];
      }
      sent := posts;
    }

    /** `handleFileUpload` for a chosen file named `name`: `parsed` is what
        `JSON.parse` makes of its text (`None` when it throws), `workbook`
        what `XLSX.read` makes of its bytes (`None` when it throws). The
        kind is decided by where `.json`, `.xlsx` or `.xls` occurs in the
        name; the state is reset first, progress ends at 100 after a run
        over at least one record and at 0 otherwise, and the upload flag is
        off at the end. */
    method HandleFileUpload(name: string, parsed: Option<seq<Row>>, workbook: Option<Workbook>, respond: Oracle)
      returns (sent: seq<Post<Row>>)
      modifies this
      ensures !uploading
      ensures Contains(name, ".json") ==>
        if parsed.Some? then
          && totalItems == |parsed.value| && statusLog == CreateLog(respond, |parsed.value|)
          && sent == RunPosts(respond, parsed.value)
        else
          totalItems == 0 && statusLog == [InvalidJson] && sent == []
      ensures !Contains(name, ".json") && (Contains(name, ".xlsx") || Contains(name, ".xls")) ==>
        if workbook.Some? then
          var all := Flatten(SheetParts(workbook.value));
          && totalItems == |all| && statusLog == CreateLog(respond, |all|)
          && sent == RunPosts(respond, all)
        else
          totalItems == 0 && statusLog == [ReadFailed] && sent == []
      ensures !Contains(name, ".json") && !Contains(name, ".xlsx") && !Contains(name, ".xls") ==>
        totalItems == 0 && progress == 0 && statusLog == [UnsupportedFile] && sent == []
      ensures Contains(name, ".json") ==>
        progress == (if parsed.Some? && parsed.value != [] then 100 else 0)
      ensures !Contains(name, ".json") && (Contains(name, ".xlsx") || Contains(name, ".xls")) ==>
        progress == (if workbook.Some? && Flatten(SheetParts(workbook.value)) != [] then 100 else 0)
    {
      ResetState();
      uploading := true;
      sent := [];
      if Contains(name, ".json") {
        match parsed {
          case Some(data) => sent := Upload(data, respond);
          case None => statusLog := statusLog + [InvalidJson];
        }
      } else if Contains(name, ".xlsx") || Contains(name, ".xls") {
        match workbook {
          case Some(wb) =>
            var allData := CollectSheets(wb);
            sent := Upload(allData, respond);
          case None => statusLog := statusLog + [ReadFailed];
        }
      } else {
        statusLog := statusLog + [UnsupportedFile];
      }
      uploading := false;
    }
  }
}
