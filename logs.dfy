/** What the components append to their status logs and send to the list. */
module Logs {

  /** One status-log line, reduced to what it reports; `record` is the 0-based
      position of the record in the run and `rowIndex` the 1-based row number
      the message prints. */
  datatype LogEntry =
    | NoData
    | NotMapped
    | RowUploaded(rowIndex: nat)
    | RowFailed(rowIndex: nat)
    | Created(record: nat)
    | AttemptFailed(record: nat, attempt: nat)
    | GaveUp(record: nat)
    | UploadComplete
    | UnsupportedFile
    | NotAnArray
    | InvalidJson
    | ReadFailed
    | FetchFailed
  {
    /** The `success` flag stored beside the message. */
    predicate Success()
    {
      RowUploaded? || Created? || UploadComplete?
    }
  }

  /** One item-creation call: the record it is for, its attempt number
      (from 1) and the body it posts. */
  datatype Post<B> = Post(record: nat, attempt: nat, body: B)
}
