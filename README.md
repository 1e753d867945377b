# Bulk upload of spreadsheet and JSON rows into a SharePoint list

The repository is a SharePoint web part with three upload components. Each one
reads the rows of a spreadsheet or JSON file and creates one list item per
row. This project models the logic inside them, lifted out of React:

- **`AdvanceBulkUpload`** (column-aware upload):
  - normalises names and auto-maps file columns onto list fields;
  - lets one mapping entry be edited;
  - validates lookup values against the cached lookup lists and summarises the mismatches;
  - builds a typed payload per row (`createItemPayload`);
  - posts rows in batches of ten, one attempt per row, with a progress percentage.
- **`AdvancedBulkUpload`** (simple bulk upload):
  - seeds an identity column mapping from the first row;
  - copies each row's mapped cells into an item;
  - posts items in batches of `batchSize` (default 50), up to three attempts per item.
- **`UploadAndCreate`** (direct upload):
  - posts every record of a JSON file, or of every sheet of a workbook, as it is;
  - goes one record at a time, up to three attempts per record.

The modules follow that structure.

| module | file | holds |
|---|---|---|
| `Wrappers` | `wrappers.dfy` | `Option` |
| `Seqs` | `seqs.dfy` | first match, concatenation, de-duplication, prefixes, objects built key by key, collecting optional results |
| `JsText` | `js_text.dfy` | the JavaScript `\s` class, `toLowerCase`, `trim`, `split(",")`, `endsWith`, `indexOf` |
| `Records` | `records.dfy` | cells, rows, `String(value)`, truthiness, column mappings |
| `Schema` | `schema.dfy` | list fields, lookup entries, `find` by internal name and by title |
| `Logs` | `logs.dfy` | status-log lines and create calls |
| `Batching` | `batching.dfy` | batch slicing and the progress percentage |
| `Retry` | `retry.dfy` | the three-attempt create loop |
| `ColumnMapper` | `column_mapper.dfy` | `normalizeName` and auto-mapping |
| `Payload` | `payload.dfy` | `createItemPayload` |
| `Mismatch` | `mismatch.dfy` | the lookup-validation effect |
| `AdvanceBulkUpload` | `advance_bulk_upload.dfy` | the upload driver and the component state |
| `AdvancedBulkUpload` | `advanced_bulk_upload.dfy` | the bulk driver and the component state |
| `UploadAndCreate` | `upload_and_create.dfy` | `createItems`, sheet collection and the component state |

## How the model works

- **State.** Each component's state slots are the fields of a class (`Session` or `State`).
  - A handler is a method that changes those fields.
  - An effect is a method called explicitly.
- **List responses.** The answers of the list to create calls are an oracle `respond(r, a)`.
  - `r` is the record's position in the run, counted from 0.
  - `a` is the attempt number, counted from 1.
  - A thrown error counts as a response that is not ok.
  - Each driver returns the log lines it appends, the create calls it makes and the progress values it sets.
  - Each driver is proved equal to a specification function of its inputs, and the listed properties are lemmas about that function.
- **Rows.** A row is its key/cell entries in `Object.keys` order.
  - A cell is a string, an integer, a boolean or `null`.
  - An absent key reads as `undefined` (`None`).
- **Follow the code.** Where the code does less than a reader of the components might expect, the model follows the code:
  - the active MultiChoice branch keeps empty pieces, for example `"a,,b"` gives `["a", "", "b"]`. The commented-out handler drops them;
  - the single-valued lookup compares the whole `String(value)` without trimming it;
  - `AdvancedBulkUpload` has no check for unmapped columns;
  - the lookup-validation effect runs whenever rows, mapping and fields are all present. It does not wait for the lookup lists, so `lookupValues` is whatever has been fetched so far.

Source paths in the table are relative to the repository root.

## Model

| member | source | states |
|---|---|---|
| ColumnMapper.NormalizeNameSpec | src/webparts/upload/components/bulkuploadwithcolumns/AdvanceBulkUpload.tsx:54 | A normalised name has no whitespace and no upper-case letter. A string is its own normal form exactly when it has neither. Normalising twice is the same as normalising once. |
| JsText.RemoveSpacesNoOp | src/webparts/upload/components/bulkuploadwithcolumns/AdvanceBulkUpload.tsx:54 | `replace(/\s+/g, "")` leaves a string without whitespace unchanged. |
| ColumnMapper.MatchForSpec | src/webparts/upload/components/bulkuploadwithcolumns/AdvanceBulkUpload.tsx:136-146 | A column is mapped to the internal name of the first list field whose normalised title or internal name equals the normalised column. With no such field it gets `""`. |
| ColumnMapper.AutoMapSpec | src/webparts/upload/components/bulkuploadwithcolumns/AdvanceBulkUpload.tsx:133-150 | Auto-mapping returns early (nothing) exactly when there are no columns or no fields. Otherwise it gives one entry per file column, in order, with the column kept, and each entry's field is the first match or `""`. |
| Records.WithListField | src/webparts/upload/components/bulkuploadwithcolumns/AdvanceBulkUpload.tsx:194-196 | Editing entry `idx` sets that entry's list field to the new value. The length, every file column and every other entry stay the same. |
| AdvanceBulkUpload.Session.HandleMappingChange | src/webparts/upload/components/bulkuploadwithcolumns/AdvanceBulkUpload.tsx:192-198 | An index inside the mapping applies the edit above and touches no other state. For an index outside it, the updater's `copy[idx].listField` throws a `TypeError`; the result `false` marks that error, and the state is left as it was. |
| Records.Get | src/webparts/upload/components/bulkuploadwithcolumns/AdvanceBulkUpload.tsx:329 | `row[key]` is undefined exactly when no entry has the key. Otherwise it is the value of an entry with that key. |
| Records.Keys | src/webparts/upload/components/bulkupload/AdvancedBulkUpload.tsx:70 | `Object.keys(row)` lists the row's keys in entry order, one per entry. |
| Schema.FieldNamed | src/webparts/upload/components/bulkuploadwithcolumns/AdvanceBulkUpload.tsx:326 | The field found has the wanted internal name. Nothing is found exactly when no field has that name. |
| Schema.FindByTitle | src/webparts/upload/components/bulkuploadwithcolumns/AdvanceBulkUpload.tsx:342 | The entry found is one of the lookup entries, and its title equals the value ignoring case. Nothing is found exactly when no entry's title matches. |
| Schema.FindByTitleFirst | src/webparts/upload/components/bulkuploadwithcolumns/AdvanceBulkUpload.tsx:342 | When several entries match, `find` returns the first one: an entry that matches, with no matching entry before it, is the one found. |
| Seqs.FindFirst | src/webparts/upload/components/bulkuploadwithcolumns/AdvanceBulkUpload.tsx:342 | `Array.prototype.find` returns the element at the first position that satisfies the predicate. |
| Payload.CellValue | src/webparts/upload/components/bulkuploadwithcolumns/AdvanceBulkUpload.tsx:329-330 | The value is never null. An undefined or null cell becomes `""`, and any other cell is kept as it is. |
| Payload.KindOf | src/webparts/upload/components/bulkuploadwithcolumns/AdvanceBulkUpload.tsx:333-369 | The type dispatch. Lookup/LookupMulti, Choice/Text and MultiChoice each have their own branch, and every other type passes the value through. |
| Payload.ResolveIds | src/webparts/upload/components/bulkuploadwithcolumns/AdvanceBulkUpload.tsx:341-345 | There are at most as many ids as tokens. |
| Payload.ResolveIdsSpec | src/webparts/upload/components/bulkuploadwithcolumns/AdvanceBulkUpload.tsx:341-345 | Every id belongs to a lookup entry. The list is empty exactly when no token resolves. |
| Payload.ResolveIdsSingle | src/webparts/upload/components/bulkuploadwithcolumns/AdvanceBulkUpload.tsx:341-345 | A single token gives the id of the entry `find` returns for it, or nothing when no title matches. |
| Payload.ResolveIdsAppend | src/webparts/upload/components/bulkuploadwithcolumns/AdvanceBulkUpload.tsx:341-345 | Resolution goes token by token: the ids of two runs of tokens are those of the first run followed by those of the second. With the single-token case, the ids are those of the resolving tokens, in token order. |
| Payload.Tokens | src/webparts/upload/components/bulkuploadwithcolumns/AdvanceBulkUpload.tsx:339-340 | There is one trimmed token per comma-separated piece, and always at least one. |
| Payload.CreateItemPayload | src/webparts/upload/components/bulkuploadwithcolumns/AdvanceBulkUpload.tsx:322-372 | The loop filling `item` produces exactly the payload of the row under the mapping. |
| Payload.PayloadSpec | src/webparts/upload/components/bulkuploadwithcolumns/AdvanceBulkUpload.tsx:323-371 | A key is in the payload exactly when some mapping entry writes it. It holds what the last entry writing it wrote. |
| Payload.EntryWriteKey | src/webparts/upload/components/bulkuploadwithcolumns/AdvanceBulkUpload.tsx:325-327 | An unmapped entry, or one whose field is not in the schema, writes nothing. Any other entry writes under the field's internal name, with `Id` appended for a lookup field. |
| Payload.UnmappedEntriesWriteNothing | src/webparts/upload/components/bulkuploadwithcolumns/AdvanceBulkUpload.tsx:325 | If every entry is unmapped, the payload is empty. |
| Payload.MultiLookupWrite | src/webparts/upload/components/bulkuploadwithcolumns/AdvanceBulkUpload.tsx:335-347 | A multi-valued lookup is written only for a string cell with at least one token that resolves. It then holds `ResolveIds` of the trimmed tokens: by `ResolveIdsSingle`, `ResolveIdsAppend` and `FindByTitleFirst`, that is the id of the first matching entry for each resolving token, in token order. |
| Payload.SingleLookupWrite | src/webparts/upload/components/bulkuploadwithcolumns/AdvanceBulkUpload.tsx:348-351 | A single-valued lookup is written exactly when the untrimmed `String(value)` matches some entry's title ignoring case. Its value is then the one-element list holding the id of the first matching entry, whichever later entries also match. |
| Payload.EmptyCacheWritesNoLookup | src/webparts/upload/components/bulkuploadwithcolumns/AdvanceBulkUpload.tsx:334 | A lookup field with no cached entries writes nothing. |
| Payload.ChoiceTextWrite | src/webparts/upload/components/bulkuploadwithcolumns/AdvanceBulkUpload.tsx:355-357 | A Choice or Text field is always written. It holds the cell when the cell is truthy and `""` otherwise. |
| Payload.MultiChoiceWrite | src/webparts/upload/components/bulkuploadwithcolumns/AdvanceBulkUpload.tsx:360-364 | A MultiChoice field is written exactly for a string cell with a non-whitespace character. Its results are the trimmed comma-separated pieces, one per piece, empty pieces included. |
| Payload.PassThroughWrite | src/webparts/upload/components/bulkuploadwithcolumns/AdvanceBulkUpload.tsx:367-369 | Every other field type gets the cell unchanged, with a missing or null cell written as `""`. |
| Payload.SplitExample | src/webparts/upload/components/bulkuploadwithcolumns/AdvanceBulkUpload.tsx:339 | `"A, b,C".split(",")` is `["A", " b", "C"]`. |
| Payload.TrimExample | src/webparts/upload/components/bulkuploadwithcolumns/AdvanceBulkUpload.tsx:340 | `" b".trim()` is `"b"`. |
| Payload.TokensExample | src/webparts/upload/components/bulkuploadwithcolumns/AdvanceBulkUpload.tsx:339-340 | The tokens of `"A, b,C"` are `["A", "b", "C"]`. |
| Payload.ResolveExample | src/webparts/upload/components/bulkuploadwithcolumns/AdvanceBulkUpload.tsx:341-345 | With entries A (id 1) and C (id 2), the tokens `A`, `b`, `C` resolve to `[1, 2]`, in token order; the unmatched `b` is dropped. |
| Payload.PiecesExample | src/webparts/upload/components/bulkuploadwithcolumns/AdvanceBulkUpload.tsx:362 | The tokens of `"a,,b"` are `["a", "", "b"]`. |
| Payload.MultiChoiceEntryExample | src/webparts/upload/components/bulkuploadwithcolumns/AdvanceBulkUpload.tsx:360-364 | A MultiChoice cell `"a,,b"` is written with results `["a", "", "b"]`. |
| Payload.MultiChoiceKeepsEmptyPieces | src/webparts/upload/components/bulkuploadwithcolumns/AdvanceBulkUpload.tsx:362 | The whole payload for a MultiChoice cell `"a,,b"` is `{results: ["a", "", "b"]}` under the field's name. The empty piece is kept, where the commented-out branch's `filter(v => v.length > 0)` would drop it. |
| JsText.TrimSpec | src/webparts/upload/components/bulkuploadwithcolumns/AdvanceBulkUpload.tsx:340 | `trim` returns a slice of its input. The parts cut off are whitespace, the result's own ends are not, and the result is empty exactly for all-whitespace input. |
| JsText.TrimStartSpec | src/webparts/upload/components/bulkuploadwithcolumns/AdvanceBulkUpload.tsx:340 | The leading cut of `trim` is a suffix of its input. The cut-off part is whitespace, and what remains is empty or starts with a non-whitespace character. |
| JsText.TrimEndSpec | src/webparts/upload/components/bulkuploadwithcolumns/AdvanceBulkUpload.tsx:340 | The trailing cut of `trim` is a prefix of its input. The cut-off part is whitespace, and what remains is empty or ends with a non-whitespace character. |
| JsText.SplitJoin | src/webparts/upload/components/bulkuploadwithcolumns/AdvanceBulkUpload.tsx:339 | The pieces of `split(",")` hold no comma, and joining them with commas gives the input back. |
| JsText.JoinSplit | src/webparts/upload/components/bulkuploadwithcolumns/AdvanceBulkUpload.tsx:339 | Splitting comma-free pieces joined with commas gives the pieces back. |
| Mismatch.ValidTitles | src/webparts/upload/components/bulkuploadwithcolumns/AdvanceBulkUpload.tsx:164 | There is one lower-cased title per lookup entry, in order. |
| Mismatch.ValidTitlesAgree | src/webparts/upload/components/bulkuploadwithcolumns/AdvanceBulkUpload.tsx:172 | `validTitles.includes(v.toLowerCase())` holds exactly when the payload's case-insensitive `find` resolves `v`. Validation and payload therefore agree on which values are unknown. |
| Mismatch.TruthyCell | src/webparts/upload/components/bulkuploadwithcolumns/AdvanceBulkUpload.tsx:166 | A row contributes its cell exactly when the cell is present and truthy. |
| Mismatch.ExcelValues | src/webparts/upload/components/bulkuploadwithcolumns/AdvanceBulkUpload.tsx:166 | Every collected value is truthy, and there are no more values than rows. |
| Mismatch.ExcelValuesMembers | src/webparts/upload/components/bulkuploadwithcolumns/AdvanceBulkUpload.tsx:166 | A cell is collected exactly when some row holds it truthy under that column. |
| Mismatch.ExcelValuesSingle | src/webparts/upload/components/bulkuploadwithcolumns/AdvanceBulkUpload.tsx:166 | One row contributes its cell when it is present and truthy, and nothing otherwise. |
| Mismatch.ExcelValuesAppend | src/webparts/upload/components/bulkuploadwithcolumns/AdvanceBulkUpload.tsx:166 | The filter goes row by row: the values of two runs of rows are those of the first followed by those of the second. So there is one value per truthy row, in row order, repeats kept. |
| Mismatch.Unmatched | src/webparts/upload/components/bulkuploadwithcolumns/AdvanceBulkUpload.tsx:171-173 | The unmatched tokens are exactly the tokens whose lower-cased form is no valid title. |
| Mismatch.UnmatchedSingle | src/webparts/upload/components/bulkuploadwithcolumns/AdvanceBulkUpload.tsx:171-173 | A single token is reported exactly when its lower-cased form is no valid title. |
| Mismatch.UnmatchedAppend | src/webparts/upload/components/bulkuploadwithcolumns/AdvanceBulkUpload.tsx:171-173 | The unmatched tokens of two runs of tokens are those of the first run followed by those of the second. So they keep token order and repeats. |
| Mismatch.ResolvedPlusUnmatched | src/webparts/upload/components/bulkuploadwithcolumns/AdvanceBulkUpload.tsx:171-173 | The ids the payload resolves plus the tokens validation reports number exactly the tokens. Each token is therefore counted by exactly one of the two. |
| Mismatch.MismatchesMembers | src/webparts/upload/components/bulkuploadwithcolumns/AdvanceBulkUpload.tsx:169-177 | A string is among a field's mismatches exactly when one of the collected values reports it. |
| Mismatch.ValueMismatchesInvalid | src/webparts/upload/components/bulkuploadwithcolumns/AdvanceBulkUpload.tsx:170-176 | Every string a value reports has a lower-cased form that is no valid title. |
| Mismatch.MultiValueReported | src/webparts/upload/components/bulkuploadwithcolumns/AdvanceBulkUpload.tsx:170-173 | In a multi-valued lookup field, every trimmed piece of a string value that resolves to no entry is reported. |
| Mismatch.SingleValueReported | src/webparts/upload/components/bulkuploadwithcolumns/AdvanceBulkUpload.tsx:174-176 | In any other case, a value whose `String(...)` resolves to no entry is reported whole. |
| Mismatch.EntrySummarySpec | src/webparts/upload/components/bulkuploadwithcolumns/AdvanceBulkUpload.tsx:158-185 | An entry is summarised exactly when it is mapped to a lookup field that has mismatches. The summary names the field's title and counts every mismatch, repeats included. It lists the first `min(distinct, 10)` distinct mismatches, with no duplicates and in the order of their first occurrence, and none of them resolves. |
| Mismatch.SummariesSpec | src/webparts/upload/components/bulkuploadwithcolumns/AdvanceBulkUpload.tsx:156-186 | There is at most one summary per mapping entry. The summaries are exactly the entries' own, and there are none exactly when no entry has one. |
| Mismatch.CollectMismatches | src/webparts/upload/components/bulkuploadwithcolumns/AdvanceBulkUpload.tsx:167-177 | The `forEach` pushing into `mismatches` produces the field's mismatches. |
| Mismatch.SummarizeEntry | src/webparts/upload/components/bulkuploadwithcolumns/AdvanceBulkUpload.tsx:158-185 | One callback of `columnMapping.forEach` pushes exactly the entry's summary, if it has one. |
| Mismatch.SummaryStep | src/webparts/upload/components/bulkuploadwithcolumns/AdvanceBulkUpload.tsx:158-186 | One turn of `columnMapping.forEach` extends the summaries of the first `j` entries to those of the first `j + 1`. |
| Mismatch.LookupValidation | src/webparts/upload/components/bulkuploadwithcolumns/AdvanceBulkUpload.tsx:153-188 | The effect returns early exactly when there are no rows, no mapping or no fields. Otherwise it stores the summaries. |
| Seqs.Distinct | src/webparts/upload/components/bulkuploadwithcolumns/AdvanceBulkUpload.tsx:183 | `Array.from(new Set(xs))` has no duplicates and holds exactly the elements of `xs`. |
| Seqs.DistinctFirstSeen | src/webparts/upload/components/bulkuploadwithcolumns/AdvanceBulkUpload.tsx:183 | `new Set` keeps insertion order: the distinct values come in the order of their first occurrence. |
| Seqs.Take | src/webparts/upload/components/bulkuploadwithcolumns/AdvanceBulkUpload.tsx:183 | `slice(0, n)` is the prefix of length `min(|s|, n)`. |
| Seqs.TakeKeepsNoDuplicates | src/webparts/upload/components/bulkuploadwithcolumns/AdvanceBulkUpload.tsx:183 | A prefix of a duplicate-free list is duplicate-free. |
| AdvanceBulkUpload.Session.LookupValidationEffect | src/webparts/upload/components/bulkuploadwithcolumns/AdvanceBulkUpload.tsx:153-190 | The summary state is replaced by the summaries unless the effect returns early. Nothing else changes. |
| AdvanceBulkUpload.Session.AutoMapEffect | src/webparts/upload/components/bulkuploadwithcolumns/AdvanceBulkUpload.tsx:133-150 | The mapping is replaced by the automatic one unless the effect returns early. Nothing else changes. |
| AdvanceBulkUpload.RowOutcome | src/webparts/upload/components/bulkuploadwithcolumns/AdvanceBulkUpload.tsx:380-392 | A row's one log line carries its 1-based number. It is a success line exactly when the single call was answered ok. |
| AdvanceBulkUpload.RowsLog | src/webparts/upload/components/bulkuploadwithcolumns/AdvanceBulkUpload.tsx:374-399 | There is one line per row. They are in row order, which is the one interleaving of a batch's answers the model fixes. |
| AdvanceBulkUpload.RowsPostsAt | src/webparts/upload/components/bulkuploadwithcolumns/AdvanceBulkUpload.tsx:378-384 | There is one create call per row, as attempt 1, carrying that row's payload. |
| AdvanceBulkUpload.UploadSpec | src/webparts/upload/components/bulkuploadwithcolumns/AdvanceBulkUpload.tsx:304-399 | No rows refuses with "no data". Otherwise an unmapped column refuses with "not mapped". Either refusal makes no call. Otherwise every row is posted exactly once, with its own payload, and logged under `i + idx + 1`, as uploaded exactly when the call was ok. Progress never decreases, stays within 100 and ends at 100. |
| AdvanceBulkUpload.UploadLogCounts | src/webparts/upload/components/bulkuploadwithcolumns/AdvanceBulkUpload.tsx:377-398 | Without fixing the order of the lines: row `k` has exactly one uploaded line if its call was ok and exactly one failed line if not, under its 1-based number. Every line is a row line of the run. This holds whatever order the answers within a batch arrive in. |
| AdvanceBulkUpload.UploadRow | src/webparts/upload/components/bulkuploadwithcolumns/AdvanceBulkUpload.tsx:378-395 | One row's turn: its payload is posted once, its line is logged by the call's answer, and the progress is recomputed. The run so far is extended from the first `k` rows to the first `k + 1`. |
| AdvanceBulkUpload.UploadBatch | src/webparts/upload/components/bulkuploadwithcolumns/AdvanceBulkUpload.tsx:375-397 | One batch `rows.slice(start, end)` extends the run's lines, calls and progress values from the first `start` rows to the first `end`. |
| AdvanceBulkUpload.UploadRows | src/webparts/upload/components/bulkuploadwithcolumns/AdvanceBulkUpload.tsx:318-399 | The batch loop produces the specified run. When the run goes ahead, its batches are exactly the slices of ten. |
| Batching.SlicesPartition | src/webparts/upload/components/bulkuploadwithcolumns/AdvanceBulkUpload.tsx:374-375 | The batches concatenate, in order, to the rows, so every row is in exactly one batch. There are `ceil(rows / size)` batches, none of them empty, and all but the last are full. |
| Batching.TwentyFiveInTens | src/webparts/upload/components/bulkuploadwithcolumns/AdvanceBulkUpload.tsx:319 | Twenty-five rows in batches of ten make batches of 10, 10 and 5 rows. |
| Batching.Percent | src/webparts/upload/components/bulkuploadwithcolumns/AdvanceBulkUpload.tsx:395 | The percentage is the nearest whole number to `done / total * 100`, with halves rounded up. |
| Batching.PercentFacts | src/webparts/upload/components/bulkuploadwithcolumns/AdvanceBulkUpload.tsx:395 | The percentage grows with the number of rows done, is 0 at the start and 100 at the end, and never exceeds 100. |
| Batching.ProgressTraceFacts | src/webparts/upload/components/bulkuploadwithcolumns/AdvanceBulkUpload.tsx:394-395 | The progress values set during a run never decrease, stay within 100 and end at 100. |
| AdvanceBulkUpload.KindOfFileSpec | src/webparts/upload/components/bulkuploadwithcolumns/AdvanceBulkUpload.tsx:99-110 | A lower-cased name ending in `.xlsx` or `.xls` is a spreadsheet. Failing that, one ending in `.json` is JSON. Anything else is unsupported. |
| AdvanceBulkUpload.KindOfFileIgnoresCase | src/webparts/upload/components/bulkuploadwithcolumns/AdvanceBulkUpload.tsx:99 | A name and its lower-cased form are of the same kind. |
| AdvanceBulkUpload.KindOfFileByExtension | src/webparts/upload/components/bulkuploadwithcolumns/AdvanceBulkUpload.tsx:101-110 | Whatever comes before it, a `.json` name is JSON and a `.xlsx` or `.xls` name is a spreadsheet. |
| AdvanceBulkUpload.Session.constructor | src/webparts/upload/components/bulkuploadwithcolumns/AdvanceBulkUpload.tsx:39-48 | Every state slot starts empty or zero. |
| AdvanceBulkUpload.Session.HandleFileUpload | src/webparts/upload/components/bulkuploadwithcolumns/AdvanceBulkUpload.tsx:95-129 | A spreadsheet sets the rows, then takes the columns from the first row. An empty sheet throws and skips the field fetch. JSON must be a non-empty array: a parse error logs "invalid JSON" and anything else logs "not an array". Any other name logs "unsupported". All but the thrown case start the field fetch. |
| AdvanceBulkUpload.Session.LoadSheet | src/webparts/upload/components/bulkuploadwithcolumns/AdvanceBulkUpload.tsx:101-109 | The rows are set to the sheet. The columns are then set to the first row's keys, or, for an empty sheet, `Object.keys(undefined)` throws and the field fetch is skipped. Nothing else changes. |
| AdvanceBulkUpload.Session.LoadJson | src/webparts/upload/components/bulkuploadwithcolumns/AdvanceBulkUpload.tsx:110-123 | A non-empty array sets the rows and its first element's keys as the columns. A parse error logs "invalid JSON" and anything else logs "not an array", leaving rows and columns as they were. |
| AdvanceBulkUpload.Session.FieldsFetched | src/webparts/upload/components/bulkuploadwithcolumns/AdvanceBulkUpload.tsx:62-80 | The schema replaces the fields. The fetched lookup entries go over the cached ones, one key at a time. |
| AdvanceBulkUpload.Session.FetchError | src/webparts/upload/components/bulkuploadwithcolumns/AdvanceBulkUpload.tsx:88-90 | A failed schema fetch appends one error line and changes nothing else. |
| AdvanceBulkUpload.Session.HandleUpload | src/webparts/upload/components/bulkuploadwithcolumns/AdvanceBulkUpload.tsx:304-402 | A refusal appends its warning and changes nothing else. A run replaces the log with the run's lines, leaves progress at 100 and the upload flag off, and returns the create calls. |
| AdvancedBulkUpload.IdentityMapping | src/webparts/upload/components/bulkupload/AdvancedBulkUpload.tsx:71 | There is one entry per first-row key, in key order, each with its list field equal to its file column. |
| AdvancedBulkUpload.BuildItem | src/webparts/upload/components/bulkupload/AdvancedBulkUpload.tsx:132-135 | The `forEach` filling `item` produces exactly those writes, assembled into one object. |
| AdvancedBulkUpload.ItemKeys | src/webparts/upload/components/bulkupload/AdvancedBulkUpload.tsx:133-135 | The item has a key for every mapped list field, and no other key. |
| AdvancedBulkUpload.ItemLastWins | src/webparts/upload/components/bulkupload/AdvancedBulkUpload.tsx:133-135 | A key holds the cell of the last entry that maps onto it, so a later entry overwrites an earlier one. |
| AdvancedBulkUpload.IdentityItemCopiesRow | src/webparts/upload/components/bulkupload/AdvancedBulkUpload.tsx:98 | Under the identity mapping seeded from a row, the item has exactly that row's keys, each holding its own cell. |
| AdvancedBulkUpload.BulkOutcomes | src/webparts/upload/components/bulkupload/AdvancedBulkUpload.tsx:137-154 | Each row ends with exactly one outcome line. It says created when one of the three attempts was ok, and gave up when none was. |
| AdvancedBulkUpload.BulkPosts | src/webparts/upload/components/bulkupload/AdvancedBulkUpload.tsx:142 | Every create call posts its own row's item, as attempt 1, 2 or 3. |
| AdvancedBulkUpload.BulkPostsCount | src/webparts/upload/components/bulkupload/AdvancedBulkUpload.tsx:137-154 | Each row gets exactly one call per attempt from 1 up to its number of attempts (one to three), each carrying that row's item. |
| AdvancedBulkUpload.BulkCompletion | src/webparts/upload/components/bulkupload/AdvancedBulkUpload.tsx:155-162 | The completion line is logged once, after every row's lines. There is one progress value per row, the values never decrease, and the last is 100. |
| AdvancedBulkUpload.BulkRow | src/webparts/upload/components/bulkupload/AdvancedBulkUpload.tsx:131-156 | One row's turn: its item is built and sent through the retry loop, and the progress is recomputed. The run so far is extended from the first `k` rows to the first `k + 1`. |
| AdvancedBulkUpload.BulkBatch | src/webparts/upload/components/bulkupload/AdvancedBulkUpload.tsx:129-157 | One batch extends the run's lines, calls and progress values from the first `start` rows to the first `end`. |
| AdvancedBulkUpload.BulkUpload | src/webparts/upload/components/bulkupload/AdvancedBulkUpload.tsx:118-162 | With any batch size, the loop produces the specified run. Nothing runs exactly when there are no rows. When it runs, its batches are exactly the slices of that size. |
| AdvancedBulkUpload.Session.constructor | src/webparts/upload/components/bulkupload/AdvancedBulkUpload.tsx:23-29 | Every modelled state slot starts empty, zero or off. |
| AdvancedBulkUpload.Session.ResetState | src/webparts/upload/components/bulkupload/AdvancedBulkUpload.tsx:38-48 | Every modelled slot is cleared. |
| AdvancedBulkUpload.Session.LoadRows | src/webparts/upload/components/bulkupload/AdvancedBulkUpload.tsx:93-100 | These slots are set: the rows, the row count, the first row's keys as the columns, and the identity mapping over them. |
| AdvancedBulkUpload.Session.HandleFileUpload | src/webparts/upload/components/bulkupload/AdvancedBulkUpload.tsx:51-90 | The state is reset first. A name containing `.json` loads the parsed rows, or logs a read error when the parse throws. Otherwise a name containing `.xlsx` or `.xls` loads the first sheet. Any other name logs "unsupported". The upload flag ends off. |
| AdvancedBulkUpload.Session.HandleMappingChange | src/webparts/upload/components/bulkupload/AdvancedBulkUpload.tsx:111-115 | An index inside the mapping sets that entry's list field, and the length, file columns and other entries stay. An index outside it leaves everything as it was. |
| AdvancedBulkUpload.Session.HandleBulkUpload | src/webparts/upload/components/bulkupload/AdvancedBulkUpload.tsx:118-164 | With no rows, it appends the error line and makes no call. Otherwise it appends the run's lines, leaves progress at 100 and the flag off, and returns the calls. |
| Retry.FirstOk | src/webparts/upload/components/bulkupload/AdvancedBulkUpload.tsx:139-152 | This is the first attempt answered ok, and no earlier attempt was; it is 4 when none of the three was. |
| Retry.RetrySpec | src/webparts/upload/components/bulkupload/AdvancedBulkUpload.tsx:137-154 | Between one and three attempts are made, and every attempt before the last one failed. A record is created exactly when some attempt is ok, and then the last attempt is the ok one. The final failure line is logged exactly when all three attempts failed. |
| Retry.PostWithRetry | src/webparts/upload/components/bulkupload/AdvancedBulkUpload.tsx:137-154 | The `while (!success && attempts < 3)` loop returns the record's outcome, its log lines and its calls. |
| Retry.RunLogOutcomes | src/webparts/upload/components/bulkupload/AdvancedBulkUpload.tsx:128-157 | In a run's log, each record has exactly one created or gave-up line, and records outside the run have none. |
| Retry.RecordLogLines | src/webparts/upload/components/bulkupload/AdvancedBulkUpload.tsx:137-154 | One record's lines are attempt-failed, created or gave-up lines, all for that record. |
| Retry.RunLogLines | src/webparts/upload/components/bulkupload/AdvancedBulkUpload.tsx:131-157 | A run's log holds only per-record lines, and only for records of the run. |
| Retry.RunPostsFacts | src/webparts/upload/components/bulkupload/AdvancedBulkUpload.tsx:131-157 | Every create call of a run belongs to a record of the run, posts that record's body and is one of its one to three attempts. |
| Retry.RecordPostsCount | src/webparts/upload/components/bulkupload/AdvancedBulkUpload.tsx:137-154 | One record's calls are attempts 1 up to its number of attempts, each made once with the record's body. |
| Retry.RunPostsCount | src/webparts/upload/components/bulkupload/AdvancedBulkUpload.tsx:128-157 | In a run, each record gets exactly one call per attempt from 1 up to its number of attempts, carrying its own body, and no other call. |
| UploadAndCreate.CreateItems | src/webparts/upload/components/UploadAndCreate.tsx:30-67 | Records go one at a time, in input order, through the retry loop. `completed` ends equal to the number of records. The progress values are those of the run, and the completion line comes last. |
| UploadAndCreate.CreateLogSpec | src/webparts/upload/components/UploadAndCreate.tsx:34-66 | Each record ends with exactly one line, created or gave up, according to whether one of its attempts was ok. The completion line appears once, at the end. |
| UploadAndCreate.CreateLogInOrder | src/webparts/upload/components/UploadAndCreate.tsx:34-64 | The lines up to record `r`'s end are a prefix of the whole log, and they belong only to records up to `r`. |
| UploadAndCreate.RunLogPrefix | src/webparts/upload/components/UploadAndCreate.tsx:34-64 | The log is append-only: the log after fewer records is a prefix of the log after more. |
| UploadAndCreate.SheetParts | src/webparts/upload/components/UploadAndCreate.tsx:94-96 | The sheets' rows are taken in `SheetNames` order, and a missing sheet gives no rows. |
| UploadAndCreate.CollectSheets | src/webparts/upload/components/UploadAndCreate.tsx:92-98 | `allData.push(...jsonData)` over the sheets gives their rows concatenated in sheet order. |
| UploadAndCreate.CollectSheetsSpec | src/webparts/upload/components/UploadAndCreate.tsx:94-100 | The row count set as `totalItems` is the sum of the sheets' row counts. Sheet `i`'s rows sit, unchanged, right after those of the sheets before it. |
| Seqs.FlattenLength | src/webparts/upload/components/UploadAndCreate.tsx:97-100 | The concatenated length is the sum of the lengths of the parts. |
| Seqs.FlattenSlot | src/webparts/upload/components/UploadAndCreate.tsx:94-98 | Each part sits, unchanged, after the parts before it. |
| UploadAndCreate.State.constructor | src/webparts/upload/components/UploadAndCreate.tsx:15-18 | The state starts at zero progress, no items, an empty log and not uploading. |
| UploadAndCreate.State.ResetState | src/webparts/upload/components/UploadAndCreate.tsx:24-28 | Progress and the item count become 0, the log is emptied, and the upload flag is left alone. |
| UploadAndCreate.State.Upload | src/webparts/upload/components/UploadAndCreate.tsx:75-76 | `totalItems` is set to the number of records, and the log gains the run's lines. Progress ends at 100, or is unchanged when there are no records, and the create calls are returned. |
| UploadAndCreate.State.HandleFileUpload | src/webparts/upload/components/UploadAndCreate.tsx:111-126 | The state is reset and the flag raised, then the file is dispatched. A name containing `.json` uploads the parsed records, or logs "invalid JSON" when the parse throws. Otherwise a `.xlsx` or `.xls` name uploads all sheets' rows, or logs a read error. Any other name logs "unsupported". Progress ends at 100 after a run over at least one record and at 0 otherwise. The flag ends off. |

## Left out

- **Rendering and hooks.** React rendering and hooks are not modelled. An effect is an explicit method call, and the order in which React schedules effects is not modelled.
- **Drag, drop and sheets.** The drag-and-drop state, the sheet selector (`handleSheetChange`) and `sheetNames`/`selectedSheet` of `AdvancedBulkUpload` are not modelled, because they are rendering only.
- **Network.** The SharePoint requests (`fetchListFields`, `spHttpClient.get`, `SPHelpers.setListData`) are not modelled; this is network I/O.
  - The create call's answers are the oracle parameter.
  - The schema and lookup fetch is represented only by the state updates it makes (`FieldsFetched`, `FetchError`).
  - The `lookupLists` title cache is not modelled. It gates which lookup lists are fetched (line 67), and it is keyed inconsistently: the raw `LookupList` GUID is tested, but the brace-stripped `cleanGuid` is stored (line 74). `FieldsFetched`'s `fetched` parameter stands for whatever entries that gated fetch brought back.
  - `src/webparts/upload/services/SPHelper.ts` is not part of this model.
  - Every lookup entry's title is taken to be a string; a `null` `Title`, which SharePoint returns for an item with an empty title, is not modelled. In the source, `li.Title.toLowerCase()` (`src/webparts/upload/components/bulkuploadwithcolumns/AdvanceBulkUpload.tsx:342`, `:349`) then throws inside `createItemPayload`, which is called at `:379` outside the row's `try`. The batch's `Promise.all` (`:377`) rejects, the later batches are not posted, and `setIsUploading(false)` (`:401`) never runs. In the validation effect, `lv.Title.toLowerCase()` (`:164`) throws as well. `Payload.SingleLookupWrite`, `Payload.MultiLookupWrite` and `Mismatch.ValidTitles` therefore cover only lookup lists whose titles are all strings.
- **File decoding.** `FileReader`, `file.text()`, `XLSX.read`, `sheet_to_json` and `JSON.parse` are foreign libraries and browser I/O. Their decoded results are parameters:
  - rows, a first sheet, a workbook, or `None` when they throw, except as noted next.
  - In `AdvancedBulkUpload`, the first sheet is a plain list of rows with no `None`. `XLSX.read` in the reader's `onload` (`src/webparts/upload/components/bulkupload/AdvancedBulkUpload.tsx:76`) throws outside any `try`: no line is logged and the state stays as reset, which the model gives for an empty sheet. What the model does not capture is that an unreadable workbook and an empty sheet look alike.
  - In `AdvanceBulkUpload`, `XLSX.read` can throw outside any `try` (`src/webparts/upload/components/bulkuploadwithcolumns/AdvanceBulkUpload.tsx:104`). The handler then stops before the field fetch. This is not modelled: the sheet parameter is always a decoded list of rows.
  - In `AdvanceBulkUpload`, a JSON array whose first element is `null` makes `Object.keys(null)` throw after `setRows` (line 117). The `catch` at line 121 then logs "invalid JSON" with the rows already set. This is not modelled: every decoded row is an object.
  - The same holds in the other two components: a `null` record or row is not modelled.
    - In `UploadAndCreate`, a `null` record makes `record.Title` throw while its line is logged (`src/webparts/upload/components/UploadAndCreate.tsx:47`, `:50`), and again in the `catch` at `:53`. The reader's `catch` (`:77-78`) then logs "invalid JSON" after the earlier records' lines, and the later records are never posted.
    - In `AdvancedBulkUpload`, a `null` row after an object first row makes `row[map.fileColumn]` (`src/webparts/upload/components/bulkupload/AdvancedBulkUpload.tsx:134`) throw inside `Promise.all`, so `setUploading(false)` (`:163`) never runs.
  - Nested objects and arrays inside cells are not modelled.
  - Dates and fractional numbers are not modelled: numbers are integers.
- **Non-array JSON.** A JSON document that is not an array is not modelled in `AdvancedBulkUpload` and `UploadAndCreate`. There, `rows[0]`, `rows.length` and `for ... of` on a non-array behave in ways that depend on the value. `AdvanceBulkUpload` checks `Array.isArray`, and that check is modelled.
- **No file chosen.** The early return when no file is chosen is not modelled. Every handler models a chosen file.
- **Parallel batches.** `Promise.all` runs a batch's requests concurrently, and each row's line is appended when its answer arrives. The model fixes one interleaving, row order. The per-position log facts of `RowsLog` and `UploadSpec` are about that interleaving only. `UploadLogCounts` states the per-row lines without their order, which holds for every interleaving. In `AdvanceBulkUpload` each row gets one attempt, and all calls of a batch are started before its first answer is awaited, so the call order is row order. In `AdvancedBulkUpload` each row's first attempt starts at once, but its retries wait for its own answers. So the order of `sent` and of the log within a batch given by `BulkUpload` and `HandleBulkUpload` holds only for the model's interleaving: with two rows and a failed first attempt for row 0, the source calls attempt 1 of row 0, attempt 1 of row 1, then attempt 2 of row 0, where the model calls both attempts of row 0 first. `BulkPostsCount`, `BulkOutcomes` and `BulkCompletion` are the facts that hold for every interleaving. `UploadAndCreate` awaits each record before the next, so its order is the source's. `processed++` gives the same progress values in any order. The `setTimeout` pauses are left out, because they only delay.
- **Floating point.** `Math.round(done / total * 100)` is modelled in exact arithmetic. Floating-point division can round differently at an exact half.
- **Messages.** Log messages are reduced to what they report: the record, the attempt and the kind of line. Their text, emoji, `item.Title` and URLs are not modelled.
- **`toLowerCase`.** It is modelled for the letters A to Z only. Other upper-case letters are left unchanged.
- **Object keys.** `Object.keys` order for integer-like keys is not modelled: a row lists its keys in entry order. `JSON.stringify` dropping `undefined` values is not modelled: a body is the item map.
  - A decoded row is taken to have distinct keys, as a JavaScript object does. `Records.Get` returns the first entry for a key and `Records.Keys` lists every entry's key, so for a row with a repeated key they would differ from an object's lookup and `Object.keys`; the decoders never produce such a row, but the `Row` type does not exclude it.
- **Dead code.** The commented-out `handleUpload` (`src/webparts/upload/components/bulkuploadwithcolumns/AdvanceBulkUpload.tsx:200-302`) is modelled only at the one point where it differs from the active code (`Payload.MultiChoiceKeepsEmptyPieces`).
- **Unused `console.log`.** The `console.log` of a stale summary in the validation effect, and the `console.log(fileColumns)` in `AdvancedBulkUpload`'s `handleBulkUpload` (`src/webparts/upload/components/bulkupload/AdvancedBulkUpload.tsx:123`), are not modelled, because they only print.
- AdvanceBulkUpload.Session.HandleMappingChange: does not model that the source assigns into the shared mapping object (`copy[idx].listField`), which also changes the previous state's entry. The model treats the mapping as a value.
- AdvanceBulkUpload.Session.HandleMappingChange: models the `TypeError` of an out-of-range index as a `false` result with the state unchanged. React reports that error during rendering, and what happens to the component afterwards is not modelled.
- AdvancedBulkUpload.Session.HandleMappingChange: does not model the in-place assignment to the shared entry object, for the same reason.
- UploadAndCreate.State.HandleFileUpload: runs the upload inline. In the source, `await readJson(file)` and `await readExcel(file)` (`src/webparts/upload/components/UploadAndCreate.tsx:119`, `:121`) return as soon as reading has started (`:83`, `:108`). The whole upload then runs later in the reader's `onload`. The model states the slots once that callback has finished, not the states in between.
- AdvancedBulkUpload.Session.HandleFileUpload: models the spreadsheet branch as if the `FileReader` callback had already run. In the source the upload flag is cleared before the sheet loads, and an empty sheet's `Object.keys(undefined)` throws inside the callback after the rows were set. The resulting slots are the same as in the model.
- AdvanceBulkUpload.Session.HandleUpload: does not model the intermediate states (flag on, log cleared, progress 0) that are visible while the run is in progress. Only the final state is stated.
