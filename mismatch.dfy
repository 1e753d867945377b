/** The lookup-validation pass of the column-mapping upload component: for
    every mapped lookup column it collects the file values that match no entry
    of the referenced list, and summarises them per field. */
module Mismatch {
  import opened Wrappers
  import opened Seqs
  import opened JsText
  import opened Records
  import opened Schema
  import opened Payload

  /** One field's warning: its title, how many values failed, and up to
      `MaxExamples` distinct failing values. */
  datatype MismatchSummary = MismatchSummary(field: string, totalMismatches: nat, values: seq<string>)

  const MaxExamples: nat := 10

  /** `lookupItems.map(lv => lv.Title.toLowerCase())`. */
  function ValidTitles(items: seq<LookupItem>): (t: seq<string>)
    ensures |t| == |items|
    ensures forall i :: 0 <= i < |items| ==> t[i] == Lower(items[i].title)
  {
    seq(|items|, i requires 0 <= i < |items| => Lower(items[i].title))
  }

  /** `validTitles.includes(v.toLowerCase())` holds exactly when the payload's
      `find` on the same items resolves `v`. */
  lemma ValidTitlesAgree(items: seq<LookupItem>, v: string)
    ensures Lower(v) in ValidTitles(items) <==> FindByTitle(items, v).Some?
  {
    var t := ValidTitles(items);
    if Lower(v) in t {
      var i :| 0 <= i < |t| && t[i] == Lower(v);
      assert TitleMatches(items[i], v);
    }
    if FindByTitle(items, v).Some? {
      var it := FindByTitle(items, v).value;
      var i :| 0 <= i < |items| && items[i] == it;
      assert t[i] == Lower(v);
    }
  }

  /** The cell a row contributes to `rows.map(r => r[column]).filter(Boolean)`. */
  function TruthyCell(row: Row, column: string): (r: Option<Cell>)
    ensures r.Some? <==> Get(row, column).Some? && Truthy(Get(row, column).value)
    ensures r.Some? ==> r.value == Get(row, column).value
  {
    match Get(row, column)
    case None => None
    case Some(c) => if Truthy(c) then Some(c) else None
  }

  /** `rows.map(r => r[column]).filter(Boolean)`. */
  function ExcelValues(rows: seq<Row>, column: string): (vs: seq<Cell>)
    ensures |vs| <= |rows|
    ensures forall i :: 0 <= i < |vs| ==> Truthy(vs[i])
  {
    if rows == [] then []
    else
      (match TruthyCell(rows[0], column) case None => [] case Some(c) => [c])
      + ExcelValues(rows[1..], column)
  }

  /** One row contributes its truthy cell, or nothing. */
  lemma ExcelValuesSingle(row: Row, column: string)
    ensures ExcelValues([row], column) == match TruthyCell(row, column) case None => [] case Some(c) => [c]
  {
    assert [row][1..] == [];
  }

  /** The filter works row by row: the values of two runs of rows are those
      of the first run followed by those of the second, so there is one value
      per truthy row, in row order, repeats kept. */
  lemma {:induction false} ExcelValuesAppend(a: seq<Row>, b: seq<Row>, column: string)
    ensures ExcelValues(a + b, column) == ExcelValues(a, column) + ExcelValues(b, column)
  {
    if a == [] {
      assert a + b == b;
    } else {
      var c := a + b;
      var head := match TruthyCell(a[0], column) case None => [] case Some(x) => [x];
      assert c[0] == a[0];
      assert c[1..] == a[1..] + b;
      calc {
        ExcelValues(c, column);
        head + ExcelValues(a[1..] + b, column);
        { ExcelValuesAppend(a[1..], b, column); }
        head + (ExcelValues(a[1..], column) + ExcelValues(b, column));
        ExcelValues(a, column) + ExcelValues(b, column);
      }
    }
  }

  /** The filter keeps every truthy cell, in row order, and nothing else. */
  lemma {:induction false} ExcelValuesMembers(rows: seq<Row>, column: string, c: Cell)
    ensures c in ExcelValues(rows, column) <==>
      exists i :: 0 <= i < |rows| && TruthyCell(rows[i], column) == Some(c)
  {
    if rows != [] {
      ExcelValuesMembers(rows[1..], column, c);
      if c in ExcelValues(rows[1..], column) {
        var i :| 0 <= i < |rows[1..]| && TruthyCell(rows[1..][i], column) == Some(c);
        assert TruthyCell(rows[i + 1], column) == Some(c);
      }
      if exists i :: 0 <= i < |rows| && TruthyCell(rows[i], column) == Some(c) {
        var i :| 0 <= i < |rows| && TruthyCell(rows[i], column) == Some(c);
        if i > 0 {
          assert TruthyCell(rows[1..][i - 1], column) == Some(c);
        }
      }
    }
  }

  /** The tokens whose lower-cased form is not a valid title, in order. */
  function Unmatched(tokens: seq<string>, valid: seq<string>): (r: seq<string>)
    ensures |r| <= |tokens|
    ensures forall i :: 0 <= i < |r| ==> r[i] in tokens && Lower(r[i]) !in valid
    ensures forall i :: 0 <= i < |tokens| && Lower(tokens[i]) !in valid ==> tokens[i] in r
  {
    if tokens == [] then []
    else
      var rest := Unmatched(tokens[1..], valid);
      assert forall i :: 1 <= i < |tokens| ==> tokens[i] == tokens[1..][i - 1];
      if Lower(tokens[0]) in valid then rest else [tokens[0]] + rest
  }

  /** A single token is reported exactly when its lower-cased form is no
      valid title. */
  lemma UnmatchedSingle(t: string, valid: seq<string>)
    ensures Unmatched([t], valid) == if Lower(t) in valid then [] else [t]
  {
    assert [t][1..] == [];
  }

  /** Matching works token by token: the unmatched tokens of two runs are
      those of the first run followed by those of the second, so they keep
      token order and repeats. */
  lemma {:induction false} UnmatchedAppend(a: seq<string>, b: seq<string>, valid: seq<string>)
    ensures Unmatched(a + b, valid) == Unmatched(a, valid) + Unmatched(b, valid)
  {
    if a == [] {
      assert a + b == b;
    } else {
      var c := a + b;
      var head := if Lower(a[0]) in valid then [] else [a[0]];
      assert c[0] == a[0];
      assert c[1..] == a[1..] + b;
      calc {
        Unmatched(c, valid);
        head + Unmatched(a[1..] + b, valid);
        { UnmatchedAppend(a[1..], b, valid); }
        head + (Unmatched(a[1..], valid) + Unmatched(b, valid));
        Unmatched(a, valid) + Unmatched(b, valid);
      }
    }
  }

  /** Every token either resolves to a lookup id in the payload or is
      reported as a mismatch, never both. */
  lemma {:induction false} ResolvedPlusUnmatched(tokens: seq<string>, items: seq<LookupItem>)
    ensures |ResolveIds(tokens, items)| + |Unmatched(tokens, ValidTitles(items))| == |tokens|
  {
    if tokens != [] {
      ResolvedPlusUnmatched(tokens[1..], items);
      ValidTitlesAgree(items, tokens[0]);
    }
  }

  /** What one file value pushes onto `mismatches`: the unmatched trimmed
      pieces of a string in a multi-valued field, else `String(val)` when it
      matches no title. */
  function ValueMismatches(f: FieldMeta, val: Cell, valid: seq<string>): seq<string>
  {
    if f.allowMultipleValues && val.Str? then Unmatched(Tokens(val.s), valid)
    else if Lower(JsString(val)) in valid then []
    else [JsString(val)]
  }

  /** `mismatches` after `excelValues.forEach(...)` has visited `vals`. */
  function Mismatches(vals: seq<Cell>, f: FieldMeta, valid: seq<string>): seq<string>
  {
    if vals == [] then []
    else Mismatches(vals[..|vals| - 1], f, valid) + ValueMismatches(f, vals[|vals| - 1], valid)
  }

  /** A string is a mismatch exactly when some file value pushed it. */
  lemma {:induction false} MismatchesMembers(vals: seq<Cell>, f: FieldMeta, valid: seq<string>, x: string)
    ensures x in Mismatches(vals, f, valid) <==>
      exists k :: 0 <= k < |vals| && x in ValueMismatches(f, vals[k], valid)
  {
    if vals != [] {
      var front := vals[..|vals| - 1];
      MismatchesMembers(front, f, valid, x);
      if x in Mismatches(front, f, valid) {
        var k :| 0 <= k < |front| && x in ValueMismatches(f, front[k], valid);
        assert vals[k] == front[k];
      }
      if exists k :: 0 <= k < |vals| && x in ValueMismatches(f, vals[k], valid) {
        var k :| 0 <= k < |vals| && x in ValueMismatches(f, vals[k], valid);
        if k < |vals| - 1 {
          assert front[k] == vals[k];
        }
      }
    }
  }

  /** Nothing a value pushes is a valid title. */
  lemma ValueMismatchesInvalid(f: FieldMeta, val: Cell, valid: seq<string>, x: string)
    requires x in ValueMismatches(f, val, valid)
    ensures Lower(x) !in valid
  {
    if f.allowMultipleValues && val.Str? {
      var r := Unmatched(Tokens(val.s), valid);
      var i :| 0 <= i < |r| && r[i] == x;
    }
  }

  /** The summary one mapping entry contributes, if any. */
  function EntrySummary(m: ColumnMapping, rows: seq<Row>, fields: seq<FieldMeta>, lookups: LookupCache): Option<MismatchSummary>
  {
    if m.listField == "" then None
    else match FieldNamed(fields, m.listField)
      case None => None
      case Some(f) =>
        if !IsLookupType(f.typeAsString) then None
        else
          var valid := ValidTitles(LookupItems(lookups, m.listField));
          var mism := Mismatches(ExcelValues(rows, m.fileColumn), f, valid);
          if |mism| > 0 then Some(MismatchSummary(f.title, |mism|, Take(Distinct(mism), MaxExamples)))
          else None
  }

  /** An entry is summarised exactly when it is mapped to a lookup field
      whose file values have at least one mismatch; the summary names the
      field, counts every mismatch (repeats included) and lists at most ten
      distinct ones, in first-seen order, each of which resolves to no
      lookup entry. */
  lemma EntrySummarySpec(m: ColumnMapping, rows: seq<Row>, fields: seq<FieldMeta>, lookups: LookupCache)
    ensures EntrySummary(m, rows, fields, lookups).None? <==>
      m.listField == "" || FieldNamed(fields, m.listField).None?
      || !IsLookupType(FieldNamed(fields, m.listField).value.typeAsString)
      || Mismatches(ExcelValues(rows, m.fileColumn), FieldNamed(fields, m.listField).value,
                    ValidTitles(LookupItems(lookups, m.listField))) == []
    ensures EntrySummary(m, rows, fields, lookups).Some? ==>
      var f := FieldNamed(fields, m.listField).value;
      var items := LookupItems(lookups, m.listField);
      var mism := Mismatches(ExcelValues(rows, m.fileColumn), f, ValidTitles(items));
      var s := EntrySummary(m, rows, fields, lookups).value;
      && s.field == f.title
      && s.totalMismatches == |mism| > 0
      && |s.values| == (if |Distinct(mism)| < MaxExamples then |Distinct(mism)| else MaxExamples)
      && s.values == Distinct(mism)[..|s.values|]
      && NoDuplicates(s.values)
      && (forall i :: 0 <= i < |s.values| ==> s.values[i] in mism && FindByTitle(items, s.values[i]).None?)
      && (forall i, j :: 0 <= i < j < |s.values| ==> IndexOf(mism, s.values[i]) < IndexOf(mism, s.values[j]))
  {
    if EntrySummary(m, rows, fields, lookups).Some? {
      var f := FieldNamed(fields, m.listField).value;
      var items := LookupItems(lookups, m.listField);
      var valid := ValidTitles(items);
      var vals := ExcelValues(rows, m.fileColumn);
      var mism := Mismatches(vals, f, valid);
      var s := EntrySummary(m, rows, fields, lookups).value;
      TakeKeepsNoDuplicates(Distinct(mism), MaxExamples);
      DistinctFirstSeen(mism);
      forall i | 0 <= i < |s.values|
        ensures s.values[i] in mism && FindByTitle(items, s.values[i]).None?
      {
        var x := s.values[i];
        assert x == Distinct(mism)[i];
        MismatchesMembers(vals, f, valid, x);
        var k :| 0 <= k < |vals| && x in ValueMismatches(f, vals[k], valid);
        ValueMismatchesInvalid(f, vals[k], valid, x);
        ValidTitlesAgree(items, x);
      }
    }
  }

  /** In a multi-valued lookup field, every trimmed piece of a truthy string
      cell that resolves to no entry is reported. */
  lemma MultiValueReported(vals: seq<Cell>, f: FieldMeta, items: seq<LookupItem>, k: nat, i: nat)
    requires f.allowMultipleValues && k < |vals| && vals[k].Str?
    requires i < |Tokens(vals[k].s)| && FindByTitle(items, Tokens(vals[k].s)[i]).None?
    ensures Tokens(vals[k].s)[i] in Mismatches(vals, f, ValidTitles(items))
  {
    var v := Tokens(vals[k].s)[i];
    ValidTitlesAgree(items, v);
    MismatchesMembers(vals, f, ValidTitles(items), v);
  }

  /** Outside that case, a value whose `String(...)` resolves to no entry is
      reported whole. */
  lemma SingleValueReported(vals: seq<Cell>, f: FieldMeta, items: seq<LookupItem>, k: nat)
    requires k < |vals| && !(f.allowMultipleValues && vals[k].Str?)
    requires FindByTitle(items, JsString(vals[k])).None?
    ensures JsString(vals[k]) in Mismatches(vals, f, ValidTitles(items))
  {
    ValidTitlesAgree(items, JsString(vals[k]));
    MismatchesMembers(vals, f, ValidTitles(items), JsString(vals[k]));
  }

  /** `summaries` after `columnMapping.forEach(...)` has visited `mapping`. */
  function Summaries(mapping: seq<ColumnMapping>, rows: seq<Row>, fields: seq<FieldMeta>, lookups: LookupCache): seq<MismatchSummary>
  {
    Collect(mapping, SummaryOf(rows, fields, lookups))
  }

  /** The callback as a function of the mapping entry. */
  function SummaryOf(rows: seq<Row>, fields: seq<FieldMeta>, lookups: LookupCache): ColumnMapping -> Option<MismatchSummary>
  {
    m => EntrySummary(m, rows, fields, lookups)
  }

  /** At most one summary per mapping entry; the summaries are exactly those
      of the entries that have one, so there are none exactly when no entry
      has one. */
  lemma SummariesSpec(mapping: seq<ColumnMapping>, rows: seq<Row>, fields: seq<FieldMeta>, lookups: LookupCache)
    ensures |Summaries(mapping, rows, fields, lookups)| <= |mapping|
    ensures Summaries(mapping, rows, fields, lookups) == [] <==>
      forall j :: 0 <= j < |mapping| ==> EntrySummary(mapping[j], rows, fields, lookups).None?
    ensures forall s :: s in Summaries(mapping, rows, fields, lookups) <==>
      exists j :: 0 <= j < |mapping| && EntrySummary(mapping[j], rows, fields, lookups) == Some(s)
  {
    var g := SummaryOf(rows, fields, lookups);
    CollectLength(mapping, g);
    CollectEmpty(mapping, g);
    forall s
      ensures s in Summaries(mapping, rows, fields, lookups) <==>
        exists j :: 0 <= j < |mapping| && EntrySummary(mapping[j], rows, fields, lookups) == Some(s)
    {
      CollectMembers(mapping, g, s);
    }
  }

  /** The effect's outcome: `None` when it returns early (no rows, no
      mapping or no fields), else the summaries it stores. */
  function Validation(rows: seq<Row>, mapping: seq<ColumnMapping>, fields: seq<FieldMeta>, lookups: LookupCache): Option<seq<MismatchSummary>>
  {
    if |rows| == 0 || |mapping| == 0 || |fields| == 0 then None
    else Some(Summaries(mapping, rows, fields, lookups))
  }

  /** `excelValues.forEach(...)`: pushes each value's mismatches in turn. */
  method CollectMismatches(vals: seq<Cell>, f: FieldMeta, valid: seq<string>) returns (mismatches: seq<string>)
    ensures mismatches == Mismatches(vals, f, valid)
  {
    mismatches := [];
    var k := 0;
    while k < |vals|
      invariant 0 <= k <= |vals|
      invariant mismatches == Mismatches(vals[..k], f, valid)
    {
      assert vals[..k + 1][..k] == vals[..k];
      mismatches := mismatches + ValueMismatches(f, vals[k], valid);
      k := k + 1;
    }
    assert vals[..k] == vals;
  }

  /** The `columnMapping.forEach` callback for one entry: the summary it
      pushes, if any. */
  method SummarizeEntry(m: ColumnMapping, rows: seq<Row>, fields: seq<FieldMeta>, lookups: LookupCache)
    returns (pushed: Option<MismatchSummary>)
    ensures pushed == EntrySummary(m, rows, fields, lookups)
  {
    if m.listField == "" {
      return None;
    }
    var found := FieldNamed(fields, m.listField);
    if found.None? || !IsLookupType(found.value.typeAsString) {
      return None;
    }
    var f := found.value;
    var valid := ValidTitles(LookupItems(lookups, m.listField));
    var mismatches := CollectMismatches(ExcelValues(rows, m.fileColumn), f, valid);
    if |mismatches| > 0 {
      return Some(MismatchSummary(f.title, |mismatches|, Take(Distinct(mismatches), MaxExamples)));
    }
    return None;
  }

  /** One turn of the `forEach`: entry `j`'s summary, if any, pushed. */
  method SummaryStep(mapping: seq<ColumnMapping>, j: nat, rows: seq<Row>, fields: seq<FieldMeta>, lookups: LookupCache,
                     summaries0: seq<MismatchSummary>)
    returns (summaries: seq<MismatchSummary>)
    requires j < |mapping|
    requires summaries0 == Summaries(mapping[..j], rows, fields, lookups)
    ensures summaries == Summaries(mapping[..j + 1], rows, fields, lookups)
  {
    CollectStep(mapping, j, SummaryOf(rows, fields, lookups));
    var pushed := SummarizeEntry(mapping[j], rows, fields, lookups);
    assert pushed == SummaryOf(rows, fields, lookups)(mapping[j]);
    summaries := summaries0 + (match pushed case None => [] case Some(u) => [u]);
  }

  /** The lookup-validation effect: `columnMapping.forEach(...)` building
      `summaries`. */
  method LookupValidation(rows: seq<Row>, mapping: seq<ColumnMapping>, fields: seq<FieldMeta>, lookups: LookupCache)
    returns (res: Option<seq<MismatchSummary>>)
    ensures res == Validation(rows, mapping, fields, lookups)
    ensures res.None? <==> |rows| == 0 || |mapping| == 0 || |fields| == 0
  {
    if |rows| == 0 || |mapping| == 0 || |fields| == 0 {
      return None;
    }
    var summaries: seq<MismatchSummary> := [];
    var j := 0;
    while j < |mapping|
      invariant 0 <= j <= |mapping|
      invariant summaries == Summaries(mapping[..j], rows, fields, lookups)
    {
      summaries := SummaryStep(mapping, j, rows, fields, lookups, summaries);
      j := j + 1;
    }
    assert mapping[..j] == mapping;
    return Some(summaries);
  }
}
