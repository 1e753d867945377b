/** Decoded file rows and column mappings: the values every upload component
    reads, independent of how the file was parsed. */
module Records {
  import opened Wrappers
  import opened Seqs

  /** A raw cell as the JSON parser or the spreadsheet decoder delivers it. */
  datatype Cell = Str(s: string) | Num(n: int) | Bool(b: bool) | Null

  datatype Entry = Entry(key: string, value: Cell)

  /** One record: its entries in the order `Object.keys` lists them. */
  type Row = seq<Entry>

  /** `Object.keys(row)`. */
  function Keys(row: Row): (ks: seq<string>)
    ensures |ks| == |row|
    ensures forall i :: 0 <= i < |row| ==> ks[i] == row[i].key
  {
    seq(|row|, i requires 0 <= i < |row| => row[i].key)
  }

  /** `row[key]`, with `None` standing for `undefined`. */
  function Get(row: Row, key: string): (r: Option<Cell>)
    ensures r.None? <==> forall i :: 0 <= i < |row| ==> row[i].key != key
    ensures r.Some? ==> Entry(key, r.value) in row
  {
    match Find(row, (e: Entry) => e.key == key)
    case None => None
    case Some(e) => Some(e.value)
  }

  /** JavaScript truthiness of a cell. */
  predicate Truthy(c: Cell)
  {
    match c
    case Str(s) => s != ""
    case Num(n) => n != 0
    case Bool(b) => b
    case Null => false
  }

  function DigitChar(d: nat): char
    requires d < 10
  {
    ('0' as int + d) as char
  }

  /** The decimal numeral of `n`. */
  function NaturalString(n: nat): (r: string)
    ensures |r| >= 1
  {
    if n < 10 then [DigitChar(n)] else NaturalString(n / 10) + [DigitChar(n % 10)]
  }

  function DecimalString(n: int): string
  {
    if n < 0 then "-" + NaturalString(-n) else NaturalString(n)
  }

  /** `String(value)`. */
  function JsString(c: Cell): string
  {
    match c
    case Str(s) => s
    case Num(n) => DecimalString(n)
    case Bool(b) => if b then "true" else "false"
    case Null => "null"
  }

  /** One row of the mapping table: a file column and the list field it feeds
      (`""` when unmapped). */
  datatype ColumnMapping = ColumnMapping(fileColumn: string, listField: string)

  /** `mapping.some(m => !m.listField)`. */
  predicate HasUnmapped(mapping: seq<ColumnMapping>)
  {
    exists j :: 0 <= j < |mapping| && mapping[j].listField == ""
  }

  /** `mapping[idx].listField = value` on a copy: entry `idx` now points at
      `value`, and nothing else changes (the length, every file column and
      every other entry stay). */
  function WithListField(mapping: seq<ColumnMapping>, idx: nat, value: string): (r: seq<ColumnMapping>)
    requires idx < |mapping|
    ensures |r| == |mapping|
    ensures r[idx].listField == value
    ensures forall j :: 0 <= j < |mapping| ==> r[j].fileColumn == mapping[j].fileColumn
    ensures forall j :: 0 <= j < |mapping| && j != idx ==> r[j] == mapping[j]
  {
    mapping[idx := ColumnMapping(mapping[idx].fileColumn, value)]
  }
}
