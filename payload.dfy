/** `createItemPayload` of the column-aware bulk upload: one row and the
    column mapping become the item body posted to the list, each mapped field
    converted according to its type. */
module Payload {
  import opened Wrappers
  import opened Seqs
  import opened JsText
  import opened Records
  import opened Schema

  /** The branches of the type dispatch on `TypeAsString`. */
  datatype FieldKind = LookupField | ChoiceOrText | MultiChoice | PassThrough

  function KindOf(typeAsString: string): (k: FieldKind)
    ensures k == LookupField <==> IsLookupType(typeAsString)
    ensures k == ChoiceOrText <==> typeAsString == "Choice" || typeAsString == "Text"
    ensures k == MultiChoice <==> typeAsString == "MultiChoice"
  {
    if IsLookupType(typeAsString) then LookupField
    else if typeAsString == "Choice" || typeAsString == "Text" then ChoiceOrText
    else if typeAsString == "MultiChoice" then MultiChoice
    else PassThrough
  }

  /** A value of the posted body: a cell as it is, a list of lookup ids, or a
      multi-choice `{results: [...]}` wrapper. */
  datatype Wire = Scalar(cell: Cell) | Ids(ids: seq<int>) | Results(results: seq<string>)

  /** The item body: key to value. */
  type Item = map<string, Wire>

  /** `row[map.fileColumn]` with `undefined` and `null` replaced by `""`. */
  function CellValue(row: Row, column: string): (c: Cell)
    ensures c != Null
    ensures Get(row, column).Some? && Get(row, column).value != Null ==> c == Get(row, column).value
  {
    match Get(row, column)
    case None => Str("")
    case Some(v) => if v == Null then Str("") else v
  }

  /** The ids of the tokens that resolve to some lookup entry, in token
      order, each the id of the first entry whose title matches. */
  function ResolveIds(tokens: seq<string>, items: seq<LookupItem>): (ids: seq<int>)
    ensures |ids| <= |tokens|
  {
    if tokens == [] then [] else TokenIds(tokens[0], items) + ResolveIds(tokens[1..], items)
  }

  /** The id one token contributes: that of the entry it finds, if any. */
  function TokenIds(t: string, items: seq<LookupItem>): seq<int>
  {
    match FindByTitle(items, t) case None => [] case Some(it) => [it.id]
  }

  /** Every id belongs to a lookup entry, and the list is empty exactly when
      no token resolves. */
  lemma {:induction false} ResolveIdsSpec(tokens: seq<string>, items: seq<LookupItem>)
    ensures ResolveIds(tokens, items) == [] <==> forall i :: 0 <= i < |tokens| ==> FindByTitle(items, tokens[i]).None?
    ensures forall x :: x in ResolveIds(tokens, items) ==> exists it :: it in items && it.id == x
  {
    if tokens != [] {
      ResolveIdsSpec(tokens[1..], items);
      var head := TokenIds(tokens[0], items);
      assert ResolveIds(tokens, items) == head + ResolveIds(tokens[1..], items);
      assert forall i :: 1 <= i < |tokens| ==> tokens[i] == tokens[1..][i - 1];
    }
  }

  /** A single token contributes the id of the entry it finds, or nothing. */
  lemma ResolveIdsSingle(t: string, items: seq<LookupItem>)
    ensures ResolveIds([t], items) ==
      if FindByTitle(items, t).Some? then [FindByTitle(items, t).value.id] else []
  {
    assert [t][1..] == [];
  }

  /** Resolution works token by token: the ids of two runs of tokens are the
      ids of the first run followed by those of the second. */
  lemma {:induction false} ResolveIdsAppend(a: seq<string>, b: seq<string>, items: seq<LookupItem>)
    ensures ResolveIds(a + b, items) == ResolveIds(a, items) + ResolveIds(b, items)
  {
    if a == [] {
      assert a + b == b;
    } else {
      var c := a + b;
      assert c[0] == a[0];
      assert c[1..] == a[1..] + b;
      calc {
        ResolveIds(c, items);
        TokenIds(a[0], items) + ResolveIds(a[1..] + b, items);
        { ResolveIdsAppend(a[1..], b, items); }
        TokenIds(a[0], items) + (ResolveIds(a[1..], items) + ResolveIds(b, items));
        ResolveIds(a, items) + ResolveIds(b, items);
      }
    }
  }

  /** The tokens of a comma-separated cell: `value.split(",").map(v => v.trim())`. */
  function Tokens(s: string): (r: seq<string>)
    ensures |r| == |Split(s)| >= 1
  {
    TrimAll(Split(s))
  }

  /** What one mapping entry writes into the item: `None` when it writes
      nothing, else the key and the value. */
  function EntryWrite(m: ColumnMapping, row: Row, fields: seq<FieldMeta>, lookups: LookupCache): Option<(string, Wire)>
  {
    if m.listField == "" then None
    else match FieldNamed(fields, m.listField)
      case None => None
      case Some(f) =>
        var value := CellValue(row, m.fileColumn);
        match KindOf(f.typeAsString)
        case LookupField =>
          var items := LookupItems(lookups, f.internalName);
          if f.allowMultipleValues then
            var ids := if value.Str? then ResolveIds(Tokens(value.s), items) else [];
            if |ids| > 0 then Some((f.internalName + "Id", Ids(ids))) else None
          else
            (match FindByTitle(items, JsString(value))
             case Some(it) => Some((f.internalName + "Id", Ids([it.id])))
             case None => None)
        case ChoiceOrText => Some((f.internalName, Scalar(if Truthy(value) then value else Str(""))))
        case MultiChoice =>
          if value.Str? && Trim(value.s) != "" then Some((f.internalName, Results(Tokens(value.s)))) else None
        case PassThrough => Some((f.internalName, Scalar(value)))
  }

  function Writes(row: Row, mapping: seq<ColumnMapping>, fields: seq<FieldMeta>, lookups: LookupCache): (ws: seq<Option<(string, Wire)>>)
    ensures |ws| == |mapping|
  {
    seq(|mapping|, j requires 0 <= j < |mapping| => EntryWrite(mapping[j], row, fields, lookups))
  }

  /** Write `j` is what mapping entry `j` writes. */
  lemma WritesAt(row: Row, mapping: seq<ColumnMapping>, fields: seq<FieldMeta>, lookups: LookupCache)
    ensures forall j :: 0 <= j < |mapping| ==>
      Writes(row, mapping, fields, lookups)[j] == EntryWrite(mapping[j], row, fields, lookups)
  {
  }

  /** The item `createItemPayload` returns for `row`. */
  function PayloadOf(row: Row, mapping: seq<ColumnMapping>, fields: seq<FieldMeta>, lookups: LookupCache): Item
  {
    Assemble(Writes(row, mapping, fields, lookups))
  }

  /** `createItemPayload`: the `for (const map of columnMapping)` loop filling
      `item`. */
  method CreateItemPayload(row: Row, mapping: seq<ColumnMapping>, fields: seq<FieldMeta>, lookups: LookupCache)
    returns (item: Item)
    ensures item == PayloadOf(row, mapping, fields, lookups)
  {
    ghost var ws := Writes(row, mapping, fields, lookups);
    item := map[];
    for i := 0 to |mapping|
      invariant item == Assemble(ws[..i])
    {
      assert ws[..i + 1][..i] == ws[..i];
      assert ws[i] == EntryWrite(mapping[i], row, fields, lookups);
      match EntryWrite(mapping[i], row, fields, lookups)
      case None =>
      case Some(w) => item := item[w.0 := w.1];
    }
    assert ws[..|mapping|] == ws;
  }

  /** A key is in the item exactly when some mapping entry writes it, and it
      holds what the last entry writing it wrote. */
  lemma PayloadSpec(row: Row, mapping: seq<ColumnMapping>, fields: seq<FieldMeta>, lookups: LookupCache, k: string)
    ensures k in PayloadOf(row, mapping, fields, lookups) <==>
      exists j :: 0 <= j < |mapping| && EntryWrite(mapping[j], row, fields, lookups).Some?
        && EntryWrite(mapping[j], row, fields, lookups).value.0 == k
    ensures forall j :: (0 <= j < |mapping| && EntryWrite(mapping[j], row, fields, lookups).Some?
                         && EntryWrite(mapping[j], row, fields, lookups).value.0 == k
                         && (forall j' :: j < j' < |mapping| && EntryWrite(mapping[j'], row, fields, lookups).Some?
                               ==> EntryWrite(mapping[j'], row, fields, lookups).value.0 != k))
                         ==> k in PayloadOf(row, mapping, fields, lookups)
                             && PayloadOf(row, mapping, fields, lookups)[k] == EntryWrite(mapping[j], row, fields, lookups).value.1
  {
    var ws := Writes(row, mapping, fields, lookups);
    WritesAt(row, mapping, fields, lookups);
    AssembleKeys(ws, k);
    forall j | 0 <= j < |mapping| && ws[j].Some? && ws[j].value.0 == k
        && (forall j' :: j < j' < |mapping| && ws[j'].Some? ==> ws[j'].value.0 != k)
      ensures k in Assemble(ws) && Assemble(ws)[k] == ws[j].value.1
    {
      AssembleLastWins(ws, j);
    }
  }

  /** Only a mapped entry whose field is in the schema writes, and it writes
      under the field's internal name (plus `Id` for a lookup field). */
  lemma EntryWriteKey(m: ColumnMapping, row: Row, fields: seq<FieldMeta>, lookups: LookupCache)
    ensures m.listField == "" || FieldNamed(fields, m.listField).None? ==> EntryWrite(m, row, fields, lookups).None?
    ensures EntryWrite(m, row, fields, lookups).Some? ==>
      var f := FieldNamed(fields, m.listField).value;
      var key := EntryWrite(m, row, fields, lookups).value.0;
      m.listField != "" && FieldNamed(fields, m.listField).Some?
      && (if IsLookupType(f.typeAsString) then key == m.listField + "Id" else key == m.listField)
  {
  }

  /** Mapping entries without a list field never reach the item: an item whose
      every entry is unmapped is empty. */
  lemma UnmappedEntriesWriteNothing(row: Row, mapping: seq<ColumnMapping>, fields: seq<FieldMeta>, lookups: LookupCache)
    requires forall j :: 0 <= j < |mapping| ==> mapping[j].listField == ""
    ensures PayloadOf(row, mapping, fields, lookups) == map[]
  {
    forall k | k in PayloadOf(row, mapping, fields, lookups)
      ensures false
    {
      PayloadSpec(row, mapping, fields, lookups, k);
    }
  }

  /** A multi-valued lookup is written as `<name>Id` only for a string cell
      with at least one token resolving, and then carries the resolved ids of
      the trimmed tokens. */
  lemma MultiLookupWrite(m: ColumnMapping, row: Row, fields: seq<FieldMeta>, lookups: LookupCache, f: FieldMeta)
    requires m.listField != "" && FieldNamed(fields, m.listField) == Some(f)
    requires IsLookupType(f.typeAsString) && f.allowMultipleValues
    ensures var v := CellValue(row, m.fileColumn);
      var items := LookupItems(lookups, f.internalName);
      EntryWrite(m, row, fields, lookups).Some? <==>
        v.Str? && exists i :: 0 <= i < |Tokens(v.s)| && FindByTitle(items, Tokens(v.s)[i]).Some?
    ensures var v := CellValue(row, m.fileColumn);
      EntryWrite(m, row, fields, lookups).Some? ==>
        EntryWrite(m, row, fields, lookups).value
          == (f.internalName + "Id", Ids(ResolveIds(Tokens(v.s), LookupItems(lookups, f.internalName))))
  {
    var v := CellValue(row, m.fileColumn);
    var items := LookupItems(lookups, f.internalName);
    assert KindOf(f.typeAsString) == LookupField;
    if v.Str? {
      var ids := ResolveIds(Tokens(v.s), items);
      ResolveIdsSpec(Tokens(v.s), items);
      assert EntryWrite(m, row, fields, lookups) == if |ids| > 0 then Some((f.internalName + "Id", Ids(ids))) else None;
    } else {
      assert EntryWrite(m, row, fields, lookups) == None;
    }
  }

  /** A single-valued lookup is written as a one-id list exactly when the
      whole cell text, untrimmed, matches an entry title. */
  lemma SingleLookupWrite(m: ColumnMapping, row: Row, fields: seq<FieldMeta>, lookups: LookupCache, f: FieldMeta)
    requires m.listField != "" && FieldNamed(fields, m.listField) == Some(f)
    requires IsLookupType(f.typeAsString) && !f.allowMultipleValues
    ensures var v := JsString(CellValue(row, m.fileColumn));
      var items := LookupItems(lookups, f.internalName);
      && (EntryWrite(m, row, fields, lookups).Some? <==> exists i :: 0 <= i < |items| && TitleMatches(items[i], v))
      && (EntryWrite(m, row, fields, lookups).Some? ==>
            EntryWrite(m, row, fields, lookups).value == (f.internalName + "Id", Ids([FindByTitle(items, v).value.id])))
    ensures var v := JsString(CellValue(row, m.fileColumn));
      var items := LookupItems(lookups, f.internalName);
      forall i :: 0 <= i < |items| && TitleMatches(items[i], v) && (forall j :: 0 <= j < i ==> !TitleMatches(items[j], v)) ==>
        EntryWrite(m, row, fields, lookups) == Some((f.internalName + "Id", Ids([items[i].id])))
  {
    var v := JsString(CellValue(row, m.fileColumn));
    var items := LookupItems(lookups, f.internalName);
    forall i | 0 <= i < |items| && TitleMatches(items[i], v) && (forall j :: 0 <= j < i ==> !TitleMatches(items[j], v))
      ensures EntryWrite(m, row, fields, lookups) == Some((f.internalName + "Id", Ids([items[i].id])))
    {
      FindByTitleFirst(items, v, i);
    }
  }

  /** An empty lookup cache resolves nothing, for either kind of lookup. */
  lemma EmptyCacheWritesNoLookup(m: ColumnMapping, row: Row, fields: seq<FieldMeta>, lookups: LookupCache, f: FieldMeta)
    requires m.listField != "" && FieldNamed(fields, m.listField) == Some(f)
    requires IsLookupType(f.typeAsString) && LookupItems(lookups, f.internalName) == []
    ensures EntryWrite(m, row, fields, lookups).None?
  {
    var v := CellValue(row, m.fileColumn);
    assert KindOf(f.typeAsString) == LookupField;
    if f.allowMultipleValues && v.Str? {
      ResolveIdsSpec(Tokens(v.s), []);
    }
  }

  /** A Choice or Text field gets the cell when it is truthy and `""`
      otherwise, so it is never null. */
  lemma ChoiceTextWrite(m: ColumnMapping, row: Row, fields: seq<FieldMeta>, lookups: LookupCache, f: FieldMeta)
    requires m.listField != "" && FieldNamed(fields, m.listField) == Some(f)
    requires f.typeAsString == "Choice" || f.typeAsString == "Text"
    ensures EntryWrite(m, row, fields, lookups).Some?
    ensures var w := EntryWrite(m, row, fields, lookups).value;
      var v := CellValue(row, m.fileColumn);
      && w.0 == f.internalName && w.1.Scalar? && w.1.cell != Null
      && (Truthy(v) ==> w.1.cell == v)
      && (!Truthy(v) ==> w.1.cell == Str(""))
  {
  }

  /** A MultiChoice field is written only for a string that is not blank after
      trimming; its results are the trimmed pieces between commas, one per
      piece, empty pieces included. */
  lemma MultiChoiceWrite(m: ColumnMapping, row: Row, fields: seq<FieldMeta>, lookups: LookupCache, f: FieldMeta)
    requires m.listField != "" && FieldNamed(fields, m.listField) == Some(f)
    requires f.typeAsString == "MultiChoice"
    ensures var v := CellValue(row, m.fileColumn);
      EntryWrite(m, row, fields, lookups).Some? <==>
        v.Str? && exists i :: 0 <= i < |v.s| && !IsSpace(v.s[i])
    ensures var v := CellValue(row, m.fileColumn);
      EntryWrite(m, row, fields, lookups).Some? ==>
        var w := EntryWrite(m, row, fields, lookups).value;
        && w.0 == f.internalName && w.1.Results?
        && |w.1.results| == |Split(v.s)|
        && (forall i :: 0 <= i < |w.1.results| ==> w.1.results[i] == Trim(Split(v.s)[i]))
  {
    var v := CellValue(row, m.fileColumn);
    if v.Str? {
      TrimSpec(v.s);
    }
  }

  /** Every other field type gets the cell unchanged (a missing or null cell
      as `""`). */
  lemma PassThroughWrite(m: ColumnMapping, row: Row, fields: seq<FieldMeta>, lookups: LookupCache, f: FieldMeta)
    requires m.listField != "" && FieldNamed(fields, m.listField) == Some(f)
    requires KindOf(f.typeAsString) == PassThrough
    ensures EntryWrite(m, row, fields, lookups) == Some((f.internalName, Scalar(CellValue(row, m.fileColumn))))
  {
  }

  /** Comma-free pieces that are already trimmed come back as the tokens
      of their comma-joined text, empty pieces included. */
  lemma TokensOfJoin(ps: seq<string>)
    requires |ps| >= 1
    requires forall i :: 0 <= i < |ps| ==> ',' !in ps[i] && Trim(ps[i]) == ps[i]
    ensures Tokens(Join(ps)) == ps
  {
    JoinSplit(ps);
  }

  /** A mapping entry that writes `w` under `k` is the whole payload of a
      one-entry mapping. */
  lemma SingleEntryPayload(row: Row, m: ColumnMapping, fields: seq<FieldMeta>, lookups: LookupCache, k: string, w: Wire)
    requires EntryWrite(m, row, fields, lookups) == Some((k, w))
    ensures PayloadOf(row, [m], fields, lookups) == map[k := w]
  {
    var ws := Writes(row, [m], fields, lookups);
    WritesAt(row, [m], fields, lookups);
    assert ws[0] == Some((k, w));
    assert ws[..0] == [];
    assert Assemble(ws) == Assemble(ws[..0])[k := w];
  }

  /** A MultiChoice cell holding text that is not blank is written as its
      tokens. */
  lemma MultiChoiceTokens(m: ColumnMapping, row: Row, fields: seq<FieldMeta>, lookups: LookupCache, f: FieldMeta, t: string)
    requires m.listField != "" && FieldNamed(fields, m.listField) == Some(f)
    requires f.typeAsString == "MultiChoice"
    requires CellValue(row, m.fileColumn) == Str(t) && Trim(t) != ""
    ensures EntryWrite(m, row, fields, lookups) == Some((f.internalName, Results(Tokens(t))))
  {
    assert KindOf(f.typeAsString) == MultiChoice;
  }

  lemma SplitExample(s: string)
    requires s == "A, b,C"
    ensures Split(s) == ["A", " b", "C"]
  {
    Join3("A", " b", "C");
    assert s == "A" + "," + " b" + "," + "C";
    JoinSplit(["A", " b", "C"]);
  }

  lemma TrimExample(s: string)
    requires s == " b"
    ensures Trim(s) == "b"
  {
    TrimLeadingSpace(s);
    assert s[1..] == "b";
    TrimNoOp("b");
  }

  /** A cell that splits into three pieces has their trims as tokens. */
  lemma TokensOf3(s: string, a: string, b: string, c: string)
    requires Split(s) == [a, b, c]
    ensures Tokens(s) == [Trim(a), Trim(b), Trim(c)]
  {
    TrimAll3(a, b, c);
  }

  lemma TrimPiecesExample(s: string)
    requires Split(s) == ["A", " b", "C"]
    ensures Tokens(s) == ["A", "b", "C"]
  {
    TokensOf3(s, "A", " b", "C");
    TrimExample(" b");
    TrimNoOp("A");
    TrimNoOp("C");
  }

  lemma TokensExample(s: string)
    requires s == "A, b,C"
    ensures Tokens(s) == ["A", "b", "C"]
  {
    SplitExample(s);
    TrimPiecesExample(s);
  }

  /** Three tokens of which the middle one matches nothing resolve to the
      ids of the other two, in token order. */
  lemma ResolveSkipsMiddle(a: string, b: string, c: string, items: seq<LookupItem>, x: LookupItem, y: LookupItem)
    requires FindByTitle(items, a) == Some(x)
    requires FindByTitle(items, b) == None
    requires FindByTitle(items, c) == Some(y)
    ensures ResolveIds([a, b, c], items) == [x.id, y.id]
  {
    assert [c][1..] == [];
    assert ResolveIds([c], items) == [y.id];
    assert [b, c][1..] == [c];
    assert ResolveIds([b, c], items) == [y.id];
    assert [a, b, c][1..] == [b, c];
  }

  lemma FindExample(items: seq<LookupItem>)
    requires items == [LookupItem(1, "A"), LookupItem(2, "C")]
    ensures FindByTitle(items, "A") == Some(LookupItem(1, "A"))
    ensures FindByTitle(items, "b") == None
    ensures FindByTitle(items, "C") == Some(LookupItem(2, "C"))
  {
    assert Lower("b") == "b" && Lower("C") == "c" && Lower("A") == "a";
    assert !TitleMatches(items[0], "b") && !TitleMatches(items[1], "b");
    assert !TitleMatches(items[0], "C");
  }

  lemma ResolveExample(items: seq<LookupItem>)
    requires items == [LookupItem(1, "A"), LookupItem(2, "C")]
    ensures ResolveIds(["A", "b", "C"], items) == [1, 2]
  {
    FindExample(items);
    ResolveSkipsMiddle("A", "b", "C", items, LookupItem(1, "A"), LookupItem(2, "C"));
  }

  lemma SplitPiecesExample(s: string)
    requires s == "a,,b"
    ensures Split(s) == ["a", "", "b"]
  {
    Join3("a", "", "b");
    assert s == "a" + "," + "" + "," + "b";
    JoinSplit(["a", "", "b"]);
  }

  lemma TrimEmptyPieceExample(s: string)
    requires Split(s) == ["a", "", "b"]
    ensures Tokens(s) == ["a", "", "b"]
  {
    TokensOf3(s, "a", "", "b");
    TrimNoOp("a");
    TrimNoOp("");
    TrimNoOp("b");
  }

  lemma PiecesExample(s: string)
    requires s == "a,,b"
    ensures Tokens(s) == ["a", "", "b"]
  {
    SplitPiecesExample(s);
    TrimEmptyPieceExample(s);
  }

  lemma ColorsCellExample(row: Row)
    requires row == [Entry("Colors", Str("a,,b"))]
    ensures CellValue(row, "Colors") == Str("a,,b")
    ensures Trim("a,,b") != ""
  {
    TrimNoOp("a,,b");
  }

  lemma MultiChoiceEntryExample(f: FieldMeta, row: Row)
    requires f == FieldMeta("Colors", "Colors", "MultiChoice", false)
    requires row == [Entry("Colors", Str("a,,b"))]
    ensures EntryWrite(ColumnMapping("Colors", "Colors"), row, [f], map[]) == Some(("Colors", Results(["a", "", "b"])))
  {
    assert FieldNamed([f], "Colors") == Some(f);
    ColorsCellExample(row);
    MultiChoiceTokens(ColumnMapping("Colors", "Colors"), row, [f], map[], f, "a,,b");
    PiecesExample("a,,b");
  }

  /** The active MultiChoice branch keeps empty pieces: `"a,,b"` posts
      `["a", "", "b"]`. */
  lemma MultiChoiceKeepsEmptyPieces(f: FieldMeta, row: Row)
    requires f == FieldMeta("Colors", "Colors", "MultiChoice", false)
    requires row == [Entry("Colors", Str("a,,b"))]
    ensures PayloadOf(row, [ColumnMapping("Colors", "Colors")], [f], map[]) == map["Colors" := Results(["a", "", "b"])]
  {
    MultiChoiceEntryExample(f, row);
    SingleEntryPayload(row, ColumnMapping("Colors", "Colors"), [f], map[], "Colors", Results(["a", "", "b"]));
  }
}
