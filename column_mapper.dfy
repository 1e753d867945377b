/** Automatic column mapping of the column-aware bulk upload: each file
    column is paired with the first list field whose title or internal name
    matches it once whitespace and case are ignored. */
module ColumnMapper {
  import opened Wrappers
  import opened Seqs
  import opened JsText
  import opened Records
  import opened Schema

  /** `normalizeName`: the name without whitespace, in lower case. */
  function NormalizeName(s: string): string
  {
    Lower(RemoveSpaces(s))
  }

  /** Normalised names hold no whitespace and no upper-case letter, they are
      exactly the strings normalisation leaves alone, and so normalising twice
      is normalising once. */
  lemma NormalizeNameSpec(s: string)
    ensures NoSpace(NormalizeName(s)) && NoUpper(NormalizeName(s))
    ensures NormalizeName(s) == s <==> NoSpace(s) && NoUpper(s)
    ensures NormalizeName(NormalizeName(s)) == NormalizeName(s)
  {
    var n := NormalizeName(s);
    RemoveSpacesNoOp(n);
    if NoSpace(s) && NoUpper(s) {
      RemoveSpacesNoOp(s);
    }
  }

  /** The auto-map test: normalised title or normalised internal name equals
      the normalised column. */
  predicate FieldMatches(f: FieldMeta, normalizedColumn: string)
  {
    NormalizeName(f.title) == normalizedColumn || NormalizeName(f.internalName) == normalizedColumn
  }

  /** `match ? match.InternalName : ""` for one file column. */
  function MatchFor(fields: seq<FieldMeta>, column: string): string
  {
    match Find(fields, (f: FieldMeta) => FieldMatches(f, NormalizeName(column)))
    case None => ""
    case Some(f) => f.internalName
  }

  /** The first matching field wins; with no matching field the column stays
      unmapped. */
  lemma MatchForSpec(fields: seq<FieldMeta>, column: string)
    ensures (forall j :: 0 <= j < |fields| ==> !FieldMatches(fields[j], NormalizeName(column)))
      ==> MatchFor(fields, column) == ""
    ensures forall j :: (0 <= j < |fields| && FieldMatches(fields[j], NormalizeName(column))
                         && (forall j' :: 0 <= j' < j ==> !FieldMatches(fields[j'], NormalizeName(column))))
                         ==> MatchFor(fields, column) == fields[j].internalName
  {
    var p := (f: FieldMeta) => FieldMatches(f, NormalizeName(column));
    var r := FirstIndex(fields, p);
    forall j | 0 <= j < |fields| && FieldMatches(fields[j], NormalizeName(column))
      && (forall j' :: 0 <= j' < j ==> !FieldMatches(fields[j'], NormalizeName(column)))
      ensures MatchFor(fields, column) == fields[j].internalName
    {
      assert p(fields[j]);
      assert r.Some?;
    }
  }

  /** The auto-map effect: `None` when it returns early because either input
      is empty (the mapping state is then left as it was). */
  function AutoMap(fileColumns: seq<string>, listFields: seq<FieldMeta>): Option<seq<ColumnMapping>>
  {
    if |fileColumns| == 0 || |listFields| == 0 then None
    else Some(seq(|fileColumns|, i requires 0 <= i < |fileColumns| =>
      ColumnMapping(fileColumns[i], MatchFor(listFields, fileColumns[i]))))
  }

  /** Auto-mapping yields one entry per file column, in order, keeping the
      column, and maps it to the first list field that matches it, or
      leaves it unmapped when none does; it yields nothing when either input
      is empty. */
  lemma AutoMapSpec(fileColumns: seq<string>, listFields: seq<FieldMeta>)
    ensures AutoMap(fileColumns, listFields).None? <==> |fileColumns| == 0 || |listFields| == 0
    ensures AutoMap(fileColumns, listFields).Some? ==>
      var m := AutoMap(fileColumns, listFields).value;
      && |m| == |fileColumns|
      && (forall i :: 0 <= i < |m| ==> m[i].fileColumn == fileColumns[i])
      && (forall i :: 0 <= i < |m| && (forall j :: 0 <= j < |listFields| ==> !FieldMatches(listFields[j], NormalizeName(fileColumns[i])))
            ==> m[i].listField == "")
      && (forall i, j :: 0 <= i < |m| && 0 <= j < |listFields| && FieldMatches(listFields[j], NormalizeName(fileColumns[i]))
            && (forall j' :: 0 <= j' < j ==> !FieldMatches(listFields[j'], NormalizeName(fileColumns[i])))
            ==> m[i].listField == listFields[j].internalName)
  {
    forall i | 0 <= i < |fileColumns| {
      MatchForSpec(listFields, fileColumns[i]);
    }
  }
}
