/** The target list's field schema and the cached entries of the lists its
    lookup fields refer to, as fetched before the upload. */
module Schema {
  import opened Wrappers
  import opened Seqs
  import opened JsText

  /** One field of the target list (`Title`, `InternalName`, `TypeAsString`,
      `AllowMultipleValues`; an absent flag reads as false). */
  datatype FieldMeta = FieldMeta(title: string, internalName: string, typeAsString: string, allowMultipleValues: bool)

  /** One entry of a referenced list. */
  datatype LookupItem = LookupItem(id: int, title: string)

  /** The cached entries per lookup field, keyed by the field's internal name. */
  type LookupCache = map<string, seq<LookupItem>>

  /** `listFields.find(f => f.InternalName === name)`. */
  function FieldNamed(fields: seq<FieldMeta>, name: string): (r: Option<FieldMeta>)
    ensures r.Some? ==> r.value in fields && r.value.internalName == name
    ensures r.None? <==> forall i :: 0 <= i < |fields| ==> fields[i].internalName != name
  {
    Find(fields, (f: FieldMeta) => f.internalName == name)
  }

  /** `lookupValues[name] || []`. */
  function LookupItems(cache: LookupCache, name: string): seq<LookupItem>
  {
    if name in cache then cache[name] else []
  }

  predicate IsLookupType(t: string)
  {
    t == "Lookup" || t == "LookupMulti"
  }

  /** Case-insensitive title equality, as both sides' `toLowerCase()` compare. */
  predicate TitleMatches(item: LookupItem, v: string)
  {
    Lower(item.title) == Lower(v)
  }

  /** `items.find(li => li.Title.toLowerCase() === v.toLowerCase())`. */
  function FindByTitle(items: seq<LookupItem>, v: string): (r: Option<LookupItem>)
    ensures r.Some? ==> r.value in items && TitleMatches(r.value, v)
    ensures r.None? <==> forall i :: 0 <= i < |items| ==> !TitleMatches(items[i], v)
  {
    Find(items, (it: LookupItem) => TitleMatches(it, v))
  }

  /** Of several entries with a matching title, the first one is found. */
  lemma FindByTitleFirst(items: seq<LookupItem>, v: string, i: nat)
    requires i < |items| && TitleMatches(items[i], v)
    requires forall j :: 0 <= j < i ==> !TitleMatches(items[j], v)
    ensures FindByTitle(items, v) == Some(items[i])
  {
    FindFirst(items, (it: LookupItem) => TitleMatches(it, v), i);
  }
}
