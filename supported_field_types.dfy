/**
 * Which field types the importer can write, the converter registered for
 * each, and the validity test for mapped and merge-key fields
 * (frontend/supportedFieldTypes.ts).
 */
module SupportedFieldTypes {
  import opened JsRuntime
  import opened Schema

  /** The types the importer can write. */
  const SupportedTypes: seq<FieldType> := [
    SingleLineText, Email, Url, MultilineText, Number, Currency, Percent,
    SingleSelect, MultipleSelects, SingleCollaborator, MultipleCollaborators,
    MultipleRecordLinks, Date, DateTime, PhoneNumber, Checkbox, Rating, Duration
  ]

  /** The primary field types of a linked table that a link field may resolve names against. */
  const SupportedTypesForLinkedPrimary: seq<FieldType> := SupportedTypes + [Formula, AutoNumber]

  /** The converter registered for a type: the configuration entry keyed by it. */
  datatype Converter = GenericConverter | RatingConverter | RecordLinkConverter

  /** fieldConfigByType[type]: every supported type, and only those, has an entry. */
  function FieldConfigByType(t: FieldType): (r: Option<Converter>)
    ensures r.Some? <==> t in SupportedTypes
    ensures r == Some(RatingConverter) <==> t == Rating
    ensures r == Some(RecordLinkConverter) <==> t == MultipleRecordLinks
  {
    match t
    case Rating => Some(RatingConverter)
    case MultipleRecordLinks => Some(RecordLinkConverter)
    case Formula | AutoNumber | MultipleAttachments | Barcode | Rollup | Count
       | MultipleLookupValues | CreatedTime | LastModifiedTime | Button => None
    case _ => Some(GenericConverter)
  }

  /** The shared converter: an empty string is null, anything else goes to the SDK. */
  function ConvertGeneric(raw: string, f: Field, fx: Foreign): CellValue {
    if raw != "" then fx.convertString(f, raw) else Null
  }

  /** x is the {name} value a CSV cell c contributes. */
  predicate IsNameRefOf(x: CellValue, c: string) {
    Trim(c) != "" && x == NameRef(Trim(c))
  }

  /** The list of {name} values for the cells of one parsed row: trimmed, blank cells dropped. */
  function LinkNameRefs(cells: seq<string>): (r: seq<CellValue>)
    ensures |r| <= |cells|
  {
    if cells == [] then []
    else (if Trim(cells[0]) != "" then [NameRef(Trim(cells[0]))] else []) + LinkNameRefs(cells[1..])
  }

  /** Every non-blank cell gives its trimmed {name}, and every value is the {name} of a cell. */
  lemma {:induction false} LinkNameRefsContents(cells: seq<string>)
    ensures var r := LinkNameRefs(cells);
            (forall x | x in r :: exists c :: c in cells && IsNameRefOf(x, c))
            && (forall c | c in cells && Trim(c) != "" :: NameRef(Trim(c)) in r)
    decreases |cells|
  {
    if cells != [] {
      LinkNameRefsContents(cells[1..]);
      var rest := LinkNameRefs(cells[1..]);
      var head := if Trim(cells[0]) != "" then [NameRef(Trim(cells[0]))] else [];
      var r := head + rest;
      assert LinkNameRefs(cells) == r;
      forall x | x in r
        ensures exists c :: c in cells && IsNameRefOf(x, c)
      {
        if x in head {
          assert IsNameRefOf(x, cells[0]);
        } else {
          var c :| c in cells[1..] && IsNameRefOf(x, c);
          assert c in cells;
        }
      }
      assert forall c | c in cells :: c == cells[0] || c in cells[1..];
    }
  }

  /** One cell gives its trimmed name, or nothing when it is blank. */
  lemma LinkNameRefsOfCell(c: string)
    ensures LinkNameRefs([c]) == if Trim(c) != "" then [NameRef(Trim(c))] else []
  {
    assert [c][1..] == [];
  }

  /** The names come out in the order of the cells, one per non-blank cell, duplicates included. */
  lemma {:induction false} LinkNameRefsAppend(a: seq<string>, b: seq<string>)
    ensures LinkNameRefs(a + b) == LinkNameRefs(a) + LinkNameRefs(b)
    decreases |a|
  {
    var ab := a + b;
    if a == [] {
      assert ab == b;
    } else {
      assert ab[0] == a[0] && ab[1..] == a[1..] + b;
      LinkNameRefsAppend(a[1..], b);
      var head := if Trim(a[0]) != "" then [NameRef(Trim(a[0]))] else [];
      assert LinkNameRefs(ab) == head + LinkNameRefs(ab[1..]);
      assert LinkNameRefs(a) == head + LinkNameRefs(a[1..]);
      ConcatAssoc(head, LinkNameRefs(a[1..]), LinkNameRefs(b));
    }
  }

  /**
   * The MULTIPLE_RECORD_LINKS converter: line breaks become spaces, the
   * string is parsed as one CSV row, and each cell names a linked record.
   */
  function ConvertRecordLink(raw: string, fx: Foreign): (r: Result<CellValue>)
    ensures var rows := fx.parseRows(ReplaceLineBreaks(raw));
            (r.Err? <==> |rows| != 1)
            && (r.Err? ==> r.error == ParseRowCount(|rows|))
            && (r.Ok? ==> (r.value == Null <==> rows[0] == BlankRow))
            && (r.Ok? && rows[0].Cells? ==> r.value == List(LinkNameRefs(rows[0].cells)))
  {
    var rows := fx.parseRows(ReplaceLineBreaks(raw));
    if |rows| != 1 then Err(ParseRowCount(|rows|))
    else
      match rows[0]
      case BlankRow => Ok(Null)
      case Cells(cells) => Ok(List(LinkNameRefs(cells)))
  }

  /**
   * fieldConfigByType[field.type].convertParsedValueToCellValue(raw, field),
   * a TypeError when the type has no configuration.
   */
  function ConvertParsedValue(raw: string, f: Field, fx: Foreign): (r: Result<CellValue>)
    ensures f.fieldType !in SupportedTypes ==> r == Err(UnsupportedFieldType)
    ensures f.fieldType == MultipleRecordLinks ==> r == ConvertRecordLink(raw, fx)
    ensures f.fieldType in SupportedTypes && f.fieldType != MultipleRecordLinks ==> r.Ok?
    ensures f.fieldType in SupportedTypes && f.fieldType != MultipleRecordLinks && raw == "" ==> r == Ok(Null)
    ensures f.fieldType == Rating && raw == "0" ==> r == Ok(Num(0))
    ensures f.fieldType in SupportedTypes && f.fieldType != MultipleRecordLinks
            && raw != "" && !(f.fieldType == Rating && raw == "0")
            ==> r == Ok(fx.convertString(f, raw))
  {
    match FieldConfigByType(f.fieldType)
    case None => Err(UnsupportedFieldType)
    case Some(GenericConverter) => Ok(ConvertGeneric(raw, f, fx))
    case Some(RatingConverter) => if raw == "0" then Ok(Num(0)) else Ok(ConvertGeneric(raw, f, fx))
    case Some(RecordLinkConverter) => ConvertRecordLink(raw, fx)
  }

  /** A successful conversion of a link cell yields null or a list of {name} values with trimmed, non-blank names. */
  lemma RecordLinkValueShape(raw: string, f: Field, fx: Foreign)
    requires f.fieldType == MultipleRecordLinks
    requires ConvertParsedValue(raw, f, fx).Ok?
    ensures var v := ConvertParsedValue(raw, f, fx).value;
            v == Null
            || (v.List? && forall x | x in v.items :: exists n :: x == NameRef(n) && n != "" && Trim(n) == n)
  {
    var v := ConvertParsedValue(raw, f, fx).value;
    if v.List? {
      LinkNameRefsContents(fx.parseRows(ReplaceLineBreaks(raw))[0].cells);
      forall x | x in v.items
        ensures exists n :: x == NameRef(n) && n != "" && Trim(n) == n
      {
        var c :| c in fx.parseRows(ReplaceLineBreaks(raw))[0].cells && IsNameRefOf(x, c);
        TrimIdempotent(c);
        assert x == NameRef(Trim(c)) && Trim(c) != "" && Trim(Trim(c)) == Trim(c);
      }
    }
  }

  /** Rating zero is the one value the rating converter keeps away from the SDK, which would return null for it. */
  lemma RatingZeroIsNotDelegated(f: Field, fx: Foreign)
    requires f.fieldType == Rating
    ensures ConvertParsedValue("0", f, fx) == Ok(Num(0))
    ensures !IsNullish(ConvertParsedValue("0", f, fx).value)
  {
  }

  /** linkedTablesPrimaryFieldTypesByTableId[linkedTableId] for every link field of the list. */
  function LinkedPrimaryTypes(fields: seq<Field>, base: Base): (r: Result<map<TableId, FieldType>>)
    ensures r.Ok? <==> forall f | f in fields && f.fieldType == MultipleRecordLinks :: f.linkedTableId in base
    ensures r.Ok? ==> r.value.Keys == set f | f in fields && f.fieldType == MultipleRecordLinks :: f.linkedTableId
    ensures r.Ok? ==> forall k | k in r.value :: k in base && r.value[k] == base[k].primaryField.fieldType
    ensures r.Err? ==> r.error.TypeError?
  {
    if fields == [] then Ok(map[])
    else
      var f := fields[0];
      assert forall g | g in fields[1..] :: g in fields;
      assert forall g | g in fields :: g == f || g in fields[1..];
      LinkTableIdsCons(fields);
      if f.fieldType == MultipleRecordLinks && f.linkedTableId !in base then
        Err(TypeError("Cannot read properties of null (reading 'primaryField')"))
      else
        var rest :- LinkedPrimaryTypes(fields[1..], base);
        if f.fieldType == MultipleRecordLinks then
          Ok(rest[f.linkedTableId := base[f.linkedTableId].primaryField.fieldType])
        else Ok(rest)
  }

  /** The linked table ids of a list of fields: those of its first field and of the rest. */
  lemma LinkTableIdsCons(fields: seq<Field>)
    requires fields != []
    ensures (set g | g in fields && g.fieldType == MultipleRecordLinks :: g.linkedTableId)
            == (set g | g in fields[1..] && g.fieldType == MultipleRecordLinks :: g.linkedTableId)
               + (if fields[0].fieldType == MultipleRecordLinks then {fields[0].linkedTableId} else {})
  {
    assert forall g | g in fields[1..] :: g in fields;
    assert forall g | g in fields :: g == fields[0] || g in fields[1..];
  }

  /** getLinkedTablesPrimaryFieldTypesByTableId(table): a TypeError as soon as a link field's table is gone. */
  function GetLinkedTablesPrimaryFieldTypesByTableId(t: Table, base: Base): (r: Result<map<TableId, FieldType>>)
    ensures r.Ok? <==> forall f | f in t.fields && f.fieldType == MultipleRecordLinks :: f.linkedTableId in base
    ensures r.Ok? ==> forall f | f in t.fields && f.fieldType == MultipleRecordLinks ::
                        f.linkedTableId in r.value && r.value[f.linkedTableId] == base[f.linkedTableId].primaryField.fieldType
    ensures r.Ok? ==> forall k | k in r.value :: exists f :: f in t.fields && f.fieldType == MultipleRecordLinks && f.linkedTableId == k
  {
    LinkedPrimaryTypes(t.fields, base)
  }

  /** The validity test once the linked tables' primary field types are known. */
  predicate ValidAgainst(f: Field, linked: map<TableId, FieldType>) {
    if f.fieldType == MultipleRecordLinks then
      f.linkedTableId in linked && linked[f.linkedTableId] in SupportedTypesForLinkedPrimary
    else f.fieldType in SupportedTypes
  }

  /**
   * isFieldValid(field, linkedTablesPrimaryFieldTypesByTableId): a missing
   * field is invalid; the linked types are computed from the field's parent
   * table only when the caller passes none, and that computation can throw.
   */
  function IsFieldValid(field: Option<Field>, parent: Table, linked: Option<map<TableId, FieldType>>, base: Base): (r: Result<bool>)
    ensures field.None? ==> r == Ok(false)
    ensures field.Some? && linked.Some? ==> r == Ok(ValidAgainst(field.value, linked.value))
    ensures field.Some? && linked.None? ==>
              (r.Err? <==> GetLinkedTablesPrimaryFieldTypesByTableId(parent, base).Err?)
              && (r.Ok? ==> r.value == ValidAgainst(field.value, GetLinkedTablesPrimaryFieldTypesByTableId(parent, base).value))
  {
    match field
    case None => Ok(false)
    case Some(f) =>
      var m :- if linked.Some? then Ok(linked.value) else GetLinkedTablesPrimaryFieldTypesByTableId(parent, base);
      Ok(ValidAgainst(f, m))
  }

  /**
   * For a field of the table: a link field is valid exactly when its linked
   * table's primary field has a type names can be resolved against, any
   * other field exactly when its own type is supported.
   */
  lemma {:induction false} FieldValidityIff(t: Table, f: Field, base: Base)
    requires f in t.fields
    requires GetLinkedTablesPrimaryFieldTypesByTableId(t, base).Ok?
    ensures f.fieldType == MultipleRecordLinks ==>
              (IsFieldValid(Some(f), t, None, base) == Ok(true)
               <==> base[f.linkedTableId].primaryField.fieldType in SupportedTypesForLinkedPrimary)
    ensures f.fieldType != MultipleRecordLinks ==>
              (IsFieldValid(Some(f), t, None, base) == Ok(true) <==> f.fieldType in SupportedTypes)
  {
    var m := GetLinkedTablesPrimaryFieldTypesByTableId(t, base).value;
    if f.fieldType == MultipleRecordLinks {
      assert f.linkedTableId in m && m[f.linkedTableId] == base[f.linkedTableId].primaryField.fieldType;
    }
  }

  /** The validity of the field a table reports for an id, computed from that table. */
  function FieldIdValidity(t: Table, base: Base, fid: FieldId): Result<bool> {
    IsFieldValid(GetFieldByIdIfExists(t, fid), t, None, base)
  }

  /** a is b with some elements left out, order kept. */
  predicate IsSubsequence<T(==)>(a: seq<T>, b: seq<T>)
    decreases |b|
  {
    if a == [] then true
    else if b == [] then false
    else if a[0] == b[0] then IsSubsequence(a[1..], b[1..])
    else IsSubsequence(a, b[1..])
  }

  function FilterValidFieldIds(ids: seq<FieldId>, t: Table, base: Base): (r: Result<seq<FieldId>>)
    ensures r.Ok? ==> IsSubsequence(r.value, ids)
    ensures r.Ok? ==> forall x | x in r.value :: x in ids && FieldIdValidity(t, base, x) == Ok(true)
    ensures r.Ok? ==> forall x | x in ids && FieldIdValidity(t, base, x) == Ok(true) :: x in r.value
    ensures r.Err? <==> exists x :: x in ids && FieldIdValidity(t, base, x).Err?
  {
    if ids == [] then Ok([])
    else
      assert forall x | x in ids :: x == ids[0] || x in ids[1..];
      assert forall x | x in ids[1..] :: x in ids;
      var keep :- FieldIdValidity(t, base, ids[0]);
      var rest :- FilterValidFieldIds(ids[1..], t, base);
      Ok(if keep then [ids[0]] + rest else rest)
  }

  /**
   * filterDeletedOrUnsupportedFieldIds(fieldIds, table): the ids, in order,
   * whose field still exists in the table and is valid; no ids give none.
   */
  function FilterDeletedOrUnsupportedFieldIds(ids: Option<seq<FieldId>>, t: Table, base: Base): (r: Result<seq<FieldId>>)
    ensures ids.None? ==> r == Ok([])
    ensures r.Ok? ==> IsSubsequence(r.value, ids.GetOr([]))
    ensures r.Ok? ==> forall x :: x in r.value <==> x in ids.GetOr([]) && FieldIdValidity(t, base, x) == Ok(true)
    ensures r.Err? ==> exists x :: x in ids.GetOr([]) && IsFieldOf(t, x)
  {
    var r := FilterValidFieldIds(ids.GetOr([]), t, base);
    assert r.Err? ==> exists x :: x in ids.GetOr([]) && IsFieldOf(t, x) by {
      if r.Err? {
        var x :| x in ids.GetOr([]) && FieldIdValidity(t, base, x).Err?;
        assert IsFieldOf(t, x);
      }
    }
    r
  }

  /** Filtering an already filtered list changes nothing. */
  lemma {:induction false} FilterValidFieldIdsIdempotent(ids: seq<FieldId>, t: Table, base: Base)
    requires FilterValidFieldIds(ids, t, base).Ok?
    ensures var kept := FilterValidFieldIds(ids, t, base).value;
            FilterValidFieldIds(kept, t, base) == Ok(kept)
  {
    if ids != [] {
      FilterValidFieldIdsIdempotent(ids[1..], t, base);
    }
  }

  lemma FilterDeletedOrUnsupportedFieldIdsIdempotent(ids: Option<seq<FieldId>>, t: Table, base: Base)
    requires FilterDeletedOrUnsupportedFieldIds(ids, t, base).Ok?
    ensures var kept := FilterDeletedOrUnsupportedFieldIds(ids, t, base).value;
            FilterDeletedOrUnsupportedFieldIds(Some(kept), t, base) == Ok(kept)
  {
    FilterValidFieldIdsIdempotent(ids.GetOr([]), t, base);
  }
}
