/**
 * The base the importer writes into, as the importer sees it: tables with
 * typed fields, records with cell values, and the cell value shapes the
 * Airtable SDK exchanges with it.
 */
module Schema {
  import opened JsRuntime

  type FieldId = string
  type TableId = string
  type RecordId = string

  /** Airtable field types; the last group is never a target of the importer. */
  datatype FieldType =
    | SingleLineText | Email | Url | MultilineText | Number | Currency | Percent
    | SingleSelect | MultipleSelects | SingleCollaborator | MultipleCollaborators
    | MultipleRecordLinks | Date | DateTime | PhoneNumber | Checkbox | Rating | Duration
    | Formula | AutoNumber
    | MultipleAttachments | Barcode | Rollup | Count | MultipleLookupValues
    | CreatedTime | LastModifiedTime | Button

  /**
   * A JavaScript value held in, read from or written to a cell. Objects
   * are maps from property names to values ({name}, {id}, {id, name}).
   */
  datatype CellValue =
    | Null
    | Undefined
    | Str(s: string)
    | Num(n: int)
    | Bool(b: bool)
    | List(items: seq<CellValue>)
    | Obj(props: map<string, CellValue>)

  datatype Field = Field(
    id: FieldId,
    name: string,
    fieldType: FieldType,
    linkedTableId: TableId,  // meaningful for MultipleRecordLinks fields only
    isComputed: bool)

  datatype Table = Table(id: TableId, fields: seq<Field>, primaryField: Field)

  datatype Record = Record(id: RecordId, cells: map<FieldId, CellValue>, primaryText: string)

  /** A base: the tables that exist, by id. */
  type Base = map<TableId, Table>

  /** Cell values by field id, as passed to createRecordsAsync / updateRecordsAsync. */
  type RecordDef = map<FieldId, CellValue>

  /** One row as the CSV parser returns it: an empty input gives a blank row. */
  datatype ParsedRow = BlankRow | Cells(cells: seq<string>)

  /**
   * Code outside the importer: the SDK's string-to-cell conversion for a
   * field, and the CSV parser used on linked-record cells.
   */
  datatype Foreign = Foreign(
    convertString: (Field, string) -> CellValue,
    parseRows: string -> seq<ParsedRow>)

  function NameRef(name: string): CellValue { Obj(map["name" := Str(name)]) }

  function IdRef(id: RecordId): CellValue { Obj(map["id" := Str(id)]) }

  predicate IsNullish(v: CellValue) { v.Null? || v.Undefined? }

  predicate IsFalsy(v: CellValue) {
    v.Null? || v.Undefined? || v == Bool(false) || v == Num(0) || v == Str("")
  }

  predicate IsPrimitive(v: CellValue) { !v.List? && !v.Obj? }

  /** lodash isEmpty: true for nullish values, numbers and booleans, and for empty strings, arrays and objects. */
  predicate IsLodashEmpty(v: CellValue) {
    match v
    case Str(s) => s == ""
    case List(xs) => xs == []
    case Obj(p) => p == map[]
    case _ => true
  }

  /** record.getCellValue(fieldId); an absent cell reads as null. */
  function GetCellValue(r: Record, fid: FieldId): CellValue {
    if fid in r.cells then r.cells[fid] else Null
  }

  /** def[fieldId] on a plain object; absent keys read as undefined. */
  function Get(d: RecordDef, fid: FieldId): CellValue {
    if fid in d then d[fid] else Undefined
  }

  /** v[key]: a TypeError on null and undefined, undefined when an object lacks the key. */
  function Prop(v: CellValue, key: string): (r: Result<CellValue>)
    ensures r.Err? <==> IsNullish(v)
    ensures r.Ok? && !r.value.Undefined? ==> v.Obj? && key in v.props && r.value == v.props[key]
  {
    match v
    case Null => Err(TypeError("Cannot read properties of null"))
    case Undefined => Err(TypeError("Cannot read properties of undefined"))
    case Obj(p) => Ok(if key in p then p[key] else Undefined)
    case _ => Ok(Undefined)
  }

  /** String(v). */
  function JsToString(v: CellValue): string
    decreases v, 1
  {
    match v
    case Null => "null"
    case Undefined => "undefined"
    case Str(s) => s
    case Num(n) => IntToString(n)
    case Bool(b) => if b then "true" else "false"
    case List(xs) => JoinElements(xs)
    case Obj(_) => "[object Object]"
  }

  /** Array.prototype.join(','), which prints null and undefined elements as empty strings. */
  function JoinElements(xs: seq<CellValue>): string
    decreases xs, 0
  {
    if xs == [] then ""
    else
      (if IsNullish(xs[0]) then "" else JsToString(xs[0]))
      + (if |xs| > 1 then "," + JoinElements(xs[1..]) else "")
  }

  /** table.getFieldByIdIfExists(id): the first field with that id. */
  function GetFieldByIdIfExists(t: Table, fid: FieldId): (r: Option<Field>)
    ensures r.Some? <==> exists i :: 0 <= i < |t.fields| && t.fields[i].id == fid
    ensures r.Some? ==> r.value.id == fid && r.value in t.fields
  {
    FirstFieldWithId(t.fields, fid)
  }

  function FirstFieldWithId(fields: seq<Field>, fid: FieldId): (r: Option<Field>)
    ensures r.Some? <==> exists i :: 0 <= i < |fields| && fields[i].id == fid
    ensures r.Some? ==> r.value.id == fid && r.value in fields
  {
    if fields == [] then None
    else if fields[0].id == fid then Some(fields[0])
    else
      var r := FirstFieldWithId(fields[1..], fid);
      assert forall i :: 1 <= i < |fields| ==> fields[i] == fields[1..][i - 1];
      r
  }

  predicate IsFieldOf(t: Table, fid: FieldId) {
    exists i :: 0 <= i < |t.fields| && t.fields[i].id == fid
  }

  /** No two fields of the table share an id, as in every table the SDK hands out. */
  predicate DistinctFieldIds(fields: seq<Field>) {
    forall i, j :: 0 <= i < j < |fields| ==> fields[i].id != fields[j].id
  }
}
