/**
 * The review screen of the JSON importer: its initial state, the rules it
 * applies when the table, the field mappings or the merge key change, the
 * validation before an import, the guard against stale data diffs, and
 * the import itself (json_import/frontend/ParsedDataReview.tsx, with the
 * getters of json_import/frontend/SettingsStore.ts it reads).
 */
module ParsedDataReview {
  import opened JsRuntime
  import opened Schema
  import opened SupportedFieldTypes
  import opened Projection
  import opened DataDiff
  import RecordWriter

  /** The most records a table may hold. */
  const MaxRowsPerTable: int := 50000

  datatype Status = Review | FailedToMapValues | CreatingRecords | Success

  /** One row of parsed data: the values of its columns. */
  type Row = seq<string>

  // ------------------------------------------------------------ settings

  /** What the importer stored in the block's global config. */
  datatype Settings = Settings(
    fieldMappingsByTableId: map<TableId, FieldMappings>,
    mergeFieldIdsByTableId: map<TableId, seq<FieldId>>,
    storedShouldMergeDuplicates: Option<bool>,
    storedIsFirstLineHeaders: Option<bool>)

  function TableById(base: Base, tid: TableId): Option<Table> {
    if tid in base then Some(base[tid]) else None
  }

  /**
   * filterDeletedOrUnsupportedFieldIds on a table that may be missing:
   * with no ids the table is never read, otherwise a missing table throws.
   */
  function FilterIds(ids: seq<FieldId>, t: Option<Table>, base: Base): (r: Result<seq<FieldId>>)
    ensures ids == [] ==> r == Ok([])
    ensures ids != [] && t.None? ==> r.Err?
    ensures r.Ok? ==> IsSubsequence(r.value, ids)
    ensures r.Ok? && t.Some? ==> forall x :: x in r.value <==> x in ids && FieldIdValidity(t.value, base, x) == Ok(true)
  {
    if ids == [] then Ok([])
    else if t.None? then Err(TypeError("Cannot read properties of null (reading 'getFieldByIdIfExists')"))
    else FilterDeletedOrUnsupportedFieldIds(Some(ids), t.value, base)
  }

  /** Some key's validity check throws. */
  predicate SomeValidityThrows(fm: FieldMappings, t: Table, base: Base) {
    exists k | k in fm :: FieldIdValidity(t, base, k).Err?
  }

  /**
   * _.pick(fieldMappings, filterDeletedOrUnsupportedFieldIds(_.keys(fieldMappings), table)):
   * the mappings of the fields that still exist and are valid.
   */
  function ValidMappings(fm: FieldMappings, t: Option<Table>, base: Base): (r: Result<FieldMappings>)
    ensures fm == map[] ==> r == Ok(map[])
    ensures r.Ok? ==> r.value.Keys <= fm.Keys && forall k | k in r.value :: r.value[k] == fm[k]
    ensures r.Ok? && t.Some? ==> forall k | k in fm :: k in r.value <==> FieldIdValidity(t.value, base, k) == Ok(true)
  {
    if fm == map[] then Ok(map[])
    else if t.None? then Err(TypeError("Cannot read properties of null (reading 'getFieldByIdIfExists')"))
    else if SomeValidityThrows(fm, t.value, base) then Err(GetLinkedTablesPrimaryFieldTypesByTableId(t.value, base).error)
    else Ok(map k | k in fm && FieldIdValidity(t.value, base, k) == Ok(true) :: fm[k])
  }

  /** _.pick(fm, ids). */
  function Pick(fm: FieldMappings, ids: seq<FieldId>): FieldMappings {
    map k | k in fm && k in ids :: fm[k]
  }

  /** A validity check that throws throws the linked-type lookup's error, whatever the field. */
  lemma ValidityErrorIsTheLookupError(t: Table, base: Base, k: FieldId)
    requires FieldIdValidity(t, base, k).Err?
    ensures GetLinkedTablesPrimaryFieldTypesByTableId(t, base).Err?
    ensures FieldIdValidity(t, base, k).error == GetLinkedTablesPrimaryFieldTypesByTableId(t, base).error
  {
  }

  /**
   * Filtering the keys in whatever order they are enumerated and picking
   * the survivors is ValidMappings, and both fail together.
   */
  lemma PickAgreesWithFilter(fm: FieldMappings, ids: seq<FieldId>, t: Option<Table>, base: Base)
    requires forall k :: k in ids <==> k in fm
    ensures FilterIds(ids, t, base).Ok? <==> ValidMappings(fm, t, base).Ok?
    ensures FilterIds(ids, t, base).Ok? ==> Pick(fm, FilterIds(ids, t, base).value) == ValidMappings(fm, t, base).value
  {
    if ids == [] {
      assert fm == map[];
    } else if t.Some? {
      var k0 := ids[0];
      assert k0 in fm;
      var f := FilterIds(ids, t, base);
      if f.Err? {
        assert exists x :: x in ids && FieldIdValidity(t.value, base, x).Err?;
        assert SomeValidityThrows(fm, t.value, base);
      } else {
        assert FilterValidFieldIds(ids, t.value, base).Ok?;
        assert forall k | k in fm :: k in ids;
      }
    } else {
      assert ids[0] in fm;
    }
  }

  /** Picking the valid mappings of valid mappings changes nothing. */
  lemma ValidMappingsIdempotent(fm: FieldMappings, t: Option<Table>, base: Base)
    requires ValidMappings(fm, t, base).Ok?
    ensures ValidMappings(ValidMappings(fm, t, base).value, t, base) == ValidMappings(fm, t, base)
  {
    var v := ValidMappings(fm, t, base).value;
    if v != map[] && t.Some? {
      assert fm != map[];
      forall k | k in v
        ensures FieldIdValidity(t.value, base, k) == Ok(true)
      {
        assert k in fm;
      }
      assert !SomeValidityThrows(v, t.value, base);
      var w := ValidMappings(v, t, base).value;
      forall k | k in v
        ensures k in w && w[k] == v[k]
      {
      }
      assert w.Keys == v.Keys;
      assert w == v;
    }
  }

  /** SettingsStore.getFieldMappingsForTableId. */
  function StoredFieldMappings(s: Settings, tid: TableId, base: Base): Result<FieldMappings> {
    ValidMappings(if tid in s.fieldMappingsByTableId then s.fieldMappingsByTableId[tid] else map[], TableById(base, tid), base)
  }

  /** SettingsStore.getMergeFieldIdsForTableId. */
  function StoredMergeFieldIds(s: Settings, tid: TableId, base: Base): Result<seq<FieldId>> {
    FilterIds(if tid in s.mergeFieldIdsByTableId then s.mergeFieldIdsByTableId[tid] else [], TableById(base, tid), base)
  }

  /** The isFirstLineHeaders getter: the stored value or true, which is true whatever is stored. */
  function StoredIsFirstLineHeaders(s: Settings): (r: bool)
    ensures r
  {
    match s.storedIsFirstLineHeaders
    case Some(true) => true
    case _ => true
  }

  /** The shouldMergeDuplicates getter: the stored value or false. */
  function StoredShouldMergeDuplicates(s: Settings): bool {
    s.storedShouldMergeDuplicates == Some(true)
  }

  // ------------------------------------------------------ records and headers

  /** The default header names: Column 1, Column 2, ... */
  function ColumnNames(n: nat): (r: seq<string>)
    ensures |r| == n
  {
    seq(n, i requires 0 <= i < n => "Column " + NatToString(i + 1))
  }

  /** The default headers name each column differently. */
  lemma ColumnNamesDistinct(n: nat)
    ensures forall i, j :: 0 <= i < j < n ==> ColumnNames(n)[i] != ColumnNames(n)[j]
  {
    forall i, j | 0 <= i < j < n
      ensures ColumnNames(n)[i] != ColumnNames(n)[j]
    {
      var a := NatToString(i + 1);
      var b := NatToString(j + 1);
      if "Column " + a == "Column " + b {
        assert a == ("Column " + a)[7..] == ("Column " + b)[7..] == b;
        NatToStringInjective(i + 1, j + 1);
      }
    }
  }

  /**
   * _getDefaultHeaders, which reads the data held in the component's state:
   * no state or no data throws, and so does empty data.
   */
  function DefaultHeaders(stateData: Option<seq<Row>>): (r: Result<seq<string>>)
    ensures r.Ok? <==> stateData.Some? && stateData.value != []
    ensures r.Ok? ==> r.value == ColumnNames(|stateData.value[0]|)
  {
    match stateData
    case None => Err(TypeError("Cannot destructure property 'parsedData' of undefined"))
    case Some(data) =>
      if data == [] then Err(TypeError("Cannot read properties of undefined (reading 'length')"))
      else Ok(ColumnNames(|data[0]|))
  }

  /** The records to import and the headers shown for them. */
  datatype ParsedRows = ParsedRows(records: seq<Row>, headers: Option<seq<string>>)

  /**
   * _getParsedRecordsAndParsedHeaders: with a header line the first row is
   * the headers and the rest the records; without one every row is a
   * record and the default headers come from the state's data.
   */
  function ParsedRecordsAndHeaders(data: seq<Row>, isFirstLineHeaders: bool, stateData: Option<seq<Row>>): (r: Result<ParsedRows>)
    ensures isFirstLineHeaders ==> r.Ok?
    ensures r.Ok? && isFirstLineHeaders ==>
              if data == [] then r.value == ParsedRows([], None)
              else r.value.headers.Some? && [r.value.headers.value] + r.value.records == data
    ensures r.Ok? && !isFirstLineHeaders ==> r.value.records == data && r.value.headers.Some?
    ensures !isFirstLineHeaders ==> (r.Ok? <==> DefaultHeaders(stateData).Ok?)
  {
    if isFirstLineHeaders then
      if data == [] then Ok(ParsedRows([], None))
      else
        assert [data[0]] + data[1..] == data;
        Ok(ParsedRows(data[1..], Some(data[0])))
    else
      var headers :- DefaultHeaders(stateData);
      Ok(ParsedRows(data, Some(headers)))
  }

  // ------------------------------------------------------------- the state

  /** this.state of the component; fields the early return leaves undefined hold their empty value. */
  datatype ReviewState = ReviewState(
    status: Status,
    parsedData: Option<seq<Row>>,
    fieldMappings: FieldMappings,
    parsedRecords: seq<Row>,
    parsedHeaders: Option<seq<string>>,
    isFirstLineHeaders: bool,
    shouldMergeDuplicates: bool,
    fieldIdsForMerging: seq<FieldId>,
    dataDiff: Option<Diff>,
    isDataDiffReady: bool,
    queryLoaded: bool)

  /** Every stored mapping's column exists in the first line (a null column always qualifies). */
  predicate IsUsingStoredConfig(fm: FieldMappings, firstLine: Row) {
    forall k | k in fm :: fm[k].parsedIndex.None? || 0 <= fm[k].parsedIndex.value < |firstLine|
  }

  /** Header-matched mappings added for the fields the stored mappings leave out. */
  function MergeMatched(stored: FieldMappings, matched: FieldMappings): (r: FieldMappings)
    ensures r.Keys == stored.Keys + matched.Keys
    ensures forall k | k in stored :: r[k] == stored[k]
    ensures forall k | k in matched && k !in stored :: r[k] == matched[k]
  {
    matched + stored
  }

  function FirstLine(data: seq<Row>): Row {
    if data == [] then [] else data[0]
  }

  /**
   * _getIcState, with the default headers read from stateData: the
   * constructor calls it before this.state exists.
   */
  function IcStateWith(data: Option<seq<Row>>, s: Settings, table: Table, base: Base, stateData: Option<seq<Row>>): Result<ReviewState> {
    if data.None? || data.value == [] then
      var fm :- StoredFieldMappings(s, table.id, base);
      Ok(ReviewState(Review, None, fm, [], None, true, false, [], None, false, false))
    else
      var firstLine := data.value[0];
      var stored :- StoredFieldMappings(s, table.id, base);
      var usingStored := IsUsingStoredConfig(stored, firstLine);
      var mergeIds :- StoredMergeFieldIds(s, table.id, base);
      var matched := MatchingHeaderMappings(table.fields, firstLine);
      var fm := if |matched| > 0 then MergeMatched(stored, matched) else stored;
      var firstLineHeaders := if |matched| > 0 then true else if usingStored then StoredIsFirstLineHeaders(s) else false;
      var rows :- ParsedRecordsAndHeaders(data.value, firstLineHeaders, stateData);
      Ok(ReviewState(Review, data, fm, rows.records, rows.headers, firstLineHeaders,
                     StoredShouldMergeDuplicates(s), mergeIds, None, false, false))
  }

  /** _getIcState as the constructor runs it: this.state is still undefined. */
  function IcStateAsWritten(data: Option<seq<Row>>, s: Settings, table: Table, base: Base): Result<ReviewState> {
    IcStateWith(data, s, table, base, None)
  }

  /** _getIcState with the default headers taken from the data being loaded. */
  function IcState(data: Option<seq<Row>>, s: Settings, table: Table, base: Base): Result<ReviewState> {
    IcStateWith(data, s, table, base, data)
  }

  /** The initial state fails only when the stored settings cannot be read. */
  lemma IcStateFails(data: seq<Row>, s: Settings, table: Table, base: Base)
    requires data != []
    ensures IcState(Some(data), s, table, base).Err?
            <==> StoredFieldMappings(s, table.id, base).Err? || StoredMergeFieldIds(s, table.id, base).Err?
  {
  }

  /**
   * The first line is taken as headers exactly when a header names a field
   * or every stored mapping's column exists in it (the stored flag reads as
   * true whatever was stored); stored mappings win over header matches.
   */
  lemma IcStateShape(data: seq<Row>, s: Settings, table: Table, base: Base)
    requires data != [] && IcState(Some(data), s, table, base).Ok?
    ensures var r := IcState(Some(data), s, table, base).value;
            var matched := MatchingHeaderMappings(table.fields, data[0]);
            var stored := StoredFieldMappings(s, table.id, base).value;
            StoredFieldMappings(s, table.id, base).Ok? && StoredMergeFieldIds(s, table.id, base).Ok?
            && r.isFirstLineHeaders == (|matched| > 0 || IsUsingStoredConfig(stored, data[0]))
            && r.fieldMappings.Keys == stored.Keys + matched.Keys
            && (forall k | k in stored :: r.fieldMappings[k] == stored[k])
            && r.fieldIdsForMerging == StoredMergeFieldIds(s, table.id, base).value
            && r.dataDiff.None? && !r.isDataDiffReady
  {
    var r := IcState(Some(data), s, table, base).value;
    var sm := StoredFieldMappings(s, table.id, base);
    var mi := StoredMergeFieldIds(s, table.id, base);
    assert sm.Ok? && mi.Ok?;
    var stored := sm.value;
    var matched := MatchingHeaderMappings(table.fields, data[0]);
    var fm := if |matched| > 0 then MergeMatched(stored, matched) else stored;
    assert r.fieldMappings == fm && r.fieldIdsForMerging == mi.value;
    assert r.isFirstLineHeaders == (|matched| > 0 || IsUsingStoredConfig(stored, data[0]));
    if |matched| == 0 {
      assert matched.Keys == {};
    }
  }

  /** A header line is split off the data; otherwise every line is a record under default column names. */
  lemma IcStateRows(data: seq<Row>, s: Settings, table: Table, base: Base)
    requires data != [] && IcState(Some(data), s, table, base).Ok?
    ensures var r := IcState(Some(data), s, table, base).value;
            (r.isFirstLineHeaders ==> r.parsedHeaders == Some(data[0]) && r.parsedRecords == data[1..])
            && (!r.isFirstLineHeaders ==> r.parsedHeaders == Some(ColumnNames(|data[0]|)) && r.parsedRecords == data)
  {
    var r := IcState(Some(data), s, table, base).value;
    if r.isFirstLineHeaders {
      assert [data[0]] + data[1..] == data;
    }
  }

  /** With no data the state keeps only the stored mappings and expects a header line. */
  lemma IcStateWithoutData(s: Settings, table: Table, base: Base)
    ensures var r := IcState(Some([]), s, table, base);
            (r.Ok? <==> StoredFieldMappings(s, table.id, base).Ok?)
            && (r.Ok? ==> r.value.fieldMappings == StoredFieldMappings(s, table.id, base).value
                          && r.value.isFirstLineHeaders && r.value.parsedData.None? && r.value.parsedRecords == [])
  {
  }

  const ExampleField := Field("fldName", "Name", SingleLineText, "", false)
  const ExampleTable := Table("tblPeople", [ExampleField], ExampleField)
  const ExampleBase: Base := map["tblPeople" := ExampleTable]
  /** A stored mapping to column 4, from a wider file imported earlier. */
  const ExampleSettings := Settings(map["tblPeople" := map["fldName" := FieldMapping(true, Some(3))]], map[], None, None)

  /**
   * A one-column file whose first line names no field, with a stored
   * mapping to a column it does not have: the first line is not taken as
   * headers, and the constructor's call for default headers reads a state
   * that does not exist yet and throws.
   */
  const ExampleStored := map["fldName" := FieldMapping(true, Some(3))]

  /** The example table's only field exists and, having no link, is a valid mapping target. */
  lemma ExampleFieldIsValid()
    ensures FieldIdValidity(ExampleTable, ExampleBase, "fldName") == Ok(true)
  {
    assert GetFieldByIdIfExists(ExampleTable, "fldName") == Some(ExampleField);
    assert GetLinkedTablesPrimaryFieldTypesByTableId(ExampleTable, ExampleBase) == Ok(map[]);
  }

  /** The stored mapping survives the settings getter: its field exists and is valid. */
  lemma ExampleStoredMappingIsKept()
    ensures StoredFieldMappings(ExampleSettings, "tblPeople", ExampleBase) == Ok(ExampleStored)
  {
    var fm := ExampleStored;
    ExampleFieldIsValid();
    assert !SomeValidityThrows(fm, ExampleTable, ExampleBase);
    assert fm != map[] by { assert "fldName" in fm; }
    var v := ValidMappings(fm, Some(ExampleTable), ExampleBase).value;
    assert v.Keys == fm.Keys && v["fldName"] == fm["fldName"];
    assert v == fm;
  }

  /** "Ada" names no field of the example table. */
  lemma ExampleHeaderMatchesNothing()
    ensures MatchingHeaderMappings(ExampleTable.fields, ["Ada"]) == map[]
  {
    assert ToLower("Name") != ToLower("Ada") by {
      assert ToLower("Name")[1] == 'a' && ToLower("Ada")[1] == 'd';
    }
    assert !NamesField(ExampleField, "Ada");
    assert ExampleTable.fields[1..] == [];
    assert FieldMatchingHeader(ExampleTable.fields, "Ada") == None;
    assert ["Ada"][..0] == [];
  }

  /**
   * A one-column file whose first line names no field, with a stored
   * mapping to a column it does not have: the first line is not taken as
   * headers, and the constructor's call for default headers reads a state
   * that does not exist yet and throws.
   */
  lemma StaleStoredMappingCrashesConstructor()
    ensures IcStateAsWritten(Some([["Ada"]]), ExampleSettings, ExampleTable, ExampleBase).Err?
    ensures IcState(Some([["Ada"]]), ExampleSettings, ExampleTable, ExampleBase).Ok?
    ensures IcState(Some([["Ada"]]), ExampleSettings, ExampleTable, ExampleBase).value.parsedHeaders == Some(["Column 1"])
  {
    ExampleStoredMappingIsKept();
    ExampleHeaderMatchesNothing();
    ExampleStoredColumnIsMissing();
    ExampleHasNoMergeKey();
    OneDefaultHeader();
  }

  /** The stored mapping's column 4 is past the end of a one-column first line. */
  lemma ExampleStoredColumnIsMissing()
    ensures !IsUsingStoredConfig(ExampleStored, ["Ada"])
  {
    assert "fldName" in ExampleStored;
  }

  lemma ExampleHasNoMergeKey()
    ensures StoredMergeFieldIds(ExampleSettings, "tblPeople", ExampleBase) == Ok([])
  {
  }

  /** One column gets the default header "Column 1". */
  lemma OneDefaultHeader()
    ensures ColumnNames(1) == ["Column 1"]
  {
    assert DigitChar(1) == '1';
    assert NatToString(1) == "1";
    assert ColumnNames(1)[0] == "Column 1";
  }

  // -------------------------------------------------------------- validation

  datatype Validation = Valid | Invalid(message: string)

  /** Permissions the base grants, which the model takes as given. */
  datatype Permissions = Permissions(canCreate: seq<RecordDef> -> bool, canUpdate: seq<UpdateDef> -> bool)

  /** _canUserPerformImport: permissions are only consulted once a diff is ready. */
  function CanUserPerformImport(st: ReviewState, perms: Permissions): (r: bool)
    ensures !st.isDataDiffReady || st.dataDiff.None? ==> r
    ensures st.isDataDiffReady && st.dataDiff.Some? ==>
              (r <==> perms.canCreate(st.dataDiff.value.recordDefsToCreate) && perms.canUpdate(st.dataDiff.value.recordDefsToUpdate))
  {
    if !st.isDataDiffReady || st.dataDiff.None? then true
    else perms.canCreate(st.dataDiff.value.recordDefsToCreate) && perms.canUpdate(st.dataDiff.value.recordDefsToUpdate)
  }

  predicate IsMapped(fm: FieldMappings, k: FieldId) {
    k in fm && fm[k].isEnabled && fm[k].parsedIndex.Some?
  }

  predicate IsEnabledWithoutColumn(fm: FieldMappings, k: FieldId) {
    k in fm && fm[k].isEnabled && fm[k].parsedIndex.None?
  }

  /** The first table field whose mapping is enabled without a column. */
  function FirstUnmappedField(fields: seq<Field>, fm: FieldMappings): (r: Option<Field>)
    ensures r.None? <==> forall i :: 0 <= i < |fields| ==> !IsEnabledWithoutColumn(fm, fields[i].id)
    ensures r.Some? ==> r.value in fields && IsEnabledWithoutColumn(fm, r.value.id)
  {
    if fields == [] then None
    else if IsEnabledWithoutColumn(fm, fields[0].id) then Some(fields[0])
    else
      var r := FirstUnmappedField(fields[1..], fm);
      assert forall i :: 1 <= i < |fields| ==> fields[i] == fields[1..][i - 1];
      r
  }

  /** _validate: the checks in order, the first that fails giving the message. */
  function Validate(table: Option<Table>, st: ReviewState, perms: Permissions): Validation {
    if table.None? then Invalid("Pick a table")
    else if !(exists k | k in st.fieldMappings :: IsMapped(st.fieldMappings, k)) then
      Invalid("Map at least one JSON column to a field")
    else if st.shouldMergeDuplicates && |st.fieldIdsForMerging| == 0 then
      Invalid("Choose a field to match existing records for merging")
    else if st.shouldMergeDuplicates && !(forall i :: 0 <= i < |st.fieldIdsForMerging| ==> IsMapped(st.fieldMappings, st.fieldIdsForMerging[i])) then
      Invalid("Map the merge field to a JSON column")
    else match FirstUnmappedField(table.value.fields, st.fieldMappings)
      case Some(f) => Invalid("Map a JSON column to the \"" + f.name + "\" field for merging")
      case None =>
        if !CanUserPerformImport(st, perms) then Invalid("You don't have permissions to import to the selected fields")
        else Valid
  }

  /**
   * An import is allowed exactly when there is a table, some enabled
   * mapping has a column, merging has a key whose every field is mapped,
   * no table field is enabled without a column, and the user may write.
   */
  lemma ValidateIff(table: Option<Table>, st: ReviewState, perms: Permissions)
    ensures Validate(table, st, perms) == Valid <==>
              table.Some?
              && (exists k | k in st.fieldMappings :: IsMapped(st.fieldMappings, k))
              && (st.shouldMergeDuplicates ==>
                    |st.fieldIdsForMerging| > 0 && forall i :: 0 <= i < |st.fieldIdsForMerging| ==> IsMapped(st.fieldMappings, st.fieldIdsForMerging[i]))
              && (forall f | f in table.value.fields :: !IsEnabledWithoutColumn(st.fieldMappings, f.id))
              && CanUserPerformImport(st, perms)
  {
    if table.Some? {
      var fields := table.value.fields;
      var r := FirstUnmappedField(fields, st.fieldMappings);
      assert (forall f | f in fields :: !IsEnabledWithoutColumn(st.fieldMappings, f.id))
             <==> (forall i :: 0 <= i < |fields| ==> !IsEnabledWithoutColumn(st.fieldMappings, fields[i].id));
    }
  }

  /** The number of records a table may still receive is below the number to create. */
  predicate ExceedsRecordLimit(existing: nat, toCreate: nat) {
    MaxRowsPerTable - existing < toCreate
  }

  // ----------------------------------------------------------- derived state

  /** What getDerivedStateFromProps merges into the state. */
  datatype Patch =
    | KeepValidSelections(fieldMappings: FieldMappings, fieldIdsForMerging: seq<FieldId>)
    | ClearDataDiff

  /**
   * getDerivedStateFromProps: nothing while records are being written;
   * otherwise the mappings and merge key are filtered (which may throw)
   * and kept when the table's records are loaded, else the diff is cleared.
   */
  function DerivedPatch(table: Option<Table>, st: ReviewState, base: Base): (r: Result<Option<Patch>>)
    ensures st.status == CreatingRecords ==> r == Ok(None)
    ensures st.status != CreatingRecords && r.Ok? ==> r.value.Some? && (r.value.value.ClearDataDiff? <==> !st.queryLoaded)
    ensures st.status != CreatingRecords && st.queryLoaded && table.Some? && r.Ok? ==>
              var p := r.value.value;
              (forall k | k in p.fieldMappings :: FieldIdValidity(table.value, base, k) == Ok(true))
              && (forall x | x in p.fieldIdsForMerging :: FieldIdValidity(table.value, base, x) == Ok(true))
  {
    if st.status == CreatingRecords then Ok(None)
    else
      var ids :- FilterIds(st.fieldIdsForMerging, table, base);
      var fm :- ValidMappings(st.fieldMappings, table, base);
      if st.queryLoaded then Ok(Some(KeepValidSelections(fm, ids))) else Ok(Some(ClearDataDiff))
  }

  function ApplyPatch(st: ReviewState, p: Option<Patch>): ReviewState {
    match p
    case None => st
    case Some(KeepValidSelections(fm, ids)) => st.(fieldMappings := fm, fieldIdsForMerging := ids)
    case Some(ClearDataDiff) => st.(dataDiff := None, isDataDiffReady := false)
  }

  /** Deriving the state again from a derived state changes nothing more. */
  lemma DerivedStateIsStable(table: Option<Table>, st: ReviewState, base: Base)
    requires DerivedPatch(table, st, base).Ok?
    ensures var st2 := ApplyPatch(st, DerivedPatch(table, st, base).value);
            DerivedPatch(table, st2, base).Ok? && ApplyPatch(st2, DerivedPatch(table, st2, base).value) == st2
  {
    if st.status != CreatingRecords && st.queryLoaded {
      var ids := FilterIds(st.fieldIdsForMerging, table, base).value;
      var fm := ValidMappings(st.fieldMappings, table, base).value;
      ValidMappingsIdempotent(st.fieldMappings, table, base);
      if ids != [] {
        FilterDeletedOrUnsupportedFieldIdsIdempotent(Some(st.fieldIdsForMerging), table.value, base);
      }
    }
  }

  // -------------------------------------------------------- mapping changes

  /** _onFieldMappingToggle: flips isEnabled, starting from a disabled mapping with no column. */
  function Toggle(fm: FieldMappings, fid: FieldId): (r: FieldMappings)
    ensures r.Keys == fm.Keys + {fid}
    ensures r[fid].isEnabled == !(fid in fm && fm[fid].isEnabled)
    ensures r[fid].parsedIndex == if fid in fm then fm[fid].parsedIndex else None
    ensures forall k | k in fm && k != fid :: r[k] == fm[k]
  {
    var m := if fid in fm then fm[fid] else FieldMapping(false, None);
    fm[fid := m.(isEnabled := !m.isEnabled)]
  }

  /** Toggling twice restores a mapping; a field that had none ends disabled with no column. */
  lemma ToggleTwice(fm: FieldMappings, fid: FieldId)
    ensures fid in fm ==> Toggle(Toggle(fm, fid), fid) == fm
    ensures fid !in fm ==> Toggle(Toggle(fm, fid), fid) == fm[fid := FieldMapping(false, None)]
  {
    if fid in fm {
      assert Toggle(Toggle(fm, fid), fid)[fid] == fm[fid];
    }
  }

  /** _onFieldMappingChange: the column changes and the enabled flag is kept (absent reads as disabled). */
  function ChangeColumn(fm: FieldMappings, fid: FieldId, newIndex: Option<int>): (r: FieldMappings)
    ensures r.Keys == fm.Keys + {fid} && r[fid].parsedIndex == newIndex
    ensures r[fid].isEnabled == (fid in fm && fm[fid].isEnabled)
    ensures forall k | k in fm && k != fid :: r[k] == fm[k]
  {
    fm[fid := FieldMapping(fid in fm && fm[fid].isEnabled, newIndex)]
  }

  /** fieldIdsForMerging[keyIndex] = fieldId, for an index within the array or just past its end. */
  function SetMergeKey(ids: seq<FieldId>, keyIndex: nat, fid: FieldId): (r: seq<FieldId>)
    requires keyIndex <= |ids|
    ensures |r| == if keyIndex < |ids| then |ids| else |ids| + 1
    ensures r[keyIndex] == fid && forall i :: 0 <= i < |ids| && i != keyIndex ==> r[i] == ids[i]
  {
    if keyIndex < |ids| then ids[keyIndex := fid] else ids + [fid]
  }

  /**
   * The state _onTableChange sets when the table prop changes to newTable:
   * the new table's stored mappings and merge key, header matches added for
   * fields they leave out, and a header match making the first line the
   * headers. Without parsed data the destructuring throws.
   */
  function TableChanged(st: ReviewState, newTable: Table, s: Settings, base: Base): Result<ReviewState> {
    if st.parsedData.None? then Err(TypeError("Cannot destructure property 'data' of undefined"))
    else
      var data := st.parsedData.value;
      var matched := MatchingHeaderMappings(newTable.fields, FirstLine(data));
      var stored :- StoredFieldMappings(s, newTable.id, base);
      var mergeIds :- StoredMergeFieldIds(s, newTable.id, base);
      var firstLineHeaders := |matched| > 0 || st.isFirstLineHeaders;
      var rows :- ParsedRecordsAndHeaders(data, firstLineHeaders, st.parsedData);
      Ok(st.(fieldMappings := if |matched| > 0 then MergeMatched(stored, matched) else stored,
             isFirstLineHeaders := firstLineHeaders,
             fieldIdsForMerging := mergeIds,
             parsedRecords := rows.records,
             parsedHeaders := rows.headers,
             dataDiff := None, isDataDiffReady := false, queryLoaded := false))
  }

  /**
   * A table change fails exactly when there is no parsed data, a settings
   * getter throws, or the first line stays data in an empty file.
   */
  lemma TableChangedFails(st: ReviewState, newTable: Table, s: Settings, base: Base)
    ensures TableChanged(st, newTable, s, base).Err?
            <==> st.parsedData.None?
                 || StoredFieldMappings(s, newTable.id, base).Err?
                 || StoredMergeFieldIds(s, newTable.id, base).Err?
                 || (st.parsedData.value == []
                     && |MatchingHeaderMappings(newTable.fields, FirstLine(st.parsedData.value))| == 0
                     && !st.isFirstLineHeaders)
  {
  }

  /**
   * After a table change stored mappings win and header matches fill the
   * gaps; the merge key is the stored one, the diff is cleared and the
   * table's records are to be reloaded; the status, the data and the merge
   * flag are kept.
   */
  lemma TableChangedMappings(st: ReviewState, newTable: Table, s: Settings, base: Base)
    requires TableChanged(st, newTable, s, base).Ok?
    ensures var r := TableChanged(st, newTable, s, base).value;
            var matched := MatchingHeaderMappings(newTable.fields, FirstLine(st.parsedData.value));
            var stored := StoredFieldMappings(s, newTable.id, base).value;
            r.fieldMappings.Keys == stored.Keys + matched.Keys
            && (forall k | k in stored :: r.fieldMappings[k] == stored[k])
            && (forall k | k in matched && k !in stored :: r.fieldMappings[k] == matched[k])
            && r.fieldIdsForMerging == StoredMergeFieldIds(s, newTable.id, base).value
            && r.dataDiff.None? && !r.isDataDiffReady && !r.queryLoaded
            && r.status == st.status && r.parsedData == st.parsedData
            && r.shouldMergeDuplicates == st.shouldMergeDuplicates
  {
    var matched := MatchingHeaderMappings(newTable.fields, FirstLine(st.parsedData.value));
    if |matched| == 0 {
      var stored := StoredFieldMappings(s, newTable.id, base).value;
      assert stored.Keys + matched.Keys == stored.Keys;
    }
  }

  /**
   * After a table change the first line is the headers when a header names
   * a field or it already was, and the rows are re-split accordingly.
   */
  lemma TableChangedRows(st: ReviewState, newTable: Table, s: Settings, base: Base)
    requires TableChanged(st, newTable, s, base).Ok?
    ensures var r := TableChanged(st, newTable, s, base).value;
            var data := st.parsedData.value;
            r.isFirstLineHeaders == (|MatchingHeaderMappings(newTable.fields, FirstLine(data))| > 0 || st.isFirstLineHeaders)
            && (r.isFirstLineHeaders && data != [] ==> r.parsedHeaders == Some(data[0]) && r.parsedRecords == data[1..])
            && (!r.isFirstLineHeaders ==> r.parsedHeaders == Some(ColumnNames(|data[0]|)) && r.parsedRecords == data)
  {
    var r := TableChanged(st, newTable, s, base).value;
    var data := st.parsedData.value;
    if r.isFirstLineHeaders && data != [] {
      assert [data[0]] + data[1..] == data;
    }
  }

  /** The body of _onTableChange on the component's state, with each step of the source. */
  method ComputeTableChange(st: ReviewState, newTable: Table, s: Settings, base: Base) returns (r: Result<ReviewState>)
    ensures r == TableChanged(st, newTable, s, base)
  {
    if st.parsedData.None? {
      return Err(TypeError("Cannot destructure property 'data' of undefined"));
    }
    var data := st.parsedData.value;
    var matched := GetFieldMappingsMatchingHeaders(FirstLine(data), Some(newTable));
    var stored := StoredFieldMappings(s, newTable.id, base);
    if stored.Err? {
      return Err(stored.error);
    }
    var mergeIds := StoredMergeFieldIds(s, newTable.id, base);
    if mergeIds.Err? {
      return Err(mergeIds.error);
    }
    var fm := stored.value;
    var firstLineHeaders;
    if |matched| > 0 {
      fm := MergeMatched(fm, matched);
      firstLineHeaders := true;
    } else {
      firstLineHeaders := st.isFirstLineHeaders;
    }
    var rows := ParsedRecordsAndHeaders(data, firstLineHeaders, st.parsedData);
    if rows.Err? {
      return Err(rows.error);
    }
    return Ok(st.(fieldMappings := fm, isFirstLineHeaders := firstLineHeaders, fieldIdsForMerging := mergeIds.value,
                  parsedRecords := rows.value.records, parsedHeaders := rows.value.headers,
                  dataDiff := None, isDataDiffReady := false, queryLoaded := false));
  }

  /** The inputs a data diff is computed from. */
  datatype DiffRequest = DiffRequest(rows: seq<Row>, mappings: FieldMappings, mergeKeys: seq<FieldId>, table: Option<Table>)

  // ------------------------------------------------------------ the component

  /** The outcome of an import the component started. */
  datatype ImportOutcome = Imported | TooManyRecords(remaining: int)

  class Component {
    var state: ReviewState
    /** props.table */
    var table: Option<Table>
    /** _dataDiffId: increases with every diff computation started, never reset. */
    var dataDiffId: nat
    const settings: Settings
    const store: RecordWriter.Store

    constructor (init: ReviewState, table: Option<Table>, settings: Settings, store: RecordWriter.Store)
      ensures state == init && this.table == table && dataDiffId == 0
      ensures this.settings == settings && this.store == store
    {
      state := init;
      this.table := table;
      dataDiffId := 0;
      this.settings := settings;
      this.store := store;
    }

    /**
     * The first half of _computeDataDiffAsync: a new id, the old diff
     * cleared, and the inputs captured for the computation.
     */
    method BeginDataDiff() returns (ticket: nat, request: DiffRequest)
      modifies this
      ensures dataDiffId == old(dataDiffId) + 1 && ticket == dataDiffId
      ensures state == old(state).(dataDiff := None, isDataDiffReady := false)
      ensures table == old(table)
      ensures request == DiffRequest(state.parsedRecords, state.fieldMappings,
                                     if state.shouldMergeDuplicates then state.fieldIdsForMerging else [], table)
    {
      dataDiffId := dataDiffId + 1;
      ticket := dataDiffId;
      state := state.(dataDiff := None, isDataDiffReady := false);
      request := DiffRequest(state.parsedRecords, state.fieldMappings,
                             if state.shouldMergeDuplicates then state.fieldIdsForMerging else [], table);
    }

    /**
     * The second half: the diff is stored only if no other computation
     * started in the meantime; a computation that threw stores nothing.
     */
    method FinishDataDiff(ticket: nat, result: Result<Diff>)
      modifies this
      ensures dataDiffId == old(dataDiffId) && table == old(table)
      ensures ticket == dataDiffId && result.Ok? ==> state == old(state).(isDataDiffReady := true, dataDiff := Some(result.value))
      ensures ticket != dataDiffId || result.Err? ==> state == old(state)
    {
      if result.Ok? && ticket == dataDiffId {
        state := state.(isDataDiffReady := true, dataDiff := Some(result.value));
      }
    }

    /** Two overlapping computations: the one started first finishes last and is dropped. */
    method OverlappingDiffs(first: Diff, second: Diff)
      modifies this
      ensures state == old(state).(dataDiff := Some(second), isDataDiffReady := true)
      ensures dataDiffId == old(dataDiffId) + 2
    {
      var t1, _ := BeginDataDiff();
      var t2, _ := BeginDataDiff();
      FinishDataDiff(t2, Ok(second));
      FinishDataDiff(t1, Ok(first));
    }

    /** getDerivedStateFromProps merged into the state. */
    method DeriveStateFromProps() returns (r: Result<()>)
      modifies this
      ensures table == old(table) && dataDiffId == old(dataDiffId)
      ensures r.Ok? <==> DerivedPatch(table, old(state), store.schema).Ok?
      ensures r.Ok? ==> state == ApplyPatch(old(state), DerivedPatch(table, old(state), store.schema).value)
      ensures r.Err? ==> state == old(state)
    {
      var p := DerivedPatch(table, state, store.schema);
      if p.Err? {
        return Err(p.error);
      }
      state := ApplyPatch(state, p.value);
      return Ok(());
    }

    /** _onFieldMappingToggle, then a new diff. */
    method OnFieldMappingToggle(fid: FieldId) returns (ticket: nat, request: DiffRequest)
      modifies this
      ensures state == old(state).(fieldMappings := Toggle(old(state).fieldMappings, fid), dataDiff := None, isDataDiffReady := false)
      ensures dataDiffId == old(dataDiffId) + 1 && ticket == dataDiffId && table == old(table)
      ensures request.mappings == state.fieldMappings
      ensures request == DiffRequest(state.parsedRecords, state.fieldMappings,
                                     if state.shouldMergeDuplicates then state.fieldIdsForMerging else [], table)
    {
      state := state.(fieldMappings := Toggle(state.fieldMappings, fid));
      ticket, request := BeginDataDiff();
    }

    /** _onFieldMappingChange, then a new diff. */
    method OnFieldMappingChange(fid: FieldId, newIndex: Option<int>) returns (ticket: nat, request: DiffRequest)
      modifies this
      ensures state == old(state).(fieldMappings := ChangeColumn(old(state).fieldMappings, fid, newIndex), dataDiff := None, isDataDiffReady := false)
      ensures dataDiffId == old(dataDiffId) + 1 && ticket == dataDiffId && table == old(table)
      ensures request.mappings == state.fieldMappings
      ensures request == DiffRequest(state.parsedRecords, state.fieldMappings,
                                     if state.shouldMergeDuplicates then state.fieldIdsForMerging else [], table)
    {
      state := state.(fieldMappings := ChangeColumn(state.fieldMappings, fid, newIndex));
      ticket, request := BeginDataDiff();
    }

    /** _onMergeDuplicatesToggleChange, then a new diff. */
    method OnMergeDuplicatesToggleChange(shouldMerge: bool) returns (ticket: nat, request: DiffRequest)
      modifies this
      ensures state == old(state).(shouldMergeDuplicates := shouldMerge, dataDiff := None, isDataDiffReady := false)
      ensures dataDiffId == old(dataDiffId) + 1 && ticket == dataDiffId && table == old(table)
      ensures request.mergeKeys == if shouldMerge then state.fieldIdsForMerging else []
      ensures request == DiffRequest(state.parsedRecords, state.fieldMappings,
                                     if state.shouldMergeDuplicates then state.fieldIdsForMerging else [], table)
    {
      state := state.(shouldMergeDuplicates := shouldMerge);
      ticket, request := BeginDataDiff();
    }

    /** _onSelectedKeyForMergingChange, then a new diff. */
    method OnSelectedKeyForMergingChange(keyIndex: nat, fid: FieldId) returns (ticket: nat, request: DiffRequest)
      requires keyIndex <= |state.fieldIdsForMerging|
      modifies this
      ensures state == old(state).(fieldIdsForMerging := SetMergeKey(old(state).fieldIdsForMerging, keyIndex, fid),
                                   dataDiff := None, isDataDiffReady := false)
      ensures dataDiffId == old(dataDiffId) + 1 && ticket == dataDiffId && table == old(table)
      ensures request == DiffRequest(state.parsedRecords, state.fieldMappings,
                                     if state.shouldMergeDuplicates then state.fieldIdsForMerging else [], table)
    {
      state := state.(fieldIdsForMerging := SetMergeKey(state.fieldIdsForMerging, keyIndex, fid));
      ticket, request := BeginDataDiff();
    }

    /**
     * _onFieldConfigChange: for an enabled mapping, a field that is still
     * valid recomputes the diff when it has a column; one that became
     * invalid is disabled, loses its column, and the diff is recomputed.
     */
    method OnFieldConfigChange(field: Field) returns (r: Result<()>, started: bool)
      modifies this
      ensures table == old(table)
      ensures started ==> dataDiffId == old(dataDiffId) + 1 && state.dataDiff.None? && !state.isDataDiffReady
      ensures !started ==> dataDiffId == old(dataDiffId) && state == old(state)
      ensures !(field.id in old(state).fieldMappings && old(state).fieldMappings[field.id].isEnabled) ==> r.Ok? && !started
      ensures r.Ok? && field.id in old(state).fieldMappings && old(state).fieldMappings[field.id].isEnabled ==>
                table.Some? && GetLinkedTablesPrimaryFieldTypesByTableId(table.value, store.schema).Ok?
                && var valid := ValidAgainst(field, GetLinkedTablesPrimaryFieldTypesByTableId(table.value, store.schema).value);
                   (valid ==> state.fieldMappings == old(state).fieldMappings
                              && started == old(state).fieldMappings[field.id].parsedIndex.Some?
                              && (started ==> state == old(state).(dataDiff := None, isDataDiffReady := false)))
                   && (!valid ==> started && state.fieldMappings == old(state).fieldMappings[field.id := FieldMapping(false, None)]
                                  && state == old(state).(fieldMappings := old(state).fieldMappings[field.id := FieldMapping(false, None)],
                                                          dataDiff := None, isDataDiffReady := false))
      ensures r.Err? ==> !started && state == old(state)
    {
      var fm := state.fieldMappings;
      if !(field.id in fm && fm[field.id].isEnabled) {
        return Ok(()), false;
      }
      if table.None? {
        return Err(TypeError("Cannot read properties of null (reading 'fields')")), false;
      }
      var linked := GetLinkedTablesPrimaryFieldTypesByTableId(table.value, store.schema);
      if linked.Err? {
        return Err(linked.error), false;
      }
      var valid := IsFieldValid(Some(field), table.value, Some(linked.value), store.schema);
      if valid.value {
        if fm[field.id].parsedIndex.Some? {
          var _, _ := BeginDataDiff();
          return Ok(()), true;
        }
        return Ok(()), false;
      }
      state := state.(fieldMappings := fm[field.id := FieldMapping(false, None)]);
      var _, _ := BeginDataDiff();
      return Ok(()), true;
    }

    /**
     * _onTableChange: the new table's stored mappings and merge key, with
     * header matches added for fields they leave out; a header match also
     * makes the first line the headers. The diff is cleared and the new
     * table's records are reloaded.
     */
    method OnTableChange(newTable: Table) returns (r: Result<()>)
      modifies this
      ensures table == Some(newTable) && dataDiffId == old(dataDiffId)
      ensures r.Ok? <==> TableChanged(old(state), newTable, settings, store.schema).Ok?
      ensures r.Ok? ==> state == TableChanged(old(state), newTable, settings, store.schema).value
      ensures r.Err? ==> state == old(state)
    {
      table := Some(newTable);
      var next := ComputeTableChange(state, newTable, settings, store.schema);
      if next.Err? {
        return Err(next.error);
      }
      state := next.value;
      return Ok(());
    }

    /** The end of _loadTableDataAsync: the records are loaded, the diff cleared and recomputed. */
    method OnTableDataLoaded() returns (ticket: nat, request: DiffRequest)
      modifies this
      ensures state == old(state).(queryLoaded := true, dataDiff := None, isDataDiffReady := false)
      ensures dataDiffId == old(dataDiffId) + 1 && ticket == dataDiffId && table == old(table)
      ensures request == DiffRequest(state.parsedRecords, state.fieldMappings,
                                     if state.shouldMergeDuplicates then state.fieldIdsForMerging else [], table)
    {
      state := state.(queryLoaded := true, dataDiff := None, isDataDiffReady := false);
      ticket, request := BeginDataDiff();
    }

    /**
     * _createOrUpdateRecordsAsync: the diff must be ready; the status
     * becomes CREATING_RECORDS; an import that would take the table past
     * 50000 records is refused before anything is written; otherwise the
     * diff is written and the status becomes SUCCESS.
     */
    method CreateOrUpdateRecords(fx: Foreign) returns (r: Result<ImportOutcome>)
      modifies this, store
      ensures table == old(table) && dataDiffId == old(dataDiffId)
      ensures old(state).dataDiff.None? || !old(state).isDataDiffReady ==>
                r == Err(DataDiffNotReady) && state == old(state) && store.log == old(store.log)
      ensures old(state).dataDiff.Some? && old(state).isDataDiffReady ==>
                old(store.log) <= store.log && (state.status == CreatingRecords || state.status == Success)
      ensures r == Ok(Imported) ==>
                state == old(state).(status := Success, queryLoaded := true)
                && table.Some?
                && !ExceedsRecordLimit(|old(store.Snapshot(table.value.id))|, |old(state).dataDiff.value.recordDefsToCreate|)
      ensures r.Ok? && r.value.TooManyRecords? ==>
                state == old(state).(status := CreatingRecords, queryLoaded := true)
                && store.log == old(store.log)
                && table.Some?
                && r.value.remaining == MaxRowsPerTable - |old(store.Snapshot(table.value.id))|
                && ExceedsRecordLimit(|old(store.Snapshot(table.value.id))|, |old(state).dataDiff.value.recordDefsToCreate|)
      ensures r.Err? && old(state).dataDiff.Some? && old(state).isDataDiffReady ==> state.status == CreatingRecords
      ensures old(state).dataDiff.Some? && old(state).isDataDiffReady && table.None? ==>
                r == Err(NoTable) && store.log == old(store.log)
      ensures old(state).dataDiff.Some? && old(state).isDataDiffReady && table.Some?
              && ExceedsRecordLimit(|old(store.Snapshot(table.value.id))|, |old(state).dataDiff.value.recordDefsToCreate|) ==>
                r == Ok(TooManyRecords(MaxRowsPerTable - |old(store.Snapshot(table.value.id))|)) && store.log == old(store.log)
      ensures old(state).dataDiff.Some? && old(state).isDataDiffReady && table.Some?
              && !ExceedsRecordLimit(|old(store.Snapshot(table.value.id))|, |old(state).dataDiff.value.recordDefsToCreate|) ==>
                var diff := old(state).dataDiff.value;
                var w := RecordWriter.ImportWrites(store.schema, old(store.rows), old(store.minted), table.value,
                                                   diff.recordDefsToCreate, diff.recordDefsToUpdate, fx);
                (r == Ok(Imported) <==> w.Some?) && (w.Some? ==> store.log == old(store.log) + w.value)
    {
      if state.dataDiff.None? || !state.isDataDiffReady {
        return Err(DataDiffNotReady);
      }
      var diff := state.dataDiff.value;
      state := state.(status := CreatingRecords);
      if table.None? {
        return Err(NoTable);
      }
      var t := table.value;
      if !state.queryLoaded {
        state := state.(queryLoaded := true);
      }
      var remaining := MaxRowsPerTable - |store.Snapshot(t.id)|;
      if remaining < |diff.recordDefsToCreate| {
        return Ok(TooManyRecords(remaining));
      }
      var written, _, _, _, _, _, _, _ := RecordWriter.CreateOrUpdateRecords(table, diff.recordDefsToCreate, diff.recordDefsToUpdate, store, fx);
      if written.Err? {
        return Err(written.error);
      }
      state := state.(status := Success);
      return Ok(Imported);
    }
  }
}
