/**
 * From a parsed row to cell values: the automatic header-to-field mapping
 * and the projection of one row through the field mappings
 * (frontend/headersValuesMappingHelpers.ts).
 */
module Projection {
  import opened JsRuntime
  import opened Schema
  import opened SupportedFieldTypes

  /** Which column a field takes its values from; a null index maps nothing. */
  datatype FieldMapping = FieldMapping(isEnabled: bool, parsedIndex: Option<int>)

  type FieldMappings = map<FieldId, FieldMapping>

  /** A field a header names: same name ignoring case, and a type the importer can write. */
  predicate NamesField(f: Field, header: string) {
    ToLower(f.name) == ToLower(header) && f.fieldType in SupportedTypes
  }

  /** _.find(table.fields, ...): the first field the header names. */
  function FieldMatchingHeader(fields: seq<Field>, header: string): Option<Field> {
    if fields == [] then None
    else if NamesField(fields[0], header) then Some(fields[0])
    else FieldMatchingHeader(fields[1..], header)
  }

  /** The field found for a header is the first field it names, and none is found exactly when it names none. */
  lemma {:induction false} FieldMatchingHeaderIsFirst(fields: seq<Field>, header: string)
    ensures var r := FieldMatchingHeader(fields, header);
            (r.None? <==> forall i :: 0 <= i < |fields| ==> !NamesField(fields[i], header))
            && (r.Some? ==> exists i :: 0 <= i < |fields| && fields[i] == r.value && NamesField(fields[i], header)
                                        && forall j :: 0 <= j < i ==> !NamesField(fields[j], header))
  {
    if fields != [] && !NamesField(fields[0], header) {
      FieldMatchingHeaderIsFirst(fields[1..], header);
      assert forall i :: 1 <= i < |fields| ==> fields[i] == fields[1..][i - 1];
      var r := FieldMatchingHeader(fields[1..], header);
      if r.Some? {
        var i :| 0 <= i < |fields[1..]| && fields[1..][i] == r.value && NamesField(fields[1..][i], header)
                 && forall j :: 0 <= j < i ==> !NamesField(fields[1..][j], header);
        assert fields[i + 1] == r.value && forall j :: 0 <= j < i + 1 ==> !NamesField(fields[j], header);
      }
    } else if fields != [] {
      assert fields[0] == FieldMatchingHeader(fields, header).value;
    }
  }

  function HeaderFieldId(fields: seq<Field>, header: string): Option<FieldId> {
    match FieldMatchingHeader(fields, header)
    case None => None
    case Some(f) => Some(f.id)
  }

  /** Header i is the first header that maps to field id k. */
  predicate FirstHeaderFor(fields: seq<Field>, headers: seq<string>, k: FieldId, i: int) {
    0 <= i < |headers| && HeaderFieldId(fields, headers[i]) == Some(k)
    && forall j :: 0 <= j < i ==> HeaderFieldId(fields, headers[j]) != Some(k)
  }

  /** The header loop over headers: a field keeps the mapping of the first header that names it. */
  function MatchingHeaderMappings(fields: seq<Field>, headers: seq<string>): FieldMappings
    decreases |headers|
  {
    if headers == [] then map[]
    else
      var m := MatchingHeaderMappings(fields, headers[..|headers| - 1]);
      var found := HeaderFieldId(fields, headers[|headers| - 1]);
      if found.Some? && found.value !in m then m[found.value := FieldMapping(true, Some(|headers| - 1))] else m
  }

  /**
   * Every field some header names gets an enabled mapping to the first
   * such header, and no other field gets one.
   */
  lemma {:induction false} MatchingHeaderMappingsShape(fields: seq<Field>, headers: seq<string>)
    ensures var r := MatchingHeaderMappings(fields, headers);
            (forall k :: k in r <==> exists i :: 0 <= i < |headers| && HeaderFieldId(fields, headers[i]) == Some(k))
            && forall k | k in r :: r[k].isEnabled && r[k].parsedIndex.Some? && FirstHeaderFor(fields, headers, k, r[k].parsedIndex.value)
    decreases |headers|
  {
    if headers != [] {
      var n := |headers| - 1;
      var init := headers[..n];
      MatchingHeaderMappingsShape(fields, init);
      assert forall i :: 0 <= i < n ==> init[i] == headers[i];
      var m := MatchingHeaderMappings(fields, init);
      var r := MatchingHeaderMappings(fields, headers);
      forall k | k in m
        ensures FirstHeaderFor(fields, headers, k, m[k].parsedIndex.value)
      {
        assert FirstHeaderFor(fields, init, k, m[k].parsedIndex.value);
      }
      var found := HeaderFieldId(fields, headers[n]);
      if found.Some? && found.value !in m {
        assert FirstHeaderFor(fields, headers, found.value, n);
      }
      forall k
        ensures k in r <==> exists i :: 0 <= i < |headers| && HeaderFieldId(fields, headers[i]) == Some(k)
      {
        if HeaderFieldId(fields, headers[n]) == Some(k) {
          assert k in r;
        }
        if k in r && k !in m {
          assert HeaderFieldId(fields, headers[n]) == Some(k);
        }
      }
    }
  }

  /**
   * getFieldMappingsMatchingHeaders: every field some header names gets an
   * enabled mapping to the first such header; no table gives no mappings.
   */
  method GetFieldMappingsMatchingHeaders(headers: seq<string>, table: Option<Table>) returns (r: FieldMappings)
    ensures table.None? ==> r == map[]
    ensures table.Some? ==> r == MatchingHeaderMappings(table.value.fields, headers)
    ensures table.Some? ==> forall k :: k in r <==> exists i :: 0 <= i < |headers| && HeaderFieldId(table.value.fields, headers[i]) == Some(k)
    ensures table.Some? ==> forall k | k in r :: r[k].isEnabled && r[k].parsedIndex.Some?
                                                 && FirstHeaderFor(table.value.fields, headers, k, r[k].parsedIndex.value)
  {
    if table.None? {
      return map[];
    }
    var fields := table.value.fields;
    r := map[];
    for index := 0 to |headers|
      invariant r == MatchingHeaderMappings(fields, headers[..index])
    {
      assert headers[..index + 1][..index] == headers[..index];
      var found := HeaderFieldId(fields, headers[index]);
      if found.Some? && found.value !in r {
        r := r[found.value := FieldMapping(true, Some(index))];
      }
    }
    assert headers[..|headers|] == headers;
    MatchingHeaderMappingsShape(fields, headers);
  }

  /** What one row produces: cell values, and the raw strings the converters could not map. */
  datatype Projected = Projected(values: RecordDef, failures: map<FieldId, string>)

  /** The row feeds field f: its type is supported and its mapping is enabled with an index. */
  predicate IsProjected(f: Field, mappings: FieldMappings) {
    f.fieldType in SupportedTypes && f.id in mappings && mappings[f.id].isEnabled && mappings[f.id].parsedIndex.Some?
  }

  /** parsedRecord[index] || '': a missing column reads as the empty string. */
  function RawValue(row: seq<string>, index: int): string {
    if 0 <= index < |row| then row[index] else ""
  }

  function MappedRaw(f: Field, mappings: FieldMappings, row: seq<string>): string
    requires IsProjected(f, mappings)
  {
    RawValue(row, mappings[f.id].parsedIndex.value)
  }

  /** The conversion failed to map: a non-empty string became null or undefined. */
  predicate IsFailure(raw: string, v: CellValue) {
    raw != "" && IsNullish(v)
  }

  /** One iteration of the loop over table.fields. */
  function ProjectField(acc: Projected, f: Field, mappings: FieldMappings, row: seq<string>, fx: Foreign): Result<Projected> {
    if !IsProjected(f, mappings) then Ok(acc)
    else
      var raw := MappedRaw(f, mappings, row);
      var v :- ConvertParsedValue(raw, f, fx);
      Ok(Projected(acc.values[f.id := v], if IsFailure(raw, v) then acc.failures[f.id := raw] else acc.failures))
  }

  /** The loop over table.fields, as the state after the first |fields| of them. */
  function ProjectFields(fields: seq<Field>, mappings: FieldMappings, row: seq<string>, fx: Foreign): Result<Projected>
    decreases |fields|
  {
    if fields == [] then Ok(Projected(map[], map[]))
    else
      var acc :- ProjectFields(fields[..|fields| - 1], mappings, row, fx);
      ProjectField(acc, fields[|fields| - 1], mappings, row, fx)
  }

  /** getValuesAndFailuresByFieldIdForParsedRecord as a specification: a table is required. */
  function Project(table: Option<Table>, mappings: FieldMappings, row: seq<string>, fx: Foreign): (r: Result<Projected>)
    ensures table.None? ==> r == Err(NoTable)
  {
    match table
    case None => Err(NoTable)
    case Some(t) => ProjectFields(t.fields, mappings, row, fx)
  }

  method GetValuesAndFailuresByFieldIdForParsedRecord(table: Option<Table>, mappings: FieldMappings, row: seq<string>, fx: Foreign)
    returns (r: Result<Projected>)
    ensures r == Project(table, mappings, row, fx)
  {
    if table.None? {
      return Err(NoTable);
    }
    var fields := table.value.fields;
    var values: RecordDef := map[];
    var failures: map<FieldId, string> := map[];
    for i := 0 to |fields|
      invariant ProjectFields(fields[..i], mappings, row, fx) == Ok(Projected(values, failures))
    {
      var f := fields[i];
      ghost var acc := Projected(values, failures);
      PrefixStep(fields, i, mappings, row, fx);
      if IsProjected(f, mappings) {
        var raw := MappedRaw(f, mappings, row);
        var v := ConvertParsedValue(raw, f, fx);
        if v.Err? {
          PrefixErrorPersists(fields, i + 1, mappings, row, fx);
          return Err(v.error);
        }
        values := values[f.id := v.value];
        if IsFailure(raw, v.value) {
          failures := failures[f.id := raw];
        }
      }
      assert ProjectField(acc, f, mappings, row, fx) == Ok(Projected(values, failures));
    }
    assert fields[..|fields|] == fields;
    return Ok(Projected(values, failures));
  }

  /** Projecting one more field is one more step of the loop. */
  lemma PrefixStep(fields: seq<Field>, i: nat, mappings: FieldMappings, row: seq<string>, fx: Foreign)
    requires i < |fields| && ProjectFields(fields[..i], mappings, row, fx).Ok?
    ensures ProjectFields(fields[..i + 1], mappings, row, fx)
            == ProjectField(ProjectFields(fields[..i], mappings, row, fx).value, fields[i], mappings, row, fx)
  {
    assert fields[..i + 1][..i] == fields[..i];
  }

  /** Once a prefix of the fields fails to project, the whole list does, with the same error. */
  lemma {:induction false} PrefixErrorPersists(fields: seq<Field>, n: nat, mappings: FieldMappings, row: seq<string>, fx: Foreign)
    requires n <= |fields|
    requires ProjectFields(fields[..n], mappings, row, fx).Err?
    ensures ProjectFields(fields, mappings, row, fx) == ProjectFields(fields[..n], mappings, row, fx)
    decreases |fields| - n
  {
    if n < |fields| {
      var longer := fields[..n + 1];
      assert longer[..n] == fields[..n];
      assert ProjectFields(longer, mappings, row, fx) == ProjectFields(fields[..n], mappings, row, fx);
      PrefixErrorPersists(fields, n + 1, mappings, row, fx);
    } else {
      assert fields[..n] == fields;
    }
  }

  /** Field f of the list is projected and converts its raw value to v. */
  predicate ProjectsTo(fields: seq<Field>, mappings: FieldMappings, row: seq<string>, fx: Foreign, k: FieldId, v: CellValue) {
    exists f :: f in fields && f.id == k && IsProjected(f, mappings) && ConvertParsedValue(MappedRaw(f, mappings, row), f, fx) == Ok(v)
  }

  /** A projection throws exactly when some projected field's conversion throws. */
  lemma {:induction false} ProjectionFails(fields: seq<Field>, mappings: FieldMappings, row: seq<string>, fx: Foreign)
    ensures ProjectFields(fields, mappings, row, fx).Err?
            <==> exists f :: f in fields && IsProjected(f, mappings) && ConvertParsedValue(MappedRaw(f, mappings, row), f, fx).Err?
    decreases |fields|
  {
    if fields != [] {
      var init := fields[..|fields| - 1];
      var f := fields[|fields| - 1];
      ProjectionFails(init, mappings, row, fx);
      assert forall g :: g in fields <==> g in init || g == f by {
        assert fields == init + [f];
      }
    }
  }

  /**
   * The shape of a projection: cell values exactly for the projected
   * fields, each the conversion of its mapped raw value; failures only for
   * fields that have a value, and never for an empty raw value.
   */
  lemma {:induction false} ProjectionShape(fields: seq<Field>, mappings: FieldMappings, row: seq<string>, fx: Foreign)
    requires ProjectFields(fields, mappings, row, fx).Ok?
    ensures var p := ProjectFields(fields, mappings, row, fx).value;
            (forall k :: k in p.values <==> exists f :: f in fields && f.id == k && IsProjected(f, mappings))
            && (forall k | k in p.values :: ProjectsTo(fields, mappings, row, fx, k, p.values[k]))
            && p.failures.Keys <= p.values.Keys
            && (forall k | k in p.failures :: p.failures[k] != "")
    decreases |fields|
  {
    if fields != [] {
      var init := fields[..|fields| - 1];
      var f := fields[|fields| - 1];
      assert ProjectFields(init, mappings, row, fx).Ok?;
      ProjectionShape(init, mappings, row, fx);
      assert forall g :: g in fields <==> g in init || g == f by {
        assert fields == init + [f];
      }
      var p := ProjectFields(fields, mappings, row, fx).value;
      var acc := ProjectFields(init, mappings, row, fx).value;
      if !IsProjected(f, mappings) {
        assert p == acc;
        forall k | k in p.values
          ensures ProjectsTo(fields, mappings, row, fx, k, p.values[k])
        {
          assert ProjectsTo(init, mappings, row, fx, k, acc.values[k]);
        }
      } else {
        var raw := MappedRaw(f, mappings, row);
        var v := ConvertParsedValue(raw, f, fx).value;
        assert p.values == acc.values[f.id := v];
        assert p.failures == if IsFailure(raw, v) then acc.failures[f.id := raw] else acc.failures;
        forall k | k in p.values
          ensures ProjectsTo(fields, mappings, row, fx, k, p.values[k])
        {
          if k == f.id {
            assert f in fields;
          } else {
            assert ProjectsTo(init, mappings, row, fx, k, acc.values[k]);
          }
        }
      }
    }
  }

  /**
   * With distinct field ids (as in every table), a field's raw value is
   * reported as a failure exactly when it is non-empty and its converted
   * value is null or undefined.
   */
  lemma {:induction false} FailureIff(fields: seq<Field>, mappings: FieldMappings, row: seq<string>, fx: Foreign, f: Field)
    requires DistinctFieldIds(fields)
    requires f in fields && IsProjected(f, mappings)
    requires ProjectFields(fields, mappings, row, fx).Ok?
    ensures var p := ProjectFields(fields, mappings, row, fx).value;
            var raw := MappedRaw(f, mappings, row);
            f.id in p.values
            && ConvertParsedValue(raw, f, fx) == Ok(p.values[f.id])
            && (f.id in p.failures <==> IsFailure(raw, p.values[f.id]))
            && (f.id in p.failures ==> p.failures[f.id] == raw)
    decreases |fields|
  {
    var init := fields[..|fields| - 1];
    var last := fields[|fields| - 1];
    assert fields == init + [last];
    assert DistinctFieldIds(init);
    assert ProjectFields(init, mappings, row, fx).Ok?;
    if last == f {
      ProjectionShape(init, mappings, row, fx);
      assert forall g :: g in init ==> g.id != f.id by {
        forall g | g in init
          ensures g.id != f.id
        {
          var i :| 0 <= i < |init| && init[i] == g;
          assert fields[i] == g;
        }
      }
    } else {
      assert f in init;
      FailureIff(init, mappings, row, fx, f);
      assert last.id != f.id by {
        var i :| 0 <= i < |init| && init[i] == f;
        assert fields[i] == f;
      }
    }
  }

  /** A rating column holding "0" never reports a failure, rating or not the SDK would map it to null. */
  lemma RatingZeroNeverFails(fields: seq<Field>, mappings: FieldMappings, row: seq<string>, fx: Foreign, f: Field)
    requires DistinctFieldIds(fields)
    requires f in fields && IsProjected(f, mappings) && f.fieldType == Rating
    requires MappedRaw(f, mappings, row) == "0"
    requires ProjectFields(fields, mappings, row, fx).Ok?
    ensures var p := ProjectFields(fields, mappings, row, fx).value;
            f.id in p.values && p.values[f.id] == Num(0) && f.id !in p.failures
  {
    FailureIff(fields, mappings, row, fx, f);
  }

  /** An unmapped column, or an index past the end of the row, gives null and no failure. */
  lemma MissingColumnIsNullWithoutFailure(fields: seq<Field>, mappings: FieldMappings, row: seq<string>, fx: Foreign, f: Field)
    requires DistinctFieldIds(fields)
    requires f in fields && IsProjected(f, mappings) && f.fieldType != MultipleRecordLinks
    requires mappings[f.id].parsedIndex.value >= |row|
    requires ProjectFields(fields, mappings, row, fx).Ok?
    ensures var p := ProjectFields(fields, mappings, row, fx).value;
            f.id in p.values && p.values[f.id] == Null && f.id !in p.failures
  {
    FailureIff(fields, mappings, row, fx, f);
  }
}
