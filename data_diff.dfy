/**
 * computeDataDiffAsync: sorting parsed rows into records to create,
 * records to update, records left unchanged and rows ignored because the
 * record they match was already claimed by an earlier row
 * (frontend/headersValuesMappingHelpers.ts).
 */
module DataDiff {
  import opened JsRuntime
  import opened Schema
  import opened CellComparison
  import opened Projection

  datatype UpdateDef = UpdateDef(id: RecordId, fields: RecordDef)

  /**
   * The diff. unchangedRecordsById is None on the fast path, whose result
   * object carries an empty unchangedRecords list instead.
   */
  datatype Diff = Diff(
    recordDefsToCreate: seq<RecordDef>,
    recordDefsToUpdate: seq<UpdateDef>,
    unchangedRecordsById: Option<map<RecordId, RecordDef>>,
    numIgnoredParsedRowsDueToDuplicateMatch: nat,
    failedToMapValuesByFieldId: map<FieldId, seq<string>>)

  /** The diff under construction; claimed is processedRecordIdsSet. */
  datatype DiffState = DiffState(
    creates: seq<RecordDef>,
    updates: seq<UpdateDef>,
    unchangedById: map<RecordId, RecordDef>,
    ignored: nat,
    failed: map<FieldId, seq<string>>,
    claimed: set<RecordId>)

  const EmptyState := DiffState([], [], map[], 0, map[], {})

  /** Appending one row's failures to the per-field lists. */
  function MergeFailures(acc: map<FieldId, seq<string>>, failures: map<FieldId, string>): map<FieldId, seq<string>> {
    map k | k in acc.Keys + failures.Keys
      :: (if k in acc then acc[k] else []) + (if k in failures then [failures[k]] else [])
  }

  /** The loop over _.entries(failures) that pushes each failure onto its field's list. */
  method AccumulateFailures(acc: map<FieldId, seq<string>>, failures: map<FieldId, string>) returns (r: map<FieldId, seq<string>>)
    ensures r == MergeFailures(acc, failures)
  {
    r := acc;
    var remaining := failures.Keys;
    while remaining != {}
      invariant remaining <= failures.Keys
      invariant r.Keys == acc.Keys + (failures.Keys - remaining)
      invariant forall k | k in r :: r[k] == (if k in acc then acc[k] else []) + (if k in failures && k !in remaining then [failures[k]] else [])
      decreases remaining
    {
      var k :| k in remaining;
      if k in r {
        r := r[k := r[k] + [failures[k]]];
      } else {
        r := r[k := [failures[k]]];
      }
      remaining := remaining - {k};
    }
  }

  /** The fast path: every row becomes a record to create. */
  function FastRows(rows: seq<seq<string>>, table: Option<Table>, mappings: FieldMappings, fx: Foreign): Result<DiffState>
    decreases |rows|
  {
    if rows == [] then Ok(EmptyState)
    else
      var st :- FastRows(rows[..|rows| - 1], table, mappings, fx);
      var p :- Project(table, mappings, rows[|rows| - 1], fx);
      Ok(st.(creates := st.creates + [p.values], failed := MergeFailures(st.failed, p.failures)))
  }

  function FastDiff(rows: seq<seq<string>>, table: Option<Table>, mappings: FieldMappings, fx: Foreign): Result<Diff> {
    var st :- FastRows(rows, table, mappings, fx);
    Ok(Diff(st.creates, [], None, 0, st.failed))
  }

  /** The property key a record is grouped under: String(normalize(record.getCellValue(key))). */
  function GroupKeyOf(r: Record, key: FieldId): string {
    GroupKey(Normalize(GetCellValue(r, key)))
  }

  /** _.groupBy(tableRecords, ...): records in their original order under each key. */
  function GroupBy(records: seq<Record>, key: FieldId): map<string, seq<Record>>
    decreases |records|
  {
    if records == [] then map[]
    else
      var g := GroupBy(records[..|records| - 1], key);
      var r := records[|records| - 1];
      var k := GroupKeyOf(r, key);
      g[k := (if k in g then g[k] else []) + [r]]
  }

  /** The records under key k, in order. */
  function RecordsWithKey(records: seq<Record>, key: FieldId, k: string): seq<Record>
    decreases |records|
  {
    if records == [] then []
    else
      RecordsWithKey(records[..|records| - 1], key, k)
      + (if GroupKeyOf(records[|records| - 1], key) == k then [records[|records| - 1]] else [])
  }

  /** Each group holds exactly the records with its key, in their original order. */
  lemma {:induction false} GroupByIsFilter(records: seq<Record>, key: FieldId, k: string)
    ensures k in GroupBy(records, key) <==> RecordsWithKey(records, key, k) != []
    ensures k in GroupBy(records, key) ==> GroupBy(records, key)[k] == RecordsWithKey(records, key, k)
    decreases |records|
  {
    if records != [] {
      GroupByIsFilter(records[..|records| - 1], key, k);
    }
  }

  /**
   * tableRecordsByFirstKeyField[firstKeyValue] || []: a key no group has
   * reads as undefined, except the keys every object inherits, whose
   * inherited value has no filter method.
   */
  function LookupGroup(groups: map<string, seq<Record>>, k: string): (r: Result<seq<Record>>)
    ensures r.Err? <==> k !in groups && k in ObjectPrototypeKeys
  {
    if k in groups then Ok(groups[k])
    else if k in ObjectPrototypeKeys then Err(TypeError("(tableRecordsByFirstKeyField[firstKeyValue] || []).filter is not a function"))
    else Ok([])
  }

  /** .filter(_.partial(matcher, cellValueByFieldId)). */
  function MatchingRecords(records: seq<Record>, keys: seq<FieldId>, values: RecordDef): seq<Record>
    decreases |records|
  {
    if records == [] then []
    else
      MatchingRecords(records[..|records| - 1], keys, values)
      + (if Matches(keys, values, records[|records| - 1]) then [records[|records| - 1]] else [])
  }

  lemma {:induction false} MatchingRecordsAreMatches(records: seq<Record>, keys: seq<FieldId>, values: RecordDef)
    ensures forall r | r in MatchingRecords(records, keys, values) :: r in records && Matches(keys, values, r)
    decreases |records|
  {
    if records != [] {
      MatchingRecordsAreMatches(records[..|records| - 1], keys, values);
    }
  }

  lemma {:induction false} RecordsWithKeyAreRecords(records: seq<Record>, key: FieldId, k: string)
    ensures forall r | r in RecordsWithKey(records, key, k) :: r in records
    decreases |records|
  {
    if records != [] {
      RecordsWithKeyAreRecords(records[..|records| - 1], key, k);
    }
  }

  lemma {:induction false} MatchingWithinKey(records: seq<Record>, keys: seq<FieldId>, values: RecordDef)
    requires |keys| > 0
    ensures MatchingRecords(RecordsWithKey(records, keys[0], GroupKey(Normalize(Get(values, keys[0])))), keys, values)
            == MatchingRecords(records, keys, values)
    decreases |records|
  {
    if records != [] {
      var k := GroupKey(Normalize(Get(values, keys[0])));
      var init := records[..|records| - 1];
      var last := records[|records| - 1];
      MatchingWithinKey(init, keys, values);
      var bucket := RecordsWithKey(init, keys[0], k);
      var tail := if Matches(keys, values, last) then [last] else [];
      assert MatchingRecords(records, keys, values) == MatchingRecords(init, keys, values) + tail;
      if GroupKeyOf(last, keys[0]) == k {
        var longer := bucket + [last];
        assert RecordsWithKey(records, keys[0], k) == longer;
        assert longer[..|longer| - 1] == bucket && longer[|longer| - 1] == last;
        assert MatchingRecords(longer, keys, values) == MatchingRecords(bucket, keys, values) + tail;
      } else {
        assert RecordsWithKey(records, keys[0], k) == bucket;
        OtherGroupDoesNotMatch(keys, values, last);
        assert tail == [];
      }
    }
  }

  lemma OtherGroupDoesNotMatch(keys: seq<FieldId>, values: RecordDef, r: Record)
    requires |keys| > 0
    requires GroupKeyOf(r, keys[0]) != GroupKey(Normalize(Get(values, keys[0])))
    ensures !Matches(keys, values, r)
  {
    MatcherIff(keys, values, r);
    assert !KeyAgrees(keys[0], values, r);
  }

  /**
   * Grouping by the first merge-key field is only an optimisation: when
   * the lookup succeeds, the records found in the row's group are the
   * records of the whole table that match the row.
   */
  lemma GroupedLookupFindsAllMatches(existing: seq<Record>, keys: seq<FieldId>, values: RecordDef)
    requires |keys| > 0
    requires LookupGroup(GroupBy(existing, keys[0]), GroupKey(Normalize(Get(values, keys[0])))).Ok?
    ensures var bucket := LookupGroup(GroupBy(existing, keys[0]), GroupKey(Normalize(Get(values, keys[0])))).value;
            MatchingRecords(bucket, keys, values) == MatchingRecords(existing, keys, values)
  {
    var k := GroupKey(Normalize(Get(values, keys[0])));
    GroupByIsFilter(existing, keys[0], k);
    MatchingWithinKey(existing, keys, values);
  }

  /** The row has a value other than null and the empty array; undefined counts as a value. */
  predicate HasNonEmptyValue(values: RecordDef) {
    exists k | k in values :: values[k] != Null && values[k] != List([])
  }

  /** The loop over the matched records of one row. */
  function ClaimMatches(st: DiffState, matched: seq<Record>, values: RecordDef, t: Table, mappedIds: seq<FieldId>): Result<DiffState>
    decreases |matched|
  {
    if matched == [] then Ok(st)
    else
      var rec := matched[0];
      if rec.id in st.claimed then Ok(st.(ignored := st.ignored + 1))
      else
        var changed :- AnyCellValuesDifferent(mappedIds, rec, values, t);
        var st1 := st.(claimed := st.claimed + {rec.id});
        var st2 := if changed then st1.(updates := st1.updates + [UpdateDef(rec.id, values)])
                   else st1.(unchangedById := st1.unchangedById[rec.id := values]);
        ClaimMatches(st2, matched[1..], values, t, mappedIds)
  }

  /** The body of the row loop, for one projected row. */
  function RowStep(st: DiffState, p: Projected, t: Table, keys: seq<FieldId>, groups: map<string, seq<Record>>,
                   mappedIds: seq<FieldId>): Result<DiffState>
    requires |keys| > 0
  {
    var st1 := st.(failed := MergeFailures(st.failed, p.failures));
    if !HasNonEmptyValue(p.values) then Ok(st1)
    else
      var bucket :- LookupGroup(groups, GroupKey(Normalize(Get(p.values, keys[0]))));
      var matched := MatchingRecords(bucket, keys, p.values);
      if matched == [] then Ok(st1.(creates := st1.creates + [p.values]))
      else ClaimMatches(st1, matched, p.values, t, mappedIds)
  }

  /** The row loop of the merging path, as the state after the first |rows| rows. */
  function SlowRows(rows: seq<seq<string>>, table: Option<Table>, mappings: FieldMappings, keys: seq<FieldId>,
                    groups: map<string, seq<Record>>, mappedIds: seq<FieldId>, fx: Foreign): Result<DiffState>
    requires |keys| > 0
    decreases |rows|
  {
    if rows == [] then Ok(EmptyState)
    else
      var st :- SlowRows(rows[..|rows| - 1], table, mappings, keys, groups, mappedIds, fx);
      var p :- Project(table, mappings, rows[|rows| - 1], fx);
      RowStep(st, p, table.value, keys, groups, mappedIds)
  }

  function SlowDiff(rows: seq<seq<string>>, table: Option<Table>, mappings: FieldMappings, keys: seq<FieldId>,
                    existing: seq<Record>, mappedIds: seq<FieldId>, fx: Foreign): Result<Diff>
    requires |keys| > 0
  {
    var st :- SlowRows(rows, table, mappings, keys, GroupBy(existing, keys[0]), mappedIds, fx);
    Ok(Diff(st.creates, st.updates, Some(st.unchangedById), st.ignored, st.failed))
  }

  /** The enabled mappings' field ids: _.keys(_.pickBy(fieldMappings, m => m.isEnabled)). */
  function EnabledFieldIds(mappings: FieldMappings): set<FieldId> {
    set k | k in mappings && mappings[k].isEnabled
  }

  /** ids lists the elements of s, each once. */
  ghost predicate IsEnumeration(ids: seq<FieldId>, s: set<FieldId>) {
    (forall i, j :: 0 <= i < j < |ids| ==> ids[i] != ids[j]) && (forall x :: x in ids <==> x in s)
  }

  /** The enabled field ids in the order the mapping object enumerates them, which the model leaves open. */
  method MappedFieldIds(mappings: FieldMappings) returns (ids: seq<FieldId>)
    ensures IsEnumeration(ids, EnabledFieldIds(mappings))
  {
    ids := [];
    var remaining := EnabledFieldIds(mappings);
    while remaining != {}
      invariant remaining <= EnabledFieldIds(mappings)
      invariant forall x :: x in ids <==> x in EnabledFieldIds(mappings) - remaining
      invariant forall i, j :: 0 <= i < j < |ids| ==> ids[i] != ids[j]
      decreases remaining
    {
      var k :| k in remaining;
      assert k !in ids;
      ids := ids + [k];
      remaining := remaining - {k};
    }
  }

  lemma {:induction false} FastRowsErrorPersists(rows: seq<seq<string>>, n: nat, table: Option<Table>, mappings: FieldMappings, fx: Foreign)
    requires n <= |rows|
    requires FastRows(rows[..n], table, mappings, fx).Err?
    ensures FastRows(rows, table, mappings, fx) == FastRows(rows[..n], table, mappings, fx)
    decreases |rows| - n
  {
    if n < |rows| {
      assert rows[..n + 1][..n] == rows[..n];
      assert FastRows(rows[..n + 1], table, mappings, fx) == FastRows(rows[..n], table, mappings, fx);
      FastRowsErrorPersists(rows, n + 1, table, mappings, fx);
    } else {
      assert rows[..n] == rows;
    }
  }

  lemma {:induction false} SlowRowsErrorPersists(rows: seq<seq<string>>, n: nat, table: Option<Table>, mappings: FieldMappings,
                                                keys: seq<FieldId>, groups: map<string, seq<Record>>, mappedIds: seq<FieldId>, fx: Foreign)
    requires |keys| > 0 && n <= |rows|
    requires SlowRows(rows[..n], table, mappings, keys, groups, mappedIds, fx).Err?
    ensures SlowRows(rows, table, mappings, keys, groups, mappedIds, fx) == SlowRows(rows[..n], table, mappings, keys, groups, mappedIds, fx)
    decreases |rows| - n
  {
    if n < |rows| {
      assert rows[..n + 1][..n] == rows[..n];
      assert SlowRows(rows[..n + 1], table, mappings, keys, groups, mappedIds, fx)
             == SlowRows(rows[..n], table, mappings, keys, groups, mappedIds, fx);
      SlowRowsErrorPersists(rows, n + 1, table, mappings, keys, groups, mappedIds, fx);
    } else {
      assert rows[..n] == rows;
    }
  }

  /** The fast path's loop: each row's values are queued for creation. */
  method ComputeFastDiff(rows: seq<seq<string>>, mappings: FieldMappings, table: Option<Table>, fx: Foreign) returns (r: Result<Diff>)
    ensures r == FastDiff(rows, table, mappings, fx)
  {
    var creates: seq<RecordDef> := [];
    var failed: map<FieldId, seq<string>> := map[];
    for i := 0 to |rows|
      invariant FastRows(rows[..i], table, mappings, fx) == Ok(EmptyState.(creates := creates, failed := failed))
    {
      assert rows[..i + 1][..i] == rows[..i];
      var p := GetValuesAndFailuresByFieldIdForParsedRecord(table, mappings, rows[i], fx);
      if p.Err? {
        FastRowsErrorPersists(rows, i + 1, table, mappings, fx);
        return Err(p.error);
      }
      creates := creates + [p.value.values];
      failed := AccumulateFailures(failed, p.value.failures);
    }
    assert rows[..|rows|] == rows;
    return Ok(Diff(creates, [], None, 0, failed));
  }

  /** The loop over one row's matched records: claim each, stopping at one an earlier row claimed. */
  method ClaimMatchedRecords(diff0: DiffState, matched: seq<Record>, values: RecordDef, t: Table, mappedIds: seq<FieldId>)
    returns (r: Result<DiffState>)
    ensures r == ClaimMatches(diff0, matched, values, t, mappedIds)
  {
    var diff := diff0;
    var j := 0;
    while j < |matched|
      invariant 0 <= j <= |matched|
      invariant ClaimMatches(diff, matched[j..], values, t, mappedIds) == ClaimMatches(diff0, matched, values, t, mappedIds)
    {
      var rec := matched[j];
      assert matched[j..][1..] == matched[j + 1..];
      if rec.id in diff.claimed {
        diff := diff.(ignored := diff.ignored + 1);
        return Ok(diff);
      }
      diff := diff.(claimed := diff.claimed + {rec.id});
      var changed := AnyCellValuesDifferent(mappedIds, rec, values, t);
      if changed.Err? {
        return Err(changed.error);
      }
      if changed.value {
        diff := diff.(updates := diff.updates + [UpdateDef(rec.id, values)]);
      } else {
        diff := diff.(unchangedById := diff.unchangedById[rec.id := values]);
      }
      j := j + 1;
    }
    return Ok(diff);
  }

  /** The merging path's loop over the rows. */
  method ComputeMergingDiff(rows: seq<seq<string>>, mappings: FieldMappings, keys: seq<FieldId>, table: Option<Table>,
                            existing: seq<Record>, mappedIds: seq<FieldId>, fx: Foreign) returns (r: Result<Diff>)
    requires |keys| > 0
    ensures r == SlowDiff(rows, table, mappings, keys, existing, mappedIds, fx)
  {
    var groups := GroupBy(existing, keys[0]);
    var diff := EmptyState;
    for i := 0 to |rows|
      invariant SlowRows(rows[..i], table, mappings, keys, groups, mappedIds, fx) == Ok(diff)
    {
      assert rows[..i + 1][..i] == rows[..i];
      var p := GetValuesAndFailuresByFieldIdForParsedRecord(table, mappings, rows[i], fx);
      if p.Err? {
        SlowRowsErrorPersists(rows, i + 1, table, mappings, keys, groups, mappedIds, fx);
        return Err(p.error);
      }
      var values := p.value.values;
      ghost var target := RowStep(diff, p.value, table.value, keys, groups, mappedIds);
      var failed := AccumulateFailures(diff.failed, p.value.failures);
      diff := diff.(failed := failed);
      if HasNonEmptyValue(values) {
        var bucket := LookupGroup(groups, GroupKey(Normalize(Get(values, keys[0]))));
        if bucket.Err? {
          SlowRowsErrorPersists(rows, i + 1, table, mappings, keys, groups, mappedIds, fx);
          return Err(bucket.error);
        }
        var matched := MatchingRecords(bucket.value, keys, values);
        if |matched| > 0 {
          var claimed := ClaimMatchedRecords(diff, matched, values, table.value, mappedIds);
          if claimed.Err? {
            SlowRowsErrorPersists(rows, i + 1, table, mappings, keys, groups, mappedIds, fx);
            return Err(claimed.error);
          }
          diff := claimed.value;
        } else {
          diff := diff.(creates := diff.creates + [values]);
        }
      }
      assert target == Ok(diff);
    }
    assert rows[..|rows|] == rows;
    return Ok(Diff(diff.creates, diff.updates, Some(diff.unchangedById), diff.ignored, diff.failed));
  }

  /**
   * computeDataDiffAsync. With no existing records or no merge key every
   * row is a record to create; otherwise rows are matched against the
   * table's records on the merge key.
   */
  method ComputeDataDiff(rows: seq<seq<string>>, mappings: FieldMappings, keys: seq<FieldId>, table: Option<Table>,
                         existing: seq<Record>, fx: Foreign) returns (r: Result<Diff>)
    ensures |existing| == 0 || |keys| == 0 ==> r == FastDiff(rows, table, mappings, fx)
    ensures |existing| > 0 && |keys| > 0 ==>
              exists ids :: IsEnumeration(ids, EnabledFieldIds(mappings)) && r == SlowDiff(rows, table, mappings, keys, existing, ids, fx)
  {
    if |existing| == 0 || |keys| == 0 {
      r := ComputeFastDiff(rows, mappings, table, fx);
      return;
    }
    var mappedIds := MappedFieldIds(mappings);
    r := ComputeMergingDiff(rows, mappings, keys, table, existing, mappedIds, fx);
  }

  function IdsOf(records: seq<Record>): set<RecordId> {
    set r | r in records :: r.id
  }

  /**
   * What the row loop keeps true: every claimed record exists, is either
   * updated once or unchanged, never both.
   */
  ghost predicate Consistent(st: DiffState, existingIds: set<RecordId>) {
    (forall i, j :: 0 <= i < j < |st.updates| ==> st.updates[i].id != st.updates[j].id)
    && (forall i :: 0 <= i < |st.updates| ==> st.updates[i].id in st.claimed && st.updates[i].id !in st.unchangedById)
    && st.unchangedById.Keys <= st.claimed
    && (forall id | id in st.claimed :: id in st.unchangedById || exists i :: 0 <= i < |st.updates| && st.updates[i].id == id)
    && st.claimed <= existingIds
  }

  /** How far the loop has got: rows queued for creation, records claimed, rows ignored. */
  function Progress(st: DiffState): nat {
    |st.creates| + |st.claimed| + st.ignored
  }

  lemma {:induction false} ClaimMatchesFacts(st: DiffState, matched: seq<Record>, values: RecordDef, t: Table,
                                            mappedIds: seq<FieldId>, existingIds: set<RecordId>)
    requires Consistent(st, existingIds)
    requires forall r | r in matched :: r.id in existingIds
    requires ClaimMatches(st, matched, values, t, mappedIds).Ok?
    ensures var st' := ClaimMatches(st, matched, values, t, mappedIds).value;
            Consistent(st', existingIds)
            && st'.creates == st.creates && st'.failed == st.failed
            && st.ignored <= st'.ignored <= st.ignored + 1
            && Progress(st') >= Progress(st)
            && (matched != [] ==> Progress(st') > Progress(st))
    decreases |matched|
  {
    if matched != [] && matched[0].id !in st.claimed {
      var rec := matched[0];
      var changed := AnyCellValuesDifferent(mappedIds, rec, values, t).value;
      var st1 := st.(claimed := st.claimed + {rec.id});
      var st2 := if changed then st1.(updates := st1.updates + [UpdateDef(rec.id, values)])
                 else st1.(unchangedById := st1.unchangedById[rec.id := values]);
      assert rec in matched;
      ClaimKeepsConsistent(st, rec.id, values, changed, existingIds);
      assert forall r | r in matched[1..] :: r in matched;
      ClaimMatchesFacts(st2, matched[1..], values, t, mappedIds, existingIds);
    }
  }

  /** Claiming one unclaimed, existing record keeps the diff consistent and grows the claimed set by one. */
  lemma ClaimKeepsConsistent(st: DiffState, id: RecordId, values: RecordDef, changed: bool, existingIds: set<RecordId>)
    requires Consistent(st, existingIds) && id !in st.claimed && id in existingIds
    ensures var st1 := st.(claimed := st.claimed + {id});
            var st2 := if changed then st1.(updates := st1.updates + [UpdateDef(id, values)])
                       else st1.(unchangedById := st1.unchangedById[id := values]);
            Consistent(st2, existingIds) && |st2.claimed| == |st.claimed| + 1
  {
    var st1 := st.(claimed := st.claimed + {id});
    if changed {
      var st2 := st1.(updates := st1.updates + [UpdateDef(id, values)]);
      assert forall i :: 0 <= i < |st.updates| ==> st2.updates[i] == st.updates[i];
      assert st2.updates[|st.updates|].id == id;
    }
  }

  /** Rows, among the first |rows|, that project without error to at least one non-empty value. */
  ghost function RowsWithValues(rows: seq<seq<string>>, table: Option<Table>, mappings: FieldMappings, fx: Foreign): nat
    decreases |rows|
  {
    if rows == [] then 0
    else
      var p := Project(table, mappings, rows[|rows| - 1], fx);
      RowsWithValues(rows[..|rows| - 1], table, mappings, fx) + (if p.Ok? && HasNonEmptyValue(p.value.values) then 1 else 0)
  }

  /**
   * One row: a row without a non-empty value only adds its failures; any
   * other row is queued for creation, or claims at least one record, or is
   * ignored, and never both queued and ignored.
   */
  lemma RowStepFacts(st: DiffState, p: Projected, t: Table, keys: seq<FieldId>, existing: seq<Record>, mappedIds: seq<FieldId>)
    requires |keys| > 0
    requires Consistent(st, IdsOf(existing))
    requires RowStep(st, p, t, keys, GroupBy(existing, keys[0]), mappedIds).Ok?
    ensures var st' := RowStep(st, p, t, keys, GroupBy(existing, keys[0]), mappedIds).value;
            Consistent(st', IdsOf(existing))
            && st'.failed == MergeFailures(st.failed, p.failures)
            && (!HasNonEmptyValue(p.values) ==> st' == st.(failed := st'.failed))
            && (HasNonEmptyValue(p.values) ==> Progress(st') > Progress(st))
            && |st'.creates| + st'.ignored <= |st.creates| + st.ignored + (if HasNonEmptyValue(p.values) then 1 else 0)
  {
    var groups := GroupBy(existing, keys[0]);
    var st1 := st.(failed := MergeFailures(st.failed, p.failures));
    assert Consistent(st1, IdsOf(existing));
    if HasNonEmptyValue(p.values) {
      var k := GroupKey(Normalize(Get(p.values, keys[0])));
      var bucket := LookupGroup(groups, k).value;
      GroupByIsFilter(existing, keys[0], k);
      RecordsWithKeyAreRecords(existing, keys[0], k);
      var matched := MatchingRecords(bucket, keys, p.values);
      MatchingRecordsAreMatches(bucket, keys, p.values);
      if matched != [] {
        assert forall r | r in matched :: r.id in IdsOf(existing);
        ClaimMatchesFacts(st1, matched, p.values, t, mappedIds, IdsOf(existing));
      }
    }
  }

  /**
   * The merging path as a whole: updates name distinct records, none of
   * them unchanged, all of them existing; each row with a value is
   * accounted for, and at most one create or one ignore comes from a row.
   */
  lemma {:induction false} SlowRowsFacts(rows: seq<seq<string>>, table: Option<Table>, mappings: FieldMappings,
                                        keys: seq<FieldId>, existing: seq<Record>, mappedIds: seq<FieldId>, fx: Foreign)
    requires |keys| > 0
    requires SlowRows(rows, table, mappings, keys, GroupBy(existing, keys[0]), mappedIds, fx).Ok?
    ensures var st := SlowRows(rows, table, mappings, keys, GroupBy(existing, keys[0]), mappedIds, fx).value;
            Consistent(st, IdsOf(existing))
            && Progress(st) >= RowsWithValues(rows, table, mappings, fx)
            && |st.creates| + st.ignored <= RowsWithValues(rows, table, mappings, fx)
    decreases |rows|
  {
    if rows != [] {
      var init := rows[..|rows| - 1];
      SlowRowsFacts(init, table, mappings, keys, existing, mappedIds, fx);
      var st := SlowRows(init, table, mappings, keys, GroupBy(existing, keys[0]), mappedIds, fx).value;
      var p := Project(table, mappings, rows[|rows| - 1], fx).value;
      RowStepFacts(st, p, table.value, keys, existing, mappedIds);
    }
  }

  /** The diff of the merging path: distinct updates, disjoint from the unchanged records, all existing records. */
  lemma MergingDiffFacts(rows: seq<seq<string>>, table: Option<Table>, mappings: FieldMappings,
                         keys: seq<FieldId>, existing: seq<Record>, mappedIds: seq<FieldId>, fx: Foreign)
    requires |keys| > 0
    requires SlowDiff(rows, table, mappings, keys, existing, mappedIds, fx).Ok?
    ensures var d := SlowDiff(rows, table, mappings, keys, existing, mappedIds, fx).value;
            d.unchangedRecordsById.Some?
            && (forall i, j :: 0 <= i < j < |d.recordDefsToUpdate| ==> d.recordDefsToUpdate[i].id != d.recordDefsToUpdate[j].id)
            && (forall u | u in d.recordDefsToUpdate :: u.id !in d.unchangedRecordsById.value && u.id in IdsOf(existing))
            && d.unchangedRecordsById.value.Keys <= IdsOf(existing)
            && |d.recordDefsToCreate| + d.numIgnoredParsedRowsDueToDuplicateMatch <= RowsWithValues(rows, table, mappings, fx)
            && |d.recordDefsToCreate| + |d.recordDefsToUpdate| + |d.unchangedRecordsById.value| + d.numIgnoredParsedRowsDueToDuplicateMatch
               >= RowsWithValues(rows, table, mappings, fx)
  {
    SlowRowsFacts(rows, table, mappings, keys, existing, mappedIds, fx);
    var st := SlowRows(rows, table, mappings, keys, GroupBy(existing, keys[0]), mappedIds, fx).value;
    ClaimedSize(st, IdsOf(existing));
  }

  lemma ClaimedSize(st: DiffState, existingIds: set<RecordId>)
    requires Consistent(st, existingIds)
    ensures |st.claimed| <= |st.updates| + |st.unchangedById|
  {
    var updateIds := set i | 0 <= i < |st.updates| :: st.updates[i].id;
    assert st.claimed <= updateIds + st.unchangedById.Keys;
    SubsetSize(st.claimed, updateIds + st.unchangedById.Keys);
    IndexImageSize(st.updates);
  }

  lemma {:induction false} IndexImageSize(us: seq<UpdateDef>)
    ensures |set i | 0 <= i < |us| :: us[i].id| <= |us|
    decreases |us|
  {
    if us != [] {
      var init := us[..|us| - 1];
      IndexImageSize(init);
      var a := set i | 0 <= i < |init| :: init[i].id;
      var b := set i | 0 <= i < |us| :: us[i].id;
      assert b == a + {us[|us| - 1].id} by {
        forall x | x in b
          ensures x in a + {us[|us| - 1].id}
        {
          var i :| 0 <= i < |us| && us[i].id == x;
          if i < |init| {
            assert init[i] == us[i];
          }
        }
        forall x | x in a
          ensures x in b
        {
          var i :| 0 <= i < |init| && init[i].id == x;
          assert us[i] == init[i];
        }
      }
    }
  }

  lemma {:induction false} SubsetSize<T>(a: set<T>, b: set<T>)
    requires a <= b
    ensures |a| <= |b|
  {
    assert b == a + (b - a);
  }

  /** No record holds key k, so the records with key k are none. */
  lemma {:induction false} NoRecordsWithKey(records: seq<Record>, key: FieldId, k: string)
    requires forall r | r in records :: GroupKeyOf(r, key) != k
    ensures RecordsWithKey(records, key, k) == []
    decreases |records|
  {
    if records != [] {
      assert forall r | r in records[..|records| - 1] :: r in records;
      NoRecordsWithKey(records[..|records| - 1], key, k);
    }
  }

  lemma ToStringGroupKey()
    ensures GroupKey(Normalize(Str("toString"))) == "toString"
  {
    NormalizePlainString("toString");
  }

  /** A row with a value whose group lookup throws makes the row step throw. */
  lemma RowStepLookupFails(st: DiffState, p: Projected, t: Table, keys: seq<FieldId>, groups: map<string, seq<Record>>,
                           mappedIds: seq<FieldId>)
    requires |keys| > 0 && HasNonEmptyValue(p.values)
    requires LookupGroup(groups, GroupKey(Normalize(Get(p.values, keys[0])))).Err?
    ensures RowStep(st, p, t, keys, groups, mappedIds).Err?
  {
  }

  /**
   * A row whose first merge-key value is the string "toString", compared
   * against a table in which no record has that value, makes the diff
   * throw: the group lookup reads Object.prototype.toString.
   */
  lemma InheritedKeyRowThrows(st: DiffState, t: Table, key: FieldId, existing: seq<Record>, mappedIds: seq<FieldId>)
    requires forall r | r in existing :: GroupKeyOf(r, key) != "toString"
    ensures RowStep(st, Projected(map[key := Str("toString")], map[]), t, [key], GroupBy(existing, key), mappedIds).Err?
  {
    var values := map[key := Str("toString")];
    ToStringGroupKey();
    assert Get(values, key) == Str("toString");
    assert HasNonEmptyValue(values) by {
      assert values[key] != Null && values[key] != List([]);
    }
    NoRecordsWithKey(existing, key, "toString");
    GroupByIsFilter(existing, key, "toString");
    assert "toString" in ObjectPrototypeKeys;
    RowStepLookupFails(st, Projected(values, map[]), t, [key], GroupBy(existing, key), mappedIds);
  }

  /**
   * One row can update several records: every record it matches is
   * claimed, so a row is not processed into at most one outcome.
   */
  lemma OneRowUpdatesEveryMatch(st: DiffState, r1: Record, r2: Record, values: RecordDef, t: Table, mappedIds: seq<FieldId>)
    requires r1.id != r2.id && r1.id !in st.claimed && r2.id !in st.claimed
    requires AnyCellValuesDifferent(mappedIds, r1, values, t) == Ok(true)
    requires AnyCellValuesDifferent(mappedIds, r2, values, t) == Ok(true)
    ensures ClaimMatches(st, [r1, r2], values, t, mappedIds)
            == Ok(st.(claimed := st.claimed + {r1.id, r2.id},
                      updates := st.updates + [UpdateDef(r1.id, values), UpdateDef(r2.id, values)]))
  {
    assert [r1, r2][1..] == [r2];
    assert [r2][1..] == [];
    var st2 := st.(claimed := st.claimed + {r1.id}, updates := st.updates + [UpdateDef(r1.id, values)]);
    assert ClaimMatches(st, [r1, r2], values, t, mappedIds) == ClaimMatches(st2, [r2], values, t, mappedIds);
    var st3 := st2.(claimed := st2.claimed + {r2.id}, updates := st2.updates + [UpdateDef(r2.id, values)]);
    assert ClaimMatches(st2, [r2], values, t, mappedIds) == ClaimMatches(st3, [], values, t, mappedIds);
    assert st.claimed + {r1.id} + {r2.id} == st.claimed + {r1.id, r2.id};
    assert st.updates + [UpdateDef(r1.id, values)] + [UpdateDef(r2.id, values)]
        == st.updates + [UpdateDef(r1.id, values), UpdateDef(r2.id, values)];
  }

  /**
   * How many of the matched records the loop claims: it stops at the first
   * record already claimed, by an earlier row or earlier in the same list.
   */
  function ClaimRun(claimed: set<RecordId>, ms: seq<Record>): (k: nat)
    ensures k <= |ms|
    decreases |ms|
  {
    if ms == [] || ms[0].id in claimed then 0 else 1 + ClaimRun(claimed + {ms[0].id}, ms[1..])
  }

  /** The updates claimed records produce, in their order: one per record whose cells differ from the row. */
  function ChangedUpdates(ms: seq<Record>, values: RecordDef, t: Table, mappedIds: seq<FieldId>): seq<UpdateDef>
    decreases |ms|
  {
    if ms == [] then []
    else (if AnyCellValuesDifferent(mappedIds, ms[0], values, t) == Ok(true) then [UpdateDef(ms[0].id, values)] else [])
         + ChangedUpdates(ms[1..], values, t, mappedIds)
  }

  /** The ids of the records whose cells all agree with the row. */
  function UnchangedIds(ms: seq<Record>, values: RecordDef, t: Table, mappedIds: seq<FieldId>): set<RecordId> {
    set r | r in ms && AnyCellValuesDifferent(mappedIds, r, values, t) == Ok(false) :: r.id
  }

  /** Every id in ids mapped to v. */
  function ConstMap(ids: set<RecordId>, v: RecordDef): (m: map<RecordId, RecordDef>)
    ensures m.Keys == ids && forall id | id in m :: m[id] == v
  {
    map id | id in ids :: v
  }

  /** The records the loop claims before it stops. */
  function ClaimedRun(claimed: set<RecordId>, matched: seq<Record>): seq<Record> {
    matched[..ClaimRun(claimed, matched)]
  }

  /**
   * What the loop over one row's matched records leaves: the run of
   * records before the first already-claimed one is claimed, each of them
   * queued as an update when a cell differs and recorded as unchanged
   * otherwise; the row counts as ignored exactly when the run stops early.
   * The records after the stop are not looked at.
   */
  function ClaimedState(st: DiffState, matched: seq<Record>, values: RecordDef, t: Table, mappedIds: seq<FieldId>): DiffState {
    var run := ClaimedRun(st.claimed, matched);
    Advance(st, values, IdsOf(run), ChangedUpdates(run, values, t, mappedIds), UnchangedIds(run, values, t, mappedIds),
            if |run| < |matched| then 1 else 0)
  }

  /** The state with a run's effects added: ids claimed, updates queued, ids recorded as unchanged, extra rows ignored. */
  function Advance(st: DiffState, values: RecordDef, ids: set<RecordId>, cu: seq<UpdateDef>, u: set<RecordId>, extra: nat): DiffState {
    st.(claimed := st.claimed + ids, updates := st.updates + cu,
        unchangedById := st.unchangedById + ConstMap(u, values), ignored := st.ignored + extra)
  }

  /** A run that stops at once leaves the state as it was, the row ignored when there was a match. */
  lemma ClaimedStateEmptyRun(st: DiffState, matched: seq<Record>, values: RecordDef, t: Table, mappedIds: seq<FieldId>)
    requires ClaimRun(st.claimed, matched) == 0
    ensures ClaimedState(st, matched, values, t, mappedIds) == st.(ignored := st.ignored + (if matched != [] then 1 else 0))
  {
    assert ClaimedRun(st.claimed, matched) == [];
    assert IdsOf([]) == {} && UnchangedIds([], values, t, mappedIds) == {};
    assert st.unchangedById + ConstMap({}, values) == st.unchangedById;
    assert st.updates + [] == st.updates && st.claimed + {} == st.claimed;
  }

  lemma RunCons(rec: Record, run': seq<Record>, values: RecordDef, t: Table, mappedIds: seq<FieldId>)
    ensures IdsOf([rec] + run') == {rec.id} + IdsOf(run')
    ensures UnchangedIds([rec] + run', values, t, mappedIds)
            == (if AnyCellValuesDifferent(mappedIds, rec, values, t) == Ok(false) then {rec.id} else {}) + UnchangedIds(run', values, t, mappedIds)
    ensures ChangedUpdates([rec] + run', values, t, mappedIds)
            == (if AnyCellValuesDifferent(mappedIds, rec, values, t) == Ok(true) then [UpdateDef(rec.id, values)] else [])
               + ChangedUpdates(run', values, t, mappedIds)
  {
    var run := [rec] + run';
    assert run[0] == rec && run[1..] == run';
    assert forall r :: r in run <==> r == rec || r in run';
  }

  lemma ConstMapInsert(m: map<RecordId, RecordDef>, id: RecordId, ids: set<RecordId>, v: RecordDef)
    ensures m[id := v] + ConstMap(ids, v) == m + ConstMap({id} + ids, v)
  {
  }

  /** The state after claiming the record id, queued as an update when changed and recorded as unchanged otherwise. */
  function Claim(st: DiffState, id: RecordId, values: RecordDef, changed: bool): DiffState {
    var st1 := st.(claimed := st.claimed + {id});
    if changed then st1.(updates := st1.updates + [UpdateDef(id, values)])
    else st1.(unchangedById := st1.unchangedById[id := values])
  }

  /** The first matched record is claimed and its comparison does not throw. */
  predicate RunStep(st: DiffState, matched: seq<Record>, values: RecordDef, t: Table, mappedIds: seq<FieldId>) {
    matched != [] && matched[0].id !in st.claimed && AnyCellValuesDifferent(mappedIds, matched[0], values, t).Ok?
  }

  /** A run that starts with an unclaimed record is that record followed by the run of the rest. */
  lemma ClaimedRunCons(claimed: set<RecordId>, matched: seq<Record>)
    requires matched != [] && matched[0].id !in claimed
    ensures ClaimedRun(claimed, matched) == [matched[0]] + ClaimedRun(claimed + {matched[0].id}, matched[1..])
  {
    var k := ClaimRun(claimed, matched);
    assert k == 1 + ClaimRun(claimed + {matched[0].id}, matched[1..]);
    assert matched[..k] == [matched[0]] + matched[1..][..k - 1];
  }

  /** Claiming id and then adding a run's effects is adding the effects of id followed by the run. */
  lemma ClaimCombine(st: DiffState, id: RecordId, values: RecordDef, changed: bool,
                     ids: set<RecordId>, cu: seq<UpdateDef>, u: set<RecordId>, extra: nat)
    ensures Advance(Claim(st, id, values, changed), values, ids, cu, u, extra)
            == Advance(st, values, {id} + ids, (if changed then [UpdateDef(id, values)] else []) + cu,
                       (if changed then {} else {id}) + u, extra)
  {
    if changed {
      ConcatAssoc(st.updates, [UpdateDef(id, values)], cu);
      assert {} + u == u;
    } else {
      assert [] + cu == cu;
      ConstMapInsert(st.unchangedById, id, u, values);
    }
  }

  /** Claiming the first record of the run moves the rest of the run on by one. */
  lemma ClaimedStateStep(st: DiffState, matched: seq<Record>, values: RecordDef, t: Table, mappedIds: seq<FieldId>)
    requires RunStep(st, matched, values, t, mappedIds)
    ensures var st2 := Claim(st, matched[0].id, values, AnyCellValuesDifferent(mappedIds, matched[0], values, t).value);
            ClaimedState(st2, matched[1..], values, t, mappedIds) == ClaimedState(st, matched, values, t, mappedIds)
  {
    var rec := matched[0];
    var changed := AnyCellValuesDifferent(mappedIds, rec, values, t).value;
    var st2 := Claim(st, rec.id, values, changed);
    var run' := ClaimedRun(st2.claimed, matched[1..]);
    ClaimedRunCons(st.claimed, matched);
    RunCons(rec, run', values, t, mappedIds);
    var extra := if |run'| < |matched[1..]| then 1 else 0;
    ClaimCombine(st, rec.id, values, changed, IdsOf(run'), ChangedUpdates(run', values, t, mappedIds),
                 UnchangedIds(run', values, t, mappedIds), extra);
  }

  /**
   * The loop over one row's matched records, exactly: it throws when the
   * comparison of a record in the run throws, and otherwise ends in
   * ClaimedState.
   */
  lemma {:induction false} ClaimMatchesExact(st: DiffState, matched: seq<Record>, values: RecordDef, t: Table, mappedIds: seq<FieldId>)
    ensures var k := ClaimRun(st.claimed, matched);
            var r := ClaimMatches(st, matched, values, t, mappedIds);
            && (r.Ok? <==> forall i | 0 <= i < k :: AnyCellValuesDifferent(mappedIds, matched[i], values, t).Ok?)
            && (r.Ok? ==> r.value == ClaimedState(st, matched, values, t, mappedIds))
    decreases |matched|
  {
    if matched == [] || matched[0].id in st.claimed {
      ClaimedStateEmptyRun(st, matched, values, t, mappedIds);
    } else if AnyCellValuesDifferent(mappedIds, matched[0], values, t).Ok? {
      var rec := matched[0];
      var st2 := Claim(st, rec.id, values, AnyCellValuesDifferent(mappedIds, rec, values, t).value);
      ClaimMatchesExact(st2, matched[1..], values, t, mappedIds);
      ClaimedStateStep(st, matched, values, t, mappedIds);
      assert forall i | 1 <= i < |matched| :: matched[i] == matched[1..][i - 1];
    }
  }

  /**
   * The row step by cases, against the matches in the whole table: a row
   * without a value only adds its failures, a row whose group lookup
   * throws makes the step throw, a row with no match is queued for
   * creation, and a row with matches claims them.
   */
  lemma RowStepCases(st: DiffState, p: Projected, t: Table, keys: seq<FieldId>, existing: seq<Record>, mappedIds: seq<FieldId>)
    requires |keys| > 0
    ensures var groups := GroupBy(existing, keys[0]);
            var st1 := st.(failed := MergeFailures(st.failed, p.failures));
            var lookup := LookupGroup(groups, GroupKey(Normalize(Get(p.values, keys[0]))));
            var matched := MatchingRecords(existing, keys, p.values);
            var r := RowStep(st, p, t, keys, groups, mappedIds);
            && (!HasNonEmptyValue(p.values) ==> r == Ok(st1))
            && (HasNonEmptyValue(p.values) && lookup.Err? ==> r == Err(lookup.error))
            && (HasNonEmptyValue(p.values) && lookup.Ok? && matched == [] ==> r == Ok(st1.(creates := st.creates + [p.values])))
            && (HasNonEmptyValue(p.values) && lookup.Ok? && matched != [] ==> r == ClaimMatches(st1, matched, p.values, t, mappedIds))
  {
    var groups := GroupBy(existing, keys[0]);
    if LookupGroup(groups, GroupKey(Normalize(Get(p.values, keys[0])))).Ok? {
      GroupedLookupFindsAllMatches(existing, keys, p.values);
    }
  }

  /** A row whose first match an earlier row already claimed is ignored, and nothing else changes. */
  lemma ClaimedMatchIsIgnored(st: DiffState, matched: seq<Record>, values: RecordDef, t: Table, mappedIds: seq<FieldId>)
    requires |matched| > 0 && matched[0].id in st.claimed
    ensures ClaimMatches(st, matched, values, t, mappedIds) == Ok(st.(ignored := st.ignored + 1))
  {
  }

  /** On the fast path every row, in order, becomes one record to create, and nothing is updated or ignored. */
  lemma {:induction false} FastPathCreatesEveryRow(rows: seq<seq<string>>, table: Option<Table>, mappings: FieldMappings, fx: Foreign)
    requires FastRows(rows, table, mappings, fx).Ok?
    ensures var st := FastRows(rows, table, mappings, fx).value;
            |st.creates| == |rows| && st.updates == [] && st.ignored == 0 && st.claimed == {}
            && forall i :: 0 <= i < |rows| ==> Project(table, mappings, rows[i], fx).Ok?
                                               && st.creates[i] == Project(table, mappings, rows[i], fx).value.values
    decreases |rows|
  {
    if rows != [] {
      var init := rows[..|rows| - 1];
      FastPathCreatesEveryRow(init, table, mappings, fx);
      assert forall i :: 0 <= i < |init| ==> rows[i] == init[i];
    }
  }
}
