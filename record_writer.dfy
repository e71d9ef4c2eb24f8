/**
 * createOrUpdateRecordsAsync: writing a diff into the base. Linked record
 * names are collected per linked table, missing linked records are
 * created one by one, link cells are rewritten from {name} to {id}, and
 * the records are updated and created in batches of 50
 * (frontend/headersValuesMappingHelpers.ts).
 */
module RecordWriter {
  import opened JsRuntime
  import opened Schema
  import opened SupportedFieldTypes
  import opened DataDiff

  /** Records per updateRecordsAsync / createRecordsAsync call, to stay below the request size limit. */
  const RecordBatchSize: nat := 50

  // ---------------------------------------------------------------- the base

  /** A write the importer sent to the base. */
  datatype Write =
    | CreateOne(tableId: TableId, fields: RecordDef)        // createRecordAsync
    | UpdateBatch(tableId: TableId, updates: seq<UpdateDef>) // updateRecordsAsync
    | CreateBatch(tableId: TableId, defs: seq<RecordDef>)    // createRecordsAsync

  /** The id the base gives the n-th record created through the store. */
  function MintedId(n: nat): (id: RecordId)
    ensures id != ""
  {
    "recImported" + NatToString(n)
  }

  function ApplyUpdate(cells: map<FieldId, CellValue>, id: RecordId, us: seq<UpdateDef>): map<FieldId, CellValue>
    decreases |us|
  {
    if us == [] then cells
    else ApplyUpdate(if us[0].id == id then cells + us[0].fields else cells, id, us[1..])
  }

  /** Every record with the updates addressed to its id applied. */
  function Updated(records: seq<Record>, us: seq<UpdateDef>): (r: seq<Record>)
    ensures |r| == |records|
    ensures forall i :: 0 <= i < |r| ==> r[i].id == records[i].id && r[i].primaryText == records[i].primaryText
  {
    seq(|records|, i requires 0 <= i < |records| => records[i].(cells := ApplyUpdate(records[i].cells, records[i].id, us)))
  }

  /** One table's records: those it has, none if it has no entry. */
  function SnapOf(rows: map<TableId, seq<Record>>, tid: TableId): seq<Record> {
    if tid in rows then rows[tid] else []
  }

  /** The record the base stores for fields under id; its primary cell text is read from its fields. */
  function NewRecordIn(schema: Base, tid: TableId, id: RecordId, fields: RecordDef): Record {
    var text := if tid in schema && schema[tid].primaryField.id in fields
                then JsToString(fields[schema[tid].primaryField.id]) else "";
    Record(id, fields, text)
  }

  /**
   * The records of the base, with every write logged. A query result is
   * a snapshot of one table's records.
   */
  class Store {
    const schema: Base
    var rows: map<TableId, seq<Record>>
    var log: seq<Write>
    var minted: nat

    constructor (schema: Base, rows: map<TableId, seq<Record>>)
      ensures this.schema == schema && this.rows == rows && log == [] && minted == 0
    {
      this.schema := schema;
      this.rows := rows;
      log := [];
      minted := 0;
    }

    function Snapshot(tid: TableId): seq<Record>
      reads this
    {
      SnapOf(rows, tid)
    }

    function NewRecord(tid: TableId, id: RecordId, fields: RecordDef): Record {
      NewRecordIn(schema, tid, id, fields)
    }

    /** table.createRecordAsync(fields). */
    method CreateRecord(tid: TableId, fields: RecordDef) returns (id: RecordId)
      modifies this
      ensures id == MintedId(old(minted)) && minted == old(minted) + 1
      ensures log == old(log) + [CreateOne(tid, fields)]
      ensures rows == old(rows)[tid := SnapOf(old(rows), tid) + [NewRecord(tid, id, fields)]]
    {
      id := MintedId(minted);
      rows := rows[tid := Snapshot(tid) + [NewRecord(tid, id, fields)]];
      log := log + [CreateOne(tid, fields)];
      minted := minted + 1;
    }

    /** table.updateRecordsAsync(updates). */
    method UpdateRecords(tid: TableId, us: seq<UpdateDef>)
      modifies this
      ensures minted == old(minted)
      ensures log == old(log) + [UpdateBatch(tid, us)]
      ensures rows == old(rows)[tid := Updated(SnapOf(old(rows), tid), us)]
    {
      rows := rows[tid := Updated(Snapshot(tid), us)];
      log := log + [UpdateBatch(tid, us)];
    }

    /** table.createRecordsAsync(defs). */
    method CreateRecords(tid: TableId, defs: seq<RecordDef>)
      modifies this
      ensures minted == old(minted) + |defs|
      ensures log == old(log) + [CreateBatch(tid, defs)]
      ensures rows == old(rows)[tid := SnapOf(old(rows), tid) + seq(|defs|, i requires 0 <= i < |defs| => NewRecord(tid, MintedId(old(minted) + i), defs[i]))]
    {
      var m := minted;
      rows := rows[tid := Snapshot(tid) + seq(|defs|, i requires 0 <= i < |defs| => NewRecord(tid, MintedId(m + i), defs[i]))];
      log := log + [CreateBatch(tid, defs)];
      minted := minted + |defs|;
    }
  }

  // ------------------------------------------------- collecting linked names

  /** The names to resolve in one linked table, in first-seen order (a Set). */
  datatype LinkedNames = LinkedNames(tableId: TableId, names: seq<string>)

  /**
   * linkedRecordNamesSetByLinkedTableId and linkedTableIdByLinkedRecordFieldId,
   * both in key insertion order.
   */
  datatype LinkPlan = LinkPlan(tables: seq<LinkedNames>, linkFields: seq<(FieldId, TableId)>)

  const EmptyPlan := LinkPlan([], [])

  /** No string occurs twice: each one is new with respect to those before it. */
  predicate DistinctStrings(s: seq<string>)
    decreases |s|
  {
    s == [] || (DistinctStrings(s[..|s| - 1]) && s[|s| - 1] !in s[..|s| - 1])
  }

  lemma {:induction false} DistinctAt(s: seq<string>, i: nat)
    requires DistinctStrings(s) && i < |s|
    ensures s[i] !in s[..i] && DistinctStrings(s[..i])
    decreases |s|
  {
    var init := s[..|s| - 1];
    if i < |init| {
      DistinctAt(init, i);
      assert init[..i] == s[..i];
    }
  }

  /** Pairwise form of DistinctStrings. */
  lemma DistinctPairs(s: seq<string>, i: nat, j: nat)
    requires DistinctStrings(s) && i < j < |s|
    ensures s[i] != s[j]
  {
    DistinctAt(s, j);
    assert s[i] == s[..j][i];
  }

  predicate WellFormedPlan(plan: LinkPlan) {
    (forall i, j :: 0 <= i < j < |plan.tables| ==> plan.tables[i].tableId != plan.tables[j].tableId)
    && (forall i :: 0 <= i < |plan.tables| ==> DistinctStrings(plan.tables[i].names))
    && (forall i, j :: 0 <= i < j < |plan.linkFields| ==> plan.linkFields[i].0 != plan.linkFields[j].0)
  }

  /** Set.prototype.add for each name in turn. */
  function AddToSet(names: seq<string>, more: seq<string>): (r: seq<string>)
    requires DistinctStrings(names)
    ensures DistinctStrings(r)
    ensures forall n :: n in r <==> n in names || n in more
    decreases |more|
  {
    if more == [] then names
    else
      var next := if more[0] in names then names else names + [more[0]];
      assert more[0] !in names ==> next[..|next| - 1] == names;
      assert forall n :: n in more <==> n == more[0] || n in more[1..];
      AddToSet(next, more[1..])
  }

  /** Adding names to the set of one linked table, creating the table's set when it has none. */
  function AddLinkedNames(tables: seq<LinkedNames>, tid: TableId, more: seq<string>): (r: seq<LinkedNames>)
    requires forall i :: 0 <= i < |tables| ==> DistinctStrings(tables[i].names)
    ensures forall i :: 0 <= i < |r| ==> DistinctStrings(r[i].names)
    ensures forall i :: 0 <= i < |r| ==> r[i].tableId == tid || exists j :: 0 <= j < |tables| && tables[j].tableId == r[i].tableId
    ensures (forall i, j :: 0 <= i < j < |tables| ==> tables[i].tableId != tables[j].tableId)
            ==> forall i, j :: 0 <= i < j < |r| ==> r[i].tableId != r[j].tableId
    decreases |tables|
  {
    if tables == [] then [LinkedNames(tid, AddToSet([], more))]
    else if tables[0].tableId == tid then [tables[0].(names := AddToSet(tables[0].names, more))] + tables[1..]
    else
      var rest := AddLinkedNames(tables[1..], tid, more);
      assert forall i :: 1 <= i < |tables| ==> tables[i] == tables[1..][i - 1];
      var r := [tables[0]] + rest;
      assert forall i :: 1 <= i < |r| ==> r[i] == rest[i - 1];
      r
  }

  /** linkedTableIdByLinkedRecordFieldId[field.id] = linkedTableId. */
  function AddLinkField(lf: seq<(FieldId, TableId)>, fid: FieldId, tid: TableId): (r: seq<(FieldId, TableId)>)
    ensures (forall i, j :: 0 <= i < j < |lf| ==> lf[i].0 != lf[j].0) ==> forall i, j :: 0 <= i < j < |r| ==> r[i].0 != r[j].0
    ensures exists i :: 0 <= i < |r| && r[i].0 == fid
  {
    if exists i :: 0 <= i < |lf| && lf[i].0 == fid then lf
    else
      assert (lf + [(fid, tid)])[|lf|].0 == fid;
      lf + [(fid, tid)]
  }

  /** The .name of every element of a link cell, which must be a list of {name} values. */
  function ElementNames(v: CellValue): (r: Result<seq<string>>)
    ensures r.Ok? ==> v.List? && |r.value| == |v.items| && forall i :: 0 <= i < |v.items| ==> Prop(v.items[i], "name") == Ok(Str(r.value[i]))
  {
    match v
    case List(xs) => ElementNamesOf(xs)
    case Str(_) => Err(UnexpectedLinkValue)
    case _ => Err(TypeError("cellValue is not iterable"))
  }

  function ElementNamesOf(xs: seq<CellValue>): (r: Result<seq<string>>)
    ensures r.Ok? ==> |r.value| == |xs| && forall i :: 0 <= i < |xs| ==> Prop(xs[i], "name") == Ok(Str(r.value[i]))
  {
    if xs == [] then Ok([])
    else
      var n :- Prop(xs[0], "name");
      if !n.Str? then Err(UnexpectedLinkValue)
      else
        var rest :- ElementNamesOf(xs[1..]);
        assert forall i :: 1 <= i < |xs| ==> xs[i] == xs[1..][i - 1];
        Ok([n.s] + rest)
  }

  /** The record def's value for f is a link cell the collection step reads. */
  predicate IsCollectedLink(f: Field, d: RecordDef, t: Table) {
    f.id in d && GetFieldByIdIfExists(t, f.id) == Some(f) && f.fieldType == MultipleRecordLinks && !IsNullish(d[f.id])
  }

  /** One link cell's names added to the plan. */
  function AddLink(p: LinkPlan, f: Field, names: seq<string>): (r: LinkPlan)
    requires WellFormedPlan(p)
    ensures WellFormedPlan(r)
  {
    LinkPlan(AddLinkedNames(p.tables, f.linkedTableId, names), AddLinkField(p.linkFields, f.id, f.linkedTableId))
  }

  /** Reading one field's cell of a record def: a link cell's names join its linked table's set. */
  function CollectField(p: LinkPlan, d: RecordDef, f: Field, t: Table): (r: Result<LinkPlan>)
    requires WellFormedPlan(p)
    ensures r.Ok? ==> WellFormedPlan(r.value)
  {
    if IsCollectedLink(f, d, t) then
      var names :- ElementNames(d[f.id]);
      Ok(AddLink(p, f, names))
    else Ok(p)
  }

  /** The collection step for one record def, over the table's fields in order. */
  function DefLinks(plan: LinkPlan, d: RecordDef, fields: seq<Field>, t: Table): (r: Result<LinkPlan>)
    requires WellFormedPlan(plan)
    ensures r.Ok? ==> WellFormedPlan(r.value)
    decreases |fields|
  {
    if fields == [] then Ok(plan)
    else
      var p :- DefLinks(plan, d, fields[..|fields| - 1], t);
      CollectField(p, d, fields[|fields| - 1], t)
  }

  /** Every key of a record def must be a field of the table. */
  predicate HasUnknownField(d: RecordDef, t: Table) {
    exists k | k in d :: !IsFieldOf(t, k)
  }

  function PlanForDef(plan: LinkPlan, d: RecordDef, t: Table): (r: Result<LinkPlan>)
    requires WellFormedPlan(plan)
    ensures r.Ok? ==> WellFormedPlan(r.value)
  {
    if HasUnknownField(d, t) then Err(UnknownField) else DefLinks(plan, d, t.fields, t)
  }

  /** The collection loop over all record defs. */
  function LinkPlanOf(defs: seq<RecordDef>, t: Table): (r: Result<LinkPlan>)
    ensures r.Ok? ==> WellFormedPlan(r.value)
    decreases |defs|
  {
    if defs == [] then Ok(EmptyPlan)
    else
      var plan :- LinkPlanOf(defs[..|defs| - 1], t);
      PlanForDef(plan, defs[|defs| - 1], t)
  }

  lemma {:induction false} LinkPlanErrorPersists(defs: seq<RecordDef>, n: nat, t: Table)
    requires n <= |defs|
    requires LinkPlanOf(defs[..n], t).Err?
    ensures LinkPlanOf(defs, t) == LinkPlanOf(defs[..n], t)
    decreases |defs| - n
  {
    if n < |defs| {
      assert defs[..n + 1][..n] == defs[..n];
      assert LinkPlanOf(defs[..n + 1], t) == LinkPlanOf(defs[..n], t);
      LinkPlanErrorPersists(defs, n + 1, t);
    } else {
      assert defs[..n] == defs;
    }
  }

  lemma {:induction false} DefLinksErrorPersists(plan: LinkPlan, d: RecordDef, fields: seq<Field>, n: nat, t: Table)
    requires WellFormedPlan(plan)
    requires n <= |fields|
    requires DefLinks(plan, d, fields[..n], t).Err?
    ensures DefLinks(plan, d, fields, t) == DefLinks(plan, d, fields[..n], t)
    decreases |fields| - n
  {
    if n < |fields| {
      assert fields[..n + 1][..n] == fields[..n];
      assert DefLinks(plan, d, fields[..n + 1], t) == DefLinks(plan, d, fields[..n], t);
      DefLinksErrorPersists(plan, d, fields, n + 1, t);
    } else {
      assert fields[..n] == fields;
    }
  }

  lemma DefLinksStep(plan: LinkPlan, d: RecordDef, fields: seq<Field>, j: nat, t: Table)
    requires WellFormedPlan(plan)
    requires j < |fields| && DefLinks(plan, d, fields[..j], t).Ok?
    ensures DefLinks(plan, d, fields[..j + 1], t) == CollectField(DefLinks(plan, d, fields[..j], t).value, d, fields[j], t)
  {
    assert fields[..j + 1][..j] == fields[..j];
  }

  lemma LinkPlanStep(defs: seq<RecordDef>, i: nat, t: Table)
    requires i < |defs| && LinkPlanOf(defs[..i], t).Ok?
    ensures LinkPlanOf(defs[..i + 1], t) == PlanForDef(LinkPlanOf(defs[..i], t).value, defs[i], t)
  {
    assert defs[..i + 1][..i] == defs[..i];
  }

  /** The loop over one record def's link cells. */
  method CollectDefLinks(plan: LinkPlan, d: RecordDef, t: Table) returns (r: Result<LinkPlan>)
    requires WellFormedPlan(plan)
    ensures r == DefLinks(plan, d, t.fields, t)
  {
    var p := plan;
    for j := 0 to |t.fields|
      invariant WellFormedPlan(p)
      invariant DefLinks(plan, d, t.fields[..j], t) == Ok(p)
    {
      DefLinksStep(plan, d, t.fields, j, t);
      var next := CollectField(p, d, t.fields[j], t);
      if next.Err? {
        DefLinksErrorPersists(plan, d, t.fields, j + 1, t);
        return next;
      }
      p := next.value;
    }
    assert t.fields[..|t.fields|] == t.fields;
    return Ok(p);
  }

  /** The loops over the record defs and their link cells that collect linked record names. */
  method CollectLinkedRecordNames(defs: seq<RecordDef>, t: Table) returns (r: Result<LinkPlan>)
    ensures r == LinkPlanOf(defs, t)
  {
    var plan := EmptyPlan;
    for i := 0 to |defs|
      invariant LinkPlanOf(defs[..i], t) == Ok(plan)
    {
      LinkPlanStep(defs, i, t);
      var d := defs[i];
      if HasUnknownField(d, t) {
        LinkPlanErrorPersists(defs, i + 1, t);
        return Err(UnknownField);
      }
      var next := CollectDefLinks(plan, d, t);
      if next.Err? {
        LinkPlanErrorPersists(defs, i + 1, t);
        return next;
      }
      plan := next.value;
    }
    assert defs[..|defs|] == defs;
    return Ok(plan);
  }

  function SumNames(tables: seq<LinkedNames>): nat
    decreases |tables|
  {
    if tables == [] then 0 else SumNames(tables[..|tables| - 1]) + |tables[|tables| - 1].names|
  }

  /** numRecordsToBeTouched: every record def, and every distinct linked record name. */
  function TotalToTouch(defs: seq<RecordDef>, plan: LinkPlan): nat {
    |defs| + SumNames(plan.tables)
  }

  /** The names counted while resolving links: those of the linked tables that exist. */
  function LinkTouched(tables: seq<LinkedNames>, schema: Base): nat
    decreases |tables|
  {
    if tables == [] then 0
    else LinkTouched(tables[..|tables| - 1], schema)
         + (if tables[|tables| - 1].tableId in schema then |tables[|tables| - 1].names| else 0)
  }

  /** Progress reaches the announced total exactly when every linked table exists. */
  lemma {:induction false} LinkTouchedReachesTotal(tables: seq<LinkedNames>, schema: Base)
    ensures LinkTouched(tables, schema) <= SumNames(tables)
    ensures (forall g | g in tables :: g.tableId in schema) ==> LinkTouched(tables, schema) == SumNames(tables)
    ensures (exists g :: g in tables && g.tableId !in schema && g.names != []) ==> LinkTouched(tables, schema) < SumNames(tables)
    decreases |tables|
  {
    if tables != [] {
      var init := tables[..|tables| - 1];
      var last := tables[|tables| - 1];
      LinkTouchedReachesTotal(init, schema);
      assert forall g :: g in tables <==> g in init || g == last by {
        assert tables == init + [last];
      }
    }
  }

  // ------------------------------------------------------ resolving names

  /** linkedRecordIdByNameByTableId[tableId]: primary cell text to record id, later records winning. */
  function NameIndex(records: seq<Record>): map<string, RecordId>
    decreases |records|
  {
    if records == [] then map[]
    else NameIndex(records[..|records| - 1])[records[|records| - 1].primaryText := records[|records| - 1].id]
  }

  /** The name has a truthy id in the index. */
  predicate Resolved(m: map<string, RecordId>, n: string) {
    n in m && m[n] != ""
  }

  function CountResolved(names: seq<string>, m: map<string, RecordId>): nat
    decreases |names|
  {
    if names == [] then 0
    else CountResolved(names[..|names| - 1], m) + (if Resolved(m, names[|names| - 1]) then 1 else 0)
  }

  /** The names, in order, with no truthy id in m: those the second pass creates records for. */
  function MissingNames(names: seq<string>, m: map<string, RecordId>): seq<string>
    decreases |names|
  {
    if names == [] then []
    else MissingNames(names[..|names| - 1], m) + (if Resolved(m, names[|names| - 1]) then [] else [names[|names| - 1]])
  }

  /** The missing names are exactly the names with no truthy id. */
  lemma {:induction false} MissingNamesMembers(names: seq<string>, m: map<string, RecordId>)
    ensures forall n :: n in MissingNames(names, m) <==> n in names && !Resolved(m, n)
    decreases |names|
  {
    if names != [] {
      var init, last := names[..|names| - 1], names[|names| - 1];
      MissingNamesMembers(init, m);
      assert names == init + [last];
      assert forall n :: n in names <==> n in init || n == last;
    }
  }

  function CountUnresolved(names: seq<string>, m: map<string, RecordId>): nat {
    |MissingNames(names, m)|
  }

  /** The first pass counts the names that already exist; the second creates the rest. */
  lemma {:induction false} ResolvedPlusUnresolved(names: seq<string>, m: map<string, RecordId>)
    ensures CountResolved(names, m) + CountUnresolved(names, m) == |names|
    decreases |names|
  {
    if names != [] {
      ResolvedPlusUnresolved(names[..|names| - 1], m);
    }
  }

  /**
   * The name index after the second pass over names, starting from m0:
   * each name with no truthy id is given the next minted id, in the order
   * of the names.
   */
  function IndexAfter(names: seq<string>, m0: map<string, RecordId>, minted0: nat): map<string, RecordId>
    decreases |names|
  {
    if names == [] then m0
    else
      var init, last := names[..|names| - 1], names[|names| - 1];
      var m := IndexAfter(init, m0, minted0);
      if Resolved(m, last) then m else m[last := MintedId(minted0 + CountUnresolved(init, m0))]
  }

  /** A name the pass does not visit keeps its entry, or its absence, from m0. */
  lemma {:induction false} IndexAfterOutside(names: seq<string>, m0: map<string, RecordId>, minted0: nat, n: string)
    requires n !in names
    ensures n in IndexAfter(names, m0, minted0) <==> n in m0
    ensures n in m0 ==> IndexAfter(names, m0, minted0)[n] == m0[n]
    decreases |names|
  {
    if names != [] {
      var init := names[..|names| - 1];
      assert names == init + [names[|names| - 1]];
      IndexAfterOutside(init, m0, minted0, n);
    }
  }

  /** After the pass every name has a truthy id. */
  lemma {:induction false} IndexAfterResolves(names: seq<string>, m0: map<string, RecordId>, minted0: nat)
    ensures forall n | n in names :: Resolved(IndexAfter(names, m0, minted0), n)
    decreases |names|
  {
    if names != [] {
      var init, last := names[..|names| - 1], names[|names| - 1];
      IndexAfterResolves(init, m0, minted0);
      assert forall n | n in names :: n in init || n == last by {
        assert names == init + [last];
      }
    }
  }

  /** A name that already had a truthy id keeps it: the pass never re-creates an existing record. */
  lemma {:induction false} IndexAfterKeepsExisting(names: seq<string>, m0: map<string, RecordId>, minted0: nat, n: string)
    requires Resolved(m0, n)
    ensures n in IndexAfter(names, m0, minted0) && IndexAfter(names, m0, minted0)[n] == m0[n]
    decreases |names|
  {
    if names != [] {
      IndexAfterKeepsExisting(names[..|names| - 1], m0, minted0, n);
    }
  }

  /** One more name: a name missing from m0 is given the next minted id. */
  lemma IndexAfterStep(names: seq<string>, j: nat, m0: map<string, RecordId>, minted0: nat)
    requires j < |names| && names[j] !in names[..j]
    ensures var m := IndexAfter(names[..j], m0, minted0);
            IndexAfter(names[..j + 1], m0, minted0)
            == if Resolved(m0, names[j]) then m else m[names[j] := MintedId(minted0 + CountUnresolved(names[..j], m0))]
  {
    assert names[..j + 1][..j] == names[..j];
    IndexAfterOutside(names[..j], m0, minted0, names[j]);
  }

  lemma MissingStep(names: seq<string>, m0: map<string, RecordId>, j: nat)
    requires j < |names|
    ensures MissingNames(names[..j + 1], m0) == MissingNames(names[..j], m0) + (if Resolved(m0, names[j]) then [] else [names[j]])
  {
    assert names[..j + 1][..j] == names[..j];
  }

  /** The k-th missing name (from 0) gets the id minted (minted0 + k). */
  lemma {:induction false} IndexAfterMints(names: seq<string>, m0: map<string, RecordId>, minted0: nat)
    requires DistinctStrings(names)
    ensures var missing := MissingNames(names, m0);
            forall k :: 0 <= k < |missing| ==>
              missing[k] in IndexAfter(names, m0, minted0) && IndexAfter(names, m0, minted0)[missing[k]] == MintedId(minted0 + k)
    decreases |names|
  {
    if names != [] {
      var j := |names| - 1;
      assert names[..j + 1] == names;
      DistinctAt(names, j);
      IndexAfterMints(names[..j], m0, minted0);
      IndexAfterMintsStep(names, m0, minted0, j);
    }
  }

  /** IndexAfterMints for the first j + 1 names, from IndexAfterMints for the first j. */
  lemma IndexAfterMintsStep(names: seq<string>, m0: map<string, RecordId>, minted0: nat, j: nat)
    requires j < |names| && names[j] !in names[..j]
    requires var missing := MissingNames(names[..j], m0);
             forall k :: 0 <= k < |missing| ==>
               missing[k] in IndexAfter(names[..j], m0, minted0) && IndexAfter(names[..j], m0, minted0)[missing[k]] == MintedId(minted0 + k)
    ensures var missing := MissingNames(names[..j + 1], m0);
            forall k :: 0 <= k < |missing| ==>
              missing[k] in IndexAfter(names[..j + 1], m0, minted0) && IndexAfter(names[..j + 1], m0, minted0)[missing[k]] == MintedId(minted0 + k)
  {
    var init, last := names[..j], names[j];
    IndexAfterStep(names, j, m0, minted0);
    MissingStep(names, m0, j);
    var before := MissingNames(init, m0);
    var missing := MissingNames(names[..j + 1], m0);
    var m := IndexAfter(init, m0, minted0);
    var after := IndexAfter(names[..j + 1], m0, minted0);
    if Resolved(m0, last) {
      assert missing == before + [] == before;
      assert after == m;
    } else {
      var id := MintedId(minted0 + |before|);
      assert missing == before + [last];
      assert after == m[last := id];
      MissingNamesMembers(init, m0);
      forall k | 0 <= k < |missing|
        ensures missing[k] in after && after[missing[k]] == MintedId(minted0 + k)
      {
        if k < |before| {
          var n := before[k];
          assert missing[k] == n && n in before;
          assert n in m && m[n] == MintedId(minted0 + k);
          assert n != last;
        } else {
          assert missing[k] == last;
        }
      }
    }
  }

  /** The loop over the linked table's query result that builds its name index. */
  method LoadNameIndex(records: seq<Record>) returns (m: map<string, RecordId>)
    ensures m == NameIndex(records)
  {
    m := map[];
    for i := 0 to |records|
      invariant m == NameIndex(records[..i])
    {
      assert records[..i + 1][..i] == records[..i];
      m := m[records[i].primaryText := records[i].id];
    }
    assert records[..|records|] == records;
  }

  /** The first pass over a linked table's names. */
  method CountExisting(names: seq<string>, m: map<string, RecordId>) returns (count: nat)
    ensures count == CountResolved(names, m)
  {
    count := 0;
    for j := 0 to |names|
      invariant count == CountResolved(names[..j], m)
    {
      assert names[..j + 1][..j] == names[..j];
      if names[j] in m && m[names[j]] != "" {
        count := count + 1;
      }
    }
    assert names[..|names|] == names;
  }

  datatype Progress = Progress(touched: nat, total: nat)

  /** Progress reports so far: non-decreasing, none past the current count, all against one total. */
  ghost predicate ProgressOk(progress: seq<Progress>, touched: nat, total: nat) {
    (forall i, j :: 0 <= i < j < |progress| ==> progress[i].touched <= progress[j].touched)
    && (forall i :: 0 <= i < |progress| ==> progress[i].touched <= touched && progress[i].total == total)
  }

  lemma ProgressReport(progress: seq<Progress>, touched: nat, total: nat)
    requires ProgressOk(progress, touched, total)
    ensures ProgressOk(progress + [Progress(touched, total)], touched, total)
  {
  }

  lemma ProgressAdvance(progress: seq<Progress>, touched: nat, more: nat, total: nat)
    requires ProgressOk(progress, touched, total)
    ensures ProgressOk(progress, touched + more, total)
  {
  }

  /** Writes sent while resolving links: single record creations. */
  predicate AllCreateOne(ws: seq<Write>) {
    forall i :: 0 <= i < |ws| ==> ws[i].CreateOne?
  }

  /** The primary cell written for a conversion result (nothing when it threw). */
  function CellOf(primary: Field, v: Result<CellValue>): RecordDef {
    if v.Ok? then map[primary.id := v.value] else map[]
  }

  /** The primary cell of the record created for a name: the converted name (nothing when the conversion throws). */
  function PrimaryCell(primary: Field, name: string, fx: Foreign): RecordDef {
    CellOf(primary, ConvertParsedValue(name, primary, fx))
  }

  /** Every name converts to a value of the primary field. */
  predicate ConvertsAll(primary: Field, names: seq<string>, fx: Foreign) {
    forall n | n in names :: ConvertParsedValue(n, primary, fx).Ok?
  }

  /** The createRecordAsync calls for the missing names, in order: the i-th creates the i-th name's record. */
  function CreationWrites(tid: TableId, primary: Field, missing: seq<string>, fx: Foreign): (r: seq<Write>)
    ensures |r| == |missing| && AllCreateOne(r)
  {
    seq(|missing|, i requires 0 <= i < |missing| => CreateOne(tid, PrimaryCell(primary, missing[i], fx)))
  }

  /** The records those calls add to the linked table, the i-th under the id minted (minted0 + i). */
  function CreatedRecords(schema: Base, tid: TableId, primary: Field, missing: seq<string>, fx: Foreign, minted0: nat): (r: seq<Record>)
    ensures |r| == |missing|
  {
    seq(|missing|, i requires 0 <= i < |missing| => NewRecordIn(schema, tid, MintedId(minted0 + i), PrimaryCell(primary, missing[i], fx)))
  }

  /** One missing name more: one createRecordAsync call more, at the end. */
  lemma CreationWritesStep(tid: TableId, primary: Field, missing: seq<string>, name: string, fx: Foreign)
    ensures CreationWrites(tid, primary, missing + [name], fx) == CreationWrites(tid, primary, missing, fx) + [CreateOne(tid, PrimaryCell(primary, name, fx))]
  {
    var longer := missing + [name];
    forall k | 0 <= k < |missing|
      ensures longer[k] == missing[k]
    {
    }
    assert longer[|missing|] == name;
  }

  /** One missing name more: one record more, under the next minted id. */
  lemma CreatedRecordsStep(schema: Base, tid: TableId, primary: Field, missing: seq<string>, longer: seq<string>, name: string,
                            fx: Foreign, minted0: nat)
    requires longer == missing + [name]
    ensures CreatedRecords(schema, tid, primary, longer, fx, minted0)
            == CreatedRecords(schema, tid, primary, missing, fx, minted0) + [NewRecordIn(schema, tid, MintedId(minted0 + |missing|), PrimaryCell(primary, name, fx))]
  {
    forall k | 0 <= k < |missing|
      ensures longer[k] == missing[k]
    {
    }
    assert longer[|missing|] == name;
  }

  /** The rows with recs appended to table tid's records. */
  function Appended(rows: map<TableId, seq<Record>>, tid: TableId, recs: seq<Record>): map<TableId, seq<Record>> {
    if recs == [] then rows else rows[tid := SnapOf(rows, tid) + recs]
  }

  lemma AppendedStep(rows0: map<TableId, seq<Record>>, tid: TableId, c: seq<Record>, x: Record)
    ensures Appended(rows0, tid, c + [x]) == Appended(rows0, tid, c)[tid := SnapOf(Appended(rows0, tid, c), tid) + [x]]
  {
    if c == [] {
      assert c + [x] == [x];
    } else {
      var s0 := SnapOf(rows0, tid);
      assert s0 + (c + [x]) == (s0 + c) + [x];
      assert SnapOf(Appended(rows0, tid, c), tid) == s0 + c;
      assert rows0[tid := s0 + c][tid := (s0 + c) + [x]] == rows0[tid := (s0 + c) + [x]];
    }
  }

  /** What the second pass over some names has produced: the index, the creations sent, the records they made. */
  datatype PassOut = PassOut(index: map<string, RecordId>, writes: seq<Write>, records: seq<Record>)

  /** convertParsedValueToCellValue of each name for the primary field. */
  function Conversions(primary: Field, names: seq<string>, fx: Foreign): (r: seq<Result<CellValue>>)
    ensures |r| == |names|
    decreases |names|
  {
    if names == [] then []
    else Conversions(primary, names[..|names| - 1], fx) + [ConvertParsedValue(names[|names| - 1], primary, fx)]
  }

  /** One name of the second pass, after the pass over the names before it produced prev. */
  function PassName(schema: Base, tid: TableId, primary: Field, prev: Option<PassOut>, name: string, conv: Result<CellValue>,
                    minted0: nat): Option<PassOut> {
    match prev
    case None => None
    case Some(out) =>
      if Resolved(out.index, name) then Some(out)
      else if conv.Err? then None
      else
        var id := MintedId(minted0 + |out.records|);
        var cell := CellOf(primary, conv);
        Some(PassOut(out.index[name := id], out.writes + [CreateOne(tid, cell)], out.records + [NewRecordIn(schema, tid, id, cell)]))
  }

  /**
   * The second pass over the first j names from the index m0, minted0
   * records having been created before it, convs[i] being the conversion
   * of names[i]: a name with a truthy id in the current index is skipped;
   * any other gets a record whose primary cell is the converted name, under
   * the next minted id. None when a conversion throws.
   */
  function SecondPass(schema: Base, tid: TableId, primary: Field, names: seq<string>, convs: seq<Result<CellValue>>,
                      m0: map<string, RecordId>, minted0: nat, j: nat): Option<PassOut>
    requires |convs| == |names| && j <= |names|
    decreases j
  {
    if j == 0 then Some(PassOut(m0, [], []))
    else PassName(schema, tid, primary, SecondPass(schema, tid, primary, names, convs, m0, minted0, j - 1), names[j - 1], convs[j - 1], minted0)
  }

  lemma {:induction false} SecondPassNonePersists(schema: Base, tid: TableId, primary: Field, names: seq<string>,
                                                  convs: seq<Result<CellValue>>, m0: map<string, RecordId>, minted0: nat, n: nat, j: nat)
    requires |convs| == |names| && n <= j <= |names|
    requires SecondPass(schema, tid, primary, names, convs, m0, minted0, n).None?
    ensures SecondPass(schema, tid, primary, names, convs, m0, minted0, j).None?
    decreases j
  {
    if n < j {
      SecondPassNonePersists(schema, tid, primary, names, convs, m0, minted0, n, j - 1);
    }
  }

  lemma ConvertsAllStep(primary: Field, before: seq<string>, name: string, fx: Foreign)
    ensures ConvertsAll(primary, before + [name], fx) <==> ConvertsAll(primary, before, fx) && ConvertParsedValue(name, primary, fx).Ok?
  {
    assert name in before + [name];
    assert forall n | n in before :: n in before + [name];
  }

  /** A name the pass has not reached keeps its entry, or its absence, from m0. */
  lemma {:induction false} SecondPassOutside(schema: Base, tid: TableId, primary: Field, names: seq<string>, convs: seq<Result<CellValue>>,
                                             m0: map<string, RecordId>, minted0: nat, j: nat, n: string)
    requires |convs| == |names| && j <= |names| && n !in names[..j]
    requires SecondPass(schema, tid, primary, names, convs, m0, minted0, j).Some?
    ensures var ix := SecondPass(schema, tid, primary, names, convs, m0, minted0, j).value.index;
            (n in ix <==> n in m0) && (n in m0 ==> ix[n] == m0[n])
    decreases j
  {
    if j > 0 {
      assert names[..j] == names[..j - 1] + [names[j - 1]];
      SecondPassOutside(schema, tid, primary, names, convs, m0, minted0, j - 1, n);
    }
  }

  /** None of the first j names both lacks a truthy id in m0 and has a conversion that threw. */
  predicate ConvertsMissing(names: seq<string>, convs: seq<Result<CellValue>>, m0: map<string, RecordId>, j: nat)
    requires |convs| == |names| && j <= |names|
  {
    forall k | 0 <= k < j :: Resolved(m0, names[k]) || convs[k].Ok?
  }

  /** With distinct names the pass fails exactly at a missing name whose conversion threw. */
  lemma {:induction false} SecondPassSome(schema: Base, tid: TableId, primary: Field, names: seq<string>, convs: seq<Result<CellValue>>,
                                          m0: map<string, RecordId>, minted0: nat, j: nat)
    requires DistinctStrings(names) && |convs| == |names| && j <= |names|
    ensures SecondPass(schema, tid, primary, names, convs, m0, minted0, j).Some? <==> ConvertsMissing(names, convs, m0, j)
    decreases j
  {
    if j > 0 {
      var i := j - 1;
      SecondPassSome(schema, tid, primary, names, convs, m0, minted0, i);
      if SecondPass(schema, tid, primary, names, convs, m0, minted0, i).Some? {
        DistinctAt(names, i);
        SecondPassOutside(schema, tid, primary, names, convs, m0, minted0, i, names[i]);
      }
    }
  }

  /** A successful pass over distinct names has created one record per missing name. */
  lemma {:induction false} SecondPassCount(schema: Base, tid: TableId, primary: Field, names: seq<string>, convs: seq<Result<CellValue>>,
                                           m0: map<string, RecordId>, minted0: nat, j: nat)
    requires DistinctStrings(names) && |convs| == |names| && j <= |names|
    requires SecondPass(schema, tid, primary, names, convs, m0, minted0, j).Some?
    ensures |SecondPass(schema, tid, primary, names, convs, m0, minted0, j).value.records| == CountUnresolved(names[..j], m0)
    decreases j
  {
    if j > 0 {
      var i := j - 1;
      SecondPassCount(schema, tid, primary, names, convs, m0, minted0, i);
      DistinctAt(names, i);
      SecondPassOutside(schema, tid, primary, names, convs, m0, minted0, i, names[i]);
      MissingStep(names, m0, i);
    }
  }

  /** The index of a successful pass over distinct names is IndexAfter's. */
  lemma {:induction false} SecondPassIndex(schema: Base, tid: TableId, primary: Field, names: seq<string>, convs: seq<Result<CellValue>>,
                                           m0: map<string, RecordId>, minted0: nat, j: nat)
    requires DistinctStrings(names) && |convs| == |names| && j <= |names|
    requires SecondPass(schema, tid, primary, names, convs, m0, minted0, j).Some?
    ensures SecondPass(schema, tid, primary, names, convs, m0, minted0, j).value.index == IndexAfter(names[..j], m0, minted0)
    decreases j
  {
    if j > 0 {
      SecondPassIndex(schema, tid, primary, names, convs, m0, minted0, j - 1);
      IndexStep(schema, tid, primary, names, convs, m0, minted0, j - 1);
    }
  }

  /** The index of the pass over one name more, from the pass over the names before it. */
  lemma IndexNext(schema: Base, tid: TableId, primary: Field, names: seq<string>, convs: seq<Result<CellValue>>,
                  m0: map<string, RecordId>, minted0: nat, i: nat)
    requires DistinctStrings(names) && |convs| == |names| && i < |names|
    requires SecondPass(schema, tid, primary, names, convs, m0, minted0, i + 1).Some?
    ensures var out := SecondPass(schema, tid, primary, names, convs, m0, minted0, i).value;
            SecondPass(schema, tid, primary, names, convs, m0, minted0, i + 1).value.index
            == if Resolved(m0, names[i]) then out.index else out.index[names[i] := MintedId(minted0 + |out.records|)]
  {
    var out := SecondPass(schema, tid, primary, names, convs, m0, minted0, i).value;
    DistinctAt(names, i);
    SecondPassOutside(schema, tid, primary, names, convs, m0, minted0, i, names[i]);
    SecondPassNext(schema, tid, primary, names, convs, m0, minted0, i, out);
  }

  /** One name more: the pass's index and IndexAfter grow together. */
  lemma IndexStep(schema: Base, tid: TableId, primary: Field, names: seq<string>, convs: seq<Result<CellValue>>,
                  m0: map<string, RecordId>, minted0: nat, i: nat)
    requires DistinctStrings(names) && |convs| == |names| && i < |names|
    requires SecondPass(schema, tid, primary, names, convs, m0, minted0, i + 1).Some?
    requires SecondPass(schema, tid, primary, names, convs, m0, minted0, i).Some?
    requires SecondPass(schema, tid, primary, names, convs, m0, minted0, i).value.index == IndexAfter(names[..i], m0, minted0)
    ensures SecondPass(schema, tid, primary, names, convs, m0, minted0, i + 1).value.index == IndexAfter(names[..i + 1], m0, minted0)
  {
    IndexNext(schema, tid, primary, names, convs, m0, minted0, i);
    SecondPassCount(schema, tid, primary, names, convs, m0, minted0, i);
    DistinctAt(names, i);
    IndexAfterStep(names, i, m0, minted0);
  }

  lemma ConvertsMissingAll(primary: Field, names: seq<string>, m0: map<string, RecordId>, fx: Foreign)
    ensures ConvertsMissing(names, Conversions(primary, names, fx), m0, |names|) <==> ConvertsAll(primary, MissingNames(names, m0), fx)
  {
    var convs := Conversions(primary, names, fx);
    MissingNamesMembers(names, m0);
    if ConvertsMissing(names, convs, m0, |names|) {
      forall n | n in MissingNames(names, m0)
        ensures ConvertParsedValue(n, primary, fx).Ok?
      {
        var k :| 0 <= k < |names| && names[k] == n;
        ConversionAt(primary, names, fx, k);
      }
    }
    if ConvertsAll(primary, MissingNames(names, m0), fx) {
      forall k | 0 <= k < |names|
        ensures Resolved(m0, names[k]) || convs[k].Ok?
      {
        ConversionAt(primary, names, fx, k);
        assert names[k] in names;
      }
    }
  }

  /**
   * With distinct names the second pass succeeds exactly when every name
   * missing from the index converts to a value of the primary field; its
   * index is then IndexAfter's, and it has created one record per missing
   * name.
   */
  lemma SecondPassSucceeds(schema: Base, tid: TableId, primary: Field, names: seq<string>,
                           m0: map<string, RecordId>, minted0: nat, fx: Foreign)
    requires DistinctStrings(names)
    ensures var r := SecondPass(schema, tid, primary, names, Conversions(primary, names, fx), m0, minted0, |names|);
            (r.Some? <==> ConvertsAll(primary, MissingNames(names, m0), fx))
            && (r.Some? ==> r.value.index == IndexAfter(names, m0, minted0)
                            && |r.value.records| == CountUnresolved(names, m0))
  {
    var convs := Conversions(primary, names, fx);
    assert names[..|names|] == names;
    SecondPassSome(schema, tid, primary, names, convs, m0, minted0, |names|);
    ConvertsMissingAll(primary, names, m0, fx);
    if SecondPass(schema, tid, primary, names, convs, m0, minted0, |names|).Some? {
      SecondPassCount(schema, tid, primary, names, convs, m0, minted0, |names|);
      SecondPassIndex(schema, tid, primary, names, convs, m0, minted0, |names|);
    }
  }

  lemma {:induction false} ConversionAt(primary: Field, names: seq<string>, fx: Foreign, i: nat)
    requires i < |names|
    ensures Conversions(primary, names, fx)[i] == ConvertParsedValue(names[i], primary, fx)
    decreases |names|
  {
    var n := |names|;
    if i < n - 1 {
      ConversionAt(primary, names[..n - 1], fx, i);
    }
  }

  /** One name more: the pass's writes and CreationWrites grow together. */
  lemma WritesStep(schema: Base, tid: TableId, primary: Field, names: seq<string>,
                   m0: map<string, RecordId>, minted0: nat, fx: Foreign, i: nat)
    requires DistinctStrings(names) && i < |names|
    requires SecondPass(schema, tid, primary, names, Conversions(primary, names, fx), m0, minted0, i + 1).Some?
    requires SecondPass(schema, tid, primary, names, Conversions(primary, names, fx), m0, minted0, i).Some?
    requires SecondPass(schema, tid, primary, names, Conversions(primary, names, fx), m0, minted0, i).value.writes
             == CreationWrites(tid, primary, MissingNames(names[..i], m0), fx)
    ensures SecondPass(schema, tid, primary, names, Conversions(primary, names, fx), m0, minted0, i + 1).value.writes
            == CreationWrites(tid, primary, MissingNames(names[..i + 1], m0), fx)
  {
    var convs := Conversions(primary, names, fx);
    var out := SecondPass(schema, tid, primary, names, convs, m0, minted0, i).value;
    var before := MissingNames(names[..i], m0);
    DistinctAt(names, i);
    SecondPassOutside(schema, tid, primary, names, convs, m0, minted0, i, names[i]);
    SecondPassNext(schema, tid, primary, names, convs, m0, minted0, i, out);
    MissingStep(names, m0, i);
    if Resolved(m0, names[i]) {
      assert MissingNames(names[..i + 1], m0) == before;
    } else {
      ConversionAt(primary, names, fx, i);
      CreationWritesStep(tid, primary, before, names[i], fx);
      assert MissingNames(names[..i + 1], m0) == before + [names[i]];
      assert SecondPass(schema, tid, primary, names, convs, m0, minted0, i + 1).value.writes
             == out.writes + [CreateOne(tid, PrimaryCell(primary, names[i], fx))];
    }
  }

  /** A successful pass over the first j distinct names sends one createRecordAsync call per missing name, in order. */
  lemma {:induction false} SecondPassWrites(schema: Base, tid: TableId, primary: Field, names: seq<string>,
                                            m0: map<string, RecordId>, minted0: nat, fx: Foreign, j: nat)
    requires DistinctStrings(names) && j <= |names|
    requires SecondPass(schema, tid, primary, names, Conversions(primary, names, fx), m0, minted0, j).Some?
    ensures SecondPass(schema, tid, primary, names, Conversions(primary, names, fx), m0, minted0, j).value.writes
            == CreationWrites(tid, primary, MissingNames(names[..j], m0), fx)
    decreases j
  {
    if j > 0 {
      SecondPassWrites(schema, tid, primary, names, m0, minted0, fx, j - 1);
      WritesStep(schema, tid, primary, names, m0, minted0, fx, j - 1);
    }
  }

  /** The records of the pass over one name more, from those of the pass over the names before it. */
  lemma RecordsNext(schema: Base, tid: TableId, primary: Field, names: seq<string>, convs: seq<Result<CellValue>>,
                    m0: map<string, RecordId>, minted0: nat, i: nat)
    requires DistinctStrings(names) && |convs| == |names| && i < |names|
    requires SecondPass(schema, tid, primary, names, convs, m0, minted0, i + 1).Some?
    ensures var out := SecondPass(schema, tid, primary, names, convs, m0, minted0, i).value;
            SecondPass(schema, tid, primary, names, convs, m0, minted0, i + 1).value.records
            == out.records + if Resolved(m0, names[i]) then []
                             else [NewRecordIn(schema, tid, MintedId(minted0 + |out.records|), CellOf(primary, convs[i]))]
  {
    var out := SecondPass(schema, tid, primary, names, convs, m0, minted0, i).value;
    DistinctAt(names, i);
    SecondPassOutside(schema, tid, primary, names, convs, m0, minted0, i, names[i]);
    SecondPassNext(schema, tid, primary, names, convs, m0, minted0, i, out);
    if Resolved(m0, names[i]) {
      assert out.records + [] == out.records;
    }
  }

  /** One name more: the pass's records and CreatedRecords grow together. */
  lemma RecordsStep(schema: Base, tid: TableId, primary: Field, names: seq<string>,
                    m0: map<string, RecordId>, minted0: nat, fx: Foreign, i: nat)
    requires DistinctStrings(names) && i < |names|
    requires SecondPass(schema, tid, primary, names, Conversions(primary, names, fx), m0, minted0, i + 1).Some?
    requires SecondPass(schema, tid, primary, names, Conversions(primary, names, fx), m0, minted0, i).Some?
    requires SecondPass(schema, tid, primary, names, Conversions(primary, names, fx), m0, minted0, i).value.records
             == CreatedRecords(schema, tid, primary, MissingNames(names[..i], m0), fx, minted0)
    ensures SecondPass(schema, tid, primary, names, Conversions(primary, names, fx), m0, minted0, i + 1).value.records
            == CreatedRecords(schema, tid, primary, MissingNames(names[..i + 1], m0), fx, minted0)
  {
    var convs := Conversions(primary, names, fx);
    var out := SecondPass(schema, tid, primary, names, convs, m0, minted0, i).value;
    var before := MissingNames(names[..i], m0);
    RecordsNext(schema, tid, primary, names, convs, m0, minted0, i);
    MissingStep(names, m0, i);
    ConversionAt(primary, names, fx, i);
    CreatedRecordsGrow(schema, tid, primary, before, MissingNames(names[..i + 1], m0), names[i], fx, minted0, Resolved(m0, names[i]),
                       out.records, SecondPass(schema, tid, primary, names, convs, m0, minted0, i + 1).value.records);
  }

  /** The records created for one more missing name, or for none, after those created for before. */
  lemma CreatedRecordsGrow(schema: Base, tid: TableId, primary: Field, before: seq<string>, after: seq<string>, name: string,
                           fx: Foreign, minted0: nat, skip: bool, recs: seq<Record>, recs': seq<Record>)
    requires recs == CreatedRecords(schema, tid, primary, before, fx, minted0)
    requires after == before + if skip then [] else [name]
    requires recs' == recs + if skip then [] else [NewRecordIn(schema, tid, MintedId(minted0 + |recs|), PrimaryCell(primary, name, fx))]
    ensures recs' == CreatedRecords(schema, tid, primary, after, fx, minted0)
  {
    if skip {
      assert after == before;
      assert recs' == recs;
    } else {
      CreatedRecordsStep(schema, tid, primary, before, after, name, fx, minted0);
    }
  }

  /** ... and adds their records to the linked table under consecutive minted ids. */
  lemma {:induction false} SecondPassRecords(schema: Base, tid: TableId, primary: Field, names: seq<string>,
                                             m0: map<string, RecordId>, minted0: nat, fx: Foreign, j: nat)
    requires DistinctStrings(names) && j <= |names|
    requires SecondPass(schema, tid, primary, names, Conversions(primary, names, fx), m0, minted0, j).Some?
    ensures SecondPass(schema, tid, primary, names, Conversions(primary, names, fx), m0, minted0, j).value.records
            == CreatedRecords(schema, tid, primary, MissingNames(names[..j], m0), fx, minted0)
    decreases j
  {
    if j > 0 {
      SecondPassRecords(schema, tid, primary, names, m0, minted0, fx, j - 1);
      RecordsStep(schema, tid, primary, names, m0, minted0, fx, j - 1);
    }
  }

  /** The pass over one name more, from the pass over the names before it. */
  lemma SecondPassNext(schema: Base, tid: TableId, primary: Field, names: seq<string>, convs: seq<Result<CellValue>>,
                       m0: map<string, RecordId>, minted0: nat, j: nat, out: PassOut)
    requires |convs| == |names| && j < |names|
    requires SecondPass(schema, tid, primary, names, convs, m0, minted0, j) == Some(out)
    ensures var id := MintedId(minted0 + |out.records|);
            var cell := CellOf(primary, convs[j]);
            SecondPass(schema, tid, primary, names, convs, m0, minted0, j + 1)
            == if Resolved(out.index, names[j]) then Some(out)
               else if convs[j].Err? then None
               else Some(PassOut(out.index[names[j] := id], out.writes + [CreateOne(tid, cell)], out.records + [NewRecordIn(schema, tid, id, cell)]))
  {
  }

  /**
   * One name of the second pass: a name with no truthy id gets a new record
   * whose primary cell is the converted name, under the next minted id; a
   * resolved name is left alone.
   */
  method ResolveName(tid: TableId, primary: Field, name: string, m: map<string, RecordId>, store: Store, fx: Foreign)
    returns (r: Result<map<string, RecordId>>, ghost written: seq<Write>)
    modifies store
    ensures store.log == old(store.log) + written
    ensures r.Err? <==> !Resolved(m, name) && ConvertParsedValue(name, primary, fx).Err?
    ensures r.Err? || Resolved(m, name) ==>
              written == [] && store.rows == old(store.rows) && store.minted == old(store.minted)
    ensures Resolved(m, name) ==> r == Ok(m)
    ensures r.Ok? && !Resolved(m, name) ==>
              r.value == m[name := MintedId(old(store.minted))]
              && written == [CreateOne(tid, PrimaryCell(primary, name, fx))]
              && store.minted == old(store.minted) + 1
              && store.rows == old(store.rows)[tid := SnapOf(old(store.rows), tid) + [NewRecordIn(store.schema, tid, MintedId(old(store.minted)), PrimaryCell(primary, name, fx))]]
  {
    if name in m && m[name] != "" {
      return Ok(m), [];
    }
    var value := ConvertParsedValue(name, primary, fx);
    if value.Err? {
      return Err(value.error), [];
    }
    var id := store.CreateRecord(tid, map[primary.id := value.value]);
    written := [CreateOne(tid, map[primary.id := value.value])];
    return Ok(m[name := id]), written;
  }

  /** The batched progress report after each creation: every 50 records, a report of the count so far. */
  method ReportCreation(progress: seq<Progress>, touched: nat, total: nat, created: nat) returns (p: seq<Progress>)
    requires ProgressOk(progress, touched, total)
    ensures ProgressOk(p, touched, total)
    ensures p == if created % RecordBatchSize == 0 then progress + [Progress(touched, total)] else progress
  {
    p := progress;
    if created % RecordBatchSize == 0 {
      ProgressReport(progress, touched, total);
      p := progress + [Progress(touched, total)];
    }
  }

  /**
   * The state after the second pass over the first j names: the pass
   * succeeded with index m, writes and records recs, which have been added to
   * the linked table's rows under the ids minted since minted0.
   */
  ghost predicate PassedTo(schema: Base, tid: TableId, primary: Field, names: seq<string>, convs: seq<Result<CellValue>>,
                           m0: map<string, RecordId>, minted0: nat, rows0: map<TableId, seq<Record>>, j: nat,
                           m: map<string, RecordId>, written: seq<Write>, recs: seq<Record>, rows: map<TableId, seq<Record>>, minted: nat) {
    && |convs| == |names| && j <= |names|
    && SecondPass(schema, tid, primary, names, convs, m0, minted0, j) == Some(PassOut(m, written, recs))
    && rows == Appended(rows0, tid, recs) && minted == minted0 + |recs|
  }

  /** PassedTo one name more, in the three cases of ResolveName. */
  lemma PassedToNext(schema: Base, tid: TableId, primary: Field, names: seq<string>, convs: seq<Result<CellValue>>,
                     m0: map<string, RecordId>, minted0: nat, rows0: map<TableId, seq<Record>>, j: nat,
                     m: map<string, RecordId>, written: seq<Write>, recs: seq<Record>, rows: map<TableId, seq<Record>>, minted: nat, fx: Foreign)
    requires j < |names| && |convs| == |names| && convs[j] == ConvertParsedValue(names[j], primary, fx)
    requires PassedTo(schema, tid, primary, names, convs, m0, minted0, rows0, j, m, written, recs, rows, minted)
    ensures Resolved(m, names[j]) ==> PassedTo(schema, tid, primary, names, convs, m0, minted0, rows0, j + 1, m, written + [], recs + [], rows, minted)
    ensures !Resolved(m, names[j]) && convs[j].Err? ==> SecondPass(schema, tid, primary, names, convs, m0, minted0, j + 1).None?
    ensures !Resolved(m, names[j]) && convs[j].Ok? ==>
              var cell := PrimaryCell(primary, names[j], fx);
              var rec := NewRecordIn(schema, tid, MintedId(minted), cell);
              PassedTo(schema, tid, primary, names, convs, m0, minted0, rows0, j + 1, m[names[j] := MintedId(minted)],
                       written + [CreateOne(tid, cell)], recs + [rec], rows[tid := SnapOf(rows, tid) + [rec]], minted + 1)
  {
    if Resolved(m, names[j]) {
      SecondPassNext(schema, tid, primary, names, convs, m0, minted0, j, PassOut(m, written, recs));
      assert written + [] == written && recs + [] == recs;
    } else if convs[j].Ok? {
      PassedToCreates(schema, tid, primary, names, convs, m0, minted0, rows0, j, m, written, recs, rows, minted, fx);
    } else {
      SecondPassNext(schema, tid, primary, names, convs, m0, minted0, j, PassOut(m, written, recs));
    }
  }

  /** PassedTo one name more, for a name that gets a new record. */
  lemma PassedToCreates(schema: Base, tid: TableId, primary: Field, names: seq<string>, convs: seq<Result<CellValue>>,
                        m0: map<string, RecordId>, minted0: nat, rows0: map<TableId, seq<Record>>, j: nat,
                        m: map<string, RecordId>, written: seq<Write>, recs: seq<Record>, rows: map<TableId, seq<Record>>, minted: nat, fx: Foreign)
    requires j < |names| && |convs| == |names| && convs[j] == ConvertParsedValue(names[j], primary, fx)
    requires PassedTo(schema, tid, primary, names, convs, m0, minted0, rows0, j, m, written, recs, rows, minted)
    requires !Resolved(m, names[j]) && convs[j].Ok?
    ensures var cell := PrimaryCell(primary, names[j], fx);
            var rec := NewRecordIn(schema, tid, MintedId(minted), cell);
            PassedTo(schema, tid, primary, names, convs, m0, minted0, rows0, j + 1, m[names[j] := MintedId(minted)],
                     written + [CreateOne(tid, cell)], recs + [rec], rows[tid := SnapOf(rows, tid) + [rec]], minted + 1)
  {
    var cell := PrimaryCell(primary, names[j], fx);
    var id := MintedId(minted);
    var rec := NewRecordIn(schema, tid, id, cell);
    assert cell == CellOf(primary, convs[j]);
    assert id == MintedId(minted0 + |recs|);
    SecondPassNext(schema, tid, primary, names, convs, m0, minted0, j, PassOut(m, written, recs));
    AppendedStep(rows0, tid, recs, rec);
  }

  /** One name of the second pass, with the progress report every 50 creations. */
  method CreatePassStep(tid: TableId, primary: Field, names: seq<string>, j: nat, m0: map<string, RecordId>,
                        m: map<string, RecordId>, created: nat, store: Store, fx: Foreign, touched: nat, total: nat, progress: seq<Progress>,
                        ghost convs: seq<Result<CellValue>>, ghost rows0: map<TableId, seq<Record>>, ghost minted0: nat,
                        ghost log0: seq<Write>, ghost written: seq<Write>, ghost recs: seq<Record>)
    returns (r: Result<map<string, RecordId>>, created': nat, touched': nat, progress': seq<Progress>,
             ghost written': seq<Write>, ghost recs': seq<Record>)
    requires j < |names| && convs == Conversions(primary, names, fx)
    requires PassedTo(store.schema, tid, primary, names, convs, m0, minted0, rows0, j, m, written, recs, store.rows, store.minted)
    requires created == |recs| && ProgressOk(progress, touched, total) && store.log == log0 + written
    modifies store
    ensures store.log == log0 + written'
    ensures ProgressOk(progress', touched', total) && touched' - touched == |recs'| - |recs| && created' == |recs'|
    ensures r.Err? ==> SecondPass(store.schema, tid, primary, names, convs, m0, minted0, |names|).None?
    ensures r.Ok? ==> PassedTo(store.schema, tid, primary, names, convs, m0, minted0, rows0, j + 1, r.value, written', recs', store.rows, store.minted)
  {
    ConversionAt(primary, names, fx, j);
    PassedToNext(store.schema, tid, primary, names, convs, m0, minted0, rows0, j, m, written, recs, store.rows, store.minted, fx);
    ghost var rec := NewRecordIn(store.schema, tid, MintedId(store.minted), PrimaryCell(primary, names[j], fx));
    var missing := !(names[j] in m && m[names[j]] != "");
    ghost var w;
    r, w := ResolveName(tid, primary, names[j], m, store, fx);
    ConcatAssoc(log0, written, w);
    written' := written + w;
    created', touched', progress', recs' := created, touched, progress, recs;
    if r.Err? {
      SecondPassNonePersists(store.schema, tid, primary, names, convs, m0, minted0, j + 1, |names|);
      return;
    }
    if missing {
      recs' := recs + [rec];
      ProgressAdvance(progress, touched, 1, total);
      created', touched' := created + 1, touched + 1;
      progress' := ReportCreation(progress, touched', total, created');
    } else {
      assert recs + [] == recs;
    }
  }

  /** The loop of the second pass: PassedTo all the names, or the pass has thrown. */
  method SecondPassLoop(tid: TableId, primary: Field, names: seq<string>, m0: map<string, RecordId>,
                        store: Store, fx: Foreign, touched0: nat, total: nat, progress0: seq<Progress>, ghost convs: seq<Result<CellValue>>)
    returns (r: Result<map<string, RecordId>>, touched: nat, progress: seq<Progress>, ghost written: seq<Write>, ghost recs: seq<Record>)
    requires ProgressOk(progress0, touched0, total)
    requires convs == Conversions(primary, names, fx)
    modifies store
    ensures ProgressOk(progress, touched, total) && touched == touched0 + |recs|
    ensures store.log == old(store.log) + written
    ensures r.Err? ==> SecondPass(store.schema, tid, primary, names, convs, m0, old(store.minted), |names|).None?
    ensures r.Ok? ==> PassedTo(store.schema, tid, primary, names, convs, m0, old(store.minted), old(store.rows), |names|,
                               r.value, written, recs, store.rows, store.minted)
  {
    var m := m0;
    touched := touched0;
    progress := progress0;
    written := [];
    recs := [];
    var created := 0;
    ghost var rows0, minted0 := store.rows, store.minted;
    for j := 0 to |names|
      invariant PassedTo(store.schema, tid, primary, names, convs, m0, minted0, rows0, j, m, written, recs, store.rows, store.minted)
      invariant store.log == old(store.log) + written
      invariant ProgressOk(progress, touched, total) && touched == touched0 + |recs| && created == |recs|
    {
      var next;
      next, created, touched, progress, written, recs := CreatePassStep(tid, primary, names, j, m0, m, created, store, fx, touched, total,
                                                                  progress, convs, rows0, minted0, old(store.log), written, recs);
      if next.Err? {
        return Err(next.error), touched, progress, written, recs;
      }
      m := next.value;
    }
    return Ok(m), touched, progress, written, recs;
  }

  /**
   * The second pass over a linked table's names: each name with no truthy
   * id gets a new record whose primary cell is the converted name.
   */
  method CreateMissingLinkedRecords(tid: TableId, primary: Field, names: seq<string>, m0: map<string, RecordId>,
                                    store: Store, fx: Foreign, touched0: nat, total: nat, progress0: seq<Progress>)
    returns (r: Result<map<string, RecordId>>, touched: nat, progress: seq<Progress>, ghost written: seq<Write>)
    requires ProgressOk(progress0, touched0, total)
    modifies store
    ensures ProgressOk(progress, touched, total) && touched >= touched0
    ensures store.log == old(store.log) + written
    ensures r.Ok? <==> SecondPass(store.schema, tid, primary, names, Conversions(primary, names, fx), m0, old(store.minted), |names|).Some?
    ensures r.Ok? ==> var out := SecondPass(store.schema, tid, primary, names, Conversions(primary, names, fx), m0, old(store.minted), |names|).value;
                      r.value == out.index && written == out.writes
                      && store.rows == Appended(old(store.rows), tid, out.records)
                      && store.minted == old(store.minted) + |out.records|
                      && touched == touched0 + |out.records| && LastTouched(progress) == touched
  {
    ghost var recs;
    ghost var convs := Conversions(primary, names, fx);
    r, touched, progress, written, recs := SecondPassLoop(tid, primary, names, m0, store, fx, touched0, total, progress0, convs);
    if r.Ok? {
      ProgressReport(progress, touched, total);
      progress := progress + [Progress(touched, total)];
    }
  }

  /** What resolving one linked table does: its name index, the records created for it, and the minted counter after. */
  datatype TablePass = TablePass(index: Option<map<string, RecordId>>, writes: seq<Write>,
                                 rows: map<TableId, seq<Record>>, minted: nat)

  /**
   * One linked table, resolved against the records it has: a missing table
   * is skipped; a table whose primary field is computed keeps its index and
   * gets no records; otherwise the second pass runs over its names. None
   * when the second pass throws.
   */
  function PassOverTable(schema: Base, rows: map<TableId, seq<Record>>, minted: nat, g: LinkedNames, fx: Foreign): Option<TablePass> {
    if g.tableId !in schema then Some(TablePass(None, [], rows, minted))
    else
      var primary := schema[g.tableId].primaryField;
      var index := NameIndex(SnapOf(rows, g.tableId));
      if primary.isComputed then Some(TablePass(Some(index), [], rows, minted))
      else
        match SecondPass(schema, g.tableId, primary, g.names, Conversions(primary, g.names, fx), index, minted, |g.names|)
        case None => None
        case Some(out) => Some(TablePass(Some(out.index), out.writes, Appended(rows, g.tableId, out.records), minted + |out.records|))
  }

  /** One linked table: load its name index, count the names it has, create the rest. */
  method ResolveLinkedTable(group: LinkedNames, store: Store, fx: Foreign, touched0: nat, total: nat, progress0: seq<Progress>)
    returns (r: Result<Option<map<string, RecordId>>>, touched: nat, progress: seq<Progress>, ghost written: seq<Write>)
    requires DistinctStrings(group.names)
    requires ProgressOk(progress0, touched0, total) && LastTouched(progress0) == touched0
    modifies store
    ensures ProgressOk(progress, touched, total)
    ensures store.log == old(store.log) + written
    ensures r.Err? <==> PassOverTable(store.schema, old(store.rows), old(store.minted), group, fx).None?
    ensures r.Ok? ==> LastTouched(progress) == touched
                      && touched == touched0 + (if group.tableId in store.schema then |group.names| else 0)
                      && var p := PassOverTable(store.schema, old(store.rows), old(store.minted), group, fx).value;
                         r.value == p.index && written == p.writes && store.rows == p.rows && store.minted == p.minted
  {
    touched, progress, written := touched0, progress0, [];
    if group.tableId !in store.schema {
      return Ok(None), touched, progress, written;
    }
    var linkedTable := store.schema[group.tableId];
    var index := LoadNameIndex(store.Snapshot(group.tableId));
    if linkedTable.primaryField.isComputed {
      ProgressAdvance(progress, touched, |group.names|, total);
      touched := touched + |group.names|;
      ProgressReport(progress, touched, total);
      progress := progress + [Progress(touched, total)];
      return Ok(Some(index)), touched, progress, written;
    }
    var existing := CountExisting(group.names, index);
    ProgressAdvance(progress, touched, existing, total);
    touched := touched + existing;
    ProgressReport(progress, touched, total);
    progress := progress + [Progress(touched, total)];
    var created;
    created, touched, progress, written := CreateMissingLinkedRecords(group.tableId, linkedTable.primaryField, group.names, index,
                                                                      store, fx, touched, total, progress);
    if created.Err? {
      return Err(created.error), touched, progress, written;
    }
    SecondPassSucceeds(store.schema, group.tableId, linkedTable.primaryField, group.names, index, old(store.minted), fx);
    ResolvedPlusUnresolved(group.names, index);
    return Ok(Some(created.value)), touched, progress, written;
  }

  /** The state of link resolution: the name index per linked table, the writes sent, the rows and the minted counter. */
  datatype LinkState = LinkState(index: map<TableId, map<string, RecordId>>, writes: seq<Write>,
                                 rows: map<TableId, seq<Record>>, minted: nat)

  /** Resolving one more linked table on top of st. */
  function LinkStep(schema: Base, st: LinkState, g: LinkedNames, fx: Foreign): Option<LinkState> {
    match PassOverTable(schema, st.rows, st.minted, g, fx)
    case None => None
    case Some(p) => Some(LinkState(if p.index.Some? then st.index[g.tableId := p.index.value] else st.index,
                                   st.writes + p.writes, p.rows, p.minted))
  }

  /** The linked tables resolved in order from rows0; None when one of them throws. */
  function LinkPass(schema: Base, tables: seq<LinkedNames>, rows0: map<TableId, seq<Record>>, minted0: nat, fx: Foreign): Option<LinkState>
    decreases |tables|
  {
    if tables == [] then Some(LinkState(map[], [], rows0, minted0))
    else
      match LinkPass(schema, tables[..|tables| - 1], rows0, minted0, fx)
      case None => None
      case Some(st) => LinkStep(schema, st, tables[|tables| - 1], fx)
  }

  lemma {:induction false} LinkPassNonePersists(schema: Base, tables: seq<LinkedNames>, n: nat, rows0: map<TableId, seq<Record>>,
                                                minted0: nat, fx: Foreign)
    requires n <= |tables| && LinkPass(schema, tables[..n], rows0, minted0, fx).None?
    ensures LinkPass(schema, tables, rows0, minted0, fx).None?
    decreases |tables| - n
  {
    if n < |tables| {
      assert tables[..n + 1][..n] == tables[..n];
      LinkPassNonePersists(schema, tables, n + 1, rows0, minted0, fx);
    } else {
      assert tables[..n] == tables;
    }
  }

  /** The pass over one table more, from the pass over the tables before it. */
  lemma LinkPassNext(schema: Base, tables: seq<LinkedNames>, i: nat, rows0: map<TableId, seq<Record>>, minted0: nat, fx: Foreign)
    requires i < |tables|
    ensures LinkPass(schema, tables[..i + 1], rows0, minted0, fx)
            == match LinkPass(schema, tables[..i], rows0, minted0, fx)
               case None => None
               case Some(st) => LinkStep(schema, st, tables[i], fx)
  {
    assert tables[..i + 1][..i] == tables[..i];
  }

  lemma LinkTouchedNext(tables: seq<LinkedNames>, i: nat, schema: Base)
    requires i < |tables|
    ensures LinkTouched(tables[..i + 1], schema)
            == LinkTouched(tables[..i], schema) + (if tables[i].tableId in schema then |tables[i].names| else 0)
  {
    assert tables[..i + 1][..i] == tables[..i];
  }

  /** One iteration of the loop over the linked tables: resolve the i-th table and record its index. */
  method ResolveNextTable(plan: LinkPlan, i: nat, store: Store, fx: Foreign, total: nat,
                          idByTable: map<TableId, map<string, RecordId>>, touched: nat, progress: seq<Progress>,
                          ghost written: seq<Write>, ghost rows0: map<TableId, seq<Record>>, ghost minted0: nat)
    returns (r: Result<map<TableId, map<string, RecordId>>>, touched': nat, progress': seq<Progress>, ghost w: seq<Write>)
    requires WellFormedPlan(plan) && i < |plan.tables|
    requires ProgressOk(progress, touched, total) && LastTouched(progress) == touched
    requires touched == LinkTouched(plan.tables[..i], store.schema)
    requires LinkPass(store.schema, plan.tables[..i], rows0, minted0, fx) == Some(LinkState(idByTable, written, store.rows, store.minted))
    modifies store
    ensures store.log == old(store.log) + w
    ensures ProgressOk(progress', touched', total)
    ensures r.Err? ==> LinkPass(store.schema, plan.tables[..i + 1], rows0, minted0, fx).None?
    ensures r.Ok? ==> LastTouched(progress') == touched' && touched' == LinkTouched(plan.tables[..i + 1], store.schema)
                      && LinkPass(store.schema, plan.tables[..i + 1], rows0, minted0, fx)
                         == Some(LinkState(r.value, written + w, store.rows, store.minted))
  {
    var group := plan.tables[i];
    LinkPassNext(store.schema, plan.tables, i, rows0, minted0, fx);
    LinkTouchedNext(plan.tables, i, store.schema);
    var found;
    found, touched', progress', w := ResolveLinkedTable(group, store, fx, touched, total, progress);
    if found.Err? {
      return Err(found.error), touched', progress', w;
    }
    r := Ok(if found.value.Some? then idByTable[group.tableId := found.value.value] else idByTable);
  }

  /** The loop over the linked tables. */
  method ResolveLinkedRecords(plan: LinkPlan, store: Store, fx: Foreign, total: nat)
    returns (r: Result<map<TableId, map<string, RecordId>>>, touched: nat, progress: seq<Progress>, ghost written: seq<Write>)
    requires WellFormedPlan(plan)
    modifies store
    ensures ProgressOk(progress, touched, total)
    ensures store.log == old(store.log) + written
    ensures r.Ok? <==> LinkPass(store.schema, plan.tables, old(store.rows), old(store.minted), fx).Some?
    ensures r.Ok? ==> LastTouched(progress) == touched && touched == LinkTouched(plan.tables, store.schema)
                      && var s := LinkPass(store.schema, plan.tables, old(store.rows), old(store.minted), fx).value;
                         r.value == s.index && written == s.writes && store.rows == s.rows && store.minted == s.minted
  {
    var idByTable: map<TableId, map<string, RecordId>> := map[];
    touched := 0;
    progress := [];
    written := [];
    ghost var rows0, minted0 := store.rows, store.minted;
    for i := 0 to |plan.tables|
      invariant ProgressOk(progress, touched, total)
      invariant touched == LinkTouched(plan.tables[..i], store.schema) && LastTouched(progress) == touched
      invariant store.log == old(store.log) + written
      invariant LinkPass(store.schema, plan.tables[..i], rows0, minted0, fx) == Some(LinkState(idByTable, written, store.rows, store.minted))
    {
      var next;
      ghost var w;
      next, touched, progress, w := ResolveNextTable(plan, i, store, fx, total, idByTable, touched, progress, written, rows0, minted0);
      ConcatAssoc(old(store.log), written, w);
      written := written + w;
      if next.Err? {
        LinkPassNonePersists(store.schema, plan.tables, i + 1, rows0, minted0, fx);
        return Err(next.error), touched, progress, written;
      }
      idByTable := next.value;
    }
    assert plan.tables[..|plan.tables|] == plan.tables;
    return Ok(idByTable), touched, progress, written;
  }

  /** The names of linked tables with writable primary fields are all resolved. */
  ghost predicate LinksResolved(tables: seq<LinkedNames>, schema: Base, idByTable: map<TableId, map<string, RecordId>>) {
    forall i :: 0 <= i < |tables| && tables[i].tableId in schema && !schema[tables[i].tableId].primaryField.isComputed ==>
      tables[i].tableId in idByTable && forall k :: 0 <= k < |tables[i].names| ==> Resolved(idByTable[tables[i].tableId], tables[i].names[k])
  }

  lemma LinksResolvedStep(tables: seq<LinkedNames>, schema: Base, idByTable: map<TableId, map<string, RecordId>>,
                          g: LinkedNames, m: Option<map<string, RecordId>>)
    requires LinksResolved(tables, schema, idByTable)
    requires forall i :: 0 <= i < |tables| ==> tables[i].tableId != g.tableId
    requires g.tableId in schema && !schema[g.tableId].primaryField.isComputed ==>
               m.Some? && forall k :: 0 <= k < |g.names| ==> Resolved(m.value, g.names[k])
    ensures LinksResolved(tables + [g], schema, if m.Some? then idByTable[g.tableId := m.value] else idByTable)
  {
  }

  /**
   * Resolving one table gives an index exactly when the table exists, and
   * then a truthy id for every name, unless its primary field is computed;
   * a name that already had a truthy id keeps it.
   */
  lemma PassOverTableResolves(schema: Base, rows: map<TableId, seq<Record>>, minted: nat, g: LinkedNames, fx: Foreign)
    requires DistinctStrings(g.names)
    requires PassOverTable(schema, rows, minted, g, fx).Some?
    ensures var p := PassOverTable(schema, rows, minted, g, fx).value;
            (p.index.Some? <==> g.tableId in schema)
            && (g.tableId in schema && !schema[g.tableId].primaryField.isComputed ==>
                  (forall k :: 0 <= k < |g.names| ==> Resolved(p.index.value, g.names[k]))
                  && forall n | Resolved(NameIndex(SnapOf(rows, g.tableId)), n) ::
                       n in p.index.value && p.index.value[n] == NameIndex(SnapOf(rows, g.tableId))[n])
  {
    if g.tableId in schema && !schema[g.tableId].primaryField.isComputed {
      var index := NameIndex(SnapOf(rows, g.tableId));
      SecondPassSucceeds(schema, g.tableId, schema[g.tableId].primaryField, g.names, index, minted, fx);
      IndexAfterResolves(g.names, index, minted);
      assert forall k :: 0 <= k < |g.names| ==> g.names[k] in g.names;
      forall n | Resolved(index, n)
        ensures n in IndexAfter(g.names, index, minted) && IndexAfter(g.names, index, minted)[n] == index[n]
      {
        IndexAfterKeepsExisting(g.names, index, minted, n);
      }
    }
  }

  /** A completed link resolution leaves every name of every writable linked table with a truthy id. */
  lemma {:induction false} LinkPassResolves(schema: Base, tables: seq<LinkedNames>, rows0: map<TableId, seq<Record>>, minted0: nat, fx: Foreign)
    requires forall i, j :: 0 <= i < j < |tables| ==> tables[i].tableId != tables[j].tableId
    requires forall i :: 0 <= i < |tables| ==> DistinctStrings(tables[i].names)
    requires LinkPass(schema, tables, rows0, minted0, fx).Some?
    ensures LinksResolved(tables, schema, LinkPass(schema, tables, rows0, minted0, fx).value.index)
    decreases |tables|
  {
    if tables != [] {
      var n := |tables| - 1;
      var init, g := tables[..n], tables[n];
      assert tables == init + [g];
      LinkPassResolves(schema, init, rows0, minted0, fx);
      var st := LinkPass(schema, init, rows0, minted0, fx).value;
      PassOverTableResolves(schema, st.rows, st.minted, g, fx);
      LinksResolvedStep(init, schema, st.index, g, PassOverTable(schema, st.rows, st.minted, g, fx).value.index);
    }
  }

  // ------------------------------------------------------ rewriting links

  function LookupNames(idByTable: map<TableId, map<string, RecordId>>, tid: TableId): Option<map<string, RecordId>> {
    if tid in idByTable then Some(idByTable[tid]) else None
  }

  predicate HasId(x: CellValue) { x.Obj? && "id" in x.props }

  /** One element of a link cell: kept when it already has an id, else looked up by name. */
  function RewriteElement(x: CellValue, names: Option<map<string, RecordId>>): (r: Result<CellValue>)
    ensures r.Ok? ==> r.value == Null || HasId(r.value)
    ensures HasId(x) ==> r == Ok(x)
    ensures IsNullish(x) ==> r.Err?
    ensures !IsNullish(x) && !HasId(x) && names.None? ==> r.Err?
    ensures r.Ok? <==> HasId(x) || (!IsNullish(x) && names.Some?)
  {
    if IsNullish(x) then Err(TypeError("Cannot convert undefined or null to object"))
    else if HasId(x) then Ok(x)
    else match names
      case None => Err(TypeError("Cannot read properties of undefined"))
      case Some(m) =>
        var key := JsToString(if x.Obj? && "name" in x.props then x.props["name"] else Undefined);
        Ok(if key in m && m[key] != "" then IdRef(m[key]) else Null)
  }

  /** A {name} element becomes the {id} of the name's record, or null when the name did not resolve. */
  lemma RewriteNameRef(n: string, m: map<string, RecordId>)
    ensures RewriteElement(NameRef(n), Some(m)) == Ok(if Resolved(m, n) then IdRef(m[n]) else Null)
  {
    assert NameRef(n).props["name"] == Str(n);
  }

  /** The elements of a link cell rewritten one by one; the first failure wins. */
  function RewriteElements(xs: seq<CellValue>, names: Option<map<string, RecordId>>): (r: Result<seq<CellValue>>)
    ensures r.Ok? ==> forall y | y in r.value :: y == Null || HasId(y)
    ensures (forall x | x in xs :: HasId(x)) ==> r == Ok(xs)
  {
    if xs == [] then Ok([])
    else
      assert forall x | x in xs[1..] :: x in xs;
      var y :- RewriteElement(xs[0], names);
      var rest :- RewriteElements(xs[1..], names);
      assert xs == [xs[0]] + xs[1..];
      Ok([y] + rest)
  }

  /** The rewrite succeeds exactly when every element does, and then maps them one for one. */
  lemma {:induction false} RewriteElementsPointwise(xs: seq<CellValue>, names: Option<map<string, RecordId>>)
    ensures var r := RewriteElements(xs, names);
            && (r.Ok? <==> forall x | x in xs :: RewriteElement(x, names).Ok?)
            && (r.Ok? ==> |r.value| == |xs| && forall i | 0 <= i < |xs| :: RewriteElement(xs[i], names) == Ok(r.value[i]))
    decreases |xs|
  {
    if xs != [] {
      RewriteElementsPointwise(xs[1..], names);
      assert forall x | x in xs :: x == xs[0] || x in xs[1..];
      assert forall i | 1 <= i < |xs| :: xs[i] == xs[1..][i - 1];
    }
  }

  /** _.compact: falsy elements removed. */
  function Compact(xs: seq<CellValue>): (r: seq<CellValue>)
    ensures forall y | y in r :: y in xs && !IsFalsy(y)
    ensures (forall x | x in xs :: !IsFalsy(x)) ==> r == xs
  {
    if xs == [] then []
    else
      assert forall x | x in xs[1..] :: x in xs;
      assert xs == [xs[0]] + xs[1..];
      (if IsFalsy(xs[0]) then [] else [xs[0]]) + Compact(xs[1..])
  }

  /** Compacting keeps every truthy element. */
  lemma {:induction false} CompactKeeps(xs: seq<CellValue>)
    ensures forall x | x in xs && !IsFalsy(x) :: x in Compact(xs)
    decreases |xs|
  {
    if xs != [] {
      CompactKeeps(xs[1..]);
      assert forall x | x in xs :: x == xs[0] || x in xs[1..];
    }
  }

  lemma CompactCons(x: CellValue, t: seq<CellValue>)
    ensures Compact([x] + t) == (if IsFalsy(x) then [] else [x]) + Compact(t)
  {
    assert ([x] + t)[1..] == t;
  }

  /** Compacting keeps the order: it works element by element. */
  lemma {:induction false} CompactAppend(xs: seq<CellValue>, ys: seq<CellValue>)
    ensures Compact(xs + ys) == Compact(xs) + Compact(ys)
    decreases |xs|
  {
    if xs == [] {
      assert xs + ys == ys;
    } else {
      var x, t := xs[0], xs[1..];
      assert xs == [x] + t;
      assert xs + ys == [x] + (t + ys);
      var h := if IsFalsy(x) then [] else [x];
      CompactAppend(t, ys);
      CompactCons(x, t);
      CompactCons(x, t + ys);
      ConcatAssoc(h, Compact(t), Compact(ys));
    }
  }

  /** cellValue => cellValue.id. */
  function IdKey(x: CellValue): CellValue {
    if HasId(x) then x.props["id"] else Undefined
  }

  predicate DistinctIdKeys(xs: seq<CellValue>) {
    forall i, j :: 0 <= i < j < |xs| ==> IdKey(xs[i]) != IdKey(xs[j])
  }

  /** _.uniqBy(xs, x => x.id), having seen the keys in seen. */
  function UniqFrom(xs: seq<CellValue>, seen: set<CellValue>): (r: seq<CellValue>)
    ensures forall y | y in r :: y in xs && IdKey(y) !in seen
    ensures DistinctIdKeys(r)
    decreases |xs|
  {
    if xs == [] then []
    else if IdKey(xs[0]) in seen then
      assert forall x | x in xs[1..] :: x in xs;
      UniqFrom(xs[1..], seen)
    else
      var rest := UniqFrom(xs[1..], seen + {IdKey(xs[0])});
      assert forall x | x in xs[1..] :: x in xs;
      var r := [xs[0]] + rest;
      assert forall i :: 1 <= i < |r| ==> r[i] == rest[i - 1] && IdKey(r[i]) != IdKey(xs[0]);
      r
  }

  function UniqById(xs: seq<CellValue>): seq<CellValue> {
    UniqFrom(xs, {})
  }

  function IdKeys(xs: seq<CellValue>): set<CellValue> {
    set x | x in xs :: IdKey(x)
  }

  /** No element before position i has the key of xs[i]. */
  predicate FirstOfKey(xs: seq<CellValue>, i: nat)
    requires i < |xs|
  {
    forall k | 0 <= k < i :: IdKey(xs[k]) != IdKey(xs[i])
  }

  /** uniqBy keeps the order: a later part keeps what the earlier part and seen have not already claimed. */
  lemma {:induction false} UniqFromAppend(xs: seq<CellValue>, ys: seq<CellValue>, seen: set<CellValue>)
    ensures UniqFrom(xs + ys, seen) == UniqFrom(xs, seen) + UniqFrom(ys, seen + IdKeys(xs))
    decreases |xs|
  {
    if xs == [] {
      assert xs + ys == ys;
      assert seen + IdKeys(xs) == seen;
    } else {
      var k := IdKey(xs[0]);
      var tail := xs[1..];
      assert (xs + ys)[0] == xs[0] && (xs + ys)[1..] == tail + ys;
      assert IdKeys(xs) == {k} + IdKeys(tail) by {
        assert xs == [xs[0]] + tail;
        assert forall x :: x in xs <==> x == xs[0] || x in tail;
      }
      if k in seen {
        UniqFromAppend(tail, ys, seen);
        assert seen + IdKeys(xs) == seen + IdKeys(tail);
      } else {
        var seen' := seen + {k};
        UniqFromAppend(tail, ys, seen');
        assert seen' + IdKeys(tail) == seen + IdKeys(xs);
        var a, b := UniqFrom(tail, seen'), UniqFrom(ys, seen' + IdKeys(tail));
        assert UniqFrom(xs + ys, seen) == [xs[0]] + (a + b);
        assert UniqFrom(xs, seen) == [xs[0]] + a;
        ConcatAssoc([xs[0]], a, b);
      }
    }
  }

  /** uniqBy keeps the first element of every key not seen. */
  lemma {:induction false} UniqFromKeepsFirsts(xs: seq<CellValue>, seen: set<CellValue>)
    ensures forall i | 0 <= i < |xs| && IdKey(xs[i]) !in seen && FirstOfKey(xs, i) :: xs[i] in UniqFrom(xs, seen)
    decreases |xs|
  {
    if xs != [] {
      var k := IdKey(xs[0]);
      var tail := xs[1..];
      var seen' := if k in seen then seen else seen + {k};
      UniqFromKeepsFirsts(tail, seen');
      var r := UniqFrom(xs, seen);
      assert k !in seen ==> r == [xs[0]] + UniqFrom(tail, seen');
      assert forall y | y in UniqFrom(tail, seen') :: y in r;
      forall i | 0 < i < |xs| && IdKey(xs[i]) !in seen && FirstOfKey(xs, i)
        ensures xs[i] in r
      {
        assert IdKey(xs[0]) != IdKey(xs[i]);
        assert tail[i - 1] == xs[i];
        assert FirstOfKey(tail, i - 1) by {
          forall j | 0 <= j < i - 1
            ensures IdKey(tail[j]) != IdKey(tail[i - 1])
          {
            assert tail[j] == xs[j + 1];
          }
        }
      }
    }
  }

  /** uniqBy keeps one element for every key not seen. */
  lemma {:induction false} UniqFromCovers(xs: seq<CellValue>, seen: set<CellValue>)
    ensures forall x | x in xs && IdKey(x) !in seen :: exists y | y in UniqFrom(xs, seen) :: IdKey(y) == IdKey(x)
    decreases |xs|
  {
    if xs != [] {
      var k := IdKey(xs[0]);
      var tail := xs[1..];
      var seen' := if k in seen then seen else seen + {k};
      UniqFromCovers(tail, seen');
      var r := UniqFrom(xs, seen);
      assert k !in seen ==> r == [xs[0]] + UniqFrom(tail, seen');
      assert forall y | y in UniqFrom(tail, seen') :: y in r;
      forall x | x in xs && IdKey(x) !in seen
        ensures exists y | y in r :: IdKey(y) == IdKey(x)
      {
        if IdKey(x) == k {
          assert xs[0] in r;
        } else {
          assert x == xs[0] || x in tail;
          var y :| y in UniqFrom(tail, seen') && IdKey(y) == IdKey(x);
          assert y in r;
        }
      }
    }
  }

  /** The tail of a list with distinct keys has distinct keys, none of them the head's or one seen before. */
  lemma DistinctTailKeys(xs: seq<CellValue>, seen: set<CellValue>)
    requires xs != [] && DistinctIdKeys(xs)
    requires forall x | x in xs :: IdKey(x) !in seen
    ensures DistinctIdKeys(xs[1..])
    ensures forall x | x in xs[1..] :: IdKey(x) !in seen + {IdKey(xs[0])}
  {
    var rest := xs[1..];
    forall x | x in rest
      ensures IdKey(x) !in seen + {IdKey(xs[0])}
    {
      var k :| 0 <= k < |rest| && rest[k] == x;
      assert xs[k + 1] == x;
    }
    forall i, j | 0 <= i < j < |rest|
      ensures IdKey(rest[i]) != IdKey(rest[j])
    {
      assert rest[i] == xs[i + 1] && rest[j] == xs[j + 1];
    }
  }

  lemma {:induction false} UniqFromDistinct(xs: seq<CellValue>, seen: set<CellValue>)
    requires DistinctIdKeys(xs)
    requires forall x | x in xs :: IdKey(x) !in seen
    ensures UniqFrom(xs, seen) == xs
    decreases |xs|
  {
    if xs != [] {
      var rest := xs[1..];
      var seen' := seen + {IdKey(xs[0])};
      assert IdKey(xs[0]) !in seen;
      DistinctTailKeys(xs, seen);
      UniqFromDistinct(rest, seen');
      assert xs == [xs[0]] + rest;
    }
  }

  /**
   * The new value of one link cell: every element mapped to {id}, names
   * that did not resolve dropped, and one element kept per id.
   */
  function RewriteLinkValue(v: CellValue, names: Option<map<string, RecordId>>): (r: Result<CellValue>)
    ensures r.Ok? ==> r.value.List? && DistinctIdKeys(r.value.items) && forall y | y in r.value.items :: HasId(y)
    ensures r.Err? ==> !v.List? || exists x :: x in v.items && RewriteElement(x, names).Err?
  {
    match v
    case List(xs) =>
      var ys :- RewriteElementsWithWitness(xs, names);
      var zs := UniqById(Compact(ys));
      assert forall y | y in zs :: HasId(y) by {
        forall y | y in zs
          ensures HasId(y)
        {
          assert y in Compact(ys);
          assert y in ys && !IsFalsy(y);
        }
      }
      Ok(List(zs))
    case _ => Err(TypeError("linkedRecordCellValue.map is not a function"))
  }

  /**
   * The new cell holds exactly what the elements were rewritten to, less
   * the nulls and the repeats: every element in it is the rewrite of one of
   * the cell's elements, and every element that rewrote to an {id} has that
   * id in it. The rewrite succeeds exactly when the cell is a list whose
   * every element rewrites.
   */
  lemma RewriteLinkValueContents(v: CellValue, names: Option<map<string, RecordId>>)
    ensures var r := RewriteLinkValue(v, names);
            && (r.Ok? <==> v.List? && forall x | x in v.items :: RewriteElement(x, names).Ok?)
            && (r.Ok? ==> forall y | y in r.value.items :: exists x | x in v.items :: RewriteElement(x, names) == Ok(y))
            && (r.Ok? ==> forall x | x in v.items && RewriteElement(x, names).Ok? && RewriteElement(x, names).value != Null ::
                            exists y | y in r.value.items :: IdKey(y) == IdKey(RewriteElement(x, names).value))
  {
    if v.List? {
      RewriteElementsPointwise(v.items, names);
      var rs := RewriteElements(v.items, names);
      if rs.Ok? {
        assert RewriteLinkValue(v, names) == Ok(List(UniqById(Compact(rs.value))));
        RewrittenFrom(v.items, rs.value, names);
        RewrittenCovers(v.items, rs.value, names);
      }
    }
  }

  /** Every element left after compacting and uniqBy is the rewrite of some element. */
  lemma RewrittenFrom(xs: seq<CellValue>, ys: seq<CellValue>, names: Option<map<string, RecordId>>)
    requires |ys| == |xs| && forall i | 0 <= i < |xs| :: RewriteElement(xs[i], names) == Ok(ys[i])
    ensures forall y | y in UniqById(Compact(ys)) :: exists x | x in xs :: RewriteElement(x, names) == Ok(y)
  {
    forall y | y in UniqById(Compact(ys))
      ensures exists x | x in xs :: RewriteElement(x, names) == Ok(y)
    {
      assert y in ys;
      var i :| 0 <= i < |ys| && ys[i] == y;
      assert RewriteElement(xs[i], names) == Ok(y);
    }
  }

  /** Every element rewritten to an {id} has its id left after compacting and uniqBy. */
  lemma RewrittenCovers(xs: seq<CellValue>, ys: seq<CellValue>, names: Option<map<string, RecordId>>)
    requires |ys| == |xs| && forall i | 0 <= i < |xs| :: RewriteElement(xs[i], names) == Ok(ys[i])
    ensures forall x | x in xs && RewriteElement(x, names).Ok? && RewriteElement(x, names).value != Null ::
              exists y | y in UniqById(Compact(ys)) :: IdKey(y) == IdKey(RewriteElement(x, names).value)
  {
    UniqFromCovers(Compact(ys), {});
    CompactKeeps(ys);
    forall x | x in xs && RewriteElement(x, names).Ok? && RewriteElement(x, names).value != Null
      ensures exists y | y in UniqById(Compact(ys)) :: IdKey(y) == IdKey(RewriteElement(x, names).value)
    {
      var i :| 0 <= i < |xs| && xs[i] == x;
      var e := ys[i];
      assert e in ys && HasId(e) && !IsFalsy(e);
      assert e in Compact(ys);
    }
  }

  function RewriteElementsWithWitness(xs: seq<CellValue>, names: Option<map<string, RecordId>>): (r: Result<seq<CellValue>>)
    ensures r == RewriteElements(xs, names)
    ensures r.Err? ==> exists x :: x in xs && RewriteElement(x, names).Err?
  {
    if xs == [] then Ok([])
    else
      assert forall x | x in xs[1..] :: x in xs;
      var y :- RewriteElement(xs[0], names);
      var rest :- RewriteElementsWithWitness(xs[1..], names);
      Ok([y] + rest)
  }

  /**
   * Rewriting a rewritten link cell changes nothing: a cell shared by
   * several updates, rewritten once per update, ends as if rewritten once.
   */
  lemma RewriteLinkValueIdempotent(v: CellValue, names: Option<map<string, RecordId>>)
    requires RewriteLinkValue(v, names).Ok?
    ensures var w := RewriteLinkValue(v, names).value;
            RewriteLinkValue(w, names) == Ok(w)
  {
    var w := RewriteLinkValue(v, names).value;
    var zs := w.items;
    assert RewriteElements(zs, names) == Ok(zs);
    assert Compact(zs) == zs;
    UniqFromDistinct(zs, {});
  }

  /** The rewrite loop over the link fields for one record def. */
  function RewriteDef(d: RecordDef, lf: seq<(FieldId, TableId)>, idByTable: map<TableId, map<string, RecordId>>): Result<RecordDef>
    decreases |lf|
  {
    if lf == [] then Ok(d)
    else
      var w :- RewriteLinkValue(Get(d, lf[0].0), LookupNames(idByTable, lf[0].1));
      RewriteDef(d[lf[0].0 := w], lf[1..], idByTable)
  }

  /** The value of field fid is a fixed point of the rewrite for its linked table. */
  predicate RewriteFixed(e: RecordDef, fid: FieldId, tid: TableId, idByTable: map<TableId, map<string, RecordId>>) {
    fid in e && RewriteLinkValue(e[fid], LookupNames(idByTable, tid)) == Ok(e[fid])
  }

  /** No link field entry names the key k. */
  predicate NotRewritten(lf: seq<(FieldId, TableId)>, k: FieldId) {
    forall i :: 0 <= i < |lf| ==> lf[i].0 != k
  }

  /** Cells of fields that are not link fields are left alone. */
  lemma {:induction false} RewriteDefFrame(d: RecordDef, lf: seq<(FieldId, TableId)>, idByTable: map<TableId, map<string, RecordId>>, k: FieldId)
    requires RewriteDef(d, lf, idByTable).Ok?
    requires NotRewritten(lf, k) && k in d
    ensures k in RewriteDef(d, lf, idByTable).value && RewriteDef(d, lf, idByTable).value[k] == d[k]
    decreases |lf|
  {
    if lf != [] {
      var w := RewriteLinkValue(Get(d, lf[0].0), LookupNames(idByTable, lf[0].1)).value;
      assert NotRewritten(lf[1..], k) by {
        assert forall i :: 0 <= i < |lf| - 1 ==> lf[1..][i] == lf[i + 1];
      }
      assert lf[0].0 != k;
      RewriteDefFrame(d[lf[0].0 := w], lf[1..], idByTable, k);
    }
  }

  /** After the rewrite, every link cell is a fixed point of rewriting. */
  lemma {:induction false} RewriteDefFixes(d: RecordDef, lf: seq<(FieldId, TableId)>, idByTable: map<TableId, map<string, RecordId>>)
    requires RewriteDef(d, lf, idByTable).Ok?
    ensures forall i :: 0 <= i < |lf| ==> RewriteFixed(RewriteDef(d, lf, idByTable).value, lf[i].0, lf[i].1, idByTable)
    decreases |lf|
  {
    if lf != [] {
      var names := LookupNames(idByTable, lf[0].1);
      var w := RewriteLinkValue(Get(d, lf[0].0), names).value;
      RewriteLinkValueIdempotent(Get(d, lf[0].0), names);
      var d1 := d[lf[0].0 := w];
      var rest := lf[1..];
      RewriteDefFixes(d1, rest, idByTable);
      var e := RewriteDef(d1, rest, idByTable).value;
      assert RewriteDef(d, lf, idByTable) == RewriteDef(d1, rest, idByTable);
      forall i | 0 <= i < |lf|
        ensures RewriteFixed(e, lf[i].0, lf[i].1, idByTable)
      {
        if i > 0 {
          assert lf[i] == rest[i - 1];
        } else if NotRewritten(rest, lf[0].0) {
          RewriteDefFrame(d1, rest, idByTable, lf[0].0);
        } else {
          var i' :| 0 <= i' < |rest| && rest[i'].0 == lf[0].0;
          assert RewriteFixed(e, rest[i'].0, rest[i'].1, idByTable);
        }
      }
    }
  }

  lemma {:induction false} RewriteFixedDef(e: RecordDef, lf: seq<(FieldId, TableId)>, idByTable: map<TableId, map<string, RecordId>>)
    requires forall i :: 0 <= i < |lf| ==> RewriteFixed(e, lf[i].0, lf[i].1, idByTable)
    ensures RewriteDef(e, lf, idByTable) == Ok(e)
    decreases |lf|
  {
    if lf != [] {
      assert e[lf[0].0 := e[lf[0].0]] == e;
      assert forall i :: 0 <= i < |lf| - 1 ==> lf[1..][i] == lf[i + 1];
      RewriteFixedDef(e, lf[1..], idByTable);
    }
  }

  /**
   * Rewriting a rewritten record def changes nothing, which is why the
   * source's in-place rewrite of record def objects shared by several
   * update entries agrees with rewriting each entry once.
   */
  lemma RewriteDefIdempotent(d: RecordDef, lf: seq<(FieldId, TableId)>, idByTable: map<TableId, map<string, RecordId>>)
    requires RewriteDef(d, lf, idByTable).Ok?
    ensures var e := RewriteDef(d, lf, idByTable).value;
            RewriteDef(e, lf, idByTable) == Ok(e)
  {
    RewriteDefFixes(d, lf, idByTable);
    RewriteFixedDef(RewriteDef(d, lf, idByTable).value, lf, idByTable);
  }

  /** The loop over linkedTableIdByLinkedRecordFieldId for one record def. */
  method RewriteLinkCells(d: RecordDef, lf: seq<(FieldId, TableId)>, idByTable: map<TableId, map<string, RecordId>>)
    returns (r: Result<RecordDef>)
    ensures r == RewriteDef(d, lf, idByTable)
  {
    var e := d;
    for i := 0 to |lf|
      invariant RewriteDef(d, lf, idByTable) == RewriteDef(e, lf[i..], idByTable)
    {
      assert lf[i..][1..] == lf[i + 1..];
      var (fid, tid) := lf[i];
      var w := RewriteLinkValue(Get(e, fid), LookupNames(idByTable, tid));
      if w.Err? {
        return Err(w.error);
      }
      e := e[fid := w.value];
    }
    return Ok(e);
  }

  /** The rewrite of every record def to create, in order; the first failure propagates. */
  function RewriteDefs(defs: seq<RecordDef>, lf: seq<(FieldId, TableId)>, idByTable: map<TableId, map<string, RecordId>>): (r: Result<seq<RecordDef>>)
    ensures r.Ok? ==> |r.value| == |defs| && forall i :: 0 <= i < |defs| ==> RewriteDef(defs[i], lf, idByTable) == Ok(r.value[i])
    ensures r.Err? ==> exists i :: 0 <= i < |defs| && RewriteDef(defs[i], lf, idByTable).Err?
    decreases |defs|
  {
    if defs == [] then Ok([])
    else
      var n := |defs| - 1;
      assert forall i :: 0 <= i < n ==> defs[..n][i] == defs[i];
      var init :- RewriteDefs(defs[..n], lf, idByTable);
      var last :- RewriteDef(defs[n], lf, idByTable);
      var r := init + [last];
      assert forall i :: 0 <= i < n ==> r[i] == init[i];
      Ok(r)
  }

  /** The rewrite of every update's fields, in order, ids kept. */
  function RewriteUpdates(us: seq<UpdateDef>, lf: seq<(FieldId, TableId)>, idByTable: map<TableId, map<string, RecordId>>): (r: Result<seq<UpdateDef>>)
    ensures r.Ok? ==> |r.value| == |us| && forall i :: 0 <= i < |us| ==> r.value[i].id == us[i].id && RewriteDef(us[i].fields, lf, idByTable) == Ok(r.value[i].fields)
    ensures r.Err? ==> exists i :: 0 <= i < |us| && RewriteDef(us[i].fields, lf, idByTable).Err?
    decreases |us|
  {
    if us == [] then Ok([])
    else
      var n := |us| - 1;
      assert forall i :: 0 <= i < n ==> us[..n][i] == us[i];
      var init :- RewriteUpdates(us[..n], lf, idByTable);
      var last :- RewriteDef(us[n].fields, lf, idByTable);
      var r := init + [UpdateDef(us[n].id, last)];
      assert forall i :: 0 <= i < n ==> r[i] == init[i];
      Ok(r)
  }

  lemma RewriteDefsStep(defs: seq<RecordDef>, i: nat, lf: seq<(FieldId, TableId)>, idByTable: map<TableId, map<string, RecordId>>)
    requires i < |defs| && RewriteDefs(defs[..i], lf, idByTable).Ok? && RewriteDef(defs[i], lf, idByTable).Ok?
    ensures RewriteDefs(defs[..i + 1], lf, idByTable)
            == Ok(RewriteDefs(defs[..i], lf, idByTable).value + [RewriteDef(defs[i], lf, idByTable).value])
  {
    assert defs[..i + 1][..i] == defs[..i];
  }

  lemma RewriteUpdatesStep(us: seq<UpdateDef>, i: nat, lf: seq<(FieldId, TableId)>, idByTable: map<TableId, map<string, RecordId>>)
    requires i < |us| && RewriteUpdates(us[..i], lf, idByTable).Ok? && RewriteDef(us[i].fields, lf, idByTable).Ok?
    ensures RewriteUpdates(us[..i + 1], lf, idByTable)
            == Ok(RewriteUpdates(us[..i], lf, idByTable).value + [UpdateDef(us[i].id, RewriteDef(us[i].fields, lf, idByTable).value)])
  {
    assert us[..i + 1][..i] == us[..i];
  }

  /** The rewrite loop over the records to create. */
  method RewriteCreateLinks(creates: seq<RecordDef>, lf: seq<(FieldId, TableId)>, idByTable: map<TableId, map<string, RecordId>>)
    returns (r: Result<seq<RecordDef>>)
    ensures r.Ok? <==> RewriteDefs(creates, lf, idByTable).Ok?
    ensures r.Ok? ==> r.value == RewriteDefs(creates, lf, idByTable).value
  {
    var rc: seq<RecordDef> := [];
    for i := 0 to |creates|
      invariant RewriteDefs(creates[..i], lf, idByTable) == Ok(rc)
    {
      var e := RewriteLinkCells(creates[i], lf, idByTable);
      if e.Err? {
        return Err(e.error);
      }
      RewriteDefsStep(creates, i, lf, idByTable);
      rc := rc + [e.value];
    }
    assert creates[..|creates|] == creates;
    return Ok(rc);
  }

  /** The rewrite loop over the updates, each keeping its record id. */
  method RewriteUpdateLinks(updates: seq<UpdateDef>, lf: seq<(FieldId, TableId)>, idByTable: map<TableId, map<string, RecordId>>)
    returns (r: Result<seq<UpdateDef>>)
    ensures r.Ok? <==> RewriteUpdates(updates, lf, idByTable).Ok?
    ensures r.Ok? ==> r.value == RewriteUpdates(updates, lf, idByTable).value
  {
    var ru: seq<UpdateDef> := [];
    for i := 0 to |updates|
      invariant RewriteUpdates(updates[..i], lf, idByTable) == Ok(ru)
    {
      var e := RewriteLinkCells(updates[i].fields, lf, idByTable);
      if e.Err? {
        return Err(e.error);
      }
      RewriteUpdatesStep(updates, i, lf, idByTable);
      ru := ru + [UpdateDef(updates[i].id, e.value)];
    }
    assert updates[..|updates|] == updates;
    return Ok(ru);
  }

  /** The rewrite loop over the creates followed by the updates (_.concat). */
  method RewriteAllLinks(creates: seq<RecordDef>, updates: seq<UpdateDef>, lf: seq<(FieldId, TableId)>,
                         idByTable: map<TableId, map<string, RecordId>>)
    returns (r: Result<(seq<RecordDef>, seq<UpdateDef>)>)
    ensures r.Ok? <==> RewriteDefs(creates, lf, idByTable).Ok? && RewriteUpdates(updates, lf, idByTable).Ok?
    ensures r.Ok? ==> r.value == (RewriteDefs(creates, lf, idByTable).value, RewriteUpdates(updates, lf, idByTable).value)
  {
    var rc := RewriteCreateLinks(creates, lf, idByTable);
    if rc.Err? {
      return Err(rc.error);
    }
    var ru := RewriteUpdateLinks(updates, lf, idByTable);
    if ru.Err? {
      return Err(ru.error);
    }
    return Ok((rc.value, ru.value));
  }

  /**
   * The rewritten cells keep only record ids, one per linked record, so a
   * link cell never names the same record twice.
   */
  lemma RewrittenLinksAreDistinctIds(d: RecordDef, lf: seq<(FieldId, TableId)>, idByTable: map<TableId, map<string, RecordId>>, i: nat)
    requires RewriteDef(d, lf, idByTable).Ok?
    requires i < |lf|
    ensures var e := RewriteDef(d, lf, idByTable).value;
            lf[i].0 in e && e[lf[i].0].List? && DistinctIdKeys(e[lf[i].0].items)
            && forall y | y in e[lf[i].0].items :: HasId(y)
  {
    RewriteDefFixes(d, lf, idByTable);
  }

  // ------------------------------------------------------------ batches

  function Min(a: nat, b: nat): nat { if a <= b then a else b }

  /** The next slice(i, i + 50). */
  function Batch<T>(s: seq<T>): (b: seq<T>)
    ensures |b| == Min(RecordBatchSize, |s|) && b == s[..|b|]
  {
    s[..Min(RecordBatchSize, |s|)]
  }

  /** The updates whose record is still in the table's query result. */
  function Kept(us: seq<UpdateDef>, ids: set<RecordId>): seq<UpdateDef>
    decreases |us|
  {
    if us == [] then []
    else (if us[0].id in ids then [us[0]] else []) + Kept(us[1..], ids)
  }

  /** The fields of the updates whose record has been deleted since the diff: they are created instead. */
  function Vanished(us: seq<UpdateDef>, ids: set<RecordId>): seq<RecordDef>
    decreases |us|
  {
    if us == [] then []
    else (if us[0].id in ids then [] else [us[0].fields]) + Vanished(us[1..], ids)
  }

  lemma {:induction false} KeptVanishedSplit(a: seq<UpdateDef>, b: seq<UpdateDef>, ids: set<RecordId>)
    ensures Kept(a + b, ids) == Kept(a, ids) + Kept(b, ids)
    ensures Vanished(a + b, ids) == Vanished(a, ids) + Vanished(b, ids)
  {
    KeptSplit(a, b, ids);
    VanishedSplit(a, b, ids);
  }

  lemma {:induction false} KeptSplit(a: seq<UpdateDef>, b: seq<UpdateDef>, ids: set<RecordId>)
    ensures Kept(a + b, ids) == Kept(a, ids) + Kept(b, ids)
    decreases |a|
  {
    var ab := a + b;
    if a == [] {
      assert ab == b;
    } else {
      var h := if a[0].id in ids then [a[0]] else [];
      assert ab[0] == a[0] && ab[1..] == a[1..] + b;
      assert Kept(ab, ids) == h + Kept(ab[1..], ids);
      KeptSplit(a[1..], b, ids);
      ConcatAssoc(h, Kept(a[1..], ids), Kept(b, ids));
    }
  }

  lemma {:induction false} VanishedSplit(a: seq<UpdateDef>, b: seq<UpdateDef>, ids: set<RecordId>)
    ensures Vanished(a + b, ids) == Vanished(a, ids) + Vanished(b, ids)
    decreases |a|
  {
    var ab := a + b;
    if a == [] {
      assert ab == b;
    } else {
      var h := if a[0].id in ids then [] else [a[0].fields];
      assert ab[0] == a[0] && ab[1..] == a[1..] + b;
      assert Vanished(ab, ids) == h + Vanished(ab[1..], ids);
      VanishedSplit(a[1..], b, ids);
      ConcatAssoc(h, Vanished(a[1..], ids), Vanished(b, ids));
    }
  }

  /** Every update is either sent as an update or moved to the creates. */
  lemma {:induction false} KeptVanishedPartition(us: seq<UpdateDef>, ids: set<RecordId>)
    ensures |Kept(us, ids)| + |Vanished(us, ids)| == |us|
    ensures forall i :: 0 <= i < |us| && us[i].id !in ids ==> us[i].fields in Vanished(us, ids)
    ensures forall i :: 0 <= i < |us| && us[i].id in ids ==> us[i] in Kept(us, ids)
    ensures forall u | u in Kept(us, ids) :: u in us && u.id in ids
    decreases |us|
  {
    if us != [] {
      KeptVanishedPartition(us[1..], ids);
      assert forall i :: 1 <= i < |us| ==> us[i] == us[1..][i - 1];
    }
  }

  /** The updateRecordsAsync calls: one per batch of 50, each with the batch's kept updates. */
  function UpdateWrites(tid: TableId, us: seq<UpdateDef>, ids: set<RecordId>): seq<Write>
    decreases |us|
  {
    if us == [] then []
    else [UpdateBatch(tid, Kept(Batch(us), ids))] + UpdateWrites(tid, us[|Batch(us)|..], ids)
  }

  /** The createRecordsAsync calls: one per batch of 50. */
  function CreateWrites(tid: TableId, defs: seq<RecordDef>): seq<Write>
    decreases |defs|
  {
    if defs == [] then []
    else [CreateBatch(tid, Batch(defs))] + CreateWrites(tid, defs[|Batch(defs)|..])
  }

  /** Every batch holds between 1 and 50 writes. */
  predicate BatchBounded(w: Write) {
    match w
    case CreateOne(_, _) => true
    case UpdateBatch(_, us) => |us| <= RecordBatchSize
    case CreateBatch(_, defs) => 0 < |defs| <= RecordBatchSize
  }

  /** Batched writes send every update or create exactly once, in order, in batches of at most 50. */
  lemma {:induction false} BatchedWritesCover(tid: TableId, us: seq<UpdateDef>, ids: set<RecordId>, defs: seq<RecordDef>)
    ensures forall w | w in UpdateWrites(tid, us, ids) :: w.UpdateBatch? && w.tableId == tid && BatchBounded(w)
    ensures forall w | w in CreateWrites(tid, defs) :: w.CreateBatch? && w.tableId == tid && BatchBounded(w)
    ensures SentUpdates(UpdateWrites(tid, us, ids)) == Kept(us, ids)
    ensures SentCreates(CreateWrites(tid, defs)) == defs
    ensures |UpdateWrites(tid, us, ids)| == (|us| + RecordBatchSize - 1) / RecordBatchSize
  {
    UpdateWritesCover(tid, us, ids);
    CreateWritesCover(tid, defs);
  }

  /** The update half of BatchedWritesCover. */
  lemma {:induction false} UpdateWritesCover(tid: TableId, us: seq<UpdateDef>, ids: set<RecordId>)
    ensures forall w | w in UpdateWrites(tid, us, ids) :: w.UpdateBatch? && w.tableId == tid && BatchBounded(w)
    ensures SentUpdates(UpdateWrites(tid, us, ids)) == Kept(us, ids)
    ensures |UpdateWrites(tid, us, ids)| == (|us| + RecordBatchSize - 1) / RecordBatchSize
    decreases |us|
  {
    if us != [] {
      var b := Batch(us);
      var rest := us[|b|..];
      UpdateWritesCover(tid, rest, ids);
      assert us == b + rest;
      KeptVanishedSplit(b, rest, ids);
      assert Kept(b, ids) == Kept(us[..|b|], ids);
      var w := UpdateBatch(tid, Kept(b, ids));
      assert UpdateWrites(tid, us, ids) == [w] + UpdateWrites(tid, rest, ids);
      assert forall x | x in UpdateWrites(tid, us, ids) :: x == w || x in UpdateWrites(tid, rest, ids);
      KeptBounded(b, ids);
    }
  }

  /** The create half of BatchedWritesCover. */
  lemma {:induction false} CreateWritesCover(tid: TableId, defs: seq<RecordDef>)
    ensures forall w | w in CreateWrites(tid, defs) :: w.CreateBatch? && w.tableId == tid && BatchBounded(w)
    ensures SentCreates(CreateWrites(tid, defs)) == defs
    decreases |defs|
  {
    if defs != [] {
      var b := Batch(defs);
      var rest := defs[|b|..];
      CreateWritesCover(tid, rest);
      assert defs == b + rest;
      var w := CreateBatch(tid, b);
      assert CreateWrites(tid, defs) == [w] + CreateWrites(tid, rest);
      assert forall x | x in CreateWrites(tid, defs) :: x == w || x in CreateWrites(tid, rest);
    }
  }

  lemma {:induction false} KeptBounded(us: seq<UpdateDef>, ids: set<RecordId>)
    ensures |Kept(us, ids)| <= |us|
  {
    KeptVanishedPartition(us, ids);
  }

  /** The updates sent by a sequence of writes, concatenated. */
  function SentUpdates(ws: seq<Write>): seq<UpdateDef>
    decreases |ws|
  {
    if ws == [] then [] else (if ws[0].UpdateBatch? then ws[0].updates else []) + SentUpdates(ws[1..])
  }

  /** The record defs created by batches in a sequence of writes, concatenated. */
  function SentCreates(ws: seq<Write>): seq<RecordDef>
    decreases |ws|
  {
    if ws == [] then [] else (if ws[0].CreateBatch? then ws[0].defs else []) + SentCreates(ws[1..])
  }

  /** The loop over one batch of updates, checking each record against the query result. */
  method SplitBatch(batch: seq<UpdateDef>, ids: set<RecordId>) returns (kept: seq<UpdateDef>, vanished: seq<RecordDef>)
    ensures kept == Kept(batch, ids) && vanished == Vanished(batch, ids)
  {
    kept, vanished := [], [];
    for j := 0 to |batch|
      invariant Kept(batch, ids) == kept + Kept(batch[j..], ids)
      invariant Vanished(batch, ids) == vanished + Vanished(batch[j..], ids)
    {
      assert batch[j..][1..] == batch[j + 1..];
      if batch[j].id in ids {
        kept := kept + [batch[j]];
      } else {
        vanished := vanished + [batch[j].fields];
      }
    }
  }

  /** One updateRecordsAsync call, with the batch's updates whose record still exists. */
  method SendUpdateBatch(tid: TableId, batch: seq<UpdateDef>, ids: set<RecordId>, store: Store)
    returns (vanished: seq<RecordDef>, sent: nat)
    modifies store
    ensures store.log == old(store.log) + [UpdateBatch(tid, Kept(batch, ids))]
    ensures vanished == Vanished(batch, ids) && sent == |Kept(batch, ids)|
  {
    var kept;
    kept, vanished := SplitBatch(batch, ids);
    store.UpdateRecords(tid, kept);
    sent := |kept|;
  }

  /** The update loop: each batch's kept updates are sent, the vanished ones set aside for creation. */
  method UpdateInBatches(tid: TableId, ru: seq<UpdateDef>, ids: set<RecordId>, store: Store,
                         touched0: nat, total: nat, progress0: seq<Progress>)
    returns (moved: seq<RecordDef>, touched: nat, progress: seq<Progress>)
    requires ProgressOk(progress0, touched0, total) && LastTouched(progress0) == touched0
    modifies store
    ensures LastTouched(progress) == touched
    ensures store.log == old(store.log) + UpdateWrites(tid, ru, ids)
    ensures moved == Vanished(ru, ids)
    ensures touched == touched0 + |Kept(ru, ids)|
    ensures ProgressOk(progress, touched, total)
  {
    moved := [];
    touched := touched0;
    progress := progress0;
    var rest := ru;
    while rest != []
      invariant old(store.log) + UpdateWrites(tid, ru, ids) == store.log + UpdateWrites(tid, rest, ids)
      invariant moved + Vanished(rest, ids) == Vanished(ru, ids)
      invariant touched + |Kept(rest, ids)| == touched0 + |Kept(ru, ids)|
      invariant ProgressOk(progress, touched, total) && LastTouched(progress) == touched
      decreases |rest|
    {
      var batch := Batch(rest);
      var after := rest[|batch|..];
      assert rest == batch + after;
      KeptVanishedSplit(batch, after, ids);
      ghost var logBefore := store.log;
      var vanished, sent := SendUpdateBatch(tid, batch, ids, store);
      var w := UpdateBatch(tid, Kept(batch, ids));
      assert UpdateWrites(tid, rest, ids) == [w] + UpdateWrites(tid, after, ids);
      ConcatAssoc(logBefore, [w], UpdateWrites(tid, after, ids));
      ConcatAssoc(moved, vanished, Vanished(after, ids));
      moved := moved + vanished;
      ProgressAdvance(progress, touched, sent, total);
      touched := touched + sent;
      ProgressReport(progress, touched, total);
      progress := progress + [Progress(touched, total)];
      rest := after;
    }
  }

  /** The create loop: one createRecordsAsync call per batch of 50. */
  method CreateInBatches(tid: TableId, defs: seq<RecordDef>, store: Store,
                         touched0: nat, total: nat, progress0: seq<Progress>)
    returns (touched: nat, progress: seq<Progress>)
    requires ProgressOk(progress0, touched0, total) && LastTouched(progress0) == touched0
    modifies store
    ensures LastTouched(progress) == touched
    ensures store.log == old(store.log) + CreateWrites(tid, defs)
    ensures touched == touched0 + |defs|
    ensures ProgressOk(progress, touched, total)
  {
    touched := touched0;
    progress := progress0;
    var i := 0;
    while i < |defs|
      invariant i <= |defs|
      invariant old(store.log) + CreateWrites(tid, defs) == store.log + CreateWrites(tid, defs[i..])
      invariant touched == touched0 + i
      invariant ProgressOk(progress, touched, total) && LastTouched(progress) == touched
      decreases |defs| - i
    {
      var batch := defs[i..][..Min(RecordBatchSize, |defs| - i)];
      assert batch == Batch(defs[i..]);
      assert defs[i..][|batch|..] == defs[i + |batch|..];
      var w := CreateBatch(tid, batch);
      assert CreateWrites(tid, defs[i..]) == [w] + CreateWrites(tid, defs[i + |batch|..]);
      ConcatAssoc(store.log, [w], CreateWrites(tid, defs[i + |batch|..]));
      store.CreateRecords(tid, batch);
      ProgressAdvance(progress, touched, |batch|, total);
      touched := touched + |batch|;
      ProgressReport(progress, touched, total);
      progress := progress + [Progress(touched, total)];
      i := i + |batch|;
    }
  }

  function IdsOfRecords(records: seq<Record>): set<RecordId> {
    set r | r in records :: r.id
  }

  function LastTouched(progress: seq<Progress>): nat {
    if progress == [] then 0 else progress[|progress| - 1].touched
  }

  /** The record defs of the diff in _.concat order: the creates, then the fields of each update. */
  function AllDefs(creates: seq<RecordDef>, updates: seq<UpdateDef>): (r: seq<RecordDef>)
    ensures |r| == |creates| + |updates|
  {
    creates + seq(|updates|, i requires 0 <= i < |updates| => updates[i].fields)
  }

  lemma LastTouchedOk(progress: seq<Progress>, touched: nat, total: nat)
    requires ProgressOk(progress, touched, total)
    ensures ProgressOk(progress, LastTouched(progress), total)
  {
  }

  /**
   * The last two steps of the import: the updates in batches of 50, those
   * whose record has vanished moved to the creates, then the creates in
   * batches of 50.
   */
  method WriteRewrittenRecords(tid: TableId, rc: seq<RecordDef>, ru: seq<UpdateDef>, store: Store,
                               touched0: nat, total: nat, progress0: seq<Progress>)
    returns (progress: seq<Progress>, ghost ids: set<RecordId>)
    requires ProgressOk(progress0, touched0, total) && LastTouched(progress0) == touched0
    modifies store
    ensures ids == IdsOfRecords(SnapOf(old(store.rows), tid))
    ensures store.log == old(store.log) + UpdateWrites(tid, ru, ids) + CreateWrites(tid, rc + Vanished(ru, ids))
    ensures LastTouched(progress) == touched0 + |rc| + |ru|
    ensures ProgressOk(progress, LastTouched(progress), total)
  {
    var present := IdsOfRecords(store.Snapshot(tid));
    ids := present;
    var moved, t2, p2 := UpdateInBatches(tid, ru, present, store, touched0, total, progress0);
    KeptVanishedPartition(ru, present);
    var t3, p3 := CreateInBatches(tid, rc + moved, store, t2, total, p2);
    LastTouchedOk(p3, t3, total);
    progress := p3;
  }

  /**
   * The writes of the import once the link plan is known, from the rows and
   * minted counter before it: the link resolution's creations, then the
   * update batches against the ids present after them, then the create
   * batches. None when link resolution or a rewrite throws.
   */
  function LinkedImport(schema: Base, rows: map<TableId, seq<Record>>, minted: nat, tid: TableId,
                        creates: seq<RecordDef>, updates: seq<UpdateDef>, plan: LinkPlan, fx: Foreign): Option<seq<Write>> {
    match LinkPass(schema, plan.tables, rows, minted, fx)
    case None => None
    case Some(s) =>
      match (RewriteDefs(creates, plan.linkFields, s.index), RewriteUpdates(updates, plan.linkFields, s.index))
      case (Ok(rc), Ok(ru)) =>
        var ids := IdsOfRecords(SnapOf(s.rows, tid));
        Some(s.writes + UpdateWrites(tid, ru, ids) + CreateWrites(tid, rc + Vanished(ru, ids)))
      case _ => None
  }

  /** LinkedImport by its three stages. */
  lemma LinkedImportStages(schema: Base, rows: map<TableId, seq<Record>>, minted: nat, tid: TableId,
                           creates: seq<RecordDef>, updates: seq<UpdateDef>, plan: LinkPlan, fx: Foreign)
    ensures var li := LinkedImport(schema, rows, minted, tid, creates, updates, plan, fx);
            var s := LinkPass(schema, plan.tables, rows, minted, fx);
            && (li.Some? <==> s.Some? && RewriteDefs(creates, plan.linkFields, s.value.index).Ok?
                                      && RewriteUpdates(updates, plan.linkFields, s.value.index).Ok?)
            && (li.Some? ==>
                  var ru := RewriteUpdates(updates, plan.linkFields, s.value.index).value;
                  var ids := IdsOfRecords(SnapOf(s.value.rows, tid));
                  li.value == s.value.writes + UpdateWrites(tid, ru, ids)
                              + CreateWrites(tid, RewriteDefs(creates, plan.linkFields, s.value.index).value + Vanished(ru, ids)))
  {
  }

  /** The writes of a whole import into table t; None when it throws. */
  function ImportWrites(schema: Base, rows: map<TableId, seq<Record>>, minted: nat, t: Table,
                        creates: seq<RecordDef>, updates: seq<UpdateDef>, fx: Foreign): Option<seq<Write>> {
    match LinkPlanOf(AllDefs(creates, updates), t)
    case Err(_) => None
    case Ok(plan) => LinkedImport(schema, rows, minted, t.id, creates, updates, plan, fx)
  }

  /** A successful import's writes, stage by stage; its links resolve and link resolution only creates. */
  lemma ImportSucceeded(schema: Base, rows: map<TableId, seq<Record>>, minted: nat, t: Table,
                        creates: seq<RecordDef>, updates: seq<UpdateDef>, plan: LinkPlan, fx: Foreign,
                        idByTable: map<TableId, map<string, RecordId>>, ids: set<RecordId>,
                        rc: seq<RecordDef>, ru: seq<UpdateDef>, linkWrites: seq<Write>)
    requires LinkPlanOf(AllDefs(creates, updates), t) == Ok(plan)
    requires var s := LinkPass(schema, plan.tables, rows, minted, fx);
             && s.Some? && idByTable == s.value.index && linkWrites == s.value.writes
             && ids == IdsOfRecords(SnapOf(s.value.rows, t.id))
             && RewriteDefs(creates, plan.linkFields, idByTable) == Ok(rc)
             && RewriteUpdates(updates, plan.linkFields, idByTable) == Ok(ru)
    ensures ImportWrites(schema, rows, minted, t, creates, updates, fx)
            == Some(linkWrites + UpdateWrites(t.id, ru, ids) + CreateWrites(t.id, rc + Vanished(ru, ids)))
    ensures LinksResolved(plan.tables, schema, idByTable) && AllCreateOne(linkWrites)
  {
    LinkedImportStages(schema, rows, minted, t.id, creates, updates, plan, fx);
    LinkPassResolves(schema, plan.tables, rows, minted, fx);
    LinkPassCreatesOnly(schema, plan.tables, rows, minted, fx);
  }

  /** An import whose link resolution or rewrite throws has no writes to show. */
  lemma ImportFailed(schema: Base, rows: map<TableId, seq<Record>>, minted: nat, t: Table,
                     creates: seq<RecordDef>, updates: seq<UpdateDef>, plan: LinkPlan, fx: Foreign)
    requires LinkPlanOf(AllDefs(creates, updates), t) == Ok(plan)
    requires var s := LinkPass(schema, plan.tables, rows, minted, fx);
             !(s.Some? && RewriteDefs(creates, plan.linkFields, s.value.index).Ok?
                       && RewriteUpdates(updates, plan.linkFields, s.value.index).Ok?)
    ensures ImportWrites(schema, rows, minted, t, creates, updates, fx).None?
  {
    LinkedImportStages(schema, rows, minted, t.id, creates, updates, plan, fx);
  }

  /** The second pass sends nothing but single record creations. */
  lemma {:induction false} SecondPassCreatesOnly(schema: Base, tid: TableId, primary: Field, names: seq<string>, convs: seq<Result<CellValue>>,
                                                 m0: map<string, RecordId>, minted0: nat, j: nat)
    requires |convs| == |names| && j <= |names|
    requires SecondPass(schema, tid, primary, names, convs, m0, minted0, j).Some?
    ensures AllCreateOne(SecondPass(schema, tid, primary, names, convs, m0, minted0, j).value.writes)
    decreases j
  {
    if j > 0 {
      SecondPassCreatesOnly(schema, tid, primary, names, convs, m0, minted0, j - 1);
    }
  }

  /** Link resolution sends nothing but single record creations. */
  lemma {:induction false} LinkPassCreatesOnly(schema: Base, tables: seq<LinkedNames>, rows0: map<TableId, seq<Record>>, minted0: nat, fx: Foreign)
    requires LinkPass(schema, tables, rows0, minted0, fx).Some?
    ensures AllCreateOne(LinkPass(schema, tables, rows0, minted0, fx).value.writes)
    decreases |tables|
  {
    if tables != [] {
      var init, g := tables[..|tables| - 1], tables[|tables| - 1];
      LinkPassCreatesOnly(schema, init, rows0, minted0, fx);
      var st := LinkPass(schema, init, rows0, minted0, fx).value;
      if g.tableId in schema && !schema[g.tableId].primaryField.isComputed {
        var primary := schema[g.tableId].primaryField;
        var index := NameIndex(SnapOf(st.rows, g.tableId));
        SecondPassCreatesOnly(schema, g.tableId, primary, g.names, Conversions(primary, g.names, fx), index, st.minted, |g.names|);
      }
    }
  }

  /** Rewriting the link cells with the resolved ids, then writing the records. */
  method WriteLinked(tid: TableId, creates: seq<RecordDef>, updates: seq<UpdateDef>, lf: seq<(FieldId, TableId)>,
                     idByTable: map<TableId, map<string, RecordId>>, store: Store, touched: nat, total: nat, progress0: seq<Progress>)
    returns (r: Result<()>, progress: seq<Progress>, ghost ids: set<RecordId>, ghost rc: seq<RecordDef>, ghost ru: seq<UpdateDef>)
    requires ProgressOk(progress0, touched, total) && LastTouched(progress0) == touched
    modifies store
    ensures old(store.log) <= store.log
    ensures ProgressOk(progress, LastTouched(progress), total)
    ensures r.Ok? <==> RewriteDefs(creates, lf, idByTable).Ok? && RewriteUpdates(updates, lf, idByTable).Ok?
    ensures r.Ok? ==>
              ids == IdsOfRecords(SnapOf(old(store.rows), tid))
              && RewriteDefs(creates, lf, idByTable) == Ok(rc) && RewriteUpdates(updates, lf, idByTable) == Ok(ru)
              && store.log == old(store.log) + UpdateWrites(tid, ru, ids) + CreateWrites(tid, rc + Vanished(ru, ids))
              && LastTouched(progress) == touched + |creates| + |updates|
  {
    ids, rc, ru := {}, [], [];
    progress := progress0;
    var rewritten := RewriteAllLinks(creates, updates, lf, idByTable);
    if rewritten.Err? {
      LastTouchedOk(progress, touched, total);
      return Err(rewritten.error), progress, ids, rc, ru;
    }
    var (toCreate, toUpdate) := rewritten.value;
    rc, ru := toCreate, toUpdate;
    progress, ids := WriteRewrittenRecords(tid, toCreate, toUpdate, store, touched, total, progress);
    r := Ok(());
  }

  /** The import once its link plan is known: resolve the links, rewrite the link cells, write the records. */
  method ImportWithPlan(t: Table, creates: seq<RecordDef>, updates: seq<UpdateDef>, plan: LinkPlan, store: Store, fx: Foreign, total: nat)
    returns (r: Result<()>, progress: seq<Progress>,
             ghost idByTable: map<TableId, map<string, RecordId>>, ghost ids: set<RecordId>,
             ghost rc: seq<RecordDef>, ghost ru: seq<UpdateDef>, ghost linkWrites: seq<Write>)
    requires WellFormedPlan(plan)
    modifies store
    ensures old(store.log) <= store.log
    ensures ProgressOk(progress, LastTouched(progress), total)
    ensures var s := LinkPass(store.schema, plan.tables, old(store.rows), old(store.minted), fx);
            r.Ok? <==> s.Some? && RewriteDefs(creates, plan.linkFields, s.value.index).Ok?
                               && RewriteUpdates(updates, plan.linkFields, s.value.index).Ok?
    ensures r.Ok? ==>
              var s := LinkPass(store.schema, plan.tables, old(store.rows), old(store.minted), fx).value;
              idByTable == s.index && linkWrites == s.writes && ids == IdsOfRecords(SnapOf(s.rows, t.id))
              && RewriteDefs(creates, plan.linkFields, idByTable) == Ok(rc)
              && RewriteUpdates(updates, plan.linkFields, idByTable) == Ok(ru)
              && store.log == old(store.log) + linkWrites + UpdateWrites(t.id, ru, ids) + CreateWrites(t.id, rc + Vanished(ru, ids))
              && LastTouched(progress) == |creates| + |updates| + LinkTouched(plan.tables, store.schema)
  {
    idByTable, ids, rc, ru := map[], {}, [], [];
    var resolved, touched;
    resolved, touched, progress, linkWrites := ResolveLinkedRecords(plan, store, fx, total);
    if resolved.Err? {
      LastTouchedOk(progress, touched, total);
      return Err(resolved.error), progress, idByTable, ids, rc, ru, linkWrites;
    }
    idByTable := resolved.value;
    r, progress, ids, rc, ru := WriteLinked(t.id, creates, updates, plan.linkFields, resolved.value, store, touched, total, progress);
  }

  /**
   * createOrUpdateRecordsAsync: resolve linked records, rewrite link
   * cells, send the updates (creating those whose record vanished), then
   * the creates.
   */
  method CreateOrUpdateRecords(table: Option<Table>, creates: seq<RecordDef>, updates: seq<UpdateDef>, store: Store, fx: Foreign)
    returns (r: Result<()>, progress: seq<Progress>,
             ghost plan: LinkPlan, ghost idByTable: map<TableId, map<string, RecordId>>, ghost ids: set<RecordId>,
             ghost rc: seq<RecordDef>, ghost ru: seq<UpdateDef>, ghost linkWrites: seq<Write>)
    modifies store
    ensures old(store.log) <= store.log
    ensures table.None? ==> r == Err(NoTable) && store.log == old(store.log) && progress == []
    ensures table.Some? && LinkPlanOf(AllDefs(creates, updates), table.value).Err? ==>
              r == Err(LinkPlanOf(AllDefs(creates, updates), table.value).error) && store.log == old(store.log) && progress == []
    ensures table.Some? && LinkPlanOf(AllDefs(creates, updates), table.value).Ok? ==>
              plan == LinkPlanOf(AllDefs(creates, updates), table.value).value
              && ProgressOk(progress, LastTouched(progress), TotalToTouch(AllDefs(creates, updates), plan))
    ensures r.Ok? <==> table.Some? && ImportWrites(store.schema, old(store.rows), old(store.minted), table.value, creates, updates, fx).Some?
    ensures r.Ok? ==> store.log == old(store.log) + ImportWrites(store.schema, old(store.rows), old(store.minted), table.value, creates, updates, fx).value
    ensures r.Ok? ==>
              var s := LinkPass(store.schema, plan.tables, old(store.rows), old(store.minted), fx).value;
              table.Some? && LinkPlanOf(AllDefs(creates, updates), table.value) == Ok(plan)
              && idByTable == s.index && linkWrites == s.writes && ids == IdsOfRecords(SnapOf(s.rows, table.value.id))
              && LinksResolved(plan.tables, store.schema, idByTable)
              && RewriteDefs(creates, plan.linkFields, idByTable) == Ok(rc)
              && RewriteUpdates(updates, plan.linkFields, idByTable) == Ok(ru)
              && AllCreateOne(linkWrites)
              && store.log == old(store.log) + linkWrites + UpdateWrites(table.value.id, ru, ids)
                                             + CreateWrites(table.value.id, rc + Vanished(ru, ids))
              && LastTouched(progress) == |creates| + |updates| + LinkTouched(plan.tables, store.schema)
  {
    progress := [];
    plan, idByTable, ids, rc, ru, linkWrites := EmptyPlan, map[], {}, [], [], [];
    if table.None? {
      return Err(NoTable), progress, plan, idByTable, ids, rc, ru, linkWrites;
    }
    var t := table.value;
    var defs := AllDefs(creates, updates);
    var collected := CollectLinkedRecordNames(defs, t);
    if collected.Err? {
      assert ImportWrites(store.schema, store.rows, store.minted, t, creates, updates, fx).None?;
      return Err(collected.error), progress, plan, idByTable, ids, rc, ru, linkWrites;
    }
    var lp := collected.value;
    plan := lp;
    r, progress, idByTable, ids, rc, ru, linkWrites := ImportWithPlan(t, creates, updates, lp, store, fx, TotalToTouch(defs, lp));
    if r.Ok? {
      ImportSucceeded(store.schema, old(store.rows), old(store.minted), t, creates, updates, lp, fx, idByTable, ids, rc, ru, linkWrites);
      ConcatAssoc(old(store.log) + linkWrites, UpdateWrites(t.id, ru, ids), CreateWrites(t.id, rc + Vanished(ru, ids)));
      ConcatAssoc(old(store.log), linkWrites, UpdateWrites(t.id, ru, ids) + CreateWrites(t.id, rc + Vanished(ru, ids)));
      ConcatAssoc(linkWrites, UpdateWrites(t.id, ru, ids), CreateWrites(t.id, rc + Vanished(ru, ids)));
    } else {
      ImportFailed(store.schema, old(store.rows), old(store.minted), t, creates, updates, lp, fx);
    }
  }
}
