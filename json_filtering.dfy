/**
 * The pruning pass run over uploaded JSON before it is flattened into rows
 * (frontend/jsonFilteringHelpers.ts): in every object of a top-level array,
 * keys holding nested objects, and keys holding arrays whose element at
 * index 1 is an object or array, are deleted.
 */
module JsonFiltering {
  import opened JsRuntime

  /** A parsed JSON value; an object's entries are in key order. */
  datatype Json =
    | JNull
    | JBool(b: bool)
    | JNum(n: int)
    | JStr(s: string)
    | JArray(items: seq<Json>)
    | JObject(entries: seq<(string, Json)>)

  /** typeof v === 'object' && v !== null. */
  predicate IsObjectLike(v: Json) {
    v.JArray? || v.JObject?
  }

  /** xs[i], undefined (None) past the end. */
  function ElementAt(xs: seq<Json>, i: nat): (r: Option<Json>)
    ensures r.Some? <==> i < |xs|
    ensures r.Some? ==> r.value == xs[i]
  {
    if i < |xs| then Some(xs[i]) else None
  }

  /**
   * Whether a key holding v is deleted: a non-empty array whose element at
   * index 1 (undefined for a one-element array) is an object or array, or
   * an object.
   */
  predicate IsDeleted(v: Json) {
    match v
    case JArray(xs) => |xs| > 0 && ElementAt(xs, 1).Some? && IsObjectLike(ElementAt(xs, 1).value)
    case JObject(_) => true
    case _ => false
  }

  /** The entries that survive the deletions, in their order. */
  function Pruned(entries: seq<(string, Json)>): seq<(string, Json)> {
    if entries == [] then []
    else
      var last := entries[|entries| - 1];
      Pruned(entries[..|entries| - 1]) + (if IsDeleted(last.1) then [] else [last])
  }

  /** An entry survives exactly when its value is not deleted, and nothing is added. */
  lemma {:induction false} PrunedShape(entries: seq<(string, Json)>)
    ensures |Pruned(entries)| <= |entries|
    ensures forall e | e in entries :: e in Pruned(entries) <==> !IsDeleted(e.1)
    ensures forall e | e in Pruned(entries) :: e in entries && !IsDeleted(e.1)
    decreases |entries|
  {
    if entries != [] {
      var init := entries[..|entries| - 1];
      PrunedShape(init);
      assert entries == init + [entries[|entries| - 1]];
    }
  }

  /** Pruning works entry by entry, so the survivors keep their order. */
  lemma {:induction false} PrunedAppend(a: seq<(string, Json)>, b: seq<(string, Json)>)
    ensures Pruned(a + b) == Pruned(a) + Pruned(b)
    decreases |b|
  {
    if b != [] {
      var b0 := b[..|b| - 1];
      PrunedAppend(a, b0);
      assert (a + b)[..|a + b| - 1] == a + b0;
    } else {
      assert a + b == a;
    }
  }

  /** Pruning what was pruned deletes nothing more. */
  lemma PrunedIdempotent(entries: seq<(string, Json)>)
    ensures Pruned(Pruned(entries)) == Pruned(entries)
  {
    PrunedShape(entries);
    NothingToPrune(Pruned(entries));
  }

  lemma {:induction false} NothingToPrune(entries: seq<(string, Json)>)
    requires forall i :: 0 <= i < |entries| ==> !IsDeleted(entries[i].1)
    ensures Pruned(entries) == entries
    decreases |entries|
  {
    if entries != [] {
      NothingToPrune(entries[..|entries| - 1]);
      assert entries[..|entries| - 1] + [entries[|entries| - 1]] == entries;
    }
  }

  /**
   * The forEach over Object.keys(item) deleting keys: a loop over the keys
   * captured before the first deletion.
   */
  method DeleteNestedValues(entries: seq<(string, Json)>) returns (r: seq<(string, Json)>)
    ensures r == Pruned(entries)
  {
    r := [];
    var i := 0;
    while i < |entries|
      invariant 0 <= i <= |entries|
      invariant r == Pruned(entries[..i])
    {
      assert entries[..i + 1][..i] == entries[..i];
      if !IsDeleted(entries[i].1) {
        r := r + [entries[i]];
      }
      i := i + 1;
    }
    assert entries[..i] == entries;
  }

  /**
   * One element of the top-level array: arrays pass through, an object
   * loses its nested keys, null has no keys to take and throws, and other
   * primitives have no key that could hold an object.
   */
  function FilterItem(item: Json): (r: Result<Json>)
    ensures r.Err? <==> item.JNull?
    ensures r.Ok? && !item.JObject? ==> r.value == item
    ensures r.Ok? && item.JObject? ==> r.value == JObject(Pruned(item.entries))
  {
    match item
    case JNull => Err(TypeError("Cannot convert undefined or null to object"))
    case JObject(entries) => Ok(JObject(Pruned(entries)))
    case _ => Ok(item)
  }

  /** data.map(FilterItem), stopping at the first item that throws. */
  function FilterItems(items: seq<Json>): (r: Result<seq<Json>>)
    ensures r.Ok? ==> |r.value| == |items|
    ensures r.Ok? ==> forall i :: 0 <= i < |items| ==> FilterItem(items[i]) == Ok(r.value[i])
  {
    if items == [] then Ok([])
    else
      var init :- FilterItems(items[..|items| - 1]);
      var last :- FilterItem(items[|items| - 1]);
      Ok(init + [last])
  }

  /** The map fails exactly when some item is null. */
  lemma {:induction false} FilterItemsFailsOnNull(items: seq<Json>)
    ensures FilterItems(items).Err? <==> exists i :: 0 <= i < |items| && items[i].JNull?
    decreases |items|
  {
    if items != [] {
      var init := items[..|items| - 1];
      FilterItemsFailsOnNull(init);
      assert forall i :: 0 <= i < |init| ==> init[i] == items[i];
    }
  }

  /** filterArrays as a function: non-arrays are returned unchanged. */
  function FilteredArrays(data: Json): Result<Json> {
    match data
    case JArray(items) =>
      var filtered :- FilterItems(items);
      Ok(JArray(filtered))
    case _ => Ok(data)
  }

  /** filterArrays, with data.map written as a loop. */
  method FilterArrays(data: Json) returns (r: Result<Json>)
    ensures r == FilteredArrays(data)
  {
    if !data.JArray? {
      return Ok(data);
    }
    var items := data.items;
    var out: seq<Json> := [];
    var i := 0;
    while i < |items|
      invariant 0 <= i <= |items|
      invariant FilterItems(items[..i]) == Ok(out)
    {
      assert items[..i + 1][..i] == items[..i];
      var item := items[i];
      var next: Json;
      match item {
        case JNull =>
          FilterItemsErrorPersists(items, i + 1);
          return Err(TypeError("Cannot convert undefined or null to object"));
        case JObject(entries) =>
          var kept := DeleteNestedValues(entries);
          next := JObject(kept);
        case _ =>
          next := item;
      }
      out := out + [next];
      i := i + 1;
    }
    assert items[..i] == items;
    return Ok(JArray(out));
  }

  /** Once an item throws, the map over any longer prefix throws the same error. */
  lemma {:induction false} FilterItemsErrorPersists(items: seq<Json>, n: nat)
    requires 0 < n <= |items| && FilterItems(items[..n]).Err?
    ensures FilterItems(items).Err? && FilterItems(items).error == FilterItems(items[..n]).error
    decreases |items| - n
  {
    if n < |items| {
      assert items[..n + 1][..n] == items[..n];
      FilterItemsErrorPersists(items, n + 1);
    } else {
      assert items[..n] == items;
    }
  }

  /**
   * filterJsonAsync({data}): the filtered data, or no data when filtering
   * threw (the error is logged and swallowed). Missing data stays missing.
   */
  method FilterJson(data: Option<Json>) returns (r: Option<Json>)
    ensures data.None? ==> r.None?
    ensures data.Some? ==> (r.Some? <==> FilteredArrays(data.value).Ok?)
    ensures data.Some? && r.Some? ==> r.value == FilteredArrays(data.value).value
  {
    if data.None? {
      return None;
    }
    var filtered := FilterArrays(data.value);
    if filtered.Err? {
      return None;
    }
    return Some(filtered.value);
  }

  /**
   * On an array the filter keeps the length, passes arrays and primitives
   * through, prunes objects, and throws exactly on a null item.
   */
  lemma FilteredArraysShape(items: seq<Json>)
    ensures var r := FilteredArrays(JArray(items));
            (r.Err? <==> exists i :: 0 <= i < |items| && items[i].JNull?)
            && (r.Ok? ==>
                  r.value.JArray? && |r.value.items| == |items|
                  && forall i :: 0 <= i < |items| ==>
                       (items[i].JObject? ==> r.value.items[i] == JObject(Pruned(items[i].entries)))
                       && (!items[i].JObject? ==> r.value.items[i] == items[i]))
  {
    FilterItemsFailsOnNull(items);
  }

  /** Filtering filtered data changes nothing. */
  lemma FilteredArraysIdempotent(data: Json)
    requires FilteredArrays(data).Ok?
    ensures FilteredArrays(FilteredArrays(data).value) == FilteredArrays(data)
  {
    if data.JArray? {
      var items := data.items;
      var once := FilteredArrays(data).value.items;
      FilteredArraysShape(items);
      FilteredArraysShape(once);
      forall i | 0 <= i < |items| && items[i].JObject?
        ensures Pruned(Pruned(items[i].entries)) == Pruned(items[i].entries)
      {
        PrunedIdempotent(items[i].entries);
      }
      assert forall i :: 0 <= i < |once| ==> !once[i].JNull?;
      var twice := FilteredArrays(JArray(once)).value.items;
      assert |twice| == |once|;
      forall i | 0 <= i < |once|
        ensures twice[i] == once[i]
      {
      }
      assert twice == once;
    }
  }

  /**
   * Because index 1 is tested, a key holding a one-element array of
   * objects is kept, while the same key with two objects is deleted; an
   * array whose first element is a number but second an object is deleted.
   */
  lemma ArrayTestLooksAtSecondElement()
    ensures !IsDeleted(JArray([JObject([("a", JNum(1))])]))
    ensures IsDeleted(JArray([JObject([("a", JNum(1))]), JObject([("a", JNum(2))])]))
    ensures IsDeleted(JArray([JNum(1), JObject([])]))
    ensures !IsDeleted(JArray([]))
  {
  }
}
