/**
 * How the importer decides that an incoming value and a stored cell value
 * are "the same": the normalisation before comparison, the merge-key
 * matcher, and the per-field change test of the diff
 * (frontend/headersValuesMappingHelpers.ts).
 */
module CellComparison {
  import opened JsRuntime
  import opened Schema

  /**
   * A value after normalizeCellValueForComparison, with lodash isEqual as
   * equality: strings are trimmed and CR LF becomes LF; an array becomes a
   * Set, which keeps one copy of each primitive but every object element.
   */
  datatype Normalized =
    | NString(s: string)
    | NSet(primitives: set<CellValue>, objects: multiset<CellValue>)
    | NPlain(v: CellValue)

  /** The object (non-primitive) elements of an array, with their multiplicity. */
  function ObjectElements(xs: seq<CellValue>): (r: multiset<CellValue>)
    ensures forall x | x in r :: !IsPrimitive(x)
  {
    if xs == [] then multiset{}
    else (if IsPrimitive(xs[0]) then multiset{} else multiset{xs[0]}) + ObjectElements(xs[1..])
  }

  function PrimitiveElements(xs: seq<CellValue>): set<CellValue> {
    set x | x in xs && IsPrimitive(x)
  }

  function Normalize(v: CellValue): Normalized {
    match v
    case Str(s) => NString(ReplaceCrlf(Trim(s)))
    case List(xs) => NSet(PrimitiveElements(xs), ObjectElements(xs))
    case _ => NPlain(v)
  }

  lemma {:induction false} ObjectElementsCount(xs: seq<CellValue>, x: CellValue)
    ensures ObjectElements(xs)[x] == if IsPrimitive(x) then 0 else multiset(xs)[x]
  {
    if xs != [] {
      ObjectElementsCount(xs[1..], x);
      assert xs == [xs[0]] + xs[1..];
      assert multiset(xs) == multiset{xs[0]} + multiset(xs[1..]);
    }
  }

  /** Normalised arrays compare as unordered collections: reordering the elements is not a change. */
  lemma {:induction false} NormalizeIgnoresOrder(xs: seq<CellValue>, ys: seq<CellValue>)
    requires multiset(xs) == multiset(ys)
    ensures Normalize(List(xs)) == Normalize(List(ys))
  {
    forall x
      ensures ObjectElements(xs)[x] == ObjectElements(ys)[x]
    {
      ObjectElementsCount(xs, x);
      ObjectElementsCount(ys, x);
    }
    assert ObjectElements(xs) == ObjectElements(ys);
    assert forall x :: x in xs <==> x in multiset(xs);
    assert forall x :: x in ys <==> x in multiset(ys);
    assert PrimitiveElements(xs) == PrimitiveElements(ys);
  }

  /** A Set keeps one copy of a primitive: repeating a primitive element is not a change. */
  lemma {:induction false} NormalizeIgnoresRepeatedPrimitives(xs: seq<CellValue>, p: CellValue)
    requires IsPrimitive(p) && p in xs
    ensures Normalize(List(xs + [p])) == Normalize(List(xs))
  {
    ObjectElementsCount(xs + [p], p);
    forall x
      ensures ObjectElements(xs + [p])[x] == ObjectElements(xs)[x]
    {
      ObjectElementsCount(xs + [p], x);
      ObjectElementsCount(xs, x);
    }
    assert ObjectElements(xs + [p]) == ObjectElements(xs);
    assert PrimitiveElements(xs + [p]) == PrimitiveElements(xs);
  }

  /** Repeated objects are kept: two equal object elements differ from one. */
  lemma RepeatedObjectsAreKept(o: CellValue)
    requires o.Obj?
    ensures Normalize(List([o, o])) != Normalize(List([o]))
  {
    ObjectElementsCount([o, o], o);
    ObjectElementsCount([o], o);
  }

  /** A string that neither starts nor ends with whitespace is not trimmed, only has its CR LF pairs replaced. */
  lemma NormalizeTrimmedString(s: string)
    requires s != [] && !IsWhitespace(s[0]) && !IsWhitespace(s[|s| - 1])
    ensures Normalize(Str(s)) == NString(ReplaceCrlf(s))
  {
    TrimStartOfTrimmed(s);
    TrimEndOfTrimmed(s);
  }

  /** A string that neither starts nor ends with whitespace and has no CR normalises to itself. */
  lemma NormalizePlainString(s: string)
    requires s != [] && !IsWhitespace(s[0]) && !IsWhitespace(s[|s| - 1])
    requires forall i :: 0 <= i < |s| ==> s[i] != '\r'
    ensures Normalize(Str(s)) == NString(s)
  {
    NormalizeTrimmedString(s);
  }

  /** Surrounding whitespace does not count as a difference between strings. */
  lemma SurroundingWhitespaceIsIgnored(pre: string, s: string, post: string)
    requires AllWhitespace(pre) && AllWhitespace(post)
    ensures Normalize(Str(pre + s + post)) == Normalize(Str(s))
  {
    TrimPadded(pre, s, post);
  }

  /**
   * A CR LF line break compares equal to a bare LF, wherever it stands,
   * unless a CR precedes it (the replacement makes a single pass).
   */
  lemma CrlfIsLf(a: string, b: string)
    requires a == [] || a[|a| - 1] != '\r'
    ensures Normalize(Str(a + "\r\n" + b)) == Normalize(Str(a + "\n" + b))
  {
    assert AllWhitespace("\r\n") && AllWhitespace("\n");
    if AllWhitespace(a) {
      TrimBlankBefore(a, "\r\n", b);
      TrimBlankBefore(a, "\n", b);
    } else if AllWhitespace(b) {
      TrimBlankAfter(a, "\r\n", b);
      TrimBlankAfter(a, "\n", b);
    } else {
      TrimKeepsMiddle(a, "\r\n", b);
      TrimKeepsMiddle(a, "\n", b);
      CrlfInTrimmed(a, b);
    }
  }

  lemma CrlfInTrimmed(a: string, b: string)
    requires a == [] || a[|a| - 1] != '\r'
    requires !AllWhitespace(a)
    ensures ReplaceCrlf(TrimStart(a) + "\r\n" + TrimEnd(b)) == ReplaceCrlf(TrimStart(a) + "\n" + TrimEnd(b))
  {
    var a', b' := TrimStart(a), TrimEnd(b);
    TrimStartEmptyIff(a);
    assert a'[|a'| - 1] == a[|a| - 1];
    CrlfBecomesLf(a', b');
    LfStays(a', b');
  }

  /** Letter case is significant. */
  /** Two different strings that normalisation leaves alone stay different: there is no case folding. */
  lemma PlainStringsDiffer(s: string, u: string)
    requires s != [] && !IsWhitespace(s[0]) && !IsWhitespace(s[|s| - 1])
    requires u != [] && !IsWhitespace(u[0]) && !IsWhitespace(u[|u| - 1])
    requires (forall i :: 0 <= i < |s| ==> s[i] != '\r') && (forall i :: 0 <= i < |u| ==> u[i] != '\r')
    requires s != u
    ensures Normalize(Str(s)) != Normalize(Str(u))
  {
    NormalizePlainString(s);
    NormalizePlainString(u);
  }

  lemma CaseIsSignificant()
    ensures Normalize(Str("a")) != Normalize(Str("A"))
  {
    var a, b := "a", "A";
    assert a[0] != b[0];
    PlainStringsDiffer(a, b);
  }

  /** String(normalized): the property key a normalised value is grouped under. */
  function GroupKey(n: Normalized): string {
    match n
    case NString(s) => s
    case NSet(_, _) => "[object Set]"
    case NPlain(v) => JsToString(v)
  }

  /** One step of the matcher's reduce over the merge-key fields. */
  function MatchStep(memo: bool, key: FieldId, values: RecordDef, rec: Record): bool {
    var v := Get(values, key);
    if !memo || IsNullish(v) then false
    else Normalize(v) == Normalize(GetCellValue(rec, key))
  }

  function MatchFold(keys: seq<FieldId>, memo: bool, values: RecordDef, rec: Record): bool
    decreases |keys|
  {
    if keys == [] then memo
    else MatchFold(keys[1..], MatchStep(memo, keys[0], values, rec), values, rec)
  }

  /** createMatcher(fieldIdsForMerging)(recordDef, record). */
  function Matches(keys: seq<FieldId>, values: RecordDef, rec: Record): bool {
    MatchFold(keys, true, values, rec)
  }

  /** The incoming value of key is present and equal, after normalisation, to the record's cell. */
  predicate KeyAgrees(key: FieldId, values: RecordDef, rec: Record) {
    !IsNullish(Get(values, key)) && Normalize(Get(values, key)) == Normalize(GetCellValue(rec, key))
  }

  lemma {:induction false} MatchFoldIff(keys: seq<FieldId>, memo: bool, values: RecordDef, rec: Record)
    ensures MatchFold(keys, memo, values, rec)
            <==> memo && forall i :: 0 <= i < |keys| ==> KeyAgrees(keys[i], values, rec)
    decreases |keys|
  {
    if keys != [] {
      var rest := keys[1..];
      var m := MatchStep(memo, keys[0], values, rec);
      assert m == (memo && KeyAgrees(keys[0], values, rec));
      MatchFoldIff(rest, m, values, rec);
      if MatchFold(keys, memo, values, rec) {
        forall i | 0 <= i < |keys|
          ensures KeyAgrees(keys[i], values, rec)
        {
          if i > 0 {
            assert keys[i] == rest[i - 1];
          }
        }
      }
      if memo && forall i :: 0 <= i < |keys| ==> KeyAgrees(keys[i], values, rec) {
        assert KeyAgrees(keys[0], values, rec);
        forall i | 0 <= i < |rest|
          ensures KeyAgrees(rest[i], values, rec)
        {
          assert rest[i] == keys[i + 1];
        }
      }
    }
  }

  /**
   * A record matches an incoming row exactly when, for every merge-key
   * field, the row has a non-null value equal after normalisation to the
   * record's cell; with no merge-key fields everything matches.
   */
  lemma MatcherIff(keys: seq<FieldId>, values: RecordDef, rec: Record)
    ensures Matches(keys, values, rec) <==> forall i :: 0 <= i < |keys| ==> KeyAgrees(keys[i], values, rec)
  {
    MatchFoldIff(keys, true, values, rec);
  }

  /** cellValue.map(cell => cell.name) for a link cell or a parsed link value. */
  function NamesOf(v: CellValue): (r: Result<CellValue>)
    ensures r.Ok? <==> v.List? && forall x | x in v.items :: !IsNullish(x)
    ensures r.Ok? ==> r.value.List? && |r.value.items| == |v.items|
  {
    match v
    case List(xs) =>
      var ns :- NamesOfElements(xs);
      Ok(List(ns))
    case _ => Err(TypeError("map is not a function"))
  }

  function NamesOfElements(xs: seq<CellValue>): (r: Result<seq<CellValue>>)
    ensures r.Ok? <==> forall x | x in xs :: !IsNullish(x)
    ensures r.Ok? ==> |r.value| == |xs|
    ensures r.Ok? ==> forall i :: 0 <= i < |xs| ==> Prop(xs[i], "name") == Ok(r.value[i])
  {
    if xs == [] then Ok([])
    else
      assert forall x | x in xs :: x == xs[0] || x in xs[1..];
      var n :- Prop(xs[0], "name");
      var rest :- NamesOfElements(xs[1..]);
      Ok([n] + rest)
  }

  /**
   * The change test for one mapped field of a matched record: link fields
   * holding an array compare by linked record name, a non-empty link
   * cleared by the row is a change, and two empty values are not.
   */
  function FieldDiffers(fid: FieldId, rec: Record, values: RecordDef, t: Table): Result<bool> {
    var cell := GetCellValue(rec, fid);
    var parsed := Get(values, fid);
    match GetFieldByIdIfExists(t, fid)
    case None => Err(TypeError("Cannot read properties of null (reading 'type')"))
    case Some(f) =>
      if f.fieldType == MultipleRecordLinks && cell.List? then
        if |cell.items| >= 1 && IsNullish(parsed) then Ok(true)
        else if IsLodashEmpty(cell) && IsLodashEmpty(parsed) then Ok(false)
        else
          var cellNames :- NamesOf(cell);
          var parsedNames :- NamesOf(parsed);
          Ok(Normalize(parsedNames) != Normalize(cellNames))
      else Ok(Normalize(parsed) != Normalize(cell))
  }

  /** For a field other than a link holding an array, a change is a difference after normalisation. */
  lemma PlainFieldDiffersIff(fid: FieldId, rec: Record, values: RecordDef, t: Table)
    requires IsFieldOf(t, fid)
    requires GetFieldByIdIfExists(t, fid).value.fieldType != MultipleRecordLinks || !GetCellValue(rec, fid).List?
    ensures FieldDiffers(fid, rec, values, t) == Ok(Normalize(Get(values, fid)) != Normalize(GetCellValue(rec, fid)))
  {
  }

  /** A row that leaves a non-empty link field empty changes the record. */
  lemma ClearedLinkIsAChange(fid: FieldId, rec: Record, values: RecordDef, t: Table)
    requires IsFieldOf(t, fid) && GetFieldByIdIfExists(t, fid).value.fieldType == MultipleRecordLinks
    requires GetCellValue(rec, fid).List? && |GetCellValue(rec, fid).items| >= 1
    requires fid !in values || IsNullish(values[fid])
    ensures FieldDiffers(fid, rec, values, t) == Ok(true)
  {
  }

  /** An empty link cell and an empty incoming value are not a change. */
  lemma EmptyLinkIsNoChange(fid: FieldId, rec: Record, values: RecordDef, t: Table)
    requires IsFieldOf(t, fid) && GetFieldByIdIfExists(t, fid).value.fieldType == MultipleRecordLinks
    requires GetCellValue(rec, fid) == List([])
    requires IsLodashEmpty(Get(values, fid))
    ensures FieldDiffers(fid, rec, values, t) == Ok(false)
  {
  }

  /**
   * A link cell whose linked records carry the same names as the incoming
   * {name} values, in any order, is not a change.
   */
  lemma {:induction false} SameLinkedNamesIsNoChange(fid: FieldId, rec: Record, values: RecordDef, t: Table,
                                                    cellNames: seq<string>, parsedNames: seq<string>)
    requires IsFieldOf(t, fid) && GetFieldByIdIfExists(t, fid).value.fieldType == MultipleRecordLinks
    requires |cellNames| >= 1
    requires GetCellValue(rec, fid) == List(seq(|cellNames|, i requires 0 <= i < |cellNames| => NameRef(cellNames[i])))
    requires Get(values, fid) == List(seq(|parsedNames|, i requires 0 <= i < |parsedNames| => NameRef(parsedNames[i])))
    requires multiset(cellNames) == multiset(parsedNames)
    ensures FieldDiffers(fid, rec, values, t) == Ok(false)
  {
    var cell := GetCellValue(rec, fid);
    var parsed := Get(values, fid);
    var cn := seq(|cellNames|, i requires 0 <= i < |cellNames| => Str(cellNames[i]));
    var pn := seq(|parsedNames|, i requires 0 <= i < |parsedNames| => Str(parsedNames[i]));
    NamesOfNameRefs(cellNames);
    NamesOfNameRefs(parsedNames);
    assert |parsedNames| >= 1 by {
      assert cellNames[0] in multiset(parsedNames);
    }
    MultisetOfStrs(cellNames, parsedNames, cn, pn);
    NormalizeIgnoresOrder(pn, cn);
  }

  /** The names read back from a list of {name} values are those names. */
  lemma NamesOfNameRefs(names: seq<string>)
    ensures NamesOf(List(seq(|names|, i requires 0 <= i < |names| => NameRef(names[i]))))
            == Ok(List(seq(|names|, i requires 0 <= i < |names| => Str(names[i]))))
  {
    var refs := seq(|names|, i requires 0 <= i < |names| => NameRef(names[i]));
    var strs := seq(|names|, i requires 0 <= i < |names| => Str(names[i]));
    var r := NamesOfElements(refs);
    assert r.Ok?;
    assert forall i :: 0 <= i < |names| ==> Prop(refs[i], "name") == Ok(strs[i]);
    assert r.value == strs;
  }

  lemma {:induction false} MultisetOfStrs(a: seq<string>, b: seq<string>, sa: seq<CellValue>, sb: seq<CellValue>)
    requires multiset(a) == multiset(b)
    requires sa == seq(|a|, i requires 0 <= i < |a| => Str(a[i]))
    requires sb == seq(|b|, i requires 0 <= i < |b| => Str(b[i]))
    ensures multiset(sa) == multiset(sb)
  {
    forall v
      ensures multiset(sa)[v] == multiset(sb)[v]
    {
      StrCount(a, sa, v);
      StrCount(b, sb, v);
    }
  }

  lemma {:induction false} StrCount(a: seq<string>, sa: seq<CellValue>, v: CellValue)
    requires sa == seq(|a|, i requires 0 <= i < |a| => Str(a[i]))
    ensures multiset(sa)[v] == if v.Str? then multiset(a)[v.s] else 0
  {
    if a != [] {
      var sa' := seq(|a| - 1, i requires 0 <= i < |a| - 1 => Str(a[1..][i]));
      StrCount(a[1..], sa', v);
      assert sa == [sa[0]] + sa';
      assert a == [a[0]] + a[1..];
      assert multiset(sa) == multiset{sa[0]} + multiset(sa');
      assert multiset(a) == multiset{a[0]} + multiset(a[1..]);
    }
  }

  /** areAnyCellValuesDifferent: _.some over the mapped fields, stopping at the first change. */
  function AnyCellValuesDifferent(fids: seq<FieldId>, rec: Record, values: RecordDef, t: Table): Result<bool>
    decreases |fids|
  {
    if fids == [] then Ok(false)
    else
      var d :- FieldDiffers(fids[0], rec, values, t);
      if d then Ok(true) else AnyCellValuesDifferent(fids[1..], rec, values, t)
  }

  /** No change is reported exactly when every mapped field is unchanged. */
  lemma {:induction false} NoChangeIff(fids: seq<FieldId>, rec: Record, values: RecordDef, t: Table)
    ensures AnyCellValuesDifferent(fids, rec, values, t) == Ok(false)
            <==> forall i :: 0 <= i < |fids| ==> FieldDiffers(fids[i], rec, values, t) == Ok(false)
    decreases |fids|
  {
    if fids != [] {
      var rest := fids[1..];
      NoChangeIff(rest, rec, values, t);
      if AnyCellValuesDifferent(fids, rec, values, t) == Ok(false) {
        assert FieldDiffers(fids[0], rec, values, t) == Ok(false);
        forall i | 0 <= i < |fids|
          ensures FieldDiffers(fids[i], rec, values, t) == Ok(false)
        {
          if i > 0 {
            assert fids[i] == rest[i - 1];
          }
        }
      }
      if forall i :: 0 <= i < |fids| ==> FieldDiffers(fids[i], rec, values, t) == Ok(false) {
        assert FieldDiffers(fids[0], rec, values, t) == Ok(false);
        forall i | 0 <= i < |rest|
          ensures FieldDiffers(rest[i], rec, values, t) == Ok(false)
        {
          assert rest[i] == fids[i + 1];
        }
      }
    }
  }

  /** Field i is the first of fids that changed. */
  predicate FirstChangeAt(fids: seq<FieldId>, i: int, rec: Record, values: RecordDef, t: Table) {
    0 <= i < |fids| && FieldDiffers(fids[i], rec, values, t) == Ok(true)
    && forall j :: 0 <= j < i ==> FieldDiffers(fids[j], rec, values, t) == Ok(false)
  }

  lemma ShiftFirstChange(fids: seq<FieldId>, i: int, rec: Record, values: RecordDef, t: Table)
    requires |fids| > 0 && FieldDiffers(fids[0], rec, values, t) == Ok(false)
    ensures FirstChangeAt(fids, i + 1, rec, values, t) <==> FirstChangeAt(fids[1..], i, rec, values, t)
  {
    var rest := fids[1..];
    if FirstChangeAt(rest, i, rec, values, t) {
      assert fids[i + 1] == rest[i];
      forall j | 0 <= j < i + 1
        ensures FieldDiffers(fids[j], rec, values, t) == Ok(false)
      {
        if j > 0 {
          assert fids[j] == rest[j - 1];
        }
      }
    }
    if FirstChangeAt(fids, i + 1, rec, values, t) {
      assert fids[i + 1] == rest[i];
      forall j | 0 <= j < i
        ensures FieldDiffers(rest[j], rec, values, t) == Ok(false)
      {
        assert rest[j] == fids[j + 1];
      }
    }
  }

  /** A change is reported exactly when some field changed and every field before it was unchanged. */
  lemma {:induction false} ChangeIff(fids: seq<FieldId>, rec: Record, values: RecordDef, t: Table)
    ensures AnyCellValuesDifferent(fids, rec, values, t) == Ok(true)
            <==> exists i :: FirstChangeAt(fids, i, rec, values, t)
    decreases |fids|
  {
    if fids != [] {
      var d := FieldDiffers(fids[0], rec, values, t);
      if d == Ok(true) {
        assert FirstChangeAt(fids, 0, rec, values, t);
      } else if d == Ok(false) {
        ChangeIff(fids[1..], rec, values, t);
        if exists i :: FirstChangeAt(fids, i, rec, values, t) {
          var i :| FirstChangeAt(fids, i, rec, values, t);
          assert i != 0;
          ShiftFirstChange(fids, i - 1, rec, values, t);
        }
        if exists i :: FirstChangeAt(fids[1..], i, rec, values, t) {
          var i :| FirstChangeAt(fids[1..], i, rec, values, t);
          ShiftFirstChange(fids, i, rec, values, t);
        }
      } else {
        forall i | 0 <= i < |fids|
          ensures !FirstChangeAt(fids, i, rec, values, t)
        {
          assert 0 <= 0 < |fids|;
        }
      }
    }
  }
}
