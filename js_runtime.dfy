/**
 * The parts of the JavaScript runtime the importer depends on: exceptions
 * turned into values, and the string built-ins (trim, the two regular
 * expression replacements, lower-casing, number formatting) it calls.
 */
module JsRuntime {

  datatype Option<+T> = None | Some(value: T) {
    function GetOr(default: T): T {
      match this
      case None => default
      case Some(v) => v
    }
  }

  /** Why an operation threw. */
  datatype Error =
    | NoTable                   // an operation that needs a table was given none
    | UnknownField              // a field id that is not a field of the table
    | UnsupportedFieldType      // no converter is registered for the field's type
    | ParseRowCount(count: nat) // a linked-record cell did not parse to exactly one row
    | UnexpectedLinkValue       // a link cell element without a string name
    | DataDiffNotReady          // import requested before the diff was computed
    | TypeError(what: string)   // a runtime TypeError (property of null, missing method)

  datatype Result<+T> = Ok(value: T) | Err(error: Error) {
    predicate IsFailure() { Err? }
    function PropagateFailure<U>(): Result<U>
      requires Err?
    { Err(error) }
    function Extract(): T
      requires Ok?
    { value }
  }

  /** The characters String.prototype.trim removes: WhiteSpace and LineTerminator of ECMA-262. */
  predicate IsWhitespace(c: char) {
    c == ' ' || c == '\t' || c == '\n' || c == '\r' || c == '\U{000B}' || c == '\U{000C}'
    || c == '\U{00A0}' || c == '\U{FEFF}' || c == '\U{1680}' || ('\U{2000}' <= c <= '\U{200A}')
    || c == '\U{2028}' || c == '\U{2029}' || c == '\U{202F}' || c == '\U{205F}' || c == '\U{3000}'
  }

  function TrimStart(s: string): (r: string)
    ensures |r| <= |s| && r == s[|s| - |r|..]
    ensures r == [] || !IsWhitespace(r[0])
    ensures forall i :: 0 <= i < |s| - |r| ==> IsWhitespace(s[i])
  {
    if |s| > 0 && IsWhitespace(s[0]) then TrimStart(s[1..]) else s
  }

  function TrimEnd(s: string): (r: string)
    ensures |r| <= |s| && r == s[..|r|]
    ensures r == [] || !IsWhitespace(r[|r| - 1])
    ensures forall i :: |r| <= i < |s| ==> IsWhitespace(s[i])
  {
    if |s| > 0 && IsWhitespace(s[|s| - 1]) then TrimEnd(s[..|s| - 1]) else s
  }

  /** String.prototype.trim: the longest infix that neither starts nor ends with whitespace. */
  function Trim(s: string): (r: string)
    ensures r == [] || (!IsWhitespace(r[0]) && !IsWhitespace(r[|r| - 1]))
    ensures exists a :: StripsTo(s, a, r)
  {
    var t := TrimStart(s);
    var r := TrimEnd(t);
    assert StripsTo(s, |s| - |t|, r);
    r
  }

  /** r is s with a whitespace-only prefix of length a and a whitespace-only suffix removed. */
  predicate StripsTo(s: string, a: int, r: string) {
    0 <= a <= |s| - |r| && r == s[a..a + |r|]
    && (forall i :: 0 <= i < a ==> IsWhitespace(s[i]))
    && (forall i :: a + |r| <= i < |s| ==> IsWhitespace(s[i]))
  }

  lemma {:induction false} TrimStartOfTrimmed(s: string)
    requires s == [] || !IsWhitespace(s[0])
    ensures TrimStart(s) == s
  {
  }

  lemma {:induction false} TrimEndOfTrimmed(s: string)
    requires s == [] || !IsWhitespace(s[|s| - 1])
    ensures TrimEnd(s) == s
  {
  }

  /** Trimming twice is trimming once. */
  lemma TrimIdempotent(s: string)
    ensures Trim(Trim(s)) == Trim(s)
  {
    var t := Trim(s);
    TrimStartOfTrimmed(t);
    TrimEndOfTrimmed(t);
  }

  /** Every character of s is whitespace (String.prototype.trim leaves nothing). */
  predicate AllWhitespace(s: string) {
    forall i :: 0 <= i < |s| ==> IsWhitespace(s[i])
  }

  lemma TrimStartEmptyIff(s: string)
    ensures TrimStart(s) == [] <==> AllWhitespace(s)
  {
    var r := TrimStart(s);
    if r != [] {
      assert r[0] == s[|s| - |r|];
    }
  }

  lemma TrimEndEmptyIff(s: string)
    ensures TrimEnd(s) == [] <==> AllWhitespace(s)
  {
    var r := TrimEnd(s);
    if r != [] {
      assert r[|r| - 1] == s[|r| - 1];
    }
  }

  /** Leading whitespace is skipped whatever follows it. */
  lemma {:induction false} TrimStartAfterWhitespace(a: string, t: string)
    requires AllWhitespace(a)
    ensures TrimStart(a + t) == TrimStart(t)
    decreases |a|
  {
    if a != [] {
      assert (a + t)[1..] == a[1..] + t;
      TrimStartAfterWhitespace(a[1..], t);
    } else {
      assert a + t == t;
    }
  }

  /** Once a non-whitespace character is reached, the rest of the string is kept. */
  lemma {:induction false} TrimStartKeepsRest(a: string, t: string)
    requires TrimStart(a) != []
    ensures TrimStart(a + t) == TrimStart(a) + t
    decreases |a|
  {
    assert a != [];
    if IsWhitespace(a[0]) {
      assert (a + t)[1..] == a[1..] + t;
      TrimStartKeepsRest(a[1..], t);
    }
  }

  /** Trailing whitespace is skipped whatever precedes it. */
  lemma {:induction false} TrimEndBeforeWhitespace(t: string, b: string)
    requires AllWhitespace(b)
    ensures TrimEnd(t + b) == TrimEnd(t)
    decreases |b|
  {
    if b != [] {
      var n := |b| - 1;
      assert (t + b)[..|t + b| - 1] == t + b[..n];
      TrimEndBeforeWhitespace(t, b[..n]);
    } else {
      assert t + b == t;
    }
  }

  lemma {:induction false} TrimEndKeepsRest(t: string, b: string)
    requires TrimEnd(b) != []
    ensures TrimEnd(t + b) == t + TrimEnd(b)
    decreases |b|
  {
    assert b != [];
    var n := |b| - 1;
    assert (t + b)[|t + b| - 1] == b[n];
    if IsWhitespace(b[n]) {
      assert (t + b)[..|t + b| - 1] == t + b[..n];
      TrimEndKeepsRest(t, b[..n]);
    }
  }

  /** Whitespace around a string does not change what trim gives. */
  lemma TrimPadded(pre: string, s: string, post: string)
    requires AllWhitespace(pre) && AllWhitespace(post)
    ensures Trim(pre + s + post) == Trim(s)
  {
    ConcatAssoc(pre, s, post);
    TrimStartAfterWhitespace(pre, s + post);
    TrimStartEmptyIff(s);
    if TrimStart(s) != [] {
      TrimStartKeepsRest(s, post);
      TrimEndBeforeWhitespace(TrimStart(s), post);
    } else {
      TrimStartAfterWhitespace(s, post);
      TrimStartEmptyIff(post);
    }
  }

  /** Trim around a whitespace-only middle m: with only whitespace before it, what follows decides. */
  lemma TrimBlankBefore(a: string, m: string, b: string)
    requires AllWhitespace(a) && AllWhitespace(m)
    ensures Trim(a + m + b) == Trim(b)
  {
    assert AllWhitespace(a + m);
    TrimStartAfterWhitespace(a + m, b);
  }

  /** Trim around a whitespace-only middle m: with only whitespace after it, what precedes decides. */
  lemma TrimBlankAfter(a: string, m: string, b: string)
    requires AllWhitespace(m) && AllWhitespace(b)
    ensures Trim(a + m + b) == Trim(a)
  {
    TrimPadded([], a, m + b);
    assert [] + a == a;
    ConcatAssoc(a, m, b);
  }

  /** Trim around a middle m with non-whitespace on both sides keeps m whole. */
  lemma TrimKeepsMiddle(a: string, m: string, b: string)
    requires !AllWhitespace(a) && !AllWhitespace(b)
    ensures Trim(a + m + b) == TrimStart(a) + m + TrimEnd(b)
  {
    TrimStartEmptyIff(a);
    TrimEndEmptyIff(b);
    ConcatAssoc(a, m, b);
    TrimStartKeepsRest(a, m + b);
    ConcatAssoc(TrimStart(a), m, b);
    TrimEndKeepsRest(TrimStart(a) + m, b);
  }

  /** The string with every carriage return removed; used to state what ReplaceCrlf preserves. */
  function WithoutCr(s: string): (r: string)
    ensures |r| <= |s|
    ensures forall i :: 0 <= i < |r| ==> r[i] != '\r'
  {
    if s == [] then [] else (if s[0] == '\r' then [] else [s[0]]) + WithoutCr(s[1..])
  }

  /** A CR LF pair starts at index i of s. */
  predicate CrlfAt(s: string, i: int) {
    0 <= i < |s| - 1 && s[i] == '\r' && s[i + 1] == '\n'
  }

  /** The number of CR LF pairs in s (two pairs never overlap). */
  function CrlfPairs(s: string): nat
    decreases |s|
  {
    if |s| < 2 then 0 else (if CrlfAt(s, 0) then 1 else 0) + CrlfPairs(s[1..])
  }

  /**
   * s.replace(/\r\n/g, '\n'): each CR LF pair, scanned left to right, becomes
   * LF; what that means is stated by the lemmas that follow.
   */
  function ReplaceCrlf(s: string): (r: string)
    ensures |r| <= |s|
    ensures (forall i :: 0 <= i < |s| ==> s[i] != '\r') ==> r == s
    decreases |s|
  {
    if |s| >= 2 && s[0] == '\r' && s[1] == '\n' then "\n" + ReplaceCrlf(s[2..])
    else if s == [] then []
    else [s[0]] + ReplaceCrlf(s[1..])
  }

  /** Only carriage returns are removed: every other character survives, in order. */
  lemma {:induction false} ReplaceCrlfKeepsOtherCharacters(s: string)
    ensures WithoutCr(ReplaceCrlf(s)) == WithoutCr(s)
    decreases |s|
  {
    if |s| >= 2 && s[0] == '\r' && s[1] == '\n' {
      ReplaceCrlfKeepsOtherCharacters(s[2..]);
      assert s[1..][1..] == s[2..];
      assert ("\n" + ReplaceCrlf(s[2..]))[1..] == ReplaceCrlf(s[2..]);
    } else if s != [] {
      ReplaceCrlfKeepsOtherCharacters(s[1..]);
      assert ([s[0]] + ReplaceCrlf(s[1..]))[1..] == ReplaceCrlf(s[1..]);
    }
  }

  /** Each CR LF pair costs one character. */
  lemma {:induction false} ReplaceCrlfLength(s: string)
    ensures |ReplaceCrlf(s)| == |s| - CrlfPairs(s)
    decreases |s|
  {
    if |s| >= 2 {
      ReplaceCrlfLength(s[1..]);
      if CrlfAt(s, 0) {
        assert !CrlfAt(s[1..], 0) && s[1..][1..] == s[2..];
        ReplaceCrlfLength(s[2..]);
      }
    }
  }

  lemma ReplaceCrlfPair(s: string)
    ensures ReplaceCrlf("\r\n" + s) == "\n" + ReplaceCrlf(s)
  {
    assert ("\r\n" + s)[2..] == s;
  }

  /** A character that does not open a CR LF pair is kept. */
  lemma ReplaceCrlfKeeps(c: char, s: string)
    requires !(c == '\r' && s != [] && s[0] == '\n')
    ensures ReplaceCrlf([c] + s) == [c] + ReplaceCrlf(s)
  {
    assert ([c] + s)[1..] == s;
  }

  /** The replacement works piece by piece when the first piece does not end in CR. */
  lemma {:induction false} ReplaceCrlfAppend(a: string, b: string)
    requires a == [] || a[|a| - 1] != '\r'
    ensures ReplaceCrlf(a + b) == ReplaceCrlf(a) + ReplaceCrlf(b)
    decreases |a|, 1
  {
    if a == [] {
      assert a + b == b;
    } else if |a| >= 2 && a[0] == '\r' && a[1] == '\n' {
      ReplaceCrlfAppendPair(a[2..], b);
      assert a == "\r\n" + a[2..];
    } else {
      assert a == [a[0]] + a[1..];
      ReplaceCrlfAppendKeep(a[0], a[1..], b);
    }
  }

  lemma {:induction false} ReplaceCrlfAppendPair(a2: string, b: string)
    requires a2 == [] || a2[|a2| - 1] != '\r'
    ensures ReplaceCrlf("\r\n" + a2 + b) == ReplaceCrlf("\r\n" + a2) + ReplaceCrlf(b)
    decreases |a2| + 2, 0
  {
    ConcatAssoc("\r\n", a2, b);
    ReplaceCrlfPair(a2 + b);
    ReplaceCrlfPair(a2);
    ReplaceCrlfAppend(a2, b);
    ConcatAssoc("\n", ReplaceCrlf(a2), ReplaceCrlf(b));
  }

  lemma {:induction false} ReplaceCrlfAppendKeep(c: char, a1: string, b: string)
    requires a1 == [] ==> c != '\r'
    requires a1 == [] || a1[|a1| - 1] != '\r'
    requires !(c == '\r' && a1 != [] && a1[0] == '\n')
    ensures ReplaceCrlf([c] + a1 + b) == ReplaceCrlf([c] + a1) + ReplaceCrlf(b)
    decreases |a1| + 1, 0
  {
    ConcatAssoc([c], a1, b);
    assert !(c == '\r' && a1 + b != [] && (a1 + b)[0] == '\n');
    ReplaceCrlfKeeps(c, a1 + b);
    ReplaceCrlfKeeps(c, a1);
    ReplaceCrlfAppend(a1, b);
    ConcatAssoc([c], ReplaceCrlf(a1), ReplaceCrlf(b));
  }

  /** A CR LF pair between two pieces becomes one LF. */
  lemma CrlfBecomesLf(a: string, b: string)
    requires a == [] || a[|a| - 1] != '\r'
    ensures ReplaceCrlf(a + "\r\n" + b) == ReplaceCrlf(a) + "\n" + ReplaceCrlf(b)
  {
    ConcatAssoc(a, "\r\n", b);
    ReplaceCrlfAppend(a, "\r\n" + b);
    ReplaceCrlfPair(b);
    ConcatAssoc(ReplaceCrlf(a), "\n", ReplaceCrlf(b));
  }

  /** A lone LF between two pieces stays. */
  lemma LfStays(a: string, b: string)
    requires a == [] || a[|a| - 1] != '\r'
    ensures ReplaceCrlf(a + "\n" + b) == ReplaceCrlf(a) + "\n" + ReplaceCrlf(b)
  {
    ConcatAssoc(a, "\n", b);
    ReplaceCrlfAppend(a, "\n" + b);
    ReplaceCrlfKeeps('\n', b);
    ConcatAssoc(ReplaceCrlf(a), "\n", ReplaceCrlf(b));
  }

  /** One pass of the CR LF replacement does not remove every CR LF pair. */
  lemma ReplaceCrlfNotIdempotent()
    ensures ReplaceCrlf("\r\r\n") == "\r\n"
    ensures ReplaceCrlf(ReplaceCrlf("\r\r\n")) != ReplaceCrlf("\r\r\n")
  {
    assert ReplaceCrlf("\r\n") == "\n" + ReplaceCrlf("");
    assert ReplaceCrlf("\r\r\n") == "\r" + ReplaceCrlf("\r\n");
  }

  predicate IsLineBreak(c: char) { c == '\n' || c == '\r' }

  /** Every CR or LF of s replaced by a space. */
  function BreaksToSpaces(s: string): (r: string)
    ensures |r| == |s|
  {
    seq(|s|, i requires 0 <= i < |s| => if IsLineBreak(s[i]) then ' ' else s[i])
  }

  /** s.replace(/(\r\n|\n|\r)/gm, ' '): every line break, a CR LF pair counting once, becomes a space. */
  function ReplaceLineBreaks(s: string): (r: string)
    ensures |r| <= |s|
    decreases |s|
  {
    if |s| >= 2 && s[0] == '\r' && s[1] == '\n' then " " + ReplaceLineBreaks(s[2..])
    else if s == [] then []
    else [if IsLineBreak(s[0]) then ' ' else s[0]] + ReplaceLineBreaks(s[1..])
  }

  /** No line break survives the replacement, and a string without line breaks comes out unchanged. */
  lemma {:induction false} ReplaceLineBreaksRemovesBreaks(s: string)
    ensures forall i | 0 <= i < |ReplaceLineBreaks(s)| :: !IsLineBreak(ReplaceLineBreaks(s)[i])
    ensures (forall i | 0 <= i < |s| :: !IsLineBreak(s[i])) ==> ReplaceLineBreaks(s) == s
    decreases |s|
  {
    if |s| >= 2 && s[0] == '\r' && s[1] == '\n' {
      ReplaceLineBreaksRemovesBreaks(s[2..]);
      assert IsLineBreak(s[0]);
    } else if s != [] {
      ReplaceLineBreaksRemovesBreaks(s[1..]);
      var r := ReplaceLineBreaks(s);
      var head := [if IsLineBreak(s[0]) then ' ' else s[0]];
      assert r == head + ReplaceLineBreaks(s[1..]);
      forall i | 0 <= i < |r|
        ensures !IsLineBreak(r[i])
      {
        if i > 0 {
          assert r[i] == ReplaceLineBreaks(s[1..])[i - 1];
        }
      }
      if forall i | 0 <= i < |s| :: !IsLineBreak(s[i]) {
        assert forall i | 0 <= i < |s[1..]| :: !IsLineBreak(s[1..][i]) by {
          forall i | 0 <= i < |s[1..]|
            ensures !IsLineBreak(s[1..][i])
          {
            assert s[1..][i] == s[i + 1];
          }
        }
        assert !IsLineBreak(s[0]);
        assert s == [s[0]] + s[1..];
      }
    }
  }

  lemma BreaksToSpacesCons(c: char, t: string)
    ensures BreaksToSpaces([c] + t) == [if IsLineBreak(c) then ' ' else c] + BreaksToSpaces(t)
  {
  }

  lemma BreaksToSpacesAppend(a: string, b: string)
    ensures BreaksToSpaces(a + b) == BreaksToSpaces(a) + BreaksToSpaces(b)
  {
  }

  /**
   * The regular expression's alternation, restated: the CR LF pairs are
   * collapsed as ReplaceCrlf does, then each remaining CR or LF becomes a
   * space and every other character is kept where it was.
   */
  lemma {:induction false} ReplaceLineBreaksIsCollapseThenBlank(s: string)
    ensures ReplaceLineBreaks(s) == BreaksToSpaces(ReplaceCrlf(s))
    decreases |s|
  {
    if |s| >= 2 && s[0] == '\r' && s[1] == '\n' {
      ReplaceLineBreaksIsCollapseThenBlank(s[2..]);
      BreaksToSpacesCons('\n', ReplaceCrlf(s[2..]));
    } else if s != [] {
      ReplaceLineBreaksIsCollapseThenBlank(s[1..]);
      BreaksToSpacesCons(s[0], ReplaceCrlf(s[1..]));
    }
  }

  lemma BreaksToSpacesAroundLf(x: string, y: string)
    ensures BreaksToSpaces(x + "\n" + y) == BreaksToSpaces(x) + " " + BreaksToSpaces(y)
  {
  }

  /** A CR LF pair between two pieces becomes one space. */
  lemma CrlfBecomesSpace(a: string, b: string)
    requires a == [] || a[|a| - 1] != '\r'
    ensures ReplaceLineBreaks(a + "\r\n" + b) == ReplaceLineBreaks(a) + " " + ReplaceLineBreaks(b)
  {
    ReplaceLineBreaksIsCollapseThenBlank(a + "\r\n" + b);
    ReplaceLineBreaksIsCollapseThenBlank(a);
    ReplaceLineBreaksIsCollapseThenBlank(b);
    CrlfBecomesLf(a, b);
    BreaksToSpacesAroundLf(ReplaceCrlf(a), ReplaceCrlf(b));
  }

  /** A lone LF between two pieces becomes one space. */
  lemma LfBecomesSpace(a: string, b: string)
    requires a == [] || a[|a| - 1] != '\r'
    ensures ReplaceLineBreaks(a + "\n" + b) == ReplaceLineBreaks(a) + " " + ReplaceLineBreaks(b)
  {
    ReplaceLineBreaksIsCollapseThenBlank(a + "\n" + b);
    ReplaceLineBreaksIsCollapseThenBlank(a);
    ReplaceLineBreaksIsCollapseThenBlank(b);
    LfStays(a, b);
    BreaksToSpacesAroundLf(ReplaceCrlf(a), ReplaceCrlf(b));
  }

  function ToLowerChar(c: char): char {
    if 'A' <= c <= 'Z' then (c as int + 32) as char else c
  }

  /** String.prototype.toLowerCase, restricted to the ASCII letters. */
  function ToLower(s: string): (r: string)
    ensures |r| == |s|
  {
    seq(|s|, i requires 0 <= i < |s| => ToLowerChar(s[i]))
  }

  function DigitChar(d: nat): char
    requires d < 10
  {
    ('0' as int + d) as char
  }

  /** Decimal notation of a natural number, as String(n) prints it. */
  function NatToString(n: nat): (r: string)
    ensures |r| >= 1
    ensures n >= 10 ==> |r| >= 2
    ensures forall i :: 0 <= i < |r| ==> '0' <= r[i] <= '9'
    decreases n
  {
    if n < 10 then [DigitChar(n)] else NatToString(n / 10) + [DigitChar(n % 10)]
  }

  /** Different numbers print differently. */
  lemma {:induction false} NatToStringInjective(a: nat, b: nat)
    requires NatToString(a) == NatToString(b)
    ensures a == b
    decreases a
  {
    if a >= 10 && b >= 10 {
      var sa, sb := NatToString(a), NatToString(b);
      assert sa[|sa| - 1] == DigitChar(a % 10) && sb[|sb| - 1] == DigitChar(b % 10);
      assert sa[..|sa| - 1] == NatToString(a / 10);
      assert sb[..|sb| - 1] == NatToString(b / 10);
      NatToStringInjective(a / 10, b / 10);
    }
  }

  function IntToString(i: int): string {
    if i < 0 then "-" + NatToString(-i) else NatToString(i)
  }

  /**
   * Keys a plain object literal inherits from Object.prototype: reading one
   * of them from an object that lacks it as an own key yields a function
   * (or the prototype), not undefined.
   */
  const ObjectPrototypeKeys: set<string> := {
    "constructor", "__proto__", "hasOwnProperty", "isPrototypeOf",
    "propertyIsEnumerable", "toLocaleString", "toString", "valueOf",
    "__defineGetter__", "__defineSetter__", "__lookupGetter__", "__lookupSetter__"
  }

  /** Concatenation is associative; stated once so that proofs need not rediscover it element by element. */
  lemma ConcatAssoc<T>(a: seq<T>, b: seq<T>, c: seq<T>)
    ensures a + (b + c) == (a + b) + c
  {
  }
}
