/**
 * The slice of JavaScript semantics that the modelled code relies on:
 * dynamically typed values, truthiness, property reads that throw on
 * `null`/`undefined`, and `String.prototype.trim`.
 */
module Js {
  import opened Wrappers

  /** A JavaScript number (an IEEE double), seen only through whether it is finite. */
  datatype Number = Finite(value: real) | PositiveInfinity | NegativeInfinity | NaN

  /** A JavaScript value. `Callable` stands for functions and other host objects. */
  datatype Value =
    | Undefined
    | Null
    | Bool(b: bool)
    | Num(n: Number)
    | Str(s: string)
    | Arr(items: seq<Value>)
    | Obj(properties: map<string, Value>)
    | Callable

  /** `!!v`: false exactly for undefined, null, false, 0, -0, NaN and "". */
  predicate Truthy(v: Value) {
    match v
    case Undefined => false
    case Null => false
    case Bool(b) => b
    case Num(n) => n != NaN && n != Finite(0.0)
    case Str(s) => s != ""
    case _ => true
  }

  /** t occurs in s at position k. */
  predicate OccursAt(s: string, t: string, k: nat) {
    k + |t| <= |s| && forall i :: 0 <= i < |t| ==> s[k + i] == t[i]
  }

  /** The text of the TypeError that V8 throws for `base.key` when base is null or undefined. */
  function ReadErrorText(base: Value, key: string): string
    requires base.Null? || base.Undefined?
  {
    "Cannot read properties of " + (if base.Null? then "null" else "undefined")
      + " (reading '" + key + "')"
  }

  /**
   * `v[key]` for an own data property of a plain object. Reading a property
   * of null or undefined throws; a missing property reads as undefined.
   */
  function GetProperty(v: Value, key: string): (r: Result<Value, string>)
    ensures r.Failure? <==> v.Null? || v.Undefined?
    ensures r.Failure? ==> r.error == ReadErrorText(v, key)
    ensures v.Obj? && key in v.properties ==> r == Success(v.properties[key])
    ensures !(v.Obj? && key in v.properties) && r.Success? ==> r.value == Undefined
  {
    match v
    case Undefined => Failure(ReadErrorText(v, key))
    case Null => Failure(ReadErrorText(v, key))
    case Obj(props) => Success(if key in props then props[key] else Undefined)
    case _ => Success(Undefined)
  }

  /** The text of the TypeError that V8 throws when an object cannot be converted to a primitive. */
  const TO_PRIMITIVE_ERROR := "Cannot convert object to primitive value"

  /**
   * Whether ToString(v), as a template literal `${v}` applies it, throws.
   * An object is converted by its `toString`, then by its `valueOf`, each
   * taken from the object itself when it has that property and from
   * `Object.prototype` otherwise; a property that is not callable is
   * skipped, and `Object.prototype.valueOf` yields the object itself, which
   * is no primitive. An array is converted by `join`, which converts each
   * element but null and undefined. A callable is taken to return a
   * primitive.
   */
  predicate ToStringThrows(v: Value)
    decreases v
  {
    match v
    case Obj(props) =>
      && "toString" in props && !props["toString"].Callable?
      && !("valueOf" in props && props["valueOf"].Callable?)
    case Arr(items) => exists i :: 0 <= i < |items| && ToStringThrows(items[i])
    case _ => false
  }

  /** Only an object, or an array holding one, can fail to convert; a plain object without own `toString` converts. */
  lemma ToStringThrowsOnlyOnObjects(v: Value)
    ensures ToStringThrows(v) ==> v.Obj? || v.Arr?
    ensures v.Obj? && "toString" !in v.properties ==> !ToStringThrows(v)
    ensures (v.Obj? && "toString" in v.properties && !v.properties["toString"].Callable?
             && "valueOf" !in v.properties) ==> ToStringThrows(v)
  {
  }

  /** ECMAScript LineTerminator code points. */
  predicate IsLineTerminator(c: char) {
    c == '\n' || c == '\r' || c == '\U{2028}' || c == '\U{2029}'
  }

  /** ECMAScript WhiteSpace (including every Unicode Zs code point) or LineTerminator: what `trim` strips. */
  predicate IsWhiteSpace(c: char) {
    || c == '\t' || c == '\U{000B}' || c == '\U{000C}' || c == ' ' || c == '\U{00A0}'
    || c == '\U{1680}' || ('\U{2000}' <= c <= '\U{200A}') || c == '\U{202F}' || c == '\U{205F}'
    || c == '\U{3000}' || c == '\U{FEFF}'
    || IsLineTerminator(c)
  }

  predicate AllWhiteSpace(s: string) {
    forall k :: 0 <= k < |s| ==> IsWhiteSpace(s[k])
  }

  /** The length of the longest all-white-space prefix of s. */
  function LeadingWhiteSpace(s: string): (n: nat)
    ensures n <= |s|
    ensures AllWhiteSpace(s[..n])
    ensures n < |s| ==> !IsWhiteSpace(s[n])
  {
    if s == [] || !IsWhiteSpace(s[0]) then 0
    else
      var n := LeadingWhiteSpace(s[1..]);
      assert s[..1 + n] == [s[0]] + s[1..][..n];
      1 + n
  }

  /** The length of the longest all-white-space suffix of s. */
  function TrailingWhiteSpace(s: string): (n: nat)
    ensures n <= |s|
    ensures AllWhiteSpace(s[|s| - n..])
    ensures n < |s| ==> !IsWhiteSpace(s[|s| - n - 1])
  {
    if s == [] || !IsWhiteSpace(s[|s| - 1]) then 0
    else
      var init := s[..|s| - 1];
      var n := TrailingWhiteSpace(init);
      assert s[|s| - (1 + n)..] == init[|init| - n..] + [s[|s| - 1]];
      1 + n
  }

  /**
   * `s.trim()`: s with its leading and trailing white space removed. The result
   * is an infix of s surrounded by white space only, and it neither starts nor
   * ends with white space.
   */
  function Trim(s: string): (r: string)
    ensures |r| <= |s|
    ensures exists a :: 0 <= a <= |s| - |r| && s[a..a + |r|] == r
                     && AllWhiteSpace(s[..a]) && AllWhiteSpace(s[a + |r|..])
    ensures r != [] ==> !IsWhiteSpace(r[0]) && !IsWhiteSpace(r[|r| - 1])
  {
    var a := LeadingWhiteSpace(s);
    var t := s[a..];
    var b := |t| - TrailingWhiteSpace(t);
    assert t[..b] == s[a..a + b];
    assert t[b..] == s[a + b..];
    t[..b]
  }

  lemma WhiteSpaceAt(s: string, k: nat)
    requires AllWhiteSpace(s) && k < |s|
    ensures IsWhiteSpace(s[k])
  {
  }

  /** Any prefix of white space followed by a non-white-space character is exactly the leading white space. */
  lemma LeadingWhiteSpaceUnique(s: string, m: nat)
    requires m <= |s| && AllWhiteSpace(s[..m]) && (m < |s| ==> !IsWhiteSpace(s[m]))
    ensures LeadingWhiteSpace(s) == m
  {
    var n := LeadingWhiteSpace(s);
    if n < m {
      WhiteSpaceAt(s[..m], n);
      assert false;
    } else if m < n {
      WhiteSpaceAt(s[..n], m);
      assert false;
    }
  }

  lemma TrailingWhiteSpaceUnique(s: string, m: nat)
    requires m <= |s| && AllWhiteSpace(s[|s| - m..]) && (m < |s| ==> !IsWhiteSpace(s[|s| - m - 1]))
    ensures TrailingWhiteSpace(s) == m
  {
    var n := TrailingWhiteSpace(s);
    if n < m {
      assert false;
    } else if m < n {
      assert false;
    }
  }

  /**
   * Trim is determined by its contract: padding a string that neither starts
   * nor ends with white space by white space on both sides, then trimming,
   * gives the string back.
   */
  lemma TrimPadded(before: string, t: string, after: string)
    requires AllWhiteSpace(before) && AllWhiteSpace(after)
    requires t != [] ==> !IsWhiteSpace(t[0]) && !IsWhiteSpace(t[|t| - 1])
    ensures Trim(before + t + after) == t
  {
    var s := before + t + after;
    if t == [] {
      assert s == before + after;
      assert s[..|s|] == s;
      LeadingWhiteSpaceUnique(s, |s|);
      assert s[|s|..] == [];
    } else {
      assert s[..|before|] == before;
      assert s[|before|] == t[0];
      LeadingWhiteSpaceUnique(s, |before|);
      var u := s[|before|..];
      assert u == t + after;
      assert u[|u| - |after|..] == after;
      assert u[|u| - |after| - 1] == t[|t| - 1];
      TrailingWhiteSpaceUnique(u, |after|);
      assert u[..|t|] == t;
    }
  }
}
