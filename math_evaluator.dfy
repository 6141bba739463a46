/**
 * The client-side safe-expression gate (`evaluateMathExpression` in
 * math-tutor/src/utils/mathEvaluator.js): input guard, trim, a regular-
 * expression denylist, then the expression parser, whose value must be a
 * finite number. The parser library is an oracle passed in as a function.
 */
module MathEvaluator {
  import opened Wrappers
  import opened Js

  /** What a call to the parser's `evaluate` does: return a value or throw an error with a message. */
  datatype EvalOutcome = Returned(value: Value) | Threw(message: string)

  const INVALID_INPUT := "Invalid expression: must be a non-empty string"
  const DISALLOWED := "Expression contains disallowed content"
  const NOT_A_NUMBER := "Expression did not evaluate to a valid number"
  const EVALUATION_ERROR_PREFIX := "Evaluation error: "

  /** A literal regular expression, with or without the `i` flag. */
  datatype Pattern = Pattern(text: string, ignoreCase: bool)

  /** The denylist, in source order. */
  const DANGEROUS_PATTERNS: seq<Pattern> := [
    Pattern("eval", true),
    Pattern("function", true),
    Pattern("=>", false),
    Pattern("${", false),
    Pattern("require", true),
    Pattern("import", true),
    Pattern("document", true),
    Pattern("window", true),
    Pattern("process", true),
    Pattern("__proto__", true),
    Pattern("constructor", true)
  ]

  /**
   * The case-insensitive canonical form of a character for these patterns.
   * Canonicalisation never maps a non-ASCII character to an ASCII one, and
   * every pattern character is ASCII, so ASCII upper-casing decides matches.
   */
  function Canonical(c: char): char {
    if 'a' <= c <= 'z' then (c as int - 32) as char else c
  }

  predicate CharMatches(p: Pattern, input: char, patternChar: char) {
    if p.ignoreCase then Canonical(input) == Canonical(patternChar) else input == patternChar
  }

  /** The pattern matches s starting at position i. */
  predicate MatchesAt(p: Pattern, s: string, i: nat) {
    i + |p.text| <= |s| && forall j :: 0 <= j < |p.text| ==> CharMatches(p, s[i + j], p.text[j])
  }

  /** The pattern matches s at some position: what `pattern.test(s)` answers. */
  ghost predicate Occurs(p: Pattern, s: string) {
    exists i: nat :: MatchesAt(p, s, i)
  }

  /** The regular-expression search, scanning start positions from i onwards. */
  function SearchFrom(p: Pattern, s: string, i: nat): (found: bool)
    requires i <= |s|
    ensures found <==> exists k: nat :: i <= k && MatchesAt(p, s, k)
    decreases |s| - i
  {
    if i + |p.text| > |s| then false
    else if MatchesAt(p, s, i) then true
    else SearchFrom(p, s, i + 1)
  }

  /** `pattern.test(s)`. */
  function Test(p: Pattern, s: string): (found: bool)
    ensures found <==> Occurs(p, s)
  {
    SearchFrom(p, s, 0)
  }

  /** Some pattern of the denylist matches s. */
  predicate Denylisted(s: string) {
    exists k :: 0 <= k < |DANGEROUS_PATTERNS| && Test(DANGEROUS_PATTERNS[k], s)
  }

  /**
   * `evaluateMathExpression(expression)` with `parse` standing for
   * `new Parser().evaluate`.
   */
  function Evaluate(parse: string -> EvalOutcome, expression: Value): (r: Result<real, string>)
    ensures !(expression.Str? && expression.s != "") ==> r == Failure(INVALID_INPUT)
    ensures expression.Str? && expression.s != "" && Denylisted(Trim(expression.s)) ==>
              r == Failure(DISALLOWED)
    ensures expression.Str? && expression.s != "" && !Denylisted(Trim(expression.s)) ==>
              match parse(Trim(expression.s))
              case Threw(m) => r == Failure(EVALUATION_ERROR_PREFIX + m)
              case Returned(v) => r == if v.Num? && v.n.Finite? then Success(v.n.value) else Failure(NOT_A_NUMBER)
    ensures r.Success? <==>
              && expression.Str? && expression.s != ""
              && !Denylisted(Trim(expression.s))
              && parse(Trim(expression.s)).Returned?
              && parse(Trim(expression.s)).value.Num?
              && parse(Trim(expression.s)).value.n.Finite?
    ensures r.Success? ==> parse(Trim(expression.s)) == Returned(Num(Finite(r.value)))
  {
    if !Truthy(expression) || !expression.Str? then Failure(INVALID_INPUT)
    else
      var sanitized := Trim(expression.s);
      if Denylisted(sanitized) then Failure(DISALLOWED)
      else
        match parse(sanitized)
        case Threw(m) => Failure(EVALUATION_ERROR_PREFIX + m)
        case Returned(v) =>
          if !v.Num? || !v.n.Finite? then Failure(NOT_A_NUMBER)
          else Success(v.n.value)
  }

  /** The lower-case keywords the case-insensitive patterns spell. */
  const KEYWORDS: seq<string> :=
    ["eval", "function", "require", "import", "document", "window", "process", "__proto__", "constructor"]

  function LowerAscii(c: char): char {
    if 'A' <= c <= 'Z' then (c as int + 32) as char else c
  }

  /** s contains w at position i once the ASCII letters of s are lower-cased. */
  ghost predicate FoldedAt(s: string, w: string, i: nat) {
    i + |w| <= |s| && forall j :: 0 <= j < |w| ==> LowerAscii(s[i + j]) == w[j]
  }

  ghost predicate ContainsFolded(s: string, w: string) {
    exists i: nat :: FoldedAt(s, w, i)
  }

  ghost predicate ContainsLiterally(s: string, w: string) {
    exists i: nat :: OccursAt(s, w, i)
  }

  /** w is spelled with lower-case ASCII letters and underscores only. */
  ghost predicate LowerCaseWord(w: string) {
    forall j :: 0 <= j < |w| ==> 'a' <= w[j] <= 'z' || w[j] == '_'
  }

  /** For a lower-case ASCII letter or `_`, upper-case canonical equality is lower-casing equality. */
  lemma CanonicalIsFolding(x: char, w: char)
    requires 'a' <= w <= 'z' || w == '_'
    ensures Canonical(x) == Canonical(w) <==> LowerAscii(x) == w
  {
  }

  lemma FoldedOccurs(w: string, s: string)
    requires LowerCaseWord(w)
    ensures Occurs(Pattern(w, true), s) <==> ContainsFolded(s, w)
  {
    var p := Pattern(w, true);
    forall i: nat
      ensures MatchesAt(p, s, i) <==> FoldedAt(s, w, i)
    {
      if i + |w| <= |s| {
        forall j | 0 <= j < |w|
          ensures CharMatches(p, s[i + j], w[j]) <==> LowerAscii(s[i + j]) == w[j]
        {
          CanonicalIsFolding(s[i + j], w[j]);
        }
      }
    }
  }

  lemma LiteralOccurs(w: string, s: string)
    ensures Occurs(Pattern(w, false), s) <==> ContainsLiterally(s, w)
  {
    var p := Pattern(w, false);
    forall i: nat
      ensures MatchesAt(p, s, i) <==> OccursAt(s, w, i)
    {
    }
  }

  lemma KeywordsAreLowerCase()
    ensures forall k :: 0 <= k < |KEYWORDS| ==> LowerCaseWord(KEYWORDS[k])
  {
    assert LowerCaseWord("eval");
    assert LowerCaseWord("function");
    assert LowerCaseWord("require");
    assert LowerCaseWord("import");
    assert LowerCaseWord("document");
    assert LowerCaseWord("window");
    assert LowerCaseWord("process");
    assert LowerCaseWord("__proto__");
    assert LowerCaseWord("constructor");
  }

  /**
   * The denylist, stated independently of regular expressions: one of the
   * keywords occurs ignoring ASCII case, or `=>` or `${` occurs literally.
   */
  lemma DenylistedCharacterization(s: string)
    ensures Denylisted(s) <==>
              || (exists k :: 0 <= k < |KEYWORDS| && ContainsFolded(s, KEYWORDS[k]))
              || ContainsLiterally(s, "=>")
              || ContainsLiterally(s, "${")
  {
    // The pattern list is the keyword list with the two literal patterns inserted at positions 2 and 3.
    var toPattern := [0, 1, 4, 5, 6, 7, 8, 9, 10];
    forall k | 0 <= k < |KEYWORDS|
      ensures DANGEROUS_PATTERNS[toPattern[k]] == Pattern(KEYWORDS[k], true)
      ensures Test(DANGEROUS_PATTERNS[toPattern[k]], s) <==> ContainsFolded(s, KEYWORDS[k])
    {
      KeywordsAreLowerCase();
      FoldedOccurs(KEYWORDS[k], s);
    }
    LiteralOccurs("=>", s);
    LiteralOccurs("${", s);
    assert DANGEROUS_PATTERNS[2] == Pattern("=>", false);
    assert DANGEROUS_PATTERNS[3] == Pattern("${", false);
    if Denylisted(s) {
      var k :| 0 <= k < |DANGEROUS_PATTERNS| && Test(DANGEROUS_PATTERNS[k], s);
      if k == 0 || k == 1 {
        assert toPattern[k] == k;
      } else if k >= 4 {
        assert toPattern[k - 2] == k;
      }
    }
  }

  /**
   * The denylist runs before the parser: on a disallowed input the verdict is
   * the same whatever the parser would have done, so the parser is never consulted.
   */
  lemma DisallowedNeverParses(parse1: string -> EvalOutcome, parse2: string -> EvalOutcome, s: string)
    requires s != "" && Denylisted(Trim(s))
    ensures Evaluate(parse1, Str(s)) == Evaluate(parse2, Str(s)) == Failure(DISALLOWED)
  {
  }

  /** An input that is not a non-empty string is refused before anything else happens. */
  lemma InvalidInputNeverParses(parse1: string -> EvalOutcome, parse2: string -> EvalOutcome, expression: Value)
    requires !(expression.Str? && expression.s != "")
    ensures Evaluate(parse1, expression) == Evaluate(parse2, expression) == Failure(INVALID_INPUT)
  {
  }

  /**
   * The trimmed input is the only thing the parser is asked about: two parsers
   * that agree on it yield the same verdict.
   */
  lemma ParserSeesOnlyTrimmedInput(parse1: string -> EvalOutcome, parse2: string -> EvalOutcome, s: string)
    requires parse1(Trim(s)) == parse2(Trim(s))
    ensures Evaluate(parse1, Str(s)) == Evaluate(parse2, Str(s))
  {
  }

  /** `"process.exit()"` is refused as disallowed, whatever the parser would do. */
  lemma ProcessExitDisallowed(parse: string -> EvalOutcome, s: string)
    requires s == "process.exit()"
    ensures Evaluate(parse, Str(s)) == Failure(DISALLOWED)
  {
    TrimKeepsProcessExit();
    ProcessExitDenylisted();
  }

  lemma TrimKeepsProcessExit()
    ensures Trim("process.exit()") == "process.exit()"
  {
    var s := "process.exit()";
    assert s == [] + s + [];
    TrimPadded([], s, []);
  }

  lemma ProcessExitDenylisted()
    ensures Denylisted("process.exit()")
  {
    assert MatchesAt(DANGEROUS_PATTERNS[8], "process.exit()", 0);
    assert Test(DANGEROUS_PATTERNS[8], "process.exit()");
  }

  lemma TrimOneLeadingSpace(s: string)
    requires s != [] && !IsWhiteSpace(s[0]) && !IsWhiteSpace(s[|s| - 1])
    ensures Trim(" " + s) == s
  {
    assert " " + s == " " + s + [];
    assert AllWhiteSpace(" ");
    TrimPadded(" ", s, []);
  }

  lemma UpperCaseEvalDenylisted()
    ensures Denylisted("EVAL(1)")
  {
    assert MatchesAt(DANGEROUS_PATTERNS[0], "EVAL(1)", 0);
    assert Test(DANGEROUS_PATTERNS[0], "EVAL(1)");
  }

  /** The keyword patterns ignore case: `" EVAL(1)"` is refused too. */
  lemma UpperCaseKeywordDisallowed(parse: string -> EvalOutcome, input: string)
    requires input == " EVAL(1)"
    ensures Evaluate(parse, Str(input)) == Failure(DISALLOWED)
  {
    var s := "EVAL(1)";
    assert input == " " + s;
    TrimOneLeadingSpace(s);
    UpperCaseEvalDenylisted();
  }
}
