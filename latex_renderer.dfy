/**
 * The LaTeX segmenter and HTML escaper of math-tutor/src/utils/latexRenderer.js.
 *
 * `parseLatex` repeatedly runs four regular expressions over the text still to
 * be consumed, keeps the match that starts earliest (the stable sort keeps the
 * fixed order `$$`, `$`, `\[`, `\(` among equal starts), emits the text before
 * it and a math part, and continues after the match. Each regular expression
 * is modelled as a leftmost search for a lazy match.
 */
module LatexRenderer {
  import opened Wrappers
  import opened Js
  import opened JsRegex

  /** An element of the array `parseLatex` returns. */
  datatype Part = Text(content: string) | Math(content: string, display: bool)

  /**
   * The four delimiter regular expressions, in the order of the `matches`
   * array (its `type` field). Each is `open (group+?) close`; the group's
   * characters may be line terminators only for the multi-line forms
   * (`[\s\S]`, as opposed to `.`).
   */
  datatype Kind = DollarBlock | DollarInline | ParenBlock | ParenInline {
    /** The regular expression: `\$\$([\s\S]+?)\$\$`, `\$(.+?)\$`, `\\\[([\s\S]+?)\\\]`, `\\\((.+?)\\\)`. */
    function Pattern(): LazyPattern {
      match this
      case DollarBlock => LazyPattern("$$", "$$", true)
      case DollarInline => LazyPattern("$", "$", false)
      case ParenBlock => LazyPattern("\\[", "\\]", true)
      case ParenInline => LazyPattern("\\(", "\\)", false)
    }

    /** The `display` flag of the parts this form produces. */
    predicate Display() {
      DollarBlock? || ParenBlock?
    }

    /** The position in the `matches` array, which the stable sort keeps among equal indices. */
    function Rank(): nat {
      match this
      case DollarBlock => 0
      case DollarInline => 1
      case ParenBlock => 2
      case ParenInline => 3
    }
  }

  const KINDS: seq<Kind> := [DollarBlock, DollarInline, ParenBlock, ParenInline]

  lemma KindsInRankOrder(k: Kind)
    ensures k.Rank() < |KINDS| && KINDS[k.Rank()] == k
  {
  }

  /** No delimiter pair is complete anywhere in s. */
  ghost predicate NoDelimiterPair(s: string) {
    forall k: Kind, q: nat, n: nat :: !IsMatchAt(s, k.Pattern(), q, n)
  }

  /** An entry of the `matches` array: the delimiter form, its match, and the match's `index`. */
  datatype Candidate = Candidate(kind: Kind, m: Match, index: int)

  /** Ranks strictly increase along ks. */
  ghost predicate RankOrdered(ks: seq<Kind>) {
    forall a, b :: 0 <= a < b < |ks| ==> ks[a].Rank() < ks[b].Rank()
  }

  lemma KindsRankOrdered()
    ensures RankOrdered(KINDS)
  {
  }

  /** The entry for delimiter form k when its regular expression matches s. */
  function EntryFor(s: string, k: Kind): Option<Candidate> {
    match Exec(s, k.Pattern())
    case None => None
    case Some(m) => Some(Candidate(k, m, IndexOf(s, MatchText(s, k.Pattern(), m))))
  }

  /**
   * The `matches` array before sorting, for the delimiter forms ks: one entry
   * per form whose regular expression matches (the `filter`), carrying the
   * `indexOf` of its match text (the `map`), in the order of ks. The index of
   * every entry is where its regular expression matched.
   */
  function CandidatesOf(s: string, ks: seq<Kind>): (cs: seq<Candidate>)
    ensures forall c :: c in cs ==> c.kind in ks && Exec(s, c.kind.Pattern()) == Some(c.m) && c.index == c.m.start
    ensures forall k :: k in ks && Exec(s, k.Pattern()).Some? ==>
              Candidate(k, Exec(s, k.Pattern()).value, Exec(s, k.Pattern()).value.start) in cs
    ensures RankOrdered(ks) ==> forall a, b :: 0 <= a < b < |cs| ==> cs[a].kind.Rank() < cs[b].kind.Rank()
  {
    if ks == [] then []
    else
      var rest := CandidatesOf(s, ks[1..]);
      assert RankOrdered(ks) ==> RankOrdered(ks[1..]);
      match EntryFor(s, ks[0])
      case None => rest
      case Some(c) =>
        IndexOfMatch(s, ks[0].Pattern(), c.m);
        [c] + rest
  }

  /** The head of a stable sort by index: the first entry with the least index. */
  function EarliestPos(cs: seq<Candidate>): (k: nat)
    requires cs != []
    ensures k < |cs|
    ensures forall j :: 0 <= j < |cs| ==> cs[k].index <= cs[j].index
    ensures forall j :: 0 <= j < k ==> cs[k].index < cs[j].index
  {
    if |cs| == 1 then 0
    else
      var k := EarliestPos(cs[1..]);
      if cs[0].index <= cs[1..][k].index then 0 else k + 1
  }

  /** `matches[0]` after the sort: the entry a step of `parseLatex` consumes, or None when `matches` is empty. */
  function FirstMatch(s: string): (r: Option<Candidate>)
    ensures r.Some? ==> Exec(s, r.value.kind.Pattern()) == Some(r.value.m) && r.value.index == r.value.m.start
  {
    var cs := CandidatesOf(s, KINDS);
    if cs == [] then None else Some(cs[EarliestPos(cs)])
  }

  /**
   * The entry the sort puts first starts no later than any other entry, and
   * among entries with the same index it is the one of least rank.
   */
  lemma HeadOfSortIsFirst(cs: seq<Candidate>, i: nat, e: Candidate)
    requires i < |cs| && e in cs
    requires forall j :: 0 <= j < |cs| ==> cs[i].index <= cs[j].index
    requires forall j :: 0 <= j < i ==> cs[i].index < cs[j].index
    requires forall a, b :: 0 <= a < b < |cs| ==> cs[a].kind.Rank() < cs[b].kind.Rank()
    ensures cs[i].index <= e.index && (e.index == cs[i].index ==> cs[i].kind.Rank() <= e.kind.Rank())
  {
    var j :| 0 <= j < |cs| && cs[j] == e;
    if e.index == cs[i].index && j < i {
      assert false;
    }
  }

  /** `matches` is empty exactly when no delimiter pair is complete. */
  lemma FirstMatchNoneIff(s: string)
    ensures FirstMatch(s).None? <==> NoDelimiterPair(s)
  {
    if CandidatesOf(s, KINDS) == [] {
      forall k: Kind, q: nat, n: nat ensures !IsMatchAt(s, k.Pattern(), q, n) {
        KindsInRankOrder(k);
        ExecIsLeftmostLazy(s, k.Pattern());
      }
    } else {
      var c := FirstMatch(s).value;
      ExecIsLeftmostLazy(s, c.kind.Pattern());
    }
  }

  /**
   * The consumed match starts no later than any match of any delimiter form,
   * and among the forms matching at that position it is the first in the
   * fixed order.
   */
  lemma FirstMatchPrecedes(s: string, k: Kind, q: nat, n: nat)
    requires FirstMatch(s).Some? && IsMatchAt(s, k.Pattern(), q, n)
    ensures FirstMatch(s).value.index <= q
    ensures q == FirstMatch(s).value.index ==> FirstMatch(s).value.kind.Rank() <= k.Rank()
  {
    var cs := CandidatesOf(s, KINDS);
    var i := EarliestPos(cs);
    KindsRankOrdered();
    KindsInRankOrder(k);
    ExecIsLeftmostLazy(s, k.Pattern());
    var m := Exec(s, k.Pattern()).value;
    HeadOfSortIsFirst(cs, i, Candidate(k, m, m.start));
  }

  /**
   * The match a step consumes: none exactly when no delimiter pair is
   * complete; otherwise a leftmost lazy match that starts no later than any
   * match of any delimiter, and among the delimiters that match at that
   * position the first in the fixed order.
   */
  lemma FirstMatchIsEarliest(s: string)
    ensures FirstMatch(s).None? <==> NoDelimiterPair(s)
    ensures FirstMatch(s).Some? ==> IsLeftmostLazy(s, FirstMatch(s).value.kind.Pattern(), FirstMatch(s).value.m)
    ensures FirstMatch(s).Some? ==> forall k: Kind, q: nat, n: nat :: IsMatchAt(s, k.Pattern(), q, n) ==>
              FirstMatch(s).value.index <= q
    ensures FirstMatch(s).Some? ==> forall k: Kind, n: nat :: IsMatchAt(s, k.Pattern(), FirstMatch(s).value.index, n) ==>
              FirstMatch(s).value.kind.Rank() <= k.Rank()
  {
    FirstMatchNoneIff(s);
    if FirstMatch(s).Some? {
      ExecIsLeftmostLazy(s, FirstMatch(s).value.kind.Pattern());
      forall k: Kind, q: nat, n: nat | IsMatchAt(s, k.Pattern(), q, n)
        ensures FirstMatch(s).value.index <= q
        ensures q == FirstMatch(s).value.index ==> FirstMatch(s).value.kind.Rank() <= k.Rank()
      {
        FirstMatchPrecedes(s, k, q, n);
      }
    }
  }

  /** The part one step emits for the match, and what is left to consume after it. */
  function Step(s: string, c: Candidate): (r: (seq<Part>, string))
    requires 0 <= c.index && c.index == c.m.start && c.index + MatchLength(c.kind.Pattern(), c.m) <= |s|
    ensures |r.1| <= |s| - MatchLength(c.kind.Pattern(), c.m)
  {
    var before := if c.index > 0 then [Text(s[..c.index])] else [];
    var math := Math(Trim(Group(s, c.kind.Pattern(), c.m)), c.kind.Display());
    (before + [math], s[c.index + MatchLength(c.kind.Pattern(), c.m)..])
  }

  /** The parts `parseLatex` emits for the text still to be consumed. */
  function Segments(s: string): seq<Part>
    decreases |s|
  {
    if s == "" then []
    else
      match FirstMatch(s)
      case None => [Text(s)]
      case Some(c) =>
        var (parts, rest) := Step(s, c);
        parts + Segments(rest)
  }

  /** One step of Segments when no delimiter pair is complete. */
  lemma SegmentsWithoutMatch(s: string)
    requires s != "" && FirstMatch(s).None?
    ensures Segments(s) == [Text(s)]
  {
  }

  /** One step of Segments when a delimiter pair is complete. */
  lemma SegmentsWithMatch(s: string, c: Candidate)
    requires s != "" && FirstMatch(s) == Some(c)
    ensures 0 <= c.index && c.index == c.m.start && c.index + MatchLength(c.kind.Pattern(), c.m) <= |s|
    ensures Segments(s) == Step(s, c).0 + Segments(Step(s, c).1)
  {
  }

  lemma ConcatAssoc<T>(a: seq<T>, b: seq<T>, c: seq<T>)
    ensures (a + b) + c == a + (b + c)
  {
  }

  lemma ConcatNil<T>(a: seq<T>)
    ensures a + [] == a
  {
  }

  /** `parseLatex(text)`. */
  method ParseLatex(text: string) returns (parts: seq<Part>)
    ensures text == "" ==> parts == []
    ensures parts == Segments(text)
  {
    if text == "" {
      return [];
    }
    parts := [];
    var remaining := text;
    while |remaining| > 0
      invariant parts + Segments(remaining) == Segments(text)
      decreases |remaining|
    {
      var firstMatch := FirstMatch(remaining);
      if firstMatch.None? {
        SegmentsWithoutMatch(remaining);
        if |remaining| > 0 {
          parts := parts + [Text(remaining)];
        }
        remaining := "";
        assert Segments(remaining) == [];
        ConcatNil(parts);
      } else {
        var c := firstMatch.value;
        SegmentsWithMatch(remaining, c);
        ghost var before := parts;
        ghost var step := Step(remaining, c);
        var math := Math(Trim(Group(remaining, c.kind.Pattern(), c.m)), c.kind.Display());
        if c.index > 0 {
          var text := Text(remaining[..c.index]);
          parts := parts + [text];
          parts := parts + [math];
          ConcatAssoc(before, [text], [math]);
        } else {
          parts := parts + [math];
          assert step.0 == [math];
        }
        remaining := remaining[c.index + MatchLength(c.kind.Pattern(), c.m)..];
        assert remaining == step.1;
        ConcatAssoc(before, step.0, Segments(step.1));
      }
    }
  }

  /** Every text part of ps is non-empty. */
  ghost predicate TextsNonEmpty(ps: seq<Part>) {
    forall p :: p in ps && p.Text? ==> p.content != ""
  }

  /** No text part of ps holds a complete delimiter pair. */
  ghost predicate TextsPlain(ps: seq<Part>) {
    forall p :: p in ps && p.Text? ==> NoDelimiterPair(p.content)
  }

  /** No two text parts of ps are adjacent. */
  ghost predicate NoAdjacentTexts(ps: seq<Part>) {
    forall j :: 0 <= j < |ps| - 1 ==> !(ps[j].Text? && ps[j + 1].Text?)
  }

  lemma NoAdjacentTextsAppend(a: seq<Part>, b: seq<Part>)
    requires NoAdjacentTexts(a) && NoAdjacentTexts(b) && (a == [] || a[|a| - 1].Math?)
    ensures NoAdjacentTexts(a + b)
  {
    forall j | 0 <= j < |a + b| - 1 ensures !((a + b)[j].Text? && (a + b)[j + 1].Text?) {
      if j >= |a| {
        assert (a + b)[j] == b[j - |a|] && (a + b)[j + 1] == b[j + 1 - |a|];
      } else if j < |a| - 1 {
        assert (a + b)[j] == a[j] && (a + b)[j + 1] == a[j + 1];
      }
    }
  }

  /** A text extends s[..index] only in s: a complete pair inside the text before the match would start earlier. */
  lemma TextBeforeMatchIsPlain(s: string)
    requires FirstMatch(s).Some?
    ensures NoDelimiterPair(s[..FirstMatch(s).value.index])
  {
    var c := FirstMatch(s).value;
    var t := s[..c.index];
    forall k: Kind, q: nat, n: nat | IsMatchAt(t, k.Pattern(), q, n) ensures false {
      MatchInPrefix(s, c.index, k.Pattern(), q, n);
      FirstMatchPrecedes(s, k, q, n);
    }
  }

  /** The parts one step emits satisfy all three properties, and end with the math part. */
  lemma StepParts(s: string, c: Candidate)
    requires FirstMatch(s) == Some(c)
    ensures 0 <= c.index && c.index == c.m.start && c.index + MatchLength(c.kind.Pattern(), c.m) <= |s|
    ensures var ps := Step(s, c).0;
            && TextsNonEmpty(ps) && TextsPlain(ps) && NoAdjacentTexts(ps) && ps[|ps| - 1].Math?
  {
    TextBeforeMatchIsPlain(s);
    var math := Math(Trim(Group(s, c.kind.Pattern(), c.m)), c.kind.Display());
    var before := s[..c.index];
    assert Step(s, c).0 == (if before != "" then [Text(before)] else []) + [math];
    TextThenMath(before, math);
  }

  lemma TextThenMath(t: string, math: Part)
    requires NoDelimiterPair(t) && math.Math?
    ensures var ps := (if t != "" then [Text(t)] else []) + [math];
            TextsNonEmpty(ps) && TextsPlain(ps) && NoAdjacentTexts(ps) && ps[|ps| - 1].Math?
  {
    if t != "" {
      assert ([Text(t)] + [math]) == [Text(t), math];
    } else {
      assert [] + [math] == [math];
    }
  }

  /**
   * What `parseLatex` returns has no empty text part, no text part holding a
   * complete delimiter pair (all math was split out), and no two adjacent
   * text parts (the text between two matches is emitted as one part).
   */
  lemma {:induction false} SegmentsWellFormed(s: string)
    ensures TextsNonEmpty(Segments(s))
    ensures TextsPlain(Segments(s))
    ensures NoAdjacentTexts(Segments(s))
    decreases |s|
  {
    if s != "" {
      match FirstMatch(s)
      case None =>
        SegmentsWithoutMatch(s);
        FirstMatchNoneIff(s);
      case Some(c) =>
        SegmentsWithMatch(s, c);
        StepParts(s, c);
        var (parts, rest) := Step(s, c);
        SegmentsWellFormed(rest);
        NoAdjacentTextsAppend(parts, Segments(rest));
    }
  }

  /** A non-empty text is returned whole, as one text part, exactly when it holds no complete delimiter pair. */
  lemma PlainTextIsOnePart(s: string)
    requires s != ""
    ensures Segments(s) == [Text(s)] <==> NoDelimiterPair(s)
  {
    FirstMatchNoneIff(s);
    if FirstMatch(s).Some? {
      var c := FirstMatch(s).value;
      SegmentsWithMatch(s, c);
      StepParts(s, c);
      var (parts, rest) := Step(s, c);
      assert Segments(s)[|parts| - 1] == parts[|parts| - 1];
    } else {
      SegmentsWithoutMatch(s);
    }
  }

  /**
   * The parts one step emits: the text before the match when there is any,
   * then the trimmed group as a math part, displayed exactly for the block
   * forms. An inline group holds no line terminator.
   */
  lemma FirstParts(s: string, c: Candidate)
    requires FirstMatch(s) == Some(c)
    ensures 0 <= c.index && c.index + MatchLength(c.kind.Pattern(), c.m) <= |s|
    ensures var i := if c.index > 0 then 1 else 0;
            && i < |Segments(s)|
            && Segments(s)[i] == Math(Trim(Group(s, c.kind.Pattern(), c.m)), c.kind.Display())
            && (c.index > 0 ==> Segments(s)[0] == Text(s[..c.index]))
    ensures var g := Group(s, c.kind.Pattern(), c.m);
            |g| >= 1 && (!c.kind.Display() ==> forall j :: 0 <= j < |g| ==> !IsLineTerminator(g[j]))
  {
    SegmentsWithMatch(s, c);
    var (parts, rest) := Step(s, c);
    assert Segments(s)[|parts| - 1] == parts[|parts| - 1];
    assert Segments(s)[0] == parts[0];
    ExecIsLeftmostLazy(s, c.kind.Pattern());
    GroupOfMatch(s, c.kind.Pattern(), c.m);
  }

  lemma TrimKeepsX()
    ensures Trim("x") == "x"
  {
    assert "x" == [] + "x" + [];
    TrimPadded([], "x", []);
  }

  lemma GroupOfDollarBlockX()
    ensures Group("$$x$$", DollarBlock.Pattern(), Match(0, 1)) == "x"
  {
    var g := Group("$$x$$", DollarBlock.Pattern(), Match(0, 1));
    assert |g| == 1 && g[0] == 'x';
  }

  /** In `$$x$$` both `$$` and `$` match at 0; the `$$` form is consumed. */
  lemma BlockWinsTieMatch()
    ensures FirstMatch("$$x$$") == Some(Candidate(DollarBlock, Match(0, 1), 0))
  {
    var s := "$$x$$";
    assert IsMatchAt(s, DollarBlock.Pattern(), 0, 1);
    FirstMatchNoneIff(s);
    var c := FirstMatch(s).value;
    FirstMatchPrecedes(s, DollarBlock, 0, 1);
    assert c.kind == DollarBlock;
    ExecIsLeftmostLazy(s, DollarBlock.Pattern());
  }

  /** `$$x$$` is one block math part, not inline math around `$x`. */
  lemma BlockWinsTie()
    ensures Segments("$$x$$") == [Math("x", true)]
  {
    var s := "$$x$$";
    BlockWinsTieMatch();
    var c := Candidate(DollarBlock, Match(0, 1), 0);
    SegmentsWithMatch(s, c);
    GroupOfDollarBlockX();
    TrimKeepsX();
    assert Step(s, c).1 == "";
  }

  /**
   * The block forms match across a line break and the inline forms do not:
   * `$$` and `\[` match around `a\nb`, while `$` and `\(` match there with
   * no group length.
   */
  lemma BlockSpansNewline()
    ensures IsMatchAt("$$a\nb$$", DollarBlock.Pattern(), 0, 3)
    ensures IsMatchAt("\\[a\nb\\]", ParenBlock.Pattern(), 0, 3)
    ensures forall n: nat :: !IsMatchAt("$a\nb$", DollarInline.Pattern(), 0, n)
    ensures forall n: nat :: !IsMatchAt("\\(a\nb\\)", ParenInline.Pattern(), 0, n)
  {
    GroupMaySpanLines(DollarBlock.Pattern(), "a\nb");
    assert "$$" + "a\nb" + "$$" == "$$a\nb$$";
    GroupMaySpanLines(ParenBlock.Pattern(), "a\nb");
    assert "\\[" + "a\nb" + "\\]" == "\\[a\nb\\]";
    var t := "$a\nb$";
    assert t[2] != "$"[0] && IsLineTerminator(t[2]);
    var u := "\\(a\nb\\)";
    assert u[3] != "\\)"[0] && IsLineTerminator(u[3]);
  }

  lemma TrimKeepsANewlineB()
    ensures Trim("a\nb") == "a\nb"
  {
    assert "a\nb" == [] + "a\nb" + [];
    TrimPadded([], "a\nb", []);
  }

  lemma GroupOfDollarBlockANewlineB()
    ensures Group("$$a\nb$$", DollarBlock.Pattern(), Match(0, 3)) == "a\nb"
  {
    var g := Group("$$a\nb$$", DollarBlock.Pattern(), Match(0, 3));
    assert |g| == 3 && g[0] == 'a' && g[1] == '\n' && g[2] == 'b';
  }

  /** In `$$a\nb$$` the `$$` form is consumed at 0, its group taking the whole `a\nb`. */
  lemma BlockSpansNewlineMatch()
    ensures FirstMatch("$$a\nb$$") == Some(Candidate(DollarBlock, Match(0, 3), 0))
  {
    var s := "$$a\nb$$";
    BlockSpansNewline();
    FirstMatchNoneIff(s);
    var c := FirstMatch(s).value;
    FirstMatchPrecedes(s, DollarBlock, 0, 3);
    assert c.kind == DollarBlock;
    ExecIsLeftmostLazy(s, DollarBlock.Pattern());
    NoShortBlockGroup();
    var gl := c.m.groupLength;
    assert c.m.start == 0 == c.index;
    assert IsMatchAt(s, DollarBlock.Pattern(), 0, 3);
    assert gl <= 3;
    assert gl != 1 && gl != 2;
    assert c.m == Match(0, 3);
  }

  lemma NoShortBlockGroup()
    ensures !IsMatchAt("$$a\nb$$", DollarBlock.Pattern(), 0, 1)
    ensures !IsMatchAt("$$a\nb$$", DollarBlock.Pattern(), 0, 2)
  {
    var s := "$$a\nb$$";
    assert s[3] != "$$"[0] && s[4] != "$$"[0];
  }

  /** `$$a\nb$$` is one block math part whose content keeps the line break. */
  lemma BlockSpansNewlineSegments()
    ensures Segments("$$a\nb$$") == [Math("a\nb", true)]
  {
    var s := "$$a\nb$$";
    BlockSpansNewlineMatch();
    var c := Candidate(DollarBlock, Match(0, 3), 0);
    SegmentsWithMatch(s, c);
    GroupOfDollarBlockANewlineB();
    TrimKeepsANewlineB();
    assert Step(s, c).1 == "";
  }

  // ---------------------------------------------------------------------
  // escapeHtml

  /** The replacement `escapeHtml` uses for one character. */
  function EscapeChar(c: char): string {
    match c
    case '&' => "&amp;"
    case '<' => "&lt;"
    case '>' => "&gt;"
    case '"' => "&quot;"
    case '\'' => "&#039;"
    case _ => [c]
  }

  /** The characters of the class `[&<>"']`. */
  predicate IsHtmlSpecial(c: char) {
    c == '&' || c == '<' || c == '>' || c == '"' || c == '\''
  }

  /** `escapeHtml(text)`: each special character replaced, everywhere (the `g` flag). */
  function EscapeHtml(text: string): (r: string)
    ensures |r| >= |text|
    ensures forall i :: 0 <= i < |r| ==> r[i] != '<' && r[i] != '>' && r[i] != '"' && r[i] != '\''
  {
    if text == [] then []
    else
      var r := EscapeChar(text[0]) + EscapeHtml(text[1..]);
      assert forall i :: |EscapeChar(text[0])| <= i < |r| ==> r[i] == EscapeHtml(text[1..])[i - |EscapeChar(text[0])|];
      r
  }

  /** The decoding of the five entities `escapeHtml` produces, the reference for its round trip. */
  function UnescapeHtml(r: string): string
    decreases |r|
  {
    if r == [] then []
    else if r[0] != '&' then [r[0]] + UnescapeHtml(r[1..])
    else if OccursAt(r, "&amp;", 0) then "&" + UnescapeHtml(r[5..])
    else if OccursAt(r, "&lt;", 0) then "<" + UnescapeHtml(r[4..])
    else if OccursAt(r, "&gt;", 0) then ">" + UnescapeHtml(r[4..])
    else if OccursAt(r, "&quot;", 0) then "\"" + UnescapeHtml(r[6..])
    else if OccursAt(r, "&#039;", 0) then "'" + UnescapeHtml(r[6..])
    else "&" + UnescapeHtml(r[1..])
  }

  /** An entity followed by t starts with the entity, and t is what follows it. */
  lemma EntityThen(e: string, t: string)
    ensures OccursAt(e + t, e, 0) && (e + t)[|e|..] == t
  {
  }

  /** The entity of a special character decodes back to it; the second character tells the entities apart. */
  lemma UnescapeEntity(c: char, t: string)
    requires IsHtmlSpecial(c)
    ensures UnescapeHtml(EscapeChar(c) + t) == [c] + UnescapeHtml(t)
  {
    var e := EscapeChar(c);
    EntityThen(e, t);
    assert (e + t)[0] == '&' && (e + t)[1] == e[1];
    assert forall w: string :: 2 <= |w| && w[1] != e[1] ==> !OccursAt(e + t, w, 0);
  }

  /** Each character's replacement decodes back to it, whatever follows. */
  lemma UnescapeChar(c: char, t: string)
    ensures UnescapeHtml(EscapeChar(c) + t) == [c] + UnescapeHtml(t)
  {
    if IsHtmlSpecial(c) {
      UnescapeEntity(c, t);
    } else {
      assert ([c] + t)[0] == c;
      assert ([c] + t)[1..] == t;
    }
  }

  /** Escaping loses nothing: decoding the entities gives the text back. */
  lemma {:induction false} UnescapeEscape(text: string)
    ensures UnescapeHtml(EscapeHtml(text)) == text
  {
    if text != [] {
      UnescapeChar(text[0], EscapeHtml(text[1..]));
      UnescapeEscape(text[1..]);
      assert [text[0]] + text[1..] == text;
    }
  }

  /** Text without special characters is left unchanged. */
  lemma {:induction false} EscapePlain(text: string)
    requires forall i :: 0 <= i < |text| ==> !IsHtmlSpecial(text[i])
    ensures EscapeHtml(text) == text
  {
    if text != [] {
      EscapePlain(text[1..]);
      assert [text[0]] + text[1..] == text;
    }
  }

  /** Escaping works character by character, so it distributes over concatenation. */
  lemma {:induction false} EscapeAppend(a: string, b: string)
    ensures EscapeHtml(a + b) == EscapeHtml(a) + EscapeHtml(b)
  {
    if a != [] {
      assert (a + b)[0] == a[0];
      assert (a + b)[1..] == a[1..] + b;
      EscapeAppend(a[1..], b);
      ConcatAssoc(EscapeChar(a[0]), EscapeHtml(a[1..]), EscapeHtml(b));
    } else {
      assert a + b == b;
    }
  }
}
