/**
 * `String.prototype.match` for the regular expressions of the form
 * `O(.+?)C` and `O([\s\S]+?)C`, with O and C literal strings: the leftmost
 * position where the expression matches, and there the shortest group.
 * `.` matches any character but a line terminator, `[\s\S]` any character.
 * Also `String.prototype.indexOf`.
 */
module JsRegex {
  import opened Wrappers
  import opened Js

  /** The regular expression `open(.+?)close`, or `open([\s\S]+?)close` when multiline. */
  datatype LazyPattern = LazyPattern(open: string, close: string, multiline: bool)

  /** A match: where it starts and how many characters the lazy group takes. */
  datatype Match = Match(start: nat, groupLength: nat)

  /** The length of the whole match text, `match[0]`. */
  function MatchLength(x: LazyPattern, m: Match): nat {
    |x.open| + m.groupLength + |x.close|
  }

  /**
   * The n characters of s from q on can form the group of x: they exist, and
   * unless the group is `[\s\S]` none of them is a line terminator.
   */
  ghost predicate GroupAt(s: string, x: LazyPattern, q: nat, n: nat) {
    q + n <= |s| && (!x.multiline ==> forall i :: q <= i < q + n ==> !IsLineTerminator(s[i]))
  }

  /** x matches s at position p with a group of n characters. */
  ghost predicate IsMatchAt(s: string, x: LazyPattern, p: nat, n: nat) {
    && 1 <= n
    && OccursAt(s, x.open, p)
    && GroupAt(s, x, p + |x.open|, n)
    && OccursAt(s, x.close, p + |x.open| + n)
  }

  /** x matches s nowhere in [a, b). */
  ghost predicate NoMatchIn(s: string, x: LazyPattern, a: nat, b: nat) {
    forall q: nat, n: nat :: a <= q < b ==> !IsMatchAt(s, x, q, n)
  }

  /** m is the match `s.match(x)` reports: the leftmost start, and there the shortest group. */
  ghost predicate IsLeftmostLazy(s: string, x: LazyPattern, m: Match) {
    && IsMatchAt(s, x, m.start, m.groupLength)
    && NoMatchIn(s, x, 0, m.start)
    && (forall n: nat :: n < m.groupLength ==> !IsMatchAt(s, x, m.start, n))
  }

  /**
   * The lazy group `+?` with the opening string at p: having tried groups of
   * fewer than n characters, the length of the first group of n or more
   * characters that the closing string follows. A group of `.` stops at the
   * first line terminator.
   */
  function ShortestClose(s: string, x: LazyPattern, p: nat, n: nat): (r: Option<nat>)
    requires 1 <= n
    ensures r.Some? ==> n <= r.value && p + |x.open| + r.value + |x.close| <= |s|
    decreases |s| - n
  {
    var q := p + |x.open|;
    if q + n + |x.close| > |s| then None
    else if !x.multiline && IsLineTerminator(s[q + n - 1]) then None
    else if OccursAt(s, x.close, q + n) then Some(n)
    else ShortestClose(s, x, p, n + 1)
  }

  /** The search from position p on: the first position with a match, and its lazy group. */
  function FindFrom(s: string, x: LazyPattern, p: nat): (r: Option<Match>)
    ensures r.Some? ==> p <= r.value.start && 1 <= r.value.groupLength
                        && r.value.start + MatchLength(x, r.value) <= |s|
    decreases |s| - p
  {
    if p + |x.open| >= |s| then None
    else if OccursAt(s, x.open, p) && ShortestClose(s, x, p, 1).Some? then
      Some(Match(p, ShortestClose(s, x, p, 1).value))
    else FindFrom(s, x, p + 1)
  }

  /** `s.match(x)`, `null` being None. */
  function Exec(s: string, x: LazyPattern): (r: Option<Match>)
    ensures r.Some? ==> 1 <= r.value.groupLength && r.value.start + MatchLength(x, r.value) <= |s|
  {
    FindFrom(s, x, 0)
  }

  /** ShortestClose implements the lazy group: what it returns is a match, and no length it skipped is one. */
  lemma {:induction false} ShortestCloseIsLazy(s: string, x: LazyPattern, p: nat, n: nat)
    requires 1 <= n && OccursAt(s, x.open, p) && GroupAt(s, x, p + |x.open|, n - 1)
    ensures ShortestClose(s, x, p, n).Some? ==> IsMatchAt(s, x, p, ShortestClose(s, x, p, n).value)
    ensures forall m: nat :: n <= m && (ShortestClose(s, x, p, n).None? || m < ShortestClose(s, x, p, n).value)
              ==> !IsMatchAt(s, x, p, m)
    decreases |s| - n
  {
    var q := p + |x.open|;
    var r := ShortestClose(s, x, p, n);
    if q + n + |x.close| > |s| {
      assert r == None;
    } else if !x.multiline && IsLineTerminator(s[q + n - 1]) {
      assert r == None;
    } else if OccursAt(s, x.close, q + n) {
      assert r == Some(n);
    } else {
      assert r == ShortestClose(s, x, p, n + 1);
      ShortestCloseIsLazy(s, x, p, n + 1);
    }
  }

  /** Where FindFrom fails at p, x does not match at p. */
  lemma NoMatchAtFailedStart(s: string, x: LazyPattern, p: nat)
    requires p + |x.open| >= |s| || !OccursAt(s, x.open, p) || ShortestClose(s, x, p, 1).None?
    ensures forall n: nat :: !IsMatchAt(s, x, p, n)
  {
    if p + |x.open| < |s| && OccursAt(s, x.open, p) {
      ShortestCloseIsLazy(s, x, p, 1);
    }
  }

  /** FindFrom finds the first position from p on where x matches, with the lazy group. */
  lemma {:induction false} FindFromIsLeftmost(s: string, x: LazyPattern, p: nat)
    ensures FindFrom(s, x, p).None? ==> NoMatchIn(s, x, p, |s| + 1)
    ensures FindFrom(s, x, p).Some? ==> NoMatchIn(s, x, p, FindFrom(s, x, p).value.start)
    ensures FindFrom(s, x, p).Some? ==>
              && IsMatchAt(s, x, FindFrom(s, x, p).value.start, FindFrom(s, x, p).value.groupLength)
              && forall n: nat :: n < FindFrom(s, x, p).value.groupLength ==>
                   !IsMatchAt(s, x, FindFrom(s, x, p).value.start, n)
    decreases |s| - p
  {
    if p + |x.open| < |s| && OccursAt(s, x.open, p) && ShortestClose(s, x, p, 1).Some? {
      ShortestCloseIsLazy(s, x, p, 1);
    } else {
      NoMatchAtFailedStart(s, x, p);
      if p + |x.open| < |s| {
        FindFromIsLeftmost(s, x, p + 1);
      }
    }
  }

  /** A match starts before the end of s. */
  lemma MatchStartsInside(s: string, x: LazyPattern, q: nat, n: nat)
    requires IsMatchAt(s, x, q, n)
    ensures q < |s|
  {
  }

  /** `s.match(x)` is null exactly when x matches nowhere, and otherwise the leftmost lazy match. */
  lemma ExecIsLeftmostLazy(s: string, x: LazyPattern)
    ensures Exec(s, x).Some? ==> IsLeftmostLazy(s, x, Exec(s, x).value)
    ensures Exec(s, x).None? <==> forall q: nat, n: nat :: !IsMatchAt(s, x, q, n)
  {
    FindFromIsLeftmost(s, x, 0);
    if Exec(s, x).None? {
      forall q: nat, n: nat ensures !IsMatchAt(s, x, q, n) {
        if IsMatchAt(s, x, q, n) {
          MatchStartsInside(s, x, q, n);
        }
      }
    }
  }

  /** `match[0]`. */
  function MatchText(s: string, x: LazyPattern, m: Match): string
    requires m.start + MatchLength(x, m) <= |s|
  {
    s[m.start..m.start + MatchLength(x, m)]
  }

  /** `match[1]`, the group. */
  function Group(s: string, x: LazyPattern, m: Match): string
    requires m.start + MatchLength(x, m) <= |s|
  {
    s[m.start + |x.open|..m.start + |x.open| + m.groupLength]
  }

  /** The group of a match is non-empty and, for a pattern without the multi-line group, holds no line terminator. */
  lemma GroupOfMatch(s: string, x: LazyPattern, m: Match)
    requires IsMatchAt(s, x, m.start, m.groupLength)
    ensures m.start + MatchLength(x, m) <= |s|
    ensures |Group(s, x, m)| == m.groupLength >= 1
    ensures !x.multiline ==> forall j :: 0 <= j < |Group(s, x, m)| ==> !IsLineTerminator(Group(s, x, m)[j])
  {
    var g := Group(s, x, m);
    forall j | 0 <= j < |g| ensures g[j] == s[m.start + |x.open| + j] {
    }
  }

  /**
   * Which groups may span lines: the opening string, a non-empty group g and
   * the closing string form a match exactly when the pattern has the
   * multi-line group or g holds no line terminator.
   */
  lemma GroupMaySpanLines(x: LazyPattern, g: string)
    requires |g| >= 1
    ensures IsMatchAt(x.open + g + x.close, x, 0, |g|) <==>
              x.multiline || forall j :: 0 <= j < |g| ==> !IsLineTerminator(g[j])
  {
    var s := x.open + g + x.close;
    var q := |x.open|;
    assert forall i :: 0 <= i < |x.open| ==> s[i] == x.open[i];
    assert forall i :: 0 <= i < |x.close| ==> s[q + |g| + i] == x.close[i];
    assert forall j :: 0 <= j < |g| ==> s[q + j] == g[j];
    if !x.multiline && GroupAt(s, x, q, |g|) {
      forall j | 0 <= j < |g| ensures !IsLineTerminator(g[j]) {
        assert s[q + j] == g[j];
      }
    }
  }

  /** `s.indexOf(t, i)`: the first position of t in s at or after i, or -1. */
  function IndexFrom(s: string, t: string, i: nat): (r: int)
    requires i <= |s|
    ensures r == -1 || (i <= r && OccursAt(s, t, r))
    ensures forall k: nat :: i <= k && (r == -1 || k < r) ==> !OccursAt(s, t, k)
    decreases |s| - i
  {
    if i + |t| > |s| then -1
    else if OccursAt(s, t, i) then i
    else IndexFrom(s, t, i + 1)
  }

  /** `s.indexOf(t)`. */
  function IndexOf(s: string, t: string): int {
    IndexFrom(s, t, 0)
  }

  /** A complete match in a prefix of s is a match in s. */
  lemma MatchInPrefix(s: string, k: nat, x: LazyPattern, q: nat, n: nat)
    requires k <= |s| && IsMatchAt(s[..k], x, q, n)
    ensures IsMatchAt(s, x, q, n)
  {
  }

  /** The text of a match at p, found again at r, is a match at r. */
  lemma MatchTextRepeats(s: string, x: LazyPattern, p: nat, r: nat, n: nat)
    requires IsMatchAt(s, x, p, n)
    requires OccursAt(s, s[p..p + |x.open| + n + |x.close|], r)
    ensures IsMatchAt(s, x, r, n)
  {
    var t := s[p..p + |x.open| + n + |x.close|];
    assert forall i :: 0 <= i < |t| ==> s[r + i] == t[i] == s[p + i];
    if !x.multiline {
      var a := |x.open|;
      forall j | r + a <= j < r + a + n ensures !IsLineTerminator(s[j]) {
        assert s[j] == t[j - r] == s[p + (j - r)];
      }
    }
  }

  /**
   * `s.indexOf(match[0])` is where x matched: the match text cannot occur any
   * earlier, or x would have matched there.
   */
  lemma IndexOfMatch(s: string, x: LazyPattern, m: Match)
    requires Exec(s, x) == Some(m)
    ensures IndexOf(s, MatchText(s, x, m)) == m.start
  {
    ExecIsLeftmostLazy(s, x);
    var t := MatchText(s, x, m);
    assert OccursAt(s, t, m.start);
    var r := IndexOf(s, t);
    if r < m.start {
      MatchTextRepeats(s, x, m.start, r, m.groupLength);
      assert false;
    }
  }
}
