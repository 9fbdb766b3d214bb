/**
 * The description normaliser of the converter: the first quoted text of a
 * point line, without parenthesised asides and numeric ranges, trimmed.
 */
module Description {
  import opened Text
  import opened Matching

  /** Length of the run of non-quote characters at the start of `s` (a greedy `[^"]+`). */
  function QuoteFreeRun(s: string): (n: nat)
    ensures n <= |s| && '"' !in s[..n]
    ensures n < |s| ==> s[n] == '"'
  {
    if s != [] && s[0] != '"' then 1 + QuoteFreeRun(s[1..]) else 0
  }

  /**
   * `/"([^"]+)"/` at the start of `t`. `[^"]+` cannot take a `"`, so the
   * closing quote must be the first `"` after the opening one: the greedy run
   * is the only choice, and no backtracking can produce another match.
   */
  function QuotedLen(t: string): (n: nat)
    ensures n <= |t|
    ensures n > 0 ==> n >= 3 && t[0] == '"' && t[n - 1] == '"' && '"' !in t[1..n - 1]
  {
    if t != [] && t[0] == '"' then
      var k := QuoteFreeRun(t[1..]);
      if 0 < k && 1 + k < |t| then k + 2 else 0
    else 0
  }

  /** Quotes at `i` and `j` with a non-empty quote-free text between them. */
  predicate QuotedIn(line: string, i: nat, j: nat) {
    i + 1 < j < |line| && line[i] == '"' && line[j] == '"' && '"' !in line[i + 1..j]
  }

  /** Where a quote pair encloses non-empty quote-free text, the pattern matches exactly up to the closing quote. */
  lemma QuotedInMatches(line: string, i: nat, j: nat)
    requires QuotedIn(line, i, j)
    ensures MatchesAt(line, QuotedLen, i) && QuotedLen(line[i..]) == j - i + 1
  {
    var t := line[i..];
    var u := t[1..];
    assert u[..j - i - 1] == line[i + 1..j];
  }

  /** A match of the pattern is such a quote pair. */
  lemma MatchQuotedIn(line: string, i: nat)
    requires MatchesAt(line, QuotedLen, i)
    ensures QuotedIn(line, i, i + QuotedLen(line[i..]) - 1)
  {
    var t := line[i..];
    var n := QuotedLen(t);
    assert line[i + 1..i + n - 1] == t[1..n - 1];
  }

  /**
   * `line.match(/"([^"]+)"/)?.[1] || ""`: the text between the quotes of the
   * leftmost match, or "" when the line has no quoted, non-empty text.
   */
  function QuotedText(line: string): (d: string)
    ensures '"' !in d && multiset(d) <= multiset(line)
    ensures d == [] <==> NoMatch(line, QuotedLen)
  {
    match FindFirst(line, QuotedLen, 0)
    case None => []
    case Some(p) =>
      QuotedAt(line, p);
      line[p + 1..p + QuotedLen(line[p..]) - 1]
  }

  /** The text inside a match at `p`: non-empty, quote-free, made of characters of the line. */
  lemma QuotedAt(line: string, p: nat)
    requires MatchesAt(line, QuotedLen, p)
    ensures var n := QuotedLen(line[p..]);
            && 3 <= n && p + n <= |line|
            && line[p + 1..p + n - 1] != []
            && '"' !in line[p + 1..p + n - 1]
            && multiset(line[p + 1..p + n - 1]) <= multiset(line)
  {
    var t := line[p..];
    var n := QuotedLen(t);
    assert line[p + 1..p + n - 1] == t[1..n - 1];
    SliceMultiset(line, p + 1, p + n - 1);
  }

  /** The quoted text is what lies between the quotes of the leftmost match. */
  lemma QuotedTextAt(line: string, p: nat)
    requires LeftmostAt(line, QuotedLen, p)
    ensures QuotedText(line) == line[p + 1..p + QuotedLen(line[p..]) - 1]
  {
    FindLeftmost(line, QuotedLen, p);
  }

  /**
   * The quoted text read declaratively: it is empty exactly when no quote pair
   * encloses non-empty text, and otherwise it is the text of the leftmost pair.
   */
  lemma QuotedTextShape(line: string) returns (i: nat, j: nat)
    ensures QuotedText(line) == [] <==> forall i': nat, j': nat :: !QuotedIn(line, i', j')
    ensures QuotedText(line) != [] ==>
              && QuotedIn(line, i, j) && QuotedText(line) == line[i + 1..j]
              && forall i': nat, j': nat :: i' < i ==> !QuotedIn(line, i', j')
  {
    match FindFirst(line, QuotedLen, 0)
    case None =>
      i, j := 0, 0;
      forall i': nat, j': nat | QuotedIn(line, i', j') ensures false {
        QuotedInMatches(line, i', j');
      }
    case Some(p) =>
      i := p;
      j := p + QuotedLen(line[p..]) - 1;
      MatchQuotedIn(line, p);
      QuotedTextAt(line, p);
      forall i': nat, j': nat | i' < i && QuotedIn(line, i', j') ensures false {
        QuotedInMatches(line, i', j');
      }
  }

  /** The first `)` of `u` that `.*?` can reach: one with no line terminator before it. */
  function CloseParen(u: string): (r: Option<nat>)
    ensures r.Some? ==> r.value < |u| && u[r.value] == ')' && ')' !in u[..r.value] && NoLineTerminator(u[..r.value])
    ensures r.None? && NoLineTerminator(u) ==> ')' !in u
  {
    if u == [] then None
    else if u[0] == ')' then Some(0)
    else if IsLineTerminator(u[0]) then None
    else
      match CloseParen(u[1..])
      case None => None
      case Some(k) => Some(k + 1)
  }

  /** `/\s*\(.*?\)/` at the start of `t`: whitespace, `(`, then up to the nearest reachable `)`. */
  function AsideLen(t: string): (n: nat)
    ensures n <= |t|
  {
    var w := WhitespaceRun(t);
    if w < |t| && t[w] == '(' then
      match CloseParen(t[w + 1..])
      case None => 0
      case Some(k) => w + k + 2
    else 0
  }

  /**
   * Where `-?\d+(\.\d+)?` (with `sign` '-') or `\+?\d+(\.\d+)?` (with `sign`
   * '+') ends when tried at position `i` of `t` (`i` itself: no match),
   * taking the longest number it can. Inside the range
   * pattern this greedy reading is the only one that can succeed: the first
   * number is followed by `\s*to`, which cannot start with a digit or `.`,
   * and the second number ends the pattern, where the greedy choice is the
   * one tried first.
   */
  function NumberEnd(t: string, i: nat, sign: char): (j: nat)
    requires i <= |t|
    ensures i <= j <= |t|
  {
    var a := if i < |t| && t[i] == sign then i + 1 else i;
    var m := DigitEnd(t, a);
    if m == a then i
    else if m + 1 < |t| && t[m] == '.' && DigitEnd(t, m + 1) > m + 1 then DigitEnd(t, m + 1)
    else m
  }

  /**
   * `/\s+-?\d+(\.\d+)?\s*to\s*\+?\d+(\.\d+)?/i` at the start of `t`. Each
   * whitespace run is followed by a sign, a digit or `t`, none of which is
   * whitespace, so it must take the whole run; the optional sign must be
   * taken when present, since a digit has to follow; the numbers are read as
   * `NumberEnd` explains. The match is therefore the greedy one, or none.
   */
  function RangeLen(t: string): (n: nat)
    ensures n <= |t|
  {
    var w := WhitespaceEnd(t, 0);
    var e1 := NumberEnd(t, w, '-');
    if w == 0 || e1 == w then 0
    else
      var b := WhitespaceEnd(t, e1);
      if CaseInsensitiveAt(t[b..], "TO") then
        var c := WhitespaceEnd(t, b + 2);
        var e2 := NumberEnd(t, c, '+');
        if e2 == c then 0 else e2
      else 0
  }

  /**
   * `sign?\d+(\.\d+)?` read declaratively at `[i, j)` of `t`: an optional
   * sign, integer digits ending at `m`, then optionally `.` and more digits.
   */
  predicate NumberIn(t: string, i: nat, m: nat, j: nat, sign: char) {
    && i < m <= j <= |t|
    && (DigitsIn(t, i, m) || (t[i] == sign && i + 1 < m && DigitsIn(t, i + 1, m)))
    && (j == m || (m + 1 < j && t[m] == '.' && DigitsIn(t, m + 1, j)))
  }

  /** What `NumberEnd` takes is such a number. */
  lemma NumberEndIn(t: string, i: nat, sign: char) returns (m: nat)
    requires i <= |t| && (sign == '-' || sign == '+') && NumberEnd(t, i, sign) > i
    ensures NumberIn(t, i, m, NumberEnd(t, i, sign), sign)
  {
    var a := if i < |t| && t[i] == sign then i + 1 else i;
    m := DigitEnd(t, a);
  }

  /**
   * Such a number is matched by `NumberEnd`, which takes all of it when what
   * follows can neither extend the digits nor start a fraction.
   */
  lemma NumberInEnd(t: string, i: nat, m: nat, j: nat, sign: char)
    requires NumberIn(t, i, m, j, sign) && (sign == '-' || sign == '+')
    ensures NumberEnd(t, i, sign) > i
    ensures (j < |t| ==> !IsDigit(t[j]) && t[j] != '.') ==> NumberEnd(t, i, sign) == j
  {
    var a := if t[i] == sign then i + 1 else i;
    var d := DigitEnd(t, a);
    assert DigitsIn(t, a, m) && a < m;
    if j < |t| ==> !IsDigit(t[j]) && t[j] != '.' {
      if j > m {
        var f := DigitEnd(t, m + 1);
      }
    }
  }

  /** `NumberEnd` is greedy: it takes at least as much as any number starting at `i`. */
  lemma NumberEndMax(t: string, i: nat, m: nat, j: nat, sign: char)
    requires NumberIn(t, i, m, j, sign) && (sign == '-' || sign == '+')
    ensures j <= NumberEnd(t, i, sign)
  {
    var a := if t[i] == sign then i + 1 else i;
    var d := DigitEnd(t, a);
    assert DigitsIn(t, a, m) && a < m;
    if j > m {
      var f := DigitEnd(t, m + 1);
    }
  }

  /**
   * The range pattern read declaratively at the start of `t`: whitespace at
   * `[0, w)` (at least one), a number with an optional `-` at `[w, e1)`,
   * whitespace at `[e1, b)`, `to` in any case at `b`, whitespace at
   * `[b + 2, c)`, and a number with an optional `+` at `[c, e2)`.
   */
  predicate RangeShape(t: string, w: nat, m1: nat, e1: nat, b: nat, c: nat, m2: nat, e2: nat) {
    && 0 < w && WhitespaceIn(t, 0, w)
    && NumberIn(t, w, m1, e1, '-')
    && e1 <= b && WhitespaceIn(t, e1, b)
    && b + 2 <= c && CaseInsensitiveAt(t[b..], "TO")
    && WhitespaceIn(t, b + 2, c)
    && NumberIn(t, c, m2, e2, '+')
  }

  /** Where the greedy `\s*` from `i` stops, given the whitespace that runs from `i` to `j`. */
  lemma WhitespaceEndAt(t: string, i: nat, j: nat)
    requires i <= j && WhitespaceIn(t, i, j) && (j == |t| || !IsWhitespace(t[j]))
    ensures WhitespaceEnd(t, i) == j
  {
    var k := WhitespaceEnd(t, i);
  }

  /** A match of the range pattern has the declarative shape, and ends where its second number ends. */
  lemma RangeLenShape(t: string) returns (w: nat, m1: nat, e1: nat, b: nat, c: nat, m2: nat, e2: nat)
    requires RangeLen(t) > 0
    ensures RangeShape(t, w, m1, e1, b, c, m2, e2) && RangeLen(t) == e2
  {
    w := WhitespaceEnd(t, 0);
    e1 := NumberEnd(t, w, '-');
    b := WhitespaceEnd(t, e1);
    c := WhitespaceEnd(t, b + 2);
    e2 := NumberEnd(t, c, '+');
    m1 := NumberEndIn(t, w, '-');
    m2 := NumberEndIn(t, c, '+');
  }

  /**
   * Wherever the declarative shape holds at the start of `t`, the range
   * pattern matches there, and the match ends at `e2` when the character
   * after it can neither extend the second number nor start its fraction.
   */
  lemma RangeShapeMatches(t: string, w: nat, m1: nat, e1: nat, b: nat, c: nat, m2: nat, e2: nat)
    requires RangeShape(t, w, m1, e1, b, c, m2, e2)
    ensures RangeLen(t) > 0
    ensures RangeLen(t) >= e2
    ensures (e2 < |t| ==> !IsDigit(t[e2]) && t[e2] != '.') ==> RangeLen(t) == e2
  {
    ToAt(t, b);
    RangeHead(t, w, m1, e1, b);
    WhitespaceEndAt(t, b + 2, c);
    NumberInEnd(t, c, m2, e2, '+');
    NumberEndMax(t, c, m2, e2, '+');
    RangeLenFrom(t, w, e1, b, c, NumberEnd(t, c, '+'));
  }

  /** `TO` in any case starts with `t` or `T`. */
  lemma ToAt(t: string, b: nat)
    requires b <= |t| && CaseInsensitiveAt(t[b..], "TO")
    ensures b + 2 <= |t| && (t[b] == 't' || t[b] == 'T')
  {
    assert UpperChar(t[b..][0]) == 'T';
  }

  /** The range pattern's positions, each found where the previous one ended, give its length. */
  lemma RangeLenFrom(t: string, w: nat, e1: nat, b: nat, c: nat, e2: nat)
    requires 0 < w < e1 && WhitespaceEnd(t, 0) == w && NumberEnd(t, w, '-') == e1
    requires WhitespaceEnd(t, e1) == b && b <= |t| && CaseInsensitiveAt(t[b..], "TO")
    requires b + 2 <= |t| && WhitespaceEnd(t, b + 2) == c && c < e2 && NumberEnd(t, c, '+') == e2
    ensures RangeLen(t) == e2
  {
  }

  /** The leading whitespace, the first number and the whitespace after it are each taken whole. */
  lemma RangeHead(t: string, w: nat, m1: nat, e1: nat, b: nat)
    requires WhitespaceIn(t, 0, w) && NumberIn(t, w, m1, e1, '-')
    requires e1 <= b < |t| && WhitespaceIn(t, e1, b) && (t[b] == 't' || t[b] == 'T')
    ensures WhitespaceEnd(t, 0) == w && NumberEnd(t, w, '-') == e1 && WhitespaceEnd(t, e1) == b
  {
    WhitespaceEndAt(t, 0, w);
    NumberStop(t, e1, b);
    NumberInEnd(t, w, m1, e1, '-');
    WhitespaceEndAt(t, e1, b);
  }

  /** A whitespace run up to a non-whitespace character cannot go on as a number. */
  lemma NumberStop(t: string, e: nat, b: nat)
    requires e <= b < |t| && WhitespaceIn(t, e, b) && !IsWhitespace(t[b]) && !IsDigit(t[b]) && t[b] != '.'
    ensures e < |t| ==> !IsDigit(t[e]) && t[e] != '.'
  {
  }

  /** A `(` somewhere before a `)`: what `\(.*?\)` finds on a line without line breaks. */
  predicate HasAside(s: string) {
    exists i, j :: 0 <= i < j < |s| && s[i] == '(' && s[j] == ')'
  }

  /**
   * Deleting every aside from a description without line breaks leaves no `(`
   * with a `)` after it: each `(` that survives had no `)` anywhere after it.
   */
  lemma {:induction false} NoAsideLeft(s: string)
    requires NoLineTerminator(s)
    ensures !HasAside(DeleteAll(s, AsideLen))
  {
    if s != [] {
      if MatchesAt(s, AsideLen, 0) {
        assert s[0..] == s;
        var n := AsideLen(s);
        NoLineTerminatorSuffix(s, n);
        NoAsideLeft(s[n..]);
      } else {
        var t := s[1..];
        NoLineTerminatorSuffix(s, 1);
        NoAsideLeft(t);
        var rt := DeleteAll(t, AsideLen);
        assert s[0..] == s;
        assert DeleteAll(s, AsideLen) == [s[0]] + rt;
        if s[0] == '(' {
          assert WhitespaceRun(s) == 0;
          assert CloseParen(t).None?;
          assert multiset(t)[')'] == 0;
          DeleteAllChars(t, AsideLen);
          assert multiset(rt)[')'] == 0;
        }
        ConsNoAside(s[0], rt);
      }
    }
  }

  lemma ConsNoAside(c: char, rt: string)
    requires !HasAside(rt)
    requires c == '(' ==> ')' !in rt
    ensures !HasAside([c] + rt)
  {
    var r := [c] + rt;
    forall i, j | 0 <= i < j < |r| && r[i] == '(' ensures r[j] != ')' {
      assert r[j] == rt[j - 1];
      if i > 0 {
        assert rt[i - 1] == '(';
      }
    }
  }

  /**
   * The description of a point line: the quoted text, asides deleted, then
   * numeric ranges deleted, then trimmed. It only ever removes characters of
   * the line, holds no quote and does not start or end with whitespace.
   */
  function CleanDescription(line: string): (desc: string)
    ensures multiset(desc) <= multiset(line)
    ensures '"' !in desc
    ensures desc != [] ==> !IsWhitespace(desc[0]) && !IsWhitespace(desc[|desc| - 1])
  {
    var quoted := QuotedText(line);
    var noAsides := DeleteAll(quoted, AsideLen);
    var noRanges := DeleteAll(noAsides, RangeLen);
    var desc := Trim(noRanges);
    DeleteAllChars(quoted, AsideLen);
    DeleteAllChars(noAsides, RangeLen);
    TrimMultiset(noRanges);
    assert multiset(quoted)['"'] == 0;
    assert multiset(desc)['"'] == 0;
    desc
  }

  /** Deleting matches of any pattern cannot bring a `(` before a `)`. */
  lemma {:induction false} DeleteAllNoAside(s: string, len: string -> nat)
    requires !HasAside(s)
    ensures !HasAside(DeleteAll(s, len))
    decreases |s|
  {
    if s != [] {
      if MatchesAt(s, len, 0) {
        assert s[0..] == s;
        var n := len(s);
        SliceNoAside(s, n, |s|);
        assert s[n..|s|] == s[n..];
        DeleteAllNoAside(s[n..], len);
      } else {
        var t := s[1..];
        SliceNoAside(s, 1, |s|);
        assert s[1..|s|] == t;
        DeleteAllNoAside(t, len);
        var rt := DeleteAll(t, len);
        assert s[0..] == s;
        assert DeleteAll(s, len) == [s[0]] + rt;
        if s[0] == '(' {
          assert forall j :: 0 <= j < |t| ==> t[j] == s[j + 1];
          assert ')' !in t;
          assert multiset(t)[')'] == 0;
          DeleteAllChars(t, len);
          assert multiset(rt)[')'] == 0;
        }
        ConsNoAside(s[0], rt);
      }
    }
  }

  /** A slice of a string without an aside has none. */
  lemma SliceNoAside(s: string, i: nat, j: nat)
    requires i <= j <= |s| && !HasAside(s)
    ensures !HasAside(s[i..j])
  {
    var r := s[i..j];
    forall a, b | 0 <= a < b < |r| && r[a] == '(' ensures r[b] != ')' {
      assert r[a] == s[i + a] && r[b] == s[i + b];
    }
  }

  /**
   * On a point line without line breaks, the description holds no `(` with a
   * `)` after it: every parenthesised aside is gone, and deleting ranges and
   * trimming bring none back.
   */
  lemma DescriptionNoAside(line: string)
    requires NoLineTerminator(line)
    ensures !HasAside(CleanDescription(line))
  {
    var quoted := QuotedText(line);
    forall k | 0 <= k < |quoted| ensures !IsLineTerminator(quoted[k]) {
      assert quoted[k] in multiset(line);
    }
    NoAsideLeft(quoted);
    var noAsides := DeleteAll(quoted, AsideLen);
    DeleteAllNoAside(noAsides, RangeLen);
    var noRanges := DeleteAll(noAsides, RangeLen);
    var i := WhitespaceRun(noRanges);
    var r := Trim(noRanges);
    SliceNoAside(noRanges, i, i + |r|);
  }

  /** A line that is one quoted, quote-free text yields that text. */
  lemma QuotedWhole(q: string)
    requires q != [] && '"' !in q
    ensures QuotedText(['"'] + q + ['"']) == q
  {
    var line := ['"'] + q + ['"'];
    assert line[1..|q| + 1] == q;
    assert QuotedIn(line, 0, |q| + 1);
    var i, j := QuotedTextShape(line);
    assert i == 0;
  }

  /** The first `)` after a text without `)` and without line terminators. */
  lemma {:induction false} CloseParenAfter(x: string, y: string)
    requires ')' !in x && NoLineTerminator(x)
    ensures CloseParen(x + [')'] + y) == Some(|x|)
  {
    if x != [] {
      assert (x + [')'] + y)[1..] == x[1..] + [')'] + y;
      CloseParenAfter(x[1..], y);
    }
  }

  /**
   * Before a text without `(` that ends in a non-whitespace character, the
   * aside pattern cannot match.
   */
  lemma NoAsideBefore(a: string, b: string)
    requires '(' !in a && a != [] && !IsWhitespace(a[|a| - 1])
    ensures forall k :: 0 <= k < |a| ==> !MatchesAt(a + b, AsideLen, k)
  {
    var s := a + b;
    forall k | 0 <= k < |a| ensures AsideLen(s[k..]) == 0 {
      var t := s[k..];
      assert t[|a| - 1 - k] == a[|a| - 1];
      WhitespaceRunBefore(t, |a| - 1 - k);
      var w := WhitespaceRun(t);
      assert t[w] == a[k + w];
    }
  }

  /** Without a `(`, the aside pattern matches nowhere. */
  lemma NoParenNoAside(s: string)
    requires '(' !in s
    ensures NoMatch(s, AsideLen)
  {
    forall q | 0 <= q <= |s| ensures AsideLen(s[q..]) == 0 {
      var t := s[q..];
      var w := WhitespaceRun(t);
      if w < |t| {
        assert t[w] == s[q + w];
      }
    }
  }

  /**
   * Deleting asides from `a`, then ` (x)`, then `r`, where `x` has no `)`
   * and neither `a` nor `r` has a `(`, removes exactly the aside.
   */
  lemma DeleteOneAside(a: string, x: string, r: string)
    requires '(' !in a && a != [] && !IsWhitespace(a[|a| - 1])
    requires ')' !in x && NoLineTerminator(x) && '(' !in r
    ensures DeleteAll(a + (([' ', '('] + x + [')']) + r), AsideLen) == a + r
  {
    var p := [' ', '('] + x + [')'];
    var u := p + r;
    var s := a + u;
    AsideAt(x, r);
    NoAsideBefore(a, u);
    ThreeSlices(a, p, r);
    DeleteAllSplit(s, AsideLen, |a|, a, r);
    NoParenNoAside(r);
    DeleteAllUnchanged(r, AsideLen);
  }

  /** The three parts of `a + (p + r)`, recovered by slicing. */
  lemma ThreeSlices(a: string, p: string, r: string)
    ensures (a + (p + r))[|a|..] == p + r && (a + (p + r))[..|a|] == a
    ensures (a + (p + r))[|a| + |p|..] == r
  {
  }

  /** ` (x)` followed by anything is one aside, when `x` has no `)` and no line terminator. */
  lemma AsideAt(x: string, r: string)
    requires ')' !in x && NoLineTerminator(x)
    ensures AsideLen(([' ', '('] + x + [')']) + r) == |x| + 3
  {
    var u := ([' ', '('] + x + [')']) + r;
    ParenPieces(x, r);
    assert WhitespaceRun(u) == 1 by {
      assert u[1..][0] == '(';
    }
    CloseParenAfter(x, r);
  }

  lemma ParenPieces(x: string, r: string)
    ensures var u := ([' ', '('] + x + [')']) + r;
            |u| >= 2 && u[0] == ' ' && u[1] == '(' && u[2..] == x + [')'] + r
  {
  }

  /**
   * Before a text without digits and `-` that ends in a non-whitespace
   * character, the range pattern cannot match.
   */
  lemma NoRangeBefore(a: string, b: string)
    requires forall k :: 0 <= k < |a| ==> !IsDigit(a[k]) && a[k] != '-'
    requires a != [] && !IsWhitespace(a[|a| - 1])
    ensures forall k :: 0 <= k < |a| ==> !MatchesAt(a + b, RangeLen, k)
  {
    var s := a + b;
    forall k | 0 <= k < |a| ensures RangeLen(s[k..]) == 0 {
      var t := s[k..];
      assert t[|a| - 1 - k] == a[|a| - 1];
      var w := WhitespaceEnd(t, 0);
      assert w <= |a| - 1 - k;
      assert t[w] == a[k + w];
      assert DigitEnd(t, w) == w;
      assert NumberEnd(t, w, '-') == w;
    }
  }

  /** A text followed by one whole range keeps only the text. */
  lemma DeleteTrailingRange(a: string, r: string)
    requires forall k :: 0 <= k < |a| ==> !IsDigit(a[k]) && a[k] != '-'
    requires a != [] && !IsWhitespace(a[|a| - 1])
    requires RangeLen(r) == |r| > 0
    ensures DeleteAll(a + r, RangeLen) == a
  {
    var s := a + r;
    assert s[|a|..] == r;
    NoRangeBefore(a, r);
    DeleteAllLeftmost(s, RangeLen, |a|);
    assert s[..|a|] == a && s[|a| + |r|..] == [];
  }

  /** ` -10 to +10` is one whole range. */
  lemma RangeExample(r: string)
    requires r == " -10 to +10"
    ensures RangeLen(r) == |r|
  {
    assert r[5..][0] == 't' && r[5..][1] == 'o';
    assert RangeShape(r, 1, 4, 4, 5, 8, 11, 11);
    RangeShapeMatches(r, 1, 4, 4, 5, 8, 11, 11);
  }

  /**
   * In ` 1 to 2.5.` the second number takes the fraction `.5`; the final `.`,
   * with no digit after it, is left over.
   */
  lemma RangeFractionExample(t: string)
    requires t == " 1 to 2.5."
    ensures RangeLen(t) == 9
  {
    assert t[3..][0] == 't' && t[3..][1] == 'o';
    assert RangeShape(t, 1, 2, 2, 3, 6, 7, 9);
    RangeShapeMatches(t, 1, 2, 2, 3, 6, 7, 9);
    var w, m1, e1, b, c, m2, e2 := RangeLenShape(t);
  }

  /** `Elevation Angle` has no `(`, digit or `-`, and neither starts nor ends with whitespace. */
  lemma NameExample(a: string)
    requires a == "Elevation Angle"
    ensures '(' !in a && '"' !in a && a != [] && !IsWhitespace(a[0]) && !IsWhitespace(a[|a| - 1])
    ensures forall k :: 0 <= k < |a| ==> !IsDigit(a[k]) && a[k] != '-'
  {
  }

  /** `degrees` has no `)` and no line terminator, and ` -10 to +10` has no `(`. */
  lemma AsideExample(x: string, r: string)
    requires x == "degrees" && r == " -10 to +10"
    ensures ')' !in x && NoLineTerminator(x) && '(' !in r
    ensures '"' !in x && '"' !in r
  {
  }

  /**
   * A quoted name `a`, one aside ` (x)` and one trailing range `r` clean to
   * the name alone.
   */
  lemma CleanNameAsideRange(a: string, x: string, r: string, line: string)
    requires '(' !in a && a != [] && !IsWhitespace(a[0]) && !IsWhitespace(a[|a| - 1])
    requires forall k :: 0 <= k < |a| ==> !IsDigit(a[k]) && a[k] != '-'
    requires ')' !in x && NoLineTerminator(x) && '(' !in r && RangeLen(r) == |r| > 0
    requires '"' !in a && '"' !in x && '"' !in r
    requires line == "\"" + a + " (" + x + ")" + r + "\""
    ensures CleanDescription(line) == a
  {
    var q := a + (([' ', '('] + x + [')']) + r);
    assert line == ['"'] + q + ['"'];
    QuotedWhole(q);
    DeleteOneAside(a, x, r);
    DeleteTrailingRange(a, r);
    TrimIdentity(a);
  }

  /**
   * The asides and ranges of `"Elevation Angle (degrees) -10 to +10"` go; the
   * name stays.
   */
  lemma DescriptionExample(a: string, x: string, r: string, line: string)
    requires a == "Elevation Angle" && x == "degrees" && r == " -10 to +10"
    requires line == "\"" + a + " (" + x + ")" + r + "\""
    ensures CleanDescription(line) == "Elevation Angle"
  {
    NameExample(a);
    AsideExample(x, r);
    RangeExample(r);
    CleanNameAsideRange(a, x, r, line);
  }

  lemma TrimMultiset(s: string)
    ensures multiset(Trim(s)) <= multiset(s)
  {
    var i := WhitespaceRun(s);
    SliceMultiset(s, i, i + |Trim(s)|);
  }
}
