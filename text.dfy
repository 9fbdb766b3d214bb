/**
 * Character classes and string primitives of JavaScript that the point-table
 * converter relies on: `\d`, `\s`, `.`, `trim`, ASCII case conversion,
 * `startsWith`, `includes`, `split` and `join` with a one-character separator.
 */
module Text {

  datatype Option<+T> = None | Some(value: T)

  /** `\d`: the ten ASCII digits. */
  predicate IsDigit(c: char) { '0' <= c <= '9' }

  /** LineTerminator of ECMAScript: the characters `.` refuses to match. */
  predicate IsLineTerminator(c: char) {
    c == '\n' || c == '\r' || c == '\U{2028}' || c == '\U{2029}'
  }

  /** `\s` and the characters `trim` strips: WhiteSpace and LineTerminator of ECMAScript. */
  predicate IsWhitespace(c: char) {
    || c == '\t' || c == '\n' || c == '\U{000B}' || c == '\U{000C}' || c == '\r' || c == ' '
    || c == '\U{00A0}' || c == '\U{1680}' || ('\U{2000}' <= c <= '\U{200A}')
    || c == '\U{2028}' || c == '\U{2029}' || c == '\U{202F}' || c == '\U{205F}'
    || c == '\U{3000}' || c == '\U{FEFF}'
  }

  predicate IsAsciiLower(c: char) { 'a' <= c <= 'z' }
  predicate IsAsciiUpper(c: char) { 'A' <= c <= 'Z' }

  function UpperChar(c: char): (r: char)
    ensures IsAsciiLower(c) ==> IsAsciiUpper(r) && r as int == c as int - 32
    ensures !IsAsciiLower(c) ==> r == c
  {
    if IsAsciiLower(c) then (c as int - 32) as char else c
  }

  function LowerChar(c: char): (r: char)
    ensures IsAsciiUpper(c) ==> IsAsciiLower(r) && r as int == c as int + 32
    ensures !IsAsciiUpper(c) ==> r == c
  {
    if IsAsciiUpper(c) then (c as int + 32) as char else c
  }

  /** `toUpperCase`, restricted to ASCII letters. */
  function Upper(s: string): string {
    seq(|s|, i requires 0 <= i < |s| => UpperChar(s[i]))
  }

  /** `toLowerCase`, restricted to ASCII letters. */
  function Lower(s: string): string {
    seq(|s|, i requires 0 <= i < |s| => LowerChar(s[i]))
  }

  predicate AllDigits(s: string) { forall i :: 0 <= i < |s| ==> IsDigit(s[i]) }
  predicate AllWhitespace(s: string) { forall i :: 0 <= i < |s| ==> IsWhitespace(s[i]) }
  predicate NoWhitespace(s: string) { forall i :: 0 <= i < |s| ==> !IsWhitespace(s[i]) }
  predicate NoLineTerminator(s: string) { forall i :: 0 <= i < |s| ==> !IsLineTerminator(s[i]) }

  /** `t` equals the upper-case ASCII literal `lit` under the `/i` flag. */
  predicate CaseInsensitiveAt(t: string, lit: string) {
    |lit| <= |t| && forall i :: 0 <= i < |lit| ==> UpperChar(t[i]) == lit[i]
  }

  predicate StartsWith(s: string, prefix: string) {
    |prefix| <= |s| && s[..|prefix|] == prefix
  }

  /** `String.prototype.includes`. */
  predicate Contains(s: string, sub: string) {
    exists i :: 0 <= i <= |s| - |sub| && OccursAt(s, sub, i)
  }

  predicate OccursAt(s: string, sub: string, i: nat) {
    i + |sub| <= |s| && s[i..i + |sub|] == sub
  }

  /** Length of the run of digits at the start of `s` (what a greedy `\d+` consumes). */
  function DigitRun(s: string): (n: nat)
    ensures n <= |s| && AllDigits(s[..n])
    ensures n < |s| ==> !IsDigit(s[n])
  {
    if s != [] && IsDigit(s[0]) then 1 + DigitRun(s[1..]) else 0
  }

  /** Length of the run of whitespace at the start of `s` (what a greedy `\s*` consumes). */
  function WhitespaceRun(s: string): (n: nat)
    ensures n <= |s| && AllWhitespace(s[..n])
    ensures n < |s| ==> !IsWhitespace(s[n])
  {
    if s != [] && IsWhitespace(s[0]) then 1 + WhitespaceRun(s[1..]) else 0
  }

  /** The whitespace run stops at or before any non-whitespace character. */
  lemma WhitespaceRunBefore(s: string, j: nat)
    requires j < |s| && !IsWhitespace(s[j])
    ensures WhitespaceRun(s) <= j
  {
    var n := WhitespaceRun(s);
    assert forall i :: 0 <= i < n ==> s[..n][i] == s[i];
  }

  /** Length of the run at the start of `s` that a greedy `.*` consumes. */
  function DotRun(s: string): (n: nat)
    ensures n <= |s| && NoLineTerminator(s[..n])
    ensures n < |s| ==> IsLineTerminator(s[n])
  {
    if s != [] && !IsLineTerminator(s[0]) then 1 + DotRun(s[1..]) else 0
  }

  /** Positions `[i, j)` of `t` hold whitespace. */
  predicate WhitespaceIn(t: string, i: nat, j: nat) {
    j <= |t| && forall k :: i <= k < j ==> IsWhitespace(t[k])
  }

  /** The greedy `\s*` run from position `i` of `t`, in positions of `t`. */
  lemma WhitespaceFrom(t: string, i: nat, w: nat)
    requires i <= |t| && w == i + WhitespaceRun(t[i..])
    ensures WhitespaceIn(t, i, w) && (w < |t| ==> !IsWhitespace(t[w]))
  {
    forall k | i <= k < w ensures IsWhitespace(t[k]) {
      assert t[k] == t[i..][..w - i][k - i];
    }
    if w < |t| {
      assert t[w] == t[i..][w - i];
    }
  }

  /** Where whitespace runs from `i` exactly to `w`, the greedy `\s*` from `i` stops at `w`. */
  lemma WhitespaceRunFrom(t: string, i: nat, w: nat)
    requires i <= w && WhitespaceIn(t, i, w) && (w == |t| || !IsWhitespace(t[w]))
    ensures i + WhitespaceRun(t[i..]) == w
  {
    var s := t[i..];
    var run := s[..w - i];
    forall k | 0 <= k < |run| ensures IsWhitespace(run[k]) {
      assert run[k] == t[i + k];
    }
    assert w < |t| ==> s[w - i] == t[w];
    WhitespaceRunExact(s, w - i);
  }
  /** Where the greedy `\s*` tried at position `i` of `t` stops. */
  function WhitespaceEnd(t: string, i: nat): (j: nat)
    requires i <= |t|
    decreases |t| - i
    ensures i <= j <= |t| && WhitespaceIn(t, i, j) && (j < |t| ==> !IsWhitespace(t[j]))
  {
    if i < |t| && IsWhitespace(t[i]) then WhitespaceEnd(t, i + 1) else i
  }

  /** Where the greedy `\d*` tried at position `i` of `t` stops. */
  function DigitEnd(t: string, i: nat): (j: nat)
    requires i <= |t|
    decreases |t| - i
    ensures i <= j <= |t| && DigitsIn(t, i, j) && (j < |t| ==> !IsDigit(t[j]))
  {
    if i < |t| && IsDigit(t[i]) then DigitEnd(t, i + 1) else i
  }

  /** Positions `[i, j)` of `t` hold digits. */
  predicate DigitsIn(t: string, i: nat, j: nat) {
    j <= |t| && forall k :: i <= k < j ==> IsDigit(t[k])
  }

  /** The greedy `\d+` run from position `i` of `t`, in positions of `t`. */
  lemma DigitsFrom(t: string, i: nat, d: nat)
    requires i <= |t| && d == i + DigitRun(t[i..])
    ensures DigitsIn(t, i, d) && (d < |t| ==> !IsDigit(t[d]))
  {
    forall k | i <= k < d ensures IsDigit(t[k]) {
      assert t[k] == t[i..][..d - i][k - i];
    }
    if d < |t| {
      assert t[d] == t[i..][d - i];
    }
  }

  /** Where digits run from `i` exactly to `d`, the greedy `\d+` from `i` stops at `d`. */
  lemma DigitRunFrom(t: string, i: nat, d: nat)
    requires i <= d && DigitsIn(t, i, d) && (d == |t| || !IsDigit(t[d]))
    ensures i + DigitRun(t[i..]) == d
  {
    var s := t[i..];
    var run := s[..d - i];
    forall k | 0 <= k < |run| ensures IsDigit(run[k]) {
      assert run[k] == t[i + k];
    }
    assert d < |t| ==> s[d - i] == t[d];
    DigitRunExact(s, d - i);
  }


  /** Trailing part of `trim`: drops the whitespace at the end. */
  function TrimEnd(s: string): (r: string)
    ensures |r| <= |s| && r == s[..|r|]
    ensures AllWhitespace(s[|r|..])
    ensures r != [] ==> !IsWhitespace(r[|r| - 1])
  {
    if s != [] && IsWhitespace(s[|s| - 1]) then TrimEnd(s[..|s| - 1]) else s
  }

  /** `String.prototype.trim`: the slice of `s` left after dropping whitespace at both ends. */
  function Trim(s: string): (r: string)
    ensures var i := WhitespaceRun(s);
            i + |r| <= |s| && r == s[i..i + |r|] && AllWhitespace(s[i + |r|..])
    ensures r != [] ==> !IsWhitespace(r[0]) && !IsWhitespace(r[|r| - 1])
  {
    var i := WhitespaceRun(s);
    var t := s[i..];
    var r := TrimEnd(t);
    assert r == t[..|r|] == s[i..i + |r|];
    assert s[i + |r|..] == t[|r|..];
    assert r != [] ==> r[0] == s[i];
    r
  }

  /** Trimming changes nothing when neither end is whitespace. */
  lemma TrimIdentity(s: string)
    requires s == [] || (!IsWhitespace(s[0]) && !IsWhitespace(s[|s| - 1]))
    ensures Trim(s) == s
  {
  }

  /** `String.prototype.split` with a one-character separator: the pieces between separators. */
  function Split(s: string, sep: char): (r: seq<string>)
    ensures |r| > 0
  {
    if s == [] then [[]]
    else
      var rest := Split(s[1..], sep);
      if s[0] == sep then [[]] + rest else [[s[0]] + rest[0]] + rest[1..]
  }

  /** `Array.prototype.join` with a one-character separator. */
  function Join(ss: seq<string>, sep: char): string
  {
    if ss == [] then []
    else if |ss| == 1 then ss[0]
    else ss[0] + [sep] + Join(ss[1..], sep)
  }

  /** Joining the pieces of a split gives back the original string. */
  lemma {:induction false} JoinSplit(s: string, sep: char)
    ensures Join(Split(s, sep), sep) == s
  {
    if s != [] {
      var rest := Split(s[1..], sep);
      JoinSplit(s[1..], sep);
      if s[0] == sep {
        assert Split(s, sep) == [[]] + rest;
      } else {
        var r := Split(s, sep);
        assert r == [[s[0]] + rest[0]] + rest[1..];
        if |rest| == 1 {
          assert Join(rest, sep) == rest[0];
        } else {
          assert Join(rest, sep) == rest[0] + [sep] + Join(rest[1..], sep);
          assert r[1..] == rest[1..];
        }
      }
    }
  }

  /** No piece of a split contains the separator, and every character of a piece occurs in the input. */
  lemma {:induction false} SplitPieces(s: string, sep: char)
    ensures forall i :: 0 <= i < |Split(s, sep)| ==> sep !in Split(s, sep)[i]
    ensures forall i, c :: 0 <= i < |Split(s, sep)| && c in Split(s, sep)[i] ==> c in s
  {
    if s != [] {
      SplitPieces(s[1..], sep);
      var rest := Split(s[1..], sep);
      assert forall c :: c in s[1..] ==> c in s;
      if s[0] != sep {
        var r := Split(s, sep);
        assert forall i :: 1 <= i < |r| ==> r[i] == rest[i];
        assert forall c :: c in r[0] ==> c == s[0] || c in rest[0];
      }
    }
  }

  /** Splitting a join whose parts hold no separator gives back the parts. */
  lemma {:induction false} SplitJoin(ss: seq<string>, sep: char)
    requires |ss| > 0
    requires forall i :: 0 <= i < |ss| ==> sep !in ss[i]
    ensures Split(Join(ss, sep), sep) == ss
  {
    if |ss| == 1 {
      SplitNoSeparator(ss[0], sep);
    } else {
      SplitJoin(ss[1..], sep);
      SplitAppend(ss[0], Join(ss[1..], sep), sep);
      assert [ss[0]] + ss[1..] == ss;
    }
  }

  /** A string without the separator splits into itself. */
  lemma {:induction false} SplitNoSeparator(s: string, sep: char)
    requires sep !in s
    ensures Split(s, sep) == [s]
  {
    if s != [] {
      SplitNoSeparator(s[1..], sep);
      assert [s[0]] + s[1..] == s;
    }
  }

  /** Splitting `a + sep + b`, where `a` has no separator, puts `a` first. */
  lemma {:induction false} SplitAppend(a: string, b: string, sep: char)
    requires sep !in a
    ensures Split(a + [sep] + b, sep) == [a] + Split(b, sep)
  {
    if a == [] {
      assert a + [sep] + b == [sep] + b;
      assert ([sep] + b)[1..] == b;
    } else {
      assert (a + [sep] + b)[1..] == a[1..] + [sep] + b;
      SplitAppend(a[1..], b, sep);
      assert [a[0]] + a[1..] == a;
    }
  }

  /** A slice holds no character more often than the whole. */
  lemma SliceMultiset(s: string, i: nat, j: nat)
    requires i <= j <= |s|
    ensures multiset(s[i..j]) <= multiset(s)
  {
    assert s == s[..i] + s[i..j] + s[j..];
  }

  lemma NoLineTerminatorSuffix(s: string, n: nat)
    requires n <= |s| && NoLineTerminator(s)
    ensures NoLineTerminator(s[n..])
  {
    forall i | 0 <= i < |s| - n ensures !IsLineTerminator(s[n..][i]) {
      assert s[n..][i] == s[n + i];
    }
  }

  /** A greedy `\d+` stops exactly at the first non-digit. */
  lemma {:induction false} DigitRunExact(s: string, n: nat)
    requires n <= |s| && AllDigits(s[..n]) && (n == |s| || !IsDigit(s[n]))
    ensures DigitRun(s) == n
  {
    if n > 0 {
      assert s[..n][0] == s[0];
      assert s[1..][..n - 1] == s[1..n];
      assert forall i :: 0 <= i < n - 1 ==> s[1..n][i] == s[..n][i + 1];
      DigitRunExact(s[1..], n - 1);
    }
  }

  /** A greedy `\s*` stops exactly at the first non-whitespace character. */
  lemma {:induction false} WhitespaceRunExact(s: string, n: nat)
    requires n <= |s| && AllWhitespace(s[..n]) && (n == |s| || !IsWhitespace(s[n]))
    ensures WhitespaceRun(s) == n
  {
    if n > 0 {
      assert s[..n][0] == s[0];
      assert s[1..][..n - 1] == s[1..n];
      assert forall i :: 0 <= i < n - 1 ==> s[1..n][i] == s[..n][i + 1];
      WhitespaceRunExact(s[1..], n - 1);
    }
  }

  /** Six colon-free fields, each followed by a colon, split off first. */
  lemma SplitSix(a: string, b: string, c: string, d: string, e: string, f: string, q: string)
    requires ':' !in a && ':' !in b && ':' !in c && ':' !in d && ':' !in e && ':' !in f
    ensures var r := Split(a + [':'] + (b + [':'] + (c + [':'] + (d + [':'] + (e + [':'] + (f + [':'] + q))))), ':');
            |r| > 6 && r[..6] == [a, b, c, d, e, f]
  {
    var r5 := f + [':'] + q;
    var r4 := e + [':'] + r5;
    var r3 := d + [':'] + r4;
    var r2 := c + [':'] + r3;
    var r1 := b + [':'] + r2;
    SplitAppend(a, r1, ':');
    SplitAppend(b, r2, ':');
    SplitAppend(c, r3, ':');
    SplitAppend(d, r4, ':');
    SplitAppend(e, r5, ':');
    SplitAppend(f, q, ':');
  }
}
