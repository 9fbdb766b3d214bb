/**
 * The three ways the converter applies a regular expression: a leftmost search
 * (`exec`), `replace(re, "")` without the `g` flag, and `replace(re, "")` with it.
 *
 * A pattern is given by its match length at the START of a string (0: no match
 * there). Every pattern of the converter is anchored only by `$` (end of input),
 * so whether it matches at position p of s depends on s[p..] alone.
 */
module Matching {
  import opened Text

  /** The pattern has a (non-empty) match beginning at position `p` of `s`. */
  predicate MatchesAt(s: string, len: string -> nat, p: nat) {
    p <= |s| && 0 < len(s[p..]) <= |s| - p
  }

  /** Matches at `p` and nowhere before: where a regex scan stops. */
  predicate LeftmostAt(s: string, len: string -> nat, p: nat) {
    MatchesAt(s, len, p) && forall q :: 0 <= q < p ==> !MatchesAt(s, len, q)
  }

  predicate NoMatch(s: string, len: string -> nat) {
    forall q :: 0 <= q <= |s| ==> !MatchesAt(s, len, q)
  }

  /** The scan a regex performs from `from`: the first position where the pattern matches. */
  function FindFirst(s: string, len: string -> nat, from: nat): (r: Option<nat>)
    requires from <= |s|
    decreases |s| - from
    ensures r.Some? ==> from <= r.value <= |s| && MatchesAt(s, len, r.value)
    ensures r.Some? ==> forall q :: from <= q < r.value ==> !MatchesAt(s, len, q)
    ensures r.None? ==> forall q :: from <= q <= |s| ==> !MatchesAt(s, len, q)
  {
    if MatchesAt(s, len, from) then Some(from)
    else if from == |s| then None
    else FindFirst(s, len, from + 1)
  }

  /** The scan stops at the leftmost match and nowhere else. */
  lemma FindLeftmost(s: string, len: string -> nat, p: nat)
    requires LeftmostAt(s, len, p)
    ensures FindFirst(s, len, 0) == Some(p)
  {
    var r := FindFirst(s, len, 0);
    assert r.Some?;
  }

  /** `s.replace(re, "")` without `g`: the leftmost match is deleted, nothing else changes. */
  function DeleteFirst(s: string, len: string -> nat): (r: string)
    ensures NoMatch(s, len) ==> r == s
    ensures forall p: nat :: LeftmostAt(s, len, p) ==> r == s[..p] + s[p + len(s[p..])..]
    ensures multiset(r) <= multiset(s)
  {
    match FindFirst(s, len, 0)
    case None => s
    case Some(p) =>
      assert forall p': nat :: LeftmostAt(s, len, p') ==> p' == p;
      var n := len(s[p..]);
      assert s == s[..p] + s[p..p + n] + s[p + n..];
      s[..p] + s[p + n..]
  }

  /** A global deletion whose leftmost match sits between `a` and `r` keeps `a` and goes on in `r`. */
  lemma DeleteAllSplit(s: string, len: string -> nat, p: nat, a: string, r: string)
    requires LeftmostAt(s, len, p) && s[..p] == a && s[p + len(s[p..])..] == r
    ensures DeleteAll(s, len) == a + DeleteAll(r, len)
  {
    DeleteAllLeftmost(s, len, p);
  }

  /** Positions of `s[1..]` are those of `s` shifted by one. */
  lemma ShiftMatches(s: string, len: string -> nat)
    requires s != []
    ensures forall q :: 0 <= q <= |s| - 1 ==> (MatchesAt(s[1..], len, q) <==> MatchesAt(s, len, q + 1))
  {
    forall q | 0 <= q <= |s| - 1
      ensures MatchesAt(s[1..], len, q) <==> MatchesAt(s, len, q + 1)
    {
      assert s[1..][q..] == s[q + 1..];
    }
  }

  /**
   * `s.replace(re, "")` with `g`: scanning left to right, every match found is
   * deleted and the scan resumes right after it. It only ever deletes characters.
   */
  function DeleteAll(s: string, len: string -> nat): string
    decreases |s|
  {
    if s == [] then []
    else if MatchesAt(s, len, 0) then DeleteAll(s[len(s)..], len)
    else [s[0]] + DeleteAll(s[1..], len)
  }

  /** A global deletion only ever removes characters. */
  lemma {:induction false} DeleteAllChars(s: string, len: string -> nat)
    decreases |s|
    ensures multiset(DeleteAll(s, len)) <= multiset(s)
  {
    if s != [] {
      if MatchesAt(s, len, 0) {
        var n := len(s);
        DeleteAllChars(s[n..], len);
        assert s == s[..n] + s[n..];
      } else {
        DeleteAllChars(s[1..], len);
        assert s == [s[0]] + s[1..];
      }
    }
  }

  /** `DeleteAll` changes the string exactly when the pattern matches somewhere in it. */
  lemma {:induction false} DeleteAllUnchanged(s: string, len: string -> nat)
    ensures |DeleteAll(s, len)| <= |s|
    ensures NoMatch(s, len) <==> DeleteAll(s, len) == s
  {
    if s != [] {
      if MatchesAt(s, len, 0) {
        DeleteAllUnchanged(s[len(s)..], len);
      } else {
        DeleteAllUnchanged(s[1..], len);
        ShiftMatches(s, len);
        assert s[0..] == s;
        assert NoMatch(s, len) <==> NoMatch(s[1..], len) by {
          if NoMatch(s[1..], len) {
            forall q | 0 <= q <= |s| ensures !MatchesAt(s, len, q) {
              if q > 0 { assert !MatchesAt(s[1..], len, q - 1); }
            }
          }
        }
        assert DeleteAll(s, len) == [s[0]] + DeleteAll(s[1..], len);
        assert s == [s[0]] + s[1..];
      }
    }
  }

  /** A leftmost match after position 0 is the leftmost match of `s[1..]`, one position earlier. */
  lemma LeftmostShift(s: string, len: string -> nat, p: nat)
    requires LeftmostAt(s, len, p) && p > 0
    ensures LeftmostAt(s[1..], len, p - 1)
  {
    ShiftMatches(s, len);
    forall q | 0 <= q < p - 1 ensures !MatchesAt(s[1..], len, q) {
      assert !MatchesAt(s, len, q + 1);
    }
  }

  /** Slicing facts for stepping from `s` to `s[1..]`, kept apart from the recursive functions. */
  lemma TailSlices(s: string, p: nat, n: nat)
    requires 0 < p && p + n <= |s|
    ensures s[1..][p - 1..] == s[p..]
    ensures s[1..][p - 1 + n..] == s[p + n..]
    ensures forall x: string {:trigger s[..p] + x} :: [s[0]] + (s[1..][..p - 1] + x) == s[..p] + x
  {
    var u := s[1..][..p - 1];
    assert forall i :: 0 <= i < p - 1 ==> u[i] == s[i + 1];
    assert s[..p] == [s[0]] + u;
  }

  /** The scan of `DeleteAll` seen from the first match: what precedes it is kept. */
  lemma {:induction false} DeleteAllLeftmost(s: string, len: string -> nat, p: nat)
    requires LeftmostAt(s, len, p)
    ensures DeleteAll(s, len) == s[..p] + DeleteAll(s[p + len(s[p..])..], len)
  {
    assert s[0..] == s;
    if p > 0 {
      assert !MatchesAt(s, len, 0);
      assert DeleteAll(s, len) == [s[0]] + DeleteAll(s[1..], len);
      LeftmostShift(s, len, p);
      DeleteAllLeftmost(s[1..], len, p - 1);
      TailSlices(s, p, len(s[p..]));
    }
  }
}
