/**
 * The point-name normaliser of the converter (`cleanName`): four regex
 * deletions that cut unit and unused markers off a raw name, then underscores
 * to spaces, trim, whitespace runs to `_`, and upper case.
 */
module PointName {
  import opened Text
  import opened Matching

  /** `/_IN_SECOND.*$/i` at the start of `t`: `.*$` runs to the end, so the match is all of `t`. */
  function InSecondLen(t: string): (n: nat)
    ensures n <= |t|
  {
    if CaseInsensitiveAt(t, "_IN_SECOND") && NoLineTerminator(t[10..]) then |t| else 0
  }

  /** `/_\d+_.*$/i` at the start of `t` (the greedy `\d+` must be followed by `_`). */
  function DigitBlockLen(t: string): (n: nat)
    ensures n <= |t|
  {
    if t != [] && t[0] == '_' then
      var d := DigitRun(t[1..]);
      if 0 < d && 1 + d < |t| && t[1 + d] == '_' && NoLineTerminator(t[2 + d..]) then |t| else 0
    else 0
  }

  /** `/_?\d+_?UNUSED/i` at the start of `t`: every optional part is taken when present. */
  function UnusedLen(t: string): (n: nat)
    ensures n <= |t|
  {
    var a := if t != [] && t[0] == '_' then 1 else 0;
    var d := DigitRun(t[a..]);
    var u := a + d + (if a + d < |t| && t[a + d] == '_' then 1 else 0);
    if 0 < d && CaseInsensitiveAt(t[u..], "UNUSED") then u + 6 else 0
  }

  /** `/TABLE/i` at the start of `t`. */
  function TableLen(t: string): (n: nat)
    ensures n <= |t|
  {
    if CaseInsensitiveAt(t, "TABLE") then 5 else 0
  }

  /*
   * Steps 1 and 2 replace a pattern ending in `.*$` by "": the match runs to the
   * end of the input, so deleting the leftmost match cuts the name there.
   */

  /** Step 1: the name is cut at the leftmost match of `/_IN_SECOND.*$/i`, if there is one. */
  function CutInSecond(s: string): (r: string)
    ensures |r| <= |s| && r == s[..|r|]
    ensures |r| < |s| ==> MatchesAt(s, InSecondLen, |r|)
    ensures forall q :: 0 <= q < |r| ==> !MatchesAt(s, InSecondLen, q)
  {
    match FindFirst(s, InSecondLen, 0)
    case None => s
    case Some(p) => s[..p]
  }

  /** Step 2: the name is cut at the leftmost match of `/_\d+_.*$/i`, if there is one. */
  function CutDigitBlock(s: string): (r: string)
    ensures |r| <= |s| && r == s[..|r|]
    ensures |r| < |s| ==> MatchesAt(s, DigitBlockLen, |r|)
    ensures forall q :: 0 <= q < |r| ==> !MatchesAt(s, DigitBlockLen, q)
  {
    match FindFirst(s, DigitBlockLen, 0)
    case None => s
    case Some(p) => s[..p]
  }

  /** Steps 1 to 4 only ever delete characters of the raw name. */
  lemma DeletionsKeepChars(raw: string)
    ensures multiset(DropTable(DropUnused(CutDigitBlock(CutInSecond(raw))))) <= multiset(raw)
  {
    var s1 := CutInSecond(raw);
    SliceMultiset(raw, 0, |s1|);
    var s2 := CutDigitBlock(s1);
    SliceMultiset(s1, 0, |s2|);
  }

  /** Step 3: the first `_?<digits>_?UNUSED` is deleted, and only that one. */
  function DropUnused(s: string): (r: string)
    ensures multiset(r) <= multiset(s)
    ensures NoMatch(s, UnusedLen) ==> r == s
    ensures forall p: nat :: LeftmostAt(s, UnusedLen, p) ==> r == s[..p] + s[p + UnusedLen(s[p..])..]
  {
    DeleteFirst(s, UnusedLen)
  }

  /** Step 4: the first `TABLE`, in any letter case, is deleted, and only that one. */
  function DropTable(s: string): (r: string)
    ensures multiset(r) <= multiset(s)
    ensures (forall q :: 0 <= q <= |s| ==> !CaseInsensitiveAt(s[q..], "TABLE")) ==> r == s
    ensures forall p :: 0 <= p <= |s| && CaseInsensitiveAt(s[p..], "TABLE")
                        && (forall q :: 0 <= q < p ==> !CaseInsensitiveAt(s[q..], "TABLE"))
                        ==> r == s[..p] + s[p + 5..]
  {
    DeleteFirst(s, TableLen)
  }

  /** Step 5: `.replace(/_/g, " ")`. */
  function UnderscoresToSpaces(s: string): string {
    seq(|s|, i requires 0 <= i < |s| => if s[i] == '_' then ' ' else s[i])
  }

  /** After step 5 and the trim of step 6 no `_` is left. */
  lemma SpacedHasNoUnderscore(s: string)
    ensures '_' !in Trim(UnderscoresToSpaces(s))
  {
    var spaced := UnderscoresToSpaces(s);
    var t := Trim(spaced);
    var i := WhitespaceRun(spaced);
    forall k | 0 <= k < |t| ensures t[k] != '_' {
      assert t[k] == spaced[i + k];
    }
  }

  /** Step 7: `.replace(/\s+/g, "_")`: every maximal whitespace run becomes one `_`. */
  function JoinWords(s: string): string
    decreases |s|
  {
    if s == [] then []
    else if IsWhitespace(s[0]) then "_" + JoinWords(s[WhitespaceRun(s)..])
    else [s[0]] + JoinWords(s[1..])
  }

  predicate NoDoubleUnderscore(s: string) {
    forall i :: 0 <= i < |s| - 1 ==> !(s[i] == '_' && s[i + 1] == '_')
  }

  /**
   * On a string without `_`, `JoinWords` leaves no whitespace and no `__`, and
   * starts (ends) with `_` exactly when the input starts (ends) with whitespace.
   */
  lemma {:induction false} JoinWordsShape(s: string)
    requires '_' !in s
    ensures var r := JoinWords(s);
            && (r == [] <==> s == [])
            && NoWhitespace(r)
            && NoDoubleUnderscore(r)
            && (r != [] ==> (r[0] == '_' <==> IsWhitespace(s[0])))
            && (r != [] ==> (r[|r| - 1] == '_' <==> IsWhitespace(s[|s| - 1])))
  {
    if s != [] {
      if IsWhitespace(s[0]) {
        var w := WhitespaceRun(s);
        var t := s[w..];
        assert forall c :: c in t ==> c in s;
        JoinWordsShape(t);
        var rt := JoinWords(t);
        assert JoinWords(s) == "_" + rt;
        if t == [] {
          assert IsWhitespace(s[|s| - 1]);
        } else {
          assert t[|t| - 1] == s[|s| - 1];
          assert !IsWhitespace(t[0]);
        }
      } else {
        var t := s[1..];
        assert forall c :: c in t ==> c in s;
        JoinWordsShape(t);
        var rt := JoinWords(t);
        assert JoinWords(s) == [s[0]] + rt;
        if t != [] {
          assert t[|t| - 1] == s[|s| - 1];
        }
      }
    }
  }

  /** Step 7 leaves a string without whitespace unchanged. */
  lemma {:induction false} JoinWordsKeeps(s: string)
    requires NoWhitespace(s)
    ensures JoinWords(s) == s
  {
    if s != [] {
      JoinWordsKeeps(s[1..]);
    }
  }

  /**
   * Step 7 turns one maximal whitespace run `w`, between a part `a` that does
   * not end in whitespace and a part `b` that does not start with it, into a
   * single `_`, and treats the parts on either side on their own. With
   * `JoinWordsKeeps` this fixes `JoinWords` on every input.
   */
  lemma {:induction false} JoinWordsRun(a: string, w: string, b: string)
    requires a == [] || !IsWhitespace(a[|a| - 1])
    requires w != [] && AllWhitespace(w)
    requires b == [] || !IsWhitespace(b[0])
    ensures JoinWords(a + w + b) == JoinWords(a) + "_" + JoinWords(b)
    decreases |a|
  {
    if a == [] {
      assert a + w + b == w + b;
      JoinWordsLead(w, b);
      assert JoinWords(a) == [];
    } else if IsWhitespace(a[0]) {
      var u, a2 := LeadingRun(a);
      JoinWordsRun(a2, w, b);
      JoinWordsRunSpace(u, a2, w, b);
    } else {
      var a2 := a[1..];
      assert a == [a[0]] + a2;
      assert a2 != [] ==> a2[|a2| - 1] == a[|a| - 1];
      JoinWordsRun(a2, w, b);
      JoinWordsRunChar(a[0], a2, w, b);
    }
  }

  /**
   * `JoinWordsRun` when `a` is a whitespace run `u` then `a2`: that run
   * becomes `_` first, and the rest is the case of `a2`.
   */
  lemma JoinWordsRunSpace(u: string, a2: string, w: string, b: string)
    requires u != [] && AllWhitespace(u)
    requires a2 != [] && !IsWhitespace(a2[0]) && !IsWhitespace(a2[|a2| - 1])
    requires w != [] && AllWhitespace(w)
    requires b == [] || !IsWhitespace(b[0])
    requires JoinWords(a2 + w + b) == JoinWords(a2) + "_" + JoinWords(b)
    ensures JoinWords(u + a2 + w + b) == JoinWords(u + a2) + "_" + JoinWords(b)
  {
    JoinWordsLead(u, a2);
    JoinWordsAfterLead(u, a2, w, b);
    UnderscoreAssoc(JoinWords(a2), JoinWords(b));
  }

  /** `JoinWordsLead` with the text after the run given in three parts. */
  lemma JoinWordsAfterLead(u: string, a2: string, w: string, b: string)
    requires u != [] && AllWhitespace(u) && a2 != [] && !IsWhitespace(a2[0])
    ensures JoinWords(u + a2 + w + b) == "_" + JoinWords(a2 + w + b)
  {
    assert u + a2 + w + b == u + (a2 + w + b);
    JoinWordsLead(u, a2 + w + b);
  }

  lemma UnderscoreAssoc(x: string, y: string)
    ensures "_" + (x + "_" + y) == ("_" + x) + "_" + y
  {
  }

  /** `JoinWordsRun` when `a` is a character `c` other than whitespace then `a2`: `c` is kept. */
  lemma JoinWordsRunChar(c: char, a2: string, w: string, b: string)
    requires !IsWhitespace(c)
    requires JoinWords(a2 + w + b) == JoinWords(a2) + "_" + JoinWords(b)
    ensures JoinWords([c] + a2 + w + b) == JoinWords([c] + a2) + "_" + JoinWords(b)
  {
    JoinWordsCons(c, a2);
    JoinWordsAfterChar(c, a2, w, b);
    CharAssoc(c, JoinWords(a2), JoinWords(b));
  }

  /** `JoinWordsCons` with the text after the character given in three parts. */
  lemma JoinWordsAfterChar(c: char, a2: string, w: string, b: string)
    requires !IsWhitespace(c)
    ensures JoinWords([c] + a2 + w + b) == [c] + JoinWords(a2 + w + b)
  {
    assert [c] + a2 + w + b == [c] + (a2 + w + b);
    JoinWordsCons(c, a2 + w + b);
  }

  lemma CharAssoc(c: char, x: string, y: string)
    ensures [c] + (x + "_" + y) == ([c] + x) + "_" + y
  {
  }

  /** A string that starts with whitespace but does not end with it, cut after its leading run. */
  lemma LeadingRun(a: string) returns (u: string, a2: string)
    requires a != [] && IsWhitespace(a[0]) && !IsWhitespace(a[|a| - 1])
    ensures a == u + a2 && u != [] && AllWhitespace(u)
    ensures a2 != [] && !IsWhitespace(a2[0]) && a2[|a2| - 1] == a[|a| - 1]
  {
    var v := WhitespaceRun(a);
    u, a2 := a[..v], a[v..];
    assert 0 < v < |a|;
  }

  /** `A  B` (what step 5 makes of `A__B`) becomes `A_B`. */
  lemma JoinWordsExample(s: string)
    requires s == "A  B"
    ensures JoinWords(s) == "A_B"
  {
    assert s == "A" + "  " + "B";
    JoinWordsRun("A", "  ", "B");
    JoinWordsKeeps("A");
    JoinWordsKeeps("B");
  }

  /** A whole whitespace run `u` in front of `t` becomes one `_`. */
  lemma JoinWordsLead(u: string, t: string)
    requires u != [] && AllWhitespace(u) && (t == [] || !IsWhitespace(t[0]))
    ensures JoinWords(u + t) == "_" + JoinWords(t)
  {
    var s := u + t;
    assert s[..|u|] == u && s[|u|..] == t;
    WhitespaceRunExact(s, |u|);
  }

  /** A character other than whitespace in front of `t` is kept. */
  lemma JoinWordsCons(c: char, t: string)
    requires !IsWhitespace(c)
    ensures JoinWords([c] + t) == [c] + JoinWords(t)
  {
    assert ([c] + t)[1..] == t;
  }

  /** Step 7 writes only `_` and characters of its input. */
  lemma {:induction false} JoinWordsChars(s: string)
    ensures forall c :: c in JoinWords(s) ==> c == '_' || c in s
  {
    if s != [] {
      var t := if IsWhitespace(s[0]) then s[WhitespaceRun(s)..] else s[1..];
      JoinWordsChars(t);
      assert forall c :: c in t ==> c in s;
    }
  }

  /** Upper-casing ASCII letters never creates or removes whitespace or `_`. */
  lemma UpperKeepsShape(s: string)
    ensures |Upper(s)| == |s|
    ensures forall i :: 0 <= i < |s| ==> (Upper(s)[i] == '_' <==> s[i] == '_')
    ensures forall i :: 0 <= i < |s| ==> (IsWhitespace(Upper(s)[i]) <==> IsWhitespace(s[i]))
    ensures forall i :: 0 <= i < |s| ==> !IsAsciiLower(Upper(s)[i])
  {
  }

  /**
   * Steps 5 to 8 turn what the deletions left into an identifier: no
   * whitespace, no `_` at either end, no `__`, no lower-case ASCII letter.
   */
  function Identifier(s: string): (name: string)
    ensures NoWhitespace(name)
    ensures name != [] ==> name[0] != '_' && name[|name| - 1] != '_'
    ensures NoDoubleUnderscore(name)
    ensures forall i :: 0 <= i < |name| ==> !IsAsciiLower(name[i])
  {
    var trimmed := Trim(UnderscoresToSpaces(s));
    SpacedHasNoUnderscore(s);
    JoinWordsShape(trimmed);
    var joined := JoinWords(trimmed);
    UpperKeepsShape(joined);
    Upper(joined)
  }

  /**
   * `cleanName`: the four deletions in their source order, then steps 5 to 8.
   * Whatever the raw name, the result has the shape of an identifier.
   */
  function CleanName(raw: string): (name: string)
    ensures NoWhitespace(name)
    ensures name != [] ==> name[0] != '_' && name[|name| - 1] != '_'
    ensures NoDoubleUnderscore(name)
    ensures forall i :: 0 <= i < |name| ==> !IsAsciiLower(name[i])
  {
    Identifier(DropTable(DropUnused(CutDigitBlock(CutInSecond(raw)))))
  }

  /** Steps 5 and 6 write only spaces and characters of their input. */
  lemma SpacedChars(s: string)
    ensures forall c :: c in Trim(UnderscoresToSpaces(s)) ==> c == ' ' || c in s
  {
    var spaced := UnderscoresToSpaces(s);
    var t := Trim(spaced);
    var i := WhitespaceRun(spaced);
    forall k | 0 <= k < |t| && t[k] != ' ' ensures t[k] in s {
      assert t[k] == spaced[i + k] == s[i + k];
    }
  }

  /** Steps 5 to 7 write only `_` and characters of their input. */
  lemma JoinedChars(s: string)
    ensures forall c :: c in JoinWords(Trim(UnderscoresToSpaces(s))) ==> c == '_' || c in s
  {
    var trimmed := Trim(UnderscoresToSpaces(s));
    SpacedChars(s);
    SpacedHasNoUnderscore(s);
    JoinWordsShape(trimmed);
    JoinWordsChars(trimmed);
  }

  /** Steps 5 to 8 write only `_` and characters of their input, upper-cased. */
  lemma IdentifierChars(s: string)
    ensures forall c :: c in Identifier(s) ==> c == '_' || c in Upper(s)
  {
    var joined := JoinWords(Trim(UnderscoresToSpaces(s)));
    JoinedChars(s);
    forall k | 0 <= k < |joined| && joined[k] != '_' ensures UpperChar(joined[k]) in Upper(s) {
      assert joined[k] in joined;
      var n :| 0 <= n < |s| && s[n] == joined[k];
      assert Upper(s)[n] == UpperChar(joined[k]);
    }
    assert Identifier(s) == Upper(joined);
  }

  /** Upper-casing keeps the inclusion of characters. */
  lemma UpperChars(s: string, raw: string)
    requires multiset(s) <= multiset(raw)
    ensures forall c :: c in Upper(s) ==> c in Upper(raw)
  {
    forall k | 0 <= k < |s| ensures UpperChar(s[k]) in Upper(raw) {
      assert multiset(raw)[s[k]] > 0;
      var n :| 0 <= n < |raw| && raw[n] == s[k];
      assert Upper(raw)[n] == UpperChar(s[k]);
    }
  }

  /**
   * The name holds nothing but `_` and characters of the raw name, upper-cased:
   * a character the raw name lacks (such as the `:` field separator) never
   * appears in it.
   */
  lemma CleanNameChars(raw: string)
    ensures forall c :: c in CleanName(raw) ==> c == '_' || c in Upper(raw)
  {
    var s := DropTable(DropUnused(CutDigitBlock(CutInSecond(raw))));
    DeletionsKeepChars(raw);
    IdentifierChars(s);
    UpperChars(s, raw);
  }

  // ----- names already in canonical form -----

  /** Without `_`, neither cut of steps 1 and 2 can match. */
  lemma NoUnderscoreNoCut(s: string)
    requires '_' !in s
    ensures NoMatch(s, InSecondLen) && NoMatch(s, DigitBlockLen)
  {
    forall q | 0 <= q <= |s| ensures !MatchesAt(s, InSecondLen, q) && !MatchesAt(s, DigitBlockLen, q) {
      var t := s[q..];
      if t != [] {
        assert t[0] == s[q];
        assert UpperChar(t[0]) != '_';
      }
    }
  }

  /** Without digits, step 3 cannot match. */
  lemma NoDigitNoUnused(s: string)
    requires forall i :: 0 <= i < |s| ==> !IsDigit(s[i])
    ensures NoMatch(s, UnusedLen)
  {
    forall q | 0 <= q <= |s| ensures !MatchesAt(s, UnusedLen, q) {
      var t := s[q..];
      var a := if t != [] && t[0] == '_' then 1 else 0;
      if a < |t| {
        assert t[a..][0] == s[q + a];
      }
    }
  }

  /** Step 5 then step 7 restore a name that has no whitespace and no `__`. */
  lemma {:induction false} JoinWordsRestores(s: string)
    requires NoWhitespace(s) && NoDoubleUnderscore(s)
    ensures JoinWords(UnderscoresToSpaces(s)) == s
  {
    if s != [] {
      var u := UnderscoresToSpaces(s);
      var rest := s[1..];
      assert NoWhitespace(rest) && NoDoubleUnderscore(rest) by {
        assert forall i :: 0 <= i < |rest| ==> rest[i] == s[i + 1];
      }
      JoinWordsRestores(rest);
      assert u[1..] == UnderscoresToSpaces(rest);
      if s[0] == '_' {
        assert u[0] == ' ';
        if |s| > 1 {
          assert s[1] != '_' && !IsWhitespace(s[1]);
          assert !IsWhitespace(u[1]);
        }
        assert WhitespaceRun(u) == 1;
      }
      assert s == [s[0]] + rest;
    }
  }

  /** Steps 5 to 8 leave a name that already has the shape of an identifier unchanged. */
  lemma IdentifierFixpoint(s: string)
    requires NoWhitespace(s) && NoDoubleUnderscore(s)
    requires s != [] ==> s[0] != '_' && s[|s| - 1] != '_'
    requires forall i :: 0 <= i < |s| ==> !IsAsciiLower(s[i])
    ensures Identifier(s) == s
  {
    var u := UnderscoresToSpaces(s);
    TrimIdentity(u);
    JoinWordsRestores(s);
    assert Upper(s) == s;
  }

  /**
   * A name in canonical form is a fixed point of `cleanName`: when none of
   * the four deletion patterns matches anywhere in it and it already has the
   * shape of an identifier, cleaning returns it unchanged.
   */
  lemma CleanNameFixpoint(s: string)
    requires NoMatch(s, InSecondLen) && NoMatch(s, DigitBlockLen)
    requires NoMatch(s, UnusedLen) && NoMatch(s, TableLen)
    requires NoWhitespace(s) && NoDoubleUnderscore(s)
    requires s != [] ==> s[0] != '_' && s[|s| - 1] != '_'
    requires forall i :: 0 <= i < |s| ==> !IsAsciiLower(s[i])
    ensures CleanName(s) == s
  {
    assert CutInSecond(s) == s;
    assert CutDigitBlock(s) == s;
    assert DropUnused(s) == s;
    assert DropTable(s) == s by {
      forall q | 0 <= q <= |s| ensures !CaseInsensitiveAt(s[q..], "TABLE") {
        assert !MatchesAt(s, TableLen, q);
      }
    }
    IdentifierFixpoint(s);
  }

  /** Without `_` and digits only step 4 and steps 5 to 8 can change a name. */
  lemma PlainCleanName(s: string)
    requires '_' !in s && forall i :: 0 <= i < |s| ==> !IsDigit(s[i])
    ensures CleanName(s) == Identifier(DropTable(s))
  {
    NoUnderscoreNoCut(s);
    NoDigitNoUnused(s);
    assert CutInSecond(s) == s && CutDigitBlock(s) == s && DropUnused(s) == s;
  }

  /** A name that starts with `TABLE` loses exactly those five letters in step 4. */
  lemma LeadingTable(s: string)
    requires CaseInsensitiveAt(s, "TABLE")
    ensures DropTable(s) == s[5..]
  {
    assert s[0..] == s;
  }

  /** A name that is a single `TABLE` in any letter case cleans to nothing. */
  lemma TableVanishes(t: string)
    requires |t| == 5 && CaseInsensitiveAt(t, "TABLE")
    ensures CleanName(t) == []
  {
    assert '_' !in t && forall i :: 0 <= i < |t| ==> !IsDigit(t[i]) by {
      forall i | 0 <= i < |t| ensures t[i] != '_' && !IsDigit(t[i]) {
        assert UpperChar(t[i]) == "TABLE"[i];
      }
    }
    PlainCleanName(t);
    LeadingTable(t);
    assert t[5..] == [];
    IdentifierFixpoint([]);
  }

  /** Doubling a `TABLE` of any letter case adds nothing that the first four steps keep. */
  lemma DoubledTableDrop(t: string)
    requires |t| == 5 && CaseInsensitiveAt(t, "TABLE")
    ensures CleanName(t + t) == Identifier(t)
  {
    var s := t + t;
    assert '_' !in s && forall i :: 0 <= i < |s| ==> !IsDigit(s[i]) by {
      forall i | 0 <= i < |s| ensures s[i] != '_' && !IsDigit(s[i]) {
        assert UpperChar(s[i]) == "TABLE"[i % 5];
      }
    }
    PlainCleanName(s);
    assert CaseInsensitiveAt(s, "TABLE") by {
      assert forall i :: 0 <= i < 5 ==> s[i] == t[i];
    }
    LeadingTable(s);
    assert s[5..] == t;
  }

  /** An upper-case `TABLE` already has the shape of an identifier. */
  lemma TableIdentifier(t: string)
    requires |t| == 5 && CaseInsensitiveAt(t, "TABLE")
    requires forall i :: 0 <= i < |t| ==> !IsAsciiLower(t[i])
    ensures Identifier(t) == t
  {
    assert NoWhitespace(t) && NoDoubleUnderscore(t) && t[0] != '_' && t[4] != '_' by {
      forall i | 0 <= i < |t| ensures t[i] != '_' && !IsWhitespace(t[i]) {
        assert UpperChar(t[i]) == "TABLE"[i];
      }
    }
    IdentifierFixpoint(t);
  }

  /** `TABLETABLE` cleans to `TABLE`: only the first occurrence is deleted. */
  lemma TableTwice(t: string)
    requires |t| == 5 && CaseInsensitiveAt(t, "TABLE")
    requires forall i :: 0 <= i < |t| ==> !IsAsciiLower(t[i])
    ensures CleanName(t + t) == t
  {
    DoubledTableDrop(t);
    TableIdentifier(t);
  }

  /**
   * Cleaning is not idempotent in general: `TABLETABLE` loses its first
   * `TABLE` and becomes `TABLE`, which a second pass deletes entirely.
   */
  lemma CleanNameNotIdempotent(t: string)
    requires t == "TABLE"
    ensures CleanName(t + t) == t
    ensures CleanName(CleanName(t + t)) == []
  {
    TableTwice(t);
    TableVanishes(t);
  }
}
