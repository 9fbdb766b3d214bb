/**
 * The value-to-label event map that the converter builds from the
 * documentation lines: the matcher for one line, the key order of a
 * JavaScript object, and the object itself as a class.
 */
module EventMap {
  import opened Text
  import opened Matching

  /** One `[value, caption]` pair of the map. */
  datatype Entry = Entry(value: string, caption: string)

  /** The two capture groups of a match and the length of the whole match. */
  datatype Capture = Capture(digits: string, rest: string, end: nat)

  /** The largest position in `[lo, |t|)` that holds no line terminator. */
  function LastNonTerminator(t: string, lo: nat): (r: Option<nat>)
    decreases |t|
    ensures r.Some? ==> lo <= r.value < |t| && !IsLineTerminator(t[r.value])
    ensures r.Some? ==> forall k :: r.value < k < |t| ==> IsLineTerminator(t[k])
    ensures r.None? ==> forall k :: lo <= k < |t| ==> IsLineTerminator(t[k])
  {
    if |t| <= lo then None
    else if !IsLineTerminator(t[|t| - 1]) then Some(|t| - 1)
    else
      var r := LastNonTerminator(t[..|t| - 1], lo);
      assert forall k :: lo <= k < |t| - 1 ==> t[..|t| - 1][k] == t[k];
      r
  }

  /**
   * `/(\d+)\s*[:=]\s*(.+)/i` at the start of `t`. The greedy `\d+` and the
   * first `\s*` can only succeed by taking everything they can. The second
   * `\s*` gives characters back when nothing but whitespace follows the
   * separator: `.+` then starts at the last of them that is not a line
   * terminator.
   */
  function EventAt(t: string): (r: Option<Capture>)
    ensures r.Some? ==> 0 < r.value.end <= |t|
  {
    var d := DigitRun(t);
    var c := SeparatorAt(t);
    if d == 0 || c == |t| || (t[c] != ':' && t[c] != '=') then None
    else
      match RestStart(t, c)
      case None => None
      case Some(k) =>
        var group := DotsFrom(t, k);
        Some(Capture(t[..d], group, k + |group|))
  }

  /** Where the separator must stand: after the digits and the whitespace that follows them. */
  function SeparatorAt(t: string): (c: nat)
    ensures DigitRun(t) <= c <= |t|
  {
    DigitRun(t) + WhitespaceRun(t[DigitRun(t)..])
  }

  /**
   * Where `(.+)` starts after the separator at `c`: after the greedy `\s*`
   * when something follows it, otherwise at the last character `.` accepts.
   */
  function RestStart(t: string, c: nat): (r: Option<nat>)
    requires c < |t|
    ensures r.Some? ==> c < r.value < |t|
  {
    var w := c + 1 + WhitespaceRun(t[c + 1..]);
    if w < |t| then Some(w) else LastNonTerminator(t, c + 1)
  }

  /** What a greedy `.+` from `k` takes: everything up to the first line terminator. */
  function DotsFrom(t: string, k: nat): (g: string)
    requires k <= |t|
    ensures k + |g| <= |t| && NoLineTerminator(g)
    ensures forall i :: 0 <= i < |g| ==> g[i] == t[k + i]
    ensures k + |g| < |t| ==> IsLineTerminator(t[k + |g|])
  {
    var n := DotRun(t[k..]);
    assert t[k..][..n] == t[k..k + n];
    t[k..k + n]
  }

  /** The same pattern as a match length (0: no match at the start of `t`). */
  function EventLen(t: string): (n: nat)
    ensures n <= |t|
  {
    match EventAt(t)
    case None => 0
    case Some(c) => c.end
  }

  /** Upper-cases the first character and keeps the rest. */
  function Capitalize(s: string): string {
    if s == [] then [] else [UpperChar(s[0])] + s[1..]
  }

  /**
   * What one documentation line contributes to the map: the leftmost match of
   * the pattern gives the value (its digits, trimmed) and the caption (the
   * rest, trimmed, first letter upper-cased); no match, no entry.
   */
  function DocEntry(line: string): Option<Entry> {
    match FindFirst(line, EventLen, 0)
    case None => None
    case Some(p) => Some(EntryOf(EventAt(line[p..]).value))
  }

  /** The entry of a match: the digits trimmed, the rest trimmed and capitalised. */
  function EntryOf(c: Capture): Entry {
    Entry(Trim(c.digits), Capitalize(Trim(c.rest)))
  }

  /**
   * The pattern read declaratively, at the start of `t`: digits at `[0, b)`,
   * whitespace at `[b, c)`, `:` or `=` at `c`, whitespace at `(c, e)`, and at
   * `e` a character that `.` matches.
   */
  predicate EventShape(t: string, b: nat, c: nat, e: nat) {
    && 0 < b <= c < e < |t|
    && AllDigits(t[..b]) && WhitespaceIn(t, b, c)
    && (t[c] == ':' || t[c] == '=')
    && WhitespaceIn(t, c + 1, e) && !IsLineTerminator(t[e])
  }

  /**
   * A match at the start of `t` has the declarative shape, with group 1 at
   * `[0, b)`. Group 2 starts at the last position `e` the shape allows and
   * runs up to the first line terminator after it.
   */
  lemma EventAtShape(t: string) returns (b: nat, c: nat, e: nat)
    requires EventAt(t).Some?
    ensures EventShape(t, b, c, e) && EventAt(t).value.digits == t[..b]
    ensures forall e': nat :: EventShape(t, b, c, e') ==> e' <= e
    ensures EventAt(t).value.rest == DotsFrom(t, e)
  {
    b := DigitRun(t);
    c := SeparatorAt(t);
    EventAtRest(t, c);
    e := RestStart(t, c).value;
    WhitespaceFrom(t, b, c);
    RestStartShape(t, c, e);
  }

  /**
   * `(.+)` starts after whitespace only, at a character `.` accepts, and no
   * later such start exists.
   */
  lemma RestStartShape(t: string, c: nat, e: nat)
    requires c < |t| && RestStart(t, c) == Some(e)
    ensures WhitespaceIn(t, c + 1, e) && !IsLineTerminator(t[e])
    ensures forall e': nat :: c < e' < |t| && WhitespaceIn(t, c + 1, e') && !IsLineTerminator(t[e']) ==> e' <= e
  {
    var w := c + 1 + WhitespaceRun(t[c + 1..]);
    WhitespaceFrom(t, c + 1, w);
  }

  /** Group 2 is what `.+` takes from where it starts. */
  lemma EventAtRest(t: string, c: nat)
    requires EventAt(t).Some? && c == SeparatorAt(t)
    ensures c < |t| && RestStart(t, c).Some?
    ensures EventAt(t).value.rest == DotsFrom(t, RestStart(t, c).value)
  {
  }

  /** Where the declarative shape holds at the start of `t`, the pattern matches there. */
  lemma ShapeMatches(t: string, b: nat, c: nat, e: nat)
    requires EventShape(t, b, c, e)
    ensures EventAt(t).Some?
  {
    assert DigitRun(t) == b by {
      DigitRunExact(t, b);
    }
    assert b + WhitespaceRun(t[b..]) == c by {
      WhitespaceRunFrom(t, b, c);
    }
    var w := c + 1 + WhitespaceRun(t[c + 1..]);
    if w == |t| {
      var r := LastNonTerminator(t, c + 1);
      assert r.Some? by {
        assert c + 1 <= e < |t| && !IsLineTerminator(t[e]);
      }
    }
  }

  /**
   * When a documentation line yields an entry, the pattern's shape occurs at
   * a position `p` of it and at no earlier position, and the value is the
   * whole digit run there, verbatim. The label is read from the last position
   * `e` the shape allows up to the first line terminator, then trimmed and
   * capitalised.
   */
  lemma DocEntryMatch(line: string) returns (p: nat, b: nat, c: nat, e: nat)
    requires DocEntry(line).Some?
    ensures p <= |line| && EventShape(line[p..], b, c, e) && DocEntry(line).value.value == line[p..][..b]
    ensures forall q: nat, b': nat, c': nat, e': nat :: q < p ==> !EventShape(line[q..], b', c', e')
    ensures forall e': nat :: EventShape(line[p..], b, c, e') ==> e' <= e
    ensures DocEntry(line).value.caption == Capitalize(Trim(DotsFrom(line[p..], e)))
  {
    ShapesMatch(line);
    p := FindFirst(line, EventLen, 0).value;
    assert EventLen(line[p..]) > 0;
    b, c, e := EventAtShape(line[p..]);
    TrimDigits(line[p..][..b]);
  }

  /** Wherever the pattern's shape occurs in a line, the pattern matches there. */
  lemma ShapesMatch(line: string)
    ensures forall q: nat, b: nat, c: nat, e: nat :: q <= |line| && EventShape(line[q..], b, c, e) ==> MatchesAt(line, EventLen, q)
  {
    forall q: nat, b: nat, c: nat, e: nat | q <= |line| && EventShape(line[q..], b, c, e) ensures MatchesAt(line, EventLen, q) {
      ShapeMatches(line[q..], b, c, e);
    }
  }

  /** When a documentation line yields no entry, the pattern's shape occurs nowhere in it. */
  lemma DocEntryNone(line: string)
    requires DocEntry(line).None?
    ensures forall p: nat, b: nat, c: nat, e: nat :: p <= |line| ==> !EventShape(line[p..], b, c, e)
  {
    ShapesMatch(line);
  }

  /** A documentation line yields an entry exactly when the pattern's shape occurs in it. */
  lemma DocEntryIff(line: string)
    ensures DocEntry(line).Some? <==> exists p: nat, b: nat, c: nat, e: nat :: p <= |line| && EventShape(line[p..], b, c, e)
  {
    if DocEntry(line).Some? {
      var p, b, c, e := DocEntryMatch(line);
    } else {
      DocEntryNone(line);
    }
  }

  /** Group 1 is a non-empty digit run, group 2 a non-empty run of characters `.` matches. */
  lemma EventAtGroups(t: string)
    requires EventAt(t).Some?
    ensures var cap := EventAt(t).value;
            cap.digits != [] && AllDigits(cap.digits) && cap.rest != [] && NoLineTerminator(cap.rest)
  {
  }

  /** A trimmed slice of a string without line terminators has none either. */
  lemma TrimNoLineTerminator(s: string)
    requires NoLineTerminator(s)
    ensures NoLineTerminator(Trim(s))
  {
    var i := WhitespaceRun(s);
    var r := Trim(s);
    forall k | 0 <= k < |r| ensures !IsLineTerminator(r[k]) {
      assert r[k] == s[i + k];
    }
  }

  /** An entry's value is a non-empty digit string and its label holds no line terminator. */
  predicate EntryClean(e: Entry) {
    e.value != [] && AllDigits(e.value) && NoLineTerminator(e.caption)
  }

  /** Every entry a documentation line yields is clean. */
  lemma DocEntryClean(line: string)
    requires DocEntry(line).Some?
    ensures EntryClean(DocEntry(line).value)
  {
    var p := FindFirst(line, EventLen, 0).value;
    EventAtGroups(line[p..]);
    EntryOfClean(EventAt(line[p..]).value);
  }

  /** The entry of a match whose groups are as `EventAtGroups` states is clean. */
  lemma EntryOfClean(cap: Capture)
    requires cap.digits != [] && AllDigits(cap.digits) && NoLineTerminator(cap.rest)
    ensures EntryClean(EntryOf(cap))
  {
    TrimNoLineTerminator(cap.rest);
    TrimDigits(cap.digits);
    var r := Trim(cap.rest);
    forall k | 0 <= k < |Capitalize(r)| ensures !IsLineTerminator(Capitalize(r)[k]) {
      assert k > 0 ==> Capitalize(r)[k] == r[k];
    }
  }

  /** Trimming a digit string leaves it unchanged: the value is never reformatted. */
  lemma TrimDigits(s: string)
    requires AllDigits(s)
    ensures Trim(s) == s
  {
    if s != [] {
      assert !IsWhitespace(s[0]) && !IsWhitespace(s[|s| - 1]);
    }
    TrimIdentity(s);
  }

  // ----- key order of a JavaScript object -----

  /** The number a digit string denotes. */
  function NumValue(s: string): nat
    requires AllDigits(s)
  {
    if s == [] then 0 else NumValue(s[..|s| - 1]) * 10 + (s[|s| - 1] as int - '0' as int)
  }

  /** An array index: a canonical numeral (no leading zero) not above 2^32 - 2. */
  predicate IsArrayIndex(k: string) {
    |k| > 0 && AllDigits(k) && (k[0] != '0' || |k| == 1) && NumValue(k) <= 0xFFFF_FFFE
  }

  /** Array-index keys come first, in ascending numeric order; the others follow. */
  predicate JsOrdered(keys: seq<string>) {
    forall i, j :: 0 <= i < j < |keys| && IsArrayIndex(keys[j]) ==>
      IsArrayIndex(keys[i]) && NumValue(keys[i]) <= NumValue(keys[j])
  }

  predicate Distinct(keys: seq<string>) {
    forall i, j :: 0 <= i < j < |keys| ==> keys[i] != keys[j]
  }

  /** The keys that are not array indices, in the order of `keys`. */
  function OtherKeys(keys: seq<string>): seq<string> {
    if keys == [] then []
    else (if IsArrayIndex(keys[0]) then [] else [keys[0]]) + OtherKeys(keys[1..])
  }

  /** Places a new array-index key before the first key that is not a smaller array index. */
  function InsertIndex(keys: seq<string>, k: string): (r: seq<string>)
    requires IsArrayIndex(k)
    ensures forall x :: x in r <==> x in keys || x == k
    ensures |r| == |keys| + 1
  {
    if keys == [] then [k]
    else if IsArrayIndex(keys[0]) && NumValue(keys[0]) < NumValue(k) then [keys[0]] + InsertIndex(keys[1..], k)
    else [k] + keys
  }

  /** Where a property write `obj[k] = v` leaves `k` among the object's own keys. */
  function InsertKey(keys: seq<string>, k: string): seq<string> {
    if k in keys then keys
    else if IsArrayIndex(k) then InsertIndex(keys, k)
    else keys + [k]
  }

  /** The tail of distinct, ordered keys is distinct and ordered, and its head precedes it. */
  lemma TailOrdered(keys: seq<string>)
    requires keys != [] && Distinct(keys) && JsOrdered(keys)
    ensures Distinct(keys[1..]) && JsOrdered(keys[1..]) && keys[0] !in keys[1..]
    ensures forall y :: y in keys[1..] && IsArrayIndex(y) ==> IsArrayIndex(keys[0]) && NumValue(keys[0]) <= NumValue(y)
  {
    var tail := keys[1..];
    assert forall i :: 0 <= i < |tail| ==> tail[i] == keys[i + 1];
  }

  /** Prepending a key that precedes every array index of distinct, ordered keys keeps them so. */
  lemma ConsOrdered(x: string, rest: seq<string>)
    requires Distinct(rest) && JsOrdered(rest) && x !in rest
    requires forall y :: y in rest && IsArrayIndex(y) ==> IsArrayIndex(x) && NumValue(x) <= NumValue(y)
    ensures Distinct([x] + rest) && JsOrdered([x] + rest)
    ensures OtherKeys([x] + rest) == (if IsArrayIndex(x) then [] else [x]) + OtherKeys(rest)
  {
    var r := [x] + rest;
    assert r[1..] == rest;
    forall i, j | 0 <= i < j < |r| && IsArrayIndex(r[j])
      ensures IsArrayIndex(r[i]) && NumValue(r[i]) <= NumValue(r[j])
    {
      assert r[j] == rest[j - 1];
      if i > 0 { assert r[i] == rest[i - 1]; }
    }
    forall i, j | 0 <= i < j < |r| ensures r[i] != r[j] {
      assert r[j] == rest[j - 1];
      if i > 0 { assert r[i] == rest[i - 1]; }
    }
  }

  lemma {:induction false} InsertIndexOrder(keys: seq<string>, k: string)
    requires IsArrayIndex(k) && k !in keys && Distinct(keys) && JsOrdered(keys)
    ensures Distinct(InsertIndex(keys, k)) && JsOrdered(InsertIndex(keys, k))
    ensures OtherKeys(InsertIndex(keys, k)) == OtherKeys(keys)
  {
    if keys == [] {
      ConsOrdered(k, []);
    } else if IsArrayIndex(keys[0]) && NumValue(keys[0]) < NumValue(k) {
      TailOrdered(keys);
      InsertIndexOrder(keys[1..], k);
      InsertIndexStep(keys, k);
    } else {
      InsertIndexFront(keys, k);
    }
  }

  /** A new array index not above the first key goes to the front. */
  lemma InsertIndexFront(keys: seq<string>, k: string)
    requires keys != [] && IsArrayIndex(k) && k !in keys && Distinct(keys) && JsOrdered(keys)
    requires !(IsArrayIndex(keys[0]) && NumValue(keys[0]) < NumValue(k))
    ensures Distinct(InsertIndex(keys, k)) && JsOrdered(InsertIndex(keys, k))
    ensures OtherKeys(InsertIndex(keys, k)) == OtherKeys(keys)
  {
    TailOrdered(keys);
    assert keys == [keys[0]] + keys[1..];
    ConsOrdered(k, keys);
  }

  /** The step of `InsertIndexOrder` past a smaller array index at the front. */
  lemma InsertIndexStep(keys: seq<string>, k: string)
    requires keys != [] && IsArrayIndex(k) && k !in keys && Distinct(keys) && JsOrdered(keys)
    requires IsArrayIndex(keys[0]) && NumValue(keys[0]) < NumValue(k)
    requires var r := InsertIndex(keys[1..], k);
             Distinct(r) && JsOrdered(r) && OtherKeys(r) == OtherKeys(keys[1..])
    ensures Distinct(InsertIndex(keys, k)) && JsOrdered(InsertIndex(keys, k))
    ensures OtherKeys(InsertIndex(keys, k)) == OtherKeys(keys)
  {
    var tail := keys[1..];
    TailOrdered(keys);
    assert keys == [keys[0]] + tail;
    ConsOrdered(keys[0], InsertIndex(tail, k));
    ConsOrdered(keys[0], tail);
  }

  lemma {:induction false} OtherKeysAppend(a: seq<string>, b: seq<string>)
    ensures OtherKeys(a + b) == OtherKeys(a) + OtherKeys(b)
  {
    if a == [] {
      assert a + b == b;
    } else {
      assert (a + b)[1..] == a[1..] + b;
      OtherKeysAppend(a[1..], b);
    }
  }

  /**
   * A property write never moves an existing key; a new array-index key goes
   * into its numeric place and a new other key to the end, so the keys stay
   * distinct and in JavaScript order, and the other keys keep their
   * first-insertion order.
   */
  lemma InsertKeyOrder(keys: seq<string>, k: string)
    requires Distinct(keys) && JsOrdered(keys)
    ensures var r := InsertKey(keys, k);
            && Distinct(r) && JsOrdered(r)
            && (forall x :: x in r <==> x in keys || x == k)
            && (k in keys ==> r == keys)
            && OtherKeys(r) == OtherKeys(keys) + (if k !in keys && !IsArrayIndex(k) then [k] else [])
  {
    if k !in keys {
      if IsArrayIndex(k) {
        InsertIndexOrder(keys, k);
      } else {
        var r := keys + [k];
        OtherKeysAppend(keys, [k]);
        assert OtherKeys([k]) == [k] + OtherKeys([]);
        forall i, j | 0 <= i < j < |r| && IsArrayIndex(r[j])
          ensures IsArrayIndex(r[i]) && NumValue(r[i]) <= NumValue(r[j])
        {
          assert j < |keys|;
        }
      }
    }
  }

  // ----- the map -----

  /** The object's own keys in enumeration order, and what each is bound to. */
  datatype Table = Table(keys: seq<string>, labels: map<string, string>)

  predicate WellFormed(t: Table) {
    && Distinct(t.keys) && JsOrdered(t.keys)
    && t.labels.Keys == set k | k in t.keys
  }

  /** `obj[k] = v`. */
  function Put(t: Table, k: string, v: string): (r: Table)
    requires WellFormed(t)
    ensures WellFormed(r)
    ensures r.labels == t.labels[k := v]
  {
    InsertKeyOrder(t.keys, k);
    Table(InsertKey(t.keys, k), t.labels[k := v])
  }

  /** `Object.entries(obj)`. */
  function EntriesOf(t: Table): (es: seq<Entry>)
    requires WellFormed(t)
    ensures |es| == |t.keys|
  {
    seq(|t.keys|, i requires 0 <= i < |t.keys| => Entry(t.keys[i], t.labels[t.keys[i]]))
  }

  /** What each documentation line contributes, line by line. */
  function DocEntries(docs: seq<string>): seq<Option<Entry>> {
    MapLines(docs, DocEntry)
  }

  function MapLines(docs: seq<string>, f: string -> Option<Entry>): (es: seq<Option<Entry>>)
    ensures |es| == |docs| && forall i :: 0 <= i < |docs| ==> es[i] == f(docs[i])
  {
    seq(|docs|, i requires 0 <= i < |docs| => f(docs[i]))
  }

  lemma MapLinesPrefix(docs: seq<string>, f: string -> Option<Entry>, i: nat)
    requires i < |docs|
    ensures MapLines(docs[..i + 1], f) == MapLines(docs[..i], f) + [f(docs[i])]
  {
  }

  lemma DocEntriesPrefix(docs: seq<string>, i: nat)
    requires i < |docs|
    ensures DocEntries(docs[..i + 1]) == DocEntries(docs[..i]) + [DocEntry(docs[i])]
  {
    MapLinesPrefix(docs, DocEntry, i);
  }

  /** The values of the entries, in line order, repetitions included. */
  function ValuesOf(es: seq<Option<Entry>>): seq<string> {
    if es == [] then []
    else ValuesOf(es[..|es| - 1]) + (if es[|es| - 1].Some? then [es[|es| - 1].value.value] else [])
  }

  /** What one documentation line does to the map: a property write, or nothing. */
  function AddEntry(t: Table, entry: Option<Entry>): (r: Table)
    requires WellFormed(t)
    ensures WellFormed(r)
  {
    match entry
    case None => t
    case Some(e) => Put(t, e.value, e.caption)
  }

  /** The map after one `obj[value] = label` per entry, in order. */
  function Build(es: seq<Option<Entry>>): (t: Table)
    ensures WellFormed(t)
  {
    if es == [] then Table([], map[]) else AddEntry(Build(es[..|es| - 1]), es[|es| - 1])
  }

  /** One more documentation line adds its entry to the map built so far. */
  lemma BuildTableStep(docs: seq<string>, i: nat)
    requires i < |docs|
    ensures BuildTable(docs[..i + 1]) == AddEntry(BuildTable(docs[..i]), DocEntry(docs[i]))
  {
    var es := DocEntries(docs[..i]);
    DocEntriesPrefix(docs, i);
    assert (es + [DocEntry(docs[i])])[..|es|] == es;
  }

  /** The map after the `forEach` over the documentation lines. */
  function BuildTable(docs: seq<string>): (t: Table)
    ensures WellFormed(t)
  {
    Build(DocEntries(docs))
  }

  /** The map holds a key exactly when some entry has it as its value. */
  lemma {:induction false} BuildKeys(es: seq<Option<Entry>>, value: string)
    ensures value in Build(es).labels <==> value in ValuesOf(es)
  {
    if es != [] {
      BuildKeys(es[..|es| - 1], value);
    }
  }

  /**
   * The keys that are not array indices, in the order the values first
   * appear (an array-index key is placed by its number instead).
   */
  function FirstSeen(vals: seq<string>): seq<string> {
    if vals == [] then []
    else
      var v := vals[|vals| - 1];
      var init := vals[..|vals| - 1];
      FirstSeen(init) + (if v in init || IsArrayIndex(v) then [] else [v])
  }

  /** The keys that are not array indices come in the order their values were first written. */
  lemma {:induction false} BuildOrder(es: seq<Option<Entry>>)
    ensures OtherKeys(Build(es).keys) == FirstSeen(ValuesOf(es))
  {
    if es != [] {
      var init := es[..|es| - 1];
      BuildOrder(init);
      match es[|es| - 1]
      case None =>
        assert ValuesOf(es) == ValuesOf(init);
        assert Build(es) == Build(init);
      case Some(e) =>
        var t := Build(init);
        InsertKeyOrder(t.keys, e.value);
        BuildKeys(init, e.value);
        assert ValuesOf(es)[..|ValuesOf(es)| - 1] == ValuesOf(init);
    }
  }

  /** Only clean entries go into the map, so every key and label of it is clean. */
  lemma {:induction false} BuildClean(es: seq<Option<Entry>>)
    requires forall i :: 0 <= i < |es| && es[i].Some? ==> EntryClean(es[i].value)
    ensures forall k :: k in Build(es).labels ==> EntryClean(Entry(k, Build(es).labels[k]))
  {
    if es != [] {
      var init := es[..|es| - 1];
      assert forall i :: 0 <= i < |init| ==> init[i] == es[i];
      BuildClean(init);
    }
  }

  /** The map built from any documentation holds only clean keys and labels. */
  lemma BuildTableClean(docs: seq<string>)
    ensures forall k :: k in BuildTable(docs).labels ==> EntryClean(Entry(k, BuildTable(docs).labels[k]))
  {
    var es := DocEntries(docs);
    forall i | 0 <= i < |es| && es[i].Some? ensures EntryClean(es[i].value) {
      DocEntryClean(docs[i]);
    }
    BuildClean(es);
  }

  /** A later entry with the same value overwrites the label: the last one wins. */
  lemma {:induction false} LastWriteWins(es: seq<Option<Entry>>, i: nat)
    requires i < |es| && es[i].Some?
    requires forall j :: i < j < |es| ==> es[j].None? || es[j].value.value != es[i].value.value
    ensures var e := es[i].value;
            e.value in Build(es).labels && Build(es).labels[e.value] == e.caption
  {
    var init := es[..|es| - 1];
    if i < |es| - 1 {
      LastWriteWins(init, i);
    }
  }

  /**
   * The map object of the converter. `keys` holds the own keys in the order
   * JavaScript enumerates them, `labels` the value bound to each.
   */
  class EventObject {
    var keys: seq<string>
    var labels: map<string, string>

    ghost predicate Valid()
      reads this
    {
      WellFormed(Table(keys, labels))
    }

    function Snapshot(): Table
      reads this
    {
      Table(keys, labels)
    }

    /** `let evtMap = {}`. */
    constructor ()
      ensures Valid() && keys == [] && labels == map[]
    {
      keys := [];
      labels := map[];
    }

    /** `evtMap[key] = caption`. */
    method Set(key: string, caption: string)
      requires Valid()
      modifies this
      ensures Valid()
      ensures Snapshot() == Put(old(Snapshot()), key, caption)
      ensures labels == old(labels)[key := caption]
    {
      InsertKeyOrder(keys, key);
      keys := InsertKey(keys, key);
      labels := labels[key := caption];
    }

    /** `Object.keys(evtMap).length`. */
    function Size(): (n: nat)
      reads this
      requires Valid()
      ensures n == 0 <==> labels == map[]
    {
      assert keys != [] ==> keys[0] in labels;
      |keys|
    }

    /** `Object.entries(evtMap)`. */
    function Entries(): (es: seq<Entry>)
      reads this
      requires Valid()
      ensures es == EntriesOf(Snapshot())
      ensures |es| == |keys| && forall i :: 0 <= i < |es| ==> es[i].value == keys[i] && es[i].caption == labels[keys[i]]
    {
      EntriesOf(Snapshot())
    }
  }
}
