/**
 * The local converter (`parseLocal`): the input is split into lines; the
 * lines that do not start with `:ACU` build the event map, the lines that do
 * are rewritten one by one into point records, and the records are joined
 * with line breaks. A point line with fewer than five `:`-separated fields
 * makes the conversion fail (the source throws on `parts[4]` being undefined).
 */
module PointTable {
  import opened Text
  import opened PointName
  import opened Description
  import opened EventMap

  /** The conversion either produces its output or stops at the first malformed point line. */
  datatype Result<T> = Success(value: T) | Failure(line: string)

  /** A point line starts with `:ACU`; every other line is documentation. */
  predicate IsPointLine(line: string) {
    StartsWith(line, ":ACU")
  }

  /** `lines.filter((l) => l.startsWith(":ACU"))`. */
  function PointLines(lines: seq<string>): (r: seq<string>)
    ensures forall l :: l in r <==> l in lines && IsPointLine(l)
    ensures |r| <= |lines|
  {
    if lines == [] then []
    else (if IsPointLine(lines[0]) then [lines[0]] else []) + PointLines(lines[1..])
  }

  /** `lines.filter((l) => !l.startsWith(":ACU"))`. */
  function DocLines(lines: seq<string>): (r: seq<string>)
    ensures forall l :: l in r <==> l in lines && !IsPointLine(l)
    ensures |r| <= |lines|
  {
    if lines == [] then []
    else (if IsPointLine(lines[0]) then [] else [lines[0]]) + DocLines(lines[1..])
  }

  /** The point-line filter keeps the input order: filtering a concatenation concatenates the filtered parts. */
  lemma {:induction false} PointLinesAppend(a: seq<string>, b: seq<string>)
    ensures PointLines(a + b) == PointLines(a) + PointLines(b)
  {
    if a != [] {
      assert (a + b)[1..] == a[1..] + b;
      PointLinesAppend(a[1..], b);
    } else {
      assert a + b == b;
    }
  }

  /** The documentation-line filter keeps the input order in the same way. */
  lemma {:induction false} DocLinesAppend(a: seq<string>, b: seq<string>)
    ensures DocLines(a + b) == DocLines(a) + DocLines(b)
  {
    if a != [] {
      assert (a + b)[1..] == a[1..] + b;
      DocLinesAppend(a[1..], b);
    } else {
      assert a + b == b;
    }
  }

  /** A single line is kept by exactly one of the two filters. */
  lemma SingleLine(l: string)
    ensures PointLines([l]) == (if IsPointLine(l) then [l] else [])
    ensures DocLines([l]) == (if IsPointLine(l) then [] else [l])
  {
    assert [l][1..] == [];
  }

  /** Every line goes to exactly one of the two passes, as often as it occurs. */
  lemma {:induction false} LinesPartition(lines: seq<string>)
    ensures multiset(PointLines(lines)) + multiset(DocLines(lines)) == multiset(lines)
  {
    if lines != [] {
      var tail := lines[1..];
      LinesPartition(tail);
      assert lines == [lines[0]] + tail;
      assert multiset(lines) == multiset([lines[0]]) + multiset(tail);
      if IsPointLine(lines[0]) {
        assert multiset(PointLines(lines)) == multiset([lines[0]]) + multiset(PointLines(tail));
        assert DocLines(lines) == DocLines(tail);
      } else {
        assert PointLines(lines) == PointLines(tail);
        assert multiset(DocLines(lines)) == multiset([lines[0]]) + multiset(DocLines(tail));
      }
    }
  }

  /** One output record before rendering: the fields of the header and the events appended to it. */
  datatype Point = Point(id: string, name: string, desc: string, events: seq<Entry>)

  /** `:ACU:PNT:FI:<id>:<name>:"<desc>":grp "Slave Table"`. */
  function Header(id: string, name: string, desc: string): string {
    ":ACU:PNT:FI:" + id + ":" + name + ":\"" + desc + "\":grp \"Slave Table\""
  }

  /** `:evt "<label>"==<value>,0:`. */
  function Fragment(e: Entry): string {
    ":evt \"" + e.caption + "\"==" + e.value + ",0:"
  }

  /** The fragments of `es`, appended in order. */
  function Fragments(es: seq<Entry>): string {
    if es == [] then [] else Fragments(es[..|es| - 1]) + Fragment(es[|es| - 1])
  }

  /** The output line of a point. */
  function Render(pt: Point): string {
    Header(pt.id, pt.name, pt.desc) + Fragments(pt.events)
  }

  /** The events are added when the lower-cased description mentions `aos time` or `ephemeris table`. */
  predicate Triggers(desc: string) {
    Contains(Lower(desc), "aos time") || Contains(Lower(desc), "ephemeris table")
  }

  /**
   * One point line: field 3 is the id, field 4 the raw name; the description
   * is the cleaned quoted text; the events are all entries of the map, in
   * enumeration order, when the map is not empty and the description
   * triggers them.
   */
  function Record(line: string, t: Table): (r: Result<Point>)
    requires WellFormed(t)
    ensures r.Failure? <==> |Split(line, ':')| < 5
    ensures r.Failure? ==> r.line == line
  {
    var parts := Split(line, ':');
    if |parts| < 5 then Failure(line)
    else
      var desc := CleanDescription(line);
      var events := if |t.keys| > 0 && Triggers(desc) then EntriesOf(t) else [];
      Success(Point(parts[3], CleanName(parts[4]), desc, events))
  }

  /** Each point line's record, in order. */
  function RecordsOf(lines: seq<string>, t: Table): (rs: seq<Result<Point>>)
    requires WellFormed(t)
    ensures |rs| == |lines|
  {
    seq(|lines|, i requires 0 <= i < |lines| => Record(lines[i], t))
  }

  /** All the records, or the first failure among them. */
  function Collect(rs: seq<Result<Point>>): Result<seq<Point>> {
    if rs == [] then Success([])
    else
      match Collect(rs[..|rs| - 1])
      case Failure(l) => Failure(l)
      case Success(pts) =>
        match rs[|rs| - 1]
        case Failure(l) => Failure(l)
        case Success(pt) => Success(pts + [pt])
  }

  /** The records of the point lines in order, or the first line that fails. */
  function Records(lines: seq<string>, t: Table): Result<seq<Point>>
    requires WellFormed(t)
  {
    Collect(RecordsOf(lines, t))
  }

  function RenderAll(pts: seq<Point>): (r: seq<string>)
    ensures |r| == |pts|
  {
    if pts == [] then [] else RenderAll(pts[..|pts| - 1]) + [Render(pts[|pts| - 1])]
  }

  /** What `parseLocal` hands to `setOutput`, or the line on which it throws. */
  function Transform(doc: string): Result<string> {
    var lines := Split(doc, '\n');
    var table := BuildTable(DocLines(lines));
    match Records(PointLines(lines), table)
    case Failure(l) => Failure(l)
    case Success(pts) => Success(Join(RenderAll(pts), '\n'))
  }

  /** Once a record fails, the whole collection fails on it. */
  lemma {:induction false} CollectStop(rs: seq<Result<Point>>, j: nat)
    requires j < |rs| && Collect(rs[..j]).Success? && rs[j].Failure?
    ensures Collect(rs) == Failure(rs[j].line)
  {
    var init := rs[..|rs| - 1];
    if j < |rs| - 1 {
      assert init[..j] == rs[..j];
      CollectStop(init, j);
    } else {
      assert init == rs[..j];
    }
  }

  /** One more successful record extends the collection by it. */
  lemma CollectStep(rs: seq<Result<Point>>, j: nat, pts: seq<Point>)
    requires j < |rs| && Collect(rs[..j]) == Success(pts) && rs[j].Success?
    ensures Collect(rs[..j + 1]) == Success(pts + [rs[j].value])
    ensures RenderAll(pts + [rs[j].value]) == RenderAll(pts) + [Render(rs[j].value)]
  {
    assert rs[..j + 1][..j] == rs[..j];
    var more := pts + [rs[j].value];
    assert more[..|more| - 1] == pts;
  }

  /** A record rendered, or the failure passed on. */
  function RenderRecord(r: Result<Point>): Result<string> {
    match r
    case Failure(l) => Failure(l)
    case Success(pt) => Success(Render(pt))
  }

  /** The first `forEach` of `parseLocal`: one property write per documentation line that matches. */
  method ExtractEvents(docPart: seq<string>) returns (evtMap: EventObject)
    ensures fresh(evtMap) && evtMap.Valid() && evtMap.Snapshot() == BuildTable(docPart)
  {
    evtMap := new EventObject();
    var i := 0;
    while i < |docPart|
      invariant 0 <= i <= |docPart|
      invariant fresh(evtMap) && evtMap.Valid() && evtMap.Snapshot() == BuildTable(docPart[..i])
    {
      BuildTableStep(docPart, i);
      var entry := DocEntry(docPart[i]);
      if entry.Some? {
        evtMap.Set(entry.value.value, entry.value.caption);
      }
      i := i + 1;
    }
    assert docPart[..i] == docPart;
  }

  /** The inner `forEach`: `outLine += :evt "<label>"==<value>,0:` for each entry in turn. */
  method AppendEvents(outLine: string, entries: seq<Entry>) returns (s: string)
    ensures s == outLine + Fragments(entries)
  {
    s := outLine;
    var k := 0;
    while k < |entries|
      invariant 0 <= k <= |entries|
      invariant s == outLine + Fragments(entries[..k])
    {
      assert entries[..k + 1][..k] == entries[..k];
      s := s + Fragment(entries[k]);
      k := k + 1;
    }
    assert entries[..k] == entries;
  }

  /** The body of the second `forEach`: one point line rewritten, or the failure on `parts[4]`. */
  method PointLine(line: string, evtMap: EventObject) returns (r: Result<string>)
    requires evtMap.Valid()
    ensures r == RenderRecord(Record(line, evtMap.Snapshot()))
  {
    var parts := Split(line, ':');
    if |parts| < 5 {
      return Failure(line);
    }
    var id := parts[3];
    var name := CleanName(parts[4]);
    var desc := CleanDescription(line);
    var outLine := RenderPoint(id, name, desc, evtMap);
    r := Success(outLine);
  }

  /** The output line from its three fields, with the events appended when they are due. */
  method RenderPoint(id: string, name: string, desc: string, evtMap: EventObject) returns (outLine: string)
    requires evtMap.Valid()
    ensures var t := evtMap.Snapshot();
            outLine == Render(Point(id, name, desc, if |t.keys| > 0 && Triggers(desc) then EntriesOf(t) else []))
  {
    outLine := Header(id, name, desc);
    if evtMap.Size() > 0 && Triggers(desc) {
      var entries := evtMap.Entries();
      outLine := AppendEvents(outLine, entries);
    } else {
      assert outLine == Header(id, name, desc) + Fragments([]);
    }
  }

  /** `Transform` in terms of the map and the outcome of the point lines. */
  lemma TransformOutcome(doc: string, t: Table)
    requires t == BuildTable(DocLines(Split(doc, '\n')))
    ensures var rs := Records(PointLines(Split(doc, '\n')), t);
            Transform(doc) == if rs.Failure? then Failure(rs.line) else Success(Join(RenderAll(rs.value), '\n'))
  {
  }

  /** The rendered records, or the failure passed on. */
  function RenderRecords(r: Result<seq<Point>>): Result<seq<string>> {
    match r
    case Failure(l) => Failure(l)
    case Success(pts) => Success(RenderAll(pts))
  }

  /**
   * The second `forEach` of `parseLocal`: each point line rewritten in order,
   * stopping at the first line that throws.
   */
  method RenderPointLines(pointLines: seq<string>, evtMap: EventObject) returns (r: Result<seq<string>>)
    requires evtMap.Valid()
    ensures r == RenderRecords(Records(pointLines, evtMap.Snapshot()))
  {
    ghost var table := evtMap.Snapshot();
    ghost var rs := RecordsOf(pointLines, table);
    ghost var pts: seq<Point> := [];
    var results: seq<string> := [];
    var j := 0;
    while j < |pointLines|
      invariant 0 <= j <= |pointLines|
      invariant Collect(rs[..j]) == Success(pts)
      invariant results == RenderAll(pts)
    {
      var line := pointLines[j];
      var outLine := PointLine(line, evtMap);
      assert rs[j] == Record(line, table);
      if outLine.Failure? {
        CollectStop(rs, j);
        return Failure(line);
      }
      CollectStep(rs, j, pts);
      results := results + [outLine.value];
      pts := pts + [rs[j].value];
      j := j + 1;
    }
    assert rs[..j] == rs;
    r := Success(results);
  }

  /**
   * `parseLocal`: the event map from the documentation lines, then each point
   * line rewritten in order, the results joined with line breaks.
   */
  method ParseLocal(doc: string) returns (r: Result<string>)
    ensures r == Transform(doc)
  {
    var lines := Split(doc, '\n');
    var evtMap := ExtractEvents(DocLines(lines));
    TransformOutcome(doc, evtMap.Snapshot());
    var results := RenderPointLines(PointLines(lines), evtMap);
    if results.Failure? {
      return Failure(results.line);
    }
    r := Success(Join(results.value, '\n'));
  }

  // ----- properties of the conversion -----

  /** The collection succeeds exactly when every record does, and then holds them all, in order. */
  lemma {:induction false} CollectAll(rs: seq<Result<Point>>)
    ensures Collect(rs).Success? <==> forall i :: 0 <= i < |rs| ==> rs[i].Success?
    ensures Collect(rs).Success? ==>
              |Collect(rs).value| == |rs| && forall i :: 0 <= i < |rs| ==> rs[i] == Success(Collect(rs).value[i])
  {
    if rs != [] {
      var init := rs[..|rs| - 1];
      CollectAll(init);
      assert forall i :: 0 <= i < |init| ==> init[i] == rs[i];
    }
  }

  /** A failed collection names the first record that fails. */
  lemma {:induction false} CollectFirstFailure(rs: seq<Result<Point>>) returns (j: nat)
    requires Collect(rs).Failure?
    ensures j < |rs| && rs[j].Failure? && Collect(rs).line == rs[j].line
    ensures forall i :: 0 <= i < j ==> rs[i].Success?
  {
    var init := rs[..|rs| - 1];
    if Collect(init).Failure? {
      j := CollectFirstFailure(init);
    } else {
      CollectAll(init);
      j := |rs| - 1;
    }
  }

  /**
   * The conversion succeeds exactly when every point line has at least five
   * fields; it then yields one record per point line, in order.
   */
  lemma RecordsAll(lines: seq<string>, t: Table)
    requires WellFormed(t)
    ensures Records(lines, t).Success? <==> forall i :: 0 <= i < |lines| ==> |Split(lines[i], ':')| >= 5
    ensures Records(lines, t).Success? ==>
              |Records(lines, t).value| == |lines|
              && forall i :: 0 <= i < |lines| ==> Record(lines[i], t) == Success(Records(lines, t).value[i])
  {
    var rs := RecordsOf(lines, t);
    CollectAll(rs);
    forall i | 0 <= i < |lines| ensures rs[i] == Record(lines[i], t) {
    }
  }

  /** A failed conversion reports the first point line with fewer than five fields. */
  lemma RecordsFirstFailure(lines: seq<string>, t: Table) returns (j: nat)
    requires WellFormed(t) && Records(lines, t).Failure?
    ensures j < |lines| && Records(lines, t).line == lines[j] && |Split(lines[j], ':')| < 5
    ensures forall i :: 0 <= i < j ==> |Split(lines[i], ':')| >= 5
  {
    var rs := RecordsOf(lines, t);
    j := CollectFirstFailure(rs);
    assert rs[j] == Record(lines[j], t);
    forall i | 0 <= i < j ensures |Split(lines[i], ':')| >= 5 {
      assert rs[i] == Record(lines[i], t);
    }
  }

  lemma {:induction false} NoPointLines(lines: seq<string>)
    requires forall l :: l in lines ==> !IsPointLine(l)
    ensures PointLines(lines) == []
  {
    if lines != [] {
      assert forall l :: l in lines[1..] ==> l in lines;
      NoPointLines(lines[1..]);
    }
  }

  /** A document without point lines converts to the empty output. */
  lemma TransformNoPoints(doc: string)
    requires forall l :: l in Split(doc, '\n') ==> !IsPointLine(l)
    ensures Transform(doc) == Success([])
  {
    var lines := Split(doc, '\n');
    NoPointLines(lines);
    TransformOutcome(doc, BuildTable(DocLines(lines)));
  }

  /** Whether a point gets events depends only on the map being non-empty and its description. */
  lemma RecordEvents(line: string, t: Table)
    requires WellFormed(t) && Record(line, t).Success?
    ensures var pt := Record(line, t).value;
            && (pt.events != [] <==> t.labels != map[] && Triggers(pt.desc))
            && (pt.events != [] ==> pt.events == EntriesOf(t))
  {
    if t.keys != [] {
      assert t.keys[0] in t.labels;
    }
  }

  /** The fragments of clean entries hold no line break. */
  lemma {:induction false} FragmentsNoNewline(es: seq<Entry>)
    requires forall i :: 0 <= i < |es| ==> EntryClean(es[i])
    ensures '\n' !in Fragments(es)
  {
    if es != [] {
      var e := es[|es| - 1];
      FragmentsNoNewline(es[..|es| - 1]);
      assert EntryClean(e);
      assert forall k :: 0 <= k < |e.caption| ==> e.caption[k] != '\n';
      assert forall k :: 0 <= k < |e.value| ==> e.value[k] != '\n';
    }
  }

  lemma PieceNoNewline(line: string, i: nat)
    requires '\n' !in line && i < |Split(line, ':')|
    ensures '\n' !in Split(line, ':')[i]
  {
    SplitPieces(line, ':');
  }

  lemma NameNoNewline(raw: string)
    ensures '\n' !in CleanName(raw)
  {
    var name := CleanName(raw);
    assert forall k :: 0 <= k < |name| ==> name[k] != '\n';
  }

  lemma DescNoNewline(line: string)
    requires '\n' !in line
    ensures '\n' !in CleanDescription(line)
  {
    assert multiset(line)['\n'] == 0;
    assert multiset(CleanDescription(line))['\n'] == 0;
  }

  /** The events of the map built from any documentation render without line breaks. */
  lemma EventsNoNewline(docs: seq<string>)
    ensures '\n' !in Fragments(EntriesOf(BuildTable(docs)))
  {
    var t := BuildTable(docs);
    var es := EntriesOf(t);
    BuildTableClean(docs);
    forall i | 0 <= i < |es| ensures EntryClean(es[i]) {
      assert t.keys[i] in t.labels;
    }
    FragmentsNoNewline(es);
  }

  /** A point line without line breaks is rewritten into a single output line. */
  lemma RecordNoNewline(line: string, docs: seq<string>)
    requires '\n' !in line
    requires Record(line, BuildTable(docs)).Success?
    ensures '\n' !in Render(Record(line, BuildTable(docs)).value)
  {
    var t := BuildTable(docs);
    var parts := Split(line, ':');
    var desc := CleanDescription(line);
    var events := if |t.keys| > 0 && Triggers(desc) then EntriesOf(t) else [];
    var pt := Point(parts[3], CleanName(parts[4]), desc, events);
    assert Record(line, t).value == pt;
    PieceNoNewline(line, 3);
    NameNoNewline(parts[4]);
    DescNoNewline(line);
    HeaderNoNewline(parts[3], CleanName(parts[4]), desc);
    if events == [] {
      assert Fragments(events) == [];
    } else {
      EventsNoNewline(docs);
    }
  }

  lemma HeaderNoNewline(id: string, name: string, desc: string)
    requires '\n' !in id && '\n' !in name && '\n' !in desc
    ensures '\n' !in Header(id, name, desc)
  {
  }

  // ----- where the id and the name land in the output -----

  /** The rendering is the fields `""`, `ACU`, `PNT`, `FI`, id and name, each followed by a colon, then the rest. */
  lemma RenderPieces(pt: Point)
    ensures Render(pt)
            == "" + [':'] + ("ACU" + [':'] + ("PNT" + [':'] + ("FI" + [':'] + (pt.id + [':'] + (pt.name + [':']
               + ("\"" + pt.desc + "\":grp \"Slave Table\"" + Fragments(pt.events)))))))
  {
    var q := "\"" + pt.desc + "\":grp \"Slave Table\"" + Fragments(pt.events);
    RenderTail(pt, q);
    PrefixPieces(pt.id + [':'] + (pt.name + [':'] + q));
  }

  lemma RenderTail(pt: Point, q: string)
    requires q == "\"" + pt.desc + "\":grp \"Slave Table\"" + Fragments(pt.events)
    ensures Render(pt) == ":ACU:PNT:FI:" + (pt.id + [':'] + (pt.name + [':'] + q))
  {
  }

  lemma PrefixPieces(r: string)
    ensures ":ACU:PNT:FI:" + r == "" + [':'] + ("ACU" + [':'] + ("PNT" + [':'] + ("FI" + [':'] + r)))
  {
  }

  /**
   * Split on colons, an output line has `FI` as field 3, the id as field 4
   * and the name as field 5, whatever the events are.
   */
  lemma RenderFields(pt: Point)
    requires ':' !in pt.id && ':' !in pt.name
    ensures var f := Split(Render(pt), ':');
            |f| > 6 && f[3] == "FI" && f[4] == pt.id && f[5] == pt.name
  {
    var q := "\"" + pt.desc + "\":grp \"Slave Table\"" + Fragments(pt.events);
    RenderPieces(pt);
    SplitSix("", "ACU", "PNT", "FI", pt.id, pt.name, q);
  }

  /** A name cleaned from a field without colons has no colon. */
  lemma NameNoColon(raw: string)
    requires ':' !in raw
    ensures ':' !in CleanName(raw)
  {
    CleanNameChars(raw);
    assert ':' !in Upper(raw) by {
      forall k | 0 <= k < |raw| ensures UpperChar(raw[k]) != ':' {
        assert raw[k] in raw;
      }
    }
  }

  /**
   * The rendering of a point line moves its fields one place on: field 3 of
   * the input, the id, becomes field 4 of the output, the cleaned field 4
   * becomes field 5, and field 3 of the output is always `FI`.
   */
  lemma RecordFields(line: string, t: Table)
    requires WellFormed(t)
    requires Record(line, t).Success?
    ensures var parts := Split(line, ':');
            var f := Split(Render(Record(line, t).value), ':');
            |f| > 6 && f[3] == "FI" && f[4] == parts[3] && f[5] == CleanName(parts[4])
  {
    var parts := Split(line, ':');
    SplitPieces(line, ':');
    assert ':' !in parts[3] && ':' !in parts[4];
    NameNoColon(parts[4]);
    RenderFields(Record(line, t).value);
  }

  /**
   * The output holds one line per point line, in order: line `i` is the
   * rendering of point line `i`, and a document without point lines yields "".
   */
  lemma TransformLines(doc: string)
    requires Transform(doc).Success?
    ensures var lines := Split(doc, '\n');
            var pl := PointLines(lines);
            var out := Transform(doc).value;
            && (pl == [] ==> out == [])
            && (pl != [] ==>
                  && |Split(out, '\n')| == |pl|
                  && forall i :: 0 <= i < |pl| ==>
                       RenderRecord(Record(pl[i], BuildTable(DocLines(lines)))) == Success(Split(out, '\n')[i]))
  {
    var lines := Split(doc, '\n');
    var docs := DocLines(lines);
    var t := BuildTable(docs);
    var pl := PointLines(lines);
    TransformOutcome(doc, t);
    var outs := RenderAll(Records(pl, t).value);
    if pl != [] {
      SplitPieces(doc, '\n');
      RenderedLines(pl, docs);
      SplitJoin(outs, '\n');
    }
  }

  /** Each rendered record is its point line's record, and none holds a line break. */
  lemma RenderedLines(pl: seq<string>, docs: seq<string>)
    requires forall l :: l in pl ==> '\n' !in l
    requires Records(pl, BuildTable(docs)).Success?
    ensures var t := BuildTable(docs);
            var outs := RenderAll(Records(pl, t).value);
            && |outs| == |pl|
            && (forall i :: 0 <= i < |pl| ==> '\n' !in outs[i])
            && (forall i :: 0 <= i < |pl| ==> RenderRecord(Record(pl[i], t)) == Success(outs[i]))
  {
    var t := BuildTable(docs);
    RecordsAll(pl, t);
    var pts := Records(pl, t).value;
    var outs := RenderAll(pts);
    RenderAllEach(pts);
    forall i | 0 <= i < |pl| ensures '\n' !in outs[i] {
      assert pl[i] in pl;
      RecordNoNewline(pl[i], docs);
    }
  }

  lemma {:induction false} RenderAllEach(pts: seq<Point>)
    ensures forall i :: 0 <= i < |pts| ==> RenderAll(pts)[i] == Render(pts[i])
  {
    if pts != [] {
      var init := pts[..|pts| - 1];
      RenderAllEach(init);
      assert forall i :: 0 <= i < |init| ==> init[i] == pts[i];
    }
  }
}
