# ACU point table converter — Dafny model

Pointgen turns loosely structured equipment documentation into an ACU point
table. Each output line has the form
`:ACU:PNT:FI:<id>:<NAME>:"<description>":grp "Slave Table"`, optionally
followed by `:evt "<label>"==<value>,0:` fragments. This project models the
deterministic local converter in `src/App.js`, which has two parts:

- `cleanName` (the point-name normaliser). Four regex deletions, then
  underscores to spaces, trim, whitespace runs to `_`, and upper case.
- `parseLocal` (the converter). It splits the document into lines and sends
  each line to one of two passes:
  - Lines that do not start with `:ACU` build an event map: value → label,
    a plain JavaScript object.
  - Lines that do start with `:ACU` are each rewritten into one output line.
    The rewrite takes field 3 as the id, the cleaned field 4 as the name and
    the cleaned first quoted text as the description. It appends every event
    of the map when the map is non-empty and the description mentions
    `aos time` or `ephemeris table`.

  The output lines are joined with line breaks.

## Files and modules

- `text.dfy`, module `Text`. Character classes as JavaScript defines them:
  - `\d`, the line terminators `.` excludes, and the full `\s`/`trim` whitespace set.
  - ASCII case mapping.
  - `split`, `join` and `trim`, with their round-trip lemmas.
- `matching.dfy`, module `Matching`. The regex scan, in three functions:
  - `FindFirst`: the leftmost match.
  - `DeleteFirst`: `replace` without `g`.
  - `DeleteAll`: `replace` with `g`, resuming after each match.

  Every pattern is a function giving the match length at the start of a
  suffix, where 0 means no match. The doc comment of each pattern says why
  the reading it computes is the only one the regex engine can find, even
  with backtracking.
- `clean_name.dfy`, module `PointName`: `cleanName`, one function per step.
- `description.dfy`, module `Description`: the description cleaner (quoted
  text, asides, numeric ranges, trim).
- `event_map.dfy`, module `EventMap`. It has four parts:
  - The documentation-line matcher, `/(\d+)\s*[:=]\s*(.+)/i`.
  - The key order of a JavaScript object: array-index keys ascending, then the
    other keys in first-insertion order.
  - The map as a value (`Table`), built line by line.
  - The map object itself as the class `EventObject`.
- `point_table.dfy`, module `PointTable`. The point records, their rendering,
  and `ParseLocal` as a method proved equal to the function `Transform`.

## Model

| member | source | states |
|---|---|---|
| Text.UpperChar | src/App.js:21 | `toUpperCase` on one character: an ASCII lower-case letter becomes its upper-case partner, every other character is unchanged |
| Text.LowerChar | src/App.js:55 | `toLowerCase` on one character: an ASCII upper-case letter becomes its lower-case partner, every other character is unchanged |
| Text.Trim | src/App.js:19 | `trim` returns the slice left after the leading and trailing whitespace; a non-empty result neither starts nor ends with whitespace |
| Text.TrimIdentity | src/App.js:19 | `trim` leaves a string that neither starts nor ends with whitespace unchanged |
| Text.Split | src/App.js:43 | `split` always yields at least one piece |
| Text.SplitPieces | src/App.js:43 | no piece of a `split` holds the separator, and every piece uses only characters of the input |
| Text.JoinSplit | src/App.js:25 | joining the pieces of a `split` with the same separator gives the input back |
| Text.SplitJoin | src/App.js:64 | splitting a join of pieces that hold no separator gives the pieces back |
| Text.WhitespaceEnd | src/App.js:49 | the greedy `\s*` from a position stops at the first character that is not whitespace, or at the end |
| Text.DigitEnd | src/App.js:49 | the greedy `\d*` from a position stops at the first character that is not a digit, or at the end |
| Text.SplitAppend | src/App.js:43 | splitting a string whose first piece has no separator yields that piece, then the pieces of the rest |
| Matching.FindFirst | src/App.js:32 | the result is a matching position, no earlier position matches, and `None` means no position matches at all |
| Matching.DeleteFirst | src/App.js:14-17 | a non-global `replace(re, "")` deletes exactly the leftmost match, leaves the string alone when nothing matches, and only removes characters |
| Matching.FindLeftmost | src/App.js:32 | the scan from the start stops exactly at the leftmost match |
| Matching.DeleteAllChars | src/App.js:48-49 | a global `replace(re, "")` only removes characters of its input |
| Matching.DeleteAllUnchanged | src/App.js:48-49 | a global deletion changes the string exactly when the pattern matches somewhere, and never lengthens it |
| Matching.DeleteAllLeftmost | src/App.js:48-49 | everything before the first match is kept, and the scan resumes right after that match |
| Matching.DeleteAllSplit | src/App.js:48-49 | when the first match sits between a prefix `a` and a rest `r`, the global deletion yields `a` followed by the deletion applied to `r` |
| PointName.InSecondLen | src/App.js:14 | a match of `_IN_SECOND.*$` never runs past the end of the name |
| PointName.DigitBlockLen | src/App.js:15 | a match of `_\d+_.*$` never runs past the end of the name |
| PointName.UnusedLen | src/App.js:16 | a match of `_?\d+_?UNUSED` never runs past the end of the name |
| PointName.TableLen | src/App.js:17 | a match of `TABLE` never runs past the end of the name |
| PointName.CutInSecond | src/App.js:14 | the name is cut at the leftmost `_IN_SECOND` (any case), keeps the prefix before it, and nothing earlier matches |
| PointName.CutDigitBlock | src/App.js:15 | the name is cut at the leftmost `_<digits>_`, keeps the prefix before it, and nothing earlier matches |
| PointName.DropUnused | src/App.js:16 | only the first `_?<digits>_?UNUSED` is deleted; without a match the name is unchanged |
| PointName.DropTable | src/App.js:17 | only the first `TABLE` (any case) is deleted; without one the name is unchanged |
| PointName.DeletionsKeepChars | src/App.js:13-17 | the four deletions only remove characters of the raw name |
| PointName.SpacedHasNoUnderscore | src/App.js:18-19 | after underscores become spaces and the trim, no `_` is left |
| PointName.JoinWordsShape | src/App.js:20 | on a string without `_`, whitespace runs to `_` leaves no whitespace and no `__`; it is empty iff its input is; it starts or ends with `_` iff its input starts or ends with whitespace |
| PointName.JoinWordsKeeps | src/App.js:20 | `.replace(/\s+/g, "_")` leaves a string without whitespace unchanged |
| PointName.JoinWordsRun | src/App.js:20 | one maximal whitespace run between two parts becomes exactly one `_`, and each part is treated on its own; with `JoinWordsKeeps` this fixes the result on every input |
| PointName.JoinWordsExample | src/App.js:18-20 | `A  B` (step 5 applied to `A__B`) becomes `A_B` |
| PointName.UpperKeepsShape | src/App.js:21 | `toUpperCase` keeps the length, every `_` and every whitespace position, and leaves no lower-case ASCII letter |
| PointName.Identifier | src/App.js:18-21 | steps 5 to 8 always yield an identifier: no whitespace, no `_` at either end, no `__`, no lower-case ASCII letter |
| PointName.CleanName | src/App.js:12-21 | whatever the raw name, the cleaned name has the shape of an identifier (as for `Identifier`) |
| PointName.CleanNameChars | src/App.js:12-21 | every character of the cleaned name is `_` or the upper-cased form of a character of the raw name |
| PointName.JoinWordsRestores | src/App.js:18-20 | on a name without whitespace and without `__`, underscores to spaces and back to `_` gives the name back |
| PointName.IdentifierFixpoint | src/App.js:18-21 | steps 5 to 8 leave a name that already has the shape of an identifier unchanged |
| PointName.CleanNameFixpoint | src/App.js:12-21 | a name in canonical form, where no deletion pattern matches and which is already an identifier, is a fixed point of cleaning |
| PointName.NoUnderscoreNoCut | src/App.js:14-15 | without `_`, neither cut can match |
| PointName.NoDigitNoUnused | src/App.js:16 | without digits, the `UNUSED` pattern cannot match |
| PointName.PlainCleanName | src/App.js:12-21 | on a name without `_` and digits only the `TABLE` deletion and steps 5 to 8 act |
| PointName.LeadingTable | src/App.js:17 | a name starting with `TABLE` (any case) loses exactly those five letters |
| PointName.TableVanishes | src/App.js:12-21 | a name that is one `TABLE` (any case) cleans to the empty name |
| PointName.DoubledTableDrop | src/App.js:17-21 | `TABLETABLE` (any case) loses only its first `TABLE` |
| PointName.TableIdentifier | src/App.js:18-21 | an upper-case `TABLE` is already an identifier |
| PointName.TableTwice | src/App.js:12-21 | `TABLETABLE` cleans to `TABLE` |
| PointName.CleanNameNotIdempotent | src/App.js:12-21 | cleaning twice differs from cleaning once: `TABLETABLE` gives `TABLE`, and cleaning that again gives the empty name |
| Description.QuotedLen | src/App.js:46 | a match of `"([^"]+)"` has at least three characters, opens and closes with `"` and holds no `"` inside |
| Description.QuotedInMatches | src/App.js:46 | wherever a `"`, a non-empty run without `"` and a closing `"` occur, the pattern matches there with exactly that length |
| Description.MatchQuotedIn | src/App.js:46 | every match is such a quote pair: an opening `"`, a non-empty run without `"`, the closing `"` |
| Description.QuotedAt | src/App.js:46 | a quoted match at a position lies inside the line, and what it captures is non-empty, holds no `"` and uses only characters of the line |
| Description.QuotedText | src/App.js:46 | the captured text holds no `"`, only uses characters of the line, and is empty exactly when the line has no quoted non-empty text |
| Description.QuotedTextAt | src/App.js:46 | the captured text is what lies between the quotes of the leftmost match |
| Description.QuotedTextShape | src/App.js:46 | the captured text is empty exactly when the line holds no quote pair; otherwise it is the inside of the leftmost quote pair |
| Description.AsideLen | src/App.js:48 | a match of `\s*\(.*?\)` never runs past the end of the text |
| Description.RangeLen | src/App.js:49 | a match of the numeric-range pattern never runs past the end of the text |
| Description.NumberEnd | src/App.js:49 | the reading of `-?\d+(\.\d+)?` (or with `+`) from a position never runs past the end of the text |
| Description.NumberEndMax | src/App.js:49 | that reading is greedy: it reaches at least as far as any number that starts at the position |
| Description.NumberEndIn | src/App.js:49 | what that reading takes is a number: an optional sign, digits, and optionally `.` and more digits |
| Description.NumberInEnd | src/App.js:49 | every such number is found by that reading, which takes all of it when the next character is neither a digit nor `.` |
| Description.RangeLenShape | src/App.js:49 | every range match has the declarative shape: whitespace, a number with optional `-`, whitespace, `to` in any case, whitespace, a number with optional `+`; the match ends where that second number ends |
| Description.RangeShapeMatches | src/App.js:49 | wherever that shape occurs, the pattern matches and takes at least the whole shape; it takes exactly the shape when the next character neither extends the second number nor starts its fraction |
| Description.RangeFractionExample | src/App.js:49 | in ` 1 to 2.5.` the match takes the fraction `.5` and leaves the final `.` |
| Description.CloseParen | src/App.js:48 | the lazy `.*?\)` stops at the nearest `)`: the result is a `)` with no `)` and no line terminator before it; on text without line terminators it finds none only when there is no `)` |
| Description.NoAsideLeft | src/App.js:48 | after deleting every `\s*\(.*?\)` from a description without line breaks, no `(` is followed by a `)` |
| Description.DeleteAllNoAside | src/App.js:49 | a global deletion cannot create a `(` followed by a `)` |
| Description.DescriptionNoAside | src/App.js:46-50 | the cleaned description of a line without line breaks holds no `(` followed by a `)` |
| Description.DeleteOneAside | src/App.js:48 | in a text `a (x)r` with no `(` outside the aside, deleting asides removes exactly ` (x)` |
| Description.DeleteTrailingRange | src/App.js:49 | a text without digits and `-` followed by one whole range loses exactly the range |
| Description.CleanNameAsideRange | src/App.js:46-50 | a quoted name, one aside and one trailing range clean to the name alone |
| Description.DescriptionExample | src/App.js:46-50 | `"Elevation Angle (degrees) -10 to +10"` cleans to `Elevation Angle` |
| Description.CleanDescription | src/App.js:46-50 | the description only uses characters of the line, holds no `"`, and neither starts nor ends with whitespace |
| EventMap.EventLen | src/App.js:32 | a match of the event pattern never runs past the end of the line |
| EventMap.EventAt | src/App.js:32 | a match of the event pattern, with its two groups, is non-empty and lies inside the line |
| EventMap.LastNonTerminator | src/App.js:32 | the position where `.+` starts when the second `\s*` must give characters back: the last one in range that `.` matches, or none when there is no such character |
| EventMap.RestStart | src/App.js:32 | group 2 starts after the separator and inside the line |
| EventMap.DotsFrom | src/App.js:32 | the greedy `.+` takes characters of the line, in place, up to the first line terminator or the end |
| EventMap.EventAtShape | src/App.js:32 | a match of `/(\d+)\s*[:=]\s*(.+)/i` has the declarative shape: digits, whitespace, `:` or `=`, whitespace, a character `.` accepts; group 1 is the digit run; group 2 starts at the last position the shape allows and runs to the first line terminator |
| EventMap.RestStartShape | src/App.js:32 | group 2 starts after whitespace only, at a character `.` accepts, and no later start fits the shape |
| EventMap.ShapeMatches | src/App.js:32 | wherever that shape occurs, the pattern matches |
| EventMap.DocEntryMatch | src/App.js:32-36 | a line that yields an entry contains the shape at a position where no earlier position has it; the value is the digit run there, verbatim; the label is the capitalised, trimmed text from the last start the shape allows up to the first line terminator |
| EventMap.ShapesMatch | src/App.js:32 | wherever the shape occurs in a line, the pattern matches at that position |
| EventMap.DocEntryNone | src/App.js:32-33 | a line that yields no entry contains the shape nowhere |
| EventMap.DocEntryIff | src/App.js:32-33 | a documentation line yields an entry if and only if the shape occurs in it |
| EventMap.EventAtGroups | src/App.js:32 | group 1 is a non-empty digit run; group 2 is non-empty and has no line terminator |
| EventMap.DocEntryClean | src/App.js:32-36 | every entry has a non-empty all-digit value and a label without line terminators |
| EventMap.EntryOfClean | src/App.js:34-36 | trimming a digit group and capitalising a trimmed label without line terminators gives a clean entry |
| EventMap.TrimDigits | src/App.js:34 | `trim` never changes the value (a digit string) |
| EventMap.InsertIndex | src/App.js:36 | writing a new array-index key adds exactly that key |
| EventMap.InsertKeyOrder | src/App.js:36 | a property write keeps the keys distinct and in JavaScript order, never moves an existing key, adds exactly the written key, and appends a new non-index key to the insertion-ordered keys |
| EventMap.Put | src/App.js:36 | `evtMap[val] = label` keeps the object well formed and binds `val` to `label` |
| EventMap.EntriesOf | src/App.js:56 | `Object.entries` has one pair per own key |
| EventMap.InsertIndexOrder | src/App.js:36 | writing a new array-index key keeps the keys distinct and in JavaScript order and leaves the other keys as they were |
| EventMap.AddEntry | src/App.js:33-37 | one documentation line keeps the object well formed |
| EventMap.Build | src/App.js:31-38 | the object after any sequence of writes is well formed |
| EventMap.BuildTable | src/App.js:31-38 | the map built from the documentation lines is well formed |
| EventMap.BuildTableStep | src/App.js:31-38 | one more documentation line applies its own entry to the map built so far |
| EventMap.BuildKeys | src/App.js:31-38 | the map holds a key exactly when some matching line produced it as a value |
| EventMap.BuildOrder | src/App.js:31-38 | the non-index keys come in the order their values first appeared |
| EventMap.LastWriteWins | src/App.js:36 | for a repeated value, the label of its last line wins |
| EventMap.BuildTableClean | src/App.js:31-38 | every key and label of the built map is clean (as for `DocEntryClean`) |
| EventMap.EventObject.constructor | src/App.js:27 | `evtMap = {}`: no keys and no labels |
| EventMap.EventObject.Set | src/App.js:36 | the property write updates the object as `Put` does, and keeps it valid |
| EventMap.EventObject.Size | src/App.js:55 | `Object.keys(evtMap).length` is zero exactly when the map is empty |
| EventMap.EventObject.Entries | src/App.js:56 | `Object.entries(evtMap)` is each key in enumeration order, paired with its label |
| PointTable.PointLines | src/App.js:41 | exactly the lines that start with `:ACU` |
| PointTable.DocLines | src/App.js:30 | exactly the lines that do not start with `:ACU` |
| PointTable.PointLinesAppend | src/App.js:41 | the point lines of two consecutive blocks are those of the first block followed by those of the second: the filter keeps input order |
| PointTable.DocLinesAppend | src/App.js:30 | the same for the documentation lines |
| PointTable.SingleLine | src/App.js:30-41 | a single line is a point line or a documentation line, never both |
| PointTable.LinesPartition | src/App.js:30-41 | every input line goes to exactly one of the two passes, as often as it occurs |
| PointTable.Record | src/App.js:43-59 | rewriting a point line fails (the source throws) exactly when it has fewer than five `:` fields, and the failure names that line |
| PointTable.RecordsOf | src/App.js:42-62 | one record per point line |
| PointTable.RenderAll | src/App.js:42-62 | one output line per record |
| PointTable.ExtractEvents | src/App.js:27-38 | the event-map loop yields a fresh, valid object whose contents are the map built from the documentation lines |
| PointTable.AppendEvents | src/App.js:56-58 | the `outLine +=` loop appends the fragment of each entry, in order |
| PointTable.RenderPoint | src/App.js:52-59 | the output line is the header plus, when due, every entry of the map |
| PointTable.PointLine | src/App.js:43-61 | one iteration of the point-line loop is the point line's record, rendered, or its failure |
| PointTable.RenderPointLines | src/App.js:42-62 | the point-line loop yields the rendering of the records of the point lines, or the first failing line |
| PointTable.ParseLocal | src/App.js:24-65 | the whole procedure computes `Transform`: the joined renderings of all point lines, or the first failing line |
| PointTable.CollectStop | src/App.js:42-62 | the first record that fails stops the conversion on its line |
| PointTable.CollectStep | src/App.js:42-62 | one more successful record appends its rendered line |
| PointTable.CollectAll | src/App.js:42-62 | collecting succeeds exactly when every record does, and then keeps them all, in order |
| PointTable.CollectFirstFailure | src/App.js:42-62 | a failed collection reports the first failing record |
| PointTable.RecordsAll | src/App.js:42-62 | the conversion succeeds exactly when every point line has at least five fields, and then yields one record per point line, in order |
| PointTable.RecordsFirstFailure | src/App.js:42-45 | a failure reports the first point line with fewer than five fields; every earlier point line has enough |
| PointTable.NoPointLines | src/App.js:41 | a document in which no line starts with `:ACU` has no point lines |
| PointTable.TransformNoPoints | src/App.js:41-64 | a document without point lines converts to the empty output |
| PointTable.RecordEvents | src/App.js:55-59 | a record gets events exactly when the map is non-empty and its description triggers them, and then it gets all entries in enumeration order |
| PointTable.FragmentsNoNewline | src/App.js:57 | fragments of clean entries hold no line break |
| PointTable.PieceNoNewline | src/App.js:43-44 | a field of a line without line breaks has none |
| PointTable.NameNoNewline | src/App.js:45 | a cleaned name holds no line break |
| PointTable.DescNoNewline | src/App.js:46-50 | the description of a line without line breaks has none |
| PointTable.EventsNoNewline | src/App.js:56-58 | the events of any built map render without line breaks |
| PointTable.HeaderNoNewline | src/App.js:52 | the header built from fields without line breaks has none |
| PointTable.RecordNoNewline | src/App.js:43-61 | each point line becomes exactly one output line |
| PointTable.RenderFields | src/App.js:52 | split on `:`, an output line has `FI` as field 3, the id as field 4 and the name as field 5 |
| PointTable.NameNoColon | src/App.js:45 | the name cleaned from a field has no `:` |
| PointTable.RecordFields | src/App.js:43-52 | input field 3 (the id) becomes output field 4, the cleaned input field 4 becomes output field 5, and output field 3 is always `FI` |
| PointTable.RenderedLines | src/App.js:61-64 | each rendered record is its point line's record and has no line break |
| PointTable.RenderAllEach | src/App.js:61 | output line `i` is the rendering of record `i` |
| PointTable.TransformLines | src/App.js:61-64 | the output splits back into one line per point line, in order; line `i` is the rendering of point line `i`; no point lines means empty output |

### Notes on the behaviour of the code

- The id is `parts[3]` and the raw name is `parts[4]`. A line
  `:ACU:PNT:FI:10007:NAME:...` has `FI` as `parts[3]` and `10007` as
  `parts[4]`, so its output starts `:ACU:PNT:FI:FI:10007:`. The format rule
  written into the prompt of the same file (src/App.js:73,
  `:ACU:PNT:FI:<ID>:<NAME>:...`) and its example at src/App.js:80
  (`:ACU:PNT:FI:10007:ELEVATION_MINIMUM_ANGLE:...`) put the id `10007` in
  field 4 and the name in field 5 instead. `RecordFields` states what the
  code does for every point line.
- `/TABLE/i` has no `g` flag, so only the first `TABLE` is deleted.
  `DropTable` states this.
- Cleaning a name is not idempotent. `CleanNameNotIdempotent` proves that
  `TABLETABLE` → `TABLE` → empty. `CleanNameFixpoint` proves that names
  already in canonical form are fixed points.
- The event map is a plain object, not an insertion-ordered map. Keys that
  are array indices enumerate first, in ascending numeric order, whatever the
  order of the lines. An array index is a canonical numeral up to 2^32 − 2:
  `0`, or digits without a leading zero. A value with a leading zero, such
  as `007` or `00`, is an ordinary key and keeps its insertion position.
  `InsertKeyOrder` and `BuildOrder` state this.
- The range deletion makes a single left-to-right pass and resumes after
  each deleted range, so a range formed by what is left can survive: in
  `x 1 1 to 2 to 3` the pass deletes ` 1 to 2`, leaving `x 1 to 3`.

## Left out

- `parseAI` (the call to the language-model API), the React state, the form
  and `alert`. These are I/O and user interface. `ParseLocal` returns the
  text that `setOutput` would receive, as a value.
- Strings are sequences of `char`. JavaScript strings are sequences of UTF-16
  code units; the patterns are ASCII, so the two agree for this code.
- Case mapping is ASCII-only. `toUpperCase`/`toLowerCase` also map non-ASCII
  letters, and the model leaves those unchanged. The `/i` flag is exact,
  because no non-ASCII character folds to an ASCII pattern letter.
- A point line with fewer than five fields makes the source throw a
  `TypeError` on `parts[4].replace`. The model returns `Failure(line)` from
  the whole conversion instead of modelling an exception.
- `EventMap.NumValue` and `IsArrayIndex` read numerals as unbounded naturals
  with the 2^32 − 2 limit written out. Values beyond that limit are ordinary
  keys, as in JavaScript.
- `Text.Upper` (`toUpperCase`), `Text.Lower` (`toLowerCase`),
  `Text.StartsWith` (`startsWith`), `Text.Contains` (`includes`), `Text.Join`
  (`join`), `PointName.JoinWords`, `UnderscoresToSpaces`,
  `EventMap.Capitalize`, `EntryOf`, `DocEntry`, `DocEntries`, `InsertKey`
  (where a property write puts its key), `Matching.DeleteAll`,
  `PointTable.Header`, `Fragment`, `Fragments`, `Render`, `RenderRecords`,
  `Collect` and `Records` (the point-line `forEach` that the first throw
  ends), `Triggers` and `Transform` are specification functions. They carry no `ensures` of their
  own; the lemmas and methods in the table above state their properties.
- `PointName.InSecondLen`: bounds the match length only. What the cut keeps
  is stated by `CutInSecond`.
- `PointName.DigitBlockLen`: bounds the match length only. What the cut
  keeps is stated by `CutDigitBlock`.
- `PointName.UnusedLen`: bounds the match length only. Its effect is stated
  by `DropUnused` and `NoDigitNoUnused`.
- `PointName.TableLen`: bounds the match length only. Its effect is stated
  by `DropTable` and `LeadingTable`.
- `Description.AsideLen`: bounds the match length only. Its effect is stated
  by `CloseParen`, `NoAsideLeft`, `DescriptionNoAside` and `DeleteOneAside`.
- `Description.RangeLen`: bounds the match length only. The shape of a match
  is stated in both directions by `RangeLenShape` and `RangeShapeMatches`;
  since a match ends at its second number and reaches at least as far as
  any shape (`NumberEndMax`), it is the longest shape at that position.
  What its deletion removes is stated by `DeleteTrailingRange`.
- `Description.NumberEnd`: bounds the position only. That it reads a number
  is stated by `NumberEndIn` and `NumberInEnd`, and that it is greedy by
  `NumberEndMax`.
- `Description.QuotedLen`: bounds the match and its quotes only. The shape of
  a match is stated in both directions by `QuotedInMatches` and
  `MatchQuotedIn`.
- `Description.CleanDescription`: states the characters and the ends of the
  result. Which asides and ranges go is stated by `DescriptionNoAside`,
  `DeleteOneAside`, `DeleteTrailingRange` and `DescriptionExample`; a range
  left behind by the single pass, as in the note above, is not excluded.
- `EventMap.EventLen`: bounds the match length only. The shape of a match is
  stated by `EventAtShape` and `ShapeMatches`.
- `EventMap.EventAt`: bounds the match only. Its groups are stated by
  `EventAtGroups`, `EventAtShape` and `DocEntryMatch`.
- `Text.Split`: only states that there is at least one piece. The pieces are
  stated by `SplitPieces`, `JoinSplit`, `SplitJoin` and `SplitAppend`.
