# Agent spec parser, modelled in Dafny

This project models the Markdown parser of the `ai-agents` repository
(`src/parser.js`). The parser reads an AI agent specification written in a small
Markdown dialect and builds one `Spec` record from it. The dialect has:

- a title line `# Agent Spec: <name>`;
- a version line `> Version: X | Status: Y | Domain: Z`;
- second-level sections (`## Identity`, `## Capabilities`, `## Knowledge`,
  `## Constraints`, `## Interaction Style`, `## Success Criteria`,
  `## Interfaces`, `## Version History`);
- inside those sections, bold `**Key:** value` lines, pipe tables, bullet lists,
  numbered lists and third-level subsections.

The parser is a set of regular expressions applied with `String.prototype.match`
and `RegExp.prototype.exec` loops. The model states what those patterns do,
character by character, under JavaScript's rules:

- `\s` is the full JavaScript white-space class, line terminators included, so
  it can cross a newline.
- `.` stops at `\n`, `\r`, U+2028 and U+2029.
- With the `m` flag, `^` and `$` hold at line boundaries.
- Lazy groups take the shortest admissible match; greedy `\s*` backtracks when
  what follows needs it.
- An `exec` loop with the `g` flag resumes where the previous match ended.
  `match` without `g` stops at the first match.

Modules:

- `Optional` (optional.dfy): `Option`, which stands for JavaScript's `null`.
- `Text` (text.dfy): the string built-ins the parser uses (`trim`,
  `toLowerCase`, `replace(/\s+/g, '_')`, `indexOf`, `split`) and the
  character classes.
- `LineScan` (line_scan.dfy): how a pattern is searched for. A matcher maps
  the remaining text to what it extracts and how much it consumes. `Scan`,
  `ScanAll`, `First` and `FirstAnywhere` are the four search modes. The `exec`
  loops are imperative methods proved equal to them.
- `Parser` (parser.dfy): the records, one matcher per pattern, and each
  `parse…` function of the source. The functions whose source is a loop that
  updates variables are methods with loop invariants: `parseKeyValuePairs`,
  `parseTable`, `parseBulletList`, the two numbered-list parsers, the notes
  loop of `parseSuccessCriteria` and `splitSections`.
- `LineFacts` (line_facts.dfy): what the position helpers see inside a line.
- `ParserProperties` (properties.dfy) and `HeaderProperties`
  (header_properties.dfy): what the patterns extract from whole lines, and
  round trips from a written line back to its fields.
- `SubsectionProperties` (subsection_properties.dfy): what the `###` and
  bold-label patterns capture from written subsections, and round trips from
  written Knowledge, Constraints, Interfaces and Success Criteria sections
  back to their lists and notes.

## Model

| member | source | states |
|---|---|---|
| Text.Trim | src/parser.js:16-18 | `trim()`: the result has no white space at either end, is no longer than the input, and is empty exactly when the input is all white space |
| Text.TrimPads | src/parser.js:16-18 | the input is white space, then the trimmed text, then white space: `trim` removes only padding |
| Text.TrimOfTrimmed | src/parser.js:16-18 | trimming a trimmed string changes nothing (idempotence) |
| Text.TrimLeadingSpaces | src/parser.js:16-18 | white space put in front of a string does not change its trimmed form |
| Text.TrimDropFirstSpace | src/parser.js:111 | dropping a leading white-space character does not change the trimmed form |
| Text.NormalizeKey | src/parser.js:40 | `trim().toLowerCase().replace(/\s+/g, '_')`: the key has no white space and no upper-case letter, is no longer than the input, and is empty exactly when the input is all white space |
| Text.NormalizeKeyIdempotent | src/parser.js:40 | normalising a normalised key changes nothing |
| Text.LengthOfReplaceSpaceRuns | src/parser.js:40 | replacing white-space runs by `_` never lengthens the string |
| Text.EmptyReplaceSpaceRuns | src/parser.js:40 | the replacement is empty exactly when the input is |
| Text.ReplaceSpaceRunsSplit | src/parser.js:40 | a run of white space between two words is replaced by exactly one `_`, and the text on either side is replaced on its own |
| Text.NormalizeKeyOfTwoWords | src/parser.js:40 | two words separated by white space give the lower-cased words joined by one `_` |
| Text.LowerChar | src/parser.js:40 | `toLowerCase` on one character: an upper-case letter becomes its lower-case letter (32 code points on), every other character is kept; white space stays white space |
| Text.ToLower | src/parser.js:40 | `toLowerCase`: same length, each character lowered |
| Text.IndexOfChar | src/parser.js:315 | `indexOf('\n')`: the first position at or after i that holds the character, or the length when there is none |
| Text.IndexOf | src/parser.js:126 | the first occurrence of a pattern at or after i, or the length when there is none |
| Text.SkipSpaces | src/parser.js:11 | how far a greedy `\s*` reaches: only white space is skipped, and it stops at the first other character |
| Text.SkipDigits | src/parser.js:147 | how far `\d+` reaches: only digits are skipped, and it stops at the first non-digit |
| Text.LineEnd | src/parser.js:27 | how far `.+` reaches: the next line terminator or the end of the text |
| Text.Split | src/parser.js:62 | `split('\n')`: at least one part, no part holds the separator, and joining the parts gives back the input |
| Text.SplitJoin | src/parser.js:62 | splitting the join of separator-free parts gives back the parts (the other round trip) |
| LineScan.RestOfLine | src/parser.js:27 | `\s*(.+)$` under the `m` flag: the group lies on one line and runs to its end; among the admissible white-space runs the engine takes the longest, and it fails only when no run is followed by a character `.` accepts |
| LineScan.FirstFrom | src/parser.js:147 | a lazy group: the smallest end in the range where the rest of the pattern matches, and no smaller one matches |
| LineScan.LastNonTerminator | src/parser.js:27 | the last position of a range that is not a line terminator, and only terminators after it |
| LineScan.ScanTakes | src/parser.js:108-113 | one `exec` step of an anchored global pattern: at a line start where the pattern matches, the value is taken and the search resumes at the match end |
| LineScan.ScanMoves | src/parser.js:108-113 | where an anchored pattern does not match, the search moves on by one position and nothing is taken |
| LineScan.ScanAllTakes | src/parser.js:37-43 | one `exec` step of an unanchored global pattern that matches: the value is taken and the search resumes at the match end |
| LineScan.ScanAllMoves | src/parser.js:37-43 | one `exec` step that finds no match at a position: the search moves on by one |
| LineScan.ExecLines | src/parser.js:108-113 | the `while ((match = regex.exec(s)) !== null)` loop of a `^…$` pattern with flags `gm` returns exactly the anchored scan of the text |
| LineScan.ExecAll | src/parser.js:37-43 | the same loop for an unanchored global pattern returns exactly the unanchored scan |
| LineScan.FirstIsAMatch | src/parser.js:11 | `match` for an anchored pattern returns what the pattern gives at the first line start where it matches: the position is a line start and no earlier line start matches |
| LineScan.FirstAnywhereIsAMatch | src/parser.js:126 | `match` for an unanchored pattern returns what the pattern gives at the leftmost position where it matches |
| LineScan.FirstAnywhereAt | src/parser.js:126 | conversely, `match` returns the value at a position where the pattern matches when it matches at no earlier one |
| LineScan.FirstAnywhereNoMatch | src/parser.js:126-127 | `match` returns `null` exactly when the pattern matches at no position |
| LineScan.CollectAppend | src/parser.js:62 | collecting per-line results distributes over concatenation of line lists |
| LineScan.ScanSkipsLine | src/parser.js:108 | inside a line no `^` holds, so an anchored scan passes over the rest of the line |
| LineScan.ScanLine | src/parser.js:108-113 | a line the pattern treats as a whole contributes its value, then the scan goes on after the newline |
| LineScan.ScanJoinedLines | src/parser.js:108-113 | over a text made of lines, each matched as a whole or not at all, the `exec` loop yields one value per matched line, in line order |
| LineScan.ScanAllSkips | src/parser.js:37-43 | an unanchored scan passes over text in which no match can begin |
| LineScan.ScanAllJoinedLines | src/parser.js:37-43 | the unanchored loop over lines, each matched as a whole or unable to start a match, yields one value per matched line, in order |
| LineScan.ScanKeeps | src/parser.js:108-113 | every value an anchored scan yields has each property that every single match has |
| LineScan.ScanAllKeeps | src/parser.js:37-43 | every value an unanchored scan yields has each property that every single match has |
| LineScan.FirstAnywhereNone | src/parser.js:126-127 | no match when no character of the text can begin one |
| LineScan.ScanAllNone | src/parser.js:37-43 | the `exec` loop yields nothing when no character can begin a match |
| LineScan.FirstSkips | src/parser.js:11 | an anchored `match` passes over leading lines that cannot begin a match |
| LineScan.FirstNone | src/parser.js:11-14 | an anchored `match` finds nothing when no line can begin a match |
| Parser.BarField | src/parser.js:11 | a label field of the version pattern: the group starts right after the label, holds no bar, and ends at a bar |
| Parser.DomainAt | src/parser.js:11 | `\s*Domain:\s*(.+)$`: the group follows the `Domain:` label and lies inside the text |
| Parser.VersionSpans | src/parser.js:11 | the three groups of the version pattern are ordered and lie after the `>` that starts the match |
| Parser.VersionHeaderAt | src/parser.js:11-19 | a match at a `>` gives all three fields, each trimmed |
| Parser.VersionLabels | src/parser.js:11 | a version-pattern match means the text contains the labels `Version:`, `Status:` and `Domain:` |
| Parser.ParseVersionHeader | src/parser.js:10-20 | all three fields or none (never a partial header); each field is trimmed; fields are reported only when some line starts with `>` and the text holds all three labels |
| Parser.TitleAt | src/parser.js:27 | a title match starts with `#` and gives a trimmed name |
| Parser.ParseTitle | src/parser.js:26-29 | the name, when found, is trimmed and comes from a line that starts with `#`; `null` otherwise |
| Parser.KeyValueAt | src/parser.js:37 | a `**key:** value` match starts with `*`; its key is normalised and its value trimmed |
| Parser.ParseKeyValuePairs | src/parser.js:35-44 | the `exec` loop assigns, in match order, every pair the unanchored scan finds |
| Parser.AssignFirst | src/parser.js:41 | assigning a first pair, then the rest, is assigning the rest to the updated map |
| Parser.KeyValuePairsAreTrimmed | src/parser.js:40-41 | every key of the result is normalised and every value trimmed |
| Parser.AssignKeeps | src/parser.js:39-42 | assignments of normalised keys and trimmed values keep a map with only such entries |
| Parser.ParseIdentity | src/parser.js:49-56 | each field is absent or a trimmed, non-empty string (the `or null` fallback turns `""` into `null`) |
| Parser.ParseInteractionStyle | src/parser.js:210-218 | each of the four fields is absent or a trimmed, non-empty string |
| Parser.KeepTableLinesKeeps | src/parser.js:62 | the filter keeps exactly the lines whose trimmed form starts with a pipe, and never more lines than there were |
| Parser.Headers | src/parser.js:66-71 | every header is a normalised key |
| Parser.Cells | src/parser.js:76-78 | every cell is trimmed |
| Parser.RowOfKeys | src/parser.js:81-84 | a row's keys are exactly the headers |
| Parser.RowOfCell | src/parser.js:82-83 | the last column with a given header gives that key its value: `null` for `-`, the cell otherwise |
| Parser.RowValues | src/parser.js:83 | every value of a row is `null` or a trimmed string other than `-` |
| Parser.MakeRow | src/parser.js:81-85 | the `forEach` over the headers builds the row the specification function describes |
| Parser.DataRowsShape | src/parser.js:75-87 | no more rows than data lines; each row has exactly the headers as keys, and only `null` or trimmed non-`-` values |
| Parser.TableRowsShape | src/parser.js:61-89 | fewer than three table lines give no rows; otherwise at most one row per data line, each keyed by the first line's headers |
| Parser.ParseTable | src/parser.js:61-89 | the loop from index 2 returns exactly the rows of the full-width data lines, in order |
| Parser.DataRowsStep | src/parser.js:75-87 | one iteration of the row loop appends the row of line i when its cell count matches, and nothing otherwise |
| Parser.DataRowsSnoc | src/parser.js:80-86 | one more data line adds its row exactly when its cell count equals the header count |
| Parser.ParseCapabilities | src/parser.js:94-101 | one capability per table row; each field is absent or trimmed and non-empty, and `delegatesTo` is never `-` |
| Parser.ParseVersionHistory | src/parser.js:289-296 | one entry per table row; each field is absent or trimmed and non-empty |
| Parser.BulletAt | src/parser.js:108 | a bullet match starts with `-` or `*` and gives a trimmed item |
| Parser.ParseBulletList | src/parser.js:106-114 | the `exec` loop returns exactly the anchored scan's items, in order |
| Parser.BulletItemsAreTrimmed | src/parser.js:111 | every bullet item is trimmed |
| Parser.SubsectionAt | src/parser.js:126 | the subsection pattern at the start of a text: it matches exactly when `###` and the title (any case) follow each other across white space; the body starts after the title, the rest of its line for the constraint titles, and the white space after them, and runs to the first `###` or the end |
| Parser.Subsection | src/parser.js:126-127 | `section.match(...)`: the body of the leftmost position where the subsection pattern matches, and `null` exactly when it matches nowhere |
| Parser.BulletsOf | src/parser.js:129-134 | no subsection gives no items; the items of a subsection are trimmed |
| Parser.ParseKnowledge | src/parser.js:119-137 | the in-scope and out-of-scope items are all trimmed |
| Parser.HardTailAt | src/parser.js:147 | `\*\*\s*[-–—]\s*(.+)$` tried at q: the rationale group lies after q |
| Parser.DashRest | src/parser.js:147 | `[-–—]\s*(.+)$` at w: the rationale group lies after the dash |
| Parser.StatementEnd | src/parser.js:147 | the lazy `(.+?)`: the statement ends at the first position on the same line where the rest of the pattern matches, and no earlier position does |
| Parser.HardConstraintAt | src/parser.js:147-153 | a hard-constraint match starts with a digit and ends at a line end; the statement and the rationale are trimmed |
| Parser.HardFromOpen | src/parser.js:147-153 | after the opening `**`, a match ends past it, with statement and rationale trimmed |
| Parser.ParseNumberedConstraints | src/parser.js:143-156 | the `exec` loop returns exactly the anchored scan's constraints, in order |
| Parser.HardConstraintsAreTrimmed | src/parser.js:150-153 | every hard constraint has a trimmed statement and a trimmed rationale |
| Parser.NumberedItemAt | src/parser.js:164 | a `^\d+\.\s+(.+)$` match starts with a digit and gives trimmed text |
| Parser.ReasonAt | src/parser.js:169 | `\s*\(([^)]+)\)$` tried after n: the `(` lies at or after n and leaves room for a reason and `)` |
| Parser.ReasonSplit | src/parser.js:169 | the lazy statement group ends at the first position of the line where the reason pattern matches, and no earlier position does |
| Parser.SoftConstraintAt | src/parser.js:164-180 | a soft-constraint match starts with a digit |
| Parser.ParseSoftConstraints | src/parser.js:162-183 | the `exec` loop returns exactly the anchored scan's constraints, in order |
| Parser.SoftConstraintsAreTrimmed | src/parser.js:166-179 | every soft constraint has a trimmed statement and, when it has one, a trimmed rationale |
| Parser.SoftConstraintOf | src/parser.js:169-179 | a trimmed numbered item gives a trimmed statement and rationale |
| Parser.ParseConstraints | src/parser.js:188-205 | each half is `[]` when its `### Hard Constraints` or `### Soft Constraints` subsection is missing, and otherwise the hard or soft list of that subsection's body; every statement and rationale is trimmed |
| Parser.LastNotNewline | src/parser.js:238 | `([^\n]+)\s*` backtracking: the last position of the range that is not a newline |
| Parser.NoteTitleStart | src/parser.js:238 | where `[^\n]+` starts after `###\s*`: after the white space, or, when only white space follows, at its last non-newline character, which the greedy `\s*` gives back |
| Parser.NoteSubsectionAt | src/parser.js:238 | the notes-subsection pattern at the start of a text: it matches exactly when `###` is followed by some character other than a newline; the title runs from where `[^\n]+` starts to the end of its line, and the body from after the white space that follows to the first `###` or the end |
| Parser.Metrics | src/parser.js:231-235 | one metric per table row |
| Parser.AddNotesFirst | src/parser.js:240-253 | folding a first subsection, then the rest, is folding the rest into the updated notes |
| Parser.AddNotesOf | src/parser.js:241-252 | one subsection: its numbered items are stored under its normalised title when there is at least one |
| Parser.ParseNotes | src/parser.js:238-253 | the subsection loop returns exactly the notes the specification function describes |
| Parser.ParseSuccessCriteria | src/parser.js:223-256 | the metrics are one per table row and the notes are the fold of the `###` subsections the notes pattern finds, in order; SubsectionProperties.NotesOfSubsections gives the notes of written subsections |
| Parser.LabelledAt | src/parser.js:272 | the bold-label pattern at the start of a text: it matches exactly when the label (any case) is there; the text starts after the label and its white space and runs to the first `**` or the end |
| Parser.Labelled | src/parser.js:272-280 | `section.match(...)` for a label: the text after the leftmost label, and `null` exactly when there is none |
| Parser.ParseInterfaces | src/parser.js:261-284 | `standalone` is absent or trimmed and non-empty; the items of both lists are trimmed; SubsectionProperties.InterfacesOfLabels gives the lists of labelled text |
| Parser.HeaderMarkAt | src/parser.js:305 | `^##\s+` matches only at a line start holding `##`, and covers at least one white-space character after it |
| Parser.SplitParts | src/parser.js:305 | `split(/^##\s+/m)` yields at least one part |
| Parser.SplitSections | src/parser.js:301-324 | the `for` loop over the parts returns exactly the section map the specification function describes |
| Parser.AddSectionsStep | src/parser.js:313-321 | one iteration adds the part's section, or nothing when the part has no newline |
| Parser.ParseSection | src/parser.js:339-345 | `sections.x ? parse(sections.x) : null`: a result exactly when the section is present and not empty |
| Parser.ParseTableSection | src/parser.js:340 | a missing or empty section gives `[]` |
| Parser.ParseSpec | src/parser.js:329-348 | each record-valued field is present exactly when its section is present and not empty; missing sections give `[]` for capabilities and version history; for every text the name is the title of the whole text and version, status and domain are the fields of its version line |
| Parser.SpecSections | src/parser.js:329-348 | each section that is present and not empty is read by its own parser from its own text: identity, knowledge, constraints, interaction style, success criteria and interfaces as `Some` of that result, capabilities and version history as the parsed list itself |
| ParserProperties.BulletLine | src/parser.js:108 | the item of one bullet line, when there is one, is non-empty and trimmed |
| ParserProperties.BulletAtLine | src/parser.js:108 | at a line starting with `-` or `*`, the bullet pattern takes the whole line and gives its trimmed text, or fails when the marker is not followed by white space and text |
| ParserProperties.BulletMatchesLine | src/parser.js:108 | the bullet pattern treats such a line as a whole, whatever follows it |
| ParserProperties.BulletItemsOfLines | src/parser.js:106-114 | for lines without a dangling marker, the bullet list is exactly one item per bullet line, in line order, other lines ignored |
| ParserProperties.NumberedLine | src/parser.js:164 | the item of one numbered line, when there is one, is non-empty and trimmed |
| ParserProperties.NumberedAtLine | src/parser.js:164 | at any line, the numbered pattern takes the whole line and gives its trimmed text, or fails |
| ParserProperties.NumberedAfterDot | src/parser.js:164 | after the number and the dot, the pattern gives the trimmed rest of the line, or fails without white space and text |
| ParserProperties.TrimAfterSpaces | src/parser.js:167 | white space skipped before the group does not change the trimmed item |
| ParserProperties.NumberedMatchesLine | src/parser.js:164 | the numbered pattern treats a line as a whole, whatever follows it |
| ParserProperties.NumberedItemsOfLines | src/parser.js:245-249 | for lines without a dangling number, the numbered items are exactly one per `N. text` line, in order |
| ParserProperties.SoftConstraintsOfLines | src/parser.js:162-183 | soft constraints are exactly one per `N. text` line, in line order, each split by the reason pattern |
| ParserProperties.ReasonAfterStatement | src/parser.js:169 | the reason pattern matches at the end of the statement and at no earlier position |
| ParserProperties.SoftWithReason | src/parser.js:169-174 | `statement (reason)` splits into the trimmed statement and the trimmed reason |
| ParserProperties.SoftWithoutReason | src/parser.js:175-179 | text not ending in `)` is the statement with no rationale |
| ParserProperties.HardTailInLine | src/parser.js:147 | in a line, `**`, white space, a dash, white space and text give the text to the end of the line as rationale |
| ParserProperties.StatementEndInLine | src/parser.js:147 | the lazy statement ends at the first `**` that is followed by a dash and a rationale |
| ParserProperties.HardConstraintInLine | src/parser.js:147-153 | a line laid out as number, dot, white space, bold statement, dash and rationale gives the trimmed statement and rationale, and the match ends at the line end |
| ParserProperties.HardLineReadsBack | src/parser.js:147-153 | round trip: a hard-constraint line written from its pieces reads back as the trimmed statement and rationale |
| ParserProperties.HardOfLine | src/parser.js:147-153 | what one line contributes to the hard constraints; when it gives one, the line starts with a digit and both fields are trimmed |
| ParserProperties.HardOfLineShape | src/parser.js:147-153 | only a line laid out as number, dot, white space, `**statement**`, white space, dash, white space and rationale gives a hard constraint, and it is the trimmed statement and the trimmed rationale |
| ParserProperties.HardOfLineOpen | src/parser.js:147 | a line with a hard constraint starts with a number, a dot, white space and `**` |
| ParserProperties.HardAgrees | src/parser.js:147 | on a line that cannot reach into the next one, the pattern finds what it finds on the line alone, whatever follows |
| ParserProperties.HardMatchesLine | src/parser.js:147 | the hard-constraint pattern takes such a line whole or not at all |
| ParserProperties.HardConstraintsOfLines | src/parser.js:143-156 | hard constraints over lines: one per line that matches the pattern, in line order, and nothing for any other line |
| ParserProperties.TableLinesOfLines | src/parser.js:62 | splitting joined lines and filtering is filtering the lines |
| ParserProperties.DataRowsInOrder | src/parser.js:75-87 | the data rows are one row per full-width line, in line order |
| ParserProperties.FullWidthRows | src/parser.js:80 | when every data line has as many cells as headers, no row is dropped |
| ParserProperties.RowCellReadsAs | src/parser.js:96-99 | the `row.key or null` read gives a cell back: `null` for `-` or the empty cell, the cell text otherwise |
| ParserProperties.HeaderMarkAtIff | src/parser.js:305 | the split pattern matches exactly at a line start holding `##` and a white-space character |
| ParserProperties.SplitPartsNoMark | src/parser.js:305 | with no header after q, the split leaves the rest as one part |
| ParserProperties.SplitPartsNextMark | src/parser.js:305 | the split cuts at the next header mark and resumes after its white space |
| ParserProperties.FirstPart | src/parser.js:305-310 | the first part is a prefix of the text that runs up to the first header mark and contains none |
| ParserProperties.AddSectionsKeeps | src/parser.js:313-321 | the loop never removes a key |
| ParserProperties.AddSectionsNormalized | src/parser.js:318 | the loop only adds normalised keys |
| ParserProperties.SectionsShape | src/parser.js:301-324 | `_header` is always present; every section name is normalised; the preamble is the text before the first header mark |
| ParserProperties.NoSections | src/parser.js:301-324 | a text without a header line gives only `_header`, holding the whole text |
| ParserProperties.NoSectionsDefaults | src/parser.js:329-348 | without sections, every section field takes its default (`null` or `[]`), while title and version still come from the whole text |
| ParserProperties.PartsOfOneSection | src/parser.js:305 | a preamble and one section split into exactly those two parts |
| ParserProperties.MarkBeforeName | src/parser.js:305 | `## ` at a line start before a name is a header mark ending at the name |
| ParserProperties.AddOnePart | src/parser.js:314-320 | one part with a newline adds its normalised name, mapped to the text after the newline |
| ParserProperties.OneSection | src/parser.js:301-324 | round trip: a preamble followed by `## name` and a body gives the preamble and one section, the body under the normalised name |
| ParserProperties.LastValueOfFirst | src/parser.js:41 | reading the last value for a key from the end agrees with folding the first pair in |
| ParserProperties.AssignLastWins | src/parser.js:39-42 | a key is in the result exactly when some pair or the starting map gives it a value, and the value is the last one assigned |
| ParserProperties.KeyValueInLine | src/parser.js:37-41 | a `**key:** value` line gives the normalised key and the trimmed value, and the match ends at the line end |
| ParserProperties.OneKeyValueLine | src/parser.js:35-44 | round trip: one `**key:** value` line parses to exactly one pair |
| ParserProperties.KeyValueMatchesLine | src/parser.js:37 | the pattern treats a well-formed key/value line or a line without `*` as a whole |
| ParserProperties.CollectPairs | src/parser.js:37-41 | the pairs found line by line are the pairs written, in order |
| ParserProperties.KeyValueLines | src/parser.js:35-44 | round trip: a block of key/value lines and plain lines parses to the written pairs, assigned in order |
| HeaderProperties.BarFieldAt | src/parser.js:11 | a label followed by bar-free text and a bar gives that text as the field |
| HeaderProperties.BarFieldInLine | src/parser.js:11 | the same inside the first line of a text |
| HeaderProperties.VersionHeaderAtPieces | src/parser.js:11 | the three groups found one after the other make the version match |
| HeaderProperties.DomainInLine | src/parser.js:11 | `Domain:` and text in a line give the text to the end of the line |
| HeaderProperties.VersionSpansInLine | src/parser.js:11 | a line in the version layout gives the three groups between the labels and the bars |
| HeaderProperties.VersionHeaderAtLayout | src/parser.js:11-19 | such a line gives the three groups trimmed, and the match ends at the line end |
| HeaderProperties.VersionHeaderAtLine | src/parser.js:11-19 | a version line written from its fields reads them back trimmed |
| HeaderProperties.VersionLineReadsBack | src/parser.js:10-20 | round trip: in a document whose earlier lines do not start with `>`, the written version line reads back its trimmed fields |
| HeaderProperties.NoVersionLine | src/parser.js:11-14 | a text in which no line starts with `>` gives three `null` fields |
| HeaderProperties.TitleAtLine | src/parser.js:27-28 | a `# Agent Spec: name` line reads back the trimmed name |
| HeaderProperties.TitleReadsBack | src/parser.js:26-29 | round trip: in a document whose earlier lines do not start with `#`, the title line reads back the trimmed name |
| HeaderProperties.SpecHeaderReadsBack | src/parser.js:329-348 | round trip through the whole parser: a document that opens with the title line and the version line gives a spec with the trimmed name, version, status and domain, whatever sections follow |
| HeaderProperties.NoTitleLine | src/parser.js:27-28 | a text in which no line starts with `#` gives no title |
| HeaderProperties.FirstAfterLines | src/parser.js:27 | `match` passes over earlier lines that cannot begin the pattern |
| SubsectionProperties.SubsectionAtHeading | src/parser.js:126-127 | `### <heading>` on its own line, then a body and then another `###` or the end: the subsection pattern for that title captures exactly the body |
| SubsectionProperties.SubsectionAtHeadingLine | src/parser.js:194-195 | the same for the constraint titles, whose heading line may go on after the title |
| SubsectionProperties.SubsectionHere | src/parser.js:126 | a heading at the start of a section is the first match for its title |
| SubsectionProperties.OtherTitleNotBefore | src/parser.js:126-127 | the pattern for another title does not match anywhere inside an earlier subsection |
| SubsectionProperties.KnowledgeOfSubsections | src/parser.js:119-137 | round trip: `### In Scope` and `### Out of Scope` subsections (any case), each followed by its list, give the bullet items of each body |
| SubsectionProperties.KnowledgeOfLines | src/parser.js:119-137 | the same for lists written line by line: one item per bullet line of each subsection, in order |
| SubsectionProperties.ConstraintsOfSubsections | src/parser.js:188-205 | round trip: `### Hard Constraints` then `### Soft Constraints` subsections give the hard constraints of the first body and the soft constraints of the second |
| SubsectionProperties.HardSubsectionFirst | src/parser.js:194 | the hard subsection at the start of the section is found with its body |
| SubsectionProperties.SoftSubsectionSecond | src/parser.js:195 | the soft subsection after the hard one is found with its body |
| SubsectionProperties.LabelledAtLabel | src/parser.js:272 | a label, a newline, a text and then `**` or the end: the label pattern captures exactly the text |
| SubsectionProperties.InterfacesOfLabels | src/parser.js:261-284 | round trip: `**Accepts handoffs from:**` and `**Hands off to:**` labels (any case), each followed by its list, give the bullet items of each text |
| SubsectionProperties.NoteSubsectionAtHeading | src/parser.js:238 | `### <heading>`, a newline, a body, then `###` or the end: the notes pattern captures the heading and the body and ends before the next subsection |
| SubsectionProperties.ScanNotesText | src/parser.js:238-240 | the `exec` loop finds every written notes subsection, in order, with its heading and body |
| SubsectionProperties.NotesOfSubsections | src/parser.js:238-253 | round trip: text without `#` followed by written subsections gives the fold of those subsections: numbered items under each normalised heading, later headings overriding earlier ones |
| SubsectionProperties.NotesOfOneSubsection | src/parser.js:240-252 | one subsection with a trimmed body: its numbered items under its normalised heading when it has some, no notes otherwise |
| SubsectionProperties.PhpstanProgressionNotes | test/converter.test.js:164-167 | `### PHPStan Progression` with the lines `1. a` and `2. b` gives the note `phpstan_progression` holding `a` and `b` |
| SubsectionProperties.NoSubsection | src/parser.js:126-127 | a section without `#` has no subsection of any title |
| SubsectionProperties.KnowledgeWithoutSubsections | src/parser.js:119-137 | a Knowledge section without `#` gives two empty lists |
| SubsectionProperties.ConstraintsWithoutSubsections | src/parser.js:188-205 | a Constraints section without `#` gives two empty lists |
| SubsectionProperties.NotesWithoutSubsections | src/parser.js:238-253 | a Success Criteria section without `#` has no notes |
| SubsectionProperties.NoKeyValuePairs | src/parser.js:35-44 | a section without `*` has no key/value pairs |
| SubsectionProperties.NoLabel | src/parser.js:272-280 | a section without `*` has no bold label |
| SubsectionProperties.InterfacesWithoutLabels | src/parser.js:261-284 | an Interfaces section without `*` has no standalone entry and two empty lists |

## Left out

- `src/converter.js` (YAML and JSON output) and `bin/spec-convert.js` (file
  reading and writing, command-line options) are not part of this model: they
  are I/O around the parser.
- Strings are sequences of Unicode characters. JavaScript strings are UTF-16
  code units, so a character outside the Basic Multilingual Plane counts as
  two there. The parser's patterns only look at ASCII characters and white
  space, so this changes no result for BMP text.
- `toLowerCase` and the `i` flag are modelled for ASCII letters only. Other
  letters keep their case in the model, while JavaScript lowers them.
- JavaScript objects are modelled as maps. The model does not capture the
  special meaning of a key `__proto__`, or the order of object keys.
- The parser's results are records of immutable values, so no aliasing is
  modelled.
- BulletItemsOfLines: holds for lines without a dangling marker (`-` or `*`
  followed only by white space). For such a line, `\s+` runs into the next
  line and takes that line's text as the item. Its lines hold no line
  terminator, so a document with CRLF line ends, where each line ends in `\r`,
  is outside it; the patterns themselves treat `\r` as a line terminator, as
  JavaScript does.
- NumberedItemsOfLines: holds for lines without a dangling number (`N.`
  followed only by white space), for the same reason. Its lines hold no line
  terminator, so a document with CRLF line ends, where each line ends in `\r`,
  is outside it; the patterns themselves treat `\r` as a line terminator, as
  JavaScript does.
- SoftConstraintsOfLines: holds for lines without a dangling number, as above.
  Its lines hold no line terminator, so a document with CRLF line ends, where
  each line ends in `\r`, is outside it; the patterns themselves treat `\r` as
  a line terminator, as JavaScript does.
- SoftWithReason: states sufficient conditions (no `(` in the statement, no
  `)` in the reason). The exact split for other texts is defined by
  `Parser.ReasonSplit` and not restated as a line-level law.
- HardLineReadsBack: covers statements without `*`. A statement may contain
  `*`; the lazy group then ends at the first `**` followed by a dash, which
  `Parser.StatementEnd` states.
- KeyValueLines: covers blocks whose other lines contain no `*`. A line with
  several bold labels, or a value running into the next line, is described
  only by `Parser.KeyValueAt`. Its lines hold no line terminator, so a
  document with CRLF line ends, where each line ends in `\r`, is outside it;
  the patterns themselves treat `\r` as a line terminator, as JavaScript does.
- VersionLineReadsBack: covers the usual layout (`> Version:` at the start of
  the line, one space after each bar and after `Domain:`). Other layouts are
  described by `Parser.VersionSpans` alone. Its lines hold no line terminator,
  so a document with CRLF line ends, where each line ends in `\r`, is outside
  it; the patterns themselves treat `\r` as a line terminator, as JavaScript
  does.
- TitleReadsBack: covers `# Agent Spec: ` with single spaces. Other spacing is
  described by `Parser.TitleAt`. Its lines hold no line terminator, so a
  document with CRLF line ends, where each line ends in `\r`, is outside it;
  the patterns themselves treat `\r` as a line terminator, as JavaScript does.
- HardConstraintsOfLines: holds for lines on which the pattern cannot reach
  into the next line (`DanglingHard`): a number and dot followed only by white
  space, or a closing `**` followed only by white space, or by a dash and only
  white space. On such a line `\s+` or `\s*` crosses the newline. Lines
  holding `\r` are outside it, as for the other line laws.
- KnowledgeOfSubsections: covers `### In Scope` before `### Out of Scope`,
  each heading alone on its line and each body not starting with white space,
  holding no `###` and not ending in `#` (`SubsectionBody`). Other layouts are
  described by `Parser.SubsectionAt` and `Parser.Subsection`.
- KnowledgeOfLines: the same layout, with bullet lines that do not dangle and
  hold no `\r`.
- ConstraintsOfSubsections: covers the hard subsection before the soft one,
  with bodies as in `SubsectionBody`; the hard heading line holds no `#` after
  its title. The reverse order is described by `Parser.Subsection`.
- InterfacesOfLabels: covers `**Accepts handoffs from:**` before `**Hands off
  to:**`, each label followed by a newline and a text that does not start with
  white space, holds no `**` and does not end in `*` (`LabelBody`). It does
  not state the `standalone` field, which `Parser.ParseInterfaces` and
  `ParserProperties.AssignLastWins` describe.
- NotesOfSubsections: covers subsections written as `### `, a heading that
  does not start with white space, a newline and a body as in
  `SubsectionBody`, after text without `#`. A heading with nothing after the
  `###` but white space is described only by `Parser.NoteTitleStart`.
- ParseVersionHeader, ParseTitle: a match is tied to a line starting with `>`
  or `#` and to its fields; which of several candidate lines wins is stated by
  `LineScan.FirstIsAMatch`, not restated for these two patterns.

## Code and description

Where the format's written description and the code differ, the model follows
the code:

- The bullet and numbered-list patterns use `\s+`, which crosses a newline. A
  line holding only a marker therefore takes the next line's text as its item.
  The description speaks of single-line items only.
- The hard-constraint pattern uses `\s+` after the number and `\s*` after
  the closing `**` and after the dash, all of which cross a newline. So
  `1. **a**` followed by the line `- b` is read as one constraint with
  statement `a` and rationale `b`, and so is `1.` followed by the line
  `**a** - b`. The description says only lines of the form
  `N. **statement** - rationale` give a constraint.
- The version pattern's fields are `[^\|]+`, which can also cross newlines. A
  version field can therefore span several lines, although the description
  calls the header a single line.
- A section headed `## _header` normalises to `_header`. It replaces the
  preamble stored under that key.
