/**
 * The agent-spec parser: it turns the Markdown text of one agent spec into a
 * structured record. Each regular expression of the parser is a matcher that
 * says what the pattern extracts at the start of a text; each parsing
 * operation is a function over those matchers; the operations the parser
 * carries out with `exec` loops or `for` loops are methods that run the same
 * loop over an explicit position and are proved to return what the function
 * says.
 */
module Parser {
  import opened Optional
  import opened Text
  import opened LineScan

  // ---------------------------------------------------------------------------
  // The parsed record. `None` stands for JavaScript's `null`.
  // ---------------------------------------------------------------------------

  datatype VersionHeader = VersionHeader(version: Option<string>, status: Option<string>, domain: Option<string>)

  datatype Identity = Identity(name: Option<string>, role: Option<string>, personality: Option<string>)

  datatype Capability = Capability(capability: Option<string>, description: Option<string>, delegatesTo: Option<string>)

  datatype Knowledge = Knowledge(inScope: seq<string>, outOfScope: seq<string>)

  datatype HardConstraint = HardConstraint(statement: string, rationale: string)

  datatype SoftConstraint = SoftConstraint(statement: string, rationale: Option<string>)

  datatype Constraints = Constraints(hard: seq<HardConstraint>, soft: seq<SoftConstraint>)

  datatype InteractionStyle = InteractionStyle(
    tone: Option<string>, verbosity: Option<string>, initiative: Option<string>, clarification: Option<string>)

  datatype Metric = Metric(metric: Option<string>, target: Option<string>, tool: Option<string>)

  datatype SuccessCriteria = SuccessCriteria(metrics: seq<Metric>, notes: map<string, seq<string>>)

  datatype Interfaces = Interfaces(standalone: Option<string>, acceptsHandoffsFrom: seq<string>, handsOffTo: seq<string>)

  datatype VersionEntry = VersionEntry(version: Option<string>, date: Option<string>, changes: Option<string>)

  datatype Spec = Spec(
    name: Option<string>,
    version: Option<string>,
    status: Option<string>,
    domain: Option<string>,
    identity: Option<Identity>,
    capabilities: seq<Capability>,
    knowledge: Option<Knowledge>,
    constraints: Option<Constraints>,
    interactionStyle: Option<InteractionStyle>,
    successCriteria: Option<SuccessCriteria>,
    interfaces: Option<Interfaces>,
    versionHistory: seq<VersionEntry>)

  /** A table row: each normalised header names its cell, `None` for a `-` cell. */
  type Row = map<string, Option<string>>

  /** A field as the record reports it: missing, or a trimmed, non-empty string. */
  predicate IsField(v: Option<string>) {
    v.Some? ==> v.value != "" && IsTrimmed(v.value)
  }

  /** `value || null`: the empty string reads as null, like a missing value. */
  function OrNull(value: Option<string>): Option<string> {
    if value.Some? && value.value != "" then value else None
  }

  /** `pairs.key || null`. */
  function Lookup(pairs: map<string, string>, key: string): Option<string> {
    OrNull(if key in pairs then Some(pairs[key]) else None)
  }

  /** `row.key || null`. */
  function Cell(row: Row, key: string): Option<string> {
    OrNull(if key in row then row[key] else None)
  }

  // ---------------------------------------------------------------------------
  // Header metadata: the version line and the title.
  // ---------------------------------------------------------------------------

  /**
   * `\s*<name>\s*([^\|]+)\s*\|` tried right after position `after`: the span
   * from the end of the label to the bar that closes the field. The group
   * itself may start later, where the white space after the label ends, but
   * it gives back one white-space character when the field is otherwise
   * empty, so it fails exactly when the bar follows the label at once, and it
   * trims to the same text as the span.
   */
  function BarField(t: string, name: string, after: nat): (r: Option<Span>)
    requires after < |t|
    ensures r.Some? ==> after + 1 + |name| <= r.value.start < r.value.end < |t| && t[r.value.end] == '|'
    ensures r.Some? ==> r.value.start == SkipSpaces(t, after + 1) + |name| && OccursAt(t, name, SkipSpaces(t, after + 1))
  {
    var a := SkipSpaces(t, after + 1);
    if !OccursAt(t, name, a) then None
    else
      var b := a + |name|;
      var bar := IndexOfChar(t, '|', b);
      if bar == |t| || bar == b then None else Some(Span(b, bar))
  }

  /** Where `^>\s*Version:\s*([^\|]+)\s*\|\s*Status:\s*([^\|]+)\s*\|\s*Domain:\s*(.+)$`
      (flag `m`), tried at the start of t, finds its three groups: the version
      and the status run from after their labels up to the bars, the domain
      is the rest of the line. */
  function VersionSpans(t: string): (r: Option<(Span, Span, Span)>)
    ensures r.Some? ==> 0 < |t| && t[0] == '>'
    ensures r.Some? ==> 8 < r.value.0.start < r.value.0.end < r.value.1.start
    ensures r.Some? ==> r.value.1.start < r.value.1.end < r.value.2.start < r.value.2.end <= |t|
  {
    if |t| == 0 || t[0] != '>' then None
    else
      var version := BarField(t, "Version:", 0);
      if version.None? then None
      else
        var status := BarField(t, "Status:", version.value.end);
        if status.None? then None
        else
          var domain := DomainAt(t, status.value.end);
          if domain.None? then None
          else Some((version.value, status.value, domain.value))
  }

  /** `\s*Domain:\s*(.+)$` tried right after position `after`: the span of its group. */
  function DomainAt(t: string, after: nat): (r: Option<Span>)
    requires after < |t|
    ensures r.Some? ==> after + 8 <= r.value.start < r.value.end <= |t|
    ensures r.Some? ==> OccursAt(t, "Domain:", SkipSpaces(t, after + 1))
  {
    var e := SkipSpaces(t, after + 1);
    if !OccursAt(t, "Domain:", e) then None else RestOfLine(t, e + 7, 0)
  }

  /** The version pattern tried at the start of t: its three groups, trimmed. */
  function VersionHeaderAt(t: string): (r: Option<Found<VersionHeader>>)
    ensures r.Some? ==> 0 < r.value.end <= |t| && t[0] == '>'
    ensures r.Some? ==> var h := r.value.value;
      && h.version.Some? && h.status.Some? && h.domain.Some?
      && IsTrimmed(h.version.value) && IsTrimmed(h.status.value) && IsTrimmed(h.domain.value)
  {
    match VersionSpans(t)
    case None => None
    case Some((v, s, d)) =>
      var h := VersionHeader(Some(Trim(t[v.start..v.end])), Some(Trim(t[s.start..s.end])), Some(Trim(t[d.start..d.end])));
      Some(Found(h, d.end))
  }

  /** A text the version pattern matches at its start holds the three labels. */
  lemma VersionLabels(t: string)
    requires VersionSpans(t).Some?
    ensures Contains(t, "Version:") && Contains(t, "Status:") && Contains(t, "Domain:")
  {
    VersionLabel(t);
    StatusLabel(t);
    DomainLabel(t);
  }

  lemma VersionLabel(t: string)
    requires VersionSpans(t).Some?
    ensures Contains(t, "Version:")
  {
    BarFieldLabel(t, "Version:", 0);
  }

  lemma StatusLabel(t: string)
    requires VersionSpans(t).Some?
    ensures Contains(t, "Status:")
  {
    var version := BarField(t, "Version:", 0);
    BarFieldLabel(t, "Status:", version.value.end);
  }

  lemma DomainLabel(t: string)
    requires VersionSpans(t).Some?
    ensures Contains(t, "Domain:")
  {
    var version := BarField(t, "Version:", 0);
    var status := BarField(t, "Status:", version.value.end);
    DomainAtLabel(t, status.value.end);
  }

  /** A field the bar pattern finds follows its label. */
  lemma BarFieldLabel(t: string, name: string, after: nat)
    requires after < |t| && BarField(t, name, after).Some?
    ensures Contains(t, name)
  {
    assert OccursAt(t, name, SkipSpaces(t, after + 1));
  }

  /** A domain the pattern finds follows its label. */
  lemma DomainAtLabel(t: string, after: nat)
    requires after < |t| && DomainAt(t, after).Some?
    ensures Contains(t, "Domain:")
  {
    assert OccursAt(t, "Domain:", SkipSpaces(t, after + 1));
  }

  /** `parseVersionHeader(content)`: the fields of the first line start where the
      version pattern matches, or three nulls. */
  function ParseVersionHeader(content: string): (h: VersionHeader)
    // all three fields or none: a partial match is never reported
    ensures h.version.Some? == h.status.Some? == h.domain.Some?
    ensures h.version.Some? ==> IsTrimmed(h.version.value) && IsTrimmed(h.status.value) && IsTrimmed(h.domain.value)
    ensures h.version.Some? ==> Contains(content, "Version:") && Contains(content, "Status:") && Contains(content, "Domain:")
    // the header comes from a line that starts with `>`
    ensures h.version.Some? ==> exists i :: 0 <= i < |content| && LineStartAt(content, i) && content[i] == '>'
  {
    match First(content, true, VersionHeaderAt)
    case None => VersionHeader(None, None, None)
    case Some(found) =>
      FirstIsAMatch(content, true, VersionHeaderAt);
      var i :| 0 <= i <= |content| && TriedAt(content, true, i)
        && VersionHeaderAt(content[i..]).Some? && VersionHeaderAt(content[i..]).value.value == found;
      assert content[i..][0] == content[i];
      VersionLabels(content[i..]);
      ContainsOfSuffix(content, i, "Version:");
      ContainsOfSuffix(content, i, "Status:");
      ContainsOfSuffix(content, i, "Domain:");
      found
  }

  /** `^#\s+Agent Spec:\s*(.+)$` (flag `m`) tried at the start of t. */
  function TitleAt(t: string): (r: Option<Found<string>>)
    ensures r.Some? ==> 0 < r.value.end <= |t| && t[0] == '#' && IsTrimmed(r.value.value)
  {
    if |t| == 0 || t[0] != '#' then None
    else
      var a := SkipSpaces(t, 1);
      if a == 1 || !OccursAt(t, "Agent Spec:", a) then None
      else
        match RestOfLine(t, a + 11, 0)
        case None => None
        case Some(g) => Some(Found(Trim(t[g.start..g.end]), g.end))
  }

  /** `parseTitle(content)`: the trimmed name of the first title line, or null. */
  function ParseTitle(content: string): (name: Option<string>)
    ensures name.Some? ==> IsTrimmed(name.value)
    // the name comes from a line that starts with `#`
    ensures name.Some? ==> exists i :: 0 <= i < |content| && LineStartAt(content, i) && content[i] == '#'
  {
    var r := First(content, true, TitleAt);
    if r.Some? then
      FirstIsAMatch(content, true, TitleAt);
      var i :| 0 <= i <= |content| && TriedAt(content, true, i)
        && TitleAt(content[i..]).Some? && TitleAt(content[i..]).value.value == r.value;
      assert content[i..][0] == content[i];
      r
    else r
  }

  // ---------------------------------------------------------------------------
  // Bold key/value lines.
  // ---------------------------------------------------------------------------

  /** `\*\*([^:]+):\*\*\s*(.+)` tried at the start of t: the normalised key and
      the trimmed value. `[^:]+` runs to the first colon, across newlines too. */
  function KeyValueAt(t: string): (r: Option<Found<(string, string)>>)
    ensures r.Some? ==> 0 < r.value.end <= |t| && t[0] == '*'
    ensures r.Some? ==> IsNormalizedKey(r.value.value.0) && IsTrimmed(r.value.value.1)
  {
    if !OccursAt(t, "**", 0) then None
    else
      var colon := IndexOfChar(t, ':', 2);
      if colon == 2 || !OccursAt(t, ":**", colon) then None
      else
        match RestOfLine(t, colon + 3, 0)
        case None => None
        case Some(g) =>
          OccursAtHead(t, "**", 0);
          Some(Found((NormalizeKey(t[2..colon]), Trim(t[g.start..g.end])), g.end))
  }

  /** `result[key] = value` for each pair in turn: a later pair overwrites an earlier one. */
  function Assign(pairs: map<string, string>, found: seq<(string, string)>): map<string, string>
    decreases |found|
  {
    if found == [] then pairs else Assign(pairs[found[0].0 := found[0].1], found[1..])
  }

  /** What `parseKeyValuePairs(section)` returns. */
  function KeyValuePairs(section: string): map<string, string>
  {
    Assign(map[], ScanAll(section, KeyValueAt))
  }

  /** `parseKeyValuePairs`: the `exec` loop over the bold key/value pattern. */
  method ParseKeyValuePairs(section: string) returns (result: map<string, string>)
    ensures result == KeyValuePairs(section)
  {
    result := map[];
    var i := 0;
    while i < |section|
      invariant 0 <= i <= |section|
      invariant Assign(result, ScanAll(section[i..], KeyValueAt)) == KeyValuePairs(section)
    {
      var found := KeyValueAt(section[i..]);
      if found.Some? {
        var next := i + found.value.end;
        ScanAllTakes(section, i, next, KeyValueAt);
        AssignFirst(result, found.value.value, ScanAll(section[next..], KeyValueAt));
        var (key, value) := found.value.value;
        result := result[key := value];
        i := next;
      } else {
        var next := i + 1;
        ScanAllMoves(section, i, next, KeyValueAt);
        i := next;
      }
    }
  }

  /** Assigning a pair and then the rest is assigning all of them. */
  lemma AssignFirst(pairs: map<string, string>, pair: (string, string), rest: seq<(string, string)>)
    ensures Assign(pairs, [pair] + rest) == Assign(pairs[pair.0 := pair.1], rest)
  {
    assert ([pair] + rest)[0] == pair && ([pair] + rest)[1..] == rest;
  }

  /** `parseIdentity(section)`. */
  function ParseIdentity(section: string): (identity: Identity)
    ensures IsField(identity.name) && IsField(identity.role) && IsField(identity.personality)
  {
    var pairs := KeyValuePairs(section);
    KeyValuePairsAreTrimmed(section);
    Identity(Lookup(pairs, "name"), Lookup(pairs, "role"), Lookup(pairs, "personality"))
  }

  /** `parseInteractionStyle(section)`. */
  function ParseInteractionStyle(section: string): (style: InteractionStyle)
    ensures IsField(style.tone) && IsField(style.verbosity) && IsField(style.initiative) && IsField(style.clarification)
  {
    var pairs := KeyValuePairs(section);
    KeyValuePairsAreTrimmed(section);
    InteractionStyle(Lookup(pairs, "tone"), Lookup(pairs, "verbosity"), Lookup(pairs, "initiative"), Lookup(pairs, "clarification"))
  }

  /** Every key the key/value parser reports is normalised and every value trimmed. */
  lemma KeyValuePairsAreTrimmed(section: string)
    ensures forall k <- KeyValuePairs(section) :: IsNormalizedKey(k) && IsTrimmed(KeyValuePairs(section)[k])
  {
    var P := (kv: (string, string)) => IsNormalizedKey(kv.0) && IsTrimmed(kv.1);
    ScanAllKeeps(section, KeyValueAt, P);
    AssignKeeps(map[], ScanAll(section, KeyValueAt));
  }

  lemma {:induction false} AssignKeeps(pairs: map<string, string>, found: seq<(string, string)>)
    requires forall k <- pairs :: IsNormalizedKey(k) && IsTrimmed(pairs[k])
    requires forall j :: 0 <= j < |found| ==> IsNormalizedKey(found[j].0) && IsTrimmed(found[j].1)
    ensures forall k <- Assign(pairs, found) :: IsNormalizedKey(k) && IsTrimmed(Assign(pairs, found)[k])
    decreases |found|
  {
    if found != [] {
      AssignKeeps(pairs[found[0].0 := found[0].1], found[1..]);
    }
  }

  // ---------------------------------------------------------------------------
  // Pipe tables.
  // ---------------------------------------------------------------------------

  /** A line the table parser keeps: once trimmed, it starts with `|`. */
  predicate IsTableLine(line: string) {
    var t := Trim(line);
    |t| > 0 && t[0] == '|'
  }

  /** `lines.filter(line => line.trim().startsWith('|'))`. */
  function KeepTableLines(lines: seq<string>): seq<string>
  {
    if lines == [] then []
    else (if IsTableLine(lines[0]) then [lines[0]] else []) + KeepTableLines(lines[1..])
  }

  /** The filter keeps exactly the table lines. */
  lemma {:induction false} KeepTableLinesKeeps(lines: seq<string>)
    ensures |KeepTableLines(lines)| <= |lines|
    ensures forall l :: l in KeepTableLines(lines) <==> l in lines && IsTableLine(l)
  {
    if lines != [] {
      var rest := lines[1..];
      KeepTableLinesKeeps(rest);
      var head := if IsTableLine(lines[0]) then [lines[0]] else [];
      assert KeepTableLines(lines) == head + KeepTableLines(rest);
      forall l
        ensures l in KeepTableLines(lines) <==> l in lines && IsTableLine(l)
      {
        assert l in lines <==> l == lines[0] || l in rest;
      }
    }
  }

  /** The lines of a section that belong to its table, in order. */
  function TableLines(section: string): seq<string> {
    KeepTableLines(Split(section, '\n'))
  }

  /** `parts.slice(1, parts.length - 1)`: what lies between the outer pipes. */
  function Inner(parts: seq<string>): seq<string> {
    if |parts| < 2 then [] else parts[1..|parts| - 1]
  }

  /** The header names of a table line: lower case, white-space runs as `_`. */
  function Headers(line: string): (headers: seq<string>)
    ensures forall k :: 0 <= k < |headers| ==> IsNormalizedKey(headers[k])
  {
    var parts := Inner(Split(line, '|'));
    seq(|parts|, k requires 0 <= k < |parts| => NormalizeKey(parts[k]))
  }

  /** The trimmed cells of a table line. */
  function Cells(line: string): (cells: seq<string>)
    ensures forall k :: 0 <= k < |cells| ==> IsTrimmed(cells[k])
  {
    var parts := Inner(Split(line, '|'));
    seq(|parts|, k requires 0 <= k < |parts| => Trim(parts[k]))
  }

  /** `cell === '-' ? null : cell`. */
  function CellValue(cell: string): Option<string> {
    if cell == "-" then None else Some(cell)
  }

  function HeaderSet(headers: seq<string>): set<string> {
    set h | h in headers
  }

  /** The row `headers.forEach((header, idx) => row[header] = ...)` builds:
      each header names the cell at its position. */
  function RowOf(headers: seq<string>, cells: seq<string>): Row
    requires |headers| == |cells|
    decreases |headers|
  {
    if headers == [] then map[]
    else
      var n := |headers| - 1;
      RowOf(headers[..n], cells[..n])[headers[n] := CellValue(cells[n])]
  }

  /** A row has exactly the headers as keys. */
  lemma {:induction false} RowOfKeys(headers: seq<string>, cells: seq<string>)
    requires |headers| == |cells|
    ensures RowOf(headers, cells).Keys == HeaderSet(headers)
    decreases |headers|
  {
    if headers != [] {
      var n := |headers| - 1;
      RowOfKeys(headers[..n], cells[..n]);
      assert headers == headers[..n] + [headers[n]];
      assert HeaderSet(headers) == HeaderSet(headers[..n]) + {headers[n]};
    }
  }

  /** Under a header that is not repeated further right, a row holds that
      header's cell: of repeated headers the last one wins. */
  lemma {:induction false} RowOfCell(headers: seq<string>, cells: seq<string>, k: nat)
    requires |headers| == |cells| && k < |headers|
    requires headers[k] !in headers[k + 1..]
    ensures headers[k] in RowOf(headers, cells) && RowOf(headers, cells)[headers[k]] == CellValue(cells[k])
    decreases |headers|
  {
    var n := |headers| - 1;
    if k < n {
      assert headers[k + 1..][n - k - 1] == headers[n];
      assert headers[..n][k + 1..] == headers[k + 1..n];
      RowOfCell(headers[..n], cells[..n], k);
    }
  }

  /** A value a table row holds: null for a `-` cell, else the trimmed cell. */
  predicate IsCellValue(v: Option<string>) {
    v.Some? ==> IsTrimmed(v.value) && v.value != "-"
  }

  /** Every value of a row built from trimmed cells is null or a trimmed cell other than `-`. */
  lemma {:induction false} RowValues(headers: seq<string>, cells: seq<string>)
    requires |headers| == |cells|
    requires forall k :: 0 <= k < |cells| ==> IsTrimmed(cells[k])
    ensures forall key <- RowOf(headers, cells) :: IsCellValue(RowOf(headers, cells)[key])
    decreases |headers|
  {
    if headers != [] {
      var n := |headers| - 1;
      RowValues(headers[..n], cells[..n]);
    }
  }

  /** `parseTable`'s inner `forEach`, filling one row. */
  method MakeRow(headers: seq<string>, cells: seq<string>) returns (row: Row)
    requires |headers| == |cells|
    ensures row == RowOf(headers, cells)
  {
    row := map[];
    for k := 0 to |headers|
      invariant row == RowOf(headers[..k], cells[..k])
    {
      assert headers[..k + 1][..k] == headers[..k] && cells[..k + 1][..k] == cells[..k];
      row := row[headers[k] := CellValue(cells[k])];
    }
    assert headers[..|headers|] == headers && cells[..|cells|] == cells;
  }

  /** The rows of the data lines whose cell count equals the header count, in order. */
  function DataRows(headers: seq<string>, lines: seq<string>): seq<Row>
    decreases |lines|
  {
    if lines == [] then []
    else
      var n := |lines| - 1;
      var cells := Cells(lines[n]);
      DataRows(headers, lines[..n]) + (if |cells| == |headers| then [RowOf(headers, cells)] else [])
  }

  /** Each data row has the headers as keys and only cell values; a line whose
      cell count differs from the header count yields no row. */
  lemma {:induction false} DataRowsShape(headers: seq<string>, lines: seq<string>)
    ensures |DataRows(headers, lines)| <= |lines|
    ensures forall j :: 0 <= j < |DataRows(headers, lines)| ==> DataRows(headers, lines)[j].Keys == HeaderSet(headers)
    ensures forall j, key :: 0 <= j < |DataRows(headers, lines)| && key in DataRows(headers, lines)[j] ==>
      IsCellValue(DataRows(headers, lines)[j][key])
    decreases |lines|
  {
    if lines != [] {
      var n := |lines| - 1;
      var cells := Cells(lines[n]);
      DataRowsShape(headers, lines[..n]);
      if |cells| == |headers| {
        RowOfKeys(headers, cells);
        RowValues(headers, cells);
      }
    }
  }

  /** What `parseTable(section)` returns: nothing unless there are a header
      line, a separator line and at least one more table line. */
  function TableRows(section: string): seq<Row>
  {
    var lines := TableLines(section);
    if |lines| < 3 then [] else DataRows(Headers(lines[0]), lines[2..])
  }

  /** Each row of a table has the header names as keys and holds null or
      trimmed text other than `-`; there are no more rows than data lines. */
  lemma TableRowsShape(section: string)
    ensures |TableRows(section)| <= if |TableLines(section)| < 3 then 0 else |TableLines(section)| - 2
    ensures forall j :: 0 <= j < |TableRows(section)| ==> TableRows(section)[j].Keys == HeaderSet(Headers(TableLines(section)[0]))
    ensures forall j, key :: 0 <= j < |TableRows(section)| && key in TableRows(section)[j] ==> IsCellValue(TableRows(section)[j][key])
  {
    var lines := TableLines(section);
    if |lines| >= 3 {
      DataRowsShape(Headers(lines[0]), lines[2..]);
    }
  }

  /** `parseTable`: the filter, then the `for` loop over the data lines. */
  method ParseTable(section: string) returns (rows: seq<Row>)
    ensures rows == TableRows(section)
  {
    var lines := TableLines(section);
    if |lines| < 3 {
      return [];
    }
    var headers := Headers(lines[0]);
    rows := [];
    var i := 2;
    while i < |lines|
      invariant 2 <= i <= |lines|
      invariant rows == DataRows(headers, lines[2..i])
    {
      var cells := Cells(lines[i]);
      var next := i + 1;
      DataRowsStep(headers, lines, i, next);
      if |cells| == |headers| {
        var row := MakeRow(headers, cells);
        rows := rows + [row];
      }
      i := next;
    }
    assert lines[2..i] == lines[2..];
  }

  /** One more data line adds its row, if it has one, at the end. */
  lemma DataRowsStep(headers: seq<string>, lines: seq<string>, i: nat, next: nat)
    requires 2 <= i < |lines| && next == i + 1
    ensures DataRows(headers, lines[2..next]) == DataRows(headers, lines[2..i])
      + (if |Cells(lines[i])| == |headers| then [RowOf(headers, Cells(lines[i]))] else [])
  {
    SliceSnoc(lines, 2, i);
    DataRowsSnoc(headers, lines[2..i], lines[i]);
  }

  lemma DataRowsSnoc(headers: seq<string>, lines: seq<string>, line: string)
    ensures DataRows(headers, lines + [line]) == DataRows(headers, lines)
      + (if |Cells(line)| == |headers| then [RowOf(headers, Cells(line))] else [])
  {
    assert (lines + [line])[..|lines|] == lines;
  }

  /** `parseCapabilities(section)`. */
  function ParseCapabilities(section: string): (capabilities: seq<Capability>)
    ensures |capabilities| == |TableRows(section)|
    ensures forall j :: 0 <= j < |capabilities| ==>
      var c := capabilities[j];
      IsField(c.capability) && IsField(c.description) && IsField(c.delegatesTo)
      && c.delegatesTo != Some("-")
  {
    var rows := TableRows(section);
    TableRowsShape(section);
    seq(|rows|, j requires 0 <= j < |rows| =>
      Capability(Cell(rows[j], "capability"), Cell(rows[j], "description"), Cell(rows[j], "delegates_to")))
  }

  /** `parseVersionHistory(section)`. */
  function ParseVersionHistory(section: string): (history: seq<VersionEntry>)
    ensures |history| == |TableRows(section)|
    ensures forall j :: 0 <= j < |history| ==>
      IsField(history[j].version) && IsField(history[j].date) && IsField(history[j].changes)
  {
    var rows := TableRows(section);
    TableRowsShape(section);
    seq(|rows|, j requires 0 <= j < |rows| =>
      VersionEntry(Cell(rows[j], "version"), Cell(rows[j], "date"), Cell(rows[j], "changes")))
  }

  // ---------------------------------------------------------------------------
  // Bullet lists and the Knowledge section.
  // ---------------------------------------------------------------------------

  /** `^[-*]\s+(.+)$` (flag `m`) tried at the start of t: the trimmed item. */
  function BulletAt(t: string): (r: Option<Found<string>>)
    ensures r.Some? ==> 0 < r.value.end <= |t| && (t[0] == '-' || t[0] == '*') && IsTrimmed(r.value.value)
  {
    if |t| == 0 || (t[0] != '-' && t[0] != '*') then None
    else
      match RestOfLine(t, 1, 1)
      case None => None
      case Some(g) => Some(Found(Trim(t[g.start..g.end]), g.end))
  }

  /** What `parseBulletList(section)` returns. */
  function BulletItems(section: string): seq<string> {
    Scan(section, true, BulletAt)
  }

  /** `parseBulletList`: the `exec` loop over the bullet pattern. */
  method ParseBulletList(section: string) returns (items: seq<string>)
    ensures items == BulletItems(section)
  {
    items := ExecLines(section, BulletAt);
  }

  /**
   * A subsection match f starting at the beginning of t takes its body from w
   * to its end: w is past the title (and the rest of its line with
   * `toLineEnd`) and the white space that follows, and the end is the first
   * `###` from w on, or the end of the text.
   */
  predicate SubsectionMatch(t: string, title: string, toLineEnd: bool, f: Found<string>) {
    && 3 <= |t|
    && var a, w := SkipSpaces(t, 3) + |title|, f.end - |f.value|;
    && a <= w <= f.end <= |t|
    && f.value == t[w..f.end]
    && (w == |t| || !IsSpace(t[w]))
    && (!toLineEnd ==> AllSpaces(t[a..w]))
    && (toLineEnd ==> IndexOfChar(t, '\n', a) <= w && AllSpaces(t[IndexOfChar(t, '\n', a)..w]))
    && (forall k :: w <= k < f.end ==> !OccursAt(t, "###", k))
    && (f.end == |t| || OccursAt(t, "###", f.end))
  }

  /**
   * `###\s*<title>\s*([\s\S]*?)(?=###|$)` (flag `i`, title given in lower
   * case) tried at the start of t; with `toLineEnd` the title is followed by
   * `[^\n]*` as well. The body runs to the first `###` anywhere after it, or
   * to the end of the text.
   */
  function SubsectionAt(title: string, toLineEnd: bool, t: string): (r: Option<Found<string>>)
    ensures r.Some? ==> 0 < r.value.end <= |t| && t[0] == '#'
    // a match needs `###` at the start and the title after the white space
    ensures r.Some? <==> OccursAt(t, "###", 0) && OccursAtIgnoreCase(t, title, SkipSpaces(t, 3))
    // the body runs from after the title and its white space to the first `###` or the end
    ensures r.Some? ==> SubsectionMatch(t, title, toLineEnd, r.value)
    ensures r.Some? ==> !Contains(r.value.value, "###")
  {
    if !OccursAt(t, "###", 0) then None
    else
      var a := SkipSpaces(t, 3);
      if !OccursAtIgnoreCase(t, title, a) then None
      else
        var b := if toLineEnd then IndexOfChar(t, '\n', a + |title|) else a + |title|;
        var w := SkipSpaces(t, b);
        var q := IndexOf(t, "###", w);
        SubsectionBodyOf(t, title, toLineEnd, b, w, q);
        OccursAtHead(t, "###", 0);
        Some(Found(t[w..q], q))
  }

  /** The positions SubsectionAt computes make a match as SubsectionMatch says. */
  lemma SubsectionBodyOf(t: string, title: string, toLineEnd: bool, b: nat, w: nat, q: nat)
    requires OccursAt(t, "###", 0) && OccursAtIgnoreCase(t, title, SkipSpaces(t, 3))
    requires b == if toLineEnd then IndexOfChar(t, '\n', SkipSpaces(t, 3) + |title|) else SkipSpaces(t, 3) + |title|
    requires w == SkipSpaces(t, b) && q == IndexOf(t, "###", w)
    ensures w <= q <= |t| && SubsectionMatch(t, title, toLineEnd, Found(t[w..q], q))
    ensures !Contains(t[w..q], "###")
  {
    NoMarkBefore(t, "###", w, q);
    SpacesBetween(t, b, w);
  }

  /** `section.match(...)` for a subsection pattern: the body of the first match. */
  function Subsection(section: string, title: string, toLineEnd: bool): (body: Option<string>)
    ensures body.Some? ==> !Contains(body.value, "###")
    // the body of the leftmost position where the pattern matches
    ensures body.Some? ==> exists i :: 0 <= i <= |section| && SubsectionAt(title, toLineEnd, section[i..]).Some?
                                     && SubsectionAt(title, toLineEnd, section[i..]).value.value == body.value
                                     && forall k :: 0 <= k < i ==> SubsectionAt(title, toLineEnd, section[k..]).None?
    ensures body.None? <==> forall i :: 0 <= i <= |section| ==> SubsectionAt(title, toLineEnd, section[i..]).None?
  {
    var r := FirstAnywhere(section, t => SubsectionAt(title, toLineEnd, t));
    FirstAnywhereNoMatch(section, t => SubsectionAt(title, toLineEnd, t));
    if r.Some? then FirstAnywhereIsAMatch(section, t => SubsectionAt(title, toLineEnd, t)); r else r
  }

  /** Every item of a bullet list is trimmed. */
  lemma BulletItemsAreTrimmed(section: string)
    ensures forall k :: 0 <= k < |BulletItems(section)| ==> IsTrimmed(BulletItems(section)[k])
  {
    ScanKeeps(section, true, BulletAt, IsTrimmed);
  }

  /** `match ? parseBulletList(match[1]) : []`: the bullet items of a matched
      subsection, or none when it is missing. */
  function BulletsOf(body: Option<string>): (items: seq<string>)
    ensures forall k :: 0 <= k < |items| ==> IsTrimmed(items[k])
    ensures body.None? ==> items == []
  {
    if body.Some? then BulletItemsAreTrimmed(body.value); BulletItems(body.value) else []
  }

  /** `parseKnowledge(section)`. */
  function ParseKnowledge(section: string): (knowledge: Knowledge)
    ensures forall k :: 0 <= k < |knowledge.inScope| ==> IsTrimmed(knowledge.inScope[k])
    ensures forall k :: 0 <= k < |knowledge.outOfScope| ==> IsTrimmed(knowledge.outOfScope[k])
  {
    Knowledge(BulletsOf(Subsection(section, "in scope", false)), BulletsOf(Subsection(section, "out of scope", false)))
  }

  // ---------------------------------------------------------------------------
  // Numbered constraint lists and the Constraints section.
  // ---------------------------------------------------------------------------

  predicate IsDash(c: char) {
    c == '-' || c == '\U{2013}' || c == '\U{2014}'
  }

  /** `\*\*\s*[-–—]\s*(.+)$` tried at position q: the span of the rationale. */
  function HardTailAt(t: string, q: nat): (r: Option<Span>)
    requires q <= |t|
    ensures r.Some? ==> q < r.value.start < r.value.end <= |t|
    ensures r.Some? ==> r.value.end == |t| || IsLineTerminator(t[r.value.end])
  {
    if !OccursAt(t, "**", q) then None
    else DashRest(t, SkipSpaces(t, q + 2))
  }

  /** The `[-–—]\s*(.+)$` part of the hard-constraint pattern, at w. */
  function DashRest(t: string, w: nat): (r: Option<Span>)
    requires w <= |t|
    ensures r.Some? ==> w < r.value.start < r.value.end <= |t|
    ensures r.Some? ==> r.value.end == |t| || IsLineTerminator(t[r.value.end])
  {
    if w == |t| || !IsDash(t[w]) then None
    else RestOfLine(t, w + 1, 0)
  }

  /** The lazy `(.+?)` of the hard-constraint pattern, after the opening `**`
      at `open`: it ends at the first position on the same line, after one
      character at least, where the rest of the pattern matches. */
  function StatementEnd(t: string, open: nat): (r: Option<(nat, Span)>)
    requires open + 2 <= |t|
    ensures r.Some? ==> open + 2 < r.value.0 <= LineEnd(t, open + 2) && HardTailAt(t, r.value.0) == Some(r.value.1)
    ensures r.Some? ==> forall k :: open + 2 < k < r.value.0 ==> HardTailAt(t, k).None?
    ensures r.None? ==> forall k :: open + 2 < k <= LineEnd(t, open + 2) ==> HardTailAt(t, k).None?
  {
    var tail := (k: nat) requires k <= |t| => HardTailAt(t, k);
    assert forall k: nat :: k <= |t| ==> tail(k) == HardTailAt(t, k);
    FirstFrom(open + 3, LineEnd(t, open + 2), tail)
  }

  /** `^\d+\.\s+\*\*(.+?)\*\*\s*[-–—]\s*(.+)$` (flag `m`) tried at the start of t. */
  function HardConstraintAt(t: string): (r: Option<Found<HardConstraint>>)
    ensures r.Some? ==> 0 < r.value.end <= |t| && IsDigit(t[0])
    ensures r.Some? ==> IsTrimmed(r.value.value.statement) && IsTrimmed(r.value.value.rationale)
    // the `$`: the match ends at the end of a line
    ensures r.Some? ==> r.value.end == |t| || IsLineTerminator(t[r.value.end])
  {
    var d := SkipDigits(t, 0);
    if d == 0 || d == |t| || t[d] != '.' then None
    else
      var w := SkipSpaces(t, d + 1);
      if w == d + 1 || !OccursAt(t, "**", w) then None
      else HardFromOpen(t, w)
  }

  /** The hard-constraint pattern from its opening `**`, at w, on. */
  function HardFromOpen(t: string, w: nat): (r: Option<Found<HardConstraint>>)
    requires w + 2 <= |t|
    ensures r.Some? ==> w + 2 < r.value.end <= |t|
    ensures r.Some? ==> IsTrimmed(r.value.value.statement) && IsTrimmed(r.value.value.rationale)
    ensures r.Some? ==> r.value.end == |t| || IsLineTerminator(t[r.value.end])
  {
    match StatementEnd(t, w)
    case None => None
    case Some((q, g)) => Some(Found(HardConstraint(Trim(t[w + 2..q]), Trim(t[g.start..g.end])), g.end))
  }

  /** What `parseNumberedConstraints(section)` returns. */
  function HardConstraints(section: string): seq<HardConstraint> {
    Scan(section, true, HardConstraintAt)
  }

  /** Both fields of a hard constraint are trimmed. */
  predicate HardTrimmed(c: HardConstraint) {
    IsTrimmed(c.statement) && IsTrimmed(c.rationale)
  }

  /** Every hard constraint of a list has its fields trimmed. */
  lemma HardConstraintsAreTrimmed(section: string)
    ensures forall k :: 0 <= k < |HardConstraints(section)| ==> HardTrimmed(HardConstraints(section)[k])
  {
    ScanKeeps(section, true, HardConstraintAt, HardTrimmed);
  }

  /** `parseNumberedConstraints`: the `exec` loop over the hard-constraint pattern. */
  method ParseNumberedConstraints(section: string) returns (constraints: seq<HardConstraint>)
    ensures constraints == HardConstraints(section)
  {
    constraints := ExecLines(section, HardConstraintAt);
  }

  /** `^\d+\.\s+(.+)$` (flag `m`) tried at the start of t: the trimmed text. */
  function NumberedItemAt(t: string): (r: Option<Found<string>>)
    ensures r.Some? ==> 0 < r.value.end <= |t| && IsDigit(t[0]) && IsTrimmed(r.value.value)
  {
    var d := SkipDigits(t, 0);
    if d == 0 || d == |t| || t[d] != '.' then None
    else
      match RestOfLine(t, d + 1, 1)
      case None => None
      case Some(g) => Some(Found(Trim(t[g.start..g.end]), g.end))
  }

  /** The texts of the numbered items of a section, in order. */
  function NumberedItems(section: string): seq<string> {
    Scan(section, true, NumberedItemAt)
  }

  /** Whether `\s*\(([^)]+)\)$` matches from position n of text: the position of
      its `(`. The reason runs to the last character, which must be the first
      `)` after the `(`. */
  function ReasonAt(text: string, n: nat): (open: Option<nat>)
    requires n <= |text|
    ensures open.Some? ==> n <= open.value && open.value + 2 < |text|
  {
    var m := SkipSpaces(text, n);
    if m + 2 < |text| && text[m] == '(' && text[|text| - 1] == ')' && ')' !in text[m + 1..|text| - 1] then Some(m)
    else None
  }

  /** The lazy `^(.+?)` of `/^(.+?)\s*\(([^)]+)\)$/`: the shortest statement,
      of one character at least, after which a reason in parentheses closes
      the text; with the position of its `(`. */
  function ReasonSplit(text: string): (r: Option<(nat, nat)>)
    ensures r.Some? ==> 1 <= r.value.0 <= LineEnd(text, 0) && ReasonAt(text, r.value.0) == Some(r.value.1)
    ensures r.Some? ==> forall k :: 1 <= k < r.value.0 ==> ReasonAt(text, k).None?
    ensures r.None? ==> forall k :: 1 <= k <= LineEnd(text, 0) ==> ReasonAt(text, k).None?
  {
    var reason := (n: nat) requires n <= |text| => ReasonAt(text, n);
    assert forall n: nat :: n <= |text| ==> reason(n) == ReasonAt(text, n);
    FirstFrom(1, LineEnd(text, 0), reason)
  }

  /** The soft constraint one numbered item states: a trailing `(reason)` is
      split off as the rationale; otherwise the whole text is the statement. */
  function SoftConstraintOf(text: string): (c: SoftConstraint)
    ensures IsTrimmed(text) ==> SoftTrimmed(c)
  {
    match ReasonSplit(text)
    case Some((n, open)) => SoftConstraint(Trim(text[..n]), Some(Trim(text[open + 1..|text| - 1])))
    case None => SoftConstraint(text, None)
  }

  /** The statement of a soft constraint, and its rationale if any, are trimmed. */
  predicate SoftTrimmed(c: SoftConstraint) {
    IsTrimmed(c.statement) && (c.rationale.Some? ==> IsTrimmed(c.rationale.value))
  }

  /** `^\d+\.\s+(.+)$` tried at the start of t, read as a soft constraint. */
  function SoftConstraintAt(t: string): (r: Option<Found<SoftConstraint>>)
    ensures r.Some? ==> 0 < r.value.end <= |t| && IsDigit(t[0])
    ensures r.Some? ==> SoftTrimmed(r.value.value)
  {
    match NumberedItemAt(t)
    case None => None
    case Some(f) => Some(Found(SoftConstraintOf(f.value), f.end))
  }

  /** What `parseSoftConstraints(section)` returns. */
  function SoftConstraints(section: string): seq<SoftConstraint> {
    Scan(section, true, SoftConstraintAt)
  }

  /** `parseSoftConstraints`: the `exec` loop over numbered items, each split
      into statement and rationale. */
  method ParseSoftConstraints(section: string) returns (constraints: seq<SoftConstraint>)
    ensures constraints == SoftConstraints(section)
  {
    constraints := ExecLines(section, SoftConstraintAt);
  }

  /** Every soft constraint of a list has its fields trimmed. */
  lemma SoftConstraintsAreTrimmed(section: string)
    ensures forall k :: 0 <= k < |SoftConstraints(section)| ==> SoftTrimmed(SoftConstraints(section)[k])
  {
    ScanKeeps(section, true, SoftConstraintAt, SoftTrimmed);
  }

  /** `parseConstraints(section)`: the hard and soft lists of the subsections
      whose titles begin with those words, or none when one is missing. */
  function ParseConstraints(section: string): (constraints: Constraints)
    ensures Subsection(section, "hard constraints", true).None? ==> constraints.hard == []
    ensures Subsection(section, "soft constraints", true).None? ==> constraints.soft == []
    ensures Subsection(section, "hard constraints", true).Some? ==>
              constraints.hard == HardConstraints(Subsection(section, "hard constraints", true).value)
    ensures Subsection(section, "soft constraints", true).Some? ==>
              constraints.soft == SoftConstraints(Subsection(section, "soft constraints", true).value)
    ensures forall k :: 0 <= k < |constraints.hard| ==> HardTrimmed(constraints.hard[k])
    ensures forall k :: 0 <= k < |constraints.soft| ==> SoftTrimmed(constraints.soft[k])
  {
    var hard := Subsection(section, "hard constraints", true);
    var soft := Subsection(section, "soft constraints", true);
    Constraints(
      if hard.Some? then HardConstraintsAreTrimmed(hard.value); HardConstraints(hard.value) else [],
      if soft.Some? then SoftConstraintsAreTrimmed(soft.value); SoftConstraints(soft.value) else [])
  }

  // ---------------------------------------------------------------------------
  // The Success Criteria section.
  // ---------------------------------------------------------------------------

  /** The last position in [lo, hi) that does not hold a newline. */
  function LastNotNewline(s: string, lo: nat, hi: nat): (r: Option<nat>)
    requires hi <= |s|
    ensures r.Some? ==> lo <= r.value < hi && s[r.value] != '\n'
    ensures r.Some? ==> forall k :: r.value < k < hi ==> s[k] == '\n'
    ensures r.None? ==> forall k :: lo <= k < hi ==> s[k] == '\n'
    decreases hi
  {
    if hi <= lo then None
    else if s[hi - 1] != '\n' then Some(hi - 1)
    else LastNotNewline(s, lo, hi - 1)
  }

  /**
   * Where `[^\n]+` starts after `###\s*` at the start of t: after the white
   * space, or, when only white space follows the `###`, at the last character
   * of it that is not a newline, which the greedy `\s*` gives back.
   */
  function NoteTitleStart(t: string): (k: Option<nat>)
    requires 3 <= |t|
    ensures k.Some? ==> 3 <= k.value < |t| && t[k.value] != '\n' && AllSpaces(t[3..k.value])
    // white space at the title start only when nothing but newlines follows it
    ensures k.Some? && IsSpace(t[k.value]) ==> forall j :: k.value < j < |t| ==> t[j] == '\n'
    ensures k.None? ==> forall j :: 3 <= j < |t| ==> t[j] == '\n'
  {
    var w := SkipSpaces(t, 3);
    if w < |t| then
      SpacesBetween(t, 3, w);
      Some(w)
    else
      var k := LastNotNewline(t, 3, |t|);
      if k.Some? then SpacesBetween(t, 3, k.value); k else k
  }

  /**
   * `###\s*([^\n]+)\s*([\s\S]*?)(?=###|$)` tried at the start of t: the title
   * and the body. The title runs to the end of its line; only when nothing but
   * white space follows the `###` does the engine give back part of the
   * white-space run for `[^\n]+`.
   */
  function NoteSubsectionAt(t: string): (r: Option<Found<(string, string)>>)
    ensures r.Some? ==> 0 < r.value.end <= |t| && t[0] == '#'
    // a match needs `###` at the start and some character other than a newline after it
    ensures r.Some? <==> OccursAt(t, "###", 0) && NoteTitleStart(t).Some?
    // the title runs to the end of its line, and the body from after the
    // white space that follows to the first `###` or the end
    ensures r.Some? ==> NoteMatch(t, r.value)
  {
    if !OccursAt(t, "###", 0) then None
    else
      match NoteTitleStart(t)
      case None => None
      case Some(k) =>
        var b := IndexOfChar(t, '\n', k);
        var c := SkipSpaces(t, b);
        var q := IndexOf(t, "###", c);
        OccursAtHead(t, "###", 0);
        NoteMatchOf(t, k, b, c, q);
        Some(Found((t[k..b], t[c..q]), q))
  }

  /**
   * A notes-subsection match f starting at the beginning of t: its title runs
   * from where `[^\n]+` starts to the end of that line, and its body from
   * after the white space that follows the title line to the first `###` or
   * the end.
   */
  predicate NoteMatch(t: string, f: Found<(string, string)>)
    requires 3 <= |t| && NoteTitleStart(t).Some?
  {
    var k, title, body := NoteTitleStart(t).value, f.value.0, f.value.1;
    var b, c := k + |title|, f.end - |body|;
    && b <= c <= f.end <= |t|
    && title == t[k..b]
    && title != [] && '\n' !in title
    && (b == |t| || t[b] == '\n')
    && body == t[c..f.end]
    && AllSpaces(t[b..c]) && (c == |t| || !IsSpace(t[c]))
    && (forall j :: c <= j < f.end ==> !OccursAt(t, "###", j))
    && (f.end == |t| || OccursAt(t, "###", f.end))
  }

  /** The positions NoteSubsectionAt computes make a match as NoteMatch says. */
  lemma NoteMatchOf(t: string, k: nat, b: nat, c: nat, q: nat)
    requires OccursAt(t, "###", 0) && NoteTitleStart(t) == Some(k)
    requires b == IndexOfChar(t, '\n', k) && c == SkipSpaces(t, b) && q == IndexOf(t, "###", c)
    ensures k <= b <= c <= q <= |t| && NoteMatch(t, Found((t[k..b], t[c..q]), q))
  {
    var title, body := t[k..b], t[c..q];
    assert |title| == b - k && |body| == q - c;
    assert title[0] == t[k];
    forall i | 0 <= i < |title|
      ensures title[i] != '\n'
    {
      assert title[i] == t[k + i];
    }
    SpacesBetween(t, b, c);
  }

  function MetricOf(row: Row): Metric {
    Metric(Cell(row, "metric"), Cell(row, "target"), Cell(row, "tool"))
  }

  function Metrics(rows: seq<Row>): (metrics: seq<Metric>)
    ensures |metrics| == |rows|
  {
    seq(|rows|, j requires 0 <= j < |rows| => MetricOf(rows[j]))
  }

  /** One subsection: its numbered items, if it has any, under its normalised title. */
  function AddNote(notes: map<string, seq<string>>, subsection: (string, string)): map<string, seq<string>> {
    var items := NumberedItems(Trim(subsection.1));
    if |items| > 0 then notes[NormalizeKey(subsection.0) := items] else notes
  }

  function AddNotes(notes: map<string, seq<string>>, subsections: seq<(string, string)>): map<string, seq<string>>
    decreases |subsections|
  {
    if subsections == [] then notes else AddNotes(AddNote(notes, subsections[0]), subsections[1..])
  }

  /** What `parseSuccessCriteria(section)` returns. */
  function SuccessCriteriaOf(section: string): SuccessCriteria {
    SuccessCriteria(Metrics(TableRows(section)), AddNotes(map[], ScanAll(section, NoteSubsectionAt)))
  }

  /** Adding the notes of one subsection and then the rest is adding all of them. */
  lemma AddNotesFirst(notes: map<string, seq<string>>, sub: (string, string), rest: seq<(string, string)>)
    ensures AddNotes(notes, [sub] + rest) == AddNotes(AddNote(notes, sub), rest)
  {
    assert ([sub] + rest)[0] == sub && ([sub] + rest)[1..] == rest;
  }

  /** The body of the subsection loop: the numbered items of one subsection,
      if it has any, go under its normalised title. */
  method AddNotesOf(notes: map<string, seq<string>>, heading: string, body: string) returns (updated: map<string, seq<string>>)
    ensures updated == AddNote(notes, (heading, body))
  {
    var title := NormalizeKey(heading);
    var content := Trim(body);
    var items := ExecLines(content, NumberedItemAt);
    updated := notes;
    if |items| > 0 {
      updated := updated[title := items];
    }
  }

  /** The subsection loop of `parseSuccessCriteria`: the `exec` loop over
      `###` subsections, with the inner `exec` loop over each one's numbered items. */
  method ParseNotes(section: string) returns (notes: map<string, seq<string>>)
    ensures notes == SuccessCriteriaOf(section).notes
  {
    notes := map[];
    var i := 0;
    assert section[i..] == section;
    while i < |section|
      invariant 0 <= i <= |section|
      invariant AddNotes(notes, ScanAll(section[i..], NoteSubsectionAt)) == SuccessCriteriaOf(section).notes
    {
      var found := NoteSubsectionAt(section[i..]);
      if found.Some? {
        var next := i + found.value.end;
        ScanAllTakes(section, i, next, NoteSubsectionAt);
        AddNotesFirst(notes, found.value.value, ScanAll(section[next..], NoteSubsectionAt));
        notes := AddNotesOf(notes, found.value.value.0, found.value.value.1);
        i := next;
      } else {
        var next := i + 1;
        ScanAllMoves(section, i, next, NoteSubsectionAt);
        i := next;
      }
    }
  }

  /** `parseSuccessCriteria`: the metrics table, then the subsection notes. */
  method ParseSuccessCriteria(section: string) returns (result: SuccessCriteria)
    ensures result == SuccessCriteriaOf(section)
  {
    var tableRows := ParseTable(section);
    var notes := ParseNotes(section);
    result := SuccessCriteria(Metrics(tableRows), notes);
  }

  // ---------------------------------------------------------------------------
  // The Interfaces section.
  // ---------------------------------------------------------------------------

  /** `\*\*<label>\*\*\s*([\s\S]*?)(?=\*\*|$)` (flag `i`, label given in lower
      case with its `**` markers) tried at the start of t: the text up to the
      next `**` or the end. */
  function LabelledAt(tag: string, t: string): (r: Option<Found<string>>)
    requires |tag| > 0
    ensures r.Some? ==> 0 < r.value.end <= |t|
    ensures r.Some? <==> OccursAtIgnoreCase(t, tag, 0)
    // the text starts after the label and the white space that follows it,
    // and runs to the first `**` or the end
    ensures r.Some? ==> LabelMatch(tag, t, r.value)
    ensures r.Some? ==> !Contains(r.value.value, "**")
  {
    if !OccursAtIgnoreCase(t, tag, 0) then None
    else
      var w := SkipSpaces(t, |tag|);
      var q := IndexOf(t, "**", w);
      LabelMatchOf(tag, t, w, q);
      Some(Found(t[w..q], q))
  }

  /** A bold-label match f at the start of t: its text runs from after the
      label and its white space to the first `**` or the end. */
  predicate LabelMatch(tag: string, t: string, f: Found<string>) {
    var w := f.end - |f.value|;
    && |tag| <= w <= f.end <= |t|
    && f.value == t[w..f.end]
    && AllSpaces(t[|tag|..w]) && (w == |t| || !IsSpace(t[w]))
    && (forall k :: w <= k < f.end ==> !OccursAt(t, "**", k))
    && (f.end == |t| || OccursAt(t, "**", f.end))
  }

  /** The positions LabelledAt computes make a match as LabelMatch says. */
  lemma LabelMatchOf(tag: string, t: string, w: nat, q: nat)
    requires |tag| <= |t| && w == SkipSpaces(t, |tag|) && q == IndexOf(t, "**", w)
    ensures w <= q <= |t| && LabelMatch(tag, t, Found(t[w..q], q)) && !Contains(t[w..q], "**")
  {
    assert |t[w..q]| == q - w;
    NoMarkBefore(t, "**", w, q);
    SpacesBetween(t, |tag|, w);
  }

  /** `section.match(...)` for a bold label: the text after the first one. */
  function Labelled(section: string, tag: string): (text: Option<string>)
    requires |tag| > 0
    // the text after the leftmost label
    ensures text.Some? ==> exists i :: 0 <= i <= |section| && LabelledAt(tag, section[i..]).Some?
                                     && LabelledAt(tag, section[i..]).value.value == text.value
                                     && forall k :: 0 <= k < i ==> LabelledAt(tag, section[k..]).None?
    ensures text.None? <==> forall i :: 0 <= i <= |section| ==> LabelledAt(tag, section[i..]).None?
  {
    var r := FirstAnywhere(section, t => LabelledAt(tag, t));
    FirstAnywhereNoMatch(section, t => LabelledAt(tag, t));
    if r.Some? then FirstAnywhereIsAMatch(section, t => LabelledAt(tag, t)); r else r
  }

  /** `parseInterfaces(section)`. */
  function ParseInterfaces(section: string): (interfaces: Interfaces)
    ensures IsField(interfaces.standalone)
    ensures forall k :: 0 <= k < |interfaces.acceptsHandoffsFrom| ==> IsTrimmed(interfaces.acceptsHandoffsFrom[k])
    ensures forall k :: 0 <= k < |interfaces.handsOffTo| ==> IsTrimmed(interfaces.handsOffTo[k])
  {
    var pairs := KeyValuePairs(section);
    KeyValuePairsAreTrimmed(section);
    var accepts := Labelled(section, "**accepts handoffs from:**");
    var hands := Labelled(section, "**hands off to:**");
    Interfaces(
      Lookup(pairs, "standalone"),
      BulletsOf(accepts),
      BulletsOf(hands))
  }

  // ---------------------------------------------------------------------------
  // Sections and the whole spec.
  // ---------------------------------------------------------------------------

  /** `^##\s+` (flag `m`) tried at position q of s: where the delimiter ends. */
  function HeaderMarkAt(s: string, q: nat): (r: Option<nat>)
    requires q <= |s|
    ensures r.Some? ==> q + 2 < r.value <= |s| && LineStartAt(s, q) && OccursAt(s, "##", q)
  {
    if LineStartAt(s, q) && OccursAt(s, "##", q) then
      var e := SkipSpaces(s, q + 2);
      if e > q + 2 then Some(e) else None
    else None
  }

  /** `s.split(/^##\s+/m)`, continuing a part that began at p with the search at q. */
  function SplitParts(s: string, p: nat, q: nat): (parts: seq<string>)
    requires p <= q <= |s|
    ensures |parts| >= 1
    decreases |s| - q
  {
    if q == |s| then [s[p..]]
    else
      match HeaderMarkAt(s, q)
      case Some(e) => [s[p..q]] + SplitParts(s, e, e)
      case None => SplitParts(s, p, q + 1)
  }

  /** One part after a `## ` delimiter: the section it names, unless its header
      line has no newline after it. */
  function AddSection(sections: map<string, string>, part: string): map<string, string> {
    var newline := IndexOfChar(part, '\n', 0);
    if newline == |part| then sections
    else sections[NormalizeKey(part[..newline]) := part[newline + 1..]]
  }

  function AddSections(sections: map<string, string>, parts: seq<string>): map<string, string>
    decreases |parts|
  {
    if parts == [] then sections
    else AddSection(AddSections(sections, parts[..|parts| - 1]), parts[|parts| - 1])
  }

  /** What `splitSections(content)` returns. */
  function SectionsOf(content: string): map<string, string> {
    var parts := SplitParts(content, 0, 0);
    AddSections(map["_header" := parts[0]], parts[1..])
  }

  /** `splitSections`: the split, then the `for` loop over the parts. */
  method SplitSections(content: string) returns (sections: map<string, string>)
    ensures sections == SectionsOf(content)
  {
    var parts := SplitParts(content, 0, 0);
    // a split always yields at least one part: the text before the first header
    sections := map["_header" := parts[0]];
    ghost var header := sections;
    var i := 1;
    while i < |parts|
      invariant 1 <= i <= |parts|
      invariant sections == AddSections(header, parts[1..i])
    {
      var next := i + 1;
      AddSectionsStep(header, parts, i, next);
      var part := parts[i];
      var newlineIdx := IndexOfChar(part, '\n', 0);
      if newlineIdx != |part| {
        var sectionName := NormalizeKey(part[..newlineIdx]);
        var sectionContent := part[newlineIdx + 1..];
        sections := sections[sectionName := sectionContent];
      }
      i := next;
    }
    assert parts[1..i] == parts[1..];
  }

  /** One more part of the split, handed to the loop. */
  lemma AddSectionsStep(header: map<string, string>, parts: seq<string>, i: nat, next: nat)
    requires 1 <= i < |parts| && next == i + 1
    ensures AddSections(header, parts[1..next]) == AddSection(AddSections(header, parts[1..i]), parts[i])
  {
    var done := parts[1..next];
    assert done[..|done| - 1] == parts[1..i] && done[|done| - 1] == parts[i];
  }


  /** `sections.name` is truthy: present, and not the empty string. */
  predicate HasSection(sections: map<string, string>, name: string) {
    name in sections && sections[name] != ""
  }

  /** `sections.name ? parse(sections.name) : null`. */
  function ParseSection<R>(sections: map<string, string>, name: string, parse: string -> R): (r: Option<R>)
    ensures r.Some? <==> HasSection(sections, name)
    ensures r.Some? ==> r.value == parse(sections[name])
  {
    if HasSection(sections, name) then Some(parse(sections[name])) else None
  }

  /** `sections.name ? parse(sections.name) : []`. */
  function ParseTableSection<R>(sections: map<string, string>, name: string, parse: string -> seq<R>): (r: seq<R>)
    ensures !HasSection(sections, name) ==> r == []
    ensures HasSection(sections, name) ==> r == parse(sections[name])
  {
    if HasSection(sections, name) then parse(sections[name]) else []
  }

  /** `parseSpec(content)`. */
  function ParseSpec(content: string): (spec: Spec)
    // a section field is present exactly when its section is present and not
    // empty; a missing table section gives `[]`
    ensures spec.identity.Some? <==> HasSection(SectionsOf(content), "identity")
    ensures spec.knowledge.Some? <==> HasSection(SectionsOf(content), "knowledge")
    ensures spec.constraints.Some? <==> HasSection(SectionsOf(content), "constraints")
    ensures spec.interactionStyle.Some? <==> HasSection(SectionsOf(content), "interaction_style")
    ensures spec.successCriteria.Some? <==> HasSection(SectionsOf(content), "success_criteria")
    ensures spec.interfaces.Some? <==> HasSection(SectionsOf(content), "interfaces")
    ensures !HasSection(SectionsOf(content), "capabilities") ==> spec.capabilities == []
    ensures !HasSection(SectionsOf(content), "version_history") ==> spec.versionHistory == []
    // the title and the version line are read from the whole text, whatever its sections
    ensures spec.name == ParseTitle(content)
    ensures spec.version == ParseVersionHeader(content).version
    ensures spec.status == ParseVersionHeader(content).status
    ensures spec.domain == ParseVersionHeader(content).domain
  {
    var sections := SectionsOf(content);
    var header := ParseVersionHeader(content);
    Spec(
      name := ParseTitle(content),
      version := header.version,
      status := header.status,
      domain := header.domain,
      identity := ParseSection(sections, "identity", ParseIdentity),
      capabilities := ParseTableSection(sections, "capabilities", ParseCapabilities),
      knowledge := ParseSection(sections, "knowledge", ParseKnowledge),
      constraints := ParseSection(sections, "constraints", ParseConstraints),
      interactionStyle := ParseSection(sections, "interaction_style", ParseInteractionStyle),
      successCriteria := ParseSection(sections, "success_criteria", SuccessCriteriaOf),
      interfaces := ParseSection(sections, "interfaces", ParseInterfaces),
      versionHistory := ParseTableSection(sections, "version_history", ParseVersionHistory))
  }

  /** Each section that is present and not empty is read by its own parser,
      from its own text. */
  lemma SpecSections(content: string)
    ensures var spec, sections := ParseSpec(content), SectionsOf(content);
      && (HasSection(sections, "identity") ==> spec.identity == Some(ParseIdentity(sections["identity"])))
      && (HasSection(sections, "knowledge") ==> spec.knowledge == Some(ParseKnowledge(sections["knowledge"])))
      && (HasSection(sections, "constraints") ==> spec.constraints == Some(ParseConstraints(sections["constraints"])))
      && (HasSection(sections, "interaction_style") ==>
            spec.interactionStyle == Some(ParseInteractionStyle(sections["interaction_style"])))
      && (HasSection(sections, "success_criteria") ==>
            spec.successCriteria == Some(SuccessCriteriaOf(sections["success_criteria"])))
      && (HasSection(sections, "interfaces") ==> spec.interfaces == Some(ParseInterfaces(sections["interfaces"])))
      && (HasSection(sections, "capabilities") ==> spec.capabilities == ParseCapabilities(sections["capabilities"]))
      && (HasSection(sections, "version_history") ==>
            spec.versionHistory == ParseVersionHistory(sections["version_history"]))
  {
  }
}
