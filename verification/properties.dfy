/**
 * What the parser's patterns do to whole lines: for each line-oriented
 * pattern, which lines it accepts and what it extracts from them, so that a
 * scan over a text made of such lines yields one value per accepted line, in
 * order.
 */
module ParserProperties {
  import opened Optional
  import opened Text
  import opened LineScan
  import opened Parser
  import opened LineFacts

  // ---------------------------------------------------------------------------
  // Bullet lists.
  // ---------------------------------------------------------------------------

  /** A bullet marker with nothing but white space after it: the pattern's
      `\s+` would run on into the next line. */
  predicate DanglingBullet(l: string) {
    0 < |l| && (l[0] == '-' || l[0] == '*') && AllSpaces(l[1..])
  }

  /** What one line contributes to a bullet list: the trimmed text after a
      `-` or `*` marker and white space, when there is some text. */
  function BulletLine(l: string): (item: Option<string>)
    ensures item.Some? ==> item.value != [] && IsTrimmed(item.value)
  {
    if 2 <= |l| && (l[0] == '-' || l[0] == '*') && IsSpace(l[1]) && !AllSpaces(l[1..]) then Some(Trim(l[1..]))
    else None
  }

  /** The bullet pattern at the start of a text that begins with a marked line. */
  lemma BulletAtLine(t: string, l: string)
    requires BeginsWithLine(t, l) && NoLineTerminators(l) && !DanglingBullet(l)
    requires 0 < |l| && (l[0] == '-' || l[0] == '*')
    ensures BulletAt(t) == (if BulletLine(l).Some? then Some(Found(BulletLine(l).value, |l|)) else None)
  {
    LineChars(t, l);
    SkipSpacesToEnd(l, 1);
    RestOfLineInLine(t, l, 1, 1);
    var w := SkipSpaces(l, 1);
    if 1 + 1 <= w {
      SliceInLine(t, l, w, |l|);
      assert l[1..] == l[1..w] + l[w..];
      TrimLeadingSpaces(l[1..w], l[w..]);
    }
  }

  /** The bullet pattern takes a whole line or none of it. */
  lemma BulletMatchesLine(l: string)
    requires NoLineTerminators(l) && !DanglingBullet(l)
    ensures MatchesLine(BulletAt, BulletLine, l)
  {
    forall t: string | BeginsWithLine(t, l)
      ensures BulletAt(t) == (if BulletLine(l).Some? then Some(Found(BulletLine(l).value, |l|)) else None)
    {
      LineChars(t, l);
      if 0 < |l| && (l[0] == '-' || l[0] == '*') {
        BulletAtLine(t, l);
      }
    }
  }

  /**
   * A bullet list over whole lines: one trimmed, non-empty item for each line
   * that starts with `-` or `*`, white space and some text, in the order of
   * the lines; every other line is passed over.
   */
  lemma BulletItemsOfLines(lines: seq<string>)
    requires forall k :: 0 <= k < |lines| ==> NoLineTerminators(lines[k]) && !DanglingBullet(lines[k])
    ensures BulletItems(JoinLines(lines)) == Collect(lines, BulletLine)
  {
    forall k | 0 <= k < |lines| ensures MatchesLine(BulletAt, BulletLine, lines[k]) {
      BulletMatchesLine(lines[k]);
    }
    ScanJoinedLines(lines, BulletAt, BulletLine);
  }

  // ---------------------------------------------------------------------------
  // Numbered items and soft constraints.
  // ---------------------------------------------------------------------------

  /** A number and its dot with nothing but white space after them: the
      pattern's `\s+` would run on into the next line. */
  predicate DanglingNumber(l: string) {
    var d := SkipDigits(l, 0);
    0 < d < |l| && l[d] == '.' && AllSpaces(l[d + 1..])
  }

  /** What one line contributes to a numbered list: the trimmed text after a
      number, a dot and white space, when there is some text. */
  function NumberedLine(l: string): (item: Option<string>)
    ensures item.Some? ==> item.value != [] && IsTrimmed(item.value)
  {
    var d := SkipDigits(l, 0);
    if 0 < d && d + 1 < |l| && l[d] == '.' && IsSpace(l[d + 1]) && !AllSpaces(l[d + 1..]) then Some(Trim(l[d + 1..]))
    else None
  }

  /** The numbered-item pattern at the start of a text that begins with a line. */
  lemma NumberedAtLine(t: string, l: string)
    requires BeginsWithLine(t, l) && NoLineTerminators(l) && !DanglingNumber(l)
    ensures NumberedItemAt(t) == (if NumberedLine(l).Some? then Some(Found(NumberedLine(l).value, |l|)) else None)
  {
    SkipDigitsInLine(t, l, 0);
    var d := SkipDigits(l, 0);
    if 0 < d < |l| && l[d] == '.' {
      LineChars(t, l);
      NumberedAfterDot(t, l, d, d + 1);
    } else if 0 < d < |l| {
      LineChars(t, l);
    }
  }

  /** The numbered-item pattern, once the number and its dot are found: the
      text after them, if white space comes first and some text follows. */
  lemma NumberedAfterDot(t: string, l: string, d: nat, e: nat)
    requires BeginsWithLine(t, l) && NoLineTerminators(l) && !DanglingNumber(l)
    requires d == SkipDigits(l, 0) && SkipDigits(t, 0) == d && 0 < d < |l| && l[d] == '.' && t[d] == '.'
    requires e == d + 1
    ensures NumberedItemAt(t) == (if NumberedLine(l).Some? then Some(Found(NumberedLine(l).value, |l|)) else None)
  {
    SkipSpacesToEnd(l, e);
    RestOfLineInLine(t, l, e, 1);
    var w := SkipSpaces(l, e);
    if e + 1 <= w {
      TrimSliceInLine(t, l);
      TrimAfterSpaces(l, e, w);
    }
  }

  /** White space at the front of the rest of a string does not change its trim. */
  lemma TrimAfterSpaces(l: string, e: nat, w: nat)
    requires e <= w <= |l| && forall k :: e <= k < w ==> IsSpace(l[k])
    ensures Trim(l[e..]) == Trim(l[w..])
  {
    assert l[e..] == l[e..w] + l[w..];
    TrimLeadingSpaces(l[e..w], l[w..]);
  }

  lemma NumberedMatchesLine(l: string)
    requires NoLineTerminators(l) && !DanglingNumber(l)
    ensures MatchesLine(NumberedItemAt, NumberedLine, l)
  {
    forall t: string | BeginsWithLine(t, l)
      ensures NumberedItemAt(t) == (if NumberedLine(l).Some? then Some(Found(NumberedLine(l).value, |l|)) else None)
    {
      NumberedAtLine(t, l);
    }
  }

  /** A numbered list over whole lines: one trimmed, non-empty item for each
      line of the form `N. text`, in the order of the lines. */
  lemma NumberedItemsOfLines(lines: seq<string>)
    requires forall k :: 0 <= k < |lines| ==> NoLineTerminators(lines[k]) && !DanglingNumber(lines[k])
    ensures NumberedItems(JoinLines(lines)) == Collect(lines, NumberedLine)
  {
    forall k | 0 <= k < |lines| ensures MatchesLine(NumberedItemAt, NumberedLine, lines[k]) {
      NumberedMatchesLine(lines[k]);
    }
    ScanJoinedLines(lines, NumberedItemAt, NumberedLine);
  }

  /** What one line contributes to the soft constraints. */
  function SoftLine(l: string): Option<SoftConstraint> {
    match NumberedLine(l)
    case Some(text) => Some(SoftConstraintOf(text))
    case None => None
  }

  /** Soft constraints over whole lines: exactly one entry for each line of
      the form `N. text`, in the order of the lines, and nothing for any
      other line. */
  lemma SoftConstraintsOfLines(lines: seq<string>)
    requires forall k :: 0 <= k < |lines| ==> NoLineTerminators(lines[k]) && !DanglingNumber(lines[k])
    ensures SoftConstraints(JoinLines(lines)) == Collect(lines, SoftLine)
  {
    forall k | 0 <= k < |lines| ensures MatchesLine(SoftConstraintAt, SoftLine, lines[k]) {
      var l := lines[k];
      forall t: string | BeginsWithLine(t, l)
        ensures SoftConstraintAt(t) == (if SoftLine(l).Some? then Some(Found(SoftLine(l).value, |l|)) else None)
      {
        NumberedAtLine(t, l);
      }
    }
    ScanJoinedLines(lines, SoftConstraintAt, SoftLine);
  }

  /** Where the reason pattern matches in such a text: right after the
      statement, and at no earlier position. */
  lemma ReasonAfterStatement(text: string, n: nat, open: nat)
    requires 0 < n <= open < |text| - 2
    requires forall k :: 0 <= k < n ==> text[k] != '('
    requires !IsSpace(text[n - 1])
    requires forall k :: n <= k < open ==> IsSpace(text[k])
    requires text[open] == '(' && text[|text| - 1] == ')' && ')' !in text[open + 1..|text| - 1]
    ensures ReasonAt(text, n) == Some(open)
    ensures forall k :: 1 <= k < n ==> ReasonAt(text, k).None?
  {
    forall k | 1 <= k < n ensures ReasonAt(text, k).None? {
      assert SkipSpaces(text, k) < n;
    }
  }

  /**
   * A text that ends in a reason in parentheses, with no `)` inside the reason,
   * and whose statement holds no `(` and does not end in white space, splits
   * into the trimmed statement and the trimmed reason.
   */
  lemma SoftWithReason(statement: string, ws: string, reason: string)
    requires statement != [] && '(' !in statement && !IsSpace(statement[|statement| - 1])
    requires AllSpaces(ws)
    requires reason != [] && ')' !in reason
    requires NoLineTerminators(statement + ws + "(" + reason + ")")
    ensures SoftConstraintOf(statement + ws + "(" + reason + ")") == SoftConstraint(Trim(statement), Some(Trim(reason)))
  {
    var text := statement + ws + "(" + reason + ")";
    var n := |statement|;
    var open := |statement| + |ws|;
    assert text[..n] == statement;
    assert text[n..open] == ws;
    assert text[open + 1..|text| - 1] == reason;
    forall k | 0 <= k < n ensures text[k] != '(' {
      assert text[k] == statement[k];
    }
    forall k | n <= k < open ensures IsSpace(text[k]) {
      assert text[k] == text[n..open][k - n];
    }
    ReasonAfterStatement(text, n, open);
    assert LineEnd(text, 0) == |text|;
    var r := ReasonSplit(text);
    assert r.Some? && r.value.0 == n && r.value.1 == open;
    assert SoftConstraintOf(text) == SoftConstraint(Trim(text[..n]), Some(Trim(text[open + 1..|text| - 1])));
  }

  /** A text that does not end in `)` is a statement with no rationale. */
  lemma SoftWithoutReason(text: string)
    requires text == [] || text[|text| - 1] != ')'
    ensures SoftConstraintOf(text) == SoftConstraint(text, None)
  {
  }

  // ---------------------------------------------------------------------------
  // Hard constraints.
  // ---------------------------------------------------------------------------

  /** The tail `**`, dash, rationale matches at the closing `**` of a line
      laid out as the hard-constraint form. */
  lemma HardTailInLine(t: string, l: string, q: nat, dash: nat, start: nat)
    requires BeginsWithLine(t, l) && NoLineTerminators(l)
    requires q + 2 <= dash < start < |l|
    requires l[q] == '*' && l[q + 1] == '*'
    requires forall k :: q + 2 <= k < dash ==> IsSpace(l[k])
    requires IsDash(l[dash])
    requires forall k :: dash + 1 <= k < start ==> IsSpace(l[k])
    requires !IsSpace(l[start])
    ensures HardTailAt(t, q) == Some(Span(start, |l|))
  {
    LineChars(t, l);
    assert t[q..q + 2] == "**";
    var open := q + 2;
    assert SkipSpaces(t, open) == dash;
    var after := dash + 1;
    assert SkipSpaces(l, after) == start;
    RestOfLineInLine(t, l, after, 0);
    HardTailAtPieces(t, q, open, dash, after, Span(start, |l|));
  }

  /** The tail of a hard constraint, from the facts about its pieces. */
  lemma HardTailAtPieces(t: string, q: nat, open: nat, dash: nat, after: nat, rationale: Span)
    requires open == q + 2 && after == dash + 1 && dash < |t|
    requires OccursAt(t, "**", q) && SkipSpaces(t, open) == dash && IsDash(t[dash])
    requires RestOfLine(t, after, 0) == Some(rationale)
    ensures HardTailAt(t, q) == Some(rationale)
  {
    assert DashRest(t, dash) == Some(rationale);
  }

  /** In a line laid out as the hard-constraint form, with no `*` inside the
      statement, the lazy statement group ends at the closing `**`. */
  lemma StatementEndInLine(t: string, l: string, open: nat, q: nat, dash: nat, start: nat)
    requires BeginsWithLine(t, l) && NoLineTerminators(l)
    requires open + 2 < q && q + 2 <= dash < start < |l|
    requires forall k :: open + 2 <= k < q ==> l[k] != '*'
    requires l[q] == '*' && l[q + 1] == '*'
    requires forall k :: q + 2 <= k < dash ==> IsSpace(l[k])
    requires IsDash(l[dash])
    requires forall k :: dash + 1 <= k < start ==> IsSpace(l[k])
    requires !IsSpace(l[start])
    ensures StatementEnd(t, open) == Some((q, Span(start, |l|)))
  {
    LineChars(t, l);
    HardTailInLine(t, l, q, dash, start);
    LineEndInLine(t, l, open + 2);
    forall k | open + 2 < k < q ensures HardTailAt(t, k).None? {
      assert t[k] != '*';
      assert !OccursAt(t, "**", k) by {
        if OccursAt(t, "**", k) {
          OccursAtHead(t, "**", k);
        }
      }
    }
    var r := StatementEnd(t, open);
    assert r.Some? && r.value.0 == q;
  }

  /** A line laid out as the hard-constraint form, at the start of a text. */
  lemma HardConstraintInLine(t: string, l: string, d: nat, w: nat, q: nat, dash: nat, start: nat)
    requires BeginsWithLine(t, l) && NoLineTerminators(l)
    requires 0 < d && d + 1 < w && w + 2 < q && q + 2 <= dash < start < |l|
    requires forall k :: 0 <= k < d ==> IsDigit(l[k])
    requires l[d] == '.'
    requires forall k :: d + 1 <= k < w ==> IsSpace(l[k])
    requires l[w] == '*' && l[w + 1] == '*'
    requires forall k :: w + 2 <= k < q ==> l[k] != '*'
    requires l[q] == '*' && l[q + 1] == '*'
    requires forall k :: q + 2 <= k < dash ==> IsSpace(l[k])
    requires IsDash(l[dash])
    requires forall k :: dash + 1 <= k < start ==> IsSpace(l[k])
    requires !IsSpace(l[start])
    ensures HardConstraintAt(t) == Some(Found(HardConstraint(Trim(l[w + 2..q]), Trim(l[start..])), |l|))
  {
    HardHeadInLine(t, l, d, w);
    StatementEndInLine(t, l, w, q, dash, start);
    HardConstraintAtPieces(t, d, w, q, start, |l|);
    TrimSliceInLine(t, l);
  }

  /** The number, the dot, the white space and the opening `**` of a
      hard-constraint line, seen from the text that begins with it. */
  lemma HardHeadInLine(t: string, l: string, d: nat, w: nat)
    requires BeginsWithLine(t, l)
    requires 0 < d && d + 1 < w && w + 2 < |l|
    requires forall k :: 0 <= k < d ==> IsDigit(l[k])
    requires l[d] == '.'
    requires forall k :: d + 1 <= k < w ==> IsSpace(l[k])
    requires l[w] == '*' && l[w + 1] == '*'
    ensures d < |t| && SkipDigits(t, 0) == d && t[d] == '.'
    ensures SkipSpaces(t, d + 1) == w && OccursAt(t, "**", w)
  {
    LineChars(t, l);
    assert SkipDigits(t, 0) == d;
    assert SkipSpaces(t, d + 1) == w;
    assert t[w..w + 2] == "**";
  }

  /** The hard-constraint pattern, put together from what each of its parts
      matches. */
  lemma HardConstraintAtPieces(t: string, d: nat, w: nat, q: nat, start: nat, end: nat)
    requires 0 < d < |t| && SkipDigits(t, 0) == d && t[d] == '.'
    requires d + 1 < w && SkipSpaces(t, d + 1) == w && OccursAt(t, "**", w)
    requires StatementEnd(t, w) == Some((q, Span(start, end)))
    ensures HardConstraintAt(t) == Some(Found(HardConstraint(Trim(t[w + 2..q]), Trim(t[start..end])), end))
  {
  }

  /** The hard-constraint line `N. **statement** - rationale`, with the white
      space and the dash of the writer's choosing. */
  function HardLine(number: string, ws1: string, statement: string, ws2: string, dash: char, ws3: string, rationale: string): string {
    number + "." + ws1 + "**" + statement + "**" + ws2 + [dash] + ws3 + rationale
  }

  /**
   * A hard-constraint line reads back as its statement and rationale,
   * trimmed, and the match takes the whole line: a statement free of `*` is
   * the shortest bold span there is. The number is one digit or more and the
   * dash is `-`, `–` or `—`; the rationale starts with a character that is
   * not white space.
   */
  lemma HardLineReadsBack(number: string, ws1: string, statement: string, ws2: string, dash: char, ws3: string, rationale: string, rest: string)
    requires number != [] && forall k :: 0 <= k < |number| ==> IsDigit(number[k])
    requires ws1 != [] && AllSpaces(ws1) && AllSpaces(ws2) && AllSpaces(ws3)
    requires statement != [] && '*' !in statement
    requires IsDash(dash)
    requires rationale != [] && !IsSpace(rationale[0])
    requires NoLineTerminators(HardLine(number, ws1, statement, ws2, dash, ws3, rationale))
    requires rest == [] || rest[0] == '\n'
    ensures var l := HardLine(number, ws1, statement, ws2, dash, ws3, rationale);
      HardConstraintAt(l + rest) == Some(Found(HardConstraint(Trim(statement), Trim(rationale)), |l|))
  {
    var l := HardLine(number, ws1, statement, ws2, dash, ws3, rationale);
    var d := |number|;
    var w := d + 1 + |ws1|;
    var q := w + 2 + |statement|;
    var dp := q + 2 + |ws2|;
    var start := dp + 1 + |ws3|;
    HardLineHead(number, ws1, statement, ws2, dash, ws3, rationale, l, d, w, q);
    HardLineTail(number, ws1, statement, ws2, dash, ws3, rationale, l, q, dp, start);
    var t := l + rest;
    assert t[..|l|] == l;
    HardConstraintInLine(t, l, d, w, q, dp, start);
  }

  /** Where the number, the dot, the white space and the statement sit in a
      hard-constraint line. */
  lemma HardLineHead(number: string, ws1: string, statement: string, ws2: string, dash: char, ws3: string, rationale: string,
                     l: string, d: nat, w: nat, q: nat)
    requires l == HardLine(number, ws1, statement, ws2, dash, ws3, rationale)
    requires forall k :: 0 <= k < |number| ==> IsDigit(number[k])
    requires AllSpaces(ws1) && '*' !in statement
    requires d == |number| && w == d + 1 + |ws1| && q == w + 2 + |statement|
    ensures q + 2 <= |l|
    ensures forall k :: 0 <= k < d ==> IsDigit(l[k])
    ensures l[d] == '.' && l[w] == '*' && l[w + 1] == '*'
    ensures forall k :: d + 1 <= k < w ==> IsSpace(l[k])
    ensures forall k :: w + 2 <= k < q ==> l[k] != '*'
    ensures l[w + 2..q] == statement
  {
    var head := number + "." + ws1 + "**";
    var tail := "**" + ws2 + [dash] + ws3 + rationale;
    assert l == head + statement + tail;
    forall k | 0 <= k < d ensures IsDigit(l[k]) {
      assert l[k] == number[k];
    }
    forall k | d + 1 <= k < w ensures IsSpace(l[k]) {
      assert l[k] == ws1[k - d - 1];
    }
    forall k | w + 2 <= k < q ensures l[k] != '*' {
      assert l[k] == statement[k - w - 2];
    }
    assert l[w + 2..q] == statement;
  }

  /** Where the closing `**`, the dash and the rationale sit in a
      hard-constraint line. */
  lemma HardLineTail(number: string, ws1: string, statement: string, ws2: string, dash: char, ws3: string, rationale: string,
                     l: string, q: nat, dp: nat, start: nat)
    requires l == HardLine(number, ws1, statement, ws2, dash, ws3, rationale)
    requires AllSpaces(ws2) && AllSpaces(ws3) && rationale != []
    requires q == |number| + 1 + |ws1| + 2 + |statement| && dp == q + 2 + |ws2| && start == dp + 1 + |ws3|
    ensures |l| == start + |rationale|
    ensures l[q] == '*' && l[q + 1] == '*' && l[dp] == dash && l[start] == rationale[0]
    ensures forall k :: q + 2 <= k < dp ==> IsSpace(l[k])
    ensures forall k :: dp + 1 <= k < start ==> IsSpace(l[k])
    ensures l[start..] == rationale
  {
    var head := number + "." + ws1 + "**" + statement;
    var tail := "**" + ws2 + [dash] + ws3 + rationale;
    assert l == head + tail;
    forall k | q + 2 <= k < dp ensures IsSpace(l[k]) {
      assert l[k] == ws2[k - q - 2];
    }
    forall k | dp + 1 <= k < start ensures IsSpace(l[k]) {
      assert l[k] == ws3[k - dp - 1];
    }
    assert l[start..] == rationale;
  }

  /** A closing `**` at k after which the tail's white space would run on into
      the next line: nothing but white space follows it, or a dash and then
      nothing but white space. */
  predicate DanglingTailAt(l: string, k: nat) {
    && OccursAt(l, "**", k)
    && (|| AllSpaces(l[k + 2..])
        || (var p := SkipSpaces(l, k + 2); p < |l| && IsDash(l[p]) && AllSpaces(l[p + 1..])))
  }

  /** A line on which the hard-constraint pattern could reach into the next
      line: a number and dot with only white space after them, or a dangling
      tail after some `**`. */
  predicate DanglingHard(l: string) {
    DanglingNumber(l) || exists k :: 0 <= k < |l| && DanglingTailAt(l, k)
  }

  /** What one line contributes to the hard constraints: what the pattern
      finds on the line alone. */
  function HardOfLine(l: string): (c: Option<HardConstraint>)
    ensures c.Some? ==> 0 < |l| && IsDigit(l[0]) && HardTrimmed(c.value)
  {
    match HardConstraintAt(l)
    case Some(f) => Some(f.value)
    case None => None
  }

  /** A line is a text that begins with itself. */
  lemma LineBeginsWithItself(l: string)
    ensures BeginsWithLine(l, l)
  {
    assert l[..|l|] == l;
  }

  /** A dash and a rationale inside a line give the same whatever follows
      the line, unless only white space comes after the dash. */
  lemma DashRestAgrees(t: string, l: string, p: nat)
    requires BeginsWithLine(t, l) && NoLineTerminators(l) && p < |l|
    requires !(IsDash(l[p]) && AllSpaces(l[p + 1..]))
    ensures DashRest(t, p) == DashRest(l, p)
  {
    LineChars(t, l);
    if IsDash(l[p]) {
      LineBeginsWithItself(l);
      SkipSpacesToEnd(l, p + 1);
      RestOfLineInLine(t, l, p + 1, 0);
      RestOfLineInLine(l, l, p + 1, 0);
    }
  }

  /** A mark that would lie inside a line occurs in the text where it occurs
      in the line. */
  lemma MarkInLine(t: string, l: string, i: nat, mark: string)
    requires BeginsWithLine(t, l) && i + |mark| <= |l|
    ensures OccursAt(t, mark, i) == OccursAt(l, mark, i)
  {
    SliceInLine(t, l, i, i + |mark|);
  }

  /** No `**` starts at the last character of a line or at its end. */
  lemma NoMarkAtLineEnd(t: string, l: string, k: nat, mark: string)
    requires BeginsWithLine(t, l) && NoLineTerminators(l) && k <= |l| < k + |mark|
    requires |mark| == 2 && !IsLineTerminator(mark[|l| - k])
    ensures !OccursAt(t, mark, k) && !OccursAt(l, mark, k)
  {
    LineChars(t, l);
  }

  /** The tail `**`, dash, rationale gives the same at a position of a line
      where it does not dangle, whatever follows the line. */
  lemma HardTailAgrees(t: string, l: string, k: nat)
    requires BeginsWithLine(t, l) && NoLineTerminators(l)
    requires k <= |l| && !DanglingTailAt(l, k)
    ensures HardTailAt(t, k) == HardTailAt(l, k)
  {
    if k + 2 <= |l| {
      SliceInLine(t, l, k, k + 2);
      if OccursAt(l, "**", k) {
        SkipSpacesToEnd(l, k + 2);
        SkipSpacesInLine(t, l, k + 2);
        DashRestAgrees(t, l, SkipSpaces(l, k + 2));
      }
    } else {
      NoMarkAtLineEnd(t, l, k, "**");
    }
  }

  /** The lazy statement ends at the same place in a text as on the line it
      begins with, when the tail gives the same at every position of the line. */
  lemma StatementEndAgrees(t: string, l: string, w: nat)
    requires BeginsWithLine(t, l) && NoLineTerminators(l) && w + 2 <= |l|
    requires forall k :: w + 2 < k <= |l| ==> HardTailAt(t, k) == HardTailAt(l, k)
    ensures StatementEnd(t, w) == StatementEnd(l, w)
  {
    LineBeginsWithItself(l);
    LineEndInLine(t, l, w + 2);
    LineEndInLine(l, l, w + 2);
    var a, b := StatementEnd(t, w), StatementEnd(l, w);
    if a.Some? {
      StatementEndSomeAgrees(t, l, w);
    }
  }

  /** The case of StatementEndAgrees where the text has a statement end. */
  lemma StatementEndSomeAgrees(t: string, l: string, w: nat)
    requires BeginsWithLine(t, l) && NoLineTerminators(l) && w + 2 <= |l|
    requires LineEnd(t, w + 2) == |l| && LineEnd(l, w + 2) == |l|
    requires forall k :: w + 2 < k <= |l| ==> HardTailAt(t, k) == HardTailAt(l, k)
    requires StatementEnd(t, w).Some?
    ensures StatementEnd(l, w) == StatementEnd(t, w)
  {
    var a, b := StatementEnd(t, w), StatementEnd(l, w);
    var q := a.value.0;
    assert HardTailAt(l, q) == Some(a.value.1);
    assert b.Some?;
    assert !(q < b.value.0) && !(b.value.0 < q);
  }

  /** The tail gives the same at every position of a line that is not dangling. */
  lemma HardTailsAgree(t: string, l: string)
    requires BeginsWithLine(t, l) && NoLineTerminators(l) && !DanglingHard(l)
    ensures forall k :: 0 <= k <= |l| ==> HardTailAt(t, k) == HardTailAt(l, k)
  {
    forall k | 0 <= k <= |l|
      ensures HardTailAt(t, k) == HardTailAt(l, k)
    {
      if k < |l| {
        assert !DanglingTailAt(l, k);
      }
      HardTailAgrees(t, l, k);
    }
  }

  /** The number, the dot and the white space of the pattern, in a line whose
      number is not dangling, seen from a text that begins with it. */
  lemma HardHeadAgrees(t: string, l: string)
    requires BeginsWithLine(t, l) && NoLineTerminators(l) && !DanglingNumber(l)
    ensures SkipDigits(t, 0) == SkipDigits(l, 0)
    ensures var d := SkipDigits(l, 0);
      0 < d < |l| && l[d] == '.' ==> t[d] == '.' && SkipSpaces(t, d + 1) == SkipSpaces(l, d + 1) < |l|
    ensures var d := SkipDigits(l, 0);
      !(0 < d < |l| && l[d] == '.') ==> HardConstraintAt(t) == None && HardConstraintAt(l) == None
  {
    LineChars(t, l);
    SkipDigitsInLine(t, l, 0);
    var d := SkipDigits(l, 0);
    if 0 < d < |l| && l[d] == '.' {
      SkipSpacesToEnd(l, d + 1);
      SkipSpacesInLine(t, l, d + 1);
    }
  }

  /** The pattern from its opening `**` on gives the same in a text as on the
      line it begins with, once the statement ends at the same place in both. */
  lemma HardFromOpenAgrees(t: string, l: string, w: nat)
    requires BeginsWithLine(t, l) && NoLineTerminators(l) && w + 2 <= |l|
    requires StatementEnd(t, w) == StatementEnd(l, w)
    ensures HardFromOpen(t, w) == HardFromOpen(l, w)
  {
    var se := StatementEnd(l, w);
    if se.Some? {
      var q, g := se.value.0, se.value.1;
      HardFromOpenOf(t, w, q, g);
      HardFromOpenOf(l, w, q, g);
      SliceInLine(t, l, w + 2, q);
      SliceInLine(t, l, g.start, g.end);
    }
  }

  /** The pattern from its opening `**` once the statement is known to end at
      q with the rationale at g. */
  lemma HardFromOpenOf(t: string, w: nat, q: nat, g: Span)
    requires w + 2 <= |t| && StatementEnd(t, w) == Some((q, g))
    ensures w + 2 <= q <= g.start <= g.end <= |t|
    ensures HardFromOpen(t, w) == Some(Found(HardConstraint(Trim(t[w + 2..q]), Trim(t[g.start..g.end])), g.end))
  {
  }

  /** The hard-constraint pattern, once the number, the dot and the white
      space after it are found. */
  lemma HardAfterNumber(t: string, d: nat, w: nat)
    requires 0 < d < |t| && SkipDigits(t, 0) == d && t[d] == '.' && SkipSpaces(t, d + 1) == w
    ensures HardConstraintAt(t) ==
      if w == d + 1 || !OccursAt(t, "**", w) then None else HardFromOpen(t, w)
  {
  }

  /** On a line that is not dangling the hard-constraint pattern finds what
      it finds on the line alone, whatever follows the line. */
  lemma HardAgrees(t: string, l: string)
    requires BeginsWithLine(t, l) && NoLineTerminators(l) && !DanglingHard(l)
    ensures HardConstraintAt(t) == HardConstraintAt(l)
  {
    HardHeadAgrees(t, l);
    var d := SkipDigits(l, 0);
    if 0 < d < |l| && l[d] == '.' {
      var w := SkipSpaces(l, d + 1);
      if w + 2 <= |l| {
        MarkInLine(t, l, w, "**");
        HardTailsAgree(t, l);
        StatementEndAgrees(t, l, w);
        HardFromOpenAgrees(t, l, w);
        assert |l| <= |t|;
        assert SkipDigits(t, 0) == d && t[d] == '.';
        assert SkipSpaces(t, d + 1) == w;
        HardAfterNumberAgrees(t, l, d, w);
      } else {
        NoMarkAtLineEnd(t, l, w, "**");
        HardAfterNumber(t, d, w);
        HardAfterNumber(l, d, w);
      }
    }
  }

  /** The pattern gives the same in a text and on its first line when the
      number, the dot, the white space, the `**` test and the rest agree. */
  lemma HardAfterNumberAgrees(t: string, l: string, d: nat, w: nat)
    requires 0 < d < |l| <= |t| && SkipDigits(t, 0) == d && SkipDigits(l, 0) == d && t[d] == '.' && l[d] == '.'
    requires SkipSpaces(t, d + 1) == w && SkipSpaces(l, d + 1) == w && w + 2 <= |l|
    requires OccursAt(t, "**", w) == OccursAt(l, "**", w)
    requires HardFromOpen(t, w) == HardFromOpen(l, w)
    ensures HardConstraintAt(t) == HardConstraintAt(l)
  {
    HardAfterNumber(t, d, w);
    HardAfterNumber(l, d, w);
  }

  /** The layout `N. **statement** - rationale` of a line, with the number
      ending at d, the opening `**` at w, the closing one at q, the dash at
      dash and the rationale starting at start. */
  predicate HardShape(l: string, d: nat, w: nat, q: nat, dash: nat, start: nat) {
    && 0 < d && d + 1 < w && w + 2 < q && q + 2 <= dash < start < |l|
    && (forall k :: 0 <= k < d ==> IsDigit(l[k])) && l[d] == '.'
    && (forall k :: d + 1 <= k < w ==> IsSpace(l[k]))
    && OccursAt(l, "**", w) && OccursAt(l, "**", q)
    && (forall k :: q + 2 <= k < dash ==> IsSpace(l[k]))
    && IsDash(l[dash])
    && (forall k :: dash + 1 <= k < start ==> IsSpace(l[k]))
  }

  /** Only lines of the form `N. **statement** - rationale` give a hard
      constraint, and it is the trimmed statement and rationale. */
  lemma HardOfLineShape(l: string)
    requires NoLineTerminators(l) && HardOfLine(l).Some?
    ensures exists d: nat, w: nat, q: nat, dash: nat, start: nat :: HardShape(l, d, w, q, dash, start)
              && HardOfLine(l).value == HardConstraint(Trim(l[w + 2..q]), Trim(l[start..]))
  {
    var d, w := HardOfLineOpen(l);
    var q, dash, start := HardOpenShape(l, d, w);
  }

  /** A line with a hard constraint starts with a number, a dot, white space
      and `**`, and the constraint is what the pattern finds from there. */
  lemma HardOfLineOpen(l: string) returns (d: nat, w: nat)
    requires HardOfLine(l).Some?
    ensures 0 < d && d + 1 < w && w + 2 <= |l|
    ensures (forall k :: 0 <= k < d ==> IsDigit(l[k])) && l[d] == '.'
    ensures (forall k :: d + 1 <= k < w ==> IsSpace(l[k])) && OccursAt(l, "**", w)
    ensures HardFromOpen(l, w).Some? && HardOfLine(l).value == HardFromOpen(l, w).value.value
  {
    d := SkipDigits(l, 0);
    w := SkipSpaces(l, d + 1);
    HardAfterNumber(l, d, w);
  }

  /** The rest of the layout, from the opening `**` on. */
  lemma HardOpenShape(l: string, d: nat, w: nat) returns (q: nat, dash: nat, start: nat)
    requires NoLineTerminators(l) && 0 < d && d + 1 < w && w + 2 <= |l|
    requires (forall k :: 0 <= k < d ==> IsDigit(l[k])) && l[d] == '.'
    requires (forall k :: d + 1 <= k < w ==> IsSpace(l[k])) && OccursAt(l, "**", w)
    requires HardFromOpen(l, w).Some?
    ensures HardShape(l, d, w, q, dash, start)
    ensures HardFromOpen(l, w).value.value == HardConstraint(Trim(l[w + 2..q]), Trim(l[start..]))
  {
    var se := StatementEnd(l, w);
    var g;
    q, g := se.value.0, se.value.1;
    HardFromOpenOf(l, w, q, g);
    HardShapeOfTail(l, q, g);
    dash := SkipSpaces(l, q + 2);
    start := g.start;
    assert l[g.start..g.end] == l[g.start..];
  }

  /** The tail `**\s*-\s*(.+)$` matched at q, on a line with no terminator. */
  lemma HardShapeOfTail(l: string, q: nat, g: Span)
    requires NoLineTerminators(l) && q <= |l| && HardTailAt(l, q) == Some(g)
    ensures var dash := SkipSpaces(l, q + 2);
      && OccursAt(l, "**", q) && q + 2 <= dash < g.start < |l| && g.end == |l|
      && IsDash(l[dash]) && (forall k :: dash + 1 <= k < g.start ==> IsSpace(l[k]))
  {
    var dash := SkipSpaces(l, q + 2);
    assert DashRest(l, dash) == Some(g);
    assert RestOfLine(l, dash + 1, 0) == Some(g);
  }

  /** The hard-constraint pattern takes a whole line that is not dangling, or
      none of it. */
  lemma HardMatchesLine(l: string)
    requires NoLineTerminators(l) && !DanglingHard(l)
    ensures MatchesLine(HardConstraintAt, HardOfLine, l)
  {
    forall t: string | BeginsWithLine(t, l)
      ensures HardConstraintAt(t) == (if HardOfLine(l).Some? then Some(Found(HardOfLine(l).value, |l|)) else None)
    {
      HardAgrees(t, l);
    }
  }

  /**
   * Hard constraints over whole lines: one entry for each line on which the
   * pattern `N. **statement** - rationale` matches, in the order of the
   * lines, and nothing for any other line.
   */
  lemma HardConstraintsOfLines(lines: seq<string>)
    requires forall k :: 0 <= k < |lines| ==> NoLineTerminators(lines[k]) && !DanglingHard(lines[k])
    ensures HardConstraints(JoinLines(lines)) == Collect(lines, HardOfLine)
  {
    forall k | 0 <= k < |lines| ensures MatchesLine(HardConstraintAt, HardOfLine, lines[k]) {
      HardMatchesLine(lines[k]);
    }
    ScanJoinedLines(lines, HardConstraintAt, HardOfLine);
  }


  // ---------------------------------------------------------------------------
  // Tables.
  // ---------------------------------------------------------------------------

  /** Splitting a text made of lines into lines gives the lines back, so the
      table lines of such a text are those of its lines that start with `|`
      once trimmed, in order. */
  lemma TableLinesOfLines(lines: seq<string>)
    requires forall k :: 0 <= k < |lines| ==> '\n' !in lines[k]
    ensures TableLines(JoinLines(lines)) == KeepTableLines(lines)
  {
    if lines == [] {
      assert Split(JoinLines(lines), '\n') == [""];
      assert !IsTableLine("");
    } else {
      SplitJoin(lines, '\n');
    }
  }

  /** What one data line contributes to a table: a row when it has as many
      cells as there are headers, nothing otherwise. */
  function RowLine(headers: seq<string>, line: string): Option<Row> {
    var cells := Cells(line);
    if |cells| == |headers| then Some(RowOf(headers, cells)) else None
  }

  /** The data rows are the rows of the full-width data lines, in the order of
      the lines. */
  lemma {:induction false} DataRowsInOrder(headers: seq<string>, lines: seq<string>)
    ensures DataRows(headers, lines) == Collect(lines, l => RowLine(headers, l))
    decreases |lines|
  {
    if lines != [] {
      var n := |lines| - 1;
      DataRowsInOrder(headers, lines[..n]);
      CollectLast(lines, l => RowLine(headers, l));
    }
  }

  /** When every data line has as many cells as there are headers, there is
      one row per data line. */
  lemma {:induction false} FullWidthRows(headers: seq<string>, lines: seq<string>)
    requires forall k :: 0 <= k < |lines| ==> |Cells(lines[k])| == |headers|
    ensures |DataRows(headers, lines)| == |lines|
    decreases |lines|
  {
    if lines != [] {
      FullWidthRows(headers, lines[..|lines| - 1]);
    }
  }

  /** What a record field reads from a table row: null for a `-` cell or an
      empty one, the trimmed cell text otherwise; of repeated headers, the
      rightmost one counts. */
  lemma RowCellReadsAs(headers: seq<string>, cells: seq<string>, k: nat)
    requires |headers| == |cells| && k < |headers|
    requires headers[k] !in headers[k + 1..]
    ensures Cell(RowOf(headers, cells), headers[k]) == if cells[k] == "-" || cells[k] == "" then None else Some(cells[k])
  {
    RowOfCell(headers, cells, k);
  }

  // ---------------------------------------------------------------------------
  // Sections.
  // ---------------------------------------------------------------------------

  /** No line of x starts with `##` and a white-space character: x holds no
      section header. */
  predicate NoHeaderLine(x: string) {
    forall k :: 0 <= k && k + 2 < |x| && LineStartAt(x, k) && x[k] == '#' && x[k + 1] == '#' ==> !IsSpace(x[k + 2])
  }

  /** The split pattern `^##\s+` matches exactly at a line start that holds
      `##` and white space. */
  lemma HeaderMarkAtIff(s: string, k: nat)
    requires k <= |s|
    ensures HeaderMarkAt(s, k).Some? <==>
      LineStartAt(s, k) && k + 2 < |s| && s[k] == '#' && s[k + 1] == '#' && IsSpace(s[k + 2])
  {
    if k + 2 <= |s| && s[k] == '#' && s[k + 1] == '#' {
      assert s[k..k + 2] == "##";
    }
  }

  /** A split that meets no delimiter from q on gives the rest as one part. */
  lemma {:induction false} SplitPartsNoMark(s: string, p: nat, q: nat)
    requires p <= q <= |s|
    requires forall k :: q <= k < |s| ==> HeaderMarkAt(s, k).None?
    ensures SplitParts(s, p, q) == [s[p..]]
    decreases |s| - q
  {
    if q < |s| {
      SplitPartsNoMark(s, p, q + 1);
    }
  }

  /** A split whose next delimiter is at j closes the current part there. */
  lemma {:induction false} SplitPartsNextMark(s: string, p: nat, q: nat, j: nat)
    requires p <= q <= j < |s|
    requires forall k :: q <= k < j ==> HeaderMarkAt(s, k).None?
    requires HeaderMarkAt(s, j).Some?
    ensures SplitParts(s, p, q) == [s[p..j]] + SplitParts(s, HeaderMarkAt(s, j).value, HeaderMarkAt(s, j).value)
    decreases j - q
  {
    if q < j {
      SplitPartsNextMark(s, p, q + 1, j);
    }
  }

  /** The text before the first section header is the first part, so the
      header part is a prefix of the text with no header inside it. */
  lemma {:induction false} FirstPart(s: string, p: nat, q: nat)
    requires p <= q <= |s|
    ensures var h := SplitParts(s, p, q)[0];
      && q <= p + |h| <= |s| && h == s[p..p + |h|]
      && (forall k :: q <= k < p + |h| ==> HeaderMarkAt(s, k).None?)
      && (p + |h| < |s| ==> HeaderMarkAt(s, p + |h|).Some?)
    decreases |s| - q
  {
    if q < |s| && HeaderMarkAt(s, q).None? {
      var next := q + 1;
      FirstPart(s, p, next);
      assert SplitParts(s, p, q) == SplitParts(s, p, next);
    }
  }

  /** Sections found after the header part only add keys. */
  lemma {:induction false} AddSectionsKeeps(sections: map<string, string>, parts: seq<string>)
    ensures sections.Keys <= AddSections(sections, parts).Keys
    decreases |parts|
  {
    if parts != [] {
      AddSectionsKeeps(sections, parts[..|parts| - 1]);
    }
  }

  /** Every section name is normalised: lower case, white-space runs as `_`. */
  lemma {:induction false} AddSectionsNormalized(sections: map<string, string>, parts: seq<string>)
    requires forall k <- sections :: IsNormalizedKey(k)
    ensures forall k <- AddSections(sections, parts) :: IsNormalizedKey(k)
    decreases |parts|
  {
    if parts != [] {
      AddSectionsNormalized(sections, parts[..|parts| - 1]);
    }
  }

  /**
   * `splitSections` always reports the header part under `_header`; every
   * key it reports is normalised; and unless a later header names it too,
   * `_header` holds the text before the first section header, which has no
   * section header inside it.
   */
  lemma SectionsShape(content: string)
    ensures "_header" in SectionsOf(content)
    ensures forall k <- SectionsOf(content) :: IsNormalizedKey(k)
    ensures var h := SplitParts(content, 0, 0)[0];
      && |h| <= |content| && h == content[..|h|]
      && (forall k :: 0 <= k < |h| ==> HeaderMarkAt(content, k).None?)
      && (|h| < |content| ==> HeaderMarkAt(content, |h|).Some?)
  {
    var parts := SplitParts(content, 0, 0);
    AddSectionsKeeps(map["_header" := parts[0]], parts[1..]);
    assert IsNormalizedKey("_header");
    AddSectionsNormalized(map["_header" := parts[0]], parts[1..]);
    FirstPart(content, 0, 0);
  }

  /** A text with no section header is all header part. */
  lemma NoSections(content: string)
    requires NoHeaderLine(content)
    ensures SectionsOf(content) == map["_header" := content]
  {
    forall k | 0 <= k < |content| ensures HeaderMarkAt(content, k).None? {
      HeaderMarkAtIff(content, k);
    }
    SplitPartsNoMark(content, 0, 0);
  }

  /** Without section headers every section-valued field of the spec is at
      its default: null, or the empty list; the title and the version line
      are still read from the whole text. */
  lemma NoSectionsDefaults(content: string)
    requires NoHeaderLine(content)
    ensures var spec := ParseSpec(content);
      && spec.identity == None && spec.knowledge == None && spec.constraints == None
      && spec.interactionStyle == None && spec.successCriteria == None && spec.interfaces == None
      && spec.capabilities == [] && spec.versionHistory == []
      && spec.name == ParseTitle(content)
      && spec.version == ParseVersionHeader(content).version
  {
    NoSections(content);
  }

  /** A text that starts with x, where x holds no section header and ends a
      line, holds no section header before the end of x. */
  lemma NoMarkInPrefix(s: string, x: string)
    requires |x| <= |s| && s[..|x|] == x
    requires x == [] || x[|x| - 1] == '\n'
    requires NoHeaderLine(x)
    ensures forall k :: 0 <= k < |x| ==> HeaderMarkAt(s, k).None?
  {
    forall k | 0 <= k < |x| ensures HeaderMarkAt(s, k).None? {
      assert forall j :: 0 <= j < |x| ==> s[j] == s[..|x|][j];
      HeaderMarkAtIff(s, k);
    }
  }

  /** A text that ends with y, where y holds no section header and starts a
      line, holds no section header inside y. */
  lemma NoMarkInSuffix(s: string, b: nat, y: string)
    requires 0 < b <= |s| && s[b..] == y && s[b - 1] == '\n'
    requires NoHeaderLine(y)
    ensures forall k :: b <= k < |s| ==> HeaderMarkAt(s, k).None?
  {
    forall k | b <= k < |s| ensures HeaderMarkAt(s, k).None? {
      assert forall j :: b <= j < |s| ==> s[j] == y[j - b];
      HeaderMarkAtIff(s, k);
      assert LineStartAt(s, k) ==> LineStartAt(y, k - b);
    }
  }

  /** A text made of a header and one section splits into those two parts. */
  lemma PartsOfOneSection(header: string, name: string, body: string)
    requires header == [] || header[|header| - 1] == '\n'
    requires NoHeaderLine(header) && NoHeaderLine(body)
    requires name != [] && !IsSpace(name[0]) && NoLineTerminators(name)
    ensures SplitParts(header + "## " + name + "\n" + body, 0, 0) == [header, name + "\n" + body]
  {
    var s := header + "## " + name + "\n" + body;
    var p := |header|;
    var a := p + 3;
    var b := a + |name| + 1;
    OneSectionLayout(header, name, body, s, a, b);
    OneSectionRest(header, name, body, s, a, b);
    OneSectionName(header, name, body, s, a, b);
    NoMarkInPrefix(s, header);
    MarkBeforeName(s, p, a);
    NoMarkInLine(s, a, b);
    NoMarkInSuffix(s, b, body);
    SplitPartsNextMark(s, 0, 0, p);
    SplitPartsNoMark(s, a, a);
  }

  /** Where the header and the delimiter sit in the text a header and a section make. */
  lemma OneSectionLayout(header: string, name: string, body: string, s: string, a: nat, b: nat)
    requires s == header + "## " + name + "\n" + body
    requires header == [] || header[|header| - 1] == '\n'
    requires a == |header| + 3 && b == a + |name| + 1
    ensures b <= |s| && s[..|header|] == header && s[0..|header|] == header
    ensures LineStartAt(s, |header|) && s[a - 3] == '#' && s[a - 2] == '#' && s[a - 1] == ' '
  {
    var rest := name + "\n" + body;
    assert s == header + ("## " + rest);
  }

  /** Where the section sits in the text a header and a section make. */
  lemma OneSectionRest(header: string, name: string, body: string, s: string, a: nat, b: nat)
    requires s == header + "## " + name + "\n" + body
    requires name != []
    requires a == |header| + 3 && b == a + |name| + 1
    ensures b <= |s| && s[a..] == name + "\n" + body && s[b..] == body && s[b - 1] == '\n' && s[a] == name[0]
  {
    var rest := name + "\n" + body;
    assert s == (header + "## ") + rest;
    assert rest == name + ("\n" + body);
  }

  /** The section name of such a text holds no line terminator. */
  lemma OneSectionName(header: string, name: string, body: string, s: string, a: nat, b: nat)
    requires s == header + "## " + name + "\n" + body
    requires NoLineTerminators(name)
    requires a == |header| + 3 && b == a + |name| + 1
    ensures forall k :: a <= k < b - 1 ==> !IsLineTerminator(s[k])
  {
    assert forall k :: a <= k < b - 1 ==> s[k] == name[k - a];
  }

  /** `## ` at a line start, before a character that is not white space, is a
      delimiter that ends right after the space. */
  lemma MarkBeforeName(s: string, p: nat, a: nat)
    requires a == p + 3 && a < |s| && LineStartAt(s, p)
    requires s[p] == '#' && s[p + 1] == '#' && s[p + 2] == ' ' && !IsSpace(s[a])
    ensures HeaderMarkAt(s, p) == Some(a)
  {
    assert s[p..p + 2] == "##";
  }

  /** No delimiter starts inside a line that begins after a space, nor right
      after that space. */
  lemma NoMarkInLine(s: string, a: nat, b: nat)
    requires 0 < a < b <= |s| && s[a - 1] == ' '
    requires forall k :: a <= k < b - 1 ==> !IsLineTerminator(s[k])
    ensures forall k :: a <= k < b ==> HeaderMarkAt(s, k).None?
  {
  }

  /** A part whose header line is `name` adds the rest of the part under the
      normalised name. */
  lemma AddOnePart(m: map<string, string>, name: string, body: string)
    requires NoLineTerminators(name)
    ensures AddSections(m, [name + "\n" + body]) == m[NormalizeKey(name) := body]
  {
    var part := name + "\n" + body;
    assert forall k :: 0 <= k < |name| ==> part[k] == name[k];
    assert part[|name|] == '\n';
    assert IndexOfChar(part, '\n', 0) == |name|;
    assert part[..|name|] == name && part[|name| + 1..] == body;
    var single: seq<string> := [part];
    assert single[..0] == [];
    assert AddSections(m, single) == AddSection(m, part);
  }

  /**
   * A text made of a header part and one section `## name` reads back as
   * the header part under `_header` and the section's body under its
   * normalised name.
   */
  lemma OneSection(header: string, name: string, body: string)
    requires header == [] || header[|header| - 1] == '\n'
    requires NoHeaderLine(header) && NoHeaderLine(body)
    requires name != [] && !IsSpace(name[0]) && NoLineTerminators(name)
    ensures SectionsOf(header + "## " + name + "\n" + body) == map["_header" := header][NormalizeKey(name) := body]
  {
    var s := header + "## " + name + "\n" + body;
    PartsOfOneSection(header, name, body);
    var parts := SplitParts(s, 0, 0);
    assert parts[1..] == [name + "\n" + body];
    AddOnePart(map["_header" := header], name, body);
  }

  // ---------------------------------------------------------------------------
  // Bold key/value lines.
  // ---------------------------------------------------------------------------

  /** The value the last pair for a key gives it, or what the key held before
      the pairs, read from the end of the pairs. */
  function LastValue(pairs: map<string, string>, found: seq<(string, string)>, key: string): Option<string>
    decreases |found|
  {
    if found == [] then (if key in pairs then Some(pairs[key]) else None)
    else if found[|found| - 1].0 == key then Some(found[|found| - 1].1)
    else LastValue(pairs, found[..|found| - 1], key)
  }

  /** Reading from the end, a first pair folded into the map is read like the
      map it leaves. */
  lemma {:induction false} LastValueOfFirst(pairs: map<string, string>, first: (string, string), rest: seq<(string, string)>, key: string)
    ensures LastValue(pairs, [first] + rest, key) == LastValue(pairs[first.0 := first.1], rest, key)
    decreases |rest|
  {
    var all := [first] + rest;
    if rest == [] {
      assert all[..0] == [];
    } else {
      var n := |rest| - 1;
      assert all[|all| - 1] == rest[n];
      assert all[..|all| - 1] == [first] + rest[..n];
      LastValueOfFirst(pairs, first, rest[..n], key);
    }
  }

  /** Of several pairs with the same key, the last one wins; a key no pair
      names keeps what it held. */
  lemma {:induction false} AssignLastWins(pairs: map<string, string>, found: seq<(string, string)>, key: string)
    ensures key in Assign(pairs, found) <==> LastValue(pairs, found, key).Some?
    ensures key in Assign(pairs, found) ==> Assign(pairs, found)[key] == LastValue(pairs, found, key).value
    decreases |found|
  {
    if found != [] {
      AssignLastWins(pairs[found[0].0 := found[0].1], found[1..], key);
      assert found == [found[0]] + found[1..];
      LastValueOfFirst(pairs, found[0], found[1..], key);
    }
  }

  /** The bold key/value pattern at the start of a text that begins with the
      line `**key:**` white space, value. */
  lemma KeyValueInLine(t: string, l: string, key: string, ws: string, value: string)
    requires l == "**" + key + ":**" + ws + value
    requires BeginsWithLine(t, l) && NoLineTerminators(l)
    requires key != [] && ':' !in key
    requires AllSpaces(ws)
    requires value != [] && !IsSpace(value[0])
    ensures KeyValueAt(t) == Some(Found((NormalizeKey(key), Trim(value)), |l|))
  {
    var colon := 2 + |key|;
    var w := colon + 3 + |ws|;
    KeyValueLayout(l, key, ws, value, colon, w);
    KeyValueHeadInLine(t, l, colon);
    assert SkipSpaces(l, colon + 3) == w;
    RestOfLineInLine(t, l, colon + 3, 0);
    KeyValueAtPieces(t, colon, w, |l|);
    SliceInLine(t, l, 2, colon);
    TrimSliceInLine(t, l);
  }

  /** Where the parts of a line `**key:**` white space, value sit. */
  lemma KeyValueLayout(l: string, key: string, ws: string, value: string, colon: nat, w: nat)
    requires l == "**" + key + ":**" + ws + value
    requires ':' !in key && AllSpaces(ws) && value != []
    requires colon == 2 + |key| && w == colon + 3 + |ws|
    ensures w < |l| && l[..2] == "**" && l[2..colon] == key && l[colon..colon + 3] == ":**"
    ensures forall k :: 2 <= k < colon ==> l[k] != ':'
    ensures forall k :: colon + 3 <= k < w ==> IsSpace(l[k])
    ensures l[w..] == value && l[w] == value[0]
  {
    assert l[..2] == "**" && l[2..colon] == key && l[colon..colon + 3] == ":**" && l[colon + 3..w] == ws && l[w..] == value;
    forall k | 2 <= k < colon ensures l[k] != ':' {
      assert l[k] == l[2..colon][k - 2];
    }
    forall k | colon + 3 <= k < w ensures IsSpace(l[k]) {
      assert l[k] == ws[k - colon - 3];
    }
  }

  /** The opening `**`, the key and the closing `:**` of a key/value line,
      seen from a text that begins with it. */
  lemma KeyValueHeadInLine(t: string, l: string, colon: nat)
    requires BeginsWithLine(t, l) && 2 < colon && colon + 3 <= |l|
    requires l[..2] == "**" && l[colon..colon + 3] == ":**"
    requires forall k :: 2 <= k < colon ==> l[k] != ':'
    ensures OccursAt(t, "**", 0) && IndexOfChar(t, ':', 2) == colon && OccursAt(t, ":**", colon)
  {
    LineChars(t, l);
    assert l[colon] == l[colon..colon + 3][0];
    assert IndexOfChar(t, ':', 2) == colon;
    SliceInLine(t, l, 0, 2);
    SliceInLine(t, l, colon, colon + 3);
    assert t[..2] == t[0..2];
  }

  /** The key/value pattern, put together from what each of its parts matches. */
  lemma KeyValueAtPieces(t: string, colon: nat, w: nat, end: nat)
    requires OccursAt(t, "**", 0) && 2 < colon <= |t| && IndexOfChar(t, ':', 2) == colon && OccursAt(t, ":**", colon)
    requires RestOfLine(t, colon + 3, 0) == Some(Span(w, end))
    ensures KeyValueAt(t) == Some(Found((NormalizeKey(t[2..colon]), Trim(t[w..end])), end))
  {
  }


  /** A section that is one `**key:** value` line holds that one pair, with
      the key normalised and the value trimmed. */
  lemma OneKeyValueLine(key: string, ws: string, value: string)
    requires key != [] && ':' !in key
    requires AllSpaces(ws)
    requires value != [] && !IsSpace(value[0])
    requires NoLineTerminators("**" + key + ":**" + ws + value)
    ensures KeyValuePairs("**" + key + ":**" + ws + value) == map[NormalizeKey(key) := Trim(value)]
  {
    var l := "**" + key + ":**" + ws + value;
    assert l[..|l|] == l;
    KeyValueInLine(l, l, key, ws, value);
    var kv := (NormalizeKey(key), Trim(value));
    assert KeyValueAt(l) == Some(Found(kv, |l|));
    assert l[|l|..] == [];
    assert ScanAll(l, KeyValueAt) == [kv] + ScanAll(l[|l|..], KeyValueAt);
    assert ScanAll(l, KeyValueAt) == [kv];
    assert [kv][1..] == [];
    assert Assign(map[], [kv]) == Assign(map[kv.0 := kv.1], []);
  }

  /** A line of a key/value section: a `**key:** value` line or a line with
      no `*` in it. */
  datatype KeyValueLine = Pair(key: string, ws: string, value: string) | Plain(text: string)

  function RenderKeyValueLine(x: KeyValueLine): string {
    match x
    case Pair(key, ws, value) => "**" + key + ":**" + ws + value
    case Plain(text) => text
  }

  /** The key has no colon, the value starts with a character that is not
      white space, and the line holds no line terminator. */
  predicate WellFormedKeyValueLine(x: KeyValueLine) {
    NoLineTerminators(RenderKeyValueLine(x)) &&
    match x
    case Pair(key, ws, value) => key != [] && ':' !in key && AllSpaces(ws) && value != [] && !IsSpace(value[0])
    case Plain(text) => '*' !in text
  }

  function RenderKeyValueLines(xs: seq<KeyValueLine>): seq<string> {
    seq(|xs|, k requires 0 <= k < |xs| => RenderKeyValueLine(xs[k]))
  }

  /** The pairs the lines state, key normalised and value trimmed, in order. */
  function PairsOf(xs: seq<KeyValueLine>): seq<(string, string)> {
    if xs == [] then []
    else (if xs[0].Pair? then [(NormalizeKey(xs[0].key), Trim(xs[0].value))] else []) + PairsOf(xs[1..])
  }

  /** The pair the key/value pattern finds at the start of a line. */
  function PairAt(l: string): Option<(string, string)> {
    if KeyValueAt(l).Some? then Some(KeyValueAt(l).value.value) else None
  }

  lemma KeyValueMatchesLine(x: KeyValueLine)
    requires WellFormedKeyValueLine(x)
    ensures MatchesLine(KeyValueAt, PairAt, RenderKeyValueLine(x))
    ensures PairAt(RenderKeyValueLine(x)) == if x.Pair? then Some((NormalizeKey(x.key), Trim(x.value))) else None
  {
    var l := RenderKeyValueLine(x);
    assert BeginsWithLine(l, l) by { assert l[..|l|] == l; }
    forall t: string | BeginsWithLine(t, l)
      ensures KeyValueAt(t) == (if x.Pair? then Some(Found((NormalizeKey(x.key), Trim(x.value)), |l|)) else None)
    {
      if x.Pair? {
        KeyValueInLine(t, l, x.key, x.ws, x.value);
      } else {
        LineChars(t, l);
        if l != [] {
          assert t[0] == l[0];
        }
      }
    }
  }

  lemma {:induction false} CollectPairs(xs: seq<KeyValueLine>)
    requires forall k :: 0 <= k < |xs| ==> WellFormedKeyValueLine(xs[k])
    ensures Collect(RenderKeyValueLines(xs), PairAt) == PairsOf(xs)
    decreases |xs|
  {
    if xs != [] {
      KeyValueMatchesLine(xs[0]);
      assert RenderKeyValueLines(xs)[1..] == RenderKeyValueLines(xs[1..]);
      CollectPairs(xs[1..]);
    }
  }

  /**
   * A section made of `**key:** value` lines and lines with no `*` holds the
   * pairs of its key/value lines, each key normalised and each value trimmed;
   * when a key comes back, its last value wins (AssignLastWins).
   */
  lemma KeyValueLines(xs: seq<KeyValueLine>)
    requires forall k :: 0 <= k < |xs| ==> WellFormedKeyValueLine(xs[k])
    ensures KeyValuePairs(JoinLines(RenderKeyValueLines(xs))) == Assign(map[], PairsOf(xs))
  {
    var lines := RenderKeyValueLines(xs);
    forall k | 0 <= k < |lines|
      ensures MatchesLine(KeyValueAt, PairAt, lines[k])
      ensures PairAt(lines[k]).None? ==> forall j :: 0 <= j < |lines[k]| ==> lines[k][j] !in {'*'}
    {
      KeyValueMatchesLine(xs[k]);
    }
    ScanAllJoinedLines(lines, KeyValueAt, PairAt, {'*'});
    CollectPairs(xs);
  }
}
