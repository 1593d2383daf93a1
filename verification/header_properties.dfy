/**
 * The two single-line headers of a document: the version line and the title.
 * A document whose first such line is written in the usual layout reads back
 * the fields that were written, trimmed.
 */
module HeaderProperties {
  import opened Optional
  import opened Text
  import opened LineScan
  import opened Parser
  import opened LineFacts

  /** Text that ends a line (or is empty) and in which no line starts with c. */
  predicate NoLineStartsWith(x: string, c: char) {
    && (x == [] || IsLineTerminator(x[|x| - 1]))
    && forall k :: 0 <= k < |x| && LineStartAt(x, k) ==> x[k] != c
  }

  /** The version line, with the text between the labels and the bars as the
      writer put it. */
  function VersionLine(version: string, status: string, domain: string): string {
    "> Version:" + version + "| Status:" + status + "| Domain: " + domain
  }

  /** `\s*<name>\s*([^\|]+)\s*\|` from i, where the name starts at a and the
      bar that closes the field is at bar. */
  lemma BarFieldAt(t: string, name: string, after: nat, a: nat, bar: nat)
    requires after < a && a + |name| < bar < |t|
    requires SkipSpaces(t, after + 1) == a && OccursAt(t, name, a)
    requires forall k :: a + |name| <= k < bar ==> t[k] != '|'
    requires t[bar] == '|'
    ensures BarField(t, name, after) == Some(Span(a + |name|, bar))
  {
    assert IndexOfChar(t, '|', a + |name|) == bar;
  }

  /** The version pattern at the start of t, once its pieces are found. */
  lemma VersionHeaderAtPieces(t: string, bar1: nat, d: nat, bar2: nat, g: Span)
    requires 0 < |t| && t[0] == '>' && bar2 < |t|
    requires BarField(t, "Version:", 0) == Some(Span(10, bar1))
    requires BarField(t, "Status:", bar1) == Some(Span(d, bar2))
    requires DomainAt(t, bar2) == Some(g)
    ensures VersionSpans(t) == Some((Span(10, bar1), Span(d, bar2), g))
  {
  }

  /** A bar-closed field that lies inside the first line of t. */
  lemma BarFieldInLine(t: string, l: string, name: string, after: nat, a: nat, bar: nat)
    requires BeginsWithLine(t, l) && after < a && a + |name| < bar < |l|
    requires SkipSpaces(l, after + 1) == a && OccursAt(l, name, a)
    requires forall k :: a + |name| <= k < bar ==> l[k] != '|'
    requires l[bar] == '|'
    ensures BarField(t, name, after) == Some(Span(a + |name|, bar))
  {
    LineChars(t, l);
    SkipSpacesInLine(t, l, after + 1);
    SliceInLine(t, l, a, a + |name|);
    BarFieldAt(t, name, after, a, bar);
  }

  /** A line laid out as the version pattern reads it, with the bars at bar1
      and bar2 and one space after each bar and after `Domain:`. */
  predicate VersionLayout(l: string, bar1: nat, bar2: nat) {
    && 10 < bar1 && bar1 + 9 < bar2 && bar2 + 10 < |l|
    && l[0] == '>' && SkipSpaces(l, 1) == 2 && OccursAt(l, "Version:", 2)
    && (forall k :: 10 <= k < bar1 ==> l[k] != '|') && l[bar1] == '|'
    && SkipSpaces(l, bar1 + 1) == bar1 + 2 && OccursAt(l, "Status:", bar1 + 2)
    && (forall k :: bar1 + 9 <= k < bar2 ==> l[k] != '|') && l[bar2] == '|'
    && SkipSpaces(l, bar2 + 1) == bar2 + 2 && OccursAt(l, "Domain:", bar2 + 2)
    && SkipSpaces(l, bar2 + 9) == bar2 + 10
  }

  /** The version label at the head of a version line. */
  lemma VersionLabelOfLine(version: string, status: string, domain: string)
    ensures var l := VersionLine(version, status, domain);
      && 10 <= |l| && l[0] == '>' && SkipSpaces(l, 1) == 2 && OccursAt(l, "Version:", 2)
  {
    var l := VersionLine(version, status, domain);
    assert l[..10] == "> Version:";
    assert l[2..10] == l[..10][2..];
  }

  /** The version field of a version line, and the bar after it. */
  lemma VersionFieldOfLine(version: string, status: string, domain: string)
    requires '|' !in version
    ensures var l := VersionLine(version, status, domain);
      var bar1 := 10 + |version|;
      && bar1 + 9 <= |l| && l[10..bar1] == version
      && (forall k :: 10 <= k < bar1 ==> l[k] != '|') && l[bar1] == '|'
  {
    var l := VersionLine(version, status, domain);
    var bar1 := 10 + |version|;
    assert l[10..bar1] == version;
    forall k | 10 <= k < bar1 ensures l[k] != '|' {
      assert l[k] == version[k - 10];
    }
  }

  /** The status label of a version line, one space after the first bar. */
  lemma StatusLabelOfLine(version: string, status: string, domain: string)
    ensures var l := VersionLine(version, status, domain);
      var bar1 := 10 + |version|;
      && bar1 + 9 <= |l| && SkipSpaces(l, bar1 + 1) == bar1 + 2 && OccursAt(l, "Status:", bar1 + 2)
  {
    var l := VersionLine(version, status, domain);
    var bar1 := 10 + |version|;
    assert l[bar1..bar1 + 9] == "| Status:";
    assert l[bar1 + 2..bar1 + 9] == l[bar1..bar1 + 9][2..];
  }

  /** The status field of a version line, and the bar after it. */
  lemma StatusFieldOfLine(version: string, status: string, domain: string)
    requires '|' !in status
    ensures var l := VersionLine(version, status, domain);
      var bar1 := 10 + |version|;
      var bar2 := bar1 + 9 + |status|;
      && bar2 + 10 <= |l| && l[bar1 + 9..bar2] == status
      && (forall k :: bar1 + 9 <= k < bar2 ==> l[k] != '|') && l[bar2] == '|'
  {
    var l := VersionLine(version, status, domain);
    var bar1 := 10 + |version|;
    var bar2 := bar1 + 9 + |status|;
    assert l[bar1 + 9..bar2] == status;
    forall k | bar1 + 9 <= k < bar2 ensures l[k] != '|' {
      assert l[k] == status[k - bar1 - 9];
    }
  }

  /** The domain label and field of a version line. */
  lemma DomainOfLine(version: string, status: string, domain: string)
    requires domain != [] && !IsSpace(domain[0])
    ensures var l := VersionLine(version, status, domain);
      var bar2 := 19 + |version| + |status|;
      && |l| == bar2 + 10 + |domain|
      && SkipSpaces(l, bar2 + 1) == bar2 + 2 && OccursAt(l, "Domain:", bar2 + 2)
      && SkipSpaces(l, bar2 + 9) == bar2 + 10 && l[bar2 + 10..|l|] == domain
  {
    var l := VersionLine(version, status, domain);
    var bar2 := 19 + |version| + |status|;
    assert l[bar2..bar2 + 10] == "| Domain: ";
    assert l[bar2 + 2..bar2 + 9] == l[bar2..bar2 + 10][2..9];
    assert l[bar2 + 10..|l|] == domain;
  }

  /** Where the labels, bars and fields of a version line sit. */
  lemma VersionLineLayout(version: string, status: string, domain: string)
    requires version != [] && '|' !in version
    requires status != [] && '|' !in status
    requires domain != [] && !IsSpace(domain[0])
    ensures var l := VersionLine(version, status, domain);
      var bar1 := 10 + |version|;
      var bar2 := bar1 + 9 + |status|;
      && VersionLayout(l, bar1, bar2) && |l| == bar2 + 10 + |domain|
      && l[10..bar1] == version && l[bar1 + 9..bar2] == status && l[bar2 + 10..|l|] == domain
  {
    VersionLabelOfLine(version, status, domain);
    VersionFieldOfLine(version, status, domain);
    StatusLabelOfLine(version, status, domain);
    StatusFieldOfLine(version, status, domain);
    DomainOfLine(version, status, domain);
  }

  /** The domain group of a line laid out as the version pattern reads it. */
  lemma DomainInLine(t: string, l: string, after: nat, e: nat)
    requires BeginsWithLine(t, l) && NoLineTerminators(l) && after < e && e + 8 < |l|
    requires SkipSpaces(l, after + 1) == e && OccursAt(l, "Domain:", e) && SkipSpaces(l, e + 7) == e + 8
    ensures DomainAt(t, after) == Some(Span(e + 8, |l|))
  {
    var first := after + 1;
    SkipSpacesInLine(t, l, first);
    var colon := e + 7;
    SliceInLine(t, l, e, colon);
    RestOfLineInLine(t, l, colon, 0);
    DomainAtPieces(t, after, first, e, colon, Span(e + 8, |l|));
  }

  /** The domain group, from the facts about its pieces. */
  lemma DomainAtPieces(t: string, after: nat, first: nat, e: nat, colon: nat, domain: Span)
    requires first == after + 1 && colon == e + 7 && after < |t|
    requires SkipSpaces(t, first) == e && OccursAt(t, "Domain:", e)
    requires RestOfLine(t, colon, 0) == Some(domain)
    ensures DomainAt(t, after) == Some(domain)
  {
    assert SkipSpaces(t, after + 1) == e;
    assert RestOfLine(t, e + 7, 0) == Some(domain);
  }

  /** The three groups of a version line at the start of a text. */
  lemma VersionSpansInLine(t: string, l: string, bar1: nat, bar2: nat)
    requires BeginsWithLine(t, l) && NoLineTerminators(l) && VersionLayout(l, bar1, bar2)
    ensures VersionSpans(t) == Some((Span(10, bar1), Span(bar1 + 9, bar2), Span(bar2 + 10, |l|)))
  {
    LineChars(t, l);
    BarFieldInLine(t, l, "Version:", 0, 2, bar1);
    BarFieldInLine(t, l, "Status:", bar1, bar1 + 2, bar2);
    DomainInLine(t, l, bar2, bar2 + 2);
    VersionHeaderAtPieces(t, bar1, bar1 + 9, bar2, Span(bar2 + 10, |l|));
  }

  /** The version pattern, once its three groups are found: the groups, trimmed. */
  lemma VersionHeaderOfSpans(t: string, a: nat, b: nat, c: nat, d: nat, e: nat, f: nat)
    requires VersionSpans(t) == Some((Span(a, b), Span(c, d), Span(e, f)))
    ensures VersionHeaderAt(t) ==
      Some(Found(VersionHeader(Some(Trim(t[a..b])), Some(Trim(t[c..d])), Some(Trim(t[e..f]))), f))
  {
  }

  /** The version pattern at the start of a text that begins with a version
      line: the three groups, trimmed, and the end of the line. */
  lemma VersionHeaderAtLayout(t: string, l: string, bar1: nat, bar2: nat)
    requires BeginsWithLine(t, l) && NoLineTerminators(l) && VersionLayout(l, bar1, bar2)
    ensures VersionHeaderAt(t) ==
      Some(Found(VersionHeader(Some(Trim(t[10..bar1])), Some(Trim(t[bar1 + 9..bar2])), Some(Trim(t[bar2 + 10..|l|]))), |l|))
  {
    VersionSpansInLine(t, l, bar1, bar2);
    VersionHeaderOfSpans(t, 10, bar1, bar1 + 9, bar2, bar2 + 10, |l|);
  }

  /** The version line at the start of a text: its fields, trimmed. */
  lemma VersionHeaderAtLine(t: string, version: string, status: string, domain: string)
    requires version != [] && '|' !in version
    requires status != [] && '|' !in status
    requires domain != [] && !IsSpace(domain[0])
    requires NoLineTerminators(VersionLine(version, status, domain))
    requires BeginsWithLine(t, VersionLine(version, status, domain))
    ensures VersionHeaderAt(t) ==
      Some(Found(VersionHeader(Some(Trim(version)), Some(Trim(status)), Some(Trim(domain))), |VersionLine(version, status, domain)|))
  {
    var l := VersionLine(version, status, domain);
    var bar1 := 10 + |version|;
    var bar2 := bar1 + 9 + |status|;
    VersionLineLayout(version, status, domain);
    assert l[10..bar1] == version && l[bar1 + 9..bar2] == status && l[bar2 + 10..|l|] == domain;
    VersionHeaderOfFields(t, l, bar1, bar2, version, status, domain);
  }

  /** The version pattern at the start of a text that begins with a version
      line whose three fields are known. */
  lemma VersionHeaderOfFields(t: string, l: string, bar1: nat, bar2: nat, version: string, status: string, domain: string)
    requires BeginsWithLine(t, l) && NoLineTerminators(l) && VersionLayout(l, bar1, bar2)
    requires l[10..bar1] == version && l[bar1 + 9..bar2] == status && l[bar2 + 10..|l|] == domain
    ensures VersionHeaderAt(t) == Some(Found(VersionHeader(Some(Trim(version)), Some(Trim(status)), Some(Trim(domain))), |l|))
  {
    VersionHeaderAtLayout(t, l, bar1, bar2);
    TrimSliceInLine(t, l);
  }


  /** An anchored search over lines that do not begin with c, for a pattern
      whose matches begin with c, goes on to the text that follows them. */
  lemma FirstAfterLines<T>(before: string, t: string, m: string -> Option<Found<T>>, c: char)
    requires NoLineStartsWith(before, c)
    requires BeginsWithOneOf(m, {c})
    ensures First(before + t, true, m) == First(t, true, m)
  {
    FirstSkips(before, t, true, m, {c});
  }

  /**
   * The version line of a document, after any lines that do not start with
   * `>`, gives its three fields trimmed: the text between `Version:` and the
   * first bar, between `Status:` and the second bar, and after `Domain:` to
   * the end of the line.
   */
  lemma VersionLineReadsBack(before: string, version: string, status: string, domain: string, after: string)
    requires NoLineStartsWith(before, '>')
    requires version != [] && '|' !in version
    requires status != [] && '|' !in status
    requires domain != [] && !IsSpace(domain[0])
    requires NoLineTerminators(VersionLine(version, status, domain))
    requires after == [] || after[0] == '\n'
    ensures ParseVersionHeader(before + VersionLine(version, status, domain) + after)
      == VersionHeader(Some(Trim(version)), Some(Trim(status)), Some(Trim(domain)))
  {
    var l := VersionLine(version, status, domain);
    var t := l + after;
    assert t[..|l|] == l;
    VersionHeaderAtLine(t, version, status, domain);
    FirstAfterLines(before, t, VersionHeaderAt, '>');
    AppendAssoc(before, l, after);
  }

  /** The title line, with the name as the writer put it. */
  function TitleLine(name: string): string {
    "# Agent Spec: " + name
  }

  /** The title pattern at the start of a text that begins with a title line. */
  lemma TitleAtLine(t: string, name: string)
    requires name != [] && !IsSpace(name[0]) && NoLineTerminators(name)
    requires BeginsWithLine(t, TitleLine(name))
    ensures TitleAt(t) == Some(Found(Trim(name), |TitleLine(name)|))
  {
    var l := TitleLine(name);
    LineChars(t, l);
    assert l[..14] == "# Agent Spec: " && l[14..|l|] == name;
    assert NoLineTerminators(l) by {
      forall k | 0 <= k < |l| ensures !IsLineTerminator(l[k]) {
        if k >= 14 {
          assert l[k] == name[k - 14];
        }
      }
    }
    assert SkipSpaces(t, 1) == 2;
    assert t[2..13] == l[..14][2..13];
    assert OccursAt(t, "Agent Spec:", 2);
    assert SkipSpaces(l, 13) == 14;
    RestOfLineInLine(t, l, 13, 0);
    SliceInLine(t, l, 14, |l|);
  }

  /** The title line of a document, after any lines that do not start with
      `#`, gives the agent's name, trimmed. */
  lemma TitleReadsBack(before: string, name: string, after: string)
    requires NoLineStartsWith(before, '#')
    requires name != [] && !IsSpace(name[0]) && NoLineTerminators(name)
    requires after == [] || after[0] == '\n'
    ensures ParseTitle(before + TitleLine(name) + after) == Some(Trim(name))
  {
    var l := TitleLine(name);
    var t := l + after;
    assert t[..|l|] == l;
    TitleAtLine(t, name);
    FirstAfterLines(before, t, TitleAt, '#');
    AppendAssoc(before, l, after);
  }

  /** A text in which no line starts with `>` has no version header: all three
      fields are absent. */
  lemma NoVersionLine(content: string)
    requires forall k :: 0 <= k < |content| && LineStartAt(content, k) ==> content[k] != '>'
    ensures ParseVersionHeader(content) == VersionHeader(None, None, None)
  {
    assert BeginsWithOneOf(VersionHeaderAt, {'>'});
    FirstNone(content, true, VersionHeaderAt, {'>'});
  }

  /** A text in which no line starts with `#` has no title. */
  lemma NoTitleLine(content: string)
    requires forall k :: 0 <= k < |content| && LineStartAt(content, k) ==> content[k] != '#'
    ensures ParseTitle(content) == None
  {
    assert BeginsWithOneOf(TitleAt, {'#'});
    FirstNone(content, true, TitleAt, {'#'});
  }
  /** The title line, then a newline, opens a text in which no line starts
      with `>`: only the title line's first character starts a line. */
  lemma TitleLineBefore(name: string)
    requires NoLineTerminators(name)
    ensures NoLineStartsWith(TitleLine(name) + "\n", '>')
  {
    var x := TitleLine(name) + "\n";
    forall j | 0 <= j < |x| - 1
      ensures !IsLineTerminator(x[j])
    {
      if j < 14 {
        assert x[j] == "# Agent Spec: "[j];
      } else {
        assert x[j] == name[j - 14];
      }
    }
    assert x[0] == '#';
  }

  /**
   * A document that opens with `# Agent Spec: name` and the version line,
   * followed by any text from the next line on: the spec's name, version,
   * status and domain are the trimmed fields written there, whatever
   * sections follow.
   */
  lemma SpecHeaderReadsBack(name: string, version: string, status: string, domain: string, after: string)
    requires name != [] && !IsSpace(name[0]) && NoLineTerminators(name)
    requires version != [] && '|' !in version
    requires status != [] && '|' !in status
    requires domain != [] && !IsSpace(domain[0])
    requires NoLineTerminators(VersionLine(version, status, domain))
    requires after == [] || after[0] == '\n'
    ensures var spec := ParseSpec(TitleLine(name) + "\n" + VersionLine(version, status, domain) + after);
      && spec.name == Some(Trim(name))
      && spec.version == Some(Trim(version))
      && spec.status == Some(Trim(status))
      && spec.domain == Some(Trim(domain))
  {
    var v := VersionLine(version, status, domain);
    var doc := TitleLine(name) + "\n" + v + after;
    var rest := "\n" + v + after;
    assert doc == [] + TitleLine(name) + rest;
    TitleReadsBack([], name, rest);
    TitleLineBefore(name);
    assert doc == (TitleLine(name) + "\n") + v + after;
    VersionLineReadsBack(TitleLine(name) + "\n", version, status, domain, after);
  }
}
