/**
 * The `###` subsections of the Knowledge and Success Criteria sections and the
 * bold labels of the Interfaces section: for a section written as headings
 * (or labels) each followed by its own lines, the parser reads back the items
 * of each block under its heading.
 */
module SubsectionProperties {
  import opened Optional
  import opened Text
  import opened LineScan
  import opened Parser
  import opened ParserProperties

  /** `indexOf` finds j when j is the first occurrence from i on, or when
      there is none and j is the length. */
  lemma {:induction false} IndexOfIs(s: string, pat: string, i: nat, j: nat)
    requires i <= j <= |s|
    requires forall k :: i <= k < j ==> !OccursAt(s, pat, k)
    requires j == |s| || OccursAt(s, pat, j)
    ensures IndexOf(s, pat, i) == j
    decreases j - i
  {
    if i < j {
      IndexOfIs(s, pat, i + 1, j);
    }
  }

  /** A mark that does not occur inside a block, and that the block's last
      character cannot start, does not occur at any position of the block
      once the block is put between other text. */
  lemma NoMarkInBlock(x: string, block: string, rest: string, mark: string, k: nat)
    requires |mark| > 0 && forall j :: 0 <= j < |mark| ==> mark[j] == mark[0]
    requires !Contains(block, mark) && (block == [] || block[|block| - 1] != mark[0])
    requires |x| <= k < |x| + |block|
    ensures !OccursAt(x + block + rest, mark, k)
  {
    var t := x + block + rest;
    var i: nat := k - |x|;
    if k + |mark| <= |x| + |block| {
      assert !OccursAt(block, mark, i);
      assert block[i..i + |mark|] == t[k..k + |mark|];
    } else if k + |mark| <= |t| {
      var j := |x| + |block| - 1 - k;
      assert t[|x| + |block| - 1] == block[|block| - 1];
      assert t[k..k + |mark|][j] == t[|x| + |block| - 1];
    }
  }

  /** A block that holds no mark and does not end in the mark's character,
      followed by the mark or by nothing: the first mark from the block's
      start is right after it. */
  lemma MarkAfterBlock(x: string, block: string, rest: string, mark: string)
    requires |mark| > 0 && forall j :: 0 <= j < |mark| ==> mark[j] == mark[0]
    requires !Contains(block, mark) && (block == [] || block[|block| - 1] != mark[0])
    requires rest == [] || OccursAt(rest, mark, 0)
    ensures IndexOf(x + block + rest, mark, |x|) == |x| + |block|
  {
    var t := x + block + rest;
    var j := |x| + |block|;
    OccursAfter(x + block, rest, mark, t, j);
    forall k | |x| <= k < j
      ensures !OccursAt(t, mark, k)
    {
      NoMarkInBlock(x, block, rest, mark, k);
    }
    IndexOfIs(t, mark, |x|, j);
  }

  /** A mark at the start of the text that follows p occurs at |p|. */
  lemma OccursAfter(p: string, rest: string, mark: string, t: string, j: nat)
    requires t == p + rest && j == |p|
    ensures j <= |t|
    ensures rest == [] || OccursAt(rest, mark, 0) ==> j == |t| || OccursAt(t, mark, j)
  {
    if rest != [] && OccursAt(rest, mark, 0) {
      assert t[j..j + |mark|] == rest[..|mark|];
    }
  }

  /** A heading that reads as the title under the flag `i`. */
  predicate Heading(heading: string, title: string) {
    ToLower(heading) == title && title != [] && !IsSpace(title[0]) && '#' !in title
  }

  /** A subsection body as the pattern's lazy group captures it: one that does
      not start with white space, holds no `###` and does not end in `#`. */
  ghost predicate SubsectionBody(body: string) {
    && (body == [] || !IsSpace(body[0]))
    && !Contains(body, "###")
    && (body == [] || body[|body| - 1] != '#')
  }

  /** `### ` and a heading that reads as the title: the start of the pattern. */
  lemma HeadingMatches(heading: string, title: string, tail: string)
    requires Heading(heading, title)
    ensures var t := "### " + heading + tail;
      OccursAt(t, "###", 0) && SkipSpaces(t, 3) == 4 && OccursAtIgnoreCase(t, title, 4)
  {
    var t := "### " + heading + tail;
    assert t[..3] == "###";
    assert LowerChar(heading[0]) == title[0];
    assert IsSpace(t[3]) && t[4] == heading[0];
    forall k | 0 <= k < |title|
      ensures LowerChar(t[4 + k]) == title[k]
    {
      assert t[4 + k] == heading[k];
    }
  }

  /** After the heading's newline, the white space ends where the body starts. */
  lemma BodyStart(x: string, body: string, rest: string, mark: string)
    requires 0 < |x| && x[|x| - 1] == '\n' && 0 < |mark| && !IsSpace(mark[0])
    requires (body == [] || !IsSpace(body[0])) && (rest == [] || OccursAt(rest, mark, 0))
    ensures SkipSpaces(x + body + rest, |x| - 1) == |x|
  {
    var t := x + body + rest;
    assert t[|x| - 1] == '\n';
    if |x| < |t| {
      if body != [] {
        assert t[|x|] == body[0];
      } else {
        assert t[|x|] == rest[..|mark|][0];
      }
    }
  }

  /** `### <heading>` on its own line, then the body, then another subsection
      or the end: the subsection pattern for the title captures the body. */
  lemma SubsectionAtHeading(heading: string, title: string, body: string, rest: string, t: string)
    requires Heading(heading, title) && SubsectionBody(body)
    requires rest == [] || OccursAt(rest, "###", 0)
    requires t == "### " + heading + "\n" + body + rest
    ensures SubsectionAt(title, false, t).Some? && SubsectionAt(title, false, t).value.value == body
  {
    var w := HeadingFacts(heading, title, body, rest, t);
    SubsectionAtWord(title, t, w, body);
  }

  /** Where the pieces of the subsection pattern end in such a text. */
  lemma HeadingFacts(heading: string, title: string, body: string, rest: string, t: string) returns (w: nat)
    requires Heading(heading, title) && SubsectionBody(body)
    requires rest == [] || OccursAt(rest, "###", 0)
    requires t == "### " + heading + "\n" + body + rest
    ensures w == 5 + |heading|
    ensures OccursAt(t, "###", 0) && SkipSpaces(t, 3) == 4 && OccursAtIgnoreCase(t, title, 4)
    ensures 5 + |title| == w <= |t| && SkipSpaces(t, w - 1) == w
    ensures w + |body| <= |t| && IndexOf(t, "###", w) == w + |body| && t[w..w + |body|] == body
  {
    var x := "### " + heading + "\n";
    assert t == x + body + rest;
    assert t == "### " + heading + ("\n" + body + rest);
    HeadingMatches(heading, title, "\n" + body + rest);
    BodyAfterLine(x, body, rest, t);
    w := |x|;
  }

  /** The subsection pattern without `[^\n]*`, read off where its pieces
      end: the title ends at `w - 1` and the body at `w + |body|`. */
  lemma SubsectionAtWord(title: string, t: string, w: nat, body: string)
    requires OccursAt(t, "###", 0) && SkipSpaces(t, 3) == 4 && OccursAtIgnoreCase(t, title, 4)
    requires 5 + |title| == w <= |t| && SkipSpaces(t, w - 1) == w
    requires w + |body| <= |t| && IndexOf(t, "###", w) == w + |body| && t[w..w + |body|] == body
    ensures SubsectionAt(title, false, t) == Some(Found(body, w + |body|))
  {
  }

  /** A `### ` heading at the start of a section is the first match for its
      title. */
  lemma SubsectionHere(heading: string, title: string, body: string, rest: string)
    requires Heading(heading, title) && SubsectionBody(body)
    requires rest == [] || OccursAt(rest, "###", 0)
    ensures Subsection("### " + heading + "\n" + body + rest, title, false) == Some(body)
  {
    var t := "### " + heading + "\n" + body + rest;
    SubsectionAtHeading(heading, title, body, rest, t);
    assert t[0..] == t;
    FirstAnywhereAt(t, u => SubsectionAt(title, false, u), 0);
  }

  /** A Knowledge section written as `### In Scope` and `### Out of Scope`
      (in any case), each followed by its list: the two lists are read back. */
  lemma KnowledgeOfSubsections(inHeading: string, inScope: string, outHeading: string, outOfScope: string)
    requires Heading(inHeading, "in scope") && Heading(outHeading, "out of scope")
    requires SubsectionBody(inScope) && SubsectionBody(outOfScope)
    ensures ParseKnowledge(("### " + inHeading + "\n") + inScope + ("### " + outHeading + "\n" + outOfScope))
              == Knowledge(BulletItems(inScope), BulletItems(outOfScope))
  {
    var second := "### " + outHeading + "\n" + outOfScope;
    var x := "### " + inHeading + "\n";
    var t := x + inScope + second;
    assert second == "###" + (" " + outHeading + "\n" + outOfScope);
    SubsectionHere(inHeading, "in scope", inScope, second);
    var j := |x| + |inScope|;
    assert t[j..] == "### " + outHeading + "\n" + outOfScope + [];
    SubsectionAtHeading(outHeading, "out of scope", outOfScope, [], t[j..]);
    EmptyTail("### " + inHeading, "\n", inScope, second);
    forall k | 0 <= k < j
      ensures SubsectionAt("out of scope", false, t[k..]).None?
    {
      OtherTitleNotBefore(inHeading, "in scope", [], "out of scope", false, inScope, second, k);
    }
    FirstAnywhereAt(t, u => SubsectionAt("out of scope", false, u), j);
  }

  lemma EmptyTail(a: string, nl: string, body: string, rest: string)
    ensures a + [] + nl + body + rest == (a + nl) + body + rest
  {
  }

  /** Before the second heading, a subsection whose title starts with another
      letter than the first heading's matches nowhere. The first heading's
      line may go on after the title, with neither `#` nor a newline. */
  lemma OtherTitleNotBefore(heading: string, title: string, tail: string, other: string, toLineEnd: bool,
                            body: string, rest: string, k: nat)
    requires Heading(heading, title) && SubsectionBody(body) && other != [] && other[0] != title[0]
    requires forall i :: 0 <= i < |tail| ==> tail[i] != '#' && tail[i] != '\n'
    requires k < 5 + |heading| + |tail| + |body|
    ensures SubsectionAt(other, toLineEnd, ("### " + heading + tail + "\n" + body + rest)[k..]).None?
  {
    var x := "### " + heading + tail + "\n";
    var t := x + body + rest;
    if k == 0 {
      assert t[k..] == "### " + heading + (tail + "\n" + body + rest);
      OtherHeading(heading, title, other, toLineEnd, tail + "\n" + body + rest);
    } else if k < |x| {
      NoMarkInHeading(heading, title, tail, body + rest, k);
      assert t == x + (body + rest);
    } else {
      NoMarkInBlock(x, body, rest, "###", k);
      MarkInSuffix(t, k);
    }
  }

  /** A heading for one title is not a match for a title that starts with
      another letter. */
  lemma OtherHeading(heading: string, title: string, other: string, toLineEnd: bool, tail: string)
    requires Heading(heading, title) && other != [] && other[0] != title[0]
    ensures SubsectionAt(other, toLineEnd, "### " + heading + tail).None?
  {
    var t := "### " + heading + tail;
    HeadingMatches(heading, title, tail);
    assert LowerChar(t[4]) == title[0];
  }

  /** No `###` starts inside the heading line. */
  lemma NoMarkInHeading(heading: string, title: string, tail: string, more: string, k: nat)
    requires Heading(heading, title) && 0 < k < 5 + |heading| + |tail|
    requires forall i :: 0 <= i < |tail| ==> tail[i] != '#'
    ensures !OccursAt((("### " + heading + tail + "\n") + more)[k..], "###", 0)
  {
    var x := "### " + heading + tail + "\n";
    var u := (x + more)[k..];
    assert u[0] == x[k];
    if 4 <= k < 4 + |heading| {
      assert x[k] == heading[k - 4];
      assert LowerChar(heading[k - 4]) == title[k - 4];
    } else if 4 + |heading| <= k < 4 + |heading| + |tail| {
      assert x[k] == tail[k - 4 - |heading|];
    }
    if k < 3 {
      assert u[3 - k] == x[3];
    }
  }

  /** The mark at the start of a suffix is the mark at its position. */
  lemma MarkInSuffix(t: string, k: nat)
    requires k <= |t|
    ensures OccursAt(t[k..], "###", 0) == OccursAt(t, "###", k)
  {
    if k + 3 <= |t| {
      assert t[k..][..3] == t[k..k + 3];
    }
  }

  /** A line without a newline ends where its newline is. */
  lemma NewlineAfterTail(x: string, tail: string, more: string)
    requires forall i :: 0 <= i < |tail| ==> tail[i] != '\n'
    ensures IndexOfChar(x + tail + "\n" + more, '\n', |x|) == |x| + |tail|
  {
    var t := x + tail + "\n" + more;
    forall k | |x| <= k < |x| + |tail|
      ensures t[k] != '\n'
    {
      assert t[k] == tail[k - |x|];
    }
    assert t[|x| + |tail|] == '\n';
    IndexOfCharIs(t, '\n', |x|, |x| + |tail|);
  }

  /** Where the heading line of the subsection pattern with `[^\n]*` ends. */
  lemma HeadingLineParts(heading: string, title: string, tail: string, more: string, t: string)
    requires Heading(heading, title) && t == "### " + heading + tail + "\n" + more
    requires forall i :: 0 <= i < |tail| ==> tail[i] != '\n'
    ensures |title| == |heading|
    ensures OccursAt(t, "###", 0) && SkipSpaces(t, 3) == 4 && OccursAtIgnoreCase(t, title, 4)
    ensures IndexOfChar(t, '\n', 4 + |heading|) == 4 + |heading| + |tail|
  {
    assert t == ("### " + heading) + (tail + "\n" + more);
    HeadingMatches(heading, title, tail + "\n" + more);
    NewlineAfterTail("### " + heading, tail, more);
  }

  /** The subsection pattern with `[^\n]*`, read off where its pieces end:
      the heading line ends at `w - 1` and the body at `w + |body|`. */
  lemma SubsectionAtLine(title: string, t: string, w: nat, body: string)
    requires OccursAt(t, "###", 0) && SkipSpaces(t, 3) == 4 && OccursAtIgnoreCase(t, title, 4)
    requires 0 < w && IndexOfChar(t, '\n', 4 + |title|) == w - 1 && SkipSpaces(t, w - 1) == w
    requires w + |body| <= |t| && IndexOf(t, "###", w) == w + |body| && t[w..w + |body|] == body
    ensures SubsectionAt(title, true, t) == Some(Found(body, w + |body|))
  {
  }

  /** The body of a subsection whose heading line is `x` runs from the end
      of `x` to the next `###`. */
  lemma BodyAfterLine(x: string, body: string, rest: string, t: string)
    requires 0 < |x| && x[|x| - 1] == '\n' && SubsectionBody(body)
    requires rest == [] || OccursAt(rest, "###", 0)
    requires t == x + body + rest
    ensures SkipSpaces(t, |x| - 1) == |x|
    ensures IndexOf(t, "###", |x|) == |x| + |body|
    ensures t[|x|..|x| + |body|] == body
  {
    BodyStart(x, body, rest, "###");
    MarkAfterBlock(x, body, rest, "###");
  }

  /** `### <heading><rest of the line>`, then the body, then another
      subsection or the end: the subsection pattern that takes the rest of
      the title's line captures the body. */
  lemma SubsectionAtHeadingLine(heading: string, title: string, tail: string, body: string, rest: string, t: string)
    requires Heading(heading, title) && SubsectionBody(body)
    requires forall i :: 0 <= i < |tail| ==> tail[i] != '\n'
    requires rest == [] || OccursAt(rest, "###", 0)
    requires t == "### " + heading + tail + "\n" + body + rest
    ensures SubsectionAt(title, true, t).Some? && SubsectionAt(title, true, t).value.value == body
  {
    var w := HeadingLineFacts(heading, title, tail, body, rest, t);
    SubsectionAtLine(title, t, w, body);
  }

  /** Where the pieces of the subsection pattern with `[^\n]*` end in such a text. */
  lemma HeadingLineFacts(heading: string, title: string, tail: string, body: string, rest: string, t: string)
      returns (w: nat)
    requires Heading(heading, title) && SubsectionBody(body)
    requires forall i :: 0 <= i < |tail| ==> tail[i] != '\n'
    requires rest == [] || OccursAt(rest, "###", 0)
    requires t == "### " + heading + tail + "\n" + body + rest
    ensures w == 5 + |heading| + |tail|
    ensures OccursAt(t, "###", 0) && SkipSpaces(t, 3) == 4 && OccursAtIgnoreCase(t, title, 4)
    ensures 0 < w && IndexOfChar(t, '\n', 4 + |title|) == w - 1 && SkipSpaces(t, w - 1) == w
    ensures w + |body| <= |t| && IndexOf(t, "###", w) == w + |body| && t[w..w + |body|] == body
  {
    var x := "### " + heading + tail + "\n";
    assert t == x + body + rest;
    assert t == "### " + heading + tail + "\n" + (body + rest);
    HeadingLineParts(heading, title, tail, body + rest, t);
    BodyAfterLine(x, body, rest, t);
    w := |x|;
  }

  /** A Constraints section written as `### Hard Constraints` and `### Soft
      Constraints` (in any case, each title line going on as the writer
      likes), each followed by its list: the two lists are read back. */
  lemma ConstraintsOfSubsections(hardHeading: string, hardTail: string, hard: string,
                                 softHeading: string, softTail: string, soft: string)
    requires Heading(hardHeading, "hard constraints") && Heading(softHeading, "soft constraints")
    requires forall i :: 0 <= i < |hardTail| ==> hardTail[i] != '#' && hardTail[i] != '\n'
    requires forall i :: 0 <= i < |softTail| ==> softTail[i] != '\n'
    requires SubsectionBody(hard) && SubsectionBody(soft)
    ensures ParseConstraints(("### " + hardHeading + hardTail + "\n") + hard + ("### " + softHeading + softTail + "\n" + soft))
              == Constraints(HardConstraints(hard), SoftConstraints(soft))
  {
    var second := "### " + softHeading + softTail + "\n" + soft;
    var t := ("### " + hardHeading + hardTail + "\n") + hard + second;
    HardSubsectionFirst(hardHeading, hardTail, hard, second, t);
    SoftSubsectionSecond(hardHeading, hardTail, hard, softHeading, softTail, soft, t);
  }

  /** The Hard Constraints subsection at the start of the section is found. */
  lemma HardSubsectionFirst(hardHeading: string, hardTail: string, hard: string, second: string, t: string)
    requires Heading(hardHeading, "hard constraints") && SubsectionBody(hard)
    requires forall i :: 0 <= i < |hardTail| ==> hardTail[i] != '\n'
    requires OccursAt(second, "###", 0)
    requires t == ("### " + hardHeading + hardTail + "\n") + hard + second
    ensures Subsection(t, "hard constraints", true) == Some(hard)
  {
    SubsectionAtHeadingLine(hardHeading, "hard constraints", hardTail, hard, second, t);
    assert t[0..] == t;
    FirstAnywhereAt(t, u => SubsectionAt("hard constraints", true, u), 0);
  }

  /** The Soft Constraints subsection after the hard one is found. */
  lemma SoftSubsectionSecond(hardHeading: string, hardTail: string, hard: string,
                             softHeading: string, softTail: string, soft: string, t: string)
    requires Heading(hardHeading, "hard constraints") && Heading(softHeading, "soft constraints")
    requires forall i :: 0 <= i < |hardTail| ==> hardTail[i] != '#' && hardTail[i] != '\n'
    requires forall i :: 0 <= i < |softTail| ==> softTail[i] != '\n'
    requires SubsectionBody(hard) && SubsectionBody(soft)
    requires t == ("### " + hardHeading + hardTail + "\n") + hard + ("### " + softHeading + softTail + "\n" + soft)
    ensures Subsection(t, "soft constraints", true) == Some(soft)
  {
    var second := "### " + softHeading + softTail + "\n" + soft;
    var x := "### " + hardHeading + hardTail + "\n";
    var j := |x| + |hard|;
    assert t[j..] == "### " + softHeading + softTail + "\n" + soft + [];
    SubsectionAtHeadingLine(softHeading, "soft constraints", softTail, soft, [], t[j..]);
    forall k | 0 <= k < j
      ensures SubsectionAt("soft constraints", true, t[k..]).None?
    {
      OtherTitleNotBefore(hardHeading, "hard constraints", hardTail, "soft constraints", true, hard, second, k);
    }
    FirstAnywhereAt(t, u => SubsectionAt("soft constraints", true, u), j);
  }

  /** An In Scope list and an Out of Scope list, written line by line under
      their headings, are read back item by item. */
  lemma KnowledgeOfLines(inHeading: string, inLines: seq<string>, outHeading: string, outLines: seq<string>)
    requires Heading(inHeading, "in scope") && Heading(outHeading, "out of scope")
    requires SubsectionBody(JoinLines(inLines + [""])) && SubsectionBody(JoinLines(outLines))
    requires forall k :: 0 <= k < |inLines| ==> NoLineTerminators(inLines[k]) && !DanglingBullet(inLines[k])
    requires forall k :: 0 <= k < |outLines| ==> NoLineTerminators(outLines[k]) && !DanglingBullet(outLines[k])
    ensures ParseKnowledge(("### " + inHeading + "\n") + JoinLines(inLines + [""]) + ("### " + outHeading + "\n" + JoinLines(outLines)))
              == Knowledge(Collect(inLines, BulletLine), Collect(outLines, BulletLine))
  {
    KnowledgeOfSubsections(inHeading, JoinLines(inLines + [""]), outHeading, JoinLines(outLines));
    var lines := inLines + [""];
    forall k | 0 <= k < |lines|
      ensures NoLineTerminators(lines[k]) && !DanglingBullet(lines[k])
    {
      if k < |inLines| {
        assert lines[k] == inLines[k];
      }
    }
    BulletItemsOfLines(lines);
    BulletItemsOfLines(outLines);
    CollectSnoc(inLines, "", BulletLine);
  }

  // ---------------------------------------------------------------------------
  // Interfaces lists.
  // ---------------------------------------------------------------------------

  /** Only `*` lowers to `*`. */
  lemma LowerStar(c: char)
    ensures LowerChar(c) == '*' <==> c == '*'
  {
  }

  /** A bold label that reads as `**<name>**` under the flag `i`. */
  predicate LabelOf(bold: string, name: string) {
    ToLower(bold) == "**" + name + "**" && name != [] && '*' !in name
  }

  /** A labelled text as the pattern's lazy group captures it: one that does
      not start with white space, holds no `**` and does not end in `*`. */
  ghost predicate LabelBody(body: string) {
    && (body == [] || !IsSpace(body[0]))
    && !Contains(body, "**")
    && (body == [] || body[|body| - 1] != '*')
  }

  /** What a label is made of, character by character. */
  lemma LabelChars(bold: string, name: string)
    requires LabelOf(bold, name)
    ensures |bold| == |name| + 4
    ensures bold[0] == '*' && bold[1] == '*' && bold[|bold| - 2] == '*' && bold[|bold| - 1] == '*'
    ensures forall k :: 2 <= k < |bold| - 2 ==> LowerChar(bold[k]) == name[k - 2] && bold[k] != '*'
  {
    var tag := "**" + name + "**";
    assert ToLower(bold) == tag;
    LowerStar(bold[0]);
    LowerStar(bold[1]);
    LowerStar(bold[|bold| - 2]);
    LowerStar(bold[|bold| - 1]);
    forall k | 2 <= k < |bold| - 2
      ensures LowerChar(bold[k]) == name[k - 2] && bold[k] != '*'
    {
      assert tag[k] == name[k - 2];
      LowerStar(bold[k]);
    }
  }

  /** A label starts the text it heads, under the flag `i`. */
  lemma LabelMatches(bold: string, name: string, tail: string)
    requires LabelOf(bold, name)
    ensures OccursAtIgnoreCase(bold + tail, "**" + name + "**", 0)
  {
    var t := bold + tail;
    assert forall k :: 0 <= k < |bold| ==> t[k] == bold[k];
  }

  /** A label followed by a newline, the text, and then another label or the
      end: the bold pattern captures the text. */
  lemma LabelledAtLabel(bold: string, name: string, body: string, rest: string)
    requires LabelOf(bold, name) && LabelBody(body)
    requires rest == [] || OccursAt(rest, "**", 0)
    ensures LabelledAt("**" + name + "**", bold + "\n" + body + rest) == Some(Found(body, |bold| + 1 + |body|))
  {
    var t := bold + "\n" + body + rest;
    LabelParts(bold, name, body, rest);
    assert t[|bold| + 1..|bold| + 1 + |body|] == body;
  }

  lemma Regroup(a: string, b: string, c: string, d: string)
    ensures a + b + c + d == a + (b + c + d)
  {
  }

  /** Where the label pattern's pieces end in such a text. */
  lemma LabelParts(bold: string, name: string, body: string, rest: string)
    requires LabelOf(bold, name) && LabelBody(body)
    requires rest == [] || OccursAt(rest, "**", 0)
    ensures |bold| == |"**" + name + "**"|
    ensures OccursAtIgnoreCase(bold + "\n" + body + rest, "**" + name + "**", 0)
    ensures SkipSpaces(bold + "\n" + body + rest, |bold|) == |bold| + 1
    ensures IndexOf(bold + "\n" + body + rest, "**", |bold| + 1) == |bold| + 1 + |body|
  {
    var x := bold + "\n";
    var t := x + body + rest;
    Regroup(bold, "\n", body, rest);
    LabelChars(bold, name);
    LabelMatches(bold, name, "\n" + body + rest);
    BodyStart(x, body, rest, "**");
    MarkAfterBlock(x, body, rest, "**");
  }

  /** A label at the start of a section is the first match for it. */
  lemma LabelHere(bold: string, name: string, body: string, rest: string)
    requires LabelOf(bold, name) && LabelBody(body)
    requires rest == [] || OccursAt(rest, "**", 0)
    ensures Labelled(bold + "\n" + body + rest, "**" + name + "**") == Some(body)
  {
    var t := bold + "\n" + body + rest;
    LabelledAtLabel(bold, name, body, rest);
    assert t[0..] == t;
    FirstAnywhereAt(t, u => LabelledAt("**" + name + "**", u), 0);
  }

  /** Before the end of a labelled text, a label whose name starts with
      another character matches nowhere. */
  lemma OtherLabelNotBefore(bold: string, name: string, other: string, body: string, rest: string, k: nat)
    requires LabelOf(bold, name) && LabelBody(body)
    requires other != [] && other[0] != name[0] && other[0] != '\n'
    requires k < |bold| + 1 + |body|
    ensures LabelledAt("**" + other + "**", (bold + "\n" + body + rest)[k..]).None?
  {
    var x := bold + "\n";
    var t := x + body + rest;
    var u := t[k..];
    var tag := "**" + other + "**";
    LabelChars(bold, name);
    if |tag| <= |u| {
      if k < |x| {
        var j := LabelMismatch(bold, name, other, body + rest, k);
        assert t == x + (body + rest);
        assert u[j] == t[k + j];
      } else {
        NoMarkInBlock(x, body, rest, "**", k);
        assert t[k..k + 2] == [u[0], u[1]];
        assert !(u[0] == '*' && u[1] == '*');
        LowerStar(u[0]);
        LowerStar(u[1]);
        assert tag[0] == '*' && tag[1] == '*';
      }
    }
  }

  /** Inside the label line, one of the first three characters tried does not
      read as the other bold's. */
  lemma LabelMismatch(bold: string, name: string, other: string, tail: string, k: nat) returns (j: nat)
    requires LabelOf(bold, name) && other != [] && other[0] != name[0] && other[0] != '\n'
    requires k <= |bold| && k + 3 <= |bold| + 1 + |tail|
    ensures j < 3 && LowerChar((bold + "\n" + tail)[k + j]) != ("**" + other + "**")[j]
  {
    var t := bold + "\n" + tail;
    var tag := "**" + other + "**";
    LabelChars(bold, name);
    assert tag[0] == '*' && tag[1] == '*' && tag[2] == other[0];
    assert t[|bold|] == '\n';
    assert forall i :: 0 <= i < |bold| ==> t[i] == bold[i];
    if k == 0 {
      j := 2;
    } else if k == 1 {
      j := 1;
      LowerStar(t[2]);
    } else if k < |bold| - 2 {
      j := 0;
      LowerStar(t[k]);
    } else if k == |bold| - 2 {
      j := 2;
    } else if k == |bold| - 1 {
      j := 1;
    } else {
      j := 0;
    }
  }

  /** An Interfaces section with the labels `**Accepts handoffs from:**` and
      `**Hands off to:**` (in any case), each on its own line and followed by
      its list: the two lists are read back. */
  lemma InterfacesOfLabels(acceptsLabel: string, accepts: string, handsLabel: string, hands: string)
    requires LabelOf(acceptsLabel, "accepts handoffs from:") && LabelOf(handsLabel, "hands off to:")
    requires LabelBody(accepts) && LabelBody(hands)
    ensures var interfaces := ParseInterfaces((acceptsLabel + "\n") + accepts + (handsLabel + "\n" + hands));
      interfaces.acceptsHandoffsFrom == BulletItems(accepts) && interfaces.handsOffTo == BulletItems(hands)
  {
    var second := handsLabel + "\n" + hands;
    var x := acceptsLabel + "\n";
    var t := x + accepts + second;
    LabelTags();
    LabelChars(handsLabel, "hands off to:");
    assert second[..2] == "**";
    LabelHere(acceptsLabel, "accepts handoffs from:", accepts, second);
    var j := |x| + |accepts|;
    assert t[j..] == handsLabel + "\n" + hands + [];
    LabelledAtLabel(handsLabel, "hands off to:", hands, []);
    forall k | 0 <= k < j
      ensures LabelledAt("**hands off to:**", t[k..]).None?
    {
      OtherLabelNotBefore(acceptsLabel, "accepts handoffs from:", "hands off to:", accepts, second, k);
    }
    FirstAnywhereAt(t, u => LabelledAt("**hands off to:**", u), j);
  }

  /** The two labels the Interfaces section is read with. */
  lemma LabelTags()
    ensures "**" + "accepts handoffs from:" + "**" == "**accepts handoffs from:**"
    ensures "**" + "hands off to:" + "**" == "**hands off to:**"
    ensures "hands off to:"[0] != "accepts handoffs from:"[0]
  {
  }

  // ---------------------------------------------------------------------------
  // Success-criteria notes.
  // ---------------------------------------------------------------------------

  /** A notes heading: the rest of the `###` line, starting with a character
      that is not white space. */
  predicate NoteHeading(heading: string) {
    heading != [] && !IsSpace(heading[0]) && '\n' !in heading
  }

  /** Subsections written one after the other, each as `### <heading>`, a
      newline and its body. */
  function NotesText(subsections: seq<(string, string)>): string {
    if subsections == [] then []
    else "### " + subsections[0].0 + "\n" + subsections[0].1 + NotesText(subsections[1..])
  }

  /** Text written by NotesText is empty or starts with `###`. */
  lemma NotesTextStart(subsections: seq<(string, string)>)
    ensures NotesText(subsections) == [] || OccursAt(NotesText(subsections), "###", 0)
  {
    if subsections != [] {
      var h := subsections[0];
      assert "### "[0..3] == "###";
      OccursAtFront("### ", h.0, "###");
      OccursAtFront("### " + h.0, "\n", "###");
      OccursAtFront("### " + h.0 + "\n", h.1, "###");
      OccursAtFront("### " + h.0 + "\n" + h.1, NotesText(subsections[1..]), "###");
    }
  }

  /** `### <heading>`, a newline, the body and then another subsection or the
      end: the notes pattern captures the heading and the body. */
  lemma NoteSubsectionAtHeading(heading: string, body: string, rest: string, t: string) returns (e: nat)
    requires NoteHeading(heading) && SubsectionBody(body)
    requires rest == [] || OccursAt(rest, "###", 0)
    requires t == "### " + heading + "\n" + body + rest
    ensures e <= |t| && t[e..] == rest
    ensures NoteSubsectionAt(t) == Some(Found((heading, body), e))
  {
    var w := NoteHeadingFacts(heading, body, rest, t);
    NoteSubsectionAtParts(t, heading, w, body);
    e := w + |body|;
  }

  /** Where the pieces of the notes pattern end in such a text. */
  lemma NoteHeadingFacts(heading: string, body: string, rest: string, t: string) returns (w: nat)
    requires NoteHeading(heading) && SubsectionBody(body)
    requires rest == [] || OccursAt(rest, "###", 0)
    requires t == "### " + heading + "\n" + body + rest
    ensures w == 5 + |heading|
    ensures OccursAt(t, "###", 0) && NoteTitleStart(t) == Some(4)
    ensures 5 + |heading| == w <= |t| && IndexOfChar(t, '\n', 4) == w - 1 && t[4..w - 1] == heading
    ensures SkipSpaces(t, w - 1) == w
    ensures w + |body| <= |t| && IndexOf(t, "###", w) == w + |body| && t[w..w + |body|] == body
    ensures t[w + |body|..] == rest
  {
    var x := "### " + heading + "\n";
    NoteHeadingParts(heading, body, rest);
    assert t[4..4 + |heading|] == heading;
    assert t[|x|..|x| + |body|] == body;
    assert t[|x| + |body|..] == rest;
    w := |x|;
  }

  /** The notes pattern, read off where its pieces end: the heading runs
      from 4 to its newline at `w - 1` and the body from w to `w + |body|`. */
  lemma NoteSubsectionAtParts(t: string, heading: string, w: nat, body: string)
    requires OccursAt(t, "###", 0) && NoteTitleStart(t) == Some(4)
    requires 5 + |heading| == w <= |t| && IndexOfChar(t, '\n', 4) == w - 1 && t[4..w - 1] == heading
    requires SkipSpaces(t, w - 1) == w
    requires w + |body| <= |t| && IndexOf(t, "###", w) == w + |body| && t[w..w + |body|] == body
    ensures NoteSubsectionAt(t) == Some(Found((heading, body), w + |body|))
  {
  }

  /** Where the notes pattern's pieces end in such a text. */
  lemma NoteHeadingParts(heading: string, body: string, rest: string)
    requires NoteHeading(heading) && SubsectionBody(body)
    requires rest == [] || OccursAt(rest, "###", 0)
    ensures OccursAt("### " + heading + "\n" + body + rest, "###", 0)
    ensures NoteTitleStart("### " + heading + "\n" + body + rest) == Some(4)
    ensures IndexOfChar("### " + heading + "\n" + body + rest, '\n', 4) == 4 + |heading|
    ensures SkipSpaces("### " + heading + "\n" + body + rest, 4 + |heading|) == 5 + |heading|
    ensures IndexOf("### " + heading + "\n" + body + rest, "###", 5 + |heading|) == 5 + |heading| + |body|
  {
    var x := "### " + heading + "\n";
    var t := x + body + rest;
    assert t == x + (body + rest);
    NoteTitleAtHeading(heading, body + rest);
    NewlineAfterHeading(heading, body + rest);
    BodyStart(x, body, rest, "###");
    MarkAfterBlock(x, body, rest, "###");
  }

  /** `###`, a space and a heading that does not start with white space:
      `[^\n]+` starts at the heading. */
  lemma NoteTitleAtHeading(heading: string, tail: string)
    requires NoteHeading(heading)
    ensures var t := ("### " + heading + "\n") + tail;
      OccursAt(t, "###", 0) && NoteTitleStart(t) == Some(4)
  {
    var t := ("### " + heading + "\n") + tail;
    assert t[..3] == "###";
    assert IsSpace(t[3]) && t[4] == heading[0];
  }

  /** The heading's line ends right after it. */
  lemma NewlineAfterHeading(heading: string, tail: string)
    requires '\n' !in heading
    ensures IndexOfChar(("### " + heading + "\n") + tail, '\n', 4) == 4 + |heading|
  {
    var t := ("### " + heading + "\n") + tail;
    forall k | 4 <= k < 4 + |heading|
      ensures t[k] != '\n'
    {
      assert t[k] == heading[k - 4];
    }
    assert t[4 + |heading|] == '\n';
    IndexOfCharIs(t, '\n', 4, 4 + |heading|);
  }

  /** `indexOf` of a character finds j when j holds the first occurrence from i on. */
  lemma {:induction false} IndexOfCharIs(s: string, c: char, i: nat, j: nat)
    requires i <= j < |s| && s[j] == c
    requires forall k :: i <= k < j ==> s[k] != c
    ensures IndexOfChar(s, c, i) == j
    decreases j - i
  {
    if i < j {
      IndexOfCharIs(s, c, i + 1, j);
    }
  }

  /** Every notes subsection written one after the other is found, in order,
      with its heading and its body. */
  lemma {:induction false} ScanNotesText(subsections: seq<(string, string)>)
    requires forall k :: 0 <= k < |subsections| ==> NoteHeading(subsections[k].0) && SubsectionBody(subsections[k].1)
    ensures ScanAll(NotesText(subsections), NoteSubsectionAt) == subsections
    decreases |subsections|
  {
    if subsections != [] {
      var first, others := subsections[0], subsections[1..];
      var h, b := first.0, first.1;
      var rest := NotesText(others);
      var t := NotesText(subsections);
      NotesTextStart(others);
      var e := NoteSubsectionAtHeading(h, b, rest, t);
      assert t[0..] == t;
      NoteMatchesStartWithHash();
      ScanAllTakes(t, 0, e, NoteSubsectionAt);
      forall k | 0 <= k < |others|
        ensures NoteHeading(others[k].0) && SubsectionBody(others[k].1)
      {
        assert others[k] == subsections[k + 1];
      }
      ScanNotesText(others);
      FirstAndRest(subsections);
    }
  }

  /** A Success Criteria section whose notes are written as `###` subsections
      after text without `#`: each subsection with numbered items adds them
      under its normalised heading, later headings overriding earlier ones. */
  lemma NotesOfSubsections(pre: string, subsections: seq<(string, string)>)
    requires forall k :: 0 <= k < |pre| ==> pre[k] != '#'
    requires forall k :: 0 <= k < |subsections| ==> NoteHeading(subsections[k].0) && SubsectionBody(subsections[k].1)
    ensures SuccessCriteriaOf(pre + NotesText(subsections)).notes == AddNotes(map[], subsections)
  {
    NoteMatchesStartWithHash();
    ScanAllSkips(pre, NotesText(subsections), NoteSubsectionAt, {'#'});
    ScanNotesText(subsections);
    NotesOfScan(pre + NotesText(subsections));
  }

  /** The notes of a Success Criteria section come from its `###` subsections. */
  lemma NotesOfScan(section: string)
    ensures SuccessCriteriaOf(section).notes == AddNotes(map[], ScanAll(section, NoteSubsectionAt))
  {
  }

  /** Every match of the notes subsection pattern starts with `#` and
      consumes something. */
  lemma NoteMatchesStartWithHash()
    ensures Consumes(NoteSubsectionAt) && BeginsWithOneOf(NoteSubsectionAt, {'#'})
  {
  }

  /** Text without `#` holds no `###`. */
  lemma NoHashNoMark(s: string)
    requires forall k :: 0 <= k < |s| ==> s[k] != '#'
    ensures !Contains(s, "###")
  {
    forall i: nat
      ensures !OccursAt(s, "###", i)
    {
      if i + 3 <= |s| {
        assert s[i..i + 3][0] == s[i];
      }
    }
  }

  /** The lower-case form of the heading `PHPStan Progression`. */
  lemma PhpstanKey()
    ensures NormalizeKey("PHPStan Progression") == "phpstan_progression"
  {
    PhpstanWords();
    NormalizeKeyOfTwoWords("PHPStan", " ", "Progression");
    LowerPhpstan();
    LowerProgression();
    PhpstanJoined();
  }

  lemma PhpstanJoined()
    ensures "phpstan" + "_" + "progression" == "phpstan_progression"
  {
  }

  /** The heading is two words with a space between them. */
  lemma PhpstanWords()
    ensures "PHPStan" + " " + "Progression" == "PHPStan Progression"
    ensures NoSpaces("PHPStan") && NoSpaces("Progression") && AllSpaces(" ")
  {
  }

  lemma LowerPhpstan()
    ensures ToLower("PHPStan") == "phpstan"
  {
    var r := ToLower("PHPStan");
    assert r[0] == 'p' && r[1] == 'h' && r[2] == 'p' && r[3] == 's';
    assert r[4] == 't' && r[5] == 'a' && r[6] == 'n';
  }

  lemma LowerProgression()
    ensures ToLower("Progression") == "progression"
  {
    var r := ToLower("Progression");
    assert r[0] == 'p' && r[1] == 'r' && r[2] == 'o' && r[3] == 'g' && r[4] == 'r' && r[5] == 'e';
    assert r[6] == 's' && r[7] == 's' && r[8] == 'i' && r[9] == 'o' && r[10] == 'n';
  }

  /** A line made of one digit, a dot, a space and one other character gives
      that character as its item. */
  lemma OneCharItem(c: char, x: char)
    requires IsDigit(c) && !IsSpace(x) && !IsLineTerminator(x)
    ensures NoLineTerminators([c, '.', ' ', x]) && !DanglingNumber([c, '.', ' ', x])
    ensures NumberedLine([c, '.', ' ', x]) == Some([x])
  {
    var l := [c, '.', ' ', x];
    assert SkipDigits(l, 0) == 1;
    assert l[2..] == [' '] + [x];
    assert l[2..][1] == x;
    TrimLeadingSpaces([' '], [x]);
    TrimOfTrimmed([x]);
  }

  /** The numbered lines `1. a` and `2. b`. */
  lemma TwoNumberedItems()
    ensures NumberedItems("1. a\n2. b") == ["a", "b"]
  {
    var lines := [['1', '.', ' ', 'a'], ['2', '.', ' ', 'b']];
    TwoLinesText();
    OneCharItem('1', 'a');
    OneCharItem('2', 'b');
    NumberedItemsOfLines(lines);
    CollectTwo(lines, NumberedLine);
  }

  lemma TwoLinesText()
    ensures JoinLines([['1', '.', ' ', 'a'], ['2', '.', ' ', 'b']]) == "1. a\n2. b"
  {
    var lines := [['1', '.', ' ', 'a'], ['2', '.', ' ', 'b']];
    assert lines[1..] == [['2', '.', ' ', 'b']];
  }

  lemma CollectTwo<T>(lines: seq<string>, f: string -> Option<T>)
    requires |lines| == 2 && f(lines[0]).Some? && f(lines[1]).Some?
    ensures Collect(lines, f) == [f(lines[0]).value, f(lines[1]).value]
  {
    var tail := lines[1..];
    assert tail[0] == lines[1] && tail[1..] == [];
    assert Collect(tail, f) == [f(lines[1]).value];
  }

  /** One notes subsection whose body is trimmed: its numbered items, if it
      has any, under its normalised heading. */
  lemma NotesOfOneSubsection(heading: string, body: string)
    requires NoteHeading(heading) && SubsectionBody(body) && IsTrimmed(body)
    ensures var items := NumberedItems(body);
      SuccessCriteriaOf("### " + heading + "\n" + body).notes
        == if |items| > 0 then map[NormalizeKey(heading) := items] else map[]
  {
    var subsections := [(heading, body)];
    assert subsections[1..] == [];
    assert [] + NotesText(subsections) == "### " + heading + "\n" + body;
    NotesOfSubsections([], subsections);
    TrimOfTrimmed(body);
  }

  /** A Success Criteria section with the subsection `### PHPStan Progression`
      and the numbered lines `1. a` and `2. b` has the note
      `phpstan_progression` with the items `a` and `b`. */
  lemma PhpstanProgressionNotes()
    ensures SuccessCriteriaOf("### PHPStan Progression\n1. a\n2. b").notes == map["phpstan_progression" := ["a", "b"]]
  {
    PhpstanText();
    PhpstanParts();
    NotesOfOneSubsection("PHPStan Progression", "1. a\n2. b");
    TwoNumberedItems();
    PhpstanKey();
  }

  /** The example is a notes subsection written out. */
  lemma PhpstanText()
    ensures "### " + "PHPStan Progression" + "\n" + "1. a\n2. b" == "### PHPStan Progression\n1. a\n2. b"
  {
  }

  /** The example's heading and body are a notes subsection. */
  lemma PhpstanParts()
    ensures NoteHeading("PHPStan Progression") && SubsectionBody("1. a\n2. b") && IsTrimmed("1. a\n2. b")
  {
    NoHashNoMark("1. a\n2. b");
  }

  // ---------------------------------------------------------------------------
  // Sections without subsections or labels.
  // ---------------------------------------------------------------------------

  /** A section without a `#` has no subsection of any title. */
  lemma NoSubsection(section: string, title: string, toLineEnd: bool)
    requires forall k :: 0 <= k < |section| ==> section[k] != '#'
    ensures Subsection(section, title, toLineEnd).None?
  {
    var m := t => SubsectionAt(title, toLineEnd, t);
    assert BeginsWithOneOf(m, {'#'});
    FirstAnywhereNone(section, m, {'#'});
  }

  /** A Knowledge section without `###` headings has empty scope lists. */
  lemma KnowledgeWithoutSubsections(section: string)
    requires forall k :: 0 <= k < |section| ==> section[k] != '#'
    ensures ParseKnowledge(section) == Knowledge([], [])
  {
    NoSubsection(section, "in scope", false);
    NoSubsection(section, "out of scope", false);
  }

  /** A Constraints section without `###` headings has empty constraint lists. */
  lemma ConstraintsWithoutSubsections(section: string)
    requires forall k :: 0 <= k < |section| ==> section[k] != '#'
    ensures ParseConstraints(section) == Constraints([], [])
  {
    NoSubsection(section, "hard constraints", true);
    NoSubsection(section, "soft constraints", true);
  }

  /** A Success Criteria section without `###` headings has no notes. */
  lemma NotesWithoutSubsections(section: string)
    requires forall k :: 0 <= k < |section| ==> section[k] != '#'
    ensures SuccessCriteriaOf(section).notes == map[]
  {
    NoteMatchesStartWithHash();
    ScanAllNone(section, NoteSubsectionAt, {'#'});
  }

  /** A section without a `*` has no bold key/value pairs. */
  lemma NoKeyValuePairs(section: string)
    requires forall k :: 0 <= k < |section| ==> section[k] != '*'
    ensures KeyValuePairs(section) == map[]
  {
    assert Consumes(KeyValueAt) && BeginsWithOneOf(KeyValueAt, {'*'});
    ScanAllNone(section, KeyValueAt, {'*'});
  }

  /** A section without a `*` has no label of any kind. */
  lemma NoLabel(section: string, tag: string)
    requires 0 < |tag| && tag[0] == '*'
    requires forall k :: 0 <= k < |section| ==> section[k] != '*'
    ensures Labelled(section, tag).None?
  {
    var m := t => LabelledAt(tag, t);
    forall t: string | m(t).Some?
      ensures 0 < |t| && t[0] in {'*'}
    {
      LowerStar(t[0]);
    }
    FirstAnywhereNone(section, m, {'*'});
  }

  /** An Interfaces section without bold text: no standalone entry and no
      hand-off lists. */
  lemma InterfacesWithoutLabels(section: string)
    requires forall k :: 0 <= k < |section| ==> section[k] != '*'
    ensures ParseInterfaces(section) == Interfaces(None, [], [])
  {
    NoKeyValuePairs(section);
    NoLabel(section, "**accepts handoffs from:**");
    NoLabel(section, "**hands off to:**");
  }
}
