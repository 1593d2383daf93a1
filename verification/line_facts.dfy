/**
 * Scanning inside the first line of a longer text: the white-space runs,
 * digit runs, line ends and rest-of-line groups that a pattern finds there are
 * the ones it finds on the line alone.
 */
module LineFacts {
  import opened Optional
  import opened Text
  import opened LineScan

  /** A text that begins with a line agrees with it character by character,
      and a newline closes the line. */
  lemma LineChars(t: string, l: string)
    requires BeginsWithLine(t, l)
    ensures forall k :: 0 <= k < |l| ==> t[k] == l[k]
    ensures |l| < |t| ==> t[|l|] == '\n'
  {
    forall k | 0 <= k < |l| ensures t[k] == l[k] {
      assert t[..|l|][k] == l[k];
    }
  }

  /** A white-space run from i reaches the end exactly when nothing but white
      space follows i. */
  lemma SkipSpacesToEnd(s: string, i: nat)
    requires i <= |s|
    ensures SkipSpaces(s, i) == |s| <==> AllSpaces(s[i..])
  {
    var j := SkipSpaces(s, i);
    assert forall k :: 0 <= k < |s[i..]| ==> s[i..][k] == s[i + k];
    if j < |s| {
      assert !IsSpace(s[i..][j - i]);
    }
  }

  /** Where the text continues a line that holds more than white space from i
      on, a white-space run from i stops inside the line. */
  lemma SkipSpacesInLine(t: string, l: string, i: nat)
    requires BeginsWithLine(t, l) && i <= |l| && SkipSpaces(l, i) < |l|
    ensures SkipSpaces(t, i) == SkipSpaces(l, i)
  {
    LineChars(t, l);
  }

  /** The end of a line, looked for from inside it, is the end of the line
      however the text goes on. */
  lemma LineEndInLine(t: string, l: string, i: nat)
    requires BeginsWithLine(t, l) && NoLineTerminators(l) && i <= |l|
    ensures LineEnd(t, i) == |l|
  {
    LineChars(t, l);
  }

  /** A digit run that starts inside a line stops where it does on the line alone. */
  lemma SkipDigitsInLine(t: string, l: string, i: nat)
    requires BeginsWithLine(t, l) && i <= |l|
    ensures SkipDigits(t, i) == SkipDigits(l, i)
  {
    LineChars(t, l);
  }

  /** The tail `\s{n,}(.+)$` matched from i in a line that holds more than white
      space after i: the group runs from the first character that is not white
      space to the end of the line, once the run is n long at least. */
  lemma RestOfLineInLine(t: string, l: string, i: nat, n: nat)
    requires BeginsWithLine(t, l) && NoLineTerminators(l) && i <= |l| && SkipSpaces(l, i) < |l|
    ensures var w := SkipSpaces(l, i);
      RestOfLine(t, i, n) == if i + n <= w then Some(Span(w, |l|)) else None
  {
    SkipSpacesInLine(t, l, i);
    LineEndInLine(t, l, SkipSpaces(l, i));
  }

  /** The characters a span of the text covers, when it lies inside the line. */
  lemma SliceInLine(t: string, l: string, a: nat, b: nat)
    requires BeginsWithLine(t, l) && a <= b <= |l|
    ensures t[a..b] == l[a..b]
  {
    LineChars(t, l);
  }

  /** The trimmed text of a span inside the line, and of the rest of the line. */
  lemma TrimSliceInLine(t: string, l: string)
    requires BeginsWithLine(t, l)
    ensures forall a, b :: 0 <= a <= b <= |l| ==> Trim(t[a..b]) == Trim(l[a..b])
    ensures forall a :: 0 <= a <= |l| ==> Trim(t[a..|l|]) == Trim(l[a..])
  {
    forall a, b | 0 <= a <= b <= |l| ensures Trim(t[a..b]) == Trim(l[a..b]) {
      SliceInLine(t, l, a, b);
    }
    forall a | 0 <= a <= |l| ensures Trim(t[a..|l|]) == Trim(l[a..]) {
      SliceInLine(t, l, a, |l|);
      assert l[a..|l|] == l[a..];
    }
  }
}
