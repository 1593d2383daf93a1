/**
 * The JavaScript string built-ins the parser is written with, over strings as
 * sequences of characters: the `\s` character class (which is also the set
 * `trim` removes), the line terminators that `.`, `^` and `$` respect,
 * `trim`, `toLowerCase`, `replace(/\s+/g, '_')`, `indexOf` and `split`.
 */
module Text {

  /** A character of the regular-expression class `\s`; `String.prototype.trim`
      removes exactly these characters. */
  predicate IsSpace(c: char) {
    || c == ' ' || c == '\t' || c == '\n' || c == '\r' || c == '\U{0B}' || c == '\U{0C}'
    || c == '\U{A0}' || c == '\U{1680}' || ('\U{2000}' <= c <= '\U{200A}')
    || c == '\U{2028}' || c == '\U{2029}' || c == '\U{202F}' || c == '\U{205F}'
    || c == '\U{3000}' || c == '\U{FEFF}'
  }

  /** A line terminator: `.` never matches one, and with the `m` flag `^` matches
      right after one and `$` right before one. */
  predicate IsLineTerminator(c: char) {
    c == '\n' || c == '\r' || c == '\U{2028}' || c == '\U{2029}'
  }

  predicate IsDigit(c: char) {
    '0' <= c <= '9'
  }

  predicate IsUpper(c: char) {
    'A' <= c <= 'Z'
  }

  predicate AllSpaces(s: string) {
    forall k :: 0 <= k < |s| ==> IsSpace(s[k])
  }

  predicate NoSpaces(s: string) {
    forall k :: 0 <= k < |s| ==> !IsSpace(s[k])
  }

  predicate NoLineTerminators(s: string) {
    forall k :: 0 <= k < |s| ==> !IsLineTerminator(s[k])
  }

  /** No leading and no trailing white space. */
  predicate IsTrimmed(s: string) {
    s == [] || (!IsSpace(s[0]) && !IsSpace(s[|s| - 1]))
  }

  /** A key as the parser normalises it: lower case, no white space. */
  predicate IsNormalizedKey(s: string) {
    forall k :: 0 <= k < |s| ==> !IsSpace(s[k]) && !IsUpper(s[k])
  }

  /** How far a greedy `\s*` reaches from i: the first position at or after i
      that does not hold white space. */
  function SkipSpaces(s: string, i: nat): (j: nat)
    requires i <= |s|
    ensures i <= j <= |s|
    ensures forall k :: i <= k < j ==> IsSpace(s[k])
    ensures j == |s| || !IsSpace(s[j])
    decreases |s| - i
  {
    if i == |s| || !IsSpace(s[i]) then i else SkipSpaces(s, i + 1)
  }

  /** A stretch of white space, as a slice. */
  lemma SpacesBetween(s: string, i: nat, j: nat)
    requires i <= j <= |s|
    requires forall k :: i <= k < j ==> IsSpace(s[k])
    ensures AllSpaces(s[i..j])
  {
    assert forall k :: 0 <= k < j - i ==> s[i..j][k] == s[i + k];
  }

  /** How far a greedy `\d*` reaches from i. */
  function SkipDigits(s: string, i: nat): (j: nat)
    requires i <= |s|
    ensures i <= j <= |s|
    ensures forall k :: i <= k < j ==> IsDigit(s[k])
    ensures j == |s| || !IsDigit(s[j])
    decreases |s| - i
  {
    if i == |s| || !IsDigit(s[i]) then i else SkipDigits(s, i + 1)
  }

  /** How far a greedy `.*` reaches from i: the end of the line holding i. */
  function LineEnd(s: string, i: nat): (j: nat)
    requires i <= |s|
    ensures i <= j <= |s|
    ensures forall k :: i <= k < j ==> !IsLineTerminator(s[k])
    ensures j == |s| || IsLineTerminator(s[j])
    decreases |s| - i
  {
    if i == |s| || IsLineTerminator(s[i]) then i else LineEnd(s, i + 1)
  }

  /** `s.indexOf(c, i)`, with |s| standing for -1. */
  function IndexOfChar(s: string, c: char, i: nat): (j: nat)
    requires i <= |s|
    ensures i <= j <= |s|
    ensures forall k :: i <= k < j ==> s[k] != c
    ensures j < |s| ==> s[j] == c
    decreases |s| - i
  {
    if i == |s| || s[i] == c then i else IndexOfChar(s, c, i + 1)
  }

  /** `pat` occurs in `s` at position i. */
  predicate OccursAt(s: string, pat: string, i: nat) {
    i + |pat| <= |s| && s[i..i + |pat|] == pat
  }

  /** What occurs at the start of a string occurs at the start of any
      longer string that begins with it. */
  lemma OccursAtFront(x: string, rest: string, pat: string)
    requires OccursAt(x, pat, 0)
    ensures OccursAt(x + rest, pat, 0)
  {
    assert (x + rest)[0..|pat|] == x[0..|pat|];
  }

  /** Where `pat` occurs, its first character does. */
  lemma OccursAtHead(s: string, pat: string, i: nat)
    requires OccursAt(s, pat, i) && |pat| > 0
    ensures s[i] == pat[0]
  {
    assert s[i..i + |pat|][0] == s[i];
  }

  /** `pat` occurs somewhere in `s`. */
  ghost predicate Contains(s: string, pat: string) {
    exists i: nat :: OccursAt(s, pat, i)
  }

  /** What occurs in a suffix occurs in the whole string. */
  lemma ContainsOfSuffix(s: string, d: nat, pat: string)
    requires d <= |s| && Contains(s[d..], pat)
    ensures Contains(s, pat)
  {
    var i: nat :| OccursAt(s[d..], pat, i);
    assert s[d..][i..i + |pat|] == s[d + i..d + i + |pat|];
    assert OccursAt(s, pat, d + i);
  }

  /** Text that stops before the first occurrence of a mark does not contain it. */
  lemma NoMarkBefore(t: string, mark: string, w: nat, q: nat)
    requires w <= q <= |t| && mark != []
    requires forall k :: w <= k < q ==> !OccursAt(t, mark, k)
    ensures !Contains(t[w..q], mark)
  {
    forall i: nat
      ensures !OccursAt(t[w..q], mark, i)
    {
      if i + |mark| <= q - w {
        var u := t[w..q][i..i + |mark|];
        var v := t[w + i..w + i + |mark|];
        assert u == v by {
          forall j | 0 <= j < |mark|
            ensures u[j] == v[j]
          {
            assert u[j] == t[w + i + j] == v[j];
          }
        }
        assert !OccursAt(t, mark, w + i);
      }
    }
  }

  /** `s.indexOf(pat, i)`, with |s| standing for "not found". */
  function IndexOf(s: string, pat: string, i: nat): (j: nat)
    requires i <= |s|
    ensures i <= j <= |s|
    ensures forall k :: i <= k < j ==> !OccursAt(s, pat, k)
    ensures j < |s| ==> OccursAt(s, pat, j)
    decreases |s| - i
  {
    if i == |s| || OccursAt(s, pat, i) then i else IndexOf(s, pat, i + 1)
  }

  /** `toLowerCase` on one character, for the ASCII letters. */
  function LowerChar(c: char): (d: char)
    ensures !IsUpper(d)
    ensures IsSpace(d) <==> IsSpace(c)
    ensures !IsUpper(c) ==> d == c
    ensures IsUpper(c) ==> d as int == c as int + 32
  {
    if IsUpper(c) then (c as int + 32) as char else c
  }

  /** `pat`, written in lower case, occurs at position i of `s` under the regular
      expression flag `i`. */
  predicate OccursAtIgnoreCase(s: string, pat: string, i: nat) {
    i + |pat| <= |s| && forall k :: 0 <= k < |pat| ==> LowerChar(s[i + k]) == pat[k]
  }

  function ToLower(s: string): (r: string)
    ensures |r| == |s|
    ensures forall k :: 0 <= k < |r| ==> r[k] == LowerChar(s[k])
  {
    seq(|s|, k requires 0 <= k < |s| => LowerChar(s[k]))
  }

  /** The end of `s[..j]` once its trailing white space is removed. */
  function TrimEndIndex(s: string, j: nat): (e: nat)
    requires j <= |s|
    ensures e <= j
    ensures forall k :: e <= k < j ==> IsSpace(s[k])
    ensures e == 0 || !IsSpace(s[e - 1])
  {
    if j == 0 || !IsSpace(s[j - 1]) then j else TrimEndIndex(s, j - 1)
  }

  /** `s` is `r` with white space around it. */
  ghost predicate Pads(s: string, r: string) {
    exists i :: 0 <= i && i + |r| <= |s| && s[i..i + |r|] == r && AllSpaces(s[..i]) && AllSpaces(s[i + |r|..])
  }

  /** `String.prototype.trim`. */
  function Trim(s: string): (r: string)
    ensures IsTrimmed(r)
    ensures |r| <= |s|
    ensures r == [] <==> AllSpaces(s)
  {
    var a := SkipSpaces(s, 0);
    var e := TrimEndIndex(s, |s|);
    if e <= a then
      assert s[0..0] == [] && s[..0] == [] && s[0..] == s;
      []
    else
      assert AllSpaces(s[..a]) && AllSpaces(s[e..]);
      s[a..e]
  }

  /** `trim` removes white space at both ends and nothing else. */
  lemma TrimPads(s: string)
    ensures Pads(s, Trim(s))
  {
    var a := SkipSpaces(s, 0);
    var e := TrimEndIndex(s, |s|);
    if e <= a {
      assert s[0..0] == [] && s[..0] == [] && s[0..] == s;
      assert Pads(s, Trim(s)) by {
        assert 0 + |Trim(s)| <= |s| && s[0..0] == Trim(s) && AllSpaces(s[..0]) && AllSpaces(s[0..]);
      }
    } else {
      assert AllSpaces(s[..a]) && AllSpaces(s[e..]);
      assert s[a..a + |Trim(s)|] == Trim(s);
    }
  }

  /** `replace(/\s+/g, '_')`: every maximal run of white space becomes one `_`. */
  function ReplaceSpaceRuns(s: string): (r: string)
    ensures NoSpaces(r)
    ensures (forall k :: 0 <= k < |s| ==> !IsUpper(s[k])) ==> forall k :: 0 <= k < |r| ==> !IsUpper(r[k])
    ensures NoSpaces(s) ==> r == s
    decreases |s|
  {
    if s == [] then []
    else if IsSpace(s[0]) then "_" + ReplaceSpaceRuns(s[SkipSpaces(s, 0)..])
    else [s[0]] + ReplaceSpaceRuns(s[1..])
  }

  /** How the parser normalises a key, a table header, a section name or a
      subsection title: `x.trim().toLowerCase().replace(/\s+/g, '_')`. */
  function NormalizeKey(s: string): (r: string)
    ensures IsNormalizedKey(r)
    ensures |r| <= |s|
    ensures r == [] <==> AllSpaces(s)
  {
    var t := Trim(s);
    var r := ReplaceSpaceRuns(ToLower(t));
    LengthOfReplaceSpaceRuns(ToLower(t));
    EmptyReplaceSpaceRuns(ToLower(t));
    r
  }

  lemma {:induction false} LengthOfReplaceSpaceRuns(s: string)
    ensures |ReplaceSpaceRuns(s)| <= |s|
    decreases |s|
  {
    if s == [] {
    } else if IsSpace(s[0]) {
      LengthOfReplaceSpaceRuns(s[SkipSpaces(s, 0)..]);
    } else {
      LengthOfReplaceSpaceRuns(s[1..]);
    }
  }

  lemma EmptyReplaceSpaceRuns(s: string)
    ensures ReplaceSpaceRuns(s) == [] <==> s == []
  {
  }

  /** A greedy `\s*` at the start of x + y stops where it stops in x, when it
      stops inside x. */
  lemma SkipSpacesOfPrefix(x: string, y: string)
    requires SkipSpaces(x, 0) < |x|
    ensures SkipSpaces(x + y, 0) == SkipSpaces(x, 0)
  {
    var s := x + y;
    assert forall k :: 0 <= k < |x| ==> s[k] == x[k];
  }

  /** A greedy `\s*` runs over leading white space up to the first other character. */
  lemma SkipSpacesOverSpaces(w: string, b: string)
    requires AllSpaces(w)
    requires b == [] || !IsSpace(b[0])
    ensures SkipSpaces(w + b, 0) == |w|
  {
    var s := w + b;
    assert forall k :: 0 <= k < |w| ==> s[k] == w[k];
    assert |w| < |s| ==> s[|w|] == b[0];
  }

  /** The first step of `replace(/\s+/g, '_')` is the same on a and on a +
      rest when a does not end in white space: it copies a[0] (j = 1) or
      replaces the run a begins with (j its end) by `_`. */
  lemma ReplaceSpaceRunsHead(a: string, rest: string, j: nat, head: string)
    requires a != [] && !IsSpace(a[|a| - 1])
    requires j == (if IsSpace(a[0]) then SkipSpaces(a, 0) else 1)
    requires head == (if IsSpace(a[0]) then "_" else [a[0]])
    ensures 0 < j <= |a|
    ensures ReplaceSpaceRuns(a + rest) == head + ReplaceSpaceRuns(a[j..] + rest)
  {
    if IsSpace(a[0]) {
      SkipSpacesOfPrefix(a, rest);
    }
    assert (a + rest)[j..] == a[j..] + rest;
  }

  /** Concatenation is associative. */
  lemma AppendAssoc<T>(a: seq<T>, b: seq<T>, c: seq<T>)
    ensures a + b + c == a + (b + c)
  {
  }

  /** A non-empty sequence is its first element followed by the rest. */
  lemma FirstAndRest<T>(s: seq<T>)
    requires s != []
    ensures s == [s[0]] + s[1..]
  {
  }

  lemma UnderscoreAssoc(h: string, x: string, y: string)
    ensures h + (x + "_" + y) == (h + x) + "_" + y
  {
  }

  /** A leading run of white space becomes one `_`. */
  lemma ReplaceSpaceRunsOfRun(w: string, b: string)
    requires w != [] && AllSpaces(w)
    requires b == [] || !IsSpace(b[0])
    ensures ReplaceSpaceRuns(w + b) == "_" + ReplaceSpaceRuns(b)
  {
    SkipSpacesOverSpaces(w, b);
    assert (w + b)[|w|..] == b;
  }

  /** A run of white space between two words becomes exactly one `_`, and
      the text on either side is replaced on its own. */
  lemma {:induction false} ReplaceSpaceRunsSplit(a: string, w: string, b: string)
    requires w != [] && AllSpaces(w)
    requires a == [] || !IsSpace(a[|a| - 1])
    requires b == [] || !IsSpace(b[0])
    ensures ReplaceSpaceRuns(a + w + b) == ReplaceSpaceRuns(a) + "_" + ReplaceSpaceRuns(b)
    decreases |a|
  {
    if a == [] {
      assert a + w + b == w + b;
      ReplaceSpaceRunsOfRun(w, b);
    } else {
      var j := if IsSpace(a[0]) then SkipSpaces(a, 0) else 1;
      var head := if IsSpace(a[0]) then "_" else [a[0]];
      ReplaceSpaceRunsHead(a, w + b, j, head);
      ReplaceSpaceRunsHead(a, [], j, head);
      var u := a[j..];
      AppendAssoc(a, w, b);
      AppendAssoc(u, w, b);
      assert a + [] == a && u + [] == u;
      if u != [] {
        assert u[|u| - 1] == a[|a| - 1];
      }
      ReplaceSpaceRunsSplit(u, w, b);
      var ru, rb := ReplaceSpaceRuns(u), ReplaceSpaceRuns(b);
      assert ReplaceSpaceRuns(a) == head + ru;
      assert ReplaceSpaceRuns(a + w + b) == head + (ru + "_" + rb);
      UnderscoreAssoc(head, ru, rb);
    }
  }

  /** Two words separated by white space normalise to the lower-cased words
      joined by one `_`, as "PHPStan  Progression" becomes "phpstan_progression". */
  lemma NormalizeKeyOfTwoWords(a: string, w: string, b: string)
    requires a != [] && b != [] && NoSpaces(a) && NoSpaces(b)
    requires w != [] && AllSpaces(w)
    ensures NormalizeKey(a + w + b) == ToLower(a) + "_" + ToLower(b)
  {
    var s := a + w + b;
    assert s[0] == a[0] && s[|s| - 1] == b[|b| - 1];
    TrimOfTrimmed(s);
    var la, lw, lb := ToLower(a), ToLower(w), ToLower(b);
    ToLowerOfThree(a, w, b);
    assert !IsSpace(la[|la| - 1]) && !IsSpace(lb[0]) && AllSpaces(lw);
    ReplaceSpaceRunsSplit(la, lw, lb);
    assert NoSpaces(la) && NoSpaces(lb);
    assert ReplaceSpaceRuns(la) == la && ReplaceSpaceRuns(lb) == lb;
    assert NormalizeKey(s) == ReplaceSpaceRuns(la + lw + lb);
  }

  /** Lower-casing works character by character. */
  lemma ToLowerOfThree(a: string, w: string, b: string)
    ensures ToLower(a + w + b) == ToLower(a) + ToLower(w) + ToLower(b)
  {
  }

  /** Normalising an already normalised key changes nothing. */
  lemma NormalizeKeyIdempotent(s: string)
    ensures NormalizeKey(NormalizeKey(s)) == NormalizeKey(s)
  {
    var r := NormalizeKey(s);
    TrimOfTrimmed(r);
    assert ToLower(r) == r;
  }

  /** Trimming a string that has no white space at either end changes nothing. */
  lemma TrimOfTrimmed(s: string)
    requires IsTrimmed(s)
    ensures Trim(s) == s
  {
    if s != [] {
      assert SkipSpaces(s, 0) == 0;
      assert TrimEndIndex(s, |s|) == |s|;
      assert s[0..|s|] == s;
    }
  }

  /** White space in front of a string does not change what `trim` returns. */
  lemma {:induction false} TrimLeadingSpaces(ws: string, s: string)
    requires AllSpaces(ws)
    ensures Trim(ws + s) == Trim(s)
    decreases |ws|
  {
    if ws != [] {
      var t := ws + s;
      assert t[0] == ws[0];
      assert t[1..] == ws[1..] + s;
      TrimDropFirstSpace(t);
      TrimLeadingSpaces(ws[1..], s);
    } else {
      assert ws + s == s;
    }
  }

  lemma TrimDropFirstSpace(s: string)
    requires s != [] && IsSpace(s[0])
    ensures Trim(s) == Trim(s[1..])
  {
    var t := s[1..];
    var a, e := SkipSpaces(s, 0), TrimEndIndex(s, |s|);
    SkipSpacesSuffix(s, 1, 1);
    TrimEndIndexShift(s, 1, |s|);
    if e <= a {
      SpacesOnlyAfterFirst(s);
    } else {
      TrimOfSpan(t, a - 1, e - 1);
      SliceOfTail(s, a, e);
    }
  }

  lemma SliceOfTail(s: string, a: nat, e: nat)
    requires 1 <= a <= e <= |s|
    ensures s[1..][a - 1..e - 1] == s[a..e]
  {
  }

  /** A string whose first character is white space is all white space when the
      rest of it is. */
  lemma SpacesOnlyAfterFirst(s: string)
    requires s != [] && IsSpace(s[0]) && AllSpaces(s)
    ensures AllSpaces(s[1..])
  {
  }

  /** `trim` keeps the span between the first and the last character that is not
      white space. */
  lemma TrimOfSpan(s: string, a: nat, e: nat)
    requires a < e <= |s| && SkipSpaces(s, 0) == a && TrimEndIndex(s, |s|) == e
    ensures Trim(s) == s[a..e]
  {
  }

  /** Skipping white space in a suffix is skipping it in the whole string. */
  lemma {:induction false} SkipSpacesSuffix(s: string, d: nat, i: nat)
    requires d <= i <= |s|
    ensures SkipSpaces(s[d..], i - d) + d == SkipSpaces(s, i)
    decreases |s| - i
  {
    if i < |s| && IsSpace(s[i]) {
      SkipSpacesSuffix(s, d, i + 1);
    }
  }

  lemma {:induction false} TrimEndIndexShift(s: string, d: nat, j: nat)
    requires d <= j <= |s|
    ensures TrimEndIndex(s[d..], j - d) + d == TrimEndIndex(s, j) || TrimEndIndex(s, j) <= d
    decreases j
  {
    if j > d && IsSpace(s[j - 1]) {
      TrimEndIndexShift(s, d, j - 1);
    }
  }

  /** `s.split(sep)` for a one-character separator. */
  function Split(s: string, sep: char): (parts: seq<string>)
    ensures |parts| >= 1
    ensures forall k :: 0 <= k < |parts| ==> sep !in parts[k]
    ensures Join(parts, sep) == s
    decreases |s|
  {
    var i := IndexOfChar(s, sep, 0);
    if i == |s| then
      assert s[..|s|] == s;
      [s]
    else
      var rest := Split(s[i + 1..], sep);
      assert s == s[..i] + [sep] + s[i + 1..];
      [s[..i]] + rest
  }

  /** `parts.join(sep)`. */
  function Join(parts: seq<string>, sep: char): string
  {
    if |parts| == 0 then []
    else if |parts| == 1 then parts[0]
    else parts[0] + [sep] + Join(parts[1..], sep)
  }

  /** Lines put back together with newlines. */
  function JoinLines(lines: seq<string>): string {
    Join(lines, '\n')
  }

  /** Splitting undoes joining, when no part holds the separator. */
  lemma {:induction false} SplitJoin(parts: seq<string>, sep: char)
    requires |parts| >= 1
    requires forall k :: 0 <= k < |parts| ==> sep !in parts[k]
    ensures Split(Join(parts, sep), sep) == parts
    decreases |parts|
  {
    var s := Join(parts, sep);
    var p := parts[0];
    if |parts| == 1 {
      assert IndexOfChar(s, sep, 0) == |s|;
    } else {
      assert s == p + [sep] + Join(parts[1..], sep);
      assert s[|p|] == sep;
      assert IndexOfChar(s, sep, 0) == |p|;
      assert s[..|p|] == p;
      assert s[|p| + 1..] == Join(parts[1..], sep);
      SplitJoin(parts[1..], sep);
    }
  }
}
