/**
 * How JavaScript's regular-expression engine walks a string for the handful
 * of pattern shapes the parser uses, with the search position made explicit:
 * a pattern anchored with `^` under the `m` flag is tried at line starts only,
 * an unanchored one at every position; `regex.exec` in a loop (flag `g`)
 * resumes where the previous match ended, and `string.match` (no `g`) stops at
 * the first match. A matcher for one pattern is a function from the remaining
 * text to the value it extracts and the length it consumes.
 */
module LineScan {
  import opened Optional
  import opened Text

  /** What a pattern extracts at the start of a text, and where its match ends. */
  datatype Found<T> = Found(value: T, end: nat)

  /** A capture group: the characters from `start` up to `end`. */
  datatype Span = Span(start: nat, end: nat)

  /** Position i of s is one where `^` matches under the `m` flag. */
  predicate LineStartAt(s: string, i: nat)
    requires i <= |s|
  {
    i == 0 || IsLineTerminator(s[i - 1])
  }

  /** Every match consumes at least one character (none of the parser's patterns
      can match the empty string), so a search that resumes at its end makes progress. */
  ghost predicate Consumes<T>(m: string -> Option<Found<T>>) {
    forall t: string :: m(t).Some? ==> 0 < m(t).value.end <= |t|
  }

  /** Every match begins with one of the characters in `starters`. */
  ghost predicate BeginsWithOneOf<T>(m: string -> Option<Found<T>>, starters: set<char>) {
    forall t: string :: m(t).Some? ==> 0 < |t| && t[0] in starters
  }

  /** The last position in [lo, hi) that is not a line terminator. */
  function LastNonTerminator(s: string, lo: nat, hi: nat): (r: Option<nat>)
    requires hi <= |s|
    ensures r.Some? ==> lo <= r.value < hi && !IsLineTerminator(s[r.value])
    ensures r.Some? ==> forall k :: r.value < k < hi ==> IsLineTerminator(s[k])
    ensures r.None? ==> forall k :: lo <= k < hi ==> IsLineTerminator(s[k])
    decreases hi
  {
    if hi <= lo then None
    else if !IsLineTerminator(s[hi - 1]) then Some(hi - 1)
    else LastNonTerminator(s, lo, hi - 1)
  }

  /**
   * The pattern tail `\s{n,}(.+)` matched from position i, as the backtracking
   * engine resolves it: the greedy white-space run is given back one character
   * at a time until `.+` (which stops at a line terminator) can take at least
   * one character. The group it returns lies on one line and reaches that
   * line's end, so a `$` after it always holds.
   */
  function RestOfLine(s: string, i: nat, n: nat): (r: Option<Span>)
    requires i <= |s|
    ensures r.Some? ==> i + n <= r.value.start < r.value.end <= |s|
    ensures r.Some? ==> r.value.start <= SkipSpaces(s, i)
    ensures r.Some? ==> NoLineTerminators(s[r.value.start..r.value.end])
    ensures r.Some? ==> r.value.end == |s| || IsLineTerminator(s[r.value.end])
    // the engine prefers the longest white-space run that still lets `.+` match
    ensures r.Some? ==> forall k :: r.value.start < k <= SkipSpaces(s, i) && k < |s| ==> IsLineTerminator(s[k])
    // and fails only when no admissible run is followed by a character `.` accepts
    ensures r.None? ==> forall k :: i + n <= k <= SkipSpaces(s, i) && k < |s| ==> IsLineTerminator(s[k])
  {
    var w := SkipSpaces(s, i);
    if w < |s| then
      if i + n <= w then Some(Span(w, LineEnd(s, w))) else None
    else
      match LastNonTerminator(s, i + n, |s|)
      case None => None
      case Some(k) => Some(Span(k, LineEnd(s, k)))
  }

  /**
   * How a lazy group resolves: the lengths are tried from the shortest up, so
   * the group ends at the first position in [lo, hi] where the rest of the
   * pattern, `rest`, matches; with what `rest` gives there.
   */
  function FirstFrom<X>(lo: nat, hi: nat, rest: nat --> Option<X>): (r: Option<(nat, X)>)
    requires forall k :: lo <= k <= hi ==> rest.requires(k)
    ensures r.Some? ==> lo <= r.value.0 <= hi && rest(r.value.0) == Some(r.value.1)
    ensures r.Some? ==> forall k :: lo <= k < r.value.0 ==> rest(k).None?
    ensures r.None? ==> forall k :: lo <= k <= hi ==> rest(k).None?
    decreases hi + 1 - lo
  {
    if lo > hi then None
    else
      match rest(lo)
      case Some(x) => Some((lo, x))
      case None => FirstFrom(lo + 1, hi, rest)
  }

  /**
   * The values a `^`-anchored pattern with the flags `g` and `m` yields when
   * `regex.exec` is called in a loop: the pattern is tried at each line start
   * in turn, and after a match the search resumes where it ended.
   * `atLineStart` says whether position 0 of `t` is a line start.
   */
  function Scan<T>(t: string, atLineStart: bool, m: string -> Option<Found<T>>): seq<T>
    requires Consumes(m)
    decreases |t|
  {
    if t == [] then []
    else if atLineStart && m(t).Some? then
      var e := m(t).value.end;
      [m(t).value.value] + Scan(t[e..], IsLineTerminator(t[e - 1]), m)
    else
      Scan(t[1..], IsLineTerminator(t[0]), m)
  }

  /** The values an unanchored pattern with the flag `g` yields when
      `regex.exec` is called in a loop: the pattern is tried at every position. */
  function ScanAll<T>(t: string, m: string -> Option<Found<T>>): seq<T>
    requires Consumes(m)
    decreases |t|
  {
    if t == [] then []
    else if m(t).Some? then
      var e := m(t).value.end;
      [m(t).value.value] + ScanAll(t[e..], m)
    else
      ScanAll(t[1..], m)
  }

  /** A step of an anchored scan resumed at position i of s, at a line start
      where the pattern matches: the match is taken and the scan goes on at
      `next`, where the match ended. */
  lemma ScanTakes<T>(s: string, i: nat, next: nat, m: string -> Option<Found<T>>)
    requires Consumes(m) && i < |s| && LineStartAt(s, i) && m(s[i..]).Some?
    requires next == i + m(s[i..]).value.end
    ensures Scan(s[i..], LineStartAt(s, i), m) == [m(s[i..]).value.value] + Scan(s[next..], LineStartAt(s, next), m)
  {
    var t := s[i..];
    var e := m(t).value.end;
    assert t[e..] == s[next..] && t[e - 1] == s[next - 1];
  }

  /** A step of an anchored scan resumed at position i of s, where no match
      is taken: the scan moves on to `next`, one character further. */
  lemma ScanMoves<T>(s: string, i: nat, next: nat, m: string -> Option<Found<T>>)
    requires Consumes(m) && i < |s| && !(LineStartAt(s, i) && m(s[i..]).Some?) && next == i + 1
    ensures Scan(s[i..], LineStartAt(s, i), m) == Scan(s[next..], LineStartAt(s, next), m)
  {
    var t := s[i..];
    assert t[1..] == s[next..] && t[0] == s[i];
  }

  /** A step of an unanchored scan resumed at position i of s, where the
      pattern matches: the scan goes on at `next`, where the match ended. */
  lemma ScanAllTakes<T>(s: string, i: nat, next: nat, m: string -> Option<Found<T>>)
    requires Consumes(m) && i < |s| && m(s[i..]).Some? && next == i + m(s[i..]).value.end
    ensures ScanAll(s[i..], m) == [m(s[i..]).value.value] + ScanAll(s[next..], m)
  {
    var t := s[i..];
    assert t[m(t).value.end..] == s[next..];
  }

  /** A step of an unanchored scan resumed at position i of s, where the
      pattern does not match: the scan moves on to `next`, one character further. */
  lemma ScanAllMoves<T>(s: string, i: nat, next: nat, m: string -> Option<Found<T>>)
    requires Consumes(m) && i < |s| && m(s[i..]).None? && next == i + 1
    ensures ScanAll(s[i..], m) == ScanAll(s[next..], m)
  {
    assert s[i..][1..] == s[next..];
  }

  /** `while ((match = regex.exec(s)) !== null)` for a `^`-anchored pattern
      with the flags `g` and `m`: the values of the matches, in order. */
  method ExecLines<T>(s: string, m: string -> Option<Found<T>>) returns (values: seq<T>)
    requires Consumes(m)
    ensures values == Scan(s, true, m)
  {
    values := [];
    var i := 0;
    assert s[i..] == s;
    while i < |s|
      invariant 0 <= i <= |s|
      invariant values + Scan(s[i..], LineStartAt(s, i), m) == Scan(s, true, m)
    {
      var found := m(s[i..]);
      if LineStartAt(s, i) && found.Some? {
        var next := i + found.value.end;
        ScanTakes(s, i, next, m);
        AppendAssoc(values, [found.value.value], Scan(s[next..], LineStartAt(s, next), m));
        values := values + [found.value.value];
        i := next;
      } else {
        var next := i + 1;
        ScanMoves(s, i, next, m);
        i := next;
      }
    }
  }

  /** `while ((match = regex.exec(s)) !== null)` for an unanchored pattern with
      the flag `g`: the values of the matches, in order. */
  method ExecAll<T>(s: string, m: string -> Option<Found<T>>) returns (values: seq<T>)
    requires Consumes(m)
    ensures values == ScanAll(s, m)
  {
    values := [];
    var i := 0;
    assert s[i..] == s;
    while i < |s|
      invariant 0 <= i <= |s|
      invariant values + ScanAll(s[i..], m) == ScanAll(s, m)
    {
      var found := m(s[i..]);
      if found.Some? {
        var next := i + found.value.end;
        ScanAllTakes(s, i, next, m);
        AppendAssoc(values, [found.value.value], ScanAll(s[next..], m));
        values := values + [found.value.value];
        i := next;
      } else {
        var next := i + 1;
        ScanAllMoves(s, i, next, m);
        i := next;
      }
    }
  }

  /** `t.match(regex)` for a `^`-anchored pattern with the `m` flag and no `g`:
      the value of the match at the first line start where the pattern matches. */
  function First<T>(t: string, atLineStart: bool, m: string -> Option<Found<T>>): Option<T>
    decreases |t|
  {
    if atLineStart && m(t).Some? then Some(m(t).value.value)
    else if t == [] then None
    else First(t[1..], IsLineTerminator(t[0]), m)
  }

  /** `t.match(regex)` for an unanchored pattern without `g`: the leftmost match. */
  function FirstAnywhere<T>(t: string, m: string -> Option<Found<T>>): Option<T>
    decreases |t|
  {
    if m(t).Some? then Some(m(t).value.value)
    else if t == [] then None
    else FirstAnywhere(t[1..], m)
  }

  /** Position i of t is one where an anchored search whose position 0 is a
      line start exactly when `atLineStart` holds tries its pattern. */
  predicate TriedAt(t: string, atLineStart: bool, i: nat)
    requires i <= |t|
  {
    if i == 0 then atLineStart else IsLineTerminator(t[i - 1])
  }

  /** What an anchored search finds is the value the matcher gives at the first
      line start where it matches: at no earlier line start does it match. */
  lemma {:induction false} FirstIsAMatch<T>(t: string, atLineStart: bool, m: string -> Option<Found<T>>)
    requires First(t, atLineStart, m).Some?
    ensures exists i :: 0 <= i <= |t| && TriedAt(t, atLineStart, i)
                        && m(t[i..]).Some? && m(t[i..]).value.value == First(t, atLineStart, m).value
                        && forall k :: 0 <= k < i && TriedAt(t, atLineStart, k) ==> m(t[k..]).None?
    decreases |t|
  {
    if atLineStart && m(t).Some? {
      assert t[0..] == t;
      assert TriedAt(t, atLineStart, 0);
    } else {
      var u := t[1..];
      var a := IsLineTerminator(t[0]);
      FirstIsAMatch(u, a, m);
      var i :| 0 <= i <= |u| && TriedAt(u, a, i)
        && m(u[i..]).Some? && m(u[i..]).value.value == First(t, atLineStart, m).value
        && forall k :: 0 <= k < i && TriedAt(u, a, k) ==> m(u[k..]).None?;
      assert u[i..] == t[i + 1..];
      TriedShift(t, atLineStart, i);
      forall k | 0 <= k < i + 1 && TriedAt(t, atLineStart, k)
        ensures m(t[k..]).None?
      {
        if k == 0 {
          assert t[0..] == t;
        } else {
          assert u[k - 1..] == t[k..];
          TriedShift(t, atLineStart, k - 1);
        }
      }
    }
  }

  /** Position i + 1 of t is tried exactly when position i of t[1..] is, once
      the search has moved past t[0]. */
  lemma TriedShift(t: string, atLineStart: bool, i: nat)
    requires i < |t|
    ensures TriedAt(t, atLineStart, i + 1) == TriedAt(t[1..], IsLineTerminator(t[0]), i)
  {
    if i > 0 {
      assert t[1..][i - 1] == t[i];
    }
  }

  /** What an unanchored search finds is the value the matcher gives at the
      leftmost position where it matches. */
  lemma {:induction false} FirstAnywhereIsAMatch<T>(t: string, m: string -> Option<Found<T>>)
    requires FirstAnywhere(t, m).Some?
    ensures exists i :: 0 <= i <= |t| && m(t[i..]).Some? && m(t[i..]).value.value == FirstAnywhere(t, m).value
                        && forall k :: 0 <= k < i ==> m(t[k..]).None?
    decreases |t|
  {
    if m(t).Some? {
      assert t[0..] == t;
    } else {
      var u := t[1..];
      FirstAnywhereIsAMatch(u, m);
      var i :| 0 <= i <= |u| && m(u[i..]).Some? && m(u[i..]).value.value == FirstAnywhere(t, m).value
        && forall k :: 0 <= k < i ==> m(u[k..]).None?;
      assert u[i..] == t[i + 1..];
      forall k | 0 <= k < i + 1
        ensures m(t[k..]).None?
      {
        if k == 0 {
          assert t[0..] == t;
        } else {
          assert u[k - 1..] == t[k..];
        }
      }
    }
  }

  /** Conversely, an unanchored search finds the value at position j when the
      matcher matches there and at no earlier position. */
  lemma {:induction false} FirstAnywhereAt<T>(t: string, m: string -> Option<Found<T>>, j: nat)
    requires j <= |t| && m(t[j..]).Some?
    requires forall k :: 0 <= k < j ==> m(t[k..]).None?
    ensures FirstAnywhere(t, m) == Some(m(t[j..]).value.value)
    decreases j
  {
    if j == 0 {
      assert t[0..] == t;
    } else {
      var u := t[1..];
      assert t[0..] == t;
      assert m(t).None?;
      assert u[j - 1..] == t[j..];
      forall k | 0 <= k < j - 1
        ensures m(u[k..]).None?
      {
        assert u[k..] == t[k + 1..];
      }
      FirstAnywhereAt(u, m, j - 1);
    }
  }

  /** An unanchored search finds nothing exactly when the matcher matches at
      no position. */
  lemma {:induction false} FirstAnywhereNoMatch<T>(t: string, m: string -> Option<Found<T>>)
    ensures FirstAnywhere(t, m) == None <==> forall k :: 0 <= k <= |t| ==> m(t[k..]).None?
    decreases |t|
  {
    assert t[0..] == t;
    if t != [] {
      var u := t[1..];
      forall k | 0 <= k <= |u|
        ensures u[k..] == t[k + 1..]
      {
      }
      FirstAnywhereNoMatch(u, m);
      if FirstAnywhere(t, m) == None {
        forall k | 0 <= k <= |t|
          ensures m(t[k..]).None?
        {
          if k > 0 {
            assert m(u[k - 1..]).None?;
          }
        }
      }
    }
  }

  /** The values `f` gives the lines that have one, in order. */
  function Collect<T>(lines: seq<string>, f: string -> Option<T>): seq<T>
  {
    if lines == [] then []
    else (if f(lines[0]).Some? then [f(lines[0]).value] else []) + Collect(lines[1..], f)
  }

  /** A slice that reaches one element further ends with that element. */
  lemma SliceSnoc<T>(s: seq<T>, a: nat, b: nat)
    requires a <= b < |s|
    ensures s[a..b + 1] == s[a..b] + [s[b]]
  {
  }

  /** Collecting over two runs of lines is collecting over each, in turn. */
  lemma {:induction false} CollectAppend<T>(a: seq<string>, b: seq<string>, f: string -> Option<T>)
    ensures Collect(a + b, f) == Collect(a, f) + Collect(b, f)
    decreases |a|
  {
    if a == [] {
      assert a + b == b;
    } else {
      var head := if f(a[0]).Some? then [f(a[0]).value] else [];
      assert (a + b)[0] == a[0];
      assert (a + b)[1..] == a[1..] + b;
      assert Collect(a + b, f) == head + Collect(a[1..] + b, f);
      CollectAppend(a[1..], b, f);
      assert Collect(a, f) == head + Collect(a[1..], f);
    }
  }

  /** Collecting over lines and one more line adds what that line gives. */
  lemma CollectSnoc<T>(a: seq<string>, x: string, f: string -> Option<T>)
    ensures Collect(a + [x], f) == Collect(a, f) + (if f(x).Some? then [f(x).value] else [])
  {
    CollectAppend(a, [x], f);
    assert [x][1..] == [];
  }

  /** Collecting over lines ends with what the last line contributes. */
  lemma CollectLast<T>(a: seq<string>, f: string -> Option<T>)
    requires a != []
    ensures Collect(a, f) == Collect(a[..|a| - 1], f) + (if f(a[|a| - 1]).Some? then [f(a[|a| - 1]).value] else [])
  {
    var n := |a| - 1;
    assert a == a[..n] + [a[n]];
    CollectSnoc(a[..n], a[n], f);
  }

  /** `t` begins with the line `l`, which a newline or the end of `t` closes. */
  predicate BeginsWithLine(t: string, l: string) {
    |l| <= |t| && t[..|l|] == l && (|t| == |l| || t[|l|] == '\n')
  }

  /** What `m` does at the start of the line `l`, whatever follows the line, is
      what `f` says of `l`: the match takes exactly the line, or there is none. */
  ghost predicate MatchesLine<T>(m: string -> Option<Found<T>>, f: string -> Option<T>, l: string) {
    forall t: string :: BeginsWithLine(t, l) ==>
      m(t) == (if f(l).Some? then Some(Found(f(l).value, |l|)) else None)
  }

  /** Inside a line no `^` holds, so an anchored scan passes over the rest of it. */
  lemma {:induction false} ScanSkipsLine<T>(x: string, y: string, m: string -> Option<Found<T>>)
    requires Consumes(m)
    requires NoLineTerminators(x)
    ensures Scan(x + y, false, m) == Scan(y, false, m)
    decreases |x|
  {
    if x == [] {
      assert x + y == y;
    } else {
      assert (x + y)[0] == x[0];
      assert (x + y)[1..] == x[1..] + y;
      ScanSkipsLine(x[1..], y, m);
    }
  }

  /** One line of an anchored scan: what the line yields, then the scan goes on
      after it. */
  lemma ScanLine<T>(l: string, rest: string, m: string -> Option<Found<T>>, f: string -> Option<T>)
    requires Consumes(m)
    requires NoLineTerminators(l) && MatchesLine(m, f, l)
    requires rest == [] || rest[0] == '\n'
    ensures Scan(l + rest, true, m) == (if f(l).Some? then [f(l).value] else []) + Scan(rest, false, m)
  {
    var t := l + rest;
    assert t[..|l|] == l;
    assert BeginsWithLine(t, l);
    if t == [] {
      assert m(t).None?;
    } else if f(l).Some? {
      assert m(t) == Some(Found(f(l).value, |l|));
      assert t[|l|..] == rest;
      assert t[|l| - 1] == l[|l| - 1];
    } else if l == [] {
      assert t == rest;
    } else {
      assert t[0] == l[0];
      assert t[1..] == l[1..] + rest;
      ScanSkipsLine(l[1..], rest, m);
    }
  }

  /** An anchored scan of whole lines, each of which either matches in full or
      not at all, yields what the lines yield, in order. */
  lemma {:induction false} ScanJoinedLines<T>(lines: seq<string>, m: string -> Option<Found<T>>, f: string -> Option<T>)
    requires Consumes(m)
    requires forall k :: 0 <= k < |lines| ==> NoLineTerminators(lines[k]) && MatchesLine(m, f, lines[k])
    ensures Scan(JoinLines(lines), true, m) == Collect(lines, f)
    decreases |lines|
  {
    if lines != [] {
      var l := lines[0];
      var tail := JoinLines(lines[1..]);
      var rest := if |lines| == 1 then [] else "\n" + tail;
      assert JoinLines(lines) == l + rest;
      ScanLine(l, rest, m, f);
      if |lines| > 1 {
        assert rest[1..] == tail;
      }
      assert Scan(rest, false, m) == Scan(tail, true, m);
      ScanJoinedLines(lines[1..], m, f);
    }
  }

  /** An unanchored scan passes over text in which no match can begin. */
  lemma {:induction false} ScanAllSkips<T>(x: string, y: string, m: string -> Option<Found<T>>, starters: set<char>)
    requires Consumes(m) && BeginsWithOneOf(m, starters)
    requires forall k :: 0 <= k < |x| ==> x[k] !in starters
    ensures ScanAll(x + y, m) == ScanAll(y, m)
    decreases |x|
  {
    if x == [] {
      assert x + y == y;
    } else {
      assert (x + y)[0] == x[0];
      assert m(x + y).None?;
      assert (x + y)[1..] == x[1..] + y;
      ScanAllSkips(x[1..], y, m, starters);
    }
  }

  /** An unanchored scan of whole lines, each of which either matches in full
      at its start or holds none of the characters a match begins with, yields
      what the lines yield, in order. */
  lemma {:induction false} ScanAllJoinedLines<T>(lines: seq<string>, m: string -> Option<Found<T>>, f: string -> Option<T>, starters: set<char>)
    requires Consumes(m) && BeginsWithOneOf(m, starters) && '\n' !in starters
    requires forall k :: 0 <= k < |lines| ==> MatchesLine(m, f, lines[k])
    requires forall k :: 0 <= k < |lines| && f(lines[k]).None? ==> forall j :: 0 <= j < |lines[k]| ==> lines[k][j] !in starters
    ensures ScanAll(JoinLines(lines), m) == Collect(lines, f)
    decreases |lines|
  {
    if lines != [] {
      var l := lines[0];
      var tail := JoinLines(lines[1..]);
      var rest := if |lines| == 1 then [] else "\n" + tail;
      var t := l + rest;
      assert JoinLines(lines) == t;
      assert t[..|l|] == l;
      assert BeginsWithLine(t, l);
      if f(l).Some? {
        assert m(t) == Some(Found(f(l).value, |l|));
        assert t[|l|..] == rest;
      } else {
        ScanAllSkips(l, rest, m, starters);
      }
      assert ScanAll(t, m) == (if f(l).Some? then [f(l).value] else []) + ScanAll(rest, m);
      if |lines| > 1 {
        assert rest[0] == '\n';
        assert m(rest).None?;
        assert rest[1..] == tail;
      }
      assert ScanAll(rest, m) == ScanAll(tail, m);
      ScanAllJoinedLines(lines[1..], m, f, starters);
    }
  }

  /** Every value an anchored scan yields is one the matcher gives somewhere. */
  lemma {:induction false} ScanKeeps<T>(t: string, atLineStart: bool, m: string -> Option<Found<T>>, P: T -> bool)
    requires Consumes(m)
    requires forall u: string :: m(u).Some? ==> P(m(u).value.value)
    ensures forall k :: 0 <= k < |Scan(t, atLineStart, m)| ==> P(Scan(t, atLineStart, m)[k])
    decreases |t|
  {
    if t != [] {
      if atLineStart && m(t).Some? {
        var e := m(t).value.end;
        ScanKeeps(t[e..], IsLineTerminator(t[e - 1]), m, P);
      } else {
        ScanKeeps(t[1..], IsLineTerminator(t[0]), m, P);
      }
    }
  }

  /** Every value an unanchored scan yields is one the matcher gives somewhere. */
  lemma {:induction false} ScanAllKeeps<T>(t: string, m: string -> Option<Found<T>>, P: T -> bool)
    requires Consumes(m)
    requires forall u: string :: m(u).Some? ==> P(m(u).value.value)
    ensures forall k :: 0 <= k < |ScanAll(t, m)| ==> P(ScanAll(t, m)[k])
    decreases |t|
  {
    if t != [] {
      if m(t).Some? {
        ScanAllKeeps(t[m(t).value.end..], m, P);
      } else {
        ScanAllKeeps(t[1..], m, P);
      }
    }
  }

  /** An unanchored search finds nothing in a text that holds none of the
      characters its matches begin with. */
  lemma {:induction false} FirstAnywhereNone<T>(t: string, m: string -> Option<Found<T>>, starters: set<char>)
    requires BeginsWithOneOf(m, starters)
    requires forall k :: 0 <= k < |t| ==> t[k] !in starters
    ensures FirstAnywhere(t, m) == None
    decreases |t|
  {
    if t != [] {
      assert m(t).None?;
      FirstAnywhereNone(t[1..], m, starters);
    }
  }

  /** An unanchored scan yields nothing from a text that holds none of the
      characters its matches begin with. */
  lemma {:induction false} ScanAllNone<T>(t: string, m: string -> Option<Found<T>>, starters: set<char>)
    requires Consumes(m) && BeginsWithOneOf(m, starters)
    requires forall k :: 0 <= k < |t| ==> t[k] !in starters
    ensures ScanAll(t, m) == []
    decreases |t|
  {
    if t != [] {
      assert m(t).None?;
      ScanAllNone(t[1..], m, starters);
    }
  }

  /** An anchored search passes over text in which no line begins with a
      character its matches begin with. */
  lemma {:induction false} FirstSkips<T>(x: string, y: string, atLineStart: bool, m: string -> Option<Found<T>>, starters: set<char>)
    requires BeginsWithOneOf(m, starters)
    requires atLineStart && 0 < |x| ==> x[0] !in starters
    requires forall k :: 0 < k < |x| && IsLineTerminator(x[k - 1]) ==> x[k] !in starters
    ensures First(x + y, atLineStart, m) == First(y, if x == [] then atLineStart else IsLineTerminator(x[|x| - 1]), m)
    decreases |x|
  {
    if x == [] {
      assert x + y == y;
    } else {
      var u := x[1..];
      forall k | 0 < k < |u| && IsLineTerminator(u[k - 1])
        ensures u[k] !in starters
      {
        assert u[k] == x[k + 1] && u[k - 1] == x[k];
      }
      assert (x + y)[0] == x[0];
      assert (x + y)[1..] == u + y;
      FirstSkips(u, y, IsLineTerminator(x[0]), m, starters);
      if u != [] {
        assert u[|u| - 1] == x[|x| - 1];
      }
    }
  }

  /** An anchored search finds nothing when no line of the text begins with a
      character its matches begin with. */
  lemma {:induction false} FirstNone<T>(t: string, atLineStart: bool, m: string -> Option<Found<T>>, starters: set<char>)
    requires BeginsWithOneOf(m, starters)
    requires atLineStart && 0 < |t| ==> t[0] !in starters
    requires forall k :: 0 < k < |t| && IsLineTerminator(t[k - 1]) ==> t[k] !in starters
    ensures First(t, atLineStart, m) == None
    decreases |t|
  {
    if t != [] {
      var u := t[1..];
      forall k | 0 < k < |u| && IsLineTerminator(u[k - 1])
        ensures u[k] !in starters
      {
        assert u[k] == t[k + 1] && u[k - 1] == t[k];
      }
      FirstNone(u, IsLineTerminator(t[0]), m, starters);
    }
  }
}
