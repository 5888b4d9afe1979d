/** What writing headers guarantees to the checker that follows. */
module LicenseHeadersProofs {
  import opened LicenseHeaders

  // ---------- Splitting and joining ----------

  /** A line as `splitlines` yields it, newline included. */
  predicate Terminated(line: string) {
    |line| > 0 && line[|line| - 1] == '\n' && forall j :: 0 <= j < |line| - 1 ==> line[j] != '\n'
  }

  lemma {:induction false} SplitFirst(line: string, rest: string)
    requires Terminated(line)
    ensures SplitLines(line + rest) == [line] + SplitLines(rest)
  {
    var s := line + rest;
    var n := |line| - 1;
    var i := IndexOfNewline(s);
    assert s[n] == '\n' && forall j :: 0 <= j < n ==> s[j] == line[j];
    assert i == n;
    assert s[..i + 1] == line && s[i + 1..] == rest;
  }

  lemma Associates<T>(a: seq<T>, b: seq<T>, c: seq<T>)
    ensures (a + b) + c == a + (b + c)
  {
  }

  lemma HeadAndTail<T>(s: seq<T>)
    requires s != []
    ensures [s[0]] + s[1..] == s
  {
  }

  lemma {:induction false} FlattenHead(first: string, others: seq<string>, rest: string)
    ensures Flatten([first] + others) + rest == first + (Flatten(others) + rest)
  {
    assert ([first] + others)[1..] == others;
  }

  lemma {:induction false} SplitPrefix(lines: seq<string>, rest: string)
    requires forall i :: 0 <= i < |lines| ==> Terminated(lines[i])
    ensures SplitLines(Flatten(lines) + rest) == lines + SplitLines(rest)
  {
    if lines == [] {
      assert Flatten(lines) + rest == rest;
    } else {
      var first, others := lines[0], lines[1..];
      HeadAndTail(lines);
      SplitPrefix(others, rest);
      FlattenHead(first, others, rest);
      SplitFirst(first, Flatten(others) + rest);
      Associates([first], others, SplitLines(rest));
    }
  }

  /** Joining the lines of a text gives it back. */
  lemma {:induction false} LinesJoin(s: string)
    ensures Flatten(SplitLines(s)) == s
    decreases |s|
  {
    if IndexOfNewline(s) < |s| {
      var line, rest := FirstLineAndRest(s);
      LinesJoin(rest);
      FlattenCons(line, SplitLines(rest));
    } else if s != "" {
      assert [s][1..] == [] && s + "" == s;
    }
  }

  /** All lines but perhaps the last end in a newline. */
  lemma {:induction false} LinesTerminated(s: string, k: nat)
    requires k + 1 < |SplitLines(s)|
    ensures Terminated(SplitLines(s)[k])
    decreases |s|
  {
    var i := IndexOfNewline(s);
    assert SplitLines(s) == [s[..i + 1]] + SplitLines(s[i + 1..]);
    if k == 0 {
      assert Terminated(s[..i + 1]);
    } else {
      LinesTerminated(s[i + 1..], k - 1);
    }
  }

  lemma {:induction false} FlattenCons(line: string, lines: seq<string>)
    ensures Flatten([line] + lines) == line + Flatten(lines)
  {
    assert ([line] + lines)[1..] == lines;
  }

  lemma {:induction false} FlattenAppend(a: seq<string>, b: seq<string>)
    ensures Flatten(a + b) == Flatten(a) + Flatten(b)
  {
    if a == [] {
      assert a + b == b;
    } else {
      FlattenAppend(a[1..], b);
      FlattenCons(a[0], a[1..] + b);
      assert a + b == [a[0]] + (a[1..] + b);
    }
  }

  lemma {:induction false} TailOfLines(lines: seq<string>, k: nat)
    requires k <= |lines| && SplitLines(Flatten(lines)) == lines
    requires forall i :: 0 <= i < k ==> Terminated(lines[i])
    ensures SplitLines(Flatten(lines[k..])) == lines[k..]
  {
    var before, after := lines[..k], lines[k..];
    HeadAndRest(lines, k);
    FlattenAppend(before, after);
    SplitPrefix(before, Flatten(after));
    SamePrefix(before, SplitLines(Flatten(after)), after);
  }

  lemma HeadAndRest<T>(s: seq<T>, k: nat)
    requires k <= |s|
    ensures s[..k] + s[k..] == s
  {
  }

  lemma SamePrefix<T>(p: seq<T>, a: seq<T>, b: seq<T>)
    ensures p + a == p + b <==> a == b
  {
    assert (p + a)[|p|..] == a && (p + b)[|p|..] == b;
  }

  /** Splitting the tail of a text's lines gives those lines. */
  lemma {:induction false} TailSplits(s: string, k: nat)
    requires k <= |SplitLines(s)|
    ensures SplitLines(Flatten(SplitLines(s)[k..])) == SplitLines(s)[k..]
  {
    var lines := SplitLines(s);
    if k == |lines| {
      assert lines[k..] == [];
    } else {
      forall i | 0 <= i < k
        ensures Terminated(lines[i])
      {
        LinesTerminated(s, i);
      }
      LinesJoin(s);
      TailOfLines(lines, k);
    }
  }

  // ---------- Styles ----------

  /** Header lines are single lines, distinct, marked, and neither a shebang nor a cookie. */
  predicate ProperStyle(h: Style) {
    && '\n' !in h.spdx && '\n' !in h.copyright && h.spdx != h.copyright
    && Contains(h.spdx, h.marker)
    && !IsShebang(SpdxLine(h)) && !IsCookie(SpdxLine(h)) && !IsCookie(CopyrightLine(h))
  }

  lemma HeaderLinesTerminated(h: Style)
    requires ProperStyle(h)
    ensures Terminated(SpdxLine(h)) && Terminated(CopyrightLine(h)) && Terminated("\n")
  {
  }

  lemma ContainsInLonger(pre: string, s: string, post: string, part: string)
    requires Contains(s, part)
    ensures Contains(pre + s + post, part)
  {
    var i :| 0 <= i <= |s| && PartAt(s, part, i);
    var t := pre + s + post;
    assert t[|pre| + i..|pre| + i + |part|] == s[i..i + |part|];
    assert PartAt(t, part, |pre| + i);
  }

  const MARKER: string := "SPDX-License-Identifier:"
  const SPDX_TEXT: string := MARKER + " AGPL-3.0-or-later"
  const COPYRIGHT_TEXT: string := "Copyright (C) 2026 Grant Wickman"
  const PY_STYLE := Style(MARKER, "# " + SPDX_TEXT, "# " + COPYRIGHT_TEXT)
  const RS_STYLE := Style(MARKER, "// " + SPDX_TEXT, "// " + COPYRIGHT_TEXT)

  lemma TextsAreOneLine()
    ensures '\n' !in SPDX_TEXT && '\n' !in COPYRIGHT_TEXT
  {
    assert '\n' !in MARKER;
    assert '\n' !in " AGPL-3.0-or-later";
  }

  lemma MarkedText(pre: string)
    ensures Contains(pre + SPDX_TEXT, MARKER)
  {
    var t := pre + SPDX_TEXT;
    assert t[|pre|..|pre| + |MARKER|] == MARKER;
    assert PartAt(t, MARKER, |pre|);
  }

  lemma NotShebang(line: string)
    requires |line| > 1 && (line[0] != '#' || line[1] != '!')
    ensures !IsShebang(line)
  {
  }

  lemma NotCookie(line: string)
    requires |line| > 2 && (line[0] != '#' || line[2] != '-')
    ensures !IsCookie(line)
  {
  }

  lemma StyleIsProper(pre: string)
    requires pre == "# " || pre == "// "
    ensures ProperStyle(Style(MARKER, pre + SPDX_TEXT, pre + COPYRIGHT_TEXT))
  {
    var h := Style(MARKER, pre + SPDX_TEXT, pre + COPYRIGHT_TEXT);
    TextsAreOneLine();
    MarkedText(pre);
    FirstLetters();
    assert h.spdx[|pre|] == 'S' && h.copyright[|pre|] == 'C';
    assert SpdxLine(h)[..|pre|] == pre && CopyrightLine(h)[..|pre|] == pre;
    assert SpdxLine(h)[|pre|] == 'S' && CopyrightLine(h)[|pre|] == 'C';
    NotShebang(SpdxLine(h));
    NotCookie(SpdxLine(h));
    NotCookie(CopyrightLine(h));
  }

  lemma FirstLetters()
    ensures |SPDX_TEXT| > 0 && SPDX_TEXT[0] == 'S' && |COPYRIGHT_TEXT| > 0 && COPYRIGHT_TEXT[0] == 'C'
  {
  }

  /** The shipped headers are of this kind. */
  lemma ShippedStylesAreProper()
    ensures ProperStyle(PY_STYLE) && ProperStyle(RS_STYLE)
    ensures PY_STYLE.marker == RS_STYLE.marker != "" && '\n' !in PY_STYLE.marker
  {
    StyleIsProper("# ");
    StyleIsProper("// ");
  }

  // ---------- Python ----------

  /** The lines kept above the header all end in a newline. */
  predicate PrefixTerminated(content: string) {
    var lines := SplitLines(content);
    forall k :: 0 <= k < HeaderIndex(lines) ==> Terminated(lines[k])
  }

  /** With a terminated prefix, the new text's lines are the old ones with the three header lines put in. */
  lemma PyInsertedLines(h: Style, content: string)
    requires ProperStyle(h) && PrefixTerminated(content)
    ensures var lines := SplitLines(content);
            var idx := HeaderIndex(lines);
            SplitLines(InsertPyHeader(h, content)) == lines[..idx] + HeaderLines(h) + lines[idx..]
  {
    var lines := SplitLines(content);
    var idx := HeaderIndex(lines);
    var prefix := lines[..idx] + HeaderLines(h);
    HeaderLinesTerminated(h);
    assert forall k :: 0 <= k < |prefix| ==> Terminated(prefix[k]);
    FlattenAppend(prefix, lines[idx..]);
    SplitPrefix(prefix, Flatten(lines[idx..]));
    TailSplits(content, idx);
  }

  /** Removing those three lines again restores the text. */
  lemma PyInsertionUndone(h: Style, content: string)
    requires ProperStyle(h) && PrefixTerminated(content)
    ensures var idx := HeaderIndex(SplitLines(content));
            var after := SplitLines(InsertPyHeader(h, content));
            |after| >= idx + 3 && Flatten(after[..idx] + after[idx + 3..]) == content
  {
    var lines := SplitLines(content);
    var idx := HeaderIndex(lines);
    PyInsertedLines(h, content);
    var after := lines[..idx] + HeaderLines(h) + lines[idx..];
    assert after[..idx] + after[idx + 3..] == lines;
    LinesJoin(content);
  }

  lemma PyTerminatedIsValid(h: Style, content: string)
    requires ProperStyle(h) && PrefixTerminated(content)
    ensures var after := SplitLines(InsertPyHeader(h, content));
            HeaderPresent(h, after) && HeaderValid(Python, h, after)
  {
    var lines := SplitLines(content);
    var idx := HeaderIndex(lines);
    PyInsertedLines(h, content);
    var after := lines[..idx] + HeaderLines(h) + lines[idx..];
    InsertionIndex(h, lines, after);
    SpdxLineMarked(h);
  }

  /** The header inserted after shebang and cookie is looked for where it is. */
  lemma InsertionIndex(h: Style, lines: seq<string>, after: seq<string>)
    requires ProperStyle(h) && after == lines[..HeaderIndex(lines)] + HeaderLines(h) + lines[HeaderIndex(lines)..]
    ensures var idx := HeaderIndex(lines);
            && idx + 1 < |after| && HeaderIndex(after) == idx
            && after[idx] == SpdxLine(h) && after[idx + 1] == CopyrightLine(h)
  {
    var idx := HeaderIndex(lines);
    assert forall k :: 0 <= k < idx ==> after[k] == lines[k];
    assert after[idx] == SpdxLine(h);
  }

  /** Without a terminated prefix, the prefix is the whole text and its last line has no newline. */
  lemma UnterminatedShape(content: string)
    requires !PrefixTerminated(content)
    ensures var lines := SplitLines(content);
            var n := |lines| - 1;
            && n >= 0 && HeaderIndex(lines) == n + 1 && '\n' !in lines[n]
            && forall k :: 0 <= k < n ==> Terminated(lines[k])
  {
    var lines := SplitLines(content);
    var n := |lines| - 1;
    forall k | 0 <= k < n
      ensures Terminated(lines[k])
    {
      LinesTerminated(content, k);
    }
    LastUnterminated(content);
  }

  /** An unterminated shebang or cookie swallows the SPDX line: the lines the new text then has. */
  lemma PyUnterminatedLines(h: Style, content: string)
    requires ProperStyle(h) && !PrefixTerminated(content)
    ensures var lines := SplitLines(content);
            var n := |lines| - 1;
            && n >= 0 && HeaderIndex(lines) == n + 1 && '\n' !in lines[n]
            && SplitLines(InsertPyHeader(h, content)) == lines[..n] + [lines[n] + SpdxLine(h), CopyrightLine(h), "\n"]
  {
    var lines := SplitLines(content);
    var n := |lines| - 1;
    UnterminatedShape(content);
    HeaderLinesTerminated(h);
    var joined := lines[n] + SpdxLine(h);
    JoinedTerminated(lines[n], h);
    SwallowedText(lines[..n], lines[n], h);
    assert lines[..n + 1] + HeaderLines(h) + lines[n + 1..] == lines[..n] + ([lines[n]] + HeaderLines(h));
    var head := lines[..n] + [joined, CopyrightLine(h), "\n"];
    SplitPrefix(head, "");
    assert Flatten(head) + "" == InsertPyHeader(h, content);
  }

  lemma JoinedTerminated(line: string, h: Style)
    requires ProperStyle(h) && '\n' !in line
    ensures Terminated(line + SpdxLine(h))
  {
  }

  lemma SwallowedText(before: seq<string>, line: string, h: Style)
    ensures Flatten(before + ([line] + HeaderLines(h)))
         == Flatten(before + [line + SpdxLine(h), CopyrightLine(h), "\n"])
  {
    FlattenAppend(before, [line] + HeaderLines(h));
    FlattenAppend(before, [line + SpdxLine(h), CopyrightLine(h), "\n"]);
    FlattenFour(line, SpdxLine(h), CopyrightLine(h), "\n");
  }

  lemma FlattenFour(a: string, b: string, c: string, d: string)
    ensures Flatten([a] + [b, c, d]) == Flatten([a + b, c, d])
  {
    assert ([a] + [b, c, d])[1..] == [b, c, d] && [b, c, d][1..] == [c, d];
    assert [a + b, c, d][1..] == [c, d];
  }

  /** A last line with no newline at its end has none at all. */
  lemma {:induction false} LastUnterminated(s: string)
    requires s != ""
    ensures var lines := SplitLines(s);
            lines != [] && (!Terminated(lines[|lines| - 1]) ==> '\n' !in lines[|lines| - 1])
    decreases |s|
  {
    var i := IndexOfNewline(s);
    if i < |s| {
      assert Terminated(s[..i + 1]);
      if s[i + 1..] != "" {
        LastUnterminated(s[i + 1..]);
      }
    }
  }

  /** The line after the two header lines. */
  function LineAfterHeader(content: string): nat {
    HeaderIndex(SplitLines(content)) + if PrefixTerminated(content) then 2 else 1
  }

  /**
   The blank line put after a Python header is followed by another exactly when the text went on with a
   blank line there: the branch meant to avoid it does not.
   */
  lemma DoubleBlankExactlyWhen(h: Style, content: string)
    requires ProperStyle(h)
    ensures var lines := SplitLines(content);
            var idx := HeaderIndex(lines);
            var after := SplitLines(InsertPyHeader(h, content));
            var n := LineAfterHeader(content);
            && n < |after| && after[n - 1] == CopyrightLine(h) && after[n] == "\n"
            && ((n + 1 < |after| && after[n + 1] == "\n") <==> (idx < |lines| && lines[idx] == "\n"))
  {
    if PrefixTerminated(content) {
      PyInsertedLines(h, content);
    } else {
      UnterminatedShape(content);
      PyUnterminatedLines(h, content);
    }
  }

  /** So a text that starts with a blank line gets two. */
  lemma LeadingBlankIsDoubled(h: Style, rest: string)
    requires ProperStyle(h)
    ensures var after := SplitLines(InsertPyHeader(h, "\n" + rest));
            |after| > 3 && after[1] == CopyrightLine(h) && after[2] == "\n" && after[3] == "\n"
  {
    SplitFirst("\n", rest);
    assert HeaderIndex(SplitLines("\n" + rest)) == 0;
    DoubleBlankExactlyWhen(h, "\n" + rest);
  }

  lemma PyUnterminatedIsInvalid(h: Style, content: string)
    requires ProperStyle(h) && !PrefixTerminated(content)
    ensures var after := SplitLines(InsertPyHeader(h, content));
            HeaderPresent(h, after) && !HeaderValid(Python, h, after)
  {
    var lines := SplitLines(content);
    var n := |lines| - 1;
    PyUnterminatedLines(h, content);
    var joined := lines[n] + SpdxLine(h);
    var after := lines[..n] + [joined, CopyrightLine(h), "\n"];
    assert after[n] == joined && after[n + 1] == CopyrightLine(h);
    ContainsInLonger(lines[n], h.spdx, "\n", h.marker);
    assert lines[n] + h.spdx + "\n" == joined;
    assert Contains(after[n], h.marker);
    assert forall k :: 0 <= k < n ==> after[k] == lines[k];
    assert IsShebang(lines[n]) ==> IsShebang(joined);
    assert IsCookie(lines[n]) ==> IsCookie(joined);
    SameLineLength(h);
    assert HeaderIndex(after) == n + 1;
  }

  lemma SameLineLength(h: Style)
    requires ProperStyle(h)
    ensures SpdxLine(h) != CopyrightLine(h)
  {
    assert h.spdx == SpdxLine(h)[..|SpdxLine(h)| - 1];
    assert h.copyright == CopyrightLine(h)[..|CopyrightLine(h)| - 1];
  }

  /** A written Python header passes the check exactly when the lines kept above it end in newlines. */
  lemma PyWrittenValidExactlyWhen(h: Style, content: string)
    requires ProperStyle(h)
    ensures HeaderPresent(h, SplitLines(InsertPyHeader(h, content)))
    ensures HeaderValid(Python, h, SplitLines(InsertPyHeader(h, content))) <==> PrefixTerminated(content)
  {
    if PrefixTerminated(content) {
      PyTerminatedIsValid(h, content);
    } else {
      PyUnterminatedIsInvalid(h, content);
    }
  }

  // ---------- Rust ----------

  lemma RsInsertedLines(h: Style, content: string)
    requires ProperStyle(h)
    ensures var rest := if "\n" <= content then content else "\n" + content;
            SplitLines(InsertRsHeader(h, content)) == [SpdxLine(h)] + ([CopyrightLine(h)] + SplitLines(rest))
  {
    var rest := if "\n" <= content then content else "\n" + content;
    HeaderLinesTerminated(h);
    SplitFirst(SpdxLine(h), CopyrightLine(h) + rest);
    SplitFirst(CopyrightLine(h), rest);
  }

  /** A written Rust header always passes. */
  lemma RsWrittenValid(h: Style, content: string)
    requires ProperStyle(h)
    ensures var after := SplitLines(InsertRsHeader(h, content));
            HeaderPresent(h, after) && HeaderValid(Rust, h, after)
  {
    RsInsertedLines(h, content);
    var after := SplitLines(InsertRsHeader(h, content));
    SpdxLineMarked(h);
    assert after[0] == SpdxLine(h) && after[1] == CopyrightLine(h);
  }

  lemma SpdxLineMarked(h: Style)
    requires ProperStyle(h)
    ensures Contains(SpdxLine(h), h.marker)
  {
    ContainsInLonger("", h.spdx, "\n", h.marker);
    assert "" + h.spdx + "\n" == SpdxLine(h);
  }

  /** Two Rust texts get the same result exactly when they are equal up to one leading newline that one lacks. */
  lemma RsInsertionCollides(h: Style, x: string, y: string)
    ensures InsertRsHeader(h, x) == InsertRsHeader(h, y)
       <==> x == y || (!("\n" <= y) && x == "\n" + y) || (!("\n" <= x) && y == "\n" + x)
  {
    var rx, ry := (if "\n" <= x then x else "\n" + x), (if "\n" <= y then y else "\n" + y);
    SamePrefix(SpdxLine(h), CopyrightLine(h) + rx, CopyrightLine(h) + ry);
    SamePrefix(CopyrightLine(h), rx, ry);
    if rx == ry {
      SamePrefix("\n", x, y);
    }
  }

  /** The text is kept below the Rust header, after exactly one blank line more if it did not start with one. */
  lemma RsTextKept(h: Style, content: string)
    requires ProperStyle(h)
    ensures var after := SplitLines(InsertRsHeader(h, content));
            && |after| > 2 && after[2] == "\n"
            && Flatten(after[if "\n" <= content then 2 else 3..]) == content
  {
    RsInsertedLines(h, content);
    LinesJoin(content);
    if "\n" <= content {
      BlankFirst(content[1..]);
      assert content == "\n" + content[1..];
      BelowTwo(SpdxLine(h), CopyrightLine(h), SplitLines(content));
    } else {
      BlankFirst(content);
      BelowTwo(SpdxLine(h), CopyrightLine(h), SplitLines("\n" + content));
    }
  }

  lemma {:induction false} BlankFirst(rest: string)
    ensures SplitLines("\n" + rest) == ["\n"] + SplitLines(rest)
  {
    SplitFirst("\n", rest);
  }

  lemma BelowTwo(a: string, b: string, lines: seq<string>)
    requires lines != []
    ensures var all := [a] + ([b] + lines);
            |all| > 2 && all[2] == lines[0] && all[2..] == lines && all[3..] == lines[1..]
  {
  }

  // ---------- The checks, on the text ----------

  function Newlines(s: string): nat {
    if s == "" then 0 else (if s[0] == '\n' then 1 else 0) + Newlines(s[1..])
  }

  lemma {:induction false} NoNewlines(s: string)
    ensures Newlines(s) == 0 <==> '\n' !in s
  {
    if s != "" {
      NoNewlines(s[1..]);
      assert s == [s[0]] + s[1..];
    }
  }

  /** Newlines add up over a first line and the rest. */
  lemma {:induction false} NewlinesAfterLine(line: string, rest: string)
    requires Terminated(line)
    ensures Newlines(line + rest) == 1 + Newlines(rest)
  {
    assert (line + rest)[1..] == line[1..] + rest;
    if |line| == 1 {
      assert line[1..] + rest == rest;
    } else {
      assert Terminated(line[1..]);
      NewlinesAfterLine(line[1..], rest);
    }
  }

  /** The text has the marker after `n` newlines, on line `n`. */
  predicate MarkedAfter(s: string, marker: string, i: nat) {
    PartAt(s, marker, i) && Newlines(s[..i]) < 5
  }

  lemma {:induction false} FirstLineIs(s: string)
    requires s != ""
    ensures var i := IndexOfNewline(s);
            if i < |s| then Terminated(s[..i + 1]) && SplitLines(s) == [s[..i + 1]] + SplitLines(s[i + 1..])
            else '\n' !in s && SplitLines(s) == [s]
  {
  }

  /** A line has no newline but perhaps its last character. */
  predicate LineLike(line: string) {
    forall j :: 0 <= j < |line| - 1 ==> line[j] != '\n'
  }

  lemma {:induction false} MarkerInLine(line: string, rest: string, marker: string) returns (i: nat)
    requires marker != "" && '\n' !in marker && LineLike(line) && Contains(line, marker)
    ensures PartAt(line + rest, marker, i) && Newlines((line + rest)[..i]) == 0
  {
    i :| 0 <= i <= |line| && PartAt(line, marker, i);
    assert (line + rest)[i..i + |marker|] == line[i..i + |marker|];
    assert (line + rest)[..i] == line[..i];
    NoNewlines(line[..i]);
  }

  /** What stands after the first line stands in the text, one newline later. */
  lemma {:induction false} BelowFirstLine(line: string, rest: string, marker: string, j: nat)
    requires Terminated(line)
    ensures PartAt(line + rest, marker, |line| + j) <==> PartAt(rest, marker, j)
    ensures j <= |rest| ==> Newlines((line + rest)[..|line| + j]) == 1 + Newlines(rest[..j])
  {
    var s, i := line + rest, |line| + j;
    if j <= |rest| - |marker| {
      assert s[i..i + |marker|] == rest[j..j + |marker|];
    }
    if j <= |rest| {
      assert s[..i] == line + rest[..j];
      NewlinesAfterLine(line, rest[..j]);
    }
  }

  /** The first line of a text, newline included, and the rest. */
  lemma {:induction false} FirstLineAndRest(s: string) returns (line: string, rest: string)
    requires IndexOfNewline(s) < |s|
    ensures s == line + rest && Terminated(line) && |line| == IndexOfNewline(s) + 1
    ensures SplitLines(s) == [line] + SplitLines(rest)
  {
    line, rest := s[..IndexOfNewline(s) + 1], s[IndexOfNewline(s) + 1..];
  }

  /** A marker on line `k` stands after `k` newlines of the joined lines. */
  lemma {:induction false} MarkerOfLine(lines: seq<string>, marker: string, k: nat) returns (i: nat)
    requires marker != "" && '\n' !in marker && k < |lines| && LineLike(lines[k]) && Contains(lines[k], marker)
    requires forall m :: 0 <= m < k ==> Terminated(lines[m])
    ensures PartAt(Flatten(lines), marker, i) && Newlines(Flatten(lines)[..i]) == k
  {
    var rest := lines[1..];
    HeadAndTail(lines);
    FlattenCons(lines[0], rest);
    if k == 0 {
      i := MarkerInLine(lines[0], Flatten(rest), marker);
    } else {
      assert forall m :: 0 <= m < k - 1 ==> rest[m] == lines[m + 1];
      var j := MarkerOfLine(rest, marker, k - 1);
      BelowFirstLine(lines[0], Flatten(rest), marker, j);
      i := |lines[0]| + j;
    }
  }

  /** The lines of a text are lines. */
  lemma {:induction false} SplitIntoLines(s: string, k: nat)
    requires k < |SplitLines(s)|
    ensures LineLike(SplitLines(s)[k]) && forall m :: 0 <= m < k ==> Terminated(SplitLines(s)[m])
  {
    forall m | 0 <= m < |SplitLines(s)| - 1
      ensures Terminated(SplitLines(s)[m])
    {
      LinesTerminated(s, m);
    }
    LastUnterminated(s);
  }

  lemma {:induction false} MarkerInPrefix(line: string, rest: string, marker: string, i: nat)
    requires PartAt(line + rest, marker, i) && i + |marker| <= |line|
    ensures PartAt(line, marker, i) && Contains(line, marker)
  {
    assert line[i..i + |marker|] == (line + rest)[i..i + |marker|];
    assert PartAt(line, marker, i);
  }

  lemma {:induction false} FirstLineMarked(s: string, marker: string, i: nat)
    requires marker != "" && '\n' !in marker && PartAt(s, marker, i) && i <= IndexOfNewline(s)
    ensures Newlines(s[..i]) == 0 && SplitLines(s) != [] && Contains(SplitLines(s)[0], marker)
  {
    NoNewlines(s[..i]);
    assert i + |marker| <= IndexOfNewline(s);
    if IndexOfNewline(s) < |s| {
      var line, rest := FirstLineAndRest(s);
      MarkerInPrefix(line, rest, marker, i);
    } else {
      FirstLineIs(s);
      assert SplitLines(s)[0] == s && 0 <= i <= |s| && PartAt(s, marker, i);
    }
  }

  /** And a marker after `k` newlines of the text is on line `k`. */
  lemma {:induction false} LineOfMarker(s: string, marker: string, i: nat)
    requires marker != "" && '\n' !in marker && PartAt(s, marker, i)
    ensures Newlines(s[..i]) < |SplitLines(s)| && Contains(SplitLines(s)[Newlines(s[..i])], marker)
    decreases |s|
  {
    if i <= IndexOfNewline(s) {
      FirstLineMarked(s, marker, i);
    } else {
      var line, rest := FirstLineAndRest(s);
      var j := i - |line|;
      BelowFirstLine(line, rest, marker, j);
      LineOfMarker(rest, marker, j);
    }
  }

  /** A header counts as present exactly when the marker stands in the text with fewer than five newlines before it. */
  lemma PresentExactlyWhen(h: Style, content: string)
    requires h.marker != "" && '\n' !in h.marker
    ensures HeaderPresent(h, SplitLines(content)) <==> exists i :: MarkedAfter(content, h.marker, i)
  {
    var lines := SplitLines(content);
    if HeaderPresent(h, lines) {
      var k :| 0 <= k < |lines| && k < 5 && Contains(lines[k], h.marker);
      SplitIntoLines(content, k);
      LinesJoin(content);
      var i := MarkerOfLine(lines, h.marker, k);
      assert MarkedAfter(content, h.marker, i);
    }
    if i :| MarkedAfter(content, h.marker, i) {
      LineOfMarker(content, h.marker, i);
    }
  }

  /** A Rust header is valid exactly when the text starts with its two lines. */
  lemma RsValidExactlyWhen(h: Style, content: string)
    requires ProperStyle(h)
    ensures HeaderValid(Rust, h, SplitLines(content)) <==> SpdxLine(h) + CopyrightLine(h) <= content
  {
    var head := SpdxLine(h) + CopyrightLine(h);
    HeaderLinesTerminated(h);
    if head <= content {
      var rest := content[|head|..];
      Associates(SpdxLine(h), CopyrightLine(h), rest);
      assert content == SpdxLine(h) + (CopyrightLine(h) + rest);
      SplitFirst(SpdxLine(h), CopyrightLine(h) + rest);
      SplitFirst(CopyrightLine(h), rest);
    }
    if HeaderValid(Rust, h, SplitLines(content)) {
      var lines := SplitLines(content);
      LinesJoin(content);
      var rest := Flatten(lines[1..][1..]);
      assert Flatten(lines) == lines[0] + Flatten(lines[1..]) && Flatten(lines[1..]) == lines[1] + rest;
      Associates(SpdxLine(h), CopyrightLine(h), rest);
    }
  }

  /** Lines a Python header goes below: a `#!` line first, then a `# -*- coding` line. */
  predicate StartsWith(lines: seq<string>, k: nat, prefix: string) {
    k < |lines| && prefix <= lines[k]
  }

  /**
   A Python header is written below the `#!` line that starts the text, if one does, and below a
   `# -*- coding` line that follows or starts it; those stay where they are, and so does the rest.
   */
  lemma PyKeepsPreamble(h: Style, content: string, n: nat)
    requires ProperStyle(h) && PrefixTerminated(content)
    requires var lines := SplitLines(content);
             var first := if StartsWith(lines, 0, "#!") then 1 else 0;
             n == first + if StartsWith(lines, first, "# -*- coding") then 1 else 0
    ensures var lines, after := SplitLines(content), SplitLines(InsertPyHeader(h, content));
            && n <= |lines| && |after| == |lines| + 3
            && after[..n] == lines[..n] && after[n + 3..] == lines[n..]
            && after[n] == SpdxLine(h) && after[n + 1] == CopyrightLine(h) && after[n + 2] == "\n"
  {
    PyInsertedLines(h, content);
    assert n == HeaderIndex(SplitLines(content));
  }

  /** The `#!` of the first line is that of the text. */
  lemma ShebangStartsText(content: string)
    ensures StartsWith(SplitLines(content), 0, "#!") <==> "#!" <= content
  {
    if content != "" {
      FirstLineIs(content);
      var i := IndexOfNewline(content);
      assert "#!" <= content ==> i >= 2;
    }
  }

  // ---------- Write, then check ----------

  ghost predicate ProperStyles(hs: Styles) {
    forall lang :: ProperStyle(hs(lang))
  }

  /** After writing, a file is present for good, and correct exactly in these cases. */
  lemma WrittenFile(hs: Styles, f: File)
    requires ProperStyles(hs)
    ensures Present(hs, Written(hs, f)) && Written(hs, Written(hs, f)) == Written(hs, f)
    ensures Correct(hs, Written(hs, f))
       <==> if Present(hs, f) then Correct(hs, f) else f.lang.Rust? || PrefixTerminated(f.content)
  {
    if !Present(hs, f) {
      if f.lang.Python? {
        PyWrittenValidExactlyWhen(hs(f.lang), f.content);
      } else {
        RsWrittenValid(hs(f.lang), f.content);
      }
    }
  }

  /** Files before the first refusal are written; the others stay as they were. */
  lemma WrittenAt(hs: Styles, fs: seq<File>)
    ensures |WrittenAll(hs, fs)| == |fs|
    ensures forall i :: 0 <= i < |fs| ==>
              WrittenAll(hs, fs)[i] == if i < FirstRefusal(hs, fs) then Written(hs, fs[i]) else fs[i]
    ensures AllWritable(hs, fs) <==> FirstRefusal(hs, fs) == |fs|
  {
  }

  /**
   Which files a write changes: those without a header, up to the first one that lies outside the root. It
   is refused exactly when there is such a file, and then changes none from there on.
   */
  lemma WriteChangesExactly(hs: Styles, fs: seq<File>, i: nat)
    requires ProperStyles(hs) && i < |fs|
    ensures var after := WrittenAll(hs, fs);
            && |after| == |fs| && after[i] == fs[i].(content := after[i].content)
            && (after[i] != fs[i] <==>
                  && !HeaderPresent(hs(fs[i].lang), SplitLines(fs[i].content))
                  && forall j :: 0 <= j <= i ==>
                       fs[j].inside || HeaderPresent(hs(fs[j].lang), SplitLines(fs[j].content)))
    ensures AllWritable(hs, fs)
       <==> forall j :: 0 <= j < |fs| ==> fs[j].inside || HeaderPresent(hs(fs[j].lang), SplitLines(fs[j].content))
  {
    WrittenAt(hs, fs);
    WrittenFile(hs, fs[i]);
    var k := FirstRefusal(hs, fs);
    if k <= i {
      assert Refused(hs, fs[k]);
    }
  }

  predicate Misplaced(hs: Styles, f: File) {
    Present(hs, f) && !Correct(hs, f)
  }

  /** A headerless Python file whose shebang or cookie line lacks its newline. */
  predicate Swallows(hs: Styles, f: File) {
    !Present(hs, f) && f.lang.Python? && !PrefixTerminated(f.content)
  }

  /**
   A check after a write reports, up to the first file it refused, exactly the misplaced headers and
   the swallowed ones, and from there on exactly the files that were not correct before.
   */
  lemma CheckAfterWrite(hs: Styles, fs: seq<File>, i: nat)
    requires ProperStyles(hs) && i < |fs|
    ensures |WrittenAll(hs, fs)| == |fs|
    ensures !Correct(hs, WrittenAll(hs, fs)[i])
       <==> if i < FirstRefusal(hs, fs) then Misplaced(hs, fs[i]) || Swallows(hs, fs[i]) else !Correct(hs, fs[i])
  {
    WrittenAt(hs, fs);
    WrittenFile(hs, fs[i]);
  }

  /** A second write changes no file, whether or not the first was refused: it stops at the same file. */
  lemma SecondWriteChangesNothing(hs: Styles, fs: seq<File>)
    requires ProperStyles(hs)
    ensures WrittenAll(hs, WrittenAll(hs, fs)) == WrittenAll(hs, fs)
    ensures FirstRefusal(hs, WrittenAll(hs, fs)) == FirstRefusal(hs, fs)
  {
    var once, k := WrittenAll(hs, fs), FirstRefusal(hs, fs);
    WrittenAt(hs, fs);
    forall i | 0 <= i < k
      ensures !Refused(hs, once[i]) && Written(hs, once[i]) == once[i]
    {
      WrittenFile(hs, fs[i]);
    }
    WrittenUpTo(hs, once, once, k);
    RefusalIsFirst(hs, once, k);
  }

  lemma RefusalIsFirst(hs: Styles, fs: seq<File>, k: nat)
    requires k <= |fs| && (k < |fs| ==> Refused(hs, fs[k])) && forall j :: 0 <= j < k ==> !Refused(hs, fs[j])
    ensures FirstRefusal(hs, fs) == k
  {
  }

  function CountMisplaced(hs: Styles, fs: seq<File>): nat {
    if fs == [] then 0 else CountMisplaced(hs, fs[..|fs| - 1]) + if Misplaced(hs, fs[|fs| - 1]) then 1 else 0
  }

  function CountChanged(hs: Styles, fs: seq<File>): nat {
    if fs == [] then 0
    else CountChanged(hs, fs[..|fs| - 1]) + if Written(hs, fs[|fs| - 1]) != fs[|fs| - 1] then 1 else 0
  }

  /** The number write mode prints as modified also counts the misplaced headers it left alone. */
  lemma {:induction false} ModifiedCountsMisplaced(hs: Styles, fs: seq<File>)
    requires ProperStyles(hs)
    ensures CountIncorrect(hs, fs) == CountChanged(hs, fs) + CountMisplaced(hs, fs)
  {
    if fs != [] {
      var n := |fs| - 1;
      ModifiedCountsMisplaced(hs, fs[..n]);
      WrittenFile(hs, fs[n]);
    }
  }
}
