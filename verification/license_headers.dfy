/**
 The licence-header writer and checker of scripts/add_license_headers.py, with `\n` as the
 only line terminator.
 */
module LicenseHeaders {

  // ---------- Lines ----------

  function IndexOfNewline(s: string): (i: nat)
    ensures i <= |s|
    ensures i < |s| ==> s[i] == '\n'
    ensures forall j :: 0 <= j < i ==> s[j] != '\n'
  {
    if s == "" || s[0] == '\n' then 0 else 1 + IndexOfNewline(s[1..])
  }

  /** `splitlines(keepends=True)` */
  function SplitLines(s: string): seq<string>
    decreases |s|
  {
    if s == "" then []
    else
      var i := IndexOfNewline(s);
      if i == |s| then [s] else [s[..i + 1]] + SplitLines(s[i + 1..])
  }

  /** `"".join(lines)` */
  function Flatten(lines: seq<string>): string {
    if lines == [] then "" else lines[0] + Flatten(lines[1..])
  }

  predicate PartAt(s: string, part: string, i: int) {
    0 <= i <= |s| - |part| && s[i..i + |part|] == part
  }

  predicate Contains(s: string, part: string) {
    exists i {:trigger PartAt(s, part, i)} :: 0 <= i <= |s| && PartAt(s, part, i)
  }

  // ---------- Headers ----------

  /** The two header lines of a language, and the marker that tells a header is there. */
  datatype Style = Style(marker: string, spdx: string, copyright: string)

  function SpdxLine(h: Style): string {
    h.spdx + "\n"
  }

  function CopyrightLine(h: Style): string {
    h.copyright + "\n"
  }

  predicate HeaderPresent(h: Style, lines: seq<string>) {
    exists k :: 0 <= k < |lines| && k < 5 && Contains(lines[k], h.marker)
  }

  predicate IsShebang(line: string) {
    "#!" <= line
  }

  predicate IsCookie(line: string) {
    "# -*- coding" <= line
  }

  /** Where the Python header belongs: after an optional shebang and an optional encoding cookie. */
  function HeaderIndex(lines: seq<string>): (idx: nat)
    ensures idx <= |lines| && idx <= 2
  {
    var idx := if lines != [] && IsShebang(lines[0]) then 1 else 0;
    if idx < |lines| && IsCookie(lines[idx]) then idx + 1 else idx
  }

  predicate HeaderAt(h: Style, lines: seq<string>, idx: nat) {
    idx + 1 < |lines| && lines[idx] == SpdxLine(h) && lines[idx + 1] == CopyrightLine(h)
  }

  datatype Language = Python | Rust

  predicate HeaderValid(lang: Language, h: Style, lines: seq<string>) {
    HeaderAt(h, lines, if lang.Python? then HeaderIndex(lines) else 0)
  }

  /** The Python branch that means to avoid a double blank line builds the same three lines. */
  function HeaderLines(h: Style): seq<string> {
    [SpdxLine(h), CopyrightLine(h), "\n"]
  }

  function InsertPyHeader(h: Style, content: string): string {
    var lines := SplitLines(content);
    var idx := HeaderIndex(lines);
    Flatten(lines[..idx] + HeaderLines(h) + lines[idx..])
  }

  function InsertRsHeader(h: Style, content: string): string {
    SpdxLine(h) + (CopyrightLine(h) + (if "\n" <= content then content else "\n" + content))
  }

  function Inserted(lang: Language, h: Style, content: string): string {
    if lang.Python? then InsertPyHeader(h, content) else InsertRsHeader(h, content)
  }

  method ComputeInsertPyHeader(h: Style, content: string) returns (r: string)
    ensures r == InsertPyHeader(h, content)
  {
    var lines := SplitLines(content);
    var idx := 0;
    if lines != [] && IsShebang(lines[0]) {
      idx := 1;
    }
    if idx < |lines| && IsCookie(lines[idx]) {
      idx := idx + 1;
    }
    var headerLines := [SpdxLine(h), CopyrightLine(h), "\n"];
    if idx < |lines| && lines[idx] == "\n" {
      headerLines := headerLines[..2];
      headerLines := headerLines + ["\n"];
    }
    assert headerLines == HeaderLines(h);
    r := Flatten(lines[..idx] + headerLines + lines[idx..]);
  }

  // ---------- Files ----------

  /** `inside`: the resolved path stays within the resolved repository root. */
  datatype File = File(lang: Language, content: string, inside: bool)

  /** The header style of each language. */
  type Styles = Language -> Style

  predicate Present(hs: Styles, f: File) {
    HeaderPresent(hs(f.lang), SplitLines(f.content))
  }

  predicate Correct(hs: Styles, f: File) {
    Present(hs, f) && HeaderValid(f.lang, hs(f.lang), SplitLines(f.content))
  }

  /** Write mode refuses to touch a file that resolves outside the repository. */
  predicate Refused(hs: Styles, f: File) {
    !Present(hs, f) && !f.inside
  }

  function Written(hs: Styles, f: File): File {
    if Present(hs, f) then f else f.(content := Inserted(f.lang, hs(f.lang), f.content))
  }

  function WrittenEach(hs: Styles, fs: seq<File>): (r: seq<File>)
    ensures |r| == |fs|
    ensures forall i :: 0 <= i < |fs| ==> r[i] == Written(hs, fs[i])
  {
    if fs == [] then [] else [Written(hs, fs[0])] + WrittenEach(hs, fs[1..])
  }

  function FirstRefusal(hs: Styles, fs: seq<File>): (k: nat)
    ensures k <= |fs| && (k < |fs| ==> Refused(hs, fs[k]))
    ensures forall j :: 0 <= j < k ==> !Refused(hs, fs[j])
  {
    if fs == [] || Refused(hs, fs[0]) then 0 else 1 + FirstRefusal(hs, fs[1..])
  }

  /** The files after write mode: it stops at the first refusal. */
  function WrittenAll(hs: Styles, fs: seq<File>): seq<File> {
    var k := FirstRefusal(hs, fs);
    WrittenEach(hs, fs[..k]) + fs[k..]
  }

  /** Files written one by one up to the first refusal, or to the end, are what write mode leaves. */
  lemma WrittenUpTo(hs: Styles, before: seq<File>, after: seq<File>, k: nat)
    requires WrittenSoFar(hs, before, after, k)
    requires k < |before| ==> Refused(hs, before[k])
    ensures after == WrittenAll(hs, before)
    ensures AllWritable(hs, before) <==> k == |before|
  {
    assert FirstRefusal(hs, before) == k;
    assert after == WrittenEach(hs, before[..k]) + before[k..];
  }

  /** The first `k` files are written, none of them refused, and the others are as they were. */
  ghost predicate WrittenSoFar(hs: Styles, before: seq<File>, after: seq<File>, k: nat) {
    && |after| == |before| && k <= |before|
    && (forall j :: 0 <= j < k ==> !Refused(hs, before[j]) && after[j] == Written(hs, before[j]))
    && (forall j :: k <= j < |before| ==> after[j] == before[j])
  }

  lemma WrittenNext(hs: Styles, before: seq<File>, after: seq<File>, k: nat)
    requires WrittenSoFar(hs, before, after, k) && k < |before|
    ensures after[k] == before[k]
    ensures !Refused(hs, after[k]) ==> WrittenSoFar(hs, before, after[k := Written(hs, after[k])], k + 1)
  {
  }

  predicate AllWritable(hs: Styles, fs: seq<File>) {
    forall i :: 0 <= i < |fs| ==> !Refused(hs, fs[i])
  }

  function CountIncorrect(hs: Styles, fs: seq<File>): nat {
    if fs == [] then 0 else CountIncorrect(hs, fs[..|fs| - 1]) + if Correct(hs, fs[|fs| - 1]) then 0 else 1
  }

  lemma CountNext(hs: Styles, fs: seq<File>, i: nat)
    requires i < |fs|
    ensures CountIncorrect(hs, fs[..i + 1]) == CountIncorrect(hs, fs[..i]) + if Correct(hs, fs[i]) then 0 else 1
  {
    assert fs[..i + 1][..i] == fs[..i];
  }

  datatype WriteResult = Complete(modified: nat) | Exit

  /** The tracked files of the repository, rewritten in place. */
  class Tree {
    const styles: Styles
    var files: seq<File>

    constructor (hs: Styles, fs: seq<File>)
      ensures styles == hs && files == fs
    {
      styles := hs;
      files := fs;
    }

    method ProcessFile(i: nat, checkOnly: bool) returns (ok: bool, refused: bool)
      requires i < |files|
      modifies this
      ensures refused <==> !checkOnly && Refused(styles, old(files[i]))
      ensures ok <==> Correct(styles, old(files[i]))
      ensures files == if checkOnly || refused then old(files) else old(files)[i := Written(styles, old(files[i]))]
    {
      var f := files[i];
      refused := false;
      if Present(styles, f) {
        ok := HeaderValid(f.lang, styles(f.lang), SplitLines(f.content));
        return;
      }
      ok := false;
      if checkOnly {
        return;
      }
      if !f.inside {
        refused := true;
        return;
      }
      files := files[i := f.(content := Inserted(f.lang, styles(f.lang), f.content))];
    }

    method RunWrite() returns (r: WriteResult)
      modifies this
      ensures files == WrittenAll(styles, old(files))
      ensures r.Complete? <==> AllWritable(styles, old(files))
      ensures r.Complete? ==> r.modified == CountIncorrect(styles, old(files))
    {
      var modified := 0;
      for i := 0 to |files|
        invariant |files| == |old(files)|
        invariant WrittenSoFar(styles, old(files), files, i)
        invariant modified == CountIncorrect(styles, old(files)[..i])
      {
        ghost var before := files;
        CountNext(styles, old(files), i);
        var ok, refused := ProcessFile(i, false);
        WrittenNext(styles, old(files), before, i);
        if refused {
          WrittenUpTo(styles, old(files), files, i);
          return Exit;
        }
        if !ok {
          modified := modified + 1;
        }
      }
      WrittenUpTo(styles, old(files), files, |files|);
      assert old(files)[..|files|] == old(files);
      return Complete(modified);
    }

    /** The positions of the files reported; exit code 1 exactly when there are any. */
    method RunCheck() returns (violations: seq<nat>, code: int)
      modifies this
      ensures files == old(files)
      ensures forall i: nat :: i in violations <==> i < |files| && !Correct(styles, files[i])
      ensures forall i, j :: 0 <= i < j < |violations| ==> violations[i] < violations[j]
      ensures code == if violations == [] then 0 else 1
    {
      violations := [];
      for i := 0 to |files|
        invariant files == old(files)
        invariant forall j: nat :: j in violations <==> j < i && !Correct(styles, files[j])
        invariant forall j :: 0 <= j < |violations| ==> violations[j] < i
        invariant forall j, k :: 0 <= j < k < |violations| ==> violations[j] < violations[k]
      {
        var ok, refused := ProcessFile(i, true);
        if !ok {
          violations := violations + [i];
        }
      }
      code := if violations == [] then 0 else 1;
    }
  }
}
