/** The filter-text escaper of benchmarks/bench_filter_escape.py, as a uniquely decodable code. */
module FilterEscape {
  import opened Wrappers

  const ESCAPED_AS_THEMSELVES: set<char> := {'\\', ':', '[', ']', ';'}

  /** `_ESCAPE_MAP.get(char, char)` */
  function EscapeChar(c: char): string {
    if c in ESCAPED_AS_THEMSELVES then ['\\', c]
    else if c == '\'' then ['\'', '\\', '\'', '\'']
    else if c == '\n' then ['\\', 'n']
    else if c == '\r' then ['\\', 'r']
    else [c]
  }

  function Escape(text: string): string {
    if text == "" then "" else EscapeChar(text[0]) + Escape(text[1..])
  }

  method PyEscapeFilterText(text: string) returns (result: string)
    ensures result == Escape(text)
  {
    result := "";
    for i := 0 to |text|
      invariant result == Escape(text[..i])
    {
      assert text[..i + 1] == text[..i] + [text[i]];
      EscapeOne(text[i]);
      EscapeDistributes(text[..i], [text[i]]);
      result := result + EscapeChar(text[i]);
    }
    assert text[..|text|] == text;
  }

  lemma EscapeOne(c: char)
    ensures Escape([c]) == EscapeChar(c)
  {
    assert Escape([c]) == EscapeChar(c) + "";
  }

  /** Escaping distributes over concatenation, so text can be escaped in pieces. */
  lemma {:induction false} EscapeDistributes(a: string, b: string)
    ensures Escape(a + b) == Escape(a) + Escape(b)
  {
    if a == "" {
      assert a + b == b;
    } else {
      assert (a + b)[1..] == a[1..] + b;
      EscapeDistributes(a[1..], b);
    }
  }

  // ---------- Decoding ----------

  /** The character named by the one after a backslash. */
  function Unescaped(c: char): Option<char> {
    if c == '\\' || c == ':' || c == '[' || c == ']' || c == ';' then Some(c)
    else if c == 'n' then Some('\n')
    else if c == 'r' then Some('\r')
    else None
  }

  /** The characters that never stand for themselves. */
  predicate Coded(c: char) {
    c == '\\' || c == ':' || c == '[' || c == ']' || c == ';' || c == '\'' || c == '\n' || c == '\r'
  }

  function Prepended(c: char, rest: Option<string>): Option<string> {
    if rest.None? then None else Some([c] + rest.value)
  }

  /** Reads escaped text from left to right; `None` where no text escapes to it. */
  function Decode(t: string): Option<string>
    decreases |t|
  {
    if t == "" then Some("")
    else if t[0] == '\\' then
      if |t| >= 2 && Unescaped(t[1]).Some? then Prepended(Unescaped(t[1]).value, Decode(t[2..])) else None
    else if t[0] == '\'' then
      if |t| >= 4 && t[1] == '\\' && t[2] == '\'' && t[3] == '\'' then Prepended('\'', Decode(t[4..])) else None
    else if Coded(t[0]) then None
    else Prepended(t[0], Decode(t[1..]))
  }

  lemma DecodeHead(c: char, rest: string)
    ensures Decode(EscapeChar(c) + rest) == Prepended(c, Decode(rest))
  {
    var e := EscapeChar(c);
    var t := e + rest;
    assert t[|e|..] == rest && t[..|e|] == e;
    if c == '\'' {
      assert t[0] == '\'' && |t| >= 4;
    } else if |e| == 2 {
      assert t[0] == '\\' && t[1] == e[1] && Unescaped(t[1]) == Some(c);
    } else {
      assert t[0] == c;
    }
  }

  /** Decoding undoes escaping, on every string. */
  lemma {:induction false} DecodeUndoesEscape(s: string)
    ensures Decode(Escape(s)) == Some(s)
  {
    if s != "" {
      DecodeUndoesEscape(s[1..]);
      DecodeHead(s[0], Escape(s[1..]));
      assert s == [s[0]] + s[1..];
    }
  }

  lemma EscapeCons(c: char, s: string)
    ensures Escape([c] + s) == EscapeChar(c) + Escape(s)
  {
    assert ([c] + s)[1..] == s;
  }

  /** A text that decodes starts with the escape of some character, and the rest decodes. */
  lemma {:induction false} FirstCode(t: string) returns (c: char, rest: string)
    requires t != "" && Decode(t).Some?
    ensures t == EscapeChar(c) + rest && |rest| < |t|
    ensures Decode(rest).Some? && Decode(t).value == [c] + Decode(rest).value
  {
    if t[0] == '\\' {
      c, rest := Unescaped(t[1]).value, t[2..];
    } else if t[0] == '\'' {
      c, rest := '\'', t[4..];
      assert t == [t[0], t[1], t[2], t[3]] + rest;
    } else {
      c, rest := t[0], t[1..];
    }
  }

  /** And what decodes is an escape of the result: the decoder accepts exactly the escaper's output. */
  lemma {:induction false} EscapeUndoesDecode(t: string)
    requires Decode(t).Some?
    ensures Escape(Decode(t).value) == t
    decreases |t|
  {
    if t != "" {
      var c, rest := FirstCode(t);
      EscapeUndoesDecode(rest);
      EscapeCons(c, Decode(rest).value);
    }
  }

  /** The code is uniquely decodable: `t` is an escape of `s` exactly when it decodes to `s`. */
  lemma EscapeIffDecode(s: string, t: string)
    ensures Escape(s) == t <==> Decode(t) == Some(s)
  {
    DecodeUndoesEscape(s);
    if Decode(t) == Some(s) {
      EscapeUndoesDecode(t);
    }
  }

  // ---------- No special character is left bare ----------

  /** Length of the run of backslashes ending just before `i`. */
  function BackslashesBefore(t: string, i: nat): nat
    requires i <= |t|
  {
    if i > 0 && t[i - 1] == '\\' then 1 + BackslashesBefore(t, i - 1) else 0
  }

  const SPECIAL: set<char> := {':', '[', ']', ';'}

  ghost predicate Guarded(t: string) {
    forall i :: 0 <= i < |t| && t[i] in SPECIAL ==> BackslashesBefore(t, i) % 2 == 1
  }

  lemma {:induction false} RunInPrefix(a: string, b: string, i: nat)
    requires i <= |a|
    ensures BackslashesBefore(a + b, i) == BackslashesBefore(a, i)
  {
    if i > 0 && a[i - 1] == '\\' {
      RunInPrefix(a, b, i - 1);
    }
  }

  lemma AppendPlain(t: string, e: string)
    requires Guarded(t) && forall i :: 0 <= i < |e| ==> e[i] !in SPECIAL
    ensures Guarded(t + e)
  {
    forall i | 0 <= i < |t + e| && (t + e)[i] in SPECIAL
      ensures BackslashesBefore(t + e, i) % 2 == 1
    {
      if i < |t| {
        RunInPrefix(t, e, i);
      }
    }
  }

  lemma AppendEscaped(t: string, c: char)
    requires Guarded(t) && BackslashesBefore(t, |t|) % 2 == 0
    ensures Guarded(t + ['\\', c])
  {
    var b := t + ['\\'];
    AppendPlain(t, ['\\']);
    RunInPrefix(t, ['\\'], |t|);
    assert b[|t|] == '\\' && BackslashesBefore(b, |t| + 1) == 1 + BackslashesBefore(b, |t|);
    assert t + ['\\', c] == b + [c];
    AppendLast(b, c);
  }

  lemma AppendLast(b: string, c: char)
    requires Guarded(b) && BackslashesBefore(b, |b|) % 2 == 1
    ensures Guarded(b + [c])
  {
    forall i | 0 <= i < |b + [c]| && (b + [c])[i] in SPECIAL
      ensures BackslashesBefore(b + [c], i) % 2 == 1
    {
      RunInPrefix(b, [c], i);
    }
  }

  lemma TailStaysEven(t: string, c: char)
    requires BackslashesBefore(t, |t|) % 2 == 0
    ensures BackslashesBefore(t + EscapeChar(c), |t + EscapeChar(c)|) % 2 == 0
  {
    var e := EscapeChar(c);
    var r := t + e;
    if c == '\\' {
      RunInPrefix(t, e, |t|);
      assert BackslashesBefore(r, |t| + 1) == 1 + BackslashesBefore(r, |t|);
    } else {
      assert r[|r| - 1] == e[|e| - 1] && e[|e| - 1] != '\\';
    }
  }

  lemma GuardedSnoc(t: string, c: char)
    requires Guarded(t) && BackslashesBefore(t, |t|) % 2 == 0
    ensures Guarded(t + EscapeChar(c))
    ensures BackslashesBefore(t + EscapeChar(c), |t + EscapeChar(c)|) % 2 == 0
  {
    TailStaysEven(t, c);
    if c in SPECIAL {
      AppendEscaped(t, c);
    } else {
      AppendPlain(t, EscapeChar(c));
    }
  }

  /**
   In escaped text every `:`, `[`, `]` and `;` follows a maximal backslash run of odd length; trailing
   runs are even.
   */
  lemma {:induction false} EscapedIsGuarded(s: string)
    ensures Guarded(Escape(s))
    ensures BackslashesBefore(Escape(s), |Escape(s)|) % 2 == 0
  {
    if s != "" {
      var init, c := s[..|s| - 1], s[|s| - 1];
      EscapedIsGuarded(init);
      assert s == init + [c];
      EscapeDistributes(init, [c]);
      EscapeOne(c);
      GuardedSnoc(Escape(init), c);
    }
  }

  /** And no line break survives. */
  lemma {:induction false} EscapedIsOneLine(s: string)
    ensures '\n' !in Escape(s) && '\r' !in Escape(s)
  {
    if s != "" {
      EscapedIsOneLine(s[1..]);
    }
  }

  // ---------- No more than needed ----------

  /** How many characters escaping adds. */
  function Added(text: string): nat {
    if text == "" then 0
    else Added(text[1..]) + if text[0] == '\'' then 3 else if Coded(text[0]) then 1 else 0
  }

  /** Escaping adds one character for each coded one, three for an apostrophe, and nothing to other text. */
  lemma {:induction false} EscapeAddsJust(text: string)
    ensures |Escape(text)| == |text| + Added(text)
    ensures (forall i :: 0 <= i < |text| ==> !Coded(text[i])) <==> Escape(text) == text
  {
    if text != "" {
      var rest := text[1..];
      EscapeAddsJust(rest);
      assert text == [text[0]] + rest;
      AddedNothing(rest);
    }
  }

  lemma {:induction false} AddedNothing(text: string)
    ensures Added(text) == 0 <==> forall i :: 0 <= i < |text| ==> !Coded(text[i])
  {
    if text != "" {
      AddedNothing(text[1..]);
      assert text == [text[0]] + text[1..];
    }
  }
}
