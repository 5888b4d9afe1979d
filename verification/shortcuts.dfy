/**
 Shortcut combos: the normal form and reserved check of gui/src/stores/settingsStore.ts, the
 parser and event match of gui/src/hooks/useKeyboardShortcuts.ts, over the same strings.
 Lower-casing and trimming are ASCII.
 */
module Shortcuts {
  import opened Wrappers

  // ---------- Text ----------

  predicate IsSpace(c: char) {
    c in {' ', '\t', '\n', '\U{0B}', '\U{0C}', '\r'}
  }

  function LowerChar(c: char): char {
    if 'A' <= c <= 'Z' then (c - 'A') + 'a' else c
  }

  function Lower(s: string): (r: string)
    ensures |r| == |s|
    ensures forall i :: 0 <= i < |s| ==> r[i] == LowerChar(s[i])
  {
    if s == "" then "" else [LowerChar(s[0])] + Lower(s[1..])
  }

  predicate Trimmed(s: string) {
    s == "" || (!IsSpace(s[0]) && !IsSpace(s[|s| - 1]))
  }

  function Trim(s: string): (r: string)
    ensures Trimmed(r)
    ensures forall c :: c in r ==> c in s
    ensures Trimmed(s) ==> r == s
  {
    if s != "" && IsSpace(s[0]) then Trim(s[1..])
    else if s != "" && IsSpace(s[|s| - 1]) then Trim(s[..|s| - 1])
    else s
  }

  function IndexOf(s: string, c: char): (i: nat)
    ensures i <= |s|
    ensures c in s <==> i < |s|
    ensures i < |s| ==> s[i] == c
    ensures c !in s[..i]
  {
    if s == "" || s[0] == c then 0 else 1 + IndexOf(s[1..], c)
  }

  /** `split('+')` */
  function Split(s: string): (parts: seq<string>)
    ensures |parts| > 0
    ensures forall i :: 0 <= i < |parts| ==> '+' !in parts[i]
    decreases |s|
  {
    var i := IndexOf(s, '+');
    if i == |s| then [s] else [s[..i]] + Split(s[i + 1..])
  }

  /** `join('+')` */
  function Join(parts: seq<string>): string {
    if parts == [] then ""
    else if |parts| == 1 then parts[0]
    else parts[0] + "+" + Join(parts[1..])
  }

  /** Each piece between plus signs, trimmed and lower-cased. */
  function Cleaned(parts: seq<string>): (r: seq<string>)
    ensures |r| == |parts|
    ensures forall i :: 0 <= i < |r| ==> r[i] == Lower(Trim(parts[i]))
  {
    if parts == [] then [] else [Lower(Trim(parts[0]))] + Cleaned(parts[1..])
  }

  function Tokens(combo: string): seq<string> {
    Cleaned(Split(combo))
  }

  function NonEmpty(parts: seq<string>): (r: seq<string>)
    ensures forall t :: t in r <==> t in parts && t != ""
  {
    if parts == [] then []
    else (if parts[0] == "" then [] else [parts[0]]) + NonEmpty(parts[1..])
  }

  // ---------- Modifiers ----------

  datatype Modifier = Ctrl | Meta | Alt | Shift

  datatype Class = Mod(mod: Modifier) | Key(text: string)

  function ModifierName(m: Modifier): string {
    match m
    case Ctrl => "ctrl"
    case Meta => "meta"
    case Alt => "alt"
    case Shift => "shift"
  }

  function ClassOf(token: string): Class {
    if token == "ctrl" || token == "control" || token == "cmd" then Mod(Ctrl)
    else if token == "meta" then Mod(Meta)
    else if token == "alt" || token == "option" then Mod(Alt)
    else if token == "shift" then Mod(Shift)
    else Key(token)
  }

  function Rank(m: Modifier): int {
    match m
    case Ctrl => 0
    case Meta => 0
    case Alt => 1
    case Shift => 2
  }

  function Modifiers(tokens: seq<string>): seq<Modifier> {
    if tokens == [] then []
    else (if ClassOf(tokens[0]).Mod? then [ClassOf(tokens[0]).mod] else []) + Modifiers(tokens[1..])
  }

  function FirstKey(tokens: seq<string>): Option<string> {
    if tokens == [] then None
    else if ClassOf(tokens[0]).Key? then Some(tokens[0])
    else FirstKey(tokens[1..])
  }

  function Bucket(ms: seq<Modifier>, rank: int): seq<Modifier> {
    if ms == [] then [] else (if Rank(ms[0]) == rank then [ms[0]] else []) + Bucket(ms[1..], rank)
  }

  /** A stable sort by rank: the ranks are 0, 1 and 2. */
  function SortedByRank(ms: seq<Modifier>): seq<Modifier> {
    Bucket(ms, 0) + Bucket(ms, 1) + Bucket(ms, 2)
  }

  /** `[...new Set(ms)]`: first occurrences, in order. */
  function Deduped(ms: seq<Modifier>): seq<Modifier> {
    if ms == [] then []
    else
      var init := Deduped(ms[..|ms| - 1]);
      if ms[|ms| - 1] in init then init else init + [ms[|ms| - 1]]
  }

  function Names(ms: seq<Modifier>): (r: seq<string>)
    ensures |r| == |ms|
    ensures forall i :: 0 <= i < |ms| ==> r[i] == ModifierName(ms[i])
  {
    if ms == [] then [] else [ModifierName(ms[0])] + Names(ms[1..])
  }

  // ---------- The two readings of a combo ----------

  /** The tokens that `normalizeCombo` joins. */
  function NormalTokens(combo: string): seq<string> {
    var parts := NonEmpty(Tokens(combo));
    var sorted := SortedByRank(Modifiers(parts));
    var key := FirstKey(parts);
    if key.None? then Names(sorted) else Names(Deduped(sorted)) + [key.value]
  }

  function NormalizeCombo(combo: string): string {
    Join(NormalTokens(combo))
  }

  const RESERVED_COMBOS: set<string> := {
    "f5", "f11", "f12", "ctrl+r", "ctrl+t", "ctrl+w", "ctrl+n", "ctrl+l",
    "ctrl+shift+t", "ctrl+shift+n", "ctrl+shift+w"
  }

  predicate IsReserved(combo: string) {
    NormalizeCombo(combo) in RESERVED_COMBOS
  }

  datatype ParsedCombo = ParsedCombo(ctrlOrMeta: bool, shift: bool, alt: bool, key: string)

  const NOTHING := ParsedCombo(false, false, false, "")

  function Read(p: ParsedCombo, token: string): ParsedCombo {
    match ClassOf(token)
    case Mod(Ctrl) => p.(ctrlOrMeta := true)
    case Mod(Meta) => p.(ctrlOrMeta := true)
    case Mod(Shift) => p.(shift := true)
    case Mod(Alt) => p.(alt := true)
    case Key(text) => p.(key := text)
  }

  function ReadAll(tokens: seq<string>): ParsedCombo {
    if tokens == [] then NOTHING else Read(ReadAll(tokens[..|tokens| - 1]), tokens[|tokens| - 1])
  }

  lemma ReadAllSnoc(tokens: seq<string>, i: nat)
    requires i < |tokens|
    ensures ReadAll(tokens[..i + 1]) == Read(ReadAll(tokens[..i]), tokens[i])
  {
    assert tokens[..i + 1][..i] == tokens[..i];
  }

  function ParseCombo(combo: string): ParsedCombo {
    ReadAll(Tokens(combo))
  }

  method ComputeParse(combo: string) returns (result: ParsedCombo)
    ensures result == ParseCombo(combo)
  {
    var parts := Split(combo);
    ghost var tokens := Tokens(combo);
    result := NOTHING;
    for i := 0 to |parts|
      invariant result == ReadAll(tokens[..i])
    {
      ReadAllSnoc(tokens, i);
      result := ReadPart(result, Lower(Trim(parts[i])));
    }
    assert tokens[..|parts|] == tokens;
  }

  method ReadPart(before: ParsedCombo, lower: string) returns (result: ParsedCombo)
    ensures result == Read(before, lower)
  {
    result := before;
    if lower == "ctrl" || lower == "control" || lower == "cmd" || lower == "meta" {
      result := result.(ctrlOrMeta := true);
    } else if lower == "shift" {
      result := result.(shift := true);
    } else if lower == "alt" || lower == "option" {
      result := result.(alt := true);
    } else {
      result := result.(key := lower);
    }
  }

  /** The normal form a parsed combo calls for. */
  function RenderTokens(p: ParsedCombo): seq<string> {
    (if p.ctrlOrMeta then ["ctrl"] else []) + (if p.alt then ["alt"] else [])
    + (if p.shift then ["shift"] else []) + (if p.key != "" then [p.key] else [])
  }

  function Render(p: ParsedCombo): string {
    Join(RenderTokens(p))
  }
}
