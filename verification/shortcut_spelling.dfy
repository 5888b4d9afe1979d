/** What the spelling of a combo does not matter for, and what its tokens are read as, name by name. */
module ShortcutSpelling {
  import opened Wrappers
  import opened Shortcuts
  import opened ShortcutsProofs

  // ---------- Letter case ----------

  /** The two cases of one ASCII letter. */
  predicate CaseTwins(c: char, d: char) {
    || ('A' <= c <= 'Z' && d as int == c as int + 32)
    || ('A' <= d <= 'Z' && c as int == d as int + 32)
  }

  /** Equal at each position, or differing there by a letter's case only. */
  predicate SameButCase(a: string, b: string) {
    |a| == |b| && forall i :: 0 <= i < |a| ==> a[i] == b[i] || CaseTwins(a[i], b[i])
  }

  lemma TwinsLower(c: char, d: char)
    requires CaseTwins(c, d)
    ensures LowerChar(c) == LowerChar(d) && !IsSpace(c) && !IsSpace(d) && c != '+' && d != '+'
  {
  }

  lemma {:induction false} SamePlus(a: string, b: string)
    requires SameButCase(a, b)
    ensures IndexOf(a, '+') == IndexOf(b, '+')
  {
    if a != "" {
      if a[0] != b[0] {
        TwinsLower(a[0], b[0]);
      }
      SamePlus(a[1..], b[1..]);
    }
  }

  lemma {:induction false} SameTrim(a: string, b: string)
    requires SameButCase(a, b)
    ensures SameButCase(Trim(a), Trim(b))
    decreases |a|
  {
    if a != "" {
      var n := |a| - 1;
      assert IsSpace(a[0]) <==> IsSpace(b[0]) by { SameSpace(a[0], b[0]); }
      assert IsSpace(a[n]) <==> IsSpace(b[n]) by { SameSpace(a[n], b[n]); }
      if IsSpace(a[0]) {
        SameTrim(a[1..], b[1..]);
      } else if IsSpace(a[n]) {
        SameTrim(a[..n], b[..n]);
      }
    }
  }

  lemma SameSpace(c: char, d: char)
    requires c == d || CaseTwins(c, d)
    ensures IsSpace(c) <==> IsSpace(d)
  {
    if c != d {
      TwinsLower(c, d);
    }
  }

  lemma SameLower(a: string, b: string)
    requires SameButCase(a, b)
    ensures Lower(a) == Lower(b)
  {
    forall i | 0 <= i < |a|
      ensures Lower(a)[i] == Lower(b)[i]
    {
      if a[i] != b[i] {
        TwinsLower(a[i], b[i]);
      }
    }
  }

  lemma {:induction false} SamePieces(a: string, b: string)
    requires SameButCase(a, b)
    ensures Cleaned(Split(a)) == Cleaned(Split(b))
    decreases |a|
  {
    var i := IndexOf(a, '+');
    SamePlus(a, b);
    if i == |a| {
      OnePiece(a, b);
    } else {
      OnePiece(a[..i], b[..i]);
      SamePieces(a[i + 1..], b[i + 1..]);
      CleanedCons(a[..i], Split(a[i + 1..]));
      CleanedCons(b[..i], Split(b[i + 1..]));
    }
  }

  lemma OnePiece(a: string, b: string)
    requires SameButCase(a, b)
    ensures Lower(Trim(a)) == Lower(Trim(b)) && Cleaned([a]) == Cleaned([b])
  {
    SameTrim(a, b);
    SameLower(Trim(a), Trim(b));
  }

  lemma {:induction false} CleanedCons(part: string, parts: seq<string>)
    ensures Cleaned([part] + parts) == [Lower(Trim(part))] + Cleaned(parts)
  {
    assert ([part] + parts)[1..] == parts;
  }

  /** Letter case does not matter: to the normal form, to the parser, or to the check. */
  lemma CaseIsIgnored(a: string, b: string)
    requires SameButCase(a, b)
    ensures Tokens(a) == Tokens(b)
    ensures NormalizeCombo(a) == NormalizeCombo(b) && ParseCombo(a) == ParseCombo(b)
    ensures IsReserved(a) <==> IsReserved(b)
  {
    SamePieces(a, b);
  }

  /** No token has a capital letter. */
  lemma TokensAreLower(combo: string, i: nat, j: nat)
    requires i < |Tokens(combo)| && j < |Tokens(combo)[i]|
    ensures !('A' <= Tokens(combo)[i][j] <= 'Z')
  {
  }

  // ---------- Blanks ----------

  /** A space, a tab or a line break, by number. */
  predicate BlankChar(c: char) {
    c as int == 32 || 9 <= c as int <= 13
  }

  predicate Blank(s: string) {
    forall i :: 0 <= i < |s| ==> BlankChar(s[i])
  }

  /** Trimming takes off exactly the blanks around a text that has none at its ends. */
  lemma {:induction false} TrimStrips(before: string, s: string, after: string)
    requires Blank(before) && Blank(after)
    requires s == "" || (!BlankChar(s[0]) && !BlankChar(s[|s| - 1]))
    ensures Trim(before + s + after) == s
    decreases |before| + |after|
  {
    var all := before + s + after;
    if s == "" {
      TrimBlank(all);
    } else if before != "" {
      assert all[0] == before[0] && all[1..] == before[1..] + s + after;
      TrimStrips(before[1..], s, after);
    } else if after != "" {
      assert all[0] == s[0];
      assert all[|all| - 1] == after[|after| - 1] && all[..|all| - 1] == before + s + after[..|after| - 1];
      TrimStrips(before, s, after[..|after| - 1]);
    } else {
      assert all == s;
    }
  }

  lemma {:induction false} TrimBlank(s: string)
    requires Blank(s)
    ensures Trim(s) == ""
  {
    if s != "" {
      TrimBlank(s[1..]);
    }
  }

  /** `b` is `a` with blanks put around it. */
  ghost predicate Padded(a: string, b: string) {
    && (a == "" || (!BlankChar(a[0]) && !BlankChar(a[|a| - 1])))
    && exists before, after :: PaddedBy(a, b, before, after)
  }

  predicate PaddedBy(a: string, b: string, before: string, after: string) {
    Blank(before) && Blank(after) && b == before + a + after
  }

  /** Blanks around the pieces of a combo do not matter either. */
  lemma BlanksAreIgnored(xs: seq<string>, ys: seq<string>)
    requires xs != [] && |ys| == |xs| && NoPlus(xs) && NoPlus(ys)
    requires forall i :: 0 <= i < |xs| ==> Padded(xs[i], ys[i])
    ensures Tokens(Join(xs)) == Tokens(Join(ys))
  {
    SplitUndoesJoin(xs);
    SplitUndoesJoin(ys);
    forall i | 0 <= i < |xs|
      ensures Cleaned(xs)[i] == Cleaned(ys)[i]
    {
      PaddingIsTrimmed(xs[i], ys[i]);
    }
  }

  lemma PaddingIsTrimmed(a: string, b: string)
    requires Padded(a, b)
    ensures Trim(b) == a == Trim(a)
  {
    var before, after :| PaddedBy(a, b, before, after);
    TrimStrips(before, a, after);
    TrimStrips("", a, "");
    assert "" + a + "" == a;
  }

  // ---------- Tokens by name ----------

  const MODIFIER_NAMES: set<string> := {"ctrl", "control", "cmd", "meta", "alt", "option", "shift"}

  lemma ClassByName(t: string)
    ensures ClassOf(t).Key? <==> t !in MODIFIER_NAMES
    ensures ClassOf(t) == Mod(Ctrl) <==> t in {"ctrl", "control", "cmd"}
    ensures ClassOf(t) == Mod(Meta) <==> t == "meta"
    ensures ClassOf(t) == Mod(Alt) <==> t in {"alt", "option"}
    ensures ClassOf(t) == Mod(Shift) <==> t == "shift"
    ensures ClassOf(t).Key? ==> ClassOf(t).text == t
  {
  }

  lemma {:induction false} ModifiersByClass(tokens: seq<string>, m: Modifier)
    ensures m in Modifiers(tokens) <==> exists t :: t in tokens && ClassOf(t) == Mod(m)
  {
    if tokens != [] {
      ModifiersByClass(tokens[1..], m);
      assert tokens == [tokens[0]] + tokens[1..];
    }
  }

  /** The parser's flags: Ctrl or Meta, Shift and Alt are set by their names, wherever they stand. */
  lemma ParsedFlags(combo: string)
    ensures var tokens, p := Tokens(combo), ParseCombo(combo);
            && (p.ctrlOrMeta <==> "ctrl" in tokens || "control" in tokens || "cmd" in tokens || "meta" in tokens)
            && (p.shift <==> "shift" in tokens)
            && (p.alt <==> "alt" in tokens || "option" in tokens)
  {
    var tokens := Tokens(combo);
    FlagsAreModifiers(tokens);
    ModifiersByClass(tokens, Ctrl);
    ModifiersByClass(tokens, Meta);
    ModifiersByClass(tokens, Alt);
    ModifiersByClass(tokens, Shift);
    forall t: string
      ensures ClassOf(t) == Mod(Ctrl) <==> t in {"ctrl", "control", "cmd"}
      ensures ClassOf(t) == Mod(Meta) <==> t == "meta"
      ensures ClassOf(t) == Mod(Alt) <==> t in {"alt", "option"}
      ensures ClassOf(t) == Mod(Shift) <==> t == "shift"
    {
      ClassByName(t);
    }
  }

  /** The parser's key: the last token that is no modifier's name, or empty. */
  lemma ParsedKey(combo: string, i: nat)
    requires i <= |Tokens(combo)|
    requires forall j :: i < j < |Tokens(combo)| ==> Tokens(combo)[j] in MODIFIER_NAMES
    requires i < |Tokens(combo)| ==> Tokens(combo)[i] !in MODIFIER_NAMES
    requires i == |Tokens(combo)| ==> forall t :: t in Tokens(combo) ==> t in MODIFIER_NAMES
    ensures ParseCombo(combo).key == if i < |Tokens(combo)| then Tokens(combo)[i] else ""
  {
    ParsedKeyIsLastKey(Tokens(combo));
    LastKeyAt(Tokens(combo), i);
  }

  lemma {:induction false} LastKeyAt(tokens: seq<string>, i: nat)
    requires i <= |tokens| && forall j :: i < j < |tokens| ==> tokens[j] in MODIFIER_NAMES
    requires i < |tokens| ==> tokens[i] !in MODIFIER_NAMES
    requires i == |tokens| ==> forall t :: t in tokens ==> t in MODIFIER_NAMES
    ensures LastKey(tokens) == if i < |tokens| then tokens[i] else ""
  {
    if tokens != [] {
      var n := |tokens| - 1;
      ClassByName(tokens[n]);
      if i > n {
        assert tokens[n] in tokens;
        LastKeyAt(tokens[..n], n);
      } else if i < n {
        LastKeyAt(tokens[..n], i);
      }
    }
  }

  /** The normal form's key: the first non-empty token that is no modifier's name. */
  lemma {:induction false} FirstKeyAt(tokens: seq<string>, i: nat)
    requires i <= |tokens| && forall j :: 0 <= j < i ==> tokens[j] == "" || tokens[j] in MODIFIER_NAMES
    requires i < |tokens| ==> tokens[i] != "" && tokens[i] !in MODIFIER_NAMES
    ensures FirstKey(NonEmpty(tokens)) == if i < |tokens| then Some(tokens[i]) else None
  {
    if tokens != [] {
      var t, rest := tokens[0], tokens[1..];
      ClassByName(t);
      if i > 0 {
        FirstKeyAt(rest, i - 1);
      }
      FirstKeyHead(t, NonEmpty(rest));
    }
  }

  lemma {:induction false} FirstKeyHead(t: string, rest: seq<string>)
    ensures FirstKey((if t == "" then [] else [t]) + rest)
         == if t == "" then FirstKey(rest) else if ClassOf(t).Key? then Some(t) else FirstKey(rest)
  {
    if t == "" {
      assert [] + rest == rest;
    } else {
      assert ([t] + rest)[1..] == rest;
    }
  }

  // ---------- Which modifiers the normal form lists, and in what order ----------

  /** Both occur, and `x` first. */
  predicate Precedes(ms: seq<Modifier>, x: Modifier, y: Modifier) {
    ms != [] && ms[0] != y && if ms[0] == x then y in ms[1..] else Precedes(ms[1..], x, y)
  }

  lemma {:induction false} PrecedesSnoc(ms: seq<Modifier>, x: Modifier, y: Modifier, m: Modifier)
    requires Precedes(ms, x, y) || (x in ms && y !in ms && m == y)
    ensures Precedes(ms + [m], x, y)
  {
    var all := ms + [m];
    assert all[0] == ms[0] && all[1..] == ms[1..] + [m];
    if ms[0] != x {
      PrecedesSnoc(ms[1..], x, y, m);
    } else if y !in ms {
      assert all[1..][|ms| - 1] == y;
    }
  }

  /** Deduplicating keeps first occurrences, in order. */
  lemma {:induction false} DedupedInOrder(ms: seq<Modifier>, i: nat, j: nat)
    requires i < j < |Deduped(ms)|
    ensures Precedes(ms, Deduped(ms)[i], Deduped(ms)[j])
  {
    var n := |ms| - 1;
    var init, d, e := ms[..n], Deduped(ms[..n]), Deduped(ms);
    DedupedElements(init);
    assert ms == init + [ms[n]];
    assert e[i] == d[i] && d[i] in d;
    if j < |d| {
      DedupedInOrder(init, i, j);
    }
    PrecedesSnoc(init, e[i], e[j], ms[n]);
  }

  /** A bucket keeps the order of the list it is taken from. */
  lemma {:induction false} BucketInOrder(ms: seq<Modifier>, rank: int, x: Modifier, y: Modifier)
    requires Rank(x) == rank && Rank(y) == rank && Precedes(Bucket(ms, rank), x, y)
    ensures Precedes(ms, x, y)
  {
    var rest := Bucket(ms[1..], rank);
    BucketOf(ms[1..], rank);
    BucketCons(ms[0], ms[1..], rank);
    assert ms == [ms[0]] + ms[1..];
    if Rank(ms[0]) == rank {
      assert Bucket(ms, rank)[0] == ms[0] && Bucket(ms, rank)[1..] == rest;
      if ms[0] != x {
        BucketInOrder(ms[1..], rank, x, y);
      }
    } else {
      assert Bucket(ms, rank) == rest;
      BucketInOrder(ms[1..], rank, x, y);
    }
  }

  /** The modifiers a combo with a key is normalised to. */
  function NormalModifiers(combo: string): seq<Modifier> {
    Deduped(SortedByRank(Modifiers(Tokens(combo))))
  }

  /**
   The normal form of a combo with a key: the names of the modifiers that occur, each once, ordered by
   rank and then by first occurrence, and the key.
   */
  lemma NormalFormReads(combo: string, i: nat, j: nat)
    requires KeyOf(combo).Some? && i < j < |NormalModifiers(combo)|
    ensures NormalizeCombo(combo) == Join(Names(NormalModifiers(combo)) + [KeyOf(combo).value])
    ensures forall m :: m in NormalModifiers(combo) <==> m in Modifiers(Tokens(combo))
    ensures var x, y := NormalModifiers(combo)[i], NormalModifiers(combo)[j];
            x != y && (Rank(x) < Rank(y) || (Rank(x) == Rank(y) && Precedes(Modifiers(Tokens(combo)), x, y)))
  {
    var all := Modifiers(Tokens(combo));
    ModifiersIgnoreEmpty(Tokens(combo));
    SortedElements(all);
    DedupedElements(SortedByRank(all));
    NormalOrder(all, i, j);
  }

  lemma SortedElements(ms: seq<Modifier>)
    ensures forall m :: m in SortedByRank(ms) <==> m in ms
  {
    BucketOf(ms, 0);
    BucketOf(ms, 1);
    BucketOf(ms, 2);
  }

  lemma NormalOrder(all: seq<Modifier>, i: nat, j: nat)
    requires i < j < |Deduped(SortedByRank(all))|
    ensures var x, y := Deduped(SortedByRank(all))[i], Deduped(SortedByRank(all))[j];
            Rank(x) < Rank(y) || (Rank(x) == Rank(y) && Precedes(all, x, y))
  {
    var a, b, c := Deduped(Bucket(all, 0)), Deduped(Bucket(all, 1)), Deduped(Bucket(all, 2));
    DedupedBuckets(all);
    DedupedRank(all, 0);
    DedupedRank(all, 1);
    DedupedRank(all, 2);
    DedupedOne(Bucket(all, 1), Alt);
    DedupedOne(Bucket(all, 2), Shift);
    RanksOf(a, b, c);
    if Rank((a + b + c)[i]) == Rank((a + b + c)[j]) {
      SameRankOrder(all, i, j);
    }
  }

  lemma SameRankOrder(all: seq<Modifier>, i: nat, j: nat)
    requires i < j < |Deduped(Bucket(all, 0))|
    ensures var d := Deduped(Bucket(all, 0)); Precedes(all, d[i], d[j])
  {
    var d := Deduped(Bucket(all, 0));
    DedupedRank(all, 0);
    assert d[i] in d && d[j] in d;
    DedupedInOrder(Bucket(all, 0), i, j);
    BucketInOrder(all, 0, d[i], d[j]);
  }

  lemma DedupedRank(ms: seq<Modifier>, rank: int)
    ensures forall m :: m in Deduped(Bucket(ms, rank)) ==> Rank(m) == rank
    ensures forall m :: m in Bucket(ms, rank) ==> Rank(m) == rank
  {
    BucketOf(ms, rank);
    DedupedElements(Bucket(ms, rank));
  }

  lemma DedupedOne(ms: seq<Modifier>, m: Modifier)
    requires forall x :: x in ms ==> Rank(x) == Rank(m) && Rank(m) > 0
    ensures Deduped(ms) == if ms == [] then [] else [m]
  {
    forall i | 0 <= i < |ms|
      ensures ms[i] == m
    {
      assert ms[i] in ms;
    }
    DedupedUniform(ms, m);
  }

  lemma RanksOf(a: seq<Modifier>, b: seq<Modifier>, c: seq<Modifier>)
    requires (forall m :: m in a ==> Rank(m) == 0) && |b| <= 1 && |c| <= 1
    requires (forall m :: m in b ==> Rank(m) == 1) && (forall m :: m in c ==> Rank(m) == 2)
    ensures var ms := a + b + c;
            && (forall i, j :: 0 <= i < j < |ms| ==> Rank(ms[i]) <= Rank(ms[j]))
            && (forall i, j :: 0 <= i < j < |ms| && Rank(ms[i]) == Rank(ms[j]) ==>
                  j < |a| && ms[i] == a[i] && ms[j] == a[j])
  {
    var ms := a + b + c;
    forall k | 0 <= k < |ms|
      ensures Rank(ms[k]) == if k < |a| then 0 else if k < |a| + |b| then 1 else 2
      ensures k < |a| ==> ms[k] == a[k]
    {
      if k < |a| {
        assert ms[k] in a;
      } else if k < |a| + |b| {
        assert ms[k] in b;
      } else {
        assert ms[k] in c;
      }
    }
  }
}
