/** The normal form is idempotent, and exactly when it agrees with the parser. */
module ShortcutsProofs {
  import opened Wrappers
  import opened Shortcuts

  // ---------- Splitting and joining ----------

  ghost predicate NoPlus(parts: seq<string>) {
    forall i :: 0 <= i < |parts| ==> '+' !in parts[i]
  }

  lemma SplitHead(a: string, rest: string)
    requires '+' !in a
    ensures Split(a + "+" + rest) == [a] + Split(rest)
  {
    var s := a + "+" + rest;
    var i := IndexOf(s, '+');
    assert s[|a|] == '+';
    assert i == |a|;
    assert s[..|a|] == a && s[|a| + 1..] == rest;
  }

  lemma {:induction false} SplitUndoesJoin(parts: seq<string>)
    requires parts != [] && NoPlus(parts)
    ensures Split(Join(parts)) == parts
  {
    if |parts| == 1 {
      assert parts == [parts[0]];
    } else {
      SplitUndoesJoin(parts[1..]);
      SplitHead(parts[0], Join(parts[1..]));
      assert parts == [parts[0]] + parts[1..];
    }
  }

  /** A token that cleaning leaves alone. */
  predicate Clean(t: string) {
    t != "" && '+' !in t && Lower(Trim(t)) == t
  }

  ghost predicate AllClean(ts: seq<string>) {
    forall i :: 0 <= i < |ts| ==> Clean(ts[i])
  }

  lemma LowerIsIdempotent(s: string)
    ensures Lower(Lower(s)) == Lower(s)
  {
  }

  lemma LowerStaysTrimmed(y: string)
    requires Trimmed(y)
    ensures Trimmed(Lower(y))
  {
  }

  lemma LowerAddsNoPlus(y: string)
    requires '+' !in y
    ensures '+' !in Lower(y)
  {
  }

  lemma CleanedIsClean(s: string)
    requires '+' !in s && Lower(Trim(s)) != ""
    ensures Clean(Lower(Trim(s)))
  {
    LowerStaysTrimmed(Trim(s));
    LowerIsIdempotent(Trim(s));
    LowerAddsNoPlus(Trim(s));
  }

  lemma TokensAreClean(combo: string)
    ensures forall t :: t in NonEmpty(Tokens(combo)) ==> Clean(t)
  {
    var parts := Split(combo);
    forall t | t in NonEmpty(Tokens(combo))
      ensures Clean(t)
    {
      var i :| 0 <= i < |parts| && Tokens(combo)[i] == t;
      CleanedIsClean(parts[i]);
    }
  }

  lemma {:induction false} CleanTokensStay(ts: seq<string>)
    requires AllClean(ts)
    ensures Cleaned(ts) == ts && NonEmpty(ts) == ts
  {
    if ts != [] {
      CleanTokensStay(ts[1..]);
      assert ts == [ts[0]] + ts[1..];
    }
  }

  /** Clean tokens survive being joined and read again. */
  lemma JoinReadsBack(ts: seq<string>)
    requires AllClean(ts)
    ensures NonEmpty(Tokens(Join(ts))) == ts
  {
    if ts != [] {
      SplitUndoesJoin(ts);
    } else {
      assert Split("") == [""] && Cleaned([""]) == [""];
    }
    CleanTokensStay(ts);
  }

  lemma JoinInjective(xs: seq<string>, ys: seq<string>)
    requires AllClean(xs) && AllClean(ys) && Join(xs) == Join(ys)
    ensures xs == ys
  {
    JoinReadsBack(xs);
    JoinReadsBack(ys);
  }

  lemma NamesAreClean(m: Modifier)
    ensures Clean(ModifierName(m)) && ClassOf(ModifierName(m)) == Mod(m)
  {
    var n := ModifierName(m);
    assert Trimmed(n);
    assert Lower(n) == n;
  }

  lemma {:induction false} NamesReadBack(ms: seq<Modifier>)
    ensures AllClean(Names(ms)) && Modifiers(Names(ms)) == ms && FirstKey(Names(ms)) == None
  {
    if ms != [] {
      NamesAreClean(ms[0]);
      NamesReadBack(ms[1..]);
      assert ms == [ms[0]] + ms[1..];
      assert Names(ms)[1..] == Names(ms[1..]);
    }
  }

  lemma {:induction false} AppendKey(ms: seq<Modifier>, key: string)
    requires ClassOf(key).Key?
    ensures Modifiers(Names(ms) + [key]) == ms && FirstKey(Names(ms) + [key]) == Some(key)
  {
    if ms == [] {
      assert Names(ms) + [key] == [key] && [key][1..] == [];
    } else {
      AppendKey(ms[1..], key);
      ReadPastName(ms[0], Names(ms[1..]) + [key]);
      assert Names(ms) + [key] == [ModifierName(ms[0])] + (Names(ms[1..]) + [key]);
      assert ms == [ms[0]] + ms[1..];
    }
  }

  lemma ReadPastName(m: Modifier, rest: seq<string>)
    ensures Modifiers([ModifierName(m)] + rest) == [m] + Modifiers(rest)
    ensures FirstKey([ModifierName(m)] + rest) == FirstKey(rest)
  {
    NamesAreClean(m);
    assert ([ModifierName(m)] + rest)[1..] == rest;
  }

  lemma {:induction false} FirstKeyIsKey(tokens: seq<string>)
    ensures FirstKey(tokens).Some? ==> FirstKey(tokens).value in tokens && ClassOf(FirstKey(tokens).value).Key?
    ensures FirstKey(tokens).None? ==> forall t :: t in tokens ==> ClassOf(t).Mod?
  {
    if tokens != [] {
      FirstKeyIsKey(tokens[1..]);
      assert tokens == [tokens[0]] + tokens[1..];
    }
  }

  // ---------- Sorting and deduplicating ----------

  predicate AllRank(ms: seq<Modifier>, rank: int) {
    forall m :: m in ms ==> Rank(m) == rank
  }

  lemma {:induction false} BucketOf(ms: seq<Modifier>, rank: int)
    ensures AllRank(Bucket(ms, rank), rank)
    ensures forall m :: m in Bucket(ms, rank) <==> m in ms && Rank(m) == rank
  {
    if ms != [] {
      BucketOf(ms[1..], rank);
      assert ms == [ms[0]] + ms[1..];
    }
  }

  lemma {:induction false} BucketCons(m: Modifier, ms: seq<Modifier>, rank: int)
    ensures Bucket([m] + ms, rank) == (if Rank(m) == rank then [m] else []) + Bucket(ms, rank)
  {
    assert ([m] + ms)[1..] == ms;
  }

  lemma {:induction false} BucketAppend(a: seq<Modifier>, b: seq<Modifier>, rank: int)
    ensures Bucket(a + b, rank) == Bucket(a, rank) + Bucket(b, rank)
  {
    if a == [] {
      assert a + b == b;
    } else {
      BucketAppend(a[1..], b, rank);
      BucketCons(a[0], a[1..] + b, rank);
      assert a + b == [a[0]] + (a[1..] + b);
    }
  }

  lemma {:induction false} BucketUniform(ms: seq<Modifier>, rank: int, other: int)
    requires AllRank(ms, rank)
    ensures Bucket(ms, other) == if other == rank then ms else []
  {
    if ms != [] {
      BucketUniform(ms[1..], rank, other);
      assert ms == [ms[0]] + ms[1..];
    }
  }

  /** Three runs of ranks 0, 1 and 2 are already sorted. */
  lemma SortedStays(a: seq<Modifier>, b: seq<Modifier>, c: seq<Modifier>)
    requires AllRank(a, 0) && AllRank(b, 1) && AllRank(c, 2)
    ensures SortedByRank(a + b + c) == a + b + c
  {
    BucketOfRuns(a, b, c, 0);
    BucketOfRuns(a, b, c, 1);
    BucketOfRuns(a, b, c, 2);
  }

  lemma BucketOfRuns(a: seq<Modifier>, b: seq<Modifier>, c: seq<Modifier>, rank: int)
    requires AllRank(a, 0) && AllRank(b, 1) && AllRank(c, 2)
    ensures Bucket(a + b + c, rank) == if rank == 0 then a else if rank == 1 then b else if rank == 2 then c else []
  {
    BucketAppend(a + b, c, rank);
    BucketAppend(a, b, rank);
    BucketUniform(a, 0, rank);
    BucketUniform(b, 1, rank);
    BucketUniform(c, 2, rank);
  }

  lemma BucketOfBucket(ms: seq<Modifier>, inner: int, rank: int)
    ensures Bucket(Bucket(ms, inner), rank) == if inner == rank then Bucket(ms, rank) else []
  {
    BucketOf(ms, inner);
    BucketUniform(Bucket(ms, inner), inner, rank);
  }

  /** `SortedByRank` keeps each rank's members, in their original order. */
  lemma SortIsStable(ms: seq<Modifier>, rank: int)
    requires rank in {0, 1, 2}
    ensures Bucket(SortedByRank(ms), rank) == Bucket(ms, rank)
  {
    BucketAppend(Bucket(ms, 0) + Bucket(ms, 1), Bucket(ms, 2), rank);
    BucketAppend(Bucket(ms, 0), Bucket(ms, 1), rank);
    BucketOfBucket(ms, 0, rank);
    BucketOfBucket(ms, 1, rank);
    BucketOfBucket(ms, 2, rank);
  }

  /** And its ranks ascend. */
  lemma SortAscends(ms: seq<Modifier>, i: int, j: int)
    requires 0 <= i < j < |SortedByRank(ms)|
    ensures Rank(SortedByRank(ms)[i]) <= Rank(SortedByRank(ms)[j])
  {
    RankAt(ms, i);
    RankAt(ms, j);
  }

  lemma RankAt(ms: seq<Modifier>, k: int)
    requires 0 <= k < |SortedByRank(ms)|
    ensures var n0, n1 := |Bucket(ms, 0)|, |Bucket(ms, 1)|;
            Rank(SortedByRank(ms)[k]) == if k < n0 then 0 else if k < n0 + n1 then 1 else 2
  {
    var a, b, c := Bucket(ms, 0), Bucket(ms, 1), Bucket(ms, 2);
    BucketOf(ms, 0);
    BucketOf(ms, 1);
    BucketOf(ms, 2);
    var m := (a + b + c)[k];
    if k < |a| {
      assert m in a;
    } else if k < |a| + |b| {
      assert m in b;
    } else {
      assert m in c;
    }
  }

  lemma {:induction false} DedupedElements(ms: seq<Modifier>)
    ensures forall m :: m in Deduped(ms) <==> m in ms
    ensures forall i, j :: 0 <= i < j < |Deduped(ms)| ==> Deduped(ms)[i] != Deduped(ms)[j]
    ensures |Deduped(ms)| <= |ms|
  {
    if ms != [] {
      DedupedElements(ms[..|ms| - 1]);
      assert ms == ms[..|ms| - 1] + [ms[|ms| - 1]];
    }
  }

  predicate NoRepeats(ms: seq<Modifier>) {
    forall i, j :: 0 <= i < j < |ms| ==> ms[i] != ms[j]
  }

  lemma {:induction false} DedupedStays(ms: seq<Modifier>)
    requires NoRepeats(ms)
    ensures Deduped(ms) == ms
  {
    if ms != [] {
      var init := ms[..|ms| - 1];
      DedupedStays(init);
      assert ms == init + [ms[|ms| - 1]];
    }
  }

  lemma {:induction false} DedupedAppend(a: seq<Modifier>, b: seq<Modifier>)
    requires forall m :: m in a ==> m !in b
    ensures Deduped(a + b) == Deduped(a) + Deduped(b)
  {
    if b == [] {
      assert a + b == a;
    } else {
      var init, m := b[..|b| - 1], b[|b| - 1];
      assert (a + b)[..|a + b| - 1] == a + init;
      DedupedAppend(a, init);
      DedupedElements(a);
      assert m in b;
    }
  }

  /** Deduplicating a sorted list deduplicates its three runs. */
  lemma DedupedBuckets(ms: seq<Modifier>)
    ensures Deduped(SortedByRank(ms)) == Deduped(Bucket(ms, 0)) + Deduped(Bucket(ms, 1)) + Deduped(Bucket(ms, 2))
  {
    BucketOf(ms, 0);
    BucketOf(ms, 1);
    BucketOf(ms, 2);
    DedupedAppend(Bucket(ms, 0), Bucket(ms, 1));
    DedupedAppend(Bucket(ms, 0) + Bucket(ms, 1), Bucket(ms, 2));
  }

  /** So it stays sorted, and deduplicating again changes nothing. */
  lemma DedupedSorted(ms: seq<Modifier>)
    ensures var d := Deduped(SortedByRank(ms)); SortedByRank(d) == d && Deduped(d) == d
  {
    var a, b, c := Bucket(ms, 0), Bucket(ms, 1), Bucket(ms, 2);
    DedupedBuckets(ms);
    BucketOf(ms, 0);
    BucketOf(ms, 1);
    BucketOf(ms, 2);
    DedupedElements(a);
    DedupedElements(b);
    DedupedElements(c);
    SortedStays(Deduped(a), Deduped(b), Deduped(c));
    DedupedElements(SortedByRank(ms));
    DedupedStays(Deduped(SortedByRank(ms)));
  }

  // ---------- Idempotence ----------

  lemma NormalTokensAreClean(combo: string)
    ensures AllClean(NormalTokens(combo))
  {
    var parts := NonEmpty(Tokens(combo));
    TokensAreClean(combo);
    FirstKeyIsKey(parts);
    NamesReadBack(SortedByRank(Modifiers(parts)));
    NamesReadBack(Deduped(SortedByRank(Modifiers(parts))));
  }

  /** Normalising twice is normalising once, for every string. */
  lemma NormalizeIsIdempotent(combo: string)
    ensures NormalizeCombo(NormalizeCombo(combo)) == NormalizeCombo(combo)
  {
    var parts := NonEmpty(Tokens(combo));
    var ms := Modifiers(parts);
    var key := FirstKey(parts);
    NormalTokensAreClean(combo);
    JoinReadsBack(NormalTokens(combo));
    if key.None? {
      NamesReadBack(SortedByRank(ms));
      BucketOf(ms, 0);
      BucketOf(ms, 1);
      BucketOf(ms, 2);
      SortedStays(Bucket(ms, 0), Bucket(ms, 1), Bucket(ms, 2));
    } else {
      FirstKeyIsKey(parts);
      AppendKey(Deduped(SortedByRank(ms)), key.value);
      DedupedSorted(ms);
    }
  }

  // ---------- Normal form against meaning ----------

  lemma {:induction false} ModifiersIgnoreEmpty(tokens: seq<string>)
    ensures Modifiers(NonEmpty(tokens)) == Modifiers(tokens)
  {
    if tokens != [] {
      ModifiersIgnoreEmpty(tokens[1..]);
      if tokens[0] == "" {
        assert ClassOf("") == Key("");
        assert NonEmpty(tokens) == NonEmpty(tokens[1..]);
        assert Modifiers(tokens) == Modifiers(tokens[1..]);
      } else {
        assert NonEmpty(tokens)[0] == tokens[0] && NonEmpty(tokens)[1..] == NonEmpty(tokens[1..]);
      }
    }
  }

  lemma {:induction false} ModifiersSnoc(tokens: seq<string>, t: string)
    ensures Modifiers(tokens + [t]) == Modifiers(tokens) + if ClassOf(t).Mod? then [ClassOf(t).mod] else []
  {
    if tokens == [] {
      assert tokens + [t] == [t] && [t][1..] == [];
    } else {
      ModifiersSnoc(tokens[1..], t);
      assert (tokens + [t])[1..] == tokens[1..] + [t];
    }
  }

  /** A token sets its flag or the key, and nothing else. */
  lemma ReadSets(p: ParsedCombo, t: string)
    ensures var r, c := Read(p, t), ClassOf(t);
            && (r.ctrlOrMeta <==> p.ctrlOrMeta || c == Mod(Ctrl) || c == Mod(Meta))
            && (r.alt <==> p.alt || c == Mod(Alt)) && (r.shift <==> p.shift || c == Mod(Shift))
            && r.key == if c.Key? then t else p.key
  {
  }

  /** The parser's flags are which modifiers occur; its key is a token, or empty when there is none. */
  lemma {:induction false} FlagsAreModifiers(tokens: seq<string>)
    ensures var p := ReadAll(tokens);
            var ms := Modifiers(tokens);
            && (p.ctrlOrMeta <==> Ctrl in ms || Meta in ms)
            && (p.alt <==> Alt in ms)
            && (p.shift <==> Shift in ms)
            && (p.key != "" ==> p.key in tokens && ClassOf(p.key).Key?)
  {
    if tokens != [] {
      var init, t := tokens[..|tokens| - 1], tokens[|tokens| - 1];
      FlagsAreModifiers(init);
      ModifiersSnoc(init, t);
      ReadSets(ReadAll(init), t);
      assert tokens == init + [t];
    }
  }

  predicate HasMeta(combo: string) {
    Meta in Modifiers(NonEmpty(Tokens(combo)))
  }

  function KeyOf(combo: string): Option<string> {
    FirstKey(NonEmpty(Tokens(combo)))
  }

  predicate AllEqual(ms: seq<Modifier>, m: Modifier) {
    forall i :: 0 <= i < |ms| ==> ms[i] == m
  }

  lemma {:induction false} DedupedUniform(ms: seq<Modifier>, m: Modifier)
    requires AllEqual(ms, m)
    ensures Deduped(ms) == if ms == [] then [] else [m]
  {
    if ms != [] {
      DedupedUniform(ms[..|ms| - 1], m);
    }
  }

  function FlagNames(p: ParsedCombo): seq<Modifier> {
    (if p.ctrlOrMeta then [Ctrl] else []) + (if p.alt then [Alt] else []) + (if p.shift then [Shift] else [])
  }

  /** One rank's bucket, all the same modifier, deduplicates to that modifier if it occurs. */
  lemma BucketFlag(ms: seq<Modifier>, m: Modifier)
    requires Meta !in ms && m != Meta
    ensures Deduped(Bucket(ms, Rank(m))) == if m in ms then [m] else []
  {
    var b := Bucket(ms, Rank(m));
    BucketOf(ms, Rank(m));
    forall i | 0 <= i < |b|
      ensures b[i] == m
    {
      assert b[i] in b;
    }
    DedupedUniform(b, m);
    if b != [] {
      assert b[0] in b;
    }
  }

  lemma DedupedModifiers(ms: seq<Modifier>)
    requires Meta !in ms
    ensures Deduped(SortedByRank(ms))
         == (if Ctrl in ms then [Ctrl] else []) + (if Alt in ms then [Alt] else [])
            + (if Shift in ms then [Shift] else [])
  {
    DedupedBuckets(ms);
    BucketFlag(ms, Ctrl);
    BucketFlag(ms, Alt);
    BucketFlag(ms, Shift);
  }

  lemma DedupedIsFlags(combo: string)
    requires !HasMeta(combo)
    ensures Deduped(SortedByRank(Modifiers(NonEmpty(Tokens(combo))))) == FlagNames(ParseCombo(combo))
  {
    var tokens := Tokens(combo);
    assert Modifiers(NonEmpty(tokens)) == Modifiers(tokens) by { ModifiersIgnoreEmpty(tokens); }
    DedupedModifiers(Modifiers(tokens));
    FlagsAreModifiers(tokens);
  }

  lemma RenderTokensAre(p: ParsedCombo)
    ensures RenderTokens(p) == Names(FlagNames(p)) + if p.key != "" then [p.key] else []
  {
    assert Names([Ctrl]) == ["ctrl"] && Names([Alt]) == ["alt"] && Names([Shift]) == ["shift"];
    var f := FlagNames(p);
    var r := (if p.ctrlOrMeta then ["ctrl"] else []) + (if p.alt then ["alt"] else [])
             + (if p.shift then ["shift"] else []);
    assert |r| == |f| && forall i :: 0 <= i < |f| ==> r[i] == ModifierName(f[i]);
    assert Names(f) == r;
  }

  /** What the normal form stands for: the parsed modifiers with the first key. */
  function NormalMeaning(combo: string): ParsedCombo {
    ParseCombo(combo).(key := if KeyOf(combo).Some? then KeyOf(combo).value else "")
  }

  /** With a key and no `meta`, the normal form is the rendering of that meaning. */
  lemma NormalizeIsRender(combo: string)
    requires !HasMeta(combo) && KeyOf(combo).Some?
    ensures NormalTokens(combo) == RenderTokens(NormalMeaning(combo))
  {
    var parts := NonEmpty(Tokens(combo));
    FirstKeyIsKey(parts);
    DedupedIsFlags(combo);
    RenderTokensAre(NormalMeaning(combo));
  }

  ghost predicate ProperKey(key: string) {
    key == "" || (Clean(key) && ClassOf(key).Key?)
  }

  lemma ParsedKeyIsProper(combo: string)
    ensures ProperKey(ParseCombo(combo).key) && ProperKey(NormalMeaning(combo).key)
  {
    FlagsAreModifiers(Tokens(combo));
    TokensAreClean(combo);
    FirstKeyIsKey(NonEmpty(Tokens(combo)));
  }

  lemma RenderTokensAreClean(p: ParsedCombo)
    requires ProperKey(p.key)
    ensures AllClean(RenderTokens(p))
  {
    RenderTokensAre(p);
    NamesReadBack(FlagNames(p));
  }

  /** Different meanings render differently. */
  lemma RenderInjective(p: ParsedCombo, q: ParsedCombo)
    requires ProperKey(p.key) && ProperKey(q.key)
    ensures Render(p) == Render(q) ==> p == q
  {
    RenderTokensAreClean(p);
    RenderTokensAreClean(q);
    if Render(p) == Render(q) {
      JoinInjective(RenderTokens(p), RenderTokens(q));
      MeaningFromTokens(p);
      MeaningFromTokens(q);
      FlagsIn(p);
      FlagsIn(q);
    }
  }

  lemma FlagsIn(p: ParsedCombo)
    ensures var ms := FlagNames(p);
            && (p.ctrlOrMeta <==> Ctrl in ms) && (p.alt <==> Alt in ms) && (p.shift <==> Shift in ms) && Meta !in ms
  {
  }

  lemma MeaningFromTokens(p: ParsedCombo)
    requires ProperKey(p.key)
    ensures Modifiers(RenderTokens(p)) == FlagNames(p)
    ensures FirstKey(RenderTokens(p)) == if p.key == "" then None else Some(p.key)
  {
    RenderTokensAre(p);
    if p.key == "" {
      assert Names(FlagNames(p)) + [] == Names(FlagNames(p));
      NamesReadBack(FlagNames(p));
    } else {
      AppendKey(FlagNames(p), p.key);
    }
  }

  /** The last token that is not a modifier; an empty piece counts as an empty key. */
  function LastKey(tokens: seq<string>): string {
    if tokens == [] then ""
    else
      var t := tokens[|tokens| - 1];
      if ClassOf(t).Key? then t else LastKey(tokens[..|tokens| - 1])
  }

  lemma {:induction false} ParsedKeyIsLastKey(tokens: seq<string>)
    ensures ReadAll(tokens).key == LastKey(tokens)
  {
    if tokens != [] {
      ParsedKeyIsLastKey(tokens[..|tokens| - 1]);
    }
  }

  /**
   What the tokens of a combo must be for the two readings to agree: no `meta`, the first key token
   also the last, and, when there is none, no modifier twice.
   */
  predicate Agreeable(combo: string) {
    var tokens := Tokens(combo);
    && Meta !in Modifiers(tokens)
    && match FirstKey(NonEmpty(tokens))
       case Some(key) => key == LastKey(tokens)
       case None => NoRepeats(Modifiers(tokens))
  }

  lemma {:induction false} CountBucket(ms: seq<Modifier>, rank: int, m: Modifier)
    ensures multiset(Bucket(ms, rank))[m] == if Rank(m) == rank then multiset(ms)[m] else 0
  {
    if ms != [] {
      CountBucket(ms[1..], rank, m);
      assert ms == [ms[0]] + ms[1..];
    }
  }

  lemma CountSorted(ms: seq<Modifier>)
    ensures multiset(SortedByRank(ms)) == multiset(ms)
  {
    var a, b, c := Bucket(ms, 0), Bucket(ms, 1), Bucket(ms, 2);
    assert multiset(a + b + c) == multiset(a) + multiset(b) + multiset(c);
    forall m
      ensures multiset(SortedByRank(ms))[m] == multiset(ms)[m]
    {
      CountBucket(ms, 0, m);
      CountBucket(ms, 1, m);
      CountBucket(ms, 2, m);
    }
  }

  lemma {:induction false} RepeatsCounted(ms: seq<Modifier>)
    ensures NoRepeats(ms) <==> forall m :: m in ms ==> multiset(ms)[m] == 1
  {
    if ms != [] {
      var n := |ms| - 1;
      var init, last := ms[..n], ms[n];
      RepeatsCounted(init);
      assert ms == init + [last];
      assert multiset(ms) == multiset(init) + multiset{last};
      assert NoRepeats(ms) <==> NoRepeats(init) && last !in init;
      assert last !in init <==> multiset(ms)[last] == 1;
      if NoRepeats(ms) {
        forall m | m in ms
          ensures multiset(ms)[m] == 1
        {
          assert m == last || m in init;
        }
      } else if last !in init {
        var m :| m in init && multiset(init)[m] != 1;
        assert m in ms && multiset(ms)[m] != 1;
      }
    }
  }

  lemma SortKeepsRepeats(ms: seq<Modifier>)
    ensures NoRepeats(SortedByRank(ms)) <==> NoRepeats(ms)
  {
    CountSorted(ms);
    RepeatsCounted(ms);
    RepeatsCounted(SortedByRank(ms));
  }

  lemma KeylessParsesEmpty(tokens: seq<string>)
    requires FirstKey(NonEmpty(tokens)).None?
    ensures ReadAll(tokens).key == ""
  {
    FlagsAreModifiers(tokens);
    FirstKeyIsKey(NonEmpty(tokens));
  }

  lemma AgreeableMeans(combo: string)
    ensures Agreeable(combo) <==> !HasMeta(combo) &&
                                  if KeyOf(combo).Some? then KeyOf(combo).value == ParseCombo(combo).key
                                  else NoRepeats(SortedByRank(Modifiers(NonEmpty(Tokens(combo)))))
  {
    ModifiersIgnoreEmpty(Tokens(combo));
    ParsedKeyIsLastKey(Tokens(combo));
    SortKeepsRepeats(Modifiers(Tokens(combo)));
  }

  lemma KeyedTokensAgree(combo: string)
    requires KeyOf(combo).Some? && NormalTokens(combo) == RenderTokens(ParseCombo(combo))
    ensures !HasMeta(combo) && KeyOf(combo).value == ParseCombo(combo).key
  {
    var ms := Modifiers(NonEmpty(Tokens(combo)));
    ParsedKeyIsProper(combo);
    MeaningFromTokens(ParseCombo(combo));
    FlagsIn(ParseCombo(combo));
    FirstKeyIsKey(NonEmpty(Tokens(combo)));
    AppendKey(Deduped(SortedByRank(ms)), KeyOf(combo).value);
    MetaSurvives(ms);
  }

  lemma FlagsAreDistinct(p: ParsedCombo)
    ensures NoRepeats(FlagNames(p)) && Meta !in FlagNames(p)
  {
  }

  lemma KeylessTokensAgree(combo: string)
    requires KeyOf(combo).None? && NormalTokens(combo) == RenderTokens(ParseCombo(combo))
    ensures !HasMeta(combo) && NoRepeats(SortedByRank(Modifiers(NonEmpty(Tokens(combo)))))
  {
    var ms := Modifiers(NonEmpty(Tokens(combo)));
    var sorted, flags := SortedByRank(ms), FlagNames(ParseCombo(combo));
    assert sorted == flags by {
      ParsedKeyIsProper(combo);
      MeaningFromTokens(ParseCombo(combo));
      NamesReadBack(sorted);
    }
    FlagsAreDistinct(ParseCombo(combo));
    MetaSurvives(ms);
  }

  lemma KeylessIsRender(combo: string)
    requires KeyOf(combo).None? && !HasMeta(combo) && NoRepeats(SortedByRank(Modifiers(NonEmpty(Tokens(combo)))))
    ensures NormalTokens(combo) == RenderTokens(ParseCombo(combo))
  {
    DedupedStays(SortedByRank(Modifiers(NonEmpty(Tokens(combo)))));
    DedupedIsFlags(combo);
    KeylessParsesEmpty(Tokens(combo));
    RenderTokensAre(ParseCombo(combo));
  }

  lemma TokensAgreeExactlyWhen(combo: string)
    ensures NormalTokens(combo) == RenderTokens(ParseCombo(combo)) <==> Agreeable(combo)
  {
    AgreeableMeans(combo);
    if NormalTokens(combo) == RenderTokens(ParseCombo(combo)) {
      if KeyOf(combo).Some? {
        KeyedTokensAgree(combo);
      } else {
        KeylessTokensAgree(combo);
      }
    } else if Agreeable(combo) {
      if KeyOf(combo).Some? {
        NormalizeIsRender(combo);
      } else {
        KeylessIsRender(combo);
      }
    }
  }

  /** The normal form is the rendering of what the parser understood exactly on agreeable combos. */
  lemma NormalizeMeansParseExactlyWhen(combo: string)
    ensures NormalizeCombo(combo) == Render(ParseCombo(combo)) <==> Agreeable(combo)
  {
    ParsedKeyIsProper(combo);
    NormalTokensAreClean(combo);
    RenderTokensAreClean(ParseCombo(combo));
    if NormalizeCombo(combo) == Render(ParseCombo(combo)) {
      JoinInjective(NormalTokens(combo), RenderTokens(ParseCombo(combo)));
    }
    TokensAgreeExactlyWhen(combo);
  }

  lemma MetaSurvives(ms: seq<Modifier>)
    ensures Meta in SortedByRank(ms) <==> Meta in ms
    ensures Meta in Deduped(SortedByRank(ms)) <==> Meta in ms
  {
    BucketOf(ms, 0);
    BucketOf(ms, 1);
    BucketOf(ms, 2);
    DedupedElements(SortedByRank(ms));
  }

  /** So on agreeable combos, the same normal form means the same shortcut, and conversely. */
  lemma SameNormalFormIffSameMeaning(a: string, b: string)
    requires Agreeable(a) && Agreeable(b)
    ensures NormalizeCombo(a) == NormalizeCombo(b) <==> ParseCombo(a) == ParseCombo(b)
  {
    NormalizeMeansParseExactlyWhen(a);
    NormalizeMeansParseExactlyWhen(b);
    ParsedKeyIsProper(a);
    ParsedKeyIsProper(b);
    RenderInjective(ParseCombo(a), ParseCombo(b));
  }

  // ---------- Reserved combos ----------

  const CTRL_KEYS: set<string> := {"r", "t", "w", "n", "l"}
  const CTRL_SHIFT_KEYS: set<string> := {"t", "n", "w"}
  const BARE_KEYS: set<string> := {"f5", "f11", "f12"}

  /** The meanings a browser keeps for itself. */
  predicate ReservedMeaning(p: ParsedCombo) {
    !p.alt &&
    if p.ctrlOrMeta then
      if p.shift then p.key in CTRL_SHIFT_KEYS else p.key in CTRL_KEYS
    else !p.shift && p.key in BARE_KEYS
  }

  lemma JoinOptional(b: bool, x: string, ts: seq<string>)
    requires ts != []
    ensures Join((if b then [x] else []) + ts) == (if b then x + "+" else "") + Join(ts)
  {
    if b {
      assert ([x] + ts)[1..] == ts;
    } else {
      assert [] + ts == ts;
    }
  }

  lemma RenderShape(p: ParsedCombo)
    requires p.key != ""
    ensures Render(p) == (if p.ctrlOrMeta then "ctrl" + "+" else "") + ((if p.alt then "alt" + "+" else "")
                         + ((if p.shift then "shift" + "+" else "") + p.key))
  {
    var k := [p.key];
    var s := (if p.shift then ["shift"] else []) + k;
    var a := (if p.alt then ["alt"] else []) + s;
    JoinOptional(p.shift, "shift", k);
    JoinOptional(p.alt, "alt", s);
    JoinOptional(p.ctrlOrMeta, "ctrl", a);
    assert RenderTokens(p) == (if p.ctrlOrMeta then ["ctrl"] else []) + a;
  }

  lemma LetterIsProper(k: string)
    requires |k| == 1 && 'a' <= k[0] <= 'z'
    ensures ProperKey(k)
  {
    assert Trimmed(k) && Lower(k) == k;
  }

  lemma FunctionKeyIsProper(k: string)
    requires 2 <= |k| <= 3 && k[0] == 'f' && forall i :: 1 <= i < |k| ==> '0' <= k[i] <= '9'
    ensures ProperKey(k)
  {
    assert Trimmed(k) && Lower(k) == k;
  }

  lemma ReservedKeysAreProper(k: string)
    requires k in CTRL_KEYS || k in CTRL_SHIFT_KEYS || k in BARE_KEYS
    ensures ProperKey(k) && k != ""
  {
    if k in BARE_KEYS {
      FunctionKeyIsProper(k);
    } else {
      LetterIsProper(k);
    }
  }

  lemma CtrlSpellings()
    ensures "ctrl+" + "r" == "ctrl+r" && "ctrl+" + "t" == "ctrl+t" && "ctrl+" + "w" == "ctrl+w"
    ensures "ctrl+" + "n" == "ctrl+n" && "ctrl+" + "l" == "ctrl+l"
  {
  }

  lemma CtrlShiftSpellings()
    ensures "ctrl+shift+" + "t" == "ctrl+shift+t" && "ctrl+shift+" + "n" == "ctrl+shift+n"
    ensures "ctrl+shift+" + "w" == "ctrl+shift+w"
  {
  }

  /** Reserved meanings render to reserved strings. */
  lemma ReservedRender(p: ParsedCombo)
    requires ReservedMeaning(p)
    ensures Render(p) in RESERVED_COMBOS
  {
    RenderShape(p);
    if !p.ctrlOrMeta {
      assert "" + ("" + ("" + p.key)) == p.key;
    } else if !p.shift {
      assert "ctrl" + "+" + ("" + ("" + p.key)) == "ctrl+" + p.key;
      CtrlSpellings();
    } else {
      assert "ctrl" + "+" + ("" + ("shift" + "+" + p.key)) == "ctrl+shift+" + p.key;
      CtrlShiftSpellings();
    }
  }

  /** Each reserved string renders a reserved meaning. */
  lemma ReservedPreimage(s: string) returns (q: ParsedCombo)
    requires s in RESERVED_COMBOS
    ensures ReservedMeaning(q) && ProperKey(q.key) && q.key != "" && Render(q) == s
  {
    if s in BARE_KEYS {
      q := ParsedCombo(false, false, false, s);
      RenderShape(q);
      assert "" + ("" + ("" + s)) == s;
    } else if s in {"ctrl+shift+t", "ctrl+shift+n", "ctrl+shift+w"} {
      q := ParsedCombo(true, true, false, s[11..]);
      assert s[11..] in CTRL_SHIFT_KEYS by { CtrlShiftStrings(s); }
      RenderShape(q);
      assert "ctrl" + "+" + ("" + ("shift" + "+" + s[11..])) == s by { CtrlShiftStrings(s); }
    } else {
      q := ParsedCombo(true, false, false, s[5..]);
      assert s[5..] in CTRL_KEYS by { CtrlStrings(s); }
      RenderShape(q);
      assert "ctrl" + "+" + ("" + ("" + s[5..])) == s by { CtrlStrings(s); }
    }
    ReservedKeysAreProper(q.key);
  }

  lemma CtrlShiftStrings(s: string)
    requires s in {"ctrl+shift+t", "ctrl+shift+n", "ctrl+shift+w"}
    ensures |s| == 12 && s[..11] == "ctrl+shift+" && s[11..] in CTRL_SHIFT_KEYS && s == s[..11] + s[11..]
  {
    assert s[11..] == [s[11]];
  }

  lemma CtrlStrings(s: string)
    requires s in {"ctrl+r", "ctrl+t", "ctrl+w", "ctrl+n", "ctrl+l"}
    ensures |s| == 6 && s[..5] == "ctrl+" && s[5..] in CTRL_KEYS && s == s[..5] + s[5..]
  {
    assert s[5..] == [s[5]];
  }

  /** A rendering is reserved exactly when its meaning is. */
  lemma ReservedRenderings(p: ParsedCombo)
    requires p.key != "" && ProperKey(p.key)
    ensures Render(p) in RESERVED_COMBOS <==> ReservedMeaning(p)
  {
    if ReservedMeaning(p) {
      ReservedRender(p);
    } else if Render(p) in RESERVED_COMBOS {
      var q := ReservedPreimage(Render(p));
      RenderInjective(p, q);
    }
  }

  /**
   The reserved check, for every string: it fires exactly when no token is `meta` and the modifiers
   with the first key mean a reserved combo.
   */
  lemma ReservedExactlyWhen(combo: string)
    ensures IsReserved(combo) <==> !HasMeta(combo) && ReservedMeaning(NormalMeaning(combo))
  {
    if !HasMeta(combo) && KeyOf(combo).Some? {
      KeyedReservedExactlyWhen(combo);
    } else {
      if IsReserved(combo) {
        ReservedHasShape(combo);
      }
      EmptyKeyIsFree(NormalMeaning(combo));
    }
  }

  lemma EmptyKeyIsFree(p: ParsedCombo)
    ensures ReservedMeaning(p) ==> p.key != ""
  {
  }

  lemma KeyedReservedExactlyWhen(combo: string)
    requires !HasMeta(combo) && KeyOf(combo).Some?
    ensures IsReserved(combo) <==> ReservedMeaning(NormalMeaning(combo))
  {
    NormalizeIsRender(combo);
    ParsedKeyIsProper(combo);
    TokensAreClean(combo);
    FirstKeyIsKey(NonEmpty(Tokens(combo)));
    ReservedRenderings(NormalMeaning(combo));
  }

  lemma ReservedHasShape(combo: string)
    requires IsReserved(combo)
    ensures !HasMeta(combo) && KeyOf(combo).Some?
  {
    var parts := NonEmpty(Tokens(combo));
    var ms := Modifiers(parts);
    var q := ReservedPreimage(NormalizeCombo(combo));
    NormalTokensAreClean(combo);
    RenderTokensAreClean(q);
    JoinInjective(NormalTokens(combo), RenderTokens(q));
    MeaningFromTokens(q);
    FlagsIn(q);
    MetaSurvives(ms);
    NamesReadBack(SortedByRank(ms));
    FirstKeyIsKey(parts);
    if KeyOf(combo).Some? {
      AppendKey(Deduped(SortedByRank(ms)), KeyOf(combo).value);
    }
  }

  /** The keys a browser keeps under these modifiers, `meta` counting as Ctrl. */
  function KeysKept(ms: seq<Modifier>): set<string> {
    if Alt in ms then {}
    else if Ctrl in ms || Meta in ms then if Shift in ms then CTRL_SHIFT_KEYS else CTRL_KEYS
    else if Shift in ms then {} else BARE_KEYS
  }

  /** A key kept by the browser, or none. */
  predicate Kept(ms: seq<Modifier>, key: Option<string>) {
    key.Some? && key.value in KeysKept(ms)
  }

  /** The combo, as the dispatcher reads it, is one the browser keeps. */
  predicate ReadsReserved(combo: string) {
    ReservedMeaning(ParseCombo(combo))
  }

  lemma ReadsReservedByLastKey(combo: string)
    ensures ReadsReserved(combo) <==> LastKey(Tokens(combo)) in KeysKept(Modifiers(Tokens(combo)))
  {
    FlagsAreModifiers(Tokens(combo));
    ParsedKeyIsLastKey(Tokens(combo));
  }

  lemma IsReservedByFirstKey(combo: string)
    ensures var ms := Modifiers(Tokens(combo));
            IsReserved(combo) <==> Meta !in ms && Kept(ms, FirstKey(NonEmpty(Tokens(combo))))
  {
    ReservedExactlyWhen(combo);
    ModifiersIgnoreEmpty(Tokens(combo));
    FlagsAreModifiers(Tokens(combo));
    EmptyKeyIsFree(NormalMeaning(combo));
  }

  /** The tokens let a combo the browser keeps past the check: a `meta`, or a last key kept where the first is not. */
  predicate SlipsPast(combo: string) {
    var tokens := Tokens(combo);
    var ms := Modifiers(tokens);
    LastKey(tokens) in KeysKept(ms) && (Meta in ms || !Kept(ms, FirstKey(NonEmpty(tokens))))
  }

  /** The tokens make the check stop a combo the browser does not keep: no `meta`, and only the first key is kept. */
  predicate StoppedInVain(combo: string) {
    var tokens := Tokens(combo);
    var ms := Modifiers(tokens);
    Meta !in ms && Kept(ms, FirstKey(NonEmpty(tokens))) && LastKey(tokens) !in KeysKept(ms)
  }

  /** The check against what the dispatcher reads, for every string: where each of its two errors lies. */
  lemma CheckErrsExactlyWhen(combo: string)
    ensures ReadsReserved(combo) && !IsReserved(combo) <==> SlipsPast(combo)
    ensures IsReserved(combo) && !ReadsReserved(combo) <==> StoppedInVain(combo)
  {
    ReadsReservedByLastKey(combo);
    IsReservedByFirstKey(combo);
  }

  /** So the check is decided by meaning, however the combo is spelled, exactly on the other strings. */
  lemma ReservedByMeaningExactlyWhen(combo: string)
    ensures (IsReserved(combo) <==> ReadsReserved(combo)) <==> !SlipsPast(combo) && !StoppedInVain(combo)
  {
    CheckErrsExactlyWhen(combo);
  }

  /** Agreeable combos are among them. */
  lemma AgreeableIsDecidedByMeaning(combo: string)
    requires Agreeable(combo)
    ensures IsReserved(combo) <==> ReadsReserved(combo)
  {
    ReservedExactlyWhen(combo);
    AgreeableMeans(combo);
    if KeyOf(combo).None? {
      KeylessParsesEmpty(Tokens(combo));
    }
  }

  // ---------- Combos that slip past, and combos stopped in vain ----------

  /** Clean tokens joined are read as they are. */
  lemma JoinedTokens(ts: seq<string>)
    requires ts != [] && AllClean(ts)
    ensures Tokens(Join(ts)) == ts && NonEmpty(ts) == ts
  {
    SplitUndoesJoin(ts);
    CleanTokensStay(ts);
  }

  /** Clean tokens with these modifiers, first key and last key. */
  ghost predicate ReadsAs(ts: seq<string>, ms: seq<Modifier>, first: string, last: string) {
    AllClean(ts) && Modifiers(ts) == ms && FirstKey(ts) == Some(first) && LastKey(ts) == last
  }

  lemma OneKey(ms: seq<Modifier>, key: string)
    requires Clean(key) && ClassOf(key).Key?
    ensures ReadsAs(Names(ms) + [key], ms, key, key)
  {
    NamesReadBack(ms);
    AppendKey(ms, key);
  }

  lemma OneMoreKey(ts: seq<string>, ms: seq<Modifier>, first: string, last: string, t: string)
    requires ReadsAs(ts, ms, first, last) && Clean(t) && ClassOf(t).Key?
    ensures ReadsAs(ts + [t], ms, first, t)
  {
    ModifiersSnoc(ts, t);
    FirstKeySnoc(ts, t);
  }

  lemma {:induction false} FirstKeySnoc(tokens: seq<string>, t: string)
    requires FirstKey(tokens).Some?
    ensures FirstKey(tokens + [t]) == FirstKey(tokens)
  {
    assert (tokens + [t])[1..] == tokens[1..] + [t];
    if ClassOf(tokens[0]).Mod? {
      FirstKeySnoc(tokens[1..], t);
    }
  }

  /** How the two judge tokens joined to a combo: the check by the first key, the dispatcher by the last. */
  lemma JudgedByKeys(ts: seq<string>, ms: seq<Modifier>, first: string, last: string)
    requires ReadsAs(ts, ms, first, last)
    ensures IsReserved(Join(ts)) <==> Meta !in ms && first in KeysKept(ms)
    ensures ReadsReserved(Join(ts)) <==> last in KeysKept(ms)
    ensures ParseCombo(Join(ts)) == ParsedCombo(Ctrl in ms || Meta in ms, Shift in ms, Alt in ms, last)
  {
    JoinedTokens(ts);
    IsReservedByFirstKey(Join(ts));
    ReadsReservedByLastKey(Join(ts));
    FlagsAreModifiers(ts);
    ParsedKeyIsLastKey(ts);
  }

  /**
   `meta` evades the check: every kept Ctrl or Ctrl+Shift key has a Meta spelling that parses the same
   and is accepted.
   */
  lemma MetaEvadesTheCheck(ms: seq<Modifier>, k: string)
    requires Ctrl in ms && Meta !in ms && k in KeysKept(ms)
    ensures var c, m := Join(Names(ms) + [k]), Join(Names([Meta] + ms) + [k]);
            ParseCombo(c) == ParseCombo(m) && IsReserved(c) && !IsReserved(m)
  {
    KeptKeysAreKeys(ms, k);
    OneKey(ms, k);
    OneKey([Meta] + ms, k);
    JudgedByKeys(Names(ms) + [k], ms, k, k);
    JudgedByKeys(Names([Meta] + ms) + [k], [Meta] + ms, k, k);
  }

  lemma KeptKeysAreKeys(ms: seq<Modifier>, k: string)
    requires k in KeysKept(ms)
    ensures Clean(k) && ClassOf(k).Key?
  {
    ReservedKeysAreProper(k);
  }

  lemma TwoKeysAreJudged(ms: seq<Modifier>, a: string, b: string)
    requires Clean(a) && ClassOf(a).Key? && Clean(b) && ClassOf(b).Key?
    ensures var combo := Join(Names(ms) + [a] + [b]);
            (IsReserved(combo) <==> Meta !in ms && a in KeysKept(ms)) && (ReadsReserved(combo) <==> b in KeysKept(ms))
  {
    OneKey(ms, a);
    OneMoreKey(Names(ms) + [a], ms, a, a, b);
    JudgedByKeys(Names(ms) + [a] + [b], ms, a, b);
  }

  /**
   So does a key put first: a key the browser does not keep, before one it keeps, makes a combo that is
   read as the kept one and accepted. The other way round the combo is stopped, unless it has `meta`,
   though it is read as a free one.
   */
  lemma FirstKeyEvadesTheCheck(ms: seq<Modifier>, first: string, k: string)
    requires k in KeysKept(ms) && Clean(first) && ClassOf(first).Key? && first !in KeysKept(ms)
    ensures var combo := Join(Names(ms) + [first] + [k]);
            ReadsReserved(combo) && !IsReserved(combo)
    ensures var combo := Join(Names(ms) + [k] + [first]);
            !ReadsReserved(combo) && (IsReserved(combo) <==> Meta !in ms)
  {
    KeptKeysAreKeys(ms, k);
    TwoKeysAreJudged(ms, first, k);
    TwoKeysAreJudged(ms, k, first);
  }
}
