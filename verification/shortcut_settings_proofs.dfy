/** Which reserved combos a session can bind, as the check spells them and as the dispatcher reads them. */
module ShortcutSettingsProofs {
  import opened Wrappers
  import opened JsonValues
  import opened Shortcuts
  import opened ShortcutsProofs
  import opened ShortcutSpelling
  import opened ShortcutSettings

  /** A one-character key that is neither a letter, a space nor a plus sign. */
  predicate PlainKey(k: string) {
    |k| == 1 && !IsSpace(k[0]) && k[0] != '+' && !('A' <= k[0] <= 'Z') && !('a' <= k[0] <= 'z')
  }

  lemma PlainKeyIsProper(k: string)
    requires PlainKey(k)
    ensures Clean(k) && ClassOf(k).Key?
  {
    assert Trimmed(k) && Lower(k) == k;
  }

  lemma CtrlLowers()
    ensures Lower(Trim("Ctrl")) == "ctrl"
  {
    assert Trimmed("Ctrl");
    assert Lower("Ctrl") == "ctrl";
  }

  lemma CtrlKeyTokens(k: string)
    requires PlainKey(k)
    ensures Tokens(Join(["Ctrl", k])) == ["ctrl", k] && NonEmpty(["ctrl", k]) == ["ctrl", k]
  {
    var ts := ["Ctrl", k];
    PlainKeyIsProper(k);
    CtrlLowers();
    SplitUndoesJoin(ts);
    assert Cleaned(ts) == ["ctrl", k];
    NamesAreClean(Ctrl);
    CleanTokensStay(["ctrl", k]);
  }

  lemma CtrlPlainKeyIsFree(k: string)
    requires PlainKey(k)
    ensures !IsReserved(Join(["Ctrl", k])) && !ReadsReserved(Join(["Ctrl", k]))
  {
    var s := Join(["Ctrl", k]);
    PlainKeyIsProper(k);
    CtrlKeyTokens(k);
    KeyAfterCtrl(k);
    NotAKeptKey(Modifiers(["ctrl", k]), k);
    ReadsReservedByLastKey(s);
    IsReservedByFirstKey(s);
  }

  lemma KeyAfterCtrl(k: string)
    requires ClassOf(k).Key?
    ensures FirstKey(["ctrl", k]) == Some(k) && LastKey(["ctrl", k]) == k
  {
    var ts := ["ctrl", k];
    assert ClassOf(ts[0]) == Mod(Ctrl);
    assert ts[1..] == [k];
    assert FirstKey([k]) == Some(k);
  }

  lemma NotAKeptKey(ms: seq<Modifier>, k: string)
    requires PlainKey(k)
    ensures k !in KeysKept(ms)
  {
  }

  lemma DefaultSpelling(k: string, s: string)
    requires PlainKey(k) && s == "Ctrl+" + k
    ensures !IsReserved(s) && !ReadsReserved(s)
  {
    assert ["Ctrl", k][1..] == [k];
    assert Join(["Ctrl", k]) == "Ctrl" + "+" + k == s;
    CtrlPlainKeyIsFree(k);
  }

  /** The shipped defaults: each action on Ctrl and one plain key. */
  function DefaultKey(action: string): string {
    if action == "workspace.preset.edit" then "1"
    else if action == "workspace.preset.review" then "2"
    else if action == "workspace.preset.render" then "3"
    else ","
  }

  const DEFAULT_SHORTCUTS: Registry :=
    var actions := ["workspace.preset.edit", "workspace.preset.review", "workspace.preset.render", "settings.toggle"];
    Registry(actions, map a | a in actions :: "Ctrl+" + DefaultKey(a))

  lemma DefaultKeyIsPlain(action: string)
    ensures PlainKey(DefaultKey(action))
  {
  }

  /** No default is a combo the browser keeps, as the dispatcher reads it. */
  ghost predicate DefaultsReadFree(g: Registry) {
    forall a :: a in g.defaults ==> !ReadsReserved(g.defaults[a])
  }

  lemma ShippedActionsAreDistinct()
    ensures Complete(DEFAULT_SHORTCUTS)
  {
    var actions := DEFAULT_SHORTCUTS.actions;
    assert |actions[0]| == 21 && |actions[1]| == 23 && |actions[2]| == 23 && |actions[3]| == 15;
    assert actions[1][19] == 'v' && actions[2][19] == 'n';
  }

  lemma DefaultIsFree(action: string)
    requires action in DEFAULT_SHORTCUTS.defaults
    ensures !IsReserved(DEFAULT_SHORTCUTS.defaults[action]) && !ReadsReserved(DEFAULT_SHORTCUTS.defaults[action])
  {
    DefaultKeyIsPlain(action);
    DefaultSpelling(DefaultKey(action), DEFAULT_SHORTCUTS.defaults[action]);
  }

  lemma ShippedDefaultsAreFree()
    ensures Complete(DEFAULT_SHORTCUTS) && DefaultsAreFree(DEFAULT_SHORTCUTS) && DefaultsReadFree(DEFAULT_SHORTCUTS)
  {
    ShippedActionsAreDistinct();
    forall a | a in DEFAULT_SHORTCUTS.defaults
      ensures !IsReserved(DEFAULT_SHORTCUTS.defaults[a]) && !ReadsReserved(DEFAULT_SHORTCUTS.defaults[a])
    {
      DefaultIsFree(a);
    }
  }

  // ---------- Reserved as the check spells it, and as the dispatcher reads it ----------

  /** From defaults that are free, no run of updates and resets ever binds a combo the check stops. */
  lemma NeverReservedFromDefaults(g: Registry, h: seq<Action>, action: string)
    requires Complete(g) && DefaultsAreFree(g) && action in g.defaults
    ensures action in Run(g, g.defaults, h) && !IsReserved(Run(g, g.defaults, h)[action])
  {
    ReservedOnlyFromStorage(g, g.defaults, h, action);
  }

  lemma {:induction false} AllSpaces(s: string)
    requires Trim(s) == ""
    ensures forall i :: 0 <= i < |s| ==> IsSpace(s[i])
    decreases |s|
  {
    if s != "" && IsSpace(s[0]) {
      AllSpaces(s[1..]);
      assert s == [s[0]] + s[1..];
    } else if s != "" && IsSpace(s[|s| - 1]) {
      AllSpaces(s[..|s| - 1]);
      assert false;
    }
  }

  /** A blank combo is a single empty token. */
  lemma BlankTokens(combo: string)
    requires Trim(combo) == ""
    ensures Tokens(combo) == [""]
  {
    AllSpaces(combo);
    assert IndexOf(combo, '+') == |combo|;
    assert Cleaned([combo]) == [Lower(Trim(combo))];
  }

  /** An update with a combo that slips past the check is accepted. */
  lemma SlippingIsAccepted(m: Bindings, action: string, combo: string)
    requires action in m && SlipsPast(combo)
    ensures Check(m, UpdateShortcut(action, combo)) == Done
  {
    CheckErrsExactlyWhen(combo);
    if Trim(combo) == "" {
      BlankTokens(combo);
      BlankIsFree(Modifiers(Tokens(combo)));
    }
  }

  lemma BlankIsFree(ms: seq<Modifier>)
    ensures "" !in KeysKept(ms) && LastKey([""]) == ""
  {
  }

  /** The last step that rebound the action was an update with a combo that slips past the check. */
  predicate SlippedIn(g: Registry, start: Bindings, h: seq<Action>, action: string) {
    h != [] &&
    var last := h[|h| - 1];
    if Rebinds(Run(g, start, h[..|h| - 1]), last, action) then last.UpdateShortcut? && SlipsPast(last.combo)
    else SlippedIn(g, start, h[..|h| - 1], action)
  }

  /**
   After any run, an action answers to a combo the browser keeps exactly when it did at the start and
   nothing has rebound it, or the last update accepted for it slipped past the check.
   */
  lemma {:induction false} ReadsReservedExactlyWhen(g: Registry, start: Bindings, h: seq<Action>, action: string)
    requires Complete(g) && Valid(g, start) && action in start && DefaultsReadFree(g)
    ensures action in Run(g, start, h)
    ensures ReadsReserved(Run(g, start, h)[action])
       <==> (ReadsReserved(start[action]) && !Rebound(g, start, h, action)) || SlippedIn(g, start, h, action)
  {
    if h != [] {
      var before, a := h[..|h| - 1], h[|h| - 1];
      ReadsReservedExactlyWhen(g, start, before, action);
      RunStaysValid(g, start, before);
      StepBinds(g, Run(g, start, before), a, action);
      if a.UpdateShortcut? && Rebinds(Run(g, start, before), a, action) {
        DoneIsFree(Run(g, start, before), a);
        CheckErrsExactlyWhen(a.combo);
      }
    }
  }

  predicate BoundAfter(g: Registry, start: Bindings, h: seq<Action>, action: string, combo: string) {
    action in Run(g, start, h) && Run(g, start, h)[action] == combo
  }

  lemma {:induction false} BoundIsAllowed(g: Registry, start: Bindings, h: seq<Action>, action: string, combo: string)
    requires Complete(g) && Valid(g, start) && action in start && BoundAfter(g, start, h, action, combo)
    ensures combo == start[action] || combo == g.defaults[action] || (Trim(combo) != "" && !IsReserved(combo))
  {
    if h != [] {
      var before := h[..|h| - 1];
      RunStaysValid(g, start, before);
      StepBinds(g, Run(g, start, before), h[|h| - 1], action);
      if BoundAfter(g, start, before, action, combo) {
        BoundIsAllowed(g, start, before, action, combo);
      }
    }
  }

  /**
   What an update answers, and what it does: the first of the three checks that fails, and nothing; or the
   new combo for that action alone. A reset restores every default.
   */
  lemma UpdateAnswers(g: Registry, m: Bindings, action: string, combo: string)
    ensures var r, after := Check(m, UpdateShortcut(action, combo)), Act(g, m, UpdateShortcut(action, combo));
            && (r == UnknownAction <==> action !in m)
            && (r == EmptyCombo <==> action in m && Blank(combo))
            && (r == ReservedCombo <==> action in m && IsReserved(combo))
            && (r != Done ==> after == m)
            && (r == Done ==> after.Keys == m.Keys && after[action] == combo
                              && forall other :: other in m && other != action ==> after[other] == m[other])
    ensures Act(g, m, ResetDefaults) == g.defaults
  {
    BlankExactlyWhen(combo);
    if Blank(combo) {
      BlankIsNotReserved(combo);
    }
  }

  lemma BlankExactlyWhen(combo: string)
    ensures Trim(combo) == "" <==> Blank(combo)
  {
    if Blank(combo) {
      TrimBlank(combo);
    }
    if Trim(combo) == "" {
      AllSpaces(combo);
    }
  }

  lemma BlankIsNotReserved(combo: string)
    requires Blank(combo)
    ensures !IsReserved(combo)
  {
    TrimBlank(combo);
    BlankTokens(combo);
    IsReservedByFirstKey(combo);
    assert NonEmpty([""]) == [];
  }

  /** Which combos can be bound at all: the one found at the start, the default, and any not blank or reserved. */
  lemma BindableExactlyWhen(g: Registry, start: Bindings, action: string, combo: string)
    requires Complete(g) && Valid(g, start) && action in start
    ensures (exists h :: BoundAfter(g, start, h, action, combo))
       <==> combo == start[action] || combo == g.defaults[action] || (!Blank(combo) && !IsReserved(combo))
  {
    BlankExactlyWhen(combo);
    if h :| BoundAfter(g, start, h, action, combo) {
      BoundIsAllowed(g, start, h, action, combo);
    }
    if combo == start[action] {
      assert BoundAfter(g, start, [], action, combo);
    } else if combo == g.defaults[action] {
      OneUpdate(g, start, ResetDefaults);
      assert BoundAfter(g, start, [ResetDefaults], action, combo);
    } else if !Blank(combo) && !IsReserved(combo) {
      OneUpdate(g, start, UpdateShortcut(action, combo));
      assert BoundAfter(g, start, [UpdateShortcut(action, combo)], action, combo);
    }
  }

  /** Only a step that does something is written: a reset clears storage, an update stores what loads as its result. */
  lemma WrittenExactlyWhen(g: Registry, m: Bindings, stored: Stored, a: Action)
    requires Complete(g) && Valid(g, m)
    ensures var after := Persist(g, m, stored, a);
            && (Check(m, a) != Done ==> after == stored)
            && (a.ResetDefaults? ==> after == Absent)
            && (a.UpdateShortcut? && Check(m, a) == Done ==> after.Parsed? && Load(g, after) == Act(g, m, a))
  {
    ActKeepsValid(g, m, a);
    LoadUndoesSave(g, Act(g, m, a));
  }

  /**
   Which combos that the browser keeps can be bound at all: other than the one found at the start and
   the default, some run binds it exactly when it slips past the check.
   */
  lemma KeptComboBindableExactlyWhen(g: Registry, start: Bindings, action: string, combo: string)
    requires Complete(g) && Valid(g, start) && action in start
    requires ReadsReserved(combo) && combo != start[action] && combo != g.defaults[action]
    ensures (exists h :: BoundAfter(g, start, h, action, combo)) <==> SlipsPast(combo)
  {
    CheckErrsExactlyWhen(combo);
    if h :| BoundAfter(g, start, h, action, combo) {
      BoundIsAllowed(g, start, h, action, combo);
    } else if SlipsPast(combo) {
      SlippingIsAccepted(start, action, combo);
      OneUpdate(g, start, UpdateShortcut(action, combo));
      assert BoundAfter(g, start, [UpdateShortcut(action, combo)], action, combo);
    }
  }

  lemma OneUpdate(g: Registry, start: Bindings, a: Action)
    ensures Run(g, start, [a]) == Act(g, start, a)
  {
    assert [a][..0] == [];
    assert Run(g, start, []) == start;
  }

  /** Storage can bring one in: any reserved combo stored for a registered action is loaded as it is. */
  lemma StoredReservedIsLoaded(g: Registry, action: string, combo: string)
    requires action in g.defaults && IsReserved(combo) && combo != ""
    ensures var m := Load(g, Parsed(JObj([(action, JStr(combo))])));
            action in m && IsReserved(m[action])
  {
    var e := (action, JStr(combo));
    FieldSnoc([], e, action);
    assert [] + [e] == [e];
    LoadIsFieldwise(g, Parsed(JObj([e])), action);
  }
}
