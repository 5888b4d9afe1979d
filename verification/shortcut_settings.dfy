/** The editable shortcut bindings and their persistence (gui/src/stores/settingsStore.ts). */
module ShortcutSettings {
  import opened Wrappers
  import opened JsonValues
  import opened Shortcuts

  type Bindings = map<string, string>

  /** The table of default bindings: the registered actions in order, and their combos. */
  datatype Registry = Registry(actions: seq<string>, defaults: Bindings)

  /** The table lists each bound action, none twice, and no default is empty. */
  predicate Complete(g: Registry) {
    && (forall i, j :: 0 <= i < j < |g.actions| ==> g.actions[i] != g.actions[j])
    && (forall a :: a in g.defaults ==> a in g.actions)
    && (forall a :: a in g.defaults ==> g.defaults[a] != "")
  }

  // ---------- Loading and saving ----------

  function BindingEntry(g: Registry, m: Bindings, e: (string, Json)): Bindings {
    if e.0 in g.defaults && e.1.JStr? && |e.1.s| > 0 then m[e.0 := e.1.s] else m
  }

  function BindingsFrom(g: Registry, base: Bindings, entries: seq<(string, Json)>): Bindings {
    if entries == [] then base
    else BindingEntry(g, BindingsFrom(g, base, entries[..|entries| - 1]), entries[|entries| - 1])
  }

  function Load(g: Registry, stored: Stored): Bindings {
    if stored.Parsed? then BindingsFrom(g, g.defaults, Entries(stored.json)) else g.defaults
  }

  function BindingMembers(m: Bindings, actions: seq<string>): seq<(string, Json)> {
    if actions == [] then []
    else
      var a := actions[|actions| - 1];
      BindingMembers(m, actions[..|actions| - 1]) + if a in m then [(a, JStr(m[a]))] else []
  }

  function Encode(g: Registry, m: Bindings): Json {
    JObj(BindingMembers(m, g.actions))
  }

  // ---------- Actions ----------

  datatype Action = UpdateShortcut(action: string, combo: string) | ResetDefaults

  datatype Outcome = Done | UnknownAction | EmptyCombo | ReservedCombo

  function Check(m: Bindings, a: Action): Outcome {
    if a.ResetDefaults? then Done
    else if a.action !in m then UnknownAction
    else if Trim(a.combo) == "" then EmptyCombo
    else if IsReserved(a.combo) then ReservedCombo
    else Done
  }

  function Act(g: Registry, m: Bindings, a: Action): Bindings {
    if Check(m, a) != Done then m
    else if a.ResetDefaults? then g.defaults
    else m[a.action := a.combo]
  }

  function Persist(g: Registry, m: Bindings, stored: Stored, a: Action): Stored {
    if Check(m, a) != Done then stored
    else if a.ResetDefaults? then Absent
    else Parsed(Encode(g, Act(g, m, a)))
  }

  /** The store object, with localStorage available. */
  class Store {
    const registry: Registry
    var stored: Stored
    var shortcuts: Bindings

    constructor (g: Registry, found: Stored)
      ensures registry == g && stored == found && shortcuts == Load(g, found)
    {
      registry := g;
      stored := found;
      var loaded := LoadShortcuts(g, found);
      shortcuts := loaded;
    }

    static method LoadShortcuts(g: Registry, found: Stored) returns (merged: Bindings)
      ensures merged == Load(g, found)
    {
      merged := g.defaults;
      if !found.Parsed? {
        return;
      }
      var entries := Entries(found.json);
      for i := 0 to |entries|
        invariant merged == BindingsFrom(g, g.defaults, entries[..i])
      {
        assert entries[..i + 1][..i] == entries[..i];
        var (action, combo) := entries[i];
        if action in g.defaults && combo.JStr? && |combo.s| > 0 {
          merged := merged[action := combo.s];
        }
      }
      assert entries[..|entries|] == entries;
    }

    method Update(action: string, combo: string) returns (r: Outcome)
      modifies this
      ensures r == Check(old(shortcuts), UpdateShortcut(action, combo))
      ensures shortcuts == Act(registry, old(shortcuts), UpdateShortcut(action, combo))
      ensures stored == Persist(registry, old(shortcuts), old(stored), UpdateShortcut(action, combo))
    {
      if action !in shortcuts {
        return UnknownAction;
      }
      if Trim(combo) == "" {
        return EmptyCombo;
      }
      if IsReserved(combo) {
        return ReservedCombo;
      }
      shortcuts := shortcuts[action := combo];
      stored := Parsed(Encode(registry, shortcuts));
      return Done;
    }

    method Reset()
      modifies this
      ensures shortcuts == Act(registry, old(shortcuts), ResetDefaults)
      ensures stored == Persist(registry, old(shortcuts), old(stored), ResetDefaults)
    {
      shortcuts := registry.defaults;
      stored := Absent;
    }
  }

  // ---------- Runs ----------

  function Run(g: Registry, start: Bindings, h: seq<Action>): Bindings {
    if h == [] then start else Act(g, Run(g, start, h[..|h| - 1]), h[|h| - 1])
  }

  function RunStored(g: Registry, found: Stored, h: seq<Action>): Stored {
    if h == [] then found
    else
      var before := h[..|h| - 1];
      Persist(g, Run(g, Load(g, found), before), RunStored(g, found, before), h[|h| - 1])
  }

  /** Every registered action has a non-empty combo, and nothing else has one. */
  predicate Valid(g: Registry, m: Bindings) {
    m.Keys == g.defaults.Keys && forall a :: a in m ==> m[a] != ""
  }

  lemma {:induction false} EntriesLoadValid(g: Registry, entries: seq<(string, Json)>)
    requires Complete(g)
    ensures Valid(g, BindingsFrom(g, g.defaults, entries))
  {
    if entries != [] {
      EntriesLoadValid(g, entries[..|entries| - 1]);
    }
  }

  /** Whatever is stored, loading binds exactly the registered actions. */
  lemma LoadIsValid(g: Registry, found: Stored)
    requires Complete(g)
    ensures Valid(g, Load(g, found))
  {
    if found.Parsed? {
      EntriesLoadValid(g, Entries(found.json));
    }
  }

  /** The combo loaded for `action`, from the member stored under its name. */
  function LoadedCombo(fallback: string, stored: Option<Json>): string {
    if stored.Some? && stored.value.JStr? && |stored.value.s| > 0 then stored.value.s else fallback
  }

  lemma {:induction false} BindingsFromField(g: Registry, base: Bindings, entries: seq<(string, Json)>, action: string)
    requires DistinctKeys(entries) && action in g.defaults && action in base
    ensures action in BindingsFrom(g, base, entries)
    ensures BindingsFrom(g, base, entries)[action] == LoadedCombo(base[action], Field(entries, action))
  {
    if entries != [] {
      var n := |entries| - 1;
      BindingsFromField(g, base, entries[..n], action);
      if entries[n].0 == action {
        FieldFinds(entries[..n], action);
      }
    }
  }

  /** Each action loads the non-empty string stored last under its name, or its default. */
  lemma LoadIsFieldwise(g: Registry, found: Stored, action: string)
    requires action in g.defaults
    ensures action in Load(g, found)
    ensures Load(g, found)[action]
         == LoadedCombo(g.defaults[action], if found.Parsed? then FieldOf(found.json, action) else None)
  {
    if found.Parsed? {
      EntriesAreFields(found.json, action);
      BindingsFromField(g, g.defaults, Entries(found.json), action);
    }
  }

  lemma ActKeepsValid(g: Registry, m: Bindings, a: Action)
    requires Complete(g) && Valid(g, m)
    ensures Valid(g, Act(g, m, a))
  {
  }

  lemma {:induction false} RunStaysValid(g: Registry, start: Bindings, h: seq<Action>)
    requires Complete(g) && Valid(g, start)
    ensures Valid(g, Run(g, start, h))
  {
    if h != [] {
      RunStaysValid(g, start, h[..|h| - 1]);
      ActKeepsValid(g, Run(g, start, h[..|h| - 1]), h[|h| - 1]);
    }
  }

  lemma BindingsSnoc(g: Registry, base: Bindings, entries: seq<(string, Json)>, e: (string, Json))
    ensures BindingsFrom(g, base, entries + [e]) == BindingEntry(g, BindingsFrom(g, base, entries), e)
  {
    assert (entries + [e])[..|entries|] == entries;
  }

  lemma {:induction false} MembersLoad(g: Registry, base: Bindings, m: Bindings, actions: seq<string>)
    requires Valid(g, m)
    ensures BindingsFrom(g, base, BindingMembers(m, actions)) == base + Restricted(m, actions)
  {
    if actions == [] {
      RestrictedToNone(m, base);
    } else {
      var init, a := actions[..|actions| - 1], actions[|actions| - 1];
      MembersLoad(g, base, m, init);
      RestrictedSnoc(m, init, a);
      assert actions == init + [a];
      if a in m {
        BindingsSnoc(g, base, BindingMembers(m, init), (a, JStr(m[a])));
        UpdateOnTop(base, Restricted(m, init), a, m[a]);
      } else {
        assert BindingMembers(m, actions) == BindingMembers(m, init);
      }
    }
  }

  lemma {:induction false} MembersAreDistinct(m: Bindings, actions: seq<string>)
    requires forall i, j :: 0 <= i < j < |actions| ==> actions[i] != actions[j]
    ensures DistinctKeys(BindingMembers(m, actions))
    ensures forall i :: 0 <= i < |BindingMembers(m, actions)| ==> BindingMembers(m, actions)[i].0 in actions
  {
    if actions != [] {
      MembersAreDistinct(m, actions[..|actions| - 1]);
    }
  }

  lemma EncodedEntries(g: Registry, m: Bindings)
    requires Complete(g)
    ensures Entries(Encode(g, m)) == BindingMembers(m, g.actions)
  {
    MembersAreDistinct(m, g.actions);
    DistinctStays(BindingMembers(m, g.actions));
  }

  lemma AllActionsWritten(g: Registry, m: Bindings)
    requires Complete(g) && Valid(g, m)
    ensures g.defaults + Restricted(m, g.actions) == m
  {
  }

  lemma LoadUndoesSave(g: Registry, m: Bindings)
    requires Complete(g) && Valid(g, m)
    ensures Load(g, Parsed(Encode(g, m))) == m
  {
    EncodedEntries(g, m);
    MembersLoad(g, g.defaults, m, g.actions);
    AllActionsWritten(g, m);
  }

  /** Reloading after any run of updates and resets gives the bindings in memory. */
  lemma {:induction false} ReloadIsInvisible(g: Registry, found: Stored, h: seq<Action>)
    requires Complete(g)
    ensures Load(g, RunStored(g, found, h)) == Run(g, Load(g, found), h)
  {
    if h != [] {
      var before := h[..|h| - 1];
      ReloadIsInvisible(g, found, before);
      LoadIsValid(g, found);
      RunStaysValid(g, Load(g, found), before);
      PersistReloads(g, Run(g, Load(g, found), before), RunStored(g, found, before), h[|h| - 1]);
    }
  }

  lemma PersistReloads(g: Registry, m: Bindings, stored: Stored, a: Action)
    requires Complete(g) && Valid(g, m) && Load(g, stored) == m
    ensures Load(g, Persist(g, m, stored, a)) == Act(g, m, a)
  {
    ActKeepsValid(g, m, a);
    LoadUndoesSave(g, Act(g, m, a));
  }

  // ---------- Reserved combos ----------

  /** The step gives `action` a new combo, or resets everything. */
  predicate Rebinds(m: Bindings, a: Action, action: string) {
    a.ResetDefaults? || (a.action == action && Check(m, a) == Done)
  }

  predicate Rebound(g: Registry, start: Bindings, h: seq<Action>, action: string) {
    h != []
    && (Rebinds(Run(g, start, h[..|h| - 1]), h[|h| - 1], action) || Rebound(g, start, h[..|h| - 1], action))
  }

  ghost predicate DefaultsAreFree(g: Registry) {
    forall a :: a in g.defaults ==> !IsReserved(g.defaults[a])
  }

  lemma StepBinds(g: Registry, m: Bindings, a: Action, action: string)
    requires Valid(g, m) && action in m
    ensures action in g.defaults && action in Act(g, m, a)
    ensures Act(g, m, a)[action]
         == if a.ResetDefaults? then g.defaults[action] else if Rebinds(m, a, action) then a.combo else m[action]
  {
    assert action in g.defaults;
  }

  lemma DoneIsFree(m: Bindings, a: Action)
    requires a.UpdateShortcut? && Check(m, a) == Done
    ensures !IsReserved(a.combo)
  {
  }

  /**
   A binding is reserved exactly when storage held it so and nothing has rebound it since: loading
   does not apply the check that updating does.
   */
  lemma {:induction false} ReservedOnlyFromStorage(g: Registry, start: Bindings, h: seq<Action>, action: string)
    requires Complete(g) && Valid(g, start) && action in start && DefaultsAreFree(g)
    ensures action in Run(g, start, h)
    ensures IsReserved(Run(g, start, h)[action]) <==> IsReserved(start[action]) && !Rebound(g, start, h, action)
  {
    if h != [] {
      ReservedOnlyFromStorage(g, start, h[..|h| - 1], action);
      RunStaysValid(g, start, h[..|h| - 1]);
      var m, a := Run(g, start, h[..|h| - 1]), h[|h| - 1];
      StepBinds(g, m, a, action);
      if a.UpdateShortcut? && Rebinds(m, a, action) {
        DoneIsFree(m, a);
      }
    }
  }
}
