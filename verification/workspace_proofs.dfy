/** Reloading is invisible, and the sizes shown are a function of the actions taken. */
module WorkspaceProofs {
  import opened Wrappers
  import opened JsonValues
  import opened Workspace

  // ---------- Valid layouts ----------

  predicate InRange(m: Overrides) {
    forall p :: p in m ==> 0.0 <= m[p] <= 100.0
  }

  /** Every size is a percentage, and no preset carries an empty override map. */
  predicate Valid(s: Layout) {
    && InRange(s.sizes)
    && (forall n :: n in s.byPreset ==> s.byPreset[n] != map[] && InRange(s.byPreset[n]))
  }

  lemma PresetSizesInRange(p: Named)
    ensures InRange(PresetSizes(p)) && InRange(DEFAULT_SIZES)
  {
  }

  /** Every action keeps the layout valid. */
  lemma ActKeepsValid(s: Layout, a: Action)
    requires Valid(s)
    ensures Valid(Act(s, a))
  {
    if Accepted(a) {
      match a {
        case SetPreset(name) =>
          if PresetOf(name).value.Of? {
            PresetSizesInRange(PresetOf(name).value.named);
          }
        case TogglePanel(_) =>
        case ResizePanel(name, size) =>
          assert PanelOf(name).value in OverridesOf(s, s.anchor)[PanelOf(name).value := size.value];
        case ResetLayout =>
          PresetSizesInRange(Edit);
      }
    }
  }

  lemma {:induction false} SizesFromInRange(base: Overrides, entries: seq<(string, Json)>)
    requires InRange(base)
    ensures InRange(SizesFrom(base, entries))
  {
    if entries != [] {
      SizesFromInRange(base, entries[..|entries| - 1]);
    }
  }

  lemma {:induction false} ByPresetFromValid(entries: seq<(string, Json)>)
    ensures forall n :: n in ByPresetFrom(entries) ==>
              ByPresetFrom(entries)[n] != map[] && InRange(ByPresetFrom(entries)[n])
  {
    if entries != [] {
      ByPresetFromValid(entries[..|entries| - 1]);
      SizesFromInRange(map[], Entries(entries[|entries| - 1].1));
    }
  }

  /** Whatever is stored, loading yields a valid layout. */
  lemma LoadIsValid(stored: Stored)
    ensures Valid(Load(stored))
  {
    PresetSizesInRange(Edit);
    if stored.Parsed? {
      SizesFromInRange(DEFAULT_SIZES, EntriesOf(FieldOf(stored.json, "panelSizes")));
      ByPresetFromValid(EntriesOf(FieldOf(stored.json, "sizesByPreset")));
    }
  }

  // ---------- Loading, member by member ----------

  function Lookup<K, V>(m: map<K, V>, k: K): Option<V> {
    if k in m then Some(m[k]) else None
  }

  function SubField(j: Option<Json>, key: string): Option<Json> {
    if j.Some? then FieldOf(j.value, key) else None
  }

  /** The size a stored value gives: itself if it is acceptable, or the fallback. */
  function LoadedSize(fallback: Option<real>, raw: Option<Json>): Option<real> {
    if raw.Some? && raw.value.JNum? && raw.value.n.Finite? && 0.0 <= raw.value.n.value <= 100.0
    then Some(raw.value.n.value)
    else fallback
  }

  lemma {:induction false} SizesFromField(base: Overrides, entries: seq<(string, Json)>, panel: Panel)
    requires DistinctKeys(entries)
    ensures Lookup(SizesFrom(base, entries), panel)
         == LoadedSize(Lookup(base, panel), Field(entries, PanelName(panel)))
  {
    if entries != [] {
      var init, e := entries[..|entries| - 1], entries[|entries| - 1];
      SizesFromField(base, init, panel);
      FieldFinds(init, e.0);
      PanelNamed(e.0, panel);
    }
  }

  lemma PanelNamed(name: string, panel: Panel)
    ensures PanelOf(name) == Some(panel) <==> name == PanelName(panel)
  {
  }

  lemma PresetNamed(name: string, preset: Named)
    ensures NamedOf(name) == Some(preset) <==> name == NamedName(preset)
  {
  }

  lemma {:induction false} VisibilityFromField(base: Visibility, entries: seq<(string, Json)>, panel: Panel)
    requires DistinctKeys(entries)
    ensures var raw := Field(entries, PanelName(panel));
            VisibilityFrom(base, entries)[panel] == if raw.Some? && raw.value.JBool? then raw.value.b else base[panel]
  {
    if entries != [] {
      var init, e := entries[..|entries| - 1], entries[|entries| - 1];
      VisibilityFromField(base, init, panel);
      FieldFinds(init, e.0);
      PanelNamed(e.0, panel);
    }
  }

  /** The preset label loaded: the one named, or Edit. */
  function LoadedLabel(raw: Option<Json>): Preset {
    if raw == Some(JStr("custom")) then Custom
    else if raw == Some(JStr("review")) then Of(Review)
    else if raw == Some(JStr("render")) then Of(Render)
    else Of(Edit)
  }

  /** The anchor loaded: the named preset stored for it, or the label's own, or Edit. */
  function LoadedAnchor(preset: Preset, raw: Option<Json>): Named {
    if raw == Some(JStr("edit")) then Edit
    else if raw == Some(JStr("review")) then Review
    else if raw == Some(JStr("render")) then Render
    else if preset.Of? then preset.named
    else Edit
  }

  /** Reading the label and the anchor; anything stored that is not an object or array loads the initial layout. */
  lemma LoadedLabels(stored: Stored)
    ensures stored.Parsed? && (stored.json.JObj? || stored.json.JArr?) ==>
              var preset := LoadedLabel(FieldOf(stored.json, "preset"));
              && Load(stored).preset == preset
              && Load(stored).anchor == LoadedAnchor(preset, FieldOf(stored.json, "anchorPreset"))
    ensures !stored.Parsed? || !(stored.json.JObj? || stored.json.JArr?) ==> Load(stored) == INITIAL
  {
  }

  /** The overrides kept for a preset; none if the map has no entry for it. */
  function KeptFor(m: map<Named, Overrides>, p: Named): Overrides {
    if p in m then m[p] else map[]
  }

  lemma {:induction false} ByPresetFromField(entries: seq<(string, Json)>, p: Named)
    requires DistinctKeys(entries)
    ensures KeptFor(ByPresetFrom(entries), p) == SizesFrom(map[], EntriesOf(Field(entries, NamedName(p))))
  {
    if entries != [] {
      var init, e := entries[..|entries| - 1], entries[|entries| - 1];
      ByPresetFromField(init, p);
      FieldFinds(init, e.0);
      PresetNamed(e.0, p);
    }
  }

  /**
   Reading stored content member by member: a size or a visibility is the acceptable value stored last
   under its panel's name, or the default; an override likewise under its preset's and panel's, or none.
   */
  lemma LoadIsFieldwise(j: Json, panel: Panel, p: Named)
    requires j.JObj? || j.JArr?
    ensures var s := Load(Parsed(j));
            && Lookup(s.sizes, panel)
               == LoadedSize(Some(DEFAULT_SIZES[panel]), SubField(FieldOf(j, "panelSizes"), PanelName(panel)))
            && Lookup(OverridesOf(s, p), panel)
               == LoadedSize(None, SubField(SubField(FieldOf(j, "sizesByPreset"), NamedName(p)), PanelName(panel)))
    ensures var raw := SubField(FieldOf(j, "panelVisibility"), PanelName(panel));
            Load(Parsed(j)).visibility[panel]
            == if raw.Some? && raw.value.JBool? then raw.value.b else DEFAULT_VISIBILITY[panel]
  {
    var sizes, visible := FieldOf(j, "panelSizes"), FieldOf(j, "panelVisibility");
    var byPreset := FieldOf(j, "sizesByPreset");
    SubEntries(sizes, PanelName(panel));
    SizesFromField(DEFAULT_SIZES, EntriesOf(sizes), panel);
    SubEntries(visible, PanelName(panel));
    VisibilityFromField(DEFAULT_VISIBILITY, EntriesOf(visible), panel);
    SubEntries(byPreset, NamedName(p));
    ByPresetFromField(EntriesOf(byPreset), p);
    SubEntries(SubField(byPreset, NamedName(p)), PanelName(panel));
    SizesFromField(map[], EntriesOf(SubField(byPreset, NamedName(p))), panel);
  }

  lemma SubEntries(j: Option<Json>, key: string)
    ensures DistinctKeys(EntriesOf(j)) && Field(EntriesOf(j), key) == SubField(j, key)
  {
    if j.Some? {
      EntriesAreFields(j.value, key);
    }
  }

  // ---------- Save, then load ----------

  lemma NamesReadBack()
    ensures forall p :: PanelOf(PanelName(p)) == Some(p)
    ensures forall n :: NamedOf(NamedName(n)) == Some(n)
    ensures forall p :: PresetOf(PresetName(p)) == Some(p)
  {
  }

  lemma {:induction false} SizeMembersLoad(base: Overrides, m: Overrides, panels: seq<Panel>)
    requires InRange(m)
    ensures SizesFrom(base, SizeMembers(m, panels)) == base + Restricted(m, panels)
  {
    if panels == [] {
      RestrictedToNone(m, base);
    } else {
      var init, p := panels[..|panels| - 1], panels[|panels| - 1];
      SizeMembersLoad(base, m, init);
      RestrictedSnoc(m, init, p);
      assert panels == init + [p];
      if p in m {
        NamesReadBack();
        SizesFromSnoc(base, SizeMembers(m, init), (PanelName(p), JNum(Finite(m[p]))));
        UpdateOnTop(base, Restricted(m, init), p, m[p]);
      } else {
        assert SizeMembers(m, panels) == SizeMembers(m, init);
      }
    }
  }

  lemma SizesFromSnoc(base: Overrides, entries: seq<(string, Json)>, e: (string, Json))
    ensures SizesFrom(base, entries + [e]) == SizeEntry(SizesFrom(base, entries), e)
  {
    assert (entries + [e])[..|entries|] == entries;
  }

  lemma VisibilitySnoc(base: Visibility, entries: seq<(string, Json)>, p: Panel, b: bool)
    ensures VisibilityFrom(base, entries + [(PanelName(p), JBool(b))]) == VisibilityFrom(base, entries)[p := b]
  {
    assert (entries + [(PanelName(p), JBool(b))])[..|entries|] == entries;
    NamesReadBack();
  }

  lemma {:induction false} VisibilityMembersLoad(base: Visibility, m: Visibility, panels: seq<Panel>)
    ensures VisibilityFrom(base, VisibilityMembers(m, panels)) == base + Restricted(m, panels)
  {
    if panels == [] {
      RestrictedToNone(m, base);
    } else {
      var init, p := panels[..|panels| - 1], panels[|panels| - 1];
      VisibilityMembersLoad(base, m, init);
      RestrictedSnoc(m, init, p);
      assert panels == init + [p];
      VisibilitySnoc(base, VisibilityMembers(m, init), p, m[p]);
      UpdateOnTop(base, Restricted(m, init), p, m[p]);
    }
  }

  lemma AllPanels(p: Panel)
    ensures p in PANEL_IDS
  {
    assert PANEL_IDS[0] == Library && PANEL_IDS[1] == Timeline && PANEL_IDS[2] == Preview;
    assert PANEL_IDS[3] == Effects && PANEL_IDS[4] == RenderQueue && PANEL_IDS[5] == Batch;
  }

  lemma AllNamed(n: Named)
    ensures n in NAMED_PRESETS
  {
    assert NAMED_PRESETS[0] == Edit && NAMED_PRESETS[1] == Review && NAMED_PRESETS[2] == Render;
  }

  lemma RestrictedToAllPanels<V>(m: map<Panel, V>)
    ensures Restricted(m, PANEL_IDS) == m
  {
    forall p: Panel
      ensures p in PANEL_IDS
    {
      AllPanels(p);
    }
  }

  lemma {:induction false} SizeMembersDistinct(m: Overrides, panels: seq<Panel>)
    requires forall i, j :: 0 <= i < j < |panels| ==> panels[i] != panels[j]
    ensures DistinctKeys(SizeMembers(m, panels))
    ensures forall e :: e in SizeMembers(m, panels) ==> PanelOf(e.0).Some? && PanelOf(e.0).value in panels
  {
    if panels != [] {
      SizeMembersDistinct(m, panels[..|panels| - 1]);
      NamesReadBack();
    }
  }

  lemma {:induction false} VisibilityMembersDistinct(m: Visibility, panels: seq<Panel>)
    requires forall i, j :: 0 <= i < j < |panels| ==> panels[i] != panels[j]
    ensures DistinctKeys(VisibilityMembers(m, panels))
    ensures forall e :: e in VisibilityMembers(m, panels) ==> PanelOf(e.0).Some? && PanelOf(e.0).value in panels
  {
    if panels != [] {
      VisibilityMembersDistinct(m, panels[..|panels| - 1]);
      NamesReadBack();
    }
  }

  lemma {:induction false} ByPresetMembersDistinct(m: map<Named, Overrides>, presets: seq<Named>)
    requires forall i, j :: 0 <= i < j < |presets| ==> presets[i] != presets[j]
    ensures DistinctKeys(ByPresetMembers(m, presets))
    ensures forall e :: e in ByPresetMembers(m, presets) ==> NamedOf(e.0).Some? && NamedOf(e.0).value in presets
  {
    if presets != [] {
      ByPresetMembersDistinct(m, presets[..|presets| - 1]);
      NamesReadBack();
    }
  }

  /** What is written names nothing twice, so it is read back as it was written. */
  lemma WrittenEntries(sizes: Overrides, visibility: Visibility, byPreset: map<Named, Overrides>)
    ensures Entries(JObj(SizeMembers(sizes, PANEL_IDS))) == SizeMembers(sizes, PANEL_IDS)
    ensures Entries(JObj(VisibilityMembers(visibility, PANEL_IDS))) == VisibilityMembers(visibility, PANEL_IDS)
    ensures Entries(JObj(ByPresetMembers(byPreset, NAMED_PRESETS))) == ByPresetMembers(byPreset, NAMED_PRESETS)
  {
    SizeEntriesWritten(sizes);
    VisibilityMembersDistinct(visibility, PANEL_IDS);
    ByPresetMembersDistinct(byPreset, NAMED_PRESETS);
    DistinctStays(VisibilityMembers(visibility, PANEL_IDS));
    DistinctStays(ByPresetMembers(byPreset, NAMED_PRESETS));
  }

  lemma SizeEntriesWritten(sizes: Overrides)
    ensures Entries(JObj(SizeMembers(sizes, PANEL_IDS))) == SizeMembers(sizes, PANEL_IDS)
  {
    SizeMembersDistinct(sizes, PANEL_IDS);
    DistinctStays(SizeMembers(sizes, PANEL_IDS));
  }

  lemma OverridesLoad(m: Overrides)
    requires InRange(m)
    ensures SizesFrom(map[], SizeMembers(m, PANEL_IDS)) == m
  {
    SizeMembersLoad(map[], m, PANEL_IDS);
    RestrictedToAllPanels(m);
    assert map[] + m == m;
  }

  lemma ByPresetAppend(entries: seq<(string, Json)>, e: (string, Json))
    ensures ByPresetFrom(entries + [e]) == PresetEntry(ByPresetFrom(entries), e)
  {
    assert (entries + [e])[..|entries|] == entries;
  }

  lemma ByPresetSnoc(entries: seq<(string, Json)>, n: Named, m: Overrides)
    requires m != map[] && InRange(m)
    ensures ByPresetFrom(entries + [(NamedName(n), JObj(SizeMembers(m, PANEL_IDS)))]) == ByPresetFrom(entries)[n := m]
  {
    var e := (NamedName(n), JObj(SizeMembers(m, PANEL_IDS)));
    SizeEntriesWritten(m);
    OverridesLoad(m);
    NamesReadBack();
    ByPresetAppend(entries, e);
  }

  lemma {:induction false} ByPresetMembersLoad(m: map<Named, Overrides>, presets: seq<Named>)
    requires forall n :: n in m ==> m[n] != map[] && InRange(m[n])
    ensures ByPresetFrom(ByPresetMembers(m, presets)) == Restricted(m, presets)
  {
    if presets == [] {
      RestrictedToNone(m, m);
    } else {
      var init, n := presets[..|presets| - 1], presets[|presets| - 1];
      ByPresetMembersLoad(m, init);
      RestrictedSnoc(m, init, n);
      assert presets == init + [n];
      if n in m {
        ByPresetSnoc(ByPresetMembers(m, init), n, m[n]);
      } else {
        assert ByPresetMembers(m, presets) == ByPresetMembers(m, init);
      }
    }
  }

  /** Reading a field back out of a five-member object with distinct keys. */
  lemma FiveFields(a: Json, b: Json, c: Json, d: Json, e: Json)
    ensures var o := JObj([("preset", a), ("anchorPreset", b), ("panelSizes", c),
                           ("panelVisibility", d), ("sizesByPreset", e)]);
            && FieldOf(o, "preset") == Some(a) && FieldOf(o, "anchorPreset") == Some(b)
            && FieldOf(o, "panelSizes") == Some(c) && FieldOf(o, "panelVisibility") == Some(d)
            && FieldOf(o, "sizesByPreset") == Some(e)
  {
    var m1 := [("preset", a)];
    var m2 := m1 + [("anchorPreset", b)];
    var m3 := m2 + [("panelSizes", c)];
    var m4 := m3 + [("panelVisibility", d)];
    var m5 := m4 + [("sizesByPreset", e)];
    assert m5 == [("preset", a), ("anchorPreset", b), ("panelSizes", c), ("panelVisibility", d), ("sizesByPreset", e)];
    assert Field(m1, "preset") == Some(a);
    FieldSnoc(m1, ("anchorPreset", b), "preset");
    FieldSnoc(m1, ("anchorPreset", b), "anchorPreset");
    FieldSnoc(m2, ("panelSizes", c), "preset");
    FieldSnoc(m2, ("panelSizes", c), "anchorPreset");
    FieldSnoc(m2, ("panelSizes", c), "panelSizes");
    FieldSnoc(m3, ("panelVisibility", d), "preset");
    FieldSnoc(m3, ("panelVisibility", d), "anchorPreset");
    FieldSnoc(m3, ("panelVisibility", d), "panelSizes");
    FieldSnoc(m3, ("panelVisibility", d), "panelVisibility");
    FieldSnoc(m4, ("sizesByPreset", e), "preset");
    FieldSnoc(m4, ("sizesByPreset", e), "anchorPreset");
    FieldSnoc(m4, ("sizesByPreset", e), "panelSizes");
    FieldSnoc(m4, ("sizesByPreset", e), "panelVisibility");
    FieldSnoc(m4, ("sizesByPreset", e), "sizesByPreset");
  }

  /** Loading what was saved gives back the layout. */
  lemma LoadUndoesSave(s: Layout)
    requires Valid(s)
    ensures Load(Parsed(Encode(s))) == s
  {
    FiveFields(JStr(PresetName(s.preset)), JStr(NamedName(s.anchor)), JObj(SizeMembers(s.sizes, PANEL_IDS)),
               JObj(VisibilityMembers(s.visibility, PANEL_IDS)), JObj(ByPresetMembers(s.byPreset, NAMED_PRESETS)));
    NamesReadBack();
    WrittenEntries(s.sizes, s.visibility, s.byPreset);
    assert SizesFrom(DEFAULT_SIZES, SizeMembers(s.sizes, PANEL_IDS)) == s.sizes by {
      SizeMembersLoad(DEFAULT_SIZES, s.sizes, PANEL_IDS);
      RestrictedToAllPanels(s.sizes);
      TotalWins(DEFAULT_SIZES, s.sizes);
    }
    assert VisibilityFrom(DEFAULT_VISIBILITY, VisibilityMembers(s.visibility, PANEL_IDS)) == s.visibility by {
      VisibilityMembersLoad(DEFAULT_VISIBILITY, s.visibility, PANEL_IDS);
      RestrictedToAllPanels(s.visibility);
      TotalWins(DEFAULT_VISIBILITY, s.visibility);
    }
    assert ByPresetFrom(ByPresetMembers(s.byPreset, NAMED_PRESETS)) == s.byPreset by {
      ByPresetMembersLoad(s.byPreset, NAMED_PRESETS);
      forall n: Named
        ensures n in NAMED_PRESETS
      {
        AllNamed(n);
      }
    }
  }

  lemma TotalWins<V>(base: map<Panel, V>, m: map<Panel, V>)
    requires Total(m)
    ensures base + m == m
  {
  }

  /** On arbitrary stored content, load-save-load is load. */
  lemma LoadSaveLoad(stored: Stored)
    ensures Load(Parsed(Encode(Load(stored)))) == Load(stored)
  {
    LoadIsValid(stored);
    LoadUndoesSave(Load(stored));
  }

  // ---------- Runs ----------

  function Run(start: Layout, actions: seq<Action>): Layout {
    if actions == [] then start else Act(Run(start, actions[..|actions| - 1]), actions[|actions| - 1])
  }

  function RunStored(available: bool, found: Stored, actions: seq<Action>): Stored {
    if actions == [] then found
    else
      var before := actions[..|actions| - 1];
      Persist(available, Run(Load(found), before), RunStored(available, found, before), actions[|actions| - 1])
  }

  lemma {:induction false} RunStaysValid(start: Layout, actions: seq<Action>)
    requires Valid(start)
    ensures Valid(Run(start, actions))
  {
    if actions != [] {
      RunStaysValid(start, actions[..|actions| - 1]);
      ActKeepsValid(Run(start, actions[..|actions| - 1]), actions[|actions| - 1]);
    }
  }

  /** With storage available, reloading after any run of actions gives exactly the layout in memory. */
  lemma {:induction false} ReloadIsInvisible(found: Stored, actions: seq<Action>)
    ensures Load(RunStored(true, found, actions)) == Run(Load(found), actions)
  {
    if actions != [] {
      var before, a := actions[..|actions| - 1], actions[|actions| - 1];
      ReloadIsInvisible(found, before);
      LoadIsValid(found);
      RunStaysValid(Load(found), before);
      PersistReloads(Run(Load(found), before), RunStored(true, found, before), a);
    }
  }

  lemma PersistReloads(s: Layout, stored: Stored, a: Action)
    requires Valid(s) && Load(stored) == s
    ensures Load(Persist(true, s, stored, a)) == Act(s, a)
  {
    assert Load(Absent) == INITIAL;
    ActKeepsValid(s, a);
    LoadUndoesSave(Act(s, a));
  }

  // ---------- What is accepted, and what is written ----------

  /** The six panels. */
  predicate IsPanelName(s: string) {
    s in {"library", "timeline", "preview", "effects", "render-queue", "batch"}
  }

  /** Which actions do anything: known names, and sizes that are numbers from 0 to 100. */
  lemma AcceptedExactlyWhen(a: Action)
    ensures Accepted(a)
       <==> match a
            case SetPreset(name) => name in {"edit", "review", "render", "custom"}
            case TogglePanel(name) => IsPanelName(name)
            case ResizePanel(name, size) => IsPanelName(name) && size.Finite? && 0.0 <= size.value <= 100.0
            case ResetLayout => true
  {
  }

  /**
   Storage is written by an accepted action only, and only if available: a reset clears it, choosing
   `custom` again leaves it, and anything else stores a form that loads as the new layout.
   */
  lemma WrittenExactlyWhen(available: bool, s: Layout, stored: Stored, a: Action)
    requires Valid(s)
    ensures var after := Persist(available, s, stored, a);
            && (!available || !Accepted(a) ==> after == stored)
            && (a == SetPreset("custom") && s.preset == Custom ==> after == stored)
            && (available && a.ResetLayout? ==> after == Absent)
            && (available && Accepted(a) && !a.ResetLayout? && !(a == SetPreset("custom") && s.preset == Custom) ==>
                  after.Parsed? && after.json.JObj? && Load(after) == Act(s, a))
  {
    ActKeepsValid(s, a);
    LoadUndoesSave(Act(s, a));
    if a.SetPreset? {
      CustomIsNotNamed(a.preset);
    }
  }

  // ---------- The tables ----------

  /** In each named preset the sizes add up to the whole, and exactly the panels that have a size are visible. */
  lemma PresetTablesAgree(n: Named)
    ensures var s := PresetSizes(n);
            s[Library] + s[Timeline] + s[Preview] + s[Effects] + s[RenderQueue] + s[Batch] == 100.0
    ensures forall p: Panel :: PresetVisibility(n)[p] <==> PresetSizes(n)[p] > 0.0
  {
  }

  /** At first only the preview is visible, at full size. */
  lemma FirstRunShowsPreview(p: Panel)
    ensures INITIAL.visibility[p] <==> p == Preview
    ensures INITIAL.sizes[p] == 100.0 <==> p == Preview
  {
  }

  // ---------- What a run shows ----------

  /** The named preset last chosen since the last reset. */
  function AnchorAfter(start: Layout, h: seq<Action>): Named {
    if h == [] then start.anchor
    else
      var init, a := h[..|h| - 1], h[|h| - 1];
      if a.ResetLayout? then Edit
      else if a.SetPreset? && NamedOf(a.preset).Some? then NamedOf(a.preset).value
      else AnchorAfter(start, init)
  }

  predicate Resizes(a: Action, panel: Panel) {
    a.ResizePanel? && Accepted(a) && PanelOf(a.panel) == Some(panel)
  }

  /** The last accepted resize of `panel` since the last reset made while `p` was the anchor. */
  function LastResize(start: Layout, h: seq<Action>, p: Named, panel: Panel): Option<real> {
    if h == [] then
      if panel in OverridesOf(start, p) then Some(OverridesOf(start, p)[panel]) else None
    else
      var init, a := h[..|h| - 1], h[|h| - 1];
      if a.ResetLayout? then None
      else if Resizes(a, panel) && AnchorAfter(start, init) == p then Some(a.size.value)
      else LastResize(start, init, p, panel)
  }

  /** What preset `p` shows for `panel` after the history `h`. */
  function Overlay(start: Layout, h: seq<Action>, p: Named, panel: Panel): real {
    var last := LastResize(start, h, p, panel);
    if last.Some? then last.value else PresetSizes(p)[panel]
  }

  /** Some named preset has been chosen since the last reset. */
  predicate PresetChosen(h: seq<Action>) {
    h != [] && !h[|h| - 1].ResetLayout?
    && ((h[|h| - 1].SetPreset? && NamedOf(h[|h| - 1].preset).Some?) || PresetChosen(h[..|h| - 1]))
  }

  lemma CustomIsNotNamed(name: string)
    ensures PresetOf(name).Some? && PresetOf(name).value.Of?
       <==> NamedOf(name).Some?
    ensures NamedOf(name).Some? ==> PresetOf(name).value.named == NamedOf(name).value
  {
  }

  /** The preset label after a history, from its actions alone. */
  function LabelAfter(start: Layout, h: seq<Action>): Preset {
    if h == [] then start.preset
    else
      var before := LabelAfter(start, h[..|h| - 1]);
      match h[|h| - 1]
      case ResetLayout => Of(Edit)
      case TogglePanel(_) => before
      case SetPreset(name) =>
        if name == "custom" then Custom
        else if name == "edit" then Of(Edit)
        else if name == "review" then Of(Review)
        else if name == "render" then Of(Render)
        else before
      case ResizePanel(name, size) =>
        if IsPanelName(name) && size.Finite? && 0.0 <= size.value <= 100.0 then Custom else before
  }

  /** The label is the preset last chosen, or custom once a resize has been accepted since. */
  lemma {:induction false} LabelIsLastChosen(start: Layout, h: seq<Action>)
    ensures Run(start, h).preset == LabelAfter(start, h)
  {
    if h != [] {
      var init, a := h[..|h| - 1], h[|h| - 1];
      LabelIsLastChosen(start, init);
      AcceptedExactlyWhen(a);
      ActLabel(Run(start, init), a);
    }
  }

  lemma ActLabel(s: Layout, a: Action)
    ensures !Accepted(a) ==> Act(s, a) == s
    ensures Accepted(a) ==>
              match a
              case ResetLayout => Act(s, a).preset == Of(Edit)
              case TogglePanel(_) => Act(s, a).preset == s.preset
              case SetPreset(name) => PresetName(Act(s, a).preset) == name
              case ResizePanel(_, _) => Act(s, a).preset == Custom
  {
  }

  lemma {:induction false} AnchorIsLastChosen(start: Layout, h: seq<Action>)
    ensures Run(start, h).anchor == AnchorAfter(start, h)
  {
    if h != [] {
      AnchorIsLastChosen(start, h[..|h| - 1]);
      if h[|h| - 1].SetPreset? {
        CustomIsNotNamed(h[|h| - 1].preset);
      }
    }
  }

  lemma ActOverrides(s: Layout, a: Action, p: Named, panel: Panel)
    ensures var o, r := OverridesOf(s, p), OverridesOf(Act(s, a), p);
            if a.ResetLayout? then panel !in r
            else if Resizes(a, panel) && s.anchor == p then panel in r && r[panel] == a.size.value
            else if panel in o then panel in r && r[panel] == o[panel]
            else panel !in r
  {
  }

  /** The stored overrides are exactly the last resizes since the last reset, preset by preset. */
  lemma {:induction false} OverridesAreLastResizes(start: Layout, h: seq<Action>, p: Named, panel: Panel)
    ensures var o := OverridesOf(Run(start, h), p);
            LastResize(start, h, p, panel) == if panel in o then Some(o[panel]) else None
  {
    if h != [] {
      var init, a := h[..|h| - 1], h[|h| - 1];
      OverridesAreLastResizes(start, init, p, panel);
      AnchorIsLastChosen(start, init);
      ActOverrides(Run(start, init), a, p, panel);
    }
  }

  lemma ChosenSizes(s: Layout, name: string, panel: Panel)
    requires Valid(s) && NamedOf(name).Some?
    ensures var p := NamedOf(name).value;
            var o := OverridesOf(s, p);
            Act(s, SetPreset(name)).sizes[panel] == if panel in o then o[panel] else PresetSizes(p)[panel]
  {
    CustomIsNotNamed(name);
  }

  /** After any run from a valid layout, choosing preset `p` shows its canonical sizes under its last resizes. */
  lemma ChoosingShowsOverlay(start: Layout, h: seq<Action>, name: string, panel: Panel)
    requires Valid(start) && NamedOf(name).Some?
    ensures Act(Run(start, h), SetPreset(name)).sizes[panel] == Overlay(start, h, NamedOf(name).value, panel)
  {
    RunStaysValid(start, h);
    ChosenSizes(Run(start, h), name, panel);
    OverridesAreLastResizes(start, h, NamedOf(name).value, panel);
  }

  /** Once a named preset has been chosen since the last reset, the sizes shown are the anchor's overlay. */
  lemma {:induction false} ShownIsAnchorOverlay(start: Layout, h: seq<Action>, panel: Panel)
    requires Valid(start) && PresetChosen(h)
    ensures Run(start, h).sizes[panel] == Overlay(start, h, AnchorAfter(start, h), panel)
  {
    var init, a := h[..|h| - 1], h[|h| - 1];
    if a.SetPreset? && NamedOf(a.preset).Some? {
      ChoosingShowsOverlay(start, init, a.preset, panel);
    } else {
      ShownIsAnchorOverlay(start, init, panel);
      if a.SetPreset? {
        CustomIsNotNamed(a.preset);
      }
    }
  }

  /** Until then, from the initial layout, they are the first-run defaults under the resizes made. */
  lemma {:induction false} ShownBeforeChoosing(h: seq<Action>, panel: Panel)
    requires !PresetChosen(h)
    ensures AnchorAfter(INITIAL, h) == Edit
    ensures var last := LastResize(INITIAL, h, Edit, panel);
            Run(INITIAL, h).sizes[panel] == if last.Some? then last.value else DEFAULT_SIZES[panel]
  {
    if h != [] && !h[|h| - 1].ResetLayout? {
      ShownBeforeChoosing(h[..|h| - 1], panel);
      if h[|h| - 1].SetPreset? {
        CustomIsNotNamed(h[|h| - 1].preset);
      }
    }
  }

  /** Visibility before toggles: that of the last preset chosen, the defaults after a reset, or the start. */
  function BaseVisible(start: Layout, h: seq<Action>, panel: Panel): bool {
    if h == [] then start.visibility[panel]
    else
      var a := h[|h| - 1];
      if a.ResetLayout? then DEFAULT_VISIBILITY[panel]
      else if a.SetPreset? && NamedOf(a.preset).Some? then panel in PresetPanels(NamedOf(a.preset).value)
      else BaseVisible(start, h[..|h| - 1], panel)
  }

  /** How often `panel` was toggled since then. */
  function Toggles(h: seq<Action>, panel: Panel): nat {
    if h == [] then 0
    else
      var a := h[|h| - 1];
      if a.ResetLayout? || (a.SetPreset? && NamedOf(a.preset).Some?) then 0
      else Toggles(h[..|h| - 1], panel) + if a.TogglePanel? && PanelOf(a.panel) == Some(panel) then 1 else 0
  }

  lemma ActVisible(s: Layout, a: Action, panel: Panel)
    ensures Act(s, a).visibility[panel]
         == if a.ResetLayout? then DEFAULT_VISIBILITY[panel]
            else if a.SetPreset? && NamedOf(a.preset).Some? then panel in PresetPanels(NamedOf(a.preset).value)
            else if a.TogglePanel? && PanelOf(a.panel) == Some(panel) then !s.visibility[panel]
            else s.visibility[panel]
  {
    if a.SetPreset? {
      CustomIsNotNamed(a.preset);
    }
  }

  lemma ParityFlips(n: nat)
    ensures (n + 1) % 2 == 1 <==> n % 2 != 1
  {
  }

  /** A panel is shown according to its preset, flipped once per toggle since the preset was chosen. */
  lemma {:induction false} VisibleIsBaseFlipped(start: Layout, h: seq<Action>, panel: Panel)
    ensures Run(start, h).visibility[panel] == (BaseVisible(start, h, panel) != (Toggles(h, panel) % 2 == 1))
  {
    if h != [] {
      var init, a := h[..|h| - 1], h[|h| - 1];
      VisibleIsBaseFlipped(start, init, panel);
      ActVisible(Run(start, init), a, panel);
      if a.TogglePanel? && PanelOf(a.panel) == Some(panel) {
        assert Toggles(h, panel) == Toggles(init, panel) + 1;
        ParityFlips(Toggles(init, panel));
      } else {
        assert Toggles(h, panel) == 0 || Toggles(h, panel) == Toggles(init, panel);
      }
    }
  }
}
