/**
 The workspace layout store (gui/src/stores/workspaceStore.ts): presets, per-preset size
 overrides, and persistence with a sanitising reload.
 */
module Workspace {
  import opened Wrappers
  import opened JsonValues

  // ---------- Values ----------

  datatype Panel = Library | Timeline | Preview | Effects | RenderQueue | Batch

  datatype Named = Edit | Review | Render

  datatype Preset = Custom | Of(named: Named)

  predicate Total<V>(m: map<Panel, V>) {
    forall p: Panel :: p in m
  }

  type Sizes = m: map<Panel, real> | Total(m)
    witness map p: Panel | true :: 0.0

  type Visibility = m: map<Panel, bool> | Total(m)
    witness map p: Panel | true :: false

  type Overrides = map<Panel, real>

  datatype Layout = Layout(preset: Preset, anchor: Named, sizes: Sizes, visibility: Visibility,
                           byPreset: map<Named, Overrides>)

  const PANEL_IDS: seq<Panel> := [Library, Timeline, Preview, Effects, RenderQueue, Batch]
  const NAMED_PRESETS: seq<Named> := [Edit, Review, Render]

  function PanelName(p: Panel): string {
    match p
    case Library => "library"
    case Timeline => "timeline"
    case Preview => "preview"
    case Effects => "effects"
    case RenderQueue => "render-queue"
    case Batch => "batch"
  }

  function PanelOf(s: string): Option<Panel> {
    if s == "library" then Some(Library)
    else if s == "timeline" then Some(Timeline)
    else if s == "preview" then Some(Preview)
    else if s == "effects" then Some(Effects)
    else if s == "render-queue" then Some(RenderQueue)
    else if s == "batch" then Some(Batch)
    else None
  }

  function NamedName(p: Named): string {
    match p
    case Edit => "edit"
    case Review => "review"
    case Render => "render"
  }

  function NamedOf(s: string): Option<Named> {
    if s == "edit" then Some(Edit)
    else if s == "review" then Some(Review)
    else if s == "render" then Some(Render)
    else None
  }

  function PresetName(p: Preset): string {
    if p.Custom? then "custom" else NamedName(p.named)
  }

  function PresetOf(s: string): Option<Preset> {
    if s == "custom" then Some(Custom)
    else if NamedOf(s).Some? then Some(Of(NamedOf(s).value))
    else None
  }

  predicate IsFiniteSize(n: Number) {
    n.Finite? && 0.0 <= n.value <= 100.0
  }

  // ---------- Preset tables ----------

  function DefaultSize(p: Panel): real {
    match p
    case Library => 20.0
    case Preview => 100.0
    case _ => 25.0
  }

  const DEFAULT_SIZES: Sizes := map p: Panel | true :: DefaultSize(p)
  const DEFAULT_VISIBILITY: Visibility := map p: Panel | true :: p == Preview

  function PresetSize(n: Named, p: Panel): real {
    match (n, p)
    case (Edit, Library) => 20.0
    case (Edit, Timeline) => 35.0
    case (Edit, Effects) => 15.0
    case (Edit, Preview) => 30.0
    case (Review, Preview) => 60.0
    case (Review, Timeline) => 40.0
    case (Render, RenderQueue) => 30.0
    case (Render, Batch) => 30.0
    case (Render, Preview) => 40.0
    case _ => 0.0
  }

  function PresetSizes(n: Named): Sizes {
    map p: Panel | true :: PresetSize(n, p)
  }

  function PresetPanels(n: Named): set<Panel> {
    match n
    case Edit => {Library, Timeline, Effects, Preview}
    case Review => {Preview, Timeline}
    case Render => {RenderQueue, Batch, Preview}
  }

  function PresetVisibility(n: Named): Visibility {
    map p: Panel | true :: p in PresetPanels(n)
  }

  const INITIAL: Layout := Layout(Of(Edit), Edit, DEFAULT_SIZES, DEFAULT_VISIBILITY, map[])

  // ---------- Loading ----------

  function SizeEntry(m: Overrides, e: (string, Json)): Overrides {
    var panel := PanelOf(e.0);
    if panel.Some? && e.1.JNum? && IsFiniteSize(e.1.n) then m[panel.value := e.1.n.value] else m
  }

  /** The panels and sizes accepted from a list of entries, on top of `base`. */
  function SizesFrom(base: Overrides, entries: seq<(string, Json)>): (m: Overrides)
    ensures base.Keys <= m.Keys
  {
    if entries == [] then base
    else SizeEntry(SizesFrom(base, entries[..|entries| - 1]), entries[|entries| - 1])
  }

  function VisibilityFrom(base: Visibility, entries: seq<(string, Json)>): Visibility {
    if entries == [] then base
    else
      var n := |entries| - 1;
      var before := VisibilityFrom(base, entries[..n]);
      var panel := PanelOf(entries[n].0);
      if panel.Some? && entries[n].1.JBool? then before[panel.value := entries[n].1.b] else before
  }

  function PresetEntry(m: map<Named, Overrides>, e: (string, Json)): map<Named, Overrides> {
    var preset := NamedOf(e.0);
    var overrides := SizesFrom(map[], Entries(e.1));
    if preset.Some? && overrides != map[] then m[preset.value := overrides] else m
  }

  function ByPresetFrom(entries: seq<(string, Json)>): map<Named, Overrides> {
    if entries == [] then map[]
    else PresetEntry(ByPresetFrom(entries[..|entries| - 1]), entries[|entries| - 1])
  }

  function ResolveAnchor(preset: Preset, raw: Option<Json>): Named {
    if raw.Some? && raw.value.JStr? && NamedOf(raw.value.s).Some? then NamedOf(raw.value.s).value
    else if preset.Custom? then INITIAL.anchor
    else preset.named
  }

  function LoadJson(j: Json): Layout {
    var rawPreset := FieldOf(j, "preset");
    var preset :=
      if rawPreset.Some? && rawPreset.value.JStr? && PresetOf(rawPreset.value.s).Some?
      then PresetOf(rawPreset.value.s).value
      else INITIAL.preset;
    Layout(preset,
           ResolveAnchor(preset, FieldOf(j, "anchorPreset")),
           SizesFrom(DEFAULT_SIZES, EntriesOf(FieldOf(j, "panelSizes"))),
           VisibilityFrom(DEFAULT_VISIBILITY, EntriesOf(FieldOf(j, "panelVisibility"))),
           ByPresetFrom(EntriesOf(FieldOf(j, "sizesByPreset"))))
  }

  function Load(stored: Stored): Layout {
    if stored.Parsed? && (stored.json.JObj? || stored.json.JArr?) then LoadJson(stored.json) else INITIAL
  }

  // ---------- Saving ----------

  function SizeMembers(m: Overrides, panels: seq<Panel>): seq<(string, Json)> {
    if panels == [] then []
    else
      var p := panels[|panels| - 1];
      SizeMembers(m, panels[..|panels| - 1]) + if p in m then [(PanelName(p), JNum(Finite(m[p])))] else []
  }

  function VisibilityMembers(m: Visibility, panels: seq<Panel>): seq<(string, Json)>
  {
    if panels == [] then []
    else
      var p := panels[|panels| - 1];
      VisibilityMembers(m, panels[..|panels| - 1]) + [(PanelName(p), JBool(m[p]))]
  }

  function ByPresetMembers(m: map<Named, Overrides>, presets: seq<Named>): seq<(string, Json)> {
    if presets == [] then []
    else
      var p := presets[|presets| - 1];
      ByPresetMembers(m, presets[..|presets| - 1])
      + if p in m then [(NamedName(p), JObj(SizeMembers(m[p], PANEL_IDS)))] else []
  }

  /** The JSON that `saveWorkspaceState` stores. */
  function Encode(s: Layout): Json {
    JObj([
      ("preset", JStr(PresetName(s.preset))),
      ("anchorPreset", JStr(NamedName(s.anchor))),
      ("panelSizes", JObj(SizeMembers(s.sizes, PANEL_IDS))),
      ("panelVisibility", JObj(VisibilityMembers(s.visibility, PANEL_IDS))),
      ("sizesByPreset", JObj(ByPresetMembers(s.byPreset, NAMED_PRESETS)))
    ])
  }

  // ---------- Actions ----------

  /** Arguments arrive unchecked, as at run time. */
  datatype Action =
    | SetPreset(preset: string)
    | TogglePanel(panel: string)
    | ResizePanel(panel: string, size: Number)
    | ResetLayout

  function ApplyPresetSizes(name: Named, overrides: Overrides): Sizes {
    PresetSizes(name) + map p | p in overrides && IsFiniteSize(Finite(overrides[p])) :: overrides[p]
  }

  function OverridesOf(s: Layout, p: Named): Overrides {
    if p in s.byPreset then s.byPreset[p] else map[]
  }

  predicate Accepted(a: Action) {
    match a
    case SetPreset(name) => PresetOf(name).Some?
    case TogglePanel(name) => PanelOf(name).Some?
    case ResizePanel(name, size) => PanelOf(name).Some? && IsFiniteSize(size)
    case ResetLayout => true
  }

  function Act(s: Layout, a: Action): Layout {
    if !Accepted(a) then s
    else
      match a
      case SetPreset(name) =>
        var preset := PresetOf(name).value;
        if preset.Custom? then s.(preset := Custom)
        else
          var p := preset.named;
          s.(preset := preset, anchor := p, sizes := ApplyPresetSizes(p, OverridesOf(s, p)),
             visibility := PresetVisibility(p))
      case TogglePanel(name) =>
        var p := PanelOf(name).value;
        s.(visibility := s.visibility[p := !s.visibility[p]])
      case ResizePanel(name, size) =>
        var p := PanelOf(name).value;
        s.(preset := Custom, sizes := s.sizes[p := size.value],
           byPreset := s.byPreset[s.anchor := OverridesOf(s, s.anchor)[p := size.value]])
      case ResetLayout => INITIAL
  }

  /** What the action leaves in storage; a rejected action, or re-choosing `custom`, writes nothing. */
  function Persist(available: bool, s: Layout, stored: Stored, a: Action): Stored {
    if !available || !Accepted(a) then stored
    else if a.ResetLayout? then Absent
    else if a.SetPreset? && PresetOf(a.preset).value.Custom? && s.preset.Custom? then stored
    else Parsed(Encode(Act(s, a)))
  }

  /** The store object. */
  class Store {
    const storageAvailable: bool
    var stored: Stored
    var layout: Layout

    constructor (available: bool, found: Stored)
      ensures storageAvailable == available && stored == found
      ensures layout == Load(if available then found else Absent)
    {
      storageAvailable := available;
      stored := found;
      var hydrated := LoadWorkspaceState(if available then found else Absent);
      layout := hydrated;
    }

    static method LoadPanelSizes(base: Overrides, entries: seq<(string, Json)>) returns (sizes: Overrides)
      ensures sizes == SizesFrom(base, entries)
    {
      sizes := base;
      for i := 0 to |entries|
        invariant sizes == SizesFrom(base, entries[..i])
      {
        assert entries[..i + 1][..i] == entries[..i];
        var (key, value) := entries[i];
        var panel := PanelOf(key);
        if panel.Some? && value.JNum? && IsFiniteSize(value.n) {
          sizes := sizes[panel.value := value.n.value];
        }
      }
      assert entries[..|entries|] == entries;
    }

    static method LoadPanelVisibility(entries: seq<(string, Json)>) returns (visibility: Visibility)
      ensures visibility == VisibilityFrom(DEFAULT_VISIBILITY, entries)
    {
      visibility := DEFAULT_VISIBILITY;
      for i := 0 to |entries|
        invariant visibility == VisibilityFrom(DEFAULT_VISIBILITY, entries[..i])
      {
        assert entries[..i + 1][..i] == entries[..i];
        var (key, value) := entries[i];
        var panel := PanelOf(key);
        if panel.Some? && value.JBool? {
          visibility := visibility[panel.value := value.b];
        }
      }
      assert entries[..|entries|] == entries;
    }

    static method SanitizeSizesByPreset(entries: seq<(string, Json)>) returns (out: map<Named, Overrides>)
      ensures out == ByPresetFrom(entries)
    {
      out := map[];
      for i := 0 to |entries|
        invariant out == ByPresetFrom(entries[..i])
      {
        assert entries[..i + 1][..i] == entries[..i];
        var preset := NamedOf(entries[i].0);
        if preset.Some? {
          var overrides := LoadPanelSizes(map[], Entries(entries[i].1));
          if overrides != map[] {
            out := out[preset.value := overrides];
          }
        }
      }
      assert entries[..|entries|] == entries;
    }

    static method LoadWorkspaceState(found: Stored) returns (s: Layout)
      ensures s == Load(found)
    {
      if !found.Parsed? || !(found.json.JObj? || found.json.JArr?) {
        return INITIAL;
      }
      var json := found.json;
      var rawPreset := FieldOf(json, "preset");
      var preset := INITIAL.preset;
      if rawPreset.Some? && rawPreset.value.JStr? && PresetOf(rawPreset.value.s).Some? {
        preset := PresetOf(rawPreset.value.s).value;
      }
      var sizes := LoadPanelSizes(DEFAULT_SIZES, EntriesOf(FieldOf(json, "panelSizes")));
      var visibility := LoadPanelVisibility(EntriesOf(FieldOf(json, "panelVisibility")));
      var byPreset := SanitizeSizesByPreset(EntriesOf(FieldOf(json, "sizesByPreset")));
      s := Layout(preset, ResolveAnchor(preset, FieldOf(json, "anchorPreset")), sizes, visibility, byPreset);
    }

    static method ComputePresetSizes(name: Named, overrides: Overrides) returns (base: Sizes)
      ensures base == ApplyPresetSizes(name, overrides)
    {
      base := PresetSizes(name);
      var todo := overrides.Keys;
      while todo != {}
        invariant todo <= overrides.Keys
        invariant base == PresetSizes(name)
                  + map p | p in overrides && p !in todo && IsFiniteSize(Finite(overrides[p])) :: overrides[p]
        decreases todo
      {
        var p :| p in todo;
        todo := todo - {p};
        if IsFiniteSize(Finite(overrides[p])) {
          base := base[p := overrides[p]];
        }
      }
    }

    method Save()
      modifies this`stored
      ensures stored == if storageAvailable then Parsed(Encode(layout)) else old(stored)
    {
      if storageAvailable {
        stored := Parsed(Encode(layout));
      }
    }

    /** `thrown` reports the TypeError for an unknown preset. */
    method ChoosePreset(name: string) returns (thrown: bool)
      modifies this
      ensures thrown <==> PresetOf(name).None?
      ensures layout == Act(old(layout), SetPreset(name))
      ensures stored == Persist(storageAvailable, old(layout), old(stored), SetPreset(name))
    {
      var preset := PresetOf(name);
      if preset.None? {
        return true;
      }
      if preset.value.Custom? {
        if layout.preset.Custom? {
          return false;
        }
        layout := layout.(preset := Custom);
        Save();
        return false;
      }
      var p := preset.value.named;
      var sizes := ComputePresetSizes(p, OverridesOf(layout, p));
      layout := layout.(preset := preset.value, anchor := p, sizes := sizes, visibility := PresetVisibility(p));
      Save();
      return false;
    }

    method Toggle(name: string)
      modifies this
      ensures layout == Act(old(layout), TogglePanel(name))
      ensures stored == Persist(storageAvailable, old(layout), old(stored), TogglePanel(name))
    {
      var panel := PanelOf(name);
      if panel.Some? {
        var p := panel.value;
        layout := layout.(visibility := layout.visibility[p := !layout.visibility[p]]);
        Save();
      }
    }

    method Resize(name: string, size: Number)
      modifies this
      ensures layout == Act(old(layout), ResizePanel(name, size))
      ensures stored == Persist(storageAvailable, old(layout), old(stored), ResizePanel(name, size))
    {
      var panel := PanelOf(name);
      if panel.Some? && IsFiniteSize(size) {
        var p, anchor := panel.value, layout.anchor;
        var next := OverridesOf(layout, anchor)[p := size.value];
        layout := layout.(preset := Custom, sizes := layout.sizes[p := size.value],
          byPreset := layout.byPreset[anchor := next]);
        Save();
      }
    }

    method ResetAll()
      modifies this
      ensures layout == Act(old(layout), ResetLayout)
      ensures stored == Persist(storageAvailable, old(layout), old(stored), ResetLayout)
    {
      layout := INITIAL;
      if storageAvailable {
        stored := Absent;
      }
    }
  }
}
