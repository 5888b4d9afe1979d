/**
 The module-level shortcut registry shared by every mounted `useKeyboardShortcuts`
 (gui/src/hooks/useKeyboardShortcuts.ts), and its key dispatch.
 */
module ShortcutRegistry {
  import opened Wrappers
  import opened Shortcuts

  datatype Binding = Binding(combo: string, action: string, handler: int)

  /** A `Map` entry; the registry keeps insertion order. */
  datatype Entry = Entry(combo: string, parsed: ParsedCombo, binding: Binding)

  /** One live effect: its bindings, and the combos its cleanup will delete. */
  datatype Mount = Mount(bindings: seq<Binding>, added: seq<string>)

  datatype State = State(entries: seq<Entry>, live: map<int, Mount>)

  const INITIAL := State([], map[])

  predicate HasCombo(entries: seq<Entry>, combo: string) {
    exists i :: 0 <= i < |entries| && entries[i].combo == combo
  }

  function EntryOf(b: Binding): Entry {
    Entry(b.combo, ParseCombo(b.combo), b)
  }

  /** The entries a mount adds: the first binding of each combo not yet registered. */
  function NewEntries(entries: seq<Entry>, bindings: seq<Binding>): seq<Entry> {
    if bindings == [] then []
    else
      var n := |bindings| - 1;
      var before := NewEntries(entries, bindings[..n]);
      if HasCombo(entries + before, bindings[n].combo) then before else before + [EntryOf(bindings[n])]
  }

  function CombosOf(entries: seq<Entry>): (cs: seq<string>)
    ensures |cs| == |entries|
    ensures forall i :: 0 <= i < |entries| ==> cs[i] == entries[i].combo
  {
    if entries == [] then [] else CombosOf(entries[..|entries| - 1]) + [entries[|entries| - 1].combo]
  }

  function Mounted(s: State, id: int, bindings: seq<Binding>): State {
    var added := NewEntries(s.entries, bindings);
    State(s.entries + added, s.live[id := Mount(bindings, CombosOf(added))])
  }

  /** After the first `i` bindings the registry and the list of added combos are these. */
  ghost predicate Adding(before: seq<Entry>, bindings: seq<Binding>, i: nat, entries: seq<Entry>, added: seq<string>)
    requires i <= |bindings|
  {
    var news := NewEntries(before, bindings[..i]);
    entries == before + news && added == CombosOf(news)
  }

  lemma {:induction false} OneMoreBinding(
      before: seq<Entry>, bindings: seq<Binding>, i: nat, entries: seq<Entry>, added: seq<string>)
    requires i < |bindings| && Adding(before, bindings, i, entries, added)
    ensures var b := bindings[i];
            if HasCombo(entries, b.combo) then Adding(before, bindings, i + 1, entries, added)
            else Adding(before, bindings, i + 1, entries + [EntryOf(b)], added + [b.combo])
  {
    var news, e := NewEntries(before, bindings[..i]), EntryOf(bindings[i]);
    assert bindings[..i + 1][..i] == bindings[..i];
    assert (news + [e])[..|news|] == news;
    assert before + (news + [e]) == (before + news) + [e];
  }

  /** `registry.delete(combo)` */
  function Deleted(entries: seq<Entry>, combo: string): seq<Entry> {
    if entries == [] then []
    else
      var n := |entries| - 1;
      Deleted(entries[..n], combo) + if entries[n].combo == combo then [] else [entries[n]]
  }

  function DeletedAll(entries: seq<Entry>, combos: seq<string>): seq<Entry> {
    if combos == [] then entries else Deleted(DeletedAll(entries, combos[..|combos| - 1]), combos[|combos| - 1])
  }

  function Unmounted(s: State, id: int): State
    requires id in s.live
  {
    State(DeletedAll(s.entries, s.live[id].added), s.live - {id})
  }

  datatype Event = Enter(id: int, bindings: seq<Binding>) | Leave(id: int)

  /** Mounts have fresh ids; only a live mount can leave. */
  function Step(s: State, e: Event): State {
    match e
    case Enter(id, bindings) => if id in s.live then s else Mounted(s, id, bindings)
    case Leave(id) => if id in s.live then Unmounted(s, id) else s
  }

  function Run(es: seq<Event>): State {
    if es == [] then INITIAL else Step(Run(es[..|es| - 1]), es[|es| - 1])
  }

  // ---------- Dispatch ----------

  datatype KeyEvent = KeyEvent(ctrlKey: bool, metaKey: bool, shiftKey: bool, altKey: bool, key: string, inForm: bool)

  predicate EventMatches(c: ParsedCombo, e: KeyEvent) {
    && c.ctrlOrMeta == (e.ctrlKey || e.metaKey)
    && (c.shift ==> e.shiftKey)
    && c.alt == e.altKey
    && Lower(e.key) == c.key
  }

  /** The combo held down in a key event. */
  function Held(e: KeyEvent): ParsedCombo {
    ParsedCombo(e.ctrlKey || e.metaKey, e.shiftKey, e.altKey, Lower(e.key))
  }

  /** An event answers to the combo held down, and to that combo without Shift. */
  predicate Answers(c: ParsedCombo, e: KeyEvent) {
    c == Held(e) || c == Held(e).(shift := false)
  }

  lemma {:induction false} MatchesExactlyWhen(c: ParsedCombo, e: KeyEvent)
    ensures EventMatches(c, e) <==> Answers(c, e)
  {
  }

  predicate FirstMatch(entries: seq<Entry>, e: KeyEvent, i: int) {
    && 0 <= i < |entries|
    && Answers(entries[i].parsed, e)
    && forall j :: 0 <= j < i ==> !Answers(entries[j].parsed, e)
  }

  // ---------- The registry ----------

  class Registry {
    var entries: seq<Entry>
    var live: map<int, Mount>

    function View(): State
      reads this
    {
      State(entries, live)
    }

    constructor ()
      ensures View() == INITIAL
    {
      entries := [];
      live := map[];
    }

    method MountEffect(id: int, bindings: seq<Binding>)
      requires id !in live
      modifies this
      ensures View() == Step(old(View()), Enter(id, bindings))
    {
      var added: seq<string> := [];
      for i := 0 to |bindings|
        modifies this`entries
        invariant Adding(old(entries), bindings, i, entries, added)
      {
        var binding := bindings[i];
        OneMoreBinding(old(entries), bindings, i, entries, added);
        if !HasCombo(entries, binding.combo) {
          var parsed := ComputeParse(binding.combo);
          entries := entries + [Entry(binding.combo, parsed, binding)];
          added := added + [binding.combo];
        }
      }
      assert bindings[..|bindings|] == bindings;
      live := live[id := Mount(bindings, added)];
    }

    method Cleanup(id: int)
      requires id in live
      modifies this
      ensures View() == Step(old(View()), Leave(id))
    {
      var added := live[id].added;
      for i := 0 to |added|
        modifies this`entries
        invariant entries == DeletedAll(old(entries), added[..i])
      {
        assert added[..i + 1][..i] == added[..i];
        entries := Deleted(entries, added[i]);
      }
      assert added[..|added|] == added;
      live := live - {id};
    }

    /** Fires the first registered match and no other; a key typed into a form control fires none. */
    method HandleKeyDown(e: KeyEvent) returns (fired: Option<Binding>)
      ensures fired.None? <==> e.inForm || forall i :: 0 <= i < |entries| ==> !Answers(entries[i].parsed, e)
      ensures fired.Some? ==>
                exists i :: 0 <= i < |entries| && fired.value == entries[i].binding && FirstMatch(entries, e, i)
    {
      if e.inForm {
        return None;
      }
      for i := 0 to |entries|
        invariant forall j :: 0 <= j < i ==> !Answers(entries[j].parsed, e)
      {
        MatchesExactlyWhen(entries[i].parsed, e);
        if EventMatches(entries[i].parsed, e) {
          assert FirstMatch(entries, e, i);
          return Some(entries[i].binding);
        }
      }
      return None;
    }
  }

  // ---------- Ownership ----------

  predicate DistinctCombos(entries: seq<Entry>) {
    forall i, j :: 0 <= i < j < |entries| ==> entries[i].combo != entries[j].combo
  }

  /** `b` is the first of `bindings` with its combo. */
  predicate FirstWithCombo(bindings: seq<Binding>, b: Binding) {
    exists i :: 0 <= i < |bindings| && bindings[i] == b && forall j :: 0 <= j < i ==> bindings[j].combo != b.combo
  }

  predicate Owns(s: State, id: int, combo: string) {
    id in s.live && combo in s.live[id].added
  }

  /** The entry is in the registry for mount `id`, with its first binding of that combo and the parse of it. */
  predicate ServedBy(s: State, e: Entry, id: int) {
    Owns(s, id, e.combo) && e.parsed == ParseCombo(e.combo) && e.binding.combo == e.combo
    && FirstWithCombo(s.live[id].bindings, e.binding)
  }

  ghost predicate Inv(s: State) {
    && DistinctCombos(s.entries)
    && (forall id, c :: Owns(s, id, c) ==> HasCombo(s.entries, c))
    && (forall e :: e in s.entries ==> exists id :: ServedBy(s, e, id))
    && (forall id, id', c :: Owns(s, id, c) && Owns(s, id', c) ==> id == id')
  }

  lemma {:induction false} NewEntriesAreNew(entries: seq<Entry>, bindings: seq<Binding>)
    requires DistinctCombos(entries)
    ensures DistinctCombos(entries + NewEntries(entries, bindings))
  {
    if bindings == [] {
      assert entries + [] == entries;
    } else {
      var n := |bindings| - 1;
      var before := NewEntries(entries, bindings[..n]);
      var e := EntryOf(bindings[n]);
      NewEntriesAreNew(entries, bindings[..n]);
      if !HasCombo(entries + before, e.combo) {
        assert entries + (before + [e]) == (entries + before) + [e];
      }
    }
  }

  lemma {:induction false} NewEntriesAreFirst(entries: seq<Entry>, bindings: seq<Binding>, e: Entry)
    requires e in NewEntries(entries, bindings)
    ensures e == EntryOf(e.binding) && FirstWithCombo(bindings, e.binding)
  {
    var n := |bindings| - 1;
    var init := bindings[..n];
    var before := NewEntries(entries, init);
    if e in before {
      NewEntriesAreFirst(entries, init, e);
      var i :| 0 <= i < |init| && init[i] == e.binding && forall j :: 0 <= j < i ==> init[j].combo != e.binding.combo;
      assert bindings[i] == e.binding && forall j :: 0 <= j < i ==> bindings[j] == init[j];
    } else {
      assert e == EntryOf(bindings[n]);
      forall j | 0 <= j < n
        ensures bindings[j].combo != e.combo
      {
        BindingsCovered(entries, init, init[j]);
      }
    }
  }

  lemma {:induction false} HasComboGrows(entries: seq<Entry>, longer: seq<Entry>, c: string)
    requires HasCombo(entries, c) && entries <= longer
    ensures HasCombo(longer, c)
  {
    var i :| 0 <= i < |entries| && entries[i].combo == c;
    assert longer[i].combo == c;
  }

  /** The combos registered so far stay registered through one more binding, and its combo is registered too. */
  lemma {:induction false} NewEntriesStep(entries: seq<Entry>, bindings: seq<Binding>, c: string)
    requires bindings != []
    requires || c == bindings[|bindings| - 1].combo
             || HasCombo(entries + NewEntries(entries, bindings[..|bindings| - 1]), c)
    ensures HasCombo(entries + NewEntries(entries, bindings), c)
  {
    var n := |bindings| - 1;
    var before, after := entries + NewEntries(entries, bindings[..n]), entries + NewEntries(entries, bindings);
    if HasCombo(before, c) {
      assert before <= after;
      HasComboGrows(before, after, c);
    } else {
      assert after == before + [EntryOf(bindings[n])];
      assert after[|before|].combo == c;
    }
  }

  lemma {:induction false} BindingsCovered(entries: seq<Entry>, bindings: seq<Binding>, b: Binding)
    requires b in bindings
    ensures HasCombo(entries + NewEntries(entries, bindings), b.combo)
  {
    var n := |bindings| - 1;
    assert bindings == bindings[..n] + [bindings[n]];
    if b in bindings[..n] {
      BindingsCovered(entries, bindings[..n], b);
    }
    NewEntriesStep(entries, bindings, b.combo);
  }

  lemma {:induction false} DeletedSelects(entries: seq<Entry>, combo: string)
    ensures forall e :: e in Deleted(entries, combo) <==> e in entries && e.combo != combo
    ensures DistinctCombos(entries) ==> DistinctCombos(Deleted(entries, combo))
  {
    if entries != [] {
      var n := |entries| - 1;
      var init, d := entries[..n], Deleted(entries[..n], combo);
      DeletedSelects(init, combo);
      assert entries == init + [entries[n]];
      if DistinctCombos(entries) {
        assert DistinctCombos(init);
        forall i | 0 <= i < |d|
          ensures d[i].combo != entries[n].combo
        {
          assert d[i] in init;
        }
      }
    }
  }

  lemma {:induction false} InSnoc<T>(s: seq<T>, x: T)
    requires s != []
    ensures x in s <==> x in s[..|s| - 1] || x == s[|s| - 1]
  {
    assert s == s[..|s| - 1] + [s[|s| - 1]];
  }

  /** Deleting a list of combos leaves exactly the other entries. */
  lemma {:induction false} DeletedAllSelects(entries: seq<Entry>, combos: seq<string>)
    ensures forall e :: e in DeletedAll(entries, combos) <==> e in entries && e.combo !in combos
    ensures DistinctCombos(entries) ==> DistinctCombos(DeletedAll(entries, combos))
  {
    if combos != [] {
      var n := |combos| - 1;
      DeletedAllSelects(entries, combos[..n]);
      DeletedSelects(DeletedAll(entries, combos[..n]), combos[n]);
      forall e: Entry
        ensures e.combo in combos <==> e.combo in combos[..n] || e.combo == combos[n]
      {
        InSnoc(combos, e.combo);
      }
    }
  }

  lemma {:induction false} HasComboIn(entries: seq<Entry>, combo: string)
    ensures HasCombo(entries, combo) <==> exists e :: e in entries && e.combo == combo
  {
    if HasCombo(entries, combo) {
      var i :| 0 <= i < |entries| && entries[i].combo == combo;
      assert entries[i] in entries;
    }
  }

  lemma {:induction false} ComboOfNew(entries: seq<Entry>, bindings: seq<Binding>, c: string)
    requires DistinctCombos(entries)
    ensures c in CombosOf(NewEntries(entries, bindings)) ==> !HasCombo(entries, c)
    ensures c in CombosOf(NewEntries(entries, bindings)) <==> HasCombo(NewEntries(entries, bindings), c)
  {
    NewEntriesAreNew(entries, bindings);
    var added := NewEntries(entries, bindings);
    if c in CombosOf(added) {
      var k :| 0 <= k < |added| && CombosOf(added)[k] == c;
      assert (entries + added)[|entries| + k].combo == c;
      forall i | 0 <= i < |entries|
        ensures entries[i].combo != c
      {
        assert (entries + added)[i] == entries[i];
      }
    }
    if HasCombo(added, c) {
      var k :| 0 <= k < |added| && added[k].combo == c;
      assert CombosOf(added)[k] == c;
    }
  }

  lemma {:induction false} HasComboSplit(a: seq<Entry>, b: seq<Entry>, c: string)
    ensures HasCombo(a + b, c) <==> HasCombo(a, c) || HasCombo(b, c)
  {
    if HasCombo(a, c) {
      var k :| 0 <= k < |a| && a[k].combo == c;
      assert (a + b)[k].combo == c;
    }
    if HasCombo(b, c) {
      var k :| 0 <= k < |b| && b[k].combo == c;
      assert (a + b)[|a| + k].combo == c;
    }
  }

  /** Who owns what after a mount. */
  lemma {:induction false} MountOwnership(s: State, id: int, bindings: seq<Binding>, other: int, c: string)
    requires Inv(s) && id !in s.live
    ensures Owns(Mounted(s, id, bindings), other, c)
       <==> if other == id then HasCombo(NewEntries(s.entries, bindings), c) else Owns(s, other, c)
    ensures HasCombo(NewEntries(s.entries, bindings), c) ==> !HasCombo(s.entries, c)
  {
    ComboOfNew(s.entries, bindings, c);
  }

  lemma {:induction false} MountServes(s: State, id: int, bindings: seq<Binding>, e: Entry)
    requires Inv(s) && id !in s.live && e in Mounted(s, id, bindings).entries
    ensures exists i :: ServedBy(Mounted(s, id, bindings), e, i)
  {
    var r := Mounted(s, id, bindings);
    var added := NewEntries(s.entries, bindings);
    if e in s.entries {
      var i :| ServedBy(s, e, i);
      assert ServedBy(r, e, i);
    } else {
      NewEntriesAreFirst(s.entries, bindings, e);
      HasComboIn(added, e.combo);
      MountOwnership(s, id, bindings, id, e.combo);
      assert ServedBy(r, e, id);
    }
  }

  lemma {:induction false} MountKeepsInv(s: State, id: int, bindings: seq<Binding>)
    requires Inv(s) && id !in s.live
    ensures Inv(Mounted(s, id, bindings))
  {
    var r := Mounted(s, id, bindings);
    NewEntriesAreNew(s.entries, bindings);
    forall i, c | Owns(r, i, c)
      ensures HasCombo(r.entries, c)
    {
      MountOwnership(s, id, bindings, i, c);
      HasComboSplit(s.entries, NewEntries(s.entries, bindings), c);
    }
    forall e | e in r.entries
      ensures exists i :: ServedBy(r, e, i)
    {
      MountServes(s, id, bindings, e);
    }
    forall i, j, c | Owns(r, i, c) && Owns(r, j, c)
      ensures i == j
    {
      MountOwnership(s, id, bindings, i, c);
      MountOwnership(s, id, bindings, j, c);
    }
  }

  lemma {:induction false} UnmountKeepsInv(s: State, id: int)
    requires Inv(s) && id in s.live
    ensures Inv(Unmounted(s, id))
  {
    var added := s.live[id].added;
    var r := Unmounted(s, id);
    DeletedAllSelects(s.entries, added);
    forall i, c | Owns(r, i, c)
      ensures HasCombo(r.entries, c)
    {
      assert Owns(s, i, c);
      HasComboIn(s.entries, c);
      HasComboIn(r.entries, c);
      assert c in added ==> Owns(s, id, c);
    }
    forall e | e in r.entries
      ensures exists i :: ServedBy(r, e, i)
    {
      var i :| ServedBy(s, e, i);
      assert ServedBy(r, e, i);
    }
    forall i, j, c | Owns(r, i, c) && Owns(r, j, c)
      ensures i == j
    {
      assert Owns(s, i, c) && Owns(s, j, c);
    }
  }

  /**
   Over every interleaving of mounts and unmounts: combos are distinct, each is owned by exactly one
   live mount and bound to that mount's first binding of it, and every owned combo is registered.
   */
  lemma {:induction false} RunKeepsOwnership(es: seq<Event>)
    ensures Inv(Run(es))
  {
    if es != [] {
      var s, e := Run(es[..|es| - 1]), es[|es| - 1];
      RunKeepsOwnership(es[..|es| - 1]);
      match e {
        case Enter(id, bindings) =>
          if id !in s.live {
            MountKeepsInv(s, id, bindings);
          }
        case Leave(id) =>
          if id in s.live {
            UnmountKeepsInv(s, id);
          }
      }
    }
  }

  /** An unmount removes exactly its own combos, and no other mount's entry or ownership. */
  lemma {:induction false} UnmountRemovesOnlyItsOwn(es: seq<Event>, id: int, e: Entry)
    requires id in Run(es).live && e in Run(es).entries
    ensures var s, r := Run(es), Step(Run(es), Leave(id));
            && (e in r.entries <==> !Owns(s, id, e.combo))
            && (forall other, c :: other != id ==> (Owns(s, other, c) <==> Owns(r, other, c)))
  {
    DeletedAllSelects(Run(es).entries, Run(es).live[id].added);
  }

  lemma {:induction false} OwnedIffRegistered(s: State, c: string)
    requires Inv(s)
    ensures HasCombo(s.entries, c) <==> exists id :: Owns(s, id, c)
  {
    if HasCombo(s.entries, c) {
      HasComboIn(s.entries, c);
      var e :| e in s.entries && e.combo == c;
      var id :| ServedBy(s, e, id);
      assert Owns(s, id, c);
    }
  }

  lemma {:induction false} NewComboIffFree(entries: seq<Entry>, bindings: seq<Binding>, c: string)
    requires DistinctCombos(entries)
    ensures HasCombo(NewEntries(entries, bindings), c)
       <==> (exists b :: b in bindings && b.combo == c) && !HasCombo(entries, c)
  {
    var added := NewEntries(entries, bindings);
    ComboOfNew(entries, bindings, c);
    if HasCombo(added, c) {
      HasComboIn(added, c);
      var e :| e in added && e.combo == c;
      NewEntriesAreFirst(entries, bindings, e);
      assert e.binding in bindings;
    }
    if b :| b in bindings && b.combo == c {
      BindingsCovered(entries, bindings, b);
      HasComboSplit(entries, added, c);
    }
  }

  /** A mount gets exactly those of its combos that no live mount owns. */
  lemma {:induction false} MountOwnsWhatIsFree(es: seq<Event>, id: int, bindings: seq<Binding>, combo: string)
    requires id !in Run(es).live
    ensures Owns(Step(Run(es), Enter(id, bindings)), id, combo)
       <==> (exists b :: b in bindings && b.combo == combo) && !exists other :: Owns(Run(es), other, combo)
  {
    var s := Run(es);
    RunKeepsOwnership(es);
    MountOwnership(s, id, bindings, id, combo);
    NewComboIffFree(s.entries, bindings, combo);
    OwnedIffRegistered(s, combo);
  }

  // ---------- The first registration ----------

  /** Mount `id` is live and one of its bindings is for `c`. */
  predicate Lists(s: State, id: int, c: string) {
    id in s.live && exists b :: b in s.live[id].bindings && b.combo == c
  }

  /** Live mounts list the combo, yet it is not registered: no key event reaches any of them through it. */
  ghost predicate Dead(s: State, c: string) {
    !HasCombo(s.entries, c) && exists id :: Lists(s, id, c)
  }

  lemma {:induction false} OwnersList(s: State, id: int, c: string)
    requires Inv(s) && Owns(s, id, c)
    ensures HasCombo(s.entries, c) && Lists(s, id, c)
  {
    HasComboIn(s.entries, c);
    var e :| e in s.entries && e.combo == c;
    var owner :| ServedBy(s, e, owner);
    assert Owns(s, owner, c);
    assert e.binding in s.live[id].bindings;
  }

  /** A combo is dead after an unmount exactly when its owner left, or it had none, and another live mount lists it. */
  lemma {:induction false} LeaveKillsExactlyWhen(es: seq<Event>, id: int, c: string)
    requires id in Run(es).live
    ensures Dead(Step(Run(es), Leave(id)), c)
       <==> (Owns(Run(es), id, c) || !HasCombo(Run(es).entries, c))
            && exists other :: other != id && Lists(Run(es), other, c)
  {
    var s, r := Run(es), Step(Run(es), Leave(id));
    RunKeepsOwnership(es);
    RunKeepsOwnership(es + [Leave(id)]);
    assert (es + [Leave(id)])[..|es|] == es;
    OwnedIffRegistered(s, c);
    OwnedIffRegistered(r, c);
    assert forall other :: Owns(r, other, c) <==> other != id && Owns(s, other, c);
    assert forall other :: Lists(r, other, c) <==> other != id && Lists(s, other, c);
  }

  /** The position in the run of the event that mounted the live mount `id`. */
  function MountedAt(es: seq<Event>, id: int): (p: nat)
    requires id in Run(es).live
    ensures p < |es| && es[p] == Enter(id, Run(es).live[id].bindings) && id !in Run(es[..p]).live
  {
    var n := |es| - 1;
    if id in Run(es[..n]).live then
      assert forall p :: 0 <= p <= n ==> es[..n][..p] == es[..p];
      MountedAt(es[..n], id)
    else n
  }

  /** Of the live mounts that list `c`, mount `id` mounted first. */
  ghost predicate FirstListing(es: seq<Event>, id: int, c: string) {
    && Lists(Run(es), id, c)
    && forall other :: Lists(Run(es), other, c) ==> MountedAt(es, id) <= MountedAt(es, other)
  }

  /** From event `p` on, a mount left while it owned `c`. */
  ghost predicate OwnerLeftSince(es: seq<Event>, p: nat, c: string) {
    exists k :: p <= k < |es| && OwnerLeavesAt(es, k, c)
  }

  predicate OwnerLeavesAt(es: seq<Event>, k: nat, c: string) {
    k < |es| && es[k].Leave? && Owns(Run(es[..k]), es[k].id, c)
  }

  /** One event earlier a live mount was live, with the same bindings and combos, unless it was just mounted. */
  lemma {:induction false} LiveBefore(es: seq<Event>, id: int)
    requires id in Run(es).live && MountedAt(es, id) < |es| - 1
    ensures var init := es[..|es| - 1];
            id in Run(init).live && Run(init).live[id] == Run(es).live[id] && MountedAt(init, id) == MountedAt(es, id)
  {
  }

  /** A live mount has been live, unchanged, ever since it mounted. */
  lemma {:induction false} LiveSinceMounted(es: seq<Event>, id: int, k: nat)
    requires id in Run(es).live && MountedAt(es, id) < k <= |es|
    ensures id in Run(es[..k]).live && Run(es[..k]).live[id] == Run(es).live[id]
    decreases |es|
  {
    if k == |es| {
      assert es[..k] == es;
    } else {
      var init := es[..|es| - 1];
      assert init[..k] == es[..k];
      LiveBefore(es, id);
      LiveSinceMounted(init, id, k);
    }
  }

  /** What a live mount owns was settled when it mounted. */
  lemma {:induction false} OwnedIffFreeAtMount(es: seq<Event>, id: int, c: string)
    requires id in Run(es).live
    ensures var p := MountedAt(es, id);
            Owns(Run(es), id, c) <==> Lists(Run(es), id, c) && !exists other :: Owns(Run(es[..p]), other, c)
  {
    var p := MountedAt(es, id);
    LiveSinceMounted(es, id, p + 1);
    RunSnoc(es, p);
    MountOwnsWhatIsFree(es[..p], id, Run(es).live[id].bindings, c);
  }

  /** One more event leaves an owner in place, unless it is that owner's unmount. */
  lemma {:induction false} OwnerStepsOrLeaves(es: seq<Event>, id: int, c: string)
    requires es != [] && Owns(Run(es[..|es| - 1]), id, c) && es[|es| - 1] != Leave(id)
    ensures Owns(Run(es), id, c) && MountedAt(es, id) == MountedAt(es[..|es| - 1], id)
  {
  }

  lemma {:induction false} LeftSinceGrows(es: seq<Event>, p: nat, c: string)
    requires es != [] && OwnerLeftSince(es[..|es| - 1], p, c)
    ensures OwnerLeftSince(es, p, c)
  {
    var init := es[..|es| - 1];
    var k :| p <= k < |init| && OwnerLeavesAt(init, k, c);
    assert init[..k] == es[..k];
    assert OwnerLeavesAt(es, k, c);
  }

  lemma {:induction false} OwnerLeavesNow(es: seq<Event>, p: nat, id: int, c: string)
    requires p < |es| && Owns(Run(es[..|es| - 1]), id, c) && es[|es| - 1] == Leave(id)
    ensures OwnerLeftSince(es, p, c)
  {
    assert OwnerLeavesAt(es, |es| - 1, c);
  }

  /** The mount still owns the combo, having mounted before `p`, or an owner has left since. */
  ghost predicate StaysOrLeft(es: seq<Event>, p: nat, id: int, c: string) {
    (Owns(Run(es), id, c) && MountedAt(es, id) < p) || OwnerLeftSince(es, p, c)
  }

  lemma {:induction false} OwnerOneMore(es: seq<Event>, p: nat, id: int, c: string)
    requires p < |es| && StaysOrLeft(es[..|es| - 1], p, id, c)
    ensures StaysOrLeft(es, p, id, c)
  {
    if OwnerLeftSince(es[..|es| - 1], p, c) {
      LeftSinceGrows(es, p, c);
    } else if es[|es| - 1] == Leave(id) {
      OwnerLeavesNow(es, p, id, c);
    } else {
      OwnerStepsOrLeaves(es, id, c);
    }
  }

  /** An owner either leaves later or still owns the combo, having mounted earlier. */
  lemma {:induction false} OwnerStaysOrLeaves(es: seq<Event>, p: nat, id: int, c: string)
    requires p <= |es| && Owns(Run(es[..p]), id, c)
    ensures StaysOrLeft(es, p, id, c)
    decreases |es|
  {
    if p == |es| {
      assert es[..p] == es;
    } else {
      assert es[..|es| - 1][..p] == es[..p];
      OwnerStaysOrLeaves(es[..|es| - 1], p, id, c);
      OwnerOneMore(es, p, id, c);
    }
  }

  lemma {:induction false} OneOwner(es: seq<Event>, i: int, j: int, c: string)
    requires Owns(Run(es), i, c) && Owns(Run(es), j, c)
    ensures i == j
  {
    RunKeepsOwnership(es);
  }

  lemma {:induction false} OwnedSinceMounted(es: seq<Event>, id: int, c: string, k: nat)
    requires id in Run(es).live && MountedAt(es, id) < k <= |es|
    ensures id in Run(es[..k]).live && (Owns(Run(es[..k]), id, c) <==> Owns(Run(es), id, c))
  {
    LiveSinceMounted(es, id, k);
  }

  /** No owner leaves while another mount that stays live owns the combo. */
  lemma {:induction false} OwnerBlocksOthers(es: seq<Event>, id: int, c: string, k: nat)
    requires Owns(Run(es), id, c) && MountedAt(es, id) < k < |es|
    ensures !OwnerLeavesAt(es, k, c)
  {
    OwnedSinceMounted(es, id, c, k);
    OwnedSinceMounted(es, id, c, k + 1);
    if OwnerLeavesAt(es, k, c) {
      OwnerIsTheLeaver(es, id, c, k);
      assert false;
    }
  }

  lemma {:induction false} OwnerIsTheLeaver(es: seq<Event>, id: int, c: string, k: nat)
    requires OwnerLeavesAt(es, k, c) && Owns(Run(es[..k]), id, c)
    ensures id !in Run(es[..k + 1]).live
  {
    OneOwner(es[..k], es[k].id, id, c);
    RunSnoc(es, k);
  }

  lemma {:induction false} RunSnoc(es: seq<Event>, k: nat)
    requires k < |es|
    ensures Run(es[..k + 1]) == Step(Run(es[..k]), es[k])
  {
    assert es[..k + 1][..k] == es[..k];
  }

  /**
   The first registration wins over a whole run exactly when no owner has left since: of the live
   mounts that list a combo, the first one mounted owns it if and only if no mount owning the combo
   has unmounted after it mounted.
   */
  lemma {:induction false} FirstListingOwnsExactlyWhen(es: seq<Event>, id: int, c: string)
    requires FirstListing(es, id, c)
    ensures Owns(Run(es), id, c) <==> !OwnerLeftSince(es, MountedAt(es, id), c)
  {
    var p := MountedAt(es, id);
    if Owns(Run(es), id, c) {
      forall k | p <= k < |es|
        ensures !OwnerLeavesAt(es, k, c)
      {
        if k > p {
          OwnerBlocksOthers(es, id, c, k);
        }
      }
    } else {
      OwnedIffFreeAtMount(es, id, c);
      var owner :| Owns(Run(es[..p]), owner, c);
      OwnerStaysOrLeaves(es, p, owner, c);
      if Owns(Run(es), owner, c) && MountedAt(es, owner) < p {
        RunKeepsOwnership(es);
        OwnersList(Run(es), owner, c);
        assert false;
      }
    }
  }

  /** Whenever a live mount lists a combo, one of them mounted first. */
  lemma {:induction false} SomeMountIsFirst(es: seq<Event>, id: int, c: string) returns (first: int)
    requires Lists(Run(es), id, c)
    ensures FirstListing(es, first, c)
    decreases MountedAt(es, id)
  {
    if other :| Lists(Run(es), other, c) && MountedAt(es, other) < MountedAt(es, id) {
      first := SomeMountIsFirst(es, other, c);
    } else {
      first := id;
    }
  }

  lemma {:induction false} RunOneMore(es: seq<Event>, e: Event)
    ensures Run(es + [e]) == Step(Run(es), e)
  {
    assert (es + [e])[..|es|] == es;
  }

  /** A mount of one binding while another mount owns its combo, or while none does. */
  lemma {:induction false} MountOne(es: seq<Event>, id: int, b: Binding)
    requires id !in Run(es).live
    ensures var r := Run(es + [Enter(id, [b])]);
            && Lists(r, id, b.combo)
            && (Owns(r, id, b.combo) <==> forall other :: !Owns(Run(es), other, b.combo))
            && r.live.Keys == Run(es).live.Keys + {id}
            && (forall other :: other in Run(es).live ==> r.live[other] == Run(es).live[other])
  {
    RunOneMore(es, Enter(id, [b]));
    assert b in [b];
    MountOwnsWhatIsFree(es, id, [b], b.combo);
  }

  /** The unmount of a mount that owns a combo leaves it to no one. */
  lemma {:induction false} UnmountOwner(es: seq<Event>, id: int, c: string)
    requires Owns(Run(es), id, c)
    ensures var r := Run(es + [Leave(id)]);
            && (forall other :: !Owns(r, other, c))
            && r.live == Run(es).live - {id}
  {
    RunOneMore(es, Leave(id));
    RunKeepsOwnership(es);
    assert forall other :: Owns(Run(es + [Leave(id)]), other, c) ==> other != id && Owns(Run(es), other, c);
  }

  lemma {:induction false} TwoMounts(b: Binding, i: int, j: int)
    requires i != j
    ensures var s := Run([Enter(i, [b])] + [Enter(j, [b])]);
            s.live.Keys == {i, j} && Owns(s, i, b.combo) && Lists(s, j, b.combo)
  {
    assert [] + [Enter(i, [b])] == [Enter(i, [b])];
    MountOne([], i, b);
    MountOne([Enter(i, [b])], j, b);
  }

  /**
   It can fail: a combo freed by its owner goes to the next mount, past one still waiting for it. The
   run mounts `i` and `j`, unmounts `i`, and mounts `k`, all with the same binding.
   */
  lemma {:induction false} FreedComboPassesTheWaiting(b: Binding, i: int, j: int, k: int)
    requires i != j && j != k && i != k
    ensures var es := [Enter(i, [b])] + [Enter(j, [b])] + [Leave(i)] + [Enter(k, [b])];
            && Lists(Run(es), j, b.combo) && !Owns(Run(es), j, b.combo)
            && Owns(Run(es), k, b.combo) && MountedAt(es, j) < MountedAt(es, k)
  {
    TwoMounts(b, i, j);
    WaitingIsPassed([Enter(i, [b])] + [Enter(j, [b])], b, i, j, k);
  }

  lemma {:induction false} WaitingIsPassed(es: seq<Event>, b: Binding, i: int, j: int, k: int)
    requires i != j && j != k && i != k && Run(es).live.Keys == {i, j}
    requires Owns(Run(es), i, b.combo) && Lists(Run(es), j, b.combo)
    ensures var after := es + [Leave(i)] + [Enter(k, [b])];
            && Lists(Run(after), j, b.combo) && !Owns(Run(after), j, b.combo)
            && Owns(Run(after), k, b.combo) && MountedAt(after, j) < MountedAt(after, k)
  {
    var freed := es + [Leave(i)];
    UnmountOwner(es, i, b.combo);
    MountOne(freed, k, b);
    assert !Owns(Run(freed), j, b.combo);
    FreedPositions(freed, freed + [Enter(k, [b])], j, k);
  }

  lemma {:induction false} FreedPositions(before: seq<Event>, after: seq<Event>, j: int, k: int)
    requires |after| == |before| + 1 && after[..|before|] == before
    requires j in Run(before).live && j in Run(after).live && k !in Run(before).live && k in Run(after).live
    ensures MountedAt(after, j) < MountedAt(after, k)
  {
  }

  // ---------- The order in which key events are offered ----------

  /** The position of the first binding for `c`, or the length if there is none. */
  function FirstFor(bindings: seq<Binding>, c: string): (i: nat)
    ensures i <= |bindings| && (i < |bindings| ==> bindings[i].combo == c)
    ensures forall j :: 0 <= j < i ==> bindings[j].combo != c
  {
    if bindings == [] || bindings[0].combo == c then 0 else 1 + FirstFor(bindings[1..], c)
  }

  lemma {:induction false} FirstForPrefix(bindings: seq<Binding>, n: nat, c: string)
    requires n <= |bindings| && FirstFor(bindings[..n], c) < n
    ensures FirstFor(bindings, c) == FirstFor(bindings[..n], c)
  {
    var i, j := FirstFor(bindings[..n], c), FirstFor(bindings, c);
    assert bindings[..n][i] == bindings[i];
    assert j < n ==> bindings[..n][j] == bindings[j];
  }

  /** The registry after a mount with these bindings. */
  function Extended(entries: seq<Entry>, bindings: seq<Binding>): seq<Entry> {
    entries + NewEntries(entries, bindings)
  }

  lemma {:induction false} NewEntryListed(entries: seq<Entry>, bindings: seq<Binding>, k: nat)
    requires |entries| <= k < |Extended(entries, bindings)|
    ensures FirstFor(bindings, Extended(entries, bindings)[k].combo) < |bindings|
  {
    var e := NewEntries(entries, bindings)[k - |entries|];
    NewEntriesAreFirst(entries, bindings, e);
    assert e.binding in bindings;
  }

  /** The last binding adds at most one entry, at the end, and only if it is the first for its combo. */
  lemma {:induction false} LastEntry(entries: seq<Entry>, bindings: seq<Binding>)
    requires bindings != []
    ensures var n := |bindings| - 1;
            var before, all := Extended(entries, bindings[..n]), Extended(entries, bindings);
            && before <= all && |all| <= |before| + 1
            && (|all| > |before| ==> FirstFor(bindings, all[|before|].combo) == n)
  {
    var n := |bindings| - 1;
    var before, all := Extended(entries, bindings[..n]), Extended(entries, bindings);
    if |all| > |before| {
      assert all == before + [EntryOf(bindings[n])];
      LastIsFirst(entries, bindings);
    }
  }

  /** New entries come in the order of the bindings they are the first for. */
  lemma {:induction false} NewEntriesInOrder(entries: seq<Entry>, bindings: seq<Binding>, i: nat, j: nat)
    requires |entries| <= i < j < |Extended(entries, bindings)|
    ensures FirstFor(bindings, Extended(entries, bindings)[i].combo)
          < FirstFor(bindings, Extended(entries, bindings)[j].combo)
  {
    var n := |bindings| - 1;
    var before, all := Extended(entries, bindings[..n]), Extended(entries, bindings);
    LastEntry(entries, bindings);
    assert before[i] == all[i];
    NewEntryListed(entries, bindings[..n], i);
    FirstForPrefix(bindings, n, all[i].combo);
    if j < |before| {
      assert before[j] == all[j];
      NewEntriesInOrder(entries, bindings[..n], i, j);
      NewEntryListed(entries, bindings[..n], j);
      FirstForPrefix(bindings, n, all[j].combo);
    }
  }

  /** A binding that gets an entry is the first for its combo. */
  lemma {:induction false} LastIsFirst(entries: seq<Entry>, bindings: seq<Binding>)
    requires bindings != []
    requires !HasCombo(entries + NewEntries(entries, bindings[..|bindings| - 1]), bindings[|bindings| - 1].combo)
    ensures FirstFor(bindings, bindings[|bindings| - 1].combo) == |bindings| - 1
  {
    var n := |bindings| - 1;
    var i := FirstFor(bindings, bindings[n].combo);
    if i < n {
      assert bindings[i] == bindings[..n][i];
      BindingsCovered(entries, bindings[..n], bindings[i]);
    }
  }

  /** Two entries that survive a deletion stood in the same order before. */
  lemma {:induction false} DeletedInOrder(entries: seq<Entry>, c: string, i: nat, j: nat) returns (k: nat, l: nat)
    requires i < j < |Deleted(entries, c)|
    ensures k < l < |entries| && entries[k] == Deleted(entries, c)[i] && entries[l] == Deleted(entries, c)[j]
  {
    var n := |entries| - 1;
    var d := Deleted(entries[..n], c);
    if j < |d| {
      k, l := DeletedInOrder(entries[..n], c, i, j);
    } else {
      DeletedSelects(entries[..n], c);
      assert d[i] in entries[..n];
      k :| 0 <= k < n && entries[..n][k] == d[i];
      l := n;
    }
  }

  lemma {:induction false} DeletedAllInOrder(entries: seq<Entry>, cs: seq<string>, i: nat, j: nat)
      returns (k: nat, l: nat)
    requires i < j < |DeletedAll(entries, cs)|
    ensures k < l < |entries| && entries[k] == DeletedAll(entries, cs)[i] && entries[l] == DeletedAll(entries, cs)[j]
  {
    if cs == [] {
      k, l := i, j;
    } else {
      var before := DeletedAll(entries, cs[..|cs| - 1]);
      var p, q := DeletedInOrder(before, cs[|cs| - 1], i, j);
      k, l := DeletedAllInOrder(entries, cs[..|cs| - 1], p, q);
    }
  }

  /** Mount `a` registered `x` before mount `b` registered `y`: it mounted earlier, or lists it earlier. */
  predicate RegisteredBefore(es: seq<Event>, a: int, x: string, b: int, y: string)
    requires a in Run(es).live && b in Run(es).live
  {
    || MountedAt(es, a) < MountedAt(es, b)
    || (a == b && FirstFor(Run(es).live[a].bindings, x) < FirstFor(Run(es).live[a].bindings, y))
  }

  lemma {:induction false} SameOrderLater(es: seq<Event>, a: int, x: string, b: int, y: string)
    requires es != []
    requires var s := Run(es[..|es| - 1]); a in s.live && b in s.live
    requires a in Run(es).live && b in Run(es).live && RegisteredBefore(es[..|es| - 1], a, x, b, y)
    ensures RegisteredBefore(es, a, x, b, y)
  {
  }

  /** After a mount the new entries are its own, and the others are still someone else's. */
  lemma {:induction false} OwnerAfterMount(s: State, id: int, bindings: seq<Binding>, k: nat, owner: int)
    requires Inv(s) && id !in s.live && k < |Mounted(s, id, bindings).entries|
    requires Owns(Mounted(s, id, bindings), owner, Mounted(s, id, bindings).entries[k].combo)
    ensures k >= |s.entries| <==> owner == id
  {
    var added := NewEntries(s.entries, bindings);
    var e := (s.entries + added)[k];
    MountOwnership(s, id, bindings, owner, e.combo);
    if k < |s.entries| {
      assert HasCombo(s.entries, e.combo);
    } else {
      assert added[k - |s.entries|] == e;
      MountOwnership(s, id, bindings, id, e.combo);
      OwnedIffRegistered(s, e.combo);
    }
  }

  /** The run ends in mount `id`, which takes the registry from `s` to `r`. */
  predicate JustMounted(es: seq<Event>, id: int, s: State, r: State) {
    && es != [] && es[|es| - 1].Enter? && es[|es| - 1].id == id
    && s == Run(es[..|es| - 1]) && id !in s.live && r == Mounted(s, id, es[|es| - 1].bindings)
  }

  lemma {:induction false} OldBeforeNew(es: seq<Event>, id: int, s: State, r: State, a: int, x: string, y: string)
    requires JustMounted(es, id, s, r) && a in s.live
    ensures a in Run(es).live && id in Run(es).live && RegisteredBefore(es, a, x, id, y)
  {
  }

  lemma {:induction false} NewInOrder(es: seq<Event>, id: int, s: State, r: State, x: string, y: string)
    requires JustMounted(es, id, s, r)
    requires FirstFor(es[|es| - 1].bindings, x) < FirstFor(es[|es| - 1].bindings, y)
    ensures id in Run(es).live && RegisteredBefore(es, id, x, id, y)
  {
  }

  lemma {:induction false} MountedInOrder(es: seq<Event>, s: State, r: State, i: nat, j: nat, a: int, b: int)
    requires es != [] && es[|es| - 1].Enter? && JustMounted(es, es[|es| - 1].id, s, r) && Inv(s)
    requires i < j < |r.entries| && |s.entries| <= j
    requires Owns(r, a, r.entries[i].combo) && Owns(r, b, r.entries[j].combo)
    ensures a in Run(es).live && b in Run(es).live
    ensures RegisteredBefore(es, a, r.entries[i].combo, b, r.entries[j].combo)
  {
    var id, bindings := es[|es| - 1].id, es[|es| - 1].bindings;
    var x, y := r.entries[i].combo, r.entries[j].combo;
    assert b == id by { OwnerAfterMount(s, id, bindings, j, b); }
    assert i >= |s.entries| <==> a == id by { OwnerAfterMount(s, id, bindings, i, a); }
    if a == id {
      NewEntriesInOrder(s.entries, bindings, i, j);
      NewInOrder(es, id, s, r, x, y);
    } else {
      OldBeforeNew(es, id, s, r, a, x, y);
    }
  }

  /** Over every run the registry holds its entries in the order they were registered. */
  lemma {:induction false} EntriesInOrder(es: seq<Event>, i: nat, j: nat, a: int, b: int)
    requires i < j < |Run(es).entries| && Owns(Run(es), a, Run(es).entries[i].combo)
    requires Owns(Run(es), b, Run(es).entries[j].combo)
    ensures RegisteredBefore(es, a, Run(es).entries[i].combo, b, Run(es).entries[j].combo)
  {
    var init, e := es[..|es| - 1], es[|es| - 1];
    var s := Run(init);
    RunKeepsOwnership(init);
    if e.Enter? && e.id !in s.live && j >= |s.entries| {
      MountedInOrder(es, s, Run(es), i, j, a, b);
    } else {
      var k, l := i, j;
      if e.Leave? && e.id in s.live {
        k, l := DeletedAllInOrder(s.entries, s.live[e.id].added, i, j);
      }
      var x, y := s.entries[k].combo, s.entries[l].combo;
      OwnedEarlier(es, a, x);
      OwnedEarlier(es, b, y);
      EntriesInOrder(init, k, l, a, b);
      SameOrderLater(es, a, x, b, y);
    }
  }

  /** A combo registered one event earlier had the owner it has. */
  lemma {:induction false} OwnedEarlier(es: seq<Event>, id: int, c: string)
    requires es != [] && Owns(Run(es), id, c) && HasCombo(Run(es[..|es| - 1]).entries, c)
    ensures Owns(Run(es[..|es| - 1]), id, c)
  {
    var s, e := Run(es[..|es| - 1]), es[|es| - 1];
    RunKeepsOwnership(es[..|es| - 1]);
    if e.Enter? && e.id !in s.live {
      MountOwnership(s, e.id, e.bindings, id, c);
    }
  }

  /**
   What a key event fires over every run: a binding registered for the combo held down or for it without
   Shift, and of the registered ones that match, the one registered first.
   */
  lemma {:induction false} FirstRegisteredFires(es: seq<Event>, e: KeyEvent, i: nat, j: nat, a: int, b: int)
    requires FirstMatch(Run(es).entries, e, i)
    requires j < |Run(es).entries| && j != i && Answers(ParseCombo(Run(es).entries[j].binding.combo), e)
    requires Owns(Run(es), a, Run(es).entries[i].combo) && Owns(Run(es), b, Run(es).entries[j].combo)
    ensures Answers(ParseCombo(Run(es).entries[i].binding.combo), e)
    ensures RegisteredBefore(es, a, Run(es).entries[i].combo, b, Run(es).entries[j].combo)
  {
    var s := Run(es);
    RunKeepsOwnership(es);
    assert s.entries[i] in s.entries && s.entries[j] in s.entries;
    assert s.entries[i].parsed == ParseCombo(s.entries[i].binding.combo);
    assert s.entries[j].parsed == ParseCombo(s.entries[j].binding.combo);
    EntriesInOrder(es, i, j, a, b);
  }
}
