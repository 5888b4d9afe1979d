/**
 The effect stack of the selected clip and its client ids (gui/src/stores/effectStackStore.ts),
 under any interleaving of its asynchronous actions.
 */
module EffectStack {
  import opened Wrappers

  datatype Effect = Effect(effectType: string, parameters: string, filterString: string)

  /** `crypto.randomUUID()` as a name never issued before: ids are numbered as they are issued. */
  type Uuid = nat

  /** The store, and how many fetches and deletes have been sent and not yet answered. */
  datatype State = State(selected: Option<string>, effects: seq<Effect>, ids: seq<Uuid>,
                         isLoading: bool, error: Option<string>, issued: Uuid, fetches: nat, removals: nat)

  const INITIAL := State(None, [], [], false, None, 0, 0, 0)

  /**
   One uninterrupted stretch of an action: `FetchStart` and `RemoveStart` run up to the request;
   `Fetched`, `FetchFailed`, `Removed` and `RemoveFailed` run after its reply, whenever that comes.
   */
  datatype Event =
    | Select(clip: Option<string>)
    | SetLoading(loading: bool)
    | SetError(shown: Option<string>)
    | FetchStart
    | RemoveStart
    | Fetched(found: seq<Effect>)
    | FetchFailed(message: string)
    | Removed(index: int)
    | RemoveFailed(message: string)
    | Reset

  /** `n` fresh ids, in the order issued. */
  function FreshIds(from: Uuid, n: nat): (ids: seq<Uuid>)
    ensures |ids| == n
    ensures forall i :: 0 <= i < n ==> ids[i] == from + i
  {
    if n == 0 then [] else FreshIds(from, n - 1) + [from + n - 1]
  }

  /** `filter((_, i) => i !== index)` */
  function Without<T>(s: seq<T>, index: int): seq<T> {
    if 0 <= index < |s| then s[..index] + s[index + 1..] else s
  }

  function Refetched(s: State, found: seq<Effect>): State {
    var kept := if |found| >= |s.ids| then s.ids else [];
    var n := |found| - |kept|;
    s.(effects := found, ids := kept + FreshIds(s.issued, n), issued := s.issued + n, isLoading := false)
  }

  /** A reply needs a request it can be the reply to. */
  predicate Enabled(s: State, e: Event) {
    match e
    case Fetched(_) => s.fetches > 0
    case FetchFailed(_) => s.fetches > 0
    case Removed(_) => s.removals > 0
    case RemoveFailed(_) => s.removals > 0
    case _ => true
  }

  /** One event; an event that is not enabled does not happen. */
  function Step(s: State, e: Event): State {
    if Enabled(s, e) then Done(s, e) else s
  }

  function Done(s: State, e: Event): State
    requires Enabled(s, e)
  {
    match e
    case Select(clip) => s.(selected := clip, effects := [], ids := [], error := None)
    case SetLoading(loading) => s.(isLoading := loading)
    case SetError(shown) => s.(error := shown, isLoading := false)
    case FetchStart => s.(isLoading := true, error := None, fetches := s.fetches + 1)
    case RemoveStart => s.(removals := s.removals + 1)
    case Fetched(found) => Refetched(s, found).(fetches := s.fetches - 1)
    case FetchFailed(message) => s.(error := Some(message), isLoading := false, fetches := s.fetches - 1)
    case Removed(index) =>
      s.(effects := Without(s.effects, index), ids := Without(s.ids, index), removals := s.removals - 1)
    case RemoveFailed(message) => s.(error := Some(message), removals := s.removals - 1)
    case Reset => INITIAL.(issued := s.issued, fetches := s.fetches, removals := s.removals)
  }

  function Run(es: seq<Event>): State {
    if es == [] then INITIAL else Step(Run(es[..|es| - 1]), es[|es| - 1])
  }

  class Store {
    var selectedClipId: Option<string>
    var effects: seq<Effect>
    var clientIds: seq<Uuid>
    var isLoading: bool
    var error: Option<string>
    var issued: Uuid
    var fetches: nat
    var removals: nat

    ghost function View(): State
      reads this
    {
      State(selectedClipId, effects, clientIds, isLoading, error, issued, fetches, removals)
    }

    constructor ()
      ensures View() == INITIAL
    {
      selectedClipId, effects, clientIds, isLoading, error := None, [], [], false, None;
      issued, fetches, removals := 0, 0, 0;
    }

    method RandomUuid() returns (id: Uuid)
      modifies this`issued
      ensures id == old(issued) && issued == old(issued) + 1
    {
      id := issued;
      issued := issued + 1;
    }

    method SelectClip(clip: Option<string>)
      modifies this
      ensures View() == Step(old(View()), Select(clip))
    {
      selectedClipId, effects, clientIds, error := clip, [], [], None;
    }

    method BeginFetch()
      modifies this
      ensures View() == Step(old(View()), FetchStart)
    {
      isLoading, error, fetches := true, None, fetches + 1;
    }

    method BeginRemove()
      modifies this
      ensures View() == Step(old(View()), RemoveStart)
    {
      removals := removals + 1;
    }

    method FinishFetch(found: seq<Effect>)
      requires fetches > 0
      modifies this
      ensures View() == Step(old(View()), Fetched(found))
    {
      var newIds := clientIds;
      if |found| < |clientIds| {
        newIds := [];
      }
      var added := RandomUuids(|found| - |newIds|);
      effects, clientIds, isLoading, fetches := found, newIds + added, false, fetches - 1;
    }

    method RandomUuids(n: nat) returns (ids: seq<Uuid>)
      modifies this`issued
      ensures ids == FreshIds(old(issued), n) && issued == old(issued) + n
    {
      ids := [];
      while |ids| < n
        modifies this`issued
        invariant |ids| <= n && issued == old(issued) + |ids| && ids == FreshIds(old(issued), |ids|)
      {
        var id := RandomUuid();
        ids := ids + [id];
      }
    }

    method FailFetch(message: string)
      requires fetches > 0
      modifies this
      ensures View() == Step(old(View()), FetchFailed(message))
    {
      error, isLoading, fetches := Some(message), false, fetches - 1;
    }

    method FailRemove(message: string)
      requires removals > 0
      modifies this
      ensures View() == Step(old(View()), RemoveFailed(message))
    {
      error, removals := Some(message), removals - 1;
    }

    method FinishRemove(index: int)
      requires removals > 0
      modifies this
      ensures View() == Step(old(View()), Removed(index))
    {
      effects := Without(effects, index);
      clientIds := Without(clientIds, index);
      removals := removals - 1;
    }

    method ResetAll()
      modifies this
      ensures View() == Step(old(View()), Reset)
    {
      selectedClipId, effects, clientIds, isLoading, error := None, [], [], false, None;
    }
  }

  // ---------- Selection and flags ----------

  /** The clip last selected since the last reset. */
  function SelectedAfter(es: seq<Event>): Option<string> {
    if es == [] then None
    else
      match es[|es| - 1]
      case Select(clip) => clip
      case Reset => None
      case _ => SelectedAfter(es[..|es| - 1])
  }

  /** The error shown: the last failure or message, until a selection, a fetch started or a reset clears it. */
  function ErrorAfter(es: seq<Event>): Option<string> {
    if es == [] then None
    else
      var s, before := Run(es[..|es| - 1]), ErrorAfter(es[..|es| - 1]);
      match es[|es| - 1]
      case Select(_) => None
      case FetchStart => None
      case Reset => None
      case SetError(shown) => shown
      case FetchFailed(message) => if s.fetches == 0 then before else Some(message)
      case RemoveFailed(message) => if s.removals == 0 then before else Some(message)
      case _ => before
  }

  /** Whether the store says it is loading. */
  function LoadingAfter(es: seq<Event>): bool {
    if es == [] then false
    else
      var s, before := Run(es[..|es| - 1]), LoadingAfter(es[..|es| - 1]);
      match es[|es| - 1]
      case FetchStart => true
      case SetLoading(loading) => loading
      case SetError(_) => false
      case Reset => false
      case Fetched(_) => before && s.fetches == 0
      case FetchFailed(_) => before && s.fetches == 0
      case _ => before
  }

  /** Over every run the selection, the error and the loading flag are what the events say. */
  lemma {:induction false} RunShows(es: seq<Event>)
    ensures Run(es).selected == SelectedAfter(es)
    ensures Run(es).error == ErrorAfter(es) && Run(es).isLoading == LoadingAfter(es)
  {
    if es != [] {
      RunShows(es[..|es| - 1]);
    }
  }

  /** The effects shown: those last fetched, without the indices deleted since, and none after a selection or reset. */
  function ShownAfter(es: seq<Event>): seq<Effect> {
    if es == [] then []
    else
      var s, before := Run(es[..|es| - 1]), ShownAfter(es[..|es| - 1]);
      match es[|es| - 1]
      case Select(_) => []
      case Reset => []
      case Fetched(found) => if s.fetches == 0 then before else found
      case Removed(index) =>
        if s.removals == 0 || index < 0 || index >= |before| then before else before[..index] + before[index + 1..]
      case _ => before
  }

  lemma {:induction false} RunShowsEffects(es: seq<Event>)
    ensures Run(es).effects == ShownAfter(es)
  {
    if es != [] {
      RunShowsEffects(es[..|es| - 1]);
    }
  }

  // ---------- Lockstep ----------

  /** One id per effect, strictly increasing, and all issued already. */
  predicate Lockstep(s: State) {
    && |s.ids| == |s.effects|
    && (forall i, j :: 0 <= i < j < |s.ids| ==> s.ids[i] < s.ids[j])
    && (forall i :: 0 <= i < |s.ids| ==> s.ids[i] < s.issued)
  }

  lemma StepKeepsLockstep(s: State, e: Event)
    requires Lockstep(s)
    ensures Lockstep(Step(s, e)) && Step(s, e).issued >= s.issued
  {
  }

  /** Under every interleaving ids and effects have one length, and ids are pairwise distinct and in order of issue. */
  lemma {:induction false} RunKeepsLockstep(es: seq<Event>)
    ensures Lockstep(Run(es))
  {
    if es != [] {
      RunKeepsLockstep(es[..|es| - 1]);
      StepKeepsLockstep(Run(es[..|es| - 1]), es[|es| - 1]);
    }
  }

  /** Filtering an index out keeps the others in order. */
  lemma WithoutKeeps<T>(s: seq<T>, index: int, i: nat)
    requires i < |s| && i != index
    ensures var j := if 0 <= index < i then i - 1 else i;
            j < |Without(s, index)| && Without(s, index)[j] == s[i]
  {
  }

  lemma WithoutDrops(ids: seq<Uuid>, index: nat)
    requires index < |ids| && forall i, j :: 0 <= i < j < |ids| ==> ids[i] < ids[j]
    ensures ids[index] !in Without(ids, index)
  {
    var w := Without(ids, index);
    forall k | 0 <= k < |w|
      ensures w[k] != ids[index]
    {
      assert w[k] == ids[if k < index then k else k + 1];
    }
  }

  /** A finished delete keeps each survivor with its own id, in order, and drops only the named row. */
  lemma DeleteKeepsSurvivors(es: seq<Event>, index: int, i: nat)
    requires Run(es).removals > 0 && i < |Run(es).ids| && i != index
    ensures var s, r := Run(es), Step(Run(es), Removed(index));
            var j := if 0 <= index < i then i - 1 else i;
            && j < |r.ids| && |r.ids| == |r.effects|
            && r.ids[j] == s.ids[i] && r.effects[j] == s.effects[i]
            && (0 <= index < |s.ids| ==> s.ids[index] !in r.ids)
  {
    RunKeepsLockstep(es);
    WithoutKeeps(Run(es).ids, index, i);
    WithoutKeeps(Run(es).effects, index, i);
    if 0 <= index < |Run(es).ids| {
      WithoutDrops(Run(es).ids, index);
    }
  }

  /** Effect `i` has the id it had, and it is the effect that had that id. */
  predicate KeepsPair(s: State, r: State, i: nat)
    requires i < |s.ids| == |s.effects|
  {
    i < |r.ids| && i < |r.effects| && r.ids[i] == s.ids[i] && r.effects[i] == s.effects[i]
  }

  /**
   A fetch keeps the whole id list as a prefix exactly when it does not shrink the list, and keeps no id
   otherwise. Each id stays on its own effect exactly when the effects shown are a prefix of those found.
   */
  lemma FetchKeepsPrefixExactlyWhen(es: seq<Event>, found: seq<Effect>)
    requires Run(es).fetches > 0
    ensures var s, r := Run(es), Step(Run(es), Fetched(found));
            && (s.ids <= r.ids <==> |found| >= |s.ids|)
            && (|found| < |s.ids| ==> forall id :: id in r.ids ==> id !in s.ids)
            && |s.ids| == |s.effects|
            && ((forall i: nat :: i < |s.ids| ==> KeepsPair(s, r, i)) <==> s.effects <= found)
  {
    RunKeepsLockstep(es);
    var s, r := Run(es), Step(Run(es), Fetched(found));
    if s.effects <= found {
      assert r.ids == s.ids + FreshIds(s.issued, |found| - |s.ids|);
    } else {
      EffectsDiffer(s, found);
    }
  }

  lemma EffectsDiffer(s: State, found: seq<Effect>)
    requires Lockstep(s) && s.fetches > 0 && !(s.effects <= found)
    ensures exists i: nat :: i < |s.ids| && !KeepsPair(s, Step(s, Fetched(found)), i)
  {
    var i := if |found| < |s.effects| then |found| else var k :| 0 <= k < |s.effects| && s.effects[k] != found[k]; k;
    assert !KeepsPair(s, Step(s, Fetched(found)), i);
  }

  lemma RunOneMore(es: seq<Event>, e: Event)
    ensures Run(es + [e]) == Step(Run(es), e)
  {
    assert (es + [e])[..|es|] == es;
  }

  /**
   A reply of a fetch sent before a delete, landing after it, moves ids onto other effects: two effects
   are shown, a fetch and a delete of the first are sent, and the delete is answered first.
   */
  lemma StaleReplyMovesIds(a: Effect, b: Effect)
    requires a != b
    ensures var sent := [FetchStart] + [Fetched([a, b])] + [FetchStart] + [RemoveStart];
            var s, r := Run(sent + [Removed(0)]), Run(sent + [Removed(0)] + [Fetched([a, b])]);
            && Run(sent).effects == [a, b] && Run(sent).fetches == 1 && Run(sent).removals == 1
            && s.effects == [b] && r.effects == [a, b] && |s.ids| == 1 && |r.ids| == 2
            && r.ids[0] == s.ids[0]
  {
    var shown := [FetchStart] + [Fetched([a, b])];
    assert [] + [FetchStart] == [FetchStart];
    RunOneMore([], FetchStart);
    RunOneMore([FetchStart], Fetched([a, b]));
    RunOneMore(shown, FetchStart);
    RunOneMore(shown + [FetchStart], RemoveStart);
    var sent := shown + [FetchStart] + [RemoveStart];
    RunOneMore(sent, Removed(0));
    RunOneMore(sent + [Removed(0)], Fetched([a, b]));
    assert |Run(sent).ids| == 2;
  }

  lemma StepNeverReuses(s: State, e: Event, id: Uuid)
    requires id < s.issued && id !in s.ids
    ensures id !in Step(s, e).ids && Step(s, e).issued >= s.issued
  {
  }

  /** An id that has been dropped never comes back: every id in a later state was there before or is newer. */
  lemma {:induction false} IdsAreNeverReused(es: seq<Event>, more: seq<Event>, id: Uuid)
    requires id < Run(es).issued && id !in Run(es).ids
    ensures id !in Run(es + more).ids && Run(es + more).issued >= Run(es).issued
  {
    if more == [] {
      assert es + more == es;
    } else {
      var init, e := more[..|more| - 1], more[|more| - 1];
      assert (es + more)[..|es + more| - 1] == es + init;
      IdsAreNeverReused(es, init, id);
      StepNeverReuses(Run(es + init), e, id);
    }
  }
}
