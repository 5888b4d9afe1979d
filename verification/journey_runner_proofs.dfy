/** Skips are reachability of a failure; the summary and the exit code follow from it. */
module JourneyRunnerProofs {
  import opened Wrappers
  import opened JourneyRunner

  predicate Bad(r: Result) {
    r.status == Failed || r.status == Skipped
  }

  // ---------- One step back ----------

  lemma {:induction false} ExecutePrefix(g: Graph, journeys: seq<int>, outcomes: seq<Outcome>, n: nat)
    requires |outcomes| == |journeys| && n <= |journeys|
    ensures Execute(g, journeys[..n], outcomes[..n]) == Execute(g, journeys, outcomes)[..n]
  {
    var last := |journeys| - 1;
    if n == |journeys| {
      assert journeys[..n] == journeys && outcomes[..n] == outcomes;
    } else {
      ExecutePrefix(g, journeys[..last], outcomes[..last], n);
      assert journeys[..last][..n] == journeys[..n] && outcomes[..last][..n] == outcomes[..n];
    }
  }

  lemma ResultAt(g: Graph, journeys: seq<int>, outcomes: seq<Outcome>, i: nat)
    requires |outcomes| == |journeys| && i < |journeys|
    ensures var rs := Execute(g, journeys, outcomes);
            rs[i] == NextResult(g, rs[..i], journeys[i], outcomes[i])
  {
    ExecutePrefix(g, journeys, outcomes, i + 1);
    ExecutePrefix(g, journeys, outcomes, i);
    assert journeys[..i + 1][..i] == journeys[..i] && outcomes[..i + 1][..i] == outcomes[..i];
    var rs := Execute(g, journeys, outcomes);
    assert rs[..i + 1][i] == rs[i];
  }

  /** Position `p` is an earlier dependency of position `i` that did not pass. */
  predicate BlockedBy(g: Graph, rs: seq<Result>, i: int, p: int) {
    0 <= p < i < |rs| && rs[p].id in DepsOf(g, rs[i].id) && Bad(rs[p])
  }

  /**
   A journey is skipped exactly when an earlier dependency failed or was skipped; otherwise it reports
   what running it reports.
   */
  lemma SkippedIffBlocked(g: Graph, journeys: seq<int>, outcomes: seq<Outcome>, i: nat)
    requires |outcomes| == |journeys| && i < |journeys|
    ensures var rs := Execute(g, journeys, outcomes);
            && (rs[i].status == Skipped <==> exists p :: BlockedBy(g, rs, i, p))
            && (rs[i].status != Skipped ==> rs[i].status == outcomes[i])
  {
    var rs := Execute(g, journeys, outcomes);
    var deps := DepsOf(g, journeys[i]);
    var failed, skipped := IdsWith(rs[..i], Failed), IdsWith(rs[..i], Skipped);
    ResultAt(g, journeys, outcomes, i);
    if rs[i].status == Skipped {
      var d :| d in deps && (d in failed || d in skipped);
      var p :| 0 <= p < i && rs[..i][p].id == d && Bad(rs[..i][p]);
      assert BlockedBy(g, rs, i, p);
    }
    if p :| BlockedBy(g, rs, i, p) {
      assert rs[..i][p] == rs[p];
      assert rs[p].id in failed || rs[p].id in skipped;
    }
  }

  // ---------- Reasons ----------

  /** Some entry before `i` has this id and status. */
  predicate WasBefore(rs: seq<Result>, i: nat, id: int, status: Status)
    requires i <= |rs|
  {
    exists p :: 0 <= p < i && rs[p].id == id && rs[p].status == status
  }

  predicate BadBefore(rs: seq<Result>, i: nat, id: int)
    requires i <= |rs|
  {
    WasBefore(rs, i, id, Failed) || WasBefore(rs, i, id, Skipped)
  }

  /** The reason names the dependency at `k`, the first of `deps` that is in one of the sets. */
  predicate NamesFirst(reason: SkipReason, deps: seq<int>, failed: set<int>, skipped: set<int>, k: int) {
    && 0 <= k < |deps| && deps[k] == reason.dep && (deps[k] in failed || deps[k] in skipped)
    && (reason.DependencyFailed? <==> deps[k] in failed)
    && forall j :: 0 <= j < k ==> deps[j] !in failed && deps[j] !in skipped
  }

  lemma {:induction false} ReasonIsFirstBad(deps: seq<int>, failed: set<int>, skipped: set<int>) returns (k: int)
    requires SkipReasonFor(deps, failed, skipped).Some?
    ensures NamesFirst(SkipReasonFor(deps, failed, skipped).value, deps, failed, skipped, k)
  {
    if deps[0] in failed || deps[0] in skipped {
      k := 0;
    } else {
      var rest := ReasonIsFirstBad(deps[1..], failed, skipped);
      assert forall j :: 0 <= j < |deps| - 1 ==> deps[1..][j] == deps[j + 1];
      assert forall j :: 0 < j < rest + 1 ==> deps[j] == deps[1..][j - 1];
      k := rest + 1;
    }
  }

  lemma BadBeforeIsIds(rs: seq<Result>, i: nat, id: int, status: Status)
    requires i <= |rs|
    ensures id in IdsWith(rs[..i], status) <==> WasBefore(rs, i, id, status)
  {
    if WasBefore(rs, i, id, status) {
      var p :| 0 <= p < i && rs[p].id == id && rs[p].status == status;
      assert rs[..i][p] == rs[p];
    }
  }

  /** The reason names the dependency at `k`, the first of `deps` that failed or was skipped before entry `i`. */
  predicate FirstBadDep(reason: SkipReason, deps: seq<int>, rs: seq<Result>, i: nat, k: int)
    requires i <= |rs|
  {
    && 0 <= k < |deps| && deps[k] == reason.dep && BadBefore(rs, i, deps[k])
    && (reason.DependencyFailed? <==> WasBefore(rs, i, deps[k], Failed))
    && forall j :: 0 <= j < k ==> !BadBefore(rs, i, deps[j])
  }

  /**
   A skipped journey gives as its reason the first of its listed dependencies that failed or was skipped
   before it, as failed if it failed; a journey that ran gives none.
   */
  lemma ReasonNamesFirstBadDep(g: Graph, journeys: seq<int>, outcomes: seq<Outcome>, i: nat)
    requires |outcomes| == |journeys| && i < |journeys|
    ensures var rs := Execute(g, journeys, outcomes);
            && (rs[i].status == Skipped <==> rs[i].reason.Some?)
            && (rs[i].reason.Some? ==> exists k :: FirstBadDep(rs[i].reason.value, DepsOf(g, journeys[i]), rs, i, k))
  {
    var rs := Execute(g, journeys, outcomes);
    var deps := DepsOf(g, journeys[i]);
    var failed, skipped := IdsWith(rs[..i], Failed), IdsWith(rs[..i], Skipped);
    ResultAt(g, journeys, outcomes, i);
    if rs[i].reason.Some? {
      var k := ReasonIsFirstBad(deps, failed, skipped);
      forall id
        ensures id in failed <==> WasBefore(rs, i, id, Failed)
        ensures id in skipped <==> WasBefore(rs, i, id, Skipped)
      {
        BadBeforeIsIds(rs, i, id, Failed);
        BadBeforeIsIds(rs, i, id, Skipped);
      }
      assert FirstBadDep(rs[i].reason.value, deps, rs, i, k);
    }
  }

  // ---------- Chains of positions ----------

  /** Positions walking back through listed dependencies, each strictly earlier, ending in a failure. */
  predicate BackwardChain(g: Graph, rs: seq<Result>, ps: seq<nat>) {
    && |ps| >= 1
    && (forall k :: 0 <= k < |ps| ==> ps[k] < |rs|)
    && (forall k :: 0 <= k < |ps| - 1 ==> ps[k + 1] < ps[k] && rs[ps[k + 1]].id in DepsOf(g, rs[ps[k]].id))
    && rs[ps[|ps| - 1]].status == Failed
  }

  lemma {:induction false} SkippedHasChain(g: Graph, journeys: seq<int>, outcomes: seq<Outcome>, i: nat)
    returns (ps: seq<nat>)
    requires |outcomes| == |journeys| && i < |journeys|
    requires Bad(Execute(g, journeys, outcomes)[i])
    ensures BackwardChain(g, Execute(g, journeys, outcomes), ps) && ps[0] == i
    ensures Execute(g, journeys, outcomes)[i].status == Skipped ==> |ps| >= 2
    decreases i
  {
    var rs := Execute(g, journeys, outcomes);
    if rs[i].status == Failed {
      ps := [i];
    } else {
      SkippedIffBlocked(g, journeys, outcomes, i);
      var p :| BlockedBy(g, rs, i, p);
      var tail := SkippedHasChain(g, journeys, outcomes, p);
      ps := [i] + tail;
      assert forall k :: 1 <= k < |ps| ==> ps[k] == tail[k - 1];
    }
  }

  lemma {:induction false} ChainForcesBad(g: Graph, journeys: seq<int>, outcomes: seq<Outcome>, ps: seq<nat>)
    requires |outcomes| == |journeys|
    requires BackwardChain(g, Execute(g, journeys, outcomes), ps)
    ensures Bad(Execute(g, journeys, outcomes)[ps[0]])
    ensures |ps| >= 2 ==> Execute(g, journeys, outcomes)[ps[0]].status == Skipped
    decreases |ps|
  {
    if |ps| >= 2 {
      var rs := Execute(g, journeys, outcomes);
      var tail := ps[1..];
      assert forall k :: 0 <= k < |tail| ==> tail[k] == ps[k + 1];
      ChainForcesBad(g, journeys, outcomes, tail);
      assert BlockedBy(g, rs, ps[0], ps[1]);
      SkippedIffBlocked(g, journeys, outcomes, ps[0]);
    }
  }

  /**
   For any dependency map, cyclic or not, and any list of journeys, repeated or not: a journey is
   skipped exactly when a backward chain of dependencies leads from it to one that ran and failed.
   */
  lemma SkippedIffBackwardChain(g: Graph, journeys: seq<int>, outcomes: seq<Outcome>, i: nat)
    requires |outcomes| == |journeys| && i < |journeys|
    ensures var rs := Execute(g, journeys, outcomes);
            rs[i].status == Skipped <==> exists ps :: BackwardChain(g, rs, ps) && ps[0] == i && |ps| >= 2
  {
    var rs := Execute(g, journeys, outcomes);
    if rs[i].status == Skipped {
      var ps := SkippedHasChain(g, journeys, outcomes, i);
      assert BackwardChain(g, rs, ps) && ps[0] == i && |ps| >= 2;
    }
    if ps :| BackwardChain(g, rs, ps) && ps[0] == i && |ps| >= 2 {
      ChainForcesBad(g, journeys, outcomes, ps);
    }
  }

  // ---------- Dependencies listed first ----------

  ghost predicate Distinct(s: seq<int>) {
    forall i, j :: 0 <= i < j < |s| ==> s[i] != s[j]
  }

  /** Every dependency that is in the run at all comes earlier in it. */
  predicate DepsEarlier(g: Graph, journeys: seq<int>) {
    forall i, p :: 0 <= i < |journeys| && 0 <= p < |journeys| && journeys[p] in DepsOf(g, journeys[i]) ==> p < i
  }

  /** A chain of dependencies within the run, by journey id, from `id` to `end`. */
  predicate DependencyPath(g: Graph, journeys: seq<int>, path: seq<int>) {
    && |path| >= 2
    && (forall k :: 0 <= k < |path| ==> path[k] in journeys)
    && (forall k :: 0 <= k < |path| - 1 ==> path[k + 1] in DepsOf(g, path[k]))
  }

  ghost predicate LeadsToFailure(g: Graph, journeys: seq<int>, rs: seq<Result>, id: int, failures: set<int>) {
    exists path :: DependencyPath(g, journeys, path) && path[0] == id && path[|path| - 1] in failures
  }

  function PositionOf(s: seq<int>, x: int): (i: nat)
    requires x in s
    ensures i < |s| && s[i] == x
  {
    if s[0] == x then 0 else 1 + PositionOf(s[1..], x)
  }

  function PositionsOf(s: seq<int>, xs: seq<int>): (ps: seq<nat>)
    requires forall k :: 0 <= k < |xs| ==> xs[k] in s
    ensures |ps| == |xs|
    ensures forall k :: 0 <= k < |ps| ==> ps[k] < |s| && s[ps[k]] == xs[k]
  {
    if xs == [] then [] else [PositionOf(s, xs[0])] + PositionsOf(s, xs[1..])
  }

  lemma PathIsChain(g: Graph, journeys: seq<int>, rs: seq<Result>, path: seq<int>, i: nat) returns (ps: seq<nat>)
    requires |rs| == |journeys| && (forall k :: 0 <= k < |rs| ==> rs[k].id == journeys[k])
    requires Distinct(journeys) && DepsEarlier(g, journeys)
    requires DependencyPath(g, journeys, path) && i < |journeys| && path[0] == journeys[i]
    requires path[|path| - 1] in IdsWith(rs, Failed)
    ensures BackwardChain(g, rs, ps) && ps[0] == i && |ps| == |path|
  {
    ps := PositionsOf(journeys, path);
    forall k | 0 <= k < |ps| - 1
      ensures ps[k + 1] < ps[k] && rs[ps[k + 1]].id in DepsOf(g, rs[ps[k]].id)
    {
      EdgeGoesBack(g, journeys, path, ps, k);
    }
    FailedPosition(journeys, rs, ps[|ps| - 1]);
  }

  lemma FailedPosition(journeys: seq<int>, rs: seq<Result>, p: nat)
    requires |rs| == |journeys| && (forall k :: 0 <= k < |rs| ==> rs[k].id == journeys[k])
    requires Distinct(journeys) && p < |journeys| && journeys[p] in IdsWith(rs, Failed)
    ensures rs[p].status == Failed
  {
    var f :| 0 <= f < |rs| && rs[f].id == journeys[p] && rs[f].status == Failed;
    assert journeys[f] == journeys[p];
  }

  lemma EdgeGoesBack(g: Graph, journeys: seq<int>, path: seq<int>, ps: seq<nat>, k: nat)
    requires DepsEarlier(g, journeys) && DependencyPath(g, journeys, path) && k < |path| - 1 && |ps| == |path|
    requires forall j :: 0 <= j < |ps| ==> ps[j] < |journeys| && journeys[ps[j]] == path[j]
    ensures ps[k + 1] < ps[k] && journeys[ps[k + 1]] in DepsOf(g, journeys[ps[k]])
  {
    assert path[k + 1] in DepsOf(g, path[k]);
  }

  lemma ChainIsPath(g: Graph, journeys: seq<int>, rs: seq<Result>, ps: seq<nat>) returns (path: seq<int>)
    requires |rs| == |journeys| && (forall k :: 0 <= k < |rs| ==> rs[k].id == journeys[k])
    requires BackwardChain(g, rs, ps) && |ps| >= 2
    ensures DependencyPath(g, journeys, path) && path[0] == rs[ps[0]].id
    ensures path[|path| - 1] == rs[ps[|ps| - 1]].id
  {
    path := seq(|ps|, k requires 0 <= k < |ps| => journeys[ps[k]]);
  }

  /** With dependencies first, skips are exactly transitive reachability of a failure inside the run. */
  lemma SkippedIffReachesFailure(g: Graph, journeys: seq<int>, outcomes: seq<Outcome>, i: nat)
    requires |outcomes| == |journeys| && i < |journeys|
    requires Distinct(journeys) && DepsEarlier(g, journeys)
    ensures var rs := Execute(g, journeys, outcomes);
            rs[i].status == Skipped <==> LeadsToFailure(g, journeys, rs, journeys[i], IdsWith(rs, Failed))
  {
    var rs := Execute(g, journeys, outcomes);
    var failed := IdsWith(rs, Failed);
    if rs[i].status == Skipped {
      var ps := SkippedHasChain(g, journeys, outcomes, i);
      var path := ChainIsPath(g, journeys, rs, ps);
      assert DependencyPath(g, journeys, path) && path[0] == journeys[i] && path[|path| - 1] in failed;
    }
    if LeadsToFailure(g, journeys, rs, journeys[i], failed) {
      var path :| DependencyPath(g, journeys, path) && path[0] == journeys[i] && path[|path| - 1] in failed;
      var ps := PathIsChain(g, journeys, rs, path, i);
      ChainForcesBad(g, journeys, outcomes, ps);
    }
  }

  // ---------- Root causes ----------

  lemma {:induction false} FailedResultsAre(rs: seq<Result>)
    ensures forall r :: r in FailedResults(rs) <==> r in rs && r.status == Failed
  {
    if rs != [] {
      FailedResultsAre(rs[1..]);
      assert rs == [rs[0]] + rs[1..];
    }
  }

  lemma {:induction false} KeptWhole(g: Graph, rs: seq<Result>, failed: set<int>, skipped: set<int>)
    ensures |WithoutBadDeps(g, rs, failed, skipped)| <= |rs|
    ensures |WithoutBadDeps(g, rs, failed, skipped)| == |rs| <==> WithoutBadDeps(g, rs, failed, skipped) == IdsOf(rs)
    ensures |WithoutBadDeps(g, rs, failed, skipped)| == |rs|
       <==> forall r :: r in rs ==> !HasBadDep(g, r.id, failed, skipped)
  {
    if rs != [] {
      var n := |rs| - 1;
      KeptWhole(g, rs[..n], failed, skipped);
      assert rs == rs[..n] + [rs[n]];
    }
  }

  lemma FailedIdsAgree(rs: seq<Result>)
    ensures var fs := FailedResults(rs); (set i | 0 <= i < |fs| :: fs[i].id) == IdsWith(rs, Failed)
  {
    FailedResultsAre(rs);
    var fs := FailedResults(rs);
    forall id | id in IdsWith(rs, Failed)
      ensures exists i :: 0 <= i < |fs| && fs[i].id == id
    {
      var i :| 0 <= i < |rs| && rs[i].id == id && rs[i].status == Failed;
      assert rs[i] in fs;
    }
    forall i | 0 <= i < |fs|
      ensures fs[i].id in IdsWith(rs, Failed)
    {
      assert fs[i] in rs;
    }
  }

  /** A failed journey with a dependency that was tried too late, or never passed. */
  predicate LateBadDep(g: Graph, rs: seq<Result>, i: int, p: int) {
    0 <= i <= p < |rs| && rs[i].status == Failed && rs[p].id in DepsOf(g, rs[i].id) && Bad(rs[p])
  }

  /** The root causes are all the failures exactly when no failed journey precedes a dependency that went bad. */
  lemma RootCausesAreAllFailuresExactlyWhen(g: Graph, journeys: seq<int>, outcomes: seq<Outcome>)
    requires |outcomes| == |journeys|
    ensures var rs := Execute(g, journeys, outcomes);
            RootCauses(g, rs) == Sorted(IdsOf(FailedResults(rs))) <==> !exists i, p :: LateBadDep(g, rs, i, p)
  {
    var rs := Execute(g, journeys, outcomes);
    var fs := FailedResults(rs);
    var failed, skipped := IdsWith(rs, Failed), IdsWith(rs, Skipped);
    FailedIdsAgree(rs);
    FailedResultsAre(rs);
    KeptWhole(g, fs, failed, skipped);
    SortedSorts(WithoutBadDeps(g, fs, failed, skipped));
    SortedSorts(IdsOf(fs));
    if i, p :| LateBadDep(g, rs, i, p) {
      assert rs[i] in fs && HasBadDep(g, rs[i].id, failed, skipped);
    } else {
      forall r | r in fs
        ensures !HasBadDep(g, r.id, failed, skipped)
      {
        NoBadDepOf(g, journeys, outcomes, r);
      }
    }
  }

  lemma NoBadDepOf(g: Graph, journeys: seq<int>, outcomes: seq<Outcome>, r: Result)
    requires |outcomes| == |journeys|
    requires r in Execute(g, journeys, outcomes) && r.status == Failed
    requires !exists i, p :: LateBadDep(g, Execute(g, journeys, outcomes), i, p)
    ensures var rs := Execute(g, journeys, outcomes);
            !HasBadDep(g, r.id, IdsWith(rs, Failed), IdsWith(rs, Skipped))
  {
    var rs := Execute(g, journeys, outcomes);
    var failed, skipped := IdsWith(rs, Failed), IdsWith(rs, Skipped);
    var i :| 0 <= i < |rs| && rs[i] == r;
    if HasBadDep(g, r.id, failed, skipped) {
      var d :| d in DepsOf(g, r.id) && (d in failed || d in skipped);
      var p :| 0 <= p < |rs| && rs[p].id == d && Bad(rs[p]);
      SkippedIffBlocked(g, journeys, outcomes, i);
      if p < i {
        assert BlockedBy(g, rs, i, p);
      } else {
        assert LateBadDep(g, rs, i, p);
      }
    }
  }

  /**
   A root cause is a failed journey none of whose dependencies failed or was skipped anywhere among the
   results; they come in ascending order, each as often as it failed.
   */
  lemma RootCausesAre(g: Graph, rs: seq<Result>, id: int)
    ensures Ascending(RootCauses(g, rs))
    ensures id in RootCauses(g, rs) <==>
              && (exists i :: 0 <= i < |rs| && rs[i].id == id && rs[i].status == Failed)
              && (forall p :: 0 <= p < |rs| && rs[p].id in DepsOf(g, id) ==> !Bad(rs[p]))
    ensures id in RootCauses(g, rs) ==>
              multiset(RootCauses(g, rs))[id] == multiset(IdsOf(FailedResults(rs)))[id]
  {
    var fs := FailedResults(rs);
    var failed, skipped := IdsWith(rs, Failed), IdsWith(rs, Skipped);
    FailedIdsAgree(rs);
    SortedSorts(WithoutBadDeps(g, fs, failed, skipped));
    KeptCounts(g, fs, failed, skipped, id);
    assert id in RootCauses(g, rs) <==> multiset(RootCauses(g, rs))[id] > 0;
    assert id in IdsOf(fs) <==> multiset(IdsOf(fs))[id] > 0;
    FailedResultsAre(rs);
    IdsOfMembers(fs, id);
    BadDepSomewhere(g, rs, id);
  }

  lemma {:induction false} KeptCounts(g: Graph, fs: seq<Result>, failed: set<int>, skipped: set<int>, id: int)
    ensures multiset(WithoutBadDeps(g, fs, failed, skipped))[id]
         == if HasBadDep(g, id, failed, skipped) then 0 else multiset(IdsOf(fs))[id]
  {
    if fs != [] {
      var n := |fs| - 1;
      KeptCounts(g, fs[..n], failed, skipped, id);
    }
  }

  lemma BadDepSomewhere(g: Graph, rs: seq<Result>, id: int)
    ensures HasBadDep(g, id, IdsWith(rs, Failed), IdsWith(rs, Skipped))
       <==> exists p :: 0 <= p < |rs| && rs[p].id in DepsOf(g, id) && Bad(rs[p])
  {
    if p :| 0 <= p < |rs| && rs[p].id in DepsOf(g, id) && Bad(rs[p]) {
      assert rs[p].id in IdsWith(rs, Failed) || rs[p].id in IdsWith(rs, Skipped);
    }
  }

  /** With dependencies first, `find_root_causes` returns every failed journey, in ascending order. */
  lemma RootCausesWhenDepsFirst(g: Graph, journeys: seq<int>, outcomes: seq<Outcome>)
    requires |outcomes| == |journeys| && DepsEarlier(g, journeys)
    ensures var rs := Execute(g, journeys, outcomes);
            && RootCauses(g, rs) == Sorted(IdsOf(FailedResults(rs)))
            && (forall id :: id in RootCauses(g, rs) <==> id in IdsWith(rs, Failed))
  {
    var rs := Execute(g, journeys, outcomes);
    RootCausesAreAllFailuresExactlyWhen(g, journeys, outcomes);
    SortedSorts(IdsOf(FailedResults(rs)));
    FailedResultsAre(rs);
    forall id
      ensures id in RootCauses(g, rs) <==> id in IdsWith(rs, Failed)
    {
      SameElements(RootCauses(g, rs), IdsOf(FailedResults(rs)), id);
      IdsOfMembers(FailedResults(rs), id);
    }
  }

  lemma SameElements(a: seq<int>, b: seq<int>, x: int)
    requires multiset(a) == multiset(b)
    ensures x in a <==> x in b
  {
    assert x in multiset(a) <==> x in multiset(b);
  }

  lemma {:induction false} IdsOfMembers(rs: seq<Result>, id: int)
    ensures id in IdsOf(rs) <==> exists r :: r in rs && r.id == id
  {
    if rs != [] {
      var n := |rs| - 1;
      IdsOfMembers(rs[..n], id);
      assert rs == rs[..n] + [rs[n]];
    }
  }

  // ---------- Exit code ----------

  predicate ExitsZero(rs: seq<Result>, known: set<int>) {
    forall i :: 0 <= i < |rs| ==> !Blocking(rs[i], known)
  }

  /** A zero exit explains every skip: a chain of dependencies leads to a failure registered as known. */
  lemma ZeroExitExplainsSkips(g: Graph, journeys: seq<int>, outcomes: seq<Outcome>, known: set<int>, i: nat)
    requires |outcomes| == |journeys| && i < |journeys|
    requires ExitsZero(Execute(g, journeys, outcomes), known)
    requires Execute(g, journeys, outcomes)[i].status == Skipped
    ensures LeadsToFailure(g, journeys, Execute(g, journeys, outcomes), journeys[i], known)
  {
    var rs := Execute(g, journeys, outcomes);
    var ps := SkippedHasChain(g, journeys, outcomes, i);
    var path := ChainIsPath(g, journeys, rs, ps);
    assert !Blocking(rs[ps[|ps| - 1]], known);
    assert DependencyPath(g, journeys, path) && path[0] == journeys[i] && path[|path| - 1] in known;
  }

  /**
   With dependencies first, the exit is zero exactly when everything run is implemented and every
   reported root cause is registered.
   */
  lemma ZeroExitIffRootCausesKnown(g: Graph, journeys: seq<int>, outcomes: seq<Outcome>, known: set<int>)
    requires |outcomes| == |journeys| && DepsEarlier(g, journeys)
    ensures var rs := Execute(g, journeys, outcomes);
            ExitsZero(rs, known) <==>
              && (forall id :: id in RootCauses(g, rs) ==> id in known)
              && IdsWith(rs, NotImplemented) == {}
  {
    var rs := Execute(g, journeys, outcomes);
    RootCausesWhenDepsFirst(g, journeys, outcomes);
    if ExitsZero(rs, known) {
      assert forall i :: 0 <= i < |rs| ==> !Blocking(rs[i], known);
    } else {
      var i :| 0 <= i < |rs| && Blocking(rs[i], known);
      assert rs[i].id in IdsWith(rs, rs[i].status);
    }
  }

  /** What the exit code is documented to mean by zero: every result passed, or is a failure registered as known. */
  predicate Documented(rs: seq<Result>, known: set<int>) {
    forall i :: 0 <= i < |rs| ==> rs[i].status == Passed || (rs[i].status == Failed && rs[i].id in known)
  }

  /** A dependency listed by entry `i` ran before it and failed. */
  predicate FailedBefore(g: Graph, rs: seq<Result>, i: int, p: int) {
    0 <= p < i < |rs| && rs[p].status == Failed && rs[p].id in DepsOf(g, rs[i].id)
  }

  /** Something is skipped exactly when some entry lists a dependency that failed before it. */
  lemma SomeSkippedExactlyWhen(g: Graph, journeys: seq<int>, outcomes: seq<Outcome>)
    requires |outcomes| == |journeys|
    ensures var rs := Execute(g, journeys, outcomes);
            (exists i :: 0 <= i < |rs| && rs[i].status == Skipped) <==> exists i, p :: FailedBefore(g, rs, i, p)
  {
    var rs := Execute(g, journeys, outcomes);
    if i :| 0 <= i < |rs| && rs[i].status == Skipped {
      var ps := SkippedHasChain(g, journeys, outcomes, i);
      assert FailedBefore(g, rs, ps[|ps| - 2], ps[|ps| - 1]);
    }
    if i, p :| FailedBefore(g, rs, i, p) {
      assert BlockedBy(g, rs, i, p);
      SkippedIffBlocked(g, journeys, outcomes, i);
    }
  }

  /**
   For any graph and run, the exit code means what it is documented to mean exactly when it is not zero,
   or no dependency failed before a journey that lists it.
   */
  lemma ExitIsAsDocumentedExactlyWhen(g: Graph, journeys: seq<int>, outcomes: seq<Outcome>, known: set<int>)
    requires |outcomes| == |journeys|
    ensures var rs := Execute(g, journeys, outcomes);
            (ExitsZero(rs, known) <==> Documented(rs, known))
            <==> (ExitsZero(rs, known) ==> !exists i, p :: FailedBefore(g, rs, i, p))
  {
    var rs := Execute(g, journeys, outcomes);
    SomeSkippedExactlyWhen(g, journeys, outcomes);
    if i :| 0 <= i < |rs| && rs[i].status == Skipped {
      assert !Documented(rs, known);
    } else if ExitsZero(rs, known) {
      assert forall i :: 0 <= i < |rs| ==> !Blocking(rs[i], known) && rs[i].status != Skipped;
    } else {
      var i :| 0 <= i < |rs| && Blocking(rs[i], known);
    }
  }

  /** It can fail: a journey skipped for a registered failure exits zero, though it neither passed nor is registered. */
  lemma SkipExitsZero(first: int, second: int)
    requires first != second
    ensures var g := [(first, []), (second, [first])];
            var rs := Execute(g, [first, second], [Failed, Passed]);
            rs[1].status == Skipped && ExitsZero(rs, {first}) && !Documented(rs, {first})
  {
    var g := [(first, []), (second, [first])];
    var rs := Execute(g, [first, second], [Failed, Passed]);
    SkippedIffBlocked(g, [first, second], [Failed, Passed], 0);
    SkippedIffBlocked(g, [first, second], [Failed, Passed], 1);
    assert DepsOf(g, first) == [];
    assert g[1..] == [(second, [first])] && DepsOf(g, second) == [first];
    assert rs[0].status == Failed;
    assert BlockedBy(g, rs, 1, 0);
  }

  // ---------- The shipped graph ----------

  /** Every journey is numbered above its dependencies. */
  predicate NumberedUpward(g: Graph) {
    forall k :: 0 <= k < |g| ==> forall d :: d in g[k].1 ==> d < g[k].0
  }

  lemma {:induction false} DepsAreSmaller(g: Graph, id: int, d: int)
    requires NumberedUpward(g) && d in DepsOf(g, id)
    ensures d < id
  {
    if g[0].0 != id {
      assert forall k :: 0 <= k < |g[1..]| ==> g[1..][k] == g[k + 1];
      DepsAreSmaller(g[1..], id, d);
    }
  }

  lemma {:induction false} SortedDistinct(s: seq<int>)
    requires Distinct(s)
    ensures forall i, j :: 0 <= i < j < |Sorted(s)| ==> Sorted(s)[i] < Sorted(s)[j]
  {
    SortedSorts(s);
    var r := Sorted(s);
    forall i, j | 0 <= i < j < |r|
      ensures r[i] < r[j]
    {
      if r[i] == r[j] {
        RepeatCounts(r, i, j);
        DistinctCounts(s, r[i]);
        assert false;
      }
    }
  }

  lemma RepeatCounts(r: seq<int>, i: nat, j: nat)
    requires i < j < |r| && r[i] == r[j]
    ensures multiset(r)[r[i]] >= 2
  {
    assert r == r[..i] + [r[i]] + r[i + 1..j] + [r[j]] + r[j + 1..];
  }

  lemma {:induction false} DistinctCounts(s: seq<int>, x: int)
    requires Distinct(s)
    ensures multiset(s)[x] <= 1
  {
    if s != [] {
      DistinctCounts(s[1..], x);
      assert s == [s[0]] + s[1..];
      assert s[0] !in s[1..];
    }
  }

  /** On a graph numbered upward with distinct keys, every run the CLI can ask for lists dependencies first. */
  lemma RunsListDepsFirst(g: Graph, specific: Option<int>)
    requires NumberedUpward(g) && Distinct(KeysOf(g)) && GetJourneysToRun(g, specific).Some?
    ensures var journeys := GetJourneysToRun(g, specific).value;
            Distinct(journeys) && DepsEarlier(g, journeys)
  {
    var journeys := GetJourneysToRun(g, specific).value;
    if specific.None? {
      SortedDistinct(KeysOf(g));
    }
    forall i, p | 0 <= i < |journeys| && 0 <= p < |journeys| && journeys[p] in DepsOf(g, journeys[i])
      ensures p < i
    {
      DepsAreSmaller(g, journeys[i], journeys[p]);
    }
  }

  /** The journey has an entry in the table. */
  ghost predicate Listed(g: Graph, id: int) {
    exists k :: 0 <= k < |g| && g[k].0 == id
  }

  lemma KeysAreListed(g: Graph, id: int)
    ensures id in KeysOf(g) <==> Listed(g, id)
  {
    if Listed(g, id) {
      var k :| 0 <= k < |g| && g[k].0 == id;
      assert KeysOf(g)[k] == id;
    }
  }

  /** A named journey runs alone if the table lists it, and is refused otherwise. */
  lemma NamedRunExactlyWhen(g: Graph, id: int)
    ensures GetJourneysToRun(g, Some(id)) == if Listed(g, id) then Some([id]) else None
  {
    KeysAreListed(g, id);
  }

  /** A run of all journeys holds exactly the listed ones, in ascending order, each once if its key is. */
  lemma FullRunIsTheTable(g: Graph)
    ensures GetJourneysToRun(g, None).Some?
    ensures var journeys := GetJourneysToRun(g, None).value;
            && Ascending(journeys) && |journeys| == |g|
            && (forall id :: id in journeys <==> Listed(g, id))
            && (Distinct(KeysOf(g)) ==> Distinct(journeys))
  {
    var journeys := GetJourneysToRun(g, None).value;
    SortedSorts(KeysOf(g));
    forall id
      ensures id in journeys <==> Listed(g, id)
    {
      SameElements(journeys, KeysOf(g), id);
      KeysAreListed(g, id);
    }
    if Distinct(KeysOf(g)) {
      SortedDistinct(KeysOf(g));
    }
  }

  /** The dependencies of a listed journey are those of its entry. */
  lemma {:induction false} DepsAreTheEntrys(g: Graph, k: nat)
    requires k < |g| && forall i, j :: 0 <= i < j < |g| ==> g[i].0 != g[j].0
    ensures DepsOf(g, g[k].0) == g[k].1
  {
    if k > 0 {
      assert g[1..][k - 1] == g[k];
      DepsAreTheEntrys(g[1..], k - 1);
    }
  }

  /** A journey that is not listed has none. */
  lemma {:induction false} UnlistedHasNoDeps(g: Graph, id: int)
    requires !Listed(g, id)
    ensures DepsOf(g, id) == []
  {
    if g != [] {
      assert forall k :: 0 <= k < |g[1..]| ==> g[1..][k] == g[k + 1];
      UnlistedHasNoDeps(g[1..], id);
    }
  }

  /** A prerequisite list that is empty, or names one smaller journey. */
  predicate SmallEntry(e: (int, seq<int>)) {
    e.1 == [] || (|e.1| == 1 && e.1[0] < e.0)
  }

  lemma ShippedEntriesAreSmall()
    ensures forall k :: 0 <= k < |JOURNEY_DEPS| ==> SmallEntry(JOURNEY_DEPS[k])
  {
  }

  lemma ShippedKeysAscend()
    ensures forall k :: 0 <= k < |JOURNEY_DEPS| - 1 ==> JOURNEY_DEPS[k].0 < JOURNEY_DEPS[k + 1].0
  {
  }

  lemma SmallEntriesGoUpward(g: Graph)
    requires forall k :: 0 <= k < |g| ==> SmallEntry(g[k])
    ensures NumberedUpward(g)
  {
  }

  lemma SmallAscendingIsSound(g: Graph)
    requires forall k :: 0 <= k < |g| ==> SmallEntry(g[k])
    requires forall k :: 0 <= k < |g| - 1 ==> g[k].0 < g[k + 1].0
    ensures NumberedUpward(g) && Distinct(KeysOf(g))
  {
    SmallEntriesGoUpward(g);
    KeysAscend(g);
  }

  /** The shipped dependency table is numbered upward and has distinct keys. */
  lemma ShippedGraphIsSound()
    ensures NumberedUpward(JOURNEY_DEPS) && Distinct(KeysOf(JOURNEY_DEPS))
  {
    ShippedEntriesAreSmall();
    ShippedKeysAscend();
    SmallAscendingIsSound(JOURNEY_DEPS);
  }

  lemma {:induction false} KeysAscend(g: Graph)
    requires forall k :: 0 <= k < |g| - 1 ==> g[k].0 < g[k + 1].0
    ensures forall i, j :: 0 <= i < j < |g| ==> g[i].0 < g[j].0
  {
    if |g| > 1 {
      var n := |g| - 1;
      var init := g[..n];
      KeysAscend(init);
      assert forall i :: 0 <= i < n ==> g[i] == init[i];
      assert g[n - 1].0 < g[n].0;
      assert forall i :: 0 <= i < n ==> g[i].0 <= g[n - 1].0;
    }
  }

  /** So any run the CLI makes of such a graph skips by reachability and reports every failure as a root cause. */
  lemma CliRunsAreExact(g: Graph, specific: Option<int>, outcomes: seq<Outcome>, i: nat)
    requires NumberedUpward(g) && Distinct(KeysOf(g)) && GetJourneysToRun(g, specific).Some?
    requires |outcomes| == |GetJourneysToRun(g, specific).value| && i < |outcomes|
    ensures var journeys := GetJourneysToRun(g, specific).value;
            var rs := Execute(g, journeys, outcomes);
            && RootCauses(g, rs) == Sorted(IdsOf(FailedResults(rs)))
            && (rs[i].status == Skipped <==> LeadsToFailure(g, journeys, rs, journeys[i], IdsWith(rs, Failed)))
  {
    var journeys := GetJourneysToRun(g, specific).value;
    RunsListDepsFirst(g, specific);
    RootCausesWhenDepsFirst(g, journeys, outcomes);
    SkippedIffReachesFailure(g, journeys, outcomes, i);
  }
}
