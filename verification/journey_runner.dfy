/** The dependency-aware journey scheduler of scripts/uat_runner.py. */
module JourneyRunner {
  import opened Wrappers

  datatype Status = Passed | Failed | Skipped | NotImplemented

  /** What running a journey can report. */
  type Outcome = s: Status | s != Skipped witness Passed

  datatype SkipReason = DependencyFailed(dep: int) | DependencySkipped(dep: int)

  datatype Result = Result(id: int, status: Status, reason: Option<SkipReason>)

  /** A dictionary from journey to prerequisites, in insertion order. */
  type Graph = seq<(int, seq<int>)>

  /** `JOURNEY_DEPS.get(id, [])` */
  function DepsOf(g: Graph, id: int): seq<int> {
    if g == [] then [] else if g[0].0 == id then g[0].1 else DepsOf(g[1..], id)
  }

  function KeysOf(g: Graph): (ids: seq<int>)
    ensures |ids| == |g|
    ensures forall i :: 0 <= i < |g| ==> ids[i] == g[i].0
  {
    if g == [] then [] else [g[0].0] + KeysOf(g[1..])
  }

  // ---------- Sorting ----------

  function Inserted(x: int, s: seq<int>): seq<int> {
    if s == [] || x <= s[0] then [x] + s else [s[0]] + Inserted(x, s[1..])
  }

  /** Python's `sorted` on integers. */
  function Sorted(s: seq<int>): seq<int> {
    if s == [] then [] else Inserted(s[0], Sorted(s[1..]))
  }

  ghost predicate Ascending(s: seq<int>) {
    forall i, j :: 0 <= i < j < |s| ==> s[i] <= s[j]
  }

  lemma {:induction false} InsertedElements(x: int, s: seq<int>)
    ensures multiset(Inserted(x, s)) == multiset(s) + multiset{x}
    ensures forall y :: y in Inserted(x, s) <==> y == x || y in s
  {
    if s == [] || x <= s[0] {
      assert forall y :: y in [x] + s <==> y == x || y in s;
    } else {
      InsertedElements(x, s[1..]);
      assert s == [s[0]] + s[1..];
    }
  }

  lemma {:induction false} InsertedAscends(x: int, s: seq<int>)
    requires Ascending(s)
    ensures Ascending(Inserted(x, s))
  {
    if s != [] && x > s[0] {
      var r := Inserted(x, s[1..]);
      InsertedAscends(x, s[1..]);
      InsertedElements(x, s[1..]);
      forall j | 0 <= j < |r|
        ensures s[0] <= r[j]
      {
        assert r[j] in r;
        assert r[j] == x || r[j] in s[1..];
      }
    }
  }

  /** `Sorted` is ascending and a permutation of its input. */
  lemma {:induction false} SortedSorts(s: seq<int>)
    ensures Ascending(Sorted(s)) && multiset(Sorted(s)) == multiset(s) && |Sorted(s)| == |s|
  {
    if s != [] {
      SortedSorts(s[1..]);
      InsertedElements(s[0], Sorted(s[1..]));
      InsertedAscends(s[0], Sorted(s[1..]));
      assert |multiset(Sorted(s))| == |Sorted(s)| && |multiset(s)| == |s|;
      assert s == [s[0]] + s[1..];
    }
  }

  // ---------- Skipping and running ----------

  /** The first dependency, in listed order, that failed or was skipped. */
  function SkipReasonFor(deps: seq<int>, failed: set<int>, skipped: set<int>): (r: Option<SkipReason>)
    ensures r.Some? <==> exists d :: d in deps && (d in failed || d in skipped)
    ensures r.Some? ==> r.value.dep in deps
    ensures r.Some? && r.value.DependencyFailed? ==> r.value.dep in failed
    ensures r.Some? && r.value.DependencySkipped? ==> r.value.dep in skipped
  {
    if deps == [] then None
    else if deps[0] in failed then Some(DependencyFailed(deps[0]))
    else if deps[0] in skipped then Some(DependencySkipped(deps[0]))
    else
      var r := SkipReasonFor(deps[1..], failed, skipped);
      assert forall d :: d in deps <==> d == deps[0] || d in deps[1..];
      r
  }

  function IdsWith(results: seq<Result>, status: Status): (ids: set<int>)
    ensures forall id ::
              id in ids <==> exists i :: 0 <= i < |results| && results[i].id == id && results[i].status == status
  {
    set i | 0 <= i < |results| && results[i].status == status :: results[i].id
  }

  function NextResult(g: Graph, earlier: seq<Result>, id: int, outcome: Outcome): Result {
    var reason := SkipReasonFor(DepsOf(g, id), IdsWith(earlier, Failed), IdsWith(earlier, Skipped));
    if reason.Some? then Result(id, Skipped, reason) else Result(id, outcome, None)
  }

  /** The results of a run; `outcomes[i]` is what journey `i` reports if it is run at all. */
  function Execute(g: Graph, journeys: seq<int>, outcomes: seq<Outcome>): (rs: seq<Result>)
    requires |outcomes| == |journeys|
    ensures |rs| == |journeys|
    ensures forall i :: 0 <= i < |rs| ==> rs[i].id == journeys[i]
  {
    if journeys == [] then []
    else
      var n := |journeys| - 1;
      var earlier := Execute(g, journeys[..n], outcomes[..n]);
      earlier + [NextResult(g, earlier, journeys[n], outcomes[n])]
  }

  method ShouldSkipJourney(g: Graph, id: int, failed: set<int>, skipped: set<int>) returns (r: Option<SkipReason>)
    ensures r == SkipReasonFor(DepsOf(g, id), failed, skipped)
  {
    var deps := DepsOf(g, id);
    for i := 0 to |deps|
      invariant SkipReasonFor(deps, failed, skipped) == SkipReasonFor(deps[i..], failed, skipped)
    {
      if deps[i] in failed {
        return Some(DependencyFailed(deps[i]));
      }
      if deps[i] in skipped {
        return Some(DependencySkipped(deps[i]));
      }
    }
    return None;
  }

  method ExecuteJourneys(g: Graph, journeys: seq<int>, outcomes: seq<Outcome>) returns (results: seq<Result>)
    requires |outcomes| == |journeys|
    ensures results == Execute(g, journeys, outcomes)
  {
    results := [];
    var failed: set<int>, skipped: set<int> := {}, {};
    for i := 0 to |journeys|
      invariant results == Execute(g, journeys[..i], outcomes[..i])
      invariant failed == IdsWith(results, Failed) && skipped == IdsWith(results, Skipped)
    {
      ExecuteNext(g, journeys, outcomes, i);
      var reason := ShouldSkipJourney(g, journeys[i], failed, skipped);
      ghost var before := results;
      if reason.Some? {
        skipped := skipped + {journeys[i]};
        results := results + [Result(journeys[i], Skipped, reason)];
      } else {
        results := results + [Result(journeys[i], outcomes[i], None)];
        if outcomes[i] == Failed {
          failed := failed + {journeys[i]};
        }
      }
      IdsWithSnoc(before, results[i]);
    }
    assert journeys[..|journeys|] == journeys && outcomes[..|outcomes|] == outcomes;
  }

  lemma ExecuteNext(g: Graph, journeys: seq<int>, outcomes: seq<Outcome>, i: nat)
    requires |outcomes| == |journeys| && i < |journeys|
    ensures var earlier := Execute(g, journeys[..i], outcomes[..i]);
            Execute(g, journeys[..i + 1], outcomes[..i + 1])
            == earlier + [NextResult(g, earlier, journeys[i], outcomes[i])]
  {
    assert journeys[..i + 1][..i] == journeys[..i] && outcomes[..i + 1][..i] == outcomes[..i];
  }

  lemma IdsWithSnoc(rs: seq<Result>, r: Result)
    ensures forall st :: IdsWith(rs + [r], st) == IdsWith(rs, st) + (if r.status == st then {r.id} else {})
  {
    forall st
      ensures IdsWith(rs + [r], st) == IdsWith(rs, st) + (if r.status == st then {r.id} else {})
    {
      assert forall i :: 0 <= i < |rs| ==> (rs + [r])[i] == rs[i];
      assert (rs + [r])[|rs|] == r;
    }
  }

  // ---------- Reports ----------

  predicate HasBadDep(g: Graph, id: int, failed: set<int>, skipped: set<int>) {
    exists d :: d in DepsOf(g, id) && (d in failed || d in skipped)
  }

  function FailedResults(rs: seq<Result>): seq<Result> {
    if rs == [] then [] else (if rs[0].status == Failed then [rs[0]] else []) + FailedResults(rs[1..])
  }

  function IdsOf(rs: seq<Result>): (ids: seq<int>)
    ensures |ids| == |rs|
  {
    if rs == [] then [] else IdsOf(rs[..|rs| - 1]) + [rs[|rs| - 1].id]
  }

  function WithoutBadDeps(g: Graph, rs: seq<Result>, failed: set<int>, skipped: set<int>): seq<int> {
    if rs == [] then []
    else
      var n := |rs| - 1;
      WithoutBadDeps(g, rs[..n], failed, skipped) + if HasBadDep(g, rs[n].id, failed, skipped) then [] else [rs[n].id]
  }

  function RootCausesAmong(g: Graph, failed: seq<Result>, all: seq<Result>): seq<int> {
    Sorted(WithoutBadDeps(g, failed, set i | 0 <= i < |failed| :: failed[i].id, IdsWith(all, Skipped)))
  }

  /** `find_root_causes(failed, results)`, as the summary calls it. */
  function RootCauses(g: Graph, rs: seq<Result>): seq<int> {
    RootCausesAmong(g, FailedResults(rs), rs)
  }

  method FindRootCauses(g: Graph, failed: seq<Result>, all: seq<Result>) returns (ids: seq<int>)
    ensures ids == RootCausesAmong(g, failed, all)
  {
    var failedIds := set i | 0 <= i < |failed| :: failed[i].id;
    var skippedIds := IdsWith(all, Skipped);
    var roots: seq<int> := [];
    for i := 0 to |failed|
      invariant roots == WithoutBadDeps(g, failed[..i], failedIds, skippedIds)
    {
      var reason := ShouldSkipJourney(g, failed[i].id, failedIds, skippedIds);
      assert failed[..i + 1][..i] == failed[..i];
      if reason.None? {
        roots := roots + [failed[i].id];
      }
    }
    assert failed[..|failed|] == failed;
    ids := Sorted(roots);
  }

  predicate Blocking(r: Result, known: set<int>) {
    (r.status == Failed && r.id !in known) || r.status == NotImplemented
  }

  method ComputeExitCode(results: seq<Result>, known: set<int>) returns (code: int)
    ensures code == 0 || code == 1
    ensures code == 0 <==> forall i :: 0 <= i < |results| ==> !Blocking(results[i], known)
  {
    for i := 0 to |results|
      invariant forall j :: 0 <= j < i ==> !Blocking(results[j], known)
    {
      if Blocking(results[i], known) {
        return 1;
      }
    }
    return 0;
  }

  /** One named journey, which must be known, or all of them in ascending order. */
  function GetJourneysToRun(g: Graph, specific: Option<int>): Option<seq<int>> {
    match specific
    case Some(id) => if id in KeysOf(g) then Some([id]) else None
    case None => Some(Sorted(KeysOf(g)))
  }

  const JOURNEY_DEPS: Graph := [
    (201, []), (202, [201]), (203, [202]), (204, []), (205, []), (206, []), (401, [205]), (402, [201]),
    (403, []), (404, []), (501, [204]), (502, [501]), (503, [501]), (504, [501]), (604, []), (605, []),
    (701, []), (702, [701]), (703, [702]), (704, []), (705, []), (706, []), (707, []), (708, []),
    (709, []), (710, []), (713, [])
  ]
}
