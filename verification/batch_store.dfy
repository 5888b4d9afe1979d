/** The session store of batch render jobs (gui/src/stores/batchStore.ts). */
module BatchStore {
  import opened Wrappers

  datatype Status = Queued | Running | Completed | Failed | Cancelled

  datatype Job = Job(id: string, batch: string, project: string, status: Status,
                     progress: real, error: Option<string>, submittedAt: int)

  /** A patch: an absent field is `None`; an `error` of `Some(None)` writes null. */
  datatype Patch = Patch(id: string, status: Option<Status>, progress: Option<real>, error: Option<Option<string>>)

  const TERMINAL_STATUSES: set<Status> := {Completed, Failed, Cancelled}

  ghost predicate UniqueIds(jobs: seq<Job>) {
    forall i, j :: 0 <= i < j < |jobs| ==> jobs[i].id != jobs[j].id
  }

  /** `findIndex`: the first position holding `id`, or the length when there is none. */
  function IndexOf(jobs: seq<Job>, id: string): (i: nat)
    ensures i <= |jobs|
    ensures i < |jobs| ==> jobs[i].id == id
    ensures forall j :: 0 <= j < i ==> jobs[j].id != id
  {
    if jobs == [] || jobs[0].id == id then 0 else 1 + IndexOf(jobs[1..], id)
  }

  function Added(jobs: seq<Job>, job: Job): seq<Job> {
    var i := IndexOf(jobs, job.id);
    if i < |jobs| then jobs[i := job] else jobs + [job]
  }

  function Merged(job: Job, u: Patch): Job {
    var status := if u.status.Some? then u.status.value else job.status;
    var progress := if u.progress.Some? then u.progress.value else job.progress;
    var error := if u.error.Some? then u.error.value else job.error;
    var kept :=
      if u.progress.Some? && u.progress.value < job.progress && status != Queued then job.progress else progress;
    job.(status := status, progress := kept, error := error)
  }

  function Updated(jobs: seq<Job>, u: Patch): seq<Job> {
    var i := IndexOf(jobs, u.id);
    if i < |jobs| then jobs[i := Merged(jobs[i], u)] else jobs
  }

  function Removed(jobs: seq<Job>, id: string): seq<Job> {
    if jobs == [] then []
    else (if jobs[0].id == id then [] else [jobs[0]]) + Removed(jobs[1..], id)
  }

  datatype Op = Add(job: Job) | Update(patch: Patch) | Remove(id: string) | Reset

  function Apply(jobs: seq<Job>, op: Op): seq<Job> {
    match op
    case Add(job) => Added(jobs, job)
    case Update(u) => Updated(jobs, u)
    case Remove(id) => Removed(jobs, id)
    case Reset => []
  }

  /** The store object: each action replaces the `jobs` list. */
  class Store {
    var jobs: seq<Job>

    constructor ()
      ensures jobs == []
    {
      jobs := [];
    }

    method AddJob(job: Job)
      modifies this
      ensures jobs == Apply(old(jobs), Add(job))
    {
      var i := IndexOf(jobs, job.id);
      if i < |jobs| {
        jobs := jobs[i := job];
      } else {
        jobs := jobs + [job];
      }
    }

    method UpdateJob(u: Patch)
      modifies this
      ensures jobs == Apply(old(jobs), Update(u))
    {
      var i := IndexOf(jobs, u.id);
      if i < |jobs| {
        var existing := jobs[i];
        var merged := existing.(
          status := if u.status.Some? then u.status.value else existing.status,
          progress := if u.progress.Some? then u.progress.value else existing.progress,
          error := if u.error.Some? then u.error.value else existing.error);
        if u.progress.Some? && u.progress.value < existing.progress && merged.status != Queued {
          merged := merged.(progress := existing.progress);
        }
        jobs := jobs[i := merged];
      }
    }

    method RemoveJob(id: string)
      modifies this
      ensures jobs == Apply(old(jobs), Remove(id))
    {
      jobs := Removed(jobs, id);
    }

    method ResetAll()
      modifies this
      ensures jobs == Apply(old(jobs), Reset)
    {
      jobs := [];
    }
  }

  // ---------- What the actions keep ----------

  lemma {:induction false} RemovedSelects(jobs: seq<Job>, id: string)
    requires UniqueIds(jobs)
    ensures UniqueIds(Removed(jobs, id))
    ensures forall j :: j in Removed(jobs, id) <==> j in jobs && j.id != id
  {
    if jobs != [] {
      var rest := jobs[1..];
      RemovedSelects(rest, id);
      assert jobs == [jobs[0]] + rest;
      assert forall j :: j in Removed(rest, id) ==> j.id != jobs[0].id;
    }
  }

  /** No action ever stores two jobs under one id. */
  lemma ApplyKeepsIdsUnique(jobs: seq<Job>, op: Op)
    requires UniqueIds(jobs)
    ensures UniqueIds(Apply(jobs, op))
  {
    if op.Remove? {
      RemovedSelects(jobs, op.id);
    }
  }

  /**
   A patch touches at most the one job it names, in place, and writes just the fields it carries;
   a lower progress is taken only if the job ends up queued.
   */
  lemma UpdateIsLocalAndMonotone(jobs: seq<Job>, u: Patch, i: nat)
    requires UniqueIds(jobs) && i < |jobs|
    ensures var after := Updated(jobs, u);
            && |after| == |jobs|
            && after[i].id == jobs[i].id && after[i].batch == jobs[i].batch && after[i].project == jobs[i].project
            && after[i].submittedAt == jobs[i].submittedAt
            && (jobs[i].id != u.id ==> after[i] == jobs[i])
            && (after[i].progress < jobs[i].progress ==> after[i].status == Queued && jobs[i].id == u.id)
            && (jobs[i].id == u.id && u.progress.Some? ==>
                  after[i].progress == u.progress.value
                  || (after[i].progress == jobs[i].progress > u.progress.value && after[i].status != Queued))
            && (jobs[i].id == u.id && u.progress.None? ==> after[i].progress == jobs[i].progress)
            && (jobs[i].id == u.id ==> after[i].status == if u.status.Some? then u.status.value else jobs[i].status)
            && (jobs[i].id == u.id ==> after[i].error == if u.error.Some? then u.error.value else jobs[i].error)
  {
  }

  /** Removing a job takes out its record and moves nothing else; other ids, and a reset, leave nothing to doubt. */
  lemma {:induction false} RemoveIsSplice(jobs: seq<Job>, id: string, i: nat)
    requires UniqueIds(jobs) && i <= |jobs|
    requires if i < |jobs| then jobs[i].id == id else forall j :: 0 <= j < |jobs| ==> jobs[j].id != id
    ensures Apply(jobs, Remove(id)) == if i < |jobs| then jobs[..i] + jobs[i + 1..] else jobs
    ensures Apply(jobs, Reset) == []
  {
    if jobs != [] {
      var rest := jobs[1..];
      assert jobs == [jobs[0]] + rest;
      if i == 0 {
        RemoveIsSplice(rest, id, |rest|);
      } else {
        RemoveIsSplice(rest, id, i - 1);
      }
    }
  }

  /** Adding a job replaces the record of its id where it stands, or appends it, and leaves the others. */
  lemma AddReplacesOrAppends(jobs: seq<Job>, job: Job, i: nat)
    requires UniqueIds(jobs) && i <= |jobs|
    requires if i < |jobs| then jobs[i].id == job.id else forall j :: 0 <= j < |jobs| ==> jobs[j].id != job.id
    ensures Apply(jobs, Add(job)) == if i < |jobs| then jobs[..i] + [job] + jobs[i + 1..] else jobs + [job]
  {
  }

  /**
   Re-adding a job is not guarded: it lowers progress exactly when the incoming record is lower,
   whatever its status.
   */
  lemma AddOverwritesProgress(jobs: seq<Job>, job: Job, i: nat)
    requires UniqueIds(jobs) && i < |jobs|
    ensures |Added(jobs, job)| >= |jobs|
    ensures Added(jobs, job)[i].progress < jobs[i].progress
       <==> jobs[i].id == job.id && job.progress < jobs[i].progress
  {
  }
}
