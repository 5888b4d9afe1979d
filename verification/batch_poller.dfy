/**
 The batch polling hook (gui/src/hooks/useBatchJobs.ts) as a transition system: its refs,
 the two flags it shows, the job store, and the asynchronous work it has left outstanding.

 One event is one run of JavaScript to completion: an effect or its cleanup, a settled
 request, a `.then` callback, a timer, a microtask, or an action of the interface.
 */
module BatchPoller {
  import opened Wrappers
  import opened BatchStore

  const NORMAL_INTERVAL_MS := 1_000
  const INITIAL_BACKOFF_MS := 1_000
  const MAX_BACKOFF_MS := 10_000
  const RECONNECTING_THRESHOLD := 2

  /** A row of a progress reply, its status still unchecked. */
  datatype Row = Row(id: string, project: string, status: string, progress: real, error: Option<string>)

  /** How a request settles: rows, or a rejected fetch, a bad HTTP status, or an unreadable body. */
  datatype Outcome = Rows(rows: seq<Row>) | Failure

  datatype Timer = Timer(batch: string, delay: nat)

  /** Everything that has changed the store, oldest first. */
  datatype LogEntry = Interface(op: Op) | Polled(row: Row)

  /** `errorCountRef` and the two flags shown. */
  datatype Errors = Errors(count: nat, hasError: bool, isReconnecting: bool)

  /** `updateQueueRef`, `flushScheduledRef`, the flush microtasks queued; history: every row accepted. */
  datatype Inbox = Inbox(queue: seq<Row>, flushScheduled: bool, microtasks: nat, accepted: seq<Row>)

  /** `timerRef`, and the timers armed in the runtime. */
  datatype Timers = Timers(ref: Option<nat>, armed: map<nat, Timer>, next: nat)

  /** `pollingRef`, the requests in flight, and the `.then` callbacks ready to run, by batch. */
  datatype Net = Net(polling: bool, requests: seq<string>, continuations: seq<string>)

  /** `cancelledRef`, `activeBatchIdRef`, and the batch whose effect is mounted. */
  datatype Life = Life(cancelled: bool, active: Option<string>, mounted: Option<string>)

  /** The job store; history: everything that has changed it. */
  datatype Data = Data(jobs: seq<Job>, log: seq<LogEntry>)

  datatype State = State(errors: Errors, inbox: Inbox, timers: Timers, net: Net, life: Life, data: Data)

  const NO_ERRORS := Errors(0, false, false)

  const INITIAL: State :=
    State(NO_ERRORS, Inbox([], false, 0, []), Timers(None, map[], 0), Net(false, [], []),
          Life(false, None, None), Data([], []))

  // ---------- Pure helpers of the hook ----------

  function CoerceStatus(raw: string): Status {
    if raw == "queued" then Queued
    else if raw == "running" then Running
    else if raw == "completed" then Completed
    else if raw == "failed" then Failed
    else if raw == "cancelled" then Cancelled
    else Queued
  }

  function Pow2(n: nat): nat {
    if n == 0 then 1 else 2 * Pow2(n - 1)
  }

  function ComputeBackoff(errors: nat): nat {
    if errors == 0 then NORMAL_INTERVAL_MS
    else
      var delay := INITIAL_BACKOFF_MS * Pow2(errors - 1);
      if delay < MAX_BACKOFF_MS then delay else MAX_BACKOFF_MS
  }

  function PatchOf(row: Row): Patch {
    Patch(row.id, Some(CoerceStatus(row.status)), Some(row.progress), Some(row.error))
  }

  predicate AllJobsTerminal(jobs: seq<Job>, batch: string) {
    && (exists i :: 0 <= i < |jobs| && jobs[i].batch == batch)
    && (forall i :: 0 <= i < |jobs| && jobs[i].batch == batch ==> jobs[i].status in TERMINAL_STATUSES)
  }

  function ApplyRows(jobs: seq<Job>, rows: seq<Row>): seq<Job> {
    if rows == [] then jobs
    else Updated(ApplyRows(jobs, rows[..|rows| - 1]), PatchOf(rows[|rows| - 1]))
  }

  function PolledEntries(rows: seq<Row>): (l: seq<LogEntry>)
    ensures |l| == |rows|
  {
    if rows == [] then [] else PolledEntries(rows[..|rows| - 1]) + [Polled(rows[|rows| - 1])]
  }

  function Without<T>(s: seq<T>, i: nat): seq<T>
    requires i < |s|
  {
    s[..i] + s[i + 1..]
  }

  // ---------- Steps ----------

  datatype Event =
    | Mount(batch: string)
    | Unmount
    | Settle(request: nat, outcome: Outcome)
    | Continue(continuation: nat)
    | Fire(timerId: nat)
    | Flush
    | Refresh
    | Touch(op: Op)

  predicate Enabled(s: State, e: Event) {
    match e
    case Mount(_) => s.life.mounted.None?
    case Unmount => s.life.mounted.Some?
    case Settle(i, _) => i < |s.net.requests|
    case Continue(i) => i < |s.net.continuations|
    case Fire(t) => t in s.timers.armed
    case Flush => s.inbox.microtasks > 0
    case Refresh => true
    case Touch(_) => true
  }

  /** Start of `pollOnce`, up to its `await`; when it returns at once its `.then` is ready. */
  function PollStarted(n: Net, cancelled: bool, batch: string): Net {
    if cancelled || n.polling then n.(continuations := n.continuations + [batch])
    else n.(polling := true, requests := n.requests + [batch])
  }

  /** End of `pollOnce`: the request is over and its `.then` is ready. */
  function PollEnded(n: Net, i: nat): Net
    requires i < |n.requests|
  {
    Net(false, Without(n.requests, i), n.continuations + [n.requests[i]])
  }

  function RowsQueued(b: Inbox, rows: seq<Row>): Inbox {
    if rows == [] then b
    else Inbox(b.queue + rows, true, if b.flushScheduled then b.microtasks else b.microtasks + 1, b.accepted + rows)
  }

  function ErrorCounted(e: Errors): Errors {
    Errors(e.count + 1, true, e.isReconnecting || e.count + 1 >= RECONNECTING_THRESHOLD)
  }

  function Disarmed(t: Timers): map<nat, Timer> {
    if t.ref.Some? then t.armed - {t.ref.value} else t.armed
  }

  function Scheduled(t: Timers, batch: string, delay: nat): Timers {
    Timers(Some(t.next), Disarmed(t)[t.next := Timer(batch, delay)], t.next + 1)
  }

  function Heard(s: State, outcome: Outcome): State {
    match outcome
    case Rows(rows) => s.(inbox := RowsQueued(s.inbox, rows), errors := NO_ERRORS)
    case Failure => s.(errors := ErrorCounted(s.errors))
  }

  /** Rest of `pollOnce` after its `await`. */
  function Settled(s: State, i: nat, outcome: Outcome): State
    requires i < |s.net.requests|
  {
    var heard := if s.life.cancelled || s.life.active != Some(s.net.requests[i]) then s else Heard(s, outcome);
    heard.(net := PollEnded(s.net, i))
  }

  function Continued(s: State, i: nat): State
    requires i < |s.net.continuations|
  {
    var batch := s.net.continuations[i];
    var r := s.(net := s.net.(continuations := Without(s.net.continuations, i)));
    if s.life.cancelled || AllJobsTerminal(s.data.jobs, batch) then r
    else r.(timers := Scheduled(s.timers, batch, ComputeBackoff(s.errors.count)))
  }

  function Fired(s: State, t: nat): State
    requires t in s.timers.armed
  {
    var batch := s.timers.armed[t].batch;
    var r := s.(timers := s.timers.(armed := s.timers.armed - {t}));
    if s.life.cancelled || AllJobsTerminal(s.data.jobs, batch) then r
    else r.(net := PollStarted(s.net, s.life.cancelled, batch))
  }

  function Flushed(s: State): State
    requires s.inbox.microtasks > 0
  {
    s.(inbox := Inbox([], false, s.inbox.microtasks - 1, s.inbox.accepted),
       data := Data(ApplyRows(s.data.jobs, s.inbox.queue), s.data.log + PolledEntries(s.inbox.queue)))
  }

  function Mounted(s: State, batch: string): State {
    s.(life := Life(false, Some(batch), Some(batch)), errors := NO_ERRORS, net := PollStarted(s.net, false, batch))
  }

  function Unmounted(s: State): State {
    s.(life := Life(true, s.life.active, None), timers := Timers(None, Disarmed(s.timers), s.timers.next))
  }

  function Touched(s: State, op: Op): State {
    s.(data := Data(Apply(s.data.jobs, op), s.data.log + [Interface(op)]))
  }

  /** One event; an event that is not enabled does not happen. */
  function Step(s: State, e: Event): State {
    if !Enabled(s, e) then s
    else
      match e
      case Mount(batch) => Mounted(s, batch)
      case Unmount => Unmounted(s)
      case Settle(i, outcome) => Settled(s, i, outcome)
      case Continue(i) => Continued(s, i)
      case Fire(t) => Fired(s, t)
      case Flush => Flushed(s)
      case Refresh => s.(errors := NO_ERRORS)
      case Touch(op) => Touched(s, op)
  }

  function Run(es: seq<Event>): State {
    if es == [] then INITIAL else Step(Run(es[..|es| - 1]), es[|es| - 1])
  }

  // ---------- The hook ----------

  /** The hook's refs and flags, with the runtime's outstanding work beside them. */
  class Hook {
    const store: Store
    var errorCountRef: nat
    var updateQueueRef: seq<Row>
    var flushScheduledRef: bool
    var timerRef: Option<nat>
    var pollingRef: bool
    var cancelledRef: bool
    var activeBatchIdRef: Option<string>
    var hasError: bool
    var isReconnecting: bool
    var requests: seq<string>
    var continuations: seq<string>
    var armed: map<nat, Timer>
    var microtasks: nat
    var nextTimer: nat
    var mounted: Option<string>
    ghost var accepted: seq<Row>
    ghost var log: seq<LogEntry>

    ghost function View(): State
      reads this, store
    {
      State(Errors(errorCountRef, hasError, isReconnecting),
            Inbox(updateQueueRef, flushScheduledRef, microtasks, accepted),
            Timers(timerRef, armed, nextTimer),
            Net(pollingRef, requests, continuations),
            Life(cancelledRef, activeBatchIdRef, mounted),
            Data(store.jobs, log))
    }

    constructor ()
      ensures View() == INITIAL && fresh(store)
    {
      store := new Store();
      errorCountRef, updateQueueRef, flushScheduledRef, timerRef := 0, [], false, None;
      pollingRef, cancelledRef, activeBatchIdRef := false, false, None;
      hasError, isReconnecting := false, false;
      requests, continuations, armed, microtasks, nextTimer, mounted := [], [], map[], 0, 0, None;
      accepted, log := [], [];
    }

    method FlushQueue()
      requires microtasks > 0
      modifies this, store
      ensures View() == Step(old(View()), Flush)
    {
      microtasks := microtasks - 1;
      flushScheduledRef := false;
      var batch := updateQueueRef;
      updateQueueRef := [];
      if |batch| == 0 {
        assert batch == [] && log + PolledEntries(batch) == log;
        return;
      }
      UpdateAll(batch);
      log := log + PolledEntries(batch);
    }

    method UpdateAll(batch: seq<Row>)
      modifies store
      ensures store.jobs == ApplyRows(old(store.jobs), batch)
    {
      for i := 0 to |batch|
        invariant store.jobs == ApplyRows(old(store.jobs), batch[..i])
      {
        assert batch[..i + 1][..i] == batch[..i];
        store.UpdateJob(PatchOf(batch[i]));
      }
      assert batch[..|batch|] == batch;
    }

    method QueueUpdates(jobs: seq<Row>)
      modifies this
      ensures View() == old(View()).(inbox := RowsQueued(old(View()).inbox, jobs))
    {
      if |jobs| == 0 {
        return;
      }
      updateQueueRef := updateQueueRef + jobs;
      accepted := accepted + jobs;
      if !flushScheduledRef {
        flushScheduledRef := true;
        microtasks := microtasks + 1;
      }
    }

    method ComputeAllJobsTerminal(batch: string) returns (b: bool)
      ensures b == AllJobsTerminal(store.jobs, batch)
    {
      var found := false;
      for i := 0 to |store.jobs|
        invariant found <==> exists j :: 0 <= j < i && store.jobs[j].batch == batch
        invariant forall j :: 0 <= j < i && store.jobs[j].batch == batch ==> store.jobs[j].status in TERMINAL_STATUSES
      {
        if store.jobs[i].batch == batch {
          found := true;
          if store.jobs[i].status !in TERMINAL_STATUSES {
            return false;
          }
        }
      }
      return found;
    }

    method PollOnce(batch: string)
      modifies this
      ensures View() == old(View()).(net := PollStarted(old(View()).net, old(cancelledRef), batch))
    {
      if cancelledRef || pollingRef {
        continuations := continuations + [batch];
        return;
      }
      pollingRef := true;
      requests := requests + [batch];
    }

    method HearReply(outcome: Outcome)
      modifies this
      ensures View() == Heard(old(View()), outcome)
    {
      match outcome
      case Rows(rows) =>
        QueueUpdates(rows);
        ClearErrors();
      case Failure =>
        errorCountRef := errorCountRef + 1;
        hasError := true;
        if errorCountRef >= RECONNECTING_THRESHOLD {
          isReconnecting := true;
        }
    }

    method SettleRequest(i: nat, outcome: Outcome)
      requires i < |requests|
      modifies this
      ensures View() == Step(old(View()), Settle(i, outcome))
    {
      var batch := requests[i];
      if !cancelledRef && activeBatchIdRef == Some(batch) {
        HearReply(outcome);
      }
      pollingRef := false;
      requests := requests[..i] + requests[i + 1..];
      continuations := continuations + [batch];
    }

    method Schedule(batch: string, delay: nat)
      modifies this
      ensures View() == old(View()).(timers := Scheduled(old(View()).timers, batch, delay))
    {
      if timerRef.Some? {
        armed := armed - {timerRef.value};
      }
      timerRef := Some(nextTimer);
      armed := armed[nextTimer := Timer(batch, delay)];
      nextTimer := nextTimer + 1;
    }

    method RunContinuation(i: nat)
      requires i < |continuations|
      modifies this
      ensures View() == Step(old(View()), Continue(i))
    {
      var batch := continuations[i];
      continuations := continuations[..i] + continuations[i + 1..];
      if cancelledRef {
        return;
      }
      var done := ComputeAllJobsTerminal(batch);
      if !done {
        Schedule(batch, ComputeBackoff(errorCountRef));
      }
    }

    method FireTimer(t: nat)
      requires t in armed
      modifies this
      ensures View() == Step(old(View()), Fire(t))
    {
      var batch := armed[t].batch;
      armed := armed - {t};
      if cancelledRef {
        return;
      }
      var done := ComputeAllJobsTerminal(batch);
      if !done {
        PollOnce(batch);
      }
    }

    method MountEffect(batch: string)
      requires mounted.None?
      modifies this
      ensures View() == Step(old(View()), Mount(batch))
    {
      mounted := Some(batch);
      activeBatchIdRef := Some(batch);
      cancelledRef := false;
      ClearErrors();
      PollOnce(batch);
    }

    method Cleanup()
      requires mounted.Some?
      modifies this
      ensures View() == Step(old(View()), Unmount)
    {
      mounted := None;
      cancelledRef := true;
      if timerRef.Some? {
        armed := armed - {timerRef.value};
        timerRef := None;
      }
    }

    method ClearErrors()
      modifies this
      ensures View() == Step(old(View()), Refresh)
    {
      errorCountRef := 0;
      hasError := false;
      isReconnecting := false;
    }
  }
}
