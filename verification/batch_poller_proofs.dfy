/** What every run of the polling hook keeps, and where it does not keep polling. */
module BatchPollerProofs {
  import opened Wrappers
  import opened BatchStore
  import opened BatchPoller

  // ---------- History ----------

  function ApplyEntry(jobs: seq<Job>, entry: LogEntry): seq<Job> {
    match entry
    case Interface(op) => Apply(jobs, op)
    case Polled(row) => Updated(jobs, PatchOf(row))
  }

  /** The store rebuilt from its history. */
  function Replay(log: seq<LogEntry>): seq<Job> {
    if log == [] then [] else ApplyEntry(Replay(log[..|log| - 1]), log[|log| - 1])
  }

  /** The poll rows that have reached the store, in order. */
  function RowsIn(log: seq<LogEntry>): seq<Row> {
    if log == [] then []
    else RowsIn(log[..|log| - 1]) + (if log[|log| - 1].Polled? then [log[|log| - 1].row] else [])
  }

  lemma EntryReplays(log: seq<LogEntry>, entry: LogEntry)
    ensures Replay(log + [entry]) == ApplyEntry(Replay(log), entry)
    ensures RowsIn(log + [entry]) == RowsIn(log) + if entry.Polled? then [entry.row] else []
  {
    assert (log + [entry])[..|log|] == log;
  }

  lemma AppendAssociates<T>(a: seq<T>, b: seq<T>, c: seq<T>)
    ensures a + (b + c) == a + b + c
  {
  }

  /** Flushing a queue extends the history by exactly its rows. */
  lemma {:induction false} FlushReplays(log: seq<LogEntry>, rows: seq<Row>)
    ensures Replay(log + PolledEntries(rows)) == ApplyRows(Replay(log), rows)
    ensures RowsIn(log + PolledEntries(rows)) == RowsIn(log) + rows
  {
    if rows == [] {
      assert log + PolledEntries(rows) == log;
    } else {
      var init, last := rows[..|rows| - 1], rows[|rows| - 1];
      FlushReplays(log, init);
      AppendAssociates(log, PolledEntries(init), [Polled(last)]);
      EntryReplays(log + PolledEntries(init), Polled(last));
      AppendAssociates(RowsIn(log), init, [last]);
      assert init + [last] == rows;
    }
  }

  // ---------- The invariant ----------

  /** A request is in flight exactly when `pollingRef` says so, and never two. */
  predicate OneRequest(n: Net) {
    |n.requests| == (if n.polling then 1 else 0)
  }

  /** Only the timer held in `timerRef` can be armed. */
  predicate OneTimer(t: Timers) {
    && (forall id :: id in t.armed ==> t.ref == Some(id))
    && (t.ref.Some? ==> t.ref.value < t.next)
  }

  /** One flush is queued exactly when scheduled, and a non-empty queue has one coming. */
  predicate OneFlush(b: Inbox) {
    && b.microtasks == (if b.flushScheduled then 1 else 0)
    && (b.queue != [] ==> b.flushScheduled)
  }

  predicate FlagsMatchErrors(e: Errors) {
    && (e.hasError <==> e.count >= 1)
    && (e.isReconnecting <==> e.count >= 2)
  }

  /** Nothing is live while unmounted; while mounted, the active batch is the mounted one. */
  predicate LiveOnlyWhenMounted(s: State) {
    && (s.life.mounted.Some? ==> !s.life.cancelled && s.life.active == s.life.mounted)
    && (s.life.mounted.None? ==>
        s.timers.armed == map[] && (s.life.cancelled || (s.net.requests == [] && s.net.continuations == [])))
  }

  /** Accepted rows are those already in the store, in order, followed by those queued. */
  predicate RowsConserved(b: Inbox, d: Data) {
    && b.accepted == RowsIn(d.log) + b.queue
    && d.jobs == Replay(d.log)
  }

  ghost predicate Inv(s: State) {
    && OneRequest(s.net)
    && OneTimer(s.timers)
    && OneFlush(s.inbox)
    && FlagsMatchErrors(s.errors)
    && LiveOnlyWhenMounted(s)
    && RowsConserved(s.inbox, s.data)
    && UniqueIds(s.data.jobs)
  }

  lemma NetStep(s: State, e: Event)
    requires OneRequest(s.net)
    ensures OneRequest(Step(s, e).net)
  {
  }

  lemma DisarmedIsEmpty(t: Timers)
    requires OneTimer(t)
    ensures Disarmed(t) == map[]
  {
  }

  lemma TimersStep(s: State, e: Event)
    requires OneTimer(s.timers)
    ensures OneTimer(Step(s, e).timers)
  {
    DisarmedIsEmpty(s.timers);
  }

  lemma LiveStep(s: State, e: Event)
    requires OneTimer(s.timers) && LiveOnlyWhenMounted(s)
    ensures LiveOnlyWhenMounted(Step(s, e))
  {
    DisarmedIsEmpty(s.timers);
  }

  lemma InboxStep(s: State, e: Event)
    requires OneFlush(s.inbox)
    ensures OneFlush(Step(s, e).inbox)
  {
  }

  lemma ErrorsStep(s: State, e: Event)
    requires FlagsMatchErrors(s.errors)
    ensures FlagsMatchErrors(Step(s, e).errors)
  {
  }

  /** Only a flush or an interface action changes the store. */
  lemma DataFrame(s: State, e: Event)
    requires !(e.Flush? && Enabled(s, e)) && !e.Touch?
    ensures Step(s, e).data == s.data
  {
  }

  /** Only a settled request or a flush moves rows in or out of the inbox. */
  lemma InboxFrame(s: State, e: Event)
    requires !e.Settle? && !e.Flush?
    ensures Step(s, e).inbox == s.inbox
  {
  }

  lemma QueuedRowsConserved(b: Inbox, d: Data, rows: seq<Row>)
    requires RowsConserved(b, d)
    ensures RowsConserved(RowsQueued(b, rows), d)
  {
    AppendAssociates(RowsIn(d.log), b.queue, rows);
  }

  lemma FlushConserves(s: State)
    requires RowsConserved(s.inbox, s.data) && s.inbox.microtasks > 0
    ensures RowsConserved(Flushed(s).inbox, Flushed(s).data)
  {
    FlushReplays(s.data.log, s.inbox.queue);
    assert RowsIn(s.data.log) + s.inbox.queue + [] == RowsIn(s.data.log) + s.inbox.queue;
  }

  lemma RowsStep(s: State, e: Event)
    requires RowsConserved(s.inbox, s.data)
    ensures RowsConserved(Step(s, e).inbox, Step(s, e).data)
  {
    if !Enabled(s, e) {
    } else if e.Flush? {
      FlushConserves(s);
    } else if e.Settle? {
      DataFrame(s, e);
      if e.outcome.Rows? {
        QueuedRowsConserved(s.inbox, s.data, e.outcome.rows);
      }
    } else if e.Touch? {
      EntryReplays(s.data.log, Interface(e.op));
    } else {
      InboxFrame(s, e);
      DataFrame(s, e);
    }
  }

  lemma {:induction false} ApplyRowsKeepsIds(jobs: seq<Job>, rows: seq<Row>)
    requires UniqueIds(jobs)
    ensures UniqueIds(ApplyRows(jobs, rows))
    ensures |ApplyRows(jobs, rows)| == |jobs|
    ensures forall i :: 0 <= i < |jobs| ==> ApplyRows(jobs, rows)[i].id == jobs[i].id
  {
    if rows != [] {
      ApplyRowsKeepsIds(jobs, rows[..|rows| - 1]);
      ApplyKeepsIdsUnique(ApplyRows(jobs, rows[..|rows| - 1]), Update(PatchOf(rows[|rows| - 1])));
    }
  }

  lemma IdsStep(s: State, e: Event)
    requires UniqueIds(s.data.jobs)
    ensures UniqueIds(Step(s, e).data.jobs)
  {
    if e.Flush? && Enabled(s, e) {
      ApplyRowsKeepsIds(s.data.jobs, s.inbox.queue);
    } else if e.Touch? {
      ApplyKeepsIdsUnique(s.data.jobs, e.op);
    } else {
      DataFrame(s, e);
    }
  }

  /**
   Over every run: at most one request and one timer outstanding, at most one flush queued,
   rows conserved and in order, flags in step with the error count.
   */
  lemma {:induction false} RunKeepsInvariant(es: seq<Event>)
    ensures Inv(Run(es))
    ensures |Run(es).net.requests| <= 1
    ensures forall t, u :: t in Run(es).timers.armed && u in Run(es).timers.armed ==> t == u
  {
    if es != [] {
      var s, e := Run(es[..|es| - 1]), es[|es| - 1];
      RunKeepsInvariant(es[..|es| - 1]);
      NetStep(s, e);
      TimersStep(s, e);
      LiveStep(s, e);
      InboxStep(s, e);
      ErrorsStep(s, e);
      RowsStep(s, e);
      IdsStep(s, e);
    }
  }

  // ---------- Replies ----------

  /** A reply is heard exactly when its batch is the one mounted now; otherwise rows and errors stand. */
  lemma ReplyHeardWhenMounted(es: seq<Event>, i: nat, outcome: Outcome)
    requires i < |Run(es).net.requests|
    ensures var s := Run(es);
            var r := Step(s, Settle(i, outcome));
            if s.life.mounted == Some(s.net.requests[i]) then
              if outcome.Rows? then
                && r.inbox.queue == s.inbox.queue + outcome.rows
                && r.inbox.accepted == s.inbox.accepted + outcome.rows
                && r.errors == NO_ERRORS
              else
                && r.inbox == s.inbox
                && r.errors.count == s.errors.count + 1 && r.errors.hasError
            else r.inbox == s.inbox && r.errors == s.errors
  {
    RunKeepsInvariant(es);
  }

  // ---------- After unmounting ----------

  predicate NoMount(es: seq<Event>) {
    forall i :: 0 <= i < |es| ==> !es[i].Mount?
  }

  predicate Quiet(s: State, r: State) {
    && r.life.mounted.None? && r.timers.armed == map[]
    && (r.net.requests == s.net.requests || r.net.requests == [])
    && r.inbox.accepted == s.inbox.accepted
    && (r.errors == s.errors || r.errors == NO_ERRORS)
  }

  lemma QuietStep(s: State, e: Event)
    requires OneRequest(s.net) && OneTimer(s.timers) && LiveOnlyWhenMounted(s) && s.life.mounted.None? && !e.Mount?
    ensures Quiet(s, Step(s, e))
  {
  }

  /**
   From an unmount until the next mount no timer is armed, no request is sent, no row is
   accepted and no error is counted, whatever was still outstanding.
   */
  lemma {:induction false} UnmountIsQuiet(es: seq<Event>, more: seq<Event>)
    requires Run(es).life.mounted.None? && NoMount(more)
    ensures Quiet(Run(es), Run(es + more))
  {
    RunKeepsInvariant(es);
    if more == [] {
      assert es + more == es;
    } else {
      var init, e := more[..|more| - 1], more[|more| - 1];
      UnmountIsQuiet(es, init);
      RunExtends(es, more);
      RunKeepsInvariant(es + init);
      QuietStep(Run(es + init), e);
    }
  }

  lemma RunExtends(es: seq<Event>, more: seq<Event>)
    requires more != []
    ensures Run(es + more) == Step(Run(es + more[..|more| - 1]), more[|more| - 1])
  {
    assert (es + more)[..|es + more| - 1] == es + more[..|more| - 1];
  }

  // ---------- Progress ----------

  function StatusName(s: Status): string {
    match s
    case Queued => "queued"
    case Running => "running"
    case Completed => "completed"
    case Failed => "failed"
    case Cancelled => "cancelled"
  }

  /** Each status is read from its own spelling and, `Queued` apart, from no other. */
  lemma CoercionReadsNames(raw: string, s: Status)
    ensures CoerceStatus(StatusName(s)) == s
    ensures CoerceStatus(raw) == s ==> raw == StatusName(s) || s == Queued
    ensures CoerceStatus(raw) == Queued <==> forall t :: t != Queued ==> raw != StatusName(t)
  {
    if forall t :: t != Queued ==> raw != StatusName(t) {
      assert raw != StatusName(Running) && raw != StatusName(Completed);
      assert raw != StatusName(Failed) && raw != StatusName(Cancelled);
    }
  }

  /** No row from `from` on reports job `id` queued, or with an unknown status. */
  predicate NeverRequeued(rows: seq<Row>, from: nat, id: string) {
    forall k :: from <= k < |rows| && rows[k].id == id ==> CoerceStatus(rows[k].status) != Queued
  }

  /** Rows that never requeue a job leave its progress at least where it was and where each of them put it. */
  lemma {:induction false} RowsNeverRegress(jobs: seq<Job>, rows: seq<Row>, i: nat)
    requires UniqueIds(jobs) && i < |jobs| && NeverRequeued(rows, 0, jobs[i].id)
    ensures |ApplyRows(jobs, rows)| == |jobs|
    ensures ApplyRows(jobs, rows)[i].progress >= jobs[i].progress
    ensures forall k :: 0 <= k < |rows| && rows[k].id == jobs[i].id
                        ==> ApplyRows(jobs, rows)[i].progress >= rows[k].progress
  {
    if rows != [] {
      var init := rows[..|rows| - 1];
      assert NeverRequeued(init, 0, jobs[i].id);
      RowsNeverRegress(jobs, init, i);
      ApplyRowsKeepsIds(jobs, init);
      UpdateIsLocalAndMonotone(ApplyRows(jobs, init), PatchOf(rows[|rows| - 1]), i);
    }
  }

  predicate NoTouch(es: seq<Event>) {
    forall i :: 0 <= i < |es| ==> !es[i].Touch?
  }

  lemma AcceptedGrows(s: State, e: Event)
    ensures s.inbox.accepted <= Step(s, e).inbox.accepted
  {
  }

  predicate NoRegress(d: Data, d': Data, i: nat)
    requires i < |d.jobs|
  {
    && |RowsIn(d'.log)| >= |RowsIn(d.log)| && |d'.jobs| == |d.jobs|
    && d'.jobs[i].id == d.jobs[i].id && d'.jobs[i].progress >= d.jobs[i].progress
  }

  lemma QueueIsTail(stored: seq<Row>, queue: seq<Row>, id: string)
    requires NeverRequeued(stored + queue, |stored|, id)
    ensures NeverRequeued(queue, 0, id)
  {
    assert forall k :: 0 <= k < |queue| ==> queue[k] == (stored + queue)[|stored| + k];
  }

  lemma FlushNeverRegresses(s: State, i: nat)
    requires UniqueIds(s.data.jobs) && RowsConserved(s.inbox, s.data) && i < |s.data.jobs| && s.inbox.microtasks > 0
    requires NeverRequeued(s.inbox.accepted, |RowsIn(s.data.log)|, s.data.jobs[i].id)
    ensures NoRegress(s.data, Flushed(s).data, i)
  {
    FlushReplays(s.data.log, s.inbox.queue);
    QueueIsTail(RowsIn(s.data.log), s.inbox.queue, s.data.jobs[i].id);
    RowsNeverRegress(s.data.jobs, s.inbox.queue, i);
    ApplyRowsKeepsIds(s.data.jobs, s.inbox.queue);
  }

  lemma StepNeverRegresses(s: State, e: Event, i: nat)
    requires UniqueIds(s.data.jobs) && RowsConserved(s.inbox, s.data) && !e.Touch? && i < |s.data.jobs|
    requires NeverRequeued(s.inbox.accepted, |RowsIn(s.data.log)|, s.data.jobs[i].id)
    ensures NoRegress(s.data, Step(s, e).data, i)
  {
    if e.Flush? && Enabled(s, e) {
      FlushNeverRegresses(s, i);
    } else {
      DataFrame(s, e);
    }
  }

  lemma NeverRequeuedShrinks(rows: seq<Row>, prefix: seq<Row>, from: nat, later: nat, id: string)
    requires prefix <= rows && from <= later && NeverRequeued(rows, from, id)
    ensures NeverRequeued(prefix, later, id)
  {
    assert forall k :: 0 <= k < |prefix| ==> prefix[k] == rows[k];
  }

  /**
   Across any stretch of a run without interface actions, a job's progress falls only if some row
   not yet in the store at its start reports that job queued, or with an unknown status.
   */
  lemma {:induction false} PollingNeverRegresses(es: seq<Event>, more: seq<Event>, i: nat)
    requires NoTouch(more) && i < |Run(es).data.jobs|
    requires NeverRequeued(Run(es + more).inbox.accepted, |RowsIn(Run(es).data.log)|, Run(es).data.jobs[i].id)
    ensures NoRegress(Run(es).data, Run(es + more).data, i)
  {
    var start := |RowsIn(Run(es).data.log)|;
    var id := Run(es).data.jobs[i].id;
    if more == [] {
      assert es + more == es;
    } else {
      var init, e := more[..|more| - 1], more[|more| - 1];
      var s := Run(es + init);
      RunExtends(es, more);
      AcceptedGrows(s, e);
      NeverRequeuedShrinks(Run(es + more).inbox.accepted, s.inbox.accepted, start, start, id);
      PollingNeverRegresses(es, init, i);
      RunKeepsInvariant(es + init);
      NeverRequeuedShrinks(s.inbox.accepted, s.inbox.accepted, start, |RowsIn(s.data.log)|, id);
      StepNeverRegresses(s, e, i);
    }
  }

  // ---------- Backoff ----------

  lemma {:induction false} Pow2Grows(n: nat)
    ensures Pow2(n) >= 1 && (n >= 4 ==> Pow2(n) >= 16)
  {
    if n > 0 {
      Pow2Grows(n - 1);
    }
  }

  /** One second, then doubling from the second error on, then the cap for good. */
  lemma BackoffSchedule(errors: nat)
    ensures ComputeBackoff(0) == ComputeBackoff(1) == 1_000
    ensures 1_000 <= ComputeBackoff(errors) <= ComputeBackoff(errors + 1) <= 10_000
    ensures ComputeBackoff(errors) == 10_000 <==> errors >= 5
    ensures 1 <= errors < 4 ==> ComputeBackoff(errors + 1) == 2 * ComputeBackoff(errors)
  {
    if errors > 0 {
      Pow2Grows(errors - 1);
    }
    assert Pow2(1) == 2 && Pow2(2) == 4 && Pow2(3) == 8;
  }

  // ---------- Requests, timers and errors over a run ----------

  /** The batch has a job, and none of its jobs is queued or running. */
  predicate Finished(jobs: seq<Job>, batch: string) {
    && (exists i :: 0 <= i < |jobs| && jobs[i].batch == batch)
    && (forall i :: 0 <= i < |jobs| && jobs[i].batch == batch ==> !jobs[i].status.Queued? && !jobs[i].status.Running?)
  }

  lemma TerminalIsFinished(jobs: seq<Job>, batch: string)
    ensures AllJobsTerminal(jobs, batch) <==> Finished(jobs, batch)
  {
  }

  /** A poll for `batch`: a request, or a `.then` ready at once if a request is already out. */
  predicate Polls(before: Net, after: Net, batch: string) {
    if before.requests == [] then after == Net(true, [batch], before.continuations)
    else after == before.(continuations := before.continuations + [batch])
  }

  /** A fired timer is gone; its batch is polled unless nothing is mounted or the batch is finished. */
  lemma FireSends(es: seq<Event>, t: nat)
    requires t in Run(es).timers.armed
    ensures var s, r := Run(es), Step(Run(es), Fire(t));
            var batch := s.timers.armed[t].batch;
            && r == s.(timers := r.timers, net := r.net) && r.timers.armed == map[]
            && if Finished(s.data.jobs, batch) then r.net == s.net
               else s.life.mounted.Some? && Polls(s.net, r.net, batch)
  {
    RunKeepsInvariant(es);
    TerminalIsFinished(Run(es).data.jobs, Run(es).timers.armed[t].batch);
  }

  /**
   A `.then` that runs takes its place in the queue away and, unless nothing is mounted or its batch is
   finished, leaves one timer armed: for its batch, with the delay the consecutive errors call for.
   */
  lemma ContinueArms(es: seq<Event>, i: nat)
    requires i < |Run(es).net.continuations|
    ensures var s, r := Run(es), Step(Run(es), Continue(i));
            var queue, batch := s.net.continuations, s.net.continuations[i];
            && r == s.(timers := r.timers, net := r.net)
            && r.net == s.net.(continuations := queue[..i] + queue[i + 1..])
            && if s.life.mounted.None? || Finished(s.data.jobs, batch) then r.timers == s.timers
               else exists t :: r.timers.armed == map[t := Timer(batch, ComputeBackoff(s.errors.count))]
  {
    var s := Run(es);
    RunKeepsInvariant(es);
    DisarmedIsEmpty(s.timers);
    TerminalIsFinished(s.data.jobs, s.net.continuations[i]);
    if s.life.mounted.Some? && !Finished(s.data.jobs, s.net.continuations[i]) {
      var armed := Step(s, Continue(i)).timers.armed;
      assert armed == map[s.timers.next := Timer(s.net.continuations[i], ComputeBackoff(s.errors.count))];
    }
  }

  /** Mounting a batch makes it the active one, clears the errors and polls it at once. */
  lemma MountStarts(es: seq<Event>, batch: string)
    requires Run(es).life.mounted.None?
    ensures var s, r := Run(es), Step(Run(es), Mount(batch));
            && r == s.(life := Life(false, Some(batch), Some(batch)), errors := Errors(0, false, false), net := r.net)
            && Polls(s.net, r.net, batch)
  {
    RunKeepsInvariant(es);
  }

  /** A settled request is over, whatever it brought, and its `.then` is ready. */
  lemma SettleReleases(es: seq<Event>, i: nat, outcome: Outcome)
    requires i < |Run(es).net.requests|
    ensures var s, r := Run(es), Step(Run(es), Settle(i, outcome));
            && r == s.(net := r.net, inbox := r.inbox, errors := r.errors)
            && r.net == Net(false, [], s.net.continuations + s.net.requests)
  {
    RunKeepsInvariant(es);
  }

  /** Unmounting cancels and disarms; a refresh clears the errors; neither does anything else. */
  lemma UnmountAndRefresh(es: seq<Event>)
    requires Run(es).life.mounted.Some?
    ensures var s, r := Run(es), Step(Run(es), Unmount);
            r == s.(life := Life(true, s.life.active, None), timers := r.timers) && r.timers.armed == map[]
    ensures Step(Run(es), Refresh) == Run(es).(errors := Errors(0, false, false))
  {
    RunKeepsInvariant(es);
    DisarmedIsEmpty(Run(es).timers);
  }

  /** How many failures have been heard since the last mount, refresh or reply heard. */
  function FailuresInARow(es: seq<Event>): nat {
    if es == [] then 0
    else
      var s, before := Run(es[..|es| - 1]), FailuresInARow(es[..|es| - 1]);
      match es[|es| - 1]
      case Mount(_) => if s.life.mounted.None? then 0 else before
      case Refresh => 0
      case Settle(i, outcome) =>
        if i >= |s.net.requests| || s.life.mounted != Some(s.net.requests[i]) then before
        else if outcome.Rows? then 0 else before + 1
      case _ => before
  }

  /** The error count is the number of failures in a row, and the flags tell of one and of two. */
  lemma {:induction false} ErrorsAreFailuresInARow(es: seq<Event>)
    ensures var n := FailuresInARow(es); Run(es).errors == Errors(n, n >= 1, n >= 2)
  {
    if es != [] {
      var init, e := es[..|es| - 1], es[|es| - 1];
      ErrorsAreFailuresInARow(init);
      RunKeepsInvariant(init);
      if e.Settle? && e.request < |Run(init).net.requests| {
        ReplyHeardWhenMounted(init, e.request, e.outcome);
      }
      RunKeepsInvariant(es);
    }
  }

  // ---------- What a flush stores ----------

  /** Row `k` is the last to name the job. */
  predicate LastRowFor(rows: seq<Row>, id: string, k: int) {
    0 <= k < |rows| && rows[k].id == id && forall m :: k < m < |rows| ==> rows[m].id != id
  }

  /** The status a raw string stands for: its own, or queued when it is the name of none. */
  predicate Reads(raw: string, s: Status) {
    raw == StatusName(s) || (s == Queued && forall t :: raw != StatusName(t))
  }

  /** Progress after rows for one job: a row that reports it queued sets it, any other can only raise it. */
  function ProgressAfter(before: real, rows: seq<Row>, id: string): real {
    if rows == [] then before
    else
      var p, row := ProgressAfter(before, rows[..|rows| - 1], id), rows[|rows| - 1];
      if row.id != id then p
      else if row.progress >= p || !(row.status in {"running", "completed", "failed", "cancelled"}) then row.progress
      else p
  }

  lemma RowReads(raw: string)
    ensures Reads(raw, CoerceStatus(raw))
    ensures CoerceStatus(raw) != Queued <==> raw in {"running", "completed", "failed", "cancelled"}
  {
    assert raw != StatusName(Queued) || CoerceStatus(raw) == Queued;
  }

  lemma OneRowStored(jobs: seq<Job>, row: Row, i: nat)
    requires UniqueIds(jobs) && i < |jobs|
    ensures var after := Updated(jobs, PatchOf(row));
            && |after| == |jobs|
            && (jobs[i].id != row.id ==> after[i] == jobs[i])
            && (jobs[i].id == row.id ==>
                  && after[i] == jobs[i].(status := after[i].status, progress := after[i].progress, error := row.error)
                  && Reads(row.status, after[i].status)
                  && after[i].progress == ProgressAfter(jobs[i].progress, [row], row.id))
  {
    UpdateIsLocalAndMonotone(jobs, PatchOf(row), i);
    RowReads(row.status);
    assert [row][..0] == [];
    assert ProgressAfter(jobs[i].progress, [], row.id) == jobs[i].progress;
  }

  /**
   After rows are stored each job has the status and error of the last row that names it, the progress
   its rows lead to, and everything else as it was; a job no row names is untouched.
   */
  lemma {:induction false} StoredFromLastRow(jobs: seq<Job>, rows: seq<Row>, i: nat)
    requires UniqueIds(jobs) && i < |jobs|
    ensures |ApplyRows(jobs, rows)| == |jobs|
    ensures var job, after := jobs[i], ApplyRows(jobs, rows)[i];
            && after == job.(status := after.status, progress := after.progress, error := after.error)
            && after.progress == ProgressAfter(job.progress, rows, job.id)
            && ((forall k :: 0 <= k < |rows| ==> rows[k].id != job.id) ==> after == job)
            && (forall k :: LastRowFor(rows, job.id, k) ==>
                  Reads(rows[k].status, after.status) && after.error == rows[k].error)
  {
    if rows != [] {
      var init, row, id := rows[..|rows| - 1], rows[|rows| - 1], jobs[i].id;
      StoredFromLastRow(jobs, init, i);
      ApplyRowsKeepsIds(jobs, init);
      OneRowStored(ApplyRows(jobs, init), row, i);
      OneMoreRow(ApplyRows(jobs, init)[i].progress, row, id);
      forall k | LastRowFor(rows, id, k)
        ensures if k == |init| then row.id == id else row.id != id && LastRowFor(init, id, k)
      {
      }
    }
  }

  lemma OneMoreRow(p: real, row: Row, id: string)
    ensures ProgressAfter(p, [row], id)
         == if row.id != id then p
            else if row.progress >= p || !(row.status in {"running", "completed", "failed", "cancelled"})
            then row.progress else p
  {
    assert [row][..0] == [];
    assert ProgressAfter(p, [], id) == p;
  }

  // ---------- Does polling go on? ----------

  predicate TimerFor(t: Timers, batch: string) {
    exists id :: id in t.armed && t.armed[id].batch == batch
  }

  /** Some outstanding work will, when its turn comes, poll or reschedule `batch`. */
  predicate Working(s: State, batch: string) {
    batch in s.net.requests || batch in s.net.continuations || TimerFor(s.timers, batch)
  }

  /**
   The one step that strands a mounted, unfinished batch: a `.then` left over from another
   unfinished batch, run while the mounted batch has only its timer.
   */
  predicate Strands(s: State, e: Event, batch: string) {
    && e.Continue?
    && e.continuation < |s.net.continuations|
    && s.net.continuations[e.continuation] != batch
    && !AllJobsTerminal(s.data.jobs, s.net.continuations[e.continuation])
    && batch !in s.net.requests
    && batch !in s.net.continuations
  }

  lemma WithoutKeepsOthers<T>(s: seq<T>, i: nat, x: T)
    requires i < |s| && s[i] != x
    ensures x in Without(s, i) <==> x in s
  {
    if x in s {
      var k :| 0 <= k < |s| && s[k] == x;
      assert Without(s, i)[if k < i then k else k - 1] == x;
    }
  }

  lemma SettlingKeepsWork(s: State, i: nat, outcome: Outcome, batch: string)
    requires i < |s.net.requests| && Working(s, batch)
    ensures Working(Settled(s, i, outcome), batch)
  {
    var r := Settled(s, i, outcome);
    assert r.net == PollEnded(s.net, i) && r.timers == s.timers;
    if s.net.requests[i] != batch {
      WithoutKeepsOthers(s.net.requests, i, batch);
    }
  }

  lemma ContinuingKeepsWorkUnless(s: State, i: nat, batch: string)
    requires i < |s.net.continuations| && OneTimer(s.timers) && !s.life.cancelled
    requires !AllJobsTerminal(s.data.jobs, batch) && Working(s, batch)
    ensures !Working(Continued(s, i), batch) <==> Strands(s, Continue(i), batch)
  {
    var r := Continued(s, i);
    var other := s.net.continuations[i];
    DisarmedIsEmpty(s.timers);
    if other == batch {
      assert s.timers.next in r.timers.armed;
    } else {
      WithoutKeepsOthers(s.net.continuations, i, batch);
      if !AllJobsTerminal(s.data.jobs, other) {
        assert r.timers.armed.Keys == {s.timers.next};
      }
    }
  }

  lemma FiringKeepsWork(s: State, t: nat, batch: string)
    requires t in s.timers.armed && !s.life.cancelled
    requires !AllJobsTerminal(s.data.jobs, batch) && Working(s, batch)
    ensures Working(Fired(s, t), batch)
  {
    if s.timers.armed[t].batch != batch && TimerFor(s.timers, batch) {
      var id :| id in s.timers.armed && s.timers.armed[id].batch == batch;
      assert id in Fired(s, t).timers.armed;
    }
  }

  /** While a batch stays mounted and unfinished, one step loses its polling exactly when it strands it. */
  lemma PollingLostExactlyWhen(es: seq<Event>, e: Event, batch: string)
    requires var s := Run(es);
             s.life.mounted == Some(batch) && !AllJobsTerminal(s.data.jobs, batch) && Working(s, batch)
    requires !e.Unmount?
    ensures !Working(Step(Run(es), e), batch) <==> Strands(Run(es), e, batch)
  {
    RunKeepsInvariant(es);
    var s := Run(es);
    if Enabled(s, e) {
      match e {
        case Settle(i, outcome) =>
          SettlingKeepsWork(s, i, outcome, batch);
        case Continue(i) =>
          ContinuingKeepsWorkUnless(s, i, batch);
        case Fire(t) =>
          FiringKeepsWork(s, t, batch);
        case Flush =>
        case Refresh =>
        case Touch(_) =>
      }
    }
  }

  predicate Stranded(s: State, batch: string) {
    s.life.mounted == Some(batch) && !AllJobsTerminal(s.data.jobs, batch) && !Working(s, batch)
  }

  lemma RunOneMore(es: seq<Event>, e: Event)
    ensures Run(es + [e]) == Step(Run(es), e)
  {
    assert (es + [e])[..|es|] == es;
  }

  /** No mount in the run names `batch`. */
  predicate NeverMounts(es: seq<Event>, batch: string) {
    forall i :: 0 <= i < |es| && es[i].Mount? ==> es[i].batch != batch
  }

  lemma IdleStep(s: State, e: Event, batch: string)
    requires !Working(s, batch) && (e.Mount? ==> e.batch != batch)
    ensures !Working(Step(s, e), batch)
  {
  }

  /** A batch without work gets none until it is mounted again, whatever else happens. */
  lemma {:induction false} IdleUntilMounted(es: seq<Event>, more: seq<Event>, batch: string)
    requires !Working(Run(es), batch) && NeverMounts(more, batch)
    ensures !Working(Run(es + more), batch)
  {
    if more == [] {
      assert es + more == es;
    } else {
      var init, e := more[..|more| - 1], more[|more| - 1];
      IdleUntilMounted(es, init, batch);
      RunExtends(es, more);
      IdleStep(Run(es + init), e, batch);
    }
  }

  /** Stranded now, and without work in every continuation that does not mount the batch again. */
  ghost predicate StrandedForGood(es: seq<Event>, batch: string) {
    && Stranded(Run(es), batch)
    && forall more :: NeverMounts(more, batch) ==> !Working(Run(es + more), batch)
  }

  lemma StrandingLasts(es: seq<Event>, batch: string)
    requires Stranded(Run(es), batch)
    ensures StrandedForGood(es, batch)
  {
    forall more | NeverMounts(more, batch)
      ensures !Working(Run(es + more), batch)
    {
      IdleUntilMounted(es, more, batch);
    }
  }

  /** The stranding happens, for good: switch from `a` to `b` while `a`'s request is in flight. */
  lemma SwitchCanStrand(a: string, b: string)
    requires a != b
    ensures exists es :: StrandedForGood(es, b)
  {
    var es1 := [] + [Mount(a)];
    var es2 := es1 + [Unmount];
    var es3 := es2 + [Mount(b)];
    var es4 := es3 + [Continue(0)];
    var es5 := es4 + [Settle(0, Failure)];
    var es6 := es5 + [Continue(0)];
    RunOneMore([], Mount(a));
    RunOneMore(es1, Unmount);
    RunOneMore(es2, Mount(b));
    assert Run(es3).net == Net(true, [a], [b]);
    RunOneMore(es3, Continue(0));
    assert Run(es4).net == Net(true, [a], []) && Run(es4).timers.armed == map[0 := Timer(b, 1_000)];
    RunOneMore(es4, Settle(0, Failure));
    assert Run(es5).net == Net(false, [], [a]);
    RunOneMore(es5, Continue(0));
    assert Run(es6).net == Net(false, [], []) && Run(es6).timers.armed.Keys == {1};
    StrandingLasts(es6, b);
  }

  // ---------- One batch only ----------

  predicate AllAre(q: seq<string>, batch: string) {
    forall i :: 0 <= i < |q| ==> q[i] == batch
  }

  /** Every mount in the run names `batch`. */
  predicate OnlyBatch(es: seq<Event>, batch: string) {
    forall i :: 0 <= i < |es| && es[i].Mount? ==> es[i].batch == batch
  }

  predicate NetIsFor(n: Net, batch: string) {
    AllAre(n.requests, batch) && AllAre(n.continuations, batch)
  }

  predicate AllWorkIsFor(s: State, batch: string) {
    && NetIsFor(s.net, batch)
    && (forall t :: t in s.timers.armed ==> s.timers.armed[t].batch == batch)
    && (s.life.mounted.Some? ==> s.life.mounted.value == batch)
  }

  lemma NetStaysFor(s: State, e: Event, batch: string)
    requires AllWorkIsFor(s, batch) && (e.Mount? ==> e.batch == batch)
    ensures NetIsFor(Step(s, e).net, batch)
  {
  }

  lemma {:induction false} OneBatchWork(es: seq<Event>, batch: string)
    requires OnlyBatch(es, batch)
    ensures AllWorkIsFor(Run(es), batch)
  {
    if es != [] {
      OneBatchWork(es[..|es| - 1], batch);
      NetStaysFor(Run(es[..|es| - 1]), es[|es| - 1], batch);
    }
  }

  ghost predicate FinishedDuring(es: seq<Event>, batch: string) {
    exists k :: 0 <= k <= |es| && AllJobsTerminal(Run(es[..k]).data.jobs, batch)
  }

  /** If no mount ever names another batch, polling stops only once all jobs were terminal. */
  lemma {:induction false} OneBatchKeepsPolling(es: seq<Event>, batch: string)
    requires OnlyBatch(es, batch) && Run(es).life.mounted.Some?
    ensures Working(Run(es), batch) || FinishedDuring(es, batch)
  {
    if es != [] {
      var init, e := es[..|es| - 1], es[|es| - 1];
      var s := Run(init);
      OneBatchWork(init, batch);
      if s.life.mounted.None? {
        var r := Step(s, e);
        assert r.net.requests == s.net.requests + [batch] || r.net.continuations == s.net.continuations + [batch];
      } else {
        OneBatchKeepsPolling(init, batch);
        if FinishedDuring(init, batch) {
          var k :| 0 <= k <= |init| && AllJobsTerminal(Run(init[..k]).data.jobs, batch);
          assert es[..k] == init[..k];
        } else {
          assert init[..|init|] == init;
          PollingLostExactlyWhen(init, e, batch);
        }
      }
    }
  }
}
