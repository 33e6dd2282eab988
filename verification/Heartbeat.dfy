/** The heartbeat tick (src/chain/heartbeat.rs), and what holds of every run of the scheduler under it. */
module Heartbeat {
  import opened Prelude
  import opened Strings
  import S = Scheduler
  import opened Scheduler

  function Output(job: Job): string {
    "heartbeat: executed chain '" + job.chainId + "' with params: " + job.paramsJson
  }

  /** Recording the due jobs one after the other, at the given times. */
  function RecordAll(t: Tables, due: seq<Job>, times: seq<int>): Tables
    requires |due| == |times|
  {
    if due == [] then t
    else
      var n := |due| - 1;
      Recorded(RecordAll(t, due[..n], times[..n]), due[n].id, Output(due[n]), times[n])
  }

  /** The results that the recordings report, in order. */
  function ResultsOf(t: Tables, due: seq<Job>, times: seq<int>): seq<RunResult>
    requires |due| == |times|
  {
    if due == [] then []
    else
      var n := |due| - 1;
      var before, r := ResultsOf(t, due[..n], times[..n]), Reported(RecordAll(t, due[..n], times[..n]).jobs, due[n].id, Output(due[n]));
      if r.Some? then before + [r.value] else before
  }

  lemma {:induction false} RecordAllStep(t: Tables, due: seq<Job>, times: seq<int>, k: nat)
    requires k < |due| == |times|
    ensures RecordAll(t, due[..k + 1], times[..k + 1]) == Recorded(RecordAll(t, due[..k], times[..k]), due[k].id, Output(due[k]), times[k])
  {
    assert due[..k + 1][..k] == due[..k] && times[..k + 1][..k] == times[..k];
  }

  lemma {:induction false} ResultsStep(t: Tables, due: seq<Job>, times: seq<int>, k: nat, r: Option<RunResult>)
    requires k < |due| == |times| && r == Reported(RecordAll(t, due[..k], times[..k]).jobs, due[k].id, Output(due[k]))
    ensures var before := ResultsOf(t, due[..k], times[..k]);
            ResultsOf(t, due[..k + 1], times[..k + 1]) == if r.Some? then before + [r.value] else before
  {
    assert due[..k + 1][..k] == due[..k] && times[..k + 1][..k] == times[..k];
  }

  function Ticked(cron: CronEngine, t: Tables, now: int, times: seq<int>): Tables
    requires |times| == |DueAmong(cron, t.jobs, now)|
  {
    RecordAll(t, DueAmong(cron, t.jobs, now), times)
  }

  /** `clock(0)` is read by `due_jobs`, `clock(k)` by the k-th `record_run`. */
  method Tick(scheduler: S.Scheduler, clock: nat -> int) returns (completed: seq<RunResult>, ghost times: seq<int>)
    modifies scheduler
    ensures |times| == |DueAmong(scheduler.cron, old(scheduler.jobs), clock(0))| && forall k :: 0 <= k < |times| ==> times[k] == clock(k + 1)
    ensures scheduler.Contents() == Ticked(scheduler.cron, old(scheduler.Contents()), clock(0), times)
    ensures completed == ResultsOf(old(scheduler.Contents()), DueAmong(scheduler.cron, old(scheduler.jobs), clock(0)), times)
  {
    var due := scheduler.DueJobs(clock(0));
    completed, times := RecordDue(scheduler, due, clock);
  }

  /** The loop of a tick over the due jobs. */
  method RecordDue(scheduler: S.Scheduler, due: seq<Job>, clock: nat -> int) returns (completed: seq<RunResult>, ghost times: seq<int>)
    modifies scheduler
    ensures |times| == |due| && forall k :: 0 <= k < |times| ==> times[k] == clock(k + 1)
    ensures scheduler.Contents() == RecordAll(old(scheduler.Contents()), due, times)
    ensures completed == ResultsOf(old(scheduler.Contents()), due, times)
  {
    completed, times := [], seq(|due|, k requires 0 <= k => clock(k + 1));
    for k := 0 to |due|
      invariant scheduler.Contents() == RecordAll(old(scheduler.Contents()), due[..k], times[..k])
      invariant completed == ResultsOf(old(scheduler.Contents()), due[..k], times[..k])
    {
      RecordAllStep(old(scheduler.Contents()), due, times, k);
      var result := scheduler.RecordRun(due[k].id, Output(due[k]), clock(k + 1));
      ResultsStep(old(scheduler.Contents()), due, times, k, result);
      if result.Some? {
        completed := completed + [result.value];
      }
    }
    assert due[..|due|] == due && times[..|due|] == times;
  }

  // ---------------------------------------------------------------------------------------
  // Runs
  // ---------------------------------------------------------------------------------------

  datatype Operation =
    | Add(chainId: string, spec: ScheduleSpec, paramsJson: string, idTime: nat, now: int)
    | SetEnabled(id: string, enabled: bool)
    | RecordOne(id: string, output: string, now: int)
    | Beat(now: int, times: seq<int>)

  ghost predicate Possible(cron: CronEngine, t: Tables, op: Operation) {
    op.Beat? ==> |op.times| == |DueAmong(cron, t.jobs, op.now)|
  }

  function Step(cron: CronEngine, t: Tables, op: Operation): Tables
    requires op.Beat? ==> |op.times| == |DueAmong(cron, t.jobs, op.now)|
  {
    match op
    case Add(chainId, spec, paramsJson, idTime, now) =>
      if ScheduleCheck(cron, t.jobs, JobId(chainId, idTime), spec).Some? then t
      else t.(jobs := t.jobs + [NewJob(JobId(chainId, idTime), chainId, spec, paramsJson, now)])
    case SetEnabled(id, enabled) => WithEnabled(t, id, enabled)
    case RecordOne(id, output, now) => Recorded(t, id, output, now)
    case Beat(now, times) => Ticked(cron, t, now, times)
  }

  ghost predicate PossibleRun(cron: CronEngine, t: Tables, ops: seq<Operation>)
    decreases |ops|
  {
    ops == [] || (Possible(cron, t, ops[0]) && PossibleRun(cron, Step(cron, t, ops[0]), ops[1..]))
  }

  ghost function RunFrom(cron: CronEngine, t: Tables, ops: seq<Operation>): Tables
    requires PossibleRun(cron, t, ops)
    decreases |ops|
  {
    if ops == [] then t else RunFrom(cron, Step(cron, t, ops[0]), ops[1..])
  }

  // ---------------------------------------------------------------------------------------
  // The job table summarises the history
  // ---------------------------------------------------------------------------------------

  /** The history of one job, oldest first. */
  function RunsOf(history: seq<HistoryEntry>, id: string): seq<HistoryEntry> {
    if history == [] then []
    else
      var n := |history| - 1;
      var before := RunsOf(history[..n], id);
      if history[n].jobId == id then before + [history[n]] else before
  }

  /** A run is marked as changed iff it is the first or its output differs from the run before it. */
  ghost predicate ChangesMarked(runs: seq<HistoryEntry>) {
    forall k :: 0 <= k < |runs| ==> MarkedAt(runs, k)
  }

  ghost predicate MarkedAt(runs: seq<HistoryEntry>, k: nat)
    requires k < |runs|
  {
    runs[k].changed <==> k == 0 || runs[k].output != runs[k - 1].output
  }

  ghost predicate Summarises(job: Job, runs: seq<HistoryEntry>) {
    && job.runCount == |runs|
    && job.lastOutput == (if runs == [] then None else Some(runs[|runs| - 1].output))
    && job.lastRunAt == (if runs == [] then None else Some(runs[|runs| - 1].runAt))
    && ChangesMarked(runs)
  }

  ghost predicate GoodJob(job: Job, history: seq<HistoryEntry>) {
    Summarises(job, RunsOf(history, job.id)) && (job.cronExpr.None? ==> job.intervalSecs >= MIN_INTERVAL_SECS)
  }

  ghost predicate DistinctJobs(jobs: seq<Job>) {
    forall i, j :: 0 <= i < j < |jobs| ==> jobs[i].id != jobs[j].id
  }

  ghost predicate Good(t: Tables) {
    && DistinctJobs(t.jobs)
    && (forall i :: 0 <= i < |t.jobs| ==> GoodJob(t.jobs[i], t.history))
    && AllKnown(t.jobs, t.history)
  }

  ghost predicate AllKnown(jobs: seq<Job>, history: seq<HistoryEntry>) {
    forall k :: 0 <= k < |history| ==> FindJob(jobs, history[k].jobId).Some?
  }

  lemma {:induction false} RunsOfAppend(history: seq<HistoryEntry>, e: HistoryEntry, id: string)
    ensures RunsOf(history + [e], id) == if e.jobId == id then RunsOf(history, id) + [e] else RunsOf(history, id)
  {
    assert (history + [e])[..|history|] == history;
  }

  lemma {:induction false} NoRunsOf(history: seq<HistoryEntry>, id: string)
    requires forall k :: 0 <= k < |history| ==> history[k].jobId != id
    ensures RunsOf(history, id) == []
  {
    if history != [] {
      NoRunsOf(history[..|history| - 1], id);
    }
  }

  /** Updating a row without touching its id keeps the tables linked. */
  lemma {:induction false} UpdateKeepsLinks(jobs: seq<Job>, i: nat, job: Job, history: seq<HistoryEntry>)
    requires i < |jobs| && job.id == jobs[i].id && DistinctJobs(jobs) && AllKnown(jobs, history)
    ensures DistinctJobs(jobs[i := job]) && AllKnown(jobs[i := job], history)
  {
    forall k | 0 <= k < |history|
      ensures FindJob(jobs[i := job], history[k].jobId).Some?
    {
      SameIdsSameFind(jobs, jobs[i := job], history[k].jobId);
    }
  }

  lemma {:induction false} RecordedJobIsGood(job: Job, history: seq<HistoryEntry>, output: string, now: int)
    requires GoodJob(job, history)
    ensures GoodJob(AfterRun(job, output, now), history + [RunEntry(job, output, now)])
  {
    var e := RunEntry(job, output, now);
    RunsOfAppend(history, e, job.id);
    MarkAppended(RunsOf(history, job.id), e);
  }

  lemma {:induction false} MarkAppended(runs: seq<HistoryEntry>, e: HistoryEntry)
    requires ChangesMarked(runs) && (e.changed <==> runs == [] || e.output != runs[|runs| - 1].output)
    ensures ChangesMarked(runs + [e])
  {
    var all := runs + [e];
    forall k | 0 <= k < |all|
      ensures MarkedAt(all, k)
    {
      assert k > 0 ==> all[k - 1] == runs[k - 1];
      assert k < |runs| ==> MarkedAt(runs, k);
    }
  }

  lemma {:induction false} OtherJobIsGood(job: Job, history: seq<HistoryEntry>, e: HistoryEntry)
    requires GoodJob(job, history) && e.jobId != job.id
    ensures GoodJob(job, history + [e])
  {
    RunsOfAppend(history, e, job.id);
  }

  lemma {:induction false} RecordKeepsGood(t: Tables, id: string, output: string, now: int)
    requires Good(t)
    ensures Good(Recorded(t, id, output, now))
  {
    var found := FindJob(t.jobs, id);
    if found.Some? {
      var i, t' := found.value, Recorded(t, id, output, now);
      UpdateKeepsLinks(t.jobs, i, AfterRun(t.jobs[i], output, now), t.history);
      SameIdsSameFind(t.jobs, t'.jobs, id);
      RecordedJobIsGood(t.jobs[i], t.history, output, now);
      forall j | 0 <= j < |t.jobs| && j != i
        ensures GoodJob(t.jobs[j], t'.history)
      {
        OtherJobIsGood(t.jobs[j], t.history, RunEntry(t.jobs[i], output, now));
      }
    }
  }

  lemma {:induction false} SameIdsSameFind(a: seq<Job>, b: seq<Job>, id: string)
    requires |a| == |b| && forall i :: 0 <= i < |a| ==> a[i].id == b[i].id
    ensures FindJob(a, id) == FindJob(b, id)
  {
    if a != [] {
      SameIdsSameFind(a[..|a| - 1], b[..|b| - 1], id);
    }
  }

  lemma {:induction false} RecordAllKeepsGood(t: Tables, due: seq<Job>, times: seq<int>)
    requires Good(t) && |due| == |times|
    ensures Good(RecordAll(t, due, times))
  {
    if due != [] {
      var n := |due| - 1;
      RecordAllKeepsGood(t, due[..n], times[..n]);
      RecordKeepsGood(RecordAll(t, due[..n], times[..n]), due[n].id, Output(due[n]), times[n]);
    }
  }

  lemma {:induction false} EnableKeepsGood(t: Tables, id: string, enabled: bool)
    requires Good(t)
    ensures Good(WithEnabled(t, id, enabled))
  {
    var found := FindJob(t.jobs, id);
    if found.Some? {
      var i := found.value;
      UpdateKeepsLinks(t.jobs, i, t.jobs[i].(enabled := enabled), t.history);
      assert GoodJob(t.jobs[i], t.history);
    }
  }

  lemma {:induction false} AddKeepsGood(cron: CronEngine, t: Tables, op: Operation)
    requires Good(t) && op.Add?
    ensures Good(Step(cron, t, op))
  {
    var id := JobId(op.chainId, op.idTime);
    if ScheduleCheck(cron, t.jobs, id, op.spec).None? {
      NewJobKeepsGood(t, NewJob(id, op.chainId, op.spec, op.paramsJson, op.now));
    }
  }

  lemma {:induction false} NewJobKeepsGood(t: Tables, job: Job)
    requires Good(t) && FindJob(t.jobs, job.id).None?
    requires job.runCount == 0 && job.lastOutput.None? && job.lastRunAt.None?
    requires job.cronExpr.None? ==> job.intervalSecs >= MIN_INTERVAL_SECS
    ensures Good(t.(jobs := t.jobs + [job]))
  {
    var jobs := t.jobs + [job];
    NoRunsOf(t.history, job.id);
    assert jobs[..|t.jobs|] == t.jobs;
    assert forall i :: 0 <= i < |t.jobs| ==> jobs[i] == t.jobs[i];
    forall k | 0 <= k < |t.history|
      ensures FindJob(jobs, t.history[k].jobId).Some?
    {
    }
  }

  lemma {:induction false} StepKeepsGood(cron: CronEngine, t: Tables, op: Operation)
    requires Good(t) && Possible(cron, t, op)
    ensures Good(Step(cron, t, op))
  {
    match op
    case Add(_, _, _, _, _) => AddKeepsGood(cron, t, op);
    case SetEnabled(id, enabled) => EnableKeepsGood(t, id, enabled);
    case RecordOne(id, output, now) => RecordKeepsGood(t, id, output, now);
    case Beat(now, times) => RecordAllKeepsGood(t, DueAmong(cron, t.jobs, now), times);
  }

  /** In every run each job row summarises its history, and interval jobs have at least the minimum interval. */
  lemma {:induction false} RunsStayGood(cron: CronEngine, t: Tables, ops: seq<Operation>)
    requires Good(t) && PossibleRun(cron, t, ops)
    ensures Good(RunFrom(cron, t, ops))
    decreases |ops|
  {
    if ops != [] {
      StepKeepsGood(cron, t, ops[0]);
      RunsStayGood(cron, Step(cron, t, ops[0]), ops[1..]);
    }
  }

  // ---------------------------------------------------------------------------------------
  // The cap on active jobs
  // ---------------------------------------------------------------------------------------

  ghost function EnableCount(ops: seq<Operation>): nat {
    if ops == [] then 0 else (if ops[0].SetEnabled? && ops[0].enabled then 1 else 0) + EnableCount(ops[1..])
  }

  lemma {:induction false} ActiveAfterUpdate(jobs: seq<Job>, i: nat, job: Job)
    requires i < |jobs|
    ensures ActiveCount(jobs[i := job]) == ActiveCount(jobs) + (if job.enabled then 1 else 0) - (if jobs[i].enabled then 1 else 0)
  {
    var n := |jobs| - 1;
    if i < n {
      ActiveAfterUpdate(jobs[..n], i, job);
      assert jobs[i := job][..n] == jobs[..n][i := job];
    } else {
      assert jobs[i := job][..n] == jobs[..n];
    }
  }

  lemma {:induction false} RecordAllKeepsActive(t: Tables, due: seq<Job>, times: seq<int>)
    requires |due| == |times|
    ensures ActiveCount(RecordAll(t, due, times).jobs) == ActiveCount(t.jobs)
  {
    if due != [] {
      var n := |due| - 1;
      RecordAllKeepsActive(t, due[..n], times[..n]);
      RecordKeepsActive(RecordAll(t, due[..n], times[..n]), due[n].id, Output(due[n]), times[n]);
    }
  }

  lemma {:induction false} RecordKeepsActive(t: Tables, id: string, output: string, now: int)
    ensures ActiveCount(Recorded(t, id, output, now).jobs) == ActiveCount(t.jobs)
  {
    var found := FindJob(t.jobs, id);
    if found.Some? {
      ActiveAfterUpdate(t.jobs, found.value, AfterRun(t.jobs[found.value], output, now));
    }
  }

  lemma {:induction false} StepActive(cron: CronEngine, t: Tables, op: Operation)
    requires Possible(cron, t, op)
    ensures ActiveCount(Step(cron, t, op).jobs) <= MAX_ACTIVE_JOBS || ActiveCount(Step(cron, t, op).jobs) <= ActiveCount(t.jobs) + EnableCount([op])
    ensures op.Add? ==> ActiveCount(Step(cron, t, op).jobs) <= MAX_ACTIVE_JOBS || Step(cron, t, op) == t
  {
    match op
    case Add(chainId, spec, paramsJson, idTime, now) =>
      var t' := Step(cron, t, op);
      if t' != t {
        assert t'.jobs[..|t.jobs|] == t.jobs;
      }
    case SetEnabled(id, enabled) =>
      var found := FindJob(t.jobs, id);
      if found.Some? {
        ActiveAfterUpdate(t.jobs, found.value, t.jobs[found.value].(enabled := enabled));
      }
    case RecordOne(id, output, now) => RecordKeepsActive(t, id, output, now);
    case Beat(now, times) => RecordAllKeepsActive(t, DueAmong(cron, t.jobs, now), times);
  }

  /** Only `enable` can take the number of active jobs over the cap, by at most one per call. */
  lemma {:induction false} ActiveJobsAreCapped(cron: CronEngine, t: Tables, ops: seq<Operation>, extra: nat)
    requires PossibleRun(cron, t, ops) && |EnabledAt(t.jobs)| <= 100 + extra
    ensures |EnabledAt(RunFrom(cron, t, ops).jobs)| <= 100 + extra + EnableCount(ops)
    decreases |ops|
  {
    if ops != [] {
      ActiveCountIs(t.jobs);
      ActiveCountIs(Step(cron, t, ops[0]).jobs);
      StepActive(cron, t, ops[0]);
      assert EnableCount([ops[0]]) == if ops[0].SetEnabled? && ops[0].enabled then 1 else 0;
      ActiveJobsAreCapped(cron, Step(cron, t, ops[0]), ops[1..], extra + EnableCount([ops[0]]));
    }
  }

  // ---------------------------------------------------------------------------------------
  // Spacing of runs under the heartbeat
  // ---------------------------------------------------------------------------------------

  /** Consecutive runs are at least `gap` apart. */
  ghost predicate Spaced(runs: seq<HistoryEntry>, gap: int) {
    forall k :: 0 < k < |runs| ==> runs[k].runAt - runs[k - 1].runAt >= gap
  }

  ghost predicate WellSpaced(t: Tables, clock: int) {
    && (forall i :: 0 <= i < |t.jobs| && UsesInterval(t.jobs[i]) ==>
          Spaced(RunsOf(t.history, t.jobs[i].id), IntervalMillis(t.jobs[i].intervalSecs)))
    && (forall k :: 0 <= k < |t.history| ==> t.history[k].runAt <= clock)
  }

  /** The clock readings of an operation, starting from the last reading. */
  ghost predicate ClockAdvances(clock: int, op: Operation) {
    op.Beat? ==> clock <= op.now && NonDecreasingFrom(op.now, op.times)
  }

  ghost predicate NonDecreasingFrom(clock: int, times: seq<int>) {
    && (times != [] ==> times[0] >= clock)
    && forall k :: 0 < k < |times| ==> times[k - 1] <= times[k]
  }

  ghost function ClockAfter(clock: int, op: Operation): int {
    if op.Beat? then (if op.times == [] then op.now else op.times[|op.times| - 1]) else clock
  }

  lemma {:induction false} DueAre(cron: CronEngine, jobs: seq<Job>, now: int)
    requires DistinctJobs(jobs)
    ensures DistinctJobs(DueAmong(cron, jobs, now))
    ensures forall d :: d in DueAmong(cron, jobs, now) ==> d in jobs && IsDue(cron, d, now)
  {
    if jobs != [] {
      var n := |jobs| - 1;
      DueAre(cron, jobs[..n], now);
      var before := DueAmong(cron, jobs[..n], now);
      forall d | d in before
        ensures d.id != jobs[n].id
      {
        var i :| 0 <= i < n && jobs[..n][i] == d;
        assert jobs[i] == d;
      }
    }
  }

  /** Within one tick a job that is still to be recorded has not been touched yet. */
  lemma {:induction false} OthersUntouched(t: Tables, due: seq<Job>, times: seq<int>, job: Job)
    requires |due| == |times| && DistinctJobs(t.jobs) && job in t.jobs && forall k :: 0 <= k < |due| ==> due[k].id != job.id
    ensures var t' := RecordAll(t, due, times);
            && job in t'.jobs && DistinctJobs(t'.jobs) && RunsOf(t'.history, job.id) == RunsOf(t.history, job.id)
  {
    if due != [] {
      var n := |due| - 1;
      OthersUntouched(t, due[..n], times[..n], job);
      OtherUntouched(RecordAll(t, due[..n], times[..n]), due[n].id, Output(due[n]), times[n], job);
    }
  }

  lemma {:induction false} OtherUntouched(t: Tables, id: string, output: string, now: int, job: Job)
    requires DistinctJobs(t.jobs) && job in t.jobs && id != job.id
    ensures var t' := Recorded(t, id, output, now);
            job in t'.jobs && DistinctJobs(t'.jobs) && RunsOf(t'.history, job.id) == RunsOf(t.history, job.id)
  {
    var found := FindJob(t.jobs, id);
    if found.Some? {
      var j :| 0 <= j < |t.jobs| && t.jobs[j] == job;
      assert Recorded(t, id, output, now).jobs[j] == job;
      RunsOfAppend(t.history, RunEntry(t.jobs[found.value], output, now), job.id);
    }
  }

  lemma {:induction false} DueIfListed(cron: CronEngine, jobs: seq<Job>, now: int, job: Job)
    requires job in jobs && IsDue(cron, job, now)
    ensures job in DueAmong(cron, jobs, now)
  {
    var n := |jobs| - 1;
    if jobs[n] != job {
      assert jobs == jobs[..n] + [jobs[n]];
      DueIfListed(cron, jobs[..n], now, job);
    }
  }

  /** A job that is in the list once is recorded once. */
  lemma {:induction false} RecordedOnce(t: Tables, due: seq<Job>, times: seq<int>, k: nat)
    requires k < |due| == |times| && DistinctJobs(t.jobs) && DistinctJobs(due) && due[k] in t.jobs
    ensures RunsOf(RecordAll(t, due, times).history, due[k].id)
         == RunsOf(t.history, due[k].id) + [RunEntry(due[k], Output(due[k]), times[k])]
  {
    var n := |due| - 1;
    var mid := RecordAll(t, due[..n], times[..n]);
    var found := FindJob(mid.jobs, due[n].id);
    if k < n {
      RecordedOnce(t, due[..n], times[..n], k);
      if found.Some? {
        RunsOfAppend(mid.history, RunEntry(mid.jobs[found.value], Output(due[n]), times[n]), due[k].id);
      }
    } else {
      OthersUntouched(t, due[..n], times[..n], due[n]);
      var j :| 0 <= j < |mid.jobs| && mid.jobs[j] == due[n];
      assert found == Some(j);
      RunsOfAppend(mid.history, RunEntry(due[n], Output(due[n]), times[n]), due[n].id);
    }
  }

  /** One tick runs every due job exactly once, and no other. */
  lemma {:induction false} TickRunsDueJobsOnce(cron: CronEngine, t: Tables, now: int, times: seq<int>, job: Job)
    requires Good(t) && |times| == |DueAmong(cron, t.jobs, now)| && job in t.jobs
    ensures var before, after := RunsOf(t.history, job.id), RunsOf(Ticked(cron, t, now, times).history, job.id);
            if IsDue(cron, job, now) then exists k :: 0 <= k < |times| && after == before + [RunEntry(job, Output(job), times[k])]
            else after == before
  {
    var due := DueAmong(cron, t.jobs, now);
    DueAre(cron, t.jobs, now);
    if IsDue(cron, job, now) {
      DueIfListed(cron, t.jobs, now, job);
      var k :| 0 <= k < |due| && due[k] == job;
      RecordedOnce(t, due, times, k);
    } else {
      forall k | 0 <= k < |due|
        ensures due[k].id != job.id
      {
        SameIdSameJob(t.jobs, due[k], job);
        assert IsDue(cron, due[k], now);
      }
      OthersUntouched(t, due, times, job);
    }
  }

  /** The result of a job that was not recorded before in the same tick tells its row as it was when the tick began. */
  function ExpectedResult(job: Job): RunResult {
    RunResult(job.id, job.chainId, Output(job), job.lastOutput != Some(Output(job)), job.lastOutput, job.runCount + 1)
  }

  lemma {:induction false} ResultsAreExpected(t: Tables, due: seq<Job>, times: seq<int>)
    requires |due| == |times| && DistinctJobs(t.jobs) && DistinctJobs(due) && forall d :: d in due ==> d in t.jobs
    ensures |ResultsOf(t, due, times)| == |due|
    ensures forall k :: 0 <= k < |due| ==> ResultsOf(t, due, times)[k] == ExpectedResult(due[k])
  {
    if due != [] {
      var n := |due| - 1;
      ResultsAreExpected(t, due[..n], times[..n]);
      OthersUntouched(t, due[..n], times[..n], due[n]);
      var mid := RecordAll(t, due[..n], times[..n]);
      var j :| 0 <= j < |mid.jobs| && mid.jobs[j] == due[n];
      assert FindJob(mid.jobs, due[n].id) == Some(j);
    }
  }

  /** The completion callback is told every due job exactly once, in table order, with its change mark and run number. */
  lemma {:induction false} TickReportsDueJobs(cron: CronEngine, t: Tables, now: int, times: seq<int>)
    requires Good(t) && |times| == |DueAmong(cron, t.jobs, now)|
    ensures var due := DueAmong(cron, t.jobs, now);
            && |ResultsOf(t, due, times)| == |due|
            && forall k :: 0 <= k < |due| ==> ResultsOf(t, due, times)[k] == ExpectedResult(due[k])
  {
    DueAre(cron, t.jobs, now);
    ResultsAreExpected(t, DueAmong(cron, t.jobs, now), times);
  }

  lemma {:induction false} SameIdSameJob(jobs: seq<Job>, a: Job, b: Job)
    requires DistinctJobs(jobs) && a in jobs && b in jobs
    ensures a.id == b.id ==> a == b
  {
  }

  /** Recording a run at least an interval after the last one keeps all runs spaced. */
  lemma {:induction false} RecordKeepsSpacing(t: Tables, job: Job, output: string, now: int, clock: int)
    requires Good(t) && WellSpaced(t, clock) && clock <= now && job in t.jobs
    requires UsesInterval(job) && job.lastRunAt.Some? ==> now - job.lastRunAt.value >= IntervalMillis(job.intervalSecs)
    ensures WellSpaced(Recorded(t, job.id, output, now), now)
  {
    var j :| 0 <= j < |t.jobs| && t.jobs[j] == job;
    var i := FindJob(t.jobs, job.id).value;
    assert i == j;
    var t', e := Recorded(t, job.id, output, now), RunEntry(job, output, now);
    forall l | 0 <= l < |t'.jobs| && UsesInterval(t'.jobs[l])
      ensures Spaced(RunsOf(t'.history, t'.jobs[l].id), IntervalMillis(t'.jobs[l].intervalSecs))
    {
      assert Spaced(RunsOf(t.history, t.jobs[l].id), IntervalMillis(t.jobs[l].intervalSecs));
      if l == i {
        assert GoodJob(job, t.history);
        AppendedIsSpaced(job, t.history, e);
      } else {
        assert t.jobs[l].id != job.id;
        RunsOfAppend(t.history, e, t.jobs[l].id);
      }
    }
  }

  lemma {:induction false} AppendedIsSpaced(job: Job, history: seq<HistoryEntry>, e: HistoryEntry)
    requires GoodJob(job, history) && e.jobId == job.id && Spaced(RunsOf(history, job.id), IntervalMillis(job.intervalSecs))
    requires job.lastRunAt.Some? ==> e.runAt - job.lastRunAt.value >= IntervalMillis(job.intervalSecs)
    ensures Spaced(RunsOf(history + [e], job.id), IntervalMillis(job.intervalSecs))
  {
    RunsOfAppend(history, e, job.id);
  }

  lemma {:induction false} LastTime(now: int, times: seq<int>, k: nat)
    requires NonDecreasingFrom(now, times) && k <= |times|
    ensures NonDecreasingFrom(now, times[..k])
  {
  }

  lemma {:induction false} TimesAtLeast(now: int, times: seq<int>, k: nat)
    requires NonDecreasingFrom(now, times) && k < |times|
    ensures now <= times[k]
  {
    if k > 0 {
      TimesAtLeast(now, times, k - 1);
    }
  }

  ghost function LastReading(now: int, times: seq<int>): int {
    if times == [] then now else times[|times| - 1]
  }

  lemma {:induction false} TickKeepsSpacing(cron: CronEngine, t: Tables, due: seq<Job>, now: int, times: seq<int>, clock: int)
    requires Good(t) && WellSpaced(t, clock) && clock <= now && |due| == |times| && NonDecreasingFrom(now, times)
    requires DistinctJobs(due) && forall d :: d in due ==> d in t.jobs && IsDue(cron, d, now)
    ensures WellSpaced(RecordAll(t, due, times), LastReading(now, times))
  {
    if due != [] {
      var n := |due| - 1;
      var first := due[..n];
      LastTime(now, times, n);
      TickKeepsSpacing(cron, t, first, now, times[..n], clock);
      RecordAllKeepsGood(t, first, times[..n]);
      OthersUntouched(t, first, times[..n], due[n]);
      TimesAtLeast(now, times, n);
      var mid := RecordAll(t, first, times[..n]);
      assert IsDue(cron, due[n], now);
      RecordKeepsSpacing(mid, due[n], Output(due[n]), times[n], LastReading(now, times[..n]));
    }
  }

  lemma {:induction false} StepKeepsSpacing(cron: CronEngine, t: Tables, op: Operation, clock: int)
    requires Good(t) && WellSpaced(t, clock) && Possible(cron, t, op) && ClockAdvances(clock, op) && !op.RecordOne?
    ensures WellSpaced(Step(cron, t, op), ClockAfter(clock, op))
  {
    match op
    case Add(chainId, _, _, idTime, _) =>
      var t', id := Step(cron, t, op), JobId(chainId, idTime);
      if t' != t {
        assert forall k :: 0 <= k < |t.history| ==> t.history[k].jobId != id;
        NoRunsOf(t.history, id);
      }
    case SetEnabled(id, enabled) =>
      var t' := Step(cron, t, op);
      assert forall i :: 0 <= i < |t.jobs| ==> t'.jobs[i] == t.jobs[i].(enabled := t'.jobs[i].enabled);
    case Beat(now, times) =>
      DueAre(cron, t.jobs, now);
      TickKeepsSpacing(cron, t, DueAmong(cron, t.jobs, now), now, times, clock);
  }

  /** Runs in which only the heartbeat records, under a clock that never goes back. */
  ghost predicate HeartbeatRun(cron: CronEngine, t: Tables, ops: seq<Operation>, clock: int)
    decreases |ops|
  {
    ops == [] ||
    (Possible(cron, t, ops[0]) && ClockAdvances(clock, ops[0]) && !ops[0].RecordOne?
     && HeartbeatRun(cron, Step(cron, t, ops[0]), ops[1..], ClockAfter(clock, ops[0])))
  }

  lemma {:induction false} HeartbeatRunIsPossible(cron: CronEngine, t: Tables, ops: seq<Operation>, clock: int)
    requires HeartbeatRun(cron, t, ops, clock)
    ensures PossibleRun(cron, t, ops)
    decreases |ops|
  {
    if ops != [] {
      HeartbeatRunIsPossible(cron, Step(cron, t, ops[0]), ops[1..], ClockAfter(clock, ops[0]));
    }
  }

  lemma {:induction false} HeartbeatSpacesRuns(cron: CronEngine, t: Tables, ops: seq<Operation>, clock: int)
    requires Good(t) && WellSpaced(t, clock) && HeartbeatRun(cron, t, ops, clock)
    ensures PossibleRun(cron, t, ops) && Good(RunFrom(cron, t, ops))
    ensures exists last :: WellSpaced(RunFrom(cron, t, ops), last)
    decreases |ops|
  {
    HeartbeatRunIsPossible(cron, t, ops, clock);
    if ops != [] {
      StepKeepsGood(cron, t, ops[0]);
      StepKeepsSpacing(cron, t, ops[0], clock);
      HeartbeatSpacesRuns(cron, Step(cron, t, ops[0]), ops[1..], ClockAfter(clock, ops[0]));
    }
  }

  /** Number of runs in a closed time window. */
  ghost function RunsWithin(runs: seq<HistoryEntry>, from: int, to: int): nat {
    if runs == [] then 0 else (if from <= runs[0].runAt <= to then 1 else 0) + RunsWithin(runs[1..], from, to)
  }

  lemma {:induction false} LaterThan(runs: seq<HistoryEntry>, gap: int, k: nat)
    requires Spaced(runs, gap) && gap > 0 && k < |runs|
    ensures runs[0].runAt + (if k == 0 then 0 else gap) <= runs[k].runAt
  {
    if k > 0 {
      LaterThan(runs, gap, k - 1);
    }
  }

  lemma {:induction false} SameWindow(runs: seq<HistoryEntry>, from: int, from': int, to: int)
    requires from <= from' && forall k :: 0 <= k < |runs| ==> runs[k].runAt >= from'
    ensures RunsWithin(runs, from, to) == RunsWithin(runs, from', to)
  {
    if runs != [] {
      SameWindow(runs[1..], from, from', to);
    }
  }

  lemma {:induction false} SpacedTail(runs: seq<HistoryEntry>, gap: int)
    requires Spaced(runs, gap) && gap > 0 && runs != []
    ensures Spaced(runs[1..], gap)
    ensures forall k :: 0 <= k < |runs| - 1 ==> runs[1..][k].runAt >= runs[0].runAt + gap
  {
    var rest := runs[1..];
    assert forall k :: 0 < k < |rest| ==> rest[k] == runs[k + 1] && rest[k - 1] == runs[k];
    forall k | 0 <= k < |rest|
      ensures rest[k].runAt >= runs[0].runAt + gap
    {
      LaterThan(runs, gap, k + 1);
    }
  }

  lemma {:induction false} MoreRoom(m: int, gap: int)
    ensures m * gap == (m - 1) * gap + gap
  {
  }

  /** Spaced runs need room: all but one of those in a window take a gap each. */
  lemma {:induction false} WindowRoom(runs: seq<HistoryEntry>, gap: int, from: int, to: int)
    requires Spaced(runs, gap) && gap > 0
    ensures RunsWithin(runs, from, to) > 0 ==> (RunsWithin(runs, from, to) - 1) * gap <= to - from
  {
    if runs != [] {
      var rest := runs[1..];
      SpacedTail(runs, gap);
      if from <= runs[0].runAt <= to {
        var next := runs[0].runAt + gap;
        SameWindow(rest, from, next, to);
        WindowRoom(rest, gap, next, to);
        MoreRoom(RunsWithin(rest, from, to), gap);
      } else {
        WindowRoom(rest, gap, from, to);
      }
    }
  }

  lemma {:induction false} RoomBoundsCount(m: int, gap: int, width: int)
    requires gap > 0 && width >= 0 && (m > 0 ==> (m - 1) * gap <= width)
    ensures m <= width / gap + 1
  {
    var q := width / gap;
    assert width < (q + 1) * gap;
    assert (m - 1) * gap - (q + 1) * gap == (m - q - 2) * gap;
    if m - 1 > q {
      NonNegativeProduct(m - q - 2, gap);
      assert false;
    }
  }

  lemma {:induction false} NonNegativeProduct(x: int, y: int)
    requires x >= 0 && y >= 0
    ensures x * y >= 0
  {
  }

  /**
   * Under the heartbeat, runs of an interval job are at least the interval apart, so a window of
   * `width` milliseconds holds at most width / (1000 * interval) + 1 of them, provided the interval
   * in milliseconds fits an `i64`.
   */
  lemma {:induction false} HeartbeatRateIsBounded(cron: CronEngine, ops: seq<Operation>, clock: int, i: nat, from: int, width: nat)
    requires HeartbeatRun(cron, Tables([], []), ops, clock)
    ensures PossibleRun(cron, Tables([], []), ops)
    ensures var t := RunFrom(cron, Tables([], []), ops);
            i < |t.jobs| && t.jobs[i].cronExpr.None? && 1000 * t.jobs[i].intervalSecs < TWO_63 ==>
              var gap := 1000 * t.jobs[i].intervalSecs;
              && gap >= 30_000
              && Spaced(RunsOf(t.history, t.jobs[i].id), gap)
              && RunsWithin(RunsOf(t.history, t.jobs[i].id), from, from + width) <= width / gap + 1
  {
    var empty := Tables([], []);
    HeartbeatSpacesRuns(cron, empty, ops, clock);
    var t := RunFrom(cron, empty, ops);
    if i < |t.jobs| && t.jobs[i].cronExpr.None? && 1000 * t.jobs[i].intervalSecs < TWO_63 {
      var gap, runs := 1000 * t.jobs[i].intervalSecs, RunsOf(t.history, t.jobs[i].id);
      IntervalFits(t.jobs[i].intervalSecs);
      assert GoodJob(t.jobs[i], t.history);
      WindowRoom(runs, gap, from, from + width);
      RoomBoundsCount(RunsWithin(runs, from, from + width), gap, width);
    }
  }

  // ---------------------------------------------------------------------------------------
  // Intervals that do not fit
  // ---------------------------------------------------------------------------------------

  /** In all runs under the heartbeat, runs of jobs with this interval are at least the interval apart. */
  ghost predicate IntervalIsKept(cron: CronEngine, secs: nat) {
    forall ops: seq<Operation>, clock: int :: HeartbeatRun(cron, Tables([], []), ops, clock) ==>
      PossibleRun(cron, Tables([], []), ops) && KeptIn(cron, ops, secs)
  }

  ghost predicate KeptIn(cron: CronEngine, ops: seq<Operation>, secs: nat)
    requires PossibleRun(cron, Tables([], []), ops)
  {
    var t := RunFrom(cron, Tables([], []), ops);
    forall i :: 0 <= i < |t.jobs| && t.jobs[i].cronExpr.None? && t.jobs[i].intervalSecs == secs ==>
      Spaced(RunsOf(t.history, t.jobs[i].id), 1000 * secs)
  }

  lemma {:induction false} BeatOfOneJob(cron: CronEngine, job: Job, history: seq<HistoryEntry>, now: int)
    requires IsDue(cron, job, now)
    ensures var t := Tables([job], history);
            && DueAmong(cron, t.jobs, now) == [job]
            && Step(cron, t, Beat(now, [now])) == Tables([AfterRun(job, Output(job), now)], history + [RunEntry(job, Output(job), now)])
  {
    assert [job][..0] == [] && [now][..0] == [] && [] + [job] == [job];
    assert DueAmong(cron, [], now) == [];
    assert FindJob([job], job.id) == Some(0);
    assert RecordAll(Tables([job], history), [], []) == Tables([job], history);
    assert [job][0 := AfterRun(job, Output(job), now)] == [AfterRun(job, Output(job), now)];
  }

  /** One job, and two beats at which it is due: its runs are as far apart as the beats. */
  lemma {:induction false} TwoBeats(cron: CronEngine, add: Operation, job: Job, gap: int)
    requires add.Add? && Step(cron, Tables([], []), add) == Tables([job], []) && gap >= 0
    requires IsDue(cron, job, 0) && IsDue(cron, AfterRun(job, Output(job), 0), gap)
    ensures var ops := [add, Beat(0, [0]), Beat(gap, [gap])];
            && HeartbeatRun(cron, Tables([], []), ops, 0) && PossibleRun(cron, Tables([], []), ops)
            && var t := RunFrom(cron, Tables([], []), ops);
               && |t.jobs| == 1 && t.jobs[0].id == job.id && t.jobs[0].cronExpr == job.cronExpr && t.jobs[0].intervalSecs == job.intervalSecs
               && |RunsOf(t.history, job.id)| == 2
               && RunsOf(t.history, job.id)[0].runAt == 0 && RunsOf(t.history, job.id)[1].runAt == gap
  {
    var job2, e1 := AfterRun(job, Output(job), 0), RunEntry(job, Output(job), 0);
    var job3, e2 := AfterRun(job2, Output(job2), gap), RunEntry(job2, Output(job2), gap);
    BeatOfOneJob(cron, job, [], 0);
    assert [] + [e1] == [e1];
    BeatOfOneJob(cron, job2, [e1], gap);
    ThreeSteps(cron, add, Beat(0, [0]), Beat(gap, [gap]), Tables([job], []), Tables([job2], [e1]), Tables([job3], [e1] + [e2]), 0);
    RunsOfAppend([], e1, job.id);
    RunsOfAppend([e1], e2, job.id);
  }

  /** An interval that wraps around: the second of two beats comes too early. */
  lemma {:induction false} WrappedIntervalIsNotKept(cron: CronEngine, secs: nat)
    requires secs >= MIN_INTERVAL_SECS && 1000 * secs >= TWO_63
    ensures !IntervalIsKept(cron, secs)
  {
    var gap := if IntervalMillis(secs) >= 0 then IntervalMillis(secs) else 0;
    var add, job := Add("", Interval(secs), "", 0, 0), NewJob(JobId("", 0), "", Interval(secs), "", 0);
    assert Step(cron, Tables([], []), add) == Tables([job], []);
    TwoBeats(cron, add, job, gap);
    var ops := [add, Beat(0, [0]), Beat(gap, [gap])];
    assert !Spaced(RunsOf(RunFrom(cron, Tables([], []), ops).history, job.id), 1000 * secs);
    assert !KeptIn(cron, ops, secs);
  }

  lemma {:induction false} ThreeSteps(cron: CronEngine, a: Operation, b: Operation, c: Operation,
                                      t1: Tables, t2: Tables, t3: Tables, clock: int)
    requires a.Add? && b.Beat? && c.Beat?
    requires Step(cron, Tables([], []), a) == t1
    requires Possible(cron, t1, b) && Step(cron, t1, b) == t2 && ClockAdvances(clock, b)
    requires Possible(cron, t2, c) && Step(cron, t2, c) == t3 && ClockAdvances(ClockAfter(clock, b), c)
    ensures HeartbeatRun(cron, Tables([], []), [a, b, c], clock)
    ensures PossibleRun(cron, Tables([], []), [a, b, c]) && RunFrom(cron, Tables([], []), [a, b, c]) == t3
  {
    assert [a, b, c][1..] == [b, c] && [b, c][1..] == [c] && [c][1..] == [];
    assert RunFrom(cron, t3, []) == t3 && HeartbeatRun(cron, t3, [], ClockAfter(ClockAfter(clock, b), c));
    assert PossibleRun(cron, t2, [c]) && RunFrom(cron, t2, [c]) == t3;
    assert HeartbeatRun(cron, t2, [c], ClockAfter(clock, b));
    assert PossibleRun(cron, t1, [b, c]) && RunFrom(cron, t1, [b, c]) == t3;
    assert HeartbeatRun(cron, t1, [b, c], clock);
  }

  /** The exact boundary: the heartbeat keeps an interval in all runs if and only if it fits an `i64` in milliseconds. */
  lemma {:induction false} IntervalIsKeptIff(cron: CronEngine, secs: nat)
    requires secs >= MIN_INTERVAL_SECS
    ensures IntervalIsKept(cron, secs) <==> 1000 * secs < TWO_63
  {
    if 1000 * secs < TWO_63 {
      forall ops: seq<Operation>, clock: int | HeartbeatRun(cron, Tables([], []), ops, clock)
        ensures PossibleRun(cron, Tables([], []), ops) && KeptIn(cron, ops, secs)
      {
        HeartbeatRunIsPossible(cron, Tables([], []), ops, clock);
        var t := RunFrom(cron, Tables([], []), ops);
        forall i | 0 <= i < |t.jobs| && t.jobs[i].cronExpr.None? && t.jobs[i].intervalSecs == secs
          ensures Spaced(RunsOf(t.history, t.jobs[i].id), 1000 * secs)
        {
          HeartbeatRateIsBounded(cron, ops, clock, i, 0, 0);
        }
      }
    } else {
      WrappedIntervalIsNotKept(cron, secs);
    }
  }

  /** The recorded output names the chain and its parameters. */
  lemma {:induction false} OutputNamesTheChain(job: Job) returns (i: nat, j: nat)
    ensures OccursAt(Output(job), job.chainId, i) && OccursAt(Output(job), job.paramsJson, j) && i + |job.chainId| <= j
  {
    var head, middle := "heartbeat: executed chain '", "' with params: ";
    var s := Output(job);
    assert s == head + job.chainId + middle + job.paramsJson;
    i, j := |head|, |head| + |job.chainId| + |middle|;
    assert s[i..i + |job.chainId|] == job.chainId && s[j..j + |job.paramsJson|] == job.paramsJson;
  }
}
