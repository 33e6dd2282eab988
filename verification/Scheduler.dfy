/** The job scheduler (src/chain/scheduler.rs): a job table, a run history, and due jobs. */
module Scheduler {
  import opened Prelude
  import opened Strings

  const MIN_INTERVAL_SECS: nat := 30
  const MAX_ACTIVE_JOBS: nat := 100
  const TWO_63: int := 0x8000_0000_0000_0000
  const TWO_64: int := 0x1_0000_0000_0000_0000

  datatype ScheduleSpec = Interval(secs: nat) | Cron(expr: string)

  datatype Job = Job(
    id: string,
    chainId: string,
    intervalSecs: nat,
    paramsJson: string,
    enabled: bool,
    lastRunAt: Option<int>,
    lastOutput: Option<string>,
    runCount: nat,
    createdAt: int,
    cronExpr: Option<string>)

  datatype HistoryEntry = HistoryEntry(jobId: string, chainId: string, output: string, changed: bool, runAt: int)

  datatype RunResult = RunResult(jobId: string, chainId: string, output: string, changed: bool,
                                 previousOutput: Option<string>, runNumber: nat)

  datatype ScheduleError = IntervalTooShort | InvalidCron | TooManyActiveJobs | DuplicateJobId

  /** The cron crate, left uninterpreted: which expressions `validate_cron` accepts, and which jobs are due by it. */
  datatype CronEngine = CronEngine(valid: string -> bool, due: (string, Option<int>, int) -> bool)

  datatype Tables = Tables(jobs: seq<Job>, history: seq<HistoryEntry>)

  /** An `i64` after wrap-around. */
  function Wrap64(n: int): int { (n + TWO_63) % TWO_64 - TWO_63 }

  /** `interval_secs as i64 * 1000` in a release build. */
  function IntervalMillis(secs: nat): int { Wrap64(1000 * secs) }

  predicate UsesInterval(job: Job) { job.cronExpr.None? || job.cronExpr.value == "" }

  predicate IsDue(cron: CronEngine, job: Job, now: int) {
    && job.enabled
    && if !UsesInterval(job) then cron.due(job.cronExpr.value, job.lastRunAt, now)
       else job.lastRunAt.None? || now - job.lastRunAt.value >= IntervalMillis(job.intervalSecs)
  }

  function FindJob(jobs: seq<Job>, id: string): (r: Option<nat>)
    ensures r.Some? ==> r.value < |jobs| && jobs[r.value].id == id
    ensures r.None? ==> forall i :: 0 <= i < |jobs| ==> jobs[i].id != id
  {
    if jobs == [] then None
    else if jobs[|jobs| - 1].id == id then Some(|jobs| - 1)
    else FindJob(jobs[..|jobs| - 1], id)
  }

  function ActiveCount(jobs: seq<Job>): nat {
    if jobs == [] then 0 else ActiveCount(jobs[..|jobs| - 1]) + if jobs[|jobs| - 1].enabled then 1 else 0
  }

  function JobId(chainId: string, now: nat): string { "sched_" + chainId + "_" + Decimal(now) }

  // ---------------------------------------------------------------------------------------
  // The operations on tables
  // ---------------------------------------------------------------------------------------

  function ScheduleCheck(cron: CronEngine, jobs: seq<Job>, id: string, spec: ScheduleSpec): Option<ScheduleError> {
    if spec.Interval? && spec.secs < MIN_INTERVAL_SECS then Some(IntervalTooShort)
    else if spec.Cron? && !cron.valid(spec.expr) then Some(InvalidCron)
    else if ActiveCount(jobs) >= MAX_ACTIVE_JOBS then Some(TooManyActiveJobs)
    else if FindJob(jobs, id).Some? then Some(DuplicateJobId)
    else None
  }

  function NewJob(id: string, chainId: string, spec: ScheduleSpec, paramsJson: string, now: int): Job {
    Job(id, chainId, if spec.Interval? then spec.secs else 0, paramsJson, true, None, None, 0, now,
        if spec.Interval? then None else Some(spec.expr))
  }

  function AfterRun(job: Job, output: string, now: int): Job {
    job.(lastRunAt := Some(now), lastOutput := Some(output), runCount := job.runCount + 1)
  }

  function RunEntry(job: Job, output: string, now: int): HistoryEntry {
    HistoryEntry(job.id, job.chainId, output, job.lastOutput != Some(output), now)
  }

  function Recorded(t: Tables, id: string, output: string, now: int): Tables {
    match FindJob(t.jobs, id)
    case None => t
    case Some(i) => Tables(t.jobs[i := AfterRun(t.jobs[i], output, now)], t.history + [RunEntry(t.jobs[i], output, now)])
  }

  /** The result of a recording, none for an unknown job. */
  function Reported(jobs: seq<Job>, id: string, output: string): Option<RunResult> {
    match FindJob(jobs, id)
    case None => None
    case Some(i) =>
      Some(RunResult(id, jobs[i].chainId, output, jobs[i].lastOutput != Some(output), jobs[i].lastOutput, jobs[i].runCount + 1))
  }

  function WithEnabled(t: Tables, id: string, enabled: bool): Tables {
    match FindJob(t.jobs, id)
    case None => t
    case Some(i) => t.(jobs := t.jobs[i := t.jobs[i].(enabled := enabled)])
  }

  function DueAmong(cron: CronEngine, jobs: seq<Job>, now: int): seq<Job> {
    if jobs == [] then []
    else DueAmong(cron, jobs[..|jobs| - 1], now) + if IsDue(cron, jobs[|jobs| - 1], now) then [jobs[|jobs| - 1]] else []
  }

  class Scheduler {
    var jobs: seq<Job>
    var history: seq<HistoryEntry>
    const cron: CronEngine

    function Contents(): Tables
      reads this
    {
      Tables(jobs, history)
    }

    constructor (cron: CronEngine)
      ensures this.cron == cron && Contents() == Tables([], [])
    {
      this.cron, jobs, history := cron, [], [];
    }

    /** The id and the creation time come from two readings of the clock. */
    method Schedule(chainId: string, spec: ScheduleSpec, paramsJson: string, idTime: nat, now: int)
      returns (r: Result<string, ScheduleError>)
      modifies this`jobs
      ensures r.Ok? ==> |jobs| == |old(jobs)| + 1
      ensures r.Ok? ==> var job := jobs[|jobs| - 1];
        && job.chainId == chainId && job.paramsJson == paramsJson && job.createdAt == now && job.enabled && job.lastRunAt.None?
        && (spec.Interval? ==> job.intervalSecs == spec.secs && job.cronExpr.None?) && (spec.Cron? ==> job.cronExpr == Some(spec.expr))
      ensures match ScheduleCheck(cron, old(jobs), JobId(chainId, idTime), spec)
              case Some(e) => r == Err(e) && jobs == old(jobs)
              case None =>
                r == Ok(JobId(chainId, idTime)) && jobs == old(jobs) + [NewJob(JobId(chainId, idTime), chainId, spec, paramsJson, now)]
    {
      match spec {
        case Interval(secs) =>
          if secs < MIN_INTERVAL_SECS {
            return Err(IntervalTooShort);
          }
        case Cron(expr) =>
          if !cron.valid(expr) {
            return Err(InvalidCron);
          }
      }
      if ActiveCount(jobs) >= MAX_ACTIVE_JOBS {
        return Err(TooManyActiveJobs);
      }
      var id := JobId(chainId, idTime);
      if FindJob(jobs, id).Some? {
        return Err(DuplicateJobId);
      }
      jobs := jobs + [NewJob(id, chainId, spec, paramsJson, now)];
      return Ok(id);
    }

    method DueJobs(now: int) returns (due: seq<Job>)
      ensures due == DueAmong(cron, jobs, now)
    {
      due := [];
      for i := 0 to |jobs|
        invariant due == DueAmong(cron, jobs[..i], now)
      {
        assert jobs[..i + 1][..i] == jobs[..i];
        if IsDue(cron, jobs[i], now) {
          due := due + [jobs[i]];
        }
      }
      assert jobs[..|jobs|] == jobs;
    }

    /** Fails for an unknown job, leaving both tables as they were. */
    method RecordRun(jobId: string, output: string, now: int) returns (r: Option<RunResult>)
      modifies this
      ensures Contents() == Recorded(old(Contents()), jobId, output, now)
      ensures r == Reported(old(jobs), jobId, output)
      ensures FindJob(old(jobs), jobId).Some? ==>
        var job := old(jobs)[FindJob(old(jobs), jobId).value];
        history == old(history) + [HistoryEntry(jobId, job.chainId, output, job.lastOutput != Some(output), now)]
    {
      var found := FindJob(jobs, jobId);
      var previous := if found.Some? then jobs[found.value].lastOutput else None;
      var changed := previous != Some(output);
      if found.None? {
        return None;
      }
      var i := found.value;
      jobs := jobs[i := jobs[i].(lastRunAt := Some(now), lastOutput := Some(output), runCount := jobs[i].runCount + 1)];
      history := history + [HistoryEntry(jobId, jobs[i].chainId, output, changed, now)];
      r := Some(RunResult(jobId, jobs[i].chainId, output, changed, previous, jobs[i].runCount));
    }

    method Disable(jobId: string)
      modifies this`jobs
      ensures Contents() == WithEnabled(old(Contents()), jobId, false)
    {
      var found := FindJob(jobs, jobId);
      if found.Some? {
        jobs := jobs[found.value := jobs[found.value].(enabled := false)];
      }
    }

    /** The cap on active jobs is not checked here. */
    method Enable(jobId: string)
      modifies this`jobs
      ensures Contents() == WithEnabled(old(Contents()), jobId, true)
    {
      var found := FindJob(jobs, jobId);
      if found.Some? {
        jobs := jobs[found.value := jobs[found.value].(enabled := true)];
      }
    }
  }

  // ---------------------------------------------------------------------------------------
  // Job ids and intervals
  // ---------------------------------------------------------------------------------------

  /** Two schedule calls produce the same id only for the same chain in the same millisecond. */
  lemma {:induction false} JobIdsAreInjective(chain: string, now: nat, chain': string, now': nat)
    ensures JobId(chain, now) == JobId(chain', now') <==> chain == chain' && now == now'
  {
    if JobId(chain, now) == JobId(chain', now') {
      var d, d', id := Decimal(now), Decimal(now'), JobId(chain, now);
      LastUnderscore(chain, now);
      LastUnderscore(chain', now');
      assert |d| == |d'|;
      assert d == id[|id| - |d|..] == d';
      DecimalInjective(now, now');
      assert chain == id[6..|id| - |d| - 1] == chain';
    }
  }

  lemma {:induction false} LastUnderscore(chain: string, now: nat)
    ensures var id, d := JobId(chain, now), Decimal(now);
            id[|id| - |d| - 1] == '_' && forall i :: |id| - |d| <= i < |id| ==> id[i] != '_'
  {
    var id, d := JobId(chain, now), Decimal(now);
    assert id == ("sched_" + chain + "_") + d;
    forall i | |id| - |d| <= i < |id|
      ensures id[i] != '_'
    {
      assert id[i] == d[i - (|id| - |d|)] && IsDigit(id[i]);
    }
  }

  /** The product is the interval exactly when it fits an `i64`; an interval of 2^61 seconds counts as no wait at all. */
  lemma {:induction false} IntervalFits(secs: nat)
    ensures IntervalMillis(secs) == 1000 * secs <==> 1000 * secs < TWO_63
    ensures IntervalMillis(0x2000_0000_0000_0000) == 0
  {
  }

  /** An interval job is never due early, whatever the clock shows, if and only if its interval fits an `i64`. */
  lemma {:induction false} NeverEarlyIffIntervalFits(cron: CronEngine, job: Job)
    requires job.enabled && UsesInterval(job) && job.lastRunAt.Some?
    ensures (forall now :: IsDue(cron, job, now) ==> now - job.lastRunAt.value >= 1000 * job.intervalSecs)
       <==> 1000 * job.intervalSecs < TWO_63
  {
    if 1000 * job.intervalSecs >= TWO_63 {
      var early := job.lastRunAt.value + IntervalMillis(job.intervalSecs);
      assert IsDue(cron, job, early) && early - job.lastRunAt.value < 1000 * job.intervalSecs;
    }
  }

  /** A job without a cron expression is due exactly if it is enabled and never ran or its interval has passed. */
  lemma {:induction false} IntervalJobDueIff(cron: CronEngine, job: Job, now: int)
    requires job.cronExpr.None? || |job.cronExpr.value| == 0
    requires 1000 * job.intervalSecs < TWO_63
    ensures IsDue(cron, job, now)
       <==> job.enabled && (job.lastRunAt.None? || now - job.lastRunAt.value >= 1000 * job.intervalSecs)
  {
    IntervalFits(job.intervalSecs);
  }

  /** A job with a cron expression is due exactly if it is enabled and the cron engine says so. */
  lemma {:induction false} CronJobDueIff(cron: CronEngine, job: Job, now: int)
    requires job.cronExpr.Some? && |job.cronExpr.value| > 0
    ensures IsDue(cron, job, now) <==> job.enabled && cron.due(job.cronExpr.value, job.lastRunAt, now)
  {
  }

  /** The wrapped interval is the only 64-bit number that differs from the product by a multiple of 2^64. */
  lemma {:induction false} WrapIsUnique(n: int, w: int, k: int)
    requires -0x8000_0000_0000_0000 <= w < 0x8000_0000_0000_0000 && n == w + k * 0x1_0000_0000_0000_0000
    ensures Wrap64(n) == w
  {
    var m := n + TWO_63;
    assert m == (w + TWO_63) + k * TWO_64 && 0 <= w + TWO_63 < TWO_64;
    assert m / TWO_64 == k;
  }

  /** The positions of the enabled jobs. */
  ghost function EnabledAt(jobs: seq<Job>): set<nat> { set i: nat | i < |jobs| && jobs[i].enabled }

  lemma {:induction false} ActiveCountIs(jobs: seq<Job>)
    ensures ActiveCount(jobs) == |EnabledAt(jobs)|
  {
    if jobs == [] {
      assert EnabledAt(jobs) == {};
    } else {
      var n := |jobs| - 1;
      ActiveCountIs(jobs[..n]);
      var before := EnabledAt(jobs[..n]);
      assert EnabledAt(jobs) == if jobs[n].enabled then before + {n} else before;
    }
  }

  /** A schedule is accepted exactly if its interval is thirty seconds or more or its expression is valid, fewer than a hundred jobs are enabled, and the id is unused. */
  lemma {:induction false} AcceptedIff(cron: CronEngine, jobs: seq<Job>, id: string, spec: ScheduleSpec)
    ensures ScheduleCheck(cron, jobs, id, spec).None?
       <==> && (spec.Interval? ==> spec.secs >= 30) && (spec.Cron? ==> cron.valid(spec.expr))
            && |EnabledAt(jobs)| < 100
            && forall i :: 0 <= i < |jobs| ==> jobs[i].id != id
  {
    ActiveCountIs(jobs);
  }

  /** Enabling or disabling touches the flag of the job and nothing else. */
  lemma {:induction false} OnlyTheFlagChanges(t: Tables, id: string, enabled: bool, i: nat)
    requires i < |t.jobs|
    ensures var t' := WithEnabled(t, id, enabled);
            && t'.history == t.history && |t'.jobs| == |t.jobs| && t'.jobs[i].(enabled := t.jobs[i].enabled) == t.jobs[i]
            && (t.jobs[i].id != id ==> t'.jobs[i] == t.jobs[i])
            && (FindJob(t.jobs, id) == Some(i) ==> t'.jobs[i].enabled == enabled)
  {
  }
}
