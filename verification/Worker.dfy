/** The durable job worker: claims, outcomes, crashes, stale sweeps and duplicate deliveries. */
module Worker {
  import opened Prelude

  datatype JobStatus = Pending | Processing | Completed | Failed | DeadLetter

  datatype Job = Job(name: string, key: string, status: JobStatus, attempts: nat, maxAttempts: nat,
                     availableAt: int, startedAt: Option<int>)

  /** A run holds its job from its claim until it writes an outcome or dies. */
  datatype Phase = Claimed | Loaded(attempts: nat, maxAttempts: nat) | Crashed | Finished

  datatype Runner = Runner(job: nat, phase: Phase)

  datatype Desk = Desk(jobs: seq<Job>, runners: seq<Runner>)

  const EMPTY := Desk([], [])

  const DEFAULT_MAX_ATTEMPTS: nat := 5
  const SWEEP_JOB := "maintenance.jobs.sweep"
  const REPLAY_JOB := "realtime.outbox.replay"
  const DERIVATIVES_JOB := "evidence.derivatives.generate"

  predicate Supported(name: string) { name == SWEEP_JOB || name == REPLAY_JOB || name == DERIVATIVES_JOB }

  predicate Claimable(job: Job) { job.status == Pending || job.status == Failed }

  predicate Terminal(job: Job) { job.status == Completed || job.status == DeadLetter }

  predicate Live(r: Runner) { r.phase.Claimed? || r.phase.Loaded? }

  // ---------- steps ----------

  datatype Move = Enqueue(name: string, key: string, maxAttempts: Option<nat>, availableAt: int)
                | Deliver(job: nat, at: int)
                | Load(k: nat)
                | Finish(k: nat, ok: bool, at: int)
                | Crash(k: nat)
                | SweepStale(cutoff: int)

  predicate KeyTaken(jobs: seq<Job>, key: string) { exists j :: j in jobs && j.key == key }

  /** An absent or zero limit takes the column's default. */
  function Limit(maxAttempts: Option<nat>): nat {
    if maxAttempts.Some? && maxAttempts.value > 0 then maxAttempts.value else DEFAULT_MAX_ATTEMPTS
  }

  function NewJob(name: string, key: string, maxAttempts: Option<nat>, availableAt: int): Job {
    Job(name, key, Pending, 0, Limit(maxAttempts), availableAt, None)
  }

  function Power(n: nat): nat { if n == 0 then 1 else 2 * Power(n - 1) }

  lemma {:induction false} PowerTable(n: nat)
    ensures n <= 5 ==> Power(n) == [1, 2, 4, 8, 16, 32][n]
    ensures n > 5 ==> Power(n) >= 64
  {
    if n > 0 { PowerTable(n - 1); }
  }

  /** Exponential backoff in milliseconds, capped at a minute. */
  function Backoff(attempts: nat): (delay: nat)
    ensures attempts <= 5 ==> delay == [1000, 2000, 4000, 8000, 16000, 32000][attempts]
    ensures attempts > 5 ==> delay == 60000
  {
    PowerTable(attempts);
    if Power(attempts) < 60 then Power(attempts) * 1000 else 60000
  }

  function AfterFailure(job: Job, attempts: nat, maxAttempts: nat, at: int): Job {
    job.(status := if attempts >= maxAttempts then DeadLetter else Failed, availableAt := at + Backoff(attempts))
  }

  function Claim(job: Job, at: int): Job { job.(status := Processing, attempts := job.attempts + 1, startedAt := Some(at)) }

  predicate Stale(job: Job, cutoff: int) { job.status == Processing && job.startedAt.Some? && job.startedAt.value < cutoff }

  function Recovered(job: Job, cutoff: int): Job {
    if Stale(job, cutoff) then job.(status := Pending, startedAt := None) else job
  }

  function SetPhase(desk: Desk, k: nat, phase: Phase): Desk
    requires k < |desk.runners|
  {
    desk.(runners := desk.runners[k := desk.runners[k].(phase := phase)])
  }

  function Outcome(job: Job, attempts: nat, maxAttempts: nat, ok: bool, at: int): Job {
    if ok && Supported(job.name) then job.(status := Completed) else AfterFailure(job, attempts, maxAttempts, at)
  }

  function Step(desk: Desk, move: Move): Desk {
    match move
    case Enqueue(name, key, maxAttempts, availableAt) =>
      if KeyTaken(desk.jobs, key) then desk else desk.(jobs := desk.jobs + [NewJob(name, key, maxAttempts, availableAt)])
    case Deliver(j, at) =>
      if j >= |desk.jobs| || !Claimable(desk.jobs[j]) then desk
      else Desk(desk.jobs[j := Claim(desk.jobs[j], at)], desk.runners + [Runner(j, Claimed)])
    case Load(k) =>
      if k >= |desk.runners| || !desk.runners[k].phase.Claimed? || desk.runners[k].job >= |desk.jobs| then desk
      else SetPhase(desk, k, Loaded(desk.jobs[desk.runners[k].job].attempts, desk.jobs[desk.runners[k].job].maxAttempts))
    case Finish(k, ok, at) =>
      if k >= |desk.runners| || !desk.runners[k].phase.Loaded? || desk.runners[k].job >= |desk.jobs| then desk
      else
        var r := desk.runners[k];
        var after := Outcome(desk.jobs[r.job], r.phase.attempts, r.phase.maxAttempts, ok, at);
        SetPhase(desk, k, Finished).(jobs := desk.jobs[r.job := after])
    case Crash(k) =>
      if k >= |desk.runners| || !Live(desk.runners[k]) then desk else SetPhase(desk, k, Crashed)
    case SweepStale(cutoff) => desk.(jobs := Map(j => Recovered(j, cutoff), desk.jobs))
  }

  function Run(desk: Desk, moves: seq<Move>): Desk {
    if moves == [] then desk else Step(Run(desk, moves[..|moves| - 1]), moves[|moves| - 1])
  }

  predicate HasLive(desk: Desk, j: nat) { exists r :: r in desk.runners && r.job == j && Live(r) }

  /** The stale threshold is long enough: a sweep only reaches jobs whose runner has died. */
  predicate SafeSweep(desk: Desk, move: Move) {
    move.SweepStale? ==> forall j :: 0 <= j < |desk.jobs| && Stale(desk.jobs[j], move.cutoff) ==> !HasLive(desk, j)
  }

  predicate SafeRun(desk: Desk, moves: seq<Move>) {
    moves != [] ==>
      && SafeRun(desk, moves[..|moves| - 1])
      && SafeSweep(Run(desk, moves[..|moves| - 1]), moves[|moves| - 1])
  }

  // ---------- the table ----------

  /** Processing for longer than the cutoff allows, so taken for abandoned. */
  predicate Abandoned(job: Job, cutoff: int) { job.status == Processing && job.startedAt.Some? && job.startedAt.value < cutoff }

  /** A sweep's effect on one row: an abandoned one is pending again, with its attempts spent. */
  predicate SweptTo(before: Job, cutoff: int, after: Job) {
    after == if Abandoned(before, cutoff) then before.(status := Pending, startedAt := None) else before
  }

  /** The row after a run of its own that began with its claim at `at`: completed iff the work of a known
      kind of job succeeded, dead iff the attempt just spent was its last, else failed and put off. */
  predicate RanTo(before: Job, ok: bool, at: int, cutoff: int, after: Job) {
    var attempts, done := before.attempts + 1, ok && before.name in {SWEEP_JOB, REPLAY_JOB, DERIVATIVES_JOB};
    && after.name == before.name && after.key == before.key && after.maxAttempts == before.maxAttempts
    && after.attempts == attempts
    && after.startedAt == (if ok && before.name == SWEEP_JOB && at < cutoff then None else Some(at))
    && after.status == (if done then Completed else if attempts >= before.maxAttempts then DeadLetter else Failed)
    && after.availableAt == (if done then before.availableAt else at + Backoff(attempts))
  }

  /** The rows a table gains when a job is asked for under a key. */
  function Added(jobs: seq<Job>, name: string, key: string, limit: nat, availableAt: int): seq<Job> {
    if exists j :: j in jobs && j.key == key then [] else [Job(name, key, Pending, 0, limit, availableAt, None)]
  }

  class JobTable {
    var desk: Desk

    constructor ()
      ensures desk == Desk([], [])
    {
      desk := Desk([], []);
    }

    /** A taken key reads as already scheduled. */
    method EnqueueBackgroundJob(name: string, key: string, maxAttempts: Option<nat>, availableAt: int) returns (scheduled: bool)
      modifies this
      ensures desk == Step(old(desk), Enqueue(name, key, maxAttempts, availableAt))
      ensures scheduled <==> forall j :: j in old(desk).jobs ==> j.key != key
      ensures desk == old(desk).(jobs := old(desk).jobs
        + Added(old(desk).jobs, name, key, if maxAttempts == None || maxAttempts == Some(0) then 5 else maxAttempts.value, availableAt))
      ensures KeyTaken(desk.jobs, key)
    {
      if KeyTaken(desk.jobs, key) {
        return false;
      }
      var job := NewJob(name, key, maxAttempts, availableAt);
      desk := desk.(jobs := desk.jobs + [job]);
      assert desk.jobs[|desk.jobs| - 1] == job;
      return true;
    }

    /** One delivery run to its end without interruption; `ok` is what the job's own work did. The work of
        a sweep job is a sweep. */
    method RunBackgroundJob(j: nat, ok: bool, at: int, cutoff: int) returns (claimed: bool)
      modifies this
      ensures claimed <==> j < |old(desk).jobs| && Claimable(old(desk).jobs[j])
      ensures desk == if claimed then Run(old(desk), RunMoves(old(desk), j, ok, at, cutoff)) else old(desk)
      ensures claimed ==>
        && desk.runners == old(desk).runners + [Runner(j, Finished)] && |desk.jobs| == |old(desk).jobs|
        && RanTo(old(desk).jobs[j], ok, at, cutoff, desk.jobs[j])
      ensures forall i :: 0 <= i < |old(desk).jobs| && i != j ==>
        if claimed && ok && old(desk).jobs[j].name == SWEEP_JOB then SweptTo(old(desk).jobs[i], cutoff, desk.jobs[i])
        else desk.jobs[i] == old(desk).jobs[i]
    {
      if j >= |desk.jobs| || desk.jobs[j].status !in {Pending, Failed} {
        return false;
      }
      var k := |desk.runners|;
      ghost var start := desk;
      desk := Desk(desk.jobs[j := Claim(desk.jobs[j], at)], desk.runners + [Runner(j, Claimed)]);
      ghost var claim := desk;
      var record := desk.jobs[j];
      desk := SetPhase(desk, k, Loaded(record.attempts, record.maxAttempts));
      ghost var load := desk;
      if ok && record.name == SWEEP_JOB {
        var recovered := SweepStuckJobs(cutoff);
      }
      ghost var work := desk;
      var row := desk.jobs[j];
      if ok && Supported(record.name) {
        row := row.(status := Completed);
      } else {
        var exhausted := record.attempts >= record.maxAttempts;
        row := row.(status := if exhausted then DeadLetter else Failed, availableAt := at + Backoff(record.attempts));
      }
      desk := SetPhase(desk, k, Finished).(jobs := desk.jobs[j := row]);
      RunIsSteps(start, j, ok, at, cutoff);
      return true;
    }

    method SweepStuckJobs(cutoff: int) returns (recovered: nat)
      modifies this
      ensures desk == Step(old(desk), SweepStale(cutoff))
      ensures recovered == |set j | 0 <= j < |old(desk).jobs| && Abandoned(old(desk).jobs[j], cutoff)|
      ensures desk.runners == old(desk).runners && |desk.jobs| == |old(desk).jobs|
      ensures forall j :: 0 <= j < |old(desk).jobs| ==> SweptTo(old(desk).jobs[j], cutoff, desk.jobs[j])
    {
      var jobs := desk.jobs;
      recovered := 0;
      for j := 0 to |jobs|
        invariant desk == old(desk) && |jobs| == |desk.jobs|
        invariant forall i :: 0 <= i < |jobs| ==> jobs[i] == if i < j then Recovered(desk.jobs[i], cutoff) else desk.jobs[i]
        invariant recovered == |StaleBelow(desk.jobs, cutoff, j)|
      {
        StaleSnoc(desk.jobs, cutoff, j);
        if Stale(jobs[j], cutoff) {
          jobs := jobs[j := jobs[j].(status := Pending, startedAt := None)];
          recovered := recovered + 1;
        }
      }
      assert StaleBelow(desk.jobs, cutoff, |jobs|) == set j | 0 <= j < |desk.jobs| && Abandoned(desk.jobs[j], cutoff);
      desk := desk.(jobs := jobs);
    }

    /** One row per recurring job and five-minute bucket, however many replicas ask. A create that fails is
        passed over, whether its key was taken or the database refused it. */
    method EnsureRecurringMaintenance(bucket: string, at: int, sweepFails: bool, replayFails: bool)
      modifies this
      ensures var sweep, replay := SWEEP_JOB + ":" + bucket, REPLAY_JOB + ":" + bucket;
        desk == old(desk).(jobs := old(desk).jobs
          + (if sweepFails then [] else Added(old(desk).jobs, SWEEP_JOB, sweep, 5, at))
          + (if replayFails then [] else Added(old(desk).jobs, REPLAY_JOB, replay, 5, at)))
      ensures KeyTaken(desk.jobs, SWEEP_JOB + ":" + bucket) <==> KeyTaken(old(desk).jobs, SWEEP_JOB + ":" + bucket) || !sweepFails
      ensures KeyTaken(desk.jobs, REPLAY_JOB + ":" + bucket) <==> KeyTaken(old(desk).jobs, REPLAY_JOB + ":" + bucket) || !replayFails
    {
      assert (SWEEP_JOB + ":" + bucket)[0] != (REPLAY_JOB + ":" + bucket)[0];
      KeysStay(desk, Recurring(SWEEP_JOB, bucket, at), REPLAY_JOB + ":" + bucket);
      if !sweepFails {
        var swept := EnqueueBackgroundJob(SWEEP_JOB, SWEEP_JOB + ":" + bucket, None, at);
      }
      KeysStay(desk, Recurring(REPLAY_JOB, bucket, at), SWEEP_JOB + ":" + bucket);
      if !replayFails {
        var replayed := EnqueueBackgroundJob(REPLAY_JOB, REPLAY_JOB + ":" + bucket, None, at);
      }
    }
  }

  function RunMoves(desk: Desk, j: nat, ok: bool, at: int, cutoff: int): seq<Move>
    requires j < |desk.jobs|
  {
    var k := |desk.runners|;
    [Deliver(j, at), Load(k)] + (if ok && desk.jobs[j].name == SWEEP_JOB then [SweepStale(cutoff)] else []) + [Finish(k, ok, at)]
  }

  lemma RunSnoc(desk: Desk, moves: seq<Move>, move: Move)
    ensures Run(desk, moves + [move]) == Step(Run(desk, moves), move)
  {
    assert (moves + [move])[..|moves|] == moves;
  }

  lemma RunIsSteps(desk: Desk, j: nat, ok: bool, at: int, cutoff: int)
    requires j < |desk.jobs|
    ensures var k := |desk.runners|;
      var load := Step(Step(desk, Deliver(j, at)), Load(k));
      var work := if ok && desk.jobs[j].name == SWEEP_JOB then Step(load, SweepStale(cutoff)) else load;
      Run(desk, RunMoves(desk, j, ok, at, cutoff)) == Step(work, Finish(k, ok, at))
  {
    var k := |desk.runners|;
    var deliver, load, finish := Deliver(j, at), Load(k), Finish(k, ok, at);
    RunSnoc(desk, [], deliver);
    RunSnoc(desk, [deliver], load);
    assert [] + [deliver] == [deliver] && [deliver] + [load] == [deliver, load];
    if ok && desk.jobs[j].name == SWEEP_JOB {
      RunSnoc(desk, [deliver, load], SweepStale(cutoff));
      RunSnoc(desk, [deliver, load] + [SweepStale(cutoff)], finish);
    } else {
      assert [deliver, load] + [] == [deliver, load];
      RunSnoc(desk, [deliver, load], finish);
    }
  }

  function StaleBelow(jobs: seq<Job>, cutoff: int, n: nat): set<int>
    requires n <= |jobs|
  {
    set j | 0 <= j < n && Stale(jobs[j], cutoff)
  }

  lemma StaleSnoc(jobs: seq<Job>, cutoff: int, n: nat)
    requires n < |jobs|
    ensures |StaleBelow(jobs, cutoff, n + 1)| == |StaleBelow(jobs, cutoff, n)| + (if Stale(jobs[n], cutoff) then 1 else 0)
  {
    var before := StaleBelow(jobs, cutoff, n);
    assert StaleBelow(jobs, cutoff, n + 1) == if Stale(jobs[n], cutoff) then before + {n} else before;
  }

  predicate Due(job: Job, now: int, workerMaxAttempts: nat) {
    Claimable(job) && job.availableAt <= now && job.attempts < workerMaxAttempts
  }

  function Recurring(name: string, bucket: string, at: int): Move { Enqueue(name, name + ":" + bucket, None, at) }

  lemma KeysStay(desk: Desk, move: Move, key: string)
    requires move.Enqueue?
    ensures KeyTaken(desk.jobs, key) ==> KeyTaken(Step(desk, move).jobs, key)
    ensures KeyTaken(Step(desk, move).jobs, key) ==> KeyTaken(desk.jobs, key) || move.key == key
  {
    if KeyTaken(desk.jobs, key) {
      var j :| j in desk.jobs && j.key == key;
      assert j in Step(desk, move).jobs;
    }
  }

  /** A second replica in the same bucket adds nothing. */
  lemma RecurringOnce(desk: Desk, bucket: string, at: int, again: int)
    ensures var once := Step(Step(desk, Recurring(SWEEP_JOB, bucket, at)), Recurring(REPLAY_JOB, bucket, at));
      Step(Step(once, Recurring(SWEEP_JOB, bucket, again)), Recurring(REPLAY_JOB, bucket, again)) == once
  {
    var first := Step(desk, Recurring(SWEEP_JOB, bucket, at));
    var once := Step(first, Recurring(REPLAY_JOB, bucket, at));
    assert KeyTaken(first.jobs, SWEEP_JOB + ":" + bucket) by {
      assert !KeyTaken(desk.jobs, SWEEP_JOB + ":" + bucket) ==> first.jobs[|desk.jobs|].key == SWEEP_JOB + ":" + bucket;
    }
    KeysStay(first, Recurring(REPLAY_JOB, bucket, at), SWEEP_JOB + ":" + bucket);
    assert KeyTaken(once.jobs, REPLAY_JOB + ":" + bucket) by {
      assert !KeyTaken(first.jobs, REPLAY_JOB + ":" + bucket) ==> once.jobs[|first.jobs|].key == REPLAY_JOB + ":" + bucket;
    }
  }

  // ---------- what every run keeps ----------

  /** How often job `j` was claimed, and how many of those runs died. */
  function Claims(runners: seq<Runner>, j: nat): nat {
    if runners == [] then 0
    else Claims(runners[..|runners| - 1], j) + (if runners[|runners| - 1].job == j then 1 else 0)
  }

  function Crashes(runners: seq<Runner>, j: nat): nat {
    if runners == [] then 0
    else Crashes(runners[..|runners| - 1], j) + (if runners[|runners| - 1] == Runner(j, Crashed) then 1 else 0)
  }

  lemma {:induction false} PhaseCounts(runners: seq<Runner>, k: nat, phase: Phase, j: nat)
    requires k < |runners|
    ensures Claims(runners[k := runners[k].(phase := phase)], j) == Claims(runners, j)
    ensures Crashes(runners[k := runners[k].(phase := phase)], j) + (if runners[k] == Runner(j, Crashed) then 1 else 0)
      == Crashes(runners, j) + (if runners[k].job == j && phase.Crashed? then 1 else 0)
  {
    var n := |runners| - 1;
    var after := runners[k := runners[k].(phase := phase)];
    if k < n {
      assert after[..n] == runners[..n][k := runners[..n][k].(phase := phase)];
      PhaseCounts(runners[..n], k, phase, j);
    } else {
      assert after[..n] == runners[..n];
    }
  }

  lemma MoreRunners(runners: seq<Runner>, r: Runner, j: nat)
    requires r.phase.Claimed?
    ensures Claims(runners + [r], j) == Claims(runners, j) + (if r.job == j then 1 else 0)
    ensures Crashes(runners + [r], j) == Crashes(runners, j)
  {
    assert (runners + [r])[..|runners|] == runners;
  }

  /** A live runner's job is being processed, and what it read is still so. */
  predicate RunnerSound(jobs: seq<Job>, r: Runner) {
    && r.job < |jobs|
    && (Live(r) ==> jobs[r.job].status == Processing)
    && (r.phase.Loaded? ==> r.phase == Loaded(jobs[r.job].attempts, jobs[r.job].maxAttempts))
  }

  predicate OneLiveRunner(runners: seq<Runner>) {
    forall a, b | 0 <= a < b < |runners| :: Live(runners[a]) && Live(runners[b]) ==> runners[a].job != runners[b].job
  }

  /** Attempts spent beyond the limit are paid for by crashes. */
  predicate JobSound(desk: Desk, j: nat)
    requires j < |desk.jobs|
  {
    var job, crashes := desk.jobs[j], Crashes(desk.runners, j);
    && job.maxAttempts >= 1
    && job.attempts == Claims(desk.runners, j)
    && job.attempts <= job.maxAttempts + crashes
    && (job.status == Failed ==> job.attempts < job.maxAttempts)
    && (job.status == DeadLetter ==> job.attempts >= job.maxAttempts)
    && (job.status == Pending ==> job.attempts < job.maxAttempts + crashes)
    && (job.status == Processing && !HasLive(desk, j) ==> job.attempts < job.maxAttempts + crashes)
  }

  predicate Inv(desk: Desk) {
    && (forall k :: 0 <= k < |desk.runners| ==> RunnerSound(desk.jobs, desk.runners[k]))
    && OneLiveRunner(desk.runners)
    && (forall j :: 0 <= j < |desk.jobs| ==> JobSound(desk, j))
    && (forall a, b | 0 <= a < b < |desk.jobs| :: desk.jobs[a].key != desk.jobs[b].key)
  }

  lemma {:induction false} UnknownJob(runners: seq<Runner>, j: nat)
    requires forall r :: r in runners ==> r.job < j
    ensures Claims(runners, j) == 0
  {
    if runners != [] {
      assert runners[|runners| - 1] in runners;
      UnknownJob(runners[..|runners| - 1], j);
    }
  }

  lemma EnqueueKeeps(desk: Desk, move: Move)
    requires Inv(desk) && move.Enqueue?
    ensures Inv(Step(desk, move))
  {
    if !KeyTaken(desk.jobs, move.key) {
      var after := Step(desk, move);
      forall k | 0 <= k < |after.runners| ensures RunnerSound(after.jobs, after.runners[k]) {
        assert RunnerSound(desk.jobs, desk.runners[k]);
      }
      UnknownJob(desk.runners, |desk.jobs|);
      forall j | 0 <= j < |after.jobs| ensures JobSound(after, j) {
        assert j < |desk.jobs| ==> JobSound(desk, j);
      }
      forall a | 0 <= a < |desk.jobs| ensures desk.jobs[a].key != move.key {
        assert desk.jobs[a] in desk.jobs;
      }
    }
  }

  lemma DeliverKeeps(desk: Desk, j: nat, at: int)
    requires Inv(desk) && j < |desk.jobs| && Claimable(desk.jobs[j])
    ensures Inv(Step(desk, Deliver(j, at)))
  {
    var after := Step(desk, Deliver(j, at));
    forall k | 0 <= k < |desk.runners|
      ensures RunnerSound(after.jobs, desk.runners[k]) && !(Live(desk.runners[k]) && desk.runners[k].job == j)
    {
      assert RunnerSound(desk.jobs, desk.runners[k]);
    }
    forall i | 0 <= i < |after.jobs| ensures JobSound(after, i) {
      DeliverKeepsJob(desk, j, at, i);
    }
  }

  lemma DeliverKeepsJob(desk: Desk, j: nat, at: int, i: nat)
    requires j < |desk.jobs| && Claimable(desk.jobs[j]) && i < |desk.jobs| && JobSound(desk, i)
    ensures JobSound(Step(desk, Deliver(j, at)), i)
  {
    var after, entrant := Step(desk, Deliver(j, at)), Runner(j, Claimed);
    MoreRunners(desk.runners, entrant, i);
    assert after.runners[|desk.runners|] == entrant && entrant in after.runners;
    if i != j && HasLive(desk, i) {
      var r :| r in desk.runners && r.job == i && Live(r);
      assert r in after.runners;
    }
  }

  /** Another job's runners are untouched when runner `k` moves on. */
  lemma OthersStayLive(desk: Desk, k: nat, phase: Phase, i: nat)
    requires k < |desk.runners| && desk.runners[k].job != i && HasLive(desk, i)
    ensures HasLive(SetPhase(desk, k, phase), i)
  {
    var r :| r in desk.runners && r.job == i && Live(r);
    var x :| 0 <= x < |desk.runners| && desk.runners[x] == r;
    assert SetPhase(desk, k, phase).runners[x] == r;
  }

  lemma RunnersStayApart(desk: Desk, k: nat, phase: Phase)
    requires OneLiveRunner(desk.runners) && k < |desk.runners|
    requires Live(Runner(0, phase)) ==> Live(desk.runners[k])
    ensures OneLiveRunner(SetPhase(desk, k, phase).runners)
  {
  }

  lemma LoadKeeps(desk: Desk, k: nat)
    requires Inv(desk) && k < |desk.runners| && desk.runners[k].phase.Claimed?
    ensures Inv(Step(desk, Load(k)))
  {
    var r, after := desk.runners[k], Step(desk, Load(k));
    assert RunnerSound(desk.jobs, r);
    RunnersStayApart(desk, k, after.runners[k].phase);
    forall i | 0 <= i < |after.jobs| ensures JobSound(after, i) {
      assert JobSound(desk, i);
      PhaseCounts(desk.runners, k, after.runners[k].phase, i);
      if i == r.job {
        assert after.runners[k] in after.runners;
      } else if HasLive(desk, i) {
        OthersStayLive(desk, k, after.runners[k].phase, i);
      }
    }
  }

  lemma FinishKeeps(desk: Desk, k: nat, ok: bool, at: int)
    requires Inv(desk) && k < |desk.runners| && desk.runners[k].phase.Loaded?
    ensures Inv(Step(desk, Finish(k, ok, at)))
  {
    var r, after := desk.runners[k], Step(desk, Finish(k, ok, at));
    assert RunnerSound(desk.jobs, r);
    RunnersStayApart(desk, k, Finished);
    forall x | 0 <= x < |after.runners| ensures RunnerSound(after.jobs, after.runners[x]) {
      assert RunnerSound(desk.jobs, desk.runners[x]);
    }
    forall i | 0 <= i < |after.jobs| ensures JobSound(after, i) {
      assert JobSound(desk, i);
      PhaseCounts(desk.runners, k, Finished, i);
      if i != r.job && HasLive(desk, i) {
        OthersStayLive(desk, k, Finished, i);
        assert HasLive(after, i);
      }
    }
  }

  lemma CrashKeeps(desk: Desk, k: nat)
    requires Inv(desk) && k < |desk.runners| && Live(desk.runners[k])
    ensures Inv(Step(desk, Crash(k)))
  {
    var r, after := desk.runners[k], Step(desk, Crash(k));
    assert RunnerSound(desk.jobs, r);
    RunnersStayApart(desk, k, Crashed);
    forall i | 0 <= i < |after.jobs| ensures JobSound(after, i) {
      assert JobSound(desk, i);
      PhaseCounts(desk.runners, k, Crashed, i);
      if i != r.job && HasLive(desk, i) { OthersStayLive(desk, k, Crashed, i); }
    }
  }

  lemma SweepKeeps(desk: Desk, cutoff: int)
    requires Inv(desk) && SafeSweep(desk, SweepStale(cutoff))
    ensures Inv(Step(desk, SweepStale(cutoff)))
  {
    var after := Step(desk, SweepStale(cutoff));
    forall k | 0 <= k < |after.runners| ensures RunnerSound(after.jobs, after.runners[k]) {
      var r := desk.runners[k];
      assert RunnerSound(desk.jobs, r);
      assert Live(r) ==> r in desk.runners && HasLive(desk, r.job);
    }
    forall j | 0 <= j < |after.jobs| ensures JobSound(after, j) {
      assert JobSound(desk, j);
      assert HasLive(after, j) <==> HasLive(desk, j);
    }
  }

  lemma StepKeeps(desk: Desk, move: Move)
    requires Inv(desk) && SafeSweep(desk, move)
    ensures Inv(Step(desk, move))
  {
    match move
    case Enqueue(_, _, _, _) => EnqueueKeeps(desk, move);
    case Deliver(j, at) => if j < |desk.jobs| && Claimable(desk.jobs[j]) { DeliverKeeps(desk, j, at); }
    case Load(k) => if k < |desk.runners| && desk.runners[k].phase.Claimed? { LoadKeeps(desk, k); }
    case Finish(k, ok, at) => if k < |desk.runners| && desk.runners[k].phase.Loaded? { FinishKeeps(desk, k, ok, at); }
    case Crash(k) => if k < |desk.runners| && Live(desk.runners[k]) { CrashKeeps(desk, k); }
    case SweepStale(cutoff) => SweepKeeps(desk, cutoff);
  }

  /** A terminal row is never written again. */
  lemma TerminalStays(desk: Desk, move: Move, j: nat)
    requires Inv(desk) && j < |desk.jobs| && Terminal(desk.jobs[j])
    ensures j < |Step(desk, move).jobs| && Step(desk, move).jobs[j] == desk.jobs[j]
  {
    match move
    case Finish(k, _, _) => if k < |desk.runners| { assert RunnerSound(desk.jobs, desk.runners[k]); }
    case _ =>
  }

  predicate Settled(before: Desk, after: Desk) {
    && |before.jobs| <= |after.jobs|
    && forall j :: 0 <= j < |before.jobs| && Terminal(before.jobs[j]) ==> after.jobs[j] == before.jobs[j]
  }

  /** Under duplicate deliveries, crashes anywhere and sweeps that only reach the dead: one live
      runner a job, attempts equal claims and never exceed the limit by more than the crashes,
      failed rows have attempts left, and finished rows are never left. */
  lemma {:induction false} EveryRunKeeps(desk: Desk, moves: seq<Move>)
    requires Inv(desk) && SafeRun(desk, moves)
    ensures Inv(Run(desk, moves)) && Settled(desk, Run(desk, moves))
  {
    if moves != [] {
      var before, move := moves[..|moves| - 1], moves[|moves| - 1];
      EveryRunKeeps(desk, before);
      var middle := Run(desk, before);
      StepKeeps(middle, move);
      forall j | 0 <= j < |middle.jobs| && Terminal(middle.jobs[j])
        ensures j < |Step(middle, move).jobs| && Step(middle, move).jobs[j] == middle.jobs[j]
      {
        TerminalStays(middle, move, j);
      }
      JobsGrow(middle, move);
    }
  }

  lemma JobsGrow(desk: Desk, move: Move)
    ensures |desk.jobs| <= |Step(desk, move).jobs|
  {
  }

  /** Each claim of a job strictly lowers what its crashes and limit still allow. */
  lemma ClaimsAreBounded(moves: seq<Move>, j: nat)
    requires SafeRun(EMPTY, moves) && j < |Run(EMPTY, moves).jobs|
    ensures var desk := Run(EMPTY, moves);
      && Claims(desk.runners, j) == desk.jobs[j].attempts <= desk.jobs[j].maxAttempts + Crashes(desk.runners, j)
      && (Claimable(desk.jobs[j]) ==> Claims(desk.runners, j) < desk.jobs[j].maxAttempts + Crashes(desk.runners, j))
  {
    EveryRunKeeps(EMPTY, moves);
    assert JobSound(Run(EMPTY, moves), j);
  }

  // ---------- jobs the sweep no longer offers ----------

  /** Claimable, yet never due again however long one waits. */
  ghost predicate Stranded(job: Job, workerMaxAttempts: nat) {
    Claimable(job) && forall now :: now >= job.availableAt ==> !Due(job, now, workerMaxAttempts)
  }

  lemma StrandedMeansSpent(job: Job, workerMaxAttempts: nat)
    ensures Stranded(job, workerMaxAttempts) <==> Claimable(job) && job.attempts >= workerMaxAttempts
  {
    assert Due(job, job.availableAt, workerMaxAttempts) <==> Claimable(job) && job.attempts < workerMaxAttempts;
  }

  /** A job that fails `n` times, then dies `c` times and is recovered each time. */
  function Unlucky(name: string, key: string, limit: nat, n: nat, c: nat): seq<Move>
    decreases c, n
  {
    if c > 0 then Unlucky(name, key, limit, n, c - 1) + [Deliver(0, 0), Crash(n + c - 1), SweepStale(1)]
    else if n > 0 then Unlucky(name, key, limit, n - 1, 0) + [Deliver(0, 0), Load(n - 1), Finish(n - 1, false, 0)]
    else [Enqueue(name, key, Some(limit), 0)]
  }

  lemma RunOnThree(desk: Desk, moves: seq<Move>, a: Move, b: Move, c: Move)
    ensures Run(desk, moves + [a, b, c]) == Step(Step(Step(Run(desk, moves), a), b), c)
    ensures (&& SafeRun(desk, moves) && !a.SweepStale? && !b.SweepStale?
             && SafeSweep(Step(Step(Run(desk, moves), a), b), c)) ==> SafeRun(desk, moves + [a, b, c])
  {
    var abc, ab, one := moves + [a, b, c], moves + [a, b], moves + [a];
    assert abc[..|abc| - 1] == ab && ab[..|ab| - 1] == one && one[..|one| - 1] == moves;
    assert Run(desk, one) == Step(Run(desk, moves), a) && Run(desk, ab) == Step(Run(desk, one), b);
  }

  predicate Spent(desk: Desk, name: string, limit: nat, n: nat, c: nat) {
    && |desk.jobs| == 1 && |desk.runners| == n + c
    && desk.jobs[0].name == name && desk.jobs[0].maxAttempts == limit && desk.jobs[0].attempts == n + c
    && Claimable(desk.jobs[0]) && Crashes(desk.runners, 0) == c
    && forall r :: r in desk.runners ==> !Live(r)
  }

  lemma OneClaim(desk: Desk, name: string, limit: nat, n: nat, c: nat)
    requires Spent(desk, name, limit, n, c)
    ensures var claimed := Step(desk, Deliver(0, 0));
      && claimed == Desk([Claim(desk.jobs[0], 0)], desk.runners + [Runner(0, Claimed)])
      && Crashes(claimed.runners, 0) == c
  {
    MoreRunners(desk.runners, Runner(0, Claimed), 0);
  }

  lemma OneLoad(jobs: seq<Job>, before: seq<Runner>)
    requires |jobs| == 1
    ensures Step(Desk(jobs, before + [Runner(0, Claimed)]), Load(|before|))
         == Desk(jobs, before + [Runner(0, Loaded(jobs[0].attempts, jobs[0].maxAttempts))])
  {
  }

  lemma OneFinish(jobs: seq<Job>, before: seq<Runner>, attempts: nat, maxAttempts: nat)
    requires |jobs| == 1
    ensures Step(Desk(jobs, before + [Runner(0, Loaded(attempts, maxAttempts))]), Finish(|before|, false, 0))
         == Desk([AfterFailure(jobs[0], attempts, maxAttempts, 0)], before + [Runner(0, Finished)])
  {
    assert jobs[0 := AfterFailure(jobs[0], attempts, maxAttempts, 0)] == [AfterFailure(jobs[0], attempts, maxAttempts, 0)];
  }

  lemma OneFailure(desk: Desk, name: string, limit: nat, n: nat)
    requires Spent(desk, name, limit, n, 0) && n + 1 < limit
    ensures Spent(Step(Step(Step(desk, Deliver(0, 0)), Load(n)), Finish(n, false, 0)), name, limit, n + 1, 0)
  {
    OneClaim(desk, name, limit, n, 0);
    var job := Claim(desk.jobs[0], 0);
    OneLoad([job], desk.runners);
    OneFinish([job], desk.runners, n + 1, limit);
    assert (desk.runners + [Runner(0, Finished)])[..n] == desk.runners;
  }

  lemma OneDeath(desk: Desk, name: string, limit: nat, n: nat, c: nat)
    requires Spent(desk, name, limit, n, c)
    ensures var dead := Step(Step(desk, Deliver(0, 0)), Crash(n + c));
      SafeSweep(dead, SweepStale(1)) && Spent(Step(dead, SweepStale(1)), name, limit, n, c + 1)
  {
    OneClaim(desk, name, limit, n, c);
    var claimed := Step(desk, Deliver(0, 0));
    var dead := Step(claimed, Crash(n + c));
    PhaseCounts(claimed.runners, n + c, Crashed, 0);
    assert dead.runners == desk.runners + [Runner(0, Crashed)];
  }

  lemma FreshJob(name: string, key: string, limit: nat)
    requires limit >= 1
    ensures var moves := Unlucky(name, key, limit, 0, 0); SafeRun(EMPTY, moves) && Spent(Run(EMPTY, moves), name, limit, 0, 0)
  {
    var enqueue := Enqueue(name, key, Some(limit), 0);
    assert [enqueue][..0] == [];
    assert SafeRun(EMPTY, []) && Run(EMPTY, []) == EMPTY;
    assert Step(EMPTY, enqueue) == Desk([NewJob(name, key, Some(limit), 0)], []);
  }

  lemma OneMoreDeath(moves: seq<Move>, name: string, limit: nat, n: nat, c: nat)
    requires SafeRun(EMPTY, moves) && Spent(Run(EMPTY, moves), name, limit, n, c)
    ensures var more := moves + [Deliver(0, 0), Crash(n + c), SweepStale(1)];
      SafeRun(EMPTY, more) && Spent(Run(EMPTY, more), name, limit, n, c + 1)
  {
    OneDeath(Run(EMPTY, moves), name, limit, n, c);
    RunOnThree(EMPTY, moves, Deliver(0, 0), Crash(n + c), SweepStale(1));
  }

  lemma OneMoreFailure(moves: seq<Move>, name: string, limit: nat, n: nat)
    requires SafeRun(EMPTY, moves) && Spent(Run(EMPTY, moves), name, limit, n, 0) && n + 1 < limit
    ensures var more := moves + [Deliver(0, 0), Load(n), Finish(n, false, 0)];
      SafeRun(EMPTY, more) && Spent(Run(EMPTY, more), name, limit, n + 1, 0)
  {
    OneFailure(Run(EMPTY, moves), name, limit, n);
    RunOnThree(EMPTY, moves, Deliver(0, 0), Load(n), Finish(n, false, 0));
  }

  lemma {:induction false} UnluckyRuns(name: string, key: string, limit: nat, n: nat, c: nat)
    requires n < limit
    ensures SafeRun(EMPTY, Unlucky(name, key, limit, n, c))
    ensures Spent(Run(EMPTY, Unlucky(name, key, limit, n, c)), name, limit, n, c)
    decreases c, n
  {
    if c > 0 {
      UnluckyRuns(name, key, limit, n, c - 1);
      OneMoreDeath(Unlucky(name, key, limit, n, c - 1), name, limit, n, c - 1);
    } else if n > 0 {
      UnluckyRuns(name, key, limit, n - 1, 0);
      OneMoreFailure(Unlucky(name, key, limit, n - 1, 0), name, limit, n - 1);
    } else {
      FreshJob(name, key, limit);
    }
  }

  /** A job of limit `limit` that dies `crashes` times can end stranded. */
  ghost predicate CanStrand(limit: nat, crashes: nat, workerMaxAttempts: nat) {
    exists moves, j: nat :: SafeRun(EMPTY, moves) && StrandedAfter(Run(EMPTY, moves), j, limit, crashes, workerMaxAttempts)
  }

  ghost predicate StrandedAfter(desk: Desk, j: nat, limit: nat, crashes: nat, workerMaxAttempts: nat) {
    && j < |desk.jobs| && desk.jobs[j].maxAttempts == limit && Crashes(desk.runners, j) == crashes
    && Stranded(desk.jobs[j], workerMaxAttempts)
  }

  /** The poll's own limit strands jobs exactly when the row's limit plus its crashes exceed it:
      without crashes, never iff every row's limit is within the worker's. */
  lemma StrandingIff(limit: nat, crashes: nat, workerMaxAttempts: nat)
    requires limit >= 1
    ensures CanStrand(limit, crashes, workerMaxAttempts) <==> limit + crashes > workerMaxAttempts
  {
    if CanStrand(limit, crashes, workerMaxAttempts) {
      var moves, j: nat :| SafeRun(EMPTY, moves) && StrandedAfter(Run(EMPTY, moves), j, limit, crashes, workerMaxAttempts);
      ClaimsAreBounded(moves, j);
      StrandedMeansSpent(Run(EMPTY, moves).jobs[j], workerMaxAttempts);
    }
    if limit + crashes > workerMaxAttempts {
      var moves := Unlucky(SWEEP_JOB, "", limit, limit - 1, crashes);
      UnluckyRuns(SWEEP_JOB, "", limit, limit - 1, crashes);
      StrandedMeansSpent(Run(EMPTY, moves).jobs[0], workerMaxAttempts);
      assert StrandedAfter(Run(EMPTY, moves), 0, limit, crashes, workerMaxAttempts);
    }
  }
}
