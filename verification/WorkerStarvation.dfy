/** Which waiting jobs no poll ever reaches. */
module WorkerStarvation {
  import opened Prelude
  import opened Worker
  import opened WorkerPoll

  // ---------- polls and deliveries ----------

  /** The table, and the jobs some poll has handed to the queues. */
  datatype Station = Station(desk: Desk, offered: set<nat>)

  datatype Act = Poll(now: int) | Do(move: Move)

  function OfferedNow(jobs: seq<Job>, now: int, limit: nat): set<nat> {
    set j: nat | j < |jobs| && Offered(jobs, j, now, limit)
  }

  /** The queues deliver only what some poll has offered, at once or much later, once or repeatedly. */
  function Perform(st: Station, act: Act, limit: nat): Station {
    match act
    case Poll(now) => st.(offered := st.offered + OfferedNow(st.desk.jobs, now, limit))
    case Do(move) => if move.Deliver? && move.job !in st.offered then st else st.(desk := Step(st.desk, move))
  }

  function Play(st: Station, acts: seq<Act>, limit: nat): Station {
    if acts == [] then st else Perform(Play(st, acts[..|acts| - 1], limit), acts[|acts| - 1], limit)
  }

  predicate SafePlay(st: Station, acts: seq<Act>, limit: nat) {
    acts != [] ==>
      && SafePlay(st, acts[..|acts| - 1], limit)
      && (acts[|acts| - 1].Do? ==> SafeSweep(Play(st, acts[..|acts| - 1], limit).desk, acts[|acts| - 1].move))
  }

  lemma {:induction false} PlayConcat(st: Station, a: seq<Act>, b: seq<Act>, limit: nat)
    ensures Play(st, a + b, limit) == Play(Play(st, a, limit), b, limit)
    ensures SafePlay(st, a, limit) && SafePlay(Play(st, a, limit), b, limit) ==> SafePlay(st, a + b, limit)
  {
    if b == [] {
      assert a + b == a;
    } else {
      var n := |b| - 1;
      PlayConcat(st, a, b[..n], limit);
      assert (a + b)[..|a + b| - 1] == a + b[..n] && (a + b)[|a + b| - 1] == b[n];
    }
  }

  // ---------- a full batch nobody takes ----------

  /** The due jobs ahead of a job that no queue will ever take, and those that one will. */
  function UnroutableAhead(jobs: seq<Job>, j: nat, now: int, limit: nat): set<nat> {
    set i: nat | i < |jobs| && IsDue(jobs, i, now, limit) && Precedes(jobs, i, j) && !HasQueue(jobs, i)
  }

  function RoutableAhead(jobs: seq<Job>, j: nat, now: int, limit: nat): set<nat> {
    set i: nat | i < |jobs| && IsDue(jobs, i, now, limit) && Precedes(jobs, i, j) && HasQueue(jobs, i)
  }

  /** A job that is waiting stays as it is until it is delivered. */
  lemma WaitingStays(desk: Desk, move: Move, j: nat)
    requires Inv(desk) && j < |desk.jobs| && Claimable(desk.jobs[j]) && !(move.Deliver? && move.job == j)
    ensures j < |Step(desk, move).jobs| && Step(desk, move).jobs[j] == desk.jobs[j]
  {
    match move
    case Finish(k, _, _) => if k < |desk.runners| { assert RunnerSound(desk.jobs, desk.runners[k]); }
    case _ =>
  }

  predicate Blocks(jobs: seq<Job>, stuck: set<nat>, j: nat, now: int, limit: nat) {
    |stuck| >= BATCH && j !in stuck && stuck <= UnroutableAhead(jobs, j, now, limit)
  }

  lemma Within(small: set<nat>, large: set<nat>)
    requires small <= large
    ensures |small| <= |large|
  {
    assert large == small + (large - small);
  }

  lemma BlockedIsNotOffered(jobs: seq<Job>, stuck: set<nat>, j: nat, now: int, limit: nat, later: int)
    requires Blocks(jobs, stuck, j, now, limit)
    ensures !Offered(jobs, j, later, limit)
    ensures forall i :: i in stuck ==> !Offered(jobs, i, later, limit)
  {
    if IsDue(jobs, j, later, limit) {
      assert stuck <= Ahead(jobs, j, later, limit);
      Within(stuck, Ahead(jobs, j, later, limit));
    }
  }

  /** Nobody has offered, nor changed, the waiting job or those that block it. */
  predicate Starved(was: Station, st: Station, stuck: set<nat>, j: nat, now: int, limit: nat) {
    && Inv(st.desk)
    && |was.desk.jobs| <= |st.desk.jobs|
    && j < |was.desk.jobs| && st.desk.jobs[j] == was.desk.jobs[j] && Claimable(was.desk.jobs[j])
    && (forall i :: i in stuck ==> i < |was.desk.jobs| && st.desk.jobs[i] == was.desk.jobs[i])
    && Blocks(st.desk.jobs, stuck, j, now, limit)
    && j !in st.offered && stuck !! st.offered
  }

  lemma StarvesOn(was: Station, st: Station, act: Act, stuck: set<nat>, j: nat, now: int, limit: nat)
    requires Starved(was, st, stuck, j, now, limit) && (act.Do? ==> SafeSweep(st.desk, act.move))
    ensures Starved(was, Perform(st, act, limit), stuck, j, now, limit)
  {
    match act
    case Poll(later) => BlockedIsNotOffered(st.desk.jobs, stuck, j, now, limit, later);
    case Do(move) =>
      if !(move.Deliver? && move.job !in st.offered) {
        StepKeeps(st.desk, move);
        JobsGrow(st.desk, move);
        WaitingStays(st.desk, move, j);
        forall i | i in stuck ensures Step(st.desk, move).jobs[i] == st.desk.jobs[i] {
          WaitingStays(st.desk, move, i);
        }
      }
  }

  /** A batch of unroutable jobs ahead of a waiting job starves it: whatever else happens, neither it
      nor they are ever offered or touched again. */
  lemma {:induction false} UnroutableBatchStarves(st: Station, acts: seq<Act>, stuck: set<nat>, j: nat, now: int, limit: nat)
    requires Starved(st, st, stuck, j, now, limit) && SafePlay(st, acts, limit)
    ensures Starved(st, Play(st, acts, limit), stuck, j, now, limit)
  {
    if acts != [] {
      var n := |acts| - 1;
      UnroutableBatchStarves(st, acts[..n], stuck, j, now, limit);
      StarvesOn(st, Play(st, acts[..n], limit), acts[n], stuck, j, now, limit);
    }
  }

  // ---------- anything less does not ----------

  /** Of the routable jobs ahead, the first has only unroutable ones ahead of it. */
  lemma {:induction false} FirstRoutable(jobs: seq<Job>, j: nat, now: int, limit: nat) returns (i: nat)
    requires RoutableAhead(jobs, j, now, limit) != {}
    ensures i in RoutableAhead(jobs, j, now, limit) && Ahead(jobs, i, now, limit) <= UnroutableAhead(jobs, j, now, limit)
    decreases |RoutableAhead(jobs, j, now, limit)|
  {
    i :| i in RoutableAhead(jobs, j, now, limit);
    if RoutableAhead(jobs, i, now, limit) == {} {
      forall x | x in Ahead(jobs, i, now, limit) ensures x in UnroutableAhead(jobs, j, now, limit) {
        assert x !in RoutableAhead(jobs, i, now, limit);
      }
    } else {
      assert RoutableAhead(jobs, i, now, limit) <= RoutableAhead(jobs, j, now, limit) - {i};
      Within(RoutableAhead(jobs, i, now, limit), RoutableAhead(jobs, j, now, limit) - {i});
      i := FirstRoutable(jobs, i, now, limit);
    }
  }

  lemma FirstIsOffered(jobs: seq<Job>, i: nat, j: nat, now: int, limit: nat)
    requires i in RoutableAhead(jobs, j, now, limit) && Ahead(jobs, i, now, limit) <= UnroutableAhead(jobs, j, now, limit)
    requires |UnroutableAhead(jobs, j, now, limit)| < BATCH
    ensures Offered(jobs, i, now, limit)
  {
    Within(Ahead(jobs, i, now, limit), UnroutableAhead(jobs, j, now, limit));
  }

  lemma NoneRoutableIsOffered(jobs: seq<Job>, j: nat, now: int, limit: nat)
    requires IsDue(jobs, j, now, limit) && HasQueue(jobs, j) && |UnroutableAhead(jobs, j, now, limit)| < BATCH
    requires RoutableAhead(jobs, j, now, limit) == {}
    ensures Offered(jobs, j, now, limit)
  {
    forall i | i in Ahead(jobs, j, now, limit) ensures i in UnroutableAhead(jobs, j, now, limit) {
      assert i !in RoutableAhead(jobs, j, now, limit);
    }
    Within(Ahead(jobs, j, now, limit), UnroutableAhead(jobs, j, now, limit));
  }

  lemma {:induction false} BackoffIsPositive(n: nat)
    ensures Power(n) >= 1 && Backoff(n) > 0
  {
    if n > 0 { BackoffIsPositive(n - 1); }
  }

  /** One poll, and one offered job run to a failure: it is then due later, if ever again. */
  function PollAndFail(st: Station, i: nat, now: int): seq<Act> {
    var k := |st.desk.runners|;
    [Poll(now), Do(Deliver(i, now)), Do(Load(k)), Do(Finish(k, false, now))]
  }

  lemma PlaySnoc(st: Station, acts: seq<Act>, act: Act, limit: nat)
    ensures Play(st, acts + [act], limit) == Perform(Play(st, acts, limit), act, limit)
    ensures SafePlay(st, acts, limit) && (act.Do? ==> !act.move.SweepStale?) ==> SafePlay(st, acts + [act], limit)
  {
    assert (acts + [act])[..|acts|] == acts;
  }

  lemma FourActs(st: Station, a: Act, b: Act, c: Act, d: Act, limit: nat)
    ensures Play(st, [a, b, c, d], limit) == Perform(Perform(Perform(Perform(st, a, limit), b, limit), c, limit), d, limit)
    ensures (forall x :: x in {a, b, c, d} && x.Do? ==> !x.move.SweepStale?) ==> SafePlay(st, [a, b, c, d], limit)
  {
    PlaySnoc(st, [], a, limit);
    PlaySnoc(st, [a], b, limit);
    PlaySnoc(st, [a, b], c, limit);
    PlaySnoc(st, [a, b, c], d, limit);
    assert [] + [a] == [a] && [a] + [b] == [a, b] && [a, b] + [c] == [a, b, c] && [a, b, c] + [d] == [a, b, c, d];
  }

  lemma FailedRun(desk: Desk, i: nat, now: int)
    requires i < |desk.jobs| && Claimable(desk.jobs[i])
    ensures var k := |desk.runners|;
      var done := Step(Step(Step(desk, Deliver(i, now)), Load(k)), Finish(k, false, now));
      var claimed := Claim(desk.jobs[i], now);
      done.jobs == desk.jobs[i := AfterFailure(claimed, claimed.attempts, claimed.maxAttempts, now)]
  {
    var k, claim := |desk.runners|, Step(desk, Deliver(i, now));
    assert claim.runners[k] == Runner(i, Claimed);
    var load := Step(claim, Load(k));
    assert load.jobs == claim.jobs && load.runners[k].job == i;
  }

  lemma FailedIsPutOff(st: Station, i: nat, now: int, limit: nat)
    requires Offered(st.desk.jobs, i, now, limit)
    ensures var done := Play(st, PollAndFail(st, i, now), limit);
      && SafePlay(st, PollAndFail(st, i, now), limit)
      && |done.desk.jobs| == |st.desk.jobs|
      && (forall x: nat :: x < |st.desk.jobs| && x != i ==> done.desk.jobs[x] == st.desk.jobs[x])
      && !IsDue(done.desk.jobs, i, now, limit)
  {
    var k := |st.desk.runners|;
    FourActs(st, Poll(now), Do(Deliver(i, now)), Do(Load(k)), Do(Finish(k, false, now)), limit);
    BackoffIsPositive(st.desk.jobs[i].attempts + 1);
    FailedRun(st.desk, i, now);
  }

  lemma PuttingOffLeaves(jobs: seq<Job>, after: seq<Job>, i: nat, j: nat, now: int, limit: nat)
    requires |after| == |jobs| && i in RoutableAhead(jobs, j, now, limit) && !IsDue(after, i, now, limit)
    requires forall x: nat :: x < |jobs| && x != i ==> after[x] == jobs[x]
    ensures UnroutableAhead(after, j, now, limit) == UnroutableAhead(jobs, j, now, limit)
    ensures RoutableAhead(after, j, now, limit) == RoutableAhead(jobs, j, now, limit) - {i}
  {
  }

  /** With fewer than a batch of unroutable jobs ahead of it, a due job is offered once the routable ones
      have had their turn. */
  lemma {:induction false} IsReached(st: Station, j: nat, now: int, limit: nat) returns (acts: seq<Act>)
    requires IsDue(st.desk.jobs, j, now, limit) && HasQueue(st.desk.jobs, j)
    requires |UnroutableAhead(st.desk.jobs, j, now, limit)| < BATCH
    ensures SafePlay(st, acts, limit) && j in Play(st, acts, limit).offered
    decreases |RoutableAhead(st.desk.jobs, j, now, limit)|
  {
    if RoutableAhead(st.desk.jobs, j, now, limit) == {} {
      NoneRoutableIsOffered(st.desk.jobs, j, now, limit);
      acts := [Poll(now)];
      assert acts[..0] == [] && SafePlay(st, [], limit);
    } else {
      var i := FirstRoutable(st.desk.jobs, j, now, limit);
      FirstIsOffered(st.desk.jobs, i, j, now, limit);
      var first := PollAndFail(st, i, now);
      var middle := Play(st, first, limit);
      FailedIsPutOff(st, i, now, limit);
      PuttingOffLeaves(st.desk.jobs, middle.desk.jobs, i, j, now, limit);
      var rest := IsReached(middle, j, now, limit);
      PlayConcat(st, first, rest, limit);
      acts := first + rest;
    }
  }

  ghost predicate NeverOffered(st: Station, j: nat, limit: nat) {
    forall acts :: SafePlay(st, acts, limit) ==> j !in Play(st, acts, limit).offered
  }

  /** A due job that has a queue and no poll has offered yet is never offered, in any continuation, iff
      a full batch of due jobs without a queue is ahead of it. */
  lemma StarvesIff(st: Station, j: nat, now: int, limit: nat)
    requires Inv(st.desk) && IsDue(st.desk.jobs, j, now, limit) && HasQueue(st.desk.jobs, j) && j !in st.offered
    requires forall i :: i in st.offered ==> HasQueue(st.desk.jobs, i)
    ensures NeverOffered(st, j, limit) <==> |UnroutableAhead(st.desk.jobs, j, now, limit)| >= BATCH
  {
    var stuck := UnroutableAhead(st.desk.jobs, j, now, limit);
    if |stuck| >= BATCH {
      assert Starved(st, st, stuck, j, now, limit);
      forall acts | SafePlay(st, acts, limit) ensures j !in Play(st, acts, limit).offered {
        UnroutableBatchStarves(st, acts, stuck, j, now, limit);
      }
    } else {
      var acts := IsReached(st, j, now, limit);
    }
  }

  // ---------- such a state, from nothing ----------

  /** A job name some other image enqueues and this one has no queue for. */
  const RETIRED_JOB := "evidence.thumbnails.generate"

  function Flood(n: nat): seq<Move> { seq(n, i requires 0 <= i < n => Enqueue(RETIRED_JOB, Decimal(i), None, 0)) }

  function Retired(n: nat): seq<Job> { seq(n, i requires 0 <= i < n => NewJob(RETIRED_JOB, Decimal(i), None, 0)) }

  lemma OneMoreRetired(n: nat)
    ensures Step(Desk(Retired(n), []), Enqueue(RETIRED_JOB, Decimal(n), None, 0)) == Desk(Retired(n + 1), [])
  {
    forall job | job in Retired(n) ensures job.key != Decimal(n) {
      var i :| 0 <= i < n && Retired(n)[i] == job;
      if Decimal(i) == Decimal(n) { DecimalIsInjective(i, n); }
    }
    assert Retired(n + 1) == Retired(n) + [NewJob(RETIRED_JOB, Decimal(n), None, 0)];
  }

  lemma {:induction false} FloodFills(n: nat)
    ensures Run(EMPTY, Flood(n)) == Desk(Retired(n), []) && SafeRun(EMPTY, Flood(n))
  {
    if n > 0 {
      FloodFills(n - 1);
      assert Flood(n)[..n - 1] == Flood(n - 1);
      OneMoreRetired(n - 1);
    }
  }

  function Indices(n: nat): seq<nat> { seq(n, i => i) }

  /** The table the flood leaves, and one job after it that has a queue. */
  function Flooded(): seq<Job> { Retired(BATCH) + [NewJob(DERIVATIVES_JOB, "job", None, 1)] }

  lemma FloodedRuns()
    ensures var moves := Flood(BATCH) + [Enqueue(DERIVATIVES_JOB, "job", None, 1)];
      SafeRun(EMPTY, moves) && Run(EMPTY, moves) == Desk(Flooded(), [])
  {
    var last := Enqueue(DERIVATIVES_JOB, "job", None, 1);
    FloodFills(BATCH);
    RunSnoc(EMPTY, Flood(BATCH), last);
    assert (Flood(BATCH) + [last])[..BATCH] == Flood(BATCH);
    forall job | job in Retired(BATCH) ensures job.key != "job" {
      var i :| 0 <= i < BATCH && Retired(BATCH)[i] == job;
      assert Decimal(i)[0] != "job"[0];
    }
  }

  lemma RetiredHasNoQueue()
    ensures !Supported(RETIRED_JOB)
  {
    assert RETIRED_JOB[9] == 't' && DERIVATIVES_JOB[9] == 'd';
  }

  lemma FloodedBlocks(limit: nat)
    requires limit >= 1
    ensures |UnroutableAhead(Flooded(), BATCH, 1, limit)| >= BATCH
  {
    RetiredHasNoQueue();
    var order := Indices(BATCH);
    MembersCount(Flooded(), order);
    forall i | i in Members(order) ensures i in UnroutableAhead(Flooded(), BATCH, 1, limit) {
      assert Flooded()[i] == NewJob(RETIRED_JOB, Decimal(i), None, 0);
    }
    Within(Members(order), UnroutableAhead(Flooded(), BATCH, 1, limit));
  }

  /** Two hundred jobs of a name this image has no queue for, then one it has: that one is never offered. */
  lemma FloodStarves(limit: nat)
    requires limit >= 1
    ensures var moves := Flood(BATCH) + [Enqueue(DERIVATIVES_JOB, "job", None, 1)];
      && SafeRun(EMPTY, moves) && |Run(EMPTY, moves).jobs| == BATCH + 1
      && IsDue(Run(EMPTY, moves).jobs, BATCH, 1, limit) && HasQueue(Run(EMPTY, moves).jobs, BATCH)
      && NeverOffered(Station(Run(EMPTY, moves), {}), BATCH, limit)
  {
    FloodedRuns();
    EveryRunKeeps(EMPTY, Flood(BATCH) + [Enqueue(DERIVATIVES_JOB, "job", None, 1)]);
    FloodedBlocks(limit);
    StarvesIff(Station(Desk(Flooded(), []), {}), BATCH, 1, limit);
  }
}
