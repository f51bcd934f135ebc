/** The poll that moves durable jobs into the queues: its order and its batch. */
module WorkerPoll {
  import opened Worker

  const BATCH: nat := 200

  /** Earlier availability first; equally available jobs in table order. */
  predicate Precedes(jobs: seq<Job>, i: nat, j: nat) {
    && i < |jobs| && j < |jobs|
    && (jobs[i].availableAt < jobs[j].availableAt || (jobs[i].availableAt == jobs[j].availableAt && i < j))
  }

  predicate IsDue(jobs: seq<Job>, j: nat, now: int, limit: nat) { j < |jobs| && Due(jobs[j], now, limit) }

  function Ahead(jobs: seq<Job>, j: nat, now: int, limit: nat): set<nat> {
    set i: nat | i < |jobs| && IsDue(jobs, i, now, limit) && Precedes(jobs, i, j)
  }

  predicate HasQueue(jobs: seq<Job>, j: nat) { j < |jobs| && Supported(jobs[j].name) }

  /** A poll reaches a job iff it is due with fewer than a batch of due jobs ahead of it, whether or
      not there is a queue for those; it queues the job iff there is one for it. */
  predicate Offered(jobs: seq<Job>, j: nat, now: int, limit: nat) {
    IsDue(jobs, j, now, limit) && |Ahead(jobs, j, now, limit)| < BATCH && HasQueue(jobs, j)
  }

  predicate InOrder(jobs: seq<Job>, order: seq<nat>) {
    forall a, b | 0 <= a < b < |order| :: Precedes(jobs, order[a], order[b])
  }

  ghost predicate Sorts(jobs: seq<Job>, order: seq<nat>, now: int, limit: nat) {
    && InOrder(jobs, order)
    && (forall a :: 0 <= a < |order| ==> IsDue(jobs, order[a], now, limit))
    && forall j :: IsDue(jobs, j, now, limit) ==> j in order
  }

  /** Where a job with a higher index than all of `order` belongs. */
  method Place(jobs: seq<Job>, order: seq<nat>, j: nat) returns (at: nat)
    requires InOrder(jobs, order) && j < |jobs| && forall a :: 0 <= a < |order| ==> order[a] < j
    ensures at <= |order|
    ensures forall a :: 0 <= a < at ==> Precedes(jobs, order[a], j)
    ensures forall b :: at <= b < |order| ==> Precedes(jobs, j, order[b])
  {
    at := |order|;
    while at > 0 && jobs[j].availableAt < jobs[order[at - 1]].availableAt
      invariant at <= |order|
      invariant forall b :: at <= b < |order| ==> Precedes(jobs, j, order[b])
    {
      at := at - 1;
    }
    forall a | 0 <= a < at ensures Precedes(jobs, order[a], j) {
      if a < at - 1 { assert Precedes(jobs, order[a], order[at - 1]); }
    }
  }

  lemma Placed(jobs: seq<Job>, order: seq<nat>, j: nat, at: nat)
    requires InOrder(jobs, order) && at <= |order|
    requires forall a :: 0 <= a < at ==> Precedes(jobs, order[a], j)
    requires forall b :: at <= b < |order| ==> Precedes(jobs, j, order[b])
    ensures InOrder(jobs, order[..at] + [j] + order[at..])
    ensures forall i :: i in order[..at] + [j] + order[at..] <==> i in order || i == j
  {
    assert order == order[..at] + order[at..];
  }

  method DueInOrder(jobs: seq<Job>, now: int, limit: nat) returns (order: seq<nat>)
    ensures Sorts(jobs, order, now, limit)
  {
    order := [];
    for j := 0 to |jobs|
      invariant InOrder(jobs, order)
      invariant forall i: nat :: i in order <==> i < j && IsDue(jobs, i, now, limit)
    {
      if IsDue(jobs, j, now, limit) {
        assert forall a :: 0 <= a < |order| ==> order[a] in order;
        var at := Place(jobs, order, j);
        Placed(jobs, order, j, at);
        order := order[..at] + [j] + order[at..];
      }
    }
    assert forall a :: 0 <= a < |order| ==> order[a] in order;
  }

  function Members(order: seq<nat>): set<nat> { set i | i in order }

  lemma {:induction false} MembersCount(jobs: seq<Job>, order: seq<nat>)
    requires InOrder(jobs, order)
    ensures |Members(order)| == |order|
  {
    if order == [] {
      assert Members(order) == {};
    } else {
      var n := |order| - 1;
      MembersCount(jobs, order[..n]);
      assert order == order[..n] + [order[n]];
      assert Members(order) == Members(order[..n]) + {order[n]};
      forall a | 0 <= a < n ensures order[a] != order[n] {
        assert Precedes(jobs, order[a], order[n]);
      }
    }
  }

  /** In the sorted list a job has as many before it as there are due jobs ahead of it. */
  lemma AheadIsPosition(jobs: seq<Job>, order: seq<nat>, p: nat, now: int, limit: nat)
    requires Sorts(jobs, order, now, limit) && p < |order|
    ensures |Ahead(jobs, order[p], now, limit)| == p
  {
    forall i | i in Ahead(jobs, order[p], now, limit) ensures i in Members(order[..p]) {
      var a :| 0 <= a < |order| && order[a] == i;
      assert Precedes(jobs, order[a], order[p]) && order[..p][a] == i;
    }
    forall i | i in Members(order[..p]) ensures i in Ahead(jobs, order[p], now, limit) {
      var a :| 0 <= a < p && order[a] == i;
      assert Precedes(jobs, order[a], order[p]);
    }
    assert Ahead(jobs, order[p], now, limit) == Members(order[..p]);
    MembersCount(jobs, order[..p]);
  }

  lemma InFirstBatchIff(jobs: seq<Job>, order: seq<nat>, found: nat, now: int, limit: nat, j: nat)
    requires Sorts(jobs, order, now, limit) && found == if |order| < BATCH then |order| else BATCH
    ensures j in order[..found] <==> IsDue(jobs, j, now, limit) && |Ahead(jobs, j, now, limit)| < BATCH
  {
    if IsDue(jobs, j, now, limit) {
      var p :| 0 <= p < |order| && order[p] == j;
      AheadIsPosition(jobs, order, p, now, limit);
      if p < found { assert order[..found][p] == j; }
    }
    if j in order[..found] {
      var a :| 0 <= a < found && order[..found][a] == j;
      AheadIsPosition(jobs, order, a, now, limit);
    }
  }

  /** Waiting for a run, not put off, and within the worker's own limit. */
  predicate Awaits(job: Job, now: int, limit: nat) {
    job.status in {Pending, Failed} && job.availableAt <= now && job.attempts < limit
  }

  /** The jobs awaiting a run that have waited longer, of equally old ones those listed first. */
  function WaitingLonger(jobs: seq<Job>, j: nat, now: int, limit: nat): set<nat>
    requires j < |jobs|
  {
    set i: nat | i < |jobs| && Awaits(jobs[i], now, limit)
      && (jobs[i].availableAt < jobs[j].availableAt || (jobs[i].availableAt == jobs[j].availableAt && i < j))
  }

  /** The job has a queue, awaits a run, and fewer than 200 have waited longer. */
  predicate IsQueued(jobs: seq<Job>, j: nat, now: int, limit: nat) {
    && j < |jobs| && Awaits(jobs[j], now, limit) && |WaitingLonger(jobs, j, now, limit)| < 200
    && jobs[j].name in {SWEEP_JOB, REPLAY_JOB, DERIVATIVES_JOB}
  }

  lemma OfferedIff(jobs: seq<Job>, j: nat, now: int, limit: nat)
    ensures Offered(jobs, j, now, limit) <==> IsQueued(jobs, j, now, limit)
  {
    if j < |jobs| { assert Ahead(jobs, j, now, limit) == WaitingLonger(jobs, j, now, limit); }
  }

  /** One poll: the first batch of due jobs, those with a queue handed to it in that order. It returns
      how many jobs it found, queues or not. */
  method SweepPendingJobs(jobs: seq<Job>, now: int, limit: nat) returns (queued: seq<nat>, found: nat)
    ensures forall j :: j in queued <==> IsQueued(jobs, j, now, limit)
    ensures InOrder(jobs, queued)
    ensures var waiting := set j: nat | j < |jobs| && Awaits(jobs[j], now, limit);
      found == if |waiting| < 200 then |waiting| else 200
  {
    var order := DueInOrder(jobs, now, limit);
    MembersCount(jobs, order);
    assert Members(order) == set j: nat | j < |jobs| && Awaits(jobs[j], now, limit);
    found := if |order| < BATCH then |order| else BATCH;
    queued := RouteAll(jobs, order[..found]);
    forall j ensures j in queued <==> IsQueued(jobs, j, now, limit) {
      InFirstBatchIff(jobs, order, found, now, limit, j);
      OfferedIff(jobs, j, now, limit);
    }
  }

  /** The jobs a queue exists for, in the order given; the others are passed over. */
  method RouteAll(jobs: seq<Job>, due: seq<nat>) returns (queued: seq<nat>)
    requires InOrder(jobs, due)
    ensures InOrder(jobs, queued) && forall j :: j in queued <==> j in due && HasQueue(jobs, j)
  {
    queued := [];
    for p := 0 to |due|
      invariant InOrder(jobs, queued)
      invariant forall j :: j in queued <==> j in due[..p] && HasQueue(jobs, j)
    {
      if HasQueue(jobs, due[p]) {
        forall a | 0 <= a < |queued| ensures Precedes(jobs, queued[a], due[p]) {
          assert queued[a] in queued;
          var b :| 0 <= b < p && due[b] == queued[a];
        }
        queued := queued + [due[p]];
      }
    }
  }
}
