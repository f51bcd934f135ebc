/** What newly commits a member, on valuations made earlier, may cost - exactly. */
module PayoutRaces {
  import opened Prelude
  import opened PayoutAuthority
  import opened PayoutExecution
  import opened PayoutSolvency
  import opened PayoutOverdraft
  import opened PayoutRoutes

  // ---------- batches of one cycle ----------

  function StoreAll(s: Store, rows: seq<Assignment>): Store {
    if rows == [] then s else Apply(StoreAll(s, rows[..|rows| - 1]), AddAssignment(rows[|rows| - 1]))
  }

  function StoredIn(sys: System, rows: seq<Assignment>): System { sys.(db := sys.db.(store := StoreAll(sys.db.store, rows))) }

  /** The member's assignments in one cycle. */
  function CycleRows(assignments: seq<Assignment>, cycle: nat, user: UserId): seq<Assignment> {
    if assignments == [] then []
    else
      var a := assignments[|assignments| - 1];
      CycleRows(assignments[..|assignments| - 1], cycle, user) + (if a.cycle == cycle && a.user == user then [a] else [])
  }

  /** The first of these rows that is the member's, if the cycle holds none of theirs yet. */
  function FirstStored(s: Store, rows: seq<Assignment>, cycle: nat, user: UserId): seq<Assignment> {
    if CycleTaken(s, cycle, user) || rows == [] then []
    else
      var before := FirstStored(s, rows[..|rows| - 1], cycle, user);
      if before == [] && rows[|rows| - 1].user == user then [rows[|rows| - 1]] else before
  }

  lemma CycleRowsSnoc(assignments: seq<Assignment>, a: Assignment, cycle: nat, user: UserId)
    ensures CycleRows(assignments + [a], cycle, user)
      == CycleRows(assignments, cycle, user) + (if a.cycle == cycle && a.user == user then [a] else [])
  {
    assert (assignments + [a])[..|assignments|] == assignments;
  }

  lemma TakenSnoc(s: Store, a: Assignment, cycle: nat, user: UserId)
    ensures CycleTaken(Apply(s, AddAssignment(a)), cycle, user) <==> CycleTaken(s, cycle, user) || (a.cycle == cycle && a.user == user)
  {
    var after := Apply(s, AddAssignment(a));
    assert !CycleTaken(s, a.cycle, a.user) ==> forall x :: x in after.assignments <==> x in s.assignments || x == a;
  }

  predicate FirstIsStored(s: Store, after: Store, rows: seq<Assignment>, cycle: nat, user: UserId) {
    var first := FirstStored(s, rows, cycle, user);
    && CycleRows(after.assignments, cycle, user) == CycleRows(s.assignments, cycle, user) + first
    && |first| <= 1
    && (CycleTaken(after, cycle, user) <==> CycleTaken(s, cycle, user) || first != [])
  }

  lemma FirstStoredSnoc(s: Store, rows: seq<Assignment>, a: Assignment, cycle: nat, user: UserId)
    ensures FirstStored(s, rows + [a], cycle, user) ==
      if CycleTaken(s, cycle, user) || FirstStored(s, rows, cycle, user) != [] || a.user != user
      then FirstStored(s, rows, cycle, user) else [a]
  {
    assert (rows + [a])[..|rows|] == rows;
  }

  lemma OneRowMore(s: Store, before: Store, rows: seq<Assignment>, a: Assignment, user: UserId)
    requires FirstIsStored(s, before, rows, a.cycle, user)
    ensures FirstIsStored(s, Apply(before, AddAssignment(a)), rows + [a], a.cycle, user)
  {
    FirstStoredSnoc(s, rows, a, a.cycle, user);
    TakenSnoc(before, a, a.cycle, user);
    if !CycleTaken(before, a.cycle, a.user) { CycleRowsSnoc(before.assignments, a, a.cycle, user); }
  }

  /** Of any number of rows of one cycle, stored by any batches in any order, exactly the member's
      first is stored, and none if the cycle held one. */
  lemma {:induction false} OneRowPerCycle(s: Store, rows: seq<Assignment>, cycle: nat, user: UserId)
    requires forall a :: a in rows ==> a.cycle == cycle
    ensures FirstIsStored(s, StoreAll(s, rows), rows, cycle, user)
  {
    if rows != [] {
      var n := |rows| - 1;
      assert rows[n] in rows && forall x :: x in rows[..n] ==> x in rows;
      OneRowPerCycle(s, rows[..n], cycle, user);
      OneRowMore(s, StoreAll(s, rows[..n]), rows[..n], rows[n], user);
      assert rows[..n] + [rows[n]] == rows;
    }
  }

  /** Storing leaves the member as they were, or with one covered row more. */
  predicate OneAtMost(sys: System, after: System, cycle: nat, user: UserId) {
    && after == sys.(db := sys.db.(store := sys.db.store.(assignments := after.db.store.assignments)))
    && |sys.db.store.assignments| <= |after.db.store.assignments|
    && Solvent(after, user)
    && (CycleTaken(after.db.store, cycle, user) || Commitments(after, user) == Commitments(sys, user))
  }

  /** Any number of batches of one cycle, valued on one state and stored in any order, store at most
      one row of the member and overpay nobody. */
  lemma {:induction false} SameCycleRaceIsSafe(sys: System, rows: seq<Assignment>, cycle: nat, user: UserId)
    requires Consistent(sys) && Solvent(sys, user)
    requires forall a :: a in rows ==> a.cycle == cycle && (a.user == user && AssignmentOpen(a.status) ==> Covered(sys, a))
    ensures Solvent(StoredIn(sys, rows), user) && OneAtMost(sys, StoredIn(sys, rows), cycle, user)
    ensures CycleRows(StoreAll(sys.db.store, rows).assignments, cycle, user)
      == CycleRows(sys.db.store.assignments, cycle, user) + FirstStored(sys.db.store, rows, cycle, user)
    ensures |FirstStored(sys.db.store, rows, cycle, user)| <= 1
  {
    OneRowPerCycle(sys.db.store, rows, cycle, user);
    if rows != [] {
      var n := |rows| - 1;
      assert rows[n] in rows && forall a :: a in rows[..n] ==> a in rows;
      SameCycleRaceIsSafe(sys, rows[..n], cycle, user);
      OneMoreRow(sys, StoredIn(sys, rows[..n]), rows[n], user);
    }
  }

  lemma OneMoreRow(sys: System, before: System, a: Assignment, user: UserId)
    requires Consistent(sys) && OneAtMost(sys, before, a.cycle, user)
    requires a.user == user && AssignmentOpen(a.status) ==> Covered(sys, a)
    ensures OneAtMost(sys, before.(db := before.db.(store := Apply(before.db.store, AddAssignment(a)))), a.cycle, user)
  {
    var s := before.db.store;
    TakenSnoc(s, a, a.cycle, user);
    if !CycleTaken(s, a.cycle, a.user) {
      var t := ToAssignment(|s.assignments|);
      if TargetUsed(sys.db.executions, t) { ExecutedExists(sys.db, t); }
      SumSnoc(s.assignments, CommittedAssignments(sys.db.executions), user, a);
    }
  }

  // ---------- the exact condition ----------

  /** The member's open assignments carry an authoritative, positive amount, as every batch writes. */
  predicate Settleable(s: Store, user: UserId) {
    forall i :: 0 <= i < |s.assignments| && s.assignments[i].user == user && AssignmentOpen(s.assignments[i].status) ==>
      s.assignments[i].priced && s.assignments[i].amount > 0
  }

  /** Some continuation in which whatever newly commits the member is covered overpays them. */
  ghost predicate CanOverpay(p: Platform, user: UserId) {
    exists acts :: AllowedRun(p.sys, Shadow(p, acts), user)
      && PaidOut(Play(p, acts).sys.db, user) > Confirmed(Play(p, acts).sys.db.store, user)
  }

  ghost predicate Ready(p: Platform, user: UserId) {
    Genuine(p) && Inv(p.sys) && Consistent(p.sys) && Quiet(p.sys.attempts) && Settleable(p.sys.db.store, user)
  }

  lemma AllowedConcat(p: Platform, a: seq<Act>, b: seq<Act>, user: UserId)
    requires Genuine(p)
    requires AllowedRun(p.sys, Shadow(p, a), user) && AllowedRun(Play(p, a).sys, Shadow(Play(p, a), b), user)
    ensures AllowedRun(p.sys, Shadow(p, a + b), user) && Play(p, a + b) == Play(Play(p, a), b)
  {
    PlayConcat(p, a, b);
    ShadowRuns(p, a);
    RunConcat(p.sys, Shadow(p, a), Shadow(Play(p, a), b), user);
  }

  /** With no attempt under way, what backs a redemption is its execution. */
  lemma QuietBacksTheExecuted(sys: System, user: UserId)
    requires Inv(sys) && Quiet(sys.attempts)
    ensures Sum(sys.db.store.redemptions, Backed(sys.db.executions, sys.attempts), user)
         == Sum(sys.db.store.redemptions, ExecutedRedemptions(sys.db.executions), user)
  {
    var executions := sys.db.executions;
    forall i: nat | HasPrice(sys.attempts, ToRedemption(i)) ensures TargetUsed(executions, ToRedemption(i)) {
      var a :| a in sys.attempts && a.target == ToRedemption(i) && Carried(a.phase).Some?;
      var j :| 0 <= j < |sys.attempts| && sys.attempts[j] == a;
      assert Sound(sys.db, sys.attempts[j]) && a.phase.e in executions;
    }
    SumAgrees(sys.db.store.redemptions, Backed(executions, sys.attempts), ExecutedRedemptions(executions), user);
  }

  /** Paying an owed row moves its points from open to executed. */
  lemma PayingKeepsCommitments(sys: System, done: System, i: nat, user: UserId)
    requires Inv(sys) && Quiet(sys.attempts) && Inv(done) && Quiet(done.attempts) && Owed(sys.db, i)
    requires done.db.store == PaidRow(sys.db.store, i) && done.db.executions == sys.db.executions + [PaymentOf(sys.db, i)]
    ensures Commitments(done, user) == Commitments(sys, user)
  {
    var s, executions, more := sys.db.store, sys.db.executions, done.db.executions;
    assert forall e :: e in more <==> e in executions || e == PaymentOf(sys.db, i);
    assert forall t :: TargetUsed(more, t) <==> TargetUsed(executions, t) || t == ToAssignment(i);
    QuietBacksTheExecuted(sys, user);
    QuietBacksTheExecuted(done, user);
    SumChange(s.assignments, CommittedAssignments(executions), done.db.store.assignments, CommittedAssignments(more), user, i);
    SumAgrees(s.redemptions, ExecutedRedemptions(executions), ExecutedRedemptions(more), user);
  }

  /** Both are ready, with the same earnings and commitments, and after the acts nothing of the member's
      first `n` assignments is open that has not been executed. */
  ghost predicate SettledUpTo(p: Platform, done: Platform, user: UserId, n: nat) {
    && Ready(done, user) && done.sys.db.enabled
    && Commitments(done.sys, user) == Commitments(p.sys, user)
    && done.sys.db.store.ledger == p.sys.db.store.ledger
    && |done.sys.db.store.assignments| == |p.sys.db.store.assignments|
    && forall i: nat :: i < n && i < |done.sys.db.store.assignments| ==>
         var a := done.sys.db.store.assignments[i];
         a.user == user && AssignmentOpen(a.status) ==> TargetUsed(done.sys.db.executions, ToAssignment(i))
  }

  lemma SettledOne(now: Platform, user: UserId, n: nat)
    requires Ready(now, user) && now.sys.db.enabled && Owed(now.sys.db, n)
    ensures var acts := SettleActs(now.sys, n);
      && AllowedRun(now.sys, Shadow(now, acts), user) && SettledUpTo(now, Play(now, acts), user, 0)
      && Play(now, acts).sys.db.store == PaidRow(now.sys.db.store, n)
      && forall t :: TargetUsed(Play(now, acts).sys.db.executions, t) <==> TargetUsed(now.sys.db.executions, t) || t == ToAssignment(n)
  {
    var acts := SettleActs(now.sys, n);
    SettleOne(now, n, user);
    ShadowRuns(now, acts);
    RunsStayConsistent(now.sys, Shadow(now, acts));
    PayingKeepsCommitments(now.sys, Play(now, acts).sys, n, user);
    var e := PaymentOf(now.sys.db, n);
    assert forall x :: x in now.sys.db.executions + [e] <==> x in now.sys.db.executions || x == e;
  }

  lemma SettleNext(p: Platform, now: Platform, user: UserId, n: nat) returns (acts: seq<Act>)
    requires SettledUpTo(p, now, user, n) && n < |now.sys.db.store.assignments|
    ensures AllowedRun(now.sys, Shadow(now, acts), user) && SettledUpTo(p, Play(now, acts), user, n + 1)
  {
    acts := [];
    if now.sys.db.store.assignments[n].user == user && Owed(now.sys.db, n) {
      acts := SettleActs(now.sys, n);
      SettledOne(now, user, n);
    }
  }

  lemma {:induction false} SettleFirst(p: Platform, user: UserId, n: nat) returns (acts: seq<Act>)
    requires Ready(p, user) && p.sys.db.enabled && n <= |p.sys.db.store.assignments|
    ensures AllowedRun(p.sys, Shadow(p, acts), user) && SettledUpTo(p, Play(p, acts), user, n)
  {
    acts := [];
    if n > 0 {
      acts := SettleFirst(p, user, n - 1);
      var more := SettleNext(p, Play(p, acts), user, n - 1);
      AllowedConcat(p, acts, more, user);
      acts := acts + more;
    }
  }

  /** Once nothing open is left to pay, what was committed has been paid out. */
  lemma SettledIsPaidOut(p: Platform, done: Platform, user: UserId)
    requires SettledUpTo(p, done, user, |done.sys.db.store.assignments|)
    ensures PaidOut(done.sys.db, user) == Commitments(p.sys, user)
    ensures Confirmed(done.sys.db.store, user) == Confirmed(p.sys.db.store, user)
  {
    var db := done.sys.db;
    PaidOutIsExecuted(db.store, db.executions, user);
    QuietBacksTheExecuted(done.sys, user);
    SumAgrees(db.store.assignments, CommittedAssignments(db.executions), ExecutedAssignments(db.executions), user);
  }

  lemma SwitchedOn(p: Platform, user: UserId)
    requires Ready(p, user)
    ensures var on := Play(p, [Other(Switch(true))]);
      && on == Perform(p, Other(Switch(true))) && on == p.(sys := p.sys.(db := p.sys.db.(enabled := true)))
      && AllowedRun(p.sys, Shadow(p, [Other(Switch(true))]), user) && Ready(on, user)
  {
    OneAct(p, Other(Switch(true)));
    FirstMove(p.sys, Switch(true), user);
    StepKeeps(p.sys, Switch(true));
    StepKeepsConsistent(p.sys, Switch(true));
  }

  lemma InsolventCanOverpay(p: Platform, user: UserId)
    requires Ready(p, user) && !Solvent(p.sys, user)
    ensures CanOverpay(p, user)
  {
    var on := Perform(p, Other(Switch(true)));
    SwitchedOn(p, user);
    var acts := SettleFirst(on, user, |on.sys.db.store.assignments|);
    SettledIsPaidOut(on, Play(on, acts), user);
    AllowedConcat(p, [Other(Switch(true))], acts, user);
  }

  lemma SolventCannotOverpay(p: Platform, user: UserId)
    requires Genuine(p) && Inv(p.sys) && Consistent(p.sys) && Solvent(p.sys, user)
    ensures !CanOverpay(p, user)
  {
    forall acts | AllowedRun(p.sys, Shadow(p, acts), user)
      ensures PaidOut(Play(p, acts).sys.db, user) <= Confirmed(Play(p, acts).sys.db.store, user)
    {
      ShadowRuns(p, acts);
      NeverOverpaid(p.sys, Shadow(p, acts), user);
    }
  }

  /** With no attempt under way, whatever requests are open: some continuation overpays the member iff
      what was executed and what is still open exceed what they earned already. */
  lemma OverpaidIffInsolvent(p: Platform, user: UserId)
    requires Ready(p, user)
    ensures CanOverpay(p, user) <==> !Solvent(p.sys, user)
  {
    if Solvent(p.sys, user) { SolventCannotOverpay(p, user); } else { InsolventCanOverpay(p, user); }
  }

  /** What an assignment's storing or late reopening adds is exactly its points. */
  lemma CommitsExactly(sys: System, change: Change, user: UserId)
    requires Consistent(sys) && (change.AddAssignment? || change.SetAssignment?)
    requires NewCommitment(sys, change).Some? && NewCommitment(sys, change).value.user == user
    ensures var next := sys.(db := sys.db.(store := Apply(sys.db.store, change)));
      Commitments(next, user) == Commitments(sys, user) + NewCommitment(sys, change).value.points
  {
    var s, committed := sys.db.store, CommittedAssignments(sys.db.executions);
    match change
    case AddAssignment(a) =>
      if TargetUsed(sys.db.executions, ToAssignment(|s.assignments|)) { ExecutedExists(sys.db, ToAssignment(|s.assignments|)); }
      SumSnoc(s.assignments, committed, user, a);
    case SetAssignment(id, status) => SumUpdate(s.assignments, committed, user, id, s.assignments[id].(status := status));
  }

  lemma QuietNeverWaits(sys: System, change: Change)
    requires Quiet(sys.attempts)
    ensures !Waits(sys, change)
  {
  }

  /** An act that newly commits the member - a batch storing a row valued on any earlier state, or a
      route writing late over a held or rejected one - opens the way to an overpayment iff what it
      commits is not covered. */
  lemma CommittingOverpaysIff(p: Platform, act: Act, change: Change, user: UserId)
    requires Ready(p, user) && Settleable(Perform(p, act).sys.db.store, user)
    requires MoveOf(p, act) == Some(Outside(change)) && (change.AddAssignment? || change.SetAssignment?)
    requires NewCommitment(p.sys, change).Some? && NewCommitment(p.sys, change).value.user == user
    ensures CanOverpay(Perform(p, act), user) <==> !Within(p.sys, NewCommitment(p.sys, change).value)
  {
    var after := Perform(p, act);
    PerformIsGenuine(p, act);
    StepKeeps(p.sys, Outside(change));
    StepKeepsConsistent(p.sys, Outside(change));
    QuietNeverWaits(p.sys, change);
    CommitsExactly(p.sys, change, user);
    OverpaidIffInsolvent(after, user);
  }

  // ---------- redemptions ----------

  /** A redemption's payment, alone from submission to commit. */
  function RedemptionActs(sys: System, id: nat, raw: string): seq<Act> {
    Others([Submit(ToRedemption(id), raw)] + Turns(|sys.attempts|, 8))
  }

  lemma RedemptionRuns(p: Platform, id: nat, raw: string)
    requires Quiet(p.sys.attempts) && ExecuteSerially(p.sys.db, ToRedemption(id), raw).1.Ok?
    ensures var done := Play(p, RedemptionActs(p.sys, id, raw));
      && done.requests == p.requests && Quiet(done.sys.attempts)
      && done.sys.db == ExecuteSerially(p.sys.db, ToRedemption(id), raw).0
  {
    var submit, k := Submit(ToRedemption(id), raw), |p.sys.attempts|;
    AloneIsSerial(p.sys, ToRedemption(id), raw);
    var begun := Step(p.sys, submit);
    var done := Drive(begun, k, 8);
    DriveKeepsOthers(begun, k, 8);
    FirstMove(p.sys, submit, "");
    DriveIsRun(begun, k, 8);
    RunConcat(p.sys, [submit], Turns(k, 8), "");
    OthersPlay(p, [submit] + Turns(k, 8));
    forall a | a in done.attempts ensures a.phase.Committed? || a.phase.Refused? {
      var j :| 0 <= j < |done.attempts| && done.attempts[j] == a;
      if j < k { assert p.sys.attempts[j] in p.sys.attempts; }
    }
  }

  lemma RedeemingCommits(sys: System, done: System, e: Execution)
    requires Inv(sys) && Quiet(sys.attempts) && Inv(done) && Quiet(done.attempts)
    requires e.target.ToRedemption? && Describes(sys.db.store, e) && !TargetUsed(sys.db.executions, e.target)
    requires done.db == Recorded(sys.db, e)
    ensures Commitments(done, e.user) == Commitments(sys, e.user) + e.points
  {
    var s, executions, more, id := sys.db.store, sys.db.executions, done.db.executions, e.target.id;
    assert forall x :: x in more <==> x in executions || x == e;
    assert forall t :: TargetUsed(more, t) <==> TargetUsed(executions, t) || t == e.target;
    QuietBacksTheExecuted(sys, e.user);
    QuietBacksTheExecuted(done, e.user);
    SumChange(s.redemptions, ExecutedRedemptions(executions), done.db.store.redemptions, ExecutedRedemptions(more), e.user, id);
    SumAgrees(s.assignments, CommittedAssignments(executions), CommittedAssignments(more), e.user);
  }

  lemma AcceptedIsRecorded(db: Db, id: nat, raw: string)
    requires PaidIsExecuted(db) && id < |db.store.redemptions| && ExecuteSerially(db, ToRedemption(id), raw).1.Ok?
    ensures var e := ExecuteSerially(db, ToRedemption(id), raw).1.value;
      && e.target == ToRedemption(id) && Describes(db.store, e) && !TargetUsed(db.executions, e.target)
      && ExecuteSerially(db, ToRedemption(id), raw).0 == Recorded(db, e)
  {
  }

  lemma RedeemedIsReady(p: Platform, id: nat, raw: string, user: UserId)
    requires Ready(p, user) && id < |p.sys.db.store.redemptions| && p.sys.db.store.redemptions[id].user == user
    requires ExecuteSerially(p.sys.db, ToRedemption(id), raw).1.Ok?
    ensures var done := Play(p, RedemptionActs(p.sys, id, raw));
      && Ready(done, user) && done.sys.db == ExecuteSerially(p.sys.db, ToRedemption(id), raw).0
      && Commitments(done.sys, user) == Commitments(p.sys, user) + p.sys.db.store.redemptions[id].points
      && Confirmed(done.sys.db.store, user) == Confirmed(p.sys.db.store, user)
  {
    var acts, e := RedemptionActs(p.sys, id, raw), ExecuteSerially(p.sys.db, ToRedemption(id), raw).1.value;
    RedemptionRuns(p, id, raw);
    ShadowRuns(p, acts);
    RunsStayConsistent(p.sys, Shadow(p, acts));
    AcceptedIsRecorded(p.sys.db, id, raw);
    RedeemingCommits(p.sys, Play(p, acts).sys, e);
  }

  /** A redemption the executor accepts opens the way to an overpayment iff it is not covered, which
      takes an executed row of its owner that a late write has rejected. */
  lemma RedeemingOverpaysIff(p: Platform, id: nat, raw: string, user: UserId)
    requires Ready(p, user) && id < |p.sys.db.store.redemptions| && p.sys.db.store.redemptions[id].user == user
    requires ExecuteSerially(p.sys.db, ToRedemption(id), raw).1.Ok?
    ensures var points := p.sys.db.store.redemptions[id].points;
      && (CanOverpay(Play(p, RedemptionActs(p.sys, id, raw)), user) <==> !Within(p.sys, Posting(user, points)))
      && (!Freed(p.sys.db, user) ==> Within(p.sys, Posting(user, points)))
  {
    var done := Play(p, RedemptionActs(p.sys, id, raw));
    RedeemedIsReady(p, id, raw, user);
    OverpaidIffInsolvent(done, user);
    if !Freed(p.sys.db, user) { RedeemedIsWithin(p.sys, done.sys, id, raw); }
  }

  lemma RedeemedIsWithin(sys: System, done: System, id: nat, raw: string)
    requires id < |sys.db.store.redemptions| && ExecuteSerially(sys.db, ToRedemption(id), raw).1.Ok?
    requires Consistent(sys) && !Freed(sys.db, sys.db.store.redemptions[id].user)
    requires Consistent(done) && done.db == ExecuteSerially(sys.db, ToRedemption(id), raw).0
    ensures Solvent(done, sys.db.store.redemptions[id].user)
  {
    var user, e := sys.db.store.redemptions[id].user, ExecuteSerially(sys.db, ToRedemption(id), raw).1.value;
    RedemptionPaidIffCovered(sys.db, id, raw);
    PaymentFits(sys.db.store, e, user);
    forall x | x in done.db.executions && x.user == user && Exists(done.db.store, x.target)
      ensures !IsRejected(done.db.store, x.target)
    {
      if x != e { assert x in sys.db.executions && Exists(sys.db.store, x.target) && !IsRejected(sys.db.store, x.target); }
    }
    CommitmentsAreReserved(done, user);
  }

  // ---------- the failing runs ----------

  function Earner(): Store { Store([LedgerEntry("member", 100)], [], [], [], Some(Terms(10, 1.0))) }

  /** A hundred points earned, nothing stored yet. */
  function Desk(): Platform { Platform(System(Db(Earner(), [], [], true), []), []) }

  function Batch(cycle: nat): Assignment { Assignment(cycle, "member", 100, 10000, AssignmentEligible, true) }

  function StoreBatch(cycle: nat): Act { Other(Outside(AddAssignment(Batch(cycle)))) }

  /** The member's row of any cycle carries the valuation of any state in which they have earned a
      hundred points and nothing is reserved. */
  lemma BatchIsFunded(s: Store, cycle: nat)
    requires s.ledger == Earner().ledger && Reserved(s, "member", {}) == 0
    ensures FundedAssignment(s, Batch(cycle)) && Confirmed(s, "member") == 100
  {
    assert s.ledger[..0] == [];
    assert Worth(100, 1.0) == 10000 by { assert (100 as real * 1.0) * 100.0 + 0.5 == 10000.5; }
    assert Qualifies(s, None, Terms(10, 1.0), Beneficiary("member", 100, 10000));
  }

  lemma BatchPays(p: Platform, id: nat)
    requires Payer(p.sys) && Owed(p.sys.db, id) && p.sys.db.store.assignments[id].(status := AssignmentEligible) == Batch(id)
    ensures var done := Play(p, SettleActs(p.sys, id));
      && done.requests == p.requests && Payer(done.sys) && done.sys.db.store == PaidRow(p.sys.db.store, id)
      && (forall t :: TargetUsed(done.sys.db.executions, t) <==> TargetUsed(p.sys.db.executions, t) || t == ToAssignment(id))
      && PaidOut(done.sys.db, "member") == PaidOut(p.sys.db, "member") + 100
  {
    var e := PaymentOf(p.sys.db, id);
    SettleOne(p, id, "member");
    SumSnoc(p.sys.db.executions, PaidTo(), "member", e);
    assert forall x :: x in p.sys.db.executions + [e] <==> x in p.sys.db.executions || x == e;
  }

  /** Batches of two cycles, both valued on one state and then stored, pay a hundred points twice. */
  lemma StaleBatchesOverpay()
    ensures FundedAssignment(Earner(), Batch(0)) && FundedAssignment(Earner(), Batch(1))
    ensures var stored := Perform(Perform(Desk(), StoreBatch(0)), StoreBatch(1));
      var once := Play(stored, SettleActs(stored.sys, 0));
      var twice := Play(once, SettleActs(once.sys, 1));
      PaidOut(twice.sys.db, "member") == 200 && Confirmed(twice.sys.db.store, "member") == 100
  {
    BatchIsFunded(Earner(), 0);
    BatchIsFunded(Earner(), 1);
    var stored := Perform(Perform(Desk(), StoreBatch(0)), StoreBatch(1));
    assert stored.sys.db.store.assignments == [Batch(0), Batch(1)];
    BatchPays(stored, 0);
    BatchPays(Play(stored, SettleActs(stored.sys, 0)), 1);
  }

  /** A route has read the eligible row to reject it. */
  function ReadToReject(): Platform { Perform(Perform(Desk(), StoreBatch(0)), ReadAssignment(0, AssignmentRejected)) }

  /** The row has since been approved and paid, and the rejection is written over the payment. */
  function RejectedLate(): Platform { Perform(Play(ReadToReject(), SettleActs(ReadToReject().sys, 0)), Write(0)) }

  predicate ExecutedThenRejected(p: Platform) {
    && Payer(p.sys) && p.sys.db.store == Earner().(assignments := [Batch(0).(status := AssignmentRejected)])
    && TargetUsed(p.sys.db.executions, ToAssignment(0)) && !TargetUsed(p.sys.db.executions, ToAssignment(1))
    && PaidOut(p.sys.db, "member") == 100
  }

  /** Nothing paid yet, one eligible row, and a route about to reject it. */
  predicate AboutToReject(p: Platform) {
    && p.sys.db == Db(Earner().(assignments := [Batch(0)]), [], [], true) && p.sys.attempts == []
    && p.requests == [StatusChange(0, AssignmentEligible, AssignmentRejected)]
  }

  lemma LateRejection(p: Platform)
    requires AboutToReject(p)
    ensures Paid(Play(p, SettleActs(p.sys, 0)).sys.db.store, ToAssignment(0))
    ensures ExecutedThenRejected(Perform(Play(p, SettleActs(p.sys, 0)), Write(0)))
  {
    BatchPays(p, 0);
    var paid := Play(p, SettleActs(p.sys, 0));
    QuietNeverWaits(paid.sys, SetAssignment(0, AssignmentRejected));
    assert Perform(paid, Write(0)).sys.db.store.assignments == [Batch(0).(status := AssignmentRejected)];
  }

  lemma RouteHasRead()
    ensures AboutToReject(ReadToReject())
  {
    assert Perform(Desk(), StoreBatch(0)).sys.db.store.assignments == [Batch(0)];
  }

  lemma PaidAgain(p: Platform)
    requires ExecutedThenRejected(p)
    ensures FundedAssignment(p.sys.db.store, Batch(1))
    ensures var stored := Perform(p, StoreBatch(1));
      var twice := Play(stored, SettleActs(stored.sys, 1));
      PaidOut(twice.sys.db, "member") == 200 && Confirmed(twice.sys.db.store, "member") == 100
  {
    NothingToSum(p.sys.db.store.assignments, HeldAssignments(), "member");
    BatchIsFunded(p.sys.db.store, 1);
    var stored := Perform(p, StoreBatch(1));
    assert stored.sys.db.store.assignments == [Batch(0).(status := AssignmentRejected), Batch(1)];
    BatchPays(stored, 1);
  }

  /** The row is executed and no longer paid, its points count for nothing, a batch valued on that very
      state stores them again, and they are paid twice. */
  lemma LateRejectionOverpays()
    ensures var written := RejectedLate();
      && TargetUsed(written.sys.db.executions, ToAssignment(0)) && !Paid(written.sys.db.store, ToAssignment(0))
      && FundedAssignment(written.sys.db.store, Batch(1))
    ensures var stored := Perform(RejectedLate(), StoreBatch(1));
      var twice := Play(stored, SettleActs(stored.sys, 1));
      PaidOut(twice.sys.db, "member") == 200 && Confirmed(twice.sys.db.store, "member") == 100
  {
    RouteHasRead();
    LateRejection(ReadToReject());
    PaidAgain(RejectedLate());
  }
}
