/** When reservations can exceed earnings: with every new reservation within what its member has
    earned, only while the member's reservations are all older than their cutover. */
module PayoutOverdraft {
  import opened Prelude
  import opened PayoutAuthority
  import opened PayoutExecution
  import opened PayoutSolvency

  // ---------- guarded creation ----------

  predicate Fits(s: Store, user: UserId) { Reserved(s, user, {}) <= Confirmed(s, user) }

  /** What a change newly reserves: a row it stores, or a rejected one that a status write brings back. */
  function NewReservation(s: Store, change: Change): Option<Posting> {
    match change
    case AddAssignment(a) => if Stores(s, a) && AssignmentReserves(a.status) then Some(Posting(a.user, a.points)) else None
    case AddRedemption(r) => if RedemptionReserves(r.status) then Some(Posting(r.user, r.points)) else None
    case SetAssignment(id, status) =>
      if id < |s.assignments| && !AssignmentReserves(s.assignments[id].status) && AssignmentReserves(status)
      then Some(Posting(s.assignments[id].user, s.assignments[id].points)) else None
    case SetRedemption(id, status) =>
      if id < |s.redemptions| && !RedemptionReserves(s.redemptions[id].status) && RedemptionReserves(status)
      then Some(Posting(s.redemptions[id].user, s.redemptions[id].points)) else None
    case _ => None
  }

  /** A carryover is reconciled in place: its member, its batch and its standing as one remain. */
  predicate KeepsCutover(s: Store, change: Change) {
    change.SetCarryover? && change.at < |s.carryovers| ==>
      var c := s.carryovers[change.at];
      && change.carryover.user == c.user && change.carryover.executedAt == c.executedAt
      && (change.carryover.status == CarryoverVoid <==> c.status == CarryoverVoid)
  }

  /** A new reservation of the member, stored or brought back, fits with all their others. */
  predicate Guarded(s: Store, move: Move, user: UserId) {
    move.Outside? ==>
      && Plain(move.change) && KeepsCutover(s, move.change)
      && var n := NewReservation(s, move.change);
         n.Some? && n.value.user == user ==> Reserved(s, user, {}) + n.value.points <= Confirmed(s, user)
  }

  predicate GuardedRun(sys: System, moves: seq<Move>, user: UserId) {
    moves != [] ==>
      && GuardedRun(sys, moves[..|moves| - 1], user)
      && Guarded(Run(sys, moves[..|moves| - 1]).db.store, moves[|moves| - 1], user)
  }

  /** A new assignment carries a valuation the payout authority gives on the same state. */
  ghost predicate FundedAssignment(s: Store, a: Assignment) {
    exists terms :: Qualifies(s, None, terms, Beneficiary(a.user, a.points, a.amount))
  }

  /** A new redemption passes the payout authority on the same state. */
  predicate FundedRedemption(s: Store, r: Redemption) {
    var v := Valued(s, r.user, r.points, None);
    v.Ok? && v.value.reason.None?
  }

  /** The two valuation functions are such guards. */
  lemma FundedIsGuarded(s: Store, change: Change, user: UserId)
    requires Plain(change) && KeepsCutover(s, change)
    requires change.AddAssignment? ==> FundedAssignment(s, change.assignment)
    requires change.AddRedemption? ==> FundedRedemption(s, change.redemption)
    requires change.SetAssignment? || change.SetRedemption? ==> NewReservation(s, change).None?
    ensures Guarded(s, Outside(change), user)
  {
    if change.AddAssignment? {
      var a := change.assignment;
      var terms :| Qualifies(s, None, terms, Beneficiary(a.user, a.points, a.amount));
    }
  }

  predicate NoAssignments(s: Store, user: UserId) {
    forall i :: 0 <= i < |s.assignments| && s.assignments[i].user == user ==> !AssignmentReserves(s.assignments[i].status)
  }

  predicate PreCutover(s: Store, r: Redemption) {
    var cutover := CutoverOf(s.carryovers, r.user);
    cutover.Some? && r.createdAt <= cutover.value
  }

  /** The member's reserving redemptions are all pre-cutover, and nothing has priced one. */
  predicate OnlyPreCutover(s: Store, attempts: seq<Attempt>, user: UserId) {
    forall i: nat :: i < |s.redemptions| && s.redemptions[i].user == user && RedemptionReserves(s.redemptions[i].status) ==>
      PreCutover(s, s.redemptions[i]) && !HasPrice(attempts, ToRedemption(i))
  }

  predicate Explained(sys: System, user: UserId) {
    || Fits(sys.db.store, user)
    || (NoAssignments(sys.db.store, user) && OnlyPreCutover(sys.db.store, sys.attempts, user))
  }

  lemma CutoverSnoc(carryovers: seq<Carryover>, c: Carryover, user: UserId)
    ensures var before, after := CutoverOf(carryovers, user), CutoverOf(carryovers + [c], user);
      before.Some? ==> after.Some? && before.value <= after.value
  {
    assert (carryovers + [c])[..|carryovers|] == carryovers;
  }

  lemma {:induction false} CutoverUpdate(carryovers: seq<Carryover>, k: nat, c: Carryover, user: UserId)
    requires k < |carryovers| && c.user == carryovers[k].user && c.executedAt == carryovers[k].executedAt
    requires c.status == CarryoverVoid <==> carryovers[k].status == CarryoverVoid
    ensures CutoverOf(carryovers[k := c], user) == CutoverOf(carryovers, user)
  {
    var n := |carryovers| - 1;
    if k < n {
      assert carryovers[k := c][..n] == carryovers[..n][k := c];
      CutoverUpdate(carryovers[..n], k, c, user);
    } else {
      assert carryovers[k := c][..n] == carryovers[..n];
    }
  }

  /** Under guarded moves a member's cutover is never lost and never moves back. */
  lemma CutoverAdvances(s: Store, change: Change, user: UserId)
    requires KeepsCutover(s, change)
    ensures var before, after := CutoverOf(s.carryovers, user), CutoverOf(Apply(s, change).carryovers, user);
      before.Some? ==> after.Some? && before.value <= after.value
  {
    if change.AddCarryover? { CutoverSnoc(s.carryovers, change.carryover, user); }
    if change.SetCarryover? && change.at < |s.carryovers| { CutoverUpdate(s.carryovers, change.at, change.carryover, user); }
  }

  lemma ChangeFits(s: Store, change: Change, user: UserId)
    requires Guarded(s, Outside(change), user) && Fits(s, user)
    ensures Fits(Apply(s, change), user)
  {
    if change.Credit? {
      SumSnoc(s.ledger, Earned(), user, change.entry);
    } else if change.AddAssignment? || change.SetAssignment? {
      AssignmentFits(s, change, user);
    } else if change.AddRedemption? || change.SetRedemption? {
      RedemptionFits(s, change, user);
    }
  }

  lemma AssignmentFits(s: Store, change: Change, user: UserId)
    requires Guarded(s, Outside(change), user) && Fits(s, user) && (change.AddAssignment? || change.SetAssignment?)
    ensures Fits(Apply(s, change), user)
  {
    match change
    case AddAssignment(a) => SumSnoc(s.assignments, HeldAssignments(), user, a);
    case SetAssignment(id, status) =>
      if id < |s.assignments| {
        SumUpdate(s.assignments, HeldAssignments(), user, id, s.assignments[id].(status := status));
      }
  }

  lemma RedemptionFits(s: Store, change: Change, user: UserId)
    requires Guarded(s, Outside(change), user) && Fits(s, user) && (change.AddRedemption? || change.SetRedemption?)
    ensures Fits(Apply(s, change), user)
  {
    match change
    case AddRedemption(r) => SumSnoc(s.redemptions, HeldRedemptions({}), user, r);
    case SetRedemption(id, status) =>
      if id < |s.redemptions| {
        SumUpdate(s.redemptions, HeldRedemptions({}), user, id, s.redemptions[id].(status := status));
      }
  }

  lemma PaymentFits(s: Store, e: Execution, user: UserId)
    requires Exists(s, e.target) && IsPayable(s, e.target)
    ensures Reserved(SetPaid(s, e), user, {}) == Reserved(s, user, {})
  {
    var paid := SetPaid(s, e);
    assert RedemptionReserves(RedemptionPaid) && RedemptionReserves(RedemptionApproved);
    match e.target {
      case ToAssignment(id) => SumUpdate(s.assignments, HeldAssignments(), user, id, paid.assignments[id]);
      case ToRedemption(id) => SumUpdate(s.redemptions, HeldRedemptions({}), user, id, paid.redemptions[id]);
    }
  }

  lemma OverdrawnChange(s: Store, attempts: seq<Attempt>, change: Change, user: UserId)
    requires Guarded(s, Outside(change), user) && !Fits(s, user)
    requires NoAssignments(s, user) && OnlyPreCutover(s, attempts, user)
    ensures NoAssignments(Apply(s, change), user) && OnlyPreCutover(Apply(s, change), attempts, user)
  {
    CutoverAdvances(s, change, user);
  }

  /** While the member is overdrawn no attempt prices a row of theirs. */
  lemma OverdrawnPricing(sys: System, k: nat, user: UserId)
    requires Inv(sys) && Consistent(sys) && k < |sys.attempts| && !Fits(sys.db.store, user)
    requires OnlyPreCutover(sys.db.store, sys.attempts, user) && !sys.attempts[k].phase.Detailed?
    ensures OnlyPreCutover(sys.db.store, Enter(sys, k, NextPhase(sys, k)).attempts, user)
  {
    var a, s, next := sys.attempts[k], sys.db.store, NextPhase(sys, k);
    assert Sound(sys.db, a) && UpToDate(s, a);
    EnterPrices(sys, k, next);
    if a.phase.Cleared? && next.Priced? && RedemptionReserves(s.redemptions[a.target.id].status) {
      ExcludingFreesItsPoints(s, a.target.id, {});
      assert {} + {a.target.id} == Excluding(Some(a.target.id));
    } else if Carried(a.phase).Some? {
      assert a in sys.attempts;
      assert HasPrice(sys.attempts, a.target);
    }
  }

  /** Nor does any attempt then pay one: the row it holds is somebody else's. */
  lemma OverdrawnCommit(sys: System, k: nat, user: UserId)
    requires Inv(sys) && Consistent(sys) && k < |sys.attempts| && sys.attempts[k].phase.Detailed?
    requires NoAssignments(sys.db.store, user) && OnlyPreCutover(sys.db.store, sys.attempts, user)
    ensures var next := Commit(sys, k);
      NoAssignments(next.db.store, user) && OnlyPreCutover(next.db.store, next.attempts, user)
  {
    var a := sys.attempts[k];
    assert Sound(sys.db, a) && UpToDate(sys.db.store, a);
    assert a in sys.attempts;
    assert HasPrice(sys.attempts, a.target);
    EnterPrices(sys, k, Committed(a.phase.e));
  }

  lemma StepExplained(sys: System, move: Move, user: UserId)
    requires Inv(sys) && Consistent(sys) && Guarded(sys.db.store, move, user) && Explained(sys, user)
    ensures Explained(Step(sys, move), user)
  {
    if Fits(sys.db.store, user) {
      match move
      case Advance(k) =>
        if k < |sys.attempts| && sys.attempts[k].phase.Detailed? {
          CommitIsPayment(sys, k);
          assert Sound(sys.db, sys.attempts[k]);
          PaymentFits(sys.db.store, sys.attempts[k].phase.e, user);
        }
      case Outside(change) => if !Waits(sys, change) { ChangeFits(sys.db.store, change, user); }
      case _ =>
    } else {
      match move
      case Submit(t, raw) => SubmitPrices(sys, t, raw);
      case Advance(k) =>
        if k < |sys.attempts| {
          if sys.attempts[k].phase.Detailed? { OverdrawnCommit(sys, k, user); } else { OverdrawnPricing(sys, k, user); }
        }
      case Rollback(k) => if k < |sys.attempts| { EnterPrices(sys, k, Refused(RolledBack)); }
      case Outside(change) => if !Waits(sys, change) { OverdrawnChange(sys.db.store, sys.attempts, change, user); }
      case _ =>
    }
  }

  /** An overdrawn member's reservations are exactly their pre-cutover points. */
  lemma OverdrawnIsPreCutover(s: Store, attempts: seq<Attempt>, user: UserId)
    requires !Fits(s, user) && NoAssignments(s, user) && OnlyPreCutover(s, attempts, user)
    ensures Reserved(s, user, {}) == PreCutoverPoints(s, user, {})
  {
    NothingToSum(s.assignments, HeldAssignments(), user);
    match CutoverOf(s.carryovers, user)
    case None => NothingToSum(s.redemptions, HeldRedemptions({}), user);
    case Some(cutover) => SumAgrees(s.redemptions, HeldRedemptions({}), RaisedBy(cutover, {}), user);
  }

  /** Reservations exceed earnings only while each is a pre-cutover redemption, so that they are the
      figure reported as such, and then no redemption of the member is payable. */
  lemma {:induction false} OverdrawnIsLegacy(sys: System, moves: seq<Move>, user: UserId)
    requires Inv(sys) && Consistent(sys) && GuardedRun(sys, moves, user) && Explained(sys, user)
    ensures var done := Run(sys, moves);
      && Inv(done) && Consistent(done) && Explained(done, user)
      && (!Fits(done.db.store, user) ==>
           && NoAssignments(done.db.store, user)
           && OnlyPreCutover(done.db.store, done.attempts, user)
           && Reserved(done.db.store, user, {}) == PreCutoverPoints(done.db.store, user, {})
           && NonePayable(done.db, user))
  {
    if moves != [] {
      var before, move := moves[..|moves| - 1], moves[|moves| - 1];
      OverdrawnIsLegacy(sys, before, user);
      StepKeeps(Run(sys, before), move);
      StepKeepsConsistent(Run(sys, before), move);
      StepExplained(Run(sys, before), move, user);
    }
    var done := Run(sys, moves);
    if !Fits(done.db.store, user) {
      OverdrawnIsPreCutover(done.db.store, done.attempts, user);
      OverdrawnPaysNothing(done.db, user);
    }
  }

  // ---------- reserved within earnings, paid within earnings ----------

  predicate NeverFreed(sys: System, moves: seq<Move>, user: UserId) {
    !Freed(Run(sys, moves).db, user) && (moves != [] ==> NeverFreed(sys, moves[..|moves| - 1], user))
  }

  lemma ReopeningFreesNothing(db: Db, id: nat, status: AssignmentStatus, user: UserId)
    requires status != AssignmentRejected && !Freed(db, user)
    ensures !Freed(db.(store := Apply(db.store, SetAssignment(id, status))), user)
  {
    forall e | e in db.executions && e.user == user && Exists(db.store, e.target)
      ensures !IsRejected(Apply(db.store, SetAssignment(id, status)), e.target)
    {
      assert !IsRejected(db.store, e.target);
    }
  }

  /** A held row is reserved already, and what makes it payable commits no more than was reserved. */
  lemma HeldIsReserved(sys: System, id: nat, status: AssignmentStatus)
    requires Consistent(sys) && id < |sys.db.store.assignments| && sys.db.store.assignments[id].status == AssignmentHeld
    requires AssignmentOpen(status) && !TargetUsed(sys.db.executions, ToAssignment(id))
    requires !Freed(sys.db, sys.db.store.assignments[id].user)
    ensures var a := sys.db.store.assignments[id];
      Commitments(sys, a.user) + a.points <= Reserved(sys.db.store, a.user, {})
  {
    var s, row := sys.db.store, sys.db.store.assignments[id].(status := status);
    var next := sys.(db := sys.db.(store := Apply(s, SetAssignment(id, status))));
    OutsideKeepsPaid(sys.db, SetAssignment(id, status));
    ReopeningFreesNothing(sys.db, id, status, row.user);
    CommitmentsAreReserved(next, row.user);
    SumUpdate(s.assignments, CommittedAssignments(sys.db.executions), row.user, id, row);
    SumUpdate(s.assignments, HeldAssignments(), row.user, id, row);
  }

  lemma GuardedIsAllowed(sys: System, move: Move, user: UserId)
    requires Inv(sys) && Consistent(sys) && Guarded(sys.db.store, move, user) && Explained(sys, user) && !Freed(sys.db, user)
    ensures Allowed(sys, move, user)
  {
    CommitmentsAreReserved(sys, user);
    if move.Outside? && move.change.SetAssignment? && NewCommitment(sys, move.change).Some? {
      var id := move.change.id;
      var a := sys.db.store.assignments[id];
      if a.user == user && a.status == AssignmentHeld { HeldIsReserved(sys, id, move.change.assignmentStatus); }
      if a.status == AssignmentPaid { assert Exists(sys.db.store, ToAssignment(id)) && IsPaid(sys.db.store, ToAssignment(id)); }
    }
  }

  /** While reservations are made within earnings and no executed row is rejected, nothing else needs to
      be covered: nobody is paid more than they earned. */
  lemma {:induction false} GuardedRunsNeverOverpay(sys: System, moves: seq<Move>, user: UserId)
    requires Inv(sys) && Consistent(sys) && Explained(sys, user) && Solvent(sys, user)
    requires GuardedRun(sys, moves, user) && NeverFreed(sys, moves, user)
    ensures AllowedRun(sys, moves, user)
    ensures PaidOut(Run(sys, moves).db, user) <= Confirmed(Run(sys, moves).db.store, user)
  {
    if moves != [] {
      var before := moves[..|moves| - 1];
      GuardedRunsNeverOverpay(sys, before, user);
      OverdrawnIsLegacy(sys, before, user);
      GuardedIsAllowed(Run(sys, before), moves[|moves| - 1], user);
    }
    NeverOverpaid(sys, moves, user);
  }

  // ---------- an overdrawn member is paid nothing ----------

  ghost predicate NonePayable(db: Db, user: UserId) {
    forall id: nat, raw :: id < |db.store.redemptions| && db.store.redemptions[id].user == user ==>
      ExecuteSerially(db, ToRedemption(id), raw).1.Err?
  }

  lemma OverdrawnPaysNothing(db: Db, user: UserId)
    requires !Fits(db.store, user)
    ensures NonePayable(db, user)
  {
    if db.store.terms.Some? {
      forall id: nat, raw | id < |db.store.redemptions| && db.store.redemptions[id].user == user
        ensures ExecuteSerially(db, ToRedemption(id), raw).1.Err?
      {
        RedemptionPaidIffCovered(db, id, raw);
      }
    }
  }
}
