/** How much money a run of the executor pays: every payment carries the amount its own pricing step
    computed, and its row takes that amount when it is committed. */
module PayoutAmounts {
  import opened Prelude
  import opened PayoutAuthority
  import opened PayoutExecution
  import opened PayoutSolvency

  /** The platform after the first `n` moves of a run. */
  ghost function After(sys: System, moves: seq<Move>, n: nat): System
    requires n <= |moves|
  {
    Run(sys, moves[..n])
  }

  lemma AfterNext(sys: System, moves: seq<Move>, n: nat)
    requires n < |moves|
    ensures After(sys, moves, n + 1) == Step(After(sys, moves, n), moves[n])
  {
    assert moves[..n + 1][..n] == moves[..n];
  }

  /** In this state the redemption's points clear the minimum, fit what their owner earned beside
      every other reservation, and are worth the amount at the rate in force. */
  predicate Authoritative(s: Store, e: Execution) {
    && e.target.ToRedemption? && s.terms.Some?
    && e.points > 0 && e.points >= s.terms.value.minimum
    && Reserved(s, e.user, {e.target.id}) + e.points <= Confirmed(s, e.user)
    && e.amount == Worth(e.points, s.terms.value.rate)
  }

  predicate Carries(a: Attempt, e: Execution) { Carried(a.phase) == Some(e) }

  /** Move `i` is the statement of an attempt that prices the redemption, and prices it rightly. */
  ghost predicate PricedAt(sys: System, moves: seq<Move>, i: nat, e: Execution) {
    && i < |moves| && moves[i].Advance?
    && var k, before, after := moves[i].k, After(sys, moves, i), After(sys, moves, i + 1);
    && k < |before.attempts| && before.attempts[k].phase.Cleared?
    && k < |after.attempts| && Carries(after.attempts[k], e)
    && Authoritative(before.db.store, e)
  }

  ghost predicate PricedBefore(sys: System, moves: seq<Move>, n: nat, e: Execution) {
    exists i: nat :: i < n && PricedAt(sys, moves, i, e)
  }

  /** Whatever redemption an attempt carries was priced by an earlier move. */
  ghost predicate CarriesPriced(sys: System, moves: seq<Move>, n: nat)
    requires n <= |moves|
  {
    forall k, e :: 0 <= k < |After(sys, moves, n).attempts| && Carries(After(sys, moves, n).attempts[k], e) && e.target.ToRedemption? ==>
      PricedBefore(sys, moves, n, e)
  }

  /** Only pricing gives an attempt an execution it did not carry. */
  lemma StepCarries(sys: System, move: Move, k: nat, e: Execution)
    requires Inv(sys) && k < |Step(sys, move).attempts|
    requires Carries(Step(sys, move).attempts[k], e) && e.target.ToRedemption?
    ensures k < |sys.attempts|
    ensures Carries(sys.attempts[k], e)
         || (move == Advance(k) && sys.attempts[k].phase.Cleared? && Authoritative(sys.db.store, e))
  {
    if k < |sys.attempts| {
      var a := sys.attempts[k];
      assert Sound(sys.db, a);
      if move == Advance(k) && a.phase.Cleared? {
        assert a.target.ToRedemption?;
        PricingIsAuthoritative(sys.db.store, a, e);
      }
    }
  }

  lemma PricingIsAuthoritative(s: Store, a: Attempt, e: Execution)
    requires a.phase.Cleared? && a.target.ToRedemption?
    requires RedemptionValue(s, a.target.id, a.phase.row, a.reference) == Ok(e)
    ensures Authoritative(s, e)
  {
    assert Excluding(Some(a.target.id)) == {a.target.id};
  }

  lemma LaterStill(sys: System, moves: seq<Move>, n: nat, e: Execution)
    requires PricedBefore(sys, moves, n, e)
    ensures PricedBefore(sys, moves, n + 1, e)
  {
    var i: nat :| i < n && PricedAt(sys, moves, i, e);
  }

  lemma AttemptCarriesPriced(sys: System, moves: seq<Move>, n: nat, k: nat, e: Execution)
    requires n < |moves| && Inv(After(sys, moves, n)) && CarriesPriced(sys, moves, n)
    requires k < |After(sys, moves, n + 1).attempts| && Carries(After(sys, moves, n + 1).attempts[k], e) && e.target.ToRedemption?
    ensures PricedBefore(sys, moves, n + 1, e)
  {
    var before := After(sys, moves, n);
    AfterNext(sys, moves, n);
    StepCarries(before, moves[n], k, e);
    if Carries(before.attempts[k], e) {
      LaterStill(sys, moves, n, e);
    } else {
      assert PricedAt(sys, moves, n, e);
    }
  }

  lemma {:induction false} RunsCarryPriced(sys: System, moves: seq<Move>, n: nat)
    requires Inv(sys) && sys.attempts == [] && n <= |moves|
    ensures CarriesPriced(sys, moves, n)
  {
    if n > 0 {
      RunsCarryPriced(sys, moves, n - 1);
      ExactlyOnce(sys, moves[..n - 1]);
      var after := After(sys, moves, n);
      forall k, e | 0 <= k < |after.attempts| && Carries(after.attempts[k], e) && e.target.ToRedemption?
        ensures PricedBefore(sys, moves, n, e)
      {
        AttemptCarriesPriced(sys, moves, n - 1, k, e);
      }
    }
  }

  // ---------- the switch and the reference ----------

  /** Move `i` is the statement that lets attempt `k` in: the switch is on, and nobody has used its reference. */
  ghost predicate AdmittedAt(sys: System, moves: seq<Move>, i: nat, k: nat) {
    && i < |moves| && moves[i] == Advance(k)
    && var before := After(sys, moves, i);
    && k < |before.attempts| && before.attempts[k].phase == Begun && before.db.enabled
    && before.attempts[k].reference != "" && !ReferenceUsed(before.db.executions, before.attempts[k].reference)
  }

  ghost predicate AdmittedBefore(sys: System, moves: seq<Move>, n: nat, k: nat) {
    exists i: nat :: i < n && AdmittedAt(sys, moves, i, k)
  }

  /** An attempt past its beginning and not refused was let in by an earlier move. */
  ghost predicate AllAdmitted(sys: System, moves: seq<Move>, n: nat)
    requires n <= |moves|
  {
    forall k :: 0 <= k < |After(sys, moves, n).attempts| ==>
      var a := After(sys, moves, n).attempts[k];
      && (a.phase.Begun? ==> a.reference != "")
      && (!a.phase.Begun? && !a.phase.Refused? ==> AdmittedBefore(sys, moves, n, k))
  }

  /** A step lets in nobody but by the check, and changes no reference. */
  lemma StepAdmits(sys: System, move: Move, k: nat)
    requires k < |Step(sys, move).attempts|
    requires k < |sys.attempts| && sys.attempts[k].phase.Begun? ==> sys.attempts[k].reference != ""
    ensures var a := Step(sys, move).attempts[k];
      && (a.phase.Begun? ==> a.reference != "")
      && (!a.phase.Begun? && !a.phase.Refused? ==>
           && k < |sys.attempts|
           && (|| (!sys.attempts[k].phase.Begun? && !sys.attempts[k].phase.Refused?)
               || (&& move == Advance(k) && sys.attempts[k].phase == Begun && sys.db.enabled
                   && !ReferenceUsed(sys.db.executions, sys.attempts[k].reference))))
  {
  }

  lemma {:induction false} RunsAdmit(sys: System, moves: seq<Move>, n: nat)
    requires sys.attempts == [] && n <= |moves|
    ensures AllAdmitted(sys, moves, n)
  {
    if n > 0 {
      RunsAdmit(sys, moves, n - 1);
      AfterNext(sys, moves, n - 1);
      forall k | 0 <= k < |After(sys, moves, n).attempts|
        ensures var a := After(sys, moves, n).attempts[k];
          && (a.phase.Begun? ==> a.reference != "")
          && (!a.phase.Begun? && !a.phase.Refused? ==> AdmittedBefore(sys, moves, n, k))
      {
        AttemptAdmitted(sys, moves, n - 1, k);
      }
    }
  }

  lemma AttemptAdmitted(sys: System, moves: seq<Move>, n: nat, k: nat)
    requires n < |moves| && AllAdmitted(sys, moves, n) && k < |After(sys, moves, n + 1).attempts|
    ensures var a := After(sys, moves, n + 1).attempts[k];
      && (a.phase.Begun? ==> a.reference != "")
      && (!a.phase.Begun? && !a.phase.Refused? ==> AdmittedBefore(sys, moves, n + 1, k))
  {
    var before := After(sys, moves, n);
    AfterNext(sys, moves, n);
    StepAdmits(before, moves[n], k);
    var a := After(sys, moves, n + 1).attempts[k];
    if !a.phase.Begun? && !a.phase.Refused? {
      if before.attempts[k].phase.Begun? {
        assert AdmittedAt(sys, moves, n, k);
      } else {
        var i: nat :| i < n && AdmittedAt(sys, moves, i, k);
      }
    }
  }

  // ---------- what is committed ----------

  /** Move `j` commits the payment of an open row, as a payment of that row in that state must be. */
  ghost predicate CommittedAt(sys: System, moves: seq<Move>, j: nat, e: Execution) {
    && j < |moves|
    && var before, after := After(sys, moves, j).db, After(sys, moves, j + 1).db;
    && after.executions == before.executions + [e] && after.store != before.store
    && RowTakes(before.store, e, after.store)
  }

  /** The row was open, was the payee's, and is paid the amount; no other row is touched. */
  predicate RowTakes(s: Store, e: Execution, s': Store) {
    match e.target
    case ToAssignment(id) =>
      && id < |s.assignments|
      && var a := s.assignments[id];
      && a.status in {AssignmentApproved, AssignmentProcessing} && a.priced && a.amount == e.amount > 0
      && a.user == e.user && a.points == e.points
      && s' == s.(assignments := s.assignments[id := a.(status := AssignmentPaid)])
    case ToRedemption(id) =>
      && id < |s.redemptions|
      && var r := s.redemptions[id];
      && r.status == RedemptionApproved && r.user == e.user && r.points == e.points
      && s' == s.(redemptions := s.redemptions[id := r.(status := RedemptionPaid, amount := e.amount)])
  }

  lemma StepCommits(sys: System, move: Move, e: Execution)
    requires Inv(sys) && Consistent(sys)
    requires e in Step(sys, move).db.executions && e !in sys.db.executions
    ensures move.Advance? && move.k < |sys.attempts| && Carries(sys.attempts[move.k], e)
    ensures Step(sys, move).db.executions == sys.db.executions + [e]
    ensures RowTakes(sys.db.store, e, Step(sys, move).db.store)
  {
    if move.Advance? && move.k < |sys.attempts| && sys.attempts[move.k].phase.Detailed? {
      CommitIsPayment(sys, move.k);
      assert Sound(sys.db, sys.attempts[move.k]);
    }
  }

  ghost predicate PaidRightly(sys: System, moves: seq<Move>, n: nat, e: Execution) {
    exists j: nat :: j < n && PaidAt(sys, moves, j, e)
  }

  /** Committed by an attempt let in earlier, a redemption at the price of an earlier statement. */
  ghost predicate PaidAt(sys: System, moves: seq<Move>, j: nat, e: Execution) {
    && CommittedAt(sys, moves, j, e) && moves[j].Advance? && AdmittedBefore(sys, moves, j, moves[j].k)
    && (e.target.ToRedemption? ==> PricedBefore(sys, moves, j, e))
  }

  /** Under every interleaving: each new payment was committed by one move, to an open row of its payee
      and for its points, by an attempt let in with the switch on and a fresh reference; an assignment for
      the amount its row was priced at, a redemption for what its points were worth, and covered, in the
      state of the earlier move that priced it. */
  lemma {:induction false} PaymentsAreAuthoritative(sys: System, moves: seq<Move>, n: nat, e: Execution)
    requires Inv(sys) && Consistent(sys) && PlainRun(moves) && sys.attempts == []
    requires n <= |moves| && e in After(sys, moves, n).db.executions && e !in sys.db.executions
    ensures PaidRightly(sys, moves, n, e)
  {
    assert n > 0;
    var j: nat := n - 1;
    var before := After(sys, moves, j);
    AfterNext(sys, moves, j);
    if e in before.db.executions {
      PaymentsAreAuthoritative(sys, moves, j, e);
      var earlier: nat :| earlier < j && PaidAt(sys, moves, earlier, e);
    } else {
      RunsStayConsistent(sys, moves[..j]);
      StepCommits(before, moves[j], e);
      RunsCarryPriced(sys, moves, j);
      RunsAdmit(sys, moves, j);
      assert CommittedAt(sys, moves, j, e);
      assert PaidAt(sys, moves, j, e);
    }
  }
}
