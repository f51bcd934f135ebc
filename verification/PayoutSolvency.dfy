/** What payments cost over whole runs: which rows end paid, and that nobody is paid more points than
    they earned, across both money-out paths and whatever statuses other routes write. */
module PayoutSolvency {
  import opened Prelude
  import opened PayoutAuthority
  import opened PayoutExecution

  // ---------- what the rest of the platform may do ----------

  /** The rest of the platform never writes the paid status; what else it writes, and over which
      status, is open. */
  predicate Plain(change: Change) {
    match change
    case AddAssignment(a) => a.status != AssignmentPaid
    case AddRedemption(r) => r.status != RedemptionPaid
    case SetAssignment(_, status) => status != AssignmentPaid
    case SetRedemption(_, status) => status != RedemptionPaid
    case _ => true
  }

  predicate PlainMove(move: Move) { move.Outside? ==> Plain(move.change) }

  predicate PlainRun(moves: seq<Move>) { forall m :: m in moves ==> PlainMove(m) }

  // ---------- paid rows and executions ----------

  /** Rows keep their owner and points, assignments also their price, and none is removed. */
  predicate Grows(s: Store, s': Store) {
    && |s.assignments| <= |s'.assignments| && |s.redemptions| <= |s'.redemptions|
    && (forall i :: 0 <= i < |s.assignments| ==> s'.assignments[i].(status := s.assignments[i].status) == s.assignments[i])
    && (forall i :: 0 <= i < |s.redemptions| ==>
         s'.redemptions[i].user == s.redemptions[i].user && s'.redemptions[i].points == s.redemptions[i].points)
  }

  /** An execution names an existing row, its owner and its points. */
  predicate Describes(s: Store, e: Execution) {
    Exists(s, e.target) && e.user == OwnerOf(s, e.target) && e.points == PointsOf(s, e.target)
  }

  predicate Matches(s: Store, e: Execution) {
    && Describes(s, e)
    && (e.target.ToAssignment? ==> AssignmentValue(s, e.target.id, e.reference) == Ok(e))
  }

  predicate RowIs(s: Store, t: Target, row: Redemption) {
    && t.ToRedemption? && Exists(s, t)
    && row.user == OwnerOf(s, t) && row.points == PointsOf(s, t)
  }

  /** What an open attempt read still describes its row, and a row it holds is still payable. */
  predicate UpToDate(s: Store, a: Attempt) {
    && (Carried(a.phase).Some? && !a.phase.Committed? ==> Matches(s, Carried(a.phase).value))
    && (a.phase.Loaded? || a.phase.Cleared? ==> RowIs(s, a.target, a.phase.row))
    && (Holding(a) ==> Exists(s, a.target) && IsPayable(s, a.target))
  }

  ghost predicate PaidIsExecuted(db: Db) {
    && (forall i :: 0 <= i < |db.executions| ==> Describes(db.store, db.executions[i]))
    && (forall t :: Exists(db.store, t) && IsPaid(db.store, t) ==> TargetUsed(db.executions, t))
  }

  ghost predicate Consistent(sys: System) {
    PaidIsExecuted(sys.db) && forall i :: 0 <= i < |sys.attempts| ==> UpToDate(sys.db.store, sys.attempts[i])
  }

  lemma ApplyGrows(s: Store, change: Change)
    ensures Grows(s, Apply(s, change))
  {
  }

  lemma GrowsMatches(s: Store, s': Store, e: Execution)
    requires Grows(s, s') && Matches(s, e)
    ensures Matches(s', e)
  {
  }

  lemma OutsideKeepsPaid(db: Db, change: Change)
    requires PaidIsExecuted(db) && Plain(change)
    ensures PaidIsExecuted(db.(store := Apply(db.store, change)))
  {
    var s, s' := db.store, Apply(db.store, change);
    ApplyGrows(s, change);
    forall i | 0 <= i < |db.executions| ensures Describes(s', db.executions[i]) {
      assert Describes(s, db.executions[i]);
    }
    forall t | Exists(s', t) && IsPaid(s', t) ensures TargetUsed(db.executions, t) {
      assert Exists(s, t) && IsPaid(s, t);
    }
  }

  lemma OutsideKeeps(sys: System, change: Change)
    requires Inv(sys) && Consistent(sys) && Plain(change) && !Waits(sys, change)
    ensures Consistent(Step(sys, Outside(change)))
  {
    var s, s' := sys.db.store, Apply(sys.db.store, change);
    OutsideKeepsPaid(sys.db, change);
    ApplyGrows(s, change);
    forall i | 0 <= i < |sys.attempts| ensures UpToDate(s', sys.attempts[i]) {
      OutsideKeepsAttempt(sys, change, i);
    }
  }

  lemma OutsideKeepsAttempt(sys: System, change: Change, i: nat)
    requires Inv(sys) && Consistent(sys) && !Waits(sys, change) && i < |sys.attempts|
    ensures UpToDate(Apply(sys.db.store, change), sys.attempts[i])
  {
    var s, s', a := sys.db.store, Apply(sys.db.store, change), sys.attempts[i];
    ApplyGrows(s, change);
    assert UpToDate(s, a);
    if Carried(a.phase).Some? && !a.phase.Committed? { GrowsMatches(s, s', Carried(a.phase).value); }
    if Holding(a) {
      assert Locked(sys, a.target);
    }
  }

  lemma AdvanceIsUpToDate(sys: System, k: nat)
    requires Inv(sys) && Consistent(sys) && k < |sys.attempts| && !sys.attempts[k].phase.Detailed?
    ensures UpToDate(sys.db.store, sys.attempts[k].(phase := NextPhase(sys, k)))
  {
    assert Sound(sys.db, sys.attempts[k]) && UpToDate(sys.db.store, sys.attempts[k]);
  }

  lemma SetPaidEffect(s: Store, e: Execution)
    requires Exists(s, e.target)
    ensures Grows(s, SetPaid(s, e))
    ensures forall t :: Exists(SetPaid(s, e), t) <==> Exists(s, t)
    ensures forall t :: Exists(s, t) ==> (IsPaid(SetPaid(s, e), t) <==> IsPaid(s, t) || t == e.target)
    ensures forall t :: Exists(s, t) && t != e.target ==> (IsPayable(SetPaid(s, e), t) <==> IsPayable(s, t))
  {
  }

  lemma RecordedIsExecuted(db: Db, e: Execution)
    requires PaidIsExecuted(db) && Matches(db.store, e)
    ensures PaidIsExecuted(Recorded(db, e))
  {
    var next := Recorded(db, e);
    SetPaidEffect(db.store, e);
    forall i | 0 <= i < |next.executions| ensures Describes(next.store, next.executions[i]) {
      if i < |db.executions| { assert Describes(db.store, db.executions[i]); }
    }
    forall t | Exists(next.store, t) && IsPaid(next.store, t) ensures TargetUsed(next.executions, t) {
      if t == e.target {
        assert e in next.executions;
      } else {
        var x :| x in db.executions && x.target == t;
        assert x in next.executions;
      }
    }
  }

  lemma CommitKeepsConsistent(sys: System, k: nat)
    requires Inv(sys) && Consistent(sys) && k < |sys.attempts| && sys.attempts[k].phase.Detailed?
    ensures Consistent(Commit(sys, k))
  {
    var a, s := sys.attempts[k], sys.db.store;
    var e, next := a.phase.e, Commit(sys, k);
    assert UpToDate(s, a) && Sound(sys.db, a);
    RecordedIsExecuted(sys.db, e);
    SetPaidEffect(s, e);
    forall i | 0 <= i < |next.attempts| ensures UpToDate(next.db.store, next.attempts[i]) {
      var b := sys.attempts[i];
      assert UpToDate(s, b);
      if i != k {
        assert i < k ==> Apart(b, a);
        assert k < i ==> Apart(a, b);
        if Carried(b.phase).Some? && !b.phase.Committed? { GrowsMatches(s, next.db.store, Carried(b.phase).value); }
      }
    }
  }

  lemma StepKeepsConsistent(sys: System, move: Move)
    requires Inv(sys) && Consistent(sys) && PlainMove(move)
    ensures Consistent(Step(sys, move))
  {
    match move
    case Submit(t, raw) =>
    case Advance(k) =>
      if k < |sys.attempts| {
        if sys.attempts[k].phase.Detailed? { CommitKeepsConsistent(sys, k); } else { AdvanceIsUpToDate(sys, k); }
      }
    case Rollback(k) =>
    case Switch(on) =>
    case Outside(change) => if !Waits(sys, change) { OutsideKeeps(sys, change); }
  }

  /** At its commit an attempt's row is still payable and nobody has paid it. The commit is what the
      serial executor would do in that very state iff the valuation it read still stands; that of
      an assignment always does. */
  lemma CommitIsPayment(sys: System, k: nat)
    requires Inv(sys) && Consistent(sys) && k < |sys.attempts| && sys.attempts[k].phase.Detailed?
    ensures var a, e := sys.attempts[k], sys.attempts[k].phase.e;
      && Exists(sys.db.store, a.target) && IsPayable(sys.db.store, a.target)
      && !TargetUsed(sys.db.executions, a.target) && !ReferenceUsed(sys.db.executions, a.reference)
      && e.user == OwnerOf(sys.db.store, a.target) && e.points == PointsOf(sys.db.store, a.target)
      && Commit(sys, k).db == Recorded(sys.db, e)
      && (Pay(sys.db, a.target, a.reference) == (Commit(sys, k).db, Ok(e)) <==> ValueOf(sys.db.store, a.target, a.reference) == Ok(e))
      && (a.target.ToAssignment? ==> ValueOf(sys.db.store, a.target, a.reference) == Ok(e))
  {
    assert Sound(sys.db, sys.attempts[k]) && UpToDate(sys.db.store, sys.attempts[k]);
  }

  lemma {:induction false} RunsStayConsistent(sys: System, moves: seq<Move>)
    requires Inv(sys) && Consistent(sys) && PlainRun(moves)
    ensures Inv(Run(sys, moves)) && Consistent(Run(sys, moves))
  {
    if moves != [] {
      RunsStayConsistent(sys, moves[..|moves| - 1]);
      StepKeeps(Run(sys, moves[..|moves| - 1]), moves[|moves| - 1]);
      StepKeepsConsistent(Run(sys, moves[..|moves| - 1]), moves[|moves| - 1]);
    }
  }

  // ---------- which rows end paid ----------

  predicate Writes(change: Change, t: Target) {
    match change
    case SetAssignment(id, _) => t == ToAssignment(id)
    case SetRedemption(id, _) => t == ToRedemption(id)
    case _ => false
  }

  predicate Paid(s: Store, t: Target) { Exists(s, t) && IsPaid(s, t) }

  /** A status write that lands on a row already paid. */
  predicate Overwrites(sys: System, move: Move, t: Target) {
    move.Outside? && Writes(move.change, t) && !Waits(sys, move.change) && Paid(sys.db.store, t)
  }

  predicate Overwritten(sys: System, moves: seq<Move>, t: Target) {
    && moves != []
    && (|| Overwritten(sys, moves[..|moves| - 1], t)
        || Overwrites(Run(sys, moves[..|moves| - 1]), moves[|moves| - 1], t))
  }

  /** One step pays a row iff it executes it, and unpays it iff it writes over it. */
  lemma StepPays(sys: System, move: Move, t: Target)
    requires Inv(sys) && Consistent(sys) && PlainMove(move)
    ensures var next := Step(sys, move);
      && (TargetUsed(sys.db.executions, t) ==> TargetUsed(next.db.executions, t))
      && (Paid(next.db.store, t) <==>
           || (Paid(sys.db.store, t) && !Overwrites(sys, move, t))
           || (TargetUsed(next.db.executions, t) && !TargetUsed(sys.db.executions, t)))
  {
    if move.Advance? && move.k < |sys.attempts| && sys.attempts[move.k].phase.Detailed? {
      CommitIsPayment(sys, move.k);
      var e, executions := sys.attempts[move.k].phase.e, sys.db.executions;
      assert Sound(sys.db, sys.attempts[move.k]);
      SetPaidEffect(sys.db.store, e);
      assert forall x :: x in executions + [e] <==> x in executions || x == e;
    } else if move.Outside? && !Waits(sys, move.change) {
      ChangePays(sys.db, move.change, t);
    }
  }

  lemma ChangePays(db: Db, change: Change, t: Target)
    requires PaidIsExecuted(db) && Plain(change)
    ensures Paid(Apply(db.store, change), t) <==> Paid(db.store, t) && !Writes(change, t)
  {
  }

  predicate OnlyExecution(db: Db, i: nat, t: Target) {
    && i < |db.executions| && db.executions[i].target == t
    && forall j :: 0 <= j < |db.executions| && db.executions[j].target == t ==> j == i
  }

  lemma OnlyExecutionIff(db: Db, t: Target)
    requires OnceEach(db) && PaidIsExecuted(db)
    ensures TargetUsed(db.executions, t) <==> exists i: nat :: OnlyExecution(db, i, t)
    ensures forall i: nat :: OnlyExecution(db, i, t) ==>
      Exists(db.store, t) && db.executions[i].points == PointsOf(db.store, t) && db.executions[i].user == OwnerOf(db.store, t)
  {
    if TargetUsed(db.executions, t) {
      var e :| e in db.executions && e.target == t;
      var i: nat :| i < |db.executions| && db.executions[i] == e;
      assert OnlyExecution(db, i, t);
    }
    forall i: nat | OnlyExecution(db, i, t)
      ensures Exists(db.store, t) && db.executions[i].points == PointsOf(db.store, t) && db.executions[i].user == OwnerOf(db.store, t)
    {
      assert db.executions[i] in db.executions && Describes(db.store, db.executions[i]);
    }
  }

  lemma {:induction false} PaidUnlessOverwritten(sys: System, moves: seq<Move>, t: Target)
    requires Inv(sys) && Consistent(sys) && PlainRun(moves)
    requires TargetUsed(sys.db.executions, t) ==> Paid(sys.db.store, t)
    ensures var db := Run(sys, moves).db;
      && (Paid(db.store, t) <==> TargetUsed(db.executions, t) && !Overwritten(sys, moves, t))
      && (Overwritten(sys, moves, t) ==> TargetUsed(db.executions, t))
  {
    RunsStayConsistent(sys, moves);
    if moves != [] {
      var before, move := moves[..|moves| - 1], moves[|moves| - 1];
      RunsStayConsistent(sys, before);
      PaidUnlessOverwritten(sys, before, t);
      assert move in moves;
      StepPays(Run(sys, before), move, t);
    }
  }

  /** Whatever statuses other routes write: a row is paid iff exactly one execution names it and no
      status write has landed on it since; that execution pays the row's owner the row's points. */
  lemma PaidIffExecutedOnce(sys: System, moves: seq<Move>, t: Target)
    requires Inv(sys) && Consistent(sys) && PlainRun(moves)
    requires TargetUsed(sys.db.executions, t) ==> Paid(sys.db.store, t)
    ensures var db := Run(sys, moves).db;
      && (Paid(db.store, t) <==> (exists i: nat :: OnlyExecution(db, i, t)) && !Overwritten(sys, moves, t))
      && ((Paid(db.store, t) <==> exists i: nat :: OnlyExecution(db, i, t)) <==> !Overwritten(sys, moves, t))
      && forall i: nat :: OnlyExecution(db, i, t) ==>
           Exists(db.store, t) && db.executions[i].points == PointsOf(db.store, t) && db.executions[i].user == OwnerOf(db.store, t)
  {
    RunsStayConsistent(sys, moves);
    ExactlyOnce(sys, moves);
    PaidUnlessOverwritten(sys, moves, t);
    OnlyExecutionIff(Run(sys, moves).db, t);
  }

  // ---------- sums that move ----------

  lemma SumSnoc<R>(rows: seq<R>, query: Query<R>, user: UserId, r: R)
    ensures Sum(rows + [r], query, user) == Sum(rows, query, user) + PointsFor(query(|rows|, r), user)
  {
    assert (rows + [r])[..|rows|] == rows;
  }

  lemma {:induction false} SumSame<R>(rows: seq<R>, q: Query<R>, rows': seq<R>, q': Query<R>, user: UserId)
    requires |rows| == |rows'|
    requires forall i: nat :: i < |rows| ==> PointsFor(q(i, rows[i]), user) == PointsFor(q'(i, rows'[i]), user)
    ensures Sum(rows, q, user) == Sum(rows', q', user)
  {
    if rows != [] { SumSame(rows[..|rows| - 1], q, rows'[..|rows| - 1], q', user); }
  }

  /** Tables and queries that differ at one row give sums that differ by what that row contributes. */
  lemma {:induction false} SumChange<R>(rows: seq<R>, q: Query<R>, rows': seq<R>, q': Query<R>, user: UserId, k: nat)
    requires k < |rows| == |rows'|
    requires forall i: nat :: i < |rows| && i != k ==> PointsFor(q(i, rows[i]), user) == PointsFor(q'(i, rows'[i]), user)
    ensures Sum(rows', q', user) + PointsFor(q(k, rows[k]), user) == Sum(rows, q, user) + PointsFor(q'(k, rows'[k]), user)
  {
    var n := |rows| - 1;
    if k == n {
      SumSame(rows[..n], q, rows'[..n], q', user);
    } else {
      SumChange(rows[..n], q, rows'[..n], q', user, k);
    }
  }

  lemma SumUpdate<R>(rows: seq<R>, query: Query<R>, user: UserId, k: nat, r: R)
    requires k < |rows|
    ensures Sum(rows[k := r], query, user) + PointsFor(query(k, rows[k]), user)
      == Sum(rows, query, user) + PointsFor(query(k, r), user)
  {
    SumChange(rows, query, rows[k := r], query, user, k);
  }

  // ---------- what a member's rows may still cost ----------

  predicate HasPrice(attempts: seq<Attempt>, t: Target) {
    exists a :: a in attempts && a.target == t && Carried(a.phase).Some?
  }

  /** The states from which routes and executor can still pay an assignment; a held one is not among
      them, as no route that reads it so makes it payable. */
  predicate AssignmentOpen(status: AssignmentStatus) {
    status in {AssignmentPending, AssignmentEligible, AssignmentApproved, AssignmentProcessing}
  }

  /** Assignments executed, whatever their status says now, or still open. */
  function CommittedAssignments(executions: seq<Execution>): Query<Assignment> {
    (i: nat, a: Assignment) =>
      if AssignmentOpen(a.status) || TargetUsed(executions, ToAssignment(i)) then Some(Posting(a.user, a.points)) else None
  }

  /** Redemptions executed, or priced by some attempt while they reserve. */
  function Backed(executions: seq<Execution>, attempts: seq<Attempt>): Query<Redemption> {
    (i: nat, r: Redemption) =>
      if || TargetUsed(executions, ToRedemption(i))
         || (RedemptionReserves(r.status) && HasPrice(attempts, ToRedemption(i)))
      then Some(Posting(r.user, r.points)) else None
  }

  function Commitments(sys: System, user: UserId): nat {
    Sum(sys.db.store.assignments, CommittedAssignments(sys.db.executions), user)
      + Sum(sys.db.store.redemptions, Backed(sys.db.executions, sys.attempts), user)
  }

  predicate Solvent(sys: System, user: UserId) { Commitments(sys, user) <= Confirmed(sys.db.store, user) }

  /** With these points too, the member's commitments stay within what they earned. */
  predicate Within(sys: System, p: Posting) { Commitments(sys, p.user) + p.points <= Confirmed(sys.db.store, p.user) }

  predicate Covered(sys: System, a: Assignment) { Within(sys, Posting(a.user, a.points)) }

  /** Whether the cycle still lacks the member's assignment, so that adding this one stores it. */
  predicate Stores(s: Store, a: Assignment) { !CycleTaken(s, a.cycle, a.user) }

  /** What a change newly commits: an assignment it stores, or a row that a status write brings back. */
  function NewCommitment(sys: System, change: Change): Option<Posting> {
    var s, executions := sys.db.store, sys.db.executions;
    match change
    case AddAssignment(a) => if Stores(s, a) && AssignmentOpen(a.status) then Some(Posting(a.user, a.points)) else None
    case SetAssignment(id, status) =>
      if id < |s.assignments| && !AssignmentOpen(s.assignments[id].status) && AssignmentOpen(status)
         && !TargetUsed(executions, ToAssignment(id))
      then Some(Posting(s.assignments[id].user, s.assignments[id].points)) else None
    case SetRedemption(id, status) =>
      if id < |s.redemptions| && !RedemptionReserves(s.redemptions[id].status) && RedemptionReserves(status)
         && HasPrice(sys.attempts, ToRedemption(id)) && !TargetUsed(executions, ToRedemption(id))
      then Some(Posting(s.redemptions[id].user, s.redemptions[id].points)) else None
    case _ => None
  }

  predicate IsRejected(s: Store, t: Target)
    requires Exists(s, t)
  {
    match t
    case ToAssignment(id) => s.assignments[id].status == AssignmentRejected
    case ToRedemption(id) => s.redemptions[id].status == RedemptionRejected
  }

  /** A status write has rejected a row of the member's that was already executed, so that the balance
      no longer counts it. */
  predicate Freed(db: Db, user: UserId) {
    exists e :: e in db.executions && e.user == user && Exists(db.store, e.target) && IsRejected(db.store, e.target)
  }

  predicate Prices(sys: System, k: nat, user: UserId) {
    && k < |sys.attempts| && sys.attempts[k].target.ToRedemption?
    && sys.attempts[k].phase.Cleared? && sys.attempts[k].phase.row.user == user
  }

  /** Nothing outside writes the paid status; what newly commits the member is covered, and so is a
      redemption priced while an executed row of theirs stands rejected. */
  predicate Allowed(sys: System, move: Move, user: UserId) {
    match move
    case Outside(change) =>
      && Plain(change)
      && var n := NewCommitment(sys, change);
         n.Some? && n.value.user == user && !Waits(sys, change) ==> Within(sys, n.value)
    case Advance(k) =>
      Prices(sys, k, user) && Freed(sys.db, user) ==> Within(sys, Posting(user, sys.attempts[k].phase.row.points))
    case _ => true
  }

  /** Each move is allowed in the state it is made in. */
  predicate AllowedRun(sys: System, moves: seq<Move>, user: UserId) {
    moves != [] ==>
      && AllowedRun(sys, moves[..|moves| - 1], user)
      && Allowed(Run(sys, moves[..|moves| - 1]), moves[|moves| - 1], user)
  }

  lemma {:induction false} AllowedIsPlain(sys: System, moves: seq<Move>, user: UserId)
    requires AllowedRun(sys, moves, user)
    ensures PlainRun(moves)
  {
    if moves != [] { AllowedIsPlain(sys, moves[..|moves| - 1], user); }
  }

  // ---------- executions add up to the executed rows ----------

  function PaidTo(): Query<Execution> { (i: nat, e: Execution) => Some(Posting(e.user, e.points)) }

  function PaidOut(db: Db, user: UserId): nat { Sum(db.executions, PaidTo(), user) }

  function ExecutedAssignments(executions: seq<Execution>): Query<Assignment> {
    (i: nat, a: Assignment) => if TargetUsed(executions, ToAssignment(i)) then Some(Posting(a.user, a.points)) else None
  }

  function ExecutedRedemptions(executions: seq<Execution>): Query<Redemption> {
    (i: nat, r: Redemption) => if TargetUsed(executions, ToRedemption(i)) then Some(Posting(r.user, r.points)) else None
  }

  function ExecutedPoints(s: Store, executions: seq<Execution>, user: UserId): nat {
    Sum(s.assignments, ExecutedAssignments(executions), user) + Sum(s.redemptions, ExecutedRedemptions(executions), user)
  }

  lemma {:induction false} NothingToSum<R>(rows: seq<R>, query: Query<R>, user: UserId)
    requires forall i: nat :: i < |rows| ==> PointsFor(query(i, rows[i]), user) == 0
    ensures Sum(rows, query, user) == 0
  {
    if rows != [] { NothingToSum(rows[..|rows| - 1], query, user); }
  }

  lemma OneMoreExecuted(s: Store, executions: seq<Execution>, e: Execution, user: UserId)
    requires Describes(s, e) && !TargetUsed(executions, e.target)
    ensures ExecutedPoints(s, executions + [e], user) == ExecutedPoints(s, executions, user) + (if e.user == user then e.points else 0)
  {
    var more := executions + [e];
    assert forall x :: x in more <==> x in executions || x == e;
    assert forall t :: TargetUsed(more, t) <==> TargetUsed(executions, t) || t == e.target;
    match e.target {
      case ToAssignment(id) =>
        SumChange(s.assignments, ExecutedAssignments(executions), s.assignments, ExecutedAssignments(more), user, id);
        SumAgrees(s.redemptions, ExecutedRedemptions(executions), ExecutedRedemptions(more), user);
      case ToRedemption(id) =>
        SumAgrees(s.assignments, ExecutedAssignments(executions), ExecutedAssignments(more), user);
        SumChange(s.redemptions, ExecutedRedemptions(executions), s.redemptions, ExecutedRedemptions(more), user, id);
    }
  }

  /** What was paid to a member is what their executed rows are worth, whatever those rows say now. */
  lemma {:induction false} PaidOutIsExecuted(s: Store, executions: seq<Execution>, user: UserId)
    requires forall i :: 0 <= i < |executions| ==> Describes(s, executions[i])
    requires forall i, j :: 0 <= i < j < |executions| ==> executions[i].target != executions[j].target
    ensures Sum(executions, PaidTo(), user) == ExecutedPoints(s, executions, user)
  {
    if executions == [] {
      assert forall t :: !TargetUsed(executions, t);
      NothingToSum(s.assignments, ExecutedAssignments([]), user);
      NothingToSum(s.redemptions, ExecutedRedemptions([]), user);
    } else {
      var n := |executions| - 1;
      PaidOutIsExecuted(s, executions[..n], user);
      assert executions == executions[..n] + [executions[n]];
      OneMoreExecuted(s, executions[..n], executions[n], user);
    }
  }

  // ---------- nobody is overpaid ----------

  lemma SolventBoundsPayments(sys: System, user: UserId)
    requires Inv(sys) && Consistent(sys) && Solvent(sys, user)
    ensures PaidOut(sys.db, user) <= Confirmed(sys.db.store, user)
  {
    var s, executions := sys.db.store, sys.db.executions;
    PaidOutIsExecuted(s, executions, user);
    SumAtMost(s.assignments, ExecutedAssignments(executions), CommittedAssignments(executions), user);
    SumAtMost(s.redemptions, ExecutedRedemptions(executions), Backed(executions, sys.attempts), user);
  }

  /** Unless an executed row of theirs was rejected, a member's commitments are among the reservations
      every valuation counts. */
  lemma CommitmentsAreReserved(sys: System, user: UserId)
    requires PaidIsExecuted(sys.db) && !Freed(sys.db, user)
    ensures Commitments(sys, user) <= Reserved(sys.db.store, user, {})
  {
    var s, executions := sys.db.store, sys.db.executions;
    forall t | TargetUsed(executions, t) && Exists(s, t) && OwnerOf(s, t) == user ensures !IsRejected(s, t) {
      var e :| e in executions && e.target == t;
      assert Describes(s, e);
    }
    forall i: nat | i < |s.assignments|
      ensures PointsFor(CommittedAssignments(executions)(i, s.assignments[i]), user) <= PointsFor(HeldAssignments()(i, s.assignments[i]), user)
    {
      assert Exists(s, ToAssignment(i));
    }
    forall i: nat | i < |s.redemptions|
      ensures PointsFor(Backed(executions, sys.attempts)(i, s.redemptions[i]), user)
           <= PointsFor(HeldRedemptions({})(i, s.redemptions[i]), user)
    {
      assert Exists(s, ToRedemption(i));
    }
    SumAtMost(s.assignments, CommittedAssignments(executions), HeldAssignments(), user);
    SumAtMost(s.redemptions, Backed(executions, sys.attempts), HeldRedemptions({}), user);
  }

  /** Fewer priced attempts commit no more. */
  lemma FewerPrices(sys: System, attempts: seq<Attempt>, user: UserId)
    requires forall i: nat :: i < |sys.db.store.redemptions| && HasPrice(attempts, ToRedemption(i)) ==> HasPrice(sys.attempts, ToRedemption(i))
    ensures Commitments(sys.(attempts := attempts), user) <= Commitments(sys, user)
  {
    SumAtMost(sys.db.store.redemptions, Backed(sys.db.executions, attempts), Backed(sys.db.executions, sys.attempts), user);
  }

  lemma EnterPrices(sys: System, k: nat, phase: Phase)
    requires k < |sys.attempts|
    ensures forall t :: HasPrice(Enter(sys, k, phase).attempts, t) ==>
      HasPrice(sys.attempts, t) || (t == sys.attempts[k].target && Carried(phase).Some?)
    ensures forall t :: HasPrice(sys.attempts, t) && t != sys.attempts[k].target ==> HasPrice(Enter(sys, k, phase).attempts, t)
  {
    var next := Enter(sys, k, phase).attempts;
    forall t | HasPrice(next, t) ensures HasPrice(sys.attempts, t) || (t == sys.attempts[k].target && Carried(phase).Some?) {
      var a :| a in next && a.target == t && Carried(a.phase).Some?;
      var j :| 0 <= j < |sys.attempts| && next[j] == a;
      if j != k { assert sys.attempts[j] == a; }
    }
    forall t | HasPrice(sys.attempts, t) && t != sys.attempts[k].target ensures HasPrice(next, t) {
      var a :| a in sys.attempts && a.target == t && Carried(a.phase).Some?;
      var j :| 0 <= j < |sys.attempts| && sys.attempts[j] == a;
      assert next[j] == a;
    }
  }

  /** Moving one attempt on without pricing it. */
  lemma EnterSolvent(sys: System, k: nat, phase: Phase, user: UserId)
    requires k < |sys.attempts| && Solvent(sys, user)
    requires Carried(phase).Some? && sys.attempts[k].target.ToRedemption? ==> Carried(sys.attempts[k].phase).Some?
    ensures Solvent(Enter(sys, k, phase), user)
  {
    EnterPrices(sys, k, phase);
    assert sys.attempts[k] in sys.attempts;
    FewerPrices(sys, Enter(sys, k, phase).attempts, user);
  }

  /** Pricing one redemption commits at most its own points more. */
  lemma PriceAddsItsPoints(sys: System, k: nat, phase: Phase, user: UserId)
    requires k < |sys.attempts| && sys.attempts[k].phase.Cleared?
    requires RowIs(sys.db.store, sys.attempts[k].target, sys.attempts[k].phase.row)
    ensures Commitments(Enter(sys, k, phase), user)
         <= Commitments(sys, user) + (if sys.attempts[k].phase.row.user == user then sys.attempts[k].phase.row.points else 0)
  {
    var s, executions, id := sys.db.store, sys.db.executions, sys.attempts[k].target.id;
    var next := Enter(sys, k, phase).attempts;
    EnterPrices(sys, k, phase);
    assert sys.attempts[k].target == ToRedemption(id);
    SumChange(s.redemptions, Backed(executions, sys.attempts), s.redemptions, Backed(executions, next), user, id);
  }

  /** A valuation counts every other reservation, so pricing one more redemption stays within what its
      owner earned, unless an executed row of theirs was rejected and is counted no more. */
  lemma PricingSolvent(sys: System, k: nat, user: UserId)
    requires Inv(sys) && Consistent(sys) && Solvent(sys, user) && Allowed(sys, Advance(k), user)
    requires k < |sys.attempts| && sys.attempts[k].phase.Cleared?
    ensures Solvent(Enter(sys, k, NextPhase(sys, k)), user)
  {
    var a, s, phase := sys.attempts[k], sys.db.store, NextPhase(sys, k);
    assert UpToDate(s, a) && Sound(sys.db, a);
    var id, next := a.target.id, Enter(sys, k, phase);
    var r := s.redemptions[id];
    if phase.Refused? {
      EnterSolvent(sys, k, phase, user);
    } else if r.user != user || Freed(sys.db, user) {
      PriceAddsItsPoints(sys, k, phase, user);
    } else if !RedemptionReserves(r.status) {
      EnterPrices(sys, k, phase);
      SumAtMost(s.redemptions, Backed(sys.db.executions, next.attempts), Backed(sys.db.executions, sys.attempts), user);
    } else {
      ExcludingFreesItsPoints(s, id, {});
      assert {} + {id} == Excluding(Some(id));
      CommitmentsAreReserved(next, user);
    }
  }

  /** Recording a priced execution of a payable row moves it from owed to executed. */
  lemma RecordedSolvent(sys: System, e: Execution, user: UserId)
    requires Describes(sys.db.store, e) && IsPayable(sys.db.store, e.target) && HasPrice(sys.attempts, e.target)
    ensures Commitments(sys.(db := Recorded(sys.db, e)), user) == Commitments(sys, user)
  {
    var s, paid, executions := sys.db.store, SetPaid(sys.db.store, e), sys.db.executions;
    var more := executions + [e];
    assert forall x :: x in more <==> x in executions || x == e;
    assert forall t :: TargetUsed(more, t) <==> TargetUsed(executions, t) || t == e.target;
    match e.target {
      case ToAssignment(id) =>
        SumChange(s.assignments, CommittedAssignments(executions), paid.assignments, CommittedAssignments(more), user, id);
        SumAgrees(s.redemptions, Backed(executions, sys.attempts), Backed(more, sys.attempts), user);
      case ToRedemption(id) =>
        SumAgrees(s.assignments, CommittedAssignments(executions), CommittedAssignments(more), user);
        SumChange(s.redemptions, Backed(executions, sys.attempts), paid.redemptions, Backed(more, sys.attempts), user, id);
    }
  }

  lemma CommitSolvent(sys: System, k: nat, user: UserId)
    requires Inv(sys) && Consistent(sys) && Solvent(sys, user)
    requires k < |sys.attempts| && sys.attempts[k].phase.Detailed?
    ensures Solvent(Commit(sys, k), user)
  {
    CommitIsPayment(sys, k);
    var e := sys.attempts[k].phase.e;
    assert Sound(sys.db, sys.attempts[k]);
    EnterSolvent(sys, k, Committed(e), user);
    var entered := Enter(sys, k, Committed(e));
    assert entered.attempts[k] in entered.attempts;
    RecordedSolvent(entered, e, user);
  }

  /** An attempt that has priced a redemption names an existing row. */
  lemma PricedExists(sys: System, t: Target)
    requires Inv(sys) && Consistent(sys) && HasPrice(sys.attempts, t)
    ensures Exists(sys.db.store, t)
  {
    var a :| a in sys.attempts && a.target == t && Carried(a.phase).Some?;
    var i :| 0 <= i < |sys.attempts| && sys.attempts[i] == a;
    assert Sound(sys.db, sys.attempts[i]) && UpToDate(sys.db.store, sys.attempts[i]);
    if a.phase.Committed? {
      assert Describes(sys.db.store, a.phase.e);
    }
  }

  lemma ExecutedExists(db: Db, t: Target)
    requires PaidIsExecuted(db) && TargetUsed(db.executions, t)
    ensures Exists(db.store, t)
  {
    var e :| e in db.executions && e.target == t;
    assert Describes(db.store, e);
  }

  /** A change commits the member to what it newly commits them to, and to no more. */
  lemma ChangeCommits(sys: System, change: Change, user: UserId)
    requires Inv(sys) && Consistent(sys) && Plain(change)
    ensures var next, n := sys.(db := sys.db.(store := Apply(sys.db.store, change))), NewCommitment(sys, change);
      Commitments(next, user) <= Commitments(sys, user) + PointsFor(n, user)
  {
    if change.AddAssignment? || change.SetAssignment? {
      AssignmentCommits(sys, change, user);
    } else if change.AddRedemption? || change.SetRedemption? {
      RedemptionCommits(sys, change, user);
    }
  }

  lemma AssignmentCommits(sys: System, change: Change, user: UserId)
    requires Inv(sys) && Consistent(sys) && Plain(change) && (change.AddAssignment? || change.SetAssignment?)
    ensures var next, n := sys.(db := sys.db.(store := Apply(sys.db.store, change))), NewCommitment(sys, change);
      Commitments(next, user) <= Commitments(sys, user) + PointsFor(n, user)
  {
    var s, committed := sys.db.store, CommittedAssignments(sys.db.executions);
    match change
    case AddAssignment(a) =>
      if TargetUsed(sys.db.executions, ToAssignment(|s.assignments|)) { ExecutedExists(sys.db, ToAssignment(|s.assignments|)); }
      SumSnoc(s.assignments, committed, user, a);
    case SetAssignment(id, status) =>
      if id < |s.assignments| { SumUpdate(s.assignments, committed, user, id, s.assignments[id].(status := status)); }
  }

  lemma RedemptionCommits(sys: System, change: Change, user: UserId)
    requires Inv(sys) && Consistent(sys) && Plain(change) && (change.AddRedemption? || change.SetRedemption?)
    ensures var next, n := sys.(db := sys.db.(store := Apply(sys.db.store, change))), NewCommitment(sys, change);
      Commitments(next, user) <= Commitments(sys, user) + PointsFor(n, user)
  {
    var s, backed := sys.db.store, Backed(sys.db.executions, sys.attempts);
    match change
    case AddRedemption(r) =>
      var t := ToRedemption(|s.redemptions|);
      if HasPrice(sys.attempts, t) { PricedExists(sys, t); }
      if TargetUsed(sys.db.executions, t) { ExecutedExists(sys.db, t); }
      SumSnoc(s.redemptions, backed, user, r);
    case SetRedemption(id, status) =>
      if id < |s.redemptions| { SumUpdate(s.redemptions, backed, user, id, s.redemptions[id].(status := status)); }
  }

  lemma OutsideSolvent(sys: System, change: Change, user: UserId)
    requires Inv(sys) && Consistent(sys) && Solvent(sys, user)
    requires Allowed(sys, Outside(change), user) && !Waits(sys, change)
    ensures Solvent(Step(sys, Outside(change)), user)
  {
    ChangeCommits(sys, change, user);
    if change.Credit? { SumSnoc(sys.db.store.ledger, Earned(), user, change.entry); }
  }

  lemma StepSolvent(sys: System, move: Move, user: UserId)
    requires Inv(sys) && Consistent(sys) && Solvent(sys, user)
    requires Allowed(sys, move, user)
    ensures Solvent(Step(sys, move), user)
  {
    match move
    case Submit(t, raw) =>
      SubmitPrices(sys, t, raw);
      FewerPrices(sys, Step(sys, move).attempts, user);
    case Advance(k) =>
      if k < |sys.attempts| {
        if sys.attempts[k].phase.Detailed? {
          CommitSolvent(sys, k, user);
        } else if sys.attempts[k].phase.Cleared? {
          PricingSolvent(sys, k, user);
        } else {
          assert Sound(sys.db, sys.attempts[k]);
          EnterSolvent(sys, k, NextPhase(sys, k), user);
        }
      }
    case Rollback(k) => if k < |sys.attempts| { EnterSolvent(sys, k, Refused(RolledBack), user); }
    case Switch(on) =>
    case Outside(change) => if !Waits(sys, change) { OutsideSolvent(sys, change, user); }
  }

  lemma SubmitPrices(sys: System, t: Target, raw: string)
    ensures forall x :: HasPrice(Step(sys, Submit(t, raw)).attempts, x) ==> HasPrice(sys.attempts, x)
  {
    var next := Step(sys, Submit(t, raw));
    forall x | HasPrice(next.attempts, x) ensures HasPrice(sys.attempts, x) {
      var a :| a in next.attempts && a.target == x && Carried(a.phase).Some?;
      assert a in sys.attempts;
    }
  }

  /** A member within their earnings at the start is never paid more points than they earned - however
      attempts interleave, however long ago an assignment was valued, however redemption requests race
      and whatever statuses routes write over one another - as long as what newly commits them is
      covered: an assignment when it is stored, a row a late status write brings back, and a redemption
      priced after such a write has rejected a row already executed. */
  lemma {:induction false} NeverOverpaid(sys: System, moves: seq<Move>, user: UserId)
    requires Inv(sys) && Consistent(sys) && AllowedRun(sys, moves, user) && Solvent(sys, user)
    ensures var done := Run(sys, moves);
      && Inv(done) && Consistent(done) && Solvent(done, user)
      && PaidOut(done.db, user) <= Confirmed(done.db.store, user)
  {
    if moves != [] {
      var before, move := moves[..|moves| - 1], moves[|moves| - 1];
      NeverOverpaid(sys, before, user);
      StepKeeps(Run(sys, before), move);
      StepKeepsConsistent(Run(sys, before), move);
      StepSolvent(Run(sys, before), move, user);
    }
    SolventBoundsPayments(Run(sys, moves), user);
  }

  /** Where a run may start: no row paid yet, and open assignments within what the member earned.
      Redemptions of any age and size may already be waiting. */
  lemma CleanStart(store: Store, enabled: bool, user: UserId)
    requires forall t :: Exists(store, t) ==> !IsPaid(store, t)
    requires Sum(store.assignments, CommittedAssignments([]), user) <= Confirmed(store, user)
    ensures var sys := System(Db(store, [], [], enabled), []);
      Inv(sys) && Consistent(sys) && Solvent(sys, user)
  {
    assert forall t :: !TargetUsed([], t) && !HasPrice([], t);
    NothingToSum(store.redemptions, Backed([], []), user);
  }
}
