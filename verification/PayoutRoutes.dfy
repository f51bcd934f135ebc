/** The routes beside the executor. A status route reads its row, decides, and later writes by
    identifier alone, so that its write may land on a row that has changed since. */
module PayoutRoutes {
  import opened Prelude
  import opened PayoutAuthority
  import opened PayoutExecution
  import opened PayoutSolvency
  import opened PayoutOverdraft
  import Csv

  // ---------- the machine ----------

  /** A route that has read its row, passed its checks, and not yet written. */
  datatype Request = StatusChange(id: nat, seen: AssignmentStatus, next: AssignmentStatus)
                   | Review(id: nat, decision: RedemptionStatus)
                   | Answered

  datatype Platform = Platform(sys: System, requests: seq<Request>)

  /** Batch approval is one conditional update; the other two kinds of route read first and write later. */
  datatype Act = Other(move: Move)
               | Approve(id: nat)
               | ReadAssignment(id: nat, next: AssignmentStatus)
               | ReadRedemption(id: nat, decision: RedemptionStatus)
               | Write(r: nat)

  /** Batches store eligible rows and members request pending ones; no other move writes a status. */
  predicate Ordinary(move: Move) {
    move.Outside? ==>
      match move.change
      case AddAssignment(a) => a.status == AssignmentEligible
      case AddRedemption(r) => r.status == RedemptionPending
      case SetAssignment(_, _) => false
      case SetRedemption(_, _) => false
      case _ => true
  }

  predicate Approvable(s: Store, id: nat) {
    id < |s.assignments| && s.assignments[id].status in {AssignmentPending, AssignmentEligible}
  }

  function ChangeOf(r: Request): Change
    requires !r.Answered?
  {
    match r
    case StatusChange(id, _, next) => SetAssignment(id, next)
    case Review(id, decision) => SetRedemption(id, decision)
  }

  predicate Pending(p: Platform, r: nat) { r < |p.requests| && !p.requests[r].Answered? }

  /** What an act does to the money tables, if anything. */
  function MoveOf(p: Platform, act: Act): Option<Move> {
    match act
    case Other(move) => if Ordinary(move) then Some(move) else None
    case Approve(id) => if Approvable(p.sys.db.store, id) then Some(Outside(SetAssignment(id, AssignmentApproved))) else None
    case Write(r) => if Pending(p, r) then Some(Outside(ChangeOf(p.requests[r]))) else None
    case _ => None
  }

  predicate MayChange(s: Store, id: nat, next: AssignmentStatus) {
    && id < |s.assignments| && s.assignments[id].status !in {AssignmentPaid, AssignmentRejected}
    && next in {AssignmentProcessing, AssignmentHeld, AssignmentRejected}
    && (next == AssignmentProcessing ==> s.assignments[id].status == AssignmentApproved)
  }

  predicate MayReview(s: Store, id: nat, decision: RedemptionStatus) {
    && id < |s.redemptions| && s.redemptions[id].status == RedemptionPending
    && decision in {RedemptionApproved, RedemptionRejected}
  }

  /** A write to a locked row waits; once made, its request is answered. */
  function RequestsAfter(p: Platform, act: Act): seq<Request> {
    var s := p.sys.db.store;
    match act
    case ReadAssignment(id, next) =>
      if MayChange(s, id, next) then p.requests + [StatusChange(id, s.assignments[id].status, next)] else p.requests
    case ReadRedemption(id, decision) =>
      if MayReview(s, id, decision) then p.requests + [Review(id, decision)] else p.requests
    case Write(r) =>
      if Pending(p, r) && !Waits(p.sys, ChangeOf(p.requests[r])) then p.requests[r := Answered] else p.requests
    case _ => p.requests
  }

  function Perform(p: Platform, act: Act): Platform {
    Platform(match MoveOf(p, act) case None => p.sys case Some(move) => Step(p.sys, move), RequestsAfter(p, act))
  }

  function Play(p: Platform, acts: seq<Act>): Platform {
    if acts == [] then p else Perform(Play(p, acts[..|acts| - 1]), acts[|acts| - 1])
  }

  // ---------- what the money tables see ----------

  function Moves(move: Option<Move>): seq<Move> { if move.Some? then [move.value] else [] }

  function Shadow(p: Platform, acts: seq<Act>): seq<Move> {
    if acts == [] then []
    else Shadow(p, acts[..|acts| - 1]) + Moves(MoveOf(Play(p, acts[..|acts| - 1]), acts[|acts| - 1]))
  }

  predicate GenuineRequest(r: Request) {
    match r
    case StatusChange(_, seen, next) =>
      && seen !in {AssignmentPaid, AssignmentRejected}
      && next in {AssignmentProcessing, AssignmentHeld, AssignmentRejected}
      && (next == AssignmentProcessing ==> seen == AssignmentApproved)
    case Review(_, decision) => decision in {RedemptionApproved, RedemptionRejected}
    case Answered => true
  }

  /** Every open request has passed its route's checks on what it read. */
  predicate Genuine(p: Platform) { forall i :: 0 <= i < |p.requests| ==> GenuineRequest(p.requests[i]) }

  lemma PerformIsGenuine(p: Platform, act: Act)
    requires Genuine(p)
    ensures Genuine(Perform(p, act))
    ensures MoveOf(p, act).Some? ==> PlainMove(MoveOf(p, act).value)
  {
    var after := RequestsAfter(p, act);
    forall i | 0 <= i < |after| ensures GenuineRequest(after[i]) {
      if i < |p.requests| { assert GenuineRequest(p.requests[i]); }
    }
    if act.Write? && Pending(p, act.r) { assert GenuineRequest(p.requests[act.r]); }
  }

  lemma RunSnoc(sys: System, moves: seq<Move>, move: Move)
    ensures Run(sys, moves + [move]) == Step(Run(sys, moves), move)
  {
    assert (moves + [move])[..|moves|] == moves;
  }

  lemma {:induction false} ShadowRuns(p: Platform, acts: seq<Act>)
    requires Genuine(p)
    ensures var done := Play(p, acts);
      Genuine(done) && done.sys == Run(p.sys, Shadow(p, acts)) && PlainRun(Shadow(p, acts))
  {
    if acts != [] {
      var before, act := acts[..|acts| - 1], acts[|acts| - 1];
      ShadowRuns(p, before);
      PerformIsGenuine(Play(p, before), act);
      match MoveOf(Play(p, before), act)
      case None => assert Shadow(p, acts) == Shadow(p, before);
      case Some(move) => RunSnoc(p.sys, Shadow(p, before), move);
    }
  }

  lemma {:induction false} PlayConcat(p: Platform, a: seq<Act>, b: seq<Act>)
    ensures Play(p, a + b) == Play(Play(p, a), b)
    ensures Shadow(p, a + b) == Shadow(p, a) + Shadow(Play(p, a), b)
  {
    if b == [] {
      assert a + b == a;
    } else {
      var n := |b| - 1;
      PlayConcat(p, a, b[..n]);
      assert (a + b)[..|a + b| - 1] == a + b[..n] && (a + b)[|a + b| - 1] == b[n];
    }
  }

  lemma OneAct(p: Platform, act: Act)
    ensures Play(p, [act]) == Perform(p, act) && Shadow(p, [act]) == Moves(MoveOf(p, act))
  {
    assert [act][..0] == [];
  }

  // ---------- one route, uninterrupted ----------

  /** A request just opened, or none, and the write that follows. */
  lemma WrittenNext(p: Platform, news: seq<Request>)
    requires |news| <= 1 && forall r :: r in news ==> !r.Answered? && !Waits(p.sys, ChangeOf(r))
    ensures var done := Perform(p.(requests := p.requests + news), Write(|p.requests|)).sys;
      done == if news == [] then p.sys else p.sys.(db := p.sys.db.(store := Apply(p.sys.db.store, ChangeOf(news[0]))))
  {
  }

  lemma ReviewOpened(p: Platform, id: nat, decision: RedemptionStatus)
    ensures var s := p.sys.db.store;
      Perform(p, ReadRedemption(id, decision)) == p.(requests := p.requests +
        if id < |s.redemptions| && s.redemptions[id].status == RedemptionPending && decision in {RedemptionApproved, RedemptionRejected}
        then [Review(id, decision)] else [])
  {
    assert p.requests + [] == p.requests;
  }

  /** A review read and written at once on a row nobody is paying: it approves or rejects exactly a pending
      redemption, and does nothing else. */
  lemma ReviewedAtOnce(p: Platform, id: nat, decision: RedemptionStatus)
    requires !Locked(p.sys, ToRedemption(id))
    ensures var s, done := p.sys.db.store, Perform(Perform(p, ReadRedemption(id, decision)), Write(|p.requests|));
      done.sys == if id < |s.redemptions| && s.redemptions[id].status == RedemptionPending && decision in {RedemptionApproved, RedemptionRejected}
                  then p.sys.(db := p.sys.db.(store := s.(redemptions := s.redemptions[id := s.redemptions[id].(status := decision)])))
                  else p.sys
  {
    var s := p.sys.db.store;
    ReviewOpened(p, id, decision);
    if id < |s.redemptions| && s.redemptions[id].status == RedemptionPending && decision in {RedemptionApproved, RedemptionRejected} {
      WrittenNext(p, [Review(id, decision)]);
    } else {
      WrittenNext(p, []);
    }
  }

  /** The statuses the assignment route may write over one another. */
  predicate MayFollow(seen: AssignmentStatus, next: AssignmentStatus) {
    || (next in {AssignmentHeld, AssignmentRejected} && seen !in {AssignmentPaid, AssignmentRejected})
    || (next == AssignmentProcessing && seen == AssignmentApproved)
  }

  lemma ChangeOpened(p: Platform, id: nat, next: AssignmentStatus)
    ensures var s := p.sys.db.store;
      Perform(p, ReadAssignment(id, next)) == p.(requests := p.requests +
        if id < |s.assignments| && MayFollow(s.assignments[id].status, next) then [StatusChange(id, s.assignments[id].status, next)] else [])
  {
    assert p.requests + [] == p.requests;
  }

  /** The same of an assignment's status: a hold or a rejection of any row neither paid nor rejected, or the
      start of processing of an approved one. */
  lemma ChangedAtOnce(p: Platform, id: nat, next: AssignmentStatus)
    requires !Locked(p.sys, ToAssignment(id))
    ensures var s, done := p.sys.db.store, Perform(Perform(p, ReadAssignment(id, next)), Write(|p.requests|));
      done.sys == if id < |s.assignments| && MayFollow(s.assignments[id].status, next)
                  then p.sys.(db := p.sys.db.(store := s.(assignments := s.assignments[id := s.assignments[id].(status := next)])))
                  else p.sys
  {
    var s := p.sys.db.store;
    ChangeOpened(p, id, next);
    if id < |s.assignments| && MayFollow(s.assignments[id].status, next) {
      WrittenNext(p, [StatusChange(id, s.assignments[id].status, next)]);
    } else {
      WrittenNext(p, []);
    }
  }

  /** Batch approval approves exactly the pending and the eligible rows. */
  lemma ApprovedAtOnce(p: Platform, id: nat)
    requires !Locked(p.sys, ToAssignment(id))
    ensures var s, done := p.sys.db.store, Perform(p, Approve(id));
      && done.sys.attempts == p.sys.attempts && done.requests == p.requests
      && done.sys.db == p.sys.db.(store := s.(assignments :=
           if id < |s.assignments| && s.assignments[id].status in {AssignmentPending, AssignmentEligible}
           then s.assignments[id := s.assignments[id].(status := AssignmentApproved)] else s.assignments))
  {
  }

  // ---------- which rows end paid ----------

  /** A route writes over a row paid since the route read it: what it read was open. */
  predicate LandsOnPaid(p: Platform, act: Act, t: Target) {
    && act.Write? && Pending(p, act.r)
    && Writes(ChangeOf(p.requests[act.r]), t) && !Waits(p.sys, ChangeOf(p.requests[act.r]))
    && Paid(p.sys.db.store, t)
  }

  predicate WrittenLate(p: Platform, acts: seq<Act>, t: Target) {
    && acts != []
    && (|| WrittenLate(p, acts[..|acts| - 1], t)
        || LandsOnPaid(Play(p, acts[..|acts| - 1]), acts[|acts| - 1], t))
  }

  lemma ActOverwritesIff(p: Platform, act: Act, t: Target)
    ensures LandsOnPaid(p, act, t) <==> MoveOf(p, act).Some? && Overwrites(p.sys, MoveOf(p, act).value, t)
  {
  }

  lemma OverwrittenSnoc(sys: System, moves: seq<Move>, move: Move, t: Target)
    ensures Overwritten(sys, moves + [move], t) <==> Overwritten(sys, moves, t) || Overwrites(Run(sys, moves), move, t)
  {
    assert (moves + [move])[..|moves|] == moves;
  }

  lemma {:induction false} LateIsOverwriting(p: Platform, acts: seq<Act>, t: Target)
    requires Genuine(p)
    ensures Overwritten(p.sys, Shadow(p, acts), t) <==> WrittenLate(p, acts, t)
  {
    if acts != [] {
      var before, act := acts[..|acts| - 1], acts[|acts| - 1];
      LateIsOverwriting(p, before, t);
      ShadowRuns(p, before);
      ActOverwritesIff(Play(p, before), act, t);
      match MoveOf(Play(p, before), act)
      case None => assert Shadow(p, acts) == Shadow(p, before);
      case Some(move) => OverwrittenSnoc(p.sys, Shadow(p, before), move, t);
    }
  }

  /** The routes as they are: a row is paid iff exactly one execution names it and no route has since
      written over it a decision taken on what it was before. */
  lemma PaidIffNoLateWrite(p: Platform, acts: seq<Act>, t: Target)
    requires Genuine(p) && Inv(p.sys) && Consistent(p.sys)
    requires TargetUsed(p.sys.db.executions, t) ==> Paid(p.sys.db.store, t)
    ensures var db := Play(p, acts).sys.db;
      && (Paid(db.store, t) <==> (exists i: nat :: OnlyExecution(db, i, t)) && !WrittenLate(p, acts, t))
      && ((Paid(db.store, t) <==> exists i: nat :: OnlyExecution(db, i, t)) <==> !WrittenLate(p, acts, t))
  {
    ShadowRuns(p, acts);
    LateIsOverwriting(p, acts, t);
    PaidIffExecutedOnce(p.sys, Shadow(p, acts), t);
  }

  // ---------- without late writes ----------

  /** The row is, when the route writes it, as it was when the route read it. */
  predicate Fresh(p: Platform, act: Act) {
    act.Write? && Pending(p, act.r) && !Waits(p.sys, ChangeOf(p.requests[act.r])) ==>
      match p.requests[act.r]
      case StatusChange(id, seen, _) => id < |p.sys.db.store.assignments| ==> p.sys.db.store.assignments[id].status == seen
      case Review(id, _) => id < |p.sys.db.store.redemptions| ==> p.sys.db.store.redemptions[id].status == RedemptionPending
      case Answered => true
  }

  /** An assignment of the member that is stored is covered when it is stored. */
  predicate StoresCovered(p: Platform, act: Act, user: UserId) {
    act.Other? && act.move.Outside? && act.move.change.AddAssignment? ==>
      var a := act.move.change.assignment;
      a.user == user && Stores(p.sys.db.store, a) ==> Covered(p.sys, a)
  }

  predicate FreshPlay(p: Platform, acts: seq<Act>, user: UserId) {
    acts != [] ==>
      && FreshPlay(p, acts[..|acts| - 1], user)
      && Fresh(Play(p, acts[..|acts| - 1]), acts[|acts| - 1])
      && StoresCovered(Play(p, acts[..|acts| - 1]), acts[|acts| - 1], user)
  }

  /** Every executed row is paid. */
  predicate Intact(db: Db) { forall e :: e in db.executions ==> Paid(db.store, e.target) }

  lemma IntactFreesNothing(db: Db, user: UserId)
    requires Intact(db)
    ensures !Freed(db, user)
  {
  }

  lemma FreshIsAllowed(p: Platform, act: Act, user: UserId)
    requires Genuine(p) && Consistent(p.sys) && Intact(p.sys.db) && Fresh(p, act) && StoresCovered(p, act, user)
    ensures MoveOf(p, act).Some? ==>
      && Allowed(p.sys, MoveOf(p, act).value, user)
      && forall t :: !Overwrites(p.sys, MoveOf(p, act).value, t)
  {
    IntactFreesNothing(p.sys.db, user);
  }

  lemma StepKeepsIntact(sys: System, move: Move)
    requires Inv(sys) && Consistent(sys) && PlainMove(move) && Intact(sys.db) && forall t :: !Overwrites(sys, move, t)
    ensures Intact(Step(sys, move).db)
  {
    var next := Step(sys, move).db;
    forall e | e in next.executions ensures Paid(next.store, e.target) {
      StepPays(sys, move, e.target);
      if TargetUsed(sys.db.executions, e.target) {
        var x :| x in sys.db.executions && x.target == e.target;
      }
    }
  }

  lemma AllowedSnoc(sys: System, moves: seq<Move>, move: Move, user: UserId)
    requires AllowedRun(sys, moves, user) && Allowed(Run(sys, moves), move, user)
    ensures AllowedRun(sys, moves + [move], user)
  {
    assert (moves + [move])[..|moves|] == moves;
  }

  /** While no route writes late, every executed row stays paid, and a member whose stored assignments
      are covered is never paid more than they earned: redemptions and status changes need no guard. */
  lemma {:induction false} FreshPlaysNeverOverpay(p: Platform, acts: seq<Act>, user: UserId)
    requires Genuine(p) && Inv(p.sys) && Consistent(p.sys) && Intact(p.sys.db) && Solvent(p.sys, user)
    requires FreshPlay(p, acts, user)
    ensures var done := Play(p, acts).sys;
      && AllowedRun(p.sys, Shadow(p, acts), user) && Intact(done.db)
      && PaidOut(done.db, user) <= Confirmed(done.db.store, user)
  {
    ShadowRuns(p, acts);
    if acts != [] {
      var before, act := acts[..|acts| - 1], acts[|acts| - 1];
      FreshPlaysNeverOverpay(p, before, user);
      ShadowRuns(p, before);
      RunsStayConsistent(p.sys, Shadow(p, before));
      var middle := Play(p, before);
      FreshIsAllowed(middle, act, user);
      match MoveOf(middle, act)
      case None => assert Shadow(p, acts) == Shadow(p, before);
      case Some(move) =>
        StepKeepsIntact(middle.sys, move);
        AllowedSnoc(p.sys, Shadow(p, before), move, user);
    }
    NeverOverpaid(p.sys, Shadow(p, acts), user);
  }

  // ---------- fresh references ----------

  function Marks(n: nat): string { seq(n, i => 'x') }

  function Longest(references: seq<string>): nat {
    if references == [] then 0
    else
      var before, last := Longest(references[..|references| - 1]), references[|references| - 1];
      if |last| > before then |last| else before
  }

  lemma {:induction false} LongestBounds(references: seq<string>)
    ensures forall r :: r in references ==> |r| <= Longest(references)
  {
    if references != [] {
      var n := |references| - 1;
      LongestBounds(references[..n]);
      assert references == references[..n] + [references[n]];
    }
  }

  function References(db: Db): seq<string> { Map((e: Execution) => e.reference, db.executions) + db.details }

  function FreshReference(db: Db): string { Marks(Longest(References(db)) + 1) }

  lemma FreshIsUnused(db: Db)
    ensures var r := FreshReference(db);
      r != "" && Csv.Trim(r) == r && !ReferenceUsed(db.executions, r) && r !in db.details
  {
    var r := FreshReference(db);
    LongestBounds(References(db));
    assert r[0] == 'x' && r[|r| - 1] == 'x' && !Csv.IsSpace('x');
    assert Csv.TrimStart(r) == r && Csv.TrimEnd(r) == r;
    forall i | 0 <= i < |db.executions| ensures db.executions[i].reference != r {
      assert References(db)[i] == db.executions[i].reference && References(db)[i] in References(db);
    }
    assert forall d :: d in db.details ==> d in References(db);
  }

  // ---------- one payment, from approval to commit ----------

  lemma {:induction false} RunConcat(sys: System, a: seq<Move>, b: seq<Move>, user: UserId)
    ensures Run(sys, a + b) == Run(Run(sys, a), b)
    ensures AllowedRun(sys, a, user) && AllowedRun(Run(sys, a), b, user) ==> AllowedRun(sys, a + b, user)
  {
    if b == [] {
      assert a + b == a;
    } else {
      var n := |b| - 1;
      RunConcat(sys, a, b[..n], user);
      assert (a + b)[..|a + b| - 1] == a + b[..n] && (a + b)[|a + b| - 1] == b[n];
    }
  }

  lemma FirstMove(sys: System, move: Move, user: UserId)
    ensures Run(sys, [move]) == Step(sys, move)
    ensures Allowed(sys, move, user) ==> AllowedRun(sys, [move], user)
  {
    assert [move][..0] == [] && Run(sys, []) == sys && AllowedRun(sys, [], user);
  }

  function Turns(k: nat, n: nat): seq<Move> { seq(n, i => Advance(k)) }

  lemma TurnsFromTheFirst(sys: System, k: nat, n: nat)
    ensures Run(sys, Turns(k, n + 1)) == Run(Step(sys, Advance(k)), Turns(k, n))
  {
    FirstMove(sys, Advance(k), "");
    RunConcat(sys, [Advance(k)], Turns(k, n), "");
    assert Turns(k, n + 1) == [Advance(k)] + Turns(k, n);
  }

  lemma {:induction false} DriveIsRun(sys: System, k: nat, n: nat)
    ensures Run(sys, Turns(k, n)) == Drive(sys, k, n)
    decreases n
  {
    if n > 0 {
      DriveIsRun(Step(sys, Advance(k)), k, n - 1);
      TurnsFromTheFirst(sys, k, n - 1);
    }
  }

  /** Turns of an assignment's attempt price no redemption. */
  lemma {:induction false} TurnsAreAllowed(sys: System, k: nat, n: nat, user: UserId)
    requires k < |sys.attempts| && sys.attempts[k].target.ToAssignment?
    ensures AllowedRun(sys, Turns(k, n), user)
    ensures var done := Run(sys, Turns(k, n)); k < |done.attempts| && done.attempts[k].target == sys.attempts[k].target
  {
    if n > 0 {
      TurnsAreAllowed(sys, k, n - 1, user);
      assert Turns(k, n)[..n - 1] == Turns(k, n - 1);
    }
  }

  lemma {:induction false} DriveKeepsOthers(sys: System, k: nat, n: nat)
    ensures var done := Drive(sys, k, n);
      && |done.attempts| == |sys.attempts|
      && forall j :: 0 <= j < |sys.attempts| && j != k ==> done.attempts[j] == sys.attempts[j]
    decreases n
  {
    if n > 0 { DriveKeepsOthers(Step(sys, Advance(k)), k, n - 1); }
  }

  /** No attempt is under way. */
  predicate Quiet(attempts: seq<Attempt>) { forall a :: a in attempts ==> a.phase.Committed? || a.phase.Refused? }

  predicate Payer(sys: System) { sys.db.enabled && Quiet(sys.attempts) }

  function PaidRow(s: Store, i: nat): Store
    requires i < |s.assignments|
  {
    s.(assignments := s.assignments[i := s.assignments[i].(status := AssignmentPaid)])
  }

  /** An open row nobody has executed, with an authoritative positive amount. */
  predicate Owed(db: Db, i: nat) {
    && i < |db.store.assignments| && AssignmentOpen(db.store.assignments[i].status)
    && db.store.assignments[i].priced && db.store.assignments[i].amount > 0
    && !TargetUsed(db.executions, ToAssignment(i))
  }

  function PaymentOf(db: Db, i: nat): Execution
    requires i < |db.store.assignments|
  {
    var a := db.store.assignments[i];
    Execution(ToAssignment(i), a.user, a.points, a.amount, FreshReference(db))
  }

  function ApprovalMoves(s: Store, i: nat): seq<Move> {
    if Approvable(s, i) then [Outside(SetAssignment(i, AssignmentApproved))] else []
  }

  /** Approve the row if it needs it, submit a payment with a fresh reference, and let it run. */
  function SettleMoves(sys: System, i: nat): seq<Move> {
    ApprovalMoves(sys.db.store, i) + ([Submit(ToAssignment(i), FreshReference(sys.db))] + Turns(|sys.attempts|, 8))
  }

  lemma PayableRowIsPaid(db: Db, i: nat)
    requires db.enabled && Owed(db, i) && IsPayable(db.store, ToAssignment(i))
    ensures ExecuteSerially(db, ToAssignment(i), FreshReference(db)) == (Recorded(db, PaymentOf(db, i)), Ok(PaymentOf(db, i)))
  {
    FreshIsUnused(db);
  }

  lemma ApprovalRuns(sys: System, i: nat, user: UserId)
    requires Payer(sys) && Owed(sys.db, i)
    ensures var done := Run(sys, ApprovalMoves(sys.db.store, i));
      && AllowedRun(sys, ApprovalMoves(sys.db.store, i), user)
      && done.attempts == sys.attempts && Owed(done.db, i) && IsPayable(done.db.store, ToAssignment(i))
      && done.db.(store := PaidRow(done.db.store, i)) == sys.db.(store := PaidRow(sys.db.store, i))
      && PaymentOf(done.db, i) == PaymentOf(sys.db, i)
  {
    var approve := Outside(SetAssignment(i, AssignmentApproved));
    if Approvable(sys.db.store, i) {
      FirstMove(sys, approve, user);
      var done := Step(sys, approve);
      assert !Waits(sys, SetAssignment(i, AssignmentApproved));
      assert PaidRow(done.db.store, i).assignments == PaidRow(sys.db.store, i).assignments;
    }
  }

  lemma PaymentRuns(sys: System, i: nat, user: UserId)
    requires Payer(sys) && Owed(sys.db, i) && IsPayable(sys.db.store, ToAssignment(i))
    ensures var moves := [Submit(ToAssignment(i), FreshReference(sys.db))] + Turns(|sys.attempts|, 8);
      && AllowedRun(sys, moves, user) && Run(sys, moves).db == Recorded(sys.db, PaymentOf(sys.db, i))
      && Payer(Run(sys, moves))
  {
    var submit, k := Submit(ToAssignment(i), FreshReference(sys.db)), |sys.attempts|;
    PayableRowIsPaid(sys.db, i);
    AloneIsSerial(sys, ToAssignment(i), FreshReference(sys.db));
    var begun := Step(sys, submit);
    var done := Drive(begun, k, 8);
    DriveKeepsOthers(begun, k, 8);
    FirstMove(sys, submit, user);
    DriveIsRun(begun, k, 8);
    TurnsAreAllowed(begun, k, 8, user);
    RunConcat(sys, [submit], Turns(k, 8), user);
    forall a | a in done.attempts ensures a.phase.Committed? || a.phase.Refused? {
      var j :| 0 <= j < |done.attempts| && done.attempts[j] == a;
      if j < k { assert sys.attempts[j] in sys.attempts; }
    }
  }

  lemma SettleOneRuns(sys: System, i: nat, user: UserId)
    requires Payer(sys) && Owed(sys.db, i)
    ensures var done := Run(sys, SettleMoves(sys, i));
      && AllowedRun(sys, SettleMoves(sys, i), user)
      && Payer(done) && done.db.store == PaidRow(sys.db.store, i)
      && done.db.executions == sys.db.executions + [PaymentOf(sys.db, i)]
  {
    var approval := ApprovalMoves(sys.db.store, i);
    var approved := Run(sys, approval);
    ApprovalRuns(sys, i, user);
    PaymentRuns(approved, i, user);
    RunConcat(sys, approval, [Submit(ToAssignment(i), FreshReference(sys.db))] + Turns(|sys.attempts|, 8), user);
  }

  // ---------- the same, as acts of the platform ----------

  function Others(moves: seq<Move>): seq<Act> { seq(|moves|, i requires 0 <= i < |moves| => Other(moves[i])) }

  lemma OthersSnoc(p: Platform, moves: seq<Move>, move: Move)
    requires Ordinary(move)
    ensures Play(p, Others(moves + [move])) == Perform(Play(p, Others(moves)), Other(move))
    ensures Shadow(p, Others(moves + [move])) == Shadow(p, Others(moves)) + [move]
  {
    assert Others(moves + [move]) == Others(moves) + [Other(move)];
    assert (Others(moves) + [Other(move)])[..|moves|] == Others(moves);
  }

  lemma OthersMore(p: Platform, moves: seq<Move>, move: Move)
    requires Ordinary(move)
    requires Play(p, Others(moves)) == Platform(Run(p.sys, moves), p.requests) && Shadow(p, Others(moves)) == moves
    ensures Play(p, Others(moves + [move])) == Platform(Run(p.sys, moves + [move]), p.requests)
    ensures Shadow(p, Others(moves + [move])) == moves + [move]
  {
    OthersSnoc(p, moves, move);
    RunSnoc(p.sys, moves, move);
  }

  /** Played as acts, the moves do to the money tables what they do alone, and nothing to the requests. */
  predicate Mirrors(p: Platform, moves: seq<Move>) {
    Play(p, Others(moves)) == Platform(Run(p.sys, moves), p.requests) && Shadow(p, Others(moves)) == moves
  }

  lemma OthersNext(p: Platform, moves: seq<Move>, n: nat)
    requires n < |moves| && Ordinary(moves[n]) && Mirrors(p, moves[..n])
    ensures Mirrors(p, moves[..n + 1])
  {
    OthersMore(p, moves[..n], moves[n]);
    assert moves[..n + 1] == moves[..n] + [moves[n]];
  }

  lemma {:induction false} OthersUpTo(p: Platform, moves: seq<Move>, n: nat)
    requires n <= |moves| && forall i :: 0 <= i < n ==> Ordinary(moves[i])
    ensures Mirrors(p, moves[..n])
  {
    if n > 0 {
      OthersUpTo(p, moves, n - 1);
      OthersNext(p, moves, n - 1);
    } else {
      assert Others(moves[..0]) == [];
    }
  }

  lemma OthersPlay(p: Platform, moves: seq<Move>)
    requires forall m :: m in moves ==> Ordinary(m)
    ensures Play(p, Others(moves)) == Platform(Run(p.sys, moves), p.requests) && Shadow(p, Others(moves)) == moves
  {
    assert forall i :: 0 <= i < |moves| ==> moves[i] in moves;
    OthersUpTo(p, moves, |moves|);
    assert moves[..|moves|] == moves;
  }

  function SettleActs(sys: System, i: nat): seq<Act> {
    (if Approvable(sys.db.store, i) then [Approve(i)] else [])
      + Others([Submit(ToAssignment(i), FreshReference(sys.db))] + Turns(|sys.attempts|, 8))
  }

  lemma SettlePlays(p: Platform, i: nat)
    requires Payer(p.sys) && Owed(p.sys.db, i)
    ensures Shadow(p, SettleActs(p.sys, i)) == SettleMoves(p.sys, i)
    ensures Play(p, SettleActs(p.sys, i)) == Platform(Run(p.sys, SettleMoves(p.sys, i)), p.requests)
  {
    var moves := [Submit(ToAssignment(i), FreshReference(p.sys.db))] + Turns(|p.sys.attempts|, 8);
    var approval := if Approvable(p.sys.db.store, i) then [Approve(i)] else [];
    if approval != [] { OneAct(p, Approve(i)); }
    var approved := Play(p, approval);
    FirstMove(p.sys, Outside(SetAssignment(i, AssignmentApproved)), "");
    assert approved == Platform(Run(p.sys, ApprovalMoves(p.sys.db.store, i)), p.requests);
    OthersPlay(approved, moves);
    PlayConcat(p, approval, Others(moves));
    RunConcat(p.sys, ApprovalMoves(p.sys.db.store, i), moves, "");
  }

  /** An owed row can be paid, by the routes and the executor as they are. */
  lemma SettleOne(p: Platform, i: nat, user: UserId)
    requires Payer(p.sys) && Owed(p.sys.db, i)
    ensures var done := Play(p, SettleActs(p.sys, i));
      && AllowedRun(p.sys, Shadow(p, SettleActs(p.sys, i)), user)
      && done.requests == p.requests && Payer(done.sys)
      && done.sys.db.store == PaidRow(p.sys.db.store, i)
      && done.sys.db.executions == p.sys.db.executions + [PaymentOf(p.sys.db, i)]
  {
    SettlePlays(p, i);
    SettleOneRuns(p.sys, i, user);
  }
}
