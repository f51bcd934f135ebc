/** The one executor that marks money as paid: its serial meaning, the object that implements
    it, and any number of its transactions interleaved over one database. */
module PayoutExecution {
  import opened Prelude
  import opened PayoutAuthority
  import Csv

  datatype Target = ToAssignment(id: nat) | ToRedemption(id: nat)

  datatype Execution = Execution(target: Target, user: UserId, points: nat, amount: int, reference: string)

  datatype Failure = ExecutionDisabled | NotFound | InvalidState | AlreadyExecuted | DuplicateReference
                   | AmountNotAuthoritative | Unconfigured | RolledBack

  /** `details` are the references of the assignment path's own payment rows. */
  datatype Db = Db(store: Store, executions: seq<Execution>, details: seq<string>, enabled: bool)

  predicate Exists(s: Store, t: Target) {
    match t
    case ToAssignment(id) => id < |s.assignments|
    case ToRedemption(id) => id < |s.redemptions|
  }

  function OwnerOf(s: Store, t: Target): UserId
    requires Exists(s, t)
  {
    match t
    case ToAssignment(id) => s.assignments[id].user
    case ToRedemption(id) => s.redemptions[id].user
  }

  function PointsOf(s: Store, t: Target): nat
    requires Exists(s, t)
  {
    match t
    case ToAssignment(id) => s.assignments[id].points
    case ToRedemption(id) => s.redemptions[id].points
  }

  predicate IsPaid(s: Store, t: Target)
    requires Exists(s, t)
  {
    match t
    case ToAssignment(id) => s.assignments[id].status == AssignmentPaid
    case ToRedemption(id) => s.redemptions[id].status == RedemptionPaid
  }

  /** The states an atomic claim accepts. */
  predicate IsPayable(s: Store, t: Target)
    requires Exists(s, t)
  {
    match t
    case ToAssignment(id) => s.assignments[id].status in {AssignmentApproved, AssignmentProcessing}
    case ToRedemption(id) => s.redemptions[id].status == RedemptionApproved
  }

  function SetPaid(s: Store, e: Execution): Store
    requires Exists(s, e.target)
  {
    match e.target
    case ToAssignment(id) => s.(assignments := s.assignments[id := s.assignments[id].(status := AssignmentPaid)])
    case ToRedemption(id) =>
      s.(redemptions := s.redemptions[id := s.redemptions[id].(status := RedemptionPaid, amount := e.amount)])
  }

  predicate TargetUsed(executions: seq<Execution>, t: Target) { exists e :: e in executions && e.target == t }

  predicate ReferenceUsed(executions: seq<Execution>, reference: string) {
    exists e :: e in executions && e.reference == reference
  }

  // ---------- one attempt alone ----------

  function AssignmentValue(s: Store, id: nat, reference: string): Result<Execution, Failure> {
    if id >= |s.assignments| then Err(NotFound)
    else
      var a := s.assignments[id];
      if !a.priced || a.amount <= 0 then Err(AmountNotAuthoritative)
      else Ok(Execution(ToAssignment(id), a.user, a.points, a.amount, reference))
  }

  /** A redemption row already read is re-valued, itself left out of its owner's reservations. */
  function RedemptionValue(s: Store, id: nat, r: Redemption, reference: string): Result<Execution, Failure> {
    match Valued(s, r.user, r.points, Some(id))
    case Err(_) => Err(Unconfigured)
    case Ok(v) =>
      if v.reason.Some? then Err(AmountNotAuthoritative)
      else Ok(Execution(ToRedemption(id), r.user, r.points, v.payable, reference))
  }

  function ValueOf(s: Store, t: Target, reference: string): Result<Execution, Failure> {
    match t
    case ToAssignment(id) => AssignmentValue(s, id, reference)
    case ToRedemption(id) =>
      if id >= |s.redemptions| then Err(NotFound)
      else if IsUnreconciledLegacyClaim(s, s.redemptions[id]) then Err(AmountNotAuthoritative)
      else RedemptionValue(s, id, s.redemptions[id], reference)
  }

  function NotClaimable(paid: bool): Failure { if paid then AlreadyExecuted else InvalidState }

  function Recorded(db: Db, e: Execution): Db
    requires Exists(db.store, e.target)
  {
    db.(store := SetPaid(db.store, e), executions := db.executions + [e],
        details := if e.target.ToAssignment? then db.details + [e.reference] else db.details)
  }

  /** Pricing, claim and insertion, as one step. */
  function Pay(db: Db, t: Target, reference: string): (Db, Result<Execution, Failure>) {
    match ValueOf(db.store, t, reference)
    case Err(f) => (db, Err(f))
    case Ok(e) =>
      if !IsPayable(db.store, t) then (db, Err(NotClaimable(IsPaid(db.store, t))))
      else if TargetUsed(db.executions, t) then (db, Err(AlreadyExecuted))
      else if t.ToAssignment? && reference in db.details then (db, Err(DuplicateReference))
      else (Recorded(db, e), Ok(e))
  }

  function ExecuteSerially(db: Db, t: Target, raw: string): (Db, Result<Execution, Failure>) {
    var reference := Csv.Trim(raw);
    if reference == "" then (db, Err(InvalidState))
    else if !db.enabled then (db, Err(ExecutionDisabled))
    else if ReferenceUsed(db.executions, reference) then (db, Err(DuplicateReference))
    else Pay(db, t, reference)
  }

  /** A redemption is paid iff the switch is on, its reference and target are fresh, it is an
      approved claim on converted value, and all its owner's reservations fit what they earned. */
  lemma RedemptionPaidIffCovered(db: Db, id: nat, raw: string)
    requires id < |db.store.redemptions| && db.store.terms.Some?
    ensures var r := db.store.redemptions[id];
      ExecuteSerially(db, ToRedemption(id), raw).1.Ok? <==>
        && Csv.Trim(raw) != "" && db.enabled
        && !ReferenceUsed(db.executions, Csv.Trim(raw)) && !TargetUsed(db.executions, ToRedemption(id))
        && r.status == RedemptionApproved
        && (forall c :: c in db.store.carryovers && c.user == r.user && c.executedAt >= r.createdAt ==> c.status != CarryoverPending)
        && r.points > 0 && r.points >= db.store.terms.value.minimum
        && Reserved(db.store, r.user, {}) <= Confirmed(db.store, r.user)
  {
    var r := db.store.redemptions[id];
    if r.status == RedemptionApproved {
      ExcludingFreesItsPoints(db.store, id, {});
      assert {} + {id} == Excluding(Some(id));
    }
  }

  /** An assignment is paid iff the switch is on, its reference is fresh in both tables, its target is
      fresh, and it is an open row whose cycle carries terms and whose amount is positive. */
  lemma AssignmentPaidIff(db: Db, id: nat, raw: string)
    requires id < |db.store.assignments|
    ensures var a := db.store.assignments[id];
      ExecuteSerially(db, ToAssignment(id), raw).1.Ok? <==>
        && Csv.Trim(raw) != "" && db.enabled && Csv.Trim(raw) !in db.details
        && (forall e :: e in db.executions ==> e.reference != Csv.Trim(raw) && e.target != ToAssignment(id))
        && a.status in {AssignmentApproved, AssignmentProcessing} && a.priced && a.amount > 0
  {
    if ReferenceUsed(db.executions, Csv.Trim(raw)) {
      var e :| e in db.executions && e.reference == Csv.Trim(raw);
    } else if TargetUsed(db.executions, ToAssignment(id)) {
      var e :| e in db.executions && e.target == ToAssignment(id);
    }
  }

  /** The switch is on and the reference is there and new. */
  predicate Admitted(db: Db, raw: string) {
    Csv.Trim(raw) != "" && db.enabled && forall e :: e in db.executions ==> e.reference != Csv.Trim(raw)
  }

  /** A pending carryover of the owner, made when the redemption had been raised or later. */
  predicate ClaimsLegacy(s: Store, r: Redemption) {
    exists c :: c in s.carryovers && c.user == r.user && c.executedAt >= r.createdAt && c.status == CarryoverPending
  }

  /** The row's amount is one the server vouches for. */
  predicate Vouched(s: Store, t: Target)
    requires Exists(s, t)
  {
    match t
    case ToAssignment(id) => s.assignments[id].priced && s.assignments[id].amount > 0
    case ToRedemption(id) =>
      var r := s.redemptions[id];
      && !ClaimsLegacy(s, r) && s.terms.Some? && r.points > 0 && r.points >= s.terms.value.minimum
      && Reserved(s, r.user, {id}) + r.points <= Confirmed(s, r.user)
  }

  predicate Spent(db: Db, t: Target) { exists e :: e in db.executions && e.target == t }

  lemma UsedIff(db: Db, t: Target, raw: string)
    ensures TargetUsed(db.executions, t) <==> Spent(db, t)
    ensures Admitted(db, raw) <==> Csv.Trim(raw) != "" && db.enabled && !ReferenceUsed(db.executions, Csv.Trim(raw))
  {
  }

  lemma VouchedIff(s: Store, t: Target, reference: string)
    requires Exists(s, t)
    ensures ValueOf(s, t, reference).Ok? <==> Vouched(s, t)
    ensures ValueOf(s, t, reference) == Err(Unconfigured) <==> t.ToRedemption? && !ClaimsLegacy(s, s.redemptions[t.id]) && s.terms.None?
    ensures ValueOf(s, t, reference).Err? ==> ValueOf(s, t, reference).error in {Unconfigured, AmountNotAuthoritative}
  {
    if t.ToRedemption? { assert Excluding(Some(t.id)) == {t.id}; }
  }

  /** Which refusal answers what, for either kind of row: each one iff its cause. */
  lemma WhyUnpaid(db: Db, t: Target, raw: string)
    ensures var r, s, here := ExecuteSerially(db, t, raw).1, db.store, Admitted(db, raw) && Exists(db.store, t);
      && (r == Err(ExecutionDisabled) <==> Csv.Trim(raw) != "" && !db.enabled)
      && (r == Err(NotFound) <==> Admitted(db, raw) && !Exists(s, t))
      && (r == Err(Unconfigured) <==> here && t.ToRedemption? && !ClaimsLegacy(s, s.redemptions[t.id]) && s.terms.None?)
      && (r == Err(AmountNotAuthoritative) <==>
           here && !Vouched(s, t) && (t.ToRedemption? ==> ClaimsLegacy(s, s.redemptions[t.id]) || s.terms.Some?))
      && (r == Err(AlreadyExecuted) <==> here && Vouched(s, t) && (IsPaid(s, t) || (IsPayable(s, t) && Spent(db, t))))
      && (r == Err(InvalidState) <==> Csv.Trim(raw) == "" || (here && Vouched(s, t) && !IsPaid(s, t) && !IsPayable(s, t)))
      && (r == Err(DuplicateReference) <==>
           || (Csv.Trim(raw) != "" && db.enabled && !Admitted(db, raw))
           || (here && Vouched(s, t) && IsPayable(s, t) && !Spent(db, t) && t.ToAssignment? && Csv.Trim(raw) in db.details))
      && r != Err(RolledBack)
  {
    UsedIff(db, t, raw);
    if Exists(db.store, t) { VouchedIff(db.store, t, Csv.Trim(raw)); }
  }

  /** What one payment is and leaves: an assignment pays the amount stored when it was priced, a
      redemption what its points are worth at the rate in force, whatever its row says; the row takes
      that amount and nothing else of the tables changes. */
  predicate PaysRow(before: Db, t: Target, reference: string, after: Db, e: Execution) {
    match t
    case ToAssignment(id) =>
      && id < |before.store.assignments|
      && var a := before.store.assignments[id];
      && a.priced && a.amount > 0 && e == Execution(t, a.user, a.points, a.amount, reference)
      && after == before.(store := before.store.(assignments := before.store.assignments[id := a.(status := AssignmentPaid)]),
                          executions := before.executions + [e], details := before.details + [reference])
    case ToRedemption(id) =>
      && id < |before.store.redemptions| && before.store.terms.Some?
      && var r, amount := before.store.redemptions[id], Worth(before.store.redemptions[id].points, before.store.terms.value.rate);
      && e == Execution(t, r.user, r.points, amount, reference)
      && after == before.(store := before.store.(redemptions := before.store.redemptions[id := r.(status := RedemptionPaid, amount := amount)]),
                          executions := before.executions + [e])
  }

  class PayoutDesk {
    var db: Db

    constructor (db: Db)
      ensures this.db == db
    {
      this.db := db;
    }

    method ExecutePayout(t: Target, raw: string) returns (r: Result<Execution, Failure>)
      modifies this
      ensures (db, r) == ExecuteSerially(old(db), t, raw)
      ensures r.Err? ==> db == old(db)
      ensures r.Ok? ==> PaysRow(old(db), t, Csv.Trim(raw), db, r.value)
    {
      var reference := Csv.Trim(raw);
      if reference == "" {
        return Err(InvalidState);
      }
      if !db.enabled {
        return Err(ExecutionDisabled);
      }
      if ReferenceUsed(db.executions, reference) {
        return Err(DuplicateReference);
      }
      match t {
        case ToAssignment(id) => r := ExecuteAssignment(id, reference);
        case ToRedemption(id) => r := ExecuteRedemption(id, reference);
      }
    }

    method ExecuteAssignment(id: nat, reference: string) returns (r: Result<Execution, Failure>)
      requires !ReferenceUsed(db.executions, reference)
      modifies this
      ensures (db, r) == Pay(old(db), ToAssignment(id), reference)
    {
      var e :- AssignmentValue(db.store, id, reference);
      if db.store.assignments[id].status !in {AssignmentApproved, AssignmentProcessing} {
        return Err(NotClaimable(db.store.assignments[id].status == AssignmentPaid));
      }
      r := Insert(e);
    }

    /** The valuation is the batched one. */
    method ExecuteRedemption(id: nat, reference: string) returns (r: Result<Execution, Failure>)
      requires !ReferenceUsed(db.executions, reference)
      modifies this
      ensures (db, r) == Pay(old(db), ToRedemption(id), reference)
    {
      if id >= |db.store.redemptions| {
        return Err(NotFound);
      }
      var redemption := db.store.redemptions[id];
      if IsUnreconciledLegacyClaim(db.store, redemption) {
        return Err(AmountNotAuthoritative);
      }
      var valuation := ValuePayout(db.store, redemption.user, redemption.points, Some(id));
      if valuation.Err? {
        return Err(Unconfigured);
      }
      if valuation.value.reason.Some? {
        return Err(AmountNotAuthoritative);
      }
      if redemption.status != RedemptionApproved {
        return Err(NotClaimable(redemption.status == RedemptionPaid));
      }
      r := Insert(Execution(ToRedemption(id), redemption.user, redemption.points, valuation.value.payable, reference));
    }

    /** The execution row, then the assignment path's detail row; a taken index undoes the claim. */
    method Insert(e: Execution) returns (r: Result<Execution, Failure>)
      requires Exists(db.store, e.target) && !ReferenceUsed(db.executions, e.reference)
      modifies this
      ensures r == if TargetUsed(old(db).executions, e.target) then Err(AlreadyExecuted)
                   else if e.target.ToAssignment? && e.reference in old(db).details then Err(DuplicateReference)
                   else Ok(e)
      ensures db == if r.Ok? then Recorded(old(db), e) else old(db)
    {
      if TargetUsed(db.executions, e.target) {
        return Err(AlreadyExecuted);
      }
      if e.target.ToAssignment? && e.reference in db.details {
        return Err(DuplicateReference);
      }
      db := Recorded(db, e);
      return Ok(e);
    }
  }

  // ---------- interleaved transactions ----------

  /** Where an attempt's transaction stands. Its writes are visible to nobody before `Committed`. */
  datatype Phase = Begun
                 | Checked
                 | Loaded(row: Redemption)
                 | Cleared(row: Redemption)
                 | Priced(e: Execution, seenPaid: bool)
                 | Claimed(e: Execution)
                 | Inserted(e: Execution)
                 | Detailed(e: Execution)
                 | Committed(e: Execution)
                 | Refused(failure: Failure)

  datatype Attempt = Attempt(target: Target, reference: string, phase: Phase)

  datatype System = System(db: Db, attempts: seq<Attempt>)

  /** The attempt's claim holds its row's lock until commit or rollback. */
  predicate Holding(a: Attempt) { a.phase.Claimed? || a.phase.Inserted? || a.phase.Detailed? }

  predicate Inserting(a: Attempt) { a.phase.Inserted? || a.phase.Detailed? }

  predicate Detailing(a: Attempt) { a.phase.Detailed? && a.target.ToAssignment? }

  predicate Locked(sys: System, t: Target) { exists a :: a in sys.attempts && Holding(a) && a.target == t }

  predicate ReferencePending(sys: System, reference: string, but: nat) {
    exists j :: 0 <= j < |sys.attempts| && j != but && Inserting(sys.attempts[j]) && sys.attempts[j].reference == reference
  }

  predicate DetailPending(sys: System, reference: string, but: nat) {
    exists j :: 0 <= j < |sys.attempts| && j != but && Detailing(sys.attempts[j]) && sys.attempts[j].reference == reference
  }

  function PricedOr(value: Result<Execution, Failure>, paid: bool): Phase {
    if value.Ok? then Priced(value.value, paid) else Refused(value.error)
  }

  /** One statement of one transaction. An attempt that must wait stays where it is. */
  function NextPhase(sys: System, k: nat): Phase
    requires k < |sys.attempts|
  {
    var a, db := sys.attempts[k], sys.db;
    match a.phase
    case Begun =>
      if !db.enabled then Refused(ExecutionDisabled)
      else if ReferenceUsed(db.executions, a.reference) then Refused(DuplicateReference)
      else Checked
    case Checked => AfterCheck(db.store, a)
    case Loaded(row) => if IsUnreconciledLegacyClaim(db.store, row) then Refused(AmountNotAuthoritative) else Cleared(row)
    case Cleared(row) => PricedOr(RedemptionValue(db.store, a.target.id, row, a.reference), row.status == RedemptionPaid)
    case Priced(e, seenPaid) =>
      if Locked(sys, a.target) then a.phase
      else if !Exists(db.store, a.target) || !IsPayable(db.store, a.target) then Refused(NotClaimable(seenPaid))
      else Claimed(e)
    case Claimed(e) =>
      if TargetUsed(db.executions, a.target) then Refused(AlreadyExecuted)
      else if ReferenceUsed(db.executions, a.reference) then Refused(DuplicateReference)
      else if ReferencePending(sys, a.reference, k) then a.phase
      else Inserted(e)
    case Inserted(e) =>
      if a.target.ToAssignment? && a.reference in db.details then Refused(DuplicateReference)
      else if a.target.ToAssignment? && DetailPending(sys, a.reference, k) then a.phase
      else Detailed(e)
    case _ => a.phase
  }

  function AfterCheck(s: Store, a: Attempt): Phase {
    match a.target
    case ToAssignment(id) =>
      PricedOr(AssignmentValue(s, id, a.reference), id < |s.assignments| && s.assignments[id].status == AssignmentPaid)
    case ToRedemption(id) => if id < |s.redemptions| then Loaded(s.redemptions[id]) else Refused(NotFound)
  }

  /** What the rest of the platform does to the tables, one committed statement at a time. */
  datatype Change = Credit(entry: LedgerEntry)
                  | AddAssignment(assignment: Assignment)
                  | AddRedemption(redemption: Redemption)
                  | AddCarryover(carryover: Carryover)
                  | SetCarryover(at: nat, carryover: Carryover)
                  | SetTerms(terms: Option<Terms>)
                  | SetAssignment(id: nat, assignmentStatus: AssignmentStatus)
                  | SetRedemption(id: nat, redemptionStatus: RedemptionStatus)

  datatype Move = Submit(target: Target, raw: string) | Advance(k: nat) | Rollback(k: nat) | Switch(on: bool) | Outside(change: Change)

  /** The unique index on cycle and beneficiary; a batch skips the rows it would repeat. */
  predicate CycleTaken(s: Store, cycle: nat, user: UserId) {
    exists a :: a in s.assignments && a.cycle == cycle && a.user == user
  }

  function Apply(s: Store, change: Change): Store {
    match change
    case Credit(entry) => s.(ledger := s.ledger + [entry])
    case AddAssignment(a) => if CycleTaken(s, a.cycle, a.user) then s else s.(assignments := s.assignments + [a])
    case AddRedemption(r) => s.(redemptions := s.redemptions + [r])
    case AddCarryover(c) => s.(carryovers := s.carryovers + [c])
    case SetCarryover(at, c) => if at < |s.carryovers| then s.(carryovers := s.carryovers[at := c]) else s
    case SetTerms(terms) => s.(terms := terms)
    case SetAssignment(id, status) =>
      if id < |s.assignments| then s.(assignments := s.assignments[id := s.assignments[id].(status := status)]) else s
    case SetRedemption(id, status) =>
      if id < |s.redemptions| then s.(redemptions := s.redemptions[id := s.redemptions[id].(status := status)]) else s
  }

  /** A status change to a locked row waits. */
  predicate Waits(sys: System, change: Change) {
    match change
    case SetAssignment(id, _) => Locked(sys, ToAssignment(id))
    case SetRedemption(id, _) => Locked(sys, ToRedemption(id))
    case _ => false
  }

  function Enter(sys: System, k: nat, phase: Phase): System
    requires k < |sys.attempts|
  {
    sys.(attempts := sys.attempts[k := sys.attempts[k].(phase := phase)])
  }

  function Commit(sys: System, k: nat): System
    requires k < |sys.attempts| && sys.attempts[k].phase.Detailed?
  {
    var e := sys.attempts[k].phase.e;
    if !Exists(sys.db.store, e.target) then sys
    else Enter(sys, k, Committed(e)).(db := Recorded(sys.db, e))
  }

  function Start(sys: System, t: Target, raw: string): Attempt {
    var reference := Csv.Trim(raw);
    Attempt(t, reference, if reference == "" then Refused(InvalidState)
                          else if !sys.db.enabled then Refused(ExecutionDisabled) else Begun)
  }

  function Step(sys: System, move: Move): System {
    match move
    case Submit(t, raw) => sys.(attempts := sys.attempts + [Start(sys, t, raw)])
    case Advance(k) =>
      if k >= |sys.attempts| then sys
      else if sys.attempts[k].phase.Detailed? then Commit(sys, k)
      else Enter(sys, k, NextPhase(sys, k))
    case Rollback(k) =>
      if k >= |sys.attempts| || sys.attempts[k].phase.Committed? || sys.attempts[k].phase.Refused? then sys
      else Enter(sys, k, Refused(RolledBack))
    case Switch(on) => sys.(db := sys.db.(enabled := on))
    case Outside(change) =>
      if Waits(sys, change) then sys else sys.(db := sys.db.(store := Apply(sys.db.store, change)))
  }

  function Run(sys: System, moves: seq<Move>): System {
    if moves == [] then sys else Step(Run(sys, moves[..|moves| - 1]), moves[|moves| - 1])
  }

  // ---------- exactly once, whatever the rest of the platform does ----------

  /** No target and no reference is executed twice, and no detail reference recorded twice. */
  predicate OnceEach(db: Db) {
    && (forall i, j :: 0 <= i < j < |db.executions| ==>
         && db.executions[i].target != db.executions[j].target
         && db.executions[i].reference != db.executions[j].reference)
    && Distinct(db.details)
  }

  function Carried(phase: Phase): Option<Execution> {
    match phase
    case Priced(e, _) => Some(e)
    case Claimed(e) => Some(e)
    case Inserted(e) => Some(e)
    case Detailed(e) => Some(e)
    case Committed(e) => Some(e)
    case _ => None
  }

  /** An attempt carries an execution of its own target under its own reference, and what it has
      inserted collides with nothing committed. */
  predicate Sound(db: Db, a: Attempt) {
    && (Carried(a.phase).Some? ==> Carried(a.phase).value.target == a.target && Carried(a.phase).value.reference == a.reference)
    && (a.phase.Loaded? || a.phase.Cleared? ==> a.target.ToRedemption?)
    && (Inserting(a) ==> !TargetUsed(db.executions, a.target) && !ReferenceUsed(db.executions, a.reference))
    && (Detailing(a) ==> a.reference !in db.details)
    && (a.phase.Committed? ==> a.phase.e in db.executions)
  }

  predicate Apart(a: Attempt, b: Attempt) {
    && (Holding(a) && Holding(b) ==> a.target != b.target)
    && (Inserting(a) && Inserting(b) ==> a.reference != b.reference)
    && (a.phase.Committed? && b.phase.Committed? ==> a.target != b.target)
  }

  predicate Inv(sys: System) {
    && OnceEach(sys.db)
    && (forall i :: 0 <= i < |sys.attempts| ==> Sound(sys.db, sys.attempts[i]))
    && (forall i, j :: 0 <= i < j < |sys.attempts| ==> Apart(sys.attempts[i], sys.attempts[j]))
  }

  lemma EnterKeeps(sys: System, k: nat, phase: Phase)
    requires Inv(sys) && k < |sys.attempts|
    requires var a := sys.attempts[k].(phase := phase);
      && Sound(sys.db, a)
      && (forall j :: 0 <= j < |sys.attempts| && j != k ==> Apart(a, sys.attempts[j]))
    ensures Inv(Enter(sys, k, phase))
  {
  }

  lemma AdvanceKeeps(sys: System, k: nat)
    requires Inv(sys) && k < |sys.attempts| && !sys.attempts[k].phase.Detailed?
    ensures Inv(Enter(sys, k, NextPhase(sys, k)))
  {
    var a := sys.attempts[k];
    var b := a.(phase := NextPhase(sys, k));
    assert Sound(sys.db, a);
    forall j | 0 <= j < |sys.attempts| && j != k ensures Apart(b, sys.attempts[j]) {
      assert j < k ==> Apart(sys.attempts[j], a);
      assert k < j ==> Apart(a, sys.attempts[j]);
    }
    EnterKeeps(sys, k, NextPhase(sys, k));
  }

  lemma CommitKeeps(sys: System, k: nat)
    requires Inv(sys) && k < |sys.attempts| && sys.attempts[k].phase.Detailed?
    ensures Inv(Commit(sys, k))
  {
    var a := sys.attempts[k];
    var e, next := a.phase.e, Commit(sys, k);
    if Exists(sys.db.store, e.target) {
      assert Sound(sys.db, a);
      RecordedIsOnce(sys.db, e);
      forall i | 0 <= i < |next.attempts| ensures Sound(next.db, next.attempts[i]) {
        var b := sys.attempts[i];
        assert Sound(sys.db, b);
        if i != k {
          assert Apart(a, b);
          assert forall x :: x in next.db.executions ==> x in sys.db.executions || x == e;
        }
      }
    }
  }

  lemma RecordedIsOnce(db: Db, e: Execution)
    requires OnceEach(db) && Exists(db.store, e.target)
    requires !TargetUsed(db.executions, e.target) && !ReferenceUsed(db.executions, e.reference)
    requires e.target.ToAssignment? ==> e.reference !in db.details
    ensures OnceEach(Recorded(db, e))
  {
    DistinctSnoc(db.details, e.reference);
  }

  lemma StepKeeps(sys: System, move: Move)
    requires Inv(sys)
    ensures Inv(Step(sys, move))
  {
    match move
    case Advance(k) =>
      if k < |sys.attempts| {
        if sys.attempts[k].phase.Detailed? { CommitKeeps(sys, k); } else { AdvanceKeeps(sys, k); }
      }
    case Rollback(k) =>
      if k < |sys.attempts| { EnterKeeps(sys, k, Refused(RolledBack)); }
    case _ =>
  }

  /** Under every interleaving, with any outside change and rollback anywhere. */
  lemma {:induction false} ExactlyOnce(sys: System, moves: seq<Move>)
    requires Inv(sys)
    ensures Inv(Run(sys, moves)) && OnceEach(Run(sys, moves).db)
  {
    if moves != [] {
      ExactlyOnce(sys, moves[..|moves| - 1]);
      StepKeeps(Run(sys, moves[..|moves| - 1]), moves[|moves| - 1]);
    }
  }

  // ---------- an attempt is either one execution or nothing ----------

  /** Nobody else holds a row. */
  predicate Alone(sys: System, k: nat) {
    k < |sys.attempts| && forall j :: 0 <= j < |sys.attempts| && j != k ==> !Holding(sys.attempts[j])
  }

  function Drive(sys: System, k: nat, turns: nat): System
    decreases turns
  {
    if turns == 0 then sys else Drive(Step(sys, Advance(k)), k, turns - 1)
  }

  function Outcome(r: Result<Execution, Failure>): Phase { if r.Ok? then Committed(r.value) else Refused(r.error) }

  predicate Ends(sys: System, k: nat, turns: nat, pay: (Db, Result<Execution, Failure>)) {
    var done := Drive(sys, k, turns);
    done.db == pay.0 && k < |done.attempts| && done.attempts[k].phase == Outcome(pay.1)
  }

  lemma {:induction false} OverIsOver(sys: System, k: nat, turns: nat)
    requires k < |sys.attempts| && (sys.attempts[k].phase.Committed? || sys.attempts[k].phase.Refused?)
    ensures Drive(sys, k, turns) == sys
  {
    if turns > 0 {
      assert Step(sys, Advance(k)) == sys;
      OverIsOver(sys, k, turns - 1);
    }
  }

  lemma DriveOn(sys: System, k: nat, turns: nat, phase: Phase)
    requires k < |sys.attempts| && !sys.attempts[k].phase.Detailed? && NextPhase(sys, k) == phase
    ensures Drive(sys, k, turns + 1) == Drive(Enter(sys, k, phase), k, turns)
    ensures phase.Refused? ==> Drive(sys, k, turns + 1) == Enter(sys, k, phase)
    ensures Alone(sys, k) ==> Alone(Enter(sys, k, phase), k)
  {
    if phase.Refused? { OverIsOver(Enter(sys, k, phase), k, turns); }
  }

  lemma DriveClaim(sys: System, k: nat, e: Execution)
    requires Alone(sys, k) && Exists(sys.db.store, e.target)
    requires var a := sys.attempts[k]; a.phase == Claimed(e) && a.target == e.target && a.reference == e.reference
    requires !ReferenceUsed(sys.db.executions, e.reference)
    ensures Ends(sys, k, 3,
                 if TargetUsed(sys.db.executions, e.target) then (sys.db, Err(AlreadyExecuted))
                 else if e.target.ToAssignment? && e.reference in sys.db.details then (sys.db, Err(DuplicateReference))
                 else (Recorded(sys.db, e), Ok(e)))
  {
    DriveOn(sys, k, 2, NextPhase(sys, k));
    if !TargetUsed(sys.db.executions, e.target) {
      var inserted := Enter(sys, k, Inserted(e));
      DriveOn(inserted, k, 1, NextPhase(inserted, k));
      if !(e.target.ToAssignment? && e.reference in sys.db.details) {
        var detailed := Enter(inserted, k, Detailed(e));
        assert Step(detailed, Advance(k)) == Commit(detailed, k);
        assert Drive(detailed, k, 1) == Drive(Commit(detailed, k), k, 0);
      }
    }
  }

  lemma DrivePriced(sys: System, k: nat, value: Result<Execution, Failure>)
    requires Alone(sys, k) && Exists(sys.db.store, sys.attempts[k].target)
    requires !ReferenceUsed(sys.db.executions, sys.attempts[k].reference)
    requires var a := sys.attempts[k];
      && value == ValueOf(sys.db.store, a.target, a.reference)
      && a.phase == PricedOr(value, IsPaid(sys.db.store, a.target))
    ensures Ends(sys, k, 4, Pay(sys.db, sys.attempts[k].target, sys.attempts[k].reference))
  {
    var a := sys.attempts[k];
    if value.Err? {
      OverIsOver(sys, k, 4);
    } else {
      DriveOn(sys, k, 3, NextPhase(sys, k));
      if IsPayable(sys.db.store, a.target) {
        DriveClaim(Enter(sys, k, Claimed(value.value)), k, value.value);
      }
    }
  }

  lemma DriveChecked(sys: System, k: nat)
    requires Alone(sys, k) && sys.attempts[k].phase == Checked
    requires !ReferenceUsed(sys.db.executions, sys.attempts[k].reference)
    ensures Ends(sys, k, 7, Pay(sys.db, sys.attempts[k].target, sys.attempts[k].reference))
  {
    var a, store := sys.attempts[k], sys.db.store;
    if !Exists(store, a.target) {
      DriveOn(sys, k, 6, Refused(NotFound));
    } else if a.target.ToAssignment? {
      DriveAssignment(sys, k);
      EndsLater(sys, k, 5, 2, Pay(sys.db, a.target, a.reference));
    } else {
      DriveOn(sys, k, 6, Loaded(store.redemptions[a.target.id]));
      DriveLoaded(Enter(sys, k, Loaded(store.redemptions[a.target.id])), k);
    }
  }

  lemma DriveAssignment(sys: System, k: nat)
    requires Alone(sys, k) && sys.attempts[k].phase == Checked
    requires sys.attempts[k].target.ToAssignment? && Exists(sys.db.store, sys.attempts[k].target)
    requires !ReferenceUsed(sys.db.executions, sys.attempts[k].reference)
    ensures Ends(sys, k, 5, Pay(sys.db, sys.attempts[k].target, sys.attempts[k].reference))
  {
    var a, store := sys.attempts[k], sys.db.store;
    var value := AssignmentValue(store, a.target.id, a.reference);
    var next := PricedOr(value, IsPaid(store, a.target));
    DriveOn(sys, k, 4, next);
    DrivePriced(Enter(sys, k, next), k, value);
  }

  lemma DriveLoaded(sys: System, k: nat)
    requires Alone(sys, k) && sys.attempts[k].target.ToRedemption? && Exists(sys.db.store, sys.attempts[k].target)
    requires sys.attempts[k].phase == Loaded(sys.db.store.redemptions[sys.attempts[k].target.id])
    requires !ReferenceUsed(sys.db.executions, sys.attempts[k].reference)
    ensures Ends(sys, k, 6, Pay(sys.db, sys.attempts[k].target, sys.attempts[k].reference))
  {
    var a, row := sys.attempts[k], sys.attempts[k].phase.row;
    DriveOn(sys, k, 5, NextPhase(sys, k));
    if !IsUnreconciledLegacyClaim(sys.db.store, row) {
      var cleared := Enter(sys, k, Cleared(row));
      var value := RedemptionValue(sys.db.store, a.target.id, row, a.reference);
      var next := PricedOr(value, row.status == RedemptionPaid);
      DriveOn(cleared, k, 4, next);
      DrivePriced(Enter(cleared, k, next), k, value);
    }
  }

  lemma {:induction false} FinishedEarly(sys: System, k: nat, turns: nat, more: nat)
    requires var done := Drive(sys, k, turns);
      k < |done.attempts| && (done.attempts[k].phase.Committed? || done.attempts[k].phase.Refused?)
    ensures Drive(sys, k, turns + more) == Drive(sys, k, turns)
    decreases turns
  {
    if turns == 0 { OverIsOver(sys, k, more); } else { FinishedEarly(Step(sys, Advance(k)), k, turns - 1, more); }
  }

  lemma EndsLater(sys: System, k: nat, turns: nat, more: nat, pay: (Db, Result<Execution, Failure>))
    requires Ends(sys, k, turns, pay)
    ensures Ends(sys, k, turns + more, pay)
  {
    FinishedEarly(sys, k, turns, more);
  }

  /** With nobody else holding a row, an attempt driven to its end is the serial executor. */
  lemma AloneIsSerial(sys: System, t: Target, raw: string)
    requires forall a :: a in sys.attempts ==> !Holding(a)
    ensures Ends(Step(sys, Submit(t, raw)), |sys.attempts|, 8, ExecuteSerially(sys.db, t, raw))
  {
    var k, begun := |sys.attempts|, Step(sys, Submit(t, raw));
    var reference := Csv.Trim(raw);
    assert begun.attempts[k] == Start(sys, t, raw) && Alone(begun, k);
    if reference == "" || !sys.db.enabled {
      OverIsOver(begun, k, 8);
    } else {
      DriveOn(begun, k, 7, NextPhase(begun, k));
      if !ReferenceUsed(sys.db.executions, reference) {
        DriveChecked(Enter(begun, k, Checked), k);
      }
    }
  }

  /** An attempt writes once, at its commit: refused, blocked, switched off or rolled back it
      leaves the database as it was. */
  lemma OnlyCommitsWrite(sys: System, move: Move)
    requires (move.Submit? || move.Advance? || move.Rollback?) && Step(sys, move).db != sys.db
    ensures move.Advance? && move.k < |sys.attempts| && sys.attempts[move.k].phase.Detailed?
    ensures var e := sys.attempts[move.k].phase.e;
      && Exists(sys.db.store, e.target)
      && Step(sys, move).attempts[move.k].phase == Committed(e)
      && Step(sys, move).db == Recorded(sys.db, e)
  {
  }

  /** Payments already made, recorded one after the other. */
  function RecordAll(db: Db, executions: seq<Execution>): Db {
    if executions == [] then db
    else
      var before, e := RecordAll(db, executions[..|executions| - 1]), executions[|executions| - 1];
      if Exists(before.store, e.target) then Recorded(before, e) else before
  }

  predicate OfAttempts(moves: seq<Move>) { forall m :: m in moves ==> m.Submit? || m.Advance? || m.Rollback? }

  /** However attempts interleave and roll back, rows, details and executions together are what
      recording the new executions in their order would have left: no attempt leaves half its writes. */
  lemma {:induction false} DatabaseIsItsExecutions(sys: System, moves: seq<Move>)
    requires OfAttempts(moves)
    ensures var done := Run(sys, moves).db;
      && sys.db.executions <= done.executions
      && done == RecordAll(sys.db, done.executions[|sys.db.executions|..])
  {
    var n := |sys.db.executions|;
    if moves == [] {
      assert sys.db.executions[n..] == [];
    } else {
      var before, move := moves[..|moves| - 1], moves[|moves| - 1];
      DatabaseIsItsExecutions(sys, before);
      var middle, done := Run(sys, before), Run(sys, moves);
      assert move in moves;
      if done.db != middle.db {
        OnlyCommitsWrite(middle, move);
        var added := done.db.executions[n..];
        assert added[..|added| - 1] == middle.db.executions[n..];
      }
    }
  }

  predicate HasCommitted(attempts: seq<Attempt>, e: Execution) { exists a :: a in attempts && a.phase == Committed(e) }

  /** Every execution past the first `n` belongs to a committed attempt, and each committed
      attempt to one of them. */
  predicate FromAttempts(executions: seq<Execution>, attempts: seq<Attempt>, n: nat) {
    && n <= |executions|
    && (forall i :: n <= i < |executions| ==> HasCommitted(attempts, executions[i]))
    && (forall a :: a in attempts && a.phase.Committed? ==> a.phase.e in executions[n..])
  }

  predicate Accounted(sys: System, n: nat) { FromAttempts(sys.db.executions, sys.attempts, n) }

  lemma EnterKeepsOrigin(sys: System, k: nat, phase: Phase, n: nat)
    requires Accounted(sys, n) && k < |sys.attempts|
    requires !sys.attempts[k].phase.Committed? && !phase.Committed?
    ensures Accounted(Enter(sys, k, phase), n)
  {
    var next := Enter(sys, k, phase);
    assert next.db == sys.db;
    forall i | n <= i < |next.db.executions|
      ensures HasCommitted(next.attempts, next.db.executions[i])
    {
      assert HasCommitted(sys.attempts, sys.db.executions[i]);
      var a :| a in sys.attempts && a.phase == Committed(sys.db.executions[i]);
      var j :| 0 <= j < |sys.attempts| && sys.attempts[j] == a;
      assert next.attempts[j] == a;
    }
  }

  lemma CommitKeepsOrigin(sys: System, k: nat, n: nat)
    requires Accounted(sys, n) && k < |sys.attempts| && sys.attempts[k].phase.Detailed?
    ensures Accounted(Commit(sys, k), n)
    ensures Commit(sys, k).db.executions[..n] == sys.db.executions[..n]
  {
    var e, next := sys.attempts[k].phase.e, Commit(sys, k);
    if Exists(sys.db.store, e.target) {
      forall i | n <= i < |next.db.executions|
        ensures HasCommitted(next.attempts, next.db.executions[i])
      {
        if i == |sys.db.executions| {
          assert next.attempts[k].phase == Committed(e);
        } else {
          var a :| a in sys.attempts && a.phase == Committed(sys.db.executions[i]);
          var j :| 0 <= j < |sys.attempts| && sys.attempts[j] == a;
          assert next.attempts[j] == a;
        }
      }
      assert next.db.executions[n..] == sys.db.executions[n..] + [e];
    }
  }

  lemma StepKeepsOrigin(sys: System, move: Move, n: nat)
    requires Accounted(sys, n)
    ensures Accounted(Step(sys, move), n)
    ensures Step(sys, move).db.executions[..n] == sys.db.executions[..n]
  {
    match move
    case Submit(t, raw) =>
      var next := Step(sys, move);
      assert forall a :: a in sys.attempts ==> a in next.attempts;
    case Advance(k) =>
      if k < |sys.attempts| {
        if sys.attempts[k].phase.Detailed? {
          CommitKeepsOrigin(sys, k, n);
        } else if sys.attempts[k].phase.Committed? {
          assert Step(sys, move) == sys;
        } else {
          EnterKeepsOrigin(sys, k, NextPhase(sys, k), n);
        }
      }
    case Rollback(k) =>
      if k < |sys.attempts| && !sys.attempts[k].phase.Committed? { EnterKeepsOrigin(sys, k, Refused(RolledBack), n); }
    case _ => assert Step(sys, move).attempts == sys.attempts && Step(sys, move).db.executions == sys.db.executions;
  }

  /** Over any run, committed attempts and new executions correspond one to one; an attempt
      refused, switched off or rolled back stands for none. */
  lemma {:induction false} ExecutionsAreCommits(sys: System, moves: seq<Move>)
    requires Inv(sys) && sys.attempts == []
    ensures var done := Run(sys, moves);
      && Accounted(done, |sys.db.executions|)
      && done.db.executions[..|sys.db.executions|] == sys.db.executions
      && CommitOnce(done.attempts)
  {
    var n := |sys.db.executions|;
    ExactlyOnce(sys, moves);
    if moves == [] {
      assert sys.db.executions[..n] == sys.db.executions;
    } else {
      ExecutionsAreCommits(sys, moves[..|moves| - 1]);
      StepKeepsOrigin(Run(sys, moves[..|moves| - 1]), moves[|moves| - 1], n);
    }
    CommittedApart(Run(sys, moves));
  }

  predicate CommitOnce(attempts: seq<Attempt>) {
    forall i, j | 0 <= i < j < |attempts| ::
      attempts[i].phase.Committed? && attempts[j].phase.Committed? ==> attempts[i].phase.e != attempts[j].phase.e
  }

  lemma CommittedApart(sys: System)
    requires Inv(sys)
    ensures CommitOnce(sys.attempts)
  {
    forall i, j | 0 <= i < j < |sys.attempts| && sys.attempts[i].phase.Committed? && sys.attempts[j].phase.Committed?
      ensures sys.attempts[i].phase.e != sys.attempts[j].phase.e
    {
      assert Apart(sys.attempts[i], sys.attempts[j]);
      assert Sound(sys.db, sys.attempts[i]) && Sound(sys.db, sys.attempts[j]);
    }
  }
}
