/** What a member is owed: batched balances proved equal to naive per-member sums, and the
    valuations built on them. A row's identifier is its index in its table. */
module PayoutAuthority {
  import opened Prelude

  type UserId = string

  datatype LedgerEntry = LedgerEntry(user: UserId, points: nat)

  datatype AssignmentStatus = AssignmentPending | AssignmentEligible | AssignmentApproved
                            | AssignmentProcessing | AssignmentPaid | AssignmentRejected | AssignmentHeld

  /** `priced` says that the assignment's cycle carries a payout configuration; `amount` is in hundredths. */
  datatype Assignment = Assignment(cycle: nat, user: UserId, points: nat, amount: int, status: AssignmentStatus, priced: bool)

  datatype RedemptionStatus = RedemptionPending | RedemptionApproved | RedemptionRejected | RedemptionPaid

  datatype Redemption = Redemption(user: UserId, points: nat, amount: int, status: RedemptionStatus, createdAt: nat)

  datatype CarryoverStatus = CarryoverPending | CarryoverConfirmed | CarryoverVoid

  datatype Carryover = Carryover(user: UserId, status: CarryoverStatus, legacyPoints: nat, creditedPoints: nat, executedAt: nat)

  datatype Terms = Terms(minimum: nat, rate: real)

  datatype Store = Store(ledger: seq<LedgerEntry>, assignments: seq<Assignment>, redemptions: seq<Redemption>,
                         carryovers: seq<Carryover>, terms: Option<Terms>)

  predicate AssignmentReserves(status: AssignmentStatus) { status != AssignmentRejected }

  predicate RedemptionReserves(status: RedemptionStatus) { status != RedemptionRejected }

  // ---------- grouped queries ----------

  datatype Posting = Posting(user: UserId, points: nat)

  /** A query's `where` and `select` in one: what a row, with its identifier, contributes. */
  type Query<!R> = (nat, R) -> Option<Posting>

  function PointsFor(posting: Option<Posting>, user: UserId): nat {
    if posting.Some? && posting.value.user == user then posting.value.points else 0
  }

  /** The naive sum for one member. */
  function Sum<R>(rows: seq<R>, query: Query<R>, user: UserId): nat {
    if rows == [] then 0
    else Sum(rows[..|rows| - 1], query, user) + PointsFor(query(|rows| - 1, rows[|rows| - 1]), user)
  }

  function Lookup(m: map<UserId, nat>, user: UserId): nat { if user in m then m[user] else 0 }

  /** `groupBy` with `_sum`: one entry a member with a selected row. */
  function GroupBy<R>(rows: seq<R>, query: Query<R>): map<UserId, nat> {
    if rows == [] then map[]
    else
      var before := GroupBy(rows[..|rows| - 1], query);
      match query(|rows| - 1, rows[|rows| - 1])
      case None => before
      case Some(p) => before[p.user := Lookup(before, p.user) + p.points]
  }

  lemma {:induction false} GroupByIsSum<R>(rows: seq<R>, query: Query<R>, user: UserId)
    ensures Lookup(GroupBy(rows, query), user) == Sum(rows, query, user)
  {
    if rows != [] { GroupByIsSum(rows[..|rows| - 1], query, user); }
  }

  lemma {:induction false} GroupByKeys<R>(rows: seq<R>, query: Query<R>, user: UserId)
    requires user in GroupBy(rows, query)
    ensures exists i :: 0 <= i < |rows| && query(i, rows[i]).Some? && query(i, rows[i]).value.user == user
  {
    var n := |rows| - 1;
    if query(n, rows[n]).None? || query(n, rows[n]).value.user != user {
      GroupByKeys(rows[..n], query, user);
    }
  }

  /** Queries that treat one member's rows alike give that member the same sum. */
  lemma {:induction false} SumAgrees<R>(rows: seq<R>, q: Query<R>, q': Query<R>, user: UserId)
    requires forall i: nat :: i < |rows| ==> PointsFor(q(i, rows[i]), user) == PointsFor(q'(i, rows[i]), user)
    ensures Sum(rows, q, user) == Sum(rows, q', user)
  {
    if rows != [] { SumAgrees(rows[..|rows| - 1], q, q', user); }
  }

  lemma {:induction false} SumAtMost<R>(rows: seq<R>, q: Query<R>, q': Query<R>, user: UserId)
    requires forall i: nat :: i < |rows| ==> PointsFor(q(i, rows[i]), user) <= PointsFor(q'(i, rows[i]), user)
    ensures Sum(rows, q, user) <= Sum(rows, q', user)
  {
    if rows != [] { SumAtMost(rows[..|rows| - 1], q, q', user); }
  }

  /** Queries that differ on one row give sums that differ by what that row contributes. */
  lemma {:induction false} SumWithout<R>(rows: seq<R>, q: Query<R>, q': Query<R>, user: UserId, k: nat)
    requires k < |rows| && PointsFor(q'(k, rows[k]), user) == 0
    requires forall i: nat :: i < |rows| && i != k ==> PointsFor(q(i, rows[i]), user) == PointsFor(q'(i, rows[i]), user)
    ensures Sum(rows, q, user) == Sum(rows, q', user) + PointsFor(q(k, rows[k]), user)
  {
    if k == |rows| - 1 {
      SumAgrees(rows[..k], q, q', user);
    } else {
      SumWithout(rows[..|rows| - 1], q, q', user, k);
    }
  }

  /** `None` is every member. */
  type Members = Option<seq<UserId>>

  predicate Covers(scope: Members, user: UserId) { scope.Some? ==> user in scope.value }

  function Scoped<R>(scope: Members, query: Query<R>): Query<R> {
    (i: nat, r: R) => var p := query(i, r); if p.Some? && Covers(scope, p.value.user) then p else None
  }

  lemma ScopedSum<R>(rows: seq<R>, scope: Members, query: Query<R>, user: UserId)
    ensures Lookup(GroupBy(rows, Scoped(scope, query)), user) == if Covers(scope, user) then Sum(rows, query, user) else 0
    ensures user in GroupBy(rows, Scoped(scope, query)) ==> Covers(scope, user)
  {
    var scoped := Scoped(scope, query);
    GroupByIsSum(rows, scoped, user);
    if Covers(scope, user) {
      SumAgrees(rows, scoped, query, user);
    } else if user in GroupBy(rows, scoped) {
      GroupByKeys(rows, scoped, user);
    }
  }

  // ---------- the six figures, naively ----------

  function Earned(): Query<LedgerEntry> { (i: nat, e: LedgerEntry) => Some(Posting(e.user, e.points)) }

  function HeldAssignments(): Query<Assignment> {
    (i: nat, a: Assignment) => if AssignmentReserves(a.status) then Some(Posting(a.user, a.points)) else None
  }

  function HeldRedemptions(excluded: set<nat>): Query<Redemption> {
    (i: nat, r: Redemption) =>
      if RedemptionReserves(r.status) && i !in excluded then Some(Posting(r.user, r.points)) else None
  }

  function RaisedBy(cutover: nat, excluded: set<nat>): Query<Redemption> {
    (i: nat, r: Redemption) =>
      if RedemptionReserves(r.status) && r.createdAt <= cutover && i !in excluded then Some(Posting(r.user, r.points)) else None
  }

  function PendingLegacy(): Query<Carryover> {
    (i: nat, c: Carryover) => if c.status == CarryoverPending then Some(Posting(c.user, c.legacyPoints)) else None
  }

  function ConfirmedLegacy(): Query<Carryover> {
    (i: nat, c: Carryover) => if c.status == CarryoverConfirmed then Some(Posting(c.user, c.creditedPoints)) else None
  }

  predicate Carries(c: Carryover, user: UserId) { c.user == user && c.status != CarryoverVoid }

  /** The latest instant at which the member was carried over, if ever. */
  function CutoverOf(carryovers: seq<Carryover>, user: UserId): Option<nat> {
    if carryovers == [] then None
    else
      var before, last := CutoverOf(carryovers[..|carryovers| - 1], user), carryovers[|carryovers| - 1];
      if !Carries(last, user) then before
      else if before.Some? && before.value > last.executedAt then before
      else Some(last.executedAt)
  }

  lemma {:induction false} CutoverIsLatest(carryovers: seq<Carryover>, user: UserId)
    ensures CutoverOf(carryovers, user).None? <==> forall c :: c in carryovers ==> !Carries(c, user)
    ensures forall c :: c in carryovers && Carries(c, user) ==> c.executedAt <= CutoverOf(carryovers, user).value
    ensures CutoverOf(carryovers, user).Some? ==>
      exists c :: c in carryovers && Carries(c, user) && c.executedAt == CutoverOf(carryovers, user).value
  {
    if carryovers != [] {
      var n := |carryovers| - 1;
      CutoverIsLatest(carryovers[..n], user);
      assert carryovers == carryovers[..n] + [carryovers[n]];
    }
  }

  function PreCutoverPoints(s: Store, user: UserId, excluded: set<nat>): nat {
    match CutoverOf(s.carryovers, user)
    case None => 0
    case Some(cutover) => Sum(s.redemptions, RaisedBy(cutover, excluded), user)
  }

  datatype Balance = Balance(confirmed: nat, reserved: nat, eligible: nat, legacyPending: nat, legacyConfirmed: nat, preCutover: nat)

  const EMPTY_BALANCE := Balance(0, 0, 0, 0, 0, 0)

  function Floored(n: int): nat { if n < 0 then 0 else n }

  function Reserved(s: Store, user: UserId, excluded: set<nat>): nat {
    Sum(s.assignments, HeldAssignments(), user) + Sum(s.redemptions, HeldRedemptions(excluded), user)
  }

  function Confirmed(s: Store, user: UserId): nat { Sum(s.ledger, Earned(), user) }

  function BalanceFor(s: Store, user: UserId, excluded: set<nat>): Balance {
    var confirmed, reserved := Confirmed(s, user), Reserved(s, user, excluded);
    Balance(confirmed, reserved, Floored(confirmed - reserved), Sum(s.carryovers, PendingLegacy(), user),
            Sum(s.carryovers, ConfirmedLegacy(), user), PreCutoverPoints(s, user, excluded))
  }

  // ---------- pre-cutover reservations, batched ----------

  function InCutover(users: set<UserId>, cutover: nat, excluded: set<nat>): Query<Redemption> {
    (i: nat, r: Redemption) =>
      if r.user in users && RedemptionReserves(r.status) && r.createdAt <= cutover && i !in excluded
      then Some(Posting(r.user, r.points)) else None
  }

  lemma InCutoverSum(redemptions: seq<Redemption>, users: set<UserId>, cutover: nat, excluded: set<nat>, user: UserId)
    ensures Lookup(GroupBy(redemptions, InCutover(users, cutover, excluded)), user) ==
      if user in users then Sum(redemptions, RaisedBy(cutover, excluded), user) else 0
    ensures user in GroupBy(redemptions, InCutover(users, cutover, excluded)) ==> user in users
  {
    var query := InCutover(users, cutover, excluded);
    GroupByIsSum(redemptions, query, user);
    if user in users {
      SumAgrees(redemptions, query, RaisedBy(cutover, excluded), user);
    } else if user in GroupBy(redemptions, query) {
      GroupByKeys(redemptions, query, user);
    }
  }

  /** One cutover instant per member, the latest, over the non-void carryovers in scope. */
  method CutoverByUser(carryovers: seq<Carryover>, scope: Members) returns (cutoverByUser: map<UserId, nat>)
    ensures forall u :: u in cutoverByUser <==> Covers(scope, u) && CutoverOf(carryovers, u).Some?
    ensures forall u :: u in cutoverByUser ==> CutoverOf(carryovers, u) == Some(cutoverByUser[u])
  {
    cutoverByUser := map[];
    for n := 0 to |carryovers|
      invariant forall u :: u in cutoverByUser <==> Covers(scope, u) && CutoverOf(carryovers[..n], u).Some?
      invariant forall u :: u in cutoverByUser ==> CutoverOf(carryovers[..n], u) == Some(cutoverByUser[u])
    {
      var c := carryovers[n];
      assert carryovers[..n + 1][..n] == carryovers[..n];
      if Covers(scope, c.user) && c.status != CarryoverVoid {
        var known := Lookup(cutoverByUser, c.user);
        cutoverByUser := cutoverByUser[c.user := if known > c.executedAt then known else c.executedAt];
      }
    }
    assert carryovers[..|carryovers|] == carryovers;
  }

  method UsersByCutover(cutoverByUser: map<UserId, nat>) returns (usersByCutover: map<nat, set<UserId>>)
    ensures forall t, u :: t in usersByCutover && u in usersByCutover[t] ==> u in cutoverByUser && cutoverByUser[u] == t
    ensures forall u :: u in cutoverByUser ==> cutoverByUser[u] in usersByCutover && u in usersByCutover[cutoverByUser[u]]
  {
    usersByCutover := map[];
    var pending := cutoverByUser.Keys;
    while pending != {}
      invariant pending <= cutoverByUser.Keys
      invariant forall t, u :: t in usersByCutover && u in usersByCutover[t] ==> u in cutoverByUser && cutoverByUser[u] == t
      invariant forall u :: u in cutoverByUser && u !in pending ==>
        cutoverByUser[u] in usersByCutover && u in usersByCutover[cutoverByUser[u]]
      decreases |pending|
    {
      var u :| u in pending;
      var t := cutoverByUser[u];
      usersByCutover := usersByCutover[t := (if t in usersByCutover then usersByCutover[t] else {}) + {u}];
      pending := pending - {u};
    }
  }

  method GetPreCutoverReservations(s: Store, scope: Members, excluded: set<nat>) returns (preCutover: map<UserId, nat>)
    ensures forall u :: Lookup(preCutover, u) == if Covers(scope, u) then PreCutoverPoints(s, u, excluded) else 0
    ensures forall u :: u in preCutover ==> Covers(scope, u)
  {
    var cutoverByUser := CutoverByUser(s.carryovers, scope);
    var usersByCutover := UsersByCutover(cutoverByUser);
    preCutover := map[];
    var pending := usersByCutover.Keys;
    while pending != {}
      invariant pending <= usersByCutover.Keys
      invariant forall u ::
        Lookup(preCutover, u) == (if u in cutoverByUser && cutoverByUser[u] !in pending
                                  then Sum(s.redemptions, RaisedBy(cutoverByUser[u], excluded), u) else 0)
      invariant forall u :: u in preCutover ==> u in cutoverByUser && cutoverByUser[u] !in pending
      decreases |pending|
    {
      var t :| t in pending;
      var rows := GroupBy(s.redemptions, InCutover(usersByCutover[t], t, excluded));
      forall u ensures Lookup(rows, u) == if u in usersByCutover[t] then Sum(s.redemptions, RaisedBy(t, excluded), u) else 0
        ensures u in rows ==> u in usersByCutover[t]
      {
        InCutoverSum(s.redemptions, usersByCutover[t], t, excluded, u);
      }
      preCutover := preCutover + rows;
      pending := pending - {t};
    }
  }

  // ---------- balances, batched ----------

  function BalanceIn(balances: map<UserId, Balance>, user: UserId): Balance {
    if user in balances then balances[user] else EMPTY_BALANCE
  }

  /** Every member's figures at once equal that member's figures alone, for every scope and
      exclusion list, members without any row included. */
  method GetAuthoritativeBalances(s: Store, scope: Members, excluded: set<nat>) returns (balances: map<UserId, Balance>)
    ensures forall u :: BalanceIn(balances, u) == if Covers(scope, u) then BalanceFor(s, u, excluded) else EMPTY_BALANCE
    ensures forall u :: u in balances ==> Covers(scope, u)
  {
    if scope == Some([]) {
      return map[];
    }
    var preCutover := GetPreCutoverReservations(s, scope, excluded);
    var totals := Totals(GroupBy(s.ledger, Scoped(scope, Earned())),
                         GroupBy(s.assignments, Scoped(scope, HeldAssignments())),
                         GroupBy(s.redemptions, Scoped(scope, HeldRedemptions(excluded))),
                         GroupBy(s.carryovers, Scoped(scope, PendingLegacy())),
                         GroupBy(s.carryovers, Scoped(scope, ConfirmedLegacy())),
                         preCutover);
    balances := Combine(totals);
    forall u
      ensures BalanceIn(balances, u) == if Covers(scope, u) then BalanceFor(s, u, excluded) else EMPTY_BALANCE
      ensures u in balances ==> Covers(scope, u)
    {
      ScopedSum(s.ledger, scope, Earned(), u);
      ScopedSum(s.assignments, scope, HeldAssignments(), u);
      ScopedSum(s.redemptions, scope, HeldRedemptions(excluded), u);
      ScopedSum(s.carryovers, scope, PendingLegacy(), u);
      ScopedSum(s.carryovers, scope, ConfirmedLegacy(), u);
    }
  }

  /** The results of the six queries. */
  datatype Totals = Totals(earned: map<UserId, nat>, allotted: map<UserId, nat>, redeemed: map<UserId, nat>,
                           pending: map<UserId, nat>, confirmed: map<UserId, nat>, preCutover: map<UserId, nat>) {
    function Users(): set<UserId> {
      earned.Keys + allotted.Keys + redeemed.Keys + pending.Keys + confirmed.Keys + preCutover.Keys
    }

    function At(user: UserId): Balance {
      var held := Lookup(allotted, user) + Lookup(redeemed, user);
      Balance(Lookup(earned, user), held, Floored(Lookup(earned, user) - held), Lookup(pending, user),
              Lookup(confirmed, user), Lookup(preCutover, user))
    }
  }

  /** One balance for every member that any of the six queries returned. */
  method Combine(totals: Totals) returns (balances: map<UserId, Balance>)
    ensures balances.Keys == totals.Users()
    ensures forall u :: BalanceIn(balances, u) == totals.At(u)
  {
    balances := SetEach(totals, totals.Users());
    forall u | u !in totals.Users() ensures totals.At(u) == EMPTY_BALANCE {
    }
  }

  method SetEach(totals: Totals, everyUser: set<UserId>) returns (balances: map<UserId, Balance>)
    ensures balances.Keys == everyUser
    ensures forall u :: u in everyUser ==> balances[u] == totals.At(u)
  {
    var left := everyUser;
    balances := map[];
    while left != {}
      invariant left <= everyUser && balances.Keys == everyUser - left
      invariant forall u :: u in balances ==> balances[u] == totals.At(u)
      decreases |left|
    {
      var u :| u in left;
      balances := balances[u := totals.At(u)];
      left := left - {u};
    }
  }

  // ---------- what the figures promise ----------

  function RowTotal(n: nat, points: nat -> nat): nat { if n == 0 then 0 else RowTotal(n - 1, points) + points(n - 1) }

  lemma {:induction false} SumIsTotal<R>(rows: seq<R>, query: Query<R>, user: UserId, points: nat -> nat)
    requires forall i: nat :: i < |rows| ==> points(i) == PointsFor(query(i, rows[i]), user)
    ensures Sum(rows, query, user) == RowTotal(|rows|, points)
  {
    if rows != [] { SumIsTotal(rows[..|rows| - 1], query, user, points); }
  }

  /** What each row of a table adds to a figure, its condition written out. */
  type Column = nat -> nat

  function InLedger(ledger: seq<LedgerEntry>, user: UserId): Column {
    (i: nat) => if i < |ledger| && ledger[i].user == user then ledger[i].points else 0
  }

  function InAssignments(assignments: seq<Assignment>, user: UserId): Column {
    (i: nat) =>
      if i < |assignments| && assignments[i].user == user && assignments[i].status != AssignmentRejected
      then assignments[i].points else 0
  }

  function InRedemptions(redemptions: seq<Redemption>, user: UserId, excluded: set<nat>): Column {
    (i: nat) =>
      if i < |redemptions| && i !in excluded && redemptions[i].user == user && redemptions[i].status != RedemptionRejected
      then redemptions[i].points else 0
  }

  /** The member was carried over, not voidly, at or after the instant. */
  predicate CarriedSince(s: Store, user: UserId, instant: nat) {
    exists c :: c in s.carryovers && c.user == user && c.status != CarryoverVoid && c.executedAt >= instant
  }

  function InRedemptionsBefore(s: Store, user: UserId, excluded: set<nat>): Column {
    (i: nat) =>
      if i < |s.redemptions| && i !in excluded && s.redemptions[i].user == user && s.redemptions[i].status != RedemptionRejected
         && CarriedSince(s, user, s.redemptions[i].createdAt)
      then s.redemptions[i].points else 0
  }

  function InCarryovers(carryovers: seq<Carryover>, user: UserId, pending: bool): Column {
    (i: nat) =>
      if i < |carryovers| && carryovers[i].user == user then
        if pending && carryovers[i].status == CarryoverPending then carryovers[i].legacyPoints
        else if !pending && carryovers[i].status == CarryoverConfirmed then carryovers[i].creditedPoints
        else 0
      else 0
  }

  /** What a member's figures count: earnings are their ledger; against them is held every assignment and
      every redemption, those left out excepted, that is not rejected. */
  lemma BalanceCounts(s: Store, user: UserId, excluded: set<nat>)
    ensures Confirmed(s, user) == RowTotal(|s.ledger|, InLedger(s.ledger, user))
    ensures Reserved(s, user, excluded)
         == RowTotal(|s.assignments|, InAssignments(s.assignments, user)) + RowTotal(|s.redemptions|, InRedemptions(s.redemptions, user, excluded))
  {
    SumIsTotal(s.ledger, Earned(), user, InLedger(s.ledger, user));
    SumIsTotal(s.assignments, HeldAssignments(), user, InAssignments(s.assignments, user));
    SumIsTotal(s.redemptions, HeldRedemptions(excluded), user, InRedemptions(s.redemptions, user, excluded));
  }

  /** The legacy figures: what pending and what confirmed carryovers hold, and of the redemptions held those
      raised no later than some carryover of the member. */
  lemma LegacyCounts(s: Store, user: UserId, excluded: set<nat>)
    ensures var b := BalanceFor(s, user, excluded);
      && b.legacyPending == RowTotal(|s.carryovers|, InCarryovers(s.carryovers, user, true))
      && b.legacyConfirmed == RowTotal(|s.carryovers|, InCarryovers(s.carryovers, user, false))
      && b.preCutover == RowTotal(|s.redemptions|, InRedemptionsBefore(s, user, excluded))
  {
    SumIsTotal(s.carryovers, PendingLegacy(), user, InCarryovers(s.carryovers, user, true));
    SumIsTotal(s.carryovers, ConfirmedLegacy(), user, InCarryovers(s.carryovers, user, false));
    PreCutoverCounts(s, user, excluded);
  }

  lemma PreCutoverCounts(s: Store, user: UserId, excluded: set<nat>)
    ensures PreCutoverPoints(s, user, excluded) == RowTotal(|s.redemptions|, InRedemptionsBefore(s, user, excluded))
  {
    forall i: nat | i < |s.redemptions|
      ensures CarriedSince(s, user, s.redemptions[i].createdAt) <==>
        CutoverOf(s.carryovers, user).Some? && s.redemptions[i].createdAt <= CutoverOf(s.carryovers, user).value
    {
      CutoverIsLatest(s.carryovers, user);
    }
    match CutoverOf(s.carryovers, user)
    case None => NothingTotals(|s.redemptions|, InRedemptionsBefore(s, user, excluded));
    case Some(cutover) => SumIsTotal(s.redemptions, RaisedBy(cutover, excluded), user, InRedemptionsBefore(s, user, excluded));
  }

  lemma {:induction false} NothingTotals(n: nat, points: nat -> nat)
    requires forall i: nat :: i < n ==> points(i) == 0
    ensures RowTotal(n, points) == 0
  {
    if n > 0 { NothingTotals(n - 1, points); }
  }

  lemma PreCutoverWithinReserved(s: Store, user: UserId, excluded: set<nat>)
    ensures BalanceFor(s, user, excluded).preCutover <= Sum(s.redemptions, HeldRedemptions(excluded), user)
    ensures BalanceFor(s, user, excluded).preCutover <= BalanceFor(s, user, excluded).reserved
  {
    match CutoverOf(s.carryovers, user)
    case None =>
    case Some(cutover) => SumAtMost(s.redemptions, RaisedBy(cutover, excluded), HeldRedemptions(excluded), user);
  }

  /** A claim on a preserved balance that nothing has converted yet. */
  predicate IsUnreconciledLegacyClaim(s: Store, r: Redemption) {
    exists c :: c in s.carryovers && c.user == r.user && c.status == CarryoverPending && c.executedAt >= r.createdAt
  }

  /** Such a claim, while it reserves, accounts for exactly its points of the pre-cutover figure. */
  lemma UnreconciledClaimsAreCounted(s: Store, k: nat, excluded: set<nat>)
    requires k < |s.redemptions| && k !in excluded && RedemptionReserves(s.redemptions[k].status)
    requires IsUnreconciledLegacyClaim(s, s.redemptions[k])
    ensures var r := s.redemptions[k];
      PreCutoverPoints(s, r.user, excluded) == PreCutoverPoints(s, r.user, excluded + {k}) + r.points
  {
    var r := s.redemptions[k];
    CutoverIsLatest(s.carryovers, r.user);
    var cutover := CutoverOf(s.carryovers, r.user).value;
    SumWithout(s.redemptions, RaisedBy(cutover, excluded), RaisedBy(cutover, excluded + {k}), r.user, k);
  }

  /** Leaving a redemption out of its own valuation frees exactly what it reserved. */
  lemma ExcludingFreesItsPoints(s: Store, k: nat, excluded: set<nat>)
    requires k < |s.redemptions| && k !in excluded && RedemptionReserves(s.redemptions[k].status)
    ensures var r := s.redemptions[k];
      Reserved(s, r.user, excluded) == Reserved(s, r.user, excluded + {k}) + r.points
  {
    SumWithout(s.redemptions, HeldRedemptions(excluded), HeldRedemptions(excluded + {k}), s.redemptions[k].user, k);
  }

  // ---------- valuations ----------

  /** No whole number of hundredths is nearer, and of two equally near the one further from zero. */
  predicate IsNearest(hundredths: int, amount: real) {
    var exact := amount * 100.0;
    && exact - 0.5 <= hundredths as real <= exact + 0.5
    && (amount >= 0.0 ==> exact - 0.5 < hundredths as real)
    && (amount < 0.0 ==> hundredths as real < exact + 0.5)
  }

  /** Two decimal places, halves away from zero, in hundredths. */
  function RoundHalfUp(amount: real): (hundredths: int)
    ensures forall n: int :: IsNearest(n, amount) <==> n == hundredths
  {
    if amount >= 0.0 then (amount * 100.0 + 0.5).Floor else -(-amount * 100.0 + 0.5).Floor
  }

  function Worth(points: int, rate: real): (hundredths: int)
    ensures IsNearest(hundredths, points as real * rate)
  {
    RoundHalfUp(points as real * rate)
  }

  datatype Reason = NotPositive | ExceedsEligible(legacyPending: bool) | BelowMinimum(minimum: nat)

  datatype Valuation = Valuation(eligible: nat, requested: int, terms: Terms, payable: int, reason: Option<Reason>)

  datatype NoTerms = NoTerms

  function Appraise(balance: Balance, terms: Terms, requested: int): Valuation {
    var reason :=
      if requested <= 0 then Some(NotPositive)
      else if requested > balance.eligible then Some(ExceedsEligible(balance.legacyPending > 0))
      else if requested < terms.minimum then Some(BelowMinimum(terms.minimum))
      else None;
    Valuation(balance.eligible, requested, terms, if reason.None? then Worth(requested, terms.rate) else 0, reason)
  }

  function Excluding(redemption: Option<nat>): set<nat> { if redemption.Some? then {redemption.value} else {} }

  /** The meaning of `valuePayout`, on the naive balance: a request is accepted iff it is positive,
      reaches the minimum, and with the member's other reservations fits what they earned. Accepted it
      is payable at the rate in force, refused it is worth nothing. */
  function Valued(s: Store, user: UserId, requested: int, exclude: Option<nat>): (r: Result<Valuation, NoTerms>)
    ensures r.Ok? <==> s.terms.Some?
    ensures r.Ok? ==> (r.value.reason.None? <==>
      && requested > 0 && requested >= s.terms.value.minimum
      && Reserved(s, user, Excluding(exclude)) + requested <= Confirmed(s, user))
    ensures r.Ok? ==> r.value.payable == if r.value.reason.None? then Worth(requested, s.terms.value.rate) else 0
    ensures r.Ok? ==> r.value.requested == requested && r.value.terms == s.terms.value
    ensures r.Ok? ==> var free := Confirmed(s, user) - Reserved(s, user, Excluding(exclude));
      r.value.eligible == if free > 0 then free else 0
  {
    if s.terms.None? then Err(NoTerms) else Ok(Appraise(BalanceFor(s, user, Excluding(exclude)), s.terms.value, requested))
  }

  method ValuePayout(s: Store, user: UserId, requested: int, exclude: Option<nat>) returns (r: Result<Valuation, NoTerms>)
    ensures r == Valued(s, user, requested, exclude)
  {
    if s.terms.None? {
      return Err(NoTerms);
    }
    var balances := GetAuthoritativeBalances(s, Some([user]), Excluding(exclude));
    return Ok(Appraise(BalanceIn(balances, user), s.terms.value, requested));
  }

  datatype Beneficiary = Beneficiary(user: UserId, points: nat, amount: int)

  predicate Qualifies(s: Store, scope: Members, terms: Terms, b: Beneficiary) {
    && Covers(scope, b.user)
    && b.points == BalanceFor(s, b.user, {}).eligible >= terms.minimum
    && b.amount == Worth(b.points, terms.rate) > 0
  }

  method ValueEligibleBeneficiaries(s: Store, terms: Terms, scope: Members) returns (list: seq<Beneficiary>)
    ensures forall b :: b in list <==> Qualifies(s, scope, terms, b)
    ensures forall i, j :: 0 <= i < j < |list| ==> list[i].user != list[j].user
  {
    var balances := GetAuthoritativeBalances(s, scope, {});
    var left := balances.Keys;
    list := [];
    while left != {}
      invariant left <= balances.Keys
      invariant forall b :: b in list <==> b.user in balances && b.user !in left && Qualifies(s, scope, terms, b)
      invariant forall i, j :: 0 <= i < j < |list| ==> list[i].user != list[j].user
      decreases |left|
    {
      var u :| u in left;
      var points := balances[u].eligible;
      assert balances[u] == BalanceIn(balances, u) == BalanceFor(s, u, {});
      var item := Beneficiary(u, points, Worth(points, terms.rate));
      if item.points >= terms.minimum && item.amount > 0 {
        list := list + [item];
      }
      left := left - {u};
    }
    forall b | Qualifies(s, scope, terms, b) ensures b.user in balances {
      assert BalanceIn(balances, b.user) == BalanceFor(s, b.user, {});
    }
  }

  // ---------- converting a preserved balance ----------

  datatype Conversion = Conversion(preCutover: nat, converted: nat, credited: int)

  method ValueLegacyCarryover(s: Store, user: UserId, legacyPoints: nat, ratio: real) returns (c: Conversion)
    ensures c.converted == legacyPoints
    ensures c.preCutover == PreCutoverPoints(s, user, {})
    ensures c.credited as real <= legacyPoints as real * ratio < c.credited as real + 1.0
    ensures ratio <= 1.0 ==> c.credited <= legacyPoints
    ensures ratio >= 1.0 ==> c.credited >= legacyPoints
  {
    var preCutover := GetPreCutoverReservations(s, Some([user]), {});
    c := Conversion(Lookup(preCutover, user), legacyPoints, (legacyPoints as real * ratio).Floor);
  }
}
