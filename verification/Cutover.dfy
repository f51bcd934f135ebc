/** The legacy balance cutover: each member carried once, with exactly their legacy rows, and the
    rounding that conversion and payment may lose. */
module Cutover {
  import opened PayoutAuthority
  import PayoutSolvency

  datatype LegacyRow = LegacyRow(id: string, user: UserId, points: int)

  datatype Carried = Carried(user: UserId, points: int, reserved: nat, rowIds: seq<string>, batch: nat)

  datatype Batch = Batch(members: nat, points: int)

  // ---------- grouping the legacy ledger ----------

  function UsersOf(rows: seq<LegacyRow>): set<UserId> { set r | r in rows :: r.user }

  /** The points of the rows whose owner is one of `users`. */
  function PointsIn(rows: seq<LegacyRow>, users: set<UserId>): int {
    if rows == [] then 0
    else
      PointsIn(rows[..|rows| - 1], users) + (if rows[|rows| - 1].user in users then rows[|rows| - 1].points else 0)
  }

  function RowIds(rows: seq<LegacyRow>, user: UserId): seq<string> {
    if rows == [] then []
    else RowIds(rows[..|rows| - 1], user) + (if rows[|rows| - 1].user == user then [rows[|rows| - 1].id] else [])
  }

  datatype Snapshot = Snapshot(points: int, reserved: nat, rowIds: seq<string>)

  function SnapshotOf(rows: seq<LegacyRow>, redemptions: seq<Redemption>, user: UserId): Snapshot {
    Snapshot(PointsIn(rows, {user}), Sum(redemptions, HeldRedemptions({}), user), RowIds(rows, user))
  }

  /** Wherever it stands in the ledger a row counts once, for its owner alone: its points in the sum, its
      identifier in its place in the list. */
  lemma {:induction false} EachRowCountsOnce(a: seq<LegacyRow>, r: LegacyRow, b: seq<LegacyRow>, users: set<UserId>, user: UserId)
    ensures PointsIn([], users) == 0 && RowIds([], user) == []
    ensures PointsIn(a + [r] + b, users) == PointsIn(a, users) + (if r.user in users then r.points else 0) + PointsIn(b, users)
    ensures RowIds(a + [r] + b, user) == RowIds(a, user) + (if r.user == user then [r.id] else []) + RowIds(b, user)
    decreases |b|
  {
    if b == [] {
      assert a + [r] + b == a + [r] && (a + [r])[..|a|] == a;
    } else {
      var n := |b| - 1;
      EachRowCountsOnce(a, r, b[..n], users, user);
      assert (a + [r] + b)[..|a| + 1 + n] == a + [r] + b[..n];
    }
  }

  /** A snapshot is the member's own rows, all of them, and what their redemptions not rejected hold. */
  lemma SnapshotIsWhole(rows: seq<LegacyRow>, redemptions: seq<Redemption>, user: UserId)
    ensures SnapshotOf(rows, redemptions, user)
         == Snapshot(PointsIn(rows, {user}), RowTotal(|redemptions|, InRedemptions(redemptions, user, {})), RowIds(rows, user))
  {
    SumIsTotal(redemptions, HeldRedemptions({}), user, InRedemptions(redemptions, user, {}));
  }

  datatype Bucket = Bucket(points: int, ids: seq<string>)

  predicate Grouped(rows: seq<LegacyRow>, byUser: map<UserId, Bucket>) {
    && (forall r :: r in rows ==> r.user in byUser)
    && (forall u :: u in byUser ==> u in UsersOf(rows) && byUser[u] == Bucket(PointsIn(rows, {u}), RowIds(rows, u)))
  }

  lemma {:induction false} AbsentUser(rows: seq<LegacyRow>, user: UserId)
    requires user !in UsersOf(rows)
    ensures PointsIn(rows, {user}) == 0 && RowIds(rows, user) == []
  {
    if rows != [] {
      assert rows[|rows| - 1] in rows;
      AbsentUser(rows[..|rows| - 1], user);
    }
  }

  lemma OneMoreRow(rows: seq<LegacyRow>, r: LegacyRow, user: UserId)
    ensures PointsIn(rows + [r], {user}) == PointsIn(rows, {user}) + (if r.user == user then r.points else 0)
    ensures RowIds(rows + [r], user) == RowIds(rows, user) + (if r.user == user then [r.id] else [])
    ensures user in UsersOf(rows + [r]) <==> user in UsersOf(rows) || user == r.user
  {
    var more := rows + [r];
    assert more[..|rows|] == rows && more[|rows|] == r;
    assert r in more && forall x :: x in more <==> x in rows || x == r;
  }

  method GroupRow(rows: seq<LegacyRow>, r: LegacyRow, byUser: map<UserId, Bucket>) returns (next: map<UserId, Bucket>)
    requires Grouped(rows, byUser)
    ensures Grouped(rows + [r], next)
  {
    if r.user !in byUser { AbsentUser(rows, r.user); }
    var bucket := if r.user in byUser then byUser[r.user] else Bucket(0, []);
    next := byUser[r.user := Bucket(bucket.points + r.points, bucket.ids + [r.id])];
    forall u | u in next
      ensures u in UsersOf(rows + [r]) && next[u] == Bucket(PointsIn(rows + [r], {u}), RowIds(rows + [r], u))
    {
      OneMoreRow(rows, r, u);
    }
  }

  /** One entry for each member with a legacy row. */
  method BuildSnapshot(rows: seq<LegacyRow>, redemptions: seq<Redemption>) returns (snapshot: map<UserId, Snapshot>)
    ensures snapshot.Keys == UsersOf(rows)
    ensures forall u :: u in snapshot ==> snapshot[u] == SnapshotOf(rows, redemptions, u)
  {
    var byUser: map<UserId, Bucket> := map[];
    for n := 0 to |rows|
      invariant Grouped(rows[..n], byUser)
    {
      byUser := GroupRow(rows[..n], rows[n], byUser);
      assert rows[..n + 1] == rows[..n] + [rows[n]];
    }
    assert rows[..|rows|] == rows;
    var reservedByUser := GroupBy(redemptions, HeldRedemptions({}));
    snapshot := map u | u in byUser :: Snapshot(byUser[u].points, Lookup(reservedByUser, u), byUser[u].ids);
    forall u | u in snapshot ensures snapshot[u] == SnapshotOf(rows, redemptions, u) {
      GroupByIsSum(redemptions, HeldRedemptions({}), u);
    }
  }

  // ---------- one migration ----------

  function Carriers(carried: seq<Carried>): set<UserId> { set c | c in carried :: c.user }

  function PointsCarried(carried: seq<Carried>): int {
    if carried == [] then 0 else PointsCarried(carried[..|carried| - 1]) + carried[|carried| - 1].points
  }

  predicate OncePerMember(carried: seq<Carried>) {
    forall i, j | 0 <= i < j < |carried| :: carried[i].user != carried[j].user
  }

  /** What one run read, and the batch it writes. */
  datatype Input = Input(rows: seq<LegacyRow>, redemptions: seq<Redemption>, batch: nat)

  predicate Preserves(c: Carried, rows: seq<LegacyRow>, redemptions: seq<Redemption>, batch: nat) {
    c.batch == batch && Snapshot(c.points, c.reserved, c.rowIds) == SnapshotOf(rows, redemptions, c.user)
  }

  /** `added` carries exactly the members of the ledger not carried before, once each, whole. */
  predicate Migration(before: seq<Carried>, added: seq<Carried>, rows: seq<LegacyRow>, redemptions: seq<Redemption>, batch: nat) {
    && OncePerMember(added)
    && Carriers(added) == UsersOf(rows) - Carriers(before)
    && forall c :: c in added ==> Preserves(c, rows, redemptions, batch)
  }

  lemma CarriersSnoc(carried: seq<Carried>, c: Carried)
    ensures Carriers(carried + [c]) == Carriers(carried) + {c.user}
    ensures PointsCarried(carried + [c]) == PointsCarried(carried) + c.points
    ensures OncePerMember(carried) && c.user !in Carriers(carried) ==> OncePerMember(carried + [c])
  {
    var more := carried + [c];
    assert more[|carried|] == c && more[..|carried|] == carried;
    forall u | u in Carriers(carried) ensures u in Carriers(more) {
      var d :| d in carried && d.user == u;
      assert d in more;
    }
    forall i | 0 <= i < |carried| ensures carried[i].user in Carriers(carried) {
      assert carried[i] in carried;
    }
  }

  /** What one batch has stored. */
  function Stored(carried: seq<Carried>, batch: nat): seq<Carried> {
    if carried == [] then []
    else
      Stored(carried[..|carried| - 1], batch) + (if carried[|carried| - 1].batch == batch then [carried[|carried| - 1]] else [])
  }

  lemma OneMoreStored(carried: seq<Carried>, c: Carried, batch: nat)
    ensures var was, now := Stored(carried, batch), Stored(carried + [c], batch);
      if c.batch == batch then |now| == |was| + 1 && PointsCarried(now) == PointsCarried(was) + c.points else now == was
  {
    assert (carried + [c])[..|carried|] == carried;
    CarriersSnoc(Stored(carried, batch), c);
  }

  lemma {:induction false} StoredAppend(carried: seq<Carried>, added: seq<Carried>, batch: nat)
    ensures Stored(carried + added, batch) == Stored(carried, batch) + Stored(added, batch)
  {
    if added == [] {
      assert carried + added == carried;
    } else {
      var n := |added| - 1;
      assert (carried + added)[..|carried| + n] == carried + added[..n];
      StoredAppend(carried, added[..n], batch);
    }
  }

  lemma {:induction false} StoredIsAll(added: seq<Carried>, batch: nat)
    requires forall c :: c in added ==> c.batch == batch
    ensures Stored(added, batch) == added
  {
    if added != [] { StoredIsAll(added[..|added| - 1], batch); }
  }

  lemma {:induction false} StoredIsNone(added: seq<Carried>, batch: nat)
    requires forall c :: c in added ==> c.batch != batch
    ensures Stored(added, batch) == []
  {
    if added != [] { StoredIsNone(added[..|added| - 1], batch); }
  }

  /** A batch added under a number no row bears yet is stored whole, and no other batch is touched. */
  lemma BatchStored(carried: seq<Carried>, added: seq<Carried>, batch: nat, other: nat)
    requires forall c :: c in carried ==> c.batch != batch
    requires forall c :: c in added ==> c.batch == batch
    ensures Stored(carried + added, other) == if other == batch then added else Stored(carried, other)
  {
    StoredAppend(carried, added, other);
    if other == batch {
      StoredIsNone(carried, other);
      StoredIsAll(added, other);
    } else {
      StoredIsNone(added, other);
    }
  }

  lemma {:induction false} CarriersCount(added: seq<Carried>)
    requires OncePerMember(added)
    ensures |Carriers(added)| == |added|
  {
    if added == [] {
      assert Carriers(added) == {};
    } else {
      var n := |added| - 1;
      assert added == added[..n] + [added[n]];
      CarriersSnoc(added[..n], added[n]);
      CarriersCount(added[..n]);
    }
  }

  lemma {:induction false} OneMoreMember(rows: seq<LegacyRow>, users: set<UserId>, user: UserId)
    requires user !in users
    ensures PointsIn(rows, users + {user}) == PointsIn(rows, users) + PointsIn(rows, {user})
  {
    if rows != [] { OneMoreMember(rows[..|rows| - 1], users, user); }
  }

  lemma {:induction false} NobodysPoints(rows: seq<LegacyRow>)
    ensures PointsIn(rows, {}) == 0
  {
    if rows != [] { NobodysPoints(rows[..|rows| - 1]); }
  }

  lemma {:induction false} CarriedAddsUp(added: seq<Carried>, rows: seq<LegacyRow>, redemptions: seq<Redemption>, batch: nat)
    requires OncePerMember(added) && forall c :: c in added ==> Preserves(c, rows, redemptions, batch)
    ensures PointsCarried(added) == PointsIn(rows, Carriers(added))
  {
    if added == [] {
      NobodysPoints(rows);
      assert Carriers(added) == {};
    } else {
      var n := |added| - 1;
      var before, c := added[..n], added[n];
      assert added == before + [c];
      CarriedAddsUp(before, rows, redemptions, batch);
      CarriersSnoc(before, c);
      assert c in added && Preserves(c, rows, redemptions, batch);
      forall d | d in before ensures d.user != c.user {
        var i :| 0 <= i < n && added[i] == d;
      }
      OneMoreMember(rows, Carriers(before), c.user);
    }
  }

  /** What is read back of a new batch balances with what its members' legacy rows say. */
  lemma BatchBalances(carried: seq<Carried>, added: seq<Carried>, input: Input)
    requires forall c :: c in carried ==> c.batch != input.batch
    requires OncePerMember(added) && forall c :: c in added ==> Preserves(c, input.rows, input.redemptions, input.batch)
    ensures |Stored(carried + added, input.batch)| == |Carriers(added)|
    ensures PointsCarried(Stored(carried + added, input.batch)) == PointsIn(input.rows, Carriers(added))
  {
    BatchStored(carried, added, input.batch, input.batch);
    CarriersCount(added);
    CarriedAddsUp(added, input.rows, input.redemptions, input.batch);
  }

  class CutoverDesk {
    var carried: seq<Carried>
    var batches: seq<Batch>

    constructor ()
      ensures Valid() && carried == [] && batches == []
    {
      carried, batches := [], [];
    }

    /** Every row names a batch there is. */
    ghost predicate Valid()
      reads this
    {
      forall c :: c in carried ==> c.batch < |batches|
    }

    /** A dry run, or one with nobody left, writes nothing; what is read back always balances. */
    method Migrate(rows: seq<LegacyRow>, redemptions: seq<Redemption>, dryRun: bool) returns (balanced: bool)
      requires Valid()
      modifies this
      ensures Valid() && old(carried) <= carried
      ensures dryRun ==> carried == old(carried) && batches == old(batches)
      ensures !dryRun ==> Migration(old(carried), carried[|old(carried)|..], rows, redemptions, |old(batches)|)
      ensures batches == if carried == old(carried) then old(batches)
                         else old(batches) + [Batch(|carried| - |old(carried)|, PointsIn(rows, UsersOf(rows) - Carriers(old(carried))))]
      ensures balanced
    {
      var snapshot := BuildSnapshot(rows, redemptions);
      var already := set c | c in carried :: c.user;
      var pending := set u | u in snapshot && u !in already;
      if dryRun || pending == {} {
        assert pending == {} ==> UsersOf(rows) - Carriers(carried) == {};
        assert carried[|carried|..] == [];
        return true;
      }
      assert pending == UsersOf(rows) - Carriers(carried);
      balanced := WriteBatch(rows, redemptions, snapshot, pending);
    }

    /** The transaction of one run, and the totals read back after it. */
    method WriteBatch(rows: seq<LegacyRow>, redemptions: seq<Redemption>, snapshot: map<UserId, Snapshot>, pending: set<UserId>)
      returns (balanced: bool)
      requires Valid() && pending != {}
      requires pending <= snapshot.Keys && pending == UsersOf(rows) - Carriers(carried)
      requires forall u :: u in snapshot ==> snapshot[u] == SnapshotOf(rows, redemptions, u)
      modifies this
      ensures Valid() && old(carried) < carried
      ensures Migration(old(carried), carried[|old(carried)|..], rows, redemptions, |old(batches)|)
      ensures batches == old(batches) + [Batch(|carried| - |old(carried)|, PointsIn(rows, pending))]
      ensures balanced
    {
      var batch := |batches|;
      var total := SumSnapshots(rows, snapshot, pending);
      var added := CreateCarryovers(snapshot, pending, batch);
      CarriersCount(added);
      batches := batches + [Batch(|pending|, total)];
      carried := carried + added;
      assert carried[|old(carried)|..] == added;
      var count, points := AggregateBatch(batch);
      BatchBalances(old(carried), added, Input(rows, redemptions, batch));
      balanced := count == |pending| && points == total;
    }

    /** What the table holds of one batch, read back after the commit. */
    method AggregateBatch(batch: nat) returns (count: nat, points: int)
      ensures count == |Stored(carried, batch)| && points == PointsCarried(Stored(carried, batch))
    {
      count, points := 0, 0;
      for n := 0 to |carried|
        invariant count == |Stored(carried[..n], batch)| && points == PointsCarried(Stored(carried[..n], batch))
      {
        assert carried[..n + 1] == carried[..n] + [carried[n]];
        OneMoreStored(carried[..n], carried[n], batch);
        if carried[n].batch == batch {
          count, points := count + 1, points + carried[n].points;
        }
      }
      assert carried[..|carried|] == carried;
    }

    static method CreateCarryovers(snapshot: map<UserId, Snapshot>, pending: set<UserId>, batch: nat)
      returns (added: seq<Carried>)
      requires pending <= snapshot.Keys
      ensures OncePerMember(added) && Carriers(added) == pending
      ensures forall c :: c in added ==>
        c.user in snapshot && c.batch == batch && Snapshot(c.points, c.reserved, c.rowIds) == snapshot[c.user]
    {
      added := [];
      var left := pending;
      while left != {}
        invariant left <= pending && OncePerMember(added) && Carriers(added) == pending - left
        invariant forall c :: c in added ==>
          c.user in snapshot && c.batch == batch && Snapshot(c.points, c.reserved, c.rowIds) == snapshot[c.user]
        decreases |left|
      {
        var u :| u in left;
        var c := Carried(u, snapshot[u].points, snapshot[u].reserved, snapshot[u].rowIds, batch);
        CarriersSnoc(added, c);
        added := added + [c];
        left := left - {u};
      }
    }

    /** The total the run announces, summed over the members it is about to carry. */
    static method SumSnapshots(rows: seq<LegacyRow>, snapshot: map<UserId, Snapshot>, pending: set<UserId>) returns (total: int)
      requires pending <= snapshot.Keys
      requires forall u :: u in snapshot ==> snapshot[u].points == PointsIn(rows, {u})
      ensures total == PointsIn(rows, pending)
    {
      total := 0;
      var left := pending;
      NobodysPoints(rows);
      assert pending - left == {};
      while left != {}
        invariant left <= pending && total == PointsIn(rows, pending - left)
        decreases |left|
      {
        var u :| u in left;
        OneMoreMember(rows, pending - left, u);
        assert pending - (left - {u}) == pending - left + {u};
        total := total + snapshot[u].points;
        left := left - {u};
      }
      assert pending - left == pending;
    }
  }

  // ---------- any number of migrations ----------

  /** The table after each of a series of migrations. */
  predicate Migrations(tables: seq<seq<Carried>>, inputs: seq<Input>) {
    && |tables| == |inputs| + 1
    && forall i :: 0 <= i < |inputs| ==>
         && tables[i] <= tables[i + 1]
         && Migration(tables[i], tables[i + 1][|tables[i]|..], inputs[i].rows, inputs[i].redemptions, inputs[i].batch)
  }

  /** Every carried member matches the legacy rows of the run that carried them. */
  predicate Explained(carried: seq<Carried>, inputs: seq<Input>, before: seq<Carried>) {
    forall c :: c in carried && c !in before ==>
      exists i :: 0 <= i < |inputs| && Preserves(c, inputs[i].rows, inputs[i].redemptions, inputs[i].batch)
  }

  lemma OnceAfter(before: seq<Carried>, after: seq<Carried>, added: seq<Carried>)
    requires OncePerMember(before) && OncePerMember(added) && after == before + added && Carriers(added) !! Carriers(before)
    ensures OncePerMember(after)
  {
    forall i, j | 0 <= i < j < |after| ensures after[i].user != after[j].user {
      if i < |before| <= j {
        assert after[i] in before && after[j] == added[j - |before|] && added[j - |before|] in added;
        assert after[i].user in Carriers(before) && after[j].user in Carriers(added);
      } else if |before| <= i {
        assert after[i] == added[i - |before|] && after[j] == added[j - |before|];
      }
    }
  }

  /** However often it runs: each member is carried once, nothing carried is lost or altered,
      every member of the last ledger is carried, and each carried balance is that member's rows. */
  lemma {:induction false} CarriedOnce(tables: seq<seq<Carried>>, inputs: seq<Input>)
    requires Migrations(tables, inputs) && OncePerMember(tables[0])
    ensures var last := tables[|inputs|];
      && OncePerMember(last) && tables[0] <= last
      && Explained(last, inputs, tables[0])
      && (inputs != [] ==> UsersOf(inputs[|inputs| - 1].rows) <= Carriers(last))
  {
    if inputs != [] {
      var n := |inputs| - 1;
      CarriedOnce(tables[..n + 1], inputs[..n]);
      var before, after, input := tables[n], tables[n + 1], inputs[n];
      var added := after[|before|..];
      assert after == before + added && Migration(before, added, input.rows, input.redemptions, input.batch);
      OnceAfter(before, after, added);
      assert Carriers(after) == Carriers(before) + Carriers(added);
      forall c | c in after && c !in tables[0]
        ensures exists i :: 0 <= i < |inputs| && Preserves(c, inputs[i].rows, inputs[i].redemptions, inputs[i].batch)
      {
        if c in before {
          assert Explained(before, inputs[..n], tables[0]);
          var i :| 0 <= i < n && Preserves(c, inputs[..n][i].rows, inputs[..n][i].redemptions, inputs[..n][i].batch);
          assert inputs[..n][i] == inputs[i];
        } else {
          assert c in added && Preserves(c, inputs[n].rows, inputs[n].redemptions, inputs[n].batch);
        }
      }
    }
  }

  /** A migration moves exactly the points of the members it carries; the first one moves them all. */
  lemma MigrationConserves(before: seq<Carried>, added: seq<Carried>, input: Input)
    requires Migration(before, added, input.rows, input.redemptions, input.batch)
    ensures PointsCarried(added) == PointsIn(input.rows, UsersOf(input.rows) - Carriers(before))
    ensures before == [] ==> PointsCarried(added) == PointsIn(input.rows, UsersOf(input.rows))
    ensures UsersOf(input.rows) <= Carriers(before) ==> added == []
  {
    CarriedAddsUp(added, input.rows, input.redemptions, input.batch);
    if before == [] {
      assert Carriers(before) == {};
      assert UsersOf(input.rows) - Carriers(before) == UsersOf(input.rows);
    }
    assert added != [] ==> added[0].user in Carriers(added);
  }

  /** Carrying preserves a balance without making any of it spendable. */
  lemma CarryingCreditsNothing(s: Store, c: Carryover, user: UserId, excluded: set<nat>)
    requires c.status == CarryoverPending
    ensures var after := s.(carryovers := s.carryovers + [c]);
      var was, now := BalanceFor(s, user, excluded), BalanceFor(after, user, excluded);
      && now.confirmed == was.confirmed && now.reserved == was.reserved && now.eligible == was.eligible
      && now.legacyPending == was.legacyPending + (if c.user == user then c.legacyPoints else 0)
      && now.legacyConfirmed == was.legacyConfirmed
    ensures forall r :: r in s.redemptions && r.user == c.user && r.createdAt <= c.executedAt ==>
      IsUnreconciledLegacyClaim(s.(carryovers := s.carryovers + [c]), r)
  {
    PayoutSolvency.SumSnoc(s.carryovers, PendingLegacy(), user, c);
    PayoutSolvency.SumSnoc(s.carryovers, ConfirmedLegacy(), user, c);
    assert c in s.carryovers + [c];
  }

  // ---------- rounding ----------

  function Total(amounts: seq<nat>): nat {
    if amounts == [] then 0 else Total(amounts[..|amounts| - 1]) + amounts[|amounts| - 1]
  }

  function Credited(balance: nat, ratio: real): int { (balance as real * ratio).Floor }

  function CreditedTotal(balances: seq<nat>, ratio: real): int {
    if balances == [] then 0
    else CreditedTotal(balances[..|balances| - 1], ratio) + Credited(balances[|balances| - 1], ratio)
  }

  lemma Distribute(a: nat, b: nat, rate: real)
    ensures (a + b) as real * rate == a as real * rate + b as real * rate
  {
    assert (a + b) as real == a as real + b as real;
  }

  /** Converting balances one by one never credits more than the ratio of their sum, and falls
      short of it by less than one point a member. */
  lemma {:induction false} ConversionBound(balances: seq<nat>, ratio: real)
    ensures CreditedTotal(balances, ratio) as real <= Total(balances) as real * ratio
    ensures Total(balances) as real * ratio <= CreditedTotal(balances, ratio) as real + |balances| as real
    ensures balances != [] ==> Total(balances) as real * ratio < CreditedTotal(balances, ratio) as real + |balances| as real
  {
    if balances != [] {
      var n := |balances| - 1;
      ConversionBound(balances[..n], ratio);
      Distribute(Total(balances[..n]), balances[n], ratio);
    }
  }

  function WorthTotal(parts: seq<nat>, rate: real): int {
    if parts == [] then 0 else WorthTotal(parts[..|parts| - 1], rate) + Worth(parts[|parts| - 1], rate)
  }

  function Hundredths(points: nat, rate: real): real { points as real * rate * 100.0 }

  lemma RoundingError(points: nat, rate: real)
    ensures -0.5 <= Worth(points, rate) as real - Hundredths(points, rate) <= 0.5
  {
  }

  lemma HundredthsAdd(a: nat, b: nat, rate: real)
    ensures Hundredths(a + b, rate) == Hundredths(a, rate) + Hundredths(b, rate)
  {
    Distribute(a, b, rate);
  }

  lemma {:induction false} PartsError(parts: seq<nat>, rate: real)
    ensures -(|parts| as real) * 0.5 <= WorthTotal(parts, rate) as real - Hundredths(Total(parts), rate) <= |parts| as real * 0.5
  {
    if parts != [] {
      var n := |parts| - 1;
      PartsError(parts[..n], rate);
      HundredthsAdd(Total(parts[..n]), parts[n], rate);
      RoundingError(parts[n], rate);
      OneMorePart(n, WorthTotal(parts[..n], rate), Worth(parts[n], rate),
                  Hundredths(Total(parts[..n]), rate), Hundredths(parts[n], rate));
    }
  }

  lemma OneMorePart(k: nat, worths: int, worth: int, exacts: real, exact: real)
    requires -(k as real) * 0.5 <= worths as real - exacts <= k as real * 0.5
    requires -0.5 <= worth as real - exact <= 0.5
    ensures -((k + 1) as real) * 0.5 <= (worths + worth) as real - (exacts + exact) <= (k + 1) as real * 0.5
  {
  }

  /** Paying in k parts instead of at once moves the total by at most (k + 1) / 2 hundredths. */
  lemma SplittingBound(parts: seq<nat>, rate: real)
    ensures var moved := (WorthTotal(parts, rate) - Worth(Total(parts), rate)) as real;
      -((|parts| + 1) as real) * 0.5 <= moved <= (|parts| + 1) as real * 0.5
  {
    PartsError(parts, rate);
    RoundingError(Total(parts), rate);
  }
}
