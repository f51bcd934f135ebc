/** Cutover runs racing one another: each reads the legacy ledger and the carried members outside its
    transaction, and only the unique index on the carried member keeps them apart. */
module CutoverRaces {
  import opened PayoutAuthority
  import opened Cutover

  // ---------- the machine ----------

  /** A run reads the rows, then the reservations, then who is carried; `added` is what it will insert. */
  datatype Phase = Started
                 | HasRows(rows: seq<LegacyRow>)
                 | HasSnapshot(input: Input)
                 | Writing(input: Input, added: seq<Carried>, inserted: nat)
                 | Done(input: Input, added: seq<Carried>)
                 | Aborted

  datatype State = State(rows: seq<LegacyRow>, redemptions: seq<Redemption>, carried: seq<Carried>, runs: seq<Phase>)

  datatype Move = Change(rows: seq<LegacyRow>, redemptions: seq<Redemption>)
                | Start
                | ReadRows(k: nat)
                | ReadReserved(k: nat)
                | ReadCarried(k: nat, order: seq<UserId>)
                | Insert(k: nat)
                | Commit(k: nat)
                | Abort(k: nat)

  function EntryOf(input: Input, user: UserId): Carried {
    var s := SnapshotOf(input.rows, input.redemptions, user);
    Carried(user, s.points, s.reserved, s.rowIds, input.batch)
  }

  function Entries(input: Input, order: seq<UserId>): seq<Carried> {
    seq(|order|, i requires 0 <= i < |order| => EntryOf(input, order[i]))
  }

  /** The members still to carry, in whatever order they sort. */
  predicate Orders(order: seq<UserId>, users: set<UserId>) {
    && (forall i, j | 0 <= i < j < |order| :: order[i] != order[j])
    && (set u | u in order) == users
  }

  /** Another open transaction has inserted this member: the unique index makes the insert wait. */
  predicate Blocked(s: State, k: nat, user: UserId) {
    exists j :: 0 <= j < |s.runs| && j != k && user in Inserted(s.runs[j])
  }

  /** The members an open transaction holds in the unique index. */
  function Inserted(run: Phase): set<UserId> {
    if run.Writing? && run.inserted <= |run.added| then Carriers(run.added[..run.inserted]) else {}
  }

  function SetRun(s: State, k: nat, run: Phase): State
    requires k < |s.runs|
  {
    s.(runs := s.runs[k := run])
  }

  /** A run with nobody left to carry opens no transaction. */
  function Planned(s: State, k: nat, order: seq<UserId>): State
    requires k < |s.runs|
  {
    var run := s.runs[k];
    if !run.HasSnapshot? || !Orders(order, UsersOf(run.input.rows) - Carriers(s.carried)) then s
    else SetRun(s, k, if order == [] then Done(run.input, []) else Writing(run.input, Entries(run.input, order), 0))
  }

  function InsertNext(s: State, k: nat): State
    requires k < |s.runs|
  {
    var run := s.runs[k];
    if !run.Writing? || run.inserted >= |run.added| then s
    else
      var user := run.added[run.inserted].user;
      if user in Carriers(s.carried) then SetRun(s, k, Aborted)
      else if Blocked(s, k, user) then s
      else SetRun(s, k, run.(inserted := run.inserted + 1))
  }

  function CommitRun(s: State, k: nat): State
    requires k < |s.runs|
  {
    var run := s.runs[k];
    if !run.Writing? || run.inserted != |run.added| then s
    else SetRun(s.(carried := s.carried + run.added), k, Done(run.input, run.added))
  }

  function Step(s: State, move: Move): State {
    match move
    case Change(rows, redemptions) => s.(rows := rows, redemptions := redemptions)
    case Start => s.(runs := s.runs + [Started])
    case ReadRows(k) => if k < |s.runs| && s.runs[k] == Started then SetRun(s, k, HasRows(s.rows)) else s
    case ReadReserved(k) =>
      if k < |s.runs| && s.runs[k].HasRows? then SetRun(s, k, HasSnapshot(Input(s.runs[k].rows, s.redemptions, k))) else s
    case ReadCarried(k, order) => if k < |s.runs| then Planned(s, k, order) else s
    case Insert(k) => if k < |s.runs| then InsertNext(s, k) else s
    case Commit(k) => if k < |s.runs| then CommitRun(s, k) else s
    case Abort(k) => if k < |s.runs| && !s.runs[k].Done? then SetRun(s, k, Aborted) else s
  }

  function Run(s: State, moves: seq<Move>): State {
    if moves == [] then s else Step(Run(s, moves[..|moves| - 1]), moves[|moves| - 1])
  }

  // ---------- what every interleaving keeps ----------

  predicate WholeRows(added: seq<Carried>, input: Input) {
    forall c :: c in added ==> Preserves(c, input.rows, input.redemptions, input.batch)
  }

  predicate RunKept(carried: seq<Carried>, k: nat, run: Phase) {
    match run
    case HasSnapshot(input) => input.batch == k
    case Writing(input, added, inserted) =>
      && input.batch == k && inserted <= |added| && OncePerMember(added) && WholeRows(added, input)
      && UsersOf(input.rows) <= Carriers(carried) + Carriers(added)
      && Carriers(added) <= UsersOf(input.rows)
      && Carriers(added[..inserted]) !! Carriers(carried)
    case Done(input, added) =>
      && input.batch == k && OncePerMember(added) && WholeRows(added, input)
      && UsersOf(input.rows) <= Carriers(carried) && Stored(carried, k) == added
    case _ => true
  }

  predicate AllKept(s: State) { forall k :: 0 <= k < |s.runs| ==> RunKept(s.carried, k, s.runs[k]) }

  /** Every carried row was committed by the run it names. */
  predicate AllFromRuns(s: State) {
    forall c :: c in s.carried ==> c.batch < |s.runs| && s.runs[c.batch].Done?
  }

  predicate WritersApart(s: State) {
    forall i, j | 0 <= i < j < |s.runs| :: Inserted(s.runs[i]) !! Inserted(s.runs[j])
  }

  predicate Inv(s: State) { OncePerMember(s.carried) && AllFromRuns(s) && WritersApart(s) && AllKept(s) }

  lemma PrefixCarriers(added: seq<Carried>, n: nat)
    requires n < |added|
    ensures Carriers(added[..n + 1]) == Carriers(added[..n]) + {added[n].user}
  {
    assert added[..n + 1] == added[..n] + [added[n]];
    CarriersSnoc(added[..n], added[n]);
  }

  lemma EntriesAre(input: Input, order: seq<UserId>, users: set<UserId>)
    requires Orders(order, users)
    ensures OncePerMember(Entries(input, order)) && WholeRows(Entries(input, order), input)
    ensures Carriers(Entries(input, order)) == users
  {
    var added := Entries(input, order);
    forall u | u in users ensures u in Carriers(added) {
      var i :| 0 <= i < |order| && order[i] == u;
      assert added[i].user == u && added[i] in added;
    }
    forall c | c in added ensures c.user in users {
      var i :| 0 <= i < |added| && added[i] == c;
      assert order[i] in order;
    }
  }

  /** A step that changes one run, and that run alone, needs only that run's own conditions. */
  lemma SetRunKeeps(s: State, k: nat, run: Phase)
    requires Inv(s) && k < |s.runs| && !s.runs[k].Done? && RunKept(s.carried, k, run)
    requires Inserted(run) <= Inserted(s.runs[k]) || (forall u :: u in Inserted(run) ==> u in Inserted(s.runs[k]) || !Blocked(s, k, u))
    ensures Inv(SetRun(s, k, run))
  {
    var next := SetRun(s, k, run);
    forall i, j | 0 <= i < j < |next.runs| ensures Inserted(next.runs[i]) !! Inserted(next.runs[j]) {
      var other := if i == k then j else i;
      if i == k || j == k {
        assert Inserted(s.runs[other]) !! Inserted(s.runs[k]);
        assert forall u :: u in Inserted(s.runs[other]) ==> Blocked(s, k, u);
      }
    }
  }

  lemma PlannedKeeps(s: State, k: nat, order: seq<UserId>)
    requires Inv(s) && k < |s.runs|
    ensures Inv(Planned(s, k, order))
  {
    var run := s.runs[k];
    var left := if run.HasSnapshot? then UsersOf(run.input.rows) - Carriers(s.carried) else {};
    if run.HasSnapshot? && Orders(order, left) {
      EntriesAre(run.input, order, left);
      if order == [] {
        assert left == {};
        StoredIsNone(s.carried, k);
        SetRunKeeps(s, k, Done(run.input, []));
      } else {
        assert Entries(run.input, order)[..0] == [] && Carriers([]) == {};
        SetRunKeeps(s, k, Writing(run.input, Entries(run.input, order), 0));
      }
    }
  }

  lemma InsertKeeps(s: State, k: nat)
    requires Inv(s) && k < |s.runs|
    ensures Inv(InsertNext(s, k))
  {
    var run := s.runs[k];
    if run.Writing? && run.inserted < |run.added| {
      PrefixCarriers(run.added, run.inserted);
      var user := run.added[run.inserted].user;
      if user in Carriers(s.carried) {
        SetRunKeeps(s, k, Aborted);
      } else if !Blocked(s, k, user) {
        SetRunKeeps(s, k, run.(inserted := run.inserted + 1));
      }
    }
  }

  lemma CarriersAppend(carried: seq<Carried>, added: seq<Carried>)
    ensures Carriers(carried + added) == Carriers(carried) + Carriers(added)
  {
    forall u | u in Carriers(carried) ensures u in Carriers(carried + added) {
      var c :| c in carried && c.user == u;
      assert c in carried + added;
    }
    forall u | u in Carriers(added) ensures u in Carriers(carried + added) {
      var c :| c in added && c.user == u;
      assert c in carried + added;
    }
  }

  /** Another run does not notice the commit, except that more members are carried. */
  lemma OthersKept(s: State, k: nat, j: nat)
    requires Inv(s) && k < |s.runs| && j < |s.runs| && j != k
    requires s.runs[k].Writing? && s.runs[k].inserted == |s.runs[k].added|
    ensures RunKept(s.carried + s.runs[k].added, j, s.runs[j])
  {
    var run := s.runs[k];
    assert RunKept(s.carried, k, run) && RunKept(s.carried, j, s.runs[j]);
    CarriersAppend(s.carried, run.added);
    BatchStored(s.carried, run.added, k, j);
    assert run.added[..run.inserted] == run.added;
    assert Inserted(run) !! Inserted(s.runs[j]) by {
      assert j < k || k < j;
    }
  }

  lemma CommitKeeps(s: State, k: nat)
    requires Inv(s) && k < |s.runs|
    ensures Inv(CommitRun(s, k)) && s.carried <= CommitRun(s, k).carried
  {
    var run, next := s.runs[k], CommitRun(s, k);
    if run.Writing? && run.inserted == |run.added| {
      assert RunKept(s.carried, k, run) && run.added[..run.inserted] == run.added;
      OnceAfter(s.carried, next.carried, run.added);
      CarriersAppend(s.carried, run.added);
      BatchStored(s.carried, run.added, k, k);
      forall j | 0 <= j < |next.runs| ensures RunKept(next.carried, j, next.runs[j]) {
        if j != k { OthersKept(s, k, j); }
      }
      WritersStayApart(s, k, Done(run.input, run.added));
    }
  }

  lemma WritersStayApart(s: State, k: nat, run: Phase)
    requires WritersApart(s) && k < |s.runs| && Inserted(run) == {}
    ensures WritersApart(SetRun(s, k, run))
  {
  }

  lemma StepKeeps(s: State, move: Move)
    requires Inv(s)
    ensures Inv(Step(s, move)) && s.carried <= Step(s, move).carried
  {
    match move
    case Change(_, _) =>
    case Start =>
    case ReadRows(k) => if k < |s.runs| && s.runs[k] == Started { SetRunKeeps(s, k, HasRows(s.rows)); }
    case ReadReserved(k) =>
      if k < |s.runs| && s.runs[k].HasRows? { SetRunKeeps(s, k, HasSnapshot(Input(s.runs[k].rows, s.redemptions, k))); }
    case ReadCarried(k, order) => if k < |s.runs| { PlannedKeeps(s, k, order); }
    case Insert(k) => if k < |s.runs| { InsertKeeps(s, k); }
    case Commit(k) => if k < |s.runs| { CommitKeeps(s, k); }
    case Abort(k) => if k < |s.runs| && !s.runs[k].Done? { SetRunKeeps(s, k, Aborted); }
  }

  lemma {:induction false} RunsKeep(s: State, moves: seq<Move>)
    requires Inv(s)
    ensures Inv(Run(s, moves)) && s.carried <= Run(s, moves).carried
  {
    if moves != [] {
      RunsKeep(s, moves[..|moves| - 1]);
      StepKeeps(Run(s, moves[..|moves| - 1]), moves[|moves| - 1]);
    }
  }

  /** However runs race one another and the ledger: nothing carried is lost, each member is carried
      once, each carried row holds exactly what the run it names read of that member, and a run that
      finished has left nobody it read uncarried. */
  lemma RacesCarryOnce(s: State, moves: seq<Move>)
    requires Inv(s)
    ensures var done := Run(s, moves);
      && s.carried <= done.carried && OncePerMember(done.carried)
      && (forall c :: c in done.carried ==>
            c.batch < |done.runs| && done.runs[c.batch].Done?
            && Preserves(c, done.runs[c.batch].input.rows, done.runs[c.batch].input.redemptions, c.batch))
      && (forall k :: 0 <= k < |done.runs| && done.runs[k].Done? ==>
            UsersOf(done.runs[k].input.rows) <= Carriers(done.carried))
  {
    RunsKeep(s, moves);
    var done := Run(s, moves);
    forall c | c in done.carried
      ensures Preserves(c, done.runs[c.batch].input.rows, done.runs[c.batch].input.redemptions, c.batch)
    {
      assert RunKept(done.carried, c.batch, done.runs[c.batch]);
      StoredHolds(done.carried, c);
    }
    forall k | 0 <= k < |done.runs| && done.runs[k].Done? ensures UsersOf(done.runs[k].input.rows) <= Carriers(done.carried) {
      assert RunKept(done.carried, k, done.runs[k]);
    }
  }

  lemma {:induction false} StoredHolds(carried: seq<Carried>, c: Carried)
    requires c in carried
    ensures c in Stored(carried, c.batch)
  {
    if c != carried[|carried| - 1] { StoredHolds(carried[..|carried| - 1], c); }
  }

  /** The check after the commit never fires, whoever else has committed before it reads. */
  lemma ReadBackBalances(s: State, moves: seq<Move>, k: nat)
    requires Inv(s) && k < |Run(s, moves).runs| && Run(s, moves).runs[k].Done?
    ensures var done := Run(s, moves);
      var run := done.runs[k];
      && |Stored(done.carried, k)| == |Carriers(run.added)|
      && PointsCarried(Stored(done.carried, k)) == PointsIn(run.input.rows, Carriers(run.added))
  {
    RunsKeep(s, moves);
    var done := Run(s, moves);
    var run := done.runs[k];
    assert RunKept(done.carried, k, run);
    CarriersCount(run.added);
    CarriedAddsUp(run.added, run.input.rows, run.input.redemptions, k);
  }

  // ---------- a run left to itself ----------

  /** The run's own moves, one after the other. */
  function InsertAll(s: State, k: nat, n: nat): State {
    if n == 0 then s else Step(InsertAll(s, k, n - 1), Insert(k))
  }

  function Drive(s: State, k: nat): State
    requires k < |s.runs| && s.runs[k].Writing?
  {
    Step(InsertAll(s, k, |s.runs[k].added|), Commit(k))
  }

  predicate NoOtherWriter(s: State, k: nat) { forall j :: 0 <= j < |s.runs| && j != k ==> !s.runs[j].Writing? }

  lemma OneInsert(s: State, k: nat, run: Phase)
    requires k < |s.runs| && run.Writing? && run.inserted < |run.added| && NoOtherWriter(s, k)
    ensures InsertNext(SetRun(s, k, run), k) ==
      SetRun(s, k, if run.added[run.inserted].user in Carriers(s.carried) then Aborted else run.(inserted := run.inserted + 1))
  {
    var before := SetRun(s, k, run);
    assert forall j :: 0 <= j < |before.runs| && j != k ==> before.runs[j] == s.runs[j];
    assert !Blocked(before, k, run.added[run.inserted].user);
    assert forall other: Phase {:trigger before.runs[k := other]} :: before.runs[k := other] == s.runs[k := other];
  }

  /** The run after n inserts: still writing, or stopped by a member carried meanwhile. */
  function After(run: Phase, carried: seq<Carried>, n: nat): Phase
    requires run.Writing? && n <= |run.added|
  {
    if Carriers(run.added[..n]) !! Carriers(carried) then run.(inserted := n) else Aborted
  }

  lemma OneMoreInsert(s: State, k: nat, run: Phase, n: nat)
    requires k < |s.runs| && run.Writing? && n < |run.added| && NoOtherWriter(s, k)
    ensures Step(SetRun(s, k, After(run, s.carried, n)), Insert(k)) == SetRun(s, k, After(run, s.carried, n + 1))
  {
    PrefixCarriers(run.added, n);
    if After(run, s.carried, n).Writing? { OneInsert(s, k, run.(inserted := n)); }
  }

  lemma {:induction false} InsertAllIs(s: State, k: nat, n: nat)
    requires k < |s.runs| && s.runs[k].Writing? && s.runs[k].inserted == 0 && n <= |s.runs[k].added| && NoOtherWriter(s, k)
    ensures InsertAll(s, k, n) == SetRun(s, k, After(s.runs[k], s.carried, n))
  {
    if n == 0 {
      assert s.runs[k].added[..0] == [] && Carriers([]) == {};
    } else {
      InsertAllIs(s, k, n - 1);
      OneMoreInsert(s, k, s.runs[k], n - 1);
    }
  }

  lemma DisjointPlanMigrates(carried: seq<Carried>, k: nat, run: Phase)
    requires RunKept(carried, k, run) && run.Writing? && Carriers(run.added) !! Carriers(carried)
    ensures Migration(carried, run.added, run.input.rows, run.input.redemptions, k)
  {
    assert Carriers(run.added) == UsersOf(run.input.rows) - Carriers(carried);
  }

  lemma CommitFilled(s: State, k: nat, run: Phase)
    requires k < |s.runs| && run.Writing? && run.inserted == |run.added|
    ensures Step(SetRun(s, k, run), Commit(k)) ==
      SetRun(s.(carried := s.carried + run.added), k, Done(run.input, run.added))
  {
    assert SetRun(s, k, run).runs[k := Done(run.input, run.added)] == s.runs[k := Done(run.input, run.added)];
  }

  lemma DriveIs(s: State, k: nat)
    requires k < |s.runs| && s.runs[k].Writing? && s.runs[k].inserted == 0 && NoOtherWriter(s, k)
    ensures var run := s.runs[k];
      Drive(s, k) == if Carriers(run.added) !! Carriers(s.carried)
                     then SetRun(s.(carried := s.carried + run.added), k, Done(run.input, run.added))
                     else SetRun(s, k, Aborted)
  {
    var run := s.runs[k];
    var n := |run.added|;
    InsertAllIs(s, k, n);
    assert run.added[..n] == run.added;
    CommitFilled(s, k, run.(inserted := n));
  }

  /** Left to itself a planned run commits iff none of its members has been carried since it read the
      table, and then it is the serial migration of what it read; otherwise it carries nobody. */
  lemma CommitsIffNobodyCarriedSince(s: State, k: nat)
    requires Inv(s) && k < |s.runs| && s.runs[k].Writing? && s.runs[k].inserted == 0 && NoOtherWriter(s, k)
    ensures var run := s.runs[k];
      if Carriers(run.added) !! Carriers(s.carried)
      then Drive(s, k) == SetRun(s.(carried := s.carried + run.added), k, Done(run.input, run.added))
           && Migration(s.carried, run.added, run.input.rows, run.input.redemptions, k)
      else Drive(s, k) == SetRun(s, k, Aborted)
  {
    DriveIs(s, k);
    assert RunKept(s.carried, k, s.runs[k]);
    if Carriers(s.runs[k].added) !! Carriers(s.carried) { DisjointPlanMigrates(s.carried, k, s.runs[k]); }
  }
}
