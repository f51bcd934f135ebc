/** Governance of inferred Ward -> State Constituency edges.

    Importers and governance officers write the same ward rows in concurrent READ COMMITTED
    transactions. A statement sees committed rows and its own writes, waits for a row another
    transaction has locked, and every written row must satisfy the table's CHECK. */
module EdgeGovernance {
  import opened Prelude
  import opened Territory

  // ---------- three encodings of "operational", and the CHECK ----------

  /** The relation filter, which can only test the approval for null. */
  predicate FilterSelects(w: Ward) { !w.inferred || w.approvedFor.Some? }

  /** The row predicate. */
  predicate IsOperational(w: Ward) {
    if !w.inferred then true else w.approvedFor.Some? && w.approvedFor == w.edge
  }

  /** The copy written out inside the ancestry backfill. */
  predicate BackfillOperational(w: Ward) { !w.inferred || (w.approvedFor.Some? && w.approvedFor == w.edge) }

  /** Ward_edge_approval_matches_current_edge_check. */
  predicate CheckHolds(w: Ward) {
    w.approvedFor.None? || (w.inferred && w.edge.Some? && w.approvedFor == w.edge)
  }

  // ---------- rows, reviews and single statements ----------

  datatype Item = Item(wardId: Id, stateId: Id, lgaId: Id, edge: Option<Id>, basis: Option<string>)

  datatype Outcome = Approved | Rejected

  datatype Review = Review(wardId: Id, constituencyId: Id, outcome: Outcome, basis: Option<string>,
                           release: Option<Id>, decidedAt: int)

  function Lookup<V>(m: map<Id, V>, id: Id): Option<V> { if id in m then Some(m[id]) else None }

  /** Whether the importer's conditional clear touches this row. */
  predicate ClearMatches(seen: Option<Ward>, item: Item) {
    seen.Some? && seen.value.approvedFor.Some? && (seen.value.edge != item.edge || item.basis.None?)
  }

  function UpsertWard(seen: Option<Ward>, item: Item, release: Id): Ward {
    Ward(item.stateId, item.lgaId, item.edge, item.basis.Some?, item.basis,
         if seen.Some? then seen.value.approvedFor else None,
         if seen.Some? then seen.value.reviewedAt else None,
         Some(release))
  }

  /** Clear, then upsert, with nothing in between. */
  function ImportedWard(seen: Option<Ward>, item: Item, release: Id): Ward {
    UpsertWard(if ClearMatches(seen, item) then Some(seen.value.(approvedFor := None)) else seen, item, release)
  }

  /** The row an import leaves: the item's columns, and the approval only if it was for this very edge and
      the edge is still inferred. */
  predicate ImportLeaves(seen: Option<Ward>, item: Item, release: Id, w: Ward) {
    && w.stateId == item.stateId && w.lgaId == item.lgaId && w.edge == item.edge && w.release == Some(release)
    && w.basis == item.basis && (w.inferred <==> item.basis.Some?)
    && w.approvedFor == (if seen.Some? && seen.value.edge == item.edge && item.basis.Some? then seen.value.approvedFor else None)
    && w.reviewedAt == (if seen.Some? then seen.value.reviewedAt else None)
  }

  predicate OnSubject(r: Review, wardId: Id, w: Ward) {
    && r.wardId == wardId && Some(r.constituencyId) == w.edge
    && r.release == w.release && r.basis == w.basis
  }

  /** The matching review with the greatest decision time. */
  function CurrentDecision(reviews: seq<Review>, wardId: Id, w: Ward): Option<Review> {
    if reviews == [] then None
    else
      var n := |reviews| - 1;
      var earlier := CurrentDecision(reviews[..n], wardId, w);
      if OnSubject(reviews[n], wardId, w) && (earlier.None? || reviews[n].decidedAt > earlier.value.decidedAt)
      then Some(reviews[n]) else earlier
  }

  /** The matching review committed last, whatever its clock said. */
  function LastCommitted(reviews: seq<Review>, wardId: Id, w: Ward): Option<Review> {
    if reviews == [] then None
    else
      var n := |reviews| - 1;
      if OnSubject(reviews[n], wardId, w) then Some(reviews[n]) else LastCommitted(reviews[..n], wardId, w)
  }

  /** Decision time is forced past the previous decision on the same subject. */
  function DecisionTime(previous: Option<Review>, now: int): int {
    if previous.Some? && previous.value.decidedAt >= now then previous.value.decidedAt + 1 else now
  }

  function DecidedReview(reviews: seq<Review>, wardId: Id, row: Ward, constituencyId: Id, outcome: Outcome, now: int): Review {
    Review(wardId, constituencyId, outcome, row.basis, row.release,
           DecisionTime(CurrentDecision(reviews, wardId, row), now))
  }

  function DecidedWard(row: Ward, r: Review): Ward {
    row.(approvedFor := if r.outcome == Approved then Some(r.constituencyId) else None, reviewedAt := Some(r.decidedAt))
  }

  predicate MayDecide(row: Ward, constituencyId: Id) {
    row.stateId == OGUN && row.inferred && row.edge == Some(constituencyId)
  }

  // ---------- transactions ----------

  datatype Stage = Waiting | Locked(row: Ward) | Written(row: Ward, review: Review)

  datatype Txn =
    | Importing(release: Id, items: seq<Item>, next: nat, cleared: bool, since: nat, writes: map<Id, Ward>)
    | Deciding(wardId: Id, constituencyId: Id, outcome: Outcome, stage: Stage)

  /** What a committed transaction did to one ward. */
  datatype Kind = Approval | Rejection | Repointed | Sourced | Kept
  datatype Event = Event(wardId: Id, kind: Kind)

  /** Committed rows, running transactions, row locks, and the log of committed events. */
  datatype State = State(wards: map<Id, Ward>, reviews: seq<Review>, txns: map<nat, Txn>, locks: map<Id, nat>, log: seq<Event>)

  datatype Move =
    | BeginImport(release: Id, items: seq<Item>)
    | Clear
    | Upsert
    | CommitImport
    | BeginDecision(wardId: Id, constituencyId: Id, outcome: Outcome)
    | Lock
    | Decide(now: int)
    | CommitDecision
    | Rollback

  predicate DistinctWards(items: seq<Item>) {
    forall i, j :: 0 <= i < j < |items| ==> items[i].wardId != items[j].wardId
  }

  predicate Free(s: State, t: nat, id: Id) { id !in s.locks || s.locks[id] == t }

  function Visible(s: State, writes: map<Id, Ward>, id: Id): Option<Ward> {
    if id in writes then Some(writes[id]) else Lookup(s.wards, id)
  }

  function Unlocked(locks: map<Id, nat>, t: nat): map<Id, nat> { map id | id in locks && locks[id] != t :: locks[id] }

  /** The transaction ends with nothing of it committed. */
  function Ended(s: State, t: nat): State { s.(txns := s.txns - {t}, locks := Unlocked(s.locks, t)) }

  function EventOf(before: Option<Ward>, item: Item): Event {
    Event(item.wardId,
          if item.basis.None? then Sourced
          else if before.Some? && before.value.edge == item.edge then Kept
          else Repointed)
  }

  function ImportEvents(wards: map<Id, Ward>, items: seq<Item>): seq<Event> {
    seq(|items|, i requires 0 <= i < |items| => EventOf(Lookup(wards, items[i].wardId), items[i]))
  }

  /** One step of transaction `t`; `None` when it is not enabled or must wait for a lock. */
  function After(s: State, t: nat, move: Move): Option<State> {
    match move
    case BeginImport(release, items) =>
      if t in s.txns || !DistinctWards(items) then None
      else Some(s.(txns := s.txns[t := Importing(release, items, 0, false, 0, map[])]))
    case BeginDecision(wardId, constituencyId, outcome) =>
      if t in s.txns then None
      else Some(s.(txns := s.txns[t := Deciding(wardId, constituencyId, outcome, Waiting)]))
    case Clear => if t in s.txns then ClearStep(s, t, s.txns[t]) else None
    case Upsert => if t in s.txns then UpsertStep(s, t, s.txns[t]) else None
    case CommitImport => if t in s.txns then CommitImportStep(s, t, s.txns[t]) else None
    case Lock => if t in s.txns then LockStep(s, t, s.txns[t]) else None
    case Decide(now) => if t in s.txns then DecideStep(s, t, s.txns[t], now) else None
    case CommitDecision => if t in s.txns then CommitDecisionStep(s, t, s.txns[t]) else None
    case Rollback => if t in s.txns then Some(Ended(s, t)) else None
  }

  /** The conditional UPDATE locks the row only when it matches. */
  function ClearStep(s: State, t: nat, x: Txn): Option<State> {
    if !x.Importing? || x.cleared || x.next >= |x.items| then None
    else
      var item := x.items[x.next];
      var seen := Visible(s, x.writes, item.wardId);
      var y := x.(cleared := true, since := |s.log|);
      if !ClearMatches(seen, item) then Some(s.(txns := s.txns[t := y]))
      else if !Free(s, t, item.wardId) then None
      else Some(s.(txns := s.txns[t := y.(writes := y.writes[item.wardId := seen.value.(approvedFor := None)])],
                   locks := s.locks[item.wardId := t]))
  }

  predicate AtUpsert(x: Txn) { x.Importing? && x.cleared && x.next < |x.items| }

  function UpsertRow(s: State, x: Txn): Ward
    requires AtUpsert(x)
  {
    UpsertWard(Visible(s, x.writes, x.items[x.next].wardId), x.items[x.next], x.release)
  }

  /** The upsert always locks; a row that breaks the CHECK aborts the whole import. */
  function UpsertStep(s: State, t: nat, x: Txn): Option<State> {
    if !AtUpsert(x) || !Free(s, t, x.items[x.next].wardId) then None
    else if !CheckHolds(UpsertRow(s, x)) then Some(Ended(s, t))
    else
      var id := x.items[x.next].wardId;
      var y := x.(next := x.next + 1, cleared := false, writes := x.writes[id := UpsertRow(s, x)]);
      Some(s.(txns := s.txns[t := y], locks := s.locks[id := t]))
  }

  function CommitImportStep(s: State, t: nat, x: Txn): Option<State> {
    if !x.Importing? || x.cleared || x.next != |x.items| then None
    else Some(Ended(s, t).(wards := s.wards + x.writes, log := s.log + ImportEvents(s.wards, x.items)))
  }

  /** SELECT ... FOR UPDATE, and the refusals raised from inside the lock. */
  function LockStep(s: State, t: nat, x: Txn): Option<State> {
    if !x.Deciding? || x.stage != Waiting || !Free(s, t, x.wardId) then None
    else if x.wardId !in s.wards || !MayDecide(s.wards[x.wardId], x.constituencyId) then Some(Ended(s, t))
    else Some(s.(txns := s.txns[t := x.(stage := Locked(s.wards[x.wardId]))], locks := s.locks[x.wardId := t]))
  }

  function DecideStep(s: State, t: nat, x: Txn, now: int): Option<State> {
    if !x.Deciding? || !x.stage.Locked? then None
    else
      var r := DecidedReview(s.reviews, x.wardId, x.stage.row, x.constituencyId, x.outcome, now);
      if !CheckHolds(DecidedWard(x.stage.row, r)) then Some(Ended(s, t))
      else Some(s.(txns := s.txns[t := x.(stage := Written(x.stage.row, r))]))
  }

  function CommitDecisionStep(s: State, t: nat, x: Txn): Option<State> {
    if !x.Deciding? || !x.stage.Written? then None
    else
      Some(Ended(s, t).(
        wards := s.wards[x.wardId := DecidedWard(x.stage.row, x.stage.review)],
        reviews := s.reviews + [x.stage.review],
        log := s.log + [Event(x.wardId, if x.outcome == Approved then Approval else Rejection)]))
  }

  datatype Turn = Turn(t: nat, move: Move)

  function Run(s: State, turns: seq<Turn>): Option<State> {
    if turns == [] then Some(s)
    else
      var n := |turns| - 1;
      var before := Run(s, turns[..n]);
      if before.None? then None else After(before.value, turns[n].t, turns[n].move)
  }

  /** The governance column is added empty, so no ward starts out approved. */
  predicate Initial(s: State) {
    && (forall id :: id in s.wards ==> s.wards[id].approvedFor.None?)
    && s.reviews == [] && s.txns == map[] && s.locks == map[] && s.log == []
  }

  // ---------- the invariant ----------

  /** The kind of the last event on the ward that decides its approval; `Kept` decides nothing. */
  function LastVerdict(log: seq<Event>, id: Id): Option<Kind> {
    if log == [] then None
    else
      var n := |log| - 1;
      if log[n].wardId == id && log[n].kind != Kept then Some(log[n].kind) else LastVerdict(log[..n], id)
  }

  predicate ApprovedSince(log: seq<Event>, id: Id, since: nat) {
    exists k :: since <= k < |log| && log[k] == Event(id, Approval)
  }

  predicate RowsOk(s: State) {
    forall id :: id in s.wards ==>
      CheckHolds(s.wards[id]) && (s.wards[id].approvedFor.Some? <==> LastVerdict(s.log, id) == Some(Approval))
  }

  predicate SameSubject(a: Review, b: Review) {
    a.wardId == b.wardId && a.constituencyId == b.constituencyId && a.release == b.release && a.basis == b.basis
  }

  predicate DecisionsAdvance(reviews: seq<Review>) {
    forall i, j :: 0 <= i < j < |reviews| && SameSubject(reviews[i], reviews[j]) ==>
      reviews[i].decidedAt < reviews[j].decidedAt
  }

  predicate Holds(s: State, t: nat, id: Id) { id in s.locks && s.locks[id] == t }

  /** The import has got as far as this ward, at least to its clear. */
  predicate Reached(x: Txn, id: Id)
    requires x.Importing?
  {
    exists i :: 0 <= i < |x.items| && i < x.next + (if x.cleared then 1 else 0) && x.items[i].wardId == id
  }

  predicate ImporterOk(s: State, t: nat, x: Txn)
    requires x.Importing?
  {
    && DistinctWards(x.items) && x.next <= |x.items| && x.since <= |s.log|
    && (forall id :: id in x.writes ==> Holds(s, t, id))
    && (forall id {:trigger Reached(x, id)} :: id in x.writes ==> Reached(x, id))
    && (forall i :: 0 <= i < x.next ==>
      && x.items[i].wardId in x.writes
      && x.writes[x.items[i].wardId] == ImportedWard(Lookup(s.wards, x.items[i].wardId), x.items[i], x.release)
      && CheckHolds(x.writes[x.items[i].wardId]))
    && (AtUpsert(x) ==> UpsertReady(s, x, x.items[x.next]))
  }

  /** Between its clear and its upsert: either the clear took the row, or the row still needs
      none, or an officer approved it meanwhile. */
  predicate UpsertReady(s: State, x: Txn, item: Item)
    requires x.Importing?
  {
    var committed := Lookup(s.wards, item.wardId);
    if item.wardId in x.writes then
      ClearMatches(committed, item) && x.writes[item.wardId] == committed.value.(approvedFor := None)
    else !ClearMatches(committed, item) || ApprovedSince(s.log, item.wardId, x.since)
  }

  predicate DeciderOk(s: State, t: nat, x: Txn)
    requires x.Deciding?
  {
    x.stage == Waiting ||
    (&& Holds(s, t, x.wardId) && x.wardId in s.wards && x.stage.row == s.wards[x.wardId]
     && MayDecide(x.stage.row, x.constituencyId)
     && (x.stage.Written? ==>
       && CheckHolds(DecidedWard(x.stage.row, x.stage.review))
       && x.stage.review == Review(x.wardId, x.constituencyId, x.outcome, x.stage.row.basis, x.stage.row.release, x.stage.review.decidedAt)
       && forall k :: 0 <= k < |s.reviews| && SameSubject(s.reviews[k], x.stage.review) ==>
            s.reviews[k].decidedAt < x.stage.review.decidedAt))
  }

  predicate TxnOk(s: State, t: nat)
    requires t in s.txns
  {
    if s.txns[t].Importing? then ImporterOk(s, t, s.txns[t]) else DeciderOk(s, t, s.txns[t])
  }

  ghost predicate Inv(s: State) {
    && RowsOk(s) && DecisionsAdvance(s.reviews)
    && forall t :: t in s.txns ==> TxnOk(s, t)
  }

  // ---------- decisions ----------

  lemma {:induction false} CurrentDecisionIsGreatest(reviews: seq<Review>, id: Id, w: Ward)
    ensures var c := CurrentDecision(reviews, id, w);
      && (c.Some? ==> c.value in reviews && OnSubject(c.value, id, w))
      && forall k :: 0 <= k < |reviews| && OnSubject(reviews[k], id, w) ==>
           c.Some? && reviews[k].decidedAt <= c.value.decidedAt
  {
    if reviews != [] {
      CurrentDecisionIsGreatest(reviews[..|reviews| - 1], id, w);
    }
  }

  lemma {:induction false} CurrentIsLast(reviews: seq<Review>, id: Id, w: Ward)
    requires DecisionsAdvance(reviews)
    ensures CurrentDecision(reviews, id, w) == LastCommitted(reviews, id, w)
  {
    if reviews != [] {
      var n := |reviews| - 1;
      CurrentIsLast(reviews[..n], id, w);
      CurrentDecisionIsGreatest(reviews[..n], id, w);
    }
  }

  // ---------- the trace of one ward ----------

  lemma VerdictOfLast(log: seq<Event>, e: Event, id: Id)
    ensures LastVerdict(log + [e], id) ==
      if e.wardId == id && e.kind != Kept then Some(e.kind) else LastVerdict(log, id)
  {
    assert (log + [e])[..|log|] == log;
  }

  lemma {:induction false} VerdictUnmoved(log: seq<Event>, events: seq<Event>, id: Id)
    requires forall k :: 0 <= k < |events| ==> events[k].wardId != id
    ensures LastVerdict(log + events, id) == LastVerdict(log, id)
  {
    if events == [] {
      assert log + events == log;
    } else {
      var n := |events| - 1;
      VerdictUnmoved(log, events[..n], id);
      assert log + events == (log + events[..n]) + [events[n]];
      VerdictOfLast(log + events[..n], events[n], id);
    }
  }

  lemma VerdictMoved(log: seq<Event>, events: seq<Event>, k: nat, id: Id)
    requires k < |events| && forall j :: 0 <= j < |events| ==> (events[j].wardId == id <==> j == k)
    ensures LastVerdict(log + events, id) == if events[k].kind == Kept then LastVerdict(log, id) else Some(events[k].kind)
  {
    VerdictUnmoved(log, events[..k], id);
    VerdictOfLast(log + events[..k], events[k], id);
    VerdictUnmoved(log + events[..k] + [events[k]], events[k + 1..], id);
    assert log + events == log + events[..k] + [events[k]] + events[k + 1..];
  }

  lemma VerdictAfterImport(log: seq<Event>, wards: map<Id, Ward>, items: seq<Item>, id: Id)
    requires DistinctWards(items)
    ensures (forall i :: 0 <= i < |items| ==> items[i].wardId != id) ==>
      LastVerdict(log + ImportEvents(wards, items), id) == LastVerdict(log, id)
    ensures forall i :: 0 <= i < |items| && items[i].wardId == id ==>
      LastVerdict(log + ImportEvents(wards, items), id) ==
        if EventOf(Lookup(wards, id), items[i]).kind == Kept then LastVerdict(log, id)
        else Some(EventOf(Lookup(wards, id), items[i]).kind)
  {
    var events := ImportEvents(wards, items);
    if i :| 0 <= i < |items| && items[i].wardId == id {
      assert forall j :: 0 <= j < |events| ==> (events[j].wardId == id <==> j == i);
      VerdictMoved(log, events, i, id);
    } else {
      VerdictUnmoved(log, events, id);
    }
  }

  /** An import keeps an approval only when it keeps the very edge that was approved. */
  lemma ImportedWardFacts(before: Option<Ward>, item: Item, release: Id)
    requires before.Some? ==> CheckHolds(before.value)
    ensures var w := ImportedWard(before, item, release);
      && CheckHolds(w)
      && (w.approvedFor.Some? ==> before.Some? && before.value.approvedFor == w.approvedFor && EventOf(before, item).kind == Kept)
      && (EventOf(before, item).kind == Kept ==> w.approvedFor == before.value.approvedFor)
  {
  }

  // ---------- steps of other transactions ----------

  /** A step of `t` that commits nothing leaves every other transaction as it was. */
  lemma OthersKeep(s: State, s': State, t: nat, u: nat)
    requires u != t && u in s.txns && u in s'.txns && s'.txns[u] == s.txns[u]
    requires s'.wards == s.wards && s'.reviews == s.reviews && s'.log == s.log
    requires forall id :: Holds(s, u, id) ==> Holds(s', u, id)
    requires TxnOk(s, u)
    ensures TxnOk(s', u)
  {
    var x := s.txns[u];
    if x.Importing? && AtUpsert(x) {
      assert UpsertReady(s', x, x.items[x.next]);
    }
  }

  /** The rows `t` commits are rows `t` holds, so rows another transaction holds stay put. */
  ghost predicate CommitsOnlyHeld(s: State, s': State, t: nat) {
    && (forall id :: !Holds(s, t, id) ==> Lookup(s'.wards, id) == Lookup(s.wards, id))
    && |s.log| <= |s'.log| && s'.log[..|s.log|] == s.log
    && |s.reviews| <= |s'.reviews| && s'.reviews[..|s.reviews|] == s.reviews
    && (forall k :: |s.reviews| <= k < |s'.reviews| ==> Holds(s, t, s'.reviews[k].wardId))
    && s'.txns == s.txns - {t} && s'.locks == Unlocked(s.locks, t)
  }

  lemma ApprovalsPersist(log: seq<Event>, log': seq<Event>, id: Id, since: nat)
    requires |log| <= |log'| && log'[..|log|] == log
    requires ApprovedSince(log, id, since)
    ensures ApprovedSince(log', id, since)
  {
    var k :| since <= k < |log| && log[k] == Event(id, Approval);
    assert log'[k] == log'[..|log|][k];
  }

  /** A commit by `t` keeps another importer ready: on the row it is about to upsert, the
      commit is either harmless or an approval. */
  predicate ReadyAgain(s: State, s': State, item: Item, since: nat) {
    || (ClearMatches(Lookup(s'.wards, item.wardId), item) ==> ClearMatches(Lookup(s.wards, item.wardId), item))
    || ApprovedSince(s'.log, item.wardId, since)
  }

  lemma OtherImporterSurvivesCommit(s: State, s': State, t: nat, u: nat)
    requires u != t && u in s.txns && s.txns[u].Importing? && TxnOk(s, u)
    requires CommitsOnlyHeld(s, s', t)
    requires AtUpsert(s.txns[u]) ==> ReadyAgain(s, s', s.txns[u].items[s.txns[u].next], s.txns[u].since)
    ensures u in s'.txns && TxnOk(s', u)
  {
    var x := s.txns[u];
    assert s'.txns[u] == x;
    forall id | id in x.writes ensures Holds(s', u, id) && Lookup(s'.wards, id) == Lookup(s.wards, id) {
      assert Holds(s, u, id);
    }
    if AtUpsert(x) {
      var item := x.items[x.next];
      if item.wardId !in x.writes {
        if ApprovedSince(s.log, item.wardId, x.since) { ApprovalsPersist(s.log, s'.log, item.wardId, x.since); }
      }
      assert UpsertReady(s', x, item);
    }
  }

  lemma OtherDeciderSurvivesCommit(s: State, s': State, t: nat, u: nat)
    requires u != t && u in s.txns && s.txns[u].Deciding? && TxnOk(s, u)
    requires CommitsOnlyHeld(s, s', t)
    ensures u in s'.txns && TxnOk(s', u)
  {
    var x := s.txns[u];
    assert s'.txns[u] == x;
    if x.stage != Waiting {
      assert Lookup(s'.wards, x.wardId) == Lookup(s.wards, x.wardId);
      if x.stage.Written? {
        forall k | 0 <= k < |s'.reviews| && SameSubject(s'.reviews[k], x.stage.review)
          ensures s'.reviews[k].decidedAt < x.stage.review.decidedAt
        {
          if k < |s.reviews| { assert s'.reviews[k] == s'.reviews[..|s.reviews|][k]; }
        }
      }
    }
  }

  // ---------- each step keeps the invariant ----------

  lemma QuietStepKeeps(s: State, s': State, t: nat)
    requires Inv(s)
    requires s'.wards == s.wards && s'.reviews == s.reviews && s'.log == s.log
    requires s'.txns - {t} == s.txns - {t}
    requires forall u, id :: u != t && Holds(s, u, id) ==> Holds(s', u, id)
    requires t in s'.txns ==> TxnOk(s', t)
    ensures Inv(s')
  {
    forall u | u in s'.txns ensures TxnOk(s', u) {
      if u != t {
        assert u in s'.txns - {t};
        assert s'.txns[u] == (s'.txns - {t})[u] == (s.txns - {t})[u] == s.txns[u];
        OthersKeep(s, s', t, u);
      }
    }
  }

  lemma EndedKeeps(s: State, t: nat)
    requires Inv(s)
    ensures Inv(Ended(s, t))
  {
    QuietStepKeeps(s, Ended(s, t), t);
  }

  lemma ClearKeeps(s: State, t: nat)
    requires Inv(s) && t in s.txns && ClearStep(s, t, s.txns[t]).Some?
    ensures Inv(ClearStep(s, t, s.txns[t]).value)
  {
    var s' := ClearStep(s, t, s.txns[t]).value;
    ClearedImporterOk(s, t);
    QuietStepKeeps(s, s', t);
  }

  lemma ClearedImporterOk(s: State, t: nat)
    requires t in s.txns && TxnOk(s, t) && ClearStep(s, t, s.txns[t]).Some?
    ensures TxnOk(ClearStep(s, t, s.txns[t]).value, t)
  {
    var x := s.txns[t];
    var s' := ClearStep(s, t, x).value;
    var y := s'.txns[t];
    var item := x.items[x.next];
    assert !Reached(x, item.wardId);
    assert item.wardId !in x.writes;
    assert y.items == x.items && y.next == x.next;
    forall id | id in y.writes
      ensures Holds(s', t, id) && Reached(y, id)
    {
      if id == item.wardId {
        assert y.items[y.next].wardId == id;
      } else {
        assert Reached(x, id);
      }
    }
    assert UpsertReady(s', y, item);
  }

  /** A row that passes the CHECK at its upsert is the row a serial import would write. */
  lemma UpsertIsSerial(s: State, t: nat)
    requires RowsOk(s) && t in s.txns && TxnOk(s, t) && AtUpsert(s.txns[t])
    requires CheckHolds(UpsertRow(s, s.txns[t]))
    ensures var x := s.txns[t]; var item := x.items[x.next];
      UpsertRow(s, x) == ImportedWard(Lookup(s.wards, item.wardId), item, x.release)
  {
    var x := s.txns[t];
    assert UpsertReady(s, x, x.items[x.next]);
  }

  lemma UpsertedImporterOk(s: State, t: nat)
    requires RowsOk(s) && t in s.txns && TxnOk(s, t)
    requires UpsertStep(s, t, s.txns[t]).Some? && CheckHolds(UpsertRow(s, s.txns[t]))
    ensures TxnOk(UpsertStep(s, t, s.txns[t]).value, t)
  {
    UpsertedPrefix(s, t);
    UpsertedWrites(s, t);
  }

  lemma UpsertedPrefix(s: State, t: nat)
    requires RowsOk(s) && t in s.txns && TxnOk(s, t)
    requires UpsertStep(s, t, s.txns[t]).Some? && CheckHolds(UpsertRow(s, s.txns[t]))
    ensures var y := UpsertStep(s, t, s.txns[t]).value.txns[t];
      forall i :: 0 <= i < y.next ==>
        && y.items[i].wardId in y.writes
        && y.writes[y.items[i].wardId] == ImportedWard(Lookup(s.wards, y.items[i].wardId), y.items[i], y.release)
        && CheckHolds(y.writes[y.items[i].wardId])
  {
    var x := s.txns[t];
    UpsertIsSerial(s, t);
    assert forall i :: 0 <= i < x.next ==> x.items[i].wardId != x.items[x.next].wardId;
  }

  lemma UpsertedWrites(s: State, t: nat)
    requires t in s.txns && TxnOk(s, t) && UpsertStep(s, t, s.txns[t]).Some? && CheckHolds(UpsertRow(s, s.txns[t]))
    ensures var s' := UpsertStep(s, t, s.txns[t]).value;
      forall id :: id in s'.txns[t].writes ==> Holds(s', t, id) && Reached(s'.txns[t], id)
  {
    var x := s.txns[t];
    var s' := UpsertStep(s, t, x).value;
    forall id | id in s'.txns[t].writes ensures Holds(s', t, id) && Reached(s'.txns[t], id) {
      if id != x.items[x.next].wardId { assert Holds(s, t, id); }
      StillReached(x, s'.txns[t], id);
    }
  }

  lemma StillReached(x: Txn, y: Txn, id: Id)
    requires x.Importing? && y.Importing? && x.next < |x.items| && y.items == x.items && y.next == x.next + 1 && !y.cleared
    requires id == x.items[x.next].wardId || Reached(x, id)
    ensures Reached(y, id)
  {
    if id == x.items[x.next].wardId { assert y.items[x.next].wardId == id; }
  }

  lemma UpsertKeeps(s: State, t: nat)
    requires Inv(s) && t in s.txns && UpsertStep(s, t, s.txns[t]).Some?
    ensures Inv(UpsertStep(s, t, s.txns[t]).value)
  {
    if CheckHolds(UpsertRow(s, s.txns[t])) {
      UpsertedImporterOk(s, t);
      QuietStepKeeps(s, UpsertStep(s, t, s.txns[t]).value, t);
    } else {
      EndedKeeps(s, t);
    }
  }

  /** The rows of a finished import are exactly the serial import of its items. */
  lemma CommitImportIsSerial(s: State, t: nat)
    requires Inv(s) && t in s.txns && CommitImportStep(s, t, s.txns[t]).Some?
    ensures var x := s.txns[t]; var s' := CommitImportStep(s, t, x).value;
      && (forall i :: 0 <= i < |x.items| ==>
           Lookup(s'.wards, x.items[i].wardId)
             == Some(ImportedWard(Lookup(s.wards, x.items[i].wardId), x.items[i], x.release)))
      && (forall id :: (forall i :: 0 <= i < |x.items| ==> x.items[i].wardId != id) ==>
           Lookup(s'.wards, id) == Lookup(s.wards, id))
  {
    var x := s.txns[t];
    forall id | forall i :: 0 <= i < |x.items| ==> x.items[i].wardId != id ensures id !in x.writes {
      assert !Reached(x, id);
    }
  }

  lemma CommitImportKeepsRows(s: State, t: nat)
    requires Inv(s) && t in s.txns && CommitImportStep(s, t, s.txns[t]).Some?
    ensures RowsOk(CommitImportStep(s, t, s.txns[t]).value)
  {
    var x := s.txns[t];
    var s' := CommitImportStep(s, t, x).value;
    CommitImportIsSerial(s, t);
    forall id | id in s'.wards
      ensures CheckHolds(s'.wards[id]) && (s'.wards[id].approvedFor.Some? <==> LastVerdict(s'.log, id) == Some(Approval))
    {
      assert Lookup(s'.wards, id) == Some(s'.wards[id]);
      assert id in s.wards ==> Lookup(s.wards, id) == Some(s.wards[id]);
      RowAfterImport(s.log, s.wards, x.items, x.release, id, s'.wards[id]);
    }
  }

  /** One row of the table a finished import leaves, against the log it extends. */
  lemma RowAfterImport(log: seq<Event>, wards: map<Id, Ward>, items: seq<Item>, release: Id, id: Id, w: Ward)
    requires DistinctWards(items)
    requires id in wards ==> CheckHolds(wards[id])
    requires id in wards ==> (wards[id].approvedFor.Some? <==> LastVerdict(log, id) == Some(Approval))
    requires forall i :: 0 <= i < |items| && items[i].wardId == id ==> w == ImportedWard(Lookup(wards, id), items[i], release)
    requires (forall i :: 0 <= i < |items| ==> items[i].wardId != id) ==> id in wards && w == wards[id]
    ensures CheckHolds(w)
    ensures w.approvedFor.Some? <==> LastVerdict(log + ImportEvents(wards, items), id) == Some(Approval)
  {
    VerdictAfterImport(log, wards, items, id);
    if i :| 0 <= i < |items| && items[i].wardId == id {
      ImportedWardFacts(Lookup(wards, id), items[i], release);
    }
  }

  lemma CommitImportKeeps(s: State, t: nat)
    requires Inv(s) && t in s.txns && CommitImportStep(s, t, s.txns[t]).Some?
    ensures Inv(CommitImportStep(s, t, s.txns[t]).value)
  {
    var x := s.txns[t];
    var s' := CommitImportStep(s, t, x).value;
    CommitImportKeepsRows(s, t);
    CommitImportIsSerial(s, t);
    assert CommitsOnlyHeld(s, s', t);
    forall u | u in s'.txns ensures TxnOk(s', u) {
      if s.txns[u].Deciding? {
        OtherDeciderSurvivesCommit(s, s', t, u);
      } else {
        if AtUpsert(s.txns[u]) {
          var item := s.txns[u].items[s.txns[u].next];
          if i :| 0 <= i < |x.items| && x.items[i].wardId == item.wardId {
            ImportedWardFacts(Lookup(s.wards, item.wardId), x.items[i], x.release);
          }
          assert ReadyAgain(s, s', item, s.txns[u].since);
        }
        OtherImporterSurvivesCommit(s, s', t, u);
      }
    }
  }

  lemma LockKeeps(s: State, t: nat)
    requires Inv(s) && t in s.txns && LockStep(s, t, s.txns[t]).Some?
    ensures Inv(LockStep(s, t, s.txns[t]).value)
  {
    QuietStepKeeps(s, LockStep(s, t, s.txns[t]).value, t);
  }

  lemma DecideKeeps(s: State, t: nat, now: int)
    requires Inv(s) && t in s.txns && DecideStep(s, t, s.txns[t], now).Some?
    ensures Inv(DecideStep(s, t, s.txns[t], now).value)
  {
    var x := s.txns[t];
    CurrentDecisionIsGreatest(s.reviews, x.wardId, x.stage.row);
    var r := DecidedReview(s.reviews, x.wardId, x.stage.row, x.constituencyId, x.outcome, now);
    forall k | 0 <= k < |s.reviews| && SameSubject(s.reviews[k], r) ensures s.reviews[k].decidedAt < r.decidedAt {
      assert OnSubject(s.reviews[k], x.wardId, x.stage.row);
    }
    QuietStepKeeps(s, DecideStep(s, t, x, now).value, t);
  }

  lemma CommitDecisionKeeps(s: State, t: nat)
    requires Inv(s) && t in s.txns && CommitDecisionStep(s, t, s.txns[t]).Some?
    ensures Inv(CommitDecisionStep(s, t, s.txns[t]).value)
  {
    var x := s.txns[t];
    var s' := CommitDecisionStep(s, t, x).value;
    var n := |s.log|;
    assert s'.log[..n] == s.log && s'.log[n].wardId == x.wardId;
    assert CommitsOnlyHeld(s, s', t);
    forall u | u in s'.txns ensures TxnOk(s', u) {
      if s.txns[u].Deciding? {
        OtherDeciderSurvivesCommit(s, s', t, u);
      } else {
        if AtUpsert(s.txns[u]) {
          var item := s.txns[u].items[s.txns[u].next];
          if item.wardId == x.wardId && x.outcome == Approved {
            assert s'.log[n] == Event(item.wardId, Approval);
          }
          assert ReadyAgain(s, s', item, s.txns[u].since);
        }
        OtherImporterSurvivesCommit(s, s', t, u);
      }
    }
  }

  lemma StepKeeps(s: State, t: nat, move: Move)
    requires Inv(s) && After(s, t, move).Some?
    ensures Inv(After(s, t, move).value)
  {
    match move
    case BeginImport(release, items) => QuietStepKeeps(s, After(s, t, move).value, t);
    case BeginDecision(_, _, _) => QuietStepKeeps(s, After(s, t, move).value, t);
    case Clear => ClearKeeps(s, t);
    case Upsert => UpsertKeeps(s, t);
    case CommitImport => CommitImportKeeps(s, t);
    case Lock => LockKeeps(s, t);
    case Decide(now) => DecideKeeps(s, t, now);
    case CommitDecision => CommitDecisionKeeps(s, t);
    case Rollback => EndedKeeps(s, t);
  }

  lemma {:induction false} RunKeeps(s: State, turns: seq<Turn>)
    requires Initial(s) && Run(s, turns).Some?
    ensures Inv(Run(s, turns).value)
    decreases |turns|
  {
    if turns != [] {
      var n := |turns| - 1;
      RunKeeps(s, turns[..n]);
      StepKeeps(Run(s, turns[..n]).value, turns[n].t, turns[n].move);
    }
  }

  // ---------- main results, over every interleaving ----------

  /** In every reachable state the three encodings select the same wards. */
  lemma EncodingsAgree(s: State, turns: seq<Turn>)
    requires Initial(s) && Run(s, turns).Some?
    ensures forall id :: id in Run(s, turns).value.wards ==>
      var w := Run(s, turns).value.wards[id];
      CheckHolds(w) && (FilterSelects(w) <==> IsOperational(w)) && (IsOperational(w) <==> BackfillOperational(w))
  {
    RunKeeps(s, turns);
  }

  /** The CHECK aborts an import only if, since that ward's clear, an officer approved it. */
  lemma AbortNeedsAnApproval(s: State, turns: seq<Turn>, t: nat)
    requires Initial(s) && Run(s, turns).Some?
    requires var r := Run(s, turns).value;
      t in r.txns && AtUpsert(r.txns[t]) && !CheckHolds(UpsertRow(r, r.txns[t]))
    ensures var r := Run(s, turns).value; var x := r.txns[t];
      ApprovedSince(r.log, x.items[x.next].wardId, x.since)
  {
    RunKeeps(s, turns);
    var r := Run(s, turns).value;
    var x := r.txns[t];
    assert UpsertReady(r, x, x.items[x.next]);
  }

  /** A committed import did to every ward what a serial one would do to the rows it found. */
  lemma CommittedImportIsSerial(s: State, turns: seq<Turn>, t: nat)
    requires Initial(s) && Run(s, turns).Some?
    requires var r := Run(s, turns).value; t in r.txns && CommitImportStep(r, t, r.txns[t]).Some?
    ensures var r := Run(s, turns).value; var x := r.txns[t]; var r' := CommitImportStep(r, t, x).value;
      && (forall i :: 0 <= i < |x.items| ==>
           && x.items[i].wardId in r'.wards
           && r'.wards[x.items[i].wardId] == ImportedWard(Lookup(r.wards, x.items[i].wardId), x.items[i], x.release)
           && ImportLeaves(Lookup(r.wards, x.items[i].wardId), x.items[i], x.release, r'.wards[x.items[i].wardId]))
      && (forall id :: (forall i :: 0 <= i < |x.items| ==> x.items[i].wardId != id) ==>
           Lookup(r'.wards, id) == Lookup(r.wards, id))
      && r'.reviews == r.reviews
  {
    RunKeeps(s, turns);
    CommitImportIsSerial(Run(s, turns).value, t);
  }

  /** Later than every decision on the ward's edge as it stands, not before the clock, and no later than that needs. */
  predicate NextInstant(reviews: seq<Review>, wardId: Id, w: Ward, now: int, at: int) {
    && now <= at
    && (forall k :: 0 <= k < |reviews| && OnSubject(reviews[k], wardId, w) ==> reviews[k].decidedAt < at)
    && (at == now || exists k :: 0 <= k < |reviews| && OnSubject(reviews[k], wardId, w) && reviews[k].decidedAt == at - 1)
  }

  lemma DecisionTimeIsNext(reviews: seq<Review>, wardId: Id, w: Ward, now: int)
    ensures NextInstant(reviews, wardId, w, now, DecisionTime(CurrentDecision(reviews, wardId, w), now))
  {
    CurrentDecisionIsGreatest(reviews, wardId, w);
  }

  /** A committed decision was allowed on the row it found, appends one review of that row's edge, and
      changes that row's two governance columns and no other row. */
  lemma CommittedDecisionIsSerial(s: State, turns: seq<Turn>, t: nat)
    requires Initial(s) && Run(s, turns).Some?
    requires var r := Run(s, turns).value; t in r.txns && CommitDecisionStep(r, t, r.txns[t]).Some?
    ensures var r := Run(s, turns).value; var x := r.txns[t]; var r' := CommitDecisionStep(r, t, x).value;
      && x.wardId in r.wards
      && var row, at := r.wards[x.wardId], x.stage.review.decidedAt;
      && row.stateId == OGUN && row.inferred && row.edge == Some(x.constituencyId)
      && r'.reviews == r.reviews + [Review(x.wardId, x.constituencyId, x.outcome, row.basis, row.release, at)]
      && r'.wards == r.wards[x.wardId :=
           row.(approvedFor := if x.outcome == Approved then Some(x.constituencyId) else None, reviewedAt := Some(at))]
      && forall k :: 0 <= k < |r.reviews| && SameSubject(r.reviews[k], x.stage.review) ==> r.reviews[k].decidedAt < at
  {
    RunKeeps(s, turns);
    assert TxnOk(Run(s, turns).value, t);
  }

  /** An inferred edge is operational iff the last verdict on its ward was an approval. */
  lemma OperationalIffLastVerdictApproves(s: State, turns: seq<Turn>, id: Id)
    requires Initial(s) && Run(s, turns).Some?
    requires id in Run(s, turns).value.wards && Run(s, turns).value.wards[id].inferred
    ensures IsOperational(Run(s, turns).value.wards[id]) <==> LastVerdict(Run(s, turns).value.log, id) == Some(Approval)
  {
    RunKeeps(s, turns);
  }

  lemma {:induction false} VerdictIsLaterThan(log: seq<Event>, id: Id, k: nat)
    requires k < |log| && log[k].wardId == id && log[k].kind !in {Approval, Kept}
    requires forall j :: k < j < |log| ==> log[j] != Event(id, Approval)
    ensures LastVerdict(log, id) != Some(Approval)
    decreases |log|
  {
    var n := |log| - 1;
    if k < n { VerdictIsLaterThan(log[..n], id, k); }
  }

  /** Once a ward is rejected, re-pointed or sourced, only a new approval makes its inferred
      edge operational again: a ward moved away and back is not approved by the old decision. */
  lemma OldApprovalNeverReturns(s: State, turns: seq<Turn>, id: Id, k: nat)
    requires Initial(s) && Run(s, turns).Some?
    requires var r := Run(s, turns).value;
      && id in r.wards && r.wards[id].inferred
      && k < |r.log| && r.log[k].wardId == id && r.log[k].kind !in {Approval, Kept}
      && forall j :: k < j < |r.log| ==> r.log[j] != Event(id, Approval)
    ensures !IsOperational(Run(s, turns).value.wards[id])
  {
    RunKeeps(s, turns);
    VerdictIsLaterThan(Run(s, turns).value.log, id, k);
  }

  /** The decision stands for the ward's edge as it is now: same constituency, release and basis. */
  predicate Stands(r: Review, id: Id, w: Ward) {
    r.wardId == id && w.edge == Some(r.constituencyId) && w.release == r.release && w.basis == r.basis
  }

  predicate LastStanding(reviews: seq<Review>, id: Id, w: Ward, k: nat) {
    k < |reviews| && Stands(reviews[k], id, w) && forall j :: k < j < |reviews| ==> !Stands(reviews[j], id, w)
  }

  lemma {:induction false} LastCommittedStands(reviews: seq<Review>, id: Id, w: Ward)
    ensures LastCommitted(reviews, id, w).None? <==> forall k :: 0 <= k < |reviews| ==> !Stands(reviews[k], id, w)
    ensures LastCommitted(reviews, id, w).Some? ==>
      exists k: nat :: LastStanding(reviews, id, w, k) && LastCommitted(reviews, id, w) == Some(reviews[k])
  {
    if reviews != [] {
      var n: nat := |reviews| - 1;
      var before := reviews[..n];
      LastCommittedStands(before, id, w);
      if OnSubject(reviews[n], id, w) {
        assert LastStanding(reviews, id, w, n);
      } else if LastCommitted(before, id, w).Some? {
        var k: nat :| LastStanding(before, id, w, k) && LastCommitted(before, id, w) == Some(before[k]);
        assert LastStanding(reviews, id, w, k);
      }
    }
  }

  /** Whatever the clocks said, the current decision on a ward is the one committed last among those that
      stand for its edge, and there is none iff none stands. */
  lemma CurrentDecisionIsLastCommitted(s: State, turns: seq<Turn>, id: Id, w: Ward)
    requires Initial(s) && Run(s, turns).Some?
    ensures var reviews := Run(s, turns).value.reviews;
      && (CurrentDecision(reviews, id, w).None? <==> forall k :: 0 <= k < |reviews| ==> !Stands(reviews[k], id, w))
      && (CurrentDecision(reviews, id, w).Some? ==>
           exists k: nat :: LastStanding(reviews, id, w, k) && CurrentDecision(reviews, id, w) == Some(reviews[k]))
  {
    RunKeeps(s, turns);
    CurrentIsLast(Run(s, turns).value.reviews, id, w);
    LastCommittedStands(Run(s, turns).value.reviews, id, w);
  }

  // ---------- nothing but another transaction stops one ----------

  /** Only `t` is under way, and it is an import that has upserted its first `n` items. */
  predicate OnlyImporting(s: State, t: nat, release: Id, items: seq<Item>, n: nat) {
    && s.txns.Keys == {t} && (forall id :: id in s.locks ==> s.locks[id] == t)
    && var x := s.txns[t]; x.Importing? && x.release == release && x.items == items && x.next == n && !x.cleared
  }

  lemma RunOnce(s: State, turns: seq<Turn>, turn: Turn)
    requires Run(s, turns).Some?
    ensures Run(s, turns + [turn]) == After(Run(s, turns).value, turn.t, turn.move)
  {
    assert (turns + [turn])[..|turns|] == turns;
  }

  /** The same, between the clear and the upsert of item `n`. */
  predicate OnlyUpserting(s: State, t: nat, release: Id, items: seq<Item>, n: nat) {
    && s.txns.Keys == {t} && (forall id :: id in s.locks ==> s.locks[id] == t)
    && var x := s.txns[t];
    && AtUpsert(x) && x.release == release && x.items == items && x.next == n && x.since == |s.log|
  }

  lemma ClearAlone(s: State, t: nat, release: Id, items: seq<Item>, n: nat) returns (s': State)
    requires Inv(s) && n < |items| && OnlyImporting(s, t, release, items, n)
    ensures After(s, t, Clear) == Some(s')
    ensures Inv(s') && OnlyUpserting(s', t, release, items, n)
    ensures s'.wards == s.wards && s'.reviews == s.reviews && s'.log == s.log
  {
    assert After(s, t, Clear) == ClearStep(s, t, s.txns[t]);
    s' := After(s, t, Clear).value;
    ClearKeeps(s, t);
  }

  lemma UpsertAlone(s: State, t: nat, release: Id, items: seq<Item>, n: nat) returns (s': State)
    requires Inv(s) && n < |items| && OnlyUpserting(s, t, release, items, n)
    ensures After(s, t, Upsert) == Some(s')
    ensures Inv(s') && OnlyImporting(s', t, release, items, n + 1)
    ensures s'.wards == s.wards && s'.reviews == s.reviews && s'.log == s.log
  {
    var x, item := s.txns[t], items[n];
    assert TxnOk(s, t) && UpsertReady(s, x, item) && !ApprovedSince(s.log, item.wardId, x.since);
    assert UpsertRow(s, x) == ImportedWard(Lookup(s.wards, item.wardId), item, release);
    ImportedWardFacts(Lookup(s.wards, item.wardId), item, release);
    UpsertKeeps(s, t);
    s' := UpsertStep(s, t, x).value;
  }

  lemma {:induction false} ItemsAlone(s: State, t: nat, release: Id, items: seq<Item>, n: nat) returns (turns: seq<Turn>)
    requires Inv(s) && s.txns == map[] && s.locks == map[] && DistinctWards(items) && n <= |items|
    ensures Run(s, turns).Some?
    ensures var r := Run(s, turns).value;
      && Inv(r) && OnlyImporting(r, t, release, items, n)
      && r.wards == s.wards && r.reviews == s.reviews && r.log == s.log
  {
    if n == 0 {
      turns := [Turn(t, BeginImport(release, items))];
      assert turns == [] + turns && Run(s, []) == Some(s);
      RunOnce(s, [], turns[0]);
      StepKeeps(s, t, BeginImport(release, items));
    } else {
      var before := ItemsAlone(s, t, release, items, n - 1);
      var cleared := ClearAlone(Run(s, before).value, t, release, items, n - 1);
      var s' := UpsertAlone(cleared, t, release, items, n - 1);
      RunOnce(s, before, Turn(t, Clear));
      RunOnce(s, before + [Turn(t, Clear)], Turn(t, Upsert));
      turns := before + [Turn(t, Clear)] + [Turn(t, Upsert)];
    }
  }

  /** With nothing else under way an import, whatever it imports, reaches its commit. */
  lemma ImportAloneCommits(s: State, t: nat, release: Id, items: seq<Item>) returns (turns: seq<Turn>)
    requires Inv(s) && s.txns == map[] && s.locks == map[] && DistinctWards(items)
    ensures Run(s, turns).Some?
    ensures var r := Run(s, turns).value;
      && r.wards == s.wards && r.reviews == s.reviews
      && t in r.txns && r.txns[t].Importing? && r.txns[t].items == items && r.txns[t].release == release
      && CommitImportStep(r, t, r.txns[t]).Some?
  {
    turns := ItemsAlone(s, t, release, items, |items|);
  }

  /** And a decision that is allowed on its row reaches its commit, at the next instant. */
  lemma DecisionAloneCommits(s: State, t: nat, wardId: Id, constituencyId: Id, outcome: Outcome, now: int) returns (turns: seq<Turn>)
    requires Inv(s) && s.txns == map[] && s.locks == map[]
    requires wardId in s.wards && s.wards[wardId].stateId == OGUN && s.wards[wardId].inferred
    requires s.wards[wardId].edge == Some(constituencyId)
    ensures Run(s, turns).Some?
    ensures var r := Run(s, turns).value;
      && r.wards == s.wards && r.reviews == s.reviews
      && t in r.txns && r.txns[t].Deciding? && r.txns[t].outcome == outcome
      && r.txns[t].wardId == wardId && r.txns[t].constituencyId == constituencyId && r.txns[t].stage.Written?
      && NextInstant(s.reviews, wardId, s.wards[wardId], now, r.txns[t].stage.review.decidedAt)
      && CommitDecisionStep(r, t, r.txns[t]).Some?
  {
    var first, second, third := Turn(t, BeginDecision(wardId, constituencyId, outcome)), Turn(t, Lock), Turn(t, Decide(now));
    assert [] + [first] == [first] && Run(s, []) == Some(s);
    RunOnce(s, [], first);
    RunOnce(s, [first], second);
    RunOnce(s, [first] + [second], third);
    DecisionTimeIsNext(s.reviews, wardId, s.wards[wardId], now);
    turns := [first] + [second] + [third];
  }

  // ---------- the serial code ----------

  datatype ReviewState = PendingReview | ApprovedReview | RejectedReview

  function ReviewStateOf(w: Ward, decision: Option<Review>): ReviewState {
    if !w.inferred then ApprovedReview
    else if IsOperational(w) then ApprovedReview
    else if decision.Some? && decision.value.outcome == Rejected then RejectedReview
    else PendingReview
  }

  /** What the queue shows of a ward, in every reachable state: approved iff its edge is sourced or the last
      verdict approved it; else rejected iff the last committed decision that stands for the edge rejects it. */
  lemma ReviewStateFollowsTheLog(s: State, turns: seq<Turn>, id: Id)
    requires Initial(s) && Run(s, turns).Some? && id in Run(s, turns).value.wards
    ensures var r := Run(s, turns).value; var w := r.wards[id];
      var shown := ReviewStateOf(w, CurrentDecision(r.reviews, id, w));
      && (shown == ApprovedReview <==> !w.inferred || LastVerdict(r.log, id) == Some(Approval))
      && (shown == RejectedReview <==>
           && w.inferred && LastVerdict(r.log, id) != Some(Approval)
           && exists k: nat :: LastStanding(r.reviews, id, w, k) && r.reviews[k].outcome == Rejected)
  {
    RunKeeps(s, turns);
    var r := Run(s, turns).value;
    CurrentDecisionIsLastCommitted(s, turns, id, r.wards[id]);
    forall j: nat, k: nat | LastStanding(r.reviews, id, r.wards[id], j) && LastStanding(r.reviews, id, r.wards[id], k) ensures j == k {
    }
  }

  datatype GovernanceRefusal = WardNotFound | EdgeNotInferred | EdgeChangedReload

  /** The items whose wards were approved before and are not after. */
  function LostApproval(before: map<Id, Ward>, after: map<Id, Ward>, items: seq<Item>): set<nat> {
    set i: nat | i < |items| && items[i].wardId in before && before[items[i].wardId].approvedFor.Some?
      && items[i].wardId in after && after[items[i].wardId].approvedFor.None?
  }

  /** Of the first `n` items, those whose clear touches a row. */
  function Cleared(wards: map<Id, Ward>, items: seq<Item>, n: nat): set<nat>
    requires n <= |items|
  {
    set i: nat | i < n && ClearMatches(Lookup(wards, items[i].wardId), items[i])
  }

  lemma ClearedSnoc(wards: map<Id, Ward>, items: seq<Item>, n: nat)
    requires n < |items|
    ensures |Cleared(wards, items, n + 1)|
         == |Cleared(wards, items, n)| + (if ClearMatches(Lookup(wards, items[n].wardId), items[n]) then 1 else 0)
  {
    var before := Cleared(wards, items, n);
    if ClearMatches(Lookup(wards, items[n].wardId), items[n]) {
      assert Cleared(wards, items, n + 1) == before + {n};
    } else {
      assert Cleared(wards, items, n + 1) == before;
    }
  }

  lemma ClearsAreLosses(before: map<Id, Ward>, after: map<Id, Ward>, items: seq<Item>, release: Id)
    requires ImportedUpTo(before, after, items, |items|, release)
    ensures Cleared(before, items, |items|) == LostApproval(before, after, items)
  {
  }

  ghost predicate ImportedUpTo(before: map<Id, Ward>, wards: map<Id, Ward>, items: seq<Item>, n: nat, release: Id)
    requires n <= |items|
  {
    && (forall i :: 0 <= i < n ==>
         Lookup(wards, items[i].wardId) == Some(ImportedWard(Lookup(before, items[i].wardId), items[i], release)))
    && (forall id :: (forall i :: 0 <= i < n ==> items[i].wardId != id) ==> Lookup(wards, id) == Lookup(before, id))
  }

  lemma ImportOneMore(before: map<Id, Ward>, wards: map<Id, Ward>, items: seq<Item>, n: nat, release: Id)
    requires DistinctWards(items) && n < |items| && ImportedUpTo(before, wards, items, n, release)
    ensures Lookup(wards, items[n].wardId) == Lookup(before, items[n].wardId)
    ensures var imported := ImportedWard(Lookup(wards, items[n].wardId), items[n], release);
      ImportedUpTo(before, wards[items[n].wardId := imported], items, n + 1, release)
  {
    assert forall i :: 0 <= i < n ==> items[i].wardId != items[n].wardId;
    var imported := ImportedWard(Lookup(wards, items[n].wardId), items[n], release);
    var next := wards[items[n].wardId := imported];
    forall id | forall i :: 0 <= i < n + 1 ==> items[i].wardId != id ensures Lookup(next, id) == Lookup(before, id) {
      assert items[n].wardId != id;
    }
  }

  /** The two writers of the ward table, each as one uninterrupted transaction. */
  class WardTable {
    var wards: map<Id, Ward>
    var reviews: seq<Review>

    constructor (wards: map<Id, Ward>, reviews: seq<Review>)
      ensures this.wards == wards && this.reviews == reviews
    {
      this.wards, this.reviews := wards, reviews;
    }

    /** A conditional clear, then an upsert. */
    method ImportWard(release: Id, item: Item) returns (cleared: bool)
      modifies this`wards
      ensures cleared == ClearMatches(Lookup(old(wards), item.wardId), item)
      ensures wards == old(wards)[item.wardId := ImportedWard(Lookup(old(wards), item.wardId), item, release)]
      ensures ImportLeaves(Lookup(old(wards), item.wardId), item, release, wards[item.wardId])
      ensures cleared <==> item.wardId in old(wards) && old(wards)[item.wardId].approvedFor.Some? && wards[item.wardId].approvedFor.None?
    {
      cleared := ClearMatches(Lookup(wards, item.wardId), item);
      if cleared {
        wards := wards[item.wardId := wards[item.wardId].(approvedFor := None)];
      }
      wards := wards[item.wardId := UpsertWard(Lookup(wards, item.wardId), item, release)];
    }

    /** The ward loop of an identity import. */
    method ImportWards(release: Id, items: seq<Item>) returns (clearedEdgeApprovals: nat)
      requires DistinctWards(items)
      modifies this`wards
      ensures clearedEdgeApprovals == |LostApproval(old(wards), wards, items)|
      ensures forall i :: 0 <= i < |items| ==>
        && items[i].wardId in wards
        && wards[items[i].wardId] == ImportedWard(Lookup(old(wards), items[i].wardId), items[i], release)
        && ImportLeaves(Lookup(old(wards), items[i].wardId), items[i], release, wards[items[i].wardId])
      ensures forall id :: (forall i :: 0 <= i < |items| ==> items[i].wardId != id) ==>
        Lookup(wards, id) == Lookup(old(wards), id)
    {
      clearedEdgeApprovals := 0;
      for n := 0 to |items|
        invariant clearedEdgeApprovals == |Cleared(old(wards), items, n)|
        invariant ImportedUpTo(old(wards), wards, items, n, release)
      {
        ImportOneMore(old(wards), wards, items, n, release);
        ClearedSnoc(old(wards), items, n);
        var cleared := ImportWard(release, items[n]);
        if cleared {
          clearedEdgeApprovals := clearedEdgeApprovals + 1;
        }
      }
      ClearsAreLosses(old(wards), wards, items, release);
    }

    /** An officer's decision; a refusal changes nothing. */
    method DecideEdge(wardId: Id, constituencyId: Id, outcome: Outcome, now: int) returns (r: Result<Review, GovernanceRefusal>)
      modifies this
      ensures r.Ok? <==>
        && wardId in old(wards) && old(wards)[wardId].stateId == OGUN && old(wards)[wardId].inferred
        && old(wards)[wardId].edge == Some(constituencyId)
      ensures r == Err(WardNotFound) <==> wardId !in old(wards) || old(wards)[wardId].stateId != OGUN
      ensures r == Err(EdgeNotInferred) <==>
        wardId in old(wards) && old(wards)[wardId].stateId == OGUN && !old(wards)[wardId].inferred
      ensures r.Err? ==> wards == old(wards) && reviews == old(reviews)
      ensures r.Ok? ==>
        && var row := old(wards)[wardId];
        && r.value == Review(wardId, constituencyId, outcome, row.basis, row.release, r.value.decidedAt)
        && NextInstant(old(reviews), wardId, row, now, r.value.decidedAt)
        && wards == old(wards)[wardId :=
             row.(approvedFor := if outcome == Approved then Some(constituencyId) else None, reviewedAt := Some(r.value.decidedAt))]
        && reviews == old(reviews) + [r.value]
        && CheckHolds(wards[wardId])
        && (IsOperational(wards[wardId]) <==> outcome == Approved)
    {
      if wardId !in wards || wards[wardId].stateId != OGUN {
        return Err(WardNotFound);
      }
      var ward := wards[wardId];
      if !ward.inferred {
        return Err(EdgeNotInferred);
      }
      if ward.edge != Some(constituencyId) {
        return Err(EdgeChangedReload);
      }
      var previous := CurrentDecision(reviews, wardId, ward);
      DecisionTimeIsNext(reviews, wardId, ward, now);
      var decidedAt := if previous.Some? && previous.value.decidedAt >= now then previous.value.decidedAt + 1 else now;
      var created := Review(wardId, constituencyId, outcome, ward.basis, ward.release, decidedAt);
      reviews := reviews + [created];
      wards := wards[wardId := ward.(approvedFor := if outcome == Approved then Some(constituencyId) else None,
                                     reviewedAt := Some(decidedAt))];
      return Ok(created);
    }
  }
}
