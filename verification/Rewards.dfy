/** Reward events and the ledger they credit: referral rewards, milestone bonuses and
    participation, re-run any number of times while the rules change in between. */
module Rewards {
  import opened Prelude
  import opened Territory

  // ---------- rules ----------

  datatype Qualifying = VerificationApproved | MilestoneReached | ParticipationApproved

  /** A rule version with the columns of the rule it belongs to. */
  datatype Version = Version(id: Id, points: int, threshold: Option<nat>, effectiveFrom: int, version: int,
                             event: Qualifying, active: bool, ruleFrom: int, until: Option<int>,
                             role: Role, level: Option<Level>)

  datatype Account = Account(role: Role, level: Option<Level>)

  predicate InForce(v: Version, event: Qualifying, now: int, account: Account) {
    && v.effectiveFrom <= now && v.event == event && v.active && v.ruleFrom <= now && v.role == account.role
    && (v.until.None? || v.until.value > now)
    && (v.level.None? || v.level == account.level)
  }

  /** `effectiveFrom` descending, then `version` descending. */
  predicate Newer(a: Version, b: Version) {
    a.effectiveFrom > b.effectiveFrom || (a.effectiveFrom == b.effectiveFrom && a.version > b.version)
  }

  /** The first version in force under that order. */
  function DirectRule(rules: seq<Version>, now: int, account: Account): (best: Option<Version>)
    ensures best.Some? ==> best.value in rules && InForce(best.value, VerificationApproved, now, account)
    ensures forall v :: v in rules && InForce(v, VerificationApproved, now, account) ==> best.Some? && !Newer(v, best.value)
  {
    if rules == [] then None
    else
      var best, v := DirectRule(rules[..|rules| - 1], now, account), rules[|rules| - 1];
      assert rules == rules[..|rules| - 1] + [v];
      if InForce(v, VerificationApproved, now, account) && (best.None? || Newer(v, best.value)) then Some(v) else best
  }

  predicate Reached(v: Version, now: int, account: Account, count: nat) {
    InForce(v, MilestoneReached, now, account) && v.threshold.Some? && v.threshold.value <= count
  }

  /** Threshold ascending, then newest first. */
  predicate Precedes(a: Version, b: Version)
    requires a.threshold.Some? && b.threshold.Some?
  {
    a.threshold.value < b.threshold.value || (a.threshold == b.threshold && Newer(a, b))
  }

  function Insert(v: Version, rows: seq<Version>): seq<Version>
    requires v.threshold.Some? && forall r :: r in rows ==> r.threshold.Some?
  {
    if rows == [] || Precedes(v, rows[0]) then [v] + rows else [rows[0]] + Insert(v, rows[1..])
  }

  predicate Ordered(rows: seq<Version>) {
    && (forall r :: r in rows ==> r.threshold.Some?)
    && (forall i, j | 0 <= i < j < |rows| :: !Precedes(rows[j], rows[i]))
  }

  lemma {:induction false} InsertOrdered(v: Version, rows: seq<Version>)
    requires v.threshold.Some? && Ordered(rows)
    ensures Ordered(Insert(v, rows))
    ensures forall x :: x in Insert(v, rows) <==> x == v || x in rows
  {
    if rows != [] && !Precedes(v, rows[0]) {
      InsertOrdered(v, rows[1..]);
      var rest := Insert(v, rows[1..]);
      var all := [rows[0]] + rest;
      assert rows == [rows[0]] + rows[1..];
      forall i, j | 0 <= i < j < |all| ensures !Precedes(all[j], all[i]) {
        if i == 0 {
          assert all[j] in rest;
        } else {
          assert all[i] == rest[i - 1] && all[j] == rest[j - 1];
        }
      }
    } else if rows != [] {
      var all := [v] + rows;
      forall i, j | 0 <= i < j < |all| ensures !Precedes(all[j], all[i]) {
        if i == 0 {
          assert j == 1 || !Precedes(rows[j - 1], rows[0]);
        } else {
          assert all[i] == rows[i - 1] && all[j] == rows[j - 1];
        }
      }
    }
  }

  /** The milestone query: every version reached, in order. */
  function MilestoneRows(rules: seq<Version>, now: int, account: Account, count: nat): (rows: seq<Version>)
    ensures Ordered(rows)
    ensures forall v :: v in rows <==> v in rules && Reached(v, now, account, count)
  {
    if rules == [] then []
    else
      var rest, v := MilestoneRows(rules[1..], now, account, count), rules[0];
      assert rules == [v] + rules[1..];
      if Reached(v, now, account, count) then InsertOrdered(v, rest); Insert(v, rest) else rest
  }

  // ---------- the book ----------

  datatype ReferralStatus = Registered | PendingVerification | Qualified | Rejected | Flagged | RewardProcessed

  datatype Referral = Referral(id: Id, referrer: Id, status: ReferralStatus, qualified: bool)

  datatype EventKey = EventKey(event: Qualifying, source: string)

  datatype EventStatus = EventPending | EventProcessed | EventSkipped

  datatype Event = Event(rule: Option<Id>, status: EventStatus)

  datatype Category = VerifiedReferral | Bonus | ApprovedParticipation

  datatype EntryKey = EntryKey(user: Id, event: EventKey, category: Category)

  datatype Entry = Entry(points: int, rule: Option<Id>)

  datatype Participation = Participation(user: Id, kind: string, poll: Option<Id>, post: Option<Id>)

  /** Referrals by referred user, events by their unique key, entries by theirs, participations by
      identifier. */
  datatype Book = Book(referrals: map<Id, Referral>, events: map<EventKey, Event>, entries: map<EntryKey, Entry>,
                       participations: map<Id, Participation>)

  function MilestoneSource(user: Id, threshold: nat): string { user + ":" + Decimal(threshold) }

  lemma LastColon(user: Id, threshold: nat)
    ensures var s := MilestoneSource(user, threshold);
      s[|user|] == ':' && forall k :: |user| < k < |s| ==> s[k] != ':'
  {
    var s := MilestoneSource(user, threshold);
    forall k | |user| < k < |s| ensures s[k] != ':' {
      assert s[k] == Decimal(threshold)[k - |user| - 1] <= '9';
    }
  }

  /** A milestone's source identifier determines the member and the threshold. */
  lemma MilestoneSourceIsInjective(u: Id, m: nat, v: Id, n: nat)
    requires MilestoneSource(u, m) == MilestoneSource(v, n)
    ensures u == v && m == n
  {
    var s := MilestoneSource(u, m);
    LastColon(u, m);
    LastColon(v, n);
    assert u == s[..|u|] && v == s[..|v|];
    assert Decimal(m) == s[|u| + 1..] && Decimal(n) == s[|v| + 1..];
    DecimalIsInjective(m, n);
  }

  function DirectKey(referral: Referral): EventKey { EventKey(VerificationApproved, referral.id) }

  function MilestoneKey(user: Id, threshold: nat): EventKey { EventKey(MilestoneReached, MilestoneSource(user, threshold)) }

  function ParticipationKey(id: Id): EventKey { EventKey(ParticipationApproved, id) }

  predicate IsProcessed(book: Book, key: EventKey) { key in book.events && book.events[key].status == EventProcessed }

  /** `upsert` with an empty update. */
  function Credit(book: Book, key: EntryKey, entry: Entry): Book {
    if key in book.entries then book else book.(entries := book.entries[key := entry])
  }

  function Process(book: Book, key: EventKey, rule: Option<Id>): Book {
    book.(events := book.events[key := Event(rule, EventProcessed)])
  }

  // ---------- milestone bonuses ----------

  predicate Counts(r: Referral, user: Id) { r.referrer == user && (r.status == Qualified || r.status == RewardProcessed) }

  function QualifiedReferrals(book: Book, user: Id): nat {
    |set r | r in book.referrals && Counts(book.referrals[r], user)|
  }

  predicate HasThreshold(versions: seq<Version>, threshold: Option<nat>) {
    exists v :: v in versions && v.threshold == threshold
  }

  /** The first row of each threshold, in order. */
  function Firsts(rows: seq<Version>): (firsts: seq<Version>)
    ensures forall v :: v in firsts ==> v in rows
    ensures forall r :: r in rows ==> HasThreshold(firsts, r.threshold)
  {
    if rows == [] then []
    else
      var before, v := Firsts(rows[..|rows| - 1]), rows[|rows| - 1];
      assert rows == rows[..|rows| - 1] + [v];
      if HasThreshold(before, v.threshold) then before else FirstsGrow(before, v); before + [v]
  }

  lemma FirstsGrow(firsts: seq<Version>, v: Version)
    ensures HasThreshold(firsts + [v], v.threshold)
    ensures forall t :: HasThreshold(firsts, t) ==> HasThreshold(firsts + [v], t)
  {
    assert (firsts + [v])[|firsts|] == v;
  }

  predicate Rising(firsts: seq<Version>) {
    && (forall v :: v in firsts ==> v.threshold.Some?)
    && (forall i, j | 0 <= i < j < |firsts| :: firsts[i].threshold.value < firsts[j].threshold.value)
  }

  predicate NewestOf(firsts: seq<Version>, rows: seq<Version>) {
    forall v, r :: v in firsts && r in rows && r.threshold == v.threshold ==> !Newer(r, v)
  }

  /** Of ordered rows: thresholds strictly rise, and each first is the newest of its threshold. */
  lemma {:induction false} FirstsAreNewest(rows: seq<Version>)
    requires Ordered(rows)
    ensures Rising(Firsts(rows)) && NewestOf(Firsts(rows), rows)
  {
    if rows != [] {
      var n := |rows| - 1;
      var before, v := Firsts(rows[..n]), rows[n];
      assert Ordered(rows[..n]) && rows == rows[..n] + [v];
      FirstsAreNewest(rows[..n]);
      OrderedLast(rows);
      if !HasThreshold(before, v.threshold) { RisingSnoc(rows[..n], before, v); }
    }
  }

  lemma OrderedLast(rows: seq<Version>)
    requires rows != [] && Ordered(rows)
    ensures var v := rows[|rows| - 1]; v.threshold.Some? && forall r :: r in rows[..|rows| - 1] ==> !Precedes(v, r)
  {
    var before, v := rows[..|rows| - 1], rows[|rows| - 1];
    forall r | r in before ensures !Precedes(v, r) {
      var i :| 0 <= i < |rows| - 1 && rows[i] == r;
    }
  }

  lemma RisingSnoc(rows: seq<Version>, firsts: seq<Version>, v: Version)
    requires Rising(firsts) && v.threshold.Some? && !HasThreshold(firsts, v.threshold)
    requires forall f :: f in firsts ==> f in rows
    requires forall r :: r in rows ==> r.threshold.Some? && !Precedes(v, r)
    ensures Rising(firsts + [v])
  {
    forall i | 0 <= i < |firsts| ensures firsts[i].threshold.value < v.threshold.value {
      assert firsts[i] in firsts && firsts[i] in rows;
      assert !Precedes(v, firsts[i]);
    }
  }

  predicate Pays(book: Book, user: Id, v: Version)
    requires v.threshold.Some?
  {
    v.points > 0 && !IsProcessed(book, MilestoneKey(user, v.threshold.value))
  }

  function Award(book: Book, user: Id, v: Version): Book
    requires v.threshold.Some?
  {
    var key := MilestoneKey(user, v.threshold.value);
    if !Pays(book, user, v) then book
    else Process(Credit(book, EntryKey(user, key, Bonus), Entry(v.points, Some(v.id))), key, Some(v.id))
  }

  function AwardAll(book: Book, user: Id, versions: seq<Version>): Book
    requires forall v :: v in versions ==> v.threshold.Some?
  {
    if versions == [] then book
    else Award(AwardAll(book, user, versions[..|versions| - 1]), user, versions[|versions| - 1])
  }

  datatype BonusPaid = BonusPaid(threshold: nat, points: int)

  function Awarded(book: Book, user: Id, versions: seq<Version>): seq<BonusPaid>
    requires forall v :: v in versions ==> v.threshold.Some?
  {
    if versions == [] then []
    else
      var before, v := versions[..|versions| - 1], versions[|versions| - 1];
      Awarded(book, user, before) +
      (if Pays(AwardAll(book, user, before), user, v) then [BonusPaid(v.threshold.value, v.points)] else [])
  }

  function Milestones(book: Book, user: Id, accounts: map<Id, Account>, rules: seq<Version>, now: int): seq<Version> {
    if user !in accounts || QualifiedReferrals(book, user) == 0 then []
    else MilestoneRows(rules, now, accounts[user], QualifiedReferrals(book, user))
  }

  // ---------- one referral ----------

  datatype Outcome = NoQualifyingReferral | NoActiveRule | Rewarded(rule: Id, bonuses: seq<BonusPaid>)

  function Mark(book: Book, referred: Id, status: ReferralStatus): Book
    requires referred in book.referrals
  {
    book.(referrals := book.referrals[referred := book.referrals[referred].(status := status, qualified := true)])
  }

  function Qualify(book: Book, referred: Id): Book
    requires referred in book.referrals
  {
    if book.referrals[referred].qualified then book else Mark(book, referred, Qualified)
  }

  function Note(book: Book, key: EventKey, rule: Option<Id>): Book {
    var event :=
      if key !in book.events then Event(rule, if rule.Some? then EventPending else EventSkipped)
      else if rule.Some? then book.events[key].(rule := rule)
      else book.events[key];
    book.(events := book.events[key := event])
  }

  /** The referral qualified and its event recorded. */
  function Noted(book: Book, referred: Id, rule: Option<Id>): Book
    requires referred in book.referrals
  {
    Note(Qualify(book, referred), DirectKey(book.referrals[referred]), rule)
  }

  function RuleFor(referral: Referral, accounts: map<Id, Account>, rules: seq<Version>, now: int): Option<Version> {
    if referral.referrer in accounts then DirectRule(rules, now, accounts[referral.referrer]) else None
  }

  function RuleId(rule: Option<Version>): Option<Id> { if rule.Some? then Some(rule.value.id) else None }

  predicate Eligible(book: Book, referred: Id) {
    referred in book.referrals && book.referrals[referred].status !in {Rejected, Flagged}
  }

  function DirectEntry(referral: Referral): EntryKey { EntryKey(referral.referrer, DirectKey(referral), VerifiedReferral) }

  /** The direct reward alone: entry, event and referral. */
  function PayDirect(book: Book, referred: Id, v: Version): Book
    requires referred in book.referrals
  {
    var referral := book.referrals[referred];
    Mark(Process(Credit(book, DirectEntry(referral), Entry(v.points, Some(v.id))), DirectKey(referral), Some(v.id)),
         referred, RewardProcessed)
  }

  function Reward(book: Book, referred: Id, accounts: map<Id, Account>, rules: seq<Version>, now: int, later: int): (Book, Outcome) {
    if !Eligible(book, referred) then (book, NoQualifyingReferral)
    else
      var referral := book.referrals[referred];
      var rule := RuleFor(referral, accounts, rules, now);
      var noted := Noted(book, referred, RuleId(rule));
      if rule.None? || rule.value.points <= 0 then (noted, NoActiveRule)
      else
        var paid := PayDirect(noted, referred, rule.value);
        var firsts := Firsts(Milestones(paid, referral.referrer, accounts, rules, later));
        (AwardAll(paid, referral.referrer, firsts), Rewarded(rule.value.id, Awarded(paid, referral.referrer, firsts)))
  }

  // ---------- participation ----------

  function TakePart(book: Book, id: Id, taken: Participation, points: int): Book {
    if id in book.participations || taken in book.participations.Values then book
    else
      var recorded := book.(participations := book.participations[id := taken]);
      if points <= 0 then recorded
      else
        var key := ParticipationKey(id);
        var rule := if key in book.events then book.events[key].rule else None;
        Process(Credit(recorded, EntryKey(taken.user, key, ApprovedParticipation), Entry(points, None)), key, rule)
  }

  // ---------- the object ----------

  class RewardDesk {
    var book: Book

    constructor (book: Book)
      ensures this.book == book
    {
      this.book := book;
    }

    method ProcessVerifiedReferral(referred: Id, accounts: map<Id, Account>, rules: seq<Version>, now: int, later: int)
      returns (outcome: Outcome)
      modifies this
      ensures (book, outcome) == Reward(old(book), referred, accounts, rules, now, later)
    {
      if referred !in book.referrals || book.referrals[referred].status in {Rejected, Flagged} {
        return NoQualifyingReferral;
      }
      var referral := book.referrals[referred];
      if !referral.qualified {
        book := Mark(book, referred, Qualified);
      }
      var rule := RuleFor(referral, accounts, rules, now);
      var key := DirectKey(referral);
      book := Note(book, key, RuleId(rule));
      if rule.None? || rule.value.points <= 0 {
        return NoActiveRule;
      }
      book := Credit(book, DirectEntry(referral), Entry(rule.value.points, Some(rule.value.id)));
      book := Process(book, key, Some(rule.value.id));
      book := Mark(book, referred, RewardProcessed);
      var bonuses := ProcessMilestoneBonuses(referral.referrer, accounts, rules, later);
      return Rewarded(rule.value.id, bonuses);
    }

    method ProcessMilestoneBonuses(user: Id, accounts: map<Id, Account>, rules: seq<Version>, now: int)
      returns (paid: seq<BonusPaid>)
      modifies this
      ensures var firsts := Firsts(Milestones(old(book), user, accounts, rules, now));
        && book == AwardAll(old(book), user, firsts)
        && paid == Awarded(old(book), user, firsts)
    {
      var firsts := FirstPerThreshold(Milestones(book, user, accounts, rules, now));
      paid := PayEach(user, firsts);
    }

    static method FirstPerThreshold(rows: seq<Version>) returns (firsts: seq<Version>)
      requires forall r :: r in rows ==> r.threshold.Some?
      ensures firsts == Firsts(rows)
    {
      firsts := [];
      for n := 0 to |rows|
        invariant firsts == Firsts(rows[..n])
      {
        assert rows[..n + 1][..n] == rows[..n];
        if !HasThreshold(firsts, rows[n].threshold) {
          firsts := firsts + [rows[n]];
        }
      }
      assert rows[..|rows|] == rows;
    }

    /** The firsts of ordered rows already rise, so they need no further sorting. */
    method PayEach(user: Id, firsts: seq<Version>) returns (paid: seq<BonusPaid>)
      requires forall v :: v in firsts ==> v.threshold.Some?
      modifies this
      ensures book == AwardAll(old(book), user, firsts)
      ensures paid == Awarded(old(book), user, firsts)
    {
      paid := [];
      for n := 0 to |firsts|
        invariant book == AwardAll(old(book), user, firsts[..n])
        invariant paid == Awarded(old(book), user, firsts[..n])
      {
        assert firsts[..n + 1][..n] == firsts[..n];
        var v := firsts[n];
        var key := MilestoneKey(user, v.threshold.value);
        if v.points <= 0 || IsProcessed(book, key) {
          continue;
        }
        book := Credit(book, EntryKey(user, key, Bonus), Entry(v.points, Some(v.id)));
        book := Process(book, key, Some(v.id));
        paid := paid + [BonusPaid(v.threshold.value, v.points)];
      }
      assert firsts[..|firsts|] == firsts;
    }

    method RecordParticipation(id: Id, taken: Participation, points: int) returns (created: bool)
      modifies this
      ensures book == TakePart(old(book), id, taken, points)
      ensures created <==> id !in old(book).participations && taken !in old(book).participations.Values
      ensures !created ==> book == old(book)
      ensures created ==> book.participations == old(book).participations[id := taken] && book.referrals == old(book).referrals
      ensures var e := EventKey(ParticipationApproved, id);
        var k := EntryKey(taken.user, e, ApprovedParticipation);
        if created && points > 0 then
          && book.entries == (if k in old(book).entries then old(book).entries else old(book).entries[k := Entry(points, None)])
          && e in book.events && book.events[e].status == EventProcessed
          && book.events - {e} == old(book).events - {e}
        else book.entries == old(book).entries && book.events == old(book).events
    {
      if id in book.participations || taken in book.participations.Values {
        return false;
      }
      var key := ParticipationKey(id);
      var rule := if key in book.events then book.events[key].rule else None;
      book := book.(participations := book.participations[id := taken]);
      if points > 0 {
        book := Credit(book, EntryKey(taken.user, key, ApprovedParticipation), Entry(points, None));
        book := Process(book, key, rule);
      }
      return true;
    }
  }

  // ---------- what every run keeps ----------

  /** The entry's member is the one its event is about. */
  ghost predicate Owned(book: Book, k: EntryKey) {
    match k.event.event
    case VerificationApproved =>
      k.category == VerifiedReferral
      && exists r :: r in book.referrals && book.referrals[r].id == k.event.source && book.referrals[r].referrer == k.user
    case MilestoneReached => k.category == Bonus && exists t: nat :: k.event == MilestoneKey(k.user, t)
    case ParticipationApproved =>
      k.category == ApprovedParticipation && k.event.source in book.participations
      && book.participations[k.event.source].user == k.user
  }

  predicate HasEntry(book: Book, key: EventKey) { exists k :: k in book.entries && k.event == key }

  predicate ReferralIdsUnique(book: Book) {
    forall a, b :: a in book.referrals && b in book.referrals && book.referrals[a].id == book.referrals[b].id ==> a == b
  }

  ghost predicate EntriesBacked(book: Book) {
    forall k :: k in book.entries ==> IsProcessed(book, k.event) && Owned(book, k)
  }

  ghost predicate ProcessedCredited(book: Book) { forall key :: IsProcessed(book, key) ==> HasEntry(book, key) }

  /** An event is processed iff it has an entry, and each entry belongs to its event's member. */
  ghost predicate Inv(book: Book) { ReferralIdsUnique(book) && EntriesBacked(book) && ProcessedCredited(book) }

  predicate Extends(before: Book, after: Book) {
    forall k :: k in before.entries ==> k in after.entries && after.entries[k] == before.entries[k]
  }

  /** One entry an event, hence one per referral and one bonus per member and threshold. */
  lemma OneEntryPerEvent(book: Book, j: EntryKey, k: EntryKey)
    requires Inv(book) && j in book.entries && k in book.entries && j.event == k.event
    ensures j == k
  {
    assert Owned(book, j) && Owned(book, k);
    if j.event.event == MilestoneReached {
      var m: nat :| j.event == MilestoneKey(j.user, m);
      var n: nat :| k.event == MilestoneKey(k.user, n);
      MilestoneSourceIsInjective(j.user, m, k.user, n);
    }
  }

  lemma CreditKeeps(book: Book, k: EntryKey, entry: Entry, rule: Option<Id>)
    requires Inv(book) && Owned(book, k)
    ensures Inv(Process(Credit(book, k, entry), k.event, rule))
    ensures Extends(book, Process(Credit(book, k, entry), k.event, rule))
  {
    CreditIsBacked(book, k, entry, rule);
    CreditIsCredited(book, k, entry, rule);
  }

  lemma CreditIsBacked(book: Book, k: EntryKey, entry: Entry, rule: Option<Id>)
    requires EntriesBacked(book) && Owned(book, k)
    ensures EntriesBacked(Process(Credit(book, k, entry), k.event, rule))
  {
    var next := Process(Credit(book, k, entry), k.event, rule);
    forall j | j in next.entries ensures IsProcessed(next, j.event) && Owned(next, j) {
      assert j == k || (IsProcessed(book, j.event) && Owned(book, j));
      OwnedStays(book, next, j);
    }
  }

  lemma OwnedStays(book: Book, next: Book, k: EntryKey)
    requires Owned(book, k) && next.participations == book.participations
    requires forall r :: r in book.referrals ==>
      r in next.referrals && next.referrals[r].id == book.referrals[r].id && next.referrals[r].referrer == book.referrals[r].referrer
    ensures Owned(next, k)
  {
  }

  lemma CreditIsCredited(book: Book, k: EntryKey, entry: Entry, rule: Option<Id>)
    requires ProcessedCredited(book)
    ensures ProcessedCredited(Process(Credit(book, k, entry), k.event, rule))
  {
    var next := Process(Credit(book, k, entry), k.event, rule);
    assert k in next.entries;
    forall key | IsProcessed(next, key) ensures HasEntry(next, key) {
      if key != k.event {
        assert IsProcessed(book, key) && HasEntry(book, key);
        var j :| j in book.entries && j.event == key;
        assert j in next.entries;
      }
    }
  }

  lemma {:induction false} AwardAllKeeps(book: Book, user: Id, versions: seq<Version>)
    requires Inv(book) && forall v :: v in versions ==> v.threshold.Some?
    ensures Inv(AwardAll(book, user, versions)) && Extends(book, AwardAll(book, user, versions))
    ensures AwardAll(book, user, versions).referrals == book.referrals
  {
    if versions != [] {
      var before, v := versions[..|versions| - 1], versions[|versions| - 1];
      AwardAllKeeps(book, user, before);
      var key := MilestoneKey(user, v.threshold.value);
      CreditKeeps(AwardAll(book, user, before), EntryKey(user, key, Bonus), Entry(v.points, Some(v.id)), Some(v.id));
    }
  }

  /** Referral and event updates that move no entry and unprocess no event. */
  lemma QuietKeeps(book: Book, next: Book)
    requires Inv(book) && ReferralIdsUnique(next)
    requires next.entries == book.entries && next.participations == book.participations
    requires forall key :: IsProcessed(next, key) <==> IsProcessed(book, key)
    requires forall r :: r in book.referrals ==>
      r in next.referrals && next.referrals[r].id == book.referrals[r].id && next.referrals[r].referrer == book.referrals[r].referrer
    ensures Inv(next) && Extends(book, next)
  {
    forall k | k in next.entries ensures IsProcessed(next, k.event) && Owned(next, k) {
      assert IsProcessed(book, k.event) && Owned(book, k);
      OwnedStays(book, next, k);
    }
    forall key | IsProcessed(next, key) ensures HasEntry(next, key) {
      assert HasEntry(book, key);
    }
  }

  lemma NotedKeeps(book: Book, referred: Id, rule: Option<Id>)
    requires Inv(book) && referred in book.referrals
    ensures Inv(Noted(book, referred, rule)) && Extends(book, Noted(book, referred, rule))
    ensures referred in Noted(book, referred, rule).referrals
    ensures Noted(book, referred, rule).referrals[referred].referrer == book.referrals[referred].referrer
    ensures Noted(book, referred, rule).referrals[referred].id == book.referrals[referred].id
  {
    var qualified := Qualify(book, referred);
    QuietKeeps(book, qualified);
    NoteKeeps(qualified, DirectKey(book.referrals[referred]), rule);
  }

  lemma NoteKeeps(book: Book, key: EventKey, rule: Option<Id>)
    requires Inv(book)
    ensures Inv(Note(book, key, rule)) && Extends(book, Note(book, key, rule))
  {
    QuietKeeps(book, Note(book, key, rule));
  }

  lemma PayDirectKeeps(book: Book, referred: Id, v: Version)
    requires Inv(book) && referred in book.referrals
    ensures Inv(PayDirect(book, referred, v)) && Extends(book, PayDirect(book, referred, v))
  {
    var referral := book.referrals[referred];
    CreditKeeps(book, DirectEntry(referral), Entry(v.points, Some(v.id)), Some(v.id));
    var credited := Process(Credit(book, DirectEntry(referral), Entry(v.points, Some(v.id))), DirectKey(referral), Some(v.id));
    QuietKeeps(credited, PayDirect(book, referred, v));
  }

  /** Direct reward, then bonuses. */
  lemma PaymentsKeep(book: Book, referred: Id, v: Version, accounts: map<Id, Account>, rules: seq<Version>, later: int)
    requires Inv(book) && referred in book.referrals
    ensures var paid := PayDirect(book, referred, v);
      var all := AwardAll(paid, book.referrals[referred].referrer,
                          Firsts(Milestones(paid, book.referrals[referred].referrer, accounts, rules, later)));
      Inv(all) && Extends(book, all)
  {
    PayDirectKeeps(book, referred, v);
    var paid := PayDirect(book, referred, v);
    var referrer := book.referrals[referred].referrer;
    AwardAllKeeps(paid, referrer, Firsts(Milestones(paid, referrer, accounts, rules, later)));
  }

  lemma RewardKeeps(book: Book, referred: Id, accounts: map<Id, Account>, rules: seq<Version>, now: int, later: int)
    requires Inv(book)
    ensures Inv(Reward(book, referred, accounts, rules, now, later).0)
    ensures Extends(book, Reward(book, referred, accounts, rules, now, later).0)
  {
    if Eligible(book, referred) {
      var rule := RuleFor(book.referrals[referred], accounts, rules, now);
      NotedKeeps(book, referred, RuleId(rule));
      if rule.Some? && rule.value.points > 0 {
        PaymentsKeep(Noted(book, referred, RuleId(rule)), referred, rule.value, accounts, rules, later);
      }
    }
  }

  lemma TakePartKeeps(book: Book, id: Id, taken: Participation, points: int)
    requires Inv(book)
    ensures Inv(TakePart(book, id, taken, points)) && Extends(book, TakePart(book, id, taken, points))
  {
    if id !in book.participations && taken !in book.participations.Values {
      var recorded := book.(participations := book.participations[id := taken]);
      forall k | k in recorded.entries ensures IsProcessed(recorded, k.event) && Owned(recorded, k) {
        assert IsProcessed(book, k.event) && Owned(book, k);
      }
      forall key | IsProcessed(recorded, key) ensures HasEntry(recorded, key) {
        assert IsProcessed(book, key) && HasEntry(book, key);
      }
      if points > 0 {
        var key := ParticipationKey(id);
        CreditKeeps(recorded, EntryKey(taken.user, key, ApprovedParticipation), Entry(points, None),
                    if key in book.events then book.events[key].rule else None);
      }
    }
  }

  // ---------- runs ----------

  /** Rules, accounts and clocks are read anew by each call. */
  datatype Move = Verify(referred: Id, accounts: map<Id, Account>, rules: seq<Version>, now: int, later: int)
                | Refer(invited: Id, id: Id, referrer: Id)
                | Review(reviewed: Id, status: ReferralStatus)
                | Participate(eventId: Id, taken: Participation, points: int)

  predicate IdTaken(book: Book, id: Id) { exists r :: r in book.referrals && book.referrals[r].id == id }

  function Step(book: Book, move: Move): Book {
    match move
    case Verify(referred, accounts, rules, now, later) => Reward(book, referred, accounts, rules, now, later).0
    case Refer(invited, id, referrer) =>
      if invited in book.referrals || IdTaken(book, id) then book
      else book.(referrals := book.referrals[invited := Referral(id, referrer, Registered, false)])
    case Review(reviewed, status) =>
      if reviewed !in book.referrals then book
      else book.(referrals := book.referrals[reviewed := book.referrals[reviewed].(status := status)])
    case Participate(eventId, taken, points) => TakePart(book, eventId, taken, points)
  }

  function Run(book: Book, moves: seq<Move>): Book {
    if moves == [] then book else Step(Run(book, moves[..|moves| - 1]), moves[|moves| - 1])
  }

  lemma ReferKeeps(book: Book, invited: Id, id: Id, referrer: Id)
    requires Inv(book) && invited !in book.referrals && !IdTaken(book, id)
    ensures var next := Step(book, Refer(invited, id, referrer)); Inv(next) && Extends(book, next)
  {
    var next := Step(book, Refer(invited, id, referrer));
    assert next == book.(referrals := book.referrals[invited := Referral(id, referrer, Registered, false)]);
    assert forall r :: r in book.referrals ==> next.referrals[r] == book.referrals[r];
    QuietKeeps(book, next);
  }

  lemma ReviewKeeps(book: Book, reviewed: Id, status: ReferralStatus)
    requires Inv(book) && reviewed in book.referrals
    ensures var next := Step(book, Review(reviewed, status)); Inv(next) && Extends(book, next)
  {
    var next := Step(book, Review(reviewed, status));
    assert next == book.(referrals := book.referrals[reviewed := book.referrals[reviewed].(status := status)]);
    QuietKeeps(book, next);
  }

  lemma StepKeeps(book: Book, move: Move)
    requires Inv(book)
    ensures Inv(Step(book, move)) && Extends(book, Step(book, move))
  {
    match move
    case Verify(referred, accounts, rules, now, later) => RewardKeeps(book, referred, accounts, rules, now, later);
    case Refer(invited, id, referrer) =>
      if invited !in book.referrals && !IdTaken(book, id) { ReferKeeps(book, invited, id, referrer); }
    case Review(reviewed, status) => if reviewed in book.referrals { ReviewKeeps(book, reviewed, status); }
    case Participate(eventId, taken, points) => TakePartKeeps(book, eventId, taken, points);
  }

  /** Over any sequence of re-processings, with rules changing in between: processed iff credited,
      one entry an event, and entries once written never change. */
  lemma {:induction false} RewardsOnce(book: Book, moves: seq<Move>)
    requires Inv(book)
    ensures Inv(Run(book, moves)) && Extends(book, Run(book, moves))
    ensures forall j, k | j in Run(book, moves).entries && k in Run(book, moves).entries :: j.event == k.event ==> j == k
  {
    if moves != [] {
      RewardsOnce(book, moves[..|moves| - 1]);
      StepKeeps(Run(book, moves[..|moves| - 1]), moves[|moves| - 1]);
    }
    forall j, k | j in Run(book, moves).entries && k in Run(book, moves).entries && j.event == k.event ensures j == k {
      OneEntryPerEvent(Run(book, moves), j, k);
    }
  }

  // ---------- one successful run ----------

  lemma {:induction false} AwardAllPays(book: Book, user: Id, versions: seq<Version>, v: Version)
    requires Inv(book) && Rising(versions) && v in versions && v.points > 0
    ensures var key := MilestoneKey(user, v.threshold.value);
      var after := AwardAll(book, user, versions);
      && IsProcessed(after, key)
      && (!IsProcessed(book, key) ==>
           EntryKey(user, key, Bonus) in after.entries && after.entries[EntryKey(user, key, Bonus)] == Entry(v.points, Some(v.id)))
  {
    var n := |versions| - 1;
    var before, last := versions[..n], versions[n];
    var key := MilestoneKey(user, v.threshold.value);
    var book' := AwardAll(book, user, before);
    AwardAllKeeps(book, user, before);
    AwardAllKeeps(book, user, versions);
    assert versions == before + [last];
    if v in before {
      assert Rising(before);
      AwardAllPays(book, user, before, v);
      StaysProcessed(book', user, last, key);
      AwardExtends(book', user, last);
    } else {
      forall i | 0 <= i < n ensures versions[i].threshold.value != v.threshold.value {
      }
      OtherMilestones(book, user, before, v.threshold.value);
    }
  }

  lemma StaysProcessed(book: Book, user: Id, v: Version, key: EventKey)
    requires v.threshold.Some? && IsProcessed(book, key)
    ensures IsProcessed(Award(book, user, v), key)
  {
  }

  lemma AwardExtends(book: Book, user: Id, v: Version)
    requires v.threshold.Some?
    ensures Extends(book, Award(book, user, v))
  {
  }

  /** Bonuses of other thresholds leave a milestone's event alone. */
  lemma {:induction false} OtherMilestones(book: Book, user: Id, versions: seq<Version>, threshold: nat)
    requires forall v :: v in versions ==> v.threshold.Some? && v.threshold.value != threshold
    ensures IsProcessed(AwardAll(book, user, versions), MilestoneKey(user, threshold)) <==> IsProcessed(book, MilestoneKey(user, threshold))
  {
    if versions != [] {
      var last := versions[|versions| - 1];
      OtherMilestones(book, user, versions[..|versions| - 1], threshold);
      if MilestoneSource(user, last.threshold.value) == MilestoneSource(user, threshold) {
        MilestoneSourceIsInjective(user, last.threshold.value, user, threshold);
      }
    }
  }

  /** After a successful run every threshold reached whose newest version is worth something is
      processed, and what it newly paid is that version's points. */
  lemma EveryReachedMilestoneIsPaid(book: Book, referred: Id, accounts: map<Id, Account>, rules: seq<Version>,
                                    now: int, later: int, v: Version)
    requires Inv(book) && Reward(book, referred, accounts, rules, now, later).1.Rewarded?
    requires var user := book.referrals[referred].referrer;
      var after := Reward(book, referred, accounts, rules, now, later).0;
      && v in Firsts(Milestones(after, user, accounts, rules, later)) && v.points > 0
    ensures var user := book.referrals[referred].referrer;
      var after := Reward(book, referred, accounts, rules, now, later).0;
      var key := MilestoneKey(user, v.threshold.value);
      && IsProcessed(after, key) && HasEntry(after, key)
      && (!IsProcessed(book, key) ==>
           EntryKey(user, key, Bonus) in after.entries && after.entries[EntryKey(user, key, Bonus)] == Entry(v.points, Some(v.id)))
  {
    var referral := book.referrals[referred];
    var user, rule := referral.referrer, RuleFor(referral, accounts, rules, now);
    var noted := Noted(book, referred, RuleId(rule));
    NotedKeeps(book, referred, RuleId(rule));
    PayDirectKeeps(noted, referred, rule.value);
    var paid := PayDirect(noted, referred, rule.value);
    var rows := Milestones(paid, user, accounts, rules, later);
    AwardAllKeeps(paid, user, Firsts(rows));
    FirstsAreNewest(rows);
    AwardAllPays(paid, user, Firsts(rows), v);
    RewardKeeps(book, referred, accounts, rules, now, later);
  }

  /** The entries a run adds are the direct reward and bonuses of such thresholds, nothing else. */
  lemma OnlyDueEntriesAreAdded(book: Book, referred: Id, accounts: map<Id, Account>, rules: seq<Version>,
                               now: int, later: int, k: EntryKey)
    requires Eligible(book, referred)
    requires k in Reward(book, referred, accounts, rules, now, later).0.entries && k !in book.entries
    ensures var referral := book.referrals[referred];
      var after := Reward(book, referred, accounts, rules, now, later).0;
      || k == DirectEntry(referral)
      || BonusDue(referral.referrer, Firsts(Milestones(after, referral.referrer, accounts, rules, later)), k)
  {
    var referral := book.referrals[referred];
    var rule := RuleFor(referral, accounts, rules, now);
    if rule.Some? && rule.value.points > 0 && k != DirectEntry(referral) {
      var paid := PayDirect(Noted(book, referred, RuleId(rule)), referred, rule.value);
      var firsts := Firsts(Milestones(paid, referral.referrer, accounts, rules, later));
      AddedAreDue(paid, referral.referrer, firsts, k);
      ReferralsUntouched(paid, referral.referrer, firsts);
    }
  }

  predicate BonusDue(user: Id, versions: seq<Version>, k: EntryKey)
    requires forall v :: v in versions ==> v.threshold.Some?
  {
    exists v :: v in versions && v.points > 0 && k == EntryKey(user, MilestoneKey(user, v.threshold.value), Bonus)
  }

  lemma {:induction false} AddedAreDue(book: Book, user: Id, versions: seq<Version>, k: EntryKey)
    requires forall v :: v in versions ==> v.threshold.Some?
    requires k in AwardAll(book, user, versions).entries && k !in book.entries
    ensures BonusDue(user, versions, k)
  {
    var before, last := versions[..|versions| - 1], versions[|versions| - 1];
    assert versions == before + [last];
    if k in AwardAll(book, user, before).entries {
      AddedAreDue(book, user, before, k);
    }
  }

  lemma {:induction false} ReferralsUntouched(book: Book, user: Id, versions: seq<Version>)
    requires forall v :: v in versions ==> v.threshold.Some?
    ensures AwardAll(book, user, versions).referrals == book.referrals
  {
    if versions != [] { ReferralsUntouched(book, user, versions[..|versions| - 1]); }
  }

  lemma {:induction false} NothingLeftToAward(book: Book, user: Id, versions: seq<Version>)
    requires forall v :: v in versions ==> v.threshold.Some? && !Pays(book, user, v)
    ensures AwardAll(book, user, versions) == book
  {
    if versions != [] { NothingLeftToAward(book, user, versions[..|versions| - 1]); }
  }

  function Payments(book: Book, referred: Id, v: Version, accounts: map<Id, Account>, rules: seq<Version>, later: int): Book
    requires referred in book.referrals
  {
    var paid, user := PayDirect(book, referred, v), book.referrals[referred].referrer;
    AwardAll(paid, user, Firsts(Milestones(paid, user, accounts, rules, later)))
  }

  lemma PaymentsTwice(book: Book, referred: Id, v: Version, accounts: map<Id, Account>, rules: seq<Version>, later: int)
    requires Inv(book) && referred in book.referrals
    ensures var once := Payments(book, referred, v, accounts, rules, later);
      && Eligible(once, referred)
      && once.referrals[referred].referrer == book.referrals[referred].referrer
      && Noted(once, referred, Some(v.id)) == once
      && Payments(once, referred, v, accounts, rules, later) == once
  {
    var referral, user := book.referrals[referred], book.referrals[referred].referrer;
    var paid := PayDirect(book, referred, v);
    PayDirectKeeps(book, referred, v);
    var firsts := Firsts(Milestones(paid, user, accounts, rules, later));
    FirstsAreNewest(Milestones(paid, user, accounts, rules, later));
    var once := AwardAll(paid, user, firsts);
    AwardAllKeeps(paid, user, firsts);
    DirectUntouched(paid, user, firsts, DirectKey(referral));
    RepeatedDirect(once, referred, v);
    forall v | v in firsts ensures !Pays(once, user, v) {
      if v.points > 0 { AwardAllPays(paid, user, firsts, v); }
    }
    NothingLeftToAward(once, user, firsts);
  }

  /** A second run under the same rules, accounts and clocks changes nothing. */
  lemma ReprocessingIsIdempotent(book: Book, referred: Id, accounts: map<Id, Account>, rules: seq<Version>, now: int, later: int)
    requires Inv(book)
    ensures var once := Reward(book, referred, accounts, rules, now, later).0;
      Reward(once, referred, accounts, rules, now, later).0 == once
  {
    if Eligible(book, referred) {
      var rule := RuleFor(book.referrals[referred], accounts, rules, now);
      NotedKeeps(book, referred, RuleId(rule));
      if rule.None? || rule.value.points <= 0 {
        NotedTwice(book, referred, RuleId(rule));
      } else {
        PaymentsTwice(Noted(book, referred, RuleId(rule)), referred, rule.value, accounts, rules, later);
      }
    }
  }

  /** Bonuses leave the events of referrals alone. */
  lemma {:induction false} DirectUntouched(book: Book, user: Id, versions: seq<Version>, key: EventKey)
    requires key.event == VerificationApproved && key in book.events && forall v :: v in versions ==> v.threshold.Some?
    ensures var after := AwardAll(book, user, versions);
      key in after.events && after.events[key] == book.events[key]
  {
    if versions != [] { DirectUntouched(book, user, versions[..|versions| - 1], key); }
  }

  lemma RepeatedDirect(book: Book, referred: Id, v: Version)
    requires referred in book.referrals
    requires var referral := book.referrals[referred];
      && referral.qualified && referral.status == RewardProcessed
      && DirectEntry(referral) in book.entries
      && DirectKey(referral) in book.events && book.events[DirectKey(referral)] == Event(Some(v.id), EventProcessed)
    ensures Noted(book, referred, Some(v.id)) == book
    ensures PayDirect(book, referred, v) == book
  {
    var referral := book.referrals[referred];
    var key := DirectKey(referral);
    assert book.events[key := book.events[key]] == book.events;
    assert book.referrals[referred := referral] == book.referrals;
  }

  lemma NotedTwice(book: Book, referred: Id, rule: Option<Id>)
    requires referred in book.referrals
    ensures var once := Noted(book, referred, rule);
      referred in once.referrals && Noted(once, referred, rule) == once
  {
    var once := Noted(book, referred, rule);
    assert once.events[DirectKey(once.referrals[referred]) := once.events[DirectKey(once.referrals[referred])]] == once.events;
  }

  /** After a re-run of a reward already paid, the event and its entry name one version iff the rule
      found is the one that paid or, when none is found, they did so before. */
  lemma EventNamesItsEntryIff(book: Book, referred: Id, accounts: map<Id, Account>, rules: seq<Version>, now: int, later: int)
    requires Inv(book) && Eligible(book, referred) && DirectEntry(book.referrals[referred]) in book.entries
    ensures var referral := book.referrals[referred];
      var key, rule := DirectKey(referral), RuleFor(referral, accounts, rules, now);
      var entry, after := book.entries[DirectEntry(referral)], Reward(book, referred, accounts, rules, now, later).0;
      && DirectEntry(referral) in after.entries && after.entries[DirectEntry(referral)] == entry
      && key in book.events && key in after.events
      && (after.events[key].rule == entry.rule <==>
           if rule.Some? then Some(rule.value.id) == entry.rule else book.events[key].rule == entry.rule)
  {
    var referral := book.referrals[referred];
    var rule := RuleFor(referral, accounts, rules, now);
    assert IsProcessed(book, DirectKey(referral));
    NotedKeeps(book, referred, RuleId(rule));
    RewardKeeps(book, referred, accounts, rules, now, later);
    if rule.Some? && rule.value.points > 0 {
      var paid := PayDirect(Noted(book, referred, RuleId(rule)), referred, rule.value);
      DirectUntouched(paid, referral.referrer, Firsts(Milestones(paid, referral.referrer, accounts, rules, later)), DirectKey(referral));
    }
  }

  function Rule(id: Id, since: int): Version {
    Version(id, 10, None, since, 1, VerificationApproved, true, 0, None, Member, None)
  }

  const ONE_REFERRAL := Book(map["invited" := Referral("referral", "inviter", Registered, false)], map[], map[], map[])
  const INVITER: map<Id, Account> := map["inviter" := Account(Member, None)]

  lemma OnlyRule(id: Id)
    ensures RuleFor(ONE_REFERRAL.referrals["invited"], INVITER, [Rule(id, 1)], 2) == Some(Rule(id, 1))
  {
    assert [Rule(id, 1)][..0] == [];
  }

  lemma NewerRule()
    ensures RuleFor(ONE_REFERRAL.referrals["invited"], INVITER, [Rule("old", 1), Rule("new", 2)], 2) == Some(Rule("new", 2))
  {
    var rules := [Rule("old", 1), Rule("new", 2)];
    var best := DirectRule(rules, 2, INVITER["inviter"]);
    assert rules[1] in rules && InForce(Rule("new", 2), VerificationApproved, 2, INVITER["inviter"]);
  }

  lemma {:induction false} NoMilestoneRows(rules: seq<Version>, now: int, account: Account, count: nat)
    requires forall v :: v in rules ==> v.threshold.None?
    ensures MilestoneRows(rules, now, account, count) == []
  {
    if rules != [] {
      assert rules[0] in rules && forall v :: v in rules[1..] ==> v in rules;
      NoMilestoneRows(rules[1..], now, account, count);
    }
  }

  lemma NoMilestones(book: Book, user: Id, accounts: map<Id, Account>, rules: seq<Version>, now: int)
    requires forall v :: v in rules ==> v.threshold.None?
    ensures Milestones(book, user, accounts, rules, now) == []
  {
    if user in accounts { NoMilestoneRows(rules, now, accounts[user], QualifiedReferrals(book, user)); }
  }

  const PAID_REFERRAL := Referral("referral", "inviter", RewardProcessed, true)

  lemma FirstPayment() returns (book: Book)
    ensures book == Reward(ONE_REFERRAL, "invited", INVITER, [Rule("old", 1)], 2, 2).0
    ensures book.referrals == map["invited" := PAID_REFERRAL]
    ensures book.events == map[DirectKey(PAID_REFERRAL) := Event(Some("old"), EventProcessed)]
    ensures book.entries == map[DirectEntry(PAID_REFERRAL) := Entry(10, Some("old"))]
  {
    OnlyRule("old");
    book := PayDirect(Noted(ONE_REFERRAL, "invited", Some("old")), "invited", Rule("old", 1));
    NoMilestones(book, "inviter", INVITER, [Rule("old", 1)], 2);
  }

  /** A reward paid under one version and re-processed under a newer one: the event names the newer,
      the entry the one that paid. */
  lemma EventRuleDrifts() returns (paid: Book, again: Book)
    ensures paid == Reward(ONE_REFERRAL, "invited", INVITER, [Rule("old", 1)], 2, 2).0
    ensures again == Reward(paid, "invited", INVITER, [Rule("old", 1), Rule("new", 2)], 2, 2).0
    ensures DirectKey(PAID_REFERRAL) in again.events && again.events[DirectKey(PAID_REFERRAL)].rule == Some("new")
    ensures DirectEntry(PAID_REFERRAL) in again.entries && again.entries[DirectEntry(PAID_REFERRAL)].rule == Some("old")
  {
    paid := FirstPayment();
    NewerRule();
    again := PayDirect(Noted(paid, "invited", Some("new")), "invited", Rule("new", 2));
    NoMilestones(again, "inviter", INVITER, [Rule("old", 1), Rule("new", 2)], 2);
  }
}
