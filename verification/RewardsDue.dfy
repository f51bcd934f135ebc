/** Which rewards one run pays: the rule versions a referral's processing credits, and the number of
    referrals a milestone is measured against, with every condition written out. */
module RewardsDue {
  import opened Prelude
  import opened Territory
  import opened Rewards

  // ---------- what is owed ----------

  /** The version offers a reward for the event to such an account at that time. */
  predicate Offers(v: Version, event: Qualifying, time: int, account: Account) {
    && v.event == event && v.active && v.role == account.role
    && v.effectiveFrom <= time && v.ruleFrom <= time && (v.until.Some? ==> time < v.until.value)
    && (v.level.Some? ==> account.level == v.level)
  }

  /** It came into effect later or, at the same time, under a higher number. */
  predicate Supersedes(a: Version, b: Version) {
    a.effectiveFrom > b.effectiveFrom || (a.effectiveFrom == b.effectiveFrom && a.version > b.version)
  }

  /** No other offer for the event, and for its threshold when that matters, is as new. */
  predicate Prevails(v: Version, rules: seq<Version>, event: Qualifying, time: int, account: Account) {
    && v in rules && Offers(v, event, time, account)
    && forall w :: w in rules && w != v && Offers(w, event, time, account) && (event == MilestoneReached ==> w.threshold == v.threshold) ==>
         Supersedes(v, w)
  }

  /** The member's referrals that qualified, rewarded already or not. */
  function CountedReferrals(book: Book, user: Id): set<Id> {
    set r | r in book.referrals && book.referrals[r].referrer == user && book.referrals[r].status in {Qualified, RewardProcessed}
  }

  function Reach(book: Book, user: Id): nat { |CountedReferrals(book, user)| }

  function BonusEvent(user: Id, threshold: nat): EventKey { EventKey(MilestoneReached, user + ":" + Decimal(threshold)) }

  function BonusEntry(user: Id, threshold: nat): EntryKey { EntryKey(user, BonusEvent(user, threshold), Bonus) }

  /** An offer for a milestone that the member has reached and that is worth something. */
  predicate BonusOwed(v: Version, rules: seq<Version>, time: int, account: Account, reach: nat) {
    && v in rules && Offers(v, MilestoneReached, time, account)
    && v.threshold.Some? && v.threshold.value <= reach && v.points > 0
    && forall w :: w in rules && Offers(w, MilestoneReached, time, account) && w.threshold == v.threshold ==> !Supersedes(w, v)
  }

  // ---------- one successful run, taken apart ----------

  /** The book between the direct reward and the bonuses. */
  function AfterDirect(book: Book, referred: Id, accounts: map<Id, Account>, rules: seq<Version>, now: int): (paid: Book)
    requires Eligible(book, referred) && RuleFor(book.referrals[referred], accounts, rules, now).Some?
  {
    var rule := RuleFor(book.referrals[referred], accounts, rules, now);
    PayDirect(Noted(book, referred, RuleId(rule)), referred, rule.value)
  }

  function Owed(paid: Book, user: Id, accounts: map<Id, Account>, rules: seq<Version>, later: int): seq<Version> {
    Firsts(Milestones(paid, user, accounts, rules, later))
  }

  predicate Succeeds(book: Book, referred: Id, accounts: map<Id, Account>, rules: seq<Version>, now: int, later: int) {
    Reward(book, referred, accounts, rules, now, later).1.Rewarded?
  }

  lemma TakenApart(book: Book, referred: Id, accounts: map<Id, Account>, rules: seq<Version>, now: int, later: int)
    returns (paid: Book, owed: seq<Version>)
    requires Inv(book) && Succeeds(book, referred, accounts, rules, now, later)
    ensures Eligible(book, referred) && book.referrals[referred].referrer in accounts
    ensures var user := book.referrals[referred].referrer;
      var (after, outcome) := Reward(book, referred, accounts, rules, now, later);
      && owed == Owed(paid, user, accounts, rules, later) && Rising(owed)
      && after == AwardAll(paid, user, owed) && outcome.bonuses == Awarded(paid, user, owed)
      && after.referrals == paid.referrals && Inv(paid) && Extends(book, paid)
      && referred in paid.referrals && paid.referrals[referred].referrer == user && paid.referrals[referred].status == RewardProcessed
    ensures forall k :: k in paid.entries && k !in book.entries ==> k.event.event == VerificationApproved
    ensures forall e: EventKey :: e.event == MilestoneReached ==> (IsProcessed(paid, e) <==> IsProcessed(book, e))
  {
    var referral := book.referrals[referred];
    var user, rule := referral.referrer, RuleFor(referral, accounts, rules, now);
    var noted := Noted(book, referred, RuleId(rule));
    paid := PayDirect(noted, referred, rule.value);
    owed := Owed(paid, user, accounts, rules, later);
    NotedKeeps(book, referred, RuleId(rule));
    PayDirectKeeps(noted, referred, rule.value);
    FirstsAreNewest(Milestones(paid, user, accounts, rules, later));
    AwardAllKeeps(paid, user, owed);
  }

  /** The referral just rewarded is one of those counted, so the count is never nothing. */
  lemma MilestonesAreOffers(paid: Book, referred: Id, accounts: map<Id, Account>, rules: seq<Version>, later: int)
    requires referred in paid.referrals && paid.referrals[referred].status == RewardProcessed
    requires paid.referrals[referred].referrer in accounts
    ensures var user := paid.referrals[referred].referrer;
      forall v :: v in Milestones(paid, user, accounts, rules, later) <==>
        v in rules && Offers(v, MilestoneReached, later, accounts[user]) && v.threshold.Some? && v.threshold.value <= Reach(paid, user)
  {
    var user := paid.referrals[referred].referrer;
    assert referred in CountedReferrals(paid, user);
    assert CountedReferrals(paid, user) == set r | r in paid.referrals && Counts(paid.referrals[r], user);
  }

  lemma OwedIsOwed(paid: Book, referred: Id, accounts: map<Id, Account>, rules: seq<Version>, later: int, v: Version)
    requires referred in paid.referrals && paid.referrals[referred].status == RewardProcessed
    requires paid.referrals[referred].referrer in accounts
    requires v in Owed(paid, paid.referrals[referred].referrer, accounts, rules, later) && v.points > 0
    ensures var user := paid.referrals[referred].referrer; BonusOwed(v, rules, later, accounts[user], Reach(paid, user))
  {
    var user := paid.referrals[referred].referrer;
    var rows := Milestones(paid, user, accounts, rules, later);
    MilestonesAreOffers(paid, referred, accounts, rules, later);
    FirstsAreNewest(rows);
    assert v in rows;
    forall w | w in rules && Offers(w, MilestoneReached, later, accounts[user]) && w.threshold == v.threshold
      ensures !Supersedes(w, v)
    {
      assert w in rows && !Newer(w, v);
    }
  }

  /** An offer that prevails for its threshold is the one chosen, if its threshold is reached. */
  lemma PrevailingIsChosen(paid: Book, referred: Id, accounts: map<Id, Account>, rules: seq<Version>, later: int, v: Version)
    requires referred in paid.referrals && paid.referrals[referred].status == RewardProcessed
    requires paid.referrals[referred].referrer in accounts
    requires v.threshold.Some? && Prevails(v, rules, MilestoneReached, later, accounts[paid.referrals[referred].referrer])
    ensures var user := paid.referrals[referred].referrer;
      v in Owed(paid, user, accounts, rules, later) <==> v.threshold.value <= Reach(paid, user)
    ensures var user := paid.referrals[referred].referrer;
      forall f :: f in Owed(paid, user, accounts, rules, later) && f.threshold == v.threshold ==> f == v
  {
    var user := paid.referrals[referred].referrer;
    var rows := Milestones(paid, user, accounts, rules, later);
    MilestonesAreOffers(paid, referred, accounts, rules, later);
    FirstsAreNewest(rows);
    forall f | f in Firsts(rows) && f.threshold == v.threshold ensures f == v {
      assert f in rows && v in rows && !Newer(v, f);
    }
    if v in rows {
      assert HasThreshold(Firsts(rows), v.threshold);
      var f :| f in Firsts(rows) && f.threshold == v.threshold;
    }
  }

  // ---------- the bonuses of one run ----------

  /** Of the milestones not paid before, a run pays exactly those that the member's qualified referrals,
      this one included, have reached: the prevailing version's points, under its own threshold. */
  lemma BonusPaidIffReached(book: Book, referred: Id, accounts: map<Id, Account>, rules: seq<Version>, now: int, later: int, v: Version)
    requires Inv(book) && Succeeds(book, referred, accounts, rules, now, later)
    requires referred in book.referrals && book.referrals[referred].referrer in accounts
    requires var user := book.referrals[referred].referrer;
      && v.threshold.Some? && v.points > 0 && Prevails(v, rules, MilestoneReached, later, accounts[user])
      && BonusEntry(user, v.threshold.value) !in book.entries
    ensures var user, t := book.referrals[referred].referrer, v.threshold.value;
      var after := Reward(book, referred, accounts, rules, now, later).0;
      && (BonusEntry(user, t) in after.entries <==> t <= Reach(after, user))
      && (t <= Reach(after, user) ==> after.entries[BonusEntry(user, t)] == Entry(v.points, Some(v.id)))
  {
    var user, t := book.referrals[referred].referrer, v.threshold.value;
    var paid, owed := TakenApart(book, referred, accounts, rules, now, later);
    var after := Reward(book, referred, accounts, rules, now, later).0;
    PrevailingIsChosen(paid, referred, accounts, rules, later, v);
    assert MilestoneKey(user, t) == BonusEvent(user, t);
    UnpaidIsUnprocessed(book, user, t);
    if t <= Reach(after, user) {
      AwardAllPays(paid, user, owed, v);
    } else {
      assert forall f :: f in owed ==> f.threshold.value != t;
      OtherMilestones(paid, user, owed, t);
      AwardAllKeeps(paid, user, owed);
      assert !IsProcessed(after, BonusEvent(user, t));
    }
  }

  lemma UnpaidIsUnprocessed(book: Book, user: Id, threshold: nat)
    requires Inv(book) && BonusEntry(user, threshold) !in book.entries
    ensures !IsProcessed(book, MilestoneKey(user, threshold))
  {
    var key := MilestoneKey(user, threshold);
    if IsProcessed(book, key) {
      assert HasEntry(book, key);
      var k :| k in book.entries && k.event == key;
      assert Owned(book, k);
      var t: nat :| k.event == MilestoneKey(k.user, t);
      MilestoneSourceIsInjective(user, threshold, k.user, t);
    }
  }

  /** Nothing else is credited: an entry a run adds is the referral's own or the bonus of an offer owed. */
  lemma AddedBonusIsOwed(book: Book, referred: Id, accounts: map<Id, Account>, rules: seq<Version>, now: int, later: int, k: EntryKey)
    requires Inv(book) && Succeeds(book, referred, accounts, rules, now, later)
    requires referred in book.referrals && book.referrals[referred].referrer in accounts
    requires k !in book.entries && k in Reward(book, referred, accounts, rules, now, later).0.entries
    ensures var referral := book.referrals[referred];
      var after := Reward(book, referred, accounts, rules, now, later).0;
      || k == EntryKey(referral.referrer, EventKey(VerificationApproved, referral.id), VerifiedReferral)
      || exists v :: BonusOwed(v, rules, later, accounts[referral.referrer], Reach(after, referral.referrer))
           && k == BonusEntry(referral.referrer, v.threshold.value) && after.entries[k] == Entry(v.points, Some(v.id))
  {
    var referral, user := book.referrals[referred], book.referrals[referred].referrer;
    var paid, owed := TakenApart(book, referred, accounts, rules, now, later);
    OnlyDueEntriesAreAdded(book, referred, accounts, rules, now, later, k);
    if k !in paid.entries {
      AddedAreDue(paid, user, owed, k);
      var v :| v in owed && v.points > 0 && k == EntryKey(user, MilestoneKey(user, v.threshold.value), Bonus);
      OwedIsOwed(paid, referred, accounts, rules, later, v);
      UnpaidIsUnprocessed(paid, user, v.threshold.value);
      AwardAllPays(paid, user, owed, v);
      assert k == BonusEntry(user, v.threshold.value);
    }
  }

  /** What a run reports as paid. */
  predicate Reports(book: Book, user: Id, versions: seq<Version>, b: BonusPaid)
    requires forall v :: v in versions ==> v.threshold.Some?
  {
    exists v :: v in versions && v.points > 0 && b == BonusPaid(v.threshold.value, v.points)
      && !IsProcessed(book, MilestoneKey(user, v.threshold.value))
  }

  lemma {:induction false} AwardedIsReported(book: Book, user: Id, versions: seq<Version>, b: BonusPaid)
    requires Inv(book) && Rising(versions)
    ensures b in Awarded(book, user, versions) <==> Reports(book, user, versions, b)
  {
    if versions != [] {
      var n := |versions| - 1;
      var before, last := versions[..n], versions[n];
      assert versions == before + [last];
      AwardedIsReported(book, user, before, b);
      LastIsHighest(versions);
      OtherMilestones(book, user, before, last.threshold.value);
    }
  }

  lemma {:induction false} AwardedRises(book: Book, user: Id, versions: seq<Version>)
    requires Rising(versions)
    ensures var paid := Awarded(book, user, versions);
      && (forall i, j | 0 <= i < j < |paid| :: paid[i].threshold < paid[j].threshold)
      && (forall b :: b in paid ==> exists v :: v in versions && v.threshold.value == b.threshold)
  {
    if versions != [] {
      var n := |versions| - 1;
      var before, last := versions[..n], versions[n];
      assert versions == before + [last];
      AwardedRises(book, user, before);
      LastIsHighest(versions);
      var all := Awarded(book, user, before);
      assert forall b :: b in all ==> b.threshold < last.threshold.value;
      assert forall i :: 0 <= i < |all| ==> all[i] in all;
    }
  }

  lemma LastIsHighest(versions: seq<Version>)
    requires Rising(versions) && versions != []
    ensures Rising(versions[..|versions| - 1])
    ensures forall v :: v in versions[..|versions| - 1] ==> v.threshold.Some? && v.threshold.value < versions[|versions| - 1].threshold.value
  {
    forall v | v in versions[..|versions| - 1] ensures v.threshold.Some? && v.threshold.value < versions[|versions| - 1].threshold.value {
      var i :| 0 <= i < |versions| - 1 && versions[i] == v;
    }
  }

  /** The answer lists the bonuses credited by this very run, with their points, thresholds rising. */
  lemma BonusesReported(book: Book, referred: Id, accounts: map<Id, Account>, rules: seq<Version>, now: int, later: int, b: BonusPaid)
    requires Inv(book) && Succeeds(book, referred, accounts, rules, now, later) && referred in book.referrals
    ensures var user := book.referrals[referred].referrer;
      var (after, outcome) := Reward(book, referred, accounts, rules, now, later);
      && (b in outcome.bonuses <==>
           && BonusEntry(user, b.threshold) !in book.entries && BonusEntry(user, b.threshold) in after.entries
           && after.entries[BonusEntry(user, b.threshold)].points == b.points)
      && forall i, j | 0 <= i < j < |outcome.bonuses| :: outcome.bonuses[i].threshold < outcome.bonuses[j].threshold
  {
    var user := book.referrals[referred].referrer;
    var paid, owed := TakenApart(book, referred, accounts, rules, now, later);
    var after := AwardAll(paid, user, owed);
    var k := BonusEntry(user, b.threshold);
    AwardedIsReported(paid, user, owed, b);
    AwardedRises(paid, user, owed);
    if Reports(paid, user, owed, b) {
      var v :| v in owed && v.points > 0 && b == BonusPaid(v.threshold.value, v.points) && !IsProcessed(paid, MilestoneKey(user, v.threshold.value));
      AwardAllPays(paid, user, owed, v);
    }
    if k !in book.entries && k in after.entries {
      AddedAreDue(paid, user, owed, k);
      var v :| v in owed && v.points > 0 && k == EntryKey(user, MilestoneKey(user, v.threshold.value), Bonus);
      MilestoneSourceIsInjective(user, b.threshold, user, v.threshold.value);
      UnpaidIsUnprocessed(paid, user, b.threshold);
      AwardAllPays(paid, user, owed, v);
    }
  }

  // ---------- the direct reward ----------

  /** An open referral is rewarded iff the version that prevails for its referrer is worth something;
      then the referral is closed and credited once, with that version's points. */
  lemma RewardedIff(book: Book, referred: Id, accounts: map<Id, Account>, rules: seq<Version>, now: int, later: int, v: Version)
    requires Inv(book) && referred in book.referrals && book.referrals[referred].referrer in accounts
    requires Prevails(v, rules, VerificationApproved, now, accounts[book.referrals[referred].referrer])
    ensures var referral := book.referrals[referred];
      var (after, outcome) := Reward(book, referred, accounts, rules, now, later);
      var event := EventKey(VerificationApproved, referral.id);
      var k := EntryKey(referral.referrer, event, VerifiedReferral);
      && (outcome.Rewarded? <==> referral.status !in {Rejected, Flagged} && v.points > 0)
      && (outcome.Rewarded? ==>
           && outcome.rule == v.id
           && after.referrals == book.referrals[referred := referral.(status := RewardProcessed, qualified := true)]
           && event in after.events && after.events[event] == Event(Some(v.id), EventProcessed)
           && k in after.entries && after.entries[k] == if k in book.entries then book.entries[k] else Entry(v.points, Some(v.id)))
  {
    var referral := book.referrals[referred];
    var user := referral.referrer;
    ChosenPrevails(rules, now, accounts[user], v);
    if Succeeds(book, referred, accounts, rules, now, later) {
      var paid := DirectPaid(book, referred, v);
      var owed := Owed(paid, user, accounts, rules, later);
      AwardAllKeeps(paid, user, owed);
      DirectUntouched(paid, user, owed, DirectKey(referral));
    }
  }

  lemma NotedReferral(book: Book, referred: Id, rule: Option<Id>)
    requires referred in book.referrals
    ensures var referral := book.referrals[referred];
      var marked := if referral.qualified then referral else referral.(status := Qualified, qualified := true);
      Noted(book, referred, rule).referrals == book.referrals[referred := marked] && Noted(book, referred, rule).entries == book.entries
  {
    if book.referrals[referred].qualified { assert book.referrals[referred := book.referrals[referred]] == book.referrals; }
  }

  lemma DirectCredited(noted: Book, referred: Id, v: Version)
    requires referred in noted.referrals
    ensures var referral := noted.referrals[referred];
      var event := EventKey(VerificationApproved, referral.id);
      var k := EntryKey(referral.referrer, event, VerifiedReferral);
      var paid := PayDirect(noted, referred, v);
      && paid.referrals == noted.referrals[referred := referral.(status := RewardProcessed, qualified := true)]
      && event in paid.events && paid.events[event] == Event(Some(v.id), EventProcessed)
      && k in paid.entries && paid.entries[k] == if k in noted.entries then noted.entries[k] else Entry(v.points, Some(v.id))
  {
  }

  lemma DirectPaid(book: Book, referred: Id, v: Version) returns (paid: Book)
    requires Inv(book) && referred in book.referrals
    ensures paid == PayDirect(Noted(book, referred, Some(v.id)), referred, v) && Inv(paid)
    ensures var referral := book.referrals[referred];
      var event := EventKey(VerificationApproved, referral.id);
      var k := EntryKey(referral.referrer, event, VerifiedReferral);
      && paid.referrals == book.referrals[referred := referral.(status := RewardProcessed, qualified := true)]
      && event in paid.events && paid.events[event] == Event(Some(v.id), EventProcessed)
      && k in paid.entries && paid.entries[k] == if k in book.entries then book.entries[k] else Entry(v.points, Some(v.id))
  {
    var noted := Noted(book, referred, Some(v.id));
    paid := PayDirect(noted, referred, v);
    NotedKeeps(book, referred, Some(v.id));
    PayDirectKeeps(noted, referred, v);
    NotedReferral(book, referred, Some(v.id));
    DirectCredited(noted, referred, v);
  }

  lemma ChosenPrevails(rules: seq<Version>, now: int, account: Account, v: Version)
    requires Prevails(v, rules, VerificationApproved, now, account)
    ensures DirectRule(rules, now, account) == Some(v)
  {
    assert InForce(v, VerificationApproved, now, account);
    var best := DirectRule(rules, now, account);
    assert best.Some? && !Newer(v, best.value);
  }

  /** Without any offer, and for a referral refused or unknown, nothing is credited and no event becomes
      processed; an open referral is still marked as qualified. */
  lemma UnrewardedCreditsNothing(book: Book, referred: Id, accounts: map<Id, Account>, rules: seq<Version>, now: int, later: int)
    ensures var (after, outcome) := Reward(book, referred, accounts, rules, now, later);
      var open := referred in book.referrals && book.referrals[referred].status !in {Rejected, Flagged};
      && (outcome == NoQualifyingReferral <==> !open)
      && (open && (book.referrals[referred].referrer in accounts ==>
                    forall v :: v in rules ==> !Offers(v, VerificationApproved, now, accounts[book.referrals[referred].referrer])) ==>
           outcome == NoActiveRule)
      && (!outcome.Rewarded? ==>
           && after.entries == book.entries && after.participations == book.participations
           && (forall e :: IsProcessed(after, e) <==> IsProcessed(book, e))
           && after.referrals == if open && !book.referrals[referred].qualified
                                 then book.referrals[referred := book.referrals[referred].(status := Qualified, qualified := true)]
                                 else book.referrals)
  {
    if referred in book.referrals && book.referrals[referred].referrer in accounts {
      var best := DirectRule(rules, now, accounts[book.referrals[referred].referrer]);
      assert best.Some? ==> Offers(best.value, VerificationApproved, now, accounts[book.referrals[referred].referrer]);
    }
  }

  /** Its event is recorded all the same: skipped if nothing was on offer, pending if the offer is worth
      nothing; an event known before keeps its status. */
  lemma UnrewardedIsRecorded(book: Book, referred: Id, accounts: map<Id, Account>, rules: seq<Version>, now: int, later: int)
    requires referred in book.referrals && book.referrals[referred].status !in {Rejected, Flagged}
    requires !Succeeds(book, referred, accounts, rules, now, later)
    ensures var referral, after := book.referrals[referred], Reward(book, referred, accounts, rules, now, later).0;
      var event := EventKey(VerificationApproved, referral.id);
      var offered := referral.referrer in accounts && exists v :: v in rules && Offers(v, VerificationApproved, now, accounts[referral.referrer]);
      && after.events.Keys == book.events.Keys + {event} && after.events - {event} == book.events - {event}
      && after.events[event].status == (if event in book.events then book.events[event].status else if offered then EventPending else EventSkipped)
  {
    var referral := book.referrals[referred];
    if referral.referrer in accounts {
      var account := accounts[referral.referrer];
      var best := DirectRule(rules, now, account);
      assert best.Some? ==> Offers(best.value, VerificationApproved, now, account);
      assert forall v :: v in rules && Offers(v, VerificationApproved, now, account) ==> InForce(v, VerificationApproved, now, account);
    }
  }
}
