/** Three derivations of where someone sits in the hierarchy - registration, the backfill and
    the legacy coordinator migration - proved to agree, and the dashboard roll-up. */
module Ancestry {
  import opened Prelude
  import opened Territory
  import opened EdgeGovernance

  // ---------- registration ----------

  datatype MemberInput = MemberInput(stateId: Id, lgaId: Id, wardId: Id, unitId: Id)

  datatype MemberAncestry = MemberAncestry(stateId: Id, district: Id, federal: Id, constituency: Id, lgaId: Id, wardId: Id, unitId: Id)

  datatype AncestryError = AncestryOutsideOgun | AncestryInvalidTerritory | AncestryIncomplete | AncestryEdgeUnreviewed

  predicate LgaIsOgun(g: Graph, lgaId: Id) { lgaId in g.lgas && g.lgas[lgaId].stateId == OGUN }

  /** The polling unit belongs to the selected ward and LGA. */
  predicate UnitMatches(g: Graph, input: MemberInput) {
    && input.unitId in g.units && input.wardId in g.wards
    && g.units[input.unitId].wardId == input.wardId
    && g.units[input.unitId].lgaId == input.lgaId
    && g.units[input.unitId].stateId == OGUN
    && g.wards[input.wardId].lgaId == input.lgaId
  }

  function DeriveMemberAncestry(g: Graph, input: MemberInput): Result<MemberAncestry, AncestryError> {
    if input.stateId != OGUN then Err(AncestryOutsideOgun)
    else if input.wardId !in g.wards then Err(AncestryInvalidTerritory)
    else
      var ward := g.wards[input.wardId];
      if ward.lgaId != input.lgaId then Err(AncestryInvalidTerritory)
      else if ward.stateId != OGUN || !LgaIsOgun(g, ward.lgaId) then Err(AncestryInvalidTerritory)
      else if !UnitMatches(g, input) then Err(AncestryInvalidTerritory)
      else if !IsOperational(ward) then Err(AncestryEdgeUnreviewed)
      else
        match Resolve(g, Scope(OGUN, None, None, None, Some(input.wardId), Some(input.unitId)))
        case Err(IncompleteCommandHierarchy) => Err(AncestryIncomplete)
        case Err(OutsideOgun) => Err(AncestryOutsideOgun)
        case Err(InvalidTerritory) => Err(AncestryInvalidTerritory)
        case Ok(t) =>
          if t.constituency.None? || t.federal.None? || t.district.None? then Err(AncestryIncomplete)
          else Ok(MemberAncestry(OGUN, t.district.value, t.federal.value, t.constituency.value,
                                 input.lgaId, input.wardId, input.unitId))
  }

  // ---------- the backfill ----------

  datatype VoterProfile = VoterProfile(stateId: Id, lgaId: Id, wardId: Id, unitId: Id,
                                       district: Option<Id>, federal: Option<Id>, constituency: Option<Id>)

  datatype Bucket = AlreadyCorrect | EligibleNullAncestry | ConflictingAncestry
                  | IncompleteGraph | InferredEdgeUnreviewed | OutsideOgunBucket

  /** The constituency chain above a ward, as the one query with nested relations reads it. */
  function ChainOf(g: Graph, ward: Ward): Option<(Id, Id, Id)> {
    if ward.edge.None? || ward.edge.value !in g.constituencies then None
    else
      var c := g.constituencies[ward.edge.value];
      if c.stateId != OGUN || c.federalId.None? || c.federalId.value !in g.federals then None
      else if g.federals[c.federalId.value].stateId != OGUN then None
      else Some((ward.edge.value, c.federalId.value, g.federals[c.federalId.value].districtId))
  }

  function Stored(p: VoterProfile): (Option<Id>, Option<Id>, Option<Id>) { (p.constituency, p.federal, p.district) }

  function Classify(g: Graph, p: VoterProfile): Bucket {
    if p.stateId != OGUN then OutsideOgunBucket
    else if p.wardId !in g.wards || g.wards[p.wardId].stateId != OGUN then IncompleteGraph
    else if g.wards[p.wardId].lgaId != p.lgaId then IncompleteGraph
    else if !BackfillOperational(g.wards[p.wardId]) then InferredEdgeUnreviewed
    else
      match ChainOf(g, g.wards[p.wardId])
      case None => IncompleteGraph
      case Some((c, f, d)) =>
        if Stored(p) == (Some(c), Some(f), Some(d)) then AlreadyCorrect
        else if Stored(p) == (None, None, None) then EligibleNullAncestry
        else ConflictingAncestry
  }

  predicate NeedsRepair(g: Graph, p: VoterProfile) { Classify(g, p) in {EligibleNullAncestry, ConflictingAncestry} }

  function Repaired(g: Graph, p: VoterProfile): VoterProfile {
    if !NeedsRepair(g, p) then p
    else
      var (c, f, d) := ChainOf(g, g.wards[p.wardId]).value;
      p.(constituency := Some(c), federal := Some(f), district := Some(d))
  }

  datatype Finding = Finding(profileId: Id, bucket: Bucket)

  datatype Report = Report(totalExamined: nat, alreadyCorrect: nat, eligibleNull: nat, conflicting: nat,
                           incomplete: nat, unreviewed: nat, outside: nat, wouldChange: nat, changed: nat)

  function Tally(findings: seq<Finding>, bucket: Bucket): nat {
    if findings == [] then 0
    else Tally(findings[..|findings| - 1], bucket) + (if findings[|findings| - 1].bucket == bucket then 1 else 0)
  }

  lemma {:induction false} BucketsPartition(findings: seq<Finding>)
    ensures Tally(findings, AlreadyCorrect) + Tally(findings, EligibleNullAncestry) + Tally(findings, ConflictingAncestry)
      + Tally(findings, IncompleteGraph) + Tally(findings, InferredEdgeUnreviewed) + Tally(findings, OutsideOgunBucket)
      == |findings|
  {
    if findings != [] { BucketsPartition(findings[..|findings| - 1]); }
  }

  /** One finding a profile, in order. */
  predicate FindingsFor(g: Graph, profiles: map<Id, VoterProfile>, ids: seq<Id>, findings: seq<Finding>) {
    && |findings| == |ids|
    && forall i :: 0 <= i < |ids| ==> ids[i] in profiles && findings[i] == Finding(ids[i], Classify(g, profiles[ids[i]]))
  }

  predicate ChangeIsDue(g: Graph, profiles: map<Id, VoterProfile>, change: (Id, (Id, Id, Id))) {
    && change.0 in profiles && NeedsRepair(g, profiles[change.0])
    && ChainOf(g, g.wards[profiles[change.0].wardId]) == Some(change.1)
  }

  predicate Planned(changes: seq<(Id, (Id, Id, Id))>, id: Id) {
    exists k :: 0 <= k < |changes| && changes[k].0 == id
  }

  lemma PlannedSnoc(changes: seq<(Id, (Id, Id, Id))>, change: (Id, (Id, Id, Id)))
    ensures forall id :: Planned(changes, id) ==> Planned(changes + [change], id)
    ensures Planned(changes + [change], change.0)
  {
    var more := changes + [change];
    assert more[|changes|] == change;
    forall id | Planned(changes, id) ensures Planned(more, id) {
      var k :| 0 <= k < |changes| && changes[k].0 == id;
      assert more[k].0 == id;
    }
  }

  /** The profile's ward, in Ogun and under the profile's LGA. */
  predicate WardFits(g: Graph, p: VoterProfile) {
    p.stateId == OGUN && p.wardId in g.wards && g.wards[p.wardId].stateId == OGUN && g.wards[p.wardId].lgaId == p.lgaId
  }

  /** An inferred edge that no review approves as it stands. */
  predicate EdgeUnreviewed(w: Ward) { w.inferred && (w.approvedFor.None? || w.approvedFor != w.edge) }

  /** The graph places the profile under this constituency, federal constituency and district. */
  predicate Placed(g: Graph, p: VoterProfile, c: Id, f: Id, d: Id) {
    && WardFits(g, p) && !EdgeUnreviewed(g.wards[p.wardId]) && g.wards[p.wardId].edge == Some(c)
    && c in g.constituencies && g.constituencies[c] == Constituency(OGUN, Some(f))
    && f in g.federals && g.federals[f] == Federal(OGUN, d)
  }

  ghost predicate IsPlaced(g: Graph, p: VoterProfile) { exists c, f, d :: Placed(g, p, c, f, d) }

  predicate NothingStored(p: VoterProfile) { p.constituency.None? && p.federal.None? && p.district.None? }

  ghost predicate StoredAsPlaced(g: Graph, p: VoterProfile) {
    exists c, f, d :: Placed(g, p, c, f, d) && p.constituency == Some(c) && p.federal == Some(f) && p.district == Some(d)
  }

  /** What each bucket says of a profile. */
  ghost predicate Means(bucket: Bucket, g: Graph, p: VoterProfile) {
    match bucket
    case OutsideOgunBucket => p.stateId != OGUN
    case InferredEdgeUnreviewed => WardFits(g, p) && EdgeUnreviewed(g.wards[p.wardId])
    case IncompleteGraph => p.stateId == OGUN && !IsPlaced(g, p) && !(WardFits(g, p) && EdgeUnreviewed(g.wards[p.wardId]))
    case AlreadyCorrect => StoredAsPlaced(g, p)
    case EligibleNullAncestry => IsPlaced(g, p) && NothingStored(p)
    case ConflictingAncestry => IsPlaced(g, p) && !NothingStored(p) && !StoredAsPlaced(g, p)
  }

  lemma PlacedIsChain(g: Graph, p: VoterProfile, c: Id, f: Id, d: Id)
    ensures Placed(g, p, c, f, d) <==>
      WardFits(g, p) && BackfillOperational(g.wards[p.wardId]) && ChainOf(g, g.wards[p.wardId]) == Some((c, f, d))
  {
  }

  lemma PlacedIff(g: Graph, p: VoterProfile)
    ensures IsPlaced(g, p) <==> WardFits(g, p) && BackfillOperational(g.wards[p.wardId]) && ChainOf(g, g.wards[p.wardId]).Some?
    ensures StoredAsPlaced(g, p) <==> Classify(g, p) == AlreadyCorrect
  {
    if WardFits(g, p) && ChainOf(g, g.wards[p.wardId]).Some? {
      var (c, f, d) := ChainOf(g, g.wards[p.wardId]).value;
      PlacedIsChain(g, p, c, f, d);
    }
  }

  /** Each profile falls into the one bucket that is true of it. */
  lemma BucketIsMeaning(g: Graph, p: VoterProfile, bucket: Bucket)
    ensures Means(bucket, g, p) <==> bucket == Classify(g, p)
  {
    PlacedIff(g, p);
  }

  /** The row after a repair: the ancestors its placement has, or as it was. */
  ghost predicate IsRepairOf(g: Graph, p: VoterProfile, q: VoterProfile) {
    && (forall c, f, d :: Placed(g, p, c, f, d) ==> q == p.(constituency := Some(c), federal := Some(f), district := Some(d)))
    && (!IsPlaced(g, p) ==> q == p)
  }

  lemma RepairedIsRepair(g: Graph, p: VoterProfile)
    ensures IsRepairOf(g, p, Repaired(g, p))
  {
    PlacedIff(g, p);
    forall c, f, d | Placed(g, p, c, f, d) ensures Repaired(g, p) == p.(constituency := Some(c), federal := Some(f), district := Some(d)) {
      PlacedIsChain(g, p, c, f, d);
    }
  }

  function InBucket(findings: seq<Finding>, bucket: Bucket): set<nat> {
    set i: nat | i < |findings| && findings[i].bucket == bucket
  }

  lemma {:induction false} TallyCounts(findings: seq<Finding>, bucket: Bucket)
    ensures Tally(findings, bucket) == |InBucket(findings, bucket)|
  {
    if findings != [] {
      var n := |findings| - 1;
      TallyCounts(findings[..n], bucket);
      assert InBucket(findings, bucket) == InBucket(findings[..n], bucket) + (if findings[n].bucket == bucket then {n} else {});
    }
  }

  predicate Counted(report: Report, findings: seq<Finding>) {
    && report.alreadyCorrect == |InBucket(findings, AlreadyCorrect)|
    && report.eligibleNull == |InBucket(findings, EligibleNullAncestry)|
    && report.conflicting == |InBucket(findings, ConflictingAncestry)|
    && report.incomplete == |InBucket(findings, IncompleteGraph)|
    && report.unreviewed == |InBucket(findings, InferredEdgeUnreviewed)|
    && report.outside == |InBucket(findings, OutsideOgunBucket)|
  }

  class MemberTable {
    var profiles: map<Id, VoterProfile>

    constructor (profiles: map<Id, VoterProfile>)
      ensures this.profiles == profiles
    {
      this.profiles := profiles;
    }

    /** `order` lists every profile once. Each gets one finding, and the report counts them by what is true
        of the profile; only an applying run writes. */
    method RunBackfill(g: Graph, order: seq<Id>, apply: bool) returns (report: Report, findings: seq<Finding>)
      requires Distinct(order) && forall id :: id in order <==> id in profiles
      modifies this
      ensures |findings| == |order|
      ensures forall i :: 0 <= i < |order| ==>
        findings[i].profileId == order[i] && Means(findings[i].bucket, g, old(profiles)[order[i]])
      ensures profiles.Keys == old(profiles).Keys
      ensures apply ==> forall id :: id in profiles ==> IsRepairOf(g, old(profiles)[id], profiles[id])
      ensures !apply ==> profiles == old(profiles)
      ensures report.totalExamined == |order| && Counted(report, findings)
      ensures report.totalExamined == report.alreadyCorrect + report.eligibleNull + report.conflicting
        + report.incomplete + report.unreviewed + report.outside
      ensures report.wouldChange == report.eligibleNull + report.conflicting
      ensures report.changed == if apply then report.wouldChange else 0
    {
      var changes;
      findings, changes := Examine(g, order);
      BucketsPartition(findings);
      report := Report(|order|, Tally(findings, AlreadyCorrect), Tally(findings, EligibleNullAncestry),
                       Tally(findings, ConflictingAncestry), Tally(findings, IncompleteGraph),
                       Tally(findings, InferredEdgeUnreviewed), Tally(findings, OutsideOgunBucket), |changes|, 0);
      FindingsMean(g, order, findings);
      if apply {
        WriteChanges(g, changes);
        report := report.(changed := |changes|);
        forall id | id in profiles ensures IsRepairOf(g, old(profiles)[id], profiles[id]) { RepairedIsRepair(g, old(profiles)[id]); }
      }
    }

    lemma FindingsMean(g: Graph, order: seq<Id>, findings: seq<Finding>)
      requires FindingsFor(g, profiles, order, findings)
      ensures forall i :: 0 <= i < |order| ==> Means(findings[i].bucket, g, profiles[order[i]])
      ensures forall bucket :: Tally(findings, bucket) == |InBucket(findings, bucket)|
    {
      forall i | 0 <= i < |order| ensures Means(findings[i].bucket, g, profiles[order[i]]) {
        BucketIsMeaning(g, profiles[order[i]], findings[i].bucket);
      }
      forall bucket ensures Tally(findings, bucket) == |InBucket(findings, bucket)| { TallyCounts(findings, bucket); }
    }

    method Examine(g: Graph, order: seq<Id>) returns (findings: seq<Finding>, changes: seq<(Id, (Id, Id, Id))>)
      requires forall id :: id in order <==> id in profiles
      ensures FindingsFor(g, profiles, order, findings)
      ensures |changes| == Tally(findings, EligibleNullAncestry) + Tally(findings, ConflictingAncestry)
      ensures forall k :: 0 <= k < |changes| ==> ChangeIsDue(g, profiles, changes[k])
      ensures forall id :: id in profiles && NeedsRepair(g, profiles[id]) ==> Planned(changes, id)
    {
      findings, changes := [], [];
      for n := 0 to |order|
        invariant FindingsFor(g, profiles, order[..n], findings)
        invariant |changes| == Tally(findings, EligibleNullAncestry) + Tally(findings, ConflictingAncestry)
        invariant forall k :: 0 <= k < |changes| ==> ChangeIsDue(g, profiles, changes[k])
        invariant forall id :: id in order[..n] && NeedsRepair(g, profiles[id]) ==> Planned(changes, id)
      {
        var p := profiles[order[n]];
        findings, changes := Record(g, order[n], p, findings, changes);
        assert order[..n + 1] == order[..n] + [order[n]];
      }
      assert order[..|order|] == order;
    }

    method Record(g: Graph, id: Id, p: VoterProfile, findings: seq<Finding>, changes: seq<(Id, (Id, Id, Id))>)
      returns (findings': seq<Finding>, changes': seq<(Id, (Id, Id, Id))>)
      requires id in profiles && profiles[id] == p
      requires |changes| == Tally(findings, EligibleNullAncestry) + Tally(findings, ConflictingAncestry)
      requires forall k :: 0 <= k < |changes| ==> ChangeIsDue(g, profiles, changes[k])
      ensures findings' == findings + [Finding(id, Classify(g, p))]
      ensures |changes'| == Tally(findings', EligibleNullAncestry) + Tally(findings', ConflictingAncestry)
      ensures forall k :: 0 <= k < |changes'| ==> ChangeIsDue(g, profiles, changes'[k])
      ensures forall other :: Planned(changes, other) ==> Planned(changes', other)
      ensures NeedsRepair(g, p) ==> Planned(changes', id)
    {
      var bucket := Classify(g, p);
      findings', changes' := findings + [Finding(id, bucket)], changes;
      assert findings'[..|findings|] == findings;
      if bucket == EligibleNullAncestry || bucket == ConflictingAncestry {
        var change := (id, ChainOf(g, g.wards[p.wardId]).value);
        changes' := changes + [change];
        PlannedSnoc(changes, change);
      }
    }

    /** Updates keyed by primary key with the derived values. */
    method WriteChanges(g: Graph, changes: seq<(Id, (Id, Id, Id))>)
      requires forall k :: 0 <= k < |changes| ==> ChangeIsDue(g, profiles, changes[k])
      requires forall id :: id in profiles && NeedsRepair(g, profiles[id]) ==> Planned(changes, id)
      modifies this
      ensures profiles.Keys == old(profiles).Keys
      ensures forall id :: id in profiles ==> profiles[id] == Repaired(g, old(profiles)[id])
    {
      for n := 0 to |changes|
        invariant profiles.Keys == old(profiles).Keys
        invariant forall k :: 0 <= k < n ==> profiles[changes[k].0] == Repaired(g, old(profiles)[changes[k].0])
        invariant forall id :: id in profiles ==>
          profiles[id] == old(profiles)[id] || profiles[id] == Repaired(g, old(profiles)[id])
      {
        var (id, (c, f, d)) := changes[n];
        assert ChangeIsDue(g, old(profiles), changes[n]);
        profiles := profiles[id := profiles[id].(constituency := Some(c), federal := Some(f), district := Some(d))];
      }
    }
  }

  // ---------- registration and backfill agree ----------

  function ProfileOf(a: MemberAncestry): VoterProfile {
    VoterProfile(a.stateId, a.lgaId, a.wardId, a.unitId, Some(a.district), Some(a.federal), Some(a.constituency))
  }

  /** Whatever registration writes, the backfill leaves alone. */
  lemma RegistrationIsAlreadyCorrect(g: Graph, input: MemberInput)
    requires DeriveMemberAncestry(g, input).Ok?
    ensures Classify(g, ProfileOf(DeriveMemberAncestry(g, input).value)) == AlreadyCorrect
  {
    ResolvedIsOnGraph(g, Scope(OGUN, None, None, None, Some(input.wardId), Some(input.unitId)));
  }

  /** A second run finds nothing to change, for every stored profile. */
  lemma SecondBackfillChangesNothing(g: Graph, p: VoterProfile)
    ensures !NeedsRepair(g, Repaired(g, p)) && Repaired(g, Repaired(g, p)) == Repaired(g, p)
    ensures NeedsRepair(g, p) ==> Classify(g, Repaired(g, p)) == AlreadyCorrect
  {
  }

  predicate ChainReachesOgun(g: Graph, ward: Ward) {
    var chain := ChainOf(g, ward);
    chain.Some? && chain.value.2 in g.districts && g.districts[chain.value.2].stateId == OGUN
  }

  /** Registration accepts exactly the profiles whose polling unit matches and which the backfill
      can place, under an Ogun LGA and district; then both derive the same chain. */
  lemma RegistrationVersusBackfill(g: Graph, p: VoterProfile)
    ensures var input := MemberInput(p.stateId, p.lgaId, p.wardId, p.unitId);
      var derived := DeriveMemberAncestry(g, input);
      && (derived.Ok? <==>
           && UnitMatches(g, input)
           && Classify(g, p) in {AlreadyCorrect, EligibleNullAncestry, ConflictingAncestry}
           && LgaIsOgun(g, p.lgaId) && g.ogunStates == 1 && ChainReachesOgun(g, g.wards[p.wardId]))
      && (derived.Ok? ==> Repaired(g, p) == ProfileOf(derived.value))
  {
    var input := Scope(OGUN, None, None, None, Some(p.wardId), Some(p.unitId));
    if Resolve(g, input).Ok? {
      ResolvedIsOnGraph(g, input);
    }
    if UnitMatches(g, MemberInput(p.stateId, p.lgaId, p.wardId, p.unitId)) && p.stateId == OGUN {
      var ward := g.wards[p.wardId];
      if ward.stateId == OGUN && g.ogunStates == 1 && ChainReachesOgun(g, ward) {
        var (c, f, d) := ChainOf(g, ward).value;
        OnGraphResolves(g, input, Scope(OGUN, Some(d), Some(f), Some(c), Some(p.wardId), Some(p.unitId)));
      }
    }
  }

  /** The ward, its LGA and the polling unit named fit together, in Ogun. */
  predicate PlaceFits(g: Graph, input: MemberInput) {
    && input.stateId == OGUN && UnitMatches(g, input)
    && g.wards[input.wardId].stateId == OGUN && input.lgaId in g.lgas && g.lgas[input.lgaId].stateId == OGUN
  }

  /** Why registration refuses: another state; a place whose inferred edge no review approves; an edge or
      federal constituency that is missing; and for everything else an invalid territory. */
  lemma WhyRegistrationRefuses(g: Graph, input: MemberInput)
    ensures var derived := DeriveMemberAncestry(g, input);
      && (derived == Err(AncestryOutsideOgun) <==> input.stateId != OGUN)
      && (derived == Err(AncestryEdgeUnreviewed) <==> PlaceFits(g, input) && EdgeUnreviewed(g.wards[input.wardId]))
      && (derived == Err(AncestryIncomplete) <==>
           && PlaceFits(g, input) && !EdgeUnreviewed(g.wards[input.wardId])
           && var edge := g.wards[input.wardId].edge;
           (edge.None? || (edge.value in g.constituencies && g.constituencies[edge.value].stateId == OGUN
                           && g.constituencies[edge.value].federalId.None?)))
      && (derived.Ok? ==> PlaceFits(g, input) && !EdgeUnreviewed(g.wards[input.wardId]))
  {
    if PlaceFits(g, input) {
      var scope := Scope(OGUN, None, None, None, Some(input.wardId), Some(input.unitId));
      var edge := g.wards[input.wardId].edge;
      WhyRefused(g, scope);
      assert forall w, c :: BreaksOff(g, scope, w, c) ==> w == Some(input.wardId) && c == edge;
      assert BreaksOff(g, scope, Some(input.wardId), edge) <==>
        edge.None? || (edge.value in g.constituencies && g.constituencies[edge.value].stateId == OGUN && g.constituencies[edge.value].federalId.None?);
      if Resolve(g, scope).Ok? { ResolvedIsOnGraph(g, scope); }
    }
  }

  // ---------- legacy coordinator assignments ----------

  predicate MatchesDeclared(declared: Option<Id>, canonical: Id) { declared.None? || declared.value == canonical }

  function DistrictAbove(g: Graph, federalId: Option<Id>): Option<Id> {
    if federalId.Some? && federalId.value in g.federals then Some(g.federals[federalId.value].districtId) else None
  }

  /** The legacy migration's derivation, which trusts the row's own parents and the relations. */
  function DeriveCoordinatorAssignment(g: Graph, level: Level, legacy: Scope): Option<Profile> {
    if legacy.stateId != OGUN then None
    else match level
      case SenatorialDistrict =>
        if legacy.district.None? || legacy.district.value !in g.districts
          || g.districts[legacy.district.value].stateId != OGUN then None
        else Some(Profile(level, Scope(OGUN, legacy.district, None, None, None, None)))
      case FederalConstituency =>
        if legacy.federal.None? || legacy.federal.value !in g.federals then None
        else
          var f := g.federals[legacy.federal.value];
          if f.stateId != OGUN || !MatchesDeclared(legacy.district, f.districtId) then None
          else Some(Profile(level, Scope(OGUN, Some(f.districtId), legacy.federal, None, None, None)))
      case StateConstituency =>
        if legacy.constituency.None? || legacy.constituency.value !in g.constituencies then None
        else
          var c := g.constituencies[legacy.constituency.value];
          var district := DistrictAbove(g, c.federalId);
          if c.stateId != OGUN || district.None? || !MatchesDeclared(legacy.federal, c.federalId.value)
            || !MatchesDeclared(legacy.district, district.value) then None
          else Some(Profile(level, Scope(OGUN, district, c.federalId, legacy.constituency, None, None)))
      case WardLevel => DeriveFromWard(g, level, legacy, legacy.ward)
      case PollingUnitLevel =>
        if legacy.unit.None? || legacy.unit.value !in g.units || g.units[legacy.unit.value].stateId != OGUN
          || !MatchesDeclared(legacy.ward, g.units[legacy.unit.value].wardId) then None
        else DeriveFromWard(g, level, legacy, Some(g.units[legacy.unit.value].wardId))
  }

  function DeriveFromWard(g: Graph, level: Level, legacy: Scope, wardId: Option<Id>): Option<Profile> {
    if wardId.None? || wardId.value !in g.wards || g.wards[wardId.value].stateId != OGUN then None
    else
      var edge := g.wards[wardId.value].edge;
      if edge.None? || edge.value !in g.constituencies then None
      else
        var federalId := g.constituencies[edge.value].federalId;
        var district := DistrictAbove(g, federalId);
        if district.None? || !MatchesDeclared(legacy.constituency, edge.value)
          || !MatchesDeclared(legacy.federal, federalId.value) || !MatchesDeclared(legacy.district, district.value) then None
        else Some(Profile(level, Scope(OGUN, district, federalId, edge, wardId,
                                       if level == PollingUnitLevel then legacy.unit else None)))
  }

  /** On every graph, the live validator accepts the ids cut to the level exactly when the
      legacy derivation succeeds with an assignment that lies on the Ogun graph. */
  lemma LegacyDerivationIsValidation(g: Graph, level: Level, legacy: Scope, p: Profile)
    ensures ValidateCoordinatorAssignment(g, level, CutTo(legacy, level)) == Ok(p) <==>
      DeriveCoordinatorAssignment(g, level, legacy) == Some(p) && OnGraph(g, p.scope)
  {
    var input := CutTo(legacy, level);
    if ValidateCoordinatorAssignment(g, level, input) == Ok(p) {
      ValidatedProfile(g, level, input);
      ResolvedIsOnGraph(g, input);
      LegacyFromValidated(g, level, legacy, p);
    }
    if DeriveCoordinatorAssignment(g, level, legacy) == Some(p) && OnGraph(g, p.scope) {
      LegacyCompletes(g, level, legacy, p);
      OnGraphResolves(g, input, p.scope);
    }
  }

  lemma LegacyFromValidated(g: Graph, level: Level, legacy: Scope, p: Profile)
    requires OnGraph(g, p.scope) && Completes(CutTo(legacy, level), p.scope) && p.level == level
    requires forall l: Level :: Key(p.scope, l).Some? <==> Rank(l) >= Rank(level)
    ensures DeriveCoordinatorAssignment(g, level, legacy) == Some(p)
  {
    var t := p.scope;
    assert Key(t, SenatorialDistrict) == t.district && Key(t, FederalConstituency) == t.federal;
    assert Key(t, StateConstituency) == t.constituency && Key(t, WardLevel) == t.ward && Key(t, PollingUnitLevel) == t.unit;
  }

  lemma LegacyCompletes(g: Graph, level: Level, legacy: Scope, p: Profile)
    requires DeriveCoordinatorAssignment(g, level, legacy) == Some(p)
    ensures Completes(CutTo(legacy, level), p.scope) && p.level == level && CutTo(p.scope, level) == p.scope
    ensures Key(p.scope, level).Some? && !NamesBelow(CutTo(legacy, level), level)
  {
  }

  /** A graph whose Ogun rows have Ogun parents all the way up. */
  predicate OgunClosed(g: Graph) {
    && g.ogunStates == 1
    && (forall u :: u in g.units && g.units[u].stateId == OGUN ==>
         g.units[u].wardId in g.wards && g.wards[g.units[u].wardId].stateId == OGUN)
    && (forall w :: w in g.wards && g.wards[w].stateId == OGUN && g.wards[w].edge.Some? ==>
         g.wards[w].edge.value in g.constituencies && g.constituencies[g.wards[w].edge.value].stateId == OGUN)
    && (forall c :: c in g.constituencies && g.constituencies[c].stateId == OGUN && g.constituencies[c].federalId.Some? ==>
         g.constituencies[c].federalId.value in g.federals
         && g.federals[g.constituencies[c].federalId.value].stateId == OGUN)
    && (forall f :: f in g.federals && g.federals[f].stateId == OGUN ==>
         g.federals[f].districtId in g.districts && g.districts[g.federals[f].districtId].stateId == OGUN)
  }

  /** On an Ogun-closed graph the two derivations are the same partial function. */
  lemma LegacyDerivationOnClosedGraph(g: Graph, level: Level, legacy: Scope)
    requires OgunClosed(g)
    ensures DeriveCoordinatorAssignment(g, level, legacy) ==
      match ValidateCoordinatorAssignment(g, level, CutTo(legacy, level)) case Ok(p) => Some(p) case Err(_) => None
  {
    var derived := DeriveCoordinatorAssignment(g, level, legacy);
    var validated := ValidateCoordinatorAssignment(g, level, CutTo(legacy, level));
    if derived.Some? {
      LegacyDerivationIsValidation(g, level, legacy, derived.value);
    } else if validated.Ok? {
      LegacyDerivationIsValidation(g, level, legacy, validated.value);
    }
  }

  // ---------- dashboard roll-up ----------

  /** Where a member or a polling unit is; a polling unit's `unitId` is its own id. */
  datatype Place = Place(stateId: Id, wardId: Id, unitId: Id)

  datatype DashboardLevel = WholeState | Command(level: Level)

  /** The one territory of a level that a place counts under, as the scope builders select it. */
  function ScopeKey(g: Graph, p: Place, level: DashboardLevel): Option<Id> {
    match level
    case WholeState => Some(p.stateId)
    case Command(PollingUnitLevel) => Some(p.unitId)
    case Command(WardLevel) => Some(p.wardId)
    case Command(StateConstituency) => OperationalEdge(g, p)
    case Command(FederalConstituency) => FederalOf(g, OperationalEdge(g, p))
    case Command(SenatorialDistrict) => DistrictAbove(g, FederalOf(g, OperationalEdge(g, p)))
  }

  predicate InScope(g: Graph, p: Place, level: DashboardLevel, id: Id) { ScopeKey(g, p, level) == Some(id) }

  function OperationalEdge(g: Graph, p: Place): Option<Id> {
    if p.wardId in g.wards && FilterSelects(g.wards[p.wardId]) then g.wards[p.wardId].edge else None
  }

  function FederalOf(g: Graph, constituency: Option<Id>): Option<Id> {
    if constituency.Some? && constituency.value in g.constituencies then g.constituencies[constituency.value].federalId else None
  }

  function ChildrenOf(g: Graph, level: DashboardLevel, id: Id): set<Id> {
    match level
    case WholeState => set d | d in g.districts && g.districts[d].stateId == id
    case Command(SenatorialDistrict) => set f | f in g.federals && g.federals[f].districtId == id
    case Command(FederalConstituency) => set c | c in g.constituencies && g.constituencies[c].federalId == Some(id)
    case Command(StateConstituency) => set w | w in g.wards && g.wards[w].edge == Some(id)
    case Command(WardLevel) => set u | u in g.units && g.units[u].wardId == id
    case Command(PollingUnitLevel) => {}
  }

  function Selected(g: Graph, places: map<Id, Place>, level: DashboardLevel, id: Id): set<Id> {
    set m | m in places && InScope(g, places[m], level, id)
  }

  function Count(g: Graph, places: map<Id, Place>, level: DashboardLevel, id: Id): nat { |Selected(g, places, level, id)| }

  ghost function Pick(ids: set<Id>): (id: Id)
    requires ids != {}
    ensures id in ids
  {
    var id :| id in ids;
    id
  }

  ghost function SumOver(g: Graph, places: map<Id, Place>, level: DashboardLevel, ids: set<Id>): nat {
    if ids == {} then 0
    else Count(g, places, level, Pick(ids)) + SumOver(g, places, level, ids - {Pick(ids)})
  }

  predicate InAny(g: Graph, p: Place, level: DashboardLevel, ids: set<Id>) {
    var key := ScopeKey(g, p, level);
    key.Some? && key.value in ids
  }

  function SelectedAny(g: Graph, places: map<Id, Place>, level: DashboardLevel, ids: set<Id>): set<Id> {
    set m | m in places && InAny(g, places[m], level, ids)
  }

  /** No place is in scope of two territories of one level, so a sum of counts is one count. */
  lemma {:induction false} SumIsCount(g: Graph, places: map<Id, Place>, level: DashboardLevel, ids: set<Id>)
    ensures SumOver(g, places, level, ids) == |SelectedAny(g, places, level, ids)|
    decreases |ids|
  {
    if ids == {} {
      assert SelectedAny(g, places, level, ids) == {};
    } else {
      var id := Pick(ids);
      SumIsCount(g, places, level, ids - {id});
      SplitOff(g, places, level, ids, id);
    }
  }

  lemma SplitOff(g: Graph, places: map<Id, Place>, level: DashboardLevel, ids: set<Id>, id: Id)
    requires id in ids
    ensures |SelectedAny(g, places, level, ids)| ==
      Count(g, places, level, id) + |SelectedAny(g, places, level, ids - {id})|
  {
    var one, rest := Selected(g, places, level, id), SelectedAny(g, places, level, ids - {id});
    assert one !! rest;
    assert SelectedAny(g, places, level, ids) == one + rest;
  }

  /** Each senatorial count is the sum over its federal constituencies. */
  lemma DistrictRollsUp(g: Graph, places: map<Id, Place>, id: Id)
    ensures Count(g, places, Command(SenatorialDistrict), id) ==
      SumOver(g, places, Command(FederalConstituency), ChildrenOf(g, Command(SenatorialDistrict), id))
  {
    var children := ChildrenOf(g, Command(SenatorialDistrict), id);
    SumIsCount(g, places, Command(FederalConstituency), children);
    assert Selected(g, places, Command(SenatorialDistrict), id) == SelectedAny(g, places, Command(FederalConstituency), children);
  }

  /** Each federal count is the sum over its state constituencies. */
  lemma FederalRollsUp(g: Graph, places: map<Id, Place>, id: Id)
    ensures Count(g, places, Command(FederalConstituency), id) ==
      SumOver(g, places, Command(StateConstituency), ChildrenOf(g, Command(FederalConstituency), id))
  {
    var children := ChildrenOf(g, Command(FederalConstituency), id);
    SumIsCount(g, places, Command(StateConstituency), children);
    assert Selected(g, places, Command(FederalConstituency), id) == SelectedAny(g, places, Command(StateConstituency), children);
  }

  /** Each state constituency's count is the sum over its operational wards; the wards shown
      beneath it add up to the same figure iff no place lies on one awaiting review. */
  lemma ConstituencyRollsUp(g: Graph, places: map<Id, Place>, id: Id)
    ensures var wards := ChildrenOf(g, Command(StateConstituency), id);
      var operational := set w | w in wards && FilterSelects(g.wards[w]);
      var count := Count(g, places, Command(StateConstituency), id);
      && count == SumOver(g, places, Command(WardLevel), operational)
      && count <= SumOver(g, places, Command(WardLevel), wards)
      && (count == SumOver(g, places, Command(WardLevel), wards) <==>
           forall m :: m in places && places[m].wardId in wards ==> FilterSelects(g.wards[places[m].wardId]))
  {
    var wards := ChildrenOf(g, Command(StateConstituency), id);
    var operational := set w | w in wards && FilterSelects(g.wards[w]);
    var own := Selected(g, places, Command(StateConstituency), id);
    var all := SelectedAny(g, places, Command(WardLevel), wards);
    SumIsCount(g, places, Command(WardLevel), operational);
    SumIsCount(g, places, Command(WardLevel), wards);
    assert own == SelectedAny(g, places, Command(WardLevel), operational);
    assert own <= all;
    SubsetCardinality(own, all);
    if own == all {
      forall m | m in places && places[m].wardId in wards ensures FilterSelects(g.wards[places[m].wardId]) {
        assert m in all;
      }
    }
  }

  /** One ward of constituency "c" whose inferred edge nobody has reviewed, and someone living there. */
  const UNREVIEWED := Graph(1, map[], map[], map[], map["c" := Constituency(OGUN, None)],
                            map["w" := Ward(OGUN, "l", Some("c"), true, Some("inferred"), None, None, None)], map[])
  const RESIDENT: map<Id, Place> := map["m" := Place(OGUN, "w", "u")]

  /** The constituency counts nobody, the wards listed beneath it count one. */
  lemma UnreviewedWardSplitsCounts()
    ensures Count(UNREVIEWED, RESIDENT, Command(StateConstituency), "c") == 0
    ensures ChildrenOf(UNREVIEWED, Command(StateConstituency), "c") == {"w"}
    ensures SumOver(UNREVIEWED, RESIDENT, Command(WardLevel), {"w"}) == 1
  {
    assert Selected(UNREVIEWED, RESIDENT, Command(StateConstituency), "c") == {};
    SumIsCount(UNREVIEWED, RESIDENT, Command(WardLevel), {"w"});
    assert SelectedAny(UNREVIEWED, RESIDENT, Command(WardLevel), {"w"}) == {"m"};
  }

  lemma SubsetCardinality<T>(a: set<T>, b: set<T>)
    requires a <= b
    ensures |a| <= |b| && (|a| == |b| <==> a == b)
  {
    assert b == a + (b - a);
  }

  /** Places counted in an Ogun district although recorded outside Ogun State. */
  function Strays(g: Graph, places: map<Id, Place>, districts: set<Id>): set<Id> {
    set m | m in places && InAny(g, places[m], Command(SenatorialDistrict), districts) && places[m].stateId != OGUN
  }

  /** The district total never exceeds the state count by more than the places recorded outside the
      state, so never exceeds it when there are none; it reaches that bound iff every place of the
      state is in some district's scope. */
  lemma StateBoundsDistricts(g: Graph, places: map<Id, Place>)
    ensures var districts := ChildrenOf(g, WholeState, OGUN);
      var total, bound := SumOver(g, places, Command(SenatorialDistrict), districts),
                          Count(g, places, WholeState, OGUN) + |Strays(g, places, districts)|;
      && total <= bound
      && (total == bound <==>
           forall m :: m in places && places[m].stateId == OGUN ==>
             InAny(g, places[m], Command(SenatorialDistrict), districts))
  {
    var districts := ChildrenOf(g, WholeState, OGUN);
    SumIsCount(g, places, Command(SenatorialDistrict), districts);
    var below, all := SelectedAny(g, places, Command(SenatorialDistrict), districts), Selected(g, places, WholeState, OGUN);
    var strays := Strays(g, places, districts);
    assert all !! strays && below <= all + strays;
    SubsetCardinality(below, all + strays);
    if below == all + strays {
      forall m | m in places && places[m].stateId == OGUN
        ensures InAny(g, places[m], Command(SenatorialDistrict), districts)
      {
        assert m in all;
      }
    }
  }
}
