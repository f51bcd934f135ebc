/** The Ogun command graph, the walk that resolves a territory through it, and the
    authority predicates that read the resolved record.

    Identifiers are non-empty strings; the source reads an empty one as absent, so an absent
    or empty identifier is `None` here. */
module Territory {
  import opened Prelude

  type Id = string

  const OGUN: Id := "ng-state-ogun"

  datatype Lga = Lga(stateId: Id)
  datatype District = District(stateId: Id)
  datatype Federal = Federal(stateId: Id, districtId: Id)
  datatype Constituency = Constituency(stateId: Id, federalId: Option<Id>)
  datatype Ward = Ward(stateId: Id, lgaId: Id, edge: Option<Id>, inferred: bool, basis: Option<string>,
                       approvedFor: Option<Id>, reviewedAt: Option<int>, release: Option<Id>)
  datatype PollingUnit = PollingUnit(stateId: Id, lgaId: Id, wardId: Id)

  datatype Graph = Graph(
    ogunStates: nat,
    lgas: map<Id, Lga>,
    districts: map<Id, District>,
    federals: map<Id, Federal>,
    constituencies: map<Id, Constituency>,
    wards: map<Id, Ward>,
    units: map<Id, PollingUnit>)

  /** An operational territory: what a caller names, and also what the walk returns. */
  datatype Scope = Scope(stateId: Id, district: Option<Id>, federal: Option<Id>, constituency: Option<Id>,
                         ward: Option<Id>, unit: Option<Id>)

  datatype Level = SenatorialDistrict | FederalConstituency | StateConstituency | WardLevel | PollingUnitLevel

  function Rank(level: Level): nat {
    match level
    case SenatorialDistrict => 5
    case FederalConstituency => 4
    case StateConstituency => 3
    case WardLevel => 2
    case PollingUnitLevel => 1
  }

  function Key(t: Scope, level: Level): Option<Id> {
    match level
    case SenatorialDistrict => t.district
    case FederalConstituency => t.federal
    case StateConstituency => t.constituency
    case WardLevel => t.ward
    case PollingUnitLevel => t.unit
  }

  datatype Refusal = InvalidTerritory | IncompleteCommandHierarchy | OutsideOgun

  // ---------- the walk ----------

  /** Fills an empty parent; refuses one that contradicts the graph. */
  function ClaimParent(existing: Option<Id>, value: Id): Result<Option<Id>, Refusal> {
    if existing.Some? && existing.value != value then Err(InvalidTerritory) else Ok(Some(value))
  }

  function ClimbFromUnit(g: Graph, t: Scope): Result<Scope, Refusal> {
    if t.unit.None? then Ok(t)
    else if t.unit.value !in g.units || g.units[t.unit.value].stateId != OGUN then Err(InvalidTerritory)
    else
      var ward :- ClaimParent(t.ward, g.units[t.unit.value].wardId);
      Ok(t.(ward := ward))
  }

  function ClimbFromWard(g: Graph, t: Scope): Result<Scope, Refusal> {
    if t.ward.None? then Ok(t)
    else if t.ward.value !in g.wards || g.wards[t.ward.value].stateId != OGUN then Err(InvalidTerritory)
    else if g.wards[t.ward.value].edge.None? then Err(IncompleteCommandHierarchy)
    else
      var constituency :- ClaimParent(t.constituency, g.wards[t.ward.value].edge.value);
      Ok(t.(constituency := constituency))
  }

  function ClimbFromConstituency(g: Graph, t: Scope): Result<Scope, Refusal> {
    if t.constituency.None? then Ok(t)
    else if t.constituency.value !in g.constituencies || g.constituencies[t.constituency.value].stateId != OGUN then
      Err(InvalidTerritory)
    else if g.constituencies[t.constituency.value].federalId.None? then Err(IncompleteCommandHierarchy)
    else
      var federal :- ClaimParent(t.federal, g.constituencies[t.constituency.value].federalId.value);
      Ok(t.(federal := federal))
  }

  function ClimbFromFederal(g: Graph, t: Scope): Result<Scope, Refusal> {
    if t.federal.None? then Ok(t)
    else if t.federal.value !in g.federals || g.federals[t.federal.value].stateId != OGUN then Err(InvalidTerritory)
    else
      var district :- ClaimParent(t.district, g.federals[t.federal.value].districtId);
      Ok(t.(district := district))
  }

  function CheckDistrict(g: Graph, t: Scope): Result<Scope, Refusal> {
    if t.district.Some? && (t.district.value !in g.districts || g.districts[t.district.value].stateId != OGUN)
    then Err(InvalidTerritory) else Ok(t)
  }

  function Resolve(g: Graph, input: Scope): Result<Scope, Refusal> {
    if input.stateId != OGUN then Err(OutsideOgun)
    else
      var t :- ClimbFromUnit(g, input);
      var t :- ClimbFromWard(g, t);
      var t :- ClimbFromConstituency(g, t);
      var t :- ClimbFromFederal(g, t);
      var t :- CheckDistrict(g, t);
      if g.ogunStates != 1 then Err(InvalidTerritory) else Ok(t)
  }

  /** The source's walk: one record, filled in place level by level. */
  method ResolveOperationalTerritory(g: Graph, input: Scope) returns (r: Result<Scope, Refusal>)
    ensures r == Resolve(g, input)
  {
    if input.stateId != OGUN {
      return Err(OutsideOgun);
    }
    var resolved := input;
    if resolved.unit.Some? {
      if resolved.unit.value !in g.units || g.units[resolved.unit.value].stateId != OGUN {
        return Err(InvalidTerritory);
      }
      var parent :- ClaimParent(resolved.ward, g.units[resolved.unit.value].wardId);
      resolved := resolved.(ward := parent);
    }
    if resolved.ward.Some? {
      if resolved.ward.value !in g.wards || g.wards[resolved.ward.value].stateId != OGUN {
        return Err(InvalidTerritory);
      }
      if g.wards[resolved.ward.value].edge.None? {
        return Err(IncompleteCommandHierarchy);
      }
      var parent :- ClaimParent(resolved.constituency, g.wards[resolved.ward.value].edge.value);
      resolved := resolved.(constituency := parent);
    }
    if resolved.constituency.Some? {
      if resolved.constituency.value !in g.constituencies ||
         g.constituencies[resolved.constituency.value].stateId != OGUN {
        return Err(InvalidTerritory);
      }
      if g.constituencies[resolved.constituency.value].federalId.None? {
        return Err(IncompleteCommandHierarchy);
      }
      var parent :- ClaimParent(resolved.federal, g.constituencies[resolved.constituency.value].federalId.value);
      resolved := resolved.(federal := parent);
    }
    if resolved.federal.Some? {
      if resolved.federal.value !in g.federals || g.federals[resolved.federal.value].stateId != OGUN {
        return Err(InvalidTerritory);
      }
      var parent :- ClaimParent(resolved.district, g.federals[resolved.federal.value].districtId);
      resolved := resolved.(district := parent);
    }
    if resolved.district.Some? {
      if resolved.district.value !in g.districts || g.districts[resolved.district.value].stateId != OGUN {
        return Err(InvalidTerritory);
      }
    }
    if g.ogunStates != 1 {
      return Err(InvalidTerritory);
    }
    return Ok(resolved);
  }

  // ---------- what a resolved record is ----------

  /** Every named level is an Ogun row and sits under the parent the graph records. */
  predicate OnGraph(g: Graph, t: Scope) {
    && t.stateId == OGUN
    && g.ogunStates == 1
    && (t.unit.Some? ==>
      && t.unit.value in g.units && g.units[t.unit.value].stateId == OGUN
      && t.ward == Some(g.units[t.unit.value].wardId))
    && (t.ward.Some? ==>
      && t.ward.value in g.wards && g.wards[t.ward.value].stateId == OGUN
      && t.constituency.Some? && t.constituency == g.wards[t.ward.value].edge)
    && (t.constituency.Some? ==>
      && t.constituency.value in g.constituencies && g.constituencies[t.constituency.value].stateId == OGUN
      && t.federal.Some? && t.federal == g.constituencies[t.constituency.value].federalId)
    && (t.federal.Some? ==>
      && t.federal.value in g.federals && g.federals[t.federal.value].stateId == OGUN
      && t.district == Some(g.federals[t.federal.value].districtId))
    && (t.district.Some? ==> t.district.value in g.districts && g.districts[t.district.value].stateId == OGUN)
  }

  predicate Keeps(given: Option<Id>, resolved: Option<Id>) { given.Some? ==> resolved == given }

  /** `t` says everything `input` says and reaches no deeper than its deepest level. */
  predicate Completes(input: Scope, t: Scope) {
    && t.stateId == input.stateId
    && Keeps(input.unit, t.unit) && Keeps(input.ward, t.ward) && Keeps(input.constituency, t.constituency)
    && Keeps(input.federal, t.federal) && Keeps(input.district, t.district)
    && (t.unit.Some? ==> input.unit.Some?)
    && (t.ward.Some? ==> input.unit.Some? || input.ward.Some?)
    && (t.constituency.Some? ==> input.unit.Some? || input.ward.Some? || input.constituency.Some?)
    && (t.federal.Some? ==> input != Scope(input.stateId, input.district, None, None, None, None))
    && (t.district.Some? ==> input != Scope(input.stateId, None, None, None, None, None))
  }

  lemma ResolvedIsOnGraph(g: Graph, input: Scope)
    requires Resolve(g, input).Ok?
    ensures OnGraph(g, Resolve(g, input).value) && Completes(input, Resolve(g, input).value)
  {
  }

  lemma OnGraphResolves(g: Graph, input: Scope, t: Scope)
    requires OnGraph(g, t) && Completes(input, t)
    ensures Resolve(g, input) == Ok(t)
  {
    var t1 := input.(ward := t.ward);
    assert ClimbFromUnit(g, input) == Ok(t1);
    var t2 := t1.(constituency := t.constituency);
    assert ClimbFromWard(g, t1) == Ok(t2);
    var t3 := t2.(federal := t.federal);
    assert ClimbFromConstituency(g, t2) == Ok(t3);
    assert ClimbFromFederal(g, t3) == Ok(t);
  }

  /** The walk returns exactly the record on the graph that completes its input. */
  lemma ResolveExact(g: Graph, input: Scope, t: Scope)
    ensures Resolve(g, input) == Ok(t) <==> OnGraph(g, t) && Completes(input, t)
  {
    if OnGraph(g, t) && Completes(input, t) {
      OnGraphResolves(g, input, t);
    } else if Resolve(g, input).Ok? {
      ResolvedIsOnGraph(g, input);
    }
  }

  /** The named chain holds up to a ward without an edge, or to a constituency without a federal one. */
  predicate BreaksOff(g: Graph, input: Scope, ward: Option<Id>, constituency: Option<Id>) {
    && input.stateId == OGUN && Keeps(input.ward, ward) && Keeps(input.constituency, constituency)
    && (input.unit.Some? ==>
      && input.unit.value in g.units && g.units[input.unit.value].stateId == OGUN && ward == Some(g.units[input.unit.value].wardId))
    && (input.unit.None? ==> ward == input.ward)
    && (ward.Some? ==> ward.value in g.wards && g.wards[ward.value].stateId == OGUN)
    && (if ward.Some? && g.wards[ward.value].edge.None? then constituency == input.constituency
        else
          && constituency == (if ward.Some? then g.wards[ward.value].edge else input.constituency)
          && constituency.Some? && constituency.value in g.constituencies
          && g.constituencies[constituency.value].stateId == OGUN && g.constituencies[constituency.value].federalId.None?)
  }

  lemma BrokenIsIncomplete(g: Graph, input: Scope, ward: Option<Id>, constituency: Option<Id>)
    requires BreaksOff(g, input, ward, constituency)
    ensures Resolve(g, input) == Err(IncompleteCommandHierarchy)
  {
    var t := input.(ward := ward);
    assert ClimbFromUnit(g, input) == Ok(t);
    if !(ward.Some? && g.wards[ward.value].edge.None?) {
      assert ClimbFromWard(g, t) == Ok(t.(constituency := constituency));
    }
  }

  /** Why the walk refuses: the state is another one, or the chain of the territory named breaks off, or
      else some name in it is unknown, outside Ogun or contradicted. */
  lemma WhyRefused(g: Graph, input: Scope)
    ensures Resolve(g, input) == Err(OutsideOgun) <==> input.stateId != OGUN
    ensures Resolve(g, input) == Err(IncompleteCommandHierarchy) <==> exists w, c :: BreaksOff(g, input, w, c)
    ensures Resolve(g, input) == Err(InvalidTerritory) <==>
      && input.stateId == OGUN && (forall w, c :: !BreaksOff(g, input, w, c))
      && (forall t :: !(OnGraph(g, t) && Completes(input, t)))
  {
    if Resolve(g, input) == Err(IncompleteCommandHierarchy) {
      var t1 := ClimbFromUnit(g, input).value;
      if ClimbFromWard(g, t1).Err? {
        assert BreaksOff(g, input, t1.ward, input.constituency);
      } else {
        assert BreaksOff(g, input, t1.ward, ClimbFromWard(g, t1).value.constituency);
      }
    }
    if w, c :| BreaksOff(g, input, w, c) { BrokenIsIncomplete(g, input, w, c); }
    if t :| OnGraph(g, t) && Completes(input, t) { OnGraphResolves(g, input, t); }
    if Resolve(g, input).Ok? { ResolvedIsOnGraph(g, input); }
  }

  /** Two records on the graph that agree at one level agree at every level above it. */
  lemma SharedKeySharesAncestors(g: Graph, a: Scope, b: Scope, level: Level, above: Level)
    requires OnGraph(g, a) && OnGraph(g, b)
    requires Key(a, level).Some? && Key(a, level) == Key(b, level)
    requires Rank(above) >= Rank(level)
    ensures Key(a, above).Some? && Key(a, above) == Key(b, above)
  {
  }

  // ---------- coordinator assignments ----------

  datatype Profile = Profile(level: Level, scope: Scope)

  /** Whether the input names a level below the one being assigned. */
  predicate NamesBelow(input: Scope, level: Level) {
    match level
    case SenatorialDistrict => input.federal.Some? || input.constituency.Some? || input.ward.Some? || input.unit.Some?
    case FederalConstituency => input.constituency.Some? || input.ward.Some? || input.unit.Some?
    case StateConstituency => input.ward.Some? || input.unit.Some?
    case WardLevel => input.unit.Some?
    case PollingUnitLevel => false
  }

  /** The scope with every level below `level` blanked. */
  function CutTo(t: Scope, level: Level): Scope {
    match level
    case SenatorialDistrict => t.(federal := None, constituency := None, ward := None, unit := None)
    case FederalConstituency => t.(constituency := None, ward := None, unit := None)
    case StateConstituency => t.(ward := None, unit := None)
    case WardLevel => t.(unit := None)
    case PollingUnitLevel => t
  }

  function ValidateCoordinatorAssignment(g: Graph, level: Level, input: Scope): Result<Profile, Refusal> {
    var resolved :- Resolve(g, input);
    if Key(resolved, level).None? || NamesBelow(input, level) then Err(InvalidTerritory)
    else Ok(Profile(level, CutTo(resolved, level)))
  }

  /** A validated profile sits on the graph and reaches exactly its level. */
  lemma ValidatedProfile(g: Graph, level: Level, input: Scope)
    requires ValidateCoordinatorAssignment(g, level, input).Ok?
    ensures var p := ValidateCoordinatorAssignment(g, level, input).value;
      && p.level == level
      && Resolve(g, input) == Ok(p.scope)
      && OnGraph(g, p.scope)
      && forall l: Level :: Key(p.scope, l).Some? <==> Rank(l) >= Rank(level)
  {
    ResolveExact(g, input, Resolve(g, input).value);
  }

  /** An assignment is accepted iff the names given complete to a territory of the graph that reaches exactly
      the level assigned, and that territory is the profile. */
  lemma ValidatedIff(g: Graph, level: Level, input: Scope, p: Profile)
    ensures ValidateCoordinatorAssignment(g, level, input) == Ok(p) <==>
      && p.level == level && OnGraph(g, p.scope) && Completes(input, p.scope)
      && forall l: Level :: Key(p.scope, l).Some? <==> Rank(l) >= Rank(level)
  {
    if ValidateCoordinatorAssignment(g, level, input) == Ok(p) {
      ValidatedProfile(g, level, input);
      ResolveExact(g, input, p.scope);
    }
    if p.level == level && OnGraph(g, p.scope) && Completes(input, p.scope) && forall l: Level :: Key(p.scope, l).Some? <==> Rank(l) >= Rank(level) {
      OnGraphResolves(g, input, p.scope);
      var t := p.scope;
      assert Key(t, SenatorialDistrict) == t.district && Key(t, FederalConstituency) == t.federal && Key(t, StateConstituency) == t.constituency;
      assert Key(t, WardLevel) == t.ward && Key(t, PollingUnitLevel) == t.unit;
      assert !NamesBelow(input, level) && CutTo(t, level) == t;
    }
  }

  // ---------- authority ----------

  datatype Role = SuperAdmin | StateOfficer | Coordinator | Member | Validator | PayoutOfficer | OtherRole

  datatype User = User(id: Id, role: Role, active: bool, accountActive: bool, profile: Option<Profile>)

  datatype Action = ViewTerritory | ManageUsers | AssignTerritory | ManageCandidates | OtherAction

  predicate IsTerritoryDescendant(p: Profile, resource: Scope) {
    && p.scope.stateId == OGUN && resource.stateId == OGUN
    && Key(p.scope, p.level).Some? && Key(p.scope, p.level) == Key(resource, p.level)
  }

  predicate AuthorizeAction(actor: User, action: Action, resource: Scope) {
    && actor.active && actor.accountActive && resource.stateId == OGUN
    && (actor.role == SuperAdmin || actor.role == StateOfficer ||
        (&& actor.role == Coordinator && actor.profile.Some?
         && action in {ViewTerritory, ManageUsers, AssignTerritory, ManageCandidates}
         && IsTerritoryDescendant(actor.profile.value, resource)))
  }

  predicate CanManageTargetUser(actor: User, target: User, territory: Option<Scope>) {
    if actor.id == target.id || !actor.active || !actor.accountActive then false
    else if target.role == SuperAdmin || target.role == StateOfficer then false
    else if target.role == Validator || target.role == PayoutOfficer then actor.role == SuperAdmin
    else if actor.role == SuperAdmin then true
    else if actor.role == StateOfficer then
      (target.role == Coordinator || target.role == Member) && territory.Some? && territory.value.stateId == OGUN
    else if actor.role != Coordinator || actor.profile.None? || territory.None? then false
    else if !IsTerritoryDescendant(actor.profile.value, territory.value) then false
    else if target.role == Member then true
    else target.role == Coordinator && target.profile.Some?
         && Rank(actor.profile.value.level) > Rank(target.profile.value.level)
  }

  predicate OutranksAndCovers(actor: User, proposed: Scope, level: Level) {
    && actor.role == Coordinator && actor.profile.Some?
    && Rank(actor.profile.value.level) > Rank(level)
    && IsTerritoryDescendant(actor.profile.value, proposed)
  }

  predicate CanAssignTerritory(actor: User, target: User, current: Scope, proposed: Scope, level: Level) {
    && target.role == Coordinator && CanManageTargetUser(actor, target, Some(current))
    && (if actor.role == SuperAdmin || actor.role == StateOfficer then proposed.stateId == OGUN
        else OutranksAndCovers(actor, proposed, level))
  }

  predicate CanCreateCoordinator(actor: User, proposed: Scope, level: Level) {
    && actor.active && actor.accountActive && proposed.stateId == OGUN
    && (actor.role == SuperAdmin || actor.role == StateOfficer || OutranksAndCovers(actor, proposed, level))
  }

  // ---------- delegation never widens authority ----------

  /** `actor` put `delegate` in charge of the validated territory `input` at `level`, by
      creating the coordinator or by reassigning an existing one. */
  ghost predicate Delegates(g: Graph, actor: User, delegate: User, input: Scope, level: Level) {
    && delegate.role == Coordinator
    && delegate.profile.Some?
    && ValidateCoordinatorAssignment(g, level, input) == Ok(delegate.profile.value)
    && (|| CanCreateCoordinator(actor, Resolve(g, input).value, level)
        || exists before: User, current: Scope :: CanAssignTerritory(actor, before, current, Resolve(g, input).value, level))
  }

  lemma OneDelegation(g: Graph, actor: User, delegate: User, input: Scope, level: Level, action: Action, resource: Scope)
    requires Delegates(g, actor, delegate, input, level)
    requires OnGraph(g, resource)
    requires AuthorizeAction(delegate, action, resource)
    ensures AuthorizeAction(actor, action, resource)
  {
    ValidatedProfile(g, level, input);
    var proposed := Resolve(g, input).value;
    assert delegate.profile.value.scope == proposed;
    if actor.role == Coordinator {
      assert OutranksAndCovers(actor, proposed, level);
      SharedKeySharesAncestors(g, proposed, resource, level, actor.profile.value.level);
    }
  }

  datatype Grant = Grant(input: Scope, level: Level)

  ghost predicate DelegationChain(g: Graph, users: seq<User>, grants: seq<Grant>) {
    && |users| == |grants| + 1
    && forall i :: 0 <= i < |grants| ==> Delegates(g, users[i], users[i + 1], grants[i].input, grants[i].level)
  }

  /** Along any chain of delegations, whatever the last may act on, the first may too. */
  lemma {:induction false} DelegationNeverWidens(
    g: Graph, users: seq<User>, grants: seq<Grant>, action: Action, resource: Scope)
    requires DelegationChain(g, users, grants)
    requires OnGraph(g, resource)
    requires AuthorizeAction(users[|grants|], action, resource)
    ensures AuthorizeAction(users[0], action, resource)
    decreases |grants|
  {
    if grants != [] {
      var n := |grants| - 1;
      OneDelegation(g, users[n], users[n + 1], grants[n].input, grants[n].level, action, resource);
      DelegationNeverWidens(g, users[..n + 1], grants[..n], action, resource);
    }
  }

  /** Managing a coordinator at their own territory means managing whoever they manage. */
  lemma ManagementIsTransitive(g: Graph, a: User, b: User, c: User, input: Scope, level: Level, ofC: Scope)
    requires b.role == Coordinator && b.profile.Some?
    requires ValidateCoordinatorAssignment(g, level, input) == Ok(b.profile.value)
    requires CanManageTargetUser(a, b, Some(b.profile.value.scope))
    requires OnGraph(g, ofC) && CanManageTargetUser(b, c, Some(ofC))
    requires a.id != c.id
    ensures CanManageTargetUser(a, c, Some(ofC))
  {
    ValidatedProfile(g, level, input);
    if a.role == Coordinator {
      SharedKeySharesAncestors(g, b.profile.value.scope, ofC, level, a.profile.value.level);
    }
  }

  /** Users of any role, each of whom may manage the next at the territory given, if any. */
  predicate ManagementChain(users: seq<User>, territories: seq<Option<Scope>>) {
    && |users| == |territories| + 1
    && forall i :: 0 <= i < |territories| ==> CanManageTargetUser(users[i], users[i + 1], territories[i])
  }

  /** Administrators and officers above every coordinator, coordinators by level, everyone else below. */
  function Height(u: User): nat {
    match u.role
    case SuperAdmin => 6
    case StateOfficer => 6
    case Coordinator => if u.profile.Some? then Rank(u.profile.value.level) else 0
    case _ => 0
  }

  /** Heights strictly fall, whoever is in the chain, so management has no cycle and no chain of it
      passes seven users; all but the first are neither administrators nor officers, and all but the
      last are administrators, officers or coordinators with a profile. */
  lemma {:induction false} ManagementIsAcyclic(users: seq<User>, territories: seq<Option<Scope>>)
    requires ManagementChain(users, territories) && territories != []
    ensures Height(users[0]) >= Height(users[|territories|]) + |territories|
    ensures users[0] != users[|territories|]
    ensures |users| <= 7
    ensures forall i :: 0 < i < |users| ==> users[i].role !in {SuperAdmin, StateOfficer}
    ensures forall i :: 0 <= i < |territories| ==> Height(users[i]) > 0
    decreases |territories|
  {
    assert CanManageTargetUser(users[0], users[1], territories[0]);
    if |territories| > 1 {
      ManagementIsAcyclic(users[1..], territories[1..]);
      forall i | 1 < i < |users| ensures users[i].role !in {SuperAdmin, StateOfficer} {
        assert users[i] == users[1..][i - 1];
      }
      forall i | 0 < i < |territories| ensures Height(users[i]) > 0 {
        assert users[i] == users[1..][i - 1];
      }
    }
  }

  /** In any chain of management a validator, a payout officer or a user of another role comes last, and
      directly after a super administrator, who can only come first: the chain is those two. */
  lemma OnlyAdministratorsManageStaff(users: seq<User>, territories: seq<Option<Scope>>, i: nat)
    requires ManagementChain(users, territories) && territories != []
    requires i < |users| && users[i].role in {Validator, PayoutOfficer, OtherRole}
    ensures i == 1 && |users| == 2 && users[0].role == SuperAdmin
  {
    ManagementIsAcyclic(users, territories);
    assert i < |territories| ==> CanManageTargetUser(users[i], users[i + 1], territories[i]);
    assert 0 < i ==> CanManageTargetUser(users[i - 1], users[i], territories[i - 1]);
  }

  predicate IsActive(u: User) { u.active && u.accountActive }

  /** Who manages whom: an active administrator everyone but administrators and officers; an active officer
      the members and coordinators of a territory in Ogun; a coordinator those members of a territory at
      which they may manage users at all, and its coordinators of strictly lower level. */
  lemma WhoManagesWhom(actor: User, target: User, territory: Option<Scope>)
    ensures CanManageTargetUser(actor, target, territory) ==> IsActive(actor) && actor.id != target.id
    ensures CanManageTargetUser(actor, target, territory) ==> actor.role in {SuperAdmin, StateOfficer, Coordinator}
    ensures actor.role == SuperAdmin ==>
      (CanManageTargetUser(actor, target, territory) <==>
        IsActive(actor) && actor.id != target.id && target.role !in {SuperAdmin, StateOfficer})
    ensures actor.role == StateOfficer ==>
      (CanManageTargetUser(actor, target, territory) <==>
        && IsActive(actor) && actor.id != target.id && target.role in {Member, Coordinator}
        && territory.Some? && territory.value.stateId == OGUN)
    ensures actor.role == Coordinator ==>
      (CanManageTargetUser(actor, target, territory) <==>
        && actor.id != target.id && territory.Some? && AuthorizeAction(actor, ManageUsers, territory.value)
        && (|| target.role == Member
            || (target.role == Coordinator && target.profile.Some? && Rank(target.profile.value.level) < Rank(actor.profile.value.level))))
  {
  }

  /** Appointing takes the right to assign at the territory proposed and, of a coordinator, a higher level;
      moving a coordinator takes the management of that coordinator as well. */
  lemma WhoAppointsWhom(actor: User, target: User, current: Scope, proposed: Scope, level: Level)
    ensures CanCreateCoordinator(actor, proposed, level) <==>
      AuthorizeAction(actor, AssignTerritory, proposed) && (actor.role == Coordinator ==> Rank(level) < Rank(actor.profile.value.level))
    ensures CanAssignTerritory(actor, target, current, proposed, level) <==>
      target.role == Coordinator && CanManageTargetUser(actor, target, Some(current)) && CanCreateCoordinator(actor, proposed, level)
  {
  }

  /** On the graph a resource lies under a validated territory iff, cut at its level, it is that territory. */
  lemma DescendantIff(g: Graph, p: Profile, input: Scope, resource: Scope)
    requires ValidateCoordinatorAssignment(g, p.level, input) == Ok(p) && OnGraph(g, resource)
    ensures IsTerritoryDescendant(p, resource) <==> CutTo(resource, p.level) == p.scope
  {
    ValidatedProfile(g, p.level, input);
    if IsTerritoryDescendant(p, resource) {
      var cut := CutTo(resource, p.level);
      forall l: Level ensures Key(cut, l) == Key(p.scope, l) {
        if Rank(l) >= Rank(p.level) {
          SharedKeySharesAncestors(g, p.scope, resource, p.level, l);
        } else {
          assert Key(cut, l).None?;
        }
      }
      SameScope(cut, p.scope);
    }
  }

  /** Who may act where, on the graph: active administrators and officers anywhere in Ogun; an active
      coordinator exactly where the territory, cut at the coordinator's level, is the validated one, and
      for no action but the four delegable; nobody else. */
  lemma AuthorizedIff(g: Graph, actor: User, input: Scope, action: Action, resource: Scope)
    requires actor.profile.Some? ==> ValidateCoordinatorAssignment(g, actor.profile.value.level, input) == Ok(actor.profile.value)
    requires OnGraph(g, resource)
    ensures AuthorizeAction(actor, action, resource) <==>
      && IsActive(actor)
      && (|| actor.role in {SuperAdmin, StateOfficer}
          || (&& actor.role == Coordinator && action != OtherAction
              && actor.profile.Some? && CutTo(resource, actor.profile.value.level) == actor.profile.value.scope))
  {
    if actor.profile.Some? { DescendantIff(g, actor.profile.value, input, resource); }
  }

  lemma SameScope(a: Scope, b: Scope)
    requires a.stateId == b.stateId && forall l: Level :: Key(a, l) == Key(b, l)
    ensures a == b
  {
    assert Key(a, SenatorialDistrict) == Key(b, SenatorialDistrict) && Key(a, FederalConstituency) == Key(b, FederalConstituency)
        && Key(a, StateConstituency) == Key(b, StateConstituency) && Key(a, WardLevel) == Key(b, WardLevel)
        && Key(a, PollingUnitLevel) == Key(b, PollingUnitLevel);
  }
}
