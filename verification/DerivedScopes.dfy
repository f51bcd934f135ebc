/** Two surfaces that re-encode the authority predicate: realtime rooms, and the scoped
    organisation tree. Both are proved to agree with it. */
module DerivedScopes {
  import opened Prelude
  import opened Territory

  // ---------- realtime rooms ----------

  function RoomPrefix(level: Option<Level>): string {
    match level
    case None => "election:state:"
    case Some(SenatorialDistrict) => "election:senatorial-district:"
    case Some(FederalConstituency) => "election:federal-constituency:"
    case Some(StateConstituency) => "election:state-constituency:"
    case Some(WardLevel) => "election:ward:"
    case Some(PollingUnitLevel) => "election:polling-unit:"
  }

  function Room(level: Option<Level>, id: Id): string { RoomPrefix(level) + id }

  /** No two territories share a room name, whatever their identifiers spell. */
  lemma RoomsAreInjective(a: Option<Level>, x: Id, b: Option<Level>, y: Id)
    requires Room(a, x) == Room(b, y)
    ensures a == b && x == y
  {
    var p, q := RoomPrefix(a), RoomPrefix(b);
    assert (p + x)[9] == p[9] && (q + y)[9] == q[9];
    assert (p + x)[10] == p[10] && (q + y)[10] == q[10];
    assert |p| > 14 ==> (p + x)[14] == p[14];
    assert |q| > 14 ==> (q + y)[14] == q[14];
    assert a == b;
    assert (p + x)[|p|..] == x && (q + y)[|q|..] == y;
  }

  /** The deepest level a scope names; none means the whole state. */
  function Deepest(scope: Scope): Option<Level> {
    if scope.unit.Some? then Some(PollingUnitLevel)
    else if scope.ward.Some? then Some(WardLevel)
    else if scope.constituency.Some? then Some(StateConstituency)
    else if scope.federal.Some? then Some(FederalConstituency)
    else if scope.district.Some? then Some(SenatorialDistrict)
    else None
  }

  function RoomForScope(scope: Scope): string {
    match Deepest(scope)
    case None => Room(None, scope.stateId)
    case Some(l) => Room(Some(l), Key(scope, l).value)
  }

  /** The rooms an event about `territory` is sent to. */
  predicate Reaches(territory: Scope, room: string) {
    || room == Room(None, territory.stateId)
    || exists l: Level :: Key(territory, l).Some? && room == Room(Some(l), Key(territory, l).value)
  }

  method RealtimeRoomsForTerritory(territory: Option<Scope>) returns (rooms: seq<string>)
    ensures forall room :: room in rooms <==> territory.Some? && Reaches(territory.value, room)
  {
    if territory.None? {
      return [];
    }
    var t := territory.value;
    rooms := [Room(None, t.stateId)];
    if t.district.Some? {
      rooms := rooms + [Room(Some(SenatorialDistrict), t.district.value)];
    }
    if t.federal.Some? {
      rooms := rooms + [Room(Some(FederalConstituency), t.federal.value)];
    }
    if t.constituency.Some? {
      rooms := rooms + [Room(Some(StateConstituency), t.constituency.value)];
    }
    if t.ward.Some? {
      rooms := rooms + [Room(Some(WardLevel), t.ward.value)];
    }
    if t.unit.Some? {
      rooms := rooms + [Room(Some(PollingUnitLevel), t.unit.value)];
    }
    assert Key(t, SenatorialDistrict) == t.district && Key(t, FederalConstituency) == t.federal;
    assert Key(t, StateConstituency) == t.constituency && Key(t, WardLevel) == t.ward;
    assert Key(t, PollingUnitLevel) == t.unit;
  }

  function CommandScopeForActor(actor: User): Option<Scope> {
    if actor.role == SuperAdmin || actor.role == StateOfficer then Some(Scope(OGUN, None, None, None, None, None))
    else if actor.role != Coordinator || actor.profile.None? then None
    else Some(actor.profile.value.scope)
  }

  /** The scope a socket is joined to, or nothing when the request is refused or invalid. */
  function AuthorizeSubscription(g: Graph, actor: User, requested: Option<Scope>): Option<Scope> {
    var wanted := if requested.Some? then requested else CommandScopeForActor(actor);
    if wanted.None? || Resolve(g, wanted.value).Err? then None
    else if !AuthorizeAction(actor, ViewTerritory, Resolve(g, wanted.value).value) then None
    else wanted
  }

  lemma ReachingSharesTheDeepestKey(scope: Scope, event: Scope)
    requires Reaches(event, RoomForScope(scope))
    ensures Deepest(scope).Some? ==>
      Key(event, Deepest(scope).value) == Key(scope, Deepest(scope).value)
  {
    if RoomForScope(scope) == Room(None, event.stateId) {
      RoomsAreInjective(Deepest(scope), if Deepest(scope).Some? then Key(scope, Deepest(scope).value).value else scope.stateId,
                        None, event.stateId);
    } else {
      var l: Level :| Key(event, l).Some? && RoomForScope(scope) == Room(Some(l), Key(event, l).value);
      RoomsAreInjective(Deepest(scope), if Deepest(scope).Some? then Key(scope, Deepest(scope).value).value else scope.stateId,
                        Some(l), Key(event, l).value);
    }
  }

  /** An authorised subscription never receives an event its actor may not view. */
  lemma RoomsNeverLeak(g: Graph, actor: User, requested: Option<Scope>, event: Scope)
    requires AuthorizeSubscription(g, actor, requested).Some?
    requires OnGraph(g, event)
    requires Reaches(event, RoomForScope(AuthorizeSubscription(g, actor, requested).value))
    ensures AuthorizeAction(actor, ViewTerritory, event)
  {
    var scope := AuthorizeSubscription(g, actor, requested).value;
    ReachingSharesTheDeepestKey(scope, event);
    ResolvedIsOnGraph(g, scope);
    if actor.role == Coordinator {
      SharedKeySharesAncestors(g, Resolve(g, scope).value, event, Deepest(scope).value, actor.profile.value.level);
    }
  }

  /** A coordinator's default room carries exactly the events they may view. */
  lemma DefaultRoomIsExact(g: Graph, actor: User, level: Level, input: Scope, event: Scope)
    requires actor.role == Coordinator && actor.active && actor.accountActive && actor.profile.Some?
    requires ValidateCoordinatorAssignment(g, level, input) == Ok(actor.profile.value)
    requires OnGraph(g, event)
    ensures AuthorizeSubscription(g, actor, None) == Some(actor.profile.value.scope)
    ensures Reaches(event, RoomForScope(actor.profile.value.scope)) <==> AuthorizeAction(actor, ViewTerritory, event)
  {
    ValidatedProfile(g, level, input);
    var p := actor.profile.value;
    OnGraphResolves(g, p.scope, p.scope);
    assert forall l: Level :: Key(p.scope, l).Some? <==> Rank(l) >= Rank(level);
    assert Deepest(p.scope) == Some(level) by {
      assert Key(p.scope, PollingUnitLevel) == p.scope.unit && Key(p.scope, WardLevel) == p.scope.ward;
      assert Key(p.scope, StateConstituency) == p.scope.constituency;
      assert Key(p.scope, FederalConstituency) == p.scope.federal;
      assert Key(p.scope, SenatorialDistrict) == p.scope.district;
    }
    if Reaches(event, RoomForScope(p.scope)) {
      RoomsNeverLeak(g, actor, None, event);
    }
    if AuthorizeAction(actor, ViewTerritory, event) {
      assert Key(event, level).Some? && RoomForScope(p.scope) == Room(Some(level), Key(event, level).value);
    }
  }

  /** The territory the request completes to on the graph, and the actor's right to view it. */
  predicate GrantedAt(g: Graph, actor: User, requested: Scope, t: Scope) {
    && OnGraph(g, t) && Completes(requested, t) && IsActive(actor)
    && (|| actor.role in {SuperAdmin, StateOfficer}
        || (&& actor.role == Coordinator && actor.profile.Some?
            && CutTo(t, actor.profile.value.level) == actor.profile.value.scope))
  }

  /** A requested room is joined iff the request names a territory of the graph that the actor may view:
      any for administrators and officers, one under their own for coordinators, none for anybody else. */
  lemma RequestGrantedIff(g: Graph, actor: User, input: Scope, requested: Scope)
    requires actor.profile.Some? ==> ValidateCoordinatorAssignment(g, actor.profile.value.level, input) == Ok(actor.profile.value)
    ensures AuthorizeSubscription(g, actor, Some(requested)) in {None, Some(requested)}
    ensures AuthorizeSubscription(g, actor, Some(requested)).Some? <==> exists t :: GrantedAt(g, actor, requested, t)
  {
    if Resolve(g, requested).Ok? {
      var t := Resolve(g, requested).value;
      ResolveExact(g, requested, t);
      AuthorizedIff(g, actor, input, ViewTerritory, t);
      assert AuthorizeAction(actor, ViewTerritory, t) ==> GrantedAt(g, actor, requested, t);
    }
    if t :| GrantedAt(g, actor, requested, t) {
      ResolveExact(g, requested, t);
      AuthorizedIff(g, actor, input, ViewTerritory, t);
    }
  }

  /** Without a request an active administrator or officer joins the state's room, which carries every event
      of the graph; a member, or a coordinator without a territory, joins none. */
  lemma DefaultRooms(g: Graph, actor: User, event: Scope)
    requires g.ogunStates == 1 && OnGraph(g, event)
    ensures IsActive(actor) && actor.role in {SuperAdmin, StateOfficer} ==>
      && AuthorizeSubscription(g, actor, None) == Some(Scope(OGUN, None, None, None, None, None))
      && Reaches(event, RoomForScope(Scope(OGUN, None, None, None, None, None)))
    ensures actor.role !in {SuperAdmin, StateOfficer} && (actor.role == Coordinator ==> actor.profile.None?) ==>
      AuthorizeSubscription(g, actor, None).None?
  {
    var state := Scope(OGUN, None, None, None, None, None);
    OnGraphResolves(g, state, state);
  }

  // ---------- the organisation tree ----------

  datatype WardNode = WardNode(id: Id, units: seq<Id>)
  datatype ConstituencyNode = ConstituencyNode(id: Id, wards: seq<WardNode>)
  datatype FederalNode = FederalNode(id: Id, constituencies: seq<ConstituencyNode>)
  datatype DistrictNode = DistrictNode(id: Id, federals: seq<FederalNode>)
  datatype Tree = Tree(stateId: Id, stateOfficers: seq<Id>, districts: seq<DistrictNode>)

  function ScopeWard(p: Profile): WardNode -> seq<WardNode> {
    (w: WardNode) =>
      if Some(w.id) != p.scope.ward then []
      else if p.level == WardLevel then [w]
      else [w.(units := FlatMap((u: Id) => if Some(u) == p.scope.unit then [u] else [], w.units))]
  }

  function ScopeConstituency(p: Profile): ConstituencyNode -> seq<ConstituencyNode> {
    (c: ConstituencyNode) =>
      if Some(c.id) != p.scope.constituency then []
      else if p.level == StateConstituency then [c]
      else [c.(wards := FlatMap(ScopeWard(p), c.wards))]
  }

  function ScopeFederal(p: Profile): FederalNode -> seq<FederalNode> {
    (f: FederalNode) =>
      if Some(f.id) != p.scope.federal then []
      else if p.level == FederalConstituency then [f]
      else [f.(constituencies := FlatMap(ScopeConstituency(p), f.constituencies))]
  }

  function ScopeDistrict(p: Profile): DistrictNode -> seq<DistrictNode> {
    (d: DistrictNode) =>
      if Some(d.id) != p.scope.district then []
      else if p.level == SenatorialDistrict then [d]
      else [d.(federals := FlatMap(ScopeFederal(p), d.federals))]
  }

  function ScopeOrganizationTree(tree: Tree, p: Profile): Tree {
    tree.(stateOfficers := [], districts := FlatMap(ScopeDistrict(p), tree.districts))
  }

  /** `t` is the path from the root to a polling unit of the tree. */
  predicate WardHolds(w: WardNode, t: Scope) { t.ward == Some(w.id) && t.unit.Some? && t.unit.value in w.units }

  predicate ConstituencyHolds(c: ConstituencyNode, t: Scope) {
    t.constituency == Some(c.id) && exists w :: w in c.wards && WardHolds(w, t)
  }

  predicate FederalHolds(f: FederalNode, t: Scope) {
    t.federal == Some(f.id) && exists c :: c in f.constituencies && ConstituencyHolds(c, t)
  }

  predicate DistrictHolds(d: DistrictNode, t: Scope) {
    t.district == Some(d.id) && exists f :: f in d.federals && FederalHolds(f, t)
  }

  predicate TreeHolds(tree: Tree, t: Scope) {
    t.stateId == tree.stateId && exists d :: d in tree.districts && DistrictHolds(d, t)
  }

  predicate At(p: Profile, t: Scope, level: Level) { Rank(p.level) > Rank(level) || Key(p.scope, level) == Key(t, level) }

  /** The path agrees with the profile at `top` and at every level below it that the profile reaches. */
  predicate Agrees(p: Profile, t: Scope, top: Level)
    decreases Rank(top)
  {
    match top
    case PollingUnitLevel => At(p, t, PollingUnitLevel)
    case WardLevel => At(p, t, WardLevel) && At(p, t, PollingUnitLevel)
    case StateConstituency => At(p, t, StateConstituency) && Agrees(p, t, WardLevel)
    case FederalConstituency => At(p, t, FederalConstituency) && Agrees(p, t, StateConstituency)
    case SenatorialDistrict => At(p, t, SenatorialDistrict) && Agrees(p, t, FederalConstituency)
  }

  lemma ScopedWard(p: Profile, w: WardNode, t: Scope)
    requires Rank(p.level) <= Rank(WardLevel)
    ensures (exists y :: y in ScopeWard(p)(w) && WardHolds(y, t)) <==> WardHolds(w, t) && Agrees(p, t, WardLevel)
  {
    var pick := (u: Id) => if Some(u) == p.scope.unit then [u] else [];
    var y := if p.level == WardLevel then w else w.(units := FlatMap(pick, w.units));
    assert Some(w.id) == p.scope.ward ==> ScopeWard(p)(w) == [y];
    if t.unit.Some? { FlatMapIn(pick, w.units, t.unit.value); }
    assert WardHolds(y, t) <==> WardHolds(w, t) && (p.level == WardLevel || At(p, t, PollingUnitLevel));
  }

  lemma ScopedWards(p: Profile, wards: seq<WardNode>, t: Scope)
    requires Rank(p.level) <= Rank(WardLevel)
    ensures (exists y :: y in FlatMap(ScopeWard(p), wards) && WardHolds(y, t)) <==>
      (exists w :: w in wards && WardHolds(w, t)) && Agrees(p, t, WardLevel)
  {
    if y :| y in FlatMap(ScopeWard(p), wards) && WardHolds(y, t) {
      FlatMapIn(ScopeWard(p), wards, y);
      var w :| w in wards && y in ScopeWard(p)(w);
      ScopedWard(p, w, t);
    }
    if w :| w in wards && WardHolds(w, t) && Agrees(p, t, WardLevel) {
      ScopedWard(p, w, t);
      var y :| y in ScopeWard(p)(w) && WardHolds(y, t);
      FlatMapIn(ScopeWard(p), wards, y);
    }
  }

  lemma ScopedConstituency(p: Profile, c: ConstituencyNode, t: Scope)
    requires Rank(p.level) <= Rank(StateConstituency)
    ensures (exists y :: y in ScopeConstituency(p)(c) && ConstituencyHolds(y, t)) <==> ConstituencyHolds(c, t) && Agrees(p, t, StateConstituency)
  {
    var y := if p.level == StateConstituency then c else c.(wards := FlatMap(ScopeWard(p), c.wards));
    assert Some(c.id) == p.scope.constituency ==> ScopeConstituency(p)(c) == [y];
    if p.level != StateConstituency { ScopedWards(p, c.wards, t); }
    assert ConstituencyHolds(y, t) ==> ConstituencyHolds(c, t);
  }

  lemma ScopedConstituencies(p: Profile, constituencies: seq<ConstituencyNode>, t: Scope)
    requires Rank(p.level) <= Rank(StateConstituency)
    ensures (exists y :: y in FlatMap(ScopeConstituency(p), constituencies) && ConstituencyHolds(y, t)) <==>
      (exists c :: c in constituencies && ConstituencyHolds(c, t)) && Agrees(p, t, StateConstituency)
  {
    if y :| y in FlatMap(ScopeConstituency(p), constituencies) && ConstituencyHolds(y, t) {
      FlatMapIn(ScopeConstituency(p), constituencies, y);
      var c :| c in constituencies && y in ScopeConstituency(p)(c);
      ScopedConstituency(p, c, t);
    }
    if c :| c in constituencies && ConstituencyHolds(c, t) && Agrees(p, t, StateConstituency) {
      ScopedConstituency(p, c, t);
      var y :| y in ScopeConstituency(p)(c) && ConstituencyHolds(y, t);
      FlatMapIn(ScopeConstituency(p), constituencies, y);
    }
  }

  lemma ScopedFederal(p: Profile, f: FederalNode, t: Scope)
    requires Rank(p.level) <= Rank(FederalConstituency)
    ensures (exists y :: y in ScopeFederal(p)(f) && FederalHolds(y, t)) <==> FederalHolds(f, t) && Agrees(p, t, FederalConstituency)
  {
    var y := if p.level == FederalConstituency then f else f.(constituencies := FlatMap(ScopeConstituency(p), f.constituencies));
    assert Some(f.id) == p.scope.federal ==> ScopeFederal(p)(f) == [y];
    if p.level != FederalConstituency { ScopedConstituencies(p, f.constituencies, t); }
    assert FederalHolds(y, t) ==> FederalHolds(f, t);
  }

  lemma ScopedFederals(p: Profile, federals: seq<FederalNode>, t: Scope)
    requires Rank(p.level) <= Rank(FederalConstituency)
    ensures (exists y :: y in FlatMap(ScopeFederal(p), federals) && FederalHolds(y, t)) <==>
      (exists f :: f in federals && FederalHolds(f, t)) && Agrees(p, t, FederalConstituency)
  {
    if y :| y in FlatMap(ScopeFederal(p), federals) && FederalHolds(y, t) {
      FlatMapIn(ScopeFederal(p), federals, y);
      var f :| f in federals && y in ScopeFederal(p)(f);
      ScopedFederal(p, f, t);
    }
    if f :| f in federals && FederalHolds(f, t) && Agrees(p, t, FederalConstituency) {
      ScopedFederal(p, f, t);
      var y :| y in ScopeFederal(p)(f) && FederalHolds(y, t);
      FlatMapIn(ScopeFederal(p), federals, y);
    }
  }

  lemma ScopedDistrict(p: Profile, d: DistrictNode, t: Scope)
    requires Rank(p.level) <= Rank(SenatorialDistrict)
    ensures (exists y :: y in ScopeDistrict(p)(d) && DistrictHolds(y, t)) <==> DistrictHolds(d, t) && Agrees(p, t, SenatorialDistrict)
  {
    var y := if p.level == SenatorialDistrict then d else d.(federals := FlatMap(ScopeFederal(p), d.federals));
    assert Some(d.id) == p.scope.district ==> ScopeDistrict(p)(d) == [y];
    if p.level != SenatorialDistrict { ScopedFederals(p, d.federals, t); }
    assert DistrictHolds(y, t) ==> DistrictHolds(d, t);
  }

  lemma ScopedDistricts(p: Profile, districts: seq<DistrictNode>, t: Scope)
    requires Rank(p.level) <= Rank(SenatorialDistrict)
    ensures (exists y :: y in FlatMap(ScopeDistrict(p), districts) && DistrictHolds(y, t)) <==>
      (exists d :: d in districts && DistrictHolds(d, t)) && Agrees(p, t, SenatorialDistrict)
  {
    if y :| y in FlatMap(ScopeDistrict(p), districts) && DistrictHolds(y, t) {
      FlatMapIn(ScopeDistrict(p), districts, y);
      var d :| d in districts && y in ScopeDistrict(p)(d);
      ScopedDistrict(p, d, t);
    }
    if d :| d in districts && DistrictHolds(d, t) && Agrees(p, t, SenatorialDistrict) {
      ScopedDistrict(p, d, t);
      var y :| y in ScopeDistrict(p)(d) && DistrictHolds(y, t);
      FlatMapIn(ScopeDistrict(p), districts, y);
    }
  }

  /** Scoping keeps a path iff the path agrees with the profile at every level down to its own. */
  lemma ScopedTree(tree: Tree, p: Profile, t: Scope)
    ensures TreeHolds(ScopeOrganizationTree(tree, p), t) <==> TreeHolds(tree, t) && Agrees(p, t, SenatorialDistrict)
  {
    ScopedDistricts(p, tree.districts, t);
  }

  /** For a validated profile and a tree loaded from the graph, a polling unit stays in the
      scoped tree iff the authority predicate holds for it. */
  lemma ScopedTreeIsAuthority(g: Graph, tree: Tree, level: Level, input: Scope, t: Scope)
    requires ValidateCoordinatorAssignment(g, level, input).Ok?
    requires TreeHolds(tree, t) && OnGraph(g, t)
    ensures var p := ValidateCoordinatorAssignment(g, level, input).value;
      TreeHolds(ScopeOrganizationTree(tree, p), t) <==> IsTerritoryDescendant(p, t)
  {
    var p := ValidateCoordinatorAssignment(g, level, input).value;
    ValidatedProfile(g, level, input);
    ScopedTree(tree, p, t);
    if IsTerritoryDescendant(p, t) {
      forall l: Level ensures At(p, t, l) {
        if Rank(p.level) <= Rank(l) { SharedKeySharesAncestors(g, p.scope, t, level, l); }
      }
    } else {
      assert Key(p.scope, level).Some?;
      assert !At(p, t, level);
    }
  }

  // ---------- the scoped tree, path by path ----------

  function Filter<T>(keep: T -> bool, s: seq<T>): seq<T> {
    if s == [] then [] else (if keep(s[0]) then [s[0]] else []) + Filter(keep, s[1..])
  }

  lemma {:induction false} FilterConcat<T>(keep: T -> bool, a: seq<T>, b: seq<T>)
    ensures Filter(keep, a + b) == Filter(keep, a) + Filter(keep, b)
  {
    if a == [] {
      assert a + b == b;
    } else {
      FilterConcat(keep, a[1..], b);
      assert (a + b)[0] == a[0] && (a + b)[1..] == a[1..] + b;
    }
  }

  lemma {:induction false} FilterAlike<T>(keep: T -> bool, other: T -> bool, s: seq<T>)
    requires forall x :: x in s ==> keep(x) == other(x)
    ensures Filter(keep, s) == Filter(other, s)
  {
    if s != [] { FilterAlike(keep, other, s[1..]); }
  }

  lemma {:induction false} FilterAllOrNone<T>(keep: T -> bool, s: seq<T>, all: bool)
    requires forall x :: x in s ==> keep(x) == all
    ensures Filter(keep, s) == if all then s else []
  {
    if s != [] {
      FilterAllOrNone(keep, s[1..], all);
      assert s == [s[0]] + s[1..];
    }
  }

  /** Pruning each node of a list prunes the list of paths. */
  lemma {:induction false} PruneEach<A, B>(prune: A -> seq<A>, paths: A -> seq<B>, keep: B -> bool, s: seq<A>)
    requires forall x :: x in s ==> FlatMap(paths, prune(x)) == Filter(keep, paths(x))
    ensures FlatMap(paths, FlatMap(prune, s)) == Filter(keep, FlatMap(paths, s))
  {
    if s != [] {
      PruneEach(prune, paths, keep, s[1..]);
      FlatMapConcat(paths, prune(s[0]), FlatMap(prune, s[1..]));
      FilterConcat(keep, paths(s[0]), FlatMap(paths, s[1..]));
    }
  }

  function WardPaths(base: Scope): WardNode -> seq<Scope> {
    (w: WardNode) => Map((u: Id) => base.(ward := Some(w.id), unit := Some(u)), w.units)
  }

  function ConstituencyPaths(base: Scope): ConstituencyNode -> seq<Scope> {
    (c: ConstituencyNode) => FlatMap(WardPaths(base.(constituency := Some(c.id))), c.wards)
  }

  function FederalPaths(base: Scope): FederalNode -> seq<Scope> {
    (f: FederalNode) => FlatMap(ConstituencyPaths(base.(federal := Some(f.id))), f.constituencies)
  }

  function DistrictPaths(base: Scope): DistrictNode -> seq<Scope> {
    (d: DistrictNode) => FlatMap(FederalPaths(base.(district := Some(d.id))), d.federals)
  }

  /** Every path from the root to a polling unit, in the order of the tree. */
  function Paths(tree: Tree): seq<Scope> {
    FlatMap(DistrictPaths(Scope(tree.stateId, None, None, None, None, None)), tree.districts)
  }

  /** The keys of a path at a level and above are those of the branch it runs through. */
  predicate Under(base: Scope, t: Scope, level: Level) { forall l: Level :: Rank(l) >= Rank(level) ==> Key(t, l) == Key(base, l) }

  lemma ConstituencyPathsUnder(base: Scope, c: ConstituencyNode)
    ensures forall t :: t in ConstituencyPaths(base)(c) ==> Under(base.(constituency := Some(c.id)), t, StateConstituency)
  {
    var here := base.(constituency := Some(c.id));
    forall t | t in ConstituencyPaths(base)(c) ensures Under(here, t, StateConstituency) {
      FlatMapIn(WardPaths(here), c.wards, t);
    }
  }

  lemma FederalPathsUnder(base: Scope, f: FederalNode)
    ensures forall t :: t in FederalPaths(base)(f) ==> Under(base.(federal := Some(f.id)), t, FederalConstituency)
  {
    var here := base.(federal := Some(f.id));
    forall t | t in FederalPaths(base)(f) ensures Under(here, t, FederalConstituency) {
      FlatMapIn(ConstituencyPaths(here), f.constituencies, t);
      var c :| c in f.constituencies && t in ConstituencyPaths(here)(c);
      ConstituencyPathsUnder(here, c);
    }
  }

  lemma DistrictPathsUnder(base: Scope, d: DistrictNode)
    ensures forall t :: t in DistrictPaths(base)(d) ==> Under(base.(district := Some(d.id)), t, SenatorialDistrict)
  {
    var here := base.(district := Some(d.id));
    forall t | t in DistrictPaths(base)(d) ensures Under(here, t, SenatorialDistrict) {
      FlatMapIn(FederalPaths(here), d.federals, t);
      var f :| f in d.federals && t in FederalPaths(here)(f);
      FederalPathsUnder(here, f);
    }
  }

  function Agreeing(p: Profile, top: Level): Scope -> bool { (t: Scope) => Agrees(p, t, top) }

  lemma {:induction false} PrunedUnits(p: Profile, base: Scope, w: WardNode)
    requires Some(w.id) == p.scope.ward && p.level == PollingUnitLevel
    ensures WardPaths(base)(w.(units := FlatMap((u: Id) => if Some(u) == p.scope.unit then [u] else [], w.units)))
         == Filter(Agreeing(p, WardLevel), WardPaths(base)(w))
    decreases |w.units|
  {
    var pick := (u: Id) => if Some(u) == p.scope.unit then [u] else [];
    if w.units != [] {
      var rest := w.(units := w.units[1..]);
      PrunedUnits(p, base, rest);
      var t := base.(ward := Some(w.id), unit := Some(w.units[0]));
      assert WardPaths(base)(w) == [t] + WardPaths(base)(rest);
      assert Agrees(p, t, WardLevel) <==> Some(w.units[0]) == p.scope.unit;
      assert WardPaths(base)(w.(units := FlatMap(pick, w.units)))
          == (if Agrees(p, t, WardLevel) then [t] else []) + WardPaths(base)(w.(units := FlatMap(pick, rest.units)));
    }
  }

  lemma PrunedWard(p: Profile, base: Scope, w: WardNode)
    requires Rank(p.level) <= Rank(WardLevel)
    ensures FlatMap(WardPaths(base), ScopeWard(p)(w)) == Filter(Agreeing(p, WardLevel), WardPaths(base)(w))
  {
    var keep, paths := Agreeing(p, WardLevel), WardPaths(base);
    if Some(w.id) != p.scope.ward {
      FilterAllOrNone(keep, paths(w), false);
    } else if p.level == WardLevel {
      FilterAllOrNone(keep, paths(w), true);
      FlatMapOne(paths, w);
    } else {
      PrunedUnits(p, base, w);
      FlatMapOne(paths, w.(units := FlatMap((u: Id) => if Some(u) == p.scope.unit then [u] else [], w.units)));
    }
  }

  lemma PrunedConstituency(p: Profile, base: Scope, c: ConstituencyNode)
    requires Rank(p.level) <= Rank(StateConstituency)
    ensures FlatMap(ConstituencyPaths(base), ScopeConstituency(p)(c)) == Filter(Agreeing(p, StateConstituency), ConstituencyPaths(base)(c))
  {
    var keep, paths, here := Agreeing(p, StateConstituency), ConstituencyPaths(base), base.(constituency := Some(c.id));
    ConstituencyPathsUnder(base, c);
    assert forall t :: t in paths(c) ==> Key(t, StateConstituency) == Some(c.id);
    if Some(c.id) != p.scope.constituency {
      FilterAllOrNone(keep, paths(c), false);
    } else if p.level == StateConstituency {
      FilterAllOrNone(keep, paths(c), true);
      FlatMapOne(paths, c);
    } else {
      forall w | w in c.wards { PrunedWard(p, here, w); }
      PruneEach(ScopeWard(p), WardPaths(here), Agreeing(p, WardLevel), c.wards);
      FlatMapOne(paths, c.(wards := FlatMap(ScopeWard(p), c.wards)));
      FilterAlike(keep, Agreeing(p, WardLevel), paths(c));
    }
  }

  lemma PrunedFederal(p: Profile, base: Scope, f: FederalNode)
    requires Rank(p.level) <= Rank(FederalConstituency)
    ensures FlatMap(FederalPaths(base), ScopeFederal(p)(f)) == Filter(Agreeing(p, FederalConstituency), FederalPaths(base)(f))
  {
    var keep, paths, here := Agreeing(p, FederalConstituency), FederalPaths(base), base.(federal := Some(f.id));
    FederalPathsUnder(base, f);
    assert forall t :: t in paths(f) ==> Key(t, FederalConstituency) == Some(f.id);
    if Some(f.id) != p.scope.federal {
      FilterAllOrNone(keep, paths(f), false);
    } else if p.level == FederalConstituency {
      FilterAllOrNone(keep, paths(f), true);
      FlatMapOne(paths, f);
    } else {
      forall c | c in f.constituencies { PrunedConstituency(p, here, c); }
      PruneEach(ScopeConstituency(p), ConstituencyPaths(here), Agreeing(p, StateConstituency), f.constituencies);
      FlatMapOne(paths, f.(constituencies := FlatMap(ScopeConstituency(p), f.constituencies)));
      FilterAlike(keep, Agreeing(p, StateConstituency), paths(f));
    }
  }

  lemma PrunedDistrict(p: Profile, base: Scope, d: DistrictNode)
    ensures FlatMap(DistrictPaths(base), ScopeDistrict(p)(d)) == Filter(Agreeing(p, SenatorialDistrict), DistrictPaths(base)(d))
  {
    var keep, paths, here := Agreeing(p, SenatorialDistrict), DistrictPaths(base), base.(district := Some(d.id));
    DistrictPathsUnder(base, d);
    assert forall t :: t in paths(d) ==> Key(t, SenatorialDistrict) == Some(d.id);
    if Some(d.id) != p.scope.district {
      FilterAllOrNone(keep, paths(d), false);
    } else if p.level == SenatorialDistrict {
      FilterAllOrNone(keep, paths(d), true);
      FlatMapOne(paths, d);
    } else {
      forall f | f in d.federals { PrunedFederal(p, here, f); }
      PruneEach(ScopeFederal(p), FederalPaths(here), Agreeing(p, FederalConstituency), d.federals);
      FlatMapOne(paths, d.(federals := FlatMap(ScopeFederal(p), d.federals)));
      FilterAlike(keep, Agreeing(p, FederalConstituency), paths(d));
    }
  }

  /** The path agrees with the profile at every level the profile reaches. */
  predicate AgreesThroughout(p: Profile, t: Scope) { forall l: Level :: Rank(l) >= Rank(p.level) ==> Key(p.scope, l) == Key(t, l) }

  lemma AgreesIff(p: Profile, t: Scope)
    ensures Agrees(p, t, SenatorialDistrict) <==> AgreesThroughout(p, t)
  {
    assert AgreesThroughout(p, t) <==>
      At(p, t, SenatorialDistrict) && At(p, t, FederalConstituency) && At(p, t, StateConstituency) && At(p, t, WardLevel) && At(p, t, PollingUnitLevel);
  }

  lemma TreePruned(tree: Tree, p: Profile)
    ensures Paths(ScopeOrganizationTree(tree, p)) == Filter(Agreeing(p, SenatorialDistrict), Paths(tree))
  {
    var base := Scope(tree.stateId, None, None, None, None, None);
    forall d | d in tree.districts { PrunedDistrict(p, base, d); }
    PruneEach(ScopeDistrict(p), DistrictPaths(base), Agreeing(p, SenatorialDistrict), tree.districts);
  }

  /** The scoped tree lists, in order and as often, exactly the paths that agree with the profile at every
      level it reaches; it names no officer of the state. */
  lemma ScopedTreeListsAgreeingPaths(tree: Tree, p: Profile)
    ensures Paths(ScopeOrganizationTree(tree, p)) == Filter((t: Scope) => AgreesThroughout(p, t), Paths(tree))
    ensures ScopeOrganizationTree(tree, p).stateOfficers == [] && ScopeOrganizationTree(tree, p).stateId == tree.stateId
  {
    TreePruned(tree, p);
    forall t | t in Paths(tree) ensures Agrees(p, t, SenatorialDistrict) == AgreesThroughout(p, t) { AgreesIff(p, t); }
    FilterAlike(Agreeing(p, SenatorialDistrict), (t: Scope) => AgreesThroughout(p, t), Paths(tree));
  }
}
