/** Validation of an identity release, and why an accepted one can always be walked.

    A release arrives as parsed rows. The validator accumulates failures; it is proved to
    find none exactly when the release is well formed in the declarative sense below. */
module IdentityRelease {
  import opened Prelude
  import opened Territory
  import opened EdgeGovernance

  const LGA := "LGA"
  const FEDERAL := "FEDERAL_CONSTITUENCY"
  const STATE_CONSTITUENCY := "STATE_CONSTITUENCY"
  const WARD := "WARD"
  const POLLING_UNIT := "POLLING_UNIT"

  /** A territories.csv row; absent parent fields are `None`. */
  datatype Row = Row(kind: string, id: Id, stateId: Id, name: string, namespace: string, sourceCode: string,
                     lgaId: Option<Id>, federalId: Option<Id>, constituencyId: Option<Id>, wardId: Option<Id>)

  datatype Relationship = Relationship(parentKind: string, parentId: Id, childKind: string, childId: Id)

  datatype Membership = Membership(kind: string, id: Id, lgaId: Id)

  /** An INFERRED-EDGES.csv row. */
  datatype Inferred = Inferred(lga: string, ward: string, constituency: string, basis: string)

  datatype Release = Release(
    namespaces: set<string>,
    declared: map<string, nat>,
    rows: seq<Row>,
    relationships: seq<Relationship>,
    memberships: seq<Membership>,
    inferred: seq<Inferred>)

  datatype Failure =
    | BadRow(row: nat) | DuplicateId(id: Id) | DuplicateSource(id: Id) | CountMismatch(kind: string)
    | BadRelationship(row: nat) | BadParent(id: Id) | BadMembership(row: nat) | NoMembership(id: Id)
    | UnknownInferred(row: nat) | ContradictedInferred(ward: Id)

  // ---------- territory rows ----------

  predicate IsIdChar(c: char) { 'a' <= c <= 'z' || '0' <= c <= '9' }

  /** Lowercase ASCII kebab-case. */
  predicate IsCanonicalId(s: string) {
    && s != "" && IsIdChar(s[0]) && IsIdChar(s[|s| - 1])
    && (forall i :: 0 <= i < |s| ==> IsIdChar(s[i]) || s[i] == '-')
    && (forall i :: 0 < i < |s| && s[i] == '-' ==> s[i - 1] != '-')
  }

  predicate RowOk(r: Row, namespaces: set<string>) {
    && r.kind in {LGA, STATE_CONSTITUENCY, WARD, POLLING_UNIT}
    && r.name != "" && r.namespace != "" && r.sourceCode != ""
    && r.stateId == OGUN && IsCanonicalId(r.id) && r.namespace in namespaces
  }

  /** The last row under each id, as the source's Map keeps it. */
  function ById(rows: seq<Row>): map<Id, Row> {
    if rows == [] then map[] else ById(rows[..|rows| - 1])[rows[|rows| - 1].id := rows[|rows| - 1]]
  }

  function SourceKey(r: Row): (string, string, string) { (r.kind, r.namespace, r.sourceCode) }

  function IdOf(r: Row): Id { r.id }

  predicate DistinctIds(rows: seq<Row>) { Distinct(Map(IdOf, rows)) }

  predicate DistinctSources(rows: seq<Row>) { Distinct(Map(SourceKey, rows)) }

  predicate RowsFit(rows: seq<Row>, namespaces: set<string>) { forall r :: r in rows ==> RowOk(r, namespaces) }

  function CountKind(rows: seq<Row>, kind: string): nat {
    if rows == [] then 0 else CountKind(rows[..|rows| - 1], kind) + (if rows[|rows| - 1].kind == kind then 1 else 0)
  }

  predicate CountOk(declared: map<string, nat>, rows: seq<Row>, kind: string) {
    kind in declared ==> declared[kind] == CountKind(rows, kind)
  }

  lemma {:induction false} ByIdKeys(rows: seq<Row>)
    ensures forall id :: id in ById(rows) <==> id in Map(IdOf, rows)
    ensures forall id :: id in ById(rows) ==> ById(rows)[id] in rows && ById(rows)[id].id == id
  {
    if rows != [] {
      var n := |rows| - 1;
      ByIdKeys(rows[..n]);
      PrefixStep(IdOf, rows, n);
      assert rows[..n + 1] == rows;
    }
  }

  // ---------- command relationships ----------

  predicate AllowedPair(parentKind: string, childKind: string) {
    (parentKind, childKind) in {(FEDERAL, STATE_CONSTITUENCY), (STATE_CONSTITUENCY, WARD), (WARD, POLLING_UNIT)}
  }

  predicate IsKind(byId: map<Id, Row>, id: Option<Id>, kind: string) {
    id.Some? && id.value in byId && byId[id.value].kind == kind
  }

  predicate RelationshipOk(byId: map<Id, Row>, r: Relationship) {
    && r.parentId != "" && r.childId != "" && AllowedPair(r.parentKind, r.childKind)
    && IsKind(byId, Some(r.childId), r.childKind)
    && (r.parentId in byId ==> byId[r.parentId].kind == r.parentKind)
    && (r.parentKind != FEDERAL ==> r.parentId in byId)
  }

  predicate RelationshipsFit(byId: map<Id, Row>, rs: seq<Relationship>) { forall r :: r in rs ==> RelationshipOk(byId, r) }

  function ChildRows(rs: seq<Relationship>, kind: string, id: Id): seq<Relationship> {
    if rs == [] then []
    else
      var n := |rs| - 1;
      ChildRows(rs[..n], kind, id) + (if rs[n].childKind == kind && rs[n].childId == id then [rs[n]] else [])
  }

  predicate SingleParent(rs: seq<Relationship>, r: Row, parentKind: string, parentId: Id) {
    var found := ChildRows(rs, r.kind, r.id);
    |found| == 1 && found[0].parentKind == parentKind && found[0].parentId == parentId
  }

  predicate ParentsOk(byId: map<Id, Row>, rs: seq<Relationship>, r: Row) {
    if r.kind == LGA then r.lgaId.None? && r.federalId.None? && r.constituencyId.None? && r.wardId.None?
    else if r.kind == STATE_CONSTITUENCY then
      IsKind(byId, r.lgaId, LGA) && r.federalId.Some? && SingleParent(rs, r, FEDERAL, r.federalId.value)
    else if r.kind == WARD then
      && IsKind(byId, r.lgaId, LGA) && IsKind(byId, r.constituencyId, STATE_CONSTITUENCY)
      && SingleParent(rs, r, STATE_CONSTITUENCY, r.constituencyId.value)
    else if r.kind == POLLING_UNIT then
      IsKind(byId, r.lgaId, LGA) && IsKind(byId, r.wardId, WARD) && SingleParent(rs, r, WARD, r.wardId.value)
    else true
  }

  // ---------- LGA memberships ----------

  predicate MembershipOk(byId: map<Id, Row>, m: Membership) {
    m.kind == STATE_CONSTITUENCY && IsKind(byId, Some(m.id), m.kind) && IsKind(byId, Some(m.lgaId), LGA)
  }

  predicate HasMembership(ms: seq<Membership>, r: Row) {
    r.kind == STATE_CONSTITUENCY ==> exists i :: 0 <= i < |ms| && ms[i].kind == STATE_CONSTITUENCY && ms[i].id == r.id
  }

  // ---------- inferred edges ----------

  /** The LGA a folded name reads as: the last one bearing it. `fold` trims and upper-cases. */
  function LgaNamed(rows: seq<Row>, fold: string -> string, name: string): Option<Id> {
    if rows == [] then None
    else
      var r := rows[|rows| - 1];
      if r.kind == LGA && fold(r.name) == name then Some(r.id) else LgaNamed(rows[..|rows| - 1], fold, name)
  }

  /** The last ward of that LGA bearing the folded name. */
  function WardNamed(rows: seq<Row>, fold: string -> string, lgaId: Id, name: string): Option<Id> {
    if rows == [] then None
    else
      var r := rows[|rows| - 1];
      if r.kind == WARD && r.lgaId == Some(lgaId) && fold(r.name) == name then Some(r.id)
      else WardNamed(rows[..|rows| - 1], fold, lgaId, name)
  }

  /** The `lgaSourceCode:wardSourceCode` key of a ward row. */
  function BuildKey(byId: map<Id, Row>, r: Row): Option<string> {
    if IsKind(byId, r.lgaId, LGA) then Some(byId[r.lgaId.value].sourceCode + ":" + r.sourceCode) else None
  }

  function WardKeyed(rows: seq<Row>, byId: map<Id, Row>, key: string): Option<Id> {
    if rows == [] then None
    else
      var r := rows[|rows| - 1];
      if r.kind == WARD && BuildKey(byId, r) == Some(key) then Some(r.id) else WardKeyed(rows[..|rows| - 1], byId, key)
  }

  /** The ward an inferred row names, by LGA and name or else by build key. */
  function WardOf(rows: seq<Row>, byId: map<Id, Row>, fold: string -> string, e: Inferred): Option<Id> {
    var lga := LgaNamed(rows, fold, fold(e.lga));
    if lga.None? then None
    else
      var named := WardNamed(rows, fold, lga.value, fold(e.ward));
      if named.Some? then named else WardKeyed(rows, byId, e.ward)
  }

  function BasisOf(e: Inferred): string { if e.basis != "" then e.basis else "inferred" }

  predicate Survives(byId: map<Id, Row>, wardId: Id, e: Inferred) {
    e.constituency == "" || (wardId in byId && byId[wardId].constituencyId == Some(e.constituency))
  }

  /** The rows naming one ward, in file order. */
  function RowsFor(es: seq<Inferred>, rows: seq<Row>, byId: map<Id, Row>, fold: string -> string, wardId: Id): seq<Inferred> {
    if es == [] then []
    else
      var n := |es| - 1;
      RowsFor(es[..n], rows, byId, fold, wardId)
      + (if WardOf(rows, byId, fold, es[n]) == Some(wardId) then [es[n]] else [])
  }

  /** The first row that agrees with the edge territories.csv records. */
  function FirstSurvivor(byId: map<Id, Row>, wardId: Id, es: seq<Inferred>): Option<Inferred> {
    if es == [] then None
    else if Survives(byId, wardId, es[0]) then Some(es[0])
    else FirstSurvivor(byId, wardId, es[1..])
  }

  function SurvivorFor(release: Release, fold: string -> string, wardId: Id): Option<Inferred> {
    var byId := ById(release.rows);
    FirstSurvivor(byId, wardId, RowsFor(release.inferred, release.rows, byId, fold, wardId))
  }

  predicate Named(release: Release, fold: string -> string, i: nat)
    requires i < |release.inferred|
  {
    WardOf(release.rows, ById(release.rows), fold, release.inferred[i]).Some?
  }

  // ---------- the declarative contract ----------

  predicate StructureOk(release: Release) {
    var byId := ById(release.rows);
    && RowsFit(release.rows, release.namespaces)
    && DistinctIds(release.rows) && DistinctSources(release.rows)
    && CountOk(release.declared, release.rows, STATE_CONSTITUENCY) && CountOk(release.declared, release.rows, LGA)
    && CountOk(release.declared, release.rows, WARD) && CountOk(release.declared, release.rows, POLLING_UNIT)
    && RelationshipsFit(byId, release.relationships) && Distinct(release.relationships)
    && (forall i :: 0 <= i < |release.rows| ==> ParentsOk(byId, release.relationships, release.rows[i]))
    && (forall i :: 0 <= i < |release.memberships| ==> MembershipOk(byId, release.memberships[i]))
    && Distinct(release.memberships)
    && (forall i :: 0 <= i < |release.rows| ==> HasMembership(release.memberships, release.rows[i]))
  }

  predicate InferredOk(release: Release, fold: string -> string) {
    var byId := ById(release.rows);
    forall i :: 0 <= i < |release.inferred| ==>
      var named := WardOf(release.rows, byId, fold, release.inferred[i]);
      named.Some? && SurvivorFor(release, fold, named.value).Some?
  }

  predicate WellFormed(release: Release, fold: string -> string) { StructureOk(release) && InferredOk(release, fold) }

  // ---------- the validator ----------

  lemma OneMoreRow(rows: seq<Row>, n: nat, namespaces: set<string>)
    requires n < |rows|
    ensures RowsFit(rows[..n + 1], namespaces) <==> RowsFit(rows[..n], namespaces) && RowOk(rows[n], namespaces)
    ensures ById(rows[..n + 1]) == ById(rows[..n])[rows[n].id := rows[n]]
    ensures DistinctIds(rows[..n + 1]) <==> DistinctIds(rows[..n]) && rows[n].id !in ById(rows[..n])
    ensures Map(SourceKey, rows[..n + 1]) == Map(SourceKey, rows[..n]) + [SourceKey(rows[n])]
    ensures DistinctSources(rows[..n + 1]) <==>
      DistinctSources(rows[..n]) && SourceKey(rows[n]) !in Map(SourceKey, rows[..n])
  {
    ByIdKeys(rows[..n]);
    PrefixStep(IdOf, rows, n);
    PrefixStep(SourceKey, rows, n);
    DistinctSnoc(Map(IdOf, rows[..n]), rows[n].id);
    DistinctSnoc(Map(SourceKey, rows[..n]), SourceKey(rows[n]));
  }

  /** Field checks, and the two maps that detect duplicates. */
  method CheckRows(release: Release) returns (failures: seq<Failure>, byId: map<Id, Row>)
    ensures byId == ById(release.rows)
    ensures failures == [] <==>
      RowsFit(release.rows, release.namespaces) && DistinctIds(release.rows) && DistinctSources(release.rows)
  {
    failures, byId := [], map[];
    var rows := release.rows;
    var bySourceCode: set<(string, string, string)> := {};
    for n := 0 to |rows|
      invariant byId == ById(rows[..n])
      invariant forall k :: k in bySourceCode <==> k in Map(SourceKey, rows[..n])
      invariant failures == [] <==>
        RowsFit(rows[..n], release.namespaces) && DistinctIds(rows[..n]) && DistinctSources(rows[..n])
    {
      var r := rows[n];
      OneMoreRow(rows, n, release.namespaces);
      if !RowOk(r, release.namespaces) {
        failures := failures + [BadRow(n + 2)];
      }
      if r.id in byId {
        failures := failures + [DuplicateId(r.id)];
      }
      byId := byId[r.id := r];
      if SourceKey(r) in bySourceCode {
        failures := failures + [DuplicateSource(r.id)];
      }
      bySourceCode := bySourceCode + {SourceKey(r)};
    }
    assert rows[..|rows|] == rows;
  }

  method CheckCounts(release: Release) returns (failures: seq<Failure>)
    ensures failures == [] <==>
      && CountOk(release.declared, release.rows, STATE_CONSTITUENCY) && CountOk(release.declared, release.rows, LGA)
      && CountOk(release.declared, release.rows, WARD) && CountOk(release.declared, release.rows, POLLING_UNIT)
  {
    failures := [];
    var kinds := [STATE_CONSTITUENCY, LGA, WARD, POLLING_UNIT];
    for n := 0 to |kinds|
      invariant failures == [] <==> forall i :: 0 <= i < n ==> CountOk(release.declared, release.rows, kinds[i])
    {
      if kinds[n] in release.declared && release.declared[kinds[n]] != CountKind(release.rows, kinds[n]) {
        failures := failures + [CountMismatch(kinds[n])];
      }
    }
    assert kinds[0] == STATE_CONSTITUENCY && kinds[1] == LGA && kinds[2] == WARD && kinds[3] == POLLING_UNIT;
  }

  type Children = map<(string, Id), seq<Relationship>>

  function Under(children: Children, kind: string, id: Id): seq<Relationship> {
    if (kind, id) in children then children[(kind, id)] else []
  }

  lemma OneMoreRelationship(byId: map<Id, Row>, rs: seq<Relationship>, n: nat)
    requires n < |rs|
    ensures RelationshipsFit(byId, rs[..n + 1]) <==> RelationshipsFit(byId, rs[..n]) && RelationshipOk(byId, rs[n])
    ensures Distinct(rs[..n + 1]) <==> Distinct(rs[..n]) && rs[n] !in rs[..n]
    ensures forall r :: r in rs[..n + 1] <==> r in rs[..n] || r == rs[n]
  {
    assert rs[..n + 1] == rs[..n] + [rs[n]];
    DistinctSnoc(rs[..n], rs[n]);
  }

  method CheckRelationships(rs: seq<Relationship>, byId: map<Id, Row>) returns (failures: seq<Failure>, children: Children)
    ensures failures == [] <==> RelationshipsFit(byId, rs) && Distinct(rs)
    ensures forall kind, id :: Under(children, kind, id) == ChildRows(rs, kind, id)
  {
    failures, children := [], map[];
    var keys: set<Relationship> := {};
    for n := 0 to |rs|
      invariant forall r :: r in keys <==> r in rs[..n]
      invariant failures == [] <==> RelationshipsFit(byId, rs[..n]) && Distinct(rs[..n])
      invariant forall kind, id :: Under(children, kind, id) == ChildRows(rs[..n], kind, id)
    {
      var r := rs[n];
      OneMoreRelationship(byId, rs, n);
      if r in keys {
        failures := failures + [BadRelationship(n + 2)];
      }
      keys := keys + {r};
      if !RelationshipOk(byId, r) {
        failures := failures + [BadRelationship(n + 2)];
      }
      children := Adopt(children, rs, n);
    }
    assert rs[..|rs|] == rs;
  }

  /** Files one relationship under its child. */
  method Adopt(children: Children, rs: seq<Relationship>, n: nat) returns (next: Children)
    requires n < |rs|
    requires forall kind, id :: Under(children, kind, id) == ChildRows(rs[..n], kind, id)
    ensures forall kind, id :: Under(next, kind, id) == ChildRows(rs[..n + 1], kind, id)
  {
    var r := rs[n];
    next := children[(r.childKind, r.childId) := Under(children, r.childKind, r.childId) + [r]];
    assert rs[..n + 1][..n] == rs[..n];
  }

  method CheckParents(rows: seq<Row>, byId: map<Id, Row>, ghost rs: seq<Relationship>, children: Children)
    returns (failures: seq<Failure>)
    requires forall kind, id :: Under(children, kind, id) == ChildRows(rs, kind, id)
    ensures failures == [] <==> forall i :: 0 <= i < |rows| ==> ParentsOk(byId, rs, rows[i])
  {
    failures := [];
    for n := 0 to |rows|
      invariant failures == [] <==> forall i :: 0 <= i < n ==> ParentsOk(byId, rs, rows[i])
    {
      var r := rows[n];
      var ok := true;
      if r.kind == LGA && (r.lgaId.Some? || r.federalId.Some? || r.constituencyId.Some? || r.wardId.Some?) {
        ok := false;
      }
      if r.kind in {STATE_CONSTITUENCY, WARD, POLLING_UNIT} {
        if !IsKind(byId, r.lgaId, LGA) {
          ok := false;
        }
        var wanted, parentKind := r.federalId, FEDERAL;
        if r.kind == WARD {
          wanted, parentKind := r.constituencyId, STATE_CONSTITUENCY;
        } else if r.kind == POLLING_UNIT {
          wanted, parentKind := r.wardId, WARD;
        }
        if wanted.None? || (parentKind != FEDERAL && !IsKind(byId, wanted, parentKind)) {
          ok := false;
        } else {
          var found := Under(children, r.kind, r.id);
          if |found| != 1 || found[0].parentKind != parentKind || found[0].parentId != wanted.value {
            ok := false;
          }
        }
      }
      assert ok <==> ParentsOk(byId, rs, r);
      if !ok {
        failures := failures + [BadParent(r.id)];
      }
    }
  }

  method CheckMemberships(release: Release, byId: map<Id, Row>) returns (failures: seq<Failure>)
    ensures failures == [] <==>
      && (forall i :: 0 <= i < |release.memberships| ==> MembershipOk(byId, release.memberships[i]))
      && Distinct(release.memberships)
      && (forall i :: 0 <= i < |release.rows| ==> HasMembership(release.memberships, release.rows[i]))
  {
    failures := [];
    var ms := release.memberships;
    var keys: set<Membership> := {};
    var covered: set<Id> := {};
    for n := 0 to |ms|
      invariant keys == set i | 0 <= i < n :: ms[i]
      invariant covered == set i | 0 <= i < n && ms[i].kind == STATE_CONSTITUENCY :: ms[i].id
      invariant failures == [] <==>
        (forall i :: 0 <= i < n ==> MembershipOk(byId, ms[i])) && (forall i, j :: 0 <= i < j < n ==> ms[i] != ms[j])
    {
      if ms[n] in keys || !MembershipOk(byId, ms[n]) {
        failures := failures + [BadMembership(n)];
      }
      keys := keys + {ms[n]};
      if ms[n].kind == STATE_CONSTITUENCY {
        covered := covered + {ms[n].id};
      }
    }
    ghost var before := failures;
    for n := 0 to |release.rows|
      invariant failures == [] <==> before == [] && forall i :: 0 <= i < n ==> HasMembership(ms, release.rows[i])
    {
      var r := release.rows[n];
      if r.kind == STATE_CONSTITUENCY && r.id !in covered {
        failures := failures + [NoMembership(r.id)];
      }
    }
  }

  function RowsUnder(byWard: map<Id, seq<Inferred>>, w: Id): seq<Inferred> { if w in byWard then byWard[w] else [] }

  lemma OneMoreInferred(es: seq<Inferred>, n: nat, rows: seq<Row>, byId: map<Id, Row>, fold: string -> string)
    requires n < |es|
    ensures forall w :: RowsFor(es[..n + 1], rows, byId, fold, w)
                     == RowsFor(es[..n], rows, byId, fold, w) + Filed(WardOf(rows, byId, fold, es[n]), es[n], w)
  {
    assert es[..n + 1][..n] == es[..n];
  }

  function Filed(named: Option<Id>, e: Inferred, w: Id): seq<Inferred> { if named == Some(w) then [e] else [] }

  method FileInferred(byWard: map<Id, seq<Inferred>>, named: Option<Id>, e: Inferred) returns (next: map<Id, seq<Inferred>>)
    requires forall w :: w in byWard ==> byWard[w] != []
    ensures forall w :: RowsUnder(next, w) == RowsUnder(byWard, w) + Filed(named, e, w)
    ensures forall w :: w in next ==> next[w] != []
  {
    next := byWard;
    if named.Some? {
      next := next[named.value := RowsUnder(next, named.value) + [e]];
    }
  }

  /** Groups the inferred rows by the ward they name. */
  method GroupInferred(release: Release, byId: map<Id, Row>, fold: string -> string)
    returns (failures: seq<Failure>, byWard: map<Id, seq<Inferred>>)
    requires byId == ById(release.rows)
    ensures failures == [] <==> forall i :: 0 <= i < |release.inferred| ==> Named(release, fold, i)
    ensures forall w :: RowsUnder(byWard, w) == RowsFor(release.inferred, release.rows, byId, fold, w)
    ensures forall w :: w in byWard ==> byWard[w] != []
  {
    failures, byWard := [], map[];
    var es := release.inferred;
    for n := 0 to |es|
      invariant forall w :: RowsUnder(byWard, w) == RowsFor(es[..n], release.rows, byId, fold, w)
      invariant forall w :: w in byWard ==> byWard[w] != []
      invariant failures == [] <==> forall i :: 0 <= i < n ==> Named(release, fold, i)
    {
      var named := WardOf(release.rows, byId, fold, es[n]);
      OneMoreInferred(es, n, release.rows, byId, fold);
      assert named.Some? <==> Named(release, fold, n);
      if named.None? {
        failures := failures + [UnknownInferred(n + 2)];
      }
      byWard := FileInferred(byWard, named, es[n]);
    }
    assert es[..|es|] == es;
  }

  /** Keeps each named ward's first agreeing basis. */
  method ResolveInferredEdges(release: Release, byId: map<Id, Row>, fold: string -> string)
    returns (failures: seq<Failure>, edges: map<Id, string>)
    requires byId == ById(release.rows)
    ensures failures == [] <==> InferredOk(release, fold)
    ensures forall w :: w in edges <==>
      RowsFor(release.inferred, release.rows, byId, fold, w) != [] && SurvivorFor(release, fold, w).Some?
    ensures forall w :: w in edges ==> edges[w] == BasisOf(SurvivorFor(release, fold, w).value)
  {
    var byWard: map<Id, seq<Inferred>>;
    failures, byWard := GroupInferred(release, byId, fold);
    edges := map[];
    ghost var unresolved := failures;
    var todo := byWard.Keys;
    while todo != {}
      invariant todo <= byWard.Keys
      invariant forall w :: w in edges <==> w in byWard && w !in todo && SurvivorFor(release, fold, w).Some?
      invariant forall w :: w in edges ==> edges[w] == BasisOf(SurvivorFor(release, fold, w).value)
      invariant failures == [] <==>
        unresolved == [] && forall w :: w in byWard && w !in todo ==> SurvivorFor(release, fold, w).Some?
    {
      var w :| w in todo;
      todo := todo - {w};
      assert byWard[w] == RowsUnder(byWard, w);
      var surviving := FirstSurvivor(byId, w, byWard[w]);
      if surviving.None? {
        failures := failures + [ContradictedInferred(w)];
      } else {
        edges := edges[w := BasisOf(surviving.value)];
      }
    }
    forall w ensures w in byWard <==> RowsFor(release.inferred, release.rows, byId, fold, w) != [] {
      assert RowsUnder(byWard, w) == RowsFor(release.inferred, release.rows, byId, fold, w);
    }
    InferredOkByWard(release, fold, byWard.Keys);
  }

  /** Every row naming a ward with a survivor, said row by row and ward by ward. */
  lemma InferredOkByWard(release: Release, fold: string -> string, wards: set<Id>)
    requires forall w :: w in wards <==> RowsFor(release.inferred, release.rows, ById(release.rows), fold, w) != []
    ensures InferredOk(release, fold) <==>
      && (forall i :: 0 <= i < |release.inferred| ==> Named(release, fold, i))
      && (forall w :: w in wards ==> SurvivorFor(release, fold, w).Some?)
  {
    var byId := ById(release.rows);
    forall w ensures w in wards <==>
      exists i :: 0 <= i < |release.inferred| && WardOf(release.rows, byId, fold, release.inferred[i]) == Some(w)
    {
      RowsForNonEmpty(release.inferred, release.rows, byId, fold, w);
    }
    if InferredOk(release, fold) {
      forall i | 0 <= i < |release.inferred| ensures Named(release, fold, i) {}
      forall w | w in wards ensures SurvivorFor(release, fold, w).Some? {
        var i :| 0 <= i < |release.inferred| && WardOf(release.rows, byId, fold, release.inferred[i]) == Some(w);
      }
    }
    if (forall i :: 0 <= i < |release.inferred| ==> Named(release, fold, i)) &&
       forall w :: w in wards ==> SurvivorFor(release, fold, w).Some? {
      forall i | 0 <= i < |release.inferred|
        ensures var named := WardOf(release.rows, byId, fold, release.inferred[i]);
          named.Some? && SurvivorFor(release, fold, named.value).Some?
      {
        assert Named(release, fold, i);
      }
    }
  }

  method ValidateIdentityRelease(release: Release, fold: string -> string)
    returns (failures: seq<Failure>, inferredWardEdges: map<Id, string>)
    ensures failures == [] <==> WellFormed(release, fold)
    ensures failures == [] ==> forall w :: w in inferredWardEdges <==>
      exists i :: 0 <= i < |release.inferred| && WardOf(release.rows, ById(release.rows), fold, release.inferred[i]) == Some(w)
    ensures failures == [] ==> forall w :: w in inferredWardEdges ==>
      SurvivorFor(release, fold, w).Some? && inferredWardEdges[w] == BasisOf(SurvivorFor(release, fold, w).value)
  {
    var rowFailures, byId := CheckRows(release);
    var countFailures := CheckCounts(release);
    var relationshipFailures, children := CheckRelationships(release.relationships, byId);
    var parentFailures := CheckParents(release.rows, byId, release.relationships, children);
    var membershipFailures := CheckMemberships(release, byId);
    failures := rowFailures + countFailures + relationshipFailures + parentFailures + membershipFailures;
    inferredWardEdges := map[];
    if failures == [] {
      failures, inferredWardEdges := ResolveInferredEdges(release, byId, fold);
      forall w ensures RowsFor(release.inferred, release.rows, byId, fold, w) != [] <==>
        exists i :: 0 <= i < |release.inferred| && WardOf(release.rows, byId, fold, release.inferred[i]) == Some(w)
      {
        RowsForNonEmpty(release.inferred, release.rows, byId, fold, w);
      }
    }
  }

  lemma {:induction false} RowsForNonEmpty(
    es: seq<Inferred>, rows: seq<Row>, byId: map<Id, Row>, fold: string -> string, w: Id)
    ensures RowsFor(es, rows, byId, fold, w) != [] <==>
      exists i :: 0 <= i < |es| && WardOf(rows, byId, fold, es[i]) == Some(w)
    ensures forall e :: e in RowsFor(es, rows, byId, fold, w) ==> e in es && WardOf(rows, byId, fold, e) == Some(w)
  {
    if es != [] {
      var n := |es| - 1;
      RowsForNonEmpty(es[..n], rows, byId, fold, w);
      if WardOf(rows, byId, fold, es[n]) != Some(w) {
        if i :| 0 <= i < |es| && WardOf(rows, byId, fold, es[i]) == Some(w) { assert es[..n][i] == es[i]; }
      }
    }
  }

  // ---------- command rows and territories ----------

  /** Relationship `k` is about territory row `i`. */
  predicate Pairs(release: Release, i: nat, k: nat)
    requires i < |release.rows| && k < |release.relationships|
  {
    release.relationships[k].childKind == release.rows[i].kind && release.relationships[k].childId == release.rows[i].id
  }

  function ParentField(r: Row): Option<Id> {
    if r.kind == STATE_CONSTITUENCY then r.federalId else if r.kind == WARD then r.constituencyId else r.wardId
  }

  lemma {:induction false} ChildRowsCount(rs: seq<Relationship>, kind: string, id: Id)
    ensures forall k :: 0 <= k < |rs| && rs[k].childKind == kind && rs[k].childId == id ==> |ChildRows(rs, kind, id)| >= 1
    ensures |ChildRows(rs, kind, id)| == 1 ==>
      exists k :: 0 <= k < |rs| && rs[k] == ChildRows(rs, kind, id)[0] && rs[k].childKind == kind && rs[k].childId == id
        && forall j :: 0 <= j < |rs| && rs[j].childKind == kind && rs[j].childId == id ==> j == k
  {
    if rs != [] {
      var n := |rs| - 1;
      var head := rs[..n];
      ChildRowsCount(head, kind, id);
      assert forall j :: 0 <= j < n ==> head[j] == rs[j];
      if |ChildRows(rs, kind, id)| == 1 {
        if rs[n].childKind == kind && rs[n].childId == id {
          assert ChildRows(head, kind, id) == [];
          assert rs[n] == ChildRows(rs, kind, id)[0];
        } else {
          var k :| 0 <= k < n && head[k] == ChildRows(head, kind, id)[0] && head[k].childKind == kind && head[k].childId == id
            && forall j :: 0 <= j < n && head[j].childKind == kind && head[j].childId == id ==> j == k;
          assert rs[k] == ChildRows(rs, kind, id)[0];
        }
      }
    }
  }

  /** Exactly one command row is about territory `i`, and it repeats the parent declared there. */
  predicate OneCommandRow(release: Release, i: nat)
    requires i < |release.rows|
  {
    exists k :: 0 <= k < |release.relationships| && Pairs(release, i, k)
      && Some(release.relationships[k].parentId) == ParentField(release.rows[i])
      && forall j :: 0 <= j < |release.relationships| && Pairs(release, i, j) ==> j == k
  }

  /** Command row `k` is about exactly one territory, and that is not an LGA. */
  predicate OneTerritory(release: Release, k: nat)
    requires k < |release.relationships|
  {
    exists i :: 0 <= i < |release.rows| && Pairs(release, i, k) && release.rows[i].kind != LGA
      && forall j :: 0 <= j < |release.rows| && Pairs(release, j, k) ==> j == i
  }

  lemma TerritoryHasOneCommandRow(release: Release, i: nat)
    requires StructureOk(release) && i < |release.rows| && release.rows[i].kind != LGA
    ensures OneCommandRow(release, i)
  {
    var rs, r := release.relationships, release.rows[i];
    assert RowOk(r, release.namespaces) && ParentsOk(ById(release.rows), rs, r);
    ChildRowsCount(rs, r.kind, r.id);
    var k :| 0 <= k < |rs| && rs[k] == ChildRows(rs, r.kind, r.id)[0] && rs[k].childKind == r.kind && rs[k].childId == r.id
      && forall j :: 0 <= j < |rs| && rs[j].childKind == r.kind && rs[j].childId == r.id ==> j == k;
    assert Pairs(release, i, k);
  }

  lemma CommandRowHasOneTerritory(release: Release, k: nat)
    requires StructureOk(release) && k < |release.relationships|
    ensures OneTerritory(release, k)
  {
    var r := release.relationships[k];
    assert RelationshipOk(ById(release.rows), r);
    ByIdKeys(release.rows);
    var i :| 0 <= i < |release.rows| && release.rows[i] == ById(release.rows)[r.childId];
    forall j | 0 <= j < |release.rows| && Pairs(release, j, k) ensures j == i {
      var ids := Map(IdOf, release.rows);
      assert ids[i] == ids[j];
    }
    assert Pairs(release, i, k);
  }

  /** In an accepted release the command rows and the non-LGA territories match one to one,
      and each row repeats the parent its territory declares. */
  lemma CommandRowsMatchTerritories(release: Release)
    requires StructureOk(release)
    ensures forall i :: 0 <= i < |release.rows| && release.rows[i].kind != LGA ==> OneCommandRow(release, i)
    ensures forall k :: 0 <= k < |release.relationships| ==> OneTerritory(release, k)
  {
    forall i | 0 <= i < |release.rows| && release.rows[i].kind != LGA ensures OneCommandRow(release, i) {
      TerritoryHasOneCommandRow(release, i);
    }
    forall k | 0 <= k < |release.relationships| ensures OneTerritory(release, k) {
      CommandRowHasOneTerritory(release, k);
    }
  }

  // ---------- what an inferred row flags ----------

  predicate Bears(r: Row, fold: string -> string, lgaId: Id, name: string) {
    r.kind == WARD && r.lgaId == Some(lgaId) && fold(r.name) == name
  }

  lemma {:induction false} WardNamedIsLast(rows: seq<Row>, fold: string -> string, lgaId: Id, name: string)
    ensures (exists i :: 0 <= i < |rows| && Bears(rows[i], fold, lgaId, name)) ==>
      exists i :: 0 <= i < |rows| && Bears(rows[i], fold, lgaId, name) && WardNamed(rows, fold, lgaId, name) == Some(rows[i].id)
  {
    if rows != [] {
      var n := |rows| - 1;
      WardNamedIsLast(rows[..n], fold, lgaId, name);
      assert forall i :: 0 <= i < n ==> rows[..n][i] == rows[i];
    }
  }

  /** A row naming a ward by LGA and name flags every ward bearing that name exactly when no
      two wards of the LGA have names that fold alike. */
  lemma NameFlagsEveryBearerIff(release: Release, fold: string -> string, e: Inferred)
    requires DistinctIds(release.rows)
    requires LgaNamed(release.rows, fold, fold(e.lga)).Some?
    ensures var lgaId := LgaNamed(release.rows, fold, fold(e.lga)).value;
      (forall i :: 0 <= i < |release.rows| && Bears(release.rows[i], fold, lgaId, fold(e.ward)) ==>
        WardOf(release.rows, ById(release.rows), fold, e) == Some(release.rows[i].id))
      <==>
      (forall i, j :: 0 <= i < j < |release.rows| ==>
        !(Bears(release.rows[i], fold, lgaId, fold(e.ward)) && Bears(release.rows[j], fold, lgaId, fold(e.ward))))
  {
    var lgaId := LgaNamed(release.rows, fold, fold(e.lga)).value;
    WardNamedIsLast(release.rows, fold, lgaId, fold(e.ward));
    forall i, j | 0 <= i < j < |release.rows| ensures release.rows[i].id != release.rows[j].id {
      assert Map(IdOf, release.rows)[i] != Map(IdOf, release.rows)[j];
    }
  }

  // ---------- applying an accepted release ----------

  predicate DatabaseParentsOk(g: Graph, rows: seq<Row>) {
    forall i :: 0 <= i < |rows| && rows[i].federalId.Some? ==>
      rows[i].federalId.value in g.federals && g.federals[rows[i].federalId.value].stateId == OGUN
  }

  method ValidateDatabaseParents(g: Graph, rows: seq<Row>) returns (missing: set<Id>)
    ensures missing == {} <==> DatabaseParentsOk(g, rows)
  {
    var ids := set i | 0 <= i < |rows| && rows[i].federalId.Some? :: rows[i].federalId.value;
    missing := set id | id in ids && (id !in g.federals || g.federals[id].stateId != OGUN);
    if missing == {} {
      forall i | 0 <= i < |rows| && rows[i].federalId.Some?
        ensures rows[i].federalId.value in g.federals && g.federals[rows[i].federalId.value].stateId == OGUN
      {
        assert rows[i].federalId.value in ids && rows[i].federalId.value !in missing;
      }
    } else {
      var id :| id in missing;
    }
  }

  /** A parent field the validator has required to be present. */
  function Required(id: Option<Id>): Id { if id.Some? then id.value else "" }

  function ItemOf(r: Row, inferred: map<Id, string>): Item {
    Item(r.id, r.stateId, Required(r.lgaId), r.constituencyId, Lookup(inferred, r.id))
  }

  function LgaRow(seen: Option<Lga>, r: Row): Lga { Lga(r.stateId) }

  function ConstituencyRow(seen: Option<Constituency>, r: Row): Constituency { Constituency(r.stateId, r.federalId) }

  function WardRow(inferred: map<Id, string>, releaseId: Id): (Option<Ward>, Row) -> Ward {
    (seen, r) => ImportedWard(seen, ItemOf(r, inferred), releaseId)
  }

  function UnitRow(seen: Option<PollingUnit>, r: Row): PollingUnit {
    PollingUnit(r.stateId, Required(r.lgaId), Required(r.wardId))
  }

  predicate NoRow(rows: seq<Row>, kind: string, id: Id) {
    forall i :: 0 <= i < |rows| && rows[i].kind == kind ==> rows[i].id != id
  }

  /** Each row of the kind is written once over what was there; every other row is left alone. */
  ghost predicate Upserted<V>(before: map<Id, V>, rows: seq<Row>, kind: string, merge: (Option<V>, Row) -> V, after: map<Id, V>) {
    && (forall i :: 0 <= i < |rows| && rows[i].kind == kind ==>
         Lookup(after, rows[i].id) == Some(merge(Lookup(before, rows[i].id), rows[i])))
    && (forall id :: NoRow(rows, kind, id) ==> Lookup(after, id) == Lookup(before, id))
  }

  /** One pass of the import: upserts, one by one, the rows of one kind. */
  method UpsertKind<V>(table: map<Id, V>, rows: seq<Row>, kind: string, merge: (Option<V>, Row) -> V) returns (after: map<Id, V>)
    requires DistinctIds(rows)
    ensures Upserted(table, rows, kind, merge, after)
  {
    after := table;
    for n := 0 to |rows|
      invariant Upserted(table, rows[..n], kind, merge, after)
    {
      var head := rows[..n];
      assert rows[..n + 1] == head + [rows[n]];
      if rows[n].kind == kind {
        forall i | 0 <= i < n ensures head[i].id != rows[n].id {
          assert Map(IdOf, rows)[i] != Map(IdOf, rows)[n];
        }
        assert NoRow(head, kind, rows[n].id);
        after := after[rows[n].id := merge(Lookup(after, rows[n].id), rows[n])];
      }
      forall id | NoRow(rows[..n + 1], kind, id) ensures Lookup(after, id) == Lookup(table, id) {
        forall i | 0 <= i < n && head[i].kind == kind ensures head[i].id != id {
          assert rows[..n + 1][i] == head[i];
        }
        assert NoRow(head, kind, id);
        assert rows[..n + 1][n] == rows[n];
      }
    }
    assert rows[..|rows|] == rows;
  }

  /** Everything a release writes, and everything it leaves alone. */
  ghost predicate Applied(g: Graph, rows: seq<Row>, inferred: map<Id, string>, releaseId: Id, g': Graph) {
    && g'.ogunStates == g.ogunStates && g'.districts == g.districts && g'.federals == g.federals
    && Upserted(g.lgas, rows, LGA, LgaRow, g'.lgas)
    && Upserted(g.constituencies, rows, STATE_CONSTITUENCY, ConstituencyRow, g'.constituencies)
    && Upserted(g.wards, rows, WARD, WardRow(inferred, releaseId), g'.wards)
    && Upserted(g.units, rows, POLLING_UNIT, UnitRow, g'.units)
  }

  /** `createMany` with `skipDuplicates`, over the memberships of state constituencies. */
  method StoreMemberships(memberships: seq<Membership>, stored: seq<(Id, Id)>) returns (all: seq<(Id, Id)>)
    requires Distinct(stored)
    ensures stored <= all && Distinct(all)
    ensures forall pair :: pair in all <==>
      pair in stored || exists m :: m in memberships && m.kind == STATE_CONSTITUENCY && pair == (m.id, m.lgaId)
  {
    all := stored;
    for n := 0 to |memberships|
      invariant stored <= all && Distinct(all)
      invariant forall pair :: pair in all <==>
        pair in stored || exists m :: m in memberships[..n] && m.kind == STATE_CONSTITUENCY && pair == (m.id, m.lgaId)
    {
      var m := memberships[n];
      assert memberships[..n + 1] == memberships[..n] + [m];
      if m.kind == STATE_CONSTITUENCY && (m.id, m.lgaId) !in all {
        DistinctSnoc(all, (m.id, m.lgaId));
        all := all + [(m.id, m.lgaId)];
      }
    }
    assert memberships[..|memberships|] == memberships;
  }

  /** The four passes, each over the rows of its kind, and the constituency memberships, of which
      those already stored are skipped. */
  method ApplyIdentityRelease(g: Graph, rows: seq<Row>, memberships: seq<Membership>, inferred: map<Id, string>,
                              releaseId: Id, stored: seq<(Id, Id)>)
    returns (g': Graph, stored': seq<(Id, Id)>)
    requires DistinctIds(rows) && Distinct(stored)
    ensures Applied(g, rows, inferred, releaseId, g')
    ensures stored <= stored' && Distinct(stored')
    ensures forall pair :: pair in stored' <==>
      pair in stored || exists m :: m in memberships && m.kind == STATE_CONSTITUENCY && pair == (m.id, m.lgaId)
  {
    g' := g;
    var lgas := UpsertKind(g'.lgas, rows, LGA, LgaRow);
    g' := g'.(lgas := lgas);
    var constituencies := UpsertKind(g'.constituencies, rows, STATE_CONSTITUENCY, ConstituencyRow);
    g' := g'.(constituencies := constituencies);
    stored' := StoreMemberships(memberships, stored);
    var wards := UpsertKind(g'.wards, rows, WARD, WardRow(inferred, releaseId));
    g' := g'.(wards := wards);
    var units := UpsertKind(g'.units, rows, POLLING_UNIT, UnitRow);
    g' := g'.(units := units);
  }

  // ---------- an accepted release can be walked ----------

  function FederalAbove(byId: map<Id, Row>, constituencyId: Option<Id>): Option<Id> {
    if IsKind(byId, constituencyId, STATE_CONSTITUENCY) then byId[constituencyId.value].federalId else None
  }

  predicate DistrictIsOgun(g: Graph, federalId: Id)
    requires federalId in g.federals
  {
    g.federals[federalId].districtId in g.districts && g.districts[g.federals[federalId].districtId].stateId == OGUN
  }

  lemma RowNamed(release: Release, id: Option<Id>, kind: string) returns (i: nat)
    requires StructureOk(release) && IsKind(ById(release.rows), id, kind)
    ensures i < |release.rows| && release.rows[i] == ById(release.rows)[id.value]
    ensures release.rows[i].id == id.value && release.rows[i].kind == kind && release.rows[i].stateId == OGUN
    ensures ParentsOk(ById(release.rows), release.relationships, release.rows[i])
  {
    ByIdKeys(release.rows);
    i :| 0 <= i < |release.rows| && release.rows[i] == ById(release.rows)[id.value];
    assert RowOk(release.rows[i], release.namespaces);
  }

  /** Above an imported ward the graph is complete up to its federal constituency. */
  lemma ImportedWardChain(g: Graph, release: Release, inferred: map<Id, string>, releaseId: Id, g': Graph, i: nat)
    returns (constituencyId: Id, federalId: Id)
    requires StructureOk(release) && DatabaseParentsOk(g, release.rows)
    requires Applied(g, release.rows, inferred, releaseId, g')
    requires i < |release.rows| && release.rows[i].kind == WARD
    ensures release.rows[i].constituencyId == Some(constituencyId)
    ensures FederalAbove(ById(release.rows), Some(constituencyId)) == Some(federalId)
    ensures release.rows[i].id in g'.wards && g'.wards[release.rows[i].id].stateId == OGUN
    ensures g'.wards[release.rows[i].id].edge == Some(constituencyId)
    ensures constituencyId in g'.constituencies
    ensures g'.constituencies[constituencyId] == Constituency(OGUN, Some(federalId))
    ensures federalId in g'.federals && g'.federals[federalId].stateId == OGUN && g'.federals == g.federals
  {
    var r := release.rows[i];
    assert RowOk(r, release.namespaces) && ParentsOk(ById(release.rows), release.relationships, r);
    constituencyId := r.constituencyId.value;
    var c := RowNamed(release, r.constituencyId, STATE_CONSTITUENCY);
    federalId := release.rows[c].federalId.value;
  }

  /** After an accepted release is applied over present federal parents, the walk succeeds on
      an imported ward exactly when its federal constituency lies in an Ogun district. */
  lemma ImportedWardResolvesIff(g: Graph, release: Release, inferred: map<Id, string>, releaseId: Id, g': Graph, i: nat)
    requires StructureOk(release) && DatabaseParentsOk(g, release.rows)
    requires g.ogunStates == 1 && Applied(g, release.rows, inferred, releaseId, g')
    requires i < |release.rows| && release.rows[i].kind == WARD
    ensures var f := FederalAbove(ById(release.rows), release.rows[i].constituencyId);
      && f.Some? && f.value in g.federals
      && (Resolve(g', Scope(OGUN, None, None, None, Some(release.rows[i].id), None)).Ok? <==> DistrictIsOgun(g, f.value))
  {
    var c, f := ImportedWardChain(g, release, inferred, releaseId, g', i);
    var input := Scope(OGUN, None, None, None, Some(release.rows[i].id), None);
    var t := Scope(OGUN, Some(g.federals[f].districtId), Some(f), Some(c), Some(release.rows[i].id), None);
    if DistrictIsOgun(g, f) {
      OnGraphResolves(g', input, t);
    } else if Resolve(g', input).Ok? {
      ResolvedIsOnGraph(g', input);
    }
  }

  /** The same for an imported polling unit, through the ward its row names. */
  lemma ImportedUnitResolvesIff(g: Graph, release: Release, inferred: map<Id, string>, releaseId: Id, g': Graph, i: nat)
    requires StructureOk(release) && DatabaseParentsOk(g, release.rows)
    requires g.ogunStates == 1 && Applied(g, release.rows, inferred, releaseId, g')
    requires i < |release.rows| && release.rows[i].kind == POLLING_UNIT
    ensures var byId := ById(release.rows);
      && IsKind(byId, release.rows[i].wardId, WARD)
      && var f := FederalAbove(byId, byId[release.rows[i].wardId.value].constituencyId);
         && f.Some? && f.value in g.federals
         && (Resolve(g', Scope(OGUN, None, None, None, None, Some(release.rows[i].id))).Ok? <==> DistrictIsOgun(g, f.value))
  {
    var r := release.rows[i];
    assert RowOk(r, release.namespaces) && ParentsOk(ById(release.rows), release.relationships, r);
    var w := RowNamed(release, r.wardId, WARD);
    var c, f := ImportedWardChain(g, release, inferred, releaseId, g', w);
    var input := Scope(OGUN, None, None, None, None, Some(r.id));
    var t := Scope(OGUN, Some(g.federals[f].districtId), Some(f), Some(c), r.wardId, Some(r.id));
    if DistrictIsOgun(g, f) {
      OnGraphResolves(g', input, t);
    } else if Resolve(g', input).Ok? {
      ResolvedIsOnGraph(g', input);
    }
  }

  /** After apply, a ward of the release is flagged inferred iff some inferred row names it. */
  lemma InferredWardsAreFlagged(
    g: Graph, release: Release, fold: string -> string, inferred: map<Id, string>, releaseId: Id, g': Graph, i: nat)
    requires forall w :: w in inferred <==>
      exists k :: 0 <= k < |release.inferred| && WardOf(release.rows, ById(release.rows), fold, release.inferred[k]) == Some(w)
    requires Applied(g, release.rows, inferred, releaseId, g')
    requires i < |release.rows| && release.rows[i].kind == WARD
    ensures release.rows[i].id in g'.wards
    ensures g'.wards[release.rows[i].id].inferred <==>
      exists k :: 0 <= k < |release.inferred|
        && WardOf(release.rows, ById(release.rows), fold, release.inferred[k]) == Some(release.rows[i].id)
  {
    var r := release.rows[i];
    assert Lookup(g'.wards, r.id) == Some(ImportedWard(Lookup(g.wards, r.id), ItemOf(r, inferred), releaseId));
  }
}
