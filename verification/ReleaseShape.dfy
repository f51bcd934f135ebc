/** What an accepted identity release looks like, said of its files alone: of their rows and identifiers,
    without the validator's indexes, groupings and counts. */
module ReleaseShape {
  import opened Prelude
  import opened Territory
  import opened IdentityRelease

  // ---------- the shape ----------

  /** Some row of that kind has the identifier. */
  predicate HasRow(rows: seq<Row>, kind: string, id: Id) { exists i :: 0 <= i < |rows| && rows[i].kind == kind && rows[i].id == id }

  predicate IsKebab(id: Id) {
    && id != "" && id[0] != '-' && id[|id| - 1] != '-'
    && (forall i :: 0 <= i < |id| ==> id[i] == '-' || 'a' <= id[i] <= 'z' || '0' <= id[i] <= '9')
    && (forall i :: 0 < i < |id| ==> !(id[i - 1] == '-' && id[i] == '-'))
  }

  predicate RowStands(r: Row, namespaces: set<string>) {
    && r.kind in {"LGA", "STATE_CONSTITUENCY", "WARD", "POLLING_UNIT"} && r.stateId == "ng-state-ogun" && IsKebab(r.id)
    && r.name != "" && r.sourceCode != "" && r.namespace != "" && r.namespace in namespaces
  }

  function ParentKind(kind: string): string {
    if kind == "STATE_CONSTITUENCY" then "FEDERAL_CONSTITUENCY" else if kind == "WARD" then "STATE_CONSTITUENCY" else "WARD"
  }

  /** Relationship `k` is the only one about row `i`, and it names that parent. */
  predicate OnlyParent(release: Release, i: nat, k: nat, parent: Id)
    requires i < |release.rows| && k < |release.relationships|
  {
    && Pairs(release, i, k)
    && release.relationships[k].parentKind == ParentKind(release.rows[i].kind) && release.relationships[k].parentId == parent
    && forall j :: 0 <= j < |release.relationships| && Pairs(release, i, j) ==> j == k
  }

  /** An LGA has no parents; every other row lies in an LGA of the release and under one parent, which is a
      row of the release unless it is federal. */
  predicate ParentsStand(release: Release, i: nat)
    requires i < |release.rows|
  {
    var r, parent := release.rows[i], ParentField(release.rows[i]);
    if r.kind == "LGA" then r.lgaId.None? && r.federalId.None? && r.constituencyId.None? && r.wardId.None?
    else
      && r.lgaId.Some? && HasRow(release.rows, "LGA", r.lgaId.value) && parent.Some?
      && (r.kind != "STATE_CONSTITUENCY" ==> HasRow(release.rows, ParentKind(r.kind), parent.value))
      && exists k :: 0 <= k < |release.relationships| && OnlyParent(release, i, k, parent.value)
  }

  /** It relates adjacent kinds, its child is a row, and so is its parent unless federal; a federal parent
      has an identifier no row bears. */
  predicate RelationshipStands(rows: seq<Row>, r: Relationship) {
    && r.childKind in {"STATE_CONSTITUENCY", "WARD", "POLLING_UNIT"} && r.parentKind == ParentKind(r.childKind) && r.parentId != ""
    && HasRow(rows, r.childKind, r.childId)
    && (if r.parentKind == "FEDERAL_CONSTITUENCY" then forall i :: 0 <= i < |rows| ==> rows[i].id != r.parentId
        else HasRow(rows, r.parentKind, r.parentId))
  }

  predicate MembershipStands(rows: seq<Row>, m: Membership) {
    m.kind == "STATE_CONSTITUENCY" && HasRow(rows, "STATE_CONSTITUENCY", m.id) && HasRow(rows, "LGA", m.lgaId)
  }

  function OfKind(rows: seq<Row>, kind: string): set<nat> { set i: nat | i < |rows| && rows[i].kind == kind }

  predicate RowsStand(release: Release) {
    var rows := release.rows;
    && (forall r :: r in rows ==> RowStands(r, release.namespaces))
    && (forall i, j | 0 <= i < j < |rows| :: rows[i].id != rows[j].id)
    && (forall i, j | 0 <= i < j < |rows| ::
         rows[i].kind != rows[j].kind || rows[i].namespace != rows[j].namespace || rows[i].sourceCode != rows[j].sourceCode)
    && (forall kind :: kind in release.declared && kind in {"LGA", "STATE_CONSTITUENCY", "WARD", "POLLING_UNIT"} ==>
         release.declared[kind] == |OfKind(rows, kind)|)
  }

  predicate FilesStand(release: Release) {
    var rows, rs, ms := release.rows, release.relationships, release.memberships;
    && RowsStand(release)
    && (forall r :: r in rs ==> RelationshipStands(rows, r)) && (forall i, j | 0 <= i < j < |rs| :: rs[i] != rs[j])
    && (forall i :: 0 <= i < |rows| ==> ParentsStand(release, i))
    && (forall m :: m in ms ==> MembershipStands(rows, m)) && (forall i, j | 0 <= i < j < |ms| :: ms[i] != ms[j])
    && (forall r :: r in rows && r.kind == "STATE_CONSTITUENCY" ==> exists m :: m in ms && m.id == r.id)
  }

  // ---------- the validator's indexes ----------

  lemma IdsDistinct(rows: seq<Row>)
    ensures DistinctIds(rows) <==> forall i, j | 0 <= i < j < |rows| :: rows[i].id != rows[j].id
    ensures DistinctSources(rows) <==> forall i, j | 0 <= i < j < |rows| ::
      rows[i].kind != rows[j].kind || rows[i].namespace != rows[j].namespace || rows[i].sourceCode != rows[j].sourceCode
  {
    forall i, j | 0 <= i < j < |rows| ensures Map(IdOf, rows)[i] != Map(IdOf, rows)[j] <==> rows[i].id != rows[j].id {
    }
    forall i, j | 0 <= i < j < |rows|
      ensures Map(SourceKey, rows)[i] != Map(SourceKey, rows)[j] <==>
        rows[i].kind != rows[j].kind || rows[i].namespace != rows[j].namespace || rows[i].sourceCode != rows[j].sourceCode
    {
    }
  }

  lemma {:induction false} IndexedIff(rows: seq<Row>, kind: string, id: Id)
    requires DistinctIds(rows)
    ensures IsKind(ById(rows), Some(id), kind) <==> HasRow(rows, kind, id)
    ensures id in ById(rows) <==> exists i :: 0 <= i < |rows| && rows[i].id == id
  {
    ByIdKeys(rows);
    IdsDistinct(rows);
    if i :| 0 <= i < |rows| && rows[i].id == id {
      assert Map(IdOf, rows)[i] == id;
      var j :| 0 <= j < |rows| && rows[j] == ById(rows)[id];
      assert j == i;
    }
  }

  lemma {:induction false} CountIs(rows: seq<Row>, kind: string)
    ensures CountKind(rows, kind) == |OfKind(rows, kind)|
  {
    if rows != [] {
      var n: nat := |rows| - 1;
      CountIs(rows[..n], kind);
      var before := OfKind(rows[..n], kind);
      assert OfKind(rows, kind) == if rows[n].kind == kind then before + {n} else before;
    }
  }

  lemma {:induction false} OnlyChildRow(rs: seq<Relationship>, kind: string, id: Id, k: nat)
    requires k < |rs| && rs[k].childKind == kind && rs[k].childId == id
    requires forall j :: 0 <= j < |rs| && rs[j].childKind == kind && rs[j].childId == id ==> j == k
    ensures ChildRows(rs, kind, id) == [rs[k]]
  {
    var n := |rs| - 1;
    if k == n {
      NoChild(rs[..n], kind, id);
    } else {
      OnlyChildRow(rs[..n], kind, id, k);
    }
  }

  lemma {:induction false} NoChild(rs: seq<Relationship>, kind: string, id: Id)
    requires forall j :: 0 <= j < |rs| ==> !(rs[j].childKind == kind && rs[j].childId == id)
    ensures ChildRows(rs, kind, id) == []
  {
    if rs != [] { NoChild(rs[..|rs| - 1], kind, id); }
  }

  lemma SingleIff(release: Release, i: nat, parent: Id)
    requires i < |release.rows|
    ensures SingleParent(release.relationships, release.rows[i], ParentKind(release.rows[i].kind), parent) <==>
      exists k :: 0 <= k < |release.relationships| && OnlyParent(release, i, k, parent)
  {
    var rs, r := release.relationships, release.rows[i];
    ChildRowsCount(rs, r.kind, r.id);
    if SingleParent(rs, r, ParentKind(r.kind), parent) {
      var k :| 0 <= k < |rs| && rs[k] == ChildRows(rs, r.kind, r.id)[0] && rs[k].childKind == r.kind && rs[k].childId == r.id
        && forall j :: 0 <= j < |rs| && rs[j].childKind == r.kind && rs[j].childId == r.id ==> j == k;
      assert OnlyParent(release, i, k, parent);
    }
    if k :| 0 <= k < |rs| && OnlyParent(release, i, k, parent) {
      forall j | 0 <= j < |rs| && rs[j].childKind == r.kind && rs[j].childId == r.id ensures j == k {
        assert Pairs(release, i, j);
      }
      OnlyChildRow(rs, r.kind, r.id, k);
    }
  }

  // ---------- part by part ----------

  lemma RowStandsIff(r: Row, namespaces: set<string>)
    ensures RowOk(r, namespaces) <==> RowStands(r, namespaces)
  {
    if RowStands(r, namespaces) { assert forall i :: 0 < i < |r.id| && r.id[i] == '-' ==> r.id[i - 1] != '-'; }
  }

  lemma RowsStandIff(release: Release)
    ensures RowsStand(release) <==>
      && RowsFit(release.rows, release.namespaces) && DistinctIds(release.rows) && DistinctSources(release.rows)
      && CountOk(release.declared, release.rows, STATE_CONSTITUENCY) && CountOk(release.declared, release.rows, LGA)
      && CountOk(release.declared, release.rows, WARD) && CountOk(release.declared, release.rows, POLLING_UNIT)
  {
    forall r | r in release.rows ensures RowOk(r, release.namespaces) <==> RowStands(r, release.namespaces) {
      RowStandsIff(r, release.namespaces);
    }
    IdsDistinct(release.rows);
    CountIs(release.rows, LGA);
    CountIs(release.rows, STATE_CONSTITUENCY);
    CountIs(release.rows, WARD);
    CountIs(release.rows, POLLING_UNIT);
  }

  lemma KnownRows(release: Release, kind: string, id: Id)
    requires RowsStand(release) && HasRow(release.rows, kind, id)
    ensures id != "" && kind != FEDERAL
  {
    var i :| 0 <= i < |release.rows| && release.rows[i].kind == kind && release.rows[i].id == id;
    assert release.rows[i] in release.rows && RowStands(release.rows[i], release.namespaces);
  }

  lemma RelationshipIff(release: Release, r: Relationship)
    requires RowsStand(release)
    ensures RelationshipOk(ById(release.rows), r) <==> RelationshipStands(release.rows, r)
  {
    var rows := release.rows;
    RowsStandIff(release);
    IndexedIff(rows, r.childKind, r.childId);
    IndexedIff(rows, r.parentKind, r.parentId);
    if HasRow(rows, r.childKind, r.childId) { KnownRows(release, r.childKind, r.childId); }
    if HasRow(rows, r.parentKind, r.parentId) { KnownRows(release, r.parentKind, r.parentId); }
    if r.parentId in ById(rows) { IndexedIff(rows, ById(rows)[r.parentId].kind, r.parentId); }
  }

  lemma ParentsIff(release: Release, i: nat)
    requires RowsStand(release) && i < |release.rows|
    ensures ParentsOk(ById(release.rows), release.relationships, release.rows[i]) <==> ParentsStand(release, i)
  {
    var r := release.rows[i];
    RowsStandIff(release);
    assert r in release.rows && RowStands(r, release.namespaces);
    if r.lgaId.Some? { IndexedIff(release.rows, LGA, r.lgaId.value); }
    if ParentField(r).Some? {
      IndexedIff(release.rows, ParentKind(r.kind), ParentField(r).value);
      SingleIff(release, i, ParentField(r).value);
    }
  }

  lemma MembershipIff(release: Release, m: Membership)
    requires RowsStand(release)
    ensures MembershipOk(ById(release.rows), m) <==> MembershipStands(release.rows, m)
  {
    RowsStandIff(release);
    IndexedIff(release.rows, STATE_CONSTITUENCY, m.id);
    IndexedIff(release.rows, LGA, m.lgaId);
  }

  /** Every constituency is a member of some LGA. */
  lemma CoverageIff(release: Release)
    requires forall m :: m in release.memberships ==> m.kind == STATE_CONSTITUENCY
    ensures (forall i :: 0 <= i < |release.rows| ==> HasMembership(release.memberships, release.rows[i])) <==>
      forall r :: r in release.rows && r.kind == "STATE_CONSTITUENCY" ==> exists m :: m in release.memberships && m.id == r.id
  {
    var rows, ms := release.rows, release.memberships;
    forall i | 0 <= i < |rows|
      ensures HasMembership(ms, rows[i]) <==> (rows[i].kind == STATE_CONSTITUENCY ==> exists m :: m in ms && m.id == rows[i].id)
    {
      if m :| m in ms && m.id == rows[i].id {
        var k :| 0 <= k < |ms| && ms[k] == m;
      }
    }
    if forall i :: 0 <= i < |rows| ==> HasMembership(ms, rows[i]) {
      forall r | r in rows && r.kind == "STATE_CONSTITUENCY" ensures exists m :: m in ms && m.id == r.id {
        var i :| 0 <= i < |rows| && rows[i] == r;
        assert HasMembership(ms, rows[i]);
      }
    }
  }

  lemma PartsIff(release: Release)
    requires RowsStand(release)
    ensures RelationshipsFit(ById(release.rows), release.relationships) <==>
      forall r :: r in release.relationships ==> RelationshipStands(release.rows, r)
    ensures (forall i :: 0 <= i < |release.rows| ==> ParentsOk(ById(release.rows), release.relationships, release.rows[i])) <==>
      forall i :: 0 <= i < |release.rows| ==> ParentsStand(release, i)
    ensures (forall i :: 0 <= i < |release.memberships| ==> MembershipOk(ById(release.rows), release.memberships[i])) <==>
      forall m :: m in release.memberships ==> MembershipStands(release.rows, m)
  {
    forall r | r in release.relationships { RelationshipIff(release, r); }
    forall i | 0 <= i < |release.rows| { ParentsIff(release, i); }
    forall m | m in release.memberships { MembershipIff(release, m); }
  }

  /** The validator's structural conditions hold exactly of the files that stand. */
  lemma StructureIff(release: Release)
    ensures StructureOk(release) <==> FilesStand(release)
  {
    RowsStandIff(release);
    if RowsStand(release) {
      PartsIff(release);
      if forall m :: m in release.memberships ==> MembershipStands(release.rows, m) {
        CoverageIff(release);
      }
    }
  }

  // ---------- which wards the inferred rows flag ----------

  predicate IsLgaNamed(rows: seq<Row>, fold: string -> string, name: string, l: nat) {
    l < |rows| && rows[l].kind == "LGA" && fold(rows[l].name) == name
  }

  predicate IsWardKeyed(rows: seq<Row>, key: string, i: nat) {
    && i < |rows| && rows[i].kind == "WARD"
    && exists a: nat :: a < |rows| && rows[a].kind == "LGA" && rows[i].lgaId == Some(rows[a].id)
         && key == rows[a].sourceCode + ":" + rows[i].sourceCode
  }

  predicate IsBearer(rows: seq<Row>, fold: string -> string, lgaId: Id, name: string, i: nat) {
    i < |rows| && Bears(rows[i], fold, lgaId, name)
  }

  /** The row names ward `i`: the last ward of that name in the last LGA of that name or, when that LGA has
      no ward so named, the last ward of that build key. */
  ghost predicate NamesWard(rows: seq<Row>, fold: string -> string, e: Inferred, l: nat, i: nat) {
    && IsLgaNamed(rows, fold, fold(e.lga), l) && (forall j :: l < j < |rows| ==> !IsLgaNamed(rows, fold, fold(e.lga), j))
    && (|| (&& IsBearer(rows, fold, rows[l].id, fold(e.ward), i)
            && forall j :: i < j < |rows| ==> !IsBearer(rows, fold, rows[l].id, fold(e.ward), j))
        || (&& (forall j: nat :: !IsBearer(rows, fold, rows[l].id, fold(e.ward), j))
            && IsWardKeyed(rows, e.ward, i) && forall j :: i < j < |rows| ==> !IsWardKeyed(rows, e.ward, j)))
  }

  lemma {:induction false} LastLga(rows: seq<Row>, fold: string -> string, name: string) returns (l: nat)
    ensures LgaNamed(rows, fold, name).None? <==> forall j: nat :: !IsLgaNamed(rows, fold, name, j)
    ensures LgaNamed(rows, fold, name).Some? ==>
      && IsLgaNamed(rows, fold, name, l) && LgaNamed(rows, fold, name) == Some(rows[l].id)
      && forall j :: l < j < |rows| ==> !IsLgaNamed(rows, fold, name, j)
  {
    l := 0;
    if rows != [] {
      var n := |rows| - 1;
      l := LastLga(rows[..n], fold, name);
      assert forall j: nat :: j < n ==> (IsLgaNamed(rows, fold, name, j) <==> IsLgaNamed(rows[..n], fold, name, j));
      if IsLgaNamed(rows, fold, name, n) { l := n; }
    }
  }

  lemma {:induction false} LastBearer(rows: seq<Row>, fold: string -> string, lgaId: Id, name: string) returns (i: nat)
    ensures WardNamed(rows, fold, lgaId, name).None? <==> forall j: nat :: !IsBearer(rows, fold, lgaId, name, j)
    ensures WardNamed(rows, fold, lgaId, name).Some? ==>
      && IsBearer(rows, fold, lgaId, name, i) && WardNamed(rows, fold, lgaId, name) == Some(rows[i].id)
      && forall j :: i < j < |rows| ==> !IsBearer(rows, fold, lgaId, name, j)
  {
    i := 0;
    if rows != [] {
      var n := |rows| - 1;
      i := LastBearer(rows[..n], fold, lgaId, name);
      assert forall j: nat :: j < n ==> (IsBearer(rows, fold, lgaId, name, j) <==> IsBearer(rows[..n], fold, lgaId, name, j));
      if IsBearer(rows, fold, lgaId, name, n) { i := n; }
    }
  }

  predicate KeyedIn(some: seq<Row>, byId: map<Id, Row>, key: string, i: nat) {
    i < |some| && some[i].kind == WARD && BuildKey(byId, some[i]) == Some(key)
  }

  lemma {:induction false} LastKeyed(some: seq<Row>, byId: map<Id, Row>, key: string) returns (i: nat)
    ensures WardKeyed(some, byId, key).None? <==> forall j: nat :: !KeyedIn(some, byId, key, j)
    ensures WardKeyed(some, byId, key).Some? ==>
      && KeyedIn(some, byId, key, i) && WardKeyed(some, byId, key) == Some(some[i].id)
      && forall j :: i < j < |some| ==> !KeyedIn(some, byId, key, j)
  {
    i := 0;
    if some != [] {
      var n := |some| - 1;
      i := LastKeyed(some[..n], byId, key);
      assert forall j: nat :: j < n ==> (KeyedIn(some, byId, key, j) <==> KeyedIn(some[..n], byId, key, j));
      if KeyedIn(some, byId, key, n) { i := n; }
    }
  }

  lemma {:induction false} KeyedIff(rows: seq<Row>, key: string, i: nat)
    requires DistinctIds(rows)
    ensures KeyedIn(rows, ById(rows), key, i) <==> IsWardKeyed(rows, key, i)
  {
    ByIdKeys(rows);
    IdsDistinct(rows);
    if i < |rows| && rows[i].lgaId.Some? {
      IndexedIff(rows, LGA, rows[i].lgaId.value);
      if IsKind(ById(rows), rows[i].lgaId, LGA) {
        var a: nat :| a < |rows| && rows[a] == ById(rows)[rows[i].lgaId.value];
      }
      if a: nat :| a < |rows| && rows[a].kind == LGA && rows[i].lgaId == Some(rows[a].id) {
        assert HasRow(rows, LGA, rows[a].id);
      }
    }
  }

  /** An inferred row reads as a ward iff it names one, and then as the one it names. */
  lemma {:induction false} WardOfIff(rows: seq<Row>, fold: string -> string, e: Inferred)
    requires DistinctIds(rows)
    ensures WardOf(rows, ById(rows), fold, e).Some? <==> exists l: nat, i: nat :: NamesWard(rows, fold, e, l, i)
    ensures forall l: nat, i: nat :: NamesWard(rows, fold, e, l, i) ==> WardOf(rows, ById(rows), fold, e) == Some(rows[i].id)
  {
    var byId := ById(rows);
    forall j: nat ensures KeyedIn(rows, byId, e.ward, j) <==> IsWardKeyed(rows, e.ward, j) { KeyedIff(rows, e.ward, j); }
    var l := LastLga(rows, fold, fold(e.lga));
    var k := LastKeyed(rows, byId, e.ward);
    forall m: nat, i: nat | NamesWard(rows, fold, e, m, i) ensures WardOf(rows, byId, fold, e) == Some(rows[i].id) {
      assert m == l;
      var b := LastBearer(rows, fold, rows[l].id, fold(e.ward));
    }
    if WardOf(rows, byId, fold, e).Some? {
      var b := LastBearer(rows, fold, rows[l].id, fold(e.ward));
      assert NamesWard(rows, fold, e, l, if WardNamed(rows, fold, rows[l].id, fold(e.ward)).Some? then b else k);
    }
  }

  /** Inferred row `k` names ward `w` and does not contradict the constituency its row declares. */
  predicate AgreesOn(release: Release, fold: string -> string, w: Id, k: nat) {
    && k < |release.inferred| && WardOf(release.rows, ById(release.rows), fold, release.inferred[k]) == Some(w)
    && (release.inferred[k].constituency == "" ||
        exists i :: 0 <= i < |release.rows| && release.rows[i].id == w && release.rows[i].constituencyId == Some(release.inferred[k].constituency))
  }

  lemma {:induction false} FirstSnoc(byId: map<Id, Row>, w: Id, es: seq<Inferred>, e: Inferred)
    ensures FirstSurvivor(byId, w, es + [e]) ==
      if FirstSurvivor(byId, w, es).Some? then FirstSurvivor(byId, w, es) else if Survives(byId, w, e) then Some(e) else None
  {
    if es == [] {
      assert es + [e] == [e] && [e][1..] == [];
    } else {
      assert (es + [e])[1..] == es[1..] + [e];
      FirstSnoc(byId, w, es[1..], e);
    }
  }

  predicate AgreesIn(es: seq<Inferred>, rows: seq<Row>, byId: map<Id, Row>, fold: string -> string, w: Id, k: nat) {
    k < |es| && WardOf(rows, byId, fold, es[k]) == Some(w) && Survives(byId, w, es[k])
  }

  lemma {:induction false} FirstAgrees(es: seq<Inferred>, rows: seq<Row>, byId: map<Id, Row>, fold: string -> string, w: Id) returns (k: nat)
    ensures FirstSurvivor(byId, w, RowsFor(es, rows, byId, fold, w)).None? <==> forall j: nat :: !AgreesIn(es, rows, byId, fold, w, j)
    ensures FirstSurvivor(byId, w, RowsFor(es, rows, byId, fold, w)).Some? ==>
      && AgreesIn(es, rows, byId, fold, w, k) && FirstSurvivor(byId, w, RowsFor(es, rows, byId, fold, w)) == Some(es[k])
      && forall j: nat :: j < k ==> !AgreesIn(es, rows, byId, fold, w, j)
  {
    k := 0;
    if es != [] {
      var n := |es| - 1;
      k := FirstAgrees(es[..n], rows, byId, fold, w);
      assert forall j: nat :: j < n ==> (AgreesIn(es, rows, byId, fold, w, j) <==> AgreesIn(es[..n], rows, byId, fold, w, j));
      var before := RowsFor(es[..n], rows, byId, fold, w);
      assert forall j: nat :: AgreesIn(es, rows, byId, fold, w, j) ==> j == n || AgreesIn(es[..n], rows, byId, fold, w, j);
      assert AgreesIn(es, rows, byId, fold, w, n) <==> WardOf(rows, byId, fold, es[n]) == Some(w) && Survives(byId, w, es[n]);
      if WardOf(rows, byId, fold, es[n]) == Some(w) {
        FirstSnoc(byId, w, before, es[n]);
        if FirstSurvivor(byId, w, before).None? { k := n; }
      } else {
        assert RowsFor(es, rows, byId, fold, w) == before;
      }
    }
  }

  lemma {:induction false} AgreesIff(release: Release, fold: string -> string, w: Id, k: nat)
    requires DistinctIds(release.rows)
    ensures AgreesIn(release.inferred, release.rows, ById(release.rows), fold, w, k) <==> AgreesOn(release, fold, w, k)
  {
    var rows := release.rows;
    ByIdKeys(rows);
    IdsDistinct(rows);
    IndexedIff(rows, WARD, w);
    if w in ById(rows) {
      var i :| 0 <= i < |rows| && rows[i] == ById(rows)[w];
      assert forall j :: 0 <= j < |rows| && rows[j].id == w ==> j == i;
    }
  }

  /** The basis an accepted release stores for a ward: that of the first inferred row that names the ward
      and agrees with its declared constituency, or the word for none given. */
  lemma BasisIsFirstAgreeing(release: Release, fold: string -> string, w: Id, k: nat)
    requires DistinctIds(release.rows)
    requires AgreesOn(release, fold, w, k) && forall j: nat :: j < k ==> !AgreesOn(release, fold, w, j)
    ensures SurvivorFor(release, fold, w).Some?
    ensures BasisOf(SurvivorFor(release, fold, w).value) == if release.inferred[k].basis == "" then "inferred" else release.inferred[k].basis
  {
    var byId := ById(release.rows);
    var first := FirstAgrees(release.inferred, release.rows, byId, fold, w);
    AgreesIff(release, fold, w, k);
    AgreesIff(release, fold, w, first);
  }

  /** Inferred row `k` names a ward, and some inferred row agrees with that ward's constituency. */
  ghost predicate IsResolved(release: Release, fold: string -> string, k: nat)
    requires k < |release.inferred|
  {
    exists l: nat, i: nat, j: nat ::
      NamesWard(release.rows, fold, release.inferred[k], l, i) && AgreesOn(release, fold, release.rows[i].id, j)
  }

  /** A release is accepted iff its files stand, every inferred row names a ward, and for each ward so named
      some inferred row agrees with the constituency declared for it. */
  lemma AcceptedIff(release: Release, fold: string -> string)
    ensures WellFormed(release, fold) <==>
      && FilesStand(release)
      && forall k :: 0 <= k < |release.inferred| ==> IsResolved(release, fold, k)
  {
    StructureIff(release);
    if FilesStand(release) {
      forall k | 0 <= k < |release.inferred|
        ensures IsResolved(release, fold, k) <==>
                var named := WardOf(release.rows, ById(release.rows), fold, release.inferred[k]);
                named.Some? && SurvivorFor(release, fold, named.value).Some?
      {
        InferredIff(release, fold, k);
      }
    }
  }

  lemma InferredIff(release: Release, fold: string -> string, k: nat)
    requires DistinctIds(release.rows) && k < |release.inferred|
    ensures IsResolved(release, fold, k) <==>
            var named := WardOf(release.rows, ById(release.rows), fold, release.inferred[k]);
            named.Some? && SurvivorFor(release, fold, named.value).Some?
  {
    var rows, byId := release.rows, ById(release.rows);
    var named := WardOf(rows, byId, fold, release.inferred[k]);
    WardOfIff(rows, fold, release.inferred[k]);
    if named.Some? {
      var first := FirstAgrees(release.inferred, rows, byId, fold, named.value);
      forall j: nat ensures AgreesIn(release.inferred, rows, byId, fold, named.value, j) <==> AgreesOn(release, fold, named.value, j) {
        AgreesIff(release, fold, named.value, j);
      }
      var l: nat, i: nat :| NamesWard(rows, fold, release.inferred[k], l, i);
      assert rows[i].id == named.value;
      if SurvivorFor(release, fold, named.value).Some? { assert AgreesOn(release, fold, rows[i].id, first); }
    }
  }
}
