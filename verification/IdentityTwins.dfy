/** Two wards of one LGA whose names fold alike: an accepted release stays accepted with the second, and
    what named the first flags the second instead. */
module IdentityTwins {
  import opened Prelude
  import opened Territory
  import opened IdentityRelease

  // ---------- the release with a twin ----------

  /** Another ward of the same LGA and constituency under a name that folds alike, new in everything
      that must be unique. */
  predicate IsTwin(release: Release, fold: string -> string, v: Row, t: Row) {
    && t == v.(id := t.id, name := t.name, sourceCode := t.sourceCode)
    && t.name != "" && t.name != v.name && fold(t.name) == fold(v.name)
    && t.sourceCode != "" && SourceKey(t) !in Map(SourceKey, release.rows)
    && IsCanonicalId(t.id) && t.id !in Map(IdOf, release.rows)
    && (forall r :: r in release.relationships ==> r.parentId != t.id)
    && (forall e :: e in release.inferred ==> Some(e.ward) != BuildKey(ById(release.rows), t))
  }

  /** The release with the twin, its command row, its count, and one more inferred row. */
  function WithTwin(release: Release, t: Row, e: Inferred): Release
    requires t.constituencyId.Some?
  {
    release.(rows := release.rows + [t],
             relationships := release.relationships + [Relationship(STATE_CONSTITUENCY, t.constituencyId.value, WARD, t.id)],
             declared := if WARD in release.declared then release.declared[WARD := release.declared[WARD] + 1] else release.declared,
             inferred := release.inferred + [e])
  }

  lemma ByIdSnoc(rows: seq<Row>, r: Row)
    ensures ById(rows + [r]) == ById(rows)[r.id := r]
  {
    assert (rows + [r])[..|rows|] == rows;
  }

  lemma ChildRowsSnoc(rs: seq<Relationship>, r: Relationship, kind: string, id: Id)
    ensures ChildRows(rs + [r], kind, id) == ChildRows(rs, kind, id) + (if r.childKind == kind && r.childId == id then [r] else [])
  {
    assert (rs + [r])[..|rs|] == rs;
  }

  lemma {:induction false} NoChildRows(rs: seq<Relationship>, kind: string, id: Id)
    requires forall r :: r in rs ==> r.childId != id
    ensures ChildRows(rs, kind, id) == []
  {
    if rs != [] {
      var n := |rs| - 1;
      assert rs[n] in rs && forall r :: r in rs[..n] ==> r in rs;
      NoChildRows(rs[..n], kind, id);
    }
  }

  lemma CountSnoc(rows: seq<Row>, r: Row, kind: string)
    ensures CountKind(rows + [r], kind) == CountKind(rows, kind) + (if r.kind == kind then 1 else 0)
  {
    assert (rows + [r])[..|rows|] == rows;
  }

  lemma KindsDiffer()
    ensures Distinct([LGA, STATE_CONSTITUENCY, WARD, POLLING_UNIT, FEDERAL])
  {
    assert LGA[0] == 'L' && STATE_CONSTITUENCY[0] == 'S' && WARD[0] == 'W' && POLLING_UNIT[0] == 'P' && FEDERAL[0] == 'F';
  }

  /** What was known of the old identifiers is known still. */
  lemma TwinById(release: Release, fold: string -> string, i: nat, t: Row)
    requires StructureOk(release) && i < |release.rows| && release.rows[i].kind == WARD && IsTwin(release, fold, release.rows[i], t)
    ensures var byId, after := ById(release.rows), ById(release.rows + [t]);
      && after == byId[t.id := t] && t.id !in byId
      && forall id, kind :: kind != WARD || id != Some(t.id) ==> (IsKind(after, id, kind) <==> IsKind(byId, id, kind))
  {
    ByIdSnoc(release.rows, t);
    ByIdKeys(release.rows);
  }

  lemma TwinRows(release: Release, fold: string -> string, i: nat, t: Row)
    requires StructureOk(release) && i < |release.rows| && release.rows[i].kind == WARD && IsTwin(release, fold, release.rows[i], t)
    ensures var rows := release.rows + [t];
      RowsFit(rows, release.namespaces) && DistinctIds(rows) && DistinctSources(rows)
  {
    var rows := release.rows + [t];
    assert RowOk(release.rows[i], release.namespaces);
    assert Map(IdOf, rows) == Map(IdOf, release.rows) + [t.id];
    assert Map(SourceKey, rows) == Map(SourceKey, release.rows) + [SourceKey(t)];
    DistinctSnoc(Map(IdOf, release.rows), t.id);
    DistinctSnoc(Map(SourceKey, release.rows), SourceKey(t));
  }

  lemma OldRelationship(release: Release, fold: string -> string, i: nat, t: Row, r: Relationship)
    requires StructureOk(release) && i < |release.rows| && release.rows[i].kind == WARD && IsTwin(release, fold, release.rows[i], t)
    requires r in release.relationships
    ensures RelationshipOk(ById(release.rows + [t]), r) && r.childId != t.id
  {
    TwinById(release, fold, i, t);
    assert RelationshipOk(ById(release.rows), r);
  }

  lemma TwinRelationship(release: Release, fold: string -> string, i: nat, t: Row)
    requires StructureOk(release) && i < |release.rows| && release.rows[i].kind == WARD && IsTwin(release, fold, release.rows[i], t)
    ensures t.constituencyId.Some?
    ensures RelationshipOk(ById(release.rows + [t]), Relationship(STATE_CONSTITUENCY, t.constituencyId.value, WARD, t.id))
  {
    KindsDiffer();
    assert ParentsOk(ById(release.rows), release.relationships, release.rows[i]);
    TwinById(release, fold, i, t);
    ByIdKeys(release.rows);
    var parent := ById(release.rows)[t.constituencyId.value];
    assert parent in release.rows && RowOk(parent, release.namespaces);
  }

  lemma TwinRelationships(release: Release, fold: string -> string, i: nat, t: Row, e: Inferred)
    requires StructureOk(release) && i < |release.rows| && release.rows[i].kind == WARD && IsTwin(release, fold, release.rows[i], t)
    ensures t.constituencyId.Some?
    ensures var next := WithTwin(release, t, e);
      RelationshipsFit(ById(next.rows), next.relationships) && Distinct(next.relationships)
  {
    TwinRelationship(release, fold, i, t);
    forall r | r in release.relationships ensures RelationshipOk(ById(release.rows + [t]), r) && r.childId != t.id {
      OldRelationship(release, fold, i, t, r);
    }
    DistinctSnoc(release.relationships, Relationship(STATE_CONSTITUENCY, t.constituencyId.value, WARD, t.id));
  }

  lemma TwinParents(release: Release, fold: string -> string, i: nat, t: Row, e: Inferred, k: nat)
    requires StructureOk(release) && i < |release.rows| && release.rows[i].kind == WARD && IsTwin(release, fold, release.rows[i], t)
    requires t.constituencyId.Some? && k <= |release.rows|
    ensures var next := WithTwin(release, t, e); ParentsOk(ById(next.rows), next.relationships, next.rows[k])
  {
    var v, byId, next := release.rows[i], ById(release.rows), WithTwin(release, t, e);
    var added := Relationship(STATE_CONSTITUENCY, t.constituencyId.value, WARD, t.id);
    KindsDiffer();
    TwinById(release, fold, i, t);
    ByIdKeys(release.rows);
    var r := next.rows[k];
    ChildRowsSnoc(release.relationships, added, r.kind, r.id);
    if k < |release.rows| {
      assert Map(IdOf, release.rows)[k] == r.id != t.id;
      assert ParentsOk(byId, release.relationships, r);
    } else {
      assert ParentsOk(byId, release.relationships, v);
      forall x | x in release.relationships ensures x.childId != t.id { assert RelationshipOk(byId, x); }
      NoChildRows(release.relationships, WARD, t.id);
    }
  }

  lemma TwinCounts(release: Release, i: nat, t: Row, e: Inferred, kind: string)
    requires i < |release.rows| && release.rows[i].kind == WARD && t.kind == WARD && t.constituencyId.Some?
    requires CountOk(release.declared, release.rows, kind)
    ensures var next := WithTwin(release, t, e); CountOk(next.declared, next.rows, kind)
  {
    CountSnoc(release.rows, t, kind);
  }

  lemma TwinStructure(release: Release, fold: string -> string, i: nat, t: Row, e: Inferred)
    requires StructureOk(release) && i < |release.rows| && release.rows[i].kind == WARD && IsTwin(release, fold, release.rows[i], t)
    ensures t.constituencyId.Some? && StructureOk(WithTwin(release, t, e))
  {
    TwinRelationships(release, fold, i, t, e);
    var next := WithTwin(release, t, e);
    TwinRows(release, fold, i, t);
    TwinById(release, fold, i, t);
    KindsDiffer();
    TwinCounts(release, i, t, e, STATE_CONSTITUENCY);
    TwinCounts(release, i, t, e, LGA);
    TwinCounts(release, i, t, e, WARD);
    TwinCounts(release, i, t, e, POLLING_UNIT);
    forall k | 0 <= k < |next.rows| ensures ParentsOk(ById(next.rows), next.relationships, next.rows[k]) {
      TwinParents(release, fold, i, t, e, k);
    }
    forall k | 0 <= k < |next.memberships| ensures MembershipOk(ById(next.rows), next.memberships[k]) {
      assert MembershipOk(ById(release.rows), release.memberships[k]);
    }
    forall k | 0 <= k < |next.rows| ensures HasMembership(next.memberships, next.rows[k]) {
      if k < |release.rows| { assert HasMembership(release.memberships, release.rows[k]); }
    }
  }

  // ---------- what its inferred rows flag ----------

  lemma {:induction false} TwinKeyed(release: Release, fold: string -> string, i: nat, t: Row, rows: seq<Row>, key: string)
    requires StructureOk(release) && i < |release.rows| && release.rows[i].kind == WARD && IsTwin(release, fold, release.rows[i], t)
    ensures WardKeyed(rows, ById(release.rows + [t]), key) == WardKeyed(rows, ById(release.rows), key)
    ensures BuildKey(ById(release.rows + [t]), t) == BuildKey(ById(release.rows), t)
  {
    KindsDiffer();
    TwinById(release, fold, i, t);
    if rows != [] { TwinKeyed(release, fold, i, t, rows[..|rows| - 1], key); }
  }

  /** A name that resolved to the ward resolves to its twin; anything else resolves as before. */
  lemma TwinNamed(release: Release, fold: string -> string, i: nat, t: Row, x: Inferred)
    requires StructureOk(release) && i < |release.rows| && release.rows[i].kind == WARD && IsTwin(release, fold, release.rows[i], t)
    requires Some(x.ward) != BuildKey(ById(release.rows), t) || NamesAlike(release, fold, release.rows[i], x)
    ensures WardOf(release.rows + [t], ById(release.rows + [t]), fold, x) ==
      if NamesAlike(release, fold, release.rows[i], x) then Some(t.id) else WardOf(release.rows, ById(release.rows), fold, x)
  {
    KindsDiffer();
    assert (release.rows + [t])[..|release.rows|] == release.rows;
    TwinKeyed(release, fold, i, t, release.rows, x.ward);
  }

  /** The row names the ward's LGA, and the ward up to folding. */
  predicate NamesAlike(release: Release, fold: string -> string, v: Row, x: Inferred) {
    LgaNamed(release.rows, fold, fold(x.lga)).Some? && LgaNamed(release.rows, fold, fold(x.lga)) == v.lgaId && fold(x.ward) == fold(v.name)
  }

  lemma {:induction false} SomeoneSurvives(byId: map<Id, Row>, wardId: Id, es: seq<Inferred>, x: Inferred)
    requires x in es && Survives(byId, wardId, x)
    ensures FirstSurvivor(byId, wardId, es).Some?
  {
    if es[0] != x && !Survives(byId, wardId, es[0]) { SomeoneSurvives(byId, wardId, es[1..], x); }
  }

  lemma RowsForSnoc(es: seq<Inferred>, e: Inferred, rows: seq<Row>, byId: map<Id, Row>, fold: string -> string, w: Id)
    ensures RowsFor(es + [e], rows, byId, fold, w) == RowsFor(es, rows, byId, fold, w) + (if WardOf(rows, byId, fold, e) == Some(w) then [e] else [])
  {
    assert (es + [e])[..|es|] == es;
  }

  /** What names neither the ward nor its twin is grouped as before. */
  lemma {:induction false} OtherRowsStay(release: Release, fold: string -> string, i: nat, t: Row, es: seq<Inferred>, w: Id)
    requires StructureOk(release) && i < |release.rows| && release.rows[i].kind == WARD && IsTwin(release, fold, release.rows[i], t)
    requires forall x :: x in es ==> x in release.inferred
    requires forall x :: x in es && NamesAlike(release, fold, release.rows[i], x) ==>
      WardOf(release.rows, ById(release.rows), fold, x) != Some(w)
    requires w != t.id
    ensures RowsFor(es, release.rows + [t], ById(release.rows + [t]), fold, w) == RowsFor(es, release.rows, ById(release.rows), fold, w)
  {
    if es != [] {
      var n := |es| - 1;
      assert es[n] in es && forall x :: x in es[..n] ==> x in es;
      OtherRowsStay(release, fold, i, t, es[..n], w);
      TwinNamed(release, fold, i, t, es[n]);
    }
  }

  lemma {:induction false} SameSurvivor(byId: map<Id, Row>, after: map<Id, Row>, w: Id, es: seq<Inferred>)
    requires w in byId && w in after && after[w] == byId[w]
    ensures FirstSurvivor(after, w, es) == FirstSurvivor(byId, w, es)
  {
    if es != [] { SameSurvivor(byId, after, w, es[1..]); }
  }

  /** The row names the ward letter for letter, and agrees with its recorded edge. */
  predicate NamesExactly(release: Release, fold: string -> string, v: Row, e: Inferred) {
    && e.ward == v.name && LgaNamed(release.rows, fold, fold(e.lga)).Some? && LgaNamed(release.rows, fold, fold(e.lga)) == v.lgaId
    && (e.constituency == "" || Some(e.constituency) == v.constituencyId)
  }

  /** Every inferred row about the ward names it, rather than giving its build key, and the name is its. */
  predicate OnlyByName(release: Release, fold: string -> string, v: Row) {
    forall x :: x in release.inferred ==>
      (NamesAlike(release, fold, v, x) <==> WardOf(release.rows, ById(release.rows), fold, x) == Some(v.id))
  }

  lemma {:induction false} NobodyNames(es: seq<Inferred>, rows: seq<Row>, byId: map<Id, Row>, fold: string -> string, w: Id)
    requires forall x :: x in es ==> WardOf(rows, byId, fold, x) != Some(w)
    ensures RowsFor(es, rows, byId, fold, w) == []
  {
    if es != [] {
      var n := |es| - 1;
      assert es[n] in es && forall x :: x in es[..n] ==> x in es;
      NobodyNames(es[..n], rows, byId, fold, w);
    }
  }

  lemma TwinSurvives(release: Release, fold: string -> string, i: nat, t: Row, e: Inferred)
    requires WellFormed(release, fold) && i < |release.rows| && release.rows[i].kind == WARD
    requires IsTwin(release, fold, release.rows[i], t) && t.constituencyId.Some? && NamesExactly(release, fold, release.rows[i], e)
    ensures SurvivorFor(WithTwin(release, t, e), fold, t.id).Some?
  {
    var next := WithTwin(release, t, e);
    var after := ById(next.rows);
    TwinById(release, fold, i, t);
    TwinNamed(release, fold, i, t, e);
    RowsForSnoc(release.inferred, e, next.rows, after, fold, t.id);
    SomeoneSurvives(after, t.id, RowsFor(next.inferred, next.rows, after, fold, t.id), e);
  }

  lemma OthersGrouped(release: Release, fold: string -> string, i: nat, t: Row, e: Inferred, w: Id)
    requires StructureOk(release) && i < |release.rows| && release.rows[i].kind == WARD && IsTwin(release, fold, release.rows[i], t)
    requires NamesExactly(release, fold, release.rows[i], e) && OnlyByName(release, fold, release.rows[i])
    requires w != release.rows[i].id && w != t.id
    ensures RowsFor(release.inferred + [e], release.rows + [t], ById(release.rows + [t]), fold, w)
         == RowsFor(release.inferred, release.rows, ById(release.rows), fold, w)
  {
    TwinNamed(release, fold, i, t, e);
    OtherRowsStay(release, fold, i, t, release.inferred, w);
    RowsForSnoc(release.inferred, e, release.rows + [t], ById(release.rows + [t]), fold, w);
  }

  lemma OthersSurvive(release: Release, fold: string -> string, i: nat, t: Row, e: Inferred, w: Id)
    requires StructureOk(release) && i < |release.rows| && release.rows[i].kind == WARD
    requires IsTwin(release, fold, release.rows[i], t) && t.constituencyId.Some?
    requires NamesExactly(release, fold, release.rows[i], e) && OnlyByName(release, fold, release.rows[i])
    requires w in ById(release.rows) && w != release.rows[i].id
    ensures SurvivorFor(WithTwin(release, t, e), fold, w) == SurvivorFor(release, fold, w)
  {
    var byId := ById(release.rows);
    TwinById(release, fold, i, t);
    OthersGrouped(release, fold, i, t, e, w);
    SameSurvivor(byId, ById(release.rows + [t]), w, RowsFor(release.inferred, release.rows, byId, fold, w));
  }

  lemma TwinInferred(release: Release, fold: string -> string, i: nat, t: Row, e: Inferred, x: Inferred)
    requires WellFormed(release, fold) && i < |release.rows| && release.rows[i].kind == WARD
    requires IsTwin(release, fold, release.rows[i], t) && t.constituencyId.Some?
    requires NamesExactly(release, fold, release.rows[i], e) && OnlyByName(release, fold, release.rows[i])
    requires x in release.inferred || x == e
    ensures var next := WithTwin(release, t, e);
      var named := WardOf(next.rows, ById(next.rows), fold, x);
      named.Some? && SurvivorFor(next, fold, named.value).Some?
  {
    TwinNamed(release, fold, i, t, x);
    if NamesAlike(release, fold, release.rows[i], x) {
      TwinSurvives(release, fold, i, t, e);
    } else {
      WardOfIsKnown(release, fold, x);
      OthersSurvive(release, fold, i, t, e, WardOf(release.rows, ById(release.rows), fold, x).value);
    }
  }

  lemma {:induction false} WardNamedIsKnown(rows: seq<Row>, byId: map<Id, Row>, fold: string -> string, lgaId: Id, name: string, key: string)
    ensures WardNamed(rows, fold, lgaId, name).Some? ==> WardNamed(rows, fold, lgaId, name).value in Map(IdOf, rows)
    ensures WardKeyed(rows, byId, key).Some? ==> WardKeyed(rows, byId, key).value in Map(IdOf, rows)
  {
    if rows != [] {
      var n := |rows| - 1;
      WardNamedIsKnown(rows[..n], byId, fold, lgaId, name, key);
      assert Map(IdOf, rows) == Map(IdOf, rows[..n]) + [rows[n].id];
    }
  }

  lemma WardOfIsKnown(release: Release, fold: string -> string, x: Inferred)
    ensures WardOf(release.rows, ById(release.rows), fold, x).Some? ==> WardOf(release.rows, ById(release.rows), fold, x).value in ById(release.rows)
  {
    ByIdKeys(release.rows);
    var lga := LgaNamed(release.rows, fold, fold(x.lga));
    if lga.Some? { WardNamedIsKnown(release.rows, ById(release.rows), fold, lga.value, fold(x.ward), x.ward); }
  }

  /** Any accepted release and any ward of it that is only ever named: with a twin added it is accepted
      again, an inferred row naming the ward letter for letter flags the twin, and the ward is flagged by
      nobody, whatever flagged it before. */
  lemma TwinTakesTheFlag(release: Release, fold: string -> string, i: nat, t: Row, e: Inferred)
    requires WellFormed(release, fold) && i < |release.rows| && release.rows[i].kind == WARD
    requires IsTwin(release, fold, release.rows[i], t)
    requires NamesExactly(release, fold, release.rows[i], e) && OnlyByName(release, fold, release.rows[i])
    ensures t.constituencyId.Some? && WellFormed(WithTwin(release, t, e), fold)
    ensures var next := WithTwin(release, t, e);
      && WardOf(next.rows, ById(next.rows), fold, e) == Some(t.id)
      && SurvivorFor(next, fold, t.id).Some? && SurvivorFor(next, fold, release.rows[i].id).None?
    ensures var next := WithTwin(release, t, e);
      forall kind :: kind != WARD ==> CountKind(next.rows, kind) == CountKind(release.rows, kind)
  {
    TwinStructure(release, fold, i, t, e);
    var v, next := release.rows[i], WithTwin(release, t, e);
    forall k | 0 <= k < |next.inferred|
      ensures var named := WardOf(next.rows, ById(next.rows), fold, next.inferred[k]);
        named.Some? && SurvivorFor(next, fold, named.value).Some?
    {
      TwinInferred(release, fold, i, t, e, next.inferred[k]);
    }
    TwinSurvives(release, fold, i, t, e);
    TwinNamed(release, fold, i, t, e);
    forall x | x in next.inferred ensures WardOf(next.rows, ById(next.rows), fold, x) != Some(v.id) {
      assert Map(IdOf, release.rows)[i] == v.id != t.id;
      TwinNamed(release, fold, i, t, x);
    }
    NobodyNames(next.inferred, next.rows, ById(next.rows), fold, v.id);
    forall kind | kind != WARD ensures CountKind(next.rows, kind) == CountKind(release.rows, kind) {
      CountSnoc(release.rows, t, kind);
    }
  }
}
