/** What an applied identity release leaves in the tables, column by column, and which members can then
    register at the polling units it imported. */
module ImportedRegistration {
  import opened Prelude
  import opened Territory
  import opened EdgeGovernance
  import opened IdentityRelease
  import opened Ancestry

  // ---------- the stored columns ----------

  /** A ward's approval outlives the import iff it was for this very edge and the edge is still inferred. */
  predicate WardStored(before: map<Id, Ward>, r: Row, inferred: map<Id, string>, releaseId: Id, w: Ward) {
    && w.stateId == r.stateId && Some(w.lgaId) == r.lgaId && w.edge == r.constituencyId && w.release == Some(releaseId)
    && (w.inferred <==> r.id in inferred)
    && w.basis == (if r.id in inferred then Some(inferred[r.id]) else None)
    && w.approvedFor == (if r.id in before && before[r.id].edge == r.constituencyId && r.id in inferred
                         then before[r.id].approvedFor else None)
    && w.reviewedAt == (if r.id in before then before[r.id].reviewedAt else None)
  }

  /** The table row under a release row's identifier holds that row's own columns. */
  predicate RowStored(g: Graph, r: Row, inferred: map<Id, string>, releaseId: Id, g': Graph) {
    && (r.kind == LGA ==> r.id in g'.lgas && g'.lgas[r.id].stateId == r.stateId)
    && (r.kind == STATE_CONSTITUENCY ==>
         && r.id in g'.constituencies
         && g'.constituencies[r.id].stateId == r.stateId && g'.constituencies[r.id].federalId == r.federalId)
    && (r.kind == WARD ==> r.id in g'.wards && WardStored(g.wards, r, inferred, releaseId, g'.wards[r.id]))
    && (r.kind == POLLING_UNIT ==>
         && r.id in g'.units
         && g'.units[r.id].stateId == r.stateId && Some(g'.units[r.id].lgaId) == r.lgaId && Some(g'.units[r.id].wardId) == r.wardId)
  }

  predicate InRelease(rows: seq<Row>, kind: string, id: Id) {
    exists i :: 0 <= i < |rows| && rows[i].kind == kind && rows[i].id == id
  }

  ghost predicate OnlyAdds<V>(before: map<Id, V>, rows: seq<Row>, kind: string, after: map<Id, V>) {
    && (forall id :: id in before ==> id in after && (InRelease(rows, kind, id) || after[id] == before[id]))
    && (forall id :: id in after ==> id in before || InRelease(rows, kind, id))
  }

  lemma UpsertOnlyAdds<V>(before: map<Id, V>, rows: seq<Row>, kind: string, merge: (Option<V>, Row) -> V, after: map<Id, V>)
    requires Upserted(before, rows, kind, merge, after)
    ensures OnlyAdds(before, rows, kind, after)
  {
    forall id | id in before || id in after
      ensures id in before ==> id in after && (InRelease(rows, kind, id) || after[id] == before[id])
      ensures id in after ==> id in before || InRelease(rows, kind, id)
    {
      if InRelease(rows, kind, id) {
        var i :| 0 <= i < |rows| && rows[i].kind == kind && rows[i].id == id;
        assert Lookup(after, rows[i].id).Some?;
      } else {
        assert NoRow(rows, kind, id) && Lookup(after, id) == Lookup(before, id);
      }
    }
  }

  lemma RowsStored(g: Graph, release: Release, inferred: map<Id, string>, releaseId: Id, g': Graph, i: nat)
    requires StructureOk(release) && Applied(g, release.rows, inferred, releaseId, g') && i < |release.rows|
    ensures RowStored(g, release.rows[i], inferred, releaseId, g')
  {
    var r := release.rows[i];
    assert ParentsOk(ById(release.rows), release.relationships, r);
    if r.kind == WARD { assert Lookup(g'.wards, r.id) == Some(ImportedWard(Lookup(g.wards, r.id), ItemOf(r, inferred), releaseId)); }
  }

  /** Applying an accepted release stores every row under its identifier with its own columns, and
      touches no other row and no other table. */
  lemma ReleaseIsStored(g: Graph, release: Release, inferred: map<Id, string>, releaseId: Id, g': Graph)
    requires StructureOk(release) && Applied(g, release.rows, inferred, releaseId, g')
    ensures forall i :: 0 <= i < |release.rows| ==> RowStored(g, release.rows[i], inferred, releaseId, g')
    ensures OnlyAdds(g.lgas, release.rows, LGA, g'.lgas) && OnlyAdds(g.constituencies, release.rows, STATE_CONSTITUENCY, g'.constituencies)
    ensures OnlyAdds(g.wards, release.rows, WARD, g'.wards) && OnlyAdds(g.units, release.rows, POLLING_UNIT, g'.units)
    ensures g'.ogunStates == g.ogunStates && g'.districts == g.districts && g'.federals == g.federals
  {
    forall i | 0 <= i < |release.rows| ensures RowStored(g, release.rows[i], inferred, releaseId, g') {
      RowsStored(g, release, inferred, releaseId, g', i);
    }
    UpsertOnlyAdds(g.lgas, release.rows, LGA, LgaRow, g'.lgas);
    UpsertOnlyAdds(g.constituencies, release.rows, STATE_CONSTITUENCY, ConstituencyRow, g'.constituencies);
    UpsertOnlyAdds(g.wards, release.rows, WARD, WardRow(inferred, releaseId), g'.wards);
    UpsertOnlyAdds(g.units, release.rows, POLLING_UNIT, UnitRow, g'.units);
  }

  // ---------- registering there ----------

  /** The ward's edge needs no approval, or carries over the one it had. */
  predicate EdgeStands(g: Graph, ward: Row, inferred: map<Id, string>) {
    ward.id in inferred ==>
      ward.id in g.wards && g.wards[ward.id].edge == ward.constituencyId && g.wards[ward.id].approvedFor == ward.constituencyId
  }

  /** The rows of the release above one of its polling units. */
  lemma RowsAbove(release: Release, i: nat) returns (l: nat, w: nat)
    requires StructureOk(release) && i < |release.rows| && release.rows[i].kind == POLLING_UNIT
    ensures l < |release.rows| && release.rows[l].kind == LGA && Some(release.rows[l].id) == release.rows[i].lgaId
    ensures w < |release.rows| && release.rows[w].kind == WARD && Some(release.rows[w].id) == release.rows[i].wardId
    ensures release.rows[i].stateId == release.rows[l].stateId == release.rows[w].stateId == OGUN
    ensures release.rows[w] == ById(release.rows)[release.rows[i].wardId.value]
  {
    var r := release.rows[i];
    assert RowOk(r, release.namespaces) && ParentsOk(ById(release.rows), release.relationships, r);
    l := RowNamed(release, r.lgaId, LGA);
    w := RowNamed(release, r.wardId, WARD);
  }

  /** The chain above a unit, complete up to its federal constituency. */
  predicate Hangs(g: Graph, unit: Id, ward: Id, constituency: Id, federal: Id) {
    && unit in g.units && g.units[unit].stateId == OGUN && g.units[unit].wardId == ward
    && ward in g.wards && g.wards[ward].stateId == OGUN && g.wards[ward].edge == Some(constituency)
    && constituency in g.constituencies && g.constituencies[constituency] == Constituency(OGUN, Some(federal))
    && federal in g.federals && g.federals[federal].stateId == OGUN
  }

  /** The walk from a unit and its ward together. */
  lemma UnitWithWardResolvesIff(g: Graph, unit: Id, ward: Id, constituency: Id, federal: Id)
    requires g.ogunStates == 1 && Hangs(g, unit, ward, constituency, federal)
    ensures var input := Scope(OGUN, None, None, None, Some(ward), Some(unit));
      Resolve(g, input) == if DistrictIsOgun(g, federal)
                           then Ok(Scope(OGUN, Some(g.federals[federal].districtId), Some(federal), Some(constituency), Some(ward), Some(unit)))
                           else Err(InvalidTerritory)
  {
    var t := Scope(OGUN, None, None, Some(constituency), Some(ward), Some(unit));
    assert ClimbFromUnit(g, Scope(OGUN, None, None, None, Some(ward), Some(unit))) == Ok(t.(constituency := None));
    assert ClimbFromWard(g, t.(constituency := None)) == Ok(t);
    assert ClimbFromConstituency(g, t) == Ok(t.(federal := Some(federal)));
  }

  lemma RegistersIff(g: Graph, lga: Id, ward: Id, unit: Id, constituency: Id, federal: Id)
    requires g.ogunStates == 1 && Hangs(g, unit, ward, constituency, federal)
    requires g.units[unit].lgaId == lga && lga in g.lgas && g.lgas[lga].stateId == OGUN
    ensures var derived := DeriveMemberAncestry(g, MemberInput(OGUN, lga, ward, unit));
      && (derived.Ok? <==>
           && g.wards[ward].lgaId == lga && (g.wards[ward].inferred ==> g.wards[ward].approvedFor == Some(constituency))
           && DistrictIsOgun(g, federal))
      && (derived.Ok? ==> derived.value == MemberAncestry(OGUN, g.federals[federal].districtId, federal, constituency, lga, ward, unit))
  {
    UnitWithWardResolvesIff(g, unit, ward, constituency, federal);
  }

  /** A member naming an imported polling unit by its release row can register there iff the unit's LGA is
      its ward's, the ward's edge stands, and the federal constituency above lies in an Ogun district;
      what registration derives is then the release's own chain. */
  lemma RegistersAtImportedUnitIff(g: Graph, release: Release, inferred: map<Id, string>, releaseId: Id, g': Graph, i: nat)
    requires StructureOk(release) && DatabaseParentsOk(g, release.rows) && g.ogunStates == 1
    requires Applied(g, release.rows, inferred, releaseId, g')
    requires i < |release.rows| && release.rows[i].kind == POLLING_UNIT
    ensures var r, byId := release.rows[i], ById(release.rows);
      && r.lgaId.Some? && IsKind(byId, r.wardId, WARD)
      && var ward := byId[r.wardId.value];
      && IsKind(byId, ward.constituencyId, STATE_CONSTITUENCY) && byId[ward.constituencyId.value].federalId.Some?
      && var federal := byId[ward.constituencyId.value].federalId.value;
      && federal in g.federals
      && var derived := DeriveMemberAncestry(g', MemberInput(OGUN, r.lgaId.value, r.wardId.value, r.id));
      && (derived.Ok? <==> r.lgaId == ward.lgaId && EdgeStands(g, ward, inferred) && DistrictIsOgun(g, federal))
      && (derived.Ok? ==> derived.value == MemberAncestry(OGUN, g.federals[federal].districtId, federal, ward.constituencyId.value,
                                                          r.lgaId.value, r.wardId.value, r.id))
  {
    var r := release.rows[i];
    var l, w := RowsAbove(release, i);
    var c, f := ImportedWardChain(g, release, inferred, releaseId, g', w);
    RowsStored(g, release, inferred, releaseId, g', i);
    RowsStored(g, release, inferred, releaseId, g', l);
    RowsStored(g, release, inferred, releaseId, g', w);
    RegistersIff(g', r.lgaId.value, r.wardId.value, r.id, c, f);
  }
}
