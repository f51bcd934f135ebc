# A verified model of the election platform's core

This project models five parts of the platform that keep invariants over whole runs, and proves
them in Dafny 4.11. `dafny verify dfyconfig.toml` checks everything.

| file | what it models |
|---|---|
| `Csv.dfy` | the release-file parser (a quote state machine) against every way of writing a table |
| `Checksum.dfy` | what the LF-canonical checksum of a release file fixes |
| `Territory.dfy` | the command graph, the upward walk, coordinator assignments, authority and delegation |
| `IdentityRelease.dfy` | validation of an identity release, and what applying an accepted one leaves behind |
| `ReleaseShape.dfy` | what an accepted release looks like, said of its files alone |
| `IdentityTwins.dfy` | wards whose names fold alike, and which of them an inferred row flags |
| `EdgeGovernance.dfy` | the ward-to-constituency edge: importers and governance officers writing one table concurrently |
| `DerivedScopes.dfy` | realtime rooms and the scoped organisation tree, two re-encodings of authority |
| `Ancestry.dfy` | registration, backfill and legacy migration of ancestry, and the dashboard roll-up |
| `ImportedRegistration.dfy` | the columns an applied release leaves, and who can then register at its polling units |
| `PayoutAuthority.dfy` | batched balances, unreconciled legacy claims and the valuations |
| `PayoutExecution.dfy` | the one executor that pays, serially and as interleaved transactions |
| `PayoutSolvency.dfy` | which rows end paid and what payments cost over whole runs, across both money-out paths |
| `PayoutAmounts.dfy` | how much money each payment of a run is |
| `PayoutOverdraft.dfy` | reservations beyond earnings, and why none of them is payable |
| `PayoutRoutes.dfy` | the routes beside the executor: what they read, and what they write later |
| `PayoutRaces.dfy` | batches, late writes and redemptions that newly commit a member, and exactly when they overpay |
| `Rewards.dfy` | referral rewards, milestone bonuses and participation credits under changing rules |
| `RewardsDue.dfy` | which rewards one run pays, with every condition of a rule written out |
| `Cutover.dfy` | the legacy balance cutover, and what rounding may lose |
| `CutoverRaces.dfy` | cutover runs racing one another against the unique index |
| `Worker.dfy` | durable jobs: claims, crashes, dead letters, stale sweeps, duplicate deliveries |
| `WorkerPoll.dfy` | the poll that feeds the queues: its order and its batch |
| `WorkerStarvation.dfy` | which waiting jobs no poll ever reaches |
| `Custody.dfy` | identity documents in an object store whose operations may fail, next to committed rows |
| `Prelude.dfy` | options, results, sequence helpers, decimal notation |

Code that changes things step by step is an object or a loop proved against a specification
function; the properties are lemmas about those functions, stated without them wherever they say what an
operation does. Concurrent code is a state machine:
each transaction has a phase, reads see committed rows, a conditional update takes its row's lock
and checks its predicate again, an insert obeys the unique indexes and waits for a pending
duplicate, and a rollback may happen anywhere. Routes that read a row and later write it by identifier
are two steps. The rest of the platform takes arbitrary steps, restricted only where a lemma says so.

## What was found to be false of the code, and exactly when it holds

- A checksum taken on the `\r\n?`-to-`\n` form fixes every cell up to its line breaks
  (`Checksum.ChecksumFixesRowsUpToBreaks`), not the parsed content
  (`Checksum.QuotedCrEscapesChecksum`): the rows agree iff no quoted carriage return lies strictly
  inside a cell, with text before and after it (`Checksum.CanonicalRowsIff`).
- A state constituency's count and the wards listed under it differ
  (`Ancestry.UnreviewedWardSplitsCounts`) iff someone lives on a ward whose inferred edge awaits
  review (`Ancestry.ConstituencyRollsUp`).
- An inferred row flags every ward of its name iff no two wards of the LGA fold to one name
  (`IdentityRelease.NameFlagsEveryBearerIff`): any accepted release stays accepted with a twin that
  differs only in case, and a row naming the ward letter for letter then flags the twin instead
  (`IdentityTwins.TwinTakesTheFlag`).
- The worker's own attempt limit strands a job iff the row's limit plus its crashes exceed it
  (`Worker.StrandingIff`). Rows default to five attempts and so does the worker, so one crash is
  enough.
- The poll counts jobs it has no queue for against its batch of 200: a due job is never offered iff a
  full batch of those is ahead of it (`WorkerStarvation.StarvesIff`). Both writers here use names that
  have a queue, so it takes an older or newer image, or a writer outside, to enqueue the others
  (`WorkerStarvation.FloodStarves`).
- A paid row need not stay paid. The assignment status route and both redemption reviews check what
  they read and then update by identifier, so a decision can land on a row executed meanwhile: a row is
  paid iff it was executed once and no such write came later (`PayoutRoutes.PaidIffNoLateWrite`). A
  late rejection frees the points, which a batch valued on that very state then pays again
  (`PayoutRaces.LateRejectionOverpays`).
- Batches of two cycles, valued on one state and then stored, pay the same points twice
  (`PayoutRaces.StaleBatchesOverpay`). Two batches of one cycle cannot: the cycle stores only the
  member's first row (`PayoutRaces.OneRowPerCycle`).
- Nobody is overpaid as long as three things are covered: an assignment when it is stored, a held or
  rejected one that a late write reopens, and a redemption paid after a late write has rejected an
  executed row (`PayoutSolvency.NeverOverpaid`). Each is needed: uncovered, it leads to an overpayment
  (`PayoutRaces.CommittingOverpaysIff`, `PayoutRaces.RedeemingOverpaysIff`). Without late writes only
  the first remains (`PayoutRoutes.FreshPlaysNeverOverpay`).
- A put that fails after taking effect leaves bytes nobody reports (`Custody.RefusedPutLeaksIff`).
  The comparison that should refuse other bytes never fires, since both drivers return the hash of
  what they were given. A provider that checks the payload hash signed with the request refuses bytes
  altered on the way; what it fails to check, or damages itself, is accepted and the document committed
  (`Custody.DamageIsAccepted`). A copy checks nothing either, although its comment says that it
  verifies the bytes again: `Custody.CommittedBytesArePresent` says exactly when the hash still holds.
  The access route catches both (`Custody.ShownIffCopiedUndamaged`).
- A committed transaction that its wrapper hears as failed loses its bytes
  (`Custody.CustodyFollowsTheReport`).
- Re-processing a paid referral under a newer rule renames the rule on the event but not on the
  entry (`Rewards.EventRuleDrifts`); the two agree afterwards iff the rule found is the one that
  paid or, when none is found, they agreed before (`Rewards.EventNamesItsEntryIff`).

## Model

| member | source | states |
|---|---|---|
| Csv.ReadRows | packages/database/scripts/import-ogun-reference-release.ts:98-147 | the in-place buffers and flags of the loop compute the lexer's rows, trimmed, blank rows dropped |
| Csv.ParseCsv | packages/database/scripts/import-ogun-reference-release.ts:98-154 | the records of those rows: first row as headers, absent cells empty |
| Csv.WrittenThenReadRows | packages/database/scripts/import-ogun-reference-release.ts:98-147 | a table written with cells quoted, bare or in parts, lines ended by LF, CRLF or CR, the last perhaps not at all, reads back as itself iff every cell is trimmed and no row is blank, whatever else the cells hold |
| Csv.WrittenReadsCut | packages/database/scripts/import-ogun-reference-release.ts:98-147 | without any condition a written table reads as its rows with visible text, in order, each cell without the white space at its ends |
| Csv.WrittenThenReadRecords | packages/database/scripts/import-ogun-reference-release.ts:98-154 | one record for each line after the first and no key but the first line's cells; under each name stands the cell of its last column, empty where the line is shorter |
| Csv.OpenQuoteCloses | packages/database/scripts/import-ogun-reference-release.ts:98-147 | a text with an odd number of quotes reads as if one more quote ended it |
| Checksum.ReadsCanonically | packages/database/scripts/import-ogun-reference-release.ts:84-147 | reading the canonical text gives the table read from the text with every cell made canonical, for every text |
| Checksum.ChecksumFixesRowsUpToBreaks | packages/database/scripts/import-ogun-reference-release.ts:84-147 | equal checksum inputs always hold the same cells up to line breaks |
| Checksum.CanonicalRowsIff | packages/database/scripts/import-ogun-reference-release.ts:84-147 | the parser returns the same rows for a text and its LF-canonical form iff no carriage return lies strictly inside a cell, found by one scan of the text |
| Checksum.ChecksumFixesRecords | packages/database/scripts/import-ogun-reference-release.ts:84-158 | without such carriage returns, equal checksum inputs parse to equal rows and records |
| Checksum.QuotedCrEscapesChecksum | packages/database/scripts/import-ogun-reference-release.ts:84-158 | two texts with one checksum input and different records |
| Territory.ResolveOperationalTerritory | apps/api/src/authorization.ts:61-160 | the in-place climb from the deepest level computes the staged specification, refusals included |
| Territory.ResolveExact | apps/api/src/authorization.ts:35-160 | the walk returns exactly the record that lies on the graph, says everything the input says and goes no deeper |
| Territory.WhyRefused | apps/api/src/authorization.ts:61-160 | another state, a chain that breaks off at a ward without an edge or a constituency without a federal one, or else a name unknown, outside Ogun or contradicted: each refusal iff its cause |
| Territory.SharedKeySharesAncestors | apps/api/src/authorization.ts:61-160 | resolved records that agree at one level agree at every level above |
| Territory.ValidatedProfile | apps/api/src/authorization.ts:166-206 | an accepted assignment lies on the graph and names its own level and every level above, none below |
| Territory.ValidatedIff | apps/api/src/authorization.ts:166-206 | an assignment is accepted iff the names given complete to a territory of the graph that reaches exactly the level assigned |
| Territory.AuthorizedIff | apps/api/src/authorization.ts:208-251 | on the graph: active administrators and officers anywhere in Ogun, an active coordinator exactly where the territory cut at their level is their own and for the four delegable actions, nobody else |
| Territory.OneDelegation | apps/api/src/authorization.ts:227-332 | creating or reassigning a coordinator gives them no action the delegator lacks |
| Territory.DelegationNeverWidens | apps/api/src/authorization.ts:166-332 | along any chain of delegations, whatever the last may act on, the first may too |
| Territory.ManagementIsTransitive | apps/api/src/authorization.ts:253-290 | managing a coordinator at their own territory means managing whoever they manage |
| Territory.ManagementIsAcyclic | apps/api/src/authorization.ts:253-290 | whatever the roles in a chain of management, heights strictly fall, so it has no cycle, no more than seven users, and administrators or officers at its head only |
| Territory.OnlyAdministratorsManageStaff | apps/api/src/authorization.ts:253-290 | in any chain of management a validator, payout officer or user of another role comes last and directly after a super administrator |
| Territory.WhoManagesWhom | apps/api/src/authorization.ts:253-290 | administrators, officers and coordinators manage a user iff the stated role, territory, level and activity allow it; a coordinator a member iff they may manage users at that territory |
| Territory.WhoAppointsWhom | apps/api/src/authorization.ts:292-332 | appointing takes the right to assign there and, of a coordinator, a strictly higher level; moving a coordinator takes managing them as well |
| IdentityRelease.CheckRows | packages/database/scripts/import-ogun-reference-release.ts:301-347 | row failures are empty iff every row is well formed with distinct identifiers and source keys; the map holds every row |
| IdentityRelease.CheckCounts | packages/database/scripts/import-ogun-reference-release.ts:349-360 | count failures are empty iff every kind the manifest counts has that many rows |
| IdentityRelease.CheckRelationships | packages/database/scripts/import-ogun-reference-release.ts:362-410 | relationship failures are empty iff every command row joins rows of an allowed pair of kinds and none repeats; the rows about one territory are grouped |
| IdentityRelease.CheckParents | packages/database/scripts/import-ogun-reference-release.ts:412-463 | parent failures are empty iff every declared parent exists and is repeated by its one command row |
| IdentityRelease.CheckMemberships | packages/database/scripts/import-ogun-reference-release.ts:465-498 | membership failures are empty iff every membership names a state constituency and an LGA, none repeats, and every constituency has one |
| IdentityRelease.ResolveInferredEdges | packages/database/scripts/import-ogun-reference-release.ts:500-598 | inferred rows are accepted iff each names a ward and each ward named keeps a row agreeing with its recorded edge; the first such row's basis is returned |
| IdentityRelease.ValidateIdentityRelease | packages/database/scripts/import-ogun-reference-release.ts:282-604 | no failure iff the release is well formed; then exactly the wards some inferred row names are returned, each with its surviving basis |
| ReleaseShape.StructureIff | packages/database/scripts/import-ogun-reference-release.ts:282-498 | the structural checks pass iff the files stand: kinds, identifiers, counts, adjacent kinds related once, every parent present and named by one command row, every constituency a member of some LGA |
| ReleaseShape.AcceptedIff | packages/database/scripts/import-ogun-reference-release.ts:282-604 | a release is accepted iff its files stand, every inferred row names a ward, and for each ward so named some inferred row agrees with its declared constituency |
| ReleaseShape.WardOfIff | packages/database/scripts/import-ogun-reference-release.ts:500-560 | an inferred row reads as the last ward of that name in the last LGA of that name or, without one, as the last ward of that build key |
| ReleaseShape.BasisIsFirstAgreeing | packages/database/scripts/import-ogun-reference-release.ts:561-598 | the basis stored is that of the first inferred row naming the ward that agrees with its declared constituency |
| IdentityRelease.CommandRowsMatchTerritories | packages/database/scripts/import-ogun-reference-release.ts:362-463 | in an accepted release command rows and non-LGA territories match one to one and repeat the declared parent |
| IdentityRelease.NameFlagsEveryBearerIff | packages/database/scripts/import-ogun-reference-release.ts:500-560 | a row flags every ward bearing its name iff no two wards of that LGA fold alike |
| IdentityTwins.TwinTakesTheFlag | packages/database/scripts/import-ogun-reference-release.ts:500-560 | for every accepted release and every ward of it that is only ever named: with a twin added it stays accepted, every other count unchanged; a row naming the ward letter for letter flags the twin, and nobody flags the ward |
| IdentityRelease.ValidateDatabaseParents | packages/database/scripts/import-ogun-reference-release.ts:949-971 | nothing is missing iff every declared federal parent is a stored Ogun row |
| IdentityRelease.UpsertKind | packages/database/scripts/import-ogun-reference-release.ts:729-905 | one pass writes each row of its kind over what was there, and no other row |
| IdentityRelease.ApplyIdentityRelease | packages/database/scripts/import-ogun-reference-release.ts:717-907 | the passes leave districts and federal constituencies alone, write each row once over what was stored, and add exactly the constituency memberships not stored before; the columns are in ImportedRegistration.ReleaseIsStored |
| IdentityRelease.ImportedWardResolvesIff | packages/database/scripts/import-ogun-reference-release.ts:717-970 | after apply the walk succeeds on an imported ward iff its federal constituency lies in an Ogun district |
| IdentityRelease.ImportedUnitResolvesIff | packages/database/scripts/import-ogun-reference-release.ts:717-970 | the same for an imported polling unit |
| ImportedRegistration.ReleaseIsStored | packages/database/scripts/import-ogun-reference-release.ts:717-907 | after apply each row of the release stands under its identifier with its own state, LGA, parent, basis and release; an approval survives iff it was for that edge and the edge is still inferred; nothing else is touched |
| ImportedRegistration.RegistersAtImportedUnitIff | apps/api/src/lib/member-ancestry.ts:75-204 | a member naming an imported polling unit by its row can register iff the unit's LGA is its ward's, the ward's edge needs no approval or keeps it, and the district is Ogun; the chain derived is the release's own |
| IdentityRelease.InferredWardsAreFlagged | packages/database/scripts/import-ogun-reference-release.ts:810-868 | after apply a ward of the release is flagged inferred iff some inferred row names it |
| EdgeGovernance.EncodingsAgree | apps/api/src/lib/member-territory-scope.ts:30-69 | in every reachable state of importers interleaved with decisions each ward passes the CHECK, and the query filter, the row predicate and the backfill's copy select the same wards |
| EdgeGovernance.AbortNeedsAnApproval | packages/database/scripts/import-ogun-reference-release.ts:828-868 | the CHECK aborts an import only if the ward was approved after that import's clear |
| EdgeGovernance.CommittedImportIsSerial | packages/database/scripts/import-ogun-reference-release.ts:810-868 | a committed import left every ward of its items with the item's columns over the row it found, its approval only if for that very edge and still inferred, and nothing to others |
| EdgeGovernance.CommittedDecisionIsSerial | apps/api/src/routes/edge-governance.ts:312-416 | a committed decision was allowed on the row it found, appended one review of that row's edge later than all on it, and changed that row's two governance columns alone |
| EdgeGovernance.ImportAloneCommits | packages/database/scripts/import-ogun-reference-release.ts:810-868 | with nothing else under way an import of any items reaches its commit |
| EdgeGovernance.DecisionAloneCommits | apps/api/src/routes/edge-governance.ts:312-416 | with nothing else under way a decision allowed on its row reaches its commit, at the next instant |
| EdgeGovernance.OperationalIffLastVerdictApproves | apps/api/src/routes/edge-governance.ts:375-416 | an inferred edge is operational iff the last approval, rejection, re-pointing or sourcing of its ward is an approval |
| EdgeGovernance.OldApprovalNeverReturns | apps/api/src/routes/edge-governance.ts:100-146 | after a rejection, re-pointing or sourcing only a new approval makes an inferred edge operational |
| EdgeGovernance.CurrentDecisionIsLastCommitted | apps/api/src/routes/edge-governance.ts:100-124 | under any clock the current decision on a ward is the one committed last among those for its constituency, release and basis as they are, none iff there is none |
| EdgeGovernance.ReviewStateFollowsTheLog | apps/api/src/routes/edge-governance.ts:134-146 | the queue shows approved iff the edge is sourced or the last verdict approved, else rejected iff the last committed decision that stands rejects |
| EdgeGovernance.WardTable.ImportWard | packages/database/scripts/import-ogun-reference-release.ts:828-868 | clear then upsert leave the item's columns; the clear counts iff an approval was lost |
| EdgeGovernance.WardTable.ImportWards | packages/database/scripts/import-ogun-reference-release.ts:810-868 | every ward of the release is imported once over the old table, every other is untouched, and the count is that of the approvals lost |
| EdgeGovernance.WardTable.DecideEdge | apps/api/src/routes/edge-governance.ts:312-416 | each refusal iff its cause, a refusal changes nothing; an acceptance appends one review of the edge as it is, at the next instant after all decisions on it, and sets the two governance columns |
| DerivedScopes.RoomsAreInjective | apps/api/src/realtime/rooms.ts:9-26 | no two territories share a room name |
| DerivedScopes.RealtimeRoomsForTerritory | apps/api/src/realtime/rooms.ts:28-50 | the rooms are the state's and one for each level the territory names |
| DerivedScopes.RoomsNeverLeak | apps/api/src/realtime/gateway.ts:215-225 | an event reaches an authorised subscription's room only if the actor may view it |
| DerivedScopes.DefaultRoomIsExact | apps/api/src/realtime/rooms.ts:28-73 | a validated coordinator is joined to their own room, and an event reaches it iff they may view the event |
| DerivedScopes.RequestGrantedIff | apps/api/src/realtime/gateway.ts:215-225 | a requested room is joined iff the request names a territory of the graph that lies under the actor's own, or any for administrators and officers |
| DerivedScopes.DefaultRooms | apps/api/src/realtime/rooms.ts:52-73 | without a request administrators and officers join the state's room, which carries every event; members and coordinators without a territory join none |
| DerivedScopes.ScopedTree | apps/api/src/lib/organization-tree.ts:191-232 | scoping keeps a path iff it agrees with the profile from its level up |
| DerivedScopes.ScopedTreeListsAgreeingPaths | apps/api/src/lib/organization-tree.ts:191-232 | the scoped tree lists, in order and as often, exactly the paths that agree with the profile at every level it reaches, and no state officers |
| DerivedScopes.ScopedTreeIsAuthority | apps/api/src/lib/organization-tree.ts:191-232 | for a validated profile a polling unit stays in the tree iff the authority predicate holds for it |
| Ancestry.RegistrationIsAlreadyCorrect | apps/api/src/lib/member-ancestry.ts:75-204 | whatever registration writes the backfill classes as already correct |
| Ancestry.RegistrationVersusBackfill | packages/database/scripts/backfill-member-ancestry.ts:115-205 | for every profile, registration accepts iff its polling unit matches, the backfill places it, and its LGA and district are Ogun rows; then both derive one chain |
| Ancestry.WhyRegistrationRefuses | apps/api/src/lib/member-ancestry.ts:75-204 | another state, an unreviewed inferred edge, or a missing edge or federal constituency of a place that fits: each refusal iff its cause |
| Ancestry.BucketIsMeaning | packages/database/scripts/backfill-member-ancestry.ts:115-205 | each profile falls into the one bucket that is true of it: placed and stored so, placed with nothing stored, placed with something else stored, unplaced, awaiting review, outside Ogun |
| Ancestry.SecondBackfillChangesNothing | packages/database/scripts/backfill-member-ancestry.ts:107-267 | a repaired profile needs no repair, and repair of it is already correct |
| Ancestry.BucketsPartition | packages/database/scripts/backfill-member-ancestry.ts:212-226 | the six buckets count every finding once |
| Ancestry.MemberTable.RunBackfill | packages/database/scripts/backfill-member-ancestry.ts:59-268 | one finding a profile, of the bucket that is true of it; the report counts each bucket; only an applying run writes, and a row it writes takes the ancestors of its placement |
| Ancestry.MemberTable.WriteChanges | packages/database/scripts/backfill-member-ancestry.ts:249-267 | every profile due a change holds its derived chain, no other changes |
| Ancestry.LegacyDerivationIsValidation | packages/database/scripts/migrate-phase1-identities.ts:60-224 | on every graph validation accepts the ids cut to the level iff the legacy derivation gives the same assignment and it lies on the Ogun graph |
| Ancestry.LegacyDerivationOnClosedGraph | packages/database/scripts/migrate-phase1-identities.ts:60-224 | on an Ogun-closed graph the two are one partial function |
| Ancestry.SumIsCount | apps/api/src/routes/dashboard.ts:226-246 | no place counts under two territories of a level, so a sum of counts is the count of the union |
| Ancestry.DistrictRollsUp | apps/api/src/routes/dashboard.ts:132-155 | a senatorial count is the sum over its federal constituencies |
| Ancestry.FederalRollsUp | apps/api/src/routes/dashboard.ts:132-155 | a federal count is the sum over its state constituencies |
| Ancestry.ConstituencyRollsUp | apps/api/src/lib/member-territory-scope.ts:118-186 | a constituency count is the sum over its operational wards, and the sum over all wards iff nobody lies on an unreviewed one |
| Ancestry.UnreviewedWardSplitsCounts | apps/api/src/lib/member-territory-scope.ts:118-186 | a constituency that counts nobody while the ward listed beneath it counts one |
| Ancestry.StateBoundsDistricts | apps/api/src/lib/member-territory-scope.ts:118-186 | the district total exceeds the state count by at most the places recorded outside the state, and reaches that bound iff everyone in the state is placed in a district |
| PayoutAuthority.GroupByIsSum | apps/api/src/lib/payout-authority.ts:233-264 | a grouped sum is each member's naive sum, zero when absent |
| PayoutAuthority.CutoverIsLatest | apps/api/src/lib/payout-authority.ts:142-146 | a member's cutover is the latest instant of a non-void carryover, none iff there is none |
| PayoutAuthority.CutoverByUser | apps/api/src/lib/payout-authority.ts:134-146 | one instant for exactly the carried members in scope |
| PayoutAuthority.UsersByCutover | apps/api/src/lib/payout-authority.ts:148-151 | every member is grouped under their own instant and no other |
| PayoutAuthority.GetPreCutoverReservations | apps/api/src/lib/payout-authority.ts:127-177 | grouping by cutover instant equals the direct per-member definition, for every scope and exclusion list |
| PayoutAuthority.GetAuthoritativeBalances | apps/api/src/lib/payout-authority.ts:218-316 | the batched figures equal the naive ones for every member, scope and exclusion list, absent members included |
| PayoutAuthority.BalanceCounts | apps/api/src/lib/payout-authority.ts:233-316 | earnings are the member's ledger; held are every assignment and every redemption not left out that is not rejected |
| PayoutAuthority.LegacyCounts | apps/api/src/lib/payout-authority.ts:127-177 | the legacy figures are what pending and what confirmed carryovers hold, and of the redemptions held those raised no later than some carryover |
| PayoutAuthority.RoundHalfUp | apps/api/src/lib/payout-authority.ts:447-449 | the one whole number of hundredths nearest to the amount, of two equally near the one further from zero |
| PayoutAuthority.PreCutoverWithinReserved | apps/api/src/lib/payout-authority.ts:75-82 | pre-cutover points never exceed redemption reservations |
| PayoutAuthority.UnreconciledClaimsAreCounted | apps/api/src/lib/payout-authority.ts:188-201 | each reserving, non-excluded unreconciled claim accounts for exactly its points of the pre-cutover figure |
| PayoutAuthority.ExcludingFreesItsPoints | apps/api/src/lib/payout-authority.ts:221-229 | leaving a redemption out frees exactly what it reserved |
| PayoutAuthority.Valued | apps/api/src/lib/payout-authority.ts:410-461 | a request is accepted iff positive, at least the minimum, and with the member's other reservations within what they earned; then it is payable at the rate in force, to the nearest hundredth, else worth nothing |
| PayoutAuthority.ValuePayout | apps/api/src/lib/payout-authority.ts:319-461 | the valuation on batched balances is the one on naive sums |
| PayoutAuthority.ValueEligibleBeneficiaries | apps/api/src/lib/payout-authority.ts:386-400 | exactly the members in scope whose eligible points reach the minimum and are worth something, once each |
| PayoutAuthority.ValueLegacyCarryover | apps/api/src/lib/payout-authority.ts:476-497 | the whole balance converts; the credit is the exact product rounded down, never above the balance at a ratio up to one |
| PayoutExecution.RedemptionPaidIffCovered | apps/api/src/lib/payout-execution.ts:254-323 | a redemption is paid iff switch, reference, target, approval and legacy state allow it and all its owner's reservations fit what they earned |
| PayoutExecution.AssignmentPaidIff | apps/api/src/lib/payout-execution.ts:144-252 | an assignment is paid iff switch, both references and target allow it and it is an open row with provenance and a positive amount |
| PayoutExecution.WhyUnpaid | apps/api/src/lib/payout-execution.ts:89-323 | for either kind of row each refusal iff its cause |
| PayoutExecution.PayoutDesk.ExecutePayout | apps/api/src/lib/payout-execution.ts:89-142 | the serial meaning with every refusal; a refusal changes nothing; a success pays an assignment its stored amount, a redemption what its points are worth at the rate in force whatever its row says, and the row takes it |
| PayoutExecution.PayoutDesk.ExecuteAssignment | apps/api/src/lib/payout-execution.ts:144-252 | the assignment branch: provenance, positive amount, claim, both inserts |
| PayoutExecution.PayoutDesk.ExecuteRedemption | apps/api/src/lib/payout-execution.ts:254-348 | the redemption branch, valued by the batched authority with itself left out |
| PayoutExecution.PayoutDesk.Insert | apps/api/src/lib/payout-execution.ts:124-138 | a taken target or reference undoes the claim and reports which index it was |
| PayoutExecution.ExactlyOnce | apps/api/src/lib/payout-execution.ts:89-323 | under every interleaving, rollback and outside change, even of statuses, no target and no reference is executed twice |
| PayoutExecution.DatabaseIsItsExecutions | apps/api/src/lib/payout-execution.ts:89-323 | however attempts interleave and roll back, rows, details and executions together are what recording the new executions in order would have left |
| PayoutExecution.ExecutionsAreCommits | apps/api/src/lib/payout-execution.ts:89-323 | committed attempts and new executions correspond one to one; refused, switched-off and rolled-back attempts leave none |
| PayoutExecution.AloneIsSerial | apps/api/src/lib/payout-execution.ts:89-348 | an attempt driven with nobody else holding a row ends exactly as the serial executor |
| PayoutSolvency.CommitIsPayment | apps/api/src/lib/payout-execution.ts:186-216 | at its commit an attempt's row is still payable and untouched; the commit is the serial payment in that state iff the valuation read still stands, and an assignment's always does |
| PayoutSolvency.PaidIffExecutedOnce | apps/api/src/lib/payout-execution.ts:186-323 | whatever statuses are written by others, a row is paid iff exactly one execution names it, with its owner and points, and no write has landed on it since it was paid |
| PayoutSolvency.PaidOutIsExecuted | apps/api/src/lib/payout-execution.ts:203-323 | what was paid to a member is what their executed rows are worth, whatever those rows say now |
| PayoutSolvency.PricingSolvent | apps/api/src/lib/payout-execution.ts:280-290 | pricing one more redemption keeps what was executed, priced and still open within earnings, unless an executed row stands rejected |
| PayoutSolvency.NeverOverpaid | apps/api/src/lib/payout-execution.ts:254-323 | a member within their earnings at the start is never paid more, however attempts interleave, redemptions race and routes write over one another, as long as stored assignments, reopened rows, and redemptions priced after an executed row was rejected are covered |
| PayoutSolvency.CleanStart | apps/api/src/lib/payout-execution.ts:89-142 | any store without paid rows whose open assignments are covered may start such a run |
| PayoutAmounts.PaymentsAreAuthoritative | apps/api/src/lib/payout-execution.ts:144-323 | under every interleaving each new payment was committed by an attempt let in with the switch on and a fresh reference, to an open row of its payee, for its points, and the row took its amount: an assignment's own, a redemption's worth, covered and at the rate in force in the state that priced it |
| PayoutOverdraft.FundedIsGuarded | apps/api/src/lib/payout-authority.ts:386-461 | both valuation functions, on the state a reservation is stored in, keep reservations within earnings |
| PayoutOverdraft.OverdrawnIsLegacy | apps/api/src/lib/payout-authority.ts:188-231 | while reservations are stored or reopened within earnings, they exceed them only if each is a pre-cutover redemption; they then equal the pre-cutover figure and none is payable |
| PayoutOverdraft.GuardedRunsNeverOverpay | apps/api/src/lib/payout-authority.ts:386-461 | while reservations are made within earnings and no executed row is rejected, nothing else needs to be covered and nobody is overpaid |
| PayoutRoutes.PaidIffNoLateWrite | apps/api/src/routes/pre-election.ts:2368-2404 | for the routes as they read and write: a row is paid iff exactly one execution names it and no decision taken on what it was before has landed on it since |
| PayoutRoutes.FreshPlaysNeverOverpay | apps/api/src/routes/pre-election.ts:2127-2404 | while no route writes late, every executed row stays paid and only stored assignments need to be covered |
| PayoutRoutes.SettleOne | apps/api/src/routes/pre-election.ts:2234-2246 | an open, priced row can be approved and paid by routes and executor as they are |
| PayoutRoutes.ReviewedAtOnce | apps/api/src/routes/admin.ts:5252-5400 | a review written on the state it read approves or rejects exactly a pending redemption and nothing else |
| PayoutRoutes.ChangedAtOnce | apps/api/src/routes/pre-election.ts:2295-2404 | a status change written on the state it read holds or rejects a row neither paid nor rejected, or starts processing an approved one, and nothing else |
| PayoutRoutes.ApprovedAtOnce | apps/api/src/routes/pre-election.ts:2228-2246 | batch approval approves exactly pending and eligible rows |
| PayoutRaces.SameCycleRaceIsSafe | apps/api/src/routes/pre-election.ts:2127-2147 | any number of batches of one cycle, valued on one state and stored in any order, keep the member within earnings and store at most one of their rows |
| PayoutRaces.OneRowPerCycle | packages/database/prisma/schema.prisma:1257 | of all rows offered to one cycle exactly the member's first is stored, and none if the cycle held one |
| PayoutRaces.OverpaidIffInsolvent | apps/api/src/lib/payout-execution.ts:144-252 | with no attempt under way, whatever requests are open, some run of routes and executor pays more than was earned iff executed and open rows exceed earnings already; held rows do not count |
| PayoutRaces.CommittingOverpaysIff | apps/api/src/routes/pre-election.ts:2127-2404 | a batch row however old its valuation, or a late write that reopens a held or rejected row, opens the way to overpayment iff it is not covered |
| PayoutRaces.RedeemingOverpaysIff | apps/api/src/lib/payout-execution.ts:254-323 | a redemption the executor accepts does so iff it is not covered, which takes an executed row of its owner that was rejected late |
| PayoutRaces.StaleBatchesOverpay | apps/api/src/routes/pre-election.ts:2127-2147 | batches of two cycles valued on one state pay a hundred points twice |
| PayoutRaces.LateRejectionOverpays | apps/api/src/routes/pre-election.ts:2368-2404 | a rejection read before and written after the payment leaves the row executed and unpaid; a batch valued on that state pays its points again |
| Rewards.DirectRule | apps/api/src/lib/pre-election-rewards.ts:42-64 | the rule found is in force and none in force is newer |
| Rewards.MilestoneRows | apps/api/src/lib/pre-election-rewards.ts:174-196 | the rows are exactly the reached versions, in ascending threshold and then newest first |
| Rewards.FirstsAreNewest | apps/api/src/lib/pre-election-rewards.ts:198-210 | the first row of each threshold is its newest, and thresholds rise |
| Rewards.MilestoneSourceIsInjective | apps/api/src/lib/pre-election-rewards.ts:213 | the key string determines the member and the threshold |
| Rewards.RewardDesk.ProcessVerifiedReferral | apps/api/src/lib/pre-election-rewards.ts:9-134 | the step-by-step updates and the outcome equal the specification, which the RewardsDue rows say without it |
| Rewards.RewardDesk.ProcessMilestoneBonuses | apps/api/src/lib/pre-election-rewards.ts:149-275 | the loops award the first version of each threshold and list what was newly paid; which those are is RewardsDue.BonusPaidIffReached |
| Rewards.RewardDesk.RecordParticipation | apps/api/src/lib/participation.ts:24-102 | an event already recorded changes nothing; a new one is stored and credits its member its points once, a worthless one nothing |
| Rewards.OneEntryPerEvent | apps/api/src/lib/pre-election-rewards.ts:93-113 | one VERIFIED_REFERRAL entry a referral and one BONUS a member and threshold |
| Rewards.RewardsOnce | apps/api/src/lib/pre-election-rewards.ts:9-275 | over any runs with changing rules an event is processed iff credited, credited once, and entries never change |
| Rewards.EveryReachedMilestoneIsPaid | apps/api/src/lib/pre-election-rewards.ts:149-275 | one successful run leaves every reached threshold with a positive newest version paid, newly paid ones at that version's points |
| Rewards.OnlyDueEntriesAreAdded | apps/api/src/lib/pre-election-rewards.ts:93-275 | a run adds the direct entry and such bonuses and nothing else |
| RewardsDue.RewardedIff | apps/api/src/lib/pre-election-rewards.ts:27-134 | an open referral is rewarded iff the version that prevails for its referrer is worth something; then it is closed, its event processed and its referrer credited once |
| RewardsDue.UnrewardedCreditsNothing | apps/api/src/lib/pre-election-rewards.ts:27-91 | a referral unknown, refused or without an offer credits nothing; an open one is still marked qualified |
| RewardsDue.UnrewardedIsRecorded | apps/api/src/lib/pre-election-rewards.ts:65-91 | its event is recorded all the same, skipped if nothing was on offer, pending otherwise |
| RewardsDue.BonusPaidIffReached | apps/api/src/lib/pre-election-rewards.ts:149-275 | of milestones not paid before, a run pays the prevailing version in force with points iff its threshold is at most the number of the member's qualified or rewarded referrals |
| RewardsDue.AddedBonusIsOwed | apps/api/src/lib/pre-election-rewards.ts:93-275 | an entry a run adds is the referral's own or the bonus of a version in force, reached and not superseded, with its points |
| RewardsDue.BonusesReported | apps/api/src/lib/pre-election-rewards.ts:149-275 | the answer lists exactly the bonuses this run credited, with their points, thresholds rising |
| Rewards.ReprocessingIsIdempotent | apps/api/src/lib/pre-election-rewards.ts:9-275 | a second run under the same rules and clocks changes nothing |
| Rewards.EventNamesItsEntryIff | apps/api/src/lib/pre-election-rewards.ts:81-128 | after re-processing, event and entry name one version iff the rule found is the one that paid or, when none is found, they agreed before; the entry never changes |
| Rewards.EventRuleDrifts | apps/api/src/lib/pre-election-rewards.ts:81-128 | a reward paid under one version and re-processed under a newer one: the event names the newer, the entry the one that paid |
| Cutover.BuildSnapshot | packages/database/scripts/migrate-legacy-balances.ts:36-69 | one entry for each member with a legacy row, holding their points, reservation and row list |
| Cutover.EachRowCountsOnce | packages/database/scripts/migrate-legacy-balances.ts:36-60 | wherever it stands in the ledger a row counts once, for its owner alone, its identifier in its place |
| Cutover.SnapshotIsWhole | packages/database/scripts/migrate-legacy-balances.ts:36-69 | a snapshot is all of the member's own rows and what their redemptions not rejected hold |
| Cutover.CutoverDesk.Migrate | packages/database/scripts/migrate-legacy-balances.ts:71-150 | writes exactly the members not carried before, once each and whole; the batch total is their legacy points and what is read back balances; a dry run writes nothing |
| Cutover.CarriedOnce | packages/database/scripts/migrate-legacy-balances.ts:71-150 | over any number of serial runs each member is carried once, nothing is lost or altered, and each balance is that member's rows |
| Cutover.MigrationConserves | packages/database/scripts/migrate-legacy-balances.ts:71-150 | carried points equal the legacy rows of the members carried; the first run carries them all |
| CutoverRaces.RacesCarryOnce | packages/database/scripts/migrate-legacy-balances.ts:71-135 | however runs race one another and the ledger: nothing carried is lost, each member is carried once with exactly what the run named read of them, and a finished run leaves nobody it read uncarried |
| CutoverRaces.ReadBackBalances | packages/database/scripts/migrate-legacy-balances.ts:137-150 | the check after the commit never fires, whoever else has committed before it reads |
| CutoverRaces.CommitsIffNobodyCarriedSince | packages/database/scripts/migrate-legacy-balances.ts:71-135 | left to itself a planned run is the serial migration of what it read iff none of its members was carried since; otherwise it carries nobody |
| Cutover.CarryingCreditsNothing | packages/database/scripts/migrate-legacy-balances.ts:5-22 | a carryover changes no spendable figure and turns its owner's earlier redemptions into unreconciled claims |
| Cutover.ConversionBound | apps/api/src/lib/payout-authority.ts:490-496 | converting n balances at a ratio credits at most the ratio of their sum, short by less than n |
| Cutover.SplittingBound | apps/api/src/lib/payout-authority.ts:447-449 | paying in k parts moves the two-decimal total by at most (k + 1) / 200 |
| Worker.JobTable.EnqueueBackgroundJob | apps/api/src/lib/background-jobs.ts:23-51 | scheduled iff the key is new; then one pending row with the limit asked for, or five, is appended; a taken key changes nothing |
| Worker.JobTable.RunBackgroundJob | apps/worker/src/index.ts:40-111 | claimed iff pending or failed; then the row is completed iff work of a known kind succeeded, dead iff its last attempt is spent, else failed and put off; others change only by the sweep that is a sweep job's work |
| Worker.JobTable.SweepStuckJobs | apps/worker/src/index.ts:119-130 | exactly the rows processing since before the cutoff return to pending, attempts kept, and are counted |
| Worker.Backoff | apps/worker/src/index.ts:88-98 | one, two, four, eight, sixteen, thirty-two seconds, then a minute |
| WorkerPoll.SweepPendingJobs | apps/worker/src/index.ts:139-174 | a poll queues exactly the jobs with a queue that are pending or failed, due and within the limit with fewer than 200 such jobs before them, in order, and returns how many it found |
| WorkerStarvation.StarvesIff | apps/worker/src/index.ts:139-174 | a due job with a queue that no poll has offered yet is never offered, in any continuation, iff 200 due jobs without a queue are ahead of it |
| WorkerStarvation.FloodStarves | apps/worker/src/index.ts:139-174 | from the empty table: two hundred jobs of an unknown name, then one that is never offered |
| Worker.JobTable.EnsureRecurringMaintenance | apps/worker/src/index.ts:176-193 | each of the two jobs of the bucket gains a row iff its key is free and its create does not fail |
| Worker.RecurringOnce | apps/worker/src/index.ts:176-193 | a second replica in the same bucket adds nothing |
| Worker.EveryRunKeeps | apps/worker/src/index.ts:40-130 | under duplicate deliveries, crashes and sweeps of the dead: one live runner a job, attempts equal claims, failed rows have attempts left, finished rows are never left |
| Worker.ClaimsAreBounded | apps/worker/src/index.ts:74-98 | a job is claimed at most its limit plus its crashes times, strictly fewer while it can be claimed again |
| Worker.StrandingIff | apps/worker/src/index.ts:139-148 | a run can leave a claimable job the sweep never offers again iff its limit plus its crashes exceed the worker's limit |
| Custody.NamesApart | apps/api/src/lib/voter-document-storage.ts:90-98 | pending and committed keys lie in their namespaces, and different documents never share a key |
| Custody.SafeName | apps/api/src/lib/voter-document-storage.ts:90-91 | the last eighty characters, each unsafe one an underscore |
| Custody.ObjectStore.PutObjectIfAbsent | packages/object-storage/src/evidence-storage.ts:224-255 | an existing object is never overwritten; on a free key each fault has its effect and nothing else changes; success returns the bytes sent |
| Custody.ObjectStore.CopyObjectUnchecked | packages/object-storage/src/evidence-storage.ts:352-365 | a read and a put of what was read: fails without a source or onto an existing object, and is as blind to other bytes as the put |
| Custody.ObjectStore.DiscardPendingObject | packages/object-storage/src/evidence-storage.ts:477-482 | refuses every key outside the pending namespace; removes that key alone unless it fails before its effect |
| Custody.ObjectStore.PromotePendingObject | packages/object-storage/src/evidence-storage.ts:491-510 | refuses the wrong namespaces; copies before it deletes: where copy and removal leave the two objects under each fault, and nothing else is touched |
| Custody.Registry.StoreVoterDocument | apps/api/src/lib/voter-document-storage.ts:138-196 | held iff the key was free and the store reported success, whatever bytes it kept |
| Custody.Registry.WithVoterDocumentCustody | apps/api/src/lib/voter-document-storage.ts:251-316 | the row iff the transaction committed; told of a commit it promotes, else it discards, and reports which succeeded under each fault |
| Custody.CustodyHolds | apps/api/src/lib/voter-document-storage.ts:138-316 | over any interleaving with failing or corrupting operations and truthful reports every submission's bytes and row are where its phase says, and are the bytes its put and copy left |
| Custody.CommittedBytesArePresent | apps/api/src/lib/voter-document-storage.ts:198-216 | a committed row's object is at the pending or the committed key, and there it carries the recorded hash iff neither the put nor the copy behind it left bytes of another hash |
| Custody.UndamagedRowsCarry | apps/api/src/lib/voter-document-storage.ts:198-216 | over any run whose operations fail but never alter bytes, a committed row's bytes are there under its hash |
| Custody.DamageIsAccepted | apps/api/src/lib/voter-document-storage.ts:160-182 | any document and any bytes of another hash: the submission is promoted with every step reporting success and its row names a hash the object does not have |
| Custody.UncommittedLeavesNothing | apps/api/src/lib/voter-document-storage.ts:218-316 | a finished submission without a row leaves nothing, or its cleanup failure is reported, or its refused put had stored something |
| Custody.RefusedPutLeaksIff | apps/api/src/lib/voter-document-storage.ts:160-182 | a put is held iff it reports success, so the hash comparison refuses nothing; it is refused and leaves bytes iff it failed after its effect |
| Custody.CommittedObjectsStay | packages/object-storage/src/evidence-storage.ts:469-510 | no object outside the pending namespace is ever deleted or overwritten, truthful reports or not |
| Custody.CustodyFollowsTheReport | apps/api/src/lib/voter-document-storage.ts:241-294 | the row follows the transaction and the object follows the report, so they agree iff the report is true; the object carries the hash iff the put left it |
| Custody.EndingIsTheMoves | apps/api/src/lib/voter-document-storage.ts:251-294 | the wrapper's ending is the interleaved submission's own moves made without interruption |
| Custody.OwnRowsAreServable | apps/api/src/lib/voter-document-storage.ts:338-363 | a row this path writes is servable iff a bucket and a receipt time are recorded, and the description names what is missing |
| Custody.ServeDocument | apps/api/src/routes/pre-election.ts:1102-1176 | each answer and each reason iff its cause, written out; the bytes shown are those stored and their hash the recorded one |
| Custody.ShownIffCopiedUndamaged | apps/api/src/routes/pre-election.ts:1102-1150 | in any reachable state a servable row is shown iff its document was copied and neither put nor copy left bytes of another hash |

## Left out

- HTTP routing, schema validation, sessions, rate limits, notifications, audit rows, serializers and all user interfaces.
- PayoutRoutes.ReviewedAtOnce: the amount an approval stores beside the status, which the executor never reads; a late approval would rewrite it on a paid row too.
- Routes that create or change reservations: who may act, batches as rows of their own, and the balance check inside a redemption's approval, which only narrows what that route writes.
- PayoutSolvency.NeverOverpaid: needs what newly commits the member to be covered; the batch route values and stores in one READ COMMITTED transaction and the status routes write by identifier, which does not give that. The exact conditions are in PayoutRaces.
- PayoutOverdraft.OverdrawnIsLegacy: needs each reservation, stored or reopened, to fit what the member earned in that state, and a cutover never to be undone.
- PayoutRaces.OverpaidIffInsolvent: stated with no attempt under way and with open rows that carry a priced, positive amount; with attempts under way PayoutSolvency.NeverOverpaid is the one half.
- PayoutSolvency.CommitIsPayment: a redemption's valuation is read before its claim, so its commit is the serial payment only while that valuation stands.
- The six balance queries of one valuation read one committed state; the row read, the legacy check and the valuation of a redemption are separate steps.
- Deadlocks between a row lock and a unique index end in a rollback, which the machine allows anywhere.
- The redemption's stored amount is kept in hundredths; the source stores a floating-point number that nothing later pays from. A fractional point request is truncated by the source and is an integer here.
- Ledger points and redemption requests are natural numbers.
- IdentityRelease.ValidateIdentityRelease: which failures a refused release lists, beyond there being some.
- Manifest and file checksums, reading of files, byte-order marks, and message texts: the validator works on typed rows and its failures are values. Keys the source joins into strings are tuples; trimming and upper-casing of names is a function parameter.
- Territory.ResolveOperationalTerritory: empty-string identifiers are read as absent.
- IdentityRelease.ImportedUnitResolvesIff: that a polling unit's LGA agrees with its ward's is not checked by the release and not claimed; ImportedRegistration.RegistersAtImportedUnitIff says what that costs.
- IdentityRelease.ApplyIdentityRelease: the names, codes, aliases and import stamps it also writes, and with them the unique index on a ward's LGA and name, which compares names as they are spelt.
- Geodata releases, source archives and LGA name tables beyond what inferred rows use.
- The breadcrumb, strength scores, leaderboards and the 200-row display cut of the dashboard.
- Rewards.RewardsOnce: runs are serial, a referral keeps its referrer, and of equally new rule versions the first listed wins.
- Worker.EveryRunKeeps: a sweep reaches only runners that died; a live runner that outlasts the stale threshold writes its outcome unconditionally.
- WorkerPoll.SweepPendingJobs: of equally available jobs the first in the table comes first, where the source leaves the order open; queue internals, so nothing is said about a job being delivered at all. In WorkerStarvation queues deliver only what some poll has offered, however much earlier.
- CutoverRaces.RacesCarryOnce: row checksums and the stored batch figures that repeat the totals.
- Custody.CustodyHolds: a process crash between two operations, expiry of the pending namespace, bytes that change while stored, magic numbers, base64 and signed links; SHA-256 is an arbitrary function of the bytes.
- Incident governance, party tallies, agents, reference-level reports and legacy scope helpers: single-branch code without invariants across functions.
