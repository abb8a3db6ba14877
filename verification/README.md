# Spivot Server: a verified model of its state, its sessions and its generators

Spivot Server keeps garages, journey vehicles, driver attestations, invites and enrolled
client apps in SQLite, hands out session macaroons, and generates its OpenAPI schemas from
Go types. This project models the parts of that behaviour that are hard to see from any
single function and proves what holds of them in every run.

Each `Store` method is a transaction over tables-as-maps that commits all of its writes or
none. Where the source updates state step by step, the model is a class whose methods do
the same writes in the same order and are proved equal to a pure function of the old state;
the theorems are then about that function, over all sequences of steps. Where a claim spans
several store calls, the calls are separate steps that interleave with everybody else's.

| File | What it holds |
|---|---|
| `Prelude.dfy` | options, identifiers, instants |
| `GarageTables.dfy`, `GarageStore.dfy` | garage ownership: transactions as functions, and as the store's statements |
| `GarageRuns.dfy`, `GarageReplay.dfy`, `GarageAcceptance.dfy`, `GarageRedemption.dfy` | invariants of every run; owner table = replay of the log; acceptance; invite accounting |
| `GarageOvertaking.dfy` | acceptances and redemptions whose writes run apart from their checks |
| `RevisionChains.dfy` | the four head-pointer chains under interleaving with stale reads |
| `ChainRefinement.dfy` | the appends of garages and journey vehicles are commits of those chains |
| `JourneyVehicles.dfy`, `OwnerDeparture.dfy` | ACL-at-time, commuting appends; the owner-departure freeze, with handlers whole and split |
| `Attestations.dfy`, `Gossip.dfy` | the record handler as concurrent processes; convergence; current driver |
| `SqliteTime.dfy` | the fixed-width timestamps: calendar, rendering, parsing, order |
| `Invites.dfy`, `Enrollment.dfy` | single-use invites, the per-user cap, four-table enrollment |
| `Serial.dfy`, `ClientCert.dfy` | certificate serials as lookup keys; the proxy's certificate header |
| `Sessions.dfy` | macaroon caveats from issue to route guard |
| `OrderedMaps.dfy`, `TypeGraph.dfy`, `SchemaRecursion.dfy`, `SchemaSpec.dfy`, `Schema.dfy` | ordered objects, package walk, when the schema recursion ends, what it computes |
| `SchemaFields.dfy`, `SchemaMeaning.dfy`, `SchemaShapes.dfy`, `SchemaTruth.dfy`, `SchemaAnnotations.dfy` | the serialized fields of a struct; which JSON values meet a schema and which a type admits; that these are the same; formats, descriptions and tags |
| `GoEncoding.dfy` | Go values, what encoding/json writes for them, and exactly which of them meet their schema |

`dafny verify dfyconfig.toml` checks everything.

## What turned out not to hold, and what does

- The stored trust flag of an attestation need not be the classification of any state
  between the submission's start and its insert: `classify` reads the ACL and the participant
  in two store calls. `TwoReadsCanMissEveryState` gives such a run for every starting world
  of a family; `StoredTrustIsAClassification` says exactly when one of the two reads' states
  gives the flag, `SomeStateGivesTheFlagExactlyWhen` exactly when any state on the way does,
  and `TrustIsLinearizable` that it is enough that between the two reads the driver's
  membership does not change or no ACL of the vehicle commits.
- "Already accepted" does not imply that `GarageOwnershipAcceptanceByKey` finds a record, as
  its comment says (garage.go:399-402): `CreatorHasNoRecord`. A record exists exactly when an
  acceptance with that key committed: `RecordsAreTheLoggedAcceptances`.
- The pool of one connection (store.go:42) is what keeps the check and the writes of a
  redemption, and of an acceptance, together. Once they may come apart, an accepted_time can be
  overwritten in two ways, by a redemption that the user's acceptance overtook and by an
  acceptance that the user's redemption overtook, and in no other:
  `AcceptedTimeIsRewrittenExactlyWhen`, with the runs `OvertakenRedemptionRewritesAcceptedTime`
  and `OvertakenAcceptanceRewritesAcceptedTime`. The uniqueness fallback of the acceptance is
  then reached exactly when the same acceptance committed in between
  (`FallbackIsReachedExactlyWhen`), and an acceptance lands on the invitation it names exactly
  when the user was not removed in between (`BindingSurvivesExactlyWhen`); otherwise it can
  accept a later invitation (`StaleAcceptanceAcceptsALaterInvitation`).
- The owner-departure freeze holds with each append handler as one step
  (`OwnerDepartureFreezes`). The handler authorizes and appends in two store calls, so an append
  authorized before the owner left still goes through (`InFlightAppendOutlivesDeparture`), and
  nothing else does: `OnlyEarlierAuthorizedAppendsChange`.
- `Verified.Expiration` is the earliest time caveat, not the latest (verifier.go:103), and it
  is so exactly when that earliest one is not Go's zero instant:
  `ExpirationIsTheMinimumExactlyWhen`. All `action=` caveats must match, not at least one
  (verifier.go:77-82): `ConflictIsUnsatisfiable`.
- Appending a caveat can turn a rejection into an acceptance for one kind of macaroon, one
  without a usable time caveat (`AppendingCanHelpUntimed`), and for no other:
  `AppendingOnlyRestricts`. No issued session is of that kind: `IssuedSessionsOnlyShrink`.
- Caveat order can matter, exactly when all caveats hold and the earliest time caveat is Go's
  zero instant while a later one is there too: `CaveatOrderMattersExactlyWhen`.
- The convenience fields of a session follow the documented singleton rule exactly when the
  kind does not occur three, five, ... times: `SingletonRuleHoldsExactlyWhen`.
- The schema recursion does not end just because every type cycle runs through a named
  struct: `PromotedBackNeverEnds`. Every visit ends exactly when no cycle avoids entering a
  named struct as a value: `EndsExactlyWhenAcyclic`.
- "Reflection gives the truthful serialized shape" (schema.go:17-23) fails for some values. A
  schema is met by exactly the values its type admits (`SchemaMeans`), but encoding/json also
  writes others: null for a nil slice or map (`NilSlicesFail`, `NilListExample`), a list of
  numbers for an array of bytes (`ByteArraysFail`), an object without the mandatory fields behind
  a nil embedded pointer (`NilEmbeddingsFail`), any value behind two pointers, where the schema's
  nested type list leaves only null (`TwoPointersFail`), and a value outside its declared enum.
  `EncodingMeetsSchemaExactlyWhen` says exactly which values are written as their schema says;
  a nil pointer always is (`NilPointersMeet`).
- A transaction that loses a race to one with the same version is told of a conflict on the
  journey vehicle chains. On the two garage chains it is told only that the write failed, although
  a conflict is documented for every version not above the head (garage.go:182-187,
  garage_vehicle.go:160-166): `StaleReadLosesExactlyWhenOvertaken` says which loser is told what.
- A proxy header with two serial fields yields a serial that depends on map iteration order,
  unless the fields agree: `SerialIsDeterminedExactlyWhen`, `DisagreeingSerialsDependOnOrder`.
- Before the latest issuance, looking back, the per-user invite cap can be exceeded:
  `CapFailsLookingBack`. At every instant t the invites issued by t and open at t are within
  the cap, and the count at t exceeds the cap exactly when the open invites issued after t are
  more than the cap leaves room for: `CapHoldsAtEveryInstant`.

## Assumptions

`Validate`, `CanonicalEncoding` and the caveat printers and parser belong to opencaravan-go;
their verdicts are fields of the modelled payloads, and printing followed by parsing a caveat
is taken to be the identity. Signatures and HMACs are verdicts too. A token stands for its
hash, and a garage invite for its id. Foreign keys to accounts, the primary keys and the
unique indexes are modelled as refusals of the write. Instants count nanoseconds from year 0
and stay within the years 0 to 9999 that the text layout holds; `SqliteTime` justifies using
them for the TEXT columns elsewhere, and `Invites` keeps the texts themselves.

## Model

| member | source | states |
|---|---|---|
| `GarageRuns.RunKeepsInv` | internal/platform/storage/garage.go:114-283 | in every run, writes apart from their checks included: head = highest stored version with that row's columns; every owner row's added_in_revision_version is a stored revision and every later stored revision names the user, and so does that revision for a pending row; redemption_count = redemption rows <= limit |
| `GarageRuns.RunKeepsBinding` | internal/platform/storage/garage.go:326-378 | in every run whose acceptances were checked at some time before their writes, a pending row never coexists with an acceptance record of its invitation |
| `GarageRuns.FreshAppendNeverConflicts` | internal/platform/storage/garage.go:224-263 | in every reachable state a version conflict is reported exactly when the version is at or below the head; a version above the head is unused, so the conditional UPDATE cannot fail after a fresh read |
| `GarageRuns.AppendExactlyWhen` | internal/platform/storage/garage.go:198-267 | in every reachable state a fresh append commits exactly when the payload is sound, the garage exists, the version is above the head, the signer has an account, and whoever it adds has one and is added once; invalid and not found have exactly their own conditions |
| `GarageRuns.CreateExactlyWhen` | internal/platform/storage/garage.go:114-167 | a garage is created exactly by a sound version 1 under a new id, for a signer and owners with accounts, each named once |
| `GarageReplay.OwnersAreTheReplay` | internal/platform/storage/garage.go:635-698 | in every reachable state each user's owner row equals the fold of the create/append/accept/redeem log for that user |
| `GarageReplay.OwnersAreHeadOwnersAndJoiners` | internal/platform/storage/garage_invite.go:327-348 | the owners of a garage are exactly the users its head revision names plus those who redeemed an invite since it committed |
| `GarageReplay.RowMeansNamedOrJoined` | internal/platform/storage/garage.go:664-696 | the replayed row exists exactly when the last revision names the user or the user joined since |
| `GarageReplay.RevisionDecidesTheRow` | internal/platform/storage/garage.go:635-698 | what one committed revision does to every user's row, read off its list: an unlisted user loses the row, a new one gets the entry's time and acceptance with this version, a known one keeps time and version and, if pending, takes the acceptance of the last entry that accepts; beside the rows only head and history change |
| `GarageReplay.CreationDecidesTheRow` | internal/platform/storage/garage.go:163-167 | creation gives each listed user the row of the entry and nobody else a row |
| `GarageAcceptance.AcceptanceReplay` | internal/platform/storage/garage.go:326-378 | after an acceptance, in any continuation, replaying it changes nothing, reports AlreadyAccepted exactly while the user was never removed and NotPending ever after, and the stored record stays the original |
| `GarageAcceptance.AcceptExactlyWhenPending` | internal/platform/storage/garage.go:300-378 | after every such run an acceptance checked and written in one commits exactly when it is sound and the user's row is pending at the named revision; it is invalid, not pending or already accepted exactly in the three other cases, so its uniqueness fallback is unreachable |
| `GarageAcceptance.RecordsAreTheLoggedAcceptances` | internal/platform/storage/garage.go:403-439 | the lookup by key finds a record exactly when an acceptance with that key committed |
| `GarageAcceptance.CreatorHasNoRecord` | internal/platform/storage/garage.go:399-439 | a reachable state where AlreadyAccepted is reported and the lookup by key finds nothing |
| `GarageAcceptance.AcceptedTimeIsStable` | internal/platform/storage/garage.go:664-696 | in serial runs a set accepted_time never changes or clears while the owner row survives |
| `GarageTables.RedeemIsChecksThenWrites` | internal/platform/storage/garage_invite.go:227-348 | a redemption is its checks followed by its writes, and a failed check changes nothing |
| `GarageTables.AcceptIsChecksThenWrites` | internal/platform/storage/garage.go:326-378 | an acceptance is its check followed by its writes, and a failed check changes nothing |
| `GarageOvertaking.AcceptedTimeIsRewrittenExactlyWhen` | internal/platform/storage/garage.go:326-378 | in every run whose acceptance and redemption writes each follow passed checks, a step rewrites a set accepted_time, to the time it carries, exactly when it is such writes for the user, the user was accepted between the checks and the writes, and the acceptance key or invite is still free for the user; every other step keeps the row |
| `GarageOvertaking.AcceptedTimeStandsUnlessOvertaken` | internal/platform/storage/garage_invite.go:262-348 | over any stretch of such a run without an overtaken step for the user the owner row stands |
| `GarageOvertaking.OvertakenRedemptionRewritesAcceptedTime` | internal/platform/storage/garage_invite.go:262-348 | a run in which the redemption's check passes while the user is pending, the user accepts by signature at 5, and the redemption's writes move accepted_time to 7 |
| `GarageOvertaking.OvertakenAcceptanceRewritesAcceptedTime` | internal/platform/storage/garage.go:326-378 | a run in which the acceptance's check passes while the user is pending, the user's redemption commits at 7, and the acceptance's writes move accepted_time to 5 |
| `GarageOvertaking.FallbackIsReachedExactlyWhen` | internal/platform/storage/garage.go:349-369 | acceptance writes whose check passed earlier are refused by the unique key exactly when an acceptance with that key committed since, and otherwise commit |
| `GarageOvertaking.SecondSubmissionReachesTheFallback` | internal/platform/storage/garage.go:349-369 | a run that reaches the fallback and leaves the first record |
| `GarageOvertaking.BindingSurvivesExactlyWhen` | internal/platform/storage/garage.go:326-378 | acceptance writes find the invitation they name exactly when the user was not removed since the check; otherwise no row or one of a later revision |
| `GarageOvertaking.StaleAcceptanceAcceptsALaterInvitation` | internal/platform/storage/garage.go:371-378 | a run in which an acceptance of revision 1 accepts the invitation of revision 3 |
| `GarageAcceptance.EveryGarageHasAnAcceptedOwner` | internal/server/api/garages.go:124-127 | if Validate makes the signer a listed accepted owner, every reachable garage has an accepted owner |
| `GarageRedemption.RedemptionAccounting` | internal/platform/storage/garage_invite.go:283-325 | redemption_count equals the committed redemptions and the redemption rows and never exceeds max_redemptions, stale checks included |
| `GarageRedemption.OneRedemptionPerUser` | internal/platform/storage/garage_invite.go:287-301 | no user redeems one invite twice in any run, even after removal from the garage |
| `GarageRedemption.RedeemExactlyWhen` | internal/platform/storage/garage_invite.go:227-348 | in every reachable state a redemption succeeds exactly when the invite is open, unexpired, below its limit, new to the user, and the user is enrolled and not an accepted owner |
| `GarageRedemption.RedeemReasons` | internal/platform/storage/garage_invite.go:227-281 | in every reachable state each refusal of a redemption has exactly its own condition, in the order of the checks |
| `GarageRedemption.RedemptionEffect` | internal/platform/storage/garage_invite.go:283-348 | a redemption adds one redemption row with its time, counts one more, makes the user an accepted owner, and changes nothing else |
| `GarageRedemption.IssuingOpens` | internal/platform/storage/garage_invite.go:77-130 | an invite is issued exactly for sound parameters, a known garage and an enrolled creator, and is then open, unredeemed, with the limit asked for, until its lifetime is over |
| `GarageRedemption.FreshInviteIsRedeemable` | internal/platform/storage/garage_invite.go:227-281 | a freshly issued invite can be redeemed by every enrolled user who is not an accepted owner until it expires |
| `GarageRedemption.RevokingRevokes` | internal/platform/storage/garage_invite.go:168-201 | revoking an invite of the garage answers Done, sets revoked_at to now unless it was set, keeps it otherwise, and changes no other column and no other table |
| `GarageRedemption.RevokedForGood` | internal/platform/storage/garage_invite.go:168-201 | after that, in every continuation, every redemption of the invite is refused as revoked |
| `GarageRedemption.ClosedInvitesStayClosed` | internal/platform/storage/garage_invite.go:237-281 | in serial runs nothing is redeemed on an invite that is revoked or past its expiry, and a revocation is never undone |
| `GarageRedemption.RejectedChangesNothing` | internal/platform/storage/garage_invite.go:237-325 | every rejected transaction leaves every table as it was |
| `GarageStore.Store.CreateGarage` | internal/platform/storage/garage.go:114-180 | the statement sequence with rollback yields exactly the tables and outcome of the transaction function |
| `GarageStore.InsertGarageOwnerTx` | internal/platform/storage/garage.go:604-622 | the insert succeeds exactly when the user is new and enrolled, and adds the entry's row with the given revision |
| `GarageStore.InsertOwners` | internal/platform/storage/garage.go:163-167 | the loop succeeds exactly when all inserts are admitted and then holds one row per listed user |
| `GarageStore.UpsertOwners` | internal/platform/storage/garage.go:664-685 | the first reconciliation loop promotes known users, never demotes, inserts new ones, and keeps exactly the listed users |
| `GarageStore.DeleteAbsent` | internal/platform/storage/garage.go:687-696 | the second loop drops exactly the existing users outside the keep set |
| `GarageStore.Store.ReconcileGarageOwnersTx` | internal/platform/storage/garage.go:635-698 | both loops together produce the reconciled owner table |
| `GarageStore.Store.AppendRevisionTx` | internal/platform/storage/garage.go:237-267 | insert, conditional head update, reconcile and rollback equal the append's write function from any state |
| `GarageStore.Store.AppendGarageRevision` | internal/platform/storage/garage.go:198-283 | the whole append, with its error cases, equals the transaction function |
| `GarageStore.Store.AcceptTx` | internal/platform/storage/garage.go:349-378 | acceptance row and owner row written, or refused by the unique key, equal the write function from any state |
| `GarageStore.Store.AcceptGarageOwnership` | internal/platform/storage/garage.go:300-378 | the acceptance, with its error cases, equals the transaction function |
| `GarageStore.Store.IssueGarageInvite` | internal/platform/storage/garage_invite.go:77-130 | issuing equals the transaction function |
| `GarageStore.Store.RevokeGarageInvite` | internal/platform/storage/garage_invite.go:168-201 | revoking equals the transaction function: an invite of the garage is revoked afterwards, at the time it was first revoked, and one of another garage is not found |
| `GarageStore.Store.RedeemTx` | internal/platform/storage/garage_invite.go:283-352 | redemption row, conditional increment, owner upsert and rollback equal the write function from any state |
| `GarageStore.Store.RedeemGarageInvite` | internal/platform/storage/garage_invite.go:227-352 | the redemption with its checks in order equals the transaction function |
| `RevisionChains.InterleavingsKeepInv` | internal/platform/storage/garage.go:224-263 | under any interleaving of SELECTs and commits, for all four chains: head = highest stored version showing that row column by column, committed versions rise strictly, stored rows and committed transactions correspond one to one, losers leave no row |
| `RevisionChains.HeadColumnsAreTheRows` | internal/platform/storage/garage_vehicle.go:226-241 | under any interleaving integrity, canonical payload, signer, avatar and banner of a garage vehicle's head are the same-named columns of the row of its version, and likewise for the columns of the other three chains |
| `RevisionChains.OtherGaragesCannotAppend` | internal/platform/storage/garage_vehicle.go:198-253 | a garage vehicle is not found by a request that names another garage, and no such request commits |
| `RevisionChains.HistoryIsAppendOnly` | internal/platform/storage/garage_vehicle.go:198-253 | from any state on, heads only rise, stored rows are never touched, and new rows lie above the old head |
| `RevisionChains.FreshReadNeverLoses` | internal/platform/storage/journey_vehicle.go:446-508 | with a fresh read the conditional UPDATE never fails: the append commits unless a reference is missing |
| `RevisionChains.StaleReadLosesExactlyWhenOvertaken` | internal/platform/storage/journey_vehicle.go:568-637 | with a stale read a transaction whose references exist commits exactly when the head is still below its version; otherwise it changes nothing and is told of a conflict, except for a version taken meanwhile on the two garage chains |
| `RevisionChains.InterleavedQueryFoldsTheLog` | internal/platform/storage/journey_vehicle.go:665-678 | under any interleaving with stale reads, the highest version in force at any instant is the last one committed whose time has come |
| `RevisionChains.CommittedRevisionTakesOver` | internal/platform/storage/journey_vehicle.go:446-508 | a commit, however stale its read, is the answer from its time on and changes no earlier answer |
| `ChainRefinement.AclCommitIsAppend` | internal/platform/storage/journey_vehicle.go:446-508 | the ACL chain's commit, however stale its read, is the ACL append run at that moment, in outcome and state |
| `ChainRefinement.AclAtAnswersOnTheChain` | internal/platform/storage/journey_vehicle.go:665-678 | the ACL-at-time query of a vehicle is the in-force query on its chain |
| `ChainRefinement.StaleAclTakesOver` | internal/platform/storage/journey_vehicle.go:446-508 | an ACL committed after a stale read takes over from its effective time on and changes no earlier answer of the vehicle |
| `ChainRefinement.BundleCommitIsAppend` | internal/platform/storage/journey_vehicle.go:568-637 | the metadata chain's commit is the metadata append run at that moment |
| `ChainRefinement.GarageCommitIsAppend` | internal/platform/storage/garage.go:237-267 | the garage chain's commit is the revision part of the garage append's writes, which succeed exactly when it does |
| `RevisionChains.ChainStore.CommitAppend` | internal/platform/storage/garage_vehicle.go:212-253 | insert, conditional update and rollback equal the commit function, and after a commit the head shows each column of the new row |
| `RevisionChains.ChainStore.AppendRevision` | internal/platform/storage/garage_vehicle.go:165-253 | payload check, head check and write part in order equal select-then-commit |
| `RevisionChains.ChainStore.CreateChain` | internal/platform/storage/garage_vehicle.go:83-150 | a well-formed version 1 with free id and existing references makes a chain with head and history at 1; anything else changes nothing |
| `JourneyVehicles.AppendsCommute` | internal/platform/storage/journey_vehicle.go:415-654 | a metadata append and an ACL append commute in state and outcome, also on one vehicle |
| `JourneyVehicles.Newest` | internal/platform/storage/journey_vehicle.go:665-678 | the highest version up to a bound whose effective time has come |
| `JourneyVehicles.AclAtIsTheHighestInForce` | internal/platform/storage/journey_vehicle.go:665-678 | the ACL-at-time answer is the highest stored version in force, and there is none exactly when none is in force |
| `JourneyVehicles.AppendedAclTakesOver` | internal/platform/storage/journey_vehicle.go:446-508 | a committed ACL is the answer for every t from its effective time on and changes no earlier answer, backdated or not |
| `JourneyVehicles.AclAtIsMonotone` | internal/platform/storage/journey_vehicle.go:665-678 | the answered version is monotone in the queried time |
| `JourneyVehicles.AclAtFoldsTheLog` | internal/platform/storage/journey_vehicle.go:415-508 | in every reachable world the query equals folding the committed ACL log |
| `JourneyVehicles.OwnerDepartureFreezes` | internal/server/api/journey_vehicles.go:634-689 | while the owner is not a joined participant no sequence of requests changes either chain, so the ACL at every instant is constant |
| `JourneyVehicles.OwnerRequestCommitsExactlyWhen` | internal/server/api/journey_vehicles.go:425-474 | an ACL request commits exactly when it is the joined owner's, verified, well formed, for this vehicle, and of a higher version |
| `JourneyVehicles.OwnerBundleCommitsExactlyWhen` | internal/server/api/journey_vehicles.go:516-600 | the same for the metadata chain |
| `JourneyVehicles.CreateCommitsExactlyWhen` | internal/server/api/journey_vehicles.go:167-320 | a vehicle is created exactly by its owner's verified first versions for one vehicle, under a new id, and only where the owner has none in the journey |
| `JourneyVehicles.OthersAreTurnedAway` | internal/server/api/journey_vehicles.go:634-689 | whoever is not the recorded owner or has left the journey is refused and changes nothing |
| `JourneyVehicles.RunsKeepVehicles` | internal/platform/storage/journey_vehicle.go:173-340 | in every run a journey has at most one vehicle per owner, each head shows its highest metadata version, and all stored versions are the owner's and verified |
| `OwnerDeparture.HandleIsAuthorizeThenWrite` | internal/server/api/journey_vehicles.go:425-474 | an append handler is its authorization followed by its append |
| `OwnerDeparture.OnlyEarlierAuthorizedAppendsChange` | internal/server/api/journey_vehicles.go:634-689 | with the two store calls apart, while the owner is away a step changes the vehicle only as an append authorized before the departure and at no moment since |
| `OwnerDeparture.SplitDepartureFreezes` | internal/server/api/journey_vehicles.go:634-689 | with no such append in flight both chains and the ACL at every instant stand still while the owner is away |
| `OwnerDeparture.InFlightAppendOutlivesDeparture` | internal/server/api/journey_vehicles.go:425-474 | an ACL authorized before its owner left takes over after the departure |
| `JourneyVehicles.VehicleStore.CreateJourneyVehicle` | internal/platform/storage/journey_vehicle.go:173-340 | creation, with duplicate id, duplicate owner and missing references told apart, equals the transaction function |
| `JourneyVehicles.VehicleStore.AppendJourneyVehicleACL` | internal/platform/storage/journey_vehicle.go:415-508 | the ACL append equals the transaction function |
| `JourneyVehicles.VehicleStore.AppendJourneyVehicleRevision` | internal/platform/storage/journey_vehicle.go:540-637 | the metadata append equals the transaction function |
| `Attestations.ExactlyOneCreated` | internal/server/api/driver_attestations.go:196-293 | among any concurrent submissions of one key, once a record exists exactly one was answered 201 and every 200 or 201 carries that record |
| `Attestations.StoredAreVerified` | internal/server/api/driver_attestations.go:226-233 | in every run each stored claim passed the signature check, and who was told otherwise had not |
| `Attestations.EveryCallMakesProgress` | internal/server/api/driver_attestations.go:196-293 | no submission waits for another: in every reachable state each of its calls brings it strictly closer to its answer |
| `Attestations.LateAnswersAreTheRecord` | internal/server/api/driver_attestations.go:196-293 | once the record exists, the only answer a submission of its key that finds its vehicle can get, in any continuation, is 200 with that record: before its lookup whatever its signature and the ACL by then, after it if it is verified |
| `Attestations.RecordsAreImmutable` | internal/platform/storage/driver_attestation.go:99-171 | a stored record, trust flag included, never changes in any continuation |
| `Attestations.ClassificationTable` | internal/server/api/driver_attestation_trust.go:57-102 | for the ACL version in force, that is the highest stored one whose time has come, the flag is authorized exactly for the owner and the listed drivers, emergency fallback exactly for a participant under the rule, a violation otherwise, and there is none exactly when no version is in force |
| `Attestations.WinnersFlagFollowsTheTable` | internal/server/api/driver_attestation_trust.go:57-102 | in every run of concurrent submissions and edits, the record behind a 201 carries the flag that table gives for the vehicle's owner, the ACL in force at the ACL read and the membership at the second read |
| `Attestations.SameClaimSameRecord` | internal/server/api/driver_attestations.go:205-293 | two submissions of one run are answered with one record exactly when vehicle, driver and effective time agree |
| `Attestations.StoredTrustIsAClassification` | internal/server/api/driver_attestation_trust.go:57-102 | the stored flag combines the ACL and the membership of two moments between start and insert; it is the classification at one of the two exactly when the first read settled it, or the membership was the same, or the ACL at the second still leaves it open or settles it the same way |
| `Attestations.SomeStateGivesTheFlagExactlyWhen` | internal/server/api/driver_attestation_trust.go:57-102 | the question for all states from start to insert, read by read; what must commit between the reads for none to give the flag is in the rows above and below |
| `Attestations.TrustIsLinearizable` | internal/server/api/driver_attestation_trust.go:57-102 | where between the two reads the driver's membership does not change or no ACL of the vehicle commits, the flag is the classification in one state between start and insert |
| `Attestations.TwoReadsCanMissEveryState` | internal/server/api/driver_attestation_trust.go:58-101 | a run of the handler, for every starting world of a family, whose stored flag is the classification of no state from its start to its end |
| `Gossip.TableIsWhatWasDelivered` | internal/server/api/driver_attestations.go:205-293 | a key is stored exactly when a storable attestation with it was delivered, with that payload and its flag |
| `Gossip.TrustTable` | internal/server/api/driver_attestation_trust.go:57-102 | a genuine claim is storable exactly when an ACL version is in force, and its flag is the one of the trust table |
| `Gossip.DeliveredFlagsFollowTheTable` | internal/server/api/driver_attestation_trust.go:57-102 | so is the flag of every record that any sequence of deliveries leaves behind |
| `Gossip.GossipConverges` | internal/server/api/driver_attestations.go:205-293 | delivering the same attestations in any order with any repetition gives the same payloads and flags |
| `Gossip.CurrentIsLastListed` | internal/platform/storage/driver_attestation.go:187-257 | the current driver is the last entry of the listing cut off at the queried time |
| `Gossip.CurrentDriverConverges` | internal/platform/storage/driver_attestation.go:187-202 | equal contents and distinct times give the same current driver at every time |
| `Gossip.PeersAgreeOnTheDriver` | internal/platform/storage/driver_attestation.go:187-257 | the two together: peers with the same deliveries name the same driver at every time, the last one listed |
| `Gossip.AttestationStore.RecordDriverAttestation` | internal/platform/storage/driver_attestation.go:99-171 | the insert reports a duplicate exactly when the replay key is taken, and then changes nothing |
| `Gossip.AttestationStore.HandleRecord` | internal/server/api/driver_attestations.go:149-293 | as one step the handler answers each of its seven statuses exactly under that status's own condition, stores exactly when it answers 201, and what it stores is the claim with the given id and time and the flag the trust table gives it |
| `Gossip.AttestationStore.CurrentDriver` | internal/platform/storage/driver_attestation.go:187-202 | the scan returns a row of the vehicle that is latest at or before the time, ties by receipt, or none exactly when there is none |
| `SqliteTime.TextOrderIsTimeOrder` | internal/platform/storage/invite.go:64-79 | for all instants of years 0 to 9999 byte order of the texts is chronological order |
| `SqliteTime.ParseUndoesRender` | internal/platform/storage/invite.go:72-79 | parsing a rendered instant gives it back to the nanosecond |
| `SqliteTime.RenderUndoesParse` | internal/platform/storage/invite.go:72-79 | a text that parses is the rendering of its value, so each instant has one text |
| `SqliteTime.DateOf` | internal/platform/storage/invite.go:77-79 | the civil date of a day number is valid and has that day number; which day numbers the dates have is in the next two rows |
| `SqliteTime.MonthTable` | internal/platform/storage/invite.go:77-79 | every date lies as many days after the first of January as the table 0, 31, 59, ..., 334 and the leap day say, and the months have 31, 28 or 29, 31, 30, ..., 31 days |
| `SqliteTime.UnixEpoch` | internal/platform/storage/invite.go:77-79 | 1 January 1970 is day 719528 |
| `SqliteTime.RenderedShape` | internal/platform/storage/invite.go:72-79 | a rendered instant has 30 characters, with the two hyphens, the T, the two colons, the point and the Z in their places and digits elsewhere |
| `SqliteTime.RenderSpelledOut` | internal/platform/storage/invite.go:72-79 | year, month, day, hour, minute, second and nanoseconds of an instant stand at their places in the text |
| `Invites.RedeemableOneWayOrAnother` | internal/platform/storage/invite.go:290-394 | for one table and instant, Active, lookup success, consumption success and being counted coincide, and a refused consumption gives the lookup's reason and changes nothing |
| `Invites.IssueExactlyWhen` | internal/platform/storage/invite.go:129-161 | issuing adds one fresh row for a known scope, a positive lifetime and a new token, and otherwise fails and changes nothing |
| `Invites.IssueByExactlyWhen` | internal/platform/storage/invite.go:182-242 | capped issuing does the same for a named creator with an account while the creator's open invites of the scope are below the limit, and reports the limit exactly when they are not |
| `Invites.FreshInviteIsRedeemable` | internal/platform/storage/invite.go:290-367 | a fresh invite is found and can be consumed until its expiration and is expired from then on |
| `Invites.ConsumeExactlyWhen` | internal/platform/storage/invite.go:329-367 | each outcome of a consumption has exactly its own condition, unreadable rows included |
| `Invites.ConsumingUsesUp` | internal/platform/storage/invite.go:341-367 | consuming marks exactly this row as used by the app now, and the invite is used up from then on |
| `Invites.CountedAreOpen` | internal/platform/storage/invite.go:199-222 | the rows counted are exactly the unused, unexpired ones of the scope, and of the creator where one is given |
| `Invites.IssueByCaps` | internal/platform/storage/invite.go:199-233 | a capped issuance bounds the user's outstanding invites at every instant from its clock reading on, whatever the table held and whatever the order of clock readings |
| `Invites.CapFailsLookingBack` | internal/platform/storage/invite.go:213-222 | two capped issuances that together exceed the cap at an instant before the second; the exact condition is the next row |
| `Enrollment.CapHoldsAtEveryInstant` | internal/platform/storage/invite.go:199-233 | in every run with a fixed cap and at every instant t, a user's invites of a scope issued by t and open at t are at most the cap, and the count at t exceeds the cap exactly when the open invites issued after t are more than the cap leaves room for |
| `Enrollment.CapHoldsInEveryRun` | internal/platform/storage/invite.go:199-233 | in particular the whole count is within the cap for every t at or after the latest issuance |
| `Enrollment.RunsStayReadable` | internal/platform/storage/invite.go:148-153 | in every reachable state every stored time parses |
| `Enrollment.OneConsumerEver` | internal/platform/storage/invite.go:341-367 | a used invite row is never written again, so an invite has at most one consumer in any run |
| `Enrollment.EnrollmentConserves` | internal/platform/storage/enrollment.go:87-193 | in every run #accounts = #client_apps = #certificates <= #used invites, linked one to one, and each app is named by a used invite |
| `Enrollment.RegisterExactlyWhen` | internal/platform/storage/enrollment.go:91-192 | a registration succeeds exactly when complete, its account, app and serial are free and its invite is redeemable; each refusal has exactly its own condition in the order of the writes, an invite's refusal is the lookup's reason, and nothing changes |
| `Enrollment.RegistrationAddsItsRows` | internal/platform/storage/enrollment.go:91-192 | a registration adds exactly one account, one app and one certificate with the values given, and every other row stays |
| `Enrollment.RegistrationUsesItsInvite` | internal/platform/storage/enrollment.go:134-169 | it uses up its own invite and leaves the others as they were |
| `Enrollment.ForwardedSerialFindsTheApp` | internal/platform/storage/enrollment.go:172-187 | a registered certificate is found under every decoration of its serial |
| `Enrollment.Store.RegisterClientApp` | internal/platform/storage/enrollment.go:87-193 | four writes with rollback at each equal the all-or-nothing function |
| `Enrollment.Store.ConsumeInvite` | internal/platform/storage/invite.go:329-367 | the conditional update and its error analysis equal the consumption function |
| `Enrollment.Store.IssueInvite` | internal/platform/storage/invite.go:129-161 | issuing without creator equals the issuing function |
| `Enrollment.Store.IssueInviteBy` | internal/platform/storage/invite.go:182-242 | count-then-insert equals the capped issuing function |
| `Serial.DecorationsNormalize` | internal/platform/proxy/client_cert.go:235-249 | every decoration of a positive n (case, prefix, separators, spaces, leading zeros) normalises to n's lower-case rendering |
| `Serial.AcceptedAreDecorations` | internal/platform/proxy/client_cert.go:235-249 | nothing but decorations of positive numbers is accepted |
| `Serial.Idempotent` | internal/platform/proxy/client_cert.go:235-249 | normalising twice is normalising once |
| `Serial.KeysSeparateSerials` | internal/platform/proxy/client_cert.go:59-105 | two accepted texts share a key exactly when they decorate the same number |
| `Serial.HexRoundTrip` | internal/platform/proxy/client_cert.go:248 | the rendering is lower-case hex that reads back as the number |
| `Serial.SerialExample` | internal/platform/proxy/client_cert.go:235-249 | a literal serial with spaces, prefix, separators and leading zeros becomes its literal key |
| `Serial.SpaceTable` | internal/platform/proxy/client_cert.go:235-249 | what is trimmed is exactly the code points with the property White_Space |
| `ClientCert.SplitInfoFields` | internal/platform/proxy/client_cert.go:145-185 | the byte loop collects exactly the fields of the pieces between semicolons outside quotes |
| `ClientCert.FieldExactlyWhen` | internal/platform/proxy/client_cert.go:151-163 | a piece contributes the field (k, v) exactly when it is k and v around its first equals sign with white space around each and quotes around v, neither empty |
| `ClientCert.HeaderRoundTrip` | internal/platform/proxy/client_cert.go:141-185 | splitting undoes rendering of quoted fields, whatever semicolons, commas and equals signs the values hold |
| `ClientCert.SerialKeysSpelledOut` | internal/platform/proxy/client_cert.go:121-124 | the fields taken for serials are exactly the spellings of serialnumber and sn that differ in capitals |
| `ClientCert.SerialIsDeterminedExactlyWhen` | internal/platform/proxy/client_cert.go:115-139 | the serial is independent of map iteration order exactly when all accepted serial fields agree |
| `ClientCert.DisagreeingSerialsDependOnOrder` | internal/platform/proxy/client_cert.go:115-139 | a header with two serial fields for different numbers yields either number's key, by iteration order |
| `ClientCert.OneHeaderTwoSerials` | internal/platform/proxy/client_cert.go:115-139 | SerialNumber="1";SN="2" is such a header |
| `ClientCert.ForwardedSerialIsTheStoredKey` | internal/platform/proxy/client_cert.go:115-139 | a header naming serial n, however decorated, leads to the key Text(16) gives on the other two paths |
| `Sessions.ParseCaveats` | internal/platform/auth/macaroon/verifier.go:321-347 | the loop accepts exactly known first-party caveats with a usable time, and returns them with the running earliest |
| `Sessions.ExpirationIsTheMinimumExactlyWhen` | internal/platform/auth/macaroon/verifier.go:323-346 | the expiration is the minimum time caveat exactly when that minimum is not Go's zero instant |
| `Sessions.ZeroForgets` | internal/platform/auth/macaroon/verifier.go:337-341 | a zero-instant caveat makes the loop forget the times before it |
| `Sessions.CheckConstraints` | internal/platform/auth/macaroon/verifier.go:250-258 | the check passes exactly when every caveat holds |
| `Sessions.ConflictIsUnsatisfiable` | internal/platform/auth/macaroon/verifier.go:356-402 | two caveats of one kind with different values are satisfied by no request at no time |
| `Sessions.SilenceSatisfiesNothing` | internal/platform/auth/macaroon/verifier.go:356-402 | a caveat about something the request does not say is satisfied at no time, whatever its value |
| `Sessions.ForeignCaveatsFailClosed` | internal/platform/auth/macaroon/verifier.go:321-347 | one third-party, unparsable or unknown caveat and the macaroon is no session |
| `Sessions.OverlayFillsGaps` | internal/server/middleware/session.go:220-231 | the certificate's identity fills what the route left open and overrides nothing |
| `Sessions.AppendingOnlyRestricts` | internal/server/middleware/session.go:170-179 | if the longer macaroon passes, the shorter passes exactly when it had a usable time caveat |
| `Sessions.AppendingCanHelpUntimed` | internal/platform/auth/macaroon/verifier.go:343-345 | a macaroon without caveats is no session, and one time caveat appended to it passes every journey route |
| `Sessions.IssuedSessionsOnlyShrink` | internal/server/middleware/session.go:170-179 | whatever is appended to an issued session, what passes then passed before |
| `Sessions.CreatedSessionsOnlyShrink` | internal/server/middleware/session.go:170-179 | the same for a session created by request |
| `Sessions.CaveatOrderIsIrrelevant` | internal/platform/auth/macaroon/issuer.go:121-124 | outside the exact condition of the next row, order and repetition of caveats do not change the guard's verdict |
| `Sessions.CaveatOrderMattersExactlyWhen` | internal/platform/auth/macaroon/issuer.go:121-124 | some permutation of the caveats changes the verdict exactly when all caveats hold and the earliest time caveat is the zero instant while a later one is there too |
| `Sessions.OrderMattersBeforeYearOne` | internal/platform/auth/macaroon/verifier.go:337-345 | a zero-instant caveat and a later one, under a clock before year 1, pass in one order and are refused in the other |
| `Sessions.PassImpliesUnexpired` | internal/server/middleware/session.go:64-68 | nobody passes at or after the expiration the session reports |
| `Sessions.IssueSession` | internal/platform/auth/macaroon/issuer.go:125-203 | a session is issued exactly for valid parameters and carries exactly the meant caveats |
| `Sessions.NormalizeSessionLifetime` | internal/server/api/sessions.go:221-229 | the lifetime is positive and at most an hour: fifteen minutes for a non-positive request, the request itself within the hour, the hour beyond |
| `Sessions.HandleSessionCreate` | internal/server/api/sessions.go:110-187 | a session is created exactly for a valid single-action request of a valid identity with a journey where the action needs one |
| `Sessions.IssuedSessionPassesExactlyWhen` | internal/server/middleware/session.go:204-272 | an issued session passes a journey route exactly when user, app, action and journey match and its time has not run out |
| `Sessions.CreatedSessionPassesExactlyWhen` | internal/server/api/sessions.go:135-169 | the same from the request on: it lives for the clamped lifetime after issue |
| `Sessions.JourneyActionsAreBound` | internal/platform/auth/macaroon/issuer.go:125-203 | a session for one of the four journey actions passes only routes of the journey it was issued for |
| `Sessions.SessionFromVerified` | internal/server/middleware/session.go:299-334 | each convenience field holds the last value of its kind exactly when the kind occurs an odd number of times |
| `Sessions.SingletonRuleHoldsExactlyWhen` | internal/server/middleware/session.go:294-298 | the documented singleton rule holds exactly when the kind occurs once or an even number of times |
| `Sessions.PassingSessionNamesItsRequest` | internal/server/middleware/session.go:305-331 | a session that passes names the request's own values in its fields, or none |
| `OrderedMaps.Omap.SetKey` | internal/tools/openapigen/orderedmap.go:26-32 | a key is replaced where it stands or appended, and keys stay duplicate-free and in step with the values |
| `OrderedMaps.Omap.GetKey` | internal/tools/openapigen/orderedmap.go:34-37 | the lookup equals lookup in the ordered contents |
| `OrderedMaps.GetSet` | internal/tools/openapigen/orderedmap.go:26-37 | a lookup after a set finds the new value under its key and the old ones elsewhere |
| `OrderedMaps.SetKeepsOrder` | internal/tools/openapigen/orderedmap.go:26-32 | keys stay in the order in which they were first set |
| `TypeGraph.CollectPackagePaths` | internal/tools/openapigen/schema.go:342-374 | terminates on every type graph and returns each package of a struct type reachable from the roots exactly once |
| `TypeGraph.Walk` | internal/tools/openapigen/schema.go:346-365 | one call closes the seen set under children except for types still being walked, and records exactly the packages of seen structs |
| `SchemaRecursion.RankedExactlyWhenAcyclic` | internal/tools/openapigen/schema.go:50-75 | the recursion has a rank exactly when no type cycle avoids entering a named struct as a value |
| `SchemaRecursion.EndsExactlyWhenAcyclic` | internal/tools/openapigen/schema.go:50-75 | every visit, with all it leads to, is over at some depth exactly under that condition |
| `SchemaRecursion.PromotedBackIsCyclic` | internal/tools/openapigen/schema.go:188-199 | a closed type graph whose cycle runs through a named struct, left by an ordinary field and re-entered by promotion, and which violates the condition |
| `SchemaRecursion.PromotedBackNeverEnds` | internal/tools/openapigen/schema.go:188-199 | on that graph generating the struct's fields finishes at no depth: each call leads to exactly one next call, and for every n a chain of calls comes back n times |
| `SchemaRecursion.LinkedListEnds` | internal/tools/openapigen/schema.go:50-53 | a self-referential named struct is within the condition |
| `Schema.SchemaBuilder.constructor` | internal/tools/openapigen/schema.go:40-48 | on an acyclic graph the builder starts with nothing named and every invariant in place |
| `Schema.SchemaBuilder.RefFor` | internal/tools/openapigen/schema.go:53-75 | naming before descending keeps names and types one to one, leaves the same slots open, and yields the reference to the struct's name |
| `Schema.SchemaBuilder.SchemaFor` | internal/tools/openapigen/schema.go:79-133 | the memoizing builder returns exactly the schema the pure definition gives, every $ref in it names a component, and it fails only if the graph is not representable |
| `Schema.SchemaBuilder.CollectStructFields` | internal/tools/openapigen/schema.go:176-263 | the loop collects what the pure definition collects, property names without duplicates and required names among them once each; which names those are is in `SchemaFields.CollectedMeans` |
| `Schema.SchemaBuilder.SchemaOfField` | internal/tools/openapigen/schema.go:200-247 | a field's schema is its type's, documented and tagged |
| `Schema.SchemaBuilder.NoteUndocumented` | internal/tools/openapigen/schema.go:213-223 | an undocumented field is listed once, however often its struct is embedded, and the invariants stay |
| `Schema.SchemaBuilder.Generate` | internal/tools/openapigen/main.go:285-312 | on success every result is the prescribed schema, every $ref resolves, and a JSON value meets the result, references resolved, exactly when its type admits it; a representable graph never fails |
| `Schema.FinishedRunsAreComplete` | internal/tools/openapigen/schema.go:53-75 | after a finished run names are injective on types, every component is filled and well formed, and a $ref is sound exactly when it names a component |
| `Schema.FinishedRunsList` | internal/tools/openapigen/schema.go:213-223 | the list of undocumented fields holds only serialized fields of named structs without a doc comment, each once, and none that a component shows, own or promoted, is missing |
| `SchemaFields.CollectedMeans` | internal/tools/openapigen/schema.go:176-263 | the property names are exactly the JSON names of the fields reached along a chain of embedded structs, and the required ones exactly those of the fields without omitempty and omitzero |
| `SchemaFields.CollectedSchemas` | internal/tools/openapigen/schema.go:200-258 | each such field has its property, which carries the schema of the field, and no name is taken twice |
| `SchemaTruth.SchemaMeans` | internal/tools/openapigen/schema.go:79-163 | a JSON value meets the schema of a type, with every $ref resolved in the components, exactly when the type admits it: nullability, element types, mandatory and promoted fields and enums included, at every depth of recursive types |
| `SchemaTruth.FieldMeans` | internal/tools/openapigen/schema.go:205-247 | the schema of a field demands what its type and the last enum of its tag demand, and its description demands nothing |
| `SchemaShapes.NullableMeans` | internal/tools/openapigen/schema.go:135-148 | widening admits null and what was admitted before, except over an already widened type, where it admits null alone |
| `SchemaAnnotations.TagTells` | internal/tools/openapigen/schema.go:281-323 | a tag is refused exactly beside a $ref or with an unknown or valueless directive; otherwise each key holds what the last directive for it says |
| `SchemaAnnotations.FieldTells` | internal/tools/openapigen/schema.go:212-247 | a property is described by its doc comment, and its format is its tag's or else its type's |
| `SchemaAnnotations.FormatsAreTold` | internal/tools/openapigen/schema.go:79-118 | date-time for instants, byte for byte strings, int64 for the wide integers, none elsewhere, through any number of pointers |
| `SchemaAnnotations.ComponentTells` | internal/tools/openapigen/schema.go:153-168 | a component carries the doc comment of its type, if there is one |
| `GoEncoding.EncodingMeetsSchemaExactlyWhen` | internal/tools/openapigen/schema.go:17-23 | what encoding/json writes for a value of a type meets the schema of the type exactly when the value has no nil slice or map outside a pointer or an option, no array of bytes, nothing but null behind two pointers to a typed value, no nil embedded pointer that hides a mandatory field, and declared enum values only |
| `GoEncoding.GeneratedSchemasAreMetExactlyWhen` | internal/tools/openapigen/schema.go:17-23 | the same for every schema and all components a finished run of the generator leaves |
| `GoEncoding.NilPointersMeet` | internal/tools/openapigen/schema.go:135-148 | null meets the schema of every pointer type |
| `GoEncoding.NilSlicesFail` | internal/tools/openapigen/schema.go:107-128 | a nil slice or map is written as null, which its schema refuses |
| `GoEncoding.ByteArraysFail` | internal/tools/openapigen/schema.go:107-111 | an array of bytes is written as a list, which its schema refuses |
| `GoEncoding.TwoPointersFail` | internal/tools/openapigen/schema.go:140-148 | only null meets the schema of a pointer to a pointer to a typed value |
| `GoEncoding.NilEmbeddingsFail` | internal/tools/openapigen/schema.go:188-199 | a struct with a nil embedded pointer that promotes a mandatory field never meets its schema |
| `GoEncoding.NilListExample` | internal/tools/openapigen/schema.go:107-118 | struct { Tags []string } with a nil list does not meet its schema; with an empty list it does |
| `Schema.NullableGood` | internal/tools/openapigen/schema.go:140-148 | widening a schema for null keeps keys duplicate-free and references sound |
| `Schema.WithDoc` | internal/tools/openapigen/schema.go:235-242 | the description comes first and every other key keeps its order and value |
| `Schema.ApplyOpenAPITag` | internal/tools/openapigen/schema.go:281-337 | applying directives in order equals the fold of their entries, examples typed as number, boolean or text in that order, refusing unknown ones and any on a $ref |

## Left out

- HTTP decoding, problem responses, logging, routes, YAML and OpenAPI text: plumbing without a deep invariant.
- SQLite itself, database/sql and driver faults: a statement either takes effect or is refused by a key; a lost connection is not modelled.
- ECDSA, HMAC, X.509, PEM, SHA-256 and UUID minting: verdicts and distinct keys only.
- Fork siblings (the lookup and the loop that drops the picked attestation): filtering of a list, no further invariant.
- Telemetry, federation, server policy, founding admin, key-store files, migrations: not part of this model.
- Schema.SchemaBuilder.SchemaFor: objects are values, so in-place edits by `nullable` and the tag overlay act on the object just returned; aliasing between schemas does not occur in the source and is not modelled. What strconv makes of an example's text is given.
- Schema.SchemaBuilder.RefFor: termination is proved for graphs that meet the condition; on another graph a field refused before the cycle is reached can still end a run with an error, and which errors come first is not modelled there.
- TypeGraph.Walk: the maps captured by the closure are in-out values.
- JourneyVehicles.VehicleStore.AppendJourneyVehicleACL: the conditional UPDATE after a fresh read cannot fail; its stale case is the subject of RevisionChains and ChainRefinement.
- RevisionChains.ChainStore.CreateChain: payload checks and references are verdicts carried by the request.
- JourneyVehicles.VehicleStore.CreateJourneyVehicle: the journeys and accounts tables are not modelled; that the referenced rows exist is a verdict carried by the request.
- Gossip.AttestationStore.HandleRecord: decoding and payload validation are one verdict carried by the request.
- Attestations.ExactlyOneCreated: submissions are those that passed decoding, validation and the driver-is-caller check.
- Sessions.IssueSession: caveats are carried as values; their text form belongs to opencaravan-go.
- SqliteTime.ParseUndoesRender: texts that Go's parser would accept although they are not of the full width are not modelled, because the store never writes them.
- ClientCert.SplitInfoFields: characters stand for runes, while the source steps through bytes; quote and semicolon are ASCII, so the pieces are the same.
- GoEncoding.EncodingMeetsSchemaExactlyWhen: types with a MarshalJSON of their own are not modelled, time.Time and json.RawMessage apart, nor structs that embed one of these; which values omitempty and omitzero leave out is a parameter, and duplicate names, which encoding/json resolves by depth, are refused by the generator.
- SchemaTruth.SchemaMeans: format is an annotation, as in JSON Schema, and does not restrict texts or numbers.
