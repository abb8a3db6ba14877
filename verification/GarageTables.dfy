/**
 Garage ownership: the tables behind garage.go and garage_invite.go, and what each
 transaction does to them as a function from tables to tables.

 Rows are grouped by the garage (or invite) that the first column of their key names, so
 one garage's revisions, owners and acceptances sit together; within a group each map is
 keyed by the remaining key columns. The write part of an append, of an acceptance and of a
 redemption is a function of its own, because the checks in front of it may have read an
 older state.
 */
module GarageTables {
  import opened Prelude

  /** One entry of a signed payload's owner list. */
  datatype OwnerEntry = OwnerEntry(user: UserId, addedTime: Time, accepted: Option<Time>)

  /**
   A signed garage payload. `valid` is the verdict of the protocol library's Validate and
   `signed` says that an integrity envelope is present; neither is computed here.
   */
  datatype Garage = Garage(
    id: GarageId, name: string, version: int, revisionTime: Time, signedBy: UserId,
    owners: seq<OwnerEntry>, valid: bool, signed: bool, payload: string)

  /** A signed acceptance of one ownership invitation. */
  datatype Acceptance = Acceptance(
    garage: GarageId, user: UserId, version: int, acceptedTime: Time,
    valid: bool, signed: bool, payload: string)

  datatype InviteKey = InviteKey(text: string)

  datatype GarageHead = GarageHead(name: string, version: int, revisionTime: Time, createdAt: Time)
  datatype OwnerRow = OwnerRow(addedTime: Time, addedIn: int, accepted: Option<Time>)
  datatype AcceptanceRow = AcceptanceRow(acceptedTime: Time, payload: string, receivedAt: Time)

  /** One garages row with the garage_revisions, garage_owners and acceptance rows that refer to it. */
  datatype GarageState = GarageState(
    head: GarageHead,
    revisions: map<int, Garage>,
    owners: map<UserId, OwnerRow>,
    acceptances: map<(UserId, int), AcceptanceRow>)

  /** One garage_invites row with its garage_invite_redemptions rows. */
  datatype Invite = Invite(
    garage: GarageId, createdBy: UserId, createdAt: Time, expiresAt: Time,
    maxRedemptions: int, count: int, revokedAt: Option<Time>, redemptions: map<UserId, Time>)

  datatype Tables = Tables(
    accounts: set<UserId>,
    garages: map<GarageId, GarageState>,
    invites: map<InviteKey, Invite>)

  datatype Error =
    | Invalid | IdInUse | WriteFailed | GarageNotFound | VersionConflict
    | NotPending | AlreadyAccepted
    | InviteNotFound | Revoked | Expired | Exhausted | AlreadyRedeemed | OwnerAlreadyAccepted

  datatype Outcome = Done | Rejected(error: Error)

  // ---- Owner lists ----

  predicate Names(entries: seq<OwnerEntry>, u: UserId) {
    exists i :: 0 <= i < |entries| && entries[i].user == u
  }

  function Users(entries: seq<OwnerEntry>): (users: set<UserId>)
    ensures forall u :: u in users <==> Names(entries, u)
  {
    set i | 0 <= i < |entries| :: entries[i].user
  }

  /** The accepted_time the last accepting entry for `u` carries. */
  function LastAcceptance(entries: seq<OwnerEntry>, u: UserId): Option<Time> {
    if |entries| == 0 then None
    else
      var e := entries[|entries| - 1];
      if e.user == u && e.accepted.Some? then e.accepted
      else LastAcceptance(entries[..|entries| - 1], u)
  }

  function FirstEntry(entries: seq<OwnerEntry>, u: UserId): (e: OwnerEntry)
    requires Names(entries, u)
    ensures e in entries && e.user == u
  {
    var n := |entries| - 1;
    if Names(entries[..n], u) then FirstEntry(entries[..n], u) else entries[n]
  }

  /** A revision can turn a pending row into an accepted one and never back. */
  function Promote(row: OwnerRow, accepted: Option<Time>): OwnerRow {
    if row.accepted.None? then row.(accepted := accepted) else row
  }

  function RowFor(e: OwnerEntry, version: int): OwnerRow {
    OwnerRow(e.addedTime, version, e.accepted)
  }

  /** `owners` after every entry was applied: known users promoted, unknown users inserted. */
  function Upserted(owners: map<UserId, OwnerRow>, version: int, entries: seq<OwnerEntry>): map<UserId, OwnerRow> {
    map u | u in owners.Keys + Users(entries) ::
      if u in owners then Promote(owners[u], LastAcceptance(entries, u))
      else RowFor(FirstEntry(entries, u), version)
  }

  /** The diff/upsert: apply the entries, then drop the users that they leave out. */
  function Reconciled(owners: map<UserId, OwnerRow>, version: int, entries: seq<OwnerEntry>): map<UserId, OwnerRow> {
    var all := Upserted(owners, version, entries);
    map u | u in all && Names(entries, u) :: all[u]
  }

  /**
   The inserts that applying `entries` to `owners` performs all pass the primary key and
   the reference to accounts.
   */
  predicate InsertsAdmitted(accounts: set<UserId>, owners: map<UserId, OwnerRow>, entries: seq<OwnerEntry>) {
    forall i :: 0 <= i < |entries| && entries[i].user !in owners ==>
      entries[i].user in accounts && forall j :: 0 <= j < i ==> entries[j].user != entries[i].user
  }

  // ---- Transactions ----

  /** The checks on the parameters alone that every write of a garage payload makes first. */
  predicate WellFormed(p: Garage) {
    p.valid && p.signed && p.payload != ""
  }

  function Create(s: Tables, p: Garage, now: Time): (Tables, Outcome) {
    if !WellFormed(p) || p.version != 1 then (s, Rejected(Invalid))
    else if p.id in s.garages then (s, Rejected(IdInUse))
    else if p.signedBy !in s.accounts || !InsertsAdmitted(s.accounts, map[], p.owners) then
      (s, Rejected(WriteFailed))
    else
      (s.(garages := s.garages[p.id := GarageState(
          GarageHead(p.name, 1, p.revisionTime, now), map[1 := p], Upserted(map[], 1, p.owners), map[])]), Done)
  }

  /** The garage after a revision committed. */
  function Advanced(g: GarageState, p: Garage): GarageState {
    GarageState(
      g.head.(name := p.name, version := p.version, revisionTime := p.revisionTime),
      g.revisions[p.version := p],
      Reconciled(g.owners, p.version, p.owners),
      g.acceptances)
  }

  /** INSERT revision, conditional UPDATE of the head, reconcile, COMMIT. */
  function AppendWrites(s: Tables, p: Garage): (Tables, Outcome) {
    if p.id !in s.garages || p.signedBy !in s.accounts then (s, Rejected(WriteFailed))
    else
      var g := s.garages[p.id];
      if p.version in g.revisions then (s, Rejected(WriteFailed))
      else if g.head.version >= p.version then (s, Rejected(VersionConflict))
      else if !InsertsAdmitted(s.accounts, g.owners, p.owners) then (s, Rejected(WriteFailed))
      else (s.(garages := s.garages[p.id := Advanced(g, p)]), Done)
  }

  function Append(s: Tables, p: Garage): (Tables, Outcome) {
    if !WellFormed(p) then (s, Rejected(Invalid))
    else if p.id !in s.garages then (s, Rejected(GarageNotFound))
    else if p.version <= s.garages[p.id].head.version then (s, Rejected(VersionConflict))
    else AppendWrites(s, p)
  }

  /** The checks on the parameters of an acceptance alone. */
  predicate WellFormedAcceptance(a: Acceptance) {
    a.valid && a.signed && a.payload != ""
  }

  /** The garage after an acceptance committed: the record, and the user's row if there is one. */
  function WithAcceptance(g: GarageState, a: Acceptance, now: Time): GarageState {
    g.(acceptances := g.acceptances[(a.user, a.version) := AcceptanceRow(a.acceptedTime, a.payload, now)],
       owners := if a.user in g.owners then g.owners[a.user := g.owners[a.user].(accepted := Some(a.acceptedTime))]
                 else g.owners)
  }

  /** The read in front of an acceptance's writes lets it go on: pending, at the revision it names. */
  predicate AcceptChecks(s: Tables, a: Acceptance) {
    && WellFormedAcceptance(a) && a.garage in s.garages && a.user in s.garages[a.garage].owners
    && s.garages[a.garage].owners[a.user].addedIn == a.version
    && s.garages[a.garage].owners[a.user].accepted.None?
  }

  /** INSERT acceptance, unconditional UPDATE of the owner row, COMMIT. */
  function AcceptWrites(s: Tables, a: Acceptance, now: Time): (Tables, Outcome) {
    if a.garage !in s.garages then (s, Rejected(WriteFailed))
    else
      var g := s.garages[a.garage];
      if (a.user, a.version) in g.acceptances then (s, Rejected(AlreadyAccepted))
      else if a.user !in s.accounts then (s, Rejected(WriteFailed))
      else (s.(garages := s.garages[a.garage := WithAcceptance(g, a, now)]), Done)
  }

  function Accept(s: Tables, a: Acceptance, now: Time): (Tables, Outcome) {
    if !WellFormedAcceptance(a) then (s, Rejected(Invalid))
    else if a.garage !in s.garages then (s, Rejected(NotPending))
    else
      var g := s.garages[a.garage];
      if a.user !in g.owners || g.owners[a.user].addedIn != a.version then (s, Rejected(NotPending))
      else if g.owners[a.user].accepted.Some? then (s, Rejected(AlreadyAccepted))
      else AcceptWrites(s, a, now)
  }

  /** GarageOwnershipAcceptanceByKey; None stands for its not-pending error. */
  function AcceptanceByKey(s: Tables, g: GarageId, u: UserId, version: int): Option<AcceptanceRow> {
    if g in s.garages then Lookup(s.garages[g].acceptances, (u, version)) else None
  }

  function IssueInvite(s: Tables, key: InviteKey, g: GarageId, creator: UserId, lifetime: int, max: int, now: Time)
    : (Tables, Outcome)
  {
    if g.text == "" || creator.text == "" || lifetime <= 0 || max < 1 then (s, Rejected(Invalid))
    else if key in s.invites || g !in s.garages || creator !in s.accounts then (s, Rejected(WriteFailed))
    else (s.(invites := s.invites[key := Invite(g, creator, now, now + lifetime, max, 0, None, map[])]), Done)
  }

  function Revoke(s: Tables, g: GarageId, key: InviteKey, now: Time): (Tables, Outcome) {
    if key !in s.invites || s.invites[key].garage != g then (s, Rejected(InviteNotFound))
    else if s.invites[key].revokedAt.Some? then (s, Done)
    else (s.(invites := s.invites[key := s.invites[key].(revokedAt := Some(now))]), Done)
  }

  /** The garage after `u` joined it through an invite. */
  function Joined(g: GarageState, u: UserId, now: Time): GarageState {
    g.(owners := g.owners[u :=
      if u in g.owners then g.owners[u].(accepted := Some(now)) else OwnerRow(now, g.head.version, Some(now))])
  }

  /** INSERT redemption, conditional increment, upsert of the owner row, COMMIT. */
  function RedeemWrites(s: Tables, key: InviteKey, u: UserId, now: Time): (Tables, Outcome) {
    if key !in s.invites then (s, Rejected(WriteFailed))
    else
      var inv := s.invites[key];
      if u in inv.redemptions then (s, Rejected(AlreadyRedeemed))
      else if u !in s.accounts then (s, Rejected(WriteFailed))
      else if inv.count >= inv.maxRedemptions then (s, Rejected(Exhausted))
      else if inv.garage !in s.garages then (s, Rejected(WriteFailed))
      else
        (s.(invites := s.invites[key := inv.(count := inv.count + 1, redemptions := inv.redemptions[u := now])],
            garages := s.garages[inv.garage := Joined(s.garages[inv.garage], u, now)]), Done)
  }

  /** The reads in front of a redemption's writes let it go on. */
  predicate RedeemChecks(s: Tables, key: InviteKey, u: UserId, now: Time) {
    && u.text != "" && key in s.invites
    && var inv := s.invites[key];
       && inv.revokedAt.None? && now < inv.expiresAt && inv.count < inv.maxRedemptions
       && !AcceptedOwner(s, inv.garage, u)
  }

  function Redeem(s: Tables, key: InviteKey, u: UserId, now: Time): (Tables, Outcome) {
    if u.text == "" then (s, Rejected(Invalid))
    else if key !in s.invites then (s, Rejected(InviteNotFound))
    else
      var inv := s.invites[key];
      if inv.revokedAt.Some? then (s, Rejected(Revoked))
      else if now >= inv.expiresAt then (s, Rejected(Expired))
      else if inv.count >= inv.maxRedemptions then (s, Rejected(Exhausted))
      else if AcceptedOwner(s, inv.garage, u) then (s, Rejected(OwnerAlreadyAccepted))
      else RedeemWrites(s, key, u, now)
  }

  predicate AcceptedOwner(s: Tables, g: GarageId, u: UserId) {
    g in s.garages && u in s.garages[g].owners && s.garages[g].owners[u].accepted.Some?
  }

  /** A redemption is its checks followed by its writes; a failed check changes nothing. */
  lemma RedeemIsChecksThenWrites(s: Tables, key: InviteKey, u: UserId, now: Time)
    ensures RedeemChecks(s, key, u, now) ==> Redeem(s, key, u, now) == RedeemWrites(s, key, u, now)
    ensures !RedeemChecks(s, key, u, now) ==> Redeem(s, key, u, now).0 == s && Redeem(s, key, u, now).1 != Done
  {
  }

  /** So is an acceptance. */
  lemma AcceptIsChecksThenWrites(s: Tables, a: Acceptance, now: Time)
    ensures AcceptChecks(s, a) ==> Accept(s, a, now) == AcceptWrites(s, a, now)
    ensures !AcceptChecks(s, a) ==> Accept(s, a, now).0 == s && Accept(s, a, now).1 != Done
  {
  }
}
