/**
 The garage methods of the store, statement by statement. Each transaction writes the tables
 in place and restores what it began with when a statement fails; its contract says that
 the tables end up exactly as the function of GarageTables describes.
 */
module GarageStore {
  import opened Prelude
  import opened GarageTables

  lemma UpsertKnown(owners: map<UserId, OwnerRow>, version: int, entries: seq<OwnerEntry>, i: int)
    requires 0 <= i < |entries| && entries[i].user in owners
    ensures var e := entries[i];
            var before := Upserted(owners, version, entries[..i]);
            Upserted(owners, version, entries[..i + 1]) ==
              if e.accepted.Some? && owners[e.user].accepted.None?
              then before[e.user := before[e.user].(accepted := e.accepted)] else before
  {
    assert entries[..i + 1][..i] == entries[..i];
    assert forall u :: Names(entries[..i + 1], u) <==> Names(entries[..i], u) || u == entries[i].user;
    forall u | u !in owners && Names(entries[..i], u)
      ensures FirstEntry(entries[..i + 1], u) == FirstEntry(entries[..i], u)
    {
    }
  }

  lemma UpsertNew(owners: map<UserId, OwnerRow>, version: int, entries: seq<OwnerEntry>, i: int)
    requires 0 <= i < |entries| && entries[i].user !in owners && !Names(entries[..i], entries[i].user)
    ensures Upserted(owners, version, entries[..i + 1]) ==
              Upserted(owners, version, entries[..i])[entries[i].user := RowFor(entries[i], version)]
  {
    assert entries[..i + 1][..i] == entries[..i];
    assert forall u :: Names(entries[..i + 1], u) <==> Names(entries[..i], u) || u == entries[i].user;
    forall u | u !in owners && Names(entries[..i], u)
      ensures FirstEntry(entries[..i + 1], u) == FirstEntry(entries[..i], u)
    {
    }
  }

  lemma AdmittedStep(accounts: set<UserId>, owners: map<UserId, OwnerRow>, entries: seq<OwnerEntry>, i: int)
    requires 0 <= i < |entries| && InsertsAdmitted(accounts, owners, entries[..i])
    ensures InsertsAdmitted(accounts, owners, entries[..i + 1]) <==>
              entries[i].user in owners || (entries[i].user in accounts && !Names(entries[..i], entries[i].user))
    ensures !InsertsAdmitted(accounts, owners, entries[..i + 1]) ==> !InsertsAdmitted(accounts, owners, entries)
  {
    var some := entries[..i + 1];
    assert some[i] == entries[i];
    if entries[i].user !in owners {
      if Names(entries[..i], entries[i].user) {
        var j :| 0 <= j < |entries[..i]| && entries[..i][j].user == entries[i].user;
        assert some[j].user == some[i].user && entries[j].user == entries[i].user;
      }
    }
  }

  /** INSERT INTO garage_owners: refused by the primary key or by the reference to accounts. */
  method InsertGarageOwnerTx(accounts: set<UserId>, rows: map<UserId, OwnerRow>, version: int, e: OwnerEntry)
    returns (ok: bool, rows': map<UserId, OwnerRow>)
    ensures ok <==> e.user !in rows && e.user in accounts
    ensures rows' == if ok then rows[e.user := RowFor(e, version)] else rows
  {
    if e.user in rows || e.user !in accounts { return false, rows; }
    return true, rows[e.user := OwnerRow(e.addedTime, version, e.accepted)];
  }

  /** The loop of CreateGarage: insert every entry, stop at the first refusal. */
  method InsertOwners(accounts: set<UserId>, version: int, owners: seq<OwnerEntry>)
    returns (ok: bool, rows: map<UserId, OwnerRow>)
    ensures ok <==> InsertsAdmitted(accounts, map[], owners)
    ensures ok ==> rows == Upserted(map[], version, owners)
  {
    rows := map[];
    for i := 0 to |owners|
      invariant rows == Upserted(map[], version, owners[..i])
      invariant InsertsAdmitted(accounts, map[], owners[..i])
    {
      AdmittedStep(accounts, map[], owners, i);
      ok, rows := InsertGarageOwnerTx(accounts, rows, version, owners[i]);
      if !ok { return false, rows; }
      UpsertNew(map[], version, owners, i);
    }
    assert owners[..|owners|] == owners;
    ok := true;
  }

  /** First loop of the reconciliation: promote known users, insert new ones, collect who stays. */
  method UpsertOwners(accounts: set<UserId>, existing: map<UserId, OwnerRow>, version: int, owners: seq<OwnerEntry>)
    returns (ok: bool, rows: map<UserId, OwnerRow>, keep: set<UserId>)
    ensures ok <==> InsertsAdmitted(accounts, existing, owners)
    ensures ok ==> rows == Upserted(existing, version, owners) && keep == Users(owners)
  {
    rows, keep := existing, {};
    assert Upserted(existing, version, []) == existing;
    for i := 0 to |owners|
      invariant rows == Upserted(existing, version, owners[..i])
      invariant InsertsAdmitted(accounts, existing, owners[..i])
      invariant keep == Users(owners[..i])
    {
      var e := owners[i];
      AdmittedStep(accounts, existing, owners, i);
      assert Users(owners[..i + 1]) == Users(owners[..i]) + {e.user} by { UsersStep(owners, i); }
      keep := keep + {e.user};
      if e.user in existing {
        UpsertKnown(existing, version, owners, i);
        if e.accepted.Some? && existing[e.user].accepted.None? {
          rows := rows[e.user := rows[e.user].(accepted := e.accepted)];
        }
      } else {
        ok, rows := InsertGarageOwnerTx(accounts, rows, version, e);
        if !ok { return false, rows, keep; }
        UpsertNew(existing, version, owners, i);
      }
    }
    assert owners[..|owners|] == owners;
    ok := true;
  }

  lemma UsersStep(entries: seq<OwnerEntry>, i: int)
    requires 0 <= i < |entries|
    ensures Users(entries[..i + 1]) == Users(entries[..i]) + {entries[i].user}
  {
    assert entries[..i + 1] == entries[..i] + [entries[i]];
  }

  /** Second loop of the reconciliation: delete the rows of users the payload left out. */
  method DeleteAbsent(existing: set<UserId>, keep: set<UserId>, rows: map<UserId, OwnerRow>)
    returns (rows': map<UserId, OwnerRow>)
    ensures rows' == map u | u in rows && (u in keep || u !in existing) :: rows[u]
  {
    rows' := rows;
    var todo := existing;
    while todo != {}
      invariant todo <= existing
      invariant rows' == map u | u in rows && (u in keep || u in todo || u !in existing) :: rows[u]
    {
      var u :| u in todo;
      todo := todo - {u};
      if u !in keep { rows' := rows' - {u}; }
    }
  }

  class Store {
    var accounts: set<UserId>
    var garages: map<GarageId, GarageState>
    var invites: map<InviteKey, Invite>

    ghost function View(): Tables
      reads this
    {
      Tables(accounts, garages, invites)
    }

    constructor (accounts: set<UserId>)
      ensures View() == Tables(accounts, map[], map[])
    {
      this.accounts, this.garages, this.invites := accounts, map[], map[];
    }

    method CreateGarage(p: Garage, now: Time) returns (out: Outcome)
      modifies this`garages
      ensures (View(), out) == Create(old(View()), p, now)
    {
      if !p.valid || !p.signed { return Rejected(Invalid); }
      if p.version != 1 { return Rejected(Invalid); }
      if p.payload == "" { return Rejected(Invalid); }
      var saved := garages;
      if p.id in garages { return Rejected(IdInUse); }
      var head := GarageHead(p.name, p.version, p.revisionTime, now);
      garages := garages[p.id := GarageState(head, map[], map[], map[])];
      if p.signedBy !in accounts {
        garages := saved;
        return Rejected(WriteFailed);
      }
      garages := garages[p.id := garages[p.id].(revisions := map[p.version := p])];
      var ok, rows := InsertOwners(accounts, p.version, p.owners);
      if !ok {
        garages := saved;
        return Rejected(WriteFailed);
      }
      garages := garages[p.id := garages[p.id].(owners := rows)];
      assert garages == Create(old(View()), p, now).0.garages;
      return Done;
    }

    /** The diff/upsert of garage_owners; false when one of its inserts was refused. */
    method ReconcileGarageOwnersTx(id: GarageId, version: int, owners: seq<OwnerEntry>) returns (ok: bool)
      requires id in garages
      modifies this`garages
      ensures ok <==> InsertsAdmitted(accounts, old(garages)[id].owners, owners)
      ensures garages ==
              if ok then
                var g := old(garages)[id];
                old(garages)[id := g.(owners := Reconciled(g.owners, version, owners))]
              else old(garages)
    {
      var existing := garages[id].owners;
      var rows, keep;
      ok, rows, keep := UpsertOwners(accounts, existing, version, owners);
      if ok {
        rows := DeleteAbsent(existing.Keys, keep, rows);
        assert rows == Reconciled(existing, version, owners);
        garages := garages[id := garages[id].(owners := rows)];
      }
    }

    /** From the INSERT of the revision to COMMIT; the SELECT of the head came before. */
    method AppendRevisionTx(p: Garage) returns (out: Outcome)
      modifies this`garages
      ensures (View(), out) == AppendWrites(old(View()), p)
    {
      var saved := garages;
      if p.id !in garages || p.signedBy !in accounts { return Rejected(WriteFailed); }
      if p.version in garages[p.id].revisions { return Rejected(WriteFailed); }
      var g := garages[p.id];
      garages := garages[p.id := g.(revisions := g.revisions[p.version := p])];
      g := garages[p.id];
      if g.head.version < p.version {
        var head := g.head.(name := p.name, version := p.version, revisionTime := p.revisionTime);
        garages := garages[p.id := g.(head := head)];
      } else {
        garages := saved;
        return Rejected(VersionConflict);
      }
      var ok := ReconcileGarageOwnersTx(p.id, p.version, p.owners);
      if !ok {
        garages := saved;
        return Rejected(WriteFailed);
      }
      assert garages == AppendWrites(old(View()), p).0.garages;
      return Done;
    }

    method AppendGarageRevision(p: Garage) returns (out: Outcome)
      modifies this`garages
      ensures (View(), out) == Append(old(View()), p)
    {
      if !p.valid || !p.signed || p.payload == "" { return Rejected(Invalid); }
      if p.id !in garages { return Rejected(GarageNotFound); }
      if p.version <= garages[p.id].head.version { return Rejected(VersionConflict); }
      out := AppendRevisionTx(p);
    }

    /** From the INSERT of the acceptance to COMMIT; the SELECT of the owner row came before. */
    method AcceptTx(a: Acceptance, now: Time) returns (out: Outcome)
      modifies this`garages
      ensures (View(), out) == AcceptWrites(old(View()), a, now)
    {
      if a.garage !in garages { return Rejected(WriteFailed); }
      var g := garages[a.garage];
      if (a.user, a.version) in g.acceptances { return Rejected(AlreadyAccepted); }
      if a.user !in accounts { return Rejected(WriteFailed); }
      garages := garages[a.garage :=
        g.(acceptances := g.acceptances[(a.user, a.version) := AcceptanceRow(a.acceptedTime, a.payload, now)])];
      g := garages[a.garage];
      if a.user in g.owners {
        var row := g.owners[a.user].(accepted := Some(a.acceptedTime));
        garages := garages[a.garage := g.(owners := g.owners[a.user := row])];
      }
      assert garages == AcceptWrites(old(View()), a, now).0.garages;
      return Done;
    }

    method AcceptGarageOwnership(a: Acceptance, now: Time) returns (out: Outcome)
      modifies this`garages
      ensures (View(), out) == Accept(old(View()), a, now)
    {
      if !a.valid || !a.signed || a.payload == "" { return Rejected(Invalid); }
      if a.garage !in garages || a.user !in garages[a.garage].owners { return Rejected(NotPending); }
      var row := garages[a.garage].owners[a.user];
      if row.addedIn != a.version { return Rejected(NotPending); }
      if row.accepted.Some? { return Rejected(AlreadyAccepted); }
      out := AcceptTx(a, now);
    }

    method IssueGarageInvite(key: InviteKey, g: GarageId, creator: UserId, lifetime: int, max: int, now: Time)
      returns (out: Outcome)
      modifies this`invites
      ensures (View(), out) == IssueInvite(old(View()), key, g, creator, lifetime, max, now)
    {
      if g.text == "" || creator.text == "" { return Rejected(Invalid); }
      if lifetime <= 0 || max < 1 { return Rejected(Invalid); }
      if key in invites || g !in garages || creator !in accounts { return Rejected(WriteFailed); }
      invites := invites[key := Invite(g, creator, now, now + lifetime, max, 0, None, map[])];
      return Done;
    }

    method RevokeGarageInvite(g: GarageId, key: InviteKey, now: Time) returns (out: Outcome)
      modifies this`invites
      ensures (View(), out) == Revoke(old(View()), g, key, now)
      ensures out == Done ==> key in invites && invites[key].garage == g && invites[key].revokedAt.Some?
    {
      var affected := 0;
      if key in invites && invites[key].garage == g && invites[key].revokedAt.None? {
        invites := invites[key := invites[key].(revokedAt := Some(now))];
        affected := 1;
      }
      if affected == 0 && (key !in invites || invites[key].garage != g) { return Rejected(InviteNotFound); }
      return Done;
    }

    /** From the INSERT of the redemption to COMMIT; the checks came before. */
    method RedeemTx(key: InviteKey, u: UserId, now: Time) returns (out: Outcome)
      modifies this`garages, this`invites
      ensures (View(), out) == RedeemWrites(old(View()), key, u, now)
    {
      var saved := invites;
      if key !in invites { return Rejected(WriteFailed); }
      if u in invites[key].redemptions { return Rejected(AlreadyRedeemed); }
      if u !in accounts { return Rejected(WriteFailed); }
      invites := invites[key := invites[key].(redemptions := invites[key].redemptions[u := now])];
      var inv := invites[key];
      if inv.count < inv.maxRedemptions {
        invites := invites[key := inv.(count := inv.count + 1)];
      } else {
        invites := saved;
        return Rejected(Exhausted);
      }
      if inv.garage !in garages {
        invites := saved;
        return Rejected(WriteFailed);
      }
      var g := garages[inv.garage];
      if u in g.owners {
        garages := garages[inv.garage := g.(owners := g.owners[u := g.owners[u].(accepted := Some(now))])];
      } else {
        garages := garages[inv.garage := g.(owners := g.owners[u := OwnerRow(now, g.head.version, Some(now))])];
      }
      assert invites == RedeemWrites(old(View()), key, u, now).0.invites;
      return Done;
    }

    method RedeemGarageInvite(key: InviteKey, u: UserId, now: Time) returns (out: Outcome)
      modifies this`garages, this`invites
      ensures (View(), out) == Redeem(old(View()), key, u, now)
    {
      if u.text == "" { return Rejected(Invalid); }
      if key !in invites { return Rejected(InviteNotFound); }
      var inv := invites[key];
      if inv.revokedAt.Some? { return Rejected(Revoked); }
      if now >= inv.expiresAt { return Rejected(Expired); }
      if inv.count >= inv.maxRedemptions { return Rejected(Exhausted); }
      if inv.garage in garages && u in garages[inv.garage].owners {
        if garages[inv.garage].owners[u].accepted.Some? { return Rejected(OwnerAlreadyAccepted); }
      }
      out := RedeemTx(key, u, now);
    }
  }
}
