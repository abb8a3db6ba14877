/**
 Redemption accounting over whole runs: the counter, the limit, one redemption per user, and
 what revocation and expiry close.
 */
module GarageRedemption {
  import opened Prelude
  import opened GarageTables
  import opened GarageRuns
  import opened GarageReplay

  /** How many redemptions of the invite committed. */
  function Joins(log: seq<Event>, key: InviteKey): nat {
    if |log| == 0 then 0
    else
      var e := log[|log| - 1];
      Joins(log[..|log| - 1], key) + if e.JoinedBy? && e.key == key then 1 else 0
  }

  predicate JoinLogged(log: seq<Event>, key: InviteKey, u: UserId) {
    exists i :: 0 <= i < |log| && log[i].JoinedBy? && log[i].key == key && log[i].u == u
  }

  /** The invites table says of `key` and `u` what the log says. */
  ghost predicate Accounted(s: Tables, log: seq<Event>, key: InviteKey, u: UserId) {
    if key in s.invites then
      && s.invites[key].count == Joins(log, key)
      && (u in s.invites[key].redemptions <==> JoinLogged(log, key, u))
    else Joins(log, key) == 0 && !JoinLogged(log, key, u)
  }

  lemma JoinLoggedInConcat(log: seq<Event>, e: Event, key: InviteKey, u: UserId)
    ensures JoinLogged(log + [e], key, u) <==> JoinLogged(log, key, u) || (e.JoinedBy? && e.key == key && e.u == u)
    ensures Joins(log + [e], key) == Joins(log, key) + if e.JoinedBy? && e.key == key then 1 else 0
  {
    assert (log + [e])[..|log|] == log && (log + [e])[|log|] == e;
    if JoinLogged(log, key, u) {
      var i :| 0 <= i < |log| && log[i].JoinedBy? && log[i].key == key && log[i].u == u;
      assert (log + [e])[i] == log[i];
    }
  }

  /** What one step does to one invite. */
  lemma InviteStep(s: Tables, op: Op, key: InviteKey)
    ensures var s' := Apply(s, op).0;
            var e := EventOf(s, op);
            if key !in s.invites then
              e != [] ==> !(e[0].JoinedBy? && e[0].key == key)
            else
              && key in s'.invites
              && s'.invites[key].expiresAt == s.invites[key].expiresAt
              && s'.invites[key].maxRedemptions == s.invites[key].maxRedemptions
              && (s.invites[key].revokedAt.Some? ==> s'.invites[key].revokedAt == s.invites[key].revokedAt)
              && if e != [] && e[0].JoinedBy? && e[0].key == key then
                   && s.invites[key].count < s.invites[key].maxRedemptions
                   && e[0].u !in s.invites[key].redemptions
                   && s'.invites[key].count == s.invites[key].count + 1
                   && s'.invites[key].redemptions == s.invites[key].redemptions[e[0].u := e[0].now]
                 else
                   && s'.invites[key].count == s.invites[key].count
                   && s'.invites[key].redemptions == s.invites[key].redemptions
    ensures key !in s.invites && key in Apply(s, op).0.invites ==>
              Apply(s, op).0.invites[key].count == 0 && Apply(s, op).0.invites[key].redemptions == map[]
  {
    match op
    case RedeemOp(key', u, now) =>
      if Redeem(s, key', u, now).1 == Done { assert Apply(s, op) == RedeemWrites(s, key', u, now); }
    case _ =>
  }

  lemma AccountedStep(s: Tables, op: Op, log: seq<Event>, key: InviteKey, u: UserId)
    requires Accounted(s, log, key, u)
    ensures Accounted(Apply(s, op).0, log + EventOf(s, op), key, u)
  {
    var e := EventOf(s, op);
    InviteStep(s, op, key);
    if e == [] {
      assert log + e == log;
    } else {
      assert e == [e[0]];
      JoinLoggedInConcat(log, e[0], key, u);
    }
  }

  lemma {:induction false} RedemptionsAreAccounted(accounts: set<UserId>, ops: seq<Op>, key: InviteKey, u: UserId)
    ensures Accounted(Run(Empty(accounts), ops), Log(Empty(accounts), ops), key, u)
  {
    if |ops| == 0 {
    } else {
      var before := ops[..|ops| - 1];
      RedemptionsAreAccounted(accounts, before, key, u);
      AccountedStep(Run(Empty(accounts), before), ops[|ops| - 1], Log(Empty(accounts), before), key, u);
    }
  }

  /**
   In every run, stale checks included: the counter is the number of committed
   redemptions and of stored redemption rows, and the limit is never exceeded.
   */
  lemma RedemptionAccounting(accounts: set<UserId>, ops: seq<Op>, key: InviteKey)
    requires key in Run(Empty(accounts), ops).invites
    ensures var inv := Run(Empty(accounts), ops).invites[key];
            inv.count == Joins(Log(Empty(accounts), ops), key) == |inv.redemptions| <= inv.maxRedemptions
  {
    RunKeepsInv(accounts, ops);
    RedemptionsAreAccounted(accounts, ops, key, UserId(""));
    assert InviteOk(Run(Empty(accounts), ops), Run(Empty(accounts), ops).invites[key]);
  }

  /** Nobody redeems one invite twice, even after being removed from the garage in between. */
  lemma {:induction false} OneRedemptionPerUser(accounts: set<UserId>, ops: seq<Op>, i: int, j: int)
    requires var log := Log(Empty(accounts), ops);
             0 <= i < j < |log| && log[i].JoinedBy? && log[j].JoinedBy? && log[i].key == log[j].key
    ensures var log := Log(Empty(accounts), ops);
            log[i].u != log[j].u
  {
    var before := ops[..|ops| - 1];
    var mid, op := Run(Empty(accounts), before), ops[|ops| - 1];
    var prior, e := Log(Empty(accounts), before), EventOf(mid, op);
    assert Log(Empty(accounts), ops) == prior + e;
    if j < |prior| {
      OneRedemptionPerUser(accounts, before, i, j);
    } else {
      InviteStep(mid, op, e[0].key);
      RedemptionsAreAccounted(accounts, before, e[0].key, prior[i].u);
      assert JoinLogged(prior, e[0].key, prior[i].u);
    }
  }

  /** In a reachable state a redemption goes through exactly under the checks the code makes. */
  lemma RedeemExactlyWhen(accounts: set<UserId>, ops: seq<Op>, key: InviteKey, u: UserId, now: Time)
    ensures var s := Run(Empty(accounts), ops);
            Redeem(s, key, u, now).1 == Done <==>
              && u.text != "" && u in s.accounts && key in s.invites
              && s.invites[key].revokedAt.None? && now < s.invites[key].expiresAt
              && |s.invites[key].redemptions| < s.invites[key].maxRedemptions
              && u !in s.invites[key].redemptions
              && !AcceptedOwner(s, s.invites[key].garage, u)
  {
    var s := Run(Empty(accounts), ops);
    RunKeepsInv(accounts, ops);
    if key in s.invites {
      assert InviteOk(s, s.invites[key]);
    }
  }

  /** Why a redemption is refused, in the order of the checks. */
  lemma RedeemReasons(accounts: set<UserId>, ops: seq<Op>, key: InviteKey, u: UserId, now: Time)
    requires u.text != ""
    ensures var s := Run(Empty(accounts), ops);
            var out := Redeem(s, key, u, now).1;
            if key !in s.invites then out == Rejected(InviteNotFound)
            else
              var inv := s.invites[key];
              && (out == Rejected(Revoked) <==> inv.revokedAt.Some?)
              && (out == Rejected(Expired) <==> inv.revokedAt.None? && inv.expiresAt <= now)
              && (out == Rejected(Exhausted) <==>
                    inv.revokedAt.None? && now < inv.expiresAt && |inv.redemptions| == inv.maxRedemptions)
              && (out == Rejected(OwnerAlreadyAccepted) <==>
                    && inv.revokedAt.None? && now < inv.expiresAt && |inv.redemptions| < inv.maxRedemptions
                    && AcceptedOwner(s, inv.garage, u))
              && (out == Rejected(AlreadyRedeemed) <==>
                    && inv.revokedAt.None? && now < inv.expiresAt && |inv.redemptions| < inv.maxRedemptions
                    && !AcceptedOwner(s, inv.garage, u) && u in inv.redemptions)
  {
    RunKeepsInv(accounts, ops);
    var s := Run(Empty(accounts), ops);
    if key in s.invites {
      assert InviteOk(s, s.invites[key]);
    }
  }

  /** What a redemption that goes through does: one row, one count, and an accepted owner. */
  lemma RedemptionEffect(s: Tables, key: InviteKey, u: UserId, now: Time)
    requires Redeem(s, key, u, now).1 == Done
    ensures var s' := Redeem(s, key, u, now).0;
            var inv, g := s.invites[key], s.invites[key].garage;
            && s'.accounts == s.accounts && s'.invites.Keys == s.invites.Keys && s'.garages.Keys == s.garages.Keys
            && (forall k | k in s.invites && k != key :: s'.invites[k] == s.invites[k])
            && s'.invites[key] == inv.(count := inv.count + 1, redemptions := inv.redemptions[u := now])
            && g in s.garages && (forall h | h in s.garages && h != g :: s'.garages[h] == s.garages[h])
            && s'.garages[g] == s.garages[g].(owners := s'.garages[g].owners)
            && (forall v | v != u :: Lookup(s'.garages[g].owners, v) == Lookup(s.garages[g].owners, v))
            && u in s'.garages[g].owners && s'.garages[g].owners[u].accepted == Some(now)
            && (if u in s.garages[g].owners then
                  && s'.garages[g].owners[u].addedTime == s.garages[g].owners[u].addedTime
                  && s'.garages[g].owners[u].addedIn == s.garages[g].owners[u].addedIn
                else
                  && s'.garages[g].owners[u].addedTime == now
                  && s'.garages[g].owners[u].addedIn == s.garages[g].head.version)
  {
    RedeemIsChecksThenWrites(s, key, u, now);
  }

  // ---- Issuing opens an invite, revoking closes it ----

  /** An issued invite is new, of that garage, unused, and open for its lifetime; nothing else changes. */
  lemma IssuingOpens(s: Tables, key: InviteKey, g: GarageId, creator: UserId, lifetime: int, max: int, now: Time)
    ensures var (s', out) := IssueInvite(s, key, g, creator, lifetime, max, now);
            && (out == Done <==>
                  && g.text != "" && creator.text != "" && lifetime > 0 && max >= 1
                  && key !in s.invites && g in s.garages && creator in s.accounts)
            && (out == Done ==>
                  && s'.accounts == s.accounts && s'.garages == s.garages && key in s'.invites
                  && s'.invites - {key} == s.invites
                  && var inv := s'.invites[key];
                     && inv.garage == g && inv.createdBy == creator && inv.createdAt == now
                     && inv.expiresAt == now + lifetime && inv.maxRedemptions == max
                     && inv.count == 0 && inv.revokedAt == None && inv.redemptions == map[])
  {
    var s' := IssueInvite(s, key, g, creator, lifetime, max, now).0;
    if s' != s { assert s'.invites - {key} == s.invites; }
  }

  /** So an enrolled user who is no accepted owner can redeem it at once, until it expires. */
  lemma FreshInviteIsRedeemable(
    s: Tables, key: InviteKey, g: GarageId, creator: UserId, lifetime: int, max: int, now: Time, u: UserId, t: Time)
    requires IssueInvite(s, key, g, creator, lifetime, max, now).1 == Done
    requires u.text != "" && u in s.accounts && !AcceptedOwner(s, g, u)
    ensures Redeem(IssueInvite(s, key, g, creator, lifetime, max, now).0, key, u, t).1 ==
            if t < now + lifetime then Done else Rejected(Expired)
  {
  }

  /**
   Revoking answers done exactly for an invite of that garage, sets the time of the first
   revocation, and changes nothing else in any table.
   */
  lemma RevokingRevokes(s: Tables, g: GarageId, key: InviteKey, now: Time)
    ensures var (s', out) := Revoke(s, g, key, now);
            if key in s.invites && s.invites[key].garage == g then
              && out == Done && s'.accounts == s.accounts && s'.garages == s.garages
              && s'.invites.Keys == s.invites.Keys
              && (forall k | k in s.invites && k != key :: s'.invites[k] == s.invites[k])
              && var inv, inv' := s.invites[key], s'.invites[key];
                 && inv'.revokedAt == (if inv.revokedAt.None? then Some(now) else inv.revokedAt)
                 && inv'.garage == inv.garage && inv'.createdBy == inv.createdBy && inv'.createdAt == inv.createdAt
                 && inv'.expiresAt == inv.expiresAt && inv'.maxRedemptions == inv.maxRedemptions
                 && inv'.count == inv.count && inv'.redemptions == inv.redemptions
            else out == Rejected(InviteNotFound) && s' == s
  {
  }

  lemma {:induction false} RevocationStays(s: Tables, ops: seq<Op>, key: InviteKey)
    requires key in s.invites && s.invites[key].revokedAt.Some?
    ensures key in Run(s, ops).invites && Run(s, ops).invites[key].revokedAt == s.invites[key].revokedAt
  {
    if |ops| == 0 {
    } else {
      RevocationStays(s, ops[..|ops| - 1], key);
      InviteStep(Run(s, ops[..|ops| - 1]), ops[|ops| - 1], key);
    }
  }

  /**
   After an invite of the garage was revoked, whatever runs next, every redemption of it is
   refused as revoked and changes nothing; and if the steps in between are serial, the
   redemptions it has stay the ones it had.
   */
  lemma RevokedForGood(
    s: Tables, g: GarageId, key: InviteKey, t: Time, ops: seq<Op>, u: UserId, now: Time)
    requires key in s.invites && s.invites[key].garage == g && u.text != ""
    ensures var s' := Run(Revoke(s, g, key, t).0, ops);
            && Redeem(s', key, u, now) == (s', Rejected(Revoked))
            && ((forall i | 0 <= i < |ops| :: Serial(ops[i])) ==>
                  key in s'.invites && s'.invites[key].redemptions == s.invites[key].redemptions)
  {
    RevokingRevokes(s, g, key, t);
    var closed := Revoke(s, g, key, t).0;
    RevocationStays(closed, ops, key);
    if forall i | 0 <= i < |ops| :: Serial(ops[i]) {
      ClosedInvitesStayClosed(closed, ops, key);
    }
  }

  /** The invite was revoked, or every later attempt comes at or after its expiry. */
  ghost predicate Closed(s: Tables, ops: seq<Op>, key: InviteKey) {
    key in s.invites &&
    (s.invites[key].revokedAt.Some?
     || forall i | 0 <= i < |ops| :: ops[i].RedeemOp? && ops[i].key == key ==> ops[i].now >= s.invites[key].expiresAt)
  }

  /** In serial runs nothing is redeemed after revocation or expiry. */
  lemma {:induction false} ClosedInvitesStayClosed(s: Tables, ops: seq<Op>, key: InviteKey)
    requires forall i | 0 <= i < |ops| :: Serial(ops[i])
    requires Closed(s, ops, key)
    ensures var s' := Run(s, ops);
            && key in s'.invites
            && s'.invites[key].redemptions == s.invites[key].redemptions
            && s'.invites[key].expiresAt == s.invites[key].expiresAt
            && (s.invites[key].revokedAt.Some? ==> s'.invites[key].revokedAt.Some?)
  {
    if |ops| == 0 {
    } else {
      ClosedInvitesStayClosed(s, ops[..|ops| - 1], key);
      InviteStep(Run(s, ops[..|ops| - 1]), ops[|ops| - 1], key);
    }
  }

  /** Every rejected transaction, redemptions among them, leaves all tables as they were. */
  lemma RejectedChangesNothing(s: Tables, op: Op)
    requires Apply(s, op).1 != Done
    ensures Apply(s, op).0 == s
  {
    match op
    case RedeemOp(key, u, now) =>
    case _ =>
  }
}
