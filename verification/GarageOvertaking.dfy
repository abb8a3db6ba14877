/**
 What can happen when the writes of an acceptance or a redemption run at some distance from
 the checks in front of them, and exactly when: an accepted_time rewritten, the uniqueness
 fallback reached, an acceptance that lands on another invitation than it names.
 */
module GarageOvertaking {
  import opened Prelude
  import opened GarageTables
  import opened GarageRuns
  import opened GarageAcceptance

  // ---- When a set accepted_time is rewritten ----

  /** The writes of this step reach u's row of g: an unused acceptance key, or an invite u may still use. */
  predicate Lands(s: Tables, op: Op, g: GarageId, u: UserId) {
    match op
    case AcceptStale(a, _) =>
      && a.garage == g && a.user == u && WellFormedAcceptance(a)
      && g in s.garages && (u, a.version) !in s.garages[g].acceptances
    case RedeemStale(key, u', _) =>
      && u' == u && key in s.invites && s.invites[key].garage == g
      && u !in s.invites[key].redemptions && s.invites[key].count < s.invites[key].maxRedemptions
    case _ => false
  }

  /** The time these writes leave in the row. */
  function Stamp(op: Op): Time {
    match op
    case AcceptStale(a, _) => a.acceptedTime
    case RedeemStale(_, _, now) => now
    case _ => 0
  }

  lemma StepOnAcceptedOwner(s: Tables, op: Op, g: GarageId, u: UserId)
    requires AcceptedOwner(s, g, u) && GarageOk(s.accounts, g, s.garages[g]) && Owns(Apply(s, op).0, g, u)
    ensures var row, row' := s.garages[g].owners[u], Apply(s, op).0.garages[g].owners[u];
            row' == if Lands(s, op, g, u) then row.(accepted := Some(Stamp(op))) else row
  {
    if Serial(op) {
      SerialEffectKeepsAcceptedTime(s, op, g, u);
    } else {
      StepIsEffect(s, op, g);
    }
  }

  lemma StepKeepsInviteGarage(s: Tables, op: Op, key: InviteKey)
    requires key in s.invites
    ensures key in Apply(s, op).0.invites && Apply(s, op).0.invites[key].garage == s.invites[key].garage
  {
  }

  lemma {:induction false} InviteGarageStands(accounts: set<UserId>, ops: seq<Op>, n: nat, i: nat, key: InviteKey)
    requires n <= i <= |ops| && key in At(accounts, ops, n).invites
    ensures key in At(accounts, ops, i).invites
    ensures At(accounts, ops, i).invites[key].garage == At(accounts, ops, n).invites[key].garage
  {
    if i == n {
    } else {
      InviteGarageStands(accounts, ops, n, i - 1, key);
      StepAt(accounts, ops, i - 1);
      StepKeepsInviteGarage(At(accounts, ops, i - 1), ops[i - 1], key);
    }
  }

  /** Step m makes u an accepted owner of g. */
  predicate BecomesAccepted(accounts: set<UserId>, ops: seq<Op>, m: nat, g: GarageId, u: UserId)
    requires m < |ops|
  {
    !AcceptedOwner(At(accounts, ops, m), g, u) && AcceptedOwner(At(accounts, ops, m + 1), g, u)
  }

  /** Not accepted at n, accepted at i: some step in between made the difference. */
  lemma {:induction false} AcceptedInBetween(
    accounts: set<UserId>, ops: seq<Op>, n: nat, i: nat, g: GarageId, u: UserId)
    returns (m: nat)
    requires n <= i <= |ops|
    requires !AcceptedOwner(At(accounts, ops, n), g, u) && AcceptedOwner(At(accounts, ops, i), g, u)
    ensures n <= m < i && BecomesAccepted(accounts, ops, m, g, u)
  {
    if AcceptedOwner(At(accounts, ops, i - 1), g, u) {
      m := AcceptedInBetween(accounts, ops, n, i - 1, g, u);
    } else {
      m := i - 1;
    }
  }

  /** The writes of step i land, their checks passed at n, and the user was accepted at m in between. */
  predicate Overtaken(accounts: set<UserId>, ops: seq<Op>, n: nat, m: nat, i: nat, g: GarageId, u: UserId)
    requires n <= m < i < |ops|
  {
    && Lands(At(accounts, ops, i), ops[i], g, u)
    && Passes(At(accounts, ops, n), ops[i]) && BecomesAccepted(accounts, ops, m, g, u)
  }

  ghost predicate IsOvertaken(accounts: set<UserId>, ops: seq<Op>, i: nat, g: GarageId, u: UserId)
    requires i < |ops|
  {
    exists n: nat, m: nat :: n <= m < i && Overtaken(accounts, ops, n, m, i, g, u)
  }

  /** Whoever passed the checks was not an accepted owner of the garage the writes go to. */
  lemma CheckedWhileNotAccepted(accounts: set<UserId>, ops: seq<Op>, n: nat, i: nat, g: GarageId, u: UserId)
    requires n <= i < |ops| && Passes(At(accounts, ops, n), ops[i]) && Lands(At(accounts, ops, i), ops[i], g, u)
    ensures !AcceptedOwner(At(accounts, ops, n), g, u)
  {
    if ops[i].RedeemStale? {
      InviteGarageStands(accounts, ops, n, i, ops[i].key);
    }
  }

  lemma LandingIsOvertaking(accounts: set<UserId>, ops: seq<Op>, i: nat, g: GarageId, u: UserId)
    requires Checked(accounts, ops) && i < |ops| && AcceptedOwner(At(accounts, ops, i), g, u)
    requires Lands(At(accounts, ops, i), ops[i], g, u)
    ensures IsOvertaken(accounts, ops, i, g, u)
  {
    assert WasChecked(accounts, ops, i);
    var n: nat :| n <= i && Passes(At(accounts, ops, n), ops[i]);
    CheckedWhileNotAccepted(accounts, ops, n, i, g, u);
    var m := AcceptedInBetween(accounts, ops, n, i, g, u);
    assert Overtaken(accounts, ops, n, m, i, g, u);
  }

  /**
   In every run in which the writes of an acceptance or a redemption follow checks that
   passed, however long ago: a step rewrites the accepted_time of a surviving owner row, to
   the time it carries, exactly when it is such writes for that user, the user was accepted
   between the checks and the writes, and the acceptance's key or the invite is still free
   for the user. Any other step leaves the row as it is.
   */
  lemma AcceptedTimeIsRewrittenExactlyWhen(accounts: set<UserId>, ops: seq<Op>, i: nat, g: GarageId, u: UserId)
    requires Checked(accounts, ops) && i < |ops|
    requires AcceptedOwner(At(accounts, ops, i), g, u) && Owns(At(accounts, ops, i + 1), g, u)
    ensures var row, row' := At(accounts, ops, i).garages[g].owners[u], At(accounts, ops, i + 1).garages[g].owners[u];
            row' == if IsOvertaken(accounts, ops, i, g, u) then row.(accepted := Some(Stamp(ops[i]))) else row
  {
    var s := At(accounts, ops, i);
    StepAt(accounts, ops, i);
    RunKeepsInv(accounts, ops[..i]);
    assert GarageOk(s.accounts, g, s.garages[g]);
    StepOnAcceptedOwner(s, ops[i], g, u);
    if Lands(s, ops[i], g, u) {
      LandingIsOvertaking(accounts, ops, i, g, u);
    }
  }

  /** So over a whole run the row stands as long as no step for the user is overtaken in this way. */
  lemma {:induction false} AcceptedTimeStandsUnlessOvertaken(
    accounts: set<UserId>, ops: seq<Op>, from: nat, i: nat, g: GarageId, u: UserId)
    requires Checked(accounts, ops) && from <= i <= |ops| && AcceptedOwner(At(accounts, ops, from), g, u)
    requires forall k: nat | from <= k <= i :: Owns(At(accounts, ops, k), g, u)
    requires forall k: nat | from <= k < i :: !IsOvertaken(accounts, ops, k, g, u)
    ensures Owns(At(accounts, ops, i), g, u)
    ensures At(accounts, ops, i).garages[g].owners[u] == At(accounts, ops, from).garages[g].owners[u]
  {
    if i == from {
    } else {
      AcceptedTimeStandsUnlessOvertaken(accounts, ops, from, i - 1, g, u);
      AcceptedTimeIsRewrittenExactlyWhen(accounts, ops, i - 1, g, u);
    }
  }

  // ---- When the uniqueness fallback is reached ----

  /** This step commits an acceptance with this key. */
  predicate Records(s: Tables, op: Op, g: GarageId, u: UserId, version: int) {
    && (op.AcceptOp? || op.AcceptStale?) && Apply(s, op).1 == Done
    && op.a.garage == g && op.a.user == u && op.a.version == version
  }

  lemma StepRecords(s: Tables, op: Op, g: GarageId, u: UserId, version: int)
    ensures AcceptanceByKey(Apply(s, op).0, g, u, version).Some? <==>
              AcceptanceByKey(s, g, u, version).Some? || Records(s, op, g, u, version)
  {
    if g in s.garages { StepIsEffect(s, op, g); }
  }

  ghost predicate RecordedBetween(
    accounts: set<UserId>, ops: seq<Op>, n: nat, i: nat, g: GarageId, u: UserId, version: int)
    requires n <= i <= |ops|
  {
    exists m: nat :: n <= m < i && Records(At(accounts, ops, m), ops[m], g, u, version)
  }

  lemma {:induction false} RecordsInBetween(
    accounts: set<UserId>, ops: seq<Op>, n: nat, i: nat, g: GarageId, u: UserId, version: int)
    requires n <= i <= |ops|
    ensures AcceptanceByKey(At(accounts, ops, i), g, u, version).Some? <==>
              || AcceptanceByKey(At(accounts, ops, n), g, u, version).Some?
              || RecordedBetween(accounts, ops, n, i, g, u, version)
  {
    if i == n {
    } else {
      RecordsInBetween(accounts, ops, n, i - 1, g, u, version);
      StepAt(accounts, ops, i - 1);
      StepRecords(At(accounts, ops, i - 1), ops[i - 1], g, u, version);
    }
  }

  lemma StepKeepsMembers(s: Tables, op: Op)
    ensures s.accounts <= Apply(s, op).0.accounts
  {
  }

  lemma {:induction false} MembersStay(accounts: set<UserId>, ops: seq<Op>, n: nat, i: nat)
    requires n <= i <= |ops|
    ensures At(accounts, ops, n).accounts <= At(accounts, ops, i).accounts
  {
    if i == n {
    } else {
      MembersStay(accounts, ops, n, i - 1);
      StepAt(accounts, ops, i - 1);
      StepKeepsMembers(At(accounts, ops, i - 1), ops[i - 1]);
    }
  }

  lemma CheckedMeansEnrolled(accounts: set<UserId>, ops: seq<Op>, n: nat, i: nat)
    requires n <= i < |ops| && ops[i].AcceptStale? && Passes(At(accounts, ops, n), ops[i])
    ensures ops[i].a.user in At(accounts, ops, i).accounts
  {
    RunKeepsInv(accounts, ops[..n]);
    var s := At(accounts, ops, n);
    assert GarageOk(s.accounts, ops[i].a.garage, s.garages[ops[i].a.garage]);
    MembersStay(accounts, ops, n, i);
  }

  /**
   Writes of an acceptance whose check passed at n are refused, by the unique key, exactly
   when an acceptance with the same key committed since; otherwise they commit.
   */
  lemma FallbackIsReachedExactlyWhen(accounts: set<UserId>, ops: seq<Op>, n: nat, i: nat)
    requires AcceptsChecked(accounts, ops) && n <= i < |ops|
    requires ops[i].AcceptStale? && Passes(At(accounts, ops, n), ops[i])
    ensures var a := ops[i].a;
            Apply(At(accounts, ops, i), ops[i]).1 ==
              if RecordedBetween(accounts, ops, n, i, a.garage, a.user, a.version)
              then Rejected(AlreadyAccepted) else Done
  {
    var a := ops[i].a;
    RunKeepsBinding(accounts, ops, n);
    assert BindingOk(At(accounts, ops, n).garages[a.garage]);
    RecordsInBetween(accounts, ops, n, i, a.garage, a.user, a.version);
    CheckedVersionIsStored(accounts, ops, n, i);
    CheckedMeansEnrolled(accounts, ops, n, i);
  }

  // ---- When an acceptance lands on the invitation it names ----

  /** u owns g in every state from n to i. */
  ghost predicate StaysBetween(accounts: set<UserId>, ops: seq<Op>, n: nat, i: nat, g: GarageId, u: UserId)
    requires n <= i <= |ops|
  {
    forall k: nat | n <= k <= i :: Owns(At(accounts, ops, k), g, u)
  }

  lemma {:induction false} TenureBetween(
    accounts: set<UserId>, ops: seq<Op>, n: nat, i: nat, g: GarageId, u: UserId, v: int)
    requires n <= i <= |ops| && g in At(accounts, ops, n).garages
    requires Tenure(At(accounts, ops, n).garages[g], u, v, false)
    ensures g in At(accounts, ops, i).garages
    ensures Tenure(At(accounts, ops, i).garages[g], u, v, !StaysBetween(accounts, ops, n, i, g, u))
  {
    if i == n {
    } else {
      TenureBetween(accounts, ops, n, i - 1, g, u, v);
      var s, op := At(accounts, ops, i - 1), ops[i - 1];
      StepAt(accounts, ops, i - 1);
      StepIsEffect(s, op, g);
      EffectKeepsTenure(s.garages[g], EffectOn(s, op, g), u, v, !StaysBetween(accounts, ops, n, i - 1, g, u));
      assert StaysBetween(accounts, ops, n, i, g, u) <==>
               StaysBetween(accounts, ops, n, i - 1, g, u) && Owns(At(accounts, ops, i), g, u);
    }
  }

  /**
   The writes of an acceptance find the invitation that its check saw, and that it names,
   exactly when the user was not removed in between. Otherwise they find no row, or accept
   an invitation of a later revision.
   */
  lemma BindingSurvivesExactlyWhen(accounts: set<UserId>, ops: seq<Op>, n: nat, i: nat)
    requires n <= i < |ops| && ops[i].AcceptStale? && Passes(At(accounts, ops, n), ops[i])
    ensures var a := ops[i].a; var s := At(accounts, ops, i);
            && a.garage in s.garages
            && (Owns(s, a.garage, a.user) && s.garages[a.garage].owners[a.user].addedIn == a.version <==>
                  StaysBetween(accounts, ops, n, i, a.garage, a.user))
            && (Owns(s, a.garage, a.user) && !StaysBetween(accounts, ops, n, i, a.garage, a.user) ==>
                  s.garages[a.garage].owners[a.user].addedIn > a.version)
  {
    var a, early := ops[i].a, At(accounts, ops, n);
    RunKeepsInv(accounts, ops[..n]);
    assert GarageOk(early.accounts, a.garage, early.garages[a.garage]);
    TenureBetween(accounts, ops, n, i, a.garage, a.user, a.version);
  }

  // ---- Runs in which these things happen ----

  /** A revision by c that lists c alone, or c and a pending u. */
  function Solo(c: UserId, g: GarageId, version: int): Garage {
    Garage(g, "garage", version, 0, c, [OwnerEntry(c, 0, Some(0))], true, true, "payload")
  }

  function Shared(c: UserId, u: UserId, g: GarageId, version: int): Garage {
    Garage(g, "garage", version, 0, c, [OwnerEntry(c, 0, Some(0)), OwnerEntry(u, 0, None)], true, true, "payload")
  }

  /** u's acceptance of the first revision's invitation, signed at 5. */
  function Signed(u: UserId, g: GarageId): Acceptance {
    Acceptance(g, u, 1, 5, true, true, "payload")
  }

  lemma SharedEntries(c: UserId, u: UserId, g: GarageId, version: int)
    requires c != u
    ensures var es := Shared(c, u, g, version).owners;
            && Users(es) == {c, u} && FirstEntry(es, c) == es[0] && FirstEntry(es, u) == es[1]
  {
    var es := Shared(c, u, g, version).owners;
    assert es[0].user == c && es[1].user == u;
    assert es[..1] == [es[0]] && Names(es[..1], c) && !Names(es[..1], u);
  }

  /** After c created the shared garage, u is pending. */
  ghost predicate Started(s: Tables, c: UserId, u: UserId, g: GarageId) {
    && s.accounts == {c, u} && s.invites == map[] && s.garages.Keys == {g}
    && s.garages[g].head.version == 1 && s.garages[g].revisions.Keys == {1}
    && s.garages[g].owners == map[c := OwnerRow(0, 1, Some(0)), u := OwnerRow(0, 1, None)]
    && s.garages[g].acceptances == map[]
  }

  lemma SharedGarageStarts(c: UserId, u: UserId, g: GarageId, ops: seq<Op>)
    requires c != u && |ops| > 0 && ops[0] == CreateOp(Shared(c, u, g, 1), 0)
    ensures Started(At({c, u}, ops, 1), c, u, g)
  {
    StepAt({c, u}, ops, 0);
    SharedEntries(c, u, g, 1);
  }

  lemma LateStepsAreChecked(accounts: set<UserId>, ops: seq<Op>, n: nat)
    requires |ops| > 0 && n < |ops| && Passes(At(accounts, ops, n), ops[|ops| - 1])
    requires forall i | 0 <= i < |ops| - 1 :: Serial(ops[i])
    ensures Checked(accounts, ops)
  {
    forall i: nat | i < |ops| ensures WasChecked(accounts, ops, i) {
      if i < |ops| - 1 {
        assert Passes(At(accounts, ops, i), ops[i]);
      }
    }
  }

  lemma PendingPasses(s: Tables, c: UserId, u: UserId, g: GarageId, now: Time)
    requires g in s.garages && Lookup(s.garages[g].owners, u) == Some(OwnerRow(0, 1, None))
    ensures Passes(s, AcceptStale(Signed(u, g), now))
  {
  }

  /** c issues an invite, u's redemption passes its checks, u accepts by signature, the redemption writes. */
  function OvertakenRedemption(c: UserId, u: UserId, g: GarageId, key: InviteKey): seq<Op> {
    [CreateOp(Shared(c, u, g, 1), 0), IssueOp(key, g, c, 10, 1, 0), AcceptOp(Signed(u, g), 5), RedeemStale(key, u, 7)]
  }

  /** The same, but the acceptance passed its check first and the redemption goes through before it writes. */
  function OvertakenAcceptance(c: UserId, u: UserId, g: GarageId, key: InviteKey): seq<Op> {
    [CreateOp(Shared(c, u, g, 1), 0), IssueOp(key, g, c, 10, 1, 0), RedeemOp(key, u, 7), AcceptStale(Signed(u, g), 8)]
  }

  /** The state in which both checks pass. */
  lemma InviteIsOpen(c: UserId, u: UserId, g: GarageId, key: InviteKey, ops: seq<Op>)
    requires c != u && c.text != "" && g.text != ""
    requires |ops| > 1 && ops[0] == CreateOp(Shared(c, u, g, 1), 0) && ops[1] == IssueOp(key, g, c, 10, 1, 0)
    ensures Open(At({c, u}, ops, 2), c, u, g, key)
  {
    SharedGarageStarts(c, u, g, ops);
    StepAt({c, u}, ops, 1);
  }

  ghost predicate Open(s: Tables, c: UserId, u: UserId, g: GarageId, key: InviteKey) {
    && s.accounts == {c, u} && s.invites == map[key := Invite(g, c, 0, 10, 1, 0, None, map[])]
    && g in s.garages && s.garages[g].acceptances == map[]
    && Lookup(s.garages[g].owners, u) == Some(OwnerRow(0, 1, None))
  }

  lemma AcceptThenRedeem(s: Tables, c: UserId, u: UserId, g: GarageId, key: InviteKey)
    requires Open(s, c, u, g, key) && u.text != ""
    ensures var s' := Apply(s, AcceptOp(Signed(u, g), 5)).0;
            var s'' := Apply(s', RedeemStale(key, u, 7)).0;
            && RedeemChecks(s, key, u, 7)
            && g in s'.garages && Lookup(s'.garages[g].owners, u) == Some(OwnerRow(0, 1, Some(5)))
            && Apply(s', RedeemOp(key, u, 7)) == (s', Rejected(OwnerAlreadyAccepted))
            && g in s''.garages && Lookup(s''.garages[g].owners, u) == Some(OwnerRow(0, 1, Some(7)))
  {
  }

  lemma RedeemThenAccept(s: Tables, c: UserId, u: UserId, g: GarageId, key: InviteKey)
    requires Open(s, c, u, g, key) && u.text != ""
    ensures var s' := Apply(s, RedeemOp(key, u, 7)).0;
            var s'' := Apply(s', AcceptStale(Signed(u, g), 8)).0;
            && g in s'.garages && Lookup(s'.garages[g].owners, u) == Some(OwnerRow(0, 1, Some(7)))
            && Apply(s', AcceptOp(Signed(u, g), 8)) == (s', Rejected(AlreadyAccepted))
            && g in s''.garages && Lookup(s''.garages[g].owners, u) == Some(OwnerRow(0, 1, Some(5)))
  {
  }

  /**
   u's check passes while u is pending, u then accepts by signature at 5, and the writes of the
   redemption move accepted_time to 7. A check made then would have refused.
   */
  lemma OvertakenRedemptionRewritesAcceptedTime(c: UserId, u: UserId, g: GarageId, key: InviteKey)
    requires c != u && c.text != "" && u.text != "" && g.text != ""
    ensures var ops := OvertakenRedemption(c, u, g, key);
            && Checked({c, u}, ops)
            && Apply(At({c, u}, ops, 3), RedeemOp(key, u, 7)) == (At({c, u}, ops, 3), Rejected(OwnerAlreadyAccepted))
            && Owns(At({c, u}, ops, 3), g, u) && Owns(At({c, u}, ops, 4), g, u)
            && At({c, u}, ops, 3).garages[g].owners[u].accepted == Some(5)
            && At({c, u}, ops, 4).garages[g].owners[u].accepted == Some(7)
  {
    var ops := OvertakenRedemption(c, u, g, key);
    InviteIsOpen(c, u, g, key, ops);
    AcceptThenRedeem(At({c, u}, ops, 2), c, u, g, key);
    LateStepsAreChecked({c, u}, ops, 2);
    StepAt({c, u}, ops, 2);
    StepAt({c, u}, ops, 3);
  }

  /**
   The other way round: the acceptance's check passes while u is pending, u's redemption
   commits at 7, and the acceptance's writes move accepted_time back to 5.
   */
  lemma OvertakenAcceptanceRewritesAcceptedTime(c: UserId, u: UserId, g: GarageId, key: InviteKey)
    requires c != u && c.text != "" && u.text != "" && g.text != ""
    ensures var ops := OvertakenAcceptance(c, u, g, key);
            && Checked({c, u}, ops)
            && Apply(At({c, u}, ops, 3), AcceptOp(Signed(u, g), 8)) == (At({c, u}, ops, 3), Rejected(AlreadyAccepted))
            && Owns(At({c, u}, ops, 3), g, u) && Owns(At({c, u}, ops, 4), g, u)
            && At({c, u}, ops, 3).garages[g].owners[u].accepted == Some(7)
            && At({c, u}, ops, 4).garages[g].owners[u].accepted == Some(5)
  {
    var ops := OvertakenAcceptance(c, u, g, key);
    InviteIsOpen(c, u, g, key, ops);
    PendingPasses(At({c, u}, ops, 2), c, u, g, 8);
    RedeemThenAccept(At({c, u}, ops, 2), c, u, g, key);
    LateStepsAreChecked({c, u}, ops, 2);
    StepAt({c, u}, ops, 2);
    StepAt({c, u}, ops, 3);
  }

  /** Two submissions of one acceptance both pass the check; the second runs into the unique key. */
  function SubmittedTwice(c: UserId, u: UserId, g: GarageId): seq<Op> {
    [CreateOp(Shared(c, u, g, 1), 0), AcceptOp(Signed(u, g), 5), AcceptStale(Signed(u, g), 6)]
  }

  lemma SecondSubmissionReachesTheFallback(c: UserId, u: UserId, g: GarageId)
    requires c != u
    ensures var ops := SubmittedTwice(c, u, g);
            && Checked({c, u}, ops)
            && Apply(At({c, u}, ops, 2), ops[2]) == (At({c, u}, ops, 2), Rejected(AlreadyAccepted))
            && AcceptanceByKey(At({c, u}, ops, 2), g, u, 1) == Some(AcceptanceRow(5, "payload", 5))
  {
    var ops := SubmittedTwice(c, u, g);
    SharedGarageStarts(c, u, g, ops);
    PendingPasses(At({c, u}, ops, 1), c, u, g, 6);
    LateStepsAreChecked({c, u}, ops, 1);
    StepAt({c, u}, ops, 1);
  }

  /** After its check u is removed by revision 2 and invited again by revision 3; then the acceptance writes. */
  function RemovedAndInvitedAgain(c: UserId, u: UserId, g: GarageId): seq<Op> {
    [CreateOp(Shared(c, u, g, 1), 0), AppendOp(Solo(c, g, 2)), AppendOp(Shared(c, u, g, 3)),
     AcceptStale(Signed(u, g), 5)]
  }

  lemma SoloRemoves(s: Tables, c: UserId, u: UserId, g: GarageId)
    requires c != u && Started(s, c, u, g)
    ensures var s' := Apply(s, AppendOp(Solo(c, g, 2))).0;
            && s'.accounts == {c, u} && g in s'.garages && s'.garages[g].head.version == 2
            && s'.garages[g].revisions.Keys == {1, 2}
            && c in s'.garages[g].owners && u !in s'.garages[g].owners && s'.garages[g].acceptances == map[]
  {
    var es := Solo(c, g, 2).owners;
    assert es[0].user == c && Names(es, c) && !Names(es, u);
  }

  lemma SharedAddsAgain(s: Tables, c: UserId, u: UserId, g: GarageId)
    requires c != u && s.accounts == {c, u} && g in s.garages && s.garages[g].head.version == 2
    requires s.garages[g].revisions.Keys == {1, 2} && c in s.garages[g].owners && u !in s.garages[g].owners
    ensures var s' := Apply(s, AppendOp(Shared(c, u, g, 3))).0;
            && s'.accounts == {c, u} && g in s'.garages && s'.garages[g].acceptances == s.garages[g].acceptances
            && Lookup(s'.garages[g].owners, u) == Some(OwnerRow(0, 3, None))
  {
    var es := Shared(c, u, g, 3).owners;
    SharedEntries(c, u, g, 3);
    assert es[0].user == c && es[1].user == u;
    assert InsertsAdmitted(s.accounts, s.garages[g].owners, es);
  }

  lemma InvitedAgain(c: UserId, u: UserId, g: GarageId)
    requires c != u
    ensures var ops := RemovedAndInvitedAgain(c, u, g); var s := At({c, u}, ops, 3);
            && s.accounts == {c, u} && g in s.garages && s.garages[g].acceptances == map[]
            && Lookup(s.garages[g].owners, u) == Some(OwnerRow(0, 3, None))
  {
    var ops := RemovedAndInvitedAgain(c, u, g);
    SharedGarageStarts(c, u, g, ops);
    StepAt({c, u}, ops, 1);
    SoloRemoves(At({c, u}, ops, 1), c, u, g);
    StepAt({c, u}, ops, 2);
    SharedAddsAgain(At({c, u}, ops, 2), c, u, g);
  }

  lemma RemovedAndInvitedAgainIsChecked(c: UserId, u: UserId, g: GarageId)
    requires c != u
    ensures Checked({c, u}, RemovedAndInvitedAgain(c, u, g))
  {
    var ops := RemovedAndInvitedAgain(c, u, g);
    SharedGarageStarts(c, u, g, ops);
    PendingPasses(At({c, u}, ops, 1), c, u, g, 5);
    LateStepsAreChecked({c, u}, ops, 1);
  }

  lemma SignedOnLaterInvitation(s: Tables, u: UserId, g: GarageId)
    requires u in s.accounts && g in s.garages && s.garages[g].acceptances == map[]
    requires Lookup(s.garages[g].owners, u) == Some(OwnerRow(0, 3, None))
    ensures Apply(s, AcceptOp(Signed(u, g), 5)) == (s, Rejected(NotPending))
    ensures var s' := Apply(s, AcceptStale(Signed(u, g), 5)).0;
            g in s'.garages && Lookup(s'.garages[g].owners, u) == Some(OwnerRow(0, 3, Some(5)))
  {
  }

  /** The acceptance of revision 1 makes u an accepted owner under the invitation of revision 3. */
  lemma StaleAcceptanceAcceptsALaterInvitation(c: UserId, u: UserId, g: GarageId)
    requires c != u
    ensures var ops := RemovedAndInvitedAgain(c, u, g);
            && Checked({c, u}, ops)
            && Apply(At({c, u}, ops, 3), AcceptOp(Signed(u, g), 5)) == (At({c, u}, ops, 3), Rejected(NotPending))
            && Owns(At({c, u}, ops, 3), g, u) && At({c, u}, ops, 3).garages[g].owners[u] == OwnerRow(0, 3, None)
            && Owns(At({c, u}, ops, 4), g, u) && At({c, u}, ops, 4).garages[g].owners[u] == OwnerRow(0, 3, Some(5))
  {
    RemovedAndInvitedAgainIsChecked(c, u, g);
    InvitedAgain(c, u, g);
    SignedOnLaterInvitation(At({c, u}, RemovedAndInvitedAgain(c, u, g), 3), u, g);
    StepAt({c, u}, RemovedAndInvitedAgain(c, u, g), 3);
  }
}
