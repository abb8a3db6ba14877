/**
 Acceptance over whole runs: what an acceptance binds to, how long a replay of it returns the
 original record, and what happens to accepted_time once it is set.
 */
module GarageAcceptance {
  import opened Prelude
  import opened GarageTables
  import opened GarageRuns
  import opened GarageReplay

  /** What one step does to one garage that already exists. */
  datatype Effect = Unchanged | Advance(p: Garage) | AcceptBy(a: Acceptance, now: Time) | Join(u: UserId, now: Time)

  function EffectOn(s: Tables, op: Op, g: GarageId): Effect {
    if Apply(s, op).1 != Done then Unchanged
    else
      match op
      case AppendOp(p) => if p.id == g then Advance(p) else Unchanged
      case AppendStale(p) => if p.id == g then Advance(p) else Unchanged
      case AcceptOp(a, now) => if a.garage == g then AcceptBy(a, now) else Unchanged
      case AcceptStale(a, now) => if a.garage == g then AcceptBy(a, now) else Unchanged
      case RedeemOp(key, u, now) => if s.invites[key].garage == g then Join(u, now) else Unchanged
      case RedeemStale(key, u, now) => if s.invites[key].garage == g then Join(u, now) else Unchanged
      case _ => Unchanged
  }

  /** When the transactions let an effect happen. */
  predicate Enabled(g: GarageState, e: Effect) {
    match e
    case Unchanged => true
    case Advance(p) => WellFormed(p) && g.head.version < p.version && p.version !in g.revisions
    case AcceptBy(a, _) => (a.user, a.version) !in g.acceptances
    case Join(_, _) => true
  }

  function Effected(g: GarageState, e: Effect): GarageState
    requires Enabled(g, e)
  {
    match e
    case Unchanged => g
    case Advance(p) => Advanced(g, p)
    case AcceptBy(a, now) => WithAcceptance(g, a, now)
    case Join(u, now) => Joined(g, u, now)
  }

  lemma StepIsEffect(s: Tables, op: Op, g: GarageId)
    requires g in s.garages
    ensures Enabled(s.garages[g], EffectOn(s, op, g))
    ensures g in Apply(s, op).0.garages
    ensures Apply(s, op).0.garages[g] == Effected(s.garages[g], EffectOn(s, op, g))
  {
    match op
    case AppendOp(p) => if Append(s, p).1 == Done { assert Apply(s, op) == AppendWrites(s, p); }
    case RedeemOp(key, u, now) =>
      if Redeem(s, key, u, now).1 == Done { assert Apply(s, op) == RedeemWrites(s, key, u, now); }
    case _ =>
  }

  // ---- Acceptances stand until the user is removed, and lapse for good ----

  predicate Owns(s: Tables, g: GarageId, u: UserId) {
    g in s.garages && u in s.garages[g].owners
  }

  /** `u` owns `g` in the first state and after every step. */
  ghost predicate Stays(s: Tables, ops: seq<Op>, g: GarageId, u: UserId) {
    forall n | 0 <= n <= |ops| :: Owns(Run(s, ops[..n]), g, u)
  }

  /** The membership that began at revision k is live, or over for good. */
  ghost predicate Tenure(g: GarageState, u: UserId, k: int, lapsed: bool) {
    if lapsed then g.head.version > k && (u in g.owners ==> g.owners[u].addedIn > k)
    else k <= g.head.version && u in g.owners && g.owners[u].addedIn == k
  }

  lemma EffectKeepsTenure(g: GarageState, e: Effect, u: UserId, k: int, lapsed: bool)
    requires Enabled(g, e) && Tenure(g, u, k, lapsed)
    ensures Tenure(Effected(g, e), u, k, lapsed || u !in Effected(g, e).owners)
  {
  }

  /** The acceptance record of (u, k) is `row`, and the membership it accepted is live, or over for good. */
  ghost predicate Standing(g: GarageState, u: UserId, k: int, row: AcceptanceRow, lapsed: bool) {
    && Lookup(g.acceptances, (u, k)) == Some(row) && Tenure(g, u, k, lapsed)
    && (!lapsed ==> g.owners[u].accepted.Some?)
  }

  lemma EffectKeepsStanding(g: GarageState, e: Effect, u: UserId, k: int, row: AcceptanceRow, lapsed: bool)
    requires Enabled(g, e) && Standing(g, u, k, row, lapsed)
    ensures Standing(Effected(g, e), u, k, row, lapsed || u !in Effected(g, e).owners)
  {
    EffectKeepsTenure(g, e, u, k, lapsed);
  }

  lemma {:induction false} RunKeepsStanding(s: Tables, ops: seq<Op>, g: GarageId, u: UserId, k: int, row: AcceptanceRow)
    requires g in s.garages && Standing(s.garages[g], u, k, row, false)
    ensures var s' := Run(s, ops);
            g in s'.garages && Standing(s'.garages[g], u, k, row, !Stays(s, ops, g, u))
  {
    if |ops| == 0 {
    } else {
      var before := ops[..|ops| - 1];
      var mid := Run(s, before);
      RunKeepsStanding(s, before, g, u, k, row);
      StepIsEffect(mid, ops[|ops| - 1], g);
      EffectKeepsStanding(mid.garages[g], EffectOn(mid, ops[|ops| - 1], g), u, k, row, !Stays(s, before, g, u));
      StaysSplits(s, ops, g, u);
    }
  }

  lemma StaysSplits(s: Tables, ops: seq<Op>, g: GarageId, u: UserId)
    requires |ops| > 0
    ensures Stays(s, ops, g, u) <==> Stays(s, ops[..|ops| - 1], g, u) && Owns(Run(s, ops), g, u)
  {
    var before := ops[..|ops| - 1];
    assert forall n | 0 <= n <= |before| :: before[..n] == ops[..n];
    assert ops[..|ops|] == ops;
    if Stays(s, ops, g, u) {
      forall n | 0 <= n <= |before| ensures Owns(Run(s, before[..n]), g, u) {
        assert Owns(Run(s, ops[..n]), g, u);
      }
      assert Owns(Run(s, ops[..|ops|]), g, u);
    }
    if Stays(s, before, g, u) && Owns(Run(s, ops), g, u) {
      forall n | 0 <= n <= |ops| ensures Owns(Run(s, ops[..n]), g, u) {
        if n < |ops| {
          assert Owns(Run(s, before[..n]), g, u);
        }
      }
    }
  }

  /**
   After an acceptance committed in a reachable state, whatever runs next: replaying it
   changes nothing, reports already-accepted exactly as long as the user was never
   removed since and not-pending for ever after, and the stored record stays the original.
   */
  lemma AcceptanceReplay(s: Tables, a: Acceptance, now: Time, ops: seq<Op>, b: Acceptance, later: Time)
    requires Inv(s) && Accept(s, a, now).1 == Done
    requires b.garage == a.garage && b.user == a.user && b.version == a.version
    requires b.valid && b.signed && b.payload != ""
    ensures var s1 := Accept(s, a, now).0;
            var s' := Run(s1, ops);
            && Accept(s', b, later) ==
                 (s', Rejected(if Stays(s1, ops, a.garage, a.user) then AlreadyAccepted else NotPending))
            && AcceptanceByKey(s', a.garage, a.user, a.version)
                 == Some(AcceptanceRow(a.acceptedTime, a.payload, now))
  {
    var s1 := Accept(s, a, now).0;
    assert GarageOk(s.accounts, a.garage, s.garages[a.garage]);
    RunKeepsStanding(s1, ops, a.garage, a.user, a.version, AcceptanceRow(a.acceptedTime, a.payload, now));
  }

  /**
   After every run whose acceptances were checked at some time before their writes, an
   acceptance checked and written in one goes through exactly when it is sound and the user's
   row is pending at the revision it names; so the uniqueness fallback of its insert never fires.
   */
  lemma AcceptExactlyWhenPending(accounts: set<UserId>, ops: seq<Op>, a: Acceptance, now: Time)
    requires AcceptsChecked(accounts, ops)
    ensures var s := Run(Empty(accounts), ops);
            var out := Accept(s, a, now).1;
            var sound := a.valid && a.signed && a.payload != "";
            var invited := Owns(s, a.garage, a.user) && s.garages[a.garage].owners[a.user].addedIn == a.version;
            && (out == Rejected(Invalid) <==> !sound)
            && (out == Rejected(NotPending) <==> sound && !invited)
            && (out == Rejected(AlreadyAccepted) <==> sound && invited && AcceptedOwner(s, a.garage, a.user))
            && (out == Done <==> sound && invited && s.garages[a.garage].owners[a.user].accepted.None?)
  {
    var s := Run(Empty(accounts), ops);
    RunKeepsInv(accounts, ops);
    RunKeepsBinding(accounts, ops, |ops|);
    assert ops[..|ops|] == ops;
    if a.garage in s.garages {
      assert GarageOk(s.accounts, a.garage, s.garages[a.garage]) && BindingOk(s.garages[a.garage]);
    }
  }

  // ---- Already accepted does not mean that a record exists ----

  ghost predicate AcceptanceLogged(log: seq<Event>, g: GarageId, u: UserId, version: int) {
    exists i :: 0 <= i < |log| && log[i].Accepted?
                && log[i].a.garage == g && log[i].a.user == u && log[i].a.version == version
  }

  lemma AcceptanceRowStep(s: Tables, op: Op, g: GarageId, u: UserId, version: int)
    ensures AcceptanceByKey(Apply(s, op).0, g, u, version).Some? <==>
              AcceptanceByKey(s, g, u, version).Some? || AcceptanceLogged(EventOf(s, op), g, u, version)
  {
    var e := EventOf(s, op);
    if g in s.garages {
      StepIsEffect(s, op, g);
      if (op.AcceptOp? || op.AcceptStale?) && e != [] {
        assert e[0] == Accepted(op.a, op.now);
      }
    }
  }

  /** A record answers GarageOwnershipAcceptanceByKey exactly when an acceptance with that key committed. */
  lemma {:induction false} RecordsAreTheLoggedAcceptances(
    accounts: set<UserId>, ops: seq<Op>, g: GarageId, u: UserId, version: int)
    ensures AcceptanceByKey(Run(Empty(accounts), ops), g, u, version).Some? <==>
              AcceptanceLogged(Log(Empty(accounts), ops), g, u, version)
  {
    if |ops| == 0 {
    } else {
      var before := ops[..|ops| - 1];
      var mid, log := Run(Empty(accounts), before), Log(Empty(accounts), before);
      RecordsAreTheLoggedAcceptances(accounts, before, g, u, version);
      AcceptanceRowStep(mid, ops[|ops| - 1], g, u, version);
      LoggedInConcat(log, EventOf(mid, ops[|ops| - 1]), g, u, version);
    }
  }

  lemma LoggedInConcat(a: seq<Event>, b: seq<Event>, g: GarageId, u: UserId, version: int)
    ensures AcceptanceLogged(a + b, g, u, version) <==>
              AcceptanceLogged(a, g, u, version) || AcceptanceLogged(b, g, u, version)
  {
    if AcceptanceLogged(a, g, u, version) {
      var i :| 0 <= i < |a| && a[i].Accepted? && a[i].a.garage == g && a[i].a.user == u && a[i].a.version == version;
      assert (a + b)[i] == a[i];
    }
    if AcceptanceLogged(b, g, u, version) {
      var i :| 0 <= i < |b| && b[i].Accepted? && b[i].a.garage == g && b[i].a.user == u && b[i].a.version == version;
      assert (a + b)[|a| + i] == b[i];
    }
  }

  /** The creator of a garage is told "already accepted" and has no acceptance record. */
  lemma CreatorHasNoRecord(u: UserId, g: GarageId)
    ensures var s := Run(Empty({u}), [CreateOp(CreatorsGarage(u, g), 0)]);
            && Accept(s, Acceptance(g, u, 1, 5, true, true, "payload"), 5).1 == Rejected(AlreadyAccepted)
            && AcceptanceByKey(s, g, u, 1) == None
  {
    CreatorsGarageStarts(u, g);
  }

  // ---- accepted_time ----

  lemma SerialEffectKeepsAcceptedTime(s: Tables, op: Op, g: GarageId, u: UserId)
    requires Serial(op) && AcceptedOwner(s, g, u) && Owns(Apply(s, op).0, g, u)
    ensures Apply(s, op).0.garages[g].owners[u] == s.garages[g].owners[u]
  {
    StepIsEffect(s, op, g);
    if op.AcceptOp? { AcceptIsChecksThenWrites(s, op.a, op.now); }
    if op.RedeemOp? { RedeemIsChecksThenWrites(s, op.key, op.u, op.now); }
  }

  /** In serial runs a set accepted_time never changes while the owner row survives. */
  lemma {:induction false} AcceptedTimeIsStable(s: Tables, ops: seq<Op>, g: GarageId, u: UserId)
    requires forall i | 0 <= i < |ops| :: Serial(ops[i])
    requires AcceptedOwner(s, g, u) && Stays(s, ops, g, u)
    ensures Owns(Run(s, ops), g, u) && Run(s, ops).garages[g].owners[u] == s.garages[g].owners[u]
  {
    if |ops| == 0 {
    } else {
      StaysSplits(s, ops, g, u);
      AcceptedTimeIsStable(s, ops[..|ops| - 1], g, u);
      SerialEffectKeepsAcceptedTime(Run(s, ops[..|ops| - 1]), ops[|ops| - 1], g, u);
    }
  }

  function CreatorsGarage(u: UserId, g: GarageId): Garage {
    Garage(g, "garage", 1, 0, u, [OwnerEntry(u, 0, Some(0))], true, true, "payload")
  }

  lemma CreatorsGarageStarts(u: UserId, g: GarageId)
    ensures var s := Run(Empty({u}), [CreateOp(CreatorsGarage(u, g), 0)]);
            && s.accounts == {u} && s.invites == map[] && s.garages.Keys == {g}
            && s.garages[g].owners == map[u := OwnerRow(0, 1, Some(0))] && s.garages[g].acceptances == map[]
  {
    var p := CreatorsGarage(u, g);
    assert p.owners[0].user == u;
    assert Names(p.owners, u) && FirstEntry(p.owners, u) == p.owners[0];
    assert Run(Empty({u}), [CreateOp(p, 0)]) == Create(Run(Empty({u}), []), p, 0).0;
  }

  // ---- Every garage keeps an accepted owner ----

  /** What the protocol library's Validate is taken to guarantee. */
  predicate SignerIsAcceptedOwner(p: Garage) {
    exists i :: 0 <= i < |p.owners| && p.owners[i].user == p.signedBy && p.owners[i].accepted.Some?
  }

  predicate ValidatedBySigner(op: Op) {
    (op.CreateOp? || op.AppendOp? || op.AppendStale?) && op.p.valid ==> SignerIsAcceptedOwner(op.p)
  }

  ghost predicate HasAcceptedOwner(g: GarageState) {
    exists u :: u in g.owners && g.owners[u].accepted.Some?
  }

  lemma {:induction false} AcceptingEntryIsFound(entries: seq<OwnerEntry>, i: int)
    requires 0 <= i < |entries| && entries[i].accepted.Some?
    ensures LastAcceptance(entries, entries[i].user).Some?
  {
    if i < |entries| - 1 {
      AcceptingEntryIsFound(entries[..|entries| - 1], i);
    }
  }

  lemma {:induction false} OnlyEntryIsFirst(
    accounts: set<UserId>, owners: map<UserId, OwnerRow>, entries: seq<OwnerEntry>, i: int)
    requires InsertsAdmitted(accounts, owners, entries)
    requires 0 <= i < |entries| && entries[i].user !in owners
    ensures FirstEntry(entries, entries[i].user) == entries[i]
  {
    var n := |entries| - 1;
    if i < n {
      assert Names(entries[..n], entries[i].user) by { assert entries[..n][i] == entries[i]; }
      OnlyEntryIsFirst(accounts, owners, entries[..n], i);
    }
  }

  lemma SignerEndsUpAccepted(accounts: set<UserId>, owners: map<UserId, OwnerRow>, p: Garage)
    requires InsertsAdmitted(accounts, owners, p.owners) && SignerIsAcceptedOwner(p)
    ensures p.signedBy in Reconciled(owners, p.version, p.owners)
    ensures Reconciled(owners, p.version, p.owners)[p.signedBy].accepted.Some?
    ensures p.signedBy in Upserted(owners, p.version, p.owners)
    ensures Upserted(owners, p.version, p.owners)[p.signedBy].accepted.Some?
  {
    var i :| 0 <= i < |p.owners| && p.owners[i].user == p.signedBy && p.owners[i].accepted.Some?;
    if p.signedBy in owners {
      AcceptingEntryIsFound(p.owners, i);
    } else {
      OnlyEntryIsFirst(accounts, owners, p.owners, i);
    }
  }

  lemma StepKeepsAcceptedOwner(s: Tables, op: Op, g: GarageId)
    requires ValidatedBySigner(op)
    requires g in s.garages ==> HasAcceptedOwner(s.garages[g])
    requires g in Apply(s, op).0.garages
    ensures HasAcceptedOwner(Apply(s, op).0.garages[g])
  {
    var g' := Apply(s, op).0.garages[g];
    if g in s.garages {
      StepIsEffect(s, op, g);
      var e := EffectOn(s, op, g);
      var u :| u in s.garages[g].owners && s.garages[g].owners[u].accepted.Some?;
      if e.Advance? {
        SignerEndsUpAccepted(s.accounts, s.garages[g].owners, e.p);
        assert e.p.signedBy in g'.owners;
      } else {
        assert u in g'.owners;
      }
    } else {
      SignerEndsUpAccepted(s.accounts, map[], op.p);
      assert op.p.signedBy in g'.owners;
    }
  }

  /** If Validate holds the signer to be an accepted owner, no reachable garage is without one. */
  lemma {:induction false} EveryGarageHasAnAcceptedOwner(accounts: set<UserId>, ops: seq<Op>, g: GarageId)
    requires forall i | 0 <= i < |ops| :: ValidatedBySigner(ops[i])
    requires g in Run(Empty(accounts), ops).garages
    ensures HasAcceptedOwner(Run(Empty(accounts), ops).garages[g])
  {
    var before := ops[..|ops| - 1];
    if g in Run(Empty(accounts), before).garages {
      EveryGarageHasAnAcceptedOwner(accounts, before, g);
    }
    StepKeepsAcceptedOwner(Run(Empty(accounts), before), ops[|ops| - 1], g);
  }
}
