/**
 Runs of the garage ownership machine: any sequence of transactions, including appends,
 acceptances and redemptions whose checks read a stale state. What every run keeps, and what it never does.
 */
module GarageRuns {
  import opened Prelude
  import opened GarageTables

  datatype Op =
    | Enroll(user: UserId)
    | CreateOp(p: Garage, now: Time)
    | AppendOp(p: Garage)
    | AppendStale(p: Garage)
    | AcceptOp(a: Acceptance, now: Time)
    | AcceptStale(a: Acceptance, now: Time)
    | IssueOp(key: InviteKey, g: GarageId, creator: UserId, lifetime: int, max: int, now: Time)
    | RevokeOp(g: GarageId, key: InviteKey, now: Time)
    | RedeemOp(key: InviteKey, u: UserId, now: Time)
    | RedeemStale(key: InviteKey, u: UserId, now: Time)

  /** A stale step is the write part of a transaction whose checks saw some other state. */
  predicate Serial(op: Op) {
    !op.AppendStale? && !op.AcceptStale? && !op.RedeemStale?
  }

  function Apply(s: Tables, op: Op): (Tables, Outcome) {
    match op
    case Enroll(u) => (s.(accounts := s.accounts + {u}), Done)
    case CreateOp(p, now) => Create(s, p, now)
    case AppendOp(p) => Append(s, p)
    case AppendStale(p) => if WellFormed(p) then AppendWrites(s, p) else (s, Rejected(Invalid))
    case AcceptOp(a, now) => Accept(s, a, now)
    case AcceptStale(a, now) => if WellFormedAcceptance(a) then AcceptWrites(s, a, now) else (s, Rejected(Invalid))
    case IssueOp(key, g, creator, lifetime, max, now) => IssueInvite(s, key, g, creator, lifetime, max, now)
    case RevokeOp(g, key, now) => Revoke(s, g, key, now)
    case RedeemOp(key, u, now) => Redeem(s, key, u, now)
    case RedeemStale(key, u, now) => RedeemWrites(s, key, u, now)
  }

  function Run(s: Tables, ops: seq<Op>): Tables {
    if |ops| == 0 then s else Apply(Run(s, ops[..|ops| - 1]), ops[|ops| - 1]).0
  }

  function Empty(accounts: set<UserId>): Tables {
    Tables(accounts, map[], map[])
  }

  // ---- When the checks of a stale step ran ----

  /** The state in which the i-th step runs. */
  function At(accounts: set<UserId>, ops: seq<Op>, i: nat): Tables
    requires i <= |ops|
  {
    Run(Empty(accounts), ops[..i])
  }

  lemma StepAt(accounts: set<UserId>, ops: seq<Op>, i: nat)
    requires i < |ops|
    ensures At(accounts, ops, i + 1) == Apply(At(accounts, ops, i), ops[i]).0
  {
    assert ops[..i + 1][..i] == ops[..i];
  }

  /** The acceptance or redemption whose writes are this step would have passed its checks in this state. */
  predicate Passes(s: Tables, op: Op) {
    match op
    case AcceptStale(a, _) => AcceptChecks(s, a)
    case RedeemStale(key, u, now) => RedeemChecks(s, key, u, now)
    case _ => true
  }

  /** Its checks passed in some state at or before the one in which its writes run. */
  ghost predicate WasChecked(accounts: set<UserId>, ops: seq<Op>, i: nat)
    requires i < |ops|
  {
    exists n: nat :: n <= i && Passes(At(accounts, ops, n), ops[i])
  }

  ghost predicate AcceptsChecked(accounts: set<UserId>, ops: seq<Op>) {
    forall i: nat | i < |ops| && ops[i].AcceptStale? :: WasChecked(accounts, ops, i)
  }

  /** Every acceptance and redemption whose writes run by themselves was checked before. */
  ghost predicate Checked(accounts: set<UserId>, ops: seq<Op>) {
    forall i: nat | i < |ops| :: WasChecked(accounts, ops, i)
  }

  // ---- Invariants of one garage ----

  /** The head is the highest stored version and carries that revision's columns. */
  ghost predicate ChainOk(id: GarageId, g: GarageState) {
    && 1 in g.revisions
    && g.head.version in g.revisions
    && g.head.name == g.revisions[g.head.version].name
    && g.head.revisionTime == g.revisions[g.head.version].revisionTime
    && (forall v | v in g.revisions ::
          1 <= v <= g.head.version && g.revisions[v].id == id && g.revisions[v].version == v)
  }

  /** Every stored revision after `since` names `u`. */
  ghost predicate NamedSince(g: GarageState, u: UserId, since: int) {
    forall v | v in g.revisions && v > since :: Names(g.revisions[v].owners, u)
  }

  /** Unbroken membership, with the references each owner row makes. */
  ghost predicate MembershipOk(accounts: set<UserId>, g: GarageState) {
    forall u | u in g.owners ::
      var row := g.owners[u];
      && u in accounts
      && row.addedIn in g.revisions
      && NamedSince(g, u, row.addedIn)
      && (row.accepted.None? ==> Names(g.revisions[row.addedIn].owners, u))
  }

  ghost predicate GarageOk(accounts: set<UserId>, id: GarageId, g: GarageState) {
    ChainOk(id, g) && MembershipOk(accounts, g)
  }

  /** The counter counts the redemption rows and respects the limit. */
  ghost predicate InviteOk(s: Tables, inv: Invite) {
    && inv.garage in s.garages
    && inv.count == |inv.redemptions|
    && inv.count <= inv.maxRedemptions
  }

  ghost predicate Inv(s: Tables) {
    && (forall id | id in s.garages :: GarageOk(s.accounts, id, s.garages[id]))
    && (forall key | key in s.invites :: InviteOk(s, s.invites[key]))
  }

  lemma CreatedOk(accounts: set<UserId>, p: Garage, g: GarageState)
    requires InsertsAdmitted(accounts, map[], p.owners) && p.version == 1
    requires g.revisions == map[1 := p] && g.owners == Upserted(map[], 1, p.owners) && g.acceptances == map[]
    requires g.head.version == 1 && g.head.name == p.name && g.head.revisionTime == p.revisionTime
    ensures GarageOk(accounts, p.id, g)
  {
  }

  lemma AdvancedOk(accounts: set<UserId>, g: GarageState, p: Garage)
    requires GarageOk(accounts, p.id, g)
    requires g.head.version < p.version && InsertsAdmitted(accounts, g.owners, p.owners)
    ensures GarageOk(accounts, p.id, Advanced(g, p))
  {
    var g' := Advanced(g, p);
    assert ChainOk(p.id, g');
    forall u | u in g'.owners
      ensures u in accounts && g'.owners[u].addedIn in g'.revisions && NamedSince(g', u, g'.owners[u].addedIn)
      ensures g'.owners[u].accepted.None? ==> Names(g'.revisions[g'.owners[u].addedIn].owners, u)
    {
      if u in g.owners {
        assert g'.owners[u].addedIn == g.owners[u].addedIn;
      }
    }
  }

  lemma WithAcceptanceOk(accounts: set<UserId>, id: GarageId, g: GarageState, a: Acceptance, now: Time)
    requires GarageOk(accounts, id, g)
    ensures GarageOk(accounts, id, WithAcceptance(g, a, now))
  {
  }

  lemma JoinedOk(accounts: set<UserId>, id: GarageId, g: GarageState, u: UserId, now: Time)
    requires GarageOk(accounts, id, g) && u in accounts
    ensures GarageOk(accounts, id, Joined(g, u, now))
  {
    var g' := Joined(g, u, now);
    assert u in g'.owners && NamedSince(g', u, g'.owners[u].addedIn);
  }

  /** Replacing one garage by a sound one, with the invites untouched, is sound. */
  lemma ReplaceGarageKeepsInv(s: Tables, id: GarageId, g: GarageState)
    requires Inv(s) && GarageOk(s.accounts, id, g)
    ensures Inv(s.(garages := s.garages[id := g]))
  {
  }

  lemma AppendWritesKeepsInv(s: Tables, p: Garage)
    requires Inv(s)
    ensures Inv(AppendWrites(s, p).0)
  {
    if AppendWrites(s, p).1 == Done {
      AdvancedOk(s.accounts, s.garages[p.id], p);
      ReplaceGarageKeepsInv(s, p.id, Advanced(s.garages[p.id], p));
    }
  }

  lemma RedeemWritesKeepsInv(s: Tables, key: InviteKey, u: UserId, now: Time)
    requires Inv(s)
    ensures Inv(RedeemWrites(s, key, u, now).0)
  {
    if RedeemWrites(s, key, u, now).1 == Done {
      var id := s.invites[key].garage;
      JoinedOk(s.accounts, id, s.garages[id], u, now);
      ReplaceGarageKeepsInv(s, id, Joined(s.garages[id], u, now));
    }
  }

  lemma CreateKeepsInv(s: Tables, p: Garage, now: Time)
    requires Inv(s)
    ensures Inv(Create(s, p, now).0)
  {
    var s' := Create(s, p, now).0;
    if Create(s, p, now).1 == Done {
      CreatedOk(s.accounts, p, s'.garages[p.id]);
      ReplaceGarageKeepsInv(s, p.id, s'.garages[p.id]);
    }
  }

  lemma AcceptWritesKeepsInv(s: Tables, a: Acceptance, now: Time)
    requires Inv(s)
    ensures Inv(AcceptWrites(s, a, now).0)
  {
    if AcceptWrites(s, a, now).1 == Done {
      WithAcceptanceOk(s.accounts, a.garage, s.garages[a.garage], a, now);
      ReplaceGarageKeepsInv(s, a.garage, WithAcceptance(s.garages[a.garage], a, now));
    }
  }

  lemma EnrollKeepsInv(s: Tables, u: UserId)
    requires Inv(s)
    ensures Inv(s.(accounts := s.accounts + {u}))
  {
    assert forall id | id in s.garages :: GarageOk(s.accounts + {u}, id, s.garages[id]);
  }

  lemma ReplaceInviteKeepsInv(s: Tables, key: InviteKey, inv: Invite)
    requires Inv(s) && InviteOk(s, inv)
    ensures Inv(s.(invites := s.invites[key := inv]))
  {
  }

  lemma IssueKeepsInv(s: Tables, key: InviteKey, g: GarageId, creator: UserId, lifetime: int, max: int, now: Time)
    requires Inv(s)
    ensures Inv(IssueInvite(s, key, g, creator, lifetime, max, now).0)
  {
    var r := IssueInvite(s, key, g, creator, lifetime, max, now);
    if r.1 == Done { ReplaceInviteKeepsInv(s, key, r.0.invites[key]); }
  }

  lemma RevokeKeepsInv(s: Tables, g: GarageId, key: InviteKey, now: Time)
    requires Inv(s)
    ensures Inv(Revoke(s, g, key, now).0)
  {
    var r := Revoke(s, g, key, now);
    if r.0 != s { ReplaceInviteKeepsInv(s, key, r.0.invites[key]); }
  }

  lemma StepKeepsInv(s: Tables, op: Op)
    requires Inv(s)
    ensures Inv(Apply(s, op).0)
  {
    match op
    case Enroll(u) => EnrollKeepsInv(s, u);
    case CreateOp(p, now) => CreateKeepsInv(s, p, now);
    case AppendOp(p) => if Append(s, p).0 != s { AppendWritesKeepsInv(s, p); }
    case AppendStale(p) => if Apply(s, op).0 != s { AppendWritesKeepsInv(s, p); }
    case AcceptOp(a, now) => if Accept(s, a, now).0 != s { AcceptWritesKeepsInv(s, a, now); }
    case AcceptStale(a, now) => if Apply(s, op).0 != s { AcceptWritesKeepsInv(s, a, now); }
    case IssueOp(key, g, creator, lifetime, max, now) => IssueKeepsInv(s, key, g, creator, lifetime, max, now);
    case RevokeOp(g, key, now) => RevokeKeepsInv(s, g, key, now);
    case RedeemOp(key, u, now) => if Redeem(s, key, u, now).0 != s { RedeemWritesKeepsInv(s, key, u, now); }
    case RedeemStale(key, u, now) => RedeemWritesKeepsInv(s, key, u, now);
  }

  /** Every run from empty tables, stale steps included, keeps the invariants. */
  lemma {:induction false} RunKeepsInv(accounts: set<UserId>, ops: seq<Op>)
    ensures Inv(Run(Empty(accounts), ops))
  {
    if |ops| == 0 {
    } else {
      RunKeepsInv(accounts, ops[..|ops| - 1]);
      StepKeepsInv(Run(Empty(accounts), ops[..|ops| - 1]), ops[|ops| - 1]);
    }
  }

  // ---- An acceptance binds to one invitation ----

  /** A pending invitation and an acceptance of it never coexist. */
  ghost predicate BindingOk(g: GarageState) {
    && (forall a | a in g.acceptances :: a.1 in g.revisions)
    && (forall u | u in g.owners && g.owners[u].accepted.None? :: (u, g.owners[u].addedIn) !in g.acceptances)
  }

  ghost predicate AllBound(s: Tables) {
    forall id | id in s.garages :: BindingOk(s.garages[id])
  }

  lemma WithAcceptanceBinds(g: GarageState, a: Acceptance, now: Time)
    requires BindingOk(g) && a.version in g.revisions
    ensures BindingOk(WithAcceptance(g, a, now))
  {
  }

  lemma AdvancedBinds(id: GarageId, g: GarageState, p: Garage)
    requires ChainOk(id, g) && BindingOk(g) && g.head.version < p.version
    ensures BindingOk(Advanced(g, p))
  {
    var g' := Advanced(g, p);
    forall u | u in g'.owners && g'.owners[u].accepted.None? ensures (u, g'.owners[u].addedIn) !in g'.acceptances {
      if u in g.owners {
        assert g'.owners[u].addedIn == g.owners[u].addedIn && g.owners[u].accepted.None?;
      } else {
        assert p.version !in g.revisions;
      }
    }
  }

  lemma ReplaceKeepsBound(s: Tables, id: GarageId, g: GarageState)
    requires AllBound(s) && BindingOk(g)
    ensures AllBound(s.(garages := s.garages[id := g]))
  {
  }

  lemma AppendWritesKeepsBound(s: Tables, p: Garage)
    requires Inv(s) && AllBound(s)
    ensures AllBound(AppendWrites(s, p).0)
  {
    if AppendWrites(s, p).1 == Done {
      assert GarageOk(s.accounts, p.id, s.garages[p.id]);
      AdvancedBinds(p.id, s.garages[p.id], p);
      ReplaceKeepsBound(s, p.id, Advanced(s.garages[p.id], p));
    }
  }

  lemma AcceptWritesKeepsBound(s: Tables, a: Acceptance, now: Time)
    requires AllBound(s) && (a.garage in s.garages ==> a.version in s.garages[a.garage].revisions)
    ensures AllBound(AcceptWrites(s, a, now).0)
  {
    if AcceptWrites(s, a, now).1 == Done {
      WithAcceptanceBinds(s.garages[a.garage], a, now);
      ReplaceKeepsBound(s, a.garage, WithAcceptance(s.garages[a.garage], a, now));
    }
  }

  lemma RedeemWritesKeepsBound(s: Tables, key: InviteKey, u: UserId, now: Time)
    requires AllBound(s)
    ensures AllBound(RedeemWrites(s, key, u, now).0)
  {
    if RedeemWrites(s, key, u, now).1 == Done {
      var id := s.invites[key].garage;
      assert BindingOk(Joined(s.garages[id], u, now)) by { assert BindingOk(s.garages[id]); }
      ReplaceKeepsBound(s, id, Joined(s.garages[id], u, now));
    }
  }

  lemma CheckNamesARevision(s: Tables, a: Acceptance)
    requires Inv(s) && AcceptChecks(s, a)
    ensures a.version in s.garages[a.garage].revisions
  {
    assert GarageOk(s.accounts, a.garage, s.garages[a.garage]);
  }

  lemma AppendKeepsBound(s: Tables, p: Garage)
    requires Inv(s) && AllBound(s)
    ensures AllBound(Append(s, p).0)
  {
    AppendWritesKeepsBound(s, p);
  }

  lemma RedeemKeepsBound(s: Tables, key: InviteKey, u: UserId, now: Time)
    requires AllBound(s)
    ensures AllBound(Redeem(s, key, u, now).0)
  {
    RedeemWritesKeepsBound(s, key, u, now);
    RedeemIsChecksThenWrites(s, key, u, now);
  }

  lemma CreateKeepsBound(s: Tables, p: Garage, now: Time)
    requires AllBound(s)
    ensures AllBound(Create(s, p, now).0)
  {
    if Create(s, p, now).1 == Done {
      ReplaceKeepsBound(s, p.id, Create(s, p, now).0.garages[p.id]);
    }
  }

  lemma AcceptKeepsBound(s: Tables, a: Acceptance, now: Time)
    requires Inv(s) && AllBound(s)
    ensures AllBound(Accept(s, a, now).0)
  {
    if AcceptChecks(s, a) {
      CheckNamesARevision(s, a);
      AcceptWritesKeepsBound(s, a, now);
    }
  }

  lemma StepKeepsBound(s: Tables, op: Op)
    requires Inv(s) && AllBound(s)
    requires op.AcceptStale? && op.a.garage in s.garages ==> op.a.version in s.garages[op.a.garage].revisions
    ensures AllBound(Apply(s, op).0)
  {
    match op
    case CreateOp(p, now) => CreateKeepsBound(s, p, now);
    case AppendOp(p) => AppendKeepsBound(s, p);
    case AppendStale(p) => if WellFormed(p) { AppendWritesKeepsBound(s, p); }
    case AcceptOp(a, now) => AcceptKeepsBound(s, a, now);
    case AcceptStale(a, now) => if WellFormedAcceptance(a) { AcceptWritesKeepsBound(s, a, now); }
    case RedeemOp(key, u, now) => RedeemKeepsBound(s, key, u, now);
    case RedeemStale(key, u, now) => RedeemWritesKeepsBound(s, key, u, now);
    case _ => assert Apply(s, op).0.garages == s.garages;
  }

  lemma StepKeepsRevisions(s: Tables, op: Op, id: GarageId, v: int)
    requires id in s.garages && v in s.garages[id].revisions
    ensures id in Apply(s, op).0.garages && v in Apply(s, op).0.garages[id].revisions
  {
  }

  lemma {:induction false} RevisionsStay(accounts: set<UserId>, ops: seq<Op>, n: nat, i: nat, id: GarageId, v: int)
    requires n <= i <= |ops|
    requires id in At(accounts, ops, n).garages && v in At(accounts, ops, n).garages[id].revisions
    ensures id in At(accounts, ops, i).garages && v in At(accounts, ops, i).garages[id].revisions
  {
    if i == n {
    } else {
      RevisionsStay(accounts, ops, n, i - 1, id, v);
      StepAt(accounts, ops, i - 1);
      StepKeepsRevisions(At(accounts, ops, i - 1), ops[i - 1], id, v);
    }
  }

  lemma CheckedVersionIsStored(accounts: set<UserId>, ops: seq<Op>, n: nat, i: nat)
    requires n <= i < |ops| && ops[i].AcceptStale? && Passes(At(accounts, ops, n), ops[i])
    ensures var a := ops[i].a; var s := At(accounts, ops, i);
            a.garage in s.garages && a.version in s.garages[a.garage].revisions
  {
    RunKeepsInv(accounts, ops[..n]);
    CheckNamesARevision(At(accounts, ops, n), ops[i].a);
    RevisionsStay(accounts, ops, n, i, ops[i].a.garage, ops[i].a.version);
  }

  lemma StaleAcceptNamesARevision(accounts: set<UserId>, ops: seq<Op>, i: nat)
    requires i < |ops| && AcceptsChecked(accounts, ops) && ops[i].AcceptStale?
    ensures var a := ops[i].a; var s := At(accounts, ops, i);
            a.garage in s.garages && a.version in s.garages[a.garage].revisions
  {
    assert WasChecked(accounts, ops, i);
    var n: nat :| n <= i && Passes(At(accounts, ops, n), ops[i]);
    CheckedVersionIsStored(accounts, ops, n, i);
  }

  /**
   In every run whose acceptances were checked at some time before their writes, a pending
   row never coexists with an acceptance of the invitation it stands for.
   */
  lemma {:induction false} RunKeepsBinding(accounts: set<UserId>, ops: seq<Op>, i: nat)
    requires i <= |ops| && AcceptsChecked(accounts, ops)
    ensures AllBound(At(accounts, ops, i))
  {
    if i == 0 {
    } else {
      RunKeepsBinding(accounts, ops, i - 1);
      RunKeepsInv(accounts, ops[..i - 1]);
      StepAt(accounts, ops, i - 1);
      if ops[i - 1].AcceptStale? { StaleAcceptNamesARevision(accounts, ops, i - 1); }
      StepKeepsBound(At(accounts, ops, i - 1), ops[i - 1]);
    }
  }

  // ---- Appends whose check is fresh ----

  /** A version above the head is free, so an append whose check was fresh never meets a version conflict. */
  lemma {:induction false} FreshAppendNeverConflicts(accounts: set<UserId>, ops: seq<Op>, p: Garage)
    ensures var s := Run(Empty(accounts), ops);
            Append(s, p).1 == Rejected(VersionConflict) <==>
              && p.valid && p.signed && p.payload != ""
              && p.id in s.garages && p.version <= s.garages[p.id].head.version
    ensures var s := Run(Empty(accounts), ops);
            p.id in s.garages && p.version > s.garages[p.id].head.version ==> p.version !in s.garages[p.id].revisions
  {
    RunKeepsInv(accounts, ops);
    var s := Run(Empty(accounts), ops);
    if p.id in s.garages { assert GarageOk(s.accounts, p.id, s.garages[p.id]); }
  }

  /** Whoever the entries add to `owners` has an account and is added once. */
  predicate AddsAccountsOnce(accounts: set<UserId>, owners: map<UserId, OwnerRow>, entries: seq<OwnerEntry>) {
    && (forall i | 0 <= i < |entries| :: entries[i].user in owners || entries[i].user in accounts)
    && (forall i, j | 0 <= i < j < |entries| && entries[i].user == entries[j].user :: entries[i].user in owners)
  }

  lemma AddsAreInserts(accounts: set<UserId>, owners: map<UserId, OwnerRow>, entries: seq<OwnerEntry>)
    ensures AddsAccountsOnce(accounts, owners, entries) <==> InsertsAdmitted(accounts, owners, entries)
  {
  }

  /** When a fresh append commits, and what each refusal means. */
  lemma AppendExactlyWhen(accounts: set<UserId>, ops: seq<Op>, p: Garage)
    ensures var s := Run(Empty(accounts), ops);
            var out := Append(s, p).1;
            var sound := p.valid && p.signed && p.payload != "";
            && (out == Rejected(Invalid) <==> !sound)
            && (out == Rejected(GarageNotFound) <==> sound && p.id !in s.garages)
            && (out == Done <==>
                  && sound && p.id in s.garages && s.garages[p.id].head.version < p.version
                  && p.signedBy in s.accounts && AddsAccountsOnce(s.accounts, s.garages[p.id].owners, p.owners))
  {
    FreshAppendNeverConflicts(accounts, ops, p);
    var s := Run(Empty(accounts), ops);
    if p.id in s.garages { AddsAreInserts(s.accounts, s.garages[p.id].owners, p.owners); }
  }

  /** A garage is created exactly by a sound first version under a new id, for owners with accounts. */
  lemma CreateExactlyWhen(s: Tables, p: Garage, now: Time)
    ensures var out := Create(s, p, now).1;
            var sound := p.valid && p.signed && p.payload != "" && p.version == 1;
            && (out == Rejected(Invalid) <==> !sound)
            && (out == Rejected(IdInUse) <==> sound && p.id in s.garages)
            && (out == Done <==>
                  && sound && p.id !in s.garages
                  && p.signedBy in s.accounts && AddsAccountsOnce(s.accounts, map[], p.owners))
  {
    AddsAreInserts(s.accounts, map[], p.owners);
  }
}
