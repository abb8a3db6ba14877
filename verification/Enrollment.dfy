/**
 Client-app enrollment: one transaction over accounts, client apps, invites and issued
 certificates, and what every run of issuing, consuming and registering keeps.
 */
module Enrollment {
  import opened Prelude
  import opened SqliteTime
  import Invites
  import Serial

  datatype Account = Account(openCaravanId: string)
  datatype ClientApp = ClientApp(user: UserId)
  datatype Certificate = Certificate(user: UserId, app: string)

  datatype Db = Db(
    accounts: map<UserId, Account>,
    apps: map<string, ClientApp>,
    invites: Invites.Table,
    certificates: map<string, Certificate>)

  datatype Registration = Registration(
    user: UserId, openCaravanId: string, app: string, token: string, serial: Option<nat>)

  datatype Outcome =
    | Registered
    | Incomplete
    | AccountTaken
    | AppTaken
    | InviteRefused(why: Invites.Outcome)
    | SerialTaken

  predicate Complete(reg: Registration) {
    && reg.user.text != "" && reg.app != "" && reg.openCaravanId != "" && reg.token != "" && reg.serial.Some?
  }

  predicate AccountFree(db: Db, reg: Registration) {
    reg.user !in db.accounts && forall u | u in db.accounts :: db.accounts[u].openCaravanId != reg.openCaravanId
  }

  /** The database with the three new rows and the invites as given. */
  function Inserted(db: Db, reg: Registration, invites: Invites.Table, serial: string): Db {
    Db(db.accounts[reg.user := Account(reg.openCaravanId)],
       db.apps[reg.app := ClientApp(reg.user)],
       invites,
       db.certificates[serial := Certificate(reg.user, reg.app)])
  }

  /** RegisterClientApp as one step: all four writes or none. */
  function Register(db: Db, reg: Registration, now: Instant): (Db, Outcome) {
    if !Complete(reg) then (db, Incomplete)
    else if !AccountFree(db, reg) then (db, AccountTaken)
    else if reg.app in db.apps then (db, AppTaken)
    else
      var consumed := Invites.Consume(db.invites, reg.token, reg.app, now);
      if consumed.1 != Invites.Ok then (db, InviteRefused(consumed.1))
      else if Serial.Hex(reg.serial.value) in db.certificates then (db, SerialTaken)
      else
        (Inserted(db, reg, consumed.0, Serial.Hex(reg.serial.value)), Registered)
  }

  // ---- The store ----

  class Store {
    var accounts: map<UserId, Account>
    var apps: map<string, ClientApp>
    var invites: Invites.Table
    var certificates: map<string, Certificate>

    constructor ()
      ensures Contents() == Empty()
    {
      accounts, apps, invites, certificates := map[], map[], map[], map[];
    }

    function Contents(): Db
      reads this
    {
      Db(accounts, apps, invites, certificates)
    }

    method RollBackTo(db: Db)
      modifies this
      ensures Contents() == db
    {
      accounts, apps, invites, certificates := db.accounts, db.apps, db.invites, db.certificates;
    }

    method IssueInvite(hash: string, scope: string, now: Instant, expiration: Instant)
      returns (outcome: Invites.Outcome)
      modifies this`invites
      ensures (invites, outcome) == Invites.Issue(old(invites), hash, scope, now, expiration)
    {
      if !Invites.ValidScope(scope) || expiration <= now { return Invites.Failed; }
      if hash in invites { return Invites.Failed; }
      invites := invites[hash := Invites.NewRow(scope, now, expiration, None)];
      return Invites.Ok;
    }

    /** COUNT then INSERT. */
    method IssueInviteBy(hash: string, scope: string, now: Instant, expiration: Instant, u: UserId, max: int)
      returns (outcome: Invites.Outcome)
      modifies this`invites
      ensures (invites, outcome) ==
              Invites.IssueBy(old(invites), hash, scope, now, expiration, u, max, u in accounts)
    {
      if !Invites.ValidScope(scope) || expiration <= now || u.text == "" || max < 1 { return Invites.Failed; }
      var outstanding := |Invites.Outstanding(invites, u, scope, now)|;
      if outstanding >= max { return Invites.Limit; }
      if hash in invites || u !in accounts { return Invites.Failed; }
      invites := invites[hash := Invites.NewRow(scope, now, expiration, Some(u))];
      return Invites.Ok;
    }

    /** The conditional UPDATE, then a look at the row to tell why it failed. */
    method ConsumeInvite(hash: string, app: string, now: Instant) returns (outcome: Invites.Outcome)
      modifies this`invites
      ensures (invites, outcome) == Invites.Consume(old(invites), hash, app, now)
    {
      if app == "" { return Invites.Failed; }
      var updated := 0;
      if hash in invites && Invites.Redeemable(invites[hash], now) {
        invites := invites[hash := Invites.Used(invites[hash], app, now)];
        updated := 1;
      }
      if updated == 0 {
        if hash !in invites { return Invites.NotFound; }
        if !Invites.Readable(invites[hash]) { return Invites.Failed; }
        return if invites[hash].used.Some? then Invites.AlreadyUsed else Invites.Expired;
      }
      return if Invites.Readable(invites[hash]) then Invites.Ok else Invites.Failed;
    }

    /** Writes table by table; any failure restores what the transaction began with. */
    method RegisterClientApp(reg: Registration, now: Instant) returns (outcome: Outcome)
      modifies this
      ensures (Contents(), outcome) == Register(old(Contents()), reg, now)
    {
      if !Complete(reg) { return Incomplete; }
      var begin := Contents();
      if !AccountFree(begin, reg) { return AccountTaken; }
      accounts := accounts[reg.user := Account(reg.openCaravanId)];
      if reg.app in apps {
        RollBackTo(begin);
        return AppTaken;
      }
      apps := apps[reg.app := ClientApp(reg.user)];
      var why := ConsumeInvite(reg.token, reg.app, now);
      ghost var consumed := Invites.Consume(begin.invites, reg.token, reg.app, now);
      assert invites == consumed.0 && why == consumed.1;
      if why != Invites.Ok {
        RollBackTo(begin);
        return InviteRefused(why);
      }
      var serial := Serial.Hex(reg.serial.value);
      if serial in certificates {
        RollBackTo(begin);
        return SerialTaken;
      }
      certificates := certificates[serial := Certificate(reg.user, reg.app)];
      assert Contents() == Inserted(begin, reg, consumed.0, serial);
      return Registered;
    }
  }

  // ---- Runs ----

  datatype Op =
    | Issue(hash: string, scope: string, now: Instant, expiration: Instant)
    | IssueBy(hash: string, scope: string, now: Instant, expiration: Instant, u: UserId, max: int)
    | Consume(token: string, app: string, now: Instant)
    | Enroll(reg: Registration, now: Instant)

  function Empty(): Db {
    Db(map[], map[], map[], map[])
  }

  function Apply(db: Db, op: Op): Db {
    match op
    case Issue(hash, scope, now, expiration) =>
      db.(invites := Invites.Issue(db.invites, hash, scope, now, expiration).0)
    case IssueBy(hash, scope, now, expiration, u, max) =>
      db.(invites := Invites.IssueBy(db.invites, hash, scope, now, expiration, u, max, u in db.accounts).0)
    case Consume(token, app, now) => db.(invites := Invites.Consume(db.invites, token, app, now).0)
    case Enroll(reg, now) => Register(db, reg, now).0
  }

  function Run(ops: seq<Op>): Db {
    if |ops| == 0 then Empty() else Apply(Run(ops[..|ops| - 1]), ops[|ops| - 1])
  }

  // ---- Invite rows over runs ----

  /** A step adds unused invites and uses up redeemable ones; nothing else happens to the table. */
  predicate InviteStep(a: Invites.Table, b: Invites.Table) {
    && (forall h | h in a :: h in b && (b[h] == a[h] || UsedUp(a[h], b[h])))
    && (forall h | h in b && h !in a :: b[h].used.None?)
  }

  predicate UsedUp(a: Invites.Row, b: Invites.Row) {
    a.used.None? && b.used.Some? && b.usedBy.Some? && b == a.(used := b.used, usedBy := b.usedBy)
  }

  lemma StepsAreInviteSteps(db: Db, op: Op)
    ensures InviteStep(db.invites, Apply(db, op).invites)
  {
  }

  lemma StepKeepsReadable(db: Db, op: Op)
    requires Invites.AllReadable(db.invites)
    ensures Invites.AllReadable(Apply(db, op).invites)
  {
    match op
    case Issue(hash, scope, now, expiration) =>
      Invites.IssueKeepsReadable(db.invites, hash, scope, now, expiration);
    case IssueBy(hash, scope, now, expiration, u, max) =>
      Invites.IssueByKeepsReadable(db.invites, hash, scope, now, expiration, u, max, u in db.accounts);
    case Consume(token, app, now) => Invites.ConsumeKeepsReadable(db.invites, token, app, now);
    case Enroll(reg, now) => Invites.ConsumeKeepsReadable(db.invites, reg.token, reg.app, now);
  }

  /** In every reachable state every stored time parses. */
  lemma {:induction false} RunsStayReadable(ops: seq<Op>)
    ensures Invites.AllReadable(Run(ops).invites)
  {
    if |ops| == 0 {
    } else {
      RunsStayReadable(ops[..|ops| - 1]);
      StepKeepsReadable(Run(ops[..|ops| - 1]), ops[|ops| - 1]);
    }
  }

  /** An invite is consumed at most once, ever: a used row is never written again. */
  lemma {:induction false} OneConsumerEver(ops: seq<Op>, n: nat, h: string)
    requires n <= |ops| && h in Run(ops[..n]).invites
    ensures h in Run(ops).invites
    ensures var before, after := Run(ops[..n]).invites[h], Run(ops).invites[h];
            after.scope == before.scope && after.expiration == before.expiration && after.creator == before.creator
    ensures Run(ops[..n]).invites[h].used.Some? ==> Run(ops).invites[h] == Run(ops[..n]).invites[h]
  {
    if n == |ops| {
      assert ops[..n] == ops;
    } else {
      var before := ops[..|ops| - 1];
      assert before[..n] == ops[..n];
      OneConsumerEver(before, n, h);
      StepsAreInviteSteps(Run(before), ops[|ops| - 1]);
    }
  }

  // ---- The cap ----

  /** The cap in force for this user and scope throughout the run. */
  predicate CapInForce(ops: seq<Op>, u: UserId, scope: string, cap: nat) {
    forall i | 0 <= i < |ops| && ops[i].IssueBy? && ops[i].u == u && ops[i].scope == scope :: ops[i].max <= cap
  }

  lemma StepKeepsCap(db: Db, op: Op, u: UserId, scope: string, cap: nat)
    requires Invites.AllReadable(db.invites) && Invites.Capped(db.invites, u, scope, cap)
    requires op.IssueBy? && op.u == u && op.scope == scope ==> op.max <= cap
    ensures Invites.Capped(Apply(db, op).invites, u, scope, cap)
  {
    if op.IssueBy? && op.u == u && op.scope == scope
      && Invites.IssueBy(db.invites, op.hash, scope, op.now, op.expiration, u, op.max, u in db.accounts).1 == Invites.Ok
    {
      Invites.IssueByKeepsCap(db.invites, op.hash, scope, op.now, op.expiration, u, op.max, u in db.accounts, cap);
    } else {
      StepsAreInviteSteps(db, op);
      Invites.CapStands(db.invites, Apply(db, op).invites, u, scope, cap);
    }
  }

  lemma {:induction false} RunsStayCapped(ops: seq<Op>, u: UserId, scope: string, cap: nat)
    requires CapInForce(ops, u, scope, cap)
    ensures Invites.Capped(Run(ops).invites, u, scope, cap)
  {
    if |ops| == 0 {
      assert forall t: Instant :: Invites.OpenBy(map[], u, scope, t) == {};
    } else {
      var before := ops[..|ops| - 1];
      assert CapInForce(before, u, scope, cap);
      RunsStayCapped(before, u, scope, cap);
      RunsStayReadable(before);
      StepKeepsCap(Run(before), ops[|ops| - 1], u, scope, cap);
    }
  }

  /**
   However the clock readings of the commits are ordered, at every instant t: the user's
   invites of the scope issued by t and open at t are within the cap. What is counted at t
   beyond the cap was therefore issued after t, and the count exceeds the cap exactly when
   the open invites issued after t are more than the cap leaves room for.
   */
  lemma CapHoldsAtEveryInstant(ops: seq<Op>, u: UserId, scope: string, cap: nat, t: Instant)
    requires CapInForce(ops, u, scope, cap)
    ensures var table := Run(ops).invites;
            && |Invites.OpenBy(table, u, scope, t)| <= cap
            && (|Invites.Outstanding(table, u, scope, t)| > cap <==>
                  |Invites.IssuedAfter(table, u, scope, t)| > cap - |Invites.OpenBy(table, u, scope, t)|)
            && (|Invites.Outstanding(table, u, scope, t)| > cap ==> Invites.IssuedAfter(table, u, scope, t) != {})
  {
    RunsStayCapped(ops, u, scope, cap);
    Invites.OutstandingSplits(Run(ops).invites, u, scope, t);
  }

  /** In particular the whole count is within the cap at any instant at or after the user's latest issuance. */
  lemma CapHoldsInEveryRun(ops: seq<Op>, u: UserId, scope: string, cap: nat, t: Instant)
    requires CapInForce(ops, u, scope, cap) && Invites.IssuedBy(Run(ops).invites, u, scope, t)
    ensures |Invites.Outstanding(Run(ops).invites, u, scope, t)| <= cap
  {
    CapHoldsAtEveryInstant(ops, u, scope, cap, t);
    Invites.OutstandingSplits(Run(ops).invites, u, scope, t);
  }

  // ---- Conservation ----

  function UsedInvites(db: Db): set<string> {
    set h | h in db.invites && db.invites[h].used.Some?
  }

  /** The invite that let this app in. */
  predicate LetIn(db: Db, app: string, h: string) {
    h in db.invites && db.invites[h].used.Some? && db.invites[h].usedBy == Some(app)
  }

  ghost predicate Enrolled(db: Db, app: string) {
    exists h :: LetIn(db, app, h)
  }

  ghost predicate AppsLetIn(db: Db) {
    forall app | app in db.apps :: Enrolled(db, app)
  }

  ghost predicate Balanced(db: Db) {
    |db.accounts| == |db.apps| == |db.certificates| <= |UsedInvites(db)|
  }

  /** Every app belongs to an account and every certificate to an app of its user. */
  ghost predicate Linked(db: Db) {
    && (forall app | app in db.apps :: db.apps[app].user in db.accounts)
    && (forall s | s in db.certificates ::
          var c := db.certificates[s]; c.app in db.apps && db.apps[c.app].user == c.user)
  }

  /** No protocol identity has two accounts, no account two apps and no app two certificates. */
  ghost predicate OneEach(db: Db) {
    && (forall a, b | a in db.accounts && b in db.accounts
                      && db.accounts[a].openCaravanId == db.accounts[b].openCaravanId :: a == b)
    && (forall a, b | a in db.apps && b in db.apps && db.apps[a].user == db.apps[b].user :: a == b)
    && (forall s, t | s in db.certificates && t in db.certificates
                      && db.certificates[s].app == db.certificates[t].app :: s == t)
  }

  lemma InsertCounts<K, V>(m: map<K, V>, k: K, v: V)
    requires k !in m
    ensures |m[k := v]| == |m| + 1
  {
    assert m[k := v] - {k} == m;
  }

  lemma UsedGrows(db: Db, db': Db, h: string)
    requires InviteStep(db.invites, db'.invites)
    requires h in db.invites ==> db.invites[h].used.None?
    ensures |UsedInvites(db)| <= |UsedInvites(db')|
    ensures h in UsedInvites(db') ==> |UsedInvites(db)| + 1 <= |UsedInvites(db')|
  {
    Invites.SubsetCount(UsedInvites(db), UsedInvites(db'));
    if h in UsedInvites(db') {
      Invites.SubsetCount(UsedInvites(db) + {h}, UsedInvites(db'));
    }
  }

  /** What the insertions of a registration find: free keys everywhere. */
  predicate Fresh(db: Db, reg: Registration, serial: string) {
    && reg.user !in db.accounts && reg.app !in db.apps && serial !in db.certificates
    && forall u | u in db.accounts :: db.accounts[u].openCaravanId != reg.openCaravanId
  }

  lemma InsertedCounts(db: Db, reg: Registration, invites: Invites.Table, serial: string)
    requires Fresh(db, reg, serial)
    ensures var db' := Inserted(db, reg, invites, serial);
            && |db'.accounts| == |db.accounts| + 1 && |db'.apps| == |db.apps| + 1
            && |db'.certificates| == |db.certificates| + 1
  {
    InsertCounts(db.accounts, reg.user, Account(reg.openCaravanId));
    InsertCounts(db.apps, reg.app, ClientApp(reg.user));
    InsertCounts(db.certificates, serial, Certificate(reg.user, reg.app));
  }

  lemma InsertedLinks(db: Db, reg: Registration, invites: Invites.Table, serial: string)
    requires Fresh(db, reg, serial) && Linked(db) && OneEach(db)
    ensures Linked(Inserted(db, reg, invites, serial)) && OneEach(Inserted(db, reg, invites, serial))
  {
  }

  /** A step either registers, with free keys and an invite used up, or touches only invites. */
  lemma StepShape(db: Db, op: Op)
    ensures var db' := Apply(db, op);
            || db' == db.(invites := db'.invites)
            || (&& op.Enroll? && op.reg.serial.Some?
                && Fresh(db, op.reg, Serial.Hex(op.reg.serial.value))
                && db' == Inserted(db, op.reg, db'.invites, Serial.Hex(op.reg.serial.value))
                && (op.reg.token in db.invites ==> db.invites[op.reg.token].used.None?)
                && LetIn(db', op.reg.app, op.reg.token))
  {
  }

  lemma StepKeepsBalanced(db: Db, op: Op)
    requires Balanced(db)
    ensures Balanced(Apply(db, op))
  {
    var db' := Apply(db, op);
    StepsAreInviteSteps(db, op);
    StepShape(db, op);
    if db' == db.(invites := db'.invites) {
      Invites.SubsetCount(UsedInvites(db), UsedInvites(db'));
    } else {
      InsertedCounts(db, op.reg, db'.invites, Serial.Hex(op.reg.serial.value));
      UsedGrows(db, db', op.reg.token);
    }
  }

  lemma StepKeepsLinks(db: Db, op: Op)
    requires Linked(db) && OneEach(db)
    ensures Linked(Apply(db, op)) && OneEach(Apply(db, op))
  {
    var db' := Apply(db, op);
    StepShape(db, op);
    if db' != db.(invites := db'.invites) {
      InsertedLinks(db, op.reg, db'.invites, Serial.Hex(op.reg.serial.value));
    }
  }

  lemma StepKeepsAppsLetIn(db: Db, op: Op)
    requires AppsLetIn(db)
    ensures AppsLetIn(Apply(db, op))
  {
    var db' := Apply(db, op);
    StepsAreInviteSteps(db, op);
    StepShape(db, op);
    forall app | app in db'.apps ensures Enrolled(db', app) {
      if app in db.apps {
        assert Enrolled(db, app);
        var h :| LetIn(db, app, h);
        assert LetIn(db', app, h);
      } else {
        assert LetIn(db', app, op.reg.token);
      }
    }
  }

  /**
   In every run of issuing, consuming and registering, successful or not: as many accounts as
   client apps as certificates, linked one to one, no more than there are used invites, and
   each app let in by an invite that names it.
   */
  lemma {:induction false} EnrollmentConserves(ops: seq<Op>)
    ensures Balanced(Run(ops)) && Linked(Run(ops)) && OneEach(Run(ops)) && AppsLetIn(Run(ops))
  {
    if |ops| == 0 {
    } else {
      var db, op := Run(ops[..|ops| - 1]), ops[|ops| - 1];
      EnrollmentConserves(ops[..|ops| - 1]);
      StepKeepsBalanced(db, op);
      StepKeepsAppsLetIn(db, op);
      StepKeepsLinks(db, op);
    }
  }

  /**
   When a registration goes through, and which write refuses it otherwise: they come in the order
   account, app, invite, certificate, and a refused registration leaves the database as it was.
   */
  lemma RegisterExactlyWhen(db: Db, reg: Registration, now: Instant)
    requires Invites.AllReadable(db.invites)
    ensures var out := Register(db, reg, now).1;
            var complete :=
              reg.user.text != "" && reg.app != "" && reg.openCaravanId != "" && reg.token != "" && reg.serial.Some?;
            var account := reg.user !in db.accounts
                           && forall u | u in db.accounts :: db.accounts[u].openCaravanId != reg.openCaravanId;
            var app, invite := reg.app !in db.apps, Invites.LookupInvite(db.invites, reg.token, now);
            && (out == Incomplete <==> !complete)
            && (out == AccountTaken <==> complete && !account)
            && (out == AppTaken <==> complete && account && !app)
            && (forall why :: out == InviteRefused(why) <==>
                  complete && account && app && invite == why && why != Invites.Ok)
            && (complete && account && app && invite == Invites.Ok ==>
                  out == if Serial.Hex(reg.serial.value) in db.certificates then SerialTaken else Registered)
    ensures Register(db, reg, now).1 != Registered ==> Register(db, reg, now).0 == db
  {
    if reg.token in db.invites && reg.app != "" {
      Invites.RedeemableOneWayOrAnother(db.invites, reg.token, reg.app, now);
    }
  }

  lemma InsertsOneRow<K, V>(m: map<K, V>, k: K, v: V)
    requires k !in m
    ensures m[k := v] - {k} == m
  {
  }

  /** A registration adds exactly one row to each of the three tables. */
  lemma RegistrationAddsItsRows(db: Db, reg: Registration, now: Instant)
    requires Register(db, reg, now).1 == Registered
    ensures var db', serial := Register(db, reg, now).0, Serial.Hex(reg.serial.value);
            && reg.user in db'.accounts && db'.accounts - {reg.user} == db.accounts
            && db'.accounts[reg.user].openCaravanId == reg.openCaravanId
            && reg.app in db'.apps && db'.apps - {reg.app} == db.apps && db'.apps[reg.app].user == reg.user
            && serial in db'.certificates && db'.certificates - {serial} == db.certificates
            && db'.certificates[serial].user == reg.user && db'.certificates[serial].app == reg.app
  {
    var serial := Serial.Hex(reg.serial.value);
    InsertsOneRow(db.accounts, reg.user, Account(reg.openCaravanId));
    InsertsOneRow(db.apps, reg.app, ClientApp(reg.user));
    InsertsOneRow(db.certificates, serial, Certificate(reg.user, reg.app));
  }

  /** And it uses up its invite, and no other, in the name of the app. */
  lemma RegistrationUsesItsInvite(db: Db, reg: Registration, now: Instant, h: string)
    requires Invites.AllReadable(db.invites) && Register(db, reg, now).1 == Registered
    ensures var invites := Register(db, reg, now).0.invites;
            && invites.Keys == db.invites.Keys && reg.token in invites
            && (h in db.invites && h != reg.token ==> invites[h] == db.invites[h])
            && invites[reg.token].usedBy == Some(reg.app)
            && invites[reg.token].used.Some? && Parse(invites[reg.token].used.value) == Some(now)
  {
    Invites.ConsumingUsesUp(db.invites, reg.token, reg.app, now, now);
  }

  /** A registered certificate is found under whatever decoration of its serial a proxy forwards. */
  lemma ForwardedSerialFindsTheApp(db: Db, reg: Registration, now: Instant, raw: string)
    requires Register(db, reg, now).1 == Registered
    requires reg.serial.value > 0 && Serial.Decorates(raw, reg.serial.value)
    ensures var key := Serial.CanonicalSerial(raw);
            && key.Some?
            && Lookup(Register(db, reg, now).0.certificates, key.value) == Some(Certificate(reg.user, reg.app))
  {
    Serial.DecorationsNormalize(raw, reg.serial.value);
  }
}
