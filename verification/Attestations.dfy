/**
 Driver attestations: trust classification, and the record handler as a process whose store
 calls interleave with those of other submissions and with edits of ACLs and participants.
 */
module Attestations {
  import opened Prelude
  import JV = JourneyVehicles

  /** A signed claim to have taken the wheel; `verified` is the verdict of the signature check. */
  datatype Submission = Submission(
    journey: JourneyId, vehicle: VehicleId, driver: UserId, effective: Time,
    prior: Option<string>, aclVersionConsulted: int, canonical: string, verified: bool)

  datatype Key = Key(vehicle: VehicleId, driver: UserId, effective: Time)

  datatype Trust = Authorized | EmergencyFallback | AclViolation

  datatype Record = Record(id: nat, sub: Submission, trust: Trust, receivedAt: Time)

  type Table = map<Key, Record>

  function KeyOf(s: Submission): Key {
    Key(s.vehicle, s.driver, s.effective)
  }

  // ---- Classification ----

  /** What the first read, of the ACL in force, settles. */
  datatype Verdict = NoAcl | Settled(trust: Trust) | AsksParticipant

  function ReadAcl(w: JV.World, owner: UserId, s: Submission): Verdict {
    if s.vehicle !in w.vehicles then NoAcl
    else
      var v := w.vehicles[s.vehicle];
      var at := JV.AclAt(v, s.effective);
      if at.None? then NoAcl
      else if s.driver == owner || s.driver in v.acls[at.value].drivers then Settled(Authorized)
      else if v.acls[at.value].rule != JV.AnyJourneyParticipant then Settled(AclViolation)
      else AsksParticipant
  }

  function ReadParticipant(w: JV.World, s: Submission): Trust {
    if s.driver.text != "" && s.journey.text != "" && (s.driver, s.journey) in w.joined then EmergencyFallback
    else AclViolation
  }

  /** The flag when the ACL is read in one world and the participant in another; None without an ACL. */
  function ClassifyAcross(w1: JV.World, w2: JV.World, owner: UserId, s: Submission): Option<Trust> {
    match ReadAcl(w1, owner, s)
    case NoAcl => None
    case Settled(t) => Some(t)
    case AsksParticipant => Some(ReadParticipant(w2, s))
  }

  function Classify(w: JV.World, owner: UserId, s: Submission): Option<Trust> {
    ClassifyAcross(w, w, owner, s)
  }

  // ---- What the flag means ----

  /** Version n is in force at t: of the stored versions whose time has come, the highest. */
  ghost predicate InForce(v: JV.Vehicle, t: Time, n: int) {
    n in v.acls && v.acls[n].effective <= t && forall m | m in v.acls && v.acls[m].effective <= t :: m <= n
  }

  predicate IsParticipant(w: JV.World, u: UserId, j: JourneyId) {
    u.text != "" && j.text != "" && (u, j) in w.joined
  }

  /**
   The trust table: the owner and the listed drivers are authorized; anybody else is an emergency
   fallback if the ACL has the rule and the driver takes part in the journey, and a violation if not.
   */
  predicate Deserves(driver: UserId, owner: UserId, acl: JV.Acl, participant: bool, trust: Trust) {
    match trust
    case Authorized => driver == owner || driver in acl.drivers
    case EmergencyFallback =>
      driver != owner && driver !in acl.drivers && acl.rule == JV.AnyJourneyParticipant && participant
    case AclViolation =>
      driver != owner && driver !in acl.drivers && (acl.rule == JV.NoRule || !participant)
  }

  /** The two reads together give the one flag of the table, and none exactly before the first ACL. */
  lemma ClassificationTable(w1: JV.World, w2: JV.World, s: Submission)
    requires s.vehicle in w1.vehicles && JV.AclChainOk(w1.vehicles[s.vehicle])
    ensures var v := w1.vehicles[s.vehicle];
            var flag := ClassifyAcross(w1, w2, v.owner, s);
            && (flag.None? <==> forall n | n in v.acls :: s.effective < v.acls[n].effective)
            && (flag.Some? <==> exists n :: InForce(v, s.effective, n))
            && forall n, trust | InForce(v, s.effective, n) ::
                 flag == Some(trust) <==>
                   Deserves(s.driver, v.owner, v.acls[n], IsParticipant(w2, s.driver, s.journey), trust)
  {
    var v := w1.vehicles[s.vehicle];
    JV.AclAtIsTheHighestInForce(v, s.effective);
    var at := JV.AclAt(v, s.effective);
    if at.Some? { assert InForce(v, s.effective, at.value); }
  }

  // ---- The handler as a process ----

  datatype Reply =
    | Created(rec: Record, owner: UserId, t0: nat, t1: nat, t2: nat, t3: nat)
    | Existing(rec: Record)
    | NoAclAtTime
    | BadSignature
    | VehicleNotFound

  /**
   Where a submission stands between two store calls. The clock readings t0 (start), t1
   (ACL read), t2 (participant read) and t3 (insert) are history, not used by any step.
   */
  datatype Proc =
    | Started(s: Submission, t0: nat)
    | Loaded(s: Submission, owner: UserId, t0: nat)
    | Missed(s: Submission, owner: UserId, t0: nat)
    | Asking(s: Submission, owner: UserId, t0: nat, t1: nat)
    | Classified(s: Submission, owner: UserId, trust: Trust, t0: nat, t1: nat, t2: nat)
    | Collided(s: Submission)
    | Replied(s: Submission, reply: Reply)

  datatype Sys = Sys(world: JV.World, table: Table, procs: map<nat, Proc>)

  datatype Action =
    | Environment(req: JV.Req)
    | Submit(pid: nat, s: Submission)
    | Advance(pid: nat, id: nat, now: Time)

  /** One store call of one submission. */
  function Call(sys: Sys, n: nat, p: Proc, id: nat, now: Time): (Table, Proc) {
    match p
    case Started(s, t0) =>
      if s.vehicle in sys.world.vehicles && sys.world.vehicles[s.vehicle].journey == s.journey
      then (sys.table, Loaded(s, sys.world.vehicles[s.vehicle].owner, t0))
      else (sys.table, Replied(s, VehicleNotFound))
    case Loaded(s, owner, t0) =>
      if KeyOf(s) in sys.table then (sys.table, Replied(s, Existing(sys.table[KeyOf(s)])))
      else (sys.table, Missed(s, owner, t0))
    case Missed(s, owner, t0) =>
      if !s.verified then (sys.table, Replied(s, BadSignature))
      else
        (match ReadAcl(sys.world, owner, s)
         case NoAcl => (sys.table, Replied(s, NoAclAtTime))
         case Settled(t) => (sys.table, Classified(s, owner, t, t0, n, n))
         case AsksParticipant => (sys.table, Asking(s, owner, t0, n)))
    case Asking(s, owner, t0, t1) =>
      (sys.table, Classified(s, owner, ReadParticipant(sys.world, s), t0, t1, n))
    case Classified(s, owner, trust, t0, t1, t2) =>
      if KeyOf(s) in sys.table then (sys.table, Collided(s))
      else
        var rec := Record(id, s, trust, now);
        (sys.table[KeyOf(s) := rec], Replied(s, Created(rec, owner, t0, t1, t2, n)))
    case Collided(s) =>
      if KeyOf(s) in sys.table then (sys.table, Replied(s, Existing(sys.table[KeyOf(s)]))) else (sys.table, p)
    case Replied(_, _) => (sys.table, p)
  }

  function Step(sys: Sys, n: nat, a: Action): Sys {
    match a
    case Environment(req) => sys.(world := JV.Handle(sys.world, req).0)
    case Submit(pid, s) => if pid in sys.procs then sys else sys.(procs := sys.procs[pid := Started(s, n)])
    case Advance(pid, id, now) =>
      if pid !in sys.procs then sys
      else
        var r := Call(sys, n, sys.procs[pid], id, now);
        sys.(table := r.0, procs := sys.procs[pid := r.1])
  }

  /** The system after `actions`, the clock being the number of actions so far. */
  function Run(w: JV.World, actions: seq<Action>): Sys {
    if |actions| == 0 then Sys(w, map[], map[])
    else Step(Run(w, actions[..|actions| - 1]), |actions| - 1, actions[|actions| - 1])
  }

  // ---- One record per key ----

  predicate Won(p: Proc, k: Key) {
    p.Replied? && p.reply.Created? && KeyOf(p.s) == k
  }

  /** What a submission has been told, or is about to be told, is what the table holds. */
  predicate ToldTheTruth(table: Table, p: Proc) {
    match p
    case Collided(s) => KeyOf(s) in table
    case Replied(s, Created(rec, _, _, _, _, _)) => Lookup(table, KeyOf(s)) == Some(rec) && rec.sub == s
    case Replied(s, Existing(rec)) => Lookup(table, KeyOf(s)) == Some(rec)
    case _ => true
  }

  ghost predicate AllTold(sys: Sys) {
    forall pid | pid in sys.procs :: ToldTheTruth(sys.table, sys.procs[pid])
  }

  ghost predicate HasWinner(sys: Sys, k: Key) {
    exists pid :: pid in sys.procs && Won(sys.procs[pid], k)
  }

  ghost predicate AllWon(sys: Sys) {
    forall k | k in sys.table :: HasWinner(sys, k)
  }

  ghost predicate OneWinner(sys: Sys) {
    forall p, q, k | p in sys.procs && q in sys.procs && Won(sys.procs[p], k) && Won(sys.procs[q], k) :: p == q
  }

  ghost predicate SysOk(sys: Sys) {
    AllTold(sys) && AllWon(sys) && OneWinner(sys)
  }

  lemma CallKeepsTold(sys: Sys, n: nat, p: Proc, id: nat, now: Time, q: Proc)
    requires ToldTheTruth(sys.table, p) && ToldTheTruth(sys.table, q)
    ensures ToldTheTruth(Call(sys, n, p, id, now).0, Call(sys, n, p, id, now).1)
    ensures ToldTheTruth(Call(sys, n, p, id, now).0, q)
  {
  }

  /** A call wins exactly when it adds its key to the table, and it adds no other. */
  lemma CallWins(sys: Sys, n: nat, p: Proc, id: nat, now: Time)
    ensures var r := Call(sys, n, p, id, now);
            if r.0 == sys.table then forall k :: Won(r.1, k) ==> Won(p, k)
            else
              && Won(r.1, KeyOf(p.s)) && KeyOf(p.s) !in sys.table
              && r.0 == sys.table[KeyOf(p.s) := r.1.reply.rec]
    ensures p.Replied? ==> Call(sys, n, p, id, now) == (sys.table, p)
  {
    if p.Classified? && KeyOf(p.s) !in sys.table {
      assert KeyOf(p.s) in Call(sys, n, p, id, now).0;
    }
  }

  lemma AdvanceKeepsAllTold(sys: Sys, n: nat, a: Action)
    requires AllTold(sys) && a.Advance? && a.pid in sys.procs
    ensures AllTold(Step(sys, n, a))
  {
    var sys' := Step(sys, n, a);
    forall pid | pid in sys'.procs
      ensures ToldTheTruth(sys'.table, sys'.procs[pid])
    {
      CallKeepsTold(sys, n, sys.procs[a.pid], a.id, a.now, sys.procs[pid]);
    }
  }

  lemma AdvanceKeepsWinners(sys: Sys, n: nat, a: Action, k: Key)
    requires a.Advance? && a.pid in sys.procs
    requires k in sys.table ==> HasWinner(sys, k)
    ensures k in Step(sys, n, a).table ==> HasWinner(Step(sys, n, a), k)
  {
    var sys' := Step(sys, n, a);
    CallWins(sys, n, sys.procs[a.pid], a.id, a.now);
    if k in sys.table {
      var pid :| pid in sys.procs && Won(sys.procs[pid], k);
      assert Won(sys'.procs[pid], k);
    } else if k in sys'.table {
      assert Won(sys'.procs[a.pid], k);
    }
  }

  lemma AdvanceKeepsOneWinner(sys: Sys, n: nat, a: Action)
    requires AllTold(sys) && OneWinner(sys) && a.Advance? && a.pid in sys.procs
    ensures OneWinner(Step(sys, n, a))
  {
    var sys' := Step(sys, n, a);
    CallWins(sys, n, sys.procs[a.pid], a.id, a.now);
    forall p, q, k | p in sys'.procs && q in sys'.procs && Won(sys'.procs[p], k) && Won(sys'.procs[q], k)
      ensures p == q
    {
      assert p != a.pid ==> ToldTheTruth(sys.table, sys.procs[p]);
      assert q != a.pid ==> ToldTheTruth(sys.table, sys.procs[q]);
      if p == a.pid && !Won(sys.procs[p], k) { assert k !in sys.table; }
      if q == a.pid && !Won(sys.procs[q], k) { assert k !in sys.table; }
    }
  }

  lemma StepKeepsSysOk(sys: Sys, n: nat, a: Action)
    requires SysOk(sys)
    ensures SysOk(Step(sys, n, a))
  {
    var sys' := Step(sys, n, a);
    if a.Advance? && a.pid in sys.procs {
      AdvanceKeepsAllTold(sys, n, a);
      AdvanceKeepsOneWinner(sys, n, a);
      forall k | k in sys'.table ensures HasWinner(sys', k) { AdvanceKeepsWinners(sys, n, a, k); }
    } else {
      forall k | k in sys'.table ensures HasWinner(sys', k) {
        assert HasWinner(sys, k);
        var pid :| pid in sys.procs && Won(sys.procs[pid], k);
        assert Won(sys'.procs[pid], k);
      }
    }
  }

  lemma {:induction false} RunsAreOk(w: JV.World, actions: seq<Action>)
    ensures SysOk(Run(w, actions))
  {
    if |actions| == 0 {
    } else {
      RunsAreOk(w, actions[..|actions| - 1]);
      StepKeepsSysOk(Run(w, actions[..|actions| - 1]), |actions| - 1, actions[|actions| - 1]);
    }
  }

  /**
   Among any set of concurrent submissions with one key: once a record exists, exactly one
   submission was answered 201, and whoever was answered 200 or 201 got that record.
   */
  lemma ExactlyOneCreated(w: JV.World, actions: seq<Action>, k: Key)
    requires k in Run(w, actions).table
    ensures var sys := Run(w, actions);
            && HasWinner(sys, k)
            && (forall p, q | p in sys.procs && q in sys.procs
                              && Won(sys.procs[p], k) && Won(sys.procs[q], k) :: p == q)
            && (forall pid | pid in sys.procs && sys.procs[pid].Replied? && KeyOf(sys.procs[pid].s) == k ::
                  var reply := sys.procs[pid].reply;
                  (reply.Created? || reply.Existing?) ==> reply.rec == sys.table[k])
  {
    RunsAreOk(w, actions);
    var sys := Run(w, actions);
    forall pid | pid in sys.procs && sys.procs[pid].Replied? && KeyOf(sys.procs[pid].s) == k
      ensures var reply := sys.procs[pid].reply;
              (reply.Created? || reply.Existing?) ==> reply.rec == sys.table[k]
    {
      assert ToldTheTruth(sys.table, sys.procs[pid]);
    }
  }

  lemma WinnersRecord(w: JV.World, actions: seq<Action>, k: Key)
    requires k in Run(w, actions).table
    ensures var sub := Run(w, actions).table[k].sub;
            sub.vehicle == k.vehicle && sub.driver == k.driver && sub.effective == k.effective
  {
    RunsAreOk(w, actions);
    var sys := Run(w, actions);
    assert HasWinner(sys, k);
    var pid :| pid in sys.procs && Won(sys.procs[pid], k);
    assert ToldTheTruth(sys.table, sys.procs[pid]);
  }

  /** Past the signature check are verified claims only, and only others failed it. */
  ghost predicate Vetted(sys: Sys) {
    && (forall k | k in sys.table :: sys.table[k].sub.verified)
    && (forall pid | pid in sys.procs :: VettedProc(sys.procs[pid]))
  }

  predicate VettedProc(p: Proc) {
    && (p.Asking? || p.Classified? ==> p.s.verified)
    && (p.Replied? && p.reply == BadSignature ==> !p.s.verified)
  }

  /** In every run each stored claim has a valid signature, and who was told otherwise had none. */
  lemma {:induction false} StoredAreVerified(w: JV.World, actions: seq<Action>)
    ensures Vetted(Run(w, actions))
  {
    if |actions| > 0 {
      StoredAreVerified(w, actions[..|actions| - 1]);
      StepKeepsVetted(Run(w, actions[..|actions| - 1]), |actions| - 1, actions[|actions| - 1]);
    }
  }

  lemma StepKeepsVetted(sys: Sys, n: nat, a: Action)
    requires Vetted(sys)
    ensures Vetted(Step(sys, n, a))
  {
    if a.Advance? && a.pid in sys.procs { assert VettedProc(sys.procs[a.pid]); }
  }

  /** The record a 200 or a 201 was answered with. */
  predicate AnsweredWith(p: Proc, rec: Record) {
    p.Replied? && (p.reply.Created? || p.reply.Existing?) && p.reply.rec == rec
  }

  /**
   Two submissions answered 200 or 201 got the same record exactly when they claim the same
   vehicle for the same driver from the same instant on, and it is a claim of that kind.
   */
  lemma SameClaimSameRecord(w: JV.World, actions: seq<Action>, p: nat, q: nat, a: Record, b: Record)
    requires var procs := Run(w, actions).procs;
             p in procs && q in procs && AnsweredWith(procs[p], a) && AnsweredWith(procs[q], b)
    ensures var one, two := Run(w, actions).procs[p].s, Run(w, actions).procs[q].s;
            && (a == b <==> one.vehicle == two.vehicle && one.driver == two.driver && one.effective == two.effective)
            && a.sub.vehicle == one.vehicle && a.sub.driver == one.driver && a.sub.effective == one.effective
  {
    RunsAreOk(w, actions);
    var sys := Run(w, actions);
    assert ToldTheTruth(sys.table, sys.procs[p]) && ToldTheTruth(sys.table, sys.procs[q]);
    WinnersRecord(w, actions, KeyOf(sys.procs[p].s));
    WinnersRecord(w, actions, KeyOf(sys.procs[q].s));
  }

  /** How many of its own store calls a submission still makes at most. */
  function CallsLeft(p: Proc): nat {
    match p
    case Started(_, _) => 6
    case Loaded(_, _, _) => 5
    case Missed(_, _, _) => 4
    case Asking(_, _, _, _) => 3
    case Classified(_, _, _, _, _, _) => 2
    case Collided(_) => 1
    case Replied(_, _) => 0
  }

  /** No submission waits for another: each of its calls brings it closer to its answer. */
  lemma {:induction false} EveryCallMakesProgress(w: JV.World, actions: seq<Action>, pid: nat, id: nat, now: Time)
    requires pid in Run(w, actions).procs && !Run(w, actions).procs[pid].Replied?
    ensures var sys := Run(w, actions);
            CallsLeft(Call(sys, |actions|, sys.procs[pid], id, now).1) < CallsLeft(sys.procs[pid])
  {
    RunsAreOk(w, actions);
    var sys := Run(w, actions);
    assert ToldTheTruth(sys.table, sys.procs[pid]);
  }

  /** A stored record, its trust flag included, never changes. */
  lemma {:induction false} RecordsAreImmutable(w: JV.World, actions: seq<Action>, n: nat, k: Key)
    requires n <= |actions| && k in Run(w, actions[..n]).table
    ensures Lookup(Run(w, actions).table, k) == Some(Run(w, actions[..n]).table[k])
  {
    if n == |actions| {
      assert actions[..n] == actions;
    } else {
      var before, a := actions[..|actions| - 1], actions[|actions| - 1];
      assert before[..n] == actions[..n];
      RecordsAreImmutable(w, before, n, k);
      if a.Advance? && a.pid in Run(w, before).procs {
        CallWins(Run(w, before), |before|, Run(w, before).procs[a.pid], a.id, a.now);
      }
    }
  }

  // ---- Where the trust flag comes from ----

  function WorldAt(w: JV.World, actions: seq<Action>, n: nat): JV.World
    requires n <= |actions|
  {
    Run(w, actions[..n]).world
  }

  /** The clock readings are in order and the reads happened in the worlds they name. */
  ghost predicate Traced(w: JV.World, actions: seq<Action>, p: Proc) {
    match p
    case Started(_, t0) => t0 < |actions|
    case Loaded(_, _, t0) => t0 < |actions|
    case Missed(_, _, t0) => t0 < |actions|
    case Asking(s, owner, t0, t1) =>
      t0 < t1 < |actions| && ReadAcl(WorldAt(w, actions, t1), owner, s) == AsksParticipant
    case Classified(s, owner, trust, t0, t1, t2) =>
      && t0 < t1 <= t2 < |actions|
      && ClassifyAcross(WorldAt(w, actions, t1), WorldAt(w, actions, t2), owner, s) == Some(trust)
    case Replied(s, Created(rec, owner, t0, t1, t2, t3)) =>
      && t0 < t1 <= t2 < t3 < |actions|
      && ClassifyAcross(WorldAt(w, actions, t1), WorldAt(w, actions, t2), owner, s) == Some(rec.trust)
    case _ => true
  }

  lemma TracedPersists(w: JV.World, actions: seq<Action>, a: Action, p: Proc)
    requires Traced(w, actions, p)
    ensures Traced(w, actions + [a], p)
  {
    assert forall n | 0 <= n <= |actions| :: (actions + [a])[..n] == actions[..n];
  }

  lemma CallIsTraced(w: JV.World, actions: seq<Action>, a: Action, p: Proc)
    requires Traced(w, actions, p) && a.Advance?
    ensures Traced(w, actions + [a], Call(Run(w, actions), |actions|, p, a.id, a.now).1)
  {
    TracedPersists(w, actions, a, p);
    assert (actions + [a])[..|actions|] == actions;
  }

  lemma {:induction false} RunsAreTraced(w: JV.World, actions: seq<Action>, pid: nat)
    requires pid in Run(w, actions).procs
    ensures Traced(w, actions, Run(w, actions).procs[pid])
  {
    var before, a := actions[..|actions| - 1], actions[|actions| - 1];
    var sys := Run(w, before);
    assert before + [a] == actions;
    if pid in sys.procs {
      RunsAreTraced(w, before, pid);
      TracedPersists(w, before, a, sys.procs[pid]);
      if a.Advance? && a.pid == pid {
        CallIsTraced(w, before, a, sys.procs[pid]);
      }
    }
  }

  /** The vehicle is there, in the claimed journey, and `owner` owns it. */
  predicate OwnedBy(w: JV.World, s: Submission, owner: UserId) {
    && s.vehicle in w.vehicles
    && w.vehicles[s.vehicle].owner == owner && w.vehicles[s.vehicle].journey == s.journey
  }

  lemma StepKeepsOwned(sys: Sys, n: nat, a: Action, s: Submission, owner: UserId)
    requires OwnedBy(sys.world, s, owner)
    ensures OwnedBy(Step(sys, n, a).world, s, owner)
  {
  }

  /** Which owner a submission goes by: the vehicle's, at the ACL read and now. */
  ghost predicate GoesByOwner(w: JV.World, actions: seq<Action>, p: Proc) {
    var now := Run(w, actions).world;
    match p
    case Loaded(s, owner, _) => OwnedBy(now, s, owner)
    case Missed(s, owner, _) => OwnedBy(now, s, owner)
    case Asking(s, owner, _, t1) =>
      OwnedBy(now, s, owner) && t1 <= |actions| && OwnedBy(WorldAt(w, actions, t1), s, owner)
    case Classified(s, owner, _, _, t1, _) =>
      OwnedBy(now, s, owner) && t1 <= |actions| && OwnedBy(WorldAt(w, actions, t1), s, owner)
    case Replied(s, Created(rec, owner, _, t1, _, _)) =>
      rec.sub == s && OwnedBy(now, s, owner) && t1 <= |actions| && OwnedBy(WorldAt(w, actions, t1), s, owner)
    case _ => true
  }

  lemma OwnerPersists(w: JV.World, actions: seq<Action>, a: Action, p: Proc)
    requires GoesByOwner(w, actions, p)
    ensures GoesByOwner(w, actions + [a], p)
  {
    var all := actions + [a];
    assert forall n | 0 <= n <= |actions| :: all[..n] == actions[..n];
    assert Run(w, all) == Step(Run(w, actions), |actions|, a) by { assert all[..|all| - 1] == actions; }
    match p
    case Loaded(s, owner, _) => StepKeepsOwned(Run(w, actions), |actions|, a, s, owner);
    case Missed(s, owner, _) => StepKeepsOwned(Run(w, actions), |actions|, a, s, owner);
    case Asking(s, owner, _, _) => StepKeepsOwned(Run(w, actions), |actions|, a, s, owner);
    case Classified(s, owner, _, _, _, _) => StepKeepsOwned(Run(w, actions), |actions|, a, s, owner);
    case Replied(s, Created(_, owner, _, _, _, _)) => StepKeepsOwned(Run(w, actions), |actions|, a, s, owner);
    case _ =>
  }

  lemma CallGoesByOwner(w: JV.World, actions: seq<Action>, a: Action, p: Proc)
    requires GoesByOwner(w, actions, p) && a.Advance?
    ensures GoesByOwner(w, actions, Call(Run(w, actions), |actions|, p, a.id, a.now).1)
  {
    assert actions[..|actions|] == actions;
  }

  lemma {:induction false} RunsGoByOwner(w: JV.World, actions: seq<Action>, pid: nat)
    requires pid in Run(w, actions).procs
    ensures GoesByOwner(w, actions, Run(w, actions).procs[pid])
  {
    var before, a := actions[..|actions| - 1], actions[|actions| - 1];
    var sys := Run(w, before);
    assert before + [a] == actions;
    if pid in sys.procs {
      RunsGoByOwner(w, before, pid);
      OwnerPersists(w, before, a, sys.procs[pid]);
      if a.Advance? && a.pid == pid {
        CallGoesByOwner(w, before, a, sys.procs[pid]);
        OwnerPersists(w, before, a, Call(sys, |before|, sys.procs[pid], a.id, a.now).1);
      }
    }
  }

  /**
   The flag that the one submission answered 201 stored is the one the table gives for the
   vehicle's owner, the ACL in force at its effective time when the ACL was read, and the
   driver's participation when that was read, both between its start and its insert.
   */
  lemma WinnersFlagFollowsTheTable(joined: set<(UserId, JourneyId)>, actions: seq<Action>, pid: nat)
    requires var sys := Run(JV.World(map[], joined), actions);
             pid in sys.procs && sys.procs[pid].Replied? && sys.procs[pid].reply.Created?
    ensures var w := JV.World(map[], joined);
            var p := Run(w, actions).procs[pid];
            var Created(rec, owner, t0, t1, t2, t3) := p.reply;
            && t0 < t1 <= t2 < t3 < |actions|
            && Lookup(Run(w, actions).table, KeyOf(p.s)) == Some(rec) && rec.sub == p.s
            && OwnedBy(WorldAt(w, actions, t1), p.s, owner)
            && var v := WorldAt(w, actions, t1).vehicles[p.s.vehicle];
               && (exists n :: InForce(v, p.s.effective, n))
               && forall n | InForce(v, p.s.effective, n) ::
                    Deserves(p.s.driver, v.owner, v.acls[n],
                             IsParticipant(WorldAt(w, actions, t2), p.s.driver, p.s.journey), rec.trust)
  {
    var w := JV.World(map[], joined);
    var p := Run(w, actions).procs[pid];
    var Created(rec, owner, t0, t1, t2, t3) := p.reply;
    RunsAreOk(w, actions);
    RunsAreTraced(w, actions, pid);
    RunsGoByOwner(w, actions, pid);
    RunsAreSupported(joined, actions[..t1]);
    assert ToldTheTruth(Run(w, actions).table, p);
    ClassificationTable(WorldAt(w, actions, t1), WorldAt(w, actions, t2), p.s);
  }

  /** The driver's membership in the journey, as the two reads between t1 and t2 could see it. */
  predicate SameMembership(w1: JV.World, w2: JV.World, s: Submission) {
    ReadParticipant(w1, s) == ReadParticipant(w2, s)
  }

  /**
   The flag stored by the one submission answered 201 combines the ACL of one moment with
   the membership of a later one, both between its start and its insert. It is the
   classification of the world at one of the two reads exactly when the first read settled
   the matter, or the membership was the same at both, or the ACL in force at the second
   read still leaves the matter open or settles it the same way.
   */
  lemma StoredTrustIsAClassification(w: JV.World, actions: seq<Action>, pid: nat)
    requires pid in Run(w, actions).procs
    requires Run(w, actions).procs[pid].Replied? && Run(w, actions).procs[pid].reply.Created?
    ensures var p := Run(w, actions).procs[pid];
            var Created(rec, owner, t0, t1, t2, t3) := p.reply;
            && t0 < t1 <= t2 < t3 < |actions|
            && var w1, w2 := WorldAt(w, actions, t1), WorldAt(w, actions, t2);
               var first, second := ReadAcl(w1, owner, p.s), ReadAcl(w2, owner, p.s);
               && ClassifyAcross(w1, w2, owner, p.s) == Some(rec.trust)
               && (Classify(w1, owner, p.s) == Some(rec.trust) <==> first.Settled? || SameMembership(w1, w2, p.s))
               && ((Classify(w1, owner, p.s) == Some(rec.trust) || Classify(w2, owner, p.s) == Some(rec.trust)) <==>
                     || first.Settled? || SameMembership(w1, w2, p.s)
                     || second == AsksParticipant || second == Settled(rec.trust))
  {
    RunsAreTraced(w, actions, pid);
  }

  /** The ACL in force then settles the claim as stored, or leaves it to the membership the second read saw. */
  ghost predicate GivesTheFlag(w: JV.World, actions: seq<Action>, reply: Reply, s: Submission, t: nat)
    requires reply.Created? && t <= |actions| && reply.t2 <= |actions|
  {
    var now := WorldAt(w, actions, t);
    match ReadAcl(now, reply.owner, s)
    case NoAcl => false
    case Settled(trust) => trust == reply.rec.trust
    case AsksParticipant => SameMembership(now, WorldAt(w, actions, reply.t2), s)
  }

  /**
   The same question for all states from the start to the insert, read by read: one of them
   gives the flag exactly when the ACL read settled the claim, or the ACL of some moment on the
   way settles it the same way or leaves it open while the membership is the one that the
   second read saw. What has to commit between the reads for none to do so is in
   StoredTrustIsAClassification and TrustIsLinearizable.
   */
  lemma SomeStateGivesTheFlagExactlyWhen(w: JV.World, actions: seq<Action>, pid: nat)
    requires pid in Run(w, actions).procs
    requires Run(w, actions).procs[pid].Replied? && Run(w, actions).procs[pid].reply.Created?
    ensures var p := Run(w, actions).procs[pid];
            var Created(rec, owner, t0, t1, t2, t3) := p.reply;
            && t0 < t1 <= t2 < t3 < |actions|
            && ((exists t: nat :: t0 <= t <= t3 && Classify(WorldAt(w, actions, t), owner, p.s) == Some(rec.trust)) <==>
                  || ReadAcl(WorldAt(w, actions, t1), owner, p.s).Settled?
                  || exists t: nat :: t0 <= t <= t3 && GivesTheFlag(w, actions, p.reply, p.s, t))
  {
    StoredTrustIsAClassification(w, actions, pid);
    var p := Run(w, actions).procs[pid];
    var Created(rec, owner, t0, t1, t2, t3) := p.reply;
    if ReadAcl(WorldAt(w, actions, t1), owner, p.s).Settled? {
      assert Classify(WorldAt(w, actions, t1), owner, p.s) == Some(rec.trust);
    } else {
      assert ReadParticipant(WorldAt(w, actions, t2), p.s) == rec.trust;
      forall t: nat | t0 <= t <= t3
        ensures Classify(WorldAt(w, actions, t), owner, p.s) == Some(rec.trust) <==>
                  GivesTheFlag(w, actions, p.reply, p.s, t)
      {
      }
    }
  }

  /** No request among actions[lo..hi] makes this user join or leave this journey. */
  predicate MembershipUntouched(actions: seq<Action>, lo: nat, hi: nat, u: UserId, j: JourneyId) {
    forall i | lo <= i < hi && i < |actions| && actions[i].Environment? ::
      var req := actions[i].req;
      !((req.Join? || req.Leave?) && req.u == u && req.journey == j)
  }

  /** No ACL of this vehicle commits among actions[lo..hi]. */
  ghost predicate AclUntouched(w: JV.World, actions: seq<Action>, lo: nat, hi: nat, vid: VehicleId) {
    forall i | lo <= i < hi && i < |actions|
               && actions[i].Environment? && actions[i].req.AclReq? && actions[i].req.vid == vid ::
      JV.Handle(WorldAt(w, actions, i), actions[i].req).1 != JV.Done
  }

  lemma RunOneMore(w: JV.World, actions: seq<Action>, n: nat)
    requires n < |actions|
    ensures Run(w, actions[..n + 1]) == Step(Run(w, actions[..n]), n, actions[n])
  {
    assert actions[..n + 1][..n] == actions[..n];
  }

  lemma {:induction false} MembershipStands(w: JV.World, actions: seq<Action>, lo: nat, hi: nat, s: Submission)
    requires lo <= hi <= |actions| && MembershipUntouched(actions, lo, hi, s.driver, s.journey)
    ensures SameMembership(WorldAt(w, actions, lo), WorldAt(w, actions, hi), s)
    decreases hi
  {
    if lo == hi {
    } else {
      MembershipStands(w, actions, lo, hi - 1, s);
      RunOneMore(w, actions, hi - 1);
    }
  }

  lemma RequestKeepsVerdict(w: JV.World, req: JV.Req, owner: UserId, s: Submission)
    requires s.vehicle in w.vehicles
    requires req.AclReq? && req.vid == s.vehicle ==> JV.Handle(w, req).1 != JV.Done
    ensures s.vehicle in JV.Handle(w, req).0.vehicles
    ensures ReadAcl(JV.Handle(w, req).0, owner, s) == ReadAcl(w, owner, s)
  {
    JV.OtherRequestsKeepAcls(w, req, s.vehicle);
  }

  lemma {:induction false} VerdictStands(
    w: JV.World, actions: seq<Action>, lo: nat, hi: nat, owner: UserId, s: Submission)
    requires lo <= hi <= |actions| && AclUntouched(w, actions, lo, hi, s.vehicle)
    requires s.vehicle in WorldAt(w, actions, lo).vehicles
    ensures s.vehicle in WorldAt(w, actions, hi).vehicles
    ensures ReadAcl(WorldAt(w, actions, hi), owner, s) == ReadAcl(WorldAt(w, actions, lo), owner, s)
    decreases hi
  {
    if lo == hi {
    } else {
      VerdictStands(w, actions, lo, hi - 1, owner, s);
      RunOneMore(w, actions, hi - 1);
      var a := actions[hi - 1];
      if a.Environment? {
        RequestKeepsVerdict(WorldAt(w, actions, hi - 1), a.req, owner, s);
      }
    }
  }

  /**
   Where, between the two reads, the driver's membership does not change or no ACL of the
   vehicle commits, the flag is the classification at one single moment.
   */
  lemma TrustIsLinearizable(w: JV.World, actions: seq<Action>, pid: nat)
    requires pid in Run(w, actions).procs
    requires Run(w, actions).procs[pid].Replied? && Run(w, actions).procs[pid].reply.Created?
    requires var p := Run(w, actions).procs[pid];
             || MembershipUntouched(actions, p.reply.t1, p.reply.t2, p.s.driver, p.s.journey)
             || AclUntouched(w, actions, p.reply.t1, p.reply.t2, p.s.vehicle)
    ensures var p := Run(w, actions).procs[pid];
            exists t: nat :: p.reply.t0 < t < p.reply.t3 < |actions|
              && Classify(WorldAt(w, actions, t), p.reply.owner, p.s) == Some(p.reply.rec.trust)
  {
    StoredTrustIsAClassification(w, actions, pid);
    var p := Run(w, actions).procs[pid];
    var t1, t2 := p.reply.t1, p.reply.t2;
    if MembershipUntouched(actions, t1, t2, p.s.driver, p.s.journey) {
      MembershipStands(w, actions, t1, t2, p.s);
      assert Classify(WorldAt(w, actions, t1), p.reply.owner, p.s) == Some(p.reply.rec.trust);
    } else {
      VerdictStands(w, actions, t1, t2, p.reply.owner, p.s);
      assert Classify(WorldAt(w, actions, t2), p.reply.owner, p.s) == Some(p.reply.rec.trust);
    }
  }

  // ---- A run whose flag no state on the way gives ----

  /**
   Submission 0 finds its vehicle, misses the replay key and reads the ACL; then the owner
   puts the driver on the ACL and the driver joins; then it reads the membership and inserts.
   */
  function OvertakenRun(s: Submission, session: UserId, a: JV.Acl, id: nat, now: Time): seq<Action> {
    [Submit(0, s), Advance(0, id, now), Advance(0, id, now), Advance(0, id, now),
     Environment(JV.AclReq(session, s.journey, s.vehicle, a)), Environment(JV.Join(s.driver, s.journey)),
     Advance(0, id, now), Advance(0, id, now)]
  }

  /** The owner may put the driver on the ACL, and so far the claim is up to the driver's membership. */
  predicate CanBeOvertaken(w: JV.World, s: Submission, session: UserId, a: JV.Acl) {
    && s.vehicle in w.vehicles && w.vehicles[s.vehicle].journey == s.journey && s.verified
    && ReadAcl(w, w.vehicles[s.vehicle].owner, s) == AsksParticipant
    && (s.driver, s.journey) !in w.joined && s.driver.text != "" && s.journey.text != ""
    && JV.Handle(w, JV.AclReq(session, s.journey, s.vehicle, a)).1 == JV.Done
    && s.driver in a.drivers && a.effective <= s.effective
  }

  /** The system after the first four actions: the ACL has been read, nothing else happened. */
  lemma OvertakenUpToFirstRead(w: JV.World, s: Submission, session: UserId, a: JV.Acl, id: nat, now: Time, n: nat)
    requires CanBeOvertaken(w, s, session, a) && n <= 4
    ensures var sys := Run(w, OvertakenRun(s, session, a, id, now)[..n]);
            var owner := w.vehicles[s.vehicle].owner;
            && sys.world == w && sys.table == map[]
            && sys.procs == (match n
                             case 0 => map[]
                             case 1 => map[0 := Started(s, 0)]
                             case 2 => map[0 := Loaded(s, owner, 0)]
                             case 3 => map[0 := Missed(s, owner, 0)]
                             case _ => map[0 := Asking(s, owner, 0, 3)])
  {
    if n == 0 {
    } else {
      OvertakenUpToFirstRead(w, s, session, a, id, now, n - 1);
      RunOneMore(w, OvertakenRun(s, session, a, id, now), n - 1);
    }
  }

  function WithAcl(w: JV.World, s: Submission, session: UserId, a: JV.Acl): JV.World {
    JV.Handle(w, JV.AclReq(session, s.journey, s.vehicle, a)).0
  }

  function WithAclAndMember(w: JV.World, s: Submission, session: UserId, a: JV.Acl): JV.World {
    JV.Handle(WithAcl(w, s, session, a), JV.Join(s.driver, s.journey)).0
  }

  /** Then the two changes, which leave the submission where it was. */
  lemma OvertakenInBetween(w: JV.World, s: Submission, session: UserId, a: JV.Acl, id: nat, now: Time)
    requires CanBeOvertaken(w, s, session, a)
    ensures var actions, asking := OvertakenRun(s, session, a, id, now), Asking(s, w.vehicles[s.vehicle].owner, 0, 3);
            && Run(w, actions[..5]) == Sys(WithAcl(w, s, session, a), map[], map[0 := asking])
            && Run(w, actions[..6]) == Sys(WithAclAndMember(w, s, session, a), map[], map[0 := asking])
  {
    var actions := OvertakenRun(s, session, a, id, now);
    OvertakenUpToFirstRead(w, s, session, a, id, now, 4);
    RunOneMore(w, actions, 4);
    RunOneMore(w, actions, 5);
  }

  lemma JoinedIsRead(w: JV.World, s: Submission, session: UserId, a: JV.Acl)
    requires s.driver.text != "" && s.journey.text != ""
    ensures ReadParticipant(WithAclAndMember(w, s, session, a), s) == EmergencyFallback
  {
  }

  lemma LastTwoCalls(sys: Sys, s: Submission, owner: UserId, trust: Trust, id: nat, now: Time)
    requires sys.procs == map[0 := Asking(s, owner, 0, 3)] && sys.table == map[]
    requires ReadParticipant(sys.world, s) == trust
    ensures var rec := Record(id, s, trust, now);
            var seventh := Step(sys, 6, Advance(0, id, now));
            && seventh.world == sys.world
            && Step(seventh, 7, Advance(0, id, now)) ==
               Sys(sys.world, map[KeyOf(s) := rec], map[0 := Replied(s, Created(rec, owner, 0, 3, 6, 7))])
  {
  }

  /** And the last two calls of the submission. */
  lemma LastTwoSteps(w: JV.World, actions: seq<Action>, id: nat, now: Time)
    requires |actions| == 8 && actions[6] == actions[7] == Advance(0, id, now)
    ensures var sixth := Run(w, actions[..6]);
            && Run(w, actions[..7]) == Step(sixth, 6, Advance(0, id, now))
            && Run(w, actions) == Step(Step(sixth, 6, Advance(0, id, now)), 7, Advance(0, id, now))
  {
    RunOneMore(w, actions, 6);
    RunOneMore(w, actions, 7);
    assert actions[..8] == actions;
  }

  lemma OvertakenToTheEnd(w: JV.World, s: Submission, session: UserId, a: JV.Acl, id: nat, now: Time)
    requires CanBeOvertaken(w, s, session, a)
    ensures var actions := OvertakenRun(s, session, a, id, now);
            var owner, rec := w.vehicles[s.vehicle].owner, Record(id, s, EmergencyFallback, now);
            var last := WithAclAndMember(w, s, session, a);
            && WorldAt(w, actions, 7) == last
            && Run(w, actions) == Sys(last, map[KeyOf(s) := rec], map[0 := Replied(s, Created(rec, owner, 0, 3, 6, 7))])
  {
    var actions, owner := OvertakenRun(s, session, a, id, now), w.vehicles[s.vehicle].owner;
    var sixth := Sys(WithAclAndMember(w, s, session, a), map[], map[0 := Asking(s, owner, 0, 3)]);
    OvertakenInBetween(w, s, session, a, id, now);
    JoinedIsRead(w, s, session, a);
    LastTwoCalls(sixth, s, owner, EmergencyFallback, id, now);
    LastTwoSteps(w, actions, id, now);
  }

  /** Which world each moment of the run shows. */
  lemma OvertakenWorldAt(w: JV.World, s: Submission, session: UserId, a: JV.Acl, id: nat, now: Time, t: nat)
    requires CanBeOvertaken(w, s, session, a) && t <= 8
    ensures WorldAt(w, OvertakenRun(s, session, a, id, now), t) ==
            if t <= 4 then w else if t == 5 then WithAcl(w, s, session, a) else WithAclAndMember(w, s, session, a)
  {
    var actions := OvertakenRun(s, session, a, id, now);
    if t <= 4 {
      OvertakenUpToFirstRead(w, s, session, a, id, now, t);
    } else if t <= 6 {
      OvertakenInBetween(w, s, session, a, id, now);
    } else {
      OvertakenToTheEnd(w, s, session, a, id, now);
      assert actions[..8] == actions;
    }
  }

  lemma OvertakenWorlds(w: JV.World, s: Submission, session: UserId, a: JV.Acl)
    requires CanBeOvertaken(w, s, session, a) && JV.AclChainOk(w.vehicles[s.vehicle])
    ensures var owner := w.vehicles[s.vehicle].owner;
            && Classify(w, owner, s) == Some(AclViolation)
            && Classify(WithAcl(w, s, session, a), owner, s) == Some(Authorized)
            && Classify(WithAclAndMember(w, s, session, a), owner, s) == Some(Authorized)
  {
    JV.AppendedAclTakesOver(w.vehicles, s.vehicle, a, s.effective);
  }

  /**
   From every world where the ACL in force leaves the claim to a membership the driver does
   not have yet, and every ACL by which the owner authorizes the driver: the run in which both
   changes fall between the two reads stores emergency_fallback, although no state from the
   start of the submission to its insert, nor the one after it, classifies the claim so.
   */
  lemma TwoReadsCanMissEveryState(w: JV.World, s: Submission, session: UserId, a: JV.Acl, id: nat, now: Time)
    requires CanBeOvertaken(w, s, session, a) && JV.AclChainOk(w.vehicles[s.vehicle])
    ensures var actions := OvertakenRun(s, session, a, id, now);
            var sys := Run(w, actions);
            && 0 in sys.procs && sys.procs[0].Replied? && sys.procs[0].reply.Created?
            && var Created(rec, owner, t0, t1, t2, t3) := sys.procs[0].reply;
               && Lookup(sys.table, KeyOf(s)) == Some(rec) && rec.trust == EmergencyFallback
               && t0 < t3 < |actions|
               && forall t | t0 <= t <= |actions| :: Classify(WorldAt(w, actions, t), owner, s) != Some(rec.trust)
  {
    var actions := OvertakenRun(s, session, a, id, now);
    OvertakenToTheEnd(w, s, session, a, id, now);
    OvertakenWorlds(w, s, session, a);
    forall t | 0 <= t <= |actions|
      ensures Classify(WorldAt(w, actions, t), w.vehicles[s.vehicle].owner, s) != Some(EmergencyFallback)
    {
      OvertakenWorldAt(w, s, session, a, id, now, t);
    }
  }

  // ---- After the insert nobody is turned away for want of an ACL ----

  /** Every stored record's vehicle has an ACL in force at the record's time. */
  ghost predicate Supported(sys: Sys) {
    && (forall id | id in sys.world.vehicles :: JV.AclChainOk(sys.world.vehicles[id]))
    && (forall k | k in sys.table :: HasAcl(sys.world, k.vehicle, k.effective))
    && (forall pid | pid in sys.procs && (sys.procs[pid].Asking? || sys.procs[pid].Classified?) ::
          HasAcl(sys.world, sys.procs[pid].s.vehicle, sys.procs[pid].s.effective))
  }

  predicate HasAcl(w: JV.World, v: VehicleId, t: Time) {
    v in w.vehicles && JV.AclAt(w.vehicles[v], t).Some?
  }

  lemma RequestsKeepAcls(w: JV.World, req: JV.Req, id: VehicleId, t: Time)
    requires id in w.vehicles && JV.AclChainOk(w.vehicles[id])
    ensures id in JV.Handle(w, req).0.vehicles && JV.AclChainOk(JV.Handle(w, req).0.vehicles[id])
    ensures HasAcl(w, id, t) ==> HasAcl(JV.Handle(w, req).0, id, t)
  {
    if req.AclReq? && req.vid == id && JV.Handle(w, req).1 == JV.Done {
      JV.AppendedAclTakesOver(w.vehicles, id, req.a, t);
    } else {
      JV.OtherRequestsKeepAcls(w, req, id);
    }
  }

  lemma EnvironmentKeepsSupported(sys: Sys, n: nat, req: JV.Req)
    requires Supported(sys)
    ensures Supported(Step(sys, n, Environment(req)))
  {
    var sys' := Step(sys, n, Environment(req));
    forall id | id in sys'.world.vehicles
      ensures JV.AclChainOk(sys'.world.vehicles[id])
    {
      if id in sys.world.vehicles {
        RequestsKeepAcls(sys.world, req, id, 0);
      }
    }
    forall id, t | HasAcl(sys.world, id, t)
      ensures HasAcl(sys'.world, id, t)
    {
      RequestsKeepAcls(sys.world, req, id, t);
    }
  }

  lemma CallKeepsSupported(sys: Sys, n: nat, p: Proc, id: nat, now: Time)
    requires p.Asking? || p.Classified? ==> HasAcl(sys.world, p.s.vehicle, p.s.effective)
    ensures var r := Call(sys, n, p, id, now);
            && r.1.s == p.s
            && (r.1.Asking? || r.1.Classified? ==> HasAcl(sys.world, p.s.vehicle, p.s.effective))
            && (forall k | k in r.0 && k !in sys.table :: k == KeyOf(p.s) && HasAcl(sys.world, k.vehicle, k.effective))
  {
  }

  lemma StepKeepsSupported(sys: Sys, n: nat, a: Action)
    requires Supported(sys)
    ensures Supported(Step(sys, n, a))
  {
    match a
    case Environment(req) => EnvironmentKeepsSupported(sys, n, req);
    case Submit(pid, s) =>
    case Advance(pid, id, now) =>
      if pid in sys.procs {
        CallKeepsSupported(sys, n, sys.procs[pid], id, now);
      }
  }

  lemma {:induction false} RunsAreSupported(joined: set<(UserId, JourneyId)>, actions: seq<Action>)
    ensures Supported(Run(JV.World(map[], joined), actions))
  {
    if |actions| == 0 {
    } else {
      var w := JV.World(map[], joined);
      RunsAreSupported(joined, actions[..|actions| - 1]);
      StepKeepsSupported(Run(w, actions[..|actions| - 1]), |actions| - 1, actions[|actions| - 1]);
    }
  }

  /** Its vehicle is found, or will be at its first call; only past the lookup does its signature matter. */
  predicate Found(sys: Sys, pid: nat) {
    && pid in sys.procs
    && var p := sys.procs[pid];
       && (p.Started? ==> p.s.vehicle in sys.world.vehicles && sys.world.vehicles[p.s.vehicle].journey == p.s.journey)
       && (p.Missed? ==> p.s.verified)
  }

  lemma RequestsKeepJourneys(w: JV.World, req: JV.Req, vid: VehicleId)
    requires vid in w.vehicles
    ensures vid in JV.Handle(w, req).0.vehicles
    ensures JV.Handle(w, req).0.vehicles[vid].journey == w.vehicles[vid].journey
  {
  }

  lemma StepKeepsFound(sys: Sys, n: nat, a: Action, pid: nat)
    requires Found(sys, pid) && KeyOf(sys.procs[pid].s) in sys.table
    ensures Found(Step(sys, n, a), pid) && Step(sys, n, a).procs[pid].s == sys.procs[pid].s
  {
    if a.Environment? && sys.procs[pid].Started? {
      RequestsKeepJourneys(sys.world, a.req, sys.procs[pid].s.vehicle);
    }
  }

  /** With the record in the table, the next call of such a submission is not answered otherwise. */
  lemma NextAnswerIsTheRecord(joined: set<(UserId, JourneyId)>, actions: seq<Action>, a: Action)
    requires var sys := Run(JV.World(map[], joined), actions);
             && a.Advance? && Found(sys, a.pid) && !sys.procs[a.pid].Replied?
             && KeyOf(sys.procs[a.pid].s) in sys.table
    ensures var sys := Run(JV.World(map[], joined), actions);
            var p' := Step(sys, |actions|, a).procs[a.pid];
            p'.Replied? ==> p'.reply == Existing(sys.table[KeyOf(sys.procs[a.pid].s)])
  {
    RunsAreSupported(joined, actions);
    var sys := Run(JV.World(map[], joined), actions);
    assert HasAcl(sys.world, sys.procs[a.pid].s.vehicle, sys.procs[a.pid].s.effective);
  }

  /**
   If the record exists after n actions and a submission of its key that finds its vehicle is
   still unanswered then, whatever follows: the only answer it can ever get is 200 with that
   record. One that has not looked for the record yet gets it whatever its signature.
   */
  lemma {:induction false} LateAnswersAreTheRecord(
    joined: set<(UserId, JourneyId)>, actions: seq<Action>, n: nat, pid: nat)
    requires n <= |actions|
    requires var early := Run(JV.World(map[], joined), actions[..n]);
             Found(early, pid) && !early.procs[pid].Replied? && KeyOf(early.procs[pid].s) in early.table
    ensures var w := JV.World(map[], joined);
            var early, sys := Run(w, actions[..n]), Run(w, actions);
            && Found(sys, pid) && sys.procs[pid].s == early.procs[pid].s
            && (sys.procs[pid].Replied? ==> sys.procs[pid].reply == Existing(early.table[KeyOf(early.procs[pid].s)]))
  {
    var w := JV.World(map[], joined);
    if n == |actions| {
      assert actions[..n] == actions;
    } else {
      var before, a := actions[..|actions| - 1], actions[|actions| - 1];
      assert before[..n] == actions[..n];
      LateAnswersAreTheRecord(joined, before, n, pid);
      RecordsAreImmutable(w, before, n, KeyOf(Run(w, before).procs[pid].s));
      StepKeepsFound(Run(w, before), |before|, a, pid);
      if a.Advance? && a.pid == pid && !Run(w, before).procs[pid].Replied? {
        NextAnswerIsTheRecord(joined, before, a);
      }
    }
  }
}
