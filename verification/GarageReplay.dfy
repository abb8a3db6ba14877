/**
 The owner table as a replay of what committed. `RowAfter` reads the log for one user of one
 garage and knows nothing of tables, diffs or upserts; the theorems say that the tables
 always agree with it.
 */
module GarageReplay {
  import opened Prelude
  import opened GarageTables
  import opened GarageRuns

  datatype Event =
    | Created(p: Garage)
    | Appended(p: Garage)
    | Accepted(a: Acceptance, now: Time)
    | JoinedBy(key: InviteKey, g: GarageId, u: UserId, now: Time)

  /** What a step that committed leaves in the log. */
  function EventOf(s: Tables, op: Op): seq<Event> {
    if Apply(s, op).1 != Done then []
    else
      match op
      case CreateOp(p, _) => [Created(p)]
      case AppendOp(p) => [Appended(p)]
      case AppendStale(p) => [Appended(p)]
      case AcceptOp(a, now) => [Accepted(a, now)]
      case AcceptStale(a, now) => [Accepted(a, now)]
      case RedeemOp(key, u, now) => [JoinedBy(key, s.invites[key].garage, u, now)]
      case RedeemStale(key, u, now) => [JoinedBy(key, s.invites[key].garage, u, now)]
      case _ => []
  }

  function Log(s: Tables, ops: seq<Op>): seq<Event> {
    if |ops| == 0 then []
    else Log(s, ops[..|ops| - 1]) + EventOf(Run(s, ops[..|ops| - 1]), ops[|ops| - 1])
  }

  /** The payload of the garage's last committed revision. */
  function LastRevision(log: seq<Event>, g: GarageId): Option<Garage> {
    if |log| == 0 then None
    else
      var e := log[|log| - 1];
      if (e.Created? || e.Appended?) && e.p.id == g then Some(e.p)
      else LastRevision(log[..|log| - 1], g)
  }

  /** Did `u` join `g` through an invite after its last committed revision? */
  predicate JoinedSinceRevision(log: seq<Event>, g: GarageId, u: UserId) {
    |log| > 0 &&
    var e := log[|log| - 1];
    if (e.Created? || e.Appended?) && e.p.id == g then false
    else (e.JoinedBy? && e.g == g && e.u == u) || JoinedSinceRevision(log[..|log| - 1], g, u)
  }

  /** One user's row after one more event, given the garage's last revision before it. */
  function RowStep(e: Event, prev: Option<OwnerRow>, last: Option<Garage>, g: GarageId, u: UserId): Option<OwnerRow> {
    match e
    case Created(p) =>
      if p.id != g then prev
      else if Names(p.owners, u) then
        var e := FirstEntry(p.owners, u);
        Some(OwnerRow(e.addedTime, 1, e.accepted))
      else None
    case Appended(p) =>
      if p.id != g then prev
      else if !Names(p.owners, u) then None
      else if prev.None? then
        var e := FirstEntry(p.owners, u);
        Some(OwnerRow(e.addedTime, p.version, e.accepted))
      else if prev.value.accepted.Some? then prev
      else Some(prev.value.(accepted := LastAcceptance(p.owners, u)))
    case Accepted(a, _) =>
      if a.garage == g && a.user == u && prev.Some? then Some(prev.value.(accepted := Some(a.acceptedTime)))
      else prev
    case JoinedBy(_, g', u', now) =>
      if g' != g || u' != u then prev
      else if prev.Some? then Some(prev.value.(accepted := Some(now)))
      else Some(OwnerRow(now, if last.Some? then last.value.version else 0, Some(now)))
  }

  /** One user's row, folded over the log. */
  function RowAfter(log: seq<Event>, g: GarageId, u: UserId): Option<OwnerRow> {
    if |log| == 0 then None
    else
      var before := log[..|log| - 1];
      RowStep(log[|log| - 1], RowAfter(before, g, u), LastRevision(before, g), g, u)
  }

  /** The tables agree with what the log says about one garage, and about one of its users. */
  ghost predicate Agree(s: Tables, last: Option<Garage>, row: Option<OwnerRow>, g: GarageId, u: UserId) {
    if g in s.garages then
      var state := s.garages[g];
      && state.head.version in state.revisions
      && last == Some(state.revisions[state.head.version])
      && row == Lookup(state.owners, u)
    else last == None && row == None
  }

  ghost predicate AgreeOn(s: Tables, log: seq<Event>, g: GarageId, u: UserId) {
    Agree(s, LastRevision(log, g), RowAfter(log, g, u), g, u)
  }

  function LastStep(e: Event, last: Option<Garage>, g: GarageId): Option<Garage> {
    if (e.Created? || e.Appended?) && e.p.id == g then Some(e.p) else last
  }

  lemma CreateAgrees(
    s: Tables, p: Garage, now: Time, last: Option<Garage>, row: Option<OwnerRow>, g: GarageId, u: UserId)
    requires Agree(s, last, row, g, u) && Create(s, p, now).1 == Done
    ensures var e := Created(p);
            Agree(Create(s, p, now).0, LastStep(e, last, g), RowStep(e, row, last, g, u), g, u)
  {
  }

  lemma AppendAgrees(s: Tables, p: Garage, last: Option<Garage>, row: Option<OwnerRow>, g: GarageId, u: UserId)
    requires Agree(s, last, row, g, u) && AppendWrites(s, p).1 == Done
    ensures var e := Appended(p);
            Agree(AppendWrites(s, p).0, LastStep(e, last, g), RowStep(e, row, last, g, u), g, u)
  {
  }

  lemma AcceptAgrees(
    s: Tables, a: Acceptance, now: Time, last: Option<Garage>, row: Option<OwnerRow>, g: GarageId, u: UserId)
    requires Agree(s, last, row, g, u) && AcceptWrites(s, a, now).1 == Done
    ensures var e := Accepted(a, now);
            Agree(AcceptWrites(s, a, now).0, LastStep(e, last, g), RowStep(e, row, last, g, u), g, u)
  {
  }

  lemma RedeemAgrees(
    s: Tables, key: InviteKey, u': UserId, now: Time,
    last: Option<Garage>, row: Option<OwnerRow>, g: GarageId, u: UserId)
    requires Agree(s, last, row, g, u) && RedeemWrites(s, key, u', now).1 == Done
    requires g in s.garages ==> ChainOk(g, s.garages[g])
    ensures var e := JoinedBy(key, s.invites[key].garage, u', now);
            Agree(RedeemWrites(s, key, u', now).0, LastStep(e, last, g), RowStep(e, row, last, g, u), g, u)
  {
  }

  lemma EventAgrees(s: Tables, op: Op, last: Option<Garage>, row: Option<OwnerRow>, g: GarageId, u: UserId)
    requires Agree(s, last, row, g, u) && EventOf(s, op) != []
    requires g in s.garages ==> ChainOk(g, s.garages[g])
    ensures var e := EventOf(s, op)[0];
            Agree(Apply(s, op).0, LastStep(e, last, g), RowStep(e, row, last, g, u), g, u)
  {
    match op
    case CreateOp(p, now) => CreateAgrees(s, p, now, last, row, g, u);
    case AppendOp(p) =>
      assert Apply(s, op) == AppendWrites(s, p);
      AppendAgrees(s, p, last, row, g, u);
    case AppendStale(p) => AppendAgrees(s, p, last, row, g, u);
    case AcceptOp(a, now) =>
      assert Apply(s, op) == AcceptWrites(s, a, now);
      AcceptAgrees(s, a, now, last, row, g, u);
    case AcceptStale(a, now) => AcceptAgrees(s, a, now, last, row, g, u);
    case RedeemOp(key, u', now) =>
      assert Apply(s, op) == RedeemWrites(s, key, u', now);
      RedeemAgrees(s, key, u', now, last, row, g, u);
    case RedeemStale(key, u', now) => RedeemAgrees(s, key, u', now, last, row, g, u);
  }

  lemma NoEventNoChange(s: Tables, op: Op)
    requires EventOf(s, op) == []
    ensures Apply(s, op).0.garages == s.garages
  {
  }

  lemma OneEventAtMost(s: Tables, op: Op)
    ensures |EventOf(s, op)| <= 1
  {
  }

  lemma FoldOneMore(log: seq<Event>, e: Event, g: GarageId, u: UserId)
    ensures LastRevision(log + [e], g) == LastStep(e, LastRevision(log, g), g)
    ensures RowAfter(log + [e], g, u) == RowStep(e, RowAfter(log, g, u), LastRevision(log, g), g, u)
  {
    assert (log + [e])[..|log|] == log;
  }

  lemma ReplayStep(s: Tables, op: Op, log: seq<Event>, g: GarageId, u: UserId)
    requires Inv(s) && AgreeOn(s, log, g, u)
    ensures AgreeOn(Apply(s, op).0, log + EventOf(s, op), g, u)
  {
    var e := EventOf(s, op);
    if e == [] {
      assert log + e == log;
      NoEventNoChange(s, op);
    } else {
      OneEventAtMost(s, op);
      assert e == [e[0]];
      FoldOneMore(log, e[0], g, u);
      assert g in s.garages ==> GarageOk(s.accounts, g, s.garages[g]);
      EventAgrees(s, op, LastRevision(log, g), RowAfter(log, g, u), g, u);
    }
  }

  /** In every reachable state the owner tables are exactly the replay of the log. */
  lemma {:induction false} OwnersAreTheReplay(accounts: set<UserId>, ops: seq<Op>, g: GarageId, u: UserId)
    ensures AgreeOn(Run(Empty(accounts), ops), Log(Empty(accounts), ops), g, u)
  {
    if |ops| == 0 {
    } else {
      var before := ops[..|ops| - 1];
      OwnersAreTheReplay(accounts, before, g, u);
      RunKeepsInv(accounts, before);
      ReplayStep(Run(Empty(accounts), before), ops[|ops| - 1], Log(Empty(accounts), before), g, u);
    }
  }

  // ---- Which entry of an owner list counts ----

  predicate Accepts(e: OwnerEntry, u: UserId) {
    e.user == u && e.accepted.Some?
  }

  /** Of several entries for one user the first is inserted, and the last accepting one promotes. */
  lemma {:induction false} EntriesThatCount(entries: seq<OwnerEntry>, u: UserId) returns (first: int, last: int)
    requires Names(entries, u)
    ensures 0 <= first < |entries| && entries[first] == FirstEntry(entries, u) && entries[first].user == u
    ensures forall i | 0 <= i < first :: entries[i].user != u
    ensures -1 <= last < |entries| && (last == -1 <==> LastAcceptance(entries, u).None?)
    ensures last >= 0 ==> Accepts(entries[last], u) && LastAcceptance(entries, u) == entries[last].accepted
    ensures forall i | last < i < |entries| :: !Accepts(entries[i], u)
  {
    var n := |entries| - 1;
    var before := entries[..n];
    assert forall i | 0 <= i < n :: before[i] == entries[i];
    if Names(before, u) {
      first, last := EntriesThatCount(before, u);
    } else {
      first, last := n, -1;
      forall i | 0 <= i < n ensures entries[i].user != u { assert before[i].user != u; }
      NobodyAccepts(before, u);
    }
    if Accepts(entries[n], u) { last := n; }
  }

  lemma {:induction false} NobodyAccepts(entries: seq<OwnerEntry>, u: UserId)
    requires forall i | 0 <= i < |entries| :: entries[i].user != u
    ensures LastAcceptance(entries, u) == None
  {
    if |entries| == 0 {
    } else {
      NobodyAccepts(entries[..|entries| - 1], u);
    }
  }

  /** The time is that of the last entry that accepts for u, and there is none where no entry does. */
  ghost predicate AcceptsLast(entries: seq<OwnerEntry>, u: UserId, t: Option<Time>) {
    if t.None? then forall i | 0 <= i < |entries| :: !Accepts(entries[i], u)
    else exists i :: 0 <= i < |entries| && Accepts(entries[i], u) && entries[i].accepted == t
                     && forall j | i < j < |entries| :: !Accepts(entries[j], u)
  }

  /**
   The row a list makes of a user's row: no row for a user it leaves out, the entry's columns for
   a new user, and for a known one the same row, accepted now if it was pending and an entry accepts.
   */
  ghost predicate RowFollows(
    before: Option<OwnerRow>, entries: seq<OwnerEntry>, u: UserId, version: int, after: Option<OwnerRow>)
  {
    && (after.Some? <==> Names(entries, u))
    && (after.Some? && before.None? ==>
          forall i | 0 <= i < |entries| && entries[i].user == u ::
            && after.value.addedTime == entries[i].addedTime && after.value.addedIn == version
            && after.value.accepted == entries[i].accepted)
    && (after.Some? && before.Some? ==>
          && after.value.addedTime == before.value.addedTime && after.value.addedIn == before.value.addedIn
          && (if before.value.accepted.Some? then after.value.accepted == before.value.accepted
              else AcceptsLast(entries, u, after.value.accepted)))
  }

  lemma ListDecidesTheRow(
    accounts: set<UserId>, owners: map<UserId, OwnerRow>, version: int, entries: seq<OwnerEntry>, u: UserId)
    requires InsertsAdmitted(accounts, owners, entries)
    ensures RowFollows(Lookup(owners, u), entries, u, version, Lookup(Reconciled(owners, version, entries), u))
  {
    var after := Reconciled(owners, version, entries);
    if Names(entries, u) {
      var first, last := EntriesThatCount(entries, u);
      assert after[u] == Upserted(owners, version, entries)[u];
      if u !in owners {
        forall i | 0 <= i < |entries| && entries[i].user == u ensures i == first { }
      }
    }
  }

  /**
   What a committed revision makes of every user's row, and that beside the rows only the head
   and the history of the garage change.
   */
  lemma RevisionDecidesTheRow(s: Tables, p: Garage, u: UserId)
    requires AppendWrites(s, p).1 == Done
    ensures p.id in s.garages && p.id in AppendWrites(s, p).0.garages
    ensures var before, after := s.garages[p.id].owners, AppendWrites(s, p).0.garages[p.id].owners;
            RowFollows(Lookup(before, u), p.owners, u, p.version, Lookup(after, u))
    ensures var s', g := AppendWrites(s, p).0, s.garages[p.id];
            && s'.accounts == s.accounts && s'.invites == s.invites && s'.garages.Keys == s.garages.Keys
            && (forall id | id in s.garages && id != p.id :: s'.garages[id] == s.garages[id])
            && s'.garages[p.id].head == GarageHead(p.name, p.version, p.revisionTime, g.head.createdAt)
            && s'.garages[p.id].revisions == g.revisions[p.version := p]
            && s'.garages[p.id].acceptances == g.acceptances
  {
    ListDecidesTheRow(s.accounts, s.garages[p.id].owners, p.version, p.owners, u);
  }

  /** And what the creation of a garage makes of it. */
  lemma CreationDecidesTheRow(s: Tables, p: Garage, now: Time, u: UserId)
    requires Create(s, p, now).1 == Done
    ensures p.id !in s.garages && p.id in Create(s, p, now).0.garages
    ensures var g := Create(s, p, now).0.garages[p.id];
            && g.head == GarageHead(p.name, p.version, p.revisionTime, now)
            && g.revisions == map[1 := p] && g.acceptances == map[]
            && RowFollows(None, p.owners, u, p.version, Lookup(g.owners, u))
  {
    ListDecidesTheRow(s.accounts, map[], 1, p.owners, u);
    assert Create(s, p, now).0.garages[p.id].owners == Reconciled(map[], 1, p.owners);
  }

  lemma {:induction false} RowMeansNamedOrJoined(log: seq<Event>, g: GarageId, u: UserId)
    ensures RowAfter(log, g, u).Some? <==>
              (LastRevision(log, g).Some? && Names(LastRevision(log, g).value.owners, u))
              || JoinedSinceRevision(log, g, u)
  {
    if |log| == 0 {
    } else {
      RowMeansNamedOrJoined(log[..|log| - 1], g, u);
    }
  }

  /**
   The users that own a garage are the owners its head revision names together with the
   users who joined by invite since that revision committed, and nobody else.
   */
  lemma OwnersAreHeadOwnersAndJoiners(accounts: set<UserId>, ops: seq<Op>, g: GarageId, u: UserId)
    requires g in Run(Empty(accounts), ops).garages
    ensures var state := Run(Empty(accounts), ops).garages[g];
            && state.head.version in state.revisions
            && (u in state.owners <==>
                  Names(state.revisions[state.head.version].owners, u)
                  || JoinedSinceRevision(Log(Empty(accounts), ops), g, u))
  {
    OwnersAreTheReplay(accounts, ops, g, u);
    RowMeansNamedOrJoined(Log(Empty(accounts), ops), g, u);
  }
}
