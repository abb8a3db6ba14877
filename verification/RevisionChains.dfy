/**
 The four revision chains (garage, garage vehicle, journey-vehicle metadata, journey-vehicle
 ACL) under interleaving. A transaction SELECTs the head at one moment and runs INSERT,
 conditional UPDATE and COMMIT at a later one; any number of others may commit in between.
 */
module RevisionChains {
  import opened Prelude

  datatype Kind = GarageChain | GarageVehicleChain | VehicleMetadata | VehicleAcl

  /** The columns of one signed revision row; the time of an ACL revision is its effective time. */
  datatype Revision = Revision(
    name: string, time: Time, signedBy: UserId, integrity: string, canonical: string,
    avatar: Option<string>, banner: Option<string>)

  /** The columns an append copies into the head row; they differ from chain to chain. */
  datatype Head =
    | GarageHead(name: string, time: Time)
    | GarageVehicleHead(
        integrity: string, canonical: string, signedBy: UserId, avatar: Option<string>, banner: Option<string>)
    | MetadataHead(integrity: string, canonical: string, avatar: Option<string>, banner: Option<string>)
    | AclHead

  function HeadOf(kind: Kind, r: Revision): Head {
    match kind
    case GarageChain => GarageHead(r.name, r.time)
    case GarageVehicleChain => GarageVehicleHead(r.integrity, r.canonical, r.signedBy, r.avatar, r.banner)
    case VehicleMetadata => MetadataHead(r.integrity, r.canonical, r.avatar, r.banner)
    case VehicleAcl => AclHead
  }

  /** Column by column: the head row of a chain of this kind shows this revision. */
  predicate Shows(kind: Kind, h: Head, r: Revision) {
    match kind
    case GarageChain => h.GarageHead? && h.name == r.name && h.time == r.time
    case GarageVehicleChain =>
      && h.GarageVehicleHead? && h.integrity == r.integrity && h.canonical == r.canonical
      && h.signedBy == r.signedBy && h.avatar == r.avatar && h.banner == r.banner
    case VehicleMetadata =>
      && h.MetadataHead? && h.integrity == r.integrity && h.canonical == r.canonical
      && h.avatar == r.avatar && h.banner == r.banner
    case VehicleAcl => h.AclHead?
  }

  datatype Key = Key(kind: Kind, id: string)

  /** A head row with its history; `scope` is the garage a garage vehicle lives in. */
  datatype Chain = Chain(scope: string, version: int, head: Head, history: map<int, Revision>)

  type Chains = map<Key, Chain>

  /**
   An append or a create. `wellFormed` is the verdict of the checks on the payload alone, and
   `references` says that the rows the new row refers to, its own head row apart, exist.
   */
  datatype Request = Request(
    key: Key, scope: string, version: int, rev: Revision, wellFormed: bool, references: bool)

  datatype Outcome = Committed | Invalid | NotFound | Conflict | WriteFailed

  /** Garage-vehicle statements also match on the garage; the other chains go by id alone. */
  predicate InScope(c: Chain, r: Request) {
    r.key.kind == GarageVehicleChain ==> c.scope == r.scope
  }

  /** Payload checks, SELECT of the head and strict version check; None lets the transaction go on. */
  function Select(chains: Chains, r: Request): Option<Outcome> {
    if !r.wellFormed then Some(Invalid)
    else if r.key !in chains || !InScope(chains[r.key], r) then Some(NotFound)
    else if r.version <= chains[r.key].version then Some(Conflict)
    else None
  }

  /** A duplicate (id, version) is reported as a conflict only where the code looks for it. */
  function DuplicateOutcome(kind: Kind): Outcome {
    if kind == GarageChain || kind == GarageVehicleChain then WriteFailed else Conflict
  }

  /** INSERT, conditional UPDATE, COMMIT; a rollback leaves the chains as they were. */
  function Commit(chains: Chains, r: Request): (Chains, Outcome) {
    if r.key !in chains then (chains, WriteFailed)
    else
      var c := chains[r.key];
      if r.version in c.history then (chains, DuplicateOutcome(r.key.kind))
      else if !r.references then (chains, WriteFailed)
      else if !InScope(c, r) || c.version >= r.version then (chains, Conflict)
      else
        var c' := Chain(c.scope, r.version, HeadOf(r.key.kind, r.rev), c.history[r.version := r.rev]);
        (chains[r.key := c'], Committed)
  }

  function Create(chains: Chains, r: Request): (Chains, Outcome) {
    if !r.wellFormed || r.version != 1 then (chains, Invalid)
    else if r.key in chains || !r.references then (chains, WriteFailed)
    else (chains[r.key := Chain(r.scope, 1, HeadOf(r.key.kind, r.rev), map[1 := r.rev])], Committed)
  }

  // ---- Interleaved runs ----

  datatype Tx = Selected(r: Request) | Finished(outcome: Outcome)

  /** One committed write: who made it, and the row it left. */
  datatype Entry = Entry(tid: nat, key: Key, version: int, rev: Revision)

  datatype State = State(chains: Chains, txs: map<nat, Tx>, log: seq<Entry>)

  datatype Action =
    | DoCreate(tid: nat, r: Request)
    | DoSelect(tid: nat, r: Request)
    | DoCommit(tid: nat)

  function Finish(s: State, tid: nat, r: Request, result: (Chains, Outcome)): State {
    State(result.0, s.txs[tid := Finished(result.1)],
          if result.1 == Committed then s.log + [Entry(tid, r.key, r.version, r.rev)] else s.log)
  }

  function Step(s: State, a: Action): State {
    match a
    case DoCreate(tid, r) =>
      if tid in s.txs then s else Finish(s, tid, r, Create(s.chains, r))
    case DoSelect(tid, r) =>
      if tid in s.txs then s
      else if Select(s.chains, r).Some? then s.(txs := s.txs[tid := Finished(Select(s.chains, r).value)])
      else s.(txs := s.txs[tid := Selected(r)])
    case DoCommit(tid) =>
      if tid in s.txs && s.txs[tid].Selected? then Finish(s, tid, s.txs[tid].r, Commit(s.chains, s.txs[tid].r))
      else s
  }

  function Run(s: State, actions: seq<Action>): State {
    if |actions| == 0 then s else Step(Run(s, actions[..|actions| - 1]), actions[|actions| - 1])
  }

  const INITIAL := State(map[], map[], [])

  // ---- Invariants ----

  /** The head is the highest stored version and shows that row's columns. */
  ghost predicate ChainOk(kind: Kind, c: Chain) {
    && 1 in c.history && c.version in c.history
    && Shows(kind, c.head, c.history[c.version])
    && forall v | v in c.history :: 1 <= v <= c.version
  }

  predicate LoggedAt(log: seq<Entry>, i: int, key: Key) {
    0 <= i < |log| && log[i].key == key
  }

  /** Committed versions of one chain rise strictly in commit order. */
  ghost predicate Rising(log: seq<Entry>) {
    forall i, j | 0 <= i < j < |log| && log[i].key == log[j].key :: log[i].version < log[j].version
  }

  /** A log entry is a stored row, written by a transaction that committed. */
  ghost predicate EntryStored(s: State, e: Entry) {
    && e.key in s.chains && Lookup(s.chains[e.key].history, e.version) == Some(e.rev)
    && Lookup(s.txs, e.tid) == Some(Finished(Committed))
  }

  ghost predicate EntriesStored(s: State) {
    forall i | 0 <= i < |s.log| :: EntryStored(s, s.log[i])
  }

  ghost predicate HasEntry(log: seq<Entry>, key: Key, v: int) {
    exists i :: LoggedAt(log, i, key) && log[i].version == v
  }

  ghost predicate RowsLogged(s: State) {
    forall key, v {:trigger HasEntry(s.log, key, v)} |
      key in s.chains && v in s.chains[key].history :: HasEntry(s.log, key, v)
  }

  /** A transaction owns at most one entry, and one exactly when it committed. */
  ghost predicate OneEntryEach(s: State) {
    && (forall i, j | 0 <= i < j < |s.log| :: s.log[i].tid != s.log[j].tid)
    && (forall tid | tid in s.txs && s.txs[tid] == Finished(Committed) ::
          exists i :: 0 <= i < |s.log| && s.log[i].tid == tid)
  }

  ghost predicate Inv(s: State) {
    ChainsOk(s.chains) && Rising(s.log) && EntriesStored(s) && RowsLogged(s) && OneEntryEach(s)
  }

  ghost predicate ChainsOk(chains: Chains) {
    forall key | key in chains :: ChainOk(key.kind, chains[key])
  }

  /** What any commit has in common, whether it starts a chain or extends one. */
  ghost predicate Extends(chains: Chains, r: Request, chains': Chains) {
    && r.key in chains'
    && chains' == chains[r.key := chains'[r.key]]
    && ChainOk(r.key.kind, chains'[r.key])
    && chains'[r.key].version == r.version
    && (if r.key in chains then
          chains[r.key].version < r.version && chains'[r.key].history == chains[r.key].history[r.version := r.rev]
        else chains'[r.key].history == map[r.version := r.rev])
  }

  lemma CommitExtends(chains: Chains, r: Request)
    requires r.key in chains ==> ChainOk(r.key.kind, chains[r.key])
    ensures Commit(chains, r).1 == Committed ==> Extends(chains, r, Commit(chains, r).0)
    ensures Create(chains, r).1 == Committed ==> Extends(chains, r, Create(chains, r).0)
    ensures Commit(chains, r).1 != Committed ==> Commit(chains, r).0 == chains
    ensures Create(chains, r).1 != Committed ==> Create(chains, r).0 == chains
  {
  }

  lemma FinishKeepsRising(s: State, tid: nat, r: Request, chains': Chains)
    requires ChainsOk(s.chains) && Rising(s.log) && EntriesStored(s) && Extends(s.chains, r, chains')
    ensures Rising(Finish(s, tid, r, (chains', Committed)).log)
  {
    var log := Finish(s, tid, r, (chains', Committed)).log;
    forall i, j | 0 <= i < j < |log| && log[i].key == log[j].key
      ensures log[i].version < log[j].version
    {
      if j == |s.log| {
        assert EntryStored(s, s.log[i]) && s.log[i] == log[i];
      }
    }
  }

  lemma FinishKeepsEntries(s: State, tid: nat, r: Request, chains': Chains)
    requires ChainsOk(s.chains) && EntriesStored(s) && Extends(s.chains, r, chains')
    ensures EntriesStored(Finish(s, tid, r, (chains', Committed)))
  {
    var s' := Finish(s, tid, r, (chains', Committed));
    forall i | 0 <= i < |s'.log|
      ensures EntryStored(s', s'.log[i])
    {
      if i < |s.log| {
        assert EntryStored(s, s.log[i]) && s'.log[i] == s.log[i];
        assert ChainOk(s.log[i].key.kind, s.chains[s.log[i].key]);
      }
    }
  }

  lemma FinishKeepsRows(s: State, tid: nat, r: Request, chains': Chains)
    requires RowsLogged(s) && Extends(s.chains, r, chains')
    ensures RowsLogged(Finish(s, tid, r, (chains', Committed)))
  {
    var s' := Finish(s, tid, r, (chains', Committed));
    forall key, v | key in s'.chains && v in s'.chains[key].history
      ensures HasEntry(s'.log, key, v)
    {
      if key == r.key && v == r.version {
        assert LoggedAt(s'.log, |s.log|, key);
      } else {
        assert HasEntry(s.log, key, v);
        var i :| LoggedAt(s.log, i, key) && s.log[i].version == v;
        assert LoggedAt(s'.log, i, key) && s'.log[i] == s.log[i];
      }
    }
  }

  lemma FinishKeepsOneEntry(s: State, tid: nat, r: Request, result: (Chains, Outcome))
    requires OneEntryEach(s) && EntriesStored(s)
    requires tid in s.txs ==> s.txs[tid].Selected?
    ensures OneEntryEach(Finish(s, tid, r, result))
  {
    var s' := Finish(s, tid, r, result);
    forall t | t in s'.txs && s'.txs[t] == Finished(Committed)
      ensures exists i :: 0 <= i < |s'.log| && s'.log[i].tid == t
    {
      if t == tid {
        assert s'.log[|s.log|].tid == tid;
      } else {
        var i :| 0 <= i < |s.log| && s.log[i].tid == t;
        assert s'.log[i] == s.log[i];
      }
    }
  }

  lemma FinishKeepsInv(s: State, tid: nat, r: Request, result: (Chains, Outcome))
    requires Inv(s) && (tid in s.txs ==> s.txs[tid].Selected?)
    requires if result.1 == Committed then Extends(s.chains, r, result.0) else result.0 == s.chains
    ensures Inv(Finish(s, tid, r, result))
  {
    FinishKeepsOneEntry(s, tid, r, result);
    if result.1 == Committed {
      FinishKeepsRising(s, tid, r, result.0);
      FinishKeepsEntries(s, tid, r, result.0);
      FinishKeepsRows(s, tid, r, result.0);
    } else {
      var s' := Finish(s, tid, r, result);
      assert forall i | 0 <= i < |s.log| :: EntryStored(s, s.log[i]) ==> EntryStored(s', s'.log[i]);
    }
  }

  lemma RecordTxKeepsInv(s: State, tid: nat, tx: Tx)
    requires Inv(s) && tid !in s.txs && tx != Finished(Committed)
    ensures Inv(s.(txs := s.txs[tid := tx]))
  {
    var s' := s.(txs := s.txs[tid := tx]);
    forall i | 0 <= i < |s'.log|
      ensures EntryStored(s', s'.log[i])
    {
      assert EntryStored(s, s.log[i]);
    }
    assert RowsLogged(s') by {
      forall key, v | key in s'.chains && v in s'.chains[key].history
        ensures HasEntry(s'.log, key, v)
      {
        assert HasEntry(s.log, key, v);
      }
    }
  }

  lemma StepKeepsInv(s: State, a: Action)
    requires Inv(s)
    ensures Inv(Step(s, a))
  {
    match a
    case DoCreate(tid, r) =>
      if tid !in s.txs {
        CommitExtends(s.chains, r);
        FinishKeepsInv(s, tid, r, Create(s.chains, r));
      }
    case DoCommit(tid) =>
      if tid in s.txs && s.txs[tid].Selected? {
        var r := s.txs[tid].r;
        CommitExtends(s.chains, r);
        FinishKeepsInv(s, tid, r, Commit(s.chains, r));
      }
    case DoSelect(tid, r) =>
      if tid !in s.txs { RecordTxKeepsInv(s, tid, Step(s, a).txs[tid]); }
  }

  /**
   Under any interleaving: each head is its chain's highest stored version and shows that
   row; committed versions rise strictly; stored rows and committed transactions match one
   to one, so a transaction that lost its race left no row.
   */
  lemma {:induction false} InterleavingsKeepInv(actions: seq<Action>)
    ensures Inv(Run(INITIAL, actions))
  {
    if |actions| == 0 {
    } else {
      InterleavingsKeepInv(actions[..|actions| - 1]);
      StepKeepsInv(Run(INITIAL, actions[..|actions| - 1]), actions[|actions| - 1]);
    }
  }

  /**
   Under any interleaving, every head column of every chain equals the column of the same name
   in the row of the head's version.
   */
  lemma HeadColumnsAreTheRows(actions: seq<Action>, key: Key)
    requires key in Run(INITIAL, actions).chains
    ensures var c := Run(INITIAL, actions).chains[key];
            && c.version in c.history
            && var row := c.history[c.version];
               match key.kind
               case GarageChain => c.head == GarageHead(row.name, row.time)
               case GarageVehicleChain =>
                 && c.head.GarageVehicleHead?
                 && c.head.integrity == row.integrity && c.head.canonical == row.canonical
                 && c.head.signedBy == row.signedBy && c.head.avatar == row.avatar && c.head.banner == row.banner
               case VehicleMetadata =>
                 && c.head.MetadataHead?
                 && c.head.integrity == row.integrity && c.head.canonical == row.canonical
                 && c.head.avatar == row.avatar && c.head.banner == row.banner
               case VehicleAcl => c.head == AclHead
  {
    InterleavingsKeepInv(actions);
    assert ChainOk(key.kind, Run(INITIAL, actions).chains[key]);
  }

  /** A garage vehicle is out of reach of requests that name another garage. */
  lemma OtherGaragesCannotAppend(chains: Chains, r: Request)
    requires r.key.kind == GarageVehicleChain && r.key in chains && chains[r.key].scope != r.scope
    ensures Select(chains, r) == Some(if r.wellFormed then NotFound else Invalid)
    ensures Commit(chains, r).1 != Committed && Commit(chains, r).0 == chains
  {
  }

  /** The other chains go by their id alone. */
  lemma ScopeIsIgnoredElsewhere(chains: Chains, r: Request, scope: string)
    requires r.key.kind != GarageVehicleChain
    ensures Select(chains, r.(scope := scope)) == Select(chains, r)
    ensures r.key in chains ==> Commit(chains, r.(scope := scope)) == Commit(chains, r)
  {
  }

  /** `c'` is `c` or a later stage of it. */
  ghost predicate Grown(c: Chain, c': Chain) {
    && c'.scope == c.scope
    && (c' == c || c.version < c'.version)
    && (forall v | v in c.history :: Lookup(c'.history, v) == Some(c.history[v]))
    && (forall v | v in c'.history && v !in c.history :: v > c.version)
  }

  lemma StepGrows(s: State, a: Action, key: Key)
    requires ChainsOk(s.chains) && key in s.chains
    ensures key in Step(s, a).chains && Grown(s.chains[key], Step(s, a).chains[key])
  {
    assert ChainOk(key.kind, s.chains[key]);
  }

  lemma StepKeepsChainsOk(s: State, a: Action)
    requires ChainsOk(s.chains)
    ensures ChainsOk(Step(s, a).chains)
  {
    if a.DoCreate? { CommitExtends(s.chains, a.r); }
    if a.DoCommit? && a.tid in s.txs && s.txs[a.tid].Selected? { CommitExtends(s.chains, s.txs[a.tid].r); }
  }

  /** From any reachable state on, heads only rise and no stored row is touched. */
  lemma {:induction false} HistoryIsAppendOnly(s: State, actions: seq<Action>, key: Key)
    requires ChainsOk(s.chains) && key in s.chains
    ensures ChainsOk(Run(s, actions).chains) && key in Run(s, actions).chains
    ensures Grown(s.chains[key], Run(s, actions).chains[key])
  {
    if |actions| == 0 {
    } else {
      var mid, a := Run(s, actions[..|actions| - 1]), actions[|actions| - 1];
      HistoryIsAppendOnly(s, actions[..|actions| - 1], key);
      StepKeepsChainsOk(mid, a);
      StepGrows(mid, a, key);
    }
  }

  /** Were the read fresh, the conditional UPDATE could not fail: only a missing reference can stop the append. */
  lemma FreshReadNeverLoses(s: State, r: Request)
    requires ChainsOk(s.chains) && Select(s.chains, r).None?
    ensures Commit(s.chains, r).1 == if r.references then Committed else WriteFailed
  {
    assert ChainOk(r.key.kind, s.chains[r.key]);
  }

  /**
   Once its SELECT passed, a transaction commits exactly when the head is still below its
   version, however many commits came in between. A loser is told of a version conflict, except
   that on the two garage chains a version taken meanwhile is reported as a failed write.
   */
  lemma {:induction false} StaleReadLosesExactlyWhenOvertaken(s: State, actions: seq<Action>, r: Request)
    requires ChainsOk(s.chains) && Select(s.chains, r).None?
    ensures var chains := Run(s, actions).chains;
            && r.key in chains
            && (Commit(chains, r).1 == Committed <==> chains[r.key].version < r.version && r.references)
            && (r.references && r.version <= chains[r.key].version ==>
                  Commit(chains, r).1 ==
                    if r.version in chains[r.key].history && r.key.kind in {GarageChain, GarageVehicleChain}
                    then WriteFailed else Conflict)
            && (Commit(chains, r).1 != Committed ==> Commit(chains, r).0 == chains)
  {
    HistoryIsAppendOnly(s, actions, r.key);
    assert ChainOk(r.key.kind, Run(s, actions).chains[r.key]);
  }

  // ---- The revision in force at a time ----

  /** What a query for the highest version whose time has come answers on a chain. */
  ghost predicate AnswersAt(c: Chain, t: Time, v: Option<int>) {
    match v
    case None => forall n | n in c.history :: c.history[n].time > t
    case Some(v) =>
      && v in c.history && c.history[v].time <= t
      && forall n | n in c.history && c.history[n].time <= t :: n <= v
  }

  /** The last committed revision of the chain whose time has come. */
  function LastInForce(log: seq<Entry>, key: Key, t: Time): Option<int> {
    if |log| == 0 then None
    else
      var e := log[|log| - 1];
      if e.key == key && e.rev.time <= t then Some(e.version) else LastInForce(log[..|log| - 1], key, t)
  }

  lemma {:induction false} LastInForceIsLast(log: seq<Entry>, key: Key, t: Time) returns (i: int)
    ensures -1 <= i < |log| && (i == -1 <==> LastInForce(log, key, t).None?)
    ensures i >= 0 ==>
              log[i].key == key && log[i].rev.time <= t && LastInForce(log, key, t) == Some(log[i].version)
    ensures forall j | i < j < |log| && log[j].key == key :: log[j].rev.time > t
  {
    if |log| == 0 {
      i := -1;
    } else {
      var n := |log| - 1;
      if log[n].key == key && log[n].rev.time <= t {
        i := n;
      } else {
        i := LastInForceIsLast(log[..n], key, t);
        assert i >= 0 ==> log[..n][i] == log[i];
        assert forall j | 0 <= j < n :: log[..n][j] == log[j];
      }
    }
  }

  lemma LoggedRow(s: State, key: Key, v: int) returns (i: int)
    requires EntriesStored(s) && RowsLogged(s) && key in s.chains && v in s.chains[key].history
    ensures LoggedAt(s.log, i, key) && s.log[i].version == v && s.log[i].rev == s.chains[key].history[v]
  {
    assert HasEntry(s.log, key, v);
    i :| LoggedAt(s.log, i, key) && s.log[i].version == v;
    assert EntryStored(s, s.log[i]);
  }

  lemma FoldAnswers(s: State, key: Key, t: Time)
    requires Rising(s.log) && EntriesStored(s) && RowsLogged(s) && key in s.chains
    ensures AnswersAt(s.chains[key], t, LastInForce(s.log, key, t))
  {
    var c := s.chains[key];
    var i := LastInForceIsLast(s.log, key, t);
    if i >= 0 { assert EntryStored(s, s.log[i]); }
    forall n | n in c.history && c.history[n].time <= t ensures i >= 0 && n <= s.log[i].version {
      var j := LoggedRow(s, key, n);
      assert j <= i;
    }
  }

  /**
   Under any interleaving, stale reads included, the revision in force at any instant is the
   last one committed whose time has come: the query folds the commit log.
   */
  lemma InterleavedQueryFoldsTheLog(actions: seq<Action>, key: Key, t: Time)
    requires key in Run(INITIAL, actions).chains
    ensures AnswersAt(Run(INITIAL, actions).chains[key], t, LastInForce(Run(INITIAL, actions).log, key, t))
  {
    InterleavingsKeepInv(actions);
    FoldAnswers(Run(INITIAL, actions), key, t);
  }

  /** A commit, however stale its read, takes over from its time on and changes no earlier answer. */
  lemma CommittedRevisionTakesOver(chains: Chains, r: Request, t: Time, v: Option<int>)
    requires r.key in chains && ChainOk(r.key.kind, chains[r.key]) && AnswersAt(chains[r.key], t, v)
    requires Commit(chains, r).1 == Committed
    ensures AnswersAt(Commit(chains, r).0[r.key], t, if r.rev.time <= t then Some(r.version) else v)
  {
  }

  // ---- The store methods ----

  class ChainStore {
    var chains: Chains

    constructor ()
      ensures chains == map[]
    {
      chains := map[];
    }

    method CreateChain(r: Request) returns (out: Outcome)
      modifies this
      ensures (chains, out) == Create(old(chains), r)
      ensures out == Committed ==> r.key in chains && Shows(r.key.kind, chains[r.key].head, r.rev)
    {
      if !r.wellFormed || r.version != 1 { return Invalid; }
      if r.key in chains || !r.references { return WriteFailed; }
      chains := chains[r.key := Chain(r.scope, r.version, HeadOf(r.key.kind, r.rev), map[r.version := r.rev])];
      return Committed;
    }

    /** INSERT INTO the history, conditional UPDATE of the head row, rollback on zero rows. */
    method CommitAppend(r: Request) returns (out: Outcome)
      modifies this
      ensures (chains, out) == Commit(old(chains), r)
      ensures out == Committed ==> r.key in chains && Shows(r.key.kind, chains[r.key].head, r.rev)
    {
      var saved := chains;
      if r.key !in chains { return WriteFailed; }
      if r.version in chains[r.key].history {
        return if r.key.kind == GarageChain || r.key.kind == GarageVehicleChain then WriteFailed else Conflict;
      }
      if !r.references { return WriteFailed; }
      chains := chains[r.key := chains[r.key].(history := chains[r.key].history[r.version := r.rev])];
      var affected := 0;
      var c := chains[r.key];
      if c.version < r.version && (r.key.kind == GarageVehicleChain ==> c.scope == r.scope) {
        chains := chains[r.key := c.(version := r.version, head := HeadOf(r.key.kind, r.rev))];
        affected := 1;
      }
      if affected == 0 {
        chains := saved;
        return Conflict;
      }
      assert chains == Commit(old(chains), r).0;
      return Committed;
    }

    method AppendRevision(r: Request) returns (out: Outcome)
      modifies this
      ensures (chains, out) == if Select(old(chains), r).Some? then (old(chains), Select(old(chains), r).value)
                               else Commit(old(chains), r)
    {
      if !r.wellFormed { return Invalid; }
      if r.key !in chains { return NotFound; }
      if r.key.kind == GarageVehicleChain && chains[r.key].scope != r.scope { return NotFound; }
      if r.version <= chains[r.key].version { return Conflict; }
      out := CommitAppend(r);
    }
  }
}
