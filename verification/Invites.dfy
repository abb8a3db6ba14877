/**
 Client-app invites: single-use tokens with an expiry, kept as rows of texts, and the queries
 and conditional updates that decide whether one can still be redeemed.
 */
module Invites {
  import opened Prelude
  import opened SqliteTime

  /** A row of client_app_invites; the three times are TEXT columns. */
  datatype Row = Row(
    scope: string, created: string, expiration: string,
    used: Option<string>, usedBy: Option<string>, creator: Option<UserId>)

  /** Rows by token hash; a token stands for its hash. */
  type Table = map<string, Row>

  /** The Go value scanned from a row. */
  datatype Invite = Invite(
    hash: string, scope: string, created: Time, expiration: Time,
    used: Option<Time>, usedBy: Option<string>, creator: Option<UserId>)

  datatype Outcome = Ok | NotFound | AlreadyUsed | Expired | Limit | Failed

  predicate ValidScope(scope: string) {
    scope == "journey" || scope == "server_registration"
  }

  // ---- Reading ----

  /** A row whose texts are all timestamps. */
  predicate Readable(row: Row) {
    && Parse(row.created).Some? && Parse(row.expiration).Some?
    && (row.used.Some? ==> Parse(row.used.value).Some?)
  }

  predicate AllReadable(table: Table) {
    forall h | h in table :: Readable(table[h])
  }

  function Scan(hash: string, row: Row): Invite
    requires Readable(row)
  {
    Invite(hash, row.scope, Parse(row.created).value, Parse(row.expiration).value,
           if row.used.None? then None else Some(Parse(row.used.value).value), row.usedBy, row.creator)
  }

  predicate Active(i: Invite, now: Time) {
    i.used.None? && now < i.expiration
  }

  function LookupInvite(table: Table, hash: string, now: Time): Outcome {
    if hash !in table then NotFound
    else if !Readable(table[hash]) then Failed
    else
      var i := Scan(hash, table[hash]);
      if i.used.Some? then AlreadyUsed else if !(now < i.expiration) then Expired else Ok
  }

  /** used_time IS NULL AND expiration_time > ?, compared as texts. */
  predicate Redeemable(row: Row, now: Instant) {
    row.used.None? && Less(Render(now), row.expiration)
  }

  /** The rows counted by UnconsumedInviteCount. */
  function Unconsumed(table: Table, scope: string, now: Instant): set<string> {
    set h | h in table && table[h].scope == scope && Redeemable(table[h], now)
  }

  /** The rows counted against a user's cap. */
  function Outstanding(table: Table, u: UserId, scope: string, now: Instant): set<string> {
    set h | h in table && table[h].creator == Some(u) && table[h].scope == scope && Redeemable(table[h], now)
  }

  // ---- Writing ----

  function NewRow(scope: string, now: Instant, expiration: Instant, creator: Option<UserId>): Row {
    Row(scope, Render(now), Render(expiration), None, None, creator)
  }

  /** IssueInvite; the lifetime is expiration - now. */
  function Issue(table: Table, hash: string, scope: string, now: Instant, expiration: Instant): (Table, Outcome) {
    if !ValidScope(scope) || expiration <= now || hash in table then (table, Failed)
    else (table[hash := NewRow(scope, now, expiration, None)], Ok)
  }

  /** IssueInviteBy: count, then insert, in one transaction; the creator must have an account. */
  function IssueBy(
    table: Table, hash: string, scope: string, now: Instant, expiration: Instant,
    u: UserId, max: int, hasAccount: bool): (Table, Outcome)
  {
    if !ValidScope(scope) || expiration <= now || u.text == "" || max < 1 then (table, Failed)
    else if |Outstanding(table, u, scope, now)| >= max then (table, Limit)
    else if hash in table || !hasAccount then (table, Failed)
    else (table[hash := NewRow(scope, now, expiration, Some(u))], Ok)
  }

  function Used(row: Row, app: string, now: Instant): Row {
    row.(used := Some(Render(now)), usedBy := Some(app))
  }

  /** Why the conditional update touched no row. */
  function Refusal(table: Table, hash: string): Outcome {
    if hash !in table then NotFound
    else if !Readable(table[hash]) then Failed
    else if table[hash].used.Some? then AlreadyUsed else Expired
  }

  function Consume(table: Table, hash: string, app: string, now: Instant): (Table, Outcome) {
    if app == "" then (table, Failed)
    else if hash in table && Redeemable(table[hash], now) then
      var table' := table[hash := Used(table[hash], app, now)];
      (table', if Readable(table'[hash]) then Ok else Failed)
    else (table, Refusal(table, hash))
  }

  // ---- One notion of redeemable ----

  /** A readable expiry compares as text exactly as its instant compares in Go. */
  lemma ExpiryAgrees(row: Row, now: Instant)
    requires Readable(row)
    ensures Less(Render(now), row.expiration) <==> now < Parse(row.expiration).value
  {
    RenderUndoesParse(row.expiration);
    TextOrderIsTimeOrder(now, Parse(row.expiration).value);
  }

  /**
   For one table and one instant, four ways to ask are one question: is the scanned invite
   active, does a lookup succeed, would a consumption succeed, is the row counted.
   */
  lemma RedeemableOneWayOrAnother(table: Table, hash: string, app: string, now: Instant)
    requires AllReadable(table) && hash in table && app != ""
    ensures Active(Scan(hash, table[hash]), now) <==> LookupInvite(table, hash, now) == Ok
    ensures LookupInvite(table, hash, now) == Ok <==> Consume(table, hash, app, now).1 == Ok
    ensures Consume(table, hash, app, now).1 == Ok <==> hash in Unconsumed(table, table[hash].scope, now)
    ensures LookupInvite(table, hash, now) != Ok ==>
              Consume(table, hash, app, now) == (table, LookupInvite(table, hash, now))
  {
    ExpiryAgrees(table[hash], now);
    ParseUndoesRender(now);
  }

  // ---- What the writes do ----

  /** The row stands for an unused invite of this scope and creator, issued and expiring at these instants. */
  predicate FreshRow(row: Row, scope: string, now: Instant, expiration: Instant, creator: Option<UserId>) {
    && Readable(row) && Parse(row.created).value == now && Parse(row.expiration).value == expiration
    && row.scope == scope && row.creator == creator && row.used == None && row.usedBy == None
  }

  /** Issuing adds one fresh row under an unused token, and fails without a trace otherwise. */
  lemma IssueExactlyWhen(table: Table, hash: string, scope: string, now: Instant, expiration: Instant)
    ensures var (table', out) := Issue(table, hash, scope, now, expiration);
            && (out == Ok <==> scope in {"journey", "server_registration"} && now < expiration && hash !in table)
            && (out == Ok ==>
                  hash in table' && table' - {hash} == table && FreshRow(table'[hash], scope, now, expiration, None))
            && (out != Ok ==> out == Failed && table' == table)
  {
    ParseUndoesRender(now);
    ParseUndoesRender(expiration);
    var table' := Issue(table, hash, scope, now, expiration).0;
    if hash !in table { assert table' - {hash} == table; }
  }

  /** Capped issuing does the same while the user's open invites of the scope are below the limit. */
  lemma IssueByExactlyWhen(
    table: Table, hash: string, scope: string, now: Instant, expiration: Instant, u: UserId, max: int, hasAccount: bool)
    ensures var (table', out) := IssueBy(table, hash, scope, now, expiration, u, max, hasAccount);
            var sound := scope in {"journey", "server_registration"} && now < expiration && u.text != "" && max >= 1;
            var full := |Outstanding(table, u, scope, now)| >= max;
            && (out == Limit <==> sound && full)
            && (out == Ok <==> sound && !full && hash !in table && hasAccount)
            && (out == Ok ==>
                  hash in table' && table' - {hash} == table && FreshRow(table'[hash], scope, now, expiration, Some(u)))
            && (out != Ok ==> table' == table)
  {
    ParseUndoesRender(now);
    ParseUndoesRender(expiration);
    var table' := IssueBy(table, hash, scope, now, expiration, u, max, hasAccount).0;
    if hash !in table { assert table' - {hash} == table; }
  }

  /** A fresh invite can be looked up and consumed until it expires, and not from then on. */
  lemma FreshInviteIsRedeemable(
    table: Table, hash: string, scope: string, now: Instant, expiration: Instant, creator: Option<UserId>,
    app: string, t: Instant)
    requires AllReadable(table) && hash in table && FreshRow(table[hash], scope, now, expiration, creator) && app != ""
    ensures LookupInvite(table, hash, t) == (if t < expiration then Ok else Expired)
    ensures Consume(table, hash, app, t).1 == (if t < expiration then Ok else Expired)
  {
    RedeemableOneWayOrAnother(table, hash, app, t);
  }

  /** Consuming goes through for a named app on an unused invite before its expiry; each refusal has its reason. */
  lemma ConsumeExactlyWhen(table: Table, hash: string, app: string, now: Instant)
    ensures var out := Consume(table, hash, app, now).1;
            && (out == Failed <==> app == "" || (hash in table && !Readable(table[hash])))
            && (out == NotFound <==> app != "" && hash !in table)
            && (app != "" && hash in table && Readable(table[hash]) ==>
                  var used, expiry := table[hash].used.Some?, Parse(table[hash].expiration).value;
                  && (out == AlreadyUsed <==> used)
                  && (out == Expired <==> !used && expiry <= now)
                  && (out == Ok <==> !used && now < expiry))
    ensures LookupInvite(table, hash, now) == Failed <==> hash in table && !Readable(table[hash])
  {
    if hash in table && Readable(table[hash]) { ExpiryAgrees(table[hash], now); }
    ParseUndoesRender(now);
  }

  /** Consuming marks this row, and only this row, as used by the app at this instant; then it is used up. */
  lemma ConsumingUsesUp(table: Table, hash: string, app: string, now: Instant, t: Instant)
    requires AllReadable(table) && Consume(table, hash, app, now).1 == Ok
    ensures var table' := Consume(table, hash, app, now).0;
            && hash in table && table'.Keys == table.Keys
            && (forall h | h in table && h != hash :: table'[h] == table[h])
            && table'[hash].scope == table[hash].scope && table'[hash].creator == table[hash].creator
            && table'[hash].created == table[hash].created && table'[hash].expiration == table[hash].expiration
            && table'[hash].usedBy == Some(app)
            && table'[hash].used.Some? && Parse(table'[hash].used.value) == Some(now)
            && LookupInvite(table', hash, t) == AlreadyUsed && Consume(table', hash, app, t) == (table', AlreadyUsed)
  {
    ParseUndoesRender(now);
  }

  /** What is counted, in terms of instants: the user's unused invites of the scope that expire later. */
  lemma CountedAreOpen(table: Table, u: UserId, scope: string, t: Instant, h: string)
    requires AllReadable(table)
    ensures h in Outstanding(table, u, scope, t) <==>
              && h in table && table[h].creator == Some(u) && table[h].scope == scope && table[h].used.None?
              && t < Parse(table[h].expiration).value
    ensures h in OpenBy(table, u, scope, t) <==>
              h in Outstanding(table, u, scope, t) && Parse(table[h].created).value <= t
    ensures h in IssuedAfter(table, u, scope, t) <==>
              h in Outstanding(table, u, scope, t) && t < Parse(table[h].created).value
    ensures h in Unconsumed(table, scope, t) <==>
              h in table && table[h].scope == scope && table[h].used.None? && t < Parse(table[h].expiration).value
  {
    if h in table {
      ExpiryAgrees(table[h], t);
      RenderUndoesParse(table[h].created);
      TextOrderIsTimeOrder(t, Parse(table[h].created).value);
    }
  }

  // ---- What the writes keep ----

  lemma NewRowReads(scope: string, now: Instant, expiration: Instant, creator: Option<UserId>)
    ensures Readable(NewRow(scope, now, expiration, creator))
  {
    ParseUndoesRender(now);
    ParseUndoesRender(expiration);
  }

  lemma IssueKeepsReadable(table: Table, hash: string, scope: string, now: Instant, expiration: Instant)
    requires AllReadable(table)
    ensures AllReadable(Issue(table, hash, scope, now, expiration).0)
  {
    NewRowReads(scope, now, expiration, None);
  }

  lemma IssueByKeepsReadable(
    table: Table, hash: string, scope: string, now: Instant, expiration: Instant,
    u: UserId, max: int, hasAccount: bool)
    requires AllReadable(table)
    ensures AllReadable(IssueBy(table, hash, scope, now, expiration, u, max, hasAccount).0)
  {
    NewRowReads(scope, now, expiration, Some(u));
  }

  lemma ConsumeKeepsReadable(table: Table, hash: string, app: string, now: Instant)
    requires AllReadable(table)
    ensures AllReadable(Consume(table, hash, app, now).0)
  {
    ParseUndoesRender(now);
  }

  // ---- The cap ----

  /** Every invite of this user and scope was issued at or before t. */
  predicate IssuedBy(table: Table, u: UserId, scope: string, t: Instant) {
    forall h | h in table && table[h].creator == Some(u) && table[h].scope == scope ::
      !Less(Render(t), table[h].created)
  }

  /** The user's open invites at t that were issued by then: what somebody counting at t could have seen. */
  function OpenBy(table: Table, u: UserId, scope: string, t: Instant): set<string> {
    set h | h in Outstanding(table, u, scope, t) && !Less(Render(t), table[h].created)
  }

  /** Those counted at t only looking back, because they were issued after t. */
  function IssuedAfter(table: Table, u: UserId, scope: string, t: Instant): set<string> {
    set h | h in Outstanding(table, u, scope, t) && Less(Render(t), table[h].created)
  }

  /** At every instant the user's invites issued by then and still open are at most cap. */
  ghost predicate Capped(table: Table, u: UserId, scope: string, cap: nat) {
    forall t: Instant :: |OpenBy(table, u, scope, t)| <= cap
  }

  lemma SubsetCount<T>(a: set<T>, b: set<T>)
    requires a <= b
    ensures |a| <= |b|
  {
    assert b == a + (b - a);
  }

  /** Time only shrinks what is outstanding. */
  lemma OutstandingShrinks(table: Table, u: UserId, scope: string, a: Instant, b: Instant)
    requires AllReadable(table) && a <= b
    ensures Outstanding(table, u, scope, b) <= Outstanding(table, u, scope, a)
  {
    forall h | h in Outstanding(table, u, scope, b) ensures h in Outstanding(table, u, scope, a) {
      ExpiryAgrees(table[h], a);
      ExpiryAgrees(table[h], b);
    }
  }

  /**
   A capped issuance bounds the count at every instant from its clock reading on, whatever the
   table held before and even if that reading is older than the last one.
   */
  lemma IssueByCaps(
    table: Table, hash: string, scope: string, now: Instant, expiration: Instant,
    u: UserId, max: int, hasAccount: bool, t: Instant)
    requires AllReadable(table) && now <= t
    requires IssueBy(table, hash, scope, now, expiration, u, max, hasAccount).1 == Ok
    ensures |OpenBy(IssueBy(table, hash, scope, now, expiration, u, max, hasAccount).0, u, scope, t)| <= max
    ensures |Outstanding(IssueBy(table, hash, scope, now, expiration, u, max, hasAccount).0, u, scope, t)| <= max
  {
    var table' := IssueBy(table, hash, scope, now, expiration, u, max, hasAccount).0;
    OutstandingShrinks(table, u, scope, now, t);
    SubsetCount(Outstanding(table', u, scope, t), Outstanding(table, u, scope, now) + {hash});
    SubsetCount(OpenBy(table', u, scope, t), Outstanding(table', u, scope, t));
  }

  lemma IssueByKeepsCap(
    table: Table, hash: string, scope: string, now: Instant, expiration: Instant,
    u: UserId, max: int, hasAccount: bool, cap: nat)
    requires AllReadable(table) && max <= cap && Capped(table, u, scope, cap)
    requires IssueBy(table, hash, scope, now, expiration, u, max, hasAccount).1 == Ok
    ensures Capped(IssueBy(table, hash, scope, now, expiration, u, max, hasAccount).0, u, scope, cap)
  {
    var table' := IssueBy(table, hash, scope, now, expiration, u, max, hasAccount).0;
    forall t: Instant ensures |OpenBy(table', u, scope, t)| <= cap {
      if now <= t {
        IssueByCaps(table, hash, scope, now, expiration, u, max, hasAccount, t);
      } else {
        TextOrderIsTimeOrder(t, now);
        SubsetCount(OpenBy(table', u, scope, t), OpenBy(table, u, scope, t));
      }
    }
  }

  /** Rows of the user may be used up, and rows of others may come: the cap stands. */
  lemma CapStands(table: Table, table': Table, u: UserId, scope: string, cap: nat)
    requires Capped(table, u, scope, cap)
    requires forall h | h in table' && table'[h].creator == Some(u) && table'[h].scope == scope ::
               h in table && (table'[h] == table[h] || table'[h].used.Some?)
    ensures Capped(table', u, scope, cap)
  {
    forall t: Instant ensures |OpenBy(table', u, scope, t)| <= cap {
      SubsetCount(OpenBy(table', u, scope, t), OpenBy(table, u, scope, t));
    }
  }

  /** What is outstanding at t was issued by t or after it. */
  lemma OutstandingSplits(table: Table, u: UserId, scope: string, t: Instant)
    ensures |Outstanding(table, u, scope, t)| == |OpenBy(table, u, scope, t)| + |IssuedAfter(table, u, scope, t)|
    ensures IssuedBy(table, u, scope, t) ==> OpenBy(table, u, scope, t) == Outstanding(table, u, scope, t)
  {
    var open, after := OpenBy(table, u, scope, t), IssuedAfter(table, u, scope, t);
    assert Outstanding(table, u, scope, t) == open + after && open !! after;
  }

  /** An invite that expired by t2 leaves the count at t2 as it was. */
  lemma ExpiredIsNotCounted(table: Table, h: string, row: Row, u: UserId, scope: string, t: Instant, e: Instant)
    requires h !in table && row.expiration == Render(e) && e <= t
    ensures Outstanding(table[h := row], u, scope, t) == Outstanding(table, u, scope, t)
  {
    TextOrderIsTimeOrder(t, e);
  }

  /**
   Before the latest issuance the bound can be exceeded: an invite issued after another had
   expired is already counted, looking back, at a time when that other one was still open.
   */
  lemma CapFailsLookingBack(
    table: Table, a: string, b: string, scope: string, u: UserId,
    t1: Instant, e1: Instant, t2: Instant, e2: Instant, t: Instant)
    requires Outstanding(table, u, scope, t1) == {} && Outstanding(table, u, scope, t2) == {}
    requires ValidScope(scope) && u.text != "" && a !in table && b !in table && a != b
    requires t1 <= t < e1 <= t2 < e2
    ensures var first := IssueBy(table, a, scope, t1, e1, u, 1, true);
            var second := IssueBy(first.0, b, scope, t2, e2, u, 1, true);
            first.1 == Ok && second.1 == Ok && {a, b} <= Outstanding(second.0, u, scope, t)
  {
    ExpiredIsNotCounted(table, a, NewRow(scope, t1, e1, Some(u)), u, scope, t2, e1);
    TextOrderIsTimeOrder(t, e1);
    TextOrderIsTimeOrder(t, e2);
  }
}
