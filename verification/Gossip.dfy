/**
 Gossip: the record handler taken as one step, peers delivering the same attestations in any
 order and with any duplication, and the queries over the resulting table.
 */
module Gossip {
  import opened Prelude
  import opened Attestations
  import JV = JourneyVehicles

  datatype Status =
    | Created201 | Existing200 | BadRequest400 | NoAcl400 | DriverMismatch403 | BadSignature403 | NotFound404

  /** A submission the handler would store when its key is free. */
  predicate Storable(w: JV.World, s: Submission) {
    && s.vehicle in w.vehicles && w.vehicles[s.vehicle].journey == s.journey
    && s.verified && Classify(w, w.vehicles[s.vehicle].owner, s).Some?
  }

  function TrustOf(w: JV.World, s: Submission): Trust
    requires Storable(w, s)
  {
    Classify(w, w.vehicles[s.vehicle].owner, s).value
  }

  /** A claim for a vehicle of this journey, correctly signed. */
  predicate Genuine(w: JV.World, s: Submission) {
    s.vehicle in w.vehicles && w.vehicles[s.vehicle].journey == s.journey && s.verified
  }

  ghost predicate ChainsOk(w: JV.World) {
    forall id | id in w.vehicles :: JV.AclChainOk(w.vehicles[id])
  }

  /**
   The flag of a storable claim, for the ACL version n in force at its time: authorized exactly
   for the owner and the listed drivers, emergency fallback exactly for a participant that the
   rule admits, a violation otherwise. A genuine claim is storable exactly when there is such an n.
   */
  lemma TrustTable(w: JV.World, s: Submission)
    requires ChainsOk(w)
    ensures Storable(w, s) <==>
              Genuine(w, s) && exists n :: InForce(w.vehicles[s.vehicle], s.effective, n)
    ensures Storable(w, s) ==>
              var v := w.vehicles[s.vehicle];
              && (exists n :: InForce(v, s.effective, n))
              && forall n | InForce(v, s.effective, n) ::
                   var known := s.driver == v.owner || s.driver in v.acls[n].drivers;
                   var admitted := v.acls[n].rule == JV.AnyJourneyParticipant && IsParticipant(w, s.driver, s.journey);
                   && (TrustOf(w, s) == Authorized <==> known)
                   && (TrustOf(w, s) == EmergencyFallback <==> !known && admitted)
                   && (TrustOf(w, s) == AclViolation <==> !known && !admitted)
  {
    if Genuine(w, s) {
      ClassificationTable(w, w, s);
    }
  }

  function Deliver(w: JV.World, table: Table, s: Submission, id: nat, now: Time): Table {
    if Storable(w, s) && KeyOf(s) !in table then table[KeyOf(s) := Record(id, s, TrustOf(w, s), now)] else table
  }

  /** A delivery together with the id and time the server happens to mint for it. */
  datatype Delivery = Delivery(s: Submission, id: nat, now: Time)

  function DeliverAll(w: JV.World, ds: seq<Delivery>): Table {
    if |ds| == 0 then map[]
    else Deliver(w, DeliverAll(w, ds[..|ds| - 1]), ds[|ds| - 1].s, ds[|ds| - 1].id, ds[|ds| - 1].now)
  }

  predicate Delivered(ds: seq<Delivery>, s: Submission) {
    exists i :: 0 <= i < |ds| && ds[i].s == s
  }

  /** One key, one payload. */
  ghost predicate PayloadByKey(ds: seq<Delivery>) {
    forall i, j | 0 <= i < |ds| && 0 <= j < |ds| && KeyOf(ds[i].s) == KeyOf(ds[j].s) :: ds[i].s == ds[j].s
  }

  /** What peers can compare: payload and trust flag, without server-side ids and times. */
  function Content(table: Table): map<Key, (Submission, Trust)> {
    map k | k in table :: (table[k].sub, table[k].trust)
  }

  /** The table holds exactly the storable submissions that were delivered, each with its own flag. */
  lemma {:induction false} TableIsWhatWasDelivered(w: JV.World, ds: seq<Delivery>, k: Key)
    requires PayloadByKey(ds)
    ensures k in DeliverAll(w, ds) <==> exists s :: Delivered(ds, s) && KeyOf(s) == k && Storable(w, s)
    ensures k in DeliverAll(w, ds) ==>
              var rec := DeliverAll(w, ds)[k];
              Delivered(ds, rec.sub) && KeyOf(rec.sub) == k && Storable(w, rec.sub) && rec.trust == TrustOf(w, rec.sub)
  {
    if |ds| == 0 {
    } else {
      var n := |ds| - 1;
      var before, last := ds[..n], ds[n].s;
      TableIsWhatWasDelivered(w, before, k);
      assert forall s :: Delivered(ds, s) <==> Delivered(before, s) || s == last by {
        forall s | Delivered(before, s) ensures Delivered(ds, s) {
          var i :| 0 <= i < |before| && before[i].s == s;
          assert ds[i].s == s;
        }
        assert ds[n].s == last;
      }
    }
  }

  /** So every delivered record carries the flag the table gives it. */
  lemma DeliveredFlagsFollowTheTable(w: JV.World, ds: seq<Delivery>, k: Key, n: int)
    requires PayloadByKey(ds) && ChainsOk(w) && k in DeliverAll(w, ds)
    ensures var rec := DeliverAll(w, ds)[k];
            && k == Key(rec.sub.vehicle, rec.sub.driver, rec.sub.effective) && Genuine(w, rec.sub)
            && (InForce(w.vehicles[k.vehicle], k.effective, n) ==>
                  var v := w.vehicles[k.vehicle];
                  Deserves(k.driver, v.owner, v.acls[n], IsParticipant(w, k.driver, v.journey), rec.trust))
  {
    TableIsWhatWasDelivered(w, ds, k);
    var rec := DeliverAll(w, ds)[k];
    TrustTable(w, rec.sub);
    ClassificationTable(w, w, rec.sub);
  }

  /**
   Two peers that received the same attestations, in whatever order and however often,
   hold the same payloads with the same trust flags.
   */
  lemma GossipConverges(w: JV.World, one: seq<Delivery>, two: seq<Delivery>)
    requires PayloadByKey(one) && PayloadByKey(two)
    requires forall s :: Delivered(one, s) <==> Delivered(two, s)
    ensures Content(DeliverAll(w, one)) == Content(DeliverAll(w, two))
  {
    var a, b := DeliverAll(w, one), DeliverAll(w, two);
    forall k
      ensures k in a <==> k in b
      ensures k in a ==> Content(a)[k] == Content(b)[k]
    {
      TableIsWhatWasDelivered(w, one, k);
      TableIsWhatWasDelivered(w, two, k);
      if k in a && k in b {
        assert Delivered(one, a[k].sub) && Delivered(one, b[k].sub);
        var i :| 0 <= i < |one| && one[i].s == a[k].sub;
        var j :| 0 <= j < |one| && one[j].s == b[k].sub;
        assert KeyOf(one[i].s) == KeyOf(one[j].s);
      }
    }
  }

  // ---- Queries ----

  predicate RowOf(table: Table, v: VehicleId, r: Record) {
    KeyOf(r.sub) in table && table[KeyOf(r.sub)] == r && r.sub.vehicle == v
  }

  predicate Keyed(table: Table) {
    forall k | k in table :: KeyOf(table[k].sub) == k
  }

  /** ORDER BY effective_time, received_at. */
  predicate Before(a: Record, b: Record) {
    a.sub.effective < b.sub.effective || (a.sub.effective == b.sub.effective && a.receivedAt <= b.receivedAt)
  }

  /** What CurrentDriverForJourneyVehicle may answer: of the rows up to then the latest, by effect and by receipt. */
  ghost predicate IsCurrent(table: Table, v: VehicleId, at: Time, r: Option<Record>) {
    if r.None? then forall x | RowOf(table, v, x) :: x.sub.effective > at
    else
      && RowOf(table, v, r.value) && r.value.sub.effective <= at
      && forall x | RowOf(table, v, x) && x.sub.effective <= at ::
           && x.sub.effective <= r.value.sub.effective
           && (x.sub.effective == r.value.sub.effective ==> x.receivedAt <= r.value.receivedAt)
  }

  /** What ListDriverAttestations may answer: every row of the vehicle, in order. */
  ghost predicate IsListing(table: Table, v: VehicleId, list: seq<Record>) {
    && (forall i | 0 <= i < |list| :: RowOf(table, v, list[i]))
    && (forall x | RowOf(table, v, x) :: x in list)
    && (forall i, j | 0 <= i < j < |list| :: Before(list[i], list[j]))
  }

  function UpTo(list: seq<Record>, at: Time): (r: seq<Record>)
    ensures forall x :: x in r <==> x in list && x.sub.effective <= at
  {
    if |list| == 0 then []
    else
      var n := |list| - 1;
      if list[n].sub.effective <= at then UpTo(list[..n], at) + [list[n]] else UpTo(list[..n], at)
  }

  lemma {:induction false} LastUpToIsLast(list: seq<Record>, at: Time, x: Record)
    requires forall i, j | 0 <= i < j < |list| :: Before(list[i], list[j])
    requires x in UpTo(list, at)
    ensures var r := UpTo(list, at); Before(x, r[|r| - 1])
  {
    var n := |list| - 1;
    if list[n].sub.effective > at {
      LastUpToIsLast(list[..n], at, x);
    }
  }

  /** No two rows of the vehicle tie in the order of the query. */
  ghost predicate NoTies(table: Table, v: VehicleId) {
    forall x, y | RowOf(table, v, x) && RowOf(table, v, y) && Before(x, y) && Before(y, x) :: x == y
  }

  /** The current driver is the last entry of the listing cut off at the queried time. */
  lemma CurrentIsLastListed(table: Table, v: VehicleId, at: Time, list: seq<Record>, r: Option<Record>)
    requires IsListing(table, v, list) && IsCurrent(table, v, at, r) && NoTies(table, v)
    ensures var cut := UpTo(list, at);
            r == if |cut| == 0 then None else Some(cut[|cut| - 1])
  {
    var cut := UpTo(list, at);
    if |cut| > 0 {
      var last := cut[|cut| - 1];
      assert last in cut;
      assert RowOf(table, v, last);
      assert r.Some?;
      assert r.value in cut;
      LastUpToIsLast(list, at, r.value);
      assert Before(last, r.value);
    }
  }

  /** No vehicle has two attestations with one effective time. */
  ghost predicate DistinctTimes(table: Table) {
    forall k, k' | k in table && k' in table && k.vehicle == k'.vehicle && k.effective == k'.effective :: k == k'
  }

  /** With equal contents and distinct times, both peers name the same current driver at every time. */
  lemma CurrentDriverConverges(a: Table, b: Table, v: VehicleId, at: Time, ra: Option<Record>, rb: Option<Record>)
    requires Keyed(a) && Keyed(b) && Content(a) == Content(b) && DistinctTimes(a)
    requires IsCurrent(a, v, at, ra) && IsCurrent(b, v, at, rb)
    ensures ra.Some? <==> rb.Some?
    ensures ra.Some? ==> ra.value.sub == rb.value.sub && ra.value.trust == rb.value.trust
  {
    assert a.Keys == Content(a).Keys && b.Keys == Content(b).Keys;
    if ra.Some? {
      var k := KeyOf(ra.value.sub);
      assert Content(b)[k] == Content(a)[k];
      assert RowOf(b, v, b[k]);
    }
    if rb.Some? {
      var k := KeyOf(rb.value.sub);
      assert Content(a)[k] == Content(b)[k];
      assert RowOf(a, v, a[k]);
    }
  }

  lemma DistinctTimesDoNotTie(table: Table, v: VehicleId)
    requires Keyed(table) && DistinctTimes(table)
    ensures NoTies(table, v)
  {
    forall x, y | RowOf(table, v, x) && RowOf(table, v, y) && Before(x, y) && Before(y, x) ensures x == y {
      assert KeyOf(x.sub).effective == KeyOf(y.sub).effective;
    }
  }

  lemma DeliveriesAreKeyed(w: JV.World, ds: seq<Delivery>)
    requires PayloadByKey(ds)
    ensures Keyed(DeliverAll(w, ds))
  {
    forall k | k in DeliverAll(w, ds) ensures KeyOf(DeliverAll(w, ds)[k].sub) == k {
      TableIsWhatWasDelivered(w, ds, k);
    }
  }

  /**
   Peers that received the same attestations, in any order and with any repetition, name the
   same driver for every instant, and it is the last one listed up to that instant.
   */
  lemma PeersAgreeOnTheDriver(
    w: JV.World, one: seq<Delivery>, two: seq<Delivery>, v: VehicleId, at: Time,
    list: seq<Record>, ra: Option<Record>, rb: Option<Record>)
    requires PayloadByKey(one) && PayloadByKey(two) && forall s :: Delivered(one, s) <==> Delivered(two, s)
    requires DistinctTimes(DeliverAll(w, one)) && IsListing(DeliverAll(w, one), v, list)
    requires IsCurrent(DeliverAll(w, one), v, at, ra) && IsCurrent(DeliverAll(w, two), v, at, rb)
    ensures ra.Some? <==> rb.Some?
    ensures ra.Some? ==> ra.value.sub == rb.value.sub && ra.value.trust == rb.value.trust
    ensures var cut := UpTo(list, at); ra == if |cut| == 0 then None else Some(cut[|cut| - 1])
  {
    DeliveriesAreKeyed(w, one);
    DeliveriesAreKeyed(w, two);
    GossipConverges(w, one, two);
    CurrentDriverConverges(DeliverAll(w, one), DeliverAll(w, two), v, at, ra, rb);
    DistinctTimesDoNotTie(DeliverAll(w, one), v);
    CurrentIsLastListed(DeliverAll(w, one), v, at, list, ra);
  }

  // ---- The handler and the query as methods ----

  /** The request is well formed and the claim is the caller's own. */
  predicate Admitted(s: Submission, decoded: bool, caller: UserId) {
    decoded && s.driver == caller
  }

  predicate Listed(w: JV.World, s: Submission) {
    s.vehicle in w.vehicles && w.vehicles[s.vehicle].journey == s.journey
  }

  class AttestationStore {
    var table: Table

    constructor ()
      ensures table == map[]
    {
      table := map[];
    }

    /** INSERT guarded by the unique index on the replay key. */
    method RecordDriverAttestation(rec: Record) returns (duplicate: bool)
      modifies this
      ensures duplicate <==> KeyOf(rec.sub) in old(table)
      ensures table == if duplicate then old(table) else old(table)[KeyOf(rec.sub) := rec]
    {
      duplicate := KeyOf(rec.sub) in table;
      if !duplicate {
        table := table[KeyOf(rec.sub) := rec];
      }
    }

    /**
     handleDriverAttestationRecord from the vehicle lookup to the status it answers. `decoded`
     says that the body decodes, validates, carries an envelope and names the path's vehicle;
     `caller` is the user of the session.
     */
    method HandleRecord(w: JV.World, s: Submission, decoded: bool, caller: UserId, id: nat, now: Time)
      returns (status: Status, rec: Option<Record>)
      modifies this
      ensures status == NotFound404 <==> !Listed(w, s)
      ensures status == BadRequest400 <==> Listed(w, s) && !decoded
      ensures status == DriverMismatch403 <==> Listed(w, s) && decoded && s.driver != caller
      ensures var own := Listed(w, s) && decoded && s.driver == caller;
              var k := Key(s.vehicle, s.driver, s.effective);
              && (status == Existing200 <==> own && k in old(table))
              && (status == BadSignature403 <==> own && k !in old(table) && !s.verified)
              && (status == NoAcl400 <==> own && k !in old(table) && s.verified && !HasAcl(w, s.vehicle, s.effective))
              && (status == Created201 <==> own && k !in old(table) && s.verified && HasAcl(w, s.vehicle, s.effective))
              && (status != Created201 ==> table == old(table))
              && (status == Created201 ==> rec.Some? && table == old(table)[k := rec.value])
              && (status == Existing200 ==> rec == Some(old(table)[k]))
      ensures status == Created201 ==> rec.value.id == id && rec.value.sub == s && rec.value.receivedAt == now
      ensures status == Created201 && JV.AclChainOk(w.vehicles[s.vehicle]) ==>
                var v := w.vehicles[s.vehicle];
                exists n :: InForce(v, s.effective, n) &&
                     Deserves(s.driver, v.owner, v.acls[n], IsParticipant(w, s.driver, s.journey), rec.value.trust)
      ensures table == if Admitted(s, decoded, caller) then Deliver(w, old(table), s, id, now) else old(table)
    {
      if s.vehicle !in w.vehicles || w.vehicles[s.vehicle].journey != s.journey { return NotFound404, None; }
      if !decoded { return BadRequest400, None; }
      if s.driver != caller { return DriverMismatch403, None; }
      var owner := w.vehicles[s.vehicle].owner;
      if JV.AclChainOk(w.vehicles[s.vehicle]) { ClassificationTable(w, w, s); }
      if KeyOf(s) in table { return Existing200, Some(table[KeyOf(s)]); }
      if !s.verified { return BadSignature403, None; }
      var trust;
      match ReadAcl(w, owner, s) {
        case NoAcl => return NoAcl400, None;
        case Settled(t) => trust := t;
        case AsksParticipant => trust := ReadParticipant(w, s);
      }
      var minted := Record(id, s, trust, now);
      var duplicate := RecordDriverAttestation(minted);
      return Created201, Some(minted);
    }

    method CurrentDriver(v: VehicleId, at: Time) returns (r: Option<Record>)
      requires Keyed(table)
      ensures IsCurrent(table, v, at, r)
    {
      r := None;
      var seen: map<Key, Record>, todo := map[], table.Keys;
      while todo != {}
        invariant todo <= table.Keys && seen == map k | k in table && k !in todo :: table[k]
        invariant IsCurrent(seen, v, at, r)
      {
        var k :| k in todo;
        todo := todo - {k};
        var x := table[k];
        ghost var earlier := seen;
        seen := seen[k := x];
        assert forall y :: RowOf(seen, v, y) <==> RowOf(earlier, v, y) || (y == x && x.sub.vehicle == v);
        if x.sub.vehicle == v && x.sub.effective <= at && (r.None? || Before(r.value, x)) {
          r := Some(x);
        }
      }
      assert seen == table;
    }
  }
}
