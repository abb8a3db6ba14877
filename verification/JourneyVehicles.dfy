/**
 Journey vehicles: one head row that carries two independent chains (metadata and ACL), the
 ACL-at-time query, and the owner-only append handlers with their departure freeze.
 */
module JourneyVehicles {
  import opened Prelude

  datatype EmergencyRule = NoRule | AnyJourneyParticipant

  /** A signed ACL; `wellFormed` is Validate with envelope and payload present, `verified` the signature check. */
  datatype Acl = Acl(
    vehicle: VehicleId, owner: UserId, version: int, effective: Time,
    drivers: seq<UserId>, rule: EmergencyRule, payload: string, wellFormed: bool, verified: bool)

  /** A signed metadata bundle. */
  datatype Bundle = Bundle(
    vehicle: VehicleId, owner: UserId, version: int, integrity: string, canonical: string,
    avatar: Option<string>, banner: Option<string>, wellFormed: bool, verified: bool)

  /** A journey_vehicles row with its two history tables. */
  datatype Vehicle = Vehicle(
    journey: JourneyId, owner: UserId, revisionVersion: int, aclVersion: int,
    integrity: string, canonical: string, avatar: Option<string>, banner: Option<string>,
    bundles: map<int, Bundle>, acls: map<int, Acl>)

  type Vehicles = map<VehicleId, Vehicle>

  datatype Outcome = Done | Invalid | DuplicateId | DuplicateOwner | WriteFailed | NotFound | Conflict | Forbidden

  // ---- Store transactions ----

  predicate OwnerTaken(vs: Vehicles, journey: JourneyId, owner: UserId) {
    exists id :: id in vs && vs[id].journey == journey && vs[id].owner == owner
  }

  /** CreateJourneyVehicle; `references` says that the journey and the owner's account exist. */
  function Create(vs: Vehicles, journey: JourneyId, b: Bundle, a: Acl, references: bool): (Vehicles, Outcome) {
    if journey.text == "" || !b.wellFormed || !a.wellFormed || a.vehicle != b.vehicle || a.owner != b.owner
       || b.version != 1 || a.version != 1 then (vs, Invalid)
    else if b.vehicle in vs then (vs, DuplicateId)
    else if OwnerTaken(vs, journey, b.owner) then (vs, DuplicateOwner)
    else if !references then (vs, WriteFailed)
    else
      (vs[b.vehicle := Vehicle(journey, b.owner, 1, 1, b.integrity, b.canonical, b.avatar, b.banner,
                               map[1 := b], map[1 := a])], Done)
  }

  function AppendAcl(vs: Vehicles, id: VehicleId, a: Acl): (Vehicles, Outcome) {
    if !a.wellFormed then (vs, Invalid)
    else if id !in vs then (vs, NotFound)
    else
      var v := vs[id];
      if a.version <= v.aclVersion || a.version in v.acls then (vs, Conflict)
      else (vs[id := v.(aclVersion := a.version, acls := v.acls[a.version := a])], Done)
  }

  function AppendBundle(vs: Vehicles, id: VehicleId, b: Bundle): (Vehicles, Outcome) {
    if !b.wellFormed then (vs, Invalid)
    else if id !in vs then (vs, NotFound)
    else
      var v := vs[id];
      if b.version <= v.revisionVersion || b.version in v.bundles then (vs, Conflict)
      else
        (vs[id := v.(revisionVersion := b.version, integrity := b.integrity, canonical := b.canonical,
                     avatar := b.avatar, banner := b.banner, bundles := v.bundles[b.version := b])], Done)
  }

  /** A metadata append and an ACL append commute, outcomes included, also on one vehicle. */
  lemma AppendsCommute(vs: Vehicles, id: VehicleId, a: Acl, id': VehicleId, b: Bundle)
    ensures AppendBundle(AppendAcl(vs, id, a).0, id', b).0 == AppendAcl(AppendBundle(vs, id', b).0, id, a).0
    ensures AppendBundle(AppendAcl(vs, id, a).0, id', b).1 == AppendBundle(vs, id', b).1
    ensures AppendAcl(AppendBundle(vs, id', b).0, id, a).1 == AppendAcl(vs, id, a).1
  {
    var one := AppendBundle(AppendAcl(vs, id, a).0, id', b).0;
    var two := AppendAcl(AppendBundle(vs, id', b).0, id, a).0;
    assert one.Keys == two.Keys == vs.Keys;
    assert forall k | k in vs :: one[k] == two[k];
  }

  // ---- The ACL in force at a time ----

  /** The highest version not above `n` whose effective time has come. */
  function Newest(acls: map<int, Acl>, t: Time, n: int): (r: Option<int>)
    ensures r.Some? ==> r.value in acls && acls[r.value].effective <= t && 1 <= r.value <= n
    ensures forall v | v in acls && 1 <= v <= n && acls[v].effective <= t :: r.Some? && v <= r.value
    decreases n
  {
    if n < 1 then None
    else if n in acls && acls[n].effective <= t then Some(n)
    else Newest(acls, t, n - 1)
  }

  /** The version JourneyVehicleACLAt answers with. */
  function AclAt(v: Vehicle, t: Time): Option<int> {
    Newest(v.acls, t, v.aclVersion)
  }

  ghost predicate AclChainOk(v: Vehicle) {
    && v.aclVersion in v.acls
    && forall n | n in v.acls :: 1 <= n <= v.aclVersion && v.acls[n].version == n
  }

  /** The answer is the highest of all stored versions in force, and none is missed. */
  lemma AclAtIsTheHighestInForce(v: Vehicle, t: Time)
    requires AclChainOk(v)
    ensures AclAt(v, t).None? <==> forall n | n in v.acls :: v.acls[n].effective > t
    ensures AclAt(v, t).Some? ==>
              && AclAt(v, t).value in v.acls && v.acls[AclAt(v, t).value].effective <= t
              && forall n | n in v.acls && v.acls[n].effective <= t :: n <= AclAt(v, t).value
  {
  }

  lemma {:induction false} NewestSkipsNothing(acls: map<int, Acl>, t: Time, from: int, n: int)
    requires from <= n && forall k | k in acls :: k <= from
    ensures Newest(acls, t, n) == Newest(acls, t, from)
    decreases n - from
  {
    if n == from {
    } else {
      NewestSkipsNothing(acls, t, from, n - 1);
    }
  }

  lemma {:induction false} NewestAgrees(one: map<int, Acl>, two: map<int, Acl>, t: Time, n: int)
    requires forall k | 1 <= k <= n :: Lookup(one, k) == Lookup(two, k)
    ensures Newest(one, t, n) == Newest(two, t, n)
    decreases n
  {
    if n < 1 {
    } else {
      assert Lookup(one, n) == Lookup(two, n);
      NewestAgrees(one, two, t, n - 1);
    }
  }

  /**
   A committed ACL is the answer from its effective time on and changes no earlier answer,
   also when that time lies in the past.
   */
  lemma AppendedAclTakesOver(vs: Vehicles, id: VehicleId, a: Acl, t: Time)
    requires id in vs && AclChainOk(vs[id]) && AppendAcl(vs, id, a).1 == Done
    ensures var v' := AppendAcl(vs, id, a).0[id];
            && AclChainOk(v')
            && AclAt(v', t) == if a.effective <= t then Some(a.version) else AclAt(vs[id], t)
  {
    var v, v' := vs[id], AppendAcl(vs, id, a).0[id];
    if a.effective > t {
      assert AclAt(v', t) == Newest(v'.acls, t, a.version - 1);
      NewestAgrees(v'.acls, v.acls, t, a.version - 1);
      NewestSkipsNothing(v.acls, t, v.aclVersion, a.version - 1);
    }
  }

  /** Later instants never see an older ACL. */
  lemma AclAtIsMonotone(v: Vehicle, t: Time, t': Time)
    requires AclChainOk(v) && t <= t'
    ensures AclAt(v, t).Some? ==> AclAt(v, t').Some? && AclAt(v, t).value <= AclAt(v, t').value
  {
  }

  // ---- Requests against the handlers ----

  datatype World = World(vehicles: Vehicles, joined: set<(UserId, JourneyId)>)

  datatype Req =
    | CreateReq(session: UserId, journey: JourneyId, b: Bundle, a: Acl, references: bool)
    | AclReq(session: UserId, journey: JourneyId, vid: VehicleId, a: Acl)
    | BundleReq(session: UserId, journey: JourneyId, vid: VehicleId, b: Bundle)
    | Join(u: UserId, journey: JourneyId)
    | Leave(u: UserId, journey: JourneyId)

  /** authorizeJourneyVehicleOwner: recorded owner, and still a joined participant. */
  function Authorize(w: World, session: UserId, journey: JourneyId, vid: VehicleId): Outcome {
    if journey.text == "" || vid.text == "" || vid !in w.vehicles || w.vehicles[vid].journey != journey then NotFound
    else if w.vehicles[vid].owner != session then Forbidden
    else if (w.vehicles[vid].owner, journey) !in w.joined || session.text == "" then Forbidden
    else Done
  }

  function Handle(w: World, req: Req): (World, Outcome) {
    match req
    case CreateReq(session, journey, b, a, references) =>
      if !b.wellFormed || !a.wellFormed || a.vehicle != b.vehicle || a.owner != b.owner
         || b.version != 1 || a.version != 1
      then (w, Invalid)
      else if b.owner != session || !b.verified || !a.verified then (w, Forbidden)
      else
        var r := Create(w.vehicles, journey, b, a, references);
        (w.(vehicles := r.0), r.1)
    case AclReq(session, journey, vid, a) =>
      if Authorize(w, session, journey, vid) != Done then (w, Authorize(w, session, journey, vid))
      else if !a.wellFormed || a.vehicle != vid then (w, Invalid)
      else if a.owner != session || !a.verified then (w, Forbidden)
      else
        var r := AppendAcl(w.vehicles, vid, a);
        (w.(vehicles := r.0), r.1)
    case BundleReq(session, journey, vid, b) =>
      if Authorize(w, session, journey, vid) != Done then (w, Authorize(w, session, journey, vid))
      else if !b.wellFormed || b.vehicle != vid then (w, Invalid)
      else if b.owner != session || !b.verified then (w, Forbidden)
      else
        var r := AppendBundle(w.vehicles, vid, b);
        (w.(vehicles := r.0), r.1)
    case Join(u, journey) => (w.(joined := w.joined + {(u, journey)}), Done)
    case Leave(u, journey) => (w.(joined := w.joined - {(u, journey)}), Done)
  }

  function Run(w: World, reqs: seq<Req>): World {
    if |reqs| == 0 then w else Handle(Run(w, reqs[..|reqs| - 1]), reqs[|reqs| - 1]).0
  }

  /** The vehicle's owner is absent from the journey in the first world and after every request. */
  ghost predicate OwnerAway(w: World, reqs: seq<Req>, vid: VehicleId)
    requires vid in w.vehicles
  {
    forall n | 0 <= n <= |reqs| :: (w.vehicles[vid].owner, w.vehicles[vid].journey) !in Run(w, reqs[..n]).joined
  }

  /**
   While the owner is away no sequence of requests changes the vehicle: both chains stand
   still, so the ACL in force at every instant stays what it was.
   */
  lemma {:induction false} OwnerDepartureFreezes(w: World, reqs: seq<Req>, vid: VehicleId)
    requires vid in w.vehicles && OwnerAway(w, reqs, vid)
    ensures vid in Run(w, reqs).vehicles && Run(w, reqs).vehicles[vid] == w.vehicles[vid]
    ensures forall t :: AclAt(Run(w, reqs).vehicles[vid], t) == AclAt(w.vehicles[vid], t)
  {
    if |reqs| == 0 {
    } else {
      var before := reqs[..|reqs| - 1];
      assert forall n | 0 <= n <= |before| :: before[..n] == reqs[..n];
      assert OwnerAway(w, before, vid);
      OwnerDepartureFreezes(w, before, vid);
      assert (w.vehicles[vid].owner, w.vehicles[vid].journey) !in Run(w, reqs[..|before|]).joined;
    }
  }

  /** And nothing else freezes it: a verified request of the joined owner with a higher version commits. */
  lemma OwnerRequestCommitsExactlyWhen(w: World, session: UserId, journey: JourneyId, vid: VehicleId, a: Acl)
    requires vid in w.vehicles && AclChainOk(w.vehicles[vid])
    ensures Handle(w, AclReq(session, journey, vid, a)).1 == Done <==>
              && journey.text != "" && vid.text != "" && session.text != ""
              && w.vehicles[vid].journey == journey && w.vehicles[vid].owner == session == a.owner
              && (session, journey) in w.joined
              && a.wellFormed && a.verified && a.vehicle == vid && a.version > w.vehicles[vid].aclVersion
  {
  }

  /** The same for the metadata chain. */
  lemma OwnerBundleCommitsExactlyWhen(w: World, session: UserId, journey: JourneyId, vid: VehicleId, b: Bundle)
    requires vid in w.vehicles && MetadataOk(w.vehicles[vid])
    ensures Handle(w, BundleReq(session, journey, vid, b)).1 == Done <==>
              && journey.text != "" && vid.text != "" && session.text != ""
              && w.vehicles[vid].journey == journey && w.vehicles[vid].owner == session == b.owner
              && (session, journey) in w.joined
              && b.wellFormed && b.verified && b.vehicle == vid && b.version > w.vehicles[vid].revisionVersion
  {
  }

  /** A vehicle is created exactly by its owner's signed first versions, once per id and once per owner and journey. */
  lemma CreateCommitsExactlyWhen(
    w: World, session: UserId, journey: JourneyId, b: Bundle, a: Acl, references: bool)
    ensures Handle(w, CreateReq(session, journey, b, a, references)).1 == Done <==>
              && journey.text != "" && references
              && b.wellFormed && b.verified && b.version == 1 && b.owner == session
              && a.wellFormed && a.verified && a.version == 1 && a.owner == session && a.vehicle == b.vehicle
              && b.vehicle !in w.vehicles
              && forall id | id in w.vehicles :: w.vehicles[id].journey != journey || w.vehicles[id].owner != session
  {
  }

  /** Somebody who is not the recorded owner of the vehicle, or has left the journey, is turned away. */
  lemma OthersAreTurnedAway(w: World, req: Req)
    requires req.AclReq? || req.BundleReq?
    requires req.vid in w.vehicles && w.vehicles[req.vid].journey == req.journey
    requires req.journey.text != "" && req.vid.text != ""
    requires w.vehicles[req.vid].owner != req.session || (req.session, req.journey) !in w.joined
    ensures Handle(w, req) == (w, Forbidden)
  {
  }

  // ---- What every run keeps ----

  /** The head row shows the bundle of the highest metadata version. */
  ghost predicate MetadataOk(v: Vehicle) {
    && v.revisionVersion in v.bundles
    && (forall n | n in v.bundles :: 1 <= n <= v.revisionVersion && v.bundles[n].version == n)
    && var b := v.bundles[v.revisionVersion];
       && v.integrity == b.integrity && v.canonical == b.canonical && v.avatar == b.avatar && v.banner == b.banner
  }

  ghost predicate VehicleOk(id: VehicleId, v: Vehicle) {
    && AclChainOk(v) && MetadataOk(v)
    && (forall n | n in v.acls :: v.acls[n].owner == v.owner && v.acls[n].vehicle == id && v.acls[n].verified)
    && (forall n | n in v.bundles ::
          v.bundles[n].owner == v.owner && v.bundles[n].vehicle == id && v.bundles[n].verified)
  }

  ghost predicate OnePerOwner(vs: Vehicles) {
    forall x, y | x in vs && y in vs && vs[x].journey == vs[y].journey && vs[x].owner == vs[y].owner :: x == y
  }

  lemma RequestKeepsVehicle(w: World, req: Req, id: VehicleId)
    requires id in w.vehicles ==> VehicleOk(id, w.vehicles[id])
    requires id in Handle(w, req).0.vehicles
    ensures VehicleOk(id, Handle(w, req).0.vehicles[id])
  {
  }

  lemma RequestKeepsOnePerOwner(w: World, req: Req)
    requires OnePerOwner(w.vehicles)
    ensures OnePerOwner(Handle(w, req).0.vehicles)
  {
  }

  /**
   In every reachable world an owner has one vehicle in a journey, and each vehicle's two heads
   are its highest stored versions, show those rows, and rest on signed revisions of its owner.
   */
  lemma {:induction false} RunsKeepVehicles(joined: set<(UserId, JourneyId)>, reqs: seq<Req>)
    ensures var vs := Run(World(map[], joined), reqs).vehicles;
            OnePerOwner(vs) && forall id | id in vs :: VehicleOk(id, vs[id])
  {
    if |reqs| == 0 {
    } else {
      var before, req := reqs[..|reqs| - 1], reqs[|reqs| - 1];
      var w := Run(World(map[], joined), before);
      RunsKeepVehicles(joined, before);
      RequestKeepsOnePerOwner(w, req);
      forall id | id in Handle(w, req).0.vehicles ensures VehicleOk(id, Handle(w, req).0.vehicles[id]) {
        RequestKeepsVehicle(w, req, id);
      }
    }
  }

  // ---- The query is a fold of the append log ----

  /** The ACLs of one vehicle in the order they committed. */
  function AclLog(w: World, reqs: seq<Req>, vid: VehicleId): seq<Acl> {
    if |reqs| == 0 then []
    else
      var before := Run(w, reqs[..|reqs| - 1]);
      var req := reqs[|reqs| - 1];
      var prior := AclLog(w, reqs[..|reqs| - 1], vid);
      if Handle(before, req).1 != Done then prior
      else if req.CreateReq? && req.b.vehicle == vid then prior + [req.a]
      else if req.AclReq? && req.vid == vid then prior + [req.a]
      else prior
  }

  /** The last logged ACL whose effective time has come. */
  function FoldAt(log: seq<Acl>, t: Time): Option<int> {
    if |log| == 0 then None
    else if log[|log| - 1].effective <= t then Some(log[|log| - 1].version)
    else FoldAt(log[..|log| - 1], t)
  }

  lemma FoldAtExtends(log: seq<Acl>, a: Acl, t: Time)
    ensures FoldAt(log + [a], t) == if a.effective <= t then Some(a.version) else FoldAt(log, t)
  {
    assert (log + [a])[..|log|] == log;
  }

  /** The log agrees with the vehicle on its ACLs at `t`. */
  ghost predicate FoldsTo(w: World, log: seq<Acl>, vid: VehicleId, t: Time) {
    if vid in w.vehicles then AclChainOk(w.vehicles[vid]) && AclAt(w.vehicles[vid], t) == FoldAt(log, t)
    else log == []
  }

  lemma OtherRequestsKeepAcls(w: World, req: Req, vid: VehicleId)
    requires Handle(w, req).1 == Done ==> !(req.CreateReq? && req.b.vehicle == vid) && !(req.AclReq? && req.vid == vid)
    ensures vid in w.vehicles <==> vid in Handle(w, req).0.vehicles
    ensures vid in w.vehicles ==>
              && Handle(w, req).0.vehicles[vid].acls == w.vehicles[vid].acls
              && Handle(w, req).0.vehicles[vid].aclVersion == w.vehicles[vid].aclVersion
  {
  }

  lemma AclRequestExtendsFold(w: World, req: Req, log: seq<Acl>, vid: VehicleId, t: Time)
    requires FoldsTo(w, log, vid, t) && Handle(w, req).1 == Done
    requires (req.CreateReq? && req.b.vehicle == vid) || (req.AclReq? && req.vid == vid)
    ensures FoldsTo(Handle(w, req).0, log + [req.a], vid, t)
  {
    FoldAtExtends(log, req.a, t);
    if req.AclReq? {
      AppendedAclTakesOver(w.vehicles, vid, req.a, t);
    }
  }

  /** In every reachable world the query answers what replaying the committed ACLs answers. */
  lemma {:induction false} AclAtFoldsTheLog(joined: set<(UserId, JourneyId)>, reqs: seq<Req>, vid: VehicleId, t: Time)
    ensures FoldsTo(Run(World(map[], joined), reqs), AclLog(World(map[], joined), reqs, vid), vid, t)
  {
    if |reqs| == 0 {
    } else {
      var start, before, req := World(map[], joined), reqs[..|reqs| - 1], reqs[|reqs| - 1];
      AclAtFoldsTheLog(joined, before, vid, t);
      var w := Run(start, before);
      if Handle(w, req).1 == Done && ((req.CreateReq? && req.b.vehicle == vid) || (req.AclReq? && req.vid == vid)) {
        AclRequestExtendsFold(w, req, AclLog(start, before, vid), vid, t);
      } else {
        OtherRequestsKeepAcls(w, req, vid);
      }
    }
  }

  // ---- The store methods ----

  class VehicleStore {
    var vehicles: Vehicles

    constructor ()
      ensures vehicles == map[]
    {
      vehicles := map[];
    }

    method CreateJourneyVehicle(journey: JourneyId, b: Bundle, a: Acl, references: bool) returns (out: Outcome)
      modifies this
      ensures (vehicles, out) == Create(old(vehicles), journey, b, a, references)
    {
      if journey.text == "" { return Invalid; }
      if !b.wellFormed || !a.wellFormed { return Invalid; }
      if a.vehicle != b.vehicle || a.owner != b.owner { return Invalid; }
      if b.version != 1 || a.version != 1 { return Invalid; }
      if b.vehicle in vehicles { return DuplicateId; }
      if OwnerTaken(vehicles, journey, b.owner) { return DuplicateOwner; }
      if !references { return WriteFailed; }
      var row := Vehicle(journey, b.owner, b.version, a.version,
                         b.integrity, b.canonical, b.avatar, b.banner, map[], map[]);
      vehicles := vehicles[b.vehicle := row];
      vehicles := vehicles[b.vehicle := vehicles[b.vehicle].(bundles := map[b.version := b])];
      vehicles := vehicles[b.vehicle := vehicles[b.vehicle].(acls := map[a.version := a])];
      assert vehicles == Create(old(vehicles), journey, b, a, references).0;
      return Done;
    }

    method AppendJourneyVehicleACL(id: VehicleId, a: Acl) returns (out: Outcome)
      modifies this
      ensures (vehicles, out) == AppendAcl(old(vehicles), id, a)
    {
      if !a.wellFormed { return Invalid; }
      if id !in vehicles { return NotFound; }
      if a.version <= vehicles[id].aclVersion { return Conflict; }
      if a.version in vehicles[id].acls { return Conflict; }
      vehicles := vehicles[id := vehicles[id].(acls := vehicles[id].acls[a.version := a])];
      vehicles := vehicles[id := vehicles[id].(aclVersion := a.version)];
      assert vehicles == AppendAcl(old(vehicles), id, a).0;
      return Done;
    }

    method AppendJourneyVehicleRevision(id: VehicleId, b: Bundle) returns (out: Outcome)
      modifies this
      ensures (vehicles, out) == AppendBundle(old(vehicles), id, b)
    {
      if !b.wellFormed { return Invalid; }
      if id !in vehicles { return NotFound; }
      if b.version <= vehicles[id].revisionVersion { return Conflict; }
      if b.version in vehicles[id].bundles { return Conflict; }
      vehicles := vehicles[id := vehicles[id].(bundles := vehicles[id].bundles[b.version := b])];
      vehicles := vehicles[id := vehicles[id].(revisionVersion := b.version, integrity := b.integrity,
                                               canonical := b.canonical, avatar := b.avatar, banner := b.banner)];
      assert vehicles == AppendBundle(old(vehicles), id, b).0;
      return Done;
    }
  }
}
