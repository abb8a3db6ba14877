/**
 The owner-departure freeze with the append handlers split at their store calls: a request is
 authorized in one state and appends in a later one, with anything in between.
 */
module OwnerDeparture {
  import opened Prelude
  import opened JourneyVehicles

  /** A request handled in one go, or only the append of a request authorized earlier. */
  datatype Step = Whole(req: Req) | Write(req: Req)

  /** The check in front of an append: the handler's verdict on everything but the version. */
  predicate Authorized(w: World, req: Req) {
    match req
    case AclReq(session, journey, vid, a) =>
      && Authorize(w, session, journey, vid) == Done
      && a.wellFormed && a.vehicle == vid && a.owner == session && a.verified
    case BundleReq(session, journey, vid, b) =>
      && Authorize(w, session, journey, vid) == Done
      && b.wellFormed && b.vehicle == vid && b.owner == session && b.verified
    case _ => false
  }

  function Written(w: World, req: Req): World {
    match req
    case AclReq(_, _, vid, a) => w.(vehicles := AppendAcl(w.vehicles, vid, a).0)
    case BundleReq(_, _, vid, b) => w.(vehicles := AppendBundle(w.vehicles, vid, b).0)
    case _ => w
  }

  /** Authorizing and appending at once is what the handler does as one step. */
  lemma HandleIsAuthorizeThenWrite(w: World, req: Req)
    requires req.AclReq? || req.BundleReq?
    ensures Handle(w, req).0 == if Authorized(w, req) then Written(w, req) else w
  {
  }

  function Apply(w: World, step: Step): World {
    match step
    case Whole(req) => Handle(w, req).0
    case Write(req) => Written(w, req)
  }

  /** The world in which step i runs. */
  function At(w: World, steps: seq<Step>, i: nat): World
    requires i <= |steps|
  {
    if i == 0 then w else Apply(At(w, steps, i - 1), steps[i - 1])
  }

  ghost predicate WasAuthorized(w: World, steps: seq<Step>, i: nat)
    requires i < |steps|
  {
    exists n: nat :: n <= i && Authorized(At(w, steps, n), steps[i].req)
  }

  /** Every append that runs by itself belongs to a request authorized before. */
  ghost predicate AllAuthorized(w: World, steps: seq<Step>) {
    forall i: nat | i < |steps| && steps[i].Write? :: WasAuthorized(w, steps, i)
  }

  lemma StepKeepsOwner(w: World, step: Step, vid: VehicleId)
    requires vid in w.vehicles
    ensures vid in Apply(w, step).vehicles
    ensures Apply(w, step).vehicles[vid].owner == w.vehicles[vid].owner
    ensures Apply(w, step).vehicles[vid].journey == w.vehicles[vid].journey
  {
  }

  /** The owner of the vehicle is not a joined participant of its journey. */
  predicate OwnerGone(w: World, vid: VehicleId) {
    vid in w.vehicles && (w.vehicles[vid].owner, w.vehicles[vid].journey) !in w.joined
  }

  /** This step is the append, by itself, of a request for this vehicle. */
  predicate AppendsTo(step: Step, vid: VehicleId) {
    step.Write? && (step.req.AclReq? || step.req.BundleReq?) && step.req.vid == vid
  }

  lemma OnlyWritesReachAFrozenVehicle(w: World, step: Step, vid: VehicleId)
    requires OwnerGone(w, vid) && !AppendsTo(step, vid)
    ensures vid in Apply(w, step).vehicles && Apply(w, step).vehicles[vid] == w.vehicles[vid]
  {
  }

  lemma GoneMeansUnauthorized(w: World, req: Req, vid: VehicleId)
    requires OwnerGone(w, vid) && (req.AclReq? || req.BundleReq?) && req.vid == vid
    ensures !Authorized(w, req)
  {
  }

  /**
   While the owner is away from step m on, a step changes the vehicle only as the append of a
   request for it that was authorized before m, and at no moment since.
   */
  lemma OnlyEarlierAuthorizedAppendsChange(w: World, steps: seq<Step>, m: nat, i: nat, vid: VehicleId)
    requires AllAuthorized(w, steps) && m <= i < |steps|
    requires forall k: nat | m <= k <= i :: OwnerGone(At(w, steps, k), vid)
    ensures vid in At(w, steps, i).vehicles && vid in At(w, steps, i + 1).vehicles
    ensures At(w, steps, i + 1).vehicles[vid] != At(w, steps, i).vehicles[vid] ==>
              && AppendsTo(steps[i], vid)
              && (forall k: nat | m <= k <= i :: !Authorized(At(w, steps, k), steps[i].req))
              && (exists n: nat :: n < m && Authorized(At(w, steps, n), steps[i].req))
  {
    assert OwnerGone(At(w, steps, i), vid);
    StepKeepsOwner(At(w, steps, i), steps[i], vid);
    if !AppendsTo(steps[i], vid) {
      OnlyWritesReachAFrozenVehicle(At(w, steps, i), steps[i], vid);
    } else {
      forall k: nat | m <= k <= i ensures !Authorized(At(w, steps, k), steps[i].req) {
        GoneMeansUnauthorized(At(w, steps, k), steps[i].req, vid);
      }
      assert WasAuthorized(w, steps, i);
    }
  }

  /** No append for the vehicle that was authorized before m is still to come. */
  ghost predicate NothingInFlight(w: World, steps: seq<Step>, m: nat, vid: VehicleId)
    requires m <= |steps|
  {
    forall i: nat, n: nat | m <= i < |steps| && n < m && AppendsTo(steps[i], vid) ::
      !Authorized(At(w, steps, n), steps[i].req)
  }

  /**
   So with the store calls split the freeze holds up to the requests in flight: if the owner
   is away from m on and no append authorized before m is still to come, the vehicle, both its
   chains and every ACL-at-time answer stand still.
   */
  lemma {:induction false} SplitDepartureFreezes(w: World, steps: seq<Step>, m: nat, i: nat, vid: VehicleId)
    requires AllAuthorized(w, steps) && m <= i <= |steps| && NothingInFlight(w, steps, m, vid)
    requires forall k: nat | m <= k <= i :: OwnerGone(At(w, steps, k), vid)
    ensures vid in At(w, steps, m).vehicles && vid in At(w, steps, i).vehicles
    ensures At(w, steps, i).vehicles[vid] == At(w, steps, m).vehicles[vid]
    ensures forall t :: AclAt(At(w, steps, i).vehicles[vid], t) == AclAt(At(w, steps, m).vehicles[vid], t)
  {
    assert OwnerGone(At(w, steps, m), vid);
    if i == m {
    } else {
      SplitDepartureFreezes(w, steps, m, i - 1, vid);
      OnlyEarlierAuthorizedAppendsChange(w, steps, m, i - 1, vid);
    }
  }

  /**
   One request in flight is enough to break the freeze: whatever the owner's request was
   authorized for goes through after the owner has left, if its version is above the head.
   */
  lemma InFlightAppendOutlivesDeparture(w: World, session: UserId, journey: JourneyId, vid: VehicleId, a: Acl)
    requires Authorized(w, AclReq(session, journey, vid, a)) && AclChainOk(w.vehicles[vid])
    requires a.version > w.vehicles[vid].aclVersion
    ensures var steps := [Whole(Leave(session, journey)), Write(AclReq(session, journey, vid, a))];
            && AllAuthorized(w, steps) && OwnerGone(At(w, steps, 1), vid) && OwnerGone(At(w, steps, 2), vid)
            && At(w, steps, 2).vehicles[vid] != At(w, steps, 1).vehicles[vid]
            && AclAt(At(w, steps, 2).vehicles[vid], a.effective) == Some(a.version)
  {
    var steps := [Whole(Leave(session, journey)), Write(AclReq(session, journey, vid, a))];
    var gone := At(w, steps, 1);
    assert gone == World(w.vehicles, w.joined - {(session, journey)}) by {
      assert At(w, steps, 1) == Apply(At(w, steps, 0), steps[0]);
    }
    assert At(w, steps, 2) == Written(gone, steps[1].req);
    assert Authorized(At(w, steps, 0), steps[1].req);
    assert WasAuthorized(w, steps, 1);
    AppendedAclTakesOver(w.vehicles, vid, a, a.effective);
  }
}
