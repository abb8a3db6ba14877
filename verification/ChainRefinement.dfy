/**
 The appends of the single modules are the commits of RevisionChains: what holds of the
 chains under interleaving holds of the garages and journey vehicles behind them.
 */
module ChainRefinement {
  import opened Prelude
  import RC = RevisionChains
  import JV = JourneyVehicles
  import GT = GarageTables

  // ---- Journey-vehicle ACLs ----

  function AclRevision(a: JV.Acl): RC.Revision {
    RC.Revision("", a.effective, a.owner, "", a.payload, None, None)
  }

  function AclChain(v: JV.Vehicle): RC.Chain {
    RC.Chain("", v.aclVersion, RC.AclHead, map n | n in v.acls :: AclRevision(v.acls[n]))
  }

  function AclKey(id: VehicleId): RC.Key {
    RC.Key(RC.VehicleAcl, id.text)
  }

  function AclRequest(id: VehicleId, a: JV.Acl): RC.Request {
    RC.Request(AclKey(id), "", a.version, AclRevision(a), a.wellFormed, true)
  }

  /**
   The write part of an ACL append, at whatever time its SELECT ran, is the whole append run
   at the moment of the commit: same outcome, same chain.
   */
  lemma AclCommitIsAppend(vs: JV.Vehicles, id: VehicleId, a: JV.Acl, chains: RC.Chains)
    requires id in vs && a.wellFormed && Lookup(chains, AclKey(id)) == Some(AclChain(vs[id]))
    ensures var commit, append := RC.Commit(chains, AclRequest(id, a)), JV.AppendAcl(vs, id, a);
            && (commit.1 == RC.Committed <==> append.1 == JV.Done)
            && (commit.1 == RC.Conflict <==> append.1 == JV.Conflict)
            && id in append.0 && Lookup(commit.0, AclKey(id)) == Some(AclChain(append.0[id]))
  {
    var append := JV.AppendAcl(vs, id, a);
    if append.1 == JV.Done {
      assert AclChain(append.0[id]).history == AclChain(vs[id]).history[a.version := AclRevision(a)];
    }
  }

  /** The ACL-at-time query of a vehicle is the query on its chain. */
  lemma AclAtAnswersOnTheChain(v: JV.Vehicle, t: Time)
    requires JV.AclChainOk(v)
    ensures RC.AnswersAt(AclChain(v), t, JV.AclAt(v, t))
    ensures RC.ChainOk(RC.VehicleAcl, AclChain(v)) <==> 1 in v.acls
  {
  }

  /**
   So an ACL whose transaction read the head at any earlier time is, once committed, the
   answer from its effective time on, and changes no earlier answer.
   */
  lemma StaleAclTakesOver(vs: JV.Vehicles, id: VehicleId, a: JV.Acl, chains: RC.Chains, t: Time)
    requires id in vs && JV.AclChainOk(vs[id]) && a.wellFormed
    requires Lookup(chains, AclKey(id)) == Some(AclChain(vs[id]))
    requires RC.Commit(chains, AclRequest(id, a)).1 == RC.Committed
    ensures RC.AnswersAt(RC.Commit(chains, AclRequest(id, a)).0[AclKey(id)], t,
                         if a.effective <= t then Some(a.version) else JV.AclAt(vs[id], t))
  {
    AclCommitIsAppend(vs, id, a, chains);
    JV.AppendedAclTakesOver(vs, id, a, t);
    AclAtAnswersOnTheChain(JV.AppendAcl(vs, id, a).0[id], t);
  }

  // ---- Journey-vehicle metadata ----

  function BundleRevision(b: JV.Bundle): RC.Revision {
    RC.Revision("", 0, b.owner, b.integrity, b.canonical, b.avatar, b.banner)
  }

  function BundleChain(v: JV.Vehicle): RC.Chain {
    RC.Chain("", v.revisionVersion, RC.MetadataHead(v.integrity, v.canonical, v.avatar, v.banner),
             map n | n in v.bundles :: BundleRevision(v.bundles[n]))
  }

  function BundleKey(id: VehicleId): RC.Key {
    RC.Key(RC.VehicleMetadata, id.text)
  }

  function BundleRequest(id: VehicleId, b: JV.Bundle): RC.Request {
    RC.Request(BundleKey(id), "", b.version, BundleRevision(b), b.wellFormed, true)
  }

  lemma BundleCommitIsAppend(vs: JV.Vehicles, id: VehicleId, b: JV.Bundle, chains: RC.Chains)
    requires id in vs && b.wellFormed && Lookup(chains, BundleKey(id)) == Some(BundleChain(vs[id]))
    ensures var commit, append := RC.Commit(chains, BundleRequest(id, b)), JV.AppendBundle(vs, id, b);
            && (commit.1 == RC.Committed <==> append.1 == JV.Done)
            && (commit.1 == RC.Conflict <==> append.1 == JV.Conflict)
            && id in append.0 && Lookup(commit.0, BundleKey(id)) == Some(BundleChain(append.0[id]))
  {
    var append := JV.AppendBundle(vs, id, b);
    if append.1 == JV.Done {
      assert BundleChain(append.0[id]).history == BundleChain(vs[id]).history[b.version := BundleRevision(b)];
    }
  }

  // ---- Garages ----

  function GarageRevision(p: GT.Garage): RC.Revision {
    RC.Revision(p.name, p.revisionTime, p.signedBy, "", p.payload, None, None)
  }

  function GarageChain(g: GT.GarageState): RC.Chain {
    RC.Chain("", g.head.version, RC.GarageHead(g.head.name, g.head.revisionTime),
             map n | n in g.revisions :: GarageRevision(g.revisions[n]))
  }

  function GarageKey(id: GarageId): RC.Key {
    RC.Key(RC.GarageChain, id.text)
  }

  /** The references of a garage append: its signer and the owners it inserts. */
  function GarageRequest(s: GT.Tables, p: GT.Garage): RC.Request
    requires p.id in s.garages
  {
    RC.Request(GarageKey(p.id), "", p.version, GarageRevision(p), GT.WellFormed(p),
               p.signedBy in s.accounts && GT.InsertsAdmitted(s.accounts, s.garages[p.id].owners, p.owners))
  }

  lemma GarageCommitIsAppend(s: GT.Tables, p: GT.Garage, chains: RC.Chains)
    requires p.id in s.garages && Lookup(chains, GarageKey(p.id)) == Some(GarageChain(s.garages[p.id]))
    ensures var commit, append := RC.Commit(chains, GarageRequest(s, p)), GT.AppendWrites(s, p);
            && (commit.1 == RC.Committed <==> append.1 == GT.Done)
            && p.id in append.0.garages
            && Lookup(commit.0, GarageKey(p.id)) == Some(GarageChain(append.0.garages[p.id]))
  {
    var append := GT.AppendWrites(s, p);
    if append.1 == GT.Done {
      assert GarageChain(append.0.garages[p.id]).history ==
             GarageChain(s.garages[p.id]).history[p.version := GarageRevision(p)];
    }
  }
}
