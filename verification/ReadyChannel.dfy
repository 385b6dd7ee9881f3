/** NAT discovery and the cable engine joined by the ready channel: what the one announces is what the
    other relies on. */
module ReadyChannel {
  import opened Endpoints
  import opened IPFamilies
  import opened NatAnnouncements
  import NAT = NatDiscovery
  import System = NatSystem
  import Engine = CableEngine

  /** The older single fields of an endpoint hold IPv4 addresses or nothing, and its cable name determines
      its cluster. It may publish any addresses, or none. */
  predicate IsProper(endpoint: Endpoint, clusterOf: string -> string) {
    var spec := endpoint.spec;
    && (spec.publicIP == NoIP || spec.publicIP.V4?) && (spec.privateIP == NoIP || spec.privateIP.V4?)
    && clusterOf(spec.cableName) == spec.clusterID
  }

  ghost function Proper(clusterOf: string -> string): (Endpoint, Family) -> bool {
    (endpoint: Endpoint, family: Family) => IsProper(endpoint, clusterOf)
  }

  lemma ProperIsSound(info: NATEndpointInfo, clusterOf: string -> string)
    requires Proper(clusterOf)(info.endpoint, info.useFamily) && OwnAddress(info)
    ensures Engine.Sound(info, clusterOf)
  {
    var spec := info.endpoint.spec;
    IPFromBelongs(info.useFamily, spec.publicIPs, spec.publicIP);
    IPFromBelongs(info.useFamily, spec.privateIPs, spec.privateIP);
  }

  /** Whatever NAT discovery announces in a run, its address, if it has one, belongs to its family. */
  lemma AnnouncementsAreSound(events: seq<NAT.Event>, cfg: NAT.Config, firstCounter: nat, clusterOf: string -> string)
    requires AllAdded(events, Proper(clusterOf))
    ensures forall e :: e in NAT.Run(events, cfg, firstCounter).ready ==> Engine.Sound(e.info, clusterOf)
  {
    AnnouncedWasAdded(events, cfg, firstCounter, Proper(clusterOf));
    forall e | e in NAT.Run(events, cfg, firstCounter).ready ensures Engine.Sound(e.info, clusterOf) {
      ProperIsSound(e.info, clusterOf);
    }
  }

  // ----- the engine fed by it -----

  /** The message was announced. */
  ghost predicate Announced(info: NATEndpointInfo, ready: seq<NAT.Emission>) {
    exists e :: e in ready && e.info == info
  }

  ghost predicate FedBy(events: seq<Engine.Event>, ready: seq<NAT.Emission>) {
    forall i :: 0 <= i < |events| && events[i].ReadyMessage? ==> Announced(events[i].info, ready)
  }

  /** An engine that reads only what NAT discovery announced, in any order and interleaved with anything
      else, never has two active connections to one cluster in one family. */
  lemma FedEngineKeepsOneCable(events: seq<Engine.Event>, local: EndpointSpec, natEvents: seq<NAT.Event>,
                               cfg: NAT.Config, firstCounter: nat, clusterOf: string -> string)
    requires AllAdded(natEvents, Proper(clusterOf)) && FedBy(events, NAT.Run(natEvents, cfg, firstCounter).ready)
    ensures Engine.OnePerSlot(Engine.Run(events, local).active)
    ensures Engine.Inv(Engine.Run(events, local), clusterOf)
  {
    AnnouncementsAreSound(natEvents, cfg, firstCounter, clusterOf);
    Engine.RunsKeepInv(events, local, clusterOf);
  }

  /** The connection is the one made for an announcement. */
  ghost predicate MadeForAnnouncement(c: Engine.Connection, ready: seq<NAT.Emission>) {
    exists e :: e in ready && Engine.Made(e.info) == c
  }

  lemma NextMadeForAnnouncement(s: Engine.State, e: Engine.Event, local: EndpointSpec, ready: seq<NAT.Emission>)
    requires forall c :: c in s.active ==> MadeForAnnouncement(c, ready)
    requires e.ReadyMessage? ==> Announced(e.info, ready)
    ensures forall c :: c in Engine.Next(s, e, local).active ==> MadeForAnnouncement(c, ready)
  {
    match e
    case InstallCable(_, _) =>
    case RemoveCable(_, _, _) =>
    case ReadyMessage(info, disconnects, connects) =>
      var a :| a in ready && a.info == info;
      assert MadeForAnnouncement(Engine.Made(info), ready);
      Engine.OnlyMadeIsNew(s, info, disconnects, connects && Engine.Admitted(local, info));
    case Start =>
    case Stop =>
  }

  /** Every active connection goes, with the NAT flag announced, to an address announced for its endpoint. */
  lemma {:induction false} ActiveWasAnnounced(events: seq<Engine.Event>, local: EndpointSpec, ready: seq<NAT.Emission>)
    requires FedBy(events, ready)
    ensures forall c :: c in Engine.Run(events, local).active ==> MadeForAnnouncement(c, ready)
  {
    if events != [] {
      var n := |events| - 1;
      ActiveWasAnnounced(events[..n], local, ready);
      NextMadeForAnnouncement(Engine.Run(events[..n], local), events[n], local, ready);
    }
  }

  /** The whole system: gateways over any network, and an engine fed by what the discovering one announces.
      When specs agree, there is at most one active connection per cluster and family, and one without NAT
      goes to the private address of its endpoint. */
  lemma ConnectionsWithoutNATArePrivate(events: seq<Engine.Event>, local: EndpointSpec, steps: seq<System.Step>,
                                        cfg: NAT.Config, peers: map<string, EndpointSpec>, firstCounter: nat,
                                        clusterOf: string -> string)
    requires System.AllTold(steps, Proper(clusterOf)) && System.SpecsAgree(steps, peers)
    requires FedBy(events, System.Run(steps, cfg, peers, firstCounter).nd.ready)
    ensures Engine.OnePerSlot(Engine.Run(events, local).active)
    ensures forall c :: c in Engine.Run(events, local).active && !c.usingNAT ==>
      c.usingIP == c.endpoint.GetPrivateIP(c.GetFamily())
  {
    var ready := System.Run(steps, cfg, peers, firstCounter).nd.ready;
    System.AnnouncedWasTold(steps, cfg, peers, firstCounter, Proper(clusterOf));
    System.WithoutNATIsPrivate(steps, cfg, peers, firstCounter);
    ActiveWasAnnounced(events, local, ready);
    forall e | e in ready ensures Engine.Sound(e.info, clusterOf) {
      ProperIsSound(e.info, clusterOf);
    }
    Engine.RunsKeepInv(events, local, clusterOf);
    Engine.ActiveHaveAddresses(events, local);
  }

  // ----- a tunnel lost to an endpoint without an address -----

  /** What is announced for an endpoint that is behind NAT and not discovered. */
  function LegacyInfo(endpoint: Endpoint, family: Family): NATEndpointInfo {
    NATEndpointInfo(endpoint, true, endpoint.spec.GetPublicIP(family), family)
  }

  lemma LegacyAnnounced(d: NAT.Discovery, cfg: NAT.Config, endpoint: Endpoint, family: Family, now: nat)
    requires NAT.UsesLegacy(cfg, endpoint) && endpoint.spec.natEnabled
    requires forall n :: n in d.remotes ==> d.remotes[n].endpoint.spec != endpoint.spec
    ensures var d' := NAT.Add(d, cfg, endpoint, family, now);
      && d'.ready == d.ready + [NAT.Emission(d.nextSerial, LegacyInfo(endpoint, family), NAT.Added)]
      && forall n :: n in d'.remotes ==> n in d.remotes || d'.remotes[n].endpoint == endpoint
  {
  }

  /** Two endpoints of one cluster are added to NAT discovery, the newer one without a public address, and
      both are announced; the engine that is fed by it connects the first and, when it is told about the
      second, ends up with no cable to the cluster. */
  lemma AddresslessSuccessorEmptiesSlot(first: Endpoint, second: Endpoint, family: Family, now: nat, cfg: NAT.Config,
                                        firstCounter: nat)
    requires NAT.UsesLegacy(cfg, first) && NAT.UsesLegacy(cfg, second)
    requires first.spec.natEnabled && second.spec.natEnabled
    requires second.spec.clusterID == first.spec.clusterID != cfg.local.clusterID
    requires first.creationTimestamp < second.creationTimestamp
    requires Engine.Admitted(cfg.local, LegacyInfo(first, family)) && first.spec.GetPublicIP(family).Family() == family
    requires second.spec.GetPublicIP(family) == NoIP
    ensures var natEvents := [NAT.AddEndpoint(first, family, now)] + [NAT.AddEndpoint(second, family, now)];
      var one, two := LegacyInfo(first, family), LegacyInfo(second, family);
      && FedBy(Engine.Followed(one, two), NAT.Run(natEvents, cfg, firstCounter).ready)
      && Engine.Run(Engine.Connected(one), cfg.local).active == [Engine.Made(one)]
      && Engine.Run(Engine.Followed(one, two), cfg.local).active == []
  {
    BothAnnounced(first, second, family, now, cfg, firstCounter);
    Engine.RefusedSuccessorEmptiesSlot(LegacyInfo(first, family), LegacyInfo(second, family), cfg.local);
  }

  lemma FollowedIsFed(first: NATEndpointInfo, second: NATEndpointInfo, ready: seq<NAT.Emission>)
    requires Announced(first, ready) && Announced(second, ready)
    ensures FedBy(Engine.Followed(first, second), ready)
  {
  }

  lemma BothAnnounced(first: Endpoint, second: Endpoint, family: Family, now: nat, cfg: NAT.Config, firstCounter: nat)
    requires NAT.UsesLegacy(cfg, first) && NAT.UsesLegacy(cfg, second)
    requires first.spec.natEnabled && second.spec.natEnabled && first.spec != second.spec
    ensures var natEvents := [NAT.AddEndpoint(first, family, now)] + [NAT.AddEndpoint(second, family, now)];
      FedBy(Engine.Followed(LegacyInfo(first, family), LegacyInfo(second, family)),
        NAT.Run(natEvents, cfg, firstCounter).ready)
  {
    var natEvents := [NAT.AddEndpoint(first, family, now)] + [NAT.AddEndpoint(second, family, now)];
    assert natEvents[..1] == [NAT.AddEndpoint(first, family, now)] && natEvents[..1][..0] == [];
    var start := NAT.Run([], cfg, firstCounter);
    LegacyAnnounced(start, cfg, first, family, now);
    var added := NAT.Run(natEvents[..1], cfg, firstCounter);
    LegacyAnnounced(added, cfg, second, family, now);
    var ready := NAT.Run(natEvents, cfg, firstCounter).ready;
    assert ready[0].info == LegacyInfo(first, family) && ready[1].info == LegacyInfo(second, family);
    FollowedIsFed(LegacyInfo(first, family), LegacyInfo(second, family), ready);
  }
}
