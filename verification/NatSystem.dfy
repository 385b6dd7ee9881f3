/** A discovering gateway, the gateways it talks to, and the network between them, which loses, repeats
    and reorders packets and rewrites their source addresses. What is selected at one end is tied to what
    happened at the other. */
module NatSystem {
  import opened Endpoints
  import opened IPFamilies
  import opened RemoteEndpoint
  import opened NatMessages
  import opened Wrappers
  import opened NatDiscovery
  import opened NatAnnouncements
  import opened NatAnswers

  /** A request as it reached a peer. */
  datatype Arrival = Arrival(peer: string, request: Request, from: Address)

  /** Arrivals are never forgotten, so a response can be delivered late, often or never. */
  datatype System = System(nd: Discovery, arrivals: set<Arrival>)

  datatype Step =
    | Local(event: Event)
    | Arrive(peer: string, request: Request, from: Address)
    | Deliver(arrival: Arrival, via: IP, now: nat)

  /** Only requests that were sent arrive, from any address, and only answers of the peers are delivered,
      from any address. */
  function After(s: System, cfg: Config, peers: map<string, EndpointSpec>, step: Step): System {
    match step
    case Local(e) => if e.ReceiveResponse? then s else s.(nd := Next(s.nd, cfg, e))
    case Arrive(peer, request, from) =>
      if peer in peers && request in s.nd.sent then s.(arrivals := s.arrivals + {Arrival(peer, request, from)}) else s
    case Deliver(a, via, now) =>
      if a in s.arrivals && a.peer in peers
        then s.(nd := Receive(s.nd, ResponseTo(peers[a.peer], a.request, a.from), via, now)) else s
  }

  function Run(steps: seq<Step>, cfg: Config, peers: map<string, EndpointSpec>, firstCounter: nat): System {
    if steps == [] then System(Discovery(firstCounter, 0, map[], {}, []), {})
    else After(Run(steps[..|steps| - 1], cfg, peers, firstCounter), cfg, peers, steps[|steps| - 1])
  }

  /** What a ready message caused by a response says about the request that was answered. */
  ghost predicate Explains(a: Arrival, e: Emission, peers: map<string, EndpointSpec>) {
    && a.peer in peers && e.cause == Answered(a.request.number)
    && e.info.endpoint.spec.cableName == peers[a.peer].cableName
    && e.info.useFamily == FamilyOf(a.from)
    && MeantFor(a.request, peers[a.peer], e.info.useFamily)
    && e.info.useIP == a.request.usingDst.value.ip
    && (e.info.useNAT <==> !Untouched(a.request, peers[a.peer], a.from))
  }

  ghost predicate Explained(ready: seq<Emission>, arrivals: set<Arrival>, peers: map<string, EndpointSpec>) {
    forall i :: 0 <= i < |ready| && ready[i].cause.Answered? ==>
      exists a :: a in arrivals && Explains(a, ready[i], peers)
  }

  ghost predicate WasSent(arrivals: set<Arrival>, sent: set<Request>) {
    forall a :: a in arrivals ==> a.request in sent
  }

  ghost predicate Good(s: System, cfg: Config, peers: map<string, EndpointSpec>) {
    Inv(s.nd, cfg) && WasSent(s.arrivals, s.nd.sent) && Explained(s.nd.ready, s.arrivals, peers)
  }

  // ----- a delivered response -----

  /** A response that is taken answers a request sent to the very address that gets selected. */
  lemma TakenAnswersRequest(d: Discovery, cfg: Config, q: Request, local: EndpointSpec, from: Address, via: IP,
                            now: nat)
    requires Inv(d, cfg) && q in d.sent
    requires MatchOf(d, ResponseTo(local, q, from), via).Matches?
    ensures var Matches(name, slot) := MatchOf(d, ResponseTo(local, q, from), via);
      && name in d.remotes && name == local.GetFamilyCableName(FamilyOf(from))
      && SentTo(cfg, q, d.remotes[name], slot)
      && d.remotes[name].endpoint.spec.cableName == local.cableName && d.remotes[name].family == FamilyOf(from)
  {
    var Matches(name, slot) := MatchOf(d, ResponseTo(local, q, from), via);
    var r := d.remotes[name];
    assert EntryOK(name, r, d.requestCounter, d.nextSerial);
    assert SlotOf(r, slot) == q.number;
    FamilyCableNameInjective(r.endpoint.spec, r.family, local, FamilyOf(from));
  }

  lemma DeliveryIsExplained(d: Discovery, cfg: Config, a: Arrival, peers: map<string, EndpointSpec>, via: IP, now: nat)
    requires Inv(d, cfg) && a.request in d.sent && a.peer in peers
    ensures var d' := Receive(d, ResponseTo(peers[a.peer], a.request, a.from), via, now);
      d'.ready == d.ready
        || (|d'.ready| == |d.ready| + 1 && d.ready <= d'.ready && Explains(a, d'.ready[|d.ready|], peers))
  {
    var resp := ResponseTo(peers[a.peer], a.request, a.from);
    match MatchOf(d, resp, via)
    case NoMatch =>
    case Matches(name, slot) =>
      TakenAnswersRequest(d, cfg, a.request, peers[a.peer], a.from, via, now);
      if Takes(d.remotes[name], slot, now) {
        var r' := Moved(d.remotes[name], slot, resp.response == NAT_DETECTED, now);
        SelectsTarget(d.remotes[name], slot, resp.response == NAT_DETECTED, now);
        assert Explains(a, Emission(r'.serial, r'.Info(), Answered(resp.number)), peers);
      }
  }

  // ----- runs -----

  lemma MoreExplained(ready: seq<Emission>, ready': seq<Emission>, arrivals: set<Arrival>, arrivals': set<Arrival>,
                      peers: map<string, EndpointSpec>)
    requires Explained(ready, arrivals, peers) && ready <= ready' && arrivals <= arrivals'
    requires forall i :: |ready| <= i < |ready'| && ready'[i].cause.Answered? ==>
      exists a :: a in arrivals' && Explains(a, ready'[i], peers)
    ensures Explained(ready', arrivals', peers)
  {
    forall i | 0 <= i < |ready| && ready[i].cause.Answered?
      ensures exists a :: a in arrivals' && Explains(a, ready'[i], peers) {
      var a :| a in arrivals && Explains(a, ready[i], peers);
    }
  }

  lemma StepKeepsGood(s: System, cfg: Config, peers: map<string, EndpointSpec>, step: Step)
    requires Good(s, cfg, peers)
    ensures Good(After(s, cfg, peers, step), cfg, peers)
  {
    var s' := After(s, cfg, peers, step);
    match step
    case Local(e) =>
      if !e.ReceiveResponse? {
        NextKeepsInv(s.nd, cfg, e);
        LocalEvent(s.nd, cfg, e);
        MoreExplained(s.nd.ready, s'.nd.ready, s.arrivals, s'.arrivals, peers);
      }
    case Arrive(peer, request, from) =>
      MoreExplained(s.nd.ready, s.nd.ready, s.arrivals, s'.arrivals, peers);
    case Deliver(a, via, now) =>
      if a in s.arrivals && a.peer in peers {
        ReceiveKeepsInv(s.nd, cfg, ResponseTo(peers[a.peer], a.request, a.from), via, now);
        DeliveryIsExplained(s.nd, cfg, a, peers, via, now);
        MoreExplained(s.nd.ready, s'.nd.ready, s.arrivals, s.arrivals, peers);
        ReceiveKeepsSent(s.nd, ResponseTo(peers[a.peer], a.request, a.from), via, now);
      }
  }

  lemma {:induction false} RunsAreGood(steps: seq<Step>, cfg: Config, peers: map<string, EndpointSpec>,
                                       firstCounter: nat)
    ensures Good(Run(steps, cfg, peers, firstCounter), cfg, peers)
  {
    if steps != [] {
      var n := |steps| - 1;
      RunsAreGood(steps[..n], cfg, peers, firstCounter);
      StepKeepsGood(Run(steps[..n], cfg, peers, firstCounter), cfg, peers, steps[n]);
    }
  }

  /** End to end: in every run, whatever the network does, a selection announced because of a response has
      useNAT false exactly when the answered request reached its peer from the address it was sent from
      and was aimed at the peer's own private address, which then is the address selected. */
  lemma NATIsDetected(steps: seq<Step>, cfg: Config, peers: map<string, EndpointSpec>, firstCounter: nat, i: nat)
    returns (a: Arrival)
    requires var ready := Run(steps, cfg, peers, firstCounter).nd.ready;
      i < |ready| && ready[i].cause.Answered?
    ensures var s := Run(steps, cfg, peers, firstCounter);
      && a in s.arrivals && a.request in s.nd.sent && Explains(a, s.nd.ready[i], peers)
      && (!s.nd.ready[i].info.useNAT ==>
        s.nd.ready[i].info.useIP == peers[a.peer].GetPrivateIP(s.nd.ready[i].info.useFamily))
  {
    RunsAreGood(steps, cfg, peers, firstCounter);
    var s := Run(steps, cfg, peers, firstCounter);
    a :| a in s.arrivals && Explains(a, s.nd.ready[i], peers);
  }

  /** What a step is for the discovering gateway: one event or none. */
  function EventOf(s: System, peers: map<string, EndpointSpec>, step: Step): Option<Event> {
    match step
    case Local(e) => if e.ReceiveResponse? then None else Some(e)
    case Arrive(_, _, _) => None
    case Deliver(a, via, now) =>
      if a in s.arrivals && a.peer in peers
        then Some(ReceiveResponse(ResponseTo(peers[a.peer], a.request, a.from), via, now))
      else None
  }

  lemma StepIsEvent(s: System, cfg: Config, peers: map<string, EndpointSpec>, step: Step)
    ensures After(s, cfg, peers, step).nd ==
      match EventOf(s, peers, step)
      case None => s.nd
      case Some(e) => Next(s.nd, cfg, e)
  {
  }

  /** Every result about the runs of one gateway holds in the system: the network only picks which
      responses arrive. */
  lemma {:induction false} SystemRunIsRun(steps: seq<Step>, cfg: Config, peers: map<string, EndpointSpec>,
                                          firstCounter: nat)
    returns (events: seq<Event>)
    ensures NatDiscovery.Run(events, cfg, firstCounter) == Run(steps, cfg, peers, firstCounter).nd
  {
    events := [];
    if steps != [] {
      var n := |steps| - 1;
      var s := Run(steps[..n], cfg, peers, firstCounter);
      events := SystemRunIsRun(steps[..n], cfg, peers, firstCounter);
      StepIsEvent(s, cfg, peers, steps[n]);
      match EventOf(s, peers, steps[n])
      case None =>
      case Some(e) =>
        RunSnoc(events, e, cfg, firstCounter);
        events := events + [e];
    }
  }

  // ----- endpoints told about -----

  /** Every endpoint that the gateway is told about satisfies `p`. */
  ghost predicate AllTold(steps: seq<Step>, p: (Endpoint, Family) -> bool) {
    forall i :: 0 <= i < |steps| && steps[i].Local? && steps[i].event.AddEndpoint? ==>
      p(steps[i].event.endpoint, steps[i].event.family)
  }

  lemma {:induction false} AnnouncedWasTold(steps: seq<Step>, cfg: Config, peers: map<string, EndpointSpec>,
                                            firstCounter: nat, p: (Endpoint, Family) -> bool)
    requires AllTold(steps, p)
    ensures AllSatisfy(Run(steps, cfg, peers, firstCounter).nd, p)
  {
    if steps != [] {
      var n := |steps| - 1;
      var s := Run(steps[..n], cfg, peers, firstCounter);
      AnnouncedWasTold(steps[..n], cfg, peers, firstCounter, p);
      RunsAreGood(steps[..n], cfg, peers, firstCounter);
      match steps[n]
      case Local(e) => if !e.ReceiveResponse? { NextSatisfies(s.nd, cfg, e, p); }
      case Arrive(_, _, _) =>
      case Deliver(a, via, now) =>
        if a in s.arrivals && a.peer in peers {
          AnswerSatisfies(s.nd, ResponseTo(peers[a.peer], a.request, a.from), via, now, p);
        }
    }
  }

  /** An endpoint has the private addresses that the gateway with its cable name has. */
  predicate AgreesOnPrivateIPs(spec: EndpointSpec, peers: map<string, EndpointSpec>) {
    forall p, f | p in peers && f in {IPv4, IPv6, IPFamilyUnknown} :: spec.cableName == peers[p].cableName ==>
      spec.GetPrivateIP(f) == peers[p].GetPrivateIP(f)
  }

  ghost function Agreeing(peers: map<string, EndpointSpec>): (Endpoint, Family) -> bool {
    (endpoint: Endpoint, family: Family) => AgreesOnPrivateIPs(endpoint.spec, peers)
  }

  /** The gateway is told about other gateways as they are. */
  ghost predicate SpecsAgree(steps: seq<Step>, peers: map<string, EndpointSpec>) {
    AllTold(steps, Agreeing(peers))
  }

  // ----- selections without NAT -----

  predicate IsDirect(r: Remote) {
    r.Complete() && !r.useNAT ==> r.useIP == r.PrivateIP()
  }

  predicate IsDirectInfo(info: NATEndpointInfo) {
    !info.useNAT ==> info.useIP == info.endpoint.spec.GetPrivateIP(info.useFamily)
  }

  ghost predicate AllDirect(d: Discovery) {
    && (forall n :: n in d.remotes ==> IsDirect(d.remotes[n]))
    && (forall i :: 0 <= i < |d.ready| ==> IsDirectInfo(d.ready[i].info))
  }

  lemma EmitDirect(d: Discovery, r: Remote, cause: Cause)
    requires AllDirect(d) && IsDirect(r) && r.Complete()
    ensures AllDirect(Emit(d, r, cause))
  {
  }

  lemma PutDirect(d: Discovery, name: string, r: Remote)
    requires AllDirect(d) && IsDirect(r)
    ensures AllDirect(Put(d, name, r))
  {
  }

  lemma AddDirect(d: Discovery, cfg: Config, endpoint: Endpoint, family: Family, now: nat)
    requires AllDirect(d)
    ensures AllDirect(Add(d, cfg, endpoint, family, now))
  {
    var made, r := Make(d, cfg, endpoint, family, now), MadeFor(d, cfg, endpoint, family, now);
    var name := endpoint.spec.GetFamilyCableName(family);
    if UsesLegacy(cfg, endpoint) {
      EmitDirect(d.(nextSerial := d.nextSerial + 1), r, Added);
    }
    assert AllDirect(made);
    PutDirect(made, name, r);
    if name in made.remotes && made.remotes[name].Complete() {
      EmitDirect(made, made.remotes[name], Added);
    }
  }

  lemma SendDirect(d: Discovery, cfg: Config, name: string, slot: Slot, outcome: SendOutcome, now: nat)
    requires AllDirect(d) && name in d.remotes
    ensures AllDirect(SendTo(d, cfg, name, slot, outcome, now))
      && name in SendTo(d, cfg, name, slot, outcome, now).remotes
  {
    var r := d.remotes[name];
    SlotMoves(r, slot, d.requestCounter, now);
    PutDirect(d, name, WithSlot(r, slot, 0));
    PutDirect(d, name, CheckSent(WithSlot(r, slot, d.requestCounter + 1), now));
  }

  lemma LocalDirect(d: Discovery, cfg: Config, e: Event)
    requires AllDirect(d) && !e.ReceiveResponse?
    ensures AllDirect(Next(d, cfg, e))
  {
    match e
    case AddEndpoint(endpoint, family, now) => AddDirect(d, cfg, endpoint, family, now);
    case RemoveEndpoint(name) =>
    case CheckEndpoint(name, private', public, now) =>
      if name in d.remotes && d.remotes[name].ShouldCheck(now) {
        if d.remotes[name].TimedOut(now) {
          PutDirect(d, name, Legacy(d.remotes[name], now));
          EmitDirect(Put(d, name, Legacy(d.remotes[name], now)), Legacy(d.remotes[name], now), TimedOut);
        } else {
          SendDirect(d, cfg, name, PrivateSlot, private', now);
          SendDirect(SendTo(d, cfg, name, PrivateSlot, private', now), cfg, name, PublicSlot, public, now);
        }
      }
  }

  /** A delivered answer selects without NAT only the address at which the peer itself was reached. */
  lemma DeliveryDirect(d: Discovery, cfg: Config, a: Arrival, peers: map<string, EndpointSpec>, via: IP, now: nat)
    requires AllDirect(d) && Inv(d, cfg) && a.request in d.sent && a.peer in peers && AllSatisfy(d, Agreeing(peers))
    ensures AllDirect(Receive(d, ResponseTo(peers[a.peer], a.request, a.from), via, now))
  {
    var resp := ResponseTo(peers[a.peer], a.request, a.from);
    match MatchOf(d, resp, via)
    case NoMatch =>
    case Matches(name, slot) =>
      TakenAnswersRequest(d, cfg, a.request, peers[a.peer], a.from, via, now);
      if Takes(d.remotes[name], slot, now) {
        var r' := Moved(d.remotes[name], slot, resp.response == NAT_DETECTED, now);
        MovedEvolves(d.remotes[name], slot, resp.response == NAT_DETECTED, now);
        SelectsTarget(d.remotes[name], slot, resp.response == NAT_DETECTED, now);
        assert Agreeing(peers)(d.remotes[name].endpoint, d.remotes[name].family);
        assert IsDirect(r');
        PutDirect(d, name, r');
        EmitDirect(Put(d, name, r'), r', Answered(resp.number));
      }
  }

  /** In every run in which specs agree, whatever the network does and whatever decided, everything
      announced without NAT is the private address of its endpoint. */
  lemma {:induction false} WithoutNATIsPrivate(steps: seq<Step>, cfg: Config, peers: map<string, EndpointSpec>,
                                               firstCounter: nat)
    requires SpecsAgree(steps, peers)
    ensures AllDirect(Run(steps, cfg, peers, firstCounter).nd)
  {
    if steps != [] {
      var n := |steps| - 1;
      var s := Run(steps[..n], cfg, peers, firstCounter);
      WithoutNATIsPrivate(steps[..n], cfg, peers, firstCounter);
      RunsAreGood(steps[..n], cfg, peers, firstCounter);
      AnnouncedWasTold(steps[..n], cfg, peers, firstCounter, Agreeing(peers));
      match steps[n]
      case Local(e) => if !e.ReceiveResponse? { LocalDirect(s.nd, cfg, e); }
      case Arrive(_, _, _) =>
      case Deliver(a, via, now) =>
        if a in s.arrivals && a.peer in peers {
          DeliveryDirect(s.nd, cfg, a, peers, via, now);
        }
    }
  }

  /** So where specs agree, a public address that is not the private address as well is announced with NAT. */
  lemma PublicSelectionHasNAT(steps: seq<Step>, cfg: Config, peers: map<string, EndpointSpec>, firstCounter: nat,
                              i: nat)
    requires SpecsAgree(steps, peers) && i < |Run(steps, cfg, peers, firstCounter).nd.ready|
    ensures var info := Run(steps, cfg, peers, firstCounter).nd.ready[i].info;
      var public, private' :=
        info.endpoint.spec.GetPublicIP(info.useFamily), info.endpoint.spec.GetPrivateIP(info.useFamily);
      info.useIP == public != private' ==> info.useNAT
  {
    WithoutNATIsPrivate(steps, cfg, peers, firstCounter);
    assert IsDirectInfo(Run(steps, cfg, peers, firstCounter).nd.ready[i].info);
  }
}
