/** What NAT discovery gets done (pkg/natdiscovery): whom it asks and when, when it gives up, and which
    answers decide. Everything holds of every run. */
module NatProgress {
  import opened Endpoints
  import opened IPFamilies
  import opened RemoteEndpoint
  import opened NatMessages
  import opened Wrappers
  import opened NatDiscovery
  import opened NatAnswers

  // ----- what is known of a stored object -----

  /** How long an endpoint is discovered: a minute, or six seconds behind a load balancer. */
  function Limit(endpoint: Endpoint): nat {
    if endpoint.spec.backendConfig.usingLoadBalancer then 6_000_000_000 else 60_000_000_000
  }

  predicate Ongoing(r: Remote) {
    r.phase == TestingPrivateAndPublicIPs || r.phase == WaitingForResponse
  }

  /** It was given its time, and only what can be discovered is being discovered. */
  ghost predicate IsDiscovered(cfg: Config, r: Remote) {
    && r.timeout == Limit(r.endpoint) && r.usingLoadBalancer == r.endpoint.spec.backendConfig.usingLoadBalancer
    && (Ongoing(r) ==> r.endpoint.spec.backendConfig.natDiscoveryPort != 0 && cfg.serverPort != 0)
  }

  ghost predicate AllDiscovered(d: Discovery, cfg: Config) {
    forall name :: name in d.remotes ==> IsDiscovered(cfg, d.remotes[name])
  }

  lemma EvolvedIsDiscovered(cfg: Config, r: Remote, r': Remote)
    requires IsDiscovered(cfg, r) && Evolves(r, r')
    ensures IsDiscovered(cfg, r')
  {
  }

  lemma MadeIsDiscovered(d: Discovery, cfg: Config, endpoint: Endpoint, family: Family, now: nat)
    ensures IsDiscovered(cfg, MadeFor(d, cfg, endpoint, family, now))
  {
  }

  lemma OthersMakeNothing(d: Discovery, cfg: Config, e: Event)
    requires Inv(d, cfg) && !e.AddEndpoint?
    ensures Next(d, cfg, e).nextSerial == d.nextSerial
  {
    match e
    case RemoveEndpoint(_) =>
    case CheckEndpoint(name, private', public, now) =>
      if name in d.remotes {
        SendTakesTurn(d, cfg, name, PrivateSlot, private', now);
        SendTakesTurn(SendTo(d, cfg, name, PrivateSlot, private', now), cfg, name, PublicSlot, public, now);
      }
    case ReceiveResponse(_, _, _) =>
  }

  lemma SendTakesTurn(d: Discovery, cfg: Config, name: string, slot: Slot, outcome: SendOutcome, now: nat)
    requires name in d.remotes
    ensures var d' := SendTo(d, cfg, name, slot, outcome, now);
      d'.nextSerial == d.nextSerial && name in d'.remotes
  {
  }

  lemma NextKeepsDiscovered(d: Discovery, cfg: Config, e: Event)
    requires Inv(d, cfg) && AllDiscovered(d, cfg)
    ensures AllDiscovered(Next(d, cfg, e), cfg)
  {
    var d' := Next(d, cfg, e);
    match e {
      case AddEndpoint(endpoint, family, now) =>
        MadeIsDiscovered(d, cfg, endpoint, family, now);
        KeepIsPutOrNothing(Make(d, cfg, endpoint, family, now), endpoint.spec.GetFamilyCableName(family),
          MadeFor(d, cfg, endpoint, family, now));
      case _ =>
        NextUpdates(d, cfg, e);
        NextKeepsInv(d, cfg, e);
        OthersMakeNothing(d, cfg, e);
        forall n | n in d'.remotes ensures IsDiscovered(cfg, d'.remotes[n]) {
          assert EntryOK(n, d'.remotes[n], d'.requestCounter, d'.nextSerial);
          EvolvedIsDiscovered(cfg, d.remotes[n], d'.remotes[n]);
        }
    }
  }

  lemma {:induction false} RunsAreDiscovered(events: seq<Event>, cfg: Config, firstCounter: nat)
    ensures AllDiscovered(Run(events, cfg, firstCounter), cfg)
  {
    if events != [] {
      var n := |events| - 1;
      RunsAreDiscovered(events[..n], cfg, firstCounter);
      RunsKeepInv(events[..n], cfg, firstCounter);
      NextKeepsDiscovered(Run(events[..n], cfg, firstCounter), cfg, events[n]);
    }
  }

  // ----- endpoints that are added -----

  /** What the older settings select: the public address with NAT behind a load balancer or where NAT is
      enabled, the private one without it elsewhere. */
  function ByLegacySettings(endpoint: Endpoint, family: Family): NATEndpointInfo {
    if endpoint.spec.backendConfig.usingLoadBalancer || endpoint.spec.natEnabled
      then NATEndpointInfo(endpoint, true, endpoint.spec.GetPublicIP(family), family)
    else NATEndpointInfo(endpoint, false, endpoint.spec.GetPrivateIP(family), family)
  }

  /** Nothing has been asked yet, and nothing is decided. */
  ghost predicate Untried(r: Remote, endpoint: Endpoint, family: Family, now: nat) {
    && r.endpoint == endpoint && r.family == family && r.phase == TestingPrivateAndPublicIPs && r.started == now
    && r.lastPublicIPRequestID == 0 && r.lastPrivateIPRequestID == 0
  }

  /** An endpoint that is new, or whose spec changed, is discovered from scratch from now on. Where it or this
      gateway has no port for that, it is decided and announced at once. */
  lemma NewEndpointIsTested(events: seq<Event>, cfg: Config, firstCounter: nat, endpoint: Endpoint, family: Family,
                            now: nat)
    requires var d, name := Run(events, cfg, firstCounter), endpoint.spec.GetFamilyCableName(family);
      name in d.remotes ==> d.remotes[name].endpoint.spec != endpoint.spec
    ensures var d, name := Run(events, cfg, firstCounter), endpoint.spec.GetFamilyCableName(family);
      var d' := Next(d, cfg, AddEndpoint(endpoint, family, now));
      && d'.remotes.Keys == d.remotes.Keys + {name} && d'.sent == d.sent && d'.requestCounter == d.requestCounter
      && (forall n :: n in d.remotes && n != name ==> d'.remotes[n] == d.remotes[n])
      && if endpoint.spec.backendConfig.natDiscoveryPort != 0 && cfg.serverPort != 0
         then Untried(d'.remotes[name], endpoint, family, now) && d'.ready == d.ready
         else d'.remotes[name].Info() == ByLegacySettings(endpoint, family) && d'.remotes[name].Complete()
              && d'.ready == d.ready + [Emission(d.nextSerial, ByLegacySettings(endpoint, family), Added)]
  {
  }

  /** Adding an endpoint again with the spec it has leaves its discovery as it is, and announces its
      selection again if there is one. */
  lemma KnownEndpointIsKept(events: seq<Event>, cfg: Config, firstCounter: nat, endpoint: Endpoint, family: Family,
                            now: nat)
    requires var d, name := Run(events, cfg, firstCounter), endpoint.spec.GetFamilyCableName(family);
      name in d.remotes && d.remotes[name].endpoint.spec == endpoint.spec
    requires endpoint.spec.backendConfig.natDiscoveryPort != 0 && cfg.serverPort != 0
    ensures var d, name := Run(events, cfg, firstCounter), endpoint.spec.GetFamilyCableName(family);
      var r, d' := d.remotes[name], Next(d, cfg, AddEndpoint(endpoint, family, now));
      && d'.remotes == d.remotes && d'.sent == d.sent
      && d'.ready == d.ready + if Ongoing(r) then [] else [Emission(r.serial, r.Info(), Added)]
  {
  }

  /** An endpoint that was removed is not asked, and no response decides for it. */
  lemma RemovedEndpointIsIgnored(events: seq<Event>, cfg: Config, firstCounter: nat, name: string, e: Event)
    requires match e
      case AddEndpoint(_, _, _) => false
      case RemoveEndpoint(_) => true
      case CheckEndpoint(n, _, _, _) => n == name
      case ReceiveResponse(response, _, _) => response.sender.Some? && response.sender.value.endpointID == name
    ensures var d := Next(Run(events, cfg, firstCounter), cfg, RemoveEndpoint(name));
      && d.remotes == Run(events, cfg, firstCounter).remotes - {name}
      && (!e.RemoveEndpoint? ==> Next(d, cfg, e) == d)
  {
  }

  // ----- checks -----

  /** The requests that one address of an object is sent when the write succeeds. */
  function AskedAt(cfg: Config, r: Remote, target: IP, number: nat, source: IP): set<Request> {
    if target == NoIP then {}
    else {
      Request(number,
              Some(Party(cfg.local.GetFamilyCableName(r.family), cfg.local.clusterID)),
              Some(Party(r.endpoint.spec.GetFamilyCableName(r.family), r.endpoint.spec.clusterID)),
              Some(Address(source, cfg.serverPort)),
              Some(Address(target, r.endpoint.spec.backendConfig.natDiscoveryPort)))
    }
  }

  /** An object is due at once, and then whenever two seconds have passed without an answer. */
  predicate Due(r: Remote, now: nat) {
    r.phase == TestingPrivateAndPublicIPs || (r.phase == WaitingForResponse && now > r.lastCheck + 2_000_000_000)
  }

  /** While it has time an endpoint is not given up: a check announces nothing and decides nothing. */
  lemma EarlyCheckDecidesNothing(events: seq<Event>, cfg: Config, firstCounter: nat, name: string,
                                 private': SendOutcome, public: SendOutcome, now: nat)
    requires var d := Run(events, cfg, firstCounter);
      name in d.remotes && now <= d.remotes[name].started + Limit(d.remotes[name].endpoint)
    ensures var d := Run(events, cfg, firstCounter);
      var d' := Next(d, cfg, CheckEndpoint(name, private', public, now));
      && d'.ready == d.ready && d'.remotes.Keys == d.remotes.Keys
      && (Ongoing(d.remotes[name]) ==> Ongoing(d'.remotes[name]))
  {
    RunsAreDiscovered(events, cfg, firstCounter);
    var d := Run(events, cfg, firstCounter);
    assert IsDiscovered(cfg, d.remotes[name]);
    if d.remotes[name].ShouldCheck(now) {
      SendLeavesOngoing(d, cfg, name, PrivateSlot, private', now);
      SendLeavesOngoing(SendTo(d, cfg, name, PrivateSlot, private', now), cfg, name, PublicSlot, public, now);
    }
  }

  lemma SendLeavesOngoing(d: Discovery, cfg: Config, name: string, slot: Slot, outcome: SendOutcome, now: nat)
    requires name in d.remotes && Ongoing(d.remotes[name])
    ensures var d' := SendTo(d, cfg, name, slot, outcome, now);
      d'.ready == d.ready && d'.remotes.Keys == d.remotes.Keys && Ongoing(d'.remotes[name])
  {
  }

  /** How the number in a slot changes when the address is asked: a failed write leaves none. */
  function SlotAfter(number: nat, target: IP, outcome: SendOutcome, number': nat): nat {
    if target == NoIP || outcome.NoSource? then number else if outcome.WriteFailed? then 0 else number'
  }

  function Used(target: IP, outcome: SendOutcome): nat {
    if target == NoIP || outcome.NoSource? then 0 else 1
  }

  function SentBy(cfg: Config, r: Remote, target: IP, outcome: SendOutcome, number': nat): set<Request> {
    if outcome.Written? then AskedAt(cfg, r, target, number', outcome.source) else {}
  }

  predicate GoesOut(target: IP, outcome: SendOutcome) {
    target != NoIP && outcome.Written?
  }

  /** Both addresses were asked, each when the endpoint has it, with a number of its own each; the slots hold
      the numbers of what went out, and then the endpoint waits. */
  ghost predicate BothAsked(d: Discovery, d': Discovery, cfg: Config, name: string, private': SendOutcome,
                            public: SendOutcome, now: nat)
    requires name in d.remotes
  {
    var r := d.remotes[name];
    var priv, pub := r.endpoint.spec.GetPrivateIP(r.family), r.endpoint.spec.GetPublicIP(r.family);
    var first := d.requestCounter + 1;
    var second := first + Used(priv, private');
    && name in d'.remotes && d'.remotes == d.remotes[name := d'.remotes[name]] && d'.ready == d.ready
    && d'.sent == d.sent + SentBy(cfg, r, priv, private', first) + SentBy(cfg, r, pub, public, second)
    && d'.requestCounter == d.requestCounter + Used(priv, private') + Used(pub, public)
    && d'.remotes[name].lastPrivateIPRequestID == SlotAfter(r.lastPrivateIPRequestID, priv, private', first)
    && d'.remotes[name].lastPublicIPRequestID == SlotAfter(r.lastPublicIPRequestID, pub, public, second)
    && Same(r, d'.remotes[name])
    && (if GoesOut(priv, private') || GoesOut(pub, public)
        then d'.remotes[name].phase == WaitingForResponse && d'.remotes[name].lastCheck == now
        else d'.remotes[name].phase == r.phase && d'.remotes[name].lastCheck == r.lastCheck)
  }

  predicate Same(r: Remote, r': Remote) {
    r'.serial == r.serial && r'.endpoint == r.endpoint && r'.family == r.family && r'.started == r.started
  }

  /** In time, a check that is due asks. */
  lemma DueCheckAsks(events: seq<Event>, cfg: Config, firstCounter: nat, name: string, private': SendOutcome,
                     public: SendOutcome, now: nat)
    requires var d := Run(events, cfg, firstCounter);
      name in d.remotes && Due(d.remotes[name], now)
      && now <= d.remotes[name].started + Limit(d.remotes[name].endpoint)
    ensures var d := Run(events, cfg, firstCounter);
      BothAsked(d, Next(d, cfg, CheckEndpoint(name, private', public, now)), cfg, name, private', public, now)
  {
    RunsAreDiscovered(events, cfg, firstCounter);
    var d := Run(events, cfg, firstCounter);
    assert IsDiscovered(cfg, d.remotes[name]);
    RoundAsks(d, cfg, name, private', public, now);
  }

  lemma RoundAsks(d: Discovery, cfg: Config, name: string, private': SendOutcome, public: SendOutcome, now: nat)
    requires name in d.remotes && Ongoing(d.remotes[name])
    requires d.remotes[name].endpoint.spec.backendConfig.natDiscoveryPort != 0
    ensures BothAsked(d, SendCheck(d, cfg, name, private', public, now), cfg, name, private', public, now)
  {
    var half := SendTo(d, cfg, name, PrivateSlot, private', now);
    SlotAsked(d, cfg, name, PrivateSlot, private', now);
    SlotAsked(half, cfg, name, PublicSlot, public, now);
    SameAsked(cfg, d.remotes[name], half.remotes[name], PublicSlot, public, half.requestCounter + 1);
    BothSlots(d, half, SendCheck(d, cfg, name, private', public, now), cfg, name, private', public, now);
  }

  ghost predicate OneAsked(d: Discovery, d': Discovery, cfg: Config, name: string, slot: Slot, outcome: SendOutcome,
                           now: nat)
    requires name in d.remotes
  {
    var r := d.remotes[name];
    var target, other := Target(r, slot), if slot == PublicSlot then PrivateSlot else PublicSlot;
    && name in d'.remotes && d'.remotes == d.remotes[name := d'.remotes[name]] && d'.ready == d.ready
    && d'.sent == d.sent + SentBy(cfg, r, target, outcome, d.requestCounter + 1)
    && d'.requestCounter == d.requestCounter + Used(target, outcome)
    && SlotOf(d'.remotes[name], slot) == SlotAfter(SlotOf(r, slot), target, outcome, d.requestCounter + 1)
    && SlotOf(d'.remotes[name], other) == SlotOf(r, other)
    && Same(r, d'.remotes[name])
    && (if GoesOut(target, outcome)
        then d'.remotes[name].phase == WaitingForResponse && d'.remotes[name].lastCheck == now
        else d'.remotes[name].phase == r.phase && d'.remotes[name].lastCheck == r.lastCheck)
  }

  lemma BothSlots(d: Discovery, half: Discovery, d': Discovery, cfg: Config, name: string, private': SendOutcome,
                  public: SendOutcome, now: nat)
    requires name in d.remotes && OneAsked(d, half, cfg, name, PrivateSlot, private', now)
    requires OneAsked(half, d', cfg, name, PublicSlot, public, now)
    requires SentBy(cfg, d.remotes[name], Target(d.remotes[name], PublicSlot), public, half.requestCounter + 1)
          == SentBy(cfg, half.remotes[name], Target(half.remotes[name], PublicSlot), public, half.requestCounter + 1)
    ensures BothAsked(d, d', cfg, name, private', public, now)
  {
  }

  lemma SlotAsked(d: Discovery, cfg: Config, name: string, slot: Slot, outcome: SendOutcome, now: nat)
    requires name in d.remotes && Ongoing(d.remotes[name])
    requires d.remotes[name].endpoint.spec.backendConfig.natDiscoveryPort != 0
    ensures OneAsked(d, SendTo(d, cfg, name, slot, outcome, now), cfg, name, slot, outcome, now)
    ensures Ongoing(SendTo(d, cfg, name, slot, outcome, now).remotes[name])
  {
  }

  lemma SameAsked(cfg: Config, r: Remote, r': Remote, slot: Slot, outcome: SendOutcome, number': nat)
    requires r'.endpoint == r.endpoint && r'.family == r.family
    ensures Target(r, slot) == Target(r', slot)
    ensures SentBy(cfg, r, Target(r, slot), outcome, number') == SentBy(cfg, r', Target(r', slot), outcome, number')
  {
  }

  /** What is decided, or was asked less than two seconds ago, is left alone. */
  lemma CheckNotDueDoesNothing(events: seq<Event>, cfg: Config, firstCounter: nat, name: string, private': SendOutcome,
                               public: SendOutcome, now: nat)
    requires var d := Run(events, cfg, firstCounter);
      name in d.remotes ==> !Due(d.remotes[name], now)
    ensures var d := Run(events, cfg, firstCounter);
      Next(d, cfg, CheckEndpoint(name, private', public, now)) == d
  {
  }

  /** Only when its time is over is an endpoint given up, by one announcement of what its older settings
      select; nothing else is ever announced for a timeout. */
  lemma TimedOutIff(events: seq<Event>, cfg: Config, firstCounter: nat, e: Event)
    ensures var d := Run(events, cfg, firstCounter);
      var d' := Next(d, cfg, e);
      if e.CheckEndpoint? && e.name in d.remotes && Due(d.remotes[e.name], e.now)
         && e.now > d.remotes[e.name].started + Limit(d.remotes[e.name].endpoint)
      then
        var r := d.remotes[e.name];
        && d'.ready == d.ready + [Emission(r.serial, ByLegacySettings(r.endpoint, r.family), TimedOut)]
        && d'.sent == d.sent && d'.remotes.Keys == d.remotes.Keys && d'.remotes[e.name].Complete()
      else |d.ready| <= |d'.ready| && forall i :: |d.ready| <= i < |d'.ready| ==> d'.ready[i].cause != TimedOut
  {
    RunsAreDiscovered(events, cfg, firstCounter);
    var d := Run(events, cfg, firstCounter);
    match e
    case AddEndpoint(_, _, _) =>
    case RemoveEndpoint(_) =>
    case ReceiveResponse(_, _, _) =>
    case CheckEndpoint(name, private', public, now) =>
      if name in d.remotes && Due(d.remotes[name], now) {
        assert IsDiscovered(cfg, d.remotes[name]);
        if now <= d.remotes[name].started + Limit(d.remotes[name].endpoint) {
          EarlyCheckDecidesNothing(events, cfg, firstCounter, name, private', public, now);
        }
      }
  }

  // ----- answers -----

  /** A response with all its parts that says whether NAT was seen, in the name of this endpoint. */
  predicate Speaks(resp: Response, name: string) {
    && resp.sender.Some? && resp.sender.value.endpointID == name && resp.receiver.Some? && resp.receivedSrc.Some?
    && (resp.response == OK || resp.response == NAT_DETECTED)
  }

  /** The answer to the request at the private address, from that very address, selects it while the endpoint
      waits and for a second after its public address was selected: exactly one announcement, with NAT if and
      only if the answer says so. From anywhere else it does nothing. */
  lemma PrivateAnswerDecides(events: seq<Event>, cfg: Config, firstCounter: nat, name: string, q: Request,
                             resp: Response, from: IP, now: nat)
    requires var d := Run(events, cfg, firstCounter);
      name in d.remotes && q in d.sent && d.remotes[name].lastPrivateIPRequestID == q.number
    requires Speaks(resp, name) && resp.number == q.number
    ensures var d := Run(events, cfg, firstCounter);
      var r, d' := d.remotes[name], Next(d, cfg, ReceiveResponse(resp, from, now));
      var own := r.endpoint.spec.GetPrivateIP(r.family);
      if from == own && (r.phase == WaitingForResponse
                         || (r.phase == SelectedPublicIP && now <= r.lastTransition + 1_000_000_000))
      then
        var info := NATEndpointInfo(r.endpoint, resp.response == NAT_DETECTED, own, r.family);
        && d'.ready == d.ready + [Emission(r.serial, info, Answered(q.number))]
        && d'.remotes.Keys == d.remotes.Keys
          && (forall n :: n in d.remotes && n != name ==> d'.remotes[n] == d.remotes[n])
        && d'.remotes[name].phase == SelectedPrivateIP && d'.remotes[name].Info() == info && d'.sent == d.sent
      else d' == d
  {
    RunsKeepInv(events, cfg, firstCounter);
    var d := Run(events, cfg, firstCounter);
    SlotsDiffer(d, cfg, name, q.number);
  }

  lemma SlotsDiffer(d: Discovery, cfg: Config, name: string, number: nat)
    requires Inv(d, cfg) && name in d.remotes && number != 0 && d.remotes[name].lastPrivateIPRequestID == number
    ensures d.remotes[name].lastPublicIPRequestID != number
  {
    assert SlotOf(d.remotes[name], PrivateSlot) == number;
    assert SlotOf(d.remotes[name], PublicSlot) == d.remotes[name].lastPublicIPRequestID;
  }

  /** The answer to the request at the public address selects it while the endpoint waits, wherever the answer
      comes from, and does nothing later. */
  lemma PublicAnswerDecides(events: seq<Event>, cfg: Config, firstCounter: nat, name: string, q: Request,
                            resp: Response, from: IP, now: nat)
    requires var d := Run(events, cfg, firstCounter);
      name in d.remotes && q in d.sent && d.remotes[name].lastPublicIPRequestID == q.number
    requires Speaks(resp, name) && resp.number == q.number
    ensures var d := Run(events, cfg, firstCounter);
      var r, d' := d.remotes[name], Next(d, cfg, ReceiveResponse(resp, from, now));
      if r.phase == WaitingForResponse
      then
        var info :=
          NATEndpointInfo(r.endpoint, resp.response == NAT_DETECTED, r.endpoint.spec.GetPublicIP(r.family), r.family);
        && d'.ready == d.ready + [Emission(r.serial, info, Answered(q.number))]
        && d'.remotes.Keys == d.remotes.Keys
          && (forall n :: n in d.remotes && n != name ==> d'.remotes[n] == d.remotes[n])
        && d'.remotes[name].phase == SelectedPublicIP && d'.remotes[name].Info() == info && d'.sent == d.sent
        && d'.remotes[name].lastTransition == now
        && d'.remotes[name].lastPrivateIPRequestID == r.lastPrivateIPRequestID
      else d' == d
  {
  }

  /** Anything else changes nothing: a response with a part missing, one that says neither that NAT was seen
      nor that it was not, one in the name of an endpoint that is not stored, or one with another number. */
  lemma OtherResponsesChangeNothing(events: seq<Event>, cfg: Config, firstCounter: nat, resp: Response, from: IP,
                                    now: nat)
    requires var d := Run(events, cfg, firstCounter);
      forall name :: name in d.remotes && Speaks(resp, name) ==>
        resp.number != d.remotes[name].lastPublicIPRequestID && resp.number != d.remotes[name].lastPrivateIPRequestID
    ensures Next(Run(events, cfg, firstCounter), cfg, ReceiveResponse(resp, from, now))
      == Run(events, cfg, firstCounter)
  {
    var d := Run(events, cfg, firstCounter);
    if resp.sender.Some? && resp.sender.value.endpointID in d.remotes {
      assert Speaks(resp, resp.sender.value.endpointID) ==>
        resp.number != d.remotes[resp.sender.value.endpointID].lastPublicIPRequestID;
    }
  }

  // ----- from the request to the selection -----

  /** The event is not about this endpoint. */
  predicate IsAboutOthers(e: Event, name: string) {
    match e
    case AddEndpoint(endpoint, family, _) => endpoint.spec.GetFamilyCableName(family) != name
    case RemoveEndpoint(n) => n != name
    case CheckEndpoint(n, _, _, _) => n != name
    case ReceiveResponse(response, _, _) => response.sender.None? || response.sender.value.endpointID != name
  }

  lemma OthersLeaveAlone(d: Discovery, cfg: Config, e: Event, name: string)
    requires IsAboutOthers(e, name) && name in d.remotes
    ensures var d' := Next(d, cfg, e);
      name in d'.remotes && d'.remotes[name] == d.remotes[name] && d.sent <= d'.sent
  {
    match e
    case AddEndpoint(_, _, _) =>
    case RemoveEndpoint(_) =>
    case ReceiveResponse(_, _, _) =>
    case CheckEndpoint(n, private', public, now) =>
      if n in d.remotes && d.remotes[n].ShouldCheck(now) && !d.remotes[n].TimedOut(now) {
        SendLeavesOthers(d, cfg, n, PrivateSlot, private', now, name);
        SendLeavesOthers(SendTo(d, cfg, n, PrivateSlot, private', now), cfg, n, PublicSlot, public, now, name);
      }
  }

  lemma SendLeavesOthers(d: Discovery, cfg: Config, n: string, slot: Slot, outcome: SendOutcome, now: nat, name: string)
    requires n in d.remotes && name in d.remotes && n != name
    ensures var d' := SendTo(d, cfg, n, slot, outcome, now);
      n in d'.remotes && name in d'.remotes && d'.remotes[name] == d.remotes[name] && d.sent <= d'.sent
  {
  }

  lemma {:induction false} RunsLeaveAlone(events: seq<Event>, later: seq<Event>, cfg: Config, firstCounter: nat,
                                          name: string)
    requires name in Run(events, cfg, firstCounter).remotes
    requires forall i :: 0 <= i < |later| ==> IsAboutOthers(later[i], name)
    ensures var d, d' := Run(events, cfg, firstCounter), Run(events + later, cfg, firstCounter);
      name in d'.remotes && d'.remotes[name] == d.remotes[name] && d.sent <= d'.sent
  {
    if later == [] {
      assert events + later == events;
    } else {
      var n := |later| - 1;
      assert events + later == (events + later[..n]) + [later[n]];
      RunsLeaveAlone(events, later[..n], cfg, firstCounter, name);
      RunSnoc(events + later[..n], later[n], cfg, firstCounter);
      OthersLeaveAlone(Run(events + later[..n], cfg, firstCounter), cfg, later[n], name);
    }
  }

  /** Discovery succeeds: once a check that is due and in time has asked the private address, the peer's answer to
      that request, however late and after whatever happened to other endpoints, is announced once when it
      comes from that address, and with NAT exactly when the request was not received as it was sent. */
  lemma AskedPeerIsSelected(events: seq<Event>, cfg: Config, firstCounter: nat, name: string, source: IP,
                            public: SendOutcome, asked: nat, later: seq<Event>, peer: EndpointSpec, seen: Address,
                            now: nat)
    returns (q: Request)
    requires var d := Run(events, cfg, firstCounter);
      && name in d.remotes && Due(d.remotes[name], asked)
      && asked <= d.remotes[name].started + Limit(d.remotes[name].endpoint)
      && d.remotes[name].endpoint.spec.GetPrivateIP(d.remotes[name].family) != NoIP
      && peer.GetFamilyCableName(FamilyOf(seen)) == name && peer.clusterID == d.remotes[name].endpoint.spec.clusterID
    requires forall i :: 0 <= i < |later| ==> IsAboutOthers(later[i], name)
    ensures var check := CheckEndpoint(name, Written(source), public, asked);
      var r, d' := Run(events, cfg, firstCounter).remotes[name], Run(events + [check] + later, cfg, firstCounter);
      var own := r.endpoint.spec.GetPrivateIP(r.family);
      var useNAT := (source != NoIP && source != seen.ip) || cfg.serverPort != seen.port
                    || own != peer.GetPrivateIP(FamilyOf(seen));
      && q in d'.sent && q.usingDst == Some(Address(own, r.endpoint.spec.backendConfig.natDiscoveryPort))
      && Next(d', cfg, ReceiveResponse(ResponseTo(peer, q, seen), own, now)).ready
         == d'.ready + [Emission(r.serial, NATEndpointInfo(r.endpoint, useNAT, own, r.family), Answered(q.number))]
  {
    var check := CheckEndpoint(name, Written(source), public, asked);
    q := AskedAndKept(events, cfg, firstCounter, name, source, public, asked, later);
    RunsKeepInv(events, cfg, firstCounter);
    assert EntryOK(name, Run(events, cfg, firstCounter).remotes[name], Run(events, cfg, firstCounter).requestCounter,
                   Run(events, cfg, firstCounter).nextSerial);
    PeerAnswers(peer, q, seen);
    var own := q.usingDst.value.ip;
    PrivateAnswerDecides(events + [check] + later, cfg, firstCounter, name, q, ResponseTo(peer, q, seen), own, now);
  }

  /** The request goes out, and while only other endpoints are dealt with its number stays in the slot. */
  lemma AskedAndKept(events: seq<Event>, cfg: Config, firstCounter: nat, name: string, source: IP,
                     public: SendOutcome, asked: nat, later: seq<Event>)
    returns (q: Request)
    requires var d := Run(events, cfg, firstCounter);
      && name in d.remotes && Due(d.remotes[name], asked)
      && asked <= d.remotes[name].started + Limit(d.remotes[name].endpoint)
      && d.remotes[name].endpoint.spec.GetPrivateIP(d.remotes[name].family) != NoIP
    requires forall i :: 0 <= i < |later| ==> IsAboutOthers(later[i], name)
    ensures var check := CheckEndpoint(name, Written(source), public, asked);
      var r, d' := Run(events, cfg, firstCounter).remotes[name], Run(events + [check] + later, cfg, firstCounter);
      && name in d'.remotes && Same(r, d'.remotes[name]) && d'.remotes[name].phase == WaitingForResponse
      && d'.remotes[name].lastPrivateIPRequestID == q.number && q in d'.sent
      && {q} == AskedAt(cfg, r, r.endpoint.spec.GetPrivateIP(r.family), q.number, source)
  {
    var check := CheckEndpoint(name, Written(source), public, asked);
    var d := Run(events, cfg, firstCounter);
    DueCheckAsks(events, cfg, firstCounter, name, Written(source), public, asked);
    RunSnoc(events, check, cfg, firstCounter);
    q := PrivatelyAsked(d, Next(d, cfg, check), cfg, name, source, public, asked);
    RunsLeaveAlone(events + [check], later, cfg, firstCounter, name);
  }

  lemma PrivatelyAsked(d: Discovery, d': Discovery, cfg: Config, name: string, source: IP, public: SendOutcome,
                       now: nat)
    returns (q: Request)
    requires name in d.remotes && BothAsked(d, d', cfg, name, Written(source), public, now)
    requires d.remotes[name].endpoint.spec.GetPrivateIP(d.remotes[name].family) != NoIP
    ensures var r := d.remotes[name];
      && name in d'.remotes && Same(r, d'.remotes[name]) && d'.remotes[name].phase == WaitingForResponse
      && d'.remotes[name].lastPrivateIPRequestID == q.number && q in d'.sent
      && {q} == AskedAt(cfg, r, r.endpoint.spec.GetPrivateIP(r.family), q.number, source)
  {
    var r := d.remotes[name];
    var asked := AskedAt(cfg, r, r.endpoint.spec.GetPrivateIP(r.family), d.requestCounter + 1, source);
    q :| q in asked;
  }

  lemma PeerAnswers(peer: EndpointSpec, q: Request, seen: Address)
    requires WellFormed(q) && q.receiver == Some(Party(peer.GetFamilyCableName(FamilyOf(seen)), peer.clusterID))
    ensures var resp := ResponseTo(peer, q, seen);
      && Speaks(resp, peer.GetFamilyCableName(FamilyOf(seen))) && resp.number == q.number
      && (resp.response == NAT_DETECTED <==>
            (q.usingSrc.value.ip != NoIP && q.usingSrc.value.ip != seen.ip) || q.usingSrc.value.port != seen.port
            || q.usingDst.value.ip != peer.GetPrivateIP(FamilyOf(seen)))
  {
  }
}
