/** NAT discovery of one gateway (pkg/natdiscovery/natdiscovery.go, request_send.go and
    response_handle.go): which requests it sends and what the responses make it select. */
module NatDiscovery {
  import opened Endpoints
  import opened IPFamilies
  import opened RemoteEndpoint
  import opened NatMessages
  import opened Wrappers

  /** The gateway's own endpoint and the port its server listens on, 0 for none. */
  datatype Config = Config(local: EndpointSpec, serverPort: nat)

  /** What the system does with one request: no source address is found, the write fails or is short,
      or the packet goes out from the source address found. */
  datatype SendOutcome = NoSource | WriteFailed | Written(source: IP)

  datatype Cause = Added | TimedOut | Answered(number: nat)

  /** A ready message, with the object it is about and what caused it. */
  datatype Emission = Emission(serial: nat, info: NATEndpointInfo, cause: Cause)

  /** `sent` holds the requests written to the network and `ready` the messages put on the ready channel,
      from the beginning; `nextSerial` numbers the objects made. */
  datatype Discovery = Discovery(requestCounter: nat, nextSerial: nat, remotes: map<string, Remote>,
                                 sent: set<Request>, ready: seq<Emission>)

  // ----- the steps, on values -----

  function Emit(d: Discovery, r: Remote, cause: Cause): Discovery {
    d.(ready := d.ready + [Emission(r.serial, r.Info(), cause)])
  }

  function Put(d: Discovery, name: string, r: Remote): Discovery {
    d.(remotes := d.remotes[name := r])
  }

  /** An object with the same spec stays, and is announced again if its selection is made. */
  function Keep(d: Discovery, name: string, added: Remote): Discovery {
    if name in d.remotes && d.remotes[name].endpoint.spec == added.endpoint.spec then
      if d.remotes[name].Complete() then Emit(d, d.remotes[name], Added) else d
    else Put(d, name, added)
  }

  predicate UsesLegacy(cfg: Config, endpoint: Endpoint) {
    endpoint.spec.backendConfig.natDiscoveryPort == 0 || cfg.serverPort == 0
  }

  /** The object made for an endpoint: without discovery it is decided, and announced, at once. */
  function MadeFor(d: Discovery, cfg: Config, endpoint: Endpoint, family: Family, now: nat): Remote {
    var made := New(d.nextSerial, endpoint, family, now);
    if UsesLegacy(cfg, endpoint) then Legacy(made, now) else made
  }

  function Make(d: Discovery, cfg: Config, endpoint: Endpoint, family: Family, now: nat): Discovery {
    var counted := d.(nextSerial := d.nextSerial + 1);
    if UsesLegacy(cfg, endpoint) then Emit(counted, MadeFor(d, cfg, endpoint, family, now), Added) else counted
  }

  function Add(d: Discovery, cfg: Config, endpoint: Endpoint, family: Family, now: nat): Discovery {
    Keep(Make(d, cfg, endpoint, family, now), endpoint.spec.GetFamilyCableName(family),
      MadeFor(d, cfg, endpoint, family, now))
  }

  function Forget(d: Discovery, name: string): Discovery {
    d.(remotes := d.remotes - {name})
  }

  function Target(r: Remote, slot: Slot): IP {
    match slot case PublicSlot => r.PublicIP() case PrivateSlot => r.PrivateIP()
  }

  function RequestFor(cfg: Config, r: Remote, slot: Slot, number: nat, source: IP): Request {
    Request(number,
            Some(Party(cfg.local.GetFamilyCableName(r.family), cfg.local.clusterID)),
            Some(Party(r.Name(), r.endpoint.spec.clusterID)),
            Some(Address(source, cfg.serverPort)),
            Some(Address(Target(r, slot), r.endpoint.spec.backendConfig.natDiscoveryPort)))
  }

  function WriteFails(d: Discovery, name: string, slot: Slot): Discovery
    requires name in d.remotes
  {
    Put(d.(requestCounter := d.requestCounter + 1), name, WithSlot(d.remotes[name], slot, 0))
  }

  function WriteSucceeds(d: Discovery, cfg: Config, name: string, slot: Slot, source: IP, now: nat): Discovery
    requires name in d.remotes
  {
    var number := d.requestCounter + 1;
    Put(d.(requestCounter := number, sent := d.sent + {RequestFor(cfg, d.remotes[name], slot, number, source)}), name,
        CheckSent(WithSlot(d.remotes[name], slot, number), now))
  }

  /** One request to one of the addresses of a remote endpoint. */
  function SendTo(d: Discovery, cfg: Config, name: string, slot: Slot, outcome: SendOutcome, now: nat): Discovery
    requires name in d.remotes
  {
    if Target(d.remotes[name], slot) == NoIP || d.remotes[name].endpoint.spec.backendConfig.natDiscoveryPort == 0 then d
    else
      match outcome
      case NoSource => d
      case WriteFailed => WriteFails(d, name, slot)
      case Written(source) => WriteSucceeds(d, cfg, name, slot, source, now)
  }

  function SendCheck(d: Discovery, cfg: Config, name: string, private': SendOutcome, public: SendOutcome,
                     now: nat): Discovery
    requires name in d.remotes
  {
    SendTo(SendTo(d, cfg, name, PrivateSlot, private', now), cfg, name, PublicSlot, public, now)
  }

  function GiveUp(d: Discovery, name: string, now: nat): Discovery
    requires name in d.remotes
  {
    var r := Legacy(d.remotes[name], now);
    Emit(Put(d, name, r), r, TimedOut)
  }

  /** What a pass over the endpoints does with one of them. */
  function CheckOne(d: Discovery, cfg: Config, name: string, private': SendOutcome, public: SendOutcome,
                    now: nat): Discovery {
    if name !in d.remotes || !d.remotes[name].ShouldCheck(now) then d
    else if d.remotes[name].TimedOut(now) then GiveUp(d, name, now)
    else SendCheck(d, cfg, name, private', public, now)
  }

  /** Which request of a remote endpoint a response answers. */
  datatype Match = NoMatch | Matches(name: string, slot: Slot)

  function MatchOf(d: Discovery, resp: Response, from: IP): Match {
    if resp.sender.None? || resp.receiver.None? || resp.receivedSrc.None? then NoMatch
    else if resp.response != OK && resp.response != NAT_DETECTED then NoMatch
    else if resp.sender.value.endpointID !in d.remotes then NoMatch
    else
      var r := d.remotes[resp.sender.value.endpointID];
      if r.lastPublicIPRequestID == resp.number then Matches(resp.sender.value.endpointID, PublicSlot)
      else if r.lastPrivateIPRequestID == resp.number && from == r.PrivateIP()
        then Matches(resp.sender.value.endpointID, PrivateSlot)
      else NoMatch
  }

  predicate Takes(r: Remote, slot: Slot, now: nat) {
    match slot case PublicSlot => TakesPublic(r) case PrivateSlot => TakesPrivate(r, now)
  }

  function Moved(r: Remote, slot: Slot, useNAT: bool, now: nat): Remote {
    match slot case PublicSlot => ToPublic(r, useNAT, now) case PrivateSlot => ToPrivate(r, useNAT, now)
  }

  function Answer(d: Discovery, name: string, slot: Slot, useNAT: bool, number: nat, now: nat): Discovery
    requires name in d.remotes
  {
    if !Takes(d.remotes[name], slot, now) then d
    else
      var r := Moved(d.remotes[name], slot, useNAT, now);
      Emit(Put(d, name, r), r, Answered(number))
  }

  /** A response that answers the latest request in one of the slots moves the endpoint, if its phase
      still takes it; any other response changes nothing. */
  function Receive(d: Discovery, resp: Response, from: IP, now: nat): Discovery {
    match MatchOf(d, resp, from)
    case NoMatch => d
    case Matches(name, slot) => Answer(d, name, slot, resp.response == NAT_DETECTED, resp.number, now)
  }

  // ----- runs -----

  datatype Event =
    | AddEndpoint(endpoint: Endpoint, family: Family, now: nat)
    | RemoveEndpoint(name: string)
    | CheckEndpoint(name: string, private': SendOutcome, public: SendOutcome, now: nat)
    | ReceiveResponse(response: Response, from: IP, now: nat)

  function Next(d: Discovery, cfg: Config, e: Event): Discovery {
    match e
    case AddEndpoint(endpoint, family, now) => Add(d, cfg, endpoint, family, now)
    case RemoveEndpoint(name) => Forget(d, name)
    case CheckEndpoint(name, private', public, now) => CheckOne(d, cfg, name, private', public, now)
    case ReceiveResponse(response, from, now) => Receive(d, response, from, now)
  }

  /** Every run: any events in any order, from a random request counter. */
  function Run(events: seq<Event>, cfg: Config, firstCounter: nat): Discovery {
    if events == [] then Discovery(firstCounter, 0, map[], {}, [])
    else Next(Run(events[..|events| - 1], cfg, firstCounter), cfg, events[|events| - 1])
  }

  // ----- what every step keeps, endpoint by endpoint -----

  /** How an object can change: its selection only improves, a private selection is final, and a public
      one gives way to the private one only within the failover timeout. */
  ghost predicate Evolves(r: Remote, r': Remote) {
    && r'.serial == r.serial && r'.endpoint == r.endpoint && r'.family == r.family
    && r'.started == r.started && r'.timeout == r.timeout && r'.usingLoadBalancer == r.usingLoadBalancer
    && r'.Rank() <= r.Rank()
    && (r'.phase == r.phase && r.Complete() ==>
          r'.useIP == r.useIP && r'.useNAT == r.useNAT && r'.lastTransition == r.lastTransition)
    && (r.phase == SelectedPublicIP && r'.phase == SelectedPrivateIP ==>
          r'.lastTransition - r.lastTransition <= PUBLIC_TO_PRIVATE_FAILOVER_TIMEOUT)
  }

  /** What holds of every stored object. While it waits, its last check came before the timeout. */
  ghost predicate EntryOK(name: string, r: Remote, counter: nat, nextSerial: nat) {
    && r.Name() == name && r.SelectionFits()
    && r.serial < nextSerial
    && r.lastPublicIPRequestID <= counter && r.lastPrivateIPRequestID <= counter
    && (r.phase == WaitingForResponse ==> r.lastCheck <= r.started + r.timeout)
  }

  ghost predicate EntriesOK(d: Discovery) {
    forall name :: name in d.remotes ==> EntryOK(name, d.remotes[name], d.requestCounter, d.nextSerial)
  }

  /** No two slots, of one object or of two, hold the same request number. */
  ghost predicate SlotsDistinct(remotes: map<string, Remote>) {
    forall m, n, s, t :: m in remotes && n in remotes && SlotOf(remotes[m], s) == SlotOf(remotes[n], t) != 0 ==>
      m == n && s == t
  }

  ghost predicate SerialsDistinct(remotes: map<string, Remote>) {
    forall m, n :: m in remotes && n in remotes && remotes[m].serial == remotes[n].serial ==> m == n
  }

  ghost predicate NumbersDistinct(sent: set<Request>, counter: nat) {
    && (forall q :: q in sent ==> 0 < q.number <= counter)
    && (forall q, q' :: q in sent && q' in sent && q.number == q'.number ==> q == q')
  }

  /** The request is the one that this gateway sends to this address of the remote endpoint. */
  ghost predicate SentTo(cfg: Config, q: Request, r: Remote, slot: Slot) {
    q.usingSrc.Some? && q == RequestFor(cfg, r, slot, q.number, q.usingSrc.value.ip)
  }

  /** A slot holds the number of a request that was sent to the address of that slot. */
  ghost predicate SlotsTellRequests(cfg: Config, sent: set<Request>, remotes: map<string, Remote>) {
    forall n, s, q :: n in remotes && q in sent && q.number == SlotOf(remotes[n], s) ==> SentTo(cfg, q, remotes[n], s)
  }

  ghost predicate Inv(d: Discovery, cfg: Config) {
    && EntriesOK(d) && SlotsDistinct(d.remotes) && SerialsDistinct(d.remotes)
    && NumbersDistinct(d.sent, d.requestCounter) && SlotsTellRequests(cfg, d.sent, d.remotes)
  }

  ghost predicate SameSlots(r: Remote, r': Remote) {
    r'.lastPublicIPRequestID == r.lastPublicIPRequestID && r'.lastPrivateIPRequestID == r.lastPrivateIPRequestID
  }

  lemma PutEvolved(d: Discovery, cfg: Config, name: string, r': Remote)
    requires Inv(d, cfg) && name in d.remotes && Evolves(d.remotes[name], r') && SameSlots(d.remotes[name], r')
    requires EntryOK(name, r', d.requestCounter, d.nextSerial)
    ensures Inv(Put(d, name, r'), cfg)
  {
    var r := d.remotes[name];
    assert SlotOf(r', PublicSlot) == SlotOf(r, PublicSlot) && SlotOf(r', PrivateSlot) == SlotOf(r, PrivateSlot);
    var remotes' := d.remotes[name := r'];
    forall n, s | n in d.remotes ensures SlotOf(remotes'[n], s) == SlotOf(d.remotes[n], s) {
    }
    SlotsKept(d.remotes, remotes');
    forall n, s, q | n in remotes' && q in d.sent && q.number == SlotOf(remotes'[n], s)
      ensures SentTo(cfg, q, remotes'[n], s) {
      assert SentTo(cfg, q, d.remotes[n], s);
    }
  }

  lemma SlotsKept(remotes: map<string, Remote>, remotes': map<string, Remote>)
    requires SlotsDistinct(remotes) && remotes'.Keys == remotes.Keys
    requires forall n, s :: n in remotes ==> SlotOf(remotes'[n], s) == SlotOf(remotes[n], s)
    ensures SlotsDistinct(remotes')
  {
  }

  lemma PutNew(d: Discovery, cfg: Config, name: string, r: Remote)
    requires Inv(d, cfg) && r.lastPublicIPRequestID == 0 && r.lastPrivateIPRequestID == 0
    requires forall n :: n in d.remotes ==> d.remotes[n].serial != r.serial
    requires EntryOK(name, r, d.requestCounter, d.nextSerial)
    ensures Inv(Put(d, name, r), cfg)
  {
    var remotes' := d.remotes[name := r];
    assert SlotOf(r, PublicSlot) == 0 && SlotOf(r, PrivateSlot) == 0;
    forall m, n, s, t | m in remotes' && n in remotes' && SlotOf(remotes'[m], s) == SlotOf(remotes'[n], t) != 0
      ensures m == n && s == t
    {
      assert m != name && n != name;
    }
    forall n, s, q | n in remotes' && q in d.sent && q.number == SlotOf(remotes'[n], s)
      ensures SentTo(cfg, q, remotes'[n], s) {
      assert n != name;
    }
  }

  lemma ForgetKeepsInv(d: Discovery, cfg: Config, name: string)
    requires Inv(d, cfg)
    ensures Inv(Forget(d, name), cfg)
  {
  }

  /** The requests sent, with a new one if there is one. */
  ghost function With(sent: set<Request>, q: Option<Request>): set<Request> {
    if q.Some? then sent + {q.value} else sent
  }

  /** A slot gets a number that was never used, or none. */
  lemma PutFreshSlot(d: Discovery, cfg: Config, name: string, slot: Slot, number: nat, r': Remote, q: Option<Request>)
    requires Inv(d, cfg) && name in d.remotes && (number == 0 || number == d.requestCounter + 1)
    requires Evolves(d.remotes[name], r') && SameSlots(WithSlot(d.remotes[name], slot, number), r')
    requires EntryOK(name, r', d.requestCounter + 1, d.nextSerial)
    requires q.Some? ==> q.value.number == d.requestCounter + 1 == number && SentTo(cfg, q.value, r', slot)
    ensures Inv(Put(d.(requestCounter := d.requestCounter + 1, sent := With(d.sent, q)), name, r'), cfg)
  {
    var r, remotes' := d.remotes[name], d.remotes[name := r'];
    FreshSlotDistinct(d, name, slot, number, r');
    forall n, s, q' | n in remotes' && q' in With(d.sent, q) && q'.number == SlotOf(remotes'[n], s)
      ensures SentTo(cfg, q', remotes'[n], s) {
      FreshSlotTells(d, cfg, name, slot, number, r', n, s, q');
    }
  }

  lemma FreshSlotDistinct(d: Discovery, name: string, slot: Slot, number: nat, r': Remote)
    requires EntriesOK(d) && SlotsDistinct(d.remotes) && name in d.remotes
      && (number == 0 || number == d.requestCounter + 1)
    requires SameSlots(WithSlot(d.remotes[name], slot, number), r')
    ensures SlotsDistinct(d.remotes[name := r'])
  {
    var remotes' := d.remotes[name := r'];
    forall n, s | n in d.remotes && (n != name || s != slot)
      ensures SlotOf(remotes'[n], s) == SlotOf(d.remotes[n], s) <= d.requestCounter {
      assert EntryOK(n, d.remotes[n], d.requestCounter, d.nextSerial);
    }
    assert SlotOf(r', slot) == number;
  }

  lemma FreshSlotTells(d: Discovery, cfg: Config, name: string, slot: Slot, number: nat, r': Remote, n: string, s: Slot,
                       q: Request)
    requires Inv(d, cfg) && name in d.remotes && (number == 0 || number == d.requestCounter + 1)
    requires Evolves(d.remotes[name], r') && SameSlots(WithSlot(d.remotes[name], slot, number), r')
    requires q in d.sent || (q.number == d.requestCounter + 1 == number && SentTo(cfg, q, r', slot))
    requires n in d.remotes && q.number == SlotOf(d.remotes[name := r'][n], s)
    ensures SentTo(cfg, q, d.remotes[name := r'][n], s)
  {
    assert EntryOK(n, d.remotes[n], d.requestCounter, d.nextSerial);
    if n == name && s == slot {
    } else {
      assert SlotOf(d.remotes[name := r'][n], s) == SlotOf(d.remotes[n], s) <= d.requestCounter;
      assert SentTo(cfg, q, d.remotes[n], s);
    }
  }

  // ----- every event keeps it -----

  lemma MakeKeepsInv(d: Discovery, cfg: Config, endpoint: Endpoint, family: Family, now: nat)
    requires Inv(d, cfg)
    ensures var d', r := Make(d, cfg, endpoint, family, now), MadeFor(d, cfg, endpoint, family, now);
      && Inv(d', cfg) && d'.remotes == d.remotes && d'.requestCounter == d.requestCounter
      && EntryOK(endpoint.spec.GetFamilyCableName(family), r, d'.requestCounter, d'.nextSerial)
      && r.lastPublicIPRequestID == 0 && r.lastPrivateIPRequestID == 0 && r.serial == d.nextSerial
  {
  }

  lemma AddKeepsInv(d: Discovery, cfg: Config, endpoint: Endpoint, family: Family, now: nat)
    requires Inv(d, cfg)
    ensures Inv(Add(d, cfg, endpoint, family, now), cfg)
  {
    var name := endpoint.spec.GetFamilyCableName(family);
    var d', r := Make(d, cfg, endpoint, family, now), MadeFor(d, cfg, endpoint, family, now);
    MakeKeepsInv(d, cfg, endpoint, family, now);
    forall n | n in d'.remotes ensures d'.remotes[n].serial != r.serial {
      assert EntryOK(n, d.remotes[n], d.requestCounter, d.nextSerial);
    }
    PutNew(d', cfg, name, r);
    KeepIsPutOrNothing(d', name, r);
    SameEntriesInv(d', Keep(d', name, r), cfg, name, r);
  }

  lemma KeepIsPutOrNothing(d: Discovery, name: string, added: Remote)
    ensures var d' := Keep(d, name, added);
      && d'.requestCounter == d.requestCounter && d'.nextSerial == d.nextSerial && d'.sent == d.sent
      && (d'.remotes == d.remotes || d'.remotes == d.remotes[name := added])
  {
  }

  lemma SameEntriesInv(d: Discovery, d': Discovery, cfg: Config, name: string, r: Remote)
    requires Inv(d, cfg) && Inv(Put(d, name, r), cfg)
    requires d'.requestCounter == d.requestCounter && d'.nextSerial == d.nextSerial && d'.sent == d.sent
    requires d'.remotes == d.remotes || d'.remotes == d.remotes[name := r]
    ensures Inv(d', cfg)
  {
    if d'.remotes == d.remotes {
      assert d' == d.(ready := d'.ready);
    } else {
      assert d' == Put(d, name, r).(ready := d'.ready);
    }
  }

  ghost predicate Undecided(r: Remote, now: nat) {
    !r.TimedOut(now) && !r.Complete()
  }

  lemma FailureKeepsInv(d: Discovery, cfg: Config, name: string, slot: Slot, now: nat)
    requires Inv(d, cfg) && name in d.remotes && Undecided(d.remotes[name], now)
    ensures Inv(WriteFails(d, name, slot), cfg) && Undecided(WithSlot(d.remotes[name], slot, 0), now)
  {
    assert EntryOK(name, d.remotes[name], d.requestCounter, d.nextSerial);
    PutFreshSlot(d, cfg, name, slot, 0, WithSlot(d.remotes[name], slot, 0), None);
    assert d.(requestCounter := d.requestCounter + 1) == d.(requestCounter := d.requestCounter + 1, sent := d.sent);
  }

  lemma SuccessKeepsInv(d: Discovery, cfg: Config, name: string, slot: Slot, source: IP, now: nat)
    requires Inv(d, cfg) && name in d.remotes && Undecided(d.remotes[name], now)
    ensures Inv(WriteSucceeds(d, cfg, name, slot, source, now), cfg)
    ensures Undecided(CheckSent(WithSlot(d.remotes[name], slot, d.requestCounter + 1), now), now)
  {
    var number := d.requestCounter + 1;
    var r' := CheckSent(WithSlot(d.remotes[name], slot, number), now);
    var q := RequestFor(cfg, d.remotes[name], slot, number, source);
    assert EntryOK(name, d.remotes[name], d.requestCounter, d.nextSerial);
    SlotWritten(d.remotes[name], slot, number, d.requestCounter, d.nextSerial, name, now);
    SentToSame(cfg, q, d.remotes[name], r', slot);
    PutFreshSlot(d, cfg, name, slot, number, r', Some(q));
  }

  lemma SlotWritten(r: Remote, slot: Slot, number: nat, counter: nat, nextSerial: nat, name: string, now: nat)
    requires EntryOK(name, r, counter, nextSerial) && Undecided(r, now) && number == counter + 1
    ensures var written := CheckSent(WithSlot(r, slot, number), now);
      && Evolves(r, written) && SameSlots(WithSlot(r, slot, number), written)
      && EntryOK(name, written, number, nextSerial) && Undecided(written, now)
  {
  }

  lemma SentToSame(cfg: Config, q: Request, r: Remote, r': Remote, slot: Slot)
    requires SentTo(cfg, q, r, slot) && r'.endpoint == r.endpoint && r'.family == r.family
    ensures SentTo(cfg, q, r', slot)
  {
  }

  lemma SendToKeepsInv(d: Discovery, cfg: Config, name: string, slot: Slot, outcome: SendOutcome, now: nat)
    requires Inv(d, cfg) && name in d.remotes && Undecided(d.remotes[name], now)
    ensures var d' := SendTo(d, cfg, name, slot, outcome, now);
      Inv(d', cfg) && name in d'.remotes && Undecided(d'.remotes[name], now)
  {
    match outcome
    case NoSource =>
    case WriteFailed => FailureKeepsInv(d, cfg, name, slot, now);
    case Written(source) => SuccessKeepsInv(d, cfg, name, slot, source, now);
  }

  lemma CheckKeepsInv(d: Discovery, cfg: Config, name: string, private': SendOutcome, public: SendOutcome, now: nat)
    requires Inv(d, cfg)
    ensures Inv(CheckOne(d, cfg, name, private', public, now), cfg)
  {
    if name in d.remotes && d.remotes[name].ShouldCheck(now) {
      if d.remotes[name].TimedOut(now) {
        PutEvolved(d, cfg, name, Legacy(d.remotes[name], now));
      } else {
        SendToKeepsInv(d, cfg, name, PrivateSlot, private', now);
        SendToKeepsInv(SendTo(d, cfg, name, PrivateSlot, private', now), cfg, name, PublicSlot, public, now);
      }
    }
  }

  lemma MovedEvolves(r: Remote, slot: Slot, useNAT: bool, now: nat)
    requires Takes(r, slot, now)
    ensures var r' := Moved(r, slot, useNAT, now);
      Evolves(r, r') && SameSlots(r, r') && r'.Rank() < r.Rank() <= 2 && r'.SelectionFits()
  {
  }

  lemma ReceiveKeepsInv(d: Discovery, cfg: Config, resp: Response, from: IP, now: nat)
    requires Inv(d, cfg)
    ensures Inv(Receive(d, resp, from, now), cfg)
  {
    match MatchOf(d, resp, from)
    case NoMatch =>
    case Matches(name, slot) =>
      if Takes(d.remotes[name], slot, now) {
        MovedEvolves(d.remotes[name], slot, resp.response == NAT_DETECTED, now);
        PutEvolved(d, cfg, name, Moved(d.remotes[name], slot, resp.response == NAT_DETECTED, now));
      }
  }

  lemma NextKeepsInv(d: Discovery, cfg: Config, e: Event)
    requires Inv(d, cfg)
    ensures Inv(Next(d, cfg, e), cfg)
  {
    match e
    case AddEndpoint(endpoint, family, now) => AddKeepsInv(d, cfg, endpoint, family, now);
    case RemoveEndpoint(name) => ForgetKeepsInv(d, cfg, name);
    case CheckEndpoint(name, private', public, now) => CheckKeepsInv(d, cfg, name, private', public, now);
    case ReceiveResponse(response, from, now) => ReceiveKeepsInv(d, cfg, response, from, now);
  }

  // ----- every number in a slot was sent -----

  ghost predicate NumberSent(sent: set<Request>, number: nat) {
    exists q :: q in sent && q.number == number
  }

  /** A slot is unused or holds the number of a request that was sent. */
  ghost predicate SlotsSent(sent: set<Request>, remotes: map<string, Remote>) {
    forall n, s :: n in remotes && SlotOf(remotes[n], s) != 0 ==> NumberSent(sent, SlotOf(remotes[n], s))
  }

  lemma PutKeepsSent(sent: set<Request>, sent': set<Request>, remotes: map<string, Remote>, name: string, r': Remote)
    requires SlotsSent(sent, remotes) && sent <= sent'
    requires forall s :: SlotOf(r', s) != 0 ==> NumberSent(sent', SlotOf(r', s))
    ensures SlotsSent(sent', remotes[name := r'])
  {
    var remotes' := remotes[name := r'];
    forall n, s | n in remotes' && SlotOf(remotes'[n], s) != 0 ensures NumberSent(sent', SlotOf(remotes'[n], s)) {
      if n != name {
        assert NumberSent(sent, SlotOf(remotes[n], s));
      }
    }
  }

  /** A slot gets the number of the request just sent, or none. */
  lemma WrittenKeepsSent(d: Discovery, name: string, slot: Slot, number: nat, r': Remote, sent': set<Request>)
    requires SlotsSent(d.sent, d.remotes) && name in d.remotes && d.sent <= sent'
    requires SameSlots(WithSlot(d.remotes[name], slot, number), r') && (number != 0 ==> NumberSent(sent', number))
    ensures SlotsSent(sent', d.remotes[name := r'])
  {
    forall s | SlotOf(r', s) != 0 ensures NumberSent(sent', SlotOf(r', s)) {
      if s != slot {
        assert SlotOf(r', s) == SlotOf(d.remotes[name], s);
        assert NumberSent(d.sent, SlotOf(d.remotes[name], s));
      } else {
        assert SlotOf(r', s) == number;
      }
    }
    PutKeepsSent(d.sent, sent', d.remotes, name, r');
  }

  lemma SendKeepsSent(d: Discovery, cfg: Config, name: string, slot: Slot, outcome: SendOutcome, now: nat)
    requires SlotsSent(d.sent, d.remotes) && name in d.remotes
    ensures var d' := SendTo(d, cfg, name, slot, outcome, now);
      SlotsSent(d'.sent, d'.remotes) && name in d'.remotes && d.sent <= d'.sent
  {
    match outcome
    case NoSource =>
    case WriteFailed => WrittenKeepsSent(d, name, slot, 0, WithSlot(d.remotes[name], slot, 0), d.sent);
    case Written(source) =>
      var number := d.requestCounter + 1;
      var q := RequestFor(cfg, d.remotes[name], slot, number, source);
      var r' := CheckSent(WithSlot(d.remotes[name], slot, number), now);
      assert q in d.sent + {q} && q.number == number;
      WrittenKeepsSent(d, name, slot, number, r', d.sent + {q});
  }

  lemma SameSlotsSent(d: Discovery, name: string, r': Remote)
    requires SlotsSent(d.sent, d.remotes) && name in d.remotes && SameSlots(d.remotes[name], r')
    ensures SlotsSent(d.sent, d.remotes[name := r'])
  {
    forall s | SlotOf(r', s) != 0 ensures NumberSent(d.sent, SlotOf(r', s)) {
      assert SlotOf(r', s) == SlotOf(d.remotes[name], s);
    }
    PutKeepsSent(d.sent, d.sent, d.remotes, name, r');
  }

  lemma NextKeepsSlotsSent(d: Discovery, cfg: Config, e: Event)
    requires SlotsSent(d.sent, d.remotes)
    ensures var d' := Next(d, cfg, e);
      SlotsSent(d'.sent, d'.remotes) && d.sent <= d'.sent
  {
    match e
    case AddEndpoint(endpoint, family, now) =>
      var name, r := endpoint.spec.GetFamilyCableName(family), MadeFor(d, cfg, endpoint, family, now);
      KeepIsPutOrNothing(Make(d, cfg, endpoint, family, now), name, r);
      assert SlotOf(r, PublicSlot) == 0 && SlotOf(r, PrivateSlot) == 0;
      PutKeepsSent(d.sent, d.sent, d.remotes, name, r);
    case RemoveEndpoint(name) =>
    case CheckEndpoint(name, private', public, now) =>
      if name in d.remotes && d.remotes[name].ShouldCheck(now) {
        if d.remotes[name].TimedOut(now) {
          SameSlotsSent(d, name, Legacy(d.remotes[name], now));
        } else {
          SendKeepsSent(d, cfg, name, PrivateSlot, private', now);
          SendKeepsSent(SendTo(d, cfg, name, PrivateSlot, private', now), cfg, name, PublicSlot, public, now);
        }
      }
    case ReceiveResponse(response, from, now) =>
      match MatchOf(d, response, from)
      case NoMatch =>
      case Matches(name, slot) =>
        if Takes(d.remotes[name], slot, now) {
          var useNAT := response.response == NAT_DETECTED;
          MovedEvolves(d.remotes[name], slot, useNAT, now);
          SameSlotsSent(d, name, Moved(d.remotes[name], slot, useNAT, now));
        }
  }

  lemma {:induction false} RunsKeepInv(events: seq<Event>, cfg: Config, firstCounter: nat)
    ensures Inv(Run(events, cfg, firstCounter), cfg)
    ensures SlotsSent(Run(events, cfg, firstCounter).sent, Run(events, cfg, firstCounter).remotes)
  {
    if events != [] {
      var n := |events| - 1;
      RunsKeepInv(events[..n], cfg, firstCounter);
      NextKeepsInv(Run(events[..n], cfg, firstCounter), cfg, events[n]);
      NextKeepsSlotsSent(Run(events[..n], cfg, firstCounter), cfg, events[n]);
    }
  }

  // ----- bounded discovery -----

  /** A check later than the timeout and one recheck interval after the start ends discovery, in every
      run: while an endpoint waits, its last check never passes the timeout. */
  lemma BoundedDiscovery(events: seq<Event>, cfg: Config, firstCounter: nat, name: string, private': SendOutcome,
                         public: SendOutcome, now: nat)
    requires var d := Run(events, cfg, firstCounter);
      name in d.remotes && now > d.remotes[name].started + d.remotes[name].timeout + RECHECK_TIME
    ensures var d' := CheckOne(Run(events, cfg, firstCounter), cfg, name, private', public, now);
      name in d'.remotes && d'.remotes[name].Complete()
  {
    var d := Run(events, cfg, firstCounter);
    RunsKeepInv(events, cfg, firstCounter);
    assert EntryOK(name, d.remotes[name], d.requestCounter, d.nextSerial);
  }

  // ----- how objects change over a run -----

  /** A slot that changes loses its number or gets one that was never used before. */
  ghost predicate SlotsMoveOn(r: Remote, r': Remote, counter: nat) {
    forall s :: SlotOf(r', s) == SlotOf(r, s) || SlotOf(r', s) == 0 || SlotOf(r', s) > counter
  }

  /** Every object after a step was there before and evolved, or is new. */
  ghost predicate Updates(d: Discovery, d': Discovery) {
    && d.requestCounter <= d'.requestCounter && d.nextSerial <= d'.nextSerial
    && forall n :: n in d'.remotes ==>
      || (n in d.remotes && Evolves(d.remotes[n], d'.remotes[n])
        && SlotsMoveOn(d.remotes[n], d'.remotes[n], d.requestCounter))
      || (d'.remotes[n].serial >= d.nextSerial
        && forall s :: SlotOf(d'.remotes[n], s) == 0 || SlotOf(d'.remotes[n], s) > d.requestCounter)
  }

  lemma PutUpdates(d: Discovery, d': Discovery, name: string)
    requires name in d.remotes && name in d'.remotes && d'.remotes == d.remotes[name := d'.remotes[name]]
    requires d.requestCounter <= d'.requestCounter && d.nextSerial <= d'.nextSerial
    requires Evolves(d.remotes[name], d'.remotes[name])
      && SlotsMoveOn(d.remotes[name], d'.remotes[name], d.requestCounter)
    ensures Updates(d, d')
  {
    forall n | n in d.remotes
      ensures Evolves(d.remotes[n], d.remotes[n]) && SlotsMoveOn(d.remotes[n], d.remotes[n], d.requestCounter) {
    }
  }

  lemma SendToUpdates(d: Discovery, cfg: Config, name: string, slot: Slot, outcome: SendOutcome, now: nat)
    requires name in d.remotes
    ensures Updates(d, SendTo(d, cfg, name, slot, outcome, now))
      && name in SendTo(d, cfg, name, slot, outcome, now).remotes
  {
    SlotMoves(d.remotes[name], slot, d.requestCounter, now);
    NothingUpdates(d);
    match outcome
    case NoSource =>
    case WriteFailed => PutUpdates(d, WriteFails(d, name, slot), name);
    case Written(source) => PutUpdates(d, WriteSucceeds(d, cfg, name, slot, source, now), name);
  }

  lemma SlotMoves(r: Remote, slot: Slot, counter: nat, now: nat)
    ensures var written := CheckSent(WithSlot(r, slot, counter + 1), now);
      && Evolves(r, WithSlot(r, slot, 0)) && SlotsMoveOn(r, WithSlot(r, slot, 0), counter)
      && Evolves(r, written) && SlotsMoveOn(r, written, counter)
      && SlotsMoveOn(r, r, counter)
  {
  }

  lemma UpdatesCompose(a: Discovery, b: Discovery, c: Discovery)
    requires Updates(a, b) && Updates(b, c)
    ensures Updates(a, c)
  {
    forall n | n in c.remotes && n in b.remotes && n in a.remotes
      && Evolves(b.remotes[n], c.remotes[n]) && SlotsMoveOn(b.remotes[n], c.remotes[n], b.requestCounter)
      && Evolves(a.remotes[n], b.remotes[n]) && SlotsMoveOn(a.remotes[n], b.remotes[n], a.requestCounter)
      ensures Evolves(a.remotes[n], c.remotes[n]) && SlotsMoveOn(a.remotes[n], c.remotes[n], a.requestCounter)
    {
      EvolvesCompose(a.remotes[n], b.remotes[n], c.remotes[n]);
    }
  }

  lemma EvolvesCompose(r: Remote, s: Remote, t: Remote)
    requires Evolves(r, s) && Evolves(s, t)
    ensures Evolves(r, t)
  {
  }

  lemma CheckUpdates(d: Discovery, cfg: Config, name: string, private': SendOutcome, public: SendOutcome, now: nat)
    ensures Updates(d, CheckOne(d, cfg, name, private', public, now))
  {
    if name !in d.remotes || !d.remotes[name].ShouldCheck(now) {
      NothingUpdates(d);
    } else if d.remotes[name].TimedOut(now) {
      PutUpdates(d, CheckOne(d, cfg, name, private', public, now), name);
    } else {
      var half := SendTo(d, cfg, name, PrivateSlot, private', now);
      SendToUpdates(d, cfg, name, PrivateSlot, private', now);
      SendToUpdates(half, cfg, name, PublicSlot, public, now);
      UpdatesCompose(d, half, SendTo(half, cfg, name, PublicSlot, public, now));
    }
  }

  lemma NothingUpdates(d: Discovery)
    ensures Updates(d, d)
  {
    forall n | n in d.remotes
      ensures Evolves(d.remotes[n], d.remotes[n]) && SlotsMoveOn(d.remotes[n], d.remotes[n], d.requestCounter) {
    }
  }

  lemma ReceiveUpdates(d: Discovery, resp: Response, from: IP, now: nat)
    ensures Updates(d, Receive(d, resp, from, now))
  {
    NothingUpdates(d);
    match MatchOf(d, resp, from)
    case NoMatch =>
    case Matches(name, slot) =>
      if Takes(d.remotes[name], slot, now) {
        MovedEvolves(d.remotes[name], slot, resp.response == NAT_DETECTED, now);
        PutUpdates(d, Receive(d, resp, from, now), name);
      }
  }

  lemma AddUpdates(d: Discovery, cfg: Config, endpoint: Endpoint, family: Family, now: nat)
    ensures Updates(d, Add(d, cfg, endpoint, family, now))
  {
    NothingUpdates(d);
    var d', r := Make(d, cfg, endpoint, family, now), MadeFor(d, cfg, endpoint, family, now);
    assert d'.remotes == d.remotes && d'.requestCounter == d.requestCounter && d'.nextSerial > d.nextSerial;
    assert forall s :: SlotOf(r, s) == 0;
    KeepIsPutOrNothing(d', endpoint.spec.GetFamilyCableName(family), r);
    NewUpdates(d, Add(d, cfg, endpoint, family, now), endpoint.spec.GetFamilyCableName(family), r);
  }

  lemma NewUpdates(d: Discovery, d': Discovery, name: string, r: Remote)
    requires Updates(d, d) && d.requestCounter <= d'.requestCounter && d.nextSerial <= d'.nextSerial
    requires d'.remotes == d.remotes || d'.remotes == d.remotes[name := r]
    requires r.serial >= d.nextSerial && forall s :: SlotOf(r, s) == 0
    ensures Updates(d, d')
  {
  }

  lemma NextUpdates(d: Discovery, cfg: Config, e: Event)
    ensures Updates(d, Next(d, cfg, e))
  {
    match e
    case AddEndpoint(endpoint, family, now) => AddUpdates(d, cfg, endpoint, family, now);
    case RemoveEndpoint(name) => NothingUpdates(d);
    case CheckEndpoint(name, private', public, now) => CheckUpdates(d, cfg, name, private', public, now);
    case ReceiveResponse(response, from, now) => ReceiveUpdates(d, response, from, now);
  }

  lemma {:induction false} RunUpdates(events: seq<Event>, cfg: Config, firstCounter: nat, i: nat)
    requires i <= |events|
    ensures Updates(Run(events[..i], cfg, firstCounter), Run(events, cfg, firstCounter))
  {
    if i == |events| {
      assert events[..i] == events;
    } else {
      var n := |events| - 1;
      assert events[..n][..i] == events[..i];
      RunUpdates(events[..n], cfg, firstCounter, i);
      NextUpdates(Run(events[..n], cfg, firstCounter), cfg, events[n]);
      UpdatesCompose(Run(events[..i], cfg, firstCounter), Run(events[..n], cfg, firstCounter),
        Run(events, cfg, firstCounter));
    }
  }

  /** The selection machine, over any stretch of any run: while an object is stored its rank never
      rises, a private selection is final, and a public one becomes private only within the failover
      timeout; its IP always goes with its selection. */
  lemma SelectionsOnlyImprove(events: seq<Event>, cfg: Config, firstCounter: nat, i: nat, name: string)
    requires i <= |events|
    requires var d, d' := Run(events[..i], cfg, firstCounter), Run(events, cfg, firstCounter);
      name in d.remotes && name in d'.remotes && d.remotes[name].serial == d'.remotes[name].serial
    ensures var d, d' := Run(events[..i], cfg, firstCounter), Run(events, cfg, firstCounter);
      Evolves(d.remotes[name], d'.remotes[name]) && d'.remotes[name].SelectionFits()
  {
    RunsKeepInv(events[..i], cfg, firstCounter);
    RunsKeepInv(events, cfg, firstCounter);
    RunUpdates(events, cfg, firstCounter, i);
    var d := Run(events[..i], cfg, firstCounter);
    assert EntryOK(name, d.remotes[name], d.requestCounter, d.nextSerial);
  }

  ghost predicate Holds(d: Discovery, name: string, slot: Slot, number: nat) {
    name in d.remotes && SlotOf(d.remotes[name], slot) == number
  }

  lemma UnheldChangesNothing(d: Discovery, resp: Response, from: IP, now: nat)
    requires forall name, slot :: !Holds(d, name, slot, resp.number)
    ensures Receive(d, resp, from, now) == d
  {
    match MatchOf(d, resp, from)
    case NoMatch =>
    case Matches(name, slot) => assert Holds(d, name, slot, resp.number);
  }

  /** Once a request's number has left its slot, by a newer request, by the removal of the object or by
      an object that replaced it, no response with that number changes anything, whoever sends it. */
  lemma SupersededChangesNothing(events: seq<Event>, cfg: Config, firstCounter: nat, i: nat, name: string, slot: Slot,
                                 number: nat, resp: Response, from: IP, now: nat)
    requires i <= |events| && number != 0 && resp.number == number
    requires Holds(Run(events[..i], cfg, firstCounter), name, slot, number)
    requires var d, d' := Run(events[..i], cfg, firstCounter), Run(events, cfg, firstCounter);
      !Holds(d', name, slot, number) || d'.remotes[name].serial != d.remotes[name].serial
    ensures Receive(Run(events, cfg, firstCounter), resp, from, now) == Run(events, cfg, firstCounter)
  {
    var d, d' := Run(events[..i], cfg, firstCounter), Run(events, cfg, firstCounter);
    RunsKeepInv(events[..i], cfg, firstCounter);
    RunUpdates(events, cfg, firstCounter, i);
    assert EntryOK(name, d.remotes[name], d.requestCounter, d.nextSerial);
    forall n, s ensures !Holds(d', n, s, number) {
      if Holds(d', n, s, number) { HeldBefore(d, d', n, s, number, name, slot); }
    }
    UnheldChangesNothing(d', resp, from, now);
  }

  lemma HeldBefore(d: Discovery, d': Discovery, n: string, s: Slot, number: nat, name: string, slot: Slot)
    requires Updates(d, d') && SlotsDistinct(d.remotes) && 0 < number <= d.requestCounter
    requires Holds(d', n, s, number) && Holds(d, name, slot, number)
    ensures n == name && s == slot && d'.remotes[n].serial == d.remotes[n].serial
  {
    assert SlotOf(d'.remotes[n], s) == number;
    assert SlotOf(d.remotes[name], slot) == number;
  }
}
