/** Which responses NAT discovery takes for answers (pkg/natdiscovery/response_handle.go), whoever sends
    them. */
module NatAnswers {
  import opened Endpoints
  import opened IPFamilies
  import opened RemoteEndpoint
  import opened NatMessages
  import opened Wrappers
  import opened NatDiscovery

  lemma RunSnoc(events: seq<Event>, e: Event, cfg: Config, firstCounter: nat)
    ensures Run(events + [e], cfg, firstCounter) == Next(Run(events, cfg, firstCounter), cfg, e)
  {
    assert (events + [e])[..|events|] == events;
  }

  lemma SelectsTarget(r: Remote, slot: Slot, useNAT: bool, now: nat)
    requires Takes(r, slot, now)
    ensures Moved(r, slot, useNAT, now).Info() == NATEndpointInfo(r.endpoint, useNAT, Target(r, slot), r.family)
  {
  }

  /** A response from anyone that matches a slot answers a request sent to the address of that slot exactly
      when its number is not 0. */
  lemma MatchAnswersSentIff(events: seq<Event>, cfg: Config, firstCounter: nat, resp: Response, from: IP)
    requires MatchOf(Run(events, cfg, firstCounter), resp, from).Matches?
    ensures var d := Run(events, cfg, firstCounter);
      var Matches(name, slot) := MatchOf(d, resp, from);
      (exists q :: q in d.sent && q.number == resp.number && SentTo(cfg, q, d.remotes[name], slot)) <==>
      resp.number != 0
  {
    RunsKeepInv(events, cfg, firstCounter);
    MatchAnswersSent(Run(events, cfg, firstCounter), cfg, resp, from);
  }

  lemma MatchAnswersSent(d: Discovery, cfg: Config, resp: Response, from: IP)
    requires Inv(d, cfg) && SlotsSent(d.sent, d.remotes) && MatchOf(d, resp, from).Matches?
    ensures var Matches(name, slot) := MatchOf(d, resp, from);
      (exists q :: q in d.sent && q.number == resp.number && SentTo(cfg, q, d.remotes[name], slot)) <==>
      resp.number != 0
  {
    var Matches(name, slot) := MatchOf(d, resp, from);
    assert SlotOf(d.remotes[name], slot) == resp.number;
    if resp.number != 0 {
      assert NumberSent(d.sent, resp.number);
      var q :| q in d.sent && q.number == resp.number;
      assert SentTo(cfg, q, d.remotes[name], slot);
    }
  }

  /** The request was sent to the very endpoint and address that is announced. */
  ghost predicate AskedFor(q: Request, info: NATEndpointInfo) {
    && q.usingDst.Some? && q.usingDst.value.ip == info.useIP
    && q.receiver
      == Some(Party(info.endpoint.spec.GetFamilyCableName(info.useFamily), info.endpoint.spec.clusterID))
  }

  ghost predicate IsAnswer(e: Emission, sent: set<Request>) {
    e.cause.Answered? && exists q :: q in sent && q.number == e.cause.number && AskedFor(q, e.info)
  }

  ghost predicate NumberedAreAnswers(ready: seq<Emission>, sent: set<Request>) {
    forall i :: 0 <= i < |ready| && ready[i].cause.Answered? && ready[i].cause.number != 0 ==> IsAnswer(ready[i], sent)
  }

  lemma MoreAnswers(ready: seq<Emission>, ready': seq<Emission>, sent: set<Request>, sent': set<Request>)
    requires NumberedAreAnswers(ready, sent) && sent <= sent' && ready <= ready'
    requires forall i :: |ready| <= i < |ready'| && ready'[i].cause.Answered? && ready'[i].cause.number != 0 ==>
      IsAnswer(ready'[i], sent')
    ensures NumberedAreAnswers(ready', sent')
  {
    forall i | 0 <= i < |ready'| && ready'[i].cause.Answered? && ready'[i].cause.number != 0
      ensures IsAnswer(ready'[i], sent')
    {
      if i < |ready| {
        assert IsAnswer(ready[i], sent);
        var q :| q in sent && q.number == ready[i].cause.number && AskedFor(q, ready[i].info);
      }
    }
  }

  lemma ReceivedAnswers(d: Discovery, cfg: Config, resp: Response, from: IP, now: nat)
    requires Inv(d, cfg) && SlotsSent(d.sent, d.remotes) && NumberedAreAnswers(d.ready, d.sent)
    ensures NumberedAreAnswers(Receive(d, resp, from, now).ready, d.sent)
  {
    match MatchOf(d, resp, from)
    case NoMatch =>
    case Matches(name, slot) =>
      if Takes(d.remotes[name], slot, now) {
        var r, useNAT := d.remotes[name], resp.response == NAT_DETECTED;
        var r' := Moved(r, slot, useNAT, now);
        var e := Emission(r'.serial, r'.Info(), Answered(resp.number));
        SelectsTarget(r, slot, useNAT, now);
        MatchAnswersSent(d, cfg, resp, from);
        if resp.number != 0 {
          var q :| q in d.sent && q.number == resp.number && SentTo(cfg, q, r, slot);
          assert AskedFor(q, e.info);
          assert IsAnswer(e, d.sent);
        }
        MoreAnswers(d.ready, d.ready + [e], d.sent, d.sent);
      }
  }

  /** Other events announce nothing as an answer. */
  lemma LocalEvent(d: Discovery, cfg: Config, e: Event)
    requires !e.ReceiveResponse?
    ensures var d' := Next(d, cfg, e);
      && d.sent <= d'.sent && d.ready <= d'.ready
      && forall i :: |d.ready| <= i < |d'.ready| ==> !d'.ready[i].cause.Answered?
  {
    match e
    case AddEndpoint(endpoint, family, now) =>
    case RemoveEndpoint(name) =>
    case CheckEndpoint(name, private', public, now) =>
      if name in d.remotes && d.remotes[name].ShouldCheck(now) && !d.remotes[name].TimedOut(now) {
        SendKeepsReady(d, cfg, name, PrivateSlot, private', now);
        SendKeepsReady(SendTo(d, cfg, name, PrivateSlot, private', now), cfg, name, PublicSlot, public, now);
      }
  }

  lemma SendKeepsReady(d: Discovery, cfg: Config, name: string, slot: Slot, outcome: SendOutcome, now: nat)
    requires name in d.remotes
    ensures var d' := SendTo(d, cfg, name, slot, outcome, now);
      d'.ready == d.ready && d.sent <= d'.sent && name in d'.remotes
  {
  }

  lemma {:induction false} RunsNumberAnswers(events: seq<Event>, cfg: Config, firstCounter: nat)
    ensures NumberedAreAnswers(Run(events, cfg, firstCounter).ready, Run(events, cfg, firstCounter).sent)
  {
    if events != [] {
      var n := |events| - 1;
      var d := Run(events[..n], cfg, firstCounter);
      RunsNumberAnswers(events[..n], cfg, firstCounter);
      match events[n]
      case ReceiveResponse(response, from, now) =>
        RunsKeepInv(events[..n], cfg, firstCounter);
        ReceivedAnswers(d, cfg, response, from, now);
        ReceiveKeepsSent(d, response, from, now);
      case _ =>
        LocalEvent(d, cfg, events[n]);
        MoreAnswers(d.ready, Next(d, cfg, events[n]).ready, d.sent, Next(d, cfg, events[n]).sent);
    }
  }

  lemma ReceiveKeepsSent(d: Discovery, resp: Response, from: IP, now: nat)
    ensures Receive(d, resp, from, now).sent == d.sent
  {
  }

  /** In every run, whoever sends the responses, a selection that is announced because of one answers a
      request sent to that endpoint at the very address selected, exactly when the number is not 0. */
  lemma SelectionAnswersRequestIff(events: seq<Event>, cfg: Config, firstCounter: nat, i: nat)
    requires var ready := Run(events, cfg, firstCounter).ready;
      i < |ready| && ready[i].cause.Answered?
    ensures var d := Run(events, cfg, firstCounter);
      IsAnswer(d.ready[i], d.sent) <==> d.ready[i].cause.number != 0
  {
    RunsNumberAnswers(events, cfg, firstCounter);
    RunsKeepInv(events, cfg, firstCounter);
  }

  /** A response without a number, as no request has it: 0 is also what an unused slot holds. */
  function Unnumbered(endpoint: Endpoint, family: Family, party: Party, seen: Address): Response {
    Response(0, OK, Some(Party(endpoint.spec.GetFamilyCableName(family), endpoint.spec.clusterID)), Some(party),
             Some(seen), false, false, false)
  }

  /** An endpoint without a public address is added and asked at its private one; the answer has no number. */
  function UnnumberedRun(endpoint: Endpoint, family: Family, source: IP, answer: Response, from: IP,
                         now: nat): seq<Event> {
    var check := CheckEndpoint(endpoint.spec.GetFamilyCableName(family), Written(source), NoSource, now);
    [AddEndpoint(endpoint, family, now)] + [check] + [ReceiveResponse(answer, from, now)]
  }

  /** A number of 0 decides for an endpoint whose public address was never asked: one that has none and
      waits for the answer from its private address is announced with no address at all. */
  lemma UnnumberedResponseSelects(endpoint: Endpoint, family: Family, cfg: Config, firstCounter: nat, source: IP,
                                  party: Party, seen: Address, from: IP, now: nat)
    requires !UsesLegacy(cfg, endpoint)
    requires endpoint.spec.GetPrivateIP(family) != NoIP && endpoint.spec.GetPublicIP(family) == NoIP
    ensures var events := UnnumberedRun(endpoint, family, source, Unnumbered(endpoint, family, party, seen), from, now);
      var d := Run(events, cfg, firstCounter);
      && d.ready == [Emission(0, NATEndpointInfo(endpoint, false, NoIP, family), Answered(0))]
      && forall q :: q in d.sent ==>
        q.number != 0 && q.usingDst.Some? && q.usingDst.value.ip == endpoint.spec.GetPrivateIP(family)
  {
    var name, answer := endpoint.spec.GetFamilyCableName(family), Unnumbered(endpoint, family, party, seen);
    var add, check := AddEndpoint(endpoint, family, now), CheckEndpoint(name, Written(source), NoSource, now);
    RunSnoc([], add, cfg, firstCounter);
    assert [] + [add] == [add];
    RunSnoc([add], check, cfg, firstCounter);
    RunSnoc([add] + [check], ReceiveResponse(answer, from, now), cfg, firstCounter);
    var r := New(0, endpoint, family, now);
    var added := Discovery(firstCounter, 1, map[name := r], {}, []);
    assert Run([add], cfg, firstCounter) == added;
    var asked := Next(added, cfg, check);
    AskedOnce(added, cfg, name, source, now);
    assert MatchOf(asked, answer, from) == Matches(name, PublicSlot);
  }

  /** What a first check does when only the private address is there. */
  lemma AskedOnce(d: Discovery, cfg: Config, name: string, source: IP, now: nat)
    requires name in d.remotes && d.remotes[name].phase == TestingPrivateAndPublicIPs && d.remotes[name].started == now
    requires d.remotes[name].endpoint.spec.backendConfig.natDiscoveryPort != 0
    requires d.remotes[name].PrivateIP() != NoIP && d.remotes[name].PublicIP() == NoIP
    ensures var q := RequestFor(cfg, d.remotes[name], PrivateSlot, d.requestCounter + 1, source);
      var asked := WithSlot(d.remotes[name], PrivateSlot, d.requestCounter + 1);
      Next(d, cfg, CheckEndpoint(name, Written(source), NoSource, now)) ==
        d.(requestCounter := d.requestCounter + 1, sent := d.sent + {q},
          remotes := d.remotes[name := CheckSent(asked, now)])
  {
  }
}
