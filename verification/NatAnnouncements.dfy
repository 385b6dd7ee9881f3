/** What NAT discovery announces over a run: endpoints it was asked about, each with an address of its own. */
module NatAnnouncements {
  import opened Endpoints
  import opened IPFamilies
  import opened RemoteEndpoint
  import opened NatMessages
  import opened NatDiscovery

  /** The announcement names one of its endpoint's own addresses of its family. */
  predicate OwnAddress(info: NATEndpointInfo) {
    var spec := info.endpoint.spec;
    info.useIP in {spec.GetPublicIP(info.useFamily), spec.GetPrivateIP(info.useFamily)}
  }

  /** Every endpoint ever added satisfies `p`. */
  ghost predicate AllAdded(events: seq<Event>, p: (Endpoint, Family) -> bool) {
    forall i :: 0 <= i < |events| && events[i].AddEndpoint? ==> p(events[i].endpoint, events[i].family)
  }

  ghost predicate AllSatisfy(d: Discovery, p: (Endpoint, Family) -> bool) {
    && (forall n :: n in d.remotes ==> p(d.remotes[n].endpoint, d.remotes[n].family))
    && (forall i :: 0 <= i < |d.ready| ==>
      p(d.ready[i].info.endpoint, d.ready[i].info.useFamily) && OwnAddress(d.ready[i].info))
  }

  // ----- steps -----

  lemma EmitSatisfies(d: Discovery, r: Remote, cause: Cause, p: (Endpoint, Family) -> bool)
    requires AllSatisfy(d, p) && p(r.endpoint, r.family) && r.Complete() && r.SelectionFits()
    ensures AllSatisfy(Emit(d, r, cause), p)
  {
  }

  lemma PutSatisfies(d: Discovery, name: string, r: Remote, p: (Endpoint, Family) -> bool)
    requires AllSatisfy(d, p) && p(r.endpoint, r.family)
    ensures AllSatisfy(Put(d, name, r), p)
  {
  }

  lemma AddSatisfies(d: Discovery, cfg: Config, endpoint: Endpoint, family: Family, now: nat,
                     p: (Endpoint, Family) -> bool)
    requires AllSatisfy(d, p) && EntriesOK(d) && p(endpoint, family)
    ensures AllSatisfy(Add(d, cfg, endpoint, family, now), p)
  {
    var made, r := Make(d, cfg, endpoint, family, now), MadeFor(d, cfg, endpoint, family, now);
    if UsesLegacy(cfg, endpoint) {
      EmitSatisfies(d.(nextSerial := d.nextSerial + 1), r, Added, p);
    }
    assert AllSatisfy(made, p);
    KeepSatisfies(made, d, endpoint.spec.GetFamilyCableName(family), r, p);
  }

  lemma KeepSatisfies(made: Discovery, d: Discovery, name: string, r: Remote, p: (Endpoint, Family) -> bool)
    requires AllSatisfy(made, p) && made.remotes == d.remotes && EntriesOK(d) && p(r.endpoint, r.family)
    ensures AllSatisfy(Keep(made, name, r), p)
  {
    PutSatisfies(made, name, r, p);
    if name in made.remotes && made.remotes[name].Complete() {
      assert EntryOK(name, d.remotes[name], d.requestCounter, d.nextSerial);
      EmitSatisfies(made, made.remotes[name], Added, p);
    }
  }

  lemma ChangeSatisfies(d: Discovery, name: string, r': Remote, cause: Cause, p: (Endpoint, Family) -> bool)
    requires AllSatisfy(d, p) && name in d.remotes
    requires r'.endpoint == d.remotes[name].endpoint && r'.family == d.remotes[name].family
    requires r'.Complete() && r'.SelectionFits()
    ensures AllSatisfy(Emit(Put(d, name, r'), r', cause), p)
  {
    PutSatisfies(d, name, r', p);
    EmitSatisfies(Put(d, name, r'), r', cause, p);
  }

  lemma SendSatisfies(d: Discovery, cfg: Config, name: string, slot: Slot, outcome: SendOutcome, now: nat,
                      p: (Endpoint, Family) -> bool)
    requires AllSatisfy(d, p) && name in d.remotes
    ensures var d' := SendTo(d, cfg, name, slot, outcome, now);
      AllSatisfy(d', p) && name in d'.remotes
  {
    SlotMoves(d.remotes[name], slot, d.requestCounter, now);
  }

  lemma AnswerSatisfies(d: Discovery, resp: Response, from: IP, now: nat, p: (Endpoint, Family) -> bool)
    requires AllSatisfy(d, p)
    ensures AllSatisfy(Receive(d, resp, from, now), p)
  {
    match MatchOf(d, resp, from)
    case NoMatch =>
    case Matches(name, slot) =>
      if Takes(d.remotes[name], slot, now) {
        var useNAT := resp.response == NAT_DETECTED;
        MovedEvolves(d.remotes[name], slot, useNAT, now);
        ChangeSatisfies(d, name, Moved(d.remotes[name], slot, useNAT, now), Answered(resp.number), p);
      }
  }

  lemma NextSatisfies(d: Discovery, cfg: Config, e: Event, p: (Endpoint, Family) -> bool)
    requires AllSatisfy(d, p) && EntriesOK(d) && (e.AddEndpoint? ==> p(e.endpoint, e.family))
    ensures AllSatisfy(Next(d, cfg, e), p)
  {
    match e
    case AddEndpoint(endpoint, family, now) => AddSatisfies(d, cfg, endpoint, family, now, p);
    case RemoveEndpoint(name) =>
    case CheckEndpoint(name, private', public, now) =>
      if name in d.remotes && d.remotes[name].ShouldCheck(now) {
        if d.remotes[name].TimedOut(now) {
          ChangeSatisfies(d, name, Legacy(d.remotes[name], now), TimedOut, p);
        } else {
          SendSatisfies(d, cfg, name, PrivateSlot, private', now, p);
          SendSatisfies(SendTo(d, cfg, name, PrivateSlot, private', now), cfg, name, PublicSlot, public, now, p);
        }
      }
    case ReceiveResponse(response, from, now) => AnswerSatisfies(d, response, from, now, p);
  }

  /** Whatever is stored or announced in a run was added in it, and every announcement names an address of
      its own endpoint. */
  lemma {:induction false} AnnouncedWasAdded(events: seq<Event>, cfg: Config, firstCounter: nat,
                                             p: (Endpoint, Family) -> bool)
    requires AllAdded(events, p)
    ensures AllSatisfy(Run(events, cfg, firstCounter), p)
  {
    if events != [] {
      var n := |events| - 1;
      AnnouncedWasAdded(events[..n], cfg, firstCounter, p);
      RunsKeepInv(events[..n], cfg, firstCounter);
      NextSatisfies(Run(events[..n], cfg, firstCounter), cfg, events[n], p);
    }
  }
}
