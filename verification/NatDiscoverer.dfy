/** NAT discovery with its stored objects (pkg/natdiscovery): the methods, step by step as the source takes
    them, each tied to its step on values. */
module NatDiscoverer {
  import opened Endpoints
  import opened IPFamilies
  import opened RemoteEndpoint
  import opened NatMessages
  import opened NatDiscovery

  /** A pass over stored endpoints, in the order in which it comes to them. */
  function Pass(d: Discovery, cfg: Config, order: seq<string>, private': string -> SendOutcome,
                public: string -> SendOutcome, now: nat): Discovery {
    if order == [] then d
    else
      var name := order[|order| - 1];
      CheckOne(Pass(d, cfg, order[..|order| - 1], private', public, now), cfg, name, private'(name), public(name), now)
  }

  class Discoverer {
    const cfg: Config
    var requestCounter: nat
    var remoteEndpoints: map<string, RemoteEndpointNAT>
    /** Everything ever put on the ready channel, oldest first. */
    var readyChannel: seq<NATEndpointInfo>
    ghost var nextSerial: nat
    ghost var sent: set<Request>
    ghost var ready: seq<Emission>

    /** No object is stored twice. */
    ghost predicate Valid()
      reads this
    {
      && (forall m, n ::
        m in remoteEndpoints && n in remoteEndpoints && remoteEndpoints[m] == remoteEndpoints[n] ==> m == n)
      && |readyChannel| == |ready| && forall i :: 0 <= i < |ready| ==> readyChannel[i] == ready[i].info
    }

    ghost function Value(): Discovery
      reads this, remoteEndpoints.Values
    {
      Discovery(requestCounter, nextSerial, map n | n in remoteEndpoints :: remoteEndpoints[n].Value(), sent, ready)
    }

    constructor (cfg: Config, firstCounter: nat)
      ensures Valid() && this.cfg == cfg && remoteEndpoints == map[]
      ensures Value() == Run([], cfg, firstCounter)
    {
      this.cfg := cfg;
      requestCounter, remoteEndpoints, readyChannel := firstCounter, map[], [];
      nextSerial, sent, ready := 0, {}, [];
    }

    method Announce(remote: RemoteEndpointNAT, ghost cause: Cause)
      requires Valid()
      modifies this`readyChannel, this`ready
      ensures Valid() && Value() == Emit(old(Value()), remote.Value(), cause)
    {
      readyChannel := readyChannel + [NATEndpointInfo(remote.endpoint, remote.useNAT, remote.useIP, remote.family)];
      ready := ready + [Emission(remote.serial, remote.Value().Info(), cause)];
    }

    method Store(cableName: string, remoteNAT: RemoteEndpointNAT)
      requires Valid() && remoteNAT !in remoteEndpoints.Values
      modifies this`remoteEndpoints
      ensures Valid() && remoteEndpoints.Values <= old(remoteEndpoints.Values) + {remoteNAT}
      ensures Value() == Put(old(Value()), cableName, remoteNAT.Value())
    {
      remoteEndpoints := remoteEndpoints[cableName := remoteNAT];
      assert Value().remotes == old(Value()).remotes[cableName := remoteNAT.Value()];
    }

    method KeepOrStore(cableName: string, remoteNAT: RemoteEndpointNAT)
      requires Valid() && remoteNAT !in remoteEndpoints.Values
      modifies this`remoteEndpoints, this`readyChannel, this`ready
      ensures Valid() && remoteEndpoints.Values <= old(remoteEndpoints.Values) + {remoteNAT}
      ensures Value() == Keep(old(Value()), cableName, remoteNAT.Value())
    {
      if cableName in remoteEndpoints && remoteEndpoints[cableName].endpoint.spec == remoteNAT.endpoint.spec {
        var existing := remoteEndpoints[cableName];
        if existing.phase == SelectedPublicIP || existing.phase == SelectedPrivateIP {
          Announce(existing, Added);
        }
        return;
      }
      Store(cableName, remoteNAT);
    }

    method MakeRemote(endpoint: Endpoint, family: Family, now: nat) returns (remoteNAT: RemoteEndpointNAT)
      requires Valid()
      modifies this`nextSerial, this`readyChannel, this`ready
      ensures Valid() && fresh(remoteNAT) && remoteNAT.Value() == MadeFor(old(Value()), cfg, endpoint, family, now)
      ensures Value() == Make(old(Value()), cfg, endpoint, family, now)
    {
      remoteNAT := new RemoteEndpointNAT(nextSerial, endpoint, family, now);
      nextSerial := nextSerial + 1;
      if endpoint.spec.backendConfig.natDiscoveryPort == 0 || cfg.serverPort == 0 {
        remoteNAT.UseLegacyNATSettings(now);
        assert Value().remotes == old(Value()).remotes;
        Announce(remoteNAT, Added);
      }
    }

    method AddEndpoint(endpoint: Endpoint, family: Family, now: nat)
      requires Valid()
      modifies this
      ensures Valid() && fresh(remoteEndpoints.Values - old(remoteEndpoints.Values))
      ensures Value() == Add(old(Value()), cfg, endpoint, family, now)
    {
      var remoteNAT := MakeRemote(endpoint, family, now);
      KeepOrStore(endpoint.spec.GetFamilyCableName(family), remoteNAT);
    }

    method RemoveEndpoint(endpointName: string)
      requires Valid()
      modifies this`remoteEndpoints
      ensures Valid() && remoteEndpoints == old(remoteEndpoints) - {endpointName}
      ensures Value() == Forget(old(Value()), endpointName)
    {
      remoteEndpoints := remoteEndpoints - {endpointName};
    }

    /** Changing one stored object changes one entry. */
    twostate lemma OneChanged(name: string)
      requires old(Valid()) && remoteEndpoints == old(remoteEndpoints) && name in remoteEndpoints
      requires forall o :: o in remoteEndpoints.Values && o != remoteEndpoints[name] ==> o.Value() == old(o.Value())
      ensures Value().remotes == old(Value()).remotes[name := remoteEndpoints[name].Value()]
    {
    }

    /** The number is in the slot before the write, and gone from it when the write fails. */
    method WriteRequest(remoteNAT: RemoteEndpointNAT, slot: Slot, outcome: SendOutcome, now: nat) returns (ok: bool)
      requires remoteNAT.endpoint.spec.backendConfig.natDiscoveryPort != 0 && !outcome.NoSource?
      modifies this`requestCounter, this`sent, remoteNAT
      ensures requestCounter == old(requestCounter) + 1 && ok == outcome.Written?
      ensures outcome.WriteFailed? ==>
        remoteNAT.Value() == WithSlot(old(remoteNAT.Value()), slot, 0) && sent == old(sent)
      ensures outcome.Written? ==>
        remoteNAT.Value() == CheckSent(WithSlot(old(remoteNAT.Value()), slot, requestCounter), now)
      ensures outcome.Written? ==>
        sent == old(sent) + {RequestFor(cfg, old(remoteNAT.Value()), slot, requestCounter, outcome.source)}
    {
      requestCounter := requestCounter + 1;
      remoteNAT.SetRequestID(slot, requestCounter);
      if outcome.WriteFailed? {
        remoteNAT.SetRequestID(slot, 0);
        return false;
      }
      sent := sent + {RequestFor(cfg, old(remoteNAT.Value()), slot, requestCounter, outcome.source)};
      remoteNAT.MarkCheckSent(now);
      return true;
    }

    /** One request of a round: to an address the endpoint has, when its port and a source address are known. */
    method SendCheckRequestToTargetIP(ghost name: string, remoteNAT: RemoteEndpointNAT, slot: Slot,
                                      outcome: SendOutcome, now: nat) returns (ok: bool)
      requires Valid() && name in remoteEndpoints && remoteEndpoints[name] == remoteNAT
      requires Target(remoteNAT.Value(), slot) != NoIP
      modifies this`requestCounter, this`sent, remoteNAT
      ensures Valid() && Value() == SendTo(old(Value()), cfg, name, slot, outcome, now)
    {
      if remoteNAT.endpoint.spec.backendConfig.natDiscoveryPort == 0 || outcome.NoSource? {
        return false;
      }
      ok := WriteRequest(remoteNAT, slot, outcome, now);
      OneChanged(name);
    }

    method SendCheckRequest(ghost name: string, remoteNAT: RemoteEndpointNAT, private': SendOutcome,
                            public: SendOutcome, now: nat) returns (ok: bool)
      requires Valid() && name in remoteEndpoints && remoteEndpoints[name] == remoteNAT
      modifies this`requestCounter, this`sent, remoteNAT
      ensures Valid() && Value() == SendCheck(old(Value()), cfg, name, private', public, now)
    {
      var privateOK, publicOK := true, true;
      if remoteNAT.endpoint.spec.GetPrivateIP(remoteNAT.family) != NoIP {
        privateOK := SendCheckRequestToTargetIP(name, remoteNAT, PrivateSlot, private', now);
      }
      assert Value() == SendTo(old(Value()), cfg, name, PrivateSlot, private', now);
      if remoteNAT.endpoint.spec.GetPublicIP(remoteNAT.family) != NoIP {
        publicOK := SendCheckRequestToTargetIP(name, remoteNAT, PublicSlot, public, now);
      }
      return privateOK && publicOK;
    }

    method GiveUpOn(ghost name: string, remoteNAT: RemoteEndpointNAT, now: nat)
      requires Valid() && name in remoteEndpoints && remoteEndpoints[name] == remoteNAT
      modifies this`readyChannel, this`ready, remoteNAT
      ensures Valid() && Value() == GiveUp(old(Value()), name, now)
    {
      remoteNAT.UseLegacyNATSettings(now);
      OneChanged(name);
      Announce(remoteNAT, TimedOut);
    }

    /** What a pass does with one endpoint. */
    method CheckEndpoint(name: string, private': SendOutcome, public: SendOutcome, now: nat)
      requires Valid()
      modifies this`requestCounter, this`sent, this`readyChannel, this`ready, remoteEndpoints.Values
      ensures Valid() && Value() == CheckOne(old(Value()), cfg, name, private', public, now)
    {
      if name !in remoteEndpoints {
        return;
      }
      var endpointNAT := remoteEndpoints[name];
      var shouldCheck := endpointNAT.ShouldCheck(now);
      if shouldCheck {
        var timedOut := now - endpointNAT.started > endpointNAT.timeout;
        if timedOut {
          GiveUpOn(name, endpointNAT, now);
        } else {
          var _ := SendCheckRequest(name, endpointNAT, private', public, now);
        }
      }
    }

    method CheckEndpointList(private': string -> SendOutcome, public: string -> SendOutcome, now: nat)
      returns (ghost order: seq<string>)
      requires Valid()
      modifies this`requestCounter, this`sent, this`readyChannel, this`ready, remoteEndpoints.Values
      ensures Valid() && Value() == Pass(old(Value()), cfg, order, private', public, now)
      ensures forall name :: name in remoteEndpoints <==> name in order
    {
      var todo := remoteEndpoints.Keys;
      order := [];
      while todo != {}
        invariant Valid() && todo <= remoteEndpoints.Keys
        invariant forall name :: name in order <==> name in remoteEndpoints && name !in todo
        invariant Value() == Pass(old(Value()), cfg, order, private', public, now)
        decreases todo
      {
        var name :| name in todo;
        CheckEndpoint(name, private'(name), public(name), now);
        todo := todo - {name};
        assert (order + [name])[..|order|] == order;
        order := order + [name];
      }
    }

    method TakeAnswer(ghost name: string, remoteNAT: RemoteEndpointNAT, slot: Slot, useNAT: bool, number: nat, now: nat)
      requires Valid() && name in remoteEndpoints && remoteEndpoints[name] == remoteNAT
      modifies this`readyChannel, this`ready, remoteNAT
      ensures Valid() && Value() == Answer(old(Value()), name, slot, useNAT, number, now)
    {
      var moved;
      match slot {
        case PublicSlot => moved := remoteNAT.TransitionToPublicIP(useNAT, now);
        case PrivateSlot => moved := remoteNAT.TransitionToPrivateIP(useNAT, now);
      }
      OneChanged(name);
      if moved {
        Announce(remoteNAT, Answered(number));
      } else {
        assert Value().remotes == old(Value()).remotes;
      }
    }

    method HandleResponseFromAddress(response: Response, from: IP, now: nat) returns (ok: bool)
      requires Valid()
      modifies this`readyChannel, this`ready, remoteEndpoints.Values
      ensures Valid() && Value() == Receive(old(Value()), response, from, now)
      ensures ok <==> MatchOf(old(Value()), response, from).Matches?
    {
      if response.sender.None? || response.receiver.None? || response.receivedSrc.None? {
        return false;
      }
      if response.response != OK && response.response != NAT_DETECTED {
        return false;
      }
      var name := response.sender.value.endpointID;
      if name !in remoteEndpoints {
        return false;
      }
      var remoteNAT := remoteEndpoints[name];
      var useNAT := response.response == NAT_DETECTED;
      if remoteNAT.lastPublicIPRequestID == response.number {
        TakeAnswer(name, remoteNAT, PublicSlot, useNAT, response.number, now);
        return true;
      }
      if remoteNAT.lastPrivateIPRequestID == response.number {
        if from != remoteNAT.endpoint.spec.GetPrivateIP(remoteNAT.family) {
          return false;
        }
        TakeAnswer(name, remoteNAT, PrivateSlot, useNAT, response.number, now);
        return true;
      }
      return false;
    }
  }

  // ----- a whole pass -----

  lemma {:induction false} PassKeeps(d: Discovery, cfg: Config, order: seq<string>, private': string -> SendOutcome,
                                     public: string -> SendOutcome, now: nat)
    requires Inv(d, cfg)
    ensures Inv(Pass(d, cfg, order, private', public, now), cfg)
    ensures Updates(d, Pass(d, cfg, order, private', public, now))
    ensures Pass(d, cfg, order, private', public, now).remotes.Keys == d.remotes.Keys
    ensures Pass(d, cfg, order, private', public, now).nextSerial == d.nextSerial
  {
    if order == [] {
      NothingUpdates(d);
    } else {
      var n := |order| - 1;
      var half, name := Pass(d, cfg, order[..n], private', public, now), order[n];
      PassKeeps(d, cfg, order[..n], private', public, now);
      CheckKeepsInv(half, cfg, name, private'(name), public(name), now);
      CheckUpdates(half, cfg, name, private'(name), public(name), now);
      CheckMakesNoObject(half, cfg, name, private'(name), public(name), now);
      UpdatesCompose(d, half, Pass(d, cfg, order, private', public, now));
    }
  }

  lemma CheckMakesNoObject(d: Discovery, cfg: Config, name: string, private': SendOutcome, public: SendOutcome,
                           now: nat)
    ensures var d' := CheckOne(d, cfg, name, private', public, now);
      d'.remotes.Keys == d.remotes.Keys && d'.nextSerial == d.nextSerial
  {
  }

  lemma SameObject(d: Discovery, d': Discovery, cfg: Config, name: string)
    requires Updates(d, d') && EntriesOK(d') && d'.nextSerial == d.nextSerial && name in d'.remotes
    ensures name in d.remotes && Evolves(d.remotes[name], d'.remotes[name])
  {
    assert EntryOK(name, d'.remotes[name], d'.requestCounter, d'.nextSerial);
  }

  /** A pass late enough after an endpoint's start leaves its discovery complete, wherever in the pass
      its turn comes. */
  lemma {:induction false} PassEndsDiscovery(d: Discovery, cfg: Config, order: seq<string>,
                                             private': string -> SendOutcome, public: string -> SendOutcome, now: nat,
                                             name: string)
    requires Inv(d, cfg) && name in d.remotes && name in order
    requires now > d.remotes[name].started + d.remotes[name].timeout + RECHECK_TIME
    ensures var d' := Pass(d, cfg, order, private', public, now);
      name in d'.remotes && d'.remotes[name].Complete()
  {
    var n := |order| - 1;
    var half, last := Pass(d, cfg, order[..n], private', public, now), order[n];
    PassKeeps(d, cfg, order[..n], private', public, now);
    SameObject(d, half, cfg, name);
    if last == name {
      LateCheckCompletes(half, cfg, name, private'(name), public(name), now);
    } else {
      PassEndsDiscovery(d, cfg, order[..n], private', public, now, name);
      CheckKeepsComplete(half, cfg, last, private'(last), public(last), now, name);
    }
  }

  lemma CheckKeepsComplete(d: Discovery, cfg: Config, checked: string, private': SendOutcome, public: SendOutcome,
                           now: nat, name: string)
    requires Inv(d, cfg) && name in d.remotes && d.remotes[name].Complete()
    ensures var d' := CheckOne(d, cfg, checked, private', public, now);
      name in d'.remotes && d'.remotes[name].Complete()
  {
    CheckUpdates(d, cfg, checked, private', public, now);
    CheckKeepsInv(d, cfg, checked, private', public, now);
    CheckMakesNoObject(d, cfg, checked, private', public, now);
    SameObject(d, CheckOne(d, cfg, checked, private', public, now), cfg, name);
  }

  lemma LateCheckCompletes(d: Discovery, cfg: Config, name: string, private': SendOutcome, public: SendOutcome,
                           now: nat)
    requires Inv(d, cfg) && name in d.remotes && now > d.remotes[name].started + d.remotes[name].timeout + RECHECK_TIME
    ensures var d' := CheckOne(d, cfg, name, private', public, now);
      name in d'.remotes && d'.remotes[name].Complete()
  {
    assert EntryOK(name, d.remotes[name], d.requestCounter, d.nextSerial);
  }
}
