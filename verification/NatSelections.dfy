/** What the ready channel of NAT discovery carries over a run: how often an object's selection is
    announced, and which responses count. */
module NatSelections {
  import opened Endpoints
  import opened IPFamilies
  import opened RemoteEndpoint
  import opened NatMessages
  import opened NatDiscovery

  /** How many ready messages report a change of this object's selection. */
  function Changes(ready: seq<Emission>, serial: nat): nat {
    if ready == [] then 0
    else
      var last := ready[|ready| - 1];
      Changes(ready[..|ready| - 1], serial) + (if last.serial == serial && last.cause != Added then 1 else 0)
  }

  predicate Within(changes: nat, rank: nat) {
    changes == 0 || changes + rank <= 2
  }

  ghost predicate FewChanges(d: Discovery) {
    && (forall serial :: Changes(d.ready, serial) <= 2)
    && (forall serial :: serial >= d.nextSerial ==> Changes(d.ready, serial) == 0)
    && (forall n :: n in d.remotes ==> Within(Changes(d.ready, d.remotes[n].serial), d.remotes[n].Rank()))
  }

  /** No response in this slot can move the object any more. */
  predicate Settled(r: Remote, slot: Slot) {
    match slot case PublicSlot => r.Rank() <= 1 case PrivateSlot => r.Rank() == 0
  }

  predicate Answers(e: Emission, number: nat) {
    e.cause == Answered(number)
  }

  /** No request number announced a change twice. */
  ghost predicate NoneTwice(ready: seq<Emission>) {
    forall i, j, number: nat :: 0 <= i < j < |ready| && number != 0 && Answers(ready[i], number) ==>
      !Answers(ready[j], number)
  }

  /** A number that announced a change can announce no other. */
  ghost predicate NoneAgain(d: Discovery) {
    && (forall i, number: nat :: 0 <= i < |d.ready| && Answers(d.ready[i], number) ==> number <= d.requestCounter)
    && (forall i, n, s, number: nat ::
      0 <= i < |d.ready| && number != 0 && Answers(d.ready[i], number) && Holds(d, n, s, number) ==>
        Settled(d.remotes[n], s))
  }

  ghost predicate AnsweredOnce(d: Discovery) {
    NoneTwice(d.ready) && NoneAgain(d)
  }

  lemma ChangesSnoc(ready: seq<Emission>, e: Emission, serial: nat)
    ensures Changes(ready + [e], serial)
      == Changes(ready, serial) + (if e.serial == serial && e.cause != Added then 1 else 0)
  {
    assert (ready + [e])[..|ready|] == ready;
  }

  // ----- the three kinds of step -----

  /** A step that announces no change: objects evolve or are new. */
  lemma QuietStep(d: Discovery, cfg: Config, d': Discovery)
    requires Inv(d, cfg) && Updates(d, d') && FewChanges(d)
    requires forall serial :: Changes(d'.ready, serial) == Changes(d.ready, serial)
    ensures FewChanges(d')
  {
  }

  lemma QuietAnswers(d: Discovery, cfg: Config, d': Discovery)
    requires Inv(d, cfg) && Updates(d, d') && AnsweredOnce(d)
    requires d.ready <= d'.ready && forall i :: |d.ready| <= i < |d'.ready| ==> !d'.ready[i].cause.Answered?
    ensures AnsweredOnce(d')
  {
    forall i, n, s, number: nat | 0 <= i < |d'.ready| && number != 0 && Answers(d'.ready[i], number)
      && Holds(d', n, s, number)
      ensures Settled(d'.remotes[n], s)
    {
      assert Answers(d.ready[i], number);
      HeldSettles(d, d', n, s, number);
    }
  }

  lemma HeldSettles(d: Discovery, d': Discovery, n: string, s: Slot, number: nat)
    requires Updates(d, d') && 0 < number <= d.requestCounter && Holds(d', n, s, number)
    requires Holds(d, n, s, number) ==> Settled(d.remotes[n], s)
    ensures Settled(d'.remotes[n], s)
  {
    assert SlotOf(d'.remotes[n], s) == number;
  }

  /** A step that announces the change of one stored object. */
  lemma ChangeStep(d: Discovery, cfg: Config, name: string, r': Remote, cause: Cause)
    requires Inv(d, cfg) && FewChanges(d) && name in d.remotes && cause != Added
    requires r'.serial == d.remotes[name].serial && r'.Rank() < d.remotes[name].Rank() && r'.Rank() <= 1
    ensures FewChanges(Emit(Put(d, name, r'), r', cause))
  {
    var d' := Emit(Put(d, name, r'), r', cause);
    var r := d.remotes[name];
    assert EntryOK(name, r, d.requestCounter, d.nextSerial);
    assert Within(Changes(d.ready, r.serial), r.Rank());
    forall serial
      ensures Changes(d'.ready, serial) == Changes(d.ready, serial) + (if serial == r.serial then 1 else 0) {
      ChangesSnoc(d.ready, Emission(r'.serial, r'.Info(), cause), serial);
    }
    forall n | n in d'.remotes ensures Within(Changes(d'.ready, d'.remotes[n].serial), d'.remotes[n].Rank()) {
      if n != name { assert Within(Changes(d.ready, d.remotes[n].serial), d.remotes[n].Rank()); }
    }
  }

  /** The number that moves an object was never answered before, and its slot is settled afterwards. */
  lemma AnswerStep(d: Discovery, cfg: Config, resp: Response, from: IP, now: nat)
    requires Inv(d, cfg) && AnsweredOnce(d)
    ensures AnsweredOnce(Receive(d, resp, from, now))
  {
    match MatchOf(d, resp, from)
    case NoMatch =>
    case Matches(name, slot) =>
      if Takes(d.remotes[name], slot, now) {
        var r' := Moved(d.remotes[name], slot, resp.response == NAT_DETECTED, now);
        MovedEvolves(d.remotes[name], slot, resp.response == NAT_DETECTED, now);
        assert EntryOK(name, d.remotes[name], d.requestCounter, d.nextSerial);
        assert Holds(d, name, slot, resp.number) && !Settled(d.remotes[name], slot);
        NotAnsweredYet(d, name, slot, resp.number, Emission(r'.serial, r'.Info(), Answered(resp.number)));
        PutUpdates(d, Put(d, name, r'), name);
        NowSettled(d, name, slot, resp.number, r');
      }
  }

  lemma NotAnsweredYet(d: Discovery, name: string, slot: Slot, number: nat, e: Emission)
    requires AnsweredOnce(d) && Holds(d, name, slot, number) && !Settled(d.remotes[name], slot) && Answers(e, number)
    ensures NoneTwice(d.ready + [e])
  {
  }

  lemma NowSettled(d: Discovery, name: string, slot: Slot, number: nat, r': Remote)
    requires SlotsDistinct(d.remotes) && NoneAgain(d) && Holds(d, name, slot, number) && Settled(r', slot)
    requires Updates(d, Put(d, name, r')) && SameSlots(d.remotes[name], r') && number <= d.requestCounter
    ensures NoneAgain(Emit(Put(d, name, r'), r', Answered(number)))
  {
    var d' := Put(d, name, r');
    forall i, n, s, m: nat | 0 <= i < |d.ready| && m != 0 && Answers(d.ready[i], m) && Holds(d', n, s, m)
      ensures Settled(d'.remotes[n], s) {
      HeldSettles(d, d', n, s, m);
    }
    forall n, s | number != 0 && Holds(d', n, s, number) ensures Settled(d'.remotes[n], s) {
      HeldBefore(d, d', n, s, number, name, slot);
    }
  }

  // ----- runs -----

  lemma AddIsQuiet(d: Discovery, cfg: Config, endpoint: Endpoint, family: Family, now: nat)
    ensures var d' := Add(d, cfg, endpoint, family, now);
      && d.ready <= d'.ready && (forall i :: |d.ready| <= i < |d'.ready| ==> d'.ready[i].cause == Added)
      && forall serial :: Changes(d'.ready, serial) == Changes(d.ready, serial)
  {
    var d' := Add(d, cfg, endpoint, family, now);
    forall serial, a, b ensures Changes(d.ready + [Emission(a, b, Added)], serial) == Changes(d.ready, serial) {
      ChangesSnoc(d.ready, Emission(a, b, Added), serial);
    }
    forall serial, a, b, a', b'
      ensures Changes(d.ready + [Emission(a, b, Added)] + [Emission(a', b', Added)], serial) == Changes(d.ready, serial)
    {
      ChangesSnoc(d.ready + [Emission(a, b, Added)], Emission(a', b', Added), serial);
    }
  }

  lemma GiveUpStep(d: Discovery, cfg: Config, name: string, now: nat)
    requires Inv(d, cfg) && FewChanges(d) && AnsweredOnce(d) && name in d.remotes && !d.remotes[name].Complete()
    ensures FewChanges(GiveUp(d, name, now)) && AnsweredOnce(GiveUp(d, name, now))
  {
    GiveUpUpdates(d, name, now);
    QuietAnswers(d, cfg, GiveUp(d, name, now));
    ChangeStep(d, cfg, name, Legacy(d.remotes[name], now), TimedOut);
  }

  lemma GiveUpUpdates(d: Discovery, name: string, now: nat)
    requires name in d.remotes && !d.remotes[name].Complete()
    ensures Updates(d, GiveUp(d, name, now))
  {
    PutUpdates(d, GiveUp(d, name, now), name);
  }

  lemma SendCheckStep(d: Discovery, cfg: Config, name: string, private': SendOutcome, public: SendOutcome, now: nat)
    requires Inv(d, cfg) && FewChanges(d) && AnsweredOnce(d) && name in d.remotes
    ensures var d' := SendCheck(d, cfg, name, private', public, now);
      FewChanges(d') && AnsweredOnce(d')
  {
    SendCheckQuiet(d, cfg, name, private', public, now);
    QuietStep(d, cfg, SendCheck(d, cfg, name, private', public, now));
    QuietAnswers(d, cfg, SendCheck(d, cfg, name, private', public, now));
  }

  lemma SendCheckQuiet(d: Discovery, cfg: Config, name: string, private': SendOutcome, public: SendOutcome, now: nat)
    requires name in d.remotes
    ensures var d' := SendCheck(d, cfg, name, private', public, now);
      Updates(d, d') && d'.ready == d.ready
  {
    var half := SendTo(d, cfg, name, PrivateSlot, private', now);
    SendToUpdates(d, cfg, name, PrivateSlot, private', now);
    SendToUpdates(half, cfg, name, PublicSlot, public, now);
    UpdatesCompose(d, half, SendTo(half, cfg, name, PublicSlot, public, now));
  }

  lemma CheckStep(d: Discovery, cfg: Config, name: string, private': SendOutcome, public: SendOutcome, now: nat)
    requires Inv(d, cfg) && FewChanges(d) && AnsweredOnce(d)
    ensures var d' := CheckOne(d, cfg, name, private', public, now);
      FewChanges(d') && AnsweredOnce(d')
  {
    if name in d.remotes && d.remotes[name].ShouldCheck(now) {
      if d.remotes[name].TimedOut(now) {
        GiveUpStep(d, cfg, name, now);
      } else {
        SendCheckStep(d, cfg, name, private', public, now);
      }
    }
  }

  lemma NextStep(d: Discovery, cfg: Config, e: Event)
    requires Inv(d, cfg) && FewChanges(d) && AnsweredOnce(d)
    ensures FewChanges(Next(d, cfg, e)) && AnsweredOnce(Next(d, cfg, e))
  {
    match e
    case AddEndpoint(endpoint, family, now) =>
      AddIsQuiet(d, cfg, endpoint, family, now);
      AddUpdates(d, cfg, endpoint, family, now);
      QuietStep(d, cfg, Next(d, cfg, e));
      QuietAnswers(d, cfg, Next(d, cfg, e));
    case RemoveEndpoint(name) =>
      NextUpdates(d, cfg, e);
      QuietStep(d, cfg, Next(d, cfg, e));
      QuietAnswers(d, cfg, Next(d, cfg, e));
    case CheckEndpoint(name, private', public, now) => CheckStep(d, cfg, name, private', public, now);
    case ReceiveResponse(response, from, now) =>
      AnswerStep(d, cfg, response, from, now);
      ResponseChanges(d, cfg, response, from, now);
  }

  lemma ResponseChanges(d: Discovery, cfg: Config, resp: Response, from: IP, now: nat)
    requires Inv(d, cfg) && FewChanges(d)
    ensures FewChanges(Receive(d, resp, from, now))
  {
    match MatchOf(d, resp, from)
    case NoMatch =>
    case Matches(name, slot) =>
      if Takes(d.remotes[name], slot, now) {
        MovedEvolves(d.remotes[name], slot, resp.response == NAT_DETECTED, now);
        ChangeStep(d, cfg, name, Moved(d.remotes[name], slot, resp.response == NAT_DETECTED, now),
          Answered(resp.number));
      }
  }

  /** In every run an object announces at most two changes of its selection, and a request, whose number
      is above 0, at most one, however often and in whatever order responses to it arrive. */
  lemma {:induction false} RunsAnnounceFew(events: seq<Event>, cfg: Config, firstCounter: nat)
    ensures FewChanges(Run(events, cfg, firstCounter)) && AnsweredOnce(Run(events, cfg, firstCounter))
  {
    if events != [] {
      var n := |events| - 1;
      RunsAnnounceFew(events[..n], cfg, firstCounter);
      RunsKeepInv(events[..n], cfg, firstCounter);
      NextStep(Run(events[..n], cfg, firstCounter), cfg, events[n]);
    }
  }
}
