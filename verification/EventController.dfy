/** The controller in front of one event handler (pkg/event/controller): when it tells the handler that
    this node becomes or ceases to be the gateway, and which remote endpoint it holds for the latest. */
module EventController {

  datatype Endpoint = Endpoint(name: string, uid: string, clusterID: string, hostname: string, creationTimestamp: nat)

  const MAX_REQUEUES: nat := 20

  datatype CallKind =
    | LocalEndpointCreated | LocalEndpointRemoved | LocalEndpointUpdated
    | TransitionToGateway | TransitionToNonGateway
    | RemoteEndpointCreated | RemoteEndpointRemoved | StaleRemoteEndpointRemoved | RemoteEndpointUpdated

  /** A call of the handler and whether it succeeded. */
  datatype Call = Call(kind: CallKind, endpoint: Endpoint, ok: bool)

  datatype Identity = Identity(clusterID: string, hostname: string)

  /** An endpoint event, how often it was queued again, and what the handler will answer: to the
      notification, and to a transition if there is one. */
  datatype Event =
    | Created(endpoint: Endpoint, requeueCount: nat, notified: bool, transitioned: bool)
    | Removed(endpoint: Endpoint, requeueCount: nat, notified: bool, transitioned: bool)
    | Updated(endpoint: Endpoint, requeueCount: nat, notified: bool)

  datatype State = State(isOnGateway: bool, wasOnGateway: bool, remoteEndpoints: map<string, Endpoint>,
                         lastRemoteEndpoint: map<string, Endpoint>, calls: seq<Call>)

  // ----- the steps, on values -----

  function Called(s: State, kind: CallKind, endpoint: Endpoint, ok: bool): State {
    s.(calls := s.calls + [Call(kind, endpoint, ok)])
  }

  /** A local endpoint came or went: the handler is told, then of a transition if the node's role changed
      since the last event that succeeded. */
  function Local(s: State, id: Identity, e: Event): State
    requires !e.Updated?
  {
    var came := e.Created?;
    var isOn := if e.endpoint.hostname == id.hostname then came else s.isOnGateway;
    var told := Called(s.(isOnGateway := isOn), if came then LocalEndpointCreated else LocalEndpointRemoved,
      e.endpoint, e.notified);
    if !e.notified then told
    else if s.wasOnGateway != came && isOn == came then
      var moved :=
        Called(told, if came then TransitionToGateway else TransitionToNonGateway, e.endpoint, e.transitioned);
      if e.transitioned then moved.(wasOnGateway := isOn) else moved
    else told.(wasOnGateway := isOn)
  }

  predicate LocalFails(s: State, id: Identity, e: Event)
    requires !e.Updated?
  {
    var isOn := if e.endpoint.hostname == id.hostname then e.Created? else s.isOnGateway;
    !e.notified || (s.wasOnGateway != e.Created? && isOn == e.Created? && !e.transitioned)
  }

  predicate Outdated(s: State, endpoint: Endpoint) {
    var c := endpoint.clusterID;
    c in s.lastRemoteEndpoint && s.lastRemoteEndpoint[c].creationTimestamp > endpoint.creationTimestamp
  }

  predicate Stale(s: State, endpoint: Endpoint) {
    var c := endpoint.clusterID;
    c in s.lastRemoteEndpoint && s.lastRemoteEndpoint[c].uid != endpoint.uid
  }

  function Remote(s: State, e: Event): State {
    var endpoint := e.endpoint;
    match e
    case Created(_, _, notified, _) =>
      if Outdated(s, endpoint) then s
      else Called(s.(remoteEndpoints := s.remoteEndpoints[endpoint.name := endpoint],
                     lastRemoteEndpoint := s.lastRemoteEndpoint[endpoint.clusterID := endpoint]),
                  RemoteEndpointCreated, endpoint, notified)
    case Removed(_, _, notified, _) =>
      var forgotten := s.(remoteEndpoints := s.remoteEndpoints - {endpoint.name});
      if Stale(s, endpoint) then Called(forgotten, StaleRemoteEndpointRemoved, endpoint, notified)
      else Called(forgotten.(lastRemoteEndpoint := s.lastRemoteEndpoint - {endpoint.clusterID}), RemoteEndpointRemoved,
        endpoint, notified)
    case Updated(_, _, notified) =>
      Called(s.(remoteEndpoints := s.remoteEndpoints[endpoint.name := endpoint]), RemoteEndpointUpdated, endpoint,
        notified)
  }

  function Next(s: State, id: Identity, e: Event): State {
    if e.requeueCount > MAX_REQUEUES then s
    else if e.endpoint.clusterID != id.clusterID then Remote(s, e)
    else if e.Updated? then Called(s, LocalEndpointUpdated, e.endpoint, e.notified)
    else Local(s, id, e)
  }

  /** The event is queued again. */
  predicate Requeues(s: State, id: Identity, e: Event) {
    e.requeueCount <= MAX_REQUEUES
    && if e.endpoint.clusterID != id.clusterID then !e.notified && !(e.Created? && Outdated(s, e.endpoint))
       else if e.Updated? then !e.notified
       else LocalFails(s, id, e)
  }

  function Run(events: seq<Event>, id: Identity): State {
    if events == [] then State(false, false, map[], map[], [])
    else Next(Run(events[..|events| - 1], id), id, events[|events| - 1])
  }

  // ----- the controller -----

  class HandlerController {
    const id: Identity
    var isOnGateway: bool
    var wasOnGateway: bool
    var remoteEndpoints: map<string, Endpoint>
    var lastRemoteEndpoint: map<string, Endpoint>
    ghost var calls: seq<Call>

    ghost function Value(): State
      reads this
    {
      State(isOnGateway, wasOnGateway, remoteEndpoints, lastRemoteEndpoint, calls)
    }

    constructor (id: Identity)
      ensures Value() == Run([], id) && this.id == id
    {
      this.id := id;
      isOnGateway, wasOnGateway, remoteEndpoints, lastRemoteEndpoint := false, false, map[], map[];
      calls := [];
    }

    /** The handler answers a call with what the event says it will. */
    method Handle(kind: CallKind, endpoint: Endpoint, answer: bool) returns (ok: bool)
      modifies this`calls
      ensures ok == answer && calls == old(calls) + [Call(kind, endpoint, answer)]
    {
      calls := calls + [Call(kind, endpoint, answer)];
      return answer;
    }

    method HandleCreatedEndpoint(e: Event) returns (requeue: bool)
      requires e.Created?
      modifies this
      ensures Value() == Next(old(Value()), id, e) && requeue == Requeues(old(Value()), id, e)
    {
      if e.requeueCount > MAX_REQUEUES {
        return false;
      }
      var ok;
      if e.endpoint.clusterID != id.clusterID {
        ok := HandleCreatedRemoteEndpoint(e);
      } else {
        ok := HandleCreatedLocalEndpoint(e);
      }
      return !ok;
    }

    method HandleCreatedLocalEndpoint(e: Event) returns (ok: bool)
      requires e.Created?
      modifies this
      ensures Value() == Local(old(Value()), id, e) && ok == !LocalFails(old(Value()), id, e)
    {
      if e.endpoint.hostname == id.hostname {
        isOnGateway := true;
      }
      ok := Handle(LocalEndpointCreated, e.endpoint, e.notified);
      if ok && !wasOnGateway && isOnGateway {
        ok := Handle(TransitionToGateway, e.endpoint, e.transitioned);
      }
      if ok {
        wasOnGateway := isOnGateway;
      }
    }

    method HandleCreatedRemoteEndpoint(e: Event) returns (ok: bool)
      requires e.Created?
      modifies this
      ensures Value() == Remote(old(Value()), e) && (ok <==> e.notified || Outdated(old(Value()), e.endpoint))
    {
      var endpoint := e.endpoint;
      if endpoint.clusterID in lastRemoteEndpoint
        && lastRemoteEndpoint[endpoint.clusterID].creationTimestamp > endpoint.creationTimestamp {
        return true;
      }
      remoteEndpoints := remoteEndpoints[endpoint.name := endpoint];
      lastRemoteEndpoint := lastRemoteEndpoint[endpoint.clusterID := endpoint];
      ok := Handle(RemoteEndpointCreated, endpoint, e.notified);
    }

    method HandleRemovedEndpoint(e: Event) returns (requeue: bool)
      requires e.Removed?
      modifies this
      ensures Value() == Next(old(Value()), id, e) && requeue == Requeues(old(Value()), id, e)
    {
      if e.requeueCount > MAX_REQUEUES {
        return false;
      }
      var ok;
      if e.endpoint.clusterID != id.clusterID {
        ok := HandleRemovedRemoteEndpoint(e);
      } else {
        ok := HandleRemovedLocalEndpoint(e);
      }
      return !ok;
    }

    method HandleRemovedLocalEndpoint(e: Event) returns (ok: bool)
      requires e.Removed?
      modifies this
      ensures Value() == Local(old(Value()), id, e) && ok == !LocalFails(old(Value()), id, e)
    {
      if e.endpoint.hostname == id.hostname {
        isOnGateway := false;
      }
      ok := Handle(LocalEndpointRemoved, e.endpoint, e.notified);
      if ok && wasOnGateway && !isOnGateway {
        ok := Handle(TransitionToNonGateway, e.endpoint, e.transitioned);
      }
      if ok {
        wasOnGateway := isOnGateway;
      }
    }

    method HandleRemovedRemoteEndpoint(e: Event) returns (ok: bool)
      requires e.Removed?
      modifies this
      ensures Value() == Remote(old(Value()), e) && ok == e.notified
    {
      var endpoint := e.endpoint;
      remoteEndpoints := remoteEndpoints - {endpoint.name};
      if endpoint.clusterID in lastRemoteEndpoint && lastRemoteEndpoint[endpoint.clusterID].uid != endpoint.uid {
        ok := Handle(StaleRemoteEndpointRemoved, endpoint, e.notified);
        return;
      }
      lastRemoteEndpoint := lastRemoteEndpoint - {endpoint.clusterID};
      ok := Handle(RemoteEndpointRemoved, endpoint, e.notified);
    }

    method HandleUpdatedEndpoint(e: Event) returns (requeue: bool)
      requires e.Updated?
      modifies this
      ensures Value() == Next(old(Value()), id, e) && requeue == Requeues(old(Value()), id, e)
    {
      if e.requeueCount > MAX_REQUEUES {
        return false;
      }
      var ok;
      if e.endpoint.clusterID != id.clusterID {
        remoteEndpoints := remoteEndpoints[e.endpoint.name := e.endpoint];
        ok := Handle(RemoteEndpointUpdated, e.endpoint, e.notified);
      } else {
        ok := Handle(LocalEndpointUpdated, e.endpoint, e.notified);
      }
      return !ok;
    }
  }

  // ----- gateway transitions -----

  predicate IsTransition(c: Call) {
    c.ok && (c.kind == TransitionToGateway || c.kind == TransitionToNonGateway)
  }

  /** The transitions that succeeded, in order; true is to the gateway. */
  function Transitions(calls: seq<Call>): seq<bool> {
    if calls == [] then []
    else
      var last := calls[|calls| - 1];
      Transitions(calls[..|calls| - 1]) + (if IsTransition(last) then [last.kind == TransitionToGateway] else [])
  }

  /** What the handler was last told this node is. */
  function ToldGateway(calls: seq<Call>): bool {
    var t := Transitions(calls);
    t != [] && t[|t| - 1]
  }

  /** They alternate, starting with the transition to the gateway. */
  predicate Alternates(t: seq<bool>) {
    (t != [] ==> t[0]) && forall i :: 0 < i < |t| ==> t[i] != t[i - 1]
  }

  /** The controller's memory of the node's role is what the handler was told. */
  predicate Consistent(s: State) {
    s.wasOnGateway == ToldGateway(s.calls) && Alternates(Transitions(s.calls))
  }

  lemma TransitionsSnoc(calls: seq<Call>, c: Call)
    ensures Transitions(calls + [c])
      == Transitions(calls) + (if IsTransition(c) then [c.kind == TransitionToGateway] else [])
  {
    assert (calls + [c])[..|calls|] == calls;
  }

  lemma CalledQuietly(s: State, kind: CallKind, endpoint: Endpoint, ok: bool)
    requires kind != TransitionToGateway && kind != TransitionToNonGateway
    ensures Transitions(Called(s, kind, endpoint, ok).calls) == Transitions(s.calls)
  {
    TransitionsSnoc(s.calls, Call(kind, endpoint, ok));
    assert Transitions(s.calls) + [] == Transitions(s.calls);
  }

  /** A local event that succeeds while the opposite transition is still due forgets it. */
  predicate ForgetsTransition(s: State, id: Identity, e: Event)
    requires !e.Updated?
  {
    var isOn := if e.endpoint.hostname == id.hostname then e.Created? else s.isOnGateway;
    e.notified && s.wasOnGateway == e.Created? && isOn != e.Created?
  }

  /** A transition is due and succeeds. */
  predicate Transits(s: State, id: Identity, e: Event)
    requires !e.Updated?
  {
    var isOn := if e.endpoint.hostname == id.hostname then e.Created? else s.isOnGateway;
    e.notified && s.wasOnGateway != e.Created? && isOn == e.Created? && e.transitioned
  }

  lemma LocalTransitions(s: State, id: Identity, e: Event)
    requires !e.Updated?
    ensures Transitions(Local(s, id, e).calls) == if Transits(s, id, e) then Transitions(s.calls) + [e.Created?]
      else Transitions(s.calls)
  {
    var came := e.Created?;
    var isOn := if e.endpoint.hostname == id.hostname then came else s.isOnGateway;
    var kind := if came then LocalEndpointCreated else LocalEndpointRemoved;
    var told := Called(s.(isOnGateway := isOn), kind, e.endpoint, e.notified);
    CalledQuietly(s.(isOnGateway := isOn), kind, e.endpoint, e.notified);
    TransitionsSnoc(told.calls,
      Call(if came then TransitionToGateway else TransitionToNonGateway, e.endpoint, e.transitioned));
    assert Transitions(told.calls) + [] == Transitions(told.calls);
  }

  lemma OneMore(t: seq<bool>, gateway: bool)
    requires Alternates(t) && (t != [] && t[|t| - 1]) != gateway
    ensures Alternates(t + [gateway])
  {
  }

  /** Told and remembered roles stay the same over a local event exactly when it forgets no transition. */
  lemma LocalConsistentIff(s: State, id: Identity, e: Event)
    requires Consistent(s) && !e.Updated?
    ensures Consistent(Local(s, id, e)) <==> !ForgetsTransition(s, id, e)
  {
    LocalTransitions(s, id, e);
    if Transits(s, id, e) {
      OneMore(Transitions(s.calls), e.Created?);
    }
  }

  /** The local event that failed and has not succeeded yet. */
  datatype Awaited = Nothing | Awaiting(endpoint: Endpoint, created: bool)

  predicate IsLocal(e: Event, id: Identity) {
    e.endpoint.clusterID == id.clusterID && !e.Updated?
  }

  function AwaitedAfter(events: seq<Event>, id: Identity): Awaited {
    if events == [] then Nothing
    else
      var n, e := |events| - 1, events[|events| - 1];
      if !IsLocal(e, id) then AwaitedAfter(events[..n], id)
      else if Requeues(Run(events[..n], id), id, e) then Awaiting(e.endpoint, e.Created?)
      else Nothing
  }

  /** A failed local event is retried to success before the next one comes. */
  ghost predicate Disciplined(events: seq<Event>, id: Identity) {
    forall i :: 0 <= i < |events| && IsLocal(events[i], id) ==>
      && events[i].requeueCount <= MAX_REQUEUES
      && AwaitedAfter(events[..i], id) in {Nothing, Awaiting(events[i].endpoint, events[i].Created?)}
  }

  predicate RoleFits(s: State, id: Identity, awaited: Awaited) {
    match awaited
    case Nothing => s.isOnGateway == s.wasOnGateway
    case Awaiting(endpoint, created) =>
      s.isOnGateway == if endpoint.hostname == id.hostname then created else s.wasOnGateway
  }

  lemma OtherEventKeepsRoles(s: State, id: Identity, e: Event)
    requires !IsLocal(e, id)
    ensures var s' := Next(s, id, e);
      s'.isOnGateway == s.isOnGateway && s'.wasOnGateway == s.wasOnGateway
        && Transitions(s'.calls) == Transitions(s.calls)
  {
    if e.requeueCount <= MAX_REQUEUES {
      if e.endpoint.clusterID != id.clusterID {
        RemoteCallsQuietly(s, e);
      } else {
        CalledQuietly(s, LocalEndpointUpdated, e.endpoint, e.notified);
      }
    }
  }

  lemma RemoteCallsQuietly(s: State, e: Event)
    ensures Transitions(Remote(s, e).calls) == Transitions(s.calls)
  {
    match e
    case Created(endpoint, _, notified, _) => CalledQuietly(s, RemoteEndpointCreated, endpoint, notified);
    case Removed(endpoint, _, notified, _) =>
      CalledQuietly(s, StaleRemoteEndpointRemoved, endpoint, notified);
      CalledQuietly(s, RemoteEndpointRemoved, endpoint, notified);
    case Updated(endpoint, _, notified) => CalledQuietly(s, RemoteEndpointUpdated, endpoint, notified);
  }

  lemma LocalRole(s: State, id: Identity, e: Event, awaited: Awaited)
    requires RoleFits(s, id, awaited) && !e.Updated? && awaited in {Nothing, Awaiting(e.endpoint, e.Created?)}
    ensures !ForgetsTransition(s, id, e)
    ensures RoleFits(Local(s, id, e), id, if LocalFails(s, id, e) then Awaiting(e.endpoint, e.Created?) else Nothing)
  {
  }

  /** In every disciplined run, with whatever remote events in between and whatever failures, the
      successful transitions alternate starting with the one to the gateway, and the roles agree whenever
      nothing awaits its retry. */
  lemma {:induction false} TransitionsAlternate(events: seq<Event>, id: Identity)
    requires Disciplined(events, id)
    ensures var s := Run(events, id);
      && Alternates(Transitions(s.calls)) && Consistent(s) && RoleFits(s, id, AwaitedAfter(events, id))
      && (AwaitedAfter(events, id) == Nothing ==> s.wasOnGateway == s.isOnGateway == ToldGateway(s.calls))
  {
    if events != [] {
      var n := |events| - 1;
      var s, e := Run(events[..n], id), events[n];
      DisciplinedPrefix(events, id, n);
      TransitionsAlternate(events[..n], id);
      if IsLocal(e, id) {
        LocalRole(s, id, e, AwaitedAfter(events[..n], id));
        LocalConsistentIff(s, id, e);
      } else {
        OtherEventKeepsRoles(s, id, e);
      }
    }
  }

  lemma DisciplinedPrefix(events: seq<Event>, id: Identity, n: nat)
    requires Disciplined(events, id) && n <= |events|
    ensures Disciplined(events[..n], id)
  {
    forall i | 0 <= i < n && IsLocal(events[..n][i], id)
      ensures events[..n][i].requeueCount <= MAX_REQUEUES
        && AwaitedAfter(events[..n][..i], id) in {Nothing, Awaiting(events[..n][i].endpoint, events[..n][i].Created?)}
    {
      assert events[..n][..i] == events[..i] && events[..n][i] == events[i];
    }
  }

  /** The discipline is needed: when the removal of this node's endpoint fails and another node's endpoint
      is created before the retry, the handler is never told that the node left the gateway, and then told
      twice that it became it. */
  lemma UndisciplinedRunRepeats(id: Identity, mine: Endpoint, other: Endpoint)
    requires mine.clusterID == id.clusterID == other.clusterID && mine.hostname == id.hostname != other.hostname
    ensures var created, failed, another :=
      Created(mine, 0, true, true), Removed(mine, 0, false, true), Created(other, 0, true, true);
      var s := Next(Next(Next(Next(Run([], id), id, created), id, failed), id, another), id, created);
      Transitions(s.calls) == [true, true]
  {
    BecomesGatewayThenFails(id, mine);
    var s := Next(Next(Run([], id), id, Created(mine, 0, true, true)), id, Removed(mine, 0, false, true));
    ForgottenThenRepeated(s, id, mine, other);
  }

  lemma BecomesGatewayThenFails(id: Identity, mine: Endpoint)
    requires mine.clusterID == id.clusterID && mine.hostname == id.hostname
    ensures var s := Next(Next(Run([], id), id, Created(mine, 0, true, true)), id, Removed(mine, 0, false, true));
      !s.isOnGateway && s.wasOnGateway && Transitions(s.calls) == [true]
  {
    RolesAfter(Run([], id), id, Created(mine, 0, true, true));
    RolesAfter(Next(Run([], id), id, Created(mine, 0, true, true)), id, Removed(mine, 0, false, true));
  }

  lemma ForgottenThenRepeated(s: State, id: Identity, mine: Endpoint, other: Endpoint)
    requires mine.clusterID == id.clusterID == other.clusterID && mine.hostname == id.hostname != other.hostname
    requires !s.isOnGateway && s.wasOnGateway && Transitions(s.calls) == [true]
    ensures Transitions(Next(Next(s, id, Created(other, 0, true, true)), id, Created(mine, 0, true, true)).calls)
      == [true, true]
  {
    RolesAfter(s, id, Created(other, 0, true, true));
    RolesAfter(Next(s, id, Created(other, 0, true, true)), id, Created(mine, 0, true, true));
  }

  /** What a local event does to the roles and to the transitions told. */
  lemma RolesAfter(s: State, id: Identity, e: Event)
    requires IsLocal(e, id) && e.requeueCount <= MAX_REQUEUES
    ensures var isOn := if e.endpoint.hostname == id.hostname then e.Created? else s.isOnGateway;
      var s' := Next(s, id, e);
      && s'.isOnGateway == isOn && s'.wasOnGateway == (if LocalFails(s, id, e) then s.wasOnGateway else isOn)
      && Transitions(s'.calls) == if Transits(s, id, e) then Transitions(s.calls) + [e.Created?]
        else Transitions(s.calls)
  {
    LocalTransitions(s, id, e);
  }

  // ----- remote endpoints -----

  /** A removal that clears the record of its cluster. */
  predicate Clears(s: State, id: Identity, e: Event, clusterID: string) {
    && e.Removed? && e.requeueCount <= MAX_REQUEUES && e.endpoint.clusterID == clusterID != id.clusterID
    && !Stale(s, e.endpoint)
  }

  /** A removal of an endpoint that is not the one recorded for its cluster. */
  predicate RemovesStale(s: State, id: Identity, e: Event) {
    e.Removed? && e.requeueCount <= MAX_REQUEUES && e.endpoint.clusterID != id.clusterID && Stale(s, e.endpoint)
  }

  /** Removing an endpoint with another UID leaves the newer record as it is and is reported as stale. */
  lemma StaleRemovalKeepsRecord(s: State, id: Identity, e: Event)
    requires RemovesStale(s, id, e)
    ensures Next(s, id, e).lastRemoteEndpoint == s.lastRemoteEndpoint
    ensures Next(s, id, e).calls == s.calls + [Call(StaleRemoteEndpointRemoved, e.endpoint, e.notified)]
  {
  }

  /** The recorded endpoint of a cluster is only ever replaced by one that is not older, only the removal
      of that very endpoint clears it, and any other removal is reported as stale. */
  lemma RecordStep(s: State, id: Identity, e: Event, clusterID: string)
    requires clusterID in s.lastRemoteEndpoint
    ensures var s' := Next(s, id, e);
      && (clusterID in s'.lastRemoteEndpoint <==> !Clears(s, id, e, clusterID))
      && (clusterID in s'.lastRemoteEndpoint ==>
            s'.lastRemoteEndpoint[clusterID].creationTimestamp >= s.lastRemoteEndpoint[clusterID].creationTimestamp)
    ensures RemovesStale(s, id, e) ==>
      Next(s, id, e).calls == s.calls + [Call(StaleRemoteEndpointRemoved, e.endpoint, e.notified)]
  {
    if RemovesStale(s, id, e) { StaleRemovalKeepsRecord(s, id, e); }
  }

  /** Between removals that clear it, the recorded timestamp of a cluster never decreases, over any run. */
  lemma {:induction false} RecordNeverGetsOlder(events: seq<Event>, id: Identity, i: nat, clusterID: string)
    requires i <= |events| && clusterID in Run(events[..i], id).lastRemoteEndpoint
    requires forall j :: i <= j < |events| ==> !Clears(Run(events[..j], id), id, events[j], clusterID)
    ensures clusterID in Run(events, id).lastRemoteEndpoint
    ensures Run(events, id).lastRemoteEndpoint[clusterID].creationTimestamp
      >= Run(events[..i], id).lastRemoteEndpoint[clusterID].creationTimestamp
  {
    if i == |events| {
      assert events[..i] == events;
    } else {
      var n := |events| - 1;
      assert events[..n][..i] == events[..i];
      forall j | i <= j < n ensures !Clears(Run(events[..n][..j], id), id, events[..n][j], clusterID) {
        assert events[..n][..j] == events[..j];
      }
      RecordNeverGetsOlder(events[..n], id, i, clusterID);
      RecordStep(Run(events[..n], id), id, events[n], clusterID);
    }
  }

  // ----- what the handler hears -----

  /** The notification an event stands for: by the kind of the event, by whose endpoint it is, and for a removal
      by whether it is the endpoint recorded for its cluster. */
  function NotificationOf(s: State, id: Identity, e: Event): CallKind {
    var mine := e.endpoint.clusterID == id.clusterID;
    match e
    case Created(_, _, _, _) => if mine then LocalEndpointCreated else RemoteEndpointCreated
    case Updated(_, _, _) => if mine then LocalEndpointUpdated else RemoteEndpointUpdated
    case Removed(endpoint, _, _, _) =>
      if mine then LocalEndpointRemoved
      else if endpoint.clusterID in s.lastRemoteEndpoint && s.lastRemoteEndpoint[endpoint.clusterID].uid != endpoint.uid
        then StaleRemoteEndpointRemoved
      else RemoteEndpointRemoved
  }

  /** Nothing is made of events that failed too often, nor of a remote endpoint older than the one recorded. */
  predicate Ignored(s: State, id: Identity, e: Event) {
    || e.requeueCount > 20
    || (e.Created? && e.endpoint.clusterID != id.clusterID && e.endpoint.clusterID in s.lastRemoteEndpoint
        && e.endpoint.creationTimestamp < s.lastRemoteEndpoint[e.endpoint.clusterID].creationTimestamp)
  }

  /** The transition that a local event brings about: this node's endpoint came while the node was not the
      gateway, or went while it was, and the handler took the notification. */
  predicate BringsTransition(s: State, id: Identity, e: Event) {
    && e.endpoint.clusterID == id.clusterID && !e.Updated? && e.notified && s.wasOnGateway != e.Created?
    && (e.endpoint.hostname == id.hostname || s.isOnGateway == e.Created?)
  }

  /** Every event that is not ignored is told to the handler once, and then its transition if it brings one
      about; it is queued again exactly when the handler fails. Local events change nothing but the roles. */
  lemma EventIsNotified(events: seq<Event>, id: Identity, e: Event)
    ensures var s := Run(events, id);
      var s' := Next(s, id, e);
      if Ignored(s, id, e) then s' == s && !Requeues(s, id, e)
      else
        var transition :=
          if BringsTransition(s, id, e)
            then [Call(if e.Created? then TransitionToGateway else TransitionToNonGateway, e.endpoint, e.transitioned)]
          else [];
        && s'.calls == s.calls + [Call(NotificationOf(s, id, e), e.endpoint, e.notified)] + transition
        && (Requeues(s, id, e) <==> !e.notified || (BringsTransition(s, id, e) && !e.transitioned))
  {
  }

  // ----- what the controller remembers -----

  /** The remote endpoints the handler knows of from what it was told. */
  function KnownFrom(calls: seq<Call>): map<string, Endpoint> {
    if calls == [] then map[]
    else
      var known, c := KnownFrom(calls[..|calls| - 1]), calls[|calls| - 1];
      if c.kind == RemoteEndpointCreated || c.kind == RemoteEndpointUpdated then known[c.endpoint.name := c.endpoint]
      else if c.kind == RemoteEndpointRemoved || c.kind == StaleRemoteEndpointRemoved then known - {c.endpoint.name}
      else known
  }

  /** The latest remote endpoint created for each cluster and not removed since. */
  function LatestFrom(calls: seq<Call>): map<string, Endpoint> {
    if calls == [] then map[]
    else
      var latest, c := LatestFrom(calls[..|calls| - 1]), calls[|calls| - 1];
      if c.kind == RemoteEndpointCreated then latest[c.endpoint.clusterID := c.endpoint]
      else if c.kind == RemoteEndpointRemoved then latest - {c.endpoint.clusterID}
      else latest
  }

  lemma KnownSnoc(calls: seq<Call>, c: Call)
    ensures KnownFrom(calls + [c]) ==
      if c.kind == RemoteEndpointCreated || c.kind == RemoteEndpointUpdated
        then KnownFrom(calls)[c.endpoint.name := c.endpoint]
      else if c.kind == RemoteEndpointRemoved || c.kind == StaleRemoteEndpointRemoved
        then KnownFrom(calls) - {c.endpoint.name}
      else KnownFrom(calls)
    ensures LatestFrom(calls + [c]) ==
      if c.kind == RemoteEndpointCreated then LatestFrom(calls)[c.endpoint.clusterID := c.endpoint]
      else if c.kind == RemoteEndpointRemoved then LatestFrom(calls) - {c.endpoint.clusterID}
      else LatestFrom(calls)
  {
    assert (calls + [c])[..|calls|] == calls;
  }

  predicate RemembersCalls(s: State) {
    s.remoteEndpoints == KnownFrom(s.calls) && s.lastRemoteEndpoint == LatestFrom(s.calls)
  }

  lemma RemoteKeepsMemory(s: State, e: Event)
    requires RemembersCalls(s)
    ensures RemembersCalls(Remote(s, e))
  {
    match e
    case Created(endpoint, _, notified, _) => KnownSnoc(s.calls, Call(RemoteEndpointCreated, endpoint, notified));
    case Updated(endpoint, _, notified) => KnownSnoc(s.calls, Call(RemoteEndpointUpdated, endpoint, notified));
    case Removed(endpoint, _, notified, _) => RemovalKeepsMemory(s, e);
  }

  lemma RemovalKeepsMemory(s: State, e: Event)
    requires RemembersCalls(s) && e.Removed?
    ensures RemembersCalls(Remote(s, e))
  {
    var stale := Stale(s, e.endpoint);
    KnownSnoc(s.calls,
      Call(if stale then StaleRemoteEndpointRemoved else RemoteEndpointRemoved, e.endpoint, e.notified));
  }

  lemma LocalKeepsMemory(s: State, id: Identity, e: Event)
    requires RemembersCalls(s) && !e.Updated?
    ensures RemembersCalls(Local(s, id, e))
  {
    var told :=
      s.calls + [Call(if e.Created? then LocalEndpointCreated else LocalEndpointRemoved, e.endpoint, e.notified)];
    KnownSnoc(s.calls, told[|s.calls|]);
    KnownSnoc(told,
      Call(if e.Created? then TransitionToGateway else TransitionToNonGateway, e.endpoint, e.transitioned));
  }

  /** After every run, whatever failed, the controller remembers exactly the remote endpoints it told the handler
      about, and for each cluster the latest. */
  lemma {:induction false} MemoryIsWhatWasTold(events: seq<Event>, id: Identity)
    ensures RemembersCalls(Run(events, id))
  {
    if events != [] {
      var n := |events| - 1;
      var s, e := Run(events[..n], id), events[n];
      MemoryIsWhatWasTold(events[..n], id);
      if e.requeueCount <= MAX_REQUEUES {
        if e.endpoint.clusterID != id.clusterID {
          RemoteKeepsMemory(s, e);
        } else if e.Updated? {
          KnownSnoc(s.calls, Call(LocalEndpointUpdated, e.endpoint, e.notified));
        } else {
          LocalKeepsMemory(s, id, e);
        }
      }
    }
  }

  /** The role after a local event: this node's own endpoint decides it, and the handler's role follows once
      the event succeeds. */
  lemma RoleAfterEvent(events: seq<Event>, id: Identity, e: Event)
    ensures var s := Run(events, id);
      var s' := Next(s, id, e);
      var decides := IsLocal(e, id) && !Ignored(s, id, e) && e.endpoint.hostname == id.hostname;
      && s'.isOnGateway == (if decides then e.Created? else s.isOnGateway)
      && s'.wasOnGateway == (if IsLocal(e, id) && !Ignored(s, id, e) && !Requeues(s, id, e) then s'.isOnGateway
                             else s.wasOnGateway)
  {
  }
}
