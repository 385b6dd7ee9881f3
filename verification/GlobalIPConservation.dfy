/** Global IPs are conserved (pkg/globalnet/controllers): over all four kinds of objects, what the pool
    counts as allocated is what the objects hold, each address with one of them — and the exact cases in
    which a step breaks that. */
module GlobalIPConservation {
  import opened Globalnet
  import opened Wrappers

  datatype Object = ClusterEgress(key: string) | Egress(key: string) | Ingress(key: string) | Gateway(key: string)

  /** The pool, the addresses in each object's status, and the pod watchers' cached addresses. An object
      that does not exist holds nothing. */
  datatype System = System(pool: set<IP>, held: map<Object, seq<IP>>, podWatchers: map<string, seq<IP>>)

  function HeldBy(s: System, o: Object): seq<IP> {
    if o in s.held then s.held[o] else []
  }

  ghost predicate Holds(s: System, o: Object, ip: IP) {
    o in s.held && ip in s.held[o]
  }

  /** The allocated addresses are the disjoint union of the addresses held. */
  ghost predicate Conserved(s: System) {
    && (forall o :: o in s.held ==> NoDuplicates(s.held[o]))
    && (forall o, o', ip :: Holds(s, o, ip) && Holds(s, o', ip) ==> o == o')
    && (forall ip :: ip in s.pool <==> exists o :: Holds(s, o, ip))
  }

  /** One object gives back what it held and gets addresses nobody else has. */
  ghost predicate Exchanges(pool: set<IP>, held: seq<IP>, pool': set<IP>, held': seq<IP>) {
    && NoDuplicates(held') && pool' == (pool - Of(held)) + Of(held')
    && forall ip :: ip in held' ==> ip !in pool - Of(held)
  }

  function Replaced(s: System, o: Object, pool: set<IP>, held: seq<IP>): System {
    s.(pool := pool, held := s.held[o := held])
  }

  // ----- steps -----

  datatype Event =
    | Restart
    | Reserve(owner: Object, ips: seq<IP>, free: bool)
    | ReserveGateway(key: string, ips: seq<IP>, hasCNIIP: bool, local: bool, free: bool, programs: bool)
    | UpdateClusterEgress(key: string, wellKnown: bool, numberOfIPs: int, flushes: bool, numRequeues: nat,
                          answer: Option<seq<IP>>, programs: bool)
    | DeleteClusterEgress(key: string, flushes: bool, numRequeues: nat)
    | UpdateEgress(key: string, numberOfIPs: int, flushes: bool, numRequeues: nat, answer: Option<seq<IP>>,
                   programs: bool, starts: bool)
    | DeleteEgress(key: string, flushes: bool, destroys: bool, numRequeues: nat)
    | CreateIngress(key: string, fetched: bool, updates: bool, answer: Option<seq<IP>>, setup: Setup)
    | DeleteIngress(key: string, clusterIPService: bool, cleanup: Cleanup, flushes: bool, numRequeues: nat)
    | UpdateGateway(key: string, ours: bool, answer: Option<seq<IP>>, programs: bool)
    | DeleteGateway(key: string)

  function ObjectOf(e: Event): Object
    requires !e.Restart?
  {
    match e
    case Reserve(owner, _, _) => owner
    case ReserveGateway(key, _, _, _, _, _) => Gateway(key)
    case UpdateClusterEgress(key, _, _, _, _, _, _) => ClusterEgress(key)
    case DeleteClusterEgress(key, _, _) => ClusterEgress(key)
    case UpdateEgress(key, _, _, _, _, _, _) => Egress(key)
    case DeleteEgress(key, _, _, _) => Egress(key)
    case CreateIngress(key, _, _, _, _) => Ingress(key)
    case DeleteIngress(key, _, _, _, _) => Ingress(key)
    case UpdateGateway(key, _, _, _) => Gateway(key)
    case DeleteGateway(key) => Gateway(key)
  }

  /** A deletion that is queued again finds the status it left, one that is done leaves nothing. */
  function EgressDeleted(pool: set<IP>, held: seq<IP>, podWatchers: map<string, seq<IP>>, key: string, flushes: bool,
                         destroys: bool, numRequeues: nat): Outcome {
    var ips := DeletedIPs(held, podWatchers, key);
    var flushed := Flush(pool, ips, flushes, numRequeues);
    var requeue := flushed.requeue || (!destroys && numRequeues < MAX_REQUEUES);
    Outcome(flushed.pool, if requeue then ips else [], requeue)
  }

  function IngressDeleted(pool: set<IP>, held: seq<IP>, clusterIPService: bool, cleanup: Cleanup, flushes: bool,
                          numRequeues: nat): Outcome {
    var o := if clusterIPService then IngressServiceDeleted(pool, held, cleanup, numRequeues)
      else Flush(pool, held, flushes, numRequeues);
    Outcome(o.pool, if o.requeue then held else [], o.requeue)
  }

  function EgressUpdated(pool: set<IP>, held: seq<IP>, n: int, flushes: bool, numRequeues: nat, answer: Option<seq<IP>>,
                         programs: bool): Outcome {
    if n < 0 then Outcome(pool, held, false) else Reallocated(pool, held, n, flushes, numRequeues, answer, programs)
  }

  function OutcomeOf(s: System, e: Event): Outcome
    requires !e.Restart?
  {
    var held := HeldBy(s, ObjectOf(e));
    match e
    case Reserve(_, ips, free) => if free then Outcome(s.pool + Of(ips), ips, false) else Outcome(s.pool, [], false)
    case ReserveGateway(_, ips, hasCNIIP, local, free, programs) =>
      GatewayReserved(s.pool, ips, hasCNIIP, local, free, programs)
    case UpdateClusterEgress(_, wellKnown, n, flushes, numRequeues, answer, programs) =>
      ClusterEgressProcessed(s.pool, held, wellKnown, n, flushes, numRequeues, answer, programs)
    case DeleteClusterEgress(_, flushes, numRequeues) => Flush(s.pool, held, flushes, numRequeues)
    case UpdateEgress(_, n, flushes, numRequeues, answer, programs, _) =>
      EgressUpdated(s.pool, held, n, flushes, numRequeues, answer, programs)
    case DeleteEgress(key, flushes, destroys, numRequeues) =>
      EgressDeleted(s.pool, held, s.podWatchers, key, flushes, destroys, numRequeues)
    case CreateIngress(_, fetched, updates, answer, setup) =>
      IngressCreated(s.pool, held, fetched, updates, answer, setup)
    case DeleteIngress(_, service, cleanup, flushes, numRequeues) =>
      IngressDeleted(s.pool, held, service, cleanup, flushes, numRequeues)
    case UpdateGateway(_, ours, answer, programs) => GatewayProcessed(s.pool, held, ours, answer, programs)
    case DeleteGateway(_) => Outcome(s.pool - Of(held), [], false)
  }

  function WatchersAfter(s: System, e: Event): map<string, seq<IP>>
    requires !e.Restart?
  {
    match e
    case UpdateEgress(key, n, _, _, _, _, starts) =>
      var o := OutcomeOf(s, e);
      if n < 0 || o.requeue then s.podWatchers else Watching(s.podWatchers, key, n, o.held, starts)
    case DeleteEgress(key, _, _, _) => s.podWatchers - {key}
    case _ => s.podWatchers
  }

  /** A process that has just started: nothing is reserved yet and nothing is watched. */
  const STARTED := System({}, map[], map[])

  /** The deletion of an egress object that holds nothing and has no pod watcher ends the process. */
  predicate Crashes(s: System, e: Event) {
    e.DeleteEgress? && HeldBy(s, Egress(e.key)) == [] && e.key !in s.podWatchers
  }

  /** After a crash, as after any other restart, a new process begins. */
  function Next(s: System, e: Event): System {
    if e.Restart? || Crashes(s, e) then STARTED
    else
      var o := OutcomeOf(s, e);
      Replaced(s, ObjectOf(e), o.pool, o.held).(podWatchers := WatchersAfter(s, e))
  }

  /** The pool answers by its contract, and only objects not seen before are reserved for. */
  ghost predicate Legal(s: System, e: Event) {
    var held := if e.Restart? then [] else HeldBy(s, ObjectOf(e));
    match e
    case Reserve(_, ips, free) => held == [] && (free ==> Free(s.pool, ips))
    case ReserveGateway(_, ips, _, _, free, _) => held == [] && NoDuplicates(ips) && (free ==> Free(s.pool, ips))
    case UpdateClusterEgress(_, _, n, flushes, numRequeues, answer, _) =>
      n >= 0 ==> Answers(Flush(s.pool, held, flushes, numRequeues).pool, n, answer)
    case UpdateEgress(_, n, flushes, numRequeues, answer, _, _) =>
      n >= 0 ==> Answers(Flush(s.pool, held, flushes, numRequeues).pool, n, answer)
    case CreateIngress(_, _, _, answer, _) => Answers(s.pool, 1, answer)
    case UpdateGateway(_, _, answer, _) => Answers(s.pool, 1, answer)
    case _ => true
  }

  /** The cases that break conservation. */
  ghost predicate Breaks(s: System, e: Event) {
    var held := if e.Restart? then [] else HeldBy(s, ObjectOf(e));
    match e
    case ReserveGateway(_, ips, hasCNIIP, local, free, programs) => ips != [] && (!hasCNIIP || (!local && !free))
    case DeleteEgress(key, flushes, destroys, numRequeues) =>
      EgressDeletionBreaks(s.pool, held, s.podWatchers, key, flushes, destroys, numRequeues)
    case DeleteIngress(_, service, cleanup, _, numRequeues) =>
      held != [] && service && cleanup == CannotRetrieve && numRequeues >= MAX_REQUEUES
    case _ => false
  }

  /** The addresses were released but the deletion is queued again with them; or the status was empty and
      the cached addresses are not free any more, or go back into the status. */
  predicate EgressDeletionBreaks(pool: set<IP>, held: seq<IP>, podWatchers: map<string, seq<IP>>, key: string,
                                 flushes: bool, destroys: bool, numRequeues: nat) {
    var ips := DeletedIPs(held, podWatchers, key);
    var kept := !flushes && numRequeues < MAX_REQUEUES;
    var again := !destroys && numRequeues < MAX_REQUEUES;
    ips != [] && ((!kept && again) || (held == [] && (kept || Of(ips) * pool != {})))
  }

  // ----- one object at a time is enough -----

  lemma ReplacedHolds(s: System, o: Object, pool: set<IP>, held: seq<IP>, o': Object, ip: IP)
    ensures Holds(Replaced(s, o, pool, held), o', ip) <==> if o' == o then ip in held else Holds(s, o', ip)
  {
  }

  /** From a conserved state, changing one object conserves exactly when it is an exchange. */
  lemma ExchangeConserves(s: System, o: Object, pool: set<IP>, held: seq<IP>)
    requires Conserved(s) && Exchanges(s.pool, HeldBy(s, o), pool, held)
    ensures Conserved(Replaced(s, o, pool, held))
  {
    var t := Replaced(s, o, pool, held);
    forall a, b, ip | Holds(t, a, ip) && Holds(t, b, ip) ensures a == b {
      ReplacedHolds(s, o, pool, held, a, ip);
      ReplacedHolds(s, o, pool, held, b, ip);
      OthersInPool(s, o, a, ip);
      OthersInPool(s, o, b, ip);
    }
    forall ip ensures ip in t.pool <==> exists a :: Holds(t, a, ip) {
      PoolAfter(s, o, pool, held, ip);
    }
  }

  lemma OthersInPool(s: System, o: Object, a: Object, ip: IP)
    requires Conserved(s)
    ensures a != o && Holds(s, a, ip) ==> ip in s.pool - Of(HeldBy(s, o))
  {
    assert ip in HeldBy(s, o) <==> Holds(s, o, ip);
  }

  lemma PoolAfter(s: System, o: Object, pool: set<IP>, held: seq<IP>, ip: IP)
    requires Conserved(s) && pool == (s.pool - Of(HeldBy(s, o))) + Of(held)
    ensures ip in pool <==> exists a :: Holds(Replaced(s, o, pool, held), a, ip)
  {
    var t := Replaced(s, o, pool, held);
    assert ip in HeldBy(s, o) <==> Holds(s, o, ip);
    ReplacedHolds(s, o, pool, held, o, ip);
    if ip in s.pool - Of(HeldBy(s, o)) {
      var a :| Holds(s, a, ip);
      ReplacedHolds(s, o, pool, held, a, ip);
    }
    forall a | Holds(t, a, ip) ensures ip in pool {
      ReplacedHolds(s, o, pool, held, a, ip);
      OthersInPool(s, o, a, ip);
    }
  }

  lemma ConservesOnlyByExchange(s: System, o: Object, pool: set<IP>, held: seq<IP>)
    requires Conserved(s) && Conserved(Replaced(s, o, pool, held))
    ensures Exchanges(s.pool, HeldBy(s, o), pool, held)
  {
    var t := Replaced(s, o, pool, held);
    forall ip ensures ip in pool <==> ip in (s.pool - Of(HeldBy(s, o))) + Of(held) {
      PoolAfter(s, o, (s.pool - Of(HeldBy(s, o))) + Of(held), held, ip);
      SamePlaces(s, o, pool, (s.pool - Of(HeldBy(s, o))) + Of(held), held, ip);
    }
    forall ip | ip in held ensures ip !in s.pool - Of(HeldBy(s, o)) {
      if ip in s.pool - Of(HeldBy(s, o)) {
        var a :| Holds(s, a, ip);
        assert ip in HeldBy(s, o) <==> Holds(s, o, ip);
        ReplacedHolds(s, o, pool, held, a, ip);
        ReplacedHolds(s, o, pool, held, o, ip);
      }
    }
    assert NoDuplicates(t.held[o]);
  }

  lemma SamePlaces(s: System, o: Object, pool: set<IP>, pool': set<IP>, held: seq<IP>, ip: IP)
    ensures (exists a :: Holds(Replaced(s, o, pool, held), a, ip))
      <==> exists a :: Holds(Replaced(s, o, pool', held), a, ip)
  {
    forall a ensures Holds(Replaced(s, o, pool, held), a, ip) <==> Holds(Replaced(s, o, pool', held), a, ip) {
    }
    if a :| Holds(Replaced(s, o, pool, held), a, ip) { assert Holds(Replaced(s, o, pool', held), a, ip); }
    if a :| Holds(Replaced(s, o, pool', held), a, ip) { assert Holds(Replaced(s, o, pool, held), a, ip); }
  }

  // ----- the operations are exchanges -----

  /** What is known of an object's addresses in a conserved state. */
  ghost predicate Owned(pool: set<IP>, held: seq<IP>) {
    NoDuplicates(held) && Of(held) <= pool
  }

  lemma HeldIsOwned(s: System, o: Object)
    requires Conserved(s)
    ensures Owned(s.pool, HeldBy(s, o))
  {
    forall ip | ip in HeldBy(s, o) ensures ip in s.pool {
      assert Holds(s, o, ip);
    }
  }

  lemma KeepsExactly(pool: set<IP>, held: seq<IP>)
    requires Owned(pool, held)
    ensures Exchanges(pool, held, pool, held)
  {
  }

  lemma FlushExchanges(pool: set<IP>, held: seq<IP>, flushes: bool, numRequeues: nat)
    requires Owned(pool, held)
    ensures var o := Flush(pool, held, flushes, numRequeues);
      Exchanges(pool, held, o.pool, o.held) && (!o.requeue ==> o.held == [] && o.pool == pool - Of(held))
        && (o.requeue ==> o.held == held)
  {
    KeepsExactly(pool, held);
  }

  lemma ReallocatedExchanges(pool: set<IP>, held: seq<IP>, n: nat, flushes: bool, numRequeues: nat,
                             answer: Option<seq<IP>>, programs: bool)
    requires Owned(pool, held) && Answers(Flush(pool, held, flushes, numRequeues).pool, n, answer)
    ensures var o := Reallocated(pool, held, n, flushes, numRequeues, answer, programs);
      Exchanges(pool, held, o.pool, o.held)
  {
    KeepsExactly(pool, held);
    FlushExchanges(pool, held, flushes, numRequeues);
  }

  lemma IngressCreatedExchanges(pool: set<IP>, held: seq<IP>, fetched: bool, updates: bool, answer: Option<seq<IP>>,
                                setup: Setup)
    requires Owned(pool, held) && Answers(pool, 1, answer)
    ensures var o := IngressCreated(pool, held, fetched, updates, answer, setup);
      Exchanges(pool, held, o.pool, o.held)
  {
    KeepsExactly(pool, held);
  }

  lemma GatewayExchanges(pool: set<IP>, held: seq<IP>, ours: bool, answer: Option<seq<IP>>, programs: bool)
    requires Owned(pool, held) && Answers(pool, 1, answer)
    ensures var o := GatewayProcessed(pool, held, ours, answer, programs);
      Exchanges(pool, held, o.pool, o.held)
  {
    KeepsExactly(pool, held);
  }

  lemma GatewayReservedIff(pool: set<IP>, ips: seq<IP>, hasCNIIP: bool, local: bool, free: bool, programs: bool)
    requires NoDuplicates(ips) && (free ==> Free(pool, ips))
    ensures var o := GatewayReserved(pool, ips, hasCNIIP, local, free, programs);
      Exchanges(pool, [], o.pool, o.held) <==> !(ips != [] && (!hasCNIIP || (!local && !free)))
  {
    if ips != [] { KeptUnreserved(pool, ips); }
  }

  /** Addresses that are held but were not reserved are not conserved. */
  lemma KeptUnreserved(pool: set<IP>, ips: seq<IP>)
    requires ips != []
    ensures !Exchanges(pool, [], pool, ips)
  {
    assert ips[0] in Of(ips);
  }

  lemma IngressDeletedIff(pool: set<IP>, held: seq<IP>, service: bool, cleanup: Cleanup, flushes: bool,
                          numRequeues: nat)
    requires Owned(pool, held)
    ensures var o := IngressDeleted(pool, held, service, cleanup, flushes, numRequeues);
      Exchanges(pool, held, o.pool, o.held) <==>
        !(held != [] && service && cleanup == CannotRetrieve && numRequeues >= MAX_REQUEUES)
  {
    KeepsExactly(pool, held);
    FlushExchanges(pool, held, flushes, numRequeues);
    assert held != [] ==> held[0] in Of(held);
  }

  lemma EgressDeletedIff(pool: set<IP>, held: seq<IP>, podWatchers: map<string, seq<IP>>, key: string, flushes: bool,
                         destroys: bool, numRequeues: nat)
    requires Owned(pool, held) && (key in podWatchers ==> NoDuplicates(podWatchers[key]))
    ensures var o := EgressDeleted(pool, held, podWatchers, key, flushes, destroys, numRequeues);
      Exchanges(pool, held, o.pool, o.held) <==>
        !EgressDeletionBreaks(pool, held, podWatchers, key, flushes, destroys, numRequeues)
  {
    var ips := DeletedIPs(held, podWatchers, key);
    KeepsExactly(pool, held);
    if ips != [] {
      assert ips[0] in Of(ips);
      if held != [] {
        ReleasedOnce(pool, held);
      } else {
        ReleasedFromCache(pool, ips);
      }
    }
  }

  lemma ReleasedOnce(pool: set<IP>, held: seq<IP>)
    requires Owned(pool, held) && held != []
    ensures Exchanges(pool, held, pool - Of(held), []) && !Exchanges(pool, held, pool - Of(held), held)
  {
    assert held[0] in Of(held);
  }

  lemma ReleasedFromCache(pool: set<IP>, ips: seq<IP>)
    requires ips != []
    ensures Exchanges(pool, [], pool - Of(ips), []) <==> Of(ips) * pool == {}
    ensures !Exchanges(pool, [], pool, ips) && !Exchanges(pool, [], pool - Of(ips), ips)
  {
    assert ips[0] in Of(ips);
    assert Of([]) == {};
    if Of(ips) * pool == {} {
      forall ip | ip in pool ensures ip in pool - Of(ips) {
        assert ip !in Of(ips) * pool;
      }
    }
    if Exchanges(pool, [], pool - Of(ips), []) {
      assert pool - Of(ips) == pool;
      forall ip | ip in Of(ips) ensures ip !in pool { assert ip !in pool - Of(ips); }
    }
  }

  ghost predicate WatchersDistinct(podWatchers: map<string, seq<IP>>) {
    forall key :: key in podWatchers ==> NoDuplicates(podWatchers[key])
  }

  lemma EventExchangesIff(s: System, e: Event)
    requires Conserved(s) && WatchersDistinct(s.podWatchers) && Legal(s, e) && !e.Restart?
    ensures Exchanges(s.pool, HeldBy(s, ObjectOf(e)), OutcomeOf(s, e).pool, OutcomeOf(s, e).held) <==> !Breaks(s, e)
  {
    var held := HeldBy(s, ObjectOf(e));
    HeldIsOwned(s, ObjectOf(e));
    KeepsExactly(s.pool, held);
    match e
    case Reserve(_, ips, free) =>
    case ReserveGateway(_, ips, hasCNIIP, local, free, programs) =>
      GatewayReservedIff(s.pool, ips, hasCNIIP, local, free, programs);
    case UpdateClusterEgress(_, wellKnown, n, flushes, numRequeues, answer, programs) =>
      if n >= 0 { ReallocatedExchanges(s.pool, held, n, flushes, numRequeues, answer, programs); }
    case DeleteClusterEgress(_, flushes, numRequeues) => FlushExchanges(s.pool, held, flushes, numRequeues);
    case UpdateEgress(_, n, flushes, numRequeues, answer, programs, _) =>
      if n >= 0 { ReallocatedExchanges(s.pool, held, n, flushes, numRequeues, answer, programs); }
    case DeleteEgress(key, flushes, destroys, numRequeues) =>
      EgressDeletedIff(s.pool, held, s.podWatchers, key, flushes, destroys, numRequeues);
    case CreateIngress(_, fetched, updates, answer, setup) =>
      IngressCreatedExchanges(s.pool, held, fetched, updates, answer, setup);
    case DeleteIngress(_, service, cleanup, flushes, numRequeues) =>
      IngressDeletedIff(s.pool, held, service, cleanup, flushes, numRequeues);
    case UpdateGateway(_, ours, answer, programs) => GatewayExchanges(s.pool, held, ours, answer, programs);
    case DeleteGateway(_) =>
  }

  // ----- conservation -----

  /** A step keeps conservation exactly when it is none of the breaking cases. */
  lemma StepConservesIff(s: System, e: Event)
    requires Conserved(s) && WatchersDistinct(s.podWatchers) && Legal(s, e)
    ensures Conserved(Next(s, e)) <==> !Breaks(s, e)
  {
    if !e.Restart? && !Crashes(s, e) {
      ObjectStepConservesIff(s, e);
    }
  }

  lemma ObjectStepConservesIff(s: System, e: Event)
    requires Conserved(s) && WatchersDistinct(s.podWatchers) && Legal(s, e) && !e.Restart? && !Crashes(s, e)
    ensures Conserved(Next(s, e)) <==> !Breaks(s, e)
  {
    var o := OutcomeOf(s, e);
    var t := Replaced(s, ObjectOf(e), o.pool, o.held);
    EventExchangesIff(s, e);
    WatchersDoNotMatter(t, Next(s, e));
    if !Breaks(s, e) {
      ExchangeConserves(s, ObjectOf(e), o.pool, o.held);
    } else if Conserved(t) {
      ConservesOnlyByExchange(s, ObjectOf(e), o.pool, o.held);
    }
  }

  lemma WatchersDoNotMatter(s: System, t: System)
    requires t == s.(podWatchers := t.podWatchers)
    ensures Conserved(s) <==> Conserved(t)
  {
    assert forall a, ip :: Holds(s, a, ip) <==> Holds(t, a, ip);
  }

  lemma WatchersStayDistinct(s: System, e: Event)
    requires WatchersDistinct(s.podWatchers) && Conserved(Next(s, e))
    ensures WatchersDistinct(Next(s, e).podWatchers)
  {
    if !e.Restart? && !Crashes(s, e) {
      assert ObjectOf(e) in Next(s, e).held && Next(s, e).held[ObjectOf(e)] == OutcomeOf(s, e).held;
    }
  }

  function Run(events: seq<Event>): System {
    if events == [] then STARTED else Next(Run(events[..|events| - 1]), events[|events| - 1])
  }

  ghost predicate Unbroken(events: seq<Event>) {
    forall i :: 0 <= i < |events| ==> Legal(Run(events[..i]), events[i]) && !Breaks(Run(events[..i]), events[i])
  }

  /** Over every run from an empty pool, from the reservations at the start through every creation, update,
      failure and deletion, the allocated addresses are the disjoint union of those held. */
  lemma {:induction false} GlobalIPsAreConserved(events: seq<Event>)
    requires Unbroken(events)
    ensures Conserved(Run(events)) && WatchersDistinct(Run(events).podWatchers)
  {
    if events != [] {
      var n := |events| - 1;
      assert forall i :: 0 <= i < n ==> events[..n][..i] == events[..i];
      GlobalIPsAreConserved(events[..n]);
      StepConservesIff(Run(events[..n]), events[n]);
      WatchersStayDistinct(Run(events[..n]), events[n]);
    }
  }

  /** The deletion of an egress object whose named set cannot be destroyed is tried again with the
      addresses it has already released, and takes them from the object that got them in between. */
  lemma SecondReleaseTakesFromOther(s: System, key: string, other: string, ip: IP)
    requires Conserved(s) && HeldBy(s, Egress(key)) == [ip] && HeldBy(s, ClusterEgress(other)) == []
    ensures var first := Next(s, DeleteEgress(key, true, false, 0));
      var given := Next(first, UpdateClusterEgress(other, true, 1, true, 0, Some([ip]), true));
      var second := Next(given, DeleteEgress(key, true, true, 1));
      && Legal(first, UpdateClusterEgress(other, true, 1, true, 0, Some([ip]), true))
      && Holds(second, ClusterEgress(other), ip) && ip !in second.pool
  {
    var first := Next(s, DeleteEgress(key, true, false, 0));
    assert ip in [ip] && Of([ip]) == {ip};
    assert HeldBy(first, Egress(key)) == [ip] && first.pool == s.pool - {ip};
    var given := Next(first, UpdateClusterEgress(other, true, 1, true, 0, Some([ip]), true));
    assert HeldBy(given, ClusterEgress(other)) == [ip] && HeldBy(given, Egress(key)) == [ip];
  }

  /** The deletion of an ingress object whose internal service cannot be retrieved is given up after the
      last try, and its address stays allocated with no object to hold it. */
  lemma GivenUpDeletionLeaks(s: System, key: string, ip: IP)
    requires Conserved(s) && HeldBy(s, Ingress(key)) == [ip]
    ensures var t := Next(s, DeleteIngress(key, true, CannotRetrieve, true, MAX_REQUEUES));
      ip in t.pool && forall o :: !Holds(t, o, ip)
  {
    var t := Next(s, DeleteIngress(key, true, CannotRetrieve, true, MAX_REQUEUES));
    assert Holds(s, Ingress(key), ip);
    forall o ensures !Holds(t, o, ip) {
      if o == Ingress(key) {
        assert t.held[o] == [];
      } else {
        assert Holds(t, o, ip) <==> Holds(s, o, ip);
      }
    }
  }

  /** The crash is reachable: an egress object that asks for no addresses and is then deleted. */
  lemma CrashIsReachable(key: string, flushes: bool, destroys: bool, numRequeues: nat)
    ensures var created := UpdateEgress(key, 0, true, 0, None, true, true);
      var deleted := DeleteEgress(key, flushes, destroys, numRequeues);
      var s := Next(STARTED, created);
      && Legal(STARTED, created) && !Breaks(STARTED, created) && Legal(s, deleted) && !Breaks(s, deleted)
      && Crashes(s, deleted)
  {
  }

  /** A gateway's address that was not reserved, for lack of a CNI address, can be given to another object. */
  lemma UnreservedGatewayIPIsGivenAway(s: System, key: string, local: bool, free: bool, programs: bool, other: string,
                                       ip: IP)
    requires Conserved(s) && HeldBy(s, Gateway(key)) == [] && HeldBy(s, ClusterEgress(other)) == [] && ip !in s.pool
    ensures var reserved := ReserveGateway(key, [ip], false, local, free, programs);
      var given := UpdateClusterEgress(other, true, 1, true, 0, Some([ip]), true);
      var t := Next(Next(s, reserved), given);
      && Legal(s, reserved) && Legal(Next(s, reserved), given)
      && Holds(t, Gateway(key), ip) && Holds(t, ClusterEgress(other), ip)
  {
    var reserved := ReserveGateway(key, [ip], false, local, free, programs);
    assert HeldBy(Next(s, reserved), Gateway(key)) == [ip] && Next(s, reserved).pool == s.pool;
    assert HeldBy(Next(s, reserved), ClusterEgress(other)) == [];
  }

  /** Another node's gateway keeps an address that could not be reserved because somebody has it. */
  lemma RefusedGatewayIPIsShared(s: System, key: string, programs: bool, o: Object, ip: IP)
    requires Conserved(s) && HeldBy(s, Gateway(key)) == [] && Holds(s, o, ip) && o != Gateway(key)
    ensures var reserved := ReserveGateway(key, [ip], true, false, false, programs);
      Legal(s, reserved) && Holds(Next(s, reserved), Gateway(key), ip) && Holds(Next(s, reserved), o, ip)
  {
    var reserved := ReserveGateway(key, [ip], true, false, false, programs);
    assert HeldBy(Next(s, reserved), Gateway(key)) == [ip];
  }

  // ----- restarts -----

  /** A reservation at the start that succeeds. */
  function Reservation(o: Object, ips: seq<IP>): Event {
    if o.Gateway? then ReserveGateway(o.key, ips, true, false, true, true) else Reserve(o, ips, true)
  }

  /** A new process reserves for the objects in some order, with the addresses in their statuses. */
  function Reserved(order: seq<Object>, statuses: map<Object, seq<IP>>): System
    requires forall o :: o in order ==> o in statuses
  {
    if order == [] then STARTED
    else
      var n := |order| - 1;
      Next(Reserved(order[..n], statuses), Reservation(order[n], statuses[order[n]]))
  }

  ghost predicate Distinct(order: seq<Object>) {
    forall i, j :: 0 <= i < j < |order| ==> order[i] != order[j]
  }

  lemma ReservationAdds(s: System, o: Object, ips: seq<IP>)
    ensures Next(s, Reservation(o, ips)).held == s.held[o := ips]
    ensures Next(s, Reservation(o, ips)).pool == s.pool + Of(ips)
  {
  }

  /** The statuses of exactly these objects. */
  ghost predicate IsPart(part: map<Object, seq<IP>>, held: map<Object, seq<IP>>, order: seq<Object>) {
    && (forall o :: o in part <==> o in order)
    && (forall o :: o in part ==> o in held && part[o] == held[o])
  }

  lemma PartGrows(part: map<Object, seq<IP>>, held: map<Object, seq<IP>>, order: seq<Object>, o: Object)
    requires IsPart(part, held, order) && o in held
    ensures IsPart(part[o := held[o]], held, order + [o])
  {
  }

  /** A new process that has reserved for some objects so far. */
  ghost predicate Underway(s: System, t: System, order: seq<Object>) {
    Conserved(t) && t.podWatchers == map[] && IsPart(t.held, s.held, order)
  }

  /** Whatever the order, every reservation of a restarted process can succeed, and the objects reserved for
      so far hold exactly what they held before. */
  lemma {:induction false} ReservationsSucceed(s: System, order: seq<Object>)
    requires Conserved(s) && Distinct(order) && forall o :: o in order ==> o in s.held
    ensures Underway(s, Reserved(order, s.held), order)
    ensures forall o :: o in s.held && o !in order ==> Legal(Reserved(order, s.held), Reservation(o, s.held[o]))
  {
    if order != [] {
      var n := |order| - 1;
      ReservationsSucceed(s, order[..n]);
      assert order[n] !in order[..n] && order == order[..n] + [order[n]];
      OneMoreReserved(s, Reserved(order[..n], s.held), order[..n], order[n]);
    }
    forall o | o in s.held && o !in order ensures Legal(Reserved(order, s.held), Reservation(o, s.held[o])) {
      ReservationIsLegal(s, Reserved(order, s.held), order, o);
    }
  }

  lemma ReservationIsLegal(s: System, t: System, order: seq<Object>, o: Object)
    requires Conserved(s) && Underway(s, t, order) && o in s.held && o !in order
    ensures Legal(t, Reservation(o, s.held[o]))
  {
    forall ip | ip in s.held[o] ensures ip !in t.pool {
      if ip in t.pool {
        var o' :| Holds(t, o', ip);
        assert Holds(s, o', ip) && Holds(s, o, ip);
      }
    }
  }

  lemma OneMoreReserved(s: System, t: System, order: seq<Object>, o: Object)
    requires Conserved(s) && Underway(s, t, order) && o in s.held && o !in order
    ensures Underway(s, Next(t, Reservation(o, s.held[o])), order + [o])
  {
    ReservationIsLegal(s, t, order, o);
    StepConservesIff(t, Reservation(o, s.held[o]));
    ReservationAdds(t, o, s.held[o]);
    PartGrows(t.held, s.held, order, o);
  }

  /** So once a restarted process has reserved for every object, pool and holders are as before. */
  lemma RestartRestores(s: System, order: seq<Object>)
    requires Conserved(s) && Distinct(order) && forall o :: o in order <==> o in s.held
    ensures Reserved(order, s.held) == s.(podWatchers := map[])
  {
    var t := Reserved(order, s.held);
    ReservationsSucceed(s, order);
    assert t.held == s.held;
    forall ip ensures ip in t.pool <==> ip in s.pool {
      SameHolders(s, t, ip);
    }
  }

  lemma SameHolders(s: System, t: System, ip: IP)
    requires s.held == t.held
    ensures (exists o :: Holds(s, o, ip)) <==> exists o :: Holds(t, o, ip)
  {
    assert forall o :: Holds(s, o, ip) <==> Holds(t, o, ip);
  }
}
