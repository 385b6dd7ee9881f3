/** Objects get their global IPs (pkg/globalnet/controllers): what each kind of object holds after a step, and
    that an object which did not get what it asks for is tried again. */
module GlobalIPProgress {
  import opened Globalnet
  import opened GlobalIPConservation
  import opened Wrappers

  /** The object holds these addresses and no other object changed: what it held before is free again and
      these are taken. */
  ghost predicate NowHolds(s: System, t: System, o: Object, ips: seq<IP>) {
    && HeldBy(t, o) == ips && t.pool == (s.pool - Of(HeldBy(s, o))) + Of(ips)
    && forall o' :: o' != o ==> HeldBy(t, o') == HeldBy(s, o')
  }

  /** The event is queued again; an egress object also when its pod watcher could not be started. */
  predicate Requeued(s: System, e: Event)
    requires !e.Restart?
  {
    || OutcomeOf(s, e).requeue
    || (e.UpdateEgress? && e.numberOfIPs > 0 && e.key !in s.podWatchers && !e.starts)
  }

  /** The rules for these addresses are gone, or it was the last try. */
  predicate Flushed(held: seq<IP>, flushes: bool, numRequeues: nat) {
    held == [] || flushes || numRequeues >= 20
  }

  lemma OwnInPool(s: System, o: Object)
    requires Conserved(s)
    ensures Of(HeldBy(s, o)) <= s.pool
    ensures NoDuplicates(HeldBy(s, o))
  {
    forall ip | ip in Of(HeldBy(s, o)) ensures ip in s.pool {
      assert Holds(s, o, ip);
    }
  }

  /** A cluster egress object that is acted on gets the number of addresses it asks for, also a smaller one
      than it had, from the pool's answer; with the right number it keeps what it has. It is queued again
      exactly when the number is still wrong. */
  lemma ClusterEgressIsServed(s: System, key: string, wellKnown: bool, n: int, flushes: bool, numRequeues: nat,
                              answer: Option<seq<IP>>, programs: bool)
    requires var e := UpdateClusterEgress(key, wellKnown, n, flushes, numRequeues, answer, programs);
      Conserved(s) && Legal(s, e)
    ensures var e := UpdateClusterEgress(key, wellKnown, n, flushes, numRequeues, answer, programs);
      var o := ClusterEgress(key);
      var t, held := Next(s, e), HeldBy(s, o);
      && NowHolds(s, t, o,
           if !wellKnown || n < 0 || n == |held| || !Flushed(held, flushes, numRequeues) then held
           else if n > 0 && answer.Some? && programs then answer.value
           else [])
      && t.podWatchers == s.podWatchers
      && (Requeued(s, e) <==> wellKnown && n >= 0 && |HeldBy(t, o)| != n)
  {
    OwnInPool(s, ClusterEgress(key));
  }

  /** So does an egress object; and one with addresses is watched in the end or queued again. */
  lemma EgressIsServed(s: System, key: string, n: int, flushes: bool, numRequeues: nat, answer: Option<seq<IP>>,
                       programs: bool, starts: bool)
    requires var e := UpdateEgress(key, n, flushes, numRequeues, answer, programs, starts);
      Conserved(s) && Legal(s, e) && n >= 0
    ensures var e := UpdateEgress(key, n, flushes, numRequeues, answer, programs, starts);
      var o := Egress(key);
      var t, held := Next(s, e), HeldBy(s, o);
      && NowHolds(s, t, o,
           if n == |held| || !Flushed(held, flushes, numRequeues) then held
           else if n > 0 && answer.Some? && programs then answer.value
           else [])
      && (n == |HeldBy(t, o)| && !Requeued(s, e) ==> (n > 0 ==> key in t.podWatchers))
      && (key !in s.podWatchers && key in t.podWatchers ==> t.podWatchers[key] == HeldBy(t, o))
      && (key in s.podWatchers ==> key in t.podWatchers && t.podWatchers[key] == s.podWatchers[key])
      && (|HeldBy(t, o)| != n ==> Requeued(s, e))
      && (n > 0 && starts && |HeldBy(t, o)| == n ==> key in t.podWatchers && !Requeued(s, e))
  {
    OwnInPool(s, Egress(key));
  }

  /** An ingress object without an address gets one when everything on the way succeeds; with one it keeps it.
      It is queued again unless it has one and is up to date, or its service is missing or cannot be created. */
  lemma IngressIsServed(s: System, key: string, fetched: bool, updates: bool, answer: Option<seq<IP>>, setup: Setup)
    requires Conserved(s) && Legal(s, CreateIngress(key, fetched, updates, answer, setup))
    ensures var e := CreateIngress(key, fetched, updates, answer, setup);
      var o := Ingress(key);
      var t, held := Next(s, e), HeldBy(s, o);
      var abandoned := held == [] && answer.Some? && (setup == ServiceMissing || setup == InternalServiceFails);
      && NowHolds(s, t, o, if held == [] && fetched && answer.Some? && setup == SetUp then answer.value else held)
      && (Requeued(s, e) <==> !fetched || (if held != [] then !updates else HeldBy(t, o) == [] && !abandoned))
  {
    OwnInPool(s, Ingress(key));
    assert Of([]) == {};
  }

  /** Where the service of an ingress object is missing the address is given back and nothing is queued again,
      although the log says that it is: the object stays without an address. */
  lemma MissingServiceIsNotRetried(key: string, ip: IP)
    ensures var e := CreateIngress(key, true, true, Some([ip]), ServiceMissing);
      && Legal(STARTED, e) && HeldBy(Next(STARTED, e), Ingress(key)) == [] && !Requeued(STARTED, e)
  {
  }

  /** This node's gateway gets an address, once. */
  lemma GatewayIsServed(s: System, key: string, ours: bool, answer: Option<seq<IP>>, programs: bool)
    requires Conserved(s) && Legal(s, UpdateGateway(key, ours, answer, programs))
    ensures var e := UpdateGateway(key, ours, answer, programs);
      var o := Gateway(key);
      var t, held := Next(s, e), HeldBy(s, o);
      && NowHolds(s, t, o, if held == [] && ours && answer.Some? && programs then answer.value else held)
      && (Requeued(s, e) <==> ours && HeldBy(t, o) == [])
  {
    OwnInPool(s, Gateway(key));
    assert Of([]) == {};
  }

  // ----- deletions -----

  lemma ClusterEgressIsFreed(s: System, key: string, flushes: bool, numRequeues: nat)
    requires Conserved(s)
    ensures var e := DeleteClusterEgress(key, flushes, numRequeues);
      var held := HeldBy(s, ClusterEgress(key));
      && NowHolds(s, Next(s, e), ClusterEgress(key), if Flushed(held, flushes, numRequeues) then [] else held)
      && (Requeued(s, e) <==> !Flushed(held, flushes, numRequeues))
  {
    OwnInPool(s, ClusterEgress(key));
  }

  /** An egress object gives back what it holds, or what its watcher remembers when its status is empty. */
  lemma EgressIsFreed(s: System, key: string, flushes: bool, destroys: bool, numRequeues: nat)
    requires Conserved(s) && (key in s.podWatchers || HeldBy(s, Egress(key)) != [])
    ensures var e := DeleteEgress(key, flushes, destroys, numRequeues);
      var held, t := HeldBy(s, Egress(key)), Next(s, e);
      var ips := if held == [] then s.podWatchers[key] else held;
      && t.pool == (if Flushed(ips, flushes, numRequeues) then s.pool - Of(ips) else s.pool)
      && HeldBy(t, Egress(key)) == (if Requeued(s, e) then ips else []) && t.podWatchers == s.podWatchers - {key}
      && (Requeued(s, e) <==> !Flushed(ips, flushes, numRequeues) || (!destroys && numRequeues < 20))
      && (forall o :: o != Egress(key) ==> HeldBy(t, o) == HeldBy(s, o))
  {
  }

  /** An ingress object's address is free once its service is cleaned up, or its rules are gone. */
  lemma IngressIsFreed(s: System, key: string, service: bool, cleanup: Cleanup, flushes: bool, numRequeues: nat)
    requires Conserved(s)
    ensures var e := DeleteIngress(key, service, cleanup, flushes, numRequeues);
      var held, t := HeldBy(s, Ingress(key)), Next(s, e);
      var freed := if service then held == [] || cleanup == Cleaned else Flushed(held, flushes, numRequeues);
      && (freed ==> NowHolds(s, t, Ingress(key), []))
      && (!freed ==> t.pool == s.pool)
      && (Requeued(s, e) <==> !freed && !(service && cleanup == CannotRetrieve && numRequeues >= 20))
  {
    OwnInPool(s, Ingress(key));
    assert Of([]) == {};
  }

  lemma GatewayIsFreed(s: System, key: string)
    requires Conserved(s)
    ensures NowHolds(s, Next(s, DeleteGateway(key)), Gateway(key), []) && !Requeued(s, DeleteGateway(key))
  {
    assert Of([]) == {};
  }

  // ----- the start -----

  /** A reservation that succeeds takes the object's addresses; otherwise it has none. */
  lemma ReservedIsHeld(s: System, o: Object, ips: seq<IP>, free: bool)
    requires Legal(s, Reserve(o, ips, free))
    ensures var t := Next(s, Reserve(o, ips, free));
      && HeldBy(t, o) == (if free then ips else []) && t.pool == (if free then s.pool + Of(ips) else s.pool)
      && (forall o' :: o' != o ==> HeldBy(t, o') == HeldBy(s, o'))
  {
  }

  /** A gateway's address is taken when there is a CNI address, the pool has it free, and the rules of a local
      gateway can be programmed. Only the local gateway loses its annotation otherwise. */
  lemma ReservedGatewayIsHeld(s: System, key: string, ips: seq<IP>, hasCNIIP: bool, local: bool, free: bool,
                              programs: bool)
    ensures var t := Next(s, ReserveGateway(key, ips, hasCNIIP, local, free, programs));
      var taken := hasCNIIP && free && (!local || programs);
      && t.pool == (if taken then s.pool + Of(ips) else s.pool)
      && HeldBy(t, Gateway(key)) == (if taken || !hasCNIIP || !local then ips else [])
      && (forall o :: o != Gateway(key) ==> HeldBy(t, o) == HeldBy(s, o))
  {
    assert Of([]) == {};
  }
}
