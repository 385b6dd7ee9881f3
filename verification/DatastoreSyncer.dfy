/** Acceptance of broker-supplied endpoints: pkg/controllers/datastoresyncer/datastoresyncer.go.
    The local store is what ListLocalResources enumerates, in no particular order. */
module DatastoreSyncer {
  import opened Cidr

  datatype Cluster = Cluster(clusterID: string, serviceCIDR: seq<Cidr>, clusterCIDR: seq<Cidr>, globalCIDR: seq<Cidr>) {
    function Declared(): seq<Cidr> {
      serviceCIDR + clusterCIDR + globalCIDR
    }
  }

  datatype Endpoint = Endpoint(name: string, clusterID: string, subnets: seq<Cidr>)

  /** `started` is d.syncer != nil. */
  datatype Config = Config(localClusterID: string, localSubnets: seq<Cidr>, started: bool)

  datatype Decision = Accept | Reject(requeue: bool)

  // ----- the decision -----

  ghost predicate ClearOfLocal(config: Config, e: Endpoint) {
    forall i :: 0 <= i < |config.localSubnets| ==> Overlapping(e.subnets, config.localSubnets[i]) == Ok(false)
  }

  ghost predicate Declares(c: Cluster, e: Endpoint) {
    forall i :: 0 <= i < |e.subnets| ==> Contained(c.Declared(), e.subnets[i]) == Ok(true)
  }

  predicate Concerns(config: Config, e: Endpoint, other: Endpoint) {
    other.clusterID != e.clusterID && other.clusterID != config.localClusterID
  }

  ghost predicate ClearOfEndpoint(e: Endpoint, other: Endpoint) {
    forall i :: 0 <= i < |e.subnets| ==> Overlapping(other.subnets, e.subnets[i]) == Ok(false)
  }

  /** The first Cluster resource with the given ID, if any. */
  function FindCluster(clusters: seq<Cluster>, id: string): seq<Cluster> {
    if clusters == [] then []
    else if clusters[0].clusterID == id then [clusters[0]]
    else FindCluster(clusters[1..], id)
  }

  ghost function Validated(config: Config, clusters: seq<Cluster>, others: seq<Endpoint>, e: Endpoint): Decision {
    if e.subnets == [] || !config.started then Accept
    else if FindCluster(clusters, e.clusterID) == [] then Reject(true)
    else if !Declares(FindCluster(clusters, e.clusterID)[0], e) then Reject(false)
    else if exists other :: other in others && Concerns(config, e, other) && !ClearOfEndpoint(e, other)
      then Reject(false)
    else Accept
  }

  ghost function Decided(config: Config, clusters: seq<Cluster>, others: seq<Endpoint>, e: Endpoint): Decision {
    if !ClearOfLocal(config, e) then Reject(false) else Validated(config, clusters, others, e)
  }

  /** A deletion always passes. */
  method ShouldSyncRemoteEndpoint(config: Config, clusters: seq<Cluster>, others: seq<Endpoint>, e: Endpoint,
                                  deleted: bool)
    returns (d: Decision)
    ensures d == if deleted then Accept else Decided(config, clusters, others, e)
  {
    if deleted {
      return Accept;
    }
    for i := 0 to |config.localSubnets|
      invariant forall j :: 0 <= j < i ==> Overlapping(e.subnets, config.localSubnets[j]) == Ok(false)
    {
      var overlap := IsOverlapping(e.subnets, config.localSubnets[i]);
      if overlap.Error? {
        return Reject(false);
      }
      if overlap.answer {
        return Reject(false);
      }
    }
    d := ValidateRemoteEndpointSubnets(config, clusters, others, e);
  }

  method ValidateRemoteEndpointSubnets(config: Config, clusters: seq<Cluster>, others: seq<Endpoint>, e: Endpoint)
    returns (d: Decision)
    ensures d == Validated(config, clusters, others, e)
  {
    if |e.subnets| == 0 || !config.started {
      return Accept;
    }
    var remoteCluster: seq<Cluster> := [];
    for i := 0 to |clusters|
      invariant remoteCluster == []
      invariant FindCluster(clusters, e.clusterID) == FindCluster(clusters[i..], e.clusterID)
    {
      if clusters[i].clusterID == e.clusterID {
        remoteCluster := [clusters[i]];
        break;
      }
    }
    assert remoteCluster == FindCluster(clusters, e.clusterID);
    if remoteCluster == [] {
      return Reject(true);
    }
    var allowed := remoteCluster[0].serviceCIDR;
    allowed := allowed + remoteCluster[0].clusterCIDR;
    allowed := allowed + remoteCluster[0].globalCIDR;
    for i := 0 to |e.subnets|
      invariant forall j :: 0 <= j < i ==> Contained(allowed, e.subnets[j]) == Ok(true)
    {
      var contained := IsContained(allowed, e.subnets[i]);
      if contained.Error? {
        return Reject(false);
      }
      if !contained.answer {
        return Reject(false);
      }
    }
    for k := 0 to |others|
      invariant forall j :: 0 <= j < k && Concerns(config, e, others[j]) ==> ClearOfEndpoint(e, others[j])
    {
      var other := others[k];
      if other.clusterID == e.clusterID || other.clusterID == config.localClusterID {
        continue;
      }
      for i := 0 to |e.subnets|
        invariant forall j :: 0 <= j < i ==> Overlapping(other.subnets, e.subnets[j]) == Ok(false)
      {
        var overlap := IsOverlapping(other.subnets, e.subnets[i]);
        if overlap.Error? {
          assert other in others && !ClearOfEndpoint(e, other);
          return Reject(false);
        }
        if !overlap.answer {
          continue;
        }
        assert other in others && !ClearOfEndpoint(e, other);
        return Reject(false);
      }
    }
    return Accept;
  }

  // ----- the decision in terms of addresses -----

  /** Every entry parses and shares no address with the other, which parses too. */
  ghost predicate Apart(list: seq<Cidr>, cidr: Cidr) {
    cidr.Block? && forall j :: 0 <= j < |list| ==> list[j].Block? && !ShareAddress(list[j].net, cidr.net)
  }

  ghost predicate AllApart(list: seq<Cidr>, cidrs: seq<Cidr>) {
    forall i :: 0 <= i < |cidrs| ==> Apart(list, cidrs[i])
  }

  lemma ApartIff(list: seq<Cidr>, cidr: Cidr)
    ensures Overlapping(list, cidr) == Ok(false) <==> Apart(list, cidr)
  {
    if cidr.Block? {
      OverlappingMeaning(list, cidr.net);
    }
  }

  lemma AllApartIff(list: seq<Cidr>, cidrs: seq<Cidr>)
    ensures (forall i :: 0 <= i < |cidrs| ==> Overlapping(list, cidrs[i]) == Ok(false)) <==> AllApart(list, cidrs)
  {
    forall i | 0 <= i < |cidrs| ensures Overlapping(list, cidrs[i]) == Ok(false) <==> Apart(list, cidrs[i]) {
      ApartIff(list, cidrs[i]);
    }
  }

  /** Cluster k is the first one recorded with the ID. */
  ghost predicate IsFirst(clusters: seq<Cluster>, id: string, k: int) {
    0 <= k < |clusters| && clusters[k].clusterID == id && forall j :: 0 <= j < k ==> clusters[j].clusterID != id
  }

  /** For each subnet one of the cluster's service, cluster and global CIDRs covers all its addresses, and no
      malformed one comes before it. */
  ghost predicate CoversAll(c: Cluster, subnets: seq<Cidr>) {
    forall i :: 0 <= i < |subnets| ==>
      subnets[i].Block? && exists j :: CoveredBy(c.serviceCIDR + c.clusterCIDR + c.globalCIDR, j, subnets[i].net)
  }

  lemma CoversAllIff(c: Cluster, e: Endpoint)
    ensures Declares(c, e) <==> CoversAll(c, e.subnets)
  {
    forall i | 0 <= i < |e.subnets|
      ensures Contained(c.Declared(), e.subnets[i]) == Ok(true) <==>
        e.subnets[i].Block? && exists j :: CoveredBy(c.Declared(), j, e.subnets[i].net)
    {
      ContainedMeaning(c.Declared(), e.subnets[i]);
    }
  }

  lemma {:induction false} FirstIsFound(clusters: seq<Cluster>, id: string, k: int)
    requires IsFirst(clusters, id, k)
    ensures FindCluster(clusters, id) == [clusters[k]]
  {
    if k > 0 {
      assert forall j :: 0 <= j < k - 1 ==> clusters[1..][j] == clusters[j + 1];
      FirstIsFound(clusters[1..], id, k - 1);
    }
  }

  /** The endpoints of other remote clusters. */
  ghost predicate AllOthersApart(config: Config, listing: seq<Endpoint>, e: Endpoint) {
    forall other :: other in listing && other.clusterID != e.clusterID && other.clusterID != config.localClusterID ==>
      AllApart(other.subnets, e.subnets)
  }

  ghost predicate IsRecorded(clusters: seq<Cluster>, id: string) {
    exists c :: c in clusters && c.clusterID == id
  }

  lemma {:induction false} SomeIsFirst(clusters: seq<Cluster>, id: string) returns (k: nat)
    requires IsRecorded(clusters, id)
    ensures IsFirst(clusters, id, k)
  {
    if clusters[0].clusterID == id {
      k := 0;
    } else {
      k := SomeIsFirst(clusters[1..], id);
      assert forall j :: 0 < j < |clusters| ==> clusters[j] == clusters[1..][j - 1];
      k := k + 1;
    }
  }

  /** The cluster of the ID that counts declares every subnet. */
  ghost predicate IsDeclared(clusters: seq<Cluster>, e: Endpoint) {
    exists k :: IsFirst(clusters, e.clusterID, k) && CoversAll(clusters[k], e.subnets)
  }

  lemma DeclaredIff(clusters: seq<Cluster>, e: Endpoint)
    ensures IsDeclared(clusters, e) <==>
      FindCluster(clusters, e.clusterID) != [] && Declares(FindCluster(clusters, e.clusterID)[0], e)
    ensures IsRecorded(clusters, e.clusterID) <==> FindCluster(clusters, e.clusterID) != []
  {
    FindClusterFinds(clusters, e.clusterID);
    if IsRecorded(clusters, e.clusterID) {
      var k := SomeIsFirst(clusters, e.clusterID);
      FirstIsFound(clusters, e.clusterID, k);
      CoversAllIff(clusters[k], e);
    }
  }

  lemma OthersApartIff(config: Config, listing: seq<Endpoint>, e: Endpoint)
    ensures (forall other :: other in listing && Concerns(config, e, other) ==> ClearOfEndpoint(e, other))
      <==> AllOthersApart(config, listing, e)
  {
    forall other | other in listing ensures ClearOfEndpoint(e, other) <==> AllApart(other.subnets, e.subnets) {
      AllApartIff(other.subnets, e.subnets);
    }
  }

  /** What decides about a remote endpoint: it is accepted exactly when no subnet shares an address with the
      local cluster, and, once the syncer is started and there are subnets, its cluster declares all of them
      and none shares an address with an endpoint of another remote cluster. It is tried again exactly when
      only its cluster is missing. */
  lemma AcceptedIff(config: Config, clusters: seq<Cluster>, listing: seq<Endpoint>, e: Endpoint)
    ensures Decided(config, clusters, listing, e) == Accept <==>
      && AllApart(e.subnets, config.localSubnets)
      && (e.subnets == [] || !config.started || (IsDeclared(clusters, e) && AllOthersApart(config, listing, e)))
    ensures Decided(config, clusters, listing, e) == Reject(true) <==>
      && AllApart(e.subnets, config.localSubnets) && e.subnets != [] && config.started
      && !IsRecorded(clusters, e.clusterID)
  {
    AllApartIff(e.subnets, config.localSubnets);
    DeclaredIff(clusters, e);
    OthersApartIff(config, listing, e);
  }

  // ----- runs of the syncer -----

  /** `clusters` and `listing` are the order in which the store happened to be enumerated. */
  datatype Event =
    | SyncRemote(e: Endpoint, listing: seq<Endpoint>)
    | PublishLocal(e: Endpoint)
    | Delete(name: string)
    | SyncClusters(clusters: seq<Cluster>)

  datatype State = State(clusters: seq<Cluster>, store: map<string, Endpoint>)

  ghost predicate Enabled(config: Config, s: State, event: Event) {
    match event
    case SyncRemote(_, listing) => forall e :: e in listing <==> e in s.store.Values
    case PublishLocal(e) => e.clusterID == config.localClusterID
    case _ => true
  }

  ghost function Step(config: Config, s: State, event: Event): State {
    match event
    case SyncRemote(e, listing) =>
      if Decided(config, s.clusters, listing, e).Accept? then s.(store := s.store[e.name := e]) else s
    case PublishLocal(e) => s.(store := s.store[e.name := e])
    case Delete(name) => s.(store := s.store - {name})
    case SyncClusters(clusters) => s.(clusters := clusters)
  }

  ghost function Run(config: Config, events: seq<Event>): State {
    if events == [] then State([], map[])
    else Step(config, Run(config, events[..|events| - 1]), events[|events| - 1])
  }

  /** Every event of the run is one the system can produce where it occurs. */
  ghost predicate Legal(config: Config, events: seq<Event>) {
    forall k :: 0 <= k < |events| ==> Enabled(config, Run(config, events[..k]), events[k])
  }

  // ----- disjointness over every run -----

  ghost predicate Disjoint(a: seq<Cidr>, b: seq<Cidr>) {
    forall i, j :: 0 <= i < |a| && 0 <= j < |b| && a[i].Block? && b[j].Block? ==> !ShareAddress(a[i].net, b[j].net)
  }

  ghost predicate RemotesDisjoint(config: Config, store: map<string, Endpoint>) {
    forall m, n :: m in store && n in store
      && store[m].clusterID != store[n].clusterID
      && store[m].clusterID != config.localClusterID && store[n].clusterID != config.localClusterID
      ==> Disjoint(store[m].subnets, store[n].subnets)
  }

  ghost predicate RemotesClearOfLocal(config: Config, store: map<string, Endpoint>) {
    forall n :: n in store && store[n].clusterID != config.localClusterID ==>
      Disjoint(store[n].subnets, config.localSubnets)
  }

  lemma ShareAddressSymmetric(a: Net, b: Net)
    ensures ShareAddress(a, b) <==> ShareAddress(b, a)
  {
    if address, family :| Covers(a, family, address) && Covers(b, family, address) {
      assert Covers(b, family, address) && Covers(a, family, address);
    }
    if address, family :| Covers(b, family, address) && Covers(a, family, address) {
      assert Covers(a, family, address) && Covers(b, family, address);
    }
  }

  lemma NoOverlapIsDisjoint(a: seq<Cidr>, b: seq<Cidr>)
    requires forall j :: 0 <= j < |b| ==> Overlapping(a, b[j]) == Ok(false)
    ensures Disjoint(a, b) && Disjoint(b, a)
  {
    forall i, j | 0 <= i < |a| && 0 <= j < |b| && a[i].Block? && b[j].Block?
      ensures !ShareAddress(a[i].net, b[j].net) && !ShareAddress(b[j].net, a[i].net)
    {
      assert Overlapping(a, b[j]) == Ok(false);
      OverlappingMeaning(a, b[j].net);
      ShareAddressSymmetric(a[i].net, b[j].net);
    }
  }

  lemma AcceptedIsDisjoint(config: Config, s: State, e: Endpoint, listing: seq<Endpoint>)
    requires config.started && (forall x :: x in listing <==> x in s.store.Values)
    requires Decided(config, s.clusters, listing, e).Accept?
    ensures Disjoint(e.subnets, config.localSubnets)
    ensures forall n :: n in s.store && Concerns(config, e, s.store[n]) ==>
      Disjoint(e.subnets, s.store[n].subnets) && Disjoint(s.store[n].subnets, e.subnets)
  {
    NoOverlapIsDisjoint(e.subnets, config.localSubnets);
    forall n | n in s.store && Concerns(config, e, s.store[n])
      ensures Disjoint(e.subnets, s.store[n].subnets) && Disjoint(s.store[n].subnets, e.subnets)
    {
      if e.subnets != [] {
        assert s.store[n] in s.store.Values;
        assert ClearOfEndpoint(e, s.store[n]);
        NoOverlapIsDisjoint(s.store[n].subnets, e.subnets);
      }
    }
  }

  /** In every reachable store no two endpoints of different remote clusters share an address, and
      none shares one with the local endpoint. */
  lemma {:induction false} AcceptedEndpointsStayDisjoint(config: Config, events: seq<Event>)
    requires config.started && Legal(config, events)
    ensures RemotesDisjoint(config, Run(config, events).store)
    ensures RemotesClearOfLocal(config, Run(config, events).store)
  {
    if events != [] {
      var k := |events| - 1;
      var before := events[..k];
      LegalPrefix(config, events);
      AcceptedEndpointsStayDisjoint(config, before);
      if events[k].SyncRemote?
        && Decided(config, Run(config, before).clusters, events[k].listing, events[k].e).Accept? {
        AcceptedIsDisjoint(config, Run(config, before), events[k].e, events[k].listing);
      }
    }
  }

  ghost predicate Among(fewer: seq<Cidr>, list: seq<Cidr>) {
    forall i :: 0 <= i < |fewer| ==> fewer[i] in list
  }

  /** An endpoint that was accepted does not stand in its own way, nor in that of another endpoint of its
      cluster: while clusters and the endpoints of other clusters stay, any endpoint of that cluster with
      subnets of the accepted one is accepted too, whatever was stored for this cluster and locally. */
  lemma AcceptedAgain(config: Config, s: State, e: Endpoint, listing: seq<Endpoint>, e': Endpoint,
                      listing': seq<Endpoint>)
    requires Decided(config, s.clusters, listing, e) == Accept
    requires e'.clusterID == e.clusterID && Among(e'.subnets, e.subnets)
    requires forall other :: other in listing' ==>
      other in listing || other.clusterID == e.clusterID || other.clusterID == config.localClusterID
    ensures Step(config, s, SyncRemote(e', listing')) == s.(store := s.store[e'.name := e'])
  {
    AcceptedIff(config, s.clusters, listing, e);
    AcceptedIff(config, s.clusters, listing', e');
    if config.started && e'.subnets != [] {
      assert e'.subnets[0] in e.subnets;
      var k :| IsFirst(s.clusters, e.clusterID, k) && CoversAll(s.clusters[k], e.subnets);
      FewerCovered(s.clusters[k], e.subnets, e'.subnets);
      forall other | other in listing' && other.clusterID != e.clusterID && other.clusterID != config.localClusterID
        ensures AllApart(other.subnets, e'.subnets)
      {
        FewerApart(other.subnets, e.subnets, e'.subnets);
      }
    }
    FewerApartOf(e.subnets, e'.subnets, config.localSubnets);
  }

  lemma FewerCovered(c: Cluster, subnets: seq<Cidr>, fewer: seq<Cidr>)
    requires CoversAll(c, subnets) && Among(fewer, subnets)
    ensures CoversAll(c, fewer)
  {
    forall i | 0 <= i < |fewer|
      ensures fewer[i].Block? && exists j :: CoveredBy(c.serviceCIDR + c.clusterCIDR + c.globalCIDR, j, fewer[i].net)
    {
      var k :| 0 <= k < |subnets| && subnets[k] == fewer[i];
    }
  }

  lemma FewerApart(list: seq<Cidr>, cidrs: seq<Cidr>, fewer: seq<Cidr>)
    requires AllApart(list, cidrs) && Among(fewer, cidrs)
    ensures AllApart(list, fewer)
  {
    forall i | 0 <= i < |fewer| ensures Apart(list, fewer[i]) {
      var k :| 0 <= k < |cidrs| && cidrs[k] == fewer[i];
    }
  }

  lemma FewerApartOf(list: seq<Cidr>, fewer: seq<Cidr>, cidrs: seq<Cidr>)
    requires AllApart(list, cidrs) && Among(fewer, list)
    ensures AllApart(fewer, cidrs)
  {
    forall i | 0 <= i < |cidrs| ensures Apart(fewer, cidrs[i]) {
      forall j | 0 <= j < |fewer| ensures fewer[j].Block? && !ShareAddress(fewer[j].net, cidrs[i].net) {
        var k :| 0 <= k < |list| && list[k] == fewer[j];
        assert Apart(list, cidrs[i]);
      }
    }
  }

  lemma LegalPrefix(config: Config, events: seq<Event>)
    requires Legal(config, events) && events != []
    ensures Legal(config, events[..|events| - 1])
    ensures Enabled(config, Run(config, events[..|events| - 1]), events[|events| - 1])
  {
    var before := events[..|events| - 1];
    forall k | 0 <= k < |before| ensures Enabled(config, Run(config, before[..k]), before[k]) {
      assert before[..k] == events[..k];
    }
  }

  /** At some moment of the run e was accepted while its cluster declared, for each of its subnets,
      a block that covers it. */
  ghost predicate WasDeclared(config: Config, events: seq<Event>, e: Endpoint) {
    exists k :: 0 <= k < |events| && events[k].SyncRemote? && events[k].e == e
      && DeclaredIn(Run(config, events[..k]).clusters, e)
  }

  ghost predicate DeclaredIn(clusters: seq<Cluster>, e: Endpoint) {
    exists c :: c in clusters && c.clusterID == e.clusterID
      && forall i :: 0 <= i < |e.subnets| ==> InsideOneOf(c.Declared(), e.subnets[i])
  }

  ghost predicate InsideOneOf(outers: seq<Cidr>, inner: Cidr) {
    inner.Block? && exists i :: 0 <= i < |outers| && outers[i].Block? && Within(inner.net, outers[i].net)
  }

  lemma {:induction false} FindClusterFinds(clusters: seq<Cluster>, id: string)
    ensures FindCluster(clusters, id) != [] ==>
      FindCluster(clusters, id)[0] in clusters && FindCluster(clusters, id)[0].clusterID == id
    ensures FindCluster(clusters, id) == [] <==> forall c :: c in clusters ==> c.clusterID != id
  {
    if clusters != [] { FindClusterFinds(clusters[1..], id); }
  }

  lemma AcceptedIsDeclared(config: Config, clusters: seq<Cluster>, listing: seq<Endpoint>, e: Endpoint)
    requires config.started && e.subnets != [] && Decided(config, clusters, listing, e).Accept?
    ensures DeclaredIn(clusters, e)
  {
    FindClusterFinds(clusters, e.clusterID);
    var c := FindCluster(clusters, e.clusterID)[0];
    forall i | 0 <= i < |e.subnets| ensures InsideOneOf(c.Declared(), e.subnets[i]) {
      assert Contained(c.Declared(), e.subnets[i]) == Ok(true);
      ContainedMeaning(c.Declared(), e.subnets[i]);
      var j :| CoveredBy(c.Declared(), j, e.subnets[i].net);
      assert c.Declared()[j].Block? && Within(e.subnets[i].net, c.Declared()[j].net);
    }
  }

  lemma WasDeclaredEarlier(config: Config, events: seq<Event>, e: Endpoint)
    requires events != [] && WasDeclared(config, events[..|events| - 1], e)
    ensures WasDeclared(config, events, e)
  {
    var before := events[..|events| - 1];
    var j :| 0 <= j < |before| && before[j].SyncRemote? && before[j].e == e
      && DeclaredIn(Run(config, before[..j]).clusters, e);
    assert before[..j] == events[..j] && events[j] == before[j];
  }

  /** Every stored remote endpoint with subnets lay inside its cluster's declared CIDRs when it was
      accepted. */
  lemma {:induction false} StoredWereDeclared(config: Config, events: seq<Event>)
    requires config.started && Legal(config, events)
    ensures forall n :: n in Run(config, events).store ==>
      var e := Run(config, events).store[n];
      e.clusterID == config.localClusterID || e.subnets == [] || WasDeclared(config, events, e)
  {
    if events != [] {
      var k := |events| - 1;
      var before, event := events[..k], events[k];
      var s, t := Run(config, before), Run(config, events);
      LegalPrefix(config, events);
      StoredWereDeclared(config, before);
      forall n | n in t.store && t.store[n].clusterID != config.localClusterID && t.store[n].subnets != []
        ensures WasDeclared(config, events, t.store[n])
      {
        var e := t.store[n];
        if n in s.store && s.store[n] == e {
          WasDeclaredEarlier(config, events, e);
        } else {
          AcceptedIsDeclared(config, s.clusters, event.listing, e);
          assert events[k].SyncRemote? && events[k].e == e && DeclaredIn(Run(config, events[..k]).clusters, e);
        }
      }
    }
  }

  // ----- what the store holds -----

  /** The clusters of the last time they were synced. */
  function LatestClusters(events: seq<Event>): seq<Cluster> {
    if events == [] then []
    else
      var e := events[|events| - 1];
      if e.SyncClusters? then e.clusters else LatestClusters(events[..|events| - 1])
  }

  /** The event is about the resource of this name. */
  predicate IsAbout(e: Event, name: string) {
    match e
    case SyncRemote(x, _) => x.name == name
    case PublishLocal(x) => x.name == name
    case Delete(n) => n == name
    case SyncClusters(_) => false
  }

  /** A decision uses the clusters last synced, and the store holds under a name what the last event about it
      that took effect put there: nothing after a deletion, and what it held before after a rejection. */
  lemma StoreIsUpToDate(config: Config, events: seq<Event>, e: Event, name: string)
    ensures Run(config, events).clusters == LatestClusters(events)
    ensures var s := Run(config, events);
      var s' := Step(config, s, e);
      && (!IsAbout(e, name) ==>
            (name in s'.store <==> name in s.store) && (name in s.store ==> s'.store[name] == s.store[name]))
      && (e.Delete? ==> e.name !in s'.store)
      && (e.PublishLocal? ==> e.e.name in s'.store && s'.store[e.e.name] == e.e)
      && (e.SyncRemote? && Decided(config, LatestClusters(events), e.listing, e.e) == Accept ==>
            e.e.name in s'.store && s'.store[e.e.name] == e.e)
      && (e.SyncRemote? && Decided(config, LatestClusters(events), e.listing, e.e) != Accept ==> s' == s)
  {
    ClustersAreLatest(config, events);
  }

  lemma {:induction false} ClustersAreLatest(config: Config, events: seq<Event>)
    ensures Run(config, events).clusters == LatestClusters(events)
  {
    if events != [] {
      ClustersAreLatest(config, events[..|events| - 1]);
    }
  }
}
