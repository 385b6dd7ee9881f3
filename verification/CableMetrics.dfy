/** The cable metrics of pkg/cable/metrics.go: an index of recorded cables and the gauges that must
    agree with it, also at every moment a scrape can look. */
module CableMetrics {
  import opened Endpoints
  import opened IPFamilies

  /** The seven labels; `cableDriver` and `remoteCluster` are the ones the index keys by. */
  datatype Labels = Labels(cableDriver: string, localCluster: string, localHostname: string, localEndpointIP: IP,
                           remoteCluster: string, remoteHostname: string, remoteEndpointIP: IP)

  datatype CableStatus = CableStatus(labels: Labels, status: string, cableName: string)

  datatype ShortKey = ShortKey(cableDriver: string, status: string)

  /** A series of the connections gauge: the labels and the status label. */
  datatype Series = Series(labels: Labels, status: string)

  /** The index key joins driver, remote cluster and family with slashes. */
  function CableKey(cableDriver: string, remoteCluster: string, family: Family): string {
    cableDriver + "/" + remoteCluster + "/" + Text(family)
  }

  function GetLabels(cableDriver: string, local: EndpointSpec, remote: EndpointSpec, family: Family): Labels {
    Labels(cableDriver, local.clusterID, local.hostname, local.GetPublicIP(family),
           remote.clusterID, remote.hostname, remote.GetPublicIP(family))
  }

  /** What a scrape sees. */
  datatype Gauges = Gauges(connections: set<Series>, short: map<ShortKey, nat>)

  /** The gauges that carry the labels alone. */
  datatype LabelGauges = LabelGauges(established: map<Labels, int>, latency: map<Labels, real>,
                                     rx: map<Labels, int>, tx: map<Labels, int>) {
    function Without(gone: set<Labels>): LabelGauges {
      LabelGauges(established - gone, latency - gone, rx - gone, tx - gone)
    }
  }

  type Index = map<string, CableStatus>

  function ShortKeyOf(c: CableStatus): ShortKey {
    ShortKey(c.labels.cableDriver, c.status)
  }

  // ----- what the gauges are meant to say -----

  ghost function RecordedSeries(index: Index): set<Series> {
    set key | key in index :: Series(index[key].labels, index[key].status)
  }

  ghost function WithShortKey(index: Index, short: ShortKey): set<string> {
    set key | key in index && ShortKeyOf(index[key]) == short
  }

  /** Every summary series counts the cables with its driver and status; there is none for zero. */
  ghost predicate Counts(index: Index, short: map<ShortKey, nat>) {
    && (forall k :: k in short ==> short[k] == |WithShortKey(index, k)| > 0)
    && (forall key :: key in index ==> ShortKeyOf(index[key]) in short)
  }

  ghost predicate Agrees(index: Index, gauges: Gauges) {
    gauges.connections == RecordedSeries(index) && Counts(index, gauges.short)
  }

  lemma CountsUnique(index: Index, a: map<ShortKey, nat>, b: map<ShortKey, nat>)
    requires Counts(index, a) && Counts(index, b)
    ensures a == b
  {
    forall k | k in a ensures k in b && b[k] == a[k] {
      NonEmptyHasMember(WithShortKey(index, k));
    }
    forall k | k in b ensures k in a {
      NonEmptyHasMember(WithShortKey(index, k));
    }
  }

  /** The summary depends on the recorded cables alone, not on the order in which the maps were walked
      nor on the calls that led there. */
  lemma SameIndexSameSummary(a: Metrics, b: Metrics)
    requires a.Valid() && b.Valid() && a.cableStatuses == b.cableStatuses
    ensures a.shortConnectionsGauge == b.shortConnectionsGauge
  {
    CountsUnique(a.cableStatuses, a.shortConnectionsGauge, b.shortConnectionsGauge);
  }

  lemma NonEmptyHasMember<T>(s: set<T>)
    ensures |s| > 0 <==> exists x :: x in s
  {
    if |s| > 0 { var x :| x in s; }
  }

  /** What a scrape reads in the summary: for a driver and a status the number of its recorded cables, and no
      series where there is none. */
  lemma SummaryCounts(index: Index, short: map<ShortKey, nat>, driver: string, status: string)
    requires Counts(index, short)
    ensures var cables :=
      set key | key in index && index[key].labels.cableDriver == driver && index[key].status == status;
      && (ShortKey(driver, status) in short <==> cables != {})
      && (cables != {} ==> short[ShortKey(driver, status)] == |cables|)
  {
    var cables := set key | key in index && index[key].labels.cableDriver == driver && index[key].status == status;
    assert WithShortKey(index, ShortKey(driver, status)) == cables;
  }

  // ----- the two calls, on values -----

  datatype State = State(index: Index, connections: set<Series>)

  datatype Call =
    | Connection(driver: string, local: EndpointSpec, remote: EndpointSpec, family: Family, status: string)
    | Disconnected(driver: string, local: EndpointSpec, remote: EndpointSpec, family: Family)
  {
    function Labels(): Labels {
      GetLabels(driver, local, remote, family)
    }

    function Key(): string {
      CableKey(driver, remote.clusterID, family)
    }
  }

  /** Which series of the connections gauge a call deletes. */
  datatype Deletion = Nothing | One(series: Series) | Every(labels: Labels) {
    predicate Hits(s: Series) {
      match this
      case Nothing => false
      case One(series) => s == series
      case Every(labels) => s.labels == labels
    }
  }

  /** The labels whose latency, establishment and traffic series a deletion takes with it. */
  function Dropped(deletion: Deletion): set<Labels> {
    if deletion.Every? then {deletion.labels} else {}
  }

  function DeletionOf(index: Index, call: Call): Deletion {
    var key, labels := call.Key(), call.Labels();
    if call.Connection? then
      if key !in index then Nothing
      else
        var previous := index[key];
        if previous.labels != labels then Every(previous.labels)
        else if previous.status != call.status then One(Series(previous.labels, previous.status))
        else Nothing
    else if key in index && (index[key].cableName != call.remote.cableName || index[key].labels != labels) then Nothing
    else Every(labels)
  }

  function IndexAfter(index: Index, call: Call): Index {
    var key, labels := call.Key(), call.Labels();
    if call.Connection? then index[key := CableStatus(labels, call.status, call.remote.cableName)]
    else if key in index && (index[key].cableName != call.remote.cableName || index[key].labels != labels) then index
    else index - {key}
  }

  function Without(connections: set<Series>, deletion: Deletion): set<Series> {
    set s | s in connections && !deletion.Hits(s)
  }

  function After(s: State, call: Call): State {
    var added := if call.Connection? then {Series(call.Labels(), call.status)} else {};
    State(IndexAfter(s.index, call), Without(s.connections + added, DeletionOf(s.index, call)))
  }

  /** A cable recorded before and after is shown under one of its two series. */
  ghost predicate StillShown(before: Index, after: Index, connections: set<Series>) {
    forall key :: key in before && key in after ==>
      Series(before[key].labels, before[key].status) in connections
        || Series(after[key].labels, after[key].status) in connections
  }

  // ----- the metrics -----

  class Metrics {
    var cableStatuses: Index
    var publishedShortConnections: map<ShortKey, nat>
    var connectionsGauge: set<Series>
    var shortConnectionsGauge: map<ShortKey, nat>
    var established: map<Labels, int>
    var latency: map<Labels, real>
    var rx: map<Labels, int>
    var tx: map<Labels, int>
    /** What the gauges showed after each single write, oldest first. */
    ghost var scrapes: seq<Gauges>

    ghost function Shown(): Gauges
      reads this
    {
      Gauges(connectionsGauge, shortConnectionsGauge)
    }

    ghost function OfLabels(): LabelGauges
      reads this
    {
      LabelGauges(established, latency, rx, tx)
    }

    ghost predicate Valid()
      reads this
    {
      publishedShortConnections == shortConnectionsGauge && Counts(cableStatuses, shortConnectionsGauge)
    }

    constructor ()
      ensures Valid() && cableStatuses == map[] && Agrees(cableStatuses, Shown()) && scrapes == []
    {
      cableStatuses, publishedShortConnections, connectionsGauge, shortConnectionsGauge := map[], map[], {}, map[];
      established, latency, rx, tx, scrapes := map[], map[], map[], map[], [];
    }

    // ----- the summary gauge -----

    /** Counts the recorded cables per driver and status, in whatever order the map is walked. */
    method CountConnections() returns (counts: map<ShortKey, nat>)
      ensures Counts(cableStatuses, counts)
    {
      counts := map[];
      var todo := cableStatuses.Keys;
      ghost var done: Index := map[];
      while todo != {}
        invariant todo <= cableStatuses.Keys
        invariant done == map key | key in cableStatuses && key !in todo :: cableStatuses[key]
        invariant Counts(done, counts)
        decreases todo
      {
        var key :| key in todo;
        var short := ShortKeyOf(cableStatuses[key]);
        CountOneMore(done, counts, key, cableStatuses[key]);
        counts := counts[short := (if short in counts then counts[short] else 0) + 1];
        todo := todo - {key};
        done := done[key := cableStatuses[key]];
      }
      assert done == cableStatuses;
    }

    /** Sets every count in place. */
    method SetCounts(counts: map<ShortKey, nat>)
      modifies this`shortConnectionsGauge, this`scrapes
      ensures shortConnectionsGauge == old(shortConnectionsGauge) + counts
      ensures old(scrapes) <= scrapes
      ensures ShowBetween(scrapes[|old(scrapes)|..], connectionsGauge, old(shortConnectionsGauge), counts)
    {
      ghost var before := shortConnectionsGauge;
      var todo := counts.Keys;
      while todo != {}
        invariant todo <= counts.Keys
        invariant shortConnectionsGauge == before + (counts - todo)
        invariant old(scrapes) <= scrapes
        invariant ShowBetween(scrapes[|old(scrapes)|..], connectionsGauge, before, counts)
        decreases todo
      {
        var key :| key in todo;
        shortConnectionsGauge := shortConnectionsGauge[key := counts[key]];
        todo := todo - {key};
        assert shortConnectionsGauge == before + (counts - todo);
        scrapes := scrapes + [Shown()];
      }
      assert counts - {} == counts;
    }

    /** Deletes the published series that no longer apply. */
    method DeleteStale(counts: map<ShortKey, nat>, ghost before: map<ShortKey, nat>)
      requires publishedShortConnections == before && shortConnectionsGauge == before + counts
      modifies this`shortConnectionsGauge, this`scrapes
      ensures shortConnectionsGauge == counts
      ensures old(scrapes) <= scrapes
      ensures ShowBetween(scrapes[|old(scrapes)|..], connectionsGauge, before, counts)
    {
      var todo := publishedShortConnections.Keys;
      ghost var gone: set<ShortKey> := {};
      while todo != {}
        invariant todo <= before.Keys && gone == before.Keys - counts.Keys - todo
        invariant shortConnectionsGauge == (before + counts) - gone
        invariant old(scrapes) <= scrapes
        invariant ShowBetween(scrapes[|old(scrapes)|..], connectionsGauge, before, counts)
        decreases todo
      {
        var key :| key in todo;
        todo := todo - {key};
        if key !in counts {
          shortConnectionsGauge := shortConnectionsGauge - {key};
          gone := gone + {key};
          assert shortConnectionsGauge == (before + counts) - gone;
          scrapes := scrapes + [Shown()];
        }
      }
    }

    /** Publishes new counts: series that still apply are set before stale ones are deleted. */
    method RecordShortConnections()
      requires publishedShortConnections == shortConnectionsGauge
      modifies this`shortConnectionsGauge, this`publishedShortConnections, this`scrapes
      ensures Valid()
      ensures old(scrapes) <= scrapes
      ensures ShowBetween(scrapes[|old(scrapes)|..], connectionsGauge, old(shortConnectionsGauge),
        shortConnectionsGauge)
    {
      var counts := CountConnections();
      ghost var before := shortConnectionsGauge;
      SetCounts(counts);
      ghost var half := scrapes;
      DeleteStale(counts, before);
      assert scrapes[|old(scrapes)|..] == half[|old(scrapes)|..] + scrapes[|half|..];
      publishedShortConnections := counts;
    }

    // ----- the index -----

    /** Returns the status it replaced and whether anything changed; nothing recorded yet is None. */
    method SetCableStatus(key: string, current: CableStatus) returns (previous: seq<CableStatus>, changed: bool)
      requires Valid()
      modifies this`cableStatuses, this`shortConnectionsGauge, this`publishedShortConnections, this`scrapes
      ensures Valid()
      ensures cableStatuses == old(cableStatuses)[key := current]
      ensures changed
        <==> key !in old(cableStatuses) || old(cableStatuses)[key].(cableName := current.cableName) != current
      ensures changed ==> previous == if key in old(cableStatuses) then [old(cableStatuses)[key]] else []
      ensures old(scrapes) <= scrapes
      ensures ShowBetween(scrapes[|old(scrapes)|..], connectionsGauge, old(shortConnectionsGauge),
        shortConnectionsGauge)
    {
      var exists' := key in cableStatuses;
      previous := if exists' then [cableStatuses[key]] else [];
      cableStatuses := cableStatuses[key := current];
      if exists' && previous[0].status == current.status && previous[0].labels == current.labels {
        RenameKeepsCounts(old(cableStatuses), shortConnectionsGauge, key, current);
        return [], false;
      }
      RecordShortConnections();
      return previous, true;
    }

    /** Reports whether the series of the cable should go. */
    method DeleteCableStatus(key: string, cableName: string, labels: Labels) returns (remove: bool)
      requires Valid()
      modifies this`cableStatuses, this`shortConnectionsGauge, this`publishedShortConnections, this`scrapes
      ensures Valid()
      ensures remove <==> (key in old(cableStatuses) ==>
        old(cableStatuses)[key].cableName == cableName && old(cableStatuses)[key].labels == labels)
      ensures cableStatuses == if remove then old(cableStatuses) - {key} else old(cableStatuses)
      ensures old(scrapes) <= scrapes
      ensures ShowBetween(scrapes[|old(scrapes)|..], connectionsGauge, old(shortConnectionsGauge),
        shortConnectionsGauge)
    {
      if key !in cableStatuses {
        return true;
      }
      var existing := cableStatuses[key];
      if existing.cableName != cableName || existing.labels != labels {
        return false;
      }
      cableStatuses := cableStatuses - {key};
      RecordShortConnections();
      return true;
    }

    // ----- the public calls -----

    method DeleteSeries(deletion: Deletion)
      modifies this`connectionsGauge, this`scrapes
      ensures connectionsGauge == Without(old(connectionsGauge), deletion)
      ensures scrapes == old(scrapes) + [Shown()]
    {
      connectionsGauge := set s | s in connectionsGauge && !deletion.Hits(s);
      scrapes := scrapes + [Shown()];
    }

    method RemoveCableMetrics(labels: Labels)
      modifies this`connectionsGauge, this`scrapes, this`established, this`latency, this`rx, this`tx
      ensures connectionsGauge == Without(old(connectionsGauge), Every(labels))
      ensures scrapes == old(scrapes) + [Shown()]
      ensures OfLabels() == old(OfLabels()).Without({labels})
    {
      latency := latency - {labels};
      established := established - {labels};
      rx := rx - {labels};
      tx := tx - {labels};
      DeleteSeries(Every(labels));
    }

    ghost function Value(): State
      reads this
    {
      State(cableStatuses, connectionsGauge)
    }

    /** Shows the current series of a cable before anything of the previous one is deleted. */
    method ReplaceSeries(labels: Labels, status: string, previous: seq<CableStatus>, changed: bool)
      requires |previous| <= 1
      modifies this`connectionsGauge, this`scrapes, this`established, this`latency, this`rx, this`tx
      ensures connectionsGauge
        == Without(old(connectionsGauge) + {Series(labels, status)}, Replaced(previous, changed, labels))
      ensures OfLabels() == old(OfLabels()).Without(Dropped(Replaced(previous, changed, labels)))
      ensures old(scrapes) <= scrapes
      ensures Shows(scrapes[|old(scrapes)|..], shortConnectionsGauge,
        {old(connectionsGauge) + {Series(labels, status)}, connectionsGauge})
    {
      connectionsGauge := connectionsGauge + {Series(labels, status)};
      scrapes := scrapes + [Shown()];
      if !changed || previous == [] {
        WithoutNothing(connectionsGauge, OfLabels());
        return;
      }
      if previous[0].labels == labels {
        DeleteSeries(One(Series(previous[0].labels, previous[0].status)));
      } else {
        RemoveCableMetrics(previous[0].labels);
      }
    }

    method RecordConnection(driver: string, local: EndpointSpec, remote: EndpointSpec, status: string, isNew: bool,
                            family: Family, now: int)
      requires Valid()
      modifies this
      ensures Valid()
      ensures Value() == After(old(Value()), Connection(driver, local, remote, family, status))
      ensures var call := Connection(driver, local, remote, family, status);
        var gone := Dropped(DeletionOf(old(cableStatuses), call));
        var started := if isNew then old(established)[call.Labels() := now] else old(established);
        OfLabels() == old(OfLabels()).(established := started).Without(gone)
      ensures old(scrapes) <= scrapes
      ensures InStages(scrapes[|old(scrapes)|..], old(Shown()), Shown(),
        Series(GetLabels(driver, local, remote, family), status))
    {
      ghost var call := Connection(driver, local, remote, family, status);
      var labels := GetLabels(driver, local, remote, family);
      if isNew {
        established := established[labels := now];
      }
      var previous, changed :=
        SetCableStatus(CableKey(driver, remote.clusterID, family), CableStatus(labels, status, remote.cableName));
      ghost var half := scrapes;
      assert changed ==> |previous| <= 1;
      previous := if changed then previous else [];
      ReplaceSeries(labels, status, previous, changed);
      ReplacedIsDeletion(old(cableStatuses), call, previous, changed);
      JoinStages(old(scrapes), half, scrapes, old(Shown()), Shown(), Series(labels, status));
    }

    method RecordDisconnected(driver: string, local: EndpointSpec, remote: EndpointSpec, family: Family)
      requires Valid()
      modifies this
      ensures Valid()
      ensures Value() == After(old(Value()), Disconnected(driver, local, remote, family))
      ensures var call := Disconnected(driver, local, remote, family);
        OfLabels() == old(OfLabels()).Without(Dropped(DeletionOf(old(cableStatuses), call)))
      ensures old(scrapes) <= scrapes
      ensures Moves(scrapes[|old(scrapes)|..], old(Shown()), Shown())
    {
      ghost var call := Disconnected(driver, local, remote, family);
      var labels := GetLabels(driver, local, remote, family);
      var remove := DeleteCableStatus(CableKey(driver, remote.clusterID, family), remote.cableName, labels);
      ghost var half := scrapes;
      DisconnectedAfter(old(Value()), call, remove);
      RemoveWhen(remove, labels);
      JoinMoves(old(scrapes), half, scrapes, old(Shown()), Shown());
    }

    method RemoveWhen(remove: bool, labels: Labels)
      modifies this`connectionsGauge, this`scrapes, this`established, this`latency, this`rx, this`tx
      ensures connectionsGauge == Without(old(connectionsGauge), if remove then Every(labels) else Nothing)
      ensures OfLabels() == old(OfLabels()).Without(if remove then {labels} else {})
      ensures old(scrapes) <= scrapes
      ensures Shows(scrapes[|old(scrapes)|..], shortConnectionsGauge, {connectionsGauge})
    {
      if remove {
        RemoveCableMetrics(labels);
      } else {
        WithoutNothing(connectionsGauge, OfLabels());
      }
    }
  }

  function Replaced(previous: seq<CableStatus>, changed: bool, labels: Labels): Deletion {
    if !changed || previous == [] then Nothing
    else if previous[0].labels == labels then One(Series(previous[0].labels, previous[0].status))
    else Every(previous[0].labels)
  }

  ghost predicate Shows(scrapes: seq<Gauges>, short: map<ShortKey, nat>, connections: set<set<Series>>) {
    forall i :: 0 <= i < |scrapes| ==> scrapes[i].short == short && scrapes[i].connections in connections
  }

  /** Every scrape shows the old or the new connections, with the summary on its way between them. */
  ghost predicate Moves(scrapes: seq<Gauges>, before: Gauges, after: Gauges) {
    forall i :: 0 <= i < |scrapes| ==>
      scrapes[i].connections in {before.connections, after.connections}
        && Between(before.short, after.short, scrapes[i].short)
  }

  /** As Moves, with the new series added before anything is deleted. */
  ghost predicate InStages(scrapes: seq<Gauges>, before: Gauges, after: Gauges, added: Series) {
    forall i :: 0 <= i < |scrapes| ==>
      scrapes[i].connections in {before.connections, before.connections + {added}, after.connections}
      && Between(before.short, after.short, scrapes[i].short)
  }

  lemma RenameKeepsCounts(index: Index, short: map<ShortKey, nat>, key: string, c: CableStatus)
    requires Counts(index, short) && key in index && index[key].labels == c.labels && index[key].status == c.status
    ensures Counts(index[key := c], short)
  {
    var index' := index[key := c];
    forall k ensures WithShortKey(index', k) == WithShortKey(index, k) {
    }
  }

  lemma WithoutNothing(connections: set<Series>, gauges: LabelGauges)
    ensures Without(connections, Nothing) == connections && gauges.Without({}) == gauges
  {
  }

  lemma DisconnectedAfter(s: State, call: Call, remove: bool)
    requires call.Disconnected?
    requires remove <==> (call.Key() in s.index ==>
      s.index[call.Key()].cableName == call.remote.cableName && s.index[call.Key()].labels == call.Labels())
    ensures After(s, call) == State(if remove then s.index - {call.Key()} else s.index,
                                    Without(s.connections, if remove then Every(call.Labels()) else Nothing))
    ensures DeletionOf(s.index, call) == if remove then Every(call.Labels()) else Nothing
  {
    assert s.connections + {} == s.connections;
  }

  lemma ReplacedIsDeletion(index: Index, call: Call, previous: seq<CableStatus>, changed: bool)
    requires call.Connection?
    requires var current := CableStatus(call.Labels(), call.status, call.remote.cableName);
      changed <==> call.Key() !in index || index[call.Key()].(cableName := current.cableName) != current
    requires changed ==> previous == if call.Key() in index then [index[call.Key()]] else []
    ensures Replaced(previous, changed, call.Labels()) == DeletionOf(index, call)
  {
  }

  lemma JoinStages(first: seq<Gauges>, half: seq<Gauges>, last: seq<Gauges>, before: Gauges, after: Gauges,
                   added: Series)
    requires first <= half <= last
    requires ShowBetween(half[|first|..], before.connections, before.short, after.short)
    requires Shows(last[|half|..], after.short, {before.connections + {added}, after.connections})
    ensures InStages(last[|first|..], before, after, added)
  {
    assert last[|first|..] == half[|first|..] + last[|half|..];
  }

  lemma JoinMoves(first: seq<Gauges>, half: seq<Gauges>, last: seq<Gauges>, before: Gauges, after: Gauges)
    requires first <= half <= last
    requires ShowBetween(half[|first|..], before.connections, before.short, after.short)
    requires Shows(last[|half|..], after.short, {after.connections})
    ensures Moves(last[|first|..], before, after)
  {
    assert last[|first|..] == half[|first|..] + last[|half|..];
  }

  ghost predicate ShowBetween(scrapes: seq<Gauges>, connections: set<Series>, before: map<ShortKey, nat>,
                              after: map<ShortKey, nat>) {
    forall i :: 0 <= i < |scrapes| ==> scrapes[i].connections == connections && Between(before, after, scrapes[i].short)
  }

  /** A summary gauge half way from `before` to `after`: no series that both have is missing, and
      every series has one of its two values. */
  ghost predicate Between(before: map<ShortKey, nat>, after: map<ShortKey, nat>, now: map<ShortKey, nat>) {
    && before.Keys * after.Keys <= now.Keys <= before.Keys + after.Keys
    && forall k :: k in now ==> (k in before && now[k] == before[k]) || (k in after && now[k] == after[k])
  }

  lemma WithShortKeyGrows(index: Index, key: string, c: CableStatus, k: ShortKey)
    requires key !in index
    ensures WithShortKey(index[key := c], k) == if k == ShortKeyOf(c) then WithShortKey(index, k) + {key}
      else WithShortKey(index, k)
  {
  }

  lemma CountOneMore(index: Index, counts: map<ShortKey, nat>, key: string, c: CableStatus)
    requires key !in index && Counts(index, counts)
    ensures var short := ShortKeyOf(c);
      Counts(index[key := c], counts[short := (if short in counts then counts[short] else 0) + 1])
  {
    var short, index' := ShortKeyOf(c), index[key := c];
    var counts' := counts[short := (if short in counts then counts[short] else 0) + 1];
    forall k | k in counts' ensures counts'[k] == |WithShortKey(index', k)| {
      WithShortKeyGrows(index, key, c, k);
      if k == short && short !in counts { NonEmptyHasMember(WithShortKey(index, short)); }
    }
    forall x | x in index' ensures ShortKeyOf(index'[x]) in counts' {
    }
  }

  // ----- agreement -----

  ghost predicate ConnectionsAgree(s: State) {
    s.connections == RecordedSeries(s.index)
  }

  /** The cable recorded under another key loses its series: it carries the labels that are
      disconnected, the labels that are replaced, or the same labels with the status that is left. */
  predicate LosesSeries(index: Index, call: Call, key: string)
    requires key in index
  {
    var own, other := call.Key(), index[key];
    if call.Disconnected? then
      && other.labels == call.Labels()
      && (own in index ==> index[own].cableName == call.remote.cableName && index[own].labels == call.Labels())
    else
      && own in index && other.labels == index[own].labels
      && (index[own].labels != call.Labels() || (index[own].status != call.status && other.status == index[own].status))
  }

  /** A call deletes a series of a cable other than its own. */
  ghost predicate Collides(s: State, call: Call) {
    exists key :: key in s.index && key != call.Key() && LosesSeries(s.index, call, key)
  }

  lemma LosesWhenHit(index: Index, call: Call, key: string)
    requires key in index
    ensures LosesSeries(index, call, key)
      <==> DeletionOf(index, call).Hits(Series(index[key].labels, index[key].status))
  {
  }

  /** From agreement, a call ends in agreement exactly when it deletes no other cable's series. */
  lemma AgreementKeptIff(s: State, call: Call)
    requires ConnectionsAgree(s)
    ensures ConnectionsAgree(After(s, call)) <==> !Collides(s, call)
  {
    var t := After(s, call);
    if !Collides(s, call) {
      SeriesShown(s, call);
      forall x | x in t.connections ensures x in RecordedSeries(t.index) {
        if x in s.connections {
          var key :| key in s.index && x == Series(s.index[key].labels, s.index[key].status);
          LosesWhenHit(s.index, call, key);
          assert key in t.index && t.index[key].labels == x.labels && t.index[key].status == x.status;
        } else {
          assert call.Key() in t.index;
        }
      }
    } else {
      var key :| key in s.index && key != call.Key() && LosesSeries(s.index, call, key);
      LosesWhenHit(s.index, call, key);
      assert key in t.index && t.index[key] == s.index[key];
      assert Series(t.index[key].labels, t.index[key].status) in RecordedSeries(t.index);
    }
  }

  lemma SeriesShown(s: State, call: Call)
    requires ConnectionsAgree(s) && !Collides(s, call)
    ensures RecordedSeries(After(s, call).index) <= After(s, call).connections
  {
    var t := After(s, call);
    forall key | key in t.index ensures Series(t.index[key].labels, t.index[key].status) in t.connections {
      if key != call.Key() {
        LosesWhenHit(s.index, call, key);
        assert Series(s.index[key].labels, s.index[key].status) in s.connections;
      } else if call.Disconnected? {
        assert Series(s.index[key].labels, s.index[key].status) in s.connections;
      }
    }
  }

  /** A cable that stays recorded is shown at every stage of a call. */
  lemma NeverMissing(s: State, call: Call, stage: set<Series>)
    requires ConnectionsAgree(s) && !Collides(s, call)
    requires s.connections <= stage || stage == After(s, call).connections
    ensures StillShown(s.index, After(s, call).index, stage)
  {
    SeriesShown(s, call);
    forall key | key in s.index ensures Series(s.index[key].labels, s.index[key].status) in s.connections {}
  }

  // ----- whole runs -----

  function Run(calls: seq<Call>): State {
    if calls == [] then State(map[], {}) else After(Run(calls[..|calls| - 1]), calls[|calls| - 1])
  }

  /** The labels of a cable tell its address family, as they do when its endpoints publish different
      addresses for the two families. */
  ghost predicate LabelsTellFamily(calls: seq<Call>) {
    forall i, j :: 0 <= i < |calls| && 0 <= j < |calls| && calls[i].Labels() == calls[j].Labels() ==>
      calls[i].family == calls[j].family
  }

  ghost predicate CameFrom(calls: seq<Call>, key: string, labels: Labels) {
    exists i :: 0 <= i < |calls| && calls[i].Key() == key && calls[i].Labels() == labels
  }

  lemma {:induction false} EntriesCameFromCalls(calls: seq<Call>)
    ensures forall key :: key in Run(calls).index ==> CameFrom(calls, key, Run(calls).index[key].labels)
  {
    if calls != [] {
      var n := |calls| - 1;
      var before := calls[..n];
      EntriesCameFromCalls(before);
      var s, t := Run(before), Run(calls);
      forall key | key in t.index ensures CameFrom(calls, key, t.index[key].labels) {
        if key in s.index && s.index[key] == t.index[key] {
          var i :| 0 <= i < |before| && before[i].Key() == key && before[i].Labels() == s.index[key].labels;
          assert calls[i] == before[i];
        } else {
          assert calls[n].Key() == key && calls[n].Labels() == t.index[key].labels;
        }
      }
    }
  }

  lemma DeletionCameFromCalls(calls: seq<Call>, n: nat)
    requires n < |calls|
    ensures var d := DeletionOf(Run(calls[..n]).index, calls[n]);
      d.One? ==> CameFrom(calls, calls[n].Key(), d.series.labels)
    ensures var d := DeletionOf(Run(calls[..n]).index, calls[n]);
      d.Every? ==> CameFrom(calls, calls[n].Key(), d.labels)
  {
    DeletedLabels(Run(calls[..n]).index, calls[n]);
    RecordedCameFromCalls(calls, n);
    assert CameFrom(calls, calls[n].Key(), calls[n].Labels());
  }

  /** A deletion is of the labels recorded under the key, or of the call's own. */
  lemma DeletedLabels(index: Index, call: Call)
    ensures var d, key := DeletionOf(index, call), call.Key();
      && (d.One? ==> key in index && d.series.labels == index[key].labels)
      && (d.Every? ==> d.labels == call.Labels() || (key in index && d.labels == index[key].labels))
  {
  }

  lemma RecordedCameFromCalls(calls: seq<Call>, n: nat)
    requires n < |calls|
    ensures var index, key := Run(calls[..n]).index, calls[n].Key();
      key in index ==> CameFrom(calls, key, index[key].labels)
  {
    EntriesCameFromCalls(calls[..n]);
    var index, key := Run(calls[..n]).index, calls[n].Key();
    if key in index {
      var i :| 0 <= i < n && calls[..n][i].Key() == key && calls[..n][i].Labels() == index[key].labels;
      assert calls[i] == calls[..n][i];
    }
  }

  /** When labels tell families, no call of the run deletes another cable's series. */
  lemma RunsDoNotCollide(calls: seq<Call>, n: nat)
    requires LabelsTellFamily(calls) && n < |calls|
    ensures !Collides(Run(calls[..n]), calls[n])
  {
    var s, call := Run(calls[..n]), calls[n];
    var d := DeletionOf(s.index, call);
    DeletionCameFromCalls(calls, n);
    EntriesCameFromCalls(calls[..n]);
    forall key | key in s.index && LosesSeries(s.index, call, key) ensures key == call.Key() {
      LosesWhenHit(s.index, call, key);
      var i :| 0 <= i < n && calls[..n][i].Key() == key && calls[..n][i].Labels() == s.index[key].labels;
      var j :| 0 <= j < |calls| && calls[j].Key() == call.Key() && calls[j].Labels() == s.index[key].labels;
      assert calls[i] == calls[..n][i];
      SameKey(calls[i], calls[j]);
    }
  }

  lemma SameKey(a: Call, b: Call)
    requires a.Labels() == b.Labels() && a.family == b.family
    ensures a.Key() == b.Key()
  {
  }

  lemma LabelsTellFamilyPrefix(calls: seq<Call>, n: nat)
    requires LabelsTellFamily(calls) && n <= |calls|
    ensures LabelsTellFamily(calls[..n])
  {
    forall i, j | 0 <= i < n && 0 <= j < n && calls[..n][i].Labels() == calls[..n][j].Labels()
      ensures calls[..n][i].family == calls[..n][j].family
    {
      assert calls[..n][i] == calls[i] && calls[..n][j] == calls[j];
    }
  }

  /** After every run the connection series are exactly those of the recorded cables. */
  lemma {:induction false} GaugesAlwaysAgree(calls: seq<Call>)
    requires LabelsTellFamily(calls)
    ensures ConnectionsAgree(Run(calls))
  {
    if calls != [] {
      var n := |calls| - 1;
      LabelsTellFamilyPrefix(calls, n);
      GaugesAlwaysAgree(calls[..n]);
      RunsDoNotCollide(calls, n);
      AgreementKeptIff(Run(calls[..n]), calls[n]);
    }
  }

  /** In no run does a scrape in the middle of a call miss a cable that stays recorded: the series it
      sees before the deletion contain the old ones, and after it they are the final ones. */
  lemma NoScrapeMissesACable(calls: seq<Call>, n: nat, stage: set<Series>)
    requires LabelsTellFamily(calls) && n < |calls|
    requires Run(calls[..n]).connections <= stage || stage == After(Run(calls[..n]), calls[n]).connections
    ensures StillShown(Run(calls[..n]).index, After(Run(calls[..n]), calls[n]).index, stage)
  {
    LabelsTellFamilyPrefix(calls, n);
    GaugesAlwaysAgree(calls[..n]);
    RunsDoNotCollide(calls, n);
    NeverMissing(Run(calls[..n]), calls[n], stage);
  }

  /** Without that assumption the gauge loses a recorded cable: two endpoints that publish no address
      carry the same labels for both families, so disconnecting IPv4 also deletes the IPv6 series. */
  lemma UnpublishedDualStackLosesSeries(driver: string, local: EndpointSpec, remote: EndpointSpec, status: string)
    requires local.GetPublicIP(IPv4) == local.GetPublicIP(IPv6) && remote.GetPublicIP(IPv4) == remote.GetPublicIP(IPv6)
    ensures var calls := [
        Connection(driver, local, remote, IPv4, status),
        Connection(driver, local, remote, IPv6, status),
        Disconnected(driver, local, remote, IPv4)];
      Run(calls).connections == {} && CableKey(driver, remote.clusterID, IPv6) in Run(calls).index
  {
    var c4, c6 := Connection(driver, local, remote, IPv4, status), Connection(driver, local, remote, IPv6, status);
    var d := Disconnected(driver, local, remote, IPv4);
    FamiliesHaveOwnKeys(driver, remote.clusterID);
    assert [c4, c6, d][..2] == [c4, c6] && [c4, c6][..1] == [c4] && [c4][..0] == [];
    var s0, s1 := Run([]), Run([c4]);
    assert s1 == After(s0, c4);
    var s2 := Run([c4, c6]);
    assert s2 == After(s1, c6);
    assert Run([c4, c6, d]) == After(s2, d);
  }

  lemma FamiliesHaveOwnKeys(driver: string, cluster: string)
    ensures CableKey(driver, cluster, IPv4) != CableKey(driver, cluster, IPv6)
  {
    var a := driver + "/" + cluster + "/";
    assert CableKey(driver, cluster, IPv4)[|a|] == '4' && CableKey(driver, cluster, IPv6)[|a|] == '6';
  }

  /** Different cables have different keys, as driver names contain no slash. */
  lemma CableKeyInjective(d1: string, c1: string, f1: Family, d2: string, c2: string, f2: Family)
    requires '/' !in d1 && '/' !in d2 && CableKey(d1, c1, f1) == CableKey(d2, c2, f2)
    ensures d1 == d2 && c1 == c2 && f1 == f2
  {
    var k := CableKey(d1, c1, f1);
    assert k[|d1|] == '/' && k[|d2|] == '/';
    assert forall i :: 0 <= i < |d1| ==> k[i] in d1;
    assert forall i :: 0 <= i < |d2| ==> k[i] in d2;
    assert d1 == k[..|d1|] && d2 == k[..|d2|];
    LastTellsFamily(d1, c1, f1);
    LastTellsFamily(d2, c2, f2);
    assert c1 == k[|d1| + 1..|k| - 1 - |Text(f1)|] && c2 == k[|d2| + 1..|k| - 1 - |Text(f2)|];
  }

  lemma LastTellsFamily(d: string, c: string, f: Family)
    ensures var k := CableKey(d, c, f);
      k[|k| - 1] == match f case IPv4 => '4' case IPv6 => '6' case IPFamilyUnknown => '/'
  {
  }

  // ----- what a single call shows -----

  /** After a connection is recorded there is a series that names the driver, and of both ends the cluster, the
      host and the public IP of the family; and the cable is recorded with it. */
  lemma ConnectionIsShown(s: State, driver: string, local: EndpointSpec, remote: EndpointSpec, family: Family,
                          status: string)
    returns (shown: Series)
    ensures var after := After(s, Connection(driver, local, remote, family, status));
      && shown in after.connections && shown.status == status && shown.labels.cableDriver == driver
      && shown.labels.localCluster == local.clusterID && shown.labels.remoteCluster == remote.clusterID
      && shown.labels.localHostname == local.hostname && shown.labels.remoteHostname == remote.hostname
      && shown.labels.localEndpointIP == local.GetPublicIP(family)
      && shown.labels.remoteEndpointIP == remote.GetPublicIP(family)
      && CableKey(driver, remote.clusterID, family) in after.index
      && after.index[CableKey(driver, remote.clusterID, family)] == CableStatus(shown.labels, status, remote.cableName)
  {
    shown := Series(GetLabels(driver, local, remote, family), status);
  }

  /** Disconnecting the cable that is recorded, or one that is not recorded, forgets it and takes every series
      with its labels; another cable recorded in its place keeps everything. */
  lemma DisconnectedIsForgotten(s: State, driver: string, local: EndpointSpec, remote: EndpointSpec, family: Family)
    ensures var call, key := Disconnected(driver, local, remote, family), CableKey(driver, remote.clusterID, family);
      var labels := GetLabels(driver, local, remote, family);
      var other := key in s.index && (s.index[key].cableName != remote.cableName || s.index[key].labels != labels);
      if other then After(s, call) == s && Dropped(DeletionOf(s.index, call)) == {}
      else key !in After(s, call).index && Dropped(DeletionOf(s.index, call)) == {labels}
           && forall x :: x in After(s, call).connections <==> x in s.connections && x.labels != labels
  {
    assert s.connections + {} == s.connections;
  }

  /** Recording a connection takes the latency, establishment and traffic series with it exactly of labels
      that the cable no longer has. */
  lemma ReplacedLabelsAreDropped(index: Index, driver: string, local: EndpointSpec, remote: EndpointSpec,
                                 family: Family, status: string)
    ensures var call, key :=
      Connection(driver, local, remote, family, status), CableKey(driver, remote.clusterID, family);
      var labels := GetLabels(driver, local, remote, family);
      Dropped(DeletionOf(index, call)) ==
        if key in index && index[key].labels != labels then {index[key].labels} else {}
  {
  }

  /** A series of labels that are dropped is gone from every gauge, and no other is. */
  lemma DroppedEverywhere(gauges: LabelGauges, gone: set<Labels>, labels: Labels)
    ensures var left := gauges.Without(gone);
      && (labels in left.latency <==> labels in gauges.latency && labels !in gone)
      && (labels in left.established <==> labels in gauges.established && labels !in gone)
      && (labels in left.rx <==> labels in gauges.rx && labels !in gone)
      && (labels in left.tx <==> labels in gauges.tx && labels !in gone)
  {
  }
}
